/**
 * A reader for the printer's output, used as the printer's inverse: it shows
 * that the printer's minimal parenthesisation and binder elision lose no
 * information. Its grammar is the printer's, read back:
 *
 *   top   ::= delim binder | chain
 *   inner ::= delim binder | chain                  (inside parentheses)
 *   chain ::= atom (' ' atom)*                      (left-nested application)
 *   atom  ::= letter | ERROR | '(' inner ')'
 *   binder::= letter body
 *   body  ::= '.' chain | letter (at the end or before ')') | binder | ERROR
 */
module LamParser {
  import opened Wrappers
  import opened LamPrinter

  predicate IsNameChar(c: char) {
    97 <= c as int < 0xD800
  }

  function NumOfName(c: char): (n: Name)
    requires IsNameChar(c)
    ensures NameChar(n) == c
  {
    c as int - 97
  }

  predicate StartsWith(s: string, p: string) {
    |p| <= |s| && s[..|p|] == p
  }

  /** atom ::= letter | ERROR | '(' inner ')' */
  function ParseAtom(s: string, delim: string): (r: Option<(Exp, string)>)
    requires delim != []
    ensures r.Some? ==> |r.value.1| < |s|
    decreases |s|, 2
  {
    if |s| == 0 then None
    else if IsNameChar(s[0]) then Some((Var(NumOfName(s[0])), s[1..]))
    else if StartsWith(s, "ERROR") then Some((Error, s[5..]))
    else if s[0] == '(' then
      match ParseInner(s[1..], delim)
      case Some((e, t)) => if |t| > 0 && t[0] == ')' then Some((e, t[1..])) else None
      case None => None
    else None
  }

  /** inner ::= delim binder | chain */
  function ParseInner(s: string, delim: string): (r: Option<(Exp, string)>)
    requires delim != []
    ensures r.Some? ==> |r.value.1| < |s|
    decreases |s|, 4
  {
    if StartsWith(s, delim) then ParseBinder(s[|delim|..], delim)
    else ParseChain(s, delim)
  }

  /** chain ::= atom (' ' atom)* */
  function ParseChain(s: string, delim: string): (r: Option<(Exp, string)>)
    requires delim != []
    ensures r.Some? ==> |r.value.1| < |s|
    decreases |s|, 3
  {
    match ParseAtom(s, delim)
    case Some((e, t)) => ChainTail(e, t, delim)
    case None => None
  }

  /** The rest of a chain: each further atom becomes the argument of an application. */
  function ChainTail(acc: Exp, s: string, delim: string): (r: Option<(Exp, string)>)
    requires delim != []
    ensures r.Some? ==> |r.value.1| <= |s|
    decreases |s|, 1
  {
    if |s| > 0 && s[0] == ' ' then
      match ParseAtom(s[1..], delim)
      case Some((a, t)) => ChainTail(App(acc, a), t, delim)
      case None => None
    else Some((acc, s))
  }

  /** binder ::= letter body */
  function ParseBinder(s: string, delim: string): (r: Option<(Exp, string)>)
    requires delim != []
    ensures r.Some? ==> |r.value.1| < |s|
    decreases |s|, 0
  {
    if |s| > 0 && IsNameChar(s[0]) then
      match ParseBody(s[1..], delim)
      case Some((b, t)) => Some((Lam(NumOfName(s[0]), b), t))
      case None => None
    else None
  }

  /** body ::= '.' chain | letter (at the end or before ')') | binder | ERROR */
  function ParseBody(s: string, delim: string): (r: Option<(Exp, string)>)
    requires delim != []
    ensures r.Some? ==> |r.value.1| < |s|
    decreases |s|, 1
  {
    if |s| == 0 then None
    else if s[0] == '.' then ParseChain(s[1..], delim)
    else if IsNameChar(s[0]) then
      if |s| == 1 || s[1] == ')' then Some((Var(NumOfName(s[0])), s[1..]))
      else ParseBinder(s, delim)
    else if StartsWith(s, "ERROR") then Some((Error, s[5..]))
    else None
  }

  /** Read a whole printed term. */
  function ParseTop(s: string, delim: string): (r: Option<Exp>)
    requires delim != []
  {
    match ParseInner(s, delim)
    case Some((e, t)) => if t == [] then Some(e) else None
    case None => None
  }

  /**
   * The binder symbol can be told apart from a term's first character: it is
   * not empty, and does not start with '(', 'E' or a letter the term uses.
   */
  predicate DelimFits(e: Exp, delim: string) {
    delim != [] && delim[0] !in NameChars(e) + {'(', 'E'}
  }

  /** Something that ends a binder's body: the end of the text or a closing parenthesis. */
  predicate BodyEnd(t: string) {
    t == [] || t[0] == ')'
  }

  lemma ChainTailStops(acc: Exp, t: string, delim: string)
    requires delim != [] && BodyEnd(t)
    ensures ChainTail(acc, t, delim) == Some((acc, t))
  {
  }

  // One-step readings of the grammar, each on text of a given shape.

  lemma ParenAtom(x: string, t: string, e: Exp, delim: string)
    requires delim != []
    requires ParseInner(x + (")" + t), delim) == Some((e, ")" + t))
    ensures ParseAtom("(" + x + ")" + t, delim) == Some((e, t))
  {
    var s := "(" + x + ")" + t;
    assert s[0] == '(';
    assert s[..1] != "ERROR"[..1];
    assert s[1..] == x + (")" + t);
    assert (")" + t)[1..] == t;
  }

  lemma InnerBinder(u: string, delim: string)
    requires delim != []
    ensures ParseInner(delim + u, delim) == ParseBinder(u, delim)
  {
    assert (delim + u)[..|delim|] == delim;
    assert (delim + u)[|delim|..] == u;
  }

  lemma InnerChain(u: string, delim: string)
    requires delim != [] && |u| > 0 && u[0] != delim[0]
    ensures ParseInner(u, delim) == ParseChain(u, delim)
  {
    assert u[..1] != delim[..1];
  }

  lemma BinderStep(n: Name, rest: string, b: Exp, t: string, delim: string)
    requires delim != []
    requires ParseBody(rest, delim) == Some((b, t))
    ensures ParseBinder(NameFromNum(n) + rest, delim) == Some((Lam(n, b), t))
  {
    assert (NameFromNum(n) + rest)[1..] == rest;
  }

  lemma TailStep(acc: Exp, x: string, a: Exp, t: string, delim: string)
    requires delim != []
    requires ParseAtom(x, delim) == Some((a, t))
    ensures ChainTail(acc, " " + x, delim) == ChainTail(App(acc, a), t, delim)
  {
    assert (" " + x)[1..] == x;
  }

  lemma BodyDot(x: string, delim: string)
    requires delim != []
    ensures ParseBody("." + x, delim) == ParseChain(x, delim)
  {
    assert ("." + x)[1..] == x;
  }

  lemma BodyBinder(n: Name, rest: string, delim: string)
    requires delim != [] && |rest| > 0 && rest[0] != ')'
    ensures ParseBody(NameFromNum(n) + rest, delim) == ParseBinder(NameFromNum(n) + rest, delim)
  {
    var s := NameFromNum(n) + rest;
    assert s[1] == rest[0];
  }

  /** An argument-position print reads back as one atom, whatever follows it. */
  lemma {:induction false} AtomRoundTrip(e: Exp, t: string, delim: string)
    requires DelimFits(e, delim)
    ensures ParseAtom(Stringify(e, FromAppR, delim) + t, delim) == Some((e, t))
    decreases e, 1
  {
    match e
    case Var(n) =>
      assert (NameFromNum(n) + t)[1..] == t;
    case Error =>
      assert ("ERROR" + t)[..5] == "ERROR";
      assert ("ERROR" + t)[5..] == t;
    case Lam(n, b) => AtomRoundTripLam(e, t, delim);
    case App(f, a) => AtomRoundTripApp(e, t, delim);
  }

  lemma {:induction false} AtomRoundTripLam(e: Exp, t: string, delim: string)
    requires e.Lam? && DelimFits(e, delim)
    ensures ParseAtom(Stringify(e, FromAppR, delim) + t, delim) == Some((e, t))
    decreases e, 0
  {
    var n, b := e.name, e.b;
    var body := Stringify(b, FromLam, delim);
    var x := delim + (NameFromNum(n) + body);
    assert Stringify(e, FromAppR, delim) == "(" + x + ")";
    BodyRoundTrip(b, ")" + t, delim);
    BinderStep(n, body + (")" + t), b, ")" + t, delim);
    assert x + (")" + t) == delim + (NameFromNum(n) + (body + (")" + t)));
    InnerBinder(NameFromNum(n) + (body + (")" + t)), delim);
    ParenAtom(x, t, e, delim);
  }

  lemma {:induction false} AtomRoundTripApp(e: Exp, t: string, delim: string)
    requires e.App? && DelimFits(e, delim)
    ensures ParseAtom(Stringify(e, FromAppR, delim) + t, delim) == Some((e, t))
    decreases e, 0
  {
    var f, a := e.f, e.arg;
    var sf := Stringify(f, FromAppL, delim);
    var sa := Stringify(a, FromAppR, delim);
    var x := sf + (" " + sa);
    assert Stringify(e, FromAppR, delim) == "(" + x + ")";
    var rest := " " + (sa + (")" + t));
    assert x + (")" + t) == sf + rest;
    FirstCharInFunctionPosition(f, delim);
    assert (sf + rest)[0] == sf[0];
    InnerChain(sf + rest, delim);
    ChainRoundTrip(f, rest, delim);
    AtomRoundTrip(a, ")" + t, delim);
    TailStep(f, sa + (")" + t), a, ")" + t, delim);
    ChainTailStops(e, ")" + t, delim);
    ParenAtom(x, t, e, delim);
  }

  /** A function-position print reads back as a chain ending in that term. */
  lemma {:induction false} ChainRoundTrip(e: Exp, t: string, delim: string)
    requires DelimFits(e, delim)
    ensures ParseChain(Stringify(e, FromAppL, delim) + t, delim) == ChainTail(e, t, delim)
    decreases e, 2
  {
    match e
    case App(f, a) =>
      var sf := Stringify(f, FromAppL, delim);
      var sa := Stringify(a, FromAppR, delim);
      assert Stringify(e, FromAppL, delim) + t == sf + (" " + (sa + t));
      ChainRoundTrip(f, " " + (sa + t), delim);
      AtomRoundTrip(a, t, delim);
      TailStep(f, sa + t, a, t, delim);
    case _ =>
      FunctionPositionWraps(e, delim);
      ArgumentPositionWraps(e, delim);
      AtomRoundTrip(e, t, delim);
  }

  /** What a binder's letter is followed by reads back as the binder's body. */
  lemma {:induction false} BodyRoundTrip(e: Exp, t: string, delim: string)
    requires DelimFits(e, delim) && BodyEnd(t)
    ensures ParseBody(Stringify(e, FromLam, delim) + t, delim) == Some((e, t))
    decreases e, 3
  {
    match e
    case Var(n) =>
      assert (NameFromNum(n) + t)[1..] == t;
    case Error =>
      assert ("ERROR" + t)[..5] == "ERROR";
      assert ("ERROR" + t)[5..] == t;
    case Lam(n, b) =>
      BodyRoundTrip(b, t, delim);
      BodyLamStep(n, b, t, delim);
    case App(f, a) =>
      ChainRoundTrip(e, t, delim);
      BodyAppStep(f, a, t, delim);
  }

  /** The binder case of BodyRoundTrip, given the body's read-back. */
  lemma BodyLamStep(n: Name, b: Exp, t: string, delim: string)
    requires DelimFits(Lam(n, b), delim) && BodyEnd(t)
    requires ParseBody(Stringify(b, FromLam, delim) + t, delim) == Some((b, t))
    ensures ParseBody(Stringify(Lam(n, b), FromLam, delim) + t, delim) == Some((Lam(n, b), t))
  {
    var body := Stringify(b, FromLam, delim);
    assert Stringify(Lam(n, b), FromLam, delim) + t == NameFromNum(n) + (body + t);
    FirstCharUnderBinder(b, delim);
    assert (body + t)[0] == body[0];
    BodyBinder(n, body + t, delim);
    BinderStep(n, body + t, b, t, delim);
  }

  /** The application case of BodyRoundTrip, given the chain's read-back. */
  lemma BodyAppStep(f: Exp, a: Exp, t: string, delim: string)
    requires DelimFits(App(f, a), delim) && BodyEnd(t)
    requires ParseChain(Stringify(App(f, a), FromAppL, delim) + t, delim) == ChainTail(App(f, a), t, delim)
    ensures ParseBody(Stringify(App(f, a), FromLam, delim) + t, delim) == Some((App(f, a), t))
  {
    var e := App(f, a);
    var rv := Stringify(f, FromAppL, delim) + " " + Stringify(a, FromAppR, delim);
    assert Stringify(e, FromLam, delim) + t == "." + (rv + t);
    assert Stringify(e, FromAppL, delim) == rv;
    BodyDot(rv + t, delim);
    ChainTailStops(e, t, delim);
  }

  /** Printing then reading gives back the term, for any binder symbol that fits. */
  lemma {:induction false} ReadBack(e: Exp, delim: string)
    requires DelimFits(e, delim)
    ensures ParseTop(StringifyLam(e, delim), delim) == Some(e)
  {
    var s := StringifyLam(e, delim);
    match e
    case Lam(n, b) =>
      var body := Stringify(b, FromLam, delim);
      assert s == delim + (NameFromNum(n) + (body + []));
      InnerBinder(NameFromNum(n) + (body + []), delim);
      BodyRoundTrip(b, [], delim);
      BinderStep(n, body + [], b, [], delim);
    case _ =>
      FunctionPositionWraps(e, delim);
      FirstCharInFunctionPosition(e, delim);
      var sl := Stringify(e, FromAppL, delim);
      assert s == sl + [];
      InnerChain(s, delim);
      ChainRoundTrip(e, [], delim);
      ChainTailStops(e, [], delim);
  }

  /** Distinct terms print differently (with a binder symbol that fits both). */
  lemma PrintingIsInjective(e1: Exp, e2: Exp, delim: string)
    requires DelimFits(e1, delim) && DelimFits(e2, delim)
    requires StringifyLam(e1, delim) == StringifyLam(e2, delim)
    ensures e1 == e2
  {
    ReadBack(e1, delim);
    ReadBack(e2, delim);
  }
}
