/**
 * The term printer of src/stringifyLam.ts.
 *
 * A term is printed recursively; the context it appears in (directly under a
 * binder, left or right operand of an application, or at the top) decides
 * whether the binder symbol is repeated, whether a `.` precedes an
 * application and whether parentheses are added.
 */
module LamPrinter {

  /**
   * `String.fromCharCode` yields one UTF-16 code unit; Dafny characters
   * exclude surrogates, so name numbers are kept below the surrogate range.
   */
  type Name = n: nat | n < 0xD800 - 97

  /** Terms as the printer sees them: variables and binders carry a name number. */
  datatype Exp =
    | Var(name: Name)
    | Lam(name: Name, b: Exp)
    | App(f: Exp, arg: Exp)
    | Error

  /** Where a sub-term is printed: `lam | appl | appr | top`. */
  datatype From = FromLam | FromAppL | FromAppR | FromTop

  /** The default binder symbol, a Greek small lambda. */
  const DefaultDelim: string := "\U{03BB}"

  /** The characters used for the names occurring in a term. */
  function NameChars(e: Exp): (cs: set<char>)
    ensures forall c :: c in cs ==> 97 <= c as int < 0xD800
  {
    match e
    case Var(n) => {NameChar(n)}
    case Lam(n, b) => {NameChar(n)} + NameChars(b)
    case App(f, a) => NameChars(f) + NameChars(a)
    case Error => {}
  }

  /** The character with code n + 97 ('a' for 0, 'b' for 1, ...). */
  function NameChar(n: Name): (c: char)
    ensures c as int == n + 97
  {
    (n + 97) as char
  }

  /** nameFromNum: the one-character string for a name number. */
  function NameFromNum(n: Name): (s: string)
    ensures |s| == 1 && s[0] as int == n + 97
  {
    [NameChar(n)]
  }

  /** _stringifyLam: print term e in context frm with binder symbol delim. */
  function Stringify(e: Exp, frm: From, delim: string): (s: string)
  {
    match e
    case Lam(n, b) =>
      var v := NameFromNum(n);
      var bind := if frm == FromLam then "" else delim;
      var rv := bind + v + Stringify(b, FromLam, delim);
      if frm == FromLam || frm == FromTop then rv else "(" + rv + ")"
    case App(f, a) =>
      var pref := if frm == FromLam then "." else "";
      var res1 := Stringify(f, FromAppL, delim);
      var res2 := Stringify(a, FromAppR, delim);
      var rv := pref + res1 + " " + res2;
      if frm == FromAppR then "(" + rv + ")" else rv
    case Var(n) => NameFromNum(n)
    case Error => "ERROR"
  }

  /** stringifyLam: print a whole term, starting in the top context. */
  function StringifyLam(e: Exp, delim: string := DefaultDelim): (s: string)
  {
    Stringify(e, FromTop, delim)
  }

  /** Distinct name numbers print as distinct letters. */
  lemma NameFromNumInjective(m: Name, n: Name)
    requires m != n
    ensures NameFromNum(m) != NameFromNum(n)
  {
    assert NameFromNum(m)[0] != NameFromNum(n)[0];
  }

  /** In argument position a binder or an application is parenthesised; nothing else is. */
  lemma {:induction false} ArgumentPositionWraps(e: Exp, delim: string)
    ensures Stringify(e, FromAppR, delim) ==
      if e.Lam? || e.App? then "(" + Stringify(e, FromTop, delim) + ")" else Stringify(e, FromTop, delim)
  {
    match e
    case Lam(n, b) =>
      var rv := delim + NameFromNum(n) + Stringify(b, FromLam, delim);
      assert Stringify(e, FromTop, delim) == rv;
      assert Stringify(e, FromAppR, delim) == "(" + rv + ")";
    case App(f, a) =>
      var rv := "" + Stringify(f, FromAppL, delim) + " " + Stringify(a, FromAppR, delim);
      assert Stringify(e, FromTop, delim) == rv;
      assert Stringify(e, FromAppR, delim) == "(" + rv + ")";
    case _ =>
  }

  /** In function position only a binder is parenthesised, so applications nest to the left bare. */
  lemma {:induction false} FunctionPositionWraps(e: Exp, delim: string)
    ensures Stringify(e, FromAppL, delim) ==
      if e.Lam? then "(" + Stringify(e, FromTop, delim) + ")" else Stringify(e, FromTop, delim)
  {
    match e
    case Lam(n, b) =>
      var rv := delim + NameFromNum(n) + Stringify(b, FromLam, delim);
      assert Stringify(e, FromTop, delim) == rv;
      assert Stringify(e, FromAppL, delim) == "(" + rv + ")";
    case App(f, a) =>
      var rv := "" + Stringify(f, FromAppL, delim) + " " + Stringify(a, FromAppR, delim);
      assert Stringify(e, FromTop, delim) == rv;
      assert Stringify(e, FromAppL, delim) == rv;
    case _ =>
  }

  /**
   * Directly under a binder the binder symbol is dropped and an application
   * gains a leading dot; a variable or an error prints as anywhere else.
   */
  lemma {:induction false} UnderBinderElides(e: Exp, delim: string)
    ensures e.Lam? ==> Stringify(e, FromTop, delim) == delim + Stringify(e, FromLam, delim)
    ensures e.App? ==> Stringify(e, FromLam, delim) == "." + Stringify(e, FromTop, delim)
    ensures e.Var? || e.Error? ==> Stringify(e, FromLam, delim) == Stringify(e, FromTop, delim)
  {
    match e
    case Lam(n, b) =>
      var body := NameFromNum(n) + Stringify(b, FromLam, delim);
      assert Stringify(e, FromTop, delim) == delim + body;
      assert Stringify(e, FromLam, delim) == "" + body;
    case App(f, a) =>
      var rv := Stringify(f, FromAppL, delim) + " " + Stringify(a, FromAppR, delim);
      assert Stringify(e, FromTop, delim) == "" + rv;
      assert Stringify(e, FromLam, delim) == "." + rv;
    case _ =>
  }

  /** The first character a term prints in function position. */
  lemma {:induction false} FirstCharInFunctionPosition(e: Exp, delim: string)
    ensures |Stringify(e, FromAppL, delim)| > 0
    ensures Stringify(e, FromAppL, delim)[0] in NameChars(e) + {'(', 'E'}
  {
    match e
    case App(f, a) =>
      FirstCharInFunctionPosition(f, delim);
      var s1 := Stringify(f, FromAppL, delim);
      assert Stringify(e, FromAppL, delim) == s1 + " " + Stringify(a, FromAppR, delim);
    case _ =>
  }

  /** What follows a binder's letter is never empty and never starts with ')'. */
  lemma {:induction false} FirstCharUnderBinder(e: Exp, delim: string)
    ensures |Stringify(e, FromLam, delim)| > 0
    ensures Stringify(e, FromLam, delim)[0] != ')'
  {
  }

  function Tetrahedron(): Exp {
    Lam(0, Lam(1, Lam(2, App(Var(0), App(Var(1), Var(2))))))
  }

  function Cube(): Exp {
    Lam(0, Lam(1, Lam(2, Lam(3,
      App(Var(0), Lam(4, App(Var(1), App(Var(2), App(Var(3), Var(4))))))))))
  }

  function Degree2(): Exp {
    Lam(0, Lam(1, App(Var(0), Var(1))))
  }

  /** The printed forms of three end-to-end fixtures, with `/` as binder symbol. */
  lemma TetrahedronString()
    ensures StringifyLam(Tetrahedron(), "/") == "/abc.a (b c)"
  {
    assert Stringify(App(Var(1), Var(2)), FromAppR, "/") == "(b c)";
    assert Stringify(App(Var(0), App(Var(1), Var(2))), FromLam, "/") == ".a (b c)";
  }

  /** The argument of the cube's body, over arbitrary names. */
  lemma {:induction false} CubeArgumentString(b: Name, c: Name, d: Name, e: Name)
    requires b == 1 && c == 2 && d == 3 && e == 4
    ensures Stringify(Lam(e, App(Var(b), App(Var(c), App(Var(d), Var(e))))), FromAppR, "/") == "(/e.b (c (d e)))"
  {
    var cde := App(Var(c), App(Var(d), Var(e)));
    CubeInnerString(c, d, e);
    var s2 := "." + "b" + " " + "(c (d e))";
    assert Stringify(App(Var(b), cde), FromLam, "/") == s2;
    assert Stringify(Lam(e, App(Var(b), cde)), FromAppR, "/") == "(" + ("/" + "e" + s2) + ")";
  }

  /** The innermost applications of the cube. */
  lemma CubeInnerString(c: Name, d: Name, e: Name)
    requires c == 2 && d == 3 && e == 4
    ensures Stringify(App(Var(c), App(Var(d), Var(e))), FromAppR, "/") == "(c (d e))"
  {
    var de := App(Var(d), Var(e));
    var s0 := "(" + ("" + "d" + " " + "e") + ")";
    assert Stringify(de, FromAppR, "/") == s0;
    assert Stringify(App(Var(c), de), FromAppR, "/") == "(" + ("" + "c" + " " + s0) + ")";
  }

  /** The cube term over arbitrary names. */
  lemma {:induction false} CubeShapeString(a: Name, b: Name, c: Name, d: Name, e: Name, arg: string)
    requires arg == Stringify(Lam(e, App(Var(b), App(Var(c), App(Var(d), Var(e))))), FromAppR, "/")
    ensures Stringify(Lam(a, Lam(b, Lam(c, Lam(d,
      App(Var(a), Lam(e, App(Var(b), App(Var(c), App(Var(d), Var(e)))))))))), FromTop, "/")
      == "/" + NameFromNum(a) + NameFromNum(b) + NameFromNum(c) + NameFromNum(d)
         + "." + NameFromNum(a) + " " + arg
  {
    var A, B, C, D := NameFromNum(a), NameFromNum(b), NameFromNum(c), NameFromNum(d);
    var body := App(Var(a), Lam(e, App(Var(b), App(Var(c), App(Var(d), Var(e))))));
    var s4 := "." + A + " " + arg;
    assert Stringify(body, FromLam, "/") == s4;
    assert Stringify(Lam(d, body), FromLam, "/") == "" + D + s4;
    assert Stringify(Lam(c, Lam(d, body)), FromLam, "/") == "" + C + ("" + D + s4);
    assert Stringify(Lam(b, Lam(c, Lam(d, body))), FromLam, "/") == "" + B + ("" + C + ("" + D + s4));
  }

  /** The letters of the cube's binders and head. */
  lemma CubeHeadLetters(a: Name, b: Name, c: Name, d: Name)
    requires a == 0 && b == 1 && c == 2 && d == 3
    ensures "/" + NameFromNum(a) + NameFromNum(b) + NameFromNum(c) + NameFromNum(d) + "." + NameFromNum(a) + " "
            == "/abcd.a "
  {
    assert NameFromNum(a) == "a" && NameFromNum(b) == "b" && NameFromNum(c) == "c" && NameFromNum(d) == "d";
  }

  /** The cube term printed, with its names kept symbolic until the last step. */
  lemma CubeStringAt(a: Name, b: Name, c: Name, d: Name, e: Name)
    requires a == 0 && b == 1 && c == 2 && d == 3 && e == 4
    ensures Stringify(Lam(a, Lam(b, Lam(c, Lam(d,
      App(Var(a), Lam(e, App(Var(b), App(Var(c), App(Var(d), Var(e)))))))))), FromTop, "/")
      == "/abcd.a " + "(/e.b (c (d e)))"
  {
    CubeArgumentString(b, c, d, e);
    CubeShapeString(a, b, c, d, e, "(/e.b (c (d e)))");
    CubeHeadLetters(a, b, c, d);
  }

  lemma CubeString(e: Exp)
    requires e == Cube()
    ensures StringifyLam(e, "/") == "/abcd.a (/e.b (c (d e)))"
  {
    CubeStringAt(0, 1, 2, 3, 4);
    CubeJoin();
  }

  lemma CubeJoin()
    ensures "/abcd.a " + "(/e.b (c (d e)))" == "/abcd.a (/e.b (c (d e)))"
  {
  }

  lemma Degree2String()
    ensures StringifyLam(Degree2(), "/") == "/ab.a b"
  {
    assert Stringify(App(Var(0), Var(1)), FromLam, "/") == ".a b";
  }
}
