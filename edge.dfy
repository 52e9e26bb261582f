/**
 * Edge geometry (src/edge.ts). A OneEdge is drawn as a quadratic Bezier
 * curve from vertex a to vertex b passing through the centroid m of its ink;
 * a MultiEdge is a chain of segments drawn as cubic Bezier curves. Edge
 * objects are never updated after construction, so they are values here.
 *
 * The normalisation `vnorm` (which needs a square root) and the quarter turn
 * `vrot90` are parameters `norm` and `rot90` of the operations that use them.
 */
module Edges {
  import opened Util
  import G = Graph

  /** SMOL_OFFSET: how far root choices sit from an edge's break point. */
  const SmolOffset: real := 12.0

  datatype Side = SideA | SideB

  /** One piece of an edge: ends va and vb, and the centroid m it bends through. */
  datatype Segment = Segment(va: Point, vb: Point, m: Point)

  datatype Cubic = Cubic(A: Point, B: Point, C: Point, D: Point)

  datatype EdgeSpec = EdgeSpec(i: nat, which: Side)

  /** A candidate root position, and the side of the edge it would break. */
  datatype RootSpec = RootSpec(p: Point, es: EdgeSpec)

  datatype Edge =
    | OneEdge(a: nat, b: nat, va: Point, vb: Point, m: Point)
    | MultiEdge(a: nat, b: nat, segs: seq<Segment>)

  /** A MultiEdge is always made from two edges, so it has a first segment. */
  predicate Valid(e: Edge) {
    e.MultiEdge? ==> e.segs != []
  }

  /** The OneEdge constructor: copy a, b and m, and look up the positions of both end vertices. */
  function NewOneEdge(vertices: map<nat, G.Vertex>, pe: G.PreEdge): (e: Edge)
    requires pe.a in vertices && pe.b in vertices
    ensures e.OneEdge? && Valid(e) && e.a == pe.a && e.b == pe.b && e.m == pe.m
    ensures e.va == vertices[pe.a].p && e.vb == vertices[pe.b].p
  {
    OneEdge(pe.a, pe.b, vertices[pe.a].p, vertices[pe.b].p, pe.m)
  }

  /**
   * A OneEdge built from a PreEdge is one segment between the two vertex
   * positions that breaks at the ink's centroid, and the curve drawn for it
   * starts at a's vertex, ends at b's and passes through that centroid.
   */
  lemma OneEdgeFromPreEdge(vertices: map<nat, G.Vertex>, pe: G.PreEdge)
    requires pe.a in vertices && pe.b in vertices
    ensures var e, va, vb := NewOneEdge(vertices, pe), vertices[pe.a].p, vertices[pe.b].p;
      GetSegments(e) == [Segment(va, vb, pe.m)] && GetBreakPoint(e) == pe.m &&
      QuadAt(va, Control(va, vb, pe.m), vb, 0.0) == va &&
      QuadAt(va, Control(va, vb, pe.m), vb, 1.0) == vb &&
      QuadAt(va, Control(va, vb, pe.m), vb, 0.5) == pe.m
  {
    ControlThroughCentroid(vertices[pe.a].p, vertices[pe.b].p, pe.m);
  }

  /** The quadratic control point 2m - (va + vb) / 2 of a one-segment edge. */
  function Control(va: Point, vb: Point, m: Point): Point {
    VMap3(m, va, vb, (m, a, b) => 2.0 * m - (a + b) / 2.0)
  }

  /** The quadratic Bezier curve from p0 to p1 with control point c, at parameter t. */
  function QuadAt(p0: Point, c: Point, p1: Point, t: real): Point {
    var s := 1.0 - t;
    Point(s * s * p0.x + 2.0 * s * t * c.x + t * t * p1.x,
          s * s * p0.y + 2.0 * s * t * c.y + t * t * p1.y)
  }

  /** Its derivative with respect to t. */
  function QuadSlope(p0: Point, c: Point, p1: Point, t: real): Point {
    var s := 1.0 - t;
    Point(2.0 * s * (c.x - p0.x) + 2.0 * t * (p1.x - c.x),
          2.0 * s * (c.y - p0.y) + 2.0 * t * (p1.y - c.y))
  }

  /** With that control point the curve runs from va to vb and passes through m halfway. */
  lemma ControlThroughCentroid(va: Point, vb: Point, m: Point)
    ensures var c := Control(va, vb, m);
      QuadAt(va, c, vb, 0.0) == va && QuadAt(va, c, vb, 1.0) == vb && QuadAt(va, c, vb, 0.5) == m
  {
    var c := Control(va, vb, m);
    assert c.x == 2.0 * m.x - (va.x + vb.x) / 2.0;
    assert c.y == 2.0 * m.y - (va.y + vb.y) / 2.0;
  }

  /** getBreakPoint: m, or the first segment's m. */
  function GetBreakPoint(e: Edge): Point
    requires Valid(e)
  {
    match e
    case OneEdge(_, _, _, _, m) => m
    case MultiEdge(_, _, segs) => segs[0].m
  }

  /** getSegments: the single segment of a OneEdge, or the stored segments. */
  function GetSegments(e: Edge): seq<Segment> {
    match e
    case OneEdge(_, _, va, vb, m) => [Segment(va, vb, m)]
    case MultiEdge(_, _, segs) => segs
  }

  /** The segment root choices are taken around. */
  function FirstSegment(e: Edge): Segment
    requires Valid(e)
  {
    match e
    case OneEdge(_, _, va, vb, m) => Segment(va, vb, m)
    case MultiEdge(_, _, segs) => segs[0]
  }

  /** A valid edge has segments, and its break point is the centroid of the first. */
  lemma BreakPointOfFirstSegment(e: Edge)
    requires Valid(e)
    ensures GetSegments(e) != [] && GetSegments(e)[0] == FirstSegment(e)
    ensures GetBreakPoint(e) == GetSegments(e)[0].m
  {
  }

  /**
   * getRootChoices: two candidate roots, one on each side of the break point,
   * offset along the quarter-turned direction from vb to va.
   */
  function GetRootChoices(e: Edge, i: nat, norm: Point -> Point, rot90: Point -> Point): seq<RootSpec>
    requires Valid(e)
  {
    var seg := FirstSegment(e);
    var off := rot90(VScale(norm(VSub(seg.va, seg.vb)), SmolOffset));
    [RootSpec(VPlus(seg.m, off), EdgeSpec(i, SideA)), RootSpec(VSub(seg.m, off), EdgeSpec(i, SideB))]
  }

  /** The two root choices are tagged a then b and lie symmetrically about the break point. */
  lemma RootChoicesSymmetric(e: Edge, i: nat, norm: Point -> Point, rot90: Point -> Point)
    requires Valid(e)
    ensures var r, m := GetRootChoices(e, i, norm, rot90), GetBreakPoint(e);
      |r| == 2 && r[0].es == EdgeSpec(i, SideA) && r[1].es == EdgeSpec(i, SideB) &&
      VSub(r[0].p, m) == VSub(m, r[1].p) && VPlus(r[0].p, r[1].p) == VScale(m, 2.0)
  {
  }

  /**
   * getVelocity of a OneEdge: the normalised direction from the chosen end
   * to the control point.
   */
  function OneEdgeVelocity(va: Point, vb: Point, m: Point, side: Side, norm: Point -> Point): Point {
    var vs := if side == SideA then va else vb;
    var c := Control(va, vb, m);
    norm(VSub(c, vs))
  }

  /** The cubic for one segment: from va to vb with both inner control points at m. */
  function CubicOf(seg: Segment): Cubic {
    Cubic(seg.va, seg.m, seg.m, seg.vb)
  }

  /** The cubics of a sequence of segments, one per segment, in order. */
  function Cubics(segs: seq<Segment>): (cs: seq<Cubic>)
    ensures |cs| == |segs|
  {
    if segs == [] then [] else [CubicOf(segs[0])] + Cubics(segs[1..])
  }

  /** Cubics picks each segment's cubic at its own place. */
  lemma {:induction false} CubicsAt(segs: seq<Segment>, j: int)
    requires 0 <= j < |segs|
    ensures Cubics(segs)[j] == Cubic(segs[j].va, segs[j].m, segs[j].m, segs[j].vb)
  {
    if j > 0 {
      CubicsAt(segs[1..], j - 1);
    }
  }

  /** The cubics of concatenated segments are the cubics of each part, concatenated. */
  lemma {:induction false} CubicsConcat(s: seq<Segment>, t: seq<Segment>)
    ensures Cubics(s + t) == Cubics(s) + Cubics(t)
  {
    if s == [] {
      assert s + t == t;
    } else {
      assert (s + t)[0] == s[0] && (s + t)[1..] == s[1..] + t;
      CubicsConcat(s[1..], t);
    }
  }

  /** getCubics: one cubic per segment, pushed in order: A = va, B = C = m, D = vb. */
  method GetCubics(e: Edge) returns (rv: seq<Cubic>)
    requires e.MultiEdge?
    ensures |rv| == |e.segs|
    ensures forall j :: 0 <= j < |rv| ==> rv[j] == Cubic(e.segs[j].va, e.segs[j].m, e.segs[j].m, e.segs[j].vb)
    ensures rv == Cubics(e.segs)
  {
    rv := [];
    var j := 0;
    while j < |e.segs|
      invariant 0 <= j <= |e.segs| && |rv| == j
      invariant forall k :: 0 <= k < j ==> rv[k] == Cubics(e.segs)[k] == CubicOf(e.segs[k])
    {
      CubicsAt(e.segs, j);
      rv := rv + [Cubic(e.segs[j].va, e.segs[j].m, e.segs[j].m, e.segs[j].vb)];
      j := j + 1;
    }
  }

  /**
   * getVelocity of a MultiEdge: only the first cubic counts, with
   * norm(B - 3A) at end a and norm(C - 3D) at end b.
   */
  function MultiEdgeVelocity(segs: seq<Segment>, side: Side, norm: Point -> Point): Point
    requires segs != []
  {
    var cub := Cubics(segs)[0];
    if side == SideA then norm(VMap2(cub.A, cub.B, (A, B) => B - 3.0 * A))
    else norm(VMap2(cub.C, cub.D, (C, D) => C - 3.0 * D))
  }

  /** getVelocity: the direction at which the edge leaves end `side`. */
  function GetVelocity(e: Edge, side: Side, norm: Point -> Point): Point
    requires Valid(e)
  {
    match e
    case OneEdge(_, _, va, vb, m) => OneEdgeVelocity(va, vb, m, side, norm)
    case MultiEdge(_, _, segs) => MultiEdgeVelocity(segs, side, norm)
  }

  /**
   * A OneEdge leaves each end along the curve's tangent: the normalised
   * vector is half the curve's slope at a, and minus half of it at b.
   */
  lemma OneEdgeVelocityIsTangent(e: Edge, norm: Point -> Point)
    requires e.OneEdge?
    ensures var c := Control(e.va, e.vb, e.m);
      GetVelocity(e, SideA, norm) == norm(VScale(QuadSlope(e.va, c, e.vb, 0.0), 0.5)) &&
      GetVelocity(e, SideB, norm) == norm(VScale(QuadSlope(e.va, c, e.vb, 1.0), -0.5))
  {
    var c := Control(e.va, e.vb, e.m);
    assert VSub(c, e.va) == VScale(QuadSlope(e.va, c, e.vb, 0.0), 0.5);
    assert VSub(c, e.vb) == VScale(QuadSlope(e.va, c, e.vb, 1.0), -0.5);
  }

  /** A MultiEdge's velocity depends only on its first segment: norm(m - 3 va) and norm(m - 3 vb). */
  lemma MultiEdgeVelocityOfFirst(e: Edge, norm: Point -> Point)
    requires e.MultiEdge? && Valid(e)
    ensures var s := e.segs[0];
      GetVelocity(e, SideA, norm) == norm(VSub(s.m, VScale(s.va, 3.0))) &&
      GetVelocity(e, SideB, norm) == norm(VSub(s.m, VScale(s.vb, 3.0)))
  {
    CubicsAt(e.segs, 0);
  }

  /** The MultiEdge constructor: ends from e1, segments of e1 followed by those of e2. */
  function NewMultiEdge(e1: Edge, e2: Edge): (e: Edge)
    ensures e.MultiEdge? && e.a == e1.a && e.b == e1.b
    ensures GetSegments(e) == GetSegments(e1) + GetSegments(e2)
  {
    MultiEdge(e1.a, e1.b, GetSegments(e1) + GetSegments(e2))
  }

  /**
   * Joining keeps what the first edge decides: the result is valid, breaks
   * where e1 breaks, offers e1's root choices, and its cubics are e1's
   * followed by e2's.
   */
  lemma MultiEdgeKeepsFirst(e1: Edge, e2: Edge, i: nat, norm: Point -> Point, rot90: Point -> Point)
    requires Valid(e1)
    ensures var e := NewMultiEdge(e1, e2);
      Valid(e) && GetBreakPoint(e) == GetBreakPoint(e1) &&
      GetRootChoices(e, i, norm, rot90) == GetRootChoices(e1, i, norm, rot90) &&
      Cubics(GetSegments(e)) == Cubics(GetSegments(e1)) + Cubics(GetSegments(e2))
  {
    BreakPointOfFirstSegment(e1);
    CubicsConcat(GetSegments(e1), GetSegments(e2));
  }
}
