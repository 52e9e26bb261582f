/**
 * The blob-to-graph step (src/graph.ts): every node mark becomes a vertex at
 * its centroid, every edge mark that touches exactly two labels becomes an
 * edge between them through its centroid, and every other mark is dropped.
 *
 * Vertex and edge ids are the labels themselves; the source keys them by the
 * labels' decimal strings, and `Object.keys` lists such integer-like keys in
 * ascending numeric order.
 */
module Graph {
  import opened Util
  import C = Conjoined

  /** A vertex as findGraph creates it: only its position is set. */
  datatype Vertex = Vertex(p: Point)

  /**
   * An edge before coalescing: end labels a and b, and the centroid m of its
   * ink. The source declares it beside the edge classes; it lives here because
   * findGraph produces it and the edge module imports this one.
   */
  datatype PreEdge = PreEdge(a: nat, m: Point, b: nat)

  datatype GraphData = GraphData(vertices: map<nat, Vertex>, edges: seq<PreEdge>)

  predicate IsNode(conj: C.ConjoinedData, i: nat) {
    i in conj.marks && conj.marks[i] == C.Node
  }

  predicate IsEdge(conj: C.ConjoinedData, i: nat) {
    i in conj.marks && conj.marks[i] == C.Edge
  }

  /**
   * What findGraph reads must be there: the centroid of every node mark,
   * the adjacency entry of every edge mark (`Object.keys(undefined)`
   * throws) and the centroid of every edge mark that becomes an edge.
   */
  predicate Readable(conj: C.ConjoinedData) {
    forall i: nat :: 1 <= i <= conj.numMarks ==>
      (IsNode(conj, i) ==> i in conj.avg) &&
      (IsEdge(conj, i) ==> i in conj.adjacent && (|conj.adjacent[i]| == 2 ==> i in conj.avg))
  }

  /** Every non-empty finite set of labels has a least element. */
  lemma {:induction false} HasLeast(s: set<nat>)
    requires s != {}
    ensures exists a :: a in s && forall c :: c in s ==> a <= c
    decreases s
  {
    var x :| x in s;
    if y :| y in s && y < x {
      var below := set c | c in s && c < x;
      assert y in below && x !in below;
      HasLeast(below);
      var a :| a in below && forall c :: c in below ==> a <= c;
      forall c | c in s
        ensures a <= c
      {
        if c < x {
          assert c in below;
        }
      }
    } else {
      assert forall c :: c in s ==> x <= c;
    }
  }

  /** The least label of a non-empty set. */
  function Least(s: set<nat>): (a: nat)
    requires s != {}
    ensures a in s && forall c :: c in s ==> a <= c
  {
    HasLeast(s);
    var a :| a in s && forall c :: c in s ==> a <= c;
    a
  }

  /** `Object.keys` of a two-element adjacency set: its labels in ascending order. */
  function Ends(s: set<nat>): (r: (nat, nat))
    requires |s| == 2
    ensures r.0 < r.1 && s == {r.0, r.1}
  {
    var a := Least(s);
    assert |s - {a}| == 1;
    var b := Least(s - {a});
    assert s == {a, b} by {
      assert |(s - {a}) - {b}| == 0;
      assert (s - {a}) - {b} == {};
    }
    (a, b)
  }

  /** The edge an edge mark i touching exactly two labels yields. */
  function EdgeOf(conj: C.ConjoinedData, i: nat): (e: PreEdge)
    requires i in conj.adjacent && |conj.adjacent[i]| == 2 && i in conj.avg
    ensures e.a < e.b && conj.adjacent[i] == {e.a, e.b} && e.m == conj.avg[i]
  {
    var ends := Ends(conj.adjacent[i]);
    PreEdge(ends.0, conj.avg[i], ends.1)
  }

  /** Mark i yields an edge: an edge mark adjacent to exactly two labels. */
  predicate YieldsEdge(conj: C.ConjoinedData, i: nat) {
    IsEdge(conj, i) && i in conj.adjacent && |conj.adjacent[i]| == 2
  }

  /** The body of findGraph's loop for label i. */
  function GraphStep(conj: C.ConjoinedData, g: GraphData, i: nat): GraphData
    requires Readable(conj) && 1 <= i <= conj.numMarks
  {
    if IsNode(conj, i) then
      GraphData(g.vertices[i := Vertex(conj.avg[i])], g.edges)
    else if YieldsEdge(conj, i) then
      GraphData(g.vertices, g.edges + [EdgeOf(conj, i)])
    else
      g
  }

  /** The graph after findGraph's loop has handled labels 1 .. n. */
  function GraphUpTo(conj: C.ConjoinedData, n: nat): GraphData
    requires Readable(conj) && n <= conj.numMarks
  {
    if n == 0 then GraphData(map[], [])
    else GraphStep(conj, GraphUpTo(conj, n - 1), n)
  }

  /** findGraph: one pass over labels 1 .. numMarks. */
  method FindGraph(conj: C.ConjoinedData) returns (g: GraphData)
    requires Readable(conj)
    ensures g == GraphUpTo(conj, conj.numMarks)
  {
    var vertices: map<nat, Vertex> := map[];
    var edges: seq<PreEdge> := [];
    var i := 1;
    while i < conj.numMarks + 1
      invariant 1 <= i <= conj.numMarks + 1
      invariant GraphData(vertices, edges) == GraphUpTo(conj, i - 1)
    {
      if i in conj.marks && conj.marks[i] == C.Node {
        vertices := vertices[i := Vertex(conj.avg[i])];
      } else if i in conj.marks && conj.marks[i] == C.Edge {
        var adj := conj.adjacent[i];
        if |adj| == 2 {
          var ends := Ends(adj);
          edges := edges + [PreEdge(ends.0, conj.avg[i], ends.1)];
        }
      }
      i := i + 1;
    }
    g := GraphData(vertices, edges);
  }

  /**
   * On the output of findConjoined every mark has a centroid, so findGraph
   * can read it as soon as every edge mark has an adjacency entry.
   */
  lemma ReadableAfterSegmentation(img: C.Image, conj: C.ConjoinedData)
    requires C.WellFormed(img) && C.Ink(img.pixels) < 0x10000
    requires var st := C.Labelling(img);
      conj.marks == st.marks && conj.numMarks + 1 == st.counter &&
      C.CellsNonEmpty(st.cells) && conj.avg == C.Centroids(st.cells)
    requires forall i: nat :: 1 <= i <= conj.numMarks && IsEdge(conj, i) ==> i in conj.adjacent
    ensures Readable(conj)
  {
    C.CellsArePixels(img);
  }

  /** The vertices are exactly the node marks, each at the centroid of its mark. */
  lemma {:induction false} VerticesAreNodes(conj: C.ConjoinedData, n: nat, i: nat)
    requires Readable(conj) && n <= conj.numMarks
    ensures i in GraphUpTo(conj, n).vertices <==> 1 <= i <= n && IsNode(conj, i)
    ensures i in GraphUpTo(conj, n).vertices ==> GraphUpTo(conj, n).vertices[i] == Vertex(conj.avg[i])
  {
    if n > 0 {
      VerticesAreNodes(conj, n - 1, i);
    }
  }

  /** The labels among 1 .. n whose marks yield edges, ascending. */
  function EdgeLabels(conj: C.ConjoinedData, n: nat): seq<nat>
  {
    if n == 0 then []
    else if YieldsEdge(conj, n) then EdgeLabels(conj, n - 1) + [n]
    else EdgeLabels(conj, n - 1)
  }

  /**
   * The edges are those of the edge marks touching exactly two labels, one
   * per such mark, in ascending label order; node and unknown marks, and
   * edge marks touching fewer or more labels, contribute none.
   */
  lemma {:induction false} EdgesInLabelOrder(conj: C.ConjoinedData, n: nat)
    requires Readable(conj) && n <= conj.numMarks
    ensures var ls, es := EdgeLabels(conj, n), GraphUpTo(conj, n).edges;
      (forall i: nat :: i in ls <==> 1 <= i <= n && YieldsEdge(conj, i)) &&
      (forall j, k :: 0 <= j < k < |ls| ==> ls[j] < ls[k]) &&
      |es| == |ls| &&
      (forall j :: 0 <= j < |ls| ==>
         1 <= ls[j] <= n && YieldsEdge(conj, ls[j]) && ls[j] in conj.avg && es[j] == EdgeOf(conj, ls[j]))
  {
    if n > 0 {
      EdgesInLabelOrder(conj, n - 1);
      var ls, es := EdgeLabels(conj, n - 1), GraphUpTo(conj, n - 1).edges;
      if YieldsEdge(conj, n) {
        assert EdgeLabels(conj, n) == ls + [n];
        assert GraphUpTo(conj, n).edges == es + [EdgeOf(conj, n)];
      } else {
        assert EdgeLabels(conj, n) == ls;
        assert GraphUpTo(conj, n).edges == es;
      }
    }
  }

  /** Every edge found runs between the two labels its ink touches, smaller label first. */
  lemma EdgeEnds(conj: C.ConjoinedData, j: int)
    requires Readable(conj) && 0 <= j < |GraphUpTo(conj, conj.numMarks).edges|
    ensures var e := GraphUpTo(conj, conj.numMarks).edges[j];
      e.a < e.b &&
      exists i :: 1 <= i <= conj.numMarks && YieldsEdge(conj, i) && conj.adjacent[i] == {e.a, e.b} && e.m == conj.avg[i]
  {
    EdgesInLabelOrder(conj, conj.numMarks);
    var i := EdgeLabels(conj, conj.numMarks)[j];
    assert i in EdgeLabels(conj, conj.numMarks);
  }

  /**
   * findGraph does not check that an edge's ends are node marks: ink of an
   * edge mark touching two other edge marks still yields an edge, between
   * labels that are not vertices.
   */
  lemma EndsNotChecked()
    ensures var conj := C.ConjoinedData(C.SizedArray(0, 0, []), map[1 := C.Edge, 2 := C.Edge, 3 := C.Edge],
                                        map[1 := Point(0.0, 0.0), 2 := Point(1.0, 0.0), 3 := Point(2.0, 0.0)],
                                        map[1 := {2, 3}, 2 := {1}, 3 := {1}], 3);
      Readable(conj) &&
      GraphUpTo(conj, 3).edges == [PreEdge(2, Point(0.0, 0.0), 3)] &&
      2 !in GraphUpTo(conj, 3).vertices && 3 !in GraphUpTo(conj, 3).vertices
  {
    var conj := C.ConjoinedData(C.SizedArray(0, 0, []), map[1 := C.Edge, 2 := C.Edge, 3 := C.Edge],
                                map[1 := Point(0.0, 0.0), 2 := Point(1.0, 0.0), 3 := Point(2.0, 0.0)],
                                map[1 := {2, 3}, 2 := {1}, 3 := {1}], 3);
    assert |conj.adjacent[1]| == 2;
    assert |conj.adjacent[2]| == 1 && |conj.adjacent[3]| == 1;
    var e := EdgeOf(conj, 1);
    assert e == PreEdge(2, Point(0.0, 0.0), 3);
  }
}
