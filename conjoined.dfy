/**
 * Ink segmentation (src/conjoined.ts): connected same-colour regions of a
 * drawing are labelled 1, 2, ... in a 16-bit label buffer, each label gets a
 * mark type and a centroid, and touching labels are recorded as adjacent.
 *
 * Pixel (x, y) lives at flat index y * w + x, both in the image and in the
 * label buffer. The flood fill pushes (x +- 1, y) and (x, y +- 1) without a
 * bounds check, so it works over flat indices k with neighbours k +- 1 and
 * k +- w inside [0, w * h): a horizontal step wraps across a row end, and an
 * index outside the buffer reads `undefined` and is skipped.
 */
module Conjoined {
  import opened Wrappers
  import opened Util

  /** An element of a Uint16Array. */
  newtype u16 = x: int | 0 <= x < 0x10000

  type Byte = x: int | 0 <= x < 256

  datatype Color = Color(r: Byte, g: Byte, b: Byte)

  const White: Color := Color(255, 255, 255)
  const Red: Color := Color(255, 0, 0)
  const Blue: Color := Color(0, 0, 255)

  datatype MarkType = Node | Edge | Unknown

  /** An RGB image; pixel (x, y) is `pixels[y * width + x]`. */
  datatype Image = Image(width: nat, height: nat, pixels: seq<Color>)

  predicate WellFormed(img: Image) {
    |img.pixels| == img.width * img.height
  }

  /** A point as pushed on the fill stack: integer coordinates, possibly off the image. */
  datatype Pix = Pix(x: int, y: int)

  function ToPoint(p: Pix): Point {
    Point(p.x as real, p.y as real)
  }

  /** colorEq: all three channels agree. */
  function ColorEq(c: Color, d: Color): (r: bool)
    ensures r <==> c == d
  {
    c.r == d.r && c.g == d.g && c.b == d.b
  }

  /** markTypeOfColor: pure red is a node, pure blue an edge, anything else unknown. */
  function MarkTypeOfColor(c: Color): (t: MarkType)
    ensures t == Node <==> c == Red
    ensures t == Edge <==> c == Blue
    ensures t == Unknown <==> c != Red && c != Blue
  {
    if ColorEq(c, Red) then Node
    else if ColorEq(c, Blue) then Edge
    else Unknown
  }

  /** The background is not ink of either kind. */
  lemma WhiteIsUnknown()
    ensures MarkTypeOfColor(White) == Unknown
  {
  }

  /** Flat index of a (possibly off-image) point. */
  function FlatOf(w: nat, p: Pix): int {
    p.y * w + p.x
  }

  /** colorGet: the colour at (x, y), or None where the flat index leaves the image. */
  function ColorGet(img: Image, x: int, y: int): (c: Option<Color>)
    requires WellFormed(img)
    ensures c.Some? <==> 0 <= FlatOf(img.width, Pix(x, y)) < |img.pixels|
    ensures c.Some? ==> c.value == img.pixels[FlatOf(img.width, Pix(x, y))]
  {
    var k := y * img.width + x;
    if 0 <= k < |img.pixels| then Some(img.pixels[k]) else None
  }

  /** Column and row of a flat index. */
  function Col(w: nat, k: nat): nat {
    if w == 0 then 0 else k % w
  }

  function Row(w: nat, k: nat): nat {
    if w == 0 then 0 else k / w
  }

  /** The flat index of an on-image point determines the point. */
  lemma FlatCoords(w: nat, x: int, y: int)
    requires 0 <= x < w && 0 <= y
    ensures FlatOf(w, Pix(x, y)) >= 0
    ensures Col(w, FlatOf(w, Pix(x, y))) == x && Row(w, FlatOf(w, Pix(x, y))) == y
  {
    var k := y * w + x;
    DivModUnique(k, w, y, x);
  }

  lemma DivModUnique(k: int, w: nat, q: int, r: int)
    requires 0 <= r < w && 0 <= q && k == q * w + r
    ensures k / w == q && k % w == r
  {
    var q', r' := k / w, k % w;
    assert k == q' * w + r';
    if q' < q {
      assert q' * w + w <= q * w by {
        MulMono(q' + 1, q, w);
      }
    } else if q' > q {
      MulMono(q + 1, q', w);
    }
  }

  lemma MulMono(a: int, b: int, w: nat)
    requires a <= b
    ensures a * w <= b * w
  {
    assert b * w - a * w == (b - a) * w;
  }

  /** Every flat index of the buffer is the flat index of its column and row. */
  lemma ColRow(w: nat, h: nat, k: int)
    requires 0 <= k < w * h
    ensures Col(w, k) < w && Row(w, k) < h
    ensures FlatOf(w, Pix(Col(w, k), Row(w, k))) == k
  {
    if Row(w, k) >= h {
      MulMono(h, Row(w, k), w);
    }
  }

  /** Distinct on-image points have distinct flat indices. */
  lemma FlatInjective(w: nat, p: Pix, q: Pix)
    requires 0 <= p.x < w && 0 <= p.y && 0 <= q.x < w && 0 <= q.y
    requires FlatOf(w, p) == FlatOf(w, q)
    ensures p == q
  {
    FlatCoords(w, p.x, p.y);
    FlatCoords(w, q.x, q.y);
  }

  /** Stepping left from the start of a row lands on the end of the row above. */
  lemma LeftStepWraps(w: nat, y: int)
    requires w > 0
    ensures FlatOf(w, Pix(-1, y + 1)) == FlatOf(w, Pix(w - 1, y))
  {
  }

  /**
   * Where a flat index falls for a w x h buffer: inside for on-image points,
   * before it above the first row, past it below the last row; stepping off
   * either side of a row lands in the neighbouring row.
   */
  lemma FlatBounds(w: nat, h: nat, x: int, y: int)
    ensures 0 <= x < w && 0 <= y < h ==> 0 <= FlatOf(w, Pix(x, y)) < w * h
    ensures y < 0 && x < w ==> FlatOf(w, Pix(x, y)) < 0
    ensures h <= y && 0 <= x ==> w * h <= FlatOf(w, Pix(x, y))
    ensures FlatOf(w, Pix(-1, y + 1)) == FlatOf(w, Pix(w - 1, y))
    ensures FlatOf(w, Pix(w, y)) == FlatOf(w, Pix(0, y + 1))
  {
    if 0 <= x < w && 0 <= y < h {
      MulMono(y + 1, h, w);
    }
    if y < 0 && x < w {
      MulMono(y, -1, w);
    }
    if h <= y && 0 <= x {
      MulMono(h, y, w);
    }
  }

  /**
   * colorGet on the image and off it: an on-image point reads its pixel,
   * a point above the first row or below the last reads nothing, and a step
   * off the left or right edge of a row reads the last pixel of the row above
   * or the first pixel of the row below.
   */
  lemma ColorGetAtEdges(img: Image, x: int, y: int)
    requires WellFormed(img)
    ensures 0 <= x < img.width && 0 <= y < img.height ==> ColorGet(img, x, y).Some?
    ensures y < 0 && x < img.width ==> ColorGet(img, x, y) == None
    ensures img.height <= y && 0 <= x ==> ColorGet(img, x, y) == None
    ensures ColorGet(img, -1, y + 1) == ColorGet(img, img.width - 1, y)
    ensures ColorGet(img, img.width, y) == ColorGet(img, 0, y + 1)
  {
    FlatBounds(img.width, img.height, x, y);
  }

  /** The flat neighbours used by the fill: k +- 1 and k +- w. */
  predicate Adjacent(w: nat, k: int, j: int) {
    j == k + 1 || j == k - 1 || j == k + w || j == k - w
  }

  /** The points a fill step pushes, in push order: right, left, down, up. */
  function Pushed(p: Pix): seq<Pix> {
    [Pix(p.x + 1, p.y), Pix(p.x - 1, p.y), Pix(p.x, p.y + 1), Pix(p.x, p.y - 1)]
  }

  /** The four points a fill step pushes have exactly the flat neighbours of the filled point. */
  lemma PushedAreAdjacent(w: nat, p: Pix, j: int)
    ensures Adjacent(w, FlatOf(w, p), j) <==> j in FlatsOf(w, Pushed(p))
  {
    var fs := FlatsOf(w, Pushed(p));
    assert fs == [FlatOf(w, p) + 1, FlatOf(w, p) - 1, FlatOf(w, p) + w, FlatOf(w, p) - w] by {
      assert fs[0] == FlatOf(w, Pushed(p)[0]);
      assert fs[1] == FlatOf(w, Pushed(p)[1]);
      assert fs[2] == FlatOf(w, Pushed(p)[2]);
      assert fs[3] == FlatOf(w, Pushed(p)[3]);
    }
  }

  /**
   * Position of flat index k in the raster scan, which runs x outer and y
   * inner: column x, row y is visited x * h + y-th.
   */
  function ScanIndex(w: nat, h: nat, k: nat): nat {
    Col(w, k) * h + Row(w, k)
  }

  /** The n-th pixel of the scan is (n / h, n % h), inside the image, and its flat index has scan index n. */
  lemma ScanPos(w: nat, h: nat, n: int)
    requires 0 <= n < w * h
    ensures h > 0 && 0 <= n / h < w && 0 <= n % h < h
    ensures 0 <= FlatOf(w, Pix(n / h, n % h)) < w * h
    ensures ScanIndex(w, h, FlatOf(w, Pix(n / h, n % h))) == n
  {
    var x, y := n / h, n % h;
    if x >= w {
      MulMono(w, x, h);
    }
    InImage(w, h, x, y);
    FlatCoords(w, x, y);
  }

  /** A pixel inside the image has a flat index inside the buffer. */
  lemma InImage(w: nat, h: nat, x: int, y: int)
    requires 0 <= x < w && 0 <= y < h
    ensures 0 <= FlatOf(w, Pix(x, y)) < w * h
  {
    MulMono(y + 1, h, w);
  }

  /** Pixel (x, y) is the (x * h + y)-th of the scan. */
  lemma ScanVisit(w: nat, h: nat, x: int, y: int)
    requires 0 <= x < w && 0 <= y < h
    ensures 0 <= x * h + y < w * h && (x * h + y) / h == x && (x * h + y) % h == y
    ensures 0 <= FlatOf(w, Pix(x, y)) < w * h
  {
    MulMono(x + 1, w, h);
    DivModUnique(x * h + y, h, x, y);
    InImage(w, h, x, y);
  }

  /** The position of pixel (x, y) in the scan; the scan's n-th pixel is (n / h, n % h). */
  function ScanAt(w: nat, h: nat, x: int, y: int): (n: nat)
    requires 0 <= x < w && 0 <= y < h
    ensures n == x * h + y && n < w * h && n / h == x && n % h == y
  {
    ScanVisit(w, h, x, y);
    x * h + y
  }

  /** The position in the scan of the top of column x; the column's h pixels follow it. */
  function ColumnAt(w: nat, h: nat, x: int): (n: nat)
    requires 0 <= x < w
    ensures n == x * h && n + h == (x + 1) * h <= w * h
  {
    MulMono(x + 1, w, h);
    x * h
  }

  /** Only one pixel of the buffer has a given scan index. */
  lemma ScanIndexUnique(w: nat, h: nat, j: int, k: int)
    requires 0 <= j < w * h && 0 <= k < w * h && ScanIndex(w, h, j) == ScanIndex(w, h, k)
    ensures j == k
  {
    ColRow(w, h, j);
    ColRow(w, h, k);
    var n := ScanIndex(w, h, j);
    DivModUnique(n, h, Col(w, j), Row(w, j));
    DivModUnique(n, h, Col(w, k), Row(w, k));
  }

  /** Every pixel of the buffer is visited by the scan. */
  lemma ScanIndexBound(w: nat, h: nat, k: int)
    requires 0 <= k < w * h
    ensures ScanIndex(w, h, k) < w * h
  {
    ColRow(w, h, k);
    MulMono(Col(w, k) + 1, w, h);
  }

  /** Labels 1 .. n - 1. */
  ghost predicate KeysBelow<T>(m: map<nat, T>, n: int) {
    forall L: nat :: L in m <==> 1 <= L < n
  }

  /** The flat indices of a sequence of points, in order. */
  function FlatsOf(w: nat, ps: seq<Pix>): (fs: seq<int>)
    ensures |fs| == |ps|
    ensures forall i :: 0 <= i < |ps| ==> fs[i] == FlatOf(w, ps[i])
  {
    if ps == [] then [] else FlatsOf(w, ps[..|ps| - 1]) + [FlatOf(w, ps[|ps| - 1])]
  }

  /** Coordinate sum of a sequence of points. */
  function SumOf(ps: seq<Pix>): Point {
    if ps == [] then Point(0.0, 0.0) else VPlus(SumOf(ps[..|ps| - 1]), ToPoint(ps[|ps| - 1]))
  }

  /** The centroid of a non-empty sequence of points: scaled back by the count it is the sum. */
  function Mean(ps: seq<Pix>): (m: Point)
    requires ps != []
    ensures VScale(m, |ps| as real) == SumOf(ps)
  {
    VDiv(SumOf(ps), |ps| as real)
  }

  /** The division loop has turned the sums of the labels below i into means. */
  ghost predicate DividedBelow(cells: map<nat, seq<Pix>>, avg: map<nat, Point>, i: int) {
    avg.Keys == cells.Keys && CellsNonEmpty(cells) &&
    forall L :: L in avg ==> avg[L] == if L < i then Mean(cells[L]) else SumOf(cells[L])
  }

  /** Dividing label i's sum by its pixel count gives its mean. */
  lemma DivideStep(cells: map<nat, seq<Pix>>, avg: map<nat, Point>, count: nat, i: nat)
    requires DividedBelow(cells, avg, i) && i in avg && count == |cells[i]|
    ensures DividedBelow(cells, avg[i := VDiv(avg[i], count as real)], i + 1)
  {
    assert VDiv(avg[i], count as real) == Mean(cells[i]);
  }

  /** Number of unlabelled entries of a label buffer. */
  function Zeros(lab: seq<u16>): nat {
    if lab == [] then 0 else Zeros(lab[..|lab| - 1]) + (if lab[|lab| - 1] == 0 then 1 else 0)
  }

  /** Labelling a zero entry lowers the count of zeros. */
  lemma {:induction false} ZerosWrite(lab: seq<u16>, j: int, v: u16)
    requires 0 <= j < |lab| && lab[j] == 0 && v != 0
    ensures Zeros(lab[j := v]) < Zeros(lab)
    decreases |lab|
  {
    var n := |lab| - 1;
    var lab' := lab[j := v];
    assert lab'[..n] == if j == n then lab[..n] else lab[..n][j := v];
    if j < n {
      ZerosWrite(lab[..n], j, v);
    }
  }

  /** Number of non-white pixels of an image: every fill labels at least one of them. */
  function Ink(px: seq<Color>): nat {
    if px == [] then 0 else Ink(px[..|px| - 1]) + (if px[|px| - 1] != White then 1 else 0)
  }

  /** Number of non-white pixels still unlabelled: those a later fill can start from. */
  function UnlabelledInk(px: seq<Color>, lab: seq<u16>): nat
    requires |px| == |lab|
  {
    if px == [] then 0
    else UnlabelledInk(px[..|px| - 1], lab[..|lab| - 1]) + (if px[|px| - 1] != White && lab[|lab| - 1] == 0 then 1 else 0)
  }

  /** Before any fill every non-white pixel is unlabelled. */
  lemma {:induction false} UnlabelledInkInitially(px: seq<Color>, lab: seq<u16>)
    requires |px| == |lab| && forall k :: 0 <= k < |lab| ==> lab[k] == 0
    ensures UnlabelledInk(px, lab) == Ink(px)
  {
    if px != [] {
      UnlabelledInkInitially(px[..|px| - 1], lab[..|lab| - 1]);
    }
  }

  /** An unlabelled non-white pixel is counted. */
  lemma {:induction false} UnlabelledInkAt(px: seq<Color>, lab: seq<u16>, k: int)
    requires |px| == |lab| && 0 <= k < |lab| && px[k] != White && lab[k] == 0
    ensures UnlabelledInk(px, lab) >= 1
  {
    if k < |px| - 1 {
      UnlabelledInkAt(px[..|px| - 1], lab[..|lab| - 1], k);
    }
  }

  /**
   * A fill, which only labels unlabelled entries, never raises the count of
   * unlabelled ink, and lowers it when it labels an unlabelled ink pixel k.
   */
  lemma {:induction false} WritesLowerInk(px: seq<Color>, lab: seq<u16>, lab': seq<u16>, L: nat, k: int)
    requires |px| == |lab| && WritesOnly(lab, lab', L) && L != 0
    ensures UnlabelledInk(px, lab') <= UnlabelledInk(px, lab)
    ensures 0 <= k < |lab| && px[k] != White && lab[k] == 0 && lab'[k] != 0 ==>
      UnlabelledInk(px, lab') < UnlabelledInk(px, lab)
  {
    if px != [] {
      var n := |px| - 1;
      WritesLowerInk(px[..n], lab[..n], lab'[..n], L, k);
    }
  }

  /**
   * The counter has room: the labels handed out so far, plus the non-white
   * pixels still unlabelled, number at most the non-white pixels.
   */
  predicate Room(px: seq<Color>, st: Progress) {
    |st.lab| == |px| && st.counter + UnlabelledInk(px, st.lab) <= Ink(px) + 1
  }

  /**
   * The label counter stays below 2^16 while an unlabelled non-white pixel
   * remains: each label handed out so far used up one non-white pixel.
   */
  lemma RoomForLabel(px: seq<Color>, lab: seq<u16>, counter: nat, k: int)
    requires |px| == |lab| && counter + UnlabelledInk(px, lab) <= Ink(px) + 1 && Ink(px) < 0x10000
    requires 0 <= k < |lab| && px[k] != White && lab[k] == 0
    ensures counter < 0x10000
  {
    UnlabelledInkAt(px, lab, k);
  }

  /**
   * Every labelled pixel has the colour of its label's start pixel, which is
   * not white, and labels stay below the next label to hand out.
   */
  ghost predicate Labelled(px: seq<Color>, lab: seq<u16>, counter: nat, starts: map<nat, nat>) {
    |px| == |lab| &&
    KeysBelow(starts, counter) &&
    (forall L :: L in starts ==> starts[L] < |lab| && px[starts[L]] != White) &&
    (forall k :: 0 <= k < |lab| ==> lab[k] as int < counter) &&
    (forall k :: 0 <= k < |lab| && lab[k] != 0 ==> px[k] == px[starts[lab[k] as nat]])
  }

  /** Every start pixel carries its label, except possibly the one of label cur. */
  ghost predicate StartsHeld(lab: seq<u16>, starts: map<nat, nat>, cur: nat) {
    forall L :: L in starts && L != cur ==> starts[L] < |lab| && lab[starts[L]] as int == L
  }

  /**
   * Flood-fill closure: a same-colour neighbour of a pixel labelled L (L not
   * cur) carries L too.
   */
  ghost predicate ClosedExcept(px: seq<Color>, lab: seq<u16>, w: nat, cur: nat)
    requires |px| == |lab|
  {
    forall k, j ::
      (0 <= k < |lab| && 0 <= j < |lab| && lab[k] != 0 && lab[k] as int != cur &&
       Adjacent(w, k, j) && px[j] == px[k]) ==> lab[j] == lab[k]
  }

  /**
   * During the fill of label cur with colour col: every unlabelled neighbour
   * of colour col of a pixel labelled cur is still on the stack.
   */
  ghost predicate PendingOnStack(px: seq<Color>, lab: seq<u16>, w: nat, cur: nat, col: Color, fs: seq<int>)
    requires |px| == |lab|
  {
    forall k, j ::
      (0 <= k < |lab| && 0 <= j < |lab| && lab[k] as int == cur &&
       Adjacent(w, k, j) && px[j] == col && lab[j] == 0) ==> j in fs
  }

  /**
   * cs lists the pixels labelled L, each once, by the coordinates the fill
   * credited them with.
   */
  ghost predicate Enumerates(lab: seq<u16>, w: nat, cs: seq<Pix>, L: nat) {
    var fs := FlatsOf(w, cs);
    (forall i :: 0 <= i < |fs| ==> 0 <= fs[i] < |lab| && lab[fs[i]] as int == L) &&
    (forall i, i' :: 0 <= i < i' < |fs| ==> fs[i] != fs[i']) &&
    (forall k :: 0 <= k < |lab| && lab[k] as int == L ==> k in fs)
  }

  ghost predicate Enumerated(lab: seq<u16>, w: nat, counter: nat, cells: map<nat, seq<Pix>>) {
    KeysBelow(cells, counter) &&
    forall L :: L in cells ==> Enumerates(lab, w, cells[L], L)
  }

  /** Before the division: avg holds coordinate sums and total pixel counts. */
  ghost predicate Summed(cells: map<nat, seq<Pix>>, avg: map<nat, Point>, total: map<nat, nat>) {
    avg.Keys <= cells.Keys && total.Keys == avg.Keys &&
    (forall L :: L in cells ==> (L in avg <==> cells[L] != [])) &&
    (forall L :: L in avg ==> avg[L] == SumOf(cells[L]) && total[L] == |cells[L]|)
  }

  /** After the division: avg holds centroids. */
  ghost predicate Averaged(cells: map<nat, seq<Pix>>, avg: map<nat, Point>) {
    avg.Keys == cells.Keys &&
    forall L :: L in avg ==> cells[L] != [] && avg[L] == Mean(cells[L])
  }

  /** A fill only turns unlabelled entries into label L. */
  ghost predicate WritesOnly(lab0: seq<u16>, lab: seq<u16>, L: nat) {
    |lab0| == |lab| &&
    forall k :: 0 <= k < |lab| && lab[k] != lab0[k] ==> lab0[k] == 0 && lab[k] as int == L
  }

  lemma FlatsOfSnoc(w: nat, ps: seq<Pix>, p: Pix)
    ensures FlatsOf(w, ps + [p]) == FlatsOf(w, ps) + [FlatOf(w, p)]
  {
    assert (ps + [p])[..|ps|] == ps;
  }

  lemma SumOfSnoc(ps: seq<Pix>, p: Pix)
    ensures SumOf(ps + [p]) == VPlus(SumOf(ps), ToPoint(p))
  {
    assert (ps + [p])[..|ps|] == ps;
  }

  /**
   * The running sum and count of a label being filled are those of the points
   * credited so far; accumulating one more point extends both.
   */
  lemma CreditStep(avg0: map<nat, Point>, total0: map<nat, nat>, avg: map<nat, Point>, total: map<nat, nat>,
                   mark: nat, cs: seq<Pix>, p: Pix)
    requires mark !in avg0
    requires cs == [] ==> avg == avg0 && total == total0
    requires cs != [] ==> avg == avg0[mark := SumOf(cs)] && total == total0[mark := |cs|]
    ensures mark in avg ==> mark in total
    ensures avg[mark := VPlus(if mark in avg then avg[mark] else Point(0.0, 0.0), ToPoint(p))] == avg0[mark := SumOf(cs + [p])]
    ensures total[mark := (if mark in avg then total[mark] else 0) + 1] == total0[mark := |cs + [p]|]
  {
    SumOfSnoc(cs, p);
    if cs == [] {
      assert SumOf([] + [p]) == VPlus(Point(0.0, 0.0), ToPoint(p));
    } else {
      assert avg[mark := SumOf(cs + [p])] == avg0[mark := SumOf(cs + [p])];
      assert total[mark := |cs| + 1] == total0[mark := |cs| + 1];
    }
  }

  /** Writing label L over an unlabelled pixel of L's colour keeps the labelling facts. */
  lemma WriteKeepsLabelled(px: seq<Color>, lab: seq<u16>, counter: nat, starts: map<nat, nat>, j: int, L: nat)
    requires Labelled(px, lab, counter, starts)
    requires 0 <= j < |lab| && lab[j] == 0 && 1 <= L < counter && L < 0x10000
    requires px[j] == px[starts[L]]
    ensures Labelled(px, lab[j := L as u16], counter, starts)
  {
  }

  lemma WriteKeepsClosed(px: seq<Color>, lab: seq<u16>, w: nat, j: int, L: nat)
    requires |px| == |lab| && ClosedExcept(px, lab, w, L)
    requires 0 <= j < |lab| && lab[j] == 0 && L < 0x10000
    ensures ClosedExcept(px, lab[j := L as u16], w, L)
  {
    var lab' := lab[j := L as u16];
    forall k, i | 0 <= k < |lab'| && 0 <= i < |lab'| && lab'[k] != 0 && lab'[k] as int != L &&
      Adjacent(w, k, i) && px[i] == px[k]
      ensures lab'[i] == lab'[k]
    {
      assert k != j && lab[k] == lab'[k];
      assert lab[i] == lab[k];
    }
  }

  lemma WriteKeepsHeld(lab: seq<u16>, starts: map<nat, nat>, j: int, L: nat)
    requires StartsHeld(lab, starts, L) && 0 !in starts && 0 <= j < |lab| && lab[j] == 0 && L < 0x10000
    ensures StartsHeld(lab[j := L as u16], starts, L)
  {
  }

  /** The pixel written joins L's enumeration; the other enumerations are untouched. */
  lemma WriteKeepsEnumerated(lab: seq<u16>, w: nat, counter: nat, cells: map<nat, seq<Pix>>, p: Pix, L: nat)
    requires Enumerated(lab, w, counter, cells) && L in cells && L != 0 && L < 0x10000
    requires 0 <= FlatOf(w, p) < |lab| && lab[FlatOf(w, p)] == 0
    ensures Enumerated(lab[FlatOf(w, p) := L as u16], w, counter, cells[L := cells[L] + [p]])
  {
    var cells' := cells[L := cells[L] + [p]];
    forall L' | L' in cells'
      ensures Enumerates(lab[FlatOf(w, p) := L as u16], w, cells'[L'], L')
    {
      if L' == L {
        WriteExtendsEnumerates(lab, w, cells[L], p, L);
      } else {
        WriteKeepsEnumerates(lab, w, cells[L'], FlatOf(w, p), L', L);
      }
    }
  }

  lemma WriteExtendsEnumerates(lab: seq<u16>, w: nat, cs: seq<Pix>, p: Pix, L: nat)
    requires Enumerates(lab, w, cs, L) && L != 0 && L < 0x10000
    requires 0 <= FlatOf(w, p) < |lab| && lab[FlatOf(w, p)] == 0
    ensures Enumerates(lab[FlatOf(w, p) := L as u16], w, cs + [p], L)
  {
    var j := FlatOf(w, p);
    var fs := FlatsOf(w, cs);
    FlatsOfSnoc(w, cs, p);
    ExtendEnumeration(lab, fs, j, L);
  }

  /** The same step, on the flat indices alone. */
  lemma ExtendEnumeration(lab: seq<u16>, fs: seq<int>, j: int, L: nat)
    requires L != 0 && L < 0x10000 && 0 <= j < |lab| && lab[j] == 0
    requires forall i :: 0 <= i < |fs| ==> 0 <= fs[i] < |lab| && lab[fs[i]] as int == L
    requires forall i, i' :: 0 <= i < i' < |fs| ==> fs[i] != fs[i']
    requires forall k :: 0 <= k < |lab| && lab[k] as int == L ==> k in fs
    ensures var lab', fs' := lab[j := L as u16], fs + [j];
      (forall i :: 0 <= i < |fs'| ==> 0 <= fs'[i] < |lab'| && lab'[fs'[i]] as int == L) &&
      (forall i, i' :: 0 <= i < i' < |fs'| ==> fs'[i] != fs'[i']) &&
      (forall k :: 0 <= k < |lab'| && lab'[k] as int == L ==> k in fs')
  {
    var lab', fs' := lab[j := L as u16], fs + [j];
    assert forall i :: 0 <= i < |fs| ==> fs[i] != j;
    forall k | 0 <= k < |lab'| && lab'[k] as int == L
      ensures k in fs'
    {
      if k != j {
        assert k in fs;
      }
    }
  }

  lemma WriteKeepsEnumerates(lab: seq<u16>, w: nat, cs: seq<Pix>, j: int, L': nat, L: nat)
    requires Enumerates(lab, w, cs, L') && L' != 0 && L' != L && L < 0x10000
    requires 0 <= j < |lab| && lab[j] == 0
    ensures Enumerates(lab[j := L as u16], w, cs, L')
  {
    var fs := FlatsOf(w, cs);
    assert forall i :: 0 <= i < |fs| ==> fs[i] != j;
  }

  /** Writing the popped pixel and pushing its four neighbours keeps the pending set on the stack. */
  lemma WriteKeepsPending(px: seq<Color>, lab: seq<u16>, w: nat, L: nat, col: Color, fs: seq<int>, p: Pix)
    requires |px| == |lab| && 0 < L < 0x10000
    requires PendingOnStack(px, lab, w, L, col, fs + [FlatOf(w, p)])
    requires 0 <= FlatOf(w, p) < |lab| && lab[FlatOf(w, p)] == 0
    ensures PendingOnStack(px, lab[FlatOf(w, p) := L as u16], w, L, col, fs + FlatsOf(w, Pushed(p)))
  {
    var j := FlatOf(w, p);
    var lab' := lab[j := L as u16];
    var fs' := fs + FlatsOf(w, Pushed(p));
    forall k, i | 0 <= k < |lab'| && 0 <= i < |lab'| && lab'[k] as int == L &&
      Adjacent(w, k, i) && px[i] == col && lab'[i] == 0
      ensures i in fs'
    {
      if k == j {
        PushedAreAdjacent(w, p, i);
      } else {
        assert i != j && i in fs + [j];
      }
    }
  }

  /** A popped point that is not written was not pending. */
  lemma SkipKeepsPending(px: seq<Color>, lab: seq<u16>, w: nat, L: nat, col: Color, fs: seq<int>, j: int)
    requires |px| == |lab| && PendingOnStack(px, lab, w, L, col, fs + [j])
    requires !(0 <= j < |lab| && lab[j] == 0 && px[j] == col)
    ensures PendingOnStack(px, lab, w, L, col, fs)
  {
    forall k, i | 0 <= k < |lab| && 0 <= i < |lab| && lab[k] as int == L &&
      Adjacent(w, k, i) && px[i] == col && lab[i] == 0
      ensures i in fs
    {
      assert i in fs + [j];
    }
  }

  /** Once nothing is pending the new label is closed; older labels already were. */
  lemma EmptyStackCloses(px: seq<Color>, lab: seq<u16>, w: nat, L: nat, col: Color)
    requires |px| == |lab| && L != 0
    requires PendingOnStack(px, lab, w, L, col, []) && ClosedExcept(px, lab, w, L)
    requires forall k :: 0 <= k < |lab| && lab[k] as int == L ==> px[k] == col
    ensures ClosedExcept(px, lab, w, 0)
  {
    forall k, j | 0 <= k < |lab| && 0 <= j < |lab| && lab[k] != 0 &&
      Adjacent(w, k, j) && px[j] == px[k]
      ensures lab[j] == lab[k]
    {
      assert Adjacent(w, j, k);
    }
  }

  /** Each label's mark type is that of its start pixel's colour. */
  ghost predicate MarksOk(px: seq<Color>, counter: nat, starts: map<nat, nat>, marks: map<nat, MarkType>) {
    KeysBelow(marks, counter) &&
    forall L :: L in starts ==> L in marks && starts[L] < |px| && marks[L] == MarkTypeOfColor(px[starts[L]])
  }

  /** Everything that holds about the labelling at every step; cur is the label being filled (0 between fills). */
  ghost predicate State(px: seq<Color>, lab: seq<u16>, w: nat, counter: nat, starts: map<nat, nat>,
                        marks: map<nat, MarkType>, cells: map<nat, seq<Pix>>, cur: nat)
  {
    1 <= counter && Labelled(px, lab, counter, starts) && StartsHeld(lab, starts, cur) &&
    MarksOk(px, counter, starts, marks) && Enumerated(lab, w, counter, cells) &&
    ClosedExcept(px, lab, w, cur)
  }

  /** Handing out label `counter` for a fill starting at s0 keeps every fact, with the new label open. */
  lemma NewLabelKeeps(px: seq<Color>, lab: seq<u16>, w: nat, counter: nat, starts: map<nat, nat>,
                      marks: map<nat, MarkType>, cells: map<nat, seq<Pix>>, s0: int)
    requires State(px, lab, w, counter, starts, marks, cells, 0)
    requires 0 <= s0 < |lab| && px[s0] != White
    ensures State(px, lab, w, counter + 1, starts[counter := s0],
      marks[counter := MarkTypeOfColor(px[s0])], cells[counter := []], counter)
  {
    NewLabelLabelled(px, lab, counter, starts, s0);
    NewLabelMarks(px, counter, starts, marks, s0);
    NewLabelClosed(px, lab, w, counter);
    NewLabelEnumerated(lab, w, counter, cells);
  }

  lemma NewLabelLabelled(px: seq<Color>, lab: seq<u16>, counter: nat, starts: map<nat, nat>, s0: int)
    requires Labelled(px, lab, counter, starts) && StartsHeld(lab, starts, 0) && 1 <= counter
    requires 0 <= s0 < |lab| && px[s0] != White
    ensures Labelled(px, lab, counter + 1, starts[counter := s0])
    ensures StartsHeld(lab, starts[counter := s0], counter)
  {
  }

  lemma NewLabelMarks(px: seq<Color>, counter: nat, starts: map<nat, nat>, marks: map<nat, MarkType>, s0: int)
    requires MarksOk(px, counter, starts, marks) && 1 <= counter && 0 <= s0 < |px|
    ensures MarksOk(px, counter + 1, starts[counter := s0], marks[counter := MarkTypeOfColor(px[s0])])
  {
  }

  lemma NewLabelClosed(px: seq<Color>, lab: seq<u16>, w: nat, counter: nat)
    requires |px| == |lab| && ClosedExcept(px, lab, w, 0)
    ensures ClosedExcept(px, lab, w, counter)
  {
  }

  lemma NewLabelEnumerated(lab: seq<u16>, w: nat, counter: nat, cells: map<nat, seq<Pix>>)
    requires Enumerated(lab, w, counter, cells) && 1 <= counter
    requires forall k :: 0 <= k < |lab| ==> lab[k] as int < counter
    ensures Enumerated(lab, w, counter + 1, cells[counter := []])
  {
    var cells' := cells[counter := []];
    forall L | L in cells'
      ensures Enumerates(lab, w, cells'[L], L)
    {
      if L == counter {
        assert forall k :: 0 <= k < |lab| ==> lab[k] as int != L;
      }
    }
  }

  /** No pixel carries a label that has not been handed out, so nothing of it is pending. */
  lemma FreshLabelPending(px: seq<Color>, lab: seq<u16>, w: nat, L: nat, col: Color, fs: seq<int>)
    requires |px| == |lab| && forall k :: 0 <= k < |lab| ==> lab[k] as int < L
    ensures PendingOnStack(px, lab, w, L, col, fs)
  {
  }

  /** One written pixel: the facts of the open fill survive, with the four pushed neighbours pending. */
  lemma WriteStep(px: seq<Color>, lab: seq<u16>, w: nat, counter: nat, starts: map<nat, nat>,
                  marks: map<nat, MarkType>, cells: map<nat, seq<Pix>>,
                  L: nat, col: Color, fs: seq<int>, p: Pix)
    requires State(px, lab, w, counter, starts, marks, cells, L)
    requires L in starts && px[starts[L]] == col && L < 0x10000 && counter == L + 1
    requires PendingOnStack(px, lab, w, L, col, fs + [FlatOf(w, p)])
    requires 0 <= FlatOf(w, p) < |lab| && lab[FlatOf(w, p)] == 0 && px[FlatOf(w, p)] == col
    ensures var lab' := lab[FlatOf(w, p) := L as u16];
      State(px, lab', w, counter, starts, marks, cells[L := cells[L] + [p]], L) &&
      PendingOnStack(px, lab', w, L, col, fs + FlatsOf(w, Pushed(p)))
  {
    var j := FlatOf(w, p);
    assert 0 !in starts;
    WriteKeepsLabelled(px, lab, counter, starts, j, L);
    WriteKeepsHeld(lab, starts, j, L);
    WriteKeepsEnumerated(lab, w, counter, cells, p, L);
    WriteKeepsClosed(px, lab, w, j, L);
    WriteKeepsPending(px, lab, w, L, col, fs, p);
  }

  lemma UpdateAppendNothing(cells: map<nat, seq<Pix>>, L: nat)
    requires L in cells
    ensures cells[L := cells[L] + []] == cells
  {
    assert cells[L] + [] == cells[L];
  }

  lemma UpdateAppendTwice(cells: map<nat, seq<Pix>>, L: nat, p: Pix, cs: seq<Pix>)
    requires L in cells
    ensures var cells' := cells[L := cells[L] + [p]];
      cells'[L := cells'[L] + cs] == cells[L := cells[L] + ([p] + cs)]
  {
    assert cells[L] + [p] + cs == cells[L] + ([p] + cs);
  }

  lemma UpdateFromEmpty(cells: map<nat, seq<Pix>>, L: nat, cs: seq<Pix>)
    ensures var cells' := cells[L := []];
      cells'[L := cells'[L] + cs] == cells[L := cs]
  {
    assert [] + cs == cs;
  }

  /**
   * One pass of startFill's loop on values: the popped point is labelled L
   * when it is inside the buffer, unlabelled and of the fill colour, and its
   * four neighbours are pushed; otherwise it is dropped. The result is the
   * new buffer, the new stack, and the points credited (none or the popped one).
   */
  function FillStep(px: seq<Color>, w: nat, lab: seq<u16>, stack: seq<Pix>, col: Color, L: nat)
    : (r: (seq<u16>, seq<Pix>, seq<Pix>))
    requires |px| == |lab| && 0 < L < 0x10000 && stack != []
    ensures |r.0| == |lab|
    ensures if r.2 == [] then r.0 == lab && |r.1| < |stack| else Zeros(r.0) < Zeros(lab)
  {
    var p, rest := stack[|stack| - 1], stack[..|stack| - 1];
    var j := FlatOf(w, p);
    if 0 <= j < |lab| && lab[j] == 0 && px[j] == col then
      ZerosWrite(lab, j, L as u16);
      (lab[j := L as u16], rest + Pushed(p), [p])
    else
      (lab, rest, [])
  }

  /**
   * The loop of startFill run to the end on values: starting from label
   * buffer lab and stack, the final buffer and the points credited to label
   * L, in the order they were labelled.
   */
  function FloodFill(px: seq<Color>, w: nat, lab: seq<u16>, stack: seq<Pix>, col: Color, L: nat): (r: (seq<u16>, seq<Pix>))
    requires |px| == |lab| && 0 < L < 0x10000
    ensures |r.0| == |lab|
    decreases Zeros(lab), |stack|
  {
    if stack == [] then (lab, [])
    else
      var s := FillStep(px, w, lab, stack, col, L);
      var r := FloodFill(px, w, s.0, s.1, col, L);
      (r.0, s.2 + r.1)
  }

  /** A fill only turns unlabelled pixels into label L. */
  lemma {:induction false} FloodFillWritesOnly(px: seq<Color>, w: nat, lab: seq<u16>, stack: seq<Pix>, col: Color, L: nat)
    requires |px| == |lab| && 0 < L < 0x10000
    ensures WritesOnly(lab, FloodFill(px, w, lab, stack, col, L).0, L)
    decreases Zeros(lab), |stack|
  {
    if stack != [] {
      var s := FillStep(px, w, lab, stack, col, L);
      FloodFillWritesOnly(px, w, s.0, s.1, col, L);
      WritesOnlyTrans(lab, s.0, FloodFill(px, w, s.0, s.1, col, L).0, L);
    }
  }

  /** The pixel a fill starts from, if unlabelled and of the fill colour, ends up labelled L and credited. */
  lemma FloodFillLabelsStart(px: seq<Color>, w: nat, lab: seq<u16>, p: Pix, col: Color, L: nat)
    requires |px| == |lab| && 0 < L < 0x10000
    requires 0 <= FlatOf(w, p) < |lab| && lab[FlatOf(w, p)] == 0 && px[FlatOf(w, p)] == col
    ensures FloodFill(px, w, lab, [p], col, L).0[FlatOf(w, p)] as int == L
    ensures FloodFill(px, w, lab, [p], col, L).1 != []
  {
    var s := FillStep(px, w, lab, [p], col, L);
    assert s.2 == [p];
    FloodFillWritesOnly(px, w, s.0, s.1, col, L);
  }

  /**
   * Running the fill of the open label L to the end keeps every fact of the
   * labelling, credits exactly the newly labelled pixels, and leaves nothing
   * pending.
   */
  lemma {:induction false} FloodFillKeeps(px: seq<Color>, lab: seq<u16>, w: nat, counter: nat, starts: map<nat, nat>,
                                          marks: map<nat, MarkType>, cells: map<nat, seq<Pix>>,
                                          L: nat, col: Color, stack: seq<Pix>)
    requires State(px, lab, w, counter, starts, marks, cells, L)
    requires L in starts && px[starts[L]] == col && 0 < L < 0x10000 && counter == L + 1
    requires PendingOnStack(px, lab, w, L, col, FlatsOf(w, stack))
    ensures var r := FloodFill(px, w, lab, stack, col, L);
      State(px, r.0, w, counter, starts, marks, cells[L := cells[L] + r.1], L) &&
      PendingOnStack(px, r.0, w, L, col, [])
    decreases Zeros(lab), |stack|
  {
    if stack == [] {
      UpdateAppendNothing(cells, L);
    } else {
      var p, rest := stack[|stack| - 1], stack[..|stack| - 1];
      var j := FlatOf(w, p);
      var s := FillStep(px, w, lab, stack, col, L);
      FlatsOfSnoc(w, rest, p);
      assert stack == rest + [p];
      if 0 <= j < |lab| && lab[j] == 0 && px[j] == col {
        WriteStep(px, lab, w, counter, starts, marks, cells, L, col, FlatsOf(w, rest), p);
        FlatsOfAppend(w, rest, Pushed(p));
        var cells' := cells[L := cells[L] + [p]];
        FloodFillKeeps(px, s.0, w, counter, starts, marks, cells', L, col, s.1);
        UpdateAppendTwice(cells, L, p, FloodFill(px, w, s.0, s.1, col, L).1);
      } else {
        SkipKeepsPending(px, lab, w, L, col, FlatsOf(w, rest), j);
        FloodFillKeeps(px, lab, w, counter, starts, marks, cells, L, col, rest);
        assert [] + FloodFill(px, w, lab, rest, col, L).1 == FloodFill(px, w, lab, rest, col, L).1;
      }
    }
  }

  /** When the stack runs dry the new label is closed and the state is back between fills. */
  lemma FillDone(px: seq<Color>, lab: seq<u16>, w: nat, counter: nat, starts: map<nat, nat>,
                 marks: map<nat, MarkType>, cells: map<nat, seq<Pix>>, L: nat, col: Color)
    requires State(px, lab, w, counter, starts, marks, cells, L)
    requires L in starts && px[starts[L]] == col && lab[starts[L]] as int == L && L != 0
    requires PendingOnStack(px, lab, w, L, col, [])
    ensures State(px, lab, w, counter, starts, marks, cells, 0)
    ensures L in cells && cells[L] != []
  {
    EmptyStackCloses(px, lab, w, L, col);
    assert starts[L] in FlatsOf(w, cells[L]);
  }

  /** Recording the sum and count of a finished fill's points keeps sums and counts in step. */
  lemma FillSummed(cells: map<nat, seq<Pix>>, avg: map<nat, Point>, total: map<nat, nat>, L: nat, cs: seq<Pix>)
    requires Summed(cells, avg, total) && KeysBelow(avg, L) && 1 <= L && cs != []
    ensures Summed(cells[L := cs], avg[L := SumOf(cs)], total[L := |cs|])
    ensures KeysBelow(avg[L := SumOf(cs)], L + 1)
  {
  }

  /**
   * A whole startFill on values: from a state between fills, handing out
   * label L and filling from p yields a state between fills again, with
   * L's points, sum and count recorded.
   */
  lemma FillEstablishes(px: seq<Color>, lab: seq<u16>, w: nat, L: nat, starts: map<nat, nat>,
                        marks: map<nat, MarkType>, cells: map<nat, seq<Pix>>, p: Pix, col: Color)
    requires State(px, lab, w, L, starts, marks, cells, 0)
    requires 0 <= FlatOf(w, p) < |lab| && lab[FlatOf(w, p)] == 0 && px[FlatOf(w, p)] == col
    requires col != White && L < 0x10000
    ensures var r := FloodFill(px, w, lab, [p], col, L);
      r.1 != [] &&
      State(px, r.0, w, L + 1, starts[L := FlatOf(w, p)], marks[L := MarkTypeOfColor(col)], cells[L := r.1], 0)
  {
    var s0 := FlatOf(w, p);
    var starts', marks', cells' := starts[L := s0], marks[L := MarkTypeOfColor(col)], cells[L := []];
    NewLabelKeeps(px, lab, w, L, starts, marks, cells, s0);
    FreshLabelPending(px, lab, w, L, col, FlatsOf(w, [p]));
    FloodFillKeeps(px, lab, w, L + 1, starts', marks', cells', L, col, [p]);
    var r := FloodFill(px, w, lab, [p], col, L);
    UpdateFromEmpty(cells, L, r.1);
    FloodFillLabelsStart(px, w, lab, p, col, L);
    FillDone(px, r.0, w, L + 1, starts', marks', cells[L := r.1], L, col);
  }

  lemma WritesOnlyTrans(lab0: seq<u16>, lab1: seq<u16>, lab2: seq<u16>, L: nat)
    requires WritesOnly(lab0, lab1, L) && WritesOnly(lab1, lab2, L)
    ensures WritesOnly(lab0, lab2, L)
  {
  }

  lemma FlatsOfAppend(w: nat, a: seq<Pix>, b: seq<Pix>)
    ensures FlatsOf(w, a + b) == FlatsOf(w, a) + FlatsOf(w, b)
  {
    var l, r := FlatsOf(w, a + b), FlatsOf(w, a) + FlatsOf(w, b);
    forall i | 0 <= i < |l|
      ensures l[i] == r[i]
    {
      if i < |a| {
        assert (a + b)[i] == a[i];
      } else {
        assert (a + b)[i] == b[i - |a|];
      }
    }
  }

  /**
   * The labelling as a value: the label buffer, the next label, the mark
   * types, and (for the proofs) each label's start pixel and credited points.
   */
  datatype Progress = Progress(lab: seq<u16>, counter: nat, marks: map<nat, MarkType>,
                               starts: map<nat, nat>, cells: map<nat, seq<Pix>>)

  /** Before the scan: nothing labelled, next label 1. */
  function Initial(img: Image): (st: Progress)
    ensures |st.lab| == |img.pixels| && forall k :: 0 <= k < |st.lab| ==> st.lab[k] == 0
  {
    Progress(seq(|img.pixels|, _ => 0), 1, map[], map[], map[])
  }

  /**
   * One step of the raster scan on values: visit the n-th pixel (column
   * n / h, row n % h); if it is not white and not yet labelled, hand out the
   * next label and flood-fill from it, otherwise change nothing.
   */
  function ScanStep(img: Image, st: Progress, n: int): (r: Progress)
    requires WellFormed(img) && |st.lab| == |img.pixels| && 0 <= n < img.width * img.height
    requires 1 <= st.counter && Room(img.pixels, st) && Ink(img.pixels) < 0x10000
    ensures |r.lab| == |st.lab| && (r.counter == st.counter || r.counter == st.counter + 1)
    ensures Room(img.pixels, r)
  {
    ScanPos(img.width, img.height, n);
    var p := Pix(n / img.height, n % img.height);
    var k := FlatOf(img.width, p);
    var c := img.pixels[k];
    if c != White && st.lab[k] == 0 then
      RoomForLabel(img.pixels, st.lab, st.counter, k);
      var f := FloodFill(img.pixels, img.width, st.lab, [p], c, st.counter);
      FloodFillWritesOnly(img.pixels, img.width, st.lab, [p], c, st.counter);
      FloodFillLabelsStart(img.pixels, img.width, st.lab, p, c, st.counter);
      WritesLowerInk(img.pixels, st.lab, f.0, st.counter, k);
      Progress(f.0, st.counter + 1, st.marks[st.counter := MarkTypeOfColor(c)],
               st.starts[st.counter := k], st.cells[st.counter := f.1])
    else
      st
  }

  /** The labelling after the scan has visited its first n pixels. */
  function ScanN(img: Image, n: int): (st: Progress)
    requires WellFormed(img) && Ink(img.pixels) < 0x10000 && 0 <= n <= img.width * img.height
    ensures |st.lab| == |img.pixels| && 1 <= st.counter <= n + 1
    ensures Room(img.pixels, st)
  {
    if n == 0 then
      UnlabelledInkInitially(img.pixels, Initial(img).lab);
      Initial(img)
    else ScanStep(img, ScanN(img, n - 1), n - 1)
  }

  /** Every non-white pixel the scan has visited is labelled. */
  ghost predicate ScanDone(img: Image, lab: seq<u16>, n: int)
    requires |lab| == |img.pixels|
  {
    forall k :: 0 <= k < |lab| && ScanIndex(img.width, img.height, k) < n && img.pixels[k] != White ==> lab[k] != 0
  }

  /**
   * Labels were handed out in scan order, each at a visited pixel, and no
   * pixel of a label comes before its start pixel in the scan.
   */
  ghost predicate StartsInOrder(img: Image, lab: seq<u16>, starts: map<nat, nat>, n: int) {
    var w, h := img.width, img.height;
    (forall L :: L in starts ==> ScanIndex(w, h, starts[L]) < n) &&
    (forall L, L' :: L in starts && L' in starts && L < L' ==> ScanIndex(w, h, starts[L]) < ScanIndex(w, h, starts[L'])) &&
    (forall k :: 0 <= k < |lab| && lab[k] != 0 ==>
       lab[k] as nat in starts && ScanIndex(w, h, starts[lab[k] as nat]) <= ScanIndex(w, h, k))
  }

  /** Every label handed out credits at least one point. */
  ghost predicate CellsNonEmpty(cells: map<nat, seq<Pix>>) {
    forall L :: L in cells ==> cells[L] != []
  }

  /** What holds of the labelling once the scan has visited its first n pixels. */
  ghost predicate Scanned(img: Image, st: Progress, n: int)
    requires |st.lab| == |img.pixels|
  {
    State(img.pixels, st.lab, img.width, st.counter, st.starts, st.marks, st.cells, 0) &&
    ScanDone(img, st.lab, n) && StartsInOrder(img, st.lab, st.starts, n) && CellsNonEmpty(st.cells)
  }

  lemma InitialScanned(img: Image)
    requires WellFormed(img)
    ensures Scanned(img, Initial(img), 0)
  {
    var st := Initial(img);
    assert Enumerated(st.lab, img.width, 1, map[]);
  }

  /** A visit that starts no fill keeps the scan facts and covers one more pixel. */
  lemma ScanSkipKeeps(img: Image, st: Progress, n: int, k: int)
    requires WellFormed(img) && |st.lab| == |img.pixels| && 0 <= n < img.width * img.height
    requires Scanned(img, st, n)
    requires 0 <= k < |st.lab| && ScanIndex(img.width, img.height, k) == n
    requires img.pixels[k] == White || st.lab[k] != 0
    ensures Scanned(img, st, n + 1)
  {
    forall j | 0 <= j < |st.lab| && ScanIndex(img.width, img.height, j) < n + 1 && img.pixels[j] != White
      ensures st.lab[j] != 0
    {
      if ScanIndex(img.width, img.height, j) == n {
        ScanIndexUnique(img.width, img.height, j, k);
      }
    }
  }

  /** A visit that starts a fill keeps the scan facts and covers one more pixel. */
  lemma ScanFillKeeps(img: Image, st: Progress, n: int, p: Pix, f: (seq<u16>, seq<Pix>))
    requires WellFormed(img) && |st.lab| == |img.pixels| && 0 <= n < img.width * img.height
    requires 1 <= st.counter < 0x10000 && Scanned(img, st, n)
    requires var k := FlatOf(img.width, p);
      0 <= k < |st.lab| && ScanIndex(img.width, img.height, k) == n &&
      img.pixels[k] != White && st.lab[k] == 0 &&
      f == FloodFill(img.pixels, img.width, st.lab, [p], img.pixels[k], st.counter)
    ensures var k, L := FlatOf(img.width, p), st.counter;
      |f.0| == |img.pixels| &&
      Scanned(img, Progress(f.0, L + 1, st.marks[L := MarkTypeOfColor(img.pixels[k])],
                            st.starts[L := k], st.cells[L := f.1]), n + 1)
  {
    var px, w, h, k, L := img.pixels, img.width, img.height, FlatOf(img.width, p), st.counter;
    FillEstablishes(px, st.lab, w, L, st.starts, st.marks, st.cells, p, px[k]);
    FloodFillWritesOnly(px, w, st.lab, [p], px[k], L);
    FloodFillLabelsStart(px, w, st.lab, p, px[k], L);
    ScanFillDone(img, st.lab, f.0, n, k, L);
    ScanFillOrdered(img, st.lab, f.0, st.starts, n, k, L);
  }

  /** After a fill from the pixel with scan index n, every visited non-white pixel, that one included, is labelled. */
  lemma ScanFillDone(img: Image, lab: seq<u16>, lab': seq<u16>, n: int, k: int, L: nat)
    requires WellFormed(img) && |lab| == |img.pixels| && ScanDone(img, lab, n)
    requires WritesOnly(lab, lab', L) && 0 <= k < |lab| && ScanIndex(img.width, img.height, k) == n
    requires lab'[k] as int == L && L != 0
    ensures ScanDone(img, lab', n + 1)
  {
    forall j | 0 <= j < |lab| && ScanIndex(img.width, img.height, j) < n + 1 && img.pixels[j] != White
      ensures lab'[j] != 0
    {
      if ScanIndex(img.width, img.height, j) == n {
        ScanIndexUnique(img.width, img.height, j, k);
      }
    }
  }

  /**
   * A fill from the visited pixel k (scan index n) writes only unlabelled
   * non-white pixels, which all come at or after k in the scan: so the new
   * label's start is its first pixel, and it comes after every earlier start.
   */
  lemma ScanFillOrdered(img: Image, lab: seq<u16>, lab': seq<u16>, starts: map<nat, nat>, n: int, k: int, L: nat)
    requires WellFormed(img) && |lab| == |img.pixels| && ScanDone(img, lab, n) && StartsInOrder(img, lab, starts, n)
    requires WritesOnly(lab, lab', L) && 0 <= k < |lab| && ScanIndex(img.width, img.height, k) == n
    requires forall L' :: L' in starts ==> L' < L
    requires forall j :: 0 <= j < |lab'| && lab'[j] != 0 ==> img.pixels[j] != White
    ensures StartsInOrder(img, lab', starts[L := k], n + 1)
  {
    var w, h, starts' := img.width, img.height, starts[L := k];
    forall j | 0 <= j < |lab'| && lab'[j] != 0
      ensures lab'[j] as nat in starts' && ScanIndex(w, h, starts'[lab'[j] as nat]) <= ScanIndex(w, h, j)
    {
      if lab[j] == 0 {
        assert ScanIndex(w, h, j) >= n;
      }
    }
    NewStartOrdered(w, h, starts, n, k, L);
  }

  /** A start with scan index n, under a label above all others, keeps the starts in scan order. */
  lemma NewStartOrdered(w: nat, h: nat, starts: map<nat, nat>, n: int, k: int, L: nat)
    requires 0 <= k && ScanIndex(w, h, k) == n
    requires forall L' :: L' in starts ==> L' < L && ScanIndex(w, h, starts[L']) < n
    requires forall L1, L2 :: L1 in starts && L2 in starts && L1 < L2 ==> ScanIndex(w, h, starts[L1]) < ScanIndex(w, h, starts[L2])
    ensures var starts' := starts[L := k];
      (forall L' :: L' in starts' ==> ScanIndex(w, h, starts'[L']) < n + 1) &&
      (forall L1, L2 :: L1 in starts' && L2 in starts' && L1 < L2 ==> ScanIndex(w, h, starts'[L1]) < ScanIndex(w, h, starts'[L2]))
  {
  }

  /** Each visit of the scan keeps the scan facts and covers one more pixel. */
  lemma ScanStepKeeps(img: Image, st: Progress, n: int, r: Progress)
    requires WellFormed(img) && |st.lab| == |img.pixels| && 0 <= n < img.width * img.height
    requires 1 <= st.counter && Room(img.pixels, st)
    requires Ink(img.pixels) < 0x10000 && Scanned(img, st, n) && r == ScanStep(img, st, n)
    ensures |r.lab| == |img.pixels| && Scanned(img, r, n + 1)
  {
    var w, h := img.width, img.height;
    ScanPos(w, h, n);
    var p := Pix(n / h, n % h);
    var k := FlatOf(w, p);
    if img.pixels[k] != White && st.lab[k] == 0 {
      RoomForLabel(img.pixels, st.lab, st.counter, k);
      ScanFillKeeps(img, st, n, p, FloodFill(img.pixels, w, st.lab, [p], img.pixels[k], st.counter));
    } else {
      ScanSkipKeeps(img, st, n, k);
    }
  }

  /** The scan facts hold after every prefix of the scan. */
  lemma {:induction false} ScanNScanned(img: Image, n: int)
    requires WellFormed(img) && Ink(img.pixels) < 0x10000 && 0 <= n <= img.width * img.height
    ensures Scanned(img, ScanN(img, n), n)
  {
    if n == 0 {
      InitialScanned(img);
    } else {
      ScanNScanned(img, n - 1);
      ScanStepKeeps(img, ScanN(img, n - 1), n - 1, ScanN(img, n));
    }
  }

  /** The next label to hand out has no points yet. */
  lemma ScanNFresh(img: Image, n: int)
    requires WellFormed(img) && Ink(img.pixels) < 0x10000 && 0 <= n <= img.width * img.height
    ensures ScanN(img, n).counter !in ScanN(img, n).cells
  {
    ScanNScanned(img, n);
  }

  /** The visit of pixel (x, y), spelled out. */
  lemma ScanNNext(img: Image, x: int, y: int)
    requires WellFormed(img) && Ink(img.pixels) < 0x10000
    requires 0 <= x < img.width && 0 <= y < img.height
    ensures var w, n := img.width, ScanAt(img.width, img.height, x, y);
      var st, k := ScanN(img, n), FlatOf(w, Pix(x, y));
      0 <= k < |img.pixels| &&
      ScanN(img, n + 1) ==
        if img.pixels[k] != White && st.lab[k] == 0 then
          var f := FloodFill(img.pixels, w, st.lab, [Pix(x, y)], img.pixels[k], st.counter);
          Progress(f.0, st.counter + 1, st.marks[st.counter := MarkTypeOfColor(img.pixels[k])],
                   st.starts[st.counter := k], st.cells[st.counter := f.1])
        else st
  {
    ScanVisit(img.width, img.height, x, y);
  }

  /** The labelling when the raster loops end. */
  function Labelling(img: Image): (st: Progress)
    requires WellFormed(img) && Ink(img.pixels) < 0x10000
    ensures |st.lab| == |img.pixels|
  {
    ScanN(img, img.width * img.height)
  }

  /** A pixel ends up unlabelled exactly when it is white. */
  lemma LabelZeroIffWhite(img: Image, k: int)
    requires WellFormed(img) && Ink(img.pixels) < 0x10000 && 0 <= k < |img.pixels|
    ensures Labelling(img).lab[k] == 0 <==> img.pixels[k] == White
  {
    ScanNScanned(img, img.width * img.height);
    ScanIndexBound(img.width, img.height, k);
  }

  /**
   * Labels are 1 .. numMarks with numMarks = counter - 1; each has a start
   * pixel carrying it, and its mark type is that of the start pixel's colour;
   * every pixel of a label has that colour.
   */
  lemma LabelsAndMarks(img: Image)
    requires WellFormed(img) && Ink(img.pixels) < 0x10000
    ensures var st := Labelling(img);
      KeysBelow(st.starts, st.counter) && KeysBelow(st.marks, st.counter) &&
      (forall L :: L in st.starts ==>
         (st.starts[L] < |st.lab| && st.lab[st.starts[L]] as int == L &&
          st.marks[L] == MarkTypeOfColor(img.pixels[st.starts[L]]))) &&
      (forall k :: 0 <= k < |st.lab| ==> st.lab[k] as int < st.counter) &&
      (forall k :: 0 <= k < |st.lab| && st.lab[k] != 0 ==> img.pixels[k] == img.pixels[st.starts[st.lab[k] as nat]])
  {
    ScanNScanned(img, img.width * img.height);
  }

  /**
   * Labels are numbered in scan order of their first pixels: a smaller label
   * starts earlier, and no pixel of a label comes before its start.
   */
  lemma LabelsInScanOrder(img: Image)
    requires WellFormed(img) && Ink(img.pixels) < 0x10000
    ensures var st, w, h := Labelling(img), img.width, img.height;
      (forall L, L' :: L in st.starts && L' in st.starts && L < L' ==>
         ScanIndex(w, h, st.starts[L]) < ScanIndex(w, h, st.starts[L'])) &&
      (forall k :: 0 <= k < |st.lab| && st.lab[k] != 0 ==>
         st.lab[k] as nat in st.starts && ScanIndex(w, h, st.starts[st.lab[k] as nat]) <= ScanIndex(w, h, k))
  {
    ScanNScanned(img, img.width * img.height);
  }

  /**
   * The fill is closed over flat neighbours: two pixels at flat distance 1
   * or w with the same colour carry the same label.
   */
  lemma LabelsClosed(img: Image, k: int, j: int)
    requires WellFormed(img) && Ink(img.pixels) < 0x10000
    requires 0 <= k < |img.pixels| && 0 <= j < |img.pixels| && Adjacent(img.width, k, j)
    requires img.pixels[k] == img.pixels[j]
    ensures Labelling(img).lab[k] == Labelling(img).lab[j]
  {
    var st := Labelling(img);
    ScanNScanned(img, img.width * img.height);
    if st.lab[k] == 0 && st.lab[j] != 0 {
      assert ClosedExcept(img.pixels, st.lab, img.width, 0);
      assert Adjacent(img.width, j, k);
    }
  }

  /**
   * Each label's credited points are exactly its pixels, each once, and are
   * never empty, so no count is zero when the sums are divided.
   */
  lemma CellsArePixels(img: Image)
    requires WellFormed(img) && Ink(img.pixels) < 0x10000
    ensures var st := Labelling(img);
      KeysBelow(st.cells, st.counter) &&
      forall L :: L in st.cells ==> st.cells[L] != [] && Enumerates(st.lab, img.width, st.cells[L], L)
  {
    ScanNScanned(img, img.width * img.height);
  }

  /** The entry of a label in the adjacency dictionary, empty when absent. */
  function AdjOf(adj: map<nat, set<nat>>, a: nat): set<nat> {
    if a in adj then adj[a] else {}
  }

  /** b is recorded as adjacent to a. */
  ghost predicate Related(adj: map<nat, set<nat>>, a: nat, b: nat) {
    a in adj && b in adj[a]
  }

  /**
   * makeAdj on values: record a and b as adjacent to each other, creating
   * their entries as needed; a label is never made adjacent to itself.
   */
  function MakeAdjOf(adj: map<nat, set<nat>>, a: nat, b: nat): (r: map<nat, set<nat>>)
    ensures a == b ==> r == adj
    ensures a != b ==> r.Keys == adj.Keys + {a, b}
    ensures forall c, d :: Related(r, c, d) <==> Related(adj, c, d) || (a != b && ((c == a && d == b) || (c == b && d == a)))
  {
    if a == b then adj
    else
      var adj1 := adj[a := AdjOf(adj, a) + {b}];
      adj1[b := AdjOf(adj1, b) + {a}]
  }

  /** Number of columns, and of rows, whose right, and down, neighbours the adjacency scan examines. */
  function Span(n: nat): (s: nat)
    ensures s + 1 == n || (n == 0 && s == 0)
  {
    if n == 0 then 0 else n - 1
  }

  /** pair {c, d} is the pair {u, v} of distinct non-zero labels. */
  predicate PairOf(c: nat, d: nat, u: nat, v: nat) {
    u != v && u != 0 && v != 0 && ((c == u && d == v) || (c == v && d == u))
  }

  /**
   * The body of the adjacency scan at (x, y): a labelled pixel gets an
   * entry, and is made adjacent to the labels right of and below it.
   */
  function AdjVisit(adj: map<nat, set<nat>>, lab: seq<u16>, w: nat, h: nat, x: int, y: int): map<nat, set<nat>>
    requires |lab| == w * h && 0 <= x < Span(w) && 0 <= y < Span(h)
  {
    InImage(w, h, x, y + 1);
    var k := y * w + x;
    var here := lab[k] as nat;
    if here == 0 then adj
    else
      var a0 := if here in adj then adj else adj[here := {}];
      var there1 := lab[k + 1] as nat;
      var a1 := if there1 != 0 then MakeAdjOf(a0, here, there1) else a0;
      var there2 := lab[k + w] as nat;
      if there2 != 0 then MakeAdjOf(a1, here, there2) else a1
  }

  /** The pixel visited at (x, y) and its right and down neighbours are inside the buffer. */
  lemma VisitInBuffer(w: nat, h: nat, x: int, y: int)
    requires 0 <= x < Span(w) && 0 <= y < Span(h)
    ensures 0 <= FlatOf(w, Pix(x, y)) && FlatOf(w, Pix(x, y)) + w < w * h
  {
    InImage(w, h, x, y + 1);
  }

  /**
   * A visit adds the visited pixel's label as a key when it is non-zero,
   * with its non-zero neighbours, and relates it with each neighbour of a
   * different non-zero label, both ways; nothing else changes.
   */
  lemma AdjVisitEffect(adj: map<nat, set<nat>>, lab: seq<u16>, w: nat, h: nat, x: int, y: int)
    requires |lab| == w * h && 0 <= x < Span(w) && 0 <= y < Span(h)
    ensures var k, r := FlatOf(w, Pix(x, y)), AdjVisit(adj, lab, w, h, x, y);
      0 <= k && k + w < |lab| &&
      (forall c :: c in r <==> (c in adj || (lab[k] != 0 && (c == lab[k] as nat ||
          (c == lab[k + 1] as nat && c != 0) || (c == lab[k + w] as nat && c != 0))))) &&
      (forall c, d :: Related(r, c, d) <==> (Related(adj, c, d) ||
          PairOf(c, d, lab[k] as nat, lab[k + 1] as nat) || PairOf(c, d, lab[k] as nat, lab[k + w] as nat)))
  {
    VisitInBuffer(w, h, x, y);
  }

  /** The adjacency dictionary after the adjacency scan has visited its first m pixels, column by column. */
  function AdjN(lab: seq<u16>, w: nat, h: nat, m: int): map<nat, set<nat>>
    requires |lab| == w * h && 0 <= m <= Span(w) * Span(h)
  {
    if m == 0 then map[]
    else
      ScanPos(Span(w), Span(h), m - 1);
      AdjVisit(AdjN(lab, w, h, m - 1), lab, w, h, (m - 1) / Span(h), (m - 1) % Span(h))
  }

  /** Recorded adjacency relates only non-zero labels, never a label to itself, and both ways. */
  ghost predicate AdjShape(adj: map<nat, set<nat>>) {
    (forall a :: a in adj ==> a != 0) &&
    (forall a, b :: Related(adj, a, b) ==> a != b && b != 0 && Related(adj, b, a))
  }

  /** (x, y) is a pixel of the adjacency scan visited before its m-th visit. */
  predicate VisitedBefore(w: nat, h: nat, x: int, y: int, m: int) {
    0 <= x < Span(w) && 0 <= y < Span(h) && ScanAt(Span(w), Span(h), x, y) < m
  }

  /**
   * Every labelled pixel visited has an entry, and is related to the
   * labels right of and below it whenever those are other non-zero labels.
   */
  ghost predicate Entered(adj: map<nat, set<nat>>, lab: seq<u16>, w: nat, h: nat, m: int) {
    forall x, y :: VisitedBefore(w, h, x, y, m) ==>
      var k := FlatOf(w, Pix(x, y));
      (0 <= k && k + w < |lab| && lab[k] != 0) ==>
        (lab[k] as nat in adj &&
         (lab[k + 1] != 0 && lab[k + 1] != lab[k] ==> Related(adj, lab[k] as nat, lab[k + 1] as nat)) &&
         (lab[k + w] != 0 && lab[k + w] != lab[k] ==> Related(adj, lab[k] as nat, lab[k + w] as nat)))
  }

  /** Two labels touch at visited pixel (x, y): one is there, the other right of or below it. */
  ghost predicate TouchAt(lab: seq<u16>, w: nat, x: int, y: int, a: nat, b: nat) {
    var k := FlatOf(w, Pix(x, y));
    0 < w && 0 <= k && k + w < |lab| &&
    (PairOf(a, b, lab[k] as nat, lab[k + 1] as nat) || PairOf(a, b, lab[k] as nat, lab[k + w] as nat))
  }

  /** A key is the label of a visited non-zero pixel or of its right or down neighbour. */
  ghost predicate SeenAt(lab: seq<u16>, w: nat, x: int, y: int, a: nat) {
    var k := FlatOf(w, Pix(x, y));
    0 < w && 0 <= k && k + w < |lab| && lab[k] != 0 &&
    (a == lab[k] as nat || a == lab[k + 1] as nat || a == lab[k + w] as nat)
  }

  /** Everything recorded is witnessed by a visited pixel. */
  ghost predicate Witnessed(adj: map<nat, set<nat>>, lab: seq<u16>, w: nat, h: nat, m: int) {
    (forall a :: a in adj ==> exists x, y :: VisitedBefore(w, h, x, y, m) && SeenAt(lab, w, x, y, a)) &&
    (forall a, b :: Related(adj, a, b) ==> exists x, y :: VisitedBefore(w, h, x, y, m) && TouchAt(lab, w, x, y, a, b))
  }

  /** The m-th visit of the adjacency scan is at ((m / Span(h)), m % Span(h)). */
  lemma AdjPos(w: nat, h: nat, m: int)
    requires 0 <= m < Span(w) * Span(h)
    ensures var x, y := m / Span(h), m % Span(h);
      0 <= x < Span(w) && 0 <= y < Span(h) && ScanAt(Span(w), Span(h), x, y) == m &&
      forall x', y' :: VisitedBefore(w, h, x', y', m + 1) ==> VisitedBefore(w, h, x', y', m) || (x' == x && y' == y)
  {
    ScanPos(Span(w), Span(h), m);
    var x, y := m / Span(h), m % Span(h);
    assert ScanAt(Span(w), Span(h), x, y) == m by {
      assert m == x * Span(h) + y;
    }
  }

  lemma {:induction false} AdjNShape(lab: seq<u16>, w: nat, h: nat, m: int)
    requires |lab| == w * h && 0 <= m <= Span(w) * Span(h)
    ensures AdjShape(AdjN(lab, w, h, m))
  {
    if m > 0 {
      AdjNShape(lab, w, h, m - 1);
      AdjPos(w, h, m - 1);
      AdjVisitEffect(AdjN(lab, w, h, m - 1), lab, w, h, (m - 1) / Span(h), (m - 1) % Span(h));
    }
  }

  lemma {:induction false} AdjNEntered(lab: seq<u16>, w: nat, h: nat, m: int)
    requires |lab| == w * h && 0 <= m <= Span(w) * Span(h)
    ensures Entered(AdjN(lab, w, h, m), lab, w, h, m)
  {
    if m > 0 {
      AdjNEntered(lab, w, h, m - 1);
      AdjPos(w, h, m - 1);
      AdjVisitEffect(AdjN(lab, w, h, m - 1), lab, w, h, (m - 1) / Span(h), (m - 1) % Span(h));
    }
  }

  lemma {:induction false} AdjNWitnessed(lab: seq<u16>, w: nat, h: nat, m: int)
    requires |lab| == w * h && 0 <= m <= Span(w) * Span(h)
    ensures Witnessed(AdjN(lab, w, h, m), lab, w, h, m)
  {
    if m > 0 {
      var adj, x0, y0 := AdjN(lab, w, h, m - 1), (m - 1) / Span(h), (m - 1) % Span(h);
      AdjNWitnessed(lab, w, h, m - 1);
      AdjPos(w, h, m - 1);
      AdjVisitEffect(adj, lab, w, h, x0, y0);
      var adj' := AdjN(lab, w, h, m);
      forall a | a in adj'
        ensures exists x, y :: VisitedBefore(w, h, x, y, m) && SeenAt(lab, w, x, y, a)
      {
        if a !in adj {
          assert VisitedBefore(w, h, x0, y0, m) && SeenAt(lab, w, x0, y0, a);
        }
      }
      forall a, b | Related(adj', a, b)
        ensures exists x, y :: VisitedBefore(w, h, x, y, m) && TouchAt(lab, w, x, y, a, b)
      {
        if !Related(adj, a, b) {
          assert VisitedBefore(w, h, x0, y0, m) && TouchAt(lab, w, x0, y0, a, b);
        }
      }
    }
  }

  /** The adjacency dictionary when the adjacency scan ends. */
  function Adjacency(lab: seq<u16>, w: nat, h: nat): map<nat, set<nat>>
    requires |lab| == w * h
  {
    AdjN(lab, w, h, Span(w) * Span(h))
  }

  /** Adjacency is symmetric and irreflexive, and relates only non-zero labels. */
  lemma AdjacencyShape(lab: seq<u16>, w: nat, h: nat, a: nat, b: nat)
    requires |lab| == w * h
    ensures a in Adjacency(lab, w, h) ==> a != 0
    ensures Related(Adjacency(lab, w, h), a, b) ==> a != b && b != 0 && Related(Adjacency(lab, w, h), b, a)
  {
    AdjNShape(lab, w, h, Span(w) * Span(h));
  }

  /**
   * Every labelled pixel with x < w - 1 and y < h - 1 has an entry, and is
   * adjacent to the other non-zero labels right of and below it.
   */
  lemma AdjacencyEntries(lab: seq<u16>, w: nat, h: nat, x: int, y: int)
    requires |lab| == w * h && 0 <= x < Span(w) && 0 <= y < Span(h)
    ensures var adj, k := Adjacency(lab, w, h), FlatOf(w, Pix(x, y));
      0 <= k && k + w < |lab| &&
      (lab[k] != 0 ==>
        lab[k] as nat in adj &&
        (lab[k + 1] != 0 && lab[k + 1] != lab[k] ==> Related(adj, lab[k] as nat, lab[k + 1] as nat)) &&
        (lab[k + w] != 0 && lab[k + w] != lab[k] ==> Related(adj, lab[k] as nat, lab[k + w] as nat)))
  {
    VisitInBuffer(w, h, x, y);
    AdjNEntered(lab, w, h, Span(w) * Span(h));
    assert VisitedBefore(w, h, x, y, Span(w) * Span(h));
  }

  /**
   * Only what the scan saw is recorded: two labels are adjacent only if
   * they touch at a scanned pixel and its right or down neighbour.
   */
  lemma AdjacencySound(lab: seq<u16>, w: nat, h: nat, a: nat, b: nat)
    requires |lab| == w * h && Related(Adjacency(lab, w, h), a, b)
    ensures exists x, y :: 0 <= x < Span(w) && 0 <= y < Span(h) && TouchAt(lab, w, x, y, a, b)
  {
    AdjNWitnessed(lab, w, h, Span(w) * Span(h));
  }

  /** The value findConjoined returns: label buffer, mark types, centroids, adjacency, label count. */
  datatype SizedArray = SizedArray(w: nat, h: nat, data: seq<u16>)

  datatype ConjoinedData = ConjoinedData(labelArray: SizedArray, marks: map<nat, MarkType>, avg: map<nat, Point>,
                                         adjacent: map<nat, set<nat>>, numMarks: nat)

  /** The centroid of every label's points. */
  function Centroids(cells: map<nat, seq<Pix>>): (avg: map<nat, Point>)
    requires CellsNonEmpty(cells)
    ensures avg.Keys == cells.Keys
    ensures forall L :: L in avg ==> VScale(avg[L], |cells[L]| as real) == SumOf(cells[L])
  {
    map L | L in cells :: Mean(cells[L])
  }

  /**
   * The state shared by the closures of findConjoined: the label buffer, the
   * next label, and the per-label dictionaries. Each closure is a method.
   * Ghost state: `starts[L]` is the flat index of the pixel whose fill
   * created L; `cells[L]` lists the points credited to L, in fill order.
   */
  class Segmenter {
    const img: Image
    const w: nat
    const h: nat
    const data: array<u16>
    var counter: nat
    var marks: map<nat, MarkType>
    var avg: map<nat, Point>
    var total: map<nat, nat>
    var adjacent: map<nat, set<nat>>
    ghost var starts: map<nat, nat>
    ghost var cells: map<nat, seq<Pix>>

    /** The buffer has one label per pixel of the image, and there are too few non-white pixels for labels to overflow 16 bits. */
    ghost predicate Frame()
      reads this
    {
      WellFormed(img) && w == img.width && h == img.height && data.Length == w * h && Ink(img.pixels) < 0x10000
    }

    /** The labelling state as a value. */
    ghost function Now(): Progress
      reads this, data
    {
      Progress(data[..], counter, marks, starts, cells)
    }

    constructor (img: Image)
      requires WellFormed(img) && Ink(img.pixels) < 0x10000
      ensures this.img == img && Frame() && fresh(data)
      ensures Now() == Initial(img) && avg == map[] && total == map[] && adjacent == map[]
    {
      this.img := img;
      w := img.width;
      h := img.height;
      data := new u16[img.width * img.height](_ => 0);
      counter := 1;
      marks, avg, total, adjacent := map[], map[], map[], map[];
      starts, cells := map[], map[];
    }

    /** valueGet: the label at (x, y), or None where the flat index leaves the buffer. */
    function ValueGet(x: int, y: int): (v: Option<u16>)
      reads this, data
      ensures v.Some? <==> 0 <= FlatOf(w, Pix(x, y)) < data.Length
      ensures v.Some? ==> v.value == data[FlatOf(w, Pix(x, y))]
    {
      var k := y * w + x;
      if 0 <= k < data.Length then Some(data[k]) else None
    }

    /**
     * valueGet on the buffer and off it: an on-image point reads its
     * label, a point above the first row or below the last reads nothing
     * (`undefined`, which the fill treats as unlabelled), and a step off the
     * left or right edge of a row reads the neighbouring row's end label.
     */
    lemma ValueGetAtEdges(x: int, y: int)
      requires Frame()
      ensures 0 <= x < w && 0 <= y < h ==> ValueGet(x, y).Some?
      ensures y < 0 && x < w ==> ValueGet(x, y) == None
      ensures h <= y && 0 <= x ==> ValueGet(x, y) == None
      ensures ValueGet(-1, y + 1) == ValueGet(w - 1, y)
      ensures ValueGet(w, y) == ValueGet(0, y + 1)
    {
      FlatBounds(w, h, x, y);
    }

    /** valuePut: a Uint16Array store keeps the value modulo 2^16 and ignores an index outside the buffer. */
    method ValuePut(x: int, y: int, v: nat)
      modifies data
      ensures var k := FlatOf(w, Pix(x, y));
        data[..] == if 0 <= k < data.Length then old(data[..])[k := (v % 0x10000) as u16] else old(data[..])
    {
      var k := y * w + x;
      if 0 <= k < data.Length {
        data[k] := (v % 0x10000) as u16;
      }
    }

    /** accumulateAvg: add p to the sum of mark and count it, starting both at zero. */
    method AccumulateAvg(p: Point, mark: nat)
      requires mark in avg ==> mark in total
      modifies this
      ensures avg == old(avg)[mark := VPlus(if mark in old(avg) then old(avg)[mark] else Point(0.0, 0.0), p)]
      ensures total == old(total)[mark := (if mark in old(avg) then old(total)[mark] else 0) + 1]
      ensures counter == old(counter) && marks == old(marks) && adjacent == old(adjacent)
      ensures starts == old(starts) && cells == old(cells)
    {
      if mark !in avg {
        avg := avg[mark := Point(0.0, 0.0)];
        total := total[mark := 0];
      }
      avg := avg[mark := VPlus(avg[mark], p)];
      total := total[mark := total[mark] + 1];
    }

    /**
     * The raster loops of findConjoined: x outer, y inner, visiting every
     * pixel. The result is the value scan's; the sums and counts are those
     * of the labels' credited points.
     */
    method LabelAll()
      requires Frame() && Now() == Initial(img) && avg == map[] && total == map[]
      modifies this, data
      ensures Now() == Labelling(img) && Summed(cells, avg, total) && KeysBelow(avg, counter)
      ensures adjacent == old(adjacent)
    {
      var x := 0;
      ghost var n := 0;
      while x < w
        invariant 0 <= x <= w && n <= w * h && (if x < w then n == ColumnAt(w, h, x) else n == w * h)
        invariant Now() == ScanN(img, n)
        invariant Summed(cells, avg, total) && KeysBelow(avg, counter)
        invariant adjacent == old(adjacent)
      {
        VisitColumn(x);
        n := n + h;
        x := x + 1;
        assert n == x * h;
      }
    }

    /** The inner raster loop: visit column x from row 0 down. */
    method VisitColumn(x: int)
      requires Frame() && 0 <= x < w && Now() == ScanN(img, ColumnAt(w, h, x))
      requires Summed(cells, avg, total) && KeysBelow(avg, counter)
      modifies this, data
      ensures Now() == ScanN(img, ColumnAt(w, h, x) + h)
      ensures Summed(cells, avg, total) && KeysBelow(avg, counter)
      ensures adjacent == old(adjacent)
    {
      ghost var m := ColumnAt(w, h, x);
      var y := 0;
      while y < h
        invariant 0 <= y <= h
        invariant Now() == ScanN(img, m + y)
        invariant Summed(cells, avg, total) && KeysBelow(avg, counter)
        invariant adjacent == old(adjacent)
      {
        assert ScanAt(w, h, x, y) == m + y;
        Visit(x, y);
        y := y + 1;
      }
    }

    /** The body of the raster loops: start a fill at (x, y) if it is not white and not yet labelled. */
    method Visit(x: int, y: int)
      requires Frame() && 0 <= x < w && 0 <= y < h && Now() == ScanN(img, ScanAt(w, h, x, y))
      requires Summed(cells, avg, total) && KeysBelow(avg, counter)
      modifies this, data
      ensures Now() == ScanN(img, ScanAt(w, h, x, y) + 1) && Summed(cells, avg, total) && KeysBelow(avg, counter)
      ensures adjacent == old(adjacent)
    {
      ScanNNext(img, x, y);
      ScanNFresh(img, ScanAt(w, h, x, y));
      var color := ColorGet(img, x, y);
      var v := ValueGet(x, y);
      if !ColorEq(color.value, White) && v.value == 0 {
        RoomForLabel(img.pixels, data[..], counter, FlatOf(w, Pix(x, y)));
        ghost var f := FloodFill(img.pixels, w, data[..], [Pix(x, y)], color.value, counter);
        FloodFillLabelsStart(img.pixels, w, data[..], Pix(x, y), color.value, counter);
        FillSummed(cells, avg, total, counter, f.1);
        StartFill(x, y, color.value);
      }
    }

    /**
     * The division loop: for labels 1 .. counter - 1, the coordinate sum
     * becomes the mean. Every label has at least one pixel, so no count is 0.
     */
    method DivideSums()
      requires Summed(cells, avg, total) && KeysBelow(cells, counter) && CellsNonEmpty(cells)
      modifies this
      ensures Averaged(cells, avg)
      ensures counter == old(counter) && marks == old(marks) && total == old(total) && adjacent == old(adjacent)
      ensures starts == old(starts) && cells == old(cells)
    {
      var i := 1;
      while i < counter
        invariant cells == old(cells) && DividedBelow(cells, avg, i)
        invariant counter == old(counter) && marks == old(marks) && total == old(total) && adjacent == old(adjacent)
        invariant starts == old(starts)
      {
        assert i in cells && total[i] == |cells[i]|;
        DivideStep(cells, avg, total[i], i);
        avg := avg[i := VDiv(avg[i], total[i] as real)];
        i := i + 1;
      }
    }

    /** makeAdj: record a and b as adjacent to each other, unless they are the same label. */
    method MakeAdj(a: nat, b: nat)
      modifies this
      ensures adjacent == MakeAdjOf(old(adjacent), a, b)
      ensures counter == old(counter) && marks == old(marks) && avg == old(avg) && total == old(total)
      ensures starts == old(starts) && cells == old(cells)
    {
      if a == b {
        return;
      }
      ghost var adj1 := old(adjacent)[a := AdjOf(old(adjacent), a) + {b}];
      if a !in adjacent {
        adjacent := adjacent[a := {}];
      }
      adjacent := adjacent[a := adjacent[a] + {b}];
      assert adjacent == adj1;
      if b !in adjacent {
        adjacent := adjacent[b := {}];
      }
      adjacent := adjacent[b := adjacent[b] + {a}];
    }

    /**
     * The adjacency loops of findConjoined: x < w - 1 outer, y < h - 1
     * inner; the result is the value scan's.
     */
    method ScanAdjacency()
      requires Frame() && adjacent == map[]
      modifies this
      ensures adjacent == Adjacency(data[..], w, h)
      ensures counter == old(counter) && marks == old(marks) && avg == old(avg) && total == old(total)
      ensures starts == old(starts) && cells == old(cells)
    {
      var x := 0;
      while x < w - 1
        invariant 0 <= x <= Span(w) && x * Span(h) <= Span(w) * Span(h)
        invariant adjacent == AdjN(data[..], w, h, x * Span(h))
        invariant counter == old(counter) && marks == old(marks) && avg == old(avg) && total == old(total)
        invariant starts == old(starts) && cells == old(cells)
      {
        AdjacencyColumn(x);
        assert x * Span(h) + Span(h) == (x + 1) * Span(h);
        x := x + 1;
      }
    }

    /** The inner adjacency loop over column x. */
    method AdjacencyColumn(x: int)
      requires Frame() && 0 <= x < Span(w) && adjacent == AdjN(data[..], w, h, x * Span(h))
      modifies this
      ensures x * Span(h) + Span(h) <= Span(w) * Span(h) && adjacent == AdjN(data[..], w, h, x * Span(h) + Span(h))
      ensures counter == old(counter) && marks == old(marks) && avg == old(avg) && total == old(total)
      ensures starts == old(starts) && cells == old(cells)
    {
      MulMono(x + 1, Span(w), Span(h));
      assert x * Span(h) + Span(h) == (x + 1) * Span(h);
      var y := 0;
      while y < h - 1
        invariant 0 <= y <= Span(h) && x * Span(h) + y <= Span(w) * Span(h)
        invariant adjacent == AdjN(data[..], w, h, x * Span(h) + y)
        invariant counter == old(counter) && marks == old(marks) && avg == old(avg) && total == old(total)
        invariant starts == old(starts) && cells == old(cells)
      {
        ghost var m := ScanAt(Span(w), Span(h), x, y);
        AdjacencyVisit(x, y);
        y := y + 1;
        assert m + 1 == x * Span(h) + y;
      }
    }

    /** The body of the adjacency loops at (x, y). */
    method AdjacencyVisit(x: int, y: int)
      requires Frame() && 0 <= x < Span(w) && 0 <= y < Span(h)
      modifies this
      ensures adjacent == AdjVisit(old(adjacent), data[..], w, h, x, y)
      ensures counter == old(counter) && marks == old(marks) && avg == old(avg) && total == old(total)
      ensures starts == old(starts) && cells == old(cells)
    {
      VisitInBuffer(w, h, x, y);
      var here := ValueGet(x, y);
      if here.value != 0 {
        var a := here.value as nat;
        if a !in adjacent {
          adjacent := adjacent[a := {}];
        }
        var there1 := ValueGet(x + 1, y);
        if there1.value != 0 {
          MakeAdj(a, there1.value as nat);
        }
        var there2 := ValueGet(x, y + 1);
        if there2.value != 0 {
          MakeAdj(a, there2.value as nat);
        }
      }
    }

    /**
     * One pass of startFill's loop: pop a point; if it is inside the buffer,
     * unlabelled and of the fill colour, label it, add it to mark's running
     * sum and count, and push its four neighbours. Ghost `cs` lists the points
     * credited so far; the running sum and count are always theirs.
     */
    method FillOnce(stack: seq<Pix>, color: Color, mark: nat, ghost avg0: map<nat, Point>, ghost total0: map<nat, nat>,
                    ghost cs: seq<Pix>) returns (stack': seq<Pix>, ghost cs': seq<Pix>)
      requires Frame() && stack != [] && 0 < mark < 0x10000 && mark !in avg0
      requires cs == [] ==> avg == avg0 && total == total0
      requires cs != [] ==> avg == avg0[mark := SumOf(cs)] && total == total0[mark := |cs|]
      modifies this, data
      ensures var s := FillStep(img.pixels, w, old(data[..]), stack, color, mark);
        data[..] == s.0 && stack' == s.1 && cs' == cs + s.2
      ensures cs' == [] ==> avg == avg0 && total == total0
      ensures cs' != [] ==> avg == avg0[mark := SumOf(cs')] && total == total0[mark := |cs'|]
      ensures counter == old(counter) && marks == old(marks) && adjacent == old(adjacent)
      ensures starts == old(starts) && cells == old(cells)
    {
      var p := stack[|stack| - 1];
      stack' := stack[..|stack| - 1];
      cs' := cs;
      var v := ValueGet(p.x, p.y);
      if v.Some? && v.value != 0 {
        return;
      }
      var c := ColorGet(img, p.x, p.y);
      if !(c.Some? && ColorEq(color, c.value)) {
        return;
      }
      CreditStep(avg0, total0, avg, total, mark, cs, p);
      ValuePut(p.x, p.y, mark);
      AccumulateAvg(ToPoint(p), mark);
      cs' := cs + [p];
      stack' := stack' + Pushed(p);
    }

    /**
     * startFill: hand out the next label, record its mark type, and flood-fill
     * from (x, y) with an explicit stack over pixels of the start colour. The
     * result is that of FloodFill; the coordinate sum and pixel count of the
     * new label are those of the points it credits.
     */
    method StartFill(x: int, y: int, color: Color)
      requires Frame() && 1 <= counter < 0x10000 && counter !in avg && counter !in cells
      requires 0 <= FlatOf(w, Pix(x, y)) < data.Length
      requires img.pixels[FlatOf(w, Pix(x, y))] == color && data[FlatOf(w, Pix(x, y))] == 0
      modifies this, data
      ensures var r := FloodFill(img.pixels, w, old(data[..]), [Pix(x, y)], color, old(counter));
        data[..] == r.0 && r.1 != [] && counter == old(counter) + 1 &&
        marks == old(marks)[old(counter) := MarkTypeOfColor(color)] &&
        starts == old(starts)[old(counter) := FlatOf(w, Pix(x, y))] && cells == old(cells)[old(counter) := r.1] &&
        avg == old(avg)[old(counter) := SumOf(r.1)] && total == old(total)[old(counter) := |r.1|]
      ensures adjacent == old(adjacent)
    {
      ghost var final := FloodFill(img.pixels, w, data[..], [Pix(x, y)], color, counter);
      FloodFillLabelsStart(img.pixels, w, data[..], Pix(x, y), color, counter);
      var mark := counter;
      counter := counter + 1;
      marks := marks[mark := MarkTypeOfColor(color)];
      ghost var cs: seq<Pix> := [];
      var stack := [Pix(x, y)];
      while stack != []
        invariant |data[..]| == |img.pixels|
        invariant FloodFill(img.pixels, w, data[..], stack, color, mark).0 == final.0
        invariant cs + FloodFill(img.pixels, w, data[..], stack, color, mark).1 == final.1
        invariant cs == [] ==> avg == old(avg) && total == old(total)
        invariant cs != [] ==> avg == old(avg)[mark := SumOf(cs)] && total == old(total)[mark := |cs|]
        invariant counter == mark + 1 && marks == old(marks)[mark := MarkTypeOfColor(color)]
        invariant starts == old(starts) && cells == old(cells) && adjacent == old(adjacent)
        decreases Zeros(data[..]), |stack|
      {
        ghost var step := FillStep(img.pixels, w, data[..], stack, color, mark);
        ghost var rest := FloodFill(img.pixels, w, step.0, step.1, color, mark);
        assert FloodFill(img.pixels, w, data[..], stack, color, mark) == (rest.0, step.2 + rest.1);
        assert (cs + step.2) + rest.1 == cs + (step.2 + rest.1);
        stack, cs := FillOnce(stack, color, mark, old(avg), old(total), cs);
      }
      assert cs + [] == cs;
      cells := cells[mark := cs];
      starts := starts[mark := FlatOf(w, Pix(x, y))];
    }
  }

  /** After the division the centroid map is exactly the centroid of each label's points. */
  lemma AveragedCentroids(cells: map<nat, seq<Pix>>, avg: map<nat, Point>)
    requires Averaged(cells, avg)
    ensures CellsNonEmpty(cells) && avg == Centroids(cells)
  {
  }

  /**
   * findConjoined: label the image, average each label's coordinates and
   * record which labels touch; the result is the value-level description.
   */
  method FindConjoined(img: Image) returns (r: ConjoinedData)
    requires WellFormed(img) && Ink(img.pixels) < 0x10000
    ensures var st := Labelling(img);
      r.labelArray == SizedArray(img.width, img.height, st.lab) && r.marks == st.marks &&
      r.numMarks + 1 == st.counter && CellsNonEmpty(st.cells) && r.avg == Centroids(st.cells) &&
      r.adjacent == Adjacency(st.lab, img.width, img.height)
  {
    var s := new Segmenter(img);
    s.LabelAll();
    CellsArePixels(img);
    s.DivideSums();
    AveragedCentroids(s.cells, s.avg);
    s.ScanAdjacency();
    r := ConjoinedData(SizedArray(s.w, s.h, s.data[..]), s.marks, s.avg, s.adjacent, s.counter - 1);
  }
}
