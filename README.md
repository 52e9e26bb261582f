# Lambda-term recognition from drawings, modelled in Dafny

The program reads a drawing of a map-like graph and turns it into a lambda
term. Red ink marks nodes and blue ink marks edges. This project models the
core of that pipeline and proves properties of the model:

- **Segmentation** (`findConjoined`, module `Conjoined`, file
  `conjoined.dfy`). The image is scanned column by column. Each non-white
  pixel that has no label yet starts a flood fill with a fresh label. The
  fill runs on an explicit stack and pushes the right, left, down and up
  neighbours. It labels pixels of the same colour, and it works on flat
  indices `y * w + x`, so a step off the left edge of a row wraps to the
  end of the row above. While it fills, it sums the coordinates of the
  filled points and counts them. The sums then become centroids. A point
  is credited with the coordinates it was pushed with: after a wrap, the
  pixel (w-1, y) is credited as (-1, y+1) and the pixel (0, y+1) as (w, y).
  So the centroid of a region that wraps is not the mean of its pixels'
  own columns and rows. The model keeps this behaviour. A last
  scan records which labels touch to the right or below. The closures over
  shared state are the methods of class `Segmenter`. Each method is proved
  against value-level functions: `FillStep`/`FloodFill` for the fill,
  `ScanN`/`Labelling` for the raster scan, `AdjVisit`/`Adjacency` for the
  adjacency scan and `Centroids` for the averages. The lemmas then state
  what those functions guarantee.
- **Graph extraction** (`findGraph`, module `Graph`). Every node mark becomes
  a vertex at its centroid. Every edge mark that touches exactly two labels
  becomes an edge between them, smaller label first, through its centroid.
  The loop is proved against `GraphUpTo`.
- **Edge geometry** (`OneEdge` and `MultiEdge`, module `Edges`). This covers
  the quadratic control point, break points, root choices, the cubic
  segments and the exit velocities.
- **Vector helpers** (module `Util`).
- **The term printer** (`stringifyLam`, module `LamPrinter`). It works with a
  reader (module `LamParser`) that is never part of the program. The reader
  is the printer's inverse, so printing provably loses no information.

The label buffer is a `Uint16Array`; here it is an `array<u16>`. Coordinates
and centroids are JavaScript numbers; here they are `real`s. Dictionaries
keyed by labels are `map<nat, _>`. `Object.keys` lists integer-like keys in
ascending order, which is why `Graph.Ends` returns the two ends sorted.

## Model

| member | source | states |
|---|---|---|
| Util.Sqr | src/util.ts:1-3 | the square is never negative |
| Util.VSub | src/util.ts:13-15 | componentwise difference |
| Util.VDiv | src/util.ts:21-23 | componentwise quotient by a non-zero scalar |
| Util.VPlusCommutes | src/util.ts:17-19 | vector addition commutes |
| Util.VSubThenPlus | src/util.ts:13-19 | adding back what was subtracted restores the vector |
| Util.VDivThenScale | src/util.ts:21-27 | scaling by a non-zero s undoes dividing by s |
| Conjoined.ColorEq | src/conjoined.ts:20-22 | true exactly when the two colours are equal |
| Conjoined.MarkTypeOfColor | src/conjoined.ts:24-28 | node exactly for pure red, edge exactly for pure blue, unknown for every other colour |
| Conjoined.WhiteIsUnknown | src/conjoined.ts:1-28 | the white background has mark type unknown |
| Conjoined.ColorGetAtEdges | src/conjoined.ts:5-8 | an on-image point reads a colour; a point in the image's columns above the first row or below the last reads none; a step off the left edge reads the last pixel of the row above, and a step off the right edge reads the first pixel of the row below |
| Conjoined.FlatInjective | src/conjoined.ts:10-18 | distinct on-image points have distinct flat indices |
| Conjoined.LeftStepWraps | src/conjoined.ts:10-18 | stepping left from column 0 reaches the last pixel of the row above |
| Conjoined.PushedAreAdjacent | src/conjoined.ts:58-61 | the four pushed points are exactly the flat neighbours k±1 and k±w of the filled point |
| Conjoined.ZerosWrite | src/conjoined.ts:56 | labelling an unlabelled entry lowers the number of unlabelled entries, so the fill terminates |
| Conjoined.ScanIndexUnique | src/conjoined.ts:67-68 | no two pixels share a place in the column-by-column scan order |
| Conjoined.FillStep | src/conjoined.ts:52-62 | one pass of the fill loop keeps the buffer length; a pass that credits no point leaves the buffer unchanged and shrinks the stack, and one that credits a point labels one more pixel |
| Conjoined.FloodFillWritesOnly | src/conjoined.ts:52-62 | a fill writes only label L, and only into unlabelled entries |
| Conjoined.FloodFillLabelsStart | src/conjoined.ts:49-57 | an unlabelled start pixel of the fill colour is labelled L and credited |
| Conjoined.FloodFillKeeps | src/conjoined.ts:52-62 | running the fill to the end keeps the labelling invariant, credits exactly the newly labelled pixels and leaves no same-coloured neighbour unlabelled |
| Conjoined.FillDone | src/conjoined.ts:52-63 | once the stack is empty the new label is closed and has a non-empty set of points |
| Conjoined.FillSummed | src/conjoined.ts:36-44 | recording a finished fill's point sum and point count keeps every label's sum and count equal to the sum and number of its credited points |
| Conjoined.FillEstablishes | src/conjoined.ts:46-63 | a whole startFill takes one state between fills to the next, with the new label's mark type, start pixel and points recorded |
| Conjoined.ScanN | src/conjoined.ts:67-75 | the scan's label counter plus the number of still unlabelled non-white pixels never exceeds the number of non-white pixels plus one, so fewer than 2^16 non-white pixels keep every label below 2^16 |
| Conjoined.ScanNScanned | src/conjoined.ts:67-75 | after n steps of the raster scan, every scanned non-white pixel is labelled, labels are closed and count up in scan order |
| Conjoined.LabelZeroIffWhite | src/conjoined.ts:67-75 | after the scan a pixel is unlabelled exactly when it is white |
| Conjoined.LabelsAndMarks | src/conjoined.ts:67-75 | labels run from 1 to counter-1; each has a start pixel that carries it; its mark type is that of the start colour; every pixel of a label has that colour |
| Conjoined.LabelsInScanOrder | src/conjoined.ts:67-75 | a smaller label starts earlier in scan order, and no pixel of a label comes before its start |
| Conjoined.LabelsClosed | src/conjoined.ts:52-75 | two same-coloured pixels at flat distance 1 or w carry the same label |
| Conjoined.CellsArePixels | src/conjoined.ts:36-80 | each label's credited points hit exactly its pixels' flat indices, each once, and are never none, so no division is by zero; a credited point is the pushed coordinate pair, which lies off the image after a wrap |
| Conjoined.MakeAdjOf | src/conjoined.ts:83-89 | equal labels change nothing; otherwise both get entries, and the relation gains exactly the pair in both directions |
| Conjoined.AdjVisitEffect | src/conjoined.ts:92-98 | one visit gives a labelled pixel an entry and relates it, both ways, to each different labelled neighbour right of and below it; nothing else changes |
| Conjoined.AdjacencyShape | src/conjoined.ts:82-101 | the finished adjacency relates only non-zero labels, is irreflexive and is symmetric |
| Conjoined.AdjacencyEntries | src/conjoined.ts:90-101 | every labelled pixel with x < w-1 and y < h-1 has an entry and is related to the other labels right of and below it |
| Conjoined.AdjacencySound | src/conjoined.ts:90-101 | two labels are related only if they touch at a scanned pixel and its right or down neighbour |
| Conjoined.Centroids | src/conjoined.ts:77-80 | one centroid per label, and it times the label's point count is the sum of its points |
| Conjoined.AveragedCentroids | src/conjoined.ts:77-80 | after the division the centroid map is exactly the mean of each label's points |
| Conjoined.Segmenter.constructor | src/conjoined.ts:31-66 | counter 1, empty dictionaries, a zeroed buffer of one entry per pixel |
| Conjoined.Segmenter.ValueGetAtEdges | src/conjoined.ts:10-13 | an on-image point reads a label; a point in the image's columns above the first row or below the last reads none, which the fill treats as unlabelled; a step off either side of a row reads the neighbouring row's end label |
| Conjoined.Segmenter.ValuePut | src/conjoined.ts:15-18 | an in-buffer store keeps the value modulo 2^16; an out-of-buffer store changes nothing |
| Conjoined.Segmenter.AccumulateAvg | src/conjoined.ts:36-44 | adds the point to the label's sum and one to its count, starting both at zero; nothing else changes |
| Conjoined.Segmenter.FillOnce | src/conjoined.ts:53-61 | the buffer, stack and credits after one loop pass are those of FillStep |
| Conjoined.Segmenter.StartFill | src/conjoined.ts:46-63 | the buffer and credited points are those of FloodFill; the counter grows by one; the new label's mark type, sum and count are recorded |
| Conjoined.Segmenter.Visit | src/conjoined.ts:69-73 | advances the state by one scan step, keeping sums and counts in step with the points |
| Conjoined.Segmenter.VisitColumn | src/conjoined.ts:68-74 | advances the state by one column of the scan |
| Conjoined.Segmenter.LabelAll | src/conjoined.ts:67-75 | the state after the raster scan is Labelling(img), with sums and counts in step with the points |
| Conjoined.Segmenter.DivideSums | src/conjoined.ts:77-80 | every label's sum is divided by its count, so each centroid is the mean of the label's points |
| Conjoined.Segmenter.MakeAdj | src/conjoined.ts:83-89 | the new adjacency is MakeAdjOf of the old one |
| Conjoined.Segmenter.AdjacencyVisit | src/conjoined.ts:92-98 | the new adjacency is AdjVisit of the old one at (x, y) |
| Conjoined.Segmenter.AdjacencyColumn | src/conjoined.ts:91-100 | the adjacency after one column is that of the scan prefix ending there |
| Conjoined.Segmenter.ScanAdjacency | src/conjoined.ts:82-101 | the adjacency after both loops is Adjacency of the label buffer |
| Conjoined.FindConjoined | src/conjoined.ts:30-104 | returns the labelling of the image, its mark types, the centroids of its labels, its adjacency and numMarks = counter-1 |
| Graph.Ends | src/graph.ts:11-13 | the two labels of a two-element set, smaller first |
| Graph.EdgeOf | src/graph.ts:10-14 | an edge from the smaller to the larger adjacent label, through the mark's centroid |
| Graph.FindGraph | src/graph.ts:2-18 | the result is GraphUpTo over labels 1..numMarks |
| Graph.ReadableAfterSegmentation | src/graph.ts:6-14 | on findConjoined's output every node mark has a centroid, so only adjacency entries of edge marks remain to be present |
| Graph.VerticesAreNodes | src/graph.ts:6-8 | a label is a vertex exactly when it is a node mark, and the vertex sits at its centroid |
| Graph.EdgesInLabelOrder | src/graph.ts:10-14 | one edge per edge mark touching exactly two labels, in ascending label order; other marks yield none |
| Graph.EdgeEnds | src/graph.ts:10-14 | every edge joins the two labels its ink touches, smaller first, through that ink's centroid |
| Graph.EndsNotChecked | src/graph.ts:10-14 | an edge mark touching two other edge marks still yields an edge, between labels that are not vertices |
| Edges.OneEdgeFromPreEdge | src/edge.ts:30-45 | the edge built from a PreEdge is one segment between the two vertex positions and breaks at the ink's centroid; the curve drawn for it starts at a's vertex, ends at b's and passes through the centroid halfway |
| Edges.ControlThroughCentroid | src/edge.ts:42-45 | with control point 2m-(va+vb)/2 the curve runs from va to vb and passes through m halfway |
| Edges.BreakPointOfFirstSegment | src/edge.ts:138-144 | an edge has segments, and its break point is the centroid of the first |
| Edges.RootChoicesSymmetric | src/edge.ts:121-128 | two root choices, tagged a then b, symmetric about the break point |
| Edges.OneEdgeVelocityIsTangent | src/edge.ts:61-73 | a one-segment edge leaves each end along the curve's tangent |
| Edges.CubicsAt | src/edge.ts:130-136 | the j-th cubic runs from segment j's va to its vb with both inner controls at its m |
| Edges.CubicsConcat | src/edge.ts:130-136 | the cubics of joined segment lists are the two lists of cubics joined |
| Edges.GetCubics | src/edge.ts:130-136 | one cubic per segment, in order |
| Edges.MultiEdgeVelocityOfFirst | src/edge.ts:146-154 | a multi-segment edge's velocity depends only on its first segment: norm(m-3va) at a and norm(m-3vb) at b |
| Edges.MultiEdgeKeepsFirst | src/edge.ts:94-144 | joining keeps the first edge's break point and root choices, and its cubics are the two edges' cubics joined |
| LamPrinter.NameFromNumInjective | src/stringifyLam.ts:6-8 | distinct numbers give distinct names |
| LamPrinter.ArgumentPositionWraps | src/stringifyLam.ts:12-24 | in argument position exactly abstractions and applications are parenthesised |
| LamPrinter.FunctionPositionWraps | src/stringifyLam.ts:12-24 | in function position only abstractions are parenthesised, so applications nest to the left without parentheses |
| LamPrinter.UnderBinderElides | src/stringifyLam.ts:12-25 | directly under a binder the binder symbol is dropped and an application gains a leading dot |
| LamPrinter.FirstCharInFunctionPosition | src/stringifyLam.ts:10-28 | in function position a term starts with one of its letters, '(' or 'E' |
| LamPrinter.FirstCharUnderBinder | src/stringifyLam.ts:10-28 | what follows a binder's letter is never empty and never starts with ')' |
| LamPrinter.TetrahedronString | src/__test__/image-tests.ts:54-55 | \abc.a (b c) prints as "/abc.a (b c)" |
| LamPrinter.CubeString | src/__test__/image-tests.ts:50-51 | the cube term prints as "/abcd.a (/e.b (c (d e)))" |
| LamPrinter.Degree2String | src/__test__/image-tests.ts:78-79 | \ab.a b prints as "/ab.a b" |
| LamParser.ReadBack | src/stringifyLam.ts:10-32 | reading the printed form back gives the term, for any binder symbol that cannot be mistaken for the term's first character |
| LamParser.PrintingIsInjective | src/stringifyLam.ts:30-32 | distinct terms print differently |

## Left out

- Conjoined.FindConjoined: requires fewer than 65536 non-white pixels. Every label is handed out at an unlabelled non-white pixel and labels it, so at most 65535 labels are handed out and no label wraps in the `Uint16Array`. The source goes wrong only once a 65536th label is handed out; images with 65536 or more non-white pixels that still need fewer labels are outside the model, which is a stronger bound than the source needs. Image size itself is not bounded. `ValuePut` still models the wrap.
- Conjoined.LabelsClosed: states that labels are closed under the fill's flat neighbours. It does not state that each label is one connected region.
- Edges.NewOneEdge: requires both ends of the PreEdge to be vertices. In the source, a PreEdge with an end that is not a vertex (which findGraph does emit, see Graph.EndsNotChecked) makes `vertices[pe.a].p` throw. That error path is excluded by the precondition, not modelled as a result.
- Reading an image (`getImageData`, `loader.ts`), drawing (`index.ts`, `Edge.draw`, `getArrowHeads`) and the canvas are I/O and are not modelled; neither are the tests.
- Numbers are modelled as `real`s, so rounding is not modelled. `vlen` and `vnorm` need a square root, and `vrot90` and angles belong to drawing. They appear only as the function parameters `norm` and `rot90`.
- Graph.FindGraph: requires every edge mark to have an adjacency entry (`Readable`). In the source, an edge mark with no entry (an edge mark whose pixels all lie in the last row or column the adjacency scan skips) makes `Object.keys(undefined)` throw. That error path is a precondition here, not a result.
- LamPrinter.NameFromNum: name numbers are kept below 0xD800-97. `String.fromCharCode` truncates larger codes to 16 bits and may produce surrogates, which Dafny characters exclude.
- The older `Exp` and `EdgeSegment` declarations in `types.ts` do not match `edge.ts`, which stores segments as `{va, vb, m}`. The model follows `edge.ts`.
- Coalescing edges into multi-edges and choosing a root are not part of this model; only the `MultiEdge` constructor and accessors are.
- Conjoined.Image: each pixel is one RGB `Color`. The RGBA byte layout of `ImageData`, with its index `4 * (y * w + x)`, is abstracted away. A read outside the data gives `None` instead of three `undefined` channels; both compare unequal to every colour.
