/**
 * Componentwise vector helpers of the drawing code (src/util.ts).
 * Coordinates are modelled as mathematical reals; floating-point rounding is not modelled.
 * `vlen` and `vnorm` need a square root and stay abstract: callers receive the
 * normalisation as a function parameter.
 */
module Util {

  datatype Point = Point(x: real, y: real)

  /** sqr(x) = x * x, never negative. */
  function Sqr(x: real): (r: real)
    ensures r >= 0.0
  {
    x * x
  }

  /** vsub: the difference a - b; adding b back gives a. */
  function VSub(a: Point, b: Point): (r: Point)
    ensures VPlus(r, b) == a
  {
    Point(a.x - b.x, a.y - b.y)
  }

  /** vplus: componentwise sum. */
  function VPlus(a: Point, b: Point): (r: Point)
    ensures r.x == a.x + b.x && r.y == a.y + b.y
  {
    Point(a.x + b.x, a.y + b.y)
  }

  /** vdiv: componentwise division by a non-zero scalar; scaling back gives the input. */
  function VDiv(b: Point, s: real): (r: Point)
    requires s != 0.0
    ensures VScale(r, s) == b
  {
    Point(b.x / s, b.y / s)
  }

  /** vscale: componentwise multiplication by a scalar. */
  function VScale(b: Point, s: real): (r: Point)
    ensures r.x == b.x * s && r.y == b.y * s
  {
    Point(b.x * s, b.y * s)
  }

  /** Componentwise scalar map on two points (`vm2` at its call sites). */
  function VMap2(a: Point, b: Point, f: (real, real) -> real): (r: Point)
    ensures r.x == f(a.x, b.x) && r.y == f(a.y, b.y)
  {
    Point(f(a.x, b.x), f(a.y, b.y))
  }

  /** Componentwise scalar map on three points (`vmn` on a list of three). */
  function VMap3(a: Point, b: Point, c: Point, f: (real, real, real) -> real): (r: Point)
    ensures r.x == f(a.x, b.x, c.x) && r.y == f(a.y, b.y, c.y)
  {
    Point(f(a.x, b.x, c.x), f(a.y, b.y, c.y))
  }

  lemma VPlusCommutes(a: Point, b: Point)
    ensures VPlus(a, b) == VPlus(b, a)
  {
  }

  lemma VSubThenPlus(a: Point, b: Point)
    ensures VPlus(VSub(a, b), b) == a
  {
  }

  lemma VDivThenScale(p: Point, s: real)
    requires s != 0.0
    ensures VScale(VDiv(p, s), s) == p
  {
  }
}
