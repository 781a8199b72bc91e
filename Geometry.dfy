/** Shared vocabulary of the raster-to-plotter pipeline: the tone field,
    pixel- and plane-space segments, and the two integer conversions of
    Python that the generators rely on (`int()` and `round()`). */
module Geometry {

  /** A point of the drawing plane (pixel space or millimetres). */
  datatype Point = Point(x: real, y: real)

  /** An ordered pair of points: the pen goes down at `start` and draws to `end`. */
  datatype Segment = Segment(start: Point, end: Point)

  /** An integer pixel coordinate: column `x`, row `y` (row 0 is the top row). */
  datatype Pixel = Pixel(x: int, y: int)

  /** A segment between two pixel centres, as the fill and hatch generators build it. */
  datatype PxSegment = PxSegment(start: Pixel, end: Pixel)

  function ToPoint(p: Pixel): (q: Point)
    ensures q.x.Floor == p.x && q.y.Floor == p.y
  {
    Point(p.x as real, p.y as real)
  }

  /** Pixel segments enter the G-code stage as plane segments with the same coordinates. */
  function ToSegments(ss: seq<PxSegment>): (r: seq<Segment>)
    ensures |r| == |ss|
    ensures forall k :: 0 <= k < |ss| ==>
      r[k].start == ToPoint(ss[k].start) && r[k].end == ToPoint(ss[k].end)
  {
    seq(|ss|, k requires 0 <= k < |ss| => Segment(ToPoint(ss[k].start), ToPoint(ss[k].end)))
  }

  /** A tone field of 8-bit gray levels: `img[y][x]`, every row as wide as
      the first, every value in 0..255 (0 is black, 255 is white). */
  predicate IsGrayField(img: seq<seq<int>>)
  {
    && (forall y :: 0 <= y < |img| ==> |img[y]| == |img[0]|)
    && (forall y, x :: 0 <= y < |img| && 0 <= x < |img[y]| ==> 0 <= img[y][x] <= 255)
  }

  function Width(img: seq<seq<int>>): nat
  {
    if |img| == 0 then 0 else |img[0]|
  }

  function Max(a: int, b: int): int { if a < b then b else a }
  function Min(a: int, b: int): int { if a < b then a else b }

  /** Python's `int(v)` on a float: truncation toward zero. */
  function Trunc(v: real): (r: int)
    ensures 0.0 <= v ==> r as real <= v < r as real + 1.0
    ensures v < 0.0 ==> r as real - 1.0 < v <= r as real
  {
    if v >= 0.0 then v.Floor else -((-v).Floor)
  }

  /** The sampling step in pixels the generators derive from a spacing:
      `max(1, int(spacing_px))`. */
  function SampleStep(spacingPx: real): (step: int)
    ensures step >= 1
    ensures spacingPx >= 1.0 ==> step as real <= spacingPx < step as real + 1.0
    ensures spacingPx < 1.0 ==> step == 1
  {
    Max(1, Trunc(spacingPx))
  }

  /** Python's `round(v)`: the nearest integer, ties going to the even one. */
  function RoundHalfEven(v: real): (r: int)
    ensures v - 0.5 <= r as real <= v + 0.5
  {
    var f := v.Floor;
    var d := v - f as real;
    if d < 0.5 then f
    else if d > 0.5 then f + 1
    else if f % 2 == 0 then f
    else f + 1
  }

  /** Rounding never reverses the order of two values. */
  lemma RoundHalfEvenMonotone(u: real, v: real)
    requires u <= v
    ensures RoundHalfEven(u) <= RoundHalfEven(v)
  {
    var fu, fv := u.Floor, v.Floor;
    assert fu <= fv;
    if fu == fv {
      assert u - fu as real <= v - fv as real;
    }
  }

  /** A value exactly halfway between two integers rounds to the even one. */
  lemma RoundHalfEvenTies(v: real)
    ensures var r := RoundHalfEven(v);
      (r as real - v == 0.5 || v - r as real == 0.5) ==> r % 2 == 0
  {
  }

  /** Rounding a value between two integers stays between them. */
  lemma RoundBetween(v: real, lo: int, hi: int)
    requires lo as real <= v <= hi as real
    ensures lo <= RoundHalfEven(v) <= hi
  {
  }

  /** An integer already is its own rounding, and so is its truncation. */
  lemma RoundOfInteger(n: int)
    ensures RoundHalfEven(n as real) == n && Trunc(n as real) == n
  {
  }
}
