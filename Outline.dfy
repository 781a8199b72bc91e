/** The segment-splitting loop of `generate_outline` (ImageToGCode2.py and
    InkscapeToGCode.py): every contour traced by the iso-line finder is a
    polyline of `(row, col)` points, and each pair of consecutive points
    becomes one segment in `(x, y)` order.  The contour finder itself is not
    part of this model: its contours are the input. */
module Outline {
  import opened Geometry

  /** A contour point as the tracer reports it: row first, then column. */
  datatype RowCol = RowCol(row: real, col: real)

  /** `(p[1], p[0])`: column becomes x, row becomes y. */
  function ToXY(p: RowCol): Point
  {
    Point(p.col, p.row)
  }

  function ToRowCol(q: Point): RowCol
  {
    RowCol(q.y, q.x)
  }

  /** The swap loses nothing: it is undone by swapping back, both ways round. */
  lemma SwapRoundTrip(p: RowCol, q: Point)
    ensures ToRowCol(ToXY(p)) == p
    ensures ToXY(ToRowCol(q)) == q
    ensures ToXY(p).x == p.col && ToXY(p).y == p.row
  {
  }

  /** The segments of one polyline: `len(pts) - 1` of them (none for zero or
      one point), segment `i` joining point `i` to point `i + 1`. */
  function PolylineSegments(pts: seq<RowCol>): (r: seq<Segment>)
    ensures |r| == if |pts| == 0 then 0 else |pts| - 1
  {
    if |pts| == 0 then []
    else seq(|pts| - 1, i requires 0 <= i < |pts| - 1 => Segment(ToXY(pts[i]), ToXY(pts[i + 1])))
  }

  /** Segment `i` of a polyline joins point `i` to point `i + 1`. */
  lemma PolylineSegmentAt(pts: seq<RowCol>, i: int)
    requires 0 <= i < |pts| - 1
    ensures PolylineSegments(pts)[i] == Segment(ToXY(pts[i]), ToXY(pts[i + 1]))
  {
  }

  /** Consecutive segments of a polyline share their joint: the pen path is
      unbroken, and the whole polyline is recovered from its segments. */
  lemma PolylineChained(pts: seq<RowCol>)
    ensures var r := PolylineSegments(pts);
      && (forall i :: 0 <= i < |r| - 1 ==> r[i].end == r[i + 1].start)
      && (|pts| >= 2 ==> r[0].start == ToXY(pts[0]) && r[|r| - 1].end == ToXY(pts[|pts| - 1]))
  {
  }

  /** The points of a polyline with at least two points are the starts of
      its segments followed by the end of the last one. */
  lemma PolylineRecovered(pts: seq<RowCol>)
    requires |pts| >= 2
    ensures var r := PolylineSegments(pts);
      pts == seq(|r|, i requires 0 <= i < |r| => ToRowCol(r[i].start)) + [ToRowCol(r[|r| - 1].end)]
  {
    var r := PolylineSegments(pts);
    var back := seq(|r|, i requires 0 <= i < |r| => ToRowCol(r[i].start)) + [ToRowCol(r[|r| - 1].end)];
    forall i | 0 <= i < |pts|
      ensures back[i] == pts[i]
    {
      if i < |r| {
        SwapRoundTrip(pts[i], r[i].start);
      } else {
        SwapRoundTrip(pts[i], r[|r| - 1].end);
      }
    }
  }

  /** Reference definition of the whole outline: the contours' segments in
      contour order. */
  function ContourSegments(contours: seq<seq<RowCol>>): seq<Segment>
  {
    if |contours| == 0 then []
    else PolylineSegments(contours[0]) + ContourSegments(contours[1..])
  }

  /** Contours are split independently: the outline of two lists of contours
      is the outline of the first followed by that of the second. */
  lemma {:induction false} ContourSegmentsAppend(a: seq<seq<RowCol>>, b: seq<seq<RowCol>>)
    ensures ContourSegments(a + b) == ContourSegments(a) + ContourSegments(b)
  {
    if |a| == 0 {
      assert a + b == b;
    } else {
      assert (a + b)[0] == a[0];
      assert (a + b)[1..] == a[1..] + b;
      ContourSegmentsAppend(a[1..], b);
    }
  }

  /** Every outline segment joins two consecutive points of one contour. */
  lemma {:induction false} ContourSegmentsMember(contours: seq<seq<RowCol>>, s: Segment) returns (c: nat, i: nat)
    requires s in ContourSegments(contours)
    ensures c < |contours| && i + 1 < |contours[c]|
    ensures s == Segment(ToXY(contours[c][i]), ToXY(contours[c][i + 1]))
  {
    var first := PolylineSegments(contours[0]);
    assert ContourSegments(contours) == first + ContourSegments(contours[1..]);
    if s in first {
      c := 0;
      var j :| 0 <= j < |first| && first[j] == s;
      PolylineSegmentAt(contours[0], j);
      i := j;
    } else {
      var c';
      c', i := ContourSegmentsMember(contours[1..], s);
      c := c' + 1;
      assert contours[c] == contours[1..][c'];
    }
  }

  /** Conversely, every pair of consecutive points of every contour is an outline segment. */
  lemma {:induction false} ContourSegmentsInclude(contours: seq<seq<RowCol>>, c: nat, i: nat)
    requires c < |contours| && i + 1 < |contours[c]|
    ensures Segment(ToXY(contours[c][i]), ToXY(contours[c][i + 1])) in ContourSegments(contours)
  {
    if c == 0 {
      PolylineSegmentAt(contours[0], i);
    } else {
      assert contours[1..][c - 1] == contours[c];
      ContourSegmentsInclude(contours[1..], c - 1, i);
    }
  }

  /** The inner loop over one contour: `for i in range(len(pts) - 1)`. */
  method SplitPolyline(pts: seq<RowCol>) returns (segs: seq<Segment>)
    ensures segs == PolylineSegments(pts)
  {
    ghost var all := PolylineSegments(pts);
    segs := [];
    var i := 0;
    while i < |pts| - 1
      invariant 0 <= i <= |all|
      invariant segs == all[..i]
    {
      PolylineSegmentAt(pts, i);
      segs := segs + [Segment(ToXY(pts[i]), ToXY(pts[i + 1]))];
      i := i + 1;
    }
    assert all[..i] == all;
  }

  /** The outline loop: `for contour in contours`, each contour's segments in turn. */
  method OutlineSegments(contours: seq<seq<RowCol>>) returns (lines: seq<Segment>)
    ensures lines == ContourSegments(contours)
  {
    lines := [];
    var k := 0;
    while k < |contours|
      invariant 0 <= k <= |contours|
      invariant lines + ContourSegments(contours[k..]) == ContourSegments(contours)
    {
      var segs := SplitPolyline(contours[k]);
      assert contours[k..][1..] == contours[k + 1..];
      assert ContourSegments(contours[k..]) == segs + ContourSegments(contours[k + 1..]);
      lines := lines + segs;
      k := k + 1;
    }
  }
}
