/** Black-and-white scanline fill (`generate_fill_lines_bw` in
    ImageToGCode2.py, `generate_fill_lines` in InkscapeToGCode.py): every
    `step`-th row is scanned left to right and each maximal run of dark
    pixels becomes one horizontal segment. */
module ScanlineFill {
  import opened Geometry
  import opened Runs

  /** A gray level is dark when its normalised tone `v / 255` is below 0.5,
      which for an integer level means `v <= 127`. */
  predicate IsDark(v: int)
  {
    v <= 127
  }

  lemma DarkIsBelowHalf(v: int)
    ensures IsDark(v) <==> (v as real) / 255.0 < 0.5
  {
  }

  /** The row as a scan of ink flags. */
  function DarkMask(row: seq<int>): (m: seq<bool>)
    ensures |m| == |row|
    ensures forall x :: 0 <= x < |row| ==> (m[x] <==> IsDark(row[x]))
  {
    seq(|row|, x requires 0 <= x < |row| => IsDark(row[x]))
  }

  /** A pixel's flag is set exactly when its tone, normalised to `[0, 1]` by
      dividing by 255, is below one half. */
  lemma DarkMaskIsBelowHalf(row: seq<int>)
    ensures forall x :: 0 <= x < |row| ==> (DarkMask(row)[x] <==> (row[x] as real) / 255.0 < 0.5)
  {
    forall x | 0 <= x < |row|
      ensures DarkMask(row)[x] <==> (row[x] as real) / 255.0 < 0.5
    {
      DarkIsBelowHalf(row[x]);
    }
  }

  /** The horizontal segment on row `y` from column `a` to column `b`. */
  function HSeg(a: int, b: int, y: int): PxSegment
  {
    PxSegment(Pixel(a, y), Pixel(b, y))
  }

  function SpanSegments(sps: seq<Span>, y: int): (r: seq<PxSegment>)
    ensures |r| == |sps|
    ensures forall k :: 0 <= k < |sps| ==> r[k] == HSeg(sps[k].lo, sps[k].hi, y)
  {
    seq(|sps|, k requires 0 <= k < |sps| => HSeg(sps[k].lo, sps[k].hi, y))
  }

  /** Reference definition of one row's output: its maximal dark runs, left to right. */
  function RowSegments(row: seq<int>, y: int): seq<PxSegment>
  {
    SpanSegments(RunsFrom(DarkMask(row), 0), y)
  }

  /** Reference definition of the whole fill: rows `y, y + step, ...` below the bottom edge. */
  function FillRows(img: seq<seq<int>>, step: int, y: nat): seq<PxSegment>
    requires step >= 1
    decreases |img| - y
  {
    if y >= |img| then [] else RowSegments(img[y], y) + FillRows(img, step, y + step)
  }

  /** `[a, b]` is a maximal run of dark pixels of `row`. */
  predicate IsDarkRun(row: seq<int>, a: int, b: int)
  {
    && 0 <= a <= b < |row|
    && (forall x :: a <= x <= b ==> IsDark(row[x]))
    && (a == 0 || !IsDark(row[a - 1]))
    && (b == |row| - 1 || !IsDark(row[b + 1]))
  }

  lemma SpanSegmentsAppend(sps: seq<Span>, sp: Span, y: int)
    ensures SpanSegments(sps + [sp], y) == SpanSegments(sps, y) + [HSeg(sp.lo, sp.hi, y)]
  {
  }

  /** The scan of one sampled row with the `inside` / `start_x` run flag:
      a run opens on a dark pixel, closes at the pixel before the first
      light one, and a run still open at the row's end closes at `width - 1`. */
  method ScanRow(row: seq<int>, y: int) returns (segs: seq<PxSegment>)
    ensures segs == RowSegments(row, y)
  {
    var width := |row|;
    ghost var done: seq<Span> := [];
    segs := [];
    var inside := false;
    var startX := 0;
    var x := 0;
    while x < width
      invariant x <= width
      invariant Scanned(DarkMask(row), x, inside, startX, done)
      invariant segs == SpanSegments(done, y)
    {
      inside, startX, segs, done := ScanPixel(row, y, x, inside, startX, segs, done);
      x := x + 1;
    }
    ScanRowEnd(row, y, inside, startX, done, segs);
    if inside {
      segs := segs + [HSeg(startX, width - 1, y)];
    }
  }

  /** One pixel of the row scan: a dark pixel opens a run unless one is open;
      a light pixel closes the open run, if any, at the pixel before it. */
  method ScanPixel(row: seq<int>, y: int, x: nat, inside: bool, startX: nat, segs: seq<PxSegment>,
                   ghost done: seq<Span>)
    returns (inside': bool, startX': nat, segs': seq<PxSegment>, ghost done': seq<Span>)
    requires x < |row| && Scanned(DarkMask(row), x, inside, startX, done)
    requires segs == SpanSegments(done, y)
    ensures Scanned(DarkMask(row), x + 1, inside', startX', done')
    ensures segs' == SpanSegments(done', y)
  {
    ghost var m := DarkMask(row);
    inside', startX', segs', done' := inside, startX, segs, done;
    if row[x] <= 127 {
      ScanSet(m, x, inside, startX, done);
      if !inside {
        inside', startX' := true, x;
      }
    } else {
      ScanClear(m, x, inside, startX, done);
      if inside {
        SpanSegmentsAppend(done, Span(startX, x - 1), y);
        inside' := false;
        done' := done + [Span(startX, x - 1)];
        segs' := segs + [HSeg(startX, x - 1, y)];
      }
    }
  }

  /** The flush after the row: a run still open at the row's end closes at
      `width - 1`, and then the row's runs are all out. */
  lemma ScanRowEnd(row: seq<int>, y: int, inside: bool, startX: nat, done: seq<Span>, segs: seq<PxSegment>)
    requires Scanned(DarkMask(row), |row|, inside, startX, done)
    requires segs == SpanSegments(done, y)
    ensures inside ==> segs + [HSeg(startX, |row| - 1, y)] == RowSegments(row, y)
    ensures !inside ==> segs == RowSegments(row, y)
  {
    ScanFinish(DarkMask(row), inside, startX, done);
    if inside {
      RowSegmentsFrom(row, y, done + [Span(startX, |row| - 1)]);
      SpanSegmentsAppend(done, Span(startX, |row| - 1), y);
    } else {
      RowSegmentsFrom(row, y, done);
    }
  }

  lemma RowSegmentsFrom(row: seq<int>, y: int, runs: seq<Span>)
    requires RunsFrom(DarkMask(row), 0) == runs
    ensures RowSegments(row, y) == SpanSegments(runs, y)
  {
  }

  /** The scanline fill: rows `0, step, 2 * step, ...` scanned in order. */
  method FillLines(img: seq<seq<int>>, spacingPx: real) returns (lines: seq<PxSegment>)
    requires IsGrayField(img)
    ensures lines == FillRows(img, SampleStep(spacingPx), 0)
  {
    var height := |img|;
    var step := SampleStep(spacingPx);
    lines := [];
    var y := 0;
    ghost var total := FillRows(img, step, 0);
    while y < height
      invariant lines + FillRows(img, step, y) == total
      decreases height - y
    {
      var segs := ScanRow(img[y], y);
      FillRowsStep(img, step, y, lines, segs, total);
      lines := lines + segs;
      y := y + step;
    }
    FillRowsDone(img, step, y, lines, total);
  }

  /** Scanning row `y` moves the fill on to row `y + step`. */
  lemma FillRowsStep(img: seq<seq<int>>, step: int, y: nat, done: seq<PxSegment>, segs: seq<PxSegment>,
                     total: seq<PxSegment>)
    requires step >= 1 && y < |img|
    requires segs == RowSegments(img[y], y)
    requires done + FillRows(img, step, y) == total
    ensures (done + segs) + FillRows(img, step, y + step) == total
  {
    var rest := FillRows(img, step, y + step);
    assert FillRows(img, step, y) == segs + rest;
    assert done + (segs + rest) == (done + segs) + rest;
  }

  /** Past the bottom edge nothing is left to scan. */
  lemma FillRowsDone(img: seq<seq<int>>, step: int, y: nat, done: seq<PxSegment>, total: seq<PxSegment>)
    requires step >= 1 && y >= |img|
    requires done + FillRows(img, step, y) == total
    ensures done == total
  {
    assert done + [] == done;
  }

  /** One row's segments are exactly its maximal dark runs (both directions). */
  lemma RowSegmentsExact(row: seq<int>, y: int, s: PxSegment)
    ensures s in RowSegments(row, y) <==>
      s.start.y == y && s.end.y == y && IsDarkRun(row, s.start.x, s.end.x)
  {
    var m := DarkMask(row);
    var r := RunsFrom(m, 0);
    if s in RowSegments(row, y) {
      var k :| 0 <= k < |r| && s == HSeg(r[k].lo, r[k].hi, y);
      Runs.Runs(m, r[k]);
    }
    if s.start.y == y && s.end.y == y && IsDarkRun(row, s.start.x, s.end.x) {
      var sp := Span(s.start.x, s.end.x);
      Runs.Runs(m, sp);
      var k :| 0 <= k < |r| && r[k] == sp;
      assert RowSegments(row, y)[k] == s;
    }
  }

  /** Within a row, segments appear left to right with at least one light pixel between them. */
  lemma RowSegmentsOrdered(row: seq<int>, y: int, j: nat, k: nat)
    requires j < k < |RowSegments(row, y)|
    ensures RowSegments(row, y)[j].end.x + 1 < RowSegments(row, y)[k].start.x
  {
    RunsFromOrdered(DarkMask(row), 0);
  }

  /** Every segment of the fill from row `y0` on lies on a sampled row `y0 + n * step`. */
  lemma {:induction false} FillRowsOnSampledRows(img: seq<seq<int>>, step: int, y0: nat, s: PxSegment)
    returns (n: nat)
    requires step >= 1
    requires s in FillRows(img, step, y0)
    ensures s.start.y == y0 + n * step < |img|
    ensures s in RowSegments(img[s.start.y], s.start.y)
    decreases |img| - y0
  {
    var here := RowSegments(img[y0], y0);
    assert FillRows(img, step, y0) == here + FillRows(img, step, y0 + step);
    if s in here {
      RowSegmentsExact(img[y0], y0, s);
      n := 0;
    } else {
      var n' := FillRowsOnSampledRows(img, step, y0 + step, s);
      n := n' + 1;
      NextStep(y0, step, n');
    }
  }

  lemma NextStep(y0: int, step: int, n: nat)
    ensures y0 + (n + 1) * step == (y0 + step) + n * step
  {
  }

  /** The sampled row `y0 + n * step` contributes all its runs to the fill from `y0`. */
  lemma {:induction false} FillRowsIncludeRow(img: seq<seq<int>>, step: int, y0: nat, n: nat, s: PxSegment)
    requires step >= 1
    requires y0 + n * step < |img|
    requires s in RowSegments(img[y0 + n * step], y0 + n * step)
    ensures s in FillRows(img, step, y0)
    decreases n
  {
    if n > 0 {
      NextStep(y0, step, n - 1);
      FillRowsIncludeRow(img, step, y0 + step, n - 1, s);
    }
  }

  /** A row reached after `n` whole steps from row 0 is a sampled row. */
  lemma StepsAreSampled(n: nat, step: int)
    requires step >= 1
    ensures (n * step) % step == 0
  {
    var q, r := (n * step) / step, (n * step) % step;
    assert step * (n - q) == r;
    if n - q >= 1 {
      MulAtLeast(step, n - q);
    } else if n - q <= -1 {
      MulAtLeast(step, q - n);
    }
  }

  lemma MulAtLeast(a: int, b: int)
    requires a >= 0 && b >= 1
    ensures a * b >= a
  {
  }

  /** A sampled row is a whole number of steps from row 0. */
  lemma SampledIsSteps(y: nat, step: int)
    requires step >= 1 && y % step == 0
    ensures y == (y / step) * step && y / step >= 0
  {
  }

  /** A segment of the fill lies on a sampled row and is a maximal dark run of it. */
  lemma FillSegmentIsRun(img: seq<seq<int>>, step: int, s: PxSegment)
    requires step >= 1
    requires s in FillRows(img, step, 0)
    ensures 0 <= s.start.y < |img| && s.start.y % step == 0 && s.end.y == s.start.y
    ensures IsDarkRun(img[s.start.y], s.start.x, s.end.x)
  {
    var n := FillRowsOnSampledRows(img, step, 0, s);
    StepsAreSampled(n, step);
    RowSegmentsExact(img[s.start.y], s.start.y, s);
  }

  /** A maximal dark run of a sampled row is a segment of the fill. */
  lemma RunIsFillSegment(img: seq<seq<int>>, step: int, s: PxSegment)
    requires step >= 1
    requires 0 <= s.start.y < |img| && s.start.y % step == 0 && s.end.y == s.start.y
    requires IsDarkRun(img[s.start.y], s.start.x, s.end.x)
    ensures s in FillRows(img, step, 0)
  {
    var y := s.start.y;
    RowSegmentsExact(img[y], y, s);
    SampledIsSteps(y, step);
    FillRowsIncludeRow(img, step, 0, y / step, s);
  }

  /** The fill's segments are exactly the maximal dark runs of the rows
      `0, step, 2 * step, ...`, each drawn left to right along its row. */
  lemma FillIsMaximalRuns(img: seq<seq<int>>, spacingPx: real, s: PxSegment)
    ensures var step := SampleStep(spacingPx);
      s in FillRows(img, step, 0) <==>
        && 0 <= s.start.y < |img| && s.start.y % step == 0
        && s.end.y == s.start.y
        && IsDarkRun(img[s.start.y], s.start.x, s.end.x)
  {
    var step := SampleStep(spacingPx);
    if s in FillRows(img, step, 0) {
      FillSegmentIsRun(img, step, s);
    }
    if 0 <= s.start.y < |img| && s.start.y % step == 0 && s.end.y == s.start.y
       && IsDarkRun(img[s.start.y], s.start.x, s.end.x) {
      RunIsFillSegment(img, step, s);
    }
  }

  /** Output order: row by row from the top, and left to right within a row,
      with no two segments of a row touching. */
  predicate Before(a: PxSegment, b: PxSegment)
  {
    a.start.y < b.start.y || (a.start.y == b.start.y && a.end.x + 1 < b.start.x)
  }

  lemma {:induction false} FillRowsOrdered(img: seq<seq<int>>, step: int, y0: nat, j: nat, k: nat)
    requires step >= 1
    requires j < k < |FillRows(img, step, y0)|
    ensures Before(FillRows(img, step, y0)[j], FillRows(img, step, y0)[k])
    decreases |img| - y0
  {
    var out := FillRows(img, step, y0);
    var here := RowSegments(img[y0], y0);
    var rest := FillRows(img, step, y0 + step);
    assert out == here + rest;
    if k < |here| {
      RowSegmentsOrdered(img[y0], y0, j, k);
    } else if j < |here| {
      assert out[j] == here[j] && out[k] == rest[k - |here|];
      RowBeforeLaterRows(img, step, y0, here[j], rest[k - |here|]);
    } else {
      FillRowsOrdered(img, step, y0 + step, j - |here|, k - |here|);
    }
  }

  /** A segment of row `y0` comes before every segment of the rows after it. */
  lemma RowBeforeLaterRows(img: seq<seq<int>>, step: int, y0: nat, a: PxSegment, b: PxSegment)
    requires step >= 1 && y0 < |img|
    requires a in RowSegments(img[y0], y0)
    requires b in FillRows(img, step, y0 + step)
    ensures Before(a, b)
  {
    RowSegmentsExact(img[y0], y0, a);
    var n := FillRowsOnSampledRows(img, step, y0 + step, b);
    MulNonNegative(n, step);
  }

  lemma MulNonNegative(n: nat, step: int)
    requires step >= 1
    ensures n * step >= 0
  {
  }

  predicate Covers(s: PxSegment, x: int, y: int)
  {
    s.start.y == y && s.start.x <= x <= s.end.x
  }

  /** Every dark pixel of a sampled row is drawn by exactly one fill segment. */
  lemma FillCoversEachDarkPixelOnce(img: seq<seq<int>>, spacingPx: real, x: int, y: int)
    requires IsGrayField(img)
    requires 0 <= y < |img| && y % SampleStep(spacingPx) == 0
    requires 0 <= x < |img[y]| && IsDark(img[y][x])
    ensures var out := FillRows(img, SampleStep(spacingPx), 0);
      && (exists k :: 0 <= k < |out| && Covers(out[k], x, y))
      && (forall j, k :: 0 <= j < |out| && 0 <= k < |out| && Covers(out[j], x, y) && Covers(out[k], x, y) ==> j == k)
  {
    var step := SampleStep(spacingPx);
    var out := FillRows(img, step, 0);
    var m := DarkMask(img[y]);
    var r := RunsFrom(m, 0);
    var i := RunsFromCover(m, 0, x);
    var s := HSeg(r[i].lo, r[i].hi, y);
    assert s == RowSegments(img[y], y)[i];
    SampledIsSteps(y, step);
    FillRowsIncludeRow(img, step, 0, y / step, s);
    var k :| 0 <= k < |out| && out[k] == s;
    assert Covers(out[k], x, y);
    forall j, k | 0 <= j < |out| && 0 <= k < |out| && Covers(out[j], x, y) && Covers(out[k], x, y)
      ensures j == k
    {
      if j < k {
        FillRowsOrdered(img, step, 0, j, k);
      } else if k < j {
        FillRowsOrdered(img, step, 0, k, j);
      }
    }
  }
}
