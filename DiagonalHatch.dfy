/** Diagonal hatching (`generate_hatch_lines` in ImageToGCode.py): for every
    offset `0, spacing, 2 * spacing, ...` below `width + height`, the
    anti-diagonal through the offset is walked column by column, and each run
    of at least two cells darker than a threshold becomes one segment from its
    first cell to its last. */
module DiagonalHatch {
  import opened Geometry
  import opened Runs

  /** The k-th offset `k * spacing` of a family whose spacing is the
      fraction `num / den` (the driver's spacings 0.5, 1, 1.5 and 2 are exact
      in binary, so the offsets are exactly these multiples). */
  function Offset(k: nat, num: nat, den: nat): (o: real)
    requires den >= 1
    ensures o >= 0.0 && o * den as real == (k * num) as real
  {
    (k * num) as real / den as real
  }

  /** The offset loop runs while `k * spacing < bound`, which on integers reads
      `k * num < bound * den`. */
  lemma OffsetBelow(k: nat, num: nat, den: nat, bound: int)
    requires den >= 1
    ensures Offset(k, num, den) < bound as real <==> k * num < bound * den
  {
    var d := den as real;
    assert (bound * den) as real == bound as real * d;
    assert Offset(k, num, den) * d == (k * num) as real;
  }

  /** The row visited in column `x` on the diagonal through offset `o`, rounded
      down: every visited cell lies on the anti-diagonal `x + y == floor(o)`. */
  function DiagY(o: real, x: int): (y: int)
    ensures y == o.Floor - x
  {
    (o - x as real).Floor
  }

  /** The row as the script computes it, `int(o - x)`, which truncates toward zero. */
  function DiagYAsWritten(o: real, x: int): (y: int)
    ensures x as real <= o ==> y == DiagY(o, x)
    ensures x as real > o ==> y == DiagY(o, x) + (if o.Floor as real < o then 1 else 0)
  {
    Trunc(o - x as real)
  }

  /** The two rules differ exactly right of a fractional offset, and the only
      column where truncation lands inside the image while the diagonal has
      already left it is `floor(o) + 1`, which it sends to row 0. */
  lemma AsWrittenExtraCell(o: real, x: int)
    requires o >= 0.0 && x >= 0
    ensures DiagYAsWritten(o, x) != DiagY(o, x) <==> (x as real > o && o.Floor as real < o)
    ensures (0 <= DiagYAsWritten(o, x) && DiagY(o, x) < 0) <==> (x == o.Floor + 1 && o.Floor as real < o)
    ensures x == o.Floor + 1 && o.Floor as real < o ==> DiagYAsWritten(o, x) == 0
  {
  }

  /** Spacing 0.5, offset index 5: the diagonal through 2.5 is `x + y == 2`,
      but column 3 is visited at row 0 as well. */
  lemma AsWrittenCounterexample()
    ensures Offset(5, 1, 2) == 2.5
    ensures DiagYAsWritten(2.5, 3) == 0 && DiagY(2.5, 3) == -1
  {
  }

  /** `img[y][x]` exists. */
  predicate Inside(img: seq<seq<int>>, x: int, y: int)
  {
    0 <= y < |img| && 0 <= x < |img[y]|
  }

  /** The cell exists and is darker than the threshold. */
  predicate DarkAt(img: seq<seq<int>>, thr: int, x: int, y: int)
  {
    Inside(img, x, y) && img[y][x] < thr
  }

  /** The first column of the anti-diagonal `x + y == f` in an image `h` rows tall. */
  function DiagLo(f: int, h: int): int
  {
    Max(0, f - h + 1)
  }

  /** The number of cells of the anti-diagonal `x + y == f` in a `w` by `h` image. */
  function DiagLen(f: int, w: int, h: int): nat
  {
    var n := Min(w - 1, f) - DiagLo(f, h) + 1;
    if n < 0 then 0 else n
  }

  /** The `j`-th cell of the anti-diagonal `x + y == f` whose first column is `lo`. */
  function Cell(f: int, lo: int, j: int): Pixel
  {
    Pixel(lo + j, f - lo - j)
  }

  /** The cells of the diagonal inside the image are exactly the columns
      `DiagLo .. DiagLo + DiagLen - 1`. */
  lemma OnDiagonal(img: seq<seq<int>>, f: int, x: int)
    requires IsGrayField(img)
    ensures Inside(img, x, f - x) <==>
      DiagLo(f, |img|) <= x < DiagLo(f, |img|) + DiagLen(f, Width(img), |img|)
  {
  }

  /** The flag of an in-image cell of the diagonal is its ink test. */
  lemma MaskAt(img: seq<seq<int>>, f: int, thr: int, x: int)
    requires IsGrayField(img) && Inside(img, x, f - x)
    ensures 0 <= x - DiagLo(f, |img|) < |DiagMask(img, f, thr)|
    ensures DiagMask(img, f, thr)[x - DiagLo(f, |img|)] <==> img[f - x][x] < thr
  {
    OnDiagonal(img, f, x);
    var lo := DiagLo(f, |img|);
    assert DiagMask(img, f, thr)[x - lo] == DarkAt(img, thr, lo + (x - lo), f - lo - (x - lo));
  }

  /** The ink flags along the diagonal `x + y == f`, one per cell inside the image. */
  function DiagMask(img: seq<seq<int>>, f: int, thr: int): (m: seq<bool>)
    requires IsGrayField(img)
    ensures |m| == DiagLen(f, Width(img), |img|)
  {
    var lo, n := DiagLo(f, |img|), DiagLen(f, Width(img), |img|);
    seq(n, j requires 0 <= j < n => DarkAt(img, thr, lo + j, f - lo - j))
  }

  function RunSegment(f: int, lo: int, sp: Span): PxSegment
  {
    PxSegment(Cell(f, lo, sp.lo), Cell(f, lo, sp.hi))
  }

  /** The segments of the runs that hold at least two cells, in run order. */
  function LongRuns(f: int, lo: int, sps: seq<Span>): seq<PxSegment>
  {
    if |sps| == 0 then []
    else
      var sp := sps[|sps| - 1];
      LongRuns(f, lo, sps[..|sps| - 1]) + (if sp.lo < sp.hi then [RunSegment(f, lo, sp)] else [])
  }

  /** Reference definition of one offset's output: the maximal dark runs of
      its diagonal, walked left to right, without the single-cell ones. */
  function OffsetSegments(img: seq<seq<int>>, f: int, thr: int): seq<PxSegment>
    requires IsGrayField(img)
  {
    LongRuns(f, DiagLo(f, |img|), RunsFrom(DiagMask(img, f, thr), 0))
  }

  lemma LongRunsAppend(f: int, lo: int, sps: seq<Span>, sp: Span)
    ensures LongRuns(f, lo, sps + [sp]) ==
      LongRuns(f, lo, sps) + (if sp.lo < sp.hi then [RunSegment(f, lo, sp)] else [])
  {
    assert (sps + [sp])[..|sps|] == sps;
  }

  /** Every flag in `[lo, hi)` is set. */
  predicate AllSet(m: seq<bool>, lo: int, hi: int)
  {
    forall j :: lo <= j < hi ==> 0 <= j < |m| && m[j]
  }

  /** The state of the walk after the first `i` cells of the diagonal: `done`
      holds the runs closed so far and `segs` their segments; the pending
      points `pts`, when there are any, are the cells `s .. i - 1` of the run
      still open. */
  ghost predicate Walked(m: seq<bool>, f: int, lo: int, i: nat, s: nat,
                         pts: seq<Pixel>, done: seq<Span>, segs: seq<PxSegment>)
  {
    && s <= i <= |m|
    && (|pts| > 0 ==>
          && |pts| == i - s && pts[0] == Cell(f, lo, s) && pts[|pts| - 1] == Cell(f, lo, i - 1)
          && AllSet(m, s, i)
          && RunsFrom(m, 0) == done + RunsFrom(m, s))
    && (|pts| == 0 ==> RunsFrom(m, 0) == done + RunsFrom(m, i))
    && segs == LongRuns(f, lo, done)
  }

  /** The segment the script makes of the pending points: first to last, if
      there are at least two of them. */
  function Flush(pts: seq<Pixel>): seq<PxSegment>
  {
    if |pts| > 1 then [PxSegment(pts[0], pts[|pts| - 1])] else []
  }

  /** A dark cell joins the pending points, opening a run if none was open. */
  lemma WalkDark(m: seq<bool>, f: int, lo: int, i: nat, s: nat,
                 pts: seq<Pixel>, done: seq<Span>, segs: seq<PxSegment>)
    requires Walked(m, f, lo, i, s, pts, done, segs) && i < |m| && m[i]
    ensures Walked(m, f, lo, i + 1, if |pts| == 0 then i else s, pts + [Cell(f, lo, i)], done, segs)
  {
  }

  /** A light cell closes the open run, if any, and clears the pending points. */
  lemma WalkLight(m: seq<bool>, f: int, lo: int, i: nat, s: nat,
                  pts: seq<Pixel>, done: seq<Span>, segs: seq<PxSegment>)
    requires Walked(m, f, lo, i, s, pts, done, segs) && i < |m| && !m[i]
    ensures Walked(m, f, lo, i + 1, s, [], if |pts| > 0 then done + [Span(s, i - 1)] else done,
                   segs + Flush(pts))
  {
    var done' := done;
    if |pts| > 0 {
      ScanClose(m, done, s, i - 1);
      LongRunsAppend(f, lo, done, Span(s, i - 1));
      done' := done + [Span(s, i - 1)];
    }
    ScanSkip(m, done', i);
  }

  /** At the end of the diagonal the open run is closed and every run has been seen. */
  lemma WalkEnd(m: seq<bool>, f: int, lo: int, s: nat,
                pts: seq<Pixel>, done: seq<Span>, segs: seq<PxSegment>)
    requires Walked(m, f, lo, |m|, s, pts, done, segs)
    ensures segs + Flush(pts) == LongRuns(f, lo, RunsFrom(m, 0))
  {
    assert RunsFrom(m, |m|) == [];
    if |pts| > 0 {
      ScanClose(m, done, s, |m| - 1);
      LongRunsAppend(f, lo, done, Span(s, |m| - 1));
      assert RunsFrom(m, 0) == done + [Span(s, |m| - 1)];
    } else {
      assert RunsFrom(m, 0) == done;
    }
  }

  /** One offset: the pending point list starts empty, collects the dark cells
      of the current run, and on a light cell or at the end of the walk the run
      becomes a segment from its first to its last point if it holds two or more. */
  method OffsetLines(img: seq<seq<int>>, offset: real, thr: int) returns (segs: seq<PxSegment>)
    requires IsGrayField(img) && offset >= 0.0
    ensures segs == OffsetSegments(img, offset.Floor, thr)
  {
    var width := Width(img);
    ghost var f := offset.Floor;
    ghost var lo := DiagLo(f, |img|);
    ghost var m := DiagMask(img, f, thr);
    ghost var done: seq<Span> := [];
    ghost var i: nat := 0;
    ghost var s: nat := 0;
    segs := [];
    var pts: seq<Pixel> := [];
    var x := 0;
    while x < width
      invariant 0 <= x <= width && i <= |m|
      invariant x <= lo ==> i == 0
      invariant lo <= x ==> i == Min(x - lo, |m|)
      invariant Walked(m, f, lo, i, s, pts, done, segs)
    {
      pts, segs, i, s, done := WalkColumn(img, offset, thr, x, pts, segs, i, s, done);
      x := x + 1;
    }
    WalkEnd(m, f, lo, s, pts, done, segs);
    if |pts| > 1 {
      segs := segs + [PxSegment(pts[0], pts[|pts| - 1])];
    }
  }

  /** One column of the walk: `y = floor(offset) - x`; a cell inside the image
      joins the pending points when dark, and otherwise flushes them. */
  method WalkColumn(img: seq<seq<int>>, offset: real, thr: int, x: int, pts: seq<Pixel>, segs: seq<PxSegment>,
                    ghost i: nat, ghost s: nat, ghost done: seq<Span>)
    returns (pts': seq<Pixel>, segs': seq<PxSegment>, ghost i': nat, ghost s': nat, ghost done': seq<Span>)
    requires IsGrayField(img) && offset >= 0.0 && 0 <= x < Width(img)
    requires var lo, n := DiagLo(offset.Floor, |img|), DiagLen(offset.Floor, Width(img), |img|);
      && i <= n && (x <= lo ==> i == 0) && (lo <= x ==> i == Min(x - lo, n))
    requires Walked(DiagMask(img, offset.Floor, thr), offset.Floor, DiagLo(offset.Floor, |img|), i, s, pts, done, segs)
    ensures var lo, n := DiagLo(offset.Floor, |img|), DiagLen(offset.Floor, Width(img), |img|);
      && i' <= n && (x + 1 <= lo ==> i' == 0) && (lo <= x + 1 ==> i' == Min(x + 1 - lo, n))
    ensures Walked(DiagMask(img, offset.Floor, thr), offset.Floor, DiagLo(offset.Floor, |img|), i', s', pts', done', segs')
  {
    ghost var f := offset.Floor;
    ghost var lo := DiagLo(f, |img|);
    ghost var m := DiagMask(img, f, thr);
    pts', segs', i', s', done' := pts, segs, i, s, done;
    var y := DiagY(offset, x);
    OnDiagonal(img, f, x);
    if 0 <= y < |img| {
      MaskAt(img, f, thr, x);
      assert i == x - lo && Cell(f, lo, i) == Pixel(x, y);
      if img[y][x] < thr {
        WalkDark(m, f, lo, i, s, pts, done, segs);
        if |pts| == 0 {
          s' := i;
        }
        pts' := pts + [Pixel(x, y)];
      } else {
        WalkLight(m, f, lo, i, s, pts, done, segs);
        if |pts| > 0 {
          done' := done + [Span(s, i - 1)];
        }
        if |pts| > 1 {
          segs' := segs + [PxSegment(pts[0], pts[|pts| - 1])];
        }
        pts' := [];
      }
      i' := i + 1;
    }
  }

  /** Reference definition of a family: the offsets `k * spacing, (k + 1) * spacing, ...`
      below `width + height`, in order. */
  function HatchFrom(img: seq<seq<int>>, num: nat, den: nat, thr: int, k: nat): seq<PxSegment>
    requires IsGrayField(img) && num >= 1 && den >= 1
    decreases (Width(img) + |img|) * den - k * num
  {
    if k * num >= (Width(img) + |img|) * den then []
    else
      NextOffset(k, num);
      OffsetSegments(img, Offset(k, num, den).Floor, thr) + HatchFrom(img, num, den, thr, k + 1)
  }

  lemma NextOffset(k: nat, num: nat)
    ensures (k + 1) * num == k * num + num
  {
  }

  lemma HatchFromStep(img: seq<seq<int>>, num: nat, den: nat, thr: int, k: nat)
    requires IsGrayField(img) && num >= 1 && den >= 1
    requires k * num < (Width(img) + |img|) * den
    ensures HatchFrom(img, num, den, thr, k) ==
      OffsetSegments(img, Offset(k, num, den).Floor, thr) + HatchFrom(img, num, den, thr, k + 1)
  {
  }

  /** `generate_hatch_lines` with spacing `num / den` and threshold `thr`. */
  method HatchLines(img: seq<seq<int>>, num: nat, den: nat, thr: int) returns (lines: seq<PxSegment>)
    requires IsGrayField(img) && num >= 1 && den >= 1
    ensures lines == HatchFrom(img, num, den, thr, 0)
  {
    var maxOffset := Width(img) + |img|;
    var bound := maxOffset * den;
    lines := [];
    var k: nat := 0;
    var kNum := 0;
    while kNum < bound
      invariant kNum == k * num
      invariant lines + HatchFrom(img, num, den, thr, k) == HatchFrom(img, num, den, thr, 0)
      decreases bound - kNum
    {
      var segs := OffsetLines(img, Offset(k, num, den), thr);
      HatchFromStep(img, num, den, thr, k);
      lines := lines + segs;
      NextOffset(k, num);
      k := k + 1;
      kNum := kNum + num;
    }
  }

  /** Each segment of a run list comes from one of its runs of two or more cells. */
  lemma {:induction false} LongRunsMember(f: int, lo: int, sps: seq<Span>, t: PxSegment) returns (k: nat)
    requires t in LongRuns(f, lo, sps)
    ensures k < |sps| && sps[k].lo < sps[k].hi && t == RunSegment(f, lo, sps[k])
    decreases |sps|
  {
    var last := |sps| - 1;
    if t in LongRuns(f, lo, sps[..last]) {
      k := LongRunsMember(f, lo, sps[..last], t);
    } else {
      k := last;
    }
  }

  /** Each run of two or more cells contributes its segment. */
  lemma {:induction false} LongRunsInclude(f: int, lo: int, sps: seq<Span>, k: nat)
    requires k < |sps| && sps[k].lo < sps[k].hi
    ensures RunSegment(f, lo, sps[k]) in LongRuns(f, lo, sps)
    decreases |sps|
  {
    var last := |sps| - 1;
    if k < last {
      LongRunsInclude(f, lo, sps[..last], k);
    }
  }

  /** The cells `(x, f - x)` for `a <= x <= b` are all inside the image and
      darker than the threshold, and the diagonal leaves the image or turns
      light just before `a` and just after `b`. */
  predicate IsDiagonalRun(img: seq<seq<int>>, thr: int, f: int, a: int, b: int)
  {
    && a <= b
    && (forall x :: a <= x <= b ==> DiagDark(img, thr, f, x))
    && !DiagDark(img, thr, f, a - 1)
    && !DiagDark(img, thr, f, b + 1)
  }

  /** The cell of column `x` on the diagonal `x + y == f` is in the image and dark. */
  predicate DiagDark(img: seq<seq<int>>, thr: int, f: int, x: int)
  {
    DarkAt(img, thr, x, f - x)
  }

  /** Runs of the diagonal's flags are runs of dark cells along the diagonal. */
  lemma MaskRunIsDiagonalRun(img: seq<seq<int>>, f: int, thr: int, sp: Span)
    requires IsGrayField(img)
    ensures IsMaximalRun(DiagMask(img, f, thr), sp) <==>
      IsDiagonalRun(img, thr, f, DiagLo(f, |img|) + sp.lo, DiagLo(f, |img|) + sp.hi)
  {
    if IsMaximalRun(DiagMask(img, f, thr), sp) {
      MaskRunToDiagonal(img, f, thr, sp);
    }
    if IsDiagonalRun(img, thr, f, DiagLo(f, |img|) + sp.lo, DiagLo(f, |img|) + sp.hi) {
      DiagonalToMaskRun(img, f, thr, sp);
    }
  }

  lemma MaskRunToDiagonal(img: seq<seq<int>>, f: int, thr: int, sp: Span)
    requires IsGrayField(img) && IsMaximalRun(DiagMask(img, f, thr), sp)
    ensures IsDiagonalRun(img, thr, f, DiagLo(f, |img|) + sp.lo, DiagLo(f, |img|) + sp.hi)
  {
    var m, lo := DiagMask(img, f, thr), DiagLo(f, |img|);
    var a, b := lo + sp.lo, lo + sp.hi;
    OnDiagonal(img, f, a - 1);
    OnDiagonal(img, f, b + 1);
    if sp.lo > 0 {
      MaskAt(img, f, thr, a - 1);
    }
    if sp.hi < |m| - 1 {
      MaskAt(img, f, thr, b + 1);
    }
    forall x | a <= x <= b
      ensures DiagDark(img, thr, f, x)
    {
      OnDiagonal(img, f, x);
      MaskAt(img, f, thr, x);
    }
  }

  lemma DiagonalToMaskRun(img: seq<seq<int>>, f: int, thr: int, sp: Span)
    requires IsGrayField(img)
    requires IsDiagonalRun(img, thr, f, DiagLo(f, |img|) + sp.lo, DiagLo(f, |img|) + sp.hi)
    ensures IsMaximalRun(DiagMask(img, f, thr), sp)
  {
    var m, lo := DiagMask(img, f, thr), DiagLo(f, |img|);
    var a, b := lo + sp.lo, lo + sp.hi;
    assert DiagDark(img, thr, f, b);
    OnDiagonal(img, f, b);
    OnDiagonal(img, f, a - 1);
    OnDiagonal(img, f, b + 1);
    if sp.lo > 0 {
      MaskAt(img, f, thr, a - 1);
    }
    if sp.hi < |m| - 1 {
      MaskAt(img, f, thr, b + 1);
    }
    forall j | sp.lo <= j <= sp.hi
      ensures m[j]
    {
      assert DiagDark(img, thr, f, lo + j);
      OnDiagonal(img, f, lo + j);
      MaskAt(img, f, thr, lo + j);
    }
  }

  /** A segment of one offset joins two cells of its diagonal, left to right,
      and spans a maximal run of dark cells along it. */
  lemma OffsetSegmentIsRun(img: seq<seq<int>>, f: int, thr: int, t: PxSegment)
    requires IsGrayField(img) && t in OffsetSegments(img, f, thr)
    ensures t.start.x < t.end.x && t.start.x + t.start.y == f && t.end.x + t.end.y == f
    ensures IsDiagonalRun(img, thr, f, t.start.x, t.end.x)
  {
    var m, lo := DiagMask(img, f, thr), DiagLo(f, |img|);
    var k := LongRunsMember(f, lo, RunsFrom(m, 0), t);
    var sp := RunsFrom(m, 0)[k];
    Runs.Runs(m, sp);
    MaskRunIsDiagonalRun(img, f, thr, sp);
  }

  /** Every maximal run of two or more dark cells along the diagonal is a segment of its offset. */
  lemma DiagonalRunIsOffsetSegment(img: seq<seq<int>>, f: int, thr: int, t: PxSegment)
    requires IsGrayField(img)
    requires t.start.x < t.end.x && t.start.x + t.start.y == f && t.end.x + t.end.y == f
    requires IsDiagonalRun(img, thr, f, t.start.x, t.end.x)
    ensures t in OffsetSegments(img, f, thr)
  {
    var m, lo := DiagMask(img, f, thr), DiagLo(f, |img|);
    assert DiagDark(img, thr, f, t.start.x);
    OnDiagonal(img, f, t.start.x);
    var sp := Span(t.start.x - lo, t.end.x - lo);
    MaskRunIsDiagonalRun(img, f, thr, sp);
    Runs.Runs(m, sp);
    var k :| 0 <= k < |RunsFrom(m, 0)| && RunsFrom(m, 0)[k] == sp;
    LongRunsInclude(f, lo, RunsFrom(m, 0), k);
  }

  /** Each segment of the family from offset index `k0` on comes from one offset `k >= k0`. */
  lemma {:induction false} HatchFromMember(img: seq<seq<int>>, num: nat, den: nat, thr: int, k0: nat, t: PxSegment)
    returns (k: nat)
    requires IsGrayField(img) && num >= 1 && den >= 1
    requires t in HatchFrom(img, num, den, thr, k0)
    ensures k0 <= k && k * num < (Width(img) + |img|) * den
    ensures t in OffsetSegments(img, Offset(k, num, den).Floor, thr)
    decreases (Width(img) + |img|) * den - k0 * num
  {
    HatchFromStep(img, num, den, thr, k0);
    if t in OffsetSegments(img, Offset(k0, num, den).Floor, thr) {
      k := k0;
    } else {
      NextOffset(k0, num);
      k := HatchFromMember(img, num, den, thr, k0 + 1, t);
    }
  }

  /** Every offset `k >= k0` below the bound contributes its segments to the family from `k0`. */
  lemma {:induction false} HatchFromInclude(img: seq<seq<int>>, num: nat, den: nat, thr: int, k0: nat, k: nat, t: PxSegment)
    requires IsGrayField(img) && num >= 1 && den >= 1
    requires k0 <= k && k * num < (Width(img) + |img|) * den
    requires t in OffsetSegments(img, Offset(k, num, den).Floor, thr)
    ensures t in HatchFrom(img, num, den, thr, k0)
    decreases k - k0
  {
    MonotoneOffset(k0, k, num);
    HatchFromStep(img, num, den, thr, k0);
    if k0 < k {
      HatchFromInclude(img, num, den, thr, k0 + 1, k, t);
    }
  }

  lemma MonotoneOffset(k0: nat, k: nat, num: nat)
    requires k0 <= k
    ensures k0 * num <= k * num
  {
  }

  /** Every hatch segment lies on the diagonal `x + y == floor(k * spacing)` of
      an offset `k * spacing < width + height`, runs left to right over at
      least two cells, and spans a maximal run of in-image cells darker than
      the threshold; with a whole-number spacing it lies on `x + y == offset`. */
  lemma HatchSegmentIsDiagonalRun(img: seq<seq<int>>, num: nat, den: nat, thr: int, t: PxSegment)
    returns (k: nat)
    requires IsGrayField(img) && num >= 1 && den >= 1
    requires t in HatchFrom(img, num, den, thr, 0)
    ensures Offset(k, num, den) < (Width(img) + |img|) as real
    ensures var f := Offset(k, num, den).Floor;
      && t.start.x < t.end.x && t.start.x + t.start.y == f && t.end.x + t.end.y == f
      && IsDiagonalRun(img, thr, f, t.start.x, t.end.x)
    ensures den == 1 ==> (t.start.x + t.start.y) as real == Offset(k, num, den)
  {
    k := HatchFromMember(img, num, den, thr, 0, t);
    OffsetBelow(k, num, den, Width(img) + |img|);
    OffsetSegmentIsRun(img, Offset(k, num, den).Floor, thr, t);
  }

  /** Conversely, every maximal dark run of two or more cells on the diagonal of
      an offset below `width + height` is drawn. */
  lemma DiagonalRunIsHatchSegment(img: seq<seq<int>>, num: nat, den: nat, thr: int, k: nat, t: PxSegment)
    requires IsGrayField(img) && num >= 1 && den >= 1
    requires Offset(k, num, den) < (Width(img) + |img|) as real
    requires var f := Offset(k, num, den).Floor;
      && t.start.x < t.end.x && t.start.x + t.start.y == f && t.end.x + t.end.y == f
      && IsDiagonalRun(img, thr, f, t.start.x, t.end.x)
    ensures t in HatchFrom(img, num, den, thr, 0)
  {
    OffsetBelow(k, num, den, Width(img) + |img|);
    DiagonalRunIsOffsetSegment(img, Offset(k, num, den).Floor, thr, t);
    HatchFromInclude(img, num, den, thr, 0, k, t);
  }

  // ---------------------------------------------------------------------
  // The walk of one offset as the script writes it.

  /** The column walk of ImageToGCode.py for one offset, with the row
      `int(offset - x)` of the script: columns `x ..` of the image, pending
      points `pts`. Every segment it draws joins two of the pending points or
      dark pixels of the image, whatever row the truncation picked. */
  function WalkAsWritten(img: seq<seq<int>>, o: real, thr: int, x: nat, pts: seq<Pixel>): (r: seq<PxSegment>)
    requires IsGrayField(img)
    ensures forall t :: t in r ==>
      && (t.start in pts || DarkAt(img, thr, t.start.x, t.start.y))
      && (t.end in pts || DarkAt(img, thr, t.end.x, t.end.y))
    decreases Width(img) - x
  {
    if x >= Width(img) then Flush(pts)
    else
      var y := DiagYAsWritten(o, x);
      if 0 <= y < |img| && img[y][x] < thr then WalkAsWritten(img, o, thr, x + 1, pts + [Pixel(x, y)])
      else if 0 <= y < |img| then Flush(pts) + WalkAsWritten(img, o, thr, x + 1, [])
      else WalkAsWritten(img, o, thr, x + 1, pts)
  }

  /** An all-black image 4 wide and 3 tall, threshold 64, offset 2.5: the
      script's walk visits column 3 at row 0 and stretches the diagonal's one
      segment `(0, 2) -> (2, 0)` into `(0, 2) -> (3, 0)`, which is not on a
      diagonal; the corrected walk yields the diagonal segment. */
  lemma AsWrittenLongerSegment()
    ensures var img := [[0, 0, 0, 0], [0, 0, 0, 0], [0, 0, 0, 0]];
      && WalkAsWritten(img, 2.5, 64, 0, []) == [PxSegment(Pixel(0, 2), Pixel(3, 0))]
      && OffsetSegments(img, 2.5.Floor, 64) == [PxSegment(Pixel(0, 2), Pixel(2, 0))]
  {
    assert 2.5.Floor == 2;
    AsWrittenWalk();
    CorrectedWalk();
  }

  /** The walk as written on the all-dark 3x4 field at offset 2.5. */
  lemma AsWrittenWalk()
    ensures WalkAsWritten([[0, 0, 0, 0], [0, 0, 0, 0], [0, 0, 0, 0]], 2.5, 64, 0, [])
      == [PxSegment(Pixel(0, 2), Pixel(3, 0))]
  {
    var img := [[0, 0, 0, 0], [0, 0, 0, 0], [0, 0, 0, 0]];
    var pts := [Pixel(0, 2), Pixel(1, 1), Pixel(2, 0), Pixel(3, 0)];
    assert DiagYAsWritten(2.5, 3) == 0;
    assert WalkAsWritten(img, 2.5, 64, 4, pts) == [PxSegment(Pixel(0, 2), Pixel(3, 0))];
    assert WalkAsWritten(img, 2.5, 64, 3, pts[..3]) == WalkAsWritten(img, 2.5, 64, 4, pts);
    assert WalkAsWritten(img, 2.5, 64, 2, pts[..2]) == WalkAsWritten(img, 2.5, 64, 3, pts[..3]);
    assert WalkAsWritten(img, 2.5, 64, 1, pts[..1]) == WalkAsWritten(img, 2.5, 64, 2, pts[..2]);
    assert WalkAsWritten(img, 2.5, 64, 0, []) == WalkAsWritten(img, 2.5, 64, 1, pts[..1]);
  }

  /** The corrected walk on the same field stops at the image's top edge. */
  lemma CorrectedWalk()
    ensures OffsetSegments([[0, 0, 0, 0], [0, 0, 0, 0], [0, 0, 0, 0]], 2, 64)
      == [PxSegment(Pixel(0, 2), Pixel(2, 0))]
  {
    var img := [[0, 0, 0, 0], [0, 0, 0, 0], [0, 0, 0, 0]];
    assert IsGrayField(img);
    var m := DiagMask(img, 2, 64);
    assert DiagLo(2, 3) == 0 && DiagLen(2, 4, 3) == 3;
    assert |m| == 3;
    assert m[0] == DarkAt(img, 64, 0, 2) && m[1] == DarkAt(img, 64, 1, 1) && m[2] == DarkAt(img, 64, 2, 0);
    assert m == [true, true, true];
    assert RunEnd(m, 0) == 2;
    assert RunsFrom(m, 3) == [];
    assert RunsFrom(m, 0) == [Span(0, 2)];
    assert LongRuns(2, 0, [Span(0, 2)]) == [RunSegment(2, 0, Span(0, 2))];
  }
}
