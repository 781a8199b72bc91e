/** The run-merging primitive shared by the scanline fill and the diagonal
    hatch: a scan over a sequence of ink/no-ink flags is cut into its
    maximal runs of ink. */
module Runs {

  /** The closed index interval `[lo, hi]` of a run. */
  datatype Span = Span(lo: nat, hi: nat)

  /** `sp` is a maximal run of `true` in `m`: every flag in it is set and it
      cannot be extended by one position on either side. */
  predicate IsMaximalRun(m: seq<bool>, sp: Span)
  {
    && sp.lo <= sp.hi < |m|
    && (forall j :: sp.lo <= j <= sp.hi ==> m[j])
    && (sp.lo == 0 || !m[sp.lo - 1])
    && (sp.hi == |m| - 1 || !m[sp.hi + 1])
  }

  /** The last index of the run of `true` that contains `i`, scanning right. */
  function RunEnd(m: seq<bool>, i: nat): (e: nat)
    requires i < |m| && m[i]
    ensures i <= e < |m|
    ensures forall j :: i <= j <= e ==> m[j]
    ensures e == |m| - 1 || !m[e + 1]
    decreases |m| - i
  {
    if i + 1 < |m| && m[i + 1] then RunEnd(m, i + 1) else i
  }

  /** The maximal runs of `m` that start at or after `i`, left to right
      (reference definition: skip ink-free positions, then take the
      whole run found). */
  function RunsFrom(m: seq<bool>, i: nat): seq<Span>
    decreases |m| - i
  {
    if i >= |m| then []
    else if !m[i] then RunsFrom(m, i + 1)
    else
      var e := RunEnd(m, i);
      [Span(i, e)] + RunsFrom(m, e + 1)
  }

  /** The runs found lie at or after `i`, start on a set flag, and come
      strictly left to right with at least one clear flag between two runs. */
  predicate OrderedRuns(m: seq<bool>, r: seq<Span>, i: nat)
  {
    && (forall k :: 0 <= k < |r| ==> i <= r[k].lo <= r[k].hi < |m| && m[r[k].lo])
    && (forall j, k :: 0 <= j < k < |r| ==> r[j].hi + 1 < r[k].lo)
  }

  lemma {:induction false} RunsFromOrdered(m: seq<bool>, i: nat)
    ensures OrderedRuns(m, RunsFrom(m, i), i)
    decreases |m| - i
  {
    if i < |m| {
      if !m[i] {
        RunsFromOrdered(m, i + 1);
        assert RunsFrom(m, i) == RunsFrom(m, i + 1);
        OrderedRunsWeaken(m, RunsFrom(m, i + 1), i + 1, i);
      } else {
        var e := RunEnd(m, i);
        RunsFromOrdered(m, e + 1);
        assert RunsFrom(m, i) == [Span(i, e)] + RunsFrom(m, e + 1);
        OrderedRunsCons(m, i, e, RunsFrom(m, e + 1));
      }
    }
  }

  lemma OrderedRunsWeaken(m: seq<bool>, r: seq<Span>, i: nat, i': nat)
    requires OrderedRuns(m, r, i) && i' <= i
    ensures OrderedRuns(m, r, i')
  {
  }

  /** Putting a run in front of ordered runs that start past its end keeps them ordered. */
  lemma OrderedRunsCons(m: seq<bool>, i: nat, e: nat, rest: seq<Span>)
    requires i <= e < |m| && m[i]
    requires e == |m| - 1 || !m[e + 1]
    requires OrderedRuns(m, rest, e + 1)
    ensures OrderedRuns(m, [Span(i, e)] + rest, i)
  {
    var r := [Span(i, e)] + rest;
    forall k | 0 < k < |r|
      ensures r[k] == rest[k - 1] && e + 1 < r[k].lo
    {
      assert m[rest[k - 1].lo];
    }
  }

  /** A clear flag is skipped. */
  lemma RunsFromSkip(m: seq<bool>, i: nat)
    requires i < |m| && !m[i]
    ensures RunsFrom(m, i) == RunsFrom(m, i + 1)
  {
  }

  /** A run that is known to span `[s, e]` is the first run found from `s`. */
  lemma RunsFromClose(m: seq<bool>, s: nat, e: nat)
    requires s <= e < |m|
    requires forall j :: s <= j <= e ==> m[j]
    requires e == |m| - 1 || !m[e + 1]
    ensures RunsFrom(m, s) == [Span(s, e)] + RunsFrom(m, e + 1)
  {
    RunEndAt(m, s, e);
  }

  /** A scan that has emitted `done` and stands at a clear flag moves past it. */
  lemma ScanSkip(m: seq<bool>, done: seq<Span>, i: nat)
    requires i < |m| && !m[i]
    requires RunsFrom(m, 0) == done + RunsFrom(m, i)
    ensures RunsFrom(m, 0) == done + RunsFrom(m, i + 1)
  {
    RunsFromSkip(m, i);
  }

  /** A scan that has emitted `done` and holds an open run `[s, e]` that cannot
      grow emits it and moves past it. */
  lemma ScanClose(m: seq<bool>, done: seq<Span>, s: nat, e: nat)
    requires s <= e < |m|
    requires forall j :: s <= j <= e ==> m[j]
    requires e == |m| - 1 || !m[e + 1]
    requires RunsFrom(m, 0) == done + RunsFrom(m, s)
    ensures RunsFrom(m, 0) == (done + [Span(s, e)]) + RunsFrom(m, e + 1)
  {
    RunsFromClose(m, s, e);
  }

  /** The state of a left-to-right scan with an `inside` flag after the first
      `x` flags: the runs closed so far are `done`, and when a run is open it
      started at `start` and every flag since is set. */
  ghost predicate Scanned(m: seq<bool>, x: nat, inside: bool, start: nat, done: seq<Span>)
  {
    && x <= |m|
    && (inside ==> start < x && (forall j :: start <= j < x ==> m[j]) && RunsFrom(m, 0) == done + RunsFrom(m, start))
    && (!inside ==> RunsFrom(m, 0) == done + RunsFrom(m, x))
  }

  /** A set flag opens a run when none is open, and extends the open one otherwise. */
  lemma ScanSet(m: seq<bool>, x: nat, inside: bool, start: nat, done: seq<Span>)
    requires Scanned(m, x, inside, start, done) && x < |m| && m[x]
    ensures Scanned(m, x + 1, true, if inside then start else x, done)
  {
  }

  /** A clear flag closes the open run, if any, at the flag before it. */
  lemma ScanClear(m: seq<bool>, x: nat, inside: bool, start: nat, done: seq<Span>)
    requires Scanned(m, x, inside, start, done) && x < |m| && !m[x]
    ensures Scanned(m, x + 1, false, start, if inside then done + [Span(start, x - 1)] else done)
  {
    if inside {
      ScanClose(m, done, start, x - 1);
      ScanSkip(m, done + [Span(start, x - 1)], x);
    } else {
      ScanSkip(m, done, x);
    }
  }

  /** At the end, closing a run still open at the last flag gives every run. */
  lemma ScanFinish(m: seq<bool>, inside: bool, start: nat, done: seq<Span>)
    requires Scanned(m, |m|, inside, start, done)
    ensures RunsFrom(m, 0) == if inside then done + [Span(start, |m| - 1)] else done
  {
    assert RunsFrom(m, |m|) == [];
    if inside {
      ScanClose(m, done, start, |m| - 1);
    }
  }

  /** A run that is known to stop at `e` is the one `RunEnd` finds. */
  lemma RunEndAt(m: seq<bool>, i: nat, e: nat)
    requires i <= e < |m|
    requires forall j :: i <= j <= e ==> m[j]
    requires e == |m| - 1 || !m[e + 1]
    ensures RunEnd(m, i) == e
  {
  }

  /** Scanning from a run boundary yields only maximal runs. */
  lemma {:induction false} RunsFromMaximal(m: seq<bool>, i: nat)
    requires i == 0 || i >= |m| || !m[i - 1]
    ensures forall sp :: sp in RunsFrom(m, i) ==> IsMaximalRun(m, sp)
    decreases |m| - i
  {
    if i < |m| {
      if !m[i] {
        RunsFromMaximal(m, i + 1);
      } else {
        var e := RunEnd(m, i);
        if e + 1 < |m| {
          assert RunsFrom(m, e + 1) == RunsFrom(m, e + 2);
          RunsFromMaximal(m, e + 2);
        }
      }
    }
  }

  /** Every set flag at or after a run boundary lies inside one of the runs found. */
  lemma {:induction false} RunsFromCover(m: seq<bool>, i: nat, j: nat) returns (k: nat)
    requires i <= j < |m| && m[j]
    ensures k < |RunsFrom(m, i)| && RunsFrom(m, i)[k].lo <= j <= RunsFrom(m, i)[k].hi
    decreases |m| - i
  {
    if !m[i] {
      k := RunsFromCover(m, i + 1, j);
    } else {
      var e := RunEnd(m, i);
      if j <= e {
        k := 0;
      } else {
        var k' := RunsFromCover(m, e + 1, j);
        k := k' + 1;
      }
    }
  }

  /** Two maximal runs that share a position are the same run. */
  lemma MaximalRunsOverlap(m: seq<bool>, a: Span, b: Span, j: nat)
    requires IsMaximalRun(m, a) && IsMaximalRun(m, b)
    requires a.lo <= j <= a.hi && b.lo <= j <= b.hi
    ensures a == b
  {
  }

  /** The runs of a whole scan are exactly its maximal runs. */
  lemma Runs(m: seq<bool>, sp: Span)
    ensures sp in RunsFrom(m, 0) <==> IsMaximalRun(m, sp)
  {
    RunsFromMaximal(m, 0);
    if IsMaximalRun(m, sp) {
      var k := RunsFromCover(m, 0, sp.lo);
      MaximalRunsOverlap(m, sp, RunsFrom(m, 0)[k], sp.lo);
    }
  }
}
