/** The G-code stage shared by the three scripts: the command vocabulary,
    the pen-plotter reading of a command stream, and the two emitters.  The
    scripts write text lines; here every line is one `Command` value and the
    output file is the sequence of them, in order. */
module GCode {
  import opened Geometry

  /** One output line.  `SizeComment` stands for the `; Image size ...`
      comment line whose text is not modelled. */
  datatype Command =
    | SizeComment
    | Units                       // G21: millimetres
    | Absolute                    // G90: absolute positioning
    | Rapid(to: Point)            // G0 X.. Y..
    | PenDown(code: string)
    | Draw(to: Point, feed: int)  // G1 X.. Y.. F..
    | PenUp(code: string)

  /** The pen commands and feed rate a script writes. */
  datatype PenConfig = PenConfig(penDown: string, penUp: string, feed: int)

  datatype Option<T> = None | Some(value: T)

  // ---------------------------------------------------------------------
  // What a plotter draws when it runs a command stream.

  /** The plotter's state: where the pen is, and whether it touches the paper. */
  datatype Pen = Pen(pos: Point, down: bool)

  /** The state after a run of commands and the segments drawn on the way. */
  datatype Trace = Trace(pen: Pen, drawn: seq<Segment>)

  /** One command: a move (rapid or feed) with the pen down draws a segment
      from the old to the new position; pen commands only lift or lower the
      pen; header lines change nothing. */
  function Exec(c: Command, st: Pen): Trace
  {
    match c
    case Rapid(p) => Trace(Pen(p, st.down), if st.down then [Segment(st.pos, p)] else [])
    case Draw(p, _) => Trace(Pen(p, st.down), if st.down then [Segment(st.pos, p)] else [])
    case PenDown(_) => Trace(Pen(st.pos, true), [])
    case PenUp(_) => Trace(Pen(st.pos, false), [])
    case _ => Trace(st, [])
  }

  /** Running a command stream from a given state. */
  function Plot(cmds: seq<Command>, st: Pen): Trace
  {
    if |cmds| == 0 then Trace(st, [])
    else
      var t := Exec(cmds[0], st);
      var rest := Plot(cmds[1..], t.pen);
      Trace(rest.pen, t.drawn + rest.drawn)
  }

  /** Running two streams one after the other is running their concatenation. */
  lemma {:induction false} PlotAppend(a: seq<Command>, b: seq<Command>, st: Pen)
    ensures Plot(a + b, st).pen == Plot(b, Plot(a, st).pen).pen
    ensures Plot(a + b, st).drawn == Plot(a, st).drawn + Plot(b, Plot(a, st).pen).drawn
  {
    if |a| > 0 {
      assert (a + b)[0] == a[0];
      assert (a + b)[1..] == a[1..] + b;
      PlotAppend(a[1..], b, Exec(a[0], st).pen);
    } else {
      assert a + b == b;
    }
  }

  // ---------------------------------------------------------------------
  // The plain emitter (InkscapeToGCode.py, ImageToGCode.py): four lines per segment.

  /** `G0` to the start, pen down, `G1` to the end, pen up. */
  function StrokeCommands(s: Segment, cfg: PenConfig): seq<Command>
  {
    [Rapid(s.start), PenDown(cfg.penDown), Draw(s.end, cfg.feed), PenUp(cfg.penUp)]
  }

  /** The commands for a list of segments, in list order. */
  function EmitAll(segs: seq<Segment>, cfg: PenConfig): seq<Command>
  {
    if |segs| == 0 then []
    else EmitAll(segs[..|segs| - 1], cfg) + StrokeCommands(segs[|segs| - 1], cfg)
  }

  /** Four commands per segment, and the four of segment `i` sit at `4 * i`. */
  lemma {:induction false} EmitAllLayout(segs: seq<Segment>, cfg: PenConfig)
    ensures |EmitAll(segs, cfg)| == 4 * |segs|
    ensures forall i :: 0 <= i < |segs| ==> EmitAll(segs, cfg)[4 * i..4 * i + 4] == StrokeCommands(segs[i], cfg)
  {
    if |segs| > 0 {
      var n := |segs| - 1;
      var front := EmitAll(segs[..n], cfg);
      EmitAllLayout(segs[..n], cfg);
      forall i | 0 <= i < |segs|
        ensures EmitAll(segs, cfg)[4 * i..4 * i + 4] == StrokeCommands(segs[i], cfg)
      {
        if i < n {
          assert segs[..n][i] == segs[i];
          assert EmitAll(segs, cfg)[4 * i..4 * i + 4] == front[4 * i..4 * i + 4];
        } else {
          assert EmitAll(segs, cfg)[4 * i..4 * i + 4] == StrokeCommands(segs[n], cfg);
        }
      }
    }
  }

  /** The commands of consecutive lists follow each other. */
  lemma {:induction false} EmitAllAppend(a: seq<Segment>, b: seq<Segment>, cfg: PenConfig)
    ensures EmitAll(a + b, cfg) == EmitAll(a, cfg) + EmitAll(b, cfg)
    decreases |b|
  {
    if |b| == 0 {
      assert a + b == a;
    } else {
      var n := |b| - 1;
      assert (a + b)[..|a + b| - 1] == a + b[..n];
      assert (a + b)[|a + b| - 1] == b[n];
      EmitAllAppend(a, b[..n], cfg);
    }
  }

  /** A stroke started with the pen up draws exactly its segment and ends
      with the pen up at the segment's end. */
  lemma StrokeDraws(s: Segment, cfg: PenConfig, st: Pen)
    requires !st.down
    ensures Plot(StrokeCommands(s, cfg), st) == Trace(Pen(s.end, false), [s])
  {
    var c := StrokeCommands(s, cfg);
    PenDownDraws(c[1..], s, cfg, s.start);
    assert Plot(c, st) == Trace(Pen(s.end, false), [] + [s]);
  }

  /** Lowering the pen at `p`, drawing to `s.end` and lifting it draws the
      segment from `p` and leaves the pen up at `s.end`. */
  lemma PenDownDraws(c: seq<Command>, s: Segment, cfg: PenConfig, p: Point)
    requires c == [PenDown(cfg.penDown), Draw(s.end, cfg.feed), PenUp(cfg.penUp)]
    ensures Plot(c, Pen(p, false)) == Trace(Pen(s.end, false), [Segment(p, s.end)])
  {
    var up := Pen(s.end, false);
    assert c[1..][1..] == [PenUp(cfg.penUp)];
    assert Plot(c[1..][1..], Pen(s.end, true)) == Trace(up, []);
    assert Plot(c[1..], Pen(p, true)) == Trace(up, [Segment(p, s.end)] + []);
    assert Plot(c, Pen(p, false)) == Trace(up, [] + [Segment(p, s.end)]);
  }

  /** What a plotter draws from the plain emitter's output is exactly the
      list of segments, in order, and the pen ends up lifted. */
  lemma {:induction false} EmitAllDraws(segs: seq<Segment>, cfg: PenConfig, st: Pen)
    requires !st.down
    ensures Plot(EmitAll(segs, cfg), st).drawn == segs
    ensures !Plot(EmitAll(segs, cfg), st).pen.down
  {
    if |segs| > 0 {
      var n := |segs| - 1;
      EmitAllDraws(segs[..n], cfg, st);
      var mid := Plot(EmitAll(segs[..n], cfg), st).pen;
      PlotAppend(EmitAll(segs[..n], cfg), StrokeCommands(segs[n], cfg), st);
      StrokeDraws(segs[n], cfg, mid);
      assert segs[..n] + [segs[n]] == segs;
    }
  }

  // ---------------------------------------------------------------------
  // The skipping emitter of ImageToGCode2.py.

  const SkipTinyMoveMm: real := 0.01

  function Abs(v: real): real { if v < 0.0 then -v else v }

  /** `round(v, 3)`, on exact reals: the nearest multiple of 0.001. */
  function Round3(v: real): (r: real)
    ensures v - 0.0005 <= r <= v + 0.0005
    ensures (r * 1000.0).Floor as real == r * 1000.0
  {
    RoundHalfEven(v * 1000.0) as real / 1000.0
  }

  /** The rounded position kept in `last_pos`. */
  function Rounded(p: Point): (real, real)
  {
    (Round3(p.x), Round3(p.y))
  }

  /** A segment whose x and y extents are both below 0.01 mm is skipped. */
  predicate Tiny(s: Segment)
    ensures s.start == s.end ==> Tiny(s)
    ensures Tiny(s) ==> Abs(s.end.x - s.start.x) + Abs(s.end.y - s.start.y) < 2.0 * SkipTinyMoveMm
  {
    Abs(s.end.x - s.start.x) < SkipTinyMoveMm && Abs(s.end.y - s.start.y) < SkipTinyMoveMm
  }

  /** Reference filter: the segments that are not tiny, in order. */
  function Kept(segs: seq<Segment>): seq<Segment>
  {
    if |segs| == 0 then []
    else if Tiny(segs[0]) then Kept(segs[1..])
    else [segs[0]] + Kept(segs[1..])
  }

  /** The kept segments are exactly the segments that are not tiny. */
  lemma {:induction false} KeptMember(segs: seq<Segment>, s: Segment)
    ensures s in Kept(segs) <==> s in segs && !Tiny(s)
  {
    if |segs| > 0 {
      KeptMember(segs[1..], s);
      assert segs == [segs[0]] + segs[1..];
    }
  }

  /** The commands for one kept segment: a `G0` only when the rounded start
      differs from `last_pos`, then pen down, `G1`, pen up. */
  function SegmentCommands(s: Segment, last: Option<(real, real)>, cfg: PenConfig): (r: seq<Command>)
    ensures |r| == if last == Some(Rounded(s.start)) then 3 else 4
    ensures |r| == 4 ==> r[0] == Rapid(s.start)
    ensures r[|r| - 3..] == [PenDown(cfg.penDown), Draw(s.end, cfg.feed), PenUp(cfg.penUp)]
  {
    (if last != Some(Rounded(s.start)) then [Rapid(s.start)] else [])
      + [PenDown(cfg.penDown), Draw(s.end, cfg.feed), PenUp(cfg.penUp)]
  }

  /** Reference definition of the emitter's loop body sequence, from state `last`. */
  function EmitSkipping(segs: seq<Segment>, last: Option<(real, real)>, cfg: PenConfig): seq<Command>
  {
    if |segs| == 0 then []
    else if Tiny(segs[0]) then EmitSkipping(segs[1..], last, cfg)
    else SegmentCommands(segs[0], last, cfg) + EmitSkipping(segs[1..], Some(Rounded(segs[0].end)), cfg)
  }

  /** Each kept segment costs three or four lines; with no previous position
      the first kept segment opens with a `G0` to its start; a list of only
      tiny segments writes nothing. */
  lemma {:induction false} EmitSkippingLength(segs: seq<Segment>, last: Option<(real, real)>, cfg: PenConfig)
    ensures 3 * |Kept(segs)| <= |EmitSkipping(segs, last, cfg)| <= 4 * |Kept(segs)|
    ensures last == None && |Kept(segs)| > 0 ==>
      |EmitSkipping(segs, last, cfg)| > 0 && EmitSkipping(segs, last, cfg)[0] == Rapid(Kept(segs)[0].start)
  {
    if |segs| > 0 {
      if Tiny(segs[0]) {
        EmitSkippingLength(segs[1..], last, cfg);
      } else {
        EmitSkippingLength(segs[1..], Some(Rounded(segs[0].end)), cfg);
      }
    }
  }

  /** `d` is drawn where `s` was asked for: same end, and a start that rounds
      to the same position to 0.001 mm (the pen may have been left at the
      previous end when that rounds like this start). */
  predicate DrawnAs(d: Segment, s: Segment)
  {
    d.end == s.end && Rounded(d.start) == Rounded(s.start)
  }

  predicate DrawnAsKept(drawn: seq<Segment>, kept: seq<Segment>)
  {
    |drawn| == |kept| && forall i :: 0 <= i < |kept| ==> DrawnAs(drawn[i], kept[i])
  }

  /** One kept segment, emitted with the pen up at a position that `last`
      describes, draws one segment as asked and leaves the pen up at its end. */
  lemma SegmentDraws(s: Segment, last: Option<(real, real)>, cfg: PenConfig, st: Pen)
    requires !st.down && (last.Some? ==> last.value == Rounded(st.pos))
    ensures Plot(SegmentCommands(s, last, cfg), st).pen == Pen(s.end, false)
    ensures |Plot(SegmentCommands(s, last, cfg), st).drawn| == 1
    ensures DrawnAs(Plot(SegmentCommands(s, last, cfg), st).drawn[0], s)
  {
    var tail := [PenDown(cfg.penDown), Draw(s.end, cfg.feed), PenUp(cfg.penUp)];
    var c := SegmentCommands(s, last, cfg);
    if last != Some(Rounded(s.start)) {
      assert c[1..] == tail;
      PenDownDraws(tail, s, cfg, s.start);
      assert Plot(c, st) == Trace(Pen(s.end, false), [] + [Segment(s.start, s.end)]);
    } else {
      assert c == tail;
      assert st == Pen(st.pos, false);
      PenDownDraws(tail, s, cfg, st.pos);
    }
  }

  /** What a plotter draws from the skipping emitter's output is the list of
      non-tiny segments, in order, each as asked up to the 0.001 mm rounding
      of its start; the pen ends up lifted. */
  lemma {:induction false} EmitSkippingDraws(segs: seq<Segment>, last: Option<(real, real)>, cfg: PenConfig, st: Pen)
    requires !st.down && (last.Some? ==> last.value == Rounded(st.pos))
    ensures DrawnAsKept(Plot(EmitSkipping(segs, last, cfg), st).drawn, Kept(segs))
    ensures !Plot(EmitSkipping(segs, last, cfg), st).pen.down
  {
    if |segs| > 0 {
      var s := segs[0];
      if Tiny(s) {
        EmitSkippingDraws(segs[1..], last, cfg, st);
      } else {
        var first := SegmentCommands(s, last, cfg);
        var last' := Some(Rounded(s.end));
        var rest := EmitSkipping(segs[1..], last', cfg);
        SegmentDraws(s, last, cfg, st);
        PlotAppend(first, rest, st);
        var mid := Plot(first, st).pen;
        EmitSkippingDraws(segs[1..], last', cfg, mid);
        var d := Plot(first, st).drawn + Plot(rest, mid).drawn;
        var k := [s] + Kept(segs[1..]);
        assert Kept(segs) == k;
        forall i | 0 <= i < |k|
          ensures DrawnAs(d[i], k[i])
        {
          if i > 0 {
            assert d[i] == Plot(rest, mid).drawn[i - 1];
          }
        }
      }
    }
  }

  /** One step of the emitter's loop, as the reference definition takes it. */
  lemma EmitSkippingStep(segs: seq<Segment>, i: nat, last: Option<(real, real)>, cfg: PenConfig)
    requires i < |segs|
    ensures EmitSkipping(segs[i..], last, cfg) ==
      if Tiny(segs[i]) then EmitSkipping(segs[i + 1..], last, cfg)
      else SegmentCommands(segs[i], last, cfg) + EmitSkipping(segs[i + 1..], Some(Rounded(segs[i].end)), cfg)
  {
    assert segs[i..][0] == segs[i];
    assert segs[i..][1..] == segs[i + 1..];
  }

  /** One pass of the emitter's loop body on a segment already in mm: skip
      it when tiny, else a `G0` unless `last_pos` already matches its
      rounded start, then pen down, `G1`, pen up, and remember its rounded end. */
  method WriteSegment(s: Segment, last: Option<(real, real)>, cfg: PenConfig)
    returns (cmds: seq<Command>, next: Option<(real, real)>)
    ensures cmds == if Tiny(s) then [] else SegmentCommands(s, last, cfg)
    ensures next == if Tiny(s) then last else Some(Rounded(s.end))
  {
    if Abs(s.end.x - s.start.x) < SkipTinyMoveMm && Abs(s.end.y - s.start.y) < SkipTinyMoveMm {
      return [], last;
    }
    cmds := [];
    if last != Some((Round3(s.start.x), Round3(s.start.y))) {
      cmds := [Rapid(s.start)];
    }
    cmds := cmds + [PenDown(cfg.penDown), Draw(s.end, cfg.feed), PenUp(cfg.penUp)];
    next := Some((Round3(s.end.x), Round3(s.end.y)));
  }

  /** After writing segment `i`, the output so far plus the reference
      emitter from segment `i + 1` is still the whole output. */
  lemma EmitSkippingLoopStep(segs: seq<Segment>, i: nat, last: Option<(real, real)>, cfg: PenConfig,
                             done: seq<Command>, cmds: seq<Command>, next: Option<(real, real)>, total: seq<Command>)
    requires i < |segs|
    requires done + EmitSkipping(segs[i..], last, cfg) == total
    requires cmds == if Tiny(segs[i]) then [] else SegmentCommands(segs[i], last, cfg)
    requires next == if Tiny(segs[i]) then last else Some(Rounded(segs[i].end))
    ensures (done + cmds) + EmitSkipping(segs[i + 1..], next, cfg) == total
  {
    EmitSkippingStep(segs, i, last, cfg);
    var rest := EmitSkipping(segs[i + 1..], next, cfg);
    assert EmitSkipping(segs[i..], last, cfg) == cmds + rest;
    assert done + (cmds + rest) == (done + cmds) + rest;
  }
}
