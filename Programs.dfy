/** The three scripts' G-code writers, each as one method whose output is a
    command sequence: `generate_gcode` of ImageToGCode2.py (with the tiny-move
    skip and `last_pos`), `generate_gcode` of InkscapeToGCode.py (outline then
    fill, four lines per segment) and the main script of ImageToGCode.py (four
    diagonal hatch levels, four lines per segment). */
module Programs {
  import opened Geometry
  import opened Mapping
  import opened GCode
  import opened Outline
  import opened ScanlineFill
  import opened DiagonalHatch

  // ---------------------------------------------------------------------
  // Configuration of each script.

  /** ImageToGCode2.py: `PEN_DOWN`, `PEN_UP`, `FEED_RATE`. */
  const Config2: PenConfig := PenConfig("M3;S0", "M5;S180", 2000)
  /** InkscapeToGCode.py: `PEN_DOWN`, `PEN_UP`, `FEED_RATE`. */
  const ConfigInkscape: PenConfig := PenConfig("M3;S0", "M5;S180", 800)
  /** ImageToGCode.py: `PEN_DOWN` (written with a colon), `PEN_UP`, `FEED_RATE`. */
  const ConfigHatch: PenConfig := PenConfig("M3:S0", "M5;S180", 800)

  const InkscapePageW: real := 135.0
  const InkscapePageH: real := 210.0
  const InkscapeStepMm: real := 0.5
  const HatchPageW: real := 148.0
  const HatchPageH: real := 210.0
  /** `gray_thresholds`: level `i` hatches pixels below `Thresholds[i]`. */
  const Thresholds: seq<int> := [64, 128, 192, 256]
  /** `NUM_GRAY_LEVELS`. */
  const GrayLevels: nat := 4

  // ---------------------------------------------------------------------
  // Mapping whole segments to millimetres.

  /** Both ends of every segment through the flipped `pixel_to_mm`. */
  function ToMm(segs: seq<Segment>, imgW: int, imgH: int, pw: real, ph: real): (r: seq<Segment>)
    requires imgW > 0 && imgH > 0
    ensures |r| == |segs|
  {
    seq(|segs|, i requires 0 <= i < |segs| =>
      Segment(PixelToMm(segs[i].start, imgW, imgH, pw, ph), PixelToMm(segs[i].end, imgW, imgH, pw, ph)))
  }

  /** Both ends of every segment through the unflipped `pixel_to_mm` of ImageToGCode.py. */
  function ToMmUnflipped(segs: seq<Segment>, imgW: int, imgH: int, pw: real, ph: real): (r: seq<Segment>)
    requires imgW > 0 && imgH > 0
    ensures |r| == |segs|
  {
    seq(|segs|, i requires 0 <= i < |segs| =>
      Segment(PixelToMmUnflipped(segs[i].start, imgW, imgH, pw, ph), PixelToMmUnflipped(segs[i].end, imgW, imgH, pw, ph)))
  }

  /** Mapping is done segment by segment, so it distributes over concatenation. */
  lemma ToMmAppend(a: seq<Segment>, b: seq<Segment>, imgW: int, imgH: int, pw: real, ph: real)
    requires imgW > 0 && imgH > 0
    ensures ToMm(a + b, imgW, imgH, pw, ph) == ToMm(a, imgW, imgH, pw, ph) + ToMm(b, imgW, imgH, pw, ph)
  {
    var l, r := ToMm(a + b, imgW, imgH, pw, ph), ToMm(a, imgW, imgH, pw, ph) + ToMm(b, imgW, imgH, pw, ph);
    forall i | 0 <= i < |l|
      ensures l[i] == r[i]
    {
      if i >= |a| {
        assert (a + b)[i] == b[i - |a|];
      }
    }
  }

  // ---------------------------------------------------------------------
  // `generate_gcode` of ImageToGCode2.py.

  /** `STEP` of ImageToGCode2.py: the hatch spacing in mm. */
  const StepMm2: real := 0.35

  /** `spacing_px_full = max(1, int(round(STEP / scale_mm_per_px)))`: the
      spacing in pixels is `STEP` in mm rounded to the nearest pixel, and at
      least one pixel. */
  function FullSpacing(mmPerPx: real): (spacing: int)
    requires mmPerPx > 0.0
    ensures spacing >= 1
    ensures StepMm2 / mmPerPx >= 0.5 ==>
      spacing as real - 0.5 <= StepMm2 / mmPerPx <= spacing as real + 0.5
    ensures StepMm2 / mmPerPx < 0.5 ==> spacing == 1
  {
    Max(1, RoundHalfEven(StepMm2 / mmPerPx))
  }

  /** The header: the size comment, `G21`, `G90`. */
  const Header3: seq<Command> := [SizeComment, Units, Absolute]

  /** The header lines draw nothing and leave the pen where it was. */
  lemma HeadersDrawNothing(st: Pen)
    ensures Plot(Header2, st) == Trace(st, [])
    ensures Plot(Header3, st) == Trace(st, [])
  {
    assert Header2[1..][1..] == [];
    assert Plot(Header2[1..][1..], st) == Trace(st, []);
    assert Plot(Header2[1..], st) == Trace(st, []);
    assert Header3[1..] == Header2;
  }

  /** `generate_gcode(img_px, lines_px, path, printed_w_mm, printed_h_mm)`:
      the header, then the skipping emitter over the segments mapped to mm. */
  method GenerateGCodeSkipping(segsPx: seq<Segment>, imgW: int, imgH: int, printedW: real, printedH: real)
    returns (out: seq<Command>)
    requires imgW > 0 && imgH > 0
    ensures out == Header3 + EmitSkipping(ToMm(segsPx, imgW, imgH, printedW, printedH), None, Config2)
  {
    ghost var mm := ToMm(segsPx, imgW, imgH, printedW, printedH);
    ghost var total := Header3 + EmitSkipping(mm, None, Config2);
    out := Header3;
    var lastPos: Option<(real, real)> := None;
    var i := 0;
    assert mm[0..] == mm;
    while i < |segsPx|
      invariant 0 <= i <= |segsPx|
      invariant out + EmitSkipping(mm[i..], lastPos, Config2) == total
    {
      var s := Segment(PixelToMm(segsPx[i].start, imgW, imgH, printedW, printedH),
                       PixelToMm(segsPx[i].end, imgW, imgH, printedW, printedH));
      assert mm[i] == s;
      var cmds, next := WriteSegment(s, lastPos, Config2);
      EmitSkippingLoopStep(mm, i, lastPos, Config2, out, cmds, next, total);
      out := out + cmds;
      lastPos := next;
      i := i + 1;
    }
    assert mm[i..] == [];
  }

  /** What the plotter draws from ImageToGCode2.py's output: every segment
      that is not tiny in mm, in order, each up to the 0.001 mm rounding of
      its start; the header draws nothing. */
  lemma SkippingProgramDraws(segsPx: seq<Segment>, imgW: int, imgH: int, printedW: real, printedH: real, st: Pen)
    requires imgW > 0 && imgH > 0 && !st.down
    ensures var mm := ToMm(segsPx, imgW, imgH, printedW, printedH);
      DrawnAsKept(Plot(Header3 + EmitSkipping(mm, None, Config2), st).drawn, Kept(mm))
  {
    var mm := ToMm(segsPx, imgW, imgH, printedW, printedH);
    PlotAppend(Header3, EmitSkipping(mm, None, Config2), st);
    HeadersDrawNothing(st);
    EmitSkippingDraws(mm, None, Config2, st);
  }

  // ---------------------------------------------------------------------
  // `generate_gcode` of InkscapeToGCode.py.

  /** `spacing_px = max(1, int((STEP / PAGE_WIDTH) * width))`: 0.5 mm on a
      135 mm wide page is one pixel in 270, never less than one pixel. */
  function InkscapeSpacing(width: int): (spacing: int)
    ensures spacing >= 1
    ensures width < 540 ==> spacing == 1
    ensures width >= 270 ==> 270 * spacing <= width < 270 * (spacing + 1)
  {
    Max(1, Trunc(InkscapeStepMm / InkscapePageW * width as real))
  }

  /** The segments InkscapeToGCode.py draws: the outline's segments, then
      the fill's, in pixel coordinates. */
  function InkscapeLines(img: seq<seq<int>>, contours: seq<seq<RowCol>>): seq<Segment>
    requires IsGrayField(img)
  {
    ContourSegments(contours) + ToSegments(FillRows(img, SampleStep(InkscapeSpacing(Width(img)) as real), 0))
  }

  /** The outline's segments on the page. */
  function OutlineMm(img: seq<seq<int>>, contours: seq<seq<RowCol>>): seq<Segment>
    requires IsGrayField(img) && |img| > 0 && Width(img) > 0
  {
    ToMm(ContourSegments(contours), Width(img), |img|, InkscapePageW, InkscapePageH)
  }

  /** The fill's segments on the page. */
  function FillMm(img: seq<seq<int>>): seq<Segment>
    requires IsGrayField(img) && |img| > 0 && Width(img) > 0
  {
    ToMm(ToSegments(FillRows(img, SampleStep(InkscapeSpacing(Width(img)) as real), 0)), Width(img), |img|, InkscapePageW, InkscapePageH)
  }

  /** Reference definition of InkscapeToGCode.py's output: the header, then
      four lines per segment of the outline and fill on the page. */
  function InkscapeProgram(img: seq<seq<int>>, contours: seq<seq<RowCol>>): seq<Command>
    requires IsGrayField(img) && |img| > 0 && Width(img) > 0
  {
    Header3 + EmitAll(ToMm(InkscapeLines(img, contours), Width(img), |img|, InkscapePageW, InkscapePageH), ConfigInkscape)
  }

  /** The loop `for start, end in all_lines`: four commands per segment, mapped to the page. */
  method EmitMapped(segs: seq<Segment>, imgW: int, imgH: int, pw: real, ph: real, cfg: PenConfig)
    returns (cmds: seq<Command>)
    requires imgW > 0 && imgH > 0
    ensures cmds == EmitAll(ToMm(segs, imgW, imgH, pw, ph), cfg)
  {
    ghost var mm := ToMm(segs, imgW, imgH, pw, ph);
    cmds := [];
    var i := 0;
    while i < |segs|
      invariant 0 <= i <= |segs|
      invariant cmds == EmitAll(mm[..i], cfg)
    {
      var p0 := PixelToMm(segs[i].start, imgW, imgH, pw, ph);
      var p1 := PixelToMm(segs[i].end, imgW, imgH, pw, ph);
      assert mm[..i + 1][..i] == mm[..i];
      assert mm[..i + 1][i] == Segment(p0, p1);
      cmds := cmds + [Rapid(p0), PenDown(cfg.penDown), Draw(p1, cfg.feed), PenUp(cfg.penUp)];
      i := i + 1;
    }
    assert mm[..i] == mm;
  }

  /** `generate_gcode(img, path)` of InkscapeToGCode.py, with the contours
      the contour finder returns for the image as an input. */
  method InkscapeGCode(img: seq<seq<int>>, contours: seq<seq<RowCol>>) returns (out: seq<Command>)
    requires IsGrayField(img) && |img| > 0 && Width(img) > 0
    ensures out == InkscapeProgram(img, contours)
  {
    var spacing := InkscapeSpacing(Width(img));
    var outline := OutlineSegments(contours);
    var fill := FillLines(img, spacing as real);
    var all := outline + ToSegments(fill);
    var cmds := EmitMapped(all, Width(img), |img|, InkscapePageW, InkscapePageH, ConfigInkscape);
    out := Header3 + cmds;
  }

  /** The output of InkscapeToGCode.py is 3 header lines and 4 lines per
      segment; the outline's commands come before the fill's; the plotter
      draws exactly the outline then the fill, mapped to the page. */
  lemma InkscapeLayout(img: seq<seq<int>>, contours: seq<seq<RowCol>>, st: Pen)
    requires IsGrayField(img) && |img| > 0 && Width(img) > 0 && !st.down
    ensures |InkscapeProgram(img, contours)| == 3 + 4 * (|OutlineMm(img, contours)| + |FillMm(img)|)
    ensures InkscapeProgram(img, contours)[3..3 + 4 * |OutlineMm(img, contours)|] == EmitAll(OutlineMm(img, contours), ConfigInkscape)
    ensures Plot(InkscapeProgram(img, contours), st).drawn == OutlineMm(img, contours) + FillMm(img)
  {
    var outline := ContourSegments(contours);
    var fill := ToSegments(FillRows(img, SampleStep(InkscapeSpacing(Width(img)) as real), 0));
    ToMmAppend(outline, fill, Width(img), |img|, InkscapePageW, InkscapePageH);
    assert InkscapeProgram(img, contours) == Header3 + EmitAll(OutlineMm(img, contours) + FillMm(img), ConfigInkscape);
    TwoPartStream(OutlineMm(img, contours), FillMm(img), ConfigInkscape, st);
  }

  /** After the three header lines, the plain emitter over two families of
      segments writes the first family's commands first, and the plotter
      draws the first family then the second. */
  lemma TwoPartStream(a: seq<Segment>, b: seq<Segment>, cfg: PenConfig, st: Pen)
    requires !st.down
    ensures var out := Header3 + EmitAll(a + b, cfg);
      && |out| == 3 + 4 * (|a| + |b|)
      && out[3..3 + 4 * |a|] == EmitAll(a, cfg)
      && Plot(out, st).drawn == a + b
  {
    EmitAllAppend(a, b, cfg);
    EmitAllLayout(a, cfg);
    EmitAllLayout(b, cfg);
    var body := EmitAll(a + b, cfg);
    var out := Header3 + body;
    assert out[3..3 + 4 * |a|] == body[..4 * |a|];
    PlotAppend(Header3, body, st);
    HeadersDrawNothing(st);
    EmitAllDraws(a + b, cfg, st);
  }

  // ---------------------------------------------------------------------
  // The main script of ImageToGCode.py.

  /** The header: `G21`, `G90`. */
  const Header2: seq<Command> := [Units, Absolute]

  /** Hatch level `i` (0-based): spacing `DENSE_SPACING * (i + 1)`, that is
      `(i + 1) / 2` pixels, and threshold `Thresholds[i]`. */
  function LevelLines(img: seq<seq<int>>, level: nat): seq<Segment>
    requires IsGrayField(img) && level < GrayLevels
  {
    ToSegments(HatchFrom(img, level + 1, 2, Thresholds[level], 0))
  }

  /** Reference definition of the command stream after the header: levels
      `level, level + 1, ...` in order, four lines per segment. */
  function LevelsFrom(img: seq<seq<int>>, level: nat): seq<Command>
    requires IsGrayField(img) && |img| > 0 && Width(img) > 0
    decreases GrayLevels - level
  {
    if level >= GrayLevels then []
    else
      EmitAll(ToMmUnflipped(LevelLines(img, level), Width(img), |img|, HatchPageW, HatchPageH), ConfigHatch)
        + LevelsFrom(img, level + 1)
  }

  /** The segments of levels `level, level + 1, ...`, in order. */
  function LevelSegmentsFrom(img: seq<seq<int>>, level: nat): seq<Segment>
    requires IsGrayField(img) && |img| > 0 && Width(img) > 0
    decreases GrayLevels - level
  {
    if level >= GrayLevels then []
    else ToMmUnflipped(LevelLines(img, level), Width(img), |img|, HatchPageW, HatchPageH) + LevelSegmentsFrom(img, level + 1)
  }

  /** The command stream of the levels is the plain emitter over all their
      segments, level after level. */
  lemma {:induction false} LevelsAreOneStream(img: seq<seq<int>>, level: nat)
    requires IsGrayField(img) && |img| > 0 && Width(img) > 0
    ensures LevelsFrom(img, level) == EmitAll(LevelSegmentsFrom(img, level), ConfigHatch)
    decreases GrayLevels - level
  {
    if level < GrayLevels {
      LevelsAreOneStream(img, level + 1);
      EmitAllAppend(ToMmUnflipped(LevelLines(img, level), Width(img), |img|, HatchPageW, HatchPageH),
                    LevelSegmentsFrom(img, level + 1), ConfigHatch);
    }
  }

  /** The loop over one level's segments, mapped with the unflipped `pixel_to_mm`. */
  method EmitMappedUnflipped(segs: seq<Segment>, imgW: int, imgH: int, pw: real, ph: real, cfg: PenConfig)
    returns (cmds: seq<Command>)
    requires imgW > 0 && imgH > 0
    ensures cmds == EmitAll(ToMmUnflipped(segs, imgW, imgH, pw, ph), cfg)
  {
    ghost var mm := ToMmUnflipped(segs, imgW, imgH, pw, ph);
    cmds := [];
    var i := 0;
    while i < |segs|
      invariant 0 <= i <= |segs|
      invariant cmds == EmitAll(mm[..i], cfg)
    {
      var p0 := PixelToMmUnflipped(segs[i].start, imgW, imgH, pw, ph);
      var p1 := PixelToMmUnflipped(segs[i].end, imgW, imgH, pw, ph);
      assert mm[..i + 1][..i] == mm[..i];
      assert mm[..i + 1][i] == Segment(p0, p1);
      cmds := cmds + [Rapid(p0), PenDown(cfg.penDown), Draw(p1, cfg.feed), PenUp(cfg.penUp)];
      i := i + 1;
    }
    assert mm[..i] == mm;
  }

  /** The main script of ImageToGCode.py on the scaled image: the header,
      then for each gray level its hatch family's commands. */
  method MultiLevelGCode(img: seq<seq<int>>) returns (out: seq<Command>)
    requires IsGrayField(img) && |img| > 0 && Width(img) > 0
    ensures out == Header2 + LevelsFrom(img, 0)
  {
    out := Header2;
    var level := 0;
    ghost var total := Header2 + LevelsFrom(img, 0);
    while level < GrayLevels
      invariant 0 <= level <= GrayLevels
      invariant out + LevelsFrom(img, level) == total
    {
      var lines := HatchLines(img, level + 1, 2, Thresholds[level]);
      var cmds := EmitMappedUnflipped(ToSegments(lines), Width(img), |img|, HatchPageW, HatchPageH, ConfigHatch);
      LevelsStep(img, level, out, cmds, total);
      out := out + cmds;
      level := level + 1;
    }
    assert out + [] == out;
  }

  /** Writing level `level` moves the script on to the next level. */
  lemma LevelsStep(img: seq<seq<int>>, level: nat, done: seq<Command>, cmds: seq<Command>, total: seq<Command>)
    requires IsGrayField(img) && |img| > 0 && Width(img) > 0 && level < GrayLevels
    requires cmds == EmitAll(ToMmUnflipped(LevelLines(img, level), Width(img), |img|, HatchPageW, HatchPageH), ConfigHatch)
    requires done + LevelsFrom(img, level) == total
    ensures (done + cmds) + LevelsFrom(img, level + 1) == total
  {
    LevelsFromUnfold(img, level);
    AppendAssoc(done, cmds, LevelsFrom(img, level + 1));
  }

  lemma LevelsFromUnfold(img: seq<seq<int>>, level: nat)
    requires IsGrayField(img) && |img| > 0 && Width(img) > 0 && level < GrayLevels
    ensures LevelsFrom(img, level) ==
      EmitAll(ToMmUnflipped(LevelLines(img, level), Width(img), |img|, HatchPageW, HatchPageH), ConfigHatch)
        + LevelsFrom(img, level + 1)
  {
  }

  lemma AppendAssoc(a: seq<Command>, b: seq<Command>, c: seq<Command>)
    ensures a + (b + c) == (a + b) + c
  {
  }

  /** The output of ImageToGCode.py is 2 header lines and 4 lines per
      segment, and the plotter draws the four levels' segments, mapped to
      the page, level after level. */
  lemma MultiLevelLayout(img: seq<seq<int>>, st: Pen)
    requires IsGrayField(img) && |img| > 0 && Width(img) > 0 && !st.down
    ensures |Header2 + LevelsFrom(img, 0)| == 2 + 4 * |LevelSegmentsFrom(img, 0)|
    ensures Plot(Header2 + LevelsFrom(img, 0), st).drawn == LevelSegmentsFrom(img, 0)
  {
    LevelsAreOneStream(img, 0);
    EmitAllLayout(LevelSegmentsFrom(img, 0), ConfigHatch);
    PlotAppend(Header2, LevelsFrom(img, 0), st);
    HeadersDrawNothing(st);
    EmitAllDraws(LevelSegmentsFrom(img, 0), ConfigHatch, st);
  }
}
