# ImageToGCode in Dafny

A verified model of the line generators and G-code writers of the
dRawbot image-to-G-code scripts. Each script turns a grayscale image into
pen-plotter G-code: a list of segments in pixel coordinates, mapped to
millimetres on the page, written as `G0` / pen-down / `G1` / pen-up.

- **Outline** (`generate_outline`, in ImageToGCode2.py and InkscapeToGCode.py).
  Each contour polyline that the iso-line finder traces becomes the segments
  between consecutive points. The row and column are swapped into x and y.
- **Black-and-white fill** (`generate_fill_lines_bw` / `generate_fill_lines`).
  On rows `0, step, 2*step, ...`, every maximal run of dark pixels becomes
  one horizontal segment. A pixel is dark when `v/255 < 0.5`, that is
  `v <= 127`.
- **Density hatch** (`generate_density_hatch_blocks`). On a `step` grid,
  each block's mean blackness decides how many strokes it gets, up to
  `max_lines_per_block`. The strokes are spread evenly inside the block and
  are horizontal or diagonal.
- **Diagonal hatch** (`generate_hatch_lines`, ImageToGCode.py). For offsets
  `0, spacing, 2*spacing, ...` below `width + height`, the anti-diagonal is
  walked column by column. Every run of two or more cells darker than the
  threshold becomes one segment. The script computes the row of column `x`
  as `int(offset - x)`. For fractional offsets this leaves the diagonal (see
  Findings). The model walks the corrected diagonal `x + y == floor(offset)`,
  which is the same walk for whole-number offsets. The script's own walk is
  `DiagonalHatch.WalkAsWritten`.
- **Page mapping**:
  - the fit-to-page scaling, with the optional quarter turn;
  - the two `pixel_to_mm` maps: the flipped one in ImageToGCode2.py and
    InkscapeToGCode.py, and the unflipped one in ImageToGCode.py.
- **G-code writers**. Commands are a datatype, not text. A small plotter
  semantics (`GCode.Plot`) runs a command stream and records what the pen
  draws. This is the reference every writer is proved against:
  - the plain four-commands-per-segment writer draws exactly its segments,
    in order;
  - ImageToGCode2.py's writer skips moves shorter than 0.01 mm on both axes.
    It omits the `G0` when the pen's last position, rounded to 0.001 mm,
    equals the segment's rounded start. It draws exactly the kept segments,
    each from a start that rounds to the same 0.001 mm position as the
    intended one.

The fill loop is the same in ImageToGCode2.py (lines 66-85) and
InkscapeToGCode.py (lines 39-58), and both are modelled by
`ScanlineFill.FillLines`. The same holds for the outline loop
(ImageToGCode2.py 55-64 and InkscapeToGCode.py 30-37) and
`Outline.OutlineSegments`.

All arithmetic is on exact reals and unbounded integers:
- Python's `int()` on a float is `Geometry.Trunc`, which truncates toward zero;
- `round()` is `Geometry.RoundHalfEven`;
- `round(v, 3)` is `GCode.Round3`, the value rounded half-to-even to a
  multiple of 0.001.

## Model

| member | source | states |
|---|---|---|
| Geometry.SampleStep | ImageToGCode2.py:70 | `max(1, int(spacing))` is the whole part of any spacing of one pixel or more, and exactly 1 for any spacing below one pixel |
| Geometry.Trunc | ImageToGCode2.py:70 | `int()` on a float lies within one of its argument on the zero side: floor for non-negatives, ceiling for negatives |
| Geometry.RoundHalfEven | ImageToGCode2.py:103 | `round()` is within one half of its argument |
| Geometry.RoundHalfEvenTies | ImageToGCode2.py:103 | exact halves round to the even neighbour |
| Geometry.RoundHalfEvenMonotone | ImageToGCode2.py:103 | rounding never reverses the order of two values |
| Geometry.RoundOfInteger | ImageToGCode2.py:180 | `round` and `int` leave whole numbers unchanged |
| Runs.RunEnd | ImageToGCode2.py:75-84 | a run started at a dark pixel extends exactly to the last dark pixel before a light one or the row's end |
| Runs.Runs | ImageToGCode2.py:73-84 | a span is produced by the run scan if and only if it is a maximal run of set flags |
| Runs.RunsFromOrdered | ImageToGCode2.py:73-84 | the runs come out left to right, with at least one clear flag between two runs |
| Runs.RunsFromCover | ImageToGCode2.py:73-84 | every set flag lies in some produced run |
| Runs.MaximalRunsOverlap | ImageToGCode2.py:73-84 | two maximal runs that share a flag are the same run |
| Runs.ScanSet | ImageToGCode2.py:77-79 | a set flag opens a run when none is open and otherwise extends it, keeping the scan in step with the runs |
| Runs.ScanClear | ImageToGCode2.py:80-82 | a clear flag closes the open run at the flag before it, so that run is the next maximal run |
| Runs.ScanFinish | ImageToGCode2.py:83-84 | at the row's end, closing a run still open at the last flag leaves exactly the row's runs emitted |
| ScanlineFill.DarkIsBelowHalf | ImageToGCode2.py:76 | for every integer level, `v/255 < 0.5` holds exactly when `v <= 127` |
| ScanlineFill.DarkMaskIsBelowHalf | ImageToGCode2.py:72-76 | a pixel's flag is set exactly when its tone normalised by 255 is below 0.5, the script's test on the normalised array |
| ScanlineFill.ScanRow | ImageToGCode2.py:72-84 | the inner loop (open a run at a dark pixel, close it at the next light one, flush at row end) yields the row's runs as segments |
| ScanlineFill.ScanPixel | ImageToGCode2.py:75-82 | one pixel of the scan (open on dark, close on light) keeps the emitted segments equal to the runs seen so far |
| ScanlineFill.ScanRowEnd | ImageToGCode2.py:83-84 | the end-of-row flush completes the row's runs |
| ScanlineFill.FillLines | ImageToGCode2.py:66-85 | the fill loop over rows `0, step, ...` yields the rows' segments in row order |
| ScanlineFill.RowSegmentsExact | ImageToGCode2.py:72-84 | a segment is produced for a row if and only if it lies on that row and spans a maximal dark run |
| ScanlineFill.FillIsMaximalRuns | ImageToGCode2.py:66-85 | a segment is in the fill if and only if it lies on a sampled row and spans a maximal dark run of it |
| ScanlineFill.FillRowsOrdered | ImageToGCode2.py:71-84 | the fill comes out top to bottom, and left to right within a row with a gap between segments |
| ScanlineFill.FillCoversEachDarkPixelOnce | ImageToGCode2.py:66-85 | each dark pixel of a sampled row is covered by exactly one fill segment |
| ScanlineFill.FillRowsOnSampledRows | ImageToGCode2.py:71 | every fill segment lies on a row `y0 + n*step` inside the image |
| ScanlineFill.FillRowsIncludeRow | ImageToGCode2.py:71 | every run of every sampled row is in the fill |
| Mapping.PixelToMmCorners | ImageToGCode2.py:47-51 | the image's top-left corner maps to the page's top-left and its bottom-right to the page's bottom-right `(printed_w, 0)`, so y is flipped |
| Mapping.PixelToMmInside | ImageToGCode2.py:47-51 | a point of the image lands inside the printed area |
| Mapping.PixelToMmRoundTrip | ImageToGCode2.py:47-51 | pixel to mm and back recovers the point, both ways round |
| Mapping.PixelToMmOrder | InkscapeToGCode.py:24-27 | columns keep their order and rows reverse theirs on the page |
| Mapping.UnflippedIsMirrored | ImageToGCode.py:50-54 | the unflipped map agrees in x and is the vertical mirror of the flipped map in y, with the origin at row 0 |
| Mapping.PixelToMmUnflippedInside | ImageToGCode.py:50-54 | a point of the image lands inside the page |
| Mapping.FitToPage | ImageToGCode2.py:22-45 | landscape images are turned on a portrait page; the returned scale is mm per pixel, so the printed size is pixel count times scale; it fits the page, touches one limit and keeps the aspect ratio |
| Mapping.ScaledSize | ImageToGCode.py:20-25 | the resized pixel size fits the page and, in exact arithmetic, one side equals the truncated page side |
| Mapping.ScaledSizeKeepsRatio | ImageToGCode.py:20-25 | the resized size keeps the aspect ratio up to the pixel truncation loses on each side: `-h < W*h - H*w < w` |
| BlockHatch.BlockCount | ImageToGCode2.py:99-100 | a block clipped at the image edge holds between 1 and `bs*bs` pixels, so it is never empty |
| BlockHatch.BlockSumBounds | ImageToGCode2.py:99-102 | the sum of a block lies between 0 and 255 per pixel |
| BlockHatch.Blackness | ImageToGCode2.py:102 | the block's blackness lies in 0..1 |
| BlockHatch.LineCountNearest | ImageToGCode2.py:103 | the stroke count is within one half of `blackness * max_lines_per_block` |
| BlockHatch.LineCountBounds | ImageToGCode2.py:103-105 | a block gets between 0 and `max_lines_per_block` strokes |
| BlockHatch.LineCountMonotone | ImageToGCode2.py:103 | more blackness never gives fewer strokes |
| BlockHatch.MeanOrder | ImageToGCode2.py:102 | a block with a lower mean is at least as black |
| BlockHatch.DarkerBlockMoreLines | ImageToGCode2.py:102-103 | a block with a lower mean gray gets at least as many strokes |
| BlockHatch.BlankAndSolidBlocks | ImageToGCode2.py:102-105 | a white block gets no stroke and a black block gets the maximum |
| BlockHatch.OffsetInsideBlock | ImageToGCode2.py:107 | every stroke offset lies strictly inside the block |
| BlockHatch.LineOffsetMidBand | ImageToGCode2.py:107 | stroke `i` sits at the middle of the `i`-th of `max_lines_per_block` equal bands of the block |
| BlockHatch.StrokeShape | ImageToGCode2.py:108-111 | a stroke starts at `(x, y + offset)`, spans `step` columns, and is horizontal or falls at 45 degrees |
| BlockHatch.OffsetsIncrease | ImageToGCode2.py:106-107 | later strokes of a block lie strictly lower in it than earlier ones |
| BlockHatch.StrokeInsideBlock | ImageToGCode2.py:107-111 | a stroke starts on the block's left edge, strictly inside it, spans `step` columns and falls by `step` when diagonal |
| BlockHatch.NonZeroLines | ImageToGCode2.py:104-105 | a block that emits strokes emits between 1 and the maximum |
| BlockHatch.HatchBlock | ImageToGCode2.py:106-111 | the stroke loop of one block yields its strokes |
| BlockHatch.HatchRow | ImageToGCode2.py:98-111 | the loop over the blocks of a row yields their strokes in column order |
| BlockHatch.HatchRows | ImageToGCode2.py:97-111 | the loop over block rows yields their strokes in row order |
| BlockHatch.DensityHatchBlocks | ImageToGCode2.py:87-113 | the whole hatch is the blocks' strokes on the `step` grid, row by row |
| BlockHatch.AllBlocksMember | ImageToGCode2.py:97-111 | every hatch stroke is stroke `i < lines(block)` of a block on the grid inside the image |
| BlockHatch.AllBlocksInclude | ImageToGCode2.py:97-111 | every such stroke of every grid block is in the hatch |
| BlockHatch.OnGridMultiple | ImageToGCode2.py:97-98 | grid positions are whole multiples of the step |
| DiagonalHatch.Offset | ImageToGCode.py:34 | the k-th offset is `k * spacing`, never negative |
| DiagonalHatch.OffsetBelow | ImageToGCode.py:33-34 | the offset loop's bound `k*spacing < width + height` in integer form |
| DiagonalHatch.DiagY | ImageToGCode.py:37 | the corrected row rule puts every visited cell on `x + y == floor(offset)` |
| DiagonalHatch.DiagYAsWritten | ImageToGCode.py:37 | `int(offset - x)` agrees with the diagonal left of the offset and lies one row lower right of a fractional offset |
| DiagonalHatch.AsWrittenExtraCell | ImageToGCode.py:37 | truncation differs from the corrected rule exactly right of a fractional offset; its one in-image extra cell is `(floor(offset)+1, 0)` |
| DiagonalHatch.AsWrittenCounterexample | ImageToGCode.py:37 | at spacing 0.5, offset 2.5, column 3 is visited at row 0, off the diagonal `x + y == 2` |
| DiagonalHatch.WalkAsWritten | ImageToGCode.py:33-48 | the script's accumulate-and-flush column walk with the truncating row `int(offset - x)`; every segment it draws joins pending points or dark pixels of the image, though not always on one diagonal (`AsWrittenLongerSegment`) |
| DiagonalHatch.AsWrittenLongerSegment | ImageToGCode.py:33-48 | in an all-dark image 4 wide and 3 tall, offset 2.5, the script's walk yields (0,2)→(3,0), where the corrected walk yields (0,2)→(2,0) |
| DiagonalHatch.OnDiagonal | ImageToGCode.py:36-38 | the in-image cells of a diagonal are a contiguous range of columns |
| DiagonalHatch.OffsetLines | ImageToGCode.py:35-47 | one offset's column walk yields the diagonal's runs of two or more dark cells, in column order |
| DiagonalHatch.WalkColumn | ImageToGCode.py:36-45 | one column of the walk keeps the pending points equal to the open run and the segments equal to the long runs closed so far |
| DiagonalHatch.HatchLines | ImageToGCode.py:28-48 | the offset loop yields every offset's runs, offset by offset |
| DiagonalHatch.OffsetSegmentIsRun | ImageToGCode.py:36-47 | every segment of an offset joins the two ends of a maximal dark run of two or more cells on its diagonal |
| DiagonalHatch.DiagonalRunIsOffsetSegment | ImageToGCode.py:36-47 | every such run is a segment of that offset |
| DiagonalHatch.HatchSegmentIsDiagonalRun | ImageToGCode.py:28-48 | every hatch segment lies on the diagonal of an offset below `width + height` and spans a maximal dark run of at least two cells |
| DiagonalHatch.DiagonalRunIsHatchSegment | ImageToGCode.py:28-48 | every such run of every offset is drawn |
| Outline.SwapRoundTrip | ImageToGCode2.py:60 | the `(row, col)` to `(x, y)` swap loses nothing |
| Outline.PolylineSegments | ImageToGCode2.py:62-63 | a contour of `n` points gives `n-1` segments, none for fewer than two |
| Outline.PolylineChained | ImageToGCode2.py:62-63 | consecutive segments share their joint, from the first point to the last |
| Outline.PolylineRecovered | ImageToGCode2.py:60-63 | the contour is recovered from its segments |
| Outline.ContourSegmentsAppend | ImageToGCode2.py:59-63 | contours are split independently |
| Outline.ContourSegmentsMember | ImageToGCode2.py:59-63 | every outline segment joins two consecutive points of one contour |
| Outline.ContourSegmentsInclude | ImageToGCode2.py:59-63 | every pair of consecutive contour points is an outline segment |
| Outline.SplitPolyline | InkscapeToGCode.py:35-36 | the inner loop yields the contour's segments |
| Outline.OutlineSegments | InkscapeToGCode.py:30-37 | the outline loop yields the contours' segments, contour by contour |
| GCode.PlotAppend | ImageToGCode2.py:140-152 | running two command streams in turn is running their concatenation |
| GCode.StrokeDraws | InkscapeToGCode.py:89-92 | `G0`, pen down, `G1`, pen up draws exactly that segment and leaves the pen up at its end |
| GCode.EmitAllLayout | InkscapeToGCode.py:86-92 | four commands per segment, in segment order |
| GCode.EmitAllAppend | InkscapeToGCode.py:80-92 | writing two lists in turn is writing their concatenation |
| GCode.EmitAllDraws | InkscapeToGCode.py:86-92 | the plain writer draws exactly its segments, in order, and ends with the pen up |
| GCode.Round3 | ImageToGCode2.py:152 | `round(v, 3)` is a multiple of 0.001 within 0.0005 of `v` |
| GCode.KeptMember | ImageToGCode2.py:144-145 | a segment is written if and only if it extends at least 0.01 mm along x or along y |
| GCode.Tiny | ImageToGCode2.py:144 | a zero-length segment is always skipped, and a skipped one is shorter than 0.02 mm along x plus y |
| GCode.SegmentCommands | ImageToGCode2.py:147-151 | a kept segment costs four commands, starting with a `G0` to its start, or three when `last_pos` equals its rounded start; the last three are pen down, `G1` to its end, pen up |
| GCode.EmitSkippingLength | ImageToGCode2.py:139-152 | three or four commands per kept segment, and the first is a `G0` to the first kept start |
| GCode.SegmentDraws | ImageToGCode2.py:147-152 | one kept segment draws one segment that ends at its end and starts at a point rounding to the same 0.001 mm position as its start; the pen is then up at its end |
| GCode.EmitSkippingDraws | ImageToGCode2.py:139-152 | the skipping writer draws exactly the kept segments in order, each as above, and ends with the pen up |
| GCode.WriteSegment | ImageToGCode2.py:144-152 | one segment in mm: nothing when tiny, else a `G0` unless `last_pos` matches its rounded start, then pen down, `G1`, pen up, and its rounded end becomes `last_pos` |
| Programs.FullSpacing | ImageToGCode2.py:180 | the spacing is `STEP` in pixels rounded to the nearest pixel, and at least one |
| Programs.ToMmAppend | InkscapeToGCode.py:86-88 | mapping to mm distributes over concatenation |
| Programs.HeadersDrawNothing | InkscapeToGCode.py:83-85 | the header lines draw nothing and leave the pen where it was |
| Programs.GenerateGCodeSkipping | ImageToGCode2.py:132-152 | the writer's output is the 3-line header followed by the skipping writer over the segments mapped to mm |
| Programs.SkippingProgramDraws | ImageToGCode2.py:132-152 | that output draws the mapped segments that are not tiny, in order, each to its exact end, from a start that is exact after a `G0` and otherwise known only to round to the same 0.001 mm position |
| Programs.InkscapeSpacing | InkscapeToGCode.py:76 | the fill spacing is one pixel per 270 of image width, and at least one |
| Programs.EmitMapped | InkscapeToGCode.py:86-92 | the write loop is the plain writer over the segments mapped to mm |
| Programs.InkscapeGCode | InkscapeToGCode.py:74-92 | the output is the header, then the outline's and fill's commands |
| Programs.InkscapeLayout | InkscapeToGCode.py:78-92 | the output has `3 + 4n` lines, the outline's commands come first, and it draws the outline and then the fill |
| Programs.TwoPartStream | InkscapeToGCode.py:80-92 | after the header, two segment lists are written and drawn in turn |
| Programs.EmitMappedUnflipped | ImageToGCode.py:82-91 | one level's write loop is the plain writer over its segments mapped without the flip |
| Programs.MultiLevelGCode | ImageToGCode.py:72-91 | the output is the 2-line header, then the four levels in order |
| Programs.LevelsAreOneStream | ImageToGCode.py:77-91 | the levels' commands are the plain writer over all their segments, level after level |
| Programs.MultiLevelLayout | ImageToGCode.py:72-91 | the output has `2 + 4n` lines and draws the four levels' segments on the page, level after level |

## Left out

- The contour finder (`measure.find_contours`) is not part of this model.
  Its contours, as `(row, col)` points, are an input to
  `Outline.OutlineSegments` and `Programs.InkscapeGCode`.
- Image loading, grayscale conversion, rotation and LANCZOS resampling are
  not modelled. Images are given as rows of 8-bit gray values. `Mapping.FitToPage`
  and `Mapping.ScaledSize` model only the size arithmetic. InkscapeToGCode.py
  defines the same `scale_image` at lines 19-22 but never calls it.
- The GUI, the preview window, the preview-size line lists and file dialogs
  are not modelled. Neither is the composition in `select_image`
  (ImageToGCode2.py 156-218) that picks the generators. Its spacing rule at
  line 180 is `Programs.FullSpacing`.
- Writing files and the `:.2f` text formatting of coordinates are not
  modelled. G-code lines are `GCode.Command` values. The size comment is
  `SizeComment`, without its numbers.
- Floating point is not modelled: all arithmetic is exact. `np.arange`
  accumulation is modelled as exact multiples `k * num / den`. These are
  exact for the spacings 0.5, 1, 1.5 and 2 used by ImageToGCode.py.
- BlockHatch.DensityHatchBlocks: the `block.size == 0` guard
  (ImageToGCode2.py 100-101) has no counterpart. Every block starts inside
  the image, so it is never empty (`BlockHatch.BlockCount`).
- BlockHatch.DensityHatchBlocks: the block size is taken as an integer.
  The script applies `int()` to any number (line 96), but every call passes 4.
- Programs.InkscapeGCode and Programs.MultiLevelGCode require an image
  with at least one pixel on each side. The scripts' `pixel_to_mm` divides
  by the width and height. It runs only for segments, so an image without
  segments never reaches the division. Every call meets the requirement
  anyway: a loaded image has at least one pixel on each side, and resizing
  to a zero side is rejected by the image library.
- Geometry.RoundHalfEven: the contract gives the half-unit bound. The
  tie-to-even rule is the separate lemma `Geometry.RoundHalfEvenTies`.
- GCode.SegmentDraws: when the `G0` is omitted, the drawn start is the
  previous segment's end. That end is only known to round to the same
  0.001 mm position, so the contract states that instead of naming the
  point.
- DiagonalHatch.OffsetLines, DiagonalHatch.WalkColumn, DiagonalHatch.HatchLines:
  these walk the corrected diagonal `x + y == floor(offset)` (`DiagonalHatch.DiagY`),
  not the script's row `int(offset - x)`. The two agree for whole-number
  offsets. Right of a fractional offset, truncation visits column
  `floor(offset) + 1` at row 0 (`DiagonalHatch.AsWrittenExtraCell`). A dark
  cell there lengthens or creates a segment off the diagonal
  (`DiagonalHatch.AsWrittenLongerSegment`). The script's walk is
  `DiagonalHatch.WalkAsWritten`, and only that example is proved about it.
- Programs.MultiLevelGCode: the diagonal hatch uses the corrected row rule
  `DiagonalHatch.DiagY`, not the truncating one (see Findings). Levels 0
  and 2, with spacings 0.5 and 1.5, have fractional offsets, and there the
  model's output differs from the script's.
- Mapping.ScaledSize: one side equals the truncated page side only in
  exact arithmetic. In floating point the product can fall just short:
  a 10 by 47 image on a 148 by 210 page gives `int(47 * (210/47)) == 209`.
  For an extreme aspect ratio one side truncates to zero: a 1 by 1000
  image on a 148 by 210 page gives `(0, 210)`. The contract admits that
  size, while the image library rejects the resize with an error, which
  the model does not represent.
- The standalone `__main__`/GUI builders and `show_preview` are out of scope.

## Findings

| source | as written | input that shows it | evidently intended | confidence | as-written member | corrected member |
|---|---|---|---|---|---|---|
| ImageToGCode.py:37 | `y = int(offset - x)` truncates toward zero. Right of a fractional offset, column `floor(offset)+1` gives `int(-frac) == 0`, so it visits row 0 off the diagonal and extends a run by one horizontal cell | spacing 0.5, offset 2.5 (k = 5), column 3: the row is `int(-0.5) == 0`, although the diagonal `x + y == 2` left the image at column 2. In an all-dark image 4 wide and 3 tall, this turns the segment (0,2)→(2,0) into (0,2)→(3,0) | every visited cell lies on the anti-diagonal `x + y == floor(offset)` | not executed | DiagonalHatch.AsWrittenLongerSegment | DiagonalHatch.OffsetLines |
