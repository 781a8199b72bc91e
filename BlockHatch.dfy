/** Block density hatching (`generate_density_hatch_blocks` in
    ImageToGCode2.py): the image is visited in blocks on a `step` grid, each
    block's darkness is quantised to a number of short parallel strokes, and
    the strokes are spread evenly across the block, horizontal or at 45
    degrees. */
module BlockHatch {
  import opened Geometry

  /** The sum of `row[x0 .. x1 - 1]`. */
  function RowSum(row: seq<int>, x0: int, x1: int): int
    requires 0 <= x0 && x1 <= |row|
    decreases x1 - x0
  {
    if x0 >= x1 then 0 else RowSum(row, x0, x1 - 1) + row[x1 - 1]
  }

  /** The sum of the gray levels of rows `y0 .. y1 - 1`, columns `x0 .. x1 - 1`. */
  function BlockSum(img: seq<seq<int>>, y0: int, y1: int, x0: int, x1: int): int
    requires IsGrayField(img)
    requires 0 <= y0 && y1 <= |img| && 0 <= x0 && x1 <= Width(img)
    decreases y1 - y0
  {
    if y0 >= y1 then 0 else BlockSum(img, y0, y1 - 1, x0, x1) + RowSum(img[y1 - 1], x0, x1)
  }

  lemma {:induction false} RowSumBounds(row: seq<int>, x0: int, x1: int)
    requires 0 <= x0 <= x1 <= |row|
    requires forall x :: 0 <= x < |row| ==> 0 <= row[x] <= 255
    ensures 0 <= RowSum(row, x0, x1) <= 255 * (x1 - x0)
    decreases x1 - x0
  {
    if x0 < x1 {
      RowSumBounds(row, x0, x1 - 1);
    }
  }

  /** Every level is in 0..255, so a block sums to at most 255 per pixel. */
  lemma {:induction false} BlockSumBounds(img: seq<seq<int>>, y0: int, y1: int, x0: int, x1: int)
    requires IsGrayField(img)
    requires 0 <= y0 <= y1 <= |img| && 0 <= x0 <= x1 <= Width(img)
    ensures 0 <= BlockSum(img, y0, y1, x0, x1) <= 255 * ((y1 - y0) * (x1 - x0))
    decreases y1 - y0
  {
    if y0 < y1 {
      BlockSumBounds(img, y0, y1 - 1, x0, x1);
      RowSumBounds(img[y1 - 1], x0, x1);
      assert (y1 - y0) * (x1 - x0) == (y1 - 1 - y0) * (x1 - x0) + (x1 - x0);
    }
  }

  /** The last row (exclusive) of the block starting at `y`, clipped to the
      image as array slicing clips it. */
  function BlockEnd(start: int, bs: int, limit: int): int
  {
    Min(start + bs, limit)
  }

  /** The number of pixels of the block at `(x, y)`: never zero, because the
      block's corner is inside the image. */
  function BlockCount(img: seq<seq<int>>, x: int, y: int, bs: int): (c: int)
    requires 0 <= y < |img| && 0 <= x < Width(img) && bs >= 1
    ensures 1 <= c <= bs * bs
  {
    var dy, dx := BlockEnd(y, bs, |img|) - y, BlockEnd(x, bs, Width(img)) - x;
    CountBounds(dy, dx, bs);
    dy * dx
  }

  lemma CountBounds(dy: int, dx: int, bs: int)
    requires 1 <= dy <= bs && 1 <= dx <= bs
    ensures 1 <= dy * dx <= bs * bs
  {
    assert dy * dx <= bs * dx <= bs * bs;
  }

  /** Blackness `1 - mean(block / 255)` of a block of `count` pixels summing to `sum`. */
  function Blackness(sum: int, count: int): (b: real)
    requires count >= 1 && 0 <= sum <= 255 * count
    ensures 0.0 <= b <= 1.0
  {
    1.0 - sum as real / (255 * count) as real
  }

  /** The number of strokes `int(round(blackness * max_lines))`. */
  function LineCount(b: real, maxLines: int): int
  {
    RoundHalfEven(b * maxLines as real)
  }

  /** The stroke count is the nearest whole number to `blackness * max_lines`. */
  lemma LineCountNearest(b: real, maxLines: int)
    ensures var n := LineCount(b, maxLines) as real;
      b * maxLines as real - 0.5 <= n <= b * maxLines as real + 0.5
  {
  }

  /** For a blackness in `[0, 1]` the stroke count lies in `[0, max_lines]`;
      with no lines allowed, or a negative allowance, a block gets none. */
  lemma LineCountBounds(b: real, maxLines: int)
    requires 0.0 <= b <= 1.0
    ensures maxLines >= 0 ==> 0 <= LineCount(b, maxLines) <= maxLines
    ensures maxLines <= 0 ==> LineCount(b, maxLines) <= 0
  {
    RoundScaledBounds(b, maxLines);
  }

  lemma RoundScaledBounds(b: real, n: int)
    requires 0.0 <= b <= 1.0
    ensures n >= 0 ==> 0 <= RoundHalfEven(b * n as real) <= n
    ensures n <= 0 ==> RoundHalfEven(b * n as real) <= 0
  {
    var v := b * n as real;
    ScaleByFraction(b, n as real);
    if n >= 0 {
      RoundBetween(v, 0, n);
    } else {
      RoundBetween(v, v.Floor, 0);
    }
  }

  lemma ScaleByFraction(b: real, l: real)
    requires 0.0 <= b <= 1.0
    ensures l >= 0.0 ==> 0.0 <= b * l <= l
    ensures l <= 0.0 ==> b * l <= 0.0
  {
    if l >= 0.0 {
      assert b * l <= 1.0 * l;
    }
  }

  /** More blackness never means fewer strokes. */
  lemma LineCountMonotone(u: real, v: real, maxLines: int)
    requires u <= v && maxLines >= 0
    ensures LineCount(u, maxLines) <= LineCount(v, maxLines)
  {
    RoundScaledMonotone(u, v, maxLines);
  }

  lemma RoundScaledMonotone(u: real, v: real, n: int)
    requires u <= v && n >= 0
    ensures RoundHalfEven(u * n as real) <= RoundHalfEven(v * n as real)
  {
    ScaleMonotone(u, v, n as real);
    RoundHalfEvenMonotone(u * n as real, v * n as real);
  }

  lemma ScaleMonotone(u: real, v: real, l: real)
    requires u <= v && l >= 0.0
    ensures u * l <= v * l
  {
    assert v * l - u * l == (v - u) * l;
  }

  /** The mean level `sum / count` of the first block is at most that of the
      second exactly when its blackness is at least the second's. */
  lemma MeanOrder(sum1: int, count1: int, sum2: int, count2: int)
    requires count1 >= 1 && 0 <= sum1 <= 255 * count1
    requires count2 >= 1 && 0 <= sum2 <= 255 * count2
    requires sum1 * count2 <= sum2 * count1
    ensures Blackness(sum2, count2) <= Blackness(sum1, count1)
  {
    var c1, c2 := (255 * count1) as real, (255 * count2) as real;
    var p, q := CrossProducts(sum1, count1, sum2, count2);
    FractionOrder(sum1 as real, c1, sum2 as real, c2);
  }

  /** The cross products of the means' numerators and denominators, as reals. */
  lemma CrossProducts(sum1: int, count1: int, sum2: int, count2: int) returns (p: real, q: real)
    requires sum1 * count2 <= sum2 * count1
    ensures p == sum1 as real * (255 * count2) as real && q == sum2 as real * (255 * count1) as real
    ensures p <= q
  {
    p, q := sum1 as real * (255 * count2) as real, sum2 as real * (255 * count1) as real;
    assert p == (sum1 * count2) as real * 255.0;
    assert q == (sum2 * count1) as real * 255.0;
  }

  /** Cross-multiplication orders two fractions with positive denominators. */
  lemma FractionOrder(a: real, b: real, c: real, d: real)
    requires b > 0.0 && d > 0.0 && a * d <= c * b
    ensures a / b <= c / d
  {
    var bd := b * d;
    assert bd > 0.0;
    assert c / d - a / b == (c * b - a * d) / bd;
    assert (c * b - a * d) / bd >= 0.0;
  }

  /** A darker block (lower mean level) never gets fewer strokes than a lighter one. */
  lemma DarkerBlockMoreLines(sum1: int, count1: int, sum2: int, count2: int, maxLines: int)
    requires count1 >= 1 && 0 <= sum1 <= 255 * count1
    requires count2 >= 1 && 0 <= sum2 <= 255 * count2
    requires maxLines >= 0
    requires sum1 * count2 <= sum2 * count1
    ensures LineCount(Blackness(sum1, count1), maxLines) >= LineCount(Blackness(sum2, count2), maxLines)
  {
    MeanOrder(sum1, count1, sum2, count2);
    LineCountMonotone(Blackness(sum2, count2), Blackness(sum1, count1), maxLines);
  }

  /** A white block gets no strokes, a black block all of them. */
  lemma BlankAndSolidBlocks(count: int, maxLines: int)
    requires count >= 1
    ensures LineCount(Blackness(255 * count, count), maxLines) == 0
    ensures LineCount(Blackness(0, count), maxLines) == maxLines
  {
    assert Blackness(255 * count, count) == 0.0;
    assert Blackness(0, count) == 1.0;
    RoundOfInteger(0);
    RoundOfInteger(maxLines);
  }

  /** The strokes of a block are placed at `(i + 0.5) * (bs / max_lines)` below its top. */
  function LineOffset(i: int, bs: int, maxLines: int): real
    requires maxLines != 0
  {
    (i as real + 0.5) * (bs as real / maxLines as real)
  }

  /** Stroke `i` sits in the middle of the `i`-th of `max_lines` equal bands
      of the block. */
  lemma LineOffsetMidBand(i: int, bs: int, maxLines: int)
    requires maxLines != 0
    ensures var band := bs as real / maxLines as real;
      LineOffset(i, bs, maxLines) == (i as real * band + (i + 1) as real * band) / 2.0
  {
  }

  /** A stroke starts at `(x, y + off)`, spans `step` columns, and is
      horizontal, or falls at 45 degrees when diagonal. */
  lemma StrokeShape(x: int, y: int, step: int, off: real, diagonal: bool)
    ensures var s := Stroke(x, y, step, off, diagonal);
      && s.start == Point(x as real, y as real + off)
      && s.end.x - s.start.x == step as real
      && (diagonal ==> s.end.y - s.start.y == s.end.x - s.start.x)
      && (!diagonal ==> s.end.y == s.start.y)
  {
  }

  /** Stroke `i < max_lines` lies strictly inside the block. */
  lemma OffsetInsideBlock(i: int, bs: int, maxLines: int)
    requires 0 <= i < maxLines && bs >= 1
    ensures 0.0 < LineOffset(i, bs, maxLines) < bs as real
  {
    var l := maxLines as real;
    var q := bs as real / l;
    assert q > 0.0 && l * q == bs as real;
    StrictScale(i as real + 0.5, l, q);
  }

  lemma StrictScale(u: real, v: real, q: real)
    requires 0.0 < u < v && q > 0.0
    ensures 0.0 < u * q < v * q
  {
  }

  /** One stroke: from `(x, y + off)` across `step` columns, and down `step`
      rows as well when hatching diagonally. */
  function Stroke(x: int, y: int, step: int, off: real, diagonal: bool): Segment
  {
    var y0 := y as real + off;
    Segment(Point(x as real, y0), Point((x + step) as real, if diagonal then y0 + step as real else y0))
  }

  /** The stroke count of the `bs` by `bs` block at `(x, y)`. */
  function BlockLines(img: seq<seq<int>>, x: int, y: int, bs: int, maxLines: int): int
    requires IsGrayField(img) && 0 <= y < |img| && 0 <= x < Width(img) && bs >= 1
  {
    var y1, x1 := BlockEnd(y, bs, |img|), BlockEnd(x, bs, Width(img));
    BlockSumBounds(img, y, y1, x, x1);
    LineCount(Blackness(BlockSum(img, y, y1, x, x1), BlockCount(img, x, y, bs)), maxLines)
  }

  /** The strokes of the block at `(x, y)`, top to bottom; none when the count is not positive. */
  function BlockStrokes(img: seq<seq<int>>, x: int, y: int, step: int, bs: int, maxLines: int, diagonal: bool)
    : seq<Segment>
    requires IsGrayField(img) && 0 <= y < |img| && 0 <= x < Width(img) && bs >= 1
  {
    var num := BlockLines(img, x, y, bs, maxLines);
    if num <= 0 then []
    else
      NonZeroLines(img, x, y, bs, maxLines);
      seq(num, i requires 0 <= i < num => Stroke(x, y, step, LineOffset(i, bs, maxLines), diagonal))
  }

  /** A block with strokes has a positive allowance, and at most that many strokes. */
  lemma NonZeroLines(img: seq<seq<int>>, x: int, y: int, bs: int, maxLines: int)
    requires IsGrayField(img) && 0 <= y < |img| && 0 <= x < Width(img) && bs >= 1
    requires BlockLines(img, x, y, bs, maxLines) > 0
    ensures 0 < BlockLines(img, x, y, bs, maxLines) <= maxLines
  {
    var y1, x1 := BlockEnd(y, bs, |img|), BlockEnd(x, bs, Width(img));
    BlockSumBounds(img, y, y1, x, x1);
    LineCountBounds(Blackness(BlockSum(img, y, y1, x, x1), BlockCount(img, x, y, bs)), maxLines);
  }

  /** Every stroke of a block is stroke `i` for some `i` below its count. */
  lemma BlockStrokesAt(img: seq<seq<int>>, x: int, y: int, step: int, bs: int, maxLines: int, diagonal: bool,
                       s: Segment) returns (i: int)
    requires IsGrayField(img) && 0 <= y < |img| && 0 <= x < Width(img) && bs >= 1
    requires s in BlockStrokes(img, x, y, step, bs, maxLines, diagonal)
    ensures 0 <= i < BlockLines(img, x, y, bs, maxLines) <= maxLines
    ensures s == Stroke(x, y, step, LineOffset(i, bs, maxLines), diagonal)
  {
    var here := BlockStrokes(img, x, y, step, bs, maxLines, diagonal);
    NonZeroLines(img, x, y, bs, maxLines);
    i :| 0 <= i < |here| && here[i] == s;
  }

  /** Every stroke `i` below a block's count is one of its strokes. */
  lemma BlockStrokesHas(img: seq<seq<int>>, x: int, y: int, step: int, bs: int, maxLines: int, diagonal: bool,
                        i: int)
    requires IsGrayField(img) && 0 <= y < |img| && 0 <= x < Width(img) && bs >= 1
    requires 0 <= i < BlockLines(img, x, y, bs, maxLines)
    ensures maxLines > 0
    ensures Stroke(x, y, step, LineOffset(i, bs, maxLines), diagonal) in BlockStrokes(img, x, y, step, bs, maxLines, diagonal)
  {
    NonZeroLines(img, x, y, bs, maxLines);
    assert BlockStrokes(img, x, y, step, bs, maxLines, diagonal)[i] == Stroke(x, y, step, LineOffset(i, bs, maxLines), diagonal);
  }

  /** Reference definition of one block row: blocks `x, x + step, ...` left to right. */
  function RowBlocks(img: seq<seq<int>>, y: int, x: nat, step: int, bs: int, maxLines: int, diagonal: bool)
    : seq<Segment>
    requires IsGrayField(img) && 0 <= y < |img| && step >= 1 && bs >= 1
    decreases Width(img) - x
  {
    if x >= Width(img) then []
    else BlockStrokes(img, x, y, step, bs, maxLines, diagonal) + RowBlocks(img, y, x + step, step, bs, maxLines, diagonal)
  }

  /** Reference definition of the whole hatch: block rows `y, y + step, ...`
      top to bottom, so blocks come in row-major order. */
  function AllBlocks(img: seq<seq<int>>, y: nat, step: int, bs: int, maxLines: int, diagonal: bool)
    : seq<Segment>
    requires IsGrayField(img) && step >= 1 && bs >= 1
    decreases |img| - y
  {
    if y >= |img| then []
    else RowBlocks(img, y, 0, step, bs, maxLines, diagonal) + AllBlocks(img, y + step, step, bs, maxLines, diagonal)
  }

  /** Emitting the strokes of block `x` moves a row scan on to block `x + step`. */
  lemma RowBlocksStep(img: seq<seq<int>>, y: int, x: nat, step: int, bs: int, maxLines: int, diagonal: bool,
                      done: seq<Segment>, strokes: seq<Segment>, total: seq<Segment>)
    requires IsGrayField(img) && 0 <= y < |img| && x < Width(img) && step >= 1 && bs >= 1
    requires strokes == BlockStrokes(img, x, y, step, bs, maxLines, diagonal)
    requires done + RowBlocks(img, y, x, step, bs, maxLines, diagonal) == total
    ensures (done + strokes) + RowBlocks(img, y, x + step, step, bs, maxLines, diagonal) == total
  {
    var rest := RowBlocks(img, y, x + step, step, bs, maxLines, diagonal);
    assert RowBlocks(img, y, x, step, bs, maxLines, diagonal) == strokes + rest;
    assert done + (strokes + rest) == (done + strokes) + rest;
  }

  /** Emitting block row `y` moves the whole scan on to row `y + step`. */
  lemma AllBlocksStep(img: seq<seq<int>>, y: nat, step: int, bs: int, maxLines: int, diagonal: bool,
                      done: seq<Segment>, row: seq<Segment>, total: seq<Segment>)
    requires IsGrayField(img) && y < |img| && step >= 1 && bs >= 1
    requires row == RowBlocks(img, y, 0, step, bs, maxLines, diagonal)
    requires done + AllBlocks(img, y, step, bs, maxLines, diagonal) == total
    ensures (done + row) + AllBlocks(img, y + step, step, bs, maxLines, diagonal) == total
  {
    var rest := AllBlocks(img, y + step, step, bs, maxLines, diagonal);
    assert AllBlocks(img, y, step, bs, maxLines, diagonal) == row + rest;
    assert done + (row + rest) == (done + row) + rest;
  }

  /** One iteration of the block loop: the block's strokes, top to bottom. */
  method HatchBlock(img: seq<seq<int>>, x: int, y: int, step: int, bs: int, maxLines: int, diagonal: bool)
    returns (strokes: seq<Segment>)
    requires IsGrayField(img) && 0 <= y < |img| && 0 <= x < Width(img) && bs >= 1
    ensures strokes == BlockStrokes(img, x, y, step, bs, maxLines, diagonal)
  {
    var num := BlockLines(img, x, y, bs, maxLines);
    strokes := [];
    if num <= 0 {
      return;
    }
    NonZeroLines(img, x, y, bs, maxLines);
    ghost var all := BlockStrokes(img, x, y, step, bs, maxLines, diagonal);
    var i := 0;
    while i < num
      invariant 0 <= i <= num == |all|
      invariant strokes == all[..i]
    {
      var offset := LineOffset(i, bs, maxLines);
      strokes := strokes + [Stroke(x, y, step, offset, diagonal)];
      i := i + 1;
    }
    assert all[..num] == all;
  }

  /** One block row: the blocks at `x = 0, step, 2 * step, ...` left to right. */
  method HatchRow(img: seq<seq<int>>, y: int, step: int, bs: int, maxLines: int, diagonal: bool)
    returns (row: seq<Segment>)
    requires IsGrayField(img) && 0 <= y < |img| && step >= 1 && bs >= 1
    ensures row == RowBlocks(img, y, 0, step, bs, maxLines, diagonal)
  {
    row := [];
    var x := 0;
    ghost var total := RowBlocks(img, y, 0, step, bs, maxLines, diagonal);
    while x < Width(img)
      invariant x >= 0
      invariant row + RowBlocks(img, y, x, step, bs, maxLines, diagonal) == total
      decreases Width(img) - x
    {
      var strokes := HatchBlock(img, x, y, step, bs, maxLines, diagonal);
      RowBlocksStep(img, y, x, step, bs, maxLines, diagonal, row, strokes, total);
      row := row + strokes;
      x := x + step;
    }
  }

  /** The block rows at `y = 0, step, 2 * step, ...`, top to bottom. */
  method HatchRows(img: seq<seq<int>>, step: int, bs: int, maxLines: int, diagonal: bool)
    returns (lines: seq<Segment>)
    requires IsGrayField(img) && step >= 1 && bs >= 1
    ensures lines == AllBlocks(img, 0, step, bs, maxLines, diagonal)
  {
    lines := [];
    var y: nat := 0;
    ghost var total := AllBlocks(img, 0, step, bs, maxLines, diagonal);
    while y < |img|
      invariant lines + AllBlocks(img, y, step, bs, maxLines, diagonal) == total
      decreases |img| - y
    {
      lines := AppendRow(img, y, step, bs, maxLines, diagonal, lines, total);
      y := y + step;
    }
    AllBlocksDone(img, y, step, bs, maxLines, diagonal, lines, total);
  }

  /** `lines.append(...)` for every stroke of block row `y`: the scan moves
      on to row `y + step`. */
  method AppendRow(img: seq<seq<int>>, y: nat, step: int, bs: int, maxLines: int, diagonal: bool,
                   lines: seq<Segment>, ghost total: seq<Segment>)
    returns (lines': seq<Segment>)
    requires IsGrayField(img) && y < |img| && step >= 1 && bs >= 1
    requires lines + AllBlocks(img, y, step, bs, maxLines, diagonal) == total
    ensures lines' + AllBlocks(img, y + step, step, bs, maxLines, diagonal) == total
  {
    var row := HatchRow(img, y, step, bs, maxLines, diagonal);
    AllBlocksStep(img, y, step, bs, maxLines, diagonal, lines, row, total);
    lines' := lines + row;
  }

  /** Past the bottom edge no block row is left. */
  lemma AllBlocksDone(img: seq<seq<int>>, y: nat, step: int, bs: int, maxLines: int, diagonal: bool,
                      done: seq<Segment>, total: seq<Segment>)
    requires IsGrayField(img) && y >= |img| && step >= 1 && bs >= 1
    requires done + AllBlocks(img, y, step, bs, maxLines, diagonal) == total
    ensures done == total
  {
    assert done + [] == done;
  }

  /** `generate_density_hatch_blocks(img, step_px, max_lines, diagonal, block_size)`:
      `step = max(1, int(step_px))`, `bs = max(1, int(block_size))`, then the
      block rows top to bottom. */
  method DensityHatchBlocks(img: seq<seq<int>>, stepPx: real, maxLines: int, diagonal: bool, blockSize: int)
    returns (lines: seq<Segment>)
    requires IsGrayField(img)
    ensures lines == AllBlocks(img, 0, SampleStep(stepPx), Max(1, blockSize), maxLines, diagonal)
  {
    var step := SampleStep(stepPx);
    var bs := Max(1, blockSize);
    lines := HatchRows(img, step, bs, maxLines, diagonal);
  }

  /** Strokes of one block come top to bottom, strictly. */
  lemma OffsetsIncrease(i: int, j: int, bs: int, maxLines: int)
    requires 0 <= i < j && bs >= 1 && maxLines > 0
    ensures LineOffset(i, bs, maxLines) < LineOffset(j, bs, maxLines)
  {
    var q := bs as real / maxLines as real;
    assert q > 0.0;
    StrictScale(i as real + 0.5, j as real + 0.5, q);
  }

  /** A stroke of a block starts on the block's left edge, strictly between
      its top and bottom, and spans `step` columns. */
  lemma StrokeInsideBlock(x: int, y: int, step: int, i: int, bs: int, maxLines: int, diagonal: bool)
    requires 0 <= i < maxLines && bs >= 1
    ensures var s := Stroke(x, y, step, LineOffset(i, bs, maxLines), diagonal);
      && s.start.x == x as real && s.end.x == (x + step) as real
      && y as real < s.start.y < (y + bs) as real
      && s.end.y == s.start.y + (if diagonal then step as real else 0.0)
  {
    OffsetInsideBlock(i, bs, maxLines);
  }

  /** `x` is reached from `x0` by whole steps of `step`. */
  predicate OnGrid(x0: int, x: int, step: int)
    requires step >= 1
    decreases x - x0
  {
    x0 == x || (x0 < x && OnGrid(x0 + step, x, step))
  }

  /** The grid is the set of `x0 + k * step`, `k >= 0`. */
  lemma {:induction false} OnGridMultiple(x0: int, x: int, step: int) returns (k: nat)
    requires step >= 1 && OnGrid(x0, x, step)
    ensures x == x0 + k * step
    decreases x - x0
  {
    if x0 == x {
      k := 0;
    } else {
      var k' := OnGridMultiple(x0 + step, x, step);
      k := k' + 1;
      assert x0 + k * step == x0 + step + k' * step;
    }
  }

  lemma {:induction false} MultipleOnGrid(x0: int, k: nat, step: int)
    requires step >= 1
    ensures OnGrid(x0, x0 + k * step, step)
    decreases k
  {
    if k > 0 {
      assert x0 + k * step == (x0 + step) + (k - 1) * step;
      MultipleOnGrid(x0 + step, k - 1, step);
    }
  }

  /** Every stroke of a block row is stroke `i` of a block whose column is on
      the `step` grid from `x0`, with `i` below the block's stroke count. */
  lemma {:induction false} RowBlocksMember(img: seq<seq<int>>, y: int, x0: nat, step: int, bs: int, maxLines: int,
                                          diagonal: bool, s: Segment) returns (x: int, i: int)
    requires IsGrayField(img) && 0 <= y < |img| && step >= 1 && bs >= 1
    requires s in RowBlocks(img, y, x0, step, bs, maxLines, diagonal)
    ensures x0 <= x < Width(img) && OnGrid(x0, x, step)
    ensures 0 <= i < BlockLines(img, x, y, bs, maxLines) <= maxLines
    ensures s == Stroke(x, y, step, LineOffset(i, bs, maxLines), diagonal)
    decreases Width(img) - x0
  {
    var here := BlockStrokes(img, x0, y, step, bs, maxLines, diagonal);
    assert RowBlocks(img, y, x0, step, bs, maxLines, diagonal) == here + RowBlocks(img, y, x0 + step, step, bs, maxLines, diagonal);
    if s in here {
      x := x0;
      i := BlockStrokesAt(img, x0, y, step, bs, maxLines, diagonal, s);
    } else {
      x, i := RowBlocksMember(img, y, x0 + step, step, bs, maxLines, diagonal, s);
    }
  }

  /** Conversely, every stroke of every grid block of the row appears in it. */
  lemma {:induction false} RowBlocksInclude(img: seq<seq<int>>, y: int, x0: nat, step: int, bs: int, maxLines: int,
                                           diagonal: bool, x: int, i: int)
    requires IsGrayField(img) && 0 <= y < |img| && step >= 1 && bs >= 1
    requires x < Width(img) && OnGrid(x0, x, step)
    requires 0 <= i < BlockLines(img, x, y, bs, maxLines)
    ensures maxLines > 0
    ensures Stroke(x, y, step, LineOffset(i, bs, maxLines), diagonal) in RowBlocks(img, y, x0, step, bs, maxLines, diagonal)
    decreases x - x0
  {
    var here := BlockStrokes(img, x0, y, step, bs, maxLines, diagonal);
    assert RowBlocks(img, y, x0, step, bs, maxLines, diagonal) == here + RowBlocks(img, y, x0 + step, step, bs, maxLines, diagonal);
    if x == x0 {
      BlockStrokesHas(img, x, y, step, bs, maxLines, diagonal, i);
    } else {
      RowBlocksInclude(img, y, x0 + step, step, bs, maxLines, diagonal, x, i);
    }
  }

  /** Every stroke of the hatch is stroke `i` of a grid block: its corner
      `(x, y)` lies inside the image on the `step` grid, and `i` is below the
      block's stroke count, which is at most `max_lines`. */
  lemma {:induction false} AllBlocksMember(img: seq<seq<int>>, y0: nat, step: int, bs: int, maxLines: int,
                                          diagonal: bool, s: Segment) returns (x: int, y: int, i: int)
    requires IsGrayField(img) && step >= 1 && bs >= 1
    requires s in AllBlocks(img, y0, step, bs, maxLines, diagonal)
    ensures 0 <= x < Width(img) && OnGrid(0, x, step) && y0 <= y < |img| && OnGrid(y0, y, step)
    ensures 0 <= i < BlockLines(img, x, y, bs, maxLines) <= maxLines
    ensures s == Stroke(x, y, step, LineOffset(i, bs, maxLines), diagonal)
    decreases |img| - y0
  {
    var row := RowBlocks(img, y0, 0, step, bs, maxLines, diagonal);
    assert AllBlocks(img, y0, step, bs, maxLines, diagonal) == row + AllBlocks(img, y0 + step, step, bs, maxLines, diagonal);
    if s in row {
      y := y0;
      x, i := RowBlocksMember(img, y0, 0, step, bs, maxLines, diagonal, s);
    } else {
      x, y, i := AllBlocksMember(img, y0 + step, step, bs, maxLines, diagonal, s);
    }
  }

  /** Conversely, every stroke of every grid block is in the hatch. */
  lemma {:induction false} AllBlocksInclude(img: seq<seq<int>>, y0: nat, step: int, bs: int, maxLines: int,
                                           diagonal: bool, x: int, y: int, i: int)
    requires IsGrayField(img) && step >= 1 && bs >= 1
    requires 0 <= x < Width(img) && OnGrid(0, x, step) && y < |img| && OnGrid(y0, y, step)
    requires 0 <= i < BlockLines(img, x, y, bs, maxLines)
    ensures maxLines > 0
    ensures Stroke(x, y, step, LineOffset(i, bs, maxLines), diagonal) in AllBlocks(img, y0, step, bs, maxLines, diagonal)
    decreases y - y0
  {
    NonZeroLines(img, x, y, bs, maxLines);
    var row := RowBlocks(img, y0, 0, step, bs, maxLines, diagonal);
    assert AllBlocks(img, y0, step, bs, maxLines, diagonal) == row + AllBlocks(img, y0 + step, step, bs, maxLines, diagonal);
    if y == y0 {
      RowBlocksInclude(img, y, 0, step, bs, maxLines, diagonal, x, i);
    } else {
      AllBlocksInclude(img, y0 + step, step, bs, maxLines, diagonal, x, y, i);
    }
  }
}
