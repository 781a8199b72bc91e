/** Page fitting and the pixel-to-millimetre coordinate maps of the three
    scripts.  All arithmetic is exact (`real`); the scripts compute it in
    floating point. */
module Mapping {
  import opened Geometry

  /** `pixel_to_mm` of ImageToGCode2.py and InkscapeToGCode.py: independent x
      and y scales, and a vertical flip so that image row 0 (the top) lands
      on the top edge of the printed area and the origin is bottom-left. */
  function PixelToMm(p: Point, imgW: int, imgH: int, printedW: real, printedH: real): Point
    requires imgW > 0 && imgH > 0
  {
    Point(p.x * (printedW / imgW as real), (imgH as real - p.y) * (printedH / imgH as real))
  }

  /** A point of the image lands inside the printed area. */
  lemma PixelToMmInside(p: Point, imgW: int, imgH: int, printedW: real, printedH: real)
    requires imgW > 0 && imgH > 0 && printedW >= 0.0 && printedH >= 0.0
    requires 0.0 <= p.x <= imgW as real && 0.0 <= p.y <= imgH as real
    ensures var q := PixelToMm(p, imgW, imgH, printedW, printedH);
      0.0 <= q.x <= printedW && 0.0 <= q.y <= printedH
  {
    ScaleWithin(p.x, imgW as real, printedW);
    ScaleWithin(imgH as real - p.y, imgH as real, printedH);
  }

  /** A point of the image lands inside the page, row 0 on the `y = 0` edge. */
  lemma PixelToMmUnflippedInside(p: Point, imgW: int, imgH: int, pageW: real, pageH: real)
    requires imgW > 0 && imgH > 0 && pageW >= 0.0 && pageH >= 0.0
    requires 0.0 <= p.x <= imgW as real && 0.0 <= p.y <= imgH as real
    ensures var q := PixelToMmUnflipped(p, imgW, imgH, pageW, pageH);
      0.0 <= q.x <= pageW && 0.0 <= q.y <= pageH
  {
    ScaleWithin(p.x, imgW as real, pageW);
    ScaleWithin(p.y, imgH as real, pageH);
  }

  /** A coordinate within `[0, n]` scaled by `m / n` lies within `[0, m]`. */
  lemma ScaleWithin(t: real, n: real, m: real)
    requires n > 0.0
    ensures 0.0 <= t <= n && 0.0 <= m ==> 0.0 <= t * (m / n) <= m
  {
    if 0.0 <= t <= n && 0.0 <= m {
      var k := m / n;
      assert k >= 0.0 && n * k == m;
      assert t * k <= n * k;
    }
  }

  /** The inverse map, from the printed area back to pixel coordinates. */
  function MmToPixel(q: Point, imgW: int, imgH: int, printedW: real, printedH: real): Point
    requires imgW > 0 && imgH > 0 && printedW > 0.0 && printedH > 0.0
  {
    Point(q.x * (imgW as real / printedW), imgH as real - q.y * (imgH as real / printedH))
  }

  /** The corners of the image land on the corners of the printed area, with y flipped. */
  lemma PixelToMmCorners(imgW: int, imgH: int, printedW: real, printedH: real)
    requires imgW > 0 && imgH > 0
    ensures PixelToMm(Point(0.0, 0.0), imgW, imgH, printedW, printedH) == Point(0.0, printedH)
    ensures PixelToMm(Point(imgW as real, imgH as real), imgW, imgH, printedW, printedH) == Point(printedW, 0.0)
  {
  }

  /** Going to millimetres and back recovers the pixel coordinate, and conversely. */
  lemma PixelToMmRoundTrip(p: Point, q: Point, imgW: int, imgH: int, printedW: real, printedH: real)
    requires imgW > 0 && imgH > 0 && printedW > 0.0 && printedH > 0.0
    ensures MmToPixel(PixelToMm(p, imgW, imgH, printedW, printedH), imgW, imgH, printedW, printedH) == p
    ensures PixelToMm(MmToPixel(q, imgW, imgH, printedW, printedH), imgW, imgH, printedW, printedH) == q
  {
    var w, h := imgW as real, imgH as real;
    Reciprocal(printedW, w);
    Reciprocal(printedH, h);
    assert p.x * (printedW / w) * (w / printedW) == p.x * ((printedW / w) * (w / printedW));
    assert (h - p.y) * (printedH / h) * (h / printedH) == (h - p.y) * ((printedH / h) * (h / printedH));
    assert q.x * (w / printedW) * (printedW / w) == q.x * ((printedW / w) * (w / printedW));
    assert q.y * (h / printedH) * (printedH / h) == q.y * ((printedH / h) * (h / printedH));
  }

  lemma Reciprocal(a: real, b: real)
    requires a > 0.0 && b > 0.0
    ensures (a / b) * (b / a) == 1.0
  {
  }

  /** Moving down the image moves down the page: the flip reverses the order
      of rows, and columns keep their order. */
  lemma PixelToMmOrder(p: Point, p': Point, imgW: int, imgH: int, printedW: real, printedH: real)
    requires imgW > 0 && imgH > 0 && printedW > 0.0 && printedH > 0.0
    ensures p.x <= p'.x ==> PixelToMm(p, imgW, imgH, printedW, printedH).x <= PixelToMm(p', imgW, imgH, printedW, printedH).x
    ensures p.y <= p'.y ==> PixelToMm(p, imgW, imgH, printedW, printedH).y >= PixelToMm(p', imgW, imgH, printedW, printedH).y
  {
    var sx, sy := printedW / imgW as real, printedH / imgH as real;
    var h := imgH as real;
    assert PixelToMm(p, imgW, imgH, printedW, printedH) == Point(p.x * sx, (h - p.y) * sy);
    assert PixelToMm(p', imgW, imgH, printedW, printedH) == Point(p'.x * sx, (h - p'.y) * sy);
    if p.x <= p'.x {
      ScaleMonotone(p.x, p'.x, sx);
    }
    if p.y <= p'.y {
      ScaleMonotone(h - p'.y, h - p.y, sy);
    }
  }

  lemma ScaleMonotone(u: real, v: real, k: real)
    requires u <= v && k >= 0.0
    ensures u * k <= v * k
  {
    assert (v - u) * k >= 0.0;
  }

  /** `pixel_to_mm` of ImageToGCode.py: the same independent scales, no flip. */
  function PixelToMmUnflipped(p: Point, imgW: int, imgH: int, pageW: real, pageH: real): Point
    requires imgW > 0 && imgH > 0
  {
    Point(p.x * (pageW / imgW as real), p.y * (pageH / imgH as real))
  }

  /** The unflipped map agrees with the flipped one in x and mirrors it in y:
      image row 0 lands on the page's y = 0 edge. */
  lemma UnflippedIsMirrored(p: Point, imgW: int, imgH: int, pageW: real, pageH: real)
    requires imgW > 0 && imgH > 0
    ensures PixelToMmUnflipped(p, imgW, imgH, pageW, pageH).x == PixelToMm(p, imgW, imgH, pageW, pageH).x
    ensures PixelToMmUnflipped(p, imgW, imgH, pageW, pageH).y == pageH - PixelToMm(p, imgW, imgH, pageW, pageH).y
    ensures PixelToMmUnflipped(Point(0.0, 0.0), imgW, imgH, pageW, pageH) == Point(0.0, 0.0)
  {
    var h := imgH as real;
    calc {
      pageH - (h - p.y) * (pageH / h);
      pageH - h * (pageH / h) + p.y * (pageH / h);
      p.y * (pageH / h);
    }
  }

  /** The printed layout chosen by `scale_and_rotate_image_to_mm`: pixel size
      after the optional quarter turn, printed size in mm, mm per pixel. */
  datatype Layout = Layout(w: int, h: int, printedW: real, printedH: real, scale: real, rotated: bool)

  function MinReal(a: real, b: real): real { if a <= b then a else b }

  /** Turn a landscape image to portrait on a portrait page, then scale it
      uniformly so that it fits the page with one side touching the limit. */
  function FitToPage(w0: int, h0: int, maxW: real, maxH: real): (l: Layout)
    requires w0 > 0 && h0 > 0 && maxW > 0.0 && maxH > 0.0
    ensures l.rotated <==> (w0 > h0 && maxW < maxH)
    ensures l.rotated ==> l.w == h0 && l.h == w0
    ensures !l.rotated ==> l.w == w0 && l.h == h0
    ensures l.scale > 0.0
    ensures l.printedW == l.w as real * l.scale && l.printedH == l.h as real * l.scale
    ensures l.printedW <= maxW && l.printedH <= maxH
    ensures l.printedW == maxW || l.printedH == maxH
    ensures l.printedW * l.h as real == l.printedH * l.w as real
  {
    var rotated := w0 > h0 && maxW < maxH;
    if rotated then Fit(h0, w0, maxW, maxH, true) else Fit(w0, h0, maxW, maxH, false)
  }

  /** The uniform fit of a `w` by `h` image, already in its final orientation. */
  function Fit(w: int, h: int, maxW: real, maxH: real, rotated: bool): (l: Layout)
    requires w > 0 && h > 0 && maxW > 0.0 && maxH > 0.0
    ensures l.w == w && l.h == h && l.rotated == rotated
    ensures l.scale > 0.0
    ensures l.printedW == l.w as real * l.scale && l.printedH == l.h as real * l.scale
    ensures l.printedW <= maxW && l.printedH <= maxH
    ensures l.printedW == maxW || l.printedH == maxH
    ensures l.printedW * l.h as real == l.printedH * l.w as real
  {
    var s := MinReal(maxW / w as real, maxH / h as real);
    FitScaleBounds(w as real, h as real, maxW, maxH);
    FitScalePositive(w as real, h as real, maxW, maxH);
    SameScale(w as real, h as real, s);
    Layout(w, h, w as real * s, h as real * s, s, rotated)
  }

  lemma FitScaleBounds(w: real, h: real, maxW: real, maxH: real)
    requires w > 0.0 && h > 0.0 && maxW > 0.0 && maxH > 0.0
    ensures var s := MinReal(maxW / w, maxH / h);
      && w * s <= maxW && h * s <= maxH
      && (w * s == maxW || h * s == maxH)
  {
    var s := MinReal(maxW / w, maxH / h);
    if maxW / w <= maxH / h {
      assert w * s == maxW;
      assert h * s <= h * (maxH / h) == maxH;
    } else {
      assert h * s == maxH;
      assert w * s <= w * (maxW / w) == maxW;
    }
  }

  /** The pixel size `scale_image` resizes to: `int(w * scale)` by `int(h * scale)`
      with the uniform scale that fits the page. */
  function ScaledSize(w: int, h: int, maxW: real, maxH: real): (size: (int, int))
    requires w > 0 && h > 0 && maxW > 0.0 && maxH > 0.0
    ensures 0 <= size.0 && size.0 as real <= maxW
    ensures 0 <= size.1 && size.1 as real <= maxH
    ensures size.0 == Trunc(maxW) || size.1 == Trunc(maxH)
  {
    var s := MinReal(maxW / w as real, maxH / h as real);
    FitScaleBounds(w as real, h as real, maxW, maxH);
    (Trunc(w as real * s), Trunc(h as real * s))
  }

  /** The resized image keeps the original aspect ratio up to the one pixel
      that truncation can lose on each side: `W / H` and `w / h` differ by
      less than one pixel's worth, `-h < W * h - H * w < w`. */
  lemma ScaledSizeKeepsRatio(w: int, h: int, maxW: real, maxH: real)
    requires w > 0 && h > 0 && maxW > 0.0 && maxH > 0.0
    ensures var size := ScaledSize(w, h, maxW, maxH);
      -h < size.0 * h - size.1 * w < w
  {
    var s := ScaledSizeUnfold(w, h, maxW, maxH);
    ScaledRatio(w, h, s, ScaledSize(w, h, maxW, maxH));
  }

  lemma ScaledSizeUnfold(w: int, h: int, maxW: real, maxH: real) returns (s: real)
    requires w > 0 && h > 0 && maxW > 0.0 && maxH > 0.0
    ensures s > 0.0
    ensures ScaledSize(w, h, maxW, maxH).0 == Trunc(w as real * s)
    ensures ScaledSize(w, h, maxW, maxH).1 == Trunc(h as real * s)
  {
    s := MinReal(maxW / w as real, maxH / h as real);
    FitScalePositive(w as real, h as real, maxW, maxH);
  }

  lemma FitScalePositive(w: real, h: real, maxW: real, maxH: real)
    requires w > 0.0 && h > 0.0 && maxW > 0.0 && maxH > 0.0
    ensures MinReal(maxW / w, maxH / h) > 0.0
  {
  }

  lemma ScaledRatio(w: int, h: int, s: real, size: (int, int))
    requires w > 0 && h > 0 && s > 0.0
    requires size.0 == Trunc(w as real * s) && size.1 == Trunc(h as real * s)
    ensures -h < size.0 * h - size.1 * w < w
  {
    SameScale(w as real, h as real, s);
    TruncKeepsRatio(w, h, w as real * s, h as real * s);
  }

  /** Truncating both sides of a size `(x, y)` with the aspect ratio `w : h`
      keeps that ratio to within one pixel: `W * h - H * w` stays strictly
      between `-h` and `w`. */
  lemma TruncKeepsRatio(w: int, h: int, x: real, y: real)
    requires w > 0 && h > 0 && x >= 0.0 && y >= 0.0 && x * h as real == y * w as real
    ensures var a, b := Trunc(x), Trunc(y);
      -h < a * h - b * w < w
  {
    var a, b := Trunc(x), Trunc(y);
    var p, q := RatioBound(a as real, b as real, x, y, w as real, h as real);
    CastProduct(a, h);
    CastProduct(b, w);
  }

  lemma SameScale(w: real, h: real, s: real)
    ensures (w * s) * h == (h * s) * w
  {
  }

  lemma CastProduct(a: int, h: int)
    ensures (a * h) as real == a as real * h as real
  {
  }

  lemma RatioBound(a: real, b: real, x: real, y: real, w: real, h: real) returns (ah: real, bw: real)
    requires w > 0.0 && h > 0.0
    requires a <= x < a + 1.0 && b <= y < b + 1.0 && x * h == y * w
    ensures ah == a * h && bw == b * w
    ensures -h < ah - bw < w
  {
    var xh, yw;
    ah, xh := ScaleFloor(a, x, h);
    bw, yw := ScaleFloor(b, y, w);
  }

  /** Scaling by a positive factor keeps `a` within one unit below `x`, scaled;
      the products are returned so that callers reason about them linearly. */
  lemma ScaleFloor(a: real, x: real, h: real) returns (ah: real, xh: real)
    requires a <= x < a + 1.0 && h > 0.0
    ensures ah == a * h && xh == x * h
    ensures ah <= xh < ah + h
  {
    ah, xh := a * h, x * h;
    var d, e := x - a, a + 1.0 - x;
    assert d * h >= 0.0 && e * h > 0.0;
    assert d * h == xh - ah;
    assert e * h == ah + h - xh;
  }
}
