/**
 * The Composi canvas view: a scale and an offset that map world coordinates
 * (background image pixels) to canvas coordinates. Zooming about an anchor
 * keeps the world point under the anchor where it is.
 */
module ComposiView {

  import opened Common

  /** Canvas position of the world origin and the world-to-canvas scale. */
  datatype View = View(scale: real, x: real, y: real)

  /** The zoom buttons' step factor. */
  const ButtonStep: real := 1.1

  /** screenToWorld: the world point shown at canvas point `(px, py)`. */
  function ScreenToWorld(v: View, px: real, py: real): (w: (real, real))
    requires v.scale > 0.0
    ensures w.0 * v.scale + v.x == px && w.1 * v.scale + v.y == py
  {
    ((px - v.x) / v.scale, (py - v.y) / v.scale)
  }

  /** The zoom buttons: a new scale, with the offset moved so the anchor's world point stays put. */
  function ZoomAbout(v: View, cx: real, cy: real, newScale: real): (r: View)
    requires v.scale > 0.0
    ensures r.scale == newScale
  {
    View(newScale, cx - (cx - v.x) * (newScale / v.scale), cy - (cy - v.y) * (newScale / v.scale))
  }

  /** The Ctrl-wheel zoom: the world point under the cursor is computed first, then placed back. */
  function ZoomAtCursor(v: View, px: real, py: real, factor: real): (r: View)
    requires v.scale > 0.0 && factor > 0.0
    ensures r.scale == v.scale * factor
  {
    var w := ScreenToWorld(v, px, py);
    var s := v.scale * factor;
    View(s, px - w.0 * s, py - w.1 * s)
  }

  /** The zoom-in button: 1.1 times the scale about the canvas centre. */
  function ZoomIn(v: View, canvasW: nat, canvasH: nat): (r: View)
    requires v.scale > 0.0
    ensures r.scale > v.scale
  {
    ZoomAbout(v, canvasW as real / 2.0, canvasH as real / 2.0, v.scale * ButtonStep)
  }

  /** The zoom-out button: the scale divided by 1.1 about the canvas centre. */
  function ZoomOut(v: View, canvasW: nat, canvasH: nat): (r: View)
    requires v.scale > 0.0
    ensures 0.0 < r.scale < v.scale
  {
    ZoomAbout(v, canvasW as real / 2.0, canvasH as real / 2.0, v.scale / ButtonStep)
  }

  /** Zooming about an anchor keeps the world point under the anchor fixed. */
  lemma ZoomAboutKeepsAnchor(v: View, cx: real, cy: real, newScale: real)
    requires v.scale > 0.0 && newScale > 0.0
    ensures ScreenToWorld(ZoomAbout(v, cx, cy, newScale), cx, cy) == ScreenToWorld(v, cx, cy)
  {
    var r := ZoomAbout(v, cx, cy, newScale);
    var k := newScale / v.scale;
    ScaledRatio(cx - v.x, v.scale, newScale);
    ScaledRatio(cy - v.y, v.scale, newScale);
    assert cx - r.x == (cx - v.x) * k;
    assert cy - r.y == (cy - v.y) * k;
    assert (cx - r.x) / r.scale == (cx - v.x) / v.scale;
    assert (cy - r.y) / r.scale == (cy - v.y) / v.scale;
  }

  /** The Ctrl-wheel zoom keeps the world point under the cursor fixed. */
  lemma ZoomAtCursorKeepsPoint(v: View, px: real, py: real, factor: real)
    requires v.scale > 0.0 && factor > 0.0
    ensures ScreenToWorld(ZoomAtCursor(v, px, py, factor), px, py) == ScreenToWorld(v, px, py)
  {
    var w := ScreenToWorld(v, px, py);
    var r := ZoomAtCursor(v, px, py, factor);
    assert px - r.x == w.0 * r.scale;
    assert py - r.y == w.1 * r.scale;
    MulDiv(w.0, r.scale);
    MulDiv(w.1, r.scale);
    assert (px - r.x) / r.scale == w.0;
    assert (py - r.y) / r.scale == w.1;
  }

  /** Multiplying and then dividing by the same non-zero number gives back the value. */
  lemma MulDiv(a: real, b: real)
    requires b != 0.0
    ensures a * b / b == a
  {
  }

  /** A distance rescaled by `n / s` and measured at scale `n` is the distance measured at scale `s`. */
  lemma ScaledRatio(d: real, s: real, n: real)
    requires s > 0.0 && n > 0.0
    ensures d * (n / s) / n == d / s
  {
    assert d * (n / s) == (d / s) * n;
    MulDiv(d / s, n);
  }

  /** Zooming in and then out with the buttons gives back the view. */
  lemma ZoomInThenOut(v: View, canvasW: nat, canvasH: nat)
    requires v.scale > 0.0
    ensures ZoomOut(ZoomIn(v, canvasW, canvasH), canvasW, canvasH) == v
  {
    var cx := canvasW as real / 2.0;
    var cy := canvasH as real / 2.0;
    var a := ZoomIn(v, canvasW, canvasH);
    assert a.scale / ButtonStep == v.scale;
    assert cx - a.x == (cx - v.x) * ButtonStep;
    assert cy - a.y == (cy - v.y) * ButtonStep;
  }

  /**
   * fitView: without a background or with a zero-sized canvas, scale 1 centred
   * on the canvas; otherwise the background fitted to 90% of the canvas and
   * centred.
   */
  function FitView(canvasW: nat, canvasH: nat, background: Option<Size>): (v: View)
    ensures v.scale > 0.0
    ensures background.None? || canvasW == 0 || canvasH == 0 ==>
              v == View(1.0, canvasW as real / 2.0, canvasH as real / 2.0)
  {
    if background.None? || canvasW == 0 || canvasH == 0 then
      View(1.0, canvasW as real / 2.0, canvasH as real / 2.0)
    else
      var bw := background.value.w as real;
      var bh := background.value.h as real;
      var scale := Min(canvasW as real / bw, canvasH as real / bh) * 0.9;
      View(scale, (canvasW as real - bw * scale) / 2.0, (canvasH as real - bh * scale) / 2.0)
  }

  /**
   * The fitted background lies within 90% of the canvas, fills it in one
   * direction and is centred.
   */
  lemma FitViewFits(canvasW: nat, canvasH: nat, b: Size)
    requires canvasW > 0 && canvasH > 0
    ensures var v := FitView(canvasW, canvasH, Some(b));
      b.w as real * v.scale <= 0.9 * canvasW as real &&
      b.h as real * v.scale <= 0.9 * canvasH as real &&
      (b.w as real * v.scale == 0.9 * canvasW as real || b.h as real * v.scale == 0.9 * canvasH as real) &&
      v.x + b.w as real * v.scale / 2.0 == canvasW as real / 2.0 &&
      v.y + b.h as real * v.scale / 2.0 == canvasH as real / 2.0
  {
    var bw := b.w as real;
    var bh := b.h as real;
    var sx := canvasW as real / bw;
    var sy := canvasH as real / bh;
    var m := Min(sx, sy);
    assert bw * sx == canvasW as real;
    assert bh * sy == canvasH as real;
    assert bw * m <= bw * sx;
    assert bh * m <= bh * sy;
    assert bw * (m * 0.9) == 0.9 * (bw * m);
    assert bh * (m * 0.9) == 0.9 * (bh * m);
  }
}
