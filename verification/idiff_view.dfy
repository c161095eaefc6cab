/**
 * The iDiff image comparison viewer's view arithmetic: the slider position, the
 * zoom conversion between the side-by-side mode (where zoom 1 fits the
 * container) and the slider and difference modes (where zoom is relative to the
 * natural size), wheel, pinch and button zoom, and the name shown for a history
 * item.
 */
module IdiffView {

  import opened Common

  datatype Mode = Slider | SideBySide | Difference

  /** Zoom and pan of the compared images. */
  datatype Zoom = Zoom(zoom: real, panX: real, panY: real)

  const MinZoom: real := 0.1
  const MaxZoom: real := 50.0

  /** How close to the fit a zoom counts as being at the fit. */
  const FitTolerance: real := 0.05

  /** The margin left around the image when fitting it to the container. */
  const FitPadding: real := 40.0

  /** The step of the zoom buttons. */
  const ButtonStep: real := 1.2

  /**
   * The slider drag: the cursor's offset from the wrapper's left edge as a
   * percentage of the wrapper's width, clamped to [0, 100]. A zero width divides
   * to an infinity, which clamps to an end; the offset 0 over the width 0 is
   * NaN, which `Math.max`/`Math.min` pass through, shown here as `None`.
   */
  function SliderPosition(offset: real, width: real): (r: Option<real>)
    ensures r.None? <==> offset == 0.0 && width == 0.0
    ensures r.Some? ==> 0.0 <= r.value <= 100.0
    ensures width != 0.0 ==> r == Some(Clamp(0.0, 100.0, offset / width * 100.0))
    ensures width == 0.0 && offset > 0.0 ==> r == Some(100.0)
    ensures width == 0.0 && offset < 0.0 ==> r == Some(0.0)
  {
    if offset == 0.0 && width == 0.0 then None
    else
      match JsDiv(offset, width)
      case Fin(v) => Some(Clamp(0.0, 100.0, v * 100.0))
      case PosInf => Some(100.0)
      case NegInf => Some(0.0)
  }

  /**
   * getFitZoomVal: 1 while the first image is not loaded, otherwise the scale
   * that fits its natural size into the container less the padding.
   */
  function FitZoom(image: Option<Size>, containerW: real, containerH: real): (f: real)
    ensures image.None? ==> f == 1.0
    ensures image.Some? ==>
              f * image.value.w as real <= containerW - FitPadding &&
              f * image.value.h as real <= containerH - FitPadding &&
              (f * image.value.w as real == containerW - FitPadding ||
               f * image.value.h as real == containerH - FitPadding)
  {
    match image
    case None => 1.0
    case Some(s) =>
      var fx := (containerW - FitPadding) / s.w as real;
      var fy := (containerH - FitPadding) / s.h as real;
      assert fx * s.w as real == containerW - FitPadding;
      assert fy * s.h as real == containerH - FitPadding;
      Min(fx, fy)
  }

  /** Whether the zoom is within the tolerance of the fit of the mode it is in. */
  predicate AtFit(mode: Mode, zoom: real, fitVal: real)
  {
    if mode == SideBySide then Abs(zoom - 1.0) < FitTolerance else Abs(zoom - fitVal) < FitTolerance
  }

  /**
   * updateMode's zoom conversion from `prev` to `next` with the current fit
   * value: nothing without a previous mode or without a change; otherwise a
   * zoom at the old fit snaps to the new fit, other zooms are converted between
   * the two scales (side-by-side to natural multiplies by the fit value, the
   * reverse divides by it), the zoom is clamped to [0.1, 50] and the pan reset.
   */
  function ConvertZoom(prev: Option<Mode>, next: Mode, z: Zoom, fitVal: real): (r: Zoom)
    ensures prev.None? || prev.value == next ==> r == z
    ensures prev.Some? && prev.value != next ==>
              r.panX == 0.0 && r.panY == 0.0 && MinZoom <= r.zoom <= MaxZoom
    ensures prev.Some? && prev.value != next && AtFit(prev.value, z.zoom, fitVal) ==>
              r.zoom == Clamp(MinZoom, MaxZoom, if next == SideBySide then 1.0 else fitVal)
    ensures prev.Some? && prev.value != next && !AtFit(prev.value, z.zoom, fitVal) ==>
              (prev.value == SideBySide ==> r.zoom == Clamp(MinZoom, MaxZoom, z.zoom * fitVal)) &&
              (next == SideBySide && fitVal != 0.0 ==> r.zoom == Clamp(MinZoom, MaxZoom, z.zoom / fitVal)) &&
              (next == SideBySide && fitVal == 0.0 ==> r.zoom == (if z.zoom > 0.0 then MaxZoom else MinZoom)) &&
              (prev.value != SideBySide && next != SideBySide ==> r.zoom == Clamp(MinZoom, MaxZoom, z.zoom))
  {
    if prev.None? || prev.value == next then z
    else
      var converted :=
        if AtFit(prev.value, z.zoom, fitVal) then Fin(if next == SideBySide then 1.0 else fitVal)
        else if prev.value == SideBySide then Fin(z.zoom * fitVal)
        else if next == SideBySide then JsDiv(z.zoom, fitVal)
        else Fin(z.zoom);
      Zoom(ClampJs(MinZoom, MaxZoom, converted), 0.0, 0.0)
  }

  /** A snap lands at the fit of the new mode whenever that fit lies within the zoom limits. */
  lemma SnapLandsAtFit(prev: Mode, next: Mode, z: Zoom, fitVal: real)
    requires prev != next && AtFit(prev, z.zoom, fitVal)
    requires MinZoom <= fitVal <= MaxZoom
    ensures AtFit(next, ConvertZoom(Some(prev), next, z, fitVal).zoom, fitVal)
  {
  }

  /**
   * Away from the fits and the limits, going from the slider to side by side
   * and back gives back the zoom.
   */
  lemma SliderSideRoundTrip(z: Zoom, fitVal: real)
    requires fitVal > 0.0
    requires !AtFit(Slider, z.zoom, fitVal) && !AtFit(SideBySide, z.zoom / fitVal, fitVal)
    requires MinZoom <= z.zoom <= MaxZoom && MinZoom <= z.zoom / fitVal <= MaxZoom
    ensures var side := ConvertZoom(Some(Slider), SideBySide, z, fitVal);
      ConvertZoom(Some(SideBySide), Slider, side, fitVal).zoom == z.zoom
  {
    var side := ConvertZoom(Some(Slider), SideBySide, z, fitVal);
    assert side.zoom == z.zoom / fitVal;
    assert side.zoom * fitVal == z.zoom;
  }

  /**
   * The wheel: one step of 0.9 (scrolling down) or 1.1 (up); a step that would
   * leave [0.1, 50] is ignored, otherwise the pan is adjusted about the cursor
   * at `(mx, my)` from the container's centre.
   */
  function Wheel(z: Zoom, deltaY: real, mx: real, my: real): (r: Zoom)
    ensures var f := if deltaY > 0.0 then 0.9 else 1.1;
      (z.zoom * f < MinZoom || z.zoom * f > MaxZoom ==> r == z) &&
      (MinZoom <= z.zoom * f <= MaxZoom ==> r.zoom == z.zoom * f)
  {
    var f := if deltaY > 0.0 then 0.9 else 1.1;
    var nz := z.zoom * f;
    if nz < MinZoom || nz > MaxZoom then z
    else Zoom(nz, mx * (1.0 - f) + z.panX * f, my * (1.0 - f) + z.panY * f)
  }

  /** The image point under the cursor, with the zoom applied about the container's centre. */
  function ContentPoint(z: Zoom, mx: real, my: real): (p: (real, real))
    requires z.zoom != 0.0
    ensures p.0 * z.zoom + z.panX == mx && p.1 * z.zoom + z.panY == my
  {
    ((mx - z.panX) / z.zoom, (my - z.panY) / z.zoom)
  }

  /** An accepted wheel step keeps the image point under the cursor where it is. */
  lemma WheelKeepsPoint(z: Zoom, deltaY: real, mx: real, my: real)
    requires Wheel(z, deltaY, mx, my) != z
    ensures z.zoom > 0.0
    ensures ContentPoint(Wheel(z, deltaY, mx, my), mx, my) == ContentPoint(z, mx, my)
  {
    var f := if deltaY > 0.0 then 0.9 else 1.1;
    var r := Wheel(z, deltaY, mx, my);
    assert r.zoom == z.zoom * f;
    var p := ContentPoint(z, mx, my);
    assert mx - r.panX == (mx - z.panX) * f;
    assert my - r.panY == (my - z.panY) * f;
    assert (mx - r.panX) / r.zoom == p.0;
    assert (my - r.panY) / r.zoom == p.1;
  }

  /** Pinch zoom: the zoom scaled by the finger distance ratio and clamped; nothing before a first distance. */
  function Pinch(z: Zoom, dist: real, lastDist: real): (r: Zoom)
    ensures lastDist > 0.0 ==> MinZoom <= r.zoom <= MaxZoom && r.panX == z.panX && r.panY == z.panY
    ensures lastDist > 0.0 && MinZoom <= z.zoom * (dist / lastDist) <= MaxZoom ==> r.zoom == z.zoom * (dist / lastDist)
    ensures lastDist <= 0.0 ==> r == z
  {
    if lastDist > 0.0 then z.(zoom := Clamp(MinZoom, MaxZoom, z.zoom * (dist / lastDist))) else z
  }

  /**
   * fitView, bound to the Fit button: the natural-size fit `getFitZoomVal`,
   * centred, whatever the mode.
   */
  function FitView(fitVal: real): (r: Zoom)
    ensures r.zoom == fitVal && r.panX == 0.0 && r.panY == 0.0
  {
    Zoom(fitVal, 0.0, 0.0)
  }

  /**
   * The Fit button lands at the slider's fit, but in side-by-side mode, where
   * zoom 1 is the fit, only when the natural-size fit happens to be near 1.
   */
  lemma FitButtonAtFit(fitVal: real)
    ensures AtFit(Slider, FitView(fitVal).zoom, fitVal)
    ensures AtFit(Difference, FitView(fitVal).zoom, fitVal)
    ensures AtFit(SideBySide, FitView(fitVal).zoom, fitVal) <==> Abs(fitVal - 1.0) < FitTolerance
  {
  }

  /** With the image at half its natural size filling the container, the Fit button leaves side-by-side mode off its fit. */
  lemma {:induction false} FitButtonOffSideBySideFit()
    ensures var z := FitView(0.5);
      z.zoom == 0.5 && !AtFit(SideBySide, z.zoom, 0.5)
  {
    assert Abs(0.5 - 1.0) == 0.5;
  }

  /** The Fit button as the mode conversion understands the fit: 1 side by side, the natural-size fit otherwise. */
  function FitViewInMode(mode: Mode, fitVal: real): (r: Zoom)
    ensures AtFit(mode, r.zoom, fitVal)
    ensures r.panX == 0.0 && r.panY == 0.0
    ensures mode != SideBySide ==> r == FitView(fitVal)
  {
    Zoom(if mode == SideBySide then 1.0 else fitVal, 0.0, 0.0)
  }

  /** The zoom-in button multiplies by 1.2, without a bound. */
  function ZoomIn(z: Zoom): (r: Zoom)
    ensures z.zoom > 0.0 ==> r.zoom > z.zoom
    ensures r.panX == z.panX && r.panY == z.panY
  {
    z.(zoom := z.zoom * ButtonStep)
  }

  /** The zoom-out button divides by 1.2, without a bound. */
  function ZoomOut(z: Zoom): (r: Zoom)
    ensures z.zoom > 0.0 ==> 0.0 < r.zoom < z.zoom
    ensures r.panX == z.panX && r.panY == z.panY
  {
    z.(zoom := z.zoom / ButtonStep)
  }

  /**
   * A pinch out and back in by the same finger distances gives back the zoom, as
   * long as the first pinch stayed inside [0.1, 50].
   */
  lemma PinchRoundTrip(z: Zoom, dist: real, lastDist: real)
    requires dist > 0.0 && lastDist > 0.0
    requires MinZoom <= z.zoom * (dist / lastDist) <= MaxZoom
    requires MinZoom <= z.zoom <= MaxZoom
    ensures Pinch(Pinch(z, dist, lastDist), lastDist, dist) == z
  {
    var r := Pinch(z, dist, lastDist);
    assert r.zoom == z.zoom * (dist / lastDist);
    assert r.zoom * (lastDist / dist) == z.zoom;
  }

  /** Zooming in and then out with the buttons gives back the zoom. */
  lemma ZoomInThenOut(z: Zoom)
    ensures ZoomOut(ZoomIn(z)) == z
  {
  }

  /** The reset button: zoom 1, centred. */
  const ResetZoom: Zoom := Zoom(1.0, 0.0, 0.0)

  /** The default labels in English and in Japanese, as the code spells them. */
  const DefaultLabels: seq<string> := ["Before", "After", "Â§âÊõ¥Ââç", "Â§âÊõ¥Âæå"]

  datatype Lang = English | Japanese

  /** The default label of the first or second image in the page's language. */
  function DefaultLabel(lang: Lang, first: bool): (d: string)
    ensures d in DefaultLabels
  {
    match lang
    case English => if first then "Before" else "After"
    case Japanese => if first then "Â§âÊõ¥Ââç" else "Â§âÊõ¥Âæå"
  }

  /**
   * A label as saved with a comparison and as put back when an item is loaded:
   * the text, or the default when the text is empty.
   */
  function LabelOrDefault(text: string, default: string): (l: string)
    ensures default != [] ==> l != []
    ensures text != [] ==> l == text
    ensures text == [] ==> l == default
  {
    if text != [] then text else default
  }

  /** Loading a saved item puts back the label field it was saved from, or its default. */
  lemma SaveThenLoadLabel(text: string, lang: Lang, lang': Lang, first: bool)
    ensures LabelOrDefault(LabelOrDefault(text, DefaultLabel(lang, first)), DefaultLabel(lang', first))
         == LabelOrDefault(text, DefaultLabel(lang, first))
  {
  }

  /**
   * The name shown for one image of a history item: its label, unless the label
   * is missing, empty or one of the default labels, in which case its file name.
   */
  function DisplayName(itemLabel: Option<string>, fileName: string): (r: string)
    ensures r == fileName || (itemLabel.Some? && r == itemLabel.value)
    ensures itemLabel.Some? && itemLabel.value != [] && itemLabel.value !in DefaultLabels ==> r == itemLabel.value
    ensures itemLabel.None? || itemLabel.value == [] || itemLabel.value in DefaultLabels ==> r == fileName
  {
    if itemLabel.Some? && itemLabel.value != [] && itemLabel.value !in DefaultLabels then itemLabel.value else fileName
  }

  /**
   * The history list shows a saved comparison's own label exactly when the label
   * field held custom text; an empty or default label field shows the file name.
   */
  lemma {:induction false} SavedLabelShown(text: string, lang: Lang, first: bool, fileName: string)
    ensures var saved := LabelOrDefault(text, DefaultLabel(lang, first));
      DisplayName(Some(saved), fileName) == if text == [] || text in DefaultLabels then fileName else text
  {
    var d := DefaultLabel(lang, first);
    if text == [] {
      assert LabelOrDefault(text, d) == d;
    }
  }
}
