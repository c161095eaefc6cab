/**
 * The Composi editor state and the operations that touch the history: the
 * lazily read eraser mask (`getState`/`restoreState` with a dirty flag), the
 * full-resolution and proxy caches of the erased overlay, and the editing
 * actions that push snapshots. Images are reduced to their sizes and the mask to
 * the strokes erased from it; drawing itself is not modelled.
 */
module ComposiEditor {

  import opened Common
  import opened ComposiHistory
  import opened ComposiView

  /** The longest side the proxy of the overlay may have. */
  const ProxyMax: int := 2048

  /** The low-resolution proxy cache: validity, scale and size. */
  datatype Proxy = Proxy(valid: bool, scale: real, w: int, h: int)

  /**
   * The editor. `maskCanvas` and `maskCtx` say whether the eraser's mask canvas
   * and its drawing context are set; `pixels` is what the mask holds;
   * `maskCache` is the last `ImageData` read from the mask and `maskDirty` says
   * it is stale; `nextId` is the identity the next read object gets.
   * `controlsBound` says whether the transform and filters objects the slider
   * and number-input handlers were bound to are still the editor's own:
   * `restoreState` replaces both objects with copies, and the handlers keep
   * writing into the old ones.
   */
  datatype Editor = Editor(
    transform: Transform,
    filters: Filters,
    background: Option<Size>,
    overlay: Option<Size>,
    maskCanvas: bool,
    maskCtx: bool,
    pixels: Pixels,
    maskDirty: bool,
    maskCache: Option<ImageData>,
    nextId: nat,
    fullValid: bool,
    proxy: Proxy,
    view: View,
    controlsBound: bool)

  /** The editor with its history manager. */
  datatype Session = Session(editor: Editor, history: History)

  /**
   * A result, or the `TypeError` the code throws on reading a property of
   * `null` together with the state the handler had already changed when it
   * threw; the page goes on from that state.
   */
  datatype Result<+T> = Ok(value: T) | TypeError(partial: T)
  {
    /** The state the page goes on from, whether or not the handler threw. */
    function After(): T
    {
      if Ok? then value else partial
    }
  }

  /** The drawing path `draw` uses for the overlay. */
  datatype Tier = ProxyTier | FullTier | RawTier

  const DefaultTransform: Transform := Transform(0.0, 0.0, 1.0, 0.0, false)
  const DefaultFilters: Filters := Filters(1.0, 1.0, 1.0, 1.0, 0.0)

  /** The editor as the constructor leaves it. */
  const Initial: Editor := Editor(DefaultTransform, DefaultFilters, None, None, false, false, [], true, None, 0,
                                  false, Proxy(false, 1.0, 0, 0), View(1.0, 0.0, 0.0), true)

  /** The state the editor keeps consistent between user actions. */
  predicate Inv(e: Editor)
  {
    && e.maskCanvas == e.overlay.Some?
    && e.maskCtx == e.maskCanvas
    && e.fullValid == e.overlay.Some?
    && e.proxy.valid == e.overlay.Some?
    && (e.overlay.Some? ==> e.proxy.scale == ProxyScale(e.overlay.value))
    && (e.maskCanvas && !e.maskDirty ==> e.maskCache.Some? && e.maskCache.value.pixels == e.pixels)
    && e.view.scale > 0.0
  }

  /** The parts of the editor a user sees and that undo and redo bring back. */
  predicate SameContent(a: Editor, b: Editor)
  {
    && a.transform == b.transform
    && a.filters == b.filters
    && a.pixels == b.pixels
    && a.overlay == b.overlay
    && a.background == b.background
    && a.maskCtx == b.maskCtx
  }

  // ---------------------------------------------------------------------------
  // Caches
  // ---------------------------------------------------------------------------

  /** The proxy's scale: 1 unless a side exceeds 2048, else the factor that brings the longer side to 2048. */
  function ProxyScale(s: Size): (r: real)
    ensures 0.0 < r <= 1.0
    ensures r < 1.0 <==> s.w > ProxyMax || s.h > ProxyMax
  {
    if s.w > ProxyMax || s.h > ProxyMax then Min(ProxyMax as real / s.w as real, ProxyMax as real / s.h as real)
    else 1.0
  }

  /** The proxy scale is `min(1, 2048 / max(w, h))`. */
  lemma ProxyScaleIsFit(s: Size)
    ensures ProxyScale(s) == Min(1.0, ProxyMax as real / Max(s.w as real, s.h as real))
  {
    var m := Max(s.w as real, s.h as real);
    var q := ProxyMax as real / m;
    if s.w >= s.h {
      DivAntitone(ProxyMax as real, s.w as real, s.h as real);
    } else {
      DivAntitone(ProxyMax as real, s.h as real, s.w as real);
    }
    assert q < 1.0 <==> m > ProxyMax as real;
  }

  /** The proxy's sides `floor(w * scale)` and `floor(h * scale)` are at most 2048. */
  lemma ProxySizeBounded(s: Size)
    ensures 0 <= Floor(s.w as real * ProxyScale(s)) <= ProxyMax
    ensures 0 <= Floor(s.h as real * ProxyScale(s)) <= ProxyMax
  {
    var r := ProxyScale(s);
    if s.w > ProxyMax || s.h > ProxyMax {
      assert r <= ProxyMax as real / s.w as real;
      assert r <= ProxyMax as real / s.h as real;
      assert s.w as real * r <= ProxyMax as real;
      assert s.h as real * r <= ProxyMax as real;
    }
  }

  /**
   * updateOverlayCache: with an overlay loaded, both caches become valid and the
   * proxy takes the overlay's proxy scale and size; without one nothing changes.
   */
  function UpdateOverlayCache(e: Editor): (r: Editor)
    ensures e.overlay.None? ==> r == e
    ensures e.overlay.Some? ==>
              r.fullValid && r.proxy.valid && r.proxy.scale == ProxyScale(e.overlay.value) &&
              r.proxy.w == Floor(e.overlay.value.w as real * r.proxy.scale) &&
              r.proxy.h == Floor(e.overlay.value.h as real * r.proxy.scale) &&
              0 <= r.proxy.w <= ProxyMax && 0 <= r.proxy.h <= ProxyMax
    ensures r.(fullValid := e.fullValid, proxy := e.proxy) == e
  {
    if e.overlay.None? then e
    else
      var s := e.overlay.value;
      var scale := ProxyScale(s);
      ProxySizeBounded(s);
      e.(fullValid := true, proxy := Proxy(true, scale, Floor(s.w as real * scale), Floor(s.h as real * scale)))
  }

  /**
   * The render-tier choice in `draw`: the proxy only while interacting with a
   * valid proxy that is smaller than the overlay, else a valid full-resolution
   * cache, else the raw overlay image.
   */
  function RenderTier(e: Editor, interacting: bool): (t: Tier)
    ensures t == ProxyTier <==> interacting && e.proxy.valid && e.proxy.scale < 1.0
    ensures t == RawTier <==> !(interacting && e.proxy.valid && e.proxy.scale < 1.0) && !e.fullValid
  {
    if interacting && e.proxy.valid && e.proxy.scale < 1.0 then ProxyTier
    else if e.fullValid then FullTier
    else RawTier
  }

  /**
   * While an overlay is loaded it is never drawn from the raw image, and the
   * proxy is used exactly while interacting with an overlay larger than 2048.
   */
  lemma RenderTierWithOverlay(e: Editor, interacting: bool)
    requires Inv(e) && e.overlay.Some?
    ensures RenderTier(e, interacting) != RawTier
    ensures RenderTier(e, interacting) == ProxyTier <==>
              interacting && (e.overlay.value.w > ProxyMax || e.overlay.value.h > ProxyMax)
  {
  }

  // ---------------------------------------------------------------------------
  // Mask and snapshots
  // ---------------------------------------------------------------------------

  /** initMask: with an overlay, a fresh blank mask canvas and context; the mask is dirty. */
  function InitMask(e: Editor): (r: Editor)
    ensures e.overlay.None? ==> r == e
    ensures e.overlay.Some? ==> r.maskCanvas && r.maskCtx && r.pixels == [] && r.maskDirty
  {
    if e.overlay.None? then e else e.(maskCanvas := true, maskCtx := true, pixels := [], maskDirty := true)
  }

  /**
   * getState: the transform and filters by value and the mask as an `ImageData`;
   * the mask is read into a new object only when it is dirty, which clears the
   * flag; otherwise the cached object is returned again. Without a mask canvas
   * the mask is `null`.
   */
  function GetState(e: Editor): (r: (Editor, Snapshot))
    ensures r.1.transform == e.transform && r.1.filters == e.filters
    ensures !e.maskCanvas ==> r.0 == e && r.1.mask.None?
    ensures e.maskCanvas && e.maskDirty ==>
              r.1.mask == Some(ImageData(e.nextId, e.pixels)) && r.0.maskCache == r.1.mask &&
              !r.0.maskDirty && r.0.nextId == e.nextId + 1
    ensures e.maskCanvas && !e.maskDirty ==> r.0 == e && r.1.mask == e.maskCache
    ensures SameContent(r.0, e) && r.0.maskCanvas == e.maskCanvas
  {
    var mask := if e.maskCanvas then (if e.maskDirty then Some(ImageData(e.nextId, e.pixels)) else e.maskCache) else None;
    var e1 := if e.maskCanvas && e.maskDirty then e.(maskCache := mask, maskDirty := false, nextId := e.nextId + 1) else e;
    (e1, Snapshot(e.transform, e.filters, mask))
  }

  /** A second `getState` without changes in between returns the same snapshot and changes nothing. */
  lemma GetStateTwice(e: Editor)
    ensures var (e1, s1) := GetState(e); GetState(e1) == (e1, s1)
  {
  }

  /** On a consistent editor the snapshot's mask holds exactly the current mask pixels. */
  lemma GetStateCaptures(e: Editor)
    requires Inv(e)
    ensures Inv(GetState(e).0)
    ensures e.maskCanvas ==> GetState(e).1.mask.Some? && GetState(e).1.mask.value.pixels == e.pixels
  {
  }

  /**
   * restoreState: the transform and filters are written back. With a mask
   * context, a stored mask is written into it and becomes the clean cache, and
   * a `null` mask clears the mask and marks it dirty; both refresh the caches.
   * Clearing reads the mask canvas's width, which throws when the canvas is
   * gone but the context is still set; by then the transform and filters are
   * already replaced. The replacements are new objects, so the control
   * handlers are left bound to the old ones.
   */
  function RestoreState(e: Editor, s: Snapshot): (r: Result<Editor>)
    ensures r.TypeError? <==> s.mask.None? && e.maskCtx && !e.maskCanvas
    ensures r.TypeError? ==> r.partial == e.(transform := s.transform, filters := s.filters, controlsBound := false)
    ensures r.After().transform == s.transform && r.After().filters == s.filters && !r.After().controlsBound
    ensures r.Ok? && e.maskCtx && s.mask.Some? ==>
              r.value.pixels == s.mask.value.pixels && r.value.maskCache == s.mask && !r.value.maskDirty
    ensures r.Ok? && e.maskCtx && s.mask.None? ==> r.value.pixels == [] && r.value.maskDirty
    ensures r.Ok? && !e.maskCtx ==> r.value == e.(transform := s.transform, filters := s.filters, controlsBound := false)
  {
    var e1 := e.(transform := s.transform, filters := s.filters, controlsBound := false);
    if s.mask.Some? && e.maskCtx then
      Ok(UpdateOverlayCache(e1.(pixels := s.mask.value.pixels, maskCache := s.mask, maskDirty := false)))
    else if s.mask.None? && e.maskCtx then
      if !e.maskCanvas then TypeError(e1)
      else Ok(UpdateOverlayCache(e1.(pixels := [], maskDirty := true)))
    else Ok(e1)
  }

  /** On a consistent editor restoring never throws, keeps the editor consistent and keeps the images. */
  lemma RestoreStateConsistent(e: Editor, s: Snapshot)
    requires Inv(e)
    ensures RestoreState(e, s).Ok?
    ensures Inv(RestoreState(e, s).value)
    ensures var r := RestoreState(e, s).value;
      r.overlay == e.overlay && r.background == e.background && r.maskCtx == e.maskCtx &&
      r.maskCanvas == e.maskCanvas
    ensures !e.maskCtx ==> RestoreState(e, s).value.pixels == e.pixels
  {
  }

  // ---------------------------------------------------------------------------
  // Session operations
  // ---------------------------------------------------------------------------

  /** pushState: the current snapshot is pushed; reading it may clear the dirty flag. */
  function PushState(sess: Session): (r: Session)
    ensures SameContent(r.editor, sess.editor)
    ensures r.history == Push(sess.history, GetState(sess.editor).1)
  {
    var (e1, snap) := GetState(sess.editor);
    Session(e1, Push(sess.history, snap))
  }

  /**
   * The undo button: with snapshots to undo, the current one goes to redo and
   * the top is restored. When the restore throws, the stacks have already
   * moved and the transform and filters are already the top's.
   */
  function UndoAction(sess: Session): (r: Result<Session>)
    ensures |sess.history.undo| == 0 ==> r == Ok(sess)
    ensures |sess.history.undo| > 0 ==>
              var top := sess.history.undo[|sess.history.undo| - 1];
              var a := r.After();
              a.editor.transform == top.transform && a.editor.filters == top.filters &&
              a.history.undo == sess.history.undo[..|sess.history.undo| - 1] &&
              a.history.redo == sess.history.redo + [GetState(sess.editor).1]
  {
    if |sess.history.undo| == 0 then Ok(sess)
    else
      var (e1, current) := GetState(sess.editor);
      var (h1, prev) := Undo(sess.history, current);
      match RestoreState(e1, prev.value)
      case Ok(e2) => Ok(Session(e2, h1))
      case TypeError(e2) => TypeError(Session(e2, h1))
  }

  /** The redo button: the mirror image of undo, including what a throw leaves behind. */
  function RedoAction(sess: Session): (r: Result<Session>)
    ensures |sess.history.redo| == 0 ==> r == Ok(sess)
    ensures |sess.history.redo| > 0 ==>
              var top := sess.history.redo[|sess.history.redo| - 1];
              var a := r.After();
              a.editor.transform == top.transform && a.editor.filters == top.filters &&
              a.history.redo == sess.history.redo[..|sess.history.redo| - 1] &&
              a.history.undo == sess.history.undo + [GetState(sess.editor).1]
  {
    if |sess.history.redo| == 0 then Ok(sess)
    else
      var (e1, current) := GetState(sess.editor);
      var (h1, next) := Redo(sess.history, current);
      match RestoreState(e1, next.value)
      case Ok(e2) => Ok(Session(e2, h1))
      case TypeError(e2) => TypeError(Session(e2, h1))
  }

  // ---------------------------------------------------------------------------
  // Controls
  // ---------------------------------------------------------------------------

  /** The seven properties `bindControl` wires a slider and a number input to. */
  datatype Control = ScaleControl | RotateControl | OpacityControl | BrightnessControl
                   | ContrastControl | SaturationControl | HueControl

  /** The value a control shows and writes: a property of the transform or the filters. */
  function ControlValue(e: Editor, c: Control): real
  {
    match c
    case ScaleControl => e.transform.scale
    case RotateControl => e.transform.rotation
    case OpacityControl => e.filters.opacity
    case BrightnessControl => e.filters.brightness
    case ContrastControl => e.filters.contrast
    case SaturationControl => e.filters.saturation
    case HueControl => e.filters.hue
  }

  /**
   * The property of control `c` set to `v` (the entered number already
   * multiplied by the control's factor) in the editor's own transform or
   * filters.
   */
  function SetControl(e: Editor, c: Control, v: real): (r: Editor)
    ensures ControlValue(r, c) == v
    ensures forall d: Control | d != c :: ControlValue(r, d) == ControlValue(e, d)
    ensures r.transform.x == e.transform.x && r.transform.y == e.transform.y && r.transform.flipH == e.transform.flipH
    ensures r == e.(transform := r.transform, filters := r.filters)
  {
    match c
    case ScaleControl => e.(transform := e.transform.(scale := v))
    case RotateControl => e.(transform := e.transform.(rotation := v))
    case OpacityControl => e.(filters := e.filters.(opacity := v))
    case BrightnessControl => e.(filters := e.filters.(brightness := v))
    case ContrastControl => e.(filters := e.filters.(contrast := v))
    case SaturationControl => e.(filters := e.filters.(saturation := v))
    case HueControl => e.(filters := e.filters.(hue := v))
  }

  /** A handler's write into the object it was bound to: seen only while that object is still the editor's. */
  function WriteBound(e: Editor, c: Control, v: real): Editor
  {
    if e.controlsBound then SetControl(e, c, v) else e
  }

  /**
   * The number input's `update` as written: the state is pushed, then the
   * value is written into the bound object.
   */
  function InputChangeAsWritten(sess: Session, c: Control, v: real): (r: Session)
    ensures r.history == PushState(sess).history
    ensures SameContent(r.editor, SetControl(sess.editor, c, v)) <==> sess.editor.controlsBound || ControlValue(sess.editor, c) == v
    ensures !sess.editor.controlsBound ==> r.editor.transform == sess.editor.transform && r.editor.filters == sess.editor.filters
  {
    var p := PushState(sess);
    p.(editor := WriteBound(p.editor, c, v))
  }

  /**
   * The slider's `oninput` as written: the value is written into the bound
   * object with no push; the push comes from `onchange` (a `PushState`) once
   * the drag ends, after the value is set.
   */
  function SliderInputAsWritten(sess: Session, c: Control, v: real): (r: Session)
    ensures r.history == sess.history
    ensures sess.editor.controlsBound ==> r.editor == SetControl(sess.editor, c, v)
    ensures !sess.editor.controlsBound ==> r == sess
  {
    sess.(editor := WriteBound(sess.editor, c, v))
  }

  /**
   * A control change as it is evidently meant to work, for the number input
   * and for a whole slider drag alike: the state before the change is pushed,
   * then the value is written into the editor's current transform or
   * filters, whatever undo or redo replaced them with.
   */
  function Adjust(sess: Session, c: Control, v: real): (r: Session)
    ensures ControlValue(r.editor, c) == v
    ensures forall d: Control | d != c :: ControlValue(r.editor, d) == ControlValue(sess.editor, d)
    ensures r.history == PushState(sess).history
    ensures SameContent(r.editor, SetControl(sess.editor, c, v))
  {
    var p := PushState(sess);
    p.(editor := SetControl(p.editor, c, v))
  }

  /** The flip checkbox: the state is pushed, then the flip is set on the editor's current transform. */
  function FlipChange(sess: Session, checked: bool): (r: Session)
    ensures r.editor.transform == sess.editor.transform.(flipH := checked)
    ensures r.editor.filters == sess.editor.filters
    ensures r.history == PushState(sess).history
  {
    var p := PushState(sess);
    p.(editor := p.editor.(transform := p.editor.transform.(flipH := checked)))
  }

  /** resetFilters: the state is pushed, then the filters return to their defaults. */
  function ResetFilters(sess: Session): (r: Session)
    ensures r.editor.filters == Filters(1.0, 1.0, 1.0, 1.0, 0.0)
    ensures r.editor.transform == sess.editor.transform
    ensures r.history == PushState(sess).history
  {
    var p := PushState(sess);
    p.(editor := p.editor.(filters := DefaultFilters))
  }

  /**
   * The transform `resetTransform` sets: centred on the background (or the canvas
   * without one), with the overlay scaled to fit the background, unrotated and
   * unflipped.
   */
  function InitialTransform(background: Option<Size>, overlay: Option<Size>, canvasW: nat, canvasH: nat): (t: Transform)
    ensures t.rotation == 0.0 && !t.flipH
    ensures background.None? ==> t == Transform(canvasW as real / 2.0, canvasH as real / 2.0, 1.0, 0.0, false)
    ensures background.Some? ==> t.x == background.value.w as real / 2.0 && t.y == background.value.h as real / 2.0
    ensures background.Some? && overlay.None? ==> t.scale == 1.0
  {
    match background
    case None => Transform(canvasW as real / 2.0, canvasH as real / 2.0, 1.0, 0.0, false)
    case Some(b) =>
      var scale := match overlay
        case None => 1.0
        case Some(o) => Min(b.w as real / o.w as real, b.h as real / o.h as real);
      Transform(b.w as real / 2.0, b.h as real / 2.0, scale, 0.0, false)
  }

  /** The reset overlay fits inside the background and touches it on one side. */
  lemma InitialTransformFits(b: Size, o: Size, canvasW: nat, canvasH: nat)
    ensures var t := InitialTransform(Some(b), Some(o), canvasW, canvasH);
      o.w as real * t.scale <= b.w as real && o.h as real * t.scale <= b.h as real &&
      (o.w as real * t.scale == b.w as real || o.h as real * t.scale == b.h as real)
  {
    var sx := b.w as real / o.w as real;
    var sy := b.h as real / o.h as real;
    assert o.w as real * sx == b.w as real;
    assert o.h as real * sy == b.h as real;
    var m := Min(sx, sy);
    assert o.w as real * m <= o.w as real * sx;
    assert o.h as real * m <= o.h as real * sy;
  }

  /** resetTransform: the state is pushed, then the transform is reset. */
  function ResetTransform(sess: Session, canvasW: nat, canvasH: nat): (r: Session)
    ensures r.editor.transform == InitialTransform(sess.editor.background, sess.editor.overlay, canvasW, canvasH)
    ensures r.editor.filters == sess.editor.filters
    ensures r.history == PushState(sess).history
  {
    var p := PushState(sess);
    p.(editor := p.editor.(transform := InitialTransform(sess.editor.background, sess.editor.overlay, canvasW, canvasH)))
  }

  /** A background image loaded: the view fits it, then the state is pushed. */
  function LoadBackground(sess: Session, size: Size, canvasW: nat, canvasH: nat): (r: Session)
    ensures r.editor.background == Some(size)
    ensures r.editor.view == FitView(canvasW, canvasH, Some(size))
    ensures r.editor.overlay == sess.editor.overlay
  {
    var e := sess.editor.(background := Some(size), view := FitView(canvasW, canvasH, Some(size)));
    PushState(sess.(editor := e))
  }

  /**
   * An overlay image loaded: a new blank mask, fresh caches, the transform reset
   * (which pushes), then the state pushed again.
   */
  function LoadOverlay(sess: Session, size: Size, canvasW: nat, canvasH: nat): (r: Session)
    ensures r.editor.overlay == Some(size)
    ensures r.editor.pixels == []
    ensures r.editor.fullValid && r.editor.proxy.valid
  {
    var e := UpdateOverlayCache(InitMask(sess.editor.(overlay := Some(size))));
    PushState(ResetTransform(sess.(editor := e), canvasW, canvasH))
  }

  /** clearImage('bg'): the state is pushed, then the background is dropped. */
  function ClearBackground(sess: Session): (r: Session)
    ensures r.editor.background.None?
    ensures r.editor.overlay == sess.editor.overlay
  {
    var p := PushState(sess);
    p.(editor := p.editor.(background := None))
  }

  /**
   * clearImage('overlay') as the code does it: the state is pushed, the overlay
   * and the mask canvas are dropped and both caches invalidated, but the mask's
   * drawing context is kept.
   */
  function ClearOverlayAsWritten(sess: Session): (r: Session)
    ensures r.editor.overlay.None? && !r.editor.maskCanvas && !r.editor.fullValid && !r.editor.proxy.valid
    ensures r.editor.maskCtx == sess.editor.maskCtx
  {
    var p := PushState(sess);
    p.(editor := p.editor.(overlay := None, maskCanvas := false, fullValid := false,
                           proxy := p.editor.proxy.(valid := false)))
  }

  /** clearImage('overlay') with the mask's drawing context dropped together with its canvas. */
  function ClearOverlay(sess: Session): (r: Session)
    ensures r.editor.overlay.None? && !r.editor.maskCanvas && !r.editor.maskCtx
    ensures !r.editor.fullValid && !r.editor.proxy.valid
  {
    var p := ClearOverlayAsWritten(sess);
    p.(editor := p.editor.(maskCtx := false))
  }

  /**
   * resetMask: with a mask context, the state is pushed and the mask cleared,
   * which reads the mask canvas's width; the caches are refreshed. When the
   * read throws, the push has already happened.
   */
  function ResetMask(sess: Session): (r: Result<Session>)
    ensures !sess.editor.maskCtx ==> r == Ok(sess)
    ensures r.TypeError? <==> sess.editor.maskCtx && !sess.editor.maskCanvas
    ensures r.TypeError? ==> r.partial == PushState(sess)
    ensures sess.editor.maskCtx ==> r.After().history == PushState(sess).history
    ensures r.Ok? && sess.editor.maskCtx ==> r.value.editor.pixels == [] && r.value.editor.maskDirty
  {
    if !sess.editor.maskCtx then Ok(sess)
    else
      var p := PushState(sess);
      if !p.editor.maskCanvas then TypeError(p)
      else Ok(p.(editor := UpdateOverlayCache(p.editor.(pixels := [], maskDirty := true))))
  }

  /**
   * erase: ignored without an overlay or a mask context; otherwise the stroke is
   * added to the mask, which becomes dirty. The caches are drawn into, not
   * invalidated.
   */
  function Erase(sess: Session, stroke: nat): (r: Session)
    ensures sess.editor.overlay.None? || !sess.editor.maskCtx ==> r == sess
    ensures sess.editor.overlay.Some? && sess.editor.maskCtx ==>
              r.editor.pixels == sess.editor.pixels + [stroke] && r.editor.maskDirty &&
              r.editor.fullValid == sess.editor.fullValid && r.editor.proxy == sess.editor.proxy &&
              r.history == sess.history
  {
    if sess.editor.overlay.None? || !sess.editor.maskCtx then sess
    else sess.(editor := sess.editor.(pixels := sess.editor.pixels + [stroke], maskDirty := true))
  }

  /**
   * onWheel with zoom factor `factor` (e^0.1 or e^-0.1): with Ctrl held or no
   * overlay the view zooms about the cursor; otherwise the state is pushed and
   * the overlay's scale is multiplied.
   */
  function Wheel(sess: Session, ctrl: bool, factor: real, px: real, py: real): (r: Session)
    requires sess.editor.view.scale > 0.0 && factor > 0.0
    ensures ctrl || sess.editor.overlay.None? ==>
              r.editor == sess.editor.(view := ZoomAtCursor(sess.editor.view, px, py, factor)) &&
              r.history == sess.history
    ensures !(ctrl || sess.editor.overlay.None?) ==>
              r.editor.transform.scale == sess.editor.transform.scale * factor &&
              r.editor.view == sess.editor.view
  {
    if ctrl || sess.editor.overlay.None? then
      sess.(editor := sess.editor.(view := ZoomAtCursor(sess.editor.view, px, py, factor)))
    else
      var p := PushState(sess);
      p.(editor := p.editor.(transform := p.editor.transform.(scale := p.editor.transform.scale * factor)))
  }

  // ---------------------------------------------------------------------------
  // Properties
  // ---------------------------------------------------------------------------

  /** The constructor's editor is consistent. */
  lemma InitialConsistent()
    ensures Inv(Initial)
  {
  }

  /** Pushing keeps the editor consistent. */
  lemma PushStateConsistent(sess: Session)
    requires Inv(sess.editor)
    ensures Inv(PushState(sess).editor)
  {
    GetStateCaptures(sess.editor);
  }

  /** Undo on a consistent editor never throws and keeps it consistent. */
  lemma UndoConsistent(sess: Session)
    requires Inv(sess.editor)
    ensures UndoAction(sess).Ok? && Inv(UndoAction(sess).value.editor)
  {
    if |sess.history.undo| > 0 {
      var (e1, current) := GetState(sess.editor);
      GetStateCaptures(sess.editor);
      var (h1, prev) := Undo(sess.history, current);
      RestoreStateConsistent(e1, prev.value);
    }
  }

  /** Redo on a consistent editor never throws and keeps it consistent. */
  lemma RedoConsistent(sess: Session)
    requires Inv(sess.editor)
    ensures RedoAction(sess).Ok? && Inv(RedoAction(sess).value.editor)
  {
    if |sess.history.redo| > 0 {
      var (e1, current) := GetState(sess.editor);
      GetStateCaptures(sess.editor);
      var (h1, next) := Redo(sess.history, current);
      RestoreStateConsistent(e1, next.value);
    }
  }

  /** Every editing action keeps a consistent editor consistent. */
  lemma ActionsConsistent(sess: Session, c: Control, v: real, checked: bool, canvasW: nat, canvasH: nat, stroke: nat)
    requires Inv(sess.editor)
    ensures Inv(Adjust(sess, c, v).editor)
    ensures Inv(InputChangeAsWritten(sess, c, v).editor)
    ensures Inv(SliderInputAsWritten(sess, c, v).editor)
    ensures Inv(FlipChange(sess, checked).editor)
    ensures Inv(ResetFilters(sess).editor)
    ensures Inv(ResetTransform(sess, canvasW, canvasH).editor)
    ensures Inv(ClearBackground(sess).editor)
    ensures Inv(ClearOverlay(sess).editor)
    ensures Inv(Erase(sess, stroke).editor)
  {
    PushStateConsistent(sess);
  }

  /** Loading images keeps a consistent editor consistent. */
  lemma LoadConsistent(sess: Session, size: Size, canvasW: nat, canvasH: nat)
    requires Inv(sess.editor)
    ensures Inv(LoadBackground(sess, size, canvasW, canvasH).editor)
    ensures Inv(LoadOverlay(sess, size, canvasW, canvasH).editor)
  {
    var e := sess.editor.(background := Some(size), view := FitView(canvasW, canvasH, Some(size)));
    PushStateConsistent(sess.(editor := e));
    var e2 := UpdateOverlayCache(InitMask(sess.editor.(overlay := Some(size))));
    assert Inv(e2);
    var s2 := ResetTransform(sess.(editor := e2), canvasW, canvasH);
    PushStateConsistent(sess.(editor := e2));
    PushStateConsistent(s2);
  }

  /** resetMask on a consistent editor never throws and keeps it consistent. */
  lemma ResetMaskConsistent(sess: Session)
    requires Inv(sess.editor)
    ensures ResetMask(sess).Ok? && Inv(ResetMask(sess).value.editor)
  {
    PushStateConsistent(sess);
  }

  /** Ctrl-wheel zoom and overlay scaling keep a consistent editor consistent. */
  lemma WheelConsistent(sess: Session, ctrl: bool, factor: real, px: real, py: real)
    requires Inv(sess.editor) && factor > 0.0
    ensures Inv(Wheel(sess, ctrl, factor, px, py).editor)
  {
    PushStateConsistent(sess);
  }

  /**
   * On a consistent editor, undo followed by redo brings back what the user sees
   * and the redo stack, and leaves the undo stack as long as before.
   */
  lemma UndoThenRedoRestores(sess: Session)
    requires Inv(sess.editor) && |sess.history.undo| > 0
    ensures UndoAction(sess).Ok? && RedoAction(UndoAction(sess).value).Ok?
    ensures var r := RedoAction(UndoAction(sess).value).value;
      SameContent(r.editor, sess.editor) && r.history.redo == sess.history.redo &&
      |r.history.undo| == |sess.history.undo|
  {
    var e := sess.editor;
    var (e1, current) := GetState(e);
    GetStateCaptures(e);
    var (h1, prev) := Undo(sess.history, current);
    RestoreStateConsistent(e1, prev.value);
    var e2 := RestoreState(e1, prev.value).value;
    var u := UndoAction(sess).value;
    assert u == Session(e2, h1);
    var (e3, current2) := GetState(e2);
    GetStateCaptures(e2);
    var (h2, next) := Redo(h1, current2);
    assert next == Some(current);
    RestoreStateConsistent(e3, current);
    var e4 := RestoreState(e3, current).value;
    assert RedoAction(u) == Ok(Session(e4, h2));
    assert e4.pixels == e.pixels;
  }

  /**
   * With the context kept as the code keeps it: clearing a loaded overlay, then
   * changing any control, then undoing throws, because the snapshot with a
   * `null` mask is restored while the context is set and the canvas is gone.
   */
  lemma ClearOverlayAsWrittenThenUndoThrows(sess: Session, c: Control, v: real)
    requires Inv(sess.editor) && sess.editor.overlay.Some?
    ensures UndoAction(InputChangeAsWritten(ClearOverlayAsWritten(sess), c, v)).TypeError?
    ensures UndoAction(Adjust(ClearOverlayAsWritten(sess), c, v)).TypeError?
  {
    var ctl := c;
    var c := ClearOverlayAsWritten(sess);
    GetStateCaptures(sess.editor);
    var top := c.history.undo[|c.history.undo| - 1];
    assert top.mask.Some?;
    var snap := GetState(c.editor).1;
    assert snap.mask.None?;
    assert !AreStatesEqual(top, snap);
    var a := InputChangeAsWritten(c, ctl, v);
    assert a.history.undo[|a.history.undo| - 1] == snap;
    var b := Adjust(c, ctl, v);
    assert b.history.undo[|b.history.undo| - 1] == snap;
  }

  /** With the context dropped together with the canvas, the same steps undo without throwing. */
  lemma ClearOverlayThenUndoSucceeds(sess: Session, c: Control, v: real)
    requires Inv(sess.editor)
    ensures UndoAction(Adjust(ClearOverlay(sess), c, v)).Ok?
  {
    ActionsConsistent(sess, c, v, false, 0, 0, 0);
    ActionsConsistent(ClearOverlay(sess), c, v, false, 0, 0, 0);
    UndoConsistent(Adjust(ClearOverlay(sess), c, v));
  }

  /**
   * After an undo the handlers still write into the objects `restoreState`
   * replaced: a typed value, or a slider drag, no longer reaches the transform
   * or the filters the editor draws with.
   */
  lemma InputAfterUndoIsLost(sess: Session, c: Control, v: real)
    requires |sess.history.undo| > 0
    ensures var u := UndoAction(sess).After();
      InputChangeAsWritten(u, c, v).editor.transform == u.editor.transform &&
      InputChangeAsWritten(u, c, v).editor.filters == u.editor.filters &&
      SliderInputAsWritten(u, c, v) == u
  {
    var (e1, current) := GetState(sess.editor);
    var (h1, prev) := Undo(sess.history, current);
    assert !RestoreState(e1, prev.value).After().controlsBound;
  }

  /**
   * A slider drag as written pushes only when it ends, after the value is
   * set, so the first undo after it restores the dragged value instead of the
   * one before the drag.
   */
  lemma SliderDragThenUndoKeepsValue(sess: Session, c: Control, v: real)
    requires Inv(sess.editor) && sess.editor.controlsBound
    ensures var d := PushState(SliderInputAsWritten(sess, c, v));
      UndoAction(d).Ok? && ControlValue(UndoAction(d).value.editor, c) == v
  {
    var s1 := SliderInputAsWritten(sess, c, v);
    assert Inv(s1.editor);
    var d := PushState(s1);
    PushStateConsistent(s1);
    UndoConsistent(d);
    var snap := GetState(s1.editor).1;
    var top := d.history.undo[|d.history.undo| - 1];
    assert top.transform == snap.transform && top.filters == snap.filters;
  }

  /**
   * With the state pushed before the change, undo after any control change
   * brings back the transform and filters from before it.
   */
  lemma AdjustThenUndoRestores(sess: Session, c: Control, v: real)
    requires Inv(sess.editor)
    ensures UndoAction(Adjust(sess, c, v)).Ok?
    ensures UndoAction(Adjust(sess, c, v)).value.editor.transform == sess.editor.transform
    ensures UndoAction(Adjust(sess, c, v)).value.editor.filters == sess.editor.filters
  {
    var a := Adjust(sess, c, v);
    PushStateConsistent(sess);
    UndoConsistent(a);
    var snap := GetState(sess.editor).1;
    var top := a.history.undo[|a.history.undo| - 1];
    assert top.transform == snap.transform && top.filters == snap.filters;
  }
}
