/**
 * The crop rectangle of the SnapTune photo editor, in display pixels of the
 * canvas as laid out on the page: the aspect-ratio choice and orientation, the
 * centred initial rectangle, the move and resize drags with their clamping
 * to the canvas and minimum size, and the mapping of the rectangle to the
 * canvas's internal pixels. The canvas's displayed size is a parameter.
 */
module SnaptuneCrop {

  import opened Common

  /** A rectangle: left, top, width and height. */
  datatype Rect = Rect(x: real, y: real, w: real, h: real)

  /** An aspect-ratio button: free, or `w:h` with positive whole parts. */
  datatype RatioChoice = Free | Fixed(w: Dim, h: Dim)

  /** The smallest width and height a resize leaves. */
  const MinSide: real := 20.0

  /** The share of the canvas the initial rectangle spans. */
  const InitialShare: real := 0.8

  /** How far the width-to-height ratio may drift before a resize re-fits it. */
  const RatioTolerance: real := 0.01

  /** An active ratio, when there is one, is positive (and so counts as set). */
  predicate ValidRatio(ratio: Option<real>)
  {
    ratio.Some? ==> ratio.value > 0.0
  }

  // ---------------------------------------------------------------------------
  // Ratio and initial rectangle
  // ---------------------------------------------------------------------------

  /**
   * setRatio for a `w:h` button: `w / h`, inverted when it does not match
   * the orientation (above one for portrait, below one for landscape).
   */
  function OrientedRatio(w: Dim, h: Dim, isPortrait: bool): (r: real)
    ensures r > 0.0
    ensures r == w as real / h as real || r == h as real / w as real
    ensures isPortrait ==> r <= 1.0
    ensures !isPortrait ==> r >= 1.0
  {
    var r := w as real / h as real;
    assert 1.0 / r == h as real / w as real;
    if isPortrait then (if r > 1.0 then 1.0 / r else r)
    else (if r < 1.0 then 1.0 / r else r)
  }

  /** The two orientations give reciprocal ratios, whichever way round the button names the sides. */
  lemma OrientedRatioReciprocal(w: Dim, h: Dim)
    ensures OrientedRatio(w, h, true) * OrientedRatio(w, h, false) == 1.0
    ensures OrientedRatio(w, h, true) == OrientedRatio(h, w, true)
    ensures OrientedRatio(w, h, false) == OrientedRatio(h, w, false)
  {
    var a, b := w as real, h as real;
    assert (a / b) * (b / a) == 1.0;
    assert a / b > 1.0 <==> b / a < 1.0 by {
      assert a / b > 1.0 <==> a > b;
      assert b / a < 1.0 <==> b < a;
    }
  }

  /** The ratio setRatio makes active for a button. */
  function ActiveRatio(choice: RatioChoice, isPortrait: bool): (r: Option<real>)
    ensures ValidRatio(r)
    ensures r.None? <==> choice.Free?
  {
    match choice
    case Free => None
    case Fixed(w, h) => Some(OrientedRatio(w, h, isPortrait))
  }

  /** JavaScript's `a / b > r` for non-negative `a` and `b`: a zero divisor gives Infinity, or NaN when `a` is zero too. */
  predicate WiderThan(a: real, b: real, r: real)
    requires a >= 0.0 && b >= 0.0
  {
    if b != 0.0 then a / b > r else a > 0.0
  }

  /** `a / b` for a positive divisor is at most `c` exactly when `a` is at most `c * b`. */
  lemma DivAtMost(a: real, b: real, c: real)
    requires b > 0.0
    ensures a / b <= c <==> a <= c * b
  {
    assert a == (a / b) * b;
    if a / b <= c {
      assert (a / b) * b <= c * b;
    } else {
      assert (a / b) * b > c * b;
    }
  }

  /**
   * The largest part of a `tw` by `th` area with the active ratio: the whole
   * area when there is none, otherwise the area narrowed along whichever side
   * is too long.
   */
  function FitToRatio(tw: real, th: real, ratio: Option<real>): (s: (real, real))
    requires tw >= 0.0 && th >= 0.0 && ValidRatio(ratio)
    ensures 0.0 <= s.0 <= tw && 0.0 <= s.1 <= th
    ensures ratio.None? ==> s == (tw, th)
    ensures ratio.Some? ==> s.0 == s.1 * ratio.value && (s.0 == tw || s.1 == th)
  {
    if ratio.None? then (tw, th)
    else if WiderThan(tw, th, ratio.value) then
      FitHeight(tw, th, ratio.value);
      (th * ratio.value, th)
    else
      FitWidth(tw, th, ratio.value);
      (tw, tw / ratio.value)
  }

  /** resetOverlay: 80% of the canvas each way, fitted to the active ratio, and centred. */
  function ResetOverlay(ratio: Option<real>, cw: real, ch: real): (r: Rect)
    requires cw >= 0.0 && ch >= 0.0 && ValidRatio(ratio)
    ensures 0.0 <= r.w <= InitialShare * cw && 0.0 <= r.h <= InitialShare * ch
    ensures r.x + r.w / 2.0 == cw / 2.0 && r.y + r.h / 2.0 == ch / 2.0
    ensures ratio.None? ==> r.w == InitialShare * cw && r.h == InitialShare * ch
    ensures ratio.Some? ==> r.w == r.h * ratio.value && (r.w == InitialShare * cw || r.h == InitialShare * ch)
  {
    var size := FitToRatio(cw * InitialShare, ch * InitialShare, ratio);
    Rect((cw - size.0) / 2.0, (ch - size.1) / 2.0, size.0, size.1)
  }

  /** Narrowing a too-wide area to the ratio keeps its height and fits its width. */
  lemma FitHeight(tw: real, th: real, q: real)
    requires tw >= 0.0 && th >= 0.0 && q > 0.0 && WiderThan(tw, th, q)
    ensures 0.0 <= th * q <= tw
  {
    if th != 0.0 {
      DivAtMost(tw, th, q);
    }
  }

  /** Narrowing a too-tall area to the ratio keeps its width and fits its height. */
  lemma FitWidth(tw: real, th: real, q: real)
    requires tw >= 0.0 && th >= 0.0 && q > 0.0 && !WiderThan(tw, th, q)
    ensures 0.0 <= tw / q <= th && tw / q * q == tw
  {
    if th != 0.0 {
      DivAtMost(tw, th, q);
      DivAtMost(tw, q, th);
    }
  }

  /** The crop tool's state: the active ratio, the orientation and the rectangle. */
  datatype Crop = Crop(activeRatio: Option<real>, isPortrait: bool, rect: Rect)

  /** setRatio: the new ratio and orientation, then a fresh centred rectangle. */
  function SetRatio(choice: RatioChoice, isPortrait: bool, cw: real, ch: real): (c: Crop)
    requires cw >= 0.0 && ch >= 0.0
    ensures c.activeRatio == ActiveRatio(choice, isPortrait) && c.isPortrait == isPortrait
    ensures c.rect == ResetOverlay(c.activeRatio, cw, ch)
  {
    var ratio := ActiveRatio(choice, isPortrait);
    Crop(ratio, isPortrait, ResetOverlay(ratio, cw, ch))
  }

  // ---------------------------------------------------------------------------
  // Dragging
  // ---------------------------------------------------------------------------

  /**
   * A move drag: the rectangle shifted by the cursor's travel, each corner
   * clamped so that the rectangle stays on the canvas, its size unchanged.
   */
  function MoveDrag(start: Rect, dx: real, dy: real, cw: real, ch: real): (r: Rect)
    ensures r.w == start.w && r.h == start.h
    ensures r.x >= 0.0 && r.y >= 0.0
    ensures start.w <= cw ==> r.x + r.w <= cw
    ensures start.h <= ch ==> r.y + r.h <= ch
    ensures 0.0 <= start.x + dx <= cw - start.w ==> r.x == start.x + dx
    ensures 0.0 <= start.y + dy <= ch - start.h ==> r.y == start.y + dy
  {
    Rect(Max(0.0, Min(start.x + dx, cw - start.w)), Max(0.0, Min(start.y + dy, ch - start.h)), start.w, start.h)
  }

  /** The sides a resize handle pulls: its name holds `n`, `s`, `e` or `w`. */
  predicate Pulls(handle: string, side: char)
  {
    side in handle
  }

  /**
   * The free resize: an east or south handle moves the right or bottom edge;
   * a west or north handle moves the left or top edge, the opposite edge
   * staying where it was.
   */
  function Stretch(start: Rect, handle: string, dx: real, dy: real): (r: Rect)
    ensures Pulls(handle, 'w') ==> r.x == start.x + dx && r.x + r.w == start.x + start.w
    ensures !Pulls(handle, 'w') ==> r.x == start.x && r.w == (if Pulls(handle, 'e') then start.w + dx else start.w)
    ensures Pulls(handle, 'n') ==> r.y == start.y + dy && r.y + r.h == start.y + start.h
    ensures !Pulls(handle, 'n') ==> r.y == start.y && r.h == (if Pulls(handle, 's') then start.h + dy else start.h)
  {
    var w := if Pulls(handle, 'e') then start.w + dx else start.w;
    var h := if Pulls(handle, 's') then start.h + dy else start.h;
    var (x, w) := if Pulls(handle, 'w') then (start.x + dx, start.w - dx) else (start.x, w);
    var (y, h) := if Pulls(handle, 'n') then (start.y + dy, start.h - dy) else (start.y, h);
    Rect(x, y, w, h)
  }

  /** The ratio lock: a handle with an east or west side sets the height from the width; otherwise the width from the height. */
  function LockRatio(r0: Rect, handle: string, ratio: Option<real>): (r: Rect)
    requires ValidRatio(ratio)
    ensures r.x == r0.x && r.y == r0.y
    ensures ratio.None? ==> r == r0
    ensures ratio.Some? ==> r.w == r.h * ratio.value
    ensures ratio.Some? && (Pulls(handle, 'e') || Pulls(handle, 'w')) ==> r.w == r0.w
    ensures ratio.Some? && !(Pulls(handle, 'e') || Pulls(handle, 'w')) ==> r.h == r0.h
  {
    if ratio.None? then r0
    else if Pulls(handle, 'e') || Pulls(handle, 'w') then
      assert r0.w / ratio.value * ratio.value == r0.w;
      r0.(h := r0.w / ratio.value)
    else r0.(w := r0.h * ratio.value)
  }

  /**
   * Clamping a resize to the canvas: an edge past the left or top is pulled
   * back to 0 at the cost of size, and an edge past the right or bottom is
   * pulled back to the canvas's edge.
   */
  function ClampToCanvas(r0: Rect, cw: real, ch: real): (r: Rect)
    ensures r.x >= 0.0 && r.y >= 0.0
    ensures r.x + r.w <= cw && r.y + r.h <= ch
    ensures 0.0 <= r0.x && r0.x + r0.w <= cw ==> r.x == r0.x && r.w == r0.w
    ensures 0.0 <= r0.y && r0.y + r0.h <= ch ==> r.y == r0.y && r.h == r0.h
  {
    var (x, w) := if r0.x < 0.0 then (0.0, r0.w + r0.x) else (r0.x, r0.w);
    var (y, h) := if r0.y < 0.0 then (0.0, r0.h + r0.y) else (r0.y, r0.h);
    var w := if x + w > cw then cw - x else w;
    var h := if y + h > ch then ch - y else h;
    Rect(x, y, w, h)
  }

  /** The minimum size: a side below `MinSide` is raised to it, the corner staying put. */
  function MinSize(r0: Rect): (r: Rect)
    ensures r.x == r0.x && r.y == r0.y
    ensures r.w >= MinSide && r.h >= MinSide
    ensures r0.w >= MinSide ==> r.w == r0.w
    ensures r0.h >= MinSide ==> r.h == r0.h
  {
    Rect(r0.x, r0.y, if r0.w < MinSide then MinSide else r0.w, if r0.h < MinSide then MinSide else r0.h)
  }

  /**
   * The re-fit after clamping: when the clamped rectangle has drifted from
   * the active ratio by more than the tolerance, the longer side is cut to
   * the ratio, and a moved west or north edge is shifted so that the
   * opposite edge stays where the drag started.
   */
  function Refit(start: Rect, r0: Rect, handle: string, ratio: Option<real>): (r: Rect)
    requires ValidRatio(ratio) && r0.h > 0.0
    ensures ratio.None? || Abs(r0.w / r0.h - ratio.value) <= RatioTolerance ==> r == r0
    ensures r.w <= r0.w && r.h <= r0.h
    ensures r.w == r0.w || r.h == r0.h
    ensures ratio.Some? && Abs(r0.w / r0.h - ratio.value) > RatioTolerance ==> r.w == r.h * ratio.value
    ensures Pulls(handle, 'w') && r.w != r0.w ==> r.x + r.w == start.x + start.w
    ensures Pulls(handle, 'n') && r.h != r0.h ==> r.y + r.h == start.y + start.h
  {
    if ratio.None? then r0
    else
      var q := ratio.value;
      if Abs(r0.w / r0.h - q) <= RatioTolerance then r0
      else if Pulls(handle, 'e') || Pulls(handle, 'w') then
        var wFromH := r0.h * q;
        var hFromW := r0.w / q;
        if wFromH <= r0.w then
          var x := if Pulls(handle, 'w') then (start.x + start.w) - wFromH else r0.x;
          r0.(w := wFromH, x := x)
        else
          DivAtMost(r0.w, q, r0.h);
          var y := if Pulls(handle, 'n') then (start.y + start.h) - hFromW else r0.y;
          r0.(h := hFromW, y := y)
      else if r0.w > r0.h * q then
        var x := if Pulls(handle, 'w') then (start.x + start.w) - r0.h * q else r0.x;
        r0.(w := r0.h * q, x := x)
      else
        DivAtMost(r0.w, q, r0.h);
        var y := if Pulls(handle, 'n') then (start.y + start.h) - r0.w / q else r0.y;
        r0.(h := r0.w / q, y := y)
  }

  /** A resize drag as written: stretch, lock the ratio, clamp, apply the minimum size, re-fit. */
  function ResizeAsWritten(start: Rect, handle: string, dx: real, dy: real, ratio: Option<real>, cw: real, ch: real): (r: Rect)
    requires ValidRatio(ratio)
    ensures ratio.None? ==> r == MinSize(ClampToCanvas(Stretch(start, handle, dx, dy), cw, ch))
  {
    var locked := LockRatio(Stretch(start, handle, dx, dy), handle, ratio);
    Refit(start, MinSize(ClampToCanvas(locked, cw, ch)), handle, ratio)
  }

  /**
   * With a ratio set, the re-fit runs after the minimum size and can cut a
   * side below it: a south-east drag that shrinks a 3:4 portrait rectangle
   * to a sliver ends 15 pixels wide.
   */
  lemma ResizeAsWrittenBelowMinimum()
    ensures ResizeAsWritten(Rect(10.0, 10.0, 100.0, 100.0), "se", -95.0, 0.0, Some(0.75), 500.0, 500.0).w == 15.0
  {
    var start := Rect(10.0, 10.0, 100.0, 100.0);
    var stretched := Stretch(start, "se", -95.0, 0.0);
    assert Pulls("se", 'e') && Pulls("se", 's') && !Pulls("se", 'w') && !Pulls("se", 'n');
    assert stretched == Rect(10.0, 10.0, 5.0, 100.0);
    var locked := LockRatio(stretched, "se", Some(0.75));
    assert locked == Rect(10.0, 10.0, 5.0, 5.0 / 0.75);
    var clamped := ClampToCanvas(locked, 500.0, 500.0);
    assert clamped == locked;
    var sized := MinSize(clamped);
    assert sized == Rect(10.0, 10.0, 20.0, 20.0);
    assert Abs(sized.w / sized.h - 0.75) > RatioTolerance;
  }

  /** A resize drag with the minimum size applied once more after the re-fit. */
  function Resize(start: Rect, handle: string, dx: real, dy: real, ratio: Option<real>, cw: real, ch: real): (r: Rect)
    requires ValidRatio(ratio)
    ensures r.w >= MinSide && r.h >= MinSide
    ensures ratio.None? ==> r.x >= 0.0 && r.y >= 0.0
    ensures ratio.None? ==> (r.w == MinSide || r.x + r.w <= cw) && (r.h == MinSide || r.y + r.h <= ch)
  {
    MinSize(ResizeAsWritten(start, handle, dx, dy, ratio, cw, ch))
  }

  /** The extra minimum-size step changes nothing when the drag left both sides long enough. */
  lemma ResizeAgreesAboveMinimum(start: Rect, handle: string, dx: real, dy: real, ratio: Option<real>, cw: real, ch: real)
    requires ValidRatio(ratio)
    requires var r := ResizeAsWritten(start, handle, dx, dy, ratio, cw, ch); r.w >= MinSide && r.h >= MinSide
    ensures Resize(start, handle, dx, dy, ratio, cw, ch) == ResizeAsWritten(start, handle, dx, dy, ratio, cw, ch)
  {
  }

  /**
   * When the ratio-locked rectangle lies on the canvas and is above the
   * minimum size, the resize keeps the active ratio exactly.
   */
  lemma ResizeKeepsRatio(start: Rect, handle: string, dx: real, dy: real, q: real, cw: real, ch: real)
    requires q > 0.0
    requires var l := LockRatio(Stretch(start, handle, dx, dy), handle, Some(q));
      0.0 <= l.x && l.x + l.w <= cw && 0.0 <= l.y && l.y + l.h <= ch && l.w >= MinSide && l.h >= MinSide
    ensures var r := Resize(start, handle, dx, dy, Some(q), cw, ch);
      r == LockRatio(Stretch(start, handle, dx, dy), handle, Some(q)) && r.w == r.h * q
  {
    var l := LockRatio(Stretch(start, handle, dx, dy), handle, Some(q));
    assert ClampToCanvas(l, cw, ch) == l;
    assert MinSize(l) == l;
    assert l.w / l.h == q;
  }

  /**
   * A drag as written: `'move'` moves the rectangle, any other handle resizes
   * it with the re-fit last, so only a drag without a ratio is sure to keep
   * the minimum size.
   */
  function DragAsWritten(start: Rect, handle: string, dx: real, dy: real, ratio: Option<real>, cw: real, ch: real): (r: Rect)
    requires ValidRatio(ratio)
    ensures handle == "move" ==> r == MoveDrag(start, dx, dy, cw, ch)
    ensures handle != "move" ==> r == ResizeAsWritten(start, handle, dx, dy, ratio, cw, ch)
    ensures handle != "move" && ratio.None? ==> r.w >= MinSide && r.h >= MinSide
  {
    if handle == "move" then MoveDrag(start, dx, dy, cw, ch)
    else ResizeAsWritten(start, handle, dx, dy, ratio, cw, ch)
  }

  /** The corrected drag: a move, or the resize that applies the minimum size last. */
  function Drag(start: Rect, handle: string, dx: real, dy: real, ratio: Option<real>, cw: real, ch: real): (r: Rect)
    requires ValidRatio(ratio)
    ensures handle == "move" ==> r.w == start.w && r.h == start.h
    ensures handle != "move" ==> r.w >= MinSide && r.h >= MinSide
    ensures handle == "move" ==> r == DragAsWritten(start, handle, dx, dy, ratio, cw, ch)
  {
    if handle == "move" then MoveDrag(start, dx, dy, cw, ch)
    else Resize(start, handle, dx, dy, ratio, cw, ch)
  }

  /** Through the `se` handle, the drag as written can leave the crop below the minimum size. */
  lemma DragAsWrittenBelowMinimum()
    ensures DragAsWritten(Rect(10.0, 10.0, 100.0, 100.0), "se", -95.0, 0.0, Some(0.75), 500.0, 500.0).w < MinSide
  {
    ResizeAsWrittenBelowMinimum();
  }

  /** getCursorForHandle: the diagonal resize cursors for the corners, the move cursor otherwise. */
  function CursorFor(handle: string): (c: string)
    ensures c == "nwse-resize" <==> handle == "nw" || handle == "se"
    ensures c == "nesw-resize" <==> handle == "ne" || handle == "sw"
    ensures c == "move" <==> !(handle in {"nw", "se", "ne", "sw"})
  {
    if handle == "nw" || handle == "se" then "nwse-resize"
    else if handle == "ne" || handle == "sw" then "nesw-resize"
    else "move"
  }

  // ---------------------------------------------------------------------------
  // Crop data
  // ---------------------------------------------------------------------------

  /**
   * getCropData: the rectangle in the canvas's internal pixels, horizontal
   * values scaled by internal over displayed width and vertical values by
   * internal over displayed height.
   */
  function CropData(r: Rect, internalW: nat, internalH: nat, displayW: real, displayH: real): (c: Rect)
    requires displayW > 0.0 && displayH > 0.0
    ensures c.x * displayW == r.x * internalW as real && c.w * displayW == r.w * internalW as real
    ensures c.y * displayH == r.y * internalH as real && c.h * displayH == r.h * internalH as real
  {
    var sx, sy := internalW as real / displayW, internalH as real / displayH;
    assert sx * displayW == internalW as real;
    assert sy * displayH == internalH as real;
    Rect(r.x * sx, r.y * sy, r.w * sx, r.h * sy)
  }

  /** A rectangle within the displayed canvas maps to one within the internal canvas. */
  lemma CropDataInside(r: Rect, internalW: nat, internalH: nat, displayW: real, displayH: real)
    requires displayW > 0.0 && displayH > 0.0
    requires 0.0 <= r.x && 0.0 <= r.w && r.x + r.w <= displayW
    requires 0.0 <= r.y && 0.0 <= r.h && r.y + r.h <= displayH
    ensures var c := CropData(r, internalW, internalH, displayW, displayH);
      0.0 <= c.x && c.x + c.w <= internalW as real && 0.0 <= c.y && c.y + c.h <= internalH as real
  {
    var c := CropData(r, internalW, internalH, displayW, displayH);
    assert (c.x + c.w) * displayW == (r.x + r.w) * internalW as real;
    assert (r.x + r.w) * internalW as real <= displayW * internalW as real;
    assert (c.y + c.h) * displayH == (r.y + r.h) * internalH as real;
    assert (r.y + r.h) * internalH as real <= displayH * internalH as real;
  }
}
