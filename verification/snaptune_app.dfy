/**
 * The SnapTune page's own rules: the zoom level the zoom buttons step in
 * tenths within fixed bounds, the reset of the five filter sliders, and the
 * counter that keeps the drop zone visible while a drag is over the page.
 */
module SnaptuneApp {

  import opened Common
  import SnaptuneProcessor

  // ---------------------------------------------------------------------------
  // Zoom
  // ---------------------------------------------------------------------------

  const ZoomMin: real := 0.1
  const ZoomMax: real := 5.0

  /** The zoom level on load and after a reset. */
  const ZoomStart: real := 1.0

  predicate ZoomInRange(z: real)
  {
    ZoomMin <= z <= ZoomMax
  }

  /** A zoom level that is a whole number of tenths. */
  predicate IsTenths(z: real)
  {
    (z * 10.0).Floor as real == z * 10.0
  }

  /**
   * updateZoom: the level plus `delta`, rounded to tenths, is taken when it
   * lies within the bounds; otherwise the level stays.
   */
  function UpdateZoom(z: real, delta: real): (r: real)
    ensures r == z || (ZoomInRange(r) && IsTenths(r))
    ensures ZoomInRange(z) ==> ZoomInRange(r)
    ensures r != z ==> z + delta - 0.05 < r <= z + delta + 0.05
    ensures var n := Round((z + delta) * 10.0) as real / 10.0;
      (ZoomInRange(n) ==> r == n) && (!ZoomInRange(n) ==> r == z)
  {
    var next := Round((z + delta) * 10.0) as real / 10.0;
    assert next * 10.0 == Round((z + delta) * 10.0) as real;
    if next >= ZoomMin && next <= ZoomMax then next else z
  }

  /** resetZoom: back to 100%. */
  function ResetZoom(z: real): (r: real)
    ensures ZoomInRange(r) && IsTenths(r)
    ensures UpdateZoom(r, 0.0) == r
  {
    assert ZoomStart * 10.0 == 10.0;
    ZoomStart
  }

  /** The zoom buttons step by a tenth in each direction; a step back undoes a step that was taken. */
  lemma ZoomInThenOut(k: int)
    requires 1 <= k < 50
    ensures UpdateZoom(k as real / 10.0, 0.1) == (k + 1) as real / 10.0
    ensures UpdateZoom(UpdateZoom(k as real / 10.0, 0.1), -0.1) == k as real / 10.0
  {
    var z := k as real / 10.0;
    assert (z + 0.1) * 10.0 == (k + 1) as real;
    assert Round((k + 1) as real) == k + 1;
    var z1 := (k + 1) as real / 10.0;
    assert (z1 - 0.1) * 10.0 == k as real;
    assert Round(k as real) == k;
  }

  /** What the user can do to the zoom level. */
  datatype ZoomAction = Step(delta: real) | Reset

  /** The zoom level after a series of actions. */
  function ApplyZoom(z: real, actions: seq<ZoomAction>): real
    decreases |actions|
  {
    if |actions| == 0 then z
    else
      var a := actions[0];
      ApplyZoom(if a.Reset? then ResetZoom(z) else UpdateZoom(z, a.delta), actions[1..])
  }

  /** From the starting level, no series of zoom actions leaves the bounds. */
  lemma {:induction false} ZoomStaysInRange(z: real, actions: seq<ZoomAction>)
    requires ZoomInRange(z)
    ensures ZoomInRange(ApplyZoom(z, actions))
    decreases |actions|
  {
    if |actions| > 0 {
      var a := actions[0];
      ZoomStaysInRange(if a.Reset? then ResetZoom(z) else UpdateZoom(z, a.delta), actions[1..]);
    }
  }

  /** The page opens at a level within the bounds, so every reachable level is within them. */
  lemma ReachableZoomInRange(actions: seq<ZoomAction>)
    ensures ZoomInRange(ApplyZoom(ZoomStart, actions))
  {
    ZoomStaysInRange(ZoomStart, actions);
  }

  // ---------------------------------------------------------------------------
  // Reset filters
  // ---------------------------------------------------------------------------

  /** The filter sliders, in the order the reset visits them. */
  const FilterIds: seq<string> := ["brightness", "contrast", "saturation", "grayscale", "sepia"]

  /** A slider's default: 100 for brightness, contrast and saturation, 0 for the others. */
  function FilterDefault(id: string): real
  {
    if id in ["brightness", "contrast", "saturation"] then 100.0 else 0.0
  }

  /** updateParam applied to each of `ids` in turn with its default. */
  function ResetEach(p: SnaptuneProcessor.Params, ids: seq<string>): SnaptuneProcessor.Params
    decreases |ids|
  {
    if |ids| == 0 then p
    else ResetEach(SnaptuneProcessor.UpdateParam(p, ids[0], FilterDefault(ids[0])), ids[1..])
  }

  /**
   * The reset-filters button: every slider back to its default through
   * updateParam; the rotation and the flips are kept.
   */
  function ResetFilters(p: SnaptuneProcessor.Params): (r: SnaptuneProcessor.Params)
    ensures r.brightness == 100.0 && r.contrast == 100.0 && r.saturation == 100.0
    ensures r.grayscale == 0.0 && r.sepia == 0.0
    ensures r.rotate == p.rotate && r.flipH == p.flipH && r.flipV == p.flipV
  {
    ResetEach(p, FilterIds)
  }

  /** Resetting the filters of freshly loaded parameters changes nothing. */
  lemma ResetFiltersOfDefaults()
    ensures ResetFilters(SnaptuneProcessor.DefaultParams) == SnaptuneProcessor.DefaultParams
  {
  }

  // ---------------------------------------------------------------------------
  // Drag counter
  // ---------------------------------------------------------------------------

  /** The drag counter and what it controls: the drop zone and the welcome panel. */
  datatype DragState = DragState(counter: int, dropZone: bool, welcome: bool)

  /** dragenter: one more element entered; the drop zone shows and the welcome panel hides. */
  function DragEnter(s: DragState): (r: DragState)
    ensures r.counter == s.counter + 1 && r.dropZone && !r.welcome
  {
    DragState(s.counter + 1, true, false)
  }

  /**
   * dragleave: one element left; only when the counter comes back to zero
   * does the drop zone hide, and then the welcome panel returns if no image
   * is loaded.
   */
  function DragLeave(s: DragState, hasImage: bool): (r: DragState)
    ensures r.counter == s.counter - 1
    ensures r.counter != 0 ==> r == s.(counter := r.counter)
    ensures r.counter == 0 ==> !r.dropZone && (r.welcome <==> s.welcome || !hasImage)
  {
    var c := s.counter - 1;
    if c == 0 then DragState(c, false, s.welcome || !hasImage) else s.(counter := c)
  }

  /**
   * drop: the counter is reset and the drop zone hidden; the welcome panel
   * returns when no file was dropped and no image is loaded. The outcome of
   * loading a dropped file is not part of this model.
   */
  function Drop(s: DragState, hasFiles: bool, hasImage: bool): (r: DragState)
    ensures r.counter == 0 && !r.dropZone
    ensures r.welcome <==> s.welcome || (!hasFiles && !hasImage)
  {
    DragState(0, false, s.welcome || (!hasFiles && !hasImage))
  }

  /** `n` dragenter events. */
  function Enters(s: DragState, n: nat): DragState
    decreases n
  {
    if n == 0 then s else Enters(DragEnter(s), n - 1)
  }

  /** `n` dragleave events. */
  function Leaves(s: DragState, n: nat, hasImage: bool): DragState
    decreases n
  {
    if n == 0 then s else Leaves(DragLeave(s, hasImage), n - 1, hasImage)
  }

  /** After entering `n` nested elements the counter is up by `n` and the drop zone shows. */
  lemma {:induction false} EntersShow(s: DragState, n: nat)
    requires n > 0
    ensures Enters(s, n).counter == s.counter + n && Enters(s, n).dropZone
    decreases n
  {
    if n > 1 {
      EntersShow(DragEnter(s), n - 1);
    }
  }

  /** Leaving fewer elements than are entered keeps the drop zone visible. */
  lemma {:induction false} LeavesKeepShown(s: DragState, m: nat, hasImage: bool)
    requires s.dropZone && m < s.counter
    ensures Leaves(s, m, hasImage).dropZone
    ensures Leaves(s, m, hasImage).counter == s.counter - m
    decreases m
  {
    if m > 0 {
      LeavesKeepShown(DragLeave(s, hasImage), m - 1, hasImage);
    }
  }

  /**
   * From a quiet page, a drag that crosses `n` nested elements keeps the drop
   * zone up until the last of them is left, and the last leave hides it.
   */
  lemma BalancedDragHides(s: DragState, n: nat, m: nat, hasImage: bool)
    requires s.counter == 0 && n > 0 && m <= n
    ensures m < n ==> Leaves(Enters(s, n), m, hasImage).dropZone
    ensures !Leaves(Enters(s, n), n, hasImage).dropZone
  {
    EntersShow(s, n);
    var e := Enters(s, n);
    if m < n {
      LeavesKeepShown(e, m, hasImage);
    }
    LeavesKeepShown(e, n - 1, hasImage);
    LeavesSplit(e, n - 1, hasImage);
  }

  /** `n` leaves are `n - 1` leaves followed by one more. */
  lemma {:induction false} LeavesSplit(s: DragState, k: nat, hasImage: bool)
    ensures Leaves(s, k + 1, hasImage) == DragLeave(Leaves(s, k, hasImage), hasImage)
    decreases k
  {
    if k > 0 {
      LeavesSplit(DragLeave(s, hasImage), k - 1, hasImage);
    }
  }
}
