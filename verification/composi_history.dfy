/**
 * The undo/redo history of the Composi image compositor: a bounded undo stack of
 * editor snapshots and an unbounded redo stack. A snapshot holds the overlay's
 * transform and filters by value and the eraser mask by reference; a mask
 * reference is the identity of an `ImageData` object, modelled as a number,
 * together with the pixels the object holds.
 */
module ComposiHistory {

  import opened Common

  /** The overlay's placement: centre, scale, rotation in degrees and horizontal flip. */
  datatype Transform = Transform(x: real, y: real, scale: real, rotation: real, flipH: bool)

  /** The overlay's filter settings. */
  datatype Filters = Filters(opacity: real, brightness: real, contrast: real, saturation: real, hue: real)

  /** The strokes erased from the mask since it was blank, in order. */
  type Pixels = seq<nat>

  /** An `ImageData` object read from the mask: its identity and the pixels it holds. */
  datatype ImageData = ImageData(id: nat, pixels: Pixels)

  /** What `getState` captures; `mask` is `None` for `maskData: null`. */
  datatype Snapshot = Snapshot(transform: Transform, filters: Filters, mask: Option<ImageData>)

  /** The most snapshots a push keeps on the undo stack. */
  const MaxHistory: nat := 20

  datatype History = History(undo: seq<Snapshot>, redo: seq<Snapshot>)

  /** True when two masks are the same object (or both absent). */
  predicate SameMask(a: Option<ImageData>, b: Option<ImageData>)
  {
    match a
    case None => b.None?
    case Some(da) => b.Some? && b.value.id == da.id
  }

  /**
   * areStatesEqual: transform and filters compared by value, the mask by
   * reference.
   */
  predicate AreStatesEqual(s1: Snapshot, s2: Snapshot)
  {
    s1.transform == s2.transform && s1.filters == s2.filters && SameMask(s1.mask, s2.mask)
  }

  /** Mask objects with the same identity hold the same pixels. */
  predicate IdsDetermine(s1: Snapshot, s2: Snapshot)
  {
    (s1.mask.Some? && s2.mask.Some? && s1.mask.value.id == s2.mask.value.id) ==>
      s1.mask.value.pixels == s2.mask.value.pixels
  }

  /** Equal snapshots compare equal, and when identities determine contents the converse holds. */
  lemma AreStatesEqualIsEquality(s1: Snapshot, s2: Snapshot)
    requires IdsDetermine(s1, s2)
    ensures AreStatesEqual(s1, s2) <==> s1 == s2
  {
  }

  /**
   * pushState with the snapshot `s` that `getState` produced: skipped when `s`
   * equals the top of the undo stack; otherwise `s` is appended, the oldest
   * entry is dropped when the stack exceeds the bound, and the redo stack is
   * emptied.
   */
  function Push(h: History, s: Snapshot): (r: History)
    ensures |h.undo| > 0 && AreStatesEqual(h.undo[|h.undo| - 1], s) ==> r == h
    ensures !(|h.undo| > 0 && AreStatesEqual(h.undo[|h.undo| - 1], s)) ==>
              r.redo == [] && |r.undo| > 0 && r.undo[|r.undo| - 1] == s
    ensures |h.undo| <= MaxHistory ==> |r.undo| <= MaxHistory
  {
    if |h.undo| > 0 && AreStatesEqual(h.undo[|h.undo| - 1], s) then h
    else
      var u := h.undo + [s];
      History(if |u| > MaxHistory then u[1..] else u, [])
  }

  /**
   * A push that is not skipped keeps the newest entries, dropping only from the
   * front, and drops nothing while the stack is below the bound.
   */
  lemma PushKeepsNewest(h: History, s: Snapshot)
    requires !(|h.undo| > 0 && AreStatesEqual(h.undo[|h.undo| - 1], s))
    ensures IsSuffix(Push(h, s).undo, h.undo + [s])
    ensures |h.undo| < MaxHistory ==> |Push(h, s).undo| == |h.undo| + 1
    ensures |h.undo| >= MaxHistory ==> |Push(h, s).undo| == |h.undo|
  {
    var u := h.undo + [s];
    if |u| > MaxHistory {
      assert u[1..] == u[|u| - (|u| - 1)..];
    } else {
      assert u == u[|u| - |u|..];
    }
  }

  /**
   * undo with the current snapshot `current`: nothing when the undo stack is
   * empty; otherwise `current` goes onto the redo stack and the top of the undo
   * stack is popped and returned for restoring.
   */
  function Undo(h: History, current: Snapshot): (r: (History, Option<Snapshot>))
    ensures |h.undo| == 0 ==> r == (h, None)
    ensures |h.undo| > 0 ==>
              r.1 == Some(h.undo[|h.undo| - 1]) &&
              r.0.undo + [h.undo[|h.undo| - 1]] == h.undo &&
              r.0.redo == h.redo + [current]
  {
    if |h.undo| == 0 then (h, None)
    else (History(h.undo[..|h.undo| - 1], h.redo + [current]), Some(h.undo[|h.undo| - 1]))
  }

  /** redo: the mirror image of undo, with the stacks exchanged. */
  function Redo(h: History, current: Snapshot): (r: (History, Option<Snapshot>))
    ensures |h.redo| == 0 ==> r == (h, None)
    ensures |h.redo| > 0 ==>
              r.1 == Some(h.redo[|h.redo| - 1]) &&
              r.0.redo + [h.redo[|h.redo| - 1]] == h.redo &&
              r.0.undo == h.undo + [current]
  {
    if |h.redo| == 0 then (h, None)
    else (History(h.undo + [current], h.redo[..|h.redo| - 1]), Some(h.redo[|h.redo| - 1]))
  }

  /** clear: both stacks emptied. */
  function Clear(h: History): (r: History)
    ensures r.undo == [] && r.redo == []
  {
    History([], [])
  }

  /** Undo then redo, each given the snapshot the other restored, gives back the stacks and the state. */
  lemma UndoThenRedo(h: History, current: Snapshot)
    requires |h.undo| > 0
    ensures var (h1, prev) := Undo(h, current);
      prev.Some? && Redo(h1, prev.value) == (h, Some(current))
  {
    var (h1, prev) := Undo(h, current);
    assert h1.undo + [prev.value] == h.undo;
  }

  /** Redo then undo, each given the snapshot the other restored, gives back the stacks and the state. */
  lemma RedoThenUndo(h: History, current: Snapshot)
    requires |h.redo| > 0
    ensures var (h1, next) := Redo(h, current);
      next.Some? && Undo(h1, next.value) == (h, Some(current))
  {
    var (h1, next) := Redo(h, current);
    assert h1.redo + [next.value] == h.redo;
  }

  /** At most `MaxHistory` snapshots are held on the two stacks together. */
  predicate Bounded(h: History)
  {
    |h.undo| + |h.redo| <= MaxHistory
  }

  /** Every history operation keeps the stacks within the bound. */
  lemma BoundedPreserved(h: History, s: Snapshot)
    requires Bounded(h)
    ensures Bounded(Push(h, s))
    ensures Bounded(Undo(h, s).0)
    ensures Bounded(Redo(h, s).0)
    ensures Bounded(Clear(h))
  {
  }
}
