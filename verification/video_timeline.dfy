/**
 * The slideshow-to-video tools Snap2V and Snap2Mov: the size of the video
 * canvas derived from the first image, the timeline giving every image its
 * share of the target duration, the lookup of the image shown at a given
 * time, the white fade-in and fade-out overlay, and the reordering and
 * deletion of images. The two tools share this logic and differ only in the
 * largest side they allow (1280 or 1920 in Snap2V, always 1920 in Snap2Mov).
 */
module VideoTimeline {

  import opened Common

  // ---------------------------------------------------------------------------
  // Output size
  // ---------------------------------------------------------------------------

  /** The video canvas in pixels; the parity adjustment can bring a side to zero. */
  datatype Canvas = Canvas(w: nat, h: nat)

  /** The largest sides the resolution buttons offer. */
  predicate IsMaxSize(m: nat)
  {
    m == 1280 || m == 1920
  }

  /** The resolution Snap2Mov always uses. */
  const Snap2MovMaxSize: nat := 1920

  /** `n` made even by dropping one pixel when it is odd. */
  function Even(n: nat): (r: nat)
    ensures r % 2 == 0
    ensures r <= n && n - r <= 1
  {
    if n % 2 != 0 then n - 1 else n
  }

  /** `Math.round(side * (maxSize / longest))`, the shorter side rescaled. */
  function Rescaled(side: Dim, maxSize: nat, longest: Dim): (r: nat)
    ensures side as real * (maxSize as real / longest as real) - 0.5 < r as real
    ensures r as real <= side as real * (maxSize as real / longest as real) + 0.5
  {
    Round(side as real * (maxSize as real / longest as real))
  }

  /** A side rescaled by a factor below one, no longer than the reference side, stays within both bounds. */
  lemma RescaledBelow(side: Dim, maxSize: nat, longest: Dim)
    requires maxSize < longest && side <= longest
    ensures Rescaled(side, maxSize, longest) <= maxSize
    ensures Rescaled(side, maxSize, longest) <= side
  {
    var f := maxSize as real / longest as real;
    var l, sd := longest as real, side as real;
    assert f * l == maxSize as real;
    assert (1.0 - f) * l == l - maxSize as real;
    assert 0.0 <= f < 1.0;
    assert sd * f == l * f - (l - sd) * f;
    assert (l - sd) * f >= 0.0;
    assert sd * f < sd by {
      assert sd - sd * f == sd * (1.0 - f);
    }
  }

  /**
   * setupCanvas: an image whose longest side exceeds `maxSize` is scaled down
   * so that this side becomes `maxSize` (a square takes the portrait branch);
   * then each odd side loses one pixel.
   */
  function OutputSize(w: Dim, h: Dim, maxSize: nat): (c: Canvas)
    requires IsMaxSize(maxSize)
    ensures c.w % 2 == 0 && c.h % 2 == 0
    ensures c.w <= w && c.h <= h
    ensures c.w <= maxSize && c.h <= maxSize
    ensures w <= maxSize && h <= maxSize ==> c == Canvas(Even(w), Even(h))
    ensures (w > maxSize || h > maxSize) && w > h ==>
              c.w == maxSize &&
              h as real * (maxSize as real / w as real) - 1.5 < c.h as real <= h as real * (maxSize as real / w as real) + 0.5
    ensures (w > maxSize || h > maxSize) && w <= h ==>
              c.h == maxSize &&
              w as real * (maxSize as real / h as real) - 1.5 < c.w as real <= w as real * (maxSize as real / h as real) + 0.5
  {
    var longest := if w >= h then w else h;
    if longest > maxSize then
      if w > h then
        RescaledBelow(h, maxSize, w);
        Canvas(Even(maxSize), Even(Rescaled(h, maxSize, w)))
      else
        RescaledBelow(w, maxSize, h);
        Canvas(Even(Rescaled(w, maxSize, h)), Even(maxSize))
    else
      Canvas(Even(w), Even(h))
  }

  // ---------------------------------------------------------------------------
  // Timeline
  // ---------------------------------------------------------------------------

  /** The length of the fade-in and of the fade-out, in seconds. */
  const FadeSeconds: real := 1.0

  /** The frame rate of the generated video. */
  const Fps: nat := 30

  /** The sum of the first `n` durations, accumulated from the front as `reduce` does. */
  function SumTo(d: seq<real>, n: nat): real
    requires n <= |d|
  {
    if n == 0 then 0.0 else SumTo(d, n - 1) + d[n - 1]
  }

  /** The total length of a timeline. */
  function Total(d: seq<real>): real
  {
    SumTo(d, |d|)
  }

  /** The time at which image `i` stops being shown. */
  function End(d: seq<real>, i: nat): real
    requires i < |d|
  {
    SumTo(d, i + 1)
  }

  /**
   * The timeline built by generateVideo: every one of `count` images lasts
   * `target / count` seconds; with the fade on, the first and then the last
   * entry gain one second each (the same entry twice when there is one image).
   */
  function Durations(count: nat, target: real, fade: bool): (d: seq<real>)
    requires count > 0
    ensures |d| == count
    ensures forall i | 0 <= i < count ::
              d[i] == target / count as real
                      + (if fade && i == 0 then FadeSeconds else 0.0)
                      + (if fade && i == count - 1 then FadeSeconds else 0.0)
  {
    var base := seq(count, _ => target / count as real);
    if fade then
      var first := base[0 := base[0] + FadeSeconds];
      first[count - 1 := first[count - 1] + FadeSeconds]
    else base
  }

  /** A timeline of equal durations lasts their number times the duration. */
  lemma {:induction false} SumToConst(d: seq<real>, n: nat, c: real)
    requires n <= |d|
    requires forall i | 0 <= i < n :: d[i] == c
    ensures SumTo(d, n) == n as real * c
  {
    if n > 0 {
      SumToConst(d, n - 1, c);
    }
  }

  /** Lengthening one entry lengthens every sum that includes it by the same amount. */
  lemma {:induction false} SumToUpdate(d: seq<real>, i: nat, x: real, n: nat)
    requires i < |d| && n <= |d|
    ensures SumTo(d[i := d[i] + x], n) == SumTo(d, n) + (if i < n then x else 0.0)
  {
    if n > 0 {
      SumToUpdate(d, i, x, n - 1);
    }
  }

  /** The timeline lasts the target duration, plus the two fade seconds when the fade is on. */
  lemma DurationsTotal(count: nat, target: real, fade: bool)
    requires count > 0
    ensures Total(Durations(count, target, fade)) == target + (if fade then 2.0 * FadeSeconds else 0.0)
  {
    var base := seq(count, _ => target / count as real);
    SumToConst(base, count, target / count as real);
    assert count as real * (target / count as real) == target;
    assert SumTo(base, count) == target;
    if fade {
      var first := base[0 := base[0] + FadeSeconds];
      var d := first[count - 1 := first[count - 1] + FadeSeconds];
      SumToUpdate(base, 0, FadeSeconds, count);
      assert SumTo(first, count) == target + FadeSeconds;
      SumToUpdate(first, count - 1, FadeSeconds, count);
      assert SumTo(d, count) == target + 2.0 * FadeSeconds;
      assert Durations(count, target, fade) == d;
    } else {
      assert Durations(count, target, fade) == base;
    }
  }

  /** `Math.ceil(total * 30)`: the frames that cover the whole timeline. */
  function TotalFrames(total: real): (n: int)
    ensures n as real / Fps as real >= total
    ensures (n - 1) as real / Fps as real < total
  {
    Ceil(total * Fps as real)
  }

  // ---------------------------------------------------------------------------
  // Rendering a frame
  // ---------------------------------------------------------------------------

  /**
   * The image shown at time `t` and the time elapsed within it: the first
   * image whose end lies after `t`, or, when there is none, the last image
   * with its whole duration elapsed.
   */
  predicate IsActive(d: seq<real>, t: real, idx: nat, inImage: real)
  {
    idx < |d| &&
    if exists i | 0 <= i < |d| :: t < End(d, i) then
      t < End(d, idx) && (forall j | 0 <= j < idx :: t >= End(d, j)) && inImage == t - SumTo(d, idx)
    else
      idx == |d| - 1 && inImage == d[|d| - 1]
  }

  /** The active-image loop of renderToCanvas / renderFrame. */
  method ActiveImage(d: seq<real>, t: real) returns (idx: nat, inImage: real)
    requires |d| > 0
    ensures IsActive(d, t, idx, inImage)
  {
    var acc := 0.0;
    var i := 0;
    idx, inImage := 0, 0.0;
    while i < |d|
      invariant 0 <= i <= |d|
      invariant acc == SumTo(d, i)
      invariant forall j | 0 <= j < i :: t >= End(d, j)
      invariant i == |d| ==> idx == |d| - 1 && inImage == d[|d| - 1]
    {
      if t < acc + d[i] {
        idx, inImage := i, t - acc;
        return;
      }
      acc := acc + d[i];
      if i == |d| - 1 {
        idx, inImage := i, d[i];
      }
      i := i + 1;
    }
  }

  /** The active image is determined by the timeline and the time. */
  lemma IsActiveUnique(d: seq<real>, t: real, i1: nat, x1: real, i2: nat, x2: real)
    requires IsActive(d, t, i1, x1) && IsActive(d, t, i2, x2)
    ensures i1 == i2 && x1 == x2
  {
  }

  /** With positive durations the end times grow, so the total is the last end. */
  lemma {:induction false} EndsBelowTotal(d: seq<real>, i: nat, n: nat)
    requires forall k | 0 <= k < |d| :: d[k] > 0.0
    requires i < n <= |d|
    ensures End(d, i) <= SumTo(d, n)
  {
    if i + 1 < n {
      EndsBelowTotal(d, i, n - 1);
    }
  }

  /** With positive durations the starts are non-negative. */
  lemma {:induction false} StartsNonNegative(d: seq<real>, n: nat)
    requires forall k | 0 <= k < |d| :: d[k] > 0.0
    requires n <= |d|
    ensures SumTo(d, n) >= 0.0
  {
    if n > 0 {
      StartsNonNegative(d, n - 1);
    }
  }

  /**
   * With positive durations, a time within the video falls inside the active
   * image, and a time at or past the total shows the last image to its end.
   */
  lemma ActiveWithinImage(d: seq<real>, t: real, idx: nat, inImage: real)
    requires forall k | 0 <= k < |d| :: d[k] > 0.0
    requires IsActive(d, t, idx, inImage)
    ensures 0.0 <= t < Total(d) ==> 0.0 <= inImage < d[idx]
    ensures t >= Total(d) ==> idx == |d| - 1 && inImage == d[|d| - 1]
  {
    if t >= Total(d) {
      forall i | 0 <= i < |d|
        ensures t >= End(d, i)
      {
        EndsBelowTotal(d, i, |d|);
      }
    } else if t >= 0.0 {
      assert t < End(d, |d| - 1);
      if idx > 0 {
        assert t >= End(d, idx - 1);
      } else {
        assert SumTo(d, idx) == 0.0;
      }
    }
  }

  /** The white overlays drawn over a frame: their alphas, or `None` when not drawn. */
  datatype Overlay = Overlay(fadeIn: Option<real>, fadeOut: Option<real>)

  /** The overlay's alpha `x` seconds before the fade ends: one minus the elapsed share, clamped. */
  function FadeAlpha(x: real): (a: real)
    ensures 0.0 <= a <= 1.0
    ensures x <= 0.0 ==> a == 1.0
    ensures 0.0 <= x <= FadeSeconds ==> a == 1.0 - x / FadeSeconds
  {
    Clamp(0.0, 1.0, 1.0 - x / FadeSeconds)
  }

  /** The overlay fades monotonically: the further into the fade, the more transparent. */
  lemma FadeAlphaAntitone(x: real, y: real)
    requires x <= y
    ensures FadeAlpha(y) <= FadeAlpha(x)
  {
  }

  /**
   * The fade of one frame: on the first image during its first second the
   * white fades out; on the last image during its last second it fades in.
   */
  function Fade(d: seq<real>, idx: nat, inImage: real, fade: bool): (o: Overlay)
    requires idx < |d|
    ensures o.fadeIn.Some? <==> fade && idx == 0 && inImage < FadeSeconds
    ensures o.fadeOut.Some? <==> fade && idx == |d| - 1 && d[idx] - inImage < FadeSeconds
    ensures o.fadeIn.Some? ==> 0.0 <= o.fadeIn.value <= 1.0
    ensures o.fadeOut.Some? ==> 0.0 <= o.fadeOut.value <= 1.0
  {
    Overlay(
      if fade && idx == 0 && inImage < FadeSeconds then Some(FadeAlpha(inImage)) else None,
      if fade && idx == |d| - 1 && d[idx] - inImage < FadeSeconds then Some(FadeAlpha(d[idx] - inImage)) else None)
  }

  /** One frame: the index of the image drawn and the overlay drawn on top of it. */
  method RenderFrame(d: seq<real>, t: real, fade: bool) returns (idx: nat, o: Overlay)
    requires |d| > 0
    ensures idx < |d|
    ensures exists x :: IsActive(d, t, idx, x) && o == Fade(d, idx, x, fade)
  {
    var inImage;
    idx, inImage := ActiveImage(d, t);
    o := Fade(d, idx, inImage, fade);
  }

  /** With the fade on, the video opens on a fully white frame. */
  lemma FirstFrameWhite(count: nat, target: real, idx: nat, inImage: real)
    requires count > 0 && target > 0.0
    requires IsActive(Durations(count, target, true), 0.0, idx, inImage)
    ensures Fade(Durations(count, target, true), idx, inImage, true).fadeIn == Some(1.0)
  {
    var d := Durations(count, target, true);
    assert target / count as real > 0.0;
    assert SumTo(d, 0) == 0.0;
    assert End(d, 0) == d[0];
    assert idx == 0;
  }

  /** With the fade on, the frames at and past the end are fully white. */
  lemma LastFrameWhite(count: nat, target: real, t: real, idx: nat, inImage: real)
    requires count > 0 && target > 0.0
    requires t >= Total(Durations(count, target, true))
    requires IsActive(Durations(count, target, true), t, idx, inImage)
    ensures Fade(Durations(count, target, true), idx, inImage, true).fadeOut == Some(1.0)
  {
    var d := Durations(count, target, true);
    assert target / count as real > 0.0;
    ActiveWithinImage(d, t, idx, inImage);
  }

  // ---------------------------------------------------------------------------
  // Settings
  // ---------------------------------------------------------------------------

  /**
   * updateSettings: `parseFloat(input) || 3`, where `None` stands for the NaN
   * of an unparsable input. A falsy parse (NaN or zero) falls back to three
   * seconds, so the target is never zero.
   */
  function TargetDuration(parsed: Option<real>): (t: real)
    ensures t != 0.0
    ensures parsed.None? || parsed.value == 0.0 ==> t == 3.0
    ensures parsed.Some? && parsed.value != 0.0 <==> t == (if parsed.Some? then parsed.value else 0.0)
  {
    if parsed.None? || parsed.value == 0.0 then 3.0 else parsed.value
  }

  /** Entering the duration that is in effect leaves it in effect. */
  lemma TargetDurationStable(parsed: Option<real>)
    ensures TargetDuration(Some(TargetDuration(parsed))) == TargetDuration(parsed)
  {
  }

  /** The generate button is enabled when there are images and a positive target duration. */
  predicate CanGenerate(count: nat, target: real)
  {
    !(count == 0 || target <= 0.0)
  }

  /**
   * The generate button is enabled exactly when there are images and the
   * duration field does not hold a negative number: an empty, unparsable or
   * zero entry means three seconds.
   */
  lemma GenerateEnabled(count: nat, parsed: Option<real>)
    ensures CanGenerate(count, TargetDuration(parsed)) <==> count > 0 && (parsed.None? || parsed.value >= 0.0)
  {
  }

  /** Whenever generation is possible every image is shown for a positive time. */
  lemma CanGenerateDurationsPositive(count: nat, target: real, fade: bool)
    requires CanGenerate(count, target)
    ensures var d := Durations(count, target, fade);
      forall k | 0 <= k < |d| :: d[k] > 0.0
  {
    assert target / count as real > 0.0;
  }

  // ---------------------------------------------------------------------------
  // Reordering and deleting images
  // ---------------------------------------------------------------------------

  /** `s.splice(i, 1)`: the element at `i` taken out. */
  function Remove<T>(s: seq<T>, i: nat): (r: seq<T>)
    requires i < |s|
    ensures |r| == |s| - 1
    ensures forall j | 0 <= j < i :: r[j] == s[j]
    ensures forall j | i <= j < |r| :: r[j] == s[j + 1]
  {
    s[..i] + s[i + 1..]
  }

  /** `s.splice(i, 0, x)`: `x` put in at `i`. */
  function Insert<T>(s: seq<T>, i: nat, x: T): (r: seq<T>)
    requires i <= |s|
    ensures |r| == |s| + 1
    ensures r[i] == x
    ensures forall j | 0 <= j < i :: r[j] == s[j]
    ensures forall j | i < j < |r| :: r[j] == s[j - 1]
  {
    s[..i] + [x] + s[i..]
  }

  /** Deleting an image loses exactly that image. */
  lemma RemoveMultiset<T>(s: seq<T>, i: nat)
    requires i < |s|
    ensures multiset(Remove(s, i)) + multiset{s[i]} == multiset(s)
  {
    assert s == s[..i] + [s[i]] + s[i + 1..];
  }

  /** Taking out what was just put in gives back the sequence. */
  lemma RemoveInsert<T>(s: seq<T>, i: nat, x: T)
    requires i <= |s|
    ensures Remove(Insert(s, i, x), i) == s
  {
  }

  /** Putting back what was just taken out gives back the sequence. */
  lemma InsertRemove<T>(s: seq<T>, i: nat)
    requires i < |s|
    ensures Insert(Remove(s, i), i, s[i]) == s
  {
  }

  /** handleDrop: the image at `oldIndex` moved to `newIndex`; nothing happens when they agree. */
  function Move<T>(s: seq<T>, oldIndex: nat, newIndex: nat): (r: seq<T>)
    requires oldIndex < |s| && newIndex < |s|
    ensures |r| == |s|
  {
    if oldIndex == newIndex then s else Insert(Remove(s, oldIndex), newIndex, s[oldIndex])
  }

  /** A move keeps the same images, each as often as before. */
  lemma MovePermutes<T>(s: seq<T>, oldIndex: nat, newIndex: nat)
    requires oldIndex < |s| && newIndex < |s|
    ensures multiset(Move(s, oldIndex, newIndex)) == multiset(s)
  {
    if oldIndex != newIndex {
      var rest := Remove(s, oldIndex);
      RemoveMultiset(s, oldIndex);
      RemoveInsert(rest, newIndex, s[oldIndex]);
      RemoveMultiset(Insert(rest, newIndex, s[oldIndex]), newIndex);
    }
  }

  /**
   * A move puts the moved image at its new index and keeps the other images
   * in their relative order.
   */
  lemma MoveIsMove<T>(s: seq<T>, oldIndex: nat, newIndex: nat)
    requires oldIndex < |s| && newIndex < |s|
    ensures Move(s, oldIndex, newIndex)[newIndex] == s[oldIndex]
    ensures Remove(Move(s, oldIndex, newIndex), newIndex) == Remove(s, oldIndex)
  {
  }

  /** Dragging the image back to where it came from undoes the move. */
  lemma MoveBack<T>(s: seq<T>, oldIndex: nat, newIndex: nat)
    requires oldIndex < |s| && newIndex < |s|
    ensures Move(Move(s, oldIndex, newIndex), newIndex, oldIndex) == s
  {
    if oldIndex != newIndex {
      MoveIsMove(s, oldIndex, newIndex);
      InsertRemove(s, oldIndex);
    }
  }

  /**
   * The canvas is set up again only when either index is 0: a move that
   * involves neither keeps the first image, from which the canvas is sized.
   */
  lemma MoveKeepsFirst<T>(s: seq<T>, oldIndex: nat, newIndex: nat)
    requires oldIndex < |s| && newIndex < |s|
    requires oldIndex != 0 && newIndex != 0
    ensures Move(s, oldIndex, newIndex)[0] == s[0]
  {
  }
}
