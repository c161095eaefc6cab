/**
 * The image processor of the SnapTune photo editor: the adjustment
 * parameters (CSS filter percentages, a quarter-turn rotation and two flips),
 * the linear history of image sources that undo walks back through, and the
 * size of the canvas the adjusted image is rendered to. An image source (a
 * data URL) is modelled as its text; loading an image is taken to complete at
 * once.
 */
module SnaptuneProcessor {

  import opened Common

  /** The adjustment parameters; every value is a JavaScript number. */
  datatype Params = Params(
    brightness: real, contrast: real, saturation: real, grayscale: real, sepia: real,
    rotate: real, flipH: real, flipV: real)

  /** The parameters of a freshly loaded image. */
  const DefaultParams: Params := Params(100.0, 100.0, 100.0, 0.0, 0.0, 0.0, 1.0, 1.0)

  /** The keys the parameter record has. */
  const ParamKeys: set<string> :=
    {"brightness", "contrast", "saturation", "grayscale", "sepia", "rotate", "flipH", "flipV"}

  /** `params[key]` for one of the record's keys. */
  function Get(p: Params, key: string): real
    requires key in ParamKeys
  {
    match key
    case "brightness" => p.brightness
    case "contrast" => p.contrast
    case "saturation" => p.saturation
    case "grayscale" => p.grayscale
    case "sepia" => p.sepia
    case "rotate" => p.rotate
    case "flipH" => p.flipH
    case _ => p.flipV
  }

  /** updateParam: the value stored under `key` when the record has that key; otherwise nothing changes. */
  function UpdateParam(p: Params, key: string, value: real): (r: Params)
    ensures key !in ParamKeys ==> r == p
    ensures key in ParamKeys ==> Get(r, key) == value
    ensures forall k | k in ParamKeys && k != key :: Get(r, k) == Get(p, k)
  {
    match key
    case "brightness" => p.(brightness := value)
    case "contrast" => p.(contrast := value)
    case "saturation" => p.(saturation := value)
    case "grayscale" => p.(grayscale := value)
    case "sepia" => p.(sepia := value)
    case "rotate" => p.(rotate := value)
    case "flipH" => p.(flipH := value)
    case "flipV" => p.(flipV := value)
    case _ => p
  }

  /** A rotation of a whole number of quarter turns, as the rotate buttons keep it. */
  predicate IsQuarter(a: real)
  {
    a == 0.0 || a == 90.0 || a == 180.0 || a == 270.0
  }

  /**
   * rotate: a left turn takes 90 off and brings a negative remainder back
   * into range; any other direction adds 90. Both reduce with JavaScript's `%`.
   */
  function Rotate(p: Params, direction: string): (r: Params)
    ensures r == p.(rotate := r.rotate)
    ensures 0.0 <= p.rotate ==> 0.0 <= r.rotate < 360.0
  {
    if direction == "left" then
      var a := JsRemAngle(p.rotate - 90.0, 360.0);
      p.(rotate := if a < 0.0 then a + 360.0 else a)
    else
      p.(rotate := JsRemAngle(p.rotate + 90.0, 360.0))
  }

  /** The turns the rotate buttons make from each quarter. */
  lemma RotateTable(p: Params)
    requires IsQuarter(p.rotate)
    ensures var l, r := Rotate(p, "left").rotate, Rotate(p, "right").rotate;
      (p.rotate == 0.0 ==> l == 270.0 && r == 90.0) &&
      (p.rotate == 90.0 ==> l == 0.0 && r == 180.0) &&
      (p.rotate == 180.0 ==> l == 90.0 && r == 270.0) &&
      (p.rotate == 270.0 ==> l == 180.0 && r == 0.0)
  {
    var a := p.rotate;
    if a == 0.0 {
      assert Trunc(-90.0 / 360.0) == 0;
      assert Trunc(90.0 / 360.0) == 0;
    } else if a == 90.0 {
      assert Trunc(0.0 / 360.0) == 0;
      assert Trunc(180.0 / 360.0) == 0;
    } else if a == 180.0 {
      assert Trunc(90.0 / 360.0) == 0;
      assert Trunc(270.0 / 360.0) == 0;
    } else {
      assert Trunc(180.0 / 360.0) == 0;
      assert Trunc(360.0 / 360.0) == 1;
    }
  }

  /** Either rotation keeps the angle a whole number of quarter turns. */
  lemma RotateKeepsQuarter(p: Params, direction: string)
    requires IsQuarter(p.rotate)
    ensures IsQuarter(Rotate(p, direction).rotate)
  {
    RotateTable(p);
    assert direction != "left" ==> Rotate(p, direction) == Rotate(p, "right");
  }

  /** A left turn undoes a right turn and a right turn undoes a left turn. */
  lemma RotateInverse(p: Params)
    requires IsQuarter(p.rotate)
    ensures Rotate(Rotate(p, "right"), "left") == p
    ensures Rotate(Rotate(p, "left"), "right") == p
  {
    RotateTable(p);
    RotateTable(Rotate(p, "right"));
    RotateTable(Rotate(p, "left"));
  }

  /** Four turns in the same direction come back to the start. */
  lemma RotateFourTimes(p: Params, direction: string)
    requires IsQuarter(p.rotate)
    ensures Rotate(Rotate(Rotate(Rotate(p, direction), direction), direction), direction) == p
  {
    var p1 := Rotate(p, direction);
    var p2 := Rotate(p1, direction);
    var p3 := Rotate(p2, direction);
    RotateTable(p);
    RotateTable(p1);
    RotateTable(p2);
    RotateTable(p3);
    if direction != "left" {
      assert p1 == Rotate(p, "right") && p2 == Rotate(p1, "right") && p3 == Rotate(p2, "right");
      assert Rotate(p3, direction) == Rotate(p3, "right");
    }
  }

  /** flip: `'h'` negates flipH, `'v'` negates flipV, any other axis does nothing. */
  function Flip(p: Params, axis: string): (r: Params)
    ensures axis == "h" ==> r == p.(flipH := r.flipH) && r.flipH == -p.flipH
    ensures axis == "v" ==> r == p.(flipV := r.flipV) && r.flipV == -p.flipV
    ensures axis != "h" && axis != "v" ==> r == p
  {
    if axis == "h" then p.(flipH := p.flipH * -1.0)
    else if axis == "v" then p.(flipV := p.flipV * -1.0)
    else p
  }

  /** Flipping twice about the same axis is no flip, and a ±1 flag stays ±1. */
  lemma FlipTwice(p: Params, axis: string)
    ensures Flip(Flip(p, axis), axis) == p
    ensures (p.flipH == 1.0 || p.flipH == -1.0) ==> (Flip(p, axis).flipH == 1.0 || Flip(p, axis).flipH == -1.0)
    ensures (p.flipV == 1.0 || p.flipV == -1.0) ==> (Flip(p, axis).flipV == 1.0 || Flip(p, axis).flipV == -1.0)
  {
  }

  /** The width and height of the render canvas: the image's sides, exchanged for an odd number of quarter turns. */
  function RenderSize(image: Size, rotate: real): (c: Size)
    ensures c == image || c == Size(image.h, image.w)
  {
    if JsRemAngle(rotate, 180.0) != 0.0 then Size(image.h, image.w) else image
  }

  /** At a quarter-turn angle the canvas sides are exchanged exactly for 90 and 270 degrees. */
  lemma RenderSizeQuarter(image: Size, rotate: real)
    requires IsQuarter(rotate)
    ensures rotate == 90.0 || rotate == 270.0 ==> RenderSize(image, rotate) == Size(image.h, image.w)
    ensures rotate == 0.0 || rotate == 180.0 ==> RenderSize(image, rotate) == image
  {
    if rotate == 90.0 {
      assert Trunc(90.0 / 180.0) == 0;
    } else if rotate == 180.0 {
      assert Trunc(180.0 / 180.0) == 1;
    } else if rotate == 270.0 {
      assert Trunc(270.0 / 180.0) == 1;
    } else {
      assert Trunc(0.0 / 180.0) == 0;
    }
  }

  // ---------------------------------------------------------------------------
  // History
  // ---------------------------------------------------------------------------

  /** The most image sources the history keeps. */
  const MaxHistory: nat := 20

  /** The processor: the current image's source (`None` before any load), the history of sources, its index and the parameters. */
  datatype Processor = Processor(image: Option<string>, history: seq<string>, index: int, params: Params)

  /** The processor as constructed. */
  const Initial: Processor := Processor(None, [], -1, DefaultParams)

  /** The history index points into the history, or is -1 before anything is saved. */
  predicate IndexInRange(p: Processor)
  {
    -1 <= p.index < |p.history|
  }

  /**
   * The processor's invariant: nothing is recorded before an image is loaded;
   * once one is, the history holds at most `MaxHistory` sources and the
   * index points at the current image's source.
   */
  predicate Inv(p: Processor)
  {
    IndexInRange(p) && |p.history| <= MaxHistory &&
    (p.image.None? ==> p.history == [] && p.index == -1) &&
    (p.image.Some? ==> 0 <= p.index && p.history[p.index] == p.image.value)
  }

  /**
   * saveState: without an image nothing happens; otherwise the entries after
   * the index are discarded, the current source is appended and, past the
   * cap, the oldest entry is dropped.
   */
  function SaveState(p: Processor): (r: Processor)
    requires IndexInRange(p)
    ensures p.image.None? ==> r == p
    ensures p.image.Some? ==>
              r.image == p.image && r.params == p.params &&
              IsSuffix(r.history, p.history[..p.index + 1] + [p.image.value]) &&
              |r.history| == (if p.index + 1 < MaxHistory then p.index + 2 else p.index + 1) &&
              r.index == |r.history| - 1
  {
    if p.image.None? then p
    else
      var kept := if p.index < |p.history| - 1 then p.history[..p.index + 1] else p.history;
      var pushed := kept + [p.image.value];
      if |pushed| > MaxHistory then
        assert pushed[1..] == pushed[|pushed| - (|pushed| - 1)..];
        p.(history := pushed[1..])
      else
        assert pushed == pushed[|pushed| - |pushed|..];
        p.(history := pushed, index := p.index + 1)
  }

  /** canUndo: there is an earlier source to go back to. */
  predicate CanUndo(p: Processor)
  {
    p.index > 0
  }

  /**
   * undo: when there is an earlier source, the index steps back and that
   * source becomes the image, leaving the parameters as they are; the flag
   * says whether anything happened.
   */
  function Undo(p: Processor): (r: (Processor, bool))
    requires IndexInRange(p)
    ensures r.1 <==> CanUndo(p)
    ensures !r.1 ==> r.0 == p
    ensures r.1 ==> r.0 == p.(index := p.index - 1, image := Some(p.history[p.index - 1]))
  {
    if p.index > 0 then
      (p.(index := p.index - 1, image := Some(p.history[p.index - 1])), true)
    else (p, false)
  }

  /** loadImage: the new image with default parameters and a history holding just its source. */
  function LoadImage(p: Processor, src: string): (r: Processor)
    ensures r.image == Some(src) && r.params == DefaultParams
    ensures r.history == [src] && r.index == 0
    ensures !CanUndo(r)
  {
    var cleared := p.(image := Some(src), params := DefaultParams, history := [], index := -1);
    SaveState(cleared)
  }

  /** Applying a crop: the cropped source becomes the image, the parameters are reset and the state saved. */
  function ApplyCrop(p: Processor, src: string): (r: Processor)
    requires IndexInRange(p)
    ensures r.image == Some(src) && r.params == DefaultParams
  {
    SaveState(p.(image := Some(src), params := DefaultParams))
  }

  /** The constructed processor satisfies the invariant. */
  lemma InitialInv()
    ensures Inv(Initial)
  {
  }

  /** Every operation preserves the invariant. */
  lemma OperationsPreserveInv(p: Processor, src: string)
    requires Inv(p)
    ensures Inv(SaveState(p))
    ensures Inv(Undo(p).0)
    ensures Inv(LoadImage(p, src))
    ensures Inv(ApplyCrop(p, src))
  {
    var q := p.(image := Some(src), params := DefaultParams);
    var r := SaveState(q);
    assert r.history[r.index] == src;
    var s := SaveState(p);
    if p.image.Some? {
      assert s.history[s.index] == p.image.value;
    }
  }

  /** Undo right after a crop brings back the image the crop was applied to. */
  lemma UndoAfterCrop(p: Processor, src: string)
    requires Inv(p) && p.image.Some?
    ensures Undo(ApplyCrop(p, src)).1
    ensures Undo(ApplyCrop(p, src)).0.image == p.image
  {
    var q := p.(image := Some(src), params := DefaultParams);
    var kept := if q.index < |q.history| - 1 then q.history[..q.index + 1] else q.history;
    assert kept == p.history[..p.index + 1];
    assert kept[p.index] == p.image.value;
    var pushed := kept + [src];
    assert pushed[p.index] == p.image.value;
  }
}
