# papps browser tools — a Dafny model of the core logic

papps is a set of single-page browser tools. This project models the parts
of them that hold logic, as pure Dafny functions over exact reals and
integers, and proves what each part promises:

- **composi** (`composi/app.js`) is a two-layer image compositor. The model
  covers the undo/redo history of editor snapshots, the view transform
  (screen-to-world mapping, zooming about a point, fit-to-canvas), the
  overlay cache and render tier choice, the eraser mask's life cycle, and
  the snapshot capture and restore that undo and redo go through, and the
  sliders and inputs bound to the transform and filters (modules
  `ComposiHistory`, `ComposiView`, `ComposiEditor`).
- **idiff** (`idiff/app.js`) is an image diff viewer. The model covers the
  slider position, the fit zoom, the zoom conversion between the slider and
  side-by-side modes, wheel and pinch zoom, and image display names
  (`IdiffView`).
- **snap2v / snap2mov** (`snap2v/script.js`, `snap2mov/script.js`) turn a
  list of images into a slideshow video. The model covers the output canvas
  size, the per-image durations with optional fade padding, the frame count,
  the choice of the active image at a time and its fade overlays, the
  settings guard, and reordering and deleting images (`VideoTimeline`).
- **mediainfo** (`mediainfo/script.js`) shows file metadata. The model
  covers the PNG text-chunk reader (`PngText`), HTML escaping, the duration
  label and the AI-generation metadata filter (`MediaFormat`), with decimal
  numerals in `Decimal`.
- **snaptune** (`snaptune/js/imageProcessor.js`, `snaptune/js/app.js`,
  `snaptune/js/cropManager.js`) is a photo adjuster. The model covers the
  processor's parameters, rotation, flips and undo history
  (`SnaptuneProcessor`); the page's zoom steps, filter reset and drag
  counter (`SnaptuneApp`); and the crop overlay: aspect ratios, the initial
  rectangle, moving, resizing and the crop data (`SnaptuneCrop`).

`Common` holds JavaScript's arithmetic written out over reals and integers.
This covers `Math.round`, truncation, the `%` remainder, clamping and
division by zero. It also holds `Option` and positive image sizes.

## Model

| member | source | states |
|---|---|---|
| ComposiHistory.AreStatesEqualIsEquality | papps/composi/app.js:34-46 | the equality check on snapshots (same transform, same filters, same mask identity) is exactly equality when mask ids determine pixels |
| ComposiHistory.Push | papps/composi/app.js:15-32 | a snapshot equal to the newest one is dropped; otherwise it is appended, the redo stack is emptied, and the undo stack never grows past 20 |
| ComposiHistory.PushKeepsNewest | papps/composi/app.js:15-32 | after a push the undo stack is a suffix of old stack plus the new snapshot, one longer below the cap and the same length at the cap |
| ComposiHistory.Undo | papps/composi/app.js:48-57 | with an empty undo stack nothing changes and nothing is returned; otherwise the newest snapshot is popped and returned and the current state goes onto the redo stack |
| ComposiHistory.Redo | papps/composi/app.js:59-68 | the mirror image of undo on the redo stack |
| ComposiHistory.Clear | papps/composi/app.js:75-79 | both stacks are empty afterwards |
| ComposiHistory.UndoThenRedo | papps/composi/app.js:48-68 | an undo followed by a redo gives back the state that was current, and both stacks as they were |
| ComposiHistory.RedoThenUndo | papps/composi/app.js:48-68 | a redo followed by an undo gives back the state that was current, and both stacks as they were |
| ComposiHistory.BoundedPreserved | papps/composi/app.js:7-80 | push, undo, redo and clear keep both stacks within the 20-entry bound |
| ComposiView.ScreenToWorld | papps/composi/app.js:561-563 | the world point maps back onto the screen point under the view's scale and offset |
| ComposiView.ZoomAbout | papps/composi/app.js:284-310 | a button zoom about an anchor takes exactly the new scale |
| ComposiView.ZoomAtCursor | papps/composi/app.js:692-718 | a ctrl-wheel zoom multiplies the scale by the wheel factor |
| ComposiView.ZoomAboutKeepsAnchor | papps/composi/app.js:284-310 | the zoom buttons rescale about the canvas centre, and the world point under the centre stays under it |
| ComposiView.ZoomAtCursorKeepsPoint | papps/composi/app.js:692-718 | ctrl-wheel zoom keeps the world point under the cursor fixed |
| ComposiView.ZoomIn | papps/composi/app.js:284-296 | the zoom-in button strictly increases the scale |
| ComposiView.ZoomOut | papps/composi/app.js:297-310 | the zoom-out button strictly decreases a positive scale and keeps it positive |
| ComposiView.ZoomInThenOut | papps/composi/app.js:284-310 | zoom out after zoom in restores the view exactly |
| ComposiView.FitView | papps/composi/app.js:839-852 | the scale is positive; without a background or with an empty canvas the view is reset to scale 1 with its origin at the canvas centre |
| ComposiView.FitViewFits | papps/composi/app.js:839-852 | the fitted background lies within 90% of the canvas on both axes, reaches exactly 90% on one of them, and is centred |
| ComposiEditor.ProxyScale | papps/composi/app.js:466-470 | the proxy scale lies in (0, 1], and it is below 1 exactly when a side exceeds 2048 |
| ComposiEditor.ProxyScaleIsFit | papps/composi/app.js:466-470 | the proxy scale is the largest one that fits the overlay into 2048 by 2048, capped at 1 |
| ComposiEditor.ProxySizeBounded | papps/composi/app.js:466-486 | the proxy canvas has sides between 0 and 2048 |
| ComposiEditor.UpdateOverlayCache | papps/composi/app.js:443-486 | with no overlay nothing changes; otherwise both caches become valid, the proxy gets its fit scale and sides equal to the floor of each overlay side times that scale, and nothing else changes |
| ComposiEditor.RenderTier | papps/composi/app.js:881-890 | the proxy is drawn exactly while interacting with a valid downscaled proxy, and the raw image exactly when neither the proxy is used nor the full cache is valid |
| ComposiEditor.RenderTierWithOverlay | papps/composi/app.js:881-890 | in a consistent editor the raw overlay is never drawn, and the proxy is drawn exactly while interacting on an overlay larger than 2048 |
| ComposiEditor.InitMask | papps/composi/app.js:434-441 | with an overlay the mask canvas and context are created, empty and marked dirty; without one nothing changes |
| ComposiEditor.GetState | papps/composi/app.js:949-970 | the snapshot holds the transform and filters, no mask without a mask canvas, a freshly captured mask when dirty, and the cached one when clean; content is unchanged |
| ComposiEditor.GetStateTwice | papps/composi/app.js:949-970 | a second capture straight after the first changes nothing and yields the same snapshot |
| ComposiEditor.GetStateCaptures | papps/composi/app.js:949-970 | capturing keeps the editor consistent, and with a mask canvas the snapshot holds the current mask pixels |
| ComposiEditor.RestoreState | papps/composi/app.js:972-990 | restoring throws a TypeError exactly when the snapshot has no mask and the mask context outlives its canvas; transform and filters are replaced by copies from the snapshot before the throw, so the state after it keeps them and the controls are no longer bound to them; without a throw the mask is put back or cleared |
| ComposiEditor.RestoreStateConsistent | papps/composi/app.js:972-990 | in a consistent editor restoring never throws and keeps the editor consistent |
| ComposiEditor.PushState | papps/composi/app.js:15-32 | saving the state pushes the captured snapshot and leaves the editor's content as it was |
| ComposiEditor.UndoAction | papps/composi/app.js:48-57 | undo with an empty history changes nothing; otherwise the newest snapshot moves off the undo stack, the current one onto the redo stack, and the popped transform and filters are taken, whether or not the restore then throws |
| ComposiEditor.RedoAction | papps/composi/app.js:59-68 | redo with an empty redo stack changes nothing; otherwise the newest redo snapshot moves off the redo stack, the current one onto the undo stack, and the popped transform and filters are taken, whether or not the restore then throws |
| ComposiEditor.SetControl | papps/composi/app.js:231-259 | a control writes its own property of the transform or the filters; the other six controls, the position, the flip and everything else are kept |
| ComposiEditor.InputChangeAsWritten | papps/composi/app.js:234-240 | the number input as written pushes the state, then writes into the object it was bound to: the change shows exactly when that object is still the editor's (or the value is already there), and is lost otherwise |
| ComposiEditor.SliderInputAsWritten | papps/composi/app.js:241-245 | the slider drag as written writes into its bound object without a push; once the object was replaced nothing changes |
| ComposiEditor.Adjust | papps/composi/app.js:231-259 | a control change, as it is evidently meant, pushes the state and then writes the value into the editor's current transform or filters: that control takes the value and the other six keep theirs |
| ComposiEditor.FlipChange | papps/composi/app.js:261-265 | the flip checkbox pushes the state and sets the flip on the current transform, keeping everything else |
| ComposiEditor.ResetFilters | papps/composi/app.js:515-524 | the filters go back to their defaults after the state is saved; the transform is kept |
| ComposiEditor.InitialTransform | papps/composi/app.js:488-513 | the overlay is centred on the background (or the canvas), unrotated and unflipped, at scale 1 when there is no overlay |
| ComposiEditor.InitialTransformFits | papps/composi/app.js:488-513 | the initial overlay scale fits the overlay inside the background |
| ComposiEditor.ResetTransform | papps/composi/app.js:488-513 | the reset button saves the state, sets the initial transform and keeps the filters |
| ComposiEditor.LoadBackground | papps/composi/app.js:382-411 | a loaded background replaces the old one and the view is fitted to it; the overlay is kept |
| ComposiEditor.LoadOverlay | papps/composi/app.js:382-411 | a loaded overlay gets a fresh empty mask and valid caches |
| ComposiEditor.ClearBackground | papps/composi/app.js:413-432 | clearing the background removes it and keeps the overlay |
| ComposiEditor.ClearOverlayAsWritten | papps/composi/app.js:413-432 | clearing the overlay as written drops the overlay, the mask canvas and the caches but keeps the mask context |
| ComposiEditor.ClearOverlay | papps/composi/app.js:413-432 | clearing the overlay drops the mask context together with the mask canvas |
| ComposiEditor.ResetMask | papps/composi/app.js:526-534 | resetting the mask throws exactly when the context outlives the canvas, and the state it pushed first stays pushed; otherwise it empties the mask |
| ComposiEditor.Erase | papps/composi/app.js:720-784 | without an overlay or mask nothing happens; otherwise the stroke is added to the mask, which becomes dirty, and the caches keep their validity because the stroke is drawn into them |
| ComposiEditor.Wheel | papps/composi/app.js:692-718 | ctrl-wheel, or any wheel without an overlay, zooms the view about the cursor; a plain wheel over an overlay scales the overlay |
| ComposiEditor.InitialConsistent | papps/composi/app.js:84-140 | the editor starts consistent |
| ComposiEditor.PushStateConsistent | papps/composi/app.js:15-32 | saving the state keeps the editor consistent |
| ComposiEditor.UndoConsistent | papps/composi/app.js:48-57 | in a consistent editor undo succeeds and keeps it consistent |
| ComposiEditor.RedoConsistent | papps/composi/app.js:59-68 | in a consistent editor redo succeeds and keeps it consistent |
| ComposiEditor.ActionsConsistent | papps/composi/app.js:231-262 | every control change (corrected and as written), flip, reset, clear and erase keeps the editor consistent |
| ComposiEditor.LoadConsistent | papps/composi/app.js:382-411 | loading either layer keeps the editor consistent |
| ComposiEditor.ResetMaskConsistent | papps/composi/app.js:526-534 | in a consistent editor resetting the mask succeeds and keeps it consistent |
| ComposiEditor.WheelConsistent | papps/composi/app.js:692-718 | wheel events keep the editor consistent |
| ComposiEditor.UndoThenRedoRestores | papps/composi/app.js:48-68 | an undo followed by a redo restores the transform, filters and mask that were current |
| ComposiEditor.ClearOverlayAsWrittenThenUndoThrows | papps/composi/app.js:413-432 | after clearing the overlay as written, any control change followed by undo throws a TypeError |
| ComposiEditor.ClearOverlayThenUndoSucceeds | papps/composi/app.js:972-990 | after the corrected clear, any control change followed by undo succeeds |
| ComposiEditor.InputAfterUndoIsLost | papps/composi/app.js:231-259 | after an undo a typed value or a slider drag as written leaves the drawn transform and filters as they were |
| ComposiEditor.SliderDragThenUndoKeepsValue | papps/composi/app.js:241-249 | a slider drag as written pushes after setting, so the first undo after it keeps the dragged value |
| ComposiEditor.AdjustThenUndoRestores | papps/composi/app.js:231-259 | with the push before the write, undo after any control change brings back the transform and filters from before it |
| IdiffView.SliderPosition | papps/idiff/app.js:619 | the slider position is clamped to [0, 100]; a zero-width wrapper gives 100 or 0 by the sign of the offset, and NaN when the offset is also 0 |
| IdiffView.FitZoom | papps/idiff/app.js:519-525 | without a loaded image the fit zoom is 1; otherwise it is the smaller of the two padded container-to-image ratios |
| IdiffView.ConvertZoom | papps/idiff/app.js:536-577 | a mode change at the fit zoom snaps to the fit zoom of the new mode; otherwise the zoom is converted by the fit ratio (also a negative one, from a container narrower than the padding) and clamped; a zero fit divides to an infinity that clamps to an end; with no mode change nothing happens |
| IdiffView.SnapLandsAtFit | papps/idiff/app.js:536-577 | a view that was at fit before a mode change is at fit after it |
| IdiffView.SliderSideRoundTrip | papps/idiff/app.js:536-577 | converting from slider to side-by-side and back restores the zoom when neither end is at fit and the bounds do not bite |
| IdiffView.Wheel | papps/idiff/app.js:686-698 | a wheel step scales by 0.9 or 1.1, refuses to leave [0.1, 50], and moves the pan so the cursor point stays put |
| IdiffView.ContentPoint | papps/idiff/app.js:692-695 | the content point maps back to the cursor position |
| IdiffView.WheelKeepsPoint | papps/idiff/app.js:686-698 | a wheel step that zooms keeps the content under the cursor fixed |
| IdiffView.Pinch | papps/idiff/app.js:660-663 | a pinch scales by the distance ratio clamped to [0.1, 50] and keeps the pan; without a previous distance nothing changes |
| IdiffView.PinchRoundTrip | papps/idiff/app.js:660-663 | pinching out and back in by the same distances restores the zoom while it stays inside [0.1, 50] |
| IdiffView.FitView | papps/idiff/app.js:675-684 | the Fit button sets the natural-size (slider) fit in every mode and centres the pan |
| IdiffView.FitButtonAtFit | papps/idiff/app.js:675-684 | after the Fit button the slider and difference modes are at their fit, and side-by-side mode is at its fit exactly when the natural-size fit is within 0.05 of 1 |
| IdiffView.FitButtonOffSideBySideFit | papps/idiff/app.js:675-684 | with a natural-size fit of 0.5 the Fit button leaves side-by-side mode at zoom 0.5, off its fit of 1 |
| IdiffView.FitViewInMode | papps/idiff/app.js:531-553 | the mode-aware fit lands at the fit of the current mode in every mode, and agrees with the Fit button outside side-by-side mode |
| IdiffView.ZoomIn | papps/idiff/app.js:681 | zoom in grows a positive zoom and keeps the pan |
| IdiffView.ZoomOut | papps/idiff/app.js:682 | zoom out shrinks a positive zoom and keeps the pan |
| IdiffView.ZoomInThenOut | papps/idiff/app.js:681-682 | zoom out after zoom in restores the view |
| IdiffView.DisplayName | papps/idiff/app.js:214-216 | a custom label that is neither empty nor a default label is shown; otherwise the file name is shown |
| IdiffView.DefaultLabel | papps/idiff/app.js:338-378 | the default label of either image in either language is one the history list treats as a default |
| IdiffView.LabelOrDefault | papps/idiff/app.js:97-100 | a saved or loaded label is its text, or the default when the text is empty, and is never empty |
| IdiffView.SaveThenLoadLabel | papps/idiff/app.js:252-253 | loading a saved item puts back the label it was saved with, whatever the language at load time |
| IdiffView.SavedLabelShown | papps/idiff/app.js:97-100 | the history list shows a saved comparison's own label exactly when the label field held custom text, and the file name when it was empty or a default |
| VideoTimeline.Even | papps/snap2v/script.js:377-378 | the canvas side is rounded down to an even number, at most one less |
| VideoTimeline.Rescaled | papps/snap2v/script.js:361-374 | a rescaled side is the scaled side rounded to the nearest integer |
| VideoTimeline.RescaledBelow | papps/snap2v/script.js:361-374 | downscaling never makes a side larger than the limit or than it was |
| VideoTimeline.OutputSize | papps/snap2v/script.js:355-386 | both output sides are even and within the originals and the 1280/1920 limit; a small image keeps its size; a large one has its longer side at the limit and the other side scaled in proportion |
| VideoTimeline.Durations | papps/snap2v/script.js:426-444 | every image gets target/count seconds, with one fade second added to the first and to the last when fading |
| VideoTimeline.SumToUpdate | papps/snap2v/script.js:431-444 | padding one image's duration raises each prefix total that includes it by the same amount |
| VideoTimeline.DurationsTotal | papps/snap2v/script.js:426-444 | the durations add up to the target, plus two fade seconds when fading |
| VideoTimeline.TotalFrames | papps/snap2v/script.js:426-444 | the frame count at 30 fps is the least number of frames that covers the total duration |
| VideoTimeline.ActiveImage | papps/snap2v/script.js:612-628 | the active image at time t is the first one whose end is after t, with the time spent inside it; past the end it is the last image held at its end |
| VideoTimeline.IsActiveUnique | papps/snap2v/script.js:612-628 | the active image and the time inside it are determined by t |
| VideoTimeline.EndsBelowTotal | papps/snap2v/script.js:612-628 | with positive durations every image ends within the running total |
| VideoTimeline.StartsNonNegative | papps/snap2v/script.js:612-628 | with positive durations every running total is non-negative |
| VideoTimeline.ActiveWithinImage | papps/snap2v/script.js:612-628 | within the video the time inside the active image is within its duration; past the end the last image is active |
| VideoTimeline.FadeAlpha | papps/snap2v/script.js:633-651 | the white overlay alpha lies in [0, 1], is 1 at the edge and falls linearly over the fade second |
| VideoTimeline.FadeAlphaAntitone | papps/snap2v/script.js:633-651 | the alpha never increases with the distance from the edge |
| VideoTimeline.Fade | papps/snap2v/script.js:633-651 | fade-in shows exactly in the first fade second of the first image, fade-out exactly in the last fade second of the last image, both with alpha in [0, 1] |
| VideoTimeline.RenderFrame | papps/snap2v/script.js:612-653 | a frame draws the active image with the fades that belong to it |
| VideoTimeline.FirstFrameWhite | papps/snap2v/script.js:633-642 | with fading the first frame is fully white |
| VideoTimeline.LastFrameWhite | papps/snap2v/script.js:643-651 | with fading, a time at or after the total duration (past the last frame the render loops draw) is fully white |
| VideoTimeline.TargetDuration | papps/snap2v/script.js:202-215 | an unparsable or zero duration falls back to exactly 3 seconds, and any other value is taken as is |
| VideoTimeline.TargetDurationStable | papps/snap2v/script.js:202-215 | entering the duration the settings already hold changes nothing |
| VideoTimeline.GenerateEnabled | papps/snap2v/script.js:202-215 | generation is allowed exactly when there are images and the entered duration is unparsable or not negative |
| VideoTimeline.CanGenerateDurationsPositive | papps/snap2v/script.js:409 | when generation is allowed every image gets a positive duration |
| VideoTimeline.Remove | papps/snap2v/script.js:248-251 | deleting an image shifts the later ones down by one and keeps the earlier ones |
| VideoTimeline.Insert | papps/snap2v/script.js:305-321 | inserting puts the image at the index and shifts the later ones up |
| VideoTimeline.RemoveMultiset | papps/snap2v/script.js:248-251 | deleting removes exactly that one image |
| VideoTimeline.RemoveInsert | papps/snap2v/script.js:305-321 | removing what was just inserted gives back the list |
| VideoTimeline.InsertRemove | papps/snap2v/script.js:305-321 | putting back what was just removed gives back the list |
| VideoTimeline.Move | papps/snap2v/script.js:305-321 | the drop handler's remove-then-insert splice pair keeps the number of images |
| VideoTimeline.MovePermutes | papps/snap2v/script.js:305-321 | a drag-and-drop move keeps the same images, each as often as before |
| VideoTimeline.MoveIsMove | papps/snap2v/script.js:305-321 | a drag-and-drop move puts the dragged image at the drop index and keeps the others in their order |
| VideoTimeline.MoveBack | papps/snap2mov/script.js:300-316 | moving back to where it came from restores the list |
| VideoTimeline.MoveKeepsFirst | papps/snap2v/script.js:305-321 | a move in which neither index is 0 keeps the first image, the one the canvas is sized from |
| MediaFormat.ReplaceAll | papps/mediainfo/script.js:600-607 | a global replace leaves no occurrence of the replaced character unless the replacement holds it, and adds only characters of the input or the replacement |
| MediaFormat.ReplaceAllAppend | papps/mediainfo/script.js:600-607 | a global replace works piecewise on concatenations |
| MediaFormat.ChainedReplaceIsPerChar | papps/mediainfo/script.js:600-607 | the chain of five global replaces, ampersand first, equals escaping each character on its own |
| MediaFormat.EscapeHtml | papps/mediainfo/script.js:600-607 | the escaped text is the per-character escape and contains none of the five HTML special characters |
| MediaFormat.UnescapeEscapeHtml | papps/mediainfo/script.js:600-607 | unescaping the five entities gives back the original text |
| MediaFormat.DurationParts | papps/mediainfo/script.js:639-649 | seconds split into hours, minutes below 60 and seconds below 60 that add back up |
| MediaFormat.FormatDuration | papps/mediainfo/script.js:639-649 | a missing or zero duration shows as a dash, and anything else as a label |
| MediaFormat.ParseLabelOf | papps/mediainfo/script.js:639-649 | each label shape (`Xh Ym Zs`, `Ym Zs`, `Zs`) reads back to its number of seconds |
| MediaFormat.SecondsLabelRoundTrip | papps/mediainfo/script.js:639-649 | the label of a non-negative number of seconds reads back to that number |
| MediaFormat.SecondsLabelNoLeadingZero | papps/mediainfo/script.js:639-649 | a label starts with 0 only when it is `0s` |
| MediaFormat.FormatDurationRoundTrip | papps/mediainfo/script.js:639-649 | a positive millisecond duration shows as a label that reads back to its whole seconds |
| MediaFormat.FormatDurationNoLeadingZero | papps/mediainfo/script.js:639-649 | a positive duration's label starts with 0 only when it is `0s` |
| MediaFormat.LabelOfPositive | papps/mediainfo/script.js:639-649 | a positive duration is labelled by its floored seconds |
| MediaFormat.PngPass | papps/mediainfo/script.js:544-554 | the PNG pass keeps exactly the generation keys of the PNG metadata with their values |
| MediaFormat.GeneralPass | papps/mediainfo/script.js:556-584 | the general pass reports a find exactly when one was already made or a kept entry exists, and only adds keys from the metadata |
| MediaFormat.GeneralPassStoresAccepted | papps/mediainfo/script.js:556-584 | every entry the pass accepts (a qualifying one, unless its key is unlisted and something was found before it) has its key stored |
| MediaFormat.GeneralPassKeepsOthers | papps/mediainfo/script.js:556-584 | a key that no accepted entry has keeps the value it had before the pass |
| MediaFormat.GeneralPassLastWins | papps/mediainfo/script.js:556-584 | a key's stored value is that of the last accepted entry with it |
| MediaFormat.GetGenerationInfo | papps/mediainfo/script.js:540-587 | no info is returned exactly when neither pass finds a generation key; otherwise the info is not empty, every PNG generation key is kept and every key comes from the metadata |
| MediaFormat.GetGenerationInfoComplete | papps/mediainfo/script.js:540-587 | the returned info holds every accepted general-track key with its last accepted value, and every qualifying PNG entry no accepted entry overwrites |
| MediaFormat.GeneralPassRecords | papps/mediainfo/script.js:556-586 | when the general pass reports a find, the info it returns is not empty |
| PngText.ReadU32BE | papps/mediainfo/script.js:302 | a big-endian length read is below 2^32 |
| PngText.ReadU32BEOfU32BE | papps/mediainfo/script.js:302 | reading four encoded bytes back gives the length, wherever they sit in the buffer |
| PngText.IndexOfZero | papps/mediainfo/script.js:306-334 | the search finds the first zero byte, or -1 when there is none |
| PngText.SkipField | papps/mediainfo/script.js:324-330 | skipping a null-terminated field lands just past its terminator, or one past the end when it has none |
| PngText.ParseText | papps/mediainfo/script.js:306-315 | a tEXt chunk parses exactly when it has a non-empty keyword before a zero, and splits there |
| PngText.ParseIText | papps/mediainfo/script.js:316-362 | an iTXt chunk without a non-empty keyword fails; otherwise the keyword is the bytes before the first zero |
| PngText.ParseTextData | papps/mediainfo/script.js:306-315 | a built tEXt chunk parses back to its keyword and text |
| PngText.ParseITextPlain | papps/mediainfo/script.js:316-334 | an uncompressed iTXt chunk parses back to its keyword and text |
| PngText.ParseITextCompressed | papps/mediainfo/script.js:335-361 | a compressed iTXt chunk parses to its keyword and the inflated text |
| PngText.Record | papps/mediainfo/script.js:306-362 | a parsed chunk's entry is recorded and marks the result as found; an unparsed one changes nothing |
| PngText.ChunkStep | papps/mediainfo/script.js:298-368 | the walk stops at the end of the buffer with the info when some was found, and otherwise moves at least one chunk header forward |
| PngText.Walk | papps/mediainfo/script.js:298-371 | a walk that has recorded an entry finishes with info |
| PngText.ExtractPngTextChunks | papps/mediainfo/script.js:290-372 | a buffer shorter than the signature and one chunk header yields nothing |
| PngText.WalkEncoded | papps/mediainfo/script.js:298-368 | walking a well-formed chunk sequence collects exactly the text entries before the first IEND |
| PngText.ExtractEncoded | papps/mediainfo/script.js:290-372 | a PNG built from well-formed chunks yields the text entries of its chunks |
| PngText.TruncatedTextFails | papps/mediainfo/script.js:302-315 | a text chunk whose declared length runs past the buffer makes the read fail |
| SnaptuneProcessor.UpdateParam | papps/snaptune/js/imageProcessor.js:97-101 | a known parameter takes the value and the others are kept; an unknown key changes nothing |
| SnaptuneProcessor.Rotate | papps/snaptune/js/imageProcessor.js:103-111 | rotation changes only the angle, and keeps a non-negative angle in [0, 360) |
| SnaptuneProcessor.RotateTable | papps/snaptune/js/imageProcessor.js:103-111 | left and right turns step through 0, 90, 180 and 270 as a quarter turn each way |
| SnaptuneProcessor.RotateKeepsQuarter | papps/snaptune/js/imageProcessor.js:103-111 | a turn keeps the angle a quarter turn |
| SnaptuneProcessor.RotateInverse | papps/snaptune/js/imageProcessor.js:103-111 | a left turn undoes a right turn and the other way round |
| SnaptuneProcessor.RotateFourTimes | papps/snaptune/js/imageProcessor.js:103-111 | four turns the same way come back to the start |
| SnaptuneProcessor.Flip | papps/snaptune/js/imageProcessor.js:113-116 | a flip negates only the named axis; any other axis changes nothing |
| SnaptuneProcessor.FlipTwice | papps/snaptune/js/imageProcessor.js:113-116 | flipping twice undoes the flip, and a flip keeps each factor at ±1 |
| SnaptuneProcessor.RenderSize | papps/snaptune/js/imageProcessor.js:127-137 | the render size is the image size, possibly with its sides swapped |
| SnaptuneProcessor.RenderSizeQuarter | papps/snaptune/js/imageProcessor.js:135-137 | quarter and three-quarter turns swap the sides; half turns and none keep them |
| SnaptuneProcessor.SaveState | papps/snaptune/js/imageProcessor.js:53-70 | saving drops the redo tail, appends the image, keeps at most 20 entries and points at the newest |
| SnaptuneProcessor.Undo | papps/snaptune/js/imageProcessor.js:72-95 | undo succeeds exactly when there is an earlier entry, and then steps back to it; otherwise nothing changes |
| SnaptuneProcessor.LoadImage | papps/snaptune/js/imageProcessor.js:19-51 | a loaded image starts a one-entry history with default parameters and nothing to undo |
| SnaptuneProcessor.ApplyCrop | papps/snaptune/js/app.js:402-405 | applying a crop sets the cropped image with default parameters |
| SnaptuneProcessor.InitialInv | papps/snaptune/js/imageProcessor.js:1-17 | the processor starts with a consistent history |
| SnaptuneProcessor.OperationsPreserveInv | papps/snaptune/js/imageProcessor.js:19-95 | saving, undo, loading and cropping keep the history consistent: the current entry is the image and there are at most 20 |
| SnaptuneProcessor.UndoAfterCrop | papps/snaptune/js/app.js:393-411 | undo after a crop brings back the image from before it |
| SnaptuneApp.UpdateZoom | papps/snaptune/js/app.js:424-431 | a zoom step lands on a tenth within [0.1, 5], within 0.05 of the requested level, or is refused; the rounded level is taken exactly when it is within [0.1, 5] |
| SnaptuneApp.ResetZoom | papps/snaptune/js/app.js:433-442 | reset goes to 100%, a level inside the bounds |
| SnaptuneApp.ZoomInThenOut | papps/snaptune/js/app.js:424-431 | a step up and a step down from a level in tenths restore it |
| SnaptuneApp.ZoomStaysInRange | papps/snaptune/js/app.js:10-12 | no series of steps and resets leaves the zoom bounds |
| SnaptuneApp.ReachableZoomInRange | papps/snaptune/js/app.js:10-12 | every zoom level reachable from the start is within bounds |
| SnaptuneApp.ResetFilters | papps/snaptune/js/app.js:298-310 | the five filter sliders return to their defaults and rotation and flips are kept |
| SnaptuneApp.ResetFiltersOfDefaults | papps/snaptune/js/app.js:298-310 | resetting default parameters changes nothing |
| SnaptuneApp.DragEnter | papps/snaptune/js/app.js:145-149 | entering counts up, shows the drop zone and hides the welcome panel |
| SnaptuneApp.DragLeave | papps/snaptune/js/app.js:151-160 | leaving counts down, and only at zero hides the drop zone and brings back the welcome panel when no image is loaded |
| SnaptuneApp.Drop | papps/snaptune/js/app.js:162-177 | a drop zeroes the counter and hides the drop zone |
| SnaptuneApp.EntersShow | papps/snaptune/js/app.js:145-149 | n enters raise the counter by n and show the drop zone |
| SnaptuneApp.LeavesKeepShown | papps/snaptune/js/app.js:151-160 | fewer leaves than the counter keep the drop zone shown |
| SnaptuneApp.BalancedDragHides | papps/snaptune/js/app.js:143-160 | across n nested elements the drop zone stays up until the last leave, which hides it |
| SnaptuneCrop.OrientedRatio | papps/snaptune/js/cropManager.js:263-281 | a ratio w:h is taken as w/h or h/w so that portrait is at most 1 and landscape at least 1 |
| SnaptuneCrop.OrientedRatioReciprocal | papps/snaptune/js/cropManager.js:263-281 | the portrait and landscape ratios are reciprocal and do not depend on the order of w and h |
| SnaptuneCrop.ActiveRatio | papps/snaptune/js/cropManager.js:263-281 | the free choice has no ratio and any other has a positive one |
| SnaptuneCrop.FitToRatio | papps/snaptune/js/cropManager.js:283-310 | the fitted box lies in the target box, has the ratio, and touches one of its sides |
| SnaptuneCrop.ResetOverlay | papps/snaptune/js/cropManager.js:283-310 | the initial crop is centred, within 80% of the canvas, and either exactly 80% (free) or at the ratio with one side at 80% |
| SnaptuneCrop.SetRatio | papps/snaptune/js/cropManager.js:263-281 | choosing a ratio records it and resets the overlay to it |
| SnaptuneCrop.MoveDrag | papps/snaptune/js/cropManager.js:94-99 | moving keeps the size, clamps the position inside the canvas, and moves freely when that is possible |
| SnaptuneCrop.Stretch | papps/snaptune/js/cropManager.js:105-114 | each handle moves its own edges and keeps the opposite ones fixed |
| SnaptuneCrop.LockRatio | papps/snaptune/js/cropManager.js:117-135 | with a ratio, side handles keep the width and the others keep the height, and the box gets the ratio |
| SnaptuneCrop.ClampToCanvas | papps/snaptune/js/cropManager.js:139-154 | the box ends up inside the canvas, and a box already inside on an axis is untouched on it |
| SnaptuneCrop.MinSize | papps/snaptune/js/cropManager.js:157-158 | sides below 20 are raised to 20 and others are kept |
| SnaptuneCrop.Refit | papps/snaptune/js/cropManager.js:165-250 | a box off the ratio by more than 0.01 shrinks on one side only to exactly the ratio, keeping the edge opposite a west or north handle where the drag started; one within tolerance is kept |
| SnaptuneCrop.ResizeAsWritten | papps/snaptune/js/cropManager.js:100-250 | without a ratio a resize is stretch, clamp and minimum size |
| SnaptuneCrop.ResizeAsWrittenBelowMinimum | papps/snaptune/js/cropManager.js:157-250 | the re-fit after the minimum-size step can leave a side below 20 |
| SnaptuneCrop.Resize | papps/snaptune/js/cropManager.js:100-250 | a resize keeps both sides at least 20; without a ratio it stays inside the canvas unless held at the minimum |
| SnaptuneCrop.ResizeAgreesAboveMinimum | papps/snaptune/js/cropManager.js:157-250 | whenever the code as written keeps the minimum, the corrected resize is the same |
| SnaptuneCrop.ResizeKeepsRatio | papps/snaptune/js/cropManager.js:117-250 | a resize whose locked box is large enough keeps the chosen ratio |
| SnaptuneCrop.DragAsWritten | papps/snaptune/js/cropManager.js:59-256 | a drag as written moves, or resizes with the re-fit last; only without a ratio is the minimum size sure to hold |
| SnaptuneCrop.DragAsWrittenBelowMinimum | papps/snaptune/js/cropManager.js:157-250 | on the Findings input the drag as written ends narrower than 20 |
| SnaptuneCrop.Drag | papps/snaptune/js/cropManager.js:59-256 | the corrected drag: moving keeps the size, as written, and resizing keeps the minimum size |
| SnaptuneCrop.CursorFor | papps/snaptune/js/cropManager.js:52-57 | diagonal handles get their resize cursors and everything else the move cursor |
| SnaptuneCrop.CropData | papps/snaptune/js/cropManager.js:337-359 | the crop is the overlay scaled from display to image pixels on each axis |
| SnaptuneCrop.CropDataInside | papps/snaptune/js/cropManager.js:337-359 | an overlay inside the display maps to a crop inside the image |

## Left out

- Drawing, the DOM, events, IndexedDB, MediaRecorder, `requestAnimationFrame` and timers are not modelled. Each operation is modelled as the state change an event handler makes.
- All numbers are exact reals or unbounded integers. Floating-point rounding is not modelled. Neither are NaN, infinities or -0, except where a division by zero is written out (the idiff slider, the crop ratio test).
- Trigonometry in composi's rotated-overlay hit tests and the eraser's stroke geometry is not modelled. An erase stroke is an opaque value added to the mask.
- The composi wheel's exponential zoom factor is a parameter.
- Image sizes are positive integers. Loading a zero-size image is not modelled.
- Image decoding and loading are not modelled. A loaded image is its size. snaptune's `loadImage` and undo, which wait for the image to load, are taken as completing at once.
- `TextDecoder` is not modelled. Keys and text stay byte sequences. `DecompressionStream` is the `inflate` parameter of `PngText.ParseIText`.
- PngText.Record: JavaScript's property-key rules are not followed. The result is a plain object (mediainfo/script.js:294), so a keyword `__proto__` is not stored by the code, while the model stores it like any other keyword.
- MediaFormat.GetGenerationInfo: lower-casing of keys is modelled for ASCII letters only.
- MediaFormat.GeneralKept: the length test `value.length > 10` counts UTF-16 code units in JavaScript, while the model counts Unicode characters, so a value of astral-plane characters can be kept by the code and not by the model. The substring tests are unaffected.
- ComposiEditor.SetControl: the slider and input values are taken already multiplied by the control's factor (0.01 for scale and the filters, 1 for rotation and hue), and `parseFloat` of the field is not modelled.
- MediaFormat.FormatDuration: a negative duration gets a label, but the round trip is proved only for positive durations.
- SnaptuneProcessor.UpdateParam: `key in params` also matches keys inherited from the object prototype. The model accepts only the eight parameter names.
- SnaptuneCrop.ActiveRatio: the `w:h` text of the ratio buttons is not parsed. A fixed ratio is a pair of positive integers.
- SnaptuneCrop.CropData: requires a positive display size; the source divides by it without a check.
- The fps shown with `toFixed` and the progress display of the video tools are not modelled.
- SnaptuneApp.Drop: what loading a dropped file does to the page is not modelled, only the counter and the two panels.
- `parseFloat` of the duration input is the `Option<real>` argument of `VideoTimeline.TargetDuration`; `None` stands for NaN.
- snap2v and snap2mov share one timeline model. The output limit is a parameter: 1280 or 1920 for snap2v, 1920 for snap2mov.

## Findings

| source | as written | input that shows it | evidently intended | confidence | as-written member | corrected member |
|---|---|---|---|---|---|---|
| papps/composi/app.js:413-432 | clearing the overlay sets the mask canvas to null but keeps its 2D context, so a later restore of a snapshot without a mask (app.js:972-990), or a mask reset (app.js:526-534), reads the width of a null canvas and throws a TypeError | load an overlay, clear it, change any control, press undo | drop the mask context along with the canvas, so undo after clearing the overlay works | not executed | ComposiEditor.ClearOverlayAsWrittenThenUndoThrows | ComposiEditor.ClearOverlayThenUndoSucceeds |
| papps/snaptune/js/cropManager.js:157-250 | the minimum size of 20 is applied before the ratio re-fit, and the re-fit can shrink a side below it again | crop Rect(10, 10, 100, 100), handle `se`, dx = -95, dy = 0, ratio 0.75, canvas 500×500: the width ends at 15 | the crop keeps both sides at least 20 after every resize; the correction gives up the ratio at the minimum, so on this input it yields 20×20 | not executed | SnaptuneCrop.ResizeAsWrittenBelowMinimum | SnaptuneCrop.Resize |
| papps/composi/app.js:231-259 | `bindControl` captures `this.transform` and `this.filters` once, and `restoreState` (app.js:972-974) replaces both with copies, so after any undo or redo the sliders and number inputs write into objects the editor no longer draws | load an overlay, change the scale, press undo, type a new scale: the overlay keeps its scale | every control change acts on the transform and filters the editor currently holds | not executed | ComposiEditor.InputAfterUndoIsLost | ComposiEditor.Adjust |
| papps/composi/app.js:241-249 | the slider sets the value on `input` and pushes the state only on `change`, after the value was set, so the pushed snapshot already holds the new value | drag the opacity slider from 100 to 50, press undo: the opacity stays at 50 | the state before the drag is pushed, so undo brings back the value from before it | not executed | ComposiEditor.SliderDragThenUndoKeepsValue | ComposiEditor.AdjustThenUndoRestores |
| papps/idiff/app.js:675-684 | the Fit button sets the zoom to the natural-size fit `getFitZoomVal()` in every mode, although side-by-side mode measures zoom against the container, where the fit is 1 (app.js:531-553), and the image-load handler skips `fitView` in that mode (app.js:473) | compare two images whose natural-size fit is 0.5, switch to side by side, press Fit: the zoom becomes 0.5, half the fitted size | Fit lands at the fit of the current mode: 1 side by side, the natural-size fit otherwise | not executed | IdiffView.FitButtonOffSideBySideFit | IdiffView.FitViewInMode |
