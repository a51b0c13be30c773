# Gradia core in Dafny

Gradia is a GTK screenshot editor. It places a picture on a background, crops
or pads it, adds a shadow and lets the user draw annotations over it. This
project models the logic under that user interface and proves properties of
the model:

- **Annotation engine** (`geometry.dfy`, `annotations.dfy`, `pixelate.dfy`).
  This is gradia/overlay/drawing_actions.py: padded bounding boxes, the
  inclusive box hit test, and the clamped-segment hit test of lines and
  arrows. It also covers `translate` of every annotation kind, the censor
  tool's widget rectangle, crop region and downscaled size, and the in-place
  neighbour swap `_randomize_pixels`, which works on a byte array.
- **Drawing overlay** (`overlay_state.dfy`, `overlay_laws.dfy`, `overlay.dfy`).
  This is `DrawingOverlay` of gradia/overlay/drawing_overlay.py:
  - annotations are an identity list; undo and redo are two stacks;
  - selection, drag begin/update/end, click and double-click in every tool
    mode;
  - the text-entry session, the setters, clear, remove and the export guard.

  `OverlayState` gives one function per handler. `Overlay.DrawingOverlay` is a
  class whose fields the methods update in place, each proved to match the
  matching function. `OverlayLaws` proves the history laws, topmost
  selection, the commit rules and the summed move.
- **Letterbox** (`letterbox.dfy`). `_get_image_bounds`, the same in
  drawing_overlay.py and transparency_overlay.py, plus the mapping between
  widget and image coordinates.
- **Checkerboard** (`checkerboard.dfy`). The nested tile loops of
  `TransparencyBackground._on_draw`: the tiles stay inside the picture area,
  cover it exactly once and alternate in shade.
- **Earlier annotation model** (`legacy_actions.dfy`). gradia/ui/drawing_actions.py,
  with its width-based padding and its hit test widened by ten percent.
- **Image composition** (`processor.dfy`). The integer geometry of
  gradia/graphics/image_processor.py: downscaling, the compression-quality
  loop, crop, padding, aspect-ratio growth, shadow and paste position. It
  also covers the pixel-based padding of src/image_processor.py.
  The helpers of src/graphics/image_processor.py have the same branches,
  so the same members model them; its `process` has no shadow
  (`Processor.PlainProcess`).
- **Backgrounds** (`gradient.dfy`, `solid.dfy`, `image.dfy`, `colors.dfy`):
  - the class-level gradient cache, insertion-ordered with eviction of the
    older half, in gradia/graphics/gradient.py and src/graphics/gradient.py;
  - solid colours and their swatch grid;
  - the cover crop of a picture background;
  - gradia/utils/colors.py.
- **Captions** (`captions.dfy`). gradia/graphics/text.py, src/graphics/text.py
  and the inline caption of src/image_processor.py: gravity normalisation and
  placement, the `rgb(...)` parse, and the `TextSelector` handlers.
- **Files and the command line** (`paths.dfy`, `exporters.dfy`, `loaders.dfy`,
  `cli.dfy`):
  - the export names and extension rules of both image_exporters.py files;
  - the input filter and load order of gradia/ui/image_loaders.py;
  - `--screenshot` parsing and file arguments in gradia/main.py.
- **Shared helpers** (`wrappers.dfy`, `strings.dfy`). `Option` and `Result`
  stand in for `None` and for exceptions. The Python `str` and `int`
  behaviour the code relies on is written out: strip, ASCII case mapping,
  split, `int()` and `str()`.

Coordinates and Python floats are Dafny `real`s. Python's `int()` on a float
truncates toward zero (`Numbers.Trunc`), and `//` on integers is floor
division, the same as Dafny's `/` for a positive divisor. Annotation
identity, which `list.remove` and `in` depend on, is a `nat` id carried by
each annotation.

The model follows the code where it differs from what a reader might expect:

- Lines and arrows of zero length are committed.
- The `None` branch of `_get_crop_region` is never taken.
- An arrow can be hit outside its bounding box.
- `hex_to_rgb` accepts a sign inside a pair, as in "#-f0000", and so yields
  channels in -15..255 rather than 0..255.
- `--screenshot=full` maps to the flag `NONE`. That flag is 0, so the window
  is still shown.

## Model

| member | source | states |
|---|---|---|
| Geometry.Pad | gradia/overlay/drawing_actions.py:50-53 | padding moves every side outward by the same amount: width and height grow by twice the padding and the centre stays put |
| Geometry.Span | gradia/overlay/drawing_actions.py:133-138 | the min/max box of two corners contains both corners and each of its sides is a coordinate of one of them |
| Geometry.Clamp01 | gradia/overlay/drawing_actions.py:65 | the clamped projection parameter lies in [0, 1] and is unchanged when already inside |
| Geometry.ClosestIsNearest | gradia/overlay/drawing_actions.py:64-68 | the clamped projection is the point of the segment nearest to the pointer: no other point of the segment is closer |
| Geometry.SegmentHitIff | gradia/overlay/drawing_actions.py:57-69 | for a segment of positive length the hit test holds exactly when some point of the segment lies closer than the tolerance |
| Geometry.LerpInSpan | gradia/overlay/drawing_actions.py:66-67 | every point of the segment lies in the box spanned by its end points |
| Geometry.SegmentHitInPaddedSpan | gradia/overlay/drawing_actions.py:52-69 | a segment hit lies within the segment's span padded by the larger of the tolerance and the degenerate radius |
| Annotations.ExtentCovers | gradia/overlay/drawing_actions.py:95-96 | every point of a non-empty stroke lies between the min and max of its coordinates |
| Annotations.ExtentShift | gradia/overlay/drawing_actions.py:95-99 | shifting every stroke point shifts the stroke's extent by the same offset |
| Annotations.TranslateBounds | gradia/overlay/drawing_actions.py:92-247 | translating any annotation shifts `get_bounds()` by exactly the offset; only an empty stroke, with constant bounds (0,0,0,0), stays put |
| Annotations.FreehandBoundsShift | gradia/overlay/drawing_actions.py:92-99 | stroke and highlighter bounds move with the stroke, except the empty stroke's |
| Annotations.TextBoundsShift | gradia/overlay/drawing_actions.py:170-205 | a text's bounds move with its anchor |
| Annotations.CornerBoundsShift | gradia/overlay/drawing_actions.py:133-247 | arrow, line, rectangle, circle and censor bounds move with their two corners |
| Annotations.TranslateKeepsKind | gradia/overlay/drawing_actions.py:98-247 | translation keeps the kind and every attribute other than position: the colour, the pen size and stroke length of freehand strokes, head size and width of lines and arrows, width and fill of rectangles and ellipses, level and background of a censor, and text, font size, family and reference size of a text |
| Annotations.TranslateCompose | gradia/overlay/drawing_actions.py:98-247 | two moves add up to one move by the summed offset |
| Annotations.TranslateZero | gradia/overlay/drawing_actions.py:98-247 | a move by (0, 0) changes nothing |
| Annotations.TranslateContains | gradia/overlay/drawing_actions.py:55-99 | a moved annotation is hit at the moved point exactly when the original is hit at the original point (empty strokes excepted) |
| Annotations.SegmentHitShift | gradia/overlay/drawing_actions.py:57-69 | the segment test is unchanged when the pointer and both end points move together |
| Annotations.FreehandBoundsCover | gradia/overlay/drawing_actions.py:92-96 | every point of a stroke lies inside the stroke's bounds |
| Annotations.HitInsideBounds | gradia/overlay/drawing_actions.py:50-70 | a hit lies inside the bounds for every non-segment annotation, and for lines and arrows at most 2 wide |
| Annotations.WideArrowHitOutsideBounds | gradia/overlay/drawing_actions.py:52-69 | an arrow of width 10 is hit at (0.5, 0.05), which lies outside its bounding box |
| Annotations.BlankTextBounds | gradia/overlay/drawing_actions.py:170-173 | a text of only whitespace has the unpadded anchor point as its bounds and is hit only there |
| Annotations.TextBoundsAnchored | gradia/overlay/drawing_actions.py:191-202 | a text's box is centred horizontally on its anchor and ends, padded, at the anchor's height |
| Annotations.CensorWidgetRect | gradia/overlay/drawing_actions.py:327-336 | the widget rectangle exists exactly when both extents are at least one pixel, and then spans the min/max of the two corners |
| Annotations.ClampIndex | gradia/overlay/drawing_actions.py:349-350 | a clamped index is at least 0 and at most `limit - 1` |
| Annotations.CropRegionInside | gradia/overlay/drawing_actions.py:344-356 | the crop region always exists (the `None` branch is never taken), is at least 1x1, lies inside a non-empty background and spans both clamped corners |
| Annotations.PixelatedSize | gradia/overlay/drawing_actions.py:308-313 | the scaled-down size is at least 1 and is the floor quotient of the size by the level |
| Annotations.CensorDrawPixelates | gradia/overlay/drawing_actions.py:294-325 | with a background and a visible rectangle the censor pixelates a crop inside the background into sizes of at least one pixel |
| Pixelate.PixelIndexInRange | gradia/overlay/drawing_actions.py:370-383 | every channel of every pixel addressed as `y * stride + x * channels + c` is inside a buffer that holds the layout |
| Pixelate.NeighborsIff | gradia/overlay/drawing_actions.py:373-379 | the neighbour list holds exactly the in-bounds pixels adjacent to the current one horizontally, vertically or diagonally |
| Pixelate.SwapChannels | gradia/overlay/drawing_actions.py:384-385 | the channel swap keeps the buffer's length and its multiset of bytes |
| Pixelate.SwapChannelsOutside | gradia/overlay/drawing_actions.py:384-385 | bytes outside both pixels' channel ranges are untouched |
| Pixelate.SwapChannelsExchange | gradia/overlay/drawing_actions.py:384-385 | for two disjoint channel runs, channel `c` of each run ends up holding channel `c` of the other |
| Pixelate.SwapChannelsSame | gradia/overlay/drawing_actions.py:384-385 | swapping a run with itself leaves the buffer unchanged |
| Pixelate.SwappedRun | gradia/overlay/drawing_actions.py:384-385 | after the channel swap the run at the first offset is the old second run, the run at the second offset the old first run, and every run apart from both is unchanged |
| Pixelate.SwappedPixel | gradia/overlay/drawing_actions.py:382-385 | after exchanging the channels of two pixels, each of them holds the other's old channel tuple and every other pixel keeps its own |
| Pixelate.SwappedPixels | gradia/overlay/drawing_actions.py:382-385 | the channel exchange of two pixels permutes the list of pixel tuples taken in visiting order |
| Pixelate.Visit | gradia/overlay/drawing_actions.py:378-385 | one visit keeps the buffer's length and multiset of bytes |
| Pixelate.VisitPermutesPixels | gradia/overlay/drawing_actions.py:378-385 | one visit keeps the multiset of pixel tuples |
| Pixelate.SwapPixels | gradia/overlay/drawing_actions.py:382-385 | swapping two pixels keeps the buffer's length and multiset of bytes |
| Pixelate.SwapPixelsMoves | gradia/overlay/drawing_actions.py:382-385 | in a buffer that holds the layout, the pixel swap gives each of the two pixels the other's old tuple and leaves every other pixel as it was |
| Pixelate.SwapPixelsPermutesPixels | gradia/overlay/drawing_actions.py:382-385 | the pixel swap keeps the multiset of pixel tuples |
| Pixelate.RowDone | gradia/overlay/drawing_actions.py:377-385 | a row pass keeps the buffer's length and multiset of bytes |
| Pixelate.RowDonePermutesPixels | gradia/overlay/drawing_actions.py:377-385 | a pass over the first pixels of a row keeps the multiset of pixel tuples |
| Pixelate.RowsDone | gradia/overlay/drawing_actions.py:376-385 | a pass over the first rows keeps the buffer's length and multiset of bytes |
| Pixelate.RowsDonePermutesPixels | gradia/overlay/drawing_actions.py:376-385 | a pass over the first rows keeps the multiset of pixel tuples |
| Pixelate.Randomized | gradia/overlay/drawing_actions.py:369-385 | the randomised buffer has the original length and is a permutation of the original bytes |
| Pixelate.RandomizedPermutesPixels | gradia/overlay/drawing_actions.py:369-385 | the randomised buffer holds the same pixel tuples as the original, each as often, only in other places |
| Pixelate.RandomizePixels | gradia/overlay/drawing_actions.py:369-385 | the nested loops leave the array equal to the specification of the whole pass |
| Pixelate.VisitRow | gradia/overlay/drawing_actions.py:377-385 | the pixel loop of one row leaves the array equal to that row's pass |
| Pixelate.VisitInPlace | gradia/overlay/drawing_actions.py:378-385 | the loop body leaves the array equal to one visit |
| Pixelate.SwapPixelsInPlace | gradia/overlay/drawing_actions.py:382-385 | the channel loop leaves the array equal to the pixel swap |
| Pixelate.SwapInPlace | gradia/overlay/drawing_actions.py:385 | the tuple assignment swaps two bytes in place |
| Pixelate.SinglePixelUnchanged | gradia/overlay/drawing_actions.py:379-380 | a one-pixel image has no neighbour and comes back unchanged |
| Pixelate.NoLuckyDrawUnchanged | gradia/overlay/drawing_actions.py:378 | when no draw falls below 0.3 nothing is swapped |
| Pixelate.RandomizedKeepsPadding | gradia/overlay/drawing_actions.py:372-385 | row padding bytes beyond the last pixel of a row are never moved |
| Letterbox.FitProperties | gradia/overlay/transparency_overlay.py:44-50 | the letterboxed frame keeps the picture's aspect ratio, lies inside the widget, is centred in it and fills it along at least one axis |
| Letterbox.ImageBoundsCases | gradia/overlay/drawing_overlay.py:86-100 | without a picture or paintable the frame is the overlay's own size; with a non-positive intrinsic side it is the picture widget's size; otherwise it is the centred, aspect-preserving letterbox inside the picture widget |
| Letterbox.CoordinatesRoundTrip | gradia/overlay/drawing_overlay.py:112-118 | widget-to-image and image-to-widget coordinates are inverse to each other while both displayed sides are non-zero; with a zero side widget-to-image returns its input |
| Letterbox.InImageIffUnit | gradia/overlay/drawing_overlay.py:120-122 | a widget point is inside the displayed image, edges included, exactly when its image-relative coordinates lie in the unit square |
| Letterbox.ScaleFactorIsFitScale | gradia/overlay/drawing_overlay.py:105-110 | for a picture of positive intrinsic size the stroke scale factor equals the letterbox scale `min(widget_w / img_w, widget_h / img_h)` |
| Letterbox.ModifiedImageBounds | gradia/overlay/drawing_overlay.py:102-103 | the intrinsic size of the paintable; an error exactly when there is no picture or paintable to ask |
| Letterbox.BackgroundRaster | gradia/overlay/drawing_overlay.py:124-133 | a background pixbuf exists exactly when the paintable is a texture, and then has the texture's intrinsic size |
| Letterbox.RenderTarget | gradia/overlay/drawing_overlay.py:600-602 | a surface is produced exactly when both sides are positive, and it has exactly that size |
| Letterbox.ExportTarget | gradia/overlay/drawing_overlay.py:540-548 | the export is rendered exactly when a paintable of positive intrinsic size is shown |
| OverlayState.FindIndex | gradia/overlay/drawing_overlay.py:167-171 | the position found is hit and no later (higher) annotation is; no position is found only when no annotation is hit |
| OverlayLaws.PositionOfFirst | gradia/overlay/drawing_overlay.py:314-315 | `list.remove` finds the first occurrence of an identity, and finds one exactly when the identity is present |
| OverlayLaws.RemoveFirstLaws | gradia/overlay/drawing_overlay.py:143-150 | removing an identity from a list in creation order keeps the order and every other identity, drops the removed one and shortens the list by one exactly when it was there |
| OverlayLaws.CommitAppends | gradia/overlay/drawing_overlay.py:430-454 | committing a finished gesture appends exactly the produced annotation as a new object, empties the redo stack and leaves every existing object as it was |
| OverlayLaws.UndoThenRedo | gradia/overlay/drawing_overlay.py:557-567 | `undo` then `redo` restores both lists exactly and only clears the selection; `undo` on an empty list changes nothing |
| OverlayLaws.RedoThenUndo | gradia/overlay/drawing_overlay.py:557-567 | `redo` then `undo` restores both lists exactly and only clears the selection; `redo` on an empty redo stack changes nothing |
| OverlayLaws.UndoTransfers | gradia/overlay/drawing_overlay.py:557-561 | `undo` moves the top annotation onto the top of the redo stack, keeps the total number of annotations and clears the selection |
| OverlayLaws.RemoveSelectedLaws | gradia/overlay/drawing_overlay.py:143-150 | deleting succeeds exactly when a listed annotation is selected; it then drops exactly that annotation, clears the selection and the redo stack and keeps the invariant; otherwise nothing changes |
| OverlayLaws.ClearDrawingLaws | gradia/overlay/drawing_overlay.py:550-555 | clearing closes the text session and leaves no annotation, no redo entry and no selection, keeping the invariant |
| OverlayLaws.FindIndexIff | gradia/overlay/drawing_overlay.py:167-171 | the position reported is a given annotation exactly when that one is hit and none drawn above it is |
| OverlayLaws.ClickSelectsTopmost | gradia/overlay/drawing_overlay.py:224-248 | a single click in select mode inside the picture selects the topmost annotation under the pointer, or nothing, whatever was selected before, and leaves the list alone |
| OverlayLaws.SetDrawingModeResets | gradia/overlay/drawing_overlay.py:152-165 | changing mode sets the mode, stops any drawing or move, empties the stroke and both points and closes the text entry; leaving select mode drops the selection, staying in it keeps the annotations |
| OverlayLaws.DragEndAppendsAtMostOne | gradia/overlay/drawing_overlay.py:418-455 | a drawing drag keeps the older annotations, adds at most one, always empties the redo stack and clears both points |
| OverlayLaws.FreehandCommit | gradia/overlay/drawing_overlay.py:432-438 | a pen or highlighter drag is committed exactly when it has more than one point, with exactly those points; a highlighter stroke uses the pen colour at alpha 0.3 and the highlighter size |
| OverlayLaws.ZeroLengthArrowCommitted | gradia/overlay/drawing_overlay.py:439-441 | an arrow is committed whatever its length, even from a drag that never moved, with the pen colour, head size and pen size |
| OverlayLaws.NumberModeCommitsNothing | gradia/overlay/drawing_overlay.py:439-454 | a drag in a mode with no shape branch commits nothing but still empties the redo stack |
| OverlayLaws.MoveAlong | gradia/overlay/drawing_overlay.py:400-407 | a run of move updates keeps the selection and an anchor |
| OverlayLaws.MoveSumsDisplacement | gradia/overlay/drawing_overlay.py:400-407 | however many drag updates a selection move takes, the selected annotation ends translated by the offset from the first anchor to the last pointer position, the anchor is that last position and the lists are untouched |
| OverlayLaws.CommitEditLaws | gradia/overlay/drawing_overlay.py:308-318 | committing an edit with non-empty text replaces the edited text and keeps the list; with empty text it removes that annotation, drops it from the selection and keeps every other one; the redo stack is emptied either way |
| OverlayLaws.CloseEditedShape | gradia/overlay/drawing_overlay.py:354-361 | closing the entry while editing commits the stripped entry text to the edited annotation and resets the session fields |
| OverlayLaws.CloseEditedText | gradia/overlay/drawing_overlay.py:300-333 | closing an edit with non-empty stripped text sets that text on the annotation; with empty text the annotation is removed; the redo stack is emptied and the session reset either way |
| OverlayLaws.CloseNewText | gradia/overlay/drawing_overlay.py:319-333 | closing a new entry with non-empty stripped text over a paintable appends one text annotation at the entry position in the pen colour, font size and family, with the picture's intrinsic size; with empty text or no paintable nothing is committed |
| OverlayLaws.PopoverClosedRaises | gradia/overlay/drawing_overlay.py:319-333 | when creating the text raises because there is no paintable to measure, the handler leaves every field as it was, the session included |
| OverlayLaws.InitialWellFormed | gradia/overlay/drawing_overlay.py:36-68 | the freshly built overlay satisfies the invariant: lists in creation order, no selection, setter bounds met |
| OverlayLaws.CommitTextWellFormed | gradia/overlay/drawing_overlay.py:300-333 | committing the text entry keeps the invariant |
| OverlayLaws.CloseTextEntryWellFormed | gradia/overlay/drawing_overlay.py:354-361 | closing the text entry, also by the popover itself, keeps the invariant |
| OverlayLaws.ShowTextEntryWellFormed | gradia/overlay/drawing_overlay.py:268-286 | opening a new text entry keeps the invariant |
| OverlayLaws.TextChangedWellFormed | gradia/overlay/drawing_overlay.py:336-340 | following the entry's text keeps the invariant |
| OverlayLaws.FontSizeChangedWellFormed | gradia/overlay/drawing_overlay.py:288-298 | changing the font size keeps the invariant |
| OverlayLaws.SetDrawingModeWellFormed | gradia/overlay/drawing_overlay.py:152-165 | changing mode keeps the invariant |
| OverlayLaws.FindAtInActions | gradia/overlay/drawing_overlay.py:167-171 | the annotation found under a point is one of the listed annotations |
| OverlayLaws.DragBeginWellFormed | gradia/overlay/drawing_overlay.py:363-390 | starting a drag keeps the invariant; a selection it makes is a listed annotation |
| OverlayLaws.MoveToWellFormed | gradia/overlay/drawing_overlay.py:400-407 | a move step keeps the invariant |
| OverlayLaws.DragUpdateWellFormed | gradia/overlay/drawing_overlay.py:392-416 | a drag update keeps the invariant |
| OverlayLaws.DragEndWellFormed | gradia/overlay/drawing_overlay.py:418-455 | ending a drag keeps the invariant |
| OverlayLaws.ClickWellFormed | gradia/overlay/drawing_overlay.py:218-248 | a click keeps the invariant |
| OverlayLaws.ClickSelectionOk | gradia/overlay/drawing_overlay.py:236-248 | a single click selects one of the listed annotations or nothing |
| OverlayLaws.SettersToolsOk | gradia/overlay/drawing_overlay.py:569-591 | the setters keep their lower bounds: pen and highlighter size at least 1, head size at least 5, font size at least 8, pixelation at least 2, a non-empty font family |
| Overlay.DrawingOverlay.constructor | gradia/overlay/drawing_overlay.py:36-68 | the fields as `__init__` sets them, satisfying the invariant |
| Overlay.DrawingOverlay.RemoveSelectedAction | gradia/overlay/drawing_overlay.py:143-150 | reports and performs the removal `OverlayState.RemoveSelected` describes, keeping the invariant |
| Overlay.DrawingOverlay.FindActionAtPoint | gradia/overlay/drawing_overlay.py:167-171 | the loop from the top down returns the topmost hit, as `FindAt` specifies |
| Overlay.DrawingOverlay.IsPointInSelectionBounds | gradia/overlay/drawing_overlay.py:173-179 | false without a selection; otherwise whether the point lies in the selection's bounds widened by `max(pen_size, arrow_head_size, font_size / 2) / 200` |
| Overlay.DrawingOverlay.SetDrawingMode | gradia/overlay/drawing_overlay.py:152-165 | the new fields are `OverlayState.SetDrawingMode` of the old ones, keeping the invariant |
| Overlay.DrawingOverlay.OnClick | gradia/overlay/drawing_overlay.py:218-248 | the new fields are `OverlayState.Click` of the old ones, keeping the invariant |
| Overlay.DrawingOverlay.ClickSelect | gradia/overlay/drawing_overlay.py:236-248 | only the selection changes, to what `ClickSelection` gives |
| Overlay.DrawingOverlay.StartTextEdit | gradia/overlay/drawing_overlay.py:250-266 | the session fields are set from the edited text annotation and nothing else changes |
| Overlay.DrawingOverlay.ShowTextEntry | gradia/overlay/drawing_overlay.py:268-286 | the new fields are `OverlayState.ShowTextEntry` of the old ones, keeping the invariant |
| Overlay.DrawingOverlay.OnFontSizeChanged | gradia/overlay/drawing_overlay.py:288-298 | the edited annotation's font size changes, or else the default font size, keeping the invariant |
| Overlay.DrawingOverlay.CommitTextEdit | gradia/overlay/drawing_overlay.py:308-318 | only the lists and objects change, as `CommitEdit` describes |
| Overlay.DrawingOverlay.CommitNewText | gradia/overlay/drawing_overlay.py:320-331 | only the lists and objects change: a text annotation in the current pen colour and font is committed |
| Overlay.DrawingOverlay.OnPopoverClosed | gradia/overlay/drawing_overlay.py:300-334 | raises exactly when creating the text fails; the new fields are `PopoverClosed` of the old ones, keeping the invariant |
| Overlay.DrawingOverlay.OnTextEntryChanged | gradia/overlay/drawing_overlay.py:336-340 | the new fields are `TextChanged` of the old ones, keeping the invariant |
| Overlay.DrawingOverlay.OnTextEntryActivate | gradia/overlay/drawing_overlay.py:342-344 | activating the entry closes it, as `CloseTextEntry` describes |
| Overlay.DrawingOverlay.CleanupTextEntry | gradia/overlay/drawing_overlay.py:346-352 | only the session fields change, to the reset values |
| Overlay.DrawingOverlay.CloseTextEntry | gradia/overlay/drawing_overlay.py:354-361 | the new fields are `CloseTextEntry` of the old ones, keeping the invariant |
| Overlay.DrawingOverlay.OnDragBegin | gradia/overlay/drawing_overlay.py:363-390 | the new fields are `DragBegin` of the old ones, keeping the invariant |
| Overlay.DrawingOverlay.GrabSelection | gradia/overlay/drawing_overlay.py:372-382 | inside the selection's bounds a move starts on it; otherwise the topmost hit is selected and a move starts on it, or the selection is dropped |
| Overlay.DrawingOverlay.OnDragUpdate | gradia/overlay/drawing_overlay.py:392-416 | the new fields are `DragUpdate` of the old ones, keeping the invariant |
| Overlay.DrawingOverlay.ExtendDrawing | gradia/overlay/drawing_overlay.py:412-415 | a freehand stroke gains the point at its end; a shape gets it as its end point; nothing else changes |
| Overlay.DrawingOverlay.MoveSelection | gradia/overlay/drawing_overlay.py:400-407 | the selected annotation is translated by the offset from the anchor and the anchor moves to the pointer |
| Overlay.DrawingOverlay.OnDragEnd | gradia/overlay/drawing_overlay.py:418-455 | the new fields are `DragEnd` of the old ones, keeping the invariant |
| Overlay.DrawingOverlay.AppendStroke | gradia/overlay/drawing_overlay.py:432-437 | one pen or highlighter stroke with the gesture's points is appended |
| Overlay.DrawingOverlay.AppendShape | gradia/overlay/drawing_overlay.py:439-450 | the shape the current mode draws from the two points is appended, or nothing for a mode without one |
| Overlay.DrawingOverlay.ExportToPixbuf | gradia/overlay/drawing_overlay.py:540-548 | renders at the picture's intrinsic size, or not at all, and draws the annotations in list order |
| Overlay.DrawingOverlay.ClearDrawing | gradia/overlay/drawing_overlay.py:550-555 | the new fields are `OverlayState.ClearDrawing` of the old ones, keeping the invariant |
| Overlay.DrawingOverlay.Undo | gradia/overlay/drawing_overlay.py:557-561 | only the lists and the selection change, as `OverlayState.Undo` describes, keeping the invariant |
| Overlay.DrawingOverlay.Redo | gradia/overlay/drawing_overlay.py:563-567 | only the lists and the selection change, as `OverlayState.Redo` describes, keeping the invariant |
| Overlay.DrawingOverlay.SetPenColor | gradia/overlay/drawing_overlay.py:569-570 | only the pen colour changes, to the given channels with an alpha of 1 by default; the invariant is kept |
| Overlay.DrawingOverlay.SetFillColor | gradia/overlay/drawing_overlay.py:572-573 | only the fill colour changes, to the given channels with an alpha of 1 by default; the invariant is kept |
| Overlay.DrawingOverlay.SetPenSize | gradia/overlay/drawing_overlay.py:575-576 | only the pen size changes, to `max(1.0, s)`; the invariant is kept |
| Overlay.DrawingOverlay.SetArrowHeadSize | gradia/overlay/drawing_overlay.py:578-579 | only the arrow head size changes, to `max(5.0, s)`; the invariant is kept |
| Overlay.DrawingOverlay.SetFontSize | gradia/overlay/drawing_overlay.py:581-582 | only the font size changes, to `max(8.0, size)`; the invariant is kept |
| Overlay.DrawingOverlay.SetFontFamily | gradia/overlay/drawing_overlay.py:584-585 | only the font family changes, to "Sans" for an empty name; the invariant is kept |
| Overlay.DrawingOverlay.SetHighlighterSize | gradia/overlay/drawing_overlay.py:587-588 | only the highlighter size changes, to `max(1.0, s)`; the invariant is kept |
| Overlay.DrawingOverlay.SetPixelationLevel | gradia/overlay/drawing_overlay.py:590-591 | only the pixelation level changes, to `max(2, int(level))`; the invariant is kept |
| Overlay.DrawingOverlay.AppendAction | gradia/overlay/drawing_overlay.py:330 | a new object is appended under a fresh identity and nothing else changes |
| OverlayLaws.EditDocOk | gradia/overlay/drawing_overlay.py:404 | mutating an existing annotation in place keeps the invariant: no identity moves |
| OverlayLaws.CommitDocOk | gradia/overlay/drawing_overlay.py:430-454 | a commit appends a fresh identity and empties the redo stack, so both lists stay in creation order |
| OverlayLaws.UndoDocOk | gradia/overlay/drawing_overlay.py:557-561 | `undo` keeps the invariant |
| OverlayLaws.RedoDocOk | gradia/overlay/drawing_overlay.py:563-567 | `redo` keeps the invariant |
| OverlayLaws.RemoveTextDocOk | gradia/overlay/drawing_overlay.py:313-318 | removing the edited text keeps the invariant and drops it from the selection |
| OverlayLaws.CommitEditDocOk | gradia/overlay/drawing_overlay.py:308-318 | committing an edit keeps the invariant |
| LegacyActions.Tolerance | gradia/ui/drawing_actions.py:42-43 | the widening along an axis is always positive: a tenth of a positive extent, otherwise 0.01 |
| LegacyActions.StrokeBounds | gradia/ui/drawing_actions.py:85-91 | an empty stroke has the box `(0, 0, 0, 0)`; every point of a stroke drawn with a non-negative pen lies inside its bounds |
| LegacyActions.StrokePadding | gradia/ui/drawing_actions.py:88-91 | a stroke's box is its points' extent grown by `pen_size / 200` on every side, with the same centre |
| LegacyActions.CornerBounds | gradia/ui/drawing_actions.py:205-211 | the box of a two-corner annotation does not depend on which corner came first and contains both corners when the padding is not negative |
| LegacyActions.ArrowPadding | gradia/ui/drawing_actions.py:128-134 | an arrow is padded by `max(width, arrow_head_size) / 200` |
| LegacyActions.TextBounds | gradia/ui/drawing_actions.py:172-184 | the text box is `len(text) * font_size * 0.6 / 800` wide, centred on the anchor's x, `font_size / 400` high, with its bottom edge on the anchor |
| LegacyActions.BoundsAreHits | gradia/ui/drawing_actions.py:40-63 | for the box-tested kinds every point of the bounds is a hit, and a hit is never further out than the tolerance |
| LegacyActions.SegmentContains | gradia/ui/drawing_actions.py:45-61 | a line or arrow of positive length is hit exactly when some point of the segment lies closer than `0.01 + width / 200` |
| LegacyActions.PointLineRadius | gradia/ui/drawing_actions.py:50-52 | a line of positive width whose ends coincide is hit exactly within a thousandth of its width of its point, since the tolerance is a tenth of its padded box |
| LegacyActions.CornerTranslateBounds | gradia/ui/drawing_actions.py:136-138 | moving a two-corner annotation moves its box by the same offset |
| LegacyActions.StrokeTranslateBounds | gradia/ui/drawing_actions.py:93-94 | moving a non-empty stroke moves its box by the same offset |
| LegacyActions.TranslateBounds | gradia/ui/drawing_actions.py:65-94 | moving any annotation moves its bounds by the same offset, except an empty stroke, whose box stays `(0, 0, 0, 0)` |
| LegacyActions.TranslateKeeps | gradia/ui/drawing_actions.py:93-187 | moving keeps the kind, the colour, the sizes, the text and the number of stroke points |
| LegacyActions.TranslateContains | gradia/ui/drawing_actions.py:40-63 | the hit test moves with the annotation: the moved point hits the moved annotation exactly when the point hit the original (an empty stroke excepted) |
| Checkerboard.TransparencyBackground.constructor | gradia/overlay/transparency_overlay.py:21-25 | a new background has no picture reference |
| Checkerboard.TransparencyBackground.SetPictureReference | gradia/overlay/transparency_overlay.py:27-30 | the picture reference becomes the one given |
| Checkerboard.TransparencyBackground.OnDraw | gradia/overlay/transparency_overlay.py:52-76 | the squares painted are the grid of the letterbox truncated to whole pixels, in painting order |
| Checkerboard.PaintArea | gradia/overlay/transparency_overlay.py:64-76 | the nested loops paint exactly the grid of the area, row by row |
| Checkerboard.PaintRow | gradia/overlay/transparency_overlay.py:65-76 | the inner loop paints exactly the squares of one row from the left edge to the right edge |
| Checkerboard.RowFromSound | gradia/overlay/transparency_overlay.py:65-75 | every square of a row from some column on is the square of a later column inside the area |
| Checkerboard.RowFromComplete | gradia/overlay/transparency_overlay.py:65-75 | a row from some column on holds the square of every later column inside the area |
| Checkerboard.GridFromSound | gradia/overlay/transparency_overlay.py:64-75 | every square painted from some row on is the square of a valid cell of a later row |
| Checkerboard.GridFromComplete | gradia/overlay/transparency_overlay.py:64-75 | the rows from some row on hold the square of every valid cell of a later row |
| Checkerboard.GridIff | gradia/overlay/transparency_overlay.py:64-76 | the painted squares are exactly the squares of the valid cells of the area |
| Checkerboard.CellInside | gradia/overlay/transparency_overlay.py:64-75 | a cell's square starts on the 20-pixel lattice, is between 1 and 20 pixels on each side, clipped by `min(square_size, end - x)`, and lies inside the area |
| Checkerboard.TilesInside | gradia/overlay/transparency_overlay.py:64-76 | every painted square lies inside the area and has sides between 1 and 20 |
| Checkerboard.CoverUnique | gradia/overlay/transparency_overlay.py:64-75 | a square covers a pixel only when its cell is that pixel's cell, so no two squares overlap |
| Checkerboard.CoverExists | gradia/overlay/transparency_overlay.py:64-75 | every pixel of the area is covered by the square of its own cell |
| Checkerboard.ExactCover | gradia/overlay/transparency_overlay.py:52-76 | the painted squares cover a pixel exactly when it lies inside the truncated letterbox, and never twice |
| Checkerboard.Shades | gradia/overlay/transparency_overlay.py:66-69 | a square is light exactly when its column plus row is even: the top-left square is light and squares sharing an edge differ |
| Checkerboard.EmptyAreaPaintsNothing | gradia/overlay/transparency_overlay.py:59-65 | an area with no width or no height paints nothing |
| Processor.DownscaleFits | gradia/graphics/image_processor.py:120-132 | downscaling sets the longer side to exactly 1440 and scales the other by the same factor, rounded down, so neither side exceeds 1440 |
| Processor.LoadedSizeFits | gradia/graphics/image_processor.py:97-132 | a loaded picture never exceeds 1440 on either side, and one that already fits keeps its size |
| Processor.CompressionQuality | gradia/graphics/image_processor.py:103-110 | the quality starts at 100 and drops by 10 while the compressed size exceeds `1000 * 1024` bytes, stopping at the first size that fits or at quality 10 |
| Processor.PaddingPixelsRange | gradia/graphics/image_processor.py:147-149 | the padding in pixels is non-negative and never more than the percentage of the shorter side asks |
| Processor.CropInside | gradia/graphics/image_processor.py:134-143 | the crop of a negative padding keeps at least one pixel per side, lies inside the picture, is centred to within a pixel and takes the same number of pixels off both sides whenever that leaves a pixel |
| Processor.FinalDimensionsPadding | gradia/graphics/image_processor.py:145-156 | without an aspect ratio a non-negative padding adds twice the padding pixels to each side and a negative one leaves the size as it is |
| Processor.ParseAspectRatio | gradia/graphics/image_processor.py:172-178 | an unset ratio raises `ValueError` |
| Processor.ColonRatio | gradia/graphics/image_processor.py:173-175 | an "a:b" ratio gives `a / b`, or the division error of a zero `b` |
| Processor.TooManyColons | gradia/graphics/image_processor.py:173-174 | a ratio with two or more colons does not unpack into two numbers and raises `ValueError` |
| Processor.PlainRatio | gradia/graphics/image_processor.py:176-177 | a ratio without a colon is read as one number, or raises `ValueError` when it is not one |
| Processor.AdjustNarrow | gradia/graphics/image_processor.py:158-166 | a picture narrower than the ratio keeps its height and gets width `int(height * ratio)`, not less than its width |
| Processor.AdjustWide | gradia/graphics/image_processor.py:158-168 | a picture wider than the ratio keeps its width and gets height `int(width / ratio)`, not less than its height |
| Processor.AdjustGrows | gradia/graphics/image_processor.py:158-170 | a failed parse leaves the size unchanged; a positive ratio grows exactly one side, to the truncated target, or neither when the ratio already matches |
| Processor.PasteCentred | gradia/graphics/image_processor.py:225-230 | a picture no larger than its canvas is pasted inside it, centred with margins that differ by at most one pixel |
| Processor.ClampUnit | gradia/graphics/image_processor.py:204 | the shadow strength is clamped into [0, 1] |
| Processor.ShadowFits | gradia/graphics/image_processor.py:203-223 | the blur radius is within 0..10 and the shadow alpha within 0..150, both zero without strength and full at strength 1; the shadow lies inside its expanded canvas |
| Processor.ComposeFits | gradia/graphics/image_processor.py:60-84 | the composed picture always fits in its canvas; for a non-negative padding it is not cropped, keeps its size and is centred to within a pixel |
| Processor.ShadowUnderImage | gradia/graphics/image_processor.py:78-79 | the shadow is placed so that the image's own corner inside the shadow canvas lands on the paste position |
| Processor.ImageProcessor.constructor | gradia/graphics/image_processor.py:30-48 | a new processor keeps its settings and has no picture loaded |
| Processor.ImageProcessor.SetImagePath | gradia/graphics/image_processor.py:53-58 | the same path again changes nothing; a missing file raises `FileNotFoundError` and changes nothing; otherwise the downscaled picture and its path are kept |
| Processor.ImageProcessor.Process | gradia/graphics/image_processor.py:60-84 | raises `ValueError` exactly when no picture is loaded |
| Processor.PlainProcess | src/graphics/image_processor.py:53-76 | raises `ValueError` exactly when no picture is loaded; otherwise the crop, canvas and paste position are those of the gradia processor, without a shadow |
| Processor.PlainProcessFits | src/graphics/image_processor.py:53-76 | the shadowless layout holds its picture inside the canvas, uncropped for a non-negative padding |
| Processor.PixelCropInside | src/image_processor.py:110-120 | the crop of a negative pixel padding keeps at least one pixel per side, lies inside the picture, is centred to within a pixel and takes exactly `-padding` pixels off every edge when that leaves a pixel |
| Processor.PixelDimensionsPadding | src/image_processor.py:152-162 | without an aspect ratio the canvas is `2 * padding` larger for a non-negative padding and the same size otherwise |
| Processor.PixelCompose | src/image_processor.py:94-150 | raises `FileNotFoundError` exactly when the file is missing |
| Processor.PixelComposeFits | src/image_processor.py:94-150 | the pixel-padding layout always holds its picture, centred to within a pixel for a non-negative padding and at the origin otherwise |
| Captions.NormalGravity | gradia/graphics/text.py:51 | the stored gravity is always one of the nine valid names |
| Captions.NormalGravityLaws | gradia/graphics/text.py:31-51 | a valid name is kept, normalising twice is normalising once, and a text whose lower-cased form is not a valid name becomes "south" |
| Captions.NormalGravityCaseless | gradia/graphics/text.py:51 | texts that agree after lower-casing normalise to the same gravity |
| Captions.GetValidGravities | gradia/graphics/text.py:53-56 | the copy has nine names, each of which normalises to itself |
| Captions.GridMatchesNames | gradia/graphics/text.py:129-139 | the selector's grid lists the valid names in the same order, name `i` at column `i % 3` and row `i / 3` |
| Captions.WestAt | gradia/graphics/text.py:108-110 | "west" occurs in a valid name exactly when it is in the left column |
| Captions.EastAt | gradia/graphics/text.py:111-112 | "east" occurs in a valid name exactly when it is in the right column |
| Captions.NorthAt | gradia/graphics/text.py:116-118 | "north" occurs in a valid name exactly when it is in the top row |
| Captions.SouthAt | gradia/graphics/text.py:119-120 | "south" occurs in a valid name exactly when it is in the bottom row |
| Captions.PlacementFollowsGrid | gradia/graphics/text.py:108-122 | the substring tests place a caption of every grid gravity along each axis exactly as its column and row say |
| Captions.AxisMargins | gradia/graphics/text.py:108-122 | along an axis the text sits at the offset from the near edge, at the offset from the far edge, or centred with margins at most a pixel apart |
| Captions.Inner | gradia/graphics/text.py:82 | Python's `[4:-1]` slice of a text of at least five characters |
| Captions.WrappedParts | gradia/graphics/text.py:80-82 | a wrapped body starts with "rgb(" in any case, ends with ")" and its `[4:-1]` is the body again |
| Captions.ChannelsSplit | gradia/graphics/text.py:82-83 | the three channels split into their own texts, and a split with a fourth field starts with them |
| Captions.ColorRoundTrip | gradia/graphics/text.py:78-87 | the colour text the selector writes is parsed back to exactly the same three components |
| Captions.ExtraFieldIgnored | gradia/graphics/text.py:83 | only the first three fields are read: a fourth one, whatever it holds, is ignored |
| Captions.ColorFallback | gradia/graphics/text.py:78-87 | a colour without the "rgb(" prefix in any case, or with fewer than three fields, is white |
| Captions.ParsedFields | gradia/graphics/text.py:83 | one parse result per field |
| Captions.Collect | src/graphics/text.py:69 | a collected tuple has one value per field |
| Captions.CollectMeaning | src/graphics/text.py:69 | collecting succeeds exactly when every field was read, and then lists the values in order |
| Captions.ParseFieldsMeaning | src/graphics/text.py:69 | the fields parse exactly when each of them is an integer, to those integers in order |
| Captions.FieldsParse | src/graphics/text.py:64-72 | the fields of a selector colour text parse to its three channels |
| Captions.FieldsRoundTrip | src/graphics/text.py:64-72 | the earlier parse reads the selector's colour text back as the same three components |
| Captions.Caption.constructor | gradia/graphics/text.py:39-51 | text, colour and size are kept, an empty font path becomes the default font, and the gravity is normalised |
| Captions.Caption.Render | gradia/graphics/text.py:58-69 | nothing is drawn exactly when the text is empty; otherwise the fill is the parsed colour |
| Captions.RenderInCell | gradia/graphics/text.py:89-122 | a caption with a grid gravity is drawn in that grid cell, at the padding plus the 25-pixel margin from the edges its cell names |
| Captions.IconFor | gradia/graphics/text.py:271-275 | the icon of the first cell with that gravity, or the default icon when no cell has it |
| Captions.IconLookup | gradia/graphics/text.py:271-275 | the grid names are distinct, so every grid gravity gets its own button's icon and an unknown gravity the default |
| Captions.NamesDistinct | gradia/graphics/text.py:31-37 | the nine valid names differ from one another |
| Captions.FirstMatch | gradia/graphics/text.py:272-273 | a gravity only one cell carries is looked up as that cell's icon |
| Captions.TextSelector.constructor | gradia/graphics/text.py:150-151 | the given caption is used; without one a fresh empty caption with the default colour, size, gravity and font |
| Captions.TextSelector.OnGravityButtonClicked | gradia/graphics/text.py:254-260 | the caption takes the clicked button's gravity, always a valid one; text, colour, size and font are unchanged |
| Captions.TextSelector.OnTextChanged | gradia/graphics/text.py:285-287 | only the caption's text changes, to the entry's text |
| Captions.TextSelector.OnColorChanged | gradia/graphics/text.py:289-292 | only the caption's colour changes, to `rgb(r,g,b)` of each channel times 255, truncated |
| Captions.TextSelector.OnSizeChanged | gradia/graphics/text.py:294-296 | only the caption's size changes, to the spin value truncated |
| Captions.ChosenColorDrawn | gradia/graphics/text.py:289-291 | a colour chosen in the selector is drawn in exactly the chosen, truncated channels |
| Captions.ColorTextLower | src/image_processor.py:58 | a colour text the selector writes is already lower case |
| Captions.InlineOfClean | src/image_processor.py:57-67 | a lower-case, stripped `rgb(...)` text with three integer fields gives those fields |
| Captions.InlineColorRoundTrip | src/image_processor.py:57-72 | the inline parse reads `rgb(r,g,b)` back as the same three components, and a non-string colour is used as it is |
| Captions.ColorTextClean | src/image_processor.py:58-59 | a colour text is its own lower-cased, stripped form, between "rgb(" and ")" |
| Captions.InlineRender | src/image_processor.py:22-76 | nothing is drawn exactly when the text is empty |
| Captions.InlineAgrees | src/image_processor.py:43-55 | for a valid gravity the inline caption is placed exactly where the caption class places it |
| Colors.Slice | gradia/utils/colors.py:57 | Python's `s[i:i+2]`: cut short at the end of the text and empty past it |
| Colors.ExtraHash | gradia/utils/colors.py:56 | leading '#'s do not matter: one more is stripped like the others |
| Colors.ShortHexFails | gradia/utils/colors.py:56-57 | with at most four characters after the '#'s the third field is empty and the text raises `ValueError` |
| Colors.SixDigits | gradia/utils/colors.py:56-58 | six hex digits after the '#'s read as their three pairs, whatever follows them |
| Colors.PairReads | gradia/utils/colors.py:57 | two hex digits read as their value |
| Colors.HexToRgbRange | gradia/utils/colors.py:50-58 | every channel that reads lies between -15 ("-f") and 255 ("ff") |
| Colors.PairRange | gradia/utils/colors.py:57 | a text of at most two characters reads as a base-16 integer in -15..255 |
| Colors.Hex02Digits | gradia/utils/colors.py:48 | `%02x` of a byte is two lower-case hex digits |
| Colors.ChannelByte | gradia/utils/colors.py:45-47 | a channel in 0..1 times 255, truncated, is a byte |
| Colors.RgbaToHexShape | gradia/utils/colors.py:39-48 | for channels in 0..1 the text is '#' followed by six lower-case hex digits |
| Colors.PairRoundTrip | gradia/utils/colors.py:48-57 | a byte written with `%02x` reads back with `int(..., 16)` |
| Colors.HexTextStripped | gradia/utils/colors.py:48-56 | the '#' written in front of the digits is the only one stripped |
| Colors.HexRoundTrip | gradia/utils/colors.py:48-58 | `hex_to_rgb` of a colour written as `#%02x%02x%02x` gives the colour back, and characters after the sixth digit are ignored |
| Colors.RgbaRoundTrip | gradia/utils/colors.py:39-58 | what `rgba_to_hex` writes for channels in 0..1, `hex_to_rgb` reads back as the truncated channels |
| Gradient.SizeIsOrder | gradia/graphics/gradient.py:113-116 | the number of entries the dict reports is the number of keys in its insertion order |
| Gradient.DropOldest | gradia/graphics/gradient.py:103-105 | deleting the oldest key keeps the dict well formed, removes exactly that key and leaves the rest of the order |
| Gradient.PresetAt | gradia/graphics/gradient.py:62-66 | a preset exists exactly for an index in range and is that preset; otherwise `IndexError` |
| Gradient.GradientCache.constructor | gradia/graphics/gradient.py:31-33 | the shared dict starts empty and the native renderer untried |
| Gradient.GradientCache.LoadLibrary | gradia/graphics/gradient.py:36-53 | loading leaves the dict alone and moves the renderer's state as `AfterLoad` says |
| Gradient.GradientCache.EvictIfNeeded | gradia/graphics/gradient.py:101-105 | the new dict is `Evict` of the old one |
| Gradient.GradientCache.DeleteOldest | gradia/graphics/gradient.py:103-105 | the loop deletes exactly the first `n` keys in insertion order and keeps the rest in order |
| Gradient.GradientCache.Prepare | gradia/graphics/gradient.py:89-99 | the answer and the new dict are `Outcome` of the old dict, the key, whether the renderer is loaded and whether the colours read |
| Gradient.GradientCache.Store | gradia/graphics/gradient.py:98 | storing a new key appends it to the order and keeps the invariant |
| Gradient.GradientCache.Clear | gradia/graphics/gradient.py:108-109 | the dict is emptied; the renderer's state is kept |
| Gradient.GradientCache.Info | gradia/graphics/gradient.py:112-117 | the reported size, maximum, keys and loaded flag of the current state |
| Gradient.GradientBackground.constructor | gradia/graphics/gradient.py:55-59 | the colours and angle are kept and creating a background tries to load the renderer, leaving the dict alone |
| Gradient.GradientBackground.FromIndex | gradia/graphics/gradient.py:62-66 | an index out of range raises `IndexError` and loads nothing; otherwise a new background with the preset's colours and angle |
| Gradient.GradientBackground.PrepareImage | gradia/graphics/gradient.py:89-99 | the answer and the new dict are `Outcome` for this background's key at that size |
| Gradient.EvictWellFormed | gradia/graphics/gradient.py:101-105 | eviction leaves a well-formed dict |
| Gradient.EvictOldest | gradia/graphics/gradient.py:101-105 | with 100 entries or more exactly the first 50 keys in insertion order are deleted and every survivor keeps its picture; below 100 nothing happens |
| Gradient.EvictSize | gradia/graphics/gradient.py:101-105 | a full dict shrinks by exactly 50, its survivors being the order from position 50 on, and eviction never grows it |
| Gradient.InsertFresh | gradia/graphics/gradient.py:98 | storing a missing key keeps the dict well formed and adds exactly one entry |
| Gradient.PrepareKeeps | gradia/graphics/gradient.py:89-105 | `prepare_image` keeps the dict well formed and, since a miss evicts before it stores, never lets it grow past 100 entries |
| Gradient.EvictRoom | gradia/graphics/gradient.py:95-105 | evicting a dict of at most 100 entries leaves room for one more, and a missing key stays missing |
| Gradient.PrepareHit | gradia/graphics/gradient.py:92-93 | a cached key is answered with its picture and the dict is untouched |
| Gradient.PrepareMiss | gradia/graphics/gradient.py:95-99 | a missing key is rendered, stored last in the order after the eviction and returned; every entry that survived the eviction is kept |
| Gradient.PrepareFails | gradia/graphics/gradient.py:71-97 | without the renderer, or with a colour that does not read, a miss raises `RuntimeError` or `ValueError`; the eviction has already happened and nothing is stored |
| Gradient.SecondCallHits | gradia/graphics/gradient.py:89-99 | after a successful call the same call again returns the same picture and changes nothing |
| Gradient.SharedKey | gradia/graphics/gradient.py:90 | two backgrounds with equal colours and angle use the same key for the same size, so they share one entry of the class-level dict |
| Gradient.LoadOutcomes | gradia/graphics/gradient.py:36-53 | a loaded renderer stays loaded; gradia tries again after a failure while the earlier loader never does; any call leaves the untried state |
| Gradient.LoadIdempotent | src/graphics/gradient.py:29-46 | loading twice with the same outcome is loading once |
| Gradient.InfoConsistent | gradia/graphics/gradient.py:112-117 | the reported size is the number of keys listed, at most the reported maximum of 100, every listed key is cached and the loaded flag is true exactly for a loaded renderer |
| Gradient.NameSplit | gradia/graphics/gradient.py:68-69 | splitting a name on '-' gives "gradient", the two colours and the fields of the angle, when the colours hold no '-' |
| Gradient.NameFields | gradia/graphics/gradient.py:68-69 | for a non-negative angle the angle is the fourth and last field of the name |
| Gradient.NameInjective | gradia/graphics/gradient.py:68-69 | with colours free of '-', equal names mean equal colours and equal angles |
| Solid.SolidBackground.constructor | gradia/graphics/solid.py:27-29 | the colour and opacity are kept |
| Solid.SolidSelector.constructor | gradia/graphics/solid.py:60-68 | the selector edits the given background |
| Solid.SolidSelector.OnCommonColorClicked | gradia/graphics/solid.py:147-153 | the background takes the swatch's colour and opacity |
| Solid.SolidSelector.OnColorChanged | gradia/graphics/solid.py:155-172 | the background takes the picked channels as `#rrggbb` and the picked opacity, and that colour reads back as the truncated channels |
| Solid.PairByte | gradia/graphics/solid.py:34-36 | a pair of hex digits is a byte |
| Solid.FillBytes | gradia/graphics/solid.py:34-41 | six hex digits after the '#'s fill the picture with their three pairs and `int(alpha * 255)`, all four bytes for an opacity in 0..1 |
| Solid.FillFails | gradia/graphics/solid.py:38-41 | a colour that does not read raises `ValueError`, whatever the opacity |
| Solid.NameFields | gradia/graphics/solid.py:31-32 | splitting a name on '-' gives "solid", the colour and the opacity text when neither holds a '-' |
| Solid.EightDigits | gradia/graphics/solid.py:104-107 | an eight-digit swatch is its last six digits at the opacity of its first two, over 255, which lies in 0..1 |
| Solid.OtherLengths | gradia/graphics/solid.py:108-110 | a swatch of any other length keeps all its characters as the colour, at full opacity |
| Solid.TransparentEntry | gradia/graphics/solid.py:104-111 | an eight-digit swatch is painted as a checkerboard exactly when its opacity digits are "00" |
| Solid.DigitZero | gradia/graphics/solid.py:106 | '0' is the only hex digit worth nothing |
| Solid.StyleKeeps | gradia/graphics/solid.py:111-130 | only an opacity of exactly 0 gets the checkerboard; every other swatch is painted with its own colour and opacity |
| Solid.OpaqueEntry | gradia/graphics/solid.py:104-107 | a swatch "#ff" followed by six characters is those six at full opacity |
| Solid.CommonSwatches | gradia/graphics/solid.py:49-58 | the first seven common colours are opaque and painted as themselves; the last is fully transparent and painted as a checkerboard |
| Solid.CellLayout | gradia/graphics/solid.py:97-143 | swatch `i` goes to row `i // 4` and column `i % 4`: four to a row, filled left to right, no two swatches in one cell |
| Solid.CommonGrid | gradia/graphics/solid.py:49-58 | the eight common colours fill exactly two rows of four |
| Image.ImageBackground.constructor | gradia/graphics/image.py:30-35 | the path is kept and a non-empty path is loaded |
| Image.ImageBackground.LoadImage | gradia/graphics/image.py:37-43 | the path is kept whether or not the picture opens; a picture that does not open leaves none |
| Image.NoPicture | gradia/graphics/image.py:46-48 | without a picture there is nothing to draw |
| Image.CropInside | gradia/graphics/image.py:62-67 | a centred crop of a resize at least as large as the target is exactly the target size and lies inside the resize |
| Image.WiderCovers | gradia/graphics/image.py:54-56 | a picture relatively wider than the target keeps the target height and gets a width of at least the target width |
| Image.TallerCovers | gradia/graphics/image.py:57-59 | any other picture keeps the target width and gets a height of at least the target height |
| Image.CoverCrop | gradia/graphics/image.py:46-68 | for positive sizes the picture always covers the target, and the crop is exactly the target size, centred and inside the resize |
| Image.ZeroHeight | gradia/graphics/image.py:51-52 | a zero target height, or a picture of zero height, raises `ZeroDivisionError` |
| Image.NameShape | gradia/graphics/image.py:70-71 | the name is "image-" followed by the path, or "image-none" without one |
| Image.NameInjective | gradia/graphics/image.py:70-71 | different non-empty paths give different names |
| Exporters.Lookup | gradia/ui/image_exporters.py:166-168 | a format found is one of the table's and has the key asked for; none is found exactly when no format has that key |
| Exporters.HasExtensionIff | gradia/ui/image_exporters.py:170-173 | the loop finds an extension exactly when one of the format's extensions, lower-cased, ends the lower-cased path |
| Exporters.EnsureEnds | gradia/ui/image_exporters.py:165-175 | for a known format the result always ends with one of its extensions; a path that already has one is kept, any other gets the first extension appended |
| Exporters.EnsureIdempotent | gradia/ui/image_exporters.py:165-175 | correcting the extension twice is correcting it once |
| Exporters.UnknownFormatKept | gradia/ui/image_exporters.py:165-185 | an unknown format leaves the path as it is, and saving in it raises "Unsupported format" |
| Exporters.FormatsHaveExtensions | gradia/ui/image_exporters.py:85-104 | every supported format has at least one extension, so its first extension exists |
| Exporters.FilterFinds | gradia/ui/image_exporters.py:158-163 | the filter search answers a key exactly when some format has the filter's display name, and the key is that of the first such format |
| Exporters.FilterRoundTrip | gradia/ui/image_exporters.py:125-163 | the filter made for each supported format leads back to that format's key |
| Exporters.SaveQuality | gradia/ui/image_exporters.py:85-104 | JPEG and WebP are saved with quality "90", PNG without options |
| Exporters.DialogNameIs | gradia/ui/image_exporters.py:70-74 | the dialog starts from the picture's stem followed by " (Edit)", or from "Enhanced Screenshot" without a picture path |
| Exporters.NamesEndWithExtension | gradia/ui/image_exporters.py:70-74 | both exporters' names end with the extension asked for and, for a picture with a path, start with its stem |
| Exporters.OverlayChecks | gradia/ui/image_exporters.py:42-46 | buffers of one size overlay to that size; any mismatch of width or height raises `ValueError` |
| Exporters.TopOpacityFull | gradia/ui/image_exporters.py:65 | full opacity composites the top buffer at 255, and every opacity in 0..1 gives a value in 0..255 |
| Exporters.AvailabilityChecks | gradia/ui/image_exporters.py:187-193 | the dialog's check answers true exactly when a processed picture exists, though the base check itself returns false then; the same holds for the earlier exporter |
| Exporters.ExtensionPicksFormat | src/ui/image_exporters.py:101-114 | a save path made of a name and one of the mapped extensions, in any case, is saved in that extension's format |
| Exporters.FormatMapCases | src/ui/image_exporters.py:107-125 | the earlier exporter saves ".jpg" and ".jpeg" as jpeg and ".webp" as webp, everything else as png; jpeg and webp with quality "90", png without options |
| Paths.LastIndexOf | gradia/ui/image_exporters.py:72 | the position found holds the character and none follows it; nothing is found exactly when the character is absent |
| Paths.Basename | gradia/ui/image_loaders.py:127 | a base name never holds a '/' |
| Paths.RStripChar | gradia/ui/image_loaders.py:128 | the result is a prefix of the text that does not end in the character, and everything stripped was that character |
| Paths.SplitExtParts | gradia/ui/image_exporters.py:72 | root and extension put back together are the path; the extension is empty or starts with its only '.', and never holds a '/' |
| Paths.SplitExtAppend | gradia/ui/image_exporters.py:123 | an extension with one leading '.', added to a name not ending in '.' or '/', is split off again |
| Paths.BareName | gradia/ui/image_loaders.py:127-128 | a bare file name has an empty directory and is its own base name |
| Paths.DirAndBase | gradia/ui/image_loaders.py:127-128 | a directory not ending in '/', a '/' and a file name split back into exactly that directory and that file name |
| Loaders.Extensions | gradia/ui/image_loaders.py:45 | one extension per format, in order |
| Loaders.AnyEndsWithIff | gradia/ui/image_loaders.py:46 | the search finds an extension exactly when one of them ends the text |
| Loaders.SupportedIff | gradia/ui/image_loaders.py:42-46 | a path is accepted exactly when, lower-cased, it ends with one of the five extensions |
| Loaders.CaseInsensitive | gradia/ui/image_loaders.py:44 | a path and its lower-cased form are accepted alike |
| Loaders.ExtensionsLower | gradia/ui/image_loaders.py:30-36 | the listed extensions are lower-case already |
| Loaders.AnyCaseAccepted | gradia/ui/image_loaders.py:42-46 | a name followed by a supported extension in any case, such as "X.PNG", is accepted |
| Loaders.SuffixOnly | gradia/ui/image_loaders.py:46 | only the end of the path counts: a path whose last character is not 'g', 'p' or 'f' in either case, such as "photo.png.txt", is refused |
| Loaders.Window.constructor | gradia/ui/image_loaders.py:38-40 | a window with no picture, an empty overlay and no requests yet |
| Loaders.Window.UpdateSidebarInfo | gradia/ui/image_loaders.py:52 | the sidebar request is recorded with the number of annotations at that moment; nothing else changes |
| Loaders.Window.StartProcessing | gradia/ui/image_loaders.py:53 | the processing request is recorded for the current picture path; nothing else changes |
| Loaders.Window.SetImageAndUpdateUi | gradia/ui/image_loaders.py:48-53 | the path is set and the drawing cleared before the sidebar update and the processing request, so both see no annotation of the previous picture |
| Loaders.FileLoader.HandleFileDrop | gradia/ui/image_loaders.py:109-131 | a drop is accepted exactly when it carries a non-empty path to a file with a supported extension (a value that is not a `Gio.File` carries none); then the path is set, the drawing is cleared and the sidebar update and processing steps follow; the view never changes and a refused drop changes nothing |
| Loaders.FileLoader.constructor | gradia/ui/image_loaders.py:106-107 | a loader keeps the window it was made for |
| CommandLine.ParseScreenshotFlag | gradia/main.py:88-102 | no flag exactly when no argument starts with "--screenshot"; otherwise the flag of the mode of the first such argument, later ones being ignored |
| CommandLine.WindowsFor | gradia/main.py:74-76 | one window per file, in order, each with its file, the parsed mode and shown unless that mode is set and non-zero |
| CommandLine.App.constructor | gradia/main.py:37-47 | a new application has no screenshot flag and no window |
| CommandLine.App.OpenWindow | gradia/main.py:116-131 | one window is added, in the current screenshot mode, shown exactly when that mode is unset or `NONE`; the flag is unchanged |
| CommandLine.App.Activate | gradia/main.py:112-114 | activation adds one window without a file |
| CommandLine.App.DoCommandLine | gradia/main.py:49-80 | the exit code is 0; "--help" or "-h" anywhere changes nothing; otherwise the flag is parsed and one window is opened per file argument, or one without a file when there is none |
| CommandLine.FirstDecides | gradia/main.py:89-101 | the first argument starting with "--screenshot" decides the flag, whatever follows it |
| CommandLine.NoFlagArgument | gradia/main.py:88-102 | without an argument starting with "--screenshot" there is no flag |
| CommandLine.BareFlag | gradia/main.py:93-96 | an argument with the prefix and no '=' is an interactive capture |
| CommandLine.ModeAfterEquals | gradia/main.py:91-101 | after the first '=' the mode is the rest stripped and upper-cased; it selects the full-screen capture exactly when that reads "FULL", and an interactive one otherwise |
| CommandLine.SecondEqualsKept | gradia/main.py:92 | only the first '=' splits: a rest holding another '=', such as "full=x", is an unknown mode, never "FULL" |
| CommandLine.FilesAppend | gradia/main.py:61-67 | one more argument adds its path to the files exactly when it does not start with "--" and resolves to a non-empty path |
| CommandLine.FilesFromArguments | gradia/main.py:61-67 | every file to open is the non-empty path of an argument that does not start with "--", and there are no more files than arguments |
| CommandLine.OnlyOptions | gradia/main.py:61-78 | arguments that all start with "--" open a single window without a file |
| CommandLine.CommandWindowsShape | gradia/main.py:74-78 | one window per file, in order, each opening its file in the parsed mode; a single window without a file when there are none |
| CommandLine.ShownUnlessInteractive | gradia/main.py:129-131 | windows are shown exactly unless the capture is interactive: the full-screen mode `NONE` is 0, so it shows them like no flag at all |

## Left out

- Cairo, Pango and GdkPixbuf drawing: every `draw` method, the selection-box painting, the cursor choice in `_on_motion` and the pixbuf surfaces. These are foreign graphics calls. Only the geometry around them is modelled.
- Pango text measurement: it is the `measure` parameter of the annotation model and of the overlay.
- The `random` stream of `_randomize_pixels`: it is the `Draws` parameter, one coin and one pick per pixel in visiting order. Mersenne Twister is not modelled.
- PIL work (open, resize, rounded corners, blur, shadow compositing, PNG compression): only sizes and positions are modelled. A picture is its size, and the compressed size at each quality is a parameter of the quality loop.
- Python `float()` on a string: it is the `parse` parameter of the aspect-ratio code. gradia/utils/aspect_ratio.py and the `misc.py` modules are not part of this model.
- TextExtent: a zero side of the reference image size gives an extent of 0 on that axis, where gradia/overlay/drawing_actions.py:193-194 raises `ZeroDivisionError`. Turning that into an error result would make every bounding box and hit test partial. The reference size is the intrinsic size of a loaded picture.
- Floating point: Python floats are modelled as exact reals, so rounding error, overflow, `inf` and `nan` are not captured.
- The native gradient renderer (gradia/graphics/gradient_gen.c) and its ctypes buffer: the rendered image is an opaque parameter, and only success or failure of loading the library is modelled.
- PREDEFINED_GRADIENTS in gradia/constants.py is not part of this model: the preset list is a parameter of `fromIndex`.
- Colours that are not strings in both text.py files: the `TextDrawer` colour is a string in the model, so the white that `_parse_color` returns for any other value is not captured. The inline caption of src/image_processor.py does model both kinds (`Captions.InlineColor`).
- `int()` on text: surrounding whitespace (the whole `str.isspace` set), an optional sign and ASCII digits are modelled. Underscores between digits, non-ASCII digits and the `0x` prefix of base 16 are not.
- `str.lower` and `str.upper`: only ASCII letters are mapped; other cased letters are left as they are.
- The opacity in `SolidBackground.get_name`: Python's float `repr` is the `alphaText` parameter.
- `Gdk.RGBA.parse` in the colour buttons: not modelled. The selectors receive the parsed colour.
- `_()` translations: taken as the identity on the English text.
- The unreachable `TypeError` of `float(None)` in src/graphics/image_processor.py's `_parse_aspect_ratio`: the caller only parses a set ratio, so it is not modelled.
- Exporter file dialogs, `savev`, the clipboard and screenshot loaders, temporary directories and background threads: these are I/O. Only the names, formats and checks around them are modelled.
- `Gio.File` path resolution on the command line: it is the `resolve` parameter of `CommandLine.App.DoCommandLine`. `os.path.isfile` is the `isFile` parameter of `Loaders.FileLoader.HandleFileDrop`.
- `do_open` of gradia/main.py and the application lifecycle: not modelled.
- The help text of `_print_help` and the logged warnings: only their effect on control flow is modelled.
- `_update_sidebar_info` and `_start_processing` of the main window: recorded as steps carrying the number of annotations at that moment. Their UI effects are not modelled.
- Aliasing of annotation objects: the overlay keeps values with ids, so in-place mutation of a shared object is modelled as replacing the value with that id.
