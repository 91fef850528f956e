# Mosaic layout engine in Dafny

The system lays a sequence of equally sized images out on one virtual canvas.
Consecutive images are stacked vertically. A *fold* at a junction moves the next
image one image-width to the left and reverses the stacking direction. Every
junction also carries a pixel *offset*. The user pans a viewport over the canvas
with the keyboard, nudges offsets, toggles folds, zooms out, saves the layout as
a small text file and exports the whole mosaic as one picture.

This project models the integer core of `main.c`:

- the layout engine (`regenerate_coords`);
- the pan range (`regenerate_bounding_box`);
- the compositor at 1:1 (`populate_view`), with its clip arithmetic and the
  enlarged window of the zoomed-out view;
- the hit test (`viewport_index`);
- the command semantics of `key_pressed`, including the autosave, the closing
  CLAMP, the early returns and the export box;
- the layout text written by `dump_coords` and read back in `main`;
- the session set-up in `main`.

Modules:

- `Geometry`: placement, pan range, clipping, sampled window, hit test, export box, as pure functions with lemmas.
- `Render`: what a 1:1 render shows, pixel by pixel: the topmost image covering each point, or black.
- `LayoutText`: the layout file, producer and reader, with the round trip proved.
- `Commands`: one key press as a pure function from session to session (`KeyPress`), and what each command promises.
- `Mosaic`: the session object `Omni` as a class over arrays (`coords`, `folds`, `offsets`, the `view` pixel buffer). Its imperative methods are proved against the pure definitions above. `Omni.KeyPressed` moves the session exactly as `Commands.KeyPress` says, and leaves in the view buffer what `Render` says.
- `Wrappers`: an `Option` type.

Environment inputs are parameters:
- the current time is `now`;
- whether the dump file opens is `fileOpens`;
- the layout file's contents are an `Option<string>`, `None` when no file is given or it does not open.

A layout dump is returned as the text that would be written. An export is returned as a fresh picture array.

Where the documented behaviour and the code differ, the model follows the code:

- When a pan range is empty (lower bound above upper bound), GLib's `CLAMP` yields the upper bound if the corner lies above it, and otherwise the lower bound. It does not always yield the lower bound. `Geometry.Clamp` is that macro. With the viewport `main` sets up, the range is never empty (`Commands.BoundsNonEmpty`).
- Not every command ends with the clamp and a render. A fold with the last image under the viewport returns at once. An export returns before the clamp.
- The autosave check runs for every recognised key except quit, save and export, pans and zoom included.

## Model

| member | source | states |
|---|---|---|
| Geometry.Clamp | main.c:319-320 | GLib CLAMP: x itself when it lies in [lo, hi]; always within [lo, hi] when lo <= hi; one of the two bounds when lo > hi |
| Geometry.Direction | main.c:55-63 | definition of the running direction: +1 or -1, flipped by every fold; `Geometry.DirectionSnoc` proves the step of the loop |
| Geometry.NextCoord | main.c:55-63 | definition of one loop turn of regenerate_coords: one width to the left after a fold, one height along the direction otherwise, plus the offset; `Geometry.CoordsStep` states it for every junction |
| Geometry.Coords | main.c:49-65 | one placement per image, image 0 at the origin (0, 0) |
| Geometry.CoordsStep | main.c:52-63 | image i+1 sits at image i moved by (-width, 0) after a fold, or by (0, direction*height) otherwise, plus offsets[i]; the direction is the sign given by the parity of the folds before junction i |
| Geometry.DirectionSnoc | main.c:56-58 | each fold flips the stacking direction, an unfolded junction keeps it |
| Geometry.CoordsPrefix | main.c:52-64 | the first m+1 placements depend only on the first m junctions |
| Geometry.TwoImageLayouts | main.c:49-65 | with two images and a zero offset: unfolded puts image 1 at (0, height), folded at (-width, 0) |
| Geometry.EditDoesNotMoveEarlierImages | main.c:49-65 | changing fold k or offset k leaves images 0..k where they were |
| Geometry.AxisBounds | main.c:67-81 | definition of the pan range: the least and greatest image coordinate, widened by half an image and shifted by the image-minus-viewport size; `Geometry.AxisBoundsAttained`, `Geometry.AxisBoundsNonEmpty` and `Mosaic.Omni.PanBounds` prove its properties |
| Geometry.AxisBoundsAttained | main.c:67-81 | the lower pan bound is at most coord - dim/2 of every image and equals it for some image; the upper bound is at least coord + dim/2 + dim - viewport of every image and equals it for some image |
| Geometry.AxisBoundsNonEmpty | main.c:67-81 | when the viewport is at most dim + 2*(dim/2), the pan range on that axis is not empty |
| Geometry.ClipAxis | main.c:127-144 | the copied span has positive length exactly when the image overlaps the window on that axis; it lies inside the image and inside the viewport; destination minus source start equals image position minus window position |
| Geometry.ClipPixel | main.c:127-149 | viewport column/row k receives a pixel of the image exactly when the canvas point look+k lies on it, and that pixel is the image's own pixel at look+k-pos |
| Geometry.SampledWindow | main.c:115-122 | at 1:1 the sampled window is the viewport; zoomed out it starts ten image sizes further up and left and keeps the same centre |
| Geometry.StrictlyInside | main.c:164-165 | definition of the hit test: the image lies strictly inside the viewport on both axes; `Geometry.HitIndex` states the search over it |
| Geometry.Overlaps | main.c:141-144 | definition of the `w > 0 && h > 0` test of the compositor: the image meets the sampled window; `Geometry.ClipAxis` proves the equivalence and `Render.OverlappingBelowExact` the drawn set |
| Geometry.HitFrom | main.c:163-166 | from a start index on: -1 exactly when no later image lies strictly inside the viewport, otherwise the first index that does |
| Geometry.HitIndex | main.c:161-168 | -1 exactly when no image lies strictly inside the viewport (edges touching do not count), otherwise the lowest index that does |
| Geometry.ExportWindow | main.c:275-289 | the export box encloses every image, and each of its four sides is attained by some image |
| Geometry.ExportDrawsEveryImageWhole | main.c:127-149 | rendering the export box clips no image: every image is copied from (0, 0) at full width and height |
| Render.Covering | main.c:124-151 | definition of what the 1:1 compositor leaves at a point: the highest-index image covering it, or the 0x000000ff fill; `Render.CoveringUncovered`, `Render.CoveringIsTopmost` and `Mosaic.Omni.DrawImage` prove its properties |
| Render.CoveringUncovered | main.c:124-151 | a canvas point that no image covers shows opaque black |
| Render.CoveringIsTopmost | main.c:126-151 | a covered point shows the pixel of the highest-index image covering it |
| Render.OverlappingBelowExact | main.c:126-144 | the images drawn are exactly those meeting the sampled window, each once, in increasing index order |
| LayoutText.IntRoundTrip | main.c:90-100 | reading back a number printed with %i gives the same number |
| LayoutText.SplitJoin | main.c:92-100 | splitting comma-joined pieces at commas gives the pieces back when none contains a comma |
| LayoutText.Serialize | main.c:90-100 | definition of the dump text: the count, the comma-joined folds, the comma-joined offsets, each on its own line; `LayoutText.SerializeLines`, `LayoutText.LayoutRoundTrip` and `Mosaic.Omni.LayoutDump` prove its properties |
| LayoutText.SerializeLines | main.c:90-100 | the dump is exactly three newline-terminated lines: the image count, the fold line, the offset line |
| LayoutText.FoldsRoundTrip | main.c:92-95 | the fold line reads back as the same flags, 0 and 1 turned back into booleans |
| LayoutText.OffsetsRoundTrip | main.c:97-100 | the offset line reads back as the same offsets, numbers taken x then y in junction order |
| LayoutText.ParseLayout | main.c:448-466 | a layout read back has n−1 folds and n−1 offsets; the reading itself is proved by `LayoutText.LayoutRoundTrip` and `LayoutText.WrongCountKeepsZeroLayout` |
| LayoutText.LayoutRoundTrip | main.c:448-463 | reading a dump back with a matching count yields exactly the dumped folds and offsets, and the session starts with them |
| LayoutText.WrongCountKeepsZeroLayout | main.c:448-466 | a dump for another image count is rejected and the zero layout stays |
| LayoutText.ZeroLayout | main.c:436-440 | the calloc'ed layout: no folds, all offsets (0, 0) |
| LayoutText.InitialLayout | main.c:436-472 | no file, or a file that does not read back for this count: the zero layout; otherwise the file's layout |
| Commands.StepSize | main.c:184-192 | Shift gives 10, Control or Meta 100, no modifier 1, and 1 only without a modifier |
| Commands.PanDistance | main.c:213-231 | a pan moves 100 / step size, a positive whole distance |
| Commands.Move | main.c:221-231 | up and down change only y, left and right only x, by the given amount; up and left decrease |
| Commands.MoveUndone | main.c:221-258 | a move followed by the opposite move returns to the start |
| Commands.Regenerate | main.c:261-262 | after a layout change, placement and pan range agree with the new layout; the corner and the dump time are untouched |
| Commands.Autosave | main.c:217-218 | the autosave changes nothing but the time of the last dump |
| Commands.NudgeBefore | main.c:247-262 | a nudge keeps placement and pan range consistent with the layout |
| Commands.ToggleFoldAfter | main.c:242-245 | a fold keeps placement and pan range consistent with the layout |
| Commands.ClampLook | main.c:319-320 | after the clamp the corner lies within the pan range whenever both ranges are non-empty; a corner already in range is untouched |
| Commands.PanMovesOneCoordinate | main.c:221-231 | a pan changes one coordinate of the corner by 100/step either way, then clamps; the layout is untouched and a 1:1 render follows |
| Commands.NudgeMovesOneOffset | main.c:233-264 | with image i under the viewport, a nudge changes one field of offsets[max(0, i-1)] by the step size and nothing else of the layout; placement is re-derived, images 0..max(0, i-1) keep their place and a render follows |
| Commands.FoldTogglesOneJunction | main.c:237-264 | with image i < n-1 under the viewport, a fold negates folds[i] and nothing else of the layout; images 0..i keep their place and a render follows |
| Commands.FoldOnLastImageReturns | main.c:242-243 | a fold with the last image under the viewport changes nothing but a possible autosave, and there is no render |
| Commands.NoHitKeepsLayout | main.c:238-239 | a nudge or fold with no image under the viewport leaves the layout and placement alone; the new session is the clamped old one, apart from the autosave time, and a 1:1 render follows |
| Commands.AutosaveDue | main.c:218 | definition of the autosave test: the key is neither save nor export and more than 300 seconds have passed; quit never reaches it; `Commands.DumpsAndAutosave` states the outcome |
| Commands.Dump | main.c:88-108 | definition of dump_coords' effect on the session: the dump time becomes now exactly when the file opens; `Commands.DumpsAndAutosave` and `Mosaic.Omni.DumpCoords` state it |
| Commands.KeyPress | main.c:170-325 | definition of one key press: quit at once, otherwise the autosave and then `Commands.Respond`; `Commands.KeyPressKeepsInvariant`, `Commands.DumpsAndAutosave`, `Commands.RunStaysInBounds` and the per-command lemmas prove its properties, and `Mosaic.Omni.KeyPressed` implements it |
| Commands.Respond | main.c:220-322 | definition of the switch of key_pressed and the closing clamp; `Mosaic.Omni.RespondTo` implements it |
| Commands.DumpsAndAutosave | main.c:217-218 | a dump is written exactly when the file opens and the key is save, export, or any other key once 300 seconds have passed; the dump time moves to now exactly then; only quit quits and only export exports |
| Commands.ZoomAndSaveOnlyClamp | main.c:266-322 | only the zoom key renders zoomed out; zoom and save change nothing but what the closing clamp changes (and the dump time); export leaves the session alone apart from the dump time and renders nothing into the view |
| Commands.KeyPressKeepsInvariant | main.c:177-322 | every key press keeps placement and pan range consistent with the layout and the corner inside the pan range |
| Commands.ClampKeeps | main.c:319-320 | in a session, the clamp puts the corner in range |
| Commands.BoundsNonEmpty | main.c:423-425 | with the viewport main sets up, the pan range is never empty on either axis |
| Commands.RunStaysInBounds | main.c:170-325 | after any sequence of key presses the session is still consistent and the corner within the pan range |
| Commands.InitialSession | main.c:474-476 | the start session holds the loaded layout, derived placement and pan range, the dump time now, and the corner (-width/3, -height/5) |
| Commands.InitialSessionInBounds | main.c:474-476 | the starting corner is inside the starting pan range, whatever layout was loaded |
| Mosaic.Fill | main.c:124 | every pixel of the buffer becomes the fill colour |
| Mosaic.CopyArea | main.c:149 | the destination rectangle receives the source rectangle pixel for pixel, and nothing outside it changes |
| Mosaic.LayoutStep | main.c:53-63 | one iteration of the placement loop produces the next placement and the next direction |
| Mosaic.Omni.constructor | main.c:418-478 | a session over the images, with the loaded or zero layout, derived placement and bounds, the dump time now, and the view showing the starting window |
| Mosaic.Omni.ReadLayout | main.c:436-466 | the fold and offset arrays end up holding the initial layout |
| Mosaic.Omni.LoadLayout | main.c:442-476 | the layout file is read over the zero layout and placement and bounds are derived, giving exactly the initial session with the corner in range |
| Mosaic.Omni.RegenerateCoords | main.c:49-65 | the coords array holds the placement of the current layout |
| Mosaic.Omni.PanBounds | main.c:67-78 | the loop's accumulators end as the pan range of the placement on each axis |
| Mosaic.Omni.RegenerateBoundingBox | main.c:67-81 | the stored pan range is that of the placement; the corner and dump time are untouched |
| Mosaic.Omni.Relayout | main.c:261-262 | regenerate coords then bounds: the session becomes Regenerate of the current layout |
| Mosaic.Omni.PopulateView | main.c:112-152 | the images composited are exactly those meeting the sampled window, in index order; at 1:1 the buffer shows the window as Render defines it |
| Mosaic.Omni.DrawImage | main.c:127-151 | drawing image i composites it exactly when it meets the window; at 1:1 the buffer then shows images 0..i |
| Mosaic.Omni.ViewportIndex | main.c:161-168 | the loop returns the hit index of the current corner |
| Mosaic.Omni.LayoutDump | main.c:90-100 | the text written is the serialised layout |
| Mosaic.Omni.FoldLine | main.c:92-95 | the fold flags joined by commas |
| Mosaic.Omni.OffsetPrefix | main.c:97-99 | "x,y," for every junction but the last |
| Mosaic.Omni.OffsetLine | main.c:97-100 | the offsets joined by commas, x before y |
| Mosaic.Omni.DumpCoords | main.c:83-110 | a dump of the current layout is produced exactly when the file opens, and only then is the dump time set |
| Mosaic.Omni.ExportBounds | main.c:275-284 | the loop's accumulators form the export box |
| Mosaic.Omni.ExportMosaic | main.c:286-297 | a fresh picture the size of the export box, showing the whole mosaic at 1:1 |
| Mosaic.Omni.ToggleFold | main.c:244-262 | fold i is toggled and the session re-derived |
| Mosaic.Omni.NudgeOffset | main.c:247-262 | the offset before image i moves one step and the session is re-derived |
| Mosaic.Omni.NudgeCommand | main.c:233-264 | no hit: nothing changes; hit i: the nudge before image i |
| Mosaic.Omni.FoldCommand | main.c:237-264 | no hit: nothing changes; hit on the last image: stop with nothing changed; otherwise the fold after the hit image |
| Mosaic.Omni.ExportCommand | main.c:272-297 | a dump when the file opens, then the export picture of the whole mosaic |
| Mosaic.Omni.AutosaveIfDue | main.c:217-218 | a dump of the current layout exactly when the autosave is due and the file opens |
| Mosaic.Omni.ClampAndShow | main.c:319-322 | the corner is clamped into the pan range; the images composited are exactly those meeting the sampled window (enlarged when zoomed out); at 1:1 the view shows the new window |
| Mosaic.Omni.RespondTo | main.c:220-322 | the switch on the key and the closing clamp, as Commands.Respond says, with the dump and the picture it produces |
| Mosaic.Omni.Adjust | main.c:220-271 | the cases that end in the clamp (pans, nudges, fold, zoom, save) leave the session that the clamp turns into Commands.Respond's result; a fold on the last image stops with Respond's result itself and no render |
| Mosaic.Omni.KeyPressed | main.c:170-325 | the session moves on as Commands.KeyPress says; a dump holds the layout the key press started from; a 1:1 render shows the new window, no render leaves the view alone, and an export hands back the picture of the whole mosaic |

## Left out

- GTK plumbing, shortcut registration and the parsing of trigger strings are toolkit glue. Commands are an abstract datatype. An unrecognised key (`key_pressed` returning at main.c:211) is not a command, so it has no model. Quit only reports that the session ends.
- Scanning the directory, decoding images, and the file names built with `strftime`. `fopen` success is the parameter `fileOpens`; saving the JPEG is not modelled; logging is left out.
- The clock. `time(NULL)` is the parameter `now`, and one key press reads it once, for the autosave check and for the dump time alike.
- Mosaic.Omni.PopulateView: for the zoomed-out view the model states only the enlarged window and which images are composited. The bilinear `gdk_pixbuf_composite` is floating-point work in a foreign library, so the zoomed pixels are left unspecified.
- Mosaic.Omni.KeyPressed: on export the model leaves the view buffer unchanged, which matches the source. It does not model the window widget. Because the export's `populate_view` sets the widget's picture (main.c:154-155, 297-298), the window shows the whole exported mosaic until the next key press.
- Memory management, the `omni->copy` aliasing an export leaves in place, and buffer sizing from bits per sample are left out. Pixels are one `int` each; the view is a 2D array.
- The constructor assumes every image has the size of image 0. The source reads only image 0's size and relies on that assumption.
- LayoutText.ParseLayout: the reading is a strict decimal grammar. It takes an optional '-', no leading zeros, no spaces, no octal or hex prefixes.
- LayoutText.InitialLayout is weaker than the source on one path: a file whose count matches but whose body does not follow the format. There the model keeps the zero layout. The source keeps whatever `fscanf` managed to store before it stopped.
- C `int` overflow is not modelled, because all arithmetic is on unbounded integers. The `INT_MAX` / `INT_MIN` seeds of the bound and export loops become a loop seeded with image 0, which gives the same result without overflow.
- A session needs at least two images. With one image the source indexes `folds[-1]` when saving and `offsets[0]` when nudging, outside the arrays.
