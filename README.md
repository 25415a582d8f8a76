# MoodJournal drawing canvas, modelled in Dafny

`MoodJournal.java` is a one-window Swing application. The user picks a mood,
writes a note and draws on a 700 by 500 canvas, then saves both to a folder
named `PersonalJournal`. This project models its core and proves properties
about that model:

- **The paint bucket** (`DrawPanel.floodFill`), modelled in place on an
  `array2<int>` image.
  - One loop drains a FIFO queue of points and marks a `visited` array.
  - The method is proved equal to a reference definition, `Raster.Filled`: the
    4-connected region of the seed's colour is recoloured and every other pixel
    keeps its value.
  - A ghost result lists the pixels in the order they are written.
  - Colours are Java's signed ARGB `int`s: white is -1 and black is -16777216.
- **The drawing panel** (`DrawPanel`), modelled as a class with the source's fields.
  - The five setters store what they are given: the three size setters
    take any value, with no clamping.
  - `clearCanvas` is modelled.
  - A mouse press records the point. Then it stamps a heart, star or oval, or
    runs the fill.
  - A mouse drag draws a pen or eraser line and then records the point.
  - Java2D does the rasterising, and the model takes it as a parameter,
    `raster: Render -> set<Point>`. The panel computes a shape request
    (`Render`): a line with its stroke width, a heart or star at a point and a
    size, or the oval's integer bounding box. `raster` gives the pixels that
    request covers. The panel paints those pixels in place and leaves pixels
    outside the image alone.
- **The frame's size counters**: pen, eraser and shape sizes, clamped with
  `Math.min`/`Math.max` and copied into the panel.
  - The class `Journal.MoodJournal` keeps the invariant that the frame's sizes
    and the panel's sizes are equal, inside their ranges and on their residues.
  - The pure module `Sizes` proves that the counters stay in range under any
    sequence of presses.
- **What a save writes**: the folder name, the two file names built from the
  date with `/` replaced by `-`, and the text of the `.doc` file.
  - `ParseEntry` reads such a text back, and is proved to invert `EntryText`.

Modules: `Raster` (pixel values and the fill region), `FloodFill` (the
in-place fill), `Canvas` (the `DrawPanel` class), `Sizes` (the frame's
counters), `Entry` (the strings of `saveEntry`) and `Journal` (the frame class).

Behaviour of the code that is easy to misread; the model follows the code:

- The panel's `setPenSize`, `setEraserSize` and `setShapeSize` store any value.
  Only the frame's buttons clamp (MoodJournal.java:107-129 against 260-268).
- The result of `folder.mkdir()` is ignored (MoodJournal.java:184). A folder
  that cannot be created shows up only as a failure of the `FileWriter` that
  follows. Every failure reaches the one generic `catch` at line 195.
- The text file is written before the image. A failure writing the text means
  the image is never written. The two writes are not independent.
- Drawing can fail:
  - The fill reads the seed pixel without a bounds check (line 306), so a
    press with the bucket outside the image throws. The model's `Press`
    reports this as `ok == false` and leaves the image as it was. The press
    point has already been recorded by then (lines 220-221).
  - A negative stroke width makes `new BasicStroke` throw before the line is
    drawn and before the point is recorded (lines 235 and 240). The model's
    `Drag` leaves everything unchanged in that case. The frame never passes a
    negative size.

## Model

| member | source | states |
|---|---|---|
| `Raster.FilledChanges` | MoodJournal.java:314-325 | after a fill, a pixel has the fill colour if it is in the seed's 4-connected region of the seed colour; otherwise it keeps its colour. A pixel changes exactly when it is in that region and the fill colour differs from the seed's |
| `Raster.FillWithSeedColourIsNoOp` | MoodJournal.java:306-308 | filling with the seed pixel's own colour leaves the picture unchanged, which is why the early return is sound |
| `Raster.FillIsIdempotent` | MoodJournal.java:306-320 | a second fill at the same seed with the same colour changes nothing: the seed now has the fill colour |
| `Raster.SeedInRegion` | MoodJournal.java:313 | the seed is in its own region |
| `Raster.RegionStep` | MoodJournal.java:322-325 | a neighbour of a region pixel (right, left, down or up) with the seed's colour is in the region |
| `Raster.RegionHasSeedColour` | MoodJournal.java:319 | every region pixel lies inside the picture and has the seed's colour |
| `Raster.PathStaysInClosedSet` | MoodJournal.java:322-325 | a path of one colour that starts in a set closed under same-coloured neighbours stays inside that set |
| `Raster.RegionWithinClosedSet` | MoodJournal.java:314-326 | the region lies inside every closed set that holds the seed, so it is the least such set |
| `Raster.FillStopsAtBarrier` | MoodJournal.java:317-319 | pixels outside a closed set around the seed keep their colour after the fill |
| `Raster.DiagonalSeparatesSides` | MoodJournal.java:322-325 | on a white square crossed corner to corner by a black diagonal, a fill seeded on one side leaves every pixel on the other side white; connectivity is 4-way, never diagonal |
| `Raster.FillOfUniform` | MoodJournal.java:314-325 | a fill anywhere on a single-coloured picture recolours all of it |
| `FloodFill.FloodFill` | MoodJournal.java:305-327 | the image afterwards equals `Filled` of the image before. When the seed already has the fill colour nothing is written. The pixels written are pairwise distinct, so each is written at most once, and they are exactly the region. Every access is in bounds, and the loop terminates although the queue may hold duplicates |
| `FloodFill.StartState` | MoodJournal.java:311-313 | with nothing visited and the seed queued, the loop invariant holds |
| `FloodFill.SkipStep` | MoodJournal.java:315-319 | dropping a head that is out of bounds, visited already or of another colour keeps the loop invariant |
| `FloodFill.VisitStep` | MoodJournal.java:319-325 | recolouring an unvisited head of the target colour and enqueueing its four neighbours keeps the loop invariant |
| `FloodFill.VisitRecolours` | MoodJournal.java:320 | recolouring one more region pixel keeps the image equal to the original with exactly the visited pixels recoloured |
| `FloodFill.FinishedFill` | MoodJournal.java:314 | once the queue is empty, the visited pixels are exactly the region and the image equals `Filled` |
| `FloodFill.Recolour` | MoodJournal.java:320-321 | `setRGB` changes exactly one pixel, and `visited[px][py] = true` adds exactly that position to the visited set |
| `Canvas.Half` | MoodJournal.java:303 | Java's `n/2` on `int`, rounded toward zero for either sign |
| `Canvas.OvalRequest` | MoodJournal.java:301-304 | the oval's box is `shapeSize + 20` wide and `shapeSize` high, and its centre is within half a pixel of the press point |
| `Canvas.OvalCentredOnEvenSize` | MoodJournal.java:224 | with an even shape size the oval is centred exactly on the press point |
| `Canvas.OvalOffCentreOnOddSize` | MoodJournal.java:224 | with an odd shape size the oval's centre misses the press point by half a pixel on both axes |
| `Canvas.AfterPress` | MoodJournal.java:222-225 | the image after a press: no pixel takes any colour but the pen colour; pen and eraser change nothing; the bucket gives the pressed pixel the pen colour, and pressed outside the image changes nothing |
| `Canvas.PressWithLineToolKeepsImage` | MoodJournal.java:222-225 | a press with the pen or the eraser leaves the image unchanged |
| `Canvas.FillPressTwice` | MoodJournal.java:225 | a second bucket press at the same point with the same colour changes nothing |
| `Canvas.StampTwice` | MoodJournal.java:222-224 | stamping the same shape twice at one point paints the same image as stamping it once |
| `Canvas.FillAfterClear` | MoodJournal.java:272-277 | after "New Canvas", one bucket press anywhere on the image turns the whole image the pen colour |
| `Canvas.DrawPanel.constructor` | MoodJournal.java:205-217 | a 700 by 500 all-white image, black pen colour, sizes 12, 42 and 36, the pen tool |
| `Canvas.DrawPanel.SetPenColor` | MoodJournal.java:256-259 | sets the pen colour and nothing else |
| `Canvas.DrawPanel.SetPenSize` | MoodJournal.java:260-262 | stores the size unclamped and changes nothing else |
| `Canvas.DrawPanel.SetEraserSize` | MoodJournal.java:263-265 | stores the size unclamped and changes nothing else |
| `Canvas.DrawPanel.SetShapeSize` | MoodJournal.java:266-268 | stores the size unclamped and changes nothing else |
| `Canvas.DrawPanel.SetTool` | MoodJournal.java:269-271 | changes the tool only; sizes and pen colour are untouched |
| `Canvas.DrawPanel.Paint` | MoodJournal.java:278-304 | painting a covered set of pixels sets those inside the image to the colour and leaves every other pixel as it was |
| `Canvas.DrawPanel.ClearCanvas` | MoodJournal.java:272-277 | every pixel turns white; the image keeps its size, and the pen colour and all other settings are kept |
| `Canvas.DrawPanel.Press` | MoodJournal.java:219-227 | the press point is always recorded. Heart, star and oval stamp in the pen colour at the shape size. Fill runs the flood fill with the pen colour, and throws outside the image without changing it. Pen and eraser leave the image unchanged |
| `Canvas.DrawPanel.Drag` | MoodJournal.java:229-247 | the pen draws a line from the previous point in the pen colour at the pen size; the eraser draws one in white at the eraser size; other tools draw nothing. The point is then recorded, unless the stroke width is negative and nothing changes |
| `Sizes.Increased` | MoodJournal.java:107 | the "+" button gives the smaller of the maximum and one step up: never above either, and equal to one of them |
| `Sizes.Decreased` | MoodJournal.java:108 | the "-" button gives the larger of the minimum and one step down: never below either, and equal to one of them |
| `Sizes.ButtonsKeepRange` | MoodJournal.java:107-129 | both buttons keep a size of the range inside the range |
| `Sizes.ButtonsUndoEachOther` | MoodJournal.java:107-129 | "-" undoes an unclamped "+", and "+" undoes an unclamped "-" |
| `Sizes.ButtonsSaturate` | MoodJournal.java:107-129 | "+" at the maximum and "-" at the minimum change nothing |
| `Sizes.PressesKeepRange` | MoodJournal.java:107-129 | any sequence of presses keeps a counter that starts in its range inside it |
| `Sizes.PressesKeepResidue` | MoodJournal.java:107-129 | when the step and both ends of the range are a multiple of `g` away from a base, every value reached stays a multiple of `g` away from it |
| `Sizes.PlusesReachMax` | MoodJournal.java:107 | enough "+" presses always reach the maximum |
| `Sizes.FrameCounters` | MoodJournal.java:19-21 | from 12, 42 and 36 the three sizes stay in [2,30], [6,50] and [16,120] under any presses. The pen size stays even and the eraser size stays 2 modulo 4. The shape size stays a multiple of 4 |
| `Sizes.ShapeLeavesItsSteps` | MoodJournal.java:128-129 | the shape size reaches 120 from 36 in eleven presses of "+", and "-" then gives 112, off the start's steps of 8 |
| `Entry.DashedDate` | MoodJournal.java:186 | `replace("/", "-")` turns each slash into a dash and keeps every other character in place |
| `Entry.DashedDateHasNoSlash` | MoodJournal.java:186 | no slash is left after the replacement |
| `Entry.DashedDateInjective` | MoodJournal.java:186 | two dates without dashes that give the same dashed form are equal |
| `Entry.FormattedDateShape` | MoodJournal.java:29-30 | a `MM/dd/yyyy` date is one line without dashes, and its dashed form is `MM-dd-yyyy` |
| `Entry.FileName` | MoodJournal.java:186 | a file name starts with `PersonalJournal` and the separator, and its length is the sum of its parts |
| `Entry.DocName` | MoodJournal.java:186 | the text file's name is the folder and the separator, then `MoodJournal_`, the dashed date and `.doc`; the part after the separator holds no slash, and the name is 16 characters longer than folder, separator and date together |
| `Entry.ImageName` | MoodJournal.java:192 | the drawing's name is the folder and the separator, then `MoodDrawing_`, the dashed date and `.png`; the part after the separator holds no slash, and the name is 16 characters longer than folder, separator and date together |
| `Entry.FileNameIsInFolder` | MoodJournal.java:186 | after the folder and separator comes a base name `prefix + dashed date + extension` with no slash, so the date cannot put a file in a sub-folder |
| `Entry.DocAndImageNamesDiffer` | MoodJournal.java:186-192 | the `.doc` and the `.png` of one day never share a name |
| `Entry.FileNameIdentifiesDay` | MoodJournal.java:186-192 | for dates without dashes, two file names of one kind are equal exactly when the dates are equal, so a second save on the same day overwrites the first |
| `Entry.DaysGetTheirOwnFiles` | MoodJournal.java:192 | two formatted dates give the same text file, and the same image file, exactly when they are the same date |
| `Entry.EntryText` | MoodJournal.java:188-190 | the text is its three writes in order, 22 characters longer than date, mood and note together |
| `Entry.EntryTextRoundTrip` | MoodJournal.java:188-190 | `ParseEntry` reads the date, mood and note back from the text when the date and mood are single lines; the note may be anything |
| `Entry.ParseEntrySound` | MoodJournal.java:188-190 | anything `ParseEntry` accepts is exactly the text `EntryText` writes for what it read |
| `Entry.EntryTextInjective` | MoodJournal.java:188-190 | different entries with single-line date and mood never produce the same text |
| `Entry.SampleText` | MoodJournal.java:188-190 | date 01/02/2024, mood Sad, note hello give `Date: 01/02/2024\nMood: Sad\n\nNote:\nhello\n` |
| `Entry.Compose` | MoodJournal.java:186-192 | a save's two names differ, and its text reads back as the date, mood and note saved |
| `Journal.MoodName` | MoodJournal.java:38-40 | each mood is stored as a non-empty single-line label |
| `Journal.MoodNamesDiffer` | MoodJournal.java:38-40 | the three labels are pairwise different |
| `Journal.MoodJournal.constructor` | MoodJournal.java:14-21 | mood Happy, sizes 12, 42 and 36 in frame and panel alike, a fresh white panel with a black pen |
| `Journal.MoodJournal.ChooseMood` | MoodJournal.java:38-40 | a mood button sets the mood and nothing else |
| `Journal.MoodJournal.PenPlus` | MoodJournal.java:107 | the pen size becomes `min(30, size + 2)` in frame and panel, and stays in range and even |
| `Journal.MoodJournal.PenMinus` | MoodJournal.java:108 | the pen size becomes `max(2, size - 2)` in frame and panel, and stays in range and even |
| `Journal.MoodJournal.EraserPlus` | MoodJournal.java:118 | the eraser size becomes `min(50, size + 4)` in frame and panel, in range and 2 modulo 4 |
| `Journal.MoodJournal.EraserMinus` | MoodJournal.java:119 | the eraser size becomes `max(6, size - 4)` in frame and panel, in range and 2 modulo 4 |
| `Journal.MoodJournal.ShapePlus` | MoodJournal.java:128 | the shape size becomes `min(120, size + 8)` in frame and panel, in range and a multiple of 4 |
| `Journal.MoodJournal.ShapeMinus` | MoodJournal.java:129 | the shape size becomes `max(16, size - 8)` in frame and panel, in range and a multiple of 4 |
| `Journal.MoodJournal.ChoosePenColour` | MoodJournal.java:166 | a colour button sets the pen colour and selects the pen tool |
| `Journal.MoodJournal.ChooseTool` | MoodJournal.java:133-175 | a tool button changes the panel's tool only |
| `Journal.MoodJournal.NewCanvas` | MoodJournal.java:77 | the panel's image turns all white and the frame invariant holds |
| `Journal.MoodJournal.SaveEntry` | MoodJournal.java:179-193 | the names are the day's `.doc` and `.png` in the folder, and they differ. The text is exactly the three writes of the frame's date, mood label and note, and it reads back as the frame's date and mood with the given note |
| `Journal.OvalStampCentred` | MoodJournal.java:224 | since the frame only ever gives the panel even shape sizes, every oval stamp is centred exactly on the press point |

## Left out

- Swing layout, buttons, labels, `setText` on the size labels, `repaint`,
  `paintComponent`, and both dialogs. This includes the "Saved!" message at
  line 194 and the error message at line 196. They are user interface only.
- File I/O: `File.exists`, `mkdir`, `FileWriter` and `ImageIO.write`
  (lines 182-193). Their failures are not modelled.
  - `SaveEntry` gives the names and text that would be written and claims
    nothing about whether the writes succeed.
  - `File.separator` is a parameter.
  - `getImage` (lines 253-255) only hands the buffer to `ImageIO` and is not
    modelled on its own.
- Rasterisation by Java2D: `drawLine` under `BasicStroke`, `fillPolygon`,
  `fill(Path2D)` and `fillOval` (lines 236, 241, 285, 299, 303). It is the
  parameter `raster`, and the model only fixes which request is passed to it.
  The heart's `double` control points (lines 280-284) and the star's
  `Math.cos/sin` vertices (lines 294-297) are floating-point geometry. They are
  reduced to the press point and the size.
- The colour and stroke held by `Graphics2D`. Every drawing operation sets its
  own colour and stroke first, so that state does not affect any pixel.
- Colour blending for translucent colours. Painting stores the colour as is,
  which is what Java2D does for the palette. All seven palette colours are
  opaque, and the model does not list their values.
- `LocalDate.now()` and its formatting (lines 29-30). The date is an input to
  the constructor and must be in `MM/dd/yyyy` form.
- The tool is a `String` in the source. The model uses a six-value datatype,
  because only those six literals are ever passed to `setTool`.
- Mouse coordinates, sizes and colours are unbounded integers. Java's 32-bit
  wrap-around is not modelled, because no value the program computes comes
  near it.
- `Canvas.DrawPanel.Press`: a stamp or fill that throws inside Java2D for any
  reason other than the bucket's out-of-bounds seed is not modelled.
