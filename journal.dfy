/** The journal window, `MoodJournal`: the mood buttons, the frame's three
    size counters and the copies it hands to the panel, the pen colour and tool
    buttons, "New Canvas", and what "Save Today's Mood" writes. Layout, labels
    and dialogs are not modelled. */
module Journal {
  import opened Raster
  import opened Sizes
  import opened Entry
  import opened Canvas

  /** The three mood buttons. */
  datatype Mood = Happy | Okay | Sad

  /** The text a mood button stores in `mood`. */
  function MoodName(m: Mood): (r: string)
    ensures |r| > 0 && '\n' !in r
  {
    match m
    case Happy => "Happy"
    case Okay => "Okay"
    case Sad => "Sad"
  }

  /** The saved text tells the three moods apart. */
  lemma MoodNamesDiffer(a: Mood, b: Mood)
    ensures MoodName(a) == MoodName(b) <==> a == b
  {
  }

  class MoodJournal {
    const panel: DrawPanel
    const formattedDate: string
    var mood: Mood
    var penSize: int
    var eraserSize: int
    var shapeSize: int

    /** Each counter lies in its range and on its residue, and the panel holds
        the same three sizes as the frame. */
    ghost predicate Valid()
      reads this, panel
    {
      && panel.Valid()
      && IsFormattedDate(formattedDate)
      && InRange(PEN, penSize) && InRange(ERASER, eraserSize) && InRange(SHAPE, shapeSize)
      && penSize % 2 == 0 && eraserSize % 4 == 2 && shapeSize % 4 == 0
      && panel.penSize == penSize && panel.eraserSize == eraserSize && panel.shapeSize == shapeSize
    }

    /** The window on the day `date`: mood "Happy", sizes 12, 42 and 36, and a
        fresh white panel with the black pen. */
    constructor (date: string)
      requires IsFormattedDate(date)
      ensures Valid() && fresh(panel) && fresh(panel.image)
      ensures formattedDate == date && mood == Happy
      ensures penSize == PEN.initial && eraserSize == ERASER.initial && shapeSize == SHAPE.initial
      ensures Pixels(panel.image) == Uniform(WIDTH, HEIGHT, WHITE)
      ensures panel.tool == Pen && panel.penColor == BLACK
    {
      formattedDate := date;
      mood := Happy;
      penSize, eraserSize, shapeSize := PEN.initial, ERASER.initial, SHAPE.initial;
      panel := new DrawPanel();
    }

    method ChooseMood(m: Mood)
      modifies this`mood
      ensures mood == m
    {
      mood := m;
    }

    /** Pen "+": `Math.min(30, penSize + 2)`, then copied to the panel. */
    method PenPlus()
      requires Valid()
      modifies this`penSize, panel`penSize
      ensures Valid() && penSize == Increased(PEN, old(penSize))
    {
      penSize := Increased(PEN, penSize);
      panel.SetPenSize(penSize);
    }

    /** Pen "-": `Math.max(2, penSize - 2)`, then copied to the panel. */
    method PenMinus()
      requires Valid()
      modifies this`penSize, panel`penSize
      ensures Valid() && penSize == Decreased(PEN, old(penSize))
    {
      penSize := Decreased(PEN, penSize);
      panel.SetPenSize(penSize);
    }

    /** Eraser "+": `Math.min(50, eraserSize + 4)`, then copied to the panel. */
    method EraserPlus()
      requires Valid()
      modifies this`eraserSize, panel`eraserSize
      ensures Valid() && eraserSize == Increased(ERASER, old(eraserSize))
    {
      eraserSize := Increased(ERASER, eraserSize);
      panel.SetEraserSize(eraserSize);
    }

    /** Eraser "-": `Math.max(6, eraserSize - 4)`, then copied to the panel. */
    method EraserMinus()
      requires Valid()
      modifies this`eraserSize, panel`eraserSize
      ensures Valid() && eraserSize == Decreased(ERASER, old(eraserSize))
    {
      eraserSize := Decreased(ERASER, eraserSize);
      panel.SetEraserSize(eraserSize);
    }

    /** Shape "+": `Math.min(120, shapeSize + 8)`, then copied to the panel. */
    method ShapePlus()
      requires Valid()
      modifies this`shapeSize, panel`shapeSize
      ensures Valid() && shapeSize == Increased(SHAPE, old(shapeSize))
    {
      shapeSize := Increased(SHAPE, shapeSize);
      panel.SetShapeSize(shapeSize);
    }

    /** Shape "-": `Math.max(16, shapeSize - 8)`, then copied to the panel. */
    method ShapeMinus()
      requires Valid()
      modifies this`shapeSize, panel`shapeSize
      ensures Valid() && shapeSize == Decreased(SHAPE, old(shapeSize))
    {
      shapeSize := Decreased(SHAPE, shapeSize);
      panel.SetShapeSize(shapeSize);
    }

    /** A colour button: the pen takes the colour and the pen tool is chosen. */
    method ChoosePenColour(colour: int)
      requires Valid()
      modifies panel`penColor, panel`tool
      ensures Valid() && panel.penColor == colour && panel.tool == Pen
    {
      panel.SetPenColor(colour);
      panel.SetTool(Pen);
    }

    /** The eraser, heart, star, oval and paint bucket buttons. */
    method ChooseTool(t: Tool)
      requires Valid()
      modifies panel`tool
      ensures Valid() && panel.tool == t
    {
      panel.SetTool(t);
    }

    /** "New Canvas". */
    method NewCanvas()
      requires Valid()
      modifies panel.image
      ensures Valid() && Pixels(panel.image) == Uniform(WIDTH, HEIGHT, WHITE)
    {
      panel.ClearCanvas();
    }

    /** "Save Today's Mood": the two file names and the text written for the
        note `note`, with `separator` for `File.separator`. Changes nothing. */
    method SaveEntry(note: string, separator: string) returns (e: SavedEntry)
      requires Valid()
      ensures e.docName == DocName(separator, formattedDate)
      ensures e.imageName == ImageName(separator, formattedDate)
      ensures e.docName != e.imageName
      ensures e.text == EntryText(formattedDate, MoodName(mood), note)
      ensures ParseEntry(e.text) == Some(Fields(formattedDate, MoodName(mood), note))
    {
      FormattedDateShape(formattedDate);
      e := Compose(separator, formattedDate, MoodName(mood), note);
    }
  }

  /** Because the frame's shape sizes are all even, an oval stamp is always
      centred exactly on the click. */
  lemma OvalStampCentred(j: MoodJournal, x: int, y: int)
    requires j.Valid()
    ensures var r := OvalRequest(x, y, j.panel.shapeSize);
      2 * r.left + r.w == 2 * x && 2 * r.top + r.h == 2 * y
  {
    OvalCentredOnEvenSize(x, y, j.panel.shapeSize);
  }
}
