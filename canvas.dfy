/** The drawing panel: its 700 by 500 image buffer, the tool and pen settings,
    and what a mouse press or a mouse drag does to them.

    Java2D rasterisation (`drawLine` under a `BasicStroke`, `fillPolygon`,
    `fill(Path2D)`, `fillOval`) is not modelled: each painting operation hands
    its shape, described by the integer parameters the panel computes, to a
    `raster` function that says which pixels the shape covers. Those pixels
    inside the image take the colour; the others keep theirs. */
module Canvas {
  import opened Raster
  import FloodFill

  const WIDTH := 700
  const HEIGHT := 500

  /** The six tool names the panel is ever given, `"pen"` … `"fill"`. */
  datatype Tool = Pen | Eraser | Heart | Star | Oval | Fill

  /** A shape handed to the graphics context, before rasterisation. */
  datatype Render =
    | Stroke(x0: int, y0: int, x1: int, y1: int, width: nat)  // drawLine under new BasicStroke(width)
    | HeartAt(x: int, y: int, size: int)                      // drawHeart
    | StarAt(x: int, y: int, size: int)                       // drawStar
    | OvalIn(left: int, top: int, w: int, h: int)             // fillOval

  /** Java's `n / 2` on an `int`: the quotient rounded toward zero. */
  function Half(n: int): (r: int)
    ensures n >= 0 ==> 0 <= 2 * r <= n <= 2 * r + 1
    ensures n < 0 ==> 2 * r - 1 <= n <= 2 * r <= 0
  {
    if n >= 0 then n / 2 else -((-n) / 2)
  }

  /** The bounding box of the oval stamp at `(x, y)`: `shapeSize + 20` wide,
      `shapeSize` high, its top-left corner at `(x - w/2, y - h/2)`. Its centre
      lies within half a pixel of the click. */
  function OvalRequest(x: int, y: int, size: int): (r: Render)
    ensures r.OvalIn? && r.w == size + 20 && r.h == size
    ensures -1 <= 2 * r.left + r.w - 2 * x <= 1
    ensures -1 <= 2 * r.top + r.h - 2 * y <= 1
  {
    var w, h := size + 20, size;
    OvalIn(x - Half(w), y - Half(h), w, h)
  }

  /** With an even shape size the oval is centred exactly on the click. */
  lemma OvalCentredOnEvenSize(x: int, y: int, size: int)
    requires size % 2 == 0
    ensures var r := OvalRequest(x, y, size);
      2 * r.left + r.w == 2 * x && 2 * r.top + r.h == 2 * y
  {
  }

  /** With an odd shape size the centre is half a pixel off the click. */
  lemma OvalOffCentreOnOddSize(x: int, y: int, size: int)
    requires size % 2 == 1
    ensures var r := OvalRequest(x, y, size);
      2 * r.left + r.w != 2 * x && 2 * r.top + r.h != 2 * y
  {
  }

  /** The image after a press at `(x, y)` with the given tool, colour and
      shape size. A press writes no colour but the pen colour; the pen and the
      eraser change nothing; the paint bucket gives the pressed pixel the pen
      colour, and outside the image it changes nothing. */
  ghost function AfterPress(pic: Picture, tool: Tool, colour: int, size: int, x: int, y: int,
                            raster: Render -> set<Point>): (r: Picture)
    ensures |r| == |pic| && forall i :: 0 <= i < |pic| ==> |r[i]| == |pic[i]|
    ensures forall i, j :: 0 <= i < |pic| && 0 <= j < |pic[i]| ==> r[i][j] == pic[i][j] || r[i][j] == colour
    ensures tool == Pen || tool == Eraser ==> r == pic
    ensures tool == Fill && InPic(pic, Point(x, y)) ==> r[x][y] == colour
    ensures tool == Fill && !InPic(pic, Point(x, y)) ==> r == pic
  {
    match tool
    case Heart => Painted(pic, raster(HeartAt(x, y, size)), colour)
    case Star => Painted(pic, raster(StarAt(x, y, size)), colour)
    case Oval => Painted(pic, raster(OvalRequest(x, y, size)), colour)
    case Fill =>
      if InPic(pic, Point(x, y)) then SeedInRegion(pic, Point(x, y)); Filled(pic, Point(x, y), colour) else pic
    case _ => pic
  }

  /** A press with the pen or the eraser leaves the image as it was. */
  lemma PressWithLineToolKeepsImage(pic: Picture, tool: Tool, colour: int, size: int, x: int, y: int,
                                    raster: Render -> set<Point>)
    requires tool == Pen || tool == Eraser
    ensures AfterPress(pic, tool, colour, size, x, y, raster) == pic
  {
  }

  /** Pressing the paint bucket twice at the same place changes nothing the
      second time. */
  lemma FillPressTwice(pic: Picture, colour: int, size: int, x: int, y: int, raster: Render -> set<Point>)
    ensures var once := AfterPress(pic, Fill, colour, size, x, y, raster);
      AfterPress(once, Fill, colour, size, x, y, raster) == once
  {
    if InPic(pic, Point(x, y)) {
      FillIsIdempotent(pic, Point(x, y), colour);
    }
  }

  /** On a freshly cleared canvas the paint bucket, pressed anywhere on the
      image, turns the whole image the pen colour. */
  lemma FillAfterClear(colour: int, size: int, x: int, y: int, raster: Render -> set<Point>)
    requires 0 <= x < WIDTH && 0 <= y < HEIGHT
    ensures AfterPress(Uniform(WIDTH, HEIGHT, WHITE), Fill, colour, size, x, y, raster)
         == Uniform(WIDTH, HEIGHT, colour)
  {
    FillOfUniform(WIDTH, HEIGHT, WHITE, Point(x, y), colour);
  }

  /** Stamping a shape twice at the same place is the same as stamping it once. */
  lemma StampTwice(pic: Picture, tool: Tool, colour: int, size: int, x: int, y: int,
                   raster: Render -> set<Point>)
    requires tool == Heart || tool == Star || tool == Oval
    ensures var once := AfterPress(pic, tool, colour, size, x, y, raster);
      AfterPress(once, tool, colour, size, x, y, raster) == once
  {
    var pts := match tool
      case Heart => raster(HeartAt(x, y, size))
      case Star => raster(StarAt(x, y, size))
      case _ => raster(OvalRequest(x, y, size));
    PaintTwice(pic, pts, colour);
  }

  /** Painting the same pixels with the same colour twice is painting them once. */
  lemma PaintTwice(pic: Picture, pts: set<Point>, c: int)
    ensures Painted(Painted(pic, pts, c), pts, c) == Painted(pic, pts, c)
  {
    var once := Painted(pic, pts, c);
    SamePixels(Painted(once, pts, c), once);
  }

  /** The panel, `DrawPanel`. `image` is drawn on in place; the other fields
      are the settings the frame's buttons change. */
  class DrawPanel {
    const image: array2<int>
    var prevX: int
    var prevY: int
    var penColor: int
    var penSize: int
    var eraserSize: int
    var shapeSize: int
    var tool: Tool

    /** The image is 700 pixels wide and 500 high, and stays so. */
    ghost predicate Valid()
      reads this
    {
      image.Length0 == WIDTH && image.Length1 == HEIGHT
    }

    /** A white 700 by 500 image, a black pen of size 12, eraser 42, shapes 36, the pen tool. */
    constructor ()
      ensures Valid() && fresh(image)
      ensures Pixels(image) == Uniform(WIDTH, HEIGHT, WHITE)
      ensures penColor == BLACK && penSize == 12 && eraserSize == 42 && shapeSize == 36
      ensures tool == Pen && prevX == 0 && prevY == 0
    {
      image := new int[WIDTH, HEIGHT]((i, j) => WHITE);
      prevX, prevY := 0, 0;
      penColor := BLACK;
      penSize, eraserSize, shapeSize := 12, 42, 36;
      tool := Pen;
      new;
      SamePixels(Pixels(image), Uniform(WIDTH, HEIGHT, WHITE));
    }

    method SetPenColor(colour: int)
      modifies this`penColor
      ensures penColor == colour
    {
      penColor := colour;
    }

    /** Takes the size as given: the clamping is done by the frame. */
    method SetPenSize(size: int)
      modifies this`penSize
      ensures penSize == size
    {
      penSize := size;
    }

    method SetEraserSize(size: int)
      modifies this`eraserSize
      ensures eraserSize == size
    {
      eraserSize := size;
    }

    method SetShapeSize(size: int)
      modifies this`shapeSize
      ensures shapeSize == size
    {
      shapeSize := size;
    }

    /** Changes the tool and nothing else. */
    method SetTool(t: Tool)
      modifies this`tool
      ensures tool == t
    {
      tool := t;
    }

    /** Paints every pixel of `pts` that lies inside the image with `colour`. */
    method Paint(pts: set<Point>, colour: int)
      modifies image
      ensures Pixels(image) == Painted(old(Pixels(image)), pts, colour)
    {
      forall i, j | 0 <= i < image.Length0 && 0 <= j < image.Length1 && Point(i, j) in pts {
        image[i, j] := colour;
      }
      SamePixels(Pixels(image), Painted(old(Pixels(image)), pts, colour));
    }

    /** "New Canvas": the whole image turns white; its size, the pen colour
        and every other setting stay as they were. */
    method ClearCanvas()
      requires Valid()
      modifies image
      ensures Pixels(image) == Uniform(WIDTH, HEIGHT, WHITE)
    {
      forall i, j | 0 <= i < image.Length0 && 0 <= j < image.Length1 {
        image[i, j] := WHITE;
      }
      SamePixels(Pixels(image), Uniform(WIDTH, HEIGHT, WHITE));
    }

    /** `mousePressed`: the press point is recorded first; then heart, star
        and oval stamp a shape of the shape size and the paint bucket fills
        from the press point, all in the pen colour. A fill pressed outside the
        image stops at the pixel read, which throws, and leaves the image as it
        was; `ok` says whether the handler ran to its end. */
    method Press(x: int, y: int, raster: Render -> set<Point>) returns (ok: bool)
      requires Valid()
      modifies this`prevX, this`prevY, image
      ensures prevX == x && prevY == y
      ensures ok <==> tool != Fill || (0 <= x < WIDTH && 0 <= y < HEIGHT)
      ensures Pixels(image) == AfterPress(old(Pixels(image)), tool, penColor, shapeSize, x, y, raster)
    {
      prevX := x;
      prevY := y;
      ok := true;
      match tool {
        case Heart => Paint(raster(HeartAt(prevX, prevY, shapeSize)), penColor);
        case Star => Paint(raster(StarAt(prevX, prevY, shapeSize)), penColor);
        case Oval => Paint(raster(OvalRequest(prevX, prevY, shapeSize)), penColor);
        case Fill =>
          if 0 <= prevX < image.Length0 && 0 <= prevY < image.Length1 {
            var _ := FloodFill.FloodFill(image, prevX, prevY, penColor);
          } else {
            ok := false;
          }
        case _ =>
      }
    }

    /** `mouseDragged`: the pen draws a line of the pen size in the pen colour
        and the eraser one of the eraser size in white, from the previous point
        to `(x, y)`; any other tool draws nothing. The point is then recorded.
        A negative stroke width makes `new BasicStroke` throw before anything
        is drawn or recorded; `ok` says whether the handler ran to its end. */
    method Drag(x: int, y: int, raster: Render -> set<Point>) returns (ok: bool)
      modifies this`prevX, this`prevY, image
      ensures ok <==> !(tool == Pen && penSize < 0) && !(tool == Eraser && eraserSize < 0)
      ensures ok ==> prevX == x && prevY == y
      ensures !ok ==> prevX == old(prevX) && prevY == old(prevY) && Pixels(image) == old(Pixels(image))
      ensures ok && tool == Pen ==>
        Pixels(image) == Painted(old(Pixels(image)), raster(Stroke(old(prevX), old(prevY), x, y, penSize)), penColor)
      ensures ok && tool == Eraser ==>
        Pixels(image) == Painted(old(Pixels(image)), raster(Stroke(old(prevX), old(prevY), x, y, eraserSize)), WHITE)
      ensures tool != Pen && tool != Eraser ==> Pixels(image) == old(Pixels(image))
    {
      if tool == Pen {
        if penSize < 0 {
          return false;
        }
        Paint(raster(Stroke(prevX, prevY, x, y, penSize)), penColor);
      }
      if tool == Eraser {
        if eraserSize < 0 {
          return false;
        }
        Paint(raster(Stroke(prevX, prevY, x, y, eraserSize)), WHITE);
      }
      prevX := x;
      prevY := y;
      ok := true;
    }
  }
}
