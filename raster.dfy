/** Pixel values of the canvas and the region a bucket fill replaces.
    A picture is held column-major, `pic[x][y]`, as `BufferedImage.getRGB(x, y)`
    addresses it; a colour is a 32-bit ARGB value read as Java's signed `int`. */
module Raster {

  /** A pixel position, as `java.awt.Point`: `x` is the column, `y` the row. */
  datatype Point = Point(x: int, y: int)

  /** The pixels of an image as a value: `pic[x][y]` is the colour at column `x`, row `y`. */
  type Picture = seq<seq<int>>

  /** `Color.WHITE.getRGB()`, that is 0xFFFFFFFF as a signed int. */
  const WHITE: int := -1
  /** `Color.BLACK.getRGB()`, that is 0xFF000000 as a signed int. */
  const BLACK: int := -16777216

  predicate InPic(pic: Picture, p: Point) {
    0 <= p.x < |pic| && 0 <= p.y < |pic[p.x]|
  }

  function At(pic: Picture, p: Point): int
    requires InPic(pic, p)
  {
    pic[p.x][p.y]
  }

  /** The four points the fill enqueues after recolouring `p`, in its order. */
  function Neighbours(p: Point): seq<Point> {
    [Point(p.x + 1, p.y), Point(p.x - 1, p.y), Point(p.x, p.y + 1), Point(p.x, p.y - 1)]
  }

  /** 4-connectivity: left, right, up or down, never diagonal. */
  predicate Adjacent(p: Point, q: Point) {
    q in Neighbours(p)
  }

  /** A non-empty walk of adjacent steps over pixels that all have `colour`. */
  ghost predicate IsPath(pic: Picture, colour: int, path: seq<Point>) {
    && |path| > 0
    && (forall k :: 0 <= k < |path| ==> InPic(pic, path[k]) && At(pic, path[k]) == colour)
    && (forall k :: 0 < k < |path| ==> Adjacent(path[k - 1], path[k]))
  }

  /** `q` lies in the fill region of `seed`: it is reachable from the seed by
      4-connected steps through pixels of the seed's colour. */
  ghost predicate InRegion(pic: Picture, seed: Point, q: Point)
    requires InPic(pic, seed)
  {
    exists path :: IsPath(pic, At(pic, seed), path) && path[0] == seed && path[|path| - 1] == q
  }

  /** The picture after the region of `seed` is replaced by colour `c`;
      every other pixel keeps its colour. */
  ghost function Filled(pic: Picture, seed: Point, c: int): (r: Picture)
    requires InPic(pic, seed)
    ensures |r| == |pic| && forall i :: 0 <= i < |pic| ==> |r[i]| == |pic[i]|
  {
    seq(|pic|, i requires 0 <= i < |pic| =>
      seq(|pic[i]|, j requires 0 <= j < |pic[i]| =>
        if InRegion(pic, seed, Point(i, j)) then c else pic[i][j]))
  }

  /** The picture after every pixel of `pts` inside it is set to colour `c`. */
  function Painted(pic: Picture, pts: set<Point>, c: int): (r: Picture)
    ensures |r| == |pic| && forall i :: 0 <= i < |pic| ==> |r[i]| == |pic[i]|
  {
    seq(|pic|, i requires 0 <= i < |pic| =>
      seq(|pic[i]|, j requires 0 <= j < |pic[i]| =>
        if Point(i, j) in pts then c else pic[i][j]))
  }

  /** A closed set: it holds every `colour` neighbour of each of its points. */
  ghost predicate Closed(pic: Picture, colour: int, s: set<Point>) {
    forall p, n :: p in s && Adjacent(p, n) && InPic(pic, n) && At(pic, n) == colour ==> n in s
  }

  /** The positions of a `w` by `h` image. */
  ghost function Positions(w: int, h: int): (r: set<Point>)
    ensures forall p :: p in r <==> 0 <= p.x < w && 0 <= p.y < h
  {
    set i, j | 0 <= i < w && 0 <= j < h :: Point(i, j)
  }

  /** The current pixels of an image buffer, `img[x, y]` being column `x`, row `y`. */
  ghost function Pixels(img: array2<int>): (r: Picture)
    reads img
    ensures |r| == img.Length0
    ensures forall i :: 0 <= i < |r| ==> |r[i]| == img.Length1
    ensures forall i, j :: 0 <= i < img.Length0 && 0 <= j < img.Length1 ==> r[i][j] == img[i, j]
  {
    seq(img.Length0, i requires 0 <= i < img.Length0 reads img =>
      seq(img.Length1, j requires 0 <= j < img.Length1 reads img => img[i, j]))
  }

  /** Two pictures of the same shape with the same pixels are equal. */
  lemma SamePixels(a: Picture, b: Picture)
    requires |a| == |b|
    requires forall i :: 0 <= i < |a| ==> |a[i]| == |b[i]|
    requires forall i, j :: 0 <= i < |a| && 0 <= j < |a[i]| ==> a[i][j] == b[i][j]
    ensures a == b
  {
    forall i | 0 <= i < |a| ensures a[i] == b[i] {
      assert forall j :: 0 <= j < |a[i]| ==> a[i][j] == b[i][j];
    }
  }

  // ---------------------------------------------------------------------------
  // The fill region

  lemma SeedInRegion(pic: Picture, seed: Point)
    requires InPic(pic, seed)
    ensures InRegion(pic, seed, seed)
  {
    assert IsPath(pic, At(pic, seed), [seed]);
  }

  /** A path extended by an adjacent pixel of its colour is a path. */
  lemma PathStep(pic: Picture, colour: int, path: seq<Point>, n: Point)
    requires IsPath(pic, colour, path)
    requires Adjacent(path[|path| - 1], n) && InPic(pic, n) && At(pic, n) == colour
    ensures IsPath(pic, colour, path + [n])
  {
    var longer := path + [n];
    assert forall k :: 0 <= k < |path| ==> longer[k] == path[k];
  }

  /** A same-coloured neighbour of a region pixel is in the region. */
  lemma RegionStep(pic: Picture, seed: Point, p: Point, n: Point)
    requires InPic(pic, seed) && InRegion(pic, seed, p)
    requires Adjacent(p, n) && InPic(pic, n) && At(pic, n) == At(pic, seed)
    ensures InRegion(pic, seed, n)
  {
    var path :| IsPath(pic, At(pic, seed), path) && path[0] == seed && path[|path| - 1] == p;
    PathStep(pic, At(pic, seed), path, n);
    var longer := path + [n];
    assert longer[0] == seed && longer[|longer| - 1] == n;
  }

  /** Every region pixel lies inside the picture and has the seed's colour. */
  lemma RegionHasSeedColour(pic: Picture, seed: Point, q: Point)
    requires InPic(pic, seed) && InRegion(pic, seed, q)
    ensures InPic(pic, q) && At(pic, q) == At(pic, seed)
  {
    var path :| IsPath(pic, At(pic, seed), path) && path[0] == seed && path[|path| - 1] == q;
    assert path[|path| - 1] == q;
  }

  lemma {:induction false} PathStaysInClosedSet(pic: Picture, colour: int, path: seq<Point>, s: set<Point>)
    requires IsPath(pic, colour, path) && path[0] in s && Closed(pic, colour, s)
    ensures forall k :: 0 <= k < |path| ==> path[k] in s
  {
    if |path| > 1 {
      var front := path[..|path| - 1];
      assert IsPath(pic, colour, front);
      PathStaysInClosedSet(pic, colour, front, s);
      var last := |path| - 1;
      assert path[last - 1] == front[last - 1] && path[last - 1] in s;
      assert Adjacent(path[last - 1], path[last]);
    }
  }

  /** The region is the least closed set holding the seed: any closed set
      that holds the seed holds the whole region. */
  lemma RegionWithinClosedSet(pic: Picture, seed: Point, s: set<Point>)
    requires InPic(pic, seed) && seed in s && Closed(pic, At(pic, seed), s)
    ensures forall q :: InRegion(pic, seed, q) ==> q in s
  {
    forall q | InRegion(pic, seed, q) ensures q in s {
      var path :| IsPath(pic, At(pic, seed), path) && path[0] == seed && path[|path| - 1] == q;
      PathStaysInClosedSet(pic, At(pic, seed), path, s);
    }
  }

  // ---------------------------------------------------------------------------
  // What a fill changes

  /** A pixel changes exactly when it is in the region and the fill colour
      differs from the seed's colour; a changed pixel gets the fill colour. */
  lemma FilledChanges(pic: Picture, seed: Point, c: int, q: Point)
    requires InPic(pic, seed) && InPic(pic, q)
    ensures InPic(Filled(pic, seed, c), q)
    ensures At(Filled(pic, seed, c), q) == (if InRegion(pic, seed, q) then c else At(pic, q))
    ensures At(Filled(pic, seed, c), q) != At(pic, q) <==> InRegion(pic, seed, q) && At(pic, seed) != c
  {
    if InRegion(pic, seed, q) {
      RegionHasSeedColour(pic, seed, q);
    }
  }

  /** Filling with the seed's own colour changes nothing, which is why the
      source may return early in that case. */
  lemma FillWithSeedColourIsNoOp(pic: Picture, seed: Point, c: int)
    requires InPic(pic, seed) && At(pic, seed) == c
    ensures Filled(pic, seed, c) == pic
  {
    var r := Filled(pic, seed, c);
    forall i, j | 0 <= i < |pic| && 0 <= j < |pic[i]| ensures r[i][j] == pic[i][j] {
      FilledChanges(pic, seed, c, Point(i, j));
    }
    SamePixels(r, pic);
  }

  /** After a fill the seed has the fill colour, so a second fill with the
      same colour at the same seed changes nothing. */
  lemma FillIsIdempotent(pic: Picture, seed: Point, c: int)
    requires InPic(pic, seed)
    ensures InPic(Filled(pic, seed, c), seed)
    ensures Filled(Filled(pic, seed, c), seed, c) == Filled(pic, seed, c)
  {
    SeedInRegion(pic, seed);
    FilledChanges(pic, seed, c, seed);
    FillWithSeedColourIsNoOp(Filled(pic, seed, c), seed, c);
  }

  /** A fill cannot cross a barrier: pixels outside a closed set holding the
      seed keep their colour. */
  lemma FillStopsAtBarrier(pic: Picture, seed: Point, c: int, s: set<Point>, q: Point)
    requires InPic(pic, seed) && seed in s && Closed(pic, At(pic, seed), s)
    requires InPic(pic, q) && q !in s
    ensures At(Filled(pic, seed, c), q) == At(pic, q)
  {
    RegionWithinClosedSet(pic, seed, s);
    FilledChanges(pic, seed, c, q);
  }

  /** A `w` by `h` picture of the single colour `c`. */
  function Uniform(w: nat, h: nat, c: int): (r: Picture)
    ensures |r| == w && forall i :: 0 <= i < w ==> |r[i]| == h
  {
    seq(w, i requires 0 <= i < w => seq(h, j requires 0 <= j < h => c))
  }

  /** Every pixel of `pic` has colour `c`. */
  ghost predicate SingleColoured(pic: Picture, c: int) {
    forall q :: InPic(pic, q) ==> At(pic, q) == c
  }

  /** In a single-coloured picture with rows of height `h`, a path can be
      continued along its last pixel's row to any column. */
  lemma {:induction false} WalkAlongRow(pic: Picture, colour: int, h: int, path: seq<Point>, x: int)
    returns (longer: seq<Point>)
    requires SingleColoured(pic, colour) && IsPath(pic, colour, path)
    requires forall i :: 0 <= i < |pic| ==> |pic[i]| == h
    requires 0 <= x < |pic|
    ensures IsPath(pic, colour, longer) && longer[0] == path[0]
    ensures longer[|longer| - 1] == Point(x, path[|path| - 1].y)
    decreases if x < path[|path| - 1].x then path[|path| - 1].x - x else x - path[|path| - 1].x
  {
    var p := path[|path| - 1];
    if x == p.x {
      longer := path;
    } else {
      var n := if x < p.x then Point(p.x - 1, p.y) else Point(p.x + 1, p.y);
      assert Adjacent(p, n);
      assert InPic(pic, n);
      PathStep(pic, colour, path, n);
      longer := WalkAlongRow(pic, colour, h, path + [n], x);
    }
  }

  /** In a single-coloured picture a path can be continued along its last
      pixel's column to any row. */
  lemma {:induction false} WalkAlongColumn(pic: Picture, colour: int, path: seq<Point>, y: int)
    returns (longer: seq<Point>)
    requires SingleColoured(pic, colour) && IsPath(pic, colour, path)
    requires 0 <= y < |pic[path[|path| - 1].x]|
    ensures IsPath(pic, colour, longer) && longer[0] == path[0]
    ensures longer[|longer| - 1] == Point(path[|path| - 1].x, y)
    decreases if y < path[|path| - 1].y then path[|path| - 1].y - y else y - path[|path| - 1].y
  {
    var p := path[|path| - 1];
    if y == p.y {
      longer := path;
    } else {
      var n := if y < p.y then Point(p.x, p.y - 1) else Point(p.x, p.y + 1);
      assert Adjacent(p, n);
      assert InPic(pic, n);
      PathStep(pic, colour, path, n);
      longer := WalkAlongColumn(pic, colour, path + [n], y);
    }
  }

  /** A fill anywhere on a single-coloured picture recolours all of it. */
  lemma FillOfUniform(w: nat, h: nat, c0: int, seed: Point, c: int)
    requires InPic(Uniform(w, h, c0), seed)
    ensures Filled(Uniform(w, h, c0), seed, c) == Uniform(w, h, c)
  {
    var pic := Uniform(w, h, c0);
    assert SingleColoured(pic, c0);
    forall i, j | 0 <= i < w && 0 <= j < h ensures Filled(pic, seed, c)[i][j] == c {
      assert IsPath(pic, c0, [seed]);
      var row := WalkAlongRow(pic, c0, h, [seed], i);
      var path := WalkAlongColumn(pic, c0, row, j);
      assert InRegion(pic, seed, Point(i, j));
    }
    SamePixels(Filled(pic, seed, c), Uniform(w, h, c));
  }

  /** An `n` by `n` white picture crossed corner to corner by a black diagonal. */
  function DiagonalPicture(n: nat): (r: Picture)
    ensures |r| == n && forall i :: 0 <= i < n ==> |r[i]| == n
  {
    seq(n, i requires 0 <= i < n => seq(n, j requires 0 <= j < n => if i == j then BLACK else WHITE))
  }

  /** Filling one side of the black diagonal leaves the other side white. */
  lemma DiagonalSeparatesSides(n: nat, seed: Point, c: int, q: Point)
    requires 0 <= seed.y < seed.x < n
    requires 0 <= q.x < q.y < n
    ensures At(Filled(DiagonalPicture(n), seed, c), q) == WHITE
  {
    var pic := DiagonalPicture(n);
    var below := set i, j | 0 <= j < i < n :: Point(i, j);
    forall p, m | p in below && Adjacent(p, m) && InPic(pic, m) && At(pic, m) == At(pic, seed)
      ensures m in below
    {
      assert At(pic, m) == WHITE;
      assert m.x != m.y;
      assert m == Point(m.x, m.y);
    }
    FillStopsAtBarrier(pic, seed, c, below, q);
  }
}
