/** The paint bucket: a queue-driven, 4-connected fill that recolours the
    image buffer in place. */
module FloodFill {
  import opened Raster

  // ---------------------------------------------------------------------------
  // The state of the fill loop, as values

  /** `cur` is the original `pic` with exactly the pixels of `done` recoloured
      to `c`, each of them inside the picture and in the seed's region. */
  ghost predicate Recoloured(pic: Picture, cur: Picture, seed: Point, c: int, done: set<Point>)
    requires InPic(pic, seed)
  {
    && |cur| == |pic|
    && (forall i :: 0 <= i < |pic| ==> |cur[i]| == |pic[i]|)
    && (forall q :: q in done ==> InPic(pic, q))
    && (forall i, j :: 0 <= i < |pic| && 0 <= j < |pic[i]| ==>
          if Point(i, j) in done then cur[i][j] == c && InRegion(pic, seed, Point(i, j))
          else cur[i][j] == pic[i][j])
  }

  /** Every queued pixel of the seed's colour belongs to the seed's region. */
  ghost predicate QueueInRegion(pic: Picture, seed: Point, queue: seq<Point>)
    requires InPic(pic, seed)
  {
    forall q :: q in queue && InPic(pic, q) && At(pic, q) == At(pic, seed) ==> InRegion(pic, seed, q)
  }

  /** No target-coloured neighbour of a recoloured pixel is lost: it is
      recoloured already or still waits in the queue. */
  ghost predicate Frontier(pic: Picture, target: int, done: set<Point>, queue: seq<Point>) {
    forall p, n :: p in done && Adjacent(p, n) ==>
      !InPic(pic, n) || n in done || At(pic, n) != target || n in queue
  }

  /** No position occurs twice. */
  predicate Distinct(s: seq<Point>) {
    forall k, l :: 0 <= k < l < |s| ==> s[k] != s[l]
  }

  /** What holds at the head of the fill loop: `cur` is the image, `done` the
      visited positions, `recoloured` the pixels written so far, in order. */
  ghost predicate FillState(pic: Picture, seed: Point, c: int, cur: Picture, done: set<Point>,
                            queue: seq<Point>, recoloured: seq<Point>)
    requires InPic(pic, seed)
  {
    && Recoloured(pic, cur, seed, c, done)
    && QueueInRegion(pic, seed, queue)
    && Frontier(pic, At(pic, seed), done, queue)
    && (seed in done || seed in queue)
    && (forall q :: q in done <==> q in recoloured)
    && Distinct(recoloured)
  }

  /** `cur` with pixel `p` set to `c`, as `setRGB` does. */
  function SetPixel(cur: Picture, p: Point, c: int): (r: Picture)
    requires InPic(cur, p)
    ensures |r| == |cur| && forall i :: 0 <= i < |cur| ==> |r[i]| == |cur[i]|
  {
    cur[p.x := cur[p.x][p.y := c]]
  }

  lemma StartState(pic: Picture, seed: Point, c: int)
    requires InPic(pic, seed)
    ensures FillState(pic, seed, c, pic, {}, [seed], [])
  {
    SeedInRegion(pic, seed);
  }

  /** A head that is outside the picture, visited already or of another colour
      is dropped and nothing else changes. */
  lemma SkipStep(pic: Picture, seed: Point, c: int, cur: Picture, done: set<Point>,
                 queue: seq<Point>, recoloured: seq<Point>)
    requires InPic(pic, seed) && FillState(pic, seed, c, cur, done, queue, recoloured) && queue != []
    requires !InPic(cur, queue[0]) || queue[0] in done || At(cur, queue[0]) != At(pic, seed)
    ensures FillState(pic, seed, c, cur, done, queue[1..], recoloured)
  {
    var p := queue[0];
    assert queue == [p] + queue[1..];
    forall q | q in queue[1..] ensures q in queue {
    }
    if InPic(cur, p) && p !in done {
      assert cur[p.x][p.y] == pic[p.x][p.y];
    }
  }

  /** Recolouring one more region pixel keeps `Recoloured`. */
  lemma VisitRecolours(pic: Picture, seed: Point, c: int, cur: Picture, done: set<Point>, p: Point)
    requires InPic(pic, seed) && Recoloured(pic, cur, seed, c, done)
    requires InPic(pic, p) && InRegion(pic, seed, p)
    ensures InPic(cur, p)
    ensures Recoloured(pic, SetPixel(cur, p, c), seed, c, done + {p})
  {
  }

  /** A head of the seed's colour not visited yet is recoloured and its four
      neighbours are enqueued. */
  lemma VisitStep(pic: Picture, seed: Point, c: int, cur: Picture, done: set<Point>,
                  queue: seq<Point>, recoloured: seq<Point>)
    requires InPic(pic, seed) && FillState(pic, seed, c, cur, done, queue, recoloured) && queue != []
    requires InPic(cur, queue[0]) && queue[0] !in done && At(cur, queue[0]) == At(pic, seed)
    ensures InPic(cur, queue[0])
    ensures FillState(pic, seed, c, SetPixel(cur, queue[0], c), done + {queue[0]},
                      queue[1..] + Neighbours(queue[0]), recoloured + [queue[0]])
  {
    var p := queue[0];
    var rest, more := queue[1..], Neighbours(p);
    assert queue == [p] + rest;
    assert At(pic, p) == At(pic, seed) by {
      assert cur[p.x][p.y] == pic[p.x][p.y];
    }
    assert InRegion(pic, seed, p);
    VisitRecolours(pic, seed, c, cur, done, p);
    // the queue stays inside the region
    forall q | q in rest + more && InPic(pic, q) && At(pic, q) == At(pic, seed)
      ensures InRegion(pic, seed, q)
    {
      if q in more {
        RegionStep(pic, seed, p, q);
      } else {
        assert q in queue;
      }
    }
    // the frontier is kept
    forall v, n | v in done + {p} && Adjacent(v, n)
      ensures !InPic(pic, n) || n in done + {p} || At(pic, n) != At(pic, seed) || n in rest + more
    {
      if v == p {
        assert n in more;
      }
    }
    assert p !in recoloured;
  }

  /** When the queue has run dry, the visited positions are exactly the region. */
  lemma FinishedFill(pic: Picture, seed: Point, c: int, cur: Picture, done: set<Point>, recoloured: seq<Point>)
    requires InPic(pic, seed) && FillState(pic, seed, c, cur, done, [], recoloured)
    ensures cur == Filled(pic, seed, c)
    ensures Distinct(recoloured)
    ensures forall q :: q in recoloured <==> InRegion(pic, seed, q)
  {
    RegionWithinClosedSet(pic, seed, done);
    forall q | q in done ensures InRegion(pic, seed, q) {
      assert cur[q.x][q.y] == c;
    }
    SamePixels(cur, Filled(pic, seed, c));
  }

  // ---------------------------------------------------------------------------
  // The image buffer and the visited array

  /** The positions a `visited` array has marked. */
  ghost function Marked(visited: array2<bool>): (r: set<Point>)
    reads visited
    ensures forall p :: p in r <==>
      0 <= p.x < visited.Length0 && 0 <= p.y < visited.Length1 && visited[p.x, p.y]
  {
    set i, j | 0 <= i < visited.Length0 && 0 <= j < visited.Length1 && visited[i, j] :: Point(i, j)
  }

  /** Recolours pixel `(x, y)` with `img.setRGB` and marks it in `visited`. */
  method Recolour(img: array2<int>, visited: array2<bool>, x: int, y: int, c: int)
    requires 0 <= x < img.Length0 && 0 <= y < img.Length1
    requires 0 <= x < visited.Length0 && 0 <= y < visited.Length1
    modifies img, visited
    ensures Pixels(img) == SetPixel(old(Pixels(img)), Point(x, y), c)
    ensures Marked(visited) == old(Marked(visited)) + {Point(x, y)}
  {
    img[x, y] := c;
    visited[x, y] := true;
    SamePixels(Pixels(img), SetPixel(old(Pixels(img)), Point(x, y), c));
  }

  /** Replaces the region of the seed `(x, y)` by `fillColor`. The seed must lie
      inside the image (reading it is not bounds-checked); neighbours outside
      the image are skipped. `recoloured` lists the pixels written, in order. */
  method FloodFill(img: array2<int>, x: int, y: int, fillColor: int) returns (ghost recoloured: seq<Point>)
    requires 0 <= x < img.Length0 && 0 <= y < img.Length1
    modifies img
    ensures Pixels(img) == Filled(old(Pixels(img)), Point(x, y), fillColor)
    ensures old(img[x, y]) == fillColor ==> recoloured == [] && unchanged(img)
    ensures Distinct(recoloured)
    ensures forall p :: p in recoloured <==>
      old(img[x, y]) != fillColor && InRegion(old(Pixels(img)), Point(x, y), p)
  {
    ghost var pic := Pixels(img);
    ghost var seed := Point(x, y);
    var targetColor := img[x, y];
    var replaceColor := fillColor;
    if targetColor == replaceColor {
      FillWithSeedColourIsNoOp(pic, seed, fillColor);
      return [];
    }
    var width := img.Length0;
    var height := img.Length1;
    var visited := new bool[width, height]((i, j) => false);
    var queue := [Point(x, y)];
    recoloured := [];
    ghost var grid := Positions(width, height);
    ghost var done: set<Point> := {};
    ghost var cur := pic;
    StartState(pic, seed, replaceColor);
    while queue != []
      invariant FillState(pic, seed, replaceColor, cur, done, queue, recoloured)
      invariant Pixels(img) == cur
      invariant Marked(visited) == done
      invariant done <= grid
      decreases grid - done, |queue|
    {
      var p := queue[0];
      var px, py := p.x, p.y;
      assert p == Point(px, py);
      // outside the image, visited already, or not of the target colour
      if px < 0 || px >= width || py < 0 || py >= height || visited[px, py] || img[px, py] != targetColor {
        SkipStep(pic, seed, replaceColor, cur, done, queue, recoloured);
        queue := queue[1..];
        continue;
      }
      VisitStep(pic, seed, replaceColor, cur, done, queue, recoloured);
      queue := queue[1..];
      Recolour(img, visited, px, py, replaceColor);
      cur := SetPixel(cur, p, replaceColor);
      done := done + {p};
      recoloured := recoloured + [p];
      queue := queue + Neighbours(p);
    }
    FinishedFill(pic, seed, replaceColor, cur, done, recoloured);
  }
}
