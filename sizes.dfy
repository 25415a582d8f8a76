/** The frame's three size counters (pen, eraser, shape). Each "+" button adds
    a step and clamps at the maximum with `Math.min`; each "-" button takes a
    step away and clamps at the minimum with `Math.max`. */
module Sizes {

  /** A counter's range, its step and the value it starts from. */
  datatype Counter = Counter(min: int, max: int, step: int, initial: int)

  /** `penSize`: 12, moved by 2 within [2, 30]. */
  const PEN := Counter(2, 30, 2, 12)
  /** `eraserSize`: 42, moved by 4 within [6, 50]. */
  const ERASER := Counter(6, 50, 4, 42)
  /** `shapeSize`: 36, moved by 8 within [16, 120]. */
  const SHAPE := Counter(16, 120, 8, 36)

  /** A usable counter: a positive step and a start inside its range. */
  predicate WellFormed(c: Counter) {
    c.step > 0 && c.min <= c.initial <= c.max
  }

  predicate InRange(c: Counter, n: int) {
    c.min <= n <= c.max
  }

  /** The "+" button: `Math.min(max, n + step)`. */
  function Increased(c: Counter, n: int): (r: int)
    ensures r <= c.max && r <= n + c.step
    ensures r == n + c.step || r == c.max
    ensures r < c.max ==> r == n + c.step
  {
    if n + c.step <= c.max then n + c.step else c.max
  }

  /** The "-" button: `Math.max(min, n - step)`. */
  function Decreased(c: Counter, n: int): (r: int)
    ensures c.min <= r && n - c.step <= r
    ensures r == n - c.step || r == c.min
    ensures c.min < r ==> r == n - c.step
  {
    if n - c.step >= c.min then n - c.step else c.min
  }

  /** Both buttons keep a value of the range inside it. */
  lemma ButtonsKeepRange(c: Counter, n: int)
    requires WellFormed(c) && InRange(c, n)
    ensures InRange(c, Increased(c, n)) && InRange(c, Decreased(c, n))
  {
  }

  /** "-" undoes "+" unless "+" was clamped, and "+" undoes "-" unless "-" was clamped. */
  lemma ButtonsUndoEachOther(c: Counter, n: int)
    requires WellFormed(c) && InRange(c, n)
    ensures n + c.step <= c.max ==> Decreased(c, Increased(c, n)) == n
    ensures n - c.step >= c.min ==> Increased(c, Decreased(c, n)) == n
  {
  }

  /** The ends of the range are fixed points of their buttons. */
  lemma ButtonsSaturate(c: Counter)
    requires WellFormed(c)
    ensures Increased(c, c.max) == c.max && Decreased(c, c.min) == c.min
  {
  }

  /** A button press on the counter. */
  datatype Press = Plus | Minus

  function Pressed(c: Counter, n: int, p: Press): int {
    match p
    case Plus => Increased(c, n)
    case Minus => Decreased(c, n)
  }

  /** The counter's value after a sequence of presses, the first press first. */
  function AfterPresses(c: Counter, n: int, presses: seq<Press>): int
    decreases |presses|
  {
    if presses == [] then n else AfterPresses(c, Pressed(c, n, presses[0]), presses[1..])
  }

  /** Whatever is pressed, a counter that starts in its range stays in it. */
  lemma {:induction false} PressesKeepRange(c: Counter, n: int, presses: seq<Press>)
    requires WellFormed(c) && InRange(c, n)
    ensures InRange(c, AfterPresses(c, n, presses))
    decreases |presses|
  {
    if presses != [] {
      ButtonsKeepRange(c, n);
      PressesKeepRange(c, Pressed(c, n, presses[0]), presses[1..]);
    }
  }

  /** `a` is a whole multiple of `g`. */
  ghost predicate Multiple(a: int, g: int) {
    exists k :: a == k * g
  }

  lemma MultipleSum(a: int, b: int, g: int)
    requires Multiple(a, g) && Multiple(b, g)
    ensures Multiple(a + b, g) && Multiple(a - b, g)
  {
    var i :| a == i * g;
    var j :| b == j * g;
    assert a + b == (i + j) * g;
    assert a - b == (i - j) * g;
  }

  /** When the step is a multiple of `g` and both ends of the range lie a
      multiple of `g` away from `base`, every value reached from such a value
      stays a multiple of `g` away from `base`. */
  lemma {:induction false} PressesKeepResidue(c: Counter, n: int, base: int, g: int, presses: seq<Press>)
    requires Multiple(c.step, g) && Multiple(c.min - base, g) && Multiple(c.max - base, g)
    requires Multiple(n - base, g)
    ensures Multiple(AfterPresses(c, n, presses) - base, g)
    decreases |presses|
  {
    if presses != [] {
      var m := Pressed(c, n, presses[0]);
      MultipleSum(n - base, c.step, g);
      assert m - base == (n - base) + c.step || m - base == (n - base) - c.step
          || m - base == c.max - base || m - base == c.min - base;
      PressesKeepResidue(c, m, base, g, presses[1..]);
    }
  }

  /** `k` "+" presses in a row. */
  function Pluses(k: nat): (r: seq<Press>)
    ensures |r| == k && forall i :: 0 <= i < k ==> r[i] == Plus
  {
    if k == 0 then [] else [Plus] + Pluses(k - 1)
  }

  /** Enough "+" presses always reach the maximum, and stay there. */
  lemma {:induction false} PlusesReachMax(c: Counter, n: int, k: nat)
    requires WellFormed(c) && InRange(c, n) && n + k * c.step >= c.max
    ensures AfterPresses(c, n, Pluses(k)) == c.max
    decreases k
  {
    if k > 0 {
      var m := Increased(c, n);
      assert Pluses(k)[1..] == Pluses(k - 1);
      if m == c.max {
        AllPlusesAtMax(c, k - 1);
      } else {
        assert m + (k - 1) * c.step == n + k * c.step;
        PlusesReachMax(c, m, k - 1);
      }
    }
  }

  lemma {:induction false} AllPlusesAtMax(c: Counter, k: nat)
    requires WellFormed(c)
    ensures AfterPresses(c, c.max, Pluses(k)) == c.max
  {
    if k > 0 {
      assert Pluses(k)[1..] == Pluses(k - 1);
      AllPlusesAtMax(c, k - 1);
    }
  }

  /** The three counters of the frame are well formed and, whatever is
      pressed, stay in their ranges; the pen size is always even, the eraser
      size is always 2 modulo 4 and the shape size always a multiple of 4. */
  lemma FrameCounters(presses: seq<Press>)
    ensures WellFormed(PEN) && WellFormed(ERASER) && WellFormed(SHAPE)
    ensures InRange(PEN, AfterPresses(PEN, PEN.initial, presses))
    ensures InRange(ERASER, AfterPresses(ERASER, ERASER.initial, presses))
    ensures InRange(SHAPE, AfterPresses(SHAPE, SHAPE.initial, presses))
    ensures AfterPresses(PEN, PEN.initial, presses) % 2 == 0
    ensures AfterPresses(ERASER, ERASER.initial, presses) % 4 == 2
    ensures AfterPresses(SHAPE, SHAPE.initial, presses) % 4 == 0
  {
    PressesKeepRange(PEN, PEN.initial, presses);
    PressesKeepRange(ERASER, ERASER.initial, presses);
    PressesKeepRange(SHAPE, SHAPE.initial, presses);
    assert Multiple(2, 2) && Multiple(-10, 2) && Multiple(18, 2) && Multiple(0, 2) by {
      assert 2 == 1 * 2 && -10 == -5 * 2 && 18 == 9 * 2 && 0 == 0 * 2;
    }
    PressesKeepResidue(PEN, 12, 12, 2, presses);
    var p := AfterPresses(PEN, 12, presses);
    var i :| p - 12 == i * 2;
    assert Multiple(4, 4) && Multiple(-36, 4) && Multiple(8, 4) && Multiple(0, 4) by {
      assert 4 == 1 * 4 && -36 == -9 * 4 && 8 == 2 * 4 && 0 == 0 * 4;
    }
    PressesKeepResidue(ERASER, 42, 42, 4, presses);
    var e := AfterPresses(ERASER, 42, presses);
    var j :| e - 42 == j * 4;
    assert Multiple(8, 4) && Multiple(-20, 4) && Multiple(84, 4) by {
      assert 8 == 2 * 4 && -20 == -5 * 4 && 84 == 21 * 4;
    }
    PressesKeepResidue(SHAPE, 36, 36, 4, presses);
    var s := AfterPresses(SHAPE, 36, presses);
    var k :| s - 36 == k * 4;
  }

  /** The shape size does not stay on its start's steps of 8: from 36 it
      reaches 116, is clamped to 120, and then comes back down to 112. */
  lemma ShapeLeavesItsSteps()
    ensures AfterPresses(SHAPE, SHAPE.initial, Pluses(11)) == 120
    ensures Decreased(SHAPE, 120) == 112 && (112 - SHAPE.initial) % SHAPE.step != 0
  {
    PlusesReachMax(SHAPE, SHAPE.initial, 11);
  }
}
