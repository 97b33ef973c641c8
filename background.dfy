/**
 * The scrolling road behind the game (`Background` in js/background.js,
 * repeated in js/app.js). Each frame the image is panned right by `speed`
 * and, once the offset reaches the canvas width, it starts over at 0. The
 * two `drawImage` calls are not modelled; only the offset arithmetic is.
 */
module Scrolling {

  /**
   * The offset after one frame: it advances by exactly `speed`, or it has
   * wrapped to 0. Unless it has wrapped it lies left of the canvas edge,
   * and it never becomes negative when it starts at a non-negative offset
   * and the speed is non-negative.
   */
  function Scrolled(x: real, speed: real, canvasWidth: real): (r: real)
    ensures r == x + speed || r == 0.0
    ensures r == 0.0 || r < canvasWidth
    ensures 0.0 <= x && 0.0 <= speed ==> 0.0 <= r
    ensures x + speed < canvasWidth ==> r == x + speed
  {
    var advanced := x + speed;
    if advanced >= canvasWidth then 0.0 else advanced
  }

  /** The offset after `k` frames. */
  function ScrolledTimes(x: real, speed: real, canvasWidth: real, k: nat): (r: real)
    ensures k > 0 && canvasWidth > 0.0 ==> r < canvasWidth
    ensures 0.0 <= x && 0.0 <= speed ==> 0.0 <= r
  {
    if k == 0 then x else Scrolled(ScrolledTimes(x, speed, canvasWidth, k - 1), speed, canvasWidth)
  }

  /**
   * With the source's speed of 1 and a canvas `n` pixels wide, the offset
   * counts 0, 1, ..., n - 1 frame by frame and is back at 0 after `n`
   * frames: the road repeats with period `n`.
   */
  lemma {:induction false} ScrollPeriod(n: nat, k: nat)
    requires n >= 1 && k <= n
    ensures ScrolledTimes(0.0, 1.0, n as real, k) == if k < n then k as real else 0.0
  {
    if k > 0 {
      ScrollPeriod(n, k - 1);
    }
  }

  /** Whole periods bring the offset back to 0. */
  lemma {:induction false} ScrollCycles(n: nat, m: nat)
    requires n >= 1
    ensures ScrolledTimes(0.0, 1.0, n as real, m * n) == 0.0
  {
    if m > 0 {
      ScrollCycles(n, m - 1);
      ScrollFrom(0.0, 1.0, n as real, (m - 1) * n, n);
      ScrollPeriod(n, n);
      assert (m - 1) * n + n == m * n;
    }
  }

  /** Scrolling `a` frames and then `b` more is scrolling `a + b` frames. */
  lemma {:induction false} ScrollFrom(x: real, speed: real, canvasWidth: real, a: nat, b: nat)
    ensures ScrolledTimes(ScrolledTimes(x, speed, canvasWidth, a), speed, canvasWidth, b) ==
            ScrolledTimes(x, speed, canvasWidth, a + b)
  {
    if b > 0 {
      ScrollFrom(x, speed, canvasWidth, a, b - 1);
    }
  }

  /** The background drawable: position from `init(0, 0)`, speed 1, the canvas width of its context. */
  class Background {
    var x: real
    var y: real
    const speed: real
    const canvasWidth: real

    /** `new Background()` then `init(0, 0)` on a canvas `canvasWidth` wide. */
    constructor (canvasWidth: real)
      ensures x == 0.0 && y == 0.0 && speed == 1.0 && this.canvasWidth == canvasWidth
    {
      x := 0.0;
      y := 0.0;
      speed := 1.0;
      this.canvasWidth := canvasWidth;
    }

    /** Whether the offset lies on the canvas. */
    predicate InView()
      reads this
    {
      0.0 <= x < canvasWidth
    }

    /**
     * `draw`: pan right by `speed`, then start over at 0 once the offset
     * reaches the canvas width. Only `x` changes.
     */
    method Draw()
      modifies `x
      ensures x == Scrolled(old(x), speed, canvasWidth)
      ensures speed >= 0.0 && old(InView()) ==> InView()
    {
      x := x + speed;
      if x >= canvasWidth {
        x := 0.0;
      }
    }
  }
}
