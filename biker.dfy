/**
 * The player (`Biker` in js/app.js). Each frame `move` counts the frame
 * and, when a direction key is held, moves the biker by `speed` along one
 * axis, pinning it to the edge of its area: horizontally the whole canvas,
 * vertically the bottom quarter. The key flags are passed in; the canvas
 * calls (`clearRect`, `drawImage`) are not modelled.
 */
module Player {
  import opened Keys

  /** A position on the biker's canvas. */
  datatype Pos = Pos(x: real, y: real)

  /** The sprite's size and the canvas it moves on. */
  datatype Area = Area(width: real, height: real, canvasWidth: real, canvasHeight: real)

  /** The top of the strip the biker may drive in: three quarters down the canvas. */
  function Top(g: Area): real
  {
    g.canvasHeight / 4.0 * 3.0
  }

  /** The sprite lies wholly inside its strip of the canvas. */
  predicate OnScreen(p: Pos, g: Area)
  {
    0.0 <= p.x <= g.canvasWidth - g.width && Top(g) <= p.y <= g.canvasHeight - g.height
  }

  /** Whether any of the four direction keys is held. */
  predicate Steering(keys: map<Action, bool>)
  {
    Held(keys, Left) || Held(keys, Right) || Held(keys, Up) || Held(keys, Down)
  }

  /**
   * Where one `move` puts the biker. Only one key counts, in the order
   * left, right, up, down, and only its axis changes. The biker moves by
   * exactly `speed` when that stays short of the edge it moves towards;
   * otherwise it is pinned to that edge. With no direction key held it
   * stays put. A biker on screen stays on screen.
   */
  function Steered(p: Pos, keys: map<Action, bool>, speed: real, g: Area): (r: Pos)
    ensures r.x == p.x || r.y == p.y
    ensures !Steering(keys) ==> r == p
    ensures Held(keys, Left) ==>
      r.y == p.y && 0.0 <= r.x && (r.x == p.x - speed || r.x == 0.0)
    ensures !Held(keys, Left) && Held(keys, Right) ==>
      r.y == p.y && r.x <= g.canvasWidth - g.width &&
      (r.x == p.x + speed || r.x == g.canvasWidth - g.width)
    ensures !Held(keys, Left) && !Held(keys, Right) && Held(keys, Up) ==>
      r.x == p.x && Top(g) <= r.y && (r.y == p.y - speed || r.y == Top(g))
    ensures !Held(keys, Left) && !Held(keys, Right) && !Held(keys, Up) && Held(keys, Down) ==>
      r.x == p.x && r.y <= g.canvasHeight - g.height &&
      (r.y == p.y + speed || r.y == g.canvasHeight - g.height)
    ensures Held(keys, Left) && p.x - speed > 0.0 ==> r.x == p.x - speed
    ensures !Held(keys, Left) && Held(keys, Right) && p.x + speed < g.canvasWidth - g.width ==>
      r.x == p.x + speed
    ensures !Held(keys, Left) && !Held(keys, Right) && Held(keys, Up) && p.y - speed > Top(g) ==>
      r.y == p.y - speed
    ensures !Held(keys, Left) && !Held(keys, Right) && !Held(keys, Up) && Held(keys, Down) &&
            p.y + speed < g.canvasHeight - g.height ==>
      r.y == p.y + speed
    ensures 0.0 <= speed && OnScreen(p, g) ==> OnScreen(r, g)
  {
    if Held(keys, Left) then
      var x := p.x - speed;
      Pos(if x <= 0.0 then 0.0 else x, p.y)
    else if Held(keys, Right) then
      var x := p.x + speed;
      Pos(if x >= g.canvasWidth - g.width then g.canvasWidth - g.width else x, p.y)
    else if Held(keys, Up) then
      var y := p.y - speed;
      Pos(p.x, if y <= Top(g) then Top(g) else y)
    else if Held(keys, Down) then
      var y := p.y + speed;
      Pos(p.x, if y >= g.canvasHeight - g.height then g.canvasHeight - g.height else y)
    else
      p
  }

  /** The biker after `n` frames with the same keys held. */
  function SteeredTimes(p: Pos, keys: map<Action, bool>, speed: real, g: Area, n: nat): (r: Pos)
    ensures 0.0 <= speed && OnScreen(p, g) ==> OnScreen(r, g)
  {
    if n == 0 then p else Steered(SteeredTimes(p, keys, speed, g, n - 1), keys, speed, g)
  }

  /** The distance covered in `n` frames at `speed` per frame. */
  function Travel(n: nat, speed: real): real
  {
    if n == 0 then 0.0 else Travel(n - 1, speed) + speed
  }

  /** `n` frames at `speed` cover `n * speed`. */
  lemma {:induction false} TravelIsProduct(n: nat, speed: real)
    ensures Travel(n, speed) == (n as real) * speed
  {
    if n > 0 {
      TravelIsProduct(n - 1, speed);
      assert (n as real) * speed == ((n - 1) as real) * speed + speed;
    }
  }

  /**
   * Holding left moves the biker exactly `speed` per frame for as long as
   * it stays clear of the left edge: after `n` frames it has moved
   * `n * speed`.
   */
  lemma LeftRun(p: Pos, keys: map<Action, bool>, speed: real, g: Area, n: nat)
    requires Held(keys, Left) && 0.0 <= speed
    requires (n as real) * speed < p.x
    ensures SteeredTimes(p, keys, speed, g, n) == Pos(p.x - (n as real) * speed, p.y)
  {
    TravelIsProduct(n, speed);
    LeftRunTravel(p, keys, speed, g, n);
  }

  lemma {:induction false} LeftRunTravel(p: Pos, keys: map<Action, bool>, speed: real, g: Area, n: nat)
    requires Held(keys, Left) && 0.0 <= speed
    requires Travel(n, speed) < p.x
    ensures SteeredTimes(p, keys, speed, g, n) == Pos(p.x - Travel(n, speed), p.y)
  {
    if n > 0 {
      LeftRunTravel(p, keys, speed, g, n - 1);
    }
  }

  /**
   * Holding left long enough reaches the left edge and stays there:
   * after `n` frames with `n * speed >= x`, the biker is at `x = 0`.
   */
  lemma LeftEdgeReached(p: Pos, keys: map<Action, bool>, speed: real, g: Area, n: nat)
    requires Held(keys, Left) && 0.0 < speed && 0.0 <= p.x
    requires p.x <= (n as real) * speed
    ensures SteeredTimes(p, keys, speed, g, n) == Pos(0.0, p.y)
  {
    TravelIsProduct(n, speed);
    LeftEdgeTravel(p, keys, speed, g, n);
  }

  lemma {:induction false} LeftEdgeTravel(p: Pos, keys: map<Action, bool>, speed: real, g: Area, n: nat)
    requires Held(keys, Left) && 0.0 < speed && 0.0 <= p.x
    requires p.x <= Travel(n, speed)
    ensures SteeredTimes(p, keys, speed, g, n) == Pos(0.0, p.y)
  {
    if n > 0 {
      var prev := SteeredTimes(p, keys, speed, g, n - 1);
      if p.x <= Travel(n - 1, speed) {
        LeftEdgeTravel(p, keys, speed, g, n - 1);
      } else {
        LeftRunTravel(p, keys, speed, g, n - 1);
      }
      PinnedLeft(prev, keys, speed, g);
    }
  }

  /** A left move that would cross the left edge stops at it. */
  lemma PinnedLeft(q: Pos, keys: map<Action, bool>, speed: real, g: Area)
    requires Held(keys, Left) && q.x - speed <= 0.0
    ensures Steered(q, keys, speed, g) == Pos(0.0, q.y)
  {
  }

  /** The biker's state: position, frame counter, and the fixed sprite and canvas sizes. */
  class Biker {
    var x: real
    var y: real
    var counter: int
    const speed: real
    const width: real
    const height: real
    const canvasWidth: real
    const canvasHeight: real

    /** `new Biker()` then `init(x, y, width, height)` on a canvas of the given size. */
    constructor (x: real, y: real, width: real, height: real, canvasWidth: real, canvasHeight: real)
      ensures this.x == x && this.y == y && counter == 0 && speed == 3.0
      ensures this.width == width && this.height == height
      ensures this.canvasWidth == canvasWidth && this.canvasHeight == canvasHeight
    {
      this.x := x;
      this.y := y;
      counter := 0;
      speed := 3.0;
      this.width := width;
      this.height := height;
      this.canvasWidth := canvasWidth;
      this.canvasHeight := canvasHeight;
    }

    function Bounds(): Area
      reads this
    {
      Area(width, height, canvasWidth, canvasHeight)
    }

    /** `move`: count the frame, then follow the first held direction key. */
    method Move(keys: map<Action, bool>)
      modifies this
      ensures counter == old(counter) + 1
      ensures Pos(x, y) == Steered(old(Pos(x, y)), keys, speed, Bounds())
    {
      counter := counter + 1;
      if Held(keys, Left) || Held(keys, Right) || Held(keys, Up) || Held(keys, Down) {
        if Held(keys, Left) {
          x := x - speed;
          if x <= 0.0 {
            x := 0.0;
          }
        } else if Held(keys, Right) {
          x := x + speed;
          if x >= canvasWidth - width {
            x := canvasWidth - width;
          }
        } else if Held(keys, Up) {
          y := y - speed;
          if y <= canvasHeight / 4.0 * 3.0 {
            y := canvasHeight / 4.0 * 3.0;
          }
        } else if Held(keys, Down) {
          y := y + speed;
          if y >= canvasHeight - height {
            y := canvasHeight - height;
          }
        }
      }
    }
  }
}
