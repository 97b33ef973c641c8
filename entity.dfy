/**
 * The pooled entity: one thrown bike lock (`bikeLock` in js/app.js).
 * Geometry and speed come from the shared Drawable base; positions,
 * speeds and sizes are exact reals. The canvas calls of `draw` are not
 * modelled, only the coordinate arithmetic and the off-field report.
 */
module Entity {

  /** The fields of one bike lock. */
  datatype Lock = Lock(x: real, y: real, width: real, height: real, speed: real, alive: bool)

  /** What one frame of `draw` leaves behind: the moved lock and whether it has left the field. */
  datatype Drawn = Drawn(lock: Lock, offField: bool)

  /** The placeholder values a dead lock carries. */
  predicate Placeholder(l: Lock)
  {
    l.x == 0.0 && l.y == 0.0 && l.speed == 0.0
  }

  /**
   * A lock as the pool creates it: `new bikeLock()` (dead, speed 0 from
   * Drawable) followed by `init(0, 0, width, height)`. It is already in
   * the cleared state.
   */
  function Dormant(width: real, height: real): (l: Lock)
    ensures Clear(l) == l
    ensures l.width == width && l.height == height
  {
    Lock(0.0, 0.0, width, height, 0.0, false)
  }

  /** `spawn`: take position and speed from the caller and come alive. */
  function Spawn(l: Lock, x: real, y: real, speed: real): (r: Lock)
    ensures r.alive && r.x == x && r.y == y && r.speed == speed
    ensures r.width == l.width && r.height == l.height
    ensures Clear(r) == Clear(l)
  {
    l.(x := x, y := y, speed := speed, alive := true)
  }

  /**
   * `draw`: move up by `speed` and report whether the lock has left the
   * field, that is, whether its new `y` is at most `-height` (the whole
   * sprite is past the top edge).
   */
  function Draw(l: Lock): (d: Drawn)
    ensures d.lock.y == l.y - l.speed
    ensures d.lock == l.(y := d.lock.y)
    ensures d.offField <==> d.lock.y + l.height <= 0.0
  {
    var moved := l.(y := l.y - l.speed);
    Drawn(moved, moved.y <= 0.0 - moved.height)
  }

  /** `clear`: back to placeholder position and speed, dead; the size is kept. */
  function Clear(l: Lock): (r: Lock)
    ensures !r.alive && Placeholder(r)
    ensures r.width == l.width && r.height == l.height
  {
    l.(x := 0.0, y := 0.0, speed := 0.0, alive := false)
  }

  /** Clearing a cleared lock changes nothing. */
  lemma ClearIdempotent(l: Lock)
    ensures Clear(Clear(l)) == Clear(l)
  {
  }

  /** The lock after `n` frames of `draw` in which it did not retire. */
  function Flown(l: Lock, n: nat): (r: Lock)
    ensures r.y == l.y - (n as real) * l.speed
    ensures r == l.(y := r.y)
  {
    if n == 0 then l
    else
      var before := Flown(l, n - 1);
      assert (n as real) * l.speed == ((n - 1) as real) * l.speed + l.speed;
      Draw(before).lock
  }

  /**
   * The draw after `n` frames in the field reports leaving it exactly when
   * the lock has then travelled at least its own `y` plus its height.
   */
  lemma {:induction false} FieldExit(l: Lock, n: nat)
    ensures Draw(Flown(l, n)).offField <==> l.y + l.height <= ((n + 1) as real) * l.speed
  {
    var before := Flown(l, n);
    assert ((n + 1) as real) * l.speed == (n as real) * l.speed + l.speed;
    assert Draw(before).lock.y == l.y - ((n + 1) as real) * l.speed;
  }
}
