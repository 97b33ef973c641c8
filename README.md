# Bike-lock pool, player movement, keys and scrolling road

This project models the game logic of a small HTML5 canvas shooter in
which a biker throws bike locks up the screen. It covers five parts of
`js/app.js` and `js/background.js`:

- **`entity.dfy`, module `Entity`.** This models the pooled entity
  `bikeLock`. It has a record `Lock` and the pure steps `Spawn`, `Draw`
  and `Clear`. `Draw` moves a lock up by its speed and reports whether it
  has left the field, that is, whether `y <= -height`.
- **`pool.dfy`, module `ObjectPool`.** This models the fixed-capacity
  `Pool`, as a class whose `seq<Lock>` field its methods reassign the way
  the source's array is changed by `pop`/`unshift` and `splice`/`push`.
  - `Get`, `GetTwo` and `Animate` are each proved against a specification
    function: `Got`, `GotTwo` and `Animated`.
  - `Animated` is built from `Scan`, one pass over the pool in its order
    at the start of the frame.
  - The lemmas say what the pool promises:
    - the live locks stay a contiguous prefix, and dead locks carry
      placeholder values;
    - a request is dropped exactly when the pool is full, and `getTwo` is
      all or nothing;
    - a pass draws only live locks and retires exactly those that left the
      field;
    - a pass only reorders the locks, with each drawn lock updated in
      place.
- **`biker.dfy`, module `Player`.** This models `Biker.move`. It follows
  one held direction key per frame, in the order left, right, up, down, and
  pins the biker to the edge of its strip of the canvas. The frame counter
  is counted too.
- **`keys.dfy`, module `Keys`.** This models `KEY_CODES`, the `KEY_STATUS`
  map and the `keydown`/`keyup` handlers, including the fallback from
  `keyCode` to `charCode`.
- **`background.dfy`, module `Scrolling`.** This models `Background.draw`.
  The road's offset advances by `speed` and wraps to 0 at the canvas
  width. With speed 1 on an `n`-pixel canvas it repeats with period `n`.

Positions, speeds and sizes are exact reals.

### The index step after a retirement

The loop in `animate` is commented "only draw more bikeLocks until we find
one not alive" (js/app.js:208), and it breaks at the first dead lock. But
it removes a retiring lock with `splice(i, 1)` and then still executes
`i++` (js/app.js:207, 212). So the lock that slides into slot `i` is
neither examined nor drawn in that frame. If that lock is dead, the scan
also does not stop there.

The model follows the code:
- `Scan` carries a `skip` flag for the passed-over lock;
- `RetireSkipsNext` states the effect;
- `Pool.Animate` is the loop as written.

The partition invariant still holds after a pass, and that is proved. The
only consequence of the skip is that the passed-over lock is not moved in
that frame.

## Model

| member | source | states |
|---|---|---|
| Entity.Dormant | js/app.js:176-177 | a lock as the pool creates it is dead, has the sprite's size, and is already in the cleared state |
| Entity.Spawn | js/app.js:124-129 | the lock takes the given position and speed and comes alive; its size is kept, and clearing it afterwards gives the same result as clearing it before |
| Entity.Draw | js/app.js:135-145 | `y` drops by exactly `speed`; `x`, size, speed and liveness are unchanged; leaving the field is reported exactly when the new `y` plus the height is at most 0 |
| Entity.Clear | js/app.js:148-153 | the lock is dead with `x = y = speed = 0`, and its size is kept |
| Entity.ClearIdempotent | js/app.js:148-153 | clearing twice is clearing once |
| Entity.Flown | js/app.js:137 | after `n` frames in the field, `y` has dropped by `n * speed` and nothing else has changed |
| Entity.FieldExit | js/app.js:137-141 | the draw after `n` frames in the field reports leaving it exactly when the lock has then travelled, in `n + 1` steps of `speed`, at least its `y` plus its height |
| ObjectPool.PartitionBoundary | js/app.js:185 | a pool is partitioned exactly when slot `k` is alive iff `k` is below the live count, so one boundary slot tells whether a slot is free |
| ObjectPool.Got | js/app.js:184-189 | `get` keeps the pool's length, and either leaves the pool unchanged or puts a live lock in front of all locks but the old tail, in their order |
| ObjectPool.GotMovesTailToHead | js/app.js:184-189 | if the tail lock is dead, it takes the given position and speed, comes alive and becomes the head, the others shift one place in order, and the multiset changes only by that lock; if the tail lock is alive, nothing changes |
| ObjectPool.GotKeepsInvariant | js/app.js:184-189 | `get` keeps the live locks a prefix and the dead locks placeholders |
| ObjectPool.GotKeepsPartition | js/app.js:184-189 | `get` keeps the live locks a prefix, whatever values the locks carry |
| ObjectPool.GotCount | js/app.js:184-189 | on a partitioned pool, `get` adds one live lock exactly when the pool is not full, and leaves the pool unchanged exactly when it is full |
| ObjectPool.GotDeadTailCount | js/app.js:185-187 | spawning a dead tail lock adds one to the live count |
| ObjectPool.GotTwo | js/app.js:195-201 | `getTwo` keeps the pool's length, and either leaves the pool unchanged or puts two live locks in front of all locks but the old two tail locks, in their order |
| ObjectPool.GotTwoAllOrNothing | js/app.js:195-201 | with two free slots, both locks are spawned (the second request's lock ends up first) and the count rises by two; otherwise the pool is unchanged, including when exactly one slot is free |
| ObjectPool.GotTwoSpawnsBoth | js/app.js:195-200 | the two-free-slots case of `getTwo`, written out |
| ObjectPool.GotTwoKeepsInvariant | js/app.js:195-201 | `getTwo` keeps the pool invariant |
| ObjectPool.GotAll | js/app.js:184-189 | a run of `get` calls keeps the pool's length, and on a pool whose every lock is alive it changes nothing |
| ObjectPool.CapacityCeiling | js/app.js:184-189 | after a run of `get` calls, the live count is the old count plus the number of requests, capped at the capacity; once the pool is full, every further request is dropped |
| ObjectPool.Retirees | js/app.js:210-212 | the locks retired from a list of drawn locks are all dead placeholders, at most one per drawn lock |
| ObjectPool.Scan | js/app.js:206-219 | one pass keeps every lock, either ahead of the tail or retired to it |
| ObjectPool.ScanRetiresDrawn | js/app.js:209-212 | `draw` is called only on live locks, and the retired locks are exactly the drawn ones that left the field, cleared and in the order drawn |
| ObjectPool.ScanDrawsFromPool | js/app.js:207-217 | each lock is drawn at most once, and only locks of the pool are drawn, so never more locks than are alive |
| ObjectPool.ScanCount | js/app.js:209-212 | the kept locks lost exactly the retired ones from the live count |
| ObjectPool.RetireSkipsNext | js/app.js:207-212 | after a retirement, the lock that slides into the freed index is passed over unchanged and is not drawn |
| ObjectPool.Animated | js/app.js:206-219 | a pass leaves the pool's length unchanged |
| ObjectPool.Touched | js/app.js:209-211 | a lock changes in a pass only if it was alive, and then only into its drawn version or its drawn-and-cleared version |
| ObjectPool.ScanPermutes | js/app.js:210-212 | the kept and retired locks together are a permutation of the locks updated in place |
| ObjectPool.AnimatedPermutes | js/app.js:206-219 | the pool after a pass is a permutation of the pool with each drawn lock updated in place |
| ObjectPool.ScanKeepsInvariant | js/app.js:206-219 | on a partitioned pool, the kept part of a pass stays partitioned, stays all dead if the pool was, and keeps dead locks placeholders if they were before |
| ObjectPool.AnimatedKeepsPartition | js/app.js:206-219 | a pass keeps the live locks a prefix |
| ObjectPool.AnimatedKeepsInvariant | js/app.js:206-219 | a pass keeps the live locks a prefix and the dead locks placeholders |
| ObjectPool.AnimatedFreesRetiredSlots | js/app.js:206-219 | a pass draws at most as many locks as are alive, the live count drops by the number retired, and after any retirement the next `get` succeeds |
| ObjectPool.Pool.constructor | js/app.js:168-170 | a new pool has the given capacity and an empty array |
| ObjectPool.Pool.Init | js/app.js:173-180 | every one of the `size` slots holds a dormant lock of the sprite's size, and the pool invariant holds |
| ObjectPool.Pool.Get | js/app.js:184-189 | the new pool is `Got` of the old one, and the invariant is kept |
| ObjectPool.Pool.GetTwo | js/app.js:195-201 | the new pool is `GotTwo` of the old one, and the invariant is kept |
| ObjectPool.Pool.Animate | js/app.js:206-219 | the loop as written (including the index step after a splice) leaves the pool as `Animated`, calls `draw` on exactly the locks `Scan` draws, and keeps the invariant |
| Keys.CodeOf | js/app.js:379-385 | every action has a code in `KEY_CODES` that maps back to it |
| Keys.CodesDistinct | js/app.js:379-385 | no two codes map to the same action |
| Keys.EffectiveCode | js/app.js:399 | the code used is `keyCode` when it is non-zero and `charCode` otherwise; it is 0 only when both are |
| Keys.ActionOf | js/app.js:399-400 | an event has an action exactly when its code is in `KEY_CODES`, and then the action's code is that code |
| Keys.Keyed | js/app.js:397-414 | a mapped event sets its action's flag to the given value and leaves every other flag alone; an unmapped event leaves the map unchanged |
| Keys.ReleaseAfterPress | js/app.js:397-414 | a keyup after a keydown of the same key leaves that action released |
| Keys.KeyedIdempotent | js/app.js:397-414 | repeating a key event changes nothing further |
| Keys.KeyedCommute | js/app.js:397-414 | events on different actions commute |
| Keys.KeyStatus.constructor | js/app.js:390-393 | every action has a flag, and no flag is set |
| Keys.KeyStatus.OnKeyDown | js/app.js:397-404 | the new map is `Keyed` with `true`, and a map with a flag for every action keeps one |
| Keys.KeyStatus.OnKeyUp | js/app.js:407-414 | the new map is `Keyed` with `false`, and a map with a flag for every action keeps one |
| Player.Steered | js/app.js:243-273 | at most one coordinate changes, following only the first held key among left, right, up and down; the moved coordinate moves by exactly `speed` whenever that stays short of the edge it moves towards, and otherwise is pinned to that edge; with no key held nothing moves; a biker on screen stays on screen |
| Player.SteeredTimes | js/app.js:240-276 | a biker on screen stays on screen over any number of frames |
| Player.LeftRun | js/app.js:249-255 | holding left moves the biker exactly `n * speed` in `n` frames while it stays clear of the left edge |
| Player.LeftEdgeReached | js/app.js:249-255 | holding left for `n` frames with `n * speed >= x` leaves the biker at `x = 0` |
| Player.Biker.constructor | js/app.js:231-235 | a new biker has speed 3, the given position, size and canvas, and a zero counter |
| Player.Biker.Move | js/app.js:240-276 | the counter goes up by one and the position becomes `Steered` of the old one |
| Scrolling.Scrolled | js/background.js:8-21 | the offset advances by exactly `speed` or wraps to 0; unless it wrapped it is left of the canvas edge; it stays non-negative from a non-negative start |
| Scrolling.ScrolledTimes | js/background.js:8-21 | after at least one frame on a canvas of positive width the offset is left of the edge, and it stays non-negative |
| Scrolling.ScrollPeriod | js/background.js:4-21 | with speed 1 on an `n`-pixel canvas, the offset after `k < n` frames from 0 is `k`, and after `n` frames it is 0 |
| Scrolling.ScrollCycles | js/background.js:4-21 | any whole number of periods brings the offset back to 0 |
| Scrolling.ScrollFrom | js/background.js:8-21 | `a` frames and then `b` more are `a + b` frames |
| Scrolling.Background.constructor | js/background.js:4 | a new background has speed 1 and offset 0 |
| Scrolling.Background.Draw | js/background.js:8-21 | only `x` changes, it becomes `Scrolled` of the old value, and an offset on the canvas stays on the canvas |

## Left out

- The canvas calls are not modelled. These are `clearRect` and `drawImage` in `bikeLock.draw`, `Biker.draw`, `Biker.move` and `Background.draw`. They are output only; the model keeps the coordinate arithmetic. The swapped width and height in `Biker.move`'s `clearRect` belong to this output too.
- Image loading (`imageRepo`), `Game.init`, `Game.start`, the frame driver `animate()` and the `requestAnimFrame` shim are not modelled. They are browser set-up and scheduling. The sprite and canvas sizes they supply are parameters instead.
- `event.preventDefault()` in the key handlers is not modelled. It is browser I/O.
- `KEY_STATUS` is a global. `Biker.move` reads it; in the model the flags are passed to `Move` as a parameter.
- The `Drawable` base (js/drawable.js and its copy in js/app.js) has no behaviour of its own. Its fields are folded into `Lock`, `Biker` and `Background`.
- The biker's own pool (`new Pool(30)` and `init()`, js/app.js:232-233) is not modelled. Neither is `fire`, which is defined inside `move` and never called (js/app.js:279-284). `GetTwo` is modelled directly.
- `fireRate` is not modelled, because nothing reads it.
- Two naming slips are not reproduced. The prototype is assigned to `BikeLock` while the constructor is `bikeLock`, and `let bikeLock = new bikeLock()` shadows the constructor. The model creates the dormant lock that was evidently intended.
- Locks are records, not objects with identity. So "the multiset of entities is preserved" is stated over values: the pool after a pass is a permutation of the pool with each drawn lock updated in place.
- JavaScript numbers are replaced by exact reals. So rounding and `NaN` are not modelled. A falsy `keyCode` or `charCode` (absent, `undefined`, 0) is written 0.
- Entity.Draw: the model returns the off-field flag as a boolean. The source returns `true` or `undefined`, which `animate` tests for truthiness.
- ObjectPool.Pool.Get: requires `size >= 1`. On an empty pool the source reads `pool[-1].alive`; `pool[-1]` is `undefined`, so the call throws.
- ObjectPool.Pool.GetTwo: requires `size >= 2`. The source only calls it on the pool made by `new Pool(30)` (js/app.js:232, 283). On a one-slot pool whose lock is alive, the `&&` at js/app.js:196-197 short-circuits and the call does nothing; if that lock is dead, the source reads `pool[-1].alive` and throws. Neither case is modelled.
- ObjectPool.Pool.Init: requires an empty array or one of length `size`. These are the only arrays the source can hold.
- ObjectPool.Pool.Animate: the list of drawn locks it returns is ghost. It exists only to state which locks `draw` was called on.
