/**
 * The fixed-capacity object pool of bike locks (`Pool` in js/app.js).
 *
 * The pool's array is used as a list (`unshift`, `pop`, `splice`, `push`),
 * so the class keeps it as a `seq<Lock>` field that its methods reassign.
 * Each operation is specified by a function on the sequence (`Got`,
 * `GotTwo`, `Animated`) and the lemmas below say what those functions
 * promise: the live locks stay a contiguous prefix, dead locks carry
 * placeholders, requests are dropped exactly when the pool is full, and a
 * frame draws only live locks and retires exactly those that left the field.
 */
module ObjectPool {
  import opened Entity

  /** Every live lock comes before every dead one. */
  predicate Partitioned(s: seq<Lock>)
  {
    forall i, j :: 0 <= i < j < |s| && s[j].alive ==> s[i].alive
  }

  /** Dead locks carry placeholder position and speed. */
  predicate DeadArePlaceholders(s: seq<Lock>)
  {
    forall k :: 0 <= k < |s| && !s[k].alive ==> Placeholder(s[k])
  }

  /** The invariant the pool keeps between frames. */
  predicate PoolInvariant(s: seq<Lock>)
  {
    Partitioned(s) && DeadArePlaceholders(s)
  }

  /** The number of live locks. */
  function AliveCount(s: seq<Lock>): (n: nat)
    ensures n <= |s|
  {
    if s == [] then 0 else (if s[0].alive then 1 else 0) + AliveCount(s[1..])
  }

  lemma {:induction false} AliveCountConcat(a: seq<Lock>, b: seq<Lock>)
    ensures AliveCount(a + b) == AliveCount(a) + AliveCount(b)
  {
    if a == [] {
      assert a + b == b;
    } else {
      assert (a + b)[1..] == a[1..] + b;
      AliveCountConcat(a[1..], b);
    }
  }

  /**
   * The pool is partitioned exactly when its live locks are the first
   * `AliveCount` ones, so the boundary element decides whether a slot is free.
   */
  lemma {:induction false} PartitionBoundary(s: seq<Lock>)
    ensures Partitioned(s) <==> forall k :: 0 <= k < |s| ==> (s[k].alive <==> k < AliveCount(s))
  {
    if s != [] {
      PartitionBoundary(s[1..]);
      if Partitioned(s) {
        assert Partitioned(s[1..]) by {
          forall i, j | 0 <= i < j < |s[1..]| && s[1..][j].alive
            ensures s[1..][i].alive
          {
            assert s[i + 1] == s[1..][i] && s[j + 1] == s[1..][j];
          }
        }
        if !s[0].alive && |s| > 1 {
          assert !s[1..][0].alive by {
            assert s[1..][0] == s[1];
          }
        }
        forall k | 0 <= k < |s|
          ensures s[k].alive <==> k < AliveCount(s)
        {
          if k > 0 {
            assert s[k] == s[1..][k - 1];
          }
        }
      }
    }
  }

  /** PartitionBoundary at one index. */
  lemma BoundaryAt(s: seq<Lock>, k: int)
    requires Partitioned(s) && 0 <= k < |s|
    ensures s[k].alive <==> k < AliveCount(s)
  {
    PartitionBoundary(s);
  }

  // ---------------------------------------------------------------
  // get and getTwo
  // ---------------------------------------------------------------

  /**
   * `get`: if the tail lock is dead it is spawned and moved to the head;
   * if it is alive, the request is dropped.
   */
  function Got(s: seq<Lock>, x: real, y: real, speed: real): (r: seq<Lock>)
    requires |s| >= 1
    ensures |r| == |s|
    ensures r == s || (r[0].alive && r[1..] == s[..|s| - 1])
  {
    var last := s[|s| - 1];
    if last.alive then s else [Spawn(last, x, y, speed)] + s[..|s| - 1]
  }

  /**
   * A dead tail lock receives the given position and speed, comes alive and
   * becomes the head, the others shifting one place towards the tail in
   * their order; the pool holds the same locks but for that one.
   */
  lemma GotMovesTailToHead(s: seq<Lock>, x: real, y: real, speed: real)
    requires |s| >= 1
    ensures var r := Got(s, x, y, speed);
      var last := s[|s| - 1];
      if last.alive then r == s
      else
        && r[0].alive && r[0].x == x && r[0].y == y && r[0].speed == speed
        && r[0].width == last.width && r[0].height == last.height
        && (forall k :: 0 <= k < |s| - 1 ==> r[k + 1] == s[k])
        && multiset(r) == multiset(s) - multiset{last} + multiset{r[0]}
  {
    var last := s[|s| - 1];
    if !last.alive {
      assert s == s[..|s| - 1] + [last];
    }
  }

  lemma GotKeepsInvariant(s: seq<Lock>, x: real, y: real, speed: real)
    requires |s| >= 1 && PoolInvariant(s)
    ensures PoolInvariant(Got(s, x, y, speed))
  {
    var r := Got(s, x, y, speed);
    if !s[|s| - 1].alive {
      forall i, j | 0 <= i < j < |r| && r[j].alive
        ensures r[i].alive
      {
        if i > 0 {
          assert r[i] == s[i - 1] && r[j] == s[j - 1];
        }
      }
      forall k | 0 <= k < |r| && !r[k].alive
        ensures Placeholder(r[k])
      {
        assert k > 0 && r[k] == s[k - 1];
      }
    }
  }

  /**
   * On a partitioned pool, `get` spawns one lock exactly when the pool is
   * not full, and leaves the pool unchanged exactly when it is full.
   */
  lemma GotCount(s: seq<Lock>, x: real, y: real, speed: real)
    requires |s| >= 1 && Partitioned(s)
    ensures AliveCount(Got(s, x, y, speed)) ==
      if AliveCount(s) < |s| then AliveCount(s) + 1 else AliveCount(s)
    ensures Got(s, x, y, speed) == s <==> AliveCount(s) == |s|
  {
    var n := |s|;
    var r := Got(s, x, y, speed);
    BoundaryAt(s, n - 1);
    if s[n - 1].alive {
      assert r == s && AliveCount(s) == n;
    } else {
      GotDeadTailCount(s, x, y, speed);
      assert AliveCount(s) < n && AliveCount(r) != AliveCount(s);
    }
  }

  /** Spawning a dead tail lock adds one to the live count. */
  lemma GotDeadTailCount(s: seq<Lock>, x: real, y: real, speed: real)
    requires |s| >= 1 && !s[|s| - 1].alive
    ensures AliveCount(Got(s, x, y, speed)) == AliveCount(s) + 1
  {
    var n := |s|;
    var r := Got(s, x, y, speed);
    assert s == s[..n - 1] + [s[n - 1]];
    AliveCountConcat(s[..n - 1], [s[n - 1]]);
    assert AliveCount([s[n - 1]]) == 0;
    assert r == [r[0]] + s[..n - 1];
    AliveCountConcat([r[0]], s[..n - 1]);
  }

  /** `getTwo`: both tail locks must be dead for either to be spawned. */
  function GotTwo(s: seq<Lock>, x1: real, y1: real, speed1: real,
                  x2: real, y2: real, speed2: real): (r: seq<Lock>)
    requires |s| >= 2
    ensures |r| == |s|
    ensures r == s || (r[0].alive && r[1].alive && r[2..] == s[..|s| - 2])
  {
    if !s[|s| - 1].alive && !s[|s| - 2].alive then
      Got(Got(s, x1, y1, speed1), x2, y2, speed2)
    else
      s
  }

  /**
   * `getTwo` is all or nothing: on a partitioned pool with two free slots
   * both locks are spawned (the first request's lock ends second, the
   * second's first) and the live count rises by two; with fewer free slots,
   * in particular with exactly one, nothing changes.
   */
  lemma GotTwoAllOrNothing(s: seq<Lock>, x1: real, y1: real, speed1: real,
                           x2: real, y2: real, speed2: real)
    requires |s| >= 2 && Partitioned(s)
    ensures var r := GotTwo(s, x1, y1, speed1, x2, y2, speed2);
      var n := |s|;
      if AliveCount(s) <= n - 2 then
        && r == [Spawn(s[n - 2], x2, y2, speed2), Spawn(s[n - 1], x1, y1, speed1)] + s[..n - 2]
        && AliveCount(r) == AliveCount(s) + 2
      else
        r == s
  {
    var n := |s|;
    BoundaryAt(s, n - 2);
    if AliveCount(s) <= n - 2 {
      BoundaryAt(s, n - 1);
      GotTwoSpawnsBoth(s, x1, y1, speed1, x2, y2, speed2);
    }
  }

  /** With two free slots, `getTwo` spawns both tail locks and adds two to the count. */
  lemma GotTwoSpawnsBoth(s: seq<Lock>, x1: real, y1: real, speed1: real,
                         x2: real, y2: real, speed2: real)
    requires |s| >= 2 && Partitioned(s) && AliveCount(s) <= |s| - 2
    requires !s[|s| - 1].alive && !s[|s| - 2].alive
    ensures var r := GotTwo(s, x1, y1, speed1, x2, y2, speed2);
      && r == [Spawn(s[|s| - 2], x2, y2, speed2), Spawn(s[|s| - 1], x1, y1, speed1)] + s[..|s| - 2]
      && AliveCount(r) == AliveCount(s) + 2
  {
    var n := |s|;
    var s1 := Got(s, x1, y1, speed1);
    GotShape(s, x1, y1, speed1);
    GotCount(s, x1, y1, speed1);
    GotKeepsPartition(s, x1, y1, speed1);
    GotCount(s1, x2, y2, speed2);
  }

  /** Two `get` calls on two dead tail locks, written out. */
  lemma GotShape(s: seq<Lock>, x1: real, y1: real, speed1: real)
    requires |s| >= 2 && !s[|s| - 1].alive && !s[|s| - 2].alive
    ensures var s1 := Got(s, x1, y1, speed1);
      && s1 == [Spawn(s[|s| - 1], x1, y1, speed1)] + s[..|s| - 1]
      && s1[|s| - 1] == s[|s| - 2]
      && s1[..|s| - 1] == [Spawn(s[|s| - 1], x1, y1, speed1)] + s[..|s| - 2]
  {
    var n := |s|;
    var sp1 := Spawn(s[n - 1], x1, y1, speed1);
    assert s[..n - 1][..n - 2] == s[..n - 2];
  }

  /** `get` keeps the live locks a prefix (the partition half of GotKeepsInvariant, for any lock values). */
  lemma GotKeepsPartition(s: seq<Lock>, x: real, y: real, speed: real)
    requires |s| >= 1 && Partitioned(s)
    ensures Partitioned(Got(s, x, y, speed))
  {
    var r := Got(s, x, y, speed);
    if !s[|s| - 1].alive {
      forall i, j | 0 <= i < j < |r| && r[j].alive
        ensures r[i].alive
      {
        if i > 0 {
          assert r[i] == s[i - 1] && r[j] == s[j - 1];
        }
      }
    }
  }

  lemma GotTwoKeepsInvariant(s: seq<Lock>, x1: real, y1: real, speed1: real,
                             x2: real, y2: real, speed2: real)
    requires |s| >= 2 && PoolInvariant(s)
    ensures PoolInvariant(GotTwo(s, x1, y1, speed1, x2, y2, speed2))
  {
    if !s[|s| - 1].alive && !s[|s| - 2].alive {
      GotKeepsInvariant(s, x1, y1, speed1);
      GotKeepsInvariant(Got(s, x1, y1, speed1), x2, y2, speed2);
    }
  }

  /** A request to `get`: position and speed for the spawned lock. */
  datatype Request = Request(x: real, y: real, speed: real)

  /** Several `get` calls in a row. */
  function GotAll(s: seq<Lock>, reqs: seq<Request>): (r: seq<Lock>)
    requires |s| >= 1
    ensures |r| == |s|
    ensures (forall k :: 0 <= k < |s| ==> s[k].alive) ==> r == s
    decreases |reqs|
  {
    if reqs == [] then s
    else GotAll(Got(s, reqs[0].x, reqs[0].y, reqs[0].speed), reqs[1..])
  }

  /**
   * Capacity ceiling: each request succeeds until the pool is full, and once
   * it is full every further request is dropped without changing the pool.
   */
  lemma {:induction false} CapacityCeiling(s: seq<Lock>, reqs: seq<Request>, extra: Request)
    requires |s| >= 1 && Partitioned(s)
    ensures var r := GotAll(s, reqs);
      && Partitioned(r)
      && AliveCount(r) == (if AliveCount(s) + |reqs| <= |s| then AliveCount(s) + |reqs| else |s|)
      && (AliveCount(s) + |reqs| >= |s| ==> Got(r, extra.x, extra.y, extra.speed) == r)
    decreases |reqs|
  {
    if reqs == [] {
      GotCount(s, extra.x, extra.y, extra.speed);
    } else {
      var s1 := Got(s, reqs[0].x, reqs[0].y, reqs[0].speed);
      GotCount(s, reqs[0].x, reqs[0].y, reqs[0].speed);
      GotKeepsPartition(s, reqs[0].x, reqs[0].y, reqs[0].speed);
      CapacityCeiling(s1, reqs[1..], extra);
    }
  }

  // ---------------------------------------------------------------
  // animate
  // ---------------------------------------------------------------

  /** The outcome of one `animate` pass. */
  datatype Pass = Pass(kept: seq<Lock>, retired: seq<Lock>, drawn: seq<Lock>)

  /** The cleared locks that `draw` retires, in the order they were drawn. */
  function Retirees(drawn: seq<Lock>): (r: seq<Lock>)
    ensures |r| <= |drawn|
    ensures forall k :: 0 <= k < |r| ==> !r[k].alive && Placeholder(r[k])
  {
    if drawn == [] then []
    else
      var d := Draw(drawn[0]);
      (if d.offField then [Clear(d.lock)] else []) + Retirees(drawn[1..])
  }

  /**
   * One `animate` pass over the locks `p`, in their order at the start of
   * the pass. The loop examines a lock and draws it while it is alive and
   * stops at the first dead one it examines. A lock that leaves the field is
   * cleared and spliced out to the tail; because the index still advances
   * after the splice, the lock that slid into its place is passed over
   * without being examined or drawn (`skip`). `kept` is what stays ahead of
   * the retired locks, `retired` the cleared locks pushed to the tail, and
   * `drawn` the locks `draw` was called on.
   */
  function Scan(p: seq<Lock>, skip: bool): (r: Pass)
    ensures |r.kept| + |r.retired| == |p|
    decreases |p|
  {
    if p == [] then Pass([], [], [])
    else if skip then
      var rest := Scan(p[1..], false);
      Pass([p[0]] + rest.kept, rest.retired, rest.drawn)
    else if !p[0].alive then Pass(p, [], [])
    else
      var d := Draw(p[0]);
      if d.offField then
        var rest := Scan(p[1..], true);
        Pass(rest.kept, [Clear(d.lock)] + rest.retired, [p[0]] + rest.drawn)
      else
        var rest := Scan(p[1..], false);
        Pass([d.lock] + rest.kept, rest.retired, [p[0]] + rest.drawn)
  }

  /**
   * A pass calls `draw` only on live locks, and it retires exactly the
   * drawn locks that reported leaving the field, cleared and in the order
   * drawn.
   */
  lemma {:induction false} ScanRetiresDrawn(p: seq<Lock>, skip: bool)
    ensures var r := Scan(p, skip);
      && r.retired == Retirees(r.drawn)
      && (forall k :: 0 <= k < |r.drawn| ==> r.drawn[k].alive)
    decreases |p|
  {
    if p != [] {
      if skip {
        ScanRetiresDrawn(p[1..], false);
      } else if p[0].alive {
        var d := Draw(p[0]);
        ScanRetiresDrawn(p[1..], d.offField);
        var rest := Scan(p[1..], d.offField);
        assert ([p[0]] + rest.drawn)[1..] == rest.drawn;
      }
    }
  }

  /**
   * A pass draws each lock at most once and only locks of the pool, so
   * never more locks than are alive.
   */
  lemma {:induction false} ScanDrawsFromPool(p: seq<Lock>, skip: bool)
    ensures var r := Scan(p, skip);
      && multiset(r.drawn) <= multiset(p)
      && |r.drawn| <= AliveCount(p)
    decreases |p|
  {
    if p != [] {
      assert p == [p[0]] + p[1..];
      if skip {
        ScanDrawsFromPool(p[1..], false);
      } else if p[0].alive {
        ScanDrawsFromPool(p[1..], Draw(p[0]).offField);
      }
    }
  }

  /** The kept locks have lost exactly the retired ones from the live count. */
  lemma {:induction false} ScanCount(p: seq<Lock>, skip: bool)
    ensures var r := Scan(p, skip);
      AliveCount(r.kept) + |r.retired| == AliveCount(p)
    decreases |p|
  {
    if p != [] {
      if skip {
        ScanCount(p[1..], false);
        AliveCountConcat([p[0]], Scan(p[1..], false).kept);
      } else if p[0].alive {
        var d := Draw(p[0]);
        ScanCount(p[1..], d.offField);
        if !d.offField {
          AliveCountConcat([d.lock], Scan(p[1..], false).kept);
        }
      }
    }
  }

  /**
   * The lock right behind a retiring one is passed over: it stays first
   * among the kept locks exactly as it was, and `draw` is next called on
   * the lock after it.
   */
  lemma RetireSkipsNext(p: seq<Lock>)
    requires |p| >= 2 && p[0].alive && Draw(p[0]).offField
    ensures var r := Scan(p, false);
      && r.kept != [] && r.kept[0] == p[1]
      && r.drawn == [p[0]] + Scan(p[2..], false).drawn
  {
    assert p[1..][1..] == p[2..];
  }

  /** The pool after one `animate` pass: retired locks go to the tail. */
  function Animated(s: seq<Lock>): (r: seq<Lock>)
    ensures |r| == |s|
  {
    var pass := Scan(s, false);
    pass.kept + pass.retired
  }

  /**
   * The locks of a pass each left where it stood: a lock `draw` was called
   * on becomes its moved version, cleared if it left the field; every other
   * lock is as it was. So a lock changes only if it was alive.
   */
  function Touched(p: seq<Lock>, skip: bool): (r: seq<Lock>)
    ensures |r| == |p|
    ensures forall k :: 0 <= k < |p| ==>
      r[k] == p[k] || (p[k].alive && (r[k] == Draw(p[k]).lock || r[k] == Clear(Draw(p[k]).lock)))
    decreases |p|
  {
    if p == [] then []
    else if skip then [p[0]] + Touched(p[1..], false)
    else if !p[0].alive then p
    else
      var d := Draw(p[0]);
      (if d.offField then [Clear(d.lock)] else [d.lock]) + Touched(p[1..], d.offField)
  }

  /**
   * A pass only reorders the locks it leaves in place: what it keeps ahead
   * and what it pushes to the tail are, together, exactly the locks of
   * `Touched`, none lost and none duplicated.
   */
  lemma {:induction false} ScanPermutes(p: seq<Lock>, skip: bool)
    ensures var r := Scan(p, skip); multiset(r.kept + r.retired) == multiset(Touched(p, skip))
    decreases |p|
  {
    if p != [] {
      if skip {
        ScanPermutes(p[1..], false);
        var rest := Scan(p[1..], false);
        assert [p[0]] + rest.kept + rest.retired == [p[0]] + (rest.kept + rest.retired);
      } else if p[0].alive {
        var d := Draw(p[0]);
        ScanPermutes(p[1..], d.offField);
        var rest := Scan(p[1..], d.offField);
        if d.offField {
          assert multiset(rest.kept + ([Clear(d.lock)] + rest.retired)) ==
                 multiset([Clear(d.lock)]) + multiset(rest.kept + rest.retired);
        } else {
          assert [d.lock] + rest.kept + rest.retired == [d.lock] + (rest.kept + rest.retired);
        }
      }
    }
  }

  /** One `animate` pass is a permutation of the pool with each drawn lock updated in place. */
  lemma AnimatedPermutes(s: seq<Lock>)
    ensures multiset(Animated(s)) == multiset(Touched(s, false))
  {
    ScanPermutes(s, false);
  }

  predicate AllDead(s: seq<Lock>)
  {
    forall k :: 0 <= k < |s| ==> !s[k].alive
  }

  /** Dropping the head keeps a pool partitioned, all dead, or with dead placeholders. */
  lemma TailKeeps(p: seq<Lock>)
    requires p != []
    ensures Partitioned(p) ==> Partitioned(p[1..])
    ensures AllDead(p) ==> AllDead(p[1..])
    ensures DeadArePlaceholders(p) ==> DeadArePlaceholders(p[1..])
    ensures Partitioned(p) && !p[0].alive ==> AllDead(p[1..])
  {
    var tail := p[1..];
    forall k | 0 <= k < |tail|
      ensures tail[k] == p[k + 1]
    {
    }
  }

  /** Putting a lock in front of a pool keeps it partitioned, provided a dead head is followed by dead locks only. */
  lemma ConsKeeps(h: Lock, rest: seq<Lock>)
    ensures Partitioned(rest) && (!h.alive ==> AllDead(rest)) ==> Partitioned([h] + rest)
    ensures AllDead(rest) && !h.alive ==> AllDead([h] + rest)
    ensures DeadArePlaceholders(rest) && (!h.alive ==> Placeholder(h)) ==> DeadArePlaceholders([h] + rest)
  {
    var r := [h] + rest;
    forall k | 0 < k < |r|
      ensures r[k] == rest[k - 1]
    {
    }
  }

  /**
   * A pass keeps the kept locks partitioned with placeholder dead locks, and
   * keeps an all-dead run all dead.
   */
  lemma {:induction false} ScanKeepsInvariant(p: seq<Lock>, skip: bool)
    requires Partitioned(p)
    ensures Partitioned(Scan(p, skip).kept)
    ensures AllDead(p) ==> AllDead(Scan(p, skip).kept)
    ensures DeadArePlaceholders(p) ==> DeadArePlaceholders(Scan(p, skip).kept)
    decreases |p|
  {
    if p != [] {
      var tail := p[1..];
      TailKeeps(p);
      if skip {
        ScanKeepsInvariant(tail, false);
        ConsKeeps(p[0], Scan(tail, false).kept);
      } else if p[0].alive {
        var d := Draw(p[0]);
        ScanKeepsInvariant(tail, d.offField);
        if !d.offField {
          ConsKeeps(d.lock, Scan(tail, false).kept);
        }
      }
    }
  }

  /** Appending dead locks to a partitioned pool keeps it partitioned. */
  lemma AppendDeadKeeps(a: seq<Lock>, b: seq<Lock>)
    requires AllDead(b)
    ensures Partitioned(a) ==> Partitioned(a + b)
    ensures DeadArePlaceholders(a) && DeadArePlaceholders(b) ==> DeadArePlaceholders(a + b)
  {
    var r := a + b;
    forall k | |a| <= k < |r|
      ensures r[k] == b[k - |a|]
    {
    }
  }

  /** One `animate` pass keeps the live locks a prefix. */
  lemma AnimatedKeepsPartition(s: seq<Lock>)
    requires Partitioned(s)
    ensures Partitioned(Animated(s))
  {
    var pass := Scan(s, false);
    ScanRetiresDrawn(s, false);
    ScanKeepsInvariant(s, false);
    AppendDeadKeeps(pass.kept, pass.retired);
  }

  /** One `animate` pass keeps the live locks a prefix and the dead ones placeholders. */
  lemma AnimatedKeepsInvariant(s: seq<Lock>)
    requires PoolInvariant(s)
    ensures PoolInvariant(Animated(s))
  {
    var pass := Scan(s, false);
    ScanRetiresDrawn(s, false);
    ScanKeepsInvariant(s, false);
    AppendDeadKeeps(pass.kept, pass.retired);
  }

  /**
   * A pass never draws more locks than are alive, draws only live ones, and
   * every lock it retires frees one slot: the live count drops by the number
   * retired, so once any lock has retired the next `get` succeeds.
   */
  lemma AnimatedFreesRetiredSlots(s: seq<Lock>, x: real, y: real, speed: real)
    requires |s| >= 1 && Partitioned(s)
    ensures var pass := Scan(s, false);
      && |pass.drawn| <= AliveCount(s)
      && AliveCount(Animated(s)) == AliveCount(s) - |pass.retired|
      && (|pass.retired| > 0 ==> Got(Animated(s), x, y, speed) != Animated(s))
  {
    var pass := Scan(s, false);
    ScanDrawsFromPool(s, false);
    ScanCount(s, false);
    ScanRetiresDrawn(s, false);
    AliveCountConcat(pass.kept, pass.retired);
    AllDeadCount(pass.retired);
    AnimatedKeepsPartition(s);
    if |pass.retired| > 0 {
      GotCount(Animated(s), x, y, speed);
    }
  }

  lemma {:induction false} AllDeadCount(s: seq<Lock>)
    requires AllDead(s)
    ensures AliveCount(s) == 0
  {
    if s != [] {
      TailKeeps(s);
      AllDeadCount(s[1..]);
    }
  }

  /** A pass over `p` that follows the part already done. */
  function Joined(kept: seq<Lock>, retired: seq<Lock>, drawn: seq<Lock>, p: Pass): Pass
  {
    Pass(kept + p.kept, retired + p.retired, drawn + p.drawn)
  }

  lemma JoinedTwice(kept: seq<Lock>, retired: seq<Lock>, drawn: seq<Lock>,
                    kept1: seq<Lock>, retired1: seq<Lock>, drawn1: seq<Lock>, p: Pass)
    ensures Joined(kept, retired, drawn, Joined(kept1, retired1, drawn1, p)) ==
      Joined(kept + kept1, retired + retired1, drawn + drawn1, p)
  {
    assert kept + (kept1 + p.kept) == (kept + kept1) + p.kept;
    assert retired + (retired1 + p.retired) == (retired + retired1) + p.retired;
    assert drawn + (drawn1 + p.drawn) == (drawn + drawn1) + p.drawn;
  }

  /** At a dead lock the pass stops and leaves the rest as it is. */
  lemma ScanStops(s: seq<Lock>, j: nat)
    requires j < |s| && !s[j].alive
    ensures Scan(s[j..], false) == Pass(s[j..], [], [])
  {
  }

  /** A live lock that stays on the field is drawn and kept in place. */
  lemma ScanKeeps(s: seq<Lock>, j: nat)
    requires j < |s| && s[j].alive && !Draw(s[j]).offField
    ensures Scan(s[j..], false) ==
      Joined([Draw(s[j]).lock], [], [s[j]], Scan(s[j + 1..], false))
  {
    assert s[j..][1..] == s[j + 1..];
  }

  /**
   * A live lock that leaves the field is drawn and retired, and the lock
   * after it is passed over.
   */
  lemma ScanRetires(s: seq<Lock>, j: nat)
    requires j < |s| && s[j].alive && Draw(s[j]).offField
    ensures var j' := if j + 1 < |s| then j + 2 else j + 1;
      Scan(s[j..], false) == Joined(s[j + 1..j'], [Clear(Draw(s[j]).lock)], [s[j]], Scan(s[j'..], false))
  {
    assert s[j..][1..] == s[j + 1..];
    if j + 1 < |s| {
      assert s[j + 1..][1..] == s[j + 2..];
      assert s[j + 1..j + 2] == [s[j + 1]];
    } else {
      assert s[j + 1..j + 1] == [];
      assert s[j + 1..] == [];
    }
  }

  // Sequence identities for the list operations of the `animate` loop.

  lemma SplitAt<T>(kept: seq<T>, s: seq<T>, j: nat, retired: seq<T>)
    requires j < |s|
    ensures kept + s[j..] + retired == kept + [s[j]] + (s[j + 1..] + retired)
  {
    assert s[j..] == [s[j]] + s[j + 1..];
  }

  lemma SplitOff<T>(kept: seq<T>, s: seq<T>, j: nat, retired: seq<T>)
    requires j <= |s|
    ensures |kept + s[j..] + retired| == |kept| + (|s| - j) + |retired|
    ensures forall k :: |kept| <= k < |kept| + |s| - j ==> (kept + s[j..] + retired)[k] == s[j + k - |kept|]
    ensures forall k :: |kept| + |s| - j <= k < |kept| + |s| - j + |retired| ==>
      (kept + s[j..] + retired)[k] == retired[k - (|kept| + |s| - j)]
  {
  }

  lemma ReplaceAt<T>(a: seq<T>, x: T, y: T, b: seq<T>)
    ensures (a + [x] + b)[|a| := y] == a + [y] + b
  {
  }

  lemma SpliceToTail<T>(a: seq<T>, y: T, b: seq<T>)
    ensures var t := a + [y] + b; t[..|a|] + t[|a| + 1..] + [t[|a|]] == a + b + [y]
  {
    var t := a + [y] + b;
    assert t[..|a|] == a;
    assert t[|a| + 1..] == b;
  }

  lemma AppendDead(retired: seq<Lock>, x: Lock)
    requires AllDead(retired) && !x.alive
    ensures AllDead(retired + [x])
  {
    var r := retired + [x];
    forall k | 0 <= k < |r|
      ensures !r[k].alive
    {
      if k < |retired| {
        assert r[k] == retired[k];
      }
    }
  }

  lemma Regroup<T>(kept: seq<T>, x: T, rest: seq<T>, retired: seq<T>)
    ensures kept + [x] + (rest + retired) == (kept + [x]) + rest + retired
    ensures kept + (rest + retired) + [x] == kept + rest + (retired + [x])
  {
  }

  /**
   * The state of the `animate` loop at index `i`, against the pool `s` at
   * the start of the pass: the first `j` locks of `s` are dealt with,
   * leaving `kept` ahead and `retired` at the tail, and finishing the pass
   * from lock `j` yields the whole pass. The index is one past `kept` only
   * when the last lock retired and nothing slid into its place.
   */
  ghost predicate Progress(s: seq<Lock>, a: seq<Lock>, kept: seq<Lock>, retired: seq<Lock>,
                           drawn: seq<Lock>, j: nat, i: nat)
  {
    && j <= |s| && |a| == |s|
    && a == kept + s[j..] + retired
    && (i == |kept| || (j == |s| && i == |kept| + 1))
    && AllDead(retired)
    && Scan(s, false) == Joined(kept, retired, drawn, Scan(s[j..], false))
  }

  /** The loop starts with nothing dealt with. */
  lemma ProgressStart(s: seq<Lock>)
    ensures Progress(s, s, [], [], [], 0, 0)
  {
    assert s[0..] == s;
    assert [] + s + [] == s;
    var p := Scan(s, false);
    assert [] + p.kept == p.kept && [] + p.retired == p.retired && [] + p.drawn == p.drawn;
  }

  /** The lock at a live index is the next lock of `s` not yet dealt with. */
  lemma ProgressAt(s: seq<Lock>, a: seq<Lock>, kept: seq<Lock>, retired: seq<Lock>,
                   drawn: seq<Lock>, j: nat, i: nat)
    requires Progress(s, a, kept, retired, drawn, j, i)
    requires i < |a| && a[i].alive
    ensures j < |s| && i == |kept| && a[i] == s[j]
  {
    DeadPastEnd(s, a, kept, retired, drawn, j, i);
    SplitOff(kept, s, j, retired);
  }

  /** Once every lock of `s` is dealt with, only retired locks lie ahead of the index. */
  lemma DeadPastEnd(s: seq<Lock>, a: seq<Lock>, kept: seq<Lock>, retired: seq<Lock>,
                    drawn: seq<Lock>, j: nat, i: nat)
    requires Progress(s, a, kept, retired, drawn, j, i)
    requires i < |a|
    ensures j == |s| ==> !a[i].alive
  {
    if j == |s| {
      SplitOff(kept, s, j, retired);
      assert a[i] == retired[i - |kept|];
    }
  }

  /** A live lock that stays on the field: draw it in place. */
  lemma StepKeep(s: seq<Lock>, a: seq<Lock>, kept: seq<Lock>, retired: seq<Lock>,
                 drawn: seq<Lock>, j: nat, i: nat)
    requires Progress(s, a, kept, retired, drawn, j, i)
    requires i < |a| && a[i].alive && !Draw(a[i]).offField
    ensures j < |s| && a[i] == s[j]
    ensures Progress(s, a[i := Draw(a[i]).lock], kept + [Draw(a[i]).lock], retired,
                     drawn + [s[j]], j + 1, i + 1)
  {
    ProgressAt(s, a, kept, retired, drawn, j, i);
    var l := Draw(s[j]).lock;
    SplitAt(kept, s, j, retired);
    ReplaceAt(kept, s[j], l, s[j + 1..] + retired);
    Regroup(kept, l, s[j + 1..], retired);
    ScanKeeps(s, j);
    JoinedTwice(kept, retired, drawn, [l], [], [s[j]], Scan(s[j + 1..], false));
    assert retired + [] == retired;
  }

  /**
   * A live lock that leaves the field: draw it, clear it, splice it out and
   * push it to the tail; the lock that slides into index `i` is stepped over.
   */
  lemma StepRetire(s: seq<Lock>, a: seq<Lock>, kept: seq<Lock>, retired: seq<Lock>,
                   drawn: seq<Lock>, j: nat, i: nat)
    requires Progress(s, a, kept, retired, drawn, j, i)
    requires i < |a| && a[i].alive && Draw(a[i]).offField
    ensures j < |s| && a[i] == s[j]
    ensures var c := Clear(Draw(a[i]).lock);
      var j' := if j + 1 < |s| then j + 2 else j + 1;
      Progress(s, a[..i] + a[i + 1..] + [c], kept + s[j + 1..j'], retired + [c],
               drawn + [s[j]], j', i + 1)
  {
    ProgressAt(s, a, kept, retired, drawn, j, i);
    var c := Clear(Draw(s[j]).lock);
    RetireShape(s, kept, retired, j, c);
    RetireScan(s, kept, retired, drawn, j);
    AppendDead(retired, c);
  }

  /** The splice and push of a retirement, on the pool as the loop state describes it. */
  lemma RetireShape(s: seq<Lock>, kept: seq<Lock>, retired: seq<Lock>, j: nat, c: Lock)
    requires j < |s|
    ensures var a := kept + s[j..] + retired;
      var i := |kept|;
      var j' := if j + 1 < |s| then j + 2 else j + 1;
      a[..i] + a[i + 1..] + [c] == kept + s[j + 1..j'] + s[j'..] + (retired + [c])
  {
    var a := kept + s[j..] + retired;
    var i := |kept|;
    SplitAt(kept, s, j, retired);
    SpliceToTail(kept, s[j], s[j + 1..] + retired);
    assert a[..i] + a[i + 1..] == kept + (s[j + 1..] + retired);
    Regroup(kept, c, s[j + 1..], retired);
    if j + 1 < |s| {
      assert s[j + 1..j + 2] == [s[j + 1]];
      SplitAt(kept, s, j + 1, retired + [c]);
      Regroup(kept, s[j + 1], s[j + 2..], retired + [c]);
    } else {
      assert s[j + 1..j + 1] == [];
      assert kept + [] == kept;
    }
  }

  /** The pass equation after a retirement. */
  lemma RetireScan(s: seq<Lock>, kept: seq<Lock>, retired: seq<Lock>, drawn: seq<Lock>, j: nat)
    requires j < |s| && s[j].alive && Draw(s[j]).offField
    requires Scan(s, false) == Joined(kept, retired, drawn, Scan(s[j..], false))
    ensures var j' := if j + 1 < |s| then j + 2 else j + 1;
      Scan(s, false) == Joined(kept + s[j + 1..j'], retired + [Clear(Draw(s[j]).lock)],
                               drawn + [s[j]], Scan(s[j'..], false))
  {
    var c := Clear(Draw(s[j]).lock);
    var j' := if j + 1 < |s| then j + 2 else j + 1;
    ScanRetires(s, j);
    JoinStep(Scan(s, false), Scan(s[j..], false), kept, retired, drawn,
             s[j + 1..j'], [c], [s[j]], Scan(s[j'..], false));
  }

  /** Two joins in a row are one join. */
  lemma JoinStep(p: Pass, q: Pass, kept: seq<Lock>, retired: seq<Lock>, drawn: seq<Lock>,
                 kept1: seq<Lock>, retired1: seq<Lock>, drawn1: seq<Lock>, r: Pass)
    requires p == Joined(kept, retired, drawn, q)
    requires q == Joined(kept1, retired1, drawn1, r)
    ensures p == Joined(kept + kept1, retired + retired1, drawn + drawn1, r)
  {
    JoinedTwice(kept, retired, drawn, kept1, retired1, drawn1, r);
  }

  /** Where the loop stops, the pass is complete. */
  lemma StepStop(s: seq<Lock>, a: seq<Lock>, kept: seq<Lock>, retired: seq<Lock>,
                 drawn: seq<Lock>, j: nat, i: nat)
    requires Progress(s, a, kept, retired, drawn, j, i)
    requires i >= |a| || !a[i].alive
    ensures a == Animated(s) && drawn == Scan(s, false).drawn
  {
    SplitOff(kept, s, j, retired);
    if j < |s| {
      if i < |a| {
        ScanStops(s, j);
      }
    }
    var p := Scan(s[j..], false);
    if j == |s| {
      assert s[j..] == [];
      assert p == Pass([], [], []);
      assert kept + [] == kept && retired + [] == retired && drawn + [] == drawn;
    } else {
      assert i == |kept| && i < |a| && a[i] == s[j];
      assert p == Pass(s[j..], [], []);
      assert retired + [] == retired && drawn + [] == drawn;
    }
  }

  // ---------------------------------------------------------------
  // The pool object
  // ---------------------------------------------------------------

  /** `Pool(maxSize)`: a fixed number of bike locks, live ones first. */
  class Pool {
    const size: nat
    var pool: seq<Lock>

    ghost predicate Valid()
      reads this
    {
      |pool| == size && PoolInvariant(pool)
    }

    /** `new Pool(maxSize)`: the array is empty until `Init` fills it. */
    constructor (maxSize: nat)
      ensures size == maxSize && pool == []
    {
      size := maxSize;
      pool := [];
    }

    /**
     * `init`: store a fresh dormant lock of the sprite's size in every slot,
     * appending on the first call and overwriting on a later one.
     */
    method Init(width: real, height: real)
      requires pool == [] || |pool| == size
      modifies this
      ensures Valid()
      ensures pool == seq(size, _ => Dormant(width, height))
    {
      var i := 0;
      while i < size
        invariant i <= size
        invariant |pool| == if old(pool) == [] then i else size
        invariant forall k :: 0 <= k < i ==> pool[k] == Dormant(width, height)
      {
        if i < |pool| {
          pool := pool[i := Dormant(width, height)];
        } else {
          pool := pool + [Dormant(width, height)];
        }
        i := i + 1;
      }
    }

    /** `get`: spawn the tail lock in place, then pop it and unshift it to the head. */
    method Get(x: real, y: real, speed: real)
      requires |pool| == size && size >= 1
      modifies this
      ensures pool == Got(old(pool), x, y, speed)
      ensures old(Valid()) ==> Valid()
    {
      if !pool[size - 1].alive {
        pool := pool[size - 1 := Spawn(pool[size - 1], x, y, speed)];
        var last := pool[|pool| - 1];
        pool := pool[..|pool| - 1];
        pool := [last] + pool;
        if PoolInvariant(old(pool)) {
          GotKeepsInvariant(old(pool), x, y, speed);
        }
      }
    }

    /** `getTwo`: two `get` calls, made only when both tail locks are dead. */
    method GetTwo(x1: real, y1: real, speed1: real, x2: real, y2: real, speed2: real)
      requires |pool| == size && size >= 2
      modifies this
      ensures pool == GotTwo(old(pool), x1, y1, speed1, x2, y2, speed2)
      ensures old(Valid()) ==> Valid()
    {
      if !pool[size - 1].alive && !pool[size - 2].alive {
        Get(x1, y1, speed1);
        Get(x2, y2, speed2);
      }
      if old(Valid()) {
        GotTwoKeepsInvariant(old(pool), x1, y1, speed1, x2, y2, speed2);
      }
    }

    /**
     * `animate`: walk from index 0 while the lock there is alive, drawing
     * it; a lock that leaves the field is cleared, spliced out and pushed
     * to the tail, and the index advances all the same. `drawn` lists the
     * locks `draw` was called on.
     */
    method Animate() returns (ghost drawn: seq<Lock>)
      requires |pool| == size
      modifies this
      ensures pool == Animated(old(pool))
      ensures old(Valid()) ==> Valid()
      ensures drawn == Scan(old(pool), false).drawn
    {
      ghost var s := pool;
      ghost var kept: seq<Lock>, retired: seq<Lock>, j: nat := [], [], 0;
      drawn := [];
      ProgressStart(s);
      var i := 0;
      while i < size
        invariant |pool| == size
        invariant Progress(s, pool, kept, retired, drawn, j, i)
      {
        if pool[i].alive {
          var d := Draw(pool[i]);
          if d.offField {
            // The drawn lock is cleared, spliced out and pushed to the tail.
            StepRetire(s, pool, kept, retired, drawn, j, i);
            var removed := Clear(d.lock);
            pool := pool[..i] + pool[i + 1..] + [removed];
            ghost var j' := if j + 1 < |s| then j + 2 else j + 1;
            kept, retired, drawn, j := kept + s[j + 1..j'], retired + [removed], drawn + [s[j]], j';
          } else {
            StepKeep(s, pool, kept, retired, drawn, j, i);
            pool := pool[i := d.lock];
            kept, drawn, j := kept + [d.lock], drawn + [s[j]], j + 1;
          }
        } else {
          StepStop(s, pool, kept, retired, drawn, j, i);
          break;
        }
        i := i + 1;
      }
      if i >= size {
        StepStop(s, pool, kept, retired, drawn, j, i);
      }
      if PoolInvariant(s) {
        AnimatedKeepsInvariant(s);
      }
    }
  }
}
