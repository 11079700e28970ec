/**
 * The pool of logical clocks a shard replica stamps its writes with
 * (lib/collection/src/shards/replica_set/clock_set.rs).
 *
 * Every `Clock` is a counter plus an `available` flag.  The atomics of the
 * source become plain fields: the model is the single-threaded reading of
 * the code, in which `swap`, `fetch_add` and `fetch_max` are ordinary
 * read-modify-write steps.  Dropping a `ClockGuard` is the explicit method
 * `ClockGuard.Release`.  Rust moves the guard into `Drop`, so a guard is
 * released once and not used afterwards; the ghost field `Clock.holder`
 * records which guard, if any, currently holds a clock, and every guard
 * operation requires its guard to be that holder.
 */
module Clocks {

  /** Rust's `u64`. */
  newtype u64 = x: int | 0 <= x < 0x1_0000_0000_0000_0000
  const U64_MAX: u64 := 0xFFFF_FFFF_FFFF_FFFF

  function Max(a: u64, b: u64): (r: u64)
    ensures r >= a && r >= b
    ensures r == a || r == b
  {
    if a < b then b else a
  }

  /** One logical clock: its counter and whether a guard may take it. */
  class Clock {
    var tick: u64
    var available: bool
    /** The live guard on this clock, if any. */
    ghost var holder: ClockGuard?

    /** A clock is held exactly when it is unavailable. */
    ghost predicate Valid()
      reads this`available, this`holder
    {
      available <==> holder == null
    }

    /** A fresh clock starts at 0 and is free. */
    constructor NewUnlocked()
      ensures Valid() && tick == 0 && available
    {
      tick := 0;
      available := true;
      holder := null;
    }

    /** `fetch_add(1) + 1`: the counter goes up by exactly one, and the new value is returned. */
    method TickOnce() returns (r: u64)
      requires tick < U64_MAX
      modifies this`tick
      ensures tick == old(tick) + 1
      ensures r == tick
    {
      tick := tick + 1;
      r := tick;
    }

    /**
     * `fetch_max(new_tick)` followed by `max(previous, new_tick)`: the counter
     * becomes the larger of itself and `newTick`, so it never goes down, and
     * that value is returned.
     */
    method AdvanceTo(newTick: u64) returns (r: u64)
      modifies this`tick
      ensures tick == Max(old(tick), newTick)
      ensures r == tick && r >= old(tick) && r >= newTick
    {
      var previous := tick;
      tick := Max(previous, newTick);
      r := Max(previous, newTick);
    }

    /**
     * `available.swap(false)`: the clock is unavailable afterwards in any
     * case, and a guard carrying `id` comes back exactly when it was
     * available before; that guard becomes the holder.
     */
    method TryLock(id: nat) returns (g: ClockGuard?)
      requires Valid()
      modifies this`available, this`holder
      ensures Valid() && !available
      ensures g != null <==> old(available)
      ensures g != null ==> fresh(g) && g.id == id && g.clock == this && holder == g
      ensures g == null ==> holder == old(holder)
    {
      var was := available;
      available := false;
      if was {
        g := new ClockGuard(id, this);
        holder := g;
      } else {
        g := null;
      }
    }

    /** `available.store(true)`; only a guard's `Release` calls this. */
    method Release()
      modifies this`available, this`holder
      ensures Valid() && available && holder == null
    {
      available := true;
      holder := null;
    }
  }

  /** Exclusive use of the clock at index `id` of its pool. */
  class ClockGuard {
    const id: nat
    const clock: Clock

    constructor (id: nat, clock: Clock)
      ensures this.id == id && this.clock == clock
    {
      this.id := id;
      this.clock := clock;
    }

    function Id(): (r: nat)
      ensures r == id
    {
      id
    }

    method TickOnce() returns (r: u64)
      requires clock.holder == this && clock.tick < U64_MAX
      modifies clock`tick
      ensures clock.tick == old(clock.tick) + 1
      ensures r == clock.tick
    {
      r := clock.TickOnce();
    }

    method AdvanceTo(newTick: u64) returns (r: u64)
      requires clock.holder == this
      modifies clock`tick
      ensures clock.tick == Max(old(clock.tick), newTick)
      ensures r == clock.tick
    {
      r := clock.AdvanceTo(newTick);
    }

    /**
     * `Drop for ClockGuard`: only the live guard can be dropped, once; the
     * clock becomes available again with its counter untouched.
     */
    method Release()
      requires clock.holder == this
      modifies clock`available, clock`holder
      ensures clock.Valid() && clock.available && clock.holder == null
      ensures clock.tick == old(clock.tick)
    {
      clock.Release();
    }
  }

  /**
   * The index `get_clock` settles on for availability flags `avail`: the
   * first free clock, or `|avail|` (the id of a clock yet to be created)
   * when every clock is held.
   */
  function FirstAvailable(avail: seq<bool>): (id: nat)
    ensures id <= |avail|
    ensures id < |avail| ==> avail[id]
    ensures forall j :: 0 <= j < id ==> !avail[j]
  {
    if avail == [] then 0
    else if avail[0] then 0
    else 1 + FirstAvailable(avail[1..])
  }

  /** The availability flags after `get_clock` has handed out clock `id`. */
  function Acquired(avail: seq<bool>, id: nat): (r: seq<bool>)
    requires id <= |avail|
    ensures |r| == if id == |avail| then |avail| + 1 else |avail|
    ensures !r[id]
    ensures forall j :: 0 <= j < |avail| && j != id ==> r[j] == avail[j]
  {
    if id == |avail| then avail + [false] else avail[id := false]
  }

  /** The elastic pool: ids are the positions in `clocks`. */
  class ClockSet {
    var clocks: seq<Clock>

    /**
     * Every position holds its own clock (each was pushed as a new `Arc`),
     * a clock is held exactly when it is unavailable, and the guard holding
     * the clock at position `i` has id `i`.
     */
    ghost predicate Valid()
      reads this, clocks`available, clocks`holder
    {
      (forall i, j :: 0 <= i < j < |clocks| ==> clocks[i] != clocks[j]) &&
      (forall i :: 0 <= i < |clocks| ==> clocks[i].Valid()) &&
      (forall i :: 0 <= i < |clocks| && clocks[i].holder != null ==>
         clocks[i].holder.id == i && clocks[i].holder.clock == clocks[i])
    }

    /** The `available` flag of every clock, by id. */
    function Availability(): (r: seq<bool>)
      reads this, clocks
      ensures |r| == |clocks|
      ensures forall i :: 0 <= i < |clocks| ==> r[i] == clocks[i].available
    {
      seq(|clocks|, i reads this, clocks requires 0 <= i < |clocks| => clocks[i].available)
    }

    /** The live guard of every clock, by id. */
    ghost function Holders(): (r: seq<ClockGuard?>)
      reads this, clocks
      ensures |r| == |clocks|
      ensures forall i :: 0 <= i < |clocks| ==> r[i] == clocks[i].holder
    {
      seq(|clocks|, i reads this, clocks requires 0 <= i < |clocks| => clocks[i].holder)
    }

    /** The counter of every clock, by id. */
    function Ticks(): (r: seq<u64>)
      reads this, clocks
      ensures |r| == |clocks|
      ensures forall i :: 0 <= i < |clocks| ==> r[i] == clocks[i].tick
    {
      seq(|clocks|, i reads this, clocks requires 0 <= i < |clocks| => clocks[i].tick)
    }

    constructor New()
      ensures Valid() && clocks == []
    {
      clocks := [];
    }

    /**
     * `get_clock`: scan the clocks in id order and lock the first available
     * one; when none is, grow the pool by one fresh clock and lock that.
     * Existing clocks keep their ids and counters; only the chosen clock's
     * flag changes, from available to unavailable, and the new guard becomes
     * its holder.  Every guard that held a clock before still holds it and
     * differs from the new guard in both clock and id.
     */
    method GetClock() returns (g: ClockGuard)
      requires Valid()
      modifies this, clocks
      ensures Valid() && fresh(g)
      ensures g.id == FirstAvailable(old(Availability()))
      ensures g.id < |clocks| && g.clock == clocks[g.id] && g.clock.holder == g
      ensures |clocks| == if g.id == |old(clocks)| then |old(clocks)| + 1 else |old(clocks)|
      ensures clocks[..|old(clocks)|] == old(clocks)
      ensures g.id == |old(clocks)| ==> fresh(g.clock)
      ensures Availability() == Acquired(old(Availability()), g.id)
      ensures Ticks() == if g.id == |old(clocks)| then old(Ticks()) + [0] else old(Ticks())
      ensures Holders() == if g.id == |old(clocks)| then old(Holders()) + [g] else old(Holders())[g.id := g]
      ensures forall h :: h in old(Holders()) && h != null ==> h.id != g.id && h.clock != g.clock
    {
      ghost var holders := Holders();
      var lock := LockFirstAvailable();
      if lock != null {
        g := lock;
      } else {
        g := NewClock();
      }
      NewHolderIsDistinct(holders, g.id, g);
    }

    /**
     * The `find_map` scan of `get_clock`: try to lock each clock in id
     * order and stop at the first success.  Nothing changes when no clock
     * is available; otherwise only the chosen clock's flag and holder do.
     */
    method LockFirstAvailable() returns (g: ClockGuard?)
      requires Valid()
      modifies clocks
      ensures Valid()
      ensures g == null ==> FirstAvailable(old(Availability())) == |clocks|
      ensures g != null ==> fresh(g) && g.id == FirstAvailable(old(Availability()))
      ensures g != null ==> g.id < |clocks| && g.clock == clocks[g.id] && g.clock.holder == g
      ensures forall j :: 0 <= j < |clocks| && (g == null || j != g.id) ==>
        clocks[j].available == old(clocks[j].available) && clocks[j].holder == old(clocks[j].holder)
      ensures forall j :: 0 <= j < |clocks| ==> clocks[j].tick == old(clocks[j].tick)
    {
      var i := 0;
      while i < |clocks|
        invariant 0 <= i <= |clocks|
        invariant Valid()
        invariant forall j :: 0 <= j < |clocks| ==>
          clocks[j].available == old(clocks[j].available) && clocks[j].holder == old(clocks[j].holder)
        invariant forall j :: 0 <= j < |clocks| ==> clocks[j].tick == old(clocks[j].tick)
        invariant forall j :: 0 <= j < i ==> !old(clocks[j].available)
      {
        g := clocks[i].TryLock(i);
        if g != null {
          return;
        }
        i := i + 1;
      }
      g := null;
    }

    /** `new_clock`: push a fresh clock with counter 0, lock it and return its guard; the lock cannot fail. */
    method NewClock() returns (g: ClockGuard)
      requires Valid()
      modifies this
      ensures Valid() && fresh(g) && fresh(g.clock)
      ensures clocks == old(clocks) + [g.clock]
      ensures g.id == |old(clocks)|
      ensures g.clock.tick == 0 && !g.clock.available && g.clock.holder == g
    {
      var id := |clocks|;
      var clock := new Clock.NewUnlocked();
      clocks := clocks + [clock];
      var lock := clock.TryLock(id);
      if lock == null {
        // A fresh clock is available, so `try_lock(..).unwrap()` never panics.
        assert false;
      }
      g := lock;
    }
  }

  /**
   * When the guard at each held position carries that position as its id,
   * and position `id` was not held (or is new), a guard `g` with that id
   * differs from every earlier holder in id.
   */
  lemma NewHolderIsDistinct(holders: seq<ClockGuard?>, id: nat, g: ClockGuard)
    requires forall i :: 0 <= i < |holders| && holders[i] != null ==> holders[i].id == i
    requires id < |holders| ==> holders[id] == null
    requires g.id == id
    ensures forall h :: h in holders && h != null ==> h.id != g.id
  {
  }

  /**
   * Two live guards on clocks of a valid pool are on different clocks and
   * carry different ids.
   */
  lemma HeldGuardsAreDistinct(pool: ClockSet, a: ClockGuard, b: ClockGuard)
    requires pool.Valid()
    requires a.clock in pool.clocks && b.clock in pool.clocks
    requires a.clock.holder == a && b.clock.holder == b && a != b
    ensures a.clock != b.clock && a.id != b.id
  {
    var i :| 0 <= i < |pool.clocks| && pool.clocks[i] == a.clock;
    var j :| 0 <= j < |pool.clocks| && pool.clocks[j] == b.clock;
    assert a.id == i && b.id == j;
  }

  /** Two writers holding clocks at the same time get ids 0 and 1 on two different clocks. */
  method ConcurrentWritersGetDistinctClocks()
  {
    var pool := new ClockSet.New();
    var a := pool.GetClock();
    assert a.id == 0 && a.clock.tick == 0;
    assert pool.Availability() == [false];
    var b := pool.GetClock();
    assert b.id == 1 && b.clock.tick == 0;
    HeldGuardsAreDistinct(pool, a, b);
    assert a.clock != b.clock;
  }

  /**
   * A released clock is the one handed out next, with the tick it had
   * reached; its new holder carries on from there.
   */
  method ReleasedClockKeepsItsTick()
  {
    var pool := new ClockSet.New();
    var a := pool.GetClock();
    var t := a.TickOnce();
    assert t == 1;
    a.Release();
    assert pool.Availability() == [true];
    var c := pool.GetClock();
    assert c.id == 0 && c.clock == a.clock && c.clock.tick == 1;
    t := c.TickOnce();
    assert t == 2;
    t := c.AdvanceTo(1);
    assert t == 2;
    t := c.AdvanceTo(7);
    assert t == 7 && |pool.clocks| == 1;
  }
}
