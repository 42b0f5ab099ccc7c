/** Units that wait to be freed, flush by flush (Simulator/core/fcache.c): which of them still have a
    cache, and so when `fcache_fragment_pclookup` and `fcache_free_unit` read through a null pointer. */
module FlushGroups {
  import opened Layout
  import opened SlotModel
  import opened UnitPool

  /** A unit without a cache is dead or waits to be freed. */
  ghost predicate Homed(s: Pool)
  {
    forall u | u in s.recs && s.recs[u].cache.None? :: u in s.dead || u in s.toFree
  }

  function FlushAt(s: Pool, i: int): nat
    requires 0 <= i < |s.toFree|
  {
    if s.toFree[i] in s.recs then s.recs[s.toFree[i]].flush else 0
  }

  /** The unit at `i` of the waiting list is the last of those flushed with it. */
  predicate LastOfFlush(s: Pool, i: int)
    requires 0 <= i < |s.toFree|
  {
    i + 1 < |s.toFree| ==> FlushAt(s, i + 1) != FlushAt(s, i)
  }

  ghost predicate TailOk(s: Pool, i: int)
    requires 0 <= i < |s.toFree|
  {
    var u := s.toFree[i];
    u in s.recs && (s.recs[u].cache.Some? <==> LastOfFlush(s, i))
  }

  /** Of the units flushed together only the last has a cache. */
  ghost predicate Tails(s: Pool)
  {
    forall i {:trigger TailOk(s, i)} | 0 <= i < |s.toFree| :: TailOk(s, i)
  }

  /** The units of a flush have one time, and it is later than that of any flush before. */
  ghost predicate OwnTime(s: Pool, op: Op)
  {
    match op
    case QueueOp(chain) =>
      chain != [] ==>
        && chain[0] in s.recs
        && (forall i | 0 <= i < |chain| :: chain[i] in s.recs && s.recs[chain[i]].flush == s.recs[chain[0]].flush)
        && (s.toFree != [] ==> FlushAt(s, |s.toFree| - 1) < s.recs[chain[0]].flush)
    case _ => true
  }

  /** The units that wait in `t` are those from `n` on that waited in `s`, and look the same. */
  ghost predicate Later(s: Pool, t: Pool, n: int)
  {
    && 0 <= n <= |s.toFree| && t.toFree == s.toFree[n..]
    && (forall i | 0 <= i < |t.toFree| :: var u := t.toFree[i];
      && u in s.recs && u in t.recs
      && t.recs[u].flush == s.recs[u].flush && t.recs[u].cache == s.recs[u].cache)
  }

  lemma TailsLater(s: Pool, t: Pool, n: int)
    requires Tails(s) && Later(s, t, n)
    ensures Tails(t)
  {
    forall i | 0 <= i < |t.toFree| ensures TailOk(t, i) {
      assert TailOk(s, i + n) && t.toFree[i] == s.toFree[i + n];
      if i + 1 < |t.toFree| { assert t.toFree[i + 1] == s.toFree[i + 1 + n]; }
    }
  }

  lemma {:induction false} FreedDueGroups(s: Pool, bound: nat, threads: nat)
    requires PoolInv(s) && Homed(s) && Tails(s)
    ensures Homed(FreedDue(s, bound, threads)) && Tails(FreedDue(s, bound, threads))
    decreases |s.toFree|
  {
    if Due(s, bound) {
      FreedFirst(s, threads);
      FreedGroups(s, threads);
      FreedDueGroups(Freed(Popped(s), s.toFree[0], threads), bound, threads);
    }
  }

  lemma FreedGroups(s: Pool, threads: nat)
    requires PoolInv(s) && Homed(s) && Tails(s) && s.toFree != [] && s.toFree[0] in s.recs
    ensures var t := Freed(Popped(s), s.toFree[0], threads); Homed(t) && Tails(t)
  {
    var u := s.toFree[0];
    var t := Freed(Popped(s), u, threads);
    PoppedKeeps(s);
    FreedKeeps(Popped(s), u, threads);
    assert Homed(t) by { FreedHomed(Popped(s), u, threads); }
    FreedFirst(s, threads);
    forall i | 0 <= i < |t.toFree| ensures var v := t.toFree[i]; v in s.recs && v in t.recs && t.recs[v] == s.recs[v] {
      assert t.toFree[i] == s.toFree[i + 1];
    }
    TailsLater(s, t, 1);
  }

  lemma FreedHomed(s: Pool, u: int, threads: nat)
    requires PoolInv(s) && u in s.recs && u !in s.dead && u !in s.toFree
    requires forall v | v in s.recs && s.recs[v].cache.None? :: v == u || v in s.dead || v in s.toFree
    ensures Homed(Freed(s, u, threads))
  {
    var t := Freed(s, u, threads);
    if Keeps(|s.dead|, threads) { InsertedNoDup(s.dead, Place(s.recs, s.dead, s.recs[u].size), u); }
  }

  lemma {:induction false} OthersKeepCache(s: Pool, chain: seq<int>, u: int)
    requires u in s.recs && u !in chain && forall i | 0 <= i < |chain| :: chain[i] in s.recs
    ensures u in AllUncached(s, chain).recs && AllUncached(s, chain).recs[u] == s.recs[u]
    decreases |chain|
  {
    if |chain| > 1 { OthersKeepCache(Uncached(s, chain[0]), chain[1..], u); }
  }

  lemma QueuedHomed(s: Pool, chain: seq<int>)
    requires PoolInv(s) && Homed(s) && Enabled(s, QueueOp(chain))
    ensures Homed(Queued(s, chain))
  {
    var t := Queued(s, chain);
    AllUncachedKeeps(s, chain);
    forall u | u in t.recs && t.recs[u].cache.None? ensures u in t.dead || u in t.toFree {
      if u !in chain { OthersKeepCache(s, chain, u); }
    }
  }

  /** What waited before the flush. */
  lemma QueuedOld(s: Pool, chain: seq<int>, i: int)
    requires PoolInv(s) && Tails(s) && Enabled(s, QueueOp(chain)) && OwnTime(s, QueueOp(chain)) && 0 <= i < |s.toFree|
    ensures TailOk(Queued(s, chain), i)
  {
    var t := Queued(s, chain);
    AllUncachedKeeps(s, chain);
    assert TailOk(s, i) && t.toFree[i] == s.toFree[i] && s.toFree[i] in s.toFree;
    OthersKeepCache(s, chain, s.toFree[i]);
    if i + 1 < |s.toFree| {
      assert t.toFree[i + 1] == s.toFree[i + 1] && s.toFree[i + 1] in s.toFree && TailOk(s, i + 1);
      OthersKeepCache(s, chain, s.toFree[i + 1]);
    } else if chain != [] {
      assert t.toFree[i + 1] == chain[0];
    }
  }

  /** The units of the flush. */
  lemma QueuedNew(s: Pool, chain: seq<int>, i: int)
    requires PoolInv(s) && Homed(s) && Enabled(s, QueueOp(chain)) && OwnTime(s, QueueOp(chain)) && 0 <= i < |chain|
    ensures TailOk(Queued(s, chain), |s.toFree| + i)
  {
    var t := Queued(s, chain);
    AllUncachedKeeps(s, chain);
    assert t.toFree[|s.toFree| + i] == chain[i] && chain[i] in s.recs;
    if i + 1 < |chain| {
      assert t.toFree[|s.toFree| + i + 1] == chain[i + 1];
    } else {
      var z := chain[i];
      assert z in s.recs && z !in s.dead && z !in s.toFree;
    }
  }

  lemma QueuedTails(s: Pool, chain: seq<int>)
    requires PoolInv(s) && Homed(s) && Tails(s) && Enabled(s, QueueOp(chain)) && OwnTime(s, QueueOp(chain))
    ensures Tails(Queued(s, chain))
  {
    var t := Queued(s, chain);
    assert t.toFree == s.toFree + chain;
    forall i | 0 <= i < |t.toFree| ensures TailOk(t, i) {
      if i < |s.toFree| { QueuedOld(s, chain, i); } else { QueuedNew(s, chain, i - |s.toFree|); }
    }
  }

  lemma GrownGroups(s: Pool, u: int, inc: int)
    requires PoolInv(s) && Homed(s) && Tails(s) && u in s.recs
    ensures Homed(Grown(s, u, inc)) && Tails(Grown(s, u, inc))
  {
    TailsSame(s, Grown(s, u, inc));
  }

  lemma StampedGroups(s: Pool, u: int, time: nat)
    requires PoolInv(s) && Homed(s) && Tails(s) && u in s.recs && u !in s.toFree
    ensures Homed(Stamped(s, u, time)) && Tails(Stamped(s, u, time))
  {
    assert forall i | 0 <= i < |s.toFree| :: s.toFree[i] in s.toFree;
    TailsSame(s, Stamped(s, u, time));
  }

  /** Every operation keeps the groups, whatever units it is about. */
  lemma GroupsKeep(s: Pool, op: Op)
    requires PoolInv(s) && Enabled(s, op) && Homed(s) && Tails(s) && OwnTime(s, op)
    ensures Homed(Apply(s, op)) && Tails(Apply(s, op))
  {
    match op
    case QueueOp(chain) =>
      QueuedHomed(s, chain);
      QueuedTails(s, chain);
    case FreeOp(bound, threads) => FreedDueGroups(s, bound, threads);
    case CreateOp(c, need, max, unused, commit) => CreatedGroups(s, c, need, max, unused, commit);
    case GrowOp(u, inc) => GrownGroups(s, u, inc);
    case StampOp(u, time) => StampedGroups(s, u, time);
    case CacheOp(c) => TailsSame(s, s.(used := s.used[c := 0]));
  }

  lemma TailsSame(s: Pool, t: Pool)
    requires PoolInv(s) && Tails(s) && t.toFree == s.toFree
    requires forall i | 0 <= i < |s.toFree| :: var u := s.toFree[i];
      u in t.recs && t.recs[u].flush == s.recs[u].flush && t.recs[u].cache == s.recs[u].cache
    ensures Tails(t)
  {
    assert t.toFree == s.toFree[0..];
    TailsLater(s, t, 0);
  }

  lemma CreatedGroups(s: Pool, c: nat, need: int, max: int, unused: int, commit: int)
    requires PoolInv(s) && c in s.used && unused !in s.recs && Homed(s) && Tails(s)
    ensures var t := CreatedUnit(s, c, need, max, unused, commit); Homed(t) && Tails(t)
  {
    var t := CreatedUnit(s, c, need, max, unused, commit);
    match FirstServing(s, s.dead, c, need, max) {
      case Some(i) => RemoveAt(s.dead, i);
      case None =>
    }
    forall i | 0 <= i < |s.toFree| ensures var u := s.toFree[i]; u in t.recs && t.recs[u] == s.recs[u] {
      assert s.toFree[i] in s.toFree;
    }
    TailsSame(s, t);
  }

  // ----- runs

  /** A run in which every flush has a time of its own. */
  ghost predicate FlushRun(s: Pool, ops: seq<Op>, t: Pool)
    requires PoolInv(s)
    decreases |ops|
  {
    if ops == [] then s == t
    else Enabled(s, ops[0]) && OwnTime(s, ops[0]) && FlushRun(Apply(s, ops[0]), ops[1..], t)
  }

  lemma {:induction false} GroupsInRun(s: Pool, ops: seq<Op>, t: Pool)
    requires PoolInv(s) && Homed(s) && Tails(s) && FlushRun(s, ops, t)
    ensures PoolInv(t) && Homed(t) && Tails(t)
    decreases |ops|
  {
    if ops != [] {
      GroupsKeep(s, ops[0]);
      GroupsInRun(Apply(s, ops[0]), ops[1..], t);
    }
  }

  /** Unit `u` waits, and another unit flushed with it waits behind it. */
  predicate WaitsInFront(s: Pool, u: int, i: int)
  {
    0 <= i < |s.toFree| && s.toFree[i] == u && !LastOfFlush(s, i)
  }

  /** `fcache_fragment_pclookup` reads through the cache of the unit that it finds, and finds every
      unit that has not been given back. */
  predicate LookupFaults(s: Pool, u: int)
  {
    u in s.recs && s.recs[u].cache.None?
  }

  /** In every run from an empty pool: a lookup in a unit faults exactly if the unit is dead or waits
      in front of a unit flushed with it. */
  lemma LookupFaultsExactlyIf(ops: seq<Op>, t: Pool, u: int)
    requires PoolInv(NO_UNITS) && FlushRun(NO_UNITS, ops, t) && u in t.recs
    ensures LookupFaults(t, u) <==> u in t.dead || exists i :: WaitsInFront(t, u, i)
  {
    GroupsInRun(NO_UNITS, ops, t);
    forall i | WaitsInFront(t, u, i) ensures LookupFaults(t, u) {
      assert TailOk(t, i);
    }
    if u in t.dead {
      var i := IndexOf(t.dead, u);
      assert t.dead[i] == u;
    } else if LookupFaults(t, u) {
      var i := IndexOf(t.toFree, u);
      assert TailOk(t, i);
      assert WaitsInFront(t, u, i);
    }
  }

  /** Unit number `i` is due, waits in front of a unit flushed with it, and finds room. */
  predicate FrontFaults(s: Pool, i: int, bound: nat, threads: nat)
  {
    0 <= i < |s.toFree| && FlushAt(s, i) <= bound && !LastOfFlush(s, i) && Keeps(|s.dead| + i, threads)
  }

  /** And a free call faults exactly if some flush of two or more units is due while there is room
      among the dead for one of them that is not the last. */
  lemma FreeFaultsExactlyIf(ops: seq<Op>, t: Pool, bound: nat, threads: nat)
    requires PoolInv(NO_UNITS) && FlushRun(NO_UNITS, ops, t)
    ensures FaultsDue(t, bound, threads) <==> exists i :: FrontFaults(t, i, bound, threads)
  {
    GroupsInRun(NO_UNITS, ops, t);
    FaultsMeaning(t, bound, threads);
    forall i | FrontFaults(t, i, bound, threads) ensures FaultAt(t, i, bound, threads) {
      assert TailOk(t, i);
    }
    forall i | FaultAt(t, i, bound, threads) ensures FrontFaults(t, i, bound, threads) {
      assert TailOk(t, i);
    }
  }

  /** Such a run is a run of the pool. */
  lemma {:induction false} FlushRunLeads(s: Pool, ops: seq<Op>, t: Pool)
    requires PoolInv(s) && FlushRun(s, ops, t)
    ensures Leads(s, ops, t)
    decreases |ops|
  {
    if ops != [] { FlushRunLeads(Apply(s, ops[0]), ops[1..], t); }
  }

  // ----- an example

  lemma OpThen(s: Pool, op: Op, ops: seq<Op>, t: Pool)
    requires PoolInv(s) && Enabled(s, op) && OwnTime(s, op) && FlushRun(Apply(s, op), ops, t)
    ensures FlushRun(s, [op] + ops, t)
  {
    assert ([op] + ops)[1..] == ops;
  }

  lemma UnitThen(s: Pool, u: int, t: Pool, ops: seq<Op>, z: Pool)
    requires PoolInv(s) && s.dead == [] && 0 in s.used && u !in s.recs && t == Born(s, u, PAGE, PAGE, 0) && PoolInv(t)
    requires FlushRun(t, ops, z)
    ensures FlushRun(s, [CreateOp(0, PAGE, 0, u, PAGE)] + ops, z)
  {
    OpThen(s, CreateOp(0, PAGE, 0, u, PAGE), ops, z);
  }

  /** A cache is set up and gets two units. */
  lemma MakePair(ops: seq<Op>, t: Pool) returns (ops': seq<Op>)
    requires PoolInv(PAIR) && FlushRun(PAIR, ops, t)
    ensures PoolInv(NO_UNITS) && FlushRun(NO_UNITS, ops', t)
  {
    CacheKeeps();
    var s2 := Born(ONE_CACHE, 1, PAGE, PAGE, 0);
    BornKeeps(ONE_CACHE, 1, PAGE, PAGE, 0);
    UnitThen(s2, 2, PAIR, ops, t);
    ops' := [CreateOp(0, PAGE, 0, 2, PAGE)] + ops;
    UnitThen(ONE_CACHE, 1, s2, ops', t);
    ops' := [CreateOp(0, PAGE, 0, 1, PAGE)] + ops';
    OpThen(NO_UNITS, CacheOp(0), ops', t);
    ops' := [CacheOp(0)] + ops';
  }

  const STAMPED_PAIR: Pool := Stamped(Stamped(PAIR, 1, 7), 2, 7)

  /** They can be queued together. */
  lemma PairEnabled(chain: seq<int>)
    requires PoolInv(STAMPED_PAIR) && chain == [1, 2]
    ensures Enabled(STAMPED_PAIR, QueueOp(chain)) && OwnTime(STAMPED_PAIR, QueueOp(chain))
  {
    var s := STAMPED_PAIR;
    assert s.toFree == [] && s.dead == [];
    assert 1 in s.recs && 2 in s.recs && s.recs[1].flush == 7 && s.recs[2].flush == 7;
  }

  lemma QueuePair() returns (t: Pool)
    requires PoolInv(STAMPED_PAIR)
    ensures FlushRun(STAMPED_PAIR, [QueueOp([1, 2])] + [], t) && FaultsDue(t, 7, 1) && LookupFaults(t, 1)
  {
    var s, chain := STAMPED_PAIR, [1, 2];
    PairEnabled(chain);
    t := Apply(s, QueueOp(chain));
    ChainFaults(s, chain, 7, 1);
    AllUncachedKeeps(s, chain);
    assert t.recs[chain[0]].cache.None?;
    OpThen(s, QueueOp(chain), [], t);
  }

  /** They are flushed together. */
  lemma FlushPair() returns (ops: seq<Op>, t: Pool)
    requires PoolInv(PAIR)
    ensures FlushRun(PAIR, ops, t) && FaultsDue(t, 7, 1) && LookupFaults(t, 1)
  {
    var s1 := Apply(PAIR, StampOp(1, 7));
    var s2 := Apply(s1, StampOp(2, 7));
    assert s2 == STAMPED_PAIR;
    t := QueuePair();
    ops := [QueueOp([1, 2])] + [];
    OpThen(s1, StampOp(2, 7), ops, t);
    ops := [StampOp(2, 7)] + ops;
    OpThen(PAIR, StampOp(1, 7), ops, t);
    ops := [StampOp(1, 7)] + ops;
  }

  /** Two units of one cache that are flushed together are such a case: the run from an empty pool,
      the fault of the free call after it, and that of a lookup in the first unit before it. */
  lemma TwoUnitsFault() returns (ops: seq<Op>, t: Pool)
    ensures PoolInv(NO_UNITS) && FlushRun(NO_UNITS, ops, t) && Leads(NO_UNITS, ops, t)
    ensures FaultsDue(t, 7, 1) && LookupFaults(t, 1)
  {
    PairKeeps();
    ops, t := FlushPair();
    ops := MakePair(ops, t);
    FlushRunLeads(NO_UNITS, ops, t);
  }
}
