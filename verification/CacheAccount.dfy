/** A shared code cache and the pool of units together (Simulator/core/fcache.c): in every run the size
    field of the cache is the memory committed in its units, and in those that wait to be freed and
    still name it. */
module CacheAccount {
  import opened Layout
  import opened SlotModel
  import opened SlotSteps
  import opened SharedOps
  import opened SharedFlush
  import opened UnitPool
  import opened FlushGroups
  import opened UnitSupply
  import opened SharedRep
  import SharedSpec
  import SharedRuns
  import SharedCache
  import UnitLife

  /** The record of a unit of cache `c`, as the pool and as the cache see it. */
  ghost predicate Agreed(s: Pool, c: nat, v: int, r: Unit)
  {
    && v in s.recs && v !in s.dead && v !in s.toFree
    && s.recs[v].cache == Some(c) && r.reserved == v + s.recs[v].reserved && r.end == v + s.recs[v].size
  }

  /** A unit that names the cache belongs to it, waits to be freed, or is one of `extra`. */
  ghost predicate Owned(s: Pool, t: State, c: nat, extra: set<int>, v: int)
  {
    v in s.recs && s.recs[v].cache == Some(c) ==> v in t.units || v in s.toFree || v in extra
  }

  ghost predicate Joint(s: Pool, t: State, c: nat, extra: set<int>)
  {
    && c in s.used
    && (forall v {:trigger Agreed(s, c, v, t.units[v])} | v in t.units :: Agreed(s, c, v, t.units[v]))
    && (forall v {:trigger Owned(s, t, c, extra, v)} :: Owned(s, t, c, extra, v))
  }

  lemma JointBacks(s: Pool, t: State, c: nat, extra: set<int>)
    requires Joint(s, t, c, extra)
    ensures Backs(s, t)
  {
    forall v | v in t.units ensures Agreed(s, c, v, t.units[v]) {
    }
  }

  // ----- the size field

  function CommittedIn(units: Units, l: seq<int>): int
  {
    if l == [] then 0 else (if l[0] in units then units[l[0]].end - l[0] else 0) + CommittedIn(units, l[1..])
  }

  function WaitingIn(s: Pool, l: seq<int>, c: nat): int
  {
    if l == [] then 0 else (if l[0] in s.toFree then Share(s.recs, l[0], c) else 0) + WaitingIn(s, l[1..], c)
  }

  lemma {:induction false} SizeOf(s: Pool, t: State, c: nat, l: seq<int>)
    requires Joint(s, t, c, {})
    ensures Total(s.recs, l, c) == CommittedIn(t.units, l) + WaitingIn(s, l, c)
  {
    if l != [] {
      var v := l[0];
      assert Owned(s, t, c, {}, v);
      assert v in t.units ==> Agreed(s, c, v, t.units[v]);
      SizeOf(s, t, c, l[1..]);
    }
  }

  /** The size field is the committed memory of the units, and of those that wait. */
  lemma SizeIsReal(s: Pool, t: State, c: nat)
    requires PoolInv(s) && Joint(s, t, c, {})
    ensures s.used[c] == CommittedIn(t.units, s.all) + WaitingIn(s, s.all, c)
  {
    SizeOf(s, t, c, s.all);
  }

  // ----- units grow

  /** The pool is told by how much unit `u` has grown. */
  function Matched(s: Pool, t: State, u: int): Pool
    requires u in s.recs && u in t.units
  {
    Grown(s, u, t.units[u].end - u - s.recs[u].size)
  }

  lemma MatchedInOrder(p: Params, s: Pool, t: State, u: int)
    requires PoolInv(s) && Spaced(p, s) && u in s.recs && u !in s.dead && u in t.units && UnitOk(p, u, t.units[u])
    requires t.units[u].reserved == u + s.recs[u].reserved && t.units[u].end >= u + s.recs[u].size
    ensures PoolInv(Matched(s, t, u)) && Spaced(p, Matched(s, t, u))
  {
    var inc := t.units[u].end - u - s.recs[u].size;
    assert Extent(p, u, s.recs[u]);
    WholePages(t.units[u].end - u, s.recs[u].size);
    var op := GrowOp(u, inc);
    SpacedKeeps(p, s, op);
    assert Apply(s, op) == Matched(s, t, u);
  }

  /** What the pool knows of unit `v` is the state it was in before the add. */
  ghost predicate Before(s: Pool, c: nat, v: int, r: Unit)
  {
    && v in s.recs && v !in s.dead && v !in s.toFree
    && s.recs[v].cache == Some(c) && r.reserved == v + s.recs[v].reserved && r.end >= v + s.recs[v].size
  }

  /** The units of the cache have grown, and the pool knows of it except for those in `open`. */
  ghost predicate Behindhand(s: Pool, t: State, c: nat, open: set<int>)
  {
    && c in s.used
    && (forall v {:trigger Before(s, c, v, t.units[v])} | v in t.units ::
      Before(s, c, v, t.units[v]) && (v !in open ==> t.units[v].end == v + s.recs[v].size))
    && (forall v {:trigger Owned(s, t, c, {}, v)} :: Owned(s, t, c, {}, v))
  }

  lemma GrewBehindhand(s: Pool, t: State, t': State, c: nat, cu: int, g: Option<Region>)
    requires Joint(s, t, c, if g.Some? then {g.value.base} else {}) && Grew(t, t', cu, g)
    requires g.Some? ==> var b := g.value.base;
      b in s.recs && b !in s.dead && b !in s.toFree && s.recs[b].cache == Some(c) && g.value == RegionOf(s, b)
    ensures Behindhand(s, t', c, {cu} + if g.Some? then {g.value.base} else {})
  {
    var open := {cu} + if g.Some? then {g.value.base} else {};
    forall v | v in t'.units
      ensures Before(s, c, v, t'.units[v]) && (v !in open ==> t'.units[v].end == v + s.recs[v].size)
    {
      if v in t.units { assert Agreed(s, c, v, t.units[v]); }
    }
    forall v ensures Owned(s, t', c, {}, v) {
      assert Owned(s, t, c, if g.Some? then {g.value.base} else {}, v);
    }
  }

  lemma MatchOne(p: Params, s: Pool, t: State, c: nat, open: set<int>, u: int)
    requires PoolInv(s) && Spaced(p, s) && Good(p, t) && Behindhand(s, t, c, open) && u in t.units
    ensures u in s.recs && PoolInv(Matched(s, t, u)) && Spaced(p, Matched(s, t, u))
    ensures Behindhand(Matched(s, t, u), t, c, open - {u})
  {
    assert Before(s, c, u, t.units[u]) && UnitOk(p, u, t.units[u]);
    MatchedInOrder(p, s, t, u);
    var s' := Matched(s, t, u);
    forall v | v in t.units
      ensures Before(s', c, v, t.units[v]) && (v !in open - {u} ==> t.units[v].end == v + s'.recs[v].size)
    {
      assert Before(s, c, v, t.units[v]);
    }
    forall v ensures Owned(s', t, c, {}, v) {
      assert Owned(s, t, c, {}, v);
    }
  }

  lemma CaughtUp(s: Pool, t: State, c: nat)
    requires Behindhand(s, t, c, {})
    ensures Joint(s, t, c, {})
  {
    forall v | v in t.units ensures Agreed(s, c, v, t.units[v]) {
      assert Before(s, c, v, t.units[v]);
    }
  }

  // ----- an add

  /** The pool after an add that took the cache from `t` to `t'`. */
  ghost function PoolAfter(s: Pool, t: State, t': State): Pool
    requires t.order != [] && t.order[0] in s.recs && t.order[0] in t'.units
    requires t'.order != [] && t'.order[0] in s.recs && t'.order[0] in t'.units
  {
    Matched(Matched(s, t', t.order[0]), t', t'.order[0])
  }

  lemma CatchUp(p: Params, s: Pool, t: State, t': State, c: nat)
    requires PoolInv(s) && Spaced(p, s) && Good(p, t') && t.order != [] && t.order[0] in t'.units
    requires Behindhand(s, t', c, {t.order[0]} + {t'.order[0]})
    ensures t.order[0] in s.recs && t'.order[0] in s.recs && t'.order[0] in t'.units
    ensures PoolInv(PoolAfter(s, t, t')) && Spaced(p, PoolAfter(s, t, t')) && Joint(PoolAfter(s, t, t'), t', c, {})
  {
    var u, v := t.order[0], t'.order[0];
    CurrentUnit(p, t');
    assert Before(s, c, v, t'.units[v]);
    MatchOne(p, s, t', c, {u} + {v}, u);
    var s' := Matched(s, t', u);
    MatchOne(p, s', t', c, {u} + {v} - {u}, v);
    assert {u} + {v} - {u} - {v} == {};
    CaughtUp(Matched(s', t', v), t', c);
  }

  /** The new unit, if the add opens one, comes from the pool. */
  ghost predicate Fresh(s: Pool, c: nat, g: Region)
  {
    var u := g.base;
    u in s.recs && u !in s.dead && u !in s.toFree && s.recs[u].cache == Some(c) && g == RegionOf(s, u)
  }

  function Extra(t: State, k: int, g: Region): set<int>
    requires 0 <= k && t.order != [] && t.order[0] in t.units && |t.lists| == BUCKET_COUNT
  {
    if Creates(t, k) then {g.base} else {}
  }

  lemma AddBehindhand(p: Params, s: Pool, t: State, c: nat, f: nat, k: int, g: Region, retire: bool)
    requires Good(p, t) && Request(p, t, f, k) && t.order[0] in t.units && Joint(s, t, c, Extra(t, k, g))
    requires Creates(t, k) ==> Supplied(p, t, k, g) && g.base !in t.units && Fresh(s, c, g)
    ensures var t' := Add(p, t, f, k, g, retire);
      Good(p, t') && t.order[0] in t'.units && Behindhand(s, t', c, {t.order[0]} + {t'.order[0]})
  {
    var t', cu := Add(p, t, f, k, g, retire), t.order[0];
    AddUnits(p, t, f, k, g, retire);
    AddKeeps(p, t, f, k, g, retire);
    if Creates(t, k) {
      GrewBehindhand(s, t, t', c, cu, Some(g));
    } else {
      GrewBehindhand(s, t, t', c, cu, None);
      assert {cu} + {cu} == {cu} + {};
    }
  }

  /** An add, after which the pool is told of what has grown, keeps the two in agreement. */
  lemma AddJoint(p: Params, s: Pool, t: State, c: nat, f: nat, k: int, g: Region, retire: bool)
    requires PoolInv(s) && Spaced(p, s) && Good(p, t) && Request(p, t, f, k) && t.order[0] in t.units
    requires Joint(s, t, c, Extra(t, k, g))
    requires Creates(t, k) ==> Supplied(p, t, k, g) && g.base !in t.units && Fresh(s, c, g)
    ensures Good(p, Add(p, t, f, k, g, retire))
    ensures var t' := Add(p, t, f, k, g, retire);
      && t.order[0] in s.recs && t.order[0] in t'.units && t'.order[0] in s.recs && t'.order[0] in t'.units
      && PoolInv(PoolAfter(s, t, t')) && Spaced(p, PoolAfter(s, t, t')) && Joint(PoolAfter(s, t, t'), t', c, {})
  {
    AddBehindhand(p, s, t, c, f, k, g, retire);
    CatchUp(p, s, t, Add(p, t, f, k, g, retire), c);
  }

  lemma HandedElse(s: Pool, c: nat, need: int, unused: int, commit: int, v: int)
    requires PoolInv(s) && c in s.used && unused !in s.recs
    ensures var t, u := CreatedUnit(s, c, need, 0, unused, commit), Handed(s, c, need, unused);
      && c in t.used && u in t.recs && t.recs[u].cache == Some(c)
      && (v != u ==> (v in t.recs <==> v in s.recs) && (v in s.recs ==> t.recs[v] == s.recs[v]))
  {
  }

  /** The pool hands out a unit: it is the only one that the cache does not know yet. */
  lemma SuppliedJoint(p: Params, s: Pool, t: State, c: nat, k: int, unused: int)
    requires PoolInv(s) && Spaced(p, s) && Joint(s, t, c, {}) && 0 < k && unused !in s.recs
    requires NewMemory(p, s, unused, Rec(p.commit, Some(c), 0, NewSize(p, k)))
    ensures var s', u := CreatedUnit(s, c, NewSize(p, k), 0, unused, p.commit), Handed(s, c, NewSize(p, k), unused);
      && PoolInv(s') && Spaced(p, s') && Joint(s', t, c, {u}) && u in s'.recs
      && Supplied(p, t, k, RegionOf(s', u)) && u !in t.units && Fresh(s', c, RegionOf(s', u))
  {
    var need := NewSize(p, k);
    var s', u := CreatedUnit(s, c, need, 0, unused, p.commit), Handed(s, c, need, unused);
    var op := CreateOp(c, need, 0, unused, p.commit);
    JointBacks(s, t, c, {});
    CreatedIsSupplied(p, s, t, c, k, unused);
    SpacedKeeps(p, s, op);
    assert s' == Apply(s, op);
    HandedElse(s, c, need, unused, p.commit, u);
    HandedIs(s, c, need, unused, p.commit);
    forall v | v in t.units ensures Agreed(s', c, v, t.units[v]) {
      assert Agreed(s, c, v, t.units[v]);
      HandedElse(s, c, need, unused, p.commit, v);
    }
    forall v ensures Owned(s', t, c, {u}, v) {
      assert Owned(s, t, c, {}, v);
      HandedElse(s, c, need, unused, p.commit, v);
    }
  }

  // ----- other operations of the cache

  /** Operations that grow no unit */
  lemma SameJoint(s: Pool, t: State, t': State, c: nat)
    requires Joint(s, t, c, {}) && Grew(t, t', NONE, None) && NONE !in t.units
    ensures Joint(s, t', c, {})
  {
    forall v | v in t'.units ensures Agreed(s, c, v, t'.units[v]) {
      assert Agreed(s, c, v, t.units[v]);
    }
    forall v ensures Owned(s, t', c, {}, v) {
      assert Owned(s, t, c, {}, v);
    }
  }

  lemma NoneIsNoUnit(p: Params, t: State)
    requires Good(p, t)
    ensures NONE !in t.units
  {
    assert forall u | u in t.units :: UnitOk(p, u, t.units[u]);
  }

  lemma RemoveUnits(p: Params, t: State, f: nat)
    requires Good(p, t) && f in t.home
    ensures SharedRuns.Enabled(p, t, SharedRuns.RemoveOp(f))
    ensures Grew(t, SharedRuns.Apply(p, t, SharedRuns.RemoveOp(f)), NONE, None)
  {
    RemoveDefined(p, t, f);
    AddFreeUnits(Vacate(t, t.home[f]), t.home[f], t.order[0], NONE);
  }

  lemma ReleaseUnitsAt(t: State, a: int, k: int)
    requires a in t.slots && t.slots[a].unit in t.units && t.order != [] && |t.lists| == BUCKET_COUNT
    requires k <= t.slots[a].len
    ensures Grew(t, Release(t, a, k), NONE, None)
  {
    if !(t.slots[a].unit == t.order[0] && a + t.slots[a].len == t.units[t.order[0]].cur) {
      AddFreeUnits(Shed(t, a, k), a + k, t.order[0], NONE);
    }
  }

  lemma ReleaseUnits(p: Params, t: State, f: nat, k: int)
    requires Good(p, t) && SharedRuns.Enabled(p, t, SharedRuns.ReleaseOp(f, k))
    ensures Grew(t, SharedRuns.Apply(p, t, SharedRuns.ReleaseOp(f, k)), NONE, None)
  {
    SharedRuns.ReleaseGood(p, t, f, k);
    ReleaseUnitsAt(t, t.home[f], k);
  }

  // ----- a flush

  /** The cache without the units of `chain`. */
  function ForgotAll(t: State, chain: seq<int>): State
    requires |t.lists| == BUCKET_COUNT
    decreases |chain|
  {
    if chain == [] then t else ForgotAll(Forget(t, chain[0]), chain[1..])
  }

  lemma {:induction false} ForgotAllKeeps(p: Params, t: State, chain: seq<int>)
    requires Good(p, t) && NoDup(chain) && |t.lists| == BUCKET_COUNT
    requires forall i | 0 <= i < |chain| :: chain[i] in t.flush
    ensures Good(p, ForgotAll(t, chain))
    ensures forall v :: v in ForgotAll(t, chain).units <==> v in t.units && v !in chain
    ensures forall v | v in ForgotAll(t, chain).units :: ForgotAll(t, chain).units[v] == t.units[v]
    decreases |chain|
  {
    if chain != [] {
      ForgetKeeps(p, t, chain[0]);
      WithoutKeeps(t.flush, chain[0]);
      var t1, rest := Forget(t, chain[0]), chain[1..];
      forall i | 0 <= i < |rest| ensures rest[i] in t1.flush {
        assert rest[i] == chain[i + 1];
      }
      ForgotAllKeeps(p, t1, rest);
    }
  }

  lemma FlushedElse(s: Pool, chain: seq<int>, time: nat, v: int)
    requires PoolInv(s) && NoDup(chain) && v in s.recs && v !in chain
    requires forall i | 0 <= i < |chain| :: chain[i] in s.recs && chain[i] !in s.toFree
    ensures v in Flushed(s, chain, time).recs && Flushed(s, chain, time).recs[v] == s.recs[v]
    ensures v in Flushed(s, chain, time).toFree <==> v in s.toFree
  {
    AllStampedKeeps(s, chain, time);
    OthersKeepCache(AllStamped(s, chain, time), chain, v);
  }

  lemma FlushedLists(s: Pool, chain: seq<int>, time: nat)
    requires PoolInv(s) && NoDup(chain)
    requires forall i | 0 <= i < |chain| :: chain[i] in s.recs && chain[i] !in s.toFree
    ensures var s' := Flushed(s, chain, time);
      s'.dead == s.dead && s'.toFree == s.toFree + chain && s'.recs.Keys == s.recs.Keys && s'.used.Keys == s.used.Keys
  {
    AllStampedKeeps(s, chain, time);
    UncachedLists(AllStamped(s, chain, time), chain);
  }

  lemma {:induction false} UncachedLists(s: Pool, chain: seq<int>)
    requires forall i | 0 <= i < |chain| :: chain[i] in s.recs
    ensures var t := AllUncached(s, chain);
      t.dead == s.dead && t.toFree == s.toFree && t.recs.Keys == s.recs.Keys && t.used.Keys == s.used.Keys
    decreases |chain|
  {
    if |chain| > 1 { UncachedLists(Uncached(s, chain[0]), chain[1..]); }
  }

  /** The units of the flush are units of the cache and live ones of the pool. */
  lemma ChainLive(p: Params, s: Pool, t: State, c: nat, chain: seq<int>)
    requires Good(p, t) && Joint(s, t, c, {}) && forall i | 0 <= i < |chain| :: chain[i] in t.flush
    ensures forall i | 0 <= i < |chain| ::
      chain[i] in t.units && chain[i] in s.recs && chain[i] !in s.toFree && chain[i] !in s.dead
  {
    forall i | 0 <= i < |chain|
      ensures chain[i] in t.units && chain[i] in s.recs && chain[i] !in s.toFree && chain[i] !in s.dead
    {
      var u := chain[i];
      assert u in t.flush && u in t.units;
      assert Agreed(s, c, u, t.units[u]);
    }
  }

  /** A flush of retired units, which leave the cache and wait in the pool. */
  lemma FlushJoint(p: Params, s: Pool, t: State, c: nat, chain: seq<int>, time: nat)
    requires PoolInv(s) && Good(p, t) && Joint(s, t, c, {}) && NoDup(chain)
    requires |t.lists| == BUCKET_COUNT && forall i | 0 <= i < |chain| :: chain[i] in t.flush && chain[i] in s.recs
    ensures Joint(Flushed(s, chain, time), ForgotAll(t, chain), c, {})
  {
    var s', t' := Flushed(s, chain, time), ForgotAll(t, chain);
    ChainLive(p, s, t, c, chain);
    ForgotAllKeeps(p, t, chain);
    FlushedLists(s, chain, time);
    forall v | v in t'.units ensures Agreed(s', c, v, t'.units[v]) {
      assert Agreed(s, c, v, t.units[v]);
      FlushedElse(s, chain, time, v);
    }
    forall v ensures Owned(s', t', c, {}, v) {
      if v in s.recs && v !in chain {
        FlushedElse(s, chain, time, v);
        assert Owned(s, t, c, {}, v);
      }
    }
  }

  // ----- the pool at work for others

  /** The operation is about no unit of cache `c`, unless it frees units that wait. */
  ghost predicate Foreign(s: Pool, op: Op, c: nat)
  {
    match op
    case CreateOp(d, _, _, _, _) => d != c
    case GrowOp(u, _) => u in s.recs && s.recs[u].cache != Some(c)
    case QueueOp(chain) => forall i | 0 <= i < |chain| :: chain[i] in s.recs && s.recs[chain[i]].cache != Some(c)
    case _ => true
  }

  /** Nothing that concerns the cache differs between two states of the pool, but for units that waited. */
  ghost predicate SameFor(s: Pool, s': Pool, c: nat)
  {
    && c in s'.used
    && (forall v | v in s.recs && s.recs[v].cache == Some(c) && v !in s.toFree && v !in s.dead ::
      && v in s'.recs && v !in s'.toFree && v !in s'.dead
      && s'.recs[v].cache == Some(c) && s'.recs[v].size == s.recs[v].size && s'.recs[v].reserved == s.recs[v].reserved)
    && (forall v | v in s'.recs && s'.recs[v].cache == Some(c) ::
      v in s.recs && s.recs[v].cache == Some(c) && (v in s.toFree ==> v in s'.toFree))
  }

  lemma ForeignJoint(s: Pool, s': Pool, t: State, c: nat)
    requires Joint(s, t, c, {}) && SameFor(s, s', c)
    ensures Joint(s', t, c, {})
  {
    forall v | v in t.units ensures Agreed(s', c, v, t.units[v]) {
      assert Agreed(s, c, v, t.units[v]);
    }
    forall v ensures Owned(s', t, c, {}, v) {
      assert Owned(s, t, c, {}, v);
    }
  }

  lemma FreedSameFor(s: Pool, c: nat, threads: nat)
    requires PoolInv(s) && s.toFree != [] && s.toFree[0] in s.recs && c in s.used
    ensures SameFor(s, Freed(Popped(s), s.toFree[0], threads), c)
  {
    var u := s.toFree[0];
    PoppedKeeps(s);
    assert u in s.toFree;
    if Keeps(|s.dead|, threads) { InsertedNoDup(s.dead, Place(s.recs, s.dead, s.recs[u].size), u); }
  }

  lemma SameForThrough(s: Pool, s': Pool, s'': Pool, c: nat)
    requires SameFor(s, s', c) && SameFor(s', s'', c)
    ensures SameFor(s, s'', c)
  {
  }

  lemma {:induction false} FreedDueSameFor(s: Pool, c: nat, bound: nat, threads: nat)
    requires PoolInv(s) && c in s.used
    ensures SameFor(s, FreedDue(s, bound, threads), c)
    decreases |s.toFree|
  {
    if Due(s, bound) {
      FreedFirst(s, threads);
      var s' := Freed(Popped(s), s.toFree[0], threads);
      FreedSameFor(s, c, threads);
      FreedDueSameFor(s', c, bound, threads);
      SameForThrough(s, s', FreedDue(s, bound, threads), c);
    }
  }

  lemma CreatedSameFor(s: Pool, c: nat, d: nat, need: int, max: int, unused: int, commit: int)
    requires PoolInv(s) && c in s.used && d in s.used && d != c && unused !in s.recs
    ensures SameFor(s, CreatedUnit(s, d, need, max, unused, commit), c)
  {
    match FirstServing(s, s.dead, d, need, max) {
      case Some(i) =>
        RemoveAt(s.dead, i);
        assert s.dead[i] in s.dead;
      case None =>
        assert unused !in s.dead && unused !in s.toFree;
    }
  }

  lemma QueuedSameFor(s: Pool, c: nat, chain: seq<int>)
    requires PoolInv(s) && c in s.used && Enabled(s, QueueOp(chain)) && Foreign(s, QueueOp(chain), c)
    ensures SameFor(s, Queued(s, chain), c)
  {
    AllUncachedKeeps(s, chain);
    UncachedLists(s, chain);
    forall v | v in s.recs && s.recs[v].cache == Some(c)
      ensures v !in chain && Queued(s, chain).recs[v] == s.recs[v]
    {
      OthersKeepCache(s, chain, v);
    }
  }

  /** Whatever the pool does for others, it does nothing to the cache. */
  lemma ForeignKeeps(s: Pool, op: Op, c: nat)
    requires PoolInv(s) && Enabled(s, op) && Foreign(s, op, c) && c in s.used
    ensures SameFor(s, Apply(s, op), c)
  {
    match op
    case CreateOp(d, need, max, unused, commit) => CreatedSameFor(s, c, d, need, max, unused, commit);
    case QueueOp(chain) => QueuedSameFor(s, c, chain);
    case FreeOp(bound, threads) => FreedDueSameFor(s, c, bound, threads);
    case _ =>
  }

  // ----- runs of the two together

  datatype Both = Both(pool: Pool, cache: State)

  /** What cache `c` does, and what the pool does otherwise. */
  datatype Move =
    | AddMove(f: nat, k: int, unused: int, retire: bool)
    | RemoveMove(f: nat)
    | ReleaseMove(f: nat, k: int)
    | FlushMove(chain: seq<int>, time: nat)
    | PoolMove(op: Op)

  ghost predicate Fit(p: Params, c: nat, b: Both)
  {
    && PoolInv(b.pool) && Spaced(p, b.pool) && Good(p, b.cache) && Joint(b.pool, b.cache, c, {})
    && b.cache.order[0] in b.cache.units && |b.cache.lists| == BUCKET_COUNT
  }

  ghost predicate Possible(p: Params, c: nat, b: Both, m: Move)
    requires Fit(p, c, b)
  {
    match m
    case AddMove(f, k, unused, _) =>
      && Request(p, b.cache, f, k)
      && (Creates(b.cache, k) ==>
        unused !in b.pool.recs && NewMemory(p, b.pool, unused, Rec(p.commit, Some(c), 0, NewSize(p, k))))
    case RemoveMove(f) => f in b.cache.home
    case ReleaseMove(f, k) => SharedRuns.Enabled(p, b.cache, SharedRuns.ReleaseOp(f, k))
    case FlushMove(chain, time) =>
      && NoDup(chain) && (forall i | 0 <= i < |chain| :: chain[i] in b.cache.flush && chain[i] in b.pool.recs)
      && (b.pool.toFree != [] ==> FlushAt(b.pool, |b.pool.toFree| - 1) <= time)
    case PoolMove(op) => Enabled(b.pool, op) && InOrder(p, b.pool, op) && Foreign(b.pool, op, c)
  }

  datatype Offer = Offer(pool: Pool, g: Region)

  /** The pool hands out a unit if the add opens one. */
  ghost function Offered(p: Params, c: nat, b: Both, k: int, unused: int): (o: Offer)
    requires Fit(p, c, b) && 0 < k
    requires Creates(b.cache, k) ==>
      unused !in b.pool.recs && NewMemory(p, b.pool, unused, Rec(p.commit, Some(c), 0, NewSize(p, k)))
    ensures PoolInv(o.pool) && Spaced(p, o.pool) && Joint(o.pool, b.cache, c, Extra(b.cache, k, o.g))
    ensures Creates(b.cache, k) ==> Supplied(p, b.cache, k, o.g) && o.g.base !in b.cache.units && Fresh(o.pool, c, o.g)
  {
    if Creates(b.cache, k) then
      SuppliedJoint(p, b.pool, b.cache, c, k, unused);
      var s := CreatedUnit(b.pool, c, NewSize(p, k), 0, unused, p.commit);
      Offer(s, RegionOf(s, Handed(b.pool, c, NewSize(p, k), unused)))
    else Offer(b.pool, Region(0, 0, 0))
  }

  ghost function Added(p: Params, c: nat, b: Both, f: nat, k: int, unused: int, retire: bool): (r: Both)
    requires Fit(p, c, b) && Possible(p, c, b, AddMove(f, k, unused, retire))
    ensures Fit(p, c, r)
  {
    var o := Offered(p, c, b, k, unused);
    AddJoint(p, o.pool, b.cache, c, f, k, o.g, retire);
    var t := Add(p, b.cache, f, k, o.g, retire);
    CurrentUnit(p, t);
    Both(PoolAfter(o.pool, b.cache, t), t)
  }

  lemma FlushedSpaced(p: Params, s: Pool, chain: seq<int>, time: nat)
    requires PoolInv(s) && Spaced(p, s) && NoDup(chain)
    requires forall i | 0 <= i < |chain| :: chain[i] in s.recs && chain[i] !in s.toFree
    ensures Spaced(p, Flushed(s, chain, time))
  {
    AllStampedKeeps(s, chain, time);
    AllUncachedKeeps(AllStamped(s, chain, time), chain);
    SpacedSame(p, s, Flushed(s, chain, time));
  }

  ghost function FlushedBoth(p: Params, c: nat, b: Both, chain: seq<int>, time: nat): (r: Both)
    requires Fit(p, c, b) && Possible(p, c, b, FlushMove(chain, time))
    ensures Fit(p, c, r)
  {
    ChainLive(p, b.pool, b.cache, c, chain);
    FlushedKeeps(b.pool, chain, time);
    FlushedSpaced(p, b.pool, chain, time);
    FlushJoint(p, b.pool, b.cache, c, chain, time);
    ForgotAllKeeps(p, b.cache, chain);
    CurrentUnit(p, ForgotAll(b.cache, chain));
    Both(Flushed(b.pool, chain, time), ForgotAll(b.cache, chain))
  }

  lemma CacheMoveKeeps(p: Params, c: nat, b: Both, t: State)
    requires Fit(p, c, b) && Good(p, t) && Grew(b.cache, t, NONE, None)
    ensures Fit(p, c, b.(cache := t))
  {
    NoneIsNoUnit(p, b.cache);
    SameJoint(b.pool, b.cache, t, c);
    CurrentUnit(p, t);
  }

  lemma PoolMoveKeeps(p: Params, c: nat, b: Both, op: Op)
    requires Fit(p, c, b) && Possible(p, c, b, PoolMove(op))
    ensures Fit(p, c, b.(pool := Apply(b.pool, op)))
  {
    ForeignKeeps(b.pool, op, c);
    SpacedKeeps(p, b.pool, op);
    ForeignJoint(b.pool, Apply(b.pool, op), b.cache, c);
  }

  ghost function Moved(p: Params, c: nat, b: Both, m: Move): (r: Both)
    requires Fit(p, c, b) && Possible(p, c, b, m)
    ensures Fit(p, c, r)
  {
    match m
    case AddMove(f, k, unused, retire) => Added(p, c, b, f, k, unused, retire)
    case RemoveMove(f) =>
      RemoveUnits(p, b.cache, f);
      var t := SharedRuns.Apply(p, b.cache, SharedRuns.RemoveOp(f));
      CacheMoveKeeps(p, c, b, t);
      b.(cache := t)
    case ReleaseMove(f, k) =>
      ReleaseUnits(p, b.cache, f, k);
      var t := SharedRuns.Apply(p, b.cache, SharedRuns.ReleaseOp(f, k));
      CacheMoveKeeps(p, c, b, t);
      b.(cache := t)
    case FlushMove(chain, time) => FlushedBoth(p, c, b, chain, time)
    case PoolMove(op) => PoolMoveKeeps(p, c, b, op); b.(pool := Apply(b.pool, op))
  }

  ghost predicate Runs(p: Params, c: nat, b: Both, ms: seq<Move>, r: Both)
    requires Fit(p, c, b)
    decreases |ms|
  {
    if ms == [] then b == r else Possible(p, c, b, ms[0]) && Runs(p, c, Moved(p, c, b, ms[0]), ms[1..], r)
  }

  lemma {:induction false} FitInRun(p: Params, c: nat, b: Both, ms: seq<Move>, r: Both)
    requires Fit(p, c, b) && Runs(p, c, b, ms, r)
    ensures Fit(p, c, r)
    decreases |ms|
  {
    if ms != [] { FitInRun(p, c, Moved(p, c, b, ms[0]), ms[1..], r); }
  }

  /** A new cache with its first unit from the pool. */
  lemma StartFits(p: Params, s: Pool, c: nat, size: int, unused: int)
    requires ValidParams(p) && PoolInv(s) && Spaced(p, s) && c !in s.used && unused !in s.recs
    requires NewMemory(p, s, unused, Rec(p.commit, Some(c), 0, size))
    ensures PoolInv(s.(used := s.used[c := 0]))
    ensures var s0 := s.(used := s.used[c := 0]);
      var s', u := CreatedUnit(s0, c, size, 0, unused, p.commit), Handed(s0, c, size, unused);
      u in s'.recs && Fit(p, c, Both(s', SharedRuns.Initial(RegionOf(s', u))))
  {
    CacheAdded(s, c);
    var s0 := s.(used := s.used[c := 0]);
    SpacedSame(p, s, s0);
    FirstUnit(p, s0, c, size, unused);
  }

  lemma FirstUnit(p: Params, s: Pool, c: nat, size: int, unused: int)
    requires ValidParams(p) && PoolInv(s) && Spaced(p, s) && c in s.used && unused !in s.recs
    requires forall v | v in s.recs :: s.recs[v].cache != Some(c)
    requires NewMemory(p, s, unused, Rec(p.commit, Some(c), 0, size))
    ensures var s', u := CreatedUnit(s, c, size, 0, unused, p.commit), Handed(s, c, size, unused);
      u in s'.recs && Fit(p, c, Both(s', SharedRuns.Initial(RegionOf(s', u))))
  {
    var op := CreateOp(c, size, 0, unused, p.commit);
    var s', u := CreatedUnit(s, c, size, 0, unused, p.commit), Handed(s, c, size, unused);
    HandedIs(s, c, size, unused, p.commit);
    HandedElse(s, c, size, unused, p.commit, u);
    SpacedKeeps(p, s, op);
    assert s' == Apply(s, op);
    assert Extent(p, u, s'.recs[u]);
    var g := RegionOf(s', u);
    SharedRuns.InitialGood(p, g);
    var t := SharedRuns.Initial(g);
    forall v ensures Owned(s', t, c, {}, v) {
      HandedElse(s, c, size, unused, p.commit, v);
    }
  }

  /** In every run of a cache together with the pool, from its first unit on: the size field of the cache
      is the memory committed in its units, and in those that wait to be freed and still name it. */
  lemma SizeInEveryRun(p: Params, c: nat, b: Both, ms: seq<Move>, r: Both)
    requires Fit(p, c, b) && Runs(p, c, b, ms, r)
    ensures c in r.pool.used && NoDup(r.pool.all) && forall v | v in r.cache.units :: v in r.pool.all
    ensures r.pool.used[c] == CommittedIn(r.cache.units, r.pool.all) + WaitingIn(r.pool, r.pool.all, c)
  {
    FitInRun(p, c, b, ms, r);
    SizeIsReal(r.pool, r.cache, c);
    forall v | v in r.cache.units ensures v in r.pool.all {
      assert Agreed(r.pool, c, v, r.cache.units[v]);
    }
  }

  // ----- the programs together

  /** The pool is told by how much unit `u` has grown: the other half of `cache_extend_commitment`. */
  method Tell(cache: SharedCache.Cache, pool: UnitLife.Units, u: int)
    requires pool.Valid() && u in cache.units && u in pool.abs.recs && u !in pool.abs.dead
    requires pool.abs.recs[u].cache.Some? && cache.units == cache.abs.units
    modifies pool
    ensures pool.Valid() && pool.abs == Matched(old(pool.abs), cache.abs, u)
  {
    pool.ExtendCommitment(u, cache.units[u].end - u - pool.nodes[u].size);
  }

  /** The pool hands out a unit if the add opens one. */
  method OfferUnit(cache: SharedCache.Cache, pool: UnitLife.Units, c: nat, k: int, unused: int) returns (g: Region)
    requires cache.Valid() && pool.Valid() && Fit(cache.p, c, Both(pool.abs, cache.abs)) && 0 < k
    requires Creates(cache.abs, k) ==>
      && unused !in pool.abs.recs
      && NewMemory(cache.p, pool.abs, unused, Rec(cache.p.commit, Some(c), 0, NewSize(cache.p, k)))
    modifies pool
    ensures pool.Valid()
    ensures Offer(pool.abs, g) == Offered(cache.p, c, Both(old(pool.abs), cache.abs), k, unused)
  {
    g := Region(0, 0, 0);
    NoneIsNoSlot(cache.p, cache.abs);
    var b, found := cache.SearchLists(k);
    if found.None? && NeedsRoom(cache.units[cache.order[0]], k) {
      JointBacks(pool.abs, cache.abs, c, {});
      g := Supply(cache, pool, c, k, unused);
    }
  }

  predicate NeedsRoom(r: Unit, k: int)
  {
    r.cur + k > r.reserved
  }

  lemma NoneIsNoSlot(p: Params, t: State)
    requires Good(p, t)
    ensures NONE !in t.slots && Listed(t.slots, t.lists)
  {
  }

  /** The pool is told of the two units that an add may have grown. */
  method TellBoth(cache: SharedCache.Cache, pool: UnitLife.Units, ghost c: nat, ghost t: State, cu: int)
    requires cache.Valid() && pool.Valid() && Spaced(cache.p, pool.abs) && t.order != [] && cu == t.order[0]
    requires cu in cache.abs.units && Behindhand(pool.abs, cache.abs, c, {cu} + {cache.abs.order[0]})
    modifies pool
    ensures pool.Valid() && cu in old(pool.abs).recs && cache.abs.order[0] in old(pool.abs).recs
    ensures cache.abs.order[0] in cache.abs.units && pool.abs == PoolAfter(old(pool.abs), t, cache.abs)
  {
    var u := cache.order[0];
    CurrentUnit(cache.p, cache.abs);
    assert Before(pool.abs, c, cu, cache.abs.units[cu]);
    assert Before(pool.abs, c, u, cache.abs.units[u]);
    Tell(cache, pool, cu);
    Tell(cache, pool, u);
  }

  lemma AddedIs(p: Params, c: nat, b: Both, f: nat, k: int, unused: int, retire: bool, o: Offer, t: State)
    requires Fit(p, c, b) && Possible(p, c, b, AddMove(f, k, unused, retire)) && o == Offered(p, c, b, k, unused)
    requires t == Add(p, b.cache, f, k, o.g, retire)
    ensures Good(p, t) && b.cache.order[0] in t.units && b.cache.order[0] in o.pool.recs && t.order[0] in o.pool.recs
    ensures t.order[0] in t.units && Behindhand(o.pool, t, c, {b.cache.order[0]} + {t.order[0]})
    ensures Moved(p, c, b, AddMove(f, k, unused, retire)) == Both(PoolAfter(o.pool, b.cache, t), t)
  {
    AddBehindhand(p, o.pool, b.cache, c, f, k, o.g, retire);
    AddJoint(p, o.pool, b.cache, c, f, k, o.g, retire);
  }

  /** The fragment is placed, and the pool is told. */
  method PlaceAndTell(cache: SharedCache.Cache, pool: UnitLife.Units, ghost c: nat, f: nat, ghost k: int, g: Region,
    retire: bool)
    requires cache.Valid() && pool.Valid() && Spaced(cache.p, pool.abs) && cache.abs.order[0] in cache.abs.units
    requires f !in cache.abs.home && f in cache.mem.frags && NewFragment(cache.p, cache.mem.frags[f])
    requires k == SlotSize(cache.p, cache.mem.frags[f].size) && Request(cache.p, cache.abs, f, k)
    requires Joint(pool.abs, cache.abs, c, Extra(cache.abs, k, g))
    requires Creates(cache.abs, k) ==>
      Supplied(cache.p, cache.abs, k, g) && g.base !in cache.abs.units && Fresh(pool.abs, c, g)
    modifies cache, pool
    ensures cache.Valid() && pool.Valid() && cache.abs == Add(cache.p, old(cache.abs), f, k, g, retire)
    ensures cache.abs.order[0] in old(pool.abs).recs && cache.abs.order[0] in cache.abs.units
    ensures old(cache.abs).order[0] in old(pool.abs).recs && old(cache.abs).order[0] in cache.abs.units
    ensures pool.abs == PoolAfter(old(pool.abs), old(cache.abs), cache.abs)
  {
    ghost var t := cache.abs;
    var cu := cache.order[0];
    AddBehindhand(cache.p, pool.abs, t, c, f, k, g, retire);
    cache.AddFragment(f, g, retire);
    TellBoth(cache, pool, c, t, cu);
  }

  /** `fcache_add_fragment`, with the unit that it may need and the account that it keeps. */
  method AddFragment(cache: SharedCache.Cache, pool: UnitLife.Units, c: nat, f: nat, unused: int, retire: bool)
    requires cache.Valid() && pool.Valid() && Fit(cache.p, c, Both(pool.abs, cache.abs))
    requires f !in cache.abs.home && f in cache.mem.frags && NewFragment(cache.p, cache.mem.frags[f])
    requires Possible(cache.p, c, Both(pool.abs, cache.abs),
      AddMove(f, SlotSize(cache.p, cache.mem.frags[f].size), unused, retire))
    modifies cache, pool
    ensures cache.Valid() && pool.Valid()
    ensures Both(pool.abs, cache.abs) == Moved(cache.p, c, old(Both(pool.abs, cache.abs)),
      AddMove(f, SlotSize(cache.p, old(cache.mem).frags[f].size), unused, retire))
  {
    var k := SlotSize(cache.p, cache.mem.frags[f].size);
    ghost var b := Both(pool.abs, cache.abs);
    var g := OfferUnit(cache, pool, c, k, unused);
    AddedIs(cache.p, c, b, f, k, unused, retire, Offer(pool.abs, g), Add(cache.p, b.cache, f, k, g, retire));
    PlaceAndTell(cache, pool, c, f, k, g, retire);
  }
}
