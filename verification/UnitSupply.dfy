/** Where the units of a shared cache come from: what `fcache_create_unit` hands out is what
    `try_for_more_space` needs (Simulator/core/fcache.c). */
module UnitSupply {
  import opened Layout
  import opened SlotModel
  import opened SlotSteps
  import opened SharedSpec
  import opened SharedOps
  import opened UnitPool
  import SharedCache
  import UnitLife

  /** A unit is a piece of memory fit for a shared cache. */
  ghost predicate Extent(p: Params, u: int, r: Rec)
  {
    && 0 < u && Multiple(p.align, u)
    && 0 < r.size <= r.reserved <= MAX_ENTRY && p.maxUnit <= r.reserved && r.size % PAGE == 0 && r.reserved % PAGE == 0
  }

  ghost predicate Apart(u: int, r: Rec, v: int, q: Rec)
  {
    u + r.reserved < v || v + q.reserved < u
  }

  /** All units of the pool are, and they do not touch each other. */
  ghost predicate Spaced(p: Params, s: Pool)
  {
    && (forall u {:trigger Extent(p, u, s.recs[u])} | u in s.recs :: Extent(p, u, s.recs[u]))
    && (forall u, v {:trigger Apart(u, s.recs[u], v, s.recs[v])} | u in s.recs && v in s.recs && u != v ::
      Apart(u, s.recs[u], v, s.recs[v]))
  }

  /** The extents of the units in `t` are those they had in `s`. */
  ghost predicate SameExtents(s: Pool, t: Pool)
  {
    forall u | u in t.recs ::
      u in s.recs && t.recs[u].size == s.recs[u].size && t.recs[u].reserved == s.recs[u].reserved
  }

  lemma SpacedSame(p: Params, s: Pool, t: Pool)
    requires Spaced(p, s) && SameExtents(s, t)
    ensures Spaced(p, t)
  {
    forall u | u in t.recs ensures Extent(p, u, t.recs[u]) {
      assert Extent(p, u, s.recs[u]);
    }
    forall u, v | u in t.recs && v in t.recs && u != v ensures Apart(u, t.recs[u], v, t.recs[v]) {
      assert Apart(u, s.recs[u], v, s.recs[v]);
    }
  }

  /** What is reserved and committed for an operation is in order: new memory lies apart from what
      the pool has, and a unit grows by whole pages inside its reservation. */
  ghost predicate InOrder(p: Params, s: Pool, op: Op)
  {
    match op
    case CreateOp(c, need, max, unused, commit) => NewMemory(p, s, unused, Rec(commit, Some(c), 0, need))
    case GrowOp(u, inc) => u in s.recs && 0 <= inc <= s.recs[u].reserved - s.recs[u].size && inc % PAGE == 0
    case _ => true
  }

  ghost predicate NewMemory(p: Params, s: Pool, u: int, r: Rec)
  {
    Extent(p, u, r) && forall v {:trigger Apart(u, r, v, s.recs[v])} | v in s.recs :: Apart(u, r, v, s.recs[v])
  }

  lemma BornSpaced(p: Params, s: Pool, u: int, size: int, reserved: int, c: nat)
    requires Spaced(p, s) && u !in s.recs && NewMemory(p, s, u, Rec(size, Some(c), 0, reserved))
    ensures Spaced(p, Born(s, u, size, reserved, c))
  {
    var t := Born(s, u, size, reserved, c);
    forall v | v in t.recs ensures Extent(p, v, t.recs[v]) {
      if v != u { assert Extent(p, v, s.recs[v]); }
    }
    forall v, w | v in t.recs && w in t.recs && v != w ensures Apart(v, t.recs[v], w, t.recs[w]) {
      if v == u {
        assert Apart(u, t.recs[u], w, s.recs[w]);
      } else if w == u {
        assert Apart(u, t.recs[u], v, s.recs[v]);
      } else {
        assert Apart(v, s.recs[v], w, s.recs[w]);
      }
    }
  }

  lemma GrownSpaced(p: Params, s: Pool, u: int, inc: int)
    requires Spaced(p, s) && InOrder(p, s, GrowOp(u, inc))
    ensures Spaced(p, Grown(s, u, inc))
  {
    var t := Grown(s, u, inc);
    forall v | v in t.recs ensures Extent(p, v, t.recs[v]) {
      assert Extent(p, v, s.recs[v]);
      if v == u { WholePages(s.recs[u].size, inc); }
    }
    forall v, w | v in t.recs && w in t.recs && v != w ensures Apart(v, t.recs[v], w, t.recs[w]) {
      assert Apart(v, s.recs[v], w, s.recs[w]);
    }
  }

  lemma {:induction false} FreedDueExtents(s: Pool, bound: nat, threads: nat)
    requires PoolInv(s)
    ensures SameExtents(s, FreedDue(s, bound, threads))
    decreases |s.toFree|
  {
    if Due(s, bound) {
      PoppedKeeps(s);
      FreedKeeps(Popped(s), s.toFree[0], threads);
      FreedDueExtents(Freed(Popped(s), s.toFree[0], threads), bound, threads);
    }
  }

  /** Every operation keeps the units apart. */
  lemma SpacedKeeps(p: Params, s: Pool, op: Op)
    requires PoolInv(s) && Enabled(s, op) && Spaced(p, s) && InOrder(p, s, op)
    ensures Spaced(p, Apply(s, op))
  {
    match op
    case CreateOp(c, need, max, unused, commit) =>
      match FirstServing(s, s.dead, c, need, max) {
        case Some(i) => SpacedSame(p, s, Revived(s, i, c));
        case None => BornSpaced(p, s, unused, commit, need, c);
      }
    case GrowOp(u, inc) => GrownSpaced(p, s, u, inc);
    case StampOp(u, time) => SpacedSame(p, s, Stamped(s, u, time));
    case QueueOp(chain) =>
      AllUncachedKeeps(s, chain);
      SpacedSame(p, s, Queued(s, chain));
    case FreeOp(bound, threads) =>
      FreedDueExtents(s, bound, threads);
      SpacedSame(p, s, FreedDue(s, bound, threads));
    case CacheOp(c) => SpacedSame(p, s, s.(used := s.used[c := 0]));
  }

  // ----- a shared cache and the pool

  /** The units of the cache are live units of the pool. */
  ghost predicate Backs(s: Pool, t: State)
  {
    forall v | v in t.units ::
      v in s.recs && v !in s.dead && v !in s.toFree && t.units[v].reserved == v + s.recs[v].reserved
  }

  /** The unit that a request for `need` bytes gets. */
  function Handed(s: Pool, c: nat, need: int, unused: int): int
  {
    match FirstServing(s, s.dead, c, need, 0)
    case Some(i) => s.dead[i]
    case None => unused
  }

  /** The memory of a unit. */
  function RegionOf(s: Pool, u: int): Region
    requires u in s.recs
  {
    Region(u, s.recs[u].size, s.recs[u].reserved)
  }

  lemma HandedIs(s: Pool, c: nat, need: int, unused: int, commit: int)
    requires PoolInv(s) && c in s.used && unused !in s.recs
    ensures var t, u := CreatedUnit(s, c, need, 0, unused, commit), Handed(s, c, need, unused);
      && u in t.recs && u !in t.dead && u !in t.toFree
      && (forall v | v in s.recs ::
            v in t.recs && t.recs[v].reserved == s.recs[v].reserved && (v !in s.dead ==> v !in t.dead))
      && t.toFree == s.toFree
      && (if u !in s.recs then u == unused && t.recs[u] == Rec(commit, Some(c), 0, need)
          else u in s.dead && t.recs[u].size == s.recs[u].size >= need && t.recs[u].reserved == s.recs[u].reserved)
  {
    var t := CreatedUnit(s, c, need, 0, unused, commit);
    match FirstServing(s, s.dead, c, need, 0)
    case Some(i) =>
      assert s.dead[i] in s.dead;
    case None =>
      forall v | v in s.dead ensures v in s.recs {
      }
      forall v | v in s.toFree ensures v in s.recs {
      }
  }

  /** A unit from the pool, dead or new, is one with which a shared cache can go on: it lies apart
      from the cache's other units and is large enough for the request. The pool goes on backing the
      cache. */
  lemma CreatedIsSupplied(p: Params, s: Pool, t: State, c: nat, k: int, unused: int)
    requires PoolInv(s) && Spaced(p, s) && Backs(s, t) && 0 < k && c in s.used && unused !in s.recs
    requires NewMemory(p, s, unused, Rec(p.commit, Some(c), 0, NewSize(p, k)))
    ensures var s', u := CreatedUnit(s, c, NewSize(p, k), 0, unused, p.commit), Handed(s, c, NewSize(p, k), unused);
      && u in s'.recs && Supplied(p, t, k, RegionOf(s', u)) && Backs(s', t) && u !in t.units && u !in s'.dead
      && u !in s'.toFree
  {
    var need := NewSize(p, k);
    var s', u := CreatedUnit(s, c, need, 0, unused, p.commit), Handed(s, c, need, unused);
    HandedIs(s, c, need, unused, p.commit);
    var g := RegionOf(s', u);
    assert Extent(p, u, s'.recs[u]) by {
      if u in s.recs { assert Extent(p, u, s.recs[u]); }
    }
    forall v | v in t.units ensures t.units[v].reserved < g.base || g.base + g.reserved < v {
      if u in s.recs {
        assert Apart(u, s.recs[u], v, s.recs[v]);
      } else {
        assert Apart(u, Rec(p.commit, Some(c), 0, need), v, s.recs[v]);
      }
    }
  }

  /** A unit has kept its reservation, and what is committed of it is no less than before. */
  ghost predicate Extended(r: Unit, r': Unit, grows: bool)
  {
    r'.reserved == r.reserved && (if grows then r'.end >= r.end else r'.end == r.end)
  }

  /** The units of `t` are those of `s`, of which only `cu` may have grown, and the new one at `g`. */
  ghost predicate Grew(s: State, t: State, cu: int, g: Option<Region>)
  {
    && t.units.Keys == s.units.Keys + (if g.Some? then {g.value.base} else {})
    && (forall v {:trigger v in t.units} | v in s.units :: v in t.units && Extended(s.units[v], t.units[v], v == cu))
    && (g.Some? ==> var b := g.value.base;
      && b !in s.units && b in t.units
      && t.units[b].reserved == b + g.value.reserved && t.units[b].end >= b + g.value.committed)
  }

  lemma AddFreeUnits(s: State, x: int, cu: int, z: int)
    requires x in s.slots && |s.lists| == BUCKET_COUNT && s.slots[x].len >= 0
    ensures Grew(s, AddFree(s, x, cu), z, None)
  {
    assert AbsorbNext(s, x).units == s.units;
    assert AbsorbPrev(AbsorbNext(s, x), x).units == s.units;
  }

  lemma ReuseUnits(p: Params, s: State, a: int, k: int, f: nat, z: int)
    requires FreeLen(s.slots, a) >= k >= 0 && |s.lists| == BUCKET_COUNT && s.order != []
    ensures Grew(s, Reuse(p, s, a, k, f), z, None)
  {
    if s.slots[a].len - k > EmptyHole(p) {
      var t := OccupyPart(Seize(s, a), a, k, f);
      AddFreeUnits(t, a + k, s.order[0], z);
      assert t.units == s.units;
      assert Reuse(p, s, a, k, f) == AddFree(t, a + k, s.order[0]);
    } else {
      assert Reuse(p, s, a, k, f).units == s.units;
    }
  }

  lemma CommittedUnits(p: Params, s: State, k: int, f: nat)
    requires Good(p, s) && s.order[0] in s.units && 0 < k
    requires s.units[s.order[0]].cur + k <= s.units[s.order[0]].reserved
    ensures Grew(s, AppendFit(p, Committed(p, s, k), k, f), s.order[0], None)
  {
    var cu := s.order[0];
    assert UnitOk(p, cu, s.units[cu]);
    if k > s.units[cu].end - s.units[cu].cur { CommitSizeFits(p, cu, s.units[cu], k); }
  }

  lemma CloseUnits(s: State, u: int)
    requires u in s.units && |s.lists| == BUCKET_COUNT
    ensures Grew(s, Close(s, u), u, None)
  {
  }

  lemma FullyCommittedUnits(s: State)
    requires s.order != [] && s.order[0] in s.units
    ensures Grew(s, FullyCommitted(s), s.order[0], None)
  {
  }

  lemma GrewFurther(s: State, t: State, u: State, cu: int)
    requires Grew(s, t, cu, None) && Grew(t, u, cu, None)
    ensures Grew(s, u, cu, None)
  {
  }

  lemma ExhaustUnits(p: Params, s: State)
    requires Good(p, s) && s.order[0] in s.units && |s.lists| == BUCKET_COUNT
    ensures Grew(s, Exhaust(s), s.order[0], None)
  {
    FullyCommittedUnits(s);
    CloseUnits(FullyCommitted(s), s.order[0]);
    GrewFurther(s, FullyCommitted(s), Exhaust(s), s.order[0]);
  }

  lemma OpenUnits(s: State, t: State, u: State, cu: int, g: Region)
    requires Grew(s, t, cu, None) && g.base !in s.units
    requires u.units == t.units[g.base := Unit(g.base, g.base + g.committed, g.base + g.reserved, false)]
    ensures Grew(s, u, cu, Some(g))
  {
  }

  lemma NextUnits(p: Params, s: State, g: Region, retire: bool)
    requires Good(p, s) && s.order[0] in s.units && |s.lists| == BUCKET_COUNT && g.base !in s.units
    ensures Grew(s, NextUnit(s, g, retire), s.order[0], Some(g))
  {
    ExhaustUnits(p, s);
    OpenUnits(s, Exhaust(s), NextUnit(s, g, retire), s.order[0], g);
  }

  lemma GrewAgain(s: State, t: State, u: State, cu: int, g: Region)
    requires Grew(s, t, cu, Some(g)) && Grew(t, u, g.base, None)
    ensures Grew(s, u, cu, Some(g))
  {
    forall v | v in s.units ensures v in u.units && Extended(s.units[v], u.units[v], v == cu) {
      assert v in t.units && v != g.base;
    }
  }

  /** An add changes only the sizes of the current unit and of the one it opens. */
  lemma AddUnits(p: Params, s: State, f: nat, k: int, g: Region, retire: bool)
    requires Good(p, s) && Request(p, s, f, k) && s.order[0] in s.units
    requires Creates(s, k) ==> Supplied(p, s, k, g) && g.base !in s.units
    ensures Grew(s, Add(p, s, f, k, g, retire), s.order[0], if Creates(s, k) then Some(g) else None)
    ensures Add(p, s, f, k, g, retire).order != []
    ensures Add(p, s, f, k, g, retire).order[0] == if Creates(s, k) then g.base else s.order[0]
  {
    var found := Search(s.slots, s.lists, Bucket(k), k);
    if found.Some? {
      if FreeLen(s.slots, found.value) >= k {
        ReuseUnits(p, s, found.value, k, f, s.order[0]);
        ReuseOrder(p, s, found.value, k, f);
      }
    } else if NeedsUnit(s, k) {
      NextUnits(p, s, g, retire);
      NextUnitKeeps(p, s, g, retire);
      var t := NextUnit(s, g, retire);
      NewUnitFits(p, s, k, g);
      CommittedUnits(p, t, k, f);
      GrewAgain(s, t, AppendFit(p, Committed(p, t, k), k, f), s.order[0], g);
    } else {
      CommittedUnits(p, s, k, f);
    }
  }

  /** Memory is committed on demand: only if no free entry is large enough and the append point is too
      near to what is committed, and then one increment or less than twice what is missing. */
  lemma CommitsOnDemand(p: Params, s: State, f: nat, k: int, g: Region, retire: bool)
    requires Good(p, s) && Request(p, s, f, k) && s.order[0] in s.units && !Creates(s, k)
    ensures var r, t := s.units[s.order[0]], Add(p, s, f, k, g, retire);
      && s.order[0] in t.units
      && var grown, missing := t.units[s.order[0]].end - r.end, r.cur + k - r.end;
        if missing <= 0 || exists a :: FreeLen(s.slots, a) >= k then grown == 0
        else missing <= grown && (grown <= p.commit || grown < 2 * missing)
  {
    SearchRefinesExhaustive(p, s, k);
    var found := Search(s.slots, s.lists, Bucket(k), k);
    if found.Some? {
      ReuseUnits(p, s, found.value, k, f, NONE);
      CurrentUnit(p, s);
    } else {
      CommittedKeeps(p, s, k);
    }
  }

  lemma NewUnitFits(p: Params, s: State, k: int, g: Region)
    requires 0 < k && Supplied(p, s, k, g)
    ensures k <= g.reserved
  {
  }

  /** An add, with a unit from the pool if it needs one, leaves a cache that the pool backs. */
  lemma BackedAfterAdd(p: Params, s: Pool, t: State, f: nat, k: int, g: Region, retire: bool)
    requires Good(p, t) && Request(p, t, f, k) && Backs(s, t)
    requires Creates(t, k) ==> Supplied(p, t, k, g) && g.base !in t.units
    requires g.base in s.recs && g == RegionOf(s, g.base) && g.base !in s.dead && g.base !in s.toFree
    ensures Backs(s, Add(p, t, f, k, g, retire))
  {
    CurrentUnit(p, t);
    AddUnits(p, t, f, k, g, retire);
  }

  /** The two programs together: the cache gets its unit from the pool. */
  method Supply(cache: SharedCache.Cache, pool: UnitLife.Units, c: nat, k: int, unused: int) returns (g: Region)
    requires cache.Valid() && pool.Valid() && Spaced(cache.p, pool.abs) && Backs(pool.abs, cache.abs)
    requires 0 < k && c in pool.used && unused !in pool.nodes
    requires c in pool.abs.used && unused !in pool.abs.recs
    requires NewMemory(cache.p, pool.abs, unused, Rec(cache.p.commit, Some(c), 0, NewSize(cache.p, k)))
    modifies pool
    ensures pool.Valid() && Spaced(cache.p, pool.abs) && Backs(pool.abs, cache.abs)
    ensures Supplied(cache.p, cache.abs, k, g) && g.base !in cache.abs.units && g.base in pool.abs.recs
    ensures g == RegionOf(pool.abs, g.base) && g.base == Handed(old(pool.abs), c, NewSize(cache.p, k), unused)
    ensures pool.abs == CreatedUnit(old(pool.abs), c, NewSize(cache.p, k), 0, unused, cache.p.commit)
    ensures g.base !in pool.abs.dead && g.base !in pool.abs.toFree
  {
    ghost var s := pool.abs;
    ghost var op := CreateOp(c, NewSize(cache.p, k), 0, unused, cache.p.commit);
    CreatedIsSupplied(cache.p, s, cache.abs, c, k, unused);
    SpacedKeeps(cache.p, s, op);
    var u := pool.CreateUnit(c, NewSize(cache.p, k), 0, unused, cache.p.commit);
    assert pool.abs == Apply(s, op);
    g := Region(u, pool.nodes[u].size, pool.nodes[u].reserved);
  }
}
