/** What holds in every state a shared code cache can reach. */
module SharedRuns {
  import opened Layout
  import opened SlotModel
  import opened SlotSteps
  import opened SharedOps
  import opened SharedFlush

  /** The operations that change which bytes belong to whom. */
  datatype Op =
    | AddOp(f: nat, k: int, g: Region, retire: bool)
    | RemoveOp(f: nat)
    | ReleaseOp(f: nat, k: int)
    | FlushOp(u: int)

  ghost predicate Enabled(p: Params, s: State, op: Op)
    requires Good(p, s)
  {
    match op
    case AddOp(f, k, g, _) => Request(p, s, f, k) && (CurrentUnit(p, s); Creates(s, k) ==> Supplied(p, s, k, g))
    case RemoveOp(f) => f in s.home
    case ReleaseOp(f, k) => f in s.home && (SlotInUnit(p, s, s.home[f]); Releasable(p, s, s.home[f], k))
    case FlushOp(u) => u in s.flush
  }

  ghost function Apply(p: Params, s: State, op: Op): (r: State)
    requires Good(p, s) && Enabled(p, s, op)
    ensures Good(p, r)
  {
    match op
    case AddOp(f, k, g, retire) => AddKeeps(p, s, f, k, g, retire); Add(p, s, f, k, g, retire)
    case RemoveOp(f) => RemoveDefined(p, s, f); RemoveGood(p, s, f); Remove(s, f)
    case ReleaseOp(f, k) => ReleaseGood(p, s, f, k); Release(s, s.home[f], k)
    case FlushOp(u) => ForgetKeeps(p, s, u); Forget(s, u)
  }

  lemma RemoveGood(p: Params, s: State, f: nat)
    requires Good(p, s) && f in s.home
    requires s.home[f] in s.slots && s.slots[s.home[f]].kind == Live(f) && s.slots[s.home[f]].len >= MIN_SLOT
    ensures Good(p, Remove(s, f))
  {
    RemoveKeeps(p, s, f);
    AddFreeOrder(Vacate(s, s.home[f]), s.home[f], s.order[0]);
  }

  lemma ReleaseGood(p: Params, s: State, f: nat, k: int)
    requires Good(p, s) && Enabled(p, s, ReleaseOp(f, k))
    ensures s.home[f] in s.slots && s.slots[s.home[f]].unit in s.units && k <= s.slots[s.home[f]].len
    ensures Good(p, Release(s, s.home[f], k))
  {
    SlotInUnit(p, s, s.home[f]);
    ReleaseKeeps(p, s, s.home[f], k);
    ReleaseOrder(s, s.home[f], k);
  }

  /** The run `ops` leads from `s` to `t`. */
  ghost predicate Leads(p: Params, s: State, ops: seq<Op>, t: State)
    requires Good(p, s)
    decreases |ops|
  {
    if ops == [] then s == t
    else Enabled(p, s, ops[0]) && Leads(p, Apply(p, s, ops[0]), ops[1..], t)
  }

  /** `fcache_cache_init`: one unit and empty free lists. */
  function Initial(g: Region): State
  {
    State(map[g.base := Unit(g.base, g.base + g.committed, g.base + g.reserved, false)], [g.base], [],
          map[], map[], map[], {}, seq(BUCKET_COUNT, _ => []))
  }

  lemma InitialGood(p: Params, g: Region)
    requires ValidParams(p) && RegionOk(p, map[], g)
    ensures Good(p, Initial(g))
  {
    var s := Initial(g);
    forall b | 0 <= b < BUCKET_COUNT ensures ListOk(s.slots, s.lists[b], b) {
    }
  }

  lemma {:induction false} RunKeeps(p: Params, s: State, ops: seq<Op>, t: State)
    requires Good(p, s) && Leads(p, s, ops, t)
    ensures Good(p, t)
    decreases |ops|
  {
    if ops != [] { RunKeeps(p, Apply(p, s, ops[0]), ops[1..], t); }
  }

  /** Some run of the cache that starts with region `g` ends in `t`. */
  ghost predicate Reachable(p: Params, g: Region, t: State)
  {
    && ValidParams(p) && RegionOk(p, map[], g)
    && (InitialGood(p, g); exists ops :: Leads(p, Initial(g), ops, t))
  }

  lemma ReachableGood(p: Params, g: Region, t: State)
    requires Reachable(p, g, t)
    ensures Good(p, t)
  {
    InitialGood(p, g);
    var ops :| Leads(p, Initial(g), ops, t);
    RunKeeps(p, Initial(g), ops, t);
  }

  // ----- consequences

  /** The physical walk: the slots met when stepping from `a` by slot sizes. */
  ghost function Walk(slots: Slots, u: int, cur: int, a: int): (w: seq<int>)
    ensures forall c | c in w :: c in slots && slots[c].unit == u && a <= c < cur
    decreases cur - a
  {
    if a < cur && a in slots && slots[a].unit == u && 0 < slots[a].len
    then [a] + Walk(slots, u, cur, a + slots[a].len) else []
  }

  lemma {:induction false} WalkComplete(p: Params, units: Units, slots: Slots, cu: int, u: int, a: int)
    requires Laid(p, units, slots, cu) && u in units
    requires a == units[u].cur || (a in slots && slots[a].unit == u)
    ensures forall c | c in slots && slots[c].unit == u && a <= c :: c in Walk(slots, u, units[u].cur, a)
    decreases units[u].cur - a
  {
    if a in slots && slots[a].unit == u {
      assert Placed(p, units, slots, cu, a);
      WalkComplete(p, units, slots, cu, u, a + slots[a].len);
    } else {
      forall c | c in slots && slots[c].unit == u ensures c < a { assert Placed(p, units, slots, cu, c); }
    }
  }

  lemma {:induction false} WalkChain(p: Params, units: Units, slots: Slots, cu: int, u: int, a: int)
    requires Laid(p, units, slots, cu) && u in units
    requires a == units[u].cur || (a in slots && slots[a].unit == u)
    ensures var w := Walk(slots, u, units[u].cur, a);
      && (forall i | 0 <= i < |w| - 1 :: w[i] + slots[w[i]].len == w[i + 1])
      && (a < units[u].cur ==> w != [] && w[0] == a && w[|w| - 1] + slots[w[|w| - 1]].len == units[u].cur)
    decreases units[u].cur - a
  {
    if a in slots && slots[a].unit == u {
      assert Placed(p, units, slots, cu, a);
      WalkChain(p, units, slots, cu, u, a + slots[a].len);
    }
  }

  /** In every reachable state the walk of a unit starts at its first byte, ends exactly at the
      append point and meets every slot of the unit and nothing else. */
  lemma WalkMeetsEverySlot(p: Params, g: Region, t: State, u: int)
    requires Reachable(p, g, t) && u in t.units
    ensures var w := Walk(t.slots, u, t.units[u].cur, u);
      && (forall c :: c in w <==> c in t.slots && t.slots[c].unit == u)
      && (forall i | 0 <= i < |w| - 1 :: w[i] + t.slots[w[i]].len == w[i + 1])
      && (if w == [] then t.units[u].cur == u else w[0] == u && w[|w| - 1] + t.slots[w[|w| - 1]].len == t.units[u].cur)
  {
    ReachableGood(p, g, t);
    var cu := t.order[0];
    assert UnitOk(p, u, t.units[u]);
    WalkComplete(p, t.units, t.slots, cu, u, u);
    WalkChain(p, t.units, t.slots, cu, u, u);
    forall c | c in t.slots && t.slots[c].unit == u ensures u <= c { assert Placed(p, t.units, t.slots, cu, c); }
  }

  lemma {:induction false} OwnerFrom(p: Params, units: Units, slots: Slots, cu: int, u: int, a: int, y: int)
    returns (o: int)
    requires Laid(p, units, slots, cu) && u in units && a in slots && slots[a].unit == u
    requires a <= y < units[u].cur
    ensures o in slots && slots[o].unit == u && o <= y < o + slots[o].len
    decreases units[u].cur - a
  {
    assert Placed(p, units, slots, cu, a);
    if y < a + slots[a].len { o := a; } else { o := OwnerFrom(p, units, slots, cu, u, a + slots[a].len, y); }
  }

  /** In every reachable state each claimed byte of a unit belongs to exactly one slot, that slot
      is a fragment or a free entry, and it lies inside the claimed part of the unit. */
  lemma EveryByteHasOneOwner(p: Params, g: Region, t: State, u: int, y: int)
    requires Reachable(p, g, t) && u in t.units && u <= y < t.units[u].cur
    ensures exists o :: o in t.slots && o <= y < o + t.slots[o].len && u <= o && o + t.slots[o].len <= t.units[u].cur
                        && !t.slots[o].kind.Limbo?
    ensures forall o, q | o in t.slots && q in t.slots && o <= y < o + t.slots[o].len && q <= y < q + t.slots[q].len ::
      o == q
  {
    ReachableGood(p, g, t);
    assert UnitOk(p, u, t.units[u]);
    var o := OwnerFrom(p, t.units, t.slots, t.order[0], u, u, y);
    assert Placed(p, t.units, t.slots, t.order[0], o) && KindOk(t, NONE, t.order[0], o);
  }

  /** In every reachable state a fragment is marked exactly when a free entry ends where its slot
      begins. */
  lemma MarkedIffAfterFree(p: Params, g: Region, t: State, b: int)
    requires Reachable(p, g, t) && b in t.slots && t.slots[b].kind.Live?
    ensures t.slots[b].kind.f in t.follows <==>
      exists a :: a in t.slots && t.slots[a].kind.Free? && a + t.slots[a].len == b
  {
    ReachableGood(p, g, t);
    MarkedAfterFree(t, NONE, t.order[0], b);
  }

  lemma FreeHasFooter(s: State, x: int, cu: int, a: int)
    requires Marked(s, x, cu) && x !in s.slots && a in s.slots && s.slots[a].kind.Free?
    ensures a + s.slots[a].len in s.foot
  {
    assert KindOk(s, x, cu, a);
  }

  lemma MarkedAfterFree(s: State, x: int, cu: int, b: int)
    requires Marked(s, x, cu) && x !in s.slots && b in s.slots && s.slots[b].kind.Live?
    ensures s.slots[b].kind.f in s.follows <==>
      exists a :: a in s.slots && s.slots[a].kind.Free? && a + s.slots[a].len == b
  {
    assert KindOk(s, x, cu, b);
    if b in s.foot {
      assert FootOk(s.slots, b, s.foot[b]);
    }
    forall a | a in s.slots && s.slots[a].kind.Free? && a + s.slots[a].len == b ensures b in s.foot {
      FreeHasFooter(s, x, cu, a);
    }
  }

  /** In every reachable state no two free entries touch and no free entry ends at the append
      point of the current unit. */
  lemma FreeEntriesStandAlone(p: Params, g: Region, t: State, a: int)
    requires Reachable(p, g, t) && a in t.slots && t.slots[a].kind.Free?
    ensures t.order != [] && t.order[0] in t.units
    ensures a + t.slots[a].len in t.slots ==> t.slots[a + t.slots[a].len].kind.Live?
    ensures t.slots[a].unit == t.order[0] ==> a + t.slots[a].len < t.units[t.order[0]].cur
  {
    ReachableGood(p, g, t);
    CurrentUnit(p, t);
    SlotInUnit(p, t, a);
    BehindFree(t, NONE, t.order[0], a);
    if t.slots[a].unit == t.order[0] { FreeNotLast(p, t, a); }
  }

  lemma BehindFree(s: State, x: int, cu: int, a: int)
    requires Marked(s, x, cu) && x !in s.slots && a in s.slots && s.slots[a].kind.Free?
    ensures a + s.slots[a].len in s.slots ==> s.slots[a + s.slots[a].len].kind.Live?
  {
    assert KindOk(s, x, cu, a);
    if a + s.slots[a].len in s.slots { assert KindOk(s, x, cu, a + s.slots[a].len); }
  }

  /** In every reachable state a free entry is on the list of its size class and nowhere else. */
  lemma ListedExactlyOnce(p: Params, g: Region, t: State, a: int)
    requires Reachable(p, g, t) && a in t.slots && t.slots[a].kind.Free?
    ensures |t.lists| == BUCKET_COUNT
    ensures t.slots[a].len >= 0 && a in t.lists[Bucket(t.slots[a].len)]
    ensures forall b, i, c, j | 0 <= b < BUCKET_COUNT && 0 <= i < |t.lists[b]| && t.lists[b][i] == a
              && 0 <= c < BUCKET_COUNT && 0 <= j < |t.lists[c]| && t.lists[c][j] == a :: b == c && i == j
  {
    ReachableGood(p, g, t);
    assert Placed(p, t.units, t.slots, t.order[0], a);
    ListedOnce(t.slots, t.lists, a);
  }

  lemma ListedOnce(slots: Slots, lists: seq<seq<int>>, a: int)
    requires Listed(slots, lists) && FreeLen(slots, a) >= 0
    ensures a in lists[Bucket(FreeLen(slots, a))]
    ensures forall b, i, c, j | 0 <= b < BUCKET_COUNT && 0 <= i < |lists[b]| && lists[b][i] == a
              && 0 <= c < BUCKET_COUNT && 0 <= j < |lists[c]| && lists[c][j] == a :: b == c && i == j
  {
    assert Entry(slots, Bucket(FreeLen(slots, a)), a);
    assert ListOk(slots, lists[Bucket(FreeLen(slots, a))], Bucket(FreeLen(slots, a)));
    forall b, i | 0 <= b < BUCKET_COUNT && 0 <= i < |lists[b]| && lists[b][i] == a
      ensures b == Bucket(FreeLen(slots, a))
    {
      assert ListOk(slots, lists[b], b);
      assert a in lists[b];
      assert Entry(slots, b, a);
    }
  }

  /** In every reachable state the room left in the current unit is nothing or at least an end
      hole, and no other unit has any. */
  lemma GapIsNeverASliver(p: Params, g: Region, t: State, u: int)
    requires Reachable(p, g, t) && u in t.units
    ensures t.order != []
    ensures var gap := t.units[u].end - t.units[u].cur;
      && (t.units[u].full <==> gap == 0)
      && (gap == 0 || (u == t.order[0] && gap >= EndHole(p)))
  {
    ReachableGood(p, g, t);
    assert Gap(p, u == t.order[0], t.units[u]);
  }
}
