/** What an operation on a shared code cache leaves alone: the fragments it does not name. */
module SharedFrame {
  import opened Layout
  import opened SlotModel
  import opened SlotLayout
  import opened SlotSteps
  import opened SharedSpec
  import opened SharedOps
  import opened SharedRuns

  /** Fragment `h` has the same slot in both states. */
  ghost predicate Untouched(s: State, t: State, h: nat)
  {
    && h in s.home && h in t.home && t.home[h] == s.home[h]
    && s.home[h] in s.slots && s.home[h] in t.slots && t.slots[s.home[h]] == s.slots[s.home[h]]
    && s.slots[s.home[h]].kind.Live?
  }

  lemma AddFreeFrame(s: State, x: int, cu: int, h: nat)
    requires x in s.slots && s.slots[x].kind.Limbo? && |s.lists| == BUCKET_COUNT && s.slots[x].len >= 0
    requires Untouched(s, s, h)
    ensures Untouched(s, AddFree(s, x, cu), h) && AddFree(s, x, cu).home == s.home
  {
    var c := s.home[h];
    var s1 := AbsorbNext(s, x);
    assert s1.home == s.home && c in s1.slots && s1.slots[c] == s.slots[c] && s1.slots[x].kind.Limbo?;
    var s2 := AbsorbPrev(s1, x);
    assert s2.home == s.home && c in s2.slots && s2.slots[c] == s.slots[c] && Front(s1, x) != c;
  }

  lemma ReuseFrame(p: Params, s: State, a: int, k: int, f: nat, h: nat)
    requires FreeLen(s.slots, a) >= k > 0 && |s.lists| == BUCKET_COUNT && s.order != [] && Untouched(s, s, h) && h != f
    requires a + k !in s.slots || FreeLen(s.slots, a) - k <= EmptyHole(p)
    ensures Untouched(s, Reuse(p, s, a, k, f), h)
  {
    ReuseCases(p, s, a, k, f);
    var s1 := Seize(s, a);
    assert Untouched(s, s1, h);
    if s.slots[a].len - k > EmptyHole(p) {
      var s2 := OccupyPart(s1, a, k, f);
      assert Untouched(s, s2, h);
      AddFreeFrame(s2, a + k, s.order[0], h);
    }
  }

  lemma CloseFrame(p: Params, s: State, cu: int, h: nat)
    requires Inv(p, s, NONE, cu) && cu in s.units && Untouched(s, s, h)
    ensures Untouched(s, Close(s, cu), h)
  {
    AppendPointFree(p, s.units, s.slots, cu, cu);
  }

  lemma NextUnitFrame(p: Params, s: State, g: Region, retire: bool, h: nat)
    requires Good(p, s) && s.order[0] in s.units && Untouched(s, s, h)
    ensures Untouched(s, NextUnit(s, g, retire), h)
  {
    FullyCommittedKeeps(p, s);
    CloseFrame(p, FullyCommitted(s), s.order[0], h);
    assert NextUnit(s, g, retire).slots == Exhaust(s).slots && NextUnit(s, g, retire).home == Exhaust(s).home;
  }

  lemma AppendFrame(p: Params, s: State, k: int, f: nat, h: nat)
    requires Good(p, s) && s.order[0] in s.units && Untouched(s, s, h) && h != f
    ensures Untouched(s, AppendFit(p, s, k, f), h)
  {
    AppendPointFree(p, s.units, s.slots, s.order[0], s.order[0]);
  }

  lemma CommittedFrame(p: Params, s: State, k: int)
    requires s.order != [] && s.order[0] in s.units && 0 < p.commit
    ensures Committed(p, s, k).slots == s.slots && Committed(p, s, k).home == s.home
    ensures Committed(p, s, k).order == s.order
  {
  }

  lemma ReusePoint(p: Params, s: State, a: int, k: int)
    requires Good(p, s) && FreeLen(s.slots, a) > k > 0
    ensures a + k !in s.slots
  {
    assert Placed(p, s.units, s.slots, s.order[0], a);
  }

  lemma AddFrame(p: Params, s: State, f: nat, k: int, g: Region, retire: bool, h: nat)
    requires Good(p, s) && Request(p, s, f, k) && s.order[0] in s.units && (Creates(s, k) ==> Supplied(p, s, k, g))
    requires Untouched(s, s, h)
    ensures Untouched(s, Add(p, s, f, k, g, retire), h)
  {
    SearchRefinesExhaustive(p, s, k);
    match Search(s.slots, s.lists, Bucket(k), k)
    case Some(a) =>
      if FreeLen(s.slots, a) > k { ReusePoint(p, s, a, k); }
      ReuseFrame(p, s, a, k, f, h);
    case None =>
      if s.units[s.order[0]].cur + k <= s.units[s.order[0]].reserved {
        CommittedKeeps(p, s, k);
        CommittedFrame(p, s, k);
        AppendFrame(p, Committed(p, s, k), k, f, h);
      } else {
        AddInNewUnitFrame(p, s, f, k, g, retire, h);
      }
  }

  lemma AddInNewUnitFrame(p: Params, s: State, f: nat, k: int, g: Region, retire: bool, h: nat)
    requires Good(p, s) && Request(p, s, f, k) && s.order[0] in s.units && Supplied(p, s, k, g) && Untouched(s, s, h)
    ensures s.order != [] && |s.lists| == BUCKET_COUNT && NextUnit(s, g, retire).order != []
    ensures NextUnit(s, g, retire).order[0] in NextUnit(s, g, retire).units
    ensures Untouched(s, AppendFit(p, Committed(p, NextUnit(s, g, retire), k), k, f), h)
  {
    NextUnitKeeps(p, s, g, retire);
    NextUnitFrame(p, s, g, retire, h);
    var s1 := NextUnit(s, g, retire);
    CommittedKeeps(p, s1, k);
    CommittedFrame(p, s1, k);
    AppendFrame(p, Committed(p, s1, k), k, f, h);
  }

  lemma ReleaseFrame(p: Params, s: State, f: nat, k: int, h: nat)
    requires Good(p, s) && Enabled(p, s, ReleaseOp(f, k)) && Untouched(s, s, h) && h != f
    ensures Untouched(s, Apply(p, s, ReleaseOp(f, k)), h)
  {
    SlotInUnit(p, s, s.home[f]);
    HomeIsLive(p, s, h);
    ReleasedFrame(s, s.home[f], k, h);
  }

  lemma ReleasedFrame(s: State, a: int, k: int, h: nat)
    requires a in s.slots && s.slots[a].unit in s.units && s.order != [] && |s.lists| == BUCKET_COUNT
    requires 0 < k < s.slots[a].len
    requires Untouched(s, s, h) && s.home[h] != a && s.home[h] != a + k
    ensures Untouched(s, Release(s, a, k), h)
  {
    if !(s.slots[a].unit == s.order[0] && a + s.slots[a].len == s.units[s.order[0]].cur) {
      assert Untouched(s, Shed(s, a, k), h);
      AddFreeFrame(Shed(s, a, k), a + k, s.order[0], h);
    }
  }

  lemma RemoveFrame(p: Params, s: State, f: nat, h: nat)
    requires Good(p, s) && f in s.home && Untouched(s, s, h) && h != f
    ensures Untouched(s, Apply(p, s, RemoveOp(f)), h)
  {
    RemoveDefined(p, s, f);
    AddFreeFrame(Vacate(s, s.home[f]), s.home[f], s.order[0], h);
  }

  /** The fragments an operation is about. */
  ghost predicate Names(s: State, op: Op, h: nat)
  {
    match op
    case AddOp(f, _, _, _) => h == f
    case RemoveOp(f) => h == f
    case ReleaseOp(f, _) => h == f
    case FlushOp(u) => h in s.home && s.home[h] in s.slots && s.slots[s.home[h]].unit == u
  }

  lemma HomeIsLive(p: Params, s: State, h: nat)
    requires Good(p, s) && h in s.home
    ensures Untouched(s, s, h) && s.slots[s.home[h]].kind == Live(h)
  {
  }

  /** No operation moves, resizes or loses a fragment it does not name. */
  lemma OthersUntouched(p: Params, s: State, op: Op, h: nat)
    requires Good(p, s) && Enabled(p, s, op) && h in s.home && !Names(s, op, h)
    ensures Untouched(s, Apply(p, s, op), h)
  {
    HomeIsLive(p, s, h);
    match op
    case AddOp(f, k, g, retire) => CurrentUnit(p, s); AddFrame(p, s, f, k, g, retire, h);
    case RemoveOp(f) => RemoveFrame(p, s, f, h);
    case ReleaseOp(f, k) => ReleaseFrame(p, s, f, k, h);
    case FlushOp(u) =>
  }

  /** Fragment `f` has a slot of at least `k` bytes. */
  ghost predicate Holds(t: State, f: nat, k: int)
  {
    f in t.home && t.home[f] in t.slots && t.slots[t.home[f]].kind == Live(f) && t.slots[t.home[f]].len >= k
  }

  /** And what the slot has beyond `k` bytes would be of no use: too little for a free entry or, at the
      end of its unit, for an append. */
  ghost predicate HoldsSnugly(p: Params, t: State, f: nat, k: int)
  {
    && Holds(t, f, k)
    && var c := t.home[f];
      var waste := t.slots[c].len - k;
      || waste <= EmptyHole(p)
      || (waste < EndHole(p) && t.slots[c].unit in t.units && c + t.slots[c].len == t.units[t.slots[c].unit].end)
  }

  lemma SplitHolds(p: Params, s: State, a: int, k: int, f: nat)
    requires FreeLen(s.slots, a) > k > 0 && |s.lists| == BUCKET_COUNT && s.order != []
    ensures a + k in OccupyPart(Seize(s, a), a, k, f).slots
    ensures HoldsSnugly(p, AddFree(OccupyPart(Seize(s, a), a, k, f), a + k, s.order[0]), f, k)
  {
    AddFreeFrame(OccupyPart(Seize(s, a), a, k, f), a + k, s.order[0], f);
  }

  lemma ReuseHolds(p: Params, s: State, a: int, k: int, f: nat)
    requires FreeLen(s.slots, a) >= k > 0 && |s.lists| == BUCKET_COUNT && s.order != []
    ensures HoldsSnugly(p, Reuse(p, s, a, k, f), f, k)
  {
    ReuseCases(p, s, a, k, f);
    if s.slots[a].len - k > EmptyHole(p) {
      SplitHolds(p, s, a, k, f);
    }
  }

  lemma AddHolds(p: Params, s: State, f: nat, k: int, g: Region, retire: bool)
    requires Good(p, s) && Request(p, s, f, k) && s.order[0] in s.units && (Creates(s, k) ==> Supplied(p, s, k, g))
    ensures HoldsSnugly(p, Add(p, s, f, k, g, retire), f, k)
  {
    SearchRefinesExhaustive(p, s, k);
    match Search(s.slots, s.lists, Bucket(k), k)
    case Some(a) => ReuseHolds(p, s, a, k, f);
    case None =>
      if s.units[s.order[0]].cur + k <= s.units[s.order[0]].reserved {
        CommittedKeeps(p, s, k);
      } else {
        NextUnitKeeps(p, s, g, retire);
        CommittedKeeps(p, NextUnit(s, g, retire), k);
      }
  }

  /** What an operation does to the fragments it names. */
  ghost predicate Effect(p: Params, s: State, op: Op, t: State)
  {
    match op
    case AddOp(f, k, _, _) => HoldsSnugly(p, t, f, k)
    case RemoveOp(f) => f !in t.home
    case ReleaseOp(f, k) => f in s.home && Holds(t, f, k) && t.home[f] == s.home[f] && t.slots[t.home[f]].len == k
    case FlushOp(u) => forall h | Names(s, op, h) :: h !in t.home
  }

  lemma ReleasedHolds(p: Params, s: State, f: nat, k: int)
    requires f in s.home && s.home[f] in s.slots && s.slots[s.home[f]].kind == Live(f)
    requires s.slots[s.home[f]].unit in s.units && s.order != [] && |s.lists| == BUCKET_COUNT
    requires 0 < k < s.slots[s.home[f]].len
    ensures Effect(p, s, ReleaseOp(f, k), Release(s, s.home[f], k))
  {
    var a := s.home[f];
    if !(s.slots[a].unit == s.order[0] && a + s.slots[a].len == s.units[s.order[0]].cur) {
      AddFreeFrame(Shed(s, a, k), a + k, s.order[0], f);
    }
  }

  /** Every request that is placed gets at least the bytes it asked for and no more than are of use; a
      removed fragment and the fragments of a flushed unit are gone; a shrunk fragment keeps its address. */
  lemma NamedEffect(p: Params, s: State, op: Op)
    requires Good(p, s) && Enabled(p, s, op)
    ensures Effect(p, s, op, Apply(p, s, op))
  {
    match op
    case AddOp(f, k, g, retire) => CurrentUnit(p, s); AddHolds(p, s, f, k, g, retire);
    case RemoveOp(f) =>
      RemoveDefined(p, s, f);
      HomeIsLive(p, s, f);
      AddFreeOrder(Vacate(s, s.home[f]), s.home[f], s.order[0]);
    case ReleaseOp(f, k) =>
      SlotInUnit(p, s, s.home[f]);
      HomeIsLive(p, s, f);
      ReleasedHolds(p, s, f, k);
    case FlushOp(u) =>
  }

  /** Where a fragment is placed: in a free entry of the smallest size class that has one large enough; if
      there is none, at the append point; and if that has no room, at the start of the new unit. */
  lemma AddPlaces(p: Params, s: State, f: nat, k: int, g: Region, retire: bool)
    requires Good(p, s) && Request(p, s, f, k) && s.order[0] in s.units && (Creates(s, k) ==> Supplied(p, s, k, g))
    ensures var t, r := Add(p, s, f, k, g, retire), s.units[s.order[0]];
      && f in t.home
      && (if exists a :: FreeLen(s.slots, a) >= k then
            && FreeLen(s.slots, t.home[f]) >= k
            && forall x | FreeLen(s.slots, x) >= k :: Bucket(FreeLen(s.slots, t.home[f])) <= Bucket(FreeLen(s.slots, x))
          else t.home[f] == if r.cur + k <= r.reserved then r.cur else g.base)
  {
    SearchRefinesExhaustive(p, s, k);
    match Search(s.slots, s.lists, Bucket(k), k)
    case Some(a) =>
      ReuseOrder(p, s, a, k, f);
      forall x | FreeLen(s.slots, x) >= k ensures Bucket(FreeLen(s.slots, a)) <= Bucket(FreeLen(s.slots, x)) {
        SearchTakesSmallestClass(p, s, k, x);
      }
    case None =>
      if s.units[s.order[0]].cur + k > s.units[s.order[0]].reserved { NextUnitKeeps(p, s, g, retire); }
  }
}
