/** Where `add_fragment_common` of Simulator/core/fcache.c looks for room in a private cache, and when
    the cache grows. */
module PrivateChoice {
  import opened Layout
  import opened SlotModel
  import opened SlotLayout
  import opened PrivateModel
  import opened PrivateOps
  import opened PrivateEviction
  import opened PrivateGrowth
  import opened PrivateRuns
  import opened PrivateFrame

  /** Some empty slot can take the request, together with the fragments behind it. */
  ghost predicate EmptyTakes(s: Fifo, k: int, pinned: set<nat>)
  {
    exists a :: a in s.slots && s.slots[a].kind.Free? && Takes(s, a, k, pinned)
  }

  /** Some fragment can make room. */
  ghost predicate FragmentTakes(s: Fifo, k: int, pinned: set<nat>)
  {
    exists a :: a in s.slots && s.slots[a].kind.Live? && Takes(s, a, k, pinned)
  }

  /** The FIFO begins with the empty slots, */
  lemma InFront(p: Params, s: Fifo, a: int)
    requires FifoInv(p, s, NONE)
    ensures a in Empties(s) ==> a in s.slots && s.slots[a].kind.Free?
    ensures a in ByAge(s) ==> a in s.slots && s.slots[a].kind.Live?
  {
    Shape(p, s);
    var n := EmptyCount(s.slots, s.q);
    if a in ByAge(s) {
      var i := IndexOf(ByAge(s), a);
      assert s.q[n + i] == a;
    }
  }

  /** and has every slot. */
  lemma Sides(p: Params, s: Fifo, a: int)
    requires FifoInv(p, s, NONE)
    ensures a in Empties(s) <==> a in s.slots && s.slots[a].kind.Free?
    ensures a in ByAge(s) <==> a in s.slots && s.slots[a].kind.Live?
  {
    InFront(p, s, a);
    assert s.q == Empties(s) + ByAge(s);
    if a in s.slots { assert Settled(s.slots, a); }
  }

  lemma EmptiesAreAll(p: Params, s: Fifo, k: int, pinned: set<nat>)
    requires FifoInv(p, s, NONE)
    ensures FirstTaker(s, Empties(s), k, pinned).Some? <==> EmptyTakes(s, k, pinned)
  {
    var l := Empties(s);
    NoTaker(s, l, k, pinned);
    if FirstTaker(s, l, k, pinned).Some? { Sides(p, s, FirstTaker(s, l, k, pinned).value); }
    if EmptyTakes(s, k, pinned) {
      var a :| a in s.slots && s.slots[a].kind.Free? && Takes(s, a, k, pinned);
      Sides(p, s, a);
    }
  }

  lemma FragmentsAreAll(p: Params, s: Fifo, k: int, pinned: set<nat>)
    requires FifoInv(p, s, NONE)
    ensures FirstTaker(s, ByAge(s), k, pinned).Some? <==> FragmentTakes(s, k, pinned)
  {
    var l := ByAge(s);
    NoTaker(s, l, k, pinned);
    if FirstTaker(s, l, k, pinned).Some? { Sides(p, s, FirstTaker(s, l, k, pinned).value); }
    if FragmentTakes(s, k, pinned) {
      var a :| a in s.slots && s.slots[a].kind.Live? && Takes(s, a, k, pinned);
      Sides(p, s, a);
    }
  }

  // ----- the memory of the cache

  /** The committed memory of unit `u` in `t` is at least that in `s`. */
  ghost predicate KeepsRoom(s: Fifo, t: Fifo, u: int)
    requires u in s.units
  {
    u in t.units && t.units[u].end >= s.units[u].end
  }

  ghost predicate Roomier(s: Fifo, t: Fifo)
  {
    forall u {:trigger KeepsRoom(s, t, u)} | u in s.units :: KeepsRoom(s, t, u)
  }

  /** The cache has the same units, with the same committed memory. */
  ghost predicate SameRoom(s: Fifo, t: Fifo)
  {
    t.units.Keys == s.units.Keys && forall u | u in s.units :: t.units[u].end == s.units[u].end
  }

  ghost predicate MoreRoom(s: Fifo, t: Fifo, u: int)
  {
    u in t.units && (u in s.units ==> t.units[u].end > s.units[u].end)
  }

  /** The cache has grown: by a unit, or by committed memory of one. */
  ghost predicate Larger(s: Fifo, t: Fifo)
  {
    exists u :: MoreRoom(s, t, u)
  }

  lemma SameIsRoomier(s: Fifo, t: Fifo)
    requires SameRoom(s, t)
    ensures Roomier(s, t) && !Larger(s, t)
  {
    forall u | u in s.units ensures KeepsRoom(s, t, u) {
    }
  }

  lemma LargerThrough(s: Fifo, s': Fifo, t: Fifo)
    requires Larger(s, s') && Roomier(s', t)
    ensures Larger(s, t)
  {
    var u :| MoreRoom(s, s', u);
    assert KeepsRoom(s', t, u);
    assert MoreRoom(s, t, u);
  }

  lemma RoomierThrough(s: Fifo, s': Fifo, t: Fifo)
    requires Roomier(s, s') && Roomier(s', t)
    ensures Roomier(s, t)
  {
    forall u | u in s.units ensures KeepsRoom(s, t, u) {
      assert KeepsRoom(s, s', u) && KeepsRoom(s', t, u);
    }
  }

  lemma PlacingGrowsNothing(p: Params, s: Fifo, a: int, k: int, f: nat)
    requires s.order != [] && s.order[0] in s.units
    ensures a in s.slots ==> SameRoom(s, Replaced(p, s, a, k, f))
    ensures SameRoom(s, Appended(p, s, k, f))
  {
    if a in s.slots { EvictedBorn(Vacated(s, a), a, k); }
  }

  lemma ExhaustedRoom(p: Params, s: Fifo, k: int)
    requires GrowthParams(p) && FifoInv(p, s, NONE) && Growths(s, k) == 2
    ensures Roomier(s, Exhausted(p, s, k))
    ensures if s.units[s.order[0]].end < s.units[s.order[0]].reserved then Larger(s, Exhausted(p, s, k))
            else Exhausted(p, s, k) == s
  {
    var r, t := s.units[s.order[0]], Exhausted(p, s, k);
    assert UnitFits(p, s.order[0], s.order[0], r);
    if r.end < r.reserved {
      CommitIsUseful(p, s, k);
      CommittedMoreKeeps(p, s, CommitSize(p, r, k));
      FilledUnits(p, MoreCommitted(p, s, k));
      assert MoreRoom(s, t, s.order[0]);
    }
    forall u | u in s.units ensures KeepsRoom(s, t, u) {
    }
  }

  lemma MoreSpaceRoom(p: Params, s: Fifo, f: nat, k: int, w: World)
    requires Ready(p, s, f, k, w) && Growths(s, k) > 0
    ensures Roomier(s, MoreSpace(p, s, k, w))
    ensures HasMore(s, k, w) ==> Larger(s, MoreSpace(p, s, k, w))
  {
    var t := MoreSpace(p, s, k, w);
    if Growths(s, k) == 1 {
      CommitIsUseful(p, s, k);
      assert MoreRoom(s, t, s.order[0]);
      forall u | u in s.units ensures KeepsRoom(s, t, u) {
      }
    } else {
      ExhaustedRoom(p, s, k);
      if w.allowed { NextUnitRoom(p, s, f, k, w); }
    }
  }

  lemma NextUnitRoom(p: Params, s: Fifo, f: nat, k: int, w: World)
    requires Ready(p, s, f, k, w) && Growths(s, k) == 2 && w.allowed
    ensures Roomier(s, NextUnit(p, s, k, w)) && Larger(s, NextUnit(p, s, k, w))
  {
    var t, e := NextUnit(p, s, k, w), Exhausted(p, s, k);
    ExhaustedRoom(p, s, k);
    ExhaustedKeeps(p, s, k);
    FilledUnits(p, e);
    assert MoreRoom(s, t, w.u);
    forall u | u in s.units ensures KeepsRoom(s, t, u) {
      assert KeepsRoom(s, e, u);
    }
  }

  lemma {:induction false} GrownRoomier(p: Params, s: Fifo, f: nat, k: int, w: World, n: nat)
    requires Ready(p, s, f, k, w)
    ensures Roomier(s, Grown(p, s, f, k, w, n).t)
    decreases Growths(s, k), 1
  {
    var empty := FirstTaker(s, Empties(s), k, w.pinned);
    if empty.Some? {
      PlacingGrowsNothing(p, s, empty.value, k, f);
      SameIsRoomier(s, Replaced(p, s, empty.value, k, f));
    } else if Growths(s, k) == 0 {
      PlacingGrowsNothing(p, s, 0, k, f);
      SameIsRoomier(s, Appended(p, s, k, f));
    } else {
      var t := MoreSpace(p, s, k, w);
      MoreSpaceKeeps(p, s, f, k, w);
      MoreSpaceRoom(p, s, f, k, w);
      if !w.ratio(n) {
        ForcedRoomier(p, s, f, k, w, n);
      } else if HasMore(s, k, w) {
        GrownRoomier(p, t, f, k, w, n + 1);
        RoomierThrough(s, t, Grown(p, t, f, k, w, n + 1).t);
      } else {
        AskedTwice(p, s, f, k, w);
        ForcedRoomier(p, t, f, k, w, n);
        RoomierThrough(s, t, Forced(p, t, f, k, w, n).t);
      }
    }
  }

  lemma {:induction false} ForcedRoomier(p: Params, s: Fifo, f: nat, k: int, w: World, n: nat)
    requires Ready(p, s, f, k, w) && Growths(s, k) > 0
    ensures Roomier(s, Forced(p, s, f, k, w, n).t)
    decreases Growths(s, k), 0
  {
    var victim, t := FirstTaker(s, ByAge(s), k, w.pinned), MoreSpace(p, s, k, w);
    MoreSpaceKeeps(p, s, f, k, w);
    MoreSpaceRoom(p, s, f, k, w);
    if victim.Some? {
      PlacingGrowsNothing(p, s, victim.value, k, f);
      SameIsRoomier(s, Replaced(p, s, victim.value, k, f));
    } else if HasMore(s, k, w) {
      GrownRoomier(p, t, f, k, w, n + 1);
      RoomierThrough(s, t, Grown(p, t, f, k, w, n + 1).t);
    } else {
      LastAttemptRoom(p, t, f, k, w);
      SameIsRoomier(t, LastAttempt(p, t, f, k, w));
      RoomierThrough(s, t, LastAttempt(p, t, f, k, w));
    }
  }

  /** The attempt after a trace has been given up. */
  function LastAttempt(p: Params, t: Fifo, f: nat, k: int, w: World): Fifo
  {
    var last := FirstTaker(t, t.q, k, w.aborted);
    if last.Some? then Replaced(p, t, last.value, k, f) else t
  }

  lemma LastAttemptRoom(p: Params, t: Fifo, f: nat, k: int, w: World)
    requires t.order != [] && t.order[0] in t.units
    ensures SameRoom(t, LastAttempt(p, t, f, k, w))
  {
    var last := FirstTaker(t, t.q, k, w.aborted);
    if last.Some? { PlacingGrowsNothing(p, t, last.value, k, f); }
  }

  lemma {:induction false} ForcedGrows(p: Params, s: Fifo, f: nat, k: int, w: World, n: nat)
    requires Ready(p, s, f, k, w) && Growths(s, k) > 0
    ensures FirstTaker(s, ByAge(s), k, w.pinned).Some? ==> SameRoom(s, Forced(p, s, f, k, w, n).t)
    ensures FirstTaker(s, ByAge(s), k, w.pinned).None? && CanGrow(s, w) ==> Larger(s, Forced(p, s, f, k, w, n).t)
    ensures !CanGrow(s, w) ==> SameRoom(s, Forced(p, s, f, k, w, n).t)
  {
    var victim, t := FirstTaker(s, ByAge(s), k, w.pinned), MoreSpace(p, s, k, w);
    MoreSpaceKeeps(p, s, f, k, w);
    MoreSpaceRoom(p, s, f, k, w);
    assert UnitFits(p, s.order[0], s.order[0], s.units[s.order[0]]);
    if victim.Some? {
      PlacingGrowsNothing(p, s, victim.value, k, f);
    } else if HasMore(s, k, w) {
      GrownRoomier(p, t, f, k, w, n + 1);
      LargerThrough(s, t, Grown(p, t, f, k, w, n + 1).t);
    } else {
      ExhaustedRoom(p, s, k);
      LastAttemptRoom(p, t, f, k, w);
      SameIsRoomier(t, LastAttempt(p, t, f, k, w));
      if CanGrow(s, w) { LargerThrough(s, t, LastAttempt(p, t, f, k, w)); }
    }
  }

  /** There is memory to grow into: reserved memory, or another unit. */
  predicate CanGrow(s: Fifo, w: World)
    requires s.order != [] && s.order[0] in s.units
  {
    w.allowed || s.units[s.order[0]].end < s.units[s.order[0]].reserved
  }

  /** The cache grows exactly if no empty slot takes the request, it does not fit at the append point,
      rebuilding justifies growth or no fragment can make room, and there is memory to grow into. So
      while a refused ratio leaves a fragment to replace, the cache stays as large as it is. */
  lemma GrowsExactlyIf(p: Params, s: Fifo, f: nat, k: int, w: World, n: nat)
    requires Ready(p, s, f, k, w)
    ensures var t := Grown(p, s, f, k, w, n).t;
      if !EmptyTakes(s, k, w.pinned) && s.units[s.order[0]].cur + k > s.units[s.order[0]].end
        && (w.ratio(n) || !FragmentTakes(s, k, w.pinned)) && CanGrow(s, w)
      then Larger(s, t) else SameRoom(s, t)
  {
    EmptiesAreAll(p, s, k, w.pinned);
    FragmentsAreAll(p, s, k, w.pinned);
    var empty := FirstTaker(s, Empties(s), k, w.pinned);
    if empty.Some? {
      PlacingGrowsNothing(p, s, empty.value, k, f);
    } else if Growths(s, k) == 0 {
      PlacingGrowsNothing(p, s, 0, k, f);
    } else if !w.ratio(n) {
      ForcedGrows(p, s, f, k, w, n);
    } else {
      RatioGrows(p, s, f, k, w, n);
    }
  }

  lemma RatioGrows(p: Params, s: Fifo, f: nat, k: int, w: World, n: nat)
    requires Ready(p, s, f, k, w) && FirstTaker(s, Empties(s), k, w.pinned).None? && Growths(s, k) > 0 && w.ratio(n)
    ensures if CanGrow(s, w) then Larger(s, Grown(p, s, f, k, w, n).t) else SameRoom(s, Grown(p, s, f, k, w, n).t)
  {
    var t := MoreSpace(p, s, k, w);
    MoreSpaceKeeps(p, s, f, k, w);
    MoreSpaceRoom(p, s, f, k, w);
    assert UnitFits(p, s.order[0], s.order[0], s.units[s.order[0]]);
    if HasMore(s, k, w) {
      GrownRoomier(p, t, f, k, w, n + 1);
      LargerThrough(s, t, Grown(p, t, f, k, w, n + 1).t);
    } else {
      AskedTwice(p, s, f, k, w);
      ExhaustedRoom(p, s, k);
      ForcedRoomier(p, t, f, k, w, n);
      if CanGrow(s, w) {
        LargerThrough(s, t, Forced(p, t, f, k, w, n).t);
      } else {
        ForcedGrows(p, t, f, k, w, n);
      }
    }
  }

  // ----- who makes room

  /** `g` is the fragment at `a`, from which the request can be served, and from no older fragment. */
  ghost predicate OldestTaker(s: Fifo, a: int, g: nat, k: int, pinned: set<nat>)
  {
    && Takes(s, a, k, pinned) && g in s.home && s.home[g] == a && g in s.born
    && forall h | h in s.home && h in s.born && s.born[h] < s.born[g] :: !Takes(s, s.home[h], k, pinned)
  }

  lemma {:induction false} FirstIsFirst(s: Fifo, l: seq<int>, k: int, pinned: set<nat>, i: nat)
    requires FirstTaker(s, l, k, pinned).Some? && i < |l| && Takes(s, l[i], k, pinned)
    ensures exists j :: 0 <= j <= i && l[j] == FirstTaker(s, l, k, pinned).value
    decreases i
  {
    if Takes(s, l[0], k, pinned) {
      assert l[0] == FirstTaker(s, l, k, pinned).value;
    } else {
      FirstIsFirst(s, l[1..], k, pinned, i - 1);
      var j :| 0 <= j <= i - 1 && l[1..][j] == FirstTaker(s, l[1..], k, pinned).value;
      assert l[j + 1] == FirstTaker(s, l, k, pinned).value;
    }
  }

  lemma FirstIsOldest(p: Params, s: Fifo, a: int, k: int, pinned: set<nat>, h: nat)
    requires FifoInv(p, s, NONE) && FirstTaker(s, ByAge(s), k, pinned) == Some(a) && a in s.slots
    requires s.slots[a].kind.Live? && h in s.home && h in s.born && Takes(s, s.home[h], k, pinned)
    ensures s.slots[a].kind.f in s.born && s.born[s.slots[a].kind.f] <= s.born[h]
  {
    var l, n, c := ByAge(s), EmptyCount(s.slots, s.q), s.home[h];
    Sides(p, s, c);
    var i := IndexOf(l, c);
    FirstIsFirst(s, l, k, pinned, i);
    var j :| 0 <= j <= i && l[j] == a;
    assert s.q[n + j] == a && s.q[n + i] == c && s.slots[c].kind == Live(h);
    InAgeOrder(p, s, n + j, n + i);
  }

  lemma InAgeOrder(p: Params, s: Fifo, j: nat, i: nat)
    requires FifoInv(p, s, NONE) && j <= i < |s.q| && s.q[j] in s.slots && s.slots[s.q[j]].kind.Live?
    requires s.q[i] in s.slots && s.slots[s.q[i]].kind.Live?
    ensures s.slots[s.q[j]].kind.f in s.born && s.slots[s.q[i]].kind.f in s.born
    ensures s.born[s.slots[s.q[j]].kind.f] <= s.born[s.slots[s.q[i]].kind.f]
  {
    var c := s.q[j];
    assert c in s.slots && s.slots[c].kind.f in s.home;
    if j < i { assert Before(s.slots, s.born, s.q[j], s.q[i]); }
  }

  lemma VictimIsOldest(p: Params, s: Fifo, a: int, k: int, pinned: set<nat>)
    requires FifoInv(p, s, NONE) && FirstTaker(s, ByAge(s), k, pinned) == Some(a)
    ensures a in s.slots && s.slots[a].kind.Live? && OldestTaker(s, a, s.slots[a].kind.f, k, pinned)
  {
    Sides(p, s, a);
    var g := s.slots[a].kind.f;
    forall h | h in s.home && h in s.born && s.born[h] < s.born[g] ensures !Takes(s, s.home[h], k, pinned) {
      if Takes(s, s.home[h], k, pinned) { FirstIsOldest(p, s, a, k, pinned, h); }
    }
  }

  /** The first choice of an add is an empty slot, */
  lemma EmptyFirst(p: Params, s: Fifo, f: nat, k: int, w: World)
    requires FifoInv(p, s, NONE) && Enabled(p, s, AddOp(f, k, w)) && EmptyTakes(s, k, w.pinned)
    ensures var t := Apply(p, s, AddOp(f, k, w));
      f in t.home && t.home[f] in s.slots && s.slots[t.home[f]].kind.Free? && Takes(s, t.home[f], k, w.pinned)
  {
    EmptiesAreAll(p, s, k, w.pinned);
    var a := FirstTaker(s, Empties(s), k, w.pinned).value;
    Sides(p, s, a);
    ReplacementMeaning(p, s, a, k, f, f);
  }

  /** the second the append point, */
  lemma AppendSecond(p: Params, s: Fifo, f: nat, k: int, w: World)
    requires FifoInv(p, s, NONE) && Enabled(p, s, AddOp(f, k, w)) && !EmptyTakes(s, k, w.pinned)
    requires s.units[s.order[0]].cur + k <= s.units[s.order[0]].end
    ensures var t := Apply(p, s, AddOp(f, k, w)); f in t.home && t.home[f] == s.units[s.order[0]].cur
  {
    EmptiesAreAll(p, s, k, w.pinned);
    AppendedPlaces(p, s, k, f, w.pinned, f);
  }

  /** and if rebuilding does not justify growth the third is the oldest fragment that can make room. */
  lemma OldestThird(p: Params, s: Fifo, f: nat, k: int, w: World)
    requires FifoInv(p, s, NONE) && Enabled(p, s, AddOp(f, k, w)) && !EmptyTakes(s, k, w.pinned)
    requires s.units[s.order[0]].cur + k > s.units[s.order[0]].end && !w.ratio(0) && FragmentTakes(s, k, w.pinned)
    ensures var t := Apply(p, s, AddOp(f, k, w));
      f in t.home && exists g :: OldestTaker(s, t.home[f], g, k, w.pinned)
  {
    EmptiesAreAll(p, s, k, w.pinned);
    FragmentsAreAll(p, s, k, w.pinned);
    var a := FirstTaker(s, ByAge(s), k, w.pinned).value;
    VictimIsOldest(p, s, a, k, w.pinned);
    Refused(p, s, f, k, w, 0);
    TakenAt(p, s, a, k, f, w.pinned);
  }

  lemma TakenAt(p: Params, s: Fifo, a: int, k: int, f: nat, pinned: set<nat>)
    requires FifoInv(p, s, NONE) && f !in s.home && MIN_SLOT <= k && Multiple(p.align, k) && Takes(s, a, k, pinned)
    ensures var t := Replaced(p, s, a, k, f); f in t.home && t.home[f] == a
  {
    ReplacementMeaning(p, s, a, k, f, f);
  }

  lemma {:induction false} Refused(p: Params, s: Fifo, f: nat, k: int, w: World, n: nat)
    requires Ready(p, s, f, k, w) && FirstTaker(s, Empties(s), k, w.pinned).None? && Growths(s, k) > 0 && !w.ratio(n)
    requires FirstTaker(s, ByAge(s), k, w.pinned).Some?
    ensures Grown(p, s, f, k, w, n) == Outcome(true, Replaced(p, s, FirstTaker(s, ByAge(s), k, w.pinned).value, k, f))
  {
    assert Grown(p, s, f, k, w, n) == Forced(p, s, f, k, w, n);
  }
}
