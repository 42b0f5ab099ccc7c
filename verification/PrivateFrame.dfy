/** What an operation on a private code cache does to the fragments it names, to all others and to the
    memory of the cache, said without the functions that describe how it does so. */
module PrivateFrame {
  import opened Layout
  import opened SlotModel
  import opened SlotLayout
  import opened PrivateModel
  import opened PrivateOps
  import opened PrivateShrink
  import opened PrivateEviction
  import opened PrivateGrowth
  import opened PrivateRuns

  /** Fragment `h` has the same slot and the same age in both states. */
  ghost predicate Stays(s: Fifo, t: Fifo, h: nat)
  {
    Unmoved(s, t, h) && h in s.born && h in t.born && t.born[h] == s.born[h]
  }

  lemma HomeStays(p: Params, s: Fifo, x: int, h: nat)
    requires FifoInv(p, s, x) && h in s.home
    ensures Stays(s, s, h)
  {
  }

  // ----- an empty slot in front

  /** The FIFO begins with an empty slot that touches the slot at `x`. */
  predicate Touches(s: Fifo, x: int)
  {
    && x in s.slots && s.q != [] && s.q[0] in s.slots && s.slots[s.q[0]].kind.Free?
    && (s.q[0] == x + s.slots[x].len || s.q[0] + s.slots[s.q[0]].len == x)
  }

  /** Bytes put in front of the FIFO: if the empty slot that was in front touches them the two are
      one, and otherwise they are a slot of their own. All other slots stay, in the same order. */
  lemma PrependedMeaning(p: Params, s: Fifo, x: int)
    requires FifoInv(p, s, x) && x in s.slots
    ensures var t := Prepended(s, x);
      && t == s.(slots := t.slots, q := t.q) && t.q != [] && t.q[0] in t.slots && t.slots[t.q[0]].kind.Free?
      && (if Touches(s, x) then
            && t.q[1..] == s.q[1..] && (t.q[0] == x || t.q[0] == s.q[0]) && t.q[0] <= x && t.q[0] <= s.q[0]
            && t.slots[t.q[0]].len == s.slots[x].len + s.slots[s.q[0]].len
          else t.q == [x] + s.q && t.slots[x].len == s.slots[x].len)
      && (forall c | c in s.slots && c != x && !(Touches(s, x) && c == s.q[0]) ::
            c in t.slots && t.slots[c] == s.slots[c])
      && (forall c | c in t.slots :: c in s.slots)
  {
    assert Placed(p, s.units, s.slots, NONE, x);
    if s.q != [] && s.q[0] in s.slots { assert Placed(p, s.units, s.slots, NONE, s.q[0]); }
  }

  /** The empty slot in front has these bytes. */
  ghost predicate FrontHas(t: Fifo, lo: int, hi: int)
  {
    && t.q != [] && t.q[0] in t.slots && t.slots[t.q[0]].kind.Free?
    && t.q[0] <= lo && hi <= t.q[0] + t.slots[t.q[0]].len
  }

  lemma PrependedFront(p: Params, s: Fifo, x: int)
    requires FifoInv(p, s, x) && x in s.slots
    ensures FrontHas(Prepended(s, x), x, x + s.slots[x].len)
  {
    PrependedMeaning(p, s, x);
    assert Placed(p, s.units, s.slots, NONE, x);
    if Touches(s, x) { assert Placed(p, s.units, s.slots, NONE, s.q[0]); }
  }

  // ----- removal

  lemma RemovedEffect(p: Params, s: Fifo, f: nat, h: nat)
    requires FifoInv(p, s, NONE) && f in s.home
    ensures var t, a := Removed(s, f), s.home[f];
      && t.home == s.home - {f} && t.units == s.units && t.order == s.order && FrontHas(t, a, a + s.slots[a].len)
      && (h in s.home && h != f ==> Stays(s, t, h))
  {
    var a := s.home[f];
    var s1 := Vacated(s, a);
    VacatedKeeps(p, s, a);
    PrependedMeaning(p, s1, a);
    PrependedFront(p, s1, a);
    if h in s.home && h != f { PrependedUnmoved(s1, a, h); }
  }

  /** `f` is gone, its bytes are in front, and every other fragment is where it was. */
  ghost predicate RemovesOnly(s: Fifo, t: Fifo, f: nat)
  {
    && f in s.home && s.home[f] in s.slots && t.home == s.home - {f}
    && FrontHas(t, s.home[f], s.home[f] + s.slots[s.home[f]].len)
    && forall h | h in s.home && h != f :: Stays(s, t, h)
  }

  lemma RemovedMeaning(p: Params, s: Fifo, f: nat)
    requires FifoInv(p, s, NONE) && f in s.home
    ensures RemovesOnly(s, Removed(s, f), f)
  {
    RemovedEffect(p, s, f, f);
    forall h | h in s.home && h != f ensures Stays(s, Removed(s, f), h) {
      RemovedEffect(p, s, f, h);
    }
  }

  // ----- giving back the end of a slot

  /** The code gives back what the fragment at `a` has beyond `k` bytes: at the end of its unit only a
      hole that is worth an append, at the append point and before an empty slot any amount, and
      elsewhere a useful hole. */
  ghost predicate GivesBack(p: Params, s: Fifo, a: int, k: int)
    requires a in s.slots && s.slots[a].unit in s.units
  {
    var e, rest, r := a + s.slots[a].len, s.slots[a].len - k, s.units[s.slots[a].unit];
    && rest > 0
    && (if e == r.end then rest >= EndHole(p)
        else e == r.cur || (e in s.slots && s.slots[e].kind.Free?) || rest >= EmptyHole(p))
  }

  ghost predicate EmptyHas(t: Fifo, c: int, lo: int, hi: int)
  {
    c in t.slots && t.slots[c].kind.Free? && c <= lo && hi <= c + t.slots[c].len
  }

  /** Nobody has the bytes from `lo` to `hi` any more: they are unclaimed, or part of an empty slot. */
  ghost predicate FreeAgain(t: Fifo, u: int, lo: int, hi: int)
  {
    (u in t.units && t.units[u].cur == lo) || exists c :: EmptyHas(t, c, lo, hi)
  }

  lemma ShrunkEffect(p: Params, s: Fifo, f: nat, k: int, h: nat)
    requires FifoInv(p, s, NONE) && f in s.home && MIN_SLOT <= k && Multiple(p.align, k)
    requires s.slots[s.home[f]].unit in s.units
    ensures var t, a := Shrunk(p, s, f, k), s.home[f];
      if GivesBack(p, s, a, k) then
        && t.home == s.home && a in t.slots && t.slots[a] == s.slots[a].(len := k)
        && FreeAgain(t, s.slots[a].unit, a + k, a + s.slots[a].len)
        && (h in s.home && h != f ==> Stays(s, t, h))
      else t == s
  {
    var a := s.home[f];
    if GivesBack(p, s, a, k) {
      ReleasedEffect(p, s, f, a, s.slots[a].len, s.slots[a].unit, k, h);
    }
  }

  lemma ReleasedEffect(p: Params, s: Fifo, f: nat, a: int, len: int, u: int, k: int, h: nat)
    requires FifoInv(p, s, NONE) && f in s.home && s.home[f] == a && s.slots[a] == Slot(u, len, Live(f)) && u in s.units
    requires MIN_SLOT <= k && Multiple(p.align, k) && GivesBack(p, s, a, k)
    ensures Kept(s, Released(p, s, a, len, u, k), f, a, len, u, k, h)
  {
    var e, r, t := a + len, s.units[u], Released(p, s, a, len, u, k);
    NextInUnit(p, s, NONE, a);
    if (e == r.end && u == s.order[0]) || (e != r.end && e == r.cur) {
      TrimEffect(s, f, a, len, u, k, h);
      assert t == Trimmed(s, a, k);
    } else if e != r.end && e in s.slots && s.slots[e].kind.Free? {
      TakeOverEffect(p, s, f, a, len, u, k, h);
      assert t == TakenOver(s, a, k);
    } else {
      ShedEffect(p, s, f, a, len, u, k, h);
      assert t == Prepended(Shed(s, a, k), a + k);
    }
  }

  /** The fragment at `a` has kept `k` bytes, and all others are as they were. */
  ghost predicate Kept(s: Fifo, t: Fifo, f: nat, a: int, len: int, u: int, k: int, h: nat)
  {
    && t.home == s.home && a in t.slots && t.slots[a] == Slot(u, k, Live(f)) && FreeAgain(t, u, a + k, a + len)
    && (h in s.home && h != f ==> Stays(s, t, h))
  }

  lemma TrimEffect(s: Fifo, f: nat, a: int, len: int, u: int, k: int, h: nat)
    requires Owned(s.slots, s.home, NONE) && Stamped(s.home, s.born, s.clock) && f in s.home && s.home[f] == a
    requires s.slots[a] == Slot(u, len, Live(f)) && u in s.units
    ensures Kept(s, Trimmed(s, a, k), f, a, len, u, k, h)
  {
  }

  lemma TakeOverEffect(p: Params, s: Fifo, f: nat, a: int, len: int, u: int, k: int, h: nat)
    requires FifoInv(p, s, NONE) && f in s.home && s.home[f] == a && s.slots[a] == Slot(u, len, Live(f))
    requires MIN_SLOT <= k < len && Multiple(p.align, k) && a + len in s.slots && s.slots[a + len].kind.Free?
    ensures Kept(s, TakenOver(s, a, k), f, a, len, u, k, h)
  {
    var t := TakenOver(s, a, k);
    LodgedPartTiles(p, s, a, k, f);
    assert Placed(p, s.units, s.slots, NONE, a + len);
    assert EmptyHas(t, a + k, a + k, a + len);
  }

  lemma ShedEffect(p: Params, s: Fifo, f: nat, a: int, len: int, u: int, k: int, h: nat)
    requires FifoInv(p, s, NONE) && f in s.home && s.home[f] == a && s.slots[a] == Slot(u, len, Live(f))
    requires MIN_SLOT <= k < len && Multiple(p.align, k)
    ensures a + k in Shed(s, a, k).slots
    ensures Kept(s, Prepended(Shed(s, a, k), a + k), f, a, len, u, k, h)
  {
    var s1 := Shed(s, a, k);
    ShedKeeps(p, s, a, k);
    PrependedFront(p, s1, a + k);
    PrependedUnmoved(s1, a + k, f);
    var t := Prepended(s1, a + k);
    assert EmptyHas(t, t.q[0], a + k, a + len);
    if h in s.home && h != f { PrependedUnmoved(s1, a + k, h); }
  }

  // ----- an add

  /** The slot at `a` is no larger than it has to be for `k` bytes: what is too much would be of no use. */
  ghost predicate Snug(p: Params, t: Fifo, a: int, k: int)
  {
    && a in t.slots && t.slots[a].unit in t.units
    && var waste := t.slots[a].len - k;
      waste == 0 || waste < EmptyHole(p) || (waste < EndHole(p) && a + t.slots[a].len == t.units[t.slots[a].unit].end)
  }

  /** `f` has a slot at `a`, and is the last in the FIFO. */
  ghost predicate Settles(p: Params, t: Fifo, f: nat, a: int, k: int)
  {
    Housed(t, f, a, k) && Snug(p, t, a, k) && t.q != [] && t.q[|t.q| - 1] == a
  }

  lemma PrependedLast(p: Params, s: Fifo, x: int, a: int)
    requires FifoInv(p, s, x) && x in s.slots && s.q != [] && s.q[|s.q| - 1] == a && Settled(s.slots, a)
    requires s.slots[a].kind.Live?
    ensures var t := Prepended(s, x); t.q != [] && t.q[|t.q| - 1] == a && a in t.slots && t.slots[a] == s.slots[a]
  {
    PrependedMeaning(p, s, x);
  }

  lemma SplitSettles(p: Params, t: Fifo, a: int, k: int, f: nat)
    requires FifoInv(p, t, a) && a in t.slots && t.slots[a].unit in t.units && f !in t.home
    requires MIN_SLOT <= k < t.slots[a].len && Multiple(p.align, k)
    ensures a + k in LodgedPart(t, a, k, f).slots
    ensures Settles(p, Prepended(LodgedPart(t, a, k, f), a + k), f, a, k)
  {
    LodgedPartKeeps(p, t, a, k, f);
    PrependedLast(p, LodgedPart(t, a, k, f), a + k, a);
    PrependedUnmoved(LodgedPart(t, a, k, f), a + k, f);
  }

  lemma RehousedSettles(p: Params, t: Fifo, a: int, k: int, f: nat)
    requires FifoInv(p, t, a) && a in t.slots && t.slots[a].unit in t.units && f !in t.home && MIN_SLOT <= k
    requires Multiple(p.align, k) && Roomy(t, a, k)
    requires t.slots[a].len >= k || a + t.slots[a].len == t.units[t.slots[a].unit].cur
    ensures Settles(p, Rehoused(p, t, a, k, f), f, a, k)
  {
    var n := t.slots[a].len;
    if n < k {
      StretchFits(p, t, a, k);
    } else if n - k >= EmptyHole(p) {
      SplitSettles(p, t, a, k, f);
      assert Rehoused(p, t, a, k, f) == Prepended(LodgedPart(t, a, k, f), a + k);
    }
  }

  /** Which fragments make room for `k` bytes at `a`. */
  predicate InTheWay(s: Fifo, h: nat, a: int, k: int)
  {
    h in s.home && a <= s.home[h] < a + k
  }

  /** `t` is `s` with `f` placed at `a`: the fragments in the way are gone, none of them `pinned`, and
      all others stay. */
  ghost predicate PlacedAt(p: Params, s: Fifo, t: Fifo, f: nat, a: int, k: int, pinned: set<nat>, h: nat)
  {
    && Settles(p, t, f, a, k)
    && (h in s.home ==> if InTheWay(s, h, a, k) then h !in t.home && h !in pinned else Stays(s, t, h))
  }

  lemma BornKept(p: Params, s: Fifo, a: int, k: int, f: nat, h: nat)
    requires a in s.slots && h != f && h in s.born
    ensures var t := Replaced(p, s, a, k, f); h in t.born && t.born[h] == s.born[h]
  {
    EvictedBorn(Vacated(s, a), a, k);
  }

  lemma {:induction false} EvictedBorn(s: Fifo, a: int, k: int)
    ensures Evicted(s, a, k).born == s.born && Evicted(s, a, k).units == s.units && Evicted(s, a, k).order == s.order
    decreases if a in s.slots then k - s.slots[a].len else 0
  {
    if Wanting(s, a, k) { EvictedBorn(Absorbed(s, a), a, k); }
  }

  /** Before the end of a run the slots begin less than `k` bytes behind its start, and it has `k` bytes
      or reaches the append point. */
  lemma RunReaches(p: Params, s: Fifo, a: int, k: int)
    requires FifoInv(p, s, NONE) && Roomy(s, a, k)
    ensures var cur := s.units[s.slots[a].unit].cur; var e := RunEnd(s.slots, cur, a, k);
      e <= cur && (a + k <= e || e == cur)
  {
    EvictionMeaning(p, s, a, k);
    VacatedKeeps(p, s, a);
    EvictedKeeps(p, Vacated(s, a), a, k);
    NextInUnit(p, Evicted(Vacated(s, a), a, k), a, a);
  }

  lemma WayIsRun(p: Params, s: Fifo, a: int, k: int, h: nat)
    requires FifoInv(p, s, NONE) && Roomy(s, a, k) && h in s.home && 0 < k
    ensures var e := RunEnd(s.slots, s.units[s.slots[a].unit].cur, a, k);
      InTheWay(s, h, a, k) <==> a <= s.home[h] < e
  {
    var u, c := s.slots[a].unit, s.home[h];
    var cur := s.units[u].cur;
    RunReaches(p, s, a, k);
    NextInUnit(p, s, NONE, a);
    NextInUnit(p, s, NONE, c);
    assert UnitFits(p, s.order[0], u, s.units[u]) && UnitFits(p, s.order[0], s.slots[c].unit, s.units[s.slots[c].unit]);
    assert Placed(p, s.units, s.slots, NONE, c) && Placed(p, s.units, s.slots, NONE, a);
    if a < c < RunEnd(s.slots, cur, a, k) { RunIsShortest(s.slots, cur, a, k, c); }
  }

  /** Replacement at a slot from which it takes place. */
  lemma ReplacedPlaces(p: Params, s: Fifo, a: int, k: int, f: nat, pinned: set<nat>, h: nat)
    requires FifoInv(p, s, NONE) && f !in s.home && MIN_SLOT <= k && Multiple(p.align, k) && Takes(s, a, k, pinned)
    ensures PlacedAt(p, s, Replaced(p, s, a, k, f), f, a, k, pinned, h)
  {
    var s1 := Vacated(s, a);
    VacatedKeeps(p, s, a);
    EvictedKeeps(p, s1, a, k);
    EvictedHome(s1, a, k, f);
    RehousedSettles(p, Evicted(s1, a, k), a, k, f);
    ReplacementMeaning(p, s, a, k, f, h);
    if h in s.home {
      WayIsRun(p, s, a, k, h);
      BornKept(p, s, a, k, f, h);
      NextInUnit(p, s, NONE, a);
      BarredMeaning(s.slots, s.units[s.slots[a].unit].cur, a, k, pinned);
      if h in pinned { assert PinnedAt(s.slots, pinned, s.home[h]); }
    }
  }

  /** No fragment begins in the unclaimed space. */
  lemma NobodyBehind(p: Params, s: Fifo, k: int, h: nat)
    requires FifoInv(p, s, NONE) && h in s.home && s.units[s.order[0]].end - s.units[s.order[0]].cur >= k
    ensures !InTheWay(s, h, s.units[s.order[0]].cur, k)
  {
    if 0 < k { ApartFromEnd(p, s.units, s.slots, s.order[0], k); }
    NoSlotAtEnd(p, s.units, s.slots, s.order[0], s.order[0]);
  }

  lemma AppendedPlaces(p: Params, s: Fifo, k: int, f: nat, pinned: set<nat>, h: nat)
    requires FifoInv(p, s, NONE) && f !in s.home && MIN_SLOT <= k && Multiple(p.align, k) && Growths(s, k) == 0
    ensures PlacedAt(p, s, Appended(p, s, k, f), f, s.units[s.order[0]].cur, k, pinned, h)
  {
    NoSlotAtEnd(p, s.units, s.slots, s.order[0], s.order[0]);
    if h in s.home { NobodyBehind(p, s, k, h); }
  }

  // ----- more space

  lemma FilledStays(p: Params, s: Fifo, h: nat)
    requires FifoInv(p, s, NONE) && h in s.home
    ensures Stays(s, Filled(s), h) && Filled(s).home == s.home
  {
    var r := s.units[s.order[0]];
    NoSlotAtEnd(p, s.units, s.slots, s.order[0], s.order[0]);
    if r.cur < r.end { PrependedUnmoved(Opened(s, r.end - r.cur), r.cur, h); }
  }

  lemma ExhaustedStays(p: Params, s: Fifo, k: int, h: nat)
    requires GrowthParams(p) && FifoInv(p, s, NONE) && Growths(s, k) == 2 && h in s.home
    ensures Stays(s, Exhausted(p, s, k), h)
  {
    var r := s.units[s.order[0]];
    assert UnitFits(p, s.order[0], s.order[0], r);
    if r.end < r.reserved {
      CommitIsUseful(p, s, k);
      CommittedMoreKeeps(p, s, CommitSize(p, r, k));
      FilledStays(p, MoreCommitted(p, s, k), h);
    }
  }

  /** Making space moves nobody. */
  lemma MoreSpaceStays(p: Params, s: Fifo, f: nat, k: int, w: World, h: nat)
    requires Ready(p, s, f, k, w) && Growths(s, k) > 0 && h in s.home
    ensures Stays(s, MoreSpace(p, s, k, w), h)
  {
    if Growths(s, k) == 2 {
      ExhaustedStays(p, s, k, h);
      if w.allowed {
        ExhaustedKeeps(p, s, k);
        FilledStays(p, Exhausted(p, s, k), h);
      }
    }
  }

  /** What an add may do: either `f` is placed and what is in its way is gone, or nobody is touched. */
  ghost predicate Adds(p: Params, s: Fifo, t: Fifo, f: nat, k: int, w: World, h: nat)
  {
    && (h in t.home ==> h in s.home || h == f)
    && (if f in t.home then PlacedAt(p, s, t, f, t.home[f], k, w.pinned * w.aborted, h)
        else h in s.home ==> Stays(s, t, h))
  }

  lemma AddsThrough(p: Params, s: Fifo, s': Fifo, t: Fifo, f: nat, k: int, w: World, h: nat)
    requires Adds(p, s', t, f, k, w, h) && s'.home == s.home && (h in s.home ==> Stays(s, s', h))
    ensures Adds(p, s, t, f, k, w, h)
  {
  }

  lemma TakenAdds(p: Params, s: Fifo, l: seq<int>, f: nat, k: int, w: World, pinned: set<nat>, h: nat)
    requires FifoInv(p, s, NONE) && f !in s.home && MIN_SLOT <= k && Multiple(p.align, k)
    requires FirstTaker(s, l, k, pinned).Some? && w.pinned * w.aborted <= pinned
    ensures Adds(p, s, Replaced(p, s, FirstTaker(s, l, k, pinned).value, k, f), f, k, w, h)
  {
    ReplacedPlaces(p, s, FirstTaker(s, l, k, pinned).value, k, f, pinned, h);
    ReplacementMeaning(p, s, FirstTaker(s, l, k, pinned).value, k, f, h);
  }

  lemma {:induction false} GrownAdds(p: Params, s: Fifo, f: nat, k: int, w: World, n: nat, h: nat)
    requires Ready(p, s, f, k, w)
    ensures Adds(p, s, Grown(p, s, f, k, w, n).t, f, k, w, h)
    decreases Growths(s, k), 1
  {
    if FirstTaker(s, Empties(s), k, w.pinned).Some? {
      TakenAdds(p, s, Empties(s), f, k, w, w.pinned, h);
    } else if Growths(s, k) == 0 {
      AppendedPlaces(p, s, k, f, w.pinned, h);
    } else {
      var t := MoreSpace(p, s, k, w);
      MoreSpaceKeeps(p, s, f, k, w);
      if h in s.home { MoreSpaceStays(p, s, f, k, w, h); }
      if !w.ratio(n) {
        ForcedAdds(p, s, f, k, w, n, h);
      } else if HasMore(s, k, w) {
        GrownAdds(p, t, f, k, w, n + 1, h);
        AddsThrough(p, s, t, Grown(p, t, f, k, w, n + 1).t, f, k, w, h);
      } else {
        AskedTwice(p, s, f, k, w);
        ForcedAdds(p, t, f, k, w, n, h);
        AddsThrough(p, s, t, Forced(p, t, f, k, w, n).t, f, k, w, h);
      }
    }
  }

  lemma {:induction false} ForcedAdds(p: Params, s: Fifo, f: nat, k: int, w: World, n: nat, h: nat)
    requires Ready(p, s, f, k, w) && Growths(s, k) > 0
    ensures Adds(p, s, Forced(p, s, f, k, w, n).t, f, k, w, h)
    decreases Growths(s, k), 0
  {
    var t := MoreSpace(p, s, k, w);
    MoreSpaceKeeps(p, s, f, k, w);
    if h in s.home { MoreSpaceStays(p, s, f, k, w, h); }
    if FirstTaker(s, ByAge(s), k, w.pinned).Some? {
      TakenAdds(p, s, ByAge(s), f, k, w, w.pinned, h);
    } else if HasMore(s, k, w) {
      GrownAdds(p, t, f, k, w, n + 1, h);
      AddsThrough(p, s, t, Grown(p, t, f, k, w, n + 1).t, f, k, w, h);
    } else if FirstTaker(t, t.q, k, w.aborted).Some? {
      TakenAdds(p, t, t.q, f, k, w, w.aborted, h);
      AddsThrough(p, s, t, Replaced(p, t, FirstTaker(t, t.q, k, w.aborted).value, k, f), f, k, w, h);
    }
  }

  // ----- all operations

  /** What becomes of the fragment an operation is about. */
  ghost predicate Effect(p: Params, s: Fifo, op: Op, t: Fifo)
  {
    match op
    case AddOp(f, k, w) => f in t.home ==> Settles(p, t, f, t.home[f], k)
    case RemoveOp(f) =>
      && f in s.home && s.home[f] in s.slots
      && t.home == s.home - {f} && FrontHas(t, s.home[f], s.home[f] + s.slots[s.home[f]].len)
    case ShrinkOp(f, k) =>
      && f in s.home && s.home[f] in s.slots && s.slots[s.home[f]].unit in s.units
      && var a := s.home[f];
        if GivesBack(p, s, a, k) then
          && t.home == s.home && a in t.slots && t.slots[a] == s.slots[a].(len := k)
          && FreeAgain(t, s.slots[a].unit, a + k, a + s.slots[a].len)
        else t == s
  }

  /** A removed fragment is gone and its bytes are in the empty slot in front of the FIFO; a fragment
      that is placed has the bytes it asked for and no more than are of use, and is the last of the
      FIFO; a fragment gives back what it does not need exactly if that is of use to others. */
  lemma NamedEffect(p: Params, s: Fifo, op: Op)
    requires FifoInv(p, s, NONE) && Enabled(p, s, op)
    ensures Effect(p, s, op, Apply(p, s, op))
  {
    match op
    case AddOp(f, k, w) => GrownAdds(p, s, f, k, w, 0, f);
    case RemoveOp(f) => RemovedEffect(p, s, f, f);
    case ShrinkOp(f, k) =>
      ShrunkKeeps(p, s, f, k);
      ShrunkEffect(p, s, f, k, f);
  }

  /** No operation moves or resizes another fragment, or makes it older or younger; and only an add
      makes others go: exactly those that begin in the bytes it was given, none of which was
      undeletable all the time. */
  lemma OthersStay(p: Params, s: Fifo, op: Op, h: nat)
    requires FifoInv(p, s, NONE) && Enabled(p, s, op) && h in s.home && (op.AddOp? || h != op.f)
    ensures var t := Apply(p, s, op);
      if op.AddOp? && op.f in t.home && InTheWay(s, h, t.home[op.f], op.k)
      then h !in t.home && !(h in op.w.pinned && h in op.w.aborted)
      else Stays(s, t, h)
  {
    match op
    case AddOp(f, k, w) => GrownAdds(p, s, f, k, w, 0, h);
    case RemoveOp(f) => RemovedEffect(p, s, f, h);
    case ShrinkOp(f, k) =>
      ShrunkKeeps(p, s, f, k);
      HomeStays(p, s, NONE, h);
      ShrunkEffect(p, s, f, k, h);
  }

  /** Of two fragments the one that was placed earlier stands before the other in the FIFO. */
  lemma OlderFirst(p: Params, s: Fifo, g: nat, h: nat)
    requires FifoInv(p, s, NONE) && g in s.home && h in s.home && g != h
    ensures s.home[g] in s.q && s.home[h] in s.q && g in s.born && h in s.born
    ensures s.born[g] < s.born[h] <==> IndexOf(s.q, s.home[g]) < IndexOf(s.q, s.home[h])
  {
    assert Settled(s.slots, s.home[g]) && Settled(s.slots, s.home[h]);
    var i, j := IndexOf(s.q, s.home[g]), IndexOf(s.q, s.home[h]);
    if i < j { assert Before(s.slots, s.born, s.q[i], s.q[j]); }
    if j < i { assert Before(s.slots, s.born, s.q[j], s.q[i]); }
  }

  lemma PlacedIsYoungest(p: Params, t: Fifo, f: nat, a: int, k: int, g: nat)
    requires FifoInv(p, t, NONE) && Settles(p, t, f, a, k) && g in t.home && g != f
    ensures f in t.born && g in t.born && t.born[g] < t.born[f]
  {
    OlderFirst(p, t, g, f);
    assert t.q[IndexOf(t.q, t.home[f])] == t.q[|t.q| - 1];
  }

  // ----- the order of the FIFO over a run

  /** The number of the last add of each fragment, the first operation being number `n`. */
  function Turns(ops: seq<Op>, n: nat, turn: map<nat, nat>): map<nat, nat>
    decreases |ops|
  {
    if ops == [] then turn else Turns(ops[1..], n + 1, if ops[0].AddOp? then turn[ops[0].f := n] else turn)
  }

  ghost predicate Ranked(s: Fifo, turn: map<nat, nat>, g: nat, h: nat)
  {
    g in turn && h in turn && g in s.born && h in s.born && (turn[g] < turn[h] <==> s.born[g] < s.born[h])
  }

  /** Age in the FIFO is age by the number of the add. */
  ghost predicate ByTurn(s: Fifo, turn: map<nat, nat>, n: nat)
  {
    && (forall f | f in s.home :: f in turn && turn[f] < n)
    && (forall g, h {:trigger Ranked(s, turn, g, h)} | g in s.home && h in s.home && g != h :: Ranked(s, turn, g, h))
  }

  lemma TurnStep(p: Params, s: Fifo, op: Op, turn: map<nat, nat>, n: nat)
    requires FifoInv(p, s, NONE) && Enabled(p, s, op) && ByTurn(s, turn, n)
    ensures ByTurn(Apply(p, s, op), if op.AddOp? then turn[op.f := n] else turn, n + 1)
  {
    var t, turn' := Apply(p, s, op), if op.AddOp? then turn[op.f := n] else turn;
    NamedEffect(p, s, op);
    forall h | h in t.home ensures h == op.f || (h in s.home && Stays(s, t, h)) {
      if h in s.home && h != op.f { OthersStay(p, s, op, h); } else { NobodyElse(p, s, op, h); }
    }
    forall g, h | g in t.home && h in t.home && g != h ensures Ranked(t, turn', g, h) {
      RankedAfter(p, s, op, t, turn, n, g, h);
    }
  }

  /** Only the fragment that is added is new. */
  lemma NobodyElse(p: Params, s: Fifo, op: Op, h: nat)
    requires FifoInv(p, s, NONE) && Enabled(p, s, op) && h in Apply(p, s, op).home
    ensures h in s.home || (op.AddOp? && h == op.f)
  {
    match op
    case AddOp(f, k, w) => GrownAdds(p, s, f, k, w, 0, h);
    case RemoveOp(f) => NamedEffect(p, s, op);
    case ShrinkOp(f, k) => NamedEffect(p, s, op);
  }

  lemma RankedAfter(p: Params, s: Fifo, op: Op, t: Fifo, turn: map<nat, nat>, n: nat, g: nat, h: nat)
    requires FifoInv(p, s, NONE) && Enabled(p, s, op) && ByTurn(s, turn, n) && t == Apply(p, s, op)
    requires g in t.home && h in t.home && g != h && Effect(p, s, op, t)
    requires g == op.f || (g in s.home && Stays(s, t, g))
    requires h == op.f || (h in s.home && Stays(s, t, h))
    ensures Ranked(t, if op.AddOp? then turn[op.f := n] else turn, g, h)
  {
    match op
    case AddOp(f, k, w) =>
      if g == f {
        PlacedIsYoungest(p, t, f, t.home[f], k, h);
      } else if h == f {
        PlacedIsYoungest(p, t, f, t.home[f], k, g);
      } else {
        assert Ranked(s, turn, g, h);
      }
    case RemoveOp(f) => assert Ranked(s, turn, g, h);
    case ShrinkOp(f, k) =>
      ShrunkBorn(p, s, f, k);
      assert Ranked(s, turn, g, h);
  }

  lemma ShrunkBorn(p: Params, s: Fifo, f: nat, k: int)
    requires f in s.home && s.home[f] in s.slots && s.slots[s.home[f]].unit in s.units && s.order != []
    ensures Shrunk(p, s, f, k).born == s.born
  {
  }

  lemma {:induction false} TurnsKept(p: Params, s: Fifo, ops: seq<Op>, t: Fifo, turn: map<nat, nat>, n: nat)
    requires FifoInv(p, s, NONE) && Leads(p, s, ops, t) && ByTurn(s, turn, n)
    ensures FifoInv(p, t, NONE) && ByTurn(t, Turns(ops, n, turn), n + |ops|)
    decreases |ops|
  {
    if ops != [] {
      TurnStep(p, s, ops[0], turn, n);
      TurnsKept(p, Apply(p, s, ops[0]), ops[1..], t, if ops[0].AddOp? then turn[ops[0].f := n] else turn, n + 1);
    }
  }

  /** In every state that a private cache can reach: of two fragments the one that was added by an
      earlier operation stands before the other in the FIFO. */
  lemma FirstInFirst(p: Params, u: int, r: Unit, ops: seq<Op>, t: Fifo, g: nat, h: nat)
    requires UnitFits(p, u, u, r) && r.cur == u
    requires (InitialKeeps(p, u, r); Leads(p, Initial(u, r), ops, t))
    requires g in t.home && h in t.home && g != h
    ensures var turn := Turns(ops, 0, map[]);
      && g in turn && h in turn && t.home[g] in t.q && t.home[h] in t.q
      && (turn[g] < turn[h] <==> IndexOf(t.q, t.home[g]) < IndexOf(t.q, t.home[h]))
  {
    InitialKeeps(p, u, r);
    TurnsKept(p, Initial(u, r), ops, t, map[], 0);
    assert Ranked(t, Turns(ops, 0, map[]), g, h);
    OlderFirst(p, t, g, h);
  }
}
