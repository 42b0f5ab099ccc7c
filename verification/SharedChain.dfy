/** The walk of `chain_fragments_for_flush` over a retired unit. */
module SharedChain {
  import opened Layout
  import opened SlotModel
  import opened SlotLayout
  import opened SlotSteps
  import opened SharedOps
  import opened SharedFlush
  import opened SharedRuns
  import opened SharedMemory
  import opened SharedRep

  /** The fragments of unit `u` from address `a` on, in address order: those not deleted yet and
      those still on the lazy-deletion list. */
  ghost function ChainFrom(slots: Slots, frags: map<nat, Frag>, lazy: set<nat>, u: int, cur: int, a: int): seq<nat>
    decreases cur - a
  {
    if a < cur && a in slots && slots[a].unit == u && 0 < slots[a].len then
      (if slots[a].kind.Live? && slots[a].kind.f in frags && Taken(frags, lazy, slots[a].kind.f)
       then [slots[a].kind.f] else [])
      + ChainFrom(slots, frags, lazy, u, cur, a + slots[a].len)
    else []
  }

  predicate Taken(frags: map<nat, Frag>, lazy: set<nat>, f: nat)
    requires f in frags
  {
    !frags[f].deleted || f in lazy
  }

  /** After the walk has passed `pc`: the free entries of `u` behind it are off their lists. */
  ghost predicate Swept(s: State, t: State, u: int, pc: int)
  {
    && t.follows == s.follows && t.home == s.home && t.slots.Keys == s.slots.Keys
    && |s.lists| == |t.lists| == BUCKET_COUNT
    && (forall c | c in s.slots :: t.slots[c] ==
          if s.slots[c].unit == u && c < pc && s.slots[c].kind.Free? then s.slots[c].(kind := Limbo) else s.slots[c])
    && (forall b | 0 <= b < BUCKET_COUNT :: Outside(s.slots, u, t.lists[b]) == Outside(s.slots, u, s.lists[b]))
  }

  ghost predicate Sweeping(p: Params, m: Mem, s: State, t: State, u: int, pc: int)
  {
    && Good(p, s) && u in s.units && Swept(s, t, u, pc) && Rep(m, t, NONE) && Listed(t.slots, t.lists)
    && (pc == s.units[u].cur || (pc in s.slots && s.slots[pc].unit == u))
  }

  lemma SweepStart(p: Params, m: Mem, s: State, u: int)
    requires Good(p, s) && Rep(m, s, NONE) && u in s.flush
    ensures u in s.units && Sweeping(p, m, s, s, u, u)
  {
    UnitStart(p, m, s, u, u);
    assert UnitOk(p, u, s.units[u]);
    forall c | c in s.slots && s.slots[c].unit ==
      u ensures u <= c { assert Placed(p, s.units, s.slots, s.order[0], c); }
  }

  /** What the walk reads at `pc`. */
  lemma SweepRead(p: Params, m: Mem, s: State, t: State, u: int, pc: int)
    requires Sweeping(p, m, s, t, u, pc) && pc < s.units[u].cur
    ensures var x := s.slots[pc];
      && pc in s.slots && 0 < x.len && pc + x.len <= s.units[u].cur && x.unit == u
      && (pc + x.len == s.units[u].cur || (pc + x.len in s.slots && s.slots[pc + x.len].unit == u))
      && pc in m.word && Readable(m, m.word[pc])
      && (if IsFreeList(m, m.word[pc]) then x.kind.Free? && FreeLen(t.slots, pc) == x.len
          else x.kind.Live? && m.word[pc] == To(x.kind.f) && x.kind.f in m.frags && FragSize(m.frags[x.kind.f]) == x.len
               && x.kind.f in s.home && s.home[x.kind.f] == pc)
  {
    assert Placed(p, s.units, s.slots, s.order[0], pc) && KindOk(s, NONE, s.order[0], pc);
    assert t.slots[pc] == s.slots[pc];
    assert SlotRep(m, t.slots[pc], t.follows, pc);
    FirstWordTells(m, t, NONE, pc);
  }

  /** The state without the free entry at `pc`. */
  function Sweep(t: State, pc: int): State
    requires FreeLen(t.slots, pc) >= 0 && |t.lists| == BUCKET_COUNT
  {
    t.(slots := SetKind(t.slots, pc, Limbo), lists := Delist(t.lists, t.slots[pc].len, pc))
  }

  lemma SweepFree(p: Params, m: Mem, s: State, t: State, u: int, pc: int)
    requires Sweeping(p, m, s, t, u, pc) && pc < s.units[u].cur && pc in s.slots && s.slots[pc].kind.Free?
    requires FreeLen(t.slots, pc) == s.slots[pc].len > 0
    requires var e := pc + s.slots[pc].len; e == s.units[u].cur || (e in s.slots && s.slots[e].unit == u)
    ensures Unlinkable(m, pc, FreeLen(t.slots, pc))
    ensures Sweeping(p, UnlinkMem(m, Bucket(FreeLen(t.slots, pc)), pc), s, Sweep(t, pc), u, pc + s.slots[pc].len)
  {
    var t' := Sweep(t, pc);
    NextIsEntry(m, t, NONE, pc);
    UnlinkSlots(m, t, NONE, pc);
    UnlinkLists(m, t.slots, t.lists, pc);
    DelistKeeps(t.slots, t'.slots, t.lists, pc);
    SlotsRepSame(UnlinkMem(m, Bucket(FreeLen(t.slots, pc)), pc), t.slots, t'.slots, t.follows, NONE);
    SweptFree(s, t, u, pc);
  }

  lemma SweptFree(s: State, t: State, u: int, pc: int)
    requires Swept(s, t, u, pc) && Disjoint(s.slots) && pc in s.slots && s.slots[pc].unit == u && s.slots[pc].kind.Free?
    requires FreeLen(t.slots, pc) == s.slots[pc].len > 0
    ensures Swept(s, Sweep(t, pc), u, pc + s.slots[pc].len)
  {
    var b := Bucket(t.slots[pc].len);
    OutsideWithout(s.slots, u, t.lists[b], pc);
  }

  lemma SweptLive(s: State, t: State, u: int, pc: int)
    requires Swept(s, t, u, pc) && Disjoint(s.slots) && pc in s.slots && !s.slots[pc].kind.Free? && s.slots[pc].len > 0
    ensures Swept(s, t, u, pc + s.slots[pc].len)
  {
  }

  /** Taking an entry of `u` off a list does not change the rest of the list. */
  lemma OutsideWithout(slots: Slots, u: int, l: seq<int>, a: int)
    requires !Elsewhere(slots, u, a)
    ensures Outside(slots, u, Without(l, a)) == Outside(slots, u, l)
  {
    if a in l {
      var i := IndexOf(l, a);
      OutsideConcat(slots, u, l[..i], l[i..]);
      OutsideConcat(slots, u, l[..i], l[i + 1..]);
      assert l == l[..i] + l[i..];
      assert l[i..][1..] == l[i + 1..];
    }
  }

  lemma {:induction false} OutsideConcat(slots: Slots, u: int, l: seq<int>, k: seq<int>)
    ensures Outside(slots, u, l + k) == Outside(slots, u, l) + Outside(slots, u, k)
  {
    if l == [] {
      assert l + k == k;
    } else {
      OutsideConcat(slots, u, l[1..], k);
      assert (l + k)[1..] == l[1..] + k;
    }
  }

  lemma {:induction false} OutsideAll(slots: Slots, u: int, l: seq<int>)
    requires forall a | a in l :: Elsewhere(slots, u, a)
    ensures Outside(slots, u, l) == l
  {
    if l != [] { OutsideAll(slots, u, l[1..]); }
  }

  /** When the walk is done, memory represents the cache without the unit. */
  lemma SweepEnd(p: Params, m: Mem, s: State, t: State, u: int)
    requires u in s.units && Sweeping(p, m, s, t, u, s.units[u].cur)
    ensures Rep(m, Forget(s, u), NONE)
  {
    var s' := Forget(s, u);
    forall b | 0 <= b < BUCKET_COUNT ensures t.lists[b] == s'.lists[b] {
      assert ListOk(t.slots, t.lists[b], b);
      forall a | a in t.lists[b] ensures Elsewhere(s.slots, u, a) {
        assert Entry(t.slots, b, a) && Placed(p, s.units, s.slots, s.order[0], a);
      }
      OutsideAll(s.slots, u, t.lists[b]);
    }
    assert t.lists == s'.lists;
    forall c | c in s'.slots && c != NONE ensures SlotRep(m, s'.slots[c], s'.follows, c) {
      assert SlotRep(m, t.slots[c], t.follows, c) && KindOk(s, NONE, s.order[0], c);
    }
  }

  /** The deleted fragments of `u` whose slots lie below `pc`. */
  ghost function LazyBefore(s: State, frags: map<nat, Frag>, u: int, pc: int): set<nat>
  {
    set f |
      && f in s.home && s.home[f] < pc && s.home[f] in s.slots && s.slots[s.home[f]].unit == u
      && f in frags && frags[f].deleted
  }

  lemma LazyStart(p: Params, s: State, frags: map<nat, Frag>, u: int)
    requires Good(p, s)
    ensures LazyBefore(s, frags, u, u) == {}
  {
    forall f | f in s.home && s.home[f] in s.slots && s.slots[s.home[f]].unit == u ensures u <= s.home[f] {
      assert Placed(p, s.units, s.slots, s.order[0], s.home[f]);
    }
  }

  /** Stepping over the slot at `pc` passes at most the fragment that lives there. */
  lemma LazyStep(p: Params, s: State, frags: map<nat, Frag>, u: int, pc: int)
    requires Good(p, s) && pc in s.slots && s.slots[pc].unit == u && s.slots[pc].len > 0
    ensures LazyBefore(s, frags, u, pc + s.slots[pc].len) == LazyBefore(s, frags, u, pc)
         + (if s.slots[pc].kind.Live? && s.slots[pc].kind.f in frags && frags[s.slots[pc].kind.f].deleted
            then {s.slots[pc].kind.f} else {})
    ensures s.slots[pc].kind.Live? ==> s.slots[pc].kind.f !in LazyBefore(s, frags, u, pc)
  {
    assert KindOk(s, NONE, s.order[0], pc);
  }

  /** What the walk has collected when it stands at `pc`. */
  ghost predicate Chained(s: State, frags: map<nat, Frag>, lazy: set<nat>, u: int, pc: int, chain: seq<nat>,
    lazy': set<nat>)
    requires u in s.units
  {
    && chain + ChainFrom(s.slots, frags, lazy, u, s.units[u].cur, pc) ==
      ChainFrom(s.slots, frags, lazy, u, s.units[u].cur, u)
    && lazy' == lazy - LazyBefore(s, frags, u, pc)
  }

  lemma ChainStart(p: Params, s: State, frags: map<nat, Frag>, lazy: set<nat>, u: int)
    requires Good(p, s) && u in s.units
    ensures Chained(s, frags, lazy, u, u, [], lazy)
  {
    LazyStart(p, s, frags, u);
  }

  /** The walk's bookkeeping for the slot at `pc` is right. */
  lemma ChainStep(p: Params, s: State, frags: map<nat, Frag>, lazy: set<nat>, u: int, pc: int, chain: seq<nat>,
    lazy': set<nat>)
    requires Good(p, s) && u in s.units && pc in s.slots && s.slots[pc].unit == u && s.slots[pc].len > 0
    requires pc < s.units[u].cur
    requires Chained(s, frags, lazy, u, pc, chain, lazy')
    requires s.slots[pc].kind.Live? ==> s.slots[pc].kind.f in frags
    ensures var x := s.slots[pc];
      if !x.kind.Live? then Chained(s, frags, lazy, u, pc + x.len, chain, lazy')
      else if !frags[x.kind.f].deleted then Chained(s, frags, lazy, u, pc + x.len, chain + [x.kind.f], lazy')
      else if x.kind.f in lazy' then Chained(s, frags, lazy, u, pc + x.len, chain + [x.kind.f], lazy' - {x.kind.f})
      else Chained(s, frags, lazy, u, pc + x.len, chain, lazy' - {x.kind.f})
  {
    LazyStep(p, s, frags, u, pc);
    var rest := ChainFrom(s.slots, frags, lazy, u, s.units[u].cur, pc + s.slots[pc].len);
    if s.slots[pc].kind.Live? {
      assert chain + ([s.slots[pc].kind.f] + rest) == chain + [s.slots[pc].kind.f] + rest;
    }
    assert chain + ([] + rest) == chain + rest;
  }

  lemma ChainEnd(s: State, frags: map<nat, Frag>, lazy: set<nat>, u: int, chain: seq<nat>, left: set<nat>)
    requires u in s.units && Chained(s, frags, lazy, u, s.units[u].cur, chain, left)
    ensures chain == ChainFrom(s.slots, frags, lazy, u, s.units[u].cur, u)
  {
    assert chain + [] == chain;
  }

  lemma ForgetIs(p: Params, s: State, u: int)
    requires Good(p, s) && u in s.flush
    ensures var t := Apply(p, s, FlushOp(u));
      && |s.lists| == BUCKET_COUNT && t == Forget(s, u) && t.units == s.units - {u} && t.flush == Without(s.flush, u)
      && t.order == s.order
  {
  }

  /** `f` lives in unit `u` at or above `a`. */
  ghost predicate LivesFrom(s: State, u: int, a: int, f: nat)
  {
    f in s.home && s.home[f] in s.slots && s.slots[s.home[f]].unit == u && a <= s.home[f]
  }

  ghost predicate ChainIs(s: State, frags: map<nat, Frag>, lazy: set<nat>, u: int, a: int, chain: seq<nat>)
    requires forall f | f in s.home :: f in frags
  {
    && (forall i | 0 <= i < |chain| :: LivesFrom(s, u, a, chain[i]) && Taken(frags, lazy, chain[i]))
    && (forall f | LivesFrom(s, u, a, f) && Taken(frags, lazy, f) :: f in chain)
    && (forall i, j | 0 <= i < j < |chain| :: s.home[chain[i]] < s.home[chain[j]])
  }

  /** The chain holds exactly the unit's fragments that are not deleted or still on the lazy list,
      each once and in address order. */
  lemma {:induction false} ChainMeaning(p: Params, s: State, frags: map<nat, Frag>, lazy: set<nat>, u: int, a: int)
    requires Good(p, s) && u in s.units && (a == s.units[u].cur || (a in s.slots && s.slots[a].unit == u))
    requires forall f | f in s.home :: f in frags
    ensures ChainIs(s, frags, lazy, u, a, ChainFrom(s.slots, frags, lazy, u, s.units[u].cur, a))
    decreases s.units[u].cur - a
  {
    NothingBeyond(p, s, u);
    if a < s.units[u].cur {
      SlotHere(p, s, u, a);
      var e := a + s.slots[a].len;
      ChainMeaning(p, s, frags, lazy, u, e);
      ChainCons(s, frags, lazy, u, a, e, ChainFrom(s.slots, frags, lazy, u, s.units[u].cur, e));
    }
  }

  /** The fragment at `a`, if there is one to be chained, in front of those behind it */
  lemma ChainCons(s: State, frags: map<nat, Frag>, lazy: set<nat>, u: int, a: int, e: int, rest: seq<nat>)
    requires (forall f | f in s.home :: f in frags) && a in s.slots && s.slots[a].unit == u && a < e
    requires ChainIs(s, frags, lazy, u, e, rest)
    requires s.slots[a].kind.Live? ==> s.slots[a].kind.f in s.home && s.home[s.slots[a].kind.f] == a
    requires forall f | LivesFrom(s, u, a, f) && s.home[f] != a :: LivesFrom(s, u, e, f)
    requires forall f | f in s.home && s.home[f] == a :: s.slots[a].kind == Live(f)
    ensures
      var head := if s.slots[a].kind.Live? && Taken(frags, lazy, s.slots[a].kind.f) then [s.slots[a].kind.f] else [];
      ChainIs(s, frags, lazy, u, a, head + rest)
  {
    var head := if s.slots[a].kind.Live? && Taken(frags, lazy, s.slots[a].kind.f) then [s.slots[a].kind.f] else [];
    var chain := head + rest;
    forall i | 0 <= i < |chain| ensures LivesFrom(s, u, a, chain[i]) && Taken(frags, lazy, chain[i]) {
      if i >= |head| { assert LivesFrom(s, u, e, rest[i - |head|]); }
    }
    forall f | LivesFrom(s, u, a, f) && Taken(frags, lazy, f) ensures f in chain {
      if s.home[f] == a { assert chain[0] == f; } else { assert f in rest; }
    }
    forall i, j | 0 <= i < j < |chain| ensures s.home[chain[i]] < s.home[chain[j]] {
      assert LivesFrom(s, u, e, rest[j - |head|]);
    }
  }

  lemma NothingBeyond(p: Params, s: State, u: int)
    requires Good(p, s) && u in s.units
    ensures forall f | f in s.home && s.home[f] in s.slots && s.slots[s.home[f]].unit == u :: s.home[f] < s.units[u].cur
  {
    forall f | f in s.home && s.home[f] in s.slots && s.slots[s.home[f]].unit == u ensures s.home[f] < s.units[u].cur {
      assert Placed(p, s.units, s.slots, s.order[0], s.home[f]);
    }
  }

  lemma SlotHere(p: Params, s: State, u: int, a: int)
    requires Good(p, s) && u in s.units && a in s.slots && s.slots[a].unit == u && a < s.units[u].cur
    ensures var e := a + s.slots[a].len; a < e && (e == s.units[u].cur || (e in s.slots && s.slots[e].unit == u))
    ensures s.slots[a].kind.Live? ==> s.slots[a].kind.f in s.home && s.home[s.slots[a].kind.f] == a
    ensures forall f | LivesFrom(s, u, a, f) && s.home[f] != a :: LivesFrom(s, u, a + s.slots[a].len, f)
    ensures forall f | f in s.home && s.home[f] == a :: s.slots[a].kind == Live(f)
  {
    assert Placed(p, s.units, s.slots, s.order[0], a) && KindOk(s, NONE, s.order[0], a);
  }
}
