/** `add_fragment_common` of Simulator/core/fcache.c for a private cache, with its growth: empty
    slots, the append point, more space, the fragments by age, more space again, and at last the
    fragments once more after a trace has been given up. */
module PrivateGrowth {
  import opened Layout
  import opened SlotModel
  import opened SlotLayout
  import opened PrivateModel
  import opened PrivateOps
  import opened PrivateEviction

  /** What lies outside the cache: the fragments that cannot be deleted, before and after a trace is
      given up; whether rebuilding justifies growth the `n`th time it is asked; whether the maximum
      size allows another unit; and the unit that `fcache_create_unit` would give. */
  datatype World = World(pinned: set<nat>, aborted: set<nat>, ratio: nat -> bool, allowed: bool, u: int, unit: Unit)

  datatype Outcome = Outcome(placed: bool, t: Fifo)

  ghost predicate GrowthParams(p: Params)
  {
    0 < p.commit && p.commit % PAGE == 0 && Multiple(p.align, PAGE)
  }

  /** How often the cache may have to grow before `k` bytes fit at the append point. */
  function Growths(s: Fifo, k: int): nat
    requires s.order != [] && s.order[0] in s.units
  {
    var r := s.units[s.order[0]];
    if r.cur + k <= r.end then 0 else if r.cur + k <= r.reserved then 1 else 2
  }

  /** The new unit lies apart from the others and can hold the request. */
  ghost predicate Offered(p: Params, s: Fifo, k: int, u: int, n: Unit)
  {
    && UnitFits(p, u, u, n) && n.cur == u && u + k <= n.reserved && u !in s.units
    && forall v | v in s.units :: s.units[v].reserved < u || n.reserved < v
  }

  ghost predicate Ready(p: Params, s: Fifo, f: nat, k: int, w: World)
  {
    && GrowthParams(p) && FifoInv(p, s, NONE) && f !in s.home && MIN_SLOT <= k && Multiple(p.align, k)
    && (Growths(s, k) == 2 && w.allowed ==> Offered(p, s, k, w.u, w.unit))
  }

  // ----- `try_for_more_space`

  /** More of the current unit is committed. */
  function MoreCommitted(p: Params, s: Fifo, k: int): Fifo
    requires s.order != [] && s.order[0] in s.units && 0 < p.commit
  {
    CommittedMore(s, CommitSize(p, s.units[s.order[0]], k))
  }

  /** All of the current unit is committed, and what no slot holds is an empty slot. */
  function Exhausted(p: Params, s: Fifo, k: int): Fifo
    requires s.order != [] && s.order[0] in s.units && 0 < p.commit
  {
    if s.units[s.order[0]].end < s.units[s.order[0]].reserved then Filled(MoreCommitted(p, s, k)) else s
  }

  predicate HasMore(s: Fifo, k: int, w: World)
    requires s.order != [] && s.order[0] in s.units
  {
    Growths(s, k) < 2 || w.allowed
  }

  lemma CommitIsUseful(p: Params, s: Fifo, k: int)
    requires GrowthParams(p) && FifoInv(p, s, NONE) && Growths(s, k) > 0
    requires s.units[s.order[0]].end < s.units[s.order[0]].reserved
    ensures var r := s.units[s.order[0]]; var c := CommitSize(p, r, k);
      && 0 < c <= r.reserved - r.end && c % PAGE == 0
      && (if Growths(s, k) == 1 then r.cur + k <= r.end + c else c == r.reserved - r.end)
  {
    var r := s.units[s.order[0]];
    assert UnitFits(p, s.order[0], s.order[0], r);
    DoubledPages(p.commit, r.cur + k - r.end);
  }

  lemma MoreCommittedKeeps(p: Params, s: Fifo, k: int)
    requires GrowthParams(p) && FifoInv(p, s, NONE) && Growths(s, k) == 1
    ensures var t := MoreCommitted(p, s, k);
      && FifoInv(p, t, NONE) && t.home == s.home && t.order == s.order && Growths(t, k) == 0
  {
    CommitIsUseful(p, s, k);
    CommittedMoreKeeps(p, s, CommitSize(p, s.units[s.order[0]], k));
  }

  lemma ExhaustedKeeps(p: Params, s: Fifo, k: int)
    requires GrowthParams(p) && FifoInv(p, s, NONE) && Growths(s, k) == 2
    ensures var t := Exhausted(p, s, k);
      && FifoInv(p, t, NONE) && t.home == s.home && t.order == s.order && t.units.Keys == s.units.Keys
      && (forall u | u in s.units :: t.units[u].reserved == s.units[u].reserved)
      && t.units[s.order[0]].end == t.units[s.order[0]].reserved
  {
    var r := s.units[s.order[0]];
    assert UnitFits(p, s.order[0], s.order[0], r);
    if r.end < r.reserved {
      CommitIsUseful(p, s, k);
      CommittedMoreKeeps(p, s, CommitSize(p, r, k));
      FilledKeeps(p, MoreCommitted(p, s, k));
      FilledUnits(p, MoreCommitted(p, s, k));
    }
  }

  lemma FilledUnits(p: Params, s: Fifo)
    requires FifoInv(p, s, NONE)
    ensures var t := Filled(s);
      && t.home == s.home && t.order == s.order && t.units.Keys == s.units.Keys
      && (forall u | u in s.units :: t.units[u].end == s.units[u].end)
  {
  }

  /** A new unit, behind which the old one is full. */
  function NextUnit(p: Params, s: Fifo, k: int, w: World): Fifo
    requires s.order != [] && s.order[0] in s.units && 0 < p.commit
  {
    var t := Exhausted(p, s, k);
    if t.order != [] && t.order[0] in t.units then UnitAdded(Filled(t), w.u, w.unit) else t
  }

  lemma NextUnitKeeps(p: Params, s: Fifo, f: nat, k: int, w: World)
    requires Ready(p, s, f, k, w) && Growths(s, k) == 2 && w.allowed
    ensures var t := NextUnit(p, s, k, w);
      FifoInv(p, t, NONE) && t.home == s.home && t.order == [w.u] + s.order && Growths(t, k) < 2
  {
    ExhaustedKeeps(p, s, k);
    var e := Exhausted(p, s, k);
    FilledKeeps(p, e);
    FilledUnits(p, e);
    UnitAddedKeeps(p, Filled(e), w.u, w.unit);
  }

  /** What `try_for_more_space` leaves behind, whether it succeeds or not. */
  function MoreSpace(p: Params, s: Fifo, k: int, w: World): Fifo
    requires s.order != [] && s.order[0] in s.units && 0 < p.commit
  {
    if Growths(s, k) < 2 then MoreCommitted(p, s, k) else if w.allowed then NextUnit(p, s, k, w) else Exhausted(p, s, k)
  }

  lemma MoreSpaceKeeps(p: Params, s: Fifo, f: nat, k: int, w: World)
    requires Ready(p, s, f, k, w) && Growths(s, k) > 0
    ensures var t := MoreSpace(p, s, k, w);
      && FifoInv(p, t, NONE) && t.home == s.home
      && (HasMore(s, k, w) ==> Growths(t, k) < Growths(s, k) && Ready(p, t, f, k, w))
  {
    if Growths(s, k) == 1 {
      MoreCommittedKeeps(p, s, k);
    } else if w.allowed {
      NextUnitKeeps(p, s, f, k, w);
    } else {
      ExhaustedKeeps(p, s, k);
    }
  }

  // ----- `add_fragment_common`

  function Empties(s: Fifo): seq<int>
  {
    s.q[..EmptyCount(s.slots, s.q)]
  }

  function ByAge(s: Fifo): seq<int>
  {
    s.q[EmptyCount(s.slots, s.q)..]
  }

  /** What becomes of the request, the growth ratio having been asked for `n` times. */
  ghost function Grown(p: Params, s: Fifo, f: nat, k: int, w: World, n: nat): (o: Outcome)
    requires Ready(p, s, f, k, w)
    decreases Growths(s, k), 1
  {
    var empty := FirstTaker(s, Empties(s), k, w.pinned);
    if empty.Some? then Outcome(true, Replaced(p, s, empty.value, k, f))
    else if Growths(s, k) == 0 then Outcome(true, Appended(p, s, k, f))
    else
      var t := MoreSpace(p, s, k, w);
      MoreSpaceKeeps(p, s, f, k, w);
      if !w.ratio(n) then Forced(p, s, f, k, w, n)
      else if HasMore(s, k, w) then Grown(p, t, f, k, w, n + 1)
      else
        AskedTwice(p, s, f, k, w);
        Forced(p, t, f, k, w, n)
  }

  /** The oldest fragments have to make room; or the cache grows after all, or a trace is given up. */
  ghost function Forced(p: Params, s: Fifo, f: nat, k: int, w: World, n: nat): (o: Outcome)
    requires Ready(p, s, f, k, w) && Growths(s, k) > 0
    decreases Growths(s, k), 0
  {
    var victim, t := FirstTaker(s, ByAge(s), k, w.pinned), MoreSpace(p, s, k, w);
    MoreSpaceKeeps(p, s, f, k, w);
    if victim.Some? then Outcome(true, Replaced(p, s, victim.value, k, f))
    else if HasMore(s, k, w) then Grown(p, t, f, k, w, n + 1)
    else
      var last := FirstTaker(t, t.q, k, w.aborted);
      if last.Some? then Outcome(true, Replaced(p, t, last.value, k, f)) else Outcome(false, t)
  }

  lemma TakenKeeps(p: Params, s: Fifo, l: seq<int>, f: nat, k: int, pinned: set<nat>)
    requires FifoInv(p, s, NONE) && f !in s.home && MIN_SLOT <= k && Multiple(p.align, k)
    requires FirstTaker(s, l, k, pinned).Some?
    ensures var t := Replaced(p, s, FirstTaker(s, l, k, pinned).value, k, f); FifoInv(p, t, NONE) && f in t.home
  {
    var a := FirstTaker(s, l, k, pinned).value;
    ReplacedKeeps(p, s, a, k, f);
    ReplacementMeaning(p, s, a, k, f, f);
  }

  lemma AppendedHolds(p: Params, s: Fifo, k: int, f: nat)
    requires FifoInv(p, s, NONE) && f !in s.home && MIN_SLOT <= k && Multiple(p.align, k) && Growths(s, k) == 0
    ensures FifoInv(p, Appended(p, s, k, f), NONE) && f in Appended(p, s, k, f).home
  {
    AppendedKeeps(p, s, k, f);
  }

  /** Whatever happens the invariant holds afterwards, and a fragment reported as placed is in the
      cache. */
  lemma {:induction false} GrownKeeps(p: Params, s: Fifo, f: nat, k: int, w: World, n: nat)
    requires Ready(p, s, f, k, w)
    ensures var o := Grown(p, s, f, k, w, n); FifoInv(p, o.t, NONE) && (o.placed <==> f in o.t.home)
    decreases Growths(s, k), 1
  {
    if FirstTaker(s, Empties(s), k, w.pinned).Some? {
      TakenKeeps(p, s, Empties(s), f, k, w.pinned);
    } else if Growths(s, k) == 0 {
      AppendedHolds(p, s, k, f);
    } else {
      var t := MoreSpace(p, s, k, w);
      MoreSpaceKeeps(p, s, f, k, w);
      if !w.ratio(n) {
        ForcedKeeps(p, s, f, k, w, n);
      } else if HasMore(s, k, w) {
        GrownKeeps(p, t, f, k, w, n + 1);
      } else {
        AskedTwice(p, s, f, k, w);
        ForcedKeeps(p, t, f, k, w, n);
      }
    }
  }

  lemma {:induction false} ForcedKeeps(p: Params, s: Fifo, f: nat, k: int, w: World, n: nat)
    requires Ready(p, s, f, k, w) && Growths(s, k) > 0
    ensures var o := Forced(p, s, f, k, w, n); FifoInv(p, o.t, NONE) && (o.placed <==> f in o.t.home)
    decreases Growths(s, k), 0
  {
    var t := MoreSpace(p, s, k, w);
    MoreSpaceKeeps(p, s, f, k, w);
    if FirstTaker(s, ByAge(s), k, w.pinned).Some? {
      TakenKeeps(p, s, ByAge(s), f, k, w.pinned);
    } else if HasMore(s, k, w) {
      GrownKeeps(p, t, f, k, w, n + 1);
    } else if FirstTaker(t, t.q, k, w.aborted).Some? {
      TakenKeeps(p, t, t.q, f, k, w.aborted);
    }
  }

  // ----- when nothing helps

  /** As long as the cache may grow the fragment is placed. */
  lemma {:induction false} PlacedIfMore(p: Params, s: Fifo, f: nat, k: int, w: World, n: nat)
    requires Ready(p, s, f, k, w) && HasMore(s, k, w)
    ensures Grown(p, s, f, k, w, n).placed
    decreases Growths(s, k)
  {
    if FirstTaker(s, Empties(s), k, w.pinned).None? && Growths(s, k) > 0 {
      MoreSpaceKeeps(p, s, f, k, w);
      PlacedIfMore(p, MoreSpace(p, s, k, w), f, k, w, n + 1);
    }
  }

  /** Slots of the unit that was filled keep their places, and what was added is empty. */
  ghost predicate FilledUp(s: Fifo, t: Fifo, cu: int, c: int)
    requires cu in s.units && cu in t.units && c in s.slots
  {
    && c in t.slots && t.slots[c].kind == s.slots[c].kind && t.slots[c].unit == s.slots[c].unit
    && (if t.slots[c] == s.slots[c] then c + s.slots[c].len == s.units[cu].cur ==> s.units[cu].cur in t.slots
        else c + s.slots[c].len == s.units[cu].cur && c + t.slots[c].len == t.units[cu].cur)
  }

  lemma NotBehindUnit(p: Params, s: Fifo, c: int)
    requires FifoInv(p, s, NONE) && c in s.slots
    ensures c != s.units[s.order[0]].end
  {
    var cu, v := s.order[0], s.slots[c].unit;
    assert Placed(p, s.units, s.slots, NONE, c) && UnitFits(p, cu, cu, s.units[cu]) && UnitFits(p, cu, v, s.units[v]);
  }

  lemma FilledShape(p: Params, s: Fifo)
    requires FifoInv(p, s, NONE) && s.units[s.order[0]].cur < s.units[s.order[0]].end
    ensures var t, cu := Filled(s), s.order[0];
      && t.units == s.units[cu := s.units[cu].(cur := s.units[cu].end, full := true)]
      && (forall c | c in s.slots :: FilledUp(s, t, cu, c))
      && (s.units[cu].cur in t.slots ==>
            t.slots[s.units[cu].cur].kind.Free? && s.units[cu].cur + t.slots[s.units[cu].cur].len == t.units[cu].cur)
  {
    var t, cu := Filled(s), s.order[0];
    var r := s.units[cu];
    NoSlotAtEnd(p, s.units, s.slots, cu, cu);
    if s.q != [] {
      assert Settled(s.slots, s.q[0]) by { assert s.q[0] in s.q; }
      NotBehindUnit(p, s, s.q[0]);
    }
    assert !JoinsNext(Opened(s, r.end - r.cur).slots, s.q, r.cur);
    forall c | c in s.slots ensures FilledUp(s, t, cu, c) {
      if c + s.slots[c].len == r.cur && r.cur !in t.slots {
        assert c <= s.q[0] <= c by {
          assert Placed(p, s.units, s.slots, NONE, c) && Placed(p, s.units, s.slots, NONE, s.q[0]);
        }
      }
    }
  }

  /** One step of a walk over victims before and after the fill of its unit. */
  ghost predicate StepsAlike(slots: Slots, slots': Slots, u: int, cur: int, cur': int, c: int)
    requires c in slots
  {
    var e := c + slots[c].len;
    && c in slots' && slots'[c].kind == slots[c].kind
    && (if e < cur then e in slots && slots[e].unit == u && 0 < slots[e].len && slots'[c] == slots[c] && e < cur'
        else
          || c + slots'[c].len == cur'
          || (slots'[c] == slots[c] && e in slots' && slots'[e].kind.Free? && e + slots'[e].len == cur'))
  }

  /** Only the last slot of the current unit ends at the append point. */
  lemma EndsElsewhere(p: Params, s: Fifo, c: int)
    requires FifoInv(p, s, NONE) && c in s.slots && s.slots[c].unit in s.units
    requires s.slots[c].unit != s.order[0] || c + s.slots[c].len < s.units[s.order[0]].cur
    ensures c + s.slots[c].len != s.units[s.order[0]].cur
  {
    var cu, u := s.order[0], s.slots[c].unit;
    assert Placed(p, s.units, s.slots, NONE, c) && UnitFits(p, cu, cu, s.units[cu]) && UnitFits(p, cu, u, s.units[u]);
  }

  lemma AlikeAfterFill(p: Params, s: Fifo, c: int)
    requires FifoInv(p, s, NONE) && s.units[s.order[0]].cur < s.units[s.order[0]].end && c in s.slots
    ensures var t, u := Filled(s), s.slots[c].unit;
      u in s.units && u in t.units && StepsAlike(s.slots, t.slots, u, s.units[u].cur, t.units[u].cur, c)
  {
    FilledShape(p, s);
    NextInUnit(p, s, NONE, c);
    var t, cu, u := Filled(s), s.order[0], s.slots[c].unit;
    assert FilledUp(s, t, cu, c);
    if u != cu || c + s.slots[c].len < s.units[cu].cur {
      EndsElsewhere(p, s, c);
    }
  }

  lemma LastStep(slots: Slots, slots': Slots, u: int, cur: int, cur': int, c: int, need: int, pinned: set<nat>)
    requires c in slots && StepsAlike(slots, slots', u, cur, cur', c) && c + slots[c].len >= cur
    ensures Barred(slots', cur', c, need, pinned) ==> PinnedAt(slots, pinned, c)
  {
    var e := c + slots'[c].len;
    if GoesOn(slots', cur', c, need) {
      assert !GoesOn(slots', cur', e, need - slots'[c].len);
      assert !PinnedAt(slots', pinned, e);
      assert !Barred(slots', cur', e, need - slots'[c].len, pinned);
    }
  }

  lemma InnerStep(slots: Slots, slots': Slots, u: int, cur: int, cur': int, c: int, e: int, need: int, rest: int,
    pinned: set<nat>)
    requires c in slots && StepsAlike(slots, slots', u, cur, cur', c) && e == c + slots[c].len < cur
    requires rest == need - slots[c].len
    requires GoesOn(slots, cur, c, need) && Barred(slots', cur', e, rest, pinned) ==>
      Barred(slots, cur, e, rest, pinned)
    ensures Barred(slots', cur', c, need, pinned) ==> Barred(slots, cur, c, need, pinned)
  {
  }

  /** After the fill the walk over the victims meets no pinned fragment that it did not meet before. */
  lemma {:induction false} BarredLess(slots: Slots, slots': Slots, u: int, cur: int, cur': int, c: int, need: int,
    pinned: set<nat>)
    requires forall d {:trigger StepsAlike(slots, slots', u, cur, cur', d)} | d in slots && slots[d].unit == u ::
      StepsAlike(slots, slots', u, cur, cur', d)
    requires c in slots && slots[c].unit == u
    ensures Barred(slots', cur', c, need, pinned) ==> Barred(slots, cur, c, need, pinned)
    decreases need
  {
    assert StepsAlike(slots, slots', u, cur, cur', c);
    var e, rest := c + slots[c].len, need - slots[c].len;
    if e >= cur {
      LastStep(slots, slots', u, cur, cur', c, need, pinned);
    } else {
      if GoesOn(slots, cur, c, need) { BarredLess(slots, slots', u, cur, cur', e, rest, pinned); }
      InnerStep(slots, slots', u, cur, cur', c, e, need, rest, pinned);
    }
  }

  lemma TakesFilled(p: Params, s: Fifo, k: int, a: int, pinned: set<nat>)
    requires FifoInv(p, s, NONE) && s.units[s.order[0]].cur < s.units[s.order[0]].end && Takes(s, a, k, pinned)
    ensures Takes(Filled(s), a, k, pinned)
  {
    var t, u := Filled(s), s.slots[a].unit;
    FilledShape(p, s);
    assert FilledUp(s, t, s.order[0], a);
    forall d | d in s.slots && s.slots[d].unit ==
      u ensures StepsAlike(s.slots, t.slots, u, s.units[u].cur, t.units[u].cur, d) {
      AlikeAfterFill(p, s, d);
    }
    BarredLess(s.slots, t.slots, u, s.units[u].cur, t.units[u].cur, a, k, pinned);
  }

  lemma TakesMore(p: Params, s: Fifo, k: int, a: int, pinned: set<nat>)
    requires GrowthParams(p) && FifoInv(p, s, NONE) && Growths(s, k) == 2 && Takes(s, a, k, pinned)
    ensures Takes(Exhausted(p, s, k), a, k, pinned)
  {
    var r := s.units[s.order[0]];
    assert UnitFits(p, s.order[0], s.order[0], r);
    if r.end < r.reserved {
      CommitIsUseful(p, s, k);
      CommittedMoreKeeps(p, s, CommitSize(p, r, k));
      TakesFilled(p, MoreCommitted(p, s, k), k, a, pinned);
    }
  }

  lemma TakesFewer(s: Fifo, a: int, k: int, pinned: set<nat>, pinned': set<nat>)
    requires pinned' <= pinned && Takes(s, a, k, pinned)
    ensures Takes(s, a, k, pinned')
  {
    BarredFewer(s.slots, s.units[s.slots[a].unit].cur, a, k, pinned, pinned');
  }

  lemma {:induction false} BarredFewer(slots: Slots, cur: int, c: int, need: int, pinned: set<nat>, pinned': set<nat>)
    requires pinned' <= pinned
    ensures Barred(slots, cur, c, need, pinned') ==> Barred(slots, cur, c, need, pinned)
    decreases need
  {
    if GoesOn(slots, cur, c, need) { BarredFewer(slots, cur, c + slots[c].len, need - slots[c].len, pinned, pinned'); }
  }

  lemma {:induction false} NoTakerConcat(s: Fifo, l: seq<int>, m: seq<int>, k: int, pinned: set<nat>)
    ensures FirstTaker(s, l + m, k, pinned).None? <==>
      FirstTaker(s, l, k, pinned).None? && FirstTaker(s, m, k, pinned).None?
  {
    if l == [] {
      assert l + m == m;
    } else {
      assert (l + m)[1..] == l[1..] + m;
      NoTakerConcat(s, l[1..], m, k, pinned);
    }
  }

  lemma NoneTakes(p: Params, s: Fifo, k: int, pinned: set<nat>)
    requires FifoInv(p, s, NONE)
    ensures FirstTaker(s, s.q, k, pinned).None? <==>
      FirstTaker(s, Empties(s), k, pinned).None? && FirstTaker(s, ByAge(s), k, pinned).None?
    ensures FirstTaker(s, s.q, k, pinned).None? <==> forall a | a in s.slots :: !Takes(s, a, k, pinned)
  {
    assert s.q == Empties(s) + ByAge(s);
    NoTakerConcat(s, Empties(s), ByAge(s), k, pinned);
    NoTaker(s, s.q, k, pinned);
    if FirstTaker(s, s.q, k, pinned).None? {
      forall a | a in s.slots ensures !Takes(s, a, k, pinned) {
        assert Settled(s.slots, a);
      }
    }
  }

  /** A request fails exactly if the current unit cannot hold it, no other unit is allowed and, when
      all of the unit is committed and a trace has been given up, from every slot of the cache the
      unit is too short or a fragment that cannot be deleted is in the way. */
  lemma FailsExactlyIf(p: Params, s: Fifo, f: nat, k: int, w: World, n: nat)
    requires Ready(p, s, f, k, w) && w.aborted <= w.pinned
    ensures !Grown(p, s, f, k, w, n).placed <==>
      !HasMore(s, k, w) && forall a | a in Exhausted(p, s, k).slots :: !Takes(Exhausted(p, s, k), a, k, w.aborted)
  {
    if HasMore(s, k, w) {
      PlacedIfMore(p, s, f, k, w, n);
    } else {
      FailsWithout(p, s, f, k, w, n);
    }
  }

  lemma {:induction false} ForcedWithout(p: Params, s: Fifo, f: nat, k: int, w: World, n: nat, t: Fifo)
    requires Ready(p, s, f, k, w) && !HasMore(s, k, w) && t == MoreSpace(p, s, k, w)
    ensures Forced(p, s, f, k, w, n).placed <==>
      FirstTaker(s, ByAge(s), k, w.pinned).Some? || FirstTaker(t, t.q, k, w.aborted).Some?
  {
  }

  lemma {:induction false} AttemptsWithout(p: Params, s: Fifo, f: nat, k: int, w: World, n: nat, t: Fifo)
    requires Ready(p, s, f, k, w) && !HasMore(s, k, w) && t == Exhausted(p, s, k)
    ensures Grown(p, s, f, k, w, n).placed <==>
      var s' := if w.ratio(n) then t else s;
      || FirstTaker(s, Empties(s), k, w.pinned).Some? || FirstTaker(s', ByAge(s'), k, w.pinned).Some?
      || FirstTaker(t, t.q, k, w.aborted).Some?
  {
    AskedTwice(p, s, f, k, w);
    ForcedWithout(p, t, f, k, w, n, t);
    ForcedWithout(p, s, f, k, w, n, t);
  }

  lemma FailsWithout(p: Params, s: Fifo, f: nat, k: int, w: World, n: nat)
    requires Ready(p, s, f, k, w) && w.aborted <= w.pinned && !HasMore(s, k, w)
    ensures Grown(p, s, f, k, w, n).placed <==> exists a :: Takes(Exhausted(p, s, k), a, k, w.aborted)
  {
    var t := Exhausted(p, s, k);
    AttemptsWithout(p, s, f, k, w, n, t);
    ExhaustedKeeps(p, s, k);
    NoneTakes(p, t, k, w.aborted);
    forall a | Takes(t, a, k, w.pinned) ensures Takes(t, a, k, w.aborted) {
      TakesFewer(t, a, k, w.pinned, w.aborted);
    }
    forall a | Takes(s, a, k, w.pinned) ensures Takes(t, a, k, w.pinned) {
      TakesMore(p, s, k, a, w.pinned);
    }
  }

  // ----- the oldest fragment

  /** The fragment at which `replace_fifo` begins. */
  function Oldest(s: Fifo): Option<nat>
  {
    var l := ByAge(s);
    if l != [] && l[0] in s.slots && s.slots[l[0]].kind.Live? then Some(s.slots[l[0]].kind.f) else None
  }

  lemma {:induction false} EmptyCountSame(slots: Slots, slots': Slots, q: seq<int>)
    requires forall i | 0 <= i < |q| :: q[i] in slots && q[i] in slots' && slots'[q[i]].kind == slots[q[i]].kind
    ensures EmptyCount(slots', q) == EmptyCount(slots, q)
  {
    if q != [] { EmptyCountSame(slots, slots', q[1..]); }
  }

  /** Giving up the rest of the unit does not change who is the oldest. */
  lemma OldestAfterFill(p: Params, s: Fifo)
    requires FifoInv(p, s, NONE) && s.units[s.order[0]].cur < s.units[s.order[0]].end
    ensures Oldest(Filled(s)) == Oldest(s)
  {
    var t, r := Filled(s), s.units[s.order[0]];
    FilledShape(p, s);
    forall i | 0 <= i < |s.q| ensures s.q[i] in s.slots && s.q[i] in t.slots &&
      t.slots[s.q[i]].kind == s.slots[s.q[i]].kind {
      assert s.q[i] in s.q && Settled(s.slots, s.q[i]);
      assert FilledUp(s, t, s.order[0], s.q[i]);
    }
    EmptyCountSame(s.slots, t.slots, s.q);
    QueueAfterFill(p, s);
    if t.q != s.q {
      assert t.q[1..] == s.q;
      assert ByAge(t) == ByAge(s);
    }
  }

  lemma QueueAfterFill(p: Params, s: Fifo)
    requires FifoInv(p, s, NONE) && s.units[s.order[0]].cur < s.units[s.order[0]].end
    ensures var t, c := Filled(s), s.units[s.order[0]].cur;
      t.q == s.q || (t.q == [c] + s.q && c in t.slots && t.slots[c].kind.Free?)
  {
    if s.q != [] {
      assert Settled(s.slots, s.q[0]) by { assert s.q[0] in s.q; }
      NotBehindUnit(p, s, s.q[0]);
    }
  }

  lemma OldestAfterExhaust(p: Params, s: Fifo, k: int)
    requires GrowthParams(p) && FifoInv(p, s, NONE) && Growths(s, k) == 2
    ensures Oldest(Exhausted(p, s, k)) == Oldest(s)
  {
    var r := s.units[s.order[0]];
    assert UnitFits(p, s.order[0], s.order[0], r);
    if r.end < r.reserved {
      CommitIsUseful(p, s, k);
      CommittedMoreKeeps(p, s, CommitSize(p, r, k));
      OldestAfterFill(p, MoreCommitted(p, s, k));
    }
  }

  /** Asking for more space again, when there was none, changes nothing. */
  lemma AskedTwice(p: Params, s: Fifo, f: nat, k: int, w: World)
    requires Ready(p, s, f, k, w) && !HasMore(s, k, w)
    ensures var t := Exhausted(p, s, k);
      Ready(p, t, f, k, w) && !HasMore(t, k, w) && MoreSpace(p, t, k, w) == t
  {
    ExhaustedKeeps(p, s, k);
    FilledCur(p, s, k);
  }

  lemma FilledCur(p: Params, s: Fifo, k: int)
    requires GrowthParams(p) && FifoInv(p, s, NONE) && Growths(s, k) == 2 && MIN_SLOT <= k
    ensures var t := Exhausted(p, s, k); t.order != [] && t.order[0] in t.units && Growths(t, k) == 2
  {
    var r := s.units[s.order[0]];
    assert UnitFits(p, s.order[0], s.order[0], r);
    if r.end < r.reserved {
      CommitIsUseful(p, s, k);
      CommittedMoreKeeps(p, s, CommitSize(p, r, k));
      FilledKeeps(p, MoreCommitted(p, s, k));
      FilledUnits(p, MoreCommitted(p, s, k));
    }
  }
}
