/** Elementary steps of the allocator on the specification state. Each keeps the invariant;
    between the steps of one operation a single slot is in transit. */
module SlotSteps {
  import opened Layout
  import opened SlotModel
  import opened SlotLayout

  /** A fragment gives up its slot. */
  function Vacate(s: State, a: int): State
    requires a in s.slots && s.slots[a].kind.Live?
  {
    var f := s.slots[a].kind.f;
    s.(slots := SetKind(s.slots, a, Limbo), home := s.home - {f}, follows := s.follows - {f})
  }

  ghost predicate KindOk(s: State, x: int, cu: int, a: int)
    requires a in s.slots
  {
    Kinded(s.units, s.slots, s.foot, s.home, s.follows, x, cu, a)
  }

  lemma VacateMarked(s: State, a: int, cu: int)
    requires Marked(s, NONE, cu) && NONE !in s.slots && a in s.slots && s.slots[a].kind.Live?
    ensures Marked(Vacate(s, a), a, cu)
  {
    var s' := Vacate(s, a);
    assert KindOk(s, NONE, cu, a);
    forall c | c in s'.slots ensures KindOk(s', a, cu, c) {
      assert KindOk(s, NONE, cu, c);
    }
    assert Footers(s'.slots, s'.foot) by {
      forall e | e in s'.foot ensures FootOk(s'.slots, e, s'.foot[e]) {
        assert FootOk(s.slots, e, s.foot[e]);
      }
    }
  }

  lemma VacateKeeps(p: Params, s: State, a: int, cu: int)
    requires Inv(p, s, NONE, cu) && a in s.slots && s.slots[a].kind.Live?
    ensures Inv(p, Vacate(s, a), a, cu)
  {
    SetKindLaid(p, s.units, s.slots, cu, a, Limbo);
    VacateMarked(s, a, cu);
    ListedSame(s.slots, Vacate(s, a).slots, s.lists);
  }

  /** A free entry leaves its list to be reused. */
  function Seize(s: State, a: int): State
    requires FreeLen(s.slots, a) >= 0 && |s.lists| == BUCKET_COUNT
  {
    var len := s.slots[a].len;
    s.(slots := SetKind(s.slots, a, Limbo), foot := s.foot - {a + len}, lists := Delist(s.lists, len, a))
  }

  lemma SeizeMarked(s: State, slots': Slots, foot': map<int, int>, a: int, cu: int)
    requires Marked(s, NONE, cu) && NONE !in s.slots && FreeLen(s.slots, a) >= 0
    requires slots' == SetKind(s.slots, a, Limbo) && foot' == s.foot - {a + s.slots[a].len}
    ensures Marked(s.(slots := slots', foot := foot'), a, cu)
  {
    var s' := s.(slots := slots', foot := foot');
    assert KindOk(s, NONE, cu, a);
    forall c | c in s'.slots ensures KindOk(s', a, cu, c) {
      assert KindOk(s, NONE, cu, c);
    }
    assert Footers(s'.slots, s'.foot) by {
      forall e | e in s'.foot ensures FootOk(s'.slots, e, s'.foot[e]) {
        assert FootOk(s.slots, e, s.foot[e]);
      }
    }
  }

  lemma SeizeKeeps(p: Params, s: State, a: int, cu: int)
    requires Inv(p, s, NONE, cu) && FreeLen(s.slots, a) >= 0
    ensures a in s.lists[Bucket(s.slots[a].len)]
    ensures Inv(p, Seize(s, a), a, cu)
  {
    var slots' := SetKind(s.slots, a, Limbo);
    SetKindLaid(p, s.units, s.slots, cu, a, Limbo);
    SeizeMarked(s, slots', s.foot - {a + s.slots[a].len}, a, cu);
    DelistKeeps(s.slots, slots', s.lists, a);
  }

  /** The slot in transit absorbs the free entry behind it. */
  function JoinNext(s: State, x: int): State
    requires x in s.slots && FreeLen(s.slots, x + s.slots[x].len) >= 0 && |s.lists| == BUCKET_COUNT
  {
    var n := x + s.slots[x].len;
    var len := s.slots[n].len;
    s.(slots := Merge(s.slots, x), foot := s.foot - {n + len}, lists := Delist(s.lists, len, n))
  }

  lemma JoinNextMarked(s: State, slots': Slots, foot': map<int, int>, x: int, cu: int)
    requires Marked(s, x, cu) && Disjoint(s.slots) && x in s.slots && s.slots[x].kind.Limbo?
    requires x + s.slots[x].len in s.slots && s.slots[x + s.slots[x].len].kind.Free?
    requires slots' == Merge(s.slots, x)
    requires foot' == s.foot - {x + s.slots[x].len + s.slots[x + s.slots[x].len].len}
    ensures Marked(s.(slots := slots', foot := foot'), x, cu)
  {
    var s' := s.(slots := slots', foot := foot');
    var n := x + s.slots[x].len;
    assert KindOk(s, x, cu, n);
    forall c | c in s'.slots ensures KindOk(s', x, cu, c) {
      assert KindOk(s, x, cu, c);
    }
    assert Footers(s'.slots, s'.foot) by {
      forall e | e in s'.foot ensures FootOk(s'.slots, e, s'.foot[e]) {
        assert FootOk(s.slots, e, s.foot[e]);
      }
    }
  }

  lemma JoinNextKeeps(p: Params, s: State, x: int, cu: int)
    requires Inv(p, s, x, cu) && x in s.slots && FreeLen(s.slots, x + s.slots[x].len) >= 0
    ensures Inv(p, JoinNext(s, x), x, cu)
  {
    var n := x + s.slots[x].len;
    var slots' := Merge(s.slots, x);
    assert Placed(p, s.units, s.slots, cu, x) && Placed(p, s.units, s.slots, cu, n) && KindOk(s, x, cu, x);
    MergeLaid(p, s.units, s.slots, cu, x);
    JoinNextMarked(s, slots', s.foot - {n + s.slots[n].len}, x, cu);
    DelistKeeps(s.slots, slots', s.lists, n);
  }

  /** The free entry in front of the slot in transit absorbs it. */
  function JoinPrev(s: State, x: int): State
    requires x in s.slots && x in s.foot && FreeLen(s.slots, x - s.foot[x]) == s.foot[x] >= 0
    requires |s.lists| == BUCKET_COUNT
  {
    var q := x - s.foot[x];
    s.(slots := Merge(s.slots, q), foot := s.foot - {x}, lists := Delist(s.lists, s.foot[x], q))
  }

  lemma JoinPrevMarked(s: State, slots': Slots, foot': map<int, int>, x: int, cu: int)
    requires Marked(s, x, cu) && Disjoint(s.slots) && x in s.slots && s.slots[x].kind.Limbo? && x in s.foot
    requires FreeLen(s.slots, x - s.foot[x]) == s.foot[x] && 0 < s.foot[x] && 0 < s.slots[x].len && NONE !in s.slots
    requires slots' == Merge(s.slots, x - s.foot[x]) && foot' == s.foot - {x}
    ensures Marked(s.(slots := slots', foot := foot'), x - s.foot[x], cu)
  {
    var s' := s.(slots := slots', foot := foot');
    var q := x - s.foot[x];
    assert KindOk(s, x, cu, q);
    forall c | c in s'.slots ensures KindOk(s', q, cu, c) {
      assert KindOk(s, x, cu, c);
    }
    assert Footers(s'.slots, s'.foot) by {
      forall e | e in s'.foot ensures FootOk(s'.slots, e, s'.foot[e]) {
        assert FootOk(s.slots, e, s.foot[e]);
      }
    }
  }

  lemma JoinPrevKeeps(p: Params, s: State, x: int, cu: int)
    requires Inv(p, s, x, cu) && x in s.slots && x in s.foot
    ensures FreeLen(s.slots, x - s.foot[x]) == s.foot[x] >= 0
    ensures s.slots[x - s.foot[x]].unit == s.slots[x].unit
    ensures Inv(p, JoinPrev(s, x), x - s.foot[x], cu)
  {
    assert FootOk(s.slots, x, s.foot[x]);
    var q := x - s.foot[x];
    var slots' := Merge(s.slots, q);
    assert Placed(p, s.units, s.slots, cu, x) && Placed(p, s.units, s.slots, cu, q) && KindOk(s, x, cu, x);
    assert s.slots[q].unit == s.slots[x].unit by {
      AppendPointFree(p, s.units, s.slots, cu, s.slots[q].unit);
    }
    MergeLaid(p, s.units, s.slots, cu, q);
    JoinPrevMarked(s, slots', s.foot - {x}, x, cu);
    DelistKeeps(s.slots, slots', s.lists, q);
  }

  /** The fragment behind the slot in transit, if there is one. */
  function Behind(s: State, x: int): set<nat>
    requires x in s.slots
  {
    var n := x + s.slots[x].len;
    if n in s.slots && s.slots[n].kind.Live? then {s.slots[n].kind.f} else {}
  }

  function Mark(s: State, x: int): State
    requires x in s.slots
  {
    s.(follows := s.follows + Behind(s, x))
  }

  function Unmark(s: State, x: int): State
    requires x in s.slots
  {
    s.(follows := s.follows - Behind(s, x))
  }

  lemma MarkKeeps(p: Params, s: State, x: int, cu: int)
    requires Inv(p, s, x, cu) && x in s.slots
    ensures Inv(p, Mark(s, x), x, cu) && Inv(p, Unmark(s, x), x, cu)
  {
    var n := x + s.slots[x].len;
    if n in s.slots && s.slots[n].kind.Live? {
      assert KindOk(s, x, cu, n);
      forall c | c in s.slots ensures KindOk(Mark(s, x), x, cu, c) && KindOk(Unmark(s, x), x, cu, c) {
        assert KindOk(s, x, cu, c);
      }
    } else {
      assert Mark(s, x) == s == Unmark(s, x);
    }
  }

  /** The slot in transit becomes a free entry at the head of its list. */
  function Publish(s: State, x: int): State
    requires x in s.slots && s.slots[x].len >= 0 && |s.lists| == BUCKET_COUNT
  {
    var len := s.slots[x].len;
    s.(slots := SetKind(s.slots, x, Free), foot := s.foot[x + len := len], lists := Enlist(s.lists, len, x))
  }

  /** The slot in transit is not preceded by a free entry, and what follows it is marked. */
  ghost predicate Ready(s: State, x: int)
    requires x in s.slots
  {
    && x !in s.foot
    && (x + s.slots[x].len in s.slots ==> !s.slots[x + s.slots[x].len].kind.Free?)
    && Behind(s, x) <= s.follows
  }

  lemma PublishMarked(s: State, slots': Slots, foot': map<int, int>, x: int, cu: int)
    requires Marked(s, x, cu) && x in s.slots && s.slots[x].kind.Limbo? && Ready(s, x) && NONE !in s.slots
    requires s.slots[x].unit == cu && cu in s.units ==> x + s.slots[x].len != s.units[cu].cur
    requires Disjoint(s.slots) && forall c | c in s.slots :: 0 < s.slots[c].len
    requires slots' == SetKind(s.slots, x, Free) && foot' == s.foot[x + s.slots[x].len := s.slots[x].len]
    ensures Marked(s.(slots := slots', foot := foot'), NONE, cu)
  {
    var s' := s.(slots := slots', foot := foot');
    forall c | c in s'.slots ensures KindOk(s', NONE, cu, c) {
      assert KindOk(s, x, cu, c);
    }
    assert Footers(s'.slots, s'.foot) by {
      forall e | e in s'.foot ensures FootOk(s'.slots, e, s'.foot[e]) {
        if e != x + s.slots[x].len { assert FootOk(s.slots, e, s.foot[e]); }
      }
    }
  }

  lemma PublishKeeps(p: Params, s: State, x: int, cu: int)
    requires Inv(p, s, x, cu) && x in s.slots && MIN_SLOT <= s.slots[x].len && Ready(s, x)
    requires s.slots[x].unit == cu && cu in s.units ==> x + s.slots[x].len != s.units[cu].cur
    ensures Inv(p, Publish(s, x), NONE, cu)
  {
    var len := s.slots[x].len;
    var slots' := SetKind(s.slots, x, Free);
    assert KindOk(s, x, cu, x);
    SetKindLaid(p, s.units, s.slots, cu, x, Free);
    forall c | c in s.slots ensures 0 < s.slots[c].len { assert Placed(p, s.units, s.slots, cu, c); }
    PublishMarked(s, slots', s.foot[x + len := len], x, cu);
    EnlistKeeps(s.slots, slots', s.lists, x, len);
  }

  /** The slot in transit, last in the current unit, goes back to the unclaimed space. */
  function Retract(s: State, x: int): State
    requires x in s.slots && s.slots[x].unit in s.units
  {
    s.(units := Retreat(s.units, s.slots[x].unit, x), slots := s.slots - {x})
  }

  lemma RetractMarked(p: Params, s: State, x: int, cu: int)
    requires Laid(p, s.units, s.slots, cu) && Marked(s, x, cu) && x in s.slots && x !in s.foot
    requires s.slots[x].unit == cu && cu in s.units && x + s.slots[x].len == s.units[cu].cur
    ensures Marked(Retract(s, x), NONE, cu)
  {
    var s' := Retract(s, x);
    AppendPointFree(p, s.units, s.slots, cu, cu);
    assert KindOk(s, x, cu, x) && Placed(p, s.units, s.slots, cu, x);
    forall c | c in s'.slots ensures KindOk(s', NONE, cu, c) {
      assert KindOk(s, x, cu, c);
    }
    assert Footers(s'.slots, s'.foot) by {
      forall e | e in s'.foot ensures FootOk(s'.slots, e, s'.foot[e]) {
        assert FootOk(s.slots, e, s.foot[e]);
      }
    }
  }

  lemma RetractKeeps(p: Params, s: State, x: int, cu: int)
    requires Inv(p, s, x, cu) && x in s.slots && x !in s.foot
    requires s.slots[x].unit == cu && cu in s.units && x + s.slots[x].len == s.units[cu].cur
    ensures Inv(p, Retract(s, x), NONE, cu)
  {
    DropLastLaid(p, s.units, s.slots, cu, x);
    RetractMarked(p, s, x, cu);
    assert KindOk(s, x, cu, x);
    ListedSame(s.slots, Retract(s, x).slots, s.lists);
  }

  /** Fragment `f` takes the slot in transit. */
  function Occupy(s: State, x: int, f: nat): State
    requires x in s.slots
  {
    s.(slots := SetKind(s.slots, x, Live(f)), home := s.home[f := x])
  }

  lemma OccupyMarked(s: State, x: int, f: nat, cu: int)
    requires Marked(s, x, cu) && x in s.slots && s.slots[x].kind.Limbo? && NONE !in s.slots && f !in s.home
    requires x !in s.foot && x + s.slots[x].len !in s.foot && Behind(s, x) !! s.follows
    ensures Marked(Occupy(s, x, f), NONE, cu)
  {
    var s' := Occupy(s, x, f);
    forall c | c in s'.slots ensures KindOk(s', NONE, cu, c) {
      assert KindOk(s, x, cu, c);
    }
    assert Footers(s'.slots, s'.foot) by {
      forall e | e in s'.foot ensures FootOk(s'.slots, e, s'.foot[e]) {
        assert FootOk(s.slots, e, s.foot[e]);
      }
    }
  }

  lemma OccupyKeeps(p: Params, s: State, x: int, f: nat, cu: int)
    requires Inv(p, s, x, cu) && x in s.slots && MIN_SLOT <= s.slots[x].len && f !in s.home
    requires x !in s.foot && x + s.slots[x].len !in s.foot && Behind(s, x) !! s.follows
    ensures Inv(p, Occupy(s, x, f), NONE, cu)
  {
    assert KindOk(s, x, cu, x);
    SetKindLaid(p, s.units, s.slots, cu, x, Live(f));
    OccupyMarked(s, x, f, cu);
    ListedSame(s.slots, Occupy(s, x, f).slots, s.lists);
  }

  /** Fragment `f` takes the first `k` bytes of the slot in transit. */
  function OccupyPart(s: State, x: int, k: int, f: nat): State
    requires x in s.slots
  {
    s.(slots := Split(s.slots, x, k, Live(f)), home := s.home[f := x])
  }

  lemma OccupyPartMarked(s: State, x: int, k: int, f: nat, cu: int)
    requires Marked(s, x, cu) && x in s.slots && s.slots[x].kind.Limbo? && NONE !in s.slots && f !in s.home
    requires 0 < k < s.slots[x].len && x + k !in s.slots && Disjoint(s.slots)
    requires forall c | c in s.slots :: 0 < s.slots[c].len
    requires x !in s.foot
    ensures Marked(OccupyPart(s, x, k, f), x + k, cu)
  {
    var s' := OccupyPart(s, x, k, f);
    forall c | c in s'.slots ensures KindOk(s', x + k, cu, c) {
      if c != x + k { assert KindOk(s, x, cu, c); }
    }
    assert Footers(s'.slots, s'.foot) by {
      forall e | e in s'.foot ensures FootOk(s'.slots, e, s'.foot[e]) {
        assert FootOk(s.slots, e, s.foot[e]);
      }
    }
  }

  lemma OccupyPartKeeps(p: Params, s: State, x: int, k: int, f: nat, cu: int)
    requires Inv(p, s, x, cu) && x in s.slots && MIN_SLOT <= k < s.slots[x].len && Multiple(p.align, k) && f !in s.home
    requires x !in s.foot
    requires s.slots[x].unit == cu && cu in s.units ==> x + s.slots[x].len != s.units[cu].end
    ensures Inv(p, OccupyPart(s, x, k, f), x + k, cu)
    ensures x + k !in s.slots && x + k !in s.foot
  {
    assert KindOk(s, x, cu, x);
    SplitLaid(p, s.units, s.slots, cu, x, k, Live(f));
    forall c | c in s.slots ensures 0 < s.slots[c].len { assert Placed(p, s.units, s.slots, cu, c); }
    forall e | e in s.foot ensures e != x + k { assert FootOk(s.slots, e, s.foot[e]); }
    OccupyPartMarked(s, x, k, f, cu);
    ListedSame(s.slots, OccupyPart(s, x, k, f).slots, s.lists);
  }

  /** Fragment `f` is appended to the current unit. */
  function Append(s: State, u: int, len: int, f: nat): State
    requires u in s.units
  {
    s.(units := Extend(s.units, u, len), slots := Push(s.units, s.slots, u, len, Live(f)),
      home := s.home[f := s.units[u].cur])
  }

  /** No free entry ends at the append point, */
  lemma AppendPointUnmarked(p: Params, s: State, x: int, cu: int)
    requires Laid(p, s.units, s.slots, cu) && Marked(s, x, cu) && cu in s.units
    ensures s.units[cu].cur !in s.foot
  {
    var e := s.units[cu].cur;
    AppendPointFree(p, s.units, s.slots, cu, cu);
    forall c | c in s.slots && s.slots[c].kind.Free? ensures c + s.slots[c].len != e {
      assert KindOk(s, x, cu, c);
    }
    forall d | d in s.foot ensures d != e {
      assert FootOk(s.slots, d, s.foot[d]);
    }
  }

  /** so an appended fragment never needs the mark. */
  lemma AppendMarked(p: Params, s: State, cu: int, len: int, f: nat)
    requires Laid(p, s.units, s.slots, cu) && Marked(s, NONE, cu) && cu in s.units && 0 < len && f !in s.home
    ensures Marked(Append(s, cu, len, f), NONE, cu)
  {
    var s' := Append(s, cu, len, f);
    AppendPointUnmarked(p, s, NONE, cu);
    AppendPointFree(p, s.units, s.slots, cu, cu);
    forall c | c in s'.slots ensures KindOk(s', NONE, cu, c) {
      if c in s.slots { assert KindOk(s, NONE, cu, c); }
    }
    assert Footers(s'.slots, s'.foot) by {
      forall e | e in s'.foot ensures FootOk(s'.slots, e, s'.foot[e]) {
        assert FootOk(s.slots, e, s.foot[e]);
      }
    }
  }

  /** The append point is on the grid, because it is a unit start or a slot end. */
  lemma AppendPointOnGrid(p: Params, units: Units, slots: Slots, cu: int, a: int)
    requires Laid(p, units, slots, cu) && a in slots && slots[a].unit in units
    ensures Multiple(p.align, units[slots[a].unit].cur)
    decreases units[slots[a].unit].cur - a
  {
    assert Placed(p, units, slots, cu, a);
    MultipleSum(p.align, a, slots[a].len);
    if a + slots[a].len != units[slots[a].unit].cur {
      AppendPointOnGrid(p, units, slots, cu, a + slots[a].len);
    }
  }

  lemma CurOnGrid(p: Params, units: Units, slots: Slots, cu: int, u: int)
    requires Laid(p, units, slots, cu) && u in units
    ensures Multiple(p.align, units[u].cur)
  {
    assert UnitOk(p, u, units[u]);
    if units[u].cur != u {
      AppendPointOnGrid(p, units, slots, cu, u);
    }
  }

  lemma AppendKeeps(p: Params, s: State, cu: int, len: int, f: nat)
    requires Inv(p, s, NONE, cu) && cu in s.units && f !in s.home
    requires MIN_SLOT <= len && Multiple(p.align, len)
    requires len == s.units[cu].end - s.units[cu].cur || len <= s.units[cu].end - s.units[cu].cur - EndHole(p)
    ensures Inv(p, Append(s, cu, len, f), NONE, cu)
  {
    CurOnGrid(p, s.units, s.slots, cu, cu);
    AppendPointFree(p, s.units, s.slots, cu, cu);
    PushLaid(p, s.units, s.slots, cu, len, Live(f));
    AppendMarked(p, s, cu, len, f);
    ListedSame(s.slots, Append(s, cu, len, f).slots, s.lists);
  }

  /** The room left in the current unit becomes a slot in transit and the unit is closed. */
  function Fill(s: State, u: int): State
    requires u in s.units
  {
    var len := s.units[u].end - s.units[u].cur;
    s.(units := Extend(s.units, u, len), slots := Push(s.units, s.slots, u, len, Limbo))
  }

  lemma FillMarked(p: Params, s: State, cu: int)
    requires Laid(p, s.units, s.slots, cu) && Marked(s, NONE, cu) && cu in s.units && s.units[cu].cur < s.units[cu].end
    ensures Marked(Fill(s, cu), s.units[cu].cur, NONE)
  {
    var s' := Fill(s, cu);
    var a := s.units[cu].cur;
    AppendPointFree(p, s.units, s.slots, cu, cu);
    forall c | c in s'.slots ensures KindOk(s', a, NONE, c) {
      if c in s.slots { assert KindOk(s, NONE, cu, c); }
    }
    assert Footers(s'.slots, s'.foot) by {
      forall e | e in s'.foot ensures FootOk(s'.slots, e, s'.foot[e]) {
        assert FootOk(s.slots, e, s.foot[e]);
      }
    }
  }

  lemma FillKeeps(p: Params, s: State, cu: int)
    requires Inv(p, s, NONE, cu) && cu in s.units && s.units[cu].cur < s.units[cu].end && Multiple(p.align, PAGE)
    ensures Inv(p, Fill(s, cu), s.units[cu].cur, NONE)
    ensures Ready(Fill(s, cu), s.units[cu].cur)
    ensures s.units[cu].cur !in s.slots && s.units[cu].end - s.units[cu].cur >= EndHole(p)
  {
    FillLaid(p, s, cu);
    FillMarked(p, s, cu);
    FillReady(p, s, cu);
    ListedSame(s.slots, Fill(s, cu).slots, s.lists);
  }

  lemma FillLaid(p: Params, s: State, cu: int)
    requires Laid(p, s.units, s.slots, cu) && cu in s.units && s.units[cu].cur < s.units[cu].end
    requires Multiple(p.align, PAGE)
    ensures Laid(p, Fill(s, cu).units, Fill(s, cu).slots, NONE)
    ensures s.units[cu].cur !in s.slots && s.units[cu].end - s.units[cu].cur >= EndHole(p)
  {
    var r := s.units[cu];
    assert UnitOk(p, cu, r) && Gap(p, true, r);
    CurOnGrid(p, s.units, s.slots, cu, cu);
    MultipleOfPage(p, r.end - cu);
    MultipleSum(p.align, r.end - cu, cu);
    MultipleSum(p.align, r.end, r.cur);
    AppendPointFree(p, s.units, s.slots, cu, cu);
    PushLaid(p, s.units, s.slots, cu, r.end - r.cur, Limbo);
    CloseLaid(p, Fill(s, cu).units, Fill(s, cu).slots, cu);
  }

  lemma FillReady(p: Params, s: State, cu: int)
    requires Inv(p, s, NONE, cu) && cu in s.units && s.units[cu].cur < s.units[cu].end
    ensures Ready(Fill(s, cu), s.units[cu].cur)
  {
    AppendPointUnmarked(p, s, NONE, cu);
    NothingAtEnd(p, s, cu);
  }

  lemma NothingAtEnd(p: Params, s: State, cu: int)
    requires Laid(p, s.units, s.slots, cu) && cu in s.units
    ensures s.units[cu].end !in s.slots
  {
    forall c | c in s.slots ensures c != s.units[cu].end {
      assert Placed(p, s.units, s.slots, cu, c);
    }
  }

  /** A fragment keeps the first `k` bytes of its slot; the rest is in transit. */
  function Shed(s: State, a: int, k: int): State
    requires a in s.slots
  {
    s.(slots := Split(s.slots, a, k, s.slots[a].kind))
  }

  lemma ShedMarked(s: State, a: int, k: int, cu: int)
    requires Marked(s, NONE, cu) && a in s.slots && s.slots[a].kind.Live? && NONE !in s.slots
    requires 0 < k < s.slots[a].len && a + k !in s.slots && Disjoint(s.slots)
    requires forall c | c in s.slots :: 0 < s.slots[c].len
    ensures Marked(Shed(s, a, k), a + k, cu)
  {
    var s' := Shed(s, a, k);
    forall c | c in s'.slots ensures KindOk(s', a + k, cu, c) {
      if c != a + k { assert KindOk(s, NONE, cu, c); }
    }
    assert Footers(s'.slots, s'.foot) by {
      forall e | e in s'.foot ensures FootOk(s'.slots, e, s'.foot[e]) {
        assert FootOk(s.slots, e, s.foot[e]);
      }
    }
  }

  lemma ShedKeeps(p: Params, s: State, a: int, k: int, cu: int)
    requires Inv(p, s, NONE, cu) && a in s.slots && s.slots[a].kind.Live?
    requires MIN_SLOT <= k < s.slots[a].len && Multiple(p.align, k)
    requires s.slots[a].unit == cu && cu in s.units ==> a + s.slots[a].len != s.units[cu].end
    ensures Inv(p, Shed(s, a, k), a + k, cu)
    ensures a + k !in s.foot && a + k !in s.slots
  {
    SplitLaid(p, s.units, s.slots, cu, a, k, s.slots[a].kind);
    forall c | c in s.slots ensures 0 < s.slots[c].len { assert Placed(p, s.units, s.slots, cu, c); }
    forall e | e in s.foot ensures e != a + k { assert FootOk(s.slots, e, s.foot[e]); }
    ShedMarked(s, a, k, cu);
    ListedSame(s.slots, Shed(s, a, k).slots, s.lists);
  }

  /** The last fragment of the current unit keeps `k` bytes; the append point moves back. */
  function ShrinkLast(s: State, a: int, k: int): State
    requires a in s.slots && s.slots[a].unit in s.units
  {
    s.(units := Retreat(s.units, s.slots[a].unit, a + k), slots := Trim(s.slots, a, k))
  }

  lemma ShrinkLastMarked(s: State, a: int, k: int, cu: int)
    requires Marked(s, NONE, cu) && a in s.slots && s.slots[a].kind.Live? && NONE !in s.slots
    requires s.slots[a].unit == cu && cu in s.units && a + s.slots[a].len == s.units[cu].cur
    requires 0 < k < s.slots[a].len && Disjoint(s.slots)
    requires forall c | c in s.slots :: 0 < s.slots[c].len
    ensures Marked(ShrinkLast(s, a, k), NONE, cu)
  {
    var s' := ShrinkLast(s, a, k);
    forall c | c in s'.slots ensures KindOk(s', NONE, cu, c) {
      assert KindOk(s, NONE, cu, c);
    }
    assert Footers(s'.slots, s'.foot) by {
      forall e | e in s'.foot ensures FootOk(s'.slots, e, s'.foot[e]) {
        assert FootOk(s.slots, e, s.foot[e]);
      }
    }
  }

  lemma ShrinkLastKeeps(p: Params, s: State, a: int, k: int, cu: int)
    requires Inv(p, s, NONE, cu) && a in s.slots && s.slots[a].kind.Live?
    requires s.slots[a].unit == cu && cu in s.units && a + s.slots[a].len == s.units[cu].cur
    requires MIN_SLOT <= k < s.slots[a].len && Multiple(p.align, k)
    requires s.units[cu].cur == s.units[cu].end ==> s.slots[a].len - k >= EndHole(p)
    ensures Inv(p, ShrinkLast(s, a, k), NONE, cu)
  {
    TrimLaid(p, s.units, s.slots, cu, a, k);
    forall c | c in s.slots ensures 0 < s.slots[c].len { assert Placed(p, s.units, s.slots, cu, c); }
    ShrinkLastMarked(s, a, k, cu);
    ListedSame(s.slots, ShrinkLast(s, a, k).slots, s.lists);
  }

  // ----- units

  /** `cache_extend_commitment` */
  function Commit(s: State, u: int, size: int): State
    requires u in s.units
  {
    s.(units := s.units[u := s.units[u].(end := s.units[u].end + size, full := false)])
  }

  lemma CommitUnits(p: Params, units: Units, cu: int, size: int)
    requires UnitsOk(p, units, cu) && cu in units
    requires 0 < size <= units[cu].reserved - units[cu].end && size % PAGE == 0
    ensures UnitsOk(p, units[cu := units[cu].(end := units[cu].end + size, full := false)], cu)
  {
    assert UnitOk(p, cu, units[cu]) && Gap(p, true, units[cu]);
    WholePages(units[cu].end - cu, size);
    assert units[cu].end + size - cu == units[cu].end - cu + size;
  }

  lemma CommitKeeps(p: Params, s: State, cu: int, size: int)
    requires Inv(p, s, NONE, cu) && cu in s.units
    requires 0 < size <= s.units[cu].reserved - s.units[cu].end && size % PAGE == 0
    ensures Inv(p, Commit(s, cu, size), NONE, cu)
  {
    var s' := Commit(s, cu, size);
    CommitUnits(p, s.units, cu, size);
    assert UnitOk(p, cu, s.units[cu]);
    assert Tiled(p, s'.units, s'.slots, cu) by {
      forall c | c in s'.slots ensures Placed(p, s'.units, s'.slots, cu, c) {
        assert Placed(p, s.units, s.slots, cu, c);
      }
    }
    forall c | c in s'.slots ensures KindOk(s', NONE, cu, c) {
      assert KindOk(s, NONE, cu, c);
    }
  }

  /** Memory for a unit: from the operating system or from the list of dead units. */
  datatype Region = Region(base: int, committed: int, reserved: int)

  ghost predicate RegionOk(p: Params, units: Units, g: Region)
  {
    && 0 < g.base && Multiple(p.align, g.base)
    && 0 < g.committed <= g.reserved <= MAX_ENTRY && p.maxUnit <= g.reserved && g.committed % PAGE == 0
    && g.reserved % PAGE == 0
    && forall u | u in units :: units[u].reserved < g.base || g.base + g.reserved < u
  }

  /** `fcache_create_unit`, and the new unit becomes the current one. */
  function Open(s: State, g: Region): State
  {
    s.(units := s.units[g.base := Unit(g.base, g.base + g.committed, g.base + g.reserved, false)],
      order := [g.base] + s.order)
  }

  lemma OpenLaid(p: Params, s: State, g: Region)
    requires Laid(p, s.units, s.slots, NONE) && RegionOk(p, s.units, g)
    ensures Laid(p, Open(s, g).units, s.slots, g.base)
  {
    var s' := Open(s, g);
    assert UnitsOk(p, s'.units, g.base) by {
      forall u | u in s.units ensures 0 < u <= s.units[u].reserved { assert UnitOk(p, u, s.units[u]); }
    }
    assert Tiled(p, s'.units, s'.slots, g.base) by {
      forall c | c in s'.slots ensures Placed(p, s'.units, s'.slots, g.base, c) {
        assert Placed(p, s.units, s.slots, NONE, c);
      }
    }
  }

  lemma OpenOrdered(p: Params, units: Units, order: seq<int>, flush: seq<int>, b: int, r: Unit)
    requires Ordered(units, order, flush) && b !in units
    ensures Ordered(units[b := r], [b] + order, flush)
  {
  }

  lemma OpenKeeps(p: Params, s: State, g: Region)
    requires Inv(p, s, NONE, NONE) && RegionOk(p, s.units, g)
    ensures g.base !in s.units
    ensures Inv(p, Open(s, g), NONE, g.base)
  {
    var s' := Open(s, g);
    forall u | u in s.units ensures u != g.base { assert UnitOk(p, u, s.units[u]); }
    OpenLaid(p, s, g);
    forall c | c in s'.slots ensures KindOk(s', NONE, g.base, c) {
      assert KindOk(s, NONE, NONE, c);
      assert Placed(p, s.units, s.slots, NONE, c);
    }
    OpenOrdered(p, s.units, s.order, s.flush, g.base, s'.units[g.base]);
  }

  /** The oldest unit of the cache moves to the list of units to flush. */
  function Retire(s: State): State
    requires s.order != []
  {
    var k := |s.order| - 1;
    s.(order := s.order[..k], flush := [s.order[k]] + s.flush)
  }

  lemma RetireOrdered(units: Units, order: seq<int>, flush: seq<int>)
    requires Ordered(units, order, flush) && order != []
    ensures Ordered(units, order[..|order| - 1], [order[|order| - 1]] + flush)
  {
    var k := |order| - 1;
    assert order == order[..k] + [order[k]];
    forall u | u in order[..k] ensures u != order[k] && u in order {
    }
    assert order[k] in order;
  }

  lemma RetireKeeps(p: Params, s: State)
    requires Inv(p, s, NONE, NONE) && s.order != []
    ensures Inv(p, Retire(s), NONE, NONE)
  {
    RetireOrdered(s.units, s.order, s.flush);
  }
}
