/** Elementary changes of the slot map and why each keeps the tiling. */
module SlotLayout {
  import opened Layout
  import opened SlotModel

  function SetKind(slots: Slots, a: int, k: Kind): Slots
    requires a in slots
  {
    slots[a := slots[a].(kind := k)]
  }

  lemma SetKindLaid(p: Params, units: Units, slots: Slots, cu: int, a: int, k: Kind)
    requires Laid(p, units, slots, cu) && a in slots
    requires k.Limbo? || MIN_SLOT <= slots[a].len
    ensures Laid(p, units, SetKind(slots, a, k), cu)
  {
    var slots' := SetKind(slots, a, k);
    forall c | c in slots' ensures Placed(p, units, slots', cu, c) {
      assert Placed(p, units, slots, cu, c);
    }
  }

  /** The slot at `a` absorbs the one behind it. */
  function Merge(slots: Slots, a: int): Slots
    requires a in slots && a + slots[a].len in slots
  {
    var b := a + slots[a].len;
    (slots - {b})[a := Slot(slots[a].unit, slots[a].len + slots[b].len, Limbo)]
  }

  lemma MergePlaced(p: Params, units: Units, slots: Slots, cu: int, a: int, c: int)
    requires Tiled(p, units, slots, cu) && Disjoint(slots) && a in slots && a + slots[a].len in slots
    requires slots[a + slots[a].len].unit == slots[a].unit
    requires c in Merge(slots, a)
    ensures Placed(p, units, Merge(slots, a), cu, c)
  {
    assert Placed(p, units, slots, cu, a) && Placed(p, units, slots, cu, a + slots[a].len);
    assert Placed(p, units, slots, cu, c);
  }

  lemma MergeLaid(p: Params, units: Units, slots: Slots, cu: int, a: int)
    requires Laid(p, units, slots, cu) && a in slots && a + slots[a].len in slots
    requires slots[a + slots[a].len].unit == slots[a].unit
    ensures Laid(p, units, Merge(slots, a), cu)
  {
    var b := a + slots[a].len;
    var slots' := Merge(slots, a);
    assert Placed(p, units, slots, cu, a) && Placed(p, units, slots, cu, b);
    assert Tiled(p, units, slots', cu) by {
      forall c | c in slots' ensures Placed(p, units, slots', cu, c) {
        MergePlaced(p, units, slots, cu, a, c);
      }
    }
    MultipleSum(p.align, slots[a].len, slots[b].len);
  }

  /** The slot at `a` keeps its first `k` bytes, for `kind`; the rest is set free. */
  function Split(slots: Slots, a: int, k: int, kind: Kind): Slots
    requires a in slots
  {
    var t := slots[a];
    slots[a := Slot(t.unit, k, kind)][a + k := Slot(t.unit, t.len - k, Limbo)]
  }

  lemma SplitPlaced(p: Params, units: Units, slots: Slots, cu: int, a: int, k: int, kind: Kind, c: int)
    requires UnitsOk(p, units, cu) && Tiled(p, units, slots, cu) && Disjoint(slots) && a in slots
    requires 0 < k < slots[a].len && (kind.Limbo? || MIN_SLOT <= k)
    requires slots[a].unit == cu && cu in units ==> a + slots[a].len != units[cu].end
    requires c in Split(slots, a, k, kind)
    ensures Placed(p, units, Split(slots, a, k, kind), cu, c)
  {
    assert Placed(p, units, slots, cu, a);
    if c != a + k { assert Placed(p, units, slots, cu, c); }
  }

  lemma SplitLaid(p: Params, units: Units, slots: Slots, cu: int, a: int, k: int, kind: Kind)
    requires Laid(p, units, slots, cu) && a in slots
    requires 0 < k < slots[a].len && Multiple(p.align, k) && (kind.Limbo? || MIN_SLOT <= k)
    requires slots[a].unit == cu && cu in units ==> a + slots[a].len != units[cu].end
    ensures a + k !in slots
    ensures Laid(p, units, Split(slots, a, k, kind), cu)
  {
    var slots' := Split(slots, a, k, kind);
    assert Placed(p, units, slots, cu, a);
    assert Tiled(p, units, slots', cu) by {
      forall c | c in slots' ensures Placed(p, units, slots', cu, c) {
        SplitPlaced(p, units, slots, cu, a, k, kind, c);
      }
    }
    MultipleSum(p.align, a, k);
    MultipleSum(p.align, slots[a].len, k);
  }

  /** Two units share no address, so an append point is inside no slot and ends no slot of
      another unit. */
  lemma AppendPointFree(p: Params, units: Units, slots: Slots, cu: int, u: int)
    requires Laid(p, units, slots, cu) && u in units
    ensures units[u].cur !in slots
    ensures forall c | c in slots && c + slots[c].len == units[u].cur :: slots[c].unit == u
    ensures forall c | c in slots && slots[c].unit != u :: c + slots[c].len < u || units[u].reserved < c
    ensures forall c | c in slots && slots[c].unit == u :: u <= c && c + slots[c].len <= units[u].cur
  {
    forall c | c in slots
      ensures slots[c].unit != u ==> c + slots[c].len < u || units[u].reserved < c
      ensures slots[c].unit == u ==> u <= c && c + slots[c].len <= units[u].cur
      ensures c + slots[c].len == units[u].cur ==> slots[c].unit == u
      ensures c != units[u].cur
    {
      assert Placed(p, units, slots, cu, c);
    }
  }

  lemma DisjointPlus(slots: Slots, a: int, t: Slot)
    requires Disjoint(slots) && a !in slots
    requires forall c | c in slots :: (c < a ==> c + slots[c].len <= a) && (a < c ==> a + t.len <= c)
    ensures Disjoint(slots[a := t])
  {
  }

  /** The commit loop of `try_for_more_space`. */
  function Doubled(c: int, need: int): (r: int)
    requires 0 < c
    ensures c <= r && need <= r && (r == c || r < 2 * need)
    decreases need - c
  {
    if need <= c then c else Doubled(2 * c, need)
  }

  lemma {:induction false} DoubledPages(c: int, need: int)
    requires 0 < c && c % PAGE == 0
    ensures Doubled(c, need) % PAGE == 0
    decreases need - c
  {
    if need > c {
      WholePages(c, c);
      DoubledPages(2 * c, need);
    }
  }

  /** How much `try_for_more_space` commits for a request of `k` bytes: no more than is reserved, enough
      if that much is reserved, and beyond one increment less than twice what is missing. */
  function CommitSize(p: Params, r: Unit, k: int): (c: int)
    requires 0 < p.commit
    ensures r.end + c <= r.reserved && (r.end + c == r.reserved || r.cur + k <= r.end + c)
    ensures c <= p.commit || c < 2 * (r.cur + k - r.end)
  {
    var c := Doubled(p.commit, r.cur + k - r.end);
    if r.end + c > r.reserved then r.reserved - r.end else c
  }

  /** `extend_unit_end`: the length of an appended slot of `k` bytes, which takes along a rest too
      small to be useful. */
  function AppendLen(p: Params, r: Unit, k: int): int
  {
    if r.end - r.cur - k < EndHole(p) then r.end - r.cur else k
  }

  function Extend(units: Units, u: int, len: int): Units
    requires u in units
  {
    var r := units[u];
    units[u := r.(cur := r.cur + len, full := r.cur + len == r.end)]
  }

  lemma ExtendUnits(p: Params, units: Units, cu: int, len: int)
    requires UnitsOk(p, units, cu) && cu in units && 0 < len
    requires len == units[cu].end - units[cu].cur || len <= units[cu].end - units[cu].cur - EndHole(p)
    ensures UnitsOk(p, Extend(units, cu, len), cu)
  {
    assert UnitOk(p, cu, units[cu]);
  }

  /** A new slot at the append point. */
  function Push(units: Units, slots: Slots, u: int, len: int, kind: Kind): Slots
    requires u in units
  {
    slots[units[u].cur := Slot(u, len, kind)]
  }

  lemma PushLaid(p: Params, units: Units, slots: Slots, cu: int, len: int, kind: Kind)
    requires Laid(p, units, slots, cu) && cu in units
    requires 0 < len && (kind.Limbo? || MIN_SLOT <= len) && Multiple(p.align, len) && Multiple(p.align, units[cu].cur)
    requires len == units[cu].end - units[cu].cur || len <= units[cu].end - units[cu].cur - EndHole(p)
    ensures Laid(p, Extend(units, cu, len), Push(units, slots, cu, len, kind), cu)
  {
    AppendPointFree(p, units, slots, cu, cu);
    var units' := Extend(units, cu, len);
    var slots' := Push(units, slots, cu, len, kind);
    var a := units[cu].cur;
    assert UnitOk(p, cu, units[cu]) && Gap(p, true, units[cu]);
    ExtendUnits(p, units, cu, len);
    assert Tiled(p, units', slots', cu) by {
      forall c | c in slots' ensures Placed(p, units', slots', cu, c) {
        if c != a { assert Placed(p, units, slots, cu, c); }
      }
    }
    forall c | c in slots ensures (c < a ==> c + slots[c].len <= a) && (a < c ==> a + len <= c) {
      assert Placed(p, units, slots, cu, c);
    }
    DisjointPlus(slots, a, Slot(cu, len, kind));
  }

  /** Once its last byte is in use the current unit can be closed. */
  lemma CloseLaid(p: Params, units: Units, slots: Slots, cu: int)
    requires Laid(p, units, slots, cu)
    requires cu in units ==> units[cu].cur == units[cu].end
    ensures Laid(p, units, slots, NONE)
  {
    assert Tiled(p, units, slots, NONE) by {
      forall c | c in slots ensures Placed(p, units, slots, NONE, c) {
        assert Placed(p, units, slots, cu, c);
      }
    }
  }

  function Retreat(units: Units, u: int, cur: int): Units
    requires u in units
  {
    units[u := units[u].(cur := cur, full := false)]
  }

  lemma RetreatUnits(p: Params, units: Units, cu: int, cur: int)
    requires UnitsOk(p, units, cu) && cu in units && cu <= cur < units[cu].cur
    requires units[cu].cur == units[cu].end ==> units[cu].cur - cur >= EndHole(p)
    ensures UnitsOk(p, Retreat(units, cu, cur), cu)
  {
    var units' := Retreat(units, cu, cur);
    forall u | u in units' ensures UnitOk(p, u, units'[u]) && Gap(p, u == cu, units'[u]) {
      assert UnitOk(p, u, units[u]) && Gap(p, u == cu, units[u]);
    }
  }

  lemma DropPlaced(p: Params, units: Units, slots: Slots, cu: int, a: int, c: int)
    requires Tiled(p, units, slots, cu) && Disjoint(slots) && a in slots
    requires slots[a].unit == cu && cu in units && a + slots[a].len == units[cu].cur
    requires c in slots && c != a && units[cu].cur <= units[cu].end
    ensures Placed(p, Retreat(units, cu, a), slots - {a}, cu, c)
  {
    assert Placed(p, units, slots, cu, c) && Placed(p, units, slots, cu, a);
  }

  /** The append point moves back over the whole last slot. */
  lemma DropLastLaid(p: Params, units: Units, slots: Slots, cu: int, a: int)
    requires Laid(p, units, slots, cu) && a in slots
    requires slots[a].unit == cu && cu in units && a + slots[a].len == units[cu].cur
    ensures Laid(p, Retreat(units, cu, a), slots - {a}, cu)
  {
    var units' := Retreat(units, cu, a);
    var slots' := slots - {a};
    assert Placed(p, units, slots, cu, a) && UnitOk(p, cu, units[cu]);
    RetreatUnits(p, units, cu, a);
    assert Tiled(p, units', slots', cu) by {
      forall c | c in slots' ensures Placed(p, units', slots', cu, c) {
        DropPlaced(p, units, slots, cu, a, c);
      }
    }
  }

  /** The append point moves back over the tail of the last slot. */
  function Trim(slots: Slots, a: int, k: int): Slots
    requires a in slots
  {
    slots[a := slots[a].(len := k)]
  }

  lemma TrimmedPlaced(p: Params, units: Units, slots: Slots, cu: int, a: int, k: int, c: int)
    requires Tiled(p, units, slots, cu) && Disjoint(slots) && a in slots && MIN_SLOT <= k < slots[a].len
    requires slots[a].unit == cu && cu in units && a + slots[a].len == units[cu].cur
    requires c in slots && units[cu].cur <= units[cu].end
    ensures Placed(p, Retreat(units, cu, a + k), Trim(slots, a, k), cu, c)
  {
    assert Placed(p, units, slots, cu, c) && Placed(p, units, slots, cu, a);
  }

  lemma TrimLaid(p: Params, units: Units, slots: Slots, cu: int, a: int, k: int)
    requires Laid(p, units, slots, cu) && a in slots
    requires slots[a].unit == cu && cu in units && a + slots[a].len == units[cu].cur
    requires MIN_SLOT <= k < slots[a].len && Multiple(p.align, k)
    requires units[cu].cur == units[cu].end ==> slots[a].len - k >= EndHole(p)
    ensures Laid(p, Retreat(units, cu, a + k), Trim(slots, a, k), cu)
  {
    var units' := Retreat(units, cu, a + k);
    var slots' := Trim(slots, a, k);
    assert Placed(p, units, slots, cu, a) && UnitOk(p, cu, units[cu]);
    RetreatUnits(p, units, cu, a + k);
    assert Tiled(p, units', slots', cu) by {
      forall c | c in slots' ensures Placed(p, units', slots', cu, c) {
        TrimmedPlaced(p, units, slots, cu, a, k, c);
      }
    }
  }
}
