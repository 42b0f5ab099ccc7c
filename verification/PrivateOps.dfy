/** The operations of a private code cache on its specification state. */
module PrivateOps {
  import opened Layout
  import opened SlotModel
  import opened SlotLayout
  import opened PrivateModel

  // ----- replacement

  /** What `replace_fragments` does with the `t.slots[a].len` bytes it has collected. */
  function Rehoused(p: Params, t: Fifo, a: int, k: int, f: nat): Fifo
    requires a in t.slots && t.order != [] && t.order[0] in t.units
  {
    var n := t.slots[a].len;
    if n < k then Lodged(Stretched(t, a, AppendLen(p, t.units[t.order[0]], k - n)), a, f)
    else if n - k < EmptyHole(p) then Lodged(t, a, f)
    else Prepended(LodgedPart(t, a, k, f), a + k)
  }

  /** `replace_fragments`, when it goes ahead. */
  function Replaced(p: Params, s: Fifo, a: int, k: int, f: nat): Fifo
    requires a in s.slots
  {
    var t := Evicted(Vacated(s, a), a, k);
    if a in t.slots && t.order != [] && t.order[0] in t.units then Rehoused(p, t, a, k, f) else t
  }

  /** The test of `replace_fifo`: there is room from the slot at `a` to the end of its unit. */
  ghost predicate Roomy(s: Fifo, a: int, k: int)
  {
    a in s.slots && s.slots[a].unit in s.units && s.units[s.slots[a].unit].end - a >= k
  }

  lemma RehousedKeeps(p: Params, t: Fifo, a: int, k: int, f: nat)
    requires FifoInv(p, t, a) && a in t.slots && t.slots[a].unit in t.units && f !in t.home && MIN_SLOT <= k
    requires Multiple(p.align, k)
    requires t.slots[a].len >= k || a + t.slots[a].len == t.units[t.slots[a].unit].cur
    requires Roomy(t, a, k)
    ensures FifoInv(p, Rehoused(p, t, a, k, f), NONE)
  {
    var n, t' := t.slots[a].len, Rehoused(p, t, a, k, f);
    if n < k {
      StretchFits(p, t, a, k);
      StretchAndLodge(p, t, a, AppendLen(p, t.units[t.order[0]], k - n), f);
      assert t' == Lodged(Stretched(t, a, AppendLen(p, t.units[t.order[0]], k - n)), a, f);
    } else if n - k < EmptyHole(p) {
      LodgedKeeps(p, t, a, f);
      assert t' == Lodged(t, a, f);
    } else {
      SplitAndLodge(p, t, a, k, f);
      assert t' == Prepended(LodgedPart(t, a, k, f), a + k);
    }
  }

  lemma SplitAndLodge(p: Params, t: Fifo, a: int, k: int, f: nat)
    requires FifoInv(p, t, a) && a in t.slots && f !in t.home && MIN_SLOT <= k && Multiple(p.align, k)
    requires t.slots[a].len - k >= MIN_SLOT
    ensures a + k in LodgedPart(t, a, k, f).slots && FifoInv(p, Prepended(LodgedPart(t, a, k, f), a + k), NONE)
  {
    LodgedPartKeeps(p, t, a, k, f);
    var t' := LodgedPart(t, a, k, f);
    PrependedKeeps(p, t', a + k);
    assert Prepended(t', a + k) == Prepended(LodgedPart(t, a, k, f), a + k);
  }

  lemma StretchAndLodge(p: Params, t: Fifo, a: int, len: int, f: nat)
    requires FifoInv(p, t, a) && Multiple(p.align, len) && a in t.slots && f !in t.home
    requires MIN_SLOT <= t.slots[a].len + len
    requires t.slots[a].unit == t.order[0] && a + t.slots[a].len == t.units[t.order[0]].cur
    requires var r := t.units[t.order[0]]; 0 < len == r.end - r.cur || 0 < len <= r.end - r.cur - EndHole(p)
    ensures FifoInv(p, Lodged(Stretched(t, a, len), a, f), NONE)
  {
    StretchedKeeps(p, t, a, len);
    LodgedKeeps(p, Stretched(t, a, len), a, f);
  }

  /** Too few bytes come together only in the current unit, and then the unclaimed ones make up
      for it. */
  lemma StretchFits(p: Params, t: Fifo, a: int, k: int)
    requires FifoInv(p, t, a) && a in t.slots && t.slots[a].unit in t.units && Multiple(p.align, k)
    requires t.slots[a].len < k && a + t.slots[a].len == t.units[t.slots[a].unit].cur && Roomy(t, a, k)
    ensures t.slots[a].unit == t.order[0]
    ensures var r, n := t.units[t.order[0]], t.slots[a].len; var len := AppendLen(p, r, k - n);
      && k - n <= len && Multiple(p.align, len) && n + len >= k
      && (0 < len == r.end - r.cur || 0 < len <= r.end - r.cur - EndHole(p))
  {
    assert Placed(p, t.units, t.slots, NONE, a) && UnitFits(p, t.order[0], t.slots[a].unit, t.units[t.slots[a].unit]);
    MultipleSum(p.align, k, t.slots[a].len);
    AppendOnGrid(p, t.units, t.slots, t.order[0], k - t.slots[a].len);
  }

  lemma {:induction false} EvictedHome(s: Fifo, a: int, k: int, f: nat)
    requires f !in s.home
    ensures f !in Evicted(s, a, k).home
    decreases if a in s.slots then k - s.slots[a].len else 0
  {
    if Wanting(s, a, k) { EvictedHome(Absorbed(s, a), a, k, f); }
  }

  lemma ReplacedKeeps(p: Params, s: Fifo, a: int, k: int, f: nat)
    requires FifoInv(p, s, NONE) && Roomy(s, a, k) && f !in s.home && MIN_SLOT <= k && Multiple(p.align, k)
    ensures FifoInv(p, Replaced(p, s, a, k, f), NONE)
  {
    VacatedKeeps(p, s, a);
    var s1 := Vacated(s, a);
    EvictedKeeps(p, s1, a, k);
    EvictedHome(s1, a, k, f);
    RehousedKeeps(p, Evicted(s1, a, k), a, k, f);
  }

  // ----- appending, closing a unit, removing

  function Appended(p: Params, s: Fifo, k: int, f: nat): Fifo
    requires s.order != [] && s.order[0] in s.units
  {
    var r := s.units[s.order[0]];
    Lodged(Opened(s, AppendLen(p, r, k)), r.cur, f)
  }

  lemma AppendedKeeps(p: Params, s: Fifo, k: int, f: nat)
    requires FifoInv(p, s, NONE) && f !in s.home && MIN_SLOT <= k && Multiple(p.align, k)
    requires s.units[s.order[0]].end - s.units[s.order[0]].cur >= k
    ensures FifoInv(p, Appended(p, s, k, f), NONE)
  {
    var r := s.units[s.order[0]];
    AppendOnGrid(p, s.units, s.slots, s.order[0], k);
    OpenedKeeps(p, s, AppendLen(p, r, k));
    LodgedKeeps(p, Opened(s, AppendLen(p, r, k)), r.cur, f);
  }

  /** `extend_unit_end` with size 0: the rest of the current unit becomes an empty slot. */
  function Filled(s: Fifo): Fifo
    requires s.order != [] && s.order[0] in s.units
  {
    var r := s.units[s.order[0]];
    if r.cur < r.end then Prepended(Opened(s, r.end - r.cur), r.cur) else s
  }

  lemma FilledKeeps(p: Params, s: Fifo)
    requires FifoInv(p, s, NONE)
    ensures FifoInv(p, Filled(s), NONE) && Filled(s).order == s.order && Filled(s).units.Keys == s.units.Keys
    ensures var r := Filled(s).units[s.order[0]]; r.cur == r.end && r.full
    ensures forall u | u in s.units :: Filled(s).units[u].reserved == s.units[u].reserved
  {
    var r := s.units[s.order[0]];
    assert UnitFits(p, s.order[0], s.order[0], r);
    if r.cur < r.end {
      var e := r.end - r.cur;
      EndGrid(p, s);
      OpenedKeeps(p, s, e);
      PrependedKeeps(p, Opened(s, e), r.cur);
    }
  }

  lemma EndGrid(p: Params, s: Fifo)
    requires FifoInv(p, s, NONE)
    ensures Multiple(p.align, s.units[s.order[0]].end - s.units[s.order[0]].cur)
  {
    var r := s.units[s.order[0]];
    assert UnitFits(p, s.order[0], s.order[0], r);
    CurGrid(p, s.units, s.slots, s.order[0], s.order[0]);
    MultipleSum(p.align, r.end - s.order[0], s.order[0]);
    MultipleSum(p.align, r.end, r.cur);
  }

  /** `fcache_remove_fragment` */
  function Removed(s: Fifo, f: nat): Fifo
    requires f in s.home && s.home[f] in s.slots
  {
    Prepended(Vacated(s, s.home[f]), s.home[f])
  }

  lemma RemovedKeeps(p: Params, s: Fifo, f: nat)
    requires FifoInv(p, s, NONE) && f in s.home
    ensures FifoInv(p, Removed(s, f), NONE)
  {
    assert Placed(p, s.units, s.slots, NONE, s.home[f]);
    VacatedKeeps(p, s, s.home[f]);
    PrependedKeeps(p, Vacated(s, s.home[f]), s.home[f]);
  }

  // ----- growing

  /** `cache_extend_commitment` on the current unit. */
  function CommittedMore(s: Fifo, size: int): Fifo
    requires s.order != [] && s.order[0] in s.units
  {
    var r := s.units[s.order[0]];
    s.(units := s.units[s.order[0] := r.(end := r.end + size, full := false)])
  }

  lemma UnitsChanged(p: Params, s: Fifo, units': Units, order': seq<int>, x: int)
    requires FifoInv(p, s, x) && order' != [] && UnitsFit(p, units', order'[0])
    requires forall u | u in s.units :: u in units' && units'[u].cur == s.units[u].cur
    requires forall u | u in units' && u !in s.units :: units'[u].cur == u
    ensures FifoInv(p, s.(units := units', order := order'), x)
  {
    assert Tiled(p, units', s.slots, NONE) by {
      forall c | c in s.slots ensures Placed(p, units', s.slots, NONE, c) {
        assert Placed(p, s.units, s.slots, NONE, c);
      }
    }
  }

  lemma CommittedMoreKeeps(p: Params, s: Fifo, size: int)
    requires Multiple(p.align, PAGE) && FifoInv(p, s, NONE)
    requires var r := s.units[s.order[0]]; 0 < size <= r.reserved - r.end && size % PAGE == 0
    ensures FifoInv(p, CommittedMore(s, size), NONE)
  {
    var cu := s.order[0];
    var units' := CommittedMore(s, size).units;
    assert UnitsFit(p, units', cu) by {
      assert UnitFits(p, cu, cu, s.units[cu]);
      MultipleOfPage(p, size);
      MultipleSum(p.align, s.units[cu].end - cu, size);
      assert units'[cu].end - cu == s.units[cu].end - cu + size;
      WholePages(s.units[cu].reserved - s.units[cu].end, size);
      assert units'[cu].reserved - units'[cu].end == s.units[cu].reserved - s.units[cu].end - size;
      forall u | u in units' ensures UnitFits(p, cu, u, units'[u]) {
        assert UnitFits(p, cu, u, s.units[u]);
      }
    }
    UnitsChanged(p, s, units', s.order, NONE);
  }

  /** A new unit becomes the current one. */
  function UnitAdded(s: Fifo, u: int, r: Unit): Fifo
  {
    s.(units := s.units[u := r], order := [u] + s.order)
  }

  lemma UnitAddedKeeps(p: Params, s: Fifo, u: int, r: Unit)
    requires FifoInv(p, s, NONE) && s.units[s.order[0]].cur == s.units[s.order[0]].end
    requires UnitFits(p, u, u, r) && r.cur == u && u !in s.units
    requires forall v | v in s.units :: s.units[v].reserved < u || r.reserved < v
    ensures FifoInv(p, UnitAdded(s, u, r), NONE)
  {
    var units' := s.units[u := r];
    assert UnitsFit(p, units', u) by {
      forall v | v in units' ensures UnitFits(p, u, v, units'[v]) {
        if v != u { assert UnitFits(p, s.order[0], v, s.units[v]); }
      }
      forall v, w | v in units' && w in units' && v < w ensures units'[v].reserved < w {
        if v != u { assert UnitFits(p, s.order[0], v, s.units[v]); }
        if w != u { assert UnitFits(p, s.order[0], w, s.units[w]); }
      }
    }
    UnitsChanged(p, s, units', [u] + s.order, NONE);
  }
}
