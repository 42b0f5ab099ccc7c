/** `fcache_return_extra_space` in a private code cache. */
module PrivateShrink {
  import opened Layout
  import opened SlotModel
  import opened SlotLayout
  import opened PrivateModel

  /** The tail of the fragment at `a` is cut off and in transit. */
  function Shed(s: Fifo, a: int, k: int): Fifo
    requires a in s.slots
  {
    s.(slots := Split(s.slots, a, k, s.slots[a].kind))
  }

  lemma ShedKeeps(p: Params, s: Fifo, a: int, k: int)
    requires FifoInv(p, s, NONE) && a in s.slots && s.slots[a].kind.Live? && MIN_SLOT <= k < s.slots[a].len
    requires Multiple(p.align, k)
    ensures FifoInv(p, Shed(s, a, k), a + k)
    ensures Shed(s, a, k).slots[a + k] == Slot(s.slots[a].unit, s.slots[a].len - k, Limbo)
  {
    var t := Shed(s, a, k);
    LodgedPartTiles(p, s, a, k, s.slots[a].kind.f);
    SameQueue(s, t.slots);
  }

  /** A change of slots that keeps addresses and kinds of what is queued. */
  lemma SameQueue(s: Fifo, slots': Slots)
    requires Queue(s.slots, s.q) && Sorted(s.slots, s.born, s.q)
    requires forall c :: Settled(s.slots, c) <==> Settled(slots', c)
    requires forall c | Settled(s.slots, c) :: Settled(slots', c) && slots'[c].kind == s.slots[c].kind
    ensures Queue(slots', s.q) && Sorted(slots', s.born, s.q)
  {
    forall c ensures c in s.q <==> Settled(slots', c) {
      assert Settled(s.slots, c) || !Settled(s.slots, c);
    }
    forall c | c in s.q ensures c in s.slots && c in slots' && slots'[c].kind == s.slots[c].kind {
      assert Settled(s.slots, c);
    }
    SortedSame(s.slots, slots', s.born, s.born, s.q);
  }

  /** The last slot of the current unit gives its tail back to the unclaimed space. */
  function Trimmed(s: Fifo, a: int, k: int): Fifo
    requires a in s.slots && s.slots[a].unit in s.units
  {
    s.(units := Retreat(s.units, s.slots[a].unit, a + k), slots := Trim(s.slots, a, k))
  }

  lemma TrimPlaced(p: Params, s: Fifo, a: int, k: int, c: int)
    requires Tiled(p, s.units, s.slots, NONE) && Disjoint(s.slots) && a in s.slots && s.slots[a].unit in s.units
    requires MIN_SLOT <= k < s.slots[a].len
    requires a + s.slots[a].len == s.units[s.slots[a].unit].cur && c in s.slots
    ensures Placed(p, Trimmed(s, a, k).units, Trimmed(s, a, k).slots, NONE, c)
  {
    assert Placed(p, s.units, s.slots, NONE, c) && Placed(p, s.units, s.slots, NONE, a);
  }

  lemma TrimmedUnits(p: Params, s: Fifo, a: int, k: int)
    requires s.order != [] && UnitsFit(p, s.units, s.order[0]) && a in s.slots && s.slots[a].unit == s.order[0] <= a
    requires 0 < k < s.slots[a].len && a + s.slots[a].len == s.units[s.order[0]].cur
    requires s.units[s.order[0]].cur == s.units[s.order[0]].end ==> s.slots[a].len - k >= EndHole(p)
    ensures UnitsFit(p, Trimmed(s, a, k).units, s.order[0])
  {
    var t, cu := Trimmed(s, a, k), s.order[0];
    forall u | u in t.units ensures UnitFits(p, cu, u, t.units[u]) {
      assert UnitFits(p, cu, u, s.units[u]);
    }
  }

  lemma TrimmedTiles(p: Params, s: Fifo, a: int, k: int)
    requires s.order != [] && Tiles(p, s.units, s.slots, s.order[0]) && a in s.slots && s.slots[a].unit == s.order[0]
    requires MIN_SLOT <= k < s.slots[a].len && Multiple(p.align, k) && a + s.slots[a].len == s.units[s.order[0]].cur
    requires s.units[s.order[0]].cur == s.units[s.order[0]].end ==> s.slots[a].len - k >= EndHole(p)
    ensures Tiles(p, Trimmed(s, a, k).units, Trimmed(s, a, k).slots, s.order[0])
  {
    var t, cu := Trimmed(s, a, k), s.order[0];
    assert Placed(p, s.units, s.slots, NONE, a);
    TrimmedUnits(p, s, a, k);
    assert Tiled(p, t.units, t.slots, NONE) by {
      forall c | c in t.slots ensures Placed(p, t.units, t.slots, NONE, c) {
        TrimPlaced(p, s, a, k, c);
      }
    }
  }

  lemma TrimmedKeeps(p: Params, s: Fifo, a: int, k: int)
    requires FifoInv(p, s, NONE) && a in s.slots && s.slots[a].unit == s.order[0]
    requires MIN_SLOT <= k < s.slots[a].len && Multiple(p.align, k) && a + s.slots[a].len == s.units[s.order[0]].cur
    requires s.units[s.order[0]].cur == s.units[s.order[0]].end ==> s.slots[a].len - k >= EndHole(p)
    ensures FifoInv(p, Trimmed(s, a, k), NONE)
  {
    TrimmedTiles(p, s, a, k);
    SameQueue(s, Trimmed(s, a, k).slots);
  }

  /** The empty slot behind the fragment at `a` takes over its tail. */
  function TakenOver(s: Fifo, a: int, k: int): Fifo
    requires a in s.slots && a + s.slots[a].len in s.slots
  {
    var e := a + s.slots[a].len;
    var t := s.slots[e];
    s.(slots := (s.slots - {e})[a := s.slots[a].(len := k)][a + k := t.(len := e + t.len - (a + k))],
       q := if e in s.q then s.q[IndexOf(s.q, e) := a + k] else s.q)
  }

  lemma TakenPlaced(p: Params, s: Fifo, a: int, k: int, c: int)
    requires Tiled(p, s.units, s.slots, NONE) && Disjoint(s.slots) && a in s.slots && MIN_SLOT <= k < s.slots[a].len
    requires var e := a + s.slots[a].len; e in s.slots && s.slots[e].unit == s.slots[a].unit
    requires c in TakenOver(s, a, k).slots
    ensures Placed(p, s.units, TakenOver(s, a, k).slots, NONE, c)
  {
    var e := a + s.slots[a].len;
    assert Placed(p, s.units, s.slots, NONE, a) && Placed(p, s.units, s.slots, NONE, e);
    if c != a + k { assert Placed(p, s.units, s.slots, NONE, c); }
  }

  lemma TakenApart(p: Params, s: Fifo, a: int, k: int)
    requires Disjoint(s.slots) && Grid(p, s.slots) && a in s.slots && 0 < k < s.slots[a].len && Multiple(p.align, k)
    requires a + s.slots[a].len in s.slots
    ensures a + k !in s.slots && Disjoint(TakenOver(s, a, k).slots) && Grid(p, TakenOver(s, a, k).slots)
  {
    var e := a + s.slots[a].len;
    MultipleSum(p.align, a, k);
    MultipleSum(p.align, s.slots[a].len, k);
    MultipleSum(p.align, s.slots[a].len - k, s.slots[e].len);
  }

  lemma TakenOverTiles(p: Params, s: Fifo, a: int, k: int)
    requires s.order != [] && Tiles(p, s.units, s.slots, s.order[0]) && a in s.slots && MIN_SLOT <= k < s.slots[a].len
    requires Multiple(p.align, k)
    requires var e := a + s.slots[a].len; e in s.slots && s.slots[e].unit == s.slots[a].unit
    ensures a + k !in s.slots && Tiles(p, s.units, TakenOver(s, a, k).slots, s.order[0])
  {
    TakenApart(p, s, a, k);
    TakenTiled(p, s, a, k);
  }

  lemma TakenTiled(p: Params, s: Fifo, a: int, k: int)
    requires Tiled(p, s.units, s.slots, NONE) && Disjoint(s.slots) && a in s.slots && MIN_SLOT <= k < s.slots[a].len
    requires var e := a + s.slots[a].len; e in s.slots && s.slots[e].unit == s.slots[a].unit
    ensures Tiled(p, s.units, TakenOver(s, a, k).slots, NONE)
  {
    var slots', e := TakenOver(s, a, k).slots, a + s.slots[a].len;
    assert Placed(p, s.units, s.slots, NONE, a) && Placed(p, s.units, s.slots, NONE, e);
    assert Started(s.units, slots') by {
      forall u | u in s.units ensures s.units[u].cur == u || (u in slots' && slots'[u].unit == u) {
      }
    }
    forall c | c in slots' ensures Placed(p, s.units, slots', NONE, c) {
      TakenPlaced(p, s, a, k, c);
    }
  }

  lemma ReplacedInQueue(slots: Slots, slots': Slots, q: seq<int>, e: int, x: int)
    requires Queue(slots, q) && Settled(slots, e) && !Settled(slots, x)
    requires forall c :: Settled(slots', c) <==> (Settled(slots, c) && c != e) || c == x
    ensures e in q && Queue(slots', q[IndexOf(q, e) := x])
  {
    var i := IndexOf(q, e);
    var q' := q[i := x];
    assert x !in q;
    forall c ensures c in q' <==> Settled(slots', c) {
      assert Settled(slots, c) || !Settled(slots, c);
      if c in q && c != e { var j := IndexOf(q, c); assert q'[j] == c; }
      if c == x { assert q'[i] == c; }
    }
  }

  lemma TakenOverKeeps(p: Params, s: Fifo, a: int, k: int)
    requires FifoInv(p, s, NONE) && a in s.slots && s.slots[a].kind.Live? && MIN_SLOT <= k < s.slots[a].len
    requires Multiple(p.align, k)
    requires var e := a + s.slots[a].len; e in s.slots && s.slots[e].unit == s.slots[a].unit && s.slots[e].kind.Free?
    ensures FifoInv(p, TakenOver(s, a, k), NONE)
  {
    var t, e := TakenOver(s, a, k), a + s.slots[a].len;
    TakenOverTiles(p, s, a, k);
    assert Settled(s.slots, e);
    ReplacedInQueue(s.slots, t.slots, s.q, e, a + k);
    TakenOverSorted(s, a, k);
  }

  lemma TakenOverSorted(s: Fifo, a: int, k: int)
    requires Queue(s.slots, s.q) && Sorted(s.slots, s.born, s.q) && a in s.slots && 0 < k < s.slots[a].len
    requires a + k !in s.slots
    requires var e := a + s.slots[a].len; e in s.slots && s.slots[e].kind.Free? && e in s.q
    ensures Sorted(TakenOver(s, a, k).slots, s.born, TakenOver(s, a, k).q)
  {
    var t, e := TakenOver(s, a, k), a + s.slots[a].len;
    var n := IndexOf(s.q, e);
    forall i, j | 0 <= i < j < |t.q| ensures Before(t.slots, s.born, t.q[i], t.q[j]) {
      assert Before(s.slots, s.born, s.q[i], s.q[j]);
      assert s.q[i] in s.q && Settled(s.slots, s.q[i]) && s.q[j] in s.q && Settled(s.slots, s.q[j]);
      assert i != n ==> s.q[i] != e;
      assert j != n ==> s.q[j] != e;
    }
  }

  // ----- the operation

  /** What `fcache_return_extra_space` makes of a fragment that could do with `k` bytes. */
  function Shrunk(p: Params, s: Fifo, f: nat, k: int): Fifo
    requires f in s.home && s.home[f] in s.slots && s.slots[s.home[f]].unit in s.units && s.order != []
  {
    var a := s.home[f];
    if s.slots[a].len <= k then s else Released(p, s, a, s.slots[a].len, s.slots[a].unit, k)
  }

  function Released(p: Params, s: Fifo, a: int, len: int, u: int, k: int): Fifo
    requires a in s.slots && s.slots[a].len == len > k && s.slots[a].unit == u && u in s.units && s.order != []
  {
    var e, r := a + len, s.units[u];
    if e == r.end then
      if len - k < EndHole(p) then s else if u == s.order[0] then Trimmed(s, a, k) else Prepended(Shed(s, a, k), a + k)
    else if e == r.cur then Trimmed(s, a, k)
    else if e in s.slots && s.slots[e].kind.Free? then TakenOver(s, a, k)
    else if len - k >= EmptyHole(p) then Prepended(Shed(s, a, k), a + k)
    else s
  }

  lemma ShrunkKeeps(p: Params, s: Fifo, f: nat, k: int)
    requires FifoInv(p, s, NONE) && f in s.home && MIN_SLOT <= k && Multiple(p.align, k)
    ensures s.slots[s.home[f]].unit in s.units && FifoInv(p, Shrunk(p, s, f, k), NONE)
  {
    var a := s.home[f];
    NextInUnit(p, s, NONE, a);
    if s.slots[a].len > k { ReleasedKeeps(p, s, a, s.slots[a].len, s.slots[a].unit, k, f); }
  }

  lemma ReleasedKeeps(p: Params, s: Fifo, a: int, len: int, u: int, k: int, f: nat)
    requires FifoInv(p, s, NONE) && a in s.slots && s.slots[a] == Slot(u, len, Live(f)) && u in s.units
    requires MIN_SLOT <= k < len && Multiple(p.align, k)
    ensures FifoInv(p, Released(p, s, a, len, u, k), NONE)
  {
    NextInUnit(p, s, NONE, a);
    OnlyCurrentHasRoom(p, s, u);
    var e, r, t := a + len, s.units[u], Released(p, s, a, len, u, k);
    if e == r.end && len - k < EndHole(p) {
      assert t == s;
    } else if (e == r.end && u == s.order[0]) || (e != r.end && e == r.cur) {
      TrimmedKeeps(p, s, a, k);
      assert t == Trimmed(s, a, k);
    } else if e != r.end && e in s.slots && s.slots[e].kind.Free? {
      TakenOverKeeps(p, s, a, k);
      assert t == TakenOver(s, a, k);
    } else if e == r.end || len - k >= EmptyHole(p) {
      ShedAndPrepend(p, s, a, k);
      assert t == Prepended(Shed(s, a, k), a + k);
    }
  }

  lemma OnlyCurrentHasRoom(p: Params, s: Fifo, u: int)
    requires FifoInv(p, s, NONE) && u in s.units
    ensures s.units[u].cur <= s.units[u].end && (s.units[u].cur != s.units[u].end ==> u == s.order[0])
  {
    assert UnitFits(p, s.order[0], u, s.units[u]);
  }

  lemma ShedAndPrepend(p: Params, s: Fifo, a: int, k: int)
    requires FifoInv(p, s, NONE) && a in s.slots && s.slots[a].kind.Live? && MIN_SLOT <= k && Multiple(p.align, k)
    requires s.slots[a].len - k >= MIN_SLOT
    ensures a + k in Shed(s, a, k).slots && FifoInv(p, Prepended(Shed(s, a, k), a + k), NONE)
  {
    ShedKeeps(p, s, a, k);
    PrependedKeeps(p, Shed(s, a, k), a + k);
  }
}
