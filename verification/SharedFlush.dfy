/** Taking a retired unit out of a shared cache: the effect of `chain_fragments_for_flush` on the
    specification state. */
module SharedFlush {
  import opened Layout
  import opened SlotModel
  import opened SlotLayout
  import opened SlotSteps
  import opened SharedOps

  /** Slot `a` exists and is not in unit `u`. */
  predicate Elsewhere(slots: Slots, u: int, a: int)
  {
    a in slots && slots[a].unit != u
  }

  /** A free list without the entries of unit `u`, in the same order. */
  function Outside(slots: Slots, u: int, l: seq<int>): seq<int>
  {
    if l == [] then []
    else if Elsewhere(slots, u, l[0]) then [l[0]] + Outside(slots, u, l[1..])
    else Outside(slots, u, l[1..])
  }

  function SlotsOutside(slots: Slots, u: int): Slots
  {
    map a | a in slots && slots[a].unit != u :: slots[a]
  }

  function Forget(s: State, u: int): State
    requires |s.lists| == BUCKET_COUNT
  {
    State(
      s.units - {u}, s.order, Without(s.flush, u),
      SlotsOutside(s.slots, u),
      map e | e in s.foot && Elsewhere(s.slots, u, e - s.foot[e]) :: s.foot[e],
      map f | f in s.home && Elsewhere(s.slots, u, s.home[f]) :: s.home[f],
      set f | f in s.follows && f in s.home && Elsewhere(s.slots, u, s.home[f]),
      seq(BUCKET_COUNT, b requires 0 <= b < BUCKET_COUNT => Outside(s.slots, u, s.lists[b])))
  }

  lemma ForgetLaid(p: Params, s: State, u: int, cu: int)
    requires Laid(p, s.units, s.slots, cu) && u in s.units && u != cu
    ensures Laid(p, s.units - {u}, SlotsOutside(s.slots, u), cu)
  {
    var units' := s.units - {u};
    var slots' := SlotsOutside(s.slots, u);
    assert UnitsOk(p, units', cu) by {
      forall v | v in units' ensures UnitOk(p, v, units'[v]) && Gap(p, v == cu, units'[v]) {
        assert UnitOk(p, v, s.units[v]) && Gap(p, v == cu, s.units[v]);
      }
    }
    assert Tiled(p, units', slots', cu) by {
      forall c | c in slots' ensures Placed(p, units', slots', cu, c) {
        assert Placed(p, s.units, s.slots, cu, c);
      }
    }
  }

  /** The slot after a free entry belongs to the same unit. */
  lemma SameUnit(p: Params, s: State, x: int, cu: int, a: int)
    requires Laid(p, s.units, s.slots, cu) && Marked(s, x, cu) && a in s.slots && a in s.foot
    ensures a - s.foot[a] in s.slots && s.slots[a - s.foot[a]].unit == s.slots[a].unit
  {
    assert FootOk(s.slots, a, s.foot[a]);
    var q := a - s.foot[a];
    assert Placed(p, s.units, s.slots, cu, q);
    AppendPointFree(p, s.units, s.slots, cu, s.slots[q].unit);
  }

  lemma ForgetMarked(p: Params, s: State, u: int, cu: int)
    requires Laid(p, s.units, s.slots, cu) && Marked(s, NONE, cu) && |s.lists| == BUCKET_COUNT && u != cu
    ensures Marked(Forget(s, u), NONE, cu)
  {
    var s' := Forget(s, u);
    forall c | c in s'.slots ensures KindOk(s', NONE, cu, c) {
      assert KindOk(s, NONE, cu, c) && Placed(p, s.units, s.slots, cu, c);
      if c in s.foot { SameUnit(p, s, NONE, cu, c); }
    }
    assert Footers(s'.slots, s'.foot) by {
      forall e | e in s'.foot ensures FootOk(s'.slots, e, s'.foot[e]) {
        assert FootOk(s.slots, e, s.foot[e]);
      }
    }
  }

  lemma {:induction false} OutsideMeaning(slots: Slots, u: int, l: seq<int>)
    requires NoDup(l)
    ensures NoDup(Outside(slots, u, l))
    ensures forall a :: a in Outside(slots, u, l) <==> a in l && Elsewhere(slots, u, a)
  {
    if l != [] {
      assert NoDup(l[1..]);
      OutsideMeaning(slots, u, l[1..]);
      assert forall a :: a in l <==> a == l[0] || a in l[1..];
    }
  }

  lemma ForgetListed(s: State, u: int)
    requires Listed(s.slots, s.lists)
    ensures Listed(Forget(s, u).slots, Forget(s, u).lists)
  {
    var s' := Forget(s, u);
    forall b | 0 <= b < BUCKET_COUNT ensures ListOk(s'.slots, s'.lists[b], b) {
      assert ListOk(s.slots, s.lists[b], b);
      OutsideMeaning(s.slots, u, s.lists[b]);
      forall a ensures a in s'.lists[b] <==> Entry(s'.slots, b, a) {
        assert Elsewhere(s.slots, u, a) ==> Entry(s'.slots, b, a) == Entry(s.slots, b, a);
        assert !Elsewhere(s.slots, u, a) ==> FreeLen(s'.slots, a) < 0;
        assert a in s.lists[b] <==> Entry(s.slots, b, a);
      }
    }
  }

  lemma ForgetOrdered(units: Units, order: seq<int>, flush: seq<int>, u: int)
    requires Ordered(units, order, flush) && u in flush
    ensures Ordered(units - {u}, order, Without(flush, u))
  {
    WithoutKeeps(flush, u);
  }

  lemma ForgetKeeps(p: Params, s: State, u: int)
    requires Good(p, s) && u in s.flush
    ensures Good(p, Forget(s, u))
  {
    assert s.order[0] in s.order;
    ForgetLaid(p, s, u, s.order[0]);
    ForgetMarked(p, s, u, s.order[0]);
    ForgetListed(s, u);
    ForgetOrdered(s.units, s.order, s.flush, u);
  }
}
