/** A private code cache of Simulator/core/fcache.c as a map of slots and a replacement queue: the
    specification of the FIFO in PrivateCache.dfy. */
module PrivateModel {
  import opened Layout
  import opened SlotModel
  import opened SlotLayout

  /** `q` is the FIFO, given by slot addresses. `born` stamps each fragment with the moment it
      was placed. A slot that is being emptied is in `Limbo` and not in the FIFO. */
  datatype Fifo = Fifo(
    units: Units, order: seq<int>, slots: Slots, home: map<nat, int>, q: seq<int>, born: map<nat, nat>, clock: nat)

  // ----- the invariant; `x` is the slot in transit

  ghost predicate UnitFits(p: Params, cu: int, u: int, r: Unit)
  {
    && 0 < u <= r.cur <= r.end <= r.reserved && u < r.end
    && Multiple(p.align, u) && Multiple(p.align, r.end - u) && Gap(p, u == cu, r) && (r.reserved - r.end) % PAGE == 0
  }

  ghost predicate UnitsFit(p: Params, units: Units, cu: int)
  {
    && cu in units
    && (forall u {:trigger UnitFits(p, cu, u, units[u])} | u in units :: UnitFits(p, cu, u, units[u]))
    && (forall u, v | u in units && v in units && u < v :: units[u].reserved < v)
  }

  ghost predicate Tiles(p: Params, units: Units, slots: Slots, cu: int)
  {
    UnitsFit(p, units, cu) && Tiled(p, units, slots, NONE) && Disjoint(slots) && Grid(p, slots)
  }

  ghost predicate Owned(slots: Slots, home: map<nat, int>, x: int)
  {
    && (x == NONE || x in slots)
    && (forall a | a in slots :: slots[a].kind.Limbo? <==> a == x)
    && (forall a | a in slots && slots[a].kind.Live? :: slots[a].kind.f in home && home[slots[a].kind.f] == a)
    && (forall f | f in home :: home[f] in slots && slots[home[f]].kind == Live(f))
  }

  predicate Settled(slots: Slots, a: int)
  {
    a in slots && !slots[a].kind.Limbo?
  }

  /** The FIFO holds every slot exactly once. */
  ghost predicate Queue(slots: Slots, q: seq<int>)
  {
    NoDup(q) && forall a {:trigger Settled(slots, a)} :: a in q <==> Settled(slots, a)
  }

  /** `a` may stand before `b`: empty slots come first, then fragments, oldest first. */
  predicate Before(slots: Slots, born: map<nat, nat>, a: int, b: int)
  {
    a in slots && b in slots &&
    match slots[a].kind
    case Free => true
    case Limbo => false
    case Live(f) => slots[b].kind.Live? && f in born && slots[b].kind.f in born && born[f] < born[slots[b].kind.f]
  }

  ghost predicate Sorted(slots: Slots, born: map<nat, nat>, q: seq<int>)
  {
    forall i, j {:trigger Before(slots, born, q[i], q[j])} | 0 <= i < j < |q| :: Before(slots, born, q[i], q[j])
  }

  ghost predicate Stamped(home: map<nat, int>, born: map<nat, nat>, clock: nat)
  {
    forall f | f in home :: f in born && born[f] < clock
  }

  ghost predicate FifoInv(p: Params, s: Fifo, x: int)
  {
    && s.order != [] && Tiles(p, s.units, s.slots, s.order[0]) && Owned(s.slots, s.home, x)
    && Queue(s.slots, s.q) && Sorted(s.slots, s.born, s.q) && Stamped(s.home, s.born, s.clock)
  }

  // ----- the queue

  lemma {:induction false} SortedPart(slots: Slots, born: map<nat, nat>, q: seq<int>, a: int)
    requires Sorted(slots, born, q)
    ensures Sorted(slots, born, Without(q, a))
  {
  }

  lemma SortedSame(slots: Slots, slots': Slots, born: map<nat, nat>, born': map<nat, nat>, q: seq<int>)
    requires Sorted(slots, born, q)
    requires forall a | a in q :: a in slots && a in slots' && slots'[a].kind == slots[a].kind
    requires forall f | f in born :: f in born' && born'[f] == born[f]
    ensures Sorted(slots', born', q)
  {
    forall i, j | 0 <= i < j < |q| ensures Before(slots', born', q[i], q[j]) {
      assert Before(slots, born, q[i], q[j]) && q[i] in q && q[j] in q;
    }
  }

  lemma QueueWithout(slots: Slots, slots': Slots, q: seq<int>, a: int)
    requires Queue(slots, q) && Settled(slots, a)
    requires forall c :: Settled(slots', c) <==> Settled(slots, c) && c != a
    ensures Queue(slots', Without(q, a))
  {
    WithoutKeeps(q, a);
    forall c ensures c in Without(q, a) <==> Settled(slots', c) {
      assert Settled(slots, c) || !Settled(slots, c);
    }
  }

  lemma QueueAppend(slots: Slots, slots': Slots, q: seq<int>, a: int)
    requires Queue(slots, q) && !Settled(slots, a)
    requires forall c :: Settled(slots', c) <==> Settled(slots, c) || c == a
    ensures Queue(slots', q + [a]) && Queue(slots', [a] + q)
  {
    assert a !in q;
    forall c ensures c in q + [a] <==> Settled(slots', c) {
      assert Settled(slots, c) || !Settled(slots, c);
    }
    forall c ensures c in [a] + q <==> Settled(slots', c) {
      assert Settled(slots, c) || !Settled(slots, c);
    }
  }

  // ----- emptying a slot

  function Unhomed(home: map<nat, int>, kind: Kind): map<nat, int>
  {
    if kind.Live? then home - {kind.f} else home
  }

  /** The slot at `a` leaves the FIFO. */
  function Vacated(s: Fifo, a: int): Fifo
    requires a in s.slots
  {
    s.(slots := SetKind(s.slots, a, Limbo), home := Unhomed(s.home, s.slots[a].kind), q := Without(s.q, a))
  }

  lemma VacatedTiles(p: Params, s: Fifo, a: int)
    requires s.order != [] && Tiles(p, s.units, s.slots, s.order[0]) && a in s.slots
    ensures Tiles(p, s.units, Vacated(s, a).slots, s.order[0])
  {
    var slots' := SetKind(s.slots, a, Limbo);
    forall c | c in slots' ensures Placed(p, s.units, slots', NONE, c) {
      assert Placed(p, s.units, s.slots, NONE, c);
    }
  }

  lemma VacatedKeeps(p: Params, s: Fifo, a: int)
    requires FifoInv(p, s, NONE) && a in s.slots && a != NONE
    ensures FifoInv(p, Vacated(s, a), a)
  {
    var s' := Vacated(s, a);
    VacatedTiles(p, s, a);
    assert Settled(s.slots, a);
    QueueWithout(s.slots, s'.slots, s.q, a);
    SortedPart(s.slots, s.born, s.q, a);
    WithoutKeeps(s.q, a);
    forall c | c in s'.q ensures c in s.slots && c in s'.slots && s'.slots[c].kind == s.slots[c].kind {
      assert Settled(s'.slots, c);
    }
    SortedSame(s.slots, s'.slots, s.born, s'.born, s'.q);
  }

  /** The slot behind the one in transit is emptied into it. */
  function Absorbed(s: Fifo, a: int): Fifo
    requires a in s.slots && a + s.slots[a].len in s.slots
  {
    var b := a + s.slots[a].len;
    s.(slots := Merge(s.slots, a), home := Unhomed(s.home, s.slots[b].kind), q := Without(s.q, b))
  }

  lemma AbsorbedTiles(p: Params, s: Fifo, a: int)
    requires s.order != [] && Tiles(p, s.units, s.slots, s.order[0])
    requires a in s.slots && a + s.slots[a].len in s.slots && s.slots[a + s.slots[a].len].unit == s.slots[a].unit
    ensures Tiles(p, s.units, Absorbed(s, a).slots, s.order[0])
  {
    var slots' := Merge(s.slots, a);
    assert Placed(p, s.units, s.slots, NONE, a) && Placed(p, s.units, s.slots, NONE, a + s.slots[a].len);
    assert Tiled(p, s.units, slots', NONE) by {
      forall c | c in slots' ensures Placed(p, s.units, slots', NONE, c) {
        MergePlaced(p, s.units, s.slots, NONE, a, c);
      }
    }
    MultipleSum(p.align, s.slots[a].len, s.slots[a + s.slots[a].len].len);
  }

  lemma AbsorbedKeeps(p: Params, s: Fifo, a: int)
    requires FifoInv(p, s, a) && a in s.slots && a + s.slots[a].len in s.slots
    requires s.slots[a + s.slots[a].len].unit == s.slots[a].unit
    requires 0 < s.slots[a].len
    ensures FifoInv(p, Absorbed(s, a), a)
  {
    var s' := Absorbed(s, a);
    var b := a + s.slots[a].len;
    AbsorbedTiles(p, s, a);
    assert Settled(s.slots, b);
    QueueWithout(s.slots, s'.slots, s.q, b);
    SortedPart(s.slots, s.born, s.q, b);
    forall c | c in s'.q ensures c in s.slots && c in s'.slots && s'.slots[c].kind == s.slots[c].kind {
      assert Settled(s'.slots, c);
    }
    SortedSame(s.slots, s'.slots, s.born, s'.born, s'.q);
  }

  /** Whether emptying must go on: less than `k` bytes yet, and a slot behind. */
  predicate Wanting(s: Fifo, a: int, k: int)
  {
    && a in s.slots && 0 < s.slots[a].len < k && s.slots[a].unit in s.units
    && a + s.slots[a].len < s.units[s.slots[a].unit].cur
    && a + s.slots[a].len in s.slots && 0 < s.slots[a + s.slots[a].len].len
  }

  /** The second walk of `replace_fragments`: slots are emptied until `k` bytes are together or
      the append point is reached. */
  function Evicted(s: Fifo, a: int, k: int): Fifo
    decreases if a in s.slots then k - s.slots[a].len else 0
  {
    if Wanting(s, a, k) then Evicted(Absorbed(s, a), a, k) else s
  }

  lemma NextInUnit(p: Params, s: Fifo, x: int, a: int)
    requires FifoInv(p, s, x) && a in s.slots
    ensures s.slots[a].unit in s.units && 0 < s.slots[a].len && a + s.slots[a].len <= s.units[s.slots[a].unit].cur
    ensures a + s.slots[a].len < s.units[s.slots[a].unit].cur ==>
      var e := a + s.slots[a].len; e in s.slots && s.slots[e].unit == s.slots[a].unit && 0 < s.slots[e].len
  {
    assert Placed(p, s.units, s.slots, NONE, a);
    if a + s.slots[a].len < s.units[s.slots[a].unit].cur { assert Placed(p, s.units, s.slots, NONE,
      a + s.slots[a].len); }
  }

  lemma {:induction false} EvictedKeeps(p: Params, s: Fifo, a: int, k: int)
    requires FifoInv(p, s, a) && a in s.slots
    ensures var t := Evicted(s, a, k);
      && FifoInv(p, t, a) && a in t.slots && t.units == s.units && t.order == s.order
      && t.slots[a].unit == s.slots[a].unit
      && t.slots[a].unit in t.units
      && (t.slots[a].len >= k || a + t.slots[a].len == t.units[t.slots[a].unit].cur)
    decreases k - s.slots[a].len
  {
    NextInUnit(p, s, a, a);
    if Wanting(s, a, k) {
      AbsorbedKeeps(p, s, a);
      EvictedKeeps(p, Absorbed(s, a), a, k);
    }
  }

  // ----- placing a fragment

  /** The slot in transit becomes fragment `f`, the youngest. */
  function Lodged(s: Fifo, a: int, f: nat): Fifo
    requires a in s.slots
  {
    s.(slots := SetKind(s.slots, a, Live(f)), home := s.home[f := a], q := s.q + [a], born := s.born[f := s.clock],
      clock := s.clock + 1)
  }

  lemma Youngest(slots: Slots, slots': Slots, home: map<nat, int>, born: map<nat, nat>, clock: nat, q: seq<int>, a: int,
    f: nat)
    requires Sorted(slots, born, q) && Stamped(home, born, clock) && f !in home
    requires forall c | c in q ::
      c in slots && c in slots' && slots'[c].kind == slots[c].kind && (slots[c].kind.Live? ==> slots[c].kind.f in home)
    requires forall c | c in q :: !slots[c].kind.Limbo?
    requires a in slots' && slots'[a].kind == Live(f)
    ensures Sorted(slots', born[f := clock], q + [a])
  {
    var born' := born[f := clock];
    forall i, j | 0 <= i < j < |q + [a]| ensures Before(slots', born', (q + [a])[i], (q + [a])[j]) {
      assert q[i] in q;
      if j < |q| { assert Before(slots, born, q[i], q[j]) && q[j] in q; }
    }
  }

  lemma LodgedKeeps(p: Params, s: Fifo, a: int, f: nat)
    requires FifoInv(p, s, a) && a in s.slots && MIN_SLOT <= s.slots[a].len && f !in s.home
    ensures FifoInv(p, Lodged(s, a, f), NONE)
  {
    var s' := Lodged(s, a, f);
    assert Tiled(p, s.units, s'.slots, NONE) by {
      forall c | c in s'.slots ensures Placed(p, s.units, s'.slots, NONE, c) {
        assert Placed(p, s.units, s.slots, NONE, c);
      }
    }
    QueueAppend(s.slots, s'.slots, s.q, a);
    forall c | c in s.q ensures c in s.slots && c != a && !s.slots[c].kind.Limbo? {
      assert Settled(s.slots, c);
    }
    Youngest(s.slots, s'.slots, s.home, s.born, s.clock, s.q, a, f);
  }

  /** Fragment `f` takes the first `k` bytes of the slot in transit; the rest stays in transit. */
  function LodgedPart(s: Fifo, a: int, k: int, f: nat): Fifo
    requires a in s.slots
  {
    s.(slots := Split(s.slots, a, k, Live(f)), home := s.home[f := a], q := s.q + [a], born := s.born[f := s.clock],
      clock := s.clock + 1)
  }

  lemma PartPlaced(p: Params, units: Units, slots: Slots, a: int, k: int, f: nat, c: int)
    requires Tiled(p, units, slots, NONE) && Disjoint(slots) && a in slots && MIN_SLOT <= k < slots[a].len
    requires c in Split(slots, a, k, Live(f))
    ensures Placed(p, units, Split(slots, a, k, Live(f)), NONE, c)
  {
    assert Placed(p, units, slots, NONE, a);
    if c != a + k { assert Placed(p, units, slots, NONE, c); }
  }

  lemma LodgedPartTiles(p: Params, s: Fifo, a: int, k: int, f: nat)
    requires s.order != [] && Tiles(p, s.units, s.slots, s.order[0]) && a in s.slots && MIN_SLOT <= k < s.slots[a].len
    requires Multiple(p.align, k)
    ensures a + k !in s.slots && Tiles(p, s.units, Split(s.slots, a, k, Live(f)), s.order[0])
  {
    var slots' := Split(s.slots, a, k, Live(f));
    assert Placed(p, s.units, s.slots, NONE, a);
    assert Tiled(p, s.units, slots', NONE) by {
      forall c | c in slots' ensures Placed(p, s.units, slots', NONE, c) {
        PartPlaced(p, s.units, s.slots, a, k, f, c);
      }
    }
    MultipleSum(p.align, a, k);
    MultipleSum(p.align, s.slots[a].len, k);
  }

  lemma LodgedPartKeeps(p: Params, s: Fifo, a: int, k: int, f: nat)
    requires FifoInv(p, s, a) && a in s.slots && MIN_SLOT <= k < s.slots[a].len && Multiple(p.align, k) && f !in s.home
    ensures FifoInv(p, LodgedPart(s, a, k, f), a + k)
    ensures var t := LodgedPart(s, a, k, f); t.slots[a + k] == Slot(s.slots[a].unit, s.slots[a].len - k, Limbo)
  {
    var s' := LodgedPart(s, a, k, f);
    LodgedPartTiles(p, s, a, k, f);
    QueueAppend(s.slots, s'.slots, s.q, a);
    forall c | c in s.q ensures c in s.slots && c != a && c != a + k && !s.slots[c].kind.Limbo? {
      assert Settled(s.slots, c);
    }
    Youngest(s.slots, s'.slots, s.home, s.born, s.clock, s.q, a, f);
  }

  // ----- an empty slot at the front of the FIFO

  /** The first entry of the FIFO is an empty slot that begins where slot `x` ends, */
  predicate JoinsNext(slots: Slots, q: seq<int>, x: int)
  {
    x in slots && q != [] && q[0] in slots && slots[q[0]].kind.Free? && q[0] == x + slots[x].len
  }

  /** or ends where slot `x` begins. */
  predicate JoinsPrev(slots: Slots, q: seq<int>, x: int)
  {
    x in slots && q != [] && q[0] in slots && slots[q[0]].kind.Free? && q[0] + slots[q[0]].len == x
  }

  function PrependedSlots(slots: Slots, q: seq<int>, x: int): Slots
    requires x in slots
  {
    if JoinsNext(slots, q, x) then SetKind(Merge(slots, x), x, Free)
    else if JoinsPrev(slots, q, x) then SetKind(Merge(slots, q[0]), q[0], Free)
    else SetKind(slots, x, Free)
  }

  function PrependedQueue(slots: Slots, q: seq<int>, x: int): seq<int>
  {
    if JoinsNext(slots, q, x) then [x] + q[1..]
    else if JoinsPrev(slots, q, x) then q
    else [x] + q
  }

  /** `fifo_prepend_empty` for the slot in transit. */
  function Prepended(s: Fifo, x: int): Fifo
    requires x in s.slots
  {
    s.(slots := PrependedSlots(s.slots, s.q, x), q := PrependedQueue(s.slots, s.q, x))
  }

  lemma FreedTiles(p: Params, units: Units, slots: Slots, cu: int, x: int)
    requires Tiles(p, units, slots, cu) && x in slots && MIN_SLOT <= slots[x].len
    ensures Tiles(p, units, SetKind(slots, x, Free), cu)
  {
    var slots' := SetKind(slots, x, Free);
    assert Tiled(p, units, slots', NONE) by {
      forall c | c in slots' ensures Placed(p, units, slots', NONE, c) {
        assert Placed(p, units, slots, NONE, c);
      }
    }
  }

  lemma MergedTiles(p: Params, units: Units, slots: Slots, cu: int, a: int)
    requires Tiles(p, units, slots, cu) && a in slots && a + slots[a].len in slots && MIN_SLOT <= slots[a].len
    ensures Tiles(p, units, SetKind(Merge(slots, a), a, Free), cu)
  {
    var slots' := Merge(slots, a);
    assert Placed(p, units, slots, NONE, a) && Placed(p, units, slots, NONE, a + slots[a].len);
    NoSlotAtEnd(p, units, slots, cu, slots[a].unit);
    assert Tiled(p, units, slots', NONE) by {
      forall c | c in slots' ensures Placed(p, units, slots', NONE, c) {
        MergePlaced(p, units, slots, NONE, a, c);
      }
    }
    MultipleSum(p.align, slots[a].len, slots[a + slots[a].len].len);
    FreedTiles(p, units, slots', cu, a);
  }

  lemma NoSlotAtEnd(p: Params, units: Units, slots: Slots, cu: int, u: int)
    requires UnitsFit(p, units, cu) && Tiled(p, units, slots, NONE) && u in units
    ensures units[u].cur !in slots
  {
    forall c | c in slots ensures c != units[u].cur {
      assert Placed(p, units, slots, NONE, c) && UnitFits(p, cu, u, units[u]) &&
        UnitFits(p, cu, slots[c].unit, units[slots[c].unit]);
    }
  }

  lemma SortedFront(slots: Slots, slots': Slots, born: map<nat, nat>, q: seq<int>, x: int)
    requires Sorted(slots, born, q)
    requires forall a | a in q :: a in slots && a in slots' && slots'[a].kind == slots[a].kind
    requires x in slots' && slots'[x].kind.Free?
    ensures Sorted(slots', born, [x] + q)
  {
    SortedSame(slots, slots', born, born, q);
    forall i, j | 0 <= i < j < |[x] + q| ensures Before(slots', born, ([x] + q)[i], ([x] + q)[j]) {
      assert q[j - 1] in q;
      if i > 0 { assert Before(slots', born, q[i - 1], q[j - 1]); }
    }
  }

  lemma PrependedNew(p: Params, s: Fifo, x: int)
    requires FifoInv(p, s, x) && x in s.slots && MIN_SLOT <= s.slots[x].len
    requires !JoinsNext(s.slots, s.q, x) && !JoinsPrev(s.slots, s.q, x)
    ensures FifoInv(p, Prepended(s, x), NONE)
  {
    var s' := Prepended(s, x);
    FreedTiles(p, s.units, s.slots, s.order[0], x);
    QueueAppend(s.slots, s'.slots, s.q, x);
    forall c | c in s.q ensures c in s.slots && c != x {
      assert Settled(s.slots, c);
    }
    SortedFront(s.slots, s'.slots, s.born, s.q, x);
  }

  lemma PrependedNext(p: Params, s: Fifo, x: int)
    requires FifoInv(p, s, x) && x in s.slots && MIN_SLOT <= s.slots[x].len && JoinsNext(s.slots, s.q, x)
    ensures FifoInv(p, Prepended(s, x), NONE)
  {
    var s' := Prepended(s, x);
    var b := s.q[0];
    MergedTiles(p, s.units, s.slots, s.order[0], x);
    FrontOnce(s.slots, s.q);
    var mid := Merge(s.slots, x);
    QueueWithout(s.slots, mid, s.q, b);
    QueueAppend(mid, s'.slots, s.q[1..], x);
    forall c | c in s.q[1..] ensures c in s.slots && c in s'.slots && s'.slots[c].kind == s.slots[c].kind {
      assert Settled(mid, c) && Settled(s.slots, c);
    }
    SortedPart(s.slots, s.born, s.q, b);
    SortedFront(s.slots, s'.slots, s.born, s.q[1..], x);
  }

  lemma FrontOnce(slots: Slots, q: seq<int>)
    requires Queue(slots, q) && q != []
    ensures Without(q, q[0]) == q[1..]
  {
    assert IndexOf(q, q[0]) == 0;
    assert q[..0] + q[1..] == q[1..];
  }

  lemma PrependedPrev(p: Params, s: Fifo, x: int)
    requires FifoInv(p, s, x) && x in s.slots && MIN_SLOT <= s.slots[x].len && !JoinsNext(s.slots, s.q, x)
    requires JoinsPrev(s.slots, s.q, x)
    ensures FifoInv(p, Prepended(s, x), NONE)
  {
    var s' := Prepended(s, x);
    var b := s.q[0];
    assert Placed(p, s.units, s.slots, NONE, b);
    MergedTiles(p, s.units, s.slots, s.order[0], b);
    forall c ensures c in s.q <==> Settled(s'.slots, c) {
      assert Settled(s.slots, c) || !Settled(s.slots, c);
    }
    forall c | c in s.q ensures c in s.slots && c in s'.slots && s'.slots[c].kind == s.slots[c].kind {
      assert Settled(s.slots, c);
    }
    SortedSame(s.slots, s'.slots, s.born, s.born, s.q);
  }

  lemma PrependedKeeps(p: Params, s: Fifo, x: int)
    requires FifoInv(p, s, x) && x in s.slots && MIN_SLOT <= s.slots[x].len
    ensures FifoInv(p, Prepended(s, x), NONE)
  {
    if JoinsNext(s.slots, s.q, x) {
      PrependedNext(p, s, x);
    } else if JoinsPrev(s.slots, s.q, x) {
      PrependedPrev(p, s, x);
    } else {
      PrependedNew(p, s, x);
    }
  }

  // ----- the append point

  /** The append point of the current unit moves by `len`. */
  lemma MovedUnits(p: Params, units: Units, cu: int, len: int)
    requires UnitsFit(p, units, cu)
    requires 0 < len == units[cu].end - units[cu].cur || 0 < len <= units[cu].end - units[cu].cur - EndHole(p)
    ensures UnitsFit(p, Extend(units, cu, len), cu)
  {
    var units' := Extend(units, cu, len);
    forall u | u in units' ensures UnitFits(p, cu, u, units'[u]) {
      assert UnitFits(p, cu, u, units[u]);
    }
  }

  /** Where an append lands is on the slot grid. */
  lemma AppendOnGrid(p: Params, units: Units, slots: Slots, cu: int, k: int)
    requires Tiles(p, units, slots, cu) && Multiple(p.align, k)
    ensures Multiple(p.align, units[cu].cur) && Multiple(p.align, AppendLen(p, units[cu], k))
  {
    var r := units[cu];
    assert UnitFits(p, cu, cu, r);
    CurGrid(p, units, slots, cu, cu);
    MultipleSum(p.align, r.end - cu, cu);
    MultipleSum(p.align, r.end, r.cur);
  }

  lemma {:induction false} CurGrid(p: Params, units: Units, slots: Slots, u: int, c: int)
    requires Tiled(p, units, slots, NONE) && Grid(p, slots) && u in units && u <= units[u].cur && Multiple(p.align, u)
    requires c == u || (c in slots && slots[c].unit == u)
    ensures Multiple(p.align, units[u].cur)
    decreases units[u].cur - c
  {
    if units[u].cur != u {
      var a := if c in slots && slots[c].unit == u then c else u;
      assert Placed(p, units, slots, NONE, a);
      var e := a + slots[a].len;
      MultipleSum(p.align, a, slots[a].len);
      if e != units[u].cur { CurGrid(p, units, slots, u, e); }
    }
  }

  /** A new slot in transit at the append point. */
  function Opened(s: Fifo, len: int): Fifo
    requires s.order != [] && s.order[0] in s.units
  {
    s.(units := Extend(s.units, s.order[0], len), slots := Push(s.units, s.slots, s.order[0], len, Limbo))
  }

  lemma PushPlaced(p: Params, units: Units, slots: Slots, cu: int, len: int, c: int)
    requires Tiled(p, units, slots, NONE) && UnitsFit(p, units, cu) && units[cu].cur !in slots && 0 < len
    requires c in Push(units, slots, cu, len, Limbo)
    ensures Placed(p, Extend(units, cu, len), Push(units, slots, cu, len, Limbo), NONE, c)
  {
    assert UnitFits(p, cu, cu, units[cu]);
    if c in slots { assert Placed(p, units, slots, NONE, c); }
  }

  lemma OpenedTiles(p: Params, s: Fifo, len: int)
    requires s.order != [] && Tiles(p, s.units, s.slots, s.order[0]) && Multiple(p.align, len)
    requires var r := s.units[s.order[0]]; 0 < len == r.end - r.cur || 0 < len <= r.end - r.cur - EndHole(p)
    ensures var t := Opened(s, len); Tiles(p, t.units, t.slots, s.order[0]) && s.units[s.order[0]].cur !in s.slots
  {
    var cu := s.order[0];
    var a := s.units[cu].cur;
    var t := Opened(s, len);
    NoSlotAtEnd(p, s.units, s.slots, cu, cu);
    MovedUnits(p, s.units, cu, len);
    assert Tiled(p, t.units, t.slots, NONE) by {
      assert UnitFits(p, cu, cu, s.units[cu]);
      forall c | c in t.slots ensures Placed(p, t.units, t.slots, NONE, c) {
        PushPlaced(p, s.units, s.slots, cu, len, c);
      }
    }
    ApartFromEnd(p, s.units, s.slots, cu, len);
    DisjointPlus(s.slots, a, Slot(cu, len, Limbo));
    AppendOnGrid(p, s.units, s.slots, cu, len);
  }

  lemma ApartFromEnd(p: Params, units: Units, slots: Slots, cu: int, len: int)
    requires Tiles(p, units, slots, cu) && 0 < len <= units[cu].end - units[cu].cur
    ensures forall c | c in slots ::
      (c < units[cu].cur ==> c + slots[c].len <= units[cu].cur) && (units[cu].cur < c ==> units[cu].cur + len <= c)
  {
    var a := units[cu].cur;
    forall c | c in slots ensures (c < a ==> c + slots[c].len <= a) && (a < c ==> a + len <= c) {
      assert Placed(p, units, slots, NONE, c) && UnitFits(p, cu, cu, units[cu]) &&
        UnitFits(p, cu, slots[c].unit, units[slots[c].unit]);
    }
  }

  lemma OpenedKeeps(p: Params, s: Fifo, len: int)
    requires FifoInv(p, s, NONE) && Multiple(p.align, len)
    requires var r := s.units[s.order[0]]; 0 < len == r.end - r.cur || 0 < len <= r.end - r.cur - EndHole(p)
    ensures FifoInv(p, Opened(s, len), s.units[s.order[0]].cur)
  {
    var t := Opened(s, len);
    OpenedTiles(p, s, len);
    forall c ensures c in s.q <==> Settled(t.slots, c) {
      assert Settled(s.slots, c) || !Settled(s.slots, c);
    }
    forall c | c in s.q ensures c in s.slots && c in t.slots && t.slots[c].kind == s.slots[c].kind {
      assert Settled(s.slots, c);
    }
    SortedSame(s.slots, t.slots, s.born, s.born, s.q);
  }

  /** The slot in transit, which reaches the append point, grows by `len` unclaimed bytes. */
  function Stretched(s: Fifo, a: int, len: int): Fifo
    requires a in s.slots && s.order != [] && s.order[0] in s.units
  {
    s.(units := Extend(s.units, s.order[0], len), slots := s.slots[a := s.slots[a].(len := s.slots[a].len + len)])
  }

  lemma StretchPlaced(p: Params, s: Fifo, a: int, len: int, c: int)
    requires s.order != [] && Tiles(p, s.units, s.slots, s.order[0]) && a in s.slots && 0 < len
    requires s.slots[a].unit == s.order[0] && a + s.slots[a].len == s.units[s.order[0]].cur
    requires c in s.slots
    ensures Placed(p, Stretched(s, a, len).units, Stretched(s, a, len).slots, NONE, c)
  {
    assert Placed(p, s.units, s.slots, NONE, c) && Placed(p, s.units, s.slots, NONE, a);
  }

  lemma StretchedTiles(p: Params, s: Fifo, a: int, len: int)
    requires s.order != [] && Tiles(p, s.units, s.slots, s.order[0]) && Multiple(p.align, len) && a in s.slots
    requires s.slots[a].unit == s.order[0] && a + s.slots[a].len == s.units[s.order[0]].cur
    requires var r := s.units[s.order[0]]; 0 < len == r.end - r.cur || 0 < len <= r.end - r.cur - EndHole(p)
    ensures var t := Stretched(s, a, len); Tiles(p, t.units, t.slots, s.order[0])
  {
    var cu := s.order[0];
    var t := Stretched(s, a, len);
    MovedUnits(p, s.units, cu, len);
    assert Tiled(p, t.units, t.slots, NONE) by {
      assert Placed(p, s.units, s.slots, NONE, a);
      forall c | c in t.slots ensures Placed(p, t.units, t.slots, NONE, c) {
        StretchPlaced(p, s, a, len, c);
      }
    }
    ApartFromEnd(p, s.units, s.slots, cu, len);
    NoSlotAtEnd(p, s.units, s.slots, cu, cu);
    MultipleSum(p.align, s.slots[a].len, len);
  }

  lemma StretchedKeeps(p: Params, s: Fifo, a: int, len: int)
    requires FifoInv(p, s, a) && Multiple(p.align, len) && a in s.slots
    requires s.slots[a].unit == s.order[0] && a + s.slots[a].len == s.units[s.order[0]].cur
    requires var r := s.units[s.order[0]]; 0 < len == r.end - r.cur || 0 < len <= r.end - r.cur - EndHole(p)
    ensures FifoInv(p, Stretched(s, a, len), a)
  {
    var t := Stretched(s, a, len);
    StretchedTiles(p, s, a, len);
    forall c ensures c in s.q <==> Settled(t.slots, c) {
      assert Settled(s.slots, c) || !Settled(s.slots, c);
    }
    forall c | c in s.q ensures c in s.slots && c in t.slots && t.slots[c].kind == s.slots[c].kind {
      assert Settled(s.slots, c);
    }
    SortedSame(s.slots, t.slots, s.born, s.born, s.q);
  }
}
