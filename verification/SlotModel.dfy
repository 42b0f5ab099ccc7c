/** The shared code cache as a map from addresses to slots: the specification that the
    pointer-level allocator in SharedCache.dfy implements. */
module SlotModel {
  import opened Layout

  /** What a slot holds: a free-list entry, a fragment, or bytes in transit between the two. */
  datatype Kind = Free | Limbo | Live(f: nat)

  datatype Slot = Slot(unit: int, len: int, kind: Kind)

  /** A unit is named by its start address. */
  datatype Unit = Unit(cur: int, end: int, reserved: int, full: bool)

  type Slots = map<int, Slot>
  type Units = map<int, Unit>

  /** `order` is the cache's own unit list, newest first; `flush` holds its units that wait to
      be flushed. `foot` maps the end of each free entry to its length, `home` each fragment to
      its slot, `follows` is the set of fragments marked as following a free entry, and
      `lists` are the free lists. */
  datatype State = State(
    units: Units, order: seq<int>, flush: seq<int>, slots: Slots,
    foot: map<int, int>, home: map<nat, int>, follows: set<nat>, lists: seq<seq<int>>)

  const NONE: int := -1

  // ----- the invariant; `x` is the slot in transit, `cu` the current unit

  ghost predicate UnitOk(p: Params, u: int, r: Unit)
  {
    && 0 < u <= r.cur <= r.end <= r.reserved <= u + MAX_ENTRY
    && u < r.end
    && (r.end - u) % PAGE == 0
    && (r.reserved - u) % PAGE == 0
    && p.maxUnit <= r.reserved - u
    && Multiple(p.align, u)
  }

  /** Only the current unit has room at its end, and then never a useless sliver. */
  ghost predicate Gap(p: Params, current: bool, r: Unit)
  {
    && (r.full <==> r.cur == r.end)
    && (r.cur == r.end || (current && r.end - r.cur >= EndHole(p)))
  }

  ghost predicate UnitsOk(p: Params, units: Units, cu: int)
  {
    && (cu == NONE || cu in units)
    && (forall u | u in units :: UnitOk(p, u, units[u]) && Gap(p, u == cu, units[u]))
    && (forall u, v | u in units && v in units && u < v :: units[u].reserved < v)
  }

  /** The physical walk of a unit starts on a slot. */
  ghost predicate Started(units: Units, slots: Slots)
  {
    forall u | u in units :: units[u].cur == u || (u in slots && slots[u].unit == u)
  }

  /** The slot at `a` lies in its unit; the next slot or the append point begins where it ends;
      and a slot that reaches the end of the current unit is as large as an end hole. */
  ghost predicate Placed(p: Params, units: Units, slots: Slots, cu: int, a: int)
    requires a in slots
  {
    var t := slots[a];
    var e := a + t.len;
    && t.unit in units
    && 0 < t.unit <= a
    && 0 < t.len
    && e <= units[t.unit].cur
    && (t.kind.Limbo? || MIN_SLOT <= t.len)
    && (e == units[t.unit].cur || (e in slots && slots[e].unit == t.unit))
    && (t.unit == cu && e == units[cu].end ==> t.len >= EndHole(p))
  }

  ghost predicate Tiled(p: Params, units: Units, slots: Slots, cu: int)
  {
    && NONE !in slots
    && (forall a {:trigger Placed(p, units, slots, cu, a)} | a in slots :: Placed(p, units, slots, cu, a))
    && Started(units, slots)
  }

  ghost predicate Disjoint(slots: Slots)
  {
    forall a, b | a in slots && b in slots && a < b :: a + slots[a].len <= b
  }

  ghost predicate Grid(p: Params, slots: Slots)
  {
    forall a | a in slots :: Multiple(p.align, a) && Multiple(p.align, slots[a].len)
  }

  /** A free entry has a footer, is not followed by another free entry and does not end at the
      append point. A fragment is marked exactly when a free entry ends where it begins; the
      slot behind `x` is open. */
  ghost predicate Kinded(units: Units, slots: Slots, foot: map<int, int>, home: map<nat, int>, follows: set<nat>,
                         x: int, cu: int, a: int)
    requires a in slots
  {
    var t := slots[a];
    var e := a + t.len;
    && (t.kind.Limbo? <==> a == x)
    && (t.kind.Free? ==>
          && e in foot && foot[e] == t.len
          && (e in slots ==> !slots[e].kind.Free?)
          && (t.unit == cu && cu in units ==> e != units[cu].cur))
    && (t.kind.Live? ==>
          && t.kind.f in home && home[t.kind.f] == a
          && (AfterLimbo(slots, x, a) || (t.kind.f in follows <==> a in foot)))
  }

  ghost predicate AfterLimbo(slots: Slots, x: int, a: int)
  {
    x in slots && a == x + slots[x].len
  }

  ghost predicate Tagged(units: Units, slots: Slots, foot: map<int, int>, home: map<nat, int>, follows: set<nat>,
                         x: int, cu: int)
  {
    && (x == NONE || x in slots)
    && (forall a {:trigger Kinded(units, slots, foot, home, follows, x, cu, a)} | a in slots ::
          Kinded(units, slots, foot, home, follows, x, cu, a))
  }

  ghost predicate FootOk(slots: Slots, e: int, len: int)
  {
    e - len in slots && slots[e - len].kind.Free? && slots[e - len].len == len
  }

  ghost predicate Footers(slots: Slots, foot: map<int, int>)
  {
    forall e {:trigger FootOk(slots, e, foot[e])} | e in foot :: FootOk(slots, e, foot[e])
  }

  ghost predicate Homes(slots: Slots, home: map<nat, int>, follows: set<nat>)
  {
    && (forall f | f in home :: home[f] in slots && slots[home[f]].kind == Live(f))
    && (forall f | f in follows :: f in home)
  }

  ghost predicate NoDup(l: seq<int>)
  {
    forall i, j | 0 <= i < j < |l| :: l[i] != l[j]
  }

  /** The length of the free entry at `a`, or -1. */
  function FreeLen(slots: Slots, a: int): int
  {
    if a in slots && slots[a].kind.Free? then slots[a].len else -1
  }

  ghost predicate Entry(slots: Slots, b: int, a: int)
  {
    FreeLen(slots, a) >= 0 && Bucket(FreeLen(slots, a)) == b
  }

  /** List `b` holds the free entries of its size class, each once, and nothing else. */
  ghost predicate ListOk(slots: Slots, l: seq<int>, b: int)
  {
    NoDup(l) && forall a {:trigger Entry(slots, b, a)} :: a in l <==> Entry(slots, b, a)
  }

  ghost predicate Listed(slots: Slots, lists: seq<seq<int>>)
  {
    |lists| == BUCKET_COUNT && forall b | 0 <= b < BUCKET_COUNT :: ListOk(slots, lists[b], b)
  }

  ghost predicate Ordered(units: Units, order: seq<int>, flush: seq<int>)
  {
    && (forall u | u in units :: u in order || u in flush)
    && (forall u | u in order :: u in units && u !in flush)
    && (forall u | u in flush :: u in units)
    && NoDup(order) && NoDup(flush)
  }

  ghost predicate Laid(p: Params, units: Units, slots: Slots, cu: int)
  {
    UnitsOk(p, units, cu) && Tiled(p, units, slots, cu) && Disjoint(slots) && Grid(p, slots)
  }

  ghost predicate Marked(s: State, x: int, cu: int)
  {
    && Tagged(s.units, s.slots, s.foot, s.home, s.follows, x, cu)
    && Footers(s.slots, s.foot) && Homes(s.slots, s.home, s.follows)
  }

  ghost predicate Inv(p: Params, s: State, x: int, cu: int)
  {
    && Laid(p, s.units, s.slots, cu) && Marked(s, x, cu)
    && Listed(s.slots, s.lists) && Ordered(s.units, s.order, s.flush)
  }

  // ----- free lists as sequences

  function IndexOf(l: seq<int>, a: int): (i: int)
    requires a in l
    ensures 0 <= i < |l| && l[i] == a
  {
    if l[0] == a then 0 else 1 + IndexOf(l[1..], a)
  }

  function Without(l: seq<int>, a: int): seq<int>
  {
    if a in l then var i := IndexOf(l, a); l[..i] + l[i + 1..] else l
  }

  lemma RemoveAt(l: seq<int>, i: int)
    requires 0 <= i < |l| && NoDup(l)
    ensures NoDup(l[..i] + l[i + 1..])
    ensures forall c :: c in l[..i] + l[i + 1..] <==> c in l && c != l[i]
  {
    assert forall c :: c in l ==> c in l[..i] || c == l[i] || c in l[i + 1..];
  }

  lemma WithoutKeeps(l: seq<int>, a: int)
    requires a in l && NoDup(l)
    ensures NoDup(Without(l, a))
    ensures forall c :: c in Without(l, a) <==> c in l && c != a
  {
    RemoveAt(l, IndexOf(l, a));
  }

  /** `remove_from_free_list` */
  function Delist(lists: seq<seq<int>>, len: int, a: int): seq<seq<int>>
    requires |lists| == BUCKET_COUNT && 0 <= len
  {
    lists[Bucket(len) := Without(lists[Bucket(len)], a)]
  }

  /** The push at the end of `add_to_free_list`. */
  function Enlist(lists: seq<seq<int>>, len: int, a: int): seq<seq<int>>
    requires |lists| == BUCKET_COUNT && 0 <= len
  {
    lists[Bucket(len) := [a] + lists[Bucket(len)]]
  }

  lemma ListedSame(slots: Slots, slots': Slots, lists: seq<seq<int>>)
    requires Listed(slots, lists)
    requires forall a :: FreeLen(slots, a) == FreeLen(slots', a)
    ensures Listed(slots', lists)
  {
    forall b | 0 <= b < BUCKET_COUNT ensures ListOk(slots', lists[b], b) {
      assert ListOk(slots, lists[b], b);
      forall a ensures a in lists[b] <==> Entry(slots', b, a) {
        assert Entry(slots, b, a) == Entry(slots', b, a);
      }
    }
  }

  lemma DelistKeeps(slots: Slots, slots': Slots, lists: seq<seq<int>>, a: int)
    requires Listed(slots, lists) && FreeLen(slots, a) >= 0
    requires forall c :: FreeLen(slots', c) == if c == a then -1 else FreeLen(slots, c)
    ensures a in lists[Bucket(FreeLen(slots, a))]
    ensures Listed(slots', Delist(lists, FreeLen(slots, a), a))
  {
    var k := Bucket(FreeLen(slots, a));
    assert Entry(slots, k, a);
    WithoutKeeps(lists[k], a);
    var lists' := Delist(lists, FreeLen(slots, a), a);
    forall b | 0 <= b < BUCKET_COUNT ensures ListOk(slots', lists'[b], b) {
      assert ListOk(slots, lists[b], b);
      forall c ensures c in lists'[b] <==> Entry(slots', b, c) {
        assert c != a ==> Entry(slots, b, c) == Entry(slots', b, c);
        assert Entry(slots, b, a) <==> b == k;
      }
    }
  }

  lemma EnlistKeeps(slots: Slots, slots': Slots, lists: seq<seq<int>>, a: int, len: int)
    requires Listed(slots, lists) && FreeLen(slots, a) < 0 <= len
    requires forall c :: FreeLen(slots', c) == if c == a then len else FreeLen(slots, c)
    ensures Listed(slots', Enlist(lists, len, a))
  {
    var k := Bucket(len);
    var lists' := Enlist(lists, len, a);
    forall b | 0 <= b < BUCKET_COUNT ensures ListOk(slots', lists'[b], b) {
      assert ListOk(slots, lists[b], b);
      assert !Entry(slots, b, a);
      forall c ensures c in lists'[b] <==> Entry(slots', b, c) {
        assert c != a ==> Entry(slots, b, c) == Entry(slots', b, c);
      }
    }
  }
}
