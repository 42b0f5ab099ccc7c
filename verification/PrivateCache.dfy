/** The private code cache of Simulator/core/fcache.c: fragments and empty slots chained in a FIFO
    whose first entry points back to the last. */
module PrivateCache {
  import opened Layout
  import opened SlotModel
  import opened SlotLayout
  import opened PrivateModel
  import opened PrivateOps
  import opened PrivateShrink
  import opened PrivateEviction
  import opened PrivateGrowth
  import opened PrivateRuns
  import PrivateFrame

  /** A chained record: a fragment or an `empty_slot_t`. */
  datatype Ref = Frag(f: nat) | Empty(n: nat)

  /** `start` is the header address of the slot and `size` its length. */
  datatype Node = Node(start: int, size: int, next: Option<Ref>, prev: Ref)

  type Nodes = map<Ref, Node>

  ghost predicate LinkOk(nodes: Nodes, l: seq<Ref>, i: int)
    requires 0 <= i < |l|
  {
    && l[i] in nodes
    && nodes[l[i]].next == (if i + 1 < |l| then Some(l[i + 1]) else None)
    && nodes[l[i]].prev == (if i > 0 then l[i - 1] else l[|l| - 1])
  }

  ghost predicate Distinct(l: seq<Ref>)
  {
    forall i, j | 0 <= i < j < |l| :: l[i] != l[j]
  }

  /** The chain that starts at `fifo` runs through `l`; its head points back to its tail. */
  ghost predicate Chained(nodes: Nodes, fifo: Option<Ref>, l: seq<Ref>)
  {
    && Distinct(l) && fifo == (if l == [] then None else Some(l[0]))
    && forall i {:trigger LinkOk(nodes, l, i)} | 0 <= i < |l| :: LinkOk(nodes, l, i)
  }

  /** Entry `i` is linked past entry `n`, if it was linked to it, and as before otherwise. */
  ghost predicate Unhooked(nodes: Nodes, nodes': Nodes, l: seq<Ref>, n: int, i: int)
    requires 0 <= n < |l| && 0 <= i < |l|
  {
    var f, r := l[n], l[i];
    && f in nodes && r in nodes && r in nodes'
    && nodes'[r].next == (if i + 1 == n then nodes[f].next else nodes[r].next)
    && nodes'[r].prev == (if i == n + 1 || (i == 0 && n == |l| - 1) then nodes[f].prev else nodes[r].prev)
  }

  lemma ChainWithout(nodes: Nodes, nodes': Nodes, fifo: Option<Ref>, l: seq<Ref>, n: int)
    requires Chained(nodes, fifo, l) && 0 <= n < |l|
    requires forall i {:trigger Unhooked(nodes, nodes', l, n, i)} | 0 <= i < |l| && i != n ::
      Unhooked(nodes, nodes', l, n, i)
    ensures var l' := l[..n] + l[n + 1..]; Chained(nodes', if l' == [] then None else Some(l'[0]), l')
  {
    var l' := l[..n] + l[n + 1..];
    assert LinkOk(nodes, l, n);
    forall k | 0 <= k < |l'| ensures LinkOk(nodes', l', k) {
      var i := if k < n then k else k + 1;
      assert l'[k] == l[i];
      assert LinkOk(nodes, l, i) && Unhooked(nodes, nodes', l, n, i);
    }
  }

  /** The slots keep their places and lengths. */
  ghost predicate SameSlots(nodes: Nodes, nodes': Nodes)
  {
    nodes.Keys == nodes'.Keys && forall r | r in nodes ::
      nodes'[r].start == nodes[r].start && nodes'[r].size == nodes[r].size
  }

  /** The record of the slot at `a`, and the word in the slot that points to it. */
  ghost predicate Cell(word: map<int, Ref>, nodes: Nodes, slots: Slots, a: int, r: Ref)
  {
    && a in slots && a in word && word[a] == r && r in nodes && nodes[r].start == a && nodes[r].size == slots[a].len
    && match slots[a].kind
       case Free => r.Empty?
       case Limbo => false
       case Live(f) => r == Frag(f)
  }

  ghost predicate Cells(word: map<int, Ref>, nodes: Nodes, slots: Slots, q: seq<int>, l: seq<Ref>)
  {
    CellsBut(word, nodes, slots, q, l, NONE)
  }

  /** Every entry of the FIFO but entry `e` is the record of a slot. */
  ghost predicate CellsBut(word: map<int, Ref>, nodes: Nodes, slots: Slots, q: seq<int>, l: seq<Ref>, e: int)
  {
    |q| == |l| && forall i {:trigger Cell(word, nodes, slots, q[i], l[i])} | 0 <= i < |q| && i != e ::
      Cell(word, nodes, slots, q[i], l[i])
  }

  ghost predicate Unused(nodes: Nodes, heap: nat)
  {
    forall r | r in nodes && r.Empty? :: r.n < heap
  }

  lemma CellsWithout(word: map<int, Ref>, nodes: Nodes, slots: Slots, q: seq<int>, l: seq<Ref>, n: int)
    requires CellsBut(word, nodes, slots, q, l, n) && 0 <= n < |l|
    ensures Cells(word, nodes, slots, q[..n] + q[n + 1..], l[..n] + l[n + 1..])
  {
    var q', l' := q[..n] + q[n + 1..], l[..n] + l[n + 1..];
    forall i | 0 <= i < |q'| ensures Cell(word, nodes, slots, q'[i], l'[i]) {
      var j := if i < n then i else i + 1;
      assert Cell(word, nodes, slots, q[j], l[j]);
    }
  }

  lemma WithoutIs(q: seq<int>, n: int)
    requires NoDup(q) && 0 <= n < |q|
    ensures q[n] in q && Without(q, q[n]) == q[..n] + q[n + 1..]
  {
  }

  /** The record of a slot, found through its first word. */
  lemma CellAt(word: map<int, Ref>, nodes: Nodes, slots: Slots, q: seq<int>, l: seq<Ref>, a: int) returns (n: int)
    requires Cells(word, nodes, slots, q, l) && Queue(slots, q) && Settled(slots, a)
    ensures 0 <= n < |l| == |q| && q[n] == a && Cell(word, nodes, slots, a, l[n])
  {
    n := IndexOf(q, a);
    assert Cell(word, nodes, slots, q[n], l[n]);
  }

  datatype Snapshot =
    Snapshot(abs: Fifo, link: seq<Ref>, units: Units, word: map<int, Ref>, nodes: Nodes, fifo: Option<Ref>)

  class Cache {
    const p: Params
    var units: Units
    /** The unit list, newest first. */
    var order: seq<int>
    /** The first word of every slot. */
    var word: map<int, Ref>
    var nodes: Nodes
    var fifo: Option<Ref>
    /** The next record the heap hands out for an empty slot. */
    var heap: nat
    ghost var link: seq<Ref>
    ghost var abs: Fifo

    /** `fcache_cache_init` with its first unit */
    constructor (params: Params, u: int, r: Unit)
      requires UnitFits(params, u, u, r) && r.cur == u
      ensures Valid() && p == params && abs == Initial(u, r)
    {
      p := params;
      units, order := map[u := r], [u];
      word, nodes, fifo, heap := map[], map[], None, 0;
      link, abs := [], Initial(u, r);
      InitialKeeps(params, u, r);
    }

    /** Memory agrees with the specification while slot `x` is in transit. */
    ghost predicate Mid(x: int)
      reads this
    {
      && FifoInv(p, abs, x) && units == abs.units && order == abs.order
      && Chained(nodes, fifo, link) && Cells(word, nodes, abs.slots, abs.q, link) && Unused(nodes, heap)
    }

    ghost predicate Valid()
      reads this
    {
      Mid(NONE)
    }

    /** `fifo_append` */
    method FifoAppend(f: Ref, ghost l: seq<Ref>)
      requires Chained(nodes, fifo, l) && f in nodes && f !in l
      modifies this`nodes, this`fifo
      ensures Chained(nodes, fifo, l + [f]) && SameSlots(old(nodes), nodes)
    {
      nodes := nodes[f := nodes[f].(next := None)];
      if fifo.None? {
        fifo := Some(f);
        nodes := nodes[f := nodes[f].(prev := f)];
      } else {
        var head := fifo.value;
        assert LinkOk(old(nodes), l, 0) && LinkOk(old(nodes), l, |l| - 1);
        var tail := nodes[head].prev;
        nodes := nodes[f := nodes[f].(prev := tail)];
        nodes := nodes[tail := nodes[tail].(next := Some(f))];
        nodes := nodes[head := nodes[head].(prev := f)];
      }
      forall i | 0 <= i < |l + [f]| ensures LinkOk(nodes, l + [f], i) {
        if i < |l| { assert LinkOk(old(nodes), l, i); }
      }
    }

    /** `fifo_remove`, without the release of an empty slot's record */
    method FifoRemove(f: Ref, ghost l: seq<Ref>, ghost n: int)
      requires Chained(nodes, fifo, l) && 0 <= n < |l| && l[n] == f
      modifies this`nodes, this`fifo
      ensures Chained(nodes, fifo, l[..n] + l[n + 1..]) && SameSlots(old(nodes), nodes)
    {
      assert LinkOk(nodes, l, n) && LinkOk(nodes, l, 0);
      if n > 0 { assert LinkOk(nodes, l, n - 1); }
      if n + 1 < |l| { assert LinkOk(nodes, l, n + 1); }
      var next, prev := nodes[f].next, nodes[f].prev;
      if Some(f) == fifo {
        fifo := next;
      } else {
        nodes := nodes[prev := nodes[prev].(next := next)];
      }
      if next.None? {
        if fifo.Some? {
          nodes := nodes[fifo.value := nodes[fifo.value].(prev := prev)];
        }
      } else {
        nodes := nodes[next.value := nodes[next.value].(prev := prev)];
      }
      forall i | 0 <= i < |l| && i != n ensures Unhooked(old(nodes), nodes, l, n, i) {
        assert LinkOk(old(nodes), l, i);
      }
      ChainWithout(old(nodes), nodes, old(fifo), l, n);
    }

    /** `fifo_remove` on entry `n`, and its record is released. */
    method TakeOut(r: Ref, ghost n: int, ghost slots: Slots, ghost q: seq<int>)
      requires Chained(nodes, fifo, link) && CellsBut(word, nodes, slots, q, link, n) && Unused(nodes, heap)
      requires 0 <= n < |link| && link[n] == r
      modifies this`nodes, this`fifo, this`link
      ensures link == old(link)[..n] + old(link)[n + 1..]
      ensures Chained(nodes, fifo, link) && Cells(word, nodes, slots, q[..n] + q[n + 1..], link) && Unused(nodes, heap)
    {
      ghost var l, before := link, nodes;
      FifoRemove(r, link, n);
      link := l[..n] + l[n + 1..];
      CellsWithout(word, before, slots, q, l, n);
      ReleaseNode(before, nodes, fifo, word, slots, q[..n] + q[n + 1..], link, r);
      nodes := nodes - {r};
    }

    /** The first walk of `replace_fragments`: no victim may be pinned. */
    method CanReplace(u: int, a: int, k: int, pinned: set<nat>) returns (ok: bool)
      requires Valid() && a in abs.slots && abs.slots[a].unit == u && u in units
      ensures ok <==> !Barred(abs.slots, units[u].cur, a, k, pinned)
    {
      var pc, so_far := a, 0;
      while true
        invariant pc in abs.slots && abs.slots[pc].unit == u
        invariant Barred(abs.slots, units[u].cur, a, k, pinned) <==>
          Barred(abs.slots, units[u].cur, pc, k - so_far, pinned)
        decreases units[u].cur - pc
      {
        NextInUnit(p, abs, NONE, pc);
        assert Settled(abs.slots, pc);
        ghost var n := CellAt(word, nodes, abs.slots, abs.q, link, pc);
        var victim := word[pc];
        if victim.Frag? && victim.f in pinned {
          return false;
        }
        so_far := so_far + nodes[victim].size;
        if so_far >= k {
          return true;
        }
        pc := pc + nodes[victim].size;
        if pc == units[u].cur {
          return true;
        }
      }
    }

    /** `force_fragment_from_cache` on the first victim, at `a`. */
    method EvictFirst(a: int) returns (size: int)
      requires Valid() && a in abs.slots
      modifies this`nodes, this`fifo, this`link, this`abs
      ensures abs == Vacated(old(abs), a) && Mid(a) && size == old(abs).slots[a].len
    {
      assert Settled(abs.slots, a);
      ghost var n := CellAt(word, nodes, abs.slots, abs.q, link, a);
      size := nodes[word[a]].size;
      VacatedKeeps(p, abs, a);
      GoneFrom(abs.q, a);
      WithoutIs(abs.q, n);
      TakeOut(word[a], n, abs.slots, abs.q);
      CellsElsewhere(word, nodes, abs.slots, Vacated(abs, a).slots, Without(abs.q, a), link, a, a);
      abs := Vacated(abs, a);
    }

    /** `force_fragment_from_cache` on the victim behind the slot in transit. */
    method EvictNext(u: int, a: int, b: int, ghost k: int) returns (size: int)
      requires Mid(a) && Wanting(abs, a, k) && b == a + abs.slots[a].len && u == abs.slots[a].unit
      modifies this`nodes, this`fifo, this`link, this`abs
      ensures Mid(a) && Evicted(abs, a, k) == Evicted(old(abs), a, k)
      ensures a in abs.slots && abs.slots[a] == Slot(u, old(abs).slots[a].len + size, Limbo) && 0 < size
      ensures u in units && (Wanting(abs, a, k) <==> abs.slots[a].len < k && b + size != units[u].cur)
    {
      EvictUnroll(p, abs, a, k);
      assert Settled(abs.slots, b);
      ghost var n := CellAt(word, nodes, abs.slots, abs.q, link, b);
      size := nodes[word[b]].size;
      WithoutIs(abs.q, n);
      TakeOut(word[b], n, abs.slots, abs.q);
      AbsorbStep(p, abs, word, nodes, link, a);
      abs := Absorbed(abs, a);
      EvictUnroll(p, abs, a, k);
    }

    /** The second walk of `replace_fragments`. */
    method EvictRun(u: int, a: int, k: int) returns (so_far: int)
      requires Valid() && a in abs.slots && abs.slots[a].unit == u && u in units
      modifies this`nodes, this`fifo, this`link, this`abs
      ensures abs == Evicted(Vacated(old(abs), a), a, k) && Mid(a) && a in abs.slots && so_far == abs.slots[a].len
    {
      ghost var goal := Evicted(Vacated(abs, a), a, k);
      so_far := EvictFirst(a);
      var pc := a + so_far;
      EvictUnroll(p, abs, a, k);
      while so_far < k && pc != units[u].cur
        invariant Mid(a) && a in abs.slots && abs.slots[a].unit == u && so_far == abs.slots[a].len && pc == a + so_far
        invariant u in units
        invariant goal == Evicted(abs, a, k) && (so_far < k && pc != units[u].cur <==> Wanting(abs, a, k))
        decreases k - so_far
      {
        var size := EvictNext(u, a, pc, k);
        so_far := so_far + size;
        pc := pc + size;
      }
    }

    /** `fifo_prepend_empty` when the front of the FIFO begins where the bytes end: the front is
        enlarged downwards, */
    method EnlargeDown(head: Ref, x: int, size: int, ghost slots: Slots, ghost q: seq<int>, ghost e: int)
      requires Chained(nodes, fifo, link) && CellsBut(word, nodes, slots, q, link, e) && Unused(nodes, heap) && NoDup(q)
      requires x in slots && slots[x].kind.Limbo? && slots[x].len == size && JoinsNext(slots, q, x)
      requires fifo == Some(head) && e != 0
      modifies this`word, this`nodes
      ensures Chained(nodes, fifo, link) && Unused(nodes, heap)
      ensures CellsBut(word, nodes, PrependedSlots(slots, q, x), PrependedQueue(slots, q, x), link, e)
    {
      assert Cell(word, nodes, slots, q[0], link[0]) && LinkOk(nodes, link, 0);
      nodes := nodes[head := nodes[head].(start := x)];
      word := word[x := head];
      nodes := nodes[head := nodes[head].(size := nodes[head].size + size)];
      Rechained(old(nodes), nodes, fifo, link);
      ghost var slots', q' := PrependedSlots(slots, q, x), PrependedQueue(slots, q, x);
      forall i | 0 <= i < |q'| && i != e ensures Cell(word, nodes, slots', q'[i], link[i]) {
        assert Cell(old(word), old(nodes), slots, q[i], link[i]);
      }
    }

    /** or upwards when it ends where they begin; */
    method EnlargeUp(head: Ref, ghost x: int, size: int, ghost slots: Slots, ghost q: seq<int>, ghost e: int)
      requires Chained(nodes, fifo, link) && CellsBut(word, nodes, slots, q, link, e) && Unused(nodes, heap) && NoDup(q)
      requires x in slots && slots[x].kind.Limbo? && slots[x].len == size && !JoinsNext(slots, q, x)
      requires JoinsPrev(slots, q, x)
      requires fifo == Some(head) && e != 0
      modifies this`nodes
      ensures Chained(nodes, fifo, link) && Unused(nodes, heap)
      ensures CellsBut(word, nodes, PrependedSlots(slots, q, x), PrependedQueue(slots, q, x), link, e)
    {
      assert Cell(word, nodes, slots, q[0], link[0]) && LinkOk(nodes, link, 0);
      nodes := nodes[head := nodes[head].(size := nodes[head].size + size)];
      Rechained(old(nodes), nodes, fifo, link);
      ghost var slots' := PrependedSlots(slots, q, x);
      forall i | 0 <= i < |q| && i != e ensures Cell(word, nodes, slots', q[i], link[i]) {
        assert Cell(word, old(nodes), slots, q[i], link[i]);
      }
    }

    /** otherwise a new record goes to the front. */
    method PushFront(x: int, size: int, ghost slots: Slots, ghost q: seq<int>, ghost e: int)
      requires Chained(nodes, fifo, link) && CellsBut(word, nodes, slots, q, link, e) && Unused(nodes, heap)
      requires x in slots && slots[x].kind.Limbo? && slots[x].len == size && !JoinsNext(slots, q, x)
      requires !JoinsPrev(slots, q, x)
      modifies this`word, this`nodes, this`fifo, this`heap, this`link
      ensures Chained(nodes, fifo, link) && Unused(nodes, heap) && (exists r :: link == [r] + old(link))
      ensures CellsBut(word, nodes, PrependedSlots(slots, q, x), PrependedQueue(slots, q, x), link, if e == NONE
        then NONE else e + 1)
    {
      var slot := Empty(heap);
      heap := heap + 1;
      word := word[x := slot];
      ghost var l := link;
      if fifo.None? {
        nodes := nodes[slot := Node(x, size, fifo, slot)];
      } else {
        assert LinkOk(nodes, l, 0);
        var head := fifo.value;
        nodes := nodes[slot := Node(x, size, fifo, nodes[head].prev)];
        nodes := nodes[head := nodes[head].(prev := slot)];
      }
      PushedCells(old(word), old(nodes), slots, q, l, nodes, slot, x, size, e);
      PushedChain(old(nodes), nodes, fifo, l, slot);
      fifo := Some(slot);
      link := [slot] + l;
    }

    /** `fifo_prepend_empty` */
    method PrependEmpty(x: int, size: int, ghost slots: Slots, ghost q: seq<int>, ghost e: int)
      requires Chained(nodes, fifo, link) && CellsBut(word, nodes, slots, q, link, e) && Unused(nodes, heap) && NoDup(q)
      requires x in slots && slots[x].kind.Limbo? && slots[x].len == size
      requires e == NONE || (0 <= e < |q| && q[e] == x && link[e].Frag?)
      modifies this`word, this`nodes, this`fifo, this`heap, this`link
      ensures Chained(nodes, fifo, link) && Unused(nodes, heap)
      ensures var joined := JoinsNext(slots, q, x) || JoinsPrev(slots, q, x);
        && (if joined then link == old(link) else exists r :: link == [r] + old(link))
        && CellsBut(word, nodes, PrependedSlots(slots, q, x), PrependedQueue(slots, q, x), link, if joined ||
          e == NONE then e else e + 1)
    {
      if fifo.Some? {
        assert LinkOk(nodes, link, 0);
        var head := fifo.value;
        if head.Empty? {
          assert Cell(word, nodes, slots, q[0], link[0]);
          if nodes[head].start == x + size {
            EnlargeDown(head, x, size, slots, q, e);
            return;
          } else if nodes[head].start + nodes[head].size == x {
            EnlargeUp(head, x, size, slots, q, e);
            return;
          }
        } else {
          assert e == 0 || Cell(word, nodes, slots, q[0], link[0]);
        }
      }
      PushFront(x, size, slots, q, e);
    }

    /** `place_fragment` and `fifo_append`: the slot at `a` becomes fragment `f`. */
    method Lodge(f: nat, a: int, len: int, ghost slots: Slots, ghost slots': Slots, ghost q: seq<int>)
      requires Chained(nodes, fifo, link) && Cells(word, nodes, slots, q, link) && Unused(nodes, heap)
      requires Frag(f) !in link && (forall i | 0 <= i < |q| :: q[i] != a)
      requires forall c | c in slots && c != a :: c in slots' && slots'[c] == slots[c]
      requires a in slots' && slots'[a].len == len && slots'[a].kind == Live(f)
      modifies this`word, this`nodes, this`fifo, this`link
      ensures Chained(nodes, fifo, link) && Cells(word, nodes, slots', q + [a], link) && Unused(nodes, heap)
    {
      ghost var l := link;
      word := word[a := Frag(f)];
      nodes := nodes[Frag(f) := Node(a, len, None, Frag(f))];
      OtherCells(old(word), old(nodes), slots, word, nodes, slots', q, l, a, f);
      Rechained(old(nodes), nodes, fifo, l);
      ghost var before := nodes;
      FifoAppend(Frag(f), l);
      link := l + [Frag(f)];
      forall i | 0 <= i < |link| ensures Cell(word, nodes, slots', (q + [a])[i], link[i]) {
        if i < |l| { assert Cell(word, before, slots', q[i], l[i]); }
      }
    }

    /** The slot in transit becomes fragment `f`. */
    method LodgeWhole(f: nat, a: int, len: int)
      requires Mid(a) && a in abs.slots && abs.slots[a].len == len && MIN_SLOT <= len && f !in abs.home
      modifies this`word, this`nodes, this`fifo, this`link, this`abs
      ensures abs == Lodged(old(abs), a, f) && Valid()
    {
      ghost var t := Lodged(abs, a, f);
      LodgedKeeps(p, abs, a, f);
      LodgeReady(p, abs, word, nodes, link, a, f);
      Lodge(f, a, len, abs.slots, t.slots, abs.q);
      abs := t;
    }

    /** Fragment `f` takes the front of the slot in transit, and an empty slot takes the rest. */
    method LodgeFront(f: nat, a: int, n: int, k: int)
      requires Mid(a) && a in abs.slots && abs.slots[a].len == n && f !in abs.home
      requires MIN_SLOT <= k && Multiple(p.align, k) && n - k >= MIN_SLOT
      modifies this`word, this`nodes, this`fifo, this`heap, this`link, this`abs
      ensures a + k in LodgedPart(old(abs), a, k, f).slots
      ensures abs == Prepended(LodgedPart(old(abs), a, k, f), a + k) && Valid()
    {
      ghost var s, t := abs, LodgedPart(abs, a, k, f);
      SplitAndLodge(p, s, a, k, f);
      SplitReady(p, s, word, nodes, link, a, k, f);
      PrependEmpty(a + k, n - k, t.slots, s.q, NONE);
      PrependThenAppend(s, t, a, k, f, word, nodes, link);
      Lodge(f, a, k, PrependedSlots(t.slots, s.q, a + k), PrependedSlots(t.slots, s.q, a + k),
        PrependedQueue(t.slots, s.q, a + k));
      abs := Prepended(t, a + k);
    }

    /** `fcache_remove_fragment`: the slot goes to the front of the FIFO as an empty slot, and then
        the fragment leaves the FIFO. */
    method RemoveFragment(f: nat)
      requires Valid() && f in abs.home
      modifies this`word, this`nodes, this`fifo, this`heap, this`link, this`abs
      ensures Valid() && abs == Removed(old(abs), f) && PrivateFrame.RemovesOnly(old(abs), abs, f)
    {
      PrivateFrame.RemovedMeaning(p, abs, f);
      ghost var s, a0 := abs, abs.home[f];
      assert Settled(s.slots, a0);
      ghost var n := CellAt(word, nodes, s.slots, s.q, link, a0);
      var a, size := nodes[Frag(f)].start, nodes[Frag(f)].size;
      ghost var t := Vacated(s, a);
      RemovalReady(p, s, word, nodes, link, a, n);
      PrependEmpty(a, size, t.slots, s.q, n);
      ghost var m := if JoinsNext(t.slots, s.q, a) || JoinsPrev(t.slots, s.q, a) then n else n + 1;
      RemovalQueue(p, s, a, n);
      TakeOut(Frag(f), m, PrependedSlots(t.slots, s.q, a), PrependedQueue(t.slots, s.q, a));
      abs := Removed(s, f);
      RemovedKeeps(p, s, f);
    }

    /** `extend_unit_end` without `rest_empty` */
    method ExtendUnitEnd(u: int, size: int) returns (extra: int)
      requires u in units && 0 < size <= units[u].end - units[u].cur && !units[u].full
      modifies this`units
      ensures units == Extend(old(units), u, AppendLen(p, old(units)[u], size))
      ensures extra == AppendLen(p, old(units)[u], size) - size
    {
      extra := 0;
      units := units[u := units[u].(cur := units[u].cur + size)];
      var left := units[u].end - units[u].cur;
      if left < EndHole(p) {
        units := units[u := units[u].(full := true)];
        if left > 0 {
          extra := left;
          units := units[u := units[u].(cur := units[u].cur + extra)];
        }
      }
    }

    /** The victims do not suffice, and `f` takes unclaimed bytes as well. */
    method LodgeStretched(f: nat, u: int, a: int, n: int, k: int)
      requires Mid(a) && a in abs.slots && abs.slots[a].len == n < k && f !in abs.home && Multiple(p.align, k)
      requires MIN_SLOT <= k
      requires abs.slots[a].unit == u && u in units && a + n == units[u].cur && units[u].end - a >= k
      modifies this`units, this`word, this`nodes, this`fifo, this`link, this`abs
      ensures old(abs).order != [] && old(abs).order[0] in old(abs).units && a in old(abs).slots && Valid()
      ensures abs == Rehoused(p, old(abs), a, k, f)
    {
      StretchFits(p, abs, a, k);
      ghost var s := abs;
      ghost var t := Stretched(s, a, AppendLen(p, units[u], k - n));
      StretchStep(p, s, word, nodes, link, a, AppendLen(p, units[u], k - n));
      assert Rehoused(p, s, a, k, f) == Lodged(t, a, f);
      var extra := ExtendUnitEnd(u, k - n);
      abs := t;
      LodgeWhole(f, a, k + extra);
    }

    /** The end of `replace_fragments`: `f` moves into the bytes that were collected. */
    method House(f: nat, u: int, a: int, n: int, k: int)
      requires Mid(a) && a in abs.slots && abs.slots[a].len == n && f !in abs.home && Multiple(p.align, k)
      requires MIN_SLOT <= k
      requires abs.slots[a].unit == u && u in units && units[u].end - a >= k && (n >= k || a + n == units[u].cur)
      modifies this`units, this`word, this`nodes, this`fifo, this`heap, this`link, this`abs
      ensures old(abs).order != [] && old(abs).order[0] in old(abs).units && a in old(abs).slots && Valid()
      ensures abs == Rehoused(p, old(abs), a, k, f)
    {
      if n < k {
        LodgeStretched(f, u, a, n, k);
      } else if n - k < EmptyHole(p) {
        LodgeWhole(f, a, n);
      } else {
        LodgeFront(f, a, n, k);
      }
    }

    /** `replace_fragments`: nothing changes if a victim is pinned. */
    method ReplaceFragments(f: nat, u: int, a: int, k: int, pinned: set<nat>) returns (ok: bool)
      requires Valid() && a in abs.slots && abs.slots[a].unit == u && u in units && units[u].end - a >= k
      requires f !in abs.home && MIN_SLOT <= k && Multiple(p.align, k)
      modifies this`units, this`word, this`nodes, this`fifo, this`heap, this`link, this`abs
      ensures Valid() && (ok <==> !Barred(old(abs).slots, old(units)[u].cur, a, k, pinned))
      ensures ok ==> abs == Replaced(p, old(abs), a, k, f)
      ensures !ok ==>
        && abs == old(abs) && units == old(units) && word == old(word) && nodes == old(nodes) && fifo == old(fifo)
        && link == old(link)
    {
      ok := CanReplace(u, a, k, pinned);
      if ok {
        ReplaceReady(p, abs, a, k, f);
        var n := EvictRun(u, a, k);
        House(f, u, a, n, k);
      }
    }

    /** `fcache_lookup_unit`, for an address in a unit */
    method LookupUnit(pc: int) returns (u: int)
      requires exists v :: v in units && v <= pc < units[v].reserved
      ensures u in units && u <= pc < units[u].reserved
    {
      u :| u in units && u <= pc < units[u].reserved;
    }

    /** Everything that is kept up to date */
    ghost function View(): Snapshot
      reads this
    {
      Snapshot(abs, link, units, word, nodes, fifo)
    }

    /** One attempt: the fragment or empty slot `r` and its neighbours make room. */
    method TryAt(r: Ref, ghost i: int, f: nat, k: int, pinned: set<nat>) returns (ok: bool, next: Option<Ref>)
      requires Valid() && 0 <= i < |link| && i < |abs.q| && r == link[i] && f !in abs.home && MIN_SLOT <= k
      requires Multiple(p.align, k)
      modifies this`units, this`word, this`nodes, this`fifo, this`heap, this`link, this`abs
      ensures Valid() && (ok <==> Takes(old(abs), old(abs).q[i], k, pinned))
      ensures ok ==> old(abs).q[i] in old(abs).slots && abs == Replaced(p, old(abs), old(abs).q[i], k, f)
      ensures !ok ==>
        View() == old(View()) && next == Next(link, i + 1)
    {
      EntryAt(p, abs, word, nodes, link, i);
      assert LinkOk(nodes, link, i);
      next := None;
      var a := nodes[r].start;
      var u := LookupUnit(a);
      UnitOfEntry(p, abs, a, u);
      ok := false;
      if units[u].end - a >= k {
        ok := ReplaceFragments(f, u, a, k, pinned);
      }
      if !ok {
        next := nodes[r].next;
      }
    }

    /** One round of a search through entries `i` to `n`, of which `taker` is the first that can make room */
    method TryNext(r: Ref, ghost i: int, ghost n: int, f: nat, k: int, pinned: set<nat>, ghost taker: Option<int>)
      returns (ok: bool, next: Option<Ref>)
      requires Valid() && 0 <= i < n <= |link| && n <= |abs.q| && r == link[i]
      requires f !in abs.home && MIN_SLOT <= k && Multiple(p.align, k)
      requires taker == FirstTaker(abs, abs.q[i..n], k, pinned)
      modifies this`units, this`word, this`nodes, this`fifo, this`heap, this`link, this`abs
      ensures Valid()
      ensures ok ==> taker.Some? && taker.value in old(abs).slots && abs == Replaced(p, old(abs), taker.value, k, f)
      ensures !ok ==> View() == old(View())
      ensures !ok ==> next == Next(link, i + 1) && taker == FirstTaker(abs, abs.q[i + 1..n], k, pinned)
    {
      TakerStep(abs, abs.q, i, n, k, pinned);
      ok, next := TryAt(r, i, f, k, pinned);
    }

    /** The first attempts of `add_fragment_common`: the empty slots at the front of the FIFO. */
    method TryEmpties(f: nat, k: int, pinned: set<nat>) returns (ok: bool, rest: Option<Ref>)
      requires Valid() && f !in abs.home && MIN_SLOT <= k && Multiple(p.align, k)
      modifies this`units, this`word, this`nodes, this`fifo, this`heap, this`link, this`abs
      ensures Valid()
      ensures var s := old(abs); var first := FirstTaker(s, s.q[..EmptyCount(s.slots, s.q)], k, pinned);
        && (ok <==> first.Some?) && (ok ==> first.value in s.slots && abs == Replaced(p, s, first.value, k, f))
      ensures !ok ==> View() == old(View())
      ensures !ok ==> rest == Next(link, EmptyCount(abs.slots, abs.q))
    {
      ghost var s, n := abs, EmptyCount(abs.slots, abs.q);
      ghost var first := FirstTaker(s, s.q[..n], k, pinned);
      ok, rest := false, fifo;
      ghost var i := 0;
      EntryKind(p, s, word, nodes, link, 0);
      while rest.Some? && rest.value.Empty?
        invariant Valid() && 0 <= i <= n <= |s.q| == |link| && rest == Next(link, i)
        invariant View() == old(View())
        invariant i < |link| ==> (link[i].Empty? <==> i < n)
        invariant first == FirstTaker(s, s.q[i..n], k, pinned)
        decreases n - i
      {
        ok, rest := TryNext(rest.value, i, n, f, k, pinned, first);
        if ok {
          return;
        }
        i := i + 1;
        EntryKind(p, s, word, nodes, link, i);
      }
    }

    /** `replace_fifo` from entry `i` on */
    method ReplaceFifo(start: Option<Ref>, ghost first: int, f: nat, k: int, pinned: set<nat>) returns (ok: bool)
      requires Valid() && 0 <= first <= |link| && first <= |abs.q| && start == Next(link, first) && f !in abs.home
      requires MIN_SLOT <= k && Multiple(p.align, k)
      modifies this`units, this`word, this`nodes, this`fifo, this`heap, this`link, this`abs
      ensures Valid()
      ensures var s := old(abs); var taker := FirstTaker(s, s.q[first..], k, pinned);
        && (ok <==> taker.Some?) && (ok ==> taker.value in s.slots && abs == Replaced(p, s, taker.value, k, f))
      ensures !ok ==> View() == old(View())
    {
      ghost var s := abs;
      ghost var taker := FirstTaker(s, s.q[first..], k, pinned);
      assert s.q[first..|s.q|] == s.q[first..];
      ok := false;
      var cursor := start;
      ghost var i := first;
      while cursor.Some?
        invariant Valid() && 0 <= i <= |s.q| == |link| && cursor == Next(link, i)
        invariant View() == old(View())
        invariant taker == FirstTaker(s, s.q[i..|s.q|], k, pinned)
        decreases |s.q| - i
      {
        ok, cursor := TryNext(cursor.value, i, |s.q|, f, k, pinned, taker);
        if ok {
          return;
        }
        i := i + 1;
      }
      assert s.q[i..|s.q|] == [];
    }

    /** A slot of `k` bytes, or all that is left if the rest would be useless, at the append point. */
    method OpenSlot(k: int) returns (a: int, len: int)
      requires Valid() && MIN_SLOT <= k && Multiple(p.align, k) && order[0] in units
      requires units[order[0]].end - units[order[0]].cur >= k
      modifies this`units, this`abs
      ensures a == old(units)[order[0]].cur && len == AppendLen(p, old(units)[order[0]], k) && k <= len
      ensures old(abs).order != [] && old(abs).order[0] in old(abs).units && abs == Opened(old(abs), len)
      ensures Mid(a) && a in abs.slots && abs.slots[a].len == len
    {
      a := units[order[0]].cur;
      AppendStep(p, abs, word, nodes, link, AppendLen(p, units[order[0]], k), k);
      var extra := ExtendUnitEnd(order[0], k);
      len := k + extra;
      abs := Opened(abs, len);
    }

    /** The second attempt of `add_fragment_common`: the append point. */
    method AppendFragment(f: nat, k: int)
      requires Valid() && f !in abs.home && MIN_SLOT <= k && Multiple(p.align, k) && order[0] in units
      requires units[order[0]].end - units[order[0]].cur >= k
      modifies this`units, this`word, this`nodes, this`fifo, this`link, this`abs
      ensures Valid() && old(abs).order != [] && old(abs).order[0] in old(abs).units
      ensures abs == Appended(p, old(abs), k, f)
    {
      var a, len := OpenSlot(k);
      LodgeWhole(f, a, len);
    }

    /** `extend_unit_end` with size 0 and `rest_empty`: the rest of the current unit becomes an empty
        slot. No bytes are ever lost to the end of a unit here, as the rest is none or useful. */
    method FillUnit()
      requires Valid() && order[0] in units
      modifies this`units, this`word, this`nodes, this`fifo, this`heap, this`link, this`abs
      ensures Valid() && old(abs).order != [] && old(abs).order[0] in old(abs).units && abs == Filled(old(abs))
    {
      var u := order[0];
      ghost var s := abs;
      FillStep(p, s, word, nodes, link);
      FilledKeeps(p, s);
      if units[u].end - units[u].cur < EndHole(p) {
        units := units[u := units[u].(full := true)];
        assert units == s.units && Filled(s) == s;
      } else {
        FillRest(u);
      }
      abs := Filled(s);
    }

    method FillRest(u: int)
      requires Valid() && u == order[0] && u in units && units[u].end - units[u].cur >= EndHole(p)
      modifies this`units, this`word, this`nodes, this`fifo, this`heap, this`link
      ensures Chained(nodes, fifo, link) && Unused(nodes, heap) && abs.order != [] && abs.order[0] in abs.units
      ensures Cells(word, nodes, Filled(abs).slots, Filled(abs).q, link) && units == Filled(abs).units
    {
      var left := units[u].end - units[u].cur;
      FillStep(p, abs, word, nodes, link);
      PrependEmpty(units[u].cur, left, Opened(abs, left).slots, abs.q, NONE);
      units := units[u := units[u].(cur := units[u].cur + left)];
      units := units[u := units[u].(full := true)];
    }

    /** `cache_extend_commitment` */
    method ExtendCommitment(size: int)
      requires Valid() && Multiple(p.align, PAGE) && order[0] in units
      requires 0 < size <= units[order[0]].reserved - units[order[0]].end && size % PAGE == 0
      modifies this`units, this`abs
      ensures Valid() && old(abs).order != [] && old(abs).order[0] in old(abs).units
      ensures abs == CommittedMore(old(abs), size)
    {
      CommittedMoreKeeps(p, abs, size);
      units := units[order[0] := units[order[0]].(end := units[order[0]].end + size, full := false)];
      abs := CommittedMore(abs, size);
    }

    /** The commit loop of `try_for_more_space` */
    method CommitMore(k: int)
      requires Valid() && GrowthParams(p) && order[0] in units && Growths(abs, k) > 0
      requires units[order[0]].end < units[order[0]].reserved
      modifies this`units, this`abs
      ensures Valid() && old(abs).order != [] && old(abs).order[0] in old(abs).units
      ensures abs == MoreCommitted(p, old(abs), k)
    {
      var r := units[order[0]];
      CommitIsUseful(p, abs, k);
      var size := p.commit;
      while r.cur + k > r.end + size
        invariant 0 < size && Doubled(p.commit, r.cur + k - r.end) == Doubled(size, r.cur + k - r.end)
        decreases r.cur + k - r.end - size
      {
        size := size * 2;
      }
      if r.end + size > r.reserved {
        size := r.reserved - r.end;
      }
      ExtendCommitment(size);
    }

    /** A unit made by `fcache_create_unit` becomes the current one. */
    method AddUnit(u: int, r: Unit)
      requires Valid() && order[0] in units && units[order[0]].cur == units[order[0]].end
      requires UnitFits(p, u, u, r) && r.cur == u && u !in units && forall v | v in units ::
        units[v].reserved < u || r.reserved < v
      modifies this`units, this`order, this`abs
      ensures Valid() && abs == UnitAdded(old(abs), u, r)
    {
      UnitAddedKeeps(p, abs, u, r);
      units := units[u := r];
      order := [u] + order;
      abs := UnitAdded(abs, u, r);
    }

    /** The second part of `try_for_more_space`: a new unit, after the old one has been filled */
    method OpenUnit(ghost f: nat, k: int, w: World, ghost s: Fifo)
      requires Valid() && order[0] in units && Ready(p, s, f, k, w) && Growths(s, k) == 2 && w.allowed
      requires abs == Exhausted(p, s, k)
      modifies this`units, this`order, this`word, this`nodes, this`fifo, this`heap, this`link, this`abs
      ensures Valid() && abs == NextUnit(p, s, k, w)
    {
      ExhaustedKeeps(p, s, k);
      FilledKeeps(p, abs);
      FillUnit();
      AddUnit(w.u, w.unit);
    }

    /** `try_for_more_space`: a failure may still have committed and filled the current unit. */
    method TryForMoreSpace(ghost f: nat, k: int, w: World) returns (ok: bool)
      requires Valid() && order[0] in units && Ready(p, abs, f, k, w) && Growths(abs, k) > 0
      modifies this`units, this`order, this`word, this`nodes, this`fifo, this`heap, this`link, this`abs
      ensures Valid() && old(abs).order != [] && old(abs).order[0] in old(abs).units
      ensures ok == HasMore(old(abs), k, w) && abs == MoreSpace(p, old(abs), k, w)
    {
      ghost var s := abs;
      OnlyCurrentHasRoom(p, s, order[0]);
      var r := units[order[0]];
      if r.end < r.reserved {
        CommitIsUseful(p, s, k);
        CommitMore(k);
        if units[order[0]].cur + k > units[order[0]].end {
          FillUnit();
        } else {
          return true;
        }
      }
      ok := w.allowed;
      if ok {
        OpenUnit(f, k, w, s);
      }
    }

    /** The last resort of `add_fragment_common`: a trace is given up, and all are tried again. */
    method TryAgain(f: nat, k: int, w: World) returns (ok: bool)
      requires Valid() && f !in abs.home && MIN_SLOT <= k && Multiple(p.align, k)
      modifies this`units, this`word, this`nodes, this`fifo, this`heap, this`link, this`abs
      ensures var s := old(abs); var last := FirstTaker(s, s.q, k, w.aborted);
        && Valid() && (ok <==> last.Some?) && (ok ==> last.value in s.slots)
        && abs == if ok then Replaced(p, s, last.value, k, f) else s
    {
      assert abs.q[0..] == abs.q;
      ok := ReplaceFifo(fifo, 0, f, k, w.aborted);
    }

    /** `replace_fifo` from the oldest fragment on */
    method TryByAge(start: Option<Ref>, f: nat, k: int, w: World) returns (ok: bool)
      requires Valid() && f !in abs.home && MIN_SLOT <= k && Multiple(p.align, k) && start == RefTo(Oldest(abs))
      modifies this`units, this`word, this`nodes, this`fifo, this`heap, this`link, this`abs
      ensures var s := old(abs); var victim := FirstTaker(s, ByAge(s), k, w.pinned);
        && Valid() && (ok <==> victim.Some?) && (ok ==> victim.value in s.slots)
        && abs == if ok then Replaced(p, s, victim.value, k, f) else s
      ensures !ok ==> units == old(units)
    {
      OldestIs(p, abs, word, nodes, link);
      ok := ReplaceFifo(start, EmptyCount(abs.slots, abs.q), f, k, w.pinned);
    }

    /** `add_fragment_common`: the cache grows at most twice. */
    method AddFragmentCommon(f: nat, k: int, w: World, n: nat) returns (ok: bool)
      requires Valid() && order[0] in units && Ready(p, abs, f, k, w)
      modifies this`units, this`order, this`word, this`nodes, this`fifo, this`heap, this`link, this`abs
      ensures Valid() && Outcome(ok, abs) == Grown(p, old(abs), f, k, w, n)
      decreases Growths(abs, k), 1
    {
      var oldest;
      ok, oldest := TryEmpties(f, k, w.pinned);
      if ok {
        return;
      }
      ghost var s := abs;
      OldestIs(p, s, word, nodes, link);
      FullIsNoRoom(p, s);
      var unit := units[order[0]];
      if !unit.full && unit.end - unit.cur >= k {
        AppendFragment(f, k);
        return true;
      }
      OnlyCurrentHasRoom(p, s, order[0]);
      MoreSpaceKeeps(p, s, f, k, w);
      if w.ratio(n) {
        ok := TryForMoreSpace(f, k, w);
        if ok {
          ok := AddFragmentCommon(f, k, w, n + 1);
          return;
        }
        OldestAfterExhaust(p, s, k);
        AskedTwice(p, s, f, k, w);
      }
      ok := AddByForce(f, k, w, n, oldest);
    }

    /** The rest of `add_fragment_common`, when growth has not been allowed or has not been possible */
    method AddByForce(f: nat, k: int, w: World, n: nat, oldest: Option<Ref>) returns (ok: bool)
      requires Valid() && order[0] in units && Ready(p, abs, f, k, w) && Growths(abs, k) > 0
      requires oldest == RefTo(Oldest(abs))
      modifies this`units, this`order, this`word, this`nodes, this`fifo, this`heap, this`link, this`abs
      ensures Valid() && Outcome(ok, abs) == Forced(p, old(abs), f, k, w, n)
      decreases Growths(abs, k), 0
    {
      ghost var s := abs;
      MoreSpaceKeeps(p, s, f, k, w);
      ok := TryByAge(oldest, f, k, w);
      if ok {
        return;
      }
      ok := TryForMoreSpace(f, k, w);
      if ok {
        ok := AddFragmentCommon(f, k, w, n + 1);
        return;
      }
      ok := TryAgain(f, k, w);
    }

    /** `fcache_add_fragment` for a slot of `k` bytes */
    method AddFragment(f: nat, k: int, w: World) returns (ok: bool)
      requires Valid() && order[0] in units && Ready(p, abs, f, k, w)
      modifies this`units, this`order, this`word, this`nodes, this`fifo, this`heap, this`link, this`abs
      ensures Valid() && abs == Apply(p, old(abs), AddOp(f, k, w)) && (ok <==> f in abs.home)
    {
      GrownKeeps(p, abs, f, k, w, 0);
      ok := AddFragmentCommon(f, k, w, 0);
    }

    /** The fragment at `a` keeps `k` bytes of its slot. Its length is not looked at again before
        the rest of the slot is disposed of. */
    method SetSize(f: nat, ghost a: int, k: int, ghost slots': Slots)
      requires Valid() && a in abs.slots && abs.slots[a].kind == Live(f)
      requires a in slots' && slots'[a] == abs.slots[a].(len := k) && forall c | c in abs.slots && c != a ::
        c in slots' && slots'[c] == abs.slots[c]
      modifies this`nodes
      ensures Chained(nodes, fifo, link) && Cells(word, nodes, slots', abs.q, link) && Unused(nodes, heap)
    {
      assert Settled(abs.slots, a);
      ghost var n := CellAt(word, nodes, abs.slots, abs.q, link, a);
      nodes := nodes[Frag(f) := nodes[Frag(f)].(size := k)];
      Rechained(old(nodes), nodes, fifo, link);
      forall i | 0 <= i < |abs.q| ensures Cell(word, nodes, slots', abs.q[i], link[i]) {
        assert Cell(word, old(nodes), abs.slots, abs.q[i], link[i]);
      }
    }

    /** The released bytes become unclaimed again, */
    method TrimTail(f: nat, a: int, k: int)
      requires Valid() && a in abs.slots && abs.slots[a].kind == Live(f) && abs.slots[a].unit == order[0]
      requires order[0] in units
      requires MIN_SLOT <= k < abs.slots[a].len && Multiple(p.align, k) && a + abs.slots[a].len == units[order[0]].cur
      requires units[order[0]].cur == units[order[0]].end ==> abs.slots[a].len - k >= EndHole(p)
      modifies this`units, this`nodes, this`abs
      ensures Valid() && old(abs).slots[a].unit in old(abs).units && abs == Trimmed(old(abs), a, k)
    {
      ghost var s := abs;
      SetSize(f, a, k, Trimmed(s, a, k).slots);
      units := units[order[0] := units[order[0]].(cur := a + k, full := false)];
      abs := Trimmed(s, a, k);
      TrimmedKeeps(p, s, a, k);
    }

    /** or an empty slot of their own, */
    method ShedTail(f: nat, a: int, k: int, ret: int)
      requires Valid() && a in abs.slots && abs.slots[a].kind == Live(f) && MIN_SLOT <= k && Multiple(p.align, k)
      requires abs.slots[a].len == k + ret
      requires ret >= MIN_SLOT
      modifies this`word, this`nodes, this`fifo, this`heap, this`link, this`abs
      ensures Valid() && a + k in Shed(old(abs), a, k).slots && abs == Prepended(Shed(old(abs), a, k), a + k)
    {
      ghost var s, t := abs, Shed(abs, a, k);
      NotInside(s, a, k);
      SetSize(f, a, k, t.slots);
      PrependEmpty(a + k, ret, t.slots, s.q, NONE);
      ShedAndPrepend(p, s, a, k);
      abs := Prepended(t, a + k);
    }

    /** or part of the empty slot `next` behind them. */
    method TakeOverTail(f: nat, a: int, k: int, ret: int, next: Ref)
      requires Valid() && a in abs.slots && abs.slots[a].kind == Live(f) && MIN_SLOT <= k && Multiple(p.align, k)
      requires abs.slots[a].len == k + ret && 0 < ret
      requires var e := a + k + ret;
        && e in abs.slots && abs.slots[e].unit == abs.slots[a].unit && abs.slots[e].kind.Free? && e in word
        && word[e] == next
      modifies this`word, this`nodes, this`abs
      ensures Valid() && a + old(abs).slots[a].len in old(abs).slots && abs == TakenOver(old(abs), a, k)
    {
      ghost var s, t, e := abs, TakenOver(abs, a, k), a + k + ret;
      assert Settled(s.slots, e);
      ghost var n := CellAt(word, nodes, s.slots, s.q, link, e);
      TakenOverKeeps(p, s, a, k);
      SetSize(f, a, k, Trim(s.slots, a, k));
      ghost var before := nodes;
      assert Cell(word, nodes, Trim(s.slots, a, k), s.q[n], link[n]);
      nodes := nodes[next := nodes[next].(start := a + k)];
      word := word[a + k := next];
      nodes := nodes[next := nodes[next].(size := nodes[next].size + ret)];
      Rechained(before, nodes, fifo, link);
      MovedCell(s, old(word), before, nodes, link, a, k, n);
      abs := t;
    }

    /** `fcache_return_extra_space` for a fragment that needs `k` bytes */
    method ReturnExtraSpace(f: nat, k: int)
      requires Valid() && f in abs.home && MIN_SLOT <= k && Multiple(p.align, k)
      modifies this`units, this`word, this`nodes, this`fifo, this`heap, this`link, this`abs
      ensures f in old(abs).home && old(abs).home[f] in old(abs).slots
      ensures old(abs).slots[old(abs).home[f]].unit in old(abs).units && old(abs).order != []
      ensures Valid() && abs == Shrunk(p, old(abs), f, k)
    {
      ghost var a0 := abs.home[f];
      assert Settled(abs.slots, a0);
      ghost var n := CellAt(word, nodes, abs.slots, abs.q, link, a0);
      EntryAt(p, abs, word, nodes, link, n);
      var a, size := nodes[Frag(f)].start, nodes[Frag(f)].size;
      var u := LookupUnit(a);
      UnitOfEntry(p, abs, a, u);
      NextInUnit(p, abs, NONE, a);
      OnlyCurrentHasRoom(p, abs, u);
      if size > k {
        Release(f, u, a, size, k);
      }
    }

    method Release(f: nat, u: int, a: int, size: int, k: int)
      requires Valid() && f in abs.home && a == abs.home[f] && a in abs.slots && abs.slots[a] == Slot(u, size, Live(f))
      requires u in units && order != []
      requires MIN_SLOT <= k < size && Multiple(p.align, k) && a + size <= units[u].cur <= units[u].end
      requires (units[u].cur != units[u].end ==> u == order[0])
      requires a + size < units[u].cur ==> a + size in abs.slots && abs.slots[a + size].unit == u
      modifies this`units, this`word, this`nodes, this`fifo, this`heap, this`link, this`abs
      ensures Valid() && a in old(abs).slots && u in old(abs).units && old(abs).order != []
      ensures abs == Released(p, old(abs), a, size, u, k)
    {
      var ret := size - k;
      if a + size == units[u].end {
        ReleaseAtEnd(f, u, a, ret, k);
      } else if a + size == units[u].cur {
        ReleaseAtCur(f, u, a, ret, k);
      } else {
        ReleaseInside(f, u, a, ret, k);
      }
    }

    method ReleaseAtEnd(f: nat, u: int, a: int, ret: int, k: int)
      requires Valid() && a in abs.slots && abs.slots[a] == Slot(u, k + ret, Live(f)) && u in units && order != []
      requires MIN_SLOT <= k && 0 < ret && Multiple(p.align, k) && a + k + ret == units[u].cur == units[u].end
      modifies this`units, this`word, this`nodes, this`fifo, this`heap, this`link, this`abs
      ensures Valid() && a in old(abs).slots && u in old(abs).units && old(abs).order != []
      ensures abs == Released(p, old(abs), a, k + ret, u, k)
    {
      if ret >= EndHole(p) {
        if u == order[0] {
          TrimTail(f, a, k);
        } else {
          ShedTail(f, a, k, ret);
        }
      }
    }

    method ReleaseAtCur(f: nat, u: int, a: int, ret: int, k: int)
      requires Valid() && a in abs.slots && abs.slots[a] == Slot(u, k + ret, Live(f)) && u in units && order != []
      requires u == order[0]
      requires MIN_SLOT <= k && 0 < ret && Multiple(p.align, k) && a + k + ret == units[u].cur < units[u].end
      modifies this`units, this`nodes, this`abs
      ensures Valid() && a in old(abs).slots && u in old(abs).units && old(abs).order != []
      ensures abs == Released(p, old(abs), a, k + ret, u, k)
    {
      TrimTail(f, a, k);
    }

    method ReleaseInside(f: nat, u: int, a: int, ret: int, k: int)
      requires Valid() && a in abs.slots && abs.slots[a] == Slot(u, k + ret, Live(f)) && u in units && order != []
      requires MIN_SLOT <= k && 0 < ret && Multiple(p.align, k) && a + k + ret != units[u].cur
      requires a + k + ret != units[u].end
      requires a + k + ret in abs.slots && abs.slots[a + k + ret].unit == abs.slots[a].unit
      modifies this`word, this`nodes, this`fifo, this`heap, this`link, this`abs
      ensures Valid() && a in old(abs).slots && u in old(abs).units && old(abs).order != []
      ensures abs == Released(p, old(abs), a, k + ret, u, k)
    {
      assert Settled(abs.slots, a + k + ret);
      ghost var n := CellAt(word, nodes, abs.slots, abs.q, link, a + k + ret);
      var next := word[a + k + ret];
      if next.Empty? {
        TakeOverTail(f, a, k, ret, next);
      } else if ret >= EmptyHole(p) {
        ShedTail(f, a, k, ret);
      }
    }
  }

  lemma ReleaseNode(before: Nodes, nodes: Nodes, fifo: Option<Ref>, word: map<int, Ref>, slots: Slots, q: seq<int>,
    l: seq<Ref>, r: Ref)
    requires Cells(word, before, slots, q, l) && SameSlots(before, nodes) && Chained(nodes, fifo, l)
    requires forall i | 0 <= i < |l| :: l[i] != r
    ensures Chained(nodes - {r}, fifo, l) && Cells(word, nodes - {r}, slots, q, l)
  {
    forall i | 0 <= i < |l| ensures LinkOk(nodes - {r}, l, i) {
      assert LinkOk(nodes, l, i);
    }
    forall i | 0 <= i < |q| ensures Cell(word, nodes - {r}, slots, q[i], l[i]) {
      assert Cell(word, before, slots, q[i], l[i]);
    }
  }

  /** The records of the queued slots do not depend on the slots at `a` and `b`. */
  lemma CellsElsewhere(word: map<int, Ref>, nodes: Nodes, slots: Slots, slots': Slots, q: seq<int>, l: seq<Ref>, a: int,
    b: int)
    requires Cells(word, nodes, slots, q, l)
    requires forall i | 0 <= i < |q| :: q[i] != a && q[i] != b
    requires forall c | c in slots && c != a && c != b :: c in slots' && slots'[c] == slots[c]
    ensures Cells(word, nodes, slots', q, l)
  {
    forall i | 0 <= i < |q| ensures Cell(word, nodes, slots', q[i], l[i]) {
      assert Cell(word, nodes, slots, q[i], l[i]);
    }
  }

  lemma GoneFrom(q: seq<int>, a: int)
    requires NoDup(q)
    ensures forall i | 0 <= i < |Without(q, a)| :: Without(q, a)[i] != a
  {
    if a in q { WithoutKeeps(q, a); }
    forall i | 0 <= i < |Without(q, a)| ensures Without(q, a)[i] != a {
      assert Without(q, a)[i] in Without(q, a);
    }
  }

  lemma NotQueued(s: Fifo, x: int)
    requires Queue(s.slots, s.q) && !Settled(s.slots, x)
    ensures forall i | 0 <= i < |s.q| :: s.q[i] != x
  {
    forall i | 0 <= i < |s.q| ensures s.q[i] != x {
      assert s.q[i] in s.q;
    }
  }

  lemma NotLeftOver(q: seq<int>, a: int, x: int)
    requires NoDup(q) && forall i | 0 <= i < |q| :: q[i] != x
    ensures forall i | 0 <= i < |Without(q, a)| :: Without(q, a)[i] != x
  {
  }

  /** With the next slot out of the chain, the slot in transit has grown over it. */
  lemma AbsorbStep(p: Params, s: Fifo, word: map<int, Ref>, nodes: Nodes, l: seq<Ref>, a: int)
    requires FifoInv(p, s, a) && a in s.slots && 0 < s.slots[a].len
    requires var b := a + s.slots[a].len;
      b in s.slots && s.slots[b].unit == s.slots[a].unit && Cells(word, nodes, s.slots, Without(s.q, b), l)
    ensures FifoInv(p, Absorbed(s, a), a) && Cells(word, nodes, Absorbed(s, a).slots, Absorbed(s, a).q, l)
  {
    var b := a + s.slots[a].len;
    GoneFrom(s.q, b);
    NotQueued(s, a);
    NotLeftOver(s.q, b, a);
    CellsElsewhere(word, nodes, s.slots, Absorbed(s, a).slots, Without(s.q, b), l, a, b);
    AbsorbedKeeps(p, s, a);
  }

  lemma EvictUnroll(p: Params, s: Fifo, a: int, k: int)
    requires FifoInv(p, s, a) && a in s.slots
    ensures s.slots[a].unit in s.units && 0 < s.slots[a].len
    ensures Wanting(s, a, k) <==> s.slots[a].len < k && a + s.slots[a].len != s.units[s.slots[a].unit].cur
    ensures Wanting(s, a, k) ==>
      s.slots[a + s.slots[a].len].unit == s.slots[a].unit && 0 < s.slots[a + s.slots[a].len].len
    ensures Evicted(s, a, k) == if Wanting(s, a, k) then Evicted(Absorbed(s, a), a, k) else s
  {
    NextInUnit(p, s, a, a);
  }

  /** Links survive changes of places and lengths. */
  lemma Rechained(nodes: Nodes, nodes': Nodes, fifo: Option<Ref>, l: seq<Ref>)
    requires Chained(nodes, fifo, l)
    requires forall i | 0 <= i < |l| && l[i] in nodes ::
      l[i] in nodes' && nodes'[l[i]].next == nodes[l[i]].next && nodes'[l[i]].prev == nodes[l[i]].prev
    ensures Chained(nodes', fifo, l)
  {
    forall i | 0 <= i < |l| ensures LinkOk(nodes', l, i) {
      assert LinkOk(nodes, l, i);
    }
  }

  lemma OtherCells(word: map<int, Ref>, nodes: Nodes, slots: Slots, word': map<int, Ref>, nodes': Nodes, slots': Slots,
    q: seq<int>, l: seq<Ref>, a: int, f: nat)
    requires Cells(word, nodes, slots, q, l) && Frag(f) !in l && (forall i | 0 <= i < |q| :: q[i] != a)
    requires forall c | c in slots && c != a :: c in slots' && slots'[c] == slots[c]
    requires Frag(f) in nodes' && word' == word[a := Frag(f)] && nodes' == nodes[Frag(f) := nodes'[Frag(f)]]
    ensures Cells(word', nodes', slots', q, l)
    ensures forall i | 0 <= i < |l| :: l[i] in nodes && l[i] in nodes' && nodes'[l[i]] == nodes[l[i]]
  {
    forall i | 0 <= i < |q| ensures Cell(word', nodes', slots', q[i], l[i]) && l[i] in nodes && l[i] in nodes' &&
      nodes'[l[i]] == nodes[l[i]] {
      assert Cell(word, nodes, slots, q[i], l[i]) && l[i] in l;
    }
  }

  lemma PushedChain(nodes: Nodes, nodes': Nodes, fifo: Option<Ref>, l: seq<Ref>, slot: Ref)
    requires Chained(nodes, fifo, l) && slot !in nodes && slot in nodes' && nodes'[slot].next == fifo
    requires nodes'[slot].prev == if l == [] then slot else l[|l| - 1]
    requires forall r | r in nodes ::
      r in nodes' && nodes'[r].next == nodes[r].next &&
        nodes'[r].prev == if fifo == Some(r) then slot else nodes[r].prev
    ensures Chained(nodes', Some(slot), [slot] + l)
  {
    var l' := [slot] + l;
    forall i | 0 <= i < |l'| ensures LinkOk(nodes', l', i) {
      if i > 0 { assert LinkOk(nodes, l, i - 1); }
    }
    forall i | 0 <= i < |l| ensures l[i] != slot {
      assert LinkOk(nodes, l, i);
    }
  }

  lemma PushedCells(word: map<int, Ref>, nodes: Nodes, slots: Slots, q: seq<int>, l: seq<Ref>, nodes': Nodes, slot: Ref,
    x: int, size: int, e: int)
    requires CellsBut(word, nodes, slots, q, l, e) && slot !in nodes && slot.Empty? && x in slots
    requires slots[x].kind.Limbo? && slots[x].len == size
    requires slot in nodes' && nodes'[slot].start == x && nodes'[slot].size == size
    requires forall r | r in nodes ::
      r in nodes' && nodes'[r].start == nodes[r].start && nodes'[r].size == nodes[r].size
    ensures CellsBut(word[x := slot], nodes', SetKind(slots, x, Free), [x] + q, [slot] + l, if e == NONE then NONE
      else e + 1)
  {
    forall i | 0 <= i < |[x] + q| && (i == 0 ||
      i - 1 != e) ensures Cell(word[x := slot], nodes', SetKind(slots, x, Free), ([x] + q)[i], ([slot] + l)[i]) {
      if i > 0 { assert Cell(word, nodes, slots, q[i - 1], l[i - 1]); }
    }
  }

  lemma NotLinked(word: map<int, Ref>, nodes: Nodes, slots: Slots, q: seq<int>, l: seq<Ref>, a: int, f: nat)
    requires Cells(word, nodes, slots, q, l) && (forall i | 0 <= i < |q| :: q[i] != a)
    requires forall c | c in slots && c != a :: slots[c].kind != Live(f)
    ensures Frag(f) !in l
  {
    forall i | 0 <= i < |l| ensures l[i] != Frag(f) {
      assert Cell(word, nodes, slots, q[i], l[i]);
    }
  }

  lemma LodgeReady(p: Params, s: Fifo, word: map<int, Ref>, nodes: Nodes, l: seq<Ref>, a: int, f: nat)
    requires FifoInv(p, s, a) && Cells(word, nodes, s.slots, s.q, l) && f !in s.home && a in s.slots
    ensures Frag(f) !in l && forall i | 0 <= i < |s.q| :: s.q[i] != a
  {
    NotQueued(s, a);
    NotLinked(word, nodes, s.slots, s.q, l, a, f);
  }

  lemma SplitReady(p: Params, s: Fifo, word: map<int, Ref>, nodes: Nodes, l: seq<Ref>, a: int, k: int, f: nat)
    requires FifoInv(p, s, a) && Cells(word, nodes, s.slots, s.q, l) && a in s.slots && 0 < k < s.slots[a].len
    requires f !in s.home
    ensures var t := LodgedPart(s, a, k, f);
      && Cells(word, nodes, t.slots, s.q, l) && t.slots[a + k] == Slot(s.slots[a].unit, s.slots[a].len - k, Limbo)
      && (forall i | 0 <= i < |s.q| :: s.q[i] != a)
      && (forall c | c in t.slots && c != a :: t.slots[c].kind != Live(f))
  {
    NotQueued(s, a);
    NotInside(s, a, k);
    CellsElsewhere(word, nodes, s.slots, LodgedPart(s, a, k, f).slots, s.q, l, a, a);
  }

  /** The empty slot goes to the front and the fragment to the back, in either order. */
  lemma PrependThenAppend(s: Fifo, t: Fifo, a: int, k: int, f: nat, word: map<int, Ref>, nodes: Nodes, l: seq<Ref>)
    requires a in s.slots && 0 < k && t == LodgedPart(s, a, k, f)
    requires (forall i | 0 <= i < |s.q| :: s.q[i] != a)
    requires (forall c | c in t.slots && c != a :: t.slots[c].kind != Live(f))
    requires Cells(word, nodes, PrependedSlots(t.slots, s.q, a + k), PrependedQueue(t.slots, s.q, a + k), l)
    ensures var x := a + k; var slots', q' := PrependedSlots(t.slots, s.q, x), PrependedQueue(t.slots, s.q, x);
      && slots' == Prepended(t, x).slots && q' + [a] == Prepended(t, x).q
      && a in slots' && slots'[a] == Slot(s.slots[a].unit, k, Live(f))
      && (forall i | 0 <= i < |q'| :: q'[i] != a) && Frag(f) !in l
  {
    var x := a + k;
    var slots', q' := PrependedSlots(t.slots, s.q, x), PrependedQueue(t.slots, s.q, x);
    NotLinked(word, nodes, slots', q', l, a, f);
  }

  lemma RemovalReady(p: Params, s: Fifo, word: map<int, Ref>, nodes: Nodes, l: seq<Ref>, a: int, n: int)
    requires FifoInv(p, s, NONE) && Cells(word, nodes, s.slots, s.q, l) && a in s.slots && 0 <= n < |s.q| && s.q[n] == a
    ensures CellsBut(word, nodes, Vacated(s, a).slots, s.q, l, n)
  {
    forall i | 0 <= i < |s.q| && i != n ensures Cell(word, nodes, Vacated(s, a).slots, s.q[i], l[i]) {
      assert Cell(word, nodes, s.slots, s.q[i], l[i]);
    }
  }

  /** Prepending the slot of a fragment that is still queued, and then taking the fragment out, is
      the same as doing it the other way round: only an empty front is looked at. */
  lemma RemovalQueue(p: Params, s: Fifo, a: int, n: int)
    requires FifoInv(p, s, NONE) && a in s.slots && s.slots[a].kind.Live? && 0 <= n < |s.q| && s.q[n] == a
    ensures var t := Vacated(s, a); var q' := PrependedQueue(t.slots, s.q, a);
      var m := if JoinsNext(t.slots, s.q, a) || JoinsPrev(t.slots, s.q, a) then n else n + 1;
      && (JoinsNext(t.slots, s.q, a) || JoinsPrev(t.slots, s.q, a) ==> n > 0)
      && m < |q'| && q'[..m] + q'[m + 1..] == Prepended(t, a).q
      && PrependedSlots(t.slots, s.q, a) == Prepended(t, a).slots
  {
    WithoutIs(s.q, n);
    if n == 0 && |s.q| > 1 { assert Before(s.slots, s.born, s.q[0], s.q[1]); }
    SameFront(Vacated(s, a).slots, s.q, a, n);
    SkipAfterPush(s.q, n, a);
  }

  lemma SameFront(slots: Slots, q: seq<int>, a: int, n: int)
    requires a in slots && slots[a].kind.Limbo? && 0 <= n < |q| && q[n] == a
    requires n == 0 && |q| > 1 ==> q[1] in slots && slots[q[1]].kind.Live?
    ensures var rest := q[..n] + q[n + 1..];
      && JoinsNext(slots, rest, a) == JoinsNext(slots, q, a) && JoinsPrev(slots, rest, a) == JoinsPrev(slots, q, a)
      && ((JoinsNext(slots, q, a) || JoinsPrev(slots, q, a)) ==> n > 0 && rest[0] == q[0])
  {
  }

  lemma SkipAfterPush(q: seq<int>, n: int, a: int)
    requires 0 <= n < |q|
    ensures ([a] + q)[..n + 1] + ([a] + q)[n + 2..] == [a] + (q[..n] + q[n + 1..])
    ensures n > 0 ==> ([a] + q[1..])[..n] + ([a] + q[1..])[n + 1..] == [a] + (q[..n] + q[n + 1..])[1..]
  {
  }

  lemma StretchStep(p: Params, s: Fifo, word: map<int, Ref>, nodes: Nodes, l: seq<Ref>, a: int, len: int)
    requires FifoInv(p, s, a) && Multiple(p.align, len) && a in s.slots && Cells(word, nodes, s.slots, s.q, l)
    requires s.slots[a].unit == s.order[0] && a + s.slots[a].len == s.units[s.order[0]].cur
    requires var r := s.units[s.order[0]]; 0 < len == r.end - r.cur || 0 < len <= r.end - r.cur - EndHole(p)
    ensures !s.units[s.order[0]].full
    ensures FifoInv(p, Stretched(s, a, len), a) && Cells(word, nodes, Stretched(s, a, len).slots, s.q, l)
  {
    assert UnitFits(p, s.order[0], s.order[0], s.units[s.order[0]]);
    StretchedKeeps(p, s, a, len);
    NotQueued(s, a);
    CellsElsewhere(word, nodes, s.slots, Stretched(s, a, len).slots, s.q, l, a, a);
  }

  lemma ReplaceReady(p: Params, s: Fifo, a: int, k: int, f: nat)
    requires FifoInv(p, s, NONE) && a in s.slots && f !in s.home
    ensures var t := Evicted(Vacated(s, a), a, k);
      && a in t.slots && t.order != [] && t.order[0] in t.units && f !in t.home && t.units == s.units
      && t.slots[a].unit == s.slots[a].unit && t.slots[a].unit in t.units
      && (t.slots[a].len >= k || a + t.slots[a].len == t.units[t.slots[a].unit].cur)
      && Replaced(p, s, a, k, f) == Rehoused(p, t, a, k, f)
  {
    VacatedKeeps(p, s, a);
    EvictedKeeps(p, Vacated(s, a), a, k);
    EvictedHome(Vacated(s, a), a, k, f);
  }

  function Next(l: seq<Ref>, i: int): Option<Ref>
    requires 0 <= i <= |l|
  {
    if i < |l| then Some(l[i]) else None
  }

  lemma EntryAt(p: Params, s: Fifo, word: map<int, Ref>, nodes: Nodes, l: seq<Ref>, i: int)
    requires FifoInv(p, s, NONE) && Cells(word, nodes, s.slots, s.q, l) && 0 <= i < |l|
    ensures l[i] in nodes && nodes[l[i]].start == s.q[i] && s.q[i] in s.slots
    ensures var u := s.slots[s.q[i]].unit; u in s.units && u <= s.q[i] < s.units[u].reserved
  {
    assert Cell(word, nodes, s.slots, s.q[i], l[i]);
    NextInUnit(p, s, NONE, s.q[i]);
    assert Placed(p, s.units, s.slots, NONE, s.q[i]);
    assert UnitFits(p, s.order[0], s.slots[s.q[i]].unit, s.units[s.slots[s.q[i]].unit]);
  }

  lemma UnitOfEntry(p: Params, s: Fifo, a: int, u: int)
    requires FifoInv(p, s, NONE) && a in s.slots && u in s.units && u <= a < s.units[u].reserved
    ensures s.slots[a].unit == u
  {
    assert Placed(p, s.units, s.slots, NONE, a);
    assert UnitFits(p, s.order[0], s.slots[a].unit, s.units[s.slots[a].unit]);
  }

  function RefTo(f: Option<nat>): Option<Ref>
  {
    if f.Some? then Some(Frag(f.value)) else None
  }

  /** The first record behind the empty slots is that of the oldest fragment. */
  lemma OldestIs(p: Params, s: Fifo, word: map<int, Ref>, nodes: Nodes, l: seq<Ref>)
    requires FifoInv(p, s, NONE) && Cells(word, nodes, s.slots, s.q, l)
    ensures |l| == |s.q| && Next(l, EmptyCount(s.slots, s.q)) == RefTo(Oldest(s))
  {
    var n := EmptyCount(s.slots, s.q);
    if n < |l| { assert Cell(word, nodes, s.slots, s.q[n], l[n]); }
  }

  /** A record is an empty slot's exactly while the walk is among the empty slots. */
  lemma EntryKind(p: Params, s: Fifo, word: map<int, Ref>, nodes: Nodes, l: seq<Ref>, i: int)
    requires FifoInv(p, s, NONE) && Cells(word, nodes, s.slots, s.q, l) && 0 <= i <= EmptyCount(s.slots, s.q)
    ensures |l| == |s.q| && (i < |l| ==> (l[i].Empty? <==> i < EmptyCount(s.slots, s.q)))
  {
    if i < |l| { assert Cell(word, nodes, s.slots, s.q[i], l[i]); }
  }

  lemma TakerStep(s: Fifo, q: seq<int>, i: int, n: int, k: int, pinned: set<nat>)
    requires 0 <= i < n <= |q|
    ensures FirstTaker(s, q[i..n], k, pinned) == if Takes(s, q[i], k, pinned) then Some(q[i])
      else FirstTaker(s, q[i + 1..n], k, pinned)
  {
    assert q[i..n][1..] == q[i + 1..n];
  }

  lemma AppendStep(p: Params, s: Fifo, word: map<int, Ref>, nodes: Nodes, l: seq<Ref>, len: int, k: int)
    requires FifoInv(p, s, NONE) && Cells(word, nodes, s.slots, s.q, l) && MIN_SLOT <= k && Multiple(p.align, k)
    requires var r := s.units[s.order[0]]; r.end - r.cur >= k && len == AppendLen(p, r, k)
    ensures !s.units[s.order[0]].full && k <= len
    ensures var t := Opened(s, len);
      && FifoInv(p, t, s.units[s.order[0]].cur) && Cells(word, nodes, t.slots, s.q, l)
      && t.slots[s.units[s.order[0]].cur] == Slot(s.order[0], len, Limbo)
  {
    var cu := s.order[0];
    assert UnitFits(p, cu, cu, s.units[cu]);
    AppendOnGrid(p, s.units, s.slots, cu, k);
    OpenedKeeps(p, s, len);
    NoSlotAtEnd(p, s.units, s.slots, cu, cu);
    OpenedCells(s, word, nodes, l, len);
  }

  lemma OpenedCells(s: Fifo, word: map<int, Ref>, nodes: Nodes, l: seq<Ref>, len: int)
    requires Cells(word, nodes, s.slots, s.q, l) && s.order != [] && s.order[0] in s.units
    requires s.units[s.order[0]].cur !in s.slots
    ensures Cells(word, nodes, Opened(s, len).slots, s.q, l)
  {
    forall i | 0 <= i < |s.q| ensures Cell(word, nodes, Opened(s, len).slots, s.q[i], l[i]) {
      assert Cell(word, nodes, s.slots, s.q[i], l[i]);
    }
  }

  lemma FillStep(p: Params, s: Fifo, word: map<int, Ref>, nodes: Nodes, l: seq<Ref>)
    requires FifoInv(p, s, NONE) && Cells(word, nodes, s.slots, s.q, l)
    ensures var r := s.units[s.order[0]]; r.cur == r.end || r.end - r.cur >= EndHole(p)
    ensures var r := s.units[s.order[0]]; r.cur == r.end <==> r.full
    ensures var r := s.units[s.order[0]]; var t := Opened(s, r.end - r.cur);
      && Cells(word, nodes, t.slots, s.q, l) && t.slots[r.cur] == Slot(s.order[0], r.end - r.cur, Limbo)
      && Filled(s) == if r.cur < r.end then Prepended(t, r.cur) else s
  {
    assert UnitFits(p, s.order[0], s.order[0], s.units[s.order[0]]);
    NoSlotAtEnd(p, s.units, s.slots, s.order[0], s.order[0]);
    OpenedCells(s, word, nodes, l, s.units[s.order[0]].end - s.units[s.order[0]].cur);
  }

  lemma FullIsNoRoom(p: Params, s: Fifo)
    requires FifoInv(p, s, NONE)
    ensures s.units[s.order[0]].full <==> s.units[s.order[0]].cur == s.units[s.order[0]].end
  {
    assert UnitFits(p, s.order[0], s.order[0], s.units[s.order[0]]);
  }

  /** The record of the empty slot behind `a` now stands at `a + k`. */
  lemma MovedCell(s: Fifo, word: map<int, Ref>, nodes: Nodes, nodes': Nodes, l: seq<Ref>, a: int, k: int, n: int)
    requires a in s.slots && 0 < k < s.slots[a].len && a + k !in s.slots && NoDup(s.q) && 0 <= n < |s.q|
    requires s.q[n] == a + s.slots[a].len
    requires a + s.slots[a].len in s.slots && Cells(word, nodes, Trim(s.slots, a, k), s.q, l) && Distinct(l)
    requires l[n] in nodes' && nodes' == nodes[l[n] := nodes'[l[n]]] && nodes'[l[n]].start == a + k
    requires nodes'[l[n]].size == s.slots[a].len - k + s.slots[s.q[n]].len
    ensures Cells(word[a + k := l[n]], nodes', TakenOver(s, a, k).slots, TakenOver(s, a, k).q, l)
  {
    var t := TakenOver(s, a, k);
    assert IndexOf(s.q, s.q[n]) == n;
    forall i | 0 <= i < |t.q| ensures Cell(word[a + k := l[n]], nodes', t.slots, t.q[i], l[i]) {
      assert Cell(word, nodes, Trim(s.slots, a, k), s.q[i], l[i]);
    }
  }
}
