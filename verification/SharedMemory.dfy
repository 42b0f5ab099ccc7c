/** The cache memory as the code sees it: words, free-list headers and footers at addresses, and
    the fragment records outside. */
module SharedMemory {
  import opened Layout
  import opened SlotModel
  import opened SlotLayout

  /** A pointer stored in the cache: null, another free-list header, or a fragment record. */
  datatype Ptr = Null | At(a: int) | To(f: nat)

  /** The fields of `free_list_header_t` behind its first word; `free` is the flag
      `FRAG_FCACHE_FREE_LIST`. */
  datatype Tail = Tail(free: bool, size: int, prev: Ptr)

  /** `fragment_t`; `padded` says that jump padding may have shifted its start. */
  datatype Frag = Frag(start: int, size: int, extra: int, padded: bool, follows: bool, deleted: bool)

  datatype Mem = Mem(word: map<int, Ptr>, tail: map<int, Tail>, feet: map<int, int>, heads: seq<Ptr>, frags: map<nat,
    Frag>)

  /** `FRAG_START_PADDING` */
  function StartPadding(r: Frag): (d: int)
    ensures 0 <= d < START_ALIGN
  {
    if r.padded then r.start % START_ALIGN else 0
  }

  /** `FRAG_HDR_START` */
  function HdrStart(r: Frag): int
  {
    r.start - HEADER - StartPadding(r)
  }

  /** `FRAG_SIZE` */
  function FragSize(r: Frag): int
  {
    r.size + r.extra + StartPadding(r)
  }

  /** The header counts as padding, which fits in one byte. */
  predicate FragOk(r: Frag)
  {
    0 <= r.size <= MAX_ENTRY && HEADER <= r.extra <= 255
  }

  // ----- how memory represents the specification state

  ghost predicate SlotRep(m: Mem, t: Slot, follows: set<nat>, a: int)
  {
    match t.kind
    case Live(f) =>
      && a in m.word && m.word[a] == To(f)
      && f in m.frags && FragOk(m.frags[f]) && HdrStart(m.frags[f]) == a && FragSize(m.frags[f]) == t.len
      && (m.frags[f].follows <==> f in follows)
    case Free =>
      && a in m.word && a in m.tail && m.tail[a].size == t.len && m.tail[a].free
      && a + t.len - FOOTER in m.feet && m.feet[a + t.len - FOOTER] == t.len
    case Limbo => true
  }

  /** All slots but `ex` are written down. */
  ghost predicate SlotsRep(m: Mem, slots: Slots, follows: set<nat>, ex: int)
  {
    forall a {:trigger SlotRep(m, slots[a], follows, a)} | a in slots && a != ex :: SlotRep(m, slots[a], follows, a)
  }

  function NextOf(l: seq<int>, i: int): Ptr
    requires 0 <= i < |l|
  {
    if i + 1 < |l| then At(l[i + 1]) else Null
  }

  function PrevOf(l: seq<int>, i: int): Ptr
    requires 0 <= i < |l|
  {
    if i == 0 then Null else At(l[i - 1])
  }

  function HeadOf(l: seq<int>): Ptr
  {
    if l == [] then Null else At(l[0])
  }

  ghost predicate NodeOk(m: Mem, l: seq<int>, i: int)
    requires 0 <= i < |l|
  {
    l[i] in m.word && l[i] in m.tail && m.word[l[i]] == NextOf(l, i) && m.tail[l[i]].prev == PrevOf(l, i)
  }

  /** `l` is doubly linked through the headers in memory. */
  ghost predicate Linked(m: Mem, l: seq<int>)
  {
    forall i {:trigger NodeOk(m, l, i)} | 0 <= i < |l| :: NodeOk(m, l, i)
  }

  ghost predicate ListsRep(m: Mem, lists: seq<seq<int>>)
  {
    && |m.heads| == |lists| == BUCKET_COUNT
    && forall b | 0 <= b < BUCKET_COUNT :: m.heads[b] == HeadOf(lists[b]) && Linked(m, lists[b])
  }

  ghost predicate Rep(m: Mem, s: State, ex: int)
  {
    SlotsRep(m, s.slots, s.follows, ex) && ListsRep(m, s.lists)
  }

  // ----- linking and unlinking

  /** The writes of `remove_from_free_list`. */
  function UnlinkMem(m: Mem, b: int, a: int): Mem
    requires 0 <= b < |m.heads| && a in m.word && a in m.tail
  {
    var next, prev := m.word[a], m.tail[a].prev;
    var m1 := if prev.At? then m.(word := m.word[prev.a := next]) else m.(heads := m.heads[b := next]);
    if next.At? && next.a in m1.tail then m1.(tail := m1.tail[next.a := m1.tail[next.a].(prev := prev)]) else m1
  }

  lemma UnlinkLinked(m: Mem, b: int, l: seq<int>, i: int)
    requires 0 <= b < |m.heads| && 0 <= i < |l| && NoDup(l) && Linked(m, l) && m.heads[b] == HeadOf(l)
    requires l[i] in m.word && l[i] in m.tail
    ensures Linked(UnlinkMem(m, b, l[i]), l[..i] + l[i + 1..])
    ensures UnlinkMem(m, b, l[i]).heads == m.heads[b := HeadOf(l[..i] + l[i + 1..])]
  {
    var m' := UnlinkMem(m, b, l[i]);
    var l' := l[..i] + l[i + 1..];
    assert NodeOk(m, l, i);
    if i > 0 { assert NodeOk(m, l, i - 1); }
    if i + 1 < |l| { assert NodeOk(m, l, i + 1); }
    forall j | 0 <= j < |l'| ensures NodeOk(m', l', j) {
      assert NodeOk(m, l, if j < i then j else j + 1);
    }
  }

  lemma UnlinkOther(m: Mem, b: int, l: seq<int>, i: int, k: seq<int>)
    requires 0 <= b < |m.heads| && 0 <= i < |l| && Linked(m, l) && Linked(m, k)
    requires l[i] in m.word && l[i] in m.tail
    requires forall c | c in k :: c !in l
    ensures Linked(UnlinkMem(m, b, l[i]), k)
  {
    var m' := UnlinkMem(m, b, l[i]);
    assert NodeOk(m, l, i);
    forall j | 0 <= j < |k| ensures NodeOk(m', k, j) {
      assert NodeOk(m, k, j);
      assert k[j] in k;
      if i > 0 { assert l[i - 1] in l; }
      if i + 1 < |l| { assert l[i + 1] in l; }
    }
  }

  /** Different size classes share no entry. */
  lemma ClassesApart(slots: Slots, lists: seq<seq<int>>, b: int, c: int)
    requires Listed(slots, lists) && 0 <= b < BUCKET_COUNT && 0 <= c < BUCKET_COUNT && b != c
    ensures forall a | a in lists[c] :: a !in lists[b]
  {
    assert ListOk(slots, lists[b], b) && ListOk(slots, lists[c], c);
    forall a | a in lists[c] ensures a !in lists[b] {
      assert Entry(slots, c, a);
      assert !Entry(slots, b, a);
    }
  }

  lemma UnlinkLists(m: Mem, slots: Slots, lists: seq<seq<int>>, a: int)
    requires Listed(slots, lists) && ListsRep(m, lists) && FreeLen(slots, a) >= 0 && a in m.word && a in m.tail
    ensures ListsRep(UnlinkMem(m, Bucket(FreeLen(slots, a)), a), Delist(lists, FreeLen(slots, a), a))
  {
    var b := Bucket(FreeLen(slots, a));
    assert ListOk(slots, lists[b], b) && Entry(slots, b, a);
    var i := IndexOf(lists[b], a);
    UnlinkLinked(m, b, lists[b], i);
    var m' := UnlinkMem(m, b, a);
    var lists' := Delist(lists, FreeLen(slots, a), a);
    forall c | 0 <= c < BUCKET_COUNT ensures m'.heads[c] == HeadOf(lists'[c]) && Linked(m', lists'[c]) {
      if c != b {
        ClassesApart(slots, lists, b, c);
        UnlinkOther(m, b, lists[b], i, lists[c]);
      }
    }
  }

  /** The writes at the end of `add_to_free_list`. */
  function InsertMem(m: Mem, b: int, a: int, size: int): Mem
    requires 0 <= b < |m.heads|
  {
    var head := m.heads[b];
    var m1 := m.(word := m.word[a := head], tail := m.tail[a := Tail(true, size, Null)],
                 feet := m.feet[a + size - FOOTER := size], heads := m.heads[b := At(a)]);
    if head.At? && head.a in m1.tail then m1.(tail := m1.tail[head.a := m1.tail[head.a].(prev := At(a))]) else m1
  }

  lemma InsertLinked(m: Mem, b: int, l: seq<int>, a: int, size: int)
    requires 0 <= b < |m.heads| && NoDup(l) && a !in l && Linked(m, l) && m.heads[b] == HeadOf(l)
    ensures Linked(InsertMem(m, b, a, size), [a] + l)
  {
    var m' := InsertMem(m, b, a, size);
    var l' := [a] + l;
    if l != [] { assert NodeOk(m, l, 0); }
    forall j | 0 <= j < |l'| ensures NodeOk(m', l', j) {
      if j > 0 { assert NodeOk(m, l, j - 1); assert l[j - 1] in l; }
    }
  }

  lemma InsertOther(m: Mem, b: int, l: seq<int>, a: int, size: int, k: seq<int>)
    requires 0 <= b < |m.heads| && m.heads[b] == HeadOf(l) && a !in k && Linked(m, k)
    requires forall c | c in k :: c !in l
    ensures Linked(InsertMem(m, b, a, size), k)
  {
    var m' := InsertMem(m, b, a, size);
    forall j | 0 <= j < |k| ensures NodeOk(m', k, j) {
      assert NodeOk(m, k, j);
      assert k[j] in k;
      if l != [] { assert l[0] in l; }
    }
  }

  lemma InsertLists(m: Mem, slots: Slots, lists: seq<seq<int>>, a: int, size: int)
    requires Listed(slots, lists) && ListsRep(m, lists) && FreeLen(slots, a) < 0 <= size
    ensures ListsRep(InsertMem(m, Bucket(size), a, size), Enlist(lists, size, a))
  {
    var b := Bucket(size);
    var m' := InsertMem(m, b, a, size);
    var lists' := Enlist(lists, size, a);
    forall c | 0 <= c < BUCKET_COUNT ensures a !in lists[c] {
      assert ListOk(slots, lists[c], c);
      assert !Entry(slots, c, a);
    }
    assert ListOk(slots, lists[b], b);
    InsertLinked(m, b, lists[b], a, size);
    forall c | 0 <= c < BUCKET_COUNT ensures m'.heads[c] == HeadOf(lists'[c]) && Linked(m', lists'[c]) {
      if c != b {
        ClassesApart(slots, lists, b, c);
        InsertOther(m, b, lists[b], a, size, lists[c]);
      }
    }
  }

  ghost predicate SameRecord(m: Mem, m': Mem, f: nat)
  {
    (f in m.frags <==> f in m'.frags) && (f in m.frags ==> m.frags[f] == m'.frags[f])
  }

  /** The first word at `ex`, if written, is left alone. */
  ghost predicate WordKept(m: Mem, m': Mem, ex: int)
  {
    ex in m.word ==> ex in m'.word && m'.word[ex] == m.word[ex]
  }

  function Core(r: Frag): Frag
  {
    r.(follows := false)
  }

  /** Fragment records change at most in their mark, */
  ghost predicate CoresKept(m: Mem, m': Mem)
  {
    forall g | g in m.frags :: g in m'.frags && Core(m'.frags[g]) == Core(m.frags[g])
  }

  /** except that `f` may move and be padded. */
  ghost predicate BodiesKept(m: Mem, m': Mem, f: nat)
  {
    forall g | g in m.frags ::
      && g in m'.frags
      && (if g != f then Core(m'.frags[g]) == Core(m.frags[g])
          else
            && m'.frags[g].size == m.frags[g].size && m'.frags[g].padded == m.frags[g].padded
            && m'.frags[g].deleted == m.frags[g].deleted)
  }

  ghost predicate BodiesKeptBut(m: Mem, m': Mem, f: nat)
  {
    forall g | g in m.frags :: g in m'.frags && (g != f ==> Core(m'.frags[g]) == Core(m.frags[g]))
  }

  lemma SameFrags(m: Mem, m': Mem)
    requires forall f :: SameRecord(m, m', f)
    ensures m.frags == m'.frags
  {
    assert m.frags.Keys == m'.frags.Keys by {
      forall f ensures f in m.frags.Keys <==> f in m'.frags.Keys { assert SameRecord(m, m', f); }
    }
    forall f | f in m.frags ensures m.frags[f] == m'.frags[f] { assert SameRecord(m, m', f); }
  }

  // ----- reading

  ghost predicate Readable(m: Mem, q: Ptr)
  {
    q.At? ==> q.a in m.tail
  }

  /** `FRAG_IS_FREE_LIST` on the first word of a slot. */
  predicate IsFreeList(m: Mem, q: Ptr)
    requires Readable(m, q)
  {
    q.Null? || (q.At? && m.tail[q.a].free)
  }

  lemma NextIsEntry(m: Mem, s: State, ex: int, c: int)
    requires Rep(m, s, ex) && Listed(s.slots, s.lists) && FreeLen(s.slots, c) >= 0
    requires ex in s.slots ==> !s.slots[ex].kind.Free?
    ensures c in m.word && (m.word[c].Null? || (m.word[c].At? && m.word[c].a in m.tail && m.tail[m.word[c].a].free))
    ensures c in m.tail
    ensures
      || m.tail[c].prev.Null?
      || (m.tail[c].prev.At? && m.tail[c].prev.a in m.word && FreeLen(s.slots, m.tail[c].prev.a) >= 0)
    ensures m.tail[c].size == FreeLen(s.slots, c)
  {
    var b := Bucket(FreeLen(s.slots, c));
    assert ListOk(s.slots, s.lists[b], b) && Entry(s.slots, b, c);
    var i := IndexOf(s.lists[b], c);
    assert NodeOk(m, s.lists[b], i);
    assert SlotRep(m, s.slots[c], s.follows, c);
    if i + 1 < |s.lists[b]| {
      var n := s.lists[b][i + 1];
      assert n in s.lists[b];
      assert Entry(s.slots, b, n);
      assert SlotRep(m, s.slots[n], s.follows, n);
    }
    if i > 0 {
      assert s.lists[b][i - 1] in s.lists[b];
      assert Entry(s.slots, b, s.lists[b][i - 1]);
      assert NodeOk(m, s.lists[b], i - 1);
    }
  }

  /** The null-or-flag test on the first word tells free entries from fragments. */
  lemma FirstWordTells(m: Mem, s: State, ex: int, c: int)
    requires Rep(m, s, ex) && Listed(s.slots, s.lists) && c in s.slots && c != ex && !s.slots[c].kind.Limbo?
    requires 0 <= s.slots[c].len
    requires ex in s.slots ==> !s.slots[ex].kind.Free?
    ensures c in m.word && Readable(m, m.word[c])
    ensures IsFreeList(m, m.word[c]) <==> s.slots[c].kind.Free?
  {
    assert SlotRep(m, s.slots[c], s.follows, c);
    if s.slots[c].kind.Free? { NextIsEntry(m, s, ex, c); }
  }

  // ----- each step keeps the representation

  lemma UnlinkSlots(m: Mem, s: State, ex: int, a: int)
    requires Rep(m, s, ex) && Listed(s.slots, s.lists) && FreeLen(s.slots, a) >= 0
    requires ex in s.slots ==> !s.slots[ex].kind.Free?
    ensures a in m.word && a in m.tail
    ensures SlotsRep(UnlinkMem(m, Bucket(FreeLen(s.slots, a)), a), s.slots, s.follows, ex)
  {
    NextIsEntry(m, s, ex, a);
    var m' := UnlinkMem(m, Bucket(FreeLen(s.slots, a)), a);
    forall c | c in s.slots && c != ex ensures SlotRep(m', s.slots[c], s.follows, c) {
      assert SlotRep(m, s.slots[c], s.follows, c);
    }
  }

  /** Slots that are the same or in transit need no new writes. */
  lemma SlotsRepSame(m: Mem, slots: Slots, slots': Slots, follows: set<nat>, ex: int)
    requires SlotsRep(m, slots, follows, ex)
    requires forall c | c in slots' && !slots'[c].kind.Limbo? && c != ex :: c in slots && slots[c] == slots'[c]
    ensures SlotsRep(m, slots', follows, ex)
  {
    forall c | c in slots' && c != ex ensures SlotRep(m, slots'[c], follows, c) {
      if !slots'[c].kind.Limbo? { assert SlotRep(m, slots[c], follows, c); }
    }
  }

  /** Setting or clearing the mark of fragment `f`. */
  function FlagMem(m: Mem, f: nat, v: bool): Mem
    requires f in m.frags
  {
    m.(frags := m.frags[f := m.frags[f].(follows := v)])
  }

  lemma FlagRep(m: Mem, slots: Slots, follows: set<nat>, ex: int, f: nat, v: bool)
    requires SlotsRep(m, slots, follows, ex) && f in m.frags
    ensures SlotsRep(FlagMem(m, f, v), slots, if v then follows + {f} else follows - {f}, ex)
  {
    var follows' := if v then follows + {f} else follows - {f};
    forall c | c in slots && c != ex ensures SlotRep(FlagMem(m, f, v), slots[c], follows', c) {
      assert SlotRep(m, slots[c], follows, c);
    }
  }

  lemma InsertSlots(m: Mem, slots: Slots, follows: set<nat>, ex: int, b: int, x: int)
    requires SlotsRep(m, slots, follows, ex) && Disjoint(slots) && x in slots && x != ex && 0 <= b < |m.heads|
    requires forall c | c in slots :: 0 < slots[c].len
    ensures SlotsRep(InsertMem(m, b, x, slots[x].len), SetKind(slots, x, Free), follows, ex)
  {
    var m' := InsertMem(m, b, x, slots[x].len);
    var slots' := SetKind(slots, x, Free);
    forall c | c in slots' && c != ex ensures SlotRep(m', slots'[c], follows, c) {
      assert SlotRep(m, slots[c], follows, c);
    }
  }

  /** `place_fragment` and the record that goes with it. */
  function PlaceMem(m: Mem, x: int, f: nat, r: Frag): Mem
  {
    m.(word := m.word[x := To(f)], frags := m.frags[f := r])
  }

  lemma PlaceSlots(m: Mem, slots: Slots, follows: set<nat>, x: int, f: nat, r: Frag)
    requires SlotsRep(m, slots, follows, x) && x in slots && slots[x].kind == Live(f)
    requires forall c | c in slots && c != x :: slots[c].kind != Live(f)
    requires FragOk(r) && HdrStart(r) == x && FragSize(r) == slots[x].len && (r.follows <==> f in follows)
    ensures SlotsRep(PlaceMem(m, x, f, r), slots, follows, NONE)
  {
    var m' := PlaceMem(m, x, f, r);
    forall c | c in slots && c != NONE ensures SlotRep(m', slots[c], follows, c) {
      if c != x { assert SlotRep(m, slots[c], follows, c); }
    }
  }

  /** Lists do not depend on fragment records, nor on words outside their entries. */
  lemma PlaceLists(m: Mem, slots: Slots, lists: seq<seq<int>>, x: int, f: nat, r: Frag)
    requires ListsRep(m, lists) && Listed(slots, lists) && FreeLen(slots, x) < 0
    ensures ListsRep(PlaceMem(m, x, f, r), lists)
  {
    var m' := PlaceMem(m, x, f, r);
    forall b | 0 <= b < BUCKET_COUNT ensures Linked(m', lists[b]) {
      assert ListOk(slots, lists[b], b);
      assert !Entry(slots, b, x);
      forall i | 0 <= i < |lists[b]| ensures NodeOk(m', lists[b], i) {
        assert NodeOk(m, lists[b], i);
        assert lists[b][i] in lists[b];
      }
    }
  }

  lemma FragsLists(m: Mem, lists: seq<seq<int>>, frags: map<nat, Frag>)
    requires ListsRep(m, lists)
    ensures ListsRep(m.(frags := frags), lists)
  {
    var m' := m.(frags := frags);
    forall b | 0 <= b < BUCKET_COUNT ensures Linked(m', lists[b]) {
      forall i | 0 <= i < |lists[b]| ensures NodeOk(m', lists[b], i) { assert NodeOk(m, lists[b], i); }
    }
  }
}
