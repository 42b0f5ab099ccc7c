/** One step of the code on memory matches one step of the specification. */
module SharedRep {
  import opened Layout
  import opened SlotModel
  import opened SlotLayout
  import opened SlotSteps
  import opened SharedSpec
  import opened SharedMemory
  import opened SharedOps

  /** In the middle of an operation: slot `x` is in transit, slot `ex` not written yet. */
  ghost predicate Between(p: Params, m: Mem, s: State, x: int, cu: int, ex: int)
  {
    && ValidParams(p) && Inv(p, s, x, cu) && Rep(m, s, ex) && x in s.slots && ex != x
    && (ex in s.slots ==> s.slots[ex].kind.Live?)
  }

  /** What the code finds behind the slot in transit. */
  lemma NextSlot(p: Params, m: Mem, s: State, x: int, cu: int, ex: int)
    requires Between(p, m, s, x, cu, ex) && (ex in s.slots ==> ex != x + s.slots[x].len)
    ensures s.slots[x].unit in s.units && 0 < s.slots[x].len && x + s.slots[x].len <= s.units[s.slots[x].unit].cur
    ensures var n := x + s.slots[x].len;
      if n == s.units[s.slots[x].unit].cur then n !in s.slots
      else
        && n in s.slots && n in m.word && Readable(m, m.word[n])
        && (IsFreeList(m, m.word[n]) <==> FreeLen(s.slots, n) >= 0)
        && (FreeLen(s.slots, n) < 0 ==>
              s.slots[n].kind.Live? && m.word[n] == To(s.slots[n].kind.f) && s.slots[n].kind.f in m.frags)
  {
    var n := x + s.slots[x].len;
    assert Placed(p, s.units, s.slots, cu, x);
    if n == s.units[s.slots[x].unit].cur {
      AppendPointFree(p, s.units, s.slots, cu, s.slots[x].unit);
    } else {
      assert Placed(p, s.units, s.slots, cu, n) && KindOk(s, x, cu, n);
      FirstWordTells(m, s, ex, n);
      assert SlotRep(m, s.slots[n], s.follows, n);
    }
  }

  /** The header at `a` can be unlinked: all that `remove_from_free_list` touches exists. */
  ghost predicate Unlinkable(m: Mem, a: int, len: int)
  {
    && a in m.word && a in m.tail && m.tail[a].size == len && 0 <= len && |m.heads| == BUCKET_COUNT
    && (m.word[a].At? ==> m.word[a].a in m.tail) && (m.tail[a].prev.At? ==> m.tail[a].prev.a in m.word)
  }

  lemma JoinNextStep(p: Params, m: Mem, s: State, x: int, cu: int, ex: int)
    requires Between(p, m, s, x, cu, ex) && FreeLen(s.slots, x + s.slots[x].len) >= 0
    ensures var n := x + s.slots[x].len; var len := FreeLen(s.slots, n);
      && Unlinkable(m, n, len)
      && Between(p, UnlinkMem(m, Bucket(len), n), AbsorbNext(s, x), x, cu, ex)
      && (ex in s.slots ==> WordKept(m, UnlinkMem(m, Bucket(len), n), ex))
      && AbsorbNext(s, x).slots[x].len == s.slots[x].len + len
  {
    var n := x + s.slots[x].len;
    NextIsEntry(m, s, ex, n);
    UnlinkSlots(m, s, ex, n);
    UnlinkLists(m, s.slots, s.lists, n);
    JoinNextKeeps(p, s, x, cu);
    SlotsRepSame(UnlinkMem(m, Bucket(FreeLen(s.slots, n)), n), s.slots, Merge(s.slots, x), s.follows, ex);
  }

  lemma FlagStep(p: Params, m: Mem, s: State, x: int, cu: int, ex: int, f: nat, v: bool)
    requires Between(p, m, s, x, cu, ex) && f in m.frags
    requires x + s.slots[x].len in s.slots && s.slots[x + s.slots[x].len].kind == Live(f)
    ensures Between(p, FlagMem(m, f, v), if v then Mark(s, x) else Unmark(s, x), x, cu, ex)
  {
    MarkKeeps(p, s, x, cu);
    FlagRep(m, s.slots, s.follows, ex, f, v);
    FragsLists(m, s.lists, FlagMem(m, f, v).frags);
  }

  lemma NothingToMark(s: State, x: int)
    requires x in s.slots && x + s.slots[x].len !in s.slots
    ensures Mark(s, x) == s && Unmark(s, x) == s && Behind(s, x) == {}
  {
  }

  lemma AbsorbNextUnits(s: State, x: int)
    requires x in s.slots && |s.lists| == BUCKET_COUNT
    ensures var s' := AbsorbNext(s, x);
      && s'.units == s.units && s'.order == s.order && s'.flush == s.flush && x in s'.slots
      && s'.slots[x].unit == s.slots[x].unit
  {
  }

  /** The footer read backwards from the slot in transit lands on a real header. */
  lemma JoinPrevStep(p: Params, m: Mem, s: State, x: int, cu: int, ex: int)
    requires Between(p, m, s, x, cu, ex) && x in s.foot
    ensures x - FOOTER in m.feet && m.feet[x - FOOTER] == s.foot[x]
    ensures var q := x - s.foot[x];
      && FreeBefore(s, x) && Unlinkable(m, q, s.foot[x])
      && Between(p, UnlinkMem(m, Bucket(s.foot[x]), q), AbsorbPrev(s, x), q, cu, ex)
      && (ex in s.slots ==> WordKept(m, UnlinkMem(m, Bucket(s.foot[x]), q), ex))
      && AbsorbPrev(s, x).slots[q].len == s.foot[x] + s.slots[x].len
      && AbsorbPrev(s, x).slots[q].unit == s.slots[x].unit
  {
    var q := x - s.foot[x];
    JoinPrevKeeps(p, s, x, cu);
    assert KindOk(s, x, cu, x);
    assert SlotRep(m, s.slots[q], s.follows, q);
    NextIsEntry(m, s, ex, q);
    UnlinkSlots(m, s, ex, q);
    UnlinkLists(m, s.slots, s.lists, q);
    SlotsRepSame(UnlinkMem(m, Bucket(s.foot[x]), q), s.slots, Merge(s.slots, q), s.follows, ex);
  }

  /** The slot in transit fits in a free entry. */
  lemma TransitFits(p: Params, m: Mem, s: State, x: int, cu: int, ex: int)
    requires Between(p, m, s, x, cu, ex)
    ensures 0 < s.slots[x].len <= MAX_ENTRY
  {
    assert Placed(p, s.units, s.slots, cu, x);
    assert UnitOk(p, s.slots[x].unit, s.units[s.slots[x].unit]);
  }

  lemma PublishStep(p: Params, m: Mem, s: State, x: int, cu: int, ex: int)
    requires Between(p, m, s, x, cu, ex) && Ready(s, x) && MIN_SLOT <= s.slots[x].len
    requires s.slots[x].unit == cu && cu in s.units ==> x + s.slots[x].len != s.units[cu].cur
    ensures |m.heads| == BUCKET_COUNT
    ensures m.heads[Bucket(s.slots[x].len)].At? ==>
      m.heads[Bucket(s.slots[x].len)].a in m.tail && m.heads[Bucket(s.slots[x].len)].a != x
    ensures Inv(p, Publish(s, x), NONE, cu)
    ensures Rep(InsertMem(m, Bucket(s.slots[x].len), x, s.slots[x].len), Publish(s, x), ex)
  {
    var len := s.slots[x].len;
    PublishKeeps(p, s, x, cu);
    forall c | c in s.slots ensures 0 < s.slots[c].len { assert Placed(p, s.units, s.slots, cu, c); }
    InsertSlots(m, s.slots, s.follows, ex, Bucket(len), x);
    assert KindOk(s, x, cu, x);
    InsertLists(m, s.slots, s.lists, x, len);
    HeadReadable(m, s.slots, s.lists, Bucket(len), x);
  }

  lemma HeadReadable(m: Mem, slots: Slots, lists: seq<seq<int>>, b: int, x: int)
    requires ListsRep(m, lists) && Listed(slots, lists) && 0 <= b < BUCKET_COUNT && FreeLen(slots, x) < 0
    ensures m.heads[b].At? ==> m.heads[b].a in m.tail && m.heads[b].a != x
  {
    assert ListOk(slots, lists[b], b);
    if lists[b] != [] {
      assert NodeOk(m, lists[b], 0);
      assert Entry(slots, b, lists[b][0]);
    }
  }

  lemma RetractStep(p: Params, m: Mem, s: State, x: int, cu: int, ex: int)
    requires Between(p, m, s, x, cu, ex) && x !in s.foot
    requires s.slots[x].unit == cu && cu in s.units && x + s.slots[x].len == s.units[cu].cur
    ensures Inv(p, Retract(s, x), NONE, cu) && Rep(m, Retract(s, x), ex)
  {
    RetractKeeps(p, s, x, cu);
    SlotsRepSame(m, s.slots, s.slots - {x}, s.follows, ex);
  }

  lemma BehindHasHome(s: State, x: int, cu: int)
    requires Marked(s, x, cu) && x in s.slots
    ensures Behind(s, x) <= s.home.Keys
  {
    if x + s.slots[x].len in s.slots { assert KindOk(s, x, cu, x + s.slots[x].len); }
  }

  lemma BothAbsorbed(p: Params, s: State, x: int, cu: int)
    requires Inv(p, s, x, cu) && x in s.slots && s.slots[x].len >= 0
    ensures var s1 := AbsorbNext(s, x); var s2 := AbsorbPrev(s1, x); var y := Front(s1, x);
      && (x in s1.foot <==> x in s.foot)
      && y in s2.slots && Ready(s2, y) && s2.slots[y].unit == s.slots[x].unit && s2.units == s.units
      && 0 <= s2.slots[y].len
      && (if x in s.foot then MIN_SLOT <= s2.slots[y].len else y == x && s2.slots[y].len == s1.slots[x].len)
      && s1.slots[x].len >= s.slots[x].len
      && (FreeLen(s.slots, x + s.slots[x].len) >= 0 ==> s1.slots[x].len >= MIN_SLOT)
      && (FreeLen(s.slots, x + s.slots[x].len) < 0 ==> y + s2.slots[y].len == x + s.slots[x].len)
  {
    AbsorbNextReady(p, s, x, cu);
    AbsorbPrevReady(p, AbsorbNext(s, x), x, cu);
  }

  /** Between the parts of `add_to_free_list`. */
  lemma AddFreeReady(p: Params, s: State, x: int, cu: int)
    requires Inv(p, s, x, cu) && x in s.slots && s.slots[x].len >= 0 && Disposable(s, x, cu)
    ensures var s1 := AbsorbNext(s, x); var s2 := AbsorbPrev(s1, x); var y := Front(s1, x);
      && (x in s1.foot <==> x in s.foot) && (x !in s.foot ==> y == x)
      && Behind(s, x) <= s.home.Keys
      && y in s2.slots && Ready(s2, y) && s2.slots[y].unit == s.slots[x].unit && s2.units == s.units
      && 0 <= s2.slots[y].len
      && (MIN_SLOT <= s2.slots[y].len ||
        (s.slots[x].unit == cu && cu in s.units && y + s2.slots[y].len == s.units[cu].cur))
  {
    BothAbsorbed(p, s, x, cu);
    BehindHasHome(s, x, cu);
  }

  // ----- reusing an entry

  lemma SeizeStep(p: Params, m: Mem, s: State, cu: int, a: int)
    requires ValidParams(p) && Inv(p, s, NONE, cu) && Rep(m, s, NONE) && FreeLen(s.slots, a) >= 0
    ensures Unlinkable(m, a, FreeLen(s.slots, a))
    ensures Between(p, UnlinkMem(m, Bucket(FreeLen(s.slots, a)), a), Seize(s, a), a, cu, NONE)
  {
    NextIsEntry(m, s, NONE, a);
    UnlinkSlots(m, s, NONE, a);
    UnlinkLists(m, s.slots, s.lists, a);
    SeizeKeeps(p, s, a, cu);
    SlotsRepSame(UnlinkMem(m, Bucket(FreeLen(s.slots, a)), a), s.slots, SetKind(s.slots, a, Limbo), s.follows, NONE);
  }

  /** The record `fcache_add_fragment` prepares for a slot of `k` bytes. */
  ghost predicate Prepared(p: Params, r: Frag, k: int)
  {
    && r.start == START_ALIGN && 0 <= r.size <= MAX_ENTRY && r.size + r.extra == k && HEADER <= r.extra <= 100
    && !r.follows && (r.padded ==> p.align % START_ALIGN == 0)
  }

  /** The record after `place_fragment` at `x` and `FRAG_SIZE_ASSIGN` to `len`; the padding is
      stored in one byte. */
  function PlacedRecord(r: Frag, x: int, len: int): Frag
  {
    var r1 := r.(start := x + HEADER);
    r1.(extra := (len - (r1.size + StartPadding(r1))) % 256)
  }

  lemma MultipleOfFour(a: int, x: int)
    requires a % 4 == 0 && Multiple(a, x)
    ensures x % 4 == 0
  {
    var k :| x == a * k;
    assert x == 4 * ((a / 4) * k);
  }

  lemma PlacedRecordOk(p: Params, r: Frag, x: int, k: int, len: int)
    requires Prepared(p, r, k) && Multiple(p.align, x) && k <= len <= k + 127
    ensures var r' := PlacedRecord(r, x, len); FragOk(r') && HdrStart(r') == x && FragSize(r') == len && !r'.follows
  {
    if r.padded { MultipleOfFour(p.align, x); }
  }

  /** `f` is written into the slot that the specification has already given it. */
  lemma PlaceStep(p: Params, m: Mem, s: State, cu: int, x: int, f: nat, r: Frag, k: int)
    requires Inv(p, s, NONE, cu) && Rep(m, s, x) && x in s.slots && s.slots[x].kind == Live(f) && f !in s.follows
    requires Prepared(p, r, k) && k <= s.slots[x].len <= k + 127
    ensures Rep(PlaceMem(m, x, f, PlacedRecord(r, x, s.slots[x].len)), s, NONE)
  {
    var r' := PlacedRecord(r, x, s.slots[x].len);
    PlacedRecordOk(p, r, x, k, s.slots[x].len);
    forall c | c in s.slots && c != x ensures s.slots[c].kind != Live(f) {
      assert KindOk(s, NONE, cu, c) && KindOk(s, NONE, cu, x);
    }
    PlaceSlots(m, s.slots, s.follows, x, f, r');
    PlaceLists(m, s.slots, s.lists, x, f, r');
  }

  lemma OccupyStep(p: Params, m: Mem, s: State, cu: int, x: int, f: nat)
    requires Between(p, m, s, x, cu, NONE) && MIN_SLOT <= s.slots[x].len && f !in s.home
    requires x !in s.foot && x + s.slots[x].len !in s.foot && Behind(s, x) !! s.follows
    ensures Inv(p, Occupy(s, x, f), NONE, cu) && Rep(m, Occupy(s, x, f), x)
    ensures f !in Occupy(s, x, f).follows
  {
    OccupyKeeps(p, s, x, f, cu);
    SlotsRepSame(m, s.slots, s.slots, s.follows, x);
    SlotsRepSame(m, s.slots, Occupy(s, x, f).slots, s.follows, x);
  }

  lemma AddFreeFollows(s: State, x: int, cu: int)
    requires x in s.slots && |s.lists| == BUCKET_COUNT && s.slots[x].len >= 0
    ensures s.follows <= AddFree(s, x, cu).follows <= s.follows + Behind(s, x)
  {
  }

  /** Putting bytes on the free lists moves no fragment. */
  lemma AddFreeKeepsLive(s: State, x: int, cu: int, c: int)
    requires x in s.slots && s.slots[x].kind.Limbo? && |s.lists| == BUCKET_COUNT && s.slots[x].len >= 0
    requires c in s.slots && s.slots[c].kind.Live?
    ensures c in AddFree(s, x, cu).slots && AddFree(s, x, cu).slots[c] == s.slots[c]
  {
    var s1 := AbsorbNext(s, x);
    assert c in s1.slots && s1.slots[c] == s.slots[c] && s1.slots[x].kind.Limbo?;
    var s2 := AbsorbPrev(s1, x);
    assert c in s2.slots && s2.slots[c] == s.slots[c];
    assert Front(s1, x) != c;
  }

  /** Walking a list by its first words follows the specification's sequence. */
  lemma ListCursor(m: Mem, s: State, b: int, i: int)
    requires Rep(m, s, NONE) && Listed(s.slots, s.lists) && 0 <= b < BUCKET_COUNT && 0 <= i < |s.lists[b]|
    requires NONE !in s.slots
    ensures var c := s.lists[b][i];
      && c in s.slots && c in m.word && c in m.tail && m.tail[c].size == s.slots[c].len
      && m.word[c] == NextOf(s.lists[b], i)
      && FreeLen(s.slots, c) == s.slots[c].len >= 0 && Bucket(FreeLen(s.slots, c)) == b
  {
    var c := s.lists[b][i];
    assert ListOk(s.slots, s.lists[b], b) && c in s.lists[b];
    assert Entry(s.slots, b, c);
    assert NodeOk(m, s.lists[b], i);
    assert SlotRep(m, s.slots[c], s.follows, c);
  }

  lemma OccupyPartShape(s: State, cu: int, x: int, k: int, f: nat)
    requires x in s.slots && s.slots[x].kind.Limbo? && 0 < k && MIN_SLOT <= s.slots[x].len - k
    requires |s.lists| == BUCKET_COUNT
    requires f !in s.follows && f !in Behind(s, x) && x + k !in s.slots
    ensures var s' := OccupyPart(s, x, k, f); var t := s.slots[x];
      && x + k in s'.slots && s'.slots[x + k] == Slot(t.unit, t.len - k, Limbo) && Disposable(s', x + k, cu)
      && s'.units == s.units && s'.order == s.order && s'.flush == s.flush && s'.foot == s.foot
      && |s'.lists| == BUCKET_COUNT
      && f !in Behind(s', x + k)
      && f !in AddFree(s', x + k, cu).follows
      && x in AddFree(s', x + k, cu).slots && AddFree(s', x + k, cu).slots[x] == Slot(t.unit, k, Live(f))
  {
    var s' := OccupyPart(s, x, k, f);
    AddFreeFollows(s', x + k, cu);
    AddFreeKeepsLive(s', x + k, cu, x);
  }

  /** While the remainder of a split entry is put back, the fragment's own slot is unwritten, */
  lemma OccupyPartStep(p: Params, m: Mem, s: State, cu: int, x: int, k: int, f: nat)
    requires Between(p, m, s, x, cu, NONE) && MIN_SLOT <= k && MIN_SLOT <= s.slots[x].len - k && Multiple(p.align, k)
    requires f !in s.home && x !in s.foot
    requires s.slots[x].unit == cu && cu in s.units ==> x + s.slots[x].len != s.units[cu].end
    ensures Between(p, m, OccupyPart(s, x, k, f), x + k, cu, x)
    ensures var s' := OccupyPart(s, x, k, f); var t := s.slots[x];
      && s'.slots[x + k] == Slot(t.unit, t.len - k, Limbo) && Disposable(s', x + k, cu)
      && s'.units == s.units && s'.order == s.order && s'.flush == s.flush && x + k !in s'.foot
      && f !in Behind(s', x + k)
  {
    BehindHasHome(s, x, cu);
    OccupyPartKeeps(p, s, x, k, f, cu);
    assert KindOk(s, x, cu, x);
    OccupyPartShape(s, cu, x, k, f);
    SlotsRepSame(m, s.slots, s.slots, s.follows, x);
    SlotsRepSame(m, s.slots, OccupyPart(s, x, k, f).slots, s.follows, x);
  }

  /** and it is still there, unmarked, when that is done. */
  lemma OccupyPartRest(p: Params, s: State, cu: int, x: int, k: int, f: nat)
    requires Inv(p, s, x, cu) && x in s.slots && MIN_SLOT <= k && MIN_SLOT <= s.slots[x].len - k
    requires f !in s.home
    ensures var s' := OccupyPart(s, x, k, f); var t := s.slots[x];
      && x + k in s'.slots && s'.slots[x + k].len >= 0
      && f !in AddFree(s', x + k, cu).follows
      && x in AddFree(s', x + k, cu).slots && AddFree(s', x + k, cu).slots[x] == Slot(t.unit, k, Live(f))
  {
    BehindHasHome(s, x, cu);
    assert KindOk(s, x, cu, x);
    OccupyPartShape(s, cu, x, k, f);
  }

  /** The unit found by address is the unit of the slot. */
  lemma UnitOfSlot(p: Params, units: Units, slots: Slots, cu: int, a: int, u: int)
    requires Laid(p, units, slots, cu) && a in slots && u in units && u <= a < units[u].reserved
    ensures slots[a].unit == u
  {
    assert Placed(p, units, slots, cu, a);
    assert UnitOk(p, slots[a].unit, units[slots[a].unit]);
  }

  lemma SlotUnitExists(p: Params, units: Units, slots: Slots, cu: int, a: int)
    requires Laid(p, units, slots, cu) && a in slots
    ensures slots[a].unit in units && slots[a].unit <= a < units[slots[a].unit].reserved
  {
    assert Placed(p, units, slots, cu, a);
    assert UnitOk(p, slots[a].unit, units[slots[a].unit]);
  }

  // ----- the end of the unit

  /** The rest of the current unit on its way to the free lists. */
  lemma FillStep(p: Params, m: Mem, s: State, cu: int)
    requires ValidParams(p) && Inv(p, s, NONE, cu) && Rep(m, s, NONE) && cu in s.units
    requires s.units[cu].cur < s.units[cu].end
    ensures var a := s.units[cu].cur; var s' := Fill(s, cu);
      && EndHole(p) <= s.units[cu].end - a
      && Between(p, m, s', a, NONE, NONE)
      && s'.slots[a] == Slot(cu, s.units[cu].end - a, Limbo) && Disposable(s', a, NONE) && a !in s'.foot
      && s'.order == s.order && s'.flush == s.flush
      && s'.units == s.units[cu := s.units[cu].(cur := s.units[cu].end, full := true)]
      && AddFree(s', a, NONE) == Close(s, cu) && Behind(s', a) == {}
  {
    var a := s.units[cu].cur;
    var s' := Fill(s, cu);
    FillKeeps(p, s, cu);
    NothingAtEnd(p, s, cu);
    SlotsRepSame(m, s.slots, s'.slots, s.follows, NONE);
    assert UnitOk(p, cu, s.units[cu]);
    FillAddFree(s, cu);
  }

  lemma FillAddFree(s: State, u: int)
    requires u in s.units && s.units[u].cur < s.units[u].end && s.units[u].cur !in s.foot && s.units[u].end !in s.slots
    requires |s.lists| == BUCKET_COUNT && u > 0
    ensures AddFree(Fill(s, u), s.units[u].cur, NONE) == Publish(Fill(s, u), s.units[u].cur)
    ensures Behind(Fill(s, u), s.units[u].cur) == {}
  {
    NothingToMark(Fill(s, u), s.units[u].cur);
  }

  lemma AppendStep(p: Params, m: Mem, s: State, cu: int, len: int, f: nat)
    requires Inv(p, s, NONE, cu) && Rep(m, s, NONE) && cu in s.units && f !in s.home
    requires Inv(p, Append(s, cu, len, f), NONE, cu)
    ensures Rep(m, Append(s, cu, len, f), s.units[cu].cur)
    ensures f !in Append(s, cu, len, f).follows
  {
    SlotsRepSame(m, s.slots, s.slots, s.follows, s.units[cu].cur);
    SlotsRepSame(m, s.slots, Append(s, cu, len, f).slots, s.follows, s.units[cu].cur);
  }

  /** A fragment that is not in the cache yet. Shifting its start needs slots aligned for it. */
  ghost predicate NewFragment(p: Params, r: Frag)
  {
    0 <= r.size <= MAX_ENTRY && !r.follows && (r.padded ==> p.align % START_ALIGN == 0)
  }

  /** The slot size of `fcache_add_fragment`: body and header, rounded up to the minimum and to
      the alignment. */
  function SlotSize(p: Params, size: int): int
    requires 0 < p.align
  {
    AlignUp(p.align, if size + HEADER < MIN_SLOT then MIN_SLOT else size + HEADER)
  }

  /** The slot size is a legal request, the smallest that holds body and header, and its padding fits in
      one byte. */
  lemma SlotSizePrepared(p: Params, r: Frag)
    requires ValidParams(p) && NewFragment(p, r)
    ensures var k := SlotSize(p, r.size);
      && MIN_SLOT <= k && Multiple(p.align, k) && r.size + HEADER <= k
      && (k < r.size + HEADER + p.align || k < MIN_SLOT + p.align)
      && Prepared(p, r.(start := START_ALIGN, extra := (k - r.size) % 256), k)
  {
  }

  /** Records of fragments outside the cache are free to change. */
  lemma FragsRep(m: Mem, s: State, f: nat, r: Frag)
    requires Rep(m, s, NONE) && forall c | c in s.slots :: s.slots[c].kind != Live(f)
    ensures Rep(m.(frags := m.frags[f := r]), s, NONE)
  {
    FragsLists(m, s.lists, m.frags[f := r]);
    forall c | c in s.slots && c != NONE ensures SlotRep(m.(frags := m.frags[f := r]), s.slots[c], s.follows, c) {
      assert SlotRep(m, s.slots[c], s.follows, c);
    }
  }

  lemma NotInAnySlot(s: State, x: int, cu: int, f: nat)
    requires Marked(s, x, cu) && f !in s.home
    ensures forall c | c in s.slots :: s.slots[c].kind != Live(f)
  {
    forall c | c in s.slots ensures s.slots[c].kind != Live(f) { assert KindOk(s, x, cu, c); }
  }

  // ----- fragments in their slots

  /** The record of a fragment in the cache: its slot, and its body inside the slot. */
  lemma FragmentSlot(p: Params, m: Mem, s: State, f: nat)
    requires Good(p, s) && Rep(m, s, NONE) && f in s.home
    ensures f in m.frags && FragOk(m.frags[f])
    ensures var r := m.frags[f]; var a := s.home[f];
      && a in s.slots && s.slots[a].kind == Live(f) && HdrStart(r) == a && FragSize(r) == s.slots[a].len
      && a < r.start && r.start + r.size <= a + s.slots[a].len
      && (r.follows <==> f in s.follows) && (r.follows <==> a in s.foot)
      && s.slots[a].unit in s.units && MIN_SLOT <= s.slots[a].len && Multiple(p.align, a)
      && Multiple(p.align, s.slots[a].len)
      && s.slots[a].unit <= a
      && a + s.slots[a].len <= s.units[s.slots[a].unit].cur <= s.units[s.slots[a].unit].end
      && s.units[s.slots[a].unit].end <= s.units[s.slots[a].unit].reserved
  {
    var a := s.home[f];
    assert SlotRep(m, s.slots[a], s.follows, a) && KindOk(s, NONE, s.order[0], a);
    assert Placed(p, s.units, s.slots, s.order[0], a);
    assert UnitOk(p, s.slots[a].unit, s.units[s.slots[a].unit]);
  }

  /** Any address inside a slot leads to the slot's unit. */
  lemma UnitOfAddress(p: Params, s: State, a: int, pc: int, u: int)
    requires Good(p, s) && a in s.slots && a <= pc < a + s.slots[a].len && u in s.units && u <= pc < s.units[u].reserved
    ensures s.slots[a].unit == u
  {
    assert Placed(p, s.units, s.slots, s.order[0], a);
    assert UnitOk(p, s.slots[a].unit, s.units[s.slots[a].unit]);
  }

  lemma VacateStep(p: Params, m: Mem, s: State, f: nat)
    requires Good(p, s) && Rep(m, s, NONE) && f in s.home && s.home[f] in s.slots && s.slots[s.home[f]].kind == Live(f)
    requires MIN_SLOT <= s.slots[s.home[f]].len
    ensures var a := s.home[f]; var s' := Vacate(s, a);
      && Between(p, m, s', a, s.order[0], NONE)
      && s'.slots[a] == s.slots[a].(kind := Limbo) && Disposable(s', a, s.order[0]) && f !in s'.home
      && s'.foot == s.foot && s'.units == s.units && s'.order == s.order && s'.flush == s.flush
  {
    var a := s.home[f];
    VacateKeeps(p, s, a, s.order[0]);
    SlotsVacated(m, s, a, f, s.order[0]);
  }

  lemma SlotsVacated(m: Mem, s: State, a: int, f: nat, cu: int)
    requires Marked(s, NONE, cu) && SlotsRep(m, s.slots, s.follows, NONE) && a in s.slots && s.slots[a].kind == Live(f)
    ensures SlotsRep(m, Vacate(s, a).slots, Vacate(s, a).follows, NONE)
  {
    var s' := Vacate(s, a);
    assert KindOk(s, NONE, cu, a);
    forall c | c in s'.slots && c != NONE ensures SlotRep(m, s'.slots[c], s'.follows, c) {
      assert SlotRep(m, s.slots[c], s.follows, c) && KindOk(s, NONE, cu, c);
    }
  }

  /** A record may change inside its slot. */
  lemma RecordRep(m: Mem, s: State, f: nat, r: Frag)
    requires Rep(m, s, NONE) && f in s.home && s.home[f] in s.slots && s.slots[s.home[f]].kind == Live(f)
    requires FragOk(r) && HdrStart(r) == s.home[f] && FragSize(r) == s.slots[s.home[f]].len
    requires (r.follows <==> f in s.follows)
    requires forall c | c in s.slots && c != s.home[f] :: s.slots[c].kind != Live(f)
    ensures Rep(m.(frags := m.frags[f := r]), s, NONE)
  {
    FragsLists(m, s.lists, m.frags[f := r]);
    forall c | c in s.slots && c != NONE ensures SlotRep(m.(frags := m.frags[f := r]), s.slots[c], s.follows, c) {
      assert SlotRep(m, s.slots[c], s.follows, c);
    }
  }

  lemma OneHome(s: State, x: int, cu: int, f: nat)
    requires Marked(s, x, cu) && f in s.home
    ensures forall c | c in s.slots && c != s.home[f] :: s.slots[c].kind != Live(f)
  {
    forall c | c in s.slots && c != s.home[f] ensures s.slots[c].kind != Live(f) { assert KindOk(s, x, cu, c); }
  }

  /** Shifting the start inside its alignment keeps the header address and the slot size. */
  lemma ShiftedRecord(r: Frag, space: int)
    requires r.padded && r.start % START_ALIGN == 0 && 0 <= space < START_ALIGN
    ensures var r' := r.(start := r.start + space, size := r.size - space);
      HdrStart(r') == HdrStart(r) && FragSize(r') == FragSize(r) && r'.start + r'.size == r.start + r.size
  {
  }

  // ----- giving back the end of a slot

  /** The slot a fragment keeps when it gives up `space` bytes of its body: what a new request of
      that size would get, start padding included. */
  function KeptLen(p: Params, r: Frag, space: int): int
    requires 0 < p.align
  {
    var z := r.size - space + HEADER + StartPadding(r);
    AlignUp(p.align, if z < MIN_SLOT then MIN_SLOT else z)
  }

  /** The arithmetic of `fcache_return_extra_space`: nothing underflows, the slot boundary stays
      on the grid, and the bytes kept and the bytes returned add up to the slot. */
  lemma ReturnArithmetic(p: Params, r: Frag, a: int, space: int)
    requires ValidParams(p) && FragOk(r) && HdrStart(r) == a && Multiple(p.align, a) && Multiple(p.align, FragSize(r))
    requires MIN_SLOT <= FragSize(r) && 0 <= space <= r.size
    ensures var fs := FragSize(r);
      var ret0 := space + r.extra - HEADER;
      var small := fs - ret0 < MIN_SLOT;
      var minPadding := if small then ret0 - (fs - MIN_SLOT) else 0;
      var ret1 := if small then fs - MIN_SLOT else ret0;
      var end := a + fs - ret1;
      var slotPadding := AlignUp(p.align, end) - end;
      && 0 <= ret0 && 0 <= minPadding && 0 <= ret1 && 0 <= slotPadding <= ret1
      && ret1 - slotPadding == fs - KeptLen(p, r, space)
      && r.size - space + HEADER + StartPadding(r) + slotPadding + minPadding == KeptLen(p, r, space)
      && MIN_SLOT <= KeptLen(p, r, space) <= fs && Multiple(p.align, KeptLen(p, r, space))
      && HEADER <= KeptLen(p, r, space) - (r.size - space) - StartPadding(r) <= 100
  {
    var y := r.size - space + HEADER + StartPadding(r);
    var z := if y < MIN_SLOT then MIN_SLOT else y;
    AlignUpShift(p.align, a, z);
    AlignUpLeast(p.align, z, FragSize(r));
  }

  lemma ShedStep(p: Params, m: Mem, s: State, a: int, k: int)
    requires Good(p, s) && Rep(m, s, NONE) && a in s.slots && s.slots[a].kind.Live? && s.slots[a].unit in s.units
    requires Releasable(p, s, a, k)
    requires !(s.slots[a].unit == s.order[0] && a + s.slots[a].len == s.units[s.order[0]].cur)
    ensures Between(p, m, Shed(s, a, k), a + k, s.order[0], a)
    ensures Disposable(Shed(s, a, k), a + k, s.order[0]) && a + k !in Shed(s, a, k).foot
  {
    SlotInUnit(p, s, a);
    ShedKeeps(p, s, a, k, s.order[0]);
    ShedShape(p, s, a, k, s.order[0]);
    ResizedRep(m, s.slots, Shed(s, a, k).slots, s.follows, a);
  }

  lemma ShedIs(s: State, a: int, k: int)
    requires a in s.slots && s.slots[a].unit in s.units && s.order != [] && |s.lists| == BUCKET_COUNT
    requires 0 < k <= s.slots[a].len
    ensures var s' := Shed(s, a, k); var t := s.slots[a];
      && s'.slots[a + k] == Slot(t.unit, t.len - k, Limbo) && a in s'.slots
      && s'.units == s.units && s'.order == s.order && s'.flush == s.flush && s'.home == s.home
      && (if t.unit == s.order[0] && a + t.len == s.units[s.order[0]].cur then Release(s, a, k) == ShrinkLast(s, a, k)
          else Release(s, a, k) == AddFree(s', a + k, s.order[0]))
  {
  }

  /** While slot `a` changes its length, all the others stay written. */
  lemma ResizedRep(m: Mem, slots: Slots, slots': Slots, follows: set<nat>, a: int)
    requires SlotsRep(m, slots, follows, NONE) && NONE !in slots
    requires forall c | c in slots' && !slots'[c].kind.Limbo? && c != a :: c in slots && slots[c] == slots'[c]
    ensures SlotsRep(m, slots', follows, a)
  {
    SlotsRepSame(m, slots, slots, follows, a);
    SlotsRepSame(m, slots, slots', follows, a);
  }

  lemma ShrinkStep(m: Mem, s: State, a: int, k: int)
    requires Rep(m, s, NONE) && NONE !in s.slots && a in s.slots && s.slots[a].unit in s.units
    ensures Rep(m, ShrinkLast(s, a, k), a)
  {
    ResizedRep(m, s.slots, ShrinkLast(s, a, k).slots, s.follows, a);
  }

  lemma NotBehindItself(p: Params, s: State, a: int, k: int, f: nat)
    requires Good(p, s) && a in s.slots && s.slots[a].kind == Live(f) && 0 < k < s.slots[a].len
    ensures a + k in Shed(s, a, k).slots && f !in Behind(Shed(s, a, k), a + k)
  {
    var n := a + s.slots[a].len;
    assert KindOk(s, NONE, s.order[0], a);
    if n in s.slots { assert KindOk(s, NONE, s.order[0], n); }
  }

  /** The tail of slot `a`, cut off, is ready for the free lists. */
  lemma TailStep(p: Params, m: Mem, s: State, a: int, k: int, f: nat)
    requires Good(p, s) && Rep(m, s, NONE) && a in s.slots && s.slots[a].kind == Live(f) && s.slots[a].unit in s.units
    requires Releasable(p, s, a, k)
    requires !(s.slots[a].unit == s.order[0] && a + s.slots[a].len == s.units[s.order[0]].cur)
    ensures var s', t := Shed(s, a, k), s.slots[a];
      && Between(p, m, s', a + k, s.order[0], a) && Disposable(s', a + k, s.order[0]) && a + k !in s'.foot
      && s'.slots[a + k] == Slot(t.unit, t.len - k, Limbo) && a in s'.slots && f !in Behind(s', a + k)
      && s'.units == s.units && s'.order == s.order && s'.flush == s.flush
  {
    ShedIs(s, a, k);
    ShedStep(p, m, s, a, k);
    NotBehindItself(p, s, a, k, f);
  }

  /** What the code finds behind a fragment's slot inside its unit. */
  lemma SlotAfter(p: Params, m: Mem, s: State, a: int)
    requires Good(p, s) && Rep(m, s, NONE) && a in s.slots && s.slots[a].unit in s.units
    requires a + s.slots[a].len != s.units[s.slots[a].unit].cur
    ensures var n := a + s.slots[a].len;
      n in s.slots && n in m.word && Readable(m, m.word[n]) && (IsFreeList(m, m.word[n]) <==> FreeLen(s.slots, n) >= 0)
  {
    var n := a + s.slots[a].len;
    assert Placed(p, s.units, s.slots, s.order[0], a);
    assert Placed(p, s.units, s.slots, s.order[0], n) && KindOk(s, NONE, s.order[0], n);
    FirstWordTells(m, s, NONE, n);
  }

  /** After the release the fragment still has its slot, now `k` bytes long. */
  lemma ReleasedSlot(p: Params, s: State, a: int, k: int, f: nat)
    requires Good(p, s) && a in s.slots && s.slots[a].kind == Live(f) && s.slots[a].unit in s.units
    requires 0 < k < s.slots[a].len
    ensures var s' := Release(s, a, k);
      && a in s'.slots && s'.slots[a] == s.slots[a].(len := k) && s'.home == s.home
      && (f in s'.follows <==> f in s.follows)
  {
    ShedIs(s, a, k);
    ReleaseOrder(s, a, k);
    if !(s.slots[a].unit == s.order[0] && a + s.slots[a].len == s.units[s.order[0]].cur) {
      ReleasedInside(p, s, a, k, f, Shed(s, a, k));
    }
  }

  lemma ReleasedInside(p: Params, s: State, a: int, k: int, f: nat, t: State)
    requires Good(p, s) && a in s.slots && s.slots[a].kind == Live(f) && s.slots[a].unit in s.units
    requires 0 < k < s.slots[a].len && t == Shed(s, a, k)
    ensures a + k in t.slots && |t.lists| == BUCKET_COUNT && t.slots[a + k].len >= 0
    ensures var r := AddFree(t, a + k, s.order[0]);
      && a in r.slots && r.slots[a] == s.slots[a].(len := k) && (f in r.follows <==> f in s.follows)
  {
    ShedIs(s, a, k);
    NotBehindItself(p, s, a, k, f);
    assert t.slots[a] == s.slots[a].(len := k) && t.follows == s.follows;
    AddFreeFollows(t, a + k, s.order[0]);
    AddFreeKeepsLive(t, a + k, s.order[0], a);
  }

  /** The record of the fragment at `a` is brought in line with its slot. */
  lemma ResizedRecord(p: Params, m: Mem, s: State, cu: int, f: nat, r: Frag)
    requires Inv(p, s, NONE, cu) && f in s.home && s.home[f] in s.slots && s.slots[s.home[f]].kind == Live(f)
    requires Rep(m, s, s.home[f]) && s.home[f] in m.word && m.word[s.home[f]] == To(f)
    requires FragOk(r) && HdrStart(r) == s.home[f] && FragSize(r) == s.slots[s.home[f]].len
    requires (r.follows <==> f in s.follows)
    ensures Rep(m.(frags := m.frags[f := r]), s, NONE)
  {
    var a := s.home[f];
    OneHome(s, NONE, cu, f);
    PlaceSlots(m, s.slots, s.follows, a, f, r);
    PlaceLists(m, s.slots, s.lists, a, f, r);
    assert PlaceMem(m, a, f, r) == m.(frags := m.frags[f := r]);
  }

  /** What `fcache_return_extra_space` leaves of the slot of `f`, whose record was `r`: the slot is
      `total` bytes long in `s'`. */
  ghost predicate SlotKept(p: Params, s: State, r: Frag, s': State, f: nat, space: int, total: int)
    requires 0 < p.align
  {
    && f in s.home && s.home[f] in s.slots && s.slots[s.home[f]].unit in s.units && s.order != []
    && |s.lists| == BUCKET_COUNT
    && var a, k := s.home[f], KeptLen(p, r, space);
      && MIN_SLOT <= k <= FragSize(r) == s.slots[a].len
      && HEADER <= total - (r.size - space) - StartPadding(r) <= 255
      && (if Releasable(p, s, a, k) then s' == Release(s, a, k) && total == k else s' == s && total == FragSize(r))
      && s'.home == s.home && a in s'.slots && s'.slots[a] == s.slots[a].(len := total) && s.slots[a].kind == Live(f)
      && (f in s'.follows <==> f in s.follows)
  }

  /** What a fragment keeps beyond the bytes it needs would be of no use to others: at the end of the unit
      too little for an append, and elsewhere too little for a slot. */
  lemma KeptIsSnug(p: Params, s: State, r: Frag, s': State, f: nat, space: int, total: int)
    requires ValidParams(p) && SlotKept(p, s, r, s', f, space, total) && Multiple(p.align, KeptLen(p, r, space))
    ensures var a, waste := s.home[f], total - KeptLen(p, r, space);
      var e, u := a + total, s.units[s.slots[a].unit];
      && 0 <= waste < EndHole(p)
      && (waste > 0 ==>
            if e == u.end then true else e != u.cur && FreeLen(s.slots, e) < 0 && waste < EmptyHole(p))
  {
  }

  lemma ReturnedSlot(p: Params, m: Mem, s: State, f: nat, space: int)
    requires Good(p, s) && Rep(m, s, NONE) && f in s.home && f in m.frags && 0 <= space <= m.frags[f].size
    ensures var r, a := m.frags[f], s.home[f]; var k := KeptLen(p, r, space);
      && a in s.slots && a in m.word && m.word[a] == To(f) && s.slots[a].unit in s.units
      && (Releasable(p, s, a, k) ==> Good(p, Release(s, a, k)) && s.slots[a].len - k > 0)
      && (Releasable(p, s, a, k) ==>
            var s' := Release(s, a, k);
            && a in s'.slots && s'.slots[a] == s.slots[a].(len := k) && s'.home == s.home
            && (f in s'.follows <==> f in s.follows))
      && (!Releasable(p, s, a, k) ==> s.slots[a].len - k <= 127)
  {
    var r, a := m.frags[f], s.home[f];
    FragmentSlot(p, m, s, f);
    assert SlotRep(m, s.slots[a], s.follows, a);
    ReturnArithmetic(p, r, a, space);
    var k := KeptLen(p, r, space);
    if Releasable(p, s, a, k) {
      ReleaseKeeps(p, s, a, k);
      ReleasedSlot(p, s, a, k, f);
      ReleaseOrder(s, a, k);
    }
  }

  lemma KeptOrder(p: Params, m: Mem, s: State, f: nat, space: int)
    requires Good(p, s) && Rep(m, s, NONE) && f in s.home && f in m.frags && 0 <= space <= m.frags[f].size
    ensures s.home[f] in s.slots && s.slots[s.home[f]].unit in s.units
    ensures Releasable(p, s, s.home[f], KeptLen(p, m.frags[f], space)) ==>
      Release(s, s.home[f], KeptLen(p, m.frags[f], space)).order == s.order
  {
    ReturnedSlot(p, m, s, f, space);
    var k := KeptLen(p, m.frags[f], space);
    if Releasable(p, s, s.home[f], k) { ReleaseOrder(s, s.home[f], k); }
  }

  lemma KeptCases(p: Params, m: Mem, s: State, f: nat, space: int)
    requires Good(p, s) && Rep(m, s, NONE) && f in s.home && f in m.frags && 0 <= space <= m.frags[f].size
    ensures var r, a := m.frags[f], s.home[f]; var k := KeptLen(p, r, space);
      && a in s.slots && a in m.word && m.word[a] == To(f) && s.slots[a].unit in s.units && k <= FragSize(r)
      && (Releasable(p, s, a, k) ==>
            Release(s, a, k).home == s.home && SlotKept(p, s, r, Release(s, a, k), f, space, k))
      && (!Releasable(p, s, a, k) ==> SlotKept(p, s, r, s, f, space, FragSize(r)))
      && (k == FragSize(r) ==> !Releasable(p, s, a, k))
  {
    FragmentSlot(p, m, s, f);
    ReturnArithmetic(p, m.frags[f], s.home[f], space);
    ReturnedSlot(p, m, s, f, space);
  }

  // ----- walking the cache

  /** `pc` lies in the body of the fragment, not in its header or padding. */
  predicate InBody(r: Frag, pc: int)
  {
    r.start <= pc < r.start + r.size
  }

  /** What a physical walk reads at a slot, and where it goes next. */
  lemma WalkStep(p: Params, m: Mem, s: State, pc: int)
    requires Good(p, s) && Rep(m, s, NONE) && pc in s.slots
    ensures var t := s.slots[pc];
      && pc in m.word && Readable(m, m.word[pc]) && 0 < t.len
      && t.unit in s.units && pc + t.len <= s.units[t.unit].cur
      && (pc + t.len == s.units[t.unit].cur || (pc + t.len in s.slots && s.slots[pc + t.len].unit == t.unit))
      && (if IsFreeList(m, m.word[pc]) then t.kind.Free? && pc in m.tail && m.tail[pc].size == t.len
          else
            && t.kind.Live? && m.word[pc] == To(t.kind.f) && t.kind.f in m.frags && FragSize(m.frags[t.kind.f]) == t.len
            && t.kind.f in s.home && s.home[t.kind.f] == pc
            && pc < m.frags[t.kind.f].start && m.frags[t.kind.f].start + m.frags[t.kind.f].size <= pc + t.len)
  {
    assert Placed(p, s.units, s.slots, s.order[0], pc) && KindOk(s, NONE, s.order[0], pc);
    assert SlotRep(m, s.slots[pc], s.follows, pc);
    FirstWordTells(m, s, NONE, pc);
  }

  /** No slot of unit `u` before `pc` holds a fragment with `target` in its body. */
  ghost predicate NotBefore(m: Mem, slots: Slots, u: int, pc: int, target: int)
  {
    forall c | c in slots && slots[c].unit == u && c < pc && slots[c].kind.Live? ::
      slots[c].kind.f in m.frags && !InBody(m.frags[slots[c].kind.f], target)
  }

  lemma NotBeforeStep(m: Mem, slots: Slots, u: int, pc: int, target: int)
    requires NotBefore(m, slots, u, pc, target) && pc in slots && Disjoint(slots) && 0 < slots[pc].len
    requires slots[pc].kind.Live? ==> slots[pc].kind.f in m.frags && !InBody(m.frags[slots[pc].kind.f], target)
    ensures NotBefore(m, slots, u, pc + slots[pc].len, target)
  {
  }

  /** When the walk of unit `u` passes `target` or ends, no fragment has `target` in its body. */
  lemma WalkMissed(p: Params, m: Mem, s: State, u: int, pc: int, target: int)
    requires Good(p, s) && Rep(m, s, NONE) && u in s.units && u <= target < s.units[u].reserved
    requires NotBefore(m, s.slots, u, pc, target) && (pc >= s.units[u].cur || pc >= target)
    ensures forall f | f in s.home :: f in m.frags && !InBody(m.frags[f], target)
  {
    forall f | f in s.home ensures f in m.frags && !InBody(m.frags[f], target) {
      FragmentSlot(p, m, s, f);
      if InBody(m.frags[f], target) { UnitOfAddress(p, s, s.home[f], target, u); }
    }
  }

  lemma NoUnitNoBody(p: Params, m: Mem, s: State, target: int)
    requires Good(p, s) && Rep(m, s, NONE) && forall u | u in s.units :: !(u <= target < s.units[u].reserved)
    ensures forall f | f in s.home :: f in m.frags && !InBody(m.frags[f], target)
  {
    forall f | f in s.home ensures f in m.frags && !InBody(m.frags[f], target) {
      FragmentSlot(p, m, s, f);
    }
  }

  /** At most one fragment has a given address in its body. */
  lemma BodiesDisjoint(p: Params, m: Mem, s: State, f: nat, g: nat, pc: int)
    requires Good(p, s) && Rep(m, s, NONE) && f in s.home && g in s.home
    requires f in m.frags && g in m.frags && InBody(m.frags[f], pc) && InBody(m.frags[g], pc)
    ensures f == g
  {
    FragmentSlot(p, m, s, f);
    FragmentSlot(p, m, s, g);
  }

  lemma UnitStart(p: Params, m: Mem, s: State, u: int, target: int)
    requires Good(p, s) && u in s.units
    ensures u >= s.units[u].cur || (u in s.slots && s.slots[u].unit == u)
    ensures NotBefore(m, s.slots, u, u, target)
  {
    forall c | c in s.slots && s.slots[c].unit ==
      u ensures u <= c { assert Placed(p, s.units, s.slots, s.order[0], c); }
  }
}
