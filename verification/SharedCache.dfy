/** The shared code cache of Simulator/core/fcache.c: free lists threaded through the cache
    memory, boundary footers, and units with commit on demand. */
module SharedCache {
  import opened Layout
  import opened SlotModel
  import opened SlotLayout
  import opened SlotSteps
  import opened SharedSpec
  import opened SharedOps
  import opened SharedRuns
  import opened SharedMemory
  import opened SharedRep
  import opened SharedChain

  class Cache {
    const p: Params
    var units: Units
    /** The unit list, newest first. */
    var order: seq<int>
    /** The units that wait to be flushed. */
    var flush: seq<int>
    var mem: Mem
    ghost var abs: State

    ghost predicate Valid()
      reads this
    {
      Good(p, abs) && Rep(mem, abs, NONE) && units == abs.units && order == abs.order && flush == abs.flush
    }

    /** `fcache_cache_init` with its first unit. */
    constructor (params: Params, g: Region)
      requires ValidParams(params) && RegionOk(params, map[], g)
      ensures Valid() && p == params && abs == Initial(g)
    {
      p := params;
      units := map[g.base := Unit(g.base, g.base + g.committed, g.base + g.reserved, false)];
      order := [g.base];
      flush := [];
      mem := Mem(map[], map[], map[], seq(BUCKET_COUNT, _ => Null), map[]);
      abs := Initial(g);
      InitialGood(params, g);
    }

    /** The unit table agrees with the specification, except that the append point of a unit
        being closed has not moved over the slot at `x` yet. */
    ghost predicate UnitsAgree(u: int, x: int, cu: int)
      reads this
    {
      && u in units && u in abs.units
      && (if cu == NONE then
            && units == abs.units[u := abs.units[u].(cur := x, full := false)]
            && x in abs.slots && abs.units[u].cur == x + abs.slots[x].len
          else units == abs.units)
    }

    /** `find_free_list_bucket` */
    method FindBucket(size: int) returns (b: int)
      requires 0 <= size
      ensures b == Bucket(size)
    {
      b := BUCKET_COUNT - 1;
      while size < BUCKETS[b]
        invariant 0 <= b < BUCKET_COUNT
        invariant Bucket(size) <= b
        decreases b
      {
        b := b - 1;
      }
    }

    /** `remove_from_free_list` */
    method RemoveFromFreeList(b: int, a: int)
      requires 0 <= b < |mem.heads| && a in mem.word && a in mem.tail
      requires mem.word[a].At? ==> mem.word[a].a in mem.tail
      requires mem.tail[a].prev.At? ==> mem.tail[a].prev.a in mem.word
      modifies this`mem
      ensures mem == UnlinkMem(old(mem), b, a)
    {
      var next, prev := mem.word[a], mem.tail[a].prev;
      if prev.At? {
        mem := mem.(word := mem.word[prev.a := next]);
      } else {
        mem := mem.(heads := mem.heads[b := next]);
      }
      if next.At? {
        mem := mem.(tail := mem.tail[next.a := mem.tail[next.a].(prev := prev)]);
      }
    }

    /** The first part of `add_to_free_list`: the next slot is absorbed or marked. */
    method CoalesceNext(u: int, start: int, size: int, ghost cu: int, ghost ex: int) returns (size': int)
      requires Between(p, mem, abs, start, cu, ex) && UnitsAgree(u, start, cu) && ex != start + size
      requires abs.slots[start].unit == u && abs.slots[start].len == size
      modifies this`mem, this`abs
      ensures abs == AbsorbNext(old(abs), start)
      ensures Between(p, mem, abs, start, cu, ex) && UnitsAgree(u, start, cu)
      ensures size' == abs.slots[start].len
      ensures CoresKept(old(mem), mem) && forall g | g !in Behind(old(abs), start) :: SameRecord(old(mem), mem, g)
      ensures ex in old(abs).slots ==> WordKept(old(mem), mem, ex) && ex in abs.slots
    {
      size' := size;
      var n := start + size;
      NextSlot(p, mem, abs, start, cu, ex);
      if units[u].cur > n {
        var subseq := mem.word[n];
        if IsFreeList(mem, subseq) {
          size' := TakeInNext(start, size, cu, ex);
        } else {
          MarkNext(start, n, subseq.f, cu, ex);
        }
      } else {
        NothingToMark(abs, start);
        assert AbsorbNext(abs, start) == abs;
      }
    }

    /** The free entry behind the bytes comes off its list and becomes part of them. */
    method TakeInNext(start: int, size: int, ghost cu: int, ghost ex: int) returns (size': int)
      requires Between(p, mem, abs, start, cu, ex) && cu != NONE && units == abs.units
      requires abs.slots[start].len == size && FreeLen(abs.slots, start + size) >= 0
      requires ex != start + size
      modifies this`mem, this`abs
      ensures abs == AbsorbNext(old(abs), start)
      ensures Between(p, mem, abs, start, cu, ex) && units == abs.units
      ensures size' == abs.slots[start].len && mem.frags == old(mem.frags)
      ensures ex in old(abs).slots ==> WordKept(old(mem), mem, ex) && ex in abs.slots
    {
      var n := start + size;
      ghost var s' := AbsorbNext(abs, start);
      JoinNextStep(p, mem, abs, start, cu, ex);
      AbsorbNextUnits(abs, start);
      var nextSize := mem.tail[n].size;
      var b := FindBucket(nextSize);
      size' := size + nextSize;
      assert ex in abs.slots ==> ex in s'.slots;
      RemoveFromFreeList(b, n);
      abs := s';
    }

    /** The fragment behind the bytes is marked. */
    method MarkNext(ghost start: int, ghost n: int, f: nat, ghost cu: int, ghost ex: int)
      requires Between(p, mem, abs, start, cu, ex) && cu != NONE && units == abs.units && f in mem.frags
      requires n == start + abs.slots[start].len && n in abs.slots && abs.slots[n].kind == Live(f)
      modifies this`mem, this`abs
      ensures abs == AbsorbNext(old(abs), start)
      ensures Between(p, mem, abs, start, cu, ex) && units == abs.units && abs.slots == old(abs).slots
      ensures CoresKept(old(mem), mem) && forall g | g !in Behind(old(abs), start) :: SameRecord(old(mem), mem, g)
      ensures WordKept(old(mem), mem, ex)
    {
      FlagStep(p, mem, abs, start, cu, ex, f, true);
      mem := mem.(frags := mem.frags[f := mem.frags[f].(follows := true)]);
      abs := Mark(abs, start);
    }

    /** The second part: the previous slot, found through its footer, is absorbed. */
    method CoalescePrev(f: Option<nat>, start: int, size: int, ghost cu: int, ghost ex: int)
      returns (start': int, size': int)
      requires Between(p, mem, abs, start, cu, ex) && abs.slots[start].len == size
      requires f.Some? ==> f.value in mem.frags && (mem.frags[f.value].follows <==> start in abs.foot)
      requires f.None? ==> start !in abs.foot
      modifies this`mem, this`abs
      ensures abs == AbsorbPrev(old(abs), start) && start' == Front(old(abs), start)
      ensures Between(p, mem, abs, start', cu, ex) && size' == abs.slots[start'].len
      ensures mem.frags == old(mem.frags)
      ensures ex in old(abs).slots ==> WordKept(old(mem), mem, ex) && ex in abs.slots
    {
      start', size' := start, size;
      if f.Some? && mem.frags[f.value].follows {
        JoinPrevStep(p, mem, abs, start, cu, ex);
        var prevSize := mem.feet[start - FOOTER];
        start' := start - prevSize;
        var b := FindBucket(prevSize);
        size' := size + mem.tail[start'].size;
        RemoveFromFreeList(b, start');
      }
      abs := AbsorbPrev(abs, start);
    }

    /** Header, footer and list head of a new free entry are written. */
    method InsertEntry(b: int, start: int, size: int)
      requires 0 <= b < |mem.heads| && (mem.heads[b].At? ==> mem.heads[b].a in mem.tail && mem.heads[b].a != start)
      modifies this`mem
      ensures mem == InsertMem(old(mem), b, start, size)
    {
      var head := mem.heads[b];
      mem := mem.(word := mem.word[start := head], tail := mem.tail[start := Tail(true, size, Null)]);
      mem := mem.(feet := mem.feet[start + size - FOOTER := size]);
      if head.At? {
        mem := mem.(tail := mem.tail[head.a := mem.tail[head.a].(prev := At(start))]);
      }
      mem := mem.(heads := mem.heads[b := At(start)]);
    }

    /** The last part: the bytes become unclaimed space or a free entry. */
    method InsertOrRetract(u: int, start: int, size: int, ghost cu: int, ghost ex: int)
      requires Between(p, mem, abs, start, cu, ex) && UnitsAgree(u, start, cu) && order != []
      requires (cu == NONE || cu == order[0])
      requires abs.slots[start].unit == u && abs.slots[start].len == size >= 0 && Ready(abs, start)
      requires MIN_SLOT <= size || (u == cu && start + size == units[u].cur)
      modifies this`mem, this`abs, this`units
      ensures abs == Settle(old(abs), start, cu)
      ensures Inv(p, abs, NONE, cu) && Rep(mem, abs, ex)
      ensures cu != NONE ==> units == abs.units
      ensures cu == NONE ==> units == old(units) && abs.units == old(abs).units
      ensures mem.frags == old(mem.frags) && WordKept(old(mem), mem, ex)
    {
      TransitFits(p, mem, abs, start, cu, ex);
      if u == order[0] && units[u].cur == start + size {
        RetractStep(p, mem, abs, start, cu, ex);
        units := units[u := units[u].(cur := start, full := false)];
      } else {
        PublishStep(p, mem, abs, start, cu, ex);
        var b := FindBucket(size);
        InsertEntry(b, start, size);
      }
      abs := Settle(abs, start, cu);
    }

    /** `add_to_free_list`: the bytes of a fragment `f`, or other bytes, go on the free lists. */
    method AddToFreeList(u: int, f: Option<nat>, start: int, size: int, ghost cu: int, ghost ex: int)
      requires Between(p, mem, abs, start, cu, ex) && UnitsAgree(u, start, cu) && order != []
      requires (cu == NONE || cu == order[0])
      requires abs.slots[start].unit == u && abs.slots[start].len == size >= 0 && ex != start + size
      requires Disposable(abs, start, cu)
      requires f.Some? ==>
        f.value in mem.frags && f.value !in abs.home && (mem.frags[f.value].follows <==> start in abs.foot)
      requires f.None? || cu == NONE ==> start !in abs.foot
      modifies this`mem, this`abs, this`units
      ensures abs == AddFree(old(abs), start, cu)
      ensures Inv(p, abs, NONE, cu) && Rep(mem, abs, ex)
      ensures cu != NONE ==> units == abs.units
      ensures cu == NONE ==> units == old(units) && abs.units == old(abs).units
      ensures CoresKept(old(mem), mem) && forall g | g !in Behind(old(abs), start) :: SameRecord(old(mem), mem, g)
      ensures ex in old(abs).slots ==> WordKept(old(mem), mem, ex)
    {
      TransitFits(p, mem, abs, start, cu, ex);
      assert size <= MAX_ENTRY;
      AddFreeReady(p, abs, start, cu);
      var size1 := CoalesceNext(u, start, size, cu, ex);
      var start2, size2 := CoalescePrev(f, start, size1, cu, ex);
      InsertOrRetract(u, start2, size2, cu, ex);
    }

    /** The search of `find_free_list_slot` through one list. */
    method SearchList(b: int, k: int) returns (found: Option<int>)
      requires Rep(mem, abs, NONE) && Listed(abs.slots, abs.lists) && NONE !in abs.slots && 0 <= b < BUCKET_COUNT
      ensures found == FirstFit(abs.slots, abs.lists[b], k)
      ensures found.Some? ==> FreeLen(abs.slots, found.value) >= 0 && Bucket(FreeLen(abs.slots, found.value)) == b
    {
      var header := mem.heads[b];
      ghost var l := abs.lists[b];
      ghost var i := 0;
      assert l[0..] == l;
      if header.At? { ListCursor(mem, abs, b, 0); }
      while header.At? && mem.tail[header.a].size < k
        invariant 0 <= i <= |l|
        invariant header == if i < |l| then At(l[i]) else Null
        invariant header.At? ==> header.a in mem.word && header.a in mem.tail && header.a in abs.slots
        invariant header.At? ==>
          mem.tail[header.a].size == abs.slots[header.a].len && mem.word[header.a] == NextOf(l, i)
        invariant FirstFit(abs.slots, l, k) == FirstFit(abs.slots, l[i..], k)
        decreases |l| - i
      {
        FirstFitStep(abs.slots, l, i, k);
        header := mem.word[header.a];
        i := i + 1;
        if header.At? { ListCursor(mem, abs, b, i); }
      }
      if header.At? {
        FirstFitStep(abs.slots, l, i, k);
        ListCursor(mem, abs, b, i);
        found := Some(header.a);
      } else {
        found := None;
      }
    }

    /** The search of `find_free_list_slot` over the size classes. */
    method SearchLists(k: int) returns (b: int, found: Option<int>)
      requires Rep(mem, abs, NONE) && Listed(abs.slots, abs.lists) && NONE !in abs.slots && 0 <= k
      ensures found == Search(abs.slots, abs.lists, Bucket(k), k)
      ensures found.Some? ==> FreeLen(abs.slots, found.value) >= 0 && Bucket(FreeLen(abs.slots, found.value)) == b
    {
      found := None;
      b := FindBucket(k);
      while b < BUCKET_COUNT
        invariant 0 <= b <= BUCKET_COUNT && found.None?
        invariant Search(abs.slots, abs.lists, Bucket(k), k) == Search(abs.slots, abs.lists, b, k)
        decreases BUCKET_COUNT - b
      {
        if !mem.heads[b].Null? {
          found := SearchList(b, k);
          if found.Some? {
            return;
          }
        }
        b := b + 1;
      }
    }

    /** `fcache_lookup_unit`: the unit whose reservation contains `pc`. */
    method LookupUnit(pc: int) returns (r: Option<int>)
      ensures r.Some? ==> r.value in units && r.value <= pc < units[r.value].reserved
      ensures r.None? ==> forall u | u in units :: !(u <= pc < units[u].reserved)
    {
      if exists u :: u in units && u <= pc < units[u].reserved {
        var u :| u in units && u <= pc < units[u].reserved;
        r := Some(u);
      } else {
        r := None;
      }
    }

    /** `place_fragment` and `FRAG_SIZE_ASSIGN`. */
    method PlaceFragment(f: nat, x: int, k: int, len: int, ghost cu: int)
      requires Inv(p, abs, NONE, cu) && Rep(mem, abs, x) && x in abs.slots && abs.slots[x].kind == Live(f)
      requires abs.slots[x].len == len
      requires f in mem.frags && f !in abs.follows && Prepared(p, mem.frags[f], k) && k <= len <= k + 127
      modifies this`mem
      ensures mem == PlaceMem(old(mem), x, f, PlacedRecord(old(mem).frags[f], x, len))
      ensures Rep(mem, abs, NONE)
    {
      PlaceStep(p, mem, abs, cu, x, f, mem.frags[f], k);
      mem := mem.(word := mem.word[x := To(f)]);
      mem := mem.(frags := mem.frags[f := mem.frags[f].(start := x + HEADER)]);
      var extra := len - (mem.frags[f].size + StartPadding(mem.frags[f]));
      mem := mem.(frags := mem.frags[f := mem.frags[f].(extra := extra % 256)]);
    }

    /** `find_free_list_slot`, splitting the entry in transit at `a`: the remainder goes back. */
    method PutBackRest(ghost f: nat, u: int, a: int, size: int, k: int)
      requires order != [] && order[0] != NONE && Between(p, mem, abs, a, order[0], NONE) && units == abs.units
      requires u in units
      requires abs.slots[a].unit == u && abs.slots[a].len == size && a !in abs.foot
      requires MIN_SLOT <= k && Multiple(p.align, k) && size - k > EmptyHole(p)
      requires u == order[0] ==> a + size != units[u].end
      requires f !in abs.home
      modifies this`mem, this`abs, this`units
      ensures abs == AddFree(OccupyPart(old(abs), a, k, f), a + k, order[0])
      ensures Inv(p, abs, NONE, order[0]) && Rep(mem, abs, a) && units == abs.units && SameRecord(old(mem), mem, f)
      ensures CoresKept(old(mem), mem)
    {
      OccupyPartStep(p, mem, abs, order[0], a, k, f);
      abs := OccupyPart(abs, a, k, f);
      AddToFreeList(u, None, a + k, size - k, order[0], a);
    }

    method TakePart(f: nat, u: int, a: int, size: int, k: int)
      requires order != [] && order[0] != NONE && Between(p, mem, abs, a, order[0], NONE) && units == abs.units
      requires u in units
      requires abs.slots[a].unit == u && abs.slots[a].len == size && a !in abs.foot
      requires MIN_SLOT <= k && Multiple(p.align, k) && size - k > EmptyHole(p)
      requires u == order[0] ==> a + size != units[u].end
      requires f !in abs.home && f in mem.frags && Prepared(p, mem.frags[f], k)
      modifies this`mem, this`abs, this`units
      ensures abs == AddFree(OccupyPart(old(abs), a, k, f), a + k, order[0])
      ensures Inv(p, abs, NONE, order[0]) && Rep(mem, abs, NONE) && units == abs.units && BodiesKept(old(mem), mem, f)
    {
      OccupyPartRest(p, abs, order[0], a, k, f);
      PutBackRest(f, u, a, size, k);
      PlaceFragment(f, a, k, k, order[0]);
    }

    /** The slot behind the entry in transit at `a` does not follow a free entry any more. */
    method UnmarkNext(ghost f: nat, u: int, a: int, size: int)
      requires order != [] && Between(p, mem, abs, a, order[0], NONE) && units == abs.units && u in units
      requires abs.slots[a].unit == u && abs.slots[a].len == size && FreeLen(abs.slots, a + size) < 0 && f !in abs.home
      modifies this`mem, this`abs
      ensures abs == Unmark(old(abs), a) && Between(p, mem, abs, a, order[0], NONE)
      ensures CoresKept(old(mem), mem) && SameRecord(old(mem), mem, f)
    {
      NextSlot(p, mem, abs, a, order[0], NONE);
      BehindHasHome(abs, a, order[0]);
      if units[u].cur > a + size {
        var subseq := mem.word[a + size];
        FlagStep(p, mem, abs, a, order[0], NONE, subseq.f, false);
        mem := mem.(frags := mem.frags[subseq.f := mem.frags[subseq.f].(follows := false)]);
      } else {
        NothingToMark(abs, a);
      }
      abs := Unmark(abs, a);
    }

    /** `find_free_list_slot`, taking the whole entry in transit at `a`. */
    method TakeWhole(f: nat, u: int, a: int, size: int, k: int)
      requires order != [] && order[0] != NONE && Between(p, mem, abs, a, order[0], NONE) && units == abs.units
      requires u in units
      requires abs.slots[a].unit == u && abs.slots[a].len == size && a !in abs.foot && a + size !in abs.foot
      requires MIN_SLOT <= k <= size <= k + EmptyHole(p)
      requires FreeLen(abs.slots, a + size) < 0
      requires f !in abs.home && f in mem.frags && Prepared(p, mem.frags[f], k)
      modifies this`mem, this`abs
      ensures abs == Occupy(Unmark(old(abs), a), a, f)
      ensures Inv(p, abs, NONE, order[0]) && Rep(mem, abs, NONE) && BodiesKept(old(mem), mem, f)
    {
      UnmarkNext(f, u, a, size);
      OccupyStep(p, mem, abs, order[0], a, f);
      abs := Occupy(abs, a, f);
      PlaceFragment(f, a, k, size, order[0]);
    }

    /** `find_free_list_slot` after the search: the entry leaves its list. */
    method TakeOffList(b: int, a: int) returns (u: int, size: int)
      requires Valid() && FreeLen(abs.slots, a) >= 0 && b == Bucket(FreeLen(abs.slots, a))
      modifies this`mem, this`abs
      ensures abs == Seize(old(abs), a) && order[0] != NONE && mem.frags == old(mem.frags)
      ensures Between(p, mem, abs, a, order[0], NONE) && units == abs.units && u in units
      ensures abs.slots[a].unit == u && abs.slots[a].len == size && a !in abs.foot && a + size !in abs.foot
      ensures FreeLen(abs.slots, a + size) < 0 && abs.home == old(abs).home && size == FreeLen(old(abs).slots, a)
      ensures u == order[0] ==> a + size != units[u].end
    {
      CurrentUnit(p, abs);
      SeizeStep(p, mem, abs, order[0], a);
      SeizedEntry(p, abs, a);
      SlotUnitExists(p, abs.units, abs.slots, order[0], a);
      size := mem.tail[a].size;
      RemoveFromFreeList(b, a);
      var lookup := LookupUnit(a);
      UnitOfSlot(p, abs.units, abs.slots, order[0], a, lookup.value);
      u := lookup.value;
      abs := Seize(abs, a);
    }

    /** and the fragment takes all or part of it. */
    method TakeEntry(f: nat, u: int, a: int, size: int, k: int)
      requires order != [] && order[0] != NONE && Between(p, mem, abs, a, order[0], NONE) && units == abs.units
      requires u in units
      requires abs.slots[a].unit == u && abs.slots[a].len == size && a !in abs.foot && a + size !in abs.foot
      requires MIN_SLOT <= k <= size && Multiple(p.align, k)
      requires FreeLen(abs.slots, a + size) < 0 && (u == order[0] ==> a + size != units[u].end)
      requires f !in abs.home && f in mem.frags && Prepared(p, mem.frags[f], k)
      modifies this`mem, this`abs, this`units
      ensures abs == if size - k > EmptyHole(p) then AddFree(OccupyPart(old(abs), a, k, f), a + k, order[0])
        else Occupy(Unmark(old(abs), a), a, f)
      ensures Inv(p, abs, NONE, order[0]) && Rep(mem, abs, NONE) && units == abs.units && BodiesKept(old(mem), mem, f)
    {
      if size - k > EmptyHole(p) {
        TakePart(f, u, a, size, k);
      } else {
        TakeWhole(f, u, a, size, k);
      }
    }

    /** Both steps together. */
    method UseEntry(f: nat, k: int, b: int, a: int)
      requires Valid() && FreeLen(abs.slots, a) >= k >= MIN_SLOT && b == Bucket(FreeLen(abs.slots, a))
      requires Multiple(p.align, k) && f !in abs.home && f in mem.frags && Prepared(p, mem.frags[f], k)
      modifies this`mem, this`abs, this`units
      ensures abs == Reuse(p, old(abs), a, k, f)
      ensures Inv(p, abs, NONE, order[0]) && Rep(mem, abs, NONE) && units == abs.units && BodiesKept(old(mem), mem, f)
    {
      ghost var s := abs;
      var u, size := TakeOffList(b, a);
      TakeEntry(f, u, a, size, k);
      ReuseCases(p, s, a, k, f);
    }

    /** `find_free_list_slot` */
    method FindFreeListSlot(f: nat, k: int) returns (found: bool)
      requires Valid() && MIN_SLOT <= k && Multiple(p.align, k)
      requires f !in abs.home && f in mem.frags && Prepared(p, mem.frags[f], k)
      modifies this`mem, this`abs, this`units
      ensures Valid()
      ensures found <==> Search(old(abs).slots, old(abs).lists, Bucket(k), k).Some?
      ensures found ==> FreeLen(old(abs).slots, Search(old(abs).slots, old(abs).lists, Bucket(k), k).value) >= k
      ensures found ==> abs == Reuse(p, old(abs), Search(old(abs).slots, old(abs).lists, Bucket(k), k).value, k, f)
      ensures !found ==> abs == old(abs) && mem == old(mem) && units == old(units)
      ensures BodiesKept(old(mem), mem, f)
    {
      SearchRefinesExhaustive(p, abs, k);
      var b, entry := SearchLists(k);
      found := entry.Some?;
      if found {
        ReuseOrder(p, abs, entry.value, k, f);
        UseEntry(f, k, b, entry.value);
      }
    }

    /** The rest of the current unit goes on the free lists before the append point moves. */
    method RestToFreeList(u: int, left: int)
      requires ValidParams(p) && Inv(p, abs, NONE, u) && Rep(mem, abs, NONE) && units == abs.units && order == abs.order
      requires flush == abs.flush
      requires order != [] && u == order[0] && u in units && u > 0 && 0 < left == units[u].end - units[u].cur
      requires !units[u].full
      modifies this`units, this`mem, this`abs
      ensures abs == Close(old(abs), u) && units == old(units) && order == abs.order && flush == abs.flush
      ensures abs.units == units[u := units[u].(cur := units[u].end, full := true)]
      ensures Inv(p, abs, NONE, NONE) && Rep(mem, abs, NONE) && mem.frags == old(mem.frags)
    {
      FillStep(p, mem, abs, u);
      abs := Fill(abs, u);
      AddFreeOrder(abs, units[u].cur, NONE);
      AddToFreeList(u, None, units[u].cur, left, NONE, NONE);
      SameFrags(old(mem), mem);
    }

    /** `extend_unit_end`: the append point moves over `size` bytes and over a rest too small to
        be useful; or, with `restEmpty`, all that is left becomes a free entry. */
    method ExtendUnitEnd(u: int, size: int, restEmpty: bool, ghost cu: int) returns (extra: int)
      requires ValidParams(p) && Inv(p, abs, NONE, cu) && Rep(mem, abs, NONE) && units == abs.units
      requires order == abs.order && flush == abs.flush
      requires order != [] && u == order[0] && u in units && u > 0
      requires
        if restEmpty then size == 0 && (cu == u || cu == NONE)
        else cu == u && 0 < size <= units[u].end - units[u].cur
      modifies this`units, this`mem, this`abs
      ensures order == abs.order && flush == abs.flush
      ensures !restEmpty ==>
        && mem == old(mem) && abs == old(abs) && size + extra == AppendLen(p, old(units)[u], size)
        && units == Extend(old(units), u, size + extra)
      ensures restEmpty ==>
        && extra == 0 && abs == Close(old(abs), u) && units == abs.units
        && Inv(p, abs, NONE, NONE) && Rep(mem, abs, NONE) && mem.frags == old(mem.frags)
    {
      extra := 0;
      CloseKeepsAny(p, abs, cu, u);
      units := units[u := units[u].(cur := units[u].cur + size)];
      var left := units[u].end - units[u].cur;
      if left < EndHole(p) {
        units := units[u := units[u].(full := true)];
        if left > 0 {
          extra := left;
          units := units[u := units[u].(cur := units[u].cur + extra)];
        }
      } else if restEmpty {
        FillEnd(u, left);
      }
    }

    method FillEnd(u: int, left: int)
      requires ValidParams(p) && Inv(p, abs, NONE, u) && Rep(mem, abs, NONE) && units == abs.units
      requires order == abs.order && flush == abs.flush && order != [] && u == order[0] && u in units && u > 0
      requires 0 < left == units[u].end - units[u].cur && !units[u].full
      modifies this`units, this`mem, this`abs
      ensures abs == Close(old(abs), u) && units == abs.units && order == abs.order && flush == abs.flush
      ensures Inv(p, abs, NONE, NONE) && Rep(mem, abs, NONE) && mem.frags == old(mem.frags)
    {
      RestToFreeList(u, left);
      units := units[u := units[u].(cur := units[u].cur + left)];
      units := units[u := units[u].(full := true)];
    }

    /** The commit loop of `try_for_more_space` and `cache_extend_commitment`. */
    method ExtendCommitment(u: int, k: int)
      requires Valid() && u == order[0] && u in units && 0 < k && units[u].cur + k > units[u].end
      requires units[u].end < units[u].reserved
      modifies this`units, this`abs
      ensures abs == Commit(old(abs), u, CommitSize(p, old(units)[u], k)) && units == abs.units
      ensures Valid()
    {
      var r := units[u];
      CommitAny(p, abs, u, k);
      var size := p.commit;
      while r.cur + k > r.end + size
        invariant 0 < size && Doubled(p.commit, r.cur + k - r.end) == Doubled(size, r.cur + k - r.end)
        decreases r.cur + k - r.end - size
      {
        size := size * 2;
      }
      if r.end + size > r.reserved {
        size := r.reserved - r.end;
      }
      units := units[u := r.(end := r.end + size, full := false)];
      abs := Commit(abs, u, size);
    }

    /** `fcache_create_unit` and its place at the front of the unit list. */
    method OpenUnit(g: Region, retire: bool)
      requires ValidParams(p) && Inv(p, abs, NONE, NONE) && Rep(mem, abs, NONE)
      requires units == abs.units && order == abs.order && flush == abs.flush && order != [] && RegionOk(p, units, g)
      modifies this`units, this`order, this`flush, this`abs
      ensures abs == if retire then Open(Retire(old(abs)), g) else Open(old(abs), g)
      ensures Valid()
      ensures !retire ==> order == [g.base] + old(order) && flush == old(flush)
      ensures retire ==> var n := |old(order)| - 1;
        order == [g.base] + old(order)[..n] && flush == [old(order)[n]] + old(flush)
    {
      if retire {
        RetireKeeps(p, abs);
        var last := |order| - 1;
        flush := [order[last]] + flush;
        order := order[..last];
        abs := Retire(abs);
      }
      OpenKeeps(p, abs, g);
      units := units[g.base := Unit(g.base, g.base + g.committed, g.base + g.reserved, false)];
      order := [g.base] + order;
      abs := Open(abs, g);
    }

    /** The first part of `try_for_more_space`: commit more of the current unit. */
    method CommitMore(k: int) returns (fits: bool, ghost cu: int)
      requires Valid() && MIN_SLOT <= k && order[0] in units && units[order[0]].cur + k > units[order[0]].end
      modifies this`units, this`mem, this`abs
      ensures order == abs.order && flush == abs.flush && order == old(order) && units == abs.units && order[0] in units
      ensures order[0] > 0
      ensures fits <==> old(units)[order[0]].cur + k <= old(units)[order[0]].reserved
      ensures fits ==> Valid() && abs == Committed(p, old(abs), k)
      ensures !fits ==>
        && Inv(p, abs, NONE, cu) && Rep(mem, abs, NONE) && (cu == order[0] || cu == NONE)
        && Close(abs, order[0]) == Exhaust(old(abs))
      ensures mem.frags == old(mem.frags)
    {
      var u := order[0];
      cu := u;
      fits := false;
      CurrentUnit(p, abs);
      MoreSpaceCases(p, abs, k);
      if units[u].end < units[u].reserved {
        ExtendCommitment(u, k);
        if units[u].cur + k > units[u].end {
          CloseTwice(abs, u);
          var extra := ExtendUnitEnd(u, 0, true, u);
          cu := NONE;
        } else {
          fits := true;
        }
      }
    }

    /** `try_for_more_space`; a shared cache has no size limit, and since units are never smaller
        than the unit maximum the current unit is never resized. */
    method TryForMoreSpace(k: int, g: Region, retire: bool)
      requires Valid() && MIN_SLOT <= k
      requires order[0] in units && units[order[0]].cur + k > units[order[0]].end
      requires NeedsUnit(abs, k) ==> Supplied(p, abs, k, g)
      modifies this`units, this`order, this`flush, this`mem, this`abs
      ensures Valid() && abs == MoreSpace(p, old(abs), k, g, retire)
      ensures mem.frags == old(mem.frags)
    {
      var u := order[0];
      if NeedsUnit(abs, k) {
        ExhaustRegion(p, abs, g);
        ExhaustKeeps(p, abs);
      }
      var fits, cu := CommitMore(k);
      if !fits {
        var extra := ExtendUnitEnd(u, 0, true, cu);
        WholeUnit(p, abs, u);
        assert units[u].end - u >= p.maxUnit;
        OpenUnit(g, retire);
      }
    }

    /** The second attempt of `add_fragment_common`: append to the current unit. */
    method AppendFragment(f: nat, k: int)
      requires Valid() && order[0] in units && MIN_SLOT <= k <= units[order[0]].end - units[order[0]].cur
      requires Multiple(p.align, k)
      requires f !in abs.home && f in mem.frags && Prepared(p, mem.frags[f], k)
      modifies this`units, this`mem, this`abs
      ensures Valid() && abs == AppendFit(p, old(abs), k, f) && BodiesKept(old(mem), mem, f)
    {
      var u := order[0];
      var x := units[u].cur;
      CurrentUnit(p, abs);
      AppendFitKeeps(p, abs, k, f);
      AppendStep(p, mem, abs, u, AppendLen(p, units[u], k), f);
      var extra := ExtendUnitEnd(u, k, false, u);
      abs := AppendFit(p, abs, k, f);
      PlaceFragment(f, x, k, k + extra, u);
    }

    /** `add_fragment_common`: it grows the cache at most twice before the fragment is placed. */
    method AddFragmentCommon(f: nat, k: int, g: Region, retire: bool)
      requires Valid() && order[0] in units && Request(p, abs, f, k) && (Creates(abs, k) ==> Supplied(p, abs, k, g))
      requires f in mem.frags && Prepared(p, mem.frags[f], k)
      modifies this`units, this`order, this`flush, this`mem, this`abs
      ensures Valid() && abs == Add(p, old(abs), f, k, g, retire) && BodiesKept(old(mem), mem, f)
      decreases Growths(abs, k)
    {
      var found := FindFreeListSlot(f, k);
      if found {
        return;
      }
      var u := order[0];
      if !units[u].full && units[u].end - units[u].cur >= k {
        AddFits(p, abs, f, k, g, retire);
        AppendFragment(f, k);
        return;
      }
      AddAfterGrowth(p, abs, f, k, g, retire);
      GapFacts(p, abs);
      GrowthCounts(p, abs, k, g, retire);
      TryForMoreSpace(k, g, retire);
      CurrentUnit(p, abs);
      AddFragmentCommon(f, k, g, retire);
    }

    /** The record that the fragment code makes for a fragment it is about to add: `size` bytes,
        whose start may be shifted if it is `padded`. */
    method NewRecord(f: nat, size: int, padded: bool)
      requires Valid() && f !in abs.home && 0 <= size <= MAX_ENTRY && (padded ==> p.align % START_ALIGN == 0)
      modifies this`mem
      ensures Valid() && f in mem.frags && NewFragment(p, mem.frags[f])
      ensures mem.frags[f].size == size && mem.frags[f].padded == padded && !mem.frags[f].deleted
      ensures forall g | g != f :: SameRecord(old(mem), mem, g)
    {
      var r := Frag(0, size, 0, padded, false, false);
      NotInAnySlot(abs, NONE, order[0], f);
      FragsRep(mem, abs, f, r);
      mem := mem.(frags := mem.frags[f := r]);
    }

    /** The first part of `fcache_add_fragment`: the slot size and the padding that goes with it. */
    method PrepareFragment(f: nat) returns (k: int)
      requires Valid() && f !in abs.home && f in mem.frags && NewFragment(p, mem.frags[f])
      modifies this`mem
      ensures Valid() && k == SlotSize(p, old(mem).frags[f].size) && Request(p, abs, f, k)
      ensures f in mem.frags && Prepared(p, mem.frags[f], k) && BodiesKept(old(mem), mem, f)
    {
      var r := mem.frags[f];
      k := r.size + HEADER;
      if k < MIN_SLOT {
        k := MIN_SLOT;
      }
      k := AlignUp(p.align, k);
      SlotSizePrepared(p, r);
      NotInAnySlot(abs, NONE, order[0], f);
      FragsRep(mem, abs, f, r.(start := START_ALIGN, extra := (k - r.size) % 256));
      mem := mem.(frags := mem.frags[f := r.(start := START_ALIGN, extra := (k - r.size) % 256)]);
    }

    /** `fcache_add_fragment`: `f` gets a slot for its body and header, whatever the state of the
        cache. */
    method AddFragment(f: nat, g: Region, retire: bool)
      requires Valid() && f !in abs.home && f in mem.frags && NewFragment(p, mem.frags[f])
      requires order[0] in units
      requires var k := SlotSize(p, mem.frags[f].size); Creates(abs, k) ==> Supplied(p, abs, k, g)
      modifies this`units, this`order, this`flush, this`mem, this`abs
      ensures var op := AddOp(f, SlotSize(p, old(mem).frags[f].size), g, retire);
        Valid() && Enabled(p, old(abs), op) && abs == Apply(p, old(abs), op)
      ensures BodiesKept(old(mem), mem, f)
    {
      SlotSizePrepared(p, mem.frags[f]);
      var k := PrepareFragment(f);
      AddFragmentCommon(f, k, g, retire);
    }

    /** `fcache_remove_fragment` */
    method RemoveFragment(f: nat)
      requires Valid() && f in abs.home
      modifies this`units, this`mem, this`abs
      ensures Valid() && abs == Apply(p, old(abs), RemoveOp(f))
      ensures CoresKept(old(mem), mem)
    {
      RemoveDefined(p, abs, f);
      FragmentSlot(p, mem, abs, f);
      CurrentUnit(p, abs);
      RemoveGood(p, abs, f);
      ghost var s := abs;
      var r := mem.frags[f];
      var lookup := LookupUnit(r.start);
      UnitOfAddress(p, s, s.home[f], r.start, lookup.value);
      VacateStep(p, mem, s, f);
      abs := Vacate(s, s.home[f]);
      assert Remove(s, f) == AddFree(abs, s.home[f], order[0]);
      AddToFreeList(lookup.value, Some(f), HdrStart(r), FragSize(r), order[0], NONE);
    }

    /** `fcache_shift_start_pc`: the slot of the fragment stays as it is. */
    method ShiftStartPc(f: nat, space: int)
      requires Valid() && f in abs.home
      requires f in mem.frags && 0 <= space <= mem.frags[f].size
      requires space > 0 ==> mem.frags[f].start % START_ALIGN == 0 && space <= START_ALIGN - 1 && mem.frags[f].padded
      modifies this`mem
      ensures Valid()
      ensures f in mem.frags && var r, r0 := mem.frags[f], old(mem).frags[f];
        && r == r0.(start := r0.start + space, size := r0.size - space)
        && HdrStart(r) == HdrStart(r0) && FragSize(r) == FragSize(r0) && r.start + r.size == r0.start + r0.size
      ensures forall g | g != f :: SameRecord(old(mem), mem, g)
    {
      if space == 0 {
        return;
      }
      FragmentSlot(p, mem, abs, f);
      OneHome(abs, NONE, order[0], f);
      var r := mem.frags[f];
      ShiftedRecord(r, space);
      r := r.(start := r.start + space, size := r.size - space);
      RecordRep(mem, abs, f, r);
      mem := mem.(frags := mem.frags[f := r]);
    }

    /** The tail of the slot at `a` is cut off and put on the free lists. */
    method ShedTail(ghost f: nat, u: int, a: int, k: int, ret: int)
      requires Valid() && f in abs.home && a == abs.home[f] && a in abs.slots
      requires abs.slots[a] == Slot(u, k + ret, Live(f)) && u in units
      requires Releasable(p, abs, a, k) && !(u == order[0] && a + k + ret == units[u].cur)
      modifies this`units, this`mem, this`abs
      ensures a + k in Shed(old(abs), a, k).slots && 0 <= ret == Shed(old(abs), a, k).slots[a + k].len
      ensures abs == AddFree(Shed(old(abs), a, k), a + k, order[0]) && units == abs.units
      ensures Inv(p, abs, NONE, order[0]) && Rep(mem, abs, a)
      ensures CoresKept(old(mem), mem) && WordKept(old(mem), mem, a) && SameRecord(old(mem), mem, f)
    {
      CurrentUnit(p, abs);
      TailStep(p, mem, abs, a, k, f);
      abs := Shed(abs, a, k);
      AddToFreeList(u, None, a + k, ret, order[0], a);
    }

    method TailToFreeList(ghost f: nat, u: int, a: int, k: int, ret: int)
      requires Valid() && f in abs.home && a == abs.home[f] && a in abs.slots
      requires abs.slots[a] == Slot(u, k + ret, Live(f)) && u in units
      requires Releasable(p, abs, a, k) && !(u == order[0] && a + k + ret == units[u].cur)
      modifies this`units, this`mem, this`abs
      ensures abs == Release(old(abs), a, k) && units == abs.units && order == abs.order && flush == abs.flush
      ensures Inv(p, abs, NONE, order[0]) && Rep(mem, abs, a)
      ensures CoresKept(old(mem), mem) && WordKept(old(mem), mem, a) && SameRecord(old(mem), mem, f)
    {
      ShedIs(abs, a, k);
      ReleaseOrder(abs, a, k);
      ShedTail(f, u, a, k, ret);
    }

    /** The tail of the last slot goes back to the unclaimed space of the current unit. */
    method TailToUnclaimed(ghost f: nat, u: int, a: int, k: int, ret: int)
      requires Valid() && f in abs.home && a == abs.home[f] && a in abs.slots
      requires abs.slots[a] == Slot(u, k + ret, Live(f)) && u in units
      requires Releasable(p, abs, a, k) && u == order[0] && a + k + ret == units[u].cur
      modifies this`units, this`abs
      ensures abs == Release(old(abs), a, k) && units == abs.units && order == abs.order && flush == abs.flush
      ensures Inv(p, abs, NONE, order[0]) && Rep(mem, abs, a)
    {
      ShedIs(abs, a, k);
      ReleaseKeeps(p, abs, a, k);
      ShrinkStep(mem, abs, a, k);
      units := units[u := units[u].(cur := units[u].cur - ret, full := false)];
      abs := ShrinkLast(abs, a, k);
    }

    /** The decision of `fcache_return_extra_space` to release the last `ret` bytes of a slot. */
    method ReleaseTail(ghost f: nat, u: int, a: int, k: int, ret: int) returns (released: bool)
      requires Valid() && f in abs.home && a == abs.home[f] && a in abs.slots
      requires abs.slots[a] == Slot(u, k + ret, Live(f)) && u in units
      requires 0 < ret && MIN_SLOT <= k && Multiple(p.align, k)
      modifies this`units, this`mem, this`abs
      ensures released <==> Releasable(p, old(abs), a, k)
      ensures abs == (if released then Release(old(abs), a, k) else old(abs)) && units == abs.units
      ensures order == abs.order && flush == abs.flush
      ensures Inv(p, abs, NONE, order[0]) && Rep(mem, abs, a)
      ensures CoresKept(old(mem), mem) && WordKept(old(mem), mem, a) && SameRecord(old(mem), mem, f)
    {
      released := false;
      var end := a + k + ret;
      SlotInUnit(p, abs, a);
      ResizedRep(mem, abs.slots, abs.slots, abs.follows, a);
      if end == units[u].end {
        if ret >= EndHole(p) {
          released := true;
          if u == order[0] {
            TailToUnclaimed(f, u, a, k, ret);
          } else {
            TailToFreeList(f, u, a, k, ret);
          }
        }
      } else if end == units[u].cur {
        released := true;
        TailToUnclaimed(f, u, a, k, ret);
      } else {
        SlotAfter(p, mem, abs, a);
        var subseq := mem.word[end];
        if IsFreeList(mem, subseq) || ret >= EmptyHole(p) {
          released := true;
          TailToFreeList(f, u, a, k, ret);
        }
      }
    }

    /** The arithmetic of `fcache_return_extra_space`. */
    method Returnable(r: Frag, a: int, space: int) returns (kept: int, ret: int)
      requires ValidParams(p) && FragOk(r) && HdrStart(r) == a && Multiple(p.align, a) && Multiple(p.align, FragSize(r))
      requires MIN_SLOT <= FragSize(r) && 0 <= space <= r.size
      ensures kept == KeptLen(p, r, space) && kept + ret == FragSize(r) && 0 <= ret
      ensures MIN_SLOT <= kept && Multiple(p.align, kept)
    {
      ReturnArithmetic(p, r, a, space);
      var fs := FragSize(r);
      var minPadding := 0;
      ret := space + r.extra - HEADER;
      if fs - ret < MIN_SLOT {
        minPadding := ret - (fs - MIN_SLOT);
        ret := fs - MIN_SLOT;
      }
      var end := a + fs - ret;
      var slotPadding := AlignUp(p.align, end) - end;
      ret := ret - slotPadding;
      kept := r.size - space + HEADER + StartPadding(r) + slotPadding + minPadding;
    }

    /** The new size and padding of a fragment whose slot is `total` bytes long. */
    method ResizeRecord(f: nat, space: int, total: int, ghost cu: int)
      requires Inv(p, abs, NONE, cu) && f in abs.home && abs.home[f] in abs.slots
      requires abs.slots[abs.home[f]].kind == Live(f)
      requires Rep(mem, abs, abs.home[f]) && abs.home[f] in mem.word && mem.word[abs.home[f]] == To(f)
      requires f in mem.frags && HdrStart(mem.frags[f]) == abs.home[f] && (mem.frags[f].follows <==> f in abs.follows)
      requires total == abs.slots[abs.home[f]].len && 0 <= space <= mem.frags[f].size <= MAX_ENTRY
      requires HEADER <= total - (mem.frags[f].size - space) - StartPadding(mem.frags[f]) <= 255
      modifies this`mem
      ensures Rep(mem, abs, NONE) && f in mem.frags
      ensures mem.frags[f].size == old(mem).frags[f].size - space && mem.frags[f].start == old(mem).frags[f].start
      ensures FragSize(mem.frags[f]) == total
      ensures BodiesKeptBut(old(mem), mem, f)
    {
      var r := mem.frags[f];
      r := r.(size := r.size - space);
      r := r.(extra := (total - (r.size + StartPadding(r))) % 256);
      ResizedRecord(p, mem, abs, cu, f, r);
      mem := mem.(frags := mem.frags[f := r]);
    }

    /** `fcache_return_extra_space` up to the update of the record: the slot ends up `total` bytes
        long. */
    method ReleaseEnd(f: nat, space: int) returns (total: int)
      requires Valid() && f in abs.home && f in mem.frags && 0 <= space <= mem.frags[f].size
      modifies this`units, this`mem, this`abs
      ensures units == abs.units && order == abs.order && flush == abs.flush && Inv(p, abs, NONE, order[0])
      ensures SlotKept(p, old(abs), old(mem).frags[f], abs, f, space, total)
      ensures Rep(mem, abs, abs.home[f]) && abs.home[f] in mem.word && mem.word[abs.home[f]] == To(f)
      ensures SameRecord(old(mem), mem, f) && CoresKept(old(mem), mem)
    {
      FragmentSlot(p, mem, abs, f);
      var r := mem.frags[f];
      var a := HdrStart(r);
      var lookup := LookupUnit(r.start);
      UnitOfAddress(p, abs, abs.home[f], r.start, lookup.value);
      KeptCases(p, mem, abs, f, space);
      var kept, ret := Returnable(r, a, space);
      total := kept + ret;
      ResizedRep(mem, abs.slots, abs.slots, abs.follows, a);
      if ret > 0 {
        var released := ReleaseTail(f, lookup.value, a, kept, ret);
        if released {
          total := kept;
        }
      }
    }

    /** `fcache_return_extra_space`: the fragment gives up `space` bytes of its body. Its slot
        shrinks to what a new request of that size would get when the rest can be used, and
        keeps its length otherwise. */
    method ReturnExtraSpace(f: nat, space: int)
      requires Valid() && f in abs.home && f in mem.frags && 0 <= space <= mem.frags[f].size
      modifies this`units, this`mem, this`abs
      ensures Valid() && f in mem.frags
      ensures SlotKept(p, old(abs), old(mem).frags[f], abs, f, space, FragSize(mem.frags[f]))
      ensures mem.frags[f].size == old(mem).frags[f].size - space && mem.frags[f].start == old(mem).frags[f].start
      ensures BodiesKeptBut(old(mem), mem, f)
    {
      FragmentSlot(p, mem, abs, f);
      KeptOrder(p, mem, abs, f, space);
      var total := ReleaseEnd(f, space);
      ResizeRecord(f, space, total, order[0]);
    }

    /** `fcache_fragment_pclookup`: the fragment whose body contains `target`. */
    method PcLookup(target: int) returns (r: Option<nat>)
      requires Valid()
      ensures r.Some? ==> r.value in abs.home && r.value in mem.frags && InBody(mem.frags[r.value], target)
      ensures r.None? ==> forall f | f in abs.home :: f in mem.frags && !InBody(mem.frags[f], target)
    {
      var lookup := LookupUnit(target);
      if lookup.None? {
        NoUnitNoBody(p, mem, abs, target);
        return None;
      }
      var u := lookup.value;
      var pc := u;
      UnitStart(p, mem, abs, u, target);
      while pc < units[u].cur && pc < target
        invariant pc >= units[u].cur || (pc in abs.slots && abs.slots[pc].unit == u)
        invariant NotBefore(mem, abs.slots, u, pc, target)
        decreases units[u].cur - pc
      {
        WalkStep(p, mem, abs, pc);
        var first := mem.word[pc];
        if IsFreeList(mem, first) {
          NotBeforeStep(mem, abs.slots, u, pc, target);
          pc := pc + mem.tail[pc].size;
          continue;
        }
        if InBody(mem.frags[first.f], target) {
          return Some(first.f);
        }
        NotBeforeStep(mem, abs.slots, u, pc, target);
        pc := pc + FragSize(mem.frags[first.f]);
      }
      WalkMissed(p, mem, abs, u, pc, target);
      r := None;
    }

    /** The step of `chain_fragments_for_flush` over the free entry at `pc`. */
    method SweepEntry(ghost s: State, ghost t: State, ghost u: int, pc: int, ghost lazy: set<nat>,
      ghost chain: seq<nat>, ghost left: set<nat>)
        returns (pc': int)
      requires Sweeping(p, mem, s, t, u, pc) && pc < s.units[u].cur && pc in mem.word && Readable(mem, mem.word[pc])
      requires IsFreeList(mem, mem.word[pc])
      requires Chained(s, mem.frags, lazy, u, pc, chain, left)
      modifies this`mem
      ensures pc < pc' <= s.units[u].cur && mem.frags == old(mem.frags)
      ensures Chained(s, mem.frags, lazy, u, pc', chain, left)
      ensures FreeLen(t.slots, pc) >= 0 && |t.lists| == BUCKET_COUNT && Sweeping(p, mem, s, Sweep(t, pc), u, pc')
    {
      SweepRead(p, mem, s, t, u, pc);
      ChainStep(p, s, mem.frags, lazy, u, pc, chain, left);
      SweepFree(p, mem, s, t, u, pc);
      var size := mem.tail[pc].size;
      var b := FindBucket(size);
      RemoveFromFreeList(b, pc);
      pc' := pc + size;
    }

    /** The step of `chain_fragments_for_flush` over the fragment at `pc`. */
    method SweepFragment(ghost s: State, ghost t: State, ghost u: int, pc: int, ghost lazy: set<nat>, chain: seq<nat>,
      left: set<nat>)
        returns (pc': int, chain': seq<nat>, left': set<nat>)
      requires Sweeping(p, mem, s, t, u, pc) && pc < s.units[u].cur && pc in mem.word && Readable(mem, mem.word[pc])
      requires !IsFreeList(mem, mem.word[pc])
      requires Chained(s, mem.frags, lazy, u, pc, chain, left)
      ensures pc < pc' <= s.units[u].cur && Sweeping(p, mem, s, t, u, pc')
      ensures Chained(s, mem.frags, lazy, u, pc', chain', left')
    {
      SweepRead(p, mem, s, t, u, pc);
      ChainStep(p, s, mem.frags, lazy, u, pc, chain, left);
      SweptLive(s, t, u, pc);
      var f := mem.word[pc].f;
      chain', left' := chain, left;
      var add := true;
      if mem.frags[f].deleted {
        add := f in left;
        left' := left - {f};
      }
      if add {
        chain' := chain + [f];
      }
      pc' := pc + FragSize(mem.frags[f]);
    }

    /** The walk of `chain_fragments_for_flush` over unit `u`. */
    method SweepUnit(u: int, lazy: set<nat>) returns (chain: seq<nat>, left: set<nat>, ghost t: State)
      requires Valid() && u in flush
      modifies this`mem
      ensures u in units && mem.frags == old(mem.frags)
      ensures Sweeping(p, mem, abs, t, u, units[u].cur)
      ensures Chained(abs, mem.frags, lazy, u, units[u].cur, chain, left)
    {
      t := abs;
      SweepStart(p, mem, abs, u);
      ChainStart(p, abs, mem.frags, lazy, u);
      var pc;
      chain, left, pc := [], lazy, u;
      while pc < units[u].cur
        invariant pc <= units[u].cur && Sweeping(p, mem, abs, t, u, pc)
        invariant mem.frags == old(mem.frags) && Chained(abs, mem.frags, lazy, u, pc, chain, left)
      {
        SweepRead(p, mem, abs, t, u, pc);
        if IsFreeList(mem, mem.word[pc]) {
          ghost var t' := Sweep(t, pc);
          pc := SweepEntry(abs, t, u, pc, lazy, chain, left);
          t := t';
        } else {
          pc, chain, left := SweepFragment(abs, t, u, pc, lazy, chain, left);
        }
      }
    }

    /** `chain_fragments_for_flush` on the retired unit `u`, which then leaves the cache: its free
        entries come off their lists and its fragments are chained for deletion. */
    method ChainForFlush(u: int, lazy: set<nat>) returns (chain: seq<nat>, left: set<nat>)
      requires Valid() && u in flush
      modifies this`units, this`flush, this`mem, this`abs
      ensures Valid() && abs == Apply(p, old(abs), FlushOp(u))
      ensures u in old(abs).units
      ensures chain == ChainFrom(old(abs).slots, old(mem).frags, lazy, u, old(abs).units[u].cur, u)
      ensures left == lazy - LazyBefore(old(abs), old(mem).frags, u, old(abs).units[u].cur)
      ensures mem.frags == old(mem.frags)
    {
      ghost var t;
      chain, left, t := SweepUnit(u, lazy);
      SweepEnd(p, mem, abs, t, u);
      ChainEnd(abs, mem.frags, lazy, u, chain, left);
      ForgetIs(p, abs, u);
      abs := Apply(p, abs, FlushOp(u));
      units := units - {u};
      flush := Without(flush, u);
    }
  }
}
