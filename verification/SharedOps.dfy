/** The public operations of a shared code cache on the specification state: each keeps the
    invariant. */
module SharedOps {
  import opened Layout
  import opened SlotModel
  import opened SlotLayout
  import opened SlotSteps
  import opened SharedSpec

  /** A state between operations. The newest unit is the current one. */
  ghost predicate Good(p: Params, s: State)
  {
    ValidParams(p) && s.order != [] && Inv(p, s, NONE, s.order[0])
  }

  // ----- removing a fragment

  /** `fcache_remove_fragment` */
  function Remove(s: State, f: nat): State
    requires f in s.home && s.home[f] in s.slots && s.slots[s.home[f]].kind.Live? && s.slots[s.home[f]].len >= 0
    requires s.order != [] && |s.lists| == BUCKET_COUNT
  {
    AddFree(Vacate(s, s.home[f]), s.home[f], s.order[0])
  }

  lemma RemoveDefined(p: Params, s: State, f: nat)
    requires Good(p, s) && f in s.home
    ensures s.home[f] in s.slots && s.slots[s.home[f]].kind == Live(f)
    ensures s.slots[s.home[f]].len >= MIN_SLOT && |s.lists| == BUCKET_COUNT
  {
    assert Placed(p, s.units, s.slots, s.order[0], s.home[f]);
  }

  lemma RemoveKeeps(p: Params, s: State, f: nat)
    requires Good(p, s) && f in s.home
    requires s.home[f] in s.slots && s.slots[s.home[f]].kind == Live(f) && s.slots[s.home[f]].len >= MIN_SLOT
    ensures Inv(p, Remove(s, f), NONE, s.order[0])
  {
    VacateKeeps(p, s, s.home[f], s.order[0]);
    AddFreeKeeps(p, Vacate(s, s.home[f]), s.home[f], s.order[0]);
  }

  // ----- reusing a free entry

  /** The first entry of one list that holds `k` bytes. */
  function FirstFit(slots: Slots, l: seq<int>, k: int): Option<int>
  {
    if l == [] then None
    else if l[0] in slots && slots[l[0]].len >= k then Some(l[0])
    else FirstFit(slots, l[1..], k)
  }

  /** The search of `find_free_list_slot`: the lists from bucket `b` upwards, each from its head. */
  function Search(slots: Slots, lists: seq<seq<int>>, b: int, k: int): Option<int>
    requires 0 <= b && |lists| == BUCKET_COUNT
    decreases BUCKET_COUNT - b
  {
    if b >= BUCKET_COUNT then None
    else match FirstFit(slots, lists[b], k)
      case Some(a) => Some(a)
      case None => Search(slots, lists, b + 1, k)
  }

  lemma {:induction false} FirstFitMeaning(slots: Slots, l: seq<int>, k: int)
    ensures match FirstFit(slots, l, k)
      case Some(a) => a in l && a in slots && slots[a].len >= k
      case None => forall a | a in l && a in slots :: slots[a].len < k
  {
    if l != [] { FirstFitMeaning(slots, l[1..], k); }
  }

  lemma FirstFitStep(slots: Slots, l: seq<int>, i: int, k: int)
    requires 0 <= i < |l|
    ensures FirstFit(slots, l[i..], k) ==
      if l[i] in slots && slots[l[i]].len >= k then Some(l[i]) else FirstFit(slots, l[i + 1..], k)
  {
    assert l[i..][1..] == l[i + 1..];
  }

  lemma {:induction false} SearchMeaning(slots: Slots, lists: seq<seq<int>>, b: int, k: int)
    requires 0 <= b && |lists| == BUCKET_COUNT
    ensures match Search(slots, lists, b, k)
      case Some(a) => a in slots && slots[a].len >= k && exists c :: b <= c < BUCKET_COUNT && a in lists[c]
      case None => forall c, a | b <= c < BUCKET_COUNT && a in lists[c] && a in slots :: slots[a].len < k
    decreases BUCKET_COUNT - b
  {
    if b < BUCKET_COUNT {
      FirstFitMeaning(slots, lists[b], k);
      SearchMeaning(slots, lists, b + 1, k);
    }
  }

  lemma BucketMonotone(m: int, n: int)
    requires 0 <= m <= n
    ensures Bucket(m) <= Bucket(n)
  {
  }

  /** The bucketed search finds an entry exactly when one of sufficient size exists anywhere in
      the cache, and what it finds is such an entry. */
  lemma SearchRefinesExhaustive(p: Params, s: State, k: int)
    requires Good(p, s) && 0 <= k
    ensures Search(s.slots, s.lists, Bucket(k), k).Some? <==> exists a :: FreeLen(s.slots, a) >= k
    ensures match Search(s.slots, s.lists, Bucket(k), k) case Some(a) => FreeLen(s.slots, a) >= k case None => true
  {
    SearchMeaning(s.slots, s.lists, Bucket(k), k);
    match Search(s.slots, s.lists, Bucket(k), k)
    case Some(a) =>
      var c :| Bucket(k) <= c < BUCKET_COUNT && a in s.lists[c];
      assert ListOk(s.slots, s.lists[c], c);
      assert Entry(s.slots, c, a);
    case None =>
      forall a ensures FreeLen(s.slots, a) < k {
        if FreeLen(s.slots, a) >= k {
          var c := Bucket(FreeLen(s.slots, a));
          BucketMonotone(k, FreeLen(s.slots, a));
          assert ListOk(s.slots, s.lists[c], c);
          assert Entry(s.slots, c, a);
        }
      }
  }

  /** Where the search stops: no list below has an entry that is large enough. */
  lemma {:induction false} SearchStops(slots: Slots, lists: seq<seq<int>>, b: int, k: int) returns (c: int)
    requires 0 <= b && |lists| == BUCKET_COUNT && Search(slots, lists, b, k).Some?
    ensures b <= c < BUCKET_COUNT && FirstFit(slots, lists[c], k) == Search(slots, lists, b, k)
    ensures Search(slots, lists, b, k).value in lists[c]
    ensures forall d, x | b <= d < c && x in lists[d] && x in slots :: slots[x].len < k
    decreases BUCKET_COUNT - b
  {
    FirstFitMeaning(slots, lists[b], k);
    if FirstFit(slots, lists[b], k).Some? { c := b; } else { c := SearchStops(slots, lists, b + 1, k); }
  }

  /** The entry found is of the smallest size class that has one of sufficient size. */
  lemma SearchTakesSmallestClass(p: Params, s: State, k: int, x: int)
    requires Good(p, s) && 0 <= k && Search(s.slots, s.lists, Bucket(k), k).Some? && FreeLen(s.slots, x) >= k
    ensures var a := Search(s.slots, s.lists, Bucket(k), k).value;
      FreeLen(s.slots, a) >= 0 && Bucket(FreeLen(s.slots, a)) <= Bucket(FreeLen(s.slots, x))
  {
    var a := Search(s.slots, s.lists, Bucket(k), k).value;
    var c := SearchStops(s.slots, s.lists, Bucket(k), k);
    var d := Bucket(FreeLen(s.slots, x));
    assert ListOk(s.slots, s.lists[c], c) && Entry(s.slots, c, a);
    BucketMonotone(k, FreeLen(s.slots, x));
    assert ListOk(s.slots, s.lists[d], d) && Entry(s.slots, d, x);
  }

  /** `find_free_list_slot` after the search: the fragment takes `k` bytes of the entry when the
      remainder exceeds the smallest useful hole, and the whole entry otherwise. */
  function Reuse(p: Params, s: State, a: int, k: int, f: nat): State
    requires FreeLen(s.slots, a) >= k >= 0 && |s.lists| == BUCKET_COUNT && s.order != []
  {
    var s1 := Seize(s, a);
    if s.slots[a].len - k > EmptyHole(p) then AddFree(OccupyPart(s1, a, k, f), a + k, s.order[0])
    else Occupy(Unmark(s1, a), a, f)
  }

  lemma ReuseCases(p: Params, s: State, a: int, k: int, f: nat)
    requires FreeLen(s.slots, a) >= k >= 0 && |s.lists| == BUCKET_COUNT && s.order != []
    ensures FreeLen(s.slots, a) - k > EmptyHole(p) ==>
      Reuse(p, s, a, k, f) == AddFree(OccupyPart(Seize(s, a), a, k, f), a + k, s.order[0])
    ensures FreeLen(s.slots, a) - k <= EmptyHole(p) ==> Reuse(p, s, a, k, f) == Occupy(Unmark(Seize(s, a), a), a, f)
  {
  }

  lemma ReuseKeeps(p: Params, s: State, a: int, k: int, f: nat)
    requires Good(p, s) && FreeLen(s.slots, a) >= k >= MIN_SLOT && Multiple(p.align, k) && f !in s.home
    ensures Inv(p, Reuse(p, s, a, k, f), NONE, s.order[0])
  {
    ReuseCases(p, s, a, k, f);
    if s.slots[a].len - k > EmptyHole(p) {
      ReuseSplitKeeps(p, s, a, k, f);
    } else {
      ReuseWholeKeeps(p, s, a, f);
    }
  }

  lemma SeizeShape(s: State, a: int)
    requires FreeLen(s.slots, a) >= 0 && |s.lists| == BUCKET_COUNT && a !in s.foot
    ensures var s' := Seize(s, a);
      && a in s'.slots && s'.slots[a].len == s.slots[a].len && s'.slots[a].unit == s.slots[a].unit
      && a !in s'.foot && a + s.slots[a].len !in s'.foot && s'.home == s.home && s'.units == s.units
      && Behind(Unmark(s', a), a) !! Unmark(s', a).follows
  {
  }

  lemma ReuseWholeKeeps(p: Params, s: State, a: int, f: nat)
    requires Good(p, s) && FreeLen(s.slots, a) >= MIN_SLOT && f !in s.home
    ensures Inv(p, Occupy(Unmark(Seize(s, a), a), a, f), NONE, s.order[0])
  {
    SeizeKeeps(p, s, a, s.order[0]);
    FreeAfterNoFree(s, NONE, s.order[0], a);
    SeizeShape(s, a);
    MarkKeeps(p, Seize(s, a), a, s.order[0]);
    OccupyKeeps(p, Unmark(Seize(s, a), a), a, f, s.order[0]);
  }

  lemma ReuseSplitKeeps(p: Params, s: State, a: int, k: int, f: nat)
    requires Good(p, s) && FreeLen(s.slots, a) >= 0 && MIN_SLOT <= k && Multiple(p.align, k) && f !in s.home
    requires s.slots[a].len - k > EmptyHole(p)
    ensures Inv(p, AddFree(OccupyPart(Seize(s, a), a, k, f), a + k, s.order[0]), NONE, s.order[0])
  {
    SeizeKeeps(p, s, a, s.order[0]);
    FreeAfterNoFree(s, NONE, s.order[0], a);
    SeizeShape(s, a);
    if s.slots[a].unit == s.order[0] && s.order[0] in s.units { FreeNotLast(p, s, a); }
    OccupyPartKeeps(p, Seize(s, a), a, k, f, s.order[0]);
    AddFreeKeeps(p, OccupyPart(Seize(s, a), a, k, f), a + k, s.order[0]);
  }

  /** What is known of an entry just taken off its list. */
  lemma SeizedEntry(p: Params, s: State, a: int)
    requires Good(p, s) && FreeLen(s.slots, a) >= 0
    ensures var s' := Seize(s, a); var e := a + s.slots[a].len;
      && a in s'.slots && s'.slots[a] == s.slots[a].(kind := Limbo)
      && a !in s'.foot && e !in s'.foot && s'.home == s.home && s'.units == s.units && s'.order == s.order
      && s'.flush == s.flush
      && FreeLen(s'.slots, e) < 0
      && (s.slots[a].unit == s.order[0] && s.order[0] in s.units ==> e != s.units[s.order[0]].end)
  {
    FreeAfterNoFree(s, NONE, s.order[0], a);
    assert KindOk(s, NONE, s.order[0], a) && Placed(p, s.units, s.slots, s.order[0], a);
    if s.slots[a].unit == s.order[0] && s.order[0] in s.units { FreeNotLast(p, s, a); }
  }

  lemma CurrentUnit(p: Params, s: State)
    requires Good(p, s)
    ensures s.order[0] in s.units && s.order[0] != NONE
  {
    assert s.order[0] in s.order;
    assert UnitOk(p, s.order[0], s.units[s.order[0]]);
  }

  /** A free entry in the current unit ends before the append point. */
  lemma FreeNotLast(p: Params, s: State, a: int)
    requires Good(p, s) && FreeLen(s.slots, a) >= 0 && s.slots[a].unit == s.order[0] && s.order[0] in s.units
    ensures a + s.slots[a].len < s.units[s.order[0]].cur <= s.units[s.order[0]].end
  {
    assert KindOk(s, NONE, s.order[0], a) && Placed(p, s.units, s.slots, s.order[0], a);
    assert UnitOk(p, s.order[0], s.units[s.order[0]]);
  }

  // ----- appending

  /** The second attempt of `add_fragment_common`. */
  function AppendFit(p: Params, s: State, k: int, f: nat): State
    requires s.order != [] && s.order[0] in s.units
  {
    Append(s, s.order[0], AppendLen(p, s.units[s.order[0]], k), f)
  }

  lemma AppendFitKeeps(p: Params, s: State, k: int, f: nat)
    requires Good(p, s) && s.order[0] in s.units && f !in s.home
    requires MIN_SLOT <= k <= s.units[s.order[0]].end - s.units[s.order[0]].cur && Multiple(p.align, k)
    ensures Inv(p, AppendFit(p, s, k, f), NONE, s.order[0])
  {
    var cu := s.order[0];
    EndOnGrid(p, s, cu);
    AppendKeeps(p, s, cu, AppendLen(p, s.units[cu], k), f);
  }

  lemma EndOnGrid(p: Params, s: State, cu: int)
    requires ValidParams(p) && Laid(p, s.units, s.slots, cu) && cu in s.units
    ensures Multiple(p.align, s.units[cu].end - s.units[cu].cur)
  {
    var r := s.units[cu];
    assert UnitOk(p, cu, r);
    CurOnGrid(p, s.units, s.slots, cu, cu);
    MultipleOfPage(p, r.end - cu);
    MultipleSum(p.align, r.end - cu, cu);
    MultipleSum(p.align, r.end, r.cur);
  }

  // ----- growing

  lemma CommitPages(p: Params, u: int, r: Unit, k: int)
    requires ValidParams(p) && UnitOk(p, u, r)
    ensures CommitSize(p, r, k) % PAGE == 0
  {
    DoubledPages(p.commit, r.cur + k - r.end);
    WholePages(r.reserved - u, r.end - u);
    assert r.reserved - u - (r.end - u) == r.reserved - r.end;
  }

  /** The rest of the current unit goes on the free lists, and the unit is full. */
  function Close(s: State, u: int): State
    requires u in s.units && |s.lists| == BUCKET_COUNT
  {
    if s.units[u].cur >= s.units[u].end then s else Publish(Fill(s, u), s.units[u].cur)
  }

  lemma CloseKeeps(p: Params, s: State, cu: int)
    requires ValidParams(p) && Inv(p, s, NONE, cu) && cu in s.units
    ensures Inv(p, Close(s, cu), NONE, NONE)
    ensures Close(s, cu).order == s.order && Close(s, cu).flush == s.flush && Close(s, cu).home == s.home
    ensures Close(s, cu).units.Keys == s.units.Keys
    ensures forall u | u in s.units :: Close(s, cu).units[u].reserved == s.units[u].reserved
  {
    assert UnitOk(p, cu, s.units[cu]);
    if s.units[cu].cur == s.units[cu].end {
      CloseLaid(p, s.units, s.slots, cu);
      forall c | c in s.slots ensures KindOk(s, NONE, NONE, c) { assert KindOk(s, NONE, cu, c); }
    } else {
      FillKeeps(p, s, cu);
      PublishKeeps(p, Fill(s, cu), s.units[cu].cur, NONE);
    }
  }

  /** Closing a unit again changes nothing. */
  lemma CloseKeepsAny(p: Params, s: State, cu: int, u: int)
    requires ValidParams(p) && Inv(p, s, NONE, cu) && u in s.units && (cu == u || cu == NONE)
    ensures Inv(p, Close(s, u), NONE, NONE)
    ensures Close(s, u).order == s.order && Close(s, u).flush == s.flush
    ensures Gap(p, u == cu, s.units[u]) && s.units[u].cur <= s.units[u].end
  {
    assert UnitOk(p, u, s.units[u]) && Gap(p, u == cu, s.units[u]);
    if cu == u { CloseKeeps(p, s, u); }
  }

  /** The size `try_for_more_space` asks of a new unit for a slot of `k` bytes. */
  function NewSize(p: Params, k: int): (r: int)
    requires 0 < k
    ensures r >= 2 * k && r >= p.maxUnit && (r == p.maxUnit || r < 2 * k + PAGE)
    ensures p.maxUnit % PAGE == 0 ==> r % PAGE == 0
  {
    if p.maxUnit < 2 * k then PAGE * ((2 * k + PAGE - 1) / PAGE) else p.maxUnit
  }

  /** What `fcache_create_unit` returns for such a request: fresh memory with one increment
      committed, or a dead unit that is large enough. It touches no other unit. */
  ghost predicate Supplied(p: Params, s: State, k: int, g: Region)
    requires 0 < k
  {
    && RegionOk(p, s.units, g)
    && ((g.committed == p.commit && g.reserved == NewSize(p, k)) || NewSize(p, k) <= g.committed)
  }

  function FullyCommitted(s: State): State
    requires s.order != [] && s.order[0] in s.units
  {
    var u := s.order[0];
    if s.units[u].end < s.units[u].reserved then Commit(s, u, s.units[u].reserved - s.units[u].end) else s
  }

  /** All of the current unit is committed and in use: what no slot holds goes on the free lists. */
  function Exhaust(s: State): State
    requires s.order != [] && s.order[0] in s.units && |s.lists| == BUCKET_COUNT
  {
    Close(FullyCommitted(s), s.order[0])
  }

  /** The growth of `try_for_more_space` beyond the current unit: exhaust it, retire the oldest
      unit if the working set demands it, and open a new unit. */
  function NextUnit(s: State, g: Region, retire: bool): State
    requires s.order != [] && s.order[0] in s.units && |s.lists| == BUCKET_COUNT
  {
    if retire && Exhaust(s).order != [] then Open(Retire(Exhaust(s)), g) else Open(Exhaust(s), g)
  }

  /** The current unit with enough committed for `k` bytes. */
  function Committed(p: Params, s: State, k: int): State
    requires s.order != [] && s.order[0] in s.units && 0 < p.commit
  {
    var r := s.units[s.order[0]];
    if k <= r.end - r.cur then s else Commit(s, s.order[0], CommitSize(p, r, k))
  }

  /** `add_fragment_common` for a shared cache. */
  function Add(p: Params, s: State, f: nat, k: int, g: Region, retire: bool): State
    requires 0 <= k && s.order != [] && s.order[0] in s.units && |s.lists| == BUCKET_COUNT && 0 < p.commit
  {
    match Search(s.slots, s.lists, Bucket(k), k)
    case Some(a) => if FreeLen(s.slots, a) >= k then Reuse(p, s, a, k, f) else s
    case None =>
      if s.units[s.order[0]].cur + k <= s.units[s.order[0]].reserved then AppendFit(p, Committed(p, s, k), k, f)
      else AppendFit(p, Committed(p, NextUnit(s, g, retire), k), k, f)
  }

  /** The commit loop always reaches the requested size inside the reservation. */
  lemma CommitSizeFits(p: Params, u: int, r: Unit, k: int)
    requires ValidParams(p) && UnitOk(p, u, r) && r.end - r.cur < k <= r.reserved - r.cur
    ensures 0 < CommitSize(p, r, k) <= r.reserved - r.end
    ensures CommitSize(p, r, k) % PAGE == 0
    ensures k <= r.end + CommitSize(p, r, k) - r.cur
  {
    CommitPages(p, u, r, k);
  }

  lemma CommittedKeeps(p: Params, s: State, k: int)
    requires Good(p, s) && 0 < k && s.units[s.order[0]].cur + k <= s.units[s.order[0]].reserved
    ensures Good(p, Committed(p, s, k)) && Committed(p, s, k).order == s.order && Committed(p, s, k).home == s.home
    ensures var r := Committed(p, s, k).units[s.order[0]]; k <= r.end - r.cur
  {
    var u := s.order[0];
    var r := s.units[u];
    if k > r.end - r.cur {
      CommitSizeFits(p, u, r, k);
      CommitKeeps(p, s, u, CommitSize(p, r, k));
    }
  }

  lemma FullyCommittedKeeps(p: Params, s: State)
    requires Good(p, s) && s.order[0] in s.units
    ensures var s' := FullyCommitted(s); var u := s.order[0];
      && Inv(p, s', NONE, u) && s'.order == s.order && s'.flush == s.flush && s'.home == s.home && s'.slots == s.slots
      && s'.units.Keys == s.units.Keys && (forall v | v in s.units :: s'.units[v].reserved == s.units[v].reserved)
      && s'.units[u].cur == s.units[u].cur && s'.units[u].end == s.units[u].reserved && |s'.lists| == BUCKET_COUNT
  {
    var u := s.order[0];
    assert UnitOk(p, u, s.units[u]);
    if s.units[u].end < s.units[u].reserved {
      CommitKeeps(p, s, u, s.units[u].reserved - s.units[u].end);
    }
  }

  lemma ExhaustKeeps(p: Params, s: State)
    requires Good(p, s) && s.order[0] in s.units
    ensures var s' := Exhaust(s);
      && Inv(p, s', NONE, NONE) && s'.order == s.order && s'.flush == s.flush && s'.home == s.home
      && s'.units.Keys == s.units.Keys && forall u | u in s.units :: s'.units[u].reserved == s.units[u].reserved
  {
    FullyCommittedKeeps(p, s);
    CloseKeeps(p, FullyCommitted(s), s.order[0]);
  }

  lemma NextUnitKeeps(p: Params, s: State, g: Region, retire: bool)
    requires Good(p, s) && RegionOk(p, s.units, g)
    ensures var s' := NextUnit(s, g, retire);
      && Good(p, s') && s'.order[0] == g.base && s'.home == s.home
      && s'.units[g.base] == Unit(g.base, g.base + g.committed, g.base + g.reserved, false)
  {
    CurrentUnit(p, s);
    ExhaustKeeps(p, s);
    if retire {
      RetireKeeps(p, Exhaust(s));
      OpenKeeps(p, Retire(Exhaust(s)), g);
    } else {
      OpenKeeps(p, Exhaust(s), g);
    }
  }

  /** What `fcache_add_fragment` asks for: an aligned slot of `k` bytes for a fragment that has none. */
  ghost predicate Request(p: Params, s: State, f: nat, k: int)
  {
    MIN_SLOT <= k && Multiple(p.align, k) && f !in s.home
  }

  /** The current unit has no room for the request, committed or not. */
  predicate NeedsUnit(s: State, k: int)
    requires s.order != [] && s.order[0] in s.units
  {
    s.units[s.order[0]].cur + k > s.units[s.order[0]].reserved
  }

  /** The request is served by a new unit: no free entry is large enough, and the current unit has no room. */
  predicate Creates(s: State, k: int)
    requires 0 <= k && s.order != [] && s.order[0] in s.units && |s.lists| == BUCKET_COUNT
  {
    Search(s.slots, s.lists, Bucket(k), k).None? && NeedsUnit(s, k)
  }

  lemma AddKeeps(p: Params, s: State, f: nat, k: int, g: Region, retire: bool)
    requires Good(p, s) && Request(p, s, f, k) && (Creates(s, k) ==> Supplied(p, s, k, g))
    ensures Good(p, Add(p, s, f, k, g, retire))
  {
    SearchRefinesExhaustive(p, s, k);
    match Search(s.slots, s.lists, Bucket(k), k)
    case Some(a) =>
      ReuseKeeps(p, s, a, k, f);
      ReuseOrder(p, s, a, k, f);
    case None =>
      if s.units[s.order[0]].cur + k <= s.units[s.order[0]].reserved {
        CommittedKeeps(p, s, k);
        AppendFitKeeps(p, Committed(p, s, k), k, f);
      } else {
        AddInNewUnit(p, s, f, k, g, retire);
      }
  }

  lemma AddFreeOrder(s: State, x: int, cu: int)
    requires x in s.slots && |s.lists| == BUCKET_COUNT && s.slots[x].len >= 0
    ensures AddFree(s, x, cu).order == s.order && AddFree(s, x, cu).flush == s.flush && AddFree(s, x, cu).home == s.home
  {
  }

  lemma ReuseOrder(p: Params, s: State, a: int, k: int, f: nat)
    requires FreeLen(s.slots, a) >= k >= 0 && |s.lists| == BUCKET_COUNT && s.order != []
    ensures Reuse(p, s, a, k, f).order == s.order && Reuse(p, s, a, k, f).flush == s.flush
    ensures Reuse(p, s, a, k, f).home == s.home[f := a]
  {
    if s.slots[a].len - k > EmptyHole(p) {
      AddFreeOrder(OccupyPart(Seize(s, a), a, k, f), a + k, s.order[0]);
    }
  }

  lemma AddInNewUnit(p: Params, s: State, f: nat, k: int, g: Region, retire: bool)
    requires Good(p, s) && Request(p, s, f, k) && Supplied(p, s, k, g)
    ensures Good(p, AppendFit(p, Committed(p, NextUnit(s, g, retire), k), k, f))
  {
    NextUnitKeeps(p, s, g, retire);
    CommittedKeeps(p, NextUnit(s, g, retire), k);
    AppendFitKeeps(p, Committed(p, NextUnit(s, g, retire), k), k, f);
  }

  // ----- giving back the end of a slot

  /** The released part of `fcache_return_extra_space`: fragment slot `a` keeps `k` bytes. */
  function Release(s: State, a: int, k: int): State
    requires a in s.slots && s.slots[a].unit in s.units && s.order != [] && |s.lists| == BUCKET_COUNT
    requires k <= s.slots[a].len
  {
    var cu := s.order[0];
    if s.slots[a].unit == cu && a + s.slots[a].len == s.units[cu].cur then ShrinkLast(s, a, k)
    else AddFree(Shed(s, a, k), a + k, cu)
  }

  /** When the code releases the tail: at the end of a full unit only a hole that is worth an
      append, before a free entry any amount, elsewhere a useful hole. */
  ghost predicate Releasable(p: Params, s: State, a: int, k: int)
    requires a in s.slots && s.slots[a].unit in s.units
  {
    var e := a + s.slots[a].len;
    var r := s.units[s.slots[a].unit];
    && MIN_SLOT <= k < s.slots[a].len && Multiple(p.align, k)
    && (if e == r.end then s.slots[a].len - k >= EndHole(p)
        else e == r.cur || FreeLen(s.slots, e) >= 0 || s.slots[a].len - k >= EmptyHole(p))
  }

  lemma SlotInUnit(p: Params, s: State, a: int)
    requires Good(p, s) && a in s.slots
    ensures s.slots[a].unit in s.units && 0 < s.slots[a].len
    ensures var r := s.units[s.slots[a].unit];
      && a + s.slots[a].len <= r.cur <= r.end
      && (s.slots[a].unit != s.order[0] ==> r.cur == r.end)
  {
    assert Placed(p, s.units, s.slots, s.order[0], a);
    var u := s.slots[a].unit;
    assert UnitOk(p, u, s.units[u]) && Gap(p, u == s.order[0], s.units[u]);
  }

  lemma ReleaseKeeps(p: Params, s: State, a: int, k: int)
    requires Good(p, s) && a in s.slots && s.slots[a].kind.Live? && s.slots[a].unit in s.units && Releasable(p, s, a, k)
    ensures Inv(p, Release(s, a, k), NONE, s.order[0])
  {
    SlotInUnit(p, s, a);
    var t := Release(s, a, k);
    if s.slots[a].unit == s.order[0] && a + s.slots[a].len == s.units[s.order[0]].cur {
      ShrinkLastKeeps(p, s, a, k, s.order[0]);
      assert t == ShrinkLast(s, a, k);
    } else {
      ReleaseInside(p, s, a, k, Shed(s, a, k), t);
    }
  }

  lemma ShedShape(p: Params, s: State, a: int, k: int, cu: int)
    requires a in s.slots && s.slots[a].unit in s.units && Releasable(p, s, a, k)
    requires a + s.slots[a].len == s.units[s.slots[a].unit].cur ==> a + s.slots[a].len == s.units[s.slots[a].unit].end
    ensures a + k in Shed(s, a, k).slots && Disposable(Shed(s, a, k), a + k, cu)
  {
  }

  lemma ReleaseInside(p: Params, s: State, a: int, k: int, t: State, r: State)
    requires Good(p, s) && a in s.slots && s.slots[a].kind.Live? && s.slots[a].unit in s.units && Releasable(p, s, a, k)
    requires s.slots[a].unit == s.order[0] ==> a + s.slots[a].len < s.units[s.order[0]].cur <= s.units[s.order[0]].end
    requires s.slots[a].unit != s.order[0] ==> s.units[s.slots[a].unit].cur == s.units[s.slots[a].unit].end
    requires t == Shed(s, a, k) && r == Release(s, a, k)
    ensures Inv(p, r, NONE, s.order[0])
  {
    ShedKeeps(p, s, a, k, s.order[0]);
    ShedShape(p, s, a, k, s.order[0]);
    AddFreeKeeps(p, t, a + k, s.order[0]);
  }

  lemma ReleaseOrder(s: State, a: int, k: int)
    requires a in s.slots && s.slots[a].unit in s.units && s.order != [] && |s.lists| == BUCKET_COUNT
    requires k <= s.slots[a].len
    ensures Release(s, a, k).order == s.order && Release(s, a, k).flush == s.flush && Release(s, a, k).home == s.home
  {
    if !(s.slots[a].unit == s.order[0] && a + s.slots[a].len == s.units[s.order[0]].cur) {
      AddFreeOrder(Shed(s, a, k), a + k, s.order[0]);
    }
  }

  // ----- growth never has to be repeated

  /** `try_for_more_space`: the current unit is committed further, or a new unit follows it. */
  function MoreSpace(p: Params, s: State, k: int, g: Region, retire: bool): State
    requires s.order != [] && s.order[0] in s.units && |s.lists| == BUCKET_COUNT && 0 < p.commit
  {
    if s.units[s.order[0]].cur + k <= s.units[s.order[0]].reserved then Committed(p, s, k) else NextUnit(s, g, retire)
  }

  /** The free entries after closing a unit: one more, and it is shorter than the request. */
  lemma CloseEntries(p: Params, s: State, u: int, a: int)
    requires ValidParams(p) && Inv(p, s, NONE, u) && u in s.units
    ensures FreeLen(Close(s, u).slots, a) ==
      if a == s.units[u].cur < s.units[u].end then s.units[u].end - s.units[u].cur else FreeLen(s.slots, a)
  {
    AppendPointFree(p, s.units, s.slots, u, u);
  }

  lemma NextUnitEntries(p: Params, s: State, k: int, g: Region, retire: bool, a: int)
    requires Good(p, s) && s.order[0] in s.units && s.units[s.order[0]].cur + k > s.units[s.order[0]].reserved
    requires FreeLen(s.slots, a) < k
    ensures FreeLen(NextUnit(s, g, retire).slots, a) < k
  {
    FullyCommittedKeeps(p, s);
    CloseEntries(p, FullyCommitted(s), s.order[0], a);
    assert NextUnit(s, g, retire).slots == Exhaust(s).slots;
  }

  /** When no free entry and no committed room serves the request, growing does not change what
      becomes of it: one more growth at most is needed, and none creates a usable free entry. */
  lemma AddAfterGrowth(p: Params, s: State, f: nat, k: int, g: Region, retire: bool)
    requires Good(p, s) && Request(p, s, f, k) && (NeedsUnit(s, k) ==> Supplied(p, s, k, g))
    requires Search(s.slots, s.lists, Bucket(k), k).None?
    ensures var s' := MoreSpace(p, s, k, g, retire);
      && Good(p, s') && s'.home == s.home && Search(s'.slots, s'.lists, Bucket(k), k).None?
      && s'.units[s'.order[0]].cur + k <= s'.units[s'.order[0]].reserved
      && Add(p, s', f, k, g, retire) == Add(p, s, f, k, g, retire)
  {
    CurrentUnit(p, s);
    if s.units[s.order[0]].cur + k <= s.units[s.order[0]].reserved {
      GrowInside(p, s, f, k, g, retire);
    } else {
      GrowOutside(p, s, f, k, g, retire);
    }
  }

  lemma GrowInside(p: Params, s: State, f: nat, k: int, g: Region, retire: bool)
    requires Good(p, s) && s.order[0] in s.units && Request(p, s, f, k)
    requires Search(s.slots, s.lists, Bucket(k), k).None? && s.units[s.order[0]].cur + k <= s.units[s.order[0]].reserved
    ensures var s' := Committed(p, s, k);
      && Good(p, s') && s'.home == s.home && s'.slots == s.slots && s'.lists == s.lists
      && s'.units[s'.order[0]].cur + k <= s'.units[s'.order[0]].reserved
      && Add(p, s', f, k, g, retire) == Add(p, s, f, k, g, retire)
  {
    CommittedKeeps(p, s, k);
    assert Committed(p, Committed(p, s, k), k) == Committed(p, s, k);
  }

  lemma GrowOutside(p: Params, s: State, f: nat, k: int, g: Region, retire: bool)
    requires Good(p, s) && s.order[0] in s.units && Request(p, s, f, k) && Supplied(p, s, k, g)
    requires Search(s.slots, s.lists, Bucket(k), k).None? && s.units[s.order[0]].cur + k > s.units[s.order[0]].reserved
    ensures var s' := NextUnit(s, g, retire);
      && Good(p, s') && s'.home == s.home && Search(s'.slots, s'.lists, Bucket(k), k).None?
      && s'.units[s'.order[0]].cur + k <= s'.units[s'.order[0]].reserved
      && Add(p, s', f, k, g, retire) == Add(p, s, f, k, g, retire)
  {
    var s' := NextUnit(s, g, retire);
    NextUnitKeeps(p, s, g, retire);
    SearchRefinesExhaustive(p, s, k);
    forall a ensures FreeLen(s'.slots, a) < k { NextUnitEntries(p, s, k, g, retire, a); }
    SearchRefinesExhaustive(p, s', k);
  }

  lemma CommitAny(p: Params, s: State, u: int, k: int)
    requires Good(p, s) && u == s.order[0] && u in s.units && s.units[u].end - s.units[u].cur < k
    requires s.units[u].end < s.units[u].reserved
    ensures Good(p, Commit(s, u, CommitSize(p, s.units[u], k)))
  {
    var r := s.units[u];
    assert UnitOk(p, u, r);
    CommitSizeAny(p, u, r, k);
    CommitKeeps(p, s, u, CommitSize(p, r, k));
  }

  lemma CommitSizeAny(p: Params, u: int, r: Unit, k: int)
    requires ValidParams(p) && UnitOk(p, u, r) && r.end - r.cur < k && r.end < r.reserved
    ensures 0 < CommitSize(p, r, k) <= r.reserved - r.end && CommitSize(p, r, k) % PAGE == 0
    ensures r.cur + k <= r.reserved <==> r.cur + k <= r.end + CommitSize(p, r, k)
    ensures r.cur + k > r.reserved ==> CommitSize(p, r, k) == r.reserved - r.end
  {
    CommitPages(p, u, r, k);
  }

  /** The commit loop either makes room for the request or commits the whole reservation. */
  lemma MoreSpaceCases(p: Params, s: State, k: int)
    requires Good(p, s) && s.order[0] in s.units && s.units[s.order[0]].end - s.units[s.order[0]].cur < k
    ensures var u := s.order[0]; var r := s.units[u];
      && u > 0 && r.end <= r.reserved
      && (r.end == r.reserved ==> r.cur + k > r.reserved && FullyCommitted(s) == s)
      && (r.end < r.reserved ==>
            var c := Commit(s, u, CommitSize(p, r, k));
            && (r.cur + k <= c.units[u].end <==> r.cur + k <= r.reserved)
            && (r.cur + k <= r.reserved ==> c == Committed(p, s, k))
            && (r.cur + k > r.reserved ==> c == FullyCommitted(s)))
  {
    var u := s.order[0];
    assert UnitOk(p, u, s.units[u]);
    if s.units[u].end < s.units[u].reserved { CommitSizeAny(p, u, s.units[u], k); }
  }

  lemma ExhaustRegion(p: Params, s: State, g: Region)
    requires Good(p, s) && s.order[0] in s.units && RegionOk(p, s.units, g)
    ensures RegionOk(p, Exhaust(s).units, g)
  {
    ExhaustKeeps(p, s);
  }

  lemma CloseTwice(s: State, u: int)
    requires u in s.units && |s.lists| == BUCKET_COUNT
    ensures u in Close(s, u).units && |Close(s, u).lists| == BUCKET_COUNT
    ensures Close(Close(s, u), u) == Close(s, u)
    ensures Close(s, u).order == s.order && Close(s, u).units.Keys == s.units.Keys
    ensures forall v | v in s.units :: Close(s, u).units[v].reserved == s.units[v].reserved
  {
  }

  /** A closed unit is at least as large as the unit maximum. */
  lemma WholeUnit(p: Params, s: State, u: int)
    requires Inv(p, s, NONE, NONE) && u in s.units && s.units[u].end == s.units[u].reserved
    ensures s.units[u].end - u >= p.maxUnit
  {
    assert UnitOk(p, u, s.units[u]);
  }

  /** How many growths a request still needs. */
  function Growths(s: State, k: int): nat
    requires s.order != [] && s.order[0] in s.units
  {
    var r := s.units[s.order[0]];
    if r.cur + k <= r.end then 0 else if r.cur + k <= r.reserved then 1 else 2
  }

  lemma GapFacts(p: Params, s: State)
    requires Good(p, s) && s.order[0] in s.units
    ensures var r := s.units[s.order[0]]; r.cur <= r.end <= r.reserved && (r.full <==> r.cur == r.end)
  {
    assert UnitOk(p, s.order[0], s.units[s.order[0]]) && Gap(p, true, s.units[s.order[0]]);
  }

  lemma GrowthCounts(p: Params, s: State, k: int, g: Region, retire: bool)
    requires Good(p, s) && s.order[0] in s.units && 0 < k && s.units[s.order[0]].cur + k > s.units[s.order[0]].end
    requires NeedsUnit(s, k) ==> Supplied(p, s, k, g)
    ensures var s' := MoreSpace(p, s, k, g, retire);
      s'.order != [] && s'.order[0] in s'.units && Growths(s', k) < Growths(s, k)
  {
    if NeedsUnit(s, k) { NextUnitKeeps(p, s, g, retire); } else { CommittedKeeps(p, s, k); }
  }

  lemma AddFits(p: Params, s: State, f: nat, k: int, g: Region, retire: bool)
    requires Good(p, s) && s.order[0] in s.units && 0 <= k <= s.units[s.order[0]].end - s.units[s.order[0]].cur
    requires Search(s.slots, s.lists, Bucket(k), k).None?
    ensures Add(p, s, f, k, g, retire) == AppendFit(p, s, k, f)
  {
    assert UnitOk(p, s.order[0], s.units[s.order[0]]);
  }
}
