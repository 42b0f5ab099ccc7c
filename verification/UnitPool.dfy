/** The life of cache units in Simulator/core/fcache.c (live, waiting to be freed, dead, gone) as a
    specification over sequences. */
module UnitPool {
  import opened Layout
  import opened SlotModel

  /** `size` is the committed size, `cache` the cache the unit counts for, `flush` the moment its
      fragments were flushed, and `reserved` the size of its reservation. */
  datatype Rec = Rec(size: int, cache: Option<nat>, flush: nat, reserved: int)

  type Recs = map<int, Rec>

  /** `all` lists the units, `dead` the reusable ones and `toFree` those that wait for their last
      readers; `used` is the size field of every cache. */
  datatype Pool = Pool(recs: Recs, all: seq<int>, dead: seq<int>, toFree: seq<int>, used: map<nat, int>)

  /** The sizes of the units of `l` that name cache `c`, together. */
  function Total(recs: Recs, l: seq<int>, c: nat): int
  {
    if l == [] then 0
    else (if l[0] in recs && recs[l[0]].cache == Some(c) then recs[l[0]].size else 0) + Total(recs, l[1..], c)
  }

  ghost predicate Accounted(s: Pool)
  {
    forall c | c in s.used :: s.used[c] == Total(s.recs, s.all, c)
  }

  ghost predicate BySize(recs: Recs, dead: seq<int>)
  {
    && (forall i | 0 <= i < |dead| :: dead[i] in recs && recs[dead[i]].cache.None?)
    && (forall i, j | 0 <= i < j < |dead| ::
          dead[i] in recs && dead[j] in recs && recs[dead[i]].size <= recs[dead[j]].size)
  }

  ghost predicate ByTime(recs: Recs, l: seq<int>)
  {
    && (forall i | 0 <= i < |l| :: l[i] in recs)
    && (forall i, j | 0 <= i < j < |l| :: l[i] in recs && l[j] in recs && recs[l[i]].flush <= recs[l[j]].flush)
  }

  ghost predicate Lists(s: Pool)
  {
    && NoDup(s.all) && NoDup(s.dead) && NoDup(s.toFree)
    && (forall u :: u in s.recs <==> u in s.all)
    && (forall u | u in s.dead :: u !in s.toFree)
  }

  ghost predicate PoolInv(s: Pool)
  {
    && Lists(s) && Accounted(s) && BySize(s.recs, s.dead) && ByTime(s.recs, s.toFree)
    && (forall u | u in s.recs && s.recs[u].cache.Some? :: s.recs[u].cache.value in s.used)
  }

  // ----- the sums

  /** A changed record changes the sum by the difference. */
  function Share(recs: Recs, u: int, c: nat): int
  {
    if u in recs && recs[u].cache == Some(c) then recs[u].size else 0
  }

  lemma {:induction false} TotalSame(recs: Recs, recs': Recs, l: seq<int>, c: nat)
    requires forall i | 0 <= i < |l| :: Share(recs', l[i], c) == Share(recs, l[i], c)
    ensures Total(recs', l, c) == Total(recs, l, c)
  {
    if l != [] {
      assert Share(recs', l[0], c) == Share(recs, l[0], c);
      TotalSame(recs, recs', l[1..], c);
    }
  }

  lemma {:induction false} TotalConcat(recs: Recs, l: seq<int>, r: seq<int>, c: nat)
    ensures Total(recs, l + r, c) == Total(recs, l, c) + Total(recs, r, c)
  {
    if l == [] {
      assert l + r == r;
    } else {
      TotalConcat(recs, l[1..], r, c);
      assert (l + r)[1..] == l[1..] + r;
    }
  }

  lemma TotalAt(recs: Recs, l: seq<int>, i: int, c: nat)
    requires 0 <= i < |l|
    ensures Total(recs, l, c) == Total(recs, l[..i], c) + Share(recs, l[i], c) + Total(recs, l[i + 1..], c)
  {
    assert l == l[..i] + l[i..];
    TotalConcat(recs, l[..i], l[i..], c);
    assert l[i..][1..] == l[i + 1..];
  }

  lemma TotalUpdate(recs: Recs, recs': Recs, l: seq<int>, i: int, c: nat)
    requires NoDup(l) && 0 <= i < |l| && forall u | u != l[i] :: Share(recs', u, c) == Share(recs, u, c)
    ensures Total(recs', l, c) == Total(recs, l, c) + Share(recs', l[i], c) - Share(recs, l[i], c)
  {
    TotalAt(recs, l, i, c);
    TotalAt(recs', l, i, c);
    TotalSame(recs, recs', l[..i], c);
    TotalSame(recs, recs', l[i + 1..], c);
  }

  // ----- `remove_unit_from_cache`, guarded

  function Charged(used: map<nat, int>, cache: Option<nat>, d: int): map<nat, int>
  {
    if cache.Some? && cache.value in used then used[cache.value := used[cache.value] + d] else used
  }

  function Uncached(s: Pool, u: int): Pool
    requires u in s.recs
  {
    s.(recs := s.recs[u := s.recs[u].(cache := None)], used := Charged(s.used, s.recs[u].cache, -s.recs[u].size))
  }

  lemma UncachedKeeps(s: Pool, u: int)
    requires PoolInv(s) && u in s.recs
    ensures PoolInv(Uncached(s, u))
  {
    var t := Uncached(s, u);
    forall c | c in t.used ensures t.used[c] == Total(t.recs, t.all, c) {
      TotalUpdate(s.recs, t.recs, s.all, IndexOf(s.all, u), c);
    }
  }

  // ----- `fcache_free_unit`

  /** The heuristic: no more dead units than five or a quarter of the threads. */
  predicate Keeps(dead: int, threads: nat)
  {
    dead < 5 || dead * 4 <= threads
  }

  /** The place of a unit of `size` bytes in the dead list. */
  function Place(recs: Recs, dead: seq<int>, size: int): (i: int)
    ensures 0 <= i <= |dead|
    ensures forall j | 0 <= j < i :: dead[j] in recs && recs[dead[j]].size < size
    ensures i < |dead| ==> !(dead[i] in recs && recs[dead[i]].size < size)
  {
    if dead != [] && dead[0] in recs && recs[dead[0]].size < size then 1 + Place(recs, dead[1..], size) else 0
  }

  function Inserted(l: seq<int>, i: int, u: int): seq<int>
    requires 0 <= i <= |l|
  {
    l[..i] + [u] + l[i..]
  }

  function Buried(s: Pool, u: int): Pool
    requires u in s.recs
  {
    var t := Uncached(s, u);
    t.(dead := Inserted(s.dead, Place(s.recs, s.dead, s.recs[u].size), u))
  }

  lemma BuriedKeeps(s: Pool, u: int)
    requires PoolInv(s) && u in s.recs && u !in s.dead && u !in s.toFree
    ensures PoolInv(Buried(s, u))
  {
    UncachedKeeps(s, u);
    BuriedBySize(s, u);
    var i := Place(s.recs, s.dead, s.recs[u].size);
    InsertedNoDup(s.dead, i, u);
  }

  lemma InsertedNoDup(l: seq<int>, i: int, u: int)
    requires NoDup(l) && u !in l && 0 <= i <= |l|
    ensures NoDup(Inserted(l, i, u))
    ensures forall v :: v in Inserted(l, i, u) <==> v in l || v == u
  {
    forall v ensures v in Inserted(l, i, u) <==> v in l || v == u {
      assert l == l[..i] + l[i..];
    }
  }

  lemma BuriedBySize(s: Pool, u: int)
    requires BySize(s.recs, s.dead) && u in s.recs && u !in s.dead
    ensures BySize(Buried(s, u).recs, Buried(s, u).dead)
  {
    var t := Buried(s, u);
    var n, size := Place(s.recs, s.dead, s.recs[u].size), s.recs[u].size;
    forall i | 0 <= i < |t.dead| ensures t.dead[i] in t.recs && t.recs[t.dead[i]].cache.None? {
      assert i != n ==> t.dead[i] == s.dead[if i < n then i else i - 1];
    }
    forall i, j | 0 <= i < j < |t.dead| ensures t.dead[i] in t.recs && t.dead[j] in t.recs &&
      t.recs[t.dead[i]].size <= t.recs[t.dead[j]].size {
      assert i != n ==> t.dead[i] == s.dead[if i < n then i else i - 1];
      assert j != n ==> t.dead[j] == s.dead[if j < n then j else j - 1];
      if i == n && n < |s.dead| { assert s.recs[s.dead[n]].size >= size; }
    }
  }

  /** `fcache_really_free_unit` */
  function Destroyed(s: Pool, u: int): Pool
    requires u in s.recs
  {
    var t := Uncached(s, u);
    t.(recs := t.recs - {u}, all := Without(s.all, u))
  }

  lemma DestroyedKeeps(s: Pool, u: int)
    requires PoolInv(s) && u in s.recs && u !in s.dead && u !in s.toFree
    ensures PoolInv(Destroyed(s, u))
  {
    UncachedKeeps(s, u);
    var t, v := Uncached(s, u), Destroyed(s, u);
    WithoutKeeps(s.all, u);
    var i := IndexOf(s.all, u);
    forall c | c in v.used ensures v.used[c] == Total(v.recs, v.all, c) {
      TotalAt(t.recs, t.all, i, c);
      TotalConcat(t.recs, t.all[..i], t.all[i + 1..], c);
      TotalSame(t.recs, v.recs, v.all, c);
    }
    assert forall k | 0 <= k < |s.dead| :: s.dead[k] in s.dead;
    assert forall k | 0 <= k < |s.toFree| :: s.toFree[k] in s.toFree;
  }

  /** `fcache_free_unit` with `dealloc_or_reuse` */
  function Freed(s: Pool, u: int, threads: nat): Pool
    requires u in s.recs
  {
    if Keeps(|s.dead|, threads) then Buried(s, u) else Destroyed(s, u)
  }

  /** The code takes the unit out of its cache once more when it buries it, without looking
      whether it still has one. */
  predicate Faults(s: Pool, u: int, threads: nat)
    requires u in s.recs
  {
    Keeps(|s.dead|, threads) && s.recs[u].cache.None?
  }

  // ----- `fcache_free_pending_units`

  /** The first unit that waits leaves the list. */
  function Popped(s: Pool): Pool
    requires s.toFree != []
  {
    s.(toFree := s.toFree[1..])
  }

  lemma PoppedKeeps(s: Pool)
    requires PoolInv(s) && s.toFree != []
    ensures PoolInv(Popped(s)) && s.toFree[0] in s.recs && s.toFree[0] !in s.dead && s.toFree[0] !in Popped(s).toFree
  {
    assert s.toFree[0] in s.toFree;
    assert forall u | u in s.toFree[1..] :: u in s.toFree;
  }

  predicate Due(s: Pool, bound: nat)
  {
    s.toFree != [] && s.toFree[0] in s.recs && s.recs[s.toFree[0]].flush <= bound
  }

  function FreedDue(s: Pool, bound: nat, threads: nat): Pool
    decreases |s.toFree|
  {
    if Due(s, bound) then FreedDue(Freed(Popped(s), s.toFree[0], threads), bound, threads) else s
  }

  predicate FaultsDue(s: Pool, bound: nat, threads: nat)
    decreases |s.toFree|
  {
    && Due(s, bound)
    && (Faults(Popped(s), s.toFree[0], threads) || FaultsDue(Freed(Popped(s), s.toFree[0], threads), bound, threads))
  }

  lemma FreedKeeps(s: Pool, u: int, threads: nat)
    requires PoolInv(s) && u in s.recs && u !in s.dead && u !in s.toFree
    ensures PoolInv(Freed(s, u, threads)) && Freed(s, u, threads).toFree == s.toFree
    ensures forall v | v in s.recs && v != u ::
      v in Freed(s, u, threads).recs && Freed(s, u, threads).recs[v] == s.recs[v]
  {
    if Keeps(|s.dead|, threads) { BuriedKeeps(s, u); } else { DestroyedKeeps(s, u); }
  }

  /** The list of `s` splits into a prefix that is due and the rest, `l`, that is not. */
  ghost predicate SplitAt(s: Pool, l: seq<int>, bound: nat)
    requires ByTime(s.recs, s.toFree)
  {
    var n := |s.toFree| - |l|;
    && 0 <= n && l == s.toFree[n..]
    && (forall i | 0 <= i < n :: s.recs[s.toFree[i]].flush <= bound)
    && (forall i | n <= i < |s.toFree| :: s.recs[s.toFree[i]].flush > bound)
  }

  lemma SplitLater(s: Pool, s': Pool, l: seq<int>, bound: nat)
    requires ByTime(s.recs, s.toFree) && ByTime(s'.recs, s'.toFree) && Due(s, bound) && s'.toFree == s.toFree[1..]
    requires SplitAt(s', l, bound)
    requires forall i | 1 <= i < |s.toFree| :: s'.recs[s.toFree[i]] == s.recs[s.toFree[i]]
    ensures SplitAt(s, l, bound)
  {
    assert forall i | 1 <= i < |s.toFree| :: s.toFree[i] == s'.toFree[i - 1];
  }

  lemma {:induction false} FreedDueKeeps(s: Pool, bound: nat, threads: nat)
    requires PoolInv(s)
    ensures PoolInv(FreedDue(s, bound, threads))
    decreases |s.toFree|
  {
    if Due(s, bound) {
      FreedFirst(s, threads);
      FreedDueKeeps(Freed(Popped(s), s.toFree[0], threads), bound, threads);
    }
  }

  /** A free call removes exactly the units flushed at or before the bound: a prefix of the list. */
  lemma {:induction false} FreedDueMeaning(s: Pool, bound: nat, threads: nat)
    requires PoolInv(s)
    ensures SplitAt(s, FreedDue(s, bound, threads).toFree, bound)
    decreases |s.toFree|
  {
    if Due(s, bound) {
      FreedFirst(s, threads);
      var s' := Freed(Popped(s), s.toFree[0], threads);
      FreedDueMeaning(s', bound, threads);
      SplitLater(s, s', FreedDue(s', bound, threads).toFree, bound);
    } else {
      SplitNone(s, bound);
    }
  }

  lemma SplitNone(s: Pool, bound: nat)
    requires ByTime(s.recs, s.toFree) && !Due(s, bound)
    ensures SplitAt(s, s.toFree, bound)
  {
    assert s.toFree[0..] == s.toFree;
    forall i | 0 <= i < |s.toFree| ensures s.recs[s.toFree[i]].flush > bound {
      assert s.toFree[0] in s.recs;
      if i > 0 { assert s.recs[s.toFree[0]].flush <= s.recs[s.toFree[i]].flush; }
    }
  }

  lemma FreedFirst(s: Pool, threads: nat)
    requires PoolInv(s) && s.toFree != []
    ensures s.toFree[0] in s.recs
    ensures var t := Freed(Popped(s), s.toFree[0], threads);
      && PoolInv(t) && t.toFree == s.toFree[1..]
      && (forall i | 1 <= i < |s.toFree| :: s.toFree[i] in t.recs && t.recs[s.toFree[i]] == s.recs[s.toFree[i]])
      && |t.dead| == |s.dead| + if Keeps(|s.dead|, threads) then 1 else 0
  {
    PoppedKeeps(s);
    FreedKeeps(Popped(s), s.toFree[0], threads);
  }

  /** The unit at `i` of the list is due, has no cache, and finds room when its turn comes. */
  predicate FaultAt(s: Pool, i: int, bound: nat, threads: nat)
  {
    && 0 <= i < |s.toFree| && s.toFree[i] in s.recs && s.recs[s.toFree[i]].flush <= bound
    && s.recs[s.toFree[i]].cache.None?
    && Keeps(|s.dead| + i, threads)
  }

  lemma {:induction false} FaultsIf(s: Pool, i: int, bound: nat, threads: nat)
    requires PoolInv(s) && FaultAt(s, i, bound, threads)
    ensures FaultsDue(s, bound, threads)
    decreases |s.toFree|
  {
    if i > 0 {
      FreedFirst(s, threads);
      var s' := Freed(Popped(s), s.toFree[0], threads);
      assert s'.toFree[i - 1] == s.toFree[i];
      FaultsIf(s', i - 1, bound, threads);
    }
  }

  lemma {:induction false} FaultsOnlyIf(s: Pool, bound: nat, threads: nat) returns (i: int)
    requires PoolInv(s) && FaultsDue(s, bound, threads)
    ensures FaultAt(s, i, bound, threads)
    decreases |s.toFree|
  {
    i := 0;
    if !Faults(Popped(s), s.toFree[0], threads) {
      FreedFirst(s, threads);
      var s' := Freed(Popped(s), s.toFree[0], threads);
      i := FaultsOnlyIf(s', bound, threads);
      i := i + 1;
      assert s'.toFree[i - 1] == s.toFree[i];
    }
  }

  /** The unit is met again without a cache exactly if some due unit has none while there still is
      room among the dead: the caller can tell from the list and the number of dead units. */
  lemma FaultsMeaning(s: Pool, bound: nat, threads: nat)
    requires PoolInv(s)
    ensures FaultsDue(s, bound, threads) <==> exists i :: FaultAt(s, i, bound, threads)
  {
    if FaultsDue(s, bound, threads) {
      var i := FaultsOnlyIf(s, bound, threads);
    } else {
      forall i | FaultAt(s, i, bound, threads) ensures false {
        FaultsIf(s, i, bound, threads);
      }
    }
  }

  // ----- `append_units_to_free_list`

  /** All units of the chain but the last lose their cache. */
  function AllUncached(s: Pool, chain: seq<int>): Pool
    requires forall i | 0 <= i < |chain| :: chain[i] in s.recs
    decreases |chain|
  {
    if |chain| <= 1 then s else AllUncached(Uncached(s, chain[0]), chain[1..])
  }

  function Queued(s: Pool, chain: seq<int>): Pool
    requires forall i | 0 <= i < |chain| :: chain[i] in s.recs
  {
    var t := AllUncached(s, chain);
    t.(toFree := s.toFree + chain)
  }

  lemma {:induction false} AllUncachedKeeps(s: Pool, chain: seq<int>)
    requires PoolInv(s) && NoDup(chain) && forall i | 0 <= i < |chain| :: chain[i] in s.recs
    ensures var t := AllUncached(s, chain);
      && PoolInv(t) && t.all == s.all && t.dead == s.dead && t.toFree == s.toFree && t.recs.Keys == s.recs.Keys
      && (forall u | u in s.recs :: t.recs[u] == s.recs[u] || t.recs[u] == s.recs[u].(cache := None))
      && (forall i | 0 <= i < |chain| - 1 :: t.recs[chain[i]].cache.None?)
      && (chain != [] ==> t.recs[chain[|chain| - 1]] == s.recs[chain[|chain| - 1]])
    decreases |chain|
  {
    if |chain| > 1 {
      UncachedKeeps(s, chain[0]);
      AllUncachedKeeps(Uncached(s, chain[0]), chain[1..]);
    }
  }

  /** Given non-decreasing flush times the list stays sorted, and cache sizes stay right. */
  lemma QueuedKeeps(s: Pool, chain: seq<int>)
    requires PoolInv(s) && NoDup(chain) && ByTime(s.recs, chain)
    requires forall i | 0 <= i < |chain| :: chain[i] !in s.toFree && chain[i] !in s.dead
    requires s.toFree != [] && chain != [] ==> s.recs[s.toFree[|s.toFree| - 1]].flush <= s.recs[chain[0]].flush
    ensures PoolInv(Queued(s, chain))
  {
    AllUncachedKeeps(s, chain);
    var t, l := Queued(s, chain), s.toFree;
    NoDupConcat(l, chain);
    ByTimeConcat(s.recs, l, chain);
    ByTimeSame(s.recs, t.recs, l + chain);
    forall u | u in t.dead ensures u !in l + chain {
    }
  }

  lemma NoDupConcat(l: seq<int>, m: seq<int>)
    requires NoDup(l) && NoDup(m) && forall i | 0 <= i < |m| :: m[i] !in l
    ensures NoDup(l + m)
  {
    forall i, j | 0 <= i < j < |l + m| ensures (l + m)[i] != (l + m)[j] {
      if i < |l| <= j { assert l[i] in l; }
    }
  }

  lemma ByTimeConcat(recs: Recs, l: seq<int>, m: seq<int>)
    requires ByTime(recs, l) && ByTime(recs, m)
    requires l != [] && m != [] ==> recs[l[|l| - 1]].flush <= recs[m[0]].flush
    ensures ByTime(recs, l + m)
  {
    var n := l + m;
    forall i, j | 0 <= i < j < |n| ensures recs[n[i]].flush <= recs[n[j]].flush {
      if i < |l| <= j {
        if i < |l| - 1 { assert recs[l[i]].flush <= recs[l[|l| - 1]].flush; }
        if j > |l| { assert recs[m[0]].flush <= recs[m[j - |l|]].flush; }
      }
    }
  }

  lemma ByTimeSame(recs: Recs, recs': Recs, l: seq<int>)
    requires ByTime(recs, l) && forall u | u in recs :: u in recs' && recs'[u].flush == recs[u].flush
    ensures ByTime(recs', l)
  {
    forall i | 0 <= i < |l| ensures l[i] in recs' && recs'[l[i]].flush == recs[l[i]].flush {
      var u := l[i];
      assert u in recs;
    }
  }

  /** Flushing two or more units together, with room among the dead, always leads there. */
  lemma ChainFaults(s: Pool, chain: seq<int>, bound: nat, threads: nat)
    requires PoolInv(s) && NoDup(chain) && ByTime(s.recs, chain) && |chain| >= 2
    requires forall i | 0 <= i < |chain| :: chain[i] !in s.toFree && chain[i] !in s.dead
    requires s.toFree != [] ==> s.recs[s.toFree[|s.toFree| - 1]].flush <= s.recs[chain[0]].flush
    requires s.recs[chain[0]].flush <= bound && |s.dead| + |s.toFree| < 5
    ensures FaultsDue(Queued(s, chain), bound, threads)
  {
    QueuedKeeps(s, chain);
    AllUncachedKeeps(s, chain);
    var t := Queued(s, chain);
    assert t.toFree[|s.toFree|] == chain[0];
    FaultsIf(t, |s.toFree|, bound, threads);
  }

  // ----- `fcache_create_unit`

  /** The dead unit at `i` serves a request of `need` bytes for cache `c`. */
  predicate Serves(s: Pool, u: int, c: nat, need: int, max: int)
  {
    u in s.recs && c in s.used && s.recs[u].size >= need && (max == 0 || s.used[c] + s.recs[u].size <= max)
  }

  /** The search through the dead list. */
  function FirstServing(s: Pool, l: seq<int>, c: nat, need: int, max: int): (i: Option<int>)
    ensures i.Some? ==> 0 <= i.value < |l| && Serves(s, l[i.value], c, need, max)
    ensures i.Some? ==> forall j | 0 <= j < i.value :: !Serves(s, l[j], c, need, max)
    ensures i.None? ==> forall j | 0 <= j < |l| :: !Serves(s, l[j], c, need, max)
  {
    if l == [] then None
    else if Serves(s, l[0], c, need, max) then Some(0)
    else match FirstServing(s, l[1..], c, need, max)
      case Some(i) => Some(i + 1)
      case None => None
  }

  /** First fit is best fit: no dead unit that serves is smaller than the one taken. */
  lemma FirstIsSmallest(s: Pool, c: nat, need: int, max: int, j: int)
    requires PoolInv(s) && 0 <= j < |s.dead| && Serves(s, s.dead[j], c, need, max)
    ensures var i := FirstServing(s, s.dead, c, need, max);
      i.Some? && s.recs[s.dead[i.value]].size <= s.recs[s.dead[j]].size
  {
  }

  function Revived(s: Pool, i: int, c: nat): Pool
    requires 0 <= i < |s.dead| && s.dead[i] in s.recs
  {
    var u := s.dead[i];
    s.(recs := s.recs[u := s.recs[u].(cache := Some(c), flush := 0)], dead := s.dead[..i] + s.dead[i + 1..],
      used := Charged(s.used, Some(c), s.recs[u].size))
  }

  lemma RevivedKeeps(s: Pool, i: int, c: nat)
    requires PoolInv(s) && 0 <= i < |s.dead| && c in s.used
    ensures PoolInv(Revived(s, i, c))
  {
    var t, u := Revived(s, i, c), s.dead[i];
    forall d | d in t.used ensures t.used[d] == Total(t.recs, t.all, d) {
      TotalUpdate(s.recs, t.recs, s.all, IndexOf(s.all, u), d);
    }
    assert u in s.dead;
    RemoveAt(s.dead, i);
    RevivedOrder(s, i, c);
  }

  lemma RevivedOrder(s: Pool, i: int, c: nat)
    requires BySize(s.recs, s.dead) && NoDup(s.dead) && ByTime(s.recs, s.toFree) && 0 <= i < |s.dead|
    requires s.dead[i] !in s.toFree
    ensures BySize(Revived(s, i, c).recs, Revived(s, i, c).dead) && ByTime(Revived(s, i, c).recs, s.toFree)
  {
    var t := Revived(s, i, c);
    forall k | 0 <= k < |t.dead| ensures t.dead[k] == s.dead[if k < i then k else k + 1] {
    }
    forall k | 0 <= k < |s.toFree| ensures s.toFree[k] != s.dead[i] {
    }
  }

  /** A new unit of which `size` bytes are committed. */
  function Born(s: Pool, u: int, size: int, reserved: int, c: nat): Pool
  {
    s.(recs := s.recs[u := Rec(size, Some(c), 0, reserved)], all := s.all + [u], used := Charged(s.used, Some(c), size))
  }

  lemma BornKeeps(s: Pool, u: int, size: int, reserved: int, c: nat)
    requires PoolInv(s) && u !in s.recs && c in s.used
    ensures PoolInv(Born(s, u, size, reserved, c))
  {
    var t := Born(s, u, size, reserved, c);
    forall d | d in t.used ensures t.used[d] == Total(t.recs, t.all, d) {
      TotalConcat(t.recs, s.all, [u], d);
      TotalSame(s.recs, t.recs, s.all, d);
    }
    forall v ensures v in t.recs <==> v in t.all {
    }
  }

  /** `cache_extend_commitment` */
  function Grown(s: Pool, u: int, inc: int): Pool
    requires u in s.recs
  {
    s.(recs := s.recs[u := s.recs[u].(size := s.recs[u].size + inc)], used := Charged(s.used, s.recs[u].cache, inc))
  }

  lemma GrownKeeps(s: Pool, u: int, inc: int)
    requires PoolInv(s) && u in s.recs && u !in s.dead
    ensures PoolInv(Grown(s, u, inc))
  {
    var t := Grown(s, u, inc);
    forall d | d in t.used ensures t.used[d] == Total(t.recs, t.all, d) {
      TotalUpdate(s.recs, t.recs, s.all, IndexOf(s.all, u), d);
    }
    assert forall i | 0 <= i < |s.dead| :: s.dead[i] in s.dead;
  }

  /** The caller stamps units it has flushed. */
  function Stamped(s: Pool, u: int, time: nat): Pool
    requires u in s.recs
  {
    s.(recs := s.recs[u := s.recs[u].(flush := time)])
  }

  lemma StampedKeeps(s: Pool, u: int, time: nat)
    requires PoolInv(s) && u in s.recs && u !in s.toFree
    ensures PoolInv(Stamped(s, u, time))
  {
    var t := Stamped(s, u, time);
    forall d | d in t.used ensures t.used[d] == Total(t.recs, t.all, d) {
      TotalUpdate(s.recs, t.recs, s.all, IndexOf(s.all, u), d);
    }
    assert forall i | 0 <= i < |s.toFree| :: s.toFree[i] in s.toFree;
  }

  /** All units of a flush get its time. */
  function AllStamped(s: Pool, chain: seq<int>, time: nat): Pool
    requires forall i | 0 <= i < |chain| :: chain[i] in s.recs
    decreases |chain|
  {
    if chain == [] then s else AllStamped(Stamped(s, chain[0], time), chain[1..], time)
  }

  lemma {:induction false} AllStampedKeeps(s: Pool, chain: seq<int>, time: nat)
    requires PoolInv(s) && forall i | 0 <= i < |chain| :: chain[i] in s.recs && chain[i] !in s.toFree
    ensures var t := AllStamped(s, chain, time);
      && PoolInv(t) && t == s.(recs := t.recs) && t.recs.Keys == s.recs.Keys
      && forall u | u in s.recs :: t.recs[u] == if u in chain then s.recs[u].(flush := time) else s.recs[u]
    decreases |chain|
  {
    if chain != [] {
      StampedKeeps(s, chain[0], time);
      AllStampedKeeps(Stamped(s, chain[0], time), chain[1..], time);
    }
  }

  /** The end of `fcache_flush_pending_units` */
  function Flushed(s: Pool, chain: seq<int>, time: nat): Pool
    requires forall i | 0 <= i < |chain| :: chain[i] in s.recs
  {
    StampedKeys(s, chain, time);
    Queued(AllStamped(s, chain, time), chain)
  }

  lemma {:induction false} StampedKeys(s: Pool, chain: seq<int>, time: nat)
    requires forall i | 0 <= i < |chain| :: chain[i] in s.recs
    ensures AllStamped(s, chain, time).recs.Keys == s.recs.Keys
    decreases |chain|
  {
    if chain != [] { StampedKeys(Stamped(s, chain[0], time), chain[1..], time); }
  }

  lemma StampedTimes(s: Pool, chain: seq<int>, time: nat)
    requires PoolInv(s) && forall i | 0 <= i < |chain| :: chain[i] in s.recs && chain[i] !in s.toFree
    requires s.toFree != [] ==> s.recs[s.toFree[|s.toFree| - 1]].flush <= time
    ensures var t := AllStamped(s, chain, time);
      && ByTime(t.recs, chain) && (forall i | 0 <= i < |chain| :: t.recs[chain[i]].flush == time)
      && (s.toFree != [] ==> var z := s.toFree[|s.toFree| - 1]; z in t.recs && t.recs[z] == s.recs[z])
  {
    AllStampedKeeps(s, chain, time);
    var t := AllStamped(s, chain, time);
    forall i | 0 <= i < |chain| ensures chain[i] in t.recs && t.recs[chain[i]].flush == time {
      var u := chain[i];
      assert u in chain && u in s.recs;
    }
    if s.toFree != [] {
      var z := s.toFree[|s.toFree| - 1];
      assert z in s.toFree && z !in chain && z in s.recs;
    }
  }

  /** A flush of live units that is not earlier than the last one can be queued. */
  lemma FlushedKeeps(s: Pool, chain: seq<int>, time: nat)
    requires PoolInv(s) && NoDup(chain) && forall i | 0 <= i < |chain| ::
      chain[i] in s.recs && chain[i] !in s.toFree && chain[i] !in s.dead
    requires s.toFree != [] ==> s.recs[s.toFree[|s.toFree| - 1]].flush <= time
    ensures var t := AllStamped(s, chain, time);
      && PoolInv(t) && ByTime(t.recs, chain) && t.toFree == s.toFree && t.dead == s.dead
      && (t.toFree != [] && chain != [] ==> t.recs[t.toFree[|t.toFree| - 1]].flush <= t.recs[chain[0]].flush)
    ensures PoolInv(Flushed(s, chain, time))
  {
    AllStampedKeeps(s, chain, time);
    StampedTimes(s, chain, time);
    QueuedKeeps(AllStamped(s, chain, time), chain);
  }

  /** A new cache has no units. */
  lemma CacheAdded(s: Pool, c: nat)
    requires PoolInv(s) && c !in s.used
    ensures PoolInv(s.(used := s.used[c := 0]))
  {
    NobodyNames(s.recs, s.all, c);
  }

  lemma {:induction false} NobodyNames(recs: Recs, l: seq<int>, c: nat)
    requires forall u | u in recs :: recs[u].cache != Some(c)
    ensures Total(recs, l, c) == 0
  {
    if l != [] { NobodyNames(recs, l[1..], c); }
  }

  // ----- runs

  datatype Op =
    | CreateOp(c: nat, need: int, max: int, unused: int, commit: int)
    | GrowOp(u: int, inc: int)
    | StampOp(u: int, time: nat)
    | QueueOp(chain: seq<int>)
    | FreeOp(bound: nat, threads: nat)
    | CacheOp(c: nat)

  ghost predicate Enabled(s: Pool, op: Op)
    requires PoolInv(s)
  {
    match op
    case CreateOp(c, _, _, unused, _) => c in s.used && unused !in s.recs
    case GrowOp(u, _) => u in s.recs && u !in s.dead
    case StampOp(u, _) => u in s.recs && u !in s.toFree
    case QueueOp(chain) =>
      && NoDup(chain) && ByTime(s.recs, chain)
      && (forall i | 0 <= i < |chain| :: chain[i] !in s.toFree && chain[i] !in s.dead)
      && (s.toFree != [] && chain != [] ==> s.recs[s.toFree[|s.toFree| - 1]].flush <= s.recs[chain[0]].flush)
    case FreeOp(_, _) => true
    case CacheOp(c) => c !in s.used
  }

  /** `fcache_create_unit` */
  function CreatedUnit(s: Pool, c: nat, need: int, max: int, unused: int, commit: int): Pool
  {
    match FirstServing(s, s.dead, c, need, max)
    case Some(i) => Revived(s, i, c)
    case None => Born(s, unused, commit, need, c)
  }

  ghost function Apply(s: Pool, op: Op): (t: Pool)
    requires PoolInv(s) && Enabled(s, op)
    ensures PoolInv(t)
  {
    match op
    case CreateOp(c, need, max, unused, commit) => CreatedKeeps(s, c, need, max, unused, commit);
      CreatedUnit(s, c, need, max, unused, commit)
    case GrowOp(u, inc) => GrownKeeps(s, u, inc); Grown(s, u, inc)
    case StampOp(u, time) => StampedKeeps(s, u, time); Stamped(s, u, time)
    case QueueOp(chain) => QueuedKeeps(s, chain); Queued(s, chain)
    case FreeOp(bound, threads) => FreedDueKeeps(s, bound, threads); FreedDue(s, bound, threads)
    case CacheOp(c) => CacheAdded(s, c); s.(used := s.used[c := 0])
  }

  lemma CreatedKeeps(s: Pool, c: nat, need: int, max: int, unused: int, commit: int)
    requires PoolInv(s) && c in s.used && unused !in s.recs
    ensures PoolInv(CreatedUnit(s, c, need, max, unused, commit))
  {
    match FirstServing(s, s.dead, c, need, max)
    case Some(i) => RevivedKeeps(s, i, c);
    case None => BornKeeps(s, unused, commit, need, c);
  }

  ghost predicate Leads(s: Pool, ops: seq<Op>, t: Pool)
    requires PoolInv(s)
    decreases |ops|
  {
    if ops == [] then s == t else Enabled(s, ops[0]) && Leads(Apply(s, ops[0]), ops[1..], t)
  }

  /** In every state the pool can reach: every cache's size is the sum over the units that name it,
      the dead list is in ascending size, and the waiting list in ascending flush time. */
  lemma {:induction false} RunKeeps(s: Pool, ops: seq<Op>, t: Pool)
    requires PoolInv(s) && Leads(s, ops, t)
    ensures PoolInv(t)
    decreases |ops|
  {
    if ops != [] { RunKeeps(Apply(s, ops[0]), ops[1..], t); }
  }

  const NO_UNITS: Pool := Pool(map[], [], [], [], map[])

  const ONE_CACHE: Pool := NO_UNITS.(used := map[0 := 0])
  const PAIR: Pool := Born(Born(ONE_CACHE, 1, PAGE, PAGE, 0), 2, PAGE, PAGE, 0)

  lemma CacheKeeps()
    ensures PoolInv(NO_UNITS) && Enabled(NO_UNITS, CacheOp(0)) && Apply(NO_UNITS, CacheOp(0)) == ONE_CACHE
    ensures PoolInv(ONE_CACHE)
  {
    CacheAdded(NO_UNITS, 0);
  }

  lemma PairKeeps()
    ensures PoolInv(PAIR)
  {
    CacheKeeps();
    BornKeeps(ONE_CACHE, 1, PAGE, PAGE, 0);
    BornKeeps(Born(ONE_CACHE, 1, PAGE, PAGE, 0), 2, PAGE, PAGE, 0);
  }
}
