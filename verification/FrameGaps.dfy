/** The frame numbers between the frames a dump uses, as PageTables/Host/host_pt_augmentor.c collects
    them: sort, drop duplicates, list the gaps. */
module FrameGaps {
  import opened Layout
  import opened HexText

  ghost predicate Ascending(s: seq<nat>)
  {
    forall i, j | 0 <= i < j < |s| :: s[i] <= s[j]
  }

  ghost predicate Increasing(s: seq<nat>)
  {
    forall i, j | 0 <= i < j < |s| :: s[i] < s[j]
  }

  // ----- `qsort` with `compare_uint64`

  function Insert(s: seq<nat>, x: nat): seq<nat>
  {
    if s == [] || x <= s[0] then [x] + s else [s[0]] + Insert(s[1..], x)
  }

  /** The one ascending arrangement of `s`. */
  function Sorted(s: seq<nat>): seq<nat>
  {
    if s == [] then [] else Insert(Sorted(s[1..]), s[0])
  }

  lemma {:induction false} InsertBag(s: seq<nat>, x: nat)
    ensures multiset(Insert(s, x)) == multiset(s) + multiset{x}
  {
    if s != [] && x > s[0] {
      InsertBag(s[1..], x);
      assert s == [s[0]] + s[1..];
    }
  }

  lemma {:induction false} InsertAscending(s: seq<nat>, x: nat)
    requires Ascending(s)
    ensures Ascending(Insert(s, x))
  {
    if s != [] && x > s[0] {
      InsertAscending(s[1..], x);
      InsertBag(s[1..], x);
      var r := Insert(s[1..], x);
      forall i | 0 <= i < |r| ensures s[0] <= r[i] {
        assert r[i] in multiset(r);
      }
    }
  }

  lemma {:induction false} SortedMeaning(s: seq<nat>)
    ensures Ascending(Sorted(s)) && multiset(Sorted(s)) == multiset(s)
  {
    if s != [] {
      SortedMeaning(s[1..]);
      InsertAscending(Sorted(s[1..]), s[0]);
      InsertBag(Sorted(s[1..]), s[0]);
      assert s == [s[0]] + s[1..];
    }
  }

  // ----- duplicates

  /** The elements that differ from the one before. */
  function Unique(s: seq<nat>): seq<nat>
  {
    if s == [] then []
    else
      var n := |s| - 1;
      Unique(s[..n]) + if n == 0 || s[n] != s[n - 1] then [s[n]] else []
  }

  lemma {:induction false} UniqueIncreasing(s: seq<nat>)
    requires Ascending(s)
    ensures Increasing(Unique(s)) && |Unique(s)| <= |s|
    ensures s != [] ==> Unique(s) != [] && Unique(s)[|Unique(s)| - 1] == s[|s| - 1]
  {
    if s != [] {
      var n := |s| - 1;
      var t := s[..n];
      UniqueIncreasing(t);
      if n > 0 { assert t[n - 1] == s[n - 1] <= s[n]; }
    }
  }

  lemma {:induction false} UniqueHas(s: seq<nat>, y: nat)
    ensures y in Unique(s) <==> y in s
  {
    if s != [] {
      var n := |s| - 1;
      UniqueHas(s[..n], y);
      assert s == s[..n] + [s[n]];
      if n > 0 { assert s[..n][n - 1] == s[n - 1]; }
    }
  }

  /** The removal of duplicates in place. */
  method Dedup(a: array<nat>) returns (unique: nat)
    requires Ascending(a[..])
    modifies a
    ensures unique <= a.Length && a[..unique] == Unique(old(a[..]))
  {
    ghost var s := a[..];
    unique := 0;
    var i := 0;
    while i < a.Length
      invariant 0 <= unique <= i <= a.Length
      invariant a[..unique] == Unique(s[..i]) && a[i..] == s[i..] && (i > 0 ==> a[i - 1] == s[i - 1])
    {
      UniqueStep(s, i);
      assert a[i] == a[i..][0] == s[i];
      if i == 0 || a[i] != a[i - 1] {
        if i != unique {
          a[unique] := a[i];
        }
        unique := unique + 1;
      }
      i := i + 1;
    }
    assert s[..i] == s;
  }

  lemma UniqueStep(s: seq<nat>, i: nat)
    requires i < |s|
    ensures Unique(s[..i + 1]) == Unique(s[..i]) + if i == 0 || s[i] != s[i - 1] then [s[i]] else []
  {
    var t := s[..i + 1];
    assert t[..i] == s[..i];
  }

  lemma {:induction false} IncreasingIsSorted(s: seq<nat>)
    requires Increasing(s)
    ensures Sorted(s) == s
  {
    if s != [] { IncreasingIsSorted(s[1..]); }
  }

  lemma {:induction false} IncreasingIsUnique(s: seq<nat>)
    requires Increasing(s)
    ensures Unique(s) == s
  {
    if s != [] { IncreasingIsUnique(s[..|s| - 1]); }
  }

  // ----- gaps

  /** Larger gaps are skipped. */
  const GAP_MAX: nat := 100_000_000
  /** The capacity at which the table stops growing. */
  const LIMIT: nat := 1_036_870_912

  /** The numbers from `lo` up to but not including `hi`. */
  function Run(lo: nat, hi: nat): (r: seq<nat>)
    requires lo <= hi
    ensures |r| == hi - lo
  {
    if lo == hi then [] else Run(lo, hi - 1) + [hi - 1]
  }

  lemma {:induction false} RunAt(lo: nat, hi: nat)
    requires lo <= hi
    ensures forall i | 0 <= i < hi - lo :: Run(lo, hi)[i] == lo + i
  {
    if lo < hi { RunAt(lo, hi - 1); }
  }

  predicate Usable(p: nat, q: nat)
  {
    p != MAX && q != MAX && p + 1 < q && q - p - 1 <= GAP_MAX
  }

  /** The free numbers between two neighbours. */
  function GapOf(p: nat, q: nat): (r: seq<nat>)
    ensures |r| == if Usable(p, q) then q - p - 1 else 0
  {
    if Usable(p, q) then Run(p + 1, q) else []
  }

  /** The free numbers between the first `n + 1` frames. */
  function GapsTo(pfns: seq<nat>, n: nat): seq<nat>
    requires n < |pfns|
  {
    if n == 0 then [] else GapsTo(pfns, n - 1) + GapOf(pfns[n - 1], pfns[n])
  }

  function Gaps(pfns: seq<nat>): seq<nat>
  {
    if |pfns| < 2 then [] else GapsTo(pfns, |pfns| - 1)
  }

  /** Between which neighbours the number `x` lies. */
  predicate Between(pfns: seq<nat>, i: nat, x: nat)
  {
    i + 1 < |pfns| && Usable(pfns[i], pfns[i + 1]) && pfns[i] < x < pfns[i + 1]
  }

  lemma {:induction false} GapsBelow(pfns: seq<nat>, n: nat)
    requires n < |pfns| && Increasing(pfns)
    ensures Increasing(GapsTo(pfns, n)) && forall i | 0 <= i < |GapsTo(pfns, n)| :: GapsTo(pfns, n)[i] < pfns[n]
  {
    if n > 0 {
      GapsBelow(pfns, n - 1);
      if Usable(pfns[n - 1], pfns[n]) { RunAt(pfns[n - 1] + 1, pfns[n]); }
    }
  }

  /** Every number listed lies in a gap that is not too large, and every such number is listed. */
  lemma {:induction false} GapsHold(pfns: seq<nat>, n: nat, x: nat)
    requires n < |pfns|
    ensures x in GapsTo(pfns, n) <==> exists i: nat :: i < n && Between(pfns, i, x)
  {
    if n > 0 {
      GapsHold(pfns, n - 1, x);
      GapHolds(pfns[n - 1], pfns[n], x);
      assert x in GapOf(pfns[n - 1], pfns[n]) <==> Between(pfns, n - 1, x);
    }
  }

  lemma GapHolds(p: nat, q: nat, x: nat)
    ensures x in GapOf(p, q) <==> Usable(p, q) && p < x < q
  {
    if Usable(p, q) {
      RunAt(p + 1, q);
      if p < x < q { assert GapOf(p, q)[x - p - 1] == x; }
    }
  }

  lemma GapsMeaning(pfns: seq<nat>)
    requires Increasing(pfns)
    ensures Increasing(Gaps(pfns))
  {
    if |pfns| >= 2 { GapsBelow(pfns, |pfns| - 1); }
  }

  lemma GapsMember(pfns: seq<nat>, x: nat)
    ensures x in Gaps(pfns) <==> exists i: nat :: Between(pfns, i, x)
  {
    if |pfns| >= 2 {
      GapsHold(pfns, |pfns| - 1, x);
      if i: nat :| Between(pfns, i, x) { assert i < |pfns| - 1; }
    }
  }

  /** No listed number is a frame in use. */
  lemma GapsAreFree(pfns: seq<nat>, x: nat)
    requires Increasing(pfns) && x in Gaps(pfns) && forall k | 0 <= k < |pfns| :: pfns[k] <= MAX
    ensures x !in pfns && x < MAX
  {
    GapsMember(pfns, x);
    var i: nat :| Between(pfns, i, x);
    forall k | 0 <= k < |pfns| ensures pfns[k] != x {
      if k < i { assert pfns[k] < pfns[i]; }
      if k > i + 1 { assert pfns[i + 1] < pfns[k]; }
    }
  }

  /** The next size of a full table. */
  function Grown(capacity: nat): nat
  {
    if capacity < 500_000_000 then capacity * 2 else capacity + 100_000_000
  }

  /** The sizes the table goes through. */
  function CapacityAt(k: nat): nat
  {
    if k == 0 then 0x10_0000 else Grown(CapacityAt(k - 1))
  }

  /** `c` is size number `k`. */
  ghost predicate Capacity(c: nat, k: nat)
  {
    k <= 14 && c == CapacityAt(k)
  }

  /** The table stops growing at the limit, and not before. */
  lemma CapacityEnds(c: nat, k: nat)
    requires Capacity(c, k)
    ensures c <= LIMIT
    ensures c >= 1_000_000_000 <==> c == LIMIT
    ensures c < 1_000_000_000 ==> Capacity(Grown(c), k + 1) && c < Grown(c)
  {
    assert CapacityAt(8) == 0x1000_0000;
    assert CapacityAt(9) == 0x2000_0000;
    assert CapacityAt(13) == 936_870_912 && CapacityAt(14) == LIMIT;
    CapacityGrows(k, 13);
    CapacityGrows(0, k);
    if c < 1_000_000_000 { assert Grown(c) == CapacityAt(k + 1); }
  }

  lemma {:induction false} CapacityGrows(k: nat, n: nat)
    ensures k <= n ==> CapacityAt(k) <= CapacityAt(n)
  {
    if k < n { CapacityGrows(k, n - 1); }
  }

  /** One number goes into the table, which grows if it is full, unless it has reached the limit. */
  method AddOne(table: seq<nat>, capacity: nat, pfn: nat, ghost k: nat)
    returns (table': seq<nat>, capacity': nat, ok: bool, ghost k': nat)
    requires |table| <= capacity && Capacity(capacity, k)
    ensures |table| <= LIMIT && (ok <==> |table| < LIMIT)
    ensures ok ==> table' == table + [pfn] && |table'| <= capacity' && Capacity(capacity', k')
    ensures !ok ==> table' == table
  {
    table', capacity', ok, k' := table, capacity, true, k;
    CapacityEnds(capacity, k);
    if |table| >= capacity {
      if capacity >= 1_000_000_000 {
        ok := false;
        return;
      }
      capacity', k' := Grown(capacity), k + 1;
    }
    table' := table + [pfn];
  }

  /** The inner loop of `find_gaps`: all numbers of one gap, unless the table is full. */
  method AddGap(table: seq<nat>, capacity: nat, lo: nat, hi: nat, ghost k: nat)
    returns (table': seq<nat>, capacity': nat, ok: bool, ghost k': nat)
    requires lo <= hi && |table| <= capacity && Capacity(capacity, k) && |table| <= LIMIT
    ensures ok <==> |table| + (hi - lo) <= LIMIT
    ensures ok ==> table' == table + Run(lo, hi) && |table'| <= capacity' && Capacity(capacity', k')
    ensures !ok ==> |table'| == LIMIT
  {
    table', capacity', ok, k' := table, capacity, true, k;
    var pfn := lo;
    while pfn < hi
      invariant lo <= pfn <= hi && table' == table + Run(lo, pfn) && |table'| <= capacity' && Capacity(capacity', k')
      invariant |table'| <= LIMIT && ok
    {
      RunNext(table, lo, pfn);
      table', capacity', ok, k' := AddOne(table', capacity', pfn, k');
      if !ok {
        return;
      }
      pfn := pfn + 1;
    }
  }

  lemma RunNext(table: seq<nat>, lo: nat, pfn: nat)
    requires lo <= pfn
    ensures table + Run(lo, pfn) + [pfn] == table + Run(lo, pfn + 1)
  {
    assert Run(lo, pfn + 1) == Run(lo, pfn) + [pfn];
  }

  /** One round of the outer loop: the gap between two neighbours, unless it is none or too large */
  method AddBetween(table: seq<nat>, capacity: nat, p: nat, q: nat, ghost k: nat)
    returns (table': seq<nat>, capacity': nat, ok: bool, ghost k': nat)
    requires p < q && |table| <= capacity && Capacity(capacity, k)
    ensures |table| <= LIMIT
    ensures ok <==> |table| + |GapOf(p, q)| <= LIMIT
    ensures ok ==> table' == table + GapOf(p, q) && |table'| <= capacity' && Capacity(capacity', k')
    ensures !ok ==> |table'| == LIMIT
  {
    CapacityEnds(capacity, k);
    table', capacity', ok, k' := table, capacity, true, k;
    if p != MAX && q != MAX && p + 1 <= q - 1 && q - 1 - (p + 1) + 1 <= GAP_MAX {
      table', capacity', ok, k' := AddGap(table, capacity, p + 1, q, k);
    }
  }

  lemma GapsNext(pfns: seq<nat>, i: nat)
    requires i + 1 < |pfns|
    ensures GapsTo(pfns, i + 1) == GapsTo(pfns, i) + GapOf(pfns[i], pfns[i + 1])
  {
  }

  /** One round of the outer loop */
  method AddPair(pfns: seq<nat>, table: seq<nat>, capacity: nat, i: nat, ghost k: nat)
      returns (table': seq<nat>, capacity': nat, ok: bool, ghost k': nat)
    requires i + 1 < |pfns| && pfns[i] < pfns[i + 1] && table == GapsTo(pfns, i) && |table| <= capacity
    requires Capacity(capacity, k)
    ensures ok <==> |GapsTo(pfns, i + 1)| <= LIMIT
    ensures ok ==> table' == GapsTo(pfns, i + 1) && |table'| <= capacity' && Capacity(capacity', k')
    ensures !ok ==> |table'| == LIMIT
  {
    GapsNext(pfns, i);
    table', capacity', ok, k' := AddBetween(table, capacity, pfns[i], pfns[i + 1], k);
  }

  predicate Rises(pfns: seq<nat>, i: nat)
  {
    i + 1 < |pfns| && pfns[i] < pfns[i + 1]
  }

  /** The outer loop of `find_gaps`; `i` is where it ends. */
  method CollectGaps(pfns: seq<nat>) returns (table: seq<nat>, ok: bool, ghost i: nat)
    requires |pfns| >= 2 && forall j: nat | j + 1 < |pfns| :: Rises(pfns, j)
    ensures i < |pfns| && (ok <==> |GapsTo(pfns, i)| <= LIMIT)
    ensures ok ==> i == |pfns| - 1 && table == GapsTo(pfns, i)
    ensures !ok ==> |table| == LIMIT
  {
    var capacity: nat;
    table, capacity, ok := [], 0x10_0000, true;
    ghost var k := 0;
    i := 0;
    var n := 0;
    while n < |pfns| - 1
      invariant n == i <= |pfns| - 1 && ok && table == GapsTo(pfns, i) && |table| <= LIMIT && |table| <= capacity
      invariant Capacity(capacity, k)
    {
      assert Rises(pfns, n);
      table, capacity, ok, k := AddPair(pfns, table, capacity, n, k);
      n, i := n + 1, n + 1;
      if !ok {
        return;
      }
    }
  }

  /** `find_gaps`. The table is missing when there is nothing to list, and also when there is too
      much: then the count is left at the last capacity. */
  method FindGaps(pfns: seq<nat>) returns (table: Option<seq<nat>>, count: nat)
    requires Increasing(pfns)
    ensures |Gaps(pfns)| <= LIMIT ==> count == |Gaps(pfns)| && table == if count == 0 then None else Some(Gaps(pfns))
    ensures |Gaps(pfns)| > LIMIT ==> count == LIMIT && table == None
  {
    if |pfns| < 2 {
      return None, 0;
    }
    ghost var i;
    var buf, ok;
    buf, ok, i := CollectGaps(pfns);
    GapsGrow(pfns, i, |pfns| - 1);
    count := |buf|;
    table := if ok && count > 0 then Some(buf) else None;
  }

  lemma {:induction false} GapsGrow(pfns: seq<nat>, m: nat, n: nat)
    requires m <= n < |pfns|
    ensures |GapsTo(pfns, m)| <= |GapsTo(pfns, n)|
  {
    if m < n { GapsGrow(pfns, m, n - 1); }
  }

  // ----- too many

  /** Frames as far apart as a gap may be. */
  function Ladder(n: nat): (s: seq<nat>)
    ensures |s| == n && forall i | 0 <= i < n :: s[i] == i * (GAP_MAX + 1)
  {
    if n == 0 then [] else Ladder(n - 1) + [(n - 1) * (GAP_MAX + 1)]
  }

  lemma {:induction false} LadderGaps(n: nat, k: nat)
    requires k < n <= 30
    ensures |GapsTo(Ladder(n), k)| == k * GAP_MAX
  {
    if k > 0 { LadderGaps(n, k - 1); }
  }

  lemma LadderTooWide(n: nat)
    requires 12 <= n <= 30
    ensures Increasing(Ladder(n)) && |Gaps(Ladder(n))| > LIMIT
  {
    LadderGaps(n, n - 1);
  }
}
