/** What replacement does in a private code cache: the run of victims, what is evicted, who makes room. */
module PrivateEviction {
  import opened Layout
  import opened SlotModel
  import opened SlotLayout
  import opened PrivateModel
  import opened PrivateOps

  // ----- the run of victims

  /** The walk of `replace_fragments` goes on behind the slot at `c`. */
  predicate GoesOn(slots: Slots, cur: int, c: int, need: int)
  {
    && c in slots && 0 < slots[c].len < need && c + slots[c].len < cur && c + slots[c].len in slots
    && 0 < slots[c + slots[c].len].len
  }

  /** Where the run of victims from slot `c` on ends, when `need` bytes are wanted. */
  function RunEnd(slots: Slots, cur: int, c: int, need: int): int
    requires c in slots
    decreases need
  {
    if GoesOn(slots, cur, c, need) then RunEnd(slots, cur, c + slots[c].len, need - slots[c].len) else c + slots[c].len
  }

  predicate PinnedAt(slots: Slots, pinned: set<nat>, c: int)
  {
    c in slots && slots[c].kind.Live? && slots[c].kind.f in pinned
  }

  /** The first walk of `replace_fragments` meets a fragment that cannot be deleted. */
  predicate Barred(slots: Slots, cur: int, c: int, need: int, pinned: set<nat>)
    decreases need
  {
    || PinnedAt(slots, pinned, c)
    || (GoesOn(slots, cur, c, need) && Barred(slots, cur, c + slots[c].len, need - slots[c].len, pinned))
  }

  lemma {:induction false} RunEndBounds(slots: Slots, cur: int, c: int, need: int)
    requires c in slots && 0 < slots[c].len
    ensures c + slots[c].len <= RunEnd(slots, cur, c, need)
    decreases need
  {
    if GoesOn(slots, cur, c, need) { RunEndBounds(slots, cur, c + slots[c].len, need - slots[c].len); }
  }

  /** The first walk stops exactly when some slot of the run is pinned. */
  lemma {:induction false} BarredMeaning(slots: Slots, cur: int, c: int, need: int, pinned: set<nat>)
    requires c in slots && 0 < slots[c].len && Disjoint(slots)
    ensures Barred(slots, cur, c, need, pinned) <==>
      exists d :: c <= d < RunEnd(slots, cur, c, need) && PinnedAt(slots, pinned, d)
    decreases need
  {
    RunEndBounds(slots, cur, c, need);
    if GoesOn(slots, cur, c, need) {
      var e := c + slots[c].len;
      BarredMeaning(slots, cur, e, need - slots[c].len, pinned);
      RunEndBounds(slots, cur, e, need - slots[c].len);
      forall d | c <= d < RunEnd(slots, cur, c, need) && PinnedAt(slots, pinned, d) ensures d == c || e <= d {
      }
    } else {
      forall d | c <= d < RunEnd(slots, cur, c, need) && PinnedAt(slots, pinned, d) ensures d == c {
      }
    }
  }

  lemma {:induction false} RunEndSame(slots: Slots, slots': Slots, cur: int, c: int, need: int)
    requires c in slots && c in slots'
    requires forall d | d >= c :: d in slots <==> d in slots'
    requires forall d | d >= c && d in slots :: slots[d] == slots'[d]
    ensures RunEnd(slots, cur, c, need) == RunEnd(slots', cur, c, need)
    decreases need
  {
    if GoesOn(slots, cur, c, need) { RunEndSame(slots, slots', cur, c + slots[c].len, need - slots[c].len); }
  }

  /** Fewer than `need` bytes lie before every later victim: the run is as short as possible. */
  lemma {:induction false} RunIsShortest(slots: Slots, cur: int, c: int, need: int, d: int)
    requires c in slots && 0 < slots[c].len && Disjoint(slots) && d in slots && c < d < RunEnd(slots, cur, c, need)
    ensures d - c < need
    decreases need
  {
    if GoesOn(slots, cur, c, need) && d != c + slots[c].len {
      RunIsShortest(slots, cur, c + slots[c].len, need - slots[c].len, d);
    }
  }

  // ----- the queue without a range of addresses

  function Spared(q: seq<int>, lo: int, hi: int): seq<int>
  {
    if q == [] then [] else (if lo <= q[0] < hi then [] else [q[0]]) + Spared(q[1..], lo, hi)
  }

  lemma {:induction false} SparedConcat(q: seq<int>, r: seq<int>, lo: int, hi: int)
    ensures Spared(q + r, lo, hi) == Spared(q, lo, hi) + Spared(r, lo, hi)
  {
    if q == [] {
      assert q + r == r;
    } else {
      var l, rest := q + r, q[1..] + r;
      assert l[0] == q[0] && l[1..] == rest;
      SparedConcat(q[1..], r, lo, hi);
      SparedCons(q, q[1..], lo, hi);
      SparedCons(l, rest, lo, hi);
      Regroup(if lo <= q[0] < hi then [] else [q[0]], Spared(q[1..], lo, hi), Spared(r, lo, hi));
    }
  }

  lemma Regroup(a: seq<int>, b: seq<int>, c: seq<int>)
    ensures a + (b + c) == a + b + c
  {
  }

  lemma {:induction false} SparedCons(q: seq<int>, rest: seq<int>, lo: int, hi: int)
    requires q != [] && q[1..] == rest
    ensures Spared(q, lo, hi) == (if lo <= q[0] < hi then [] else [q[0]]) + Spared(rest, lo, hi)
  {
  }

  lemma {:induction false} SparedSame(q: seq<int>, lo: int, lo': int, hi: int)
    requires lo <= lo' && forall i | 0 <= i < |q| :: !(lo <= q[i] < lo')
    ensures Spared(q, lo, hi) == Spared(q, lo', hi)
  {
    if q != [] { SparedSame(q[1..], lo, lo', hi); }
  }

  lemma SparedHead(b: int, r: seq<int>, hi: int)
    requires b < hi
    ensures Spared([b] + r, b, hi) == Spared(r, b, hi)
  {
    assert ([b] + r)[1..] == r;
  }

  lemma SparedParts(l: seq<int>, b: int, r: seq<int>, len: int, hi: int)
    requires 0 < len && b + len <= hi
    requires forall i | 0 <= i < |l| :: !(b <= l[i] < b + len)
    requires forall i | 0 <= i < |r| :: !(b <= r[i] < b + len)
    ensures Spared(l + r, b + len, hi) == Spared(l + ([b] + r), b, hi)
  {
    SparedSame(l, b, b + len, hi);
    SparedSame(r, b, b + len, hi);
    SparedHead(b, r, hi);
    SparedConcat(l, r, b + len, hi);
    SparedConcat(l, [b] + r, b, hi);
  }

  /** Taking the first victim off the queue and then the others takes off all of them. */
  lemma SparedStep(q: seq<int>, b: int, len: int, hi: int)
    requires 0 < len && b + len <= hi && b in q && NoDup(q) && forall i | 0 <= i < |q| ::
      q[i] == b || !(b <= q[i] < b + len)
    ensures Spared(Without(q, b), b + len, hi) == Spared(q, b, hi)
  {
    var i := IndexOf(q, b);
    SparedParts(q[..i], b, q[i + 1..], len, hi);
    assert q == q[..i] + ([b] + q[i + 1..]);
  }

  // ----- what the second walk leaves

  function HomesOutside(home: map<nat, int>, lo: int, hi: int): map<nat, int>
  {
    map f | f in home && !(lo <= home[f] < hi) :: home[f]
  }

  /** Slot `a` in transit has swallowed exactly the slots between `lo` and `hi`. */
  ghost predicate Swallowed(s: Fifo, t: Fifo, a: int, lo: int, hi: int)
  {
    && t == s.(slots := t.slots, home := HomesOutside(s.home, lo, hi), q := Spared(s.q, lo, hi))
    && a in s.slots && a in t.slots && t.slots[a] == Slot(s.slots[a].unit, hi - a, Limbo)
    && (forall c | c != a :: c in t.slots <==> c in s.slots && !(lo <= c < hi))
    && (forall c | c != a && c in t.slots :: c in s.slots && t.slots[c] == s.slots[c])
  }

  lemma {:induction false} SparedNone(q: seq<int>, lo: int, hi: int)
    requires lo >= hi
    ensures Spared(q, lo, hi) == q
  {
    if q != [] { SparedNone(q[1..], lo, hi); }
  }

  lemma SwallowedNothing(s: Fifo, a: int)
    requires a in s.slots && s.slots[a].kind.Limbo?
    ensures var e := a + s.slots[a].len; Swallowed(s, s, a, e, e)
  {
    var e := a + s.slots[a].len;
    SparedNone(s.q, e, e);
    assert HomesOutside(s.home, e, e) == s.home;
  }

  lemma QueueStep(s: Fifo, a: int, hi: int)
    requires Queue(s.slots, s.q) && Disjoint(s.slots) && a in s.slots && a + s.slots[a].len in s.slots
    requires Settled(s.slots, a + s.slots[a].len)
    requires var b := a + s.slots[a].len; 0 < s.slots[b].len && b + s.slots[b].len <= hi
    ensures var b := a + s.slots[a].len; Spared(Without(s.q, b), b + s.slots[b].len, hi) == Spared(s.q, b, hi)
  {
    var b := a + s.slots[a].len;
    var len := s.slots[b].len;
    forall i | 0 <= i < |s.q| ensures s.q[i] == b || !(b <= s.q[i] < b + len) {
      assert s.q[i] in s.q && Settled(s.slots, s.q[i]);
    }
    SparedStep(s.q, b, len, hi);
  }

  /** One more slot, and then the rest. */
  lemma SwallowedMore(s: Fifo, t: Fifo, a: int, hi: int)
    requires Disjoint(s.slots) && a in s.slots && a + s.slots[a].len in s.slots
    requires var b := a + s.slots[a].len; 0 < s.slots[a].len && 0 < s.slots[b].len && b + s.slots[b].len <= hi
    requires var b := a + s.slots[a].len; Spared(Without(s.q, b), b + s.slots[b].len, hi) == Spared(s.q, b, hi)
    requires var b := a + s.slots[a].len;
      HomesOutside(Unhomed(s.home, s.slots[b].kind), b + s.slots[b].len, hi) == HomesOutside(s.home, b, hi)
    requires var b := a + s.slots[a].len; Swallowed(Absorbed(s, a), t, a, b + s.slots[b].len, hi)
    ensures Swallowed(s, t, a, a + s.slots[a].len, hi)
  {
  }

  lemma HomesStep(s: Fifo, a: int, b: int, hi: int)
    requires Disjoint(s.slots) && Owned(s.slots, s.home, a) && b in s.slots && b != a && 0 < s.slots[b].len
    requires b + s.slots[b].len <= hi
    ensures HomesOutside(Unhomed(s.home, s.slots[b].kind), b + s.slots[b].len, hi) == HomesOutside(s.home, b, hi)
  {
  }

  lemma SwallowStep(p: Params, s: Fifo, t: Fifo, a: int, hi: int)
    requires FifoInv(p, s, a) && a in s.slots && a + s.slots[a].len in s.slots && 0 < s.slots[a].len
    requires var b := a + s.slots[a].len; 0 < s.slots[b].len && b + s.slots[b].len <= hi
    requires var b := a + s.slots[a].len; Swallowed(Absorbed(s, a), t, a, b + s.slots[b].len, hi)
    ensures Swallowed(s, t, a, a + s.slots[a].len, hi)
  {
    assert Settled(s.slots, a + s.slots[a].len);
    QueueStep(s, a, hi);
    HomesStep(s, a, a + s.slots[a].len, hi);
    SwallowedMore(s, t, a, hi);
  }

  /** From `s` to `t` the slot in transit at `a` has swallowed the slots behind it up to the end of the run. */
  ghost predicate SwallowedRun(s: Fifo, t: Fifo, a: int, k: int)
    requires a in s.slots && s.slots[a].unit in s.units
  {
    var lo := a + s.slots[a].len;
    var hi := if Wanting(s, a, k) then RunEnd(s.slots, s.units[s.slots[a].unit].cur, lo, k - s.slots[a].len) else lo;
    lo <= hi && Swallowed(s, t, a, lo, hi)
  }

  lemma EvictedStep(p: Params, s: Fifo, a: int, k: int)
    requires FifoInv(p, s, a) && Wanting(s, a, k) && a in Absorbed(s, a).slots
    requires Absorbed(s, a).slots[a].unit in Absorbed(s, a).units
    requires SwallowedRun(Absorbed(s, a), Evicted(Absorbed(s, a), a, k), a, k)
    ensures SwallowedRun(s, Evicted(s, a, k), a, k)
  {
    var b := a + s.slots[a].len;
    var hi := RunEnd(s.slots, s.units[s.slots[a].unit].cur, b, k - s.slots[a].len);
    NextInUnit(p, s, a, a);
    RunStep(p, s, a, k);
    RunEndBounds(s.slots, s.units[s.slots[a].unit].cur, b, k - s.slots[a].len);
    SwallowStep(p, s, Evicted(s, a, k), a, hi);
  }

  lemma {:induction false} EvictedMeaning(p: Params, s: Fifo, a: int, k: int)
    requires FifoInv(p, s, a) && a in s.slots && s.slots[a].unit in s.units
    ensures SwallowedRun(s, Evicted(s, a, k), a, k)
    decreases k - s.slots[a].len
  {
    NextInUnit(p, s, a, a);
    if Wanting(s, a, k) {
      var s' := Absorbed(s, a);
      AbsorbedKeeps(p, s, a);
      EvictedMeaning(p, s', a, k);
      EvictedStep(p, s, a, k);
    } else {
      SwallowedNothing(s, a);
    }
  }

  /** Emptying a slot does not move the end of the run. */
  lemma RunStep(p: Params, s: Fifo, a: int, k: int)
    requires FifoInv(p, s, a) && Wanting(s, a, k)
    ensures var cur := s.units[s.slots[a].unit].cur; var b := a + s.slots[a].len; var s' := Absorbed(s, a);
      RunEnd(s.slots, cur, b, k - s.slots[a].len) ==
        if Wanting(s', a, k) then RunEnd(s'.slots, cur, a + s'.slots[a].len, k - s'.slots[a].len)
          else a + s'.slots[a].len
  {
    var cur := s.units[s.slots[a].unit].cur;
    var b := a + s.slots[a].len;
    var s' := Absorbed(s, a);
    if Wanting(s', a, k) {
      RunEndSame(s.slots, s'.slots, cur, a + s'.slots[a].len, k - s'.slots[a].len);
    }
  }

  /** The two walks of `replace_fragments` together. */
  lemma EvictionMeaning(p: Params, s: Fifo, a: int, k: int)
    requires FifoInv(p, s, NONE) && a in s.slots && s.slots[a].unit in s.units
    ensures var e := RunEnd(s.slots, s.units[s.slots[a].unit].cur, a, k); var t := Evicted(Vacated(s, a), a, k);
      a < e && Swallowed(s, t, a, a, e)
  {
    var cur := s.units[s.slots[a].unit].cur;
    var s1 := Vacated(s, a);
    NextInUnit(p, s, NONE, a);
    VacatedKeeps(p, s, a);
    EvictedMeaning(p, s1, a, k);
    var lo := a + s.slots[a].len;
    if GoesOn(s.slots, cur, a, k) { RunEndSame(s.slots, s1.slots, cur, lo, k - s.slots[a].len); }
    RunEndBounds(s.slots, cur, a, k);
    FirstVictim(p, s, Evicted(s1, a, k), a, RunEnd(s.slots, cur, a, k));
  }

  lemma FirstVictim(p: Params, s: Fifo, t: Fifo, a: int, hi: int)
    requires FifoInv(p, s, NONE) && a in s.slots && 0 < s.slots[a].len && a + s.slots[a].len <= hi
    requires Swallowed(Vacated(s, a), t, a, a + s.slots[a].len, hi)
    ensures Swallowed(s, t, a, a, hi)
  {
    var len := s.slots[a].len;
    assert Settled(s.slots, a);
    forall i | 0 <= i < |s.q| ensures s.q[i] == a || !(a <= s.q[i] < a + len) {
      assert s.q[i] in s.q && Settled(s.slots, s.q[i]);
    }
    SparedStep(s.q, a, len, hi);
    HomesStep(s, NONE, a, hi);
  }

  // ----- what a replacement does to everybody

  /** Fragment `h` has the same slot in both states. */
  ghost predicate Unmoved(s: Fifo, t: Fifo, h: nat)
  {
    && h in s.home && h in t.home && t.home[h] == s.home[h]
    && s.home[h] in s.slots && s.home[h] in t.slots && t.slots[s.home[h]] == s.slots[s.home[h]]
    && s.slots[s.home[h]].kind == Live(h)
  }

  lemma PrependedUnmoved(s: Fifo, x: int, h: nat)
    requires x in s.slots && s.slots[x].kind.Limbo? && Unmoved(s, s, h)
    ensures Unmoved(s, Prepended(s, x), h) && Prepended(s, x).home == s.home
  {
  }

  ghost predicate Housed(t: Fifo, f: nat, a: int, k: int)
  {
    f in t.home && t.home[f] == a && a in t.slots && t.slots[a].kind == Live(f) && t.slots[a].len >= k
  }

  lemma RehousedEffect(p: Params, t: Fifo, a: int, k: int, f: nat, h: nat)
    requires a in t.slots && t.slots[a].kind.Limbo? && t.order != [] && t.order[0] in t.units && 0 < k && f !in t.home
    requires t.slots[a].len < k ==> t.slots[a].len + AppendLen(p, t.units[t.order[0]], k - t.slots[a].len) >= k
    requires a + k !in t.slots || t.slots[a].len < k + EmptyHole(p)
    ensures Housed(Rehoused(p, t, a, k, f), f, a, k) && Rehoused(p, t, a, k, f).home == t.home[f := a]
    ensures Unmoved(t, t, h) ==> Unmoved(t, Rehoused(p, t, a, k, f), h)
  {
    if t.slots[a].len >= k + EmptyHole(p) {
      var t1 := LodgedPart(t, a, k, f);
      PrependedUnmoved(t1, a + k, f);
      if Unmoved(t, t, h) { PrependedUnmoved(t1, a + k, h); }
    }
  }

  /** What the new fragment finds when the victims are gone */
  lemma RoomMade(p: Params, s: Fifo, a: int, k: int, f: nat, h: nat, t: Fifo)
    requires FifoInv(p, s, NONE) && Roomy(s, a, k) && f !in s.home && MIN_SLOT <= k && Multiple(p.align, k)
    requires t == Evicted(Vacated(s, a), a, k)
    ensures a in t.slots && t.order != [] && t.order[0] in t.units && Replaced(p, s, a, k, f) == Rehoused(p, t, a, k, f)
    ensures Housed(Rehoused(p, t, a, k, f), f, a, k) && Rehoused(p, t, a, k, f).home == t.home[f := a]
    ensures Unmoved(t, t, h) ==> Unmoved(t, Rehoused(p, t, a, k, f), h)
  {
    VacatedKeeps(p, s, a);
    EvictedKeeps(p, Vacated(s, a), a, k);
    EvictedHome(Vacated(s, a), a, k, f);
    if t.slots[a].len < k { StretchFits(p, t, a, k); }
    NotInside(t, a, k);
    RehousedEffect(p, t, a, k, f, h);
  }

  /** `replace_fragments` evicts one run of neighbouring slots, the shortest from `a` on that is
      long enough (or reaches the append point), and nothing else: `f` gets the place of the run,
      and every fragment outside the run stays where it is. */
  lemma ReplacementMeaning(p: Params, s: Fifo, a: int, k: int, f: nat, h: nat)
    requires FifoInv(p, s, NONE) && Roomy(s, a, k) && f !in s.home && MIN_SLOT <= k && Multiple(p.align, k)
    ensures var e := RunEnd(s.slots, s.units[s.slots[a].unit].cur, a, k); var t := Replaced(p, s, a, k, f);
      && Housed(t, f, a, k) && t.home == HomesOutside(s.home, a, e)[f := a]
      && (h in s.home && !(a <= s.home[h] < e) ==> Unmoved(s, t, h))
      && (forall d | d in s.slots && a < d < e :: d - a < k)
  {
    var cur := s.units[s.slots[a].unit].cur;
    EvictionMeaning(p, s, a, k);
    RoomMade(p, s, a, k, f, h, Evicted(Vacated(s, a), a, k));
    NextInUnit(p, s, NONE, a);
    forall d | d in s.slots && a < d < RunEnd(s.slots, cur, a, k) ensures d - a < k {
      RunIsShortest(s.slots, cur, a, k, d);
    }
  }

  lemma NotInside(t: Fifo, a: int, k: int)
    requires Disjoint(t.slots) && a in t.slots && 0 < k
    ensures k < t.slots[a].len ==> a + k !in t.slots
  {
  }

  // ----- the placing attempts of add_fragment_common

  /** The attempt at the slot at `a` succeeds: the unit is long enough and no victim is pinned. */
  predicate Takes(s: Fifo, a: int, k: int, pinned: set<nat>)
  {
    && a in s.slots && s.slots[a].unit in s.units && s.units[s.slots[a].unit].end - a >= k
    && !Barred(s.slots, s.units[s.slots[a].unit].cur, a, k, pinned)
  }

  function FirstTaker(s: Fifo, l: seq<int>, k: int, pinned: set<nat>): (r: Option<int>)
    ensures r.Some? ==> r.value in l && Takes(s, r.value, k, pinned)
  {
    if l == [] then None else if Takes(s, l[0], k, pinned) then Some(l[0]) else FirstTaker(s, l[1..], k, pinned)
  }

  /** How many empty slots stand at the front of `q`. */
  function EmptyCount(slots: Slots, q: seq<int>): (n: nat)
    ensures n <= |q|
    ensures forall i | 0 <= i < n :: q[i] in slots && slots[q[i]].kind.Free?
    ensures n < |q| ==> !(q[n] in slots && slots[q[n]].kind.Free?)
  {
    if q != [] && q[0] in slots && slots[q[0]].kind.Free? then 1 + EmptyCount(slots, q[1..]) else 0
  }

  lemma {:induction false} NoTaker(s: Fifo, l: seq<int>, k: int, pinned: set<nat>)
    ensures FirstTaker(s, l, k, pinned).None? <==> forall i | 0 <= i < |l| :: !Takes(s, l[i], k, pinned)
  {
    if l != [] && !Takes(s, l[0], k, pinned) {
      NoTaker(s, l[1..], k, pinned);
      assert forall i | 1 <= i < |l| :: l[i] == l[1..][i - 1];
    }
  }
}
