/** The age of the units of a shared code cache (Simulator/core/fcache.c): the list of units is newest
    first, and what is retired to make room is the oldest. */
module UnitAges {
  import opened Layout
  import opened SlotModel
  import opened SlotSteps
  import opened SharedSpec
  import opened SharedOps
  import opened SharedFlush
  import opened SharedRuns
  import opened UnitSupply
  import CacheAccount

  // ----- one operation

  /** An add that opens a unit puts it in front; if a unit is to be retired the last of the list goes
      to the front of those that wait to be flushed. Any other add leaves both lists alone. */
  lemma AddOrder(p: Params, s: State, f: nat, k: int, g: Region, retire: bool)
    requires Good(p, s) && Request(p, s, f, k) && s.order[0] in s.units && (Creates(s, k) ==> Supplied(p, s, k, g))
    ensures var t, n := Add(p, s, f, k, g, retire), |s.order| - 1;
      && t.order == (if !Creates(s, k) then s.order else if retire then [g.base] + s.order[..n] else [g.base] + s.order)
      && t.flush == if Creates(s, k) && retire then [s.order[n]] + s.flush else s.flush
  {
    var found := Search(s.slots, s.lists, Bucket(k), k);
    if found.Some? {
      if FreeLen(s.slots, found.value) >= k { ReuseOrder(p, s, found.value, k, f); }
    } else if NeedsUnit(s, k) {
      ExhaustKeeps(p, s);
      NextUnitKeeps(p, s, g, retire);
    }
  }

  lemma NewBase(p: Params, s: State, k: int, g: Region)
    requires Good(p, s) && 0 < k && Supplied(p, s, k, g)
    ensures g.base !in s.units
  {
    assert forall u | u in s.units :: UnitOk(p, u, s.units[u]);
  }

  // ----- the moments at which units were opened

  /** A unit that was not there before is stamped with the number `now` of the operation. */
  function Restamped(stamp: map<int, nat>, now: nat, units: Units): map<int, nat>
  {
    map u | u in units :: if u in stamp then stamp[u] else now
  }

  ghost predicate Younger(stamp: map<int, nat>, u: int, v: int)
  {
    u in stamp && v in stamp && stamp[u] > stamp[v]
  }

  ghost predicate Descending(stamp: map<int, nat>, l: seq<int>)
  {
    forall i, j {:trigger Younger(stamp, l[i], l[j])} | 0 <= i < j < |l| :: Younger(stamp, l[i], l[j])
  }

  /** Every unit has a stamp; the units of the cache, and behind them those that wait to be flushed, are
      in the order in which they were opened, the newest first. */
  ghost predicate NewestFirst(s: State, stamp: map<int, nat>, now: nat)
  {
    && stamp.Keys == s.units.Keys && (forall u | u in stamp :: stamp[u] < now)
    && Descending(stamp, s.order + s.flush)
  }

  lemma SameLists(s: State, t: State, stamp: map<int, nat>, now: nat)
    requires NewestFirst(s, stamp, now) && t.units.Keys == s.units.Keys && t.order == s.order && t.flush == s.flush
    ensures NewestFirst(t, Restamped(stamp, now, t.units), now + 1)
  {
    assert Restamped(stamp, now, t.units) == stamp;
  }

  lemma FrontIsNewest(stamp: map<int, nat>, stamp': map<int, nat>, now: nat, l: seq<int>, u: int)
    requires Descending(stamp, l) && (forall v | v in stamp :: stamp[v] < now)
    requires forall i | 0 <= i < |l| :: l[i] in stamp
    requires stamp' == stamp[u := now] && u !in stamp
    ensures Descending(stamp', [u] + l)
  {
    var l' := [u] + l;
    forall i, j | 0 <= i < j < |l'| ensures Younger(stamp', l'[i], l'[j]) {
      var v := l[j - 1];
      assert l'[j] == v && v in stamp;
      if i > 0 {
        var w := l[i - 1];
        assert l'[i] == w && w in stamp && Younger(stamp, l[i - 1], l[j - 1]);
      }
    }
  }

  /** The list after a unit has been opened, retiring or not */
  lemma OneInFront(order: seq<int>, flush: seq<int>, u: int, retire: bool)
    requires order != []
    ensures var n := |order| - 1;
      (if retire then ([u] + order[..n]) + ([order[n]] + flush) else ([u] + order) + flush) == [u] + (order + flush)
  {
    assert order == order[..|order| - 1] + [order[|order| - 1]];
  }

  lemma AllStamped(p: Params, s: State, stamp: map<int, nat>)
    requires Good(p, s) && stamp.Keys == s.units.Keys
    ensures forall i | 0 <= i < |s.order + s.flush| :: (s.order + s.flush)[i] in stamp
  {
    var l := s.order + s.flush;
    forall i | 0 <= i < |l| ensures l[i] in stamp {
      var u := l[i];
      assert u in s.order || u in s.flush;
    }
  }

  lemma OpenedAges(p: Params, s: State, t: State, u: int, retire: bool, stamp: map<int, nat>, now: nat)
    requires Good(p, s) && NewestFirst(s, stamp, now) && u !in s.units && t.units.Keys == s.units.Keys + {u}
    requires var n := |s.order| - 1;
      && t.order == (if retire then [u] + s.order[..n] else [u] + s.order)
      && t.flush == if retire then [s.order[n]] + s.flush else s.flush
    ensures NewestFirst(t, Restamped(stamp, now, t.units), now + 1)
  {
    var stamp' := Restamped(stamp, now, t.units);
    AllStamped(p, s, stamp);
    assert stamp' == stamp[u := now];
    FrontIsNewest(stamp, stamp', now, s.order + s.flush, u);
    OneInFront(s.order, s.flush, u, retire);
  }

  lemma AddAges(p: Params, s: State, f: nat, k: int, g: Region, retire: bool, stamp: map<int, nat>, now: nat)
    requires Good(p, s) && Request(p, s, f, k) && s.order[0] in s.units && (Creates(s, k) ==> Supplied(p, s, k, g))
    requires NewestFirst(s, stamp, now)
    ensures var t := Add(p, s, f, k, g, retire); NewestFirst(t, Restamped(stamp, now, t.units), now + 1)
  {
    var t := Add(p, s, f, k, g, retire);
    if Creates(s, k) { NewBase(p, s, k, g); }
    AddUnits(p, s, f, k, g, retire);
    AddOrder(p, s, f, k, g, retire);
    if Creates(s, k) {
      OpenedAges(p, s, t, g.base, retire, stamp, now);
    } else {
      SameLists(s, t, stamp, now);
    }
  }

  lemma DescendingWithout(stamp: map<int, nat>, stamp': map<int, nat>, l: seq<int>, i: int)
    requires 0 <= i < |l| && NoDup(l) && Descending(stamp, l) && stamp' == stamp - {l[i]}
    ensures Descending(stamp', l[..i] + l[i + 1..])
  {
    var l' := l[..i] + l[i + 1..];
    forall a, b | 0 <= a < b < |l'| ensures Younger(stamp', l'[a], l'[b]) {
      var a', b' := if a < i then a else a + 1, if b < i then b else b + 1;
      assert Younger(stamp, l[a'], l[b']) && l'[a] == l[a'] && l'[b] == l[b'];
    }
  }

  lemma OrderedOnce(p: Params, s: State)
    requires Good(p, s)
    ensures NoDup(s.order + s.flush)
  {
    forall i, j | 0 <= i < |s.order| && 0 <= j < |s.flush| ensures s.order[i] != s.flush[j] {
      assert s.order[i] in s.order && s.flush[j] in s.flush;
    }
  }

  lemma FlushAges(p: Params, s: State, u: int, stamp: map<int, nat>, now: nat)
    requires Good(p, s) && u in s.flush && |s.lists| == BUCKET_COUNT && NewestFirst(s, stamp, now)
    ensures var t := Forget(s, u); NewestFirst(t, Restamped(stamp, now, t.units), now + 1)
  {
    var t, i := Forget(s, u), IndexOf(s.flush, u);
    var n, l := |s.order| + i, s.order + s.flush;
    OrderedOnce(p, s);
    assert l[n] == u;
    assert Restamped(stamp, now, t.units) == stamp - {u};
    DescendingWithout(stamp, stamp - {u}, l, n);
    assert l[..n] + l[n + 1..] == t.order + t.flush;
  }

  /** Every operation keeps the order. */
  lemma AgesKept(p: Params, s: State, op: Op, stamp: map<int, nat>, now: nat)
    requires Good(p, s) && Enabled(p, s, op) && NewestFirst(s, stamp, now)
    ensures var t := Apply(p, s, op); NewestFirst(t, Restamped(stamp, now, t.units), now + 1)
  {
    match op
    case AddOp(f, k, g, retire) =>
      CurrentUnit(p, s);
      AddAges(p, s, f, k, g, retire, stamp, now);
    case RemoveOp(f) =>
      CacheAccount.RemoveUnits(p, s, f);
      RemoveDefined(p, s, f);
      AddFreeOrder(Vacate(s, s.home[f]), s.home[f], s.order[0]);
      SameLists(s, Apply(p, s, op), stamp, now);
    case ReleaseOp(f, k) =>
      CacheAccount.ReleaseUnits(p, s, f, k);
      ReleaseGood(p, s, f, k);
      ReleaseOrder(s, s.home[f], k);
      SameLists(s, Apply(p, s, op), stamp, now);
    case FlushOp(u) => FlushAges(p, s, u, stamp, now);
  }

  // ----- runs

  /** The stamps at the end of a run whose first operation is number `now`. */
  ghost function Stamps(p: Params, s: State, ops: seq<Op>, t: State, stamp: map<int, nat>, now: nat): map<int, nat>
    requires Good(p, s) && Leads(p, s, ops, t)
    decreases |ops|
  {
    if ops == [] then stamp
    else
      var s' := Apply(p, s, ops[0]);
      Stamps(p, s', ops[1..], t, Restamped(stamp, now, s'.units), now + 1)
  }

  lemma {:induction false} AgesInRun(p: Params, s: State, ops: seq<Op>, t: State, stamp: map<int, nat>, now: nat)
    requires Good(p, s) && Leads(p, s, ops, t) && NewestFirst(s, stamp, now)
    ensures Good(p, t) && NewestFirst(t, Stamps(p, s, ops, t, stamp, now), now + |ops|)
    decreases |ops|
  {
    if ops != [] {
      AgesKept(p, s, ops[0], stamp, now);
      var s' := Apply(p, s, ops[0]);
      AgesInRun(p, s', ops[1..], t, Restamped(stamp, now, s'.units), now + 1);
    }
  }

  /** In every state a cache can reach its units are in the order in which they were opened. */
  lemma NewestFirstInEveryRun(p: Params, g: Region, ops: seq<Op>, t: State)
    requires ValidParams(p) && RegionOk(p, map[], g)
    requires (InitialGood(p, g); Leads(p, Initial(g), ops, t))
    ensures (InitialGood(p, g); NewestFirst(t, Stamps(p, Initial(g), ops, t, map[g.base := 0], 1), 1 + |ops|))
  {
    InitialGood(p, g);
    AgesInRun(p, Initial(g), ops, t, map[g.base := 0], 1);
  }

  lemma LastIsOldest(s: State, stamp: map<int, nat>, now: nat, u: int)
    requires NewestFirst(s, stamp, now) && u in s.order
    ensures var n := |s.order| - 1; u == s.order[n] || (u in s.order[..n] && Younger(stamp, u, s.order[n]))
  {
    var n, i, l := |s.order| - 1, IndexOf(s.order, u), s.order + s.flush;
    if i < n {
      assert l[n] == s.order[n] && l[i] == u && Younger(stamp, l[i], l[n]);
      assert s.order[..n][i] == u;
    }
  }

  lemma LastLeaves(p: Params, s: State, b: int)
    requires Good(p, s) && b !in s.units
    ensures var n := |s.order| - 1; s.order[n] in s.order && s.order[n] !in [b] + s.order[..n]
  {
    var z := s.order[|s.order| - 1];
    assert z in s.order && z in s.units;
  }

  /** A retiring add, given the order of the units */
  ghost predicate RetiresOldest(s: State, t: State, stamp: map<int, nat>, u: int)
  {
    && t.flush != [] && t.flush[0] in s.order && t.flush[0] !in t.order && t.flush[1..] == s.flush
    && (u == t.flush[0] || (u in t.order && Younger(stamp, u, t.flush[0])))
  }

  lemma RetireStep(p: Params, s: State, f: nat, k: int, r: Region, u: int, stamp: map<int, nat>, now: nat)
    requires Good(p, s) && Request(p, s, f, k) && s.order[0] in s.units && Creates(s, k) && Supplied(p, s, k, r)
    requires u in s.order && NewestFirst(s, stamp, now)
    ensures RetiresOldest(s, Add(p, s, f, k, r, true), stamp, u)
  {
    LastIsOldest(s, stamp, now, u);
    NewBase(p, s, k, r);
    LastLeaves(p, s, r.base);
    AddOrder(p, s, f, k, r, true);
  }

  /** So a unit that is retired, which then waits to be flushed, is older than every unit that stays. */
  lemma RetiredIsOldest(p: Params, g: Region, ops: seq<Op>, s: State, f: nat, k: int, r: Region, u: int)
    requires ValidParams(p) && RegionOk(p, map[], g)
    requires (InitialGood(p, g); Leads(p, Initial(g), ops, s))
    requires Good(p, s) && Request(p, s, f, k) && s.order[0] in s.units && Creates(s, k) && Supplied(p, s, k, r)
    requires u in s.order
    ensures (InitialGood(p, g);
      RetiresOldest(s, Add(p, s, f, k, r, true), Stamps(p, Initial(g), ops, s, map[g.base := 0], 1), u))
  {
    InitialGood(p, g);
    NewestFirstInEveryRun(p, g, ops, s);
    RetireStep(p, s, f, k, r, u, Stamps(p, Initial(g), ops, s, map[g.base := 0], 1), 1 + |ops|);
  }
}
