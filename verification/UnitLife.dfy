/** The global unit lists of Simulator/core/fcache.c: dead units for reuse, and flushed units that
    wait to be freed. */
module UnitLife {
  import opened Layout
  import opened SlotModel
  import opened UnitPool
  import opened FlushGroups

  /** `local` chains the units that wait to be freed, and `next` the dead units. */
  datatype Node = Node(size: int, reserved: int, cache: Option<nat>, flush: nat, pendingFree: bool, local: Option<int>,
    next: Option<int>)

  type Nodes = map<int, Node>

  function At(l: seq<int>, i: int): Option<int>
  {
    if 0 <= i < |l| then Some(l[i]) else None
  }

  ghost predicate LocalOk(nodes: Nodes, l: seq<int>, i: int)
    requires 0 <= i < |l|
  {
    var u := l[i];
    u in nodes && nodes[u].local == At(l, i + 1)
  }

  ghost predicate LocalChain(nodes: Nodes, head: Option<int>, l: seq<int>)
  {
    head == At(l, 0) && forall i {:trigger LocalOk(nodes, l, i)} | 0 <= i < |l| :: LocalOk(nodes, l, i)
  }

  ghost predicate DeadOk(nodes: Nodes, l: seq<int>, i: int)
    requires 0 <= i < |l|
  {
    var u := l[i];
    u in nodes && nodes[u].next == At(l, i + 1)
  }

  ghost predicate DeadChain(nodes: Nodes, head: Option<int>, l: seq<int>)
  {
    head == At(l, 0) && forall i {:trigger DeadOk(nodes, l, i)} | 0 <= i < |l| :: DeadOk(nodes, l, i)
  }

  predicate Smaller(nodes: Nodes, u: int, size: int)
  {
    u in nodes && nodes[u].size < size
  }

  ghost predicate Matches(nodes: Nodes, recs: Recs)
  {
    nodes.Keys == recs.Keys && forall u | u in recs ::
      recs[u] == Rec(nodes[u].size, nodes[u].cache, nodes[u].flush, nodes[u].reserved)
  }

  lemma {:induction false} PlaceIs(recs: Recs, dead: seq<int>, size: int, i: int)
    requires 0 <= i <= |dead| && forall j | 0 <= j < |dead| :: dead[j] in recs
    requires forall j | 0 <= j < i :: recs[dead[j]].size < size
    requires i < |dead| ==> recs[dead[i]].size >= size
    ensures Place(recs, dead, size) == i
  {
    if i > 0 { PlaceIs(recs, dead[1..], size, i - 1); }
  }

  lemma InsertedChain(nodes: Nodes, nodes': Nodes, head: Option<int>, l: seq<int>, i: int, u: int)
    requires DeadChain(nodes, head, l) && 0 <= i <= |l| && u !in l && u in nodes' && NoDup(l)
    requires nodes'[u].next == At(l, i)
    requires forall v | v in nodes && v != u ::
      v in nodes' && nodes'[v].next == if i > 0 && v == l[i - 1] then Some(u) else nodes[v].next
    ensures DeadChain(nodes', if i == 0 then Some(u) else head, Inserted(l, i, u))
  {
    var l' := Inserted(l, i, u);
    forall k | 0 <= k < |l'| ensures DeadOk(nodes', l', k) {
      if k < i { assert DeadOk(nodes, l, k) && l'[k] == l[k] && l[k] in l; }
      if k > i { assert DeadOk(nodes, l, k - 1) && l'[k] == l[k - 1] && l[k - 1] in l; }
    }
  }

  class Units {
    var nodes: Nodes
    var dead: Option<int>
    var numDead: int
    var toFree: Option<int>
    var tail: Option<int>
    var used: map<nat, int>
    ghost var abs: Pool

    ghost predicate Agrees()
      reads this
    {
      && Matches(nodes, abs.recs) && used == abs.used && numDead == |abs.dead|
      && DeadChain(nodes, dead, abs.dead) && LocalChain(nodes, toFree, abs.toFree)
      && tail == At(abs.toFree, |abs.toFree| - 1)
    }

    ghost predicate Valid()
      reads this
    {
      PoolInv(abs) && Agrees()
    }

    constructor ()
      ensures Valid() && abs == Pool(map[], [], [], [], map[])
    {
      nodes, used, dead, toFree, tail, numDead := map[], map[], None, None, None, 0;
      abs := Pool(map[], [], [], [], map[]);
    }

    /** `fcache_cache_init` */
    method NewCache(c: nat)
      requires Valid() && c !in used
      modifies this`used, this`abs
      ensures Valid() && abs == old(abs).(used := old(abs).used[c := 0])
    {
      CacheAdded(abs, c);
      used := used[c := 0];
      abs := abs.(used := abs.used[c := 0]);
    }

    /** `cache_extend_commitment` */
    method ExtendCommitment(u: int, inc: int)
      requires Valid() && u in nodes && u !in abs.dead && nodes[u].cache.Some?
      modifies this`nodes, this`used, this`abs
      ensures Valid() && u in old(abs).recs && abs == Grown(old(abs), u, inc)
    {
      var c := nodes[u].cache.value;
      GrownKeeps(abs, u, inc);
      used := used[c := used[c] + inc];
      nodes := nodes[u := nodes[u].(size := nodes[u].size + inc)];
      Relinked(old(nodes), nodes, dead, toFree, abs);
      abs := Grown(abs, u, inc);
    }

    /** `remove_unit_from_cache`. The code has no test for a unit without a cache at one of its two
        uses; here such a unit is left alone and reported. */
    method RemoveFromCache(u: int) returns (missing: bool)
      requires u in nodes && (nodes[u].cache.Some? ==> nodes[u].cache.value in used)
      modifies this`nodes, this`used
      ensures nodes == old(nodes)[u := old(nodes)[u].(cache := None)]
      ensures used == Charged(old(used), old(nodes)[u].cache, -old(nodes)[u].size)
      ensures missing <==> old(nodes)[u].cache.None?
    {
      var c := nodes[u].cache;
      missing := c.None?;
      if c.Some? {
        used := used[c.value := used[c.value] - nodes[u].size];
      }
      nodes := nodes[u := nodes[u].(cache := None)];
    }

    /** The place of a unit in the dead list, kept from small to large. */
    method FindPlace(unit: int) returns (prev: Option<int>, u: Option<int>)
      requires Matches(nodes, abs.recs) && DeadChain(nodes, dead, abs.dead) && unit in nodes
      ensures unit in abs.recs
      ensures var i := Place(abs.recs, abs.dead, abs.recs[unit].size);
        u == At(abs.dead, i) && prev == At(abs.dead, i - 1)
    {
      ghost var l := abs.dead;
      ghost var i := 0;
      u, prev := dead, None;
      if u.Some? { assert DeadOk(nodes, l, 0); }
      while u.Some? && nodes[u.value].size < nodes[unit].size
        invariant 0 <= i <= |l| && u == At(l, i) && prev == At(l, i - 1)
        invariant u.Some? ==> u.value in nodes
        invariant forall j | 0 <= j < i :: Smaller(nodes, l[j], nodes[unit].size)
        decreases |l| - i
      {
        assert DeadOk(nodes, l, i);
        prev := u;
        u := nodes[u.value].next;
        i := i + 1;
        if i < |l| { assert DeadOk(nodes, l, i); }
      }
      forall j | 0 <= j < |l| ensures l[j] in abs.recs && (j < i ==> abs.recs[l[j]].size < nodes[unit].size) {
        assert DeadOk(nodes, l, j);
        var v := l[j];
        assert v in abs.recs && (j < i ==> Smaller(nodes, v, nodes[unit].size));
      }
      if i < |l| { var v := l[i]; assert v in abs.recs; }
      PlaceIs(abs.recs, l, nodes[unit].size, i);
    }

    /** The sorted insertion of `fcache_free_unit` */
    method InsertDead(unit: int)
      requires Matches(nodes, abs.recs) && DeadChain(nodes, dead, abs.dead) && LocalChain(nodes, toFree, abs.toFree)
      requires numDead == |abs.dead|
      requires unit in nodes && unit !in abs.dead && unit !in abs.toFree && NoDup(abs.dead)
      modifies this`nodes, this`dead, this`numDead
      ensures Matches(nodes, abs.recs) && LocalChain(nodes, toFree, abs.toFree) && unit in abs.recs
      ensures var l := Inserted(abs.dead, Place(abs.recs, abs.dead, abs.recs[unit].size), unit);
        numDead == |l| && DeadChain(nodes, dead, l)
    {
      var prev, u := FindPlace(unit);
      ghost var i := Place(abs.recs, abs.dead, abs.recs[unit].size);
      if prev.Some? { assert DeadOk(nodes, abs.dead, i - 1); }
      nodes := nodes[unit := nodes[unit].(local := None)];
      if prev.None? {
        nodes := nodes[unit := nodes[unit].(next := dead)];
        dead := Some(unit);
      } else {
        nodes := nodes[unit := nodes[unit].(next := u)];
        nodes := nodes[prev.value := nodes[prev.value].(next := Some(unit))];
      }
      numDead := numDead + 1;
      InsertedChain(old(nodes), nodes, old(dead), abs.dead, i, unit);
      LocalKept(old(nodes), nodes, toFree, abs.toFree, unit);
    }

    /** `fcache_free_unit`, keeping the unit for reuse */
    method Bury(u: int) returns (fault: bool)
      requires Valid() && u in nodes && u !in abs.dead && u !in abs.toFree
      modifies this`nodes, this`dead, this`numDead, this`used, this`abs
      ensures Valid() && u in old(abs).recs && abs == Buried(old(abs), u) && (fault <==> old(abs).recs[u].cache.None?)
    {
      ghost var s := abs;
      InsertDead(u);
      ghost var mid := nodes;
      fault := RemoveFromCache(u);
      BuryStep(mid, nodes, dead, toFree, s, u);
      abs := Buried(s, u);
      BuriedKeeps(s, u);
    }

    /** `fcache_really_free_unit` for a unit that is not dead */
    method ReallyFree(u: int)
      requires Valid() && u in nodes && u !in abs.dead && u !in abs.toFree
      modifies this`nodes, this`used, this`abs
      ensures Valid() && u in old(abs).recs && abs == Destroyed(old(abs), u)
    {
      ghost var s := abs;
      if nodes[u].cache.Some? {
        var missing := RemoveFromCache(u);
      }
      nodes := nodes - {u};
      DestroyStep(old(nodes), nodes, dead, toFree, s, u);
      abs := Destroyed(s, u);
      DestroyedKeeps(s, u);
    }

    /** `fcache_free_unit` */
    method FreeUnit(u: int, threads: nat) returns (fault: bool)
      requires Valid() && u in nodes && u !in abs.dead && u !in abs.toFree
      modifies this`nodes, this`dead, this`numDead, this`used, this`abs
      ensures Valid() && u in old(abs).recs && abs == Freed(old(abs), u, threads)
      ensures (fault <==> Faults(old(abs), u, threads))
    {
      fault := false;
      if numDead < 5 || numDead * 4 <= threads {
        fault := Bury(u);
      } else {
        ReallyFree(u);
      }
    }

    /** `fcache_free_pending_units`: frees the units flushed at or before `bound`. */
    method FreePending(bound: nat, threads: nat) returns (fault: bool)
      requires Valid()
      modifies this`nodes, this`dead, this`numDead, this`used, this`toFree, this`tail, this`abs
      ensures Valid() && abs == FreedDue(old(abs), bound, threads) && (fault <==> FaultsDue(old(abs), bound, threads))
    {
      fault := false;
      ghost var s := abs;
      while toFree.Some? && nodes[toFree.value].flush <= bound
        invariant Valid() && (toFree.Some? ==> toFree.value in nodes)
        invariant FreedDue(s, bound, threads) == FreedDue(abs, bound, threads)
        invariant FaultsDue(s, bound, threads) <==> fault || FaultsDue(abs, bound, threads)
        decreases |abs.toFree|
      {
        var u := toFree.value;
        PopFirst(u);
        var f := FreeUnit(u, threads);
        fault := fault || f;
      }
    }

    method PopFirst(u: int)
      requires Valid() && toFree == Some(u)
      modifies this`nodes, this`toFree, this`tail, this`abs
      ensures Valid() && old(abs).toFree != [] && abs == Popped(old(abs)) && u == old(abs).toFree[0] && u in nodes
      ensures u !in abs.dead && u !in abs.toFree
    {
      PoppedKeeps(abs);
      assert LocalOk(nodes, abs.toFree, 0);
      if Some(u) == tail {
        tail := None;
      }
      toFree := nodes[u].local;
      nodes := nodes[u := nodes[u].(pendingFree := false)];
      PoppedChain(old(nodes), nodes, dead, abs);
      abs := Popped(abs);
    }

    /** The first part of `append_units_to_free_list`: the chain is hung on the end of the list. */
    method HangOn(first: int, ghost chain: seq<int>)
      requires Agrees() && NoDup(abs.toFree) && chain != [] && LocalChain(nodes, Some(first), chain)
      requires forall i | 0 <= i < |chain| :: chain[i] !in abs.toFree
      modifies this`nodes, this`toFree
      ensures Matches(nodes, abs.recs) && DeadChain(nodes, dead, abs.dead)
      ensures LocalChain(nodes, toFree, abs.toFree + chain)
    {
      if tail.None? {
        toFree := Some(first);
      } else {
        TailIsLast(nodes, toFree, abs);
        nodes := nodes[tail.value := nodes[tail.value].(local := Some(first))];
      }
      Joined(old(nodes), nodes, old(toFree), toFree, dead, abs, chain);
    }

    /** The rest: every unit of the chain but the last is taken out of its cache. */
    method UncacheChain(first: int, ghost chain: seq<int>) returns (u: int)
      requires PoolInv(abs) && Matches(nodes, abs.recs) && used == abs.used && DeadChain(nodes, dead, abs.dead)
      requires chain != [] && chain[0] == first && LocalChain(nodes, toFree, abs.toFree + chain)
      requires forall i | 0 <= i < |chain| :: chain[i] in abs.recs
      modifies this`nodes, this`used
      ensures u == chain[|chain| - 1] && Matches(nodes, AllUncached(abs, chain).recs)
      ensures used == AllUncached(abs, chain).used
      ensures DeadChain(nodes, dead, abs.dead) && LocalChain(nodes, toFree, abs.toFree + chain)
    {
      u := first;
      ghost var i, t := 0, abs;
      assert chain[0..] == chain;
      assert LocalOk(nodes, abs.toFree + chain, |abs.toFree|);
      while nodes[u].local.Some?
        invariant 0 <= i < |chain| && u == chain[i] && u in nodes && nodes[u].local == At(chain, i + 1)
        invariant PoolInv(t) && Matches(nodes, t.recs) && used == t.used && t.dead == abs.dead
        invariant t.recs.Keys == abs.recs.Keys
        invariant DeadChain(nodes, dead, abs.dead) && LocalChain(nodes, toFree, abs.toFree + chain)
        invariant AllUncached(abs, chain) == AllUncached(t, chain[i..])
        decreases |chain| - i
      {
        UncacheOne(u, t, chain, i);
        t := Uncached(t, u);
        u := nodes[u].local.value;
        i := i + 1;
      }
    }

    method UncacheOne(u: int, ghost t: Pool, ghost chain: seq<int>, ghost i: int)
      requires 0 <= i < |chain| - 1 && u == chain[i] && u in nodes && forall k | 0 <= k < |chain| :: chain[k] in t.recs
      requires PoolInv(t) && Matches(nodes, t.recs) && used == t.used && t.dead == abs.dead
      requires DeadChain(nodes, dead, abs.dead) && LocalChain(nodes, toFree, abs.toFree + chain)
      modifies this`nodes, this`used
      ensures var t' := Uncached(t, u);
        && PoolInv(t') && Matches(nodes, t'.recs) && used == t'.used && t'.dead == abs.dead
        && t'.recs.Keys == t.recs.Keys
        && AllUncached(t, chain[i..]) == AllUncached(t', chain[i + 1..])
      ensures DeadChain(nodes, dead, abs.dead) && LocalChain(nodes, toFree, abs.toFree + chain)
      ensures chain[i + 1] in nodes && nodes[chain[i + 1]].local == At(chain, i + 2) && u in nodes
      ensures nodes[u].local == old(nodes)[u].local
    {
      if nodes[u].cache.Some? {
        var missing := RemoveFromCache(u);
      }
      UncacheStep(old(nodes), nodes, dead, toFree, abs, t, chain, i);
    }

    /** `append_units_to_free_list`, for the chain `chain` that starts at `first` */
    method AppendToFree(first: int, ghost chain: seq<int>)
      requires Valid() && chain != [] && LocalChain(nodes, Some(first), chain) && NoDup(chain)
      requires ByTime(abs.recs, chain)
      requires forall i | 0 <= i < |chain| :: chain[i] !in abs.toFree && chain[i] !in abs.dead
      requires abs.toFree != [] ==> abs.recs[abs.toFree[|abs.toFree| - 1]].flush <= abs.recs[chain[0]].flush
      modifies this`nodes, this`used, this`toFree, this`tail, this`abs
      ensures Valid() && (forall i | 0 <= i < |chain| :: chain[i] in old(abs).recs) && abs == Queued(old(abs), chain)
    {
      HangOn(first, chain);
      var last := UncacheChain(first, chain);
      tail := Some(last);
      ghost var s := abs;
      QueuedParts(s, chain);
      QueuedKeeps(s, chain);
      abs := Queued(s, chain);
    }

    /** A retired unit is put in front of the units `head` that wait to be flushed. */
    method PutToFlush(u: int, head: Option<int>, ghost chain: seq<int>)
      requires Valid() && u in nodes && u !in abs.toFree && u !in chain && LocalChain(nodes, head, chain)
      modifies this`nodes
      ensures Valid() && LocalChain(nodes, Some(u), [u] + chain) && nodes.Keys == old(nodes).Keys
    {
      nodes := nodes[u := nodes[u].(local := head)];
      LocalKept(old(nodes), nodes, toFree, abs.toFree, u);
      DeadKept(old(nodes), nodes, dead, abs.dead);
      Prefixed(old(nodes), nodes, head, chain, u);
    }

    /** The loop of `fcache_flush_pending_units` that stamps the units. */
    method StampAll(first: int, time: nat, ghost chain: seq<int>)
      requires Valid() && chain != [] && LocalChain(nodes, Some(first), chain)
      requires forall i | 0 <= i < |chain| :: chain[i] in abs.recs && chain[i] !in abs.toFree
      modifies this`nodes, this`abs
      ensures Valid() && abs == AllStamped(old(abs), chain, time) && LocalChain(nodes, Some(first), chain)
    {
      var u := Some(first);
      ghost var i, s := 0, abs;
      assert chain[0..] == chain;
      while u.Some?
        invariant 0 <= i <= |chain| && u == At(chain, i)
        invariant Valid() && LocalChain(nodes, Some(first), chain)
        invariant abs.toFree == s.toFree && abs.recs.Keys == s.recs.Keys
        invariant AllStamped(s, chain, time) == AllStamped(abs, chain[i..], time)
        decreases |chain| - i
      {
        u := StampNext(u.value, first, time, chain, i);
        i := i + 1;
      }
    }

    method StampNext(u: int, ghost first: int, time: nat, ghost chain: seq<int>, ghost i: int) returns (v: Option<int>)
      requires Valid() && LocalChain(nodes, Some(first), chain) && 0 <= i < |chain| && u == chain[i]
      requires forall k | 0 <= k < |chain| :: chain[k] in abs.recs && chain[k] !in abs.toFree
      modifies this`nodes, this`abs
      ensures Valid() && LocalChain(nodes, Some(first), chain) && v == At(chain, i + 1)
      ensures abs.toFree == old(abs).toFree && abs.recs.Keys == old(abs).recs.Keys
      ensures AllStamped(old(abs), chain[i..], time) == AllStamped(abs, chain[i + 1..], time)
    {
      assert LocalOk(nodes, chain, i);
      StampedKeeps(abs, u, time);
      nodes := nodes[u := nodes[u].(flush := time, pendingFree := true)];
      v := nodes[u].local;
      Relinked(old(nodes), nodes, dead, toFree, abs);
      Relinked(old(nodes), nodes, dead, Some(first), abs.(toFree := chain));
      assert chain[i..][1..] == chain[i + 1..];
      abs := Stamped(abs, u, time);
    }

    /** The end of `fcache_flush_pending_units`: the units of `chain` are stamped and wait to be freed. */
    method FlushPending(first: int, time: nat, ghost chain: seq<int>)
      requires Valid() && chain != [] && LocalChain(nodes, Some(first), chain) && NoDup(chain)
      requires forall i | 0 <= i < |chain| ::
        chain[i] in abs.recs && chain[i] !in abs.toFree && chain[i] !in abs.dead
      requires abs.toFree != [] ==> abs.recs[abs.toFree[|abs.toFree| - 1]].flush <= time
      modifies this`nodes, this`used, this`toFree, this`tail, this`abs
      ensures Valid() && abs == Flushed(old(abs), chain, time)
    {
      FlushedKeeps(abs, chain, time);
      StampAll(first, time, chain);
      AppendToFree(first, chain);
    }

    /** The first steps of `fcache_fragment_pclookup`: the unit around `pc`, which is found until its
        memory is given back, and a look at its cache. */
    method LookupCache(pc: int) returns (u: Option<int>, fault: bool)
      requires Valid()
      ensures u.Some? ==> u.value in nodes && u.value <= pc < u.value + nodes[u.value].reserved
      ensures u.None? ==> forall v | v in nodes :: !(v <= pc < v + nodes[v].reserved)
      ensures fault <==> u.Some? && LookupFaults(abs, u.value)
    {
      u, fault := None, false;
      if exists v :: v in nodes && v <= pc < v + nodes[v].reserved {
        var v :| v in nodes && v <= pc < v + nodes[v].reserved;
        u, fault := Some(v), nodes[v].cache.None?;
      }
    }

    /** The search of `fcache_create_unit` through the dead list */
    method FindDead(c: nat, need: int, max: int) returns (prev: Option<int>, u: Option<int>, ghost n: Option<int>)
      requires Valid() && c in used
      ensures n == FirstServing(abs, abs.dead, c, need, max)
      ensures n.Some? ==> u == At(abs.dead, n.value) && prev == At(abs.dead, n.value - 1)
      ensures n.None? ==> u.None?
    {
      ghost var l := abs.dead;
      ghost var i := 0;
      prev, u := None, dead;
      if l != [] { assert DeadOk(nodes, l, 0); }
      while u.Some? && !(nodes[u.value].size >= need && (max == 0 || used[c] + nodes[u.value].size <= max))
        invariant 0 <= i <= |l| && u == At(l, i) && prev == At(l, i - 1)
        invariant u.Some? ==> u.value in nodes
        invariant forall j | 0 <= j < i :: !Serves(abs, l[j], c, need, max)
        decreases |l| - i
      {
        assert DeadOk(nodes, l, i);
        prev := u;
        u := nodes[u.value].next;
        i := i + 1;
        if i < |l| { assert DeadOk(nodes, l, i); }
      }
      n := if u.Some? then Some(i) else None;
      FirstIs(abs, l, c, need, max, n);
    }

    /** `fcache_create_unit`: a dead unit that is large enough, or `need` bytes of new memory at `unused`, of
        which `commit` are committed */
    method CreateUnit(c: nat, need: int, max: int, unused: int, commit: int) returns (u: int)
      requires Valid() && c in used && unused !in nodes
      modifies this`nodes, this`dead, this`numDead, this`used, this`abs
      ensures Valid() && match FirstServing(old(abs), old(abs).dead, c, need, max)
        case Some(i) => u == old(abs).dead[i] && u in old(abs).recs && abs == Revived(old(abs), i, c)
        case None => u == unused && abs == Born(old(abs), unused, commit, need, c)
    {
      ghost var n;
      var prev, found;
      prev, found, n := FindDead(c, need, max);
      if found.Some? {
        u := found.value;
        Revive(c, prev, u, n.value);
      } else {
        u := unused;
        BornKeeps(abs, u, commit, need, c);
        nodes := nodes[u := Node(commit, need, Some(c), 0, false, None, None)];
        used := used[c := used[c] + commit];
        Relinked(old(nodes), nodes, dead, toFree, abs);
        abs := Born(abs, u, commit, need, c);
      }
    }

    method TakeFromDead(prev: Option<int>, u: int, ghost n: int)
      requires DeadChain(nodes, dead, abs.dead) && NoDup(abs.dead) && 0 <= n < |abs.dead| && u == abs.dead[n]
      requires prev == At(abs.dead, n - 1)
      modifies this`nodes, this`dead, this`numDead
      ensures abs.dead[n] in old(nodes) && (n > 0 ==> abs.dead[n - 1] in old(nodes))
      ensures nodes == Skipped(old(nodes), abs.dead, n)
      ensures dead == (if n == 0 then At(abs.dead, 1) else old(dead)) && numDead == old(numDead) - 1 && u in nodes
      ensures nodes[u] == old(nodes)[u]
    {
      assert DeadOk(nodes, abs.dead, n);
      if prev.None? {
        dead := nodes[u].next;
      } else {
        assert DeadOk(nodes, abs.dead, n - 1);
        nodes := nodes[prev.value := nodes[prev.value].(next := nodes[u].next)];
      }
      numDead := numDead - 1;
    }

    method Revive(c: nat, prev: Option<int>, u: int, ghost n: int)
      requires Valid() && c in used && 0 <= n < |abs.dead| && u == abs.dead[n] && prev == At(abs.dead, n - 1)
      modifies this`nodes, this`dead, this`numDead, this`used, this`abs
      ensures Valid() && u in old(abs).recs && abs == Revived(old(abs), n, c)
    {
      ghost var s := abs;
      TakeFromDead(prev, u, n);
      used := used[c := used[c] + nodes[u].size];
      nodes := nodes[u := Node(nodes[u].size, nodes[u].reserved, Some(c), 0, false, None, nodes[u].next)];
      ReviveStep(old(nodes), nodes, old(dead), dead, toFree, s, n, c);
      abs := Revived(s, n, c);
      RevivedKeeps(s, n, c);
    }
  }

  lemma Relinked(nodes: Nodes, nodes': Nodes, dead: Option<int>, toFree: Option<int>, s: Pool)
    requires DeadChain(nodes, dead, s.dead) && LocalChain(nodes, toFree, s.toFree)
    requires forall u | u in nodes ::
      u in nodes' && nodes'[u].local == nodes[u].local && nodes'[u].next == nodes[u].next
    ensures DeadChain(nodes', dead, s.dead) && LocalChain(nodes', toFree, s.toFree)
  {
    forall i | 0 <= i < |s.dead| ensures DeadOk(nodes', s.dead, i) {
      assert DeadOk(nodes, s.dead, i);
    }
    forall i | 0 <= i < |s.toFree| ensures LocalOk(nodes', s.toFree, i) {
      assert LocalOk(nodes, s.toFree, i);
    }
  }

  lemma LocalKept(nodes: Nodes, nodes': Nodes, head: Option<int>, l: seq<int>, u: int)
    requires LocalChain(nodes, head, l) && u !in l
    requires forall v | v in nodes && v != u :: v in nodes' && nodes'[v].local == nodes[v].local
    ensures LocalChain(nodes', head, l)
  {
    forall i | 0 <= i < |l| ensures LocalOk(nodes', l, i) {
      assert LocalOk(nodes, l, i) && l[i] in l;
    }
  }

  lemma DeadKept(nodes: Nodes, nodes': Nodes, head: Option<int>, l: seq<int>)
    requires DeadChain(nodes, head, l)
    requires forall v | v in nodes :: v in nodes' && nodes'[v].next == nodes[v].next
    ensures DeadChain(nodes', head, l)
  {
    forall i | 0 <= i < |l| ensures DeadOk(nodes', l, i) {
      assert DeadOk(nodes, l, i);
    }
  }

  lemma Prefixed(nodes: Nodes, nodes': Nodes, head: Option<int>, chain: seq<int>, u: int)
    requires LocalChain(nodes, head, chain) && u !in chain && u in nodes
    requires nodes' == nodes[u := nodes[u].(local := head)]
    ensures LocalChain(nodes', Some(u), [u] + chain)
  {
    LocalKept(nodes, nodes', head, chain, u);
    var l := [u] + chain;
    forall i | 0 <= i < |l| ensures LocalOk(nodes', l, i) {
      if i > 0 { assert LocalOk(nodes', chain, i - 1); }
    }
  }

  lemma Unlinked(nodes: Nodes, nodes': Nodes, dead: Option<int>, toFree: Option<int>, s: Pool, u: int)
    requires DeadChain(nodes, dead, s.dead) && LocalChain(nodes, toFree, s.toFree) && u !in s.dead && u !in s.toFree
    requires forall v | v in nodes && v != u :: v in nodes' && nodes'[v] == nodes[v]
    ensures DeadChain(nodes', dead, s.dead) && LocalChain(nodes', toFree, s.toFree)
  {
    forall i | 0 <= i < |s.dead| ensures DeadOk(nodes', s.dead, i) {
      assert DeadOk(nodes, s.dead, i) && s.dead[i] in s.dead;
    }
    forall i | 0 <= i < |s.toFree| ensures LocalOk(nodes', s.toFree, i) {
      assert LocalOk(nodes, s.toFree, i) && s.toFree[i] in s.toFree;
    }
  }

  lemma PoppedChain(nodes: Nodes, nodes': Nodes, dead: Option<int>, s: Pool)
    requires s.toFree != [] && DeadChain(nodes, dead, s.dead) && LocalChain(nodes, Some(s.toFree[0]), s.toFree)
    requires forall v | v in nodes ::
      v in nodes' && nodes'[v].local == nodes[v].local && nodes'[v].next == nodes[v].next
    ensures DeadChain(nodes', dead, s.dead) && LocalChain(nodes', At(s.toFree, 1), s.toFree[1..])
  {
    var l := s.toFree[1..];
    Relinked(nodes, nodes', dead, Some(s.toFree[0]), s);
    forall i | 0 <= i < |l| ensures LocalOk(nodes', l, i) {
      assert LocalOk(nodes', s.toFree, i + 1);
    }
  }

  lemma BuryStep(nodes: Nodes, nodes': Nodes, dead: Option<int>, toFree: Option<int>, s: Pool, u: int)
    requires Matches(nodes, s.recs) && u in s.recs && DeadChain(nodes, dead, Buried(s, u).dead)
    requires LocalChain(nodes, toFree, s.toFree)
    requires u in nodes && nodes' == nodes[u := nodes[u].(cache := None)]
    ensures Matches(nodes', Buried(s, u).recs) && DeadChain(nodes', dead, Buried(s, u).dead)
    ensures LocalChain(nodes', toFree, s.toFree)
  {
    Relinked(nodes, nodes', dead, toFree, Buried(s, u));
  }

  lemma DestroyStep(nodes: Nodes, nodes': Nodes, dead: Option<int>, toFree: Option<int>, s: Pool, u: int)
    requires Matches(nodes, s.recs) && u in s.recs && DeadChain(nodes, dead, s.dead)
    requires LocalChain(nodes, toFree, s.toFree)
    requires u !in s.dead && u !in s.toFree && nodes' == nodes - {u}
    ensures Matches(nodes', Destroyed(s, u).recs) && DeadChain(nodes', dead, s.dead)
    ensures LocalChain(nodes', toFree, s.toFree)
  {
    Unlinked(nodes, nodes', dead, toFree, s, u);
  }

  lemma QueuedParts(s: Pool, chain: seq<int>)
    requires PoolInv(s) && NoDup(chain) && chain != [] && forall i | 0 <= i < |chain| :: chain[i] in s.recs
    ensures var t, q := AllUncached(s, chain), Queued(s, chain);
      && q.recs == t.recs && q.used == t.used && q.dead == s.dead && q.toFree == s.toFree + chain
      && q.toFree[|q.toFree| - 1] == chain[|chain| - 1]
  {
    AllUncachedKeeps(s, chain);
  }

  lemma TailIsLast(nodes: Nodes, toFree: Option<int>, s: Pool)
    requires LocalChain(nodes, toFree, s.toFree) && s.toFree != []
    ensures s.toFree[|s.toFree| - 1] in nodes
  {
    assert LocalOk(nodes, s.toFree, |s.toFree| - 1);
  }

  /** The chain hangs on the end of the list. */
  lemma Joined(nodes: Nodes, nodes': Nodes, head: Option<int>, head': Option<int>, dead: Option<int>, s: Pool,
    chain: seq<int>)
    requires chain != [] && LocalChain(nodes, head, s.toFree) && LocalChain(nodes, Some(chain[0]), chain)
    requires DeadChain(nodes, dead, s.dead)
    requires NoDup(s.toFree) && forall i | 0 <= i < |chain| :: chain[i] !in s.toFree
    requires head' == if s.toFree == [] then Some(chain[0]) else head
    requires if s.toFree == [] then nodes' == nodes
             else var z := s.toFree[|s.toFree| - 1];
               z in nodes && nodes' == nodes[z := nodes[z].(local := Some(chain[0]))]
    ensures LocalChain(nodes', head', s.toFree + chain) && DeadChain(nodes', dead, s.dead)
  {
    var l, n := s.toFree + chain, |s.toFree|;
    forall i | 0 <= i < |l| ensures LocalOk(nodes', l, i) {
      if i < n { assert LocalOk(nodes, s.toFree, i); }
        else { assert LocalOk(nodes, chain, i - n) && chain[i - n] !in s.toFree; }
    }
    forall i | 0 <= i < |s.dead| ensures DeadOk(nodes', s.dead, i) {
      assert DeadOk(nodes, s.dead, i);
    }
  }

  lemma UncacheStep(nodes: Nodes, nodes': Nodes, dead: Option<int>, toFree: Option<int>, s: Pool, t: Pool,
    chain: seq<int>, i: int)
    requires PoolInv(t) && Matches(nodes, t.recs) && t.dead == s.dead && 0 <= i < |chain| - 1
    requires forall k | 0 <= k < |chain| :: chain[k] in t.recs
    requires DeadChain(nodes, dead, s.dead) && LocalChain(nodes, toFree, s.toFree + chain)
    requires var u := chain[i]; u in nodes && nodes' == nodes[u := nodes[u].(cache := None)]
    ensures var t' := Uncached(t, chain[i]);
      PoolInv(t') && Matches(nodes', t'.recs) && t'.dead == s.dead && t'.recs.Keys == t.recs.Keys
    ensures DeadChain(nodes', dead, s.dead) && LocalChain(nodes', toFree, s.toFree + chain)
    ensures chain[i + 1] in nodes' && nodes'[chain[i + 1]].local == At(chain, i + 2)
    ensures AllUncached(t, chain[i..]) == AllUncached(Uncached(t, chain[i]), chain[i + 1..])
  {
    UncachedKeeps(t, chain[i]);
    Relinked(nodes, nodes', dead, toFree, s.(toFree := s.toFree + chain));
    var n := |s.toFree|;
    assert (s.toFree + chain)[n + i + 1] == chain[i + 1];
    assert LocalOk(nodes', s.toFree + chain, n + i + 1);
    assert chain[i..][1..] == chain[i + 1..];
  }

  lemma {:induction false} FirstIs(s: Pool, l: seq<int>, c: nat, need: int, max: int, n: Option<int>)
    requires n.Some? ==>
      0 <= n.value < |l| && Serves(s, l[n.value], c, need, max) && forall j | 0 <= j < n.value ::
        !Serves(s, l[j], c, need, max)
    requires n.None? ==> forall j | 0 <= j < |l| :: !Serves(s, l[j], c, need, max)
    ensures n == FirstServing(s, l, c, need, max)
  {
  }

  function Skipped(nodes: Nodes, l: seq<int>, n: int): Nodes
    requires 0 <= n < |l| && l[n] in nodes && (n > 0 ==> l[n - 1] in nodes)
  {
    if n > 0 then nodes[l[n - 1] := nodes[l[n - 1]].(next := nodes[l[n]].next)] else nodes
  }

  lemma ReviveStep(nodes: Nodes, nodes': Nodes, head: Option<int>, head': Option<int>, toFree: Option<int>, s: Pool,
    n: int, c: nat)
    requires PoolInv(s) && Matches(nodes, s.recs) && DeadChain(nodes, head, s.dead)
    requires LocalChain(nodes, toFree, s.toFree) && 0 <= n < |s.dead|
    requires head' == if n == 0 then At(s.dead, 1) else head
    requires s.dead[n] in nodes && (n > 0 ==> s.dead[n - 1] in nodes)
    requires nodes' == Skipped(nodes, s.dead,
      n)[s.dead[n] := Node(nodes[s.dead[n]].size, nodes[s.dead[n]].reserved, Some(c), 0, false, None,
      nodes[s.dead[n]].next)]
    ensures Matches(nodes', Revived(s, n, c).recs) && DeadChain(nodes', head', Revived(s, n, c).dead)
    ensures LocalChain(nodes', toFree, s.toFree)
  {
    var l' := s.dead[..n] + s.dead[n + 1..];
    assert DeadOk(nodes, s.dead, n);
    forall i | 0 <= i < |l'| ensures DeadOk(nodes', l', i) {
      var k := if i < n then i else i + 1;
      assert DeadOk(nodes, s.dead, k) && l'[i] == s.dead[k];
    }
    forall i | 0 <= i < |s.toFree| ensures LocalOk(nodes', s.toFree, i) {
      assert LocalOk(nodes, s.toFree, i) && s.toFree[i] in s.toFree && s.dead[n] in s.dead;
    }
  }

  /** A cache is set up and gets two units. */
  method MakePair() returns (pool: Units)
    ensures fresh(pool) && pool.Valid() && pool.abs == PAIR
  {
    pool := new Units();
    pool.NewCache(0);
    assert pool.abs == ONE_CACHE;
    var u := pool.CreateUnit(0, PAGE, 0, 1, PAGE);
    assert pool.abs == Born(ONE_CACHE, 1, PAGE, PAGE, 0);
    u := pool.CreateUnit(0, PAGE, 0, 2, PAGE);
  }

  /** The pair, flushed together, is a state in which the next free call faults. */
  lemma PairFaults()
    ensures PoolInv(PAIR) && 1 in PAIR.recs && 2 in PAIR.recs && FaultsDue(Flushed(PAIR, [1, 2], 7), 7, 1)
  {
    PairKeeps();
    var chain := [1, 2];
    FlushedKeeps(PAIR, chain, 7);
    StampedTimes(PAIR, chain, 7);
    AllStampedKeeps(PAIR, chain, 7);
    ChainFaults(AllStamped(PAIR, chain, 7), chain, 7, 1);
  }

  /** Two units of a cache are flushed together and then freed: the program meets the first of them
      again and reads through the null pointer that stands for its cache. */
  method TwoUnits() returns (fault: bool)
    ensures fault
  {
    var pool := MakePair();
    PairFaults();
    pool.PutToFlush(2, None, []);
    assert [2] + [] == [2];
    pool.PutToFlush(1, Some(2), [2]);
    assert [1] + [2] == [1, 2];
    pool.FlushPending(1, 7, [1, 2]);
    fault := pool.FreePending(7, 1);
  }
}
