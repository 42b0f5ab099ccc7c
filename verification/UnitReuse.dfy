/** What becomes of units that are freed and who gets them next (Simulator/core/fcache.c), said without the
    functions that describe how. */
module UnitReuse {
  import opened Layout
  import opened SlotModel
  import opened UnitPool

  // ----- who is kept

  /** The heuristic, with `n` units dead: fewer than five, or no more than a quarter of the threads. */
  predicate Room(n: nat, threads: nat)
  {
    n < 5 || n * 4 <= threads
  }

  lemma {:induction false} StaysDead(s: Pool, bound: nat, threads: nat, u: int)
    requires PoolInv(s)
    ensures u in s.dead ==> u in FreedDue(s, bound, threads).dead
    ensures u !in s.recs ==> u !in FreedDue(s, bound, threads).recs
    decreases |s.toFree|
  {
    if Due(s, bound) {
      FreedFirst(s, threads);
      PoppedKeeps(s);
      StaysDead(Freed(Popped(s), s.toFree[0], threads), bound, threads, u);
      if u in s.dead { FirstFreed(s, threads, u); }
    }
  }

  lemma FirstFreed(s: Pool, threads: nat, u: int)
    requires PoolInv(s) && s.toFree != [] && s.toFree[0] in s.recs && s.toFree[0] !in s.dead
    ensures var z := s.toFree[0]; var t := Freed(Popped(s), z, threads);
      && (u in s.dead ==> u in t.dead)
      && (if Room(|s.dead|, threads) then z in t.dead && z in t.recs else z !in t.recs && t.dead == s.dead)
  {
    var z := s.toFree[0];
    if Room(|s.dead|, threads) { InsertedNoDup(s.dead, Place(s.recs, s.dead, s.recs[z].size), z); }
  }

  /** A unit that is due, with `i` units before it in the list, is dead after a free call if there is room
      for it when its turn comes, and its memory is given back otherwise. */
  lemma {:induction false} FateOfDue(s: Pool, bound: nat, threads: nat, i: nat)
    requires PoolInv(s) && i < |s.toFree| && s.recs[s.toFree[i]].flush <= bound
    ensures var u, t := s.toFree[i], FreedDue(s, bound, threads);
      if Room(|s.dead| + i, threads) then u in t.dead else u !in t.recs
    decreases |s.toFree|
  {
    FreedFirst(s, threads);
    PoppedKeeps(s);
    if i > 0 { assert s.recs[s.toFree[0]].flush <= s.recs[s.toFree[i]].flush; }
    assert Due(s, bound);
    var s' := Freed(Popped(s), s.toFree[0], threads);
    if i == 0 {
      FirstFreed(s, threads, s.toFree[0]);
      StaysDead(s', bound, threads, s.toFree[0]);
    } else {
      assert s'.toFree[i - 1] == s.toFree[i];
      FateOfDue(s', bound, threads, i - 1);
    }
  }

  /** A unit that is not due is left as it is. */
  lemma {:induction false} OthersWait(s: Pool, bound: nat, threads: nat, i: nat)
    requires PoolInv(s) && i < |s.toFree| && s.recs[s.toFree[i]].flush > bound
    ensures var u, t := s.toFree[i], FreedDue(s, bound, threads);
      u in t.toFree && u in t.recs && t.recs[u] == s.recs[u]
    decreases |s.toFree|
  {
    if Due(s, bound) {
      FreedFirst(s, threads);
      var s' := Freed(Popped(s), s.toFree[0], threads);
      assert s'.toFree[i - 1] == s.toFree[i];
      OthersWait(s', bound, threads, i - 1);
    } else {
      assert s.toFree[i] in s.toFree;
    }
  }

  // ----- how many

  function Larger(a: nat, b: nat): nat
  {
    if a < b then b else a
  }

  lemma {:induction false} DeadAfterFree(s: Pool, bound: nat, threads: nat)
    requires PoolInv(s)
    ensures |FreedDue(s, bound, threads).dead| <= Larger(|s.dead|, Larger(5, threads / 4 + 1))
    decreases |s.toFree|
  {
    if Due(s, bound) {
      FreedFirst(s, threads);
      DeadAfterFree(Freed(Popped(s), s.toFree[0], threads), bound, threads);
    }
  }

  /** There are never more than `most` threads. */
  predicate AtMost(op: Op, most: nat)
  {
    op.FreeOp? ==> op.threads <= most
  }

  lemma {:induction false} DeadBounded(s: Pool, ops: seq<Op>, t: Pool, most: nat)
    requires PoolInv(s) && Leads(s, ops, t) && |s.dead| <= Larger(5, most / 4 + 1)
    requires forall i | 0 <= i < |ops| :: AtMost(ops[i], most)
    ensures |t.dead| <= Larger(5, most / 4 + 1)
    decreases |ops|
  {
    if ops != [] {
      var s' := Apply(s, ops[0]);
      DeadStep(s, ops[0], most);
      assert forall i | 0 <= i < |ops[1..]| :: AtMost(ops[1..][i], most) by {
        assert forall i | 0 <= i < |ops[1..]| :: ops[1..][i] == ops[i + 1];
      }
      DeadBounded(s', ops[1..], t, most);
    }
  }

  lemma DeadStep(s: Pool, op: Op, most: nat)
    requires PoolInv(s) && Enabled(s, op) && AtMost(op, most) && |s.dead| <= Larger(5, most / 4 + 1)
    ensures |Apply(s, op).dead| <= Larger(5, most / 4 + 1)
  {
    match op
    case FreeOp(bound, threads) => DeadAfterFree(s, bound, threads);
    case QueueOp(chain) => AllUncachedKeeps(s, chain);
    case _ =>
  }

  /** The comment allows five dead units or a quarter of the threads, whichever is more. A unit that is freed
      while this holds makes it fail exactly if there already are as many as a quarter of the threads,
      and at least five. */
  lemma OneTooMany(s: Pool, u: int, threads: nat)
    requires PoolInv(s) && u in s.recs && u !in s.dead && u !in s.toFree && |s.dead| <= Larger(5, threads / 4)
    ensures |Freed(s, u, threads).dead| > Larger(5, threads / 4) <==> |s.dead| == threads / 4 >= 5
  {
  }

  /** Units of one page that belong to nobody, the first `m` of them dead */
  function Uniform(l: seq<int>, m: nat): Pool
    requires m <= |l|
  {
    Pool(map u | u in l :: Rec(PAGE, None, 0, PAGE), l, l[..m], [], map[])
  }

  lemma UniformKeeps(l: seq<int>, m: nat)
    requires m <= |l| && NoDup(l)
    ensures PoolInv(Uniform(l, m))
  {
    forall i | 0 <= i < m ensures l[..m][i] in Uniform(l, m).recs {
      assert l[i] in l;
    }
  }

  /** Five dead units, twenty threads, and one unit more */
  lemma SixDead() returns (s: Pool)
    ensures PoolInv(s) && 6 in s.recs && |s.dead| <= Larger(5, 20 / 4) < |Freed(s, 6, 20).dead|
  {
    var l := [1, 2, 3, 4, 5, 6];
    s := Uniform(l, 5);
    UniformKeeps(l, 5);
    assert 6 in l && 6 !in l[..5];
    OneTooMany(s, 6, 20);
  }

  // ----- who is taken

  /** Dead unit number `i` is large enough and does not take the cache beyond its maximum; 0 is none. */
  predicate FitsAt(s: Pool, i: int, c: nat, need: int, max: int)
  {
    && 0 <= i < |s.dead| && s.dead[i] in s.recs && c in s.used && s.recs[s.dead[i]].size >= need
    && (max == 0 || s.used[c] + s.recs[s.dead[i]].size <= max)
  }

  /** From `s` to `t` the cache has got dead unit number `i`. */
  ghost predicate Reused(s: Pool, t: Pool, i: int, c: nat)
    requires 0 <= i < |s.dead| && s.dead[i] in s.recs && c in s.used
  {
    var u := s.dead[i];
    && t.dead == s.dead[..i] + s.dead[i + 1..] && t.toFree == s.toFree && t.all == s.all
    && t.recs == s.recs[u := Rec(s.recs[u].size, Some(c), 0, s.recs[u].reserved)]
    && t.used == s.used[c := s.used[c] + s.recs[u].size]
  }

  /** A cache that asks for a unit gets a dead one exactly if one fits, and then a smallest of those; and
      new memory otherwise. */
  lemma ReuseExactlyIf(s: Pool, c: nat, need: int, max: int, unused: int, commit: int)
    requires PoolInv(s) && c in s.used && unused !in s.recs
    ensures var t := CreatedUnit(s, c, need, max, unused, commit);
      if exists i :: FitsAt(s, i, c, need, max) then
        exists i :: FitsAt(s, i, c, need, max) && Reused(s, t, i, c) && forall j | FitsAt(s, j, c, need, max) ::
          s.recs[s.dead[i]].size <= s.recs[s.dead[j]].size
      else t == s.(recs := s.recs[unused := Rec(commit, Some(c), 0, need)], all := s.all + [unused],
        used := s.used[c := s.used[c] + commit])
  {
    var found := FirstServing(s, s.dead, c, need, max);
    if found.Some? {
      var i := found.value;
      assert FitsAt(s, i, c, need, max);
      forall j | FitsAt(s, j, c, need, max) ensures s.recs[s.dead[i]].size <= s.recs[s.dead[j]].size {
        FirstIsSmallest(s, c, need, max, j);
      }
      assert Reused(s, CreatedUnit(s, c, need, max, unused, commit), i, c);
    } else {
      forall i ensures !FitsAt(s, i, c, need, max) {
        if 0 <= i < |s.dead| { assert !Serves(s, s.dead[i], c, need, max); }
      }
    }
  }
}
