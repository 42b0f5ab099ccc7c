/** Runs of the operations of a private cache, and what holds in every state they can reach. */
module PrivateRuns {
  import opened Layout
  import opened SlotModel
  import opened PrivateModel
  import opened PrivateOps
  import opened PrivateShrink
  import opened PrivateEviction
  import opened PrivateGrowth

  datatype Op = AddOp(f: nat, k: int, w: World) | RemoveOp(f: nat) | ShrinkOp(f: nat, k: int)

  ghost predicate Enabled(p: Params, s: Fifo, op: Op)
    requires FifoInv(p, s, NONE)
  {
    match op
    case AddOp(f, k, w) => Ready(p, s, f, k, w)
    case RemoveOp(f) => f in s.home
    case ShrinkOp(f, k) => f in s.home && MIN_SLOT <= k && Multiple(p.align, k)
  }

  ghost function Apply(p: Params, s: Fifo, op: Op): (t: Fifo)
    requires FifoInv(p, s, NONE) && Enabled(p, s, op)
    ensures FifoInv(p, t, NONE)
  {
    match op
    case AddOp(f, k, w) => GrownKeeps(p, s, f, k, w, 0); Grown(p, s, f, k, w, 0).t
    case RemoveOp(f) => RemovedKeeps(p, s, f); Removed(s, f)
    case ShrinkOp(f, k) => ShrunkKeeps(p, s, f, k); Shrunk(p, s, f, k)
  }

  ghost predicate Leads(p: Params, s: Fifo, ops: seq<Op>, t: Fifo)
    requires FifoInv(p, s, NONE)
    decreases |ops|
  {
    if ops == [] then s == t else Enabled(p, s, ops[0]) && Leads(p, Apply(p, s, ops[0]), ops[1..], t)
  }

  /** The cache after `fcache_cache_init`. */
  function Initial(u: int, r: Unit): Fifo
  {
    Fifo(map[u := r], [u], map[], map[], [], map[], 0)
  }

  lemma InitialKeeps(p: Params, u: int, r: Unit)
    requires UnitFits(p, u, u, r) && r.cur == u
    ensures FifoInv(p, Initial(u, r), NONE)
  {
  }

  lemma {:induction false} RunKeeps(p: Params, s: Fifo, ops: seq<Op>, t: Fifo)
    requires FifoInv(p, s, NONE) && Leads(p, s, ops, t)
    ensures FifoInv(p, t, NONE)
    decreases |ops|
  {
    if ops != [] { RunKeeps(p, Apply(p, s, ops[0]), ops[1..], t); }
  }

  /** The FIFO is a number of empty slots followed by the fragments in the order in which they
      were placed, and holds every slot once. */
  ghost predicate EmptiesThenByAge(t: Fifo)
  {
    var n := EmptyCount(t.slots, t.q);
    && (forall i | 0 <= i < n :: Settled(t.slots, t.q[i]) && t.slots[t.q[i]].kind.Free?)
    && (forall i | n <= i < |t.q| ::
          Settled(t.slots, t.q[i]) && t.slots[t.q[i]].kind.Live? && t.slots[t.q[i]].kind.f in t.born)
    && (forall i, j | n <= i < j < |t.q| :: t.born[t.slots[t.q[i]].kind.f] < t.born[t.slots[t.q[j]].kind.f])
    && NoDup(t.q) && (forall a | a in t.slots :: a in t.q)
  }

  /** This holds in every state a private cache can reach. */
  lemma FifoShape(p: Params, u: int, r: Unit, ops: seq<Op>, t: Fifo)
    requires UnitFits(p, u, u, r) && r.cur == u
    requires (InitialKeeps(p, u, r); Leads(p, Initial(u, r), ops, t))
    ensures EmptiesThenByAge(t)
  {
    InitialKeeps(p, u, r);
    RunKeeps(p, Initial(u, r), ops, t);
    Shape(p, t);
  }

  lemma Shape(p: Params, t: Fifo)
    requires FifoInv(p, t, NONE)
    ensures EmptiesThenByAge(t)
  {
    var n := EmptyCount(t.slots, t.q);
    forall i | 0 <= i < |t.q| ensures Settled(t.slots, t.q[i]) {
      assert t.q[i] in t.q;
    }
    forall i | n <= i < |t.q| ensures t.slots[t.q[i]].kind.Live? {
      if i > n { assert Before(t.slots, t.born, t.q[n], t.q[i]); }
    }
    forall i, j | n <= i < j < |t.q| ensures t.born[t.slots[t.q[i]].kind.f] < t.born[t.slots[t.q[j]].kind.f] {
      assert Before(t.slots, t.born, t.q[i], t.q[j]);
    }
    forall a | a in t.slots ensures a in t.q {
      assert Settled(t.slots, a);
    }
  }
}
