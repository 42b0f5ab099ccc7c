/** The working-set test of `check_regen_replace_ratio` in Simulator/core/fcache.c: may a cache grow,
    judged by how many of the fragments it replaced had to be built again? */
module RegenRatio {
  import opened Arithmetic

  lemma QuotientStep(x: int, d: int, k: int)
    requires 0 < d
    ensures (x - k * d) / d == x / d - k
    ensures x - k * d >= d <==> x / d > k
  {
    AddMultiple(x, d, -k);
  }

  /** How often `d` can be taken off `x` in step with another pair. */
  ghost predicate TakenOff(x: int, d: int, n: int, x': int)
    requires 0 < d
  {
    0 <= n <= x / d && x' == x - n * d && (x' >= d <==> n < x / d)
  }

  lemma TakenOffNone(x: int, d: int)
    requires 0 <= x && 0 < d
    ensures TakenOff(x, d, 0, x)
  {
    QuotientStep(x, d, 0);
  }

  lemma TakeOff(x: int, d: int, n: int, x': int)
    requires 0 < d && TakenOff(x, d, n, x') && x' >= d
    ensures TakenOff(x, d, n + 1, x' - d)
  {
    QuotientStep(x, d, n + 1);
    assert x - (n + 1) * d == x - n * d - d;
  }

  /** The loop subtracts both units until one count is used up. The answer is yes exactly when the
      count of rebuilt fragments, in its unit, exceeds that of replaced ones, in its unit; no
      division takes place. */
  method CheckRatio(replaced: nat, regenerated: nat, replaceParam: nat, regenParam: nat)
    returns (grow: bool, replaced': int, regenerated': int)
    requires 0 < replaceParam && 0 < regenParam
    ensures grow <==> 1 <= replaced / replaceParam < regenerated / regenParam
    ensures var n := Min(replaced / replaceParam, regenerated / regenParam);
      replaced' == replaced - n * replaceParam && regenerated' == regenerated - n * regenParam
  {
    replaced', regenerated' := replaced, regenerated;
    grow := false;
    ghost var n := 0;
    TakenOffNone(replaced, replaceParam);
    TakenOffNone(regenerated, regenParam);
    if replaced' >= replaceParam && regenerated' >= regenParam {
      while replaced' >= replaceParam && regenerated' >= regenParam
        invariant TakenOff(replaced, replaceParam, n, replaced') && TakenOff(regenerated, regenParam, n, regenerated')
        invariant n > 0 || (replaced' >= replaceParam && regenerated' >= regenParam)
        decreases replaced'
      {
        TakeOff(replaced, replaceParam, n, replaced');
        TakeOff(regenerated, regenParam, n, regenerated');
        replaced' := replaced' - replaceParam;
        regenerated' := regenerated' - regenParam;
        n := n + 1;
      }
      grow := regenerated' >= regenParam;
    }
  }

  // ----- the whole test

  /** What a cache is set up with; a limit of 0 is none. `fifo` tells private caches. */
  datatype Limits = Limits(max: nat, finite: bool, replace: nat, regen: nat, free: nat, unit: nat, fifo: bool)

  /** What it keeps track of. */
  datatype Counts = Counts(size: nat, replaced: nat, regenerated: nat, check: nat, record: bool)

  datatype Verdict = Verdict(grow: bool, now: Counts)

  predicate AtMax(l: Limits, c: Counts, add: nat)
  {
    l.max != 0 && c.size + add > l.max
  }

  predicate Adaptive(l: Limits)
  {
    l.finite && l.replace > 0 && l.regen > 0
  }

  /** The counts have been compared; a private cache waits before it compares them again. */
  function Compared(l: Limits, c: Counts): (v: Verdict)
    requires Adaptive(l)
  {
    var a, b := c.replaced / l.replace, c.regenerated / l.regen;
    var n := Min(a, b);
    QuotientStep(c.replaced, l.replace, n);
    QuotientStep(c.regenerated, l.regen, n);
    assert n * l.replace <= c.replaced && n * l.regen <= c.regenerated by {
      AtMostAll(c.replaced, l.replace, n);
      AtMostAll(c.regenerated, l.regen, n);
    }
    Verdict(1 <= a < b, c.(replaced := c.replaced - n * l.replace, regenerated := c.regenerated - n * l.regen,
                           check := if l.fifo then l.replace else c.check))
  }

  lemma AtMostAll(x: nat, d: nat, n: nat)
    requires 0 < d && n <= x / d
    ensures n * d <= x
  {
    assert n * d <= x / d * d <= x;
  }

  /** A cache below its free size may grow, but a private one has to wait then. */
  function Freely(l: Limits, c: Counts): (v: Verdict)
  {
    Verdict(true, if l.fifo then c.(check := l.replace) else c.(record := c.record || c.size + l.unit >= l.free))
  }

  function Asked(l: Limits, c: Counts, add: nat): (v: Verdict)
  {
    if AtMax(l, c, add) then Verdict(false, c)
    else if !l.finite || l.replace == 0 then Verdict(true, c)
    else if l.regen == 0 then Verdict(false, c)
    else if c.check > 0 then Verdict(false, c.(check := c.check - 1))
    else if c.size < l.free then Freely(l, c)
    else if !l.fifo && !c.record then Verdict(true, c.(record := true))
    else Compared(l, c)
  }

  class Gauge {
    const l: Limits
    var size: nat
    var replaced: nat
    var regenerated: nat
    var check: nat
    var record: bool

    /** As `fcache_cache_init` leaves it */
    constructor (l: Limits)
      ensures this.l == l && Now() == Counts(0, 0, 0, 0, false)
    {
      this.l := l;
      size, replaced, regenerated, check, record := 0, 0, 0, 0, false;
    }

    function Now(): Counts
      reads this
    {
      Counts(size, replaced, regenerated, check, record)
    }

    /** `check_regen_replace_ratio` */
    method Check(add: nat) returns (grow: bool)
      modifies this`replaced, this`regenerated, this`check, this`record
      ensures Verdict(grow, Now()) == Asked(l, old(Now()), add)
    {
      if l.max != 0 && size + add > l.max {
        return false;
      } else if !l.finite || l.replace == 0 {
        return true;
      } else if l.regen == 0 {
        return false;
      } else if check > 0 {
        check := check - 1;
        return false;
      } else if size < l.free {
        if l.fifo {
          check := l.replace;
        } else if size + l.unit >= l.free && !record {
          record := true;
        }
        return true;
      } else {
        if l.fifo {
          check := l.replace;
        } else if !record {
          record := true;
          return true;
        }
        grow, replaced, regenerated := Compare();
      }
    }

    method Compare() returns (grow: bool, replaced': nat, regenerated': nat)
      requires Adaptive(l)
      ensures var v := Compared(l, Now());
        grow == v.grow && replaced' == v.now.replaced && regenerated' == v.now.regenerated
    {
      var x, y;
      grow, x, y := CheckRatio(replaced, regenerated, l.replace, l.regen);
      ghost var v := Compared(l, Now());
      assert x == v.now.replaced && y == v.now.regenerated;
      replaced', regenerated' := x, y;
    }
  }

  /** The answers to a number of questions asked one after the other. */
  function Answers(l: Limits, c: Counts, adds: seq<nat>): seq<bool>
    decreases |adds|
  {
    if adds == [] then [] else [Asked(l, c, adds[0]).grow] + Answers(l, Asked(l, c, adds[0]).now, adds[1..])
  }

  /** A private cache that is waiting refuses as long as it waits. */
  lemma {:induction false} RefusesWhileWaiting(l: Limits, c: Counts, adds: seq<nat>)
    requires Adaptive(l) && |adds| <= c.check
    ensures |Answers(l, c, adds)| == |adds| && forall i | 0 <= i < |adds| :: !Answers(l, c, adds)[i]
    decreases |adds|
  {
    if adds != [] { RefusesWhileWaiting(l, Asked(l, c, adds[0]).now, adds[1..]); }
  }

  /** Whenever an adaptive private cache may grow, it refuses the next `replace` times it is asked. */
  lemma GrowthIsRationed(l: Limits, c: Counts, add: nat, adds: seq<nat>)
    requires Adaptive(l) && l.fifo && Asked(l, c, add).grow && |adds| <= l.replace
    ensures forall i | 0 <= i < |Answers(l, Asked(l, c, add).now, adds)| :: !Answers(l, Asked(l, c, add).now, adds)[i]
  {
    RefusesWhileWaiting(l, Asked(l, c, add).now, adds);
  }

  // ----- when the answer is yes

  /** What a comparison does to the counts: both lose the same number `n` of units, until one of them has
      no unit left. The answer is yes exactly if there was one to take and the rebuilt ones have more. */
  lemma ComparedMeaning(l: Limits, c: Counts) returns (n: nat)
    requires Adaptive(l)
    ensures var v := Compared(l, c);
      && c.replaced == v.now.replaced + n * l.replace && c.regenerated == v.now.regenerated + n * l.regen
      && (v.now.replaced < l.replace || v.now.regenerated < l.regen)
      && (v.grow <==> n >= 1 && v.now.regenerated >= l.regen)
      && v.now.size == c.size && v.now.record == c.record
  {
    n := Min(c.replaced / l.replace, c.regenerated / l.regen);
    QuotientStep(c.replaced, l.replace, n);
    QuotientStep(c.regenerated, l.regen, n);
  }

  /** Rebuilding has been frequent: more of the units of `regen` than of the units of `replace`, of which
      there is one at least. */
  predicate Frequent(l: Limits, c: Counts)
    requires Adaptive(l)
  {
    1 <= c.replaced / l.replace < c.regenerated / l.regen
  }

  /** A cache may grow exactly if that keeps it within its maximum and it does not adapt at all, or it is
      set to adapt and does not wait, and is below its free size, or is a shared cache that has not
      begun to count, or has rebuilt fragments frequently. */
  lemma GrowsExactlyIf(l: Limits, c: Counts, add: nat)
    ensures Asked(l, c, add).grow <==>
      && (l.max == 0 || c.size + add <= l.max)
      && (!l.finite || l.replace == 0 ||
            (l.regen > 0 && c.check == 0 && (c.size < l.free || (!l.fifo && !c.record) || Frequent(l, c))))
  {
  }

  /** What a question leaves behind: a private cache that was not waiting waits for `replace` questions, one
      that was waiting waits for one less, a shared one counts from the question on at which the next
      unit would take it to its free size; the size stays. */
  lemma AskedLeaves(l: Limits, c: Counts, add: nat)
    requires Adaptive(l) && (l.max == 0 || c.size + add <= l.max)
    ensures var d := Asked(l, c, add).now;
      && d.size == c.size
      && (c.check > 0 ==> d == c.(check := c.check - 1))
      && (c.check == 0 && l.fifo ==> d.check == l.replace && d.record == c.record)
      && (c.check == 0 && !l.fifo ==> d.check == 0 && (d.record <==> c.record || c.size + l.unit >= l.free))
      && (c.check == 0 && (c.size < l.free || (!l.fifo && !c.record)) ==>
            d.replaced == c.replaced && d.regenerated == c.regenerated)
  {
  }

  /** The size of a cache that asks before it grows */
  function Sized(l: Limits, c: Counts, adds: seq<nat>): nat
    decreases |adds|
  {
    if adds == [] then c.size
    else
      var v := Asked(l, c, adds[0]);
      Sized(l, if v.grow then v.now.(size := v.now.size + adds[0]) else v.now, adds[1..])
  }

  /** never exceeds the maximum, and never shrinks. */
  lemma {:induction false} NeverAboveMax(l: Limits, c: Counts, adds: seq<nat>)
    requires l.max != 0 && c.size <= l.max
    ensures c.size <= Sized(l, c, adds) <= l.max
    decreases |adds|
  {
    if adds != [] {
      var v := Asked(l, c, adds[0]);
      NeverAboveMax(l, if v.grow then v.now.(size := v.now.size + adds[0]) else v.now, adds[1..]);
    }
  }
}
