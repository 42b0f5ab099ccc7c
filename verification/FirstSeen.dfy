/** Distinct numbers in the order in which they first occur. */
module FirstSeen {
  predicate Has(seen: seq<nat>, p: nat)
  {
    exists i :: 0 <= i < |seen| && seen[i] == p
  }

  /** One more frame number; 0 stands for none. */
  function Noted(seen: seq<nat>, p: nat): seq<nat>
  {
    if p == 0 || Has(seen, p) then seen else seen + [p]
  }

  function NotedAll(seen: seq<nat>, ps: seq<nat>): seq<nat>
    decreases |ps|
  {
    if ps == [] then seen else NotedAll(Noted(seen, ps[0]), ps[1..])
  }

  ghost predicate Distinct(l: seq<nat>)
  {
    forall i, j | 0 <= i < j < |l| :: l[i] != l[j]
  }

  lemma {:induction false} NotedConcat(seen: seq<nat>, ps: seq<nat>, qs: seq<nat>)
    ensures NotedAll(seen, ps + qs) == NotedAll(NotedAll(seen, ps), qs)
    decreases |ps|
  {
    if ps == [] {
      assert ps + qs == qs;
    } else {
      NotedConcat(Noted(seen, ps[0]), ps[1..], qs);
      assert (ps + qs)[1..] == ps[1..] + qs;
    }
  }

  lemma {:induction false} NotedKeeps(seen: seq<nat>, ps: seq<nat>)
    ensures seen <= NotedAll(seen, ps)
    ensures Distinct(seen) ==> Distinct(NotedAll(seen, ps))
    ensures forall p :: Has(NotedAll(seen, ps), p) <==> Has(seen, p) || (p > 0 && Has(ps, p))
    decreases |ps|
  {
    if ps != [] {
      var s1 := Noted(seen, ps[0]);
      NotedOne(seen, ps[0]);
      NotedKeeps(s1, ps[1..]);
      forall p ensures Has(ps, p) <==> p == ps[0] || Has(ps[1..], p) {
        HasSplit(ps, p);
      }
    }
  }

  lemma HasSplit(ps: seq<nat>, p: nat)
    requires ps != []
    ensures Has(ps, p) <==> p == ps[0] || Has(ps[1..], p)
  {
    if Has(ps, p) && p != ps[0] {
      var i :| 0 <= i < |ps| && ps[i] == p;
      assert ps[1..][i - 1] == p;
    }
    if Has(ps[1..], p) {
      var i :| 0 <= i < |ps[1..]| && ps[1..][i] == p;
      assert ps[i + 1] == p;
    }
    if p == ps[0] { assert Has(ps, p); }
  }

  lemma NotedOne(seen: seq<nat>, q: nat)
    ensures seen <= Noted(seen, q)
    ensures Distinct(seen) ==> Distinct(Noted(seen, q))
    ensures forall p :: Has(Noted(seen, q), p) <==> Has(seen, p) || (p > 0 && p == q)
  {
    forall p ensures Has(Noted(seen, q), p) <==> Has(seen, p) || (p > 0 && p == q) {
      HasAppend(seen, q, p);
    }
  }

  lemma HasAppend(seen: seq<nat>, q: nat, p: nat)
    ensures Has(seen + [q], p) <==> Has(seen, p) || p == q
  {
    if Has(seen, p) {
      var i :| 0 <= i < |seen| && seen[i] == p;
      assert (seen + [q])[i] == p;
    }
    if p == q { assert (seen + [q])[|seen|] == p; }
  }

  // ----- the order

  function FirstAt(ps: seq<nat>, p: nat): (i: nat)
    requires Has(ps, p)
    ensures i < |ps| && ps[i] == p && forall j | 0 <= j < i :: ps[j] != p
  {
    if ps[0] == p then 0 else (HasSplit(ps, p); 1 + FirstAt(ps[1..], p))
  }

  lemma FirstAtAppend(ps: seq<nat>, q: nat, p: nat)
    requires Has(ps, p)
    ensures Has(ps + [q], p) && FirstAt(ps + [q], p) == FirstAt(ps, p)
  {
    var i := FirstAt(ps, p);
    assert (ps + [q])[i] == p;
    var j := FirstAt(ps + [q], p);
    assert j <= i;
    assert (ps + [q])[j] == ps[j];
  }

  ghost predicate InOrder(ps: seq<nat>, l: seq<nat>)
  {
    && (forall i | 0 <= i < |l| :: Has(ps, l[i]))
    && (forall i, j | 0 <= i < j < |l| :: FirstAt(ps, l[i]) < FirstAt(ps, l[j]))
  }

  /** The numbers are listed in the order of their first occurrences. */
  lemma {:induction false} NotedInOrder(ps: seq<nat>)
    ensures InOrder(ps, NotedAll([], ps))
    decreases |ps|
  {
    if ps != [] {
      var n := |ps| - 1;
      var qs, q := ps[..n], ps[n];
      assert ps == qs + [q];
      NotedInOrder(qs);
      NotedConcat([], qs, [q]);
      NotedKeeps([], qs);
      var l := NotedAll([], qs);
      OrderAppend(qs, q, l);
      assert NotedAll(l, [q]) == Noted(l, q);
    }
  }

  lemma OrderAppend(qs: seq<nat>, q: nat, l: seq<nat>)
    requires InOrder(qs, l) && forall p :: Has(l, p) <==> p > 0 && Has(qs, p)
    ensures InOrder(qs + [q], Noted(l, q))
  {
    forall i | 0 <= i < |l| ensures Has(qs + [q], l[i]) && FirstAt(qs + [q], l[i]) == FirstAt(qs, l[i]) {
      FirstAtAppend(qs, q, l[i]);
    }
    if q != 0 && !Has(l, q) {
      HasAppend(qs, q, q);
      assert !Has(qs, q);
      FirstAtNew(qs, q);
    }
  }

  lemma FirstAtNew(qs: seq<nat>, q: nat)
    requires !Has(qs, q) && Has(qs + [q], q)
    ensures FirstAt(qs + [q], q) == |qs|
  {
    forall j | 0 <= j < |qs| ensures (qs + [q])[j] != q {
      assert (qs + [q])[j] == qs[j];
    }
  }

  // ----- starting from numbers already noted

  function Minus(l: seq<nat>, seen: seq<nat>): seq<nat>
  {
    if l == [] then [] else (if Has(seen, l[0]) then [] else [l[0]]) + Minus(l[1..], seen)
  }

  lemma {:induction false} MinusConcat(a: seq<nat>, b: seq<nat>, seen: seq<nat>)
    ensures Minus(a + b, seen) == Minus(a, seen) + Minus(b, seen)
    decreases |a|
  {
    if a == [] {
      assert a + b == b;
    } else {
      MinusConcat(a[1..], b, seen);
      MinusCons(a, b, seen, Minus(b, seen));
    }
  }

  lemma {:induction false} MinusCons(a: seq<nat>, b: seq<nat>, seen: seq<nat>, rest: seq<nat>)
    requires a != [] && Minus(a[1..] + b, seen) == Minus(a[1..], seen) + rest
    ensures Minus(a + b, seen) == Minus(a, seen) + rest
  {
    var l := a + b;
    assert l[0] == a[0] && l[1..] == a[1..] + b;
  }

  lemma {:induction false} MinusHas(l: seq<nat>, seen: seq<nat>, p: nat)
    ensures Has(Minus(l, seen), p) <==> Has(l, p) && !Has(seen, p)
    decreases |l|
  {
    if l != [] {
      MinusHas(l[1..], seen, p);
      HasSplit(l, p);
      var m := Minus(l, seen);
      if !Has(seen, l[0]) {
        HasSplit(m, p);
        assert m[1..] == Minus(l[1..], seen);
      } else {
        assert m == Minus(l[1..], seen);
      }
    }
  }

  lemma HasConcat(a: seq<nat>, b: seq<nat>, p: nat)
    ensures Has(a + b, p) <==> Has(a, p) || Has(b, p)
  {
    if Has(a, p) {
      var i :| 0 <= i < |a| && a[i] == p;
      assert (a + b)[i] == p;
    }
    if Has(b, p) {
      var i :| 0 <= i < |b| && b[i] == p;
      assert (a + b)[|a| + i] == p;
    }
  }

  lemma NotedMinus(seen: seq<nat>, t: seq<nat>, x: nat)
    ensures Noted(seen + Minus(t, seen), x) == seen + Minus(Noted(t, x), seen)
  {
    HasConcat(seen, Minus(t, seen), x);
    MinusHas(t, seen, x);
    if x != 0 && !Has(t, x) {
      MinusConcat(t, [x], seen);
      assert [x][1..] == [];
      assert seen + (Minus(t, seen) + [x]) == seen + Minus(t, seen) + [x];
    }
  }

  lemma {:induction false} NotedFrom(seen: seq<nat>, t: seq<nat>, xs: seq<nat>)
    ensures NotedAll(seen + Minus(t, seen), xs) == seen + Minus(NotedAll(t, xs), seen)
    decreases |xs|
  {
    if xs != [] {
      NotedMinus(seen, t, xs[0]);
      NotedFrom(seen, Noted(t, xs[0]), xs[1..]);
    }
  }

  lemma {:induction false} MinusAll(l: seq<nat>, seen: seq<nat>)
    requires forall i | 0 <= i < |l| :: Has(seen, l[i])
    ensures Minus(l, seen) == []
  {
    if l != [] { MinusAll(l[1..], seen); }
  }

  lemma {:induction false} MinusNone(l: seq<nat>, seen: seq<nat>)
    requires forall i | 0 <= i < |l| :: !Has(seen, l[i])
    ensures Minus(l, seen) == l
  {
    if l != [] { MinusNone(l[1..], seen); }
  }

  lemma HeadStartIf(ps: seq<nat>, xs: seq<nat>)
    requires ps <= NotedAll([], xs)
    ensures NotedAll(ps, xs) == NotedAll([], xs)
  {
    var f := NotedAll([], xs);
    var rest := f[|ps|..];
    NotedFrom(ps, [], xs);
    assert ps + Minus([], ps) == ps;
    NotedKeeps([], xs);
    assert f == ps + rest;
    SplitMinus(ps, rest);
  }

  lemma SplitMinus(ps: seq<nat>, rest: seq<nat>)
    requires Distinct(ps + rest)
    ensures Minus(ps + rest, ps) == rest
  {
    MinusConcat(ps, rest, ps);
    MinusAll(ps, ps);
    forall i | 0 <= i < |rest| ensures !Has(ps, rest[i]) {
      forall j | 0 <= j < |ps| ensures ps[j] != rest[i] {
        assert (ps + rest)[j] == ps[j] && (ps + rest)[|ps| + i] == rest[i];
      }
    }
    MinusNone(rest, ps);
  }

  /** Numbers noted beforehand make no difference exactly if the list begins with them anyway. */
  lemma HeadStart(ps: seq<nat>, xs: seq<nat>)
    ensures NotedAll(ps, xs) == NotedAll([], xs) <==> ps <= NotedAll([], xs)
  {
    NotedKeeps(ps, xs);
    if ps <= NotedAll([], xs) { HeadStartIf(ps, xs); }
  }
}
