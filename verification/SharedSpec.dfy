/** `add_to_free_list` on the specification state of a shared code cache: freed bytes absorb their
    free neighbours and become a free entry or unclaimed space. */
module SharedSpec {
  import opened Layout
  import opened SlotModel
  import opened SlotSteps

  // ----- putting bytes on the free lists

  /** The slot in transit absorbs a free entry behind it; a fragment behind it is marked. */
  function AbsorbNext(s: State, x: int): State
    requires x in s.slots && |s.lists| == BUCKET_COUNT
  {
    if FreeLen(s.slots, x + s.slots[x].len) >= 0 then JoinNext(s, x) else Mark(s, x)
  }

  lemma JoinNextReady(p: Params, s: State, x: int, cu: int)
    requires Inv(p, s, x, cu) && x in s.slots && FreeLen(s.slots, x + s.slots[x].len) >= 0
    ensures var s' := JoinNext(s, x);
      && Inv(p, s', x, cu) && x in s'.slots
      && (x in s'.foot <==> x in s.foot)
      && s'.slots[x].unit == s.slots[x].unit
      && s'.slots[x].len >= s.slots[x].len + MIN_SLOT
      && (x + s'.slots[x].len in s'.slots ==> !s'.slots[x + s'.slots[x].len].kind.Free?)
      && Behind(s', x) <= s'.follows
  {
    var n := x + s.slots[x].len;
    var m := n + s.slots[n].len;
    JoinNextKeeps(p, s, x, cu);
    assert Placed(p, s.units, s.slots, cu, n) && Placed(p, s.units, s.slots, cu, x);
    assert KindOk(s, x, cu, n);
    if m in s.slots && s.slots[m].kind.Live? {
      assert KindOk(s, x, cu, m);
    }
  }

  lemma MarkReady(p: Params, s: State, x: int, cu: int)
    requires Inv(p, s, x, cu) && x in s.slots && FreeLen(s.slots, x + s.slots[x].len) < 0
    ensures var s' := Mark(s, x);
      && Inv(p, s', x, cu)
      && (x + s'.slots[x].len in s'.slots ==> !s'.slots[x + s'.slots[x].len].kind.Free?)
  {
    var n := x + s.slots[x].len;
    MarkKeeps(p, s, x, cu);
    if n in s.slots { assert Placed(p, s.units, s.slots, cu, n); }
  }

  /** A free entry ends where the slot in transit at `x` begins. */
  predicate FreeBefore(s: State, x: int)
  {
    x in s.foot && FreeLen(s.slots, x - s.foot[x]) == s.foot[x] >= 0
  }

  /** That entry, if there is one, absorbs the slot in transit, which then starts here. */
  function Front(s: State, x: int): int
  {
    if FreeBefore(s, x) then x - s.foot[x] else x
  }

  function AbsorbPrev(s: State, x: int): State
    requires x in s.slots && |s.lists| == BUCKET_COUNT
  {
    if FreeBefore(s, x) then JoinPrev(s, x) else s
  }

  lemma JoinPrevShape(s: State, x: int)
    requires x in s.slots && |s.lists| == BUCKET_COUNT && FreeBefore(s, x) && x - s.foot[x] !in s.foot
    requires x + s.slots[x].len in s.slots ==> !s.slots[x + s.slots[x].len].kind.Free?
    requires 0 < s.slots[x].len && 0 < s.foot[x] && Behind(s, x) <= s.follows
    ensures var s' := JoinPrev(s, x); var q := x - s.foot[x];
      && q in s'.slots && Ready(s', q)
      && s'.slots[q].unit == s.slots[q].unit
      && s'.slots[q].len == s.foot[x] + s.slots[x].len
  {
  }

  lemma JoinPrevReady(p: Params, s: State, x: int, cu: int)
    requires Inv(p, s, x, cu) && x in s.slots && x in s.foot
    requires x + s.slots[x].len in s.slots ==> !s.slots[x + s.slots[x].len].kind.Free?
    requires Behind(s, x) <= s.follows
    ensures FreeLen(s.slots, x - s.foot[x]) == s.foot[x] >= MIN_SLOT
    ensures var s' := JoinPrev(s, x); var q := x - s.foot[x];
      && Inv(p, s', q, cu) && q in s'.slots && Ready(s', q)
      && s'.slots[q].unit == s.slots[x].unit
      && s'.slots[q].len == s.foot[x] + s.slots[x].len
  {
    JoinPrevKeeps(p, s, x, cu);
    assert Placed(p, s.units, s.slots, cu, x) && Placed(p, s.units, s.slots, cu, x - s.foot[x]);
    FreeAfterNoFree(s, x, cu, x - s.foot[x]);
    JoinPrevShape(s, x);
  }

  /** No free entry ends where another begins. */
  lemma FreeAfterNoFree(s: State, x: int, cu: int, q: int)
    requires Marked(s, x, cu) && q in s.slots && s.slots[q].kind.Free?
    ensures q !in s.foot
  {
    forall e | e in s.foot ensures e != q {
      assert FootOk(s.slots, e, s.foot[e]);
      assert KindOk(s, x, cu, e - s.foot[e]);
    }
  }

  /** The bytes at `x` can be put away: they are long enough for an entry of their own, or they
      merge with a neighbour or with the unclaimed space. */
  ghost predicate Disposable(s: State, x: int, cu: int)
    requires x in s.slots
  {
    var e := x + s.slots[x].len;
    || MIN_SLOT <= s.slots[x].len
    || FreeLen(s.slots, e) >= 0
    || x in s.foot
    || (s.slots[x].unit == cu && cu in s.units && e == s.units[cu].cur)
  }

  /** The bytes in transit become unclaimed space when they end at the append point, and an
      entry otherwise. */
  function Settle(s: State, x: int, cu: int): State
    requires x in s.slots && s.slots[x].len >= 0 && |s.lists| == BUCKET_COUNT
  {
    if s.slots[x].unit == cu && cu in s.units && x + s.slots[x].len == s.units[cu].cur
    then Retract(s, x) else Publish(s, x)
  }

  /** `add_to_free_list` */
  function AddFree(s: State, x: int, cu: int): State
    requires x in s.slots && |s.lists| == BUCKET_COUNT && s.slots[x].len >= 0
  {
    Settle(AbsorbPrev(AbsorbNext(s, x), x), Front(AbsorbNext(s, x), x), cu)
  }

  lemma AbsorbNextReady(p: Params, s: State, x: int, cu: int)
    requires Inv(p, s, x, cu) && x in s.slots
    ensures var s' := AbsorbNext(s, x);
      && Inv(p, s', x, cu) && x in s'.slots && s'.slots[x].unit == s.slots[x].unit && s'.units == s.units
      && (x in s'.foot <==> x in s.foot)
      && s'.slots[x].len >= s.slots[x].len
      && (FreeLen(s.slots, x + s.slots[x].len) >= 0 ==> s'.slots[x].len >= MIN_SLOT)
      && (FreeLen(s.slots, x + s.slots[x].len) < 0 ==> s'.slots[x].len == s.slots[x].len)
      && (x + s'.slots[x].len in s'.slots ==> !s'.slots[x + s'.slots[x].len].kind.Free?)
      && Behind(s', x) <= s'.follows
  {
    assert Placed(p, s.units, s.slots, cu, x);
    if FreeLen(s.slots, x + s.slots[x].len) >= 0 {
      JoinNextReady(p, s, x, cu);
    } else {
      MarkReady(p, s, x, cu);
    }
  }

  lemma AddFreeKeeps(p: Params, s: State, x: int, cu: int)
    requires Inv(p, s, x, cu) && x in s.slots && s.slots[x].len >= 0 && Disposable(s, x, cu)
    ensures Inv(p, AddFree(s, x, cu), NONE, cu)
  {
    AbsorbNextReady(p, s, x, cu);
    AbsorbPrevReady(p, AbsorbNext(s, x), x, cu);
    SettleKeeps(p, AbsorbPrev(AbsorbNext(s, x), x), Front(AbsorbNext(s, x), x), cu);
  }

  lemma AbsorbPrevReady(p: Params, s: State, x: int, cu: int)
    requires Inv(p, s, x, cu) && x in s.slots
    requires x + s.slots[x].len in s.slots ==> !s.slots[x + s.slots[x].len].kind.Free?
    requires Behind(s, x) <= s.follows
    ensures var s' := AbsorbPrev(s, x); var y := Front(s, x);
      && Inv(p, s', y, cu) && y in s'.slots && Ready(s', y) && s'.units == s.units
      && s'.slots[y].unit == s.slots[x].unit
      && (if x in s.foot then s'.slots[y].len >= MIN_SLOT else s'.slots[y].len == s.slots[x].len)
      && y + s'.slots[y].len == x + s.slots[x].len && 0 <= s'.slots[y].len
  {
    assert Placed(p, s.units, s.slots, cu, x);
    if x in s.foot {
      JoinPrevReady(p, s, x, cu);
    }
  }

  lemma SettleKeeps(p: Params, s: State, x: int, cu: int)
    requires Inv(p, s, x, cu) && x in s.slots && s.slots[x].len >= 0 && Ready(s, x)
    requires MIN_SLOT <= s.slots[x].len ||
      (s.slots[x].unit == cu && cu in s.units && x + s.slots[x].len == s.units[cu].cur)
    ensures Inv(p, Settle(s, x, cu), NONE, cu)
  {
    if s.slots[x].unit == cu && cu in s.units && x + s.slots[x].len == s.units[cu].cur {
      RetractKeeps(p, s, x, cu);
    } else {
      PublishKeeps(p, s, x, cu);
    }
  }
}
