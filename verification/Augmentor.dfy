/** PageTables/Host/host_pt_augmentor.c: missing frame numbers in a translated table are replaced by
    numbers that no frame of the table has. */
module Augmentor {
  import opened Layout
  import opened Arithmetic
  import opened HexText
  import opened FrameGaps

  /** What a field of a record says if the number is missing. */
  const NAN: string := "NAN"

  /** A record: its address and the fields behind it, the last of which is the data frame. */
  datatype Row = Row(va: string, fields: seq<string>)

  /** `parse_hex` */
  function ParseHex(f: string): (n: nat)
    ensures n <= MAX && (f == NAN ==> n == MAX)
  {
    if f == NAN then MAX else ToU64(f)
  }

  // ----- the frames in use

  function FramesOf(fields: seq<string>): seq<nat>
  {
    if fields == [] then []
    else
      var n := |fields| - 1;
      FramesOf(fields[..n]) + if ParseHex(fields[n]) != MAX then [ParseHex(fields[n])] else []
  }

  function AllFrames(rows: seq<Row>): seq<nat>
  {
    if rows == [] then [] else AllFrames(rows[..|rows| - 1]) + FramesOf(rows[|rows| - 1].fields)
  }

  lemma {:induction false} FramesHas(fields: seq<string>, j: nat)
    requires j < |fields| && ParseHex(fields[j]) != MAX
    ensures ParseHex(fields[j]) in FramesOf(fields)
  {
    if j < |fields| - 1 { FramesHas(fields[..|fields| - 1], j); }
  }

  lemma {:induction false} FramesBound(fields: seq<string>)
    ensures forall i | 0 <= i < |FramesOf(fields)| :: FramesOf(fields)[i] < MAX
  {
    if fields != [] { FramesBound(fields[..|fields| - 1]); }
  }

  lemma {:induction false} AllFramesHas(rows: seq<Row>, i: nat, j: nat)
    requires i < |rows| && j < |rows[i].fields| && ParseHex(rows[i].fields[j]) != MAX
    ensures ParseHex(rows[i].fields[j]) in AllFrames(rows)
  {
    if i < |rows| - 1 { AllFramesHas(rows[..|rows| - 1], i, j); } else { FramesHas(rows[i].fields, j); }
  }

  lemma {:induction false} AllFramesBound(rows: seq<Row>)
    ensures forall i | 0 <= i < |AllFrames(rows)| :: AllFrames(rows)[i] < MAX
  {
    if rows != [] {
      AllFramesBound(rows[..|rows| - 1]);
      FramesBound(rows[|rows| - 1].fields);
    }
  }

  // ----- filling

  function Nans(fields: seq<string>): nat
  {
    if fields == [] then 0 else Nans(fields[..|fields| - 1]) + if fields[|fields| - 1] == NAN then 1 else 0
  }

  function NansIn(rows: seq<Row>): nat
  {
    if rows == [] then 0 else NansIn(rows[..|rows| - 1]) + Nans(rows[|rows| - 1].fields)
  }

  /** The number of missing fields before field `j` of row `i`. */
  function Rank(rows: seq<Row>, i: nat, j: nat): nat
    requires i < |rows| && j <= |rows[i].fields|
  {
    NansIn(rows[..i]) + Nans(rows[i].fields[..j])
  }

  /** A field after the fill: the missing field of rank `r` takes the number at `r`, if there is one. */
  function FilledField(f: string, table: seq<nat>, r: nat): (g: string)
    ensures g == NAN <==> f == NAN && r >= |table|
  {
    if f == NAN && r < |table| then NeverNan(table[r]); Hex(table[r]) else f
  }

  function FilledFields(fields: seq<string>, table: seq<nat>, r: nat): seq<string>
  {
    seq(|fields|, j requires 0 <= j < |fields| => FilledField(fields[j], table, r + Nans(fields[..j])))
  }

  function FilledRow(rows: seq<Row>, table: seq<nat>, i: nat): Row
    requires i < |rows|
  {
    Row(rows[i].va, FilledFields(rows[i].fields, table, NansIn(rows[..i])))
  }

  function Filled(rows: seq<Row>, table: seq<nat>): (t: seq<Row>)
    ensures |t| == |rows| && forall i | 0 <= i < |t| :: t[i] == FilledRow(rows, table, i)
  {
    seq(|rows|, i requires 0 <= i < |rows| => FilledRow(rows, table, i))
  }

  /** What a missing table stands for. */
  function Listed(table: Option<seq<nat>>): seq<nat>
  {
    if table.Some? then table.value else []
  }

  function One(f: string): nat
  {
    if f == NAN then 1 else 0
  }

  /** The fill of one field. Without a table but with a positive count the code reads through a null
      pointer at the first missing field; that is reported as a fault. */
  method FillField(f: string, table: Option<seq<nat>>, count: nat, next: nat, ghost r: nat)
    returns (f': string, next': nat, fault: bool)
    requires (table.Some? ==> count == |table.value|) && next == Min(r, count)
    ensures fault <==> table.None? && next < count && f == NAN
    ensures !fault ==> f' == FilledField(f, Listed(table), r) && next' == Min(r + One(f), count)
  {
    f', next', fault := f, next, false;
    if f == NAN && next < count {
      if table.None? {
        fault := true;
        return;
      }
      f' := Hex(table.value[next]);
      next' := next + 1;
    }
  }

  /** The fields before `j` are filled, the others as they were. */
  ghost predicate FilledUpTo(fields: seq<string>, fields': seq<string>, table: seq<nat>, r: nat, j: nat)
  {
    && |fields'| == |fields| && j <= |fields|
    && forall k: nat {:trigger FieldIs(fields, fields', table, r, j, k)} | k < |fields| ::
      FieldIs(fields, fields', table, r, j, k)
  }

  ghost predicate FieldIs(fields: seq<string>, fields': seq<string>, table: seq<nat>, r: nat, j: nat, k: nat)
  {
    && k < |fields'| && k < |fields|
    && fields'[k] == if k < j then FilledField(fields[k], table, r + Nans(fields[..k])) else fields[k]
  }

  lemma FillAdvance(fields: seq<string>, fields': seq<string>, table: seq<nat>, r: nat, j: nat, f: string)
    requires FilledUpTo(fields, fields', table, r, j) && j < |fields|
    requires f == FilledField(fields[j], table, r + Nans(fields[..j]))
    ensures FilledUpTo(fields, fields'[j := f], table, r, j + 1)
  {
    var now, next := fields'[j := f], j + 1;
    forall k: nat | k < |fields| ensures FieldIs(fields, now, table, r, next, k) {
      assert FieldIs(fields, fields', table, r, j, k);
    }
  }

  lemma FillDone(fields: seq<string>, fields': seq<string>, table: seq<nat>, r: nat)
    requires FilledUpTo(fields, fields', table, r, |fields|)
    ensures fields' == FilledFields(fields, table, r)
  {
    var t := FilledFields(fields, table, r);
    forall k | 0 <= k < |fields| ensures fields'[k] == t[k] {
      FieldDone(fields, fields', table, r, k);
    }
  }

  lemma FieldDone(fields: seq<string>, fields': seq<string>, table: seq<nat>, r: nat, k: nat)
    requires FilledUpTo(fields, fields', table, r, |fields|) && k < |fields|
    ensures fields'[k] == FilledFields(fields, table, r)[k]
  {
    assert FieldIs(fields, fields', table, r, |fields|, k);
  }

  /** The fill of one row; a fault is at missing field `at`. */
  method FillRow(fields: seq<string>, table: Option<seq<nat>>, count: nat, start: nat, ghost r: nat)
      returns (fields': seq<string>, next: nat, fault: bool, ghost at: nat)
    requires (table.Some? ==> count == |table.value|) && start == Min(r, count)
    ensures fault ==> table.None? && start < count && at < |fields| && fields[at] == NAN
    ensures !fault ==> FilledUpTo(fields, fields', Listed(table), r, |fields|) && next == Min(r + Nans(fields), count)
    ensures !fault && table.None? && start < count ==> Nans(fields) == 0
  {
    fields', next, fault, at := fields, start, false, 0;
    var j := 0;
    ghost var n := 0;
    NansNone(fields);
    FillStart(fields, Listed(table), r);
    while j < |fields'|
      invariant FilledUpTo(fields, fields', Listed(table), r, j) && n == Nans(fields[..j]) && next == Min(r + n, count)
      invariant !fault
      invariant table.None? && start < count ==> n == 0
    {
      at := j;
      fields', next, fault := FillAt(fields, fields', table, count, next, r, j, n);
      if fault {
        return;
      }
      n := Nans(fields[..j + 1]);
      j := j + 1;
    }
    assert fields[..j] == fields;
  }

  /** One round of the loop */
  method FillAt(ghost fields: seq<string>, now: seq<string>, table: Option<seq<nat>>, count: nat, next: nat,
    ghost r: nat, j: nat, ghost n: nat)
      returns (now': seq<string>, next': nat, fault: bool)
    requires table.Some? ==> count == |table.value|
    requires j < |now| && FilledUpTo(fields, now, Listed(table), r, j) && n == Nans(fields[..j])
    requires next == Min(r + n, count)
    ensures fault ==> table.None? && next < count && fields[j] == NAN
    ensures !fault ==>
      FilledUpTo(fields, now', Listed(table), r, j + 1) && next' == Min(r + Nans(fields[..j + 1]), count)
    ensures !fault && table.None? && next < count ==> Nans(fields[..j + 1]) == n
  {
    NansStep(fields, j);
    assert FieldIs(fields, now, Listed(table), r, j, j);
    var f;
    f, next', fault := FillField(now[j], table, count, next, r + n);
    now' := now[j := f];
    if !fault { FillAdvance(fields, now, Listed(table), r, j, f); }
  }

  lemma FillStart(fields: seq<string>, table: seq<nat>, r: nat)
    ensures FilledUpTo(fields, fields, table, r, 0)
  {
    forall k: nat | k < |fields| ensures FieldIs(fields, fields, table, r, 0, k) {
    }
  }

  lemma NansNone(fields: seq<string>)
    ensures Nans(fields[..0]) == 0
  {
  }

  lemma NansSome(fields: seq<string>, at: nat)
    requires at < |fields| && fields[at] == NAN
    ensures Nans(fields) > 0
  {
    NansStep(fields, at);
    NansGrow(fields, at + 1);
  }

  lemma NansStep(fields: seq<string>, j: nat)
    requires j < |fields|
    ensures Nans(fields[..j + 1]) == Nans(fields[..j]) + One(fields[j])
  {
    assert fields[..j + 1][..j] == fields[..j];
  }

  lemma {:induction false} NansGrow(fields: seq<string>, j: nat)
    requires j <= |fields|
    ensures Nans(fields[..j]) <= Nans(fields)
    decreases |fields| - j
  {
    if j < |fields| {
      NansStep(fields, j);
      NansGrow(fields, j + 1);
    } else {
      assert fields[..j] == fields;
    }
  }

  /** The fill of the whole table, in place. */
  method Fill(rows: array<Row>, table: Option<seq<nat>>, count: nat) returns (next: nat, fault: bool)
    requires table.Some? ==> count == |table.value|
    modifies rows
    ensures fault <==> table.None? && 0 < count && NansIn(old(rows[..])) > 0
    ensures !fault ==> rows[..] == Filled(old(rows[..]), Listed(table)) && next == Min(NansIn(old(rows[..])), count)
  {
    ghost var s := rows[..];
    next, fault := 0, false;
    var i := 0;
    ghost var n := 0;
    while i < rows.Length
      invariant RowsUpTo(s, rows[..], Listed(table), i) && n == NansIn(s[..i]) && next == Min(n, count)
      invariant table.None? && 0 < count ==> n == 0
    {
      var row;
      row, next, fault := FillRowAt(s, rows[i], i, table, count, next, n);
      if fault {
        RowsGrow(s, i + 1);
        return;
      }
      RowAdvance(s, rows[..], Listed(table), i, row);
      rows[i] := row;
      n := NansIn(s[..i + 1]);
      i := i + 1;
    }
    RowsDone(s, rows[..], Listed(table));
    assert s[..i] == s;
  }

  /** One round of the outer loop */
  method FillRowAt(ghost s: seq<Row>, row: Row, ghost i: nat, table: Option<seq<nat>>, count: nat, next: nat,
    ghost n: nat)
      returns (row': Row, next': nat, fault: bool)
    requires (table.Some? ==> count == |table.value|) && i < |s| && row == s[i] && n == NansIn(s[..i])
    requires next == Min(n, count)
    ensures fault ==> table.None? && next < count && NansIn(s[..i + 1]) > 0
    ensures !fault ==> row' == FilledRow(s, Listed(table), i) && next' == Min(NansIn(s[..i + 1]), count)
    ensures !fault && table.None? && next < count ==> NansIn(s[..i + 1]) == n
  {
    RowStep(s, i);
    var fields;
    ghost var at;
    fields, next', fault, at := FillRow(row.fields, table, count, next, n);
    row' := Row(row.va, fields);
    if fault {
      NansSome(row.fields, at);
    } else {
      FillDone(row.fields, fields, Listed(table), n);
    }
  }

  ghost predicate RowsUpTo(s: seq<Row>, t: seq<Row>, table: seq<nat>, i: nat)
  {
    |t| == |s| && i <= |s| && forall k | 0 <= k < |s| :: t[k] == if k < i then FilledRow(s, table, k) else s[k]
  }

  lemma RowAdvance(s: seq<Row>, t: seq<Row>, table: seq<nat>, i: nat, row: Row)
    requires RowsUpTo(s, t, table, i) && i < |s| && row == FilledRow(s, table, i)
    ensures RowsUpTo(s, t[i := row], table, i + 1)
  {
  }

  lemma RowsDone(s: seq<Row>, t: seq<Row>, table: seq<nat>)
    requires RowsUpTo(s, t, table, |s|)
    ensures t == Filled(s, table)
  {
  }

  lemma RowStep(rows: seq<Row>, i: nat)
    requires i < |rows|
    ensures NansIn(rows[..i + 1]) == NansIn(rows[..i]) + Nans(rows[i].fields)
  {
    assert rows[..i + 1][..i] == rows[..i];
  }

  lemma {:induction false} RowsGrow(rows: seq<Row>, i: nat)
    requires i <= |rows|
    ensures NansIn(rows[..i]) <= NansIn(rows)
    decreases |rows| - i
  {
    if i < |rows| {
      RowStep(rows, i);
      RowsGrow(rows, i + 1);
    } else {
      assert rows[..i] == rows;
    }
  }

  // ----- the result

  /** The numbers the program fills in. */
  function Spare(rows: seq<Row>): seq<nat>
  {
    Gaps(Unique(Sorted(AllFrames(rows))))
  }

  lemma SpareMeaning(rows: seq<Row>)
    ensures Increasing(Spare(rows)) && forall x | x in Spare(rows) :: x !in AllFrames(rows) && x < MAX
  {
    var f := AllFrames(rows);
    SortedMeaning(f);
    UniqueIncreasing(Sorted(f));
    var u := Unique(Sorted(f));
    forall y ensures y in u <==> y in f {
      UniqueHas(Sorted(f), y);
      assert y in Sorted(f) <==> y in multiset(Sorted(f));
      assert y in f <==> y in multiset(f);
    }
    AllFramesBound(rows);
    GapsMeaning(u);
    forall x | x in Spare(rows) ensures x !in f && x < MAX {
      forall k | 0 <= k < |u| ensures u[k] <= MAX {
        assert u[k] in u;
      }
      GapsAreFree(u, x);
    }
  }

  predicate UsedAt(rows: seq<Row>, i: nat, j: nat, y: nat)
  {
    i < |rows| && j < |rows[i].fields| && ParseHex(rows[i].fields[j]) == y && y != MAX
  }

  /** Some field has this number. */
  ghost predicate InUse(rows: seq<Row>, y: nat)
  {
    exists i: nat, j: nat :: UsedAt(rows, i, j, y)
  }

  lemma {:induction false} FramesFrom(fields: seq<string>, y: nat) returns (j: nat)
    requires y in FramesOf(fields)
    ensures j < |fields| && ParseHex(fields[j]) == y != MAX
  {
    var n := |fields| - 1;
    if y in FramesOf(fields[..n]) {
      j := FramesFrom(fields[..n], y);
    } else {
      j := n;
    }
  }

  lemma {:induction false} AllFramesFrom(rows: seq<Row>, y: nat) returns (i: nat, j: nat)
    requires y in AllFrames(rows)
    ensures UsedAt(rows, i, j, y)
  {
    var n := |rows| - 1;
    if y in AllFrames(rows[..n]) {
      i, j := AllFramesFrom(rows[..n], y);
    } else {
      i := n;
      j := FramesFrom(rows[n].fields, y);
    }
  }

  lemma AllFramesExactly(rows: seq<Row>, y: nat)
    ensures y in AllFrames(rows) <==> InUse(rows, y)
  {
    if y in AllFrames(rows) {
      var i, j := AllFramesFrom(rows, y);
    }
    forall i: nat, j: nat | UsedAt(rows, i, j, y) ensures y in AllFrames(rows) {
      AllFramesHas(rows, i, j);
    }
  }

  /** `a` and `b` are the numbers in use next to `x`, on either side of a gap that is not too large. */
  ghost predicate Enclose(rows: seq<Row>, a: nat, x: nat, b: nat)
  {
    && InUse(rows, a) && InUse(rows, b) && a < x < b && b - a - 1 <= 100_000_000
    && forall y: nat | InUse(rows, y) :: y <= a || b <= y
  }

  lemma SortedFrames(rows: seq<Row>, u: seq<nat>)
    requires u == Unique(Sorted(AllFrames(rows)))
    ensures Increasing(u) && forall y: nat :: y in u <==> InUse(rows, y)
  {
    var f := AllFrames(rows);
    SortedMeaning(f);
    UniqueIncreasing(Sorted(f));
    forall y: nat ensures y in u <==> InUse(rows, y) {
      UniqueHas(Sorted(f), y);
      assert y in Sorted(f) <==> y in multiset(Sorted(f));
      assert y in f <==> y in multiset(f);
      AllFramesExactly(rows, y);
    }
  }

  lemma Neighbours(u: seq<nat>, a: nat, b: nat) returns (i: nat)
    requires Increasing(u) && a in u && b in u && a < b && forall y | y in u :: y <= a || b <= y
    ensures i + 1 < |u| && u[i] == a && u[i + 1] == b
  {
    i :| 0 <= i < |u| && u[i] == a;
    var j :| 0 <= j < |u| && u[j] == b;
    assert i < j;
    assert u[i + 1] in u && u[i] < u[i + 1];
  }

  lemma SpareBetween(rows: seq<Row>, u: seq<nat>, i: nat, x: nat)
    requires Increasing(u) && (forall y: nat :: y in u <==> InUse(rows, y)) && Between(u, i, x)
    ensures Enclose(rows, u[i], x, u[i + 1])
  {
    assert u[i] in u && u[i + 1] in u;
    forall y: nat | InUse(rows, y) ensures y <= u[i] || u[i + 1] <= y {
      var k :| 0 <= k < |u| && u[k] == y;
    }
  }

  /** The numbers that are filled in come exactly from the gaps of at most 100 million numbers between
      two numbers in use. */
  lemma SpareExactly(rows: seq<Row>, x: nat)
    ensures x in Spare(rows) <==> exists a: nat, b: nat :: Enclose(rows, a, x, b)
  {
    var u := Unique(Sorted(AllFrames(rows)));
    SortedFrames(rows, u);
    GapsMember(u, x);
    forall i: nat | Between(u, i, x) ensures Enclose(rows, u[i], x, u[i + 1]) {
      SpareBetween(rows, u, i, x);
    }
    forall a: nat, b: nat | Enclose(rows, a, x, b) ensures exists i: nat :: Between(u, i, x) {
      var i := Neighbours(u, a, b);
      InUseBelowMax(rows, b);
      assert Between(u, i, x);
    }
  }

  lemma InUseBelowMax(rows: seq<Row>, y: nat)
    requires InUse(rows, y)
    ensures y < MAX
  {
  }

  lemma FilledWith(rows: seq<Row>, i: nat, j: nat)
    requires i < |rows| && j < |rows[i].fields| && rows[i].fields[j] == NAN && Rank(rows, i, j) < |Spare(rows)|
    ensures Filled(rows, Spare(rows))[i].fields[j] == Hex(Spare(rows)[Rank(rows, i, j)])
  {
  }

  lemma SpareIsFree(rows: seq<Row>, r: nat, k: nat, l: nat)
    requires r < |Spare(rows)| && k < |rows| && l < |rows[k].fields|
    ensures var x := Spare(rows)[r]; ToU64(Hex(x)) == x && Hex(x) != NAN && x != ParseHex(rows[k].fields[l])
  {
    SpareMeaning(rows);
    var x := Spare(rows)[r];
    assert x in Spare(rows);
    RoundTrip(x);
    NeverNan(x);
    if ParseHex(rows[k].fields[l]) != MAX { AllFramesHas(rows, k, l); }
  }

  /** A missing field that has a number left for it gets one that no field of the input has. */
  lemma FilledIsFree(rows: seq<Row>, i: nat, j: nat, k: nat, l: nat)
    requires i < |rows| && j < |rows[i].fields| && rows[i].fields[j] == NAN && Rank(rows, i, j) < |Spare(rows)|
    requires k < |rows| && l < |rows[k].fields|
    ensures var t := Filled(rows, Spare(rows));
      t[i].fields[j] != NAN && ParseHex(t[i].fields[j]) == Spare(rows)[Rank(rows, i, j)]
    ensures ParseHex(Filled(rows, Spare(rows))[i].fields[j]) != ParseHex(rows[k].fields[l])
  {
    FilledWith(rows, i, j);
    SpareIsFree(rows, Rank(rows, i, j), k, l);
  }

  /** Two different missing fields get different numbers. */
  lemma FilledAreDistinct(rows: seq<Row>, i: nat, j: nat, k: nat, l: nat)
    requires i < |rows| && j < |rows[i].fields| && rows[i].fields[j] == NAN && Rank(rows, i, j) < |Spare(rows)|
    requires k < |rows| && l < |rows[k].fields| && rows[k].fields[l] == NAN && Rank(rows, k, l) < |Spare(rows)|
    requires i < k || (i == k && j < l)
    ensures var t := Filled(rows, Spare(rows)); ParseHex(t[i].fields[j]) < ParseHex(t[k].fields[l])
  {
    FilledIsFree(rows, i, j, i, j);
    FilledIsFree(rows, k, l, k, l);
    SpareMeaning(rows);
    RankOrder(rows, i, j, k, l);
  }

  lemma RankOrder(rows: seq<Row>, i: nat, j: nat, k: nat, l: nat)
    requires i < |rows| && j < |rows[i].fields| && rows[i].fields[j] == NAN && k < |rows| && l < |rows[k].fields|
    requires (i < k || (i == k && j < l))
    ensures Rank(rows, i, j) < Rank(rows, k, l)
  {
    var fs := rows[i].fields;
    NansStep(fs, j);
    if i == k {
      NansGrow(fs[..l], j + 1);
      assert fs[..l][..j + 1] == fs[..j + 1];
    } else {
      NansGrow(fs, j + 1);
      RowStep(rows, i);
      RowsGrow(rows[..k], i + 1);
      assert rows[..k][..i + 1] == rows[..i + 1];
    }
  }

  /** All other fields keep their text, and a missing field stays missing exactly if the numbers
      have run out before it. */
  lemma FilledElsewhere(rows: seq<Row>, i: nat, j: nat)
    requires i < |rows| && j < |rows[i].fields|
    ensures var t := Filled(rows, Spare(rows));
      && t[i].va == rows[i].va && |t[i].fields| == |rows[i].fields|
      && (rows[i].fields[j] != NAN ==> t[i].fields[j] == rows[i].fields[j])
      && (t[i].fields[j] == NAN <==> rows[i].fields[j] == NAN && Rank(rows, i, j) >= |Spare(rows)|)
  {
  }

  lemma RankBelow(rows: seq<Row>, i: nat, j: nat)
    requires i < |rows| && j < |rows[i].fields| && rows[i].fields[j] == NAN
    ensures Rank(rows, i, j) < NansIn(rows)
  {
    var fs := rows[i].fields;
    NansStep(fs, j);
    NansGrow(fs, j + 1);
    RowStep(rows, i);
    RowsGrow(rows, i + 1);
  }

  /** With enough numbers nothing is missing any more. */
  lemma NothingMissing(rows: seq<Row>, i: nat, j: nat)
    requires i < |rows| && j < |rows[i].fields| && NansIn(rows) <= |Spare(rows)|
    ensures Filled(rows, Spare(rows))[i].fields[j] != NAN
  {
    FilledElsewhere(rows, i, j);
    if rows[i].fields[j] == NAN { RankBelow(rows, i, j); }
  }

  // ----- the program

  /** The valid frame numbers of a row. */
  method CollectRow(fields: seq<string>) returns (frames: seq<nat>)
    ensures frames == FramesOf(fields)
  {
    frames := [];
    var j := 0;
    while j < |fields|
      invariant 0 <= j <= |fields| && frames == FramesOf(fields[..j])
    {
      assert fields[..j + 1][..j] == fields[..j];
      var pfn := ParseHex(fields[j]);
      if pfn != MAX {
        frames := frames + [pfn];
      }
      j := j + 1;
    }
    assert fields[..j] == fields;
  }

  /** All valid frame numbers of the table. */
  method Collect(rows: array<Row>) returns (all: seq<nat>)
    ensures all == AllFrames(rows[..])
  {
    all := [];
    var i := 0;
    while i < rows.Length
      invariant 0 <= i <= rows.Length && all == AllFrames(rows[..i])
    {
      assert rows[..i + 1][..i] == rows[..i];
      var frames := CollectRow(rows[i].fields);
      all := all + frames;
      i := i + 1;
    }
    assert rows[..i] == rows[..];
  }

  /** `main` between reading and writing: the header of the output is the number of records. */
  method Augment(rows: array<Row>) returns (header: nat, fault: bool)
    modifies rows
    ensures header == rows.Length
    ensures fault <==> |Spare(old(rows[..]))| > LIMIT && NansIn(old(rows[..])) > 0
    ensures !fault ==>
      rows[..] == Filled(old(rows[..]), if |Spare(old(rows[..]))| <= LIMIT then Spare(old(rows[..])) else [])
  {
    var all := Collect(rows);
    var sorted := Sorted(all);
    SortedMeaning(all);
    UniqueIncreasing(sorted);
    var frames := new nat[|sorted|](i requires 0 <= i < |sorted| => sorted[i]);
    assert frames[..] == sorted;
    var unique := Dedup(frames);
    var table, count := FindGaps(frames[..unique]);
    var filled;
    filled, fault := Fill(rows, table, count);
    header := rows.Length;
  }

  // ----- an input with too many free numbers

  function Rungs(n: nat): (fields: seq<string>)
    ensures |fields| == n
  {
    if n == 0 then [] else Rungs(n - 1) + [Hex((n - 1) * (GAP_MAX + 1))]
  }

  lemma FramesAppend(fields: seq<string>, x: nat)
    requires x < MAX
    ensures FramesOf(fields + [Hex(x)]) == FramesOf(fields) + [x]
  {
    RoundTrip(x);
    NeverNan(x);
    assert (fields + [Hex(x)])[..|fields|] == fields;
  }

  lemma {:induction false} RungsAre(n: nat)
    requires n <= 30
    ensures FramesOf(Rungs(n)) == Ladder(n)
  {
    if n > 0 {
      RungsAre(n - 1);
      FramesAppend(Rungs(n - 1), (n - 1) * (GAP_MAX + 1));
    }
  }

  lemma LadderSpare(rows: seq<Row>, frames: seq<nat>)
    requires AllFrames(rows) == frames && Increasing(frames)
    ensures Spare(rows) == Gaps(frames)
  {
    IncreasingIsSorted(frames);
    IncreasingIsUnique(frames);
  }

  lemma OneRow(rows: seq<Row>, fields: seq<string>)
    requires |rows| == 1 && rows[0].fields == fields + [NAN]
    ensures AllFrames(rows) == FramesOf(fields) && NansIn(rows) > 0
  {
    assert rows[..0] == [];
    assert rows[0].fields[..|fields|] == fields;
  }

  lemma LadderFaults(rows: seq<Row>, n: nat)
    requires 12 <= n <= 30 && |rows| == 1 && rows[0].fields == Rungs(n) + [NAN]
    ensures |Spare(rows)| > LIMIT && NansIn(rows) > 0
  {
    OneRow(rows, Rungs(n));
    RungsAre(n);
    LadderTooWide(n);
    LadderSpare(rows, Ladder(n));
  }

  /** On one record with twelve frames, as far apart as a gap may be, and one missing field, the
      program reads through a null pointer. */
  method TooWide() returns (rows: array<Row>, fault: bool)
    ensures fault
  {
    var n := 12;
    rows := new Row[1](_ => Row("0", Rungs(n) + [NAN]));
    LadderFaults(rows[..], n);
    var header;
    header, fault := Augment(rows);
  }
}
