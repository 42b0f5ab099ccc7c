/** The dump of PageTables/Guest/dump_pagetables.c: a walk that skips what is not mapped, served
    through a file that may be read in any pieces. */
module PageDump {
  import opened Layout
  import opened Arithmetic
  import opened PageTables

  /** The fields of one printed line: the address and the frames of the lower four levels. The root
      frame, which is the same on every line, is left out. */
  datatype Line = Line(va: nat, p4dp: int, pudp: int, pmdp: int, ptep: int)

  /** What is to be printed for one page. */
  function LineAt(t: Tables, addr: nat): Option<Line>
  {
    if Walk(t, 0, addr).Page? then Some(Line(addr, FrameAt(t, 1, addr), FrameAt(t, 2, addr), FrameAt(t, 3, addr),
      FrameAt(t, 4, addr)))
    else None
  }

  /** How far the walk may move on. */
  function Step(t: Tables, addr: nat): (s: nat)
    ensures s >= PAGE
  {
    match Walk(t, 0, addr)
    case Hole(level) => Size(t.five, level)
    case Page(_, _) => PAGE
  }

  /** `print_entry` */
  function Printed(addr: nat, p4dp: int, pudp: int, pmdp: int, ptep: int): Option<Line>
  {
    if ptep == 0 then None else Some(Line(addr, p4dp, pudp, pmdp, ptep))
  }

  /** Inside a large page the frames of two neighbouring levels differ by the index. */
  lemma FrameStep(t: Tables, level: nat, j: nat, addr: nat)
    requires level < j <= LAST && Walk(t, 0, addr).Page? && Walk(t, 0, addr).level == level
    ensures FrameAt(t, j, addr) == FrameAt(t, j - 1, addr) + Index(t.five, j, addr) * (Size(t.five, j) / PAGE)
  {
    IndexStep(t.five, level, j, addr);
  }

  lemma FramePositive(t: Tables, i: nat, addr: nat)
    requires i <= LAST && Walk(t, 0, addr).Page? && Walk(t, 0, addr).level <= i && Walk(t, 0, addr).base > 0
    ensures FrameAt(t, i, addr) > 0
  {
    var s, q := Size(t.five, i), addr % Size(t.five, Walk(t, 0, addr).level);
    assert q / s >= 0 && s / PAGE >= 0;
    assert q / s * (s / PAGE) >= 0;
  }

  /** `handle_normal_page` and `handle_ept_page`: the frames below a large page, one index after the
      other. */
  method HandlePage(t: Tables, addr: nat, pgdp: int, p4dp0: int, pudp0: int, pmdp0: int, level: nat)
    returns (line: Option<Line>, next: nat)
    requires level < LAST && Walk(t, 0, addr).Page? && Walk(t, 0, addr).level == level && Walk(t, 0, addr).base > 0
    requires pgdp == FrameAt(t, 0, addr) && (level >= 1 ==> p4dp0 == FrameAt(t, 1, addr))
    requires (level >= 2 ==> pudp0 == FrameAt(t, 2, addr)) && (level >= 3 ==> pmdp0 == FrameAt(t, 3, addr))
    ensures line == LineAt(t, addr) && next == addr + PAGE
    ensures line.Some? && line.value.va == addr && Shows(t, line.value)
  {
    LineFields(t, addr);
    var p4dp, pudp, pmdp := p4dp0, pudp0, pmdp0;
    if level <= 0 {
      FrameStep(t, level, 1, addr);
      p4dp := pgdp + Index(t.five, 1, addr) * (Size(t.five, 1) / PAGE);
    }
    if level <= 1 {
      FrameStep(t, level, 2, addr);
      pudp := p4dp + Index(t.five, 2, addr) * (Size(t.five, 2) / PAGE);
    }
    if level <= 2 {
      FrameStep(t, level, 3, addr);
      pmdp := pudp + Index(t.five, 3, addr) * (Size(t.five, 3) / PAGE);
    }
    FrameStep(t, level, 4, addr);
    var ptep := pmdp + Index(t.five, 4, addr) * (Size(t.five, 4) / PAGE);
    FramePositive(t, LAST, addr);
    line := Printed(addr, p4dp, pudp, pmdp, ptep);
    next := addr + PAGE;
  }

  /** A walk that comes down to a leaf has met the frames above it on its way. */
  lemma OnTheWay(t: Tables, level: nat, addr: nat)
    requires level <= LAST && Walk(t, 0, addr) == Walk(t, level, addr) && EntryAt(t, level, addr).Leaf?
    requires EntryAt(t, level, addr).pfn > 0
    ensures Walk(t, 0, addr) == Page(level, EntryAt(t, level, addr).pfn)
    ensures FrameAt(t, level, addr) == EntryAt(t, level, addr).pfn
    ensures 0 < level ==> FrameAt(t, 0, addr) == PfnOf(EntryAt(t, 0, addr))
    ensures 1 < level ==> FrameAt(t, 1, addr) == PfnOf(EntryAt(t, 1, addr))
    ensures 2 < level ==> FrameAt(t, 2, addr) == PfnOf(EntryAt(t, 2, addr))
    ensures 3 < level ==> FrameAt(t, 3, addr) == PfnOf(EntryAt(t, 3, addr))
  {
    var s := Size(t.five, level);
    QuotientIs(addr % s, s, 0, addr % s);
  }

  /** `normal_table_walker` and `ept_table_walker` */
  method TableWalker(t: Tables, addr: nat) returns (line: Option<Line>, next: nat)
    requires FramesNamed(t)
    ensures line == LineAt(t, addr) && next == addr + Step(t, addr)
    ensures line.Some? <==> Walk(t, 0, addr).Page?
    ensures line.Some? ==> line.value.va == addr && Shows(t, line.value)
  {
    LineFields(t, addr);
    var p4d, pud, pmd, pte := false, false, false, false;
    var pgdp, p4dp, pudp, pmdp, ptep := 0, 0, 0, 0, 0;
    var e := EntryAt(t, 0, addr);
    if !e.Missing? {
      pgdp := e.pfn;
      if e.Leaf? {
        OnTheWay(t, 0, addr);
        line, next := HandlePage(t, addr, pgdp, p4dp, pudp, pmdp, 0);
        return;
      }
      p4d := !e.Broken?;
    }
    if p4d {
      e := EntryAt(t, 1, addr);
      if !e.Missing? {
        p4dp := e.pfn;
        assert Walk(t, 0, addr) == Walk(t, 1, addr);
        if e.Leaf? {
          OnTheWay(t, 1, addr);
          line, next := HandlePage(t, addr, pgdp, p4dp, pudp, pmdp, 1);
          return;
        }
        pud := !e.Broken?;
      }
    }
    if pud {
      e := EntryAt(t, 2, addr);
      if !e.Missing? {
        pudp := e.pfn;
        assert Walk(t, 1, addr) == Walk(t, 2, addr);
        if e.Leaf? {
          OnTheWay(t, 2, addr);
          line, next := HandlePage(t, addr, pgdp, p4dp, pudp, pmdp, 2);
          return;
        }
        pmd := !e.Broken?;
      }
    }
    if pmd {
      e := EntryAt(t, 3, addr);
      if !e.Missing? {
        pmdp := e.pfn;
        assert Walk(t, 2, addr) == Walk(t, 3, addr);
        if e.Leaf? {
          OnTheWay(t, 3, addr);
          line, next := HandlePage(t, addr, pgdp, p4dp, pudp, pmdp, 3);
          return;
        }
        pte := !e.Broken?;
      }
    }
    if pte {
      e := EntryAt(t, 4, addr);
      if e.Leaf? {
        OnTheWay(t, 4, addr);
        ptep := e.pfn;
      }
    }
    line, next := Finish(t, addr, pgdp, p4dp, pudp, pmdp, ptep);
  }

  /** The walk has ended on a small page or in a hole; frames are 0 from where it found nothing. */
  ghost predicate Ended(t: Tables, addr: nat, pgdp: int, p4dp: int, pudp: int, pmdp: int, ptep: int)
  {
    match Walk(t, 0, addr)
    case Hole(level) =>
      && (pgdp == 0 <==> level == 0) && (p4dp == 0 <==> level <= 1) && (pudp == 0 <==> level <= 2)
      && (pmdp == 0 <==> level <= 3) && ptep == 0
    case Page(level, _) =>
      && level == LAST && pgdp != 0 && p4dp == FrameAt(t, 1, addr) != 0 && pudp == FrameAt(t, 2, addr) != 0
      && pmdp == FrameAt(t, 3, addr) != 0 && ptep == FrameAt(t, 4, addr) != 0
  }

  /** The end of a walk: how far to go on, and the line */
  method Finish(t: Tables, addr: nat, pgdp: int, p4dp: int, pudp: int, pmdp: int, ptep: int)
    returns (line: Option<Line>, next: nat)
    requires Ended(t, addr, pgdp, p4dp, pudp, pmdp, ptep)
    ensures line == LineAt(t, addr) && next == addr + Step(t, addr)
  {
    var step := PAGE;
    if pmdp == 0 { step := Size(t.five, 3); }
    if pudp == 0 { step := Size(t.five, 2); }
    if p4dp == 0 { step := Size(t.five, 1); }
    if pgdp == 0 { step := Size(t.five, 0); }
    line := Printed(addr, p4dp, pudp, pmdp, ptep);
    next := addr + step;
  }

  // ----- the whole dump

  /** The lines of the pages below page `n`, one page after the other, when `show` gives the line of
      a page. */
  function Exhaustive(show: nat -> Option<Line>, n: nat): seq<Line>
  {
    if n == 0 then [] else Exhaustive(show, n - 1) + LineOf(show((n - 1) * PAGE))
  }

  function LineOf(l: Option<Line>): seq<Line>
  {
    if l.Some? then [l.value] else []
  }

  /** The dump that looks at every page. */
  function Dump(t: Tables, n: nat): seq<Line>
  {
    Exhaustive((a: nat) => LineAt(t, a), n)
  }

  /** `l` is the line of a page below `n`. */
  ghost predicate Belongs(show: nat -> Option<Line>, n: nat, l: Line)
  {
    l.va < n * PAGE && l.va % PAGE == 0 && show(l.va) == Some(l)
  }

  /** If page `k` has a line then `d` has that line. */
  ghost predicate Covers(show: nat -> Option<Line>, d: seq<Line>, k: nat)
  {
    show(k * PAGE).Some? ==> show(k * PAGE).value in d
  }

  /** `d` has the lines of the pages below `n`, all of them and in strictly increasing order. */
  ghost predicate DumpOf(show: nat -> Option<Line>, n: nat, d: seq<Line>)
  {
    && (forall i, j | 0 <= i < j < |d| :: d[i].va < d[j].va)
    && (forall i | 0 <= i < |d| :: Belongs(show, n, d[i]))
    && (forall k: nat | k < n :: Covers(show, d, k))
  }

  lemma DumpStep(show: nat -> Option<Line>, n: nat, n': nat, d: seq<Line>, l: Option<Line>)
    requires DumpOf(show, n, d) && n' == n + 1 && l == show(n * PAGE) && (l.Some? ==> l.value.va == n * PAGE)
    ensures DumpOf(show, n', d + LineOf(l))
  {
    var d' := d + LineOf(l);
    forall i | 0 <= i < |d'| ensures Belongs(show, n', d'[i]) {
      if i < |d| { assert Belongs(show, n, d[i]); }
    }
    forall k: nat | k < n' ensures Covers(show, d', k) {
      if k < n {
        assert Covers(show, d, k);
      } else if l.Some? {
        assert d'[|d|] == l.value;
      }
    }
    forall i, j | 0 <= i < j < |d'| ensures d'[i].va < d'[j].va {
      assert Belongs(show, n, d[i]);
    }
  }

  lemma {:induction false} ExhaustiveMeaning(show: nat -> Option<Line>, n: nat)
    requires forall a: nat :: show(a).Some? ==> show(a).value.va == a
    ensures DumpOf(show, n, Exhaustive(show, n))
  {
    if n > 0 {
      ExhaustiveMeaning(show, n - 1);
      DumpStep(show, n - 1, n, Exhaustive(show, n - 1), show((n - 1) * PAGE));
    }
  }

  /** A column of a line: above the page the frame that the entry names, and from the page down the frame
      of the region around the address, counted from the base of the page. */
  ghost predicate Column(t: Tables, i: nat, addr: nat, frame: int)
    requires i <= LAST
  {
    match Walk(t, 0, addr)
    case Hole(_) => false
    case Page(level, base) =>
      if i < level then frame == PfnOf(EntryAt(t, i, addr))
      else frame * PAGE == base * PAGE + addr % Size(t.five, level) - addr % Size(t.five, i)
  }

  lemma SameRemainder(a: nat, s: nat, q: nat)
    requires 0 < s && 0 < q && 0 < s * q
    ensures a % (s * q) % s == a % s
  {
    var x, y := a % (s * q), a / (s * q);
    assert a == x + s * (q * y);
    AddMultiple(x, s, q * y);
  }

  lemma WholeRegions(x: nat, s: nat, r: nat)
    requires 0 < r && s == PAGE * r
    ensures x / s * (s / PAGE) * PAGE == x - x % s
  {
    assert s / PAGE == r;
    var y := x / s;
    assert y * r * PAGE == y * s;
  }

  /** Inside a page of `level` a region of level `i` begins at a whole number of such regions. */
  lemma RegionStart(five: bool, level: nat, i: nat, addr: nat)
    requires level <= i <= LAST
    ensures addr % Size(five, level) / Size(five, i) * (Size(five, i) / PAGE) * PAGE
         == addr % Size(five, level) - addr % Size(five, i)
  {
    var q := Span(five, level, i);
    SameRemainder(addr, Size(five, i), q);
    var r := PageSpan(five, i);
    WholeRegions(addr % Size(five, level), Size(five, i), r);
  }

  lemma ColumnAt(t: Tables, i: nat, addr: nat)
    requires i <= LAST && Walk(t, 0, addr).Page?
    ensures Column(t, i, addr, FrameAt(t, i, addr))
  {
    var o := Walk(t, 0, addr);
    if i >= o.level { RegionStart(t.five, o.level, i, addr); }
  }

  /** What a line says: it is there exactly if the address is mapped, and its columns are the frames of
      the second to the fifth level, in this order. */
  lemma LineFields(t: Tables, addr: nat)
    ensures LineAt(t, addr).Some? <==> Walk(t, 0, addr).Page?
    ensures LineAt(t, addr).Some? ==>
      var l := LineAt(t, addr).value;
      && l.va == addr && Column(t, 1, addr, l.p4dp) && Column(t, 2, addr, l.pudp) && Column(t, 3, addr, l.pmdp)
      && Column(t, 4, addr, l.ptep)
  {
    if Walk(t, 0, addr).Page? {
      ColumnAt(t, 1, addr);
      ColumnAt(t, 2, addr);
      ColumnAt(t, 3, addr);
      ColumnAt(t, 4, addr);
    }
  }

  /** The line is one of a mapped page, and its columns are right. */
  ghost predicate Shows(t: Tables, l: Line)
  {
    && Walk(t, 0, l.va).Page? && Column(t, 1, l.va, l.p4dp) && Column(t, 2, l.va, l.pudp)
    && Column(t, 3, l.va, l.pmdp) && Column(t, 4, l.va, l.ptep)
  }

  ghost predicate Mentions(d: seq<Line>, addr: nat)
  {
    exists i :: 0 <= i < |d| && d[i].va == addr
  }

  /** `d` shows every page below `n` that is mapped, once, in increasing order, and nothing else. */
  ghost predicate ShowsAll(t: Tables, n: nat, d: seq<Line>)
  {
    && (forall i, j | 0 <= i < j < |d| :: d[i].va < d[j].va)
    && (forall i | 0 <= i < |d| :: d[i].va < n * PAGE && d[i].va % PAGE == 0 && Shows(t, d[i]))
    && (forall addr: nat {:trigger Mentions(d, addr)} | addr < n * PAGE && addr % PAGE == 0 && Walk(t, 0, addr).Page? ::
          Mentions(d, addr))
  }

  lemma DumpMeaning(t: Tables, n: nat)
    ensures ShowsAll(t, n, Dump(t, n))
  {
    var show, d := (a: nat) => LineAt(t, a), Dump(t, n);
    ExhaustiveMeaning(show, n);
    forall i | 0 <= i < |d| ensures d[i].va < n * PAGE && d[i].va % PAGE == 0 && Shows(t, d[i]) {
      assert Belongs(show, n, d[i]);
      LineFields(t, d[i].va);
    }
    forall addr: nat | addr < n * PAGE && addr % PAGE == 0 && Walk(t, 0, addr).Page? ensures Mentions(d, addr) {
      assert addr == addr / PAGE * PAGE && addr / PAGE < n;
      assert Covers(show, d, addr / PAGE);
      LineFields(t, addr);
    }
  }

  /** On a page of 4 KiB these are the frames of the tables and of the page. */
  lemma SmallPageLine(t: Tables, addr: nat)
    requires Walk(t, 0, addr).Page? && Walk(t, 0, addr).level == LAST
    ensures LineAt(t, addr) == Some(Line(addr, PfnOf(EntryAt(t, 1, addr)), PfnOf(EntryAt(t, 2, addr)),
      PfnOf(EntryAt(t, 3, addr)), Walk(t, 0, addr).base))
  {
    LineFields(t, addr);
  }

  /** The last field of a line is the frame behind the address. */
  lemma LineShowsFrame(t: Tables, addr: nat)
    ensures FrameOf(t, addr).Some? <==> LineAt(t, addr).Some?
    ensures LineAt(t, addr).Some? ==> LineAt(t, addr).value.ptep == FrameOf(t, addr).value
  {
  }

  lemma {:induction false} ExhaustivePrefix(show: nat -> Option<Line>, m: nat, n: nat)
    requires m <= n
    ensures Exhaustive(show, m) <= Exhaustive(show, n)
  {
    if m < n { ExhaustivePrefix(show, m, n - 1); }
  }

  /** Nothing is shown for page `k`. */
  predicate Blank(show: nat -> Option<Line>, k: nat)
  {
    show(k * PAGE).None?
  }

  lemma {:induction false} NothingBetween(show: nat -> Option<Line>, m: nat, n: nat)
    requires m <= n && forall k: nat | m <= k < n :: Blank(show, k)
    ensures Exhaustive(show, n) == Exhaustive(show, m)
  {
    if m < n {
      NothingBetween(show, m, n - 1);
      assert Blank(show, n - 1);
    }
  }

  // ----- no step skips a page

  /** The walk stands at the beginning of the region it finds empty. */
  ghost predicate Landing(t: Tables, addr: nat)
  {
    addr % PAGE == 0 && (Walk(t, 0, addr).Hole? ==> addr % Size(t.five, Walk(t, 0, addr).level) == 0)
  }

  lemma PageSpan(five: bool, level: nat) returns (q: nat)
    requires level <= LAST
    ensures q > 0 && Size(five, level) == PAGE * q
  {
    q := Span(five, level, LAST);
  }

  lemma StepAligned(t: Tables, addr: nat)
    requires Landing(t, addr)
    ensures addr % Step(t, addr) == 0 && (addr + Step(t, addr)) % PAGE == 0
  {
    if Walk(t, 0, addr).Hole? {
      var q := PageSpan(t.five, Walk(t, 0, addr).level);
      MultipleOf(addr, PAGE, q);
    }
  }

  /** After a step the walk stands at the beginning of an empty region again. */
  lemma LandingStep(t: Tables, addr: nat)
    requires Landing(t, addr)
    ensures Landing(t, addr + Step(t, addr))
  {
    StepAligned(t, addr);
    var next := addr + Step(t, addr);
    var o := Walk(t, 0, next);
    if o.Hole? {
      var k := if Walk(t, 0, addr).Hole? then Walk(t, 0, addr).level else LAST;
      if o.level >= k {
        var q := Span(t.five, k, o.level);
        MultipleOf(addr, Size(t.five, o.level), q);
      } else {
        var q := Span(t.five, o.level, k);
        StepInside(addr, Size(t.five, k), q);
        if next % Size(t.five, o.level) != 0 { WalkSame(t, 0, next, addr); }
      }
    }
  }

  /** Between one landing and the next there is nothing but the page at the first. */
  lemma NothingSkipped(t: Tables, addr: nat, a: nat)
    requires Landing(t, addr) && addr < a < addr + Step(t, addr) && a % PAGE == 0
    ensures LineAt(t, a).None?
  {
    StepAligned(t, addr);
    var s := Step(t, addr);
    QuotientIs(a, s, addr / s, a - addr);
    if Walk(t, 0, addr).Hole? { WalkSame(t, 0, addr, a); }
  }

  lemma OneLine(show: nat -> Option<Line>, k: nat, k': nat)
    requires k' == k + 1
    ensures Exhaustive(show, k') == Exhaustive(show, k) + LineOf(show(k * PAGE))
  {
  }

  lemma PageAfter(t: Tables, addr: nat, i: nat, n: nat)
    requires Landing(t, addr) && addr / PAGE + 1 <= i < n && n * PAGE <= addr + Step(t, addr)
    ensures LineAt(t, i * PAGE).None?
  {
    assert addr == addr / PAGE * PAGE;
    NothingSkipped(t, addr, i * PAGE);
  }

  /** The dump of the pages up to any point before the next landing. */
  lemma SkipTo(t: Tables, addr: nat, n: nat)
    requires Landing(t, addr) && addr / PAGE < n && n * PAGE <= addr + Step(t, addr)
    ensures Dump(t, n) == Dump(t, addr / PAGE) + LineOf(LineAt(t, addr))
  {
    var k, k' := addr / PAGE, addr / PAGE + 1;
    var show := (a: nat) => LineAt(t, a);
    assert k * PAGE == addr;
    OneLine(show, k, k');
    forall i: nat | k' <= i < n ensures Blank(show, i) {
      PageAfter(t, addr, i, n);
    }
    NothingBetween(show, k', n);
  }
}
