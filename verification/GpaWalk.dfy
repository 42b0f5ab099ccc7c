/** The walk of PageTables/Host/host_gpa_translator.c from a guest frame to the host frame behind it,
    with the frames of the tables it passes. */
module GpaWalk {
  import opened Layout
  import opened Arithmetic
  import opened Bits
  import opened PageTables

  const WORD: nat := 0x1_0000_0000_0000_0000

  /** The five frames of a translation, from the root of the tables to the page, and the frame it
      results in; `None` stands for `INVALID_PFN`. */
  datatype Chain = Chain(c1: Option<nat>, c2: Option<nat>, c3: Option<nat>, c4: Option<nat>, c5: Option<nat>,
    frame: Option<nat>)

  const NOTHING: Chain := Chain(None, None, None, None, None, None)

  /** `guest_ram_base + (gpa_pfn << PAGE_SHIFT)` in 64 bits */
  function HostAddress(base: nat, pfn: nat): nat
  {
    (base + pfn * PAGE % WORD) % WORD
  }

  /** `((pfn << PAGE_SHIFT) | (va & (size - 1))) >> PAGE_SHIFT` */
  function FrameInside(pfn: nat, va: nat, size: nat): nat
    requires size > 0
  {
    Or(pfn * PAGE % WORD, And(va, size - 1)) / PAGE
  }

  /** An entry that ends the walk where only tables are expected: `none` or `bad`. */
  predicate Unusable(e: Entry)
  {
    !e.Table?
  }

  /** `translate_gpa_to_hpa` and what `get_or_translate_pfn` makes of it. */
  function ChainOf(t: Tables, base: nat, pfn: nat): Chain
  {
    var va := HostAddress(base, pfn);
    var e1, e2, e3, e4, e5 := EntryAt(t, 0, va), EntryAt(t, 1, va), EntryAt(t, 2, va), EntryAt(t, 3, va),
      EntryAt(t, 4, va);
    if base == 0 || Unusable(e1) then NOTHING
    else if Unusable(e2) then NOTHING.(c1 := Some(e1.pfn))
    else if e3.Missing? then NOTHING.(c1 := Some(e1.pfn), c2 := Some(e2.pfn))
    else if e3.Leaf? then Chain(Some(e1.pfn), Some(e2.pfn), Some(e3.pfn), None, Some(e3.pfn),
      Some(FrameInside(e3.pfn, va, Size(t.five, 2))))
    else if e3.Broken? || e4.Missing? then NOTHING.(c1 := Some(e1.pfn), c2 := Some(e2.pfn), c3 := Some(e3.pfn))
    else if e4.Leaf? then
      Chain(Some(e1.pfn), Some(e2.pfn), Some(e3.pfn), Some(e4.pfn), Some(e4.pfn),
        Some(FrameInside(e4.pfn, va, Size(t.five, 3))))
    else if e4.Broken? || !e5.Leaf? then Chain(Some(e1.pfn), Some(e2.pfn), Some(e3.pfn), Some(e4.pfn), None, None)
    else Chain(Some(e1.pfn), Some(e2.pfn), Some(e3.pfn), Some(e4.pfn), Some(e5.pfn),
      Some(FrameInside(e5.pfn, va, Size(t.five, 4))))
  }

  /** The same, step by step as the code does it. */
  method Translate(t: Tables, base: nat, pfn: nat) returns (c: Chain)
    ensures c == ChainOf(t, base, pfn)
    ensures FramesNamed(t) ==> NamesWalk(t, HostAddress(base, pfn), c)
  {
    if FramesNamed(t) { ChainFields(t, base, pfn); }
    c := NOTHING;
    if base == 0 {
      return;
    }
    var va := HostAddress(base, pfn);
    var e := EntryAt(t, 0, va);
    if Unusable(e) {
      return;
    }
    c := c.(c1 := Some(e.pfn));
    e := EntryAt(t, 1, va);
    if Unusable(e) {
      return;
    }
    c := c.(c2 := Some(e.pfn));
    e := EntryAt(t, 2, va);
    if e.Missing? {
      return;
    }
    c := c.(c3 := Some(e.pfn));
    if e.Leaf? {
      c := c.(c4 := None, c5 := Some(e.pfn), frame := Some(FrameInside(e.pfn, va, Size(t.five, 2))));
      return;
    }
    if e.Broken? {
      return;
    }
    e := EntryAt(t, 3, va);
    if e.Missing? {
      return;
    }
    c := c.(c4 := Some(e.pfn));
    if e.Leaf? {
      c := c.(c5 := Some(e.pfn), frame := Some(FrameInside(e.pfn, va, Size(t.five, 3))));
      return;
    }
    if e.Broken? {
      return;
    }
    e := EntryAt(t, 4, va);
    if !e.Leaf? {
      return;
    }
    c := c.(c5 := Some(e.pfn), frame := Some(FrameInside(e.pfn, va, Size(t.five, 4))));
  }

  // ----- properties

  predicate IsPrefix(c: Chain)
  {
    && (c.c2.Some? ==> c.c1.Some?) && (c.c3.Some? ==> c.c2.Some?) && (c.c4.Some? ==> c.c3.Some?)
    && (c.c5.Some? ==> c.c4.Some?)
  }

  /** The walk succeeds exactly where there is a page below the two upper levels. A failed walk
      leaves a prefix of the chain; a successful one leaves out the fourth frame exactly for a
      1 GB page. */
  lemma ChainShape(t: Tables, base: nat, pfn: nat)
    requires base != 0 && FramesNamed(t)
    ensures var c, o := ChainOf(t, base, pfn), Walk(t, 0, HostAddress(base, pfn));
      && (c.frame.Some? <==> o.Page? && o.level >= 2)
      && (c.frame.None? ==> IsPrefix(c) && c.c5.None?)
      && (c.frame.Some? ==> c.c1.Some? && c.c2.Some? && c.c3.Some? && c.c5.Some? && (c.c4.None? <==> o.level == 2))
  {
    var va := HostAddress(base, pfn);
    UnrollWalk(t, va);
  }

  /** The five levels of a walk, spelt out. */
  lemma UnrollWalk(t: Tables, va: nat)
    requires FramesNamed(t)
    ensures var e1, e2, e3, e4, e5 := EntryAt(t, 0, va), EntryAt(t, 1, va), EntryAt(t, 2, va), EntryAt(t, 3, va),
      EntryAt(t, 4, va);
      && (e1.Table? && e1.pfn > 0 && e2.Table? && e3.Leaf? ==> Walk(t, 0, va) == Page(2, e3.pfn))
      && (e1.Table? && e1.pfn > 0 && e2.Table? && e3.Table? && e4.Leaf? ==> Walk(t, 0, va) == Page(3, e4.pfn))
      && (e1.Table? && e1.pfn > 0 && e2.Table? && e3.Table? && e4.Table? && e5.Leaf? ==>
        Walk(t, 0, va) == Page(4, e5.pfn))
      && (Walk(t, 0, va).Page? && Walk(t, 0, va).level >= 2 ==> e1.Table? && e1.pfn > 0 && e2.Table?)
      && (Walk(t, 0, va).Page? && Walk(t, 0, va).level >= 2 ==>
        e3.Leaf? || (e3.Table? && (e4.Leaf? || (e4.Table? && e5.Leaf?))))
      && (!t.five && e2.Table? ==> e1.pfn > 0)
  {
    assert Walk(t, 4, va) == if EntryAt(t, 4, va).Leaf? then Page(4, EntryAt(t, 4, va).pfn) else Hole(4);
    assert EntryAt(t, 3, va).Table? ==> Walk(t, 3, va) == Walk(t, 4, va);
    assert EntryAt(t, 2, va).Table? ==> Walk(t, 2, va) == Walk(t, 3, va);
    assert EntryAt(t, 1, va).Table? ==> Walk(t, 1, va) == Walk(t, 2, va);
  }

  /** The first four fields, if present, are the frames that the entries on the way name, and the fifth
      is the frame at which the page begins that the walk ends on. */
  ghost predicate NamesWalk(t: Tables, va: nat, c: Chain)
  {
    && (c.c1.Some? ==> c.c1.value == PfnOf(EntryAt(t, 0, va)))
    && (c.c2.Some? ==> c.c2.value == PfnOf(EntryAt(t, 1, va)))
    && (c.c3.Some? ==> c.c3.value == PfnOf(EntryAt(t, 2, va)))
    && (c.c4.Some? ==> c.c4.value == PfnOf(EntryAt(t, 3, va)))
    && (c.c5.Some? ==> Walk(t, 0, va).Page? && c.c5.value == Walk(t, 0, va).base)
  }

  lemma ChainFields(t: Tables, base: nat, pfn: nat)
    requires FramesNamed(t)
    ensures NamesWalk(t, HostAddress(base, pfn), ChainOf(t, base, pfn))
  {
    UnrollWalk(t, HostAddress(base, pfn));
  }

  /** How far the chain of a failed walk goes: a field is present exactly if the walk gets to an entry of
      its level, with a table above it, that names a frame. */
  lemma ChainReaches(t: Tables, base: nat, pfn: nat)
    requires base != 0
    ensures var c, va := ChainOf(t, base, pfn), HostAddress(base, pfn);
      && (c.c1.Some? <==> EntryAt(t, 0, va).Table?)
      && (c.c2.Some? <==> c.c1.Some? && EntryAt(t, 1, va).Table?)
      && (c.c3.Some? <==> c.c2.Some? && !EntryAt(t, 2, va).Missing?)
      && (c.c4.Some? <==> c.c3.Some? && EntryAt(t, 2, va).Table? && !EntryAt(t, 3, va).Missing?)
  {
  }

  /** Guest frames lie one behind the other in host memory, up to the end of the address space. */
  lemma HostAddressMeaning(base: nat, pfn: nat)
    ensures base + pfn * PAGE < WORD ==> HostAddress(base, pfn) == base + pfn * PAGE
    ensures HostAddress(base, pfn) < WORD && (HostAddress(base, pfn) - base - pfn * PAGE) % WORD == 0
  {
    var x := pfn * PAGE;
    if base + x < WORD { QuotientIs(x, WORD, 0, x); QuotientIs(base + x, WORD, 0, base + x); }
    var q, r := x / WORD, (base + x % WORD) / WORD;
    assert HostAddress(base, pfn) - base - x == (-q - r) * WORD;
    AddMultiple(0, WORD, -q - r);
  }

  function SizeBits(level: nat): nat
    requires 2 <= level <= LAST
  {
    if level == 2 then 30 else if level == 3 then 21 else 12
  }

  lemma SizeIsPower(five: bool, level: nat)
    requires 2 <= level <= LAST
    ensures Size(five, level) == Pow2(SizeBits(level))
  {
    assert Pow2(12) == 0x1000;
    assert Pow2(21) == 0x20_0000;
    assert Pow2(30) == 0x4000_0000;
  }

  /** For an aligned page, shifting and joining bits adds the offset inside the page: the translator
      and the dumper mean the same frame. */
  lemma JoinIsOffset(five: bool, level: nat, pfn: nat, va: nat)
    requires 2 <= level <= LAST && pfn % (Size(five, level) / PAGE) == 0 && pfn * PAGE < WORD
    ensures FrameInside(pfn, va, Size(five, level)) == pfn + va % Size(five, level) / PAGE
  {
    var n, s := SizeBits(level), Size(five, level);
    SizeIsPower(five, level);
    MaskIsRemainder(va, n);
    var q := s / PAGE;
    var k := pfn / q;
    assert s == q * PAGE && pfn == q * k;
    assert pfn * PAGE == s * k;
    QuotientIs(pfn * PAGE, WORD, 0, pfn * PAGE);
    OrIsSum(k, n, va % s);
    AddMultiple(va % s, PAGE, pfn);
  }

  lemma SameFrame(t: Tables, base: nat, pfn: nat)
    requires base != 0 && FramesNamed(t) && ChainOf(t, base, pfn).frame.Some?
    requires var o := Walk(t, 0, HostAddress(base, pfn));
      o.Page? && o.level >= 2 ==> o.base % (Size(t.five, o.level) / PAGE) == 0 && o.base * PAGE < WORD
    ensures FrameOf(t, HostAddress(base, pfn)) == ChainOf(t, base, pfn).frame
  {
    var va := HostAddress(base, pfn);
    ChainShape(t, base, pfn);
    UnrollWalk(t, va);
    var o := Walk(t, 0, va);
    JoinIsOffset(t.five, o.level, o.base, va);
  }
}
