/** Paging-structure walks as PageTables/Guest/dump_pagetables.c makes them: levels, sizes and what
    a walk from the root finds (4- and 5-level paging, section 4.5 of the Intel SDM, Vol. 3A). */
module PageTables {
  import opened Layout
  import opened Arithmetic

  /** The five levels, numbered from the root: pgd, p4d, pud, pmd, pte. With 4-level paging the
      p4d is folded into the pgd. */
  const LAST: nat := 4

  function Size(five: bool, level: nat): (s: nat)
    requires level <= LAST
    ensures s > 0
  {
    if level == 0 then (if five then 0x1_0000_0000_0000 else 0x80_0000_0000)
    else if level == 1 then 0x80_0000_0000
    else if level == 2 then 0x4000_0000
    else if level == 3 then 0x20_0000
    else 0x1000
  }

  /** An entry: not present, a table below, an entry the kernel calls bad, or a page. */
  datatype Entry = Missing | Table(pfn: nat) | Broken(pfn: nat) | Leaf(pfn: nat)

  /** The entry of a level for a region of that level's size. */
  datatype Tables = Tables(five: bool, at: (nat, nat) -> Entry)

  function PfnOf(e: Entry): nat
  {
    if e.Missing? then 0 else e.pfn
  }

  /** The entry that `addr` meets at `level`, if the walk gets that far. */
  function EntryAt(t: Tables, level: nat, addr: nat): Entry
    requires level <= LAST
  {
    if level == 0 && !t.five then Table(PfnOf(t.at(1, addr / Size(false, 1))))
    else t.at(level, addr / Size(t.five, level))
  }

  /** No present entry names frame 0. */
  ghost predicate FramesNamed(t: Tables)
  {
    forall level: nat, key: nat | level <= LAST :: !t.at(level, key).Missing? ==> t.at(level, key).pfn > 0
  }

  /** Where the walk for an address ends: at a level it finds nothing, or on a page. */
  datatype Outcome = Hole(level: nat) | Page(level: nat, base: nat)

  function Walk(t: Tables, level: nat, addr: nat): (o: Outcome)
    requires level <= LAST
    ensures level <= o.level <= LAST
    decreases LAST - level
  {
    var e := EntryAt(t, level, addr);
    if PfnOf(e) == 0 then Hole(level)
    else if e.Leaf? then Page(level, e.pfn)
    else if level == LAST then Hole(LAST)
    else if e.Broken? then Hole(level + 1)
    else Walk(t, level + 1, addr)
  }

  /** The 4 KiB frame behind an address. */
  function FrameOf(t: Tables, addr: nat): Option<nat>
  {
    match Walk(t, 0, addr)
    case Hole(_) => None
    case Page(level, base) => Some(base + addr % Size(t.five, level) / PAGE)
  }

  /** The frame of the level-`i` region of `addr`: what an entry of that level names, or what it
      would name inside a larger page. */
  function FrameAt(t: Tables, i: nat, addr: nat): int
    requires i <= LAST
  {
    match Walk(t, 0, addr)
    case Hole(_) => 0
    case Page(level, base) =>
      if i < level then PfnOf(EntryAt(t, i, addr))
      else base + addr % Size(t.five, level) / Size(t.five, i) * (Size(t.five, i) / PAGE)
  }

  // ----- sizes

  /** Addresses in one region of a level are in one region of every level above. */
  lemma Nested(five: bool, i: nat, j: nat, a: nat, b: nat)
    requires i <= j <= LAST && a / Size(five, j) == b / Size(five, j)
    ensures a / Size(five, i) == b / Size(five, i)
  {
    if i < j {
      Quotients(five, j, a);
      Quotients(five, j, b);
      Nested(five, i, j - 1, a, b);
    }
  }

  lemma Quotients(five: bool, j: nat, a: nat)
    requires 1 <= j <= LAST
    ensures a / Size(five, j - 1) == a / Size(five, j) / Fanout(five, j)
  {
    DivideTwice(a, Size(five, j), Fanout(five, j));
  }

  /** What a walk finds is the same all over the region of the level where it ends. */
  lemma {:induction false} WalkSame(t: Tables, level: nat, a: nat, b: nat)
    requires level <= LAST && a / Size(t.five, Walk(t, level, a).level) == b / Size(t.five, Walk(t, level, a).level)
    ensures Walk(t, level, b) == Walk(t, level, a)
    decreases LAST - level
  {
    var m := Walk(t, level, a).level;
    Nested(t.five, level, m, a, b);
    if level == 0 && !t.five { FoldedSame(a, b); }
    var e := EntryAt(t, level, a);
    assert EntryAt(t, level, b) == e;
    if PfnOf(e) != 0 && e.Table? && level < LAST {
      WalkSame(t, level + 1, a, b);
    }
  }

  lemma FoldedSame(a: nat, b: nat)
    requires a / Size(false, 0) == b / Size(false, 0)
    ensures a / Size(false, 1) == b / Size(false, 1)
  {
  }

  /** `p4d_index` and so on: the number of the level-`j` region inside its parent. */
  function Index(five: bool, j: nat, addr: nat): nat
    requires 1 <= j <= LAST
  {
    addr / Size(five, j) % Fanout(five, j)
  }

  function Fanout(five: bool, j: nat): (r: nat)
    requires 1 <= j <= LAST
    ensures r > 0 && Size(five, j - 1) == Size(five, j) * r && Size(five, j - 1) / PAGE == r * (Size(five, j) / PAGE)
  {
    if j == 1 && !five then 1 else 512
  }

  /** A larger region holds a whole number of smaller ones. */
  lemma {:induction false} Span(five: bool, level: nat, j: nat) returns (q: nat)
    requires level <= j <= LAST
    ensures q > 0 && Size(five, level) == Size(five, j) * q
    decreases j - level
  {
    if level == j {
      q := 1;
    } else {
      var q' := Span(five, level + 1, j);
      q := Fanout(five, level + 1) * q';
    }
  }

  /** Adding one index at a time gives the region's frame inside a page of level `j - 1` or above. */
  lemma IndexStep(five: bool, level: nat, j: nat, addr: nat)
    requires level < j <= LAST
    ensures addr % Size(five, level) / Size(five, j) * (Size(five, j) / PAGE)
         == addr % Size(five, level) / Size(five, j - 1) * (Size(five, j - 1) / PAGE) +
           Index(five, j, addr) * (Size(five, j) / PAGE)
  {
    var s, r, f := Size(five, j), Fanout(five, j), Size(five, j) / PAGE;
    var q := Span(five, level, j - 1);
    assert Size(five, level) == s * (r * q);
    DigitOfRemainder(addr, s, r, q);
    var x := addr % Size(five, level);
    DivideTwice(x, s, r);
    Recombine(x / s, r, f);
  }

  lemma Recombine(y: int, r: int, f: int)
    requires 0 < r
    ensures y * f == y / r * (r * f) + y % r * f
  {
    assert y == r * (y / r) + y % r;
  }
}
