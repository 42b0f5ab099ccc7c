/** Sizes, alignment and size classes of the code cache (Simulator/core/fcache.c), for a
    64-bit build. */
module Layout {
  import opened Arithmetic

  datatype Option<T> = None | Some(value: T)

  /** `HEADER_SIZE`: the back pointer in front of every fragment. */
  const HEADER: int := 8
  /** `sizeof(free_list_footer_t)`. */
  const FOOTER: int := 2
  /** `MIN_FCACHE_SLOT_SIZE`: a free-list header (24 bytes) and a footer. */
  const MIN_SLOT: int := 26
  /** `MAX_FREE_ENTRY_SIZE`. */
  const MAX_ENTRY: int := 65535
  const PAGE: int := 4096
  /** `START_PC_ALIGNMENT`. */
  const START_ALIGN: int := 4
  /** `FREE_LIST_SIZES`: bucket `b` holds the sizes from its entry up to the next one. */
  const BUCKETS: seq<int> := [0, 44, 52, 56, 64, 72, 80, 112, 172]
  const BUCKET_COUNT: int := 9

  /** The options that fix the geometry of one shared cache. */
  datatype Params = Params(align: int, isTrace: bool, separateStubs: bool, commit: int, maxUnit: int)

  /** `x` is a multiple of `a`. */
  ghost predicate Multiple(a: int, x: int)
  {
    exists k: int :: x == a * k
  }

  /** What the option checks and the reservation code establish: the slot alignment divides
      the page size and is at most a cache line, commitment and units are whole pages, and a
      unit is no longer than the largest free entry. */
  ghost predicate ValidParams(p: Params)
  {
    && 0 < p.align <= 64
    && Multiple(p.align, PAGE)
    && PAGE <= p.commit <= p.maxUnit <= MAX_ENTRY
    && p.commit % PAGE == 0
    && p.maxUnit % PAGE == 0
  }

  /** `MIN_EMPTY_HOLE`. */
  function EmptyHole(p: Params): (r: int)
    ensures MIN_SLOT <= r <= 64
  {
    if p.isTrace || !p.separateStubs then 64 else MIN_SLOT
  }

  /** `MIN_UNIT_END_HOLE`. */
  function EndHole(p: Params): (r: int)
    ensures 2 * MIN_SLOT <= r <= 128
  {
    2 * EmptyHole(p)
  }

  /** The size class of `size`: the last bucket whose bound does not exceed it. */
  function Bucket(size: int): (b: int)
    requires 0 <= size
    ensures 0 <= b < BUCKET_COUNT && BUCKETS[b] <= size && (b + 1 < BUCKET_COUNT ==> size < BUCKETS[b + 1])
  {
    if size < 44 then 0 else if size < 52 then 1 else if size < 56 then 2
    else if size < 64 then 3 else if size < 72 then 4 else if size < 80 then 5
    else if size < 112 then 6 else if size < 172 then 7 else 8
  }

  lemma MultipleSum(a: int, x: int, y: int)
    requires Multiple(a, x) && Multiple(a, y)
    ensures Multiple(a, x + y) && Multiple(a, x - y)
  {
    var i :| x == a * i;
    var j :| y == a * j;
    assert x + y == a * (i + j);
    assert x - y == a * (i - j);
  }

  lemma MultipleOfPage(p: Params, x: int)
    requires Multiple(p.align, PAGE) && x % PAGE == 0
    ensures Multiple(p.align, x)
  {
    var i :| PAGE == p.align * i;
    var j := x / PAGE;
    assert x == p.align * (i * j);
  }

  /** Whole pages add up to whole pages. */
  lemma WholePages(x: int, y: int)
    requires x % PAGE == 0 && y % PAGE == 0
    ensures (x + y) % PAGE == 0 && (x - y) % PAGE == 0
  {
    AddMultiple(x, PAGE, y / PAGE);
    AddMultiple(x, PAGE, -(y / PAGE));
  }

  /** `ALIGN_FORWARD`. */
  function AlignUp(a: int, x: int): (r: int)
    requires 0 < a
    ensures Multiple(a, r) && x <= r < x + a
  {
    a * ((x + a - 1) / a)
  }

  lemma ProductBig(a: int, k: int)
    requires 0 < a && k != 0
    ensures if k > 0 then a * k >= a else a * k <= -a
    decreases k < 0
  {
    if k > 0 {
      assert a * (k - 1) >= 0;
    } else {
      ProductBig(a, -k);
      assert a * k == -(a * -k);
    }
  }

  lemma MultipleSmall(a: int, d: int)
    requires 0 < a && Multiple(a, d) && -a < d < a
    ensures d == 0
  {
    var k :| d == a * k;
    if k != 0 { ProductBig(a, k); }
  }

  /** Rounding up commutes with a shift by a multiple, */
  lemma AlignUpShift(a: int, x: int, y: int)
    requires 0 < a && Multiple(a, x)
    ensures AlignUp(a, x + y) == x + AlignUp(a, y)
  {
    MultipleSum(a, x, AlignUp(a, y));
    MultipleSum(a, AlignUp(a, x + y), x + AlignUp(a, y));
    MultipleSmall(a, AlignUp(a, x + y) - (x + AlignUp(a, y)));
  }

  /** and gives the least multiple. */
  lemma AlignUpLeast(a: int, x: int, m: int)
    requires 0 < a && Multiple(a, m) && x <= m
    ensures AlignUp(a, x) <= m
  {
    MultipleSum(a, AlignUp(a, x), m);
    if AlignUp(a, x) > m { MultipleSmall(a, AlignUp(a, x) - m); }
  }
}
