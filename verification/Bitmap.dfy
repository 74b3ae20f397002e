/** The bitmap page allocator. The underlying bitmap is the set of its free indices; index i
    stands for the page at base + i * PAGE_SIZE, where base is a multiple of 1 GiB. Sums and
    differences of addresses wrap at 2^64, as in a release build. */
module Bitmap {
  import opened Bits

  const MAX_ALIGN: nat := 0x4000_0000

  datatype Alloc = Ok(addr: nat) | InvalidParam | NoMemory

  /** What `dealloc_pages` does: it panics, leaves everything as it is, or frees the pages. */
  datatype Dealloc = Panics | Ignored | Freed

  /** Whole pages in a number of bytes, and the address of a page. */
  function PageCount(bytes: nat, page: nat): nat
    requires page > 0
  {
    bytes / page
  }

  function PageAddr(base: nat, idx: nat, page: nat): (r: nat)
    ensures r >= base
  {
    base + idx * page
  }

  // ---- Multiples ----

  lemma Multiple(q: nat, m: nat)
    requires m > 0
    ensures q * m % m == 0 && q * m / m == q
  {
    ModUnique(q * m, m, q, 0);
  }

  lemma SumOfMultiples(a: nat, b: nat, m: nat)
    requires m > 0 && a % m == 0 && b % m == 0
    ensures (a + b) % m == 0
  {
    assert a == a / m * m && b == b / m * m;
    assert a + b == (a / m + b / m) * m;
    Multiple(a / m + b / m, m);
  }

  lemma DifferenceOfMultiples(a: nat, b: nat, m: nat)
    requires m > 0 && a % m == 0 && b % m == 0 && b <= a
    ensures (a - b) % m == 0 && PageCount(a - b, m) * m == a - b
  {
    assert a == a / m * m && b == b / m * m;
    assert a - b == (a / m - b / m) * m;
    MulFar(a / m - b / m, m);
    Multiple(a / m - b / m, m);
  }

  lemma ScaledMultiple(a: nat, m: nat, c: nat)
    requires m > 0 && c > 0 && a % m == 0
    ensures m * c > 0 && a * c % (m * c) == 0
  {
    assert a == a / m * m;
    assert a * c == a / m * (m * c);
    Multiple(a / m, m * c);
  }

  lemma FactorDivides(a: nat, m: nat, c: nat, big: nat)
    requires m > 0 && big == c * m && big > 0 && a % big == 0
    ensures a % m == 0
  {
    var q := a / big;
    assert a == q * big;
    assert q * (c * m) == q * c * m;
    Multiple(q * c, m);
  }

  /** A multiple of 2^j is a multiple of every smaller power of two. */
  lemma SmallerPow2Divides(a: nat, i: nat, j: nat)
    requires i <= j && a % Pow2(j) == 0
    ensures a % Pow2(i) == 0
  {
    Pow2Sum(j - i, i);
    FactorDivides(a, Pow2(i), Pow2(j - i), Pow2(j));
  }

  lemma MaxAlignLog() returns (e: nat)
    ensures Pow2(e) == MAX_ALIGN && MAX_ALIGN < TWO64
  {
    e := 30;
    Pow2Is64();
  }

  // ---- Runs of indices ----

  /** A run of page indices; a live allocation is one. */
  datatype Range = Range(idx: nat, n: nat) {
    predicate Has(x: nat) { idx <= x < idx + n }
  }

  ghost function Pages(idx: nat, n: nat): set<nat> { set i: nat | i < idx + n && Range(idx, n).Has(i) }

  lemma {:induction false} PagesCount(idx: nat, n: nat)
    ensures |Pages(idx, n)| == n
  {
    if n == 0 {
      assert Pages(idx, n) == {};
    } else {
      PagesCount(idx, n - 1);
      assert Pages(idx, n) == Pages(idx, n - 1) + {idx + n - 1};
    }
  }

  predicate FreeRun(free: set<nat>, idx: nat, n: nat) { forall i :: idx <= i < idx + n ==> i in free }

  lemma TakeRun(free: set<nat>, idx: nat, n: nat)
    requires Pages(idx, n) <= free
    ensures |free - Pages(idx, n)| == |free| - n
  {
    PagesCount(idx, n);
    assert free == (free - Pages(idx, n)) + Pages(idx, n);
  }

  lemma GiveRun(free: set<nat>, idx: nat, n: nat, lo: nat, total: nat)
    requires free <= Pages(lo, total) && Pages(idx, n) <= Pages(lo, total) && Pages(idx, n) !! free
    ensures |free + Pages(idx, n)| == |free| + n <= total
  {
    PagesCount(idx, n);
    PagesCount(lo, total);
    Contained(free + Pages(idx, n), Pages(lo, total));
  }

  /** Given pages stay inside a region exactly if they are pages of it. */
  lemma GivenInside(free: set<nat>, i: nat, n: nat, lo: nat, total: nat)
    requires free <= Pages(lo, total) && n > 0
    ensures free + Pages(i, n) <= Pages(lo, total) <==> lo <= i && i + n <= lo + total
  {
    var run := Pages(i, n);
    assert i in run && i + n - 1 in run;
    if free + run <= Pages(lo, total) {
      assert i in free + run && i + n - 1 in free + run;
    }
  }

  lemma SubExact(a: nat, b: nat)
    requires b <= a < TWO64
    ensures Sub64(a, b) == a - b
  {}

  /** The free pages are pages of the region, and the counter agrees. */
  ghost predicate Accounts(free: set<nat>, used: nat, first: nat, total: nat) {
    free <= Pages(first, total) && used + |free| == total
  }

  /** Freeing allocated pages keeps the accounts exactly if they are pages of the region. */
  lemma GiveAccounts(free: set<nat>, used: nat, first: nat, total: nat, i: nat, n: nat)
    requires Accounts(free, used, first, total) && used < TWO64 && n > 0 && Pages(i, n) !! free
    ensures Accounts(free + Pages(i, n), Sub64(used, n), first, total) <==> first <= i && i + n <= first + total
    ensures first <= i && i + n <= first + total ==> Sub64(used, n) == used - n
  {
    GivenInside(free, i, n, first, total);
    if first <= i && i + n <= first + total {
      GiveRun(free, i, n, first, total);
      SubExact(used, n);
    }
  }

  lemma Contained(a: set<nat>, b: set<nat>)
    requires a <= b
    ensures |a| <= |b|
  {
    assert b == a + (b - a);
  }

  /** The requested alignment is a power-of-two number of pages, up to 1 GiB. */
  ghost predicate AlignOk(align: nat, page: nat)
    requires page > 0
  {
    align <= MAX_ALIGN && align % page == 0 && IsPow2(PageCount(align, page))
  }

  lemma BaseIsMultiple(base: nat, s: nat)
    requires base % MAX_ALIGN == 0 && Pow2(s) <= MAX_ALIGN
    ensures base % Pow2(s) == 0
  {
    var e := MaxAlignLog();
    Pow2Order(s, e);
    SmallerPow2Divides(base, s, e);
  }

  lemma AlignedParts(base: nat, idx: nat, page: nat, unit: nat, align: nat)
    requires page > 0 && unit > 0 && align == unit * page && align > 0 && base % align == 0 && idx % unit == 0
    ensures PageAddr(base, idx, page) % align == 0
  {
    ScaledMultiple(idx, unit, page);
    SumOfMultiples(base, idx * page, align);
  }

  /** An aligned index stands for an aligned address, because the base is a multiple of 1 GiB. */
  lemma IndexAlignsAddress(base: nat, idx: nat, pageLog: nat, k: nat, align: nat)
    requires base % MAX_ALIGN == 0 && idx % Pow2(k) == 0 && align == Pow2(k) * Pow2(pageLog) && align <= MAX_ALIGN
    ensures align > 0 && PageAddr(base, idx, Pow2(pageLog)) % align == 0
  {
    Pow2Sum(k, pageLog);
    BaseIsMultiple(base, k + pageLog);
    AlignedParts(base, idx, Pow2(pageLog), Pow2(k), align);
  }

  lemma RegionBounds(low: nat, begin: nat, end: nat, page: nat, idx: nat, pages: nat)
    requires page > 0 && low <= begin <= end && begin % page == 0 && end % page == 0
    requires idx * page == begin - low && pages == PageCount(end - begin, page)
    ensures PageAddr(low, idx, page) == begin && PageAddr(low, idx + pages, page) == end
  {
    DifferenceOfMultiples(end, begin, page);
    assert (idx + pages) * page == idx * page + pages * page;
  }

  lemma Unscale(i: nat, unit: nat, page: nat)
    requires page > 0 && unit > 0 && unit * page > 0 && i * page % (unit * page) == 0
    ensures i % unit == 0
  {
    var q := i * page / (unit * page);
    assert i * page == q * (unit * page) == q * unit * page;
    SameFactor(i, q * unit, page);
    Multiple(q, unit);
  }

  lemma SameFactor(a: nat, b: nat, m: nat)
    requires m > 0 && a * m == b * m
    ensures a == b
  {
    MulFar(a - b, m);
    assert (a - b) * m == a * m - b * m;
  }

  lemma TwoPow64IsMultiple(pageLog: nat)
    requires Pow2(pageLog) < TWO64
    ensures TWO64 % Pow2(pageLog) == 0
  {
    var w := Width();
    Pow2Order(pageLog, w);
    Pow2Sum(w - pageLog, pageLog);
    Multiple(Pow2(w - pageLog), Pow2(pageLog));
  }

  /** The wrapped distance of an aligned address to the base, in pages, leads back to the
      address, or to 2^64 past it. */
  lemma WrappedIndex(base: nat, addr: nat, page: nat, i: nat)
    requires page > 0 && base < TWO64 && addr < TWO64 && base % page == 0 && addr % page == 0 && TWO64 % page == 0
    requires i == PageCount(Sub64(addr, base), page)
    ensures PageAddr(base, i, page) == if addr >= base then addr else addr + TWO64
  {
    if addr >= base {
      DifferenceOfMultiples(addr, base, page);
    } else {
      SumOfMultiples(addr, TWO64, page);
      DifferenceOfMultiples(addr + TWO64, base, page);
      assert Sub64(addr, base) == addr + TWO64 - base;
    }
  }

  lemma WrapBack(base: nat, d: nat)
    requires base < TWO64 && d < TWO64
    ensures Sub64((base + d) % TWO64, base) == d
  {}

  /** Within one turn of the address space an index is found back from its wrapped address. */
  lemma IndexIsUnique(base: nat, i: nat, page: nat)
    requires page > 0 && base < TWO64 && PageAddr(base, i, page) < base + TWO64
    ensures PageCount(Sub64(PageAddr(base, i, page) % TWO64, base), page) == i
  {
    WrapBack(base, i * page);
    Multiple(i, page);
  }

  lemma WrappedMultiple(a: nat, m: nat)
    requires m > 0 && a % m == 0 && a < 2 * TWO64 && TWO64 % m == 0
    ensures a % TWO64 % m == 0
  {
    if a >= TWO64 { DifferenceOfMultiples(a, TWO64, m); }
  }

  lemma UnwrappedMultiple(a: nat, m: nat)
    requires m > 0 && a % TWO64 % m == 0 && a < 2 * TWO64 && TWO64 % m == 0
    ensures a % m == 0
  {
    if a >= TWO64 {
      assert a == a % TWO64 + TWO64;
      SumOfMultiples(a % TWO64, TWO64, m);
    }
  }

  lemma LaterPageIsAligned(base: nat, first: nat, idx: nat, page: nat)
    requires page > 0 && first <= idx && PageAddr(base, first, page) % page == 0
    ensures PageAddr(base, idx, page) % page == 0
  {
    Multiple(idx - first, page);
    assert (idx - first) * page == idx * page - first * page;
    SumOfMultiples(PageAddr(base, first, page), (idx - first) * page, page);
  }

  /** An accepted alignment is a power of two, a power-of-two number of pages. */
  lemma AlignIsPow2(align: nat, pageLog: nat) returns (k: nat)
    requires AlignOk(align, Pow2(pageLog))
    ensures PageCount(align, Pow2(pageLog)) == Pow2(k) && align == Pow2(k) * Pow2(pageLog) == Pow2(k + pageLog)
    ensures 0 < align < TWO64 && Pow2(pageLog) <= align
  {
    k :| k <= PageCount(align, Pow2(pageLog)) && PageCount(align, Pow2(pageLog)) == Pow2(k);
    DivMul(align, Pow2(pageLog));
    Pow2Sum(k, pageLog);
    MulOrder(1, Pow2(k), Pow2(pageLog));
  }

  lemma AlignedAddr(align: nat, addr: nat, pageLog: nat)
    requires AlignOk(align, Pow2(pageLog))
    ensures align > 0 && (IsAligned(addr, align) <==> addr % align == 0)
  {
    var k := AlignIsPow2(align, pageLog);
    AlignedIsMultiple(addr, k + pageLog);
  }

  lemma WrappedAddress(base: nat, addr: nat, align: nat, pageLog: nat, i: nat)
    requires base % MAX_ALIGN == 0 && AlignOk(align, Pow2(pageLog)) && align > 0 && addr % align == 0 && addr < TWO64
    requires i == PageCount(Sub64(addr, base), Pow2(pageLog)) && base < TWO64
    ensures PageAddr(base, i, Pow2(pageLog)) == if addr >= base then addr else addr + TWO64
    ensures PageAddr(base, i, Pow2(pageLog)) % TWO64 == addr
  {
    var k := AlignIsPow2(align, pageLog);
    var page := Pow2(pageLog);
    assert addr % page == 0 by { FactorDivides(addr, page, Pow2(k), align); }
    BaseIsMultiple(base, pageLog);
    TwoPow64IsMultiple(pageLog);
    WrappedIndex(base, addr, page, i);
  }

  lemma OnlyIndex(base: nat, addr: nat, align: nat, pageLog: nat, j: nat)
    requires base % MAX_ALIGN == 0 && AlignOk(align, Pow2(pageLog)) && align > 0 && addr % align == 0 && base < TWO64
    requires PageAddr(base, j, Pow2(pageLog)) % TWO64 == addr && PageAddr(base, j, Pow2(pageLog)) < base + TWO64
    ensures PageCount(Sub64(addr, base), Pow2(pageLog)) == j
    ensures PageCount(align, Pow2(pageLog)) > 0 && j % PageCount(align, Pow2(pageLog)) == 0
  {
    var k := AlignIsPow2(align, pageLog);
    IndexIsUnique(base, j, Pow2(pageLog));
    BaseIsMultiple(base, k + pageLog);
    TwoPow64IsMultiple(k + pageLog);
    UnwrappedMultiple(PageAddr(base, j, Pow2(pageLog)), align);
    IndexOfMultiple(base, PageAddr(base, j, Pow2(pageLog)), Pow2(pageLog), Pow2(k), align, j);
  }

  lemma IndexOfMultiple(base: nat, addr: nat, page: nat, unit: nat, align: nat, j: nat)
    requires page > 0 && unit > 0 && align == unit * page && align > 0 && base % align == 0 && addr % align == 0
    requires PageAddr(base, j, page) == addr
    ensures j % unit == 0
  {
    DifferenceOfMultiples(addr, base, align);
    Unscale(j, unit, page);
  }

  /** The wrapped distance between the rounded ends is the true one exactly if the range fits. */
  lemma RoundedDistance(start: nat, size: nat, from: nat, to: nat, page: nat)
    requires 0 < page < TWO64 && start < TWO64 && size < TWO64 && TWO64 % page == 0 && from < TWO64
    requires from % page == 0 && to % page == 0 && to <= (start + size) % TWO64 < to + page
    requires start + page - 1 < TWO64 ==> start <= from < start + page
    requires start + page - 1 >= TWO64 ==> from == 0
    ensures var past := from + Sub64(to, from);
            start <= from < start + page && past <= start + size < past + page <==>
            start + page - 1 < TWO64 && from <= start + size
  {
    if start + page - 1 < TWO64 {
      var floor := if start + size < TWO64 then to else to + TWO64;
      if start + size >= TWO64 { SumOfMultiples(to, TWO64, page); }
      if from <= start + size { NoMultipleBetween(floor, from, page); }
    }
  }

  lemma NoMultipleBetween(a: nat, b: nat, m: nat)
    requires m > 0 && a % m == 0 && b % m == 0 && b < a + m
    ensures b <= a
  {
    if a < b {
      DifferenceOfMultiples(b, a, m);
      MulFar(PageCount(b - a, m), m);
    }
  }

  // ---- The allocator ----

  class BitmapPageAllocator {
    const pageLog: nat                            // PAGE_SIZE is 2^pageLog
    const capacity: nat                           // of the bitmap type in use
    var base: nat
    var totalPages: nat
    var usedPages: nat
    var free: set<nat>                            // the bitmap's free indices
    ghost var first: nat                          // index of the first page
    ghost var begin: nat                          // the region, as addresses
    ghost var end: nat

    function PageSize(): nat { Pow2(pageLog) }

    /** The free pages are pages of the region, and the counters agree. */
    ghost predicate Valid() reads this {
      && PageSize() < TWO64 && base % MAX_ALIGN == 0 && first + totalPages <= capacity < TWO64
      && Accounts(free, usedPages, first, totalPages)
    }

    /** Where the pages of the region lie. The addresses in [begin, end) are meant modulo 2^64. */
    ghost predicate Placed() reads this {
      && PageAddr(base, first, PageSize()) == begin < TWO64 && PageAddr(base, first + totalPages, PageSize()) == end
      && begin % PageSize() == 0 && end % PageSize() == 0 && end < begin + TWO64
    }

    /** No two indices of the bitmap in use have the same address. */
    ghost predicate OneTurn() reads this { end <= base + TWO64 }

    constructor (pageLog: nat, capacity: nat)
      requires Pow2(pageLog) < TWO64 && capacity < TWO64
      ensures this.pageLog == pageLog && this.capacity == capacity
      ensures Valid() && totalPages == 0 && usedPages == 0 && free == {}
    {
      this.pageLog, this.capacity := pageLog, capacity;
      base, totalPages, usedPages, free, first, begin, end := 0, 0, 0, {}, 0, 0, 0;
      new;
    }

    /** The first page and the end of the last one, rounded inwards. */
    function Begin(start: nat): nat { AlignUp(start, PageSize()) }
    function End(start: nat, size: nat): nat { AlignDown((start + size) % TWO64, PageSize()) }

    /** The bitmap reaches from the 1 GiB boundary below the range to its end; `init` panics
        otherwise. (If the end index itself wraps, it is below the start index, and the bitmap
        refuses the range.) */
    predicate Admits(start: nat, size: nat) {
      && AlignDown(Begin(start), MAX_ALIGN) <= Begin(start)
      && PageCount(Begin(start) - AlignDown(Begin(start), MAX_ALIGN), PageSize())
         + PageCount(Sub64(End(start, size), Begin(start)), PageSize()) <= capacity
    }

    /** Rounding up does not wrap, and does not pass the end of the range. */
    predicate Fits(start: nat, size: nat) {
      start + PageSize() - 1 < TWO64 && Begin(start) <= start + size
    }

    /** The region is the largest page-aligned range inside [start, start + size). */
    ghost predicate Covers(start: nat, size: nat) reads this {
      start <= begin < start + PageSize() && end <= start + size < end + PageSize()
    }

    lemma RoundedBounds(start: nat, size: nat)
      requires PageSize() < TWO64 && start < TWO64
      ensures Begin(start) % PageSize() == 0 && Begin(start) < TWO64
      ensures start + PageSize() - 1 < TWO64 ==> start <= Begin(start) < start + PageSize()
      ensures start + PageSize() - 1 >= TWO64 ==> Begin(start) == 0
      ensures var sum := (start + size) % TWO64;
              End(start, size) % PageSize() == 0 && End(start, size) <= sum < End(start, size) + PageSize()
    {
      UpIsCeiling(start, pageLog);
      EndBounds((start + size) % TWO64);
    }

    lemma EndBounds(a: nat)
      requires PageSize() < TWO64 && a < TWO64
      ensures var d := AlignDown(a, PageSize()); d % PageSize() == 0 && d <= a < d + PageSize()
    {
      DownIsFloor(a, pageLog);
    }

    /** `init`. The region is what the range holds exactly if the range fits; otherwise the
        arithmetic wraps, and a bitmap that is large enough accepts pages that are not in it. */
    method Init(start: nat, size: nat) returns (ok: bool)
      requires Valid() && usedPages == 0 && free == {} && start < TWO64 && size < TWO64
      modifies this
      ensures ok == Admits(start, size)
      ensures ok ==> Valid() && Placed() && usedPages == 0 && free == Pages(first, totalPages)
      ensures ok ==> begin == Begin(start) && end % TWO64 == End(start, size)
      ensures ok ==> (Covers(start, size) <==> Fits(start, size))
      ensures ok && capacity * PageSize() <= TWO64 ==> OneTurn()
    {
      var from, to := Begin(start), End(start, size);
      RoundedBounds(start, size);
      ok := Place(from, to);
      if ok { CoversIffFits(start, size); }
    }

    /** Every bitmap accepts a range that starts after the last page boundary below 2^64 and ends
        before the first one above it, and the region is then at address 0. */
    lemma AcceptsAWrappedRange(start: nat, size: nat)
      requires PageSize() < TWO64 && start < TWO64 <= start + PageSize() - 1
      requires TWO64 <= start + size < TWO64 + PageSize()
      ensures Admits(start, size) && !Fits(start, size) && Begin(start) == 0
    {
      var sum := start + size - TWO64;
      ModUnique(start + size, TWO64, 1, sum);
      UpIsCeiling(start, pageLog);
      DownIsFloor(sum, pageLog);
      ModUnique(sum, PageSize(), 0, sum);
    }

    lemma CoversIffFits(start: nat, size: nat)
      requires PageSize() < TWO64 && start < TWO64 && size < TWO64
      requires begin == Begin(start) && end == begin + Sub64(End(start, size), begin)
      ensures Covers(start, size) <==> Fits(start, size)
    {
      RoundedBounds(start, size);
      TwoPow64IsMultiple(pageLog);
      RoundedDistance(start, size, begin, End(start, size), PageSize());
    }

    method Place(from: nat, to: nat) returns (ok: bool)
      requires usedPages == 0 && PageSize() < TWO64 && from < TWO64 && to < TWO64 && capacity < TWO64
      requires from % PageSize() == 0 && to % PageSize() == 0
      modifies this
      ensures var low := AlignDown(from, MAX_ALIGN);
              && low <= from
              && ok == (PageCount(from - low, PageSize()) + PageCount(Sub64(to, from), PageSize()) <= capacity)
      ensures ok ==> Valid() && Placed() && usedPages == 0 && free == Pages(first, totalPages)
      ensures ok ==> begin == from && end == from + Sub64(to, from) && end % TWO64 == to
      ensures ok && capacity * PageSize() <= TWO64 ==> OneTurn()
    {
      var low, idx := BaseOf(from);
      var pages := PageCount(Sub64(to, from), PageSize());
      ok := idx + pages <= capacity;
      if ok {
        ghost var past := WrappedEnd(from, to, PageSize());
        RegionBounds(low, from, past, PageSize(), idx, pages);
        MulOrder(idx + pages, capacity, PageSize());
        Install(low, idx, pages, from, past);
      }
    }

    lemma WrappedEnd(from: nat, to: nat, page: nat) returns (past: nat)
      requires page == PageSize() < TWO64 && from < TWO64 && to < TWO64 && from % page == 0 && to % page == 0
      ensures past == from + Sub64(to, from) && past % page == 0 && past % TWO64 == to
    {
      past := from + Sub64(to, from);
      if to < from {
        TwoPow64IsMultiple(pageLog);
        SumOfMultiples(to, TWO64, page);
      }
    }

    method Install(low: nat, idx: nat, pages: nat, ghost from: nat, ghost to: nat)
      requires usedPages == 0 && PageSize() < TWO64 && low % MAX_ALIGN == 0 && idx + pages <= capacity < TWO64
      requires PageAddr(low, idx, PageSize()) == from < TWO64 && PageAddr(low, idx + pages, PageSize()) == to
      requires from % PageSize() == 0 && to % PageSize() == 0 && to < from + TWO64
      modifies this
      ensures Valid() && Placed() && usedPages == 0 && free == Pages(first, totalPages)
      ensures base == low && begin == from && end == to
    {
      base, totalPages, first, begin, end := low, pages, idx, from, to;
      free := Indices(idx, pages);
      PagesCount(idx, pages);
    }

    /** The base below an aligned address: a multiple of 1 GiB, whole pages away. */
    method BaseOf(from: nat) returns (low: nat, idx: nat)
      requires PageSize() < TWO64 && from < TWO64 && from % PageSize() == 0
      ensures low == AlignDown(from, MAX_ALIGN) <= from && low % MAX_ALIGN == 0
      ensures idx == PageCount(from - low, PageSize()) && idx * PageSize() == from - low
    {
      low := AlignDown(from, MAX_ALIGN);
      var e := MaxAlignLog();
      DownIsFloor(from, e);
      if pageLog <= e {
        SmallerPow2Divides(low, pageLog, e);
      } else {
        SmallerPow2Divides(from, e, pageLog);
      }
      DifferenceOfMultiples(from, low, PageSize());
      idx := PageCount(from - low, PageSize());
    }

    /** The n pages from index idx on are handed out. */
    ghost predicate Took(idx: nat, n: nat, free0: set<nat>, used0: nat) reads this {
      && Pages(idx, n) <= free0 && free == free0 - Pages(idx, n) && usedPages == used0 + n
      && first <= idx && idx + n <= first + totalPages
    }

    method TakePages(idx: nat, n: nat)
      requires Valid() && FreeRun(free, idx, n) && n > 0
      modifies `free, `usedPages
      ensures Valid() && Took(idx, n, old(free), old(usedPages))
    {
      assert idx in free && idx + n - 1 in free;
      TakeRun(free, idx, n);
      var run := Indices(idx, n);
      free := free - run;
      usedPages := usedPages + n;
    }

    /** The bitmap's answer to `alloc` and `alloc_contiguous`: some free page, or some free run at
        a multiple of 2^k; none only if there is none. */
    method Search(n: nat, k: nat) returns (found: bool, idx: nat)
      requires Valid() && 0 < n <= |free|
      ensures found ==> FreeRun(free, idx, n) && (n > 1 ==> idx % Pow2(k) == 0)
      ensures !found ==> n > 1 && forall i: nat :: i % Pow2(k) == 0 ==> !FreeRun(free, i, n)
    {
      if n == 1 {
        assert free != {};
        idx :| idx in free;
        return true, idx;
      }
      if i :| 0 <= i <= capacity && i % Pow2(k) == 0 && FreeRun(free, i, n) { return true, i; }
      forall i: nat | i % Pow2(k) == 0 ensures !FreeRun(free, i, n) {
        assert FreeRun(free, i, n) ==> i in free;
      }
      return false, 0;
    }

    /** `alloc_pages` */
    method AllocPages(n: nat, align: nat) returns (r: Alloc, idx: nat)
      requires Valid() && Placed()
      modifies `free, `usedPages
      ensures Valid() && Placed()
      ensures r == InvalidParam <==> !AlignOk(align, PageSize()) || n == 0
      ensures r == NoMemory ==> n > |old(free)| || NoRun(old(free), n, align, PageSize())
      ensures !r.Ok? ==> free == old(free) && usedPages == old(usedPages)
      ensures r.Ok? ==> r.addr == PageAddr(base, idx, PageSize()) % TWO64 && Took(idx, n, old(free), old(usedPages))
      ensures r.Ok? && n > 1 ==> r.addr % align == 0
    {
      idx := 0;
      AlignedIsMultiple(align, pageLog);
      if align > MAX_ALIGN || !IsAligned(align, PageSize()) { return InvalidParam, idx; }
      var unit := PageCount(align, PageSize());
      if !IsPow2(unit) { return InvalidParam, idx; }
      if n > totalPages - usedPages { return NoMemory, idx; }
      if n == 0 { return InvalidParam, idx; }
      var k: nat :| k <= unit && unit == Pow2(k);
      DivMul(align, PageSize());
      var found, i := Search(n, k);
      if !found { return NoMemory, idx; }
      idx := i;
      r := TakeAt(i, n, k, align);
    }

    method TakeAt(idx: nat, n: nat, ghost k: nat, ghost align: nat) returns (r: Alloc)
      requires Valid() && Placed() && FreeRun(free, idx, n) && n > 0
      requires n > 1 ==> idx % Pow2(k) == 0 && AlignOk(align, PageSize()) && align == Pow2(k) * PageSize()
      modifies `free, `usedPages
      ensures Valid() && Placed() && Took(idx, n, old(free), old(usedPages))
      ensures r == Ok(PageAddr(base, idx, PageSize()) % TWO64) && (n > 1 ==> align > 0 && r.addr % align == 0)
    {
      assert idx in free;
      if n > 1 { AddressIsAligned(idx, k, align); }
      TakePages(idx, n);
      r := Ok(PageAddr(base, idx, PageSize()) % TWO64);
    }

    lemma AddressIsAligned(idx: nat, k: nat, align: nat)
      requires Valid() && Placed() && idx in free && idx % Pow2(k) == 0
      requires AlignOk(align, PageSize()) && align == Pow2(k) * PageSize()
      ensures align > 0 && PageAddr(base, idx, PageSize()) % TWO64 % align == 0
    {
      IndexAlignsAddress(base, idx, pageLog, k, align);
      Pow2Sum(k, pageLog);
      TwoPow64IsMultiple(k + pageLog);
      MulOrder(idx, first + totalPages, PageSize());
      WrappedMultiple(PageAddr(base, idx, PageSize()), align);
    }

    /** The index computed from the address of a page of the region is that page's. */
    lemma PageAtIndex(idx: nat)
      requires Valid() && Placed() && OneTurn() && first <= idx < first + totalPages
      ensures PageAddr(base, idx, PageSize()) % TWO64 % PageSize() == 0
      ensures PageCount(Sub64(PageAddr(base, idx, PageSize()) % TWO64, base), PageSize()) == idx
    {
      PageBelow(base, idx, first + totalPages, PageSize());
      IndexIsUnique(base, idx, PageSize());
      LaterPageIsAligned(base, first, idx, PageSize());
      TwoPow64IsMultiple(pageLog);
      WrappedMultiple(PageAddr(base, idx, PageSize()), PageSize());
    }

    /** The n pages from index i on are pages of the region. */
    ghost predicate RegionHas(i: nat, n: nat) reads this { first <= i && i + n <= first + totalPages }

    /** Page numbers fit 64 bits. */
    lemma CountsFit()
      requires Valid() && Placed()
      ensures usedPages < TWO64
    {}

    /** The bitmap's `dealloc` and `dealloc_contiguous`: all or nothing, with no regard to the
        region. The accounts hold afterwards exactly if the freed pages are pages of the region. */
    method GivePages(i: nat, n: nat) returns (r: Dealloc)
      requires Valid() && usedPages < TWO64
      modifies `free, `usedPages
      ensures r == if 0 < n && i + n <= capacity && Pages(i, n) !! old(free) then Freed else Ignored
      ensures r == Freed ==> free == old(free) + Pages(i, n) && usedPages == Sub64(old(usedPages), n)
      ensures r != Freed ==> free == old(free) && usedPages == old(usedPages)
      ensures Valid() <==> r != Freed || RegionHas(i, n)
      ensures r == Freed && Valid() ==> usedPages == old(usedPages) - n
    {
      var run := Indices(i, n);
      if n == 0 || i + n > capacity || !(run !! free) { return Ignored; }
      GiveAccounts(free, usedPages, first, totalPages, i, n);
      free := free + run;
      usedPages := Sub64(usedPages, n);
      r := Freed;
    }

    /** `dealloc_pages` for any address: the pages are freed if the bitmap takes all of them for
        allocated, which includes pages outside the region. */
    method DeallocPages(pos: nat, n: nat) returns (r: Dealloc)
      requires Valid() && Placed() && pos < TWO64
      modifies `free, `usedPages
      ensures Placed() && (r == Panics <==> pos % PageSize() != 0)
      ensures var i := PageCount(Sub64(pos, base), PageSize());
              && (r == Freed <==> r != Panics && 0 < n && i + n <= capacity && Pages(i, n) !! old(free))
              && (r == Freed ==> free == old(free) + Pages(i, n) && usedPages == Sub64(old(usedPages), n))
              && (Valid() <==> r != Freed || RegionHas(i, n))
      ensures r != Freed ==> free == old(free) && usedPages == old(usedPages)
      ensures r == Freed && Valid() ==> usedPages == old(usedPages) - n
    {
      AlignedIsMultiple(pos, pageLog);
      if !IsAligned(pos, PageSize()) { return Panics; }
      CountsFit();
      r := GivePages(PageCount(Sub64(pos, base), PageSize()), n);
    }

    /** `alloc_pages_at`: exactly the pages at `addr`, if they are free. Whether a request for no
        pages succeeds is up to the bitmap, and it takes none. */
    method AllocPagesAt(addr: nat, n: nat, align: nat, emptyFits: bool) returns (r: Alloc, idx: nat)
      requires Valid() && Placed() && addr < TWO64
      modifies `free, `usedPages
      ensures Valid() && Placed()
      ensures r == InvalidParam <==> !(AlignOk(align, PageSize()) && align > 0 && addr % align == 0)
      ensures !r.Ok? || n == 0 ==> free == old(free) && usedPages == old(usedPages)
      ensures r.Ok? ==> r.addr == addr
      ensures r.Ok? && n > 0 ==> addr == PageAddr(base, idx, PageSize()) % TWO64
      ensures r.Ok? && n > 0 ==> Took(idx, n, old(free), old(usedPages))
      ensures r == NoMemory && n > 0 ==> UnfreeAt(old(free), addr, n, base, PageSize())
    {
      idx := 0;
      var valid := ValidAt(addr, align);
      if !valid { return InvalidParam, idx; }
      idx := PageCount(Sub64(addr, base), PageSize());
      IndexWraps(addr, align, idx);
      if n == 0 {
        return if emptyFits then Ok(PageAddr(base, idx, PageSize()) % TWO64) else NoMemory, idx;
      }
      if idx % PageCount(align, PageSize()) == 0 && FreeRun(free, idx, n) {
        TakePages(idx, n);
        return Ok(PageAddr(base, idx, PageSize()) % TWO64), idx;
      }
      NotFreeAt(addr, align, n, idx);
      r := NoMemory;
    }

    /** The computed index leads back to the address, also when the subtraction wrapped. */
    lemma IndexWraps(addr: nat, align: nat, i: nat)
      requires Valid() && Placed() && i == PageCount(Sub64(addr, base), PageSize())
      requires AlignOk(align, PageSize()) && align > 0 && addr % align == 0 && addr < TWO64
      ensures PageAddr(base, i, PageSize()) % TWO64 == addr
    {
      WrappedAddress(base, addr, align, pageLog, i);
    }

    lemma NotFreeAt(addr: nat, align: nat, n: nat, i: nat)
      requires base % MAX_ALIGN == 0 && base < TWO64 && i == PageCount(Sub64(addr, base), PageSize())
      requires AlignOk(align, PageSize()) && align > 0 && addr % align == 0 && addr < TWO64
      requires PageCount(align, PageSize()) > 0 && !(i % PageCount(align, PageSize()) == 0 && FreeRun(free, i, n))
      ensures UnfreeAt(free, addr, n, base, PageSize())
    {
      forall j | AtAddress(base, j, PageSize(), addr) ensures !FreeRun(free, j, n) {
        OnlyIndex(base, addr, align, pageLog, j);
      }
    }

    /** The parameter checks of `alloc_pages_at`. */
    method ValidAt(addr: nat, align: nat) returns (ok: bool)
      requires PageSize() < TWO64
      ensures ok <==> AlignOk(align, PageSize()) && align > 0 && addr % align == 0
      ensures ok ==> PageCount(align, PageSize()) > 0
    {
      AlignedIsMultiple(align, pageLog);
      if AlignOk(align, PageSize()) { AlignedAddr(align, addr, pageLog); }
      if align > MAX_ALIGN || !IsAligned(align, PageSize()) || !IsAligned(addr, align) { return false; }
      ok := IsPow2(PageCount(align, PageSize()));
    }
  }

  /** Index i has this address, within one turn of the address space from the base. */
  ghost predicate AtAddress(base: nat, i: nat, page: nat, addr: nat) {
    PageAddr(base, i, page) < base + TWO64 && PageAddr(base, i, page) % TWO64 == addr
  }

  /** The n pages at `addr` are not all free. */
  ghost predicate UnfreeAt(free: set<nat>, addr: nat, n: nat, base: nat, page: nat) {
    forall i: nat {:trigger FreeRun(free, i, n)} :: AtAddress(base, i, page, addr) ==> !FreeRun(free, i, n)
  }

  /** No n free pages start at a multiple of the alignment. */
  ghost predicate NoRun(free: set<nat>, n: nat, align: nat, page: nat)
    requires page > 0
  {
    var unit := PageCount(align, page);
    unit > 0 && forall i: nat :: i % unit == 0 ==> !FreeRun(free, i, n)
  }

  lemma DivMul(a: nat, m: nat)
    requires m > 0 && a % m == 0
    ensures PageCount(a, m) * m == a
  {}

  lemma MulOrder(a: nat, b: nat, m: nat)
    requires a <= b
    ensures a * m <= b * m
  {}

  lemma PageBelow(base: nat, i: nat, j: nat, page: nat)
    requires i < j
    ensures PageAddr(base, i, page) + page <= PageAddr(base, j, page)
  {
    MulOrder(i + 1, j, page);
  }

  /** `BitAlloc::insert` */
  method Indices(idx: nat, n: nat) returns (r: set<nat>)
    ensures r == Pages(idx, n)
  {
    r := {};
    for i := 0 to n
      invariant r == Pages(idx, i)
    {
      r := r + {idx + i};
    }
  }

  // ---- Runs ----

  predicate Apart(a: Range, b: Range) { a.idx + a.n <= b.idx || b.idx + b.n <= a.idx }

  function Sum(live: seq<Range>): nat { if live == [] then 0 else Sum(live[..|live| - 1]) + live[|live| - 1].n }

  function Without(live: seq<Range>, k: nat): seq<Range>
    requires k < |live|
  {
    live[..k] + live[k + 1..]
  }

  lemma {:induction false} SumWithout(live: seq<Range>, k: nat)
    requires k < |live|
    ensures Sum(Without(live, k)) + live[k].n == Sum(live)
  {
    var init := live[..|live| - 1];
    if k < |init| {
      SumWithout(init, k);
      var rest := Without(live, k);
      assert rest[..|rest| - 1] == Without(init, k) && rest[|rest| - 1] == live[|live| - 1];
    } else {
      assert Without(live, k) == init;
    }
  }

  ghost predicate Owned(live: seq<Range>, x: nat) { exists i :: 0 <= i < |live| && live[i].Has(x) }

  /** The live allocations are non-empty, inside the region and pairwise apart. */
  ghost predicate Separate(live: seq<Range>, first: nat, total: nat) {
    && (forall i :: 0 <= i < |live| ==>
          live[i].n > 0 && first <= live[i].idx && live[i].idx + live[i].n <= first + total)
    && (forall i, j :: 0 <= i < j < |live| ==> Apart(live[i], live[j]))
  }

  /** A page of the region is free exactly when no live allocation owns it. */
  ghost predicate FreeIsUnowned(live: seq<Range>, free: set<nat>, first: nat, total: nat) {
    forall x: nat :: x in free <==> first <= x < first + total && !Owned(live, x)
  }

  lemma AddApart(live: seq<Range>, free: set<nat>, first: nat, total: nat, r: Range)
    requires Separate(live, first, total) && FreeIsUnowned(live, free, first, total)
    requires r.n > 0 && Pages(r.idx, r.n) <= free && first <= r.idx && r.idx + r.n <= first + total
    ensures Separate(live + [r], first, total)
  {
    forall i | 0 <= i < |live| ensures Apart(live[i], r) {
      var x := if live[i].idx < r.idx then r.idx else live[i].idx;
      assert live[i].Has(x) ==> Owned(live, x);
      assert x in Pages(r.idx, r.n) ==> x in free;
    }
  }

  lemma AddOwned(live: seq<Range>, r: Range, x: nat)
    ensures Owned(live + [r], x) <==> Owned(live, x) || r.Has(x)
  {
    var more := live + [r];
    assert more[|live|] == r;
    if Owned(live, x) {
      var i :| 0 <= i < |live| && live[i].Has(x);
      assert more[i] == live[i];
    }
  }

  lemma AddRange(live: seq<Range>, free: set<nat>, first: nat, total: nat, r: Range)
    requires Separate(live, first, total) && FreeIsUnowned(live, free, first, total)
    requires r.n > 0 && Pages(r.idx, r.n) <= free && first <= r.idx && r.idx + r.n <= first + total
    ensures Separate(live + [r], first, total) && FreeIsUnowned(live + [r], free - Pages(r.idx, r.n), first, total)
    ensures Sum(live + [r]) == Sum(live) + r.n
  {
    AddApart(live, free, first, total, r);
    assert (live + [r])[..|live|] == live;
    forall x: nat ensures x in free - Pages(r.idx, r.n) <==> first <= x < first + total && !Owned(live + [r], x) {
      AddOwned(live, r, x);
    }
  }

  lemma WithoutApart(live: seq<Range>, first: nat, total: nat, k: nat)
    requires Separate(live, first, total) && k < |live|
    ensures Separate(Without(live, k), first, total)
  {}

  lemma WithoutOwnsLess(live: seq<Range>, first: nat, total: nat, k: nat, x: nat)
    requires Separate(live, first, total) && k < |live| && Owned(Without(live, k), x)
    ensures Owned(live, x) && !live[k].Has(x)
  {
    var i :| 0 <= i < |Without(live, k)| && Without(live, k)[i].Has(x);
    var j := if i < k then i else i + 1;
    assert Without(live, k)[i] == live[j];
    if j < k { assert Apart(live[j], live[k]); } else { assert Apart(live[k], live[j]); }
  }

  /** The pages of a removed range belong to it alone. */
  lemma WithoutOwned(live: seq<Range>, first: nat, total: nat, k: nat, x: nat)
    requires Separate(live, first, total) && k < |live|
    ensures Owned(Without(live, k), x) <==> Owned(live, x) && !live[k].Has(x)
  {
    if Owned(Without(live, k), x) { WithoutOwnsLess(live, first, total, k, x); }
    if Owned(live, x) && !live[k].Has(x) {
      var i :| 0 <= i < |live| && live[i].Has(x);
      assert Without(live, k)[if i < k then i else i - 1] == live[i];
    }
  }

  lemma RemoveRange(live: seq<Range>, free: set<nat>, first: nat, total: nat, k: nat)
    requires Separate(live, first, total) && FreeIsUnowned(live, free, first, total) && k < |live|
    ensures Pages(live[k].idx, live[k].n) !! free
    ensures Separate(Without(live, k), first, total)
    ensures FreeIsUnowned(Without(live, k), free + Pages(live[k].idx, live[k].n), first, total)
  {
    var r := live[k];
    WithoutApart(live, first, total, k);
    forall x: nat
      ensures x in free + Pages(r.idx, r.n) <==> first <= x < first + total && !Owned(Without(live, k), x)
      ensures x in Pages(r.idx, r.n) ==> x !in free
    {
      WithoutOwned(live, first, total, k, x);
      assert r.Has(x) ==> Owned(live, x);
    }
  }

  datatype Call =
    | CallAlloc(n: nat, align: nat)
    | CallAllocAt(addr: nat, n: nat, align: nat, emptyFits: bool)
    | CallFree(k: nat)

  ghost predicate Accounted(a: BitmapPageAllocator, live: seq<Range>) reads a {
    && a.Valid() && a.Placed() && a.OneTurn() && a.usedPages == Sum(live)
    && Separate(live, a.first, a.totalPages) && FreeIsUnowned(live, a.free, a.first, a.totalPages)
  }

  method ServeAlloc(a: BitmapPageAllocator, n: nat, align: nat, live: seq<Range>) returns (live': seq<Range>)
    requires Accounted(a, live)
    modifies a`free, a`usedPages
    ensures Accounted(a, live')
  {
    var r, idx := a.AllocPages(n, align);
    live' := live;
    if r.Ok? {
      AddRange(live, old(a.free), a.first, a.totalPages, Range(idx, n));
      live' := live + [Range(idx, n)];
    }
  }

  method ServeAllocAt(a: BitmapPageAllocator, addr: nat, n: nat, align: nat, emptyFits: bool, live: seq<Range>)
    returns (live': seq<Range>)
    requires Accounted(a, live) && addr < TWO64
    modifies a`free, a`usedPages
    ensures Accounted(a, live')
  {
    var r, idx := a.AllocPagesAt(addr, n, align, emptyFits);
    live' := live;
    if r.Ok? && n > 0 {
      AddRange(live, old(a.free), a.first, a.totalPages, Range(idx, n));
      live' := live + [Range(idx, n)];
    }
  }

  method ServeFree(a: BitmapPageAllocator, k: nat, live: seq<Range>) returns (live': seq<Range>)
    requires Accounted(a, live) && k < |live|
    modifies a`free, a`usedPages
    ensures Accounted(a, live')
  {
    RemoveRange(live, a.free, a.first, a.totalPages, k);
    SumWithout(live, k);
    a.PageAtIndex(live[k].idx);
    var r := a.DeallocPages(PageAddr(a.base, live[k].idx, a.PageSize()) % TWO64, live[k].n);
    live' := Without(live, k);
  }

  /** Over every run of allocations and frees of live ranges on an initialised allocator, the live
      ranges are pairwise apart and inside the region, and `used_pages` is the sum of their
      sizes. */
  method Session(a: BitmapPageAllocator, calls: seq<Call>) returns (live: seq<Range>)
    requires a.Valid() && a.Placed() && a.OneTurn() && a.usedPages == 0 && a.free == Pages(a.first, a.totalPages)
    modifies a`free, a`usedPages
    ensures Accounted(a, live)
    ensures forall i, j :: 0 <= i < j < |live| ==> Apart(live[i], live[j])
    ensures forall i :: 0 <= i < |live| ==> InRegion(live[i], a.base, a.PageSize(), a.begin, a.end)
  {
    live := [];
    for c := 0 to |calls|
      invariant Accounted(a, live)
    {
      match calls[c] {
        case CallAlloc(n, align) => live := ServeAlloc(a, n, align, live);
        case CallAllocAt(addr, n, align, emptyFits) =>
          if addr < TWO64 { live := ServeAllocAt(a, addr, n, align, emptyFits, live); }
        case CallFree(k) =>
          if k < |live| { live := ServeFree(a, k, live); }
      }
    }
    forall i | 0 <= i < |live| ensures InRegion(live[i], a.base, a.PageSize(), a.begin, a.end) {
      Inside(live[i], a.base, a.PageSize(), a.first, a.totalPages);
    }
  }

  /** All bytes of the range lie in [begin, end). */
  ghost predicate InRegion(r: Range, base: nat, page: nat, begin: nat, end: nat) {
    begin <= PageAddr(base, r.idx, page) && PageAddr(base, r.idx + r.n, page) <= end
  }

  lemma Inside(r: Range, base: nat, page: nat, first: nat, total: nat)
    requires first <= r.idx && r.idx + r.n <= first + total
    ensures InRegion(r, base, page, PageAddr(base, first, page), PageAddr(base, first + total, page))
  {
    MulOrder(first, r.idx, page);
    MulOrder(r.idx + r.n, first + total, page);
  }

  /** Byte x of memory, as an address that need not be below 2^64, belongs to the range. */
  ghost predicate HasByte(r: Range, base: nat, page: nat, x: nat) {
    PageAddr(base, r.idx, page) <= x < PageAddr(base, r.idx + r.n, page)
  }

  /** Within one turn, ranges that are apart share no byte, and no two of their bytes have the same
      64-bit address. */
  lemma ApartInMemory(a: Range, b: Range, base: nat, page: nat, x: nat, y: nat)
    requires Apart(a, b) && HasByte(a, base, page, x) && HasByte(b, base, page, y)
    requires PageAddr(base, a.idx + a.n, page) <= base + TWO64 && PageAddr(base, b.idx + b.n, page) <= base + TWO64
    ensures x != y && x % TWO64 != y % TWO64
  {
    if a.idx + a.n <= b.idx {
      MulOrder(a.idx + a.n, b.idx, page);
      DifferInTurn(base, x, y);
    } else {
      MulOrder(b.idx + b.n, a.idx, page);
      DifferInTurn(base, y, x);
    }
  }

  lemma DifferInTurn(base: nat, x: nat, y: nat)
    requires base <= x < y < base + TWO64
    ensures x % TWO64 != y % TWO64
  {}

  /** Below the first page of the region lie pages that the bitmap has, down to the 1 GiB boundary.
      Freeing the lowest succeeds on every allocator whose region does not start at the boundary,
      and breaks the accounts. */
  method FreeingBelowTheRegion(a: BitmapPageAllocator) returns (r: Dealloc)
    requires a.Valid() && a.Placed() && a.first > 0 && a.PageSize() <= MAX_ALIGN
    modifies a`free, a`usedPages
    ensures r == Freed && !a.Valid() && a.free == old(a.free) + {0}
    ensures a.usedPages == if old(a.usedPages) == 0 then TWO64 - 1 else old(a.usedPages) - 1
  {
    BaseIsMultiple(a.base, a.pageLog);
    IndexZero(a.base, a.PageSize(), a.first, a.totalPages);
    a.CountsFit();
    r := a.DeallocPages(a.base, 1);
  }

  lemma IndexZero(base: nat, page: nat, first: nat, total: nat)
    requires page > 0 && first > 0
    ensures PageCount(Sub64(base, base), page) == 0 && Pages(0, 1) == {0} && 0 !in Pages(first, total)
  {}
}
