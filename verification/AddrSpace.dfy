/** Walks over the mapped areas of an address space: `can_access_range`, `populate_area`, and
    `check_region`, which relies on the first to make the second succeed. */
module AddrSpace {
  import Bits

  const PAGE_SIZE: nat := 4096
  const TWO64: nat := 0x1_0000_0000_0000_0000

  datatype Flag = READ | WRITE | EXECUTE | USER | DEVICE | UNCACHED

  datatype Area = Area(start: nat, end: nat, flags: set<Flag>) {
    predicate Has(a: nat) { start <= a < end }
  }

  /** The page boundaries around an address; `Bits.DownIsFloor` and `Bits.UpIsCeiling` tie the mask
      arithmetic to these. */
  function PageFloor(a: nat): nat { a / PAGE_SIZE * PAGE_SIZE }
  function PageCeil(a: nat): nat { PageFloor(a + PAGE_SIZE - 1) }

  /** The contract of the memory set: areas are non-empty, page-aligned, sorted and disjoint. */
  ghost predicate Sorted(areas: seq<Area>) {
    && (forall i :: 0 <= i < |areas| ==>
          && areas[i].start < areas[i].end < TWO64
          && areas[i].start % PAGE_SIZE == 0 && areas[i].end % PAGE_SIZE == 0)
    && (forall i, j :: 0 <= i < j < |areas| ==> areas[i].end <= areas[j].start)
  }

  ghost predicate Accessible(areas: seq<Area>, a: nat, flags: set<Flag>) {
    exists i :: 0 <= i < |areas| && areas[i].Has(a) && flags <= areas[i].flags
  }

  ghost predicate AllAccessible(areas: seq<Area>, lo: nat, hi: nat, flags: set<Flag>) {
    forall a :: lo <= a < hi ==> Accessible(areas, a, flags)
  }

  ghost predicate Mapped(areas: seq<Area>, a: nat) { exists i :: 0 <= i < |areas| && areas[i].Has(a) }

  ghost predicate AllMapped(areas: seq<Area>, lo: nat, hi: nat) {
    forall a :: lo <= a < hi ==> Mapped(areas, a)
  }

  function Max(a: nat, b: nat): nat { if a < b then b else a }
  function Min(a: nat, b: nat): nat { if a < b then a else b }

  /** True exactly when the range does not wrap and each of its addresses lies in an area with
      the flags. An empty range is judged by its first address. */
  method CanAccessRange(areas: seq<Area>, start: nat, size: nat, flags: set<Flag>) returns (ok: bool)
    requires Sorted(areas) && start < TWO64
    ensures ok <==> start + size < TWO64 && AllAccessible(areas, start, start + Max(size, 1), flags)
  {
    if start + size >= TWO64 { return false; }
    var cur, end := start, start + size;
    var i := 0;
    while i < |areas|
      invariant i <= |areas| && start <= cur && (cur < end || cur == start)
      invariant forall j :: 0 <= j < i ==> areas[j].end <= cur
      invariant AllAccessible(areas, start, cur, flags)
    {
      var area := areas[i];
      if area.end > cur {
        if area.start > cur {
          assert !Accessible(areas, cur, flags);
          return false;
        }
        if !(flags <= area.flags) {
          assert !Accessible(areas, cur, flags);
          return false;
        }
        forall a | cur <= a < area.end ensures Accessible(areas, a, flags) { assert areas[i].Has(a); }
        cur := area.end;
        if cur >= end { return true; }
      }
      i := i + 1;
    }
    assert !Accessible(areas, cur, flags);
    ok := false;
  }

  /** `MemorySet::find` */
  method Find(areas: seq<Area>, a: nat) returns (i: nat)
    requires Sorted(areas)
    ensures i <= |areas| && (i < |areas| ==> areas[i].Has(a)) && (i == |areas| ==> !Mapped(areas, a))
  {
    i := 0;
    while i < |areas| && !areas[i].Has(a)
      invariant i <= |areas| && forall j :: 0 <= j < i ==> !areas[j].Has(a)
    {
      i := i + 1;
    }
  }

  datatype Error = NoMemory | InvalidInput | BadAddress | Backend(code: nat)
  datatype Result = Ok | Err(error: Error)

  /** A call of the backend: which area populates which addresses. */
  datatype Call = Call(lo: nat, hi: nat, area: nat)

  /** The calls follow one another from lo to hi, each inside its own area. */
  ghost predicate Tiles(areas: seq<Area>, calls: seq<Call>, lo: nat, hi: nat) {
    if calls == [] then lo == hi
    else
      var c := calls[|calls| - 1];
      && c.area < |areas| && areas[c.area].start <= c.lo <= c.hi <= areas[c.area].end && c.hi == hi
      && Tiles(areas, calls[..|calls| - 1], lo, c.lo)
  }

  lemma TilesAppend(areas: seq<Area>, calls: seq<Call>, lo: nat, mid: nat, c: Call)
    requires Tiles(areas, calls, lo, mid) && c.lo == mid && c.area < |areas|
    requires areas[c.area].start <= c.lo <= c.hi <= areas[c.area].end
    ensures Tiles(areas, calls + [c], lo, c.hi)
  {
    assert (calls + [c])[..|calls|] == calls;
  }

  lemma {:induction false} TilesAreMapped(areas: seq<Area>, calls: seq<Call>, lo: nat, hi: nat)
    requires Tiles(areas, calls, lo, hi)
    ensures lo <= hi && AllMapped(areas, lo, hi)
  {
    if calls != [] {
      var c := calls[|calls| - 1];
      TilesAreMapped(areas, calls[..|calls| - 1], lo, c.lo);
      forall a | lo <= a < hi ensures Mapped(areas, a) {
        if a >= c.lo { assert areas[c.area].Has(a); }
      }
    }
  }

  datatype Space = Space(lo: nat, hi: nat, areas: seq<Area>)     // va_range and the memory set

  predicate ContainsRange(s: Space, start: nat, size: nat) { s.lo <= start < s.hi && s.hi - start >= size }

  function ValidateRegion(s: Space, start: nat, size: nat): Result {
    if !ContainsRange(s, start, size) then Err(NoMemory)
    else if start % PAGE_SIZE != 0 || size % PAGE_SIZE != 0 then Err(InvalidInput)
    else Ok
  }

  /** Address a is one of the space. */
  ghost predicate InSpace(s: Space, a: nat) { s.lo <= a < s.hi }

  /** The page boundaries are the nearest multiples of 4096 on either side. */
  lemma NearestPages(a: nat)
    ensures PageFloor(a) % 4096 == 0 && PageFloor(a) <= a < PageFloor(a) + 4096
    ensures PageCeil(a) % 4096 == 0 && a <= PageCeil(a) < a + 4096
  {}

  /** A range is contained exactly if its start and each of its bytes are addresses of the space. */
  lemma ContainsMeans(s: Space, start: nat, size: nat)
    ensures ContainsRange(s, start, size) <==>
              InSpace(s, start) && forall a {:trigger InSpace(s, a)} :: start <= a < start + size ==> InSpace(s, a)
  {
    if InSpace(s, start) && !ContainsRange(s, start, size) { assert !InSpace(s, s.hi); }
  }

  /** The region check accepts exactly whole pages of the space. */
  lemma ValidateMeans(s: Space, start: nat, size: nat)
    ensures ValidateRegion(s, start, size) == Ok <==>
              && InSpace(s, start) && start % 4096 == 0 && size % 4096 == 0
              && forall a {:trigger InSpace(s, a)} :: start <= a < start + size ==> InSpace(s, a)
    ensures ValidateRegion(s, start, size) == Err(InvalidInput) <==>
              && InSpace(s, start) && (start % 4096 != 0 || size % 4096 != 0)
              && forall a {:trigger InSpace(s, a)} :: start <= a < start + size ==> InSpace(s, a)
  {
    ContainsMeans(s, start, size);
  }

  ghost predicate ValidSpace(s: Space) {
    && s.lo <= s.hi < TWO64 && Sorted(s.areas)
    && forall i :: 0 <= i < |s.areas| ==> s.lo <= s.areas[i].start && s.areas[i].end <= s.hi
  }

  /** `populate_area`. `backend(k)` is the answer of the k-th backend call. On success the calls
      tile exactly the range; without a backend error it succeeds exactly when there is no hole. */
  method PopulateArea(s: Space, start: nat, size: nat, backend: nat -> Result) returns (r: Result, calls: seq<Call>)
    requires ValidSpace(s) && start < TWO64
    ensures ValidateRegion(s, start, size).Err? ==> r == ValidateRegion(s, start, size) && calls == []
    ensures ValidateRegion(s, start, size).Ok? && (forall k :: backend(k) == Ok) ==>
              r == if AllMapped(s.areas, start, start + size) then Ok else Err(NoMemory)
    ensures ValidateRegion(s, start, size).Ok? ==>
              exists hi: nat :: hi <= start + size && Tiles(s.areas, calls, start, hi)
    ensures r.Ok? && size > 0 ==> Tiles(s.areas, calls, start, start + size)
    ensures r.Err? && ValidateRegion(s, start, size).Ok? ==>
              || (r == Err(NoMemory) && !AllMapped(s.areas, start, start + size))
              || (calls != [] && r == backend(|calls| - 1))
    ensures forall k :: 0 <= k < |calls| - 1 ==> backend(k) == Ok
  {
    calls := [];
    r := ValidateRegion(s, start, size);
    if r.Err? { return; }
    var cur, end := start, start + size;
    ghost var hi := start;
    var i: nat := Find(s.areas, cur);
    while i < |s.areas|
      invariant i <= |s.areas| && (i < |s.areas| ==> s.areas[i].Has(cur)) && (i == |s.areas| ==> !Mapped(s.areas, cur))
      invariant (cur == start && calls == []) || cur < end
      invariant forall k :: 0 <= k < |calls| ==> backend(k) == Ok
      invariant start <= cur && (cur <= end ==> hi == cur) && hi <= end && Tiles(s.areas, calls, start, hi)
      decreases if cur < end then end - cur else 0
    {
      var area := s.areas[i];
      var c := Call(cur, Min(area.end, end), i);
      r := backend(|calls|);
      TilesAppend(s.areas, calls, start, cur, c);
      calls := calls + [c];
      hi := c.hi;
      if r.Err? { return; }
      cur := area.end;
      assert cur % PAGE_SIZE == 0;
      if cur >= end { break; }
      i := Find(s.areas, cur);
    }
    if cur < end {
      r := Err(NoMemory);
    } else {
      if calls != [] { TilesAreMapped(s.areas, calls, start, end); }
      r := Ok;
    }
  }

  lemma Rounds(start: nat, size: nat)
    ensures PageFloor(start) <= start && start + size <= PageCeil(start + size)
    ensures PageFloor(start) % PAGE_SIZE == 0 && PageCeil(start + size) % PAGE_SIZE == 0
    ensures (PageCeil(start + size) - PageFloor(start)) % PAGE_SIZE == 0
  {}

  /** Rounding does not leave an aligned range around the first and last address. */
  lemma RoundedInside(start: nat, size: nat, lo: nat, hi: nat)
    requires lo % PAGE_SIZE == 0 && hi % PAGE_SIZE == 0 && lo <= start && start + Max(size, 1) <= hi
    ensures lo <= PageFloor(start) && PageCeil(start + size) <= hi
  {
    assert lo / PAGE_SIZE <= start / PAGE_SIZE;
    assert (start + size + PAGE_SIZE - 1) / PAGE_SIZE <= hi / PAGE_SIZE;
  }

  /** The whole pages of an accessible range are mapped: each page lies in the area of one of its
      accessible addresses. */
  lemma RoundingStaysMapped(areas: seq<Area>, start: nat, size: nat, flags: set<Flag>)
    requires Sorted(areas) && AllAccessible(areas, start, start + Max(size, 1), flags)
    ensures AllMapped(areas, PageFloor(start), PageCeil(start + size))
  {
    forall a | PageFloor(start) <= a < PageCeil(start + size) ensures Mapped(areas, a) {
      var b := if a < start then start else if a < start + Max(size, 1) then a else start + Max(size, 1) - 1;
      assert Accessible(areas, b, flags);
      var i :| 0 <= i < |areas| && areas[i].Has(b);
      SamePage(areas[i], a, b, start, size);
      assert areas[i].Has(a);
    }
  }

  lemma SamePage(area: Area, a: nat, b: nat, start: nat, size: nat)
    requires area.start % PAGE_SIZE == 0 && area.end % PAGE_SIZE == 0 && area.Has(b)
    requires PageFloor(start) <= a < PageCeil(start + size)
    requires b == if a < start then start else if a < start + Max(size, 1) then a else start + Max(size, 1) - 1
    ensures area.Has(a)
  {
    if a < start {
      assert area.start / PAGE_SIZE <= start / PAGE_SIZE;
    } else if a > b {
      assert (start + size + PAGE_SIZE - 1) / PAGE_SIZE <= area.end / PAGE_SIZE;
    }
  }

  lemma InsideSpace(s: Space, start: nat, size: nat, flags: set<Flag>)
    requires ValidSpace(s) && AllAccessible(s.areas, start, start + Max(size, 1), flags)
    ensures PageFloor(start) <= PageCeil(start + size)
    ensures ValidateRegion(s, PageFloor(start), PageCeil(start + size) - PageFloor(start)) == Ok
  {
    var last := start + Max(size, 1) - 1;
    assert Accessible(s.areas, start, flags) && Accessible(s.areas, last, flags);
    var i :| 0 <= i < |s.areas| && s.areas[i].Has(start);
    var j :| 0 <= j < |s.areas| && s.areas[j].Has(last);
    Rounds(start, size);
    RoundedInside(start, size, s.areas[i].start, s.areas[j].end);
  }

  /** `check_region`: once the range is found accessible, populating its pages meets no hole, so
      the only further error is one of the backend's. A layout's alignment is a power of two. */
  method CheckRegion(s: Space, start: nat, alignLog: nat, size: nat, flags: set<Flag>, backend: nat -> Result)
    returns (r: Result)
    requires ValidSpace(s) && start < TWO64 && Bits.Pow2(alignLog) < TWO64
    ensures var accepted := && start % Bits.Pow2(alignLog) == 0 && start + size < TWO64
                            && AllAccessible(s.areas, start, start + Max(size, 1), flags);
            if accepted then (r == Ok || exists k :: r == backend(k)) && ((forall k :: backend(k) == Ok) ==> r == Ok)
            else r == Err(BadAddress)
  {
    Bits.AlignedIsMultiple(start, alignLog);
    if !Bits.IsAligned(start, Bits.Pow2(alignLog)) { return Err(BadAddress); }
    var ok := CanAccessRange(s.areas, start, size, flags);
    if !ok { return Err(BadAddress); }
    InsideSpace(s, start, size, flags);
    RoundingStaysMapped(s.areas, start, size, flags);
    var pageStart, pageEnd := PageFloor(start), PageCeil(start + size);
    var populated, _ := PopulateArea(s, pageStart, pageEnd - pageStart, backend);
    r := populated;
  }
}
