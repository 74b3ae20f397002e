/** `process_area_data` and the kernel-side `read` and `write` of user memory: a walk over the
    4 KiB pages of a range, translating each page and copying its part. Memory is compared with a
    byte-by-byte reference. */
module PageWalk {
  import opened A = AddrSpace

  type Byte = bv8

  /** What the page table answers for each 4 KiB page it maps. */
  type PageTable = map<nat, nat>

  datatype Segment = Segment(paddr: nat, at: nat, len: nat)

  predicate Translated(pt: PageTable, a: nat) { PageFloor(a) in pt }

  function Translate(pt: PageTable, a: nat): nat
    requires Translated(pt, a)
  {
    pt[PageFloor(a)] + a % PAGE_SIZE
  }

  /** A page's bytes keep their order and their offset in the page. */
  lemma TranslationKeepsOffsets(pt: PageTable, a: nat, b: nat)
    requires Translated(pt, a) && PageFloor(a) == PageFloor(b) && a <= b
    ensures Translated(pt, b) && Translate(pt, b) == Translate(pt, a) + (b - a)
    ensures a % 4096 == 0 ==> Translate(pt, a) == pt[a]
  {
    NearestPages(a);
    NearestPages(b);
  }

  ghost predicate PageTranslated(pt: PageTable, p: nat) { p % PAGE_SIZE == 0 ==> p in pt }

  /** Every page that the walk over [start, start + size) asks for is mapped. */
  ghost predicate AllTranslated(pt: PageTable, start: nat, size: nat) {
    forall p {:trigger PageTranslated(pt, p)} ::
      PageFloor(start) <= p < PageCeil(start + size) ==> PageTranslated(pt, p)
  }

  /** One segment: consecutive bytes of a single page, at their translated address. */
  ghost predicate InPage(pt: PageTable, start: nat, s: Segment) {
    && s.len > 0 && PageFloor(start + s.at) == PageFloor(start + s.at + s.len - 1)
    && Translated(pt, start + s.at) && s.paddr == Translate(pt, start + s.at)
  }

  /** The segments are consecutive and cover the first n bytes. */
  ghost predicate Visits(pt: PageTable, segments: seq<Segment>, start: nat, n: nat) {
    if segments == [] then n == 0
    else
      var s := segments[|segments| - 1];
      InPage(pt, start, s) && s.at + s.len == n && Visits(pt, segments[..|segments| - 1], start, s.at)
  }

  lemma VisitsAppend(pt: PageTable, segments: seq<Segment>, start: nat, s: Segment)
    requires Visits(pt, segments, start, s.at) && InPage(pt, start, s)
    ensures Visits(pt, segments + [s], start, s.at + s.len)
  {
    assert (segments + [s])[..|segments|] == segments;
  }

  lemma ByteOfSegment(pt: PageTable, start: nat, s: Segment, i: nat)
    requires InPage(pt, start, s) && s.at <= i < s.at + s.len
    ensures Translated(pt, start + i) && Translate(pt, start + i) == s.paddr + (i - s.at)
  {
    assert PageFloor(start + i) == PageFloor(start + s.at);
  }

  /** Each byte is handled at the translation of its own address, by the segment around it. */
  lemma {:induction false} EveryByteVisited(pt: PageTable, segments: seq<Segment>, start: nat, n: nat, i: nat)
    requires Visits(pt, segments, start, n) && i < n
    ensures Translated(pt, start + i)
    ensures exists k :: 0 <= k < |segments| && segments[k].at <= i < segments[k].at + segments[k].len
                     && Translate(pt, start + i) == segments[k].paddr + (i - segments[k].at)
  {
    var s, init := segments[|segments| - 1], segments[..|segments| - 1];
    if i < s.at {
      EveryByteVisited(pt, init, start, s.at, i);
      var k :| 0 <= k < |init| && init[k].at <= i < init[k].at + init[k].len
               && Translate(pt, start + i) == init[k].paddr + (i - init[k].at);
      assert segments[k] == init[k];
    } else {
      ByteOfSegment(pt, start, s, i);
    }
  }

  /** The number of bytes handled when the walk reaches page `vaddr`. */
  function Before(start: nat, size: nat, vaddr: nat): nat { if vaddr <= start then 0 else Min(size, vaddr - start) }

  lemma OffsetInPage(start: nat, vaddr: nat)
    requires vaddr % PAGE_SIZE == 0 && PageFloor(start) <= vaddr
    ensures vaddr <= start ==> vaddr == PageFloor(start) && start - vaddr == start % PAGE_SIZE
    ensures vaddr > start ==> vaddr != PageFloor(start)
  {}

  lemma SegmentInPage(pt: PageTable, start: nat, vaddr: nat, s: Segment)
    requires vaddr % PAGE_SIZE == 0 && vaddr in pt && s.len > 0
    requires vaddr <= start + s.at && start + s.at + s.len <= vaddr + PAGE_SIZE
    requires s.paddr == pt[vaddr] + (start + s.at - vaddr)
    ensures InPage(pt, start, s)
  {
    assert PageFloor(start + s.at) == vaddr && (start + s.at) % PAGE_SIZE == start + s.at - vaddr;
    assert PageFloor(start + s.at + s.len - 1) == vaddr;
  }

  /** What one page contributes: the first page from the offset of `start` on. */
  method PagePart(pt: PageTable, start: nat, size: nat, vaddr: nat, cnt: nat) returns (s: Segment)
    requires vaddr % PAGE_SIZE == 0 && vaddr in pt && PageFloor(start) <= vaddr
    requires cnt == Before(start, size, vaddr) < size
    ensures InPage(pt, start, s) && s.at == cnt && cnt + s.len == Before(start, size, vaddr + PAGE_SIZE)
  {
    OffsetInPage(start, vaddr);
    var paddr, copySize := pt[vaddr], Min(size - cnt, PAGE_SIZE);
    if vaddr == PageFloor(start) && start % PAGE_SIZE != 0 {
      copySize := Min(copySize, PAGE_SIZE - start % PAGE_SIZE);
      paddr := paddr + start % PAGE_SIZE;
    }
    s := Segment(paddr, cnt, copySize);
    SegmentInPage(pt, start, vaddr, s);
  }

  /** `process_area_data`. The page table is asked before the empty rest is noticed, so even an
      empty range needs its page if it starts inside one. */
  method Walk(space: Space, pt: PageTable, start: nat, size: nat)
    returns (r: Result, segments: seq<Segment>, ghost n: nat)
    ensures !ContainsRange(space, start, size) ==> r == Err(InvalidInput) && n == 0
    ensures ContainsRange(space, start, size) ==> r == if AllTranslated(pt, start, size) then Ok else Err(BadAddress)
    ensures Visits(pt, segments, start, n) && n <= size && (r.Ok? ==> n == size)
    ensures r == Err(BadAddress) ==> !Translated(pt, start + n)
    ensures forall a {:trigger InSpace(space, a)} :: start <= a < start + n ==> InSpace(space, a)
  {
    segments, n := [], 0;
    ContainsMeans(space, start, size);
    if !ContainsRange(space, start, size) { return Err(InvalidInput), segments, n; }
    var vaddr, endUp, cnt := PageFloor(start), PageCeil(start + size), 0;
    Rounds(start, size);
    while vaddr < endUp
      invariant vaddr % PAGE_SIZE == 0 && PageFloor(start) <= vaddr <= endUp
      invariant cnt == n == Before(start, size, vaddr)
      invariant Visits(pt, segments, start, n)
      invariant forall p {:trigger PageTranslated(pt, p)} :: PageFloor(start) <= p < vaddr ==> PageTranslated(pt, p)
    {
      if vaddr !in pt {
        assert !PageTranslated(pt, vaddr);
        LastQueried(start, size, vaddr);
        return Err(BadAddress), segments, n;
      }
      if size - cnt == 0 {
        OnlyPage(pt, start, size, vaddr);
        break;
      }
      var s := PagePart(pt, start, size, vaddr, cnt);
      VisitsAppend(pt, segments, start, s);
      segments := segments + [s];
      cnt := cnt + s.len;
      n := cnt;
      NextPage(pt, vaddr, endUp);
      vaddr := vaddr + PAGE_SIZE;
    }
    r := Ok;
  }

  lemma NextPage(pt: PageTable, vaddr: nat, endUp: nat)
    requires vaddr % PAGE_SIZE == 0 && endUp % PAGE_SIZE == 0 && vaddr < endUp && vaddr in pt
    ensures vaddr + PAGE_SIZE <= endUp && (vaddr + PAGE_SIZE) % PAGE_SIZE == 0
    ensures forall p :: vaddr <= p < vaddr + PAGE_SIZE ==> PageTranslated(pt, p)
  {
    forall p | vaddr <= p < vaddr + PAGE_SIZE ensures PageTranslated(pt, p) {
      if p % PAGE_SIZE == 0 { assert p == vaddr; }
    }
  }

  /** The first byte not yet handled lies in the page being asked for. */
  lemma LastQueried(start: nat, size: nat, vaddr: nat)
    requires vaddr % PAGE_SIZE == 0 && PageFloor(start) <= vaddr < PageCeil(start + size)
    ensures PageFloor(start + Before(start, size, vaddr)) == vaddr
  {
    OffsetInPage(start, vaddr);
    if vaddr > start { assert vaddr < start + size; }
  }

  /** Nothing is left to copy only when the range is empty, and then this is its one page. */
  lemma OnlyPage(pt: PageTable, start: nat, size: nat, vaddr: nat)
    requires vaddr % PAGE_SIZE == 0 && PageFloor(start) <= vaddr < PageCeil(start + size) && vaddr in pt
    requires size == Before(start, size, vaddr)
    ensures size == 0 && AllTranslated(pt, start, size)
  {
    assert size > 0 && vaddr > start ==> vaddr < start + size;
    forall p | PageFloor(start) <= p < PageCeil(start + size) ensures PageTranslated(pt, p) {
      if p % PAGE_SIZE == 0 { assert p == vaddr; }
    }
  }

  // ---- Copying ----

  function Covered(segments: seq<Segment>, k: nat): nat
    requires k <= |segments|
  {
    if k == 0 then 0 else segments[k - 1].at + segments[k - 1].len
  }

  lemma {:induction false} SegmentAt(pt: PageTable, segments: seq<Segment>, start: nat, n: nat, k: nat)
    requires Visits(pt, segments, start, n) && k < |segments|
    ensures InPage(pt, start, segments[k]) && segments[k].at == Covered(segments, k) && Covered(segments, k + 1) <= n
    ensures Covered(segments, |segments|) == n
  {
    var init, last := segments[..|segments| - 1], segments[|segments| - 1];
    if k < |init| {
      SegmentAt(pt, init, start, last.at, k);
      assert init[k] == segments[k];
    } else if init != [] {
      SegmentAt(pt, init, start, last.at, |init| - 1);
      assert init[|init| - 1] == segments[|init| - 1];
    }
  }

  /** The page table maps into memory of the given size. */
  ghost predicate Maps(pt: PageTable, size: nat) { forall p :: p in pt ==> pt[p] + PAGE_SIZE <= size }

  /** Byte i of the range is mapped, and where. */
  predicate HasByte(pt: PageTable, start: nat, i: nat) { Translated(pt, start + i) }

  function Place(pt: PageTable, start: nat, i: nat): nat
    requires HasByte(pt, start, i)
  {
    Translate(pt, start + i)
  }

  ghost predicate Reachable(pt: PageTable, start: nat, n: nat) {
    forall i :: 0 <= i < n ==> HasByte(pt, start, i)
  }

  lemma PlaceInside(pt: PageTable, start: nat, i: nat, size: nat)
    requires Maps(pt, size) && HasByte(pt, start, i)
    ensures Place(pt, start, i) < size
  {}

  /** The reference: one byte after the other, each to the translation of its address. */
  ghost function Written(mem: seq<Byte>, pt: PageTable, start: nat, bytes: seq<Byte>): (r: seq<Byte>)
    requires Maps(pt, |mem|) && Reachable(pt, start, |bytes|)
    ensures |r| == |mem|
  {
    if bytes == [] then mem
    else
      var last := |bytes| - 1;
      assert HasByte(pt, start, last);
      PlaceInside(pt, start, last, |mem|);
      Written(mem, pt, start, bytes[..last])[Place(pt, start, last) := bytes[last]]
  }

  lemma WrittenNext(mem: seq<Byte>, pt: PageTable, start: nat, bytes: seq<Byte>, k: nat)
    requires Maps(pt, |mem|) && Reachable(pt, start, k + 1) && k < |bytes|
    ensures HasByte(pt, start, k) && Place(pt, start, k) < |mem|
    ensures Written(mem, pt, start, bytes[..k + 1]) ==
              Written(mem, pt, start, bytes[..k])[Place(pt, start, k) := bytes[k]]
  {
    PlaceInside(pt, start, k, |mem|);
    assert bytes[..k + 1][..k] == bytes[..k];
  }

  /** Bytes [0, n) of the buffer are what memory holds at their places. */
  ghost predicate Fetched(mem: seq<Byte>, pt: PageTable, start: nat, n: nat, buf: seq<Byte>) {
    && Maps(pt, |mem|) && Reachable(pt, start, n) && n <= |buf|
    && forall i :: 0 <= i < n ==> FetchedByte(mem, pt, start, i, buf)
  }

  ghost predicate FetchedByte(mem: seq<Byte>, pt: PageTable, start: nat, i: nat, buf: seq<Byte>) {
    i < |buf| && HasByte(pt, start, i) && Place(pt, start, i) < |mem| && buf[i] == mem[Place(pt, start, i)]
  }

  lemma VisitedIsReachable(pt: PageTable, segments: seq<Segment>, start: nat, n: nat)
    requires Visits(pt, segments, start, n)
    ensures Reachable(pt, start, n)
  {
    forall i | 0 <= i < n ensures HasByte(pt, start, i) { EveryByteVisited(pt, segments, start, n, i); }
  }

  method CopyIn(mem: array<Byte>, pt: PageTable, start: nat, bytes: seq<Byte>, s: Segment, ghost was: seq<Byte>)
    requires Maps(pt, |was|) && |was| == mem.Length && Reachable(pt, start, s.at + s.len)
    requires InPage(pt, start, s) && s.at + s.len <= |bytes| && mem[..] == Written(was, pt, start, bytes[..s.at])
    modifies mem
    ensures mem[..] == Written(was, pt, start, bytes[..s.at + s.len])
  {
    for j := 0 to s.len
      invariant mem[..] == Written(was, pt, start, bytes[..s.at + j])
    {
      ghost var before := mem[..];
      ByteOfSegment(pt, start, s, s.at + j);
      WrittenNext(was, pt, start, bytes, s.at + j);
      mem[s.paddr + j] := bytes[s.at + j];
      assert mem[..] == before[s.paddr + j := bytes[s.at + j]];
    }
  }

  /** `write`: the reference for the bytes before the first page that is not mapped. */
  method Write(space: Space, pt: PageTable, mem: array<Byte>, start: nat, bytes: seq<Byte>)
    returns (r: Result, ghost n: nat)
    requires Maps(pt, mem.Length)
    modifies mem
    ensures !ContainsRange(space, start, |bytes|) ==> r == Err(InvalidInput) && n == 0
    ensures ContainsRange(space, start, |bytes|) ==>
              r == if AllTranslated(pt, start, |bytes|) then Ok else Err(BadAddress)
    ensures n <= |bytes| && (r.Ok? ==> n == |bytes|) && (r == Err(BadAddress) ==> !HasByte(pt, start, n))
    ensures Reachable(pt, start, n) && mem[..] == Written(old(mem[..]), pt, start, bytes[..n])
    ensures forall a {:trigger InSpace(space, a)} :: start <= a < start + n ==> InSpace(space, a)
  {
    var segments;
    r, segments, n := Walk(space, pt, start, |bytes|);
    CopyAllIn(mem, pt, start, bytes, segments, n);
  }

  method CopyAllIn(mem: array<Byte>, pt: PageTable, start: nat, bytes: seq<Byte>, segments: seq<Segment>, ghost n: nat)
    requires Maps(pt, mem.Length) && Visits(pt, segments, start, n) && n <= |bytes|
    modifies mem
    ensures Reachable(pt, start, n) && mem[..] == Written(old(mem[..]), pt, start, bytes[..n])
  {
    VisitedIsReachable(pt, segments, start, n);
    for k := 0 to |segments|
      invariant Covered(segments, k) <= n && mem[..] == Written(old(mem[..]), pt, start, bytes[..Covered(segments, k)])
    {
      SegmentAt(pt, segments, start, n, k);
      CopyIn(mem, pt, start, bytes, segments[k], old(mem[..]));
    }
    if segments != [] { SegmentAt(pt, segments, start, n, 0); }
  }

  method CopyOut(mem: array<Byte>, pt: PageTable, start: nat, buf: array<Byte>, s: Segment)
    requires Maps(pt, mem.Length) && buf != mem && InPage(pt, start, s) && s.at + s.len <= buf.Length
    requires Fetched(mem[..], pt, start, s.at, buf[..])
    modifies buf
    ensures Fetched(mem[..], pt, start, s.at + s.len, buf[..]) && buf[s.at + s.len..] == old(buf[s.at + s.len..])
  {
    for j := 0 to s.len
      invariant Fetched(mem[..], pt, start, s.at + j, buf[..]) && buf[s.at + j..] == old(buf[s.at + j..])
    {
      ghost var before := buf[..];
      ByteOfSegment(pt, start, s, s.at + j);
      assert HasByte(pt, start, s.at + j) && Place(pt, start, s.at + j) == s.paddr + j;
      PlaceInside(pt, start, s.at + j, mem.Length);
      buf[s.at + j] := mem[s.paddr + j];
      forall i | 0 <= i < s.at + j + 1 ensures FetchedByte(mem[..], pt, start, i, buf[..]) {
        if i < s.at + j { assert FetchedByte(mem[..], pt, start, i, before); }
      }
    }
  }

  /** `read` */
  method Read(space: Space, pt: PageTable, mem: array<Byte>, start: nat, buf: array<Byte>)
    returns (r: Result, ghost n: nat)
    requires Maps(pt, mem.Length) && buf != mem
    modifies buf
    ensures !ContainsRange(space, start, buf.Length) ==> r == Err(InvalidInput) && n == 0
    ensures ContainsRange(space, start, buf.Length) ==>
              r == if AllTranslated(pt, start, buf.Length) then Ok else Err(BadAddress)
    ensures n <= buf.Length && (r.Ok? ==> n == buf.Length) && (r == Err(BadAddress) ==> !HasByte(pt, start, n))
    ensures Fetched(mem[..], pt, start, n, buf[..]) && buf[n..] == old(buf[n..])
    ensures forall a {:trigger InSpace(space, a)} :: start <= a < start + n ==> InSpace(space, a)
  {
    var segments;
    r, segments, n := Walk(space, pt, start, buf.Length);
    CopyAllOut(mem, pt, start, buf, segments, n);
  }

  method CopyAllOut(mem: array<Byte>, pt: PageTable, start: nat, buf: array<Byte>, segments: seq<Segment>, ghost n: nat)
    requires Maps(pt, mem.Length) && buf != mem && Visits(pt, segments, start, n) && n <= buf.Length
    modifies buf
    ensures Fetched(mem[..], pt, start, n, buf[..]) && buf[n..] == old(buf[n..])
  {
    ghost var was := buf[..];
    for k := 0 to |segments|
      invariant Covered(segments, k) <= n && Fetched(mem[..], pt, start, Covered(segments, k), buf[..])
      invariant buf[Covered(segments, k)..] == was[Covered(segments, k)..]
    {
      SegmentAt(pt, segments, start, n, k);
      ghost var c, d := Covered(segments, k), Covered(segments, k + 1);
      CopyOut(mem, pt, start, buf, segments[k]);
      assert was[d..] == was[c..][d - c..];
    }
    if segments != [] { SegmentAt(pt, segments, start, n, 0); }
  }

  /** No two addresses of the range share a byte of memory. */
  ghost predicate Injective(pt: PageTable, start: nat, n: nat)
    requires Reachable(pt, start, n)
  {
    forall i, j :: 0 <= i < j < n ==> Place(pt, start, i) != Place(pt, start, j)
  }

  lemma {:induction false} WrittenByte(mem: seq<Byte>, pt: PageTable, start: nat, bytes: seq<Byte>, i: nat)
    requires Maps(pt, |mem|) && Reachable(pt, start, |bytes|) && Injective(pt, start, |bytes|) && i < |bytes|
    ensures HasByte(pt, start, i) && Place(pt, start, i) < |mem|
    ensures Written(mem, pt, start, bytes)[Place(pt, start, i)] == bytes[i]
    decreases |bytes|
  {
    PlaceInside(pt, start, i, |mem|);
    var init := bytes[..|bytes| - 1];
    if i < |init| {
      WrittenByte(mem, pt, start, init, i);
      assert HasByte(pt, start, |init|);
      assert Place(pt, start, i) != Place(pt, start, |init|);
    }
  }

  /** Written bytes are read back where translation is injective: whatever a later successful
      read of the range fetches is what was written. */
  lemma WrittenIsFetched(mem: seq<Byte>, pt: PageTable, start: nat, bytes: seq<Byte>, buf: seq<Byte>)
    requires Maps(pt, |mem|) && Reachable(pt, start, |bytes|) && Injective(pt, start, |bytes|)
    requires |buf| == |bytes| && Fetched(Written(mem, pt, start, bytes), pt, start, |bytes|, buf)
    ensures buf == bytes
  {
    forall i | 0 <= i < |bytes| ensures buf[i] == bytes[i] {
      WrittenByte(mem, pt, start, bytes, i);
      assert FetchedByte(Written(mem, pt, start, bytes), pt, start, i, buf);
    }
  }

  /** A write changes no memory outside the translation of its range. */
  lemma {:induction false} WrittenElsewhere(mem: seq<Byte>, pt: PageTable, start: nat, bytes: seq<Byte>, p: nat)
    requires Maps(pt, |mem|) && Reachable(pt, start, |bytes|) && p < |mem|
    requires forall i :: 0 <= i < |bytes| ==> Place(pt, start, i) != p
    ensures Written(mem, pt, start, bytes)[p] == mem[p]
    decreases |bytes|
  {
    if bytes != [] {
      WrittenElsewhere(mem, pt, start, bytes[..|bytes| - 1], p);
      assert HasByte(pt, start, |bytes| - 1) && Place(pt, start, |bytes| - 1) != p;
    }
  }
}
