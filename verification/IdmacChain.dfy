/** The chained descriptor list of an IDMAC transfer: how `prepare_idmac_transfer` lays it out in
    coherent memory as 32-bit words, and what the controller transfers when it walks the list
    from DBADDR. */
module IdmacChain {

  const TWO32: nat := 0x1_0000_0000
  type u32 = x: nat | x < 0x1_0000_0000 witness 0

  const DMA_BUFFER_SIZE: nat := 32 * 512
  const SEGMENT: nat := 8 * 512          // IDMAC_DESCRIPTOR_BUFFER_SIZE
  const DESCRIPTOR_BYTES: nat := 16

  /** One descriptor as it stands in memory. */
  datatype Descriptor = Descriptor(des0: u32, des1: u32, des2: u32, des3: u32) {
    predicate Own() { des0 / 0x8000_0000 % 2 == 1 }
    predicate CardError() { des0 / 0x4000_0000 % 2 == 1 }
    predicate EndOfRing() { des0 / 32 % 2 == 1 }
    predicate Chained() { des0 / 16 % 2 == 1 }
    predicate First() { des0 / 8 % 2 == 1 }
    predicate Last() { des0 / 4 % 2 == 1 }
    predicate NoInterrupt() { des0 / 2 % 2 == 1 }
    function Size(): nat { des1 % 8192 }   // bs1 has 13 bits
  }

  function B(b: bool, weight: nat): nat { if b then weight else 0 }

  /** `set_desc0_control_descriptor`: bits 31, 30, 5, 4, 3, 2, 1. */
  function ControlWord(own: bool, ces: bool, er: bool, ch: bool, fs: bool, ld: bool, dic: bool): u32 {
    B(own, 0x8000_0000) + B(ces, 0x4000_0000) + B(er, 32) + B(ch, 16) + B(fs, 8) + B(ld, 4) + B(dic, 2)
  }

  lemma BitsOfSum(o: nat, c: nat, e: nat, h: nat, f: nat, l: nat, d: nat, word: nat)
    requires o <= 1 && c <= 1 && e <= 1 && h <= 1 && f <= 1 && l <= 1 && d <= 1
    requires word == 0x8000_0000 * o + 0x4000_0000 * c + 32 * e + 16 * h + 8 * f + 4 * l + 2 * d
    ensures word / 0x8000_0000 % 2 == o && word / 0x4000_0000 % 2 == c && word / 32 % 2 == e && word / 16 % 2 == h
    ensures word / 8 % 2 == f && word / 4 % 2 == l && word / 2 % 2 == d
  {
    assert word / 0x8000_0000 == o && word / 0x4000_0000 == 2 * o + c;
    assert word / 32 == 0x400_0000 * o + 0x200_0000 * c + e;
    assert word / 16 == 2 * (word / 32) + h;
    assert word / 8 == 2 * (word / 16) + f;
    assert word / 4 == 2 * (word / 8) + l;
    assert word / 2 == 2 * (word / 4) + d;
  }

  lemma ControlWordReadsBack(own: bool, ces: bool, er: bool, ch: bool, fs: bool, ld: bool, dic: bool, d: Descriptor)
    requires d.des0 == ControlWord(own, ces, er, ch, fs, ld, dic)
    ensures d.Own() == own && d.CardError() == ces && d.EndOfRing() == er && d.Chained() == ch
    ensures d.First() == fs && d.Last() == ld && d.NoInterrupt() == dic
  {
    BitsOfSum(B(own, 1), B(ces, 1), B(er, 1), B(ch, 1), B(fs, 1), B(ld, 1), B(dic, 1), d.des0);
  }

  datatype ChainError = InvalidParameter | DmaAddress

  datatype ChainCheck = Accepted | Rejected(error: ChainError)

  function DescriptorCount(len: nat): nat { (len + SEGMENT - 1) / SEGMENT }

  /** The length and address checks around the descriptor allocation. */
  function CheckBuffer(len: nat, bus: u32): ChainCheck {
    if len == 0 || len > DMA_BUFFER_SIZE then Rejected(InvalidParameter)
    else if bus + (len - 1) >= TWO32 then Rejected(DmaAddress)
    else Accepted
  }

  /** `base` is the 64-bit bus address the allocator returned for the descriptors. */
  function CheckDescriptors(len: nat, base: nat): ChainCheck {
    if base >= TWO32 || base + (DescriptorCount(len) - 1) * DESCRIPTOR_BYTES >= TWO32 then Rejected(DmaAddress)
    else Accepted
  }

  ghost predicate Layout(chain: seq<Descriptor>, len: nat, bus: nat, base: nat) {
    && |chain| == DescriptorCount(len)
    && forall i :: 0 <= i < |chain| ==> Segment(chain, len, bus, base, i)
  }

  /** Descriptor i carries segment i of the buffer and points to descriptor i + 1. */
  ghost predicate Segment(chain: seq<Descriptor>, len: nat, bus: nat, base: nat, i: nat)
    requires i < |chain|
  {
    var d := chain[i];
    && d.Own() && !d.CardError() && !d.EndOfRing()
    && 0 < d.Size() <= SEGMENT
    && d.des2 == bus + i * SEGMENT
    && d.Size() == (if len - i * SEGMENT < SEGMENT then len - i * SEGMENT else SEGMENT)
    && (d.First() <==> i == 0)
    && (d.Last() <==> i == |chain| - 1)
    && (d.Chained() <==> !d.Last()) && (d.NoInterrupt() <==> !d.Last())
    && (!d.Last() ==> d.des3 == base + (i + 1) * DESCRIPTOR_BYTES)
  }

  /** The descriptor loop of `prepare_idmac_transfer`, writing into the coherent array. */
  method WriteChain(descriptors: array<Descriptor>, len: nat, bus: u32, base: u32)
    requires CheckBuffer(len, bus) == Accepted && CheckDescriptors(len, base) == Accepted
    requires descriptors.Length == DescriptorCount(len)
    modifies descriptors
    ensures Layout(descriptors[..], len, bus, base)
  {
    var count := descriptors.Length;
    var index := 0;
    while index < count
      invariant 0 <= index <= count
      invariant forall i :: 0 <= i < index ==> Segment(descriptors[..], len, bus, base, i)
    {
      var offset := index * SEGMENT;
      var segmentLen := if len - offset < SEGMENT then len - offset else SEGMENT;
      var last := index + 1 == count;
      var buffer: u32 := bus + offset;
      var next: u32 := if last then 0 else base + (index + 1) * DESCRIPTOR_BYTES;
      var d := Descriptor(ControlWord(true, false, false, !last, index == 0, last, !last), segmentLen, buffer, next);
      ControlWordReadsBack(true, false, false, !last, index == 0, last, !last, d);
      ghost var before := descriptors[..];
      descriptors[index] := d;
      forall i | 0 <= i < index ensures Segment(descriptors[..], len, bus, base, i) {
        assert Segment(before, len, bus, base, i) && descriptors[..][i] == before[i];
      }
      index := index + 1;
    }
  }

  /** The descriptor array of one transfer, as it is published. */
  method BuildChain(len: nat, bus: u32, base: u32) returns (chain: seq<Descriptor>)
    requires CheckBuffer(len, bus) == Accepted && CheckDescriptors(len, base) == Accepted
    ensures Layout(chain, len, bus, base)
  {
    var descriptors := new Descriptor[DescriptorCount(len)];
    WriteChain(descriptors, len, bus, base);
    chain := descriptors[..];
  }

  // ---- The controller's side ----

  datatype Walk = Stuck | Done(bytes: seq<nat>, visited: seq<nat>)

  /** The descriptor at a bus address, when the chain lies at `base`. */
  ghost function Fetch(chain: seq<Descriptor>, base: nat, addr: nat): (i: int) {
    if addr >= base && (addr - base) % DESCRIPTOR_BYTES == 0 && (addr - base) / DESCRIPTOR_BYTES < |chain|
    then (addr - base) / DESCRIPTOR_BYTES else -1
  }

  ghost function Range(from: nat, n: nat): seq<nat> { seq(n, k requires 0 <= k < n => from + k) }

  /** What the IDMAC moves in at most `steps` descriptors from `addr`: each owned descriptor's
      buffer, in order, until one is marked last. */
  ghost function WalkFrom(chain: seq<Descriptor>, base: nat, addr: nat, steps: nat): Walk
    decreases steps
  {
    var i := Fetch(chain, base, addr);
    if steps == 0 || i < 0 || !chain[i].Own() then Stuck
    else
      var here := Range(chain[i].des2, chain[i].Size());
      if chain[i].Last() then Done(here, [addr])
      else if !chain[i].Chained() then Stuck
      else
        match WalkFrom(chain, base, chain[i].des3, steps - 1)
        case Stuck => Stuck
        case Done(bytes, visited) => Done(here + bytes, [addr] + visited)
  }

  lemma RangeSplits(from: nat, a: nat, b: nat)
    ensures Range(from, a + b) == Range(from, a) + Range(from + a, b)
  {}

  ghost function Addresses(base: nat, i: nat, n: nat): seq<nat> {
    seq(n, k requires 0 <= k < n => base + (i + k) * DESCRIPTOR_BYTES)
  }

  lemma AddressesSplit(base: nat, i: nat, n: nat)
    ensures Addresses(base, i, n + 1) == [base + i * DESCRIPTOR_BYTES] + Addresses(base, i + 1, n)
  {}

  lemma {:induction false} WalkTail(chain: seq<Descriptor>, len: nat, bus: nat, base: nat, i: nat, steps: nat)
    requires len > 0 && Layout(chain, len, bus, base) && i < |chain| && steps >= |chain| - i
    ensures WalkFrom(chain, base, base + i * DESCRIPTOR_BYTES, steps) ==
            Done(Range(bus + i * SEGMENT, len - i * SEGMENT), Addresses(base, i, |chain| - i))
    decreases |chain| - i
  {
    var addr := base + i * DESCRIPTOR_BYTES;
    assert Segment(chain, len, bus, base, i);
    assert Fetch(chain, base, addr) == i;
    if i + 1 < |chain| {
      WalkTail(chain, len, bus, base, i + 1, steps - 1);
      RangeSplits(bus + i * SEGMENT, SEGMENT, len - (i + 1) * SEGMENT);
      AddressesSplit(base, i, |chain| - i - 1);
    }
  }

  /** Walking the list from DBADDR moves exactly the buffer, byte by byte in order, and visits
      each descriptor once. */
  lemma WalkMovesTheBuffer(chain: seq<Descriptor>, len: nat, bus: u32, base: u32, steps: nat)
    requires CheckBuffer(len, bus) == Accepted && CheckDescriptors(len, base) == Accepted
    requires Layout(chain, len, bus, base) && steps >= |chain|
    ensures WalkFrom(chain, base, base, steps) ==
            Done(Range(bus, len), Addresses(base, 0, |chain|))
    ensures forall b :: b in Range(bus, len) ==> b < TWO32
  {
    WalkTail(chain, len, bus, base, 0, steps);
  }

  /** The walk does not end before the last descriptor: a walker that may take fewer steps than
      there are descriptors does not finish. */
  lemma {:induction false} WalkNeedsEveryDescriptor(chain: seq<Descriptor>, len: nat, bus: nat, base: nat, i: nat,
                                                    steps: nat)
    requires Layout(chain, len, bus, base) && i < |chain| && steps < |chain| - i
    ensures WalkFrom(chain, base, base + i * DESCRIPTOR_BYTES, steps) == Stuck
    decreases steps
  {
    assert Segment(chain, len, bus, base, i);
    assert Fetch(chain, base, base + i * DESCRIPTOR_BYTES) == i;
    if steps > 0 { WalkNeedsEveryDescriptor(chain, len, bus, base, i + 1, steps - 1); }
  }
}
