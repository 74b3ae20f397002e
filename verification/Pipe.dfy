/** The pipe buffer: a ring buffer in an array, read and written through its two slices, and
    replaced on resize. It is compared with the plain sequence of bytes written. */
module Pipe {

  const PAGE_SIZE: nat := 4096
  const RING_BUFFER_INIT_SIZE: nat := 65536
  const TWO64: nat := 0x1_0000_0000_0000_0000

  type Byte = bv8

  function Min(a: nat, b: nat): nat { if a < b then a else b }

  /** Array position of the i-th buffered byte. */
  function Pos(head: nat, i: nat, capacity: nat): nat { if head + i < capacity then head + i else head + i - capacity }

  ghost function Unroll(data: seq<Byte>, head: nat, len: nat): (r: seq<Byte>)
    requires head < |data| && len <= |data|
    ensures |r| == len && forall i :: 0 <= i < len ==> r[i] == data[Pos(head, i, |data|)]
  {
    seq(len, i requires 0 <= i < len => data[Pos(head, i, |data|)])
  }

  lemma Reassociate(a: seq<Byte>, b: seq<Byte>, c: seq<Byte>)
    ensures a + (b + c) == (a + b) + c
  {}

  class Ring {
    var data: array<Byte>
    var head: nat
    var len: nat

    ghost predicate Valid() reads this { head < data.Length && len <= data.Length }

    ghost function Contents(): seq<Byte>
      requires Valid()
      reads this, data
    {
      Unroll(data[..], head, len)
    }

    constructor (capacity: nat)
      requires capacity > 0
      ensures Valid() && fresh(data) && data.Length == capacity && head == 0 && len == 0 && Contents() == []
    {
      data, head, len := new Byte[capacity], 0, 0;
    }

    /** The occupied part as two slices of the array, in order. */
    method AsSlices() returns (left: seq<Byte>, right: seq<Byte>)
      requires Valid()
      ensures left + right == Contents()
      ensures |left| == FirstPart() && (left == [] ==> right == [])
    {
      if head + len <= data.Length {
        left, right := data[head..head + len], [];
      } else {
        left, right := data[head..], data[..head + len - data.Length];
      }
    }

    method AdvanceRead(count: nat)
      requires Valid() && count <= len
      modifies `head, `len
      ensures Valid() && Contents() == old(Contents())[count..] && len == old(len) - count
    {
      head, len := Pos(head, count, data.Length), len - count;
    }

    /** The length of the first of the two slices. */
    ghost function FirstPart(): nat
      requires Valid()
      reads this
    {
      Min(len, data.Length - head)
    }

    /** Start and lengths of the two vacant slices. */
    function VacantStart(): nat reads this requires Valid() { Pos(head, len, data.Length) }

    function VacantLeft(): nat
      requires Valid()
      reads this
    {
      if head + len < data.Length then data.Length - (head + len) else data.Length - len
    }

    function VacantRight(): nat
      requires Valid()
      reads this
    {
      if head + len < data.Length then head else 0
    }

    /** Bytes go to the front of the first vacant slice, and on into the second only if they fill
        the first. */
    method Fill(first: seq<Byte>, second: seq<Byte>)
      requires Valid() && |first| <= VacantLeft() && |second| <= VacantRight()
      requires second != [] ==> |first| == VacantLeft()
      modifies data, `len
      ensures Valid() && Contents() == old(Contents()) + first + second && len == old(len) + |first| + |second|
    {
      var start, capacity := VacantStart(), data.Length;
      ghost var was := data[..];
      forall i | 0 <= i < |first| { data[start + i] := first[i]; }
      forall i | 0 <= i < |second| { data[i] := second[i]; }
      forall k | 0 <= k < len + |first| + |second|
        ensures data[Pos(head, k, capacity)] == (old(Contents()) + first + second)[k]
      {
        if k < len {
          assert data[Pos(head, k, capacity)] == was[Pos(head, k, capacity)];
        } else if k < len + |first| {
          assert Pos(head, k, capacity) == start + (k - len);
        } else {
          assert Pos(head, k, capacity) == k - len - |first|;
        }
      }
      len := len + |first| + |second|;
    }

    /** Appends as much of `bytes` as there is room for. */
    method PushSlice(bytes: seq<Byte>)
      requires Valid()
      modifies data, `len
      ensures Valid() && len == Min(data.Length, old(len) + |bytes|)
      ensures Contents() == old(Contents()) + bytes[..len - old(len)]
    {
      var n := Min(|bytes|, VacantLeft());
      var k := Min(|bytes| - n, VacantRight());
      Fill(bytes[..n], bytes[n..n + k]);
      assert bytes[..n] + bytes[n..n + k] == bytes[..n + k];
    }
  }

  /** The number of bytes copied out of two slices, the second only after a whole first; a fault
      anywhere is a fault of the attempt. */
  function CopyCount(left: nat, right: nat, first: Take, second: Take): (r: Take)
    ensures r.Takes? ==> r.count <= left + right
    ensures r.TakeFault? ==> first.TakeFault? || second.TakeFault?
  {
    if first.TakeFault? then TakeFault
    else if first.count < left then first
    else if second.TakeFault? then TakeFault
    else Takes(left + Min(second.count, right))
  }

  /** The destination takes `room` bytes in all: what fits of the first part, then of the rest. */
  ghost predicate HasRoom(room: nat, left: nat, all: nat, first: Take, second: Take) {
    left <= all && first == Takes(Min(room, left)) && second == Takes(Min(room - first.count, all - left))
  }

  /** What the other side of a copy does: how much it takes or what it supplies, or a fault. */
  datatype Take = Takes(count: nat) | TakeFault
  datatype Supply = Supplies(bytes: seq<Byte>) | SupplyFault

  datatype Result = Ok(count: nat) | WouldBlock | BrokenPipe | CopyFault

  datatype ResizeResult = Resized | ResourceBusy | Overflow

  /** The capacity that `resize` aims for: whole pages, at least one. */
  function RoundedSize(size: nat): nat { (if size == 0 then 1 else (size + PAGE_SIZE - 1) / PAGE_SIZE) * PAGE_SIZE }

  /** The least positive number of whole pages that holds `size` bytes. */
  lemma LeastPages(size: nat, other: nat)
    ensures RoundedSize(size) > 0 && RoundedSize(size) % 4096 == 0 && RoundedSize(size) >= size
    ensures other > 0 && other % 4096 == 0 && other >= size ==> RoundedSize(size) <= other
  {
    if other > 0 && other % 4096 == 0 && other >= size {
      assert (size + 4095) / 4096 <= (other + 4095) / 4096 == other / 4096;
    }
  }

  /** Both ends of the pipe. */
  class Shared {
    var buffer: Ring
    ghost var written: seq<Byte>                  // every byte that went in
    ghost var delivered: seq<Byte>                // every byte that came out

    /** The pipe is a FIFO: what came out, followed by what is buffered, is what went in. */
    ghost predicate Valid() reads this, buffer, buffer.data {
      buffer.Valid() && written == delivered + buffer.Contents()
    }

    constructor ()
      ensures Valid() && fresh(buffer) && fresh(buffer.data) && written == [] && delivered == []
      ensures buffer.data.Length == 65536
    {
      buffer := new Ring(RING_BUFFER_INIT_SIZE);
      written, delivered := [], [];
    }

    /** One attempt of `read`: the first slice, then the second if the first was taken whole. A
        fault consumes nothing. */
    method Read(first: Take, second: Take, closed: bool) returns (r: Result, out: seq<Byte>)
      requires Valid()
      modifies this, buffer
      ensures Valid() && buffer == old(buffer) && buffer.data == old(buffer.data) && written == old(written)
      ensures delivered == old(delivered) + out && out <= old(buffer.Contents())
      ensures r.Ok? ==> r.count == |out|
      ensures r == CopyFault <==> first.TakeFault? || (first.count >= old(buffer.FirstPart()) && second.TakeFault?)
      ensures r == CopyFault ==> out == []
      ensures first.Takes? && first.count < old(buffer.FirstPart()) ==> |out| == first.count
      ensures forall room :: HasRoom(room, old(buffer.FirstPart()), old(buffer.len), first, second) ==>
                |out| == Min(room, old(buffer.len))
      ensures out == [] && r != CopyFault ==> r == if closed then Ok(0) else WouldBlock
      ensures first.Takes? && second.Takes? && first.count >= old(buffer.len) && second.count >= old(buffer.len) ==>
                out == old(buffer.Contents())
    {
      ghost var contents := buffer.Contents();
      var left, right := buffer.AsSlices();
      out := [];
      var copied := CopyCount(|left|, |right|, first, second);
      if copied.TakeFault? { return CopyFault, out; }
      var count := copied.count;
      out := (left + right)[..count];
      ghost var rest := contents[count..];
      assert contents == out + rest;
      Reassociate(delivered, out, rest);
      buffer.AdvanceRead(count);
      delivered := delivered + out;
      r := if count > 0 then Ok(count) else if closed then Ok(0) else WouldBlock;
    }

    /** One attempt of `write`, after `total` bytes of `size` went in before. What the source
        supplies fits the slice it is given. A blocking writer goes on until all is in. */
    method Write(first: Supply, second: Supply, closed: bool, total: nat, size: nat, nonblocking: bool)
      returns (r: Result, added: seq<Byte>)
      requires Valid()
      requires first.Supplies? ==> |first.bytes| <= buffer.VacantLeft()
      requires second.Supplies? ==> |second.bytes| <= buffer.VacantRight()
      modifies this, buffer, buffer.data
      ensures Valid() && buffer == old(buffer) && buffer.data == old(buffer.data) && delivered == old(delivered)
      ensures written == old(written) + added && buffer.len <= buffer.data.Length
      ensures r == BrokenPipe <==> closed
      ensures (r == CopyFault) == (!closed && (first.SupplyFault? ||
                                               (|first.bytes| >= old(buffer.VacantLeft()) && second.SupplyFault?)))
      ensures r == BrokenPipe || r == CopyFault ==> added == []
      ensures r.Ok? <==> added != [] && (nonblocking || total + |added| == size)
      ensures r.Ok? ==> r.count == total + |added|
      ensures !closed && first.Supplies? && second.Supplies? ==>
                added == first.bytes + if |first.bytes| >= old(buffer.VacantLeft()) then second.bytes else []
    {
      added := [];
      if closed { return BrokenPipe, added; }
      if first.SupplyFault? { return CopyFault, added; }
      var more: seq<Byte> := [];
      if |first.bytes| >= buffer.VacantLeft() {
        if second.SupplyFault? { return CopyFault, added; }
        more := second.bytes;
      }
      ghost var contents := buffer.Contents();
      buffer.Fill(first.bytes, more);
      added := first.bytes + more;
      Reassociate(contents, first.bytes, more);
      Reassociate(delivered, contents, added);
      written := written + added;
      var done := total + |added|;
      r := if |added| > 0 && (done == size || nonblocking) then Ok(done) else WouldBlock;
    }

    /** A new ring with the two slices pushed into it. */
    static method Copied(left: seq<Byte>, right: seq<Byte>, capacity: nat) returns (ring: Ring)
      requires 0 < capacity && |left| + |right| <= capacity
      ensures ring.Valid() && fresh(ring) && fresh(ring.data) && ring.data.Length == capacity
      ensures ring.Contents() == left + right && ring.len == |left| + |right|
    {
      ring := new Ring(capacity);
      ring.PushSlice(left);
      assert ring.Contents() == left;
      ring.PushSlice(right);
      assert right[..|right|] == right;
    }

    /** `resize` moves the buffered bytes into a ring of the rounded size, or leaves all as it
        is: when the size does not change, and when the bytes would not fit. */
    method Resize(size: nat) returns (r: ResizeResult)
      requires Valid()
      modifies this
      ensures Valid() && written == old(written) && delivered == old(delivered)
      ensures buffer.Contents() == old(buffer.Contents())
      ensures buffer == old(buffer) || (fresh(buffer) && fresh(buffer.data))
      ensures r == if RoundedSize(size) >= TWO64 then Overflow
                   else if RoundedSize(size) != old(buffer.data.Length) && RoundedSize(size) < old(buffer.len)
                   then ResourceBusy
                   else Resized
      ensures buffer.data.Length == if r == Resized then RoundedSize(size) else old(buffer.data.Length)
    {
      var newSize := RoundedSize(size);
      if newSize >= TWO64 { return Overflow; }
      if newSize == buffer.data.Length { return Resized; }
      if newSize < buffer.len { return ResourceBusy; }
      var left, right := buffer.AsSlices();
      assert |left + right| == buffer.len;
      buffer := Copied(left, right, newSize);
      r := Resized;
    }
  }

  datatype Call =
    | CallRead(take1: Take, take2: Take, closed: bool)
    | CallWrite(bytes: seq<Byte>, limit1: nat, limit2: nat, closed: bool, total: nat, size: nat, nonblocking: bool)
    | CallResize(size: nat)

  /** Over every run of partial reads and writes, wrap-arounds and resizes, the bytes delivered
      followed by the bytes buffered are the bytes written, and the buffer is never overfull. */
  method Session(calls: seq<Call>) returns (pipe: Shared)
    ensures pipe.Valid() && pipe.buffer.len <= pipe.buffer.data.Length
    ensures pipe.written == pipe.delivered + pipe.buffer.Contents()
  {
    pipe := new Shared();
    for i := 0 to |calls|
      invariant pipe.Valid() && fresh(pipe) && fresh(pipe.buffer) && fresh(pipe.buffer.data)
    {
      match calls[i] {
        case CallRead(take1, take2, closed) => var _, _ := pipe.Read(take1, take2, closed);
        case CallWrite(bytes, limit1, limit2, closed, total, size, nonblocking) =>
          var n := Min(Min(|bytes|, limit1), pipe.buffer.VacantLeft());
          var k := Min(Min(|bytes| - n, limit2), pipe.buffer.VacantRight());
          var _, _ := pipe.Write(Supplies(bytes[..n]), Supplies(bytes[n..n + k]), closed, total, size, nonblocking);
        case CallResize(size) => var _ := pipe.Resize(size);
      }
    }
  }
}
