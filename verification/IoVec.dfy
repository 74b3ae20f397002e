/** The cursor over a user iovec array: `IoVectorBuf::new`, `skip_empty`, `read` and `write`. The
    array is compared with one flat buffer, the concatenation of its entries. Reading an entry or
    copying a piece can fault; `faults(k)` says whether the k-th such access does. */
module IoVec {

  const TWO64: nat := 0x1_0000_0000_0000_0000
  const MAX_IOVCNT: nat := 1024

  type Byte = bv8

  const TWO63: nat := 0x8000_0000_0000_0000

  type isize = x: int | -0x8000_0000_0000_0000 <= x < 0x8000_0000_0000_0000
  type usize = x: nat | x < 0x1_0000_0000_0000_0000

  /** `len` is signed, as user space passes it. */
  datatype Iov = Iov(base: usize, len: isize)

  datatype Error = InvalidInput | Fault
  datatype Result = Ok(count: nat) | Err(error: Error)

  function Min(a: nat, b: nat): nat { if a < b then a else b }

  predicate NonNegative(iovs: seq<Iov>) { forall i :: 0 <= i < |iovs| ==> iovs[i].len >= 0 }

  /** Bytes in the first k entries. */
  function Prefix(iovs: seq<Iov>, k: nat): nat
    requires k <= |iovs| && NonNegative(iovs)
  {
    if k == 0 then 0 else Prefix(iovs, k - 1) + iovs[k - 1].len
  }

  function Total(iovs: seq<Iov>): nat
    requires NonNegative(iovs)
  {
    Prefix(iovs, |iovs|)
  }

  lemma {:induction false} PrefixGrows(iovs: seq<Iov>, j: nat, k: nat)
    requires j <= k <= |iovs| && NonNegative(iovs)
    ensures Prefix(iovs, j) <= Prefix(iovs, k)
    decreases k
  {
    if j < k { PrefixGrows(iovs, j, k - 1); }
  }

  /** Address of byte j of an entry; pointers wrap. */
  function Address(iov: Iov, j: nat): nat { (iov.base + j) % TWO64 }

  /** An entry's bytes stand at its base and the addresses after it, around the end of the address
      space if need be. */
  lemma AddressesFollow(iov: Iov, j: nat)
    ensures Address(iov, 0) == iov.base
    ensures Address(iov, j + 1) == if Address(iov, j) == 0xffff_ffff_ffff_ffff then 0 else Address(iov, j) + 1
  {}

  /** Address of byte i of the flat buffer, the concatenation of the first k entries. */
  ghost function FlatAt(iovs: seq<Iov>, k: nat, i: nat): nat
    requires k <= |iovs| && NonNegative(iovs) && i < Prefix(iovs, k)
  {
    var p := Prefix(iovs, k - 1);
    if i < p then FlatAt(iovs, k - 1, i) else Address(iovs[k - 1], i - p)
  }

  /** The bytes of entry s stand in the flat buffer from position Prefix(s) on. */
  lemma {:induction false} EntryInFlat(iovs: seq<Iov>, s: nat, k: nat, j: nat)
    requires s < k <= |iovs| && NonNegative(iovs) && j < iovs[s].len
    ensures Prefix(iovs, s) + j < Prefix(iovs, k)
    ensures FlatAt(iovs, k, Prefix(iovs, s) + j) == Address(iovs[s], j)
    decreases k
  {
    if s < k - 1 { EntryInFlat(iovs, s, k - 1, j); }
  }

  /** `IoVectorBuf::new`: at most 1024 entries, none negative; the length adds up modulo 2^64. */
  method Length(iovs: seq<Iov>, faults: nat -> bool) returns (r: Result)
    ensures |iovs| > 1024 ==> r == Err(InvalidInput)
    ensures r.Ok? ==> |iovs| <= 1024 && NonNegative(iovs) && r.count == Total(iovs) % TWO64
    ensures r == Err(InvalidInput) ==> |iovs| > 1024 || !NonNegative(iovs)
    ensures (forall k :: !faults(k)) ==> (r.Ok? <==> |iovs| <= 1024 && NonNegative(iovs))
  {
    if |iovs| > MAX_IOVCNT { return Err(InvalidInput); }
    var len, i := 0, 0;
    while i < |iovs|
      invariant i <= |iovs| && NonNegative(iovs[..i]) && len == Prefix(iovs[..i], i) % TWO64
    {
      if faults(i) { return Err(Fault); }
      if iovs[i].len < 0 { return Err(InvalidInput); }
      NextEntry(iovs, i);
      len := (len + iovs[i].len) % TWO64;
      i := i + 1;
    }
    assert iovs[..i] == iovs;
    r := Ok(len);
  }

  lemma NextEntry(iovs: seq<Iov>, i: nat)
    requires i < |iovs| && NonNegative(iovs[..i]) && iovs[i].len >= 0
    ensures NonNegative(iovs[..i + 1]) && Prefix(iovs[..i + 1], i + 1) == Prefix(iovs[..i], i) + iovs[i].len
  {
    PrefixSame(iovs[..i + 1], iovs[..i], i);
  }

  lemma {:induction false} PrefixSame(a: seq<Iov>, b: seq<Iov>, k: nat)
    requires k <= |a| && k <= |b| && NonNegative(a) && NonNegative(b) && a[..k] == b[..k]
    ensures Prefix(a, k) == Prefix(b, k)
  {
    if k > 0 {
      assert a[k - 1] == a[..k][k - 1] && b[k - 1] == b[..k][k - 1];
      assert a[..k - 1] == a[..k][..k - 1] && b[..k - 1] == b[..k][..k - 1];
      PrefixSame(a, b, k - 1);
    }
  }

  /** One byte moved between user memory and the kernel buffer. */
  datatype Store = Store(address: nat, byte: Byte)

  class Cursor {
    const iovs: seq<Iov>
    var start: nat
    var offset: nat
    var len: nat                                   // what `remaining` reports

    ghost predicate Valid() reads this {
      && NonNegative(iovs) && start <= |iovs|
      && (if start < |iovs| then offset <= iovs[start].len else offset == 0)
      && Consumed() <= Total(iovs) && len == (Total(iovs) - Consumed()) % TWO64
    }

    /** Position in the flat buffer. */
    ghost function Consumed(): nat
      requires NonNegative(iovs) && start <= |iovs|
      reads this
    {
      Prefix(iovs, start) + offset
    }

    constructor (iovs: seq<Iov>, len: nat)
      requires NonNegative(iovs) && len == Total(iovs) % TWO64
      ensures Valid() && this.iovs == iovs && Consumed() == 0
    {
      this.iovs, this.start, this.offset, this.len := iovs, 0, 0, len;
      new;
      PrefixGrows(iovs, 0, |iovs|);
    }

    /** `remaining` is total minus consumed, exactly when that fits a usize. */
    method Remaining() returns (n: nat)
      requires Valid()
      ensures n == (Total(iovs) - Consumed()) % TWO64
      ensures n == Total(iovs) - Consumed() <==> Total(iovs) - Consumed() < TWO64
    {
      n := len;
    }

    /** Moves past used-up and empty entries; the position in the flat buffer stays. */
    method SkipEmpty(faults: nat -> bool, k: nat) returns (ok: bool, k': nat)
      requires Valid()
      modifies `start, `offset
      ensures Valid() && Consumed() == old(Consumed())
      ensures ok && start < |iovs| ==> offset < iovs[start].len
      ensures ok && start == |iovs| ==> Consumed() == Total(iovs)
      ensures !ok ==> exists j :: faults(j)
    {
      k' := k;
      while start < |iovs|
        invariant Valid() && Consumed() == old(Consumed())
        decreases |iovs| - start
      {
        if faults(k') { return false, k'; }
        k' := k' + 1;
        if iovs[start].len > offset { break; }
        offset, start := 0, start + 1;
      }
      ok := true;
    }

    /** Moves the cursor over n bytes of the current entry. */
    method Advance(n: nat)
      requires Valid() && start < |iovs| && offset + n <= iovs[start].len
      modifies `offset, `len
      ensures Valid() && Consumed() == old(Consumed()) + n && start == old(start)
    {
      PrefixGrows(iovs, start + 1, |iovs|);
      offset := offset + n;
      len := (len - n) % TWO64;
    }

    /** Byte i after position p of the flat buffer, if there is one. */
    ghost function Next(p: nat, i: nat): nat
      requires NonNegative(iovs)
    {
      if p + i < Total(iovs) then FlatAt(iovs, |iovs|, p + i) else 0
    }

    lemma CurrentIsNext(p: nat, n: nat, j: nat)
      requires Valid() && start < |iovs| && offset + j < iovs[start].len && Consumed() == p + n
      ensures Next(p, n + j) == Address(iovs[start], offset + j)
    {
      EntryInFlat(iovs, start, |iovs|, offset + j);
    }

    /** The next piece to move: empty when the buffer is full or the entries are used up. */
    method NextPiece(room: nat, faults: nat -> bool, k: nat) returns (fault: bool, n: nat, k': nat)
      requires Valid()
      modifies `start, `offset
      ensures Valid() && Consumed() == old(Consumed())
      ensures fault ==> exists j :: faults(j)
      ensures !fault ==> n <= room && (n > 0 ==> start < |iovs| && offset + n <= iovs[start].len)
      ensures !fault && n == 0 ==> room == 0 || Consumed() == Total(iovs)
    {
      var ok;
      ok, k' := SkipEmpty(faults, k);
      if !ok { return true, 0, k'; }
      if start >= |iovs| { return false, 0, k'; }
      if faults(k') { return true, 0, k'; }
      n := Min(iovs[start].len - offset, room);
      if n > 0 && faults(k' + 1) { return true, 0, k'; }
      return false, n, k' + 2;
    }

    /** `read`: user memory, in the order of the flat buffer, into `buf`. Without a fault exactly
        min(buffer, rest) bytes are moved; on a fault the cursor stands where the moved bytes
        end. */
    method Read(memory: nat -> Byte, buf: array<Byte>, faults: nat -> bool) returns (r: Result, ghost n: nat)
      requires Valid()
      modifies this, buf
      ensures Valid() && Consumed() == old(Consumed()) + n && n <= buf.Length
      ensures r == Err(Fault) || r == Ok(n)
      ensures r.Ok? ==> n == Min(buf.Length, Total(iovs) - old(Consumed()))
      ensures (forall k :: !faults(k)) ==> r.Ok?
      ensures forall i :: 0 <= i < n ==> buf[i] == memory(Next(old(Consumed()), i))
      ensures forall i :: n <= i < buf.Length ==> buf[i] == old(buf[i])
    {
      var count, k := 0, 0;
      ghost var p := Consumed();
      n := 0;
      while true
        invariant Valid() && Consumed() == p + n && count == n <= buf.Length
        invariant forall i :: 0 <= i < n ==> buf[i] == memory(Next(p, i))
        invariant forall i :: n <= i < buf.Length ==> buf[i] == old(buf[i])
        decreases buf.Length - count
      {
        var fault, len;
        fault, len, k := NextPiece(buf.Length - count, faults, k);
        if fault { return Err(Fault), n; }
        if len == 0 { break; }
        for j := 0 to len
          invariant forall i :: 0 <= i < n + j ==> buf[i] == memory(Next(p, i))
          invariant forall i :: n + j <= i < buf.Length ==> buf[i] == old(buf[i])
          modifies buf
        {
          CurrentIsNext(p, n, j);
          buf[count + j] := memory(Address(iovs[start], offset + j));
        }
        Advance(len);
        count := count + len;
        n := count;
      }
      r := Ok(count);
    }

    /** `write`: the bytes go to the next addresses of the flat buffer, in order. */
    method Write(bytes: seq<Byte>, faults: nat -> bool) returns (r: Result, stores: seq<Store>)
      requires Valid()
      modifies this
      ensures Valid() && Consumed() == old(Consumed()) + |stores| && |stores| <= |bytes|
      ensures r == Err(Fault) || r == Ok(|stores|)
      ensures r.Ok? ==> |stores| == Min(|bytes|, Total(iovs) - old(Consumed()))
      ensures (forall k :: !faults(k)) ==> r.Ok?
      ensures forall i :: 0 <= i < |stores| ==> stores[i] == Store(Next(old(Consumed()), i), bytes[i])
    {
      var count, k := 0, 0;
      ghost var p := Consumed();
      stores := [];
      while true
        invariant Valid() && Consumed() == p + count && count == |stores| <= |bytes|
        invariant forall i :: 0 <= i < |stores| ==> stores[i] == Store(Next(p, i), bytes[i])
        decreases |bytes| - count
      {
        var fault, len;
        fault, len, k := NextPiece(|bytes| - count, faults, k);
        if fault { return Err(Fault), stores; }
        if len == 0 { break; }
        for j := 0 to len
          invariant |stores| == count + j
          invariant forall i :: 0 <= i < |stores| ==> stores[i] == Store(Next(p, i), bytes[i])
          modifies {}
        {
          CurrentIsNext(p, count, j);
          stores := stores + [Store(Address(iovs[start], offset + j), bytes[count + j])];
        }
        Advance(len);
        count := count + len;
      }
      r := Ok(count);
    }
  }

  function Sum(sizes: seq<nat>): nat { if sizes == [] then 0 else Sum(sizes[..|sizes| - 1]) + sizes[|sizes| - 1] }

  /** One read into a fresh buffer, from position p of the flat buffer. */
  method ReadSome(cursor: Cursor, memory: nat -> Byte, size: nat, ghost p: nat) returns (bytes: seq<Byte>)
    requires cursor.Valid() && cursor.Consumed() == p
    modifies cursor
    ensures cursor.Valid() && cursor.Consumed() == p + |bytes| && |bytes| == Min(size, Total(cursor.iovs) - p)
    ensures forall i :: 0 <= i < |bytes| ==> bytes[i] == memory(FlatAt(cursor.iovs, |cursor.iovs|, p + i))
  {
    var buf := new Byte[size];
    var r, _ := cursor.Read(memory, buf, _ => false);
    bytes := buf[..r.count];
    forall i | 0 <= i < |bytes| ensures bytes[i] == memory(FlatAt(cursor.iovs, |cursor.iovs|, p + i)) {
      assert buf[i] == memory(cursor.Next(p, i));
    }
  }

  /** Reads of any sizes, one after the other, return the flat buffer from its start, without gap
      or overlap, until it or the sizes are used up. */
  method ReadThrough(iovs: seq<Iov>, memory: nat -> Byte, sizes: seq<nat>) returns (out: seq<Byte>)
    requires NonNegative(iovs)
    ensures |out| == Min(Sum(sizes), Total(iovs))
    ensures forall i :: 0 <= i < |out| ==> out[i] == memory(FlatAt(iovs, |iovs|, i))
  {
    var cursor := new Cursor(iovs, Total(iovs) % TWO64);
    out := [];
    for c := 0 to |sizes|
      invariant cursor.Valid() && fresh(cursor) && cursor.iovs == iovs && cursor.Consumed() == |out|
      invariant |out| == Min(Sum(sizes[..c]), Total(iovs))
      invariant forall i :: 0 <= i < |out| ==> out[i] == memory(FlatAt(iovs, |iovs|, i))
    {
      assert sizes[..c + 1][..c] == sizes[..c];
      var bytes := ReadSome(cursor, memory, sizes[c], |out|);
      out := out + bytes;
    }
    assert sizes[..|sizes|] == sizes;
  }

  /** Three entries of the largest length are accepted, and `remaining` differs from their total
      before anything is consumed. */
  method RemainingCanWrap() returns (iovs: seq<Iov>, accepted: Result, n: nat)
    ensures |iovs| == 3 && NonNegative(iovs) && Total(iovs) == 3 * (TWO63 - 1) && accepted.Ok?
    ensures n == TWO63 - 3 && n != Total(iovs)
  {
    iovs := [Iov(0, 0x7fff_ffff_ffff_ffff), Iov(0, 0x7fff_ffff_ffff_ffff), Iov(0, 0x7fff_ffff_ffff_ffff)];
    assert Prefix(iovs, 1) == TWO63 - 1 && Prefix(iovs, 2) == 2 * (TWO63 - 1) && Prefix(iovs, 3) == 3 * (TWO63 - 1);
    accepted := Length(iovs, k => false);
    var cursor := new Cursor(iovs, accepted.count);
    n := cursor.Remaining();
  }
}
