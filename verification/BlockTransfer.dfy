/** `read_blocks` and `write_blocks`: a validated request is cut into DMA-sized chunks. The result
    is compared with moving the blocks one at a time. */
module BlockTransfer {
  import C = IdmacChain

  const BLOCK_SIZE: nat := 512
  const MAX_DMA_BLOCKS: nat := 32
  const MIN_MULTI_BLOCK_READ_BLOCKS: nat := 4

  type Byte = bv8

  datatype Error = InvalidParameter | OutOfRange | Transfer(code: nat)
  datatype Result = Ok(blocks: nat) | Err(error: Error)

  /** `validate_block_buffer`; sizes are 64-bit, so the sum of block and count cannot wrap. */
  function Validate(numBlocks: nat, block: C.u32, len: nat): Result {
    if len == 0 || len % BLOCK_SIZE != 0 then Err(InvalidParameter)
    else if block + len / BLOCK_SIZE > numBlocks || block + len / BLOCK_SIZE > C.TWO32 then Err(OutOfRange)
    else Ok(len / BLOCK_SIZE)
  }

  function Min(a: nat, b: nat): nat { if a < b then a else b }

  function ReadChunkBlocks(remaining: nat): nat {
    if remaining >= MIN_MULTI_BLOCK_READ_BLOCKS then Min(remaining, MAX_DMA_BLOCKS) else 1
  }

  function WriteChunkBlocks(remaining: nat): nat { Min(remaining, MAX_DMA_BLOCKS) }

  /** A request is valid for n blocks exactly if it is n whole blocks, at least one, all of them blocks
      of the card with a 32-bit number. */
  lemma ValidMeans(numBlocks: nat, block: C.u32, len: nat, n: nat)
    ensures Validate(numBlocks, block, len) == Ok(n) <==>
              n > 0 && len == n * 512 && block + n - 1 < numBlocks && block + n - 1 <= 0xffff_ffff
    ensures Validate(numBlocks, block, len) == Err(InvalidParameter) <==> len == 0 || len % 512 != 0
  {}

  /** Chunk sizes: single blocks for reads of fewer than four, and never more than 32. */
  lemma ChunkSizes(n: nat)
    ensures ReadChunkBlocks(n) == if n < 4 then 1 else if n < 32 then n else 32
    ensures WriteChunkBlocks(n) == if n < 32 then n else 32
  {}

  /** One transfer command: its first block and its number of blocks. */
  datatype Chunk = Chunk(first: C.u32, blocks: nat) {
    predicate Has(b: nat) { first <= b < first + blocks }
    predicate ReadSized() { blocks == 1 || MIN_MULTI_BLOCK_READ_BLOCKS <= blocks <= MAX_DMA_BLOCKS }
    predicate WriteSized() { 1 <= blocks <= MAX_DMA_BLOCKS }

    /** As large as it can be with the blocks up to `end` still to come. */
    predicate Greedy(end: nat, write: bool) {
      && first < end
      && (if write then WriteSized() else ReadSized())
      && blocks == if !write && end - first < MIN_MULTI_BLOCK_READ_BLOCKS then 1 else Min(end - first, MAX_DMA_BLOCKS)
    }
  }

  /** The chunks follow one another without gap or overlap, from `block` over n blocks. */
  ghost predicate Tiles(chunks: seq<Chunk>, block: nat, n: nat) {
    if chunks == [] then n == 0
    else
      var last := chunks[|chunks| - 1];
      last.blocks > 0 && last.blocks <= n && last.first + last.blocks == block + n
      && Tiles(chunks[..|chunks| - 1], block, n - last.blocks)
  }

  lemma TilesAppend(chunks: seq<Chunk>, c: Chunk, block: nat, n: nat)
    requires Tiles(chunks, block, n) && c.first == block + n && c.blocks > 0
    ensures Tiles(chunks + [c], block, n + c.blocks)
  {
    assert (chunks + [c])[..|chunks|] == chunks;
  }

  /** In a tiling every block of the range belongs to exactly one chunk. */
  lemma {:induction false} TilesCoverOnce(chunks: seq<Chunk>, block: nat, n: nat, b: nat)
    requires Tiles(chunks, block, n) && block <= b < block + n
    ensures exists i :: 0 <= i < |chunks| && chunks[i].Has(b)
    ensures forall i, j :: 0 <= i < j < |chunks| ==> !(chunks[i].Has(b) && chunks[j].Has(b))
  {
    var rest, last := chunks[..|chunks| - 1], chunks[|chunks| - 1];
    TilesInside(rest, block, n - last.blocks);
    if b < last.first {
      TilesCoverOnce(rest, block, n - last.blocks, b);
      assert forall i :: 0 <= i < |rest| ==> rest[i] == chunks[i];
    } else {
      assert forall i :: 0 <= i < |rest| ==> chunks[i] == rest[i] && rest[i].first + rest[i].blocks <= last.first;
    }
  }

  lemma {:induction false} TilesInside(chunks: seq<Chunk>, block: nat, n: nat)
    requires Tiles(chunks, block, n)
    ensures forall i :: 0 <= i < |chunks| ==>
              block <= chunks[i].first && chunks[i].first + chunks[i].blocks <= block + n
  {
    if chunks != [] {
      TilesInside(chunks[..|chunks| - 1], block, n - chunks[|chunks| - 1].blocks);
    }
  }

  /** How the hardware carries out each chunk: nothing special, or a failure. After a failed
      write the chunk's blocks may hold anything. */
  datatype Fate = Fine | Fails(code: nat, left: seq<Byte>)

  /** How many bytes of chunk n a request that ended in r may leave torn. */
  ghost function Torn(fates: seq<Fate>, n: nat, r: Result): nat {
    if r.Ok? || FateOf(fates, n).Fine? || FateOf(fates, n).left == [] then 0 else C.DMA_BUFFER_SIZE
  }

  function FateOf(fates: seq<Fate>, i: nat): Fate { if i < |fates| then fates[i] else Fine }

  ghost predicate AllFine(fates: seq<Fate>) { forall i :: 0 <= i < |fates| ==> fates[i].Fine? }

  /** The chunks so far went well, tile `done` blocks from `first`, and each was as large as it
      could be. */
  ghost predicate Cuts(chunks: seq<Chunk>, fates: seq<Fate>, first: nat, done: nat, end: nat, write: bool) {
    && Tiles(chunks, first, done)
    && forall i :: 0 <= i < |chunks| ==> FateOf(fates, i).Fine? && chunks[i].Greedy(end, write)
  }

  lemma CutsMore(chunks: seq<Chunk>, fates: seq<Fate>, first: nat, done: nat, end: nat, write: bool, c: Chunk)
    requires Cuts(chunks, fates, first, done, end, write) && c.first == first + done && c.Greedy(end, write)
    requires FateOf(fates, |chunks|).Fine?
    ensures Cuts(chunks + [c], fates, first, done + c.blocks, end, write)
  {
    TilesAppend(chunks, c, first, done);
  }

  /** An error is that of the chunk after the n that went well. */
  ghost predicate Reports(fates: seq<Fate>, n: nat, r: Result) {
    r.Err? ==> FateOf(fates, n).Fails? && r.error == Transfer(FateOf(fates, n).code)
  }

  // ---- Block by block, the reference ----

  ghost function BlockAt(data: seq<Byte>, b: nat): seq<Byte>
    requires (b + 1) * BLOCK_SIZE <= |data|
  {
    data[b * BLOCK_SIZE..(b + 1) * BLOCK_SIZE]
  }

  ghost function ReadOneByOne(data: seq<Byte>, block: nat, n: nat): seq<Byte>
    requires (block + n) * BLOCK_SIZE <= |data|
  {
    if n == 0 then [] else ReadOneByOne(data, block, n - 1) + BlockAt(data, block + n - 1)
  }

  ghost function Splice(data: seq<Byte>, at: nat, bytes: seq<Byte>): seq<Byte>
    requires at + |bytes| <= |data|
  {
    data[..at] + bytes + data[at + |bytes|..]
  }

  ghost function WriteOneByOne(data: seq<Byte>, block: nat, bytes: seq<Byte>): (r: seq<Byte>)
    requires |bytes| % BLOCK_SIZE == 0 && block * BLOCK_SIZE + |bytes| <= |data|
    ensures |r| == |data|
    decreases |bytes|
  {
    if bytes == [] then data
    else WriteOneByOne(Splice(data, block * BLOCK_SIZE, bytes[..BLOCK_SIZE]), block + 1, bytes[BLOCK_SIZE..])
  }

  lemma {:induction false} ReadIsOneByOne(data: seq<Byte>, block: nat, n: nat)
    requires (block + n) * BLOCK_SIZE <= |data|
    ensures ReadOneByOne(data, block, n) == data[block * BLOCK_SIZE..(block + n) * BLOCK_SIZE]
  {
    if n > 0 { ReadIsOneByOne(data, block, n - 1); }
  }

  lemma SpliceTwice(data: seq<Byte>, at: nat, a: seq<Byte>, b: seq<Byte>)
    requires at + |a| + |b| <= |data|
    ensures Splice(Splice(data, at, a), at + |a|, b) == Splice(data, at, a + b)
  {}

  lemma {:induction false} WriteIsOneByOne(data: seq<Byte>, block: nat, bytes: seq<Byte>)
    requires |bytes| % BLOCK_SIZE == 0 && block * BLOCK_SIZE + |bytes| <= |data|
    ensures WriteOneByOne(data, block, bytes) == Splice(data, block * BLOCK_SIZE, bytes)
    decreases |bytes|
  {
    if bytes == [] {
      assert Splice(data, block * BLOCK_SIZE, bytes) == data;
    } else {
      var head, tail := bytes[..BLOCK_SIZE], bytes[BLOCK_SIZE..];
      WriteIsOneByOne(Splice(data, block * BLOCK_SIZE, head), block + 1, tail);
      SpliceTwice(data, block * BLOCK_SIZE, head, tail);
      assert head + tail == bytes;
    }
  }

  /** The first `at` bytes are written at `start`, up to `torn` bytes of the request after them
      hold anything, and the rest of the card is as it was. */
  ghost predicate WrittenSoFar(now: seq<Byte>, was: seq<Byte>, start: nat, bytes: seq<Byte>, at: nat, torn: nat) {
    && |now| == |was| && at <= |bytes| && start + |bytes| <= |was|
    && forall i :: 0 <= i < |was| && !(start + at <= i < start + at + torn && i < start + |bytes|) ==>
         now[i] == if start <= i < start + at then bytes[i - start] else was[i]
  }

  /** The whole blocks left, and where the next chunk ends. */
  lemma BlocksLeft(len: nat, at: nat, done: nat, n: nat)
    requires len % BLOCK_SIZE == 0 && at == done * BLOCK_SIZE && at < len
    ensures (len - at) / BLOCK_SIZE == len / BLOCK_SIZE - done > 0
    ensures n <= len / BLOCK_SIZE - done ==> at + n * BLOCK_SIZE == (done + n) * BLOCK_SIZE <= len
  {}

  /** The card behind the driver. */
  class Card {
    var data: seq<Byte>
    const numBlocks: nat

    ghost predicate Valid() reads this { |data| == numBlocks * BLOCK_SIZE }

    constructor (data: seq<Byte>, numBlocks: nat)
      requires |data| == numBlocks * BLOCK_SIZE
      ensures Valid() && this.data == data && this.numBlocks == numBlocks
    {
      this.data, this.numBlocks := data, numBlocks;
    }

    /** `read_dma_chunk`: the caller's buffer is filled only after the transfer succeeded. */
    method ReadDmaChunk(block: C.u32, buf: array<Byte>, at: nat, len: nat, fate: Fate) returns (r: Result)
      requires Valid() && buf.Length >= at + len && block * BLOCK_SIZE + len <= |data|
      requires 0 < len <= C.DMA_BUFFER_SIZE && len % BLOCK_SIZE == 0
      requires len == BLOCK_SIZE || len >= MIN_MULTI_BLOCK_READ_BLOCKS * BLOCK_SIZE
      modifies buf
      ensures if fate.Fine? then r == Ok(len / BLOCK_SIZE) else r == Err(Transfer(fate.code))
      ensures forall i :: 0 <= i < buf.Length ==>
                buf[i] == if r.Ok? && at <= i < at + len then data[block * BLOCK_SIZE + (i - at)] else old(buf[i])
    {
      if fate.Fails? { return Err(Transfer(fate.code)); }
      forall i | at <= i < at + len { buf[i] := data[block * BLOCK_SIZE + (i - at)]; }
      r := Ok(len / BLOCK_SIZE);
    }

    method WriteDmaChunk(block: C.u32, bytes: seq<Byte>, fate: Fate) returns (r: Result)
      requires Valid() && block * BLOCK_SIZE + |bytes| <= |data|
      requires 0 < |bytes| <= C.DMA_BUFFER_SIZE && |bytes| % BLOCK_SIZE == 0
      modifies this
      ensures Valid() && if fate.Fine? then r == Ok(|bytes| / BLOCK_SIZE) else r == Err(Transfer(fate.code))
      ensures var at := block * BLOCK_SIZE;
              forall i :: 0 <= i < |data| && (r.Ok? || !(at <= i < at + |bytes|)) ==>
                data[i] == if at <= i < at + |bytes| then bytes[i - at] else old(data)[i]
      ensures fate.Fails? && fate.left == [] ==> data == old(data)
    {
      var at := block * BLOCK_SIZE;
      if fate.Fails? {
        if |fate.left| == |bytes| { data := data[..at] + fate.left + data[at + |bytes|..]; }
        return Err(Transfer(fate.code));
      }
      data := data[..at] + bytes + data[at + |bytes|..];
      r := Ok(|bytes| / BLOCK_SIZE);
    }

    /** One round of the loop in `read_blocks`, for the bytes from `at` on. */
    method ReadNext(block: C.u32, buf: array<Byte>, at: nat, len: nat, fate: Fate,
                    ghost was: seq<Byte>, ghost start: nat)
      returns (r: Result)
      requires Valid() && |was| == buf.Length && start + buf.Length <= |data| && block * BLOCK_SIZE == start + at
      requires forall i :: 0 <= i < buf.Length ==> buf[i] == if i < at then data[start + i] else was[i]
      requires 0 < len <= C.DMA_BUFFER_SIZE && len % BLOCK_SIZE == 0 && at + len <= buf.Length
      requires len == BLOCK_SIZE || len >= MIN_MULTI_BLOCK_READ_BLOCKS * BLOCK_SIZE
      modifies buf
      ensures if fate.Fine? then r == Ok(len / BLOCK_SIZE) else r == Err(Transfer(fate.code))
      ensures var upto := if r.Ok? then at + len else at;
              forall i :: 0 <= i < buf.Length ==> buf[i] == if i < upto then data[start + i] else was[i]
    {
      r := ReadDmaChunk(block, buf, at, len, fate);
    }

    /** The chunk loop of `read_blocks` on a validated request. The next block number stays below
        2^32, so the checked addition in the loop cannot fail. */
    method ReadChunks(first: C.u32, buf: array<Byte>, fates: seq<Fate>)
      returns (r: Result, chunks: seq<Chunk>, ghost done: nat)
      requires Valid() && Validate(numBlocks, first, buf.Length).Ok?
      modifies buf
      ensures done * BLOCK_SIZE <= buf.Length
      ensures Cuts(chunks, fates, first, done, first + buf.Length / BLOCK_SIZE, false)
      ensures forall i :: 0 <= i < buf.Length ==>
                buf[i] == if i < done * BLOCK_SIZE then data[first * BLOCK_SIZE + i] else old(buf[i])
      ensures r.Ok? ==> r.blocks == done == buf.Length / BLOCK_SIZE
      ensures Reports(fates, |chunks|, r)
    {
      var block: C.u32, at := first, 0;
      ghost var start, total := first * BLOCK_SIZE, buf.Length / BLOCK_SIZE;
      chunks, done := [], 0;
      while at < buf.Length
        invariant at == done * BLOCK_SIZE && done <= total && (at < buf.Length ==> block == first + done)
        invariant forall i :: 0 <= i < buf.Length ==> buf[i] == if i < at then data[start + i] else old(buf[i])
        invariant Cuts(chunks, fates, first, done, first + total, false)
      {
        var remaining := (buf.Length - at) / BLOCK_SIZE;
        var n := ReadChunkBlocks(remaining);
        BlocksLeft(buf.Length, at, done, n);
        assert 1 <= n && done + n <= total && block * BLOCK_SIZE == start + at;
        r := ReadNext(block, buf, at, n * BLOCK_SIZE, FateOf(fates, |chunks|), old(buf[..]), start);
        if r.Err? { return; }
        CutsMore(chunks, fates, first, done, first + total, false, Chunk(block, n));
        chunks, done := chunks + [Chunk(block, n)], done + n;
        at := at + n * BLOCK_SIZE;
        if at < buf.Length { block := block + n; }
      }
      r := Ok(buf.Length / BLOCK_SIZE);
    }

    /** The buffer ends up as if each block had been read on its own; when a chunk fails, the
        blocks of the chunks before it are in place and the rest of the buffer is untouched. */
    method ReadBlocks(first: C.u32, buf: array<Byte>, fates: seq<Fate>)
      returns (r: Result, chunks: seq<Chunk>, ghost done: nat)
      requires Valid()
      modifies buf
      ensures var v := Validate(numBlocks, first, buf.Length);
              && (v.Err? ==> r == v && done == 0)
              && (v.Ok? && AllFine(fates) ==> r == v)
              && (v.Ok? ==> Reports(fates, |chunks|, r))
              && (r.Ok? ==> r == v && done == r.blocks)
      ensures Cuts(chunks, fates, first, done, first + buf.Length / BLOCK_SIZE, false)
      ensures done * BLOCK_SIZE <= buf.Length && (done > 0 ==> first + done <= numBlocks)
      ensures buf[..] == (if done == 0 then [] else ReadOneByOne(data, first, done)) + old(buf[..])[done * BLOCK_SIZE..]
    {
      r, chunks, done := Validate(numBlocks, first, buf.Length), [], 0;
      if r.Err? { return; }
      r, chunks, done := ReadChunks(first, buf, fates);
      ReadIsOneByOne(data, first, done);
      assert buf[..] == data[first * BLOCK_SIZE..(first + done) * BLOCK_SIZE] + old(buf[..])[done * BLOCK_SIZE..];
    }

    /** One round of the loop in `write_blocks`, for the bytes from `at` on. */
    method WriteNext(block: C.u32, bytes: seq<Byte>, at: nat, len: nat, fate: Fate,
                     ghost was: seq<Byte>, ghost start: nat)
      returns (r: Result)
      requires Valid() && WrittenSoFar(data, was, start, bytes, at, 0) && block * BLOCK_SIZE == start + at
      requires 0 < len <= C.DMA_BUFFER_SIZE && len % BLOCK_SIZE == 0 && at + len <= |bytes|
      modifies this
      ensures Valid() && if fate.Fine? then r == Ok(len / BLOCK_SIZE) else r == Err(Transfer(fate.code))
      ensures r.Ok? ==> WrittenSoFar(data, was, start, bytes, at + len, 0)
      ensures r.Err? ==> WrittenSoFar(data, was, start, bytes, at, if fate.left == [] then 0 else C.DMA_BUFFER_SIZE)
    {
      r := WriteDmaChunk(block, bytes[at..at + len], fate);
    }

    /** The chunk loop of `write_blocks` on a validated request. */
    method WriteChunks(first: C.u32, bytes: seq<Byte>, fates: seq<Fate>)
      returns (r: Result, chunks: seq<Chunk>, ghost done: nat)
      requires Valid() && Validate(numBlocks, first, |bytes|).Ok?
      modifies this
      ensures Valid() && Cuts(chunks, fates, first, done, first + |bytes| / BLOCK_SIZE, true)
      ensures WrittenSoFar(data, old(data), first * BLOCK_SIZE, bytes, done * BLOCK_SIZE, Torn(fates, |chunks|, r))
      ensures r.Ok? ==> r.blocks == done == |bytes| / BLOCK_SIZE
      ensures Reports(fates, |chunks|, r)
    {
      var block: C.u32, at := first, 0;
      ghost var start, total := first * BLOCK_SIZE, |bytes| / BLOCK_SIZE;
      chunks, done := [], 0;
      while at < |bytes|
        invariant Valid() && at == done * BLOCK_SIZE && done <= total && (at < |bytes| ==> block == first + done)
        invariant WrittenSoFar(data, old(data), start, bytes, at, 0)
        invariant Cuts(chunks, fates, first, done, first + total, true)
      {
        var remaining := (|bytes| - at) / BLOCK_SIZE;
        var n := WriteChunkBlocks(remaining);
        BlocksLeft(|bytes|, at, done, n);
        assert 1 <= n && done + n <= total && block * BLOCK_SIZE == start + at;
        r := WriteNext(block, bytes, at, n * BLOCK_SIZE, FateOf(fates, |chunks|), old(data), start);
        if r.Err? { return; }
        CutsMore(chunks, fates, first, done, first + total, true, Chunk(block, n));
        chunks, done := chunks + [Chunk(block, n)], done + n;
        at := at + n * BLOCK_SIZE;
        if at < |bytes| { block := block + n; }
      }
      r := Ok(|bytes| / BLOCK_SIZE);
    }

    /** The card ends up as if each block had been written on its own. */
    method WriteBlocks(first: C.u32, bytes: seq<Byte>, fates: seq<Fate>)
      returns (r: Result, chunks: seq<Chunk>, ghost done: nat)
      requires Valid()
      modifies this
      ensures Valid()
      ensures var v := Validate(numBlocks, first, |bytes|);
              && (v.Err? ==> r == v && done == 0 && data == old(data))
              && (v.Ok? && AllFine(fates) ==> r == v)
              && (v.Ok? ==> Reports(fates, |chunks|, r))
              && (r.Ok? ==> r == v && done == r.blocks && data == WriteOneByOne(old(data), first, bytes))
      ensures Cuts(chunks, fates, first, done, first + |bytes| / BLOCK_SIZE, true)
      ensures Validate(numBlocks, first, |bytes|).Ok? && r.Err? ==>
                WrittenSoFar(data, old(data), first * BLOCK_SIZE, bytes, done * BLOCK_SIZE, Torn(fates, |chunks|, r))
    {
      r, chunks, done := Validate(numBlocks, first, |bytes|), [], 0;
      if r.Err? { return; }
      r, chunks, done := WriteChunks(first, bytes, fates);
      WriteIsOneByOne(old(data), first, bytes);
      assert r.Ok? ==> data == Splice(old(data), first * BLOCK_SIZE, bytes);
    }
  }

  /** What is written is read back, whatever the two chunkings are. */
  lemma WrittenIsReadBack(data: seq<Byte>, block: nat, bytes: seq<Byte>)
    requires |bytes| % BLOCK_SIZE == 0 && block * BLOCK_SIZE + |bytes| <= |data|
    ensures ReadOneByOne(WriteOneByOne(data, block, bytes), block, |bytes| / BLOCK_SIZE) == bytes
  {
    WriteIsOneByOne(data, block, bytes);
    ReadIsOneByOne(WriteOneByOne(data, block, bytes), block, |bytes| / BLOCK_SIZE);
  }
}
