/** `read_blocks` and `write_blocks` down to the DMA transfers: what the driver of `SdMmcDriver`
    makes of each chunk is what the chunk loops of `BlockTransfer` run into. The driver's state and
    the bytes of the caller and of the card are apart, so the transfers of a request are followed
    first and its bytes after. */
module BlockDriver {
  import B = BlockTransfer
  import C = IdmacChain
  import D = SdMmcDriver
  import R = SdRegisters
  import Q = CardCommands

  type Byte = B.Byte

  datatype Result = Moved(blocks: nat) | Invalid(error: B.Error) | Failed(outcome: D.Outcome)

  /** What the hardware answers to chunk k, and what a failed write leaves in the chunk's blocks. */
  datatype Answer = Answer(hw: D.Hw, spins: seq<D.Spin>, left: seq<Byte>)

  /** The chunks of a whole request. */
  ghost function Plan(block: nat, n: nat, write: bool): seq<B.Chunk>
    requires block + n <= C.TWO32
    decreases n
  {
    if n == 0 then []
    else
      var size := Size(n, write);
      [B.Chunk(block, size)] + Plan(block + size, n - size, write)
  }

  function Size(n: nat, write: bool): (size: nat)
    requires n > 0
    ensures 1 <= size <= n && size <= B.MAX_DMA_BLOCKS
  {
    if write then B.WriteChunkBlocks(n) else B.ReadChunkBlocks(n)
  }

  /** The part of the driver's state that decides about a chunk. */
  datatype Standing = Standing(faulted: bool, buffer: R.Option<D.Buffer>) {
    ghost predicate HasBuffer() { buffer.Some? && buffer.value.bus < C.TWO32 }

    /** The driver is usable and the hardware carries chunk c through. */
    ghost predicate Carries(c: B.Chunk, write: bool, answer: Answer) {
      && !faulted && HasBuffer() && D.Smooth(CommandOf(c, write), buffer.value.bus, answer.hw)
      && (write ==> D.GoesIdle(answer.spins))
    }
  }

  function CommandOf(c: B.Chunk, write: bool): R.Command {
    D.BlockCommand(write, c.first, c.blocks * B.BLOCK_SIZE)
  }

  /** The chunks from k on are those of the `rest` blocks from `block` on. */
  ghost predicate Progress(plan: seq<B.Chunk>, k: nat, block: nat, rest: nat, write: bool) {
    k <= |plan| && block + rest <= C.TWO32 && plan[k..] == Plan(block, rest, write)
  }

  lemma NextChunk(plan: seq<B.Chunk>, k: nat, block: nat, rest: nat, write: bool)
    requires Progress(plan, k, block, rest, write) && rest > 0
    ensures k < |plan| && plan[k] == B.Chunk(block, Size(rest, write))
    ensures Progress(plan, k + 1, block + Size(rest, write), rest - Size(rest, write), write)
  {
    assert plan[k] == plan[k..][0] && plan[k + 1..] == plan[k..][1..];
  }

  /** Command x moves exactly the blocks of chunk c, towards the card or from it: the single-block
      command for one block, the multiple-block command otherwise. */
  ghost predicate Issues(x: R.Command, c: B.Chunk, write: bool) {
    if write then
      (if c.blocks == 1 then x == R.WriteSingleBlock(c.first, 512)
       else x == R.WriteMultipleBlocks(c.first, c.blocks * 512))
    else
      (if c.blocks == 1 then x == R.ReadSingleBlock(c.first, 512)
       else x == R.ReadMultipleBlocks(c.first, c.blocks * 512))
  }

  ghost predicate Issued(commands: seq<R.Command>, plan: seq<B.Chunk>, write: bool) {
    |commands| <= |plan| && forall k :: 0 <= k < |commands| ==> Issues(commands[k], plan[k], write)
  }

  /** One chunk on the driver: a faulted driver refuses it and does nothing. */
  method Drive(driver: D.SdMmc, c: B.Chunk, write: bool, answer: Answer)
    returns (o: D.Outcome, ghost sent: seq<R.Command>)
    requires driver.Valid()
    modifies driver
    ensures driver.Valid() && driver.buffer == old(driver.buffer) && (o.Ok? ==> !driver.faulted)
    ensures old(driver.faulted) ==> driver.faulted && driver.log == old(driver.log)
    ensures var d := Standing(old(driver.faulted), old(driver.buffer));
            && (o.Ok? <==> d.Carries(c, write, answer))
            && (d.faulted && d.HasBuffer() ==> o == D.Err(D.DriverFaulted))
    ensures driver.m.commands == old(driver.m).commands + sent && |sent| <= 1 && (o.Ok? ==> |sent| == 1)
    ensures sent != [] ==> Issues(sent[0], c, write)
  {
    var len := c.blocks * B.BLOCK_SIZE;
    sent := if driver.Sends(write, c.first, len, answer.hw) then [D.BlockCommand(write, c.first, len)] else [];
    if write {
      o := driver.WriteChunk(c.first, c.blocks * B.BLOCK_SIZE, answer.hw, answer.spins);
    } else {
      o := driver.Chunk(false, c.first, c.blocks * B.BLOCK_SIZE, answer.hw);
    }
  }

  /** The fates of the first chunks of a plan: they are what the driver makes of them, and only the
      last may be a failure. */
  ghost predicate Fated(d: Standing, plan: seq<B.Chunk>, write: bool, answers: nat -> Answer, fates: seq<B.Fate>) {
    && |fates| <= |plan|
    && (forall k {:trigger FateFits(d, plan[k], write, answers(k), fates[k])} :: 0 <= k < |fates| ==>
          FateFits(d, plan[k], write, answers(k), fates[k]))
    && (forall k :: 0 <= k < |fates| - 1 ==> fates[k].Fine?)
  }

  ghost predicate FateFits(d: Standing, c: B.Chunk, write: bool, answer: Answer, fate: B.Fate) {
    fate.Fine? <==> d.Carries(c, write, answer)
  }

  lemma FatedMore(d: Standing, plan: seq<B.Chunk>, write: bool, answers: nat -> Answer,
                  fates: seq<B.Fate>, fate: B.Fate)
    requires Fated(d, plan, write, answers, fates) && B.AllFine(fates) && |fates| < |plan|
    requires FateFits(d, plan[|fates|], write, answers(|fates|), fate)
    ensures Fated(d, plan, write, answers, fates + [fate]) && (fate.Fine? ==> B.AllFine(fates + [fate]))
  {
    var more := fates + [fate];
    forall k | 0 <= k < |more| ensures FateFits(d, plan[k], write, answers(k), more[k]) {
      if k < |fates| { assert FateFits(d, plan[k], write, answers(k), fates[k]); }
    }
  }

  /** Where the transfers of a request stand: all so far went well, on a driver that is as it was, and
      each has been started with its command. */
  ghost predicate Underway(d: Standing, plan: seq<B.Chunk>, write: bool, answers: nat -> Answer,
                           fates: seq<B.Fate>, commands: seq<R.Command>, block: nat, rest: nat)
  {
    match d
    case Standing(faulted, _) =>
      && Progress(plan, |fates|, block, rest, write) && Fated(d, plan, write, answers, fates) && B.AllFine(fates)
      && (fates != [] ==> !faulted) && Issued(commands, plan, write) && |commands| == |fates|
  }

  /** The transfers end with a chunk that failed, perhaps before it was started. */
  ghost predicate Ended(d: Standing, plan: seq<B.Chunk>, write: bool, answers: nat -> Answer,
                        fates: seq<B.Fate>, commands: seq<R.Command>)
  {
    match d
    case Standing(_, _) =>
      && fates != [] && Fated(d, plan, write, answers, fates) && fates[|fates| - 1].Fails?
      && Issued(commands, plan, write) && |fates| - 1 <= |commands| <= |fates|
  }

  lemma RoundEnds(d: Standing, plan: seq<B.Chunk>, write: bool, answers: nat -> Answer, fates: seq<B.Fate>,
                  commands: seq<R.Command>, block: nat, rest: nat, fate: B.Fate, sent: seq<R.Command>)
    requires Underway(d, plan, write, answers, fates, commands, block, rest) && rest > 0 && |fates| < |plan|
    requires FateFits(d, plan[|fates|], write, answers(|fates|), fate)
    requires |sent| <= 1 && (sent != [] ==> Issues(sent[0], plan[|fates|], write)) && (fate.Fine? ==> sent != [])
    ensures fate.Fine? ==> var size := Size(rest, write);
              Underway(d, plan, write, answers, fates + [fate], commands + sent, block + size, rest - size)
    ensures fate.Fails? ==> Ended(d, plan, write, answers, fates + [fate], commands + sent)
  {
    NextChunk(plan, |fates|, block, rest, write);
    FatedMore(d, plan, write, answers, fates, fate);
    forall k | 0 <= k < |commands + sent| ensures Issues((commands + sent)[k], plan[k], write) {
      if k < |commands| { assert Issues(commands[k], plan[k], write); }
    }
  }

  /** Where the transfers of a request stand after the last round, or before the first. */
  ghost predicate Stands(d: Standing, plan: seq<B.Chunk>, write: bool, answers: nat -> Answer, fates: seq<B.Fate>,
                         commands: seq<R.Command>, block: nat, rest: nat, last: D.Outcome)
  {
    if last.Ok? then Underway(d, plan, write, answers, fates, commands, block, rest)
    else Ended(d, plan, write, answers, fates, commands)
  }

  /** One round of the loop; `before` are the commands started before this request. */
  method DriveNext(driver: D.SdMmc, ghost d: Standing, ghost plan: seq<B.Chunk>, write: bool, answers: nat -> Answer,
                   fates: seq<B.Fate>, ghost before: seq<R.Command>, ghost commands: seq<R.Command>,
                   block: nat, rest: nat)
    returns (o: D.Outcome, fate: B.Fate, ghost more: seq<R.Command>)
    requires driver.Valid() && d == Standing(driver.faulted, driver.buffer) && rest > 0
    requires driver.m.commands == before + commands
    requires Underway(d, plan, write, answers, fates, commands, block, rest)
    modifies driver
    ensures driver.Valid() && driver.buffer == d.buffer && driver.m.commands == before + more
    ensures d.faulted ==> driver.faulted && driver.log == old(driver.log) && !o.Ok?
    ensures !o.Ok? && (d.faulted || !driver.faulted) ==> fate.Fails? && fate.left == []
    ensures o.Ok? ==> !driver.faulted
    ensures var size := Size(rest, write);
            Stands(d, plan, write, answers, fates + [fate], more, block + size, rest - size, o)
    ensures d.faulted && d.HasBuffer() ==> o == D.Err(D.DriverFaulted)
  {
    NextChunk(plan, |fates|, block, rest, write);
    var answer, faulted := answers(|fates|), driver.faulted;
    ghost var sent;
    o, sent := Drive(driver, B.Chunk(block, Size(rest, write)), write, answer);
    fate := if o.Ok? then B.Fine else B.Fails(0, if driver.faulted && !faulted then answer.left else []);
    RoundEnds(d, plan, write, answers, fates, commands, block, rest, fate, sent);
    more := commands + sent;
    assert before + commands + sent == before + more;
  }

  /** The transfers of a request: they stop at the first chunk that fails, and as long as chunks go
      well the driver stays as it was. */
  method Carry(driver: D.SdMmc, first: C.u32, n: nat, write: bool, answers: nat -> Answer,
               ghost d: Standing, ghost plan: seq<B.Chunk>)
    returns (last: D.Outcome, fates: seq<B.Fate>, ghost commands: seq<R.Command>)
    requires driver.Valid() && n > 0 && first + n <= C.TWO32
    requires d == Standing(driver.faulted, driver.buffer) && plan == Plan(first, n, write)
    modifies driver
    ensures driver.Valid() && driver.buffer == d.buffer && driver.m.commands == old(driver.m).commands + commands
    ensures fates != [] && Stands(d, plan, write, answers, fates, commands, first + n, 0, last)
    ensures d.faulted ==> driver.faulted && driver.log == old(driver.log) && |fates| == 1 && !last.Ok?
    ensures d.faulted && d.HasBuffer() ==> last == D.Err(D.DriverFaulted)
    ensures last.Ok? ==> !driver.faulted
    ensures !last.Ok? && (d.faulted || !driver.faulted) ==> fates[|fates| - 1].left == []
  {
    ghost var before := driver.m.commands;
    var block: nat, rest: nat := first, n;
    fates, commands, last := [], [], D.Ok(0);
    assert plan[0..] == plan;
    while rest > 0 && last.Ok?
      invariant driver.Valid() && driver.buffer == d.buffer && driver.m.commands == before + commands
      invariant last.Ok? ==> driver.faulted == d.faulted && block + rest == first + n
      invariant (fates == [] ==> rest == n && last.Ok?) && (fates != [] && last.Ok? ==> !d.faulted)
      invariant d.faulted ==> driver.faulted && driver.log == old(driver.log) && |fates| <= 1
      invariant d.faulted && d.HasBuffer() && fates != [] ==> last == D.Err(D.DriverFaulted)
      invariant Stands(d, plan, write, answers, fates, commands, block, rest, last)
      invariant !last.Ok? && (d.faulted || !driver.faulted) ==> fates[|fates| - 1].left == []
    {
      var fate;
      last, fate, commands := DriveNext(driver, d, plan, write, answers, fates, before, commands, block, rest);
      fates := fates + [fate];
      block, rest := block + Size(rest, write), rest - Size(rest, write);
    }
  }

  lemma GreedyHasSize(c: B.Chunk, end: nat, write: bool)
    requires c.Greedy(end, write)
    ensures c.first < end && c.blocks == Size(end - c.first, write)
  {}

  lemma CutsBefore(chunks: seq<B.Chunk>, fates: seq<B.Fate>, first: nat, done: nat, end: nat, write: bool)
    requires chunks != [] && B.Cuts(chunks, fates, first, done, end, write)
    ensures var init, last := chunks[..|chunks| - 1], chunks[|chunks| - 1];
            && last.Greedy(end, write) && last.blocks <= done && last.first + last.blocks == first + done
            && B.Cuts(init, fates, first, done - last.blocks, end, write)
  {
    assert chunks[|chunks| - 1].Greedy(end, write);
  }

  lemma PrefixGrows(plan: seq<B.Chunk>, chunks: seq<B.Chunk>)
    requires chunks != [] && |chunks| <= |plan|
    requires chunks[..|chunks| - 1] == plan[..|chunks| - 1] && chunks[|chunks| - 1] == plan[|chunks| - 1]
    ensures chunks == plan[..|chunks|]
  {
    assert chunks == chunks[..|chunks| - 1] + [chunks[|chunks| - 1]];
    assert plan[..|chunks|] == plan[..|chunks| - 1] + [plan[|chunks| - 1]];
  }

  /** The first chunks of a plan, and where the rest of it begins. */
  ghost predicate Follows(chunks: seq<B.Chunk>, plan: seq<B.Chunk>, block: nat, rest: nat, write: bool) {
    |chunks| <= |plan| && chunks == plan[..|chunks|] && Progress(plan, |chunks|, block, rest, write)
  }

  lemma FollowsMore(chunks: seq<B.Chunk>, plan: seq<B.Chunk>, rest: nat, write: bool)
    requires chunks != [] && chunks[|chunks| - 1].blocks <= rest && rest > 0
    requires chunks[|chunks| - 1].blocks == Size(rest, write)
    requires Follows(chunks[..|chunks| - 1], plan, chunks[|chunks| - 1].first, rest, write)
    ensures Follows(chunks, plan, chunks[|chunks| - 1].first + Size(rest, write), rest - Size(rest, write), write)
  {
    NextChunk(plan, |chunks| - 1, chunks[|chunks| - 1].first, rest, write);
    PrefixGrows(plan, chunks);
  }

  /** The chunk loop on the bytes cuts the request into the same chunks. */
  lemma {:induction false} CutsFollowPlan(chunks: seq<B.Chunk>, fates: seq<B.Fate>, first: nat, n: nat, done: nat,
                                          write: bool, plan: seq<B.Chunk>)
    requires first + n <= C.TWO32 && plan == Plan(first, n, write)
    requires B.Cuts(chunks, fates, first, done, first + n, write)
    ensures done <= n && Follows(chunks, plan, first + done, n - done, write)
  {
    if chunks == [] {
      assert plan[0..] == plan;
    } else {
      var last := chunks[|chunks| - 1];
      CutsBefore(chunks, fates, first, done, first + n, write);
      GreedyHasSize(last, first + n, write);
      CutsFollowPlan(chunks[..|chunks| - 1], fates, first, n, done - last.blocks, write, plan);
      FollowsMore(chunks, plan, n - (done - last.blocks), write);
    }
  }

  /** The loop on the bytes goes as far as the transfers did. */
  lemma LoopEnds(d: Standing, first: nat, n: nat, write: bool, answers: nat -> Answer, fates: seq<B.Fate>,
                 chunks: seq<B.Chunk>, done: nat, t: B.Result)
    requires first + n <= C.TWO32 && Fated(d, Plan(first, n, write), write, answers, fates)
    requires B.Cuts(chunks, fates, first, done, first + n, write)
    requires B.Reports(fates, |chunks|, t) && (t.Ok? ==> done == n)
    requires fates != [] && fates[|fates| - 1].Fails?
    ensures t.Err? && |chunks| == |fates| - 1 && chunks == Plan(first, n, write)[..|chunks|]
  {
    CutsFollowPlan(chunks, fates, first, n, done, write, Plan(first, n, write));
    assert B.FateOf(fates, |fates| - 1).Fails?;
  }

  /** All chunks of the plan are carried through. */
  ghost predicate CarriesAll(d: Standing, plan: seq<B.Chunk>, write: bool, answers: nat -> Answer) {
    forall k {:trigger plan[k]} :: 0 <= k < |plan| ==> d.Carries(plan[k], write, answers(k))
  }

  /** Chunk k is the first that is not. */
  ghost predicate StopsAt(d: Standing, plan: seq<B.Chunk>, write: bool, answers: nat -> Answer, k: nat) {
    && k < |plan| && !d.Carries(plan[k], write, answers(k))
    && forall j {:trigger plan[j]} :: 0 <= j < k ==> d.Carries(plan[j], write, answers(j))
  }

  /** When the transfers are over, what they say about the plan. */
  lemma StandingTells(d: Standing, plan: seq<B.Chunk>, write: bool, answers: nat -> Answer, fates: seq<B.Fate>,
                      commands: seq<R.Command>, block: nat, last: D.Outcome)
    requires Stands(d, plan, write, answers, fates, commands, block, 0, last) && fates != []
    ensures last.Ok? <==> CarriesAll(d, plan, write, answers)
    ensures last.Ok? ==> B.AllFine(fates) && |fates| == |commands| == |plan|
    ensures !last.Ok? ==> fates[|fates| - 1].Fails? && StopsAt(d, plan, write, answers, |fates| - 1)
    ensures Fated(d, plan, write, answers, fates) && Issued(commands, plan, write)
  {
    forall k | 0 <= k < |fates| ensures fates[k].Fine? <==> d.Carries(plan[k], write, answers(k)) {
      assert FateFits(d, plan[k], write, answers(k), fates[k]);
    }
    if last.Ok? { assert Plan(block, 0, write) == []; }
  }

  lemma {:induction false} IssuedCovers(commands: seq<R.Command>, first: nat, n: nat, write: bool)
    requires first + n <= C.TWO32 && Issued(commands, Plan(first, n, write), write)
    requires |commands| == |Plan(first, n, write)|
    ensures Q.Covers(commands, first, n, write)
    decreases n
  {
    if n > 0 {
      var size := Size(n, write);
      var plan, rest := Plan(first, n, write), Plan(first + size, n - size, write);
      assert plan[0] == B.Chunk(first, size) && plan[1..] == rest;
      assert Issues(commands[0], plan[0], write);
      forall k | 0 <= k < |commands[1..]| ensures Issues(commands[1..][k], rest[k], write) {
        assert Issues(commands[k + 1], plan[k + 1], write);
      }
      IssuedCovers(commands[1..], first + size, n - size, write);
      Q.CoversMore(commands, first, size, n, write);
    }
  }

  /** The reads of a whole plan deliver the request. */
  lemma MovedReads(data: seq<Byte>, commands: seq<R.Command>, first: nat, n: nat)
    requires first + n <= C.TWO32 && (first + n) * B.BLOCK_SIZE <= |data|
    requires Issued(commands, Plan(first, n, false), false) && |commands| == |Plan(first, n, false)|
    ensures Q.Covers(commands, first, n, false) && Q.DeliveredAll(data, commands) == B.ReadOneByOne(data, first, n)
  {
    IssuedCovers(commands, first, n, false);
    Q.CoveringReadsDeliver(data, commands, first, n);
    B.ReadIsOneByOne(data, first, n);
  }

  /** The writes of a whole plan store the request. */
  lemma MovedWrites(data: seq<Byte>, commands: seq<R.Command>, first: nat, n: nat, bytes: seq<Byte>)
    requires first + n <= C.TWO32 && (first + n) * B.BLOCK_SIZE <= |data| && |bytes| == n * B.BLOCK_SIZE
    requires Issued(commands, Plan(first, n, true), true) && |commands| == |Plan(first, n, true)|
    ensures Q.Covers(commands, first, n, true)
    ensures Q.StoredAll(data, commands, bytes) == B.WriteOneByOne(data, first, bytes)
  {
    IssuedCovers(commands, first, n, true);
    StoredIsWritten(data, commands, first, n, bytes);
  }

  lemma StoredIsWritten(data: seq<Byte>, commands: seq<R.Command>, first: nat, n: nat, bytes: seq<Byte>)
    requires (first + n) * B.BLOCK_SIZE <= |data| && |bytes| == n * B.BLOCK_SIZE && Q.Covers(commands, first, n, true)
    ensures |bytes| % B.BLOCK_SIZE == 0 && first * B.BLOCK_SIZE + |bytes| <= |data|
    ensures Q.StoredAll(data, commands, bytes) == B.WriteOneByOne(data, first, bytes)
  {
    Q.CoveringWritesStore(data, commands, first, n, bytes);
    B.WriteIsOneByOne(data, first, bytes);
    assert Q.Offset(first) == first * B.BLOCK_SIZE;
  }

  /** The bytes of a valid read request whose transfers ended in `last`. */
  method ReadBytes(card: B.Card, first: C.u32, buf: array<Byte>, n: nat, fates: seq<B.Fate>, last: D.Outcome,
                   ghost d: Standing, ghost plan: seq<B.Chunk>, ghost answers: nat -> Answer,
                   ghost commands: seq<R.Command>)
    returns (ghost k: nat, ghost done: nat)
    requires card.Valid() && B.Validate(card.numBlocks, first, buf.Length) == B.Ok(n) && fates != []
    requires plan == Plan(first, n, false) && Stands(d, plan, false, answers, fates, commands, first + n, 0, last)
    modifies buf
    ensures Issued(commands, plan, false) && (last.Ok? <==> CarriesAll(d, plan, false, answers))
    ensures last.Ok? ==> buf[..] == B.ReadOneByOne(card.data, first, n)
    ensures last.Ok? ==> Q.Covers(commands, first, n, false) && buf[..] == Q.DeliveredAll(card.data, commands)
    ensures !last.Ok? ==> StopsAt(d, plan, false, answers, k) && B.Tiles(plan[..k], first, done) && done <= n
    ensures !last.Ok? ==> buf[..] == (if done == 0 then [] else B.ReadOneByOne(card.data, first, done))
                                     + old(buf[..])[done * B.BLOCK_SIZE..]
    ensures !last.Ok? && |fates| == 1 ==> buf[..] == old(buf[..])
  {
    StandingTells(d, plan, false, answers, fates, commands, first + n, last);
    var t, chunks;
    t, chunks, done := card.ReadBlocks(first, buf, fates);
    k := |chunks|;
    if last.Ok? {
      MovedReads(card.data, commands, first, n);
    } else {
      LoopEnds(d, first, n, false, answers, fates, chunks, done, t);
    }
  }

  /** `read_blocks`. An invalid request changes nothing. A valid one fills the buffer, as if each
      block had been read on its own, exactly when the driver is usable and the hardware carries
      every chunk through, and then it holds what the started commands, all of them reads, deliver;
      otherwise the chunks before the first that is not carried are in place and the rest of the
      buffer is as it was. A faulted driver refuses and does nothing. */
  method ReadBlocks(driver: D.SdMmc, card: B.Card, first: C.u32, buf: array<Byte>, answers: nat -> Answer)
    returns (r: Result, ghost k: nat, ghost done: nat, ghost commands: seq<R.Command>)
    requires driver.Valid() && card.Valid()
    modifies driver, buf
    ensures driver.Valid() && driver.buffer == old(driver.buffer)
    ensures driver.m.commands == old(driver.m).commands + commands
    ensures old(driver.faulted) ==> driver.faulted && driver.log == old(driver.log) && buf[..] == old(buf[..])
    ensures r.Moved? ==> Q.Covers(commands, first, r.blocks, false) && buf[..] == Q.DeliveredAll(card.data, commands)
    ensures var v := B.Validate(card.numBlocks, first, buf.Length);
            if v.Err? then r == Invalid(v.error) && driver.log == old(driver.log) && buf[..] == old(buf[..])
            else
              var d, plan := Standing(old(driver.faulted), old(driver.buffer)), Plan(first, v.blocks, false);
              && Issued(commands, plan, false) && (r.Moved? <==> CarriesAll(d, plan, false, answers))
              && (if r.Moved? then
                    && r.blocks == v.blocks && !driver.faulted
                    && buf[..] == B.ReadOneByOne(card.data, first, v.blocks)
                  else
                    && r.Failed? && StopsAt(d, plan, false, answers, k) && B.Tiles(plan[..k], first, done)
                    && done <= v.blocks
                    && buf[..] == (if done == 0 then [] else B.ReadOneByOne(card.data, first, done))
                                  + old(buf[..])[done * B.BLOCK_SIZE..])
              && (d.faulted && d.HasBuffer() ==> r == Failed(D.Err(D.DriverFaulted)))
  {
    var v := B.Validate(card.numBlocks, first, buf.Length);
    if v.Err? { return Invalid(v.error), 0, 0, []; }
    ghost var d, plan := Standing(driver.faulted, driver.buffer), Plan(first, v.blocks, false);
    var last, fates;
    last, fates, commands := Carry(driver, first, v.blocks, false, answers, d, plan);
    k, done := ReadBytes(card, first, buf, v.blocks, fates, last, d, plan, answers, commands);
    r := if last.Ok? then Moved(v.blocks) else Failed(last);
  }

  /** The bytes of a valid write request whose transfers ended in `last`. */
  method WriteBytes(card: B.Card, first: C.u32, bytes: seq<Byte>, n: nat, fates: seq<B.Fate>, last: D.Outcome,
                    ghost d: Standing, ghost plan: seq<B.Chunk>, ghost answers: nat -> Answer,
                    ghost commands: seq<R.Command>)
    returns (ghost k: nat, ghost done: nat)
    requires card.Valid() && B.Validate(card.numBlocks, first, |bytes|) == B.Ok(n) && fates != []
    requires plan == Plan(first, n, true) && Stands(d, plan, true, answers, fates, commands, first + n, 0, last)
    modifies card
    ensures card.Valid() && Issued(commands, plan, true) && (last.Ok? <==> CarriesAll(d, plan, true, answers))
    ensures last.Ok? ==> card.data == B.WriteOneByOne(old(card.data), first, bytes)
    ensures last.Ok? ==> Q.Covers(commands, first, n, true) && card.data == Q.StoredAll(old(card.data), commands, bytes)
    ensures !last.Ok? ==> StopsAt(d, plan, true, answers, k) && B.Tiles(plan[..k], first, done) && k == |fates| - 1
    ensures !last.Ok? ==> fates[|fates| - 1].Fails?
    ensures !last.Ok? ==>
              B.WrittenSoFar(card.data, old(card.data), first * B.BLOCK_SIZE, bytes, done * B.BLOCK_SIZE,
                             if fates[|fates| - 1].left == [] then 0 else C.DMA_BUFFER_SIZE)
    ensures !last.Ok? && |fates| == 1 && fates[0].left == [] ==> card.data == old(card.data)
  {
    StandingTells(d, plan, true, answers, fates, commands, first + n, last);
    var t, chunks;
    t, chunks, done := card.WriteBlocks(first, bytes, fates);
    k := |chunks|;
    if last.Ok? {
      MovedWrites(old(card.data), commands, first, n, bytes);
    } else {
      LoopEnds(d, first, n, true, answers, fates, chunks, done, t);
    }
  }

  /** `write_blocks`, in the same way: a request that fails leaves at most the blocks of the first
      chunk that was not carried through in doubt, and none if nothing was started. */
  method WriteBlocks(driver: D.SdMmc, card: B.Card, first: C.u32, bytes: seq<Byte>, answers: nat -> Answer)
    returns (r: Result, ghost k: nat, ghost done: nat, ghost commands: seq<R.Command>)
    requires driver.Valid() && card.Valid()
    modifies driver, card
    ensures driver.Valid() && card.Valid() && driver.buffer == old(driver.buffer)
    ensures driver.m.commands == old(driver.m).commands + commands
    ensures old(driver.faulted) ==> driver.faulted && driver.log == old(driver.log) && card.data == old(card.data)
    ensures r.Moved? ==> Q.Covers(commands, first, r.blocks, true)
    ensures r.Moved? ==> card.data == Q.StoredAll(old(card.data), commands, bytes)
    ensures var v := B.Validate(card.numBlocks, first, |bytes|);
            if v.Err? then r == Invalid(v.error) && driver.log == old(driver.log) && card.data == old(card.data)
            else
              var d, plan := Standing(old(driver.faulted), old(driver.buffer)), Plan(first, v.blocks, true);
              && Issued(commands, plan, true) && (r.Moved? <==> CarriesAll(d, plan, true, answers))
              && (if r.Moved? then
                    && r.blocks == v.blocks && !driver.faulted
                    && card.data == B.WriteOneByOne(old(card.data), first, bytes)
                  else
                    && r.Failed? && StopsAt(d, plan, true, answers, k) && B.Tiles(plan[..k], first, done)
                    && B.WrittenSoFar(card.data, old(card.data), first * B.BLOCK_SIZE, bytes, done * B.BLOCK_SIZE,
                                      if driver.faulted && !d.faulted then C.DMA_BUFFER_SIZE else 0))
              && (d.faulted && d.HasBuffer() ==> r == Failed(D.Err(D.DriverFaulted)))
  {
    var v := B.Validate(card.numBlocks, first, |bytes|);
    if v.Err? { return Invalid(v.error), 0, 0, []; }
    ghost var d, plan := Standing(driver.faulted, driver.buffer), Plan(first, v.blocks, true);
    var last, fates;
    last, fates, commands := Carry(driver, first, v.blocks, true, answers, d, plan);
    k, done := WriteBytes(card, first, bytes, v.blocks, fates, last, d, plan, answers, commands);
    r := if last.Ok? then Moved(v.blocks) else Failed(last);
  }

  /** What was written through the driver is read back through the driver; if the write left the
      driver faulted, the read is refused and delivers nothing. */
  method WriteThenRead(driver: D.SdMmc, card: B.Card, first: C.u32, bytes: seq<Byte>,
                       writeAnswers: nat -> Answer, readAnswers: nat -> Answer)
    returns (written: Result, faulted: bool, read: Result, buf: array<Byte>)
    requires driver.Valid() && card.Valid()
    modifies driver, card
    ensures fresh(buf) && buf.Length == |bytes| && (written.Moved? && read.Moved? ==> buf[..] == bytes)
    ensures written.Failed? && faulted ==> !read.Moved? && forall i :: 0 <= i < buf.Length ==> buf[i] == 0
    ensures written.Failed? && faulted && Standing(true, driver.buffer).HasBuffer() ==>
              read == Failed(D.Err(D.DriverFaulted))
  {
    ghost var k, done, commands;
    written, k, done, commands := WriteBlocks(driver, card, first, bytes, writeAnswers);
    faulted := driver.faulted;
    buf := new Byte[|bytes|](_ => 0);
    read, k, done, commands := ReadBlocks(driver, card, first, buf, readAnswers);
    if written.Moved? && read.Moved? { B.WrittenIsReadBack(old(card.data), first, bytes); }
    assert faulted ==> forall i :: 0 <= i < buf.Length ==> buf[i] == buf[..][i];
  }
}
