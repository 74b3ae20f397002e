/** What a successful transfer has seen, bit by bit and command by command, and that a controller
    which shows these bits gets its transfer reported as successful. */
module TransferEvidence {
  import opened SdRegisters
  import opened IdmacTrace
  import opened SdMmcDriver
  import C = IdmacChain

  predicate IsRead(c: Command) { c.ReadSingleBlock? || c.ReadMultipleBlocks? || c.SendScr? }

  predicate IsWrite(c: Command) { c.WriteSingleBlock? || c.WriteMultipleBlocks? }

  predicate IsMultiple(c: Command) { c.ReadMultipleBlocks? || c.WriteMultipleBlocks? }

  /** Neither the error flag nor an error bit. */
  predicate NoError(s: Status) {
    && !s.errorFlag
    && ResponseTimeout !in s.rint && DataReadTimeout !in s.rint && FifoUnderOverRun !in s.rint && HostTimeout !in s.rint
    && StartBitError !in s.rint && EndBitError !in s.rint && DataCrcError !in s.rint && ResponseCrcError !in s.rint
    && ResponseError !in s.rint && HardwareLockedWrite !in s.rint
    && AIS !in s.ids && CES !in s.ids && DU !in s.ids && FBE !in s.ids
  }

  /** The command and its data are done: the receive interrupt for a read, the transmit interrupt for
      a write, and the automatic stop after several blocks. */
  predicate AllDone(c: Command, s: Status) {
    && CommandDone in s.rint && DataTransferOver in s.rint
    && (IsRead(c) ==> RI in s.ids) && (IsWrite(c) ==> TI in s.ids)
    && (IsMultiple(c) ==> AutoCommandDone in s.rint)
  }

  lemma NoErrorMeans(s: Status)
    ensures NoError(s) <==> !s.HasError()
  {
    assert forall e :: e in RINT_ERRORS && e in s.rint ==> e in s.rint * RINT_ERRORS;
    assert forall x :: x in IDSTS_ERRORS && x in s.ids ==> x in s.ids * IDSTS_ERRORS;
    assert NoError(s) ==> s.rint * RINT_ERRORS == {} && s.ids * IDSTS_ERRORS == {};
  }

  /** A transfer of `len` bytes that the controller accepts and starts. */
  ghost predicate Begins(c: Command, len: nat, bus: nat, hw: Hw) {
    && 0 < len <= 16384 && bus + len <= 0x1_0000_0000 && hw.commandIdle && hw.dataIdle
    && hw.descriptorAt.Some? && hw.descriptorAt.value + ((len + 4095) / 4096 - 1) * 16 < 0x1_0000_0000
    && hw.dbaddrBack == hw.descriptorAt.value && hw.bytcntBack == len && hw.ownedBack == (len + 4095) / 4096
    && hw.startAccepted && DU !in hw.idsAfterStart && AIS !in hw.idsAfterStart && FBE !in hw.idsAfterStart
  }

  /** The length of the buffer that goes with a data command. */
  function LengthOf(c: Command): nat
    requires IsRead(c) || IsWrite(c)
  {
    c.len
  }

  lemma BeginsMeans(c: Command, bus: C.u32, hw: Hw)
    ensures Build(c).1.Some? <==> IsRead(c) || IsWrite(c)
    ensures (IsRead(c) || IsWrite(c)) ==>
              && Build(c).1.value == LengthOf(c)
              && (Begins(c, LengthOf(c), bus, hw) <==> Accepts(c, bus, hw) && ReadsBack(c, hw) && Starts(hw))
  {}

  /** A good end: the card's response has none of the error bits, no descriptor is still owned by the
      controller or marked with a card error. */
  ghost predicate EndsGood(c: Command, hw: Hw) {
    && NoError(hw.final) && AllDone(c, hw.final)
    && hw.owned == 0 && !hw.cardError && hw.r1 & 0xfff9_8088 == 0
  }

  lemma AllDoneMeans(c: Command, s: Status)
    requires IsRead(c) || IsWrite(c)
    ensures AllDone(c, s) <==> TerminalEvents(Build(c).0, s)
    ensures Build(c).0.responseExpect && HasR1(c)
  {}

  lemma EndsGoodMeans(c: Command, hw: Hw)
    requires IsRead(c) || IsWrite(c)
    ensures EndsGood(c, hw) <==> Full(EvidenceOf(c, hw))
  {
    NoErrorMeans(hw.final);
    AllDoneMeans(c, hw.final);
  }

  /** A transfer reported as successful was a read or a write, began as it should, saw no error after
      either wait, and ended with every completion bit of its command and no error of any kind. */
  lemma OkShows(faulted: bool, c: Command, bus: C.u32, hw: Hw)
    requires Verdict(faulted, c, bus, hw).Ok?
    ensures !faulted && (IsRead(c) || IsWrite(c)) && Begins(c, LengthOf(c), bus, hw)
    ensures NoError(hw.afterCommand) && NoError(hw.afterData) && EndsGood(c, hw)
    ensures Verdict(faulted, c, bus, hw) == Ok(hw.r1)
  {
    VerdictIsOk(faulted, c, bus, hw);
    BeginsMeans(c, bus, hw);
    NoErrorMeans(hw.afterCommand);
    NoErrorMeans(hw.afterData);
    EndsGoodMeans(c, hw);
  }

  /** Poll k is there and no earlier one has hit the deadline or the drop of the future. */
  ghost predicate InTime(polls: seq<Poll>, k: nat) {
    k < |polls| && polls[k].Poll? && forall j :: 0 <= j < k ==> polls[j].Poll? && !polls[j].expired
  }

  /** Some poll in time shows the command done, and some poll in time of the second wait all of it. */
  ghost predicate Polled(c: Command, hw: Hw, i: nat, k: nat) {
    && InTime(hw.commandPolls, i) && CommandDone in hw.commandPolls[i].status.rint
    && InTime(hw.dataPolls, k) && AllDone(c, hw.dataPolls[k].status)
  }

  lemma {:induction false} SeenIsReached(phase: Phase, cmd: Cmd, polls: seq<Poll>, k: nat)
    requires InTime(polls, k) && Holds(phase, cmd, polls[k].status)
    ensures Reaches(phase, cmd, polls)
    decreases k
  {
    if j :| 0 <= j < k && Holds(phase, cmd, polls[j].status) {
      SeenIsReached(phase, cmd, polls, j);
    } else {
      assert StopsAt(phase, cmd, polls, k);
    }
  }

  /** And conversely: an unfaulted driver whose controller accepts, starts and shows the bits in time,
      without an error after either wait, reports the transfer as successful. */
  lemma ShownIsOk(c: Command, bus: C.u32, hw: Hw, i: nat, k: nat)
    requires (IsRead(c) || IsWrite(c)) && Begins(c, LengthOf(c), bus, hw) && Polled(c, hw, i, k)
    requires NoError(hw.afterCommand) && NoError(hw.afterData) && EndsGood(c, hw)
    ensures Verdict(false, c, bus, hw) == Ok(hw.r1)
  {
    BeginsMeans(c, bus, hw);
    NoErrorMeans(hw.afterCommand);
    NoErrorMeans(hw.afterData);
    EndsGoodMeans(c, hw);
    AllDoneMeans(c, hw.dataPolls[k].status);
    SeenIsReached(CommandPhase, Build(c).0, hw.commandPolls, i);
    SeenIsReached(DataPhase, Build(c).0, hw.dataPolls, k);
    VerdictIsOk(false, c, bus, hw);
    OkShows(false, c, bus, hw);
  }

  /** What is returned for each of the ways in which a transfer does not succeed, when the reset that
      follows a started transfer completes. */
  lemma ErrorsAre(c: Command, bus: C.u32, hw: Hw)
    requires IsRead(c) || IsWrite(c)
    ensures Verdict(true, c, bus, hw) == Err(DriverFaulted)
    ensures !hw.commandIdle ==> Verdict(false, c, bus, hw) == Err(CommandBusy)
    ensures hw.commandIdle && !hw.dataIdle ==> Verdict(false, c, bus, hw) == Err(DataBusy)
    ensures var r := Verdict(false, c, bus, hw);
            Begins(c, LengthOf(c), bus, hw.(startAccepted := true, idsAfterStart := {})) ==>
              && (!hw.startAccepted ==> r == Err(if hw.resetDone then CommandStartTimeout else RecoveryFailed))
              && (hw.startAccepted && DU in hw.idsAfterStart ==>
                    r == Err(if hw.resetDone then Hardware else RecoveryFailed))
  {
    BeginsMeans(c, bus, hw.(startAccepted := true, idsAfterStart := {}));
  }

  /** A read or write that begins and ends as it should and shows no error in between. */
  ghost predicate Good(c: Command, bus: nat, hw: Hw) {
    && (IsRead(c) || IsWrite(c)) && Begins(c, LengthOf(c), bus, hw)
    && NoError(hw.afterCommand) && NoError(hw.afterData) && EndsGood(c, hw)
  }

  /** The transfer of the driver, in these terms. */
  method SendShows(driver: SdMmc, c: Command, bus: C.u32, hw: Hw) returns (r: Outcome)
    requires driver.Valid() && driver.buffer.Some?
    modifies driver
    ensures driver.Valid()
    ensures r.Ok? ==> !old(driver.faulted) && Good(c, bus, hw)
    ensures !old(driver.faulted) && Good(c, bus, hw) && (exists i, k :: Polled(c, hw, i, k)) ==> r == Ok(hw.r1)
  {
    r := driver.Send(c, bus, hw);
    if r.Ok? { OkShows(old(driver.faulted), c, bus, hw); }
    if !old(driver.faulted) && Good(c, bus, hw) {
      forall i, k | Polled(c, hw, i, k) ensures r == Ok(hw.r1) {
        ShownIsOk(c, bus, hw, i, k);
      }
    }
  }
}
