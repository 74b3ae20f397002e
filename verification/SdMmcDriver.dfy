/** The IDMAC transfer lifecycle of `SdMmc`: prepare, start, wait, validate, finish or abort, with
    cancellation of asynchronous transfers, enabling, and drop.

    What the controller answers is a parameter of each call. The ghost trace records every effect
    on the IDMAC and on DMA memory; `Valid` says the trace keeps the rules of `IdmacTrace`, whose
    temporal lemmas then speak about every run. */
module SdMmcDriver {
  import opened SdRegisters
  import opened IdmacTrace
  import C = IdmacChain

  datatype SdMmcError =
    | InvalidParameter | DmaUnavailable | DmaAllocation | DmaAddress | DriverFaulted
    | CommandBusy | DataBusy | DescriptorPublication | CommandStartTimeout | CommandTimeout
    | DataTimeout | Hardware | TerminalValidation | CardStatus | RecoveryFailed | CardBusyTimeout
    | StatusCommand(code: nat)                    // whatever CMD13 failed with

  /** `Cancelled`: the future was dropped at a suspension point, so nothing is returned. */
  datatype Outcome = Ok(r1: bv32) | Err(error: SdMmcError) | Cancelled

  datatype Buffer = Buffer(id: nat, bus: nat)

  /** One look at the completion status inside a wait, or the drop of the waiting future. */
  datatype Poll = Poll(status: Status, expired: bool) | Dropped

  datatype Phase = CommandPhase | DataPhase

  datatype PollEnd = Met | TimedOut | Gone

  /** What the controller, the card, the allocator and the clock answer during one transfer. */
  datatype Hw = Hw(
    commandIdle: bool, dataIdle: bool,
    descriptorAt: Option<nat>,                    // bus address of the coherent allocation
    dbaddrBack: nat, bytcntBack: nat, ownedBack: nat,
    startAccepted: bool, idsAfterStart: set<IdBit>,
    commandPolls: seq<Poll>, afterCommand: Status, dataPolls: seq<Poll>, afterData: Status,
    final: Status, owned: nat, cardError: bool, r1: bv32,
    resetDone: bool)

  predicate Holds(phase: Phase, cmd: Cmd, s: Status) {
    s.HasError() || (if phase.CommandPhase? then CommandDone in s.rint else TerminalEvents(cmd, s))
  }

  /** Poll k is the first one that does not just go round again. */
  ghost predicate StopsAt(phase: Phase, cmd: Cmd, polls: seq<Poll>, k: nat)
    requires k < |polls|
  {
    && (forall j :: 0 <= j < k ==> polls[j].Poll? && !Holds(phase, cmd, polls[j].status) && !polls[j].expired)
    && (polls[k].Dropped? || Holds(phase, cmd, polls[k].status) || polls[k].expired)
  }

  /** The condition is seen before the deadline and before any drop. */
  ghost predicate Reaches(phase: Phase, cmd: Cmd, polls: seq<Poll>) {
    exists k :: 0 <= k < |polls| && StopsAt(phase, cmd, polls, k)
              && polls[k].Poll? && Holds(phase, cmd, polls[k].status)
  }

  /** The future is dropped before the condition is seen and before the deadline. */
  ghost predicate DropsFirst(phase: Phase, cmd: Cmd, polls: seq<Poll>) {
    exists k :: 0 <= k < |polls| && StopsAt(phase, cmd, polls, k) && polls[k].Dropped?
  }

  /** The wait loops of `wait_transfer_sync` and `wait_transfer_async`. */
  method PollUntil(phase: Phase, cmd: Cmd, polls: seq<Poll>) returns (end: PollEnd)
    ensures end == Met <==> Reaches(phase, cmd, polls)
    ensures end == Gone <==> DropsFirst(phase, cmd, polls)
  {
    var i := 0;
    while i < |polls|
      invariant 0 <= i <= |polls|
      invariant forall j :: 0 <= j < i ==> polls[j].Poll? && !Holds(phase, cmd, polls[j].status) && !polls[j].expired
    {
      if polls[i].Dropped? || Holds(phase, cmd, polls[i].status) || polls[i].expired {
        assert StopsAt(phase, cmd, polls, i);
        assert forall k :: 0 <= k < |polls| && StopsAt(phase, cmd, polls, k) ==> k == i;
      }
      if polls[i].Dropped? { return Gone; }
      if Holds(phase, cmd, polls[i].status) { return Met; }
      if polls[i].expired { return TimedOut; }
      i := i + 1;
    }
    end := TimedOut;
  }

  datatype WaitEnd = Done | Failed(error: SdMmcError) | Abandoned

  ghost predicate WaitSucceeds(cmd: Cmd, hw: Hw) {
    && (cmd.responseExpect ==> Reaches(CommandPhase, cmd, hw.commandPolls))
    && !hw.afterCommand.HasError()
    && Reaches(DataPhase, cmd, hw.dataPolls)
    && !hw.afterData.HasError()
  }

  /** How the wait ends, phase by phase. */
  ghost function WaitVerdict(cmd: Cmd, hw: Hw): WaitEnd {
    if cmd.responseExpect && DropsFirst(CommandPhase, cmd, hw.commandPolls) then Abandoned
    else if cmd.responseExpect && !Reaches(CommandPhase, cmd, hw.commandPolls) then Failed(CommandTimeout)
    else if hw.afterCommand.HasError() then Failed(Hardware)
    else if DropsFirst(DataPhase, cmd, hw.dataPolls) then Abandoned
    else if !Reaches(DataPhase, cmd, hw.dataPolls) then Failed(DataTimeout)
    else if hw.afterData.HasError() then Failed(Hardware)
    else Done
  }

  method WaitTransfer(cmd: Cmd, hw: Hw) returns (end: WaitEnd)
    ensures end == WaitVerdict(cmd, hw)
    ensures end == Done <==> WaitSucceeds(cmd, hw)
  {
    if cmd.responseExpect {
      var command := PollUntil(CommandPhase, cmd, hw.commandPolls);
      if command == TimedOut { return Failed(CommandTimeout); }
      if command == Gone { return Abandoned; }
    }
    if hw.afterCommand.HasError() { return Failed(Hardware); }
    var data := PollUntil(DataPhase, cmd, hw.dataPolls);
    if data == TimedOut { return Failed(DataTimeout); }
    if data == Gone { return Abandoned; }
    if hw.afterData.HasError() { return Failed(Hardware); }
    end := Done;
  }

  /** The command is a data command that fits, nothing is busy, and the addresses fit 32 bits. */
  ghost predicate Accepts(command: Command, bus: C.u32, hw: Hw) {
    var len := Build(command).1;
    && len.Some?
    && hw.commandIdle && hw.dataIdle
    && C.CheckBuffer(len.value, bus) == C.Accepted
    && hw.descriptorAt.Some? && C.CheckDescriptors(len.value, hw.descriptorAt.value) == C.Accepted
  }

  ghost predicate ReadsBack(command: Command, hw: Hw)
    requires Build(command).1.Some? && hw.descriptorAt.Some?
  {
    var len := Build(command).1.value;
    && hw.dbaddrBack == hw.descriptorAt.value && hw.bytcntBack == len
    && hw.ownedBack == C.DescriptorCount(len)
  }

  ghost predicate Starts(hw: Hw) {
    hw.startAccepted && DU !in hw.idsAfterStart && AIS !in hw.idsAfterStart && FBE !in hw.idsAfterStart
  }

  ghost function EvidenceOf(command: Command, hw: Hw): Evidence {
    Evidence(Build(command).0, hw.final, hw.owned, hw.cardError, HasR1(command), hw.r1)
  }

  /** Exactly the hardware behaviour for which a transfer is reported as successful. */
  ghost predicate Smooth(command: Command, bus: C.u32, hw: Hw) {
    && Accepts(command, bus, hw) && ReadsBack(command, hw) && Starts(hw)
    && WaitSucceeds(Build(command).0, hw) && Full(EvidenceOf(command, hw))
  }

  ghost function AbortTail(d: nat, resetDone: bool): seq<Event> {
    if resetDone then [Fault, Reset(true), Free(d)] else [Fault, Reset(false), Fault]
  }

  /** The error an aborted transfer reports. */
  function Recovered(e: SdMmcError, resetDone: bool): SdMmcError { if resetDone then e else RecoveryFailed }

  function StartError(hw: Hw): SdMmcError { if !hw.startAccepted then CommandStartTimeout else Hardware }

  /** What a started transfer returns. */
  ghost function Settled(end: WaitEnd, hw: Hw): Outcome {
    match end
    case Done => Ok(hw.r1)
    case Failed(e) => Err(Recovered(e, hw.resetDone))
    case Abandoned => Cancelled
  }

  ghost function Performed(context: Context, hw: Hw): Outcome {
    if Starts(hw) then Settled(JudgeVerdict(context, hw), hw) else Err(Recovered(StartError(hw), hw.resetDone))
  }

  /** Why `prepare_idmac_transfer` refuses an unfaulted driver, if it does. */
  ghost function Refusal(command: Command, bus: C.u32, hw: Hw): Option<SdMmcError> {
    var len := Build(command).1;
    if len == None then Some(InvalidParameter)
    else if !hw.commandIdle then Some(CommandBusy)
    else if !hw.dataIdle then Some(DataBusy)
    else if len.value == 0 || len.value > C.DMA_BUFFER_SIZE then Some(InvalidParameter)
    else if bus + len.value > C.TWO32 then Some(DmaAddress)
    else if hw.descriptorAt == None then Some(DmaAllocation)
    else if C.CheckDescriptors(len.value, hw.descriptorAt.value) != C.Accepted then Some(DmaAddress)
    else if !ReadsBack(command, hw) then Some(Recovered(DescriptorPublication, hw.resetDone))
    else None
  }

  /** What a transfer returns, for every state of the driver and every behaviour of the hardware. */
  ghost function Verdict(faulted: bool, command: Command, bus: C.u32, hw: Hw): Outcome {
    if faulted then Err(DriverFaulted)
    else match Refusal(command, bus, hw)
         case Some(e) => Err(e)
         case None => Performed(Context(command, Build(command).0, HasR1(command), 0, 0), hw)
  }

  /** The command is written to the controller at all. */
  ghost predicate Submits(faulted: bool, command: Command, bus: C.u32, hw: Hw) {
    !faulted && Refusal(command, bus, hw) == None
  }

  /** The verdict is Ok exactly for an unfaulted driver and smooth hardware. */
  lemma VerdictIsOk(faulted: bool, command: Command, bus: C.u32, hw: Hw)
    ensures Verdict(faulted, command, bus, hw).Ok? <==> !faulted && Smooth(command, bus, hw)
  {
    var context := Context(command, Build(command).0, HasR1(command), 0, 0);
    if !faulted && Refusal(command, bus, hw) == None {
      assert Accepts(command, bus, hw) && ReadsBack(command, hw);
      assert JudgeVerdict(context, hw) == Done <==> WaitSucceeds(context.cmd, hw) && Full(EvidenceOf(command, hw));
    }
  }

  /** The errors of `prepare_idmac_transfer` that come before the descriptors are published. */
  const NOT_SUBMITTED: set<SdMmcError> :=
    {DriverFaulted, InvalidParameter, CommandBusy, DataBusy, DmaAddress, DmaAllocation}

  /** An error is one of these exactly if the driver was faulted or the transfer was not acceptable:
      no error of a published transfer can be taken for one of them. */
  lemma RefusedIff(faulted: bool, command: Command, bus: C.u32, hw: Hw)
    ensures var r := Verdict(faulted, command, bus, hw);
            (r.Err? && r.error in NOT_SUBMITTED) <==> faulted || !Accepts(command, bus, hw)
  {}

  datatype Context = Context(command: Command, cmd: Cmd, expectsR1: bool, desc: nat, buf: nat)

  datatype Prepared = Ready(context: Context) | Refused(error: SdMmcError)

  function Seen(context: Context, hw: Hw): Evidence {
    Evidence(context.cmd, hw.final, hw.owned, hw.cardError, context.expectsR1, hw.r1)
  }

  ghost function JudgeVerdict(context: Context, hw: Hw): WaitEnd {
    var end := WaitVerdict(context.cmd, hw);
    if end != Done then end
    else if !Validated(Seen(context, hw)) then Failed(TerminalValidation)
    else if !CleanR1(Seen(context, hw)) then Failed(CardStatus)
    else Done
  }

  /** `wait_transfer`, `validate_idmac_terminal` and `validated_response`. */
  method Judge(context: Context, hw: Hw) returns (end: WaitEnd)
    ensures end == JudgeVerdict(context, hw)
    ensures end == Done <==> WaitSucceeds(context.cmd, hw) && Full(Seen(context, hw))
  {
    end := WaitTransfer(context.cmd, hw);
    if end != Done { return; }
    var evidence := Seen(context, hw);
    if !Validated(evidence) { return Failed(TerminalValidation); }
    if !CleanR1(evidence) { return Failed(CardStatus); }
  }

  /** Answers while enabling; `rollbackDone` is the reset of the failure path. */
  datatype EnableHw = EnableHw(widthSupported: bool, resetDone: bool, layoutOk: bool, bufferAt: Option<nat>,
                               irqRegistered: bool, registersHold: bool, rollbackDone: bool)
  {
    predicate Allocates() { widthSupported && resetDone && layoutOk && bufferAt.Some? }
    predicate RollsBack() { Allocates() && !(irqRegistered && registersHold) }
  }

  /** One CMD13 round of the asynchronous busy wait. */
  datatype BusyPoll = CommandFailed(code: nat) | Answer(ready: bool, expired: bool) | BusyDropped

  /** One look at STATUS and the clock in the synchronous busy wait. */
  datatype Spin = Spin(idle: bool, expired: bool)

  ghost predicate GoesIdle(spins: seq<Spin>) {
    exists k :: 0 <= k < |spins| && spins[k].idle && forall j :: 0 <= j < k ==> spins[j] == Spin(false, false)
  }

  /** The loop of `wait_card_ready_after_write`: true exactly when the data line is seen idle
      before the deadline. */
  method SpinUntilIdle(spins: seq<Spin>) returns (idle: bool)
    ensures idle <==> GoesIdle(spins)
  {
    var i := 0;
    while i < |spins| && !spins[i].idle
      invariant 0 <= i <= |spins|
      invariant forall j :: 0 <= j < i ==> spins[j] == Spin(false, false)
    {
      if spins[i].expired { return false; }
      i := i + 1;
    }
    idle := i < |spins|;
  }

  class SdMmc {
    var faulted: bool
    var resetFailed: bool
    var buffer: Option<Buffer>
    var allocations: nat                          // stands for the coherent allocator
    ghost var log: seq<Event>
    ghost var m: Monitor

    ghost predicate Sound() reads this {
      && Accepted(log) && m == After(log)
      && m.faulted == faulted && (resetFailed ==> faulted)
      && (forall x :: x in m.known ==> x < allocations) && m.live <= m.known && m.inUse <= m.known
      && m.abandoned <= m.known
      && (buffer.Some? ==> buffer.value.id in m.live && (buffer.value.id in m.abandoned ==> resetFailed))
    }

    /** Between calls no transfer is pending, and the IDMAC holds no memory unless a reset
        failed. */
    ghost predicate Valid() reads this {
      match m.pending
      case None => Sound() && (!resetFailed ==> m.inUse == {})
      case Some(_) => false
    }

    constructor ()
      ensures Valid() && log == [] && !faulted && !resetFailed && buffer == None
    {
      faulted, resetFailed, buffer, allocations, log, m := false, false, None, 0, [], START;
    }

    ghost method Emit(e: Event)
      requires Accepted(log) && m == After(log) && Allowed(m, e)
      modifies `log, `m
      ensures Accepted(log) && m == After(log)
      ensures log == old(log) + [e] && m == Step(old(m), e)
    {
      AppendAccepted(log, e);
      log := log + [e];
      m := Step(m, e);
    }

    method SetFault()
      requires Sound()
      modifies `faulted, `log, `m
      ensures Sound() && faulted && log == old(log) + [Fault] && m == old(m).(faulted := true, pending := None)
    {
      faulted := true;
      Emit(Fault);
    }

    method Allocate() returns (id: nat)
      requires Sound()
      modifies `allocations, `log, `m
      ensures Sound() && id == old(allocations) && allocations == id + 1 && id !in old(m).known
      ensures log == old(log) + [Alloc(id)]
      ensures m == old(m).(known := old(m).known + {id}, live := old(m).live + {id})
    {
      id := allocations;
      allocations := id + 1;
      Emit(Alloc(id));
    }

    /** `finish_idmac_transfer`: the descriptor array is freed unless the aborting reset fails. */
    method Finish(d: nat, abort: bool, resetDone: bool) returns (ok: bool)
      requires Sound() && d in m.live && d !in m.abandoned
      requires buffer.Some? ==> buffer.value.id != d
      requires if abort then faulted && m.pending == None else d !in m.inUse
      modifies this
      ensures Sound() && ok == (!abort || resetDone) && buffer == old(buffer) && allocations == old(allocations)
      ensures faulted == old(faulted) && resetFailed == (old(resetFailed) || !ok)
      ensures !abort ==> log == old(log) + [Free(d)] && m == old(m).(live := old(m).live - {d})
      ensures abort && ok ==> log == old(log) + [Reset(true), Free(d)]
      ensures abort && ok ==> m == old(m).(inUse := {}, live := old(m).live - {d})
      ensures abort && !ok ==> log == old(log) + [Reset(false), Fault]
      ensures abort && !ok ==> m == old(m).(abandoned := old(m).abandoned + old(m).inUse)
    {
      if abort {
        Emit(Reset(resetDone));
        if !resetDone {
          resetFailed := true;
          faulted := true;
          Emit(Fault);
          return false;
        }
      }
      Emit(Free(d));
      ok := true;
    }

    /** `abort_idmac_transfer`: the error is replaced when the reset fails too. */
    method Abort(d: nat, error: SdMmcError, resetDone: bool) returns (e: SdMmcError)
      requires Sound() && d in m.live && d !in m.abandoned && m.inUse <= {d} + BufferId()
      requires buffer.Some? ==> buffer.value.id != d
      modifies this
      ensures Valid() && faulted && e == Recovered(error, resetDone)
      ensures buffer == old(buffer) && allocations == old(allocations)
      ensures resetFailed == (old(resetFailed) || !resetDone)
      ensures log == old(log) + AbortTail(d, resetDone) && NoStart(log, |old(log)|)
      ensures (resetDone ==> m.live == old(m).live - {d}) && m.commands == old(m).commands
    {
      SetFault();
      var ok := Finish(d, true, resetDone);
      e := if ok then error else RecoveryFailed;
    }

    ghost function BufferId(): set<nat> reads this { if buffer.Some? then {buffer.value.id} else {} }

    /** A transfer on descriptor array d has been published, or started, and nothing else is in
        the IDMAC's hands. */
    ghost predicate InFlight(d: nat, started: bool) reads this {
      && Sound() && !faulted && buffer.Some? && buffer.value.id != d
      && d in m.live && d !in m.abandoned && m.inUse == {d, buffer.value.id}
      && m.pending == (if started then Some((d, buffer.value.id)) else None)
    }

    /** The descriptor writes and the DBADDR write: from here on the IDMAC may use the memory. */
    method Expose(d: nat, len: nat, bus: C.u32, base: C.u32)
      requires Valid() && !faulted && buffer.Some? && d in m.live && d !in m.abandoned && d != buffer.value.id
      requires C.CheckBuffer(len, bus) == C.Accepted && C.CheckDescriptors(len, base) == C.Accepted
      modifies `log, `m
      ensures InFlight(d, false) && m.live == old(m).live && m.commands == old(m).commands
      ensures |log| == |old(log)| + 1 && old(log) <= log && log[|old(log)|].Publish?
      ensures log[|old(log)|].desc == d && log[|old(log)|].buf == buffer.value.id
      ensures log[|old(log)|].len == len && log[|old(log)|].bus == bus && log[|old(log)|].base == base
    {
      var chain := C.BuildChain(len, bus, base);
      Emit(Event.Publish(d, buffer.value.id, chain, len, bus, base));
    }

    /** Descriptor allocation, the chain, and the publication check of `prepare_idmac_transfer`. */
    method Publish(context: Context, len: nat, bus: C.u32, base: nat, hw: Hw) returns (r: Prepared)
      requires Valid() && !faulted && buffer.Some? && context.desc == allocations && context.buf == buffer.value.id
      requires C.CheckBuffer(len, bus) == C.Accepted
      modifies this
      ensures buffer == old(buffer)
      ensures r.Ready? <==> && C.CheckDescriptors(len, base) == C.Accepted
                            && hw.dbaddrBack == base && hw.bytcntBack == len && hw.ownedBack == C.DescriptorCount(len)
      ensures r.Ready? ==> r.context == context && Published(context.desc, len, bus, old(log), old(m))
      ensures r.Refused? ==> Valid() && RefusedCleanly(r.error, old(faulted), old(log), old(m))
      ensures r.Refused? ==> r.error == if C.CheckDescriptors(len, base) != C.Accepted then DmaAddress
                                        else Recovered(DescriptorPublication, hw.resetDone)
    {
      var d := Allocate();
      if C.CheckDescriptors(len, base).Rejected? {
        Emit(Free(d));
        return Refused(DmaAddress);
      }
      Expose(d, len, bus, base);
      if hw.dbaddrBack != base || hw.bytcntBack != len || hw.ownedBack != C.DescriptorCount(len) {
        var e := Abort(d, DescriptorPublication, hw.resetDone);
        return Refused(e);
      }
      r := Ready(context);
    }

    ghost predicate Published(d: nat, len: nat, bus: nat, log0: seq<Event>, m0: Monitor) reads this {
      && InFlight(d, false) && !resetFailed && m.live == m0.live + {d} && d !in m0.live && m.commands == m0.commands
      && |log| == |log0| + 2 && log0 <= log && log[|log0|] == Alloc(d)
      && log[|log0| + 1].Publish? && log[|log0| + 1].desc == d && log[|log0| + 1].buf == buffer.value.id
      && log[|log0| + 1].len == len && log[|log0| + 1].bus == bus
    }

    /** Nothing was started and nothing leaks; the driver is faulted only by a publication that
        did not read back. */
    ghost predicate RefusedCleanly(error: SdMmcError, faulted0: bool, log0: seq<Event>, m0: Monitor) reads this {
      && log0 <= log && NoStart(log, |log0|) && m.commands == m0.commands
      && (!resetFailed ==> m.live == m0.live)
      && (faulted != faulted0 ==> error == (if resetFailed then RecoveryFailed else DescriptorPublication))
      && (faulted == faulted0 ==> error in NOT_SUBMITTED)
    }

    /** `prepare_idmac_transfer` */
    method Prepare(command: Command, bus: C.u32, hw: Hw) returns (r: Prepared)
      requires Valid() && buffer.Some?
      modifies this
      ensures buffer == old(buffer)
      ensures old(faulted) ==> r == Refused(DriverFaulted) && log == old(log)
      ensures r.Ready? <==> !old(faulted) && Accepts(command, bus, hw) && ReadsBack(command, hw)
      ensures r.Ready? ==>
                r.context == Context(command, Build(command).0, HasR1(command), old(allocations), buffer.value.id)
      ensures r.Ready? ==> Published(r.context.desc, Build(command).1.value, bus, old(log), old(m))
      ensures r.Refused? ==> Valid() && RefusedCleanly(r.error, old(faulted), old(log), old(m))
      ensures !old(faulted) ==> Refusal(command, bus, hw) == if r.Refused? then Some(r.error) else None
    {
      if faulted { return Refused(DriverFaulted); }
      var (cmd, xfer) := Build(command);
      if !cmd.dataExpected || xfer == None { return Refused(InvalidParameter); }
      if !(hw.commandIdle && hw.dataIdle) {
        return Refused(if !hw.commandIdle then CommandBusy else DataBusy);
      }
      var check := C.CheckBuffer(xfer.value, bus);
      if check.Rejected? {
        return Refused(if check.error.DmaAddress? then DmaAddress else InvalidParameter);
      }
      if hw.descriptorAt == None { return Refused(DmaAllocation); }
      var context := Context(command, cmd, HasR1(command), allocations, buffer.value.id);
      r := Publish(context, xfer.value, bus, hw.descriptorAt.value, hw);
    }

    /** `start_idmac_transfer` */
    method Start(context: Context, hw: Hw) returns (r: Prepared)
      requires InFlight(context.desc, false) && context.buf == buffer.value.id && !resetFailed
      modifies this
      ensures buffer == old(buffer) && m.commands == old(m).commands + [context.command]
      ensures r.Ready? <==> Starts(hw)
      ensures r.Ready? ==> r.context == context && InFlight(context.desc, true) && m.live == old(m).live && !resetFailed
      ensures r.Ready? ==> log == old(log) + [IdmacTrace.Start(context.desc, context.buf, context.command)]
      ensures r.Refused? ==> Valid() && faulted && r.error == Recovered(StartError(hw), hw.resetDone)
      ensures r.Refused? ==>
               log == old(log) + [IdmacTrace.Start(context.desc, context.buf, context.command)]
                      + AbortTail(context.desc, hw.resetDone)
      ensures r.Refused? && !resetFailed ==> m.live == old(m).live - {context.desc}
    {
      Emit(IdmacTrace.Start(context.desc, context.buf, context.command));
      if !hw.startAccepted {
        var e := Abort(context.desc, CommandStartTimeout, hw.resetDone);
        return Refused(e);
      }
      if DU in hw.idsAfterStart || AIS in hw.idsAfterStart || FBE in hw.idsAfterStart {
        var e := Abort(context.desc, Hardware, hw.resetDone);
        return Refused(e);
      }
      r := Ready(context);
    }

    /** Completion, on the success path. */
    method Complete(context: Context, evidence: Evidence)
      requires InFlight(context.desc, true) && context.buf == buffer.value.id && !resetFailed && Full(evidence)
      modifies this
      ensures Valid() && buffer == old(buffer) && !faulted && !resetFailed && m.live == old(m).live - {context.desc}
      ensures m.commands == old(m).commands
      ensures log == old(log) + [Terminal(context.desc, context.buf, evidence), Free(context.desc)]
    {
      Emit(Terminal(context.desc, context.buf, evidence));
      var _ := Finish(context.desc, false, true);
    }

    /** The end of `send_cmd_idmac` and `send_cmd_idmac_async`: judge, then finish or abort. A
        dropped future aborts through `Drop for ActiveIdmacTransfer`. */
    method Settle(context: Context, hw: Hw) returns (r: Outcome)
      requires InFlight(context.desc, true) && context.buf == buffer.value.id && !resetFailed
      modifies this
      ensures Valid() && buffer == old(buffer) && (!resetFailed ==> m.live == old(m).live - {context.desc})
      ensures m.commands == old(m).commands
      ensures r.Ok? <==> WaitSucceeds(context.cmd, hw) && Full(Seen(context, hw))
      ensures r.Ok? ==> r.r1 == hw.r1 && !faulted && !resetFailed
      ensures r.Ok? ==> log == old(log) + [Terminal(context.desc, context.buf, Seen(context, hw)), Free(context.desc)]
      ensures !r.Ok? ==> faulted && log == old(log) + AbortTail(context.desc, hw.resetDone)
      ensures r == Settled(JudgeVerdict(context, hw), hw)
    {
      var end := Judge(context, hw);
      if end == Done {
        Complete(context, Seen(context, hw));
        return Ok(hw.r1);
      }
      var e := Abort(context.desc, if end.Failed? then end.error else Hardware, hw.resetDone);
      r := if end == Abandoned then Cancelled else Err(e);
    }

    /** Start and settle: once started, a transfer succeeds or faults the driver. */
    method Perform(context: Context, hw: Hw) returns (r: Outcome)
      requires InFlight(context.desc, false) && context.buf == buffer.value.id && !resetFailed
      modifies this
      ensures Valid() && buffer == old(buffer) && (!resetFailed ==> m.live == old(m).live - {context.desc})
      ensures r.Ok? <==> Starts(hw) && WaitSucceeds(context.cmd, hw) && Full(Seen(context, hw))
      ensures r.Ok? ==> r.r1 == hw.r1 && !faulted
      ensures r.Ok? ==> log == old(log) + [Event.Start(context.desc, context.buf, context.command),
                                           Terminal(context.desc, context.buf, Seen(context, hw)), Free(context.desc)]
      ensures !r.Ok? ==> faulted && old(log) <= log
      ensures m.commands == old(m).commands + [context.command]
      ensures r == Performed(context, hw)
    {
      var started := Start(context, hw);
      if started.Refused? { return Err(started.error); }
      r := Settle(context, hw);
    }

    /** A whole transfer: successful exactly when the hardware behaves as `Smooth` says, and then
        with the full evidence on record; otherwise either nothing was started or the driver is
        faulted. */
    method Send(command: Command, bus: C.u32, hw: Hw) returns (r: Outcome)
      requires Valid() && buffer.Some?
      modifies this
      ensures Valid() && buffer == old(buffer) && old(log) <= log && (!resetFailed ==> m.live == old(m).live)
      ensures r == Verdict(old(faulted), command, bus, hw) && (old(faulted) ==> log == old(log))
      ensures r.Ok? <==> !old(faulted) && Smooth(command, bus, hw)
      ensures r.Ok? ==> r.r1 == hw.r1 && !faulted
      ensures r.Ok? ==> Completed(log, |old(log)|, EvidenceOf(command, hw), Build(command).1.value, bus)
      ensures !r.Ok? && !faulted ==> r.Err? && r.error in NOT_SUBMITTED && NoStart(log, |old(log)|)
      ensures r.Cancelled? ==> faulted
      ensures m.commands == old(m).commands + if Submits(old(faulted), command, bus, hw) then [command] else []
    {
      VerdictIsOk(faulted, command, bus, hw);
      var prepared := Prepare(command, bus, hw);
      if prepared.Refused? { return Err(prepared.error); }
      r := Perform(prepared.context, hw);
    }

    /** The driver is usable and the hardware will carry the chunk through. */
    ghost predicate Deliverable(write: bool, block: nat, len: nat, hw: Hw) reads this {
      && !faulted && buffer.Some? && buffer.value.bus < C.TWO32
      && Smooth(BlockCommand(write, block, len), buffer.value.bus, hw)
    }

    /** The chunk gets as far as the controller. */
    ghost predicate Sends(write: bool, block: nat, len: nat, hw: Hw) reads this {
      && buffer.Some? && buffer.value.bus < C.TWO32
      && Submits(faulted, BlockCommand(write, block, len), buffer.value.bus, hw)
    }

    /** The five events of a successful chunk of `len` bytes out of or into the DMA buffer. */
    ghost predicate ChunkCompleted(write: bool, block: nat, len: nat, hw: Hw, log0: seq<Event>)
      requires buffer.Some?
      reads this
    {
      Completed(log, |log0|, EvidenceOf(BlockCommand(write, block, len), hw), len, buffer.value.bus)
    }

    ghost function ChunkVerdict(write: bool, block: nat, len: nat, hw: Hw): Outcome reads this {
      if buffer == None then Err(DmaUnavailable)
      else if buffer.value.bus >= C.TWO32 then Err(DmaAddress)
      else Verdict(faulted, BlockCommand(write, block, len), buffer.value.bus, hw)
    }

    /** `read_dma_chunk` and the transfer part of `write_dma_chunk`, synchronous or not. */
    method Chunk(write: bool, block: nat, len: nat, hw: Hw) returns (r: Outcome)
      requires Valid()
      modifies this
      ensures Valid() && buffer == old(buffer) && old(log) <= log && (!resetFailed ==> m.live == old(m).live)
      ensures r == old(ChunkVerdict(write, block, len, hw))
      ensures old(faulted) ==> log == old(log)
      ensures r.Ok? <==> old(Deliverable(write, block, len, hw))
      ensures r.Ok? ==> !faulted && buffer.Some? && ChunkCompleted(write, block, len, hw, old(log))
      ensures m.commands == old(m).commands +
                if old(Sends(write, block, len, hw)) then [BlockCommand(write, block, len)] else []
      ensures !r.Ok? && !faulted ==> r.Err? && NoStart(log, |old(log)|)
      ensures r.Cancelled? ==> faulted
    {
      if buffer == None { return Err(DmaUnavailable); }
      if buffer.value.bus >= C.TWO32 { return Err(DmaAddress); }
      r := Send(BlockCommand(write, block, len), buffer.value.bus, hw);
    }

    /** `write_dma_chunk` with `wait_card_ready_after_write`. */
    method WriteChunk(block: nat, len: nat, hw: Hw, spins: seq<Spin>) returns (r: Outcome)
      requires Valid()
      modifies this
      ensures Valid() && buffer == old(buffer) && old(log) <= log && (old(faulted) ==> faulted && log == old(log))
      ensures var sent := old(ChunkVerdict(true, block, len, hw));
              r == if sent.Ok? && !GoesIdle(spins) then Err(CardBusyTimeout) else sent
      ensures r.Ok? <==> GoesIdle(spins) && old(Deliverable(true, block, len, hw))
      ensures r.Ok? ==> !faulted && buffer.Some? && ChunkCompleted(true, block, len, hw, old(log))
      ensures m.commands == old(m).commands +
                if old(Sends(true, block, len, hw)) then [BlockCommand(true, block, len)] else []
      ensures !r.Ok? && !faulted ==> r.Err? && NoStart(log, |old(log)|)
    {
      r := Chunk(true, block, len, hw);
      if r.Ok? {
        var idle := SpinUntilIdle(spins);
        if !idle {
          SetFault();
          r := Err(CardBusyTimeout);
        }
      }
    }

    /** `write_dma_chunk_async` with `wait_card_ready_after_write_async`: however the busy wait
        ends, the guard faults the driver unless CMD13 reported the card ready. */
    method WriteChunkAsync(block: nat, len: nat, hw: Hw, busy: seq<BusyPoll>) returns (r: Outcome)
      requires Valid()
      modifies this
      ensures Valid() && buffer == old(buffer) && old(log) <= log && (old(faulted) ==> faulted && log == old(log))
      ensures var sent := old(ChunkVerdict(true, block, len, hw));
              r == if !sent.Ok? then sent
                   else match BusyVerdict(busy) case Done => sent case Failed(e) => Err(e) case Abandoned => Cancelled
      ensures r.Ok? <==> CardReady(busy) && old(Deliverable(true, block, len, hw))
      ensures r.Ok? ==> !faulted && buffer.Some? && ChunkCompleted(true, block, len, hw, old(log))
      ensures m.commands == old(m).commands +
                if old(Sends(true, block, len, hw)) then [BlockCommand(true, block, len)] else []
      ensures !r.Ok? && !faulted ==> r.Err? && NoStart(log, |old(log)|)
    {
      r := Chunk(true, block, len, hw);
      if r.Ok? {
        var end := WaitCardReady(busy);
        if end != Done {
          SetFault();
          r := if end == Abandoned then Cancelled else Err(end.error);
        }
      }
    }

    /** `release_dma_buffer` */
    method ReleaseBuffer(layoutOk: bool)
      requires Valid() && !resetFailed
      modifies this
      ensures Valid() && faulted == old(faulted) && !resetFailed
      ensures if old(buffer).Some? && layoutOk
              then buffer == None && log == old(log) + [Free(old(buffer).value.id)]
              else buffer == old(buffer) && log == old(log)
    {
      if buffer.Some? && layoutOk {
        Emit(Free(buffer.value.id));
        buffer := None;
      }
    }

    /** `disable_idmac_after_enable_failure`, on a buffer allocated by this very enable. */
    method Disable(rollbackDone: bool)
      requires Sound() && m.pending == None && m.inUse == {} && buffer.Some? && buffer.value.id !in m.abandoned
      modifies this
      ensures Valid()
      ensures resetFailed == (old(resetFailed) || !rollbackDone) && faulted == (old(faulted) || !rollbackDone)
      ensures if rollbackDone then buffer == None && log == old(log) + [Reset(true), Free(old(buffer).value.id)]
              else buffer == old(buffer) && log == old(log) + [Reset(false), Fault]
    {
      Emit(Reset(rollbackDone));
      if !rollbackDone {
        faulted := true;
        resetFailed := true;
        Emit(Fault);
        return;
      }
      Emit(Free(buffer.value.id));
      buffer := None;
    }

    /** The allocation of `try_enable_idmac`; an older buffer is forgotten, not freed. */
    method AdoptBuffer(bus: nat)
      requires Sound() && m.pending == None && m.inUse == {}
      modifies this
      ensures Valid() && m.inUse == {} && faulted == old(faulted) && resetFailed == old(resetFailed)
      ensures buffer == Some(Buffer(old(allocations), bus)) && buffer.value.id !in m.abandoned
      ensures log == old(log) + [Alloc(old(allocations))]
    {
      var id := Allocate();
      buffer := Some(Buffer(id, bus));
    }

    /** `try_enable_idmac` may be called at any time, also again and on a faulted driver; it never
        clears a fault, and memory of an earlier failed reset is not freed through it. */
    method TryEnable(hw: EnableHw)
      requires Valid()
      modifies this
      ensures Valid() && old(log) <= log && NoStart(log, |old(log)|)
      ensures faulted == (old(faulted) || (hw.widthSupported && !hw.resetDone) || (hw.RollsBack() && !hw.rollbackDone))
      ensures resetFailed == (old(resetFailed) || (hw.RollsBack() && !hw.rollbackDone))
      ensures buffer == if !hw.Allocates() then old(buffer)
                        else if hw.RollsBack() && hw.rollbackDone then None
                        else Some(Buffer(old(allocations), hw.bufferAt.value))
    {
      if !hw.widthSupported { return; }
      Emit(Reset(hw.resetDone));
      if !hw.resetDone {
        SetFault();
        return;
      }
      if !hw.layoutOk || hw.bufferAt == None { return; }
      AdoptBuffer(hw.bufferAt.value);
      if !hw.irqRegistered || !hw.registersHold { Disable(hw.rollbackDone); }
    }

    /** `Drop for SdMmc`: the buffer is retained for good if a reset failed. */
    method Drop(layoutOk: bool)
      requires Valid()
      modifies this
      ensures Valid() && faulted == old(faulted) && old(log) <= log && NoStart(log, |old(log)|)
      ensures old(resetFailed) ==> log == old(log) && buffer == old(buffer)
      ensures !old(resetFailed) && old(buffer).Some? && layoutOk ==> log == old(log) + [Free(old(buffer).value.id)]
    {
      if resetFailed { return; }
      ReleaseBuffer(layoutOk);
    }
  }

  function BlockCommand(write: bool, block: nat, len: nat): Command {
    if write then (if len == 512 then WriteSingleBlock(block, len) else WriteMultipleBlocks(block, len))
    else (if len == 512 then ReadSingleBlock(block, len) else ReadMultipleBlocks(block, len))
  }

  ghost predicate CardReady(busy: seq<BusyPoll>) {
    exists k :: 0 <= k < |busy| && busy[k].Answer? && busy[k].ready
              && forall j :: 0 <= j < k ==> busy[j] == Answer(false, false)
  }

  /** The first round that decides, or the deadline. */
  ghost function BusyVerdict(busy: seq<BusyPoll>): WaitEnd {
    if busy == [] then Failed(CardBusyTimeout)
    else match busy[0]
         case CommandFailed(code) => Failed(StatusCommand(code))
         case BusyDropped => Abandoned
         case Answer(ready, expired) =>
           if ready then Done else if expired then Failed(CardBusyTimeout) else BusyVerdict(busy[1..])
  }

  /** The CMD13 loop. `Done` exactly when the card reports ready before a failed CMD13, the
      deadline or a drop. */
  method WaitCardReady(busy: seq<BusyPoll>) returns (end: WaitEnd)
    ensures end == Done <==> CardReady(busy)
    ensures end == BusyVerdict(busy)
  {
    var i := 0;
    while i < |busy|
      invariant 0 <= i <= |busy|
      invariant forall j :: 0 <= j < i ==> busy[j] == Answer(false, false)
      invariant BusyVerdict(busy) == BusyVerdict(busy[i..])
    {
      match busy[i] {
        case CommandFailed(code) => return Failed(StatusCommand(code));
        case BusyDropped => return Abandoned;
        case Answer(ready, expired) =>
          if ready { return Done; }
          if expired { return Failed(CardBusyTimeout); }
      }
      assert busy[i..][1..] == busy[i + 1..];
      i := i + 1;
    }
    end := Failed(CardBusyTimeout);
  }

  datatype Call =
    | Enable(enable: EnableHw)
    | Read(block: nat, len: nat, hw: Hw)                                // sync, or async with drops
    | Write(block: nat, len: nat, hw: Hw, spins: seq<Spin>)
    | WriteAsync(block: nat, len: nat, hw: Hw, busy: seq<BusyPoll>)

  /** Every life of a driver: any calls with any hardware behaviour, then the drop. Memory is
      freed only when the IDMAC is done with it, and started transfers end in full evidence or in
      a fault after which nothing starts. */
  method Session(calls: seq<Call>, layoutOk: bool) returns (ghost log: seq<Event>, outcomes: seq<Outcome>)
    ensures FreesSafely(log) && FailsStop(log)
    ensures |outcomes| == |calls|
    ensures forall i :: 0 <= i < |outcomes| && outcomes[i].Cancelled? ==> Fault in log
  {
    var driver := new SdMmc();
    outcomes := [];
    for i := 0 to |calls|
      invariant driver.Valid() && fresh(driver) && |outcomes| == i
      invariant forall k :: 0 <= k < i && outcomes[k].Cancelled? ==> driver.faulted
    {
      var r := Ok(0);
      match calls[i] {
        case Enable(hw) => driver.TryEnable(hw);
        case Read(block, len, hw) => r := driver.Chunk(false, block, len, hw);
        case Write(block, len, hw, spins) => r := driver.WriteChunk(block, len, hw, spins);
        case WriteAsync(block, len, hw, busy) => r := driver.WriteChunkAsync(block, len, hw, busy);
      }
      outcomes := outcomes + [r];
    }
    driver.Drop(layoutOk);
    log := driver.log;
    AcceptedFreesSafely(log);
    AcceptedFailsStop(log);
    if driver.faulted { FaultedHasFault(log); }
  }

  lemma {:induction false} FaultedHasFault(log: seq<Event>)
    requires After(log).faulted
    ensures Fault in log
  {
    if log[|log| - 1] != Fault { FaultedHasFault(log[..|log| - 1]); }
  }

  ghost predicate NoStart(log: seq<Event>, from: nat) { forall i :: from <= i < |log| ==> !log[i].Start? }

  /** The five events of a successful transfer, from position n on. */
  ghost predicate Completed(log: seq<Event>, n: nat, evidence: Evidence, len: nat, bus: nat) {
    && |log| == n + 5 && log[n + 1].Publish? && log[n + 1].len == len && log[n + 1].bus == bus
    && log[n].Alloc? && log[n + 1].Publish? && log[n + 1].desc == log[n].id
    && log[n + 2].Start? && log[n + 2].desc == log[n].id && log[n + 2].buf == log[n + 1].buf
    && log[n + 3] == Terminal(log[n].id, log[n + 1].buf, evidence) && Full(evidence)
    && log[n + 4] == Free(log[n].id)
  }
}
