/** The completion record shared by the IDMAC interrupt handler and the waiter: generation-tagged
    snapshots of write-one-to-clear status registers.

    The handler, the driver (which is also the waiter) and the controller interleave at every
    register access and every atomic; one handler runs at a time. `raisedR` and `raisedI` are the
    events of the transfer: those live when `begin_transfer` returned and all that the controller
    raised since; no code reads them. */
module IdmacCompletion {
  import opened SdRegisters

  /** Progress of `dma_irq_handler`, with its locals. */
  datatype Irq =
    | Off
    | HasR(r: set<RInt>)
    | HasBoth(r: set<RInt>, i: set<IdBit>)
    | Flagged(r: set<RInt>, i: set<IdBit>)
    | ClearedI(r: set<RInt>, i: set<IdBit>)
    | ClearedBoth(r: set<RInt>, i: set<IdBit>)
    | Loaded(r: set<RInt>, i: set<IdBit>, gen: nat)
    | OredR(r: set<RInt>, i: set<IdBit>, gen: nat)
    | OredBoth(r: set<RInt>, i: set<IdBit>, gen: nat)
  {
    predicate PastLoad() { Loaded? || OredR? || OredBoth? }
  }

  /** Progress of the driver: the four stores of `begin_transfer`, then the transfer, and inside
      it the descriptor-unavailable resume. */
  datatype Driver =
    | Idle
    | Begun(stores: nat)
    | Active
    | SawDu                          // start_idmac_transfer has read DU
    | Clearing(seen: set<IdBit>)     // clear_idsts has read, and writes these bits back next
  {
    predicate InTransfer() { Active? || SawDu? || Clearing? }
  }

  /** Progress of `idmac_completion_status`: two live reads, then the four loads of
      `snapshot_bits`. */
  datatype Waiter =
    | Free
    | GotR(r: set<RInt>)
    | GotLive(r: set<RInt>, i: set<IdBit>)
    | Tagged(r: set<RInt>, i: set<IdBit>)
    | GotSnapR(r: set<RInt>, i: set<IdBit>, sr: set<RInt>)
    | GotSnap(r: set<RInt>, i: set<IdBit>, sr: set<RInt>, si: set<IdBit>)
    | Reported(rint: set<RInt>, ids: set<IdBit>)

  datatype State = State(
    rint: set<RInt>, ids: set<IdBit>,                 // live registers
    generation: nat, snapGen: nat, snapR: set<RInt>, snapI: set<IdBit>,
    error: bool,                                      // IDMAC_ERROR_FLAG
    irq: Irq, driver: Driver, waiter: Waiter,
    raisedR: set<RInt>, raisedI: set<IdBit>)

  /** The RINTSTS bits the handler writes back: all but command done, card detect and SDIO. */
  const CLEARED_BY_IRQ: set<RInt> := RINT_ERRORS + {AutoCommandDone, DataTransferOver, ReceiveRequest, TransmitRequest}

  predicate IrqClearsRint(r: set<RInt>, i: set<IdBit>) {
    || RI in i || TI in i || DataTransferOver in r || AutoCommandDone in r
    || StatusHasError(r, i) || ReceiveRequest in r || TransmitRequest in r
  }

  datatype Step =
    | RaiseR(e: RInt) | RaiseI(x: IdBit)
    | IrqReadR | IrqReadI | IrqFlag | IrqClearI | IrqClearR | IrqLoad | IrqOrR | IrqOrI | IrqStore
    | ClearStale(r: set<RInt>, i: set<IdBit>) | ClearFlag | BeginStore | Finish
    | ResumeSees | ResumeReads | ResumeWrites
    | ReadR | ReadI | LoadTag | LoadR | LoadI | Recheck

  ghost predicate ControllerNext(s: State, a: Step, s': State) {
    match a
    case RaiseR(e) => s' == s.(rint := s.rint + {e}, raisedR := s.raisedR + {e})
    case RaiseI(x) => s' == s.(ids := s.ids + {x}, raisedI := s.raisedI + {x})
    case _ => false
  }

  ghost predicate IrqNext(s: State, a: Step, s': State) {
    match a
    case IrqReadR => s.irq == Off && s' == s.(irq := HasR(s.rint))
    case IrqReadI => s.irq.HasR? && s' == s.(irq := HasBoth(s.irq.r, s.ids))
    case IrqFlag =>
      && s.irq.HasBoth?
      && s' == s.(error := s.error || StatusHasError(s.irq.r, s.irq.i), irq := Flagged(s.irq.r, s.irq.i))
    case IrqClearI =>
      s.irq.Flagged? && s' == s.(ids := s.ids - s.irq.i, irq := ClearedI(s.irq.r, s.irq.i))
    case IrqClearR =>
      && s.irq.ClearedI?
      && s' == s.(rint := if IrqClearsRint(s.irq.r, s.irq.i) then s.rint - s.irq.r * CLEARED_BY_IRQ else s.rint,
                  irq := ClearedBoth(s.irq.r, s.irq.i))
    case IrqLoad =>
      && s.irq.ClearedBoth?
      && s' == s.(irq := if s.generation == 0 then Off else Loaded(s.irq.r, s.irq.i, s.generation))
    case IrqOrR =>
      s.irq.Loaded? && s' == s.(snapR := s.snapR + s.irq.r, irq := OredR(s.irq.r, s.irq.i, s.irq.gen))
    case IrqOrI =>
      s.irq.OredR? && s' == s.(snapI := s.snapI + s.irq.i, irq := OredBoth(s.irq.r, s.irq.i, s.irq.gen))
    case IrqStore =>
      s.irq.OredBoth? && s' == s.(snapGen := s.irq.gen, irq := Off)
    case _ => false
  }

  /** The driver calls `idmac_completion_status` from within a transfer and does nothing else
      before it returns. */
  ghost predicate AtRest(s: State) { s.waiter.Free? || s.waiter.Reported? }

  ghost predicate DriverNext(s: State, a: Step, s': State) {
    AtRest(s) &&
    match a
    case ClearStale(r, i) =>
      s.driver.Idle? && s' == s.(rint := s.rint - r, ids := s.ids - i)
    case ClearFlag => s.driver.Idle? && s' == s.(error := false)
    case BeginStore =>
      match s.driver {
        case Idle => s' == s.(snapGen := 0, driver := Begun(1), waiter := Free)
        case Begun(n) =>
          if n == 1 then s' == s.(snapR := {}, driver := Begun(2))
          else if n == 2 then s' == s.(snapI := {}, driver := Begun(3))
          else s' == s.(generation := s.generation + 1, driver := Active, raisedR := s.rint, raisedI := s.ids)
        case _ => false
      }
    case Finish => s.driver.Active? && s' == s.(driver := Idle)
    case ResumeSees => s.driver.Active? && DU in s.ids && s' == s.(driver := SawDu)
    case ResumeReads => s.driver.SawDu? && s' == s.(driver := Clearing(s.ids))
    case ResumeWrites => s.driver.Clearing? && s' == s.(ids := s.ids - s.driver.seen, driver := Active)
    case _ => false
  }

  ghost predicate WaiterNext(s: State, a: Step, s': State) {
    s.driver.Active? &&
    match a
    case ReadR => AtRest(s) && s' == s.(waiter := GotR(s.rint))
    case ReadI => s.waiter.GotR? && s' == s.(waiter := GotLive(s.waiter.r, s.ids))
    case LoadTag =>
      && s.waiter.GotLive?
      && s' == s.(waiter := if s.snapGen == s.generation then Tagged(s.waiter.r, s.waiter.i)
                            else Reported(s.waiter.r, s.waiter.i))
    case LoadR => s.waiter.Tagged? && s' == s.(waiter := GotSnapR(s.waiter.r, s.waiter.i, s.snapR))
    case LoadI => s.waiter.GotSnapR? && s' == s.(waiter := GotSnap(s.waiter.r, s.waiter.i, s.waiter.sr, s.snapI))
    case Recheck =>
      && s.waiter.GotSnap?
      && var w := s.waiter;
         s' == s.(waiter := if s.snapGen == s.generation then Reported(w.r + w.sr, w.i + w.si) else Reported(w.r, w.i))
    case _ => false
  }

  ghost predicate Next(s: State, a: Step, s': State) {
    ControllerNext(s, a, s') || IrqNext(s, a, s') || DriverNext(s, a, s') || WaiterNext(s, a, s')
  }

  ghost predicate Init(s: State) {
    s.generation == 0 && s.snapGen == 0 && !s.error && s.irq == Off && s.driver == Idle && s.waiter == Free
  }

  ghost predicate NextAt(states: seq<State>, steps: seq<Step>, k: nat)
    requires k < |steps| < |states|
  {
    Next(states[k], steps[k], states[k + 1])
  }

  ghost predicate IsRun(states: seq<State>, steps: seq<Step>) {
    && |states| == |steps| + 1 && Init(states[0])
    && forall k {:trigger NextAt(states, steps, k)} :: 0 <= k < |steps| ==> NextAt(states, steps, k)
  }

  // ---- Where an event of the transfer can be ----

  /** The recorded bits that carry the tag of this generation. */
  ghost function SnapshotR(s: State): set<RInt> { if s.snapGen == s.generation then s.snapR else {} }
  ghost function SnapshotI(s: State): set<IdBit> { if s.snapGen == s.generation then s.snapI else {} }

  /** A handler that has loaded the generation of an earlier transfer records for that one. */
  ghost predicate Stale(s: State) { s.irq.PastLoad() && s.irq.gen != s.generation }

  /** The bits in the locals of a handler that will record them for this generation. */
  ghost function HeldR(s: State): set<RInt> { if s.irq.Off? || Stale(s) then {} else s.irq.r }
  ghost function HeldI(s: State): set<IdBit> { if s.irq.Off? || s.irq.HasR? || Stale(s) then {} else s.irq.i }

  /** During a transfer, an event of it is in the live register, in the snapshot of this
      generation, or in the locals of the handler that will record it there. */
  ghost predicate KeptR(s: State, e: RInt) {
    s.driver.InTransfer() && e in s.raisedR ==> e in s.rint || e in SnapshotR(s) || e in HeldR(s)
  }

  ghost predicate KeptI(s: State, x: IdBit) {
    s.driver.InTransfer() && x in s.raisedI ==> x in s.ids || x in SnapshotI(s) || x in HeldI(s)
  }

  /** The guard of the resume for one event, over the live register, the bits about to be written
      back, the snapshot and the handler: if it wipes x, then x is recorded or being recorded. */
  ghost predicate SparesI(s: State, x: IdBit) {
    s.driver.Clearing? && x in s.ids && x in s.driver.seen ==> x in SnapshotI(s) || x in HeldI(s)
  }

  ghost predicate Spared(states: seq<State>, steps: seq<Step>, x: IdBit, k: nat)
    requires k <= |steps| <= |states|
  {
    forall j :: 0 <= j < k && steps[j] == ResumeWrites ==> SparesI(states[j], x)
  }

  /** Live bits are events of the transfer, and the record's tag never runs ahead. While a stale
      handler is on its way nothing has been recorded for this generation. */
  ghost predicate Record(s: State) {
    && s.snapGen <= s.generation
    && (s.driver.InTransfer() ==> s.generation > 0 && s.rint <= s.raisedR && s.ids <= s.raisedI)
    && (s.driver.Begun? ==> 1 <= s.driver.stores <= 3)
    && (s.irq.PastLoad() ==> 0 < s.irq.gen <= s.generation)
    && (s.driver.InTransfer() && Stale(s) ==> s.snapGen != s.generation)
    && (s.driver.InTransfer() && !Stale(s) && (s.irq.OredR? || s.irq.OredBoth?) ==> s.irq.r <= s.snapR)
    && (s.driver.InTransfer() && !Stale(s) && s.irq.OredBoth? ==> s.irq.i <= s.snapI)
    && (!AtRest(s) ==> s.driver.Active?)
  }

  lemma StepKeepsRecord(s: State, a: Step, s': State)
    requires Record(s) && Next(s, a, s')
    ensures Record(s')
  {}

  lemma IrqKeeps(s: State, a: Step, s': State, e: RInt, x: IdBit)
    requires Record(s) && IrqNext(s, a, s')
    ensures KeptR(s, e) ==> KeptR(s', e)
    ensures KeptI(s, x) ==> KeptI(s', x)
  {}

  lemma DriverKeeps(s: State, a: Step, s': State, e: RInt, x: IdBit)
    requires Record(s) && DriverNext(s, a, s')
    ensures KeptR(s, e) ==> KeptR(s', e)
    ensures KeptI(s, x) && a != ResumeWrites ==> KeptI(s', x)
  {}

  lemma OthersKeep(s: State, a: Step, s': State, e: RInt, x: IdBit)
    requires ControllerNext(s, a, s') || WaiterNext(s, a, s')
    ensures KeptR(s, e) ==> KeptR(s', e)
    ensures KeptI(s, x) ==> KeptI(s', x)
  {}

  /** No step loses an event, except that the write-back of the resume may lose one of IDSTS. */
  lemma StepKeeps(s: State, a: Step, s': State, e: RInt, x: IdBit)
    requires Record(s) && Next(s, a, s')
    ensures KeptR(s, e) ==> KeptR(s', e)
    ensures KeptI(s, x) && a != ResumeWrites ==> KeptI(s', x)
  {
    if IrqNext(s, a, s') {
      IrqKeeps(s, a, s', e, x);
    } else if DriverNext(s, a, s') {
      DriverKeeps(s, a, s', e, x);
    } else {
      OthersKeep(s, a, s', e, x);
    }
  }

  /** The write-back loses an event exactly when it does not meet the guard for it. */
  lemma ResumeIsExact(s: State, s': State, x: IdBit)
    requires Record(s) && KeptI(s, x) && Next(s, ResumeWrites, s')
    ensures KeptI(s', x) <==> SparesI(s, x)
  {}

  lemma {:induction false} RunKeepsRecord(states: seq<State>, steps: seq<Step>, k: nat)
    requires IsRun(states, steps) && k < |states|
    ensures Record(states[k])
  {
    if k > 0 {
      RunKeepsRecord(states, steps, k - 1);
      assert NextAt(states, steps, k - 1);
      StepKeepsRecord(states[k - 1], steps[k - 1], states[k]);
    }
  }

  /** On every run, every event of RINTSTS is kept. */
  lemma {:induction false} RunKeepsR(states: seq<State>, steps: seq<Step>, k: nat, e: RInt)
    requires IsRun(states, steps) && k < |states|
    ensures KeptR(states[k], e)
  {
    if k > 0 {
      RunKeepsR(states, steps, k - 1, e);
      RunKeepsRecord(states, steps, k - 1);
      assert NextAt(states, steps, k - 1);
      StepKeeps(states[k - 1], steps[k - 1], states[k], e, DU);
    }
  }

  lemma {:induction false} SparedIsKept(states: seq<State>, steps: seq<Step>, k: nat, x: IdBit)
    requires IsRun(states, steps) && k < |states| && Spared(states, steps, x, k)
    ensures KeptI(states[k], x)
  {
    if k > 0 {
      SparedIsKept(states, steps, k - 1, x);
      RunKeepsRecord(states, steps, k - 1);
      assert NextAt(states, steps, k - 1);
      if steps[k - 1] == ResumeWrites {
        ResumeIsExact(states[k - 1], states[k], x);
      } else {
        StepKeeps(states[k - 1], steps[k - 1], states[k], CommandDone, x);
      }
    }
  }

  lemma KeptIsSpared(states: seq<State>, steps: seq<Step>, k: nat, x: IdBit)
    requires IsRun(states, steps) && k < |steps| && steps[k] == ResumeWrites
    requires KeptI(states[k], x) && KeptI(states[k + 1], x)
    ensures SparesI(states[k], x)
  {
    RunKeepsRecord(states, steps, k);
    assert NextAt(states, steps, k);
    ResumeIsExact(states[k], states[k + 1], x);
  }

  /** An event of IDSTS is kept in every state of a run exactly when each resume that wipes it finds
      it recorded or being recorded. So a completion event survives every resume that wipes other
      bits only, and a run without a resume loses nothing. */
  lemma KeptIffSpared(states: seq<State>, steps: seq<Step>, x: IdBit)
    requires IsRun(states, steps)
    ensures (forall k :: 0 <= k < |states| ==> KeptI(states[k], x)) <==> Spared(states, steps, x, |steps|)
  {
    if Spared(states, steps, x, |steps|) {
      forall k | 0 <= k < |states| ensures KeptI(states[k], x) {
        SparedIsKept(states, steps, k, x);
      }
    }
    if forall k :: 0 <= k < |states| ==> KeptI(states[k], x) {
      forall j | 0 <= j < |steps| && steps[j] == ResumeWrites ensures SparesI(states[j], x) {
        KeptIsSpared(states, steps, j, x);
      }
    }
  }

  /** In particular, resumes that wipe nothing but DU lose no completion event. */
  lemma CompletionsSurvive(states: seq<State>, steps: seq<Step>, k: nat, x: IdBit)
    requires IsRun(states, steps) && k < |states| && x != DU
    requires forall j :: 0 <= j < |steps| && steps[j] == ResumeWrites && states[j].driver.Clearing? ==>
               states[j].ids * states[j].driver.seen <= {DU}
    ensures KeptI(states[k], x)
  {
    forall j | 0 <= j < |steps| && steps[j] == ResumeWrites ensures SparesI(states[j], x) {
      assert states[j].driver.Clearing? && x in states[j].ids * states[j].driver.seen ==> x in {DU};
    }
    SparedIsKept(states, steps, k, x);
  }

  ghost predicate NothingLost(s: State) {
    (forall e :: KeptR(s, e)) && (forall x :: KeptI(s, x))
  }

  ghost predicate Guarded(states: seq<State>, steps: seq<Step>)
    requires |steps| <= |states|
  {
    forall x :: Spared(states, steps, x, |steps|)
  }

  /** All events together. */
  lemma LosesNothingIffGuarded(states: seq<State>, steps: seq<Step>)
    requires IsRun(states, steps)
    ensures (forall k :: 0 <= k < |states| ==> NothingLost(states[k])) <==> Guarded(states, steps)
  {
    if Guarded(states, steps) {
      forall k | 0 <= k < |states| ensures NothingLost(states[k]) {
        forall e ensures KeptR(states[k], e) { RunKeepsR(states, steps, k, e); }
        forall x ensures KeptI(states[k], x) {
          assert Spared(states, steps, x, |steps|);
          SparedIsKept(states, steps, k, x);
        }
      }
    }
    if forall k :: 0 <= k < |states| ==> NothingLost(states[k]) {
      forall x ensures Spared(states, steps, x, |steps|) {
        assert forall k :: 0 <= k < |states| ==> NothingLost(states[k]) && KeptI(states[k], x);
        KeptIffSpared(states, steps, x);
      }
    }
  }

  // ---- What the handler acknowledges ----

  /** The bits that make the handler write RINTSTS back. */
  ghost predicate Noteworthy(r: set<RInt>, i: set<IdBit>) {
    || RI in i || TI in i || AIS in i || CES in i || DU in i || FBE in i
    || DataTransferOver in r || AutoCommandDone in r || ReceiveRequest in r || TransmitRequest in r
    || ResponseTimeout in r || DataReadTimeout in r || FifoUnderOverRun in r || HostTimeout in r || StartBitError in r
    || EndBitError in r || DataCrcError in r || ResponseCrcError in r || ResponseError in r || HardwareLockedWrite in r
  }

  /** The handler clears every IDSTS bit it has read, and, if it has read a noteworthy one, every
      RINTSTS bit but command done, card detect and SDIO; it clears nothing that it has not read. */
  lemma HandlerAcknowledges(s: State, a: Step, s': State)
    requires IrqNext(s, a, s')
    ensures a == IrqClearI ==> s.irq.Flagged? && s'.ids == s.ids - s.irq.i && s'.rint == s.rint
    ensures a == IrqClearR ==> s.irq.ClearedI? && s'.ids == s.ids
    ensures a == IrqClearR && Noteworthy(s.irq.r, s.irq.i) ==>
              forall e :: e in s'.rint <==>
                e in s.rint && (e !in s.irq.r || e == CommandDone || e == CardDetect || e == Sdio)
    ensures a == IrqClearR && !Noteworthy(s.irq.r, s.irq.i) ==> s'.rint == s.rint
    ensures a != IrqClearI && a != IrqClearR ==> s'.ids == s.ids && s'.rint == s.rint
  {
    if a == IrqClearR { NoteworthyClears(s.irq.r, s.irq.i); }
  }

  lemma NoteworthyClears(r: set<RInt>, i: set<IdBit>)
    ensures IrqClearsRint(r, i) <==> Noteworthy(r, i)
    ensures forall e :: e in CLEARED_BY_IRQ <==> e != CommandDone && e != CardDetect && e != Sdio
  {
    assert forall e :: e in RINT_ERRORS && e in r ==> e in r * RINT_ERRORS;
    assert forall x :: x in IDSTS_ERRORS && x in i ==> x in i * IDSTS_ERRORS;
    if StatusHasError(r, i) {
      assert (exists e :: e in r * RINT_ERRORS) || (exists x :: x in i * IDSTS_ERRORS);
    }
  }

  // ---- What the waiter reports ----

  /** What the handler holds alone: cleared from the register and not yet recorded. */
  ghost function InHandR(s: State): set<RInt> { HeldR(s) - s.rint - SnapshotR(s) }
  ghost function InHandI(s: State): set<IdBit> { HeldI(s) - s.ids - SnapshotI(s) }

  /** Steps a and b are the live reads of one call of `idmac_completion_status`, which has
      reported by state k. */
  ghost predicate Reports(states: seq<State>, steps: seq<Step>, a: nat, b: nat, k: nat) {
    && IsRun(states, steps) && a < b < k < |states|
    && steps[a] == ReadR && steps[b] == ReadI && states[k].waiter.Reported?
    && forall j :: a < j < k && j != b ==> Undisturbing(steps[j])
  }

  ghost predicate Undisturbing(a: Step) { a != ReadR && a != ReadI && a != BeginStore }

  /** What a load of the record finds: the tag, and then the bits of each register. */
  ghost function LoadedR(s: State, a: Step): set<RInt> { if a == LoadTag || a == LoadR then SnapshotR(s) else {} }
  ghost function LoadedI(s: State, a: Step): set<IdBit> { if a == LoadTag || a == LoadI then SnapshotI(s) else {} }

  /** What the loads between b and k found recorded for this generation. */
  ghost function SeenR(states: seq<State>, steps: seq<Step>, b: nat, k: nat): set<RInt>
    requires k <= |steps| <= |states|
  {
    if k <= b + 1 then {} else SeenR(states, steps, b, k - 1) + LoadedR(states[k - 1], steps[k - 1])
  }

  ghost function SeenI(states: seq<State>, steps: seq<Step>, b: nat, k: nat): set<IdBit>
    requires k <= |steps| <= |states|
  {
    if k <= b + 1 then {} else SeenI(states, steps, b, k - 1) + LoadedI(states[k - 1], steps[k - 1])
  }

  /** Within a transfer the snapshot of this generation only grows, and keeps its tag. */
  lemma SnapshotGrows(s: State, a: Step, s': State)
    requires Record(s) && Next(s, a, s') && s.driver.InTransfer()
    ensures SnapshotR(s) <= SnapshotR(s') && SnapshotI(s) <= SnapshotI(s')
    ensures s.snapGen == s.generation ==> s'.snapGen == s'.generation
  {}

  /** The two live reads, and what the record held at each. */
  datatype Look = Look(r: set<RInt>, i: set<IdBit>, snapR: set<RInt>, snapI: set<IdBit>)

  /** The waiter's locals are the live reads of `look` and the bits seen since. */
  ghost predicate Agrees(s: State, look: Look, seenR: set<RInt>, seenI: set<IdBit>) {
    match s.waiter
    case GotLive(r, i) =>
      && r == look.r && i == look.i && seenR == {} && seenI == {}
      && look.snapR <= SnapshotR(s) && look.snapI <= SnapshotI(s)
    case Tagged(r, i) =>
      && r == look.r && i == look.i && s.snapGen == s.generation
      && seenR <= s.snapR && look.snapR <= s.snapR && seenI <= s.snapI && look.snapI <= s.snapI
    case GotSnapR(r, i, sr) =>
      && r == look.r && i == look.i && s.snapGen == s.generation
      && seenR == sr && look.snapR <= sr && seenI <= s.snapI && look.snapI <= s.snapI
    case GotSnap(r, i, sr, si) =>
      && r == look.r && i == look.i && s.snapGen == s.generation
      && seenR == sr && look.snapR <= sr && seenI == si && look.snapI <= si
    case Reported(rint, ids) =>
      && rint == look.r + seenR && ids == look.i + seenI
      && look.snapR <= seenR && look.snapI <= seenI
    case _ => false
  }

  lemma OthersKeepAgreement(s: State, a: Step, s': State, look: Look, seenR: set<RInt>, seenI: set<IdBit>)
    requires Record(s) && Agrees(s, look, seenR, seenI) && Next(s, a, s') && s'.waiter == s.waiter
    ensures Agrees(s', look, seenR, seenI)
  {
    if !AtRest(s) { SnapshotGrows(s, a, s'); }
  }

  lemma WaiterKeepsAgreement(s: State, a: Step, s': State, look: Look, seenR: set<RInt>, seenI: set<IdBit>)
    requires Record(s) && Agrees(s, look, seenR, seenI) && WaiterNext(s, a, s') && Undisturbing(a)
    ensures Agrees(s', look, seenR + LoadedR(s, a), seenI + LoadedI(s, a))
  {}

  lemma StepKeepsAgreement(s: State, a: Step, s': State, look: Look, seenR: set<RInt>, seenI: set<IdBit>)
    requires Record(s) && Agrees(s, look, seenR, seenI) && Next(s, a, s') && Undisturbing(a)
    ensures Agrees(s', look, seenR + LoadedR(s, a), seenI + LoadedI(s, a))
  {
    if WaiterNext(s, a, s') {
      WaiterKeepsAgreement(s, a, s', look, seenR, seenI);
    } else {
      assert seenR + LoadedR(s, a) == seenR && seenI + LoadedI(s, a) == seenI;
      OthersKeepAgreement(s, a, s', look, seenR, seenI);
    }
  }

  lemma {:induction false} FirstReadStands(states: seq<State>, steps: seq<Step>, a: nat, b: nat)
    requires IsRun(states, steps) && a < b <= |steps| && steps[a] == ReadR
    requires forall j :: a < j < b ==> Undisturbing(steps[j])
    ensures states[b].waiter == GotR(states[a].rint) && SnapshotR(states[a]) <= SnapshotR(states[b])
  {
    assert NextAt(states, steps, b - 1);
    RunKeepsRecord(states, steps, b - 1);
    if a + 1 < b { FirstReadStands(states, steps, a, b - 1); }
    SnapshotGrows(states[b - 1], steps[b - 1], states[b]);
  }

  ghost function LookOf(states: seq<State>, a: nat, b: nat): Look
    requires a < |states| && b < |states|
  {
    Look(states[a].rint, states[b].ids, SnapshotR(states[a]), SnapshotI(states[b]))
  }

  lemma SecondReadAgrees(states: seq<State>, steps: seq<Step>, a: nat, b: nat)
    requires IsRun(states, steps) && a < b < |steps| && steps[a] == ReadR && steps[b] == ReadI
    requires forall j :: a < j < b ==> Undisturbing(steps[j])
    ensures Agrees(states[b + 1], LookOf(states, a, b), {}, {})
  {
    FirstReadStands(states, steps, a, b);
    assert NextAt(states, steps, b);
  }

  lemma NextAgrees(states: seq<State>, steps: seq<Step>, k: nat, look: Look, seenR: set<RInt>, seenI: set<IdBit>)
    returns (seenR': set<RInt>, seenI': set<IdBit>)
    requires IsRun(states, steps) && k < |steps| && Undisturbing(steps[k]) && Agrees(states[k], look, seenR, seenI)
    ensures seenR' == seenR + LoadedR(states[k], steps[k]) && seenI' == seenI + LoadedI(states[k], steps[k])
    ensures Agrees(states[k + 1], look, seenR', seenI')
  {
    RunKeepsRecord(states, steps, k);
    assert NextAt(states, steps, k);
    StepKeepsAgreement(states[k], steps[k], states[k + 1], look, seenR, seenI);
    seenR', seenI' := seenR + LoadedR(states[k], steps[k]), seenI + LoadedI(states[k], steps[k]);
  }

  lemma {:induction false} LocalsAgree(states: seq<State>, steps: seq<Step>, look: Look, b: nat, k: nat)
    returns (seenR: set<RInt>, seenI: set<IdBit>)
    requires IsRun(states, steps) && b < k <= |steps| && Agrees(states[b + 1], look, {}, {})
    requires forall j :: b < j < k ==> Undisturbing(steps[j])
    ensures seenR == SeenR(states, steps, b, k) && seenI == SeenI(states, steps, b, k)
    ensures Agrees(states[k], look, seenR, seenI)
  {
    if k == b + 1 {
      seenR, seenI := {}, {};
    } else {
      seenR, seenI := LocalsAgree(states, steps, look, b, k - 1);
      seenR, seenI := NextAgrees(states, steps, k - 1, look, seenR, seenI);
    }
  }

  /** A report is exactly what its live reads and its loads found, and the loads find at least what
      was recorded at the live reads. */
  lemma ReportIsReadsAndLoads(states: seq<State>, steps: seq<Step>, a: nat, b: nat, k: nat)
    requires Reports(states, steps, a, b, k)
    ensures states[k].waiter.rint == states[a].rint + SeenR(states, steps, b, k)
    ensures states[k].waiter.ids == states[b].ids + SeenI(states, steps, b, k)
    ensures SnapshotR(states[a]) <= SeenR(states, steps, b, k) && SnapshotI(states[b]) <= SeenI(states, steps, b, k)
  {
    SecondReadAgrees(states, steps, a, b);
    var seenR, seenI := LocalsAgree(states, steps, LookOf(states, a, b), b, k);
  }

  /** A report misses an event raised before its live read exactly when the handler then held it
      alone and has not recorded it by the time the record is loaded. */
  lemma MissesRIff(states: seq<State>, steps: seq<Step>, a: nat, b: nat, k: nat, e: RInt)
    requires Reports(states, steps, a, b, k) && e in states[a].raisedR
    ensures e !in states[k].waiter.rint <==> e in InHandR(states[a]) && e !in SeenR(states, steps, b, k)
  {
    ReportIsReadsAndLoads(states, steps, a, b, k);
    RunKeepsR(states, steps, a, e);
    ReadsWhenActive(states, steps, a);
  }

  /** The same for an event that no resume has lost before. */
  lemma MissesIIff(states: seq<State>, steps: seq<Step>, a: nat, b: nat, k: nat, x: IdBit)
    requires Reports(states, steps, a, b, k) && x in states[b].raisedI && Spared(states, steps, x, b)
    ensures x !in states[k].waiter.ids <==> x in InHandI(states[b]) && x !in SeenI(states, steps, b, k)
  {
    ReportIsReadsAndLoads(states, steps, a, b, k);
    SparedIsKept(states, steps, b, x);
    ReadsWhenActive(states, steps, b);
  }

  lemma ReadsWhenActive(states: seq<State>, steps: seq<Step>, k: nat)
    requires IsRun(states, steps) && k < |steps| && (steps[k] == ReadR || steps[k] == ReadI)
    ensures states[k].driver.Active?
  {
    assert NextAt(states, steps, k);
  }

  /** So a report is complete when no handler is running at either live read, whatever handlers do
      in between and afterwards. */
  lemma ReportMissesOnlyWhatIsInHand(states: seq<State>, steps: seq<Step>, a: nat, b: nat, k: nat)
    requires Reports(states, steps, a, b, k) && forall x :: Spared(states, steps, x, b)
    ensures states[a].raisedR <= states[k].waiter.rint + InHandR(states[a])
    ensures states[b].raisedI <= states[k].waiter.ids + InHandI(states[b])
    ensures states[a].irq.Off? ==> InHandR(states[a]) == {}
    ensures states[b].irq.Off? ==> InHandI(states[b]) == {}
  {
    forall e | e in states[a].raisedR ensures e in states[k].waiter.rint + InHandR(states[a]) {
      MissesRIff(states, steps, a, b, k, e);
    }
    forall x | x in states[b].raisedI ensures x in states[k].waiter.ids + InHandI(states[b]) {
      MissesIIff(states, steps, a, b, k, x);
    }
  }

  // ---- Runs ----

  /** A run that ends in s and has no resume. */
  ghost predicate Plain(states: seq<State>, steps: seq<Step>, s: State) {
    && IsRun(states, steps) && states[|steps|] == s
    && forall j :: 0 <= j < |steps| ==> steps[j] != ResumeWrites
  }

  lemma Extend(states: seq<State>, steps: seq<Step>, a: Step, s: State) returns (states': seq<State>, steps': seq<Step>)
    requires IsRun(states, steps) && Next(states[|steps|], a, s)
    ensures IsRun(states', steps') && states' == states + [s] && steps' == steps + [a]
  {
    states', steps' := states + [s], steps + [a];
    forall k | 0 <= k < |steps'| ensures NextAt(states', steps', k) {
      if k < |steps| { assert NextAt(states, steps, k); }
    }
  }

  lemma Go(states: seq<State>, steps: seq<Step>, s: State, a: Step, s': State)
    returns (states': seq<State>, steps': seq<Step>)
    requires Plain(states, steps, s) && Next(s, a, s') && a != ResumeWrites
    ensures Plain(states', steps', s')
  {
    states', steps' := Extend(states, steps, a, s');
  }

  /** The first two stores of `begin_transfer`. */
  lemma TwoStores() returns (states: seq<State>, steps: seq<Step>, s: State)
    ensures Plain(states, steps, s) && s == State({}, {}, 0, 0, {}, {}, false, Off, Begun(2), Free, {}, {})
  {
    var s0 := State({}, {}, 0, 0, {}, {}, false, Off, Idle, Free, {}, {});
    states, steps := [s0], [];
    var s1 := s0.(driver := Begun(1));
    states, steps := Go(states, steps, s0, BeginStore, s1);
    s := s0.(driver := Begun(2));
    states, steps := Go(states, steps, s1, BeginStore, s);
  }

  /** The shortest run into a transfer. */
  lemma FirstTransfer() returns (states: seq<State>, steps: seq<Step>, s: State)
    ensures Plain(states, steps, s) && s == State({}, {}, 1, 0, {}, {}, false, Off, Active, Free, {}, {})
  {
    var s2;
    states, steps, s2 := TwoStores();
    var s3 := s2.(driver := Begun(3));
    states, steps := Go(states, steps, s2, BeginStore, s3);
    s := s3.(driver := Active, generation := 1);
    states, steps := Go(states, steps, s3, BeginStore, s);
  }

  /** DU and RI are live and the driver has seen the first. */
  lemma DuWithRi() returns (states: seq<State>, steps: seq<Step>, s: State)
    ensures Plain(states, steps, s.(driver := SawDu))
    ensures s == State({}, {DU, RI}, 1, 0, {}, {}, false, Off, Active, Free, {}, {DU, RI})
  {
    states, steps, s := FirstTransfer();
    var s1 := s.(ids := {DU}, raisedI := {DU});
    states, steps := Go(states, steps, s, RaiseI(DU), s1);
    s := s1.(ids := {DU, RI}, raisedI := {DU, RI});
    states, steps := Go(states, steps, s1, RaiseI(RI), s);
    states, steps := Go(states, steps, s, ResumeSees, s.(driver := SawDu));
  }

  /** A transfer that completes at once: RI is raised next to DU, and the resume wipes it. */
  lemma ResumeCanLoseAnEvent() returns (states: seq<State>, steps: seq<Step>)
    ensures IsRun(states, steps) && !KeptI(states[|steps|], RI)
    ensures RI in states[|steps|].raisedI && RI !in states[|steps|].ids && states[|steps|].irq == Off
  {
    var s;
    states, steps, s := DuWithRi();
    states, steps := Go(states, steps, s.(driver := SawDu), ResumeReads, s.(driver := Clearing(s.ids)));
    states, steps := Extend(states, steps, ResumeWrites, s.(ids := {}));
    assert RI in s.raisedI;
  }

  /** The handler has cleared RI and not recorded it yet. */
  lemma EventInHand() returns (states: seq<State>, steps: seq<Step>, s: State)
    ensures Plain(states, steps, s)
    ensures s == State({}, {}, 1, 0, {}, {}, false, ClearedI({}, {RI}), Active, Free, {}, {RI})
  {
    var s0;
    states, steps, s0 := FirstTransfer();
    s := s0.(ids := {RI}, raisedI := {RI});
    states, steps := Go(states, steps, s0, RaiseI(RI), s);
    var s1, s2, s3 := s.(irq := HasR({})), s.(irq := HasBoth({}, {RI})), s.(irq := Flagged({}, {RI}));
    states, steps := Go(states, steps, s, IrqReadR, s1);
    states, steps := Go(states, steps, s1, IrqReadI, s2);
    states, steps := Go(states, steps, s2, IrqFlag, s3);
    s := s.(ids := {}, irq := ClearedI({}, {RI}));
    states, steps := Go(states, steps, s3, IrqClearI, s);
  }

  /** A call whose loads find no tag. */
  lemma EmptyReport(states: seq<State>, steps: seq<Step>, s: State) returns (states': seq<State>, steps': seq<Step>)
    requires Plain(states, steps, s) && AtRest(s) && s.driver.Active? && s.snapGen != s.generation
    ensures IsRun(states', steps') && steps' == steps + [ReadR, ReadI, LoadTag]
    ensures states'[|steps|] == states'[|steps| + 1].(waiter := s.waiter) == s
    ensures states'[|steps'|] == s.(waiter := Reported(s.rint, s.ids))
  {
    states', steps' := Extend(states, steps, ReadR, s.(waiter := GotR(s.rint)));
    states', steps' := Extend(states', steps', ReadI, s.(waiter := GotLive(s.rint, s.ids)));
    states', steps' := Extend(states', steps', LoadTag, s.(waiter := Reported(s.rint, s.ids)));
  }

  /** A report that misses an event nobody has lost: it is in the handler's hand when the waiter
      reads. */
  lemma ReportCanMissAnEvent() returns (states: seq<State>, steps: seq<Step>, a: nat, b: nat)
    ensures Reports(states, steps, a, b, |steps|) && KeptI(states[|steps|], RI)
    ensures RI in states[a].raisedI && RI !in states[|steps|].waiter.ids
  {
    var s;
    states, steps, s := EventInHand();
    a, b := |steps|, |steps| + 1;
    states, steps := EmptyReport(states, steps, s);
    assert RI in s.raisedI;
  }
}
