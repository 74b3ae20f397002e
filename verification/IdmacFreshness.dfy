/** The other side of the completion record: a report shows nothing but events of its transfer if no
    handler ran while the transfer began, and an error raised during a transfer makes itself known
    even while the handler holds it. */
module IdmacFreshness {
  import opened SdRegisters
  import opened IdmacCompletion

  // ---- Nothing but events of the transfer ----

  ghost predicate FreshIrq(s: State) {
    && (!s.irq.Off? ==> s.irq.r <= s.raisedR)
    && (!s.irq.Off? && !s.irq.HasR? ==> s.irq.i <= s.raisedI)
  }

  ghost predicate FreshWaiter(s: State) {
    match s.waiter
    case Free => true
    case GotR(r) => r <= s.raisedR
    case GotLive(r, i) => r <= s.raisedR && i <= s.raisedI
    case Tagged(r, i) => r <= s.raisedR && i <= s.raisedI
    case GotSnapR(r, i, sr) => r <= s.raisedR && i <= s.raisedI && sr <= s.raisedR
    case GotSnap(r, i, sr, si) => r <= s.raisedR && i <= s.raisedI && sr <= s.raisedR && si <= s.raisedI
    case Reported(rint, ids) => rint <= s.raisedR && ids <= s.raisedI
  }

  /** The registers, the record, the handler and the waiter hold events of this transfer only. */
  ghost predicate Fresh(s: State) {
    && s.rint <= s.raisedR && s.ids <= s.raisedI && s.snapR <= s.raisedR && s.snapI <= s.raisedI
    && FreshIrq(s) && FreshWaiter(s)
  }

  lemma StepKeepsFresh(s: State, a: Step, s': State)
    requires Fresh(s) && Next(s, a, s') && a != BeginStore
    ensures Fresh(s')
  {}

  lemma {:induction false} StaysFresh(states: seq<State>, steps: seq<Step>, i: nat, k: nat)
    requires IsRun(states, steps) && i <= k < |states| && Fresh(states[i])
    requires forall j :: i <= j < k ==> steps[j] != BeginStore
    ensures Fresh(states[k])
    decreases k
  {
    if i < k {
      StaysFresh(states, steps, i, k - 1);
      assert NextAt(states, steps, k - 1);
      StepKeepsFresh(states[k - 1], steps[k - 1], states[k]);
    }
  }

  /** A transfer is being begun and no handler runs; what the stores have cleared so far is empty. */
  ghost predicate QuietBegin(s: State) {
    && s.irq.Off? && s.waiter.Free?
    && (s.driver == Begun(2) ==> s.snapR == {})
    && (s.driver == Begun(3) ==> s.snapR == {} && s.snapI == {})
    && (s.driver.Begun? ==> 1 <= s.driver.stores <= 3)
  }

  lemma StoreIsQuiet(s: State, a: Step, s': State)
    requires QuietBegin(s) && s.driver.Begun? && Next(s, a, s') && s'.irq.Off?
    ensures s'.driver.Begun? ==> QuietBegin(s')
    ensures !s'.driver.Begun? ==> s'.driver.Active? && Fresh(s')
  {}

  /** The four stores of a transfer that no handler meets: from state i, after the first, to state g,
      where the transfer is active. */
  lemma {:induction false} BeginsQuietly(states: seq<State>, steps: seq<Step>, i: nat, g: nat)
    requires IsRun(states, steps) && i < g < |states| && states[i].driver == Begun(1) && states[i].waiter.Free?
    requires forall j :: i <= j <= g ==> states[j].irq.Off?
    requires forall j :: i <= j < g ==> states[j].driver.Begun?
    ensures if states[g].driver.Begun? then QuietBegin(states[g]) else states[g].driver.Active? && Fresh(states[g])
    decreases g
  {
    if i + 1 < g { BeginsQuietly(states, steps, i, g - 1); }
    assert NextAt(states, steps, g - 1);
    StoreIsQuiet(states[g - 1], steps[g - 1], states[g]);
  }

  /** If no handler runs while a transfer begins, every report of it shows events of it only. */
  lemma ReportsNothingElse(states: seq<State>, steps: seq<Step>, i: nat, g: nat, k: nat)
    requires IsRun(states, steps) && i < g <= k < |states|
    requires states[i].driver == Begun(1) && states[i].waiter.Free? && states[g].driver.Active?
    requires forall j :: i <= j <= g ==> states[j].irq.Off?
    requires forall j :: i <= j < g ==> states[j].driver.Begun?
    requires forall j :: g <= j < k ==> steps[j] != BeginStore
    ensures states[k].waiter.Reported? ==>
              states[k].waiter.rint <= states[k].raisedR && states[k].waiter.ids <= states[k].raisedI
    ensures SnapshotR(states[k]) <= states[k].raisedR && SnapshotI(states[k]) <= states[k].raisedI
  {
    BeginsQuietly(states, steps, i, g);
    StaysFresh(states, steps, g, k);
  }

  lemma StaleRead() returns (states: seq<State>, steps: seq<Step>, s: State)
    ensures Plain(states, steps, s)
    ensures s == State({}, {RI}, 0, 0, {}, {}, false, HasBoth({}, {RI}), Idle, Free, {}, {RI})
  {
    var s0 := State({}, {}, 0, 0, {}, {}, false, Off, Idle, Free, {}, {});
    states, steps := [s0], [];
    var s1 := s0.(ids := {RI}, raisedI := {RI});
    var s2 := s1.(irq := HasR({}));
    states, steps := Go(states, steps, s0, RaiseI(RI), s1);
    states, steps := Go(states, steps, s1, IrqReadR, s2);
    s := s1.(irq := HasBoth({}, {RI}));
    states, steps := Go(states, steps, s2, IrqReadI, s);
  }

  /** The handler has cleared RI before any transfer, and records it in the first one. */
  lemma StaleInHand() returns (states: seq<State>, steps: seq<Step>, s: State)
    ensures Plain(states, steps, s)
    ensures s == State({}, {}, 0, 0, {}, {}, false, ClearedBoth({}, {RI}), Idle, Free, {}, {RI})
  {
    var s0;
    states, steps, s0 := StaleRead();
    var s1, s2 := s0.(irq := Flagged({}, {RI})), s0.(ids := {}, irq := ClearedI({}, {RI}));
    states, steps := Go(states, steps, s0, IrqFlag, s1);
    states, steps := Go(states, steps, s1, IrqClearI, s2);
    s := s2.(irq := ClearedBoth({}, {RI}));
    states, steps := Go(states, steps, s2, IrqClearR, s);
  }

  lemma StaleWhenActive() returns (states: seq<State>, steps: seq<Step>, s: State)
    ensures Plain(states, steps, s)
    ensures s == State({}, {}, 1, 0, {}, {}, false, ClearedBoth({}, {RI}), Active, Free, {}, {})
  {
    var s0;
    states, steps, s0 := StaleInHand();
    var s1, s2, s3 := s0.(driver := Begun(1)), s0.(driver := Begun(2)), s0.(driver := Begun(3));
    states, steps := Go(states, steps, s0, BeginStore, s1);
    states, steps := Go(states, steps, s1, BeginStore, s2);
    states, steps := Go(states, steps, s2, BeginStore, s3);
    s := s0.(driver := Active, generation := 1, raisedI := {});
    states, steps := Go(states, steps, s3, BeginStore, s);
  }

  /** Otherwise it can show one that was raised before: the record has it although the transfer has
      raised nothing. */
  lemma StaleEventCanBeRecorded() returns (states: seq<State>, steps: seq<Step>)
    ensures IsRun(states, steps)
    ensures var s := states[|steps|];
            s.driver.Active? && s.raisedR == {} && s.raisedI == {} && RI in SnapshotI(s)
  {
    var s;
    states, steps, s := StaleWhenActive();
    var s1, s2 := s.(irq := Loaded({}, {RI}, 1)), s.(irq := OredR({}, {RI}, 1));
    var s3 := s.(snapI := {RI}, irq := OredBoth({}, {RI}, 1));
    states, steps := Go(states, steps, s, IrqLoad, s1);
    states, steps := Go(states, steps, s1, IrqOrR, s2);
    states, steps := Go(states, steps, s2, IrqOrI, s3);
    states, steps := Go(states, steps, s3, IrqStore, s.(snapI := {RI}, snapGen := 1, irq := Off));
  }

  // ---- Exactly which other events the record shows ----

  /** The bits that the handler under way has read and not yet put into the record. */
  ghost function HeldR(irq: Irq): set<RInt> { if irq.Off? || irq.OredR? || irq.OredBoth? then {} else irq.r }
  ghost function HeldI(irq: Irq): set<IdBit> { if irq.Off? || irq.HasR? || irq.OredBoth? then {} else irq.i }

  /** The transfer of state k became active at state g. */
  ghost predicate Since(states: seq<State>, steps: seq<Step>, g: nat, k: nat) {
    && IsRun(states, steps) && 0 < g <= k < |states| && steps[g - 1] == BeginStore && states[g].driver.Active?
    && forall j :: g <= j < k ==> steps[j] != BeginStore
  }

  lemma StartsWithLiveBits(states: seq<State>, steps: seq<Step>, g: nat)
    requires Since(states, steps, g, g)
    ensures states[g].raisedR == states[g].rint && states[g].raisedI == states[g].ids && states[g].generation > 0
  {
    assert NextAt(states, steps, g - 1);
  }

  lemma StaleStepR(states: seq<State>, steps: seq<Step>, k: nat, e: RInt)
    requires IsRun(states, steps) && k < |steps| && steps[k] != BeginStore && e !in states[k + 1].raisedR
    ensures e !in states[k].raisedR
    ensures e !in states[k].rint && states[k].generation > 0 ==>
              && (e in states[k + 1].snapR <==>
                    e in states[k].snapR || (e in HeldR(states[k].irq) && steps[k] == IrqOrR))
              && (e in HeldR(states[k + 1].irq) <==> e in HeldR(states[k].irq) && steps[k] != IrqOrR)
              && e !in states[k + 1].rint && states[k + 1].generation > 0
  {
    assert NextAt(states, steps, k);
  }

  /** An event of RINTSTS that this transfer has not raised is in the record exactly if it was there
      when the transfer became active, or the handler under way then has put it there since. */
  lemma {:induction false} StaleIffR(states: seq<State>, steps: seq<Step>, g: nat, k: nat, e: RInt)
    requires Since(states, steps, g, k) && e !in states[k].raisedR
    ensures e in states[k].snapR <==>
              e in states[g].snapR || (e in HeldR(states[g].irq) && exists j :: g <= j < k && steps[j] == IrqOrR)
    ensures e in HeldR(states[k].irq) <==>
              e in HeldR(states[g].irq) && forall j :: g <= j < k ==> steps[j] != IrqOrR
    ensures e !in states[k].rint && states[k].generation > 0
    decreases k
  {
    if k == g {
      StartsWithLiveBits(states, steps, g);
    } else {
      StaleStepR(states, steps, k - 1, e);
      StaleIffR(states, steps, g, k - 1, e);
    }
  }

  lemma StaleStepI(states: seq<State>, steps: seq<Step>, k: nat, x: IdBit)
    requires IsRun(states, steps) && k < |steps| && steps[k] != BeginStore && x !in states[k + 1].raisedI
    ensures x !in states[k].raisedI
    ensures x !in states[k].ids && states[k].generation > 0 ==>
              && (x in states[k + 1].snapI <==>
                    x in states[k].snapI || (x in HeldI(states[k].irq) && steps[k] == IrqOrI))
              && (x in HeldI(states[k + 1].irq) <==> x in HeldI(states[k].irq) && steps[k] != IrqOrI)
              && x !in states[k + 1].ids && states[k + 1].generation > 0
  {
    assert NextAt(states, steps, k);
  }

  /** The same for IDSTS. */
  lemma {:induction false} StaleIffI(states: seq<State>, steps: seq<Step>, g: nat, k: nat, x: IdBit)
    requires Since(states, steps, g, k) && x !in states[k].raisedI
    ensures x in states[k].snapI <==>
              x in states[g].snapI || (x in HeldI(states[g].irq) && exists j :: g <= j < k && steps[j] == IrqOrI)
    ensures x in HeldI(states[k].irq) <==>
              x in HeldI(states[g].irq) && forall j :: g <= j < k ==> steps[j] != IrqOrI
    ensures x !in states[k].ids && states[k].generation > 0
    decreases k
  {
    if k == g {
      StartsWithLiveBits(states, steps, g);
    } else {
      StaleStepI(states, steps, k - 1, x);
      StaleIffI(states, steps, g, k - 1, x);
    }
  }

  // ---- What a cleared register and a late handler show ----

  /** An event that the driver has cleared before a transfer is out of RINTSTS until the controller
      raises it again; it clears no other. */
  lemma {:induction false} ClearedUntilRaisedR(states: seq<State>, steps: seq<Step>, j: nat, k: nat, e: RInt)
    requires IsRun(states, steps) && j < k < |states| && steps[j].ClearStale?
    requires forall n :: j < n < k ==> steps[n] != RaiseR(e)
    ensures e in steps[j].r ==> e !in states[k].rint
    ensures e !in steps[j].r ==> (e in states[j + 1].rint <==> e in states[j].rint)
    decreases k
  {
    assert NextAt(states, steps, j);
    assert NextAt(states, steps, k - 1);
    if j + 1 < k { ClearedUntilRaisedR(states, steps, j, k - 1, e); }
  }

  /** The same for IDSTS. */
  lemma {:induction false} ClearedUntilRaisedI(states: seq<State>, steps: seq<Step>, j: nat, k: nat, x: IdBit)
    requires IsRun(states, steps) && j < k < |states| && steps[j].ClearStale?
    requires forall n :: j < n < k ==> steps[n] != RaiseI(x)
    ensures x in steps[j].i ==> x !in states[k].ids
    ensures x !in steps[j].i ==> (x in states[j + 1].ids <==> x in states[j].ids)
    decreases k
  {
    assert NextAt(states, steps, j);
    assert NextAt(states, steps, k - 1);
    if j + 1 < k { ClearedUntilRaisedI(states, steps, j, k - 1, x); }
  }

  /** A handler goes on with the generation it loaded. */
  lemma {:induction false} HoldsItsTag(states: seq<State>, steps: seq<Step>, j: nat, k: nat)
    requires IsRun(states, steps) && j < k < |states| && steps[j] == IrqLoad
    requires forall n :: j < n < k ==> steps[n] != IrqLoad
    ensures states[k].irq.PastLoad() ==> states[k].irq.gen == states[j].generation
    decreases k
  {
    assert NextAt(states, steps, k - 1);
    if j + 1 < k { HoldsItsTag(states, steps, j, k - 1); }
  }

  /** A handler that loaded the generation of an earlier transfer leaves nothing that a report of this
      one could find. */
  lemma LateHandlerShowsNothing(states: seq<State>, steps: seq<Step>, j: nat, k: nat)
    requires IsRun(states, steps) && j < k < |steps| && steps[j] == IrqLoad && steps[k] == IrqStore
    requires (forall n :: j < n < k ==> steps[n] != IrqLoad) && states[j].generation != states[k].generation
    ensures SnapshotR(states[k + 1]) == {} && SnapshotI(states[k + 1]) == {}
  {
    HoldsItsTag(states, steps, j, k);
    assert NextAt(states, steps, k);
  }

  // ---- Errors make themselves known ----

  /** At step j a handler stored an error to the flag, which the driver has not reset before state k. */
  ghost predicate FlaggedSince(states: seq<State>, steps: seq<Step>, j: nat, k: nat) {
    && j < k <= |steps| && |steps| <= |states|
    && steps[j] == IrqFlag && states[j].irq.HasBoth? && StatusHasError(states[j].irq.r, states[j].irq.i)
    && forall i :: j < i < k ==> steps[i] != ClearFlag
  }

  /** The error flag is set exactly if a handler found an error since the driver last reset it. */
  lemma {:induction false} FlagIffErrorFound(states: seq<State>, steps: seq<Step>, k: nat)
    requires IsRun(states, steps) && k < |states|
    ensures states[k].error <==> exists j: nat :: FlaggedSince(states, steps, j, k)
  {
    if k > 0 {
      FlagIffErrorFound(states, steps, k - 1);
      assert NextAt(states, steps, k - 1);
      if states[k].error && !FlaggedSince(states, steps, k - 1, k) {
        var j: nat :| FlaggedSince(states, steps, j, k - 1);
        assert FlaggedSince(states, steps, j, k);
      }
      if j: nat :| FlaggedSince(states, steps, j, k) {
        assert j < k - 1 ==> FlaggedSince(states, steps, j, k - 1);
      }
    }
  }

  ghost predicate PastClearI(irq: Irq) { irq.ClearedI? || irq.ClearedBoth? || irq.PastLoad() }
  ghost predicate PastClearR(irq: Irq) { irq.ClearedBoth? || irq.PastLoad() }

  /** A handler that has read an error and passed its store to the flag has set it. */
  ghost predicate FlagSet(s: State) {
    (s.irq.Flagged? || PastClearI(s.irq)) && StatusHasError(s.irq.r, s.irq.i) ==> s.error
  }

  lemma StepKeepsFlag(s: State, a: Step, s': State)
    requires FlagSet(s) && Next(s, a, s') && a != ClearFlag
    ensures FlagSet(s') && (s.error ==> s'.error)
  {}

  lemma {:induction false} FlagStays(states: seq<State>, steps: seq<Step>, g: nat, k: nat)
    requires IsRun(states, steps) && g <= k < |states| && FlagSet(states[g])
    requires forall j :: g <= j < k ==> steps[j] != ClearFlag
    ensures FlagSet(states[k]) && (states[g].error ==> states[k].error)
    decreases k
  {
    if g < k {
      FlagStays(states, steps, g, k - 1);
      assert NextAt(states, steps, k - 1);
      StepKeepsFlag(states[k - 1], steps[k - 1], states[k]);
    }
  }

  /** An event that no handler has cleared is live or recorded. */
  ghost predicate InSightR(s: State, e: RInt) {
    s.driver.InTransfer() && e in s.raisedR && !PastClearR(s.irq) ==> e in s.rint || e in SnapshotR(s)
  }

  ghost predicate InSightI(s: State, x: IdBit) {
    s.driver.InTransfer() && x in s.raisedI && !PastClearI(s.irq) ==> x in s.ids || x in SnapshotI(s)
  }

  lemma StepKeepsInSightR(s: State, a: Step, s': State, e: RInt)
    requires Record(s) && KeptR(s, e) && InSightR(s, e) && Next(s, a, s')
    ensures InSightR(s', e)
  {}

  /** No resume has wiped x so far. */
  ghost predicate Unwiped(states: seq<State>, steps: seq<Step>, x: IdBit, k: nat)
    requires k <= |steps| <= |states|
  {
    forall j :: 0 <= j < k && steps[j] == ResumeWrites && states[j].driver.Clearing? ==>
      x !in states[j].ids || x !in states[j].driver.seen
  }

  lemma StepKeepsInSightI(s: State, a: Step, s': State, x: IdBit)
    requires Record(s) && KeptI(s, x) && InSightI(s, x) && Next(s, a, s')
    requires a == ResumeWrites && s.driver.Clearing? ==> x !in s.ids || x !in s.driver.seen
    ensures InSightI(s', x)
  {}

  lemma {:induction false} RunInSightR(states: seq<State>, steps: seq<Step>, k: nat, e: RInt)
    requires IsRun(states, steps) && k < |states|
    ensures InSightR(states[k], e)
  {
    if k > 0 {
      RunInSightR(states, steps, k - 1, e);
      RunKeepsRecord(states, steps, k - 1);
      RunKeepsR(states, steps, k - 1, e);
      assert NextAt(states, steps, k - 1);
      StepKeepsInSightR(states[k - 1], steps[k - 1], states[k], e);
    }
  }

  lemma {:induction false} RunInSightI(states: seq<State>, steps: seq<Step>, k: nat, x: IdBit)
    requires IsRun(states, steps) && k < |states| && Unwiped(states, steps, x, k)
    ensures InSightI(states[k], x) && Spared(states, steps, x, k)
  {
    if k > 0 {
      RunInSightI(states, steps, k - 1, x);
      RunKeepsRecord(states, steps, k - 1);
      SparedIsKept(states, steps, k - 1, x);
      assert NextAt(states, steps, k - 1);
      StepKeepsInSightI(states[k - 1], steps[k - 1], states[k], x);
    }
  }

  lemma HeldErrorIsFlagged(s: State)
    requires FlagSet(s)
    ensures forall e :: e in RINT_ERRORS && PastClearR(s.irq) && e in s.irq.r ==> s.error
    ensures forall x :: x in IDSTS_ERRORS && PastClearI(s.irq) && x in s.irq.i ==> s.error
  {
    forall e | e in RINT_ERRORS && PastClearR(s.irq) && e in s.irq.r ensures s.error {
      assert e in s.irq.r * RINT_ERRORS;
    }
    forall x | x in IDSTS_ERRORS && PastClearI(s.irq) && x in s.irq.i ensures s.error {
      assert x in s.irq.i * IDSTS_ERRORS;
    }
  }

  /** State g lies in a transfer whose running handler, if any, has not passed its store to the error
      flag before the driver reset it; the flag is not reset again before state m. */
  ghost predicate Watched(states: seq<State>, steps: seq<Step>, g: nat, m: nat) {
    && IsRun(states, steps) && g <= m < |states| && FlagSet(states[g])
    && forall j :: g <= j < m ==> steps[j] != ClearFlag
  }

  /** An error of RINTSTS raised before the live read of a report is in the report, or the error flag
      is set when it is loaded afterwards: the handler sets the flag before it clears anything. */
  lemma ErrorShowsR(states: seq<State>, steps: seq<Step>, g: nat, a: nat, b: nat, k: nat, m: nat, e: RInt)
    requires Watched(states, steps, g, m) && Reports(states, steps, a, b, k) && g <= a && k <= m
    requires e in RINT_ERRORS && e in states[a].raisedR
    ensures e in states[k].waiter.rint || states[m].error
  {
    if e !in states[k].waiter.rint {
      MissesRIff(states, steps, a, b, k, e);
      ReadsWhenActive(states, steps, a);
      RunInSightR(states, steps, a, e);
      FlagStays(states, steps, g, a);
      HeldErrorIsFlagged(states[a]);
      FlagStays(states, steps, a, m);
    }
  }

  /** The same for an error of IDSTS that no resume has wiped. */
  lemma ErrorShowsI(states: seq<State>, steps: seq<Step>, g: nat, a: nat, b: nat, k: nat, m: nat, x: IdBit)
    requires Watched(states, steps, g, m) && Reports(states, steps, a, b, k) && g <= b && k <= m
    requires x in IDSTS_ERRORS && x in states[b].raisedI && Unwiped(states, steps, x, b)
    ensures x in states[k].waiter.ids || states[m].error
  {
    if x !in states[k].waiter.ids {
      RunInSightI(states, steps, b, x);
      MissesIIff(states, steps, a, b, k, x);
      ReadsWhenActive(states, steps, b);
      FlagStays(states, steps, g, b);
      HeldErrorIsFlagged(states[b]);
      FlagStays(states, steps, b, m);
    }
  }
}
