/** The completion record and the validation of a transfer together: events raised by the
    controller, recorded by any interleaving of handlers, reported to the waiter and judged by
    `validate_idmac_terminal`. */
module IdmacReport {
  import opened SdRegisters
  import opened IdmacCompletion
  import T = IdmacTrace
  import D = SdMmcDriver

  ghost predicate NoErrorR(r: set<RInt>) { r * RINT_ERRORS == {} }
  ghost predicate NoErrorI(i: set<IdBit>) { i * IDSTS_ERRORS == {} }

  ghost predicate CleanIrq(irq: Irq) {
    && (!irq.Off? ==> NoErrorR(irq.r))
    && (!irq.Off? && !irq.HasR? ==> NoErrorI(irq.i))
  }

  ghost predicate CleanWaiter(w: Waiter) {
    match w
    case Free => true
    case GotR(r) => NoErrorR(r)
    case GotLive(r, i) => NoErrorR(r) && NoErrorI(i)
    case Tagged(r, i) => NoErrorR(r) && NoErrorI(i)
    case GotSnapR(r, i, sr) => NoErrorR(r) && NoErrorI(i) && NoErrorR(sr)
    case GotSnap(r, i, sr, si) => NoErrorR(r) && NoErrorI(i) && NoErrorR(sr) && NoErrorI(si)
    case Reported(rint, ids) => NoErrorR(rint) && NoErrorI(ids)
  }

  /** No error bit is anywhere, and so no resume is under way. */
  ghost predicate Clean(s: State) {
    && !s.error && NoErrorR(s.rint) && NoErrorI(s.ids) && NoErrorR(s.snapR) && NoErrorI(s.snapI)
    && CleanIrq(s.irq) && CleanWaiter(s.waiter) && !s.driver.SawDu? && !s.driver.Clearing?
  }

  ghost predicate RaisesError(a: Step) {
    (a.RaiseR? && a.e in RINT_ERRORS) || (a.RaiseI? && a.x in IDSTS_ERRORS)
  }

  lemma StepKeepsClean(s: State, a: Step, s': State)
    requires Clean(s) && Next(s, a, s') && !RaisesError(a)
    ensures Clean(s') && a != ResumeWrites
  {
    assert DU in s.ids ==> DU in s.ids * IDSTS_ERRORS;
  }

  lemma {:induction false} RunStaysClean(states: seq<State>, steps: seq<Step>, k: nat)
    requires IsRun(states, steps) && k < |states| && Clean(states[0])
    requires forall j :: 0 <= j < k ==> !RaisesError(steps[j])
    ensures Clean(states[k])
  {
    if k > 0 {
      RunStaysClean(states, steps, k - 1);
      assert NextAt(states, steps, k - 1);
      StepKeepsClean(states[k - 1], steps[k - 1], states[k]);
    }
  }

  /** What the waiter knows after report k, with the error flag as loaded at state m. */
  ghost function StatusOf(states: seq<State>, k: nat, m: nat): T.Status
    requires k <= m < |states| && states[k].waiter.Reported?
  {
    T.Status(states[m].error, states[k].waiter.rint, states[k].waiter.ids)
  }

  lemma CleanRunSpares(states: seq<State>, steps: seq<Step>, k: nat, x: IdBit)
    requires IsRun(states, steps) && k < |states| && Clean(states[0])
    requires forall j :: 0 <= j < k ==> !RaisesError(steps[j])
    ensures Spared(states, steps, x, k)
  {
    forall j | 0 <= j < k && steps[j] == ResumeWrites ensures SparesI(states[j], x) {
      RunStaysClean(states, steps, j);
    }
  }

  /** The report has every terminal event. */
  lemma ReportIsTerminal(states: seq<State>, steps: seq<Step>, a: nat, b: nat, k: nat, cmd: Cmd)
    requires Reports(states, steps, a, b, k) && states[a].irq.Off? && states[b].irq.Off?
    requires forall x :: Spared(states, steps, x, b)
    requires T.TerminalEvents(cmd, T.Status(false, states[a].raisedR, states[b].raisedI))
    ensures forall error :: T.TerminalEvents(cmd, T.Status(error, states[k].waiter.rint, states[k].waiter.ids))
  {
    ReportMissesOnlyWhatIsInHand(states, steps, a, b, k);
  }

  /** Once the controller has raised every terminal event of the command and no error, a report
      whose live reads meet no running handler ends the wait and validates the transfer. */
  lemma TerminalEventsValidate(states: seq<State>, steps: seq<Step>, a: nat, b: nat, k: nat, m: nat,
                               evidence: T.Evidence)
    requires Reports(states, steps, a, b, k) && k <= m < |states|
    requires Clean(states[0]) && forall j :: 0 <= j < m ==> !RaisesError(steps[j])
    requires states[a].irq.Off? && states[b].irq.Off?
    requires T.TerminalEvents(evidence.cmd, T.Status(false, states[a].raisedR, states[b].raisedI))
    requires evidence.status == StatusOf(states, k, m) && evidence.owned == 0 && !evidence.cardError
    ensures T.Validated(evidence) && D.Holds(D.DataPhase, evidence.cmd, evidence.status)
  {
    assert T.TerminalEvents(evidence.cmd, evidence.status) by {
      forall x ensures Spared(states, steps, x, b) {
        CleanRunSpares(states, steps, b, x);
      }
      ReportIsTerminal(states, steps, a, b, k, evidence.cmd);
    }
    assert !evidence.status.HasError() by {
      RunStaysClean(states, steps, k);
      RunStaysClean(states, steps, m);
    }
  }
}
