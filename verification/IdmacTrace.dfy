/** What the driver does to the IDMAC and to DMA memory, as a trace of events, and the rules a
    trace keeps. The temporal statements at the end are about positions in the trace alone. */
module IdmacTrace {
  import opened SdRegisters
  import IdmacChain

  datatype Status = Status(errorFlag: bool, rint: set<RInt>, ids: set<IdBit>) {
    /** `idmac_status_has_error` */
    predicate HasError() { errorFlag || StatusHasError(rint, ids) }
  }

  const R1_ERROR_MASK: bv32 := 0xfff9_8088

  /** Everything read before a transfer is reported as successful. */
  datatype Evidence = Evidence(cmd: Cmd, status: Status, owned: nat, cardError: bool, expectsR1: bool, r1: bv32)

  /** The conditions of `idmac_terminal_events_or_error`, error aside. */
  predicate TerminalEvents(cmd: Cmd, s: Status) {
    && (cmd.responseExpect ==> CommandDone in s.rint)
    && (cmd.sendAutoStop ==> AutoCommandDone in s.rint)
    && (if cmd.readWrite then TI in s.ids else RI in s.ids)
    && DataTransferOver in s.rint
  }

  /** `validate_idmac_terminal` */
  predicate Validated(e: Evidence) {
    !e.status.HasError() && TerminalEvents(e.cmd, e.status) && e.owned == 0 && !e.cardError
  }

  predicate CleanR1(e: Evidence) { e.expectsR1 ==> e.r1 & R1_ERROR_MASK == 0 }

  predicate Full(e: Evidence) { Validated(e) && CleanR1(e) }

  datatype Event =
    | Alloc(id: nat)                                     // coherent allocation
    | Free(id: nat)                                      // dealloc_coherent
    | Publish(desc: nat, buf: nat, chain: seq<IdmacChain.Descriptor>, len: nat, bus: nat, base: nat)
                                                         // DBADDR written
    | Start(desc: nat, buf: nat, command: Command)       // CMDARG and CMD written, with start_cmd
    | Terminal(desc: nat, buf: nat, evidence: Evidence)
    | Reset(done: bool)                                  // reset_idmac returned
    | Fault                                              // idmac_faulted set

  /** What the history so far allows. `inUse` is the memory the IDMAC may still access;
      `abandoned` was in use when a reset failed; `commands` have been started. */
  datatype Monitor = Monitor(known: set<nat>, live: set<nat>, inUse: set<nat>, abandoned: set<nat>,
                             pending: Option<(nat, nat)>, faulted: bool, commands: seq<Command>)

  const START: Monitor := Monitor({}, {}, {}, {}, None, false, [])

  ghost function Step(m: Monitor, e: Event): Monitor {
    match e
    case Alloc(id) => m.(known := m.known + {id}, live := m.live + {id})
    case Free(id) => m.(live := m.live - {id})
    case Publish(d, b, _, _, _, _) => m.(inUse := m.inUse + {d, b})
    case Start(d, b, c) => m.(pending := Some((d, b)), commands := m.commands + [c])
    case Terminal(d, b, _) => m.(pending := None, inUse := m.inUse - {d, b})
    case Reset(done) => if done then m.(inUse := {}) else m.(abandoned := m.abandoned + m.inUse)
    case Fault => m.(faulted := true, pending := None)
  }

  ghost predicate Allowed(m: Monitor, e: Event) {
    match e
    case Alloc(id) => id !in m.known
    case Free(id) => id in m.live && id !in m.inUse && id !in m.abandoned
    case Publish(d, b, chain, len, bus, base) =>
      && d in m.live && b in m.live && !m.faulted && m.pending == None
      && 0 < len <= IdmacChain.DMA_BUFFER_SIZE && bus + len <= IdmacChain.TWO32
      && IdmacChain.Layout(chain, len, bus, base)
    case Start(d, b, _) => !m.faulted && m.pending == None && {d, b} <= m.inUse
    case Terminal(d, b, evidence) => m.pending == Some((d, b)) && Full(evidence)
    case Reset(_) => true
    case Fault => true
  }

  ghost function After(log: seq<Event>): Monitor {
    if log == [] then START else Step(After(log[..|log| - 1]), log[|log| - 1])
  }

  ghost predicate AllowedAt(log: seq<Event>, i: nat)
    requires i < |log|
  {
    Allowed(After(log[..i]), log[i])
  }

  ghost predicate Accepted(log: seq<Event>) {
    forall i {:trigger AllowedAt(log, i)} :: 0 <= i < |log| ==> AllowedAt(log, i)
  }

  lemma AfterNext(log: seq<Event>, i: nat)
    requires i < |log|
    ensures After(log[..i + 1]) == Step(After(log[..i]), log[i])
  {
    assert log[..i + 1][..i] == log[..i];
  }

  lemma AppendAccepted(log: seq<Event>, e: Event)
    requires Accepted(log) && Allowed(After(log), e)
    ensures Accepted(log + [e]) && After(log + [e]) == Step(After(log), e)
  {
    var longer := log + [e];
    assert longer[..|log|] == log;
    forall i | 0 <= i < |longer| ensures AllowedAt(longer, i) {
      if i < |log| {
        assert longer[..i] == log[..i] && longer[i] == log[i];
        assert AllowedAt(log, i);
      }
    }
  }

  // ---- The commands that were started ----

  ghost function Commands(log: seq<Event>): seq<Command> {
    if log == [] then []
    else Commands(log[..|log| - 1]) + if log[|log| - 1].Start? then [log[|log| - 1].command] else []
  }

  /** The monitor keeps the commands of the trace. */
  lemma {:induction false} MonitorHasCommands(log: seq<Event>)
    ensures After(log).commands == Commands(log)
  {
    if log != [] { MonitorHasCommands(log[..|log| - 1]); }
  }

  // ---- Temporal reading ----

  /** Event `e` hands memory `id` to the IDMAC. */
  predicate Hands(e: Event, id: nat) { e.Publish? && (e.desc == id || e.buf == id) }

  /** Event `e` proves that the IDMAC is done with `id`: a completed reset, or full terminal
      evidence for the transfer that used it. */
  predicate Releases(e: Event, id: nat) {
    e == Reset(true) || (e.Terminal? && (e.desc == id || e.buf == id) && Full(e.evidence))
  }

  ghost predicate HeldFrom(log: seq<Event>, p: nat, k: nat, id: nat)
    requires p < k <= |log|
  {
    Hands(log[p], id) && forall i :: p < i < k ==> !Releases(log[i], id)
  }

  lemma StepHolds(m: Monitor, e: Event, id: nat)
    requires Allowed(m, e) && id in m.inUse && !Releases(e, id)
    ensures id in Step(m, e).inUse
  {}

  lemma {:induction false} HeldIsInUse(log: seq<Event>, p: nat, k: nat, id: nat)
    requires Accepted(log) && p < k <= |log| && HeldFrom(log, p, k, id)
    ensures id in After(log[..k]).inUse
    decreases k
  {
    AfterNext(log, k - 1);
    if p < k - 1 {
      HeldIsInUse(log, p, k - 1, id);
      assert AllowedAt(log, k - 1);
      StepHolds(After(log[..k - 1]), log[k - 1], id);
    }
  }

  lemma FreeNeedsIdle(log: seq<Event>, j: nat, id: nat)
    requires Accepted(log) && j < |log| && log[j] == Free(id)
    ensures id in After(log[..j]).live && id !in After(log[..j]).inUse && id !in After(log[..j]).abandoned
  {
    assert AllowedAt(log, j);
  }

  /** Memory handed to the IDMAC is freed only once the IDMAC is known to be done with it. */
  lemma FreedOnlyAfterRelease(log: seq<Event>, p: nat, j: nat, id: nat)
    requires Accepted(log) && p < j < |log| && Hands(log[p], id) && log[j] == Free(id)
    ensures exists k :: p < k < j && Releases(log[k], id)
  {
    FreeNeedsIdle(log, j, id);
    if !exists k :: p < k < j && Releases(log[k], id) {
      HeldIsInUse(log, p, j, id);
    }
  }

  lemma {:induction false} AbandonedStays(log: seq<Event>, i: nat, j: nat, id: nat)
    requires i <= j <= |log| && id in After(log[..i]).abandoned
    ensures id in After(log[..j]).abandoned
    decreases j
  {
    if i < j {
      AbandonedStays(log, i, j - 1, id);
      AfterNext(log, j - 1);
    }
  }

  /** After a reset that fails while the IDMAC holds `id`, `id` is never freed. */
  lemma AbandonedIsNeverFreed(log: seq<Event>, p: nat, k: nat, j: nat, id: nat)
    requires Accepted(log) && p < k < j < |log| && HeldFrom(log, p, k, id) && log[k] == Reset(false)
    ensures log[j] != Free(id)
  {
    HeldIsInUse(log, p, k, id);
    AfterNext(log, k);
    AbandonedStays(log, k + 1, j, id);
    if log[j] == Free(id) { FreeNeedsIdle(log, j, id); }
  }

  lemma {:induction false} FaultStays(log: seq<Event>, i: nat, j: nat)
    requires i < j <= |log| && log[i] == Fault
    ensures After(log[..j]).faulted
    decreases j
  {
    AfterNext(log, j - 1);
    if i < j - 1 { FaultStays(log, i, j - 1); }
  }

  /** Once faulted, the driver neither publishes nor starts a transfer again. */
  lemma NothingStartsAfterFault(log: seq<Event>, i: nat, j: nat)
    requires Accepted(log) && i < j < |log| && log[i] == Fault
    ensures !log[j].Start? && !log[j].Publish?
  {
    FaultStays(log, i, j);
    assert AllowedAt(log, j);
  }

  predicate Settles(e: Event) { e == Fault || e.Terminal? }

  lemma StepWaits(m: Monitor, e: Event)
    requires Allowed(m, e) && m.pending.Some? && !Settles(e)
    ensures Step(m, e).pending == m.pending
  {}

  lemma {:induction false} UnsettledIsPending(log: seq<Event>, i: nat, j: nat)
    requires Accepted(log) && i < j <= |log| && log[i].Start?
    requires forall k :: i < k < j ==> !Settles(log[k])
    ensures After(log[..j]).pending == Some((log[i].desc, log[i].buf))
    decreases j
  {
    AfterNext(log, j - 1);
    if i < j - 1 {
      UnsettledIsPending(log, i, j - 1);
      assert AllowedAt(log, j - 1);
      StepWaits(After(log[..j - 1]), log[j - 1]);
    }
  }

  lemma FirstSettled(log: seq<Event>, i: nat) returns (j: nat)
    requires Accepted(log) && After(log).pending == None && i < |log| && log[i].Start?
    ensures i < j < |log| && Settles(log[j])
    ensures forall k :: i < k < j ==> !Settles(log[k])
  {
    assert log[..|log|] == log;
    if forall k :: i < k < |log| ==> !Settles(log[k]) { UnsettledIsPending(log, i, |log|); }
    j := i + 1;
    while !Settles(log[j])
      invariant i < j < |log|
      invariant forall k :: i < k < j ==> !Settles(log[k])
      invariant exists k :: j <= k < |log| && Settles(log[k])
      decreases |log| - j
    {
      j := j + 1;
    }
  }

  /** When nothing is pending, each started transfer has ended in full terminal evidence for
      that very transfer, or in a fault. */
  lemma EveryStartSettles(log: seq<Event>, i: nat) returns (j: nat)
    requires Accepted(log) && After(log).pending == None && i < |log| && log[i].Start?
    ensures i < j < |log|
    ensures log[j] == Fault
         || (log[j].Terminal? && log[j].desc == log[i].desc && log[j].buf == log[i].buf && Full(log[j].evidence))
  {
    j := FirstSettled(log, i);
    UnsettledIsPending(log, i, j);
    assert AllowedAt(log, j);
  }

  lemma {:induction false} LiveIsKnown(log: seq<Event>, i: nat)
    requires i <= |log|
    ensures After(log[..i]).live <= After(log[..i]).known
  {
    if i > 0 { LiveIsKnown(log, i - 1); AfterNext(log, i - 1); }
  }

  lemma StepStaysDead(m: Monitor, e: Event, id: nat)
    requires Allowed(m, e) && id in m.known && id !in m.live
    ensures id in Step(m, e).known && id !in Step(m, e).live
  {}

  lemma {:induction false} FreedStaysDead(log: seq<Event>, i: nat, j: nat, id: nat)
    requires Accepted(log) && i < j <= |log| && log[i] == Free(id)
    ensures id in After(log[..j]).known && id !in After(log[..j]).live
    decreases j
  {
    AfterNext(log, j - 1);
    if i < j - 1 {
      FreedStaysDead(log, i, j - 1, id);
      assert AllowedAt(log, j - 1);
      StepStaysDead(After(log[..j - 1]), log[j - 1], id);
    } else {
      FreeNeedsIdle(log, i, id);
      LiveIsKnown(log, i);
    }
  }

  /** No allocation is freed twice, and freed memory is never handed to the IDMAC. */
  lemma FreedIsGone(log: seq<Event>, i: nat, j: nat, id: nat)
    requires Accepted(log) && i < j < |log| && log[i] == Free(id)
    ensures log[j] != Free(id) && !Hands(log[j], id) && log[j] != Alloc(id)
  {
    FreedStaysDead(log, i, j, id);
    assert AllowedAt(log, j);
  }

  // ---- All of it, over one trace ----

  ghost predicate FreesSafely(log: seq<Event>) {
    && (forall p, j, id :: 0 <= p < j < |log| && Hands(log[p], id) && log[j] == Free(id) ==>
          exists k :: p < k < j && Releases(log[k], id))
    && (forall p, k, j, id :: 0 <= p < k < j < |log| && HeldFrom(log, p, k, id) && log[k] == Reset(false) ==>
          log[j] != Free(id))
    && (forall i, j, id :: 0 <= i < j < |log| && log[i] == Free(id) && log[j] == Free(id) ==> false)
  }

  ghost predicate FailsStop(log: seq<Event>) {
    && (forall i, j :: 0 <= i < j < |log| && log[i] == Fault ==> !log[j].Start? && !log[j].Publish?)
    && (forall i :: 0 <= i < |log| && log[i].Start? ==> exists j :: i < j < |log| && EndsWell(log[i], log[j]))
  }

  predicate EndsWell(start: Event, e: Event) {
    || e == Fault
    || (start.Start? && e.Terminal? && e.desc == start.desc && e.buf == start.buf && Full(e.evidence))
  }

  lemma AcceptedFreesSafely(log: seq<Event>)
    requires Accepted(log)
    ensures FreesSafely(log)
  {
    forall p, j, id | 0 <= p < j < |log| && Hands(log[p], id) && log[j] == Free(id)
      ensures exists k :: p < k < j && Releases(log[k], id)
    {
      FreedOnlyAfterRelease(log, p, j, id);
    }
    forall p, k, j, id | 0 <= p < k < j < |log| && HeldFrom(log, p, k, id) && log[k] == Reset(false)
      ensures log[j] != Free(id)
    {
      AbandonedIsNeverFreed(log, p, k, j, id);
    }
    forall i, j, id | 0 <= i < j < |log| && log[i] == Free(id)
      ensures log[j] != Free(id)
    {
      FreedIsGone(log, i, j, id);
    }
  }

  lemma AcceptedFailsStop(log: seq<Event>)
    requires Accepted(log) && After(log).pending == None
    ensures FailsStop(log)
  {
    forall i, j | 0 <= i < j < |log| && log[i] == Fault ensures !log[j].Start? && !log[j].Publish? {
      NothingStartsAfterFault(log, i, j);
    }
    forall i | 0 <= i < |log| && log[i].Start?
      ensures exists j :: i < j < |log| && EndsWell(log[i], log[j])
    {
      var j := EveryStartSettles(log, i);
      assert EndsWell(log[i], log[j]);
    }
  }
}
