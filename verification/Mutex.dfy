/** The blocking mutex of axsync: a compare-and-swap on the owner id, a bounded spin, and the
    register / re-check / park protocol on an event list.

    The threads of one mutex interleave at every atomic access. `event.notify(1)` is known by
    its contract only: afterwards some listener is notified, if there is a listener at all. A
    dropped listener may pass its notification on. */
module BlockingMutex {

  type Thread = t: nat | t != 0 witness 1   // task ids start at 1; 0 means "no owner"

  datatype Pc =
    | Outside
    | Looping(seen: nat, spins: nat)   // top of the loop in lock, with the loaded owner id
    | Registered(spins: nat)           // listener created, owner not re-checked yet
    | Committed(spins: nat)            // re-check saw an owner: about to park, or parked
    | Holding
    | Notifying                        // unlock has cleared the owner, notify(1) comes next
    | Panicked                         // assert_ne fired: lock called by the owner

  const SPIN_LIMIT := 10

  datatype State = State(
    owner: nat,
    pc: map<Thread, Pc>,
    listeners: set<Thread>,
    notified: set<Thread>)

  datatype Step =
    | Enter(t: Thread)
    | TryLock(t: Thread)
    | Cas(t: Thread, spurious: bool)
    | Spin(t: Thread)
    | Register(t: Thread)
    | Recheck(t: Thread, passedOn: set<Thread>)
    | WakeUp(t: Thread)
    | Unlock(t: Thread)
    | Notify(t: Thread, chosen: set<Thread>)

  ghost predicate At(s: State, t: Thread, p: Pc) { t in s.pc && s.pc[t] == p }

  ghost function Go(s: State, t: Thread, p: Pc): State { s.(pc := s.pc[t := p]) }

  ghost predicate Next(s: State, a: Step, s': State) {
    a.t in s.pc &&
    var p := s.pc[a.t];
    match a
    case Enter(t) =>
      // the owner that calls lock again loads its own id and panics
      (p.Outside? || p.Holding?) && s' == Go(s, t, if s.owner == t then Panicked else Looping(s.owner, 0))
    case TryLock(t) =>
      // never waits, not even for the holder itself
      (p.Outside? || p.Holding?) && s' == if s.owner == 0 then Go(s.(owner := t), t, Holding) else s
    case Cas(t, spurious) =>
      && p.Looping? && p.seen == 0
      && s' == if s.owner == 0 && !spurious then Go(s.(owner := t), t, Holding)
               else if s.owner == t then Go(s, t, Panicked)
               else Go(s, t, Looping(s.owner, p.spins))
    case Spin(t) =>
      && p.Looping? && p.seen != 0 && p.spins < SPIN_LIMIT
      && s' == Go(s, t, if s.owner == t then Panicked else Looping(s.owner, p.spins + 1))
    case Register(t) =>
      && p.Looping? && p.seen != 0 && p.spins >= SPIN_LIMIT
      && s' == Go(s.(listeners := s.listeners + {t}), t, Registered(p.spins))
    case Recheck(t, passedOn) =>
      // a zero owner drops the listener, which may pass its notification on
      && p.Registered?
      && s' == if s.owner == 0
               then Go(s.(listeners := s.listeners - {t},
                          notified := s.notified - {t} + passedOn * (s.listeners - {t})), t, Looping(0, p.spins))
               else Go(s, t, Committed(p.spins))
    case WakeUp(t) =>
      // block_on returns once the listener is notified
      && p.Committed? && t in s.notified
      && s' == Go(s.(listeners := s.listeners - {t}, notified := s.notified - {t}), t,
                  if s.owner == t then Panicked else Looping(s.owner, p.spins))
    case Unlock(t) =>
      p.Holding? && s' == Go(s.(owner := 0), t, Notifying)
    case Notify(t, chosen) =>
      && p.Notifying? && chosen <= s.listeners && (s.listeners != {} ==> s.notified + chosen != {})
      && s' == Go(s.(notified := s.notified + chosen), t, Outside)
  }

  ghost predicate Init(s: State) {
    s.owner == 0 && s.listeners == {} && s.notified == {} && forall t :: t in s.pc ==> s.pc[t] == Outside
  }

  ghost predicate IsRun(states: seq<State>, steps: seq<Step>) {
    && |states| == |steps| + 1 && Init(states[0])
    && forall i :: 0 <= i < |steps| ==> Next(states[i], steps[i], states[i + 1])
  }

  /** The holder is the owner, so there is at most one; the ownership assertion in `unlock` can
      not fail, and the one in `lock` fires only for an owner that locks again. */
  ghost predicate Exclusive(s: State) {
    && (forall t :: t in s.pc && (s.pc[t].Holding? || s.pc[t].Panicked?) ==> s.owner == t)
    && (s.owner != 0 ==> s.owner in s.pc && (s.pc[s.owner].Holding? || s.pc[s.owner].Panicked?))
  }

  /** A thread parked, or bound to park, without a notification. */
  ghost predicate Waiting(s: State, t: Thread) {
    t in s.pc && s.pc[t].Committed? && t !in s.notified
  }

  ghost predicate SomebodyWaits(s: State) { exists t :: Waiting(s, t) }

  /** A thread that will look at the owner again or wake somebody, whatever the others do. */
  ghost predicate Lively(s: State, t: Thread) {
    && t in s.pc
    && (s.pc[t].Looping? || s.pc[t].Registered? || s.pc[t].Notifying? || (s.pc[t].Committed? && t in s.notified))
  }

  ghost predicate NobodyStranded(s: State) {
    s.owner == 0 && SomebodyWaits(s) ==> exists u :: Lively(s, u)
  }

  // The invariant and its proof

  ghost predicate Inv(s: State) {
    && Exclusive(s)
    && s.notified <= s.listeners
    && (forall t :: t in s.listeners <==> t in s.pc && (s.pc[t].Registered? || s.pc[t].Committed?))
    && (forall t :: t in s.pc && s.pc[t].Looping? ==> s.pc[t].seen != t)
    && NobodyStranded(s)
  }

  lemma StepKeepsRest(s: State, a: Step, s': State)
    requires Inv(s) && Next(s, a, s')
    ensures Exclusive(s')
    ensures s'.notified <= s'.listeners
    ensures forall t :: t in s'.listeners <==> t in s'.pc && (s'.pc[t].Registered? || s'.pc[t].Committed?)
    ensures forall t :: t in s'.pc && s'.pc[t].Looping? ==> s'.pc[t].seen != t
  {}

  /** Whoever steps while the mutex is free, or frees it, goes on to look at it again or to
      notify; the only step that leaves the protocol with the mutex free is the notification. */
  lemma StepperStaysLively(s: State, a: Step, s': State)
    requires Inv(s) && Next(s, a, s') && s'.owner == 0 && !a.Notify?
    ensures Lively(s', a.t)
  {}

  lemma StepKeepsNobodyStranded(s: State, a: Step, s': State)
    requires Inv(s) && Next(s, a, s')
    ensures NobodyStranded(s')
  {
    if s'.owner == 0 && SomebodyWaits(s') {
      if a.Notify? {
        // a waiting thread is in the list, so somebody in the list is notified
        var w :| Waiting(s', w);
        assert w in s.listeners;
        var u: Thread :| u in s'.notified;
        assert u in s.listeners;
        assert Lively(s', u);
      } else {
        StepperStaysLively(s, a, s');
      }
    }
  }

  lemma StepKeepsInv(s: State, a: Step, s': State)
    requires Inv(s) && Next(s, a, s')
    ensures Inv(s')
  {
    StepKeepsRest(s, a, s');
    StepKeepsNobodyStranded(s, a, s');
  }

  lemma {:induction false} RunKeepsInv(states: seq<State>, steps: seq<Step>, i: nat)
    requires IsRun(states, steps) && i < |states|
    ensures Inv(states[i])
  {
    if i > 0 {
      RunKeepsInv(states, steps, i - 1);
      assert Next(states[i - 1], steps[i - 1], states[i - 1 + 1]);
      StepKeepsInv(states[i - 1], steps[i - 1], states[i]);
    }
  }

  /** Over every run: at most one holder, and no waiter is stranded on a free mutex. */
  lemma EveryRunIsSafe(states: seq<State>, steps: seq<Step>, i: nat)
    requires IsRun(states, steps) && i < |states|
    ensures Exclusive(states[i]) && NobodyStranded(states[i])
    ensures forall t, u :: At(states[i], t, Holding) && At(states[i], u, Holding) ==> t == u
  {
    RunKeepsInv(states, steps, i);
  }

  /** When every thread is outside or waits un-notified, nobody waits on a free mutex. */
  lemma QuiescentMeansNoWaiter(states: seq<State>, steps: seq<Step>, i: nat)
    requires IsRun(states, steps) && i < |states| && states[i].owner == 0
    requires forall t :: t in states[i].pc ==> states[i].pc[t].Outside? || Waiting(states[i], t)
    ensures forall t :: t in states[i].pc ==> states[i].pc[t].Outside?
  {
    RunKeepsInv(states, steps, i);
  }

  // ---- From a free mutex with a waiter, the lock can be taken without any newcomer ----

  /** Steps that thread t, already inside the protocol, takes alone, ending as the owner. */
  ghost predicate Acquires(s: State, t: Thread, path: seq<Step>)
    decreases |path|
  {
    if path == [] then s.owner == t
    else path[0].t == t && !path[0].Enter? && !path[0].TryLock?
         && exists s' :: Next(s, path[0], s') && Acquires(s', t, path[1..])
  }

  lemma Prepend(s: State, a: Step, s': State, path: seq<Step>)
    requires !a.Enter? && !a.TryLock? && Next(s, a, s') && Acquires(s', a.t, path)
    ensures Acquires(s, a.t, [a] + path)
  {
    assert ([a] + path)[1..] == path;
  }

  lemma CasTakesIt(s: State, t: Thread) returns (path: seq<Step>)
    requires s.owner == 0 && t in s.pc && s.pc[t].Looping? && s.pc[t].seen == 0
    ensures Acquires(s, t, path) && |path| == 1
  {
    path := [Cas(t, false)];
    var s' := Go(s.(owner := t), t, Holding);
    assert Next(s, path[0], s') && Acquires(s', t, path[1..]);
  }

  /** A thread inside `lock`, other than one that waits un-notified, takes a free mutex in at
      most three of its own steps. */
  lemma ActiveThreadTakesIt(s: State, t: Thread) returns (path: seq<Step>)
    requires s.owner == 0 && Lively(s, t) && !s.pc[t].Notifying?
    ensures Acquires(s, t, path) && |path| <= if s.pc[t].Looping? then 3 else 2
    decreases if s.pc[t].Looping? && s.pc[t].seen == 0 then 0 else if s.pc[t].Looping? then 2 else 1
  {
    match s.pc[t]
    case Looping(seen, spins) =>
      if seen == 0 {
        path := CasTakesIt(s, t);
      } else if spins < SPIN_LIMIT {
        var s' := Go(s, t, Looping(0, spins + 1));
        path := CasTakesIt(s', t);
        Prepend(s, Spin(t), s', path);
        path := [Spin(t)] + path;
      } else {
        var s' := Go(s.(listeners := s.listeners + {t}), t, Registered(spins));
        path := ActiveThreadTakesIt(s', t);
        Prepend(s, Register(t), s', path);
        path := [Register(t)] + path;
      }
    case Registered(spins) =>
      var s' := Go(s.(listeners := s.listeners - {t},
                      notified := s.notified - {t} + {} * (s.listeners - {t})), t, Looping(0, spins));
      path := CasTakesIt(s', t);
      Prepend(s, Recheck(t, {}), s', path);
      path := [Recheck(t, {})] + path;
    case Committed(spins) =>
      var s' := Go(s.(listeners := s.listeners - {t}, notified := s.notified - {t}), t, Looping(0, spins));
      path := CasTakesIt(s', t);
      Prepend(s, WakeUp(t), s', path);
      path := [WakeUp(t)] + path;
  }

  /** Over every run: whenever a thread waits un-notified on a free mutex, an unlock still has
      its notification to issue, or some thread already inside `lock` takes the mutex in at most
      three steps of its own. */
  lemma WaitedForMutexIsTaken(states: seq<State>, steps: seq<Step>, i: nat) returns (u: Thread, path: seq<Step>)
    requires IsRun(states, steps) && i < |states|
    requires states[i].owner == 0 && SomebodyWaits(states[i])
    ensures At(states[i], u, Notifying) || (u in states[i].pc && Acquires(states[i], u, path) && |path| <= 3)
  {
    RunKeepsInv(states, steps, i);
    u :| Lively(states[i], u);
    path := [];
    if states[i].pc[u].Notifying? {
      assert At(states[i], u, Notifying);
    } else {
      path := ActiveThreadTakesIt(states[i], u);
    }
  }

  /** And whichever listeners that notification picks, it leaves an active or notified thread
      behind if anybody waits. */
  lemma NotificationReachesSomebody(states: seq<State>, steps: seq<Step>, i: nat) returns (u: Thread)
    requires IsRun(states, steps) && i < |steps| && steps[i].Notify?
    requires SomebodyWaits(states[i + 1])
    ensures Lively(states[i + 1], u) && !states[i + 1].pc[u].Notifying?
  {
    RunKeepsInv(states, steps, i);
    RunKeepsInv(states, steps, i + 1);
    assert Next(states[i], steps[i], states[i + 1]);
    var w :| Waiting(states[i + 1], w);
    assert w in states[i].listeners;
    u :| u in states[i + 1].notified;
    assert u in states[i + 1].listeners;
  }

  // ---- What a thread does, read off its own calls and the owner word ----

  /** Thread t is inside `lock`. */
  ghost predicate Inside(s: State, t: Thread) {
    t in s.pc && (s.pc[t].Looping? || s.pc[t].Registered? || s.pc[t].Committed?)
  }

  /** Thread t has called `lock` in step i and has not been the owner since. */
  ghost predicate CalledLock(states: seq<State>, steps: seq<Step>, t: Thread, i: nat, k: nat)
    requires k < |states| && |states| == |steps| + 1
  {
    i < k && steps[i] == Enter(t) && forall j :: i < j <= k ==> states[j].owner != t
  }

  lemma {:induction false} InsideHasCalled(states: seq<State>, steps: seq<Step>, t: Thread, k: nat) returns (i: nat)
    requires IsRun(states, steps) && k < |states| && Inside(states[k], t)
    ensures CalledLock(states, steps, t, i, k)
  {
    assert Next(states[k - 1], steps[k - 1], states[k - 1 + 1]);
    RunKeepsInv(states, steps, k);
    if steps[k - 1] == Enter(t) {
      i := k - 1;
    } else {
      i := InsideHasCalled(states, steps, t, k - 1);
    }
  }

  ghost function SpinsSince(steps: seq<Step>, t: Thread, i: nat, k: nat): nat
    requires k <= |steps|
  {
    if k <= i then 0 else SpinsSince(steps, t, i, k - 1) + if steps[k - 1] == Spin(t) then 1 else 0
  }

  lemma {:induction false} CallerIsInside(states: seq<State>, steps: seq<Step>, t: Thread, i: nat, k: nat)
    requires IsRun(states, steps) && k < |states| && CalledLock(states, steps, t, i, k)
    ensures Inside(states[k], t) && states[k].pc[t].spins == SpinsSince(steps, t, i, k) <= SPIN_LIMIT
    decreases k
  {
    assert Next(states[k - 1], steps[k - 1], states[k - 1 + 1]);
    if i + 1 < k {
      CallerIsInside(states, steps, t, i, k - 1);
    } else {
      assert SpinsSince(steps, t, i, k - 1) == 0;
    }
  }

  /** Over every run: a thread is inside `lock`, where alone it loops, listens and parks, exactly
      between a call of its own and the step that makes it the owner. */
  lemma InsideIffCalled(states: seq<State>, steps: seq<Step>, t: Thread, k: nat)
    requires IsRun(states, steps) && k < |states|
    ensures Inside(states[k], t) <==> exists i :: CalledLock(states, steps, t, i, k)
    ensures t in states[k].listeners ==> Inside(states[k], t)
  {
    if Inside(states[k], t) { var i := InsideHasCalled(states, steps, t, k); }
    if i :| CalledLock(states, steps, t, i, k) { CallerIsInside(states, steps, t, i, k); }
    RunKeepsInv(states, steps, k);
  }

  /** Over every run: a thread that uses `try_lock` alone never waits. */
  lemma TryLockNeverWaits(states: seq<State>, steps: seq<Step>, t: Thread, k: nat)
    requires IsRun(states, steps) && k < |states| && forall i :: 0 <= i < k ==> steps[i] != Enter(t)
    ensures t in states[k].pc ==> states[k].pc[t].Outside? || states[k].pc[t].Holding? || states[k].pc[t].Notifying?
    ensures t !in states[k].listeners
    decreases k
  {
    InsideIffCalled(states, steps, t, k);
    if k > 0 {
      TryLockNeverWaits(states, steps, t, k - 1);
      assert Next(states[k - 1], steps[k - 1], states[k - 1 + 1]);
    }
  }

  /** Over every run: a thread listens for a notification after exactly ten spins of this call. */
  lemma SpinsTenTimesFirst(states: seq<State>, steps: seq<Step>, t: Thread, k: nat) returns (i: nat)
    requires IsRun(states, steps) && k < |steps| && steps[k] == Register(t)
    ensures CalledLock(states, steps, t, i, k) && SpinsSince(steps, t, i, k) == 10
  {
    assert Next(states[k], steps[k], states[k + 1]);
    i := InsideHasCalled(states, steps, t, k);
    CallerIsInside(states, steps, t, i, k);
  }

  /** The last step of t before state k was step i - 1, after which the owner id was `seen`. */
  ghost predicate LastLooked(states: seq<State>, steps: seq<Step>, t: Thread, seen: nat, i: nat, k: nat)
    requires k < |states| && |states| == |steps| + 1
  {
    0 < i <= k && steps[i - 1].t == t && states[i].owner == seen && forall j :: i <= j < k ==> steps[j].t != t
  }

  /** Over every run: a thread inside `lock` goes by what it saw in its last step; if that was an
      owner it spins or registers, if not it tries to take the mutex. */
  lemma {:induction false} GoesByItsLastLook(states: seq<State>, steps: seq<Step>, t: Thread, k: nat) returns (i: nat)
    requires IsRun(states, steps) && k < |states| && t in states[k].pc && states[k].pc[t].Looping?
    ensures LastLooked(states, steps, t, states[k].pc[t].seen, i, k)
    ensures k < |steps| && steps[k].t == t ==>
              if states[i].owner == 0 then steps[k].Cas? else steps[k].Spin? || steps[k].Register?
    decreases k
  {
    if k < |steps| { assert Next(states[k], steps[k], states[k + 1]); }
    assert Next(states[k - 1], steps[k - 1], states[k - 1 + 1]);
    if steps[k - 1].t == t {
      i := k;
    } else {
      i := GoesByItsLastLook(states, steps, t, k - 1);
    }
  }

  /** The mutex changes hands only from nobody to the thread that takes it, by a compare-and-swap,
      and back by the unlock of its holder; a `try_lock` that finds it free takes it. */
  lemma OwnerLaw(s: State, a: Step, s': State)
    requires Inv(s) && Next(s, a, s')
    ensures s'.owner != s.owner ==>
              || (s.owner == 0 && s'.owner == a.t && (a.Cas? || a.TryLock?))
              || (s.owner == a.t && s'.owner == 0 && a.Unlock?)
    ensures a.Unlock? ==> s'.owner == 0
    ensures a.TryLock? ==> if s.owner == 0 then s'.owner == a.t else s' == s
  {}

  /** Step a hands a notification to t: that of an unlock, or of a listener that leaves. */
  ghost predicate Hands(s: State, a: Step, t: Thread) {
    || (a.Notify? && t in a.chosen)
    || (a.Recheck? && s.owner == 0 && t in a.passedOn)
  }

  /** Over every run: a thread that has seen an owner after registering stays parked until an
      unlock, or a listener that leaves, hands it a notification. */
  lemma {:induction false} ParkedUntilNotified(states: seq<State>, steps: seq<Step>, t: Thread, i: nat, k: nat)
    requires IsRun(states, steps) && i <= k < |states| && t in states[i].pc && states[i].pc[t].Committed?
    requires forall j :: i <= j < k ==> t !in states[j].notified
    ensures t in states[k].pc && states[k].pc[t] == states[i].pc[t]
    ensures i < k ==> (t in states[k].notified <==> Hands(states[k - 1], steps[k - 1], t))
    decreases k
  {
    if i < k {
      ParkedUntilNotified(states, steps, t, i, k - 1);
      RunKeepsInv(states, steps, k - 1);
      assert Next(states[k - 1], steps[k - 1], states[k - 1 + 1]);
    }
  }
}
