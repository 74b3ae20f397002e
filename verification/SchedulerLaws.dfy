/** Which steps lead where, over whole runs: a task is dead exactly after it exited, a task that
    blocked sleeps until a waker claims it, the claim ends in the queue the waker chose, and a wake
    flag keeps its task from going to sleep. */
module SchedulerLaws {
  import opened Scheduler
  import S = SchedulerSafety

  /** Step a is the store of `exit_current` by t. */
  ghost predicate Exits(s: Sched, a: Step, t: Task) { a.Exit? && a.c < |s.cores| && s.cores[a.c].cur == t }

  /** Step a is the store of `blocked_resched` by t. */
  ghost predicate Blocks(s: Sched, a: Step, t: Task) { a.Block? && a.c < |s.cores| && s.cores[a.c].cur == t }

  /** Step a is the compare-and-swap of a waker for t. */
  ghost predicate CasFor(s: Sched, a: Step, t: Task) { a.WakeCas? && a.w in s.wakers && s.wakers[a.w].task == t }

  /** Only an exit makes a task dead, and nothing revives it. */
  lemma DeadLaw(s: Sched, a: Step, s': Sched, t: Task)
    requires AssertionsHold(s) && Next(s, a, s') && t in s.tasks
    ensures Located(s', t, Dead) <==> Located(s, t, Dead) || Exits(s, a, t)
  {}

  /** Only blocking puts a task to sleep, and only the compare-and-swap of a waker for it ends that. */
  lemma SleepLaw(s: Sched, a: Step, s': Sched, t: Task)
    requires AssertionsHold(s) && Next(s, a, s') && t in s.tasks
    ensures Located(s', t, Asleep) <==> (Located(s, t, Asleep) && !CasFor(s, a, t)) || Blocks(s, a, t)
  {}

  /** The wakers: the compare-and-swap on a sleeping task makes the waker its holder, the enqueue
      ends that, and the queue that the waker chose has the task. */
  lemma HolderLaw(s: Sched, a: Step, s': Sched, t: Task, w: nat)
    requires Next(s, a, s') && t in s.tasks
    ensures Located(s', t, AtWaker(w)) <==>
              || (Located(s, t, AtWaker(w)) && a != WakeEnqueue(w))
              || (a == WakeCas(w) && CasFor(s, a, t) && Located(s, t, Asleep))
    ensures a == WakeEnqueue(w) && Located(s, t, AtWaker(w)) ==> Located(s', t, AtQueue(s.wakers[w].target))
    ensures w in s.wakers && w in s'.wakers ==>
              s'.wakers[w].task == s.wakers[w].task && s'.wakers[w].target == s.wakers[w].target
  {}

  lemma RunWordLaw(states: seq<Sched>, steps: seq<Step>, k: nat, t: Task)
    requires IsRun(states, steps) && k < |steps|
    ensures t in states[k].tasks ==>
              && (Located(states[k + 1], t, Dead) <==> Located(states[k], t, Dead) || Exits(states[k], steps[k], t))
              && (Located(states[k + 1], t, Asleep) <==>
                    || (Located(states[k], t, Asleep) && !CasFor(states[k], steps[k], t))
                    || Blocks(states[k], steps[k], t))
    ensures t !in states[k].tasks ==> !Located(states[k + 1], t, Dead) && !Exits(states[k], steps[k], t)
  {
    S.EveryRunIsSafe(states, steps, k);
    assert NextAt(states, steps, k);
    if t in states[k].tasks {
      DeadLaw(states[k], steps[k], states[k + 1], t);
      SleepLaw(states[k], steps[k], states[k + 1], t);
    }
  }

  /** Over every run: a task is dead exactly if it has exited. */
  lemma {:induction false} DeadIffExited(states: seq<Sched>, steps: seq<Step>, k: nat, t: Task)
    requires IsRun(states, steps) && k < |states|
    ensures Located(states[k], t, Dead) <==> exists j :: 0 <= j < k && Exits(states[j], steps[j], t)
  {
    if k > 0 {
      DeadIffExited(states, steps, k - 1, t);
      RunWordLaw(states, steps, k - 1, t);
    }
  }

  /** Over every run: a task that blocks sleeps until a waker for it makes its compare-and-swap. */
  lemma {:induction false} SleepsUntilClaimed(states: seq<Sched>, steps: seq<Step>, i: nat, k: nat, t: Task)
    requires IsRun(states, steps) && i < k < |states| && Blocks(states[i], steps[i], t) && t in states[i].tasks
    requires forall j :: i < j < k ==> !CasFor(states[j], steps[j], t)
    ensures t in states[k].tasks && Located(states[k], t, Asleep)
    decreases k
  {
    if i + 1 < k { SleepsUntilClaimed(states, steps, i, k - 1, t); }
    RunWordLaw(states, steps, k - 1, t);
  }

  /** Over every run: the waker whose compare-and-swap finds the task asleep holds it until its own
      enqueue, and that leaves the task in the queue the waker chose. */
  lemma {:induction false} ClaimIsKept(states: seq<Sched>, steps: seq<Step>, i: nat, k: nat, t: Task, w: nat)
    requires IsRun(states, steps) && i < k < |states| && steps[i] == WakeCas(w) && CasFor(states[i], steps[i], t)
    requires Located(states[i], t, Asleep) && forall j :: i < j < k ==> steps[j] != WakeEnqueue(w)
    ensures Located(states[k], t, AtWaker(w)) && t in states[k].tasks
    ensures w in states[i].wakers && w in states[k].wakers && states[k].wakers[w].target == states[i].wakers[w].target
    decreases k
  {
    if i + 1 < k { ClaimIsKept(states, steps, i, k - 1, t, w); }
    assert NextAt(states, steps, k - 1);
    HolderLaw(states[k - 1], steps[k - 1], states[k], t, w);
  }

  lemma EnqueueEndsClaim(states: seq<Sched>, steps: seq<Step>, i: nat, k: nat, t: Task, w: nat)
    requires IsRun(states, steps) && i < k < |steps| && steps[i] == WakeCas(w) && CasFor(states[i], steps[i], t)
    requires Located(states[i], t, Asleep) && forall j :: i < j < k ==> steps[j] != WakeEnqueue(w)
    requires steps[k] == WakeEnqueue(w)
    ensures w in states[i].wakers && Located(states[k + 1], t, AtQueue(states[i].wakers[w].target))
  {
    ClaimIsKept(states, steps, i, k, t, w);
    assert NextAt(states, steps, k);
    HolderLaw(states[k], steps[k], states[k + 1], t, w);
  }

  /** Step a is the reset of the wake flag by t itself. */
  ghost predicate Resets(s: Sched, a: Step, t: Task) { a.ClearWoke? && a.c < |s.cores| && s.cores[a.c].cur == t }

  /** Step a sets the wake flag of t. */
  ghost predicate Flags(a: Step, t: Task) { a.WakeFlag? && a.t == t && !a.stale }

  lemma FlagLaw(s: Sched, a: Step, s': Sched, t: Task)
    requires Next(s, a, s') && t in s'.tasks
    ensures s'.tasks[t].woke <==> Flags(a, t) || (t in s.tasks && s.tasks[t].woke && !Resets(s, a, t))
    ensures Flags(a, t) ==> t in s.tasks
    ensures Blocks(s, a, t) ==> t in s.tasks && !s.tasks[t].woke
  {}

  lemma {:induction false} TasksStay(states: seq<Sched>, steps: seq<Step>, i: nat, k: nat, t: Task)
    requires IsRun(states, steps) && i <= k < |states| && t in states[i].tasks
    ensures t in states[k].tasks
    decreases k
  {
    if i < k {
      TasksStay(states, steps, i, k - 1, t);
      assert NextAt(states, steps, k - 1);
    }
  }

  /** A waker has set the flag of t in step i, and t has not reset it before state k. */
  ghost predicate FlaggedSince(states: seq<Sched>, steps: seq<Step>, i: nat, k: nat, t: Task)
    requires k <= |steps| < |states|
  {
    i < k && Flags(steps[i], t) && forall j :: i < j < k ==> !Resets(states[j], steps[j], t)
  }

  /** Over every run: the wake flag of a task is set exactly if a waker has set it since the task
      reset it last; a task does not go to sleep while it is set. */
  lemma {:induction false} FlaggedIffWoken(states: seq<Sched>, steps: seq<Step>, k: nat, t: Task)
    requires IsRun(states, steps) && k < |states| && t in states[k].tasks
    ensures states[k].tasks[t].woke <==> exists i :: FlaggedSince(states, steps, i, k, t)
    ensures k < |steps| && states[k].tasks[t].woke ==> !Blocks(states[k], steps[k], t)
    decreases k
  {
    if k < |steps| {
      assert NextAt(states, steps, k);
      TasksStay(states, steps, k, k + 1, t);
      FlagLaw(states[k], steps[k], states[k + 1], t);
    }
    if k > 0 { FlagStep(states, steps, k, t); }
  }

  lemma FlagStep(states: seq<Sched>, steps: seq<Step>, k: nat, t: Task)
    requires IsRun(states, steps) && 0 < k < |states| && t in states[k].tasks
    ensures states[k].tasks[t].woke <==> exists i :: FlaggedSince(states, steps, i, k, t)
    decreases k, 0
  {
    assert NextAt(states, steps, k - 1);
    FlagLaw(states[k - 1], steps[k - 1], states[k], t);
    if t in states[k - 1].tasks { FlaggedIffWoken(states, steps, k - 1, t); }
    if states[k].tasks[t].woke {
      if Flags(steps[k - 1], t) {
        assert FlaggedSince(states, steps, k - 1, k, t);
      } else {
        var i: nat :| FlaggedSince(states, steps, i, k - 1, t);
        assert FlaggedSince(states, steps, i, k, t);
      }
    }
    if i: nat :| FlaggedSince(states, steps, i, k, t) {
      if i < k - 1 {
        assert NextAt(states, steps, i);
        TasksStay(states, steps, i, k - 1, t);
        assert FlaggedSince(states, steps, i, k - 1, t);
      }
    }
  }

  /** Over every run: a CPU turns to its idle task only when its queue is empty. */
  lemma IdleIsLast(states: seq<Sched>, steps: seq<Step>, k: nat, t: Task)
    requires IsRun(states, steps) && k < |steps| && steps[k].PickIdle?
    ensures !Located(states[k], t, AtQueue(steps[k].c))
  {
    assert NextAt(states, steps, k);
  }
}
