/** The SMP run queues of axtask: N CPUs, per-CPU queues, a task state word changed by
    stores and compare-and-swap, and the `on_cpu` hand-off between a switching CPU and a waker.

    Every access of `run_queue.rs` to a word that another CPU or a waker can see is one step, and
    the steps of different CPUs and wakers interleave freely; writes that only the CPU itself can
    see belong to the step before them. A waker is an agent of its own, because wakers run on any
    CPU, in interrupt handlers and inside `exit_current`. */
module Scheduler {

  type Task = nat
  type Cpu = nat

  datatype TaskState = Running | Ready | Blocked | Exited

  /** The words of `TaskInner` that the hand-off uses. `woke` is the flag of the `AxWaker` of
      the task's current `block_on`. */
  datatype TaskInner = TaskInner(state: TaskState, onCpu: bool, woke: bool)

  /** Where a CPU stands in the scheduling code. */
  datatype Pc =
    | Run                   // executing its current task
    | Putting               // yield or preempt: state is Ready, task not yet in the queue
    | Resched               // the fate of the current task is decided, nothing picked yet
    | Picked(next: Task)    // inside switch_to, before set_state(Running)
    | Claiming(next: Task)  // before set_on_cpu(true)
    | Leaving(next: Task)   // before PREV_TASK and the current pointer change
    | Switching             // before the context switch
    | Clearing              // on the next task's stack, before clear_prev_task_on_cpu

  /** One CPU: its run queue, current pointer, PREV_TASK, and the task whose context it
      executes on. */
  datatype Core = Core(queue: multiset<Task>, cur: Task, prev: Task, stack: Task, pc: Pc, idle: Task)

  /** A thread inside `AxWaker::wake_by_ref`, past the choice of the target queue. */
  datatype Waker =
    | Flagged(task: Task, target: Cpu)    // before the compare-and-swap Blocked -> Ready
    | Claimed(task: Task, target: Cpu)    // owns its task, spins while on_cpu is set
    | Cleared(task: Task, target: Cpu)    // has seen on_cpu clear, enqueues next

  datatype Sched = Sched(
    tasks: map<Task, TaskInner>,
    cores: seq<Core>,
    wakers: map<nat, Waker>,
    holds: map<Task, Task>)    // migration task -> the task it has still to enqueue

  datatype Step =
    | Boot(idle: Task, gc: Task)
    | Spawn(t: Task, c: Cpu)
    | YieldCas(c: Cpu)
    | YieldPut(c: Cpu)
    | Block(c: Cpu)
    | Exit(c: Cpu)
    | Migrate(c: Cpu, m: Task)
    | Pick(c: Cpu, t: Task)
    | PickIdle(c: Cpu)
    | SetRunning(c: Cpu)
    | SetOnCpu(c: Cpu)
    | SetCurrent(c: Cpu)
    | SwitchContext(c: Cpu)
    | ClearPrev(c: Cpu)
    | MigrateEntry(c: Cpu, target: Cpu)
    | ClearWoke(c: Cpu)
    | WakeFlag(w: nat, t: Task, c: Cpu, stale: bool)
    | WakeCas(w: nat)
    | WakeSees(w: nat)
    | WakeEnqueue(w: nat)

  ghost predicate Ordinary(s: Sched, k: Core) {
    k.cur != k.idle && k.cur !in s.holds
  }

  ghost function SetState(s: Sched, t: Task, x: TaskState): map<Task, TaskInner>
    requires t in s.tasks
  {
    s.tasks[t := s.tasks[t].(state := x)]
  }

  /** `init_secondary`: one more CPU publishes its queue. It runs its idle task, and its queue
      holds its gc task. */
  ghost predicate BootStep(s: Sched, idle: Task, gc: Task, s': Sched) {
    && idle !in s.tasks && gc !in s.tasks && idle != gc
    && s' == s.(tasks := s.tasks[idle := TaskInner(Running, true, false)][gc := TaskInner(Ready, false, false)],
                cores := s.cores + [Core(multiset{gc}, idle, idle, idle, Run, idle)])
  }

  ghost predicate SpawnStep(s: Sched, t: Task, c: Cpu, s': Sched) {
    && c < |s.cores| && t !in s.tasks
    && s' == s.(tasks := s.tasks[t := TaskInner(Ready, false, false)], cores := Put(s, c, t))
  }

  ghost predicate YieldCasStep(s: Sched, c: Cpu, s': Sched) {
    && c < |s.cores| && s.cores[c].pc == Run && s.cores[c].cur in s.tasks
    && s' == s.(tasks := SetState(s, s.cores[c].cur, Ready),
                cores := At(s, c, if s.cores[c].cur == s.cores[c].idle then Resched else Putting))
  }

  ghost predicate YieldPutStep(s: Sched, c: Cpu, s': Sched) {
    && c < |s.cores| && s.cores[c].pc == Putting
    && s' == s.(cores := s.cores[c := s.cores[c].(queue := s.cores[c].queue + multiset{s.cores[c].cur}, pc := Resched)])
  }

  /** The state store of `blocked_resched`, made while the wake flag is locked and clear, and
      that of `exit_current`. */
  ghost predicate StopStep(s: Sched, c: Cpu, to: TaskState, s': Sched) {
    && c < |s.cores| && s.cores[c].pc == Run && Ordinary(s, s.cores[c]) && s.cores[c].cur in s.tasks
    && (to == Exited || (to == Blocked && !s.tasks[s.cores[c].cur].woke))
    && s' == s.(tasks := SetState(s, s.cores[c].cur, to), cores := At(s, c, Resched))
  }

  ghost predicate MigrateStep(s: Sched, c: Cpu, m: Task, s': Sched) {
    && c < |s.cores| && s.cores[c].pc == Run && Ordinary(s, s.cores[c]) && s.cores[c].cur in s.tasks
    && m !in s.tasks
    && s' == s.(tasks := SetState(s, s.cores[c].cur, Ready)[m := TaskInner(Ready, false, false)],
                holds := s.holds[m := s.cores[c].cur], cores := At(s, c, Picked(m)))
  }

  ghost predicate PickStep(s: Sched, c: Cpu, t: Task, s': Sched) {
    && c < |s.cores| && s.cores[c].pc == Resched && t in s.cores[c].queue
    && s' == s.(cores := s.cores[c := s.cores[c].(queue := s.cores[c].queue - multiset{t}, pc := Picked(t))])
  }

  ghost predicate PickIdleStep(s: Sched, c: Cpu, s': Sched) {
    && c < |s.cores| && s.cores[c].pc == Resched && s.cores[c].queue == multiset{}
    && s' == s.(cores := At(s, c, Picked(s.cores[c].idle)))
  }

  ghost predicate SetRunningStep(s: Sched, c: Cpu, s': Sched) {
    && c < |s.cores| && s.cores[c].pc.Picked? && s.cores[c].pc.next in s.tasks
    && var t := s.cores[c].pc.next;
       s' == s.(tasks := SetState(s, t, Running), cores := At(s, c, if t == s.cores[c].cur then Run else Claiming(t)))
  }

  ghost predicate SetOnCpuStep(s: Sched, c: Cpu, s': Sched) {
    && c < |s.cores| && s.cores[c].pc.Claiming? && s.cores[c].pc.next in s.tasks
    && var t := s.cores[c].pc.next;
       s' == s.(tasks := s.tasks[t := s.tasks[t].(onCpu := true)], cores := At(s, c, Leaving(t)))
  }

  ghost predicate SetCurrentStep(s: Sched, c: Cpu, s': Sched) {
    && c < |s.cores| && s.cores[c].pc.Leaving?
    && var k := s.cores[c];
       s' == s.(cores := s.cores[c := k.(prev := k.cur, cur := k.pc.next, pc := Switching)])
  }

  ghost predicate SwitchContextStep(s: Sched, c: Cpu, s': Sched) {
    && c < |s.cores| && s.cores[c].pc == Switching
    && s' == s.(cores := s.cores[c := s.cores[c].(stack := s.cores[c].cur, pc := Clearing)])
  }

  ghost predicate ClearPrevStep(s: Sched, c: Cpu, s': Sched) {
    && c < |s.cores| && s.cores[c].pc == Clearing && s.cores[c].prev in s.tasks
    && var t := s.cores[c].prev;
       s' == s.(tasks := s.tasks[t := s.tasks[t].(onCpu := false)], cores := At(s, c, Run))
  }

  ghost predicate MigrateEntryStep(s: Sched, c: Cpu, target: Cpu, s': Sched) {
    && c < |s.cores| && s.cores[c].pc == Run && s.cores[c].cur in s.holds && target < |s.cores|
    && s' == s.(cores := Put(s, target, s.holds[s.cores[c].cur]), holds := s.holds - {s.cores[c].cur})
  }

  ghost predicate ClearWokeStep(s: Sched, c: Cpu, s': Sched) {
    && c < |s.cores| && s.cores[c].pc == Run && s.cores[c].cur in s.tasks
    && var t := s.cores[c].cur;
       s' == s.(tasks := s.tasks[t := s.tasks[t].(woke := false)])
  }

  ghost predicate WakeFlagStep(s: Sched, w: nat, t: Task, c: Cpu, stale: bool, s': Sched) {
    && c < |s.cores| && w !in s.wakers && t in s.tasks
    && s' == s.(tasks := s.tasks[t := s.tasks[t].(woke := s.tasks[t].woke || !stale)],
                wakers := s.wakers[w := Flagged(t, c)])
  }

  ghost predicate WakeCasStep(s: Sched, w: nat, s': Sched) {
    && w in s.wakers && s.wakers[w].Flagged? && s.wakers[w].task in s.tasks
    && var Flagged(t, c) := s.wakers[w];
       s' == if s.tasks[t].state == Blocked
             then s.(tasks := SetState(s, t, Ready), wakers := s.wakers[w := Claimed(t, c)])
             else s.(wakers := s.wakers - {w})
  }

  /** The read of `on_cpu` that ends the spin of `put_task_with_state`. */
  ghost predicate WakeSeesStep(s: Sched, w: nat, s': Sched) {
    && w in s.wakers && s.wakers[w].Claimed? && s.wakers[w].task in s.tasks && !s.tasks[s.wakers[w].task].onCpu
    && s' == s.(wakers := s.wakers[w := Cleared(s.wakers[w].task, s.wakers[w].target)])
  }

  /** The enqueue, whatever has happened since that read. */
  ghost predicate WakeEnqueueStep(s: Sched, w: nat, s': Sched) {
    && w in s.wakers && s.wakers[w].Cleared? && s.wakers[w].target < |s.cores|
    && s' == s.(cores := Put(s, s.wakers[w].target, s.wakers[w].task), wakers := s.wakers - {w})
  }

  /** The steps a state offers. */
  ghost predicate Next(s: Sched, a: Step, s': Sched) {
    match a
    case Boot(idle, gc) => BootStep(s, idle, gc, s')
    case Spawn(t, c) => SpawnStep(s, t, c, s')
    case YieldCas(c) => YieldCasStep(s, c, s')
    case YieldPut(c) => YieldPutStep(s, c, s')
    case Block(c) => StopStep(s, c, Blocked, s')
    case Exit(c) => StopStep(s, c, Exited, s')
    case Migrate(c, m) => MigrateStep(s, c, m, s')
    case Pick(c, t) => PickStep(s, c, t, s')
    case PickIdle(c) => PickIdleStep(s, c, s')
    case SetRunning(c) => SetRunningStep(s, c, s')
    case SetOnCpu(c) => SetOnCpuStep(s, c, s')
    case SetCurrent(c) => SetCurrentStep(s, c, s')
    case SwitchContext(c) => SwitchContextStep(s, c, s')
    case ClearPrev(c) => ClearPrevStep(s, c, s')
    case MigrateEntry(c, target) => MigrateEntryStep(s, c, target, s')
    case ClearWoke(c) => ClearWokeStep(s, c, s')
    case WakeFlag(w, t, c, stale) => WakeFlagStep(s, w, t, c, stale, s')
    case WakeCas(w) => WakeCasStep(s, w, s')
    case WakeSees(w) => WakeSeesStep(s, w, s')
    case WakeEnqueue(w) => WakeEnqueueStep(s, w, s')
  }

  ghost function At(s: Sched, c: Cpu, pc: Pc): seq<Core>
    requires c < |s.cores|
  {
    s.cores[c := s.cores[c].(pc := pc)]
  }

  ghost function Put(s: Sched, c: Cpu, t: Task): seq<Core>
    requires c < |s.cores|
  {
    s.cores[c := s.cores[c].(queue := s.cores[c].queue + multiset{t})]
  }

  // What is promised of every reachable state
  datatype Place =
    | AtCurrent(c: Cpu)      // current on c and executing there (or being switched to)
    | AtLimbo(c: Cpu)        // yielding on c, state already Ready
    | AtNext(c: Cpu)         // picked by c, still Ready
    | AtDoor(c: Cpu)         // picked by c, already Running, not yet current
    | AtQueue(c: Cpu)
    | AtWaker(w: nat)        // claimed by waker w
    | AtMigration(m: Task)   // held by migration task m
    | Asleep
    | Dead
    | AtIdle(c: Cpu)         // the idle task of c, while c runs something else

  ghost predicate Executing(p: Pc) { p == Run || p == Switching || p == Clearing }

  ghost predicate Entering(p: Pc, t: Task) { p == Claiming(t) || p == Leaving(t) }

  /** Task t is at place p, read off the state alone. */
  ghost predicate Located(s: Sched, t: Task, p: Place) {
    match p
    case AtCurrent(c) => c < |s.cores| && s.cores[c].cur == t && Executing(s.cores[c].pc)
    case AtLimbo(c) => c < |s.cores| && s.cores[c].cur == t && s.cores[c].pc == Putting
    case AtNext(c) => c < |s.cores| && s.cores[c].pc == Picked(t)
    case AtDoor(c) => c < |s.cores| && Entering(s.cores[c].pc, t)
    case AtQueue(c) => c < |s.cores| && t in s.cores[c].queue
    case AtWaker(w) => w in s.wakers && !s.wakers[w].Flagged? && s.wakers[w].task == t
    case AtMigration(m) => m in s.holds && s.holds[m] == t
    case Asleep => t in s.tasks && s.tasks[t].state == Blocked
    case Dead => t in s.tasks && s.tasks[t].state == Exited
    case AtIdle(c) =>
      && c < |s.cores| && s.cores[c].idle == t && s.cores[c].pc != Picked(t)
      && t in s.tasks && s.tasks[t].state == Ready
  }

  /** The state word of a task at place p. */
  ghost function StateAt(p: Place): TaskState {
    match p
    case AtCurrent(_) => Running
    case AtDoor(_) => Running
    case Asleep => Blocked
    case Dead => Exited
    case _ => Ready
  }

  /** Each task is at exactly one place, its state word agrees with that place, whatever is at
      a place is a task, and no queue holds a task twice. */
  ghost predicate Accounted(s: Sched) {
    && (forall t :: t in s.tasks ==> exists p :: Located(s, t, p))
    && (forall t, p, q :: Located(s, t, p) && Located(s, t, q) ==> p == q)
    && (forall t, p :: Located(s, t, p) ==> t in s.tasks && s.tasks[t].state == StateAt(p))
    && NoTwins(s)
  }

  ghost predicate NoTwins(s: Sched) {
    forall c :: 0 <= c < |s.cores| ==> Simple(s.cores[c].queue)
  }

  ghost predicate Simple(q: multiset<Task>) { forall t :: q[t] <= 1 }

  /** No two CPUs share a current task or an execution context, and a CPU that picked a task
      finds its context free (unless it picked its own current task again). */
  ghost predicate ContextsExclusive(s: Sched) {
    && (forall c, d :: 0 <= c < d < |s.cores| ==>
          s.cores[c].cur != s.cores[d].cur && s.cores[c].stack != s.cores[d].stack)
    && (forall c, d :: 0 <= c < |s.cores| && 0 <= d < |s.cores| && s.cores[c].pc == Switching ==>
          s.cores[d].stack != s.cores[c].cur)
    && (forall c, d :: 0 <= c < |s.cores| && 0 <= d < |s.cores| ==>
          && !Entering(s.cores[c].pc, s.cores[d].stack)
          && (s.cores[c].pc == Picked(s.cores[d].stack) ==> c == d && s.cores[c].cur == s.cores[d].stack))
  }

  /** The run-time assertions: `is_running` on entry to yield, preempt, block, exit and migrate,
      and `is_ready` of the task that `resched` picked, idle task included. */
  ghost predicate AssertionsHold(s: Sched) {
    forall c | 0 <= c < |s.cores| ::
      && (s.cores[c].pc == Run ==> s.cores[c].cur in s.tasks && s.tasks[s.cores[c].cur].state == Running)
      && (s.cores[c].pc.Picked? ==> s.cores[c].pc.next in s.tasks && s.tasks[s.cores[c].pc.next].state == Ready)
  }

  /** A blocked task whose wake flag is set has a waker on its way to the compare-and-swap. */
  ghost predicate WakesPending(s: Sched) {
    forall t :: t in s.tasks && s.tasks[t].woke && s.tasks[t].state == Blocked ==>
      exists w :: w in s.wakers && s.wakers[w].Flagged? && s.wakers[w].task == t
  }

  ghost predicate Safe(s: Sched) {
    Accounted(s) && ContextsExclusive(s) && AssertionsHold(s) && WakesPending(s)
  }

  /** The state `init` leaves on the first CPU: it runs the main task 2, its idle task is 0, and
      its queue holds the gc task 1. The other CPUs boot later. */
  ghost function InitState(): Sched {
    Sched(
      map[0 := TaskInner(Ready, false, false), 1 := TaskInner(Ready, false, false),
          2 := TaskInner(Running, true, false)],
      [Core(multiset{1}, 2, 2, 2, Run, 0)], map[], map[])
  }

  ghost predicate IsRun(states: seq<Sched>, steps: seq<Step>) {
    && |states| == |steps| + 1 && states[0] == InitState()
    && forall i {:trigger NextAt(states, steps, i)} :: 0 <= i < |steps| ==> NextAt(states, steps, i)
  }

  ghost predicate NextAt(states: seq<Sched>, steps: seq<Step>, i: nat)
    requires i < |steps| < |states|
  {
    Next(states[i], steps[i], states[i + 1])
  }
}
