/** The spin of a waker on `on_cpu` ends: the CPU that still refers to the claimed task is on its
    way out of it, and clears the flag after a bounded number of its own steps. */
module SchedulerProgress {
  import opened Scheduler
  import S = SchedulerSafety

  /** Step a is taken by CPU c. */
  ghost predicate OfCpu(a: Step, c: Cpu) {
    match a
    case YieldCas(d) => d == c
    case YieldPut(d) => d == c
    case Block(d) => d == c
    case Exit(d) => d == c
    case Migrate(d, _) => d == c
    case Pick(d, _) => d == c
    case PickIdle(d) => d == c
    case SetRunning(d) => d == c
    case SetOnCpu(d) => d == c
    case SetCurrent(d) => d == c
    case SwitchContext(d) => d == c
    case ClearPrev(d) => d == c
    case MigrateEntry(d, _) => d == c
    case ClearWoke(d) => d == c
    case _ => false
  }

  /** Waker w owns t and spins. */
  ghost predicate Spins(s: Sched, w: nat, t: Task) {
    && w in s.wakers && s.wakers[w].Claimed? && s.wakers[w].task == t
    && t in s.tasks && s.tasks[t].onCpu
  }

  /** CPU k has given up t and is switching to another task. */
  ghost predicate Abandons(k: Core, t: Task) {
    match k.pc
    case Resched => k.cur == t
    case Picked(x) => k.cur == t && x != t
    case Claiming(x) => k.cur == t && x != t
    case Leaving(x) => k.cur == t && x != t
    case Switching => k.prev == t
    case Clearing => k.prev == t
    case _ => false
  }

  /** How many steps of its own lie between a CPU and the clearing of `on_cpu`, that one included. */
  ghost function Distance(k: Core): nat {
    match k.pc
    case Resched => 6
    case Picked(_) => 5
    case Claiming(_) => 4
    case Leaving(_) => 3
    case Switching => 2
    case Clearing => 1
    case _ => 0
  }

  /** A spinning waker's task is being left by a CPU. */
  lemma SomeCpuAbandons(s: Sched, at: map<Task, Place>, on: map<Task, Cpu>, w: nat, t: Task) returns (c: Cpu)
    requires S.Inv(s, at, on) && Spins(s, w, t)
    ensures c < |s.cores| && Abandons(s.cores[c], t)
  {
    assert s.tasks[t].onCpu && Located(s, t, AtWaker(w));
    c := on[t];
    assert S.OnTask(s, at, on, t) && S.CoreOk(s, at, on, c);
    var k := s.cores[c];
    assert !Located(s, t, AtCurrent(c)) && !Located(s, t, AtLimbo(c)) && !Located(s, t, AtNext(c))
           && !Located(s, t, AtDoor(c)) && !Located(s, t, AtQueue(c));
  }

  /** What CPU c finds to switch to is not t. */
  lemma NeverPicksIt(s: Sched, at: map<Task, Place>, on: map<Task, Cpu>, w: nat, t: Task, c: Cpu)
    requires S.Inv(s, at, on) && Spins(s, w, t) && c < |s.cores|
    ensures t !in s.cores[c].queue && s.cores[c].idle != t
  {
    assert Located(s, t, AtWaker(w)) && !Located(s, t, AtQueue(c));
    assert S.CoreOk(s, at, on, c);
  }

  /** The steps of CPU c bring it nearer by one, and no other step matters. */
  lemma StepApproaches(s: Sched, a: Step, s': Sched, t: Task, c: Cpu)
    requires Next(s, a, s') && c < |s.cores| && Abandons(s.cores[c], t)
    requires t !in s.cores[c].queue && s.cores[c].idle != t && t in s'.tasks && s'.tasks[t].onCpu
    ensures c < |s'.cores| && Abandons(s'.cores[c], t)
    ensures Distance(s.cores[c]) == Distance(s'.cores[c]) + if OfCpu(a, c) then 1 else 0
  {}

  /** CPU c is never stuck on the way. */
  lemma CanStep(s: Sched, at: map<Task, Place>, on: map<Task, Cpu>, t: Task, c: Cpu) returns (a: Step, s': Sched)
    requires S.Inv(s, at, on) && c < |s.cores| && Abandons(s.cores[c], t)
    ensures OfCpu(a, c) && Next(s, a, s')
  {
    var k := s.cores[c];
    assert S.CoreOk(s, at, on, c);
    match k.pc
    case Resched =>
      if x :| x in k.queue {
        a, s' := Pick(c, x), s.(cores := s.cores[c := k.(queue := k.queue - multiset{x}, pc := Picked(x))]);
      } else {
        assert k.queue == multiset{};
        a, s' := PickIdle(c), s.(cores := At(s, c, Picked(k.idle)));
      }
    case Picked(x) =>
      assert Located(s, x, AtNext(c));
      a := SetRunning(c);
      s' := s.(tasks := SetState(s, x, Running), cores := At(s, c, if x == k.cur then Run else Claiming(x)));
    case Claiming(x) =>
      assert Located(s, x, AtDoor(c));
      a, s' := SetOnCpu(c), s.(tasks := s.tasks[x := s.tasks[x].(onCpu := true)], cores := At(s, c, Leaving(x)));
    case Leaving(x) =>
      a, s' := SetCurrent(c), s.(cores := s.cores[c := k.(prev := k.cur, cur := x, pc := Switching)]);
    case Switching =>
      a, s' := SwitchContext(c), s.(cores := s.cores[c := k.(stack := k.cur, pc := Clearing)]);
    case Clearing =>
      assert S.OnTask(s, at, on, k.prev);
      a, s' := ClearPrev(c), s.(tasks := s.tasks[k.prev := s.tasks[k.prev].(onCpu := false)], cores := At(s, c, Run));
  }

  /** Steps of CPU c between positions i and j. */
  ghost function StepsOf(steps: seq<Step>, c: Cpu, i: nat, j: nat): nat
    requires j <= |steps|
  {
    if j <= i then 0 else StepsOf(steps, c, i, j - 1) + if OfCpu(steps[j - 1], c) then 1 else 0
  }

  lemma OneApproaches(states: seq<Sched>, steps: seq<Step>, w: nat, t: Task, c: Cpu, j: nat)
    requires IsRun(states, steps) && j < |steps| && c < |states[j].cores| && Abandons(states[j].cores[c], t)
    requires Spins(states[j], w, t) && Spins(states[j + 1], w, t)
    ensures c < |states[j + 1].cores| && Abandons(states[j + 1].cores[c], t)
    ensures Distance(states[j].cores[c]) == Distance(states[j + 1].cores[c]) + if OfCpu(steps[j], c) then 1 else 0
  {
    assert t !in states[j].cores[c].queue && states[j].cores[c].idle != t by {
      var at, on := S.RunKeepsInv(states, steps, j);
      NeverPicksIt(states[j], at, on, w, t, c);
    }
    assert NextAt(states, steps, j);
    StepApproaches(states[j], steps[j], states[j + 1], t, c);
  }

  lemma {:induction false} Approaches(states: seq<Sched>, steps: seq<Step>, w: nat, t: Task, c: Cpu, i: nat, j: nat)
    requires IsRun(states, steps) && i <= j < |states| && c < |states[i].cores| && Abandons(states[i].cores[c], t)
    requires forall m :: i <= m <= j ==> Spins(states[m], w, t)
    ensures c < |states[j].cores| && Abandons(states[j].cores[c], t)
    ensures StepsOf(steps, c, i, j) + Distance(states[j].cores[c]) == Distance(states[i].cores[c])
    decreases j
  {
    if i < j {
      Approaches(states, steps, w, t, c, i, j - 1);
      assert Spins(states[j - 1], w, t) && Spins(states[j - 1 + 1], w, t);
      OneApproaches(states, steps, w, t, c, j - 1);
    }
  }

  /** Over every run: while a waker spins, from state i to state j, there is one CPU that still
      refers to its task. In all that time this CPU takes at most five steps, it can take one, and
      its sixth would clear `on_cpu`. */
  lemma SpinIsBounded(states: seq<Sched>, steps: seq<Step>, w: nat, t: Task, i: nat, j: nat)
    returns (c: Cpu, a: Step, next: Sched)
    requires IsRun(states, steps) && i <= j < |states|
    requires forall m :: i <= m <= j ==> Spins(states[m], w, t)
    ensures c < |states[j].cores| && 1 <= Distance(states[j].cores[c]) <= 6 - StepsOf(steps, c, i, j)
    ensures OfCpu(a, c) && Next(states[j], a, next)
    ensures t in next.tasks && (Distance(states[j].cores[c]) == 1 ==> !next.tasks[t].onCpu)
  {
    assert Spins(states[i], w, t) && Spins(states[j], w, t);
    var at, on := S.RunKeepsInv(states, steps, i);
    c := SomeCpuAbandons(states[i], at, on, w, t);
    Approaches(states, steps, w, t, c, i, j);
    at, on := S.RunKeepsInv(states, steps, j);
    a, next := CanStep(states[j], at, on, t, c);
  }
}
