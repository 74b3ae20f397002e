/** Why every reachable state of the scheduler is safe: an inductive invariant over a state and
    two ghost maps, `at` (the one place of each task) and `on` (the CPU behind each set on_cpu
    flag), kept by each step and implying `Safe`. */
module SchedulerSafety {
  import opened Scheduler

  /** `at` is exactly the relation `Located`. */
  ghost predicate Placed(s: Sched, at: map<Task, Place>) {
    && at.Keys == s.tasks.Keys
    && (forall t, p {:trigger Located(s, t, p)} :: Located(s, t, p) <==> t in at && at[t] == p)
    && (forall t {:trigger s.tasks[t]} :: t in s.tasks ==> s.tasks[t].state == StateAt(at[t]))
  }

  /** `on` names the CPU behind each set on_cpu flag, and that CPU still refers to the task. */
  ghost predicate OnCpus(s: Sched, at: map<Task, Place>, on: map<Task, Cpu>) {
    && (forall t {:trigger s.tasks[t]} :: t in s.tasks ==> (s.tasks[t].onCpu <==> t in on))
    && (forall t {:trigger OnTask(s, at, on, t)} :: t in on ==> OnTask(s, at, on, t))
    && (forall c {:trigger CoreOk(s, at, on, c)} :: 0 <= c < |s.cores| ==> CoreOk(s, at, on, c))
    && s.holds.Keys <= s.tasks.Keys
    && (forall w {:trigger ClearedIsOff(s, on, w)} :: w in s.wakers ==> ClearedIsOff(s, on, w))
  }

  /** A waker that has seen on_cpu clear is right to believe it still. */
  ghost predicate ClearedIsOff(s: Sched, on: map<Task, Cpu>, w: nat)
    requires w in s.wakers
  {
    s.wakers[w].Cleared? ==> s.wakers[w].task !in on
  }

  ghost predicate OnTask(s: Sched, at: map<Task, Place>, on: map<Task, Cpu>, t: Task)
    requires t in on
  {
    && t in at && on[t] < |s.cores| && Refers(s.cores[on[t]], t)
    && (at[t].AtQueue? || at[t].AtIdle? ==> at[t].c == on[t])
    && (at[t].AtMigration? ==> HandingTo(s.cores[on[t]], at[t].m))
  }

  /** CPU k still refers to t: t is current, about to be, or not yet cleared. */
  ghost predicate Refers(k: Core, t: Task) {
    k.cur == t || k.pc == Leaving(t) || ((k.pc == Switching || k.pc == Clearing) && k.prev == t)
  }

  /** CPU k is in the middle of a switch to migration task m. */
  ghost predicate HandingTo(k: Core, m: Task) {
    k.pc == Picked(m) || Entering(k.pc, m) || ((k.pc == Switching || k.pc == Clearing) && k.cur == m)
  }

  ghost predicate CoreOk(s: Sched, at: map<Task, Place>, on: map<Task, Cpu>, c: Cpu)
    requires c < |s.cores|
  {
    var k := s.cores[c];
    && k.cur in on && on[k.cur] == c
    && (match k.pc
        case Picked(t) => t in on ==> t == k.cur
        case Claiming(t) => t !in on
        case Leaving(t) => t in on && on[t] == c && t != k.cur
        case Switching => k.prev in on && on[k.prev] == c && k.prev != k.cur
        case Clearing => k.prev in on && on[k.prev] == c && k.prev != k.cur
        case _ => true)
    && k.stack == (if k.pc == Switching then k.prev else k.cur)
    && (k.pc == Putting ==> k.cur != k.idle)
    && k.idle in at
    && (at[k.idle] == AtCurrent(c) || at[k.idle] == AtNext(c) || at[k.idle] == AtDoor(c) || at[k.idle] == AtIdle(c))
  }

  ghost predicate Inv(s: Sched, at: map<Task, Place>, on: map<Task, Cpu>) {
    Placed(s, at) && OnCpus(s, at, on) && NoTwins(s) && WakesPending(s)
  }

  /** Task t sees no difference between k and k'. */
  ghost predicate LooksSame(k: Core, k': Core, t: Task) {
    && (Executing(k.pc) && k.cur == t <==> Executing(k'.pc) && k'.cur == t)
    && (k.pc == Putting && k.cur == t <==> k'.pc == Putting && k'.cur == t)
    && (k.pc == Picked(t) <==> k'.pc == Picked(t))
    && (Entering(k.pc, t) <==> Entering(k'.pc, t))
    && (t in k.queue <==> t in k'.queue) && k.idle == k'.idle
  }

  lemma LocatedSame(s: Sched, s': Sched, c: Cpu, t: Task, p: Place)
    requires c < |s.cores| == |s'.cores| && s'.cores == s.cores[c := s'.cores[c]]
    requires LooksSame(s.cores[c], s'.cores[c], t)
    requires (p.AtWaker? ==> s'.wakers == s.wakers) && (p.AtMigration? ==> s'.holds == s.holds)
    requires (t in s.tasks <==> t in s'.tasks) && (t in s.tasks ==> s.tasks[t].state == s'.tasks[t].state)
    ensures Located(s', t, p) <==> Located(s, t, p)
  {}

  lemma YieldCasPlaced(s: Sched, at: map<Task, Place>, on: map<Task, Cpu>, c: Cpu, s': Sched, at': map<Task, Place>)
    requires Placed(s, at) && OnCpus(s, at, on) && YieldCasStep(s, c, s')
    requires at' == at[s.cores[c].cur := if s.cores[c].cur == s.cores[c].idle then AtIdle(c) else AtLimbo(c)]
    ensures Placed(s', at')
  {
    var x := s.cores[c].cur;
    assert CoreOk(s, at, on, c) && Located(s, x, AtCurrent(c));
    forall d | 0 <= d < |s.cores| && s.cores[d].idle == x ensures d == c { assert CoreOk(s, at, on, d); }
    forall t, p ensures t != x ==> (Located(s', t, p) <==> Located(s, t, p)) {
      if t != x { LocatedSame(s, s', c, t, p); }
    }
    forall p ensures Located(s', x, p) <==> p == at'[x] { assert Located(s, x, p) ==> at[x] == p; }
  }

  lemma YieldCasOn(s: Sched, at: map<Task, Place>, on: map<Task, Cpu>, c: Cpu, s': Sched, at': map<Task, Place>)
    requires Placed(s, at) && OnCpus(s, at, on) && YieldCasStep(s, c, s')
    requires at' == at[s.cores[c].cur := if s.cores[c].cur == s.cores[c].idle then AtIdle(c) else AtLimbo(c)]
    ensures OnCpus(s', at', on)
  {
    var on' := on;
    assert CoreOk(s, at, on, c);
    assert Located(s, s.cores[c].cur, AtCurrent(c));
    forall t | t in on' ensures OnTask(s', at', on', t) { assert t in on ==> OnTask(s, at, on, t); }
    forall d | 0 <= d < |s'.cores| ensures CoreOk(s', at', on', d) { assert CoreOk(s, at, on, d); }
    forall w | w in s'.wakers ensures ClearedIsOff(s', on', w) { assert ClearedIsOff(s, on, w); }
  }

  lemma YieldPutPlaced(s: Sched, at: map<Task, Place>, on: map<Task, Cpu>, c: Cpu, s': Sched, at': map<Task, Place>)
    requires Placed(s, at) && OnCpus(s, at, on) && YieldPutStep(s, c, s') && at' == at[s.cores[c].cur := AtQueue(c)]
    ensures Placed(s', at')
  {
    var x := s.cores[c].cur;
    assert CoreOk(s, at, on, c) && Located(s, x, AtLimbo(c));
    forall d | 0 <= d < |s.cores| && s.cores[d].idle == x ensures d == c { assert CoreOk(s, at, on, d); }
    forall t, p ensures t != x ==> (Located(s', t, p) <==> Located(s, t, p)) {
      if t != x { LocatedSame(s, s', c, t, p); }
    }
    forall p ensures Located(s', x, p) <==> p == at'[x] { assert Located(s, x, p) ==> at[x] == p; }
  }

  lemma YieldPutOn(s: Sched, at: map<Task, Place>, on: map<Task, Cpu>, c: Cpu, s': Sched, at': map<Task, Place>)
    requires Placed(s, at) && OnCpus(s, at, on) && YieldPutStep(s, c, s') && at' == at[s.cores[c].cur := AtQueue(c)]
    ensures OnCpus(s', at', on)
  {
    var on' := on;
    assert CoreOk(s, at, on, c);
    assert Located(s, s.cores[c].cur, AtLimbo(c));
    forall t | t in on' ensures OnTask(s', at', on', t) { assert t in on ==> OnTask(s, at, on, t); }
    forall d | 0 <= d < |s'.cores| ensures CoreOk(s', at', on', d) { assert CoreOk(s, at, on, d); }
    forall w | w in s'.wakers ensures ClearedIsOff(s', on', w) { assert ClearedIsOff(s, on, w); }
  }

  lemma StopPlaced(s: Sched, at: map<Task, Place>, on: map<Task, Cpu>,
                   c: Cpu, to: TaskState, s': Sched, at': map<Task, Place>)
    requires Placed(s, at) && OnCpus(s, at, on) && StopStep(s, c, to, s')
    requires at' == at[s.cores[c].cur := if to == Blocked then Asleep else Dead]
    ensures Placed(s', at')
  {
    var x := s.cores[c].cur;
    assert CoreOk(s, at, on, c) && Located(s, x, AtCurrent(c));
    forall t, p ensures t != x ==> (Located(s', t, p) <==> Located(s, t, p)) {
      if t != x { LocatedSame(s, s', c, t, p); }
    }
    forall p ensures Located(s', x, p) <==> p == at'[x] { assert Located(s, x, p) ==> at[x] == p; }
  }

  lemma StopOn(s: Sched, at: map<Task, Place>, on: map<Task, Cpu>,
               c: Cpu, to: TaskState, s': Sched, at': map<Task, Place>)
    requires Placed(s, at) && OnCpus(s, at, on) && StopStep(s, c, to, s')
    requires at' == at[s.cores[c].cur := if to == Blocked then Asleep else Dead]
    ensures OnCpus(s', at', on)
  {
    var on' := on;
    assert CoreOk(s, at, on, c);
    assert Located(s, s.cores[c].cur, AtCurrent(c));
    forall t | t in on' ensures OnTask(s', at', on', t) { assert t in on ==> OnTask(s, at, on, t); }
    forall d | 0 <= d < |s'.cores| ensures CoreOk(s', at', on', d) { assert CoreOk(s, at, on, d); }
    forall w | w in s'.wakers ensures ClearedIsOff(s', on', w) { assert ClearedIsOff(s, on, w); }
  }

  lemma PickPlaced(s: Sched, at: map<Task, Place>, on: map<Task, Cpu>,
                   c: Cpu, t: Task, s': Sched, at': map<Task, Place>)
    requires Placed(s, at) && OnCpus(s, at, on) && NoTwins(s) && PickStep(s, c, t, s') && at' == at[t := AtNext(c)]
    ensures Placed(s', at')
  {
    var x := t;
    assert CoreOk(s, at, on, c) && Located(s, x, AtQueue(c));
    forall d | 0 <= d < |s.cores| && s.cores[d].idle == x ensures d == c { assert CoreOk(s, at, on, d); }
    forall t, p ensures t != x ==> (Located(s', t, p) <==> Located(s, t, p)) {
      if t != x { LocatedSame(s, s', c, t, p); }
    }
    forall p ensures Located(s', x, p) <==> p == at'[x] { assert Located(s, x, p) ==> at[x] == p; }
  }

  lemma PickOn(s: Sched, at: map<Task, Place>, on: map<Task, Cpu>, c: Cpu, t: Task, s': Sched, at': map<Task, Place>)
    requires Placed(s, at) && OnCpus(s, at, on) && PickStep(s, c, t, s') && at' == at[t := AtNext(c)]
    ensures OnCpus(s', at', on)
  {
    var on' := on;
    assert CoreOk(s, at, on, c);
    assert Located(s, t, AtQueue(c));
    assert t in on ==> OnTask(s, at, on, t);
    forall t | t in on' ensures OnTask(s', at', on', t) { assert t in on ==> OnTask(s, at, on, t); }
    forall d | 0 <= d < |s'.cores| ensures CoreOk(s', at', on', d) { assert CoreOk(s, at, on, d); }
    forall w | w in s'.wakers ensures ClearedIsOff(s', on', w) { assert ClearedIsOff(s, on, w); }
  }

  lemma PickIdlePlaced(s: Sched, at: map<Task, Place>, on: map<Task, Cpu>, c: Cpu, s': Sched, at': map<Task, Place>)
    requires Placed(s, at) && OnCpus(s, at, on) && PickIdleStep(s, c, s') && at' == at[s.cores[c].idle := AtNext(c)]
    ensures Placed(s', at')
  {
    var x := s.cores[c].idle;
    assert CoreOk(s, at, on, c) && Located(s, x, at[x]);
    forall d | 0 <= d < |s.cores| && s.cores[d].idle == x ensures d == c { assert CoreOk(s, at, on, d); }
    forall t, p ensures t != x ==> (Located(s', t, p) <==> Located(s, t, p)) {
      if t != x { LocatedSame(s, s', c, t, p); }
    }
    forall p ensures Located(s', x, p) <==> p == at'[x] { assert Located(s, x, p) ==> at[x] == p; }
  }

  lemma PickIdleOn(s: Sched, at: map<Task, Place>, on: map<Task, Cpu>, c: Cpu, s': Sched, at': map<Task, Place>)
    requires Placed(s, at) && OnCpus(s, at, on) && PickIdleStep(s, c, s') && at' == at[s.cores[c].idle := AtNext(c)]
    ensures OnCpus(s', at', on)
  {
    var on' := on;
    assert CoreOk(s, at, on, c);
    assert Located(s, s.cores[c].idle, at[s.cores[c].idle]);
    assert s.cores[c].idle in on ==> OnTask(s, at, on, s.cores[c].idle);
    forall t | t in on' ensures OnTask(s', at', on', t) { assert t in on ==> OnTask(s, at, on, t); }
    forall d | 0 <= d < |s'.cores| ensures CoreOk(s', at', on', d) { assert CoreOk(s, at, on, d); }
    forall w | w in s'.wakers ensures ClearedIsOff(s', on', w) { assert ClearedIsOff(s, on, w); }
  }

  lemma SetRunningPlaced(s: Sched, at: map<Task, Place>, on: map<Task, Cpu>, c: Cpu, s': Sched, at': map<Task, Place>)
    requires Placed(s, at) && OnCpus(s, at, on) && SetRunningStep(s, c, s')
    requires at' == at[s.cores[c].pc.next := if s.cores[c].pc.next == s.cores[c].cur then AtCurrent(c) else AtDoor(c)]
    ensures Placed(s', at')
  {
    var x := s.cores[c].pc.next;
    assert CoreOk(s, at, on, c) && Located(s, x, AtNext(c));
    forall d | 0 <= d < |s.cores| && s.cores[d].idle == x ensures d == c { assert CoreOk(s, at, on, d); }
    forall t, p ensures t != x ==> (Located(s', t, p) <==> Located(s, t, p)) {
      if t != x { LocatedSame(s, s', c, t, p); }
    }
    forall p ensures Located(s', x, p) <==> p == at'[x] { assert Located(s, x, p) ==> at[x] == p; }
  }

  lemma SetRunningOn(s: Sched, at: map<Task, Place>, on: map<Task, Cpu>, c: Cpu, s': Sched, at': map<Task, Place>)
    requires Placed(s, at) && OnCpus(s, at, on) && SetRunningStep(s, c, s')
    requires at' == at[s.cores[c].pc.next := if s.cores[c].pc.next == s.cores[c].cur then AtCurrent(c) else AtDoor(c)]
    ensures OnCpus(s', at', on)
  {
    var on' := on;
    assert CoreOk(s, at, on, c);
    assert Located(s, s.cores[c].pc.next, AtNext(c));
    forall t | t in on' ensures OnTask(s', at', on', t) { assert t in on ==> OnTask(s, at, on, t); }
    forall d | 0 <= d < |s'.cores| ensures CoreOk(s', at', on', d) { assert CoreOk(s, at, on, d); }
    forall w | w in s'.wakers ensures ClearedIsOff(s', on', w) { assert ClearedIsOff(s, on, w); }
  }

  lemma SetOnCpuPlaced(s: Sched, at: map<Task, Place>, c: Cpu, s': Sched)
    requires Placed(s, at) && SetOnCpuStep(s, c, s')
    ensures Placed(s', at)
  {
    forall t, p ensures Located(s', t, p) <==> Located(s, t, p) { LocatedSame(s, s', c, t, p); }
  }

  lemma SetOnCpuOn(s: Sched, at: map<Task, Place>, on: map<Task, Cpu>, c: Cpu, s': Sched)
    requires Placed(s, at) && OnCpus(s, at, on) && SetOnCpuStep(s, c, s')
    ensures OnCpus(s', at, on[s.cores[c].pc.next := c])
  {
    var on' := on[s.cores[c].pc.next := c];
    assert CoreOk(s, at, on, c);
    assert Located(s, s.cores[c].pc.next, AtDoor(c));
    forall d | && 0 <= d < |s.cores|
               && (s.cores[d].pc == Picked(s.cores[c].pc.next) || Entering(s.cores[d].pc, s.cores[c].pc.next))
      ensures d == c
    {
      assert Located(s, s.cores[c].pc.next, if s.cores[d].pc.Picked? then AtNext(d) else AtDoor(d));
    }
    forall t | t in on' ensures OnTask(s', at, on', t) { assert t in on ==> OnTask(s, at, on, t); }
    forall d | 0 <= d < |s'.cores| ensures CoreOk(s', at, on', d) { assert CoreOk(s, at, on, d); }
    forall w | w in s'.wakers ensures ClearedIsOff(s', on', w) {
      assert ClearedIsOff(s, on, w) && (s.wakers[w].Cleared? ==> Located(s, s.wakers[w].task, AtWaker(w)));
    }
  }

  lemma SetCurrentPlaced(s: Sched, at: map<Task, Place>, on: map<Task, Cpu>, c: Cpu, s': Sched, at': map<Task, Place>)
    requires Placed(s, at) && OnCpus(s, at, on) && SetCurrentStep(s, c, s')
    requires at' == at[s.cores[c].pc.next := AtCurrent(c)]
    ensures Placed(s', at')
  {
    var x := s.cores[c].pc.next;
    assert CoreOk(s, at, on, c) && Located(s, x, AtDoor(c));
    forall d | 0 <= d < |s.cores| && s.cores[d].idle == x ensures d == c { assert CoreOk(s, at, on, d); }
    forall t, p ensures t != x ==> (Located(s', t, p) <==> Located(s, t, p)) {
      if t != x { LocatedSame(s, s', c, t, p); }
    }
    forall p ensures Located(s', x, p) <==> p == at'[x] { assert Located(s, x, p) ==> at[x] == p; }
  }

  lemma SetCurrentOn(s: Sched, at: map<Task, Place>, on: map<Task, Cpu>, c: Cpu, s': Sched, at': map<Task, Place>)
    requires Placed(s, at) && OnCpus(s, at, on) && SetCurrentStep(s, c, s')
    requires at' == at[s.cores[c].pc.next := AtCurrent(c)]
    ensures OnCpus(s', at', on)
  {
    var on' := on;
    assert CoreOk(s, at, on, c);
    assert Located(s, s.cores[c].pc.next, AtDoor(c));
    forall t | t in on' ensures OnTask(s', at', on', t) { assert t in on ==> OnTask(s, at, on, t); }
    forall d | 0 <= d < |s'.cores| ensures CoreOk(s', at', on', d) { assert CoreOk(s, at, on, d); }
    forall w | w in s'.wakers ensures ClearedIsOff(s', on', w) { assert ClearedIsOff(s, on, w); }
  }

  lemma SwitchContextPlaced(s: Sched, at: map<Task, Place>, c: Cpu, s': Sched)
    requires Placed(s, at) && SwitchContextStep(s, c, s')
    ensures Placed(s', at)
  {
    forall t, p ensures Located(s', t, p) <==> Located(s, t, p) { LocatedSame(s, s', c, t, p); }
  }

  lemma SwitchContextOn(s: Sched, at: map<Task, Place>, on: map<Task, Cpu>, c: Cpu, s': Sched)
    requires Placed(s, at) && OnCpus(s, at, on) && SwitchContextStep(s, c, s')
    ensures OnCpus(s', at, on)
  {
    var on' := on;
    assert CoreOk(s, at, on, c);
    forall t | t in on' ensures OnTask(s', at, on', t) { assert t in on ==> OnTask(s, at, on, t); }
    forall d | 0 <= d < |s'.cores| ensures CoreOk(s', at, on', d) { assert CoreOk(s, at, on, d); }
    forall w | w in s'.wakers ensures ClearedIsOff(s', on', w) {
      assert ClearedIsOff(s, on, w) && (s.wakers[w].Cleared? ==> Located(s, s.wakers[w].task, AtWaker(w)));
    }
  }

  lemma ClearPrevPlaced(s: Sched, at: map<Task, Place>, c: Cpu, s': Sched)
    requires Placed(s, at) && ClearPrevStep(s, c, s')
    ensures Placed(s', at)
  {
    forall t, p ensures Located(s', t, p) <==> Located(s, t, p) { LocatedSame(s, s', c, t, p); }
  }

  lemma ClearPrevOn(s: Sched, at: map<Task, Place>, on: map<Task, Cpu>, c: Cpu, s': Sched)
    requires Placed(s, at) && OnCpus(s, at, on) && ClearPrevStep(s, c, s')
    ensures OnCpus(s', at, on - {s.cores[c].prev})
  {
    var on' := on - {s.cores[c].prev};
    assert CoreOk(s, at, on, c);
    assert Located(s, s.cores[c].cur, AtCurrent(c));
    forall t | t in on' ensures OnTask(s', at, on', t) { assert t in on ==> OnTask(s, at, on, t); }
    forall d | 0 <= d < |s'.cores| ensures CoreOk(s', at, on', d) { assert CoreOk(s, at, on, d); }
    forall w | w in s'.wakers ensures ClearedIsOff(s', on', w) {
      assert ClearedIsOff(s, on, w) && (s.wakers[w].Cleared? ==> Located(s, s.wakers[w].task, AtWaker(w)));
    }
  }

  lemma MigrateOthers(s: Sched, at: map<Task, Place>, c: Cpu, m: Task, s': Sched, t: Task, p: Place)
    requires Placed(s, at) && s.holds.Keys <= s.tasks.Keys && MigrateStep(s, c, m, s') && t != s.cores[c].cur && t != m
    ensures Located(s', t, p) <==> Located(s, t, p)
  {
    assert m !in s.holds;
  }

  lemma NewcomerIsNext(s: Sched, at: map<Task, Place>, on: map<Task, Cpu>, c: Cpu, m: Task, s': Sched, p: Place)
    requires Placed(s, at) && OnCpus(s, at, on) && MigrateStep(s, c, m, s')
    ensures Located(s', m, p) <==> p == AtNext(c)
  {
    assert !Located(s, m, p);
    forall d | 0 <= d < |s.cores| ensures s.cores[d].idle != m { assert CoreOk(s, at, on, d); }
  }

  lemma MigratePlaced(s: Sched, at: map<Task, Place>, on: map<Task, Cpu>,
                      c: Cpu, m: Task, s': Sched, at': map<Task, Place>)
    requires Placed(s, at) && OnCpus(s, at, on) && MigrateStep(s, c, m, s')
    requires at' == at[s.cores[c].cur := AtMigration(m)][m := AtNext(c)]
    ensures Placed(s', at')
  {
    var x := s.cores[c].cur;
    assert CoreOk(s, at, on, c) && Located(s, x, AtCurrent(c));
    forall d | 0 <= d < |s.cores| && s.cores[d].idle == x ensures d == c { assert CoreOk(s, at, on, d); }
    forall t, p ensures t != x && t != m ==> (Located(s', t, p) <==> Located(s, t, p)) {
      if t != x && t != m { MigrateOthers(s, at, c, m, s', t, p); }
    }
    forall p ensures Located(s', x, p) <==> p == at'[x] { assert Located(s, x, p) ==> at[x] == p; }
    forall p ensures Located(s', m, p) <==> p == at'[m] { NewcomerIsNext(s, at, on, c, m, s', p); }
  }

  lemma MigrateOn(s: Sched, at: map<Task, Place>, on: map<Task, Cpu>, c: Cpu, m: Task, s': Sched, at': map<Task, Place>)
    requires Placed(s, at) && OnCpus(s, at, on) && MigrateStep(s, c, m, s')
    requires at' == at[s.cores[c].cur := AtMigration(m)][m := AtNext(c)]
    ensures OnCpus(s', at', on)
  {
    assert CoreOk(s, at, on, c) && Located(s, s.cores[c].cur, AtCurrent(c));
    assert m in on ==> OnTask(s, at, on, m);
    forall t | t in on ensures OnTask(s', at', on, t) { assert OnTask(s, at, on, t); }
    forall d | 0 <= d < |s'.cores| ensures CoreOk(s', at', on, d) { assert CoreOk(s, at, on, d); }
    forall w | w in s'.wakers ensures ClearedIsOff(s', on, w) { assert ClearedIsOff(s, on, w); }
  }

  // A task no CPU refers to enters the queue of c: spawned, woken or migrated.

  ghost predicate Arrival(s: Sched, at: map<Task, Place>, on: map<Task, Cpu>, t: Task, c: Cpu, s': Sched) {
    && c < |s.cores| && s'.cores == Put(s, c, t) && t !in on
    && (if t in at
        then s'.tasks == s.tasks && (at[t].AtWaker? || at[t].AtMigration?)
        else s'.tasks == s.tasks[t := TaskInner(Ready, false, false)])
    && s'.wakers == (if t in at && at[t].AtWaker? then s.wakers - {at[t].w} else s.wakers)
    && s'.holds == (if t in at && at[t].AtMigration? then s.holds - {at[t].m} else s.holds)
  }

  lemma ArrivalPlaced(s: Sched, at: map<Task, Place>, on: map<Task, Cpu>, t: Task, c: Cpu, s': Sched)
    requires Placed(s, at) && OnCpus(s, at, on) && Arrival(s, at, on, t, c, s')
    ensures Placed(s', at[t := AtQueue(c)])
  {
    assert t in at ==> Located(s, t, at[t]);
    forall d | 0 <= d < |s.cores| ensures s.cores[d].idle != t && s.cores[d].cur != t { assert CoreOk(s, at, on, d); }
    forall u, p ensures u != t ==> (Located(s', u, p) <==> Located(s, u, p)) {
      if u != t && !p.AtWaker? && !p.AtMigration? { LocatedSame(s, s', c, u, p); }
    }
    forall p ensures Located(s', t, p) <==> p == AtQueue(c) { assert Located(s, t, p) ==> t in at && at[t] == p; }
  }

  lemma ArrivalOn(s: Sched, at: map<Task, Place>, on: map<Task, Cpu>, t: Task, c: Cpu, s': Sched)
    requires Placed(s, at) && OnCpus(s, at, on) && Arrival(s, at, on, t, c, s')
    ensures OnCpus(s', at[t := AtQueue(c)], on)
  {
    var at' := at[t := AtQueue(c)];
    forall u | u in on ensures OnTask(s', at', on, u) { assert OnTask(s, at, on, u); }
    forall d | 0 <= d < |s'.cores| ensures CoreOk(s', at', on, d) { assert CoreOk(s, at, on, d); }
    forall w | w in s'.wakers ensures ClearedIsOff(s', on, w) { assert ClearedIsOff(s, on, w); }
  }

  /** When a migration task reaches `migrate_entry`, the task it holds is off every CPU, because
      `task_entry` has cleared the previous task. */
  lemma MigratedTaskIsOff(s: Sched, at: map<Task, Place>, on: map<Task, Cpu>, c: Cpu)
    requires Placed(s, at) && OnCpus(s, at, on)
    requires c < |s.cores| && s.cores[c].pc == Run && s.cores[c].cur in s.holds
    ensures var t := s.holds[s.cores[c].cur]; t in at && at[t] == AtMigration(s.cores[c].cur) && t !in on
  {
    var m := s.cores[c].cur;
    var t := s.holds[m];
    assert Located(s, t, AtMigration(m)) && Located(s, m, AtCurrent(c));
    if t in on {
      assert OnTask(s, at, on, t);
      var d := on[t];
      assert Located(s, m, if s.cores[d].pc.Picked? then AtNext(d)
                           else if Executing(s.cores[d].pc) then AtCurrent(d) else AtDoor(d));
    }
  }

  lemma QuietKeeps(s: Sched, at: map<Task, Place>, on: map<Task, Cpu>, s': Sched)
    requires Placed(s, at) && OnCpus(s, at, on)
    requires s'.cores == s.cores && s'.holds == s.holds && s'.tasks.Keys == s.tasks.Keys
    requires forall t :: t in s.tasks ==> s'.tasks[t].state == s.tasks[t].state && s'.tasks[t].onCpu == s.tasks[t].onCpu
    requires forall t, w :: Located(s', t, AtWaker(w)) <==> Located(s, t, AtWaker(w))
    requires forall w {:trigger ClearedIsOff(s', on, w)} :: w in s'.wakers ==> ClearedIsOff(s', on, w)
    ensures Placed(s', at) && OnCpus(s', at, on)
  {
    forall t, p ensures Located(s', t, p) <==> Located(s, t, p) {}
    forall t | t in on ensures OnTask(s', at, on, t) { assert OnTask(s, at, on, t); }
    forall d | 0 <= d < |s'.cores| ensures CoreOk(s', at, on, d) { assert CoreOk(s, at, on, d); }
  }

  /** A CPU that boots brings its idle task and its gc task. */
  lemma BootPlaced(s: Sched, at: map<Task, Place>, on: map<Task, Cpu>, idle: Task, gc: Task, s': Sched)
    requires Placed(s, at) && OnCpus(s, at, on) && BootStep(s, idle, gc, s')
    ensures Placed(s', at[idle := AtCurrent(|s.cores|)][gc := AtQueue(|s.cores|)])
  {
    var c := |s.cores|;
    assert s'.cores[c] == Core(multiset{gc}, idle, idle, idle, Run, idle);
    forall d | 0 <= d < c ensures s'.cores[d] == s.cores[d] && s.cores[d].idle in at { assert CoreOk(s, at, on, d); }
    forall t, p ensures t != idle && t != gc ==> (Located(s', t, p) <==> Located(s, t, p)) {}
    forall p ensures Located(s', idle, p) <==> p == AtCurrent(c) { assert !Located(s, idle, p); }
    forall p ensures Located(s', gc, p) <==> p == AtQueue(c) { assert !Located(s, gc, p); }
  }

  lemma BootOn(s: Sched, at: map<Task, Place>, on: map<Task, Cpu>, idle: Task, gc: Task, s': Sched)
    requires Placed(s, at) && OnCpus(s, at, on) && BootStep(s, idle, gc, s')
    ensures OnCpus(s', at[idle := AtCurrent(|s.cores|)][gc := AtQueue(|s.cores|)], on[idle := |s.cores|])
  {
    var c := |s.cores|;
    var at', on' := at[idle := AtCurrent(c)][gc := AtQueue(c)], on[idle := c];
    assert forall d :: 0 <= d < c ==> s'.cores[d] == s.cores[d];
    assert (gc in on ==> OnTask(s, at, on, gc)) && (idle in on ==> OnTask(s, at, on, idle));
    assert s'.cores[c] == Core(multiset{gc}, idle, idle, idle, Run, idle);
    forall t | t in on' ensures OnTask(s', at', on', t) { assert t != idle ==> OnTask(s, at, on, t); }
    forall d | 0 <= d < |s'.cores| ensures CoreOk(s', at', on', d) {
      if d < c {
        assert CoreOk(s, at, on, d);
        assert s.cores[d].pc.Picked? ==> Located(s, s.cores[d].pc.next, AtNext(d));
        assert s.cores[d].pc.Claiming? ==> Located(s, s.cores[d].pc.next, AtDoor(d));
      }
    }
    forall w | w in s'.wakers ensures ClearedIsOff(s', on', w) {
      assert ClearedIsOff(s, on, w) && (s.wakers[w].Cleared? ==> Located(s, s.wakers[w].task, AtWaker(w)));
    }
  }

  /** The compare-and-swap that succeeds: the waker now owns its task. */
  lemma ClaimPlaced(s: Sched, at: map<Task, Place>, on: map<Task, Cpu>, w: nat, s': Sched)
    requires Placed(s, at) && OnCpus(s, at, on) && WakeCasStep(s, w, s')
    requires s.tasks[s.wakers[w].task].state == Blocked
    ensures Placed(s', at[s.wakers[w].task := AtWaker(w)])
  {
    var x := s.wakers[w].task;
    assert Located(s, x, Asleep);
    forall d | 0 <= d < |s.cores| ensures s.cores[d].idle != x { assert CoreOk(s, at, on, d); }
    forall t, p ensures t != x ==> (Located(s', t, p) <==> Located(s, t, p)) {}
    forall p ensures Located(s', x, p) <==> p == AtWaker(w) { assert Located(s, x, p) ==> at[x] == p; }
  }

  lemma ClaimOn(s: Sched, at: map<Task, Place>, on: map<Task, Cpu>, w: nat, s': Sched)
    requires Placed(s, at) && OnCpus(s, at, on) && WakeCasStep(s, w, s')
    requires s.tasks[s.wakers[w].task].state == Blocked
    ensures OnCpus(s', at[s.wakers[w].task := AtWaker(w)], on)
  {
    var at' := at[s.wakers[w].task := AtWaker(w)];
    assert Located(s, s.wakers[w].task, Asleep);
    forall t | t in on ensures OnTask(s', at', on, t) { assert OnTask(s, at, on, t); }
    forall d | 0 <= d < |s'.cores| ensures CoreOk(s', at', on, d) { assert CoreOk(s, at, on, d); }
    forall v | v in s'.wakers ensures ClearedIsOff(s', on, v) { assert ClearedIsOff(s, on, v); }
  }

  /** Pending wakes survive when every flagged waker of a still blocked task does. */
  lemma WakesKept(s: Sched, a: Step, s': Sched)
    requires WakesPending(s) && Next(s, a, s')
    ensures WakesPending(s')
  {
    forall t | t in s'.tasks && s'.tasks[t].woke && s'.tasks[t].state == Blocked
      ensures exists w :: w in s'.wakers && s'.wakers[w].Flagged? && s'.wakers[w].task == t
    {
      if a.WakeFlag? && a.t == t {
        assert a.w in s'.wakers;
      } else {
        assert t in s.tasks && s.tasks[t].woke && s.tasks[t].state == Blocked;
        var w :| w in s.wakers && s.wakers[w].Flagged? && s.wakers[w].task == t;
        assert w in s'.wakers;
      }
    }
  }

  /** The steps that enqueue nothing. */
  lemma OthersKeepNoTwins(s: Sched, a: Step, s': Sched)
    requires NoTwins(s) && Next(s, a, s') && !a.Spawn? && !a.YieldPut? && !a.MigrateEntry? && !a.WakeEnqueue?
    ensures NoTwins(s')
  {
    if a.Boot? { assert Simple(multiset{a.gc}); }
    if a.Pick? { assert Simple(s.cores[a.c].queue - multiset{a.t}); }
  }

  /** Whatever enters a queue was in none. */
  lemma NoTwinsKept(s: Sched, at: map<Task, Place>, a: Step, s': Sched)
    requires Placed(s, at) && NoTwins(s) && Next(s, a, s')
    ensures NoTwins(s')
  {
    match a
    case Spawn(t, c) => PutKeepsSimple(s, at, t, c);
    case YieldPut(c) => assert Located(s, s.cores[c].cur, AtLimbo(c)); PutKeepsSimple(s, at, s.cores[c].cur, c);
    case MigrateEntry(c, target) =>
      assert Located(s, s.holds[s.cores[c].cur], AtMigration(s.cores[c].cur));
      PutKeepsSimple(s, at, s.holds[s.cores[c].cur], target);
    case WakeEnqueue(w) =>
      assert Located(s, s.wakers[w].task, AtWaker(w));
      PutKeepsSimple(s, at, s.wakers[w].task, s.wakers[w].target);
    case _ => OthersKeepNoTwins(s, a, s');
  }

  lemma PutKeepsSimple(s: Sched, at: map<Task, Place>, t: Task, c: Cpu)
    requires Placed(s, at) && NoTwins(s) && c < |s.cores| && (t in at ==> !at[t].AtQueue?)
    ensures Simple(s.cores[c].queue + multiset{t})
  {
    assert !Located(s, t, AtQueue(c)) && Simple(s.cores[c].queue);
  }

  /** Where each task is after a step: which step takes which task where. */
  ghost function Shift(s: Sched, at: map<Task, Place>, a: Step): map<Task, Place> {
    match a
    case Boot(idle, gc) => at[idle := AtCurrent(|s.cores|)][gc := AtQueue(|s.cores|)]
    case Spawn(t, c) => at[t := AtQueue(c)]
    case MigrateEntry(c, target) =>
      if c < |s.cores| && s.cores[c].cur in s.holds then at[s.holds[s.cores[c].cur] := AtQueue(target)] else at
    case WakeCas(w) =>
      if w in s.wakers && Located(s, s.wakers[w].task, Asleep) then at[s.wakers[w].task := AtWaker(w)] else at
    case WakeEnqueue(w) => if w in s.wakers then at[s.wakers[w].task := AtQueue(s.wakers[w].target)] else at
    case ClearWoke(_) => at
    case WakeFlag(_, _, _, _) => at
    case WakeSees(_) => at
    case _ => if a.c < |s.cores| then ShiftBy(s.cores[a.c], at, a) else at
  }

  /** The same for a step of CPU k on its own task. */
  ghost function ShiftBy(k: Core, at: map<Task, Place>, a: Step): map<Task, Place> {
    match a
    case YieldCas(c) => at[k.cur := if k.cur == k.idle then AtIdle(c) else AtLimbo(c)]
    case YieldPut(c) => at[k.cur := AtQueue(c)]
    case Block(_) => at[k.cur := Asleep]
    case Exit(_) => at[k.cur := Dead]
    case Migrate(c, m) => at[k.cur := AtMigration(m)][m := AtNext(c)]
    case Pick(c, t) => at[t := AtNext(c)]
    case PickIdle(c) => at[k.idle := AtNext(c)]
    case SetRunning(c) =>
      if k.pc.Picked? then at[k.pc.next := if k.pc.next == k.cur then AtCurrent(c) else AtDoor(c)] else at
    case SetCurrent(c) => if k.pc.Leaving? then at[k.pc.next := AtCurrent(c)] else at
    case _ => at
  }

  /** Steps that reach a task from outside, or only its wake flag. */
  predicate Outside(a: Step) {
    || a.Spawn? || a.MigrateEntry? || a.ClearWoke?
    || a.WakeFlag? || a.WakeCas? || a.WakeSees? || a.WakeEnqueue?
  }

  lemma StepKeepsInv(s: Sched, at: map<Task, Place>, on: map<Task, Cpu>, a: Step, s': Sched)
    returns (at': map<Task, Place>, on': map<Task, Cpu>)
    requires Inv(s, at, on) && Next(s, a, s')
    ensures Inv(s', at', on') && at' == Shift(s, at, a)
  {
    WakesKept(s, a, s');
    NoTwinsKept(s, at, a, s');
    if a.Boot? {
      at', on' := at[a.idle := AtCurrent(|s.cores|)][a.gc := AtQueue(|s.cores|)], on[a.idle := |s.cores|];
      BootPlaced(s, at, on, a.idle, a.gc, s');
      BootOn(s, at, on, a.idle, a.gc, s');
    } else if Outside(a) {
      at', on' := OutsideStepKeeps(s, at, on, a, s');
    } else {
      at', on' := CpuStepKeeps(s, at, on, a, s');
    }
  }

  /** The parts of `switch_to`. */
  predicate Switches(a: Step) {
    a.SetRunning? || a.SetOnCpu? || a.SetCurrent? || a.SwitchContext? || a.ClearPrev?
  }

  lemma CpuStepKeeps(s: Sched, at: map<Task, Place>, on: map<Task, Cpu>, a: Step, s': Sched)
    returns (at': map<Task, Place>, on': map<Task, Cpu>)
    requires Placed(s, at) && OnCpus(s, at, on) && NoTwins(s) && Next(s, a, s')
    requires !a.Boot? && !Outside(a)
    ensures Placed(s', at') && OnCpus(s', at', on') && at' == Shift(s, at, a)
  {
    if Switches(a) {
      at', on' := SwitchStepKeeps(s, at, on, a, s');
      return;
    }
    var c := a.c;
    at', on' := Shift(s, at, a), on;
    match a
    case YieldCas(_) => YieldCasPlaced(s, at, on, c, s', at'); YieldCasOn(s, at, on, c, s', at');
    case YieldPut(_) => YieldPutPlaced(s, at, on, c, s', at'); YieldPutOn(s, at, on, c, s', at');
    case Block(_) => StopPlaced(s, at, on, c, Blocked, s', at'); StopOn(s, at, on, c, Blocked, s', at');
    case Exit(_) => StopPlaced(s, at, on, c, Exited, s', at'); StopOn(s, at, on, c, Exited, s', at');
    case Migrate(_, m) => MigratePlaced(s, at, on, c, m, s', at'); MigrateOn(s, at, on, c, m, s', at');
    case Pick(_, t) => PickPlaced(s, at, on, c, t, s', at'); PickOn(s, at, on, c, t, s', at');
    case PickIdle(_) => PickIdlePlaced(s, at, on, c, s', at'); PickIdleOn(s, at, on, c, s', at');
  }

  lemma SwitchStepKeeps(s: Sched, at: map<Task, Place>, on: map<Task, Cpu>, a: Step, s': Sched)
    returns (at': map<Task, Place>, on': map<Task, Cpu>)
    requires Placed(s, at) && OnCpus(s, at, on) && Next(s, a, s') && Switches(a)
    ensures Placed(s', at') && OnCpus(s', at', on') && at' == Shift(s, at, a)
  {
    var c := a.c;
    at', on' := Shift(s, at, a), on;
    match a
    case SetRunning(_) => SetRunningPlaced(s, at, on, c, s', at'); SetRunningOn(s, at, on, c, s', at');
    case SetOnCpu(_) =>
      on' := on[s.cores[c].pc.next := c];
      SetOnCpuPlaced(s, at, c, s'); SetOnCpuOn(s, at, on, c, s');
    case SetCurrent(_) => SetCurrentPlaced(s, at, on, c, s', at'); SetCurrentOn(s, at, on, c, s', at');
    case SwitchContext(_) => SwitchContextPlaced(s, at, c, s'); SwitchContextOn(s, at, on, c, s');
    case ClearPrev(_) =>
      on' := on - {s.cores[c].prev};
      ClearPrevPlaced(s, at, c, s'); ClearPrevOn(s, at, on, c, s');
  }

  lemma ArrivalKeeps(s: Sched, at: map<Task, Place>, on: map<Task, Cpu>, a: Step, s': Sched)
    returns (at': map<Task, Place>)
    requires Placed(s, at) && OnCpus(s, at, on) && Next(s, a, s') && (a.Spawn? || a.MigrateEntry? || a.WakeEnqueue?)
    ensures Placed(s', at') && OnCpus(s', at', on) && at' == Shift(s, at, a)
  {
    var t, c;
    match a {
    case Spawn(t0, c0) =>
      t, c := t0, c0;
      assert t in on ==> OnTask(s, at, on, t);
    case MigrateEntry(c0, target) =>
      MigratedTaskIsOff(s, at, on, c0);
      t, c := s.holds[s.cores[c0].cur], target;
    case WakeEnqueue(w) =>
      t, c := s.wakers[w].task, s.wakers[w].target;
      assert Located(s, t, AtWaker(w)) && ClearedIsOff(s, on, w);
    }
    at' := at[t := AtQueue(c)];
    assert Arrival(s, at, on, t, c, s');
    ArrivalPlaced(s, at, on, t, c, s');
    ArrivalOn(s, at, on, t, c, s');
  }

  /** Steps that move no task: the wake flag, a compare-and-swap that fails, the read of on_cpu. */
  lemma QuietStepKeeps(s: Sched, at: map<Task, Place>, on: map<Task, Cpu>, a: Step, s': Sched)
    requires Placed(s, at) && OnCpus(s, at, on) && Next(s, a, s')
    requires a.ClearWoke? || a.WakeFlag? || a.WakeSees? || (a.WakeCas? && s.tasks[s.wakers[a.w].task].state != Blocked)
    ensures Placed(s', at) && OnCpus(s', at, on)
  {
    forall v | v in s'.wakers ensures ClearedIsOff(s', on, v) { assert v in s.wakers ==> ClearedIsOff(s, on, v); }
    QuietKeeps(s, at, on, s');
  }

  /** The compare-and-swap of a waker. */
  lemma CasKeeps(s: Sched, at: map<Task, Place>, on: map<Task, Cpu>, w: nat, s': Sched)
    requires Placed(s, at) && OnCpus(s, at, on) && WakeCasStep(s, w, s')
    ensures Placed(s', Shift(s, at, WakeCas(w))) && OnCpus(s', Shift(s, at, WakeCas(w)), on)
  {
    if s.tasks[s.wakers[w].task].state == Blocked {
      ClaimPlaced(s, at, on, w, s');
      ClaimOn(s, at, on, w, s');
    } else {
      QuietStepKeeps(s, at, on, WakeCas(w), s');
    }
  }

  lemma OutsideStepKeeps(s: Sched, at: map<Task, Place>, on: map<Task, Cpu>, a: Step, s': Sched)
    returns (at': map<Task, Place>, on': map<Task, Cpu>)
    requires Placed(s, at) && OnCpus(s, at, on) && Next(s, a, s')
    requires Outside(a)
    ensures Placed(s', at') && OnCpus(s', at', on') && at' == Shift(s, at, a)
  {
    at', on' := Shift(s, at, a), on;
    if a.Spawn? || a.MigrateEntry? || a.WakeEnqueue? {
      at' := ArrivalKeeps(s, at, on, a, s');
    } else if a.WakeCas? {
      CasKeeps(s, at, on, a.w, s');
    } else {
      QuietStepKeeps(s, at, on, a, s');
    }
  }

  lemma InitKeeps() returns (at: map<Task, Place>, on: map<Task, Cpu>)
    ensures Inv(InitState(), at, on)
  {
    var s := InitState();
    at, on := map[0 := AtIdle(0), 1 := AtQueue(0), 2 := AtCurrent(0)], map[2 := 0];
    forall t, p ensures Located(s, t, p) <==> t in at && at[t] == p {}
    assert OnTask(s, at, on, 2) && CoreOk(s, at, on, 0);
  }

  lemma InvIsSafe(s: Sched, at: map<Task, Place>, on: map<Task, Cpu>)
    requires Inv(s, at, on)
    ensures Safe(s)
  {
    forall t | t in s.tasks ensures exists p :: Located(s, t, p) { assert Located(s, t, at[t]); }
    ContextsSafe(s, at, on);
  }

  lemma ContextsSafe(s: Sched, at: map<Task, Place>, on: map<Task, Cpu>)
    requires Inv(s, at, on)
    ensures ContextsExclusive(s) && AssertionsHold(s)
  {
    forall c | 0 <= c < |s.cores|
      ensures s.cores[c].stack in on && on[s.cores[c].stack] == c && s.cores[c].cur in on && on[s.cores[c].cur] == c
    {
      assert CoreOk(s, at, on, c);
    }
    forall c, d | 0 <= c < |s.cores| && 0 <= d < |s.cores|
      ensures s.cores[c].pc == Switching ==> s.cores[d].stack != s.cores[c].cur
      ensures !Entering(s.cores[c].pc, s.cores[d].stack)
      ensures s.cores[c].pc == Picked(s.cores[d].stack) ==> c == d && s.cores[c].cur == s.cores[d].stack
    {
      assert CoreOk(s, at, on, c);
    }
    forall c | 0 <= c < |s.cores|
      ensures s.cores[c].pc == Run ==> s.cores[c].cur in s.tasks && s.tasks[s.cores[c].cur].state == Running
      ensures s.cores[c].pc.Picked? ==> s.cores[c].pc.next in s.tasks && s.tasks[s.cores[c].pc.next].state == Ready
    {
      assert s.cores[c].pc == Run ==> Located(s, s.cores[c].cur, AtCurrent(c));
      assert s.cores[c].pc.Picked? ==> Located(s, s.cores[c].pc.next, AtNext(c));
    }
  }

  lemma {:induction false} RunKeepsInv(states: seq<Sched>, steps: seq<Step>, i: nat)
    returns (at: map<Task, Place>, on: map<Task, Cpu>)
    requires IsRun(states, steps) && i < |states|
    ensures Inv(states[i], at, on)
  {
    if i == 0 {
      at, on := InitKeeps();
    } else {
      at, on := RunKeepsInv(states, steps, i - 1);
      assert NextAt(states, steps, i - 1);
      at, on := StepKeepsInv(states[i - 1], at, on, steps[i - 1], states[i]);
    }
  }

  /** Over every run of any number of CPUs: each task is in exactly one place, no context is
      shared, the scheduler's assertions hold, and no wake-up is lost. */
  lemma EveryRunIsSafe(states: seq<Sched>, steps: seq<Step>, i: nat)
    requires IsRun(states, steps) && i < |states|
    ensures Safe(states[i])
  {
    var at, on := RunKeepsInv(states, steps, i);
    InvIsSafe(states[i], at, on);
  }

  ghost predicate ContextSaved(s: Sched, t: Task) {
    forall d :: 0 <= d < |s.cores| ==> s.cores[d].stack != t
  }

  /** Over every run: a waker or a migration task that enqueues a task finds its context saved,
      that is, no CPU executes on it. */
  lemma EnqueuedFromOutsideIsSaved(states: seq<Sched>, steps: seq<Step>, i: nat)
    requires IsRun(states, steps) && i < |steps|
    ensures steps[i].WakeEnqueue? ==>
              steps[i].w in states[i].wakers && ContextSaved(states[i], states[i].wakers[steps[i].w].task)
    ensures steps[i].MigrateEntry? ==>
              && steps[i].c < |states[i].cores| && states[i].cores[steps[i].c].cur in states[i].holds
              && ContextSaved(states[i], states[i].holds[states[i].cores[steps[i].c].cur])
  {
    var s := states[i];
    var at, on := RunKeepsInv(states, steps, i);
    assert NextAt(states, steps, i);
    if steps[i].MigrateEntry? { MigratedTaskIsOff(s, at, on, steps[i].c); }
    if steps[i].WakeEnqueue? { assert ClearedIsOff(s, on, steps[i].w); }
    forall d | 0 <= d < |s.cores| ensures s.cores[d].stack in on && s.cores[d].stack in s.tasks {
      assert CoreOk(s, at, on, d) && OnTask(s, at, on, s.cores[d].stack);
    }
  }
}
