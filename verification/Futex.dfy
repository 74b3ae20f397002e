/** Futex wait queues: `wait_if`, `wake` and `requeue`, one queue at a time and over runs with any
    number of queues. A waiter is the waker of one `wait_if` call. */
module Futex {

  /** A 32-bit mask, as the set of its one bits. */
  type Bits = set<nat>

  datatype Entry = Entry(waiter: nat, bitset: Bits)

  type Queue = seq<Entry>

  predicate Meets(e: Entry, mask: Bits) { e.bitset * mask != {} }

  function Matching(q: Queue, mask: Bits): Queue {
    if q == [] then []
    else Matching(q[..|q| - 1], mask) + (if Meets(q[|q| - 1], mask) then [q[|q| - 1]] else [])
  }

  function Others(q: Queue, mask: Bits): Queue {
    if q == [] then []
    else Others(q[..|q| - 1], mask) + (if Meets(q[|q| - 1], mask) then [] else [q[|q| - 1]])
  }

  function Min(a: nat, b: nat): nat { if a < b then a else b }

  /** Everything before position p has been looked at with room left; the matching entries
      there are taken and the rest keeps its order. */
  ghost predicate Cut(q: Queue, count: nat, mask: Bits, p: nat, woken: Queue, kept: Queue) {
    && p <= |q| && woken == Matching(q[..p], mask) && kept == Others(q[..p], mask) + q[p..]
    && |woken| <= count && (|woken| == count || p == |q|)
  }

  ghost predicate WakeSplits(q: Queue, count: nat, mask: Bits, woken: Queue, kept: Queue) {
    exists p :: Cut(q, count, mask, p, woken, kept)
  }

  lemma Snoc(q: Queue, e: Entry, mask: Bits)
    ensures Matching(q + [e], mask) == Matching(q, mask) + (if Meets(e, mask) then [e] else [])
    ensures Others(q + [e], mask) == Others(q, mask) + (if Meets(e, mask) then [] else [e])
  {
    assert (q + [e])[..|q|] == q;
  }

  lemma {:induction false} MatchingAppend(a: Queue, b: Queue, mask: Bits)
    ensures Matching(a + b, mask) == Matching(a, mask) + Matching(b, mask)
    ensures Others(a + b, mask) == Others(a, mask) + Others(b, mask)
  {
    if b == [] {
      assert a + b == a;
    } else {
      var init, last := b[..|b| - 1], b[|b| - 1];
      assert b == init + [last] && a + b == (a + init) + [last];
      MatchingAppend(a, init, mask);
      Snoc(a + init, last, mask);
      Snoc(init, last, mask);
    }
  }

  lemma {:induction false} OthersDoNotMatch(q: Queue, mask: Bits)
    ensures Matching(Others(q, mask), mask) == [] && Others(Others(q, mask), mask) == Others(q, mask)
  {
    if q != [] {
      var init, last := q[..|q| - 1], q[|q| - 1];
      OthersDoNotMatch(init, mask);
      if Meets(last, mask) {
        assert Others(q, mask) == Others(init, mask);
      } else {
        assert Others(q, mask) == Others(init, mask) + [last];
        Snoc(Others(init, mask), last, mask);
      }
    }
  }

  /** One visit of `retain`. */
  lemma CutGrows(q: Queue, e: Entry, count: nat, mask: Bits, woken: Queue, kept: Queue)
    requires WakeSplits(q, count, mask, woken, kept)
    ensures if |woken| >= count || !Meets(e, mask) then WakeSplits(q + [e], count, mask, woken, kept + [e])
            else WakeSplits(q + [e], count, mask, woken + [e], kept)
  {
    var p: nat :| Cut(q, count, mask, p, woken, kept);
    var longer := q + [e];
    if |woken| >= count {
      assert longer[..p] == q[..p] && longer[p..] == q[p..] + [e];
      assert Cut(longer, count, mask, p, woken, kept + [e]);
    } else {
      assert q[..p] == q && longer[..p + 1] == longer;
      Snoc(q, e, mask);
      assert Cut(longer, count, mask, p + 1, if Meets(e, mask) then woken + [e] else woken,
                 if Meets(e, mask) then kept else kept + [e]);
    }
  }

  lemma KeptSplits(q: Queue, mask: Bits, p: nat)
    requires p <= |q|
    ensures Matching(Others(q[..p], mask) + q[p..], mask) == Matching(q[p..], mask)
    ensures Others(Others(q[..p], mask) + q[p..], mask) == Others(q, mask)
    ensures Matching(q, mask) == Matching(q[..p], mask) + Matching(q[p..], mask)
  {
    assert q == q[..p] + q[p..];
    MatchingAppend(q[..p], q[p..], mask);
    OthersDoNotMatch(q[..p], mask);
    MatchingAppend(Others(q[..p], mask), q[p..], mask);
  }

  /** `wake` takes exactly the first min(count, matching) waiters whose bitset meets the mask;
      the others and the remaining matching ones stay, each in their order. */
  lemma WakesTheFirst(q: Queue, count: nat, mask: Bits, woken: Queue, kept: Queue)
    requires WakeSplits(q, count, mask, woken, kept)
    ensures var all := Matching(q, mask);
            var n := Min(count, |all|);
            woken == all[..n] && Matching(kept, mask) == all[n..] && Others(kept, mask) == Others(q, mask)
  {
    var p: nat :| Cut(q, count, mask, p, woken, kept);
    KeptSplits(q, mask, p);
    if p == |q| { assert Matching(q[p..], mask) == []; }
  }

  /** Two masks meet exactly if they have a bit in common. */
  lemma MeetsMeans(e: Entry, mask: Bits)
    ensures Meets(e, mask) <==> exists b :: b in e.bitset && b in mask
  {
    if b :| b in e.bitset && b in mask { assert b in e.bitset * mask; }
    if Meets(e, mask) { var b :| b in e.bitset * mask; }
  }

  lemma {:induction false} MatchingMeet(q: Queue, mask: Bits)
    ensures forall e :: e in Matching(q, mask) ==> e in q && Meets(e, mask)
    ensures forall e :: e in Others(q, mask) ==> e in q && !Meets(e, mask)
  {
    if q != [] {
      MatchingMeet(q[..|q| - 1], mask);
      assert q == q[..|q| - 1] + [q[|q| - 1]];
    }
  }

  /** Every woken waiter has a bit in common with the mask, and a waiter that stays although the wake
      had room left has none. */
  lemma WakesOnlyMatching(q: Queue, count: nat, mask: Bits, woken: Queue, kept: Queue, e: Entry)
    requires WakeSplits(q, count, mask, woken, kept)
    ensures e in woken ==> exists b :: b in e.bitset && b in mask
    ensures e in kept && |woken| < count ==> forall b :: b in e.bitset ==> b !in mask
  {
    var p: nat :| Cut(q, count, mask, p, woken, kept);
    MatchingMeet(q[..p], mask);
    MeetsMeans(e, mask);
    if |woken| < count { assert q[p..] == []; }
  }

  /** How often e stands in a queue. */
  ghost function Times(q: Queue, e: Entry): nat { multiset(q)[e] }

  lemma TimesAppend(a: Queue, b: Queue, e: Entry)
    ensures Times(a + b, e) == Times(a, e) + Times(b, e)
  {}

  lemma {:induction false} SplitConserves(q: Queue, mask: Bits, e: Entry)
    ensures Times(q, e) == Times(Matching(q, mask), e) + Times(Others(q, mask), e)
  {
    if q != [] {
      var init, last := q[..|q| - 1], q[|q| - 1];
      SplitConserves(init, mask, e);
      assert q == init + [last];
      TimesAppend(init, [last], e);
      TimesAppend(if Meets(last, mask) then Matching(init, mask) else Others(init, mask), [last], e);
    }
  }

  lemma WakeConserves(q: Queue, count: nat, mask: Bits, woken: Queue, kept: Queue, e: Entry)
    requires WakeSplits(q, count, mask, woken, kept)
    ensures Times(q, e) == Times(woken, e) + Times(kept, e)
  {
    var p: nat :| Cut(q, count, mask, p, woken, kept);
    SplitConserves(q[..p], mask, e);
    assert q == q[..p] + q[p..];
    TimesAppend(q[..p], q[p..], e);
    TimesAppend(Others(q[..p], mask), q[p..], e);
  }

  class WaitQueue {
    var queue: Queue

    constructor ()
      ensures queue == []
    {
      queue := [];
    }

    /** The first poll of `wait_if`: the condition is read and the waiter enqueued under one lock. */
    method WaitIf(waiter: nat, bitset: Bits, condition: bool) returns (waits: bool)
      modifies this
      ensures waits == condition
      ensures queue == if condition then old(queue) + [Entry(waiter, bitset)] else old(queue)
    {
      if condition { queue := queue + [Entry(waiter, bitset)]; }
      waits := condition;
    }

    /** `wake`: `retain` visits every entry in order. */
    method Wake(count: nat, mask: Bits) returns (n: nat, woken: Queue)
      modifies this
      ensures n == |woken| == Min(count, |Matching(old(queue), mask)|)
      ensures WakeSplits(old(queue), count, mask, woken, queue)
      ensures woken == Matching(old(queue), mask)[..n]
      ensures Matching(queue, mask) == Matching(old(queue), mask)[n..]
      ensures Others(queue, mask) == Others(old(queue), mask)
    {
      var kept: Queue, i := [], 0;
      n, woken := 0, [];
      assert Cut(queue[..0], count, mask, 0, woken, kept);
      while i < |queue|
        invariant i <= |queue| && queue == old(queue) && n == |woken|
        invariant WakeSplits(queue[..i], count, mask, woken, kept)
      {
        CutGrows(queue[..i], queue[i], count, mask, woken, kept);
        assert queue[..i + 1] == queue[..i] + [queue[i]];
        if n >= count || !Meets(queue[i], mask) {
          kept := kept + [queue[i]];
        } else {
          woken, n := woken + [queue[i]], n + 1;
        }
        i := i + 1;
      }
      assert queue[..i] == queue;
      WakesTheFirst(queue, count, mask, woken, kept);
      queue := kept;
    }

    /** The first locked section of `requeue`. */
    method Drain(count: nat) returns (tasks: Queue)
      modifies this
      ensures tasks == old(queue)[..Min(count, |old(queue)|)] && queue == old(queue)[|tasks|..]
    {
      var n := Min(count, |queue|);
      tasks, queue := queue[..n], queue[n..];
    }

    /** The second locked section. */
    method Extend(tasks: Queue)
      modifies this
      ensures queue == old(queue) + tasks
    {
      queue := queue + tasks;
    }

    /** `requeue` without a step of another thread in between; requeueing a queue onto itself
        rotates it. */
    method Requeue(count: nat, target: WaitQueue) returns (n: nat)
      modifies this, target
      ensures n == Min(count, |old(queue)|)
      ensures if target == this then queue == old(queue)[n..] + old(queue)[..n]
              else queue == old(queue)[n..] && target.queue == old(target.queue) + old(queue)[..n]
    {
      var tasks := Drain(count);
      n := |tasks|;
      if tasks != [] { target.Extend(tasks); }
    }
  }

  // ---- Runs over any number of queues ----

  /** Queues with the futex word of each, and requeues between their two locked sections: the
      tasks in flight and the queue they go to. Waiters in `gone` wait no more, because of a
      timeout or a signal. */
  datatype State = State(queues: seq<Queue>, words: seq<int>, flights: seq<Queue>, targets: seq<nat>, gone: set<nat>)

  datatype Step =
    | Store(q: nat, value: int)
    | WaitIf(q: nat, waiter: nat, bitset: Bits, expected: int)
    | Wake(q: nat, count: nat, mask: Bits, woken: Queue)
    | Drain(q: nat, count: nat, target: nat)
    | Land(flight: nat)
    | GiveUp(waiter: nat)

  ghost predicate WellFormed(s: State) {
    && |s.queues| == |s.words| && |s.flights| == |s.targets|
    && forall i :: 0 <= i < |s.targets| ==> s.targets[i] < |s.queues|
  }

  ghost predicate Sleeps(s: State, a: Step) { a.WaitIf? && a.q < |s.words| && s.words[a.q] == a.expected }

  ghost predicate Next(s: State, a: Step, s': State)
    requires WellFormed(s)
  {
    match a
    case Store(q, value) => q < |s.queues| && s' == s.(words := s.words[q := value])
    case WaitIf(q, waiter, bitset, expected) =>
      && q < |s.queues|
      && s' == if s.words[q] == expected then s.(queues := s.queues[q := s.queues[q] + [Entry(waiter, bitset)]]) else s
    case Wake(q, count, mask, woken) =>
      && q < |s.queues| && |s'.queues| == |s.queues| && WakeSplits(s.queues[q], count, mask, woken, s'.queues[q])
      && s' == s.(queues := s.queues[q := s'.queues[q]])
    case Drain(q, count, target) =>
      && q < |s.queues| && target < |s.queues|
      && var n := Min(count, |s.queues[q]|);
         s' == s.(queues := s.queues[q := s.queues[q][n..]],
                  flights := s.flights + [s.queues[q][..n]], targets := s.targets + [target])
    case Land(flight) =>
      && flight < |s.flights|
      && var t := s.targets[flight];
         s' == s.(queues := s.queues[t := s.queues[t] + s.flights[flight]], flights := s.flights[flight := []])
    case GiveUp(waiter) => s' == s.(gone := s.gone + {waiter})      // the entry stays
  }

  ghost predicate IsRun(states: seq<State>, steps: seq<Step>) {
    && |states| == |steps| + 1 && states[0].flights == [] && states[0].targets == [] && states[0].gone == {}
    && (forall i :: 0 <= i < |states[0].queues| ==> states[0].queues[i] == [])
    && (forall k :: 0 <= k < |states| ==> WellFormed(states[k]))
    && (forall k :: 0 <= k < |steps| ==> Next(states[k], steps[k], states[k + 1]))
  }

  ghost function Total(qs: seq<Queue>, e: Entry): nat {
    if qs == [] then 0 else Total(qs[..|qs| - 1], e) + Times(qs[|qs| - 1], e)
  }

  lemma {:induction false} TotalUpdate(qs: seq<Queue>, i: nat, q: Queue, e: Entry)
    requires i < |qs|
    ensures Total(qs[i := q], e) + Times(qs[i], e) == Total(qs, e) + Times(q, e)
  {
    var init := qs[..|qs| - 1];
    if i < |init| {
      TotalUpdate(init, i, q, e);
      assert qs[i := q][..|qs| - 1] == init[i := q];
    } else {
      assert qs[i := q][..|qs| - 1] == init;
    }
  }

  lemma TotalAppend(qs: seq<Queue>, q: Queue, e: Entry)
    ensures Total(qs + [q], e) == Total(qs, e) + Times(q, e)
  {
    assert (qs + [q])[..|qs|] == qs;
  }

  ghost function Held(s: State, e: Entry): nat { Total(s.queues, e) + Total(s.flights, e) }

  ghost function Arrives(s: State, a: Step, e: Entry): nat {
    if Sleeps(s, a) && e == Entry(a.waiter, a.bitset) then 1 else 0
  }

  ghost function Leaves(a: Step, e: Entry): nat { if a.Wake? then Times(a.woken, e) else 0 }

  /** Every step keeps the waiters: what is held afterwards is what was held, plus the waiter
      that went to sleep, less those that were woken. */
  lemma StepConserves(s: State, a: Step, s': State, e: Entry)
    requires WellFormed(s) && Next(s, a, s')
    ensures Held(s', e) + Leaves(a, e) == Held(s, e) + Arrives(s, a, e)
  {
    match a {
      case Store(_, _) =>
      case WaitIf(q, waiter, bitset, expected) =>
        if s.words[q] == expected {
          TotalUpdate(s.queues, q, s.queues[q] + [Entry(waiter, bitset)], e);
          TimesAppend(s.queues[q], [Entry(waiter, bitset)], e);
        }
      case Wake(q, count, mask, woken) =>
        WakeConserves(s.queues[q], count, mask, woken, s'.queues[q], e);
        TotalUpdate(s.queues, q, s'.queues[q], e);
      case Drain(q, count, target) =>
        var n := Min(count, |s.queues[q]|);
        assert s.queues[q] == s.queues[q][..n] + s.queues[q][n..];
        TimesAppend(s.queues[q][..n], s.queues[q][n..], e);
        TotalUpdate(s.queues, q, s.queues[q][n..], e);
        TotalAppend(s.flights, s.queues[q][..n], e);
      case Land(flight) =>
        TimesAppend(s.queues[s.targets[flight]], s.flights[flight], e);
        TotalUpdate(s.queues, s.targets[flight], s.queues[s.targets[flight]] + s.flights[flight], e);
        TotalUpdate(s.flights, flight, [], e);
      case GiveUp(_) =>
    }
  }

  /** How often e went to sleep, and how often it was woken, in the first k steps. */
  ghost function Arrived(states: seq<State>, steps: seq<Step>, k: nat, e: Entry): nat
    requires k <= |steps| < |states|
  {
    if k == 0 then 0 else Arrived(states, steps, k - 1, e) + Arrives(states[k - 1], steps[k - 1], e)
  }

  ghost function Woken(steps: seq<Step>, k: nat, e: Entry): nat
    requires k <= |steps|
  {
    if k == 0 then 0 else Woken(steps, k - 1, e) + Leaves(steps[k - 1], e)
  }

  lemma {:induction false} TotalEmpty(qs: seq<Queue>, e: Entry)
    requires forall i :: 0 <= i < |qs| ==> qs[i] == []
    ensures Total(qs, e) == 0
  {
    if qs != [] { TotalEmpty(qs[..|qs| - 1], e); }
  }

  /** At every point of every run, the waiters that went to sleep are those woken and those held,
      each as often as it came. */
  lemma {:induction false} RunConserves(states: seq<State>, steps: seq<Step>, k: nat, e: Entry)
    requires IsRun(states, steps) && k <= |steps|
    ensures Held(states[k], e) + Woken(steps, k, e) == Arrived(states, steps, k, e)
  {
    if k == 0 {
      TotalEmpty(states[0].queues, e);
    } else {
      RunConserves(states, steps, k - 1, e);
      assert Next(states[k - 1], steps[k - 1], states[k - 1 + 1]);
      StepConserves(states[k - 1], steps[k - 1], states[k], e);
    }
  }

  lemma {:induction false} InOneOf(qs: seq<Queue>, e: Entry) returns (i: nat)
    requires Total(qs, e) == 1
    ensures i < |qs| && Times(qs[i], e) == 1
    ensures forall j :: 0 <= j < |qs| && j != i ==> e !in qs[j]
  {
    var init := qs[..|qs| - 1];
    if Times(qs[|qs| - 1], e) == 1 {
      i := |qs| - 1;
      NoneIn(init, e);
    } else {
      i := InOneOf(init, e);
      assert e !in qs[|qs| - 1];
    }
  }

  lemma {:induction false} NoneIn(qs: seq<Queue>, e: Entry)
    requires Total(qs, e) == 0
    ensures forall j :: 0 <= j < |qs| ==> e !in qs[j]
  {
    if qs != [] {
      NoneIn(qs[..|qs| - 1], e);
      assert e !in qs[|qs| - 1];
    }
  }

  /** A waiter that slept once and has not been woken is in exactly one queue or one requeue in
      flight, and there exactly once. */
  lemma WaiterIsInOnePlace(states: seq<State>, steps: seq<Step>, k: nat, e: Entry) returns (queued: bool, i: nat)
    requires IsRun(states, steps) && k <= |steps|
    requires Arrived(states, steps, k, e) == 1 && Woken(steps, k, e) == 0
    ensures var (here, there) :=
              if queued then (states[k].queues, states[k].flights) else (states[k].flights, states[k].queues);
            && i < |here| && Times(here[i], e) == 1
            && (forall j :: 0 <= j < |here| && j != i ==> e !in here[j])
            && (forall j :: 0 <= j < |there| ==> e !in there[j])
  {
    RunConserves(states, steps, k, e);
    queued := Total(states[k].queues, e) == 1;
    if queued {
      i := InOneOf(states[k].queues, e);
      NoneIn(states[k].flights, e);
    } else {
      i := InOneOf(states[k].flights, e);
      NoneIn(states[k].queues, e);
    }
  }

  /** Over every run: a futex word holds what was stored last. */
  lemma {:induction false} WordIsLastStored(states: seq<State>, steps: seq<Step>, i: nat, k: nat, q: nat, value: int)
    requires IsRun(states, steps) && i < k <= |steps| && steps[i] == Store(q, value)
    requires forall j :: i < j < k && steps[j].Store? ==> steps[j].q != q
    ensures q < |states[k].words| && states[k].words[q] == value
    decreases k
  {
    if i + 1 < k { WordIsLastStored(states, steps, i, k - 1, q, value); }
    assert Next(states[k - 1], steps[k - 1], states[k - 1 + 1]);
  }

  /** Over every run: what a requeue has taken is on its way, unchanged, until it lands. */
  lemma {:induction false} FlightIsKept(states: seq<State>, steps: seq<Step>, i: nat, k: nat)
    requires IsRun(states, steps) && i < k <= |steps| && steps[i].Drain?
    requires forall j :: i < j < k ==> steps[j] != Land(|states[i].flights|)
    ensures var f, q := |states[i].flights|, steps[i].q;
            && q < |states[i].queues| && f < |states[k].flights| && states[k].targets[f] == steps[i].target
            && states[k].flights[f] == states[i].queues[q][..Min(steps[i].count, |states[i].queues[q]|)]
    decreases k
  {
    if i + 1 < k { FlightIsKept(states, steps, i, k - 1); }
    assert Next(states[k - 1], steps[k - 1], states[k - 1 + 1]);
  }

  /** And it lands at the end of the target's queue, in order. */
  lemma RequeueArrives(states: seq<State>, steps: seq<Step>, i: nat, k: nat)
    requires IsRun(states, steps) && i < k < |steps| && steps[i].Drain? && steps[k] == Land(|states[i].flights|)
    requires forall j :: i < j < k ==> steps[j] != Land(|states[i].flights|)
    ensures var q, t := steps[i].q, steps[i].target;
            && q < |states[i].queues| && t < |states[k].queues| && t < |states[k + 1].queues|
            && states[k + 1].queues[t] ==
                 states[k].queues[t] + states[i].queues[q][..Min(steps[i].count, |states[i].queues[q]|)]
  {
    FlightIsKept(states, steps, i, k);
    assert Next(states[k], steps[k], states[k + 1]);
  }

  /** Step `a` takes e out of queue q: a wake wakes it, or a requeue reaches it. */
  ghost predicate Takes(s: State, a: Step, q: nat, e: Entry) {
    || (a.Wake? && a.q == q && e in a.woken)
    || (a.Drain? && a.q == q < |s.queues| && e in s.queues[q][..Min(a.count, |s.queues[q]|)])
  }

  lemma StaysInQueue(s: State, a: Step, s': State, q: nat, e: Entry)
    requires WellFormed(s) && Next(s, a, s') && q < |s.queues| && e in s.queues[q] && !Takes(s, a, q, e)
    ensures q < |s'.queues| && e in s'.queues[q]
  {
    if a.Wake? && a.q == q {
      WakeConserves(s.queues[q], a.count, a.mask, a.woken, s'.queues[q], e);
      assert Times(s.queues[q], e) > 0 && Times(a.woken, e) == 0;
    }
  }

  lemma {:induction false} StaysUntil(states: seq<State>, steps: seq<Step>, i: nat, k: nat, q: nat, e: Entry)
    requires IsRun(states, steps) && i <= k <= |steps| && q < |states[i].queues| && e in states[i].queues[q]
    requires forall m :: i <= m < k ==> !Takes(states[m], steps[m], q, e)
    ensures q < |states[k].queues| && e in states[k].queues[q]
    decreases k
  {
    if i < k {
      StaysUntil(states, steps, i, k - 1, q, e);
      assert Next(states[k - 1], steps[k - 1], states[k - 1 + 1]);
      StaysInQueue(states[k - 1], steps[k - 1], states[k], q, e);
    }
  }

  lemma WokenIfSeen(q: Queue, count: nat, mask: Bits, woken: Queue, kept: Queue, e: Entry)
    requires WakeSplits(q, count, mask, woken, kept) && e in q && Meets(e, mask)
    ensures e in woken || |woken| == count
  {
    WakesTheFirst(q, count, mask, woken, kept);
    SplitConserves(q, mask, e);
    OthersNeverMeet(q, mask);
    assert Times(q, e) > 0 && Times(Others(q, mask), e) == 0;
    assert e in Matching(q, mask);
  }

  lemma {:induction false} OthersNeverMeet(q: Queue, mask: Bits)
    ensures forall e :: e in Others(q, mask) ==> !Meets(e, mask)
  {
    if q != [] { OthersNeverMeet(q[..|q| - 1], mask); }
  }

  /** The futex promise. The word changes in step j and is `expected` no more; step k wakes. A
      waiter whose step i found the word still `expected` came before the change, and unless it
      was woken earlier or a requeue took it, the wake reaches it, or spends its whole count on
      others. */
  lemma NoLostWakeup(states: seq<State>, steps: seq<Step>, i: nat, j: nat, k: nat)
    requires IsRun(states, steps) && i < |steps| && j < k < |steps| && i < k
    requires steps[i].WaitIf? && Sleeps(states[i], steps[i])
    requires forall m :: j < m < k ==>
               steps[i].q < |states[m].words| && states[m].words[steps[i].q] != steps[i].expected
    requires steps[k].Wake? && steps[k].q == steps[i].q && steps[i].bitset * steps[k].mask != {}
    requires forall m :: i < m < k ==> !Takes(states[m], steps[m], steps[i].q, Entry(steps[i].waiter, steps[i].bitset))
    ensures i <= j
    ensures Entry(steps[i].waiter, steps[i].bitset) in steps[k].woken || |steps[k].woken| == steps[k].count
  {
    var q, e := steps[i].q, Entry(steps[i].waiter, steps[i].bitset);
    assert Next(states[i], steps[i], states[i + 1]);
    assert e in states[i + 1].queues[q];
    StaysUntil(states, steps, i + 1, k, q, e);
    assert Next(states[k], steps[k], states[k + 1]);
    WokenIfSeen(states[k].queues[q], steps[k].count, steps[k].mask, steps[k].woken, states[k + 1].queues[q], e);
  }

  // ---- Waiters that have given up ----

  /** How many entries belong to waiters that still wait. */
  ghost function StillWaiting(q: Queue, gone: set<nat>): nat {
    if q == [] then 0 else StillWaiting(q[..|q| - 1], gone) + if q[|q| - 1].waiter in gone then 0 else 1
  }

  ghost predicate NoneGone(q: Queue, gone: set<nat>) { forall e :: e in q ==> e.waiter !in gone }
  ghost predicate AllGone(q: Queue, gone: set<nat>) { forall e :: e in q ==> e.waiter in gone }

  lemma {:induction false} StillWaitingAppend(a: Queue, b: Queue, gone: set<nat>)
    ensures StillWaiting(a + b, gone) == StillWaiting(a, gone) + StillWaiting(b, gone)
  {
    if b == [] {
      assert a + b == a;
    } else {
      StillWaitingAppend(a, b[..|b| - 1], gone);
      assert (a + b)[..|a + b| - 1] == a + b[..|b| - 1];
    }
  }

  lemma {:induction false} StillWaitingBounds(q: Queue, gone: set<nat>)
    ensures StillWaiting(q, gone) <= |q|
    ensures StillWaiting(q, gone) == |q| <==> NoneGone(q, gone)
    ensures StillWaiting(q, gone) == 0 <==> AllGone(q, gone)
  {
    if q != [] {
      StillWaitingBounds(q[..|q| - 1], gone);
      assert q == q[..|q| - 1] + [q[|q| - 1]] && q[|q| - 1] in q;
      assert forall e :: e in q <==> e in q[..|q| - 1] || e == q[|q| - 1];
    }
  }

  /** A wake reaches as many waiters that still wait as it may, exactly when it spends nothing on
      waiters that have given up, or leaves none behind that still wait. */
  lemma WakeIsWellSpentIff(q: Queue, count: nat, mask: Bits, woken: Queue, kept: Queue, gone: set<nat>)
    requires WakeSplits(q, count, mask, woken, kept)
    ensures StillWaiting(woken, gone) == Min(count, StillWaiting(Matching(q, mask), gone)) <==>
              NoneGone(woken, gone) || AllGone(Matching(kept, mask), gone)
  {
    WakesTheFirst(q, count, mask, woken, kept);
    var all := Matching(q, mask);
    assert all == woken + Matching(kept, mask);
    StillWaitingAppend(woken, Matching(kept, mask), gone);
    StillWaitingBounds(woken, gone);
    StillWaitingBounds(Matching(kept, mask), gone);
  }

  /** Waiter 0 has given up, waiter 1 waits behind it. */
  lemma OneGoneOneWaiting() returns (states: seq<State>, steps: seq<Step>)
    ensures IsRun(states, steps) && |steps| == 3
    ensures states[3] == State([[Entry(0, {0}), Entry(1, {0})]], [7], [], [], {0})
  {
    var s := State([[]], [7], [], [], {});
    states, steps := [s], [];
    var e0, e1 := Entry(0, {0}), Entry(1, {0});
    s := s.(queues := s.queues[0 := s.queues[0] + [e0]]);
    RunGrows(states, steps, WaitIf(0, 0, {0}, 7), s);
    states, steps := states + [s], steps + [WaitIf(0, 0, {0}, 7)];
    s := s.(gone := s.gone + {0});
    RunGrows(states, steps, GiveUp(0), s);
    states, steps := states + [s], steps + [GiveUp(0)];
    s := s.(queues := s.queues[0 := s.queues[0] + [e1]]);
    RunGrows(states, steps, WaitIf(0, 1, {0}, 7), s);
    states, steps := states + [s], steps + [WaitIf(0, 1, {0}, 7)];
    assert s.queues[0] == [e0, e1];
  }

  /** A run in which a wake of one is spent on a waiter that has given up, while another waits. */
  lemma WakeCanBeSpentInVain() returns (states: seq<State>, steps: seq<Step>)
    ensures IsRun(states, steps) && |steps| == 4 && steps[3] == Wake(0, 1, {0}, [Entry(0, {0})])
    ensures 0 in states[3].gone && 1 !in states[3].gone && states[4].queues[0] == [Entry(1, {0})]
  {
    states, steps := OneGoneOneWaiting();
    var e0, e1 := Entry(0, {0}), Entry(1, {0});
    var s := states[3].(queues := states[3].queues[0 := [e1]]);
    assert Cut([e0, e1], 1, {0}, 1, [e0], [e1]) by {
      assert 0 in e0.bitset * {0} && [e0, e1][..1] == [] + [e0] && [e0, e1][1..] == [e1];
      Snoc([], e0, {0});
    }
    RunGrows(states, steps, Wake(0, 1, {0}, [e0]), s);
    states, steps := states + [s], steps + [Wake(0, 1, {0}, [e0])];
  }

  // ---- The queue objects take these steps ----

  datatype Call =
    | CallStore(q: nat, value: int)
    | CallWait(q: nat, waiter: nat, bitset: Bits, expected: int)
    | CallWake(q: nat, count: nat, mask: Bits)
    | CallDrain(q: nat, count: nat, target: nat)
    | CallLand(flight: nat)
    | CallGiveUp(waiter: nat)

  /** Calls on existing queues and on requeues that have begun. */
  predicate Possible(c: Call, n: nat, flights: nat) {
    if c.CallLand? then c.flight < flights
    else c.CallGiveUp? || (c.q < n && (c.CallDrain? ==> c.target < n))
  }

  /** The queues of the objects are those of the state. */
  ghost predicate Shows(qs: seq<WaitQueue>, s: State) reads qs {
    |s.queues| == |qs| && forall i :: 0 <= i < |qs| ==> s.queues[i] == qs[i].queue
  }

  ghost predicate Distinct(qs: seq<WaitQueue>) {
    forall i, j :: 0 <= i < j < |qs| ==> qs[i] != qs[j]
  }

  method NewQueues(n: nat) returns (qs: seq<WaitQueue>)
    ensures |qs| == n && Distinct(qs) && forall i :: 0 <= i < n ==> fresh(qs[i]) && qs[i].queue == []
  {
    qs := [];
    for k := 0 to n
      invariant |qs| == k && Distinct(qs) && forall i :: 0 <= i < k ==> fresh(qs[i]) && qs[i].queue == []
    {
      var q := new WaitQueue();
      qs := qs + [q];
    }
  }

  /** One locked section, or a store to a futex word, is one step of the run. */
  method Perform(qs: seq<WaitQueue>, s: State, c: Call) returns (a: Step, s': State)
    requires WellFormed(s) && Shows(qs, s) && Distinct(qs)
    requires Possible(c, |qs|, |s.flights|)
    modifies qs
    ensures WellFormed(s') && Next(s, a, s') && Shows(qs, s')
    ensures match c
            case CallStore(q, value) => a == Store(q, value)
            case CallWait(q, waiter, bitset, expected) => a == WaitIf(q, waiter, bitset, expected)
            case CallWake(q, count, mask) => a.Wake? && a.q == q && a.count == count && a.mask == mask
            case CallDrain(q, count, target) => a == Drain(q, count, target)
            case CallLand(flight) => a == Land(flight)
            case CallGiveUp(waiter) => a == GiveUp(waiter)
  {
    match c {
      case CallStore(q, value) =>
        a, s' := Store(q, value), s.(words := s.words[q := value]);
      case CallWait(q, waiter, bitset, expected) =>
        var waits := qs[q].WaitIf(waiter, bitset, s.words[q] == expected);
        a, s' := WaitIf(q, waiter, bitset, expected), s.(queues := s.queues[q := qs[q].queue]);
        assert !waits ==> s' == s;
      case CallWake(q, count, mask) =>
        var n, woken := qs[q].Wake(count, mask);
        a, s' := Wake(q, count, mask, woken), s.(queues := s.queues[q := qs[q].queue]);
      case CallDrain(q, count, target) =>
        var tasks := qs[q].Drain(count);
        a := Drain(q, count, target);
        s' := s.(queues := s.queues[q := qs[q].queue], flights := s.flights + [tasks], targets := s.targets + [target]);
      case CallLand(flight) =>
        var t := s.targets[flight];
        qs[t].Extend(s.flights[flight]);
        a, s' := Land(flight), s.(queues := s.queues[t := qs[t].queue], flights := s.flights[flight := []]);
      case CallGiveUp(waiter) =>
        a, s' := GiveUp(waiter), s.(gone := s.gone + {waiter});
    }
  }

  /** Any calls on any number of queue objects make a run, so what is proved of runs holds of
      them: at the end each waiter that went to sleep was woken or is still held. */
  method Session(words: seq<int>, calls: seq<Call>) returns (qs: seq<WaitQueue>, states: seq<State>, steps: seq<Step>)
    ensures IsRun(states, steps) && Shows(qs, states[|steps|])
    ensures forall e :: Held(states[|steps|], e) + Woken(steps, |steps|, e) == Arrived(states, steps, |steps|, e)
  {
    qs := NewQueues(|words|);
    var s := State(seq(|words|, _ => []), words, [], [], {});
    states, steps := [s], [];
    for k := 0 to |calls|
      invariant |qs| == |words| && Distinct(qs) && forall i :: 0 <= i < |qs| ==> fresh(qs[i])
      invariant IsRun(states, steps) && s == states[|steps|] && Shows(qs, s)
    {
      if Possible(calls[k], |qs|, |s.flights|) {
        var a;
        a, s := Perform(qs, s, calls[k]);
        RunGrows(states, steps, a, s);
        states, steps := states + [s], steps + [a];
      }
    }
    forall e ensures Held(states[|steps|], e) + Woken(steps, |steps|, e) == Arrived(states, steps, |steps|, e) {
      RunConserves(states, steps, |steps|, e);
    }
  }

  lemma RunGrows(states: seq<State>, steps: seq<Step>, a: Step, s: State)
    requires IsRun(states, steps) && WellFormed(s) && Next(states[|steps|], a, s)
    ensures IsRun(states + [s], steps + [a])
  {
    var states', steps' := states + [s], steps + [a];
    forall k | 0 <= k < |steps'| ensures Next(states'[k], steps'[k], states'[k + 1]) {
      if k < |steps| { assert Next(states[k], steps[k], states[k + 1]); }
    }
  }
}
