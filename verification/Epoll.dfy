/** The ready queue of an epoll instance: interests, the flag that says an interest is queued, and
    delivery by `poll_events`. Each operation is one atomic step. A queue reference is weak: it
    may outlive its interest. */
module Epoll {

  type EventSet = set<nat>

  datatype EpollEvent = EpollEvent(events: EventSet, data: nat)

  datatype TriggerMode = Level | Edge | OneShot(fired: bool)

  function FromFlags(oneShot: bool, edge: bool): TriggerMode {
    if oneShot then OneShot(false) else if edge then Edge else Level
  }

  function ShouldNotify(mode: TriggerMode): (bool, TriggerMode) {
    match mode
    case Level => (true, Level)
    case Edge => (true, Edge)
    case OneShot(fired) => if fired then (false, mode) else (true, OneShot(true))
  }

  /** The file descriptor and the file it stood for when the interest was added. */
  datatype Key = Key(fd: int, file: nat)

  datatype Interest = Interest(key: Key, event: EpollEvent, mode: TriggerMode, inQueue: bool)

  datatype Consumed = EventAndKeep(event: EpollEvent) | EventAndRemove(event: EpollEvent) | NoEvent

  /** `EpollInterest::consume`, with the trigger mode it leaves behind. */
  function Consume(i: Interest, current: EventSet): (Consumed, TriggerMode) {
    var matched := current * i.event.events;
    if matched == {} then (NoEvent, i.mode)
    else
      var (notify, mode) := ShouldNotify(i.mode);
      if !notify then (NoEvent, mode)
      else
        var event := EpollEvent(matched, i.event.data);
        (if mode.Level? then EventAndKeep(event) else EventAndRemove(event), mode)
  }

  /** What the trigger modes mean to the user: an event is reported exactly when the file is ready
      for something asked for and the interest is not a one-shot that has fired; a level-triggered
      interest stays queued; after its event a one-shot reports nothing more, while the others
      report again whenever the file is ready. */
  lemma ConsumeTwice(i: Interest, now: EventSet, later: EventSet)
    ensures var (first, mode) := Consume(i, now);
            var (second, _) := Consume(i.(mode := mode), later);
            && (first == NoEvent <==> now * i.event.events == {} || i.mode == OneShot(true))
            && (first != NoEvent ==> first.event == EpollEvent(now * i.event.events, i.event.data))
            && (first.EventAndKeep? <==> i.mode == Level && now * i.event.events != {})
            && (first != NoEvent && i.mode.OneShot? ==> second == NoEvent)
            && (!i.mode.OneShot? ==> (second == NoEvent <==> later * i.event.events == {}))
  {}

  /** What looking at the file of a popped interest finds. */
  datatype Glance = Closed | Polled(current: EventSet)

  datatype Record =
    | Added(id: nat, oneShot: bool, edge: bool)
    | Deleted(id: nat)                              // by `delete`, or because the file is closed
    | Delivered(id: nat, event: EpollEvent)
    | NotReady(id: nat)                             // popped, looked at, nothing to report

  // ---- What a history of records promises ----

  ghost predicate DeletedIsSilent(log: seq<Record>) {
    forall i, j :: 0 <= i < j < |log| && log[i].Deleted? && log[j].Delivered? ==> log[i].id != log[j].id
  }

  /** How an interest was asked for, in the flags of its registration. */
  ghost predicate IsOneShot(log: seq<Record>, id: nat) { Added(id, true, false) in log || Added(id, true, true) in log }

  ghost predicate IsLevel(log: seq<Record>, id: nat) { Added(id, false, false) in log }

  ghost predicate OneShotFiresOnce(log: seq<Record>) {
    forall i, j :: 0 <= i < j < |log| && log[i].Delivered? && log[j].Delivered? && log[i].id == log[j].id ==>
      !IsOneShot(log, log[i].id)
  }

  ghost predicate HasFired(log: seq<Record>, id: nat) { exists e :: Delivered(id, e) in log }

  lemma AppendQuiet(log: seq<Record>, r: Record)
    requires DeletedIsSilent(log) && OneShotFiresOnce(log) && !r.Delivered?
    requires r.Added? ==> !HasFired(log, r.id)
    ensures DeletedIsSilent(log + [r]) && OneShotFiresOnce(log + [r])
  {
    var longer := log + [r];
    forall i, j | 0 <= i < j < |longer| && longer[i].Delivered? && longer[j].Delivered? && longer[i].id == longer[j].id
      ensures !IsOneShot(longer, longer[i].id)
    {
      assert Delivered(log[i].id, log[i].event) in log;
    }
  }

  lemma AppendDelivery(log: seq<Record>, id: nat, e: EpollEvent)
    requires DeletedIsSilent(log) && OneShotFiresOnce(log) && Deleted(id) !in log
    requires IsOneShot(log, id) ==> !HasFired(log, id)
    ensures DeletedIsSilent(log + [Delivered(id, e)]) && OneShotFiresOnce(log + [Delivered(id, e)])
  {
    var longer := log + [Delivered(id, e)];
    forall i, j | 0 <= i < j < |longer| && longer[i].Delivered? && longer[j].Delivered? && longer[i].id == longer[j].id
      ensures !IsOneShot(longer, longer[i].id)
    {
      if j == |log| { assert Delivered(log[i].id, log[i].event) in log; }
    }
  }

  /** The record agrees with the trigger mode of a live interest. */
  ghost predicate Recorded(log: seq<Record>, mode: TriggerMode, id: nat) {
    && Deleted(id) !in log
    && (IsOneShot(log, id) <==> mode.OneShot?) && (IsLevel(log, id) <==> mode.Level?)
    && (HasFired(log, id) && mode.OneShot? ==> mode.fired)
  }

  lemma StillRecorded(log: seq<Record>, mode: TriggerMode, id: nat, r: Record)
    requires Recorded(log, mode, id) && (r.id != id || r.NotReady?)
    ensures Recorded(log + [r], mode, id)
  {
    assert HasFired(log + [r], id) ==> HasFired(log, id);
  }

  // ---- The queue and the flags ----

  ghost predicate FlagAgrees(objs: map<nat, Interest>, queue: seq<nat>, id: nat)
    requires id in objs
  {
    multiset(queue)[id] == if objs[id].inQueue then 1 else 0
  }

  /** A live interest's flag is set exactly when the queue holds one reference to it. */
  ghost predicate FlagsAgree(objs: map<nat, Interest>, queue: seq<nat>) {
    forall id {:trigger FlagAgrees(objs, queue, id)} :: id in objs ==> FlagAgrees(objs, queue, id)
  }

  lemma PopFront(objs: map<nat, Interest>, queue: seq<nat>)
    requires FlagsAgree(objs, queue) && |queue| > 0
    ensures queue[0] in objs ==> objs[queue[0]].inQueue
    ensures forall id :: id in objs && id != queue[0] ==> FlagAgrees(objs, queue[1..], id)
    ensures queue[0] in objs ==> multiset(queue[1..])[queue[0]] == 0
  {
    assert queue == [queue[0]] + queue[1..];
    forall id | id in objs ensures id != queue[0] ==> FlagAgrees(objs, queue[1..], id)
      ensures id == queue[0] ==> objs[id].inQueue && multiset(queue[1..])[id] == 0
    {
      assert FlagAgrees(objs, queue, id);
    }
  }

  ghost predicate Historic(objs: map<nat, Interest>, log: seq<Record>, nextId: nat) {
    && DeletedIsSilent(log) && OneShotFiresOnce(log)
    && (forall i :: 0 <= i < |log| ==> log[i].id < nextId)
    && (forall id {:trigger Recorded(log, objs[id].mode, id)} :: id in objs ==> Recorded(log, objs[id].mode, id))
  }

  /** Interest `id` turned from objs[id] into `after` when it was looked at, and `entry` says so. */
  ghost predicate Follows(objs: map<nat, Interest>, id: nat, after: Interest, entry: Record) {
    && id in objs && entry.id == id && after.key == objs[id].key
    && (after.mode.OneShot? <==> objs[id].mode.OneShot?) && (after.mode.Level? <==> objs[id].mode.Level?)
    && (if entry.Delivered? then after.mode.OneShot? ==> after.mode.fired && !objs[id].mode.fired
        else entry.NotReady? && after.mode == objs[id].mode)
  }

  lemma HistoryGoesOn(objs: map<nat, Interest>, log: seq<Record>, nextId: nat, id: nat, after: Interest, entry: Record)
    requires Historic(objs, log, nextId) && id < nextId && Follows(objs, id, after, entry)
    ensures Historic(objs[id := after], log + [entry], nextId)
  {
    assert Recorded(log, objs[id].mode, id);
    if entry.Delivered? { AppendDelivery(log, id, entry.event); } else { AppendQuiet(log, entry); }
    forall x | x in objs ensures Recorded(log + [entry], objs[id := after][x].mode, x) {
      assert Recorded(log, objs[x].mode, x);
      if x != id || entry.NotReady? { StillRecorded(log, objs[x].mode, x, entry); }
    }
  }

  lemma FlagsGoOn(objs: map<nat, Interest>, queue: seq<nat>, id: nat, after: Interest)
    requires id in objs && multiset(queue)[id] == 0
    requires forall x :: x in objs && x != id ==> FlagAgrees(objs, queue, x)
    ensures FlagsAgree(objs[id := after], if after.inQueue then queue + [id] else queue)
  {
    var queue' := if after.inQueue then queue + [id] else queue;
    forall x | x in objs ensures FlagAgrees(objs[id := after], queue', x) {
      if x != id { assert FlagAgrees(objs, queue, x); }
    }
  }

  // ---- What the flags of a registration mean for delivery ----

  /** Same key, same events and data. */
  ghost predicate SameAsk(i: Interest, j: Interest) { i.key == j.key && i.event == j.event }

  ghost predicate SameAsks(objs: map<nat, Interest>, objs0: map<nat, Interest>) {
    forall id :: id in objs ==> id in objs0 && objs[id].key == objs0[id].key && objs[id].event == objs0[id].event
  }

  ghost predicate IsQueued(objs: map<nat, Interest>, id: nat) { id in objs && objs[id].inQueue }

  /** Interest id is not a one-shot that has fired, and a look at its file finds what it asks for. */
  ghost predicate Ready(objs: map<nat, Interest>, id: nat, glance: Glance) {
    && id in objs && objs[id].mode != OneShot(true)
    && glance.Polled? && glance.current * objs[id].event.events != {}
  }

  ghost predicate AlwaysReady(objs: map<nat, Interest>, id: nat, glances: (nat, nat) -> Glance) {
    IsQueued(objs, id) && forall k {:trigger glances(k, id)} :: Ready(objs, id, glances(k, id))
  }

  /** One round took the front of the queue and, if `hit`, delivered it. A willing interest with a
      ready file is delivered; a delivered one is queued again exactly if it was registered with
      neither flag. */
  ghost predicate Rounded(objs: map<nat, Interest>, queue: seq<nat>, log: seq<Record>, glance: Glance,
                          objs': map<nat, Interest>, queue': seq<nat>, more: seq<Record>, hit: bool)
    requires queue != []
  {
    var id := queue[0];
    && queue[1..] <= queue' && (id in objs ==> objs[id].inQueue)
    && (Ready(objs, id, glance) ==> hit)
    && (if hit then id in objs && |more| == 1 && more[0].Delivered? && more[0].id == id
        else |more| <= 1 && (more == [] || !more[0].Delivered?))
    && (hit ==> id in objs' && (objs'[id].inQueue <==> IsLevel(log, id)))
    && (hit && IsLevel(log, id) ==> objs'[id].mode == Level)
    && (id in objs' ==> id in objs && SameAsk(objs'[id], objs[id]))
    && (forall x :: x != id ==> (x in objs' <==> x in objs) && (x in objs' ==> objs'[x] == objs[x]))
    && (more != [] ==> !more[0].Added?)
  }

  /** Interest id has had its event, or is still ready with a slot left for it. */
  ghost predicate Served(objs: map<nat, Interest>, queue: seq<nat>, id: nat, glances: (nat, nat) -> Glance,
                         news: seq<Record>, count: nat, slots: nat)
  {
    || DeliveredIn(news, id)
    || (AlwaysReady(objs, id, glances) && exists p :: 0 <= p < |queue| && queue[p] == id && count + p < slots)
  }

  /** Interest id stays ready if it was registered with neither flag, and is out of the queue after
      its event otherwise. */
  ghost predicate Obeys(objs: map<nat, Interest>, log: seq<Record>, id: nat, glances: (nat, nat) -> Glance,
                        news: seq<Record>)
  {
    && (IsLevel(log, id) || !DeliveredIn(news, id) ==> AlwaysReady(objs, id, glances))
    && (!IsLevel(log, id) && DeliveredIn(news, id) ==> id in objs && !objs[id].inQueue)
  }

  /** Where a call of `poll_events` stands that began with the interests `was`. */
  ghost predicate Polling(was: map<nat, Interest>, room: bool, objs: map<nat, Interest>, queue: seq<nat>,
                          log: seq<Record>, glances: (nat, nat) -> Glance, news: seq<Record>, count: nat, slots: nat)
  {
    && SameAsks(objs, was)
    && (forall id {:trigger AlwaysReady(was, id, glances)} :: AlwaysReady(was, id, glances) ==>
          Obeys(objs, log, id, glances, news) && (room ==> Served(objs, queue, id, glances, news, count, slots)))
  }

  lemma ObeysNext(objs: map<nat, Interest>, queue: seq<nat>, log: seq<Record>, glances: (nat, nat) -> Glance, k: nat,
                  objs': map<nat, Interest>, queue': seq<nat>, more: seq<Record>, hit: bool, id: nat, news: seq<Record>)
    requires queue != [] && Rounded(objs, queue, log, glances(k, queue[0]), objs', queue', more, hit)
    requires Obeys(objs, log, id, glances, news)
    ensures Obeys(objs', log + more, id, glances, news + more)
  {
    DeliveredSplit(news, more, id);
    assert IsLevel(log + more, id) <==> IsLevel(log, id);
    if AlwaysReady(objs, id, glances) && id == queue[0] {
      assert Ready(objs, id, glances(k, id));
      forall n ensures IsLevel(log, id) ==> Ready(objs', id, glances(n, id)) { assert Ready(objs, id, glances(n, id)); }
    } else if AlwaysReady(objs, id, glances) {
      forall n ensures Ready(objs', id, glances(n, id)) { assert Ready(objs, id, glances(n, id)); }
    }
  }

  lemma ServedNext(objs: map<nat, Interest>, queue: seq<nat>, log: seq<Record>, glances: (nat, nat) -> Glance, k: nat,
                   objs': map<nat, Interest>, queue': seq<nat>, more: seq<Record>, hit: bool, id: nat,
                   news: seq<Record>, count: nat, slots: nat)
    requires queue != [] && Rounded(objs, queue, log, glances(k, queue[0]), objs', queue', more, hit)
    requires Served(objs, queue, id, glances, news, count, slots)
    ensures Served(objs', queue', id, glances, news + more, if hit then count + 1 else count, slots)
  {
    DeliveredSplit(news, more, id);
    if !DeliveredIn(news, id) {
      if id == queue[0] {
        assert Ready(objs, id, glances(k, id));
      } else {
        var p :| 0 <= p < |queue| && queue[p] == id && count + p < slots;
        assert queue[1..][p - 1] == id && queue'[p - 1] == id;
        forall n ensures Ready(objs', id, glances(n, id)) { assert Ready(objs, id, glances(n, id)); }
      }
    }
  }

  ghost predicate DeliveredIn(log: seq<Record>, id: nat) {
    exists i :: 0 <= i < |log| && log[i].Delivered? && log[i].id == id
  }

  lemma DeliveredSplit(log: seq<Record>, more: seq<Record>, id: nat)
    ensures DeliveredIn(log + more, id) <==> DeliveredIn(log, id) || DeliveredIn(more, id)
  {
    var all := log + more;
    if i :| 0 <= i < |log| && log[i].Delivered? && log[i].id == id { assert all[i] == log[i]; }
    if i :| 0 <= i < |more| && more[i].Delivered? && more[i].id == id { assert all[|log| + i] == more[i]; }
  }

  datatype PollResult = Ok(count: nat) | WouldBlock

  datatype AddResult = Registered | AlreadyExists

  class EpollInstance {
    var interests: map<Key, nat>
    var objs: map<nat, Interest>          // the interests still alive
    var queue: seq<nat>                   // weak references
    var nextId: nat
    ghost var log: seq<Record>

    ghost predicate Tables() reads this {
      && (forall k :: k in interests ==> interests[k] in objs && objs[interests[k]].key == k)
      && (forall id :: id in objs ==> objs[id].key in interests && interests[objs[id].key] == id)
      && (forall id :: id in objs ==> id < nextId) && (forall id :: id in queue ==> id < nextId)
    }

    ghost predicate History() reads this { Historic(objs, log, nextId) }

    ghost predicate Valid() reads this { Tables() && FlagsAgree(objs, queue) && History() }

    constructor ()
      ensures Valid() && log == [] && queue == [] && interests == map[] && objs == map[] && nextId == 0
    {
      interests, objs, queue, nextId, log := map[], map[], [], 0, [];
    }

    /** `InterestWaker::wake_by_ref`: nothing for a dropped interest, and at most one reference. */
    method Wake(id: nat)
      requires Valid()
      modifies `objs, `queue
      ensures Valid()
      ensures queue == if id in old(objs) && !old(objs)[id].inQueue then old(queue) + [id] else old(queue)
      ensures objs == if id in old(objs) then old(objs)[id := old(objs)[id].(inQueue := true)] else old(objs)
    {
      if id in objs && !objs[id].inQueue {
        ghost var before := objs;
        objs := objs[id := objs[id].(inQueue := true)];
        queue := queue + [id];
        forall x | x in objs ensures FlagAgrees(objs, queue, x) && Recorded(log, objs[x].mode, x) {
          assert FlagAgrees(before, old(queue), x) && Recorded(log, before[x].mode, x);
        }
      } else if id in objs {
        assert objs[id := objs[id].(inQueue := true)] == objs;
      }
    }

    /** The interest is gone and only this record was added. */
    ghost predicate Forgotten(objs0: map<nat, Interest>, log0: seq<Record>, id: nat) reads this {
      objs == objs0 - {id} && log == log0 + [Deleted(id)]
    }

    /** Dropping the table's reference ends the interest; weak references stay in the queue. */
    method Remove(id: nat)
      requires Tables() && History() && id in objs
      requires forall x :: x in objs && x != id ==> FlagAgrees(objs, queue, x)
      modifies `interests, `objs, `log
      ensures Valid() && Forgotten(old(objs), old(log), id) && interests == old(interests) - {old(objs)[id].key}
    {
      ghost var before := objs;
      AppendQuiet(log, Deleted(id));
      interests := interests - {objs[id].key};
      objs := objs - {id};
      log := log + [Deleted(id)];
      forall x | x in objs ensures FlagAgrees(objs, queue, x) && Recorded(log, objs[x].mode, x) {
        assert FlagAgrees(before, queue, x) && Recorded(old(log), before[x].mode, x);
        StillRecorded(old(log), before[x].mode, x, Deleted(id));
      }
    }

    method Delete(key: Key) returns (found: bool)
      requires Valid()
      modifies `interests, `objs, `log
      ensures Valid() && found == (key in old(interests))
      ensures if found then Forgotten(old(objs), old(log), old(interests)[key]) && interests == old(interests) - {key}
              else interests == old(interests) && objs == old(objs) && log == old(log)
    {
      found := key in interests;
      if found {
        forall x | x in objs ensures FlagAgrees(objs, queue, x) {}
        Remove(interests[key]);
      }
    }

    /** `add` with `check_and_register_waker`; `looks` are its one or two polls of the file, none
        if the file is closed by then. */
    method Add(key: Key, event: EpollEvent, oneShot: bool, edge: bool, looks: seq<EventSet>) returns (r: AddResult)
      requires Valid()
      modifies this
      ensures Valid()
      ensures r == if key in old(interests) then AlreadyExists else Registered
      ensures r == AlreadyExists ==>
                interests == old(interests) && objs == old(objs) && queue == old(queue) && log == old(log)
      ensures r == Registered ==>
                var id := old(nextId);
                var ready := exists c :: c in looks[..if |looks| < 2 then |looks| else 2] && c * event.events != {};
                && nextId == id + 1
                && interests == old(interests)[key := id] && log == old(log) + [Added(id, oneShot, edge)]
                && objs == old(objs)[id := Interest(key, event, FromFlags(oneShot, edge), ready)]
                && queue == if ready then old(queue) + [id] else old(queue)
    {
      if key in interests { return AlreadyExists; }
      var id := Register(key, event, oneShot, edge);
      var ready := |looks| > 0 && looks[0] * event.events != {};
      if |looks| > 1 && !ready { ready := looks[1] * event.events != {}; }
      if ready { Wake(id); }
      r := Registered;
    }

    method Register(key: Key, event: EpollEvent, oneShot: bool, edge: bool) returns (id: nat)
      requires Valid() && key !in interests
      modifies this
      ensures Valid() && id == old(nextId) && nextId == id + 1 && queue == old(queue)
      ensures interests == old(interests)[key := id] && log == old(log) + [Added(id, oneShot, edge)]
      ensures objs == old(objs)[id := Interest(key, event, FromFlags(oneShot, edge), false)]
    {
      id := nextId;
      ghost var before := objs;
      assert !HasFired(log, id);
      AppendQuiet(log, Added(id, oneShot, edge));
      nextId := id + 1;
      interests := interests[key := id];
      objs := objs[id := Interest(key, event, FromFlags(oneShot, edge), false)];
      log := log + [Added(id, oneShot, edge)];
      forall x | x in objs ensures FlagAgrees(objs, queue, x) && Recorded(log, objs[x].mode, x) {
        if x != id {
          assert FlagAgrees(before, queue, x) && Recorded(old(log), before[x].mode, x);
          StillRecorded(old(log), before[x].mode, x, Added(id, oneShot, edge));
        } else {
          assert id !in queue && !IsOneShot(old(log), id) && !IsLevel(old(log), id);
        }
      }
    }

    /** A popped interest was looked at; it leaves the queue, or goes to its back. */
    method Settle(id: nat, after: Interest, ghost entry: Record)
      requires Tables() && History() && multiset(queue)[id] == 0 && Follows(objs, id, after, entry)
      requires forall x :: x in objs && x != id ==> FlagAgrees(objs, queue, x)
      modifies `objs, `queue, `log
      ensures Valid() && objs == old(objs)[id := after] && log == old(log) + [entry]
      ensures queue == if after.inQueue then old(queue) + [id] else old(queue)
    {
      HistoryGoesOn(objs, log, nextId, id, after, entry);
      FlagsGoOn(objs, queue, id, after);
      objs := objs[id := after];
      if after.inQueue { queue := queue + [id]; }
      log := log + [entry];
    }

    /** One round of the loop in `poll_events`, for a reference taken from a non-empty queue. */
    method TakeOne(glance: Glance) returns (r: Consumed)
      requires Valid() && queue != []
      modifies `interests, `objs, `queue, `log
      ensures Valid()
      ensures var id := old(queue)[0];
              if id !in old(objs) then r == NoEvent && queue == old(queue)[1..] && objs == old(objs) && log == old(log)
              else if glance.Closed? then r == NoEvent && queue == old(queue)[1..] && Forgotten(old(objs), old(log), id)
              else
                var (c, mode) := Consume(old(objs)[id], glance.current);
                && r == c
                && queue == old(queue)[1..] + (if c.EventAndKeep? then [id] else [])
                && objs == old(objs)[id := old(objs)[id].(mode := mode, inQueue := c.EventAndKeep?)]
                && log == old(log) + [if c.NoEvent? then NotReady(id) else Delivered(id, c.event)]
    {
      var id := queue[0];
      PopFront(objs, queue);
      assert forall x :: x in queue[1..] ==> x in queue;
      queue := queue[1..];
      if id !in objs {
        forall x | x in objs ensures FlagAgrees(objs, queue, x) {}
        return NoEvent;
      }
      if glance.Closed? {
        Remove(id);
        return NoEvent;
      }
      var (c, mode) := Consume(objs[id], glance.current);
      ghost var entry := if c.NoEvent? then NotReady(id) else Delivered(id, c.event);
      Settle(id, objs[id].(mode := mode, inQueue := c.EventAndKeep?), entry);
      r := c;
    }

    /** The same round, in terms of what it delivers and what stays queued. */
    method Round(glance: Glance) returns (r: Consumed, ghost more: seq<Record>)
      requires Valid() && queue != []
      modifies `interests, `objs, `queue, `log
      ensures Valid() && log == old(log) + more && |more| <= 1
      ensures Deliveries(more) == if r.NoEvent? then [] else [r.event]
      ensures r.NoEvent? ==> |queue| < |old(queue)|
      ensures forall id :: id in old(objs) && old(objs)[id].inQueue ==> Queued(id) || LookedAt(more, id)
      ensures Rounded(old(objs), old(queue), old(log), glance, objs, queue, more, !r.NoEvent?)
    {
      ghost var id, before := queue[0], objs;
      assert id in objs ==> Recorded(log, objs[id].mode, id);
      PopFront(objs, queue);
      r := TakeOne(glance);
      more := log[|old(log)|..];
      assert log == old(log) + more;
      if id in before { assert |more| == 1 && more[0].id == id && !more[0].Added?; }
    }

    ghost predicate Queued(id: nat) reads this { id in objs && objs[id].inQueue }

    /** Interest id is queued, and its file is ready whenever it is looked at. */
    ghost predicate StaysReady(id: nat, glances: (nat, nat) -> Glance) reads this { AlwaysReady(objs, id, glances) }

    /** The round, for interests that stay ready. */
    method ServingRound(glances: (nat, nat) -> Glance, k: nat, ghost was: map<nat, Interest>, ghost room: bool,
                        ghost news: seq<Record>, ghost count: nat, ghost slots: nat)
      returns (r: Consumed, ghost more: seq<Record>)
      requires Valid() && queue != [] && count < slots
      requires Polling(was, room, objs, queue, log, glances, news, count, slots)
      modifies `interests, `objs, `queue, `log
      ensures Valid() && log == old(log) + more && |more| <= 1
      ensures Deliveries(more) == if r.NoEvent? then [] else [r.event]
      ensures r.NoEvent? ==> |queue| < |old(queue)|
      ensures forall id :: id in old(objs) && old(objs)[id].inQueue ==> Queued(id) || LookedAt(more, id)
      ensures forall id :: IsLevel(log, id) <==> IsLevel(old(log), id)
      ensures Polling(was, room, objs, queue, log, glances, news + more, if r.NoEvent? then count else count + 1, slots)
    {
      r, more := Round(glances(k, queue[0]));
      forall id | AlwaysReady(was, id, glances)
        ensures Obeys(objs, log, id, glances, news + more)
        ensures room ==> Served(objs, queue, id, glances, news + more, if r.NoEvent? then count else count + 1, slots)
      {
        ObeysNext(old(objs), old(queue), old(log), glances, k, objs, queue, more, !r.NoEvent?, id, news);
        if room {
          ServedNext(old(objs), old(queue), old(log), glances, k, objs, queue, more, !r.NoEvent?, id, news,
                     count, slots);
        }
      }
    }

    /** `poll_events`: fills `out` from the front of the ready queue. What is delivered is on
        record, in order; nothing that was queued gets lost: it is still queued, or it was looked
        at. An interest whose file stays ready is delivered if there is room for the whole queue;
        afterwards it is still queued, and ready, if it was registered with neither flag, and not
        queued otherwise. The loop ends because each round fills a slot or shortens the queue. (A
        reference that finds no free slot is put back in front, so it is as if it had not been
        taken.) */
    method PollEvents(out: array<EpollEvent>, glances: (nat, nat) -> Glance) returns (r: PollResult)
      requires Valid()
      modifies this, out
      ensures Valid() && nextId == old(nextId) && old(log) <= log && (old(queue) == [] ==> log == old(log))
      ensures var events := Deliveries(log[|old(log)|..]);
              && |events| <= out.Length && out[..|events|] == events && out[|events|..] == old(out[|events|..])
              && r == (if events == [] then WouldBlock else Ok(|events|))
              && (|events| < out.Length ==> queue == [])
      ensures forall id :: old(Queued(id)) ==> Queued(id) || LookedAt(log[|old(log)|..], id)
      ensures SameAsks(objs, old(objs))
      ensures forall id :: IsLevel(log, id) <==> IsLevel(old(log), id)
      ensures forall id :: old(StaysReady(id, glances)) ==> Obeys(objs, log, id, glances, log[|old(log)|..])
      ensures forall id :: old(StaysReady(id, glances)) && |old(queue)| <= out.Length ==>
                DeliveredIn(log[|old(log)|..], id)
    {
      var count, k := 0, 0;
      ghost var news: seq<Record> := [];
      ghost var slots := out.Length;
      ghost var was, room := objs, |queue| <= slots;
      forall id | AlwaysReady(was, id, glances) && room ensures Served(objs, queue, id, glances, news, 0, slots) {
        QueuedAt(id);
      }
      while queue != [] && count < out.Length
        invariant Valid() && nextId == old(nextId) && log == old(log) + news
        invariant old(queue) == [] ==> queue == [] && news == []
        invariant count == |Deliveries(news)| <= out.Length
        invariant out[..count] == Deliveries(news)
        invariant forall i :: count <= i < out.Length ==> out[i] == old(out[i])
        invariant forall id :: old(Queued(id)) ==> Queued(id) || LookedAt(news, id)
        invariant forall id :: IsLevel(log, id) <==> IsLevel(old(log), id)
        invariant Polling(was, room, objs, queue, log, glances, news, count, slots)
        decreases out.Length - count, |queue|
      {
        ghost var before := out[..];
        var c, more := ServingRound(glances, k, was, room, news, count, slots);
        k := k + 1;
        DeliveriesAdd(news, more);
        LookedAtGrows(news, more);
        if !c.NoEvent? {
          out[count] := c.event;
          assert out[..count] == before[..count] && out[..count + 1] == out[..count] + [c.event];
          count := count + 1;
        }
        news := news + more;
      }
      assert log[|old(log)|..] == news;
      assert out[count..] == old(out[count..]);
      r := if count == 0 then WouldBlock else Ok(count);
    }

    lemma QueuedAt(id: nat)
      requires Valid() && Queued(id)
      ensures exists p :: 0 <= p < |queue| && queue[p] == id
    {
      assert FlagAgrees(objs, queue, id);
      assert id in multiset(queue);
    }
  }

  lemma LookedAtGrows(log: seq<Record>, more: seq<Record>)
    ensures forall id :: LookedAt(log, id) || LookedAt(more, id) ==> LookedAt(log + more, id)
  {
    forall id | LookedAt(log, id) || LookedAt(more, id) ensures LookedAt(log + more, id) {
      if LookedAt(log, id) {
        var i :| 0 <= i < |log| && log[i].id == id && !log[i].Added?;
        assert (log + more)[i] == log[i];
      } else {
        var i :| 0 <= i < |more| && more[i].id == id && !more[i].Added?;
        assert (log + more)[|log| + i] == more[i];
      }
    }
  }

  /** The events delivered in a stretch of the record. */
  ghost function Deliveries(log: seq<Record>): seq<EpollEvent> {
    if log == [] then []
    else
      var last := log[|log| - 1];
      Deliveries(log[..|log| - 1]) + (if last.Delivered? then [last.event] else [])
  }

  lemma DeliveriesAdd(log: seq<Record>, more: seq<Record>)
    requires |more| <= 1
    ensures Deliveries(log + more) == Deliveries(log) + Deliveries(more)
  {
    if more == [] { assert log + more == log; } else { assert (log + more)[..|log|] == log; }
  }

  ghost predicate LookedAt(log: seq<Record>, id: nat) {
    exists i :: 0 <= i < |log| && log[i].id == id && !log[i].Added?
  }

  datatype Call =
    | CallAdd(key: Key, event: EpollEvent, oneShot: bool, edge: bool, looks: seq<EventSet>)
    | CallWake(id: nat)
    | CallDelete(key: Key)
    | CallPoll(slots: nat, glances: (nat, nat) -> Glance)

  /** An interest is added to a new instance with any flags, and its ready file is polled twice: the
      first call reports it, and the second again exactly if neither flag was given. */
  method FlagsDecide(key: Key, event: EpollEvent, oneShot: bool, edge: bool, now: EventSet, later: EventSet)
    returns (first: PollResult, second: PollResult)
    requires now * event.events != {} && later * event.events != {}
    ensures first == Ok(1)
    ensures second == if !oneShot && !edge then Ok(1) else WouldBlock
  {
    var epoll := new EpollInstance();
    var _ := epoll.Add(key, event, oneShot, edge, [now]);
    assert [now][..1] == [now] && now in [now];
    assert FlagAgrees(epoll.objs, epoll.queue, 0);
    assert IsLevel(epoll.log, 0) <==> !oneShot && !edge;
    first := PollOne(epoll, now);
    assert 0 in epoll.objs ==> Recorded(epoll.log, epoll.objs[0].mode, 0);
    second := PollOne(epoll, later);
  }

  /** One call with one slot, on an instance whose only interest is number 0. */
  method PollOne(epoll: EpollInstance, current: EventSet) returns (r: PollResult)
    requires epoll.Valid() && epoll.nextId == 1
    modifies epoll
    ensures epoll.Valid() && epoll.nextId == 1 && (IsLevel(epoll.log, 0) <==> IsLevel(old(epoll.log), 0))
    ensures old(epoll.queue) == [] ==> r == WouldBlock
    ensures old(epoll.Queued(0) && Ready(epoll.objs, 0, Polled(current))) ==>
              && r == Ok(1)
              && (if IsLevel(epoll.log, 0) then epoll.Queued(0) && epoll.objs[0].event == old(epoll.objs)[0].event
                  else epoll.queue == [])
  {
    ghost var willing := epoll.Queued(0) && Ready(epoll.objs, 0, Polled(current));
    var out := new EpollEvent[1](_ => EpollEvent({}, 0));
    var glances := (k: nat, id: nat) => Polled(current);
    if 0 in epoll.objs {
      assert FlagAgrees(epoll.objs, epoll.queue, 0);
      OnlyZero(epoll.queue);
    }
    assert willing ==> epoll.StaysReady(0, glances);
    r := epoll.PollEvents(out, glances);
    if willing { DeliveredCounts(epoll.log[|old(epoll.log)|..], 0); }
    if 0 in epoll.objs { assert FlagAgrees(epoll.objs, epoll.queue, 0); }
    OnlyZero(epoll.queue);
  }

  lemma {:induction false} OnlyZero(queue: seq<nat>)
    requires forall x :: x in queue ==> x < 1
    ensures |queue| == multiset(queue)[0]
  {
    if queue != [] {
      var init := queue[..|queue| - 1];
      assert queue == init + [queue[|queue| - 1]] && queue[|queue| - 1] in queue;
      assert forall x :: x in init ==> x in queue;
      OnlyZero(init);
    }
  }

  lemma {:induction false} DeliveredCounts(log: seq<Record>, id: nat)
    requires DeliveredIn(log, id)
    ensures |Deliveries(log)| >= 1
  {
    var i :| 0 <= i < |log| && log[i].Delivered? && log[i].id == id;
    if i < |log| - 1 {
      assert log[..|log| - 1][i] == log[i];
      DeliveredCounts(log[..|log| - 1], id);
    }
  }

  ghost predicate Spares(c: Call, key: Key, id: nat, events: EventSet) {
    && (c.CallDelete? ==> c.key != key)
    && (c.CallPoll? ==> forall k {:trigger c.glances(k, id)} ::
          c.glances(k, id).Polled? && c.glances(k, id).current * events != {})
  }

  /** A call made on this queue that took the record from `log` to `log'`: if it is a `poll_events`
      with room for the whole queue, it has delivered interest id. */
  ghost predicate Delivers(c: Call, id: nat, queue: seq<nat>, log: seq<Record>, log': seq<Record>) {
    log <= log' && (c.CallPoll? && |queue| <= c.slots ==> DeliveredIn(log'[|log|..], id))
  }

  /** Interest id is queued, was registered with neither flag, and asks for this. */
  ghost predicate QueuedLevel(epoll: EpollInstance, id: nat, key: Key, events: EventSet) reads epoll {
    && epoll.Valid() && epoll.Queued(id) && IsLevel(epoll.log, id)
    && epoll.objs[id].key == key && epoll.objs[id].event.events == events
  }

  /** One call; a `poll_events` with room for the whole queue delivers the interest. */
  method LevelCall(epoll: EpollInstance, id: nat, c: Call, ghost key: Key, ghost events: EventSet)
    requires QueuedLevel(epoll, id, key, events) && Spares(c, key, id, events)
    modifies epoll
    ensures QueuedLevel(epoll, id, key, events)
    ensures Delivers(c, id, old(epoll.queue), old(epoll.log), epoll.log)
  {
    assert Recorded(epoll.log, epoll.objs[id].mode, id);
    match c {
      case CallAdd(k, event, oneShot, edge, looks) =>
        var _ := epoll.Add(k, event, oneShot, edge, looks);
      case CallWake(w) => epoll.Wake(w);
      case CallDelete(k) => var _ := epoll.Delete(k);
      case CallPoll(slots, glances) =>
        assert epoll.StaysReady(id, glances);
        var out := new EpollEvent[slots](_ => EpollEvent({}, 0));
        var _ := epoll.PollEvents(out, glances);
        assert Obeys(epoll.objs, epoll.log, id, glances, epoll.log[|old(epoll.log)|..]);
    }
  }

  /** Over every run: a queued interest registered with neither flag, whose file is ready whenever
      it is looked at and which is not deleted, stays queued, and every `poll_events` with room for
      the whole queue delivers it. */
  method LevelKeepsComing(epoll: EpollInstance, id: nat, calls: seq<Call>)
    returns (ghost queues: seq<seq<nat>>, ghost logs: seq<seq<Record>>)
    requires epoll.Valid() && epoll.Queued(id) && IsLevel(epoll.log, id)
    requires forall i :: 0 <= i < |calls| ==> Spares(calls[i], epoll.objs[id].key, id, epoll.objs[id].event.events)
    modifies epoll
    ensures epoll.Valid() && epoll.Queued(id) && |queues| == |logs| == |calls| + 1
    ensures queues[0] == old(epoll.queue) && logs[0] == old(epoll.log)
    ensures queues[|calls|] == epoll.queue && logs[|calls|] == epoll.log
    ensures forall i :: 0 <= i < |calls| ==> Delivers(calls[i], id, queues[i], logs[i], logs[i + 1])
  {
    ghost var key, events := epoll.objs[id].key, epoll.objs[id].event.events;
    queues, logs := [epoll.queue], [epoll.log];
    for i := 0 to |calls|
      invariant QueuedLevel(epoll, id, key, events) && |queues| == |logs| == i + 1
      invariant queues[0] == old(epoll.queue) && logs[0] == old(epoll.log)
      invariant queues[i] == epoll.queue && logs[i] == epoll.log
      invariant forall k :: 0 <= k < i ==> Delivers(calls[k], id, queues[k], logs[k], logs[k + 1])
    {
      LevelCall(epoll, id, calls[i], key, events);
      queues, logs := queues + [epoll.queue], logs + [epoll.log];
    }
  }

  /** Over every run, flags and queue agree, a one-shot interest is delivered at most once, and a
      deleted registration never again. */
  method Session(calls: seq<Call>) returns (epoll: EpollInstance)
    ensures FlagsAgree(epoll.objs, epoll.queue)
    ensures DeletedIsSilent(epoll.log) && OneShotFiresOnce(epoll.log)
  {
    epoll := new EpollInstance();
    for i := 0 to |calls|
      invariant epoll.Valid() && fresh(epoll)
    {
      match calls[i] {
        case CallAdd(key, event, oneShot, edge, looks) =>
          var _ := epoll.Add(key, event, oneShot, edge, looks);
        case CallWake(id) => epoll.Wake(id);
        case CallDelete(key) => var _ := epoll.Delete(key);
        case CallPoll(slots, glances) =>
          var out := new EpollEvent[slots](_ => EpollEvent({}, 0));
          var _ := epoll.PollEvents(out, glances);
      }
    }
  }
}
