/** The free-standing event scheduler: events ordered by tick and, within a
    tick, by priority, cancelled lazily through a set of active ids, and
    drained by `Update`. */
module TimedEventScheduler {
  import PriorityQueue
  import Bags

  type EventId = nat

  /** What `execute()` runs: the wrapped function of a `FunctionEvent`, or the
      body of some other subclass. Either is an opaque token here. */
  datatype Body = FunctionBody(func: nat) | CustomBody(kind: nat)

  /** A timed event. `bound` records whether `setScheduler` has handed the
      event the back-pointer through which its body reaches the scheduler;
      `followups` are the schedule and cancel calls the body makes through it
      when the event executes. */
  datatype TimedEvent = TimedEvent(
    id: EventId,
    tick: int,
    name: string,
    priority: int,
    bound: bool,
    body: Body,
    followups: seq<EventRequest>)

  /** A call an executing event makes back into the scheduler. */
  datatype EventRequest =
    | ScheduleEventRequest(event: TimedEvent)
    | CancelEventRequest(id: EventId)

  /** The `TimedEvent(tick, name)` constructor: the event starts with id 0 and
      priority 0 and is not yet bound to any scheduler. */
  function NewEvent(tick: int, name: string, body: Body, followups: seq<EventRequest>): (e: TimedEvent)
    ensures e.id == 0 && e.priority == 0 && !e.bound
    ensures e.tick == tick && e.name == name
    ensures e.body == body && e.followups == followups
  {
    TimedEvent(0, tick, name, 0, false, body, followups)
  }

  /** The `FunctionEvent(tick, func, name)` constructor. */
  function FunctionEvent(tick: int, func: nat, name: string, followups: seq<EventRequest>): (e: TimedEvent)
    ensures e.id == 0 && e.priority == 0 && !e.bound
    ensures e.tick == tick && e.name == name
    ensures e.body == FunctionBody(func) && e.followups == followups
  {
    NewEvent(tick, name, FunctionBody(func), followups)
  }

  /** `setPriority`: only the priority changes. */
  function SetPriority(e: TimedEvent, priority: int): (r: TimedEvent)
    ensures r.priority == priority
    ensures r.id == e.id && r.tick == e.tick && r.name == e.name
    ensures r.bound == e.bound && r.body == e.body && r.followups == e.followups
  {
    e.(priority := priority)
  }

  /** `TimedEventCompare(a, b)`: `a` ranks below `b`, so `b` leaves the queue
      first. The priority queue hands out a greatest element first. */
  predicate Compare(a: TimedEvent, b: TimedEvent) {
    if a.tick == b.tick then a.priority < b.priority else a.tick > b.tick
  }

  /** The order the scheduler is meant to keep: an earlier tick first and,
      within a tick, a higher priority first. */
  predicate Precedes(a: TimedEvent, b: TimedEvent) {
    a.tick < b.tick || (a.tick == b.tick && a.priority > b.priority)
  }

  /** The entries `Update` may pop next. Among several with the same tick and
      priority the heap's choice is left open. */
  predicate IsNext(x: TimedEvent, q: multiset<TimedEvent>) {
    PriorityQueue.IsTop(x, q, Compare)
  }

  /** The comparator is exactly the intended order seen from the other side. */
  lemma CompareIsPrecedes(a: TimedEvent, b: TimedEvent)
    ensures Compare(a, b) <==> Precedes(b, a)
  {
  }

  lemma CompareIsStrictWeakOrder()
    ensures PriorityQueue.StrictWeakOrder(Compare)
  {
  }

  /** The next event is one that nothing queued precedes: the least tick, and
      among those the highest priority. */
  lemma NextIsEarliest(x: TimedEvent, q: multiset<TimedEvent>)
    ensures IsNext(x, q) <==>
      x in q && forall y :: y in q ==> x.tick < y.tick || (x.tick == y.tick && x.priority >= y.priority)
  {
    if x in q && forall y :: y in q ==> x.tick < y.tick || (x.tick == y.tick && x.priority >= y.priority) {
      forall y | y in q
        ensures !Compare(x, y)
      {
      }
    }
  }

  datatype State = State(
    queue: multiset<TimedEvent>,
    active: set<EventId>,
    nextId: EventId)

  /** What every reachable state satisfies: ids are issued from 1 upwards, and
      every id held in the queue or in the active set was issued already. */
  ghost predicate Inv(s: State) {
    && s.nextId >= 1
    && (forall id :: id in s.active ==> 1 <= id < s.nextId)
    && (forall x :: x in s.queue ==> 1 <= x.id < s.nextId)
  }

  /** A freshly constructed scheduler: `nextEventId` starts at 1. */
  function Init(): (s: State)
    ensures Inv(s)
    ensures s.nextId == 1 && s.queue == multiset{} && s.active == {}
  {
    State(multiset{}, {}, 1)
  }

  /** The event as `scheduleEvent` queues it: stamped with `id` and bound to
      the scheduler, everything else as given. */
  function Stamp(e: TimedEvent, id: EventId): (r: TimedEvent)
    ensures r.id == id && r.bound
    ensures r.tick == e.tick && r.name == e.name && r.priority == e.priority
    ensures r.body == e.body && r.followups == e.followups
  {
    e.(id := id, bound := true)
  }

  /** `scheduleEvent(event)`: takes the next id, stamps it onto the event,
      binds the event to this scheduler, queues it and marks the id active. */
  function ScheduleEvent(s: State, e: TimedEvent): (r: (State, EventId))
    ensures r.1 == s.nextId && r.0.nextId == r.1 + 1
    ensures r.0.queue == s.queue + multiset{Stamp(e, r.1)}
    ensures r.0.active == s.active + {r.1}
    ensures Inv(s) ==> Inv(r.0) && r.1 >= 1 && r.1 !in s.active
    ensures Inv(s) ==> forall y :: y in s.queue ==> y.id != r.1
  {
    var id := s.nextId;
    (State(s.queue + multiset{Stamp(e, id)}, s.active + {id}, id + 1), id)
  }

  /** `scheduleFunction(tick, func, name)`: a `FunctionEvent` of default
      priority 0, scheduled like any other event. */
  function ScheduleFunction(s: State, tick: int, func: nat, name: string, followups: seq<EventRequest>): (r: (State, EventId))
    ensures r.1 == s.nextId && r.0.nextId == s.nextId + 1
    ensures r.0.queue == s.queue + multiset{TimedEvent(r.1, tick, name, 0, true, FunctionBody(func), followups)}
    ensures r.0.active == s.active + {r.1}
    ensures Inv(s) ==> Inv(r.0) && r.1 >= 1
  {
    ScheduleEvent(s, FunctionEvent(tick, func, name, followups))
  }

  /** `cancelEvent(id)`: only the active set changes; the queued event stays
      behind and `Update` discards it when it reaches it. */
  function CancelEvent(s: State, id: EventId): (r: (State, bool))
    ensures r.1 <==> id in s.active
    ensures id !in r.0.active
    ensures r.0.queue == s.queue && r.0.nextId == s.nextId
    ensures forall other :: other != id ==> (other in r.0.active <==> other in s.active)
    ensures Inv(s) ==> Inv(r.0)
  {
    if id in s.active then (s.(active := s.active - {id}), true) else (s, false)
  }

  /** `clear()`: drops every pending event; `nextEventId` is kept. */
  function Clear(s: State): (r: State)
    ensures r.queue == multiset{} && r.active == {}
    ensures r.nextId == s.nextId
    ensures Inv(s) ==> Inv(r)
  {
    State(multiset{}, {}, s.nextId)
  }

  /** The number of events a list of requests schedules. */
  function Spawns(rs: seq<EventRequest>): nat
  {
    if rs == [] then 0
    else (if rs[0].ScheduleEventRequest? then 1 else 0) + Spawns(rs[1..])
  }

  /** The requests an executing event makes, carried out in order. */
  function ApplyRequests(s: State, rs: seq<EventRequest>): (r: State)
    decreases |rs|
  {
    if rs == [] then s
    else
      var next := match rs[0]
        case ScheduleEventRequest(e) => ScheduleEvent(s, e).0
        case CancelEventRequest(id) => CancelEvent(s, id).0;
      ApplyRequests(next, rs[1..])
  }

  /** Executing events only ever add to the queue, and every id they make
      active or queue is a fresh one: no retired id comes back. */
  lemma {:induction false} ApplyRequestsFacts(s: State, rs: seq<EventRequest>)
    ensures ApplyRequests(s, rs).nextId == s.nextId + Spawns(rs)
    ensures s.queue <= ApplyRequests(s, rs).queue
    ensures forall y :: y in ApplyRequests(s, rs).queue ==> y in s.queue || s.nextId <= y.id < ApplyRequests(s, rs).nextId
    ensures forall id :: id in ApplyRequests(s, rs).active ==> id in s.active || s.nextId <= id < ApplyRequests(s, rs).nextId
    ensures Inv(s) ==> Inv(ApplyRequests(s, rs))
    decreases |rs|
  {
    if rs != [] {
      var next := match rs[0]
        case ScheduleEventRequest(e) => ScheduleEvent(s, e).0
        case CancelEventRequest(id) => CancelEvent(s, id).0;
      ApplyRequestsFacts(next, rs[1..]);
    }
  }

  /** The event the `j`-th of `rs` schedules, stamped with the id it is
      issued when the requests start from id counter `base`. */
  function Spawned(base: EventId, rs: seq<EventRequest>, j: nat): TimedEvent
    requires j < |rs| && rs[j].ScheduleEventRequest?
  {
    Stamp(rs[j].event, base + Spawns(rs[..j]))
  }

  /** Whatever the other requests do, a schedule request leaves its event
      queued under one id past those the earlier requests were issued. */
  lemma {:induction false} ApplyRequestsQueues(s: State, rs: seq<EventRequest>, j: nat)
    requires j < |rs| && rs[j].ScheduleEventRequest?
    ensures Spawned(s.nextId, rs, j) in ApplyRequests(s, rs).queue
    decreases j
  {
    var next := match rs[0]
      case ScheduleEventRequest(e) => ScheduleEvent(s, e).0
      case CancelEventRequest(id) => CancelEvent(s, id).0;
    assert ApplyRequests(s, rs) == ApplyRequests(next, rs[1..]);
    if j == 0 {
      assert Spawned(s.nextId, rs, j) in next.queue;
      ApplyRequestsFacts(next, rs[1..]);
    } else {
      ApplyRequestsQueues(next, rs[1..], j - 1);
      assert rs[..j] == [rs[0]] + rs[1..][..j - 1];
      assert Spawns(rs[..j]) == (if rs[0].ScheduleEventRequest? then 1 else 0) + Spawns(rs[1..][..j - 1]);
      assert Spawned(s.nextId, rs, j) == Spawned(next.nextId, rs[1..], j - 1);
    }
  }

  // ---------------------------------------------------------------------
  // Termination measure of the drain loop: an event weighs one plus every
  // event its body may still schedule, however deeply nested.

  function Weight(e: TimedEvent): nat
    decreases e
  {
    1 + RequestsWeight(e.followups)
  }

  function RequestsWeight(rs: seq<EventRequest>): nat
    decreases rs
  {
    if rs == [] then 0 else RequestWeight(rs[0]) + RequestsWeight(rs[1..])
  }

  function RequestWeight(r: EventRequest): nat
    decreases r
  {
    match r
    case CancelEventRequest(_) => 0
    case ScheduleEventRequest(e) => Weight(e)
  }

  lemma {:induction false} ApplyRequestsWeight(s: State, rs: seq<EventRequest>)
    ensures Bags.Sum(ApplyRequests(s, rs).queue, Weight) == Bags.Sum(s.queue, Weight) + RequestsWeight(rs)
    decreases |rs|
  {
    if rs != [] {
      match rs[0]
      case ScheduleEventRequest(e) =>
        Bags.SumAdd(s.queue, Stamp(e, s.nextId), Weight);
        ApplyRequestsWeight(ScheduleEvent(s, e).0, rs[1..]);
      case CancelEventRequest(id) =>
        ApplyRequestsWeight(CancelEvent(s, id).0, rs[1..]);
    }
  }

  // ---------------------------------------------------------------------
  // One iteration of the drain loop.

  /** How a popped event was disposed of: skipped because its id was no
      longer active, or executed. */
  datatype Outcome = Skipped | Executed

  datatype Pop = Pop(event: TimedEvent, outcome: Outcome)

  function Classify(s: State, x: TimedEvent): Outcome {
    if x.id in s.active then Executed else Skipped
  }

  /** Pops `x` and disposes of it. A cancelled event is dropped. Otherwise it
      executes, making its calls on the scheduler while its own id is still
      active, and only then is its id retired. */
  function Step(s: State, x: TimedEvent): State
    requires x in s.queue
  {
    var popped := s.(queue := s.queue - multiset{x});
    match Classify(s, x)
    case Skipped => popped
    case Executed =>
      var after := ApplyRequests(popped, x.followups);
      after.(active := after.active - {x.id})
  }

  /** One iteration of the loop never revives an id: the popped id ends up
      inactive, nothing else leaves the queue, and every id that is new in the
      queue or in the active set was issued by the executing event. */
  lemma StepIds(s: State, x: TimedEvent)
    requires x in s.queue
    ensures x.id !in Step(s, x).active
    ensures s.queue - multiset{x} <= Step(s, x).queue
    ensures Step(s, x).nextId >= s.nextId
    ensures forall y :: y in Step(s, x).queue ==> y in s.queue || s.nextId <= y.id < Step(s, x).nextId
    ensures forall id :: id in Step(s, x).active ==> id in s.active || s.nextId <= id < Step(s, x).nextId
    ensures Inv(s) ==> Inv(Step(s, x))
  {
    ApplyRequestsFacts(s.(queue := s.queue - multiset{x}), x.followups);
  }

  /** A skipped event, or one whose body calls nothing, only leaves the queue
      and retires its id. */
  lemma StepEffects(s: State, x: TimedEvent)
    requires x in s.queue
    ensures Classify(s, x) == Skipped || x.followups == [] ==>
      Step(s, x) == State(s.queue - multiset{x}, s.active - {x.id}, s.nextId)
  {
  }

  /** While an event executes its own id is still active: a body that cancels
      its own event is told the cancellation succeeded. */
  lemma ActiveWhileExecuting(s: State, x: TimedEvent)
    requires x in s.queue && Classify(s, x) == Executed
    ensures CancelEvent(s.(queue := s.queue - multiset{x}), x.id).1
  {
  }

  lemma StepLowersWeight(s: State, x: TimedEvent)
    requires x in s.queue
    ensures Bags.Sum(Step(s, x).queue, Weight) < Bags.Sum(s.queue, Weight)
  {
    var popped := s.(queue := s.queue - multiset{x});
    Bags.SumRemove(s.queue, x, Weight);
    if Classify(s, x) == Executed {
      ApplyRequestsWeight(popped, x.followups);
    }
  }

  // ---------------------------------------------------------------------
  // The drain: every legal run of `update(t)`.

  /** No queued event is due at `t`: the loop condition of `update` fails. */
  ghost predicate Quiescent(s: State, t: int) {
    forall x :: x in s.queue ==> x.tick > t
  }

  /** One pass of the loop body of `update(t)`. */
  ghost predicate Moves(s: State, t: int, p: Pop, s': State) {
    && IsNext(p.event, s.queue)
    && p.event.tick <= t
    && p.outcome == Classify(s, p.event)
    && s' == Step(s, p.event)
  }

  /** The `i`-th pop of `trace` leads from `history[i]` to `history[i + 1]`. */
  ghost predicate MovesAt(history: seq<State>, t: int, trace: seq<Pop>, i: int) {
    0 <= i < |trace| && i + 1 < |history| && Moves(history[i], t, trace[i], history[i + 1])
  }

  /** `history[i]` is the state before the i-th pop of `trace`, and
      `history[|trace|]` the state the pops lead to. */
  ghost predicate Run(history: seq<State>, t: int, trace: seq<Pop>) {
    && |history| == |trace| + 1
    && forall i :: 0 <= i < |trace| ==> MovesAt(history, t, trace, i)
  }

  /** A complete run of `update(t)`: it stops only once nothing is due. */
  ghost predicate Drains(history: seq<State>, t: int, trace: seq<Pop>) {
    Run(history, t, trace) && Quiescent(history[|trace|], t)
  }

  lemma RunSnoc(history: seq<State>, t: int, trace: seq<Pop>, x: TimedEvent)
    requires Run(history, t, trace)
    requires IsNext(x, history[|trace|].queue) && x.tick <= t
    ensures Run(history + [Step(history[|trace|], x)], t, trace + [Pop(x, Classify(history[|trace|], x))])
  {
    var s := history[|trace|];
    var h' := history + [Step(s, x)];
    var trace' := trace + [Pop(x, Classify(s, x))];
    forall i | 0 <= i < |trace'|
      ensures MovesAt(h', t, trace', i)
    {
      if i < |trace| {
        assert MovesAt(history, t, trace, i);
        assert h'[i] == history[i] && h'[i + 1] == history[i + 1] && trace'[i] == trace[i];
      }
    }
  }

  /** What the `i`-th pop of a run is: a next-due event of `history[i]`,
      disposed of as `Classify` says. */
  lemma PopAt(history: seq<State>, t: int, trace: seq<Pop>, i: nat)
    requires Run(history, t, trace) && i < |trace|
    ensures trace[i].event in history[i].queue
    ensures IsNext(trace[i].event, history[i].queue)
    ensures trace[i].event.tick <= t
    ensures trace[i].outcome == Classify(history[i], trace[i].event)
  {
    assert MovesAt(history, t, trace, i);
  }

  /** The state after the `i`-th pop of a run. */
  lemma StepAt(history: seq<State>, t: int, trace: seq<Pop>, i: nat)
    requires Run(history, t, trace) && i < |trace|
    ensures trace[i].event in history[i].queue
    ensures history[i + 1] == Step(history[i], trace[i].event)
  {
    assert MovesAt(history, t, trace, i);
  }

  lemma NextNotDue(x: TimedEvent, q: multiset<TimedEvent>, t: int)
    requires IsNext(x, q) && x.tick > t
    ensures forall y :: y in q ==> y.tick > t
  {
    forall y | y in q
      ensures y.tick > t
    {
      assert !Compare(x, y);
    }
  }

  lemma StepKeepsLater(s: State, x: TimedEvent, t: int)
    requires x in s.queue && x.tick <= t
    ensures forall y: TimedEvent :: y.tick > t ==> s.queue[y] <= Step(s, x).queue[y]
  {
    StepIds(s, x);
  }

  /** `update(currentTick)`: pops due events, next first, re-examining the
      queue after every pop, until none is due. */
  method Update(s: State, t: int) returns (s': State, trace: seq<Pop>, ghost history: seq<State>)
    ensures Drains(history, t, trace)
    ensures history[0] == s && history[|trace|] == s'
    ensures Quiescent(s', t)
    ensures Inv(s) ==> Inv(s')
    ensures s'.nextId >= s.nextId
    ensures forall x: TimedEvent :: x.tick > t ==> s.queue[x] <= s'.queue[x]
  {
    CompareIsStrictWeakOrder();
    s' := s;
    trace := [];
    history := [s];
    while true
      invariant Run(history, t, trace)
      invariant history[0] == s && history[|trace|] == s'
      invariant Inv(s) ==> Inv(s')
      invariant s'.nextId >= s.nextId
      invariant forall x: TimedEvent :: x.tick > t ==> s.queue[x] <= s'.queue[x]
      decreases Bags.Sum(s'.queue, Weight)
    {
      if s'.queue == multiset{} {
        break;
      }
      PriorityQueue.TopExists(s'.queue, Compare);
      var x :| x in s'.queue && IsNext(x, s'.queue);
      if x.tick > t {
        NextNotDue(x, s'.queue, t);
        break;
      }
      StepLowersWeight(s', x);
      StepKeepsLater(s', x, t);
      StepIds(s', x);
      RunSnoc(history, t, trace, x);
      trace := trace + [Pop(x, Classify(s', x))];
      s' := Step(s', x);
      history := history + [s'];
    }
  }
}
