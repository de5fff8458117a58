/** The entity scheduler: actions bound to an entity, ordered by tick only,
    cancelled lazily through a set of active ids, and drained by `Update`. */
module Scheduler {
  import opened World
  import PriorityQueue
  import Bags

  type ActionId = nat

  /** The optional `onComplete` callback. Besides enqueuing events of its own
      (`published`), a callback may schedule or cancel further actions
      (`followups`): this is how re-entrant scheduling is modelled. */
  datatype Callback =
    | NoCallback
    | Callback(published: seq<nat>, followups: seq<Request>)

  /** A call a callback makes back into the scheduler while `Update` runs. */
  datatype Request =
    | ScheduleRequest(tick: int, entity: Entity, action: Action, onComplete: Callback)
    | CancelRequest(id: ActionId)

  datatype ScheduledAction = ScheduledAction(
    id: ActionId,
    tick: int,
    entity: Entity,
    action: Action,
    onComplete: Callback)

  /** `ScheduledAction::operator<`: `a` ranks below `b` when it is due later.
      The priority queue hands out a greatest element first. */
  predicate Less(a: ScheduledAction, b: ScheduledAction) {
    a.tick > b.tick
  }

  /** The entries `Update` may pop next: those with the least tick. Among
      several with that tick the heap's choice is left open. */
  predicate IsNext(x: ScheduledAction, q: multiset<ScheduledAction>) {
    PriorityQueue.IsTop(x, q, Less)
  }

  datatype State = State(
    queue: multiset<ScheduledAction>,
    active: set<ActionId>,
    nextId: ActionId)

  /** What every reachable state satisfies: ids are issued from 1 upwards, and
      every id held in the queue or in the active set was issued already. */
  ghost predicate Inv(s: State) {
    && s.nextId >= 1
    && (forall id :: id in s.active ==> 1 <= id < s.nextId)
    && (forall x :: x in s.queue ==> 1 <= x.id < s.nextId)
  }

  /** A freshly constructed scheduler. */
  function Init(): (s: State)
    ensures Inv(s)
    ensures s.nextId == 1 && s.queue == multiset{} && s.active == {}
  {
    State(multiset{}, {}, 1)
  }

  /** `schedule(const ScheduledAction&)`: stamps the next id onto a copy of
      `a`, queues it, marks the id active and returns it. */
  function Schedule(s: State, a: ScheduledAction): (r: (State, ActionId))
    ensures r.1 == s.nextId && r.0.nextId == r.1 + 1
    ensures r.0.queue == s.queue + multiset{a.(id := r.1)}
    ensures r.0.active == s.active + {r.1}
    ensures Inv(s) ==> Inv(r.0) && r.1 >= 1 && r.1 !in s.active
    ensures Inv(s) ==> forall y :: y in s.queue ==> y.id != r.1
  {
    var id := s.nextId;
    (State(s.queue + multiset{a.(id := id)}, s.active + {id}, id + 1), id)
  }

  /** The action as the convenience overload builds it, before it is stamped. */
  function Unstamped(tick: int, entity: Entity, action: Action, onComplete: Callback): (a: ScheduledAction)
    ensures a.id == 0
  {
    ScheduledAction(0, tick, entity, action, onComplete)
  }

  /** `schedule(tick, entity, action, onComplete)`. */
  function ScheduleAt(s: State, tick: int, entity: Entity, action: Action, onComplete: Callback): (r: (State, ActionId))
    ensures r.1 == s.nextId && r.0.nextId == s.nextId + 1
    ensures ScheduledAction(r.1, tick, entity, action, onComplete) in r.0.queue
    ensures r.0.queue == s.queue + multiset{ScheduledAction(r.1, tick, entity, action, onComplete)}
    ensures r.0.active == s.active + {r.1}
    ensures Inv(s) ==> Inv(r.0) && r.1 >= 1
  {
    Schedule(s, Unstamped(tick, entity, action, onComplete))
  }

  /** `cancel(id)`: only the active set changes; the queue entry stays behind
      as a tombstone that `Update` discards when it reaches it. */
  function Cancel(s: State, id: ActionId): (r: (State, bool))
    ensures r.1 <==> id in s.active
    ensures id !in r.0.active
    ensures r.0.queue == s.queue && r.0.nextId == s.nextId
    ensures forall other :: other != id ==> (other in r.0.active <==> other in s.active)
    ensures Inv(s) ==> Inv(r.0)
  {
    if id in s.active then (s.(active := s.active - {id}), true) else (s, false)
  }

  /** `clear()`: drops every pending action; the id counter is kept. */
  function Clear(s: State): (r: State)
    ensures r.queue == multiset{} && r.active == {}
    ensures r.nextId == s.nextId
    ensures Inv(s) ==> Inv(r)
  {
    State(multiset{}, {}, s.nextId)
  }

  /** Removes an id from the active set, as `activeActions.erase` does. */
  function Retire(s: State, id: ActionId): (r: State)
    ensures id !in r.active
  {
    s.(active := s.active - {id})
  }

  /** The number of actions a list of requests schedules. */
  function Spawns(rs: seq<Request>): nat
  {
    if rs == [] then 0
    else (if rs[0].ScheduleRequest? then 1 else 0) + Spawns(rs[1..])
  }

  function Followups(cb: Callback): seq<Request> {
    match cb
    case NoCallback => []
    case Callback(_, fs) => fs
  }

  /** Carries out, in order, the calls a callback makes into the scheduler. */
  function ApplyRequests(s: State, rs: seq<Request>): (r: State)
    decreases |rs|
  {
    if rs == [] then s
    else
      var next := match rs[0]
        case ScheduleRequest(tick, e, a, cb) => ScheduleAt(s, tick, e, a, cb).0
        case CancelRequest(id) => Cancel(s, id).0;
      ApplyRequests(next, rs[1..])
  }

  /** Callbacks only ever add to the queue, and every id they make active or
      queue is a fresh one: no retired id comes back. */
  lemma {:induction false} ApplyRequestsFacts(s: State, rs: seq<Request>)
    ensures ApplyRequests(s, rs).nextId == s.nextId + Spawns(rs)
    ensures s.queue <= ApplyRequests(s, rs).queue
    ensures forall y :: y in ApplyRequests(s, rs).queue ==> y in s.queue || s.nextId <= y.id < ApplyRequests(s, rs).nextId
    ensures forall id :: id in ApplyRequests(s, rs).active ==> id in s.active || s.nextId <= id < ApplyRequests(s, rs).nextId
    ensures Inv(s) ==> Inv(ApplyRequests(s, rs))
    decreases |rs|
  {
    if rs != [] {
      var next := match rs[0]
        case ScheduleRequest(tick, e, a, cb) => ScheduleAt(s, tick, e, a, cb).0
        case CancelRequest(id) => Cancel(s, id).0;
      ApplyRequestsFacts(next, rs[1..]);
    }
  }

  /** The action the `j`-th of `rs` schedules, stamped with the id it is
      issued when the requests start from id counter `base`. */
  function Spawned(base: ActionId, rs: seq<Request>, j: nat): ScheduledAction
    requires j < |rs| && rs[j].ScheduleRequest?
  {
    ScheduledAction(base + Spawns(rs[..j]), rs[j].tick, rs[j].entity, rs[j].action, rs[j].onComplete)
  }

  /** Whatever the other requests do, a schedule request leaves its action
      queued under one id past those the earlier requests were issued. */
  lemma {:induction false} ApplyRequestsQueues(s: State, rs: seq<Request>, j: nat)
    requires j < |rs| && rs[j].ScheduleRequest?
    ensures Spawned(s.nextId, rs, j) in ApplyRequests(s, rs).queue
    decreases j
  {
    var next := match rs[0]
      case ScheduleRequest(tick, e, a, cb) => ScheduleAt(s, tick, e, a, cb).0
      case CancelRequest(id) => Cancel(s, id).0;
    assert ApplyRequests(s, rs) == ApplyRequests(next, rs[1..]);
    if j == 0 {
      assert Spawned(s.nextId, rs, j) in next.queue;
      ApplyRequestsFacts(next, rs[1..]);
    } else {
      ApplyRequestsQueues(next, rs[1..], j - 1);
      assert rs[..j] == [rs[0]] + rs[1..][..j - 1];
      assert Spawns(rs[..j]) == (if rs[0].ScheduleRequest? then 1 else 0) + Spawns(rs[1..][..j - 1]);
      assert Spawned(s.nextId, rs, j) == Spawned(next.nextId, rs[1..], j - 1);
    }
  }


  // ---------------------------------------------------------------------
  // Termination measure of the drain loop: an action weighs one plus every
  // action its callback may still schedule, however deeply nested.

  function Weight(x: ScheduledAction): nat {
    1 + CallbackWeight(x.onComplete)
  }

  function CallbackWeight(cb: Callback): nat
    decreases cb
  {
    match cb
    case NoCallback => 0
    case Callback(_, fs) => RequestsWeight(fs)
  }

  function RequestsWeight(rs: seq<Request>): nat
    decreases rs
  {
    if rs == [] then 0 else RequestWeight(rs[0]) + RequestsWeight(rs[1..])
  }

  function RequestWeight(r: Request): nat
    decreases r
  {
    match r
    case CancelRequest(_) => 0
    case ScheduleRequest(_, _, _, cb) => 1 + CallbackWeight(cb)
  }

  lemma {:induction false} ApplyRequestsWeight(s: State, rs: seq<Request>)
    ensures Bags.Sum(ApplyRequests(s, rs).queue, Weight) == Bags.Sum(s.queue, Weight) + RequestsWeight(rs)
    decreases |rs|
  {
    if rs != [] {
      match rs[0]
      case ScheduleRequest(tick, e, a, cb) =>
        var next := ScheduleAt(s, tick, e, a, cb).0;
        Bags.SumAdd(s.queue, ScheduledAction(s.nextId, tick, e, a, cb), Weight);
        ApplyRequestsWeight(next, rs[1..]);
      case CancelRequest(id) =>
        ApplyRequestsWeight(Cancel(s, id).0, rs[1..]);
    }
  }

  // ---------------------------------------------------------------------
  // One iteration of the drain loop.

  /** What the dispatcher receives: the standard completion event, and the
      events a callback enqueues itself. */
  datatype Emitted =
    | ActionCompleted(actionId: ActionId, entity: Entity)
    | Published(token: nat)

  /** The scheduler together with the registry and the dispatcher queue it is
      handed by `update`. */
  datatype Config = Config(sched: State, registry: Registry, events: seq<Emitted>)

  /** How a popped action was disposed of: skipped because its id was no
      longer active, skipped because its entity was no longer valid, or run. */
  datatype Outcome = Cancelled | EntityGone | Ran

  datatype Pop = Pop(action: ScheduledAction, outcome: Outcome)

  function Classify(c: Config, x: ScheduledAction): Outcome {
    if x.id !in c.sched.active then Cancelled
    else if !Valid(c.registry, x.entity) then EntityGone
    else Ran
  }

  function Announce(cb: Callback): seq<Emitted>
  {
    match cb
    case NoCallback => []
    case Callback(pub, _) => seq(|pub|, i requires 0 <= i < |pub| => Published(pub[i]))
  }

  /** Pops `x` and disposes of it. A cancelled action is dropped. Otherwise
      the id is retired whatever happens, but only for a valid entity does the
      action run, the completion event go out, and then the callback run. */
  function Step(c: Config, x: ScheduledAction): (r: Config)
    requires x in c.sched.queue
  {
    var popped := c.sched.(queue := c.sched.queue - multiset{x});
    match Classify(c, x)
    case Cancelled => c.(sched := popped)
    case EntityGone => c.(sched := Retire(popped, x.id))
    case Ran =>
      var after := ApplyRequests(popped, Followups(x.onComplete));
      Config(
        Retire(after, x.id),
        Perform(x.action, x.entity, c.registry),
        c.events + [ActionCompleted(x.id, x.entity)] + Announce(x.onComplete))
  }

  /** One iteration of the loop never revives an id: the popped id ends up
      inactive, nothing else leaves the queue, and every id that is new in the
      queue or in the active set was issued by the callback during this pop. */
  lemma StepIds(c: Config, x: ScheduledAction)
    requires x in c.sched.queue
    ensures x.id !in Step(c, x).sched.active
    ensures c.sched.queue - multiset{x} <= Step(c, x).sched.queue
    ensures Step(c, x).sched.nextId >= c.sched.nextId
    ensures forall y :: y in Step(c, x).sched.queue ==> y in c.sched.queue || c.sched.nextId <= y.id < Step(c, x).sched.nextId
    ensures forall id :: id in Step(c, x).sched.active ==> id in c.sched.active || c.sched.nextId <= id < Step(c, x).sched.nextId
    ensures Inv(c.sched) ==> Inv(Step(c, x).sched)
  {
    ApplyRequestsFacts(c.sched.(queue := c.sched.queue - multiset{x}), Followups(x.onComplete));
  }

  /** What one iteration of the loop does to the registry and the dispatcher:
      nothing unless the action runs; if it runs, the action's effect, then
      the completion event, then whatever the callback enqueues. */
  lemma StepEffects(c: Config, x: ScheduledAction)
    requires x in c.sched.queue
    ensures Classify(c, x) != Ran ==>
      && Step(c, x).registry == c.registry && Step(c, x).events == c.events
      && Step(c, x).sched == State(c.sched.queue - multiset{x}, c.sched.active - {x.id}, c.sched.nextId)
    ensures Classify(c, x) == Ran ==>
      && Step(c, x).registry == Perform(x.action, x.entity, c.registry)
      && Step(c, x).events == c.events + [ActionCompleted(x.id, x.entity)] + Announce(x.onComplete)
    ensures Followups(x.onComplete) == [] ==>
      Step(c, x).sched == State(c.sched.queue - multiset{x}, c.sched.active - {x.id}, c.sched.nextId)
  {
  }

  /** The id is retired only after the callback returns: a callback that
      cancels its own action is told the cancellation succeeded. */
  lemma ActiveWhileCompleting(c: Config, x: ScheduledAction)
    requires x in c.sched.queue && Classify(c, x) == Ran
    ensures Cancel(c.sched.(queue := c.sched.queue - multiset{x}), x.id).1
  {
  }

  lemma StepLowersWeight(c: Config, x: ScheduledAction)
    requires x in c.sched.queue
    ensures Bags.Sum(Step(c, x).sched.queue, Weight) < Bags.Sum(c.sched.queue, Weight)
  {
    var popped := c.sched.(queue := c.sched.queue - multiset{x});
    Bags.SumRemove(c.sched.queue, x, Weight);
    if Classify(c, x) == Ran {
      var fs := Followups(x.onComplete);
      ApplyRequestsWeight(popped, fs);
      assert Step(c, x).sched.queue == ApplyRequests(popped, fs).queue;
      assert RequestsWeight(fs) == CallbackWeight(x.onComplete);
    } else {
      assert Step(c, x).sched.queue == popped.queue;
    }
  }

  // ---------------------------------------------------------------------
  // The drain: every legal run of `update(t)`.

  /** No queued action is due at `t`: the loop condition of `update` fails. */
  ghost predicate Quiescent(s: State, t: int) {
    forall x :: x in s.queue ==> x.tick > t
  }

  /** One pass of the loop body of `update(t)`: from `c`, a next-due action
      `p.action` is popped and disposed of as `p.outcome` says, giving `c'`. */
  ghost predicate Moves(c: Config, t: int, p: Pop, c': Config) {
    && IsNext(p.action, c.sched.queue)
    && p.action.tick <= t
    && p.outcome == Classify(c, p.action)
    && c' == Step(c, p.action)
  }

  /** The `i`-th pop of `trace` leads from `history[i]` to `history[i + 1]`. */
  ghost predicate MovesAt(history: seq<Config>, t: int, trace: seq<Pop>, i: int) {
    0 <= i < |trace| && i + 1 < |history| && Moves(history[i], t, trace[i], history[i + 1])
  }

  /** `history[i]` is the state before the i-th pop of `trace`, and
      `history[|trace|]` the state the pops lead to. */
  ghost predicate Run(history: seq<Config>, t: int, trace: seq<Pop>) {
    && |history| == |trace| + 1
    && forall i :: 0 <= i < |trace| ==> MovesAt(history, t, trace, i)
  }

  /** A complete run of `update(t)`: it stops only once nothing is due. Which
      of several equally due actions is popped first is left open. */
  ghost predicate Drains(history: seq<Config>, t: int, trace: seq<Pop>) {
    Run(history, t, trace) && Quiescent(history[|trace|].sched, t)
  }

  /** Extending a run by one more pop of a next-due action. */
  lemma RunSnoc(history: seq<Config>, t: int, trace: seq<Pop>, x: ScheduledAction)
    requires Run(history, t, trace)
    requires IsNext(x, history[|trace|].sched.queue) && x.tick <= t
    ensures Run(history + [Step(history[|trace|], x)], t, trace + [Pop(x, Classify(history[|trace|], x))])
  {
    var c := history[|trace|];
    var h' := history + [Step(c, x)];
    var trace' := trace + [Pop(x, Classify(c, x))];
    forall i | 0 <= i < |trace'|
      ensures MovesAt(h', t, trace', i)
    {
      if i < |trace| {
        assert MovesAt(history, t, trace, i);
        assert h'[i] == history[i] && h'[i + 1] == history[i + 1] && trace'[i] == trace[i];
      }
    }
  }

  /** What the `i`-th pop of a run is: a next-due action of `history[i]`,
      disposed of as `Classify` says. */
  lemma PopAt(history: seq<Config>, t: int, trace: seq<Pop>, i: nat)
    requires Run(history, t, trace) && i < |trace|
    ensures trace[i].action in history[i].sched.queue
    ensures IsNext(trace[i].action, history[i].sched.queue)
    ensures trace[i].action.tick <= t
    ensures trace[i].outcome == Classify(history[i], trace[i].action)
  {
    assert MovesAt(history, t, trace, i);
  }

  /** The state after the `i`-th pop of a run. */
  lemma StepAt(history: seq<Config>, t: int, trace: seq<Pop>, i: nat)
    requires Run(history, t, trace) && i < |trace|
    ensures trace[i].action in history[i].sched.queue
    ensures history[i + 1] == Step(history[i], trace[i].action)
  {
    assert MovesAt(history, t, trace, i);
  }

  /** The loop condition only looks at the top, yet when the top is not due
      nothing in the queue is. */
  lemma NextNotDue(x: ScheduledAction, q: multiset<ScheduledAction>, t: int)
    requires IsNext(x, q) && x.tick > t
    ensures forall y :: y in q ==> y.tick > t
  {
    forall y | y in q
      ensures y.tick > t
    {
      assert !Less(x, y);
    }
  }

  /** A pop of a due action leaves every later action where it was. */
  lemma StepKeepsLater(c: Config, x: ScheduledAction, t: int)
    requires x in c.sched.queue && x.tick <= t
    ensures forall y: ScheduledAction :: y.tick > t ==> c.sched.queue[y] <= Step(c, x).sched.queue[y]
  {
    StepIds(c, x);
  }

  lemma LessIsStrictWeakOrder()
    ensures PriorityQueue.StrictWeakOrder(Less)
  {
  }

  /** `update(current_tick, registry, dispatcher)`: pops due actions, next-due
      first, re-examining the queue after every pop, until none is due. */
  method Update(c: Config, t: int) returns (c': Config, trace: seq<Pop>, ghost history: seq<Config>)
    ensures Drains(history, t, trace)
    ensures history[0] == c && history[|trace|] == c'
    ensures Quiescent(c'.sched, t)
    ensures Inv(c.sched) ==> Inv(c'.sched)
    ensures c'.sched.nextId >= c.sched.nextId
    ensures forall x: ScheduledAction :: x.tick > t ==> c.sched.queue[x] <= c'.sched.queue[x]
  {
    LessIsStrictWeakOrder();
    c' := c;
    trace := [];
    history := [c];
    while true
      invariant Run(history, t, trace)
      invariant history[0] == c && history[|trace|] == c'
      invariant Inv(c.sched) ==> Inv(c'.sched)
      invariant c'.sched.nextId >= c.sched.nextId
      invariant forall x: ScheduledAction :: x.tick > t ==> c.sched.queue[x] <= c'.sched.queue[x]
      decreases Bags.Sum(c'.sched.queue, Weight)
    {
      if c'.sched.queue == multiset{} {
        break;
      }
      PriorityQueue.TopExists(c'.sched.queue, Less);
      var x :| x in c'.sched.queue && IsNext(x, c'.sched.queue);
      if x.tick > t {
        NextNotDue(x, c'.sched.queue, t);
        break;
      }
      StepLowersWeight(c', x);
      StepKeepsLater(c', x, t);
      StepIds(c', x);
      RunSnoc(history, t, trace, x);
      trace := trace + [Pop(x, Classify(c', x))];
      c' := Step(c', x);
      history := history + [c'];
    }
  }
}
