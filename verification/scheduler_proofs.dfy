/** Properties of every legal run of the entity scheduler's `update`. */
module SchedulerProofs {
  import Bags
  import opened World
  import opened Scheduler

  // ---------------------------------------------------------------------
  // Ids: every reachable state keeps Inv, and a retired id stays retired.

  lemma {:induction false} RunKeepsInv(h: seq<Config>, t: int, trace: seq<Pop>, k: nat)
    requires Run(h, t, trace) && Inv(h[0].sched) && k <= |trace|
    ensures Inv(h[k].sched)
    decreases k
  {
    if k > 0 {
      RunKeepsInv(h, t, trace, k - 1);
      StepAt(h, t, trace, k - 1);
      StepIds(h[k - 1], trace[k - 1].action);
    }
  }

  /** An id that is issued but not active stays so for the rest of the run:
      only fresh ids are ever made active. */
  lemma {:induction false} RetiredStaysRetired(h: seq<Config>, t: int, trace: seq<Pop>, id: ActionId, i: nat, k: nat)
    requires Run(h, t, trace) && i <= k <= |trace|
    requires id !in h[i].sched.active && id < h[i].sched.nextId
    ensures id !in h[k].sched.active && id < h[k].sched.nextId
    decreases k - i
  {
    if k > i {
      RetiredStaysRetired(h, t, trace, id, i, k - 1);
      StepAt(h, t, trace, k - 1);
      StepIds(h[k - 1], trace[k - 1].action);
    }
  }

  /** An action whose id was cancelled before `update` reaches it is popped as
      a tombstone and never runs; `update` carries on past it. */
  lemma CancelledNeverRuns(h: seq<Config>, t: int, trace: seq<Pop>, id: ActionId)
    requires Run(h, t, trace)
    requires id !in h[0].sched.active && id < h[0].sched.nextId
    ensures forall i :: 0 <= i < |trace| && trace[i].action.id == id ==> trace[i].outcome == Cancelled
  {
    forall i | 0 <= i < |trace| && trace[i].action.id == id
      ensures trace[i].outcome == Cancelled
    {
      RetiredStaysRetired(h, t, trace, id, 0, i);
      PopAt(h, t, trace, i);
    }
  }

  /** `cancel(id)` on an issued id, then `update`: the action never runs. */
  lemma CancelThenUpdate(s: State, id: ActionId, h: seq<Config>, t: int, trace: seq<Pop>)
    requires Inv(s) && 1 <= id < s.nextId
    requires Run(h, t, trace) && h[0].sched == Cancel(s, id).0
    ensures forall i :: 0 <= i < |trace| && trace[i].action.id == id ==> trace[i].outcome != Ran
  {
    CancelledNeverRuns(h, t, trace, id);
  }

  /** The pop at position `i` retires its id for good. */
  lemma PopRetires(h: seq<Config>, t: int, trace: seq<Pop>, i: nat)
    requires Run(h, t, trace) && Inv(h[0].sched) && i < |trace|
    ensures forall k :: i < k <= |trace| ==>
      trace[i].action.id !in h[k].sched.active && trace[i].action.id < h[k].sched.nextId
  {
    RunKeepsInv(h, t, trace, i);
    StepAt(h, t, trace, i);
    StepIds(h[i], trace[i].action);
    forall k | i < k <= |trace|
      ensures trace[i].action.id !in h[k].sched.active && trace[i].action.id < h[k].sched.nextId
    {
      RetiredStaysRetired(h, t, trace, trace[i].action.id, i + 1, k);
    }
  }

  /** Every popped id leaves the active set, whether its action ran or was
      skipped, so a later `cancel` of it returns false. */
  lemma PoppedAreRetired(h: seq<Config>, t: int, trace: seq<Pop>)
    requires Run(h, t, trace) && Inv(h[0].sched)
    ensures forall i :: 0 <= i < |trace| ==> trace[i].action.id !in h[|trace|].sched.active
    ensures forall i :: 0 <= i < |trace| ==> !Cancel(h[|trace|].sched, trace[i].action.id).1
  {
    forall i | 0 <= i < |trace|
      ensures trace[i].action.id !in h[|trace|].sched.active
    {
      PopRetires(h, t, trace, i);
    }
  }

  /** Once an id has been popped, every later pop of the same id is a
      tombstone: each id runs at most once. */
  lemma RunsAtMostOnce(h: seq<Config>, t: int, trace: seq<Pop>)
    requires Run(h, t, trace) && Inv(h[0].sched)
    ensures forall i, j :: 0 <= i < j < |trace| && trace[i].action.id == trace[j].action.id ==>
      trace[j].outcome == Cancelled
  {
    forall i, j | 0 <= i < j < |trace| && trace[i].action.id == trace[j].action.id
      ensures trace[j].outcome == Cancelled
    {
      PopRetires(h, t, trace, i);
      PopAt(h, t, trace, j);
    }
  }

  // ---------------------------------------------------------------------
  // Order: ticks never go backwards, provided callbacks do not schedule
  // follow-ups earlier than the action that schedules them.

  ghost predicate ForwardCallback(cb: Callback, tick: int)
    decreases cb
  {
    match cb
    case NoCallback => true
    case Callback(_, fs) => forall i :: 0 <= i < |fs| ==> ForwardRequest(fs[i], tick)
  }

  ghost predicate ForwardRequest(r: Request, tick: int)
    decreases r
  {
    match r
    case CancelRequest(_) => true
    case ScheduleRequest(t2, _, _, cb) => t2 >= tick && ForwardCallback(cb, t2)
  }

  /** At any depth, an action's callback schedules nothing before it. */
  ghost predicate Forward(x: ScheduledAction) {
    ForwardCallback(x.onComplete, x.tick)
  }

  ghost predicate AllForward(q: multiset<ScheduledAction>) {
    forall x :: x in q ==> Forward(x)
  }

  lemma {:induction false} ApplyRequestsForward(s: State, rs: seq<Request>, b: int)
    requires forall i :: 0 <= i < |rs| ==> ForwardRequest(rs[i], b)
    ensures forall y :: y in ApplyRequests(s, rs).queue ==> y in s.queue || (y.tick >= b && Forward(y))
    decreases |rs|
  {
    if rs != [] {
      var next := match rs[0]
        case ScheduleRequest(tick, e, a, cb) => ScheduleAt(s, tick, e, a, cb).0
        case CancelRequest(id) => Cancel(s, id).0;
      assert forall y :: y in next.queue ==> y in s.queue || (y.tick >= b && Forward(y));
      ApplyRequestsForward(next, rs[1..], b);
    }
  }

  lemma StepForward(c: Config, x: ScheduledAction)
    requires x in c.sched.queue && Forward(x)
    ensures forall y :: y in Step(c, x).sched.queue ==> y in c.sched.queue || (y.tick >= x.tick && Forward(y))
  {
    var popped := c.sched.(queue := c.sched.queue - multiset{x});
    ApplyRequestsForward(popped, Followups(x.onComplete), x.tick);
  }

  /** If everything queued is forward and due no earlier than `b`, so is
      everything queued at any point of the run. */
  lemma {:induction false} RunStaysAbove(h: seq<Config>, t: int, trace: seq<Pop>, b: int, k: nat)
    requires Run(h, t, trace) && k <= |trace|
    requires forall y :: y in h[0].sched.queue ==> y.tick >= b && Forward(y)
    ensures forall y :: y in h[k].sched.queue ==> y.tick >= b && Forward(y)
    decreases k
  {
    if k > 0 {
      RunStaysAbove(h, t, trace, b, k - 1);
      StepAt(h, t, trace, k - 1);
      StepForward(h[k - 1], trace[k - 1].action);
    }
  }

  lemma {:induction false} RunStaysForward(h: seq<Config>, t: int, trace: seq<Pop>, k: nat)
    requires Run(h, t, trace) && AllForward(h[0].sched.queue) && k <= |trace|
    ensures AllForward(h[k].sched.queue)
    decreases k
  {
    if k > 0 {
      RunStaysForward(h, t, trace, k - 1);
      StepAt(h, t, trace, k - 1);
      StepForward(h[k - 1], trace[k - 1].action);
    }
  }

  /** After the pop at `k - 1`, nothing queued is due before the popped action. */
  lemma RunAfterPop(h: seq<Config>, t: int, trace: seq<Pop>, k: nat)
    requires Run(h, t, trace) && AllForward(h[0].sched.queue) && 0 < k <= |trace|
    ensures forall y :: y in h[k].sched.queue ==> y.tick >= trace[k - 1].action.tick
  {
    var x := trace[k - 1].action;
    RunStaysForward(h, t, trace, k - 1);
    StepAt(h, t, trace, k - 1);
    PopAt(h, t, trace, k - 1);
    StepForward(h[k - 1], x);
    forall y | y in h[k - 1].sched.queue
      ensures y.tick >= x.tick
    {
      assert !Less(x, y);
    }
  }

  lemma {:induction false} TicksChain(h: seq<Config>, t: int, trace: seq<Pop>, i: nat, j: nat)
    requires Run(h, t, trace) && AllForward(h[0].sched.queue) && i <= j < |trace|
    ensures trace[i].action.tick <= trace[j].action.tick
    decreases j - i
  {
    if i < j {
      TicksChain(h, t, trace, i, j - 1);
      RunAfterPop(h, t, trace, j);
      PopAt(h, t, trace, j);
    }
  }

  /** Within one `update`, actions are popped in non-decreasing tick order. */
  lemma DrainInTickOrder(h: seq<Config>, t: int, trace: seq<Pop>)
    requires Run(h, t, trace) && AllForward(h[0].sched.queue)
    ensures forall i, j :: 0 <= i <= j < |trace| ==> trace[i].action.tick <= trace[j].action.tick
  {
    forall i, j | 0 <= i <= j < |trace|
      ensures trace[i].action.tick <= trace[j].action.tick
    {
      TicksChain(h, t, trace, i, j);
    }
  }

  /** Across successive calls: everything the second `update` pops is due
      strictly after the first call's tick, hence after everything the first
      call popped. Nothing is scheduled in between. */
  lemma SuccessiveUpdatesInTickOrder(
    h1: seq<Config>, t1: int, trace1: seq<Pop>,
    h2: seq<Config>, t2: int, trace2: seq<Pop>)
    requires Drains(h1, t1, trace1) && AllForward(h1[0].sched.queue)
    requires Run(h2, t2, trace2) && h2[0] == h1[|trace1|]
    ensures forall i :: 0 <= i < |trace1| ==> trace1[i].action.tick <= t1
    ensures forall j :: 0 <= j < |trace2| ==> trace2[j].action.tick > t1
  {
    forall i | 0 <= i < |trace1|
      ensures trace1[i].action.tick <= t1
    {
      PopAt(h1, t1, trace1, i);
    }
    RunStaysForward(h1, t1, trace1, |trace1|);
    forall j | 0 <= j < |trace2|
      ensures trace2[j].action.tick > t1
    {
      RunStaysAbove(h2, t2, trace2, t1 + 1, j);
      PopAt(h2, t2, trace2, j);
    }
  }

  // ---------------------------------------------------------------------
  // Without re-entrant scheduling, the drain result is exact.

  /** No queued action has a callback that schedules or cancels anything. */
  ghost predicate Plain(q: multiset<ScheduledAction>) {
    forall x :: x in q ==> Followups(x.onComplete) == []
  }

  /** The popped actions, in pop order. */
  function Actions(trace: seq<Pop>): seq<ScheduledAction>
  {
    seq(|trace|, i requires 0 <= i < |trace| => trace[i].action)
  }

  /** The ids of the first `k` pops. */
  ghost function PoppedIds(trace: seq<Pop>, k: nat): set<ActionId>
    requires k <= |trace|
  {
    set j | 0 <= j < k :: trace[j].action.id
  }

  /** A pop whose callback requests nothing only removes the popped entry
      and retires its id. */
  lemma PlainStepAt(h: seq<Config>, t: int, trace: seq<Pop>, i: nat)
    requires Run(h, t, trace) && i < |trace| && Plain(h[i].sched.queue)
    ensures h[i + 1].sched.queue + multiset{trace[i].action} == h[i].sched.queue
    ensures h[i + 1].sched.active == h[i].sched.active - {trace[i].action.id}
    ensures h[i + 1].sched.nextId == h[i].sched.nextId
    ensures Plain(h[i + 1].sched.queue)
  {
    StepAt(h, t, trace, i);
    StepEffects(h[i], trace[i].action);
  }

  lemma PoppedIdsSnoc(trace: seq<Pop>, k: nat)
    requires 0 < k <= |trace|
    ensures PoppedIds(trace, k) == PoppedIds(trace, k - 1) + {trace[k - 1].action.id}
  {
  }

  lemma {:induction false} PlainRunInvariant(h: seq<Config>, t: int, trace: seq<Pop>, k: nat)
    requires Run(h, t, trace) && Plain(h[0].sched.queue) && k <= |trace|
    ensures h[k].sched.queue + multiset(Actions(trace)[..k]) == h[0].sched.queue
    ensures h[k].sched.active == h[0].sched.active - PoppedIds(trace, k)
    ensures h[k].sched.nextId == h[0].sched.nextId
    ensures Plain(h[k].sched.queue)
    decreases k
  {
    if k > 0 {
      PlainRunInvariant(h, t, trace, k - 1);
      var x := trace[k - 1].action;
      PlainStepAt(h, t, trace, k - 1);
      assert Actions(trace)[..k] == Actions(trace)[..k - 1] + [x];
      Bags.TakeOneMore(h[0].sched.queue, h[k - 1].sched.queue, h[k].sched.queue, Actions(trace)[..k - 1], x);
      PoppedIdsSnoc(trace, k);
      Bags.RetireOneMore(h[0].sched.active, h[k - 1].sched.active, h[k].sched.active, PoppedIds(trace, k - 1), x.id);
    }
  }

  /** Without re-entrant scheduling, `update(t)` pops exactly the actions due
      at `t` (each as often as it is queued) and leaves exactly the later ones
      queued; every popped id is retired and no id is issued. */
  lemma PlainDrainSplitsQueue(h: seq<Config>, t: int, trace: seq<Pop>)
    requires Drains(h, t, trace) && Plain(h[0].sched.queue)
    ensures forall x :: multiset(Actions(trace))[x] == if x.tick <= t then h[0].sched.queue[x] else 0
    ensures forall x :: h[|trace|].sched.queue[x] == if x.tick > t then h[0].sched.queue[x] else 0
    ensures h[|trace|].sched.nextId == h[0].sched.nextId
    ensures h[|trace|].sched.active == h[0].sched.active - (set x | x in h[0].sched.queue && x.tick <= t :: x.id)
  {
    var n := |trace|;
    var q0 := h[0].sched.queue;
    PlainRunInvariant(h, t, trace, n);
    assert Actions(trace)[..n] == Actions(trace);
    var popped := multiset(Actions(trace));
    forall x: ScheduledAction | x.tick > t
      ensures popped[x] == 0
    {
      if x in popped {
        var i :| 0 <= i < n && Actions(trace)[i] == x;
        PopAt(h, t, trace, i);
      }
    }
    forall x: ScheduledAction | x.tick <= t
      ensures h[n].sched.queue[x] == 0
    {
    }
    PoppedIdsAreDue(trace, q0, t);
  }

  /** When a trace pops exactly the actions of `q0` due at `t`, the ids it
      pops are exactly the ids of those actions. */
  lemma PoppedIdsAreDue(trace: seq<Pop>, q0: multiset<ScheduledAction>, t: int)
    requires forall x :: multiset(Actions(trace))[x] == if x.tick <= t then q0[x] else 0
    ensures PoppedIds(trace, |trace|) == set x | x in q0 && x.tick <= t :: x.id
  {
    var n := |trace|;
    var popped := multiset(Actions(trace));
    var due := set x | x in q0 && x.tick <= t :: x.id;
    forall id | id in PoppedIds(trace, n)
      ensures id in due
    {
      var j :| 0 <= j < n && trace[j].action.id == id;
      assert Actions(trace)[j] == trace[j].action;
      assert trace[j].action in popped;
    }
    forall id | id in due
      ensures id in PoppedIds(trace, n)
    {
      var x :| x in q0 && x.tick <= t && x.id == id;
      assert x in popped;
      var j :| 0 <= j < n && Actions(trace)[j] == x;
    }
  }

  /** Without re-entrant scheduling, a pop is consumed (run, or skipped for a
      destroyed entity) exactly when its id was active as `update` began and
      no earlier pop carried the same id; otherwise it is a tombstone. */
  lemma PlainDrainConsumes(h: seq<Config>, t: int, trace: seq<Pop>)
    requires Run(h, t, trace) && Plain(h[0].sched.queue)
    ensures forall i :: 0 <= i < |trace| ==>
      (trace[i].outcome != Cancelled <==>
        trace[i].action.id in h[0].sched.active && trace[i].action.id !in PoppedIds(trace, i))
  {
    forall i | 0 <= i < |trace|
      ensures trace[i].outcome != Cancelled <==>
        trace[i].action.id in h[0].sched.active && trace[i].action.id !in PoppedIds(trace, i)
    {
      PlainRunInvariant(h, t, trace, i);
      PopAt(h, t, trace, i);
    }
  }

  // ---------------------------------------------------------------------
  // The dispatcher sees one completion event per action that ran, in order.

  /** The `ActionCompleted` entries of an event queue, in order. */
  function Completions(es: seq<Emitted>): seq<Emitted>
  {
    if es == [] then []
    else Completions(es[..|es| - 1]) + (if es[|es| - 1].ActionCompleted? then [es[|es| - 1]] else [])
  }

  /** The completion event one pop owes the dispatcher: one if it ran, none otherwise. */
  function Completion(p: Pop): seq<Emitted>
  {
    if p.outcome == Ran then [ActionCompleted(p.action.id, p.action.entity)] else []
  }

  /** `ActionCompleted(id, entity)` for every pop that ran, in pop order. */
  function RanCompletions(trace: seq<Pop>): seq<Emitted>
  {
    if trace == [] then [] else RanCompletions(trace[..|trace| - 1]) + Completion(trace[|trace| - 1])
  }

  lemma RanCompletionsSnoc(trace: seq<Pop>, k: nat)
    requires 0 < k <= |trace|
    ensures RanCompletions(trace[..k]) == RanCompletions(trace[..k - 1]) + Completion(trace[k - 1])
  {
    assert trace[..k][..k - 1] == trace[..k - 1];
  }

  lemma {:induction false} CompletionsAppend(a: seq<Emitted>, b: seq<Emitted>)
    ensures Completions(a + b) == Completions(a) + Completions(b)
    decreases |b|
  {
    if b != [] {
      var b' := b[..|b| - 1];
      var ab := a + b;
      assert ab != [];
      assert ab[..|ab| - 1] == a + b';
      assert ab[|ab| - 1] == b[|b| - 1];
      CompletionsAppend(a, b');
      var last := if b[|b| - 1].ActionCompleted? then [b[|b| - 1]] else [];
      assert Completions(ab) == Completions(a + b') + last;
      assert Completions(b) == Completions(b') + last;
      assert Completions(a) + Completions(b') + last == Completions(a) + (Completions(b') + last);
    } else {
      assert a + b == a;
    }
  }

  lemma {:induction false} NoCompletions(es: seq<Emitted>)
    requires forall i :: 0 <= i < |es| ==> es[i].Published?
    ensures Completions(es) == []
    decreases |es|
  {
    if es != [] {
      NoCompletions(es[..|es| - 1]);
    }
  }

  /** What one pop appends to the dispatcher's queue. */
  lemma EventsAt(h: seq<Config>, t: int, trace: seq<Pop>, i: nat)
    requires Run(h, t, trace) && i < |trace|
    ensures h[i + 1].events == if trace[i].outcome == Ran
      then h[i].events + [ActionCompleted(trace[i].action.id, trace[i].action.entity)] + Announce(trace[i].action.onComplete)
      else h[i].events
  {
    PopAt(h, t, trace, i);
    StepAt(h, t, trace, i);
    StepEffects(h[i], trace[i].action);
  }

  /** Appending one pop's events adds its completion, if any, and nothing else. */
  lemma CompletionsOfPop(e: seq<Emitted>, p: Pop)
    ensures Completions(if p.outcome == Ran
      then e + [ActionCompleted(p.action.id, p.action.entity)] + Announce(p.action.onComplete)
      else e)
      == Completions(e) + Completion(p)
  {
    if p.outcome == Ran {
      var done := [ActionCompleted(p.action.id, p.action.entity)];
      CompletionsAppend(e + done, Announce(p.action.onComplete));
      NoCompletions(Announce(p.action.onComplete));
      CompletionsAppend(e, done);
      assert Completions(done) == done by {
        assert done[..0] == [];
      }
    } else {
      assert e + [] == e;
    }
  }

  /** What one pop of a run adds to the dispatcher's completion events. */
  lemma CompletionsAt(h: seq<Config>, t: int, trace: seq<Pop>, i: nat)
    requires Run(h, t, trace) && i < |trace|
    ensures Completions(h[i + 1].events) == Completions(h[i].events) + Completion(trace[i])
  {
    EventsAt(h, t, trace, i);
    CompletionsOfPop(h[i].events, trace[i]);
  }

  lemma {:induction false} CompletionsUpTo(h: seq<Config>, t: int, trace: seq<Pop>, k: nat)
    requires Run(h, t, trace) && k <= |trace|
    ensures Completions(h[k].events) == Completions(h[0].events) + RanCompletions(trace[..k])
    decreases k
  {
    if k > 0 {
      CompletionsUpTo(h, t, trace, k - 1);
      CompletionsAt(h, t, trace, k - 1);
      CompletionsExtend(h[k - 1].events, h[k].events, Completions(h[0].events), trace, k);
    }
  }

  /** One more pop of the trace adds its completion to those counted so far. */
  lemma CompletionsExtend(before: seq<Emitted>, after: seq<Emitted>, start: seq<Emitted>, trace: seq<Pop>, k: nat)
    requires 0 < k <= |trace|
    requires Completions(before) == start + RanCompletions(trace[..k - 1])
    requires Completions(after) == Completions(before) + Completion(trace[k - 1])
    ensures Completions(after) == start + RanCompletions(trace[..k])
  {
    RanCompletionsSnoc(trace, k);
    var done, last := RanCompletions(trace[..k - 1]), Completion(trace[k - 1]);
    assert start + done + last == start + (done + last);
  }

  /** The completion events `update` enqueues are exactly one
      `ActionCompleted(id, entity)` per action that ran, in the order they ran:
      none for a cancelled action, none for an action whose entity was gone. */
  lemma CompletionEventsMatchRuns(h: seq<Config>, t: int, trace: seq<Pop>)
    requires Run(h, t, trace)
    ensures Completions(h[|trace|].events) == Completions(h[0].events) + RanCompletions(trace)
  {
    CompletionsUpTo(h, t, trace, |trace|);
    assert trace[..|trace|] == trace;
  }

  /** An action queued at some point of `update` stays queued until a pop
      takes it, whatever the callbacks schedule or cancel meanwhile. */
  lemma {:induction false} QueuedUntilPopped(h: seq<Config>, t: int, trace: seq<Pop>, x: ScheduledAction, j: nat, k: nat)
    requires Run(h, t, trace) && j <= k <= |trace| && x in h[j].sched.queue
    requires forall i :: j <= i < k ==> trace[i].action != x
    ensures x in h[k].sched.queue
    decreases k
  {
    if k > j {
      QueuedUntilPopped(h, t, trace, x, j, k - 1);
      StepAt(h, t, trace, k - 1);
      StepIds(h[k - 1], trace[k - 1].action);
      assert x in h[k - 1].sched.queue - multiset{trace[k - 1].action};
    }
  }

  /** Once an action due by `t` is queued, `update(t)` pops it later on. */
  lemma QueuedIsPopped(h: seq<Config>, t: int, trace: seq<Pop>, x: ScheduledAction, j: nat)
    requires Drains(h, t, trace) && j <= |trace| && x in h[j].sched.queue && x.tick <= t
    ensures exists i :: j <= i < |trace| && trace[i].action == x
  {
    if forall i :: j <= i < |trace| ==> trace[i].action != x {
      QueuedUntilPopped(h, t, trace, x, j, |trace|);
      assert false;
    }
  }

  /** `update(t)` pops every action that is due when it begins, re-entrant
      callbacks or not. */
  lemma DueIsPopped(h: seq<Config>, t: int, trace: seq<Pop>, x: ScheduledAction)
    requires Drains(h, t, trace) && x in h[0].sched.queue && x.tick <= t
    ensures exists i :: 0 <= i < |trace| && trace[i].action == x
  {
    QueuedIsPopped(h, t, trace, x, 0);
  }

  /** A follow-up a callback schedules at a tick no later than `t` is popped
      by the same `update(t)`, after its parent, under the id it was issued. */
  lemma FollowupIsPopped(h: seq<Config>, t: int, trace: seq<Pop>, i: nat, j: nat)
    requires Drains(h, t, trace) && i < |trace| && trace[i].outcome == Ran
    requires j < |Followups(trace[i].action.onComplete)|
    requires Followups(trace[i].action.onComplete)[j].ScheduleRequest?
    requires Followups(trace[i].action.onComplete)[j].tick <= t
    ensures exists k :: i < k < |trace| && trace[k].action == Spawned(h[i].sched.nextId, Followups(trace[i].action.onComplete), j)
  {
    var x := trace[i].action;
    var rs := Followups(x.onComplete);
    StepAt(h, t, trace, i);
    PopAt(h, t, trace, i);
    var popped := h[i].sched.(queue := h[i].sched.queue - multiset{x});
    ApplyRequestsQueues(popped, rs, j);
    QueuedIsPopped(h, t, trace, Spawned(h[i].sched.nextId, rs, j), i + 1);
  }

  // ---------------------------------------------------------------------
  // The public operations around `update`.

  /** `clear()` followed by `update(t)` pops nothing and changes nothing. */
  lemma ClearThenUpdate(s: State, h: seq<Config>, t: int, trace: seq<Pop>)
    requires Run(h, t, trace) && h[0].sched == Clear(s)
    ensures trace == [] && h[|trace|] == h[0]
  {
    if trace != [] {
      PopAt(h, t, trace, 0);
      assert false;
    }
  }

  /** A second `cancel` of the same id returns false and changes nothing. */
  lemma CancelTwice(s: State, id: ActionId)
    ensures Cancel(Cancel(s, id).0, id) == (Cancel(s, id).0, false)
  {
  }

  /** `cancel` of an id never issued (0 included) returns false and changes nothing. */
  lemma CancelUnissued(s: State, id: ActionId)
    requires Inv(s) && (id == 0 || id >= s.nextId)
    ensures Cancel(s, id) == (s, false)
  {
  }

  /** Successive schedules return 1, 2, 3, … from a fresh scheduler: strictly
      increasing and never 0; each returned id can be cancelled once. */
  lemma ScheduleIdsIncrease(s: State, a: ScheduledAction, b: ScheduledAction)
    requires Inv(s)
    ensures Schedule(s, a).1 >= 1
    ensures Schedule(s, a).1 < Schedule(Schedule(s, a).0, b).1
    ensures Cancel(Schedule(s, a).0, Schedule(s, a).1).1
    ensures Init().nextId == 1 && Schedule(Init(), a).1 == 1
  {
  }

  /** Scenario of a re-entrant callback: `y` runs at tick 2 and its callback
      schedules `z` for tick 2 on the same entity. */
  function ReentrantParent(n: ActionId, e: Entity): ScheduledAction {
    ScheduledAction(n, 2, e, Opaque(0, {}), Callback([], [ScheduleRequest(2, e, Opaque(1, {}), NoCallback)]))
  }

  function ReentrantChild(n: ActionId, e: Entity): ScheduledAction {
    ScheduledAction(n + 1, 2, e, Opaque(1, {}), NoCallback)
  }

  lemma ReentrantFirstPop(n: ActionId, e: Entity, reg: Registry)
    requires Valid(reg, e)
    ensures var c := Config(State(multiset{ReentrantParent(n, e)}, {n}, n + 1), reg, []);
      && Classify(c, ReentrantParent(n, e)) == Ran
      && Step(c, ReentrantParent(n, e))
         == Config(State(multiset{ReentrantChild(n, e)}, {n + 1}, n + 2), reg, [ActionCompleted(n, e)])
  {
    var y := ReentrantParent(n, e);
    var c := Config(State(multiset{y}, {n}, n + 1), reg, []);
    var popped := State(multiset{}, {n}, n + 1);
    var req := ScheduleRequest(2, e, Opaque(1, {}), NoCallback);
    assert Registry(reg.live - {}, reg.health - {}) == reg;
    assert Announce(y.onComplete) == [];
    assert c.sched.(queue := c.sched.queue - multiset{y}) == popped;
    assert ApplyRequests(popped, [req]) == ApplyRequests(ScheduleAt(popped, 2, e, Opaque(1, {}), NoCallback).0, []) by {
      assert [req][1..] == [];
    }
  }

  lemma ReentrantSecondPop(n: ActionId, e: Entity, reg: Registry)
    requires Valid(reg, e)
    ensures var c := Config(State(multiset{ReentrantChild(n, e)}, {n + 1}, n + 2), reg, [ActionCompleted(n, e)]);
      && Classify(c, ReentrantChild(n, e)) == Ran
      && Step(c, ReentrantChild(n, e))
         == Config(State(multiset{}, {}, n + 2), reg, [ActionCompleted(n, e), ActionCompleted(n + 1, e)])
  {
    assert Registry(reg.live - {}, reg.health - {}) == reg;
  }

  /** When a single due action is queued, a drain must pop it next. */
  lemma SolePop(h: seq<Config>, t: int, trace: seq<Pop>, i: nat, y: ScheduledAction)
    requires Drains(h, t, trace) && i <= |trace|
    requires h[i].sched.queue == multiset{y} && y.tick <= t
    ensures i < |trace| && trace[i] == Pop(y, Classify(h[i], y)) && h[i + 1] == Step(h[i], y)
  {
    if i == |trace| {
      assert false;
    }
    PopAt(h, t, trace, i);
    StepAt(h, t, trace, i);
  }

  /** A lone action at tick 2 on a live entity whose callback schedules a
      follow-up at tick 2: every complete `update(2)` runs the parent, then
      the follow-up, and emits both completion events in that order. With
      other actions due as well, the follow-up is still popped in the same
      `update`, but not necessarily right after its parent
      (`FollowupIsPopped`). */
  lemma FollowupRunsInSameUpdate(n: ActionId, e: Entity, reg: Registry, h: seq<Config>, trace: seq<Pop>)
    requires Valid(reg, e)
    requires Drains(h, 2, trace)
    requires h[0] == Config(State(multiset{ReentrantParent(n, e)}, {n}, n + 1), reg, [])
    ensures trace == [Pop(ReentrantParent(n, e), Ran), Pop(ReentrantChild(n, e), Ran)]
    ensures h[2].events == [ActionCompleted(n, e), ActionCompleted(n + 1, e)]
  {
    ReentrantFirstPop(n, e, reg);
    SolePop(h, 2, trace, 0, ReentrantParent(n, e));
    FollowupAfterParent(n, e, reg, h, trace);
  }

  lemma FollowupAfterParent(n: ActionId, e: Entity, reg: Registry, h: seq<Config>, trace: seq<Pop>)
    requires Valid(reg, e)
    requires Drains(h, 2, trace) && 1 <= |trace|
    requires h[1] == Config(State(multiset{ReentrantChild(n, e)}, {n + 1}, n + 2), reg, [ActionCompleted(n, e)])
    ensures |trace| == 2 && trace[1] == Pop(ReentrantChild(n, e), Ran)
    ensures h[2].events == [ActionCompleted(n, e), ActionCompleted(n + 1, e)]
  {
    ReentrantSecondPop(n, e, reg);
    SolePop(h, 2, trace, 1, ReentrantChild(n, e));
    if |trace| > 2 {
      PopAt(h, 2, trace, 2);
      assert false;
    }
  }
}
