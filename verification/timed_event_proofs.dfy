/** Properties of every legal run of the timed event scheduler's `update`. */
module TimedEventProofs {
  import Bags
  import opened TimedEventScheduler

  // ---------------------------------------------------------------------
  // Ids: every reachable state keeps Inv, and a retired id stays retired.

  lemma {:induction false} RunKeepsInv(h: seq<State>, t: int, trace: seq<Pop>, k: nat)
    requires Run(h, t, trace) && Inv(h[0]) && k <= |trace|
    ensures Inv(h[k])
    decreases k
  {
    if k > 0 {
      RunKeepsInv(h, t, trace, k - 1);
      StepAt(h, t, trace, k - 1);
      StepIds(h[k - 1], trace[k - 1].event);
    }
  }

  /** An id that is issued but not active stays so for the rest of the run. */
  lemma {:induction false} RetiredStaysRetired(h: seq<State>, t: int, trace: seq<Pop>, id: EventId, i: nat, k: nat)
    requires Run(h, t, trace) && i <= k <= |trace|
    requires id !in h[i].active && id < h[i].nextId
    ensures id !in h[k].active && id < h[k].nextId
    decreases k - i
  {
    if k > i {
      RetiredStaysRetired(h, t, trace, id, i, k - 1);
      StepAt(h, t, trace, k - 1);
      StepIds(h[k - 1], trace[k - 1].event);
    }
  }

  /** An event whose id was cancelled before `update` reaches it is popped
      and skipped, never executed. */
  lemma CancelledNeverExecutes(h: seq<State>, t: int, trace: seq<Pop>, id: EventId)
    requires Run(h, t, trace)
    requires id !in h[0].active && id < h[0].nextId
    ensures forall i :: 0 <= i < |trace| && trace[i].event.id == id ==> trace[i].outcome == Skipped
  {
    forall i | 0 <= i < |trace| && trace[i].event.id == id
      ensures trace[i].outcome == Skipped
    {
      RetiredStaysRetired(h, t, trace, id, 0, i);
      PopAt(h, t, trace, i);
    }
  }

  /** The pop at position `i` retires its id for good. */
  lemma PopRetires(h: seq<State>, t: int, trace: seq<Pop>, i: nat)
    requires Run(h, t, trace) && Inv(h[0]) && i < |trace|
    ensures forall k :: i < k <= |trace| ==>
      trace[i].event.id !in h[k].active && trace[i].event.id < h[k].nextId
  {
    RunKeepsInv(h, t, trace, i);
    StepAt(h, t, trace, i);
    StepIds(h[i], trace[i].event);
    forall k | i < k <= |trace|
      ensures trace[i].event.id !in h[k].active && trace[i].event.id < h[k].nextId
    {
      RetiredStaysRetired(h, t, trace, trace[i].event.id, i + 1, k);
    }
  }

  /** Once an id has been popped, every later pop of it is skipped: each event
      executes at most once, and a `cancelEvent` of a popped id returns false. */
  lemma ExecutesAtMostOnce(h: seq<State>, t: int, trace: seq<Pop>)
    requires Run(h, t, trace) && Inv(h[0])
    ensures forall i, j :: 0 <= i < j < |trace| && trace[i].event.id == trace[j].event.id ==>
      trace[j].outcome == Skipped
    ensures forall i :: 0 <= i < |trace| ==> !CancelEvent(h[|trace|], trace[i].event.id).1
  {
    forall i, j | 0 <= i < j < |trace| && trace[i].event.id == trace[j].event.id
      ensures trace[j].outcome == Skipped
    {
      PopRetires(h, t, trace, i);
      PopAt(h, t, trace, j);
    }
    forall i | 0 <= i < |trace|
      ensures trace[i].event.id !in h[|trace|].active
    {
      PopRetires(h, t, trace, i);
    }
  }

  // ---------------------------------------------------------------------
  // Order: events leave in (tick, higher priority first) order, provided
  // executing events schedule nothing that precedes themselves.

  ghost predicate ForwardEvent(e: TimedEvent)
    decreases e
  {
    forall i :: 0 <= i < |e.followups| ==> ForwardRequest(e.followups[i], e)
  }

  ghost predicate ForwardRequest(r: EventRequest, parent: TimedEvent)
    decreases r
  {
    match r
    case CancelEventRequest(_) => true
    case ScheduleEventRequest(e) => !Precedes(e, parent) && ForwardEvent(e)
  }

  /** Whether a request is forward depends on the parent's tick and priority only. */
  lemma ForwardRequestKey(r: EventRequest, p: TimedEvent, p': TimedEvent)
    requires p.tick == p'.tick && p.priority == p'.priority
    ensures ForwardRequest(r, p) == ForwardRequest(r, p')
  {
  }

  ghost predicate AllForward(q: multiset<TimedEvent>) {
    forall x :: x in q ==> ForwardEvent(x)
  }

  /** Everything queued is forward and due no earlier than `b`. */
  ghost predicate ForwardFrom(q: multiset<TimedEvent>, b: int) {
    forall y :: y in q ==> y.tick >= b && ForwardEvent(y)
  }

  lemma {:induction false} ApplyRequestsForward(s: State, rs: seq<EventRequest>, parent: TimedEvent)
    requires forall i :: 0 <= i < |rs| ==> ForwardRequest(rs[i], parent)
    ensures forall y :: y in ApplyRequests(s, rs).queue ==> y in s.queue || (!Precedes(y, parent) && ForwardEvent(y))
    decreases |rs|
  {
    if rs != [] {
      var next := match rs[0]
        case ScheduleEventRequest(e) => ScheduleEvent(s, e).0
        case CancelEventRequest(id) => CancelEvent(s, id).0;
      if rs[0].ScheduleEventRequest? {
        var e := rs[0].event;
        var stamped := Stamp(e, s.nextId);
        assert ForwardEvent(e);
        forall i | 0 <= i < |stamped.followups|
          ensures ForwardRequest(stamped.followups[i], stamped)
        {
          assert ForwardRequest(e.followups[i], e);
          ForwardRequestKey(e.followups[i], e, stamped);
        }
      }
      assert forall y :: y in next.queue ==> y in s.queue || (!Precedes(y, parent) && ForwardEvent(y));
      ApplyRequestsForward(next, rs[1..], parent);
    }
  }

  lemma StepForward(s: State, x: TimedEvent)
    requires x in s.queue && ForwardEvent(x)
    ensures forall y :: y in Step(s, x).queue ==> y in s.queue || (!Precedes(y, x) && ForwardEvent(y))
  {
    ApplyRequestsForward(s.(queue := s.queue - multiset{x}), x.followups, x);
  }

  lemma {:induction false} RunStaysForward(h: seq<State>, t: int, trace: seq<Pop>, k: nat)
    requires Run(h, t, trace) && AllForward(h[0].queue) && k <= |trace|
    ensures AllForward(h[k].queue)
    decreases k
  {
    if k > 0 {
      RunStaysForward(h, t, trace, k - 1);
      StepAt(h, t, trace, k - 1);
      StepForward(h[k - 1], trace[k - 1].event);
    }
  }

  /** If nothing queued precedes `b`, nothing queued at any later point of the
      run does either. */
  lemma {:induction false} RunStaysFrom(h: seq<State>, t: int, trace: seq<Pop>, b: int, k: nat)
    requires Run(h, t, trace) && ForwardFrom(h[0].queue, b) && k <= |trace|
    ensures ForwardFrom(h[k].queue, b)
    decreases k
  {
    if k > 0 {
      RunStaysFrom(h, t, trace, b, k - 1);
      var x := trace[k - 1].event;
      StepAt(h, t, trace, k - 1);
      StepForward(h[k - 1], x);

    }
  }

  /** After the pop at `k - 1`, nothing queued precedes the popped event. */
  lemma RunAfterPop(h: seq<State>, t: int, trace: seq<Pop>, k: nat)
    requires Run(h, t, trace) && AllForward(h[0].queue) && 0 < k <= |trace|
    ensures forall y :: y in h[k].queue ==> !Precedes(y, trace[k - 1].event)
  {
    var x := trace[k - 1].event;
    RunStaysForward(h, t, trace, k - 1);
    StepAt(h, t, trace, k - 1);
    PopAt(h, t, trace, k - 1);
    StepForward(h[k - 1], x);
    forall y | y in h[k - 1].queue
      ensures !Precedes(y, x)
    {
      assert !Compare(x, y);
    }
  }

  lemma {:induction false} OrderChain(h: seq<State>, t: int, trace: seq<Pop>, i: nat, j: nat)
    requires Run(h, t, trace) && AllForward(h[0].queue) && i <= j < |trace|
    ensures !Precedes(trace[j].event, trace[i].event)
    decreases j - i
  {
    if i < j {
      OrderChain(h, t, trace, i, j - 1);
      RunAfterPop(h, t, trace, j);
      PopAt(h, t, trace, j);
    }
  }

  /** Within one `update`, events leave in non-decreasing tick order and,
      within a tick, in non-increasing priority order. */
  lemma DrainInOrder(h: seq<State>, t: int, trace: seq<Pop>)
    requires Run(h, t, trace) && AllForward(h[0].queue)
    ensures forall i, j :: 0 <= i <= j < |trace| ==>
      trace[i].event.tick < trace[j].event.tick
      || (trace[i].event.tick == trace[j].event.tick && trace[i].event.priority >= trace[j].event.priority)
  {
    forall i, j | 0 <= i <= j < |trace|
      ensures !Precedes(trace[j].event, trace[i].event)
    {
      OrderChain(h, t, trace, i, j);
    }
  }

  /** Across successive calls: everything the first `update(t1)` pops is due
      by `t1`, everything the next call pops is due strictly later. */
  lemma SuccessiveUpdatesInOrder(
    h1: seq<State>, t1: int, trace1: seq<Pop>,
    h2: seq<State>, t2: int, trace2: seq<Pop>)
    requires Drains(h1, t1, trace1) && AllForward(h1[0].queue)
    requires Run(h2, t2, trace2) && h2[0] == h1[|trace1|]
    ensures forall i :: 0 <= i < |trace1| ==> trace1[i].event.tick <= t1
    ensures forall j :: 0 <= j < |trace2| ==> trace2[j].event.tick > t1
  {
    forall i | 0 <= i < |trace1|
      ensures trace1[i].event.tick <= t1
    {
      PopAt(h1, t1, trace1, i);
    }
    RunStaysForward(h1, t1, trace1, |trace1|);
    forall j | 0 <= j < |trace2|
      ensures trace2[j].event.tick > t1
    {
      RunStaysFrom(h2, t2, trace2, t1 + 1, j);
      PopAt(h2, t2, trace2, j);
    }
  }

  // ---------------------------------------------------------------------
  // Without re-entrant scheduling, `update` executes exactly the still-active
  // due events.

  /** No queued event's body calls back into the scheduler. */
  ghost predicate Plain(q: multiset<TimedEvent>) {
    forall x :: x in q ==> x.followups == []
  }

  /** The popped events, in pop order. */
  function Events(trace: seq<Pop>): seq<TimedEvent>
  {
    seq(|trace|, i requires 0 <= i < |trace| => trace[i].event)
  }

  /** The ids of the first `k` pops. */
  ghost function PoppedIds(trace: seq<Pop>, k: nat): set<EventId>
    requires k <= |trace|
  {
    set j | 0 <= j < k :: trace[j].event.id
  }

  /** The ids of the events that executed. */
  ghost function ExecutedIds(trace: seq<Pop>): set<EventId> {
    set j | 0 <= j < |trace| && trace[j].outcome == Executed :: trace[j].event.id
  }

  lemma PlainStepAt(h: seq<State>, t: int, trace: seq<Pop>, i: nat)
    requires Run(h, t, trace) && i < |trace| && Plain(h[i].queue)
    ensures h[i + 1].queue + multiset{trace[i].event} == h[i].queue
    ensures h[i + 1].active == h[i].active - {trace[i].event.id}
    ensures h[i + 1].nextId == h[i].nextId
    ensures Plain(h[i + 1].queue)
  {
    StepAt(h, t, trace, i);
    StepEffects(h[i], trace[i].event);
  }

  lemma PoppedIdsSnoc(trace: seq<Pop>, k: nat)
    requires 0 < k <= |trace|
    ensures PoppedIds(trace, k) == PoppedIds(trace, k - 1) + {trace[k - 1].event.id}
  {
  }

  lemma {:induction false} PlainRunInvariant(h: seq<State>, t: int, trace: seq<Pop>, k: nat)
    requires Run(h, t, trace) && Plain(h[0].queue) && k <= |trace|
    ensures h[k].queue + multiset(Events(trace)[..k]) == h[0].queue
    ensures h[k].active == h[0].active - PoppedIds(trace, k)
    ensures h[k].nextId == h[0].nextId
    ensures Plain(h[k].queue)
    decreases k
  {
    if k > 0 {
      PlainRunInvariant(h, t, trace, k - 1);
      var x := trace[k - 1].event;
      PlainStepAt(h, t, trace, k - 1);
      assert Events(trace)[..k] == Events(trace)[..k - 1] + [x];
      Bags.TakeOneMore(h[0].queue, h[k - 1].queue, h[k].queue, Events(trace)[..k - 1], x);
      PoppedIdsSnoc(trace, k);
      Bags.RetireOneMore(h[0].active, h[k - 1].active, h[k].active, PoppedIds(trace, k - 1), x.id);
    }
  }

  /** The first pop that carries a given id. */
  lemma {:induction false} FirstPopOf(trace: seq<Pop>, id: EventId, j: nat)
    requires j < |trace| && trace[j].event.id == id
    ensures exists i :: 0 <= i <= j && trace[i].event.id == id && id !in PoppedIds(trace, i)
    decreases j
  {
    if id in PoppedIds(trace, j) {
      var i :| 0 <= i < j && trace[i].event.id == id;
      FirstPopOf(trace, id, i);
    }
  }

  /** Without re-entrant scheduling, `update(t)` pops exactly the events due
      at `t` (each as often as it is queued) and leaves exactly the later ones
      queued; afterwards none of the due ids is active. */
  lemma PlainDrainSplitsQueue(h: seq<State>, t: int, trace: seq<Pop>)
    requires Drains(h, t, trace) && Plain(h[0].queue)
    ensures forall x :: multiset(Events(trace))[x] == if x.tick <= t then h[0].queue[x] else 0
    ensures forall x :: h[|trace|].queue[x] == if x.tick > t then h[0].queue[x] else 0
    ensures h[|trace|].active == h[0].active - (set x | x in h[0].queue && x.tick <= t :: x.id)
    ensures h[|trace|].nextId == h[0].nextId
  {
    var n := |trace|;
    var q0 := h[0].queue;
    PlainRunInvariant(h, t, trace, n);
    assert Events(trace)[..n] == Events(trace);
    var popped := multiset(Events(trace));
    forall x: TimedEvent | x.tick > t
      ensures popped[x] == 0
    {
      if x in popped {
        var i :| 0 <= i < n && Events(trace)[i] == x;
        PopAt(h, t, trace, i);
      }
    }
    forall x: TimedEvent | x.tick <= t
      ensures h[n].queue[x] == 0
    {
    }
    PoppedIdsAreDue(trace, q0, t);
  }

  /** When a trace pops exactly the events of `q0` due at `t`, the ids it
      pops are exactly the ids of those events. */
  lemma PoppedIdsAreDue(trace: seq<Pop>, q0: multiset<TimedEvent>, t: int)
    requires forall x :: multiset(Events(trace))[x] == if x.tick <= t then q0[x] else 0
    ensures PoppedIds(trace, |trace|) == set x | x in q0 && x.tick <= t :: x.id
  {
    var n := |trace|;
    var popped := multiset(Events(trace));
    var due := set x | x in q0 && x.tick <= t :: x.id;
    forall id | id in PoppedIds(trace, n)
      ensures id in due
    {
      var j :| 0 <= j < n && trace[j].event.id == id;
      assert Events(trace)[j] == trace[j].event;
      assert trace[j].event in popped;
    }
    forall id | id in due
      ensures id in PoppedIds(trace, n)
    {
      var x :| x in q0 && x.tick <= t && x.id == id;
      assert x in popped;
      var j :| 0 <= j < n && Events(trace)[j] == x;
    }
  }

  /** Without re-entrant scheduling, the events `update(t)` executes are
      exactly the due ones whose id was still active when it began. */
  lemma PlainDrainExecutesActiveDue(h: seq<State>, t: int, trace: seq<Pop>)
    requires Drains(h, t, trace) && Plain(h[0].queue)
    ensures ExecutedIds(trace) == set x | x in h[0].queue && x.tick <= t && x.id in h[0].active :: x.id
  {
    var n := |trace|;
    var q0 := h[0].queue;
    PlainDrainSplitsQueue(h, t, trace);
    var popped := multiset(Events(trace));
    var live := set x | x in q0 && x.tick <= t && x.id in h[0].active :: x.id;
    forall id | id in ExecutedIds(trace)
      ensures id in live
    {
      var j :| 0 <= j < n && trace[j].outcome == Executed && trace[j].event.id == id;
      var x := trace[j].event;
      PlainRunInvariant(h, t, trace, j);
      PopAt(h, t, trace, j);
      assert Events(trace)[j] == x;
      assert x in popped;
    }
    forall id | id in live
      ensures id in ExecutedIds(trace)
    {
      var x :| x in q0 && x.tick <= t && x.id in h[0].active && x.id == id;
      assert x in popped;
      var j :| 0 <= j < n && Events(trace)[j] == x;
      FirstPopOf(trace, id, j);
      var i :| 0 <= i <= j && trace[i].event.id == id && id !in PoppedIds(trace, i);
      PlainRunInvariant(h, t, trace, i);
      PopAt(h, t, trace, i);
    }
  }

  /** An event queued at some point of `update` stays queued until a pop
      takes it, whatever the executing events schedule or cancel meanwhile. */
  lemma {:induction false} QueuedUntilPopped(h: seq<State>, t: int, trace: seq<Pop>, x: TimedEvent, j: nat, k: nat)
    requires Run(h, t, trace) && j <= k <= |trace| && x in h[j].queue
    requires forall i :: j <= i < k ==> trace[i].event != x
    ensures x in h[k].queue
    decreases k
  {
    if k > j {
      QueuedUntilPopped(h, t, trace, x, j, k - 1);
      StepAt(h, t, trace, k - 1);
      StepIds(h[k - 1], trace[k - 1].event);
      assert x in h[k - 1].queue - multiset{trace[k - 1].event};
    }
  }

  /** Once an event due by `t` is queued, `update(t)` pops it later on. */
  lemma QueuedIsPopped(h: seq<State>, t: int, trace: seq<Pop>, x: TimedEvent, j: nat)
    requires Drains(h, t, trace) && j <= |trace| && x in h[j].queue && x.tick <= t
    ensures exists i :: j <= i < |trace| && trace[i].event == x
  {
    if forall i :: j <= i < |trace| ==> trace[i].event != x {
      QueuedUntilPopped(h, t, trace, x, j, |trace|);
      assert false;
    }
  }

  /** `update(t)` pops every event that is due when it begins, re-entrant
      calls or not. */
  lemma DueIsPopped(h: seq<State>, t: int, trace: seq<Pop>, x: TimedEvent)
    requires Drains(h, t, trace) && x in h[0].queue && x.tick <= t
    ensures exists i :: 0 <= i < |trace| && trace[i].event == x
  {
    QueuedIsPopped(h, t, trace, x, 0);
  }

  /** An event that an executing event schedules at a tick no later than `t`
      is popped by the same `update(t)`, after the event that scheduled it,
      under the id it was issued. */
  lemma FollowupIsPopped(h: seq<State>, t: int, trace: seq<Pop>, i: nat, j: nat)
    requires Drains(h, t, trace) && i < |trace| && trace[i].outcome == Executed
    requires j < |trace[i].event.followups|
    requires trace[i].event.followups[j].ScheduleEventRequest?
    requires trace[i].event.followups[j].event.tick <= t
    ensures exists k :: i < k < |trace| && trace[k].event == Spawned(h[i].nextId, trace[i].event.followups, j)
  {
    var x := trace[i].event;
    var rs := x.followups;
    StepAt(h, t, trace, i);
    PopAt(h, t, trace, i);
    var popped := h[i].(queue := h[i].queue - multiset{x});
    ApplyRequestsQueues(popped, rs, j);
    QueuedIsPopped(h, t, trace, Spawned(h[i].nextId, rs, j), i + 1);
  }

  // ---------------------------------------------------------------------
  // The public operations around `update`.

  /** `update` on an empty scheduler, or right after `clear()`, pops nothing
      and changes nothing. */
  lemma EmptyUpdate(h: seq<State>, t: int, trace: seq<Pop>)
    requires Run(h, t, trace) && h[0].queue == multiset{}
    ensures trace == [] && h[|trace|] == h[0]
  {
    if trace != [] {
      PopAt(h, t, trace, 0);
      assert false;
    }
  }

  lemma ClearThenUpdate(s: State, h: seq<State>, t: int, trace: seq<Pop>)
    requires Run(h, t, trace) && h[0] == Clear(s)
    ensures trace == [] && h[|trace|] == Clear(s) && Clear(s).nextId == s.nextId
  {
    EmptyUpdate(h, t, trace);
  }

  /** A second `cancelEvent` of the same id returns false and changes nothing. */
  lemma CancelTwice(s: State, id: EventId)
    ensures CancelEvent(CancelEvent(s, id).0, id) == (CancelEvent(s, id).0, false)
  {
  }

  /** `cancelEvent` of an id never issued (0 included) returns false and changes nothing. */
  lemma CancelUnissued(s: State, id: EventId)
    requires Inv(s) && (id == 0 || id >= s.nextId)
    ensures CancelEvent(s, id) == (s, false)
  {
  }

  /** Successive schedules return 1, 2, 3, … from a fresh scheduler. */
  lemma ScheduleIdsIncrease(s: State, a: TimedEvent, b: TimedEvent)
    requires Inv(s)
    ensures ScheduleEvent(s, a).1 >= 1
    ensures ScheduleEvent(s, a).1 < ScheduleEvent(ScheduleEvent(s, a).0, b).1
    ensures CancelEvent(ScheduleEvent(s, a).0, ScheduleEvent(s, a).1).1
    ensures ScheduleEvent(Init(), a).1 == 1
  {
  }

  // ---------------------------------------------------------------------
  // Worked scenarios.

  /** A at tick 5, then B at tick 3, then C at tick 5 with priority 10. */
  function ThreeEvents(fa: nat, fb: nat, fc: nat): State {
    var (s1, _) := ScheduleFunction(Init(), 5, fa, "A", []);
    var (s2, _) := ScheduleFunction(s1, 3, fb, "B", []);
    ScheduleEvent(s2, SetPriority(FunctionEvent(5, fc, "C", []), 10)).0
  }

  function EventA(fa: nat): TimedEvent { TimedEvent(1, 5, "A", 0, true, FunctionBody(fa), []) }
  function EventB(fb: nat): TimedEvent { TimedEvent(2, 3, "B", 0, true, FunctionBody(fb), []) }
  function EventC(fc: nat): TimedEvent { TimedEvent(3, 5, "C", 10, true, FunctionBody(fc), []) }

  lemma ThreeEventsState(fa: nat, fb: nat, fc: nat)
    ensures ThreeEvents(fa, fb, fc) == State(multiset{EventA(fa), EventB(fb), EventC(fc)}, {1, 2, 3}, 4)
  {
  }

  /** A pop is forced when one due event outranks every other entry, and a
      complete drain must make it. */
  lemma ForcedPop(h: seq<State>, t: int, trace: seq<Pop>, i: nat, x: TimedEvent)
    requires Drains(h, t, trace) && i <= |trace| && Plain(h[i].queue)
    requires x in h[i].queue && x.tick <= t
    requires forall y :: y in h[i].queue ==> y == x || Compare(y, x)
    ensures i < |trace|
    ensures trace[i] == Pop(x, Classify(h[i], x))
    ensures h[i + 1] == State(h[i].queue - multiset{x}, h[i].active - {x.id}, h[i].nextId)
  {
    if i == |trace| {
      assert false;
    }
    PopAt(h, t, trace, i);
    PlainStepAt(h, t, trace, i);
    if trace[i].event != x {
      assert false;
    }
  }

  /** A complete drain that reaches an empty queue stops there. */
  lemma DrainEndsAtEmpty(h: seq<State>, t: int, trace: seq<Pop>, i: nat)
    requires Drains(h, t, trace) && i <= |trace| && h[i].queue == multiset{}
    ensures |trace| == i
  {
    if i < |trace| {
      PopAt(h, t, trace, i);
      assert false;
    }
  }

  lemma RemoveOneOfThree(a: TimedEvent, b: TimedEvent, c: TimedEvent)
    requires a != b && b != c
    ensures multiset{a, b, c} - multiset{b} == multiset{a, c}
  {
  }

  lemma RemoveOneOfTwo(a: TimedEvent, c: TimedEvent)
    requires a != c
    ensures multiset{a, c} - multiset{c} == multiset{a}
  {
  }

  /** `update(5)` executes B (earliest tick), then C (higher priority at tick
      5), then A, whichever legal drain the heap performs. */
  lemma ThreeEventsOrder(fa: nat, fb: nat, fc: nat, h: seq<State>, trace: seq<Pop>)
    requires Drains(h, 5, trace) && h[0] == ThreeEvents(fa, fb, fc)
    ensures trace == [Pop(EventB(fb), Executed), Pop(EventC(fc), Executed), Pop(EventA(fa), Executed)]
  {
    ThreeEventsState(fa, fb, fc);
    FirstB(fa, fb, fc, h, trace);
    assert trace == [trace[0], trace[1], trace[2]];
  }

  lemma FirstB(fa: nat, fb: nat, fc: nat, h: seq<State>, trace: seq<Pop>)
    requires Drains(h, 5, trace)
    requires h[0] == State(multiset{EventA(fa), EventB(fb), EventC(fc)}, {1, 2, 3}, 4)
    ensures |trace| == 3 && trace[0] == Pop(EventB(fb), Executed)
    ensures trace[1] == Pop(EventC(fc), Executed) && trace[2] == Pop(EventA(fa), Executed)
  {
    RemoveOneOfThree(EventA(fa), EventB(fb), EventC(fc));
    ForcedPop(h, 5, trace, 0, EventB(fb));
    AfterB(fa, fc, h, trace);
  }

  lemma AfterB(fa: nat, fc: nat, h: seq<State>, trace: seq<Pop>)
    requires Drains(h, 5, trace) && 1 <= |trace|
    requires h[1] == State(multiset{EventA(fa), EventC(fc)}, {1, 3}, 4)
    ensures |trace| == 3 && trace[1] == Pop(EventC(fc), Executed) && trace[2] == Pop(EventA(fa), Executed)
  {
    RemoveOneOfTwo(EventA(fa), EventC(fc));
    ForcedPop(h, 5, trace, 1, EventC(fc));
    AfterC(fa, h, trace);
  }

  lemma AfterC(fa: nat, h: seq<State>, trace: seq<Pop>)
    requires Drains(h, 5, trace) && 2 <= |trace|
    requires h[2] == State(multiset{EventA(fa)}, {1}, 4)
    ensures |trace| == 3 && trace[2] == Pop(EventA(fa), Executed)
  {
    ForcedPop(h, 5, trace, 2, EventA(fa));
    DrainEndsAtEmpty(h, 5, trace, 3);
  }

  /** X at tick 4, cancelled before any `update`: `update(10)` pops it and
      does not execute it. */
  lemma CancelledEventSkipped(fx: nat, h: seq<State>, trace: seq<Pop>)
    requires Run(h, 10, trace)
    requires h[0] == CancelEvent(ScheduleFunction(Init(), 4, fx, "X", []).0, 1).0
    ensures CancelEvent(ScheduleFunction(Init(), 4, fx, "X", []).0, ScheduleFunction(Init(), 4, fx, "X", []).1).1
    ensures forall i :: 0 <= i < |trace| ==> trace[i].outcome == Skipped
  {
    var x := TimedEvent(1, 4, "X", 0, true, FunctionBody(fx), []);
    assert h[0] == State(multiset{x}, {}, 2);
    CancelledNeverExecutes(h, 10, trace, 1);
    forall i | 0 <= i < |trace|
      ensures trace[i].outcome == Skipped
    {
      PlainRunInvariant(h, 10, trace, i);
      PopAt(h, 10, trace, i);
      assert trace[i].event in h[0].queue;
    }
  }

  /** The same scenario, drained to the end: `update(10)` pops X exactly once,
      skips it, and stops. */
  lemma CancelledEventPoppedOnce(fx: nat, h: seq<State>, trace: seq<Pop>)
    requires Drains(h, 10, trace)
    requires h[0] == CancelEvent(ScheduleFunction(Init(), 4, fx, "X", []).0, 1).0
    ensures trace == [Pop(TimedEvent(1, 4, "X", 0, true, FunctionBody(fx), []), Skipped)]
  {
    var x := TimedEvent(1, 4, "X", 0, true, FunctionBody(fx), []);
    assert h[0] == State(multiset{x}, {}, 2);
    ForcedPop(h, 10, trace, 0, x);
    DrainEndsAtEmpty(h, 10, trace, 1);
  }
}
