# Tick-driven schedulers, modelled in Dafny

This project models the scheduling engine of a small EnTT-based game
library. The engine comes in two near-identical variants:

- **`Scheduler`** queues `ScheduledAction`s. Each action is bound to an
  entity, has an optional `onComplete` callback, and is ordered by tick alone.
- **`TimedEventScheduler`** queues free-standing `TimedEvent`s. Events are
  ordered by tick and, within a tick, by priority, highest first.

Both variants keep the same three pieces of state:

- a `std::priority_queue` of pending items;
- a set of *active* ids, which makes cancellation lazy;
- an id counter that starts at 1.

Both drain the queue in `update(tick)`. On top of `Scheduler`, the
`SchedulerUtils` helpers schedule damage over time, attacks, delayed actions,
recurring actions and chains of actions.

The model is functional:

- The scheduler state is an immutable record of a `multiset` queue, a `set`
  of active ids and the next id.
- `schedule`, `cancel` and `clear` are pure functions.
- `update` is a method that returns the new state together with the trace of
  pops it made. Each pop carries an outcome: run, skipped as cancelled, or
  skipped because the entity is gone.

Heap order is the source's own comparator. The element `top()` may return
is any one that no queued element outranks, so a tie between equal keys is
left open. A ghost history records the state before every pop, and the
lemmas about `update` quantify over every drain the loop may perform. They
do not assume one particular heap layout.

Re-entrant scheduling is modelled too. While an item runs it may call
`schedule` and `cancel` on its own scheduler, and those calls are part of the
item's value:

- for an entity action, they are in the `followups` of its `onComplete`
  callback;
- for a timed event, they are in the `followups` of the event itself.

The drain loop terminates because every pop lowers the total weight of the
queue. An item's weight counts everything it may still schedule.

The registry is reduced to what the scheduler and the helpers observe:

- the set of live entities;
- the `Health` components.

The dispatcher is reduced to an append-only list of emitted events.

Modules, one per file:

| module | file | what it holds |
|---|---|---|
| `Bags` | bags.dfy | multiset weights |
| `PriorityQueue` | priority_queue.dfy | what `top()` may return under a strict weak order |
| `World` | world.dfy | entities, `Health`, the payloads and their effect |
| `Scheduler` | scheduler.dfy | the entity scheduler |
| `SchedulerProofs` | scheduler_proofs.dfy | properties of its drain |
| `TimedEventScheduler` | timed_event_scheduler.dfy | the event scheduler |
| `TimedEventProofs` | timed_event_proofs.dfy | properties of its drain |
| `SchedulerUtils` | scheduler_utils.dfy | the helper functions |

Two facts about the code shape the model:

- **Entity actions have no priority.** `ScheduledAction` has no priority
  field, and its `operator<` compares ticks only (include/Scheduler.h:20-22).
  Entity actions due at the same tick are therefore in no fixed order.
- **An id is retired only after its item has run.** Both `update` loops erase
  the id after the item and its callback return (include/Scheduler.h:88-89,
  include/TimedEventScheduler.h:118). While an item runs, its own id is
  therefore still active (`Scheduler.ActiveWhileCompleting`,
  `TimedEventScheduler.ActiveWhileExecuting`).

## Model

| member | source | states |
|---|---|---|
| Scheduler.Init | include/Scheduler.h:27 | A new scheduler has an empty queue, no active id, next id 1, and satisfies the id invariant |
| Scheduler.Schedule | include/Scheduler.h:30-37 | Returns the current next id and advances the counter by one. The queue gains exactly the caller's action stamped with that id, and the id joins the active set. The id is fresh: it is never 0, was not active, and is held by no queued entry |
| Scheduler.Unstamped | include/Scheduler.h:45-46 | An action built by the convenience overload holds id 0 until it is stamped |
| Scheduler.ScheduleAt | include/Scheduler.h:40-48 | The convenience overload queues an action with the caller's tick, entity, action and callback under the returned fresh id, and makes that id active |
| Scheduler.Cancel | include/Scheduler.h:51-59 | Returns true exactly when the id was active. Afterwards the id is inactive, every other id keeps its status, and the queue and counter are untouched |
| Scheduler.Clear | include/Scheduler.h:94-99 | Empties the queue and the active set and keeps the id counter |
| Scheduler.ApplyRequestsFacts | include/Scheduler.h:30-37 | The schedule and cancel calls a callback makes only add to the queue, and issue one id per scheduled action. Every id they queue or make active is freshly issued |
| Scheduler.ApplyRequestsQueues | include/Scheduler.h:30-37 | Whatever cancel calls a callback makes, each action it schedules stays queued under the id issued to it, which is one past the ids its earlier schedule calls took |
| Scheduler.StepIds | include/Scheduler.h:65-89 | One loop iteration retires the popped id whatever the outcome, drops nothing else from the queue, revives no retired id, and keeps the invariant |
| Scheduler.StepEffects | include/Scheduler.h:69-89 | A cancelled or invalid-entity pop leaves registry and dispatcher untouched: no action, no completion event, no callback. A pop that runs applies the action, then enqueues ActionCompleted(id, entity), then the callback's own events |
| Scheduler.ActiveWhileCompleting | include/Scheduler.h:83-89 | While the callback runs, the popped id is still active, so a cancel of it from inside the callback returns true |
| Scheduler.StepLowersWeight | include/Scheduler.h:64-90 | Each pop strictly lowers the weight of the queue, follow-ups included, so the loop terminates |
| Scheduler.LessIsStrictWeakOrder | include/Scheduler.h:20-22 | The tick comparison is a valid priority-queue comparator |
| Scheduler.NextNotDue | include/Scheduler.h:64 | The loop tests only the top. When the top is not due, nothing queued is due |
| Scheduler.StepKeepsLater | include/Scheduler.h:65-66 | Popping a due action never removes an entry due after the current tick |
| Scheduler.PopAt | include/Scheduler.h:64-71 | The i-th pop of any run is a queued, due, next-in-order action, classified as cancelled, entity gone, or ran |
| Scheduler.Update | include/Scheduler.h:62-91 | The drain is a legal run that stops only when nothing is due. Later actions stay queued, the counter never goes back, and the invariant is kept |
| SchedulerProofs.RunKeepsInv | include/Scheduler.h:62-91 | Every state of a drain satisfies the id invariant |
| SchedulerProofs.RetiredStaysRetired | include/Scheduler.h:88-89 | An issued id that is inactive stays inactive for the rest of the drain |
| SchedulerProofs.CancelledNeverRuns | include/Scheduler.h:69-71 | An action whose id was inactive when the drain began is skipped as cancelled every time it is popped |
| SchedulerProofs.CancelThenUpdate | include/Scheduler.h:51-71 | cancel(id) followed by update never runs the action |
| SchedulerProofs.PopRetires | include/Scheduler.h:88-89 | After its pop, an id is never active again during the drain |
| SchedulerProofs.PoppedAreRetired | include/Scheduler.h:88-89 | After update, every popped id is inactive, whether it ran or was skipped, and cancelling it returns false |
| SchedulerProofs.RunsAtMostOnce | include/Scheduler.h:69-89 | Every later pop of an already popped id is a tombstone, so each id runs at most once |
| SchedulerProofs.DrainInTickOrder | include/Scheduler.h:64-66 | Within one update, actions are popped in non-decreasing tick order |
| SchedulerProofs.SuccessiveUpdatesInTickOrder | include/Scheduler.h:64-66 | update(t1) pops only actions due by t1, and the next update pops only actions due after t1, so the order holds across calls |
| SchedulerProofs.PlainDrainSplitsQueue | include/Scheduler.h:64-89 | Without re-entrant calls, update(t) pops exactly the queued actions due by t, with multiplicity. It leaves exactly the later ones queued, retires every due id, and issues no id |
| SchedulerProofs.PlainDrainConsumes | include/Scheduler.h:69-74 | Without re-entrant calls, a pop is consumed exactly when its id was active as update began and no earlier pop carried that id |
| SchedulerProofs.DueIsPopped | include/Scheduler.h:64-66 | Every action queued when update(t) begins and due by t is popped during that update, even when callbacks schedule and cancel further actions |
| SchedulerProofs.QueuedIsPopped | include/Scheduler.h:64-66 | An action due by t that is queued at any point of update(t) is popped later in the same update |
| SchedulerProofs.FollowupIsPopped | include/Scheduler.h:64-85 | A follow-up that a running callback schedules at a tick no later than t is popped later in the same update(t), under the id the call was issued |
| SchedulerProofs.CompletionEventsMatchRuns | include/Scheduler.h:74-86 | The ActionCompleted events that update itself enqueues are exactly one ActionCompleted(id, entity) per action that ran, in run order. There are none for cancelled actions or vanished entities |
| SchedulerProofs.ClearThenUpdate | include/Scheduler.h:94-99 | After clear, update pops nothing and changes nothing |
| SchedulerProofs.CancelTwice | include/Scheduler.h:51-59 | A second cancel of the same id returns false and changes nothing |
| SchedulerProofs.CancelUnissued | include/Scheduler.h:51-59 | Cancelling id 0 or an id not yet issued returns false and changes nothing |
| SchedulerProofs.ScheduleIdsIncrease | include/Scheduler.h:27-37 | A fresh scheduler issues 1 first. Successive ids strictly increase and are never 0, and a just-issued id can be cancelled |
| SchedulerProofs.FollowupRunsInSameUpdate | include/Scheduler.h:64-85 | For a lone action at tick 2 on a live entity whose callback schedules a follow-up at tick 2, every complete update(2) runs the parent, then the follow-up, and emits both completion events in that order |
| TimedEventScheduler.NewEvent | include/TimedEventScheduler.h:17-18 | A new event holds id 0 and priority 0 and is bound to no scheduler |
| TimedEventScheduler.FunctionEvent | include/TimedEventScheduler.h:62-71 | A FunctionEvent wraps its function with the given tick and name, id 0 and priority 0 |
| TimedEventScheduler.SetPriority | include/TimedEventScheduler.h:36 | Only the priority changes |
| TimedEventScheduler.CompareIsPrecedes | include/TimedEventScheduler.h:49-59 | The comparator ranks a below b exactly when b has the lower tick, or the same tick and the higher priority |
| TimedEventScheduler.CompareIsStrictWeakOrder | include/TimedEventScheduler.h:49-59 | The comparator is a valid priority-queue comparator |
| TimedEventScheduler.NextIsEarliest | include/TimedEventScheduler.h:49-59 | An event can be the top exactly when it is queued with the least tick, and the highest priority among events at that tick |
| TimedEventScheduler.Init | include/TimedEventScheduler.h:75 | A new scheduler has an empty queue, no active id, next id 1, and satisfies the id invariant |
| TimedEventScheduler.Stamp | include/TimedEventScheduler.h:87-88 | Scheduling sets the id and the scheduler back-pointer and keeps tick, name, priority and body |
| TimedEventScheduler.ScheduleEvent | include/TimedEventScheduler.h:85-92 | Returns the current next id and advances the counter. The queue gains exactly the stamped event, and the id joins the active set. The id is fresh: never 0, not active, held by no queued event |
| TimedEventScheduler.ScheduleFunction | include/TimedEventScheduler.h:123-126 | Queues a bound FunctionEvent with the caller's tick, function and name, priority 0 and the returned fresh id |
| TimedEventScheduler.CancelEvent | include/TimedEventScheduler.h:95-101 | Returns true exactly when the id was active. Afterwards the id is inactive, every other id keeps its status, and the queue and counter are untouched |
| TimedEventScheduler.Clear | include/TimedEventScheduler.h:129-136 | Empties the queue and the active set and keeps the id counter |
| TimedEventScheduler.ApplyRequestsFacts | include/TimedEventScheduler.h:85-101 | The calls an executing event makes only add to the queue and issue one id per scheduled event. Every id they queue or make active is freshly issued |
| TimedEventScheduler.ApplyRequestsQueues | include/TimedEventScheduler.h:85-92 | Whatever cancel calls an executing event makes, each event it schedules stays queued under the id issued to it, which is one past the ids its earlier schedule calls took |
| TimedEventScheduler.StepIds | include/TimedEventScheduler.h:106-118 | One loop iteration retires the popped id whatever the outcome, drops nothing else from the queue, revives no retired id, and keeps the invariant |
| TimedEventScheduler.StepEffects | include/TimedEventScheduler.h:110-118 | A skipped event, or one whose body calls nothing, only leaves the queue and retires its id |
| TimedEventScheduler.ActiveWhileExecuting | include/TimedEventScheduler.h:115-118 | The id is erased only after execute() returns, so an event that cancels itself is told the cancellation succeeded |
| TimedEventScheduler.StepLowersWeight | include/TimedEventScheduler.h:105-119 | Each pop strictly lowers the weight of the queue, so the loop terminates |
| TimedEventScheduler.NextNotDue | include/TimedEventScheduler.h:105 | When the top is not due, nothing queued is due |
| TimedEventScheduler.StepKeepsLater | include/TimedEventScheduler.h:106-107 | Popping a due event never removes an event due later |
| TimedEventScheduler.PopAt | include/TimedEventScheduler.h:105-112 | The i-th pop of any run is a queued, due, next-in-order event, skipped exactly when its id is inactive |
| TimedEventScheduler.Update | include/TimedEventScheduler.h:104-120 | The drain is a legal run that stops only when nothing is due. Later events stay queued, the counter never goes back, and the invariant is kept |
| TimedEventProofs.RunKeepsInv | include/TimedEventScheduler.h:104-120 | Every state of a drain satisfies the id invariant |
| TimedEventProofs.RetiredStaysRetired | include/TimedEventScheduler.h:95-118 | An issued id that is inactive stays inactive for the rest of the drain |
| TimedEventProofs.CancelledNeverExecutes | include/TimedEventScheduler.h:110-112 | An event whose id was inactive when the drain began is skipped every time it is popped |
| TimedEventProofs.PopRetires | include/TimedEventScheduler.h:118 | After its pop, an id is never active again during the drain |
| TimedEventProofs.ExecutesAtMostOnce | include/TimedEventScheduler.h:110-118 | Each id executes at most once, and a cancelEvent of a popped id returns false |
| TimedEventProofs.DrainInOrder | include/TimedEventScheduler.h:49-59 | Within one update, events leave in non-decreasing tick order and, within a tick, in non-increasing priority order |
| TimedEventProofs.SuccessiveUpdatesInOrder | include/TimedEventScheduler.h:105 | update(t1) pops only events due by t1, and the next update pops only events due after t1 |
| TimedEventProofs.PlainDrainSplitsQueue | include/TimedEventScheduler.h:105-118 | Without re-entrant calls, update(t) pops exactly the events due by t, with multiplicity. It leaves exactly the later ones queued and retires every due id |
| TimedEventProofs.PlainDrainExecutesActiveDue | include/TimedEventScheduler.h:104-120 | Without re-entrant calls, the ids update(t) executes are exactly those of the queued events due by t whose id was active when it began |
| TimedEventProofs.DueIsPopped | include/TimedEventScheduler.h:105-107 | Every event queued when update(t) begins and due by t is popped during that update, even when executing events schedule and cancel further events |
| TimedEventProofs.QueuedIsPopped | include/TimedEventScheduler.h:105-107 | An event due by t that is queued at any point of update(t) is popped later in the same update |
| TimedEventProofs.FollowupIsPopped | include/TimedEventScheduler.h:105-115 | An event that an executing event schedules at a tick no later than t is popped later in the same update(t), under the id the call was issued |
| TimedEventProofs.EmptyUpdate | include/TimedEventScheduler.h:105 | On an empty queue, update pops nothing and changes nothing |
| TimedEventProofs.ClearThenUpdate | include/TimedEventScheduler.h:129-136 | After clear, update pops nothing and changes nothing, and the id counter is kept |
| TimedEventProofs.CancelTwice | include/TimedEventScheduler.h:95-101 | A second cancelEvent of the same id returns false and changes nothing |
| TimedEventProofs.CancelUnissued | include/TimedEventScheduler.h:95-101 | Cancelling id 0 or an id not yet issued returns false and changes nothing |
| TimedEventProofs.ScheduleIdsIncrease | include/TimedEventScheduler.h:75-92 | A fresh scheduler issues 1 first. Successive ids strictly increase and are never 0, and a just-issued id can be cancelled |
| TimedEventProofs.ThreeEventsOrder | include/TimedEventScheduler.h:49-59 | A at tick 5, B at tick 3, and C at tick 5 with priority 10: every legal update(5) executes B, then C, then A |
| TimedEventProofs.CancelledEventSkipped | include/TimedEventScheduler.h:95-112 | An event scheduled and then cancelled before update could be cancelled because its id was active. No pop of any run of update(10) executes anything |
| TimedEventProofs.CancelledEventPoppedOnce | include/TimedEventScheduler.h:104-120 | A complete update(10) pops that cancelled event exactly once, skips it, and stops |
| SchedulerUtils.ScheduleAll | include/SchedulerUtils.h:24-41 | Scheduling a list in order gives the i-th item id nextId + i. The queue gains exactly the stamped items, and the active set gains exactly the issued ids |
| SchedulerUtils.ScheduleDamageOverTime | include/SchedulerUtils.h:17-44 | Schedules max(totalTicks, 0) damage actions on the target, the i-th due at startTick + i * interval. It returns their ids in scheduling order |
| SchedulerUtils.ScheduleAttack | include/SchedulerUtils.h:47-69 | Schedules one attack by the attacker on the target at the given tick and returns its fresh id |
| SchedulerUtils.ScheduleDelayedAction | include/SchedulerUtils.h:72-78 | Schedules one action due at currentTick + delayTicks |
| SchedulerUtils.ScheduleRecurringAction | include/SchedulerUtils.h:81-94 | Schedules max(count, 0) copies of the action, the i-th due at startTick + i * interval. It returns the ids in order |
| SchedulerUtils.ScheduleActionChain | include/SchedulerUtils.h:97-111 | Schedules one action per pair, due at the pair's tick, and returns the ids in input order |
| SchedulerUtils.ChainTicksAreAbsolute | include/SchedulerUtils.h:105-106 | A chain's ticks are absolute, not cumulative: a pair listed later with a smaller tick is due first |
| SchedulerUtils.DamageOverTimeRun | include/SchedulerUtils.h:29-37 | A damage-over-time action that runs lowers its entity's current health by the damage if it has Health, and otherwise changes nothing |
| SchedulerUtils.AttackRun | include/SchedulerUtils.h:54-67 | An attack that runs lowers the target's current health by the damage only when the target is live and has Health. Otherwise the registry is unchanged |
| World.Hurt | include/SchedulerUtils.h:31-32 | Lowering health changes only the target's current hit points |
| World.PerformEffect | include/SchedulerUtils.h:29-67 | The damage closures check validity and Health themselves and have no effect when a check fails. Only the two checked paths damage anything |
| PriorityQueue.TopExists | include/Scheduler.h:64-65 | Under a strict weak order, a non-empty queue always has a top, so top() after the emptiness test is defined |
| PriorityQueue.TopsAreEquivalent | include/TimedEventScheduler.h:49-59 | Any two candidates for top() are equivalent under the comparator, so the heap's free choice is only between equal keys |

## Left out

- uint32 ids: `ActionID` and `EventID` are `uint32_t`, so the counter wraps after 2^32 schedules. Ids are unbounded naturals here, and the wrap is not modelled.
- Integer overflow: the tick arithmetic `startTick + i * interval` and `currentTick + delayTicks` is on unbounded integers. Overflow of `int` is not modelled.
- Exceptions: a payload that throws abandons the drain mid-way. Exceptions are not modelled; every payload completes.
- The `onDamage` and `onAttack` notification callbacks of the helpers are not modelled. They only report to the caller.
- Callback effects: an `onComplete` callback is modelled as the events it enqueues plus the schedule and cancel calls it makes. It does not touch the registry, and any other effect is not modelled.
- Timed event bodies: the body of a timed event is likewise an opaque token plus its schedule and cancel calls.
- Finite follow-ups: every callback schedules a finite nest of follow-ups, fixed when the item is built. A callback that reschedules itself forever, and so makes the drain loop diverge in the source, is not representable.
- Aliased events: a `TimedEvent` is shared through a `shared_ptr`, so `setPriority` or `setId` on an event after it is queued would change its queued copy. Here the queue holds values, and such later changes are not modelled.
- `setScheduler` is modelled only as the `bound` flag that scheduling sets.
- Ties: the order among entries with equal keys (equal tick, and for events equal priority) depends on the heap layout. It is left open, and every proof holds for any choice.
- The heap itself is a multiset. Its push and pop are not verified.
- EnTT: the registry is modelled only as live entities and `Health` components, and the dispatcher as an append-only list of emitted events. Event broadcasting is not modelled.
- `Opaque`: the `Opaque` payload models only which entities an action destroys. It stands for any payload other than the two helper closures.
- `SchedulerProofs.DrainInTickOrder`: holds only when no callback schedules an action due before itself. A callback may schedule an earlier action that is still due, and the loop then pops it next, out of tick order.
- `TimedEventProofs.DrainInOrder`: holds only when no executing event schedules an event that precedes itself, for the same reason.
- `SchedulerProofs.PlainDrainSplitsQueue`: proved only for queues whose callbacks make no schedule or cancel calls. With such calls, follow-ups due by the tick are popped as well, so the popped actions are no longer exactly the due ones queued at the start. The other half, that every due action queued at the start is popped, holds in general (`SchedulerProofs.DueIsPopped`).
- `SchedulerProofs.PlainDrainConsumes`: likewise proved only without re-entrant calls.
- `TimedEventProofs.PlainDrainSplitsQueue`: proved only for events whose bodies make no schedule or cancel calls, for the same reason. `TimedEventProofs.DueIsPopped` states the general half.
- `TimedEventProofs.PlainDrainExecutesActiveDue`: likewise proved only without re-entrant calls, and stated on ids rather than on events.
- `SchedulerProofs.SuccessiveUpdatesInTickOrder`: holds only when no callback schedules an action due before itself, and only when nothing is scheduled between the two calls. Otherwise a callback run in the second update may schedule an action due by the first tick, and that action is popped.
- `TimedEventProofs.SuccessiveUpdatesInOrder`: holds only when no executing event schedules an event that precedes itself, and only when nothing is scheduled between the two calls, for the same reason.
- Completion events raised by callbacks: `onComplete` receives the dispatcher and may enqueue any event type. Here its events are `Published` tokens, so a callback is assumed never to enqueue an `ActionCompletedEvent` of its own. `SchedulerProofs.CompletionEventsMatchRuns` counts only the events `update` itself enqueues.
- `Health` defaults: the default of 100 current and 100 maximum hit points is not modelled, because no helper constructs a `Health`.
