/** The helpers layered on the entity scheduler: damage over time, a single
    attack, a delayed action, a recurring action and a chain of actions. Each
    is a sequence of plain `schedule` calls whose ids come back in order. */
module SchedulerUtils {
  import opened World
  import opened Scheduler

  /** How many times a loop counting from 0 up to, but not including,
      `count` runs. */
  function Iterations(count: int): nat
  {
    if count > 0 then count else 0
  }

  /** The tick of the `i`-th action of a series. */
  function SeriesTick(startTick: int, interval: int, i: int): int {
    startTick + i * interval
  }

  /** `items` as `schedule` stores them when the first is given `firstId`. */
  function Stamped(firstId: ActionId, items: seq<ScheduledAction>): seq<ScheduledAction>
  {
    seq(|items|, i requires 0 <= i < |items| => items[i].(id := firstId + i))
  }

  /** The ids `lo` up to, not including, `hi`. */
  function IdRange(lo: ActionId, hi: ActionId): (r: set<ActionId>)
    ensures forall id :: id in r <==> lo <= id < hi
    decreases hi - lo
  {
    if lo >= hi then {} else IdRange(lo, hi - 1) + {hi - 1}
  }

  lemma IdRangeSnoc(lo: ActionId, hi: ActionId)
    requires lo <= hi
    ensures IdRange(lo, hi + 1) == IdRange(lo, hi) + {hi}
  {
  }

  lemma StampedSnoc(firstId: ActionId, items: seq<ScheduledAction>, k: nat)
    requires k < |items|
    ensures Stamped(firstId, items[..k + 1]) == Stamped(firstId, items[..k]) + [items[k].(id := firstId + k)]
  {
    var a := Stamped(firstId, items[..k + 1]);
    var b := Stamped(firstId, items[..k]) + [items[k].(id := firstId + k)];
    assert |a| == |b|;
    forall i | 0 <= i < |a|
      ensures a[i] == b[i]
    {
      if i < k {
        assert items[..k + 1][i] == items[..k][i];
      }
    }
  }

  /** One iteration of the loop of `ScheduleAll` keeps its invariant. */
  lemma ScheduleAllStep(s: State, r: State, items: seq<ScheduledAction>, k: nat)
    requires k < |items| && r.nextId == s.nextId + k
    requires r.queue == s.queue + multiset(Stamped(s.nextId, items[..k]))
    requires r.active == s.active + IdRange(s.nextId, r.nextId)
    ensures Schedule(r, items[k]).0.queue == s.queue + multiset(Stamped(s.nextId, items[..k + 1]))
    ensures Schedule(r, items[k]).0.active == s.active + IdRange(s.nextId, r.nextId + 1)
  {
    StampedSnoc(s.nextId, items, k);
    IdRangeSnoc(s.nextId, r.nextId);
  }

  /** Calls `schedule` on each of `items` in turn and collects the ids, as
      every looping helper does: the i-th item gets id `nextActionId + i`,
      and the queue and the active set gain exactly those items and ids. */
  method ScheduleAll(s: State, items: seq<ScheduledAction>) returns (r: State, ids: seq<ActionId>)
    ensures |ids| == |items|
    ensures forall i :: 0 <= i < |items| ==> ids[i] == s.nextId + i
    ensures r.nextId == s.nextId + |items|
    ensures r.queue == s.queue + multiset(Stamped(s.nextId, items))
    ensures r.active == s.active + IdRange(s.nextId, r.nextId)
    ensures Inv(s) ==> Inv(r)
  {
    r := s;
    ids := [];
    for k := 0 to |items|
      invariant |ids| == k
      invariant forall i :: 0 <= i < k ==> ids[i] == s.nextId + i
      invariant r.nextId == s.nextId + k
      invariant r.queue == s.queue + multiset(Stamped(s.nextId, items[..k]))
      invariant r.active == s.active + IdRange(s.nextId, r.nextId)
      invariant Inv(s) ==> Inv(r)
    {
      var scheduled := Schedule(r, items[k]);
      ScheduleAllStep(s, r, items, k);
      r, ids := scheduled.0, ids + [scheduled.1];
    }
    assert items[..|items|] == items;
  }

  /** The actions `scheduleDamageOverTime` schedules, before they are stamped. */
  function DamageOverTimeItems(target: Entity, damage: int, totalTicks: int, interval: int, startTick: int): (r: seq<ScheduledAction>)
    ensures |r| == Iterations(totalTicks)
  {
    seq(Iterations(totalTicks), i requires 0 <= i < Iterations(totalTicks) =>
      Unstamped(SeriesTick(startTick, interval, i), target, DamageOverTime(damage), NoCallback))
  }

  /** `scheduleDamageOverTime`: `max(totalTicks, 0)` damage actions on
      `target`, the i-th due at `startTick + i * interval`, ids in order. */
  method ScheduleDamageOverTime(s: State, target: Entity, damage: int, totalTicks: int, interval: int, startTick: int)
    returns (r: State, ids: seq<ActionId>)
    ensures |ids| == Iterations(totalTicks)
    ensures forall i :: 0 <= i < |ids| ==> ids[i] == s.nextId + i
    ensures forall i :: 0 <= i < |ids| ==>
      ScheduledAction(ids[i], startTick + i * interval, target, DamageOverTime(damage), NoCallback) in r.queue
    ensures r.queue == s.queue + multiset(Stamped(s.nextId, DamageOverTimeItems(target, damage, totalTicks, interval, startTick)))
    ensures r.nextId == s.nextId + |ids|
    ensures r.active == s.active + IdRange(s.nextId, r.nextId)
    ensures Inv(s) ==> Inv(r)
  {
    var items := DamageOverTimeItems(target, damage, totalTicks, interval, startTick);
    r, ids := ScheduleAll(s, items);
    forall i | 0 <= i < |ids|
      ensures ScheduledAction(ids[i], startTick + i * interval, target, DamageOverTime(damage), NoCallback) in r.queue
    {
      assert Stamped(s.nextId, items)[i] in multiset(Stamped(s.nextId, items));
    }
  }

  /** The actions `scheduleRecurringAction` schedules, before they are stamped. */
  function RecurringItems(entity: Entity, interval: int, count: int, startTick: int, action: Action): (r: seq<ScheduledAction>)
    ensures |r| == Iterations(count)
  {
    seq(Iterations(count), i requires 0 <= i < Iterations(count) =>
      Unstamped(SeriesTick(startTick, interval, i), entity, action, NoCallback))
  }

  /** `scheduleRecurringAction`: `max(count, 0)` copies of `action`, the i-th
      due at `startTick + i * interval`, ids in order. */
  method ScheduleRecurringAction(s: State, entity: Entity, interval: int, count: int, startTick: int, action: Action)
    returns (r: State, ids: seq<ActionId>)
    ensures |ids| == Iterations(count)
    ensures forall i :: 0 <= i < |ids| ==> ids[i] == s.nextId + i
    ensures forall i :: 0 <= i < |ids| ==>
      ScheduledAction(ids[i], startTick + i * interval, entity, action, NoCallback) in r.queue
    ensures r.queue == s.queue + multiset(Stamped(s.nextId, RecurringItems(entity, interval, count, startTick, action)))
    ensures r.nextId == s.nextId + |ids|
    ensures r.active == s.active + IdRange(s.nextId, r.nextId)
    ensures Inv(s) ==> Inv(r)
  {
    var items := RecurringItems(entity, interval, count, startTick, action);
    r, ids := ScheduleAll(s, items);
    forall i | 0 <= i < |ids|
      ensures ScheduledAction(ids[i], startTick + i * interval, entity, action, NoCallback) in r.queue
    {
      assert Stamped(s.nextId, items)[i] in multiset(Stamped(s.nextId, items));
    }
  }

  /** The actions `scheduleActionChain` schedules: each pair's first
      component is the absolute tick, whatever its name suggests. */
  function ChainItems(entity: Entity, actions: seq<(int, Action)>): (r: seq<ScheduledAction>)
    ensures |r| == |actions|
  {
    seq(|actions|, i requires 0 <= i < |actions| => Unstamped(actions[i].0, entity, actions[i].1, NoCallback))
  }

  /** `scheduleActionChain`: one action per pair, in input order, each due at
      the tick its pair gives; ids in input order. */
  method ScheduleActionChain(s: State, entity: Entity, actions: seq<(int, Action)>)
    returns (r: State, ids: seq<ActionId>)
    ensures |ids| == |actions|
    ensures forall i :: 0 <= i < |ids| ==> ids[i] == s.nextId + i
    ensures forall i :: 0 <= i < |ids| ==>
      ScheduledAction(ids[i], actions[i].0, entity, actions[i].1, NoCallback) in r.queue
    ensures r.queue == s.queue + multiset(Stamped(s.nextId, ChainItems(entity, actions)))
    ensures r.nextId == s.nextId + |ids|
    ensures r.active == s.active + IdRange(s.nextId, r.nextId)
    ensures Inv(s) ==> Inv(r)
  {
    var items := ChainItems(entity, actions);
    r, ids := ScheduleAll(s, items);
    forall i | 0 <= i < |ids|
      ensures ScheduledAction(ids[i], actions[i].0, entity, actions[i].1, NoCallback) in r.queue
    {
      assert Stamped(s.nextId, items)[i] in multiset(Stamped(s.nextId, items));
    }
  }

  /** `scheduleAttack`: one attack by `attacker` on `target`, due at `tick`. */
  function ScheduleAttack(s: State, attacker: Entity, target: Entity, damage: int, tick: int): (r: (State, ActionId))
    ensures r.1 == s.nextId && r.0.nextId == s.nextId + 1
    ensures r.0.queue == s.queue + multiset{ScheduledAction(r.1, tick, attacker, Attack(target, damage), NoCallback)}
    ensures r.0.active == s.active + {r.1}
    ensures Inv(s) ==> Inv(r.0) && r.1 >= 1
  {
    ScheduleAt(s, tick, attacker, Attack(target, damage), NoCallback)
  }

  /** `scheduleDelayedAction`: one action due `delayTicks` after `currentTick`. */
  function ScheduleDelayedAction(s: State, entity: Entity, delayTicks: int, currentTick: int, action: Action): (r: (State, ActionId))
    ensures r.1 == s.nextId && r.0.nextId == s.nextId + 1
    ensures r.0.queue == s.queue + multiset{ScheduledAction(r.1, currentTick + delayTicks, entity, action, NoCallback)}
    ensures r.0.active == s.active + {r.1}
    ensures Inv(s) ==> Inv(r.0) && r.1 >= 1
  {
    ScheduleAt(s, currentTick + delayTicks, entity, action, NoCallback)
  }

  // ---------------------------------------------------------------------
  // What the scheduled payloads do when `update` runs them.

  /** A damage-over-time action that runs lowers its entity's hit points by
      `damage` if the entity still has `Health`, and otherwise changes
      nothing; an action whose entity is gone is not run at all. */
  lemma DamageOverTimeRun(c: Config, x: ScheduledAction)
    requires x in c.sched.queue && x.action.DamageOverTime?
    ensures Classify(c, x) == Ran && HasHealth(c.registry, x.entity) ==>
      Damaged(c.registry, Step(c, x).registry, x.entity, x.action.damage)
    ensures Classify(c, x) != Ran || !HasHealth(c.registry, x.entity) ==>
      Step(c, x).registry == c.registry
  {
    StepEffects(c, x);
    PerformEffect(x.action, x.entity, c.registry);
  }

  /** An attack that runs lowers the target's hit points by `damage` when the
      target is live and has `Health`; otherwise, or when the attacker is
      gone, the registry is unchanged. */
  lemma AttackRun(c: Config, x: ScheduledAction)
    requires x in c.sched.queue && x.action.Attack?
    ensures Classify(c, x) == Ran && Valid(c.registry, x.action.target) && HasHealth(c.registry, x.action.target) ==>
      Damaged(c.registry, Step(c, x).registry, x.action.target, x.action.damage)
    ensures !(Classify(c, x) == Ran && Valid(c.registry, x.action.target) && HasHealth(c.registry, x.action.target)) ==>
      Step(c, x).registry == c.registry
  {
    StepEffects(c, x);
    PerformEffect(x.action, x.entity, c.registry);
  }

  /** The chain is not cumulative: a pair listed later with a smaller tick
      is due before the pairs listed ahead of it. */
  lemma ChainTicksAreAbsolute(s: State, entity: Entity, a: Action, b: Action)
    ensures var items := Stamped(s.nextId, ChainItems(entity, [(2, a), (1, b)]));
      && items[0] == ScheduledAction(s.nextId, 2, entity, a, NoCallback)
      && items[1] == ScheduledAction(s.nextId + 1, 1, entity, b, NoCallback)
      && Less(items[0], items[1])
  {
  }
}
