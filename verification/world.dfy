/** The collaborators of the entity scheduler, reduced to what it observes:
    an entity registry that answers "is this handle still live?" and holds
    `Health` components, and the closed set of action payloads whose effect
    on that registry the model spells out. */
module World {

  type Entity = nat

  /** The `Health` component: hit points now and at most. */
  datatype Health = Health(current: int, max: int)

  /** An entity registry: the live handles and the `Health` component of
      those entities that have one. */
  datatype Registry = Registry(live: set<Entity>, health: map<Entity, Health>)

  predicate Valid(reg: Registry, e: Entity) {
    e in reg.live
  }

  predicate HasHealth(reg: Registry, e: Entity) {
    e in reg.health
  }

  /** The payload of a scheduled action. `DamageOverTime` and `Attack` are the
      two closures built by the utility helpers; `Opaque` stands for any other
      callable: only which entities it destroys is modelled. */
  datatype Action =
    | DamageOverTime(damage: int)
    | Attack(target: Entity, damage: int)
    | Opaque(token: nat, destroys: set<Entity>)

  /** `after` is `before` with exactly `e`'s current hit points lowered by
      `damage`: no entity created or destroyed, no other component touched. */
  ghost predicate Damaged(before: Registry, after: Registry, e: Entity, damage: int) {
    && e in before.health
    && after.live == before.live
    && after.health.Keys == before.health.Keys
    && after.health[e].current == before.health[e].current - damage
    && after.health[e].max == before.health[e].max
    && forall o :: o in before.health && o != e ==> after.health[o] == before.health[o]
  }

  function Hurt(reg: Registry, e: Entity, damage: int): (r: Registry)
    requires HasHealth(reg, e)
    ensures Damaged(reg, r, e, damage)
  {
    reg.(health := reg.health[e := reg.health[e].(current := reg.health[e].current - damage)])
  }

  /** Runs the payload `a` bound to entity `e`. */
  function Perform(a: Action, e: Entity, reg: Registry): Registry
  {
    match a
    case DamageOverTime(damage) =>
      if Valid(reg, e) && HasHealth(reg, e) then Hurt(reg, e, damage) else reg
    case Attack(target, damage) =>
      if !Valid(reg, e) || !Valid(reg, target) then reg
      else if HasHealth(reg, target) then Hurt(reg, target, damage)
      else reg
    case Opaque(_, doomed) =>
      Registry(reg.live - doomed, reg.health - doomed)
  }

  /** The effect of each payload. The damage closures re-check validity and
      the presence of `Health` themselves and do nothing when either fails;
      the attack needs both the attacker and the target to be live. */
  lemma PerformEffect(a: Action, e: Entity, reg: Registry)
    ensures a.DamageOverTime? ==>
      if Valid(reg, e) && HasHealth(reg, e) then Damaged(reg, Perform(a, e, reg), e, a.damage) else Perform(a, e, reg) == reg
    ensures a.Attack? ==>
      if Valid(reg, e) && Valid(reg, a.target) && HasHealth(reg, a.target)
      then Damaged(reg, Perform(a, e, reg), a.target, a.damage) else Perform(a, e, reg) == reg
    ensures a.Opaque? ==>
      && Perform(a, e, reg).live == reg.live - a.destroys
      && Perform(a, e, reg).health.Keys == reg.health.Keys - a.destroys
  {
  }
}
