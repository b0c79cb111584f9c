/**
 * The home defender: rallies near the controller until the defence manager assigns it a target,
 * then keeps the target at range 3, fleeing when it comes closer and approaching when it is farther.
 */
module Defender {
  import opened Common
  import opened Schema
  import opened World
  import opened Movement
  import opened RoleSteps

  /** The rally distance from the controller. */
  const RALLY_RANGE: nat := 5

  /** The range at which the defender fires. */
  const KITE_RANGE: nat := 3

  /**
   * The kiting outcome against a resolved target `t`: too close, flee along the engine's flee
   * path and fire; at exactly range 3, only fire; farther, approach, and forget the target when
   * stuck and the random step fails.
   */
  ghost predicate KitedFrom(
    before: seq<Action>, m0: CreepMemory, after: seq<Action>, m1: CreepMemory,
    pos: Pos, t: Hostile, flee: (Pos, Pos) -> seq<Pos>, answer: Answers)
  {
    && (InRange(pos, t.pos, KITE_RANGE) && Range(pos, t.pos) < KITE_RANGE ==>
          after == before + [MoveByPath(flee(pos, t.pos)), RangedAttack(t.id)] && m1 == m0)
    && (InRange(pos, t.pos, KITE_RANGE) && Range(pos, t.pos) == KITE_RANGE ==>
          after == before + [RangedAttack(t.id)] && m1 == m0)
    && (!InRange(pos, t.pos, KITE_RANGE) ==>
          Moved(before, m0, after, m1, ToXY(pos), t.pos, 0, ClearOnStuck(TargetId), answer))
  }

  /**
   * `DefenderRole.run`. `hostileById` is `Game.getObjectById`; `flee` is the flee search that
   * keeps range 5 from the given position.
   */
  method Run(creep: Creep, hostileById: string -> Option<Hostile>, flee: (Pos, Pos) -> seq<Pos>, answer: Answers)
    modifies creep
    ensures var m0 := old(creep.memory);
      var before := old(creep.issued);
      var controller := creep.room.controller;
      && (m0.targetId.None? && controller.Some? ==>
            Moved(before, m0, creep.issued, creep.memory, ToXY(creep.pos), controller.value.pos, RALLY_RANGE, ResetCounter, answer))
      && (m0.targetId.None? && controller.None? ==> Idle(before, m0, creep.issued, creep.memory))
      && (m0.targetId.Some? && hostileById(m0.targetId.value).None? ==>
            Idle(before, m0.(targetId := None), creep.issued, creep.memory))
      && (m0.targetId.Some? && hostileById(m0.targetId.value).Some? ==>
            KitedFrom(before, m0, creep.issued, creep.memory, creep.pos, hostileById(m0.targetId.value).value, flee, answer))
  {
    var targetId := creep.memory.targetId;
    if targetId.None? {
      if creep.room.controller.Some? {
        MoveRecovering(creep, creep.room.controller.value.pos, RALLY_RANGE, ResetCounter, answer);
      }
      return;
    }
    var target := hostileById(targetId.value);
    if target.None? {
      creep.memory := creep.memory.(targetId := None);
      return;
    }
    var t := target.value;
    if InRange(creep.pos, t.pos, KITE_RANGE) {
      if Range(creep.pos, t.pos) < KITE_RANGE {
        var _ := creep.Issue(MoveByPath(flee(creep.pos, t.pos)), answer);
      }
      var _ := creep.Issue(RangedAttack(t.id), answer);
    } else {
      MoveRecovering(creep, t.pos, 0, ClearOnStuck(TargetId), answer);
    }
  }
}
