/** The remote defender: guards its target room, firing on the closest hostile or rallying at the centre. */
module RemoteDefender {
  import opened Common
  import opened Schema
  import opened World
  import opened Movement
  import opened RoleSteps

  /** The hostile closest by range to the creep, the first one on ties. */
  function NearestHostile(pos: Pos, hostiles: seq<Hostile>): (h: Hostile)
    requires |hostiles| > 0
    ensures h in hostiles && forall t :: t in hostiles ==> Range(pos, h.pos) <= Range(pos, t.pos)
  {
    hostiles[ClosestByRange(pos, hostiles, (h: Hostile) => h.pos)]
  }

  /**
   * `RemoteDefenderRole.run`: nothing without a target room; travel to it; there, fire on the
   * closest hostile, approaching when out of range, or rally at the centre when there is none.
   * Every stuck move whose random step fails forgets the target room.
   */
  method Run(creep: Creep, answer: Answers)
    modifies creep
    ensures var m0 := old(creep.memory);
      var before := old(creep.issued);
      var here := ToXY(creep.pos);
      var recovery := ClearOnStuck(TargetRoom);
      var hostiles := creep.room.hostiles;
      && (m0.targetRoom.None? ==> Idle(before, m0, creep.issued, creep.memory))
      && (m0.targetRoom.Some? && creep.room.name != m0.targetRoom.value ==>
            Moved(before, m0, creep.issued, creep.memory, here, Centre(m0.targetRoom.value), 0, recovery, answer))
      && (m0.targetRoom == Some(creep.room.name) && hostiles != [] ==>
            var t := NearestHostile(creep.pos, hostiles);
            Commanded(before, m0, creep.issued, creep.memory, here, RangedAttack(t.id), t.pos, recovery, answer))
      && (m0.targetRoom == Some(creep.room.name) && hostiles == [] ==>
            Moved(before, m0, creep.issued, creep.memory, here, Centre(creep.room.name), 0, recovery, answer))
  {
    var targetRoom := creep.memory.targetRoom;
    if targetRoom.None? {
      return;
    }
    if creep.room.name != targetRoom.value {
      MoveRecovering(creep, Centre(targetRoom.value), 0, ClearOnStuck(TargetRoom), answer);
      return;
    }
    if |creep.room.hostiles| > 0 {
      var t := NearestHostile(creep.pos, creep.room.hostiles);
      CommandRecovering(creep, RangedAttack(t.id), t.pos, ClearOnStuck(TargetRoom), answer);
    } else {
      MoveRecovering(creep, Centre(targetRoom.value), 0, ClearOnStuck(TargetRoom), answer);
    }
  }
}
