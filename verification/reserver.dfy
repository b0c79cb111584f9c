/** The reserver: travels to its target room and keeps reserving that room's controller. */
module Reserver {
  import opened Common
  import opened Schema
  import opened World
  import opened Movement
  import opened RoleSteps

  /**
   * `ReserverRole.run`: nothing without a target room; travel to it; nothing in a room without a
   * controller; reserve it, approaching when out of range. A stuck move whose random step fails
   * forgets the target room.
   */
  method Run(creep: Creep, answer: Answers)
    modifies creep
    ensures var m0 := old(creep.memory);
      var before := old(creep.issued);
      var here := ToXY(creep.pos);
      var recovery := ClearOnStuck(TargetRoom);
      var controller := creep.room.controller;
      && (m0.targetRoom.None? ==> Idle(before, m0, creep.issued, creep.memory))
      && (m0.targetRoom.Some? && creep.room.name != m0.targetRoom.value ==>
            Moved(before, m0, creep.issued, creep.memory, here, Centre(m0.targetRoom.value), 0, recovery, answer))
      && (m0.targetRoom == Some(creep.room.name) && controller.None? ==> Idle(before, m0, creep.issued, creep.memory))
      && (m0.targetRoom == Some(creep.room.name) && controller.Some? ==>
            Commanded(before, m0, creep.issued, creep.memory, here, ReserveController(controller.value.id), controller.value.pos, recovery, answer))
  {
    var targetRoom := creep.memory.targetRoom;
    if targetRoom.None? {
      return;
    }
    if creep.room.name != targetRoom.value {
      MoveRecovering(creep, Centre(targetRoom.value), 0, ClearOnStuck(TargetRoom), answer);
      return;
    }
    var controller := creep.room.controller;
    if controller.None? {
      return;
    }
    CommandRecovering(creep, ReserveController(controller.value.id), controller.value.pos, ClearOnStuck(TargetRoom), answer);
  }
}
