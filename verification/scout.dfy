/**
 * The scout: wanders its room while it has no target room, travels to the target room when it
 * has one, abandons the target when stuck on the way, and waits on arrival.
 */
module Scout {
  import opened Common
  import opened Schema
  import opened World
  import opened Movement
  import opened RoleSteps

  /** The wander target's coordinates lie in 1..48: `Math.floor(Math.random() * 48) + 1`. */
  predicate WanderTile(p: Pos, roomName: string)
  {
    1 <= p.x <= 48 && 1 <= p.y <= 48 && p.roomName == roomName
  }

  /** `ScoutRole.run`; the wander tile is a nondeterministic choice. */
  method Run(creep: Creep, answer: Answers)
    modifies creep
    ensures var m0 := old(creep.memory);
      var before := old(creep.issued);
      var here := ToXY(creep.pos);
      && (m0.targetRoom.None? ==>
            exists p :: WanderTile(p, creep.room.name) && Moved(before, m0, creep.issued, creep.memory, here, p, 0, StepAndWait, answer))
      && (m0.targetRoom.Some? && creep.room.name != m0.targetRoom.value ==>
            Moved(before, m0, creep.issued, creep.memory, here, Centre(m0.targetRoom.value), 0, AbandonRoom, answer))
      && (m0.targetRoom == Some(creep.room.name) ==> Idle(before, m0, creep.issued, creep.memory))
  {
    var targetRoom := creep.memory.targetRoom;
    if targetRoom.None? {
      var x :| 1 <= x <= 48;
      var y :| 1 <= y <= 48;
      var p := Pos(x, y, creep.room.name);
      MoveRecovering(creep, p, 0, StepAndWait, answer);
      return;
    }
    if creep.room.name != targetRoom.value {
      MoveRecovering(creep, Centre(targetRoom.value), 0, AbandonRoom, answer);
    }
  }
}
