/**
 * The remote harvester: travels to its remote room, takes its post on the container next to its
 * assigned source (or next to the source when there is none), keeps that container repaired,
 * harvests and fills the container.
 */
module RemoteHarvester {
  import opened Common
  import opened Schema
  import opened World
  import opened Movement
  import opened RoleSteps

  /**
   * The work at the source: reach the post first (the container's tile, or any tile next to the
   * source); at the post repair a worn container when carrying energy, and otherwise harvest
   * when there is room and hand what is carried to the container.
   */
  ghost predicate WorkedAt(
    before: seq<Action>, m0: CreepMemory, after: seq<Action>, m1: CreepMemory,
    pos: Pos, room: Room, source: Source, energy: nat, used: nat, free: nat, answer: Answers)
  {
    var container := AdjacentContainer(room.structures, source.pos);
    var here := ToXY(pos);
    var harvest := if free > 0 then [Harvest(source.id)] else [];
    && (container.Some? && pos != container.value.pos ==>
          Moved(before, m0, after, m1, here, container.value.pos, 0, StepAndWait, answer))
    && (container.None? && !InRange(pos, source.pos, 1) ==>
          Moved(before, m0, after, m1, here, source.pos, 0, StepAndWait, answer))
    && (container.Some? && pos == container.value.pos && Below(container.value, 8, 10) && energy > 0 ==>
          after == before + [Repair(container.value.id)] && m1 == m0)
    && (container.Some? && pos == container.value.pos && !(Below(container.value, 8, 10) && energy > 0) ==>
          after == before + harvest + (if used > 0 then [Transfer(container.value.id)] else []) && m1 == m0)
    && (container.None? && InRange(pos, source.pos, 1) ==> after == before + harvest && m1 == m0)
  }

  /** The work at the post, once the source is known. */
  method WorkSource(creep: Creep, source: Source, answer: Answers)
    modifies creep
    ensures WorkedAt(old(creep.issued), old(creep.memory), creep.issued, creep.memory, creep.pos, creep.room, source,
      creep.energy, creep.used, creep.free, answer)
  {
    var container := AdjacentContainer(creep.room.structures, source.pos);
    if container.Some? && creep.pos != container.value.pos {
      MoveRecovering(creep, container.value.pos, 0, StepAndWait, answer);
      return;
    }
    if container.None? && !InRange(creep.pos, source.pos, 1) {
      MoveRecovering(creep, source.pos, 0, StepAndWait, answer);
      return;
    }
    if container.Some? && Below(container.value, 8, 10) && creep.energy > 0 {
      var _ := creep.Issue(Repair(container.value.id), answer);
      return;
    }
    if creep.free > 0 {
      var _ := creep.Issue(Harvest(source.id), answer);
    }
    if container.Some? && creep.used > 0 {
      var _ := creep.Issue(Transfer(container.value.id), answer);
    }
  }

  /**
   * `RemoteHarvesterRole.run`: nothing without a target room and a source id; travel to the
   * target room (suiciding when stuck); forget a source id that no longer resolves; then work the
   * source. `sourceById` is `Game.getObjectById`.
   */
  method Run(creep: Creep, sourceById: string -> Option<Source>, answer: Answers)
    modifies creep
    ensures var m0 := old(creep.memory);
      var before := old(creep.issued);
      && (m0.targetRoom.None? || m0.remoteSourceId.None? ==> Idle(before, m0, creep.issued, creep.memory))
      && (m0.targetRoom.Some? && m0.remoteSourceId.Some? && creep.room.name != m0.targetRoom.value ==>
            Moved(before, m0, creep.issued, creep.memory, ToXY(creep.pos), Centre(m0.targetRoom.value), 0, SuicideOnStuck, answer))
      && (m0.targetRoom == Some(creep.room.name) && m0.remoteSourceId.Some? && sourceById(m0.remoteSourceId.value).None? ==>
            Idle(before, m0.(remoteSourceId := None), creep.issued, creep.memory))
      && (m0.targetRoom == Some(creep.room.name) && m0.remoteSourceId.Some? && sourceById(m0.remoteSourceId.value).Some? ==>
            WorkedAt(before, m0, creep.issued, creep.memory, creep.pos, creep.room, sourceById(m0.remoteSourceId.value).value,
              creep.energy, creep.used, creep.free, answer))
  {
    var m := creep.memory;
    if m.targetRoom.None? || m.remoteSourceId.None? {
      return;
    }
    if creep.room.name != m.targetRoom.value {
      MoveRecovering(creep, Centre(m.targetRoom.value), 0, SuicideOnStuck, answer);
      return;
    }
    var source := sourceById(m.remoteSourceId.value);
    if source.None? {
      creep.memory := m.(remoteSourceId := None);
      return;
    }
    WorkSource(creep, source.value, answer);
  }
}
