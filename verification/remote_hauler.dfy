/**
 * The remote hauler: travels to its remote room to collect dropped energy or container energy,
 * and returns to its home room to deliver it to the storage or a spawn.
 */
module RemoteHauler {
  import opened Common
  import opened Schema
  import opened World
  import opened Movement
  import opened RoleSteps

  /** A remote container holds more than this before the hauler draws from it. */
  const MIN_CONTAINER_ENERGY: nat := 100

  /** Containers holding more than 100 energy. */
  function Stocked(structures: seq<Structure>): (r: seq<Structure>)
    ensures forall s :: s in r <==> s in structures && s.stype == Container && s.energy > MIN_CONTAINER_ENERGY
  {
    var p := (s: Structure) => s.stype == Container && s.energy > MIN_CONTAINER_ENERGY;
    assert forall s :: s in Filter(structures, p) <==> s in structures && p(s) by {
      forall s { FilterHas(structures, p, s); }
    }
    Filter(structures, p)
  }

  /** The outcome of `fetchEnergy`: travel to the target room, then dropped energy first, then a container. */
  ghost predicate FetchedFrom(before: seq<Action>, m0: CreepMemory, after: seq<Action>, m1: CreepMemory, pos: Pos, room: Room, answer: Answers)
  {
    var recovery := FlipOnStuck(IsReturning);
    var here := ToXY(pos);
    var stocked := Stocked(room.structures);
    && (m0.targetRoom.None? ==> Idle(before, m0, after, m1))
    && (m0.targetRoom.Some? && room.name != m0.targetRoom.value ==>
          Moved(before, m0, after, m1, here, Centre(m0.targetRoom.value), 0, recovery, answer))
    && (m0.targetRoom == Some(room.name) && room.dropped != [] ==>
          exists d :: d in room.dropped && Commanded(before, m0, after, m1, here, Pickup(d.id), d.pos, recovery, answer))
    && (m0.targetRoom == Some(room.name) && room.dropped == [] && stocked != [] ==>
          exists s :: s in stocked && Commanded(before, m0, after, m1, here, Withdraw(s.id), s.pos, recovery, answer))
    && (m0.targetRoom == Some(room.name) && room.dropped == [] && stocked == [] ==> Idle(before, m0, after, m1))
  }

  /** The outcome of `deliverEnergy`: travel home, then the storage, else the closest own spawn. */
  ghost predicate DeliveredFrom(before: seq<Action>, m0: CreepMemory, after: seq<Action>, m1: CreepMemory, pos: Pos, room: Room, answer: Answers)
  {
    var recovery := FlipOnStuck(IsReturning);
    var here := ToXY(pos);
    var atHome := m0.homeRoom == Some(room.name);
    && (m0.homeRoom.None? ==> Idle(before, m0, after, m1))
    && (m0.homeRoom.Some? && !atHome ==> Moved(before, m0, after, m1, here, Centre(m0.homeRoom.value), 0, recovery, answer))
    && (atHome && room.storage.Some? ==>
          Commanded(before, m0, after, m1, here, Transfer(room.storage.value.id), room.storage.value.pos, recovery, answer))
    && (atHome && room.storage.None? && room.MySpawns() != [] ==>
          exists sp :: sp in room.MySpawns() && Commanded(before, m0, after, m1, here, Transfer(sp.id), sp.pos, recovery, answer))
    && (atHome && room.storage.None? && room.MySpawns() == [] ==> Idle(before, m0, after, m1))
  }

  /** `fetchEnergy` with `findAndPickupEnergy`. */
  method FetchEnergy(creep: Creep, answer: Answers)
    modifies creep
    ensures FetchedFrom(old(creep.issued), old(creep.memory), creep.issued, creep.memory, creep.pos, creep.room, answer)
  {
    var targetRoom := creep.memory.targetRoom;
    if targetRoom.None? {
      return;
    }
    if creep.room.name != targetRoom.value {
      MoveRecovering(creep, Centre(targetRoom.value), 0, FlipOnStuck(IsReturning), answer);
      return;
    }
    var dropped := ClosestByPath(creep.room.dropped);
    if dropped.Some? {
      CommandRecovering(creep, Pickup(dropped.value.id), dropped.value.pos, FlipOnStuck(IsReturning), answer);
      return;
    }
    var container := ClosestByPath(Stocked(creep.room.structures));
    if container.Some? {
      CommandRecovering(creep, Withdraw(container.value.id), container.value.pos, FlipOnStuck(IsReturning), answer);
    }
  }

  /** `deliverEnergy` with `deliverEnergyToTarget`. */
  method DeliverEnergy(creep: Creep, answer: Answers)
    modifies creep
    ensures DeliveredFrom(old(creep.issued), old(creep.memory), creep.issued, creep.memory, creep.pos, creep.room, answer)
  {
    var homeRoom := creep.memory.homeRoom;
    if homeRoom.None? {
      return;
    }
    if creep.room.name != homeRoom.value {
      MoveRecovering(creep, Centre(homeRoom.value), 0, FlipOnStuck(IsReturning), answer);
      return;
    }
    var target := creep.room.storage;
    if target.None? {
      target := ClosestByPath(creep.room.MySpawns());
    }
    if target.Some? {
      CommandRecovering(creep, Transfer(target.value.id), target.value.pos, FlipOnStuck(IsReturning), answer);
    }
  }

  /** `RemoteHaulerRole.run`: flip `isReturning` by the load, then deliver or fetch. */
  method Run(creep: Creep, answer: Answers)
    modifies creep
    ensures var m1 := old(creep.memory).(isReturning := NextPhase(old(creep.memory).isReturning, creep.used, creep.free));
      && (m1.isReturning ==> DeliveredFrom(old(creep.issued), m1, creep.issued, creep.memory, creep.pos, creep.room, answer))
      && (!m1.isReturning ==> FetchedFrom(old(creep.issued), m1, creep.issued, creep.memory, creep.pos, creep.room, answer))
  {
    creep.memory := creep.memory.(isReturning := NextPhase(creep.memory.isReturning, creep.used, creep.free));
    if creep.memory.isReturning {
      DeliverEnergy(creep, answer);
    } else {
      FetchEnergy(creep, answer);
    }
  }
}
