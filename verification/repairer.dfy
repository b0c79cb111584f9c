/**
 * The repairer: a two-phase creep that fetches energy and then spends it on the most urgent
 * repair of its room, in five priority tiers that depend on whether the room is under attack.
 */
module Repairer {
  import opened Common
  import opened Schema
  import opened World
  import opened Movement
  import opened RoleSteps

  /** `threatProfile && threatProfile.level !== 'NONE'`. */
  predicate UnderAttack(rm: RoomMemory)
  {
    rm.threatProfile.Some? && rm.threatProfile.value.level != NONE
  }

  /** Tier 1: a rampart below 30%. */
  predicate CriticalRampart(s: Structure) { s.stype == Rampart && Below(s, 3, 10) }

  /** Tier 2: a container below 50%. */
  predicate CriticalContainer(s: Structure) { s.stype == Container && Below(s, 5, 10) }

  /** Tier 3: a container below 80%. */
  predicate WornContainer(s: Structure) { s.stype == Container && Below(s, 8, 10) }

  /** Tier 4: anything but a wall or a rampart below 80%. */
  predicate WornInfrastructure(s: Structure) { Below(s, 8, 10) && s.stype != ConstructedWall && s.stype != Rampart }

  /** Tier 5: a rampart below 80%. */
  predicate WornRampart(s: Structure) { s.stype == Rampart && Below(s, 8, 10) }

  /**
   * The structures of the first non-empty tier: critical ramparts (only under attack), critical
   * containers, worn containers, worn infrastructure, worn ramparts (only in peace).
   */
  function RepairCandidates(structures: seq<Structure>, underAttack: bool): (tier: seq<Structure>)
    ensures forall s :: s in tier ==> s in structures && s.stype != ConstructedWall && Below(s, 8, 10)
    ensures underAttack ==> forall s :: s in tier && s.stype == Rampart ==> Below(s, 3, 10)
  {
    var critical := if underAttack then Filter(structures, CriticalRampart) else [];
    if critical != [] then critical
    else if Filter(structures, CriticalContainer) != [] then Filter(structures, CriticalContainer)
    else if Filter(structures, WornContainer) != [] then Filter(structures, WornContainer)
    else if Filter(structures, WornInfrastructure) != [] then Filter(structures, WornInfrastructure)
    else if !underAttack then Filter(structures, WornRampart)
    else []
  }

  /** The most urgent tier a structure qualifies for, 1 to 5; 0 when it needs no repair. */
  function Urgency(s: Structure, underAttack: bool): nat
  {
    if underAttack && CriticalRampart(s) then 1
    else if CriticalContainer(s) then 2
    else if WornContainer(s) then 3
    else if WornInfrastructure(s) then 4
    else if !underAttack && WornRampart(s) then 5
    else 0
  }

  /** The tier the candidates come from: the smallest urgency present in the room, 0 when none. */
  function ChosenTier(structures: seq<Structure>, underAttack: bool): nat
  {
    if underAttack && Filter(structures, CriticalRampart) != [] then 1
    else if Filter(structures, CriticalContainer) != [] then 2
    else if Filter(structures, WornContainer) != [] then 3
    else if Filter(structures, WornInfrastructure) != [] then 4
    else if !underAttack && Filter(structures, WornRampart) != [] then 5
    else 0
  }

  /** A structure of urgency u makes the chosen tier at most u. */
  lemma ChosenTierAtMost(structures: seq<Structure>, underAttack: bool, t: Structure)
    requires t in structures && 0 < Urgency(t, underAttack)
    ensures 0 < ChosenTier(structures, underAttack) <= Urgency(t, underAttack)
  {
    FilterHas(structures, CriticalRampart, t);
    FilterHas(structures, CriticalContainer, t);
    FilterHas(structures, WornContainer, t);
    FilterHas(structures, WornInfrastructure, t);
    FilterHas(structures, WornRampart, t);
  }

  /** The candidates are the structures whose urgency is the chosen tier. */
  lemma RepairCandidatesOfTier(structures: seq<Structure>, underAttack: bool, t: Structure)
    requires t in structures
    ensures t in RepairCandidates(structures, underAttack) <==>
      0 < Urgency(t, underAttack) == ChosenTier(structures, underAttack)
  {
    FilterHas(structures, CriticalRampart, t);
    FilterHas(structures, CriticalContainer, t);
    FilterHas(structures, WornContainer, t);
    FilterHas(structures, WornInfrastructure, t);
    FilterHas(structures, WornRampart, t);
    if 0 < Urgency(t, underAttack) {
      ChosenTierAtMost(structures, underAttack, t);
    }
  }

  /**
   * The candidates are exactly the structures of the most urgent need present in the room, and
   * there are none only when nothing needs repair.
   */
  lemma RepairCandidatesMostUrgent(structures: seq<Structure>, underAttack: bool)
    ensures var tier := RepairCandidates(structures, underAttack);
      && (forall s :: s in tier ==> 0 < Urgency(s, underAttack))
      && (forall s, t :: s in tier && t in structures && 0 < Urgency(t, underAttack) ==> Urgency(s, underAttack) <= Urgency(t, underAttack))
      && (forall s, t :: s in tier && t in structures && Urgency(t, underAttack) == Urgency(s, underAttack) ==> t in tier)
      && (tier == [] <==> forall t :: t in structures ==> Urgency(t, underAttack) == 0)
  {
    var tier := RepairCandidates(structures, underAttack);
    forall t | t in structures
      ensures t in tier <==> 0 < Urgency(t, underAttack) == ChosenTier(structures, underAttack)
      ensures 0 < Urgency(t, underAttack) ==> 0 < ChosenTier(structures, underAttack) <= Urgency(t, underAttack)
    {
      RepairCandidatesOfTier(structures, underAttack, t);
      if 0 < Urgency(t, underAttack) {
        ChosenTierAtMost(structures, underAttack, t);
      }
    }
    if tier != [] {
      assert tier[0] in tier;
    }
  }

  /** The containers and storages holding energy. */
  function EnergyStores(structures: seq<Structure>): seq<Structure>
  {
    Filter(structures, (s: Structure) => (s.stype == Container || s.stype == StorageStructure) && s.energy > 0)
  }

  /** The outcome of `repairStructures` for a creep at `pos` in `room`. */
  ghost predicate RepairedFrom(
    before: seq<Action>, m0: CreepMemory, after: seq<Action>, m1: CreepMemory,
    pos: Pos, room: Room, underAttack: bool, answer: Answers)
  {
    var tier := RepairCandidates(room.structures, underAttack);
    var recovery := FlipOnStuck(Working);
    && (tier != [] ==> exists t :: t in tier && Commanded(before, m0, after, m1, ToXY(pos), Repair(t.id), t.pos, recovery, answer))
    && (tier == [] && room.MySpawns() != [] ==> Moved(before, m0, after, m1, ToXY(pos), room.MySpawns()[0].pos, 0, recovery, answer))
    && (tier == [] && room.MySpawns() == [] ==> Idle(before, m0, after, m1))
  }

  /** The outcome of `fetchEnergy` for a creep at `pos` in `room`. */
  ghost predicate FetchedFrom(before: seq<Action>, m0: CreepMemory, after: seq<Action>, m1: CreepMemory, pos: Pos, room: Room, answer: Answers)
  {
    var stores := EnergyStores(room.structures);
    var recovery := FlipOnStuck(Working);
    && (room.storage.Some? ==>
          Commanded(before, m0, after, m1, ToXY(pos), Withdraw(room.storage.value.id), room.storage.value.pos, recovery, answer))
    && (room.storage.None? && stores != [] ==>
          exists s :: s in stores && Commanded(before, m0, after, m1, ToXY(pos), Withdraw(s.id), s.pos, recovery, answer))
    && (room.storage.None? && stores == [] && room.sources != [] ==>
          exists src :: src in room.sources && Commanded(before, m0, after, m1, ToXY(pos), Harvest(src.id), src.pos, recovery, answer))
    && (room.storage.None? && stores == [] && room.sources == [] ==> Idle(before, m0, after, m1))
  }

  /** `repairStructures`: repair the chosen structure, or idle toward the first own spawn. */
  method RepairStructures(creep: Creep, memory: GameMemory, answer: Answers)
    modifies creep
    ensures RepairedFrom(old(creep.issued), old(creep.memory), creep.issued, creep.memory, creep.pos, creep.room,
      UnderAttack(memory.Room(creep.room.name)), answer)
  {
    var underAttack := UnderAttack(memory.Room(creep.room.name));
    var tier := RepairCandidates(creep.room.structures, underAttack);
    var target := ClosestByPath(tier);
    if target.Some? {
      CommandRecovering(creep, Repair(target.value.id), target.value.pos, FlipOnStuck(Working), answer);
    } else {
      var spawns := creep.room.MySpawns();
      if |spawns| > 0 {
        MoveRecovering(creep, spawns[0].pos, 0, FlipOnStuck(Working), answer);
      }
    }
  }

  /** `fetchEnergy`: the room storage, else the closest store with energy, else the closest source. */
  method FetchEnergy(creep: Creep, answer: Answers)
    modifies creep
    ensures FetchedFrom(old(creep.issued), old(creep.memory), creep.issued, creep.memory, creep.pos, creep.room, answer)
  {
    if creep.room.storage.Some? {
      var storage := creep.room.storage.value;
      CommandRecovering(creep, Withdraw(storage.id), storage.pos, FlipOnStuck(Working), answer);
      return;
    }
    var store := ClosestByPath(EnergyStores(creep.room.structures));
    if store.Some? {
      CommandRecovering(creep, Withdraw(store.value.id), store.value.pos, FlipOnStuck(Working), answer);
      return;
    }
    var source := ClosestByPath(creep.room.sources);
    if source.Some? {
      CommandRecovering(creep, Harvest(source.value.id), source.value.pos, FlipOnStuck(Working), answer);
    }
  }

  /** `RepairerRole.run`: flip `working` by the load, then repair or fetch. */
  method Run(creep: Creep, memory: GameMemory, answer: Answers)
    modifies creep
    ensures var m1 := old(creep.memory).(working := NextPhase(old(creep.memory).working, creep.used, creep.free));
      && (m1.working ==> RepairedFrom(old(creep.issued), m1, creep.issued, creep.memory, creep.pos, creep.room,
            UnderAttack(memory.Room(creep.room.name)), answer))
      && (!m1.working ==> FetchedFrom(old(creep.issued), m1, creep.issued, creep.memory, creep.pos, creep.room, answer))
  {
    creep.memory := creep.memory.(working := NextPhase(creep.memory.working, creep.used, creep.free));
    if creep.memory.working {
      RepairStructures(creep, memory, answer);
    } else {
      FetchEnergy(creep, answer);
    }
  }
}
