/**
 * The hauler: a two-phase creep that takes energy out of well-stocked containers and delivers it
 * to extensions, spawns and towers with room for it.
 */
module Hauler {
  import opened Common
  import opened Schema
  import opened World
  import opened Movement
  import opened RoleSteps

  /** A container holds more than this before the hauler draws from it. */
  const MIN_CONTAINER_ENERGY: nat := 200

  /** Extensions, spawns and towers with free energy capacity. */
  function Consumers(structures: seq<Structure>): (r: seq<Structure>)
    ensures forall s :: s in r <==> s in structures && s.stype in {Extension, Spawn, Tower} && s.freeEnergy > 0
  {
    var p := (s: Structure) => s.stype in {Extension, Spawn, Tower} && s.freeEnergy > 0;
    assert forall s :: s in Filter(structures, p) <==> s in structures && p(s) by {
      forall s { FilterHas(structures, p, s); }
    }
    Filter(structures, p)
  }

  /** Containers holding more than 200 energy. */
  function Stocked(structures: seq<Structure>): (r: seq<Structure>)
    ensures forall s :: s in r <==> s in structures && s.stype == Container && s.energy > MIN_CONTAINER_ENERGY
  {
    var p := (s: Structure) => s.stype == Container && s.energy > MIN_CONTAINER_ENERGY;
    assert forall s :: s in Filter(structures, p) <==> s in structures && p(s) by {
      forall s { FilterHas(structures, p, s); }
    }
    Filter(structures, p)
  }

  /**
   * Act on one of the candidates with `cmd`, moving toward it when out of range; with no
   * candidate, nothing happens.
   */
  ghost predicate ServedOne(
    before: seq<Action>, m0: CreepMemory, after: seq<Action>, m1: CreepMemory,
    pos: Pos, candidates: seq<Structure>, cmd: string -> Action, answer: Answers)
  {
    && (candidates != [] ==>
          exists s :: s in candidates && Commanded(before, m0, after, m1, ToXY(pos), cmd(s.id), s.pos, FlipOnStuck(Working), answer))
    && (candidates == [] ==> Idle(before, m0, after, m1))
  }

  /** `deliverEnergy` and `fetchEnergy`: the closest candidate by path gets the command. */
  method ServeClosest(creep: Creep, candidates: seq<Structure>, cmd: string -> Action, answer: Answers)
    modifies creep
    ensures ServedOne(old(creep.issued), old(creep.memory), creep.issued, creep.memory, creep.pos, candidates, cmd, answer)
  {
    var target := ClosestByPath(candidates);
    if target.Some? {
      CommandRecovering(creep, cmd(target.value.id), target.value.pos, FlipOnStuck(Working), answer);
    }
  }

  /** `HaulerRole.run`: flip `working` by the load, then deliver or fetch. */
  method Run(creep: Creep, answer: Answers)
    modifies creep
    ensures var m1 := old(creep.memory).(working := NextPhase(old(creep.memory).working, creep.used, creep.free));
      && (m1.working ==> ServedOne(old(creep.issued), m1, creep.issued, creep.memory, creep.pos,
            Consumers(creep.room.structures), (id: string) => Transfer(id), answer))
      && (!m1.working ==> ServedOne(old(creep.issued), m1, creep.issued, creep.memory, creep.pos,
            Stocked(creep.room.structures), (id: string) => Withdraw(id), answer))
  {
    creep.memory := creep.memory.(working := NextPhase(creep.memory.working, creep.used, creep.free));
    if creep.memory.working {
      ServeClosest(creep, Consumers(creep.room.structures), (id: string) => Transfer(id), answer);
    } else {
      ServeClosest(creep, Stocked(creep.room.structures), (id: string) => Withdraw(id), answer);
    }
  }
}
