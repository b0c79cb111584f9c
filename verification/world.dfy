/**
 * What the bot sees of the game in one tick: rooms with their structures, creeps, sources and
 * sites, and its own creeps. Engine queries and command results are not computed here; the
 * decision modules receive them as parameters.
 */
module World {
  import opened Common
  import opened Schema

  datatype BodyPart = WORK | CARRY | MOVE | ATTACK | RANGED_ATTACK | HEAL | TOUGH | CLAIM

  datatype StructureType =
    | Spawn | Extension | Road | ConstructedWall | Rampart | KeeperLair | Portal | ControllerStructure
    | Link | StorageStructure | Tower | Observer | PowerBank | PowerSpawn | Extractor | Lab | Terminal
    | Container | Nuker | Factory | InvaderCore

  /** The engine's `structureType` string. None of them contains a colon. */
  function TypeName(t: StructureType): (name: string)
    ensures forall i :: 0 <= i < |name| ==> name[i] != ':'
  {
    match t
    case Spawn => "spawn"
    case Extension => "extension"
    case Road => "road"
    case ConstructedWall => "constructedWall"
    case Rampart => "rampart"
    case KeeperLair => "keeperLair"
    case Portal => "portal"
    case ControllerStructure => "controller"
    case Link => "link"
    case StorageStructure => "storage"
    case Tower => "tower"
    case Observer => "observer"
    case PowerBank => "powerBank"
    case PowerSpawn => "powerSpawn"
    case Extractor => "extractor"
    case Lab => "lab"
    case Terminal => "terminal"
    case Container => "container"
    case Nuker => "nuker"
    case Factory => "factory"
    case InvaderCore => "invaderCore"
  }

  /**
   * A structure. `energy` is what its store holds, `freeEnergy` how much more it can take
   * (both 0 for structures without a store).
   */
  datatype Structure = Structure(
    id: string, stype: StructureType, pos: Pos, hits: nat, hitsMax: nat, my: bool, energy: nat, freeEnergy: nat)

  datatype Hostile = Hostile(id: string, name: string, pos: Pos, body: seq<BodyPart>)

  /** One of the bot's own creeps as a tower sees it. */
  datatype Ally = Ally(id: string, pos: Pos, hits: nat, hitsMax: nat)

  datatype Source = Source(id: string, pos: Pos)

  datatype Site = Site(id: string, stype: StructureType, pos: Pos)

  datatype Dropped = Dropped(id: string, pos: Pos)

  datatype Reservation = Reservation(username: string, ticksToEnd: nat)

  datatype Controller = Controller(
    id: string, pos: Pos, my: bool, level: nat, safeModeAvailable: nat,
    owner: Option<string>, reservation: Option<Reservation>)

  /** A visible room. */
  datatype Room = Room(
    name: string,
    controller: Option<Controller>,
    storage: Option<Structure>,
    structures: seq<Structure>,
    hostiles: seq<Hostile>,
    myCreeps: seq<Ally>,
    sources: seq<Source>,
    mineral: Option<string>,
    sites: seq<Site>,
    dropped: seq<Dropped>,
    energyCapacityAvailable: nat)
  {
    /** `room.controller && room.controller.my`. */
    predicate Owned()
    {
      controller.Some? && controller.value.my
    }

    /** `room.controller?.level ?? 0`. */
    function ControllerLevel(): nat
    {
      if controller.Some? then controller.value.level else 0
    }

    /** `room.find(FIND_MY_SPAWNS)`. */
    function MySpawns(): (r: seq<Structure>)
      ensures forall i :: 0 <= i < |r| ==> r[i].stype == Spawn && r[i].my
    {
      Filter(structures, (s: Structure) => s.stype == Spawn && s.my)
    }
  }

  /** The visible rooms with an owned controller, in enumeration order: `filter((r) => r.controller?.my)`. */
  function OwnedRooms(rooms: seq<Room>): (r: seq<Room>)
    ensures forall i :: 0 <= i < |r| ==> r[i].Owned() && r[i] in rooms
  {
    if |rooms| == 0 then []
    else OwnedRooms(rooms[..|rooms| - 1]) + (if rooms[|rooms| - 1].Owned() then [rooms[|rooms| - 1]] else [])
  }

  /** `pos.inRangeTo(other, r)`: same room and Chebyshev range at most r. */
  predicate InRange(a: Pos, b: Pos, r: nat)
  {
    a.roomName == b.roomName && Range(a, b) <= r
  }

  /** The commands a creep can issue. Ids name the target object. */
  datatype Action =
    | MoveTo(target: Pos, range: nat)
    | Step(direction: nat)
    | MoveByPath(path: seq<Pos>)
    | Repair(id: string)
    | Withdraw(id: string)
    | Transfer(id: string)
    | Harvest(id: string)
    | Pickup(id: string)
    | Build(id: string)
    | ReserveController(id: string)
    | RangedAttack(id: string)
    | Recycle(spawnId: string)
    | Suicide
    | PlaceSite(pos: Pos, stype: StructureType)

  /** The engine never answers with the bot's own stuck code. */
  type EngineCode = c: Code | c != ERR_STUCK witness OK

  /** The engine's answer to each command a creep issues this tick. */
  type Answers = Action -> EngineCode

  /**
   * One of the bot's creeps. Its position, store and room are fixed for the tick; its memory and
   * the list of commands it has issued this tick change as decisions are made.
   */
  class Creep {
    const name: string
    const pos: Pos
    const room: Room
    const spawning: bool
    /** `store.getUsedCapacity()`, all resources. */
    const used: nat
    /** `store.getUsedCapacity(RESOURCE_ENERGY)`. */
    const energy: nat
    /** `store.getFreeCapacity()`. */
    const free: nat
    var memory: CreepMemory
    var issued: seq<Action>

    constructor (name: string, pos: Pos, room: Room, spawning: bool, used: nat, energy: nat, free: nat, memory: CreepMemory)
      ensures this.name == name && this.pos == pos && this.room == room && this.spawning == spawning
      ensures this.used == used && this.energy == energy && this.free == free
      ensures this.memory == memory && issued == []
    {
      this.name, this.pos, this.room, this.spawning := name, pos, room, spawning;
      this.used, this.energy, this.free := used, energy, free;
      this.memory, this.issued := memory, [];
    }

    /** Append a command to this tick's list and return the engine's answer to it. */
    method Issue(a: Action, answer: Answers) returns (code: EngineCode)
      modifies this
      ensures issued == old(issued) + [a] && memory == old(memory)
      ensures code == answer(a)
    {
      issued := issued + [a];
      code := answer(a);
    }
  }

  /** The current memory of each creep, in enumeration order. */
  function Memories(cs: seq<Creep>): (ms: seq<CreepMemory>)
    reads set c | c in cs
    ensures |ms| == |cs| && forall i :: 0 <= i < |cs| ==> ms[i] == cs[i].memory
  {
    if |cs| == 0 then [] else Memories(cs[..|cs| - 1]) + [cs[|cs| - 1].memory]
  }
}
