/**
 * The bot's persisted state: creep memory, per-room defence memory, the spawn and scout queues,
 * room plans and highways (the `Memory` object), and the reconnaissance cache (`global.intel`)
 * with its dirty marker.
 */
module Schema {
  import opened Common

  /**
   * A creep's memory. Optional strings are `None` when the key is absent; boolean flags that are
   * absent read as false, exactly as JavaScript's `!flag` treats `undefined`.
   */
  datatype CreepMemory = CreepMemory(
    role: string,
    homeRoom: Option<string>,
    targetRoom: Option<string>,
    targetId: Option<string>,
    remoteSourceId: Option<string>,
    working: bool,
    isReturning: bool,
    isBuilding: bool,
    recycling: bool,
    lastPos: Option<XY>,
    stuckTicks: Option<nat>)

  /** The memory literal `{ role }`. */
  function NewMemory(role: string): (m: CreepMemory)
    ensures m.role == role && m.homeRoom.None? && m.targetRoom.None? && m.stuckTicks.None?
  {
    CreepMemory(role, None, None, None, None, false, false, false, false, None, None)
  }

  datatype Level = NONE | LOW | MEDIUM | HIGH | CRITICAL

  datatype ThreatType = PEACETIME | HARASS | SIEGE | CONTROLLER_ATTACK

  datatype ThreatProfile = ThreatProfile(
    level: Level, threatType: ThreatType, dps: nat, heal: nat, hostileCount: nat, lastUpdated: int)

  datatype Mode = IDLE | REPAIR | ATTACK

  datatype DefenseStatus = DefenseStatus(mode: Mode, focusTarget: Option<string>, repairTarget: Option<string>)

  datatype RoomMemory = RoomMemory(
    threatProfile: Option<ThreatProfile>,
    defenseStatus: Option<DefenseStatus>,
    lastCriticalAlert: Option<int>,
    safeModeQueued: bool)

  const EmptyRoomMemory := RoomMemory(None, None, None, false)

  /** A queued production order. Only the defender request carries a priority. */
  datatype SpawnRequest = SpawnRequest(role: string, memory: CreepMemory, priority: Option<int>)

  datatype SourceIntel = SourceIntel(id: string, pos: XY)

  datatype ReservationIntel = ReservationIntel(username: string, ticksToEnd: nat)

  datatype ControllerIntel = ControllerIntel(owner: Option<string>, reservation: Option<ReservationIntel>, level: nat)

  /** A reconnaissance snapshot of one room. */
  datatype RoomIntel = RoomIntel(
    sources: seq<SourceIntel>,
    mineral: Option<string>,
    controller: Option<ControllerIntel>,
    homeRoom: Option<string>,
    lastScouted: int,
    hostile: bool)

  /** `global.intel`: records by room name, with the order in which the names were first inserted. */
  datatype IntelMap = IntelMap(records: map<string, RoomIntel>, order: seq<string>)
  {
    predicate Valid()
    {
      && (forall i, j :: 0 <= i < j < |order| ==> order[i] != order[j])
      && (forall i :: 0 <= i < |order| ==> order[i] in records)
      && (forall r :: r in records ==> r in order)
    }

    /** `intel[name] = record`: a new name goes last in the enumeration order, an old one keeps its place. */
    function Put(name: string, record: RoomIntel): (r: IntelMap)
      requires Valid()
      ensures r.Valid()
      ensures r.records == records[name := record]
      ensures name in records ==> r.order == order
    {
      if name in records then IntelMap(records[name := record], order) else IntelMap(records[name := record], order + [name])
    }
  }

  datatype RoomPlan = RoomPlan(paths: map<string, seq<XY>>, lastStructureCount: Option<nat>)

  const EmptyRoomPlan := RoomPlan(map[], None)

  datatype Highway = Highway(path: seq<Pos>, createdAt: int)

  /** The persisted `Memory` object. An absent queue or table is the empty one. */
  class GameMemory {
    var creeps: map<string, CreepMemory>
    var rooms: map<string, RoomMemory>
    var spawnQueue: seq<SpawnRequest>
    var scoutQueue: seq<string>
    var roomPlans: map<string, RoomPlan>
    var highways: map<string, Highway>

    constructor ()
      ensures creeps == map[] && rooms == map[] && spawnQueue == [] && scoutQueue == []
      ensures roomPlans == map[] && highways == map[]
    {
      creeps, rooms, spawnQueue, scoutQueue := map[], map[], [], [];
      roomPlans, highways := map[], map[];
    }

    /** `Memory.rooms[name]`, reading an absent entry as the empty room memory. */
    function Room(name: string): RoomMemory
      reads this
    {
      if name in rooms then rooms[name] else EmptyRoomMemory
    }
  }

  /** `global.intel` (absent until something creates it) and the marker that asks for it to be persisted. */
  class IntelStore {
    var intel: Option<IntelMap>
    var dirty: bool

    constructor ()
      ensures intel.None? && !dirty
    {
      intel, dirty := None, false;
    }

    ghost predicate Valid()
      reads this
    {
      intel.Some? ==> intel.value.Valid()
    }
  }
}
