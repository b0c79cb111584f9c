/**
 * Remote operations: keep a duplicate-free queue of rooms to scout, ask for one scout at a
 * time, send reservers, remote harvesters and haulers to the best expansion targets of every
 * owned room that can afford it, and let scouts standing in their target room replace its
 * reconnaissance record.
 *
 * `global.intel` is the `IntelStore`; the code assumes it exists, so every operation that reads
 * or writes it requires it. The map of exits is the engine's `describeExits` in key order, and
 * the linear room distance is the engine's `getRoomLinearDistance`.
 */
module RemoteManager {
  import opened Common
  import opened Schema
  import opened World
  import opened ExpansionPlanner

  const INTEL_STALE_TICKS: int := 5000
  const REMOTE_ROOM_LIMIT: nat := 3
  const MIN_ENERGY_FOR_EXPANSION: nat := 50000
  const MIN_CPU_BUCKET_FOR_EXPANSION: int := 7000
  /** Scouts and remote creeps head for the middle tile of a room. */
  const ROOM_CENTRE: nat := 25

  predicate Distinct(q: seq<string>)
  {
    forall i, j :: 0 <= i < j < |q| ==> q[i] != q[j]
  }

  // ---------------------------------------------------------------- queues

  /** `enqueueScout` on the queue's value: a room already queued is not queued again. */
  function WithScout(q: seq<string>, name: string): (r: seq<string>)
    ensures name in r && q <= r && |r| <= |q| + 1
    ensures forall n :: n in r ==> n in q || n == name
    ensures Distinct(q) ==> Distinct(r)
  {
    if name in q then q else q + [name]
  }

  /** The queue after `enqueueScout` for each name in turn. */
  function WithScouts(q: seq<string>, names: seq<string>): seq<string>
  {
    if |names| == 0 then q else WithScout(WithScouts(q, names[..|names| - 1]), names[|names| - 1])
  }

  /**
   * Enqueuing keeps what was queued, in place, adds every name, adds nothing else, and never
   * creates a duplicate.
   */
  lemma {:induction false} WithScoutsProps(q: seq<string>, names: seq<string>)
    ensures q <= WithScouts(q, names)
    ensures forall n :: n in names ==> n in WithScouts(q, names)
    ensures forall n :: n in WithScouts(q, names) ==> n in q || n in names
    ensures Distinct(q) ==> Distinct(WithScouts(q, names))
  {
    if |names| > 0 {
      var init := names[..|names| - 1];
      WithScoutsProps(q, init);
      assert names == init + [names[|names| - 1]];
      forall n | n in init
        ensures n in WithScouts(q, names)
      {
        assert WithScouts(q, init) <= WithScouts(q, names);
      }
    }
  }

  lemma {:induction false} WithScoutsAppend(q: seq<string>, a: seq<string>, b: seq<string>)
    ensures WithScouts(q, a + b) == WithScouts(WithScouts(q, a), b)
  {
    if |b| == 0 {
      assert a + b == a;
    } else {
      WithScoutsAppend(q, a, b[..|b| - 1]);
      assert (a + b)[..|a + b| - 1] == a + b[..|b| - 1];
    }
  }

  /** `Memory.scoutQueue.filter((r) => r !== name)`. */
  function Without(q: seq<string>, name: string): (r: seq<string>)
    ensures forall n :: n in r <==> n in q && n != name
    ensures Distinct(q) ==> Distinct(r)
  {
    if |q| == 0 then []
    else
      var init := Without(q[..|q| - 1], name);
      assert forall n :: n in q[..|q| - 1] ==> n in q;
      assert q == q[..|q| - 1] + [q[|q| - 1]];
      assert Distinct(q) ==> q[|q| - 1] !in q[..|q| - 1];
      init + (if q[|q| - 1] == name then [] else [q[|q| - 1]])
  }

  /** `enqueueSpawn`: always appends. */
  method EnqueueSpawn(memory: GameMemory, request: SpawnRequest)
    modifies memory`spawnQueue
    ensures memory.spawnQueue == old(memory.spawnQueue) + [request]
  {
    memory.spawnQueue := memory.spawnQueue + [request];
  }

  /** `enqueueScout`. */
  method EnqueueScout(memory: GameMemory, roomName: string)
    modifies memory`scoutQueue
    ensures memory.scoutQueue == WithScout(old(memory.scoutQueue), roomName)
  {
    var queue := memory.scoutQueue;
    if roomName !in queue {
      memory.scoutQueue := queue + [roomName];
    }
  }

  /** `allCreeps.some(...)`, over the memories of all creeps. */
  method AnyCreep(ms: seq<CreepMemory>, p: CreepMemory -> bool) returns (found: bool)
    ensures found <==> exists i :: 0 <= i < |ms| && p(ms[i])
  {
    found := false;
    var i := 0;
    while i < |ms|
      invariant 0 <= i <= |ms|
      invariant !found
      invariant forall k :: 0 <= k < i ==> !p(ms[k])
    {
      if p(ms[i]) {
        found := true;
        return;
      }
      i := i + 1;
    }
  }

  // ---------------------------------------------------------------- step 1: scouting neighbours

  /** No record, or one more than 5000 ticks old. */
  predicate NeedsScouting(intel: IntelMap, name: string, now: int)
  {
    name !in intel.records || now - intel.records[name].lastScouted > INTEL_STALE_TICKS
  }

  /** The exits, in order, that need scouting. */
  function StaleExits(exits: seq<string>, intel: IntelMap, now: int): (r: seq<string>)
    ensures forall n :: n in r <==> n in exits && NeedsScouting(intel, n, now)
  {
    if |exits| == 0 then []
    else
      var last := exits[|exits| - 1];
      assert exits == exits[..|exits| - 1] + [last];
      StaleExits(exits[..|exits| - 1], intel, now) + (if NeedsScouting(intel, last, now) then [last] else [])
  }

  /** Step 1's scouting wishes: the stale exits of every owned room, room by room. */
  function StaleNeighbours(owned: seq<Room>, exits: string -> seq<string>, intel: IntelMap, now: int): (r: seq<string>)
    ensures forall n :: n in r <==>
      NeedsScouting(intel, n, now) && exists i :: 0 <= i < |owned| && n in exits(owned[i].name)
  {
    if |owned| == 0 then []
    else
      var init := owned[..|owned| - 1];
      assert forall i :: 0 <= i < |init| ==> init[i] == owned[i];
      StaleNeighbours(init, exits, intel, now) + StaleExits(exits(owned[|owned| - 1].name), intel, now)
  }

  method ScoutExits(memory: GameMemory, intel: IntelMap, exits: seq<string>, now: int)
    modifies memory`scoutQueue
    ensures memory.scoutQueue == WithScouts(old(memory.scoutQueue), StaleExits(exits, intel, now))
  {
    ghost var q0 := memory.scoutQueue;
    var j := 0;
    while j < |exits|
      invariant 0 <= j <= |exits|
      invariant memory.scoutQueue == WithScouts(q0, StaleExits(exits[..j], intel, now))
    {
      assert exits[..j + 1][..j] == exits[..j];
      var remoteName := exits[j];
      if remoteName !in intel.records || now - intel.records[remoteName].lastScouted > INTEL_STALE_TICKS {
        EnqueueScout(memory, remoteName);
        assert StaleExits(exits[..j + 1], intel, now) == StaleExits(exits[..j], intel, now) + [remoteName];
        assert (StaleExits(exits[..j], intel, now) + [remoteName])[..|StaleExits(exits[..j], intel, now)|]
          == StaleExits(exits[..j], intel, now);
      } else {
        assert StaleExits(exits[..j + 1], intel, now) == StaleExits(exits[..j], intel, now);
      }
      j := j + 1;
    }
    assert exits[..j] == exits;
  }

  /** Step 1: queue every exit neighbour of an owned room whose intel is missing or stale. */
  method ScoutNeighbours(memory: GameMemory, intel: IntelMap, owned: seq<Room>, exits: string -> seq<string>, now: int)
    modifies memory`scoutQueue
    ensures memory.scoutQueue == WithScouts(old(memory.scoutQueue), StaleNeighbours(owned, exits, intel, now))
  {
    ghost var q0 := memory.scoutQueue;
    var i := 0;
    while i < |owned|
      invariant 0 <= i <= |owned|
      invariant memory.scoutQueue == WithScouts(q0, StaleNeighbours(owned[..i], exits, intel, now))
    {
      assert owned[..i + 1][..i] == owned[..i];
      ScoutExits(memory, intel, exits(owned[i].name), now);
      WithScoutsAppend(q0, StaleNeighbours(owned[..i], exits, intel, now), StaleExits(exits(owned[i].name), intel, now));
      i := i + 1;
    }
    assert owned[..i] == owned;
  }

  /**
   * After step 1 the queue still starts with what it held, holds every stale neighbour, holds
   * nothing else, and is still free of duplicates.
   */
  lemma ScoutQueueAfterStep1(q: seq<string>, owned: seq<Room>, exits: string -> seq<string>, intel: IntelMap, now: int)
    requires Distinct(q)
    ensures var r := WithScouts(q, StaleNeighbours(owned, exits, intel, now));
      && q <= r && Distinct(r)
      && forall n :: n in r <==> n in q || (NeedsScouting(intel, n, now) && exists i :: 0 <= i < |owned| && n in exits(owned[i].name))
  {
    WithScoutsProps(q, StaleNeighbours(owned, exits, intel, now));
  }

  // ---------------------------------------------------------------- step 2: one scout at a time

  predicate ScoutFor(m: CreepMemory, target: string)
  {
    m.role == "scout" && m.targetRoom == Some(target)
  }

  function ScoutRequest(target: string): SpawnRequest
  {
    SpawnRequest("scout", NewMemory("scout").(targetRoom := Some(target)), None)
  }

  /** The requests `processScoutQueue` makes: one scout for the head of the queue unless a live one already targets it. */
  function ScoutRequests(queue: seq<string>, ms: seq<CreepMemory>): (r: seq<SpawnRequest>)
    ensures r == [] || (|queue| > 0 && r == [ScoutRequest(queue[0])])
    ensures r != [] <==> |queue| > 0 && forall i :: 0 <= i < |ms| ==> !ScoutFor(ms[i], queue[0])
  {
    if |queue| == 0 then []
    else if exists i :: 0 <= i < |ms| && ScoutFor(ms[i], queue[0]) then []
    else [ScoutRequest(queue[0])]
  }

  /** Step 2: `processScoutQueue`. */
  method ProcessScoutQueue(memory: GameMemory, ms: seq<CreepMemory>)
    modifies memory`spawnQueue
    ensures memory.spawnQueue == old(memory.spawnQueue) + ScoutRequests(memory.scoutQueue, ms)
  {
    var queue := memory.scoutQueue;
    if |queue| == 0 {
      return;
    }
    var targetRoom := queue[0];
    var existingScout := AnyCreep(ms, (m: CreepMemory) => ScoutFor(m, targetRoom));
    if existingScout {
      return;
    }
    EnqueueSpawn(memory, ScoutRequest(targetRoom));
  }

  // ---------------------------------------------------------------- step 3: remote operations

  /** `room.storage?.store.energy ?? 0`. */
  function StorageEnergy(room: Room): nat
  {
    if room.storage.Some? then room.storage.value.energy else 0
  }

  /** `canExpand`: enough stored energy and enough CPU bucket. */
  predicate CanExpand(room: Room, bucket: int)
  {
    StorageEnergy(room) >= MIN_ENERGY_FOR_EXPANSION && bucket >= MIN_CPU_BUCKET_FOR_EXPANSION
  }

  /** A room without storage never expands, whatever the bucket. */
  lemma NoStorageNoExpansion(room: Room, bucket: int)
    requires room.storage.None?
    ensures !CanExpand(room, bucket)
  {
  }

  /** A live creep of `role` already working `target`. */
  predicate Serves(m: CreepMemory, role: string, target: string)
  {
    m.role == role && m.targetRoom == Some(target)
  }

  predicate AnyServes(ms: seq<CreepMemory>, role: string, target: string)
  {
    exists i :: 0 <= i < |ms| && Serves(ms[i], role, target)
  }

  predicate HarvestsSource(m: CreepMemory, target: string, sourceId: string)
  {
    Serves(m, "remoteHarvester", target) && m.remoteSourceId == Some(sourceId)
  }

  /** The request for a remote creep of `role` working `target` from `home`. */
  function RemoteRequest(role: string, target: string, home: string): SpawnRequest
  {
    SpawnRequest(role, NewMemory(role).(targetRoom := Some(target), homeRoom := Some(home)), None)
  }

  function HarvesterRequest(target: string, home: string, sourceId: string): SpawnRequest
  {
    var r := RemoteRequest("remoteHarvester", target, home);
    r.(memory := r.memory.(remoteSourceId := Some(sourceId)))
  }

  /** Step 3b: a harvester for each source no live harvester works. */
  function HarvesterRequests(sources: seq<SourceIntel>, target: string, home: string, ms: seq<CreepMemory>): (r: seq<SpawnRequest>)
    ensures forall k :: 0 <= k < |r| ==>
      r[k].role == "remoteHarvester" && r[k].memory.targetRoom == Some(target) && r[k].memory.homeRoom == Some(home)
    ensures forall k :: 0 <= k < |r| ==> exists j :: 0 <= j < |sources| && r[k] == HarvesterRequest(target, home, sources[j].id)
    ensures forall j :: 0 <= j < |sources| ==>
      (HarvesterRequest(target, home, sources[j].id) in r <==> !exists i :: 0 <= i < |ms| && HarvestsSource(ms[i], target, sources[j].id))
  {
    if |sources| == 0 then []
    else
      var init := sources[..|sources| - 1];
      var last := sources[|sources| - 1];
      var r0 := HarvesterRequests(init, target, home, ms);
      assert forall j :: 0 <= j < |init| ==> init[j] == sources[j];
      assert forall j :: 0 <= j < |sources| - 1 ==> sources[j] in init;
      r0 + (if exists i :: 0 <= i < |ms| && HarvestsSource(ms[i], target, last.id) then [] else [HarvesterRequest(target, home, last.id)])
  }

  function ReserverRequests(target: string, home: string, ms: seq<CreepMemory>): seq<SpawnRequest>
  {
    if AnyServes(ms, "reserver", target) then [] else [RemoteRequest("reserver", target, home)]
  }

  function HaulerRequests(target: string, home: string, ms: seq<CreepMemory>): seq<SpawnRequest>
  {
    if AnyServes(ms, "remoteHauler", target) then [] else [RemoteRequest("remoteHauler", target, home)]
  }

  function DefenderRequests(record: RoomIntel, target: string, home: string, ms: seq<CreepMemory>): seq<SpawnRequest>
  {
    if record.hostile && !AnyServes(ms, "remoteDefender", target) then [RemoteRequest("remoteDefender", target, home)] else []
  }

  /**
   * The requests one target gets (steps 3a-3d), in order: a reserver, a harvester per source, a
   * hauler, and a remote defender when the record says the room is hostile. Every one of them
   * works the target from this home.
   */
  function TargetRequests(record: RoomIntel, target: string, home: string, ms: seq<CreepMemory>): (r: seq<SpawnRequest>)
    ensures forall x :: x in r ==> x.memory.targetRoom == Some(target) && x.memory.homeRoom == Some(home)
    ensures forall x :: x in r ==> x.role != "remoteDefender" || record.hostile
  {
    var harvesters := HarvesterRequests(record.sources, target, home, ms);
    ReserverRequests(target, home, ms) + harvesters + HaulerRequests(target, home, ms) + DefenderRequests(record, target, home, ms)
  }

  /**
   * Each kind of remote creep is requested exactly when no live creep already covers it;
   * requests already waiting in the queue are not looked at.
   */
  lemma TargetRequestsCover(record: RoomIntel, target: string, home: string, ms: seq<CreepMemory>)
    ensures var r := TargetRequests(record, target, home, ms);
      && (RemoteRequest("reserver", target, home) in r <==> !AnyServes(ms, "reserver", target))
      && (RemoteRequest("remoteHauler", target, home) in r <==> !AnyServes(ms, "remoteHauler", target))
      && (RemoteRequest("remoteDefender", target, home) in r <==> record.hostile && !AnyServes(ms, "remoteDefender", target))
  {
    var a := ReserverRequests(target, home, ms);
    var b := HarvesterRequests(record.sources, target, home, ms);
    var c := HaulerRequests(target, home, ms);
    var d := DefenderRequests(record, target, home, ms);
    assert RemoteRequest("reserver", target, home) in a + b + c + d <==> RemoteRequest("reserver", target, home) in a || RemoteRequest("reserver", target, home) in b || RemoteRequest("reserver", target, home) in c || RemoteRequest("reserver", target, home) in d;
    assert RemoteRequest("remoteHauler", target, home) in a + b + c + d <==> RemoteRequest("remoteHauler", target, home) in a || RemoteRequest("remoteHauler", target, home) in b || RemoteRequest("remoteHauler", target, home) in c || RemoteRequest("remoteHauler", target, home) in d;
    assert RemoteRequest("remoteDefender", target, home) in a + b + c + d <==> RemoteRequest("remoteDefender", target, home) in a || RemoteRequest("remoteDefender", target, home) in b || RemoteRequest("remoteDefender", target, home) in c || RemoteRequest("remoteDefender", target, home) in d;
  }

  /** A harvester is requested for a source exactly when no live harvester works that source of that room. */
  lemma HarvesterRequestsCover(record: RoomIntel, target: string, home: string, ms: seq<CreepMemory>, j: nat)
    requires j < |record.sources|
    ensures HarvesterRequest(target, home, record.sources[j].id) in TargetRequests(record, target, home, ms)
      <==> !exists i :: 0 <= i < |ms| && HarvestsSource(ms[i], target, record.sources[j].id)
  {
    var a := ReserverRequests(target, home, ms);
    var b := HarvesterRequests(record.sources, target, home, ms);
    var c := HaulerRequests(target, home, ms);
    var d := DefenderRequests(record, target, home, ms);
    assert HarvesterRequest(target, home, record.sources[j].id) in a + b + c + d <==> HarvesterRequest(target, home, record.sources[j].id) in a || HarvesterRequest(target, home, record.sources[j].id) in b || HarvesterRequest(target, home, record.sources[j].id) in c || HarvesterRequest(target, home, record.sources[j].id) in d;
  }

  /** `Game.rooms[name]`: the first visible room with that name. */
  function VisibleRoom(rooms: seq<Room>, name: string): (r: Option<Room>)
    ensures r.Some? ==> r.value in rooms && r.value.name == name
    ensures r.None? ==> forall i :: 0 <= i < |rooms| ==> rooms[i].name != name
  {
    if |rooms| == 0 then None else if rooms[0].name == name then Some(rooms[0]) else VisibleRoom(rooms[1..], name)
  }

  /** The part of the state steps 3 reads and writes: the intel map, its dirty marker and the spawn queue. */
  datatype Remote = Remote(intel: IntelMap, dirty: bool, queue: seq<SpawnRequest>)

  /** A target's record after step 3: this home claims it, and a visible room's hostile flag is synced. */
  function ServedRecord(record: RoomIntel, home: string, visible: Option<Room>): (r: RoomIntel)
    ensures r.homeRoom == Some(home)
    ensures visible.Some? ==> (r.hostile <==> |visible.value.hostiles| > 0)
    ensures visible.None? ==> r.hostile == record.hostile
    ensures r.sources == record.sources && r.mineral == record.mineral && r.controller == record.controller
    ensures r.lastScouted == record.lastScouted
  {
    var claimed := if record.homeRoom != Some(home) then record.(homeRoom := Some(home)) else record;
    if visible.Some? && claimed.hostile != (|visible.value.hostiles| > 0) then claimed.(hostile := |visible.value.hostiles| > 0)
    else claimed
  }

  /**
   * Serving one target: its requests go to the back of the queue, its record becomes the served
   * record, and the intel is marked dirty exactly when that record changed.
   */
  function ServeTarget(s: Remote, target: string, home: string, ms: seq<CreepMemory>, rooms: seq<Room>): (r: Remote)
    requires target in s.intel.records
    ensures r.intel.order == s.intel.order
    ensures r.intel.records == s.intel.records[target := ServedRecord(s.intel.records[target], home, VisibleRoom(rooms, target))]
    ensures r.dirty <==> s.dirty || r.intel.records[target] != s.intel.records[target]
    ensures r.queue == s.queue + TargetRequests(s.intel.records[target], target, home, ms)
  {
    var record := s.intel.records[target];
    var served := ServedRecord(record, home, VisibleRoom(rooms, target));
    Remote(IntelMap(s.intel.records[target := served], s.intel.order), s.dirty || served != record, s.queue + TargetRequests(record, target, home, ms))
  }

  /** Serving the targets in order. */
  function ServeTargets(s: Remote, targets: seq<ScoredRoom>, home: string, ms: seq<CreepMemory>, rooms: seq<Room>): (r: Remote)
    requires forall k :: 0 <= k < |targets| ==> targets[k].roomName in s.intel.records
    ensures r.intel.records.Keys == s.intel.records.Keys && r.intel.order == s.intel.order
    ensures s.queue <= r.queue
  {
    if |targets| == 0 then s
    else
      var init := targets[..|targets| - 1];
      var mid := ServeTargets(s, init, home, ms, rooms);
      ServeTarget(mid, targets[|targets| - 1].roomName, home, ms, rooms)
  }

  /** Serving one more target extends the served prefix by that target's step. */
  lemma ServeTargetsStep(s: Remote, targets: seq<ScoredRoom>, home: string, ms: seq<CreepMemory>, rooms: seq<Room>, k: nat)
    requires forall k :: 0 <= k < |targets| ==> targets[k].roomName in s.intel.records
    requires k < |targets|
    ensures targets[k].roomName in ServeTargets(s, targets[..k], home, ms, rooms).intel.records
    ensures ServeTargets(s, targets[..k + 1], home, ms, rooms)
      == ServeTarget(ServeTargets(s, targets[..k], home, ms, rooms), targets[k].roomName, home, ms, rooms)
  {
    assert targets[..k + 1][..k] == targets[..k];
  }

  /** The linear distance of each room to `home`. */
  function DistanceTo(linear: (string, string) -> nat, home: string): string -> nat
  {
    (name: string) => linear(name, home)
  }

  /** The targets `getTopExpansionTargets(home, 3)` gives in state s. */
  function TargetsFor(s: Remote, home: string, now: int, linear: (string, string) -> nat): seq<ScoredRoom>
    requires s.intel.Valid()
  {
    TopExpansionTargets(Some(s.intel), home, REMOTE_ROOM_LIMIT, now, DistanceTo(linear, home))
  }

  /** Step 3 for one owned room: nothing unless it can expand, else serve its current top targets. */
  function ServeRoom(s: Remote, room: Room, bucket: int, now: int, linear: (string, string) -> nat, ms: seq<CreepMemory>, rooms: seq<Room>): (r: Remote)
    requires s.intel.Valid()
    ensures r.intel.Valid() && r.intel.records.Keys == s.intel.records.Keys && r.intel.order == s.intel.order
    ensures s.queue <= r.queue
  {
    if !CanExpand(room, bucket) then s
    else
      var targets := TargetsFor(s, room.name, now, linear);
      TopTargetsShape(Some(s.intel), room.name, REMOTE_ROOM_LIMIT, now, DistanceTo(linear, room.name));
      ServeTargets(s, targets, room.name, ms, rooms)
  }

  /** Step 3 over the owned rooms in order; each room sees what the rooms before it wrote. */
  function ServeRooms(s: Remote, owned: seq<Room>, bucket: int, now: int, linear: (string, string) -> nat, ms: seq<CreepMemory>, rooms: seq<Room>): (r: Remote)
    requires s.intel.Valid()
    ensures r.intel.Valid() && r.intel.records.Keys == s.intel.records.Keys && r.intel.order == s.intel.order
    ensures s.queue <= r.queue
  {
    if |owned| == 0 then s
    else ServeRoom(ServeRooms(s, owned[..|owned| - 1], bucket, now, linear, ms, rooms), owned[|owned| - 1], bucket, now, linear, ms, rooms)
  }

  /** No request past the first `|q0|` entries of `q` is for a remote defender. */
  predicate NoDefenderAdded(q0: seq<SpawnRequest>, q: seq<SpawnRequest>)
  {
    forall i :: |q0| <= i < |q| ==> q[i].role != "remoteDefender"
  }

  /** Serving targets touches only their own records. */
  lemma {:induction false} ServeTargetsUntouched(s: Remote, targets: seq<ScoredRoom>, home: string, ms: seq<CreepMemory>, rooms: seq<Room>, n: string)
    requires forall k :: 0 <= k < |targets| ==> targets[k].roomName in s.intel.records
    requires n in s.intel.records && forall k :: 0 <= k < |targets| ==> targets[k].roomName != n
    ensures ServeTargets(s, targets, home, ms, rooms).intel.records[n] == s.intel.records[n]
  {
    if |targets| > 0 {
      ServeTargetsUntouched(s, targets[..|targets| - 1], home, ms, rooms, n);
    }
  }

  /**
   * Targets whose records are not hostile get no remote defender: the targets are distinct, so
   * no earlier target touches a later one's record, and the hostile flag is synced only after
   * the check.
   */
  /** Appending requests none of which is a remote defender keeps the queue free of added ones. */
  lemma NoDefenderAppend(q0: seq<SpawnRequest>, q: seq<SpawnRequest>, req: seq<SpawnRequest>)
    requires NoDefenderAdded(q0, q)
    requires forall x :: x in req ==> x.role != "remoteDefender"
    ensures NoDefenderAdded(q0, q + req)
  {
    forall i | |q0| <= i < |q + req|
      ensures (q + req)[i].role != "remoteDefender"
    {
      if i >= |q| {
        assert (q + req)[i] == req[i - |q|];
      }
    }
  }

  lemma {:induction false} ServeTargetsNoDefender(s: Remote, targets: seq<ScoredRoom>, home: string, ms: seq<CreepMemory>, rooms: seq<Room>)
    requires forall k :: 0 <= k < |targets| ==> targets[k].roomName in s.intel.records
    requires DistinctNames(targets)
    requires forall k :: 0 <= k < |targets| ==> !s.intel.records[targets[k].roomName].hostile
    ensures NoDefenderAdded(s.queue, ServeTargets(s, targets, home, ms, rooms).queue)
  {
    if |targets| > 0 {
      var init := targets[..|targets| - 1];
      var last := targets[|targets| - 1].roomName;
      ServeTargetsNoDefender(s, init, home, ms, rooms);
      var mid := ServeTargets(s, init, home, ms, rooms);
      ServeTargetsUntouched(s, init, home, ms, rooms, last);
      var req := TargetRequests(mid.intel.records[last], last, home, ms);
      var r := ServeTarget(mid, last, home, ms, rooms);
      assert r.queue == mid.queue + req;
      NoDefenderAppend(s.queue, mid.queue, req);
    }
  }

  /** One owned room's step 3 adds no remote-defender request. */
  lemma ServeRoomNoDefender(s: Remote, room: Room, bucket: int, now: int, linear: (string, string) -> nat, ms: seq<CreepMemory>, rooms: seq<Room>)
    requires s.intel.Valid()
    ensures NoDefenderAdded(s.queue, ServeRoom(s, room, bucket, now, linear, ms, rooms).queue)
  {
    if CanExpand(room, bucket) {
      var targets := TargetsFor(s, room.name, now, linear);
      TopTargetsShape(Some(s.intel), room.name, REMOTE_ROOM_LIMIT, now, DistanceTo(linear, room.name));
      TopTargetsDistinct(s.intel, room.name, REMOTE_ROOM_LIMIT, now, DistanceTo(linear, room.name));
      assert forall k :: 0 <= k < |targets| ==> !s.intel.records[targets[k].roomName].hostile;
      ServeTargetsNoDefender(s, targets, room.name, ms, rooms);
      assert ServeRoom(s, room, bucket, now, linear, ms, rooms) == ServeTargets(s, targets, room.name, ms, rooms);
    }
  }

  /**
   * As written, step 3 never asks for a remote defender: a target is chosen only while its record
   * is not hostile, and the flag is synced after the check.
   */
  lemma {:induction false} NoRemoteDefenderRequested(s: Remote, owned: seq<Room>, bucket: int, now: int, linear: (string, string) -> nat, ms: seq<CreepMemory>, rooms: seq<Room>)
    requires s.intel.Valid()
    ensures NoDefenderAdded(s.queue, ServeRooms(s, owned, bucket, now, linear, ms, rooms).queue)
  {
    if |owned| > 0 {
      var init := owned[..|owned| - 1];
      NoRemoteDefenderRequested(s, init, bucket, now, linear, ms, rooms);
      var mid := ServeRooms(s, init, bucket, now, linear, ms, rooms);
      ServeRoomNoDefender(mid, owned[|owned| - 1], bucket, now, linear, ms, rooms);
      var r := ServeRoom(mid, owned[|owned| - 1], bucket, now, linear, ms, rooms);
      assert r == ServeRooms(s, owned, bucket, now, linear, ms, rooms);
      assert mid.queue <= r.queue;
      forall i | |s.queue| <= i < |r.queue|
        ensures r.queue[i].role != "remoteDefender"
      {
        if i < |mid.queue| {
          assert mid.queue[i].role != "remoteDefender";
          assert r.queue[i] == mid.queue[i];
        } else {
          assert |mid.queue| <= i;
        }
      }
    }
  }

  /** What step 3 reads and writes, taken from the live objects. */
  function Snapshot(memory: GameMemory, store: IntelStore): Remote
    reads memory, store
    requires store.intel.Some?
  {
    Remote(store.intel.value, store.dirty, memory.spawnQueue)
  }

  lemma HarvesterRequestsStep(sources: seq<SourceIntel>, target: string, home: string, ms: seq<CreepMemory>, j: nat)
    requires j < |sources|
    ensures HarvesterRequests(sources[..j + 1], target, home, ms)
      == HarvesterRequests(sources[..j], target, home, ms)
         + (if exists i :: 0 <= i < |ms| && HarvestsSource(ms[i], target, sources[j].id) then [] else [HarvesterRequest(target, home, sources[j].id)])
  {
    assert sources[..j + 1][..j] == sources[..j];
  }

  /** Step 3b: the `forEach` over the target's sources. */
  method RequestHarvesters(memory: GameMemory, sources: seq<SourceIntel>, target: string, home: string, ms: seq<CreepMemory>)
    modifies memory`spawnQueue
    ensures memory.spawnQueue == old(memory.spawnQueue) + HarvesterRequests(sources, target, home, ms)
  {
    ghost var q0 := memory.spawnQueue;
    var j := 0;
    while j < |sources|
      invariant 0 <= j <= |sources|
      invariant memory.spawnQueue == q0 + HarvesterRequests(sources[..j], target, home, ms)
    {
      HarvesterRequestsStep(sources, target, home, ms, j);
      var src := sources[j];
      var harvExists := AnyCreep(ms, (m: CreepMemory) => HarvestsSource(m, target, src.id));
      assert harvExists <==> exists i :: 0 <= i < |ms| && HarvestsSource(ms[i], target, src.id);
      if !harvExists {
        assert q0 + HarvesterRequests(sources[..j], target, home, ms) + [HarvesterRequest(target, home, src.id)]
          == q0 + (HarvesterRequests(sources[..j], target, home, ms) + [HarvesterRequest(target, home, src.id)]);
        EnqueueSpawn(memory, HarvesterRequest(target, home, src.id));
      }
      j := j + 1;
    }
    assert sources[..j] == sources;
  }

  /** Regrouping five concatenated parts, proved apart so that the method's context stays small. */
  lemma AppendFour<T>(q: seq<T>, a: seq<T>, b: seq<T>, c: seq<T>, d: seq<T>)
    ensures q + a + b + c + d == q + (a + b + c + d)
  {
  }

  /** Steps 3a-3d: the requests for one target, on the record as it was when the target was chosen. */
  method RequestRemoteCreeps(memory: GameMemory, record: RoomIntel, target: string, home: string, ms: seq<CreepMemory>)
    modifies memory`spawnQueue
    ensures memory.spawnQueue == old(memory.spawnQueue) + TargetRequests(record, target, home, ms)
  {
    ghost var q0 := memory.spawnQueue;
    ghost var a := ReserverRequests(target, home, ms);
    ghost var b := HarvesterRequests(record.sources, target, home, ms);
    ghost var c := HaulerRequests(target, home, ms);
    ghost var d := DefenderRequests(record, target, home, ms);
    var reserverExists := AnyCreep(ms, (m: CreepMemory) => Serves(m, "reserver", target));
    assert reserverExists <==> AnyServes(ms, "reserver", target);
    if !reserverExists {
      EnqueueSpawn(memory, RemoteRequest("reserver", target, home));
    }
    assert memory.spawnQueue == q0 + a;
    RequestHarvesters(memory, record.sources, target, home, ms);
    assert memory.spawnQueue == q0 + a + b;
    var haulerExists := AnyCreep(ms, (m: CreepMemory) => Serves(m, "remoteHauler", target));
    assert haulerExists <==> AnyServes(ms, "remoteHauler", target);
    if !haulerExists {
      EnqueueSpawn(memory, RemoteRequest("remoteHauler", target, home));
    }
    assert memory.spawnQueue == q0 + a + b + c;
    ghost var q3 := memory.spawnQueue;
    if record.hostile {
      var defenderExists := AnyCreep(ms, (m: CreepMemory) => Serves(m, "remoteDefender", target));
      assert defenderExists <==> AnyServes(ms, "remoteDefender", target);
      if !defenderExists {
        EnqueueSpawn(memory, RemoteRequest("remoteDefender", target, home));
      } else {
        assert d == [];
      }
    } else {
      assert d == [];
    }
    assert memory.spawnQueue == q3 + d;
    AppendFour(q0, a, b, c, d);
  }

  /** Serving one target: claim it for this home, make its requests, and sync a visible room's hostile flag. */
  method Serve(memory: GameMemory, store: IntelStore, target: string, home: string, ms: seq<CreepMemory>, rooms: seq<Room>)
    requires store.intel.Some? && target in store.intel.value.records
    modifies memory`spawnQueue, store
    ensures store.intel.Some?
    ensures Snapshot(memory, store) == ServeTarget(old(Snapshot(memory, store)), target, home, ms, rooms)
  {
    ghost var s0 := Snapshot(memory, store);
    var intel := store.intel.value.records[target];
    if intel.homeRoom != Some(home) {
      store.intel := Some(IntelMap(store.intel.value.records[target := intel.(homeRoom := Some(home))], store.intel.value.order));
      store.dirty := true;
    }
    ghost var claimed := if intel.homeRoom != Some(home) then intel.(homeRoom := Some(home)) else intel;
    assert store.intel.value == IntelMap(s0.intel.records[target := claimed], s0.intel.order);
    assert store.dirty <==> s0.dirty || claimed != intel;
    var visibleRoom := VisibleRoom(rooms, target);

    RequestRemoteCreeps(memory, intel, target, home, ms);

    if visibleRoom.Some? {
      var hasHostiles := |visibleRoom.value.hostiles| > 0;
      var current := store.intel.value.records[target];
      if current.hostile != hasHostiles {
        store.intel := Some(IntelMap(store.intel.value.records[target := current.(hostile := hasHostiles)], store.intel.value.order));
        store.dirty := true;
      }
    }
    ghost var served := ServedRecord(intel, home, visibleRoom);
    assert store.intel.value == IntelMap(s0.intel.records[target := served], s0.intel.order);
    assert served != intel <==> claimed != intel || served != claimed;
  }

  /** The `for (const target of expansionTargets)` loop. */
  method ServeAll(memory: GameMemory, store: IntelStore, targets: seq<ScoredRoom>, home: string, ms: seq<CreepMemory>, rooms: seq<Room>)
    requires store.intel.Some?
    requires forall k :: 0 <= k < |targets| ==> targets[k].roomName in store.intel.value.records
    modifies memory`spawnQueue, store
    ensures store.intel.Some?
    ensures Snapshot(memory, store) == ServeTargets(old(Snapshot(memory, store)), targets, home, ms, rooms)
  {
    ghost var s0 := Snapshot(memory, store);
    var k := 0;
    while k < |targets|
      invariant 0 <= k <= |targets|
      invariant store.intel.Some?
      invariant Snapshot(memory, store) == ServeTargets(s0, targets[..k], home, ms, rooms)
    {
      ServeTargetsStep(s0, targets, home, ms, rooms, k);
      Serve(memory, store, targets[k].roomName, home, ms, rooms);
      k := k + 1;
    }
    assert targets[..k] == targets;
  }

  /** Step 3: every owned room that can expand serves its current top targets. */
  method ManageRemotes(memory: GameMemory, store: IntelStore, owned: seq<Room>, ms: seq<CreepMemory>, rooms: seq<Room>,
                       bucket: int, now: int, linear: (string, string) -> nat)
    requires store.intel.Some? && store.intel.value.Valid()
    modifies memory`spawnQueue, store
    ensures store.intel.Some?
    ensures Snapshot(memory, store) == ServeRooms(old(Snapshot(memory, store)), owned, bucket, now, linear, ms, rooms)
  {
    ghost var s0 := Snapshot(memory, store);
    var i := 0;
    while i < |owned|
      invariant 0 <= i <= |owned|
      invariant store.intel.Some?
      invariant Snapshot(memory, store) == ServeRooms(s0, owned[..i], bucket, now, linear, ms, rooms)
    {
      assert owned[..i + 1][..i] == owned[..i];
      var room := owned[i];
      if CanExpand(room, bucket) {
        var expansionTargets := TopExpansionTargets(store.intel, room.name, REMOTE_ROOM_LIMIT, now, DistanceTo(linear, room.name));
        TopTargetsShape(store.intel, room.name, REMOTE_ROOM_LIMIT, now, DistanceTo(linear, room.name));
        ServeAll(memory, store, expansionTargets, room.name, ms, rooms);
      }
      i := i + 1;
    }
    assert owned[..i] == owned;
  }

  // ---------------------------------------------------------------- step 4: scouts report

  /** The record `updateIntel` writes for the room a scout stands in: no home, scouted now. */
  function IntelOf(room: Room, now: int): (r: RoomIntel)
    ensures r.homeRoom.None? && r.lastScouted == now
    ensures r.hostile <==> |room.hostiles| > 0
    ensures |r.sources| == |room.sources|
      && forall i :: 0 <= i < |r.sources| ==> r.sources[i].id == room.sources[i].id && r.sources[i].pos == ToXY(room.sources[i].pos)
    ensures r.mineral == room.mineral
    ensures r.controller.Some? <==> room.controller.Some?
    ensures room.controller.Some? ==>
      (&& r.controller.value.owner == room.controller.value.owner
       && r.controller.value.level == room.controller.value.level
       && (r.controller.value.reservation.Some? <==> room.controller.value.reservation.Some?))
  {
    RoomIntel(
      seq(|room.sources|, i requires 0 <= i < |room.sources| => SourceIntel(room.sources[i].id, ToXY(room.sources[i].pos))),
      room.mineral,
      if room.controller.None? then None
      else
        var c := room.controller.value;
        Some(ControllerIntel(
          c.owner,
          if c.reservation.None? then None else Some(ReservationIntel(c.reservation.value.username, c.reservation.value.ticksToEnd)),
          c.level)),
      None,
      now,
      |room.hostiles| > 0)
  }

  /**
   * A fresh report makes the room a candidate for every owned room exactly when it has a
   * source, no owner and no hostile creep: a report releases any earlier claim on the room.
   */
  lemma FreshReportEligible(room: Room, now: int, home: string)
    ensures Eligible(IntelOf(room, now), home, now)
      <==> |room.sources| > 0 && (room.controller.None? || room.controller.value.owner.None?) && |room.hostiles| == 0
  {
  }

  /** A scout that has reached its target room. */
  predicate Arrived(m: CreepMemory, roomName: string)
  {
    m.role == "scout" && m.targetRoom == Some(roomName)
  }

  /** What step 4 reads and writes: the intel, its dirty flag and the scout queue. */
  datatype Scouting = Scouting(intel: IntelMap, dirty: bool, scoutQueue: seq<string>)

  /** One scout's report: a scout in its target room replaces the record and leaves the queue. */
  function Report(s: Scouting, m: CreepMemory, room: Room, now: int): (r: Scouting)
    requires s.intel.Valid()
    ensures r.intel.Valid()
  {
    if Arrived(m, room.name) then Scouting(s.intel.Put(room.name, IntelOf(room, now)), true, Without(s.scoutQueue, room.name))
    else s
  }

  /** The reports of all creeps, in enumeration order; `rooms[i]` is the room creep `i` stands in. */
  function Reports(s: Scouting, ms: seq<CreepMemory>, rooms: seq<Room>, now: int): (r: Scouting)
    requires s.intel.Valid() && |ms| == |rooms|
    ensures r.intel.Valid()
  {
    if |ms| == 0 then s
    else Report(Reports(s, ms[..|ms| - 1], rooms[..|ms| - 1], now), ms[|ms| - 1], rooms[|ms| - 1], now)
  }

  /** Some scout among the creeps stands in room `n`, its target. */
  predicate Reported(ms: seq<CreepMemory>, rooms: seq<Room>, n: string)
    requires |ms| == |rooms|
  {
    exists i :: 0 <= i < |ms| && Arrived(ms[i], n) && rooms[i].name == n
  }

  lemma ReportedPrefix(ms: seq<CreepMemory>, rooms: seq<Room>, n: string)
    requires |ms| == |rooms| && |ms| > 0
    ensures var k := |ms| - 1;
      Reported(ms, rooms, n) <==> Reported(ms[..k], rooms[..k], n) || (Arrived(ms[k], n) && rooms[k].name == n)
  {
    var k := |ms| - 1;
    if Reported(ms, rooms, n) && !(Arrived(ms[k], n) && rooms[k].name == n) {
      var i :| 0 <= i < |ms| && Arrived(ms[i], n) && rooms[i].name == n;
      assert ms[..k][i] == ms[i] && rooms[..k][i] == rooms[i];
    }
    if Reported(ms[..k], rooms[..k], n) {
      var i :| 0 <= i < k && Arrived(ms[..k][i], n) && rooms[..k][i].name == n;
      assert ms[..k][i] == ms[i] && rooms[..k][i] == rooms[i];
    }
  }

  /** After the reports, a room has a record exactly when it had one or a scout reported it. */
  lemma {:induction false} ReportsKeys(s: Scouting, ms: seq<CreepMemory>, rooms: seq<Room>, now: int)
    requires s.intel.Valid() && |ms| == |rooms|
    ensures forall n :: n in Reports(s, ms, rooms, now).intel.records <==> n in s.intel.records || Reported(ms, rooms, n)
  {
    if |ms| > 0 {
      var k := |ms| - 1;
      ReportsKeys(s, ms[..k], rooms[..k], now);
      forall n
        ensures Reported(ms, rooms, n) <==> Reported(ms[..k], rooms[..k], n) || (Arrived(ms[k], n) && rooms[k].name == n)
      {
        ReportedPrefix(ms, rooms, n);
      }
    }
  }

  /** Every reported room's record is fresh and claimed by no home. */
  lemma {:induction false} ReportsFresh(s: Scouting, ms: seq<CreepMemory>, rooms: seq<Room>, now: int, n: string)
    requires s.intel.Valid() && |ms| == |rooms|
    requires Reported(ms, rooms, n)
    ensures n in Reports(s, ms, rooms, now).intel.records
    ensures var record := Reports(s, ms, rooms, now).intel.records[n]; record.lastScouted == now && record.homeRoom.None?
  {
    var k := |ms| - 1;
    ReportedPrefix(ms, rooms, n);
    if !(Arrived(ms[k], n) && rooms[k].name == n) {
      ReportsFresh(s, ms[..k], rooms[..k], now, n);
    }
  }

  /** The reports remove exactly the reported rooms from the scout queue and keep it free of duplicates. */
  lemma {:induction false} ReportsQueue(s: Scouting, ms: seq<CreepMemory>, rooms: seq<Room>, now: int)
    requires s.intel.Valid() && |ms| == |rooms|
    ensures var r := Reports(s, ms, rooms, now);
      && (forall n :: n in r.scoutQueue <==> n in s.scoutQueue && !Reported(ms, rooms, n))
      && (Distinct(s.scoutQueue) ==> Distinct(r.scoutQueue))
  {
    if |ms| > 0 {
      var k := |ms| - 1;
      ReportsQueue(s, ms[..k], rooms[..k], now);
      forall n
        ensures Reported(ms, rooms, n) <==> Reported(ms[..k], rooms[..k], n) || (Arrived(ms[k], n) && rooms[k].name == n)
      {
        ReportedPrefix(ms, rooms, n);
      }
    }
  }

  /** The intel is dirty after the reports exactly when it was before or some scout reported. */
  lemma {:induction false} ReportsDirty(s: Scouting, ms: seq<CreepMemory>, rooms: seq<Room>, now: int)
    requires s.intel.Valid() && |ms| == |rooms|
    ensures Reports(s, ms, rooms, now).dirty <==> s.dirty || exists i :: 0 <= i < |ms| && Arrived(ms[i], rooms[i].name)
  {
    if |ms| > 0 {
      var k := |ms| - 1;
      ReportsDirty(s, ms[..k], rooms[..k], now);
      assert forall i :: 0 <= i < k ==> ms[..k][i] == ms[i] && rooms[..k][i] == rooms[i];
    }
  }

  /** The commands a creep issues in step 4: an arrived scout retires, a travelling one heads for its target. */
  function ScoutOrders(m: CreepMemory, room: Room): (r: seq<Action>)
    ensures r != [] <==> m.role == "scout" && m.targetRoom.Some?
    ensures r == [Suicide] <==> Arrived(m, room.name)
  {
    if m.role != "scout" || m.targetRoom.None? then []
    else if room.name == m.targetRoom.value then [Suicide]
    else [MoveTo(Pos(ROOM_CENTRE, ROOM_CENTRE, m.targetRoom.value), 0)]
  }

  /** The room each creep stands in. */
  function CreepRooms(creeps: seq<Creep>): (r: seq<Room>)
    ensures |r| == |creeps| && forall i :: 0 <= i < |r| ==> r[i] == creeps[i].room
  {
    seq(|creeps|, i requires 0 <= i < |creeps| => creeps[i].room)
  }

  predicate DistinctCreeps(creeps: seq<Creep>)
  {
    forall i, j :: 0 <= i < j < |creeps| ==> creeps[i] != creeps[j]
  }

  /** `updateIntel`: replace the room's record and mark the intel dirty. */
  method UpdateIntel(store: IntelStore, room: Room, now: int)
    requires store.intel.Some? && store.intel.value.Valid()
    modifies store
    ensures store.intel == Some(old(store.intel.value).Put(room.name, IntelOf(room, now))) && store.dirty
  {
    store.intel := Some(store.intel.value.Put(room.name, IntelOf(room, now)));
    store.dirty := true;
  }

  lemma ReportsStep(s: Scouting, ms: seq<CreepMemory>, rooms: seq<Room>, now: int, i: nat)
    requires s.intel.Valid() && |ms| == |rooms| && i < |ms|
    ensures Reports(s, ms[..i + 1], rooms[..i + 1], now) == Report(Reports(s, ms[..i], rooms[..i], now), ms[i], rooms[i], now)
  {
    assert ms[..i + 1][..i] == ms[..i] && rooms[..i + 1][..i] == rooms[..i];
  }

  /** Step 4 for one creep: the body of the `forEach`. */
  method ScoutReport(memory: GameMemory, store: IntelStore, scout: Creep, now: int, answer: Answers)
    requires store.intel.Some? && store.intel.value.Valid()
    modifies memory`scoutQueue, store, scout
    ensures store.intel.Some?
    ensures Scouting(store.intel.value, store.dirty, memory.scoutQueue)
      == Report(old(Scouting(store.intel.value, store.dirty, memory.scoutQueue)), scout.memory, scout.room, now)
    ensures scout.memory == old(scout.memory) && scout.issued == old(scout.issued) + ScoutOrders(scout.memory, scout.room)
  {
    if scout.memory.role == "scout" && scout.memory.targetRoom.Some? {
      var target := scout.memory.targetRoom.value;
      if scout.room.name == target {
        UpdateIntel(store, scout.room, now);
        memory.scoutQueue := Without(memory.scoutQueue, target);
        var _ := scout.Issue(Suicide, answer);
      } else {
        var _ := scout.Issue(MoveTo(Pos(ROOM_CENTRE, ROOM_CENTRE, target), 0), answer);
      }
    }
  }

  /** After the first `i` creeps of step 4, whose commands started as `issued0`: each of them has added its orders. */
  predicate IssuedUpTo(creeps: seq<Creep>, ms: seq<CreepMemory>, issued0: seq<seq<Action>>, i: nat)
    reads set c | c in creeps
  {
    && |ms| == |creeps| && |issued0| == |creeps| && i <= |creeps|
    && (forall k :: 0 <= k < |creeps| ==> creeps[k].memory == ms[k])
    && (forall k :: 0 <= k < |creeps| ==> creeps[k].issued == issued0[k] + (if k < i then ScoutOrders(ms[k], creeps[k].room) else []))
  }

  /** One turn of the step-4 loop: creep `i` reports, and the others are left alone. */
  method ScoutStep(memory: GameMemory, store: IntelStore, creeps: seq<Creep>, ghost ms: seq<CreepMemory>, now: int, answer: Answers,
                   ghost issued0: seq<seq<Action>>, i: nat)
    requires store.intel.Some? && store.intel.value.Valid()
    requires DistinctCreeps(creeps) && i < |creeps| && IssuedUpTo(creeps, ms, issued0, i)
    modifies memory`scoutQueue, store, creeps[i]
    ensures store.intel.Some?
    ensures Scouting(store.intel.value, store.dirty, memory.scoutQueue)
      == Report(old(Scouting(store.intel.value, store.dirty, memory.scoutQueue)), ms[i], creeps[i].room, now)
    ensures IssuedUpTo(creeps, ms, issued0, i + 1)
  {
    ScoutReport(memory, store, creeps[i], now, answer);
    forall k | 0 <= k < |creeps| && k != i
      ensures creeps[k].issued == old(creeps[k].issued) && creeps[k].memory == old(creeps[k].memory)
    {
      assert creeps[k] != creeps[i];
    }
  }

  /** Step 4, over the creeps enumerated at the start of the tick, whose memories are `ms`. */
  method ScoutReports(memory: GameMemory, store: IntelStore, creeps: seq<Creep>, ghost ms: seq<CreepMemory>, now: int, answer: Answers)
    requires store.intel.Some? && store.intel.value.Valid()
    requires DistinctCreeps(creeps)
    requires |ms| == |creeps| && forall i :: 0 <= i < |creeps| ==> creeps[i].memory == ms[i]
    modifies memory`scoutQueue, store, set c | c in creeps
    ensures store.intel.Some?
    ensures Scouting(store.intel.value, store.dirty, memory.scoutQueue)
      == Reports(old(Scouting(store.intel.value, store.dirty, memory.scoutQueue)), ms, CreepRooms(creeps), now)
    ensures forall i :: 0 <= i < |creeps| ==>
      creeps[i].memory == ms[i] && creeps[i].issued == old(creeps[i].issued) + ScoutOrders(ms[i], creeps[i].room)
  {
    ghost var s0 := Scouting(store.intel.value, store.dirty, memory.scoutQueue);
    ghost var rooms := CreepRooms(creeps);
    ghost var issued0 := seq(|creeps|, k requires 0 <= k < |creeps| reads creeps => creeps[k].issued);
    var i := 0;
    while i < |creeps|
      invariant i <= |creeps| && store.intel.Some?
      invariant Scouting(store.intel.value, store.dirty, memory.scoutQueue) == Reports(s0, ms[..i], rooms[..i], now)
      invariant IssuedUpTo(creeps, ms, issued0, i)
    {
      ReportsStep(s0, ms, rooms, now, i);
      ScoutStep(memory, store, creeps, ms, now, answer, issued0, i);
      i := i + 1;
    }
    assert ms[..i] == ms && rooms[..i] == rooms;
  }

  // ---------------------------------------------------------------- the whole run

  /** `runRemoteManager`: steps 1-4 in order over one tick's world. */
  method RunRemoteManager(memory: GameMemory, store: IntelStore, rooms: seq<Room>, creeps: seq<Creep>,
                          exits: string -> seq<string>, linear: (string, string) -> nat, bucket: int, now: int, answer: Answers,
                          ms: seq<CreepMemory>)
      returns (ghost scouts: seq<string>, ghost served: Remote)
    requires store.intel.Some? && store.intel.value.Valid()
    requires DistinctCreeps(creeps)
    requires |ms| == |creeps| && forall i :: 0 <= i < |creeps| ==> creeps[i].memory == ms[i]
    modifies memory`scoutQueue, memory`spawnQueue, store, set c | c in creeps
    ensures scouts == WithScouts(old(memory.scoutQueue), StaleNeighbours(OwnedRooms(rooms), exits, old(store.intel.value), now))
    ensures served == ServeRooms(Remote(old(store.intel.value), old(store.dirty), old(memory.spawnQueue) + ScoutRequests(scouts, ms)),
                                 OwnedRooms(rooms), bucket, now, linear, ms, rooms)
    ensures memory.spawnQueue == served.queue
    ensures store.intel.Some? && store.intel.value.Valid()
    ensures Scouting(store.intel.value, store.dirty, memory.scoutQueue) == Reports(Scouting(served.intel, served.dirty, scouts), ms, CreepRooms(creeps), now)
    ensures forall i :: 0 <= i < |creeps| ==>
      creeps[i].memory == ms[i] && creeps[i].issued == old(creeps[i].issued) + ScoutOrders(ms[i], creeps[i].room)
  {
    var owned := OwnedRooms(rooms);
    ScoutNeighbours(memory, store.intel.value, owned, exits, now);
    scouts := memory.scoutQueue;
    ProcessScoutQueue(memory, ms);
    ManageRemotes(memory, store, owned, ms, rooms, bucket, now, linear);
    served := Snapshot(memory, store);
    ScoutReports(memory, store, creeps, ms, now, answer);
  }

}
