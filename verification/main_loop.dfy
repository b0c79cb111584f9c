/**
 * The per-tick entry point: creep-memory garbage collection every 100 ticks, then the room
 * managers of every owned room (spawning, defence, towers, in that order), then one handler per
 * creep that is not still spawning, chosen by its role, then the statistics pass.
 */
module MainLoop {
  import opened Common
  import opened Schema
  import opened World

  const GC_INTERVAL: int := 100

  /** The roles the dispatch table has a handler for. */
  const HANDLED_ROLES: set<string> := {
    "harvester", "upgrader", "builder", "repairer", "hauler", "staticHarvester", "remoteHarvester",
    "remoteHauler", "remoteDefender", "reserver", "pioneer", "scout", "defender"}

  /** What the loop invokes, in order. */
  datatype Call =
    | SpawnManagerRun(room: string)
    | DefenseRun(room: string)
    | TowersRun(room: string)
    | RoleRun(creep: string, role: string)
    | NoHandler(creep: string, role: string)
    | StatsRun
  {
    predicate IsManager() { SpawnManagerRun? || DefenseRun? || TowersRun? }
    predicate IsDispatch() { RoleRun? || NoHandler? }
  }

  /**
   * The memory garbage collection: on ticks divisible by 100, delete exactly the `Memory.creeps`
   * entries whose name is not a live creep; keep every other entry as it is.
   */
  method CollectGarbage(memory: GameMemory, live: set<string>, now: int)
    modifies memory`creeps
    ensures now % GC_INTERVAL != 0 ==> memory.creeps == old(memory.creeps)
    ensures now % GC_INTERVAL == 0 ==> forall n :: n in memory.creeps <==> n in old(memory.creeps) && n in live
    ensures forall n :: n in memory.creeps ==> n in old(memory.creeps) && memory.creeps[n] == old(memory.creeps)[n]
  {
    if now % GC_INTERVAL != 0 {
      return;
    }
    var pending := memory.creeps.Keys;
    while pending != {}
      invariant pending <= old(memory.creeps).Keys
      invariant forall n :: n in memory.creeps <==> n in old(memory.creeps) && (n in live || n in pending)
      invariant forall n :: n in memory.creeps ==> memory.creeps[n] == old(memory.creeps)[n]
      decreases |pending|
    {
      var name :| name in pending;
      if name !in live {
        memory.creeps := memory.creeps - {name};
      }
      pending := pending - {name};
    }
  }

  /** The three managers of one owned room, in order. */
  function Managers(name: string): seq<Call>
  {
    [SpawnManagerRun(name), DefenseRun(name), TowersRun(name)]
  }

  /** The manager calls for the visible rooms, in enumeration order: three per owned room. */
  function ManagerCalls(rooms: seq<Room>): seq<Call>
  {
    if |rooms| == 0 then []
    else ManagerCalls(rooms[..|rooms| - 1]) + (if rooms[|rooms| - 1].Owned() then Managers(rooms[|rooms| - 1].name) else [])
  }

  /** The owned rooms are exactly the visible rooms whose controller is the bot's. */
  lemma {:induction false} OwnedRoomsSpec(rooms: seq<Room>)
    ensures forall r :: r in OwnedRooms(rooms) <==> r in rooms && r.Owned()
  {
    if |rooms| > 0 {
      var init := rooms[..|rooms| - 1];
      OwnedRoomsSpec(init);
      assert rooms == init + [rooms[|rooms| - 1]];
    }
  }

  /**
   * The manager calls are, for the k-th owned room, the spawn manager, the defence manager and the
   * tower manager at positions 3k, 3k + 1 and 3k + 2, and nothing else.
   */
  lemma {:induction false} ManagerCallsLayout(rooms: seq<Room>)
    ensures |ManagerCalls(rooms)| == 3 * |OwnedRooms(rooms)|
    ensures forall k :: 0 <= k < |OwnedRooms(rooms)| ==>
      var name := OwnedRooms(rooms)[k].name;
      && ManagerCalls(rooms)[3 * k] == SpawnManagerRun(name)
      && ManagerCalls(rooms)[3 * k + 1] == DefenseRun(name)
      && ManagerCalls(rooms)[3 * k + 2] == TowersRun(name)
  {
    if |rooms| > 0 {
      var init := rooms[..|rooms| - 1];
      ManagerCallsLayout(init);
      var prev := ManagerCalls(init);
      var owned := OwnedRooms(init);
      forall k | 0 <= k < |OwnedRooms(rooms)|
        ensures var name := OwnedRooms(rooms)[k].name;
          && ManagerCalls(rooms)[3 * k] == SpawnManagerRun(name)
          && ManagerCalls(rooms)[3 * k + 1] == DefenseRun(name)
          && ManagerCalls(rooms)[3 * k + 2] == TowersRun(name)
      {
        if k < |owned| {
          assert OwnedRooms(rooms)[k] == owned[k];
          assert ManagerCalls(rooms)[3 * k] == prev[3 * k];
          assert ManagerCalls(rooms)[3 * k + 1] == prev[3 * k + 1];
          assert ManagerCalls(rooms)[3 * k + 2] == prev[3 * k + 2];
        }
      }
    }
  }

  /** Every manager call is for a room with an owned controller. */
  lemma ManagerCallsOwned(rooms: seq<Room>)
    ensures forall c :: c in ManagerCalls(rooms) ==> c.IsManager() && exists r :: r in rooms && r.Owned() && c.room == r.name
  {
    ManagerCallsLayout(rooms);
    OwnedRoomsSpec(rooms);
    var calls := ManagerCalls(rooms);
    var owned := OwnedRooms(rooms);
    forall c | c in calls
      ensures c.IsManager() && exists r :: r in rooms && r.Owned() && c.room == r.name
    {
      var n :| 0 <= n < |calls| && calls[n] == c;
      var k := n / 3;
      assert owned[k] in owned;
      assert n == 3 * k || n == 3 * k + 1 || n == 3 * k + 2;
    }
  }

  /** `runManagers`: the manager calls of the loop over `Game.rooms`. */
  method RunManagers(rooms: seq<Room>) returns (calls: seq<Call>)
    ensures calls == ManagerCalls(rooms)
  {
    calls := [];
    var i := 0;
    while i < |rooms|
      invariant i <= |rooms| && calls == ManagerCalls(rooms[..i])
    {
      assert rooms[..i + 1][..i] == rooms[..i];
      if rooms[i].Owned() {
        calls := calls + Managers(rooms[i].name);
      }
      i := i + 1;
    }
    assert rooms[..i] == rooms;
  }

  /** The handler a creep gets: none while spawning, its role's handler, or a warning for an unknown role. */
  function DispatchOf(name: string, spawning: bool, role: string): seq<Call>
  {
    if spawning then [] else if role in HANDLED_ROLES then [RoleRun(name, role)] else [NoHandler(name, role)]
  }

  /** `c` is the call dispatched for `creep`. */
  predicate DispatchedFor(c: Call, creep: Creep)
    reads creep
  {
    c.IsDispatch() && !creep.spawning && c.creep == creep.name && c.role == creep.memory.role
  }

  /** The dispatch calls for the creeps, in enumeration order. */
  function DispatchCalls(creeps: seq<Creep>): seq<Call>
    reads set c | c in creeps
  {
    if |creeps| == 0 then []
    else
      var c := creeps[|creeps| - 1];
      DispatchCalls(creeps[..|creeps| - 1]) + DispatchOf(c.name, c.spawning, c.memory.role)
  }

  /**
   * A creep still spawning gets no call; any other creep gets exactly one, which runs its role's
   * handler when the role is known and is only a warning otherwise; every call is for a creep.
   */
  lemma {:induction false} DispatchCallsSpec(creeps: seq<Creep>)
    requires forall i, j :: 0 <= i < j < |creeps| ==> creeps[i].name != creeps[j].name
    ensures var calls := DispatchCalls(creeps);
      && (forall c :: c in calls ==> c.IsDispatch() && exists i :: 0 <= i < |creeps| && DispatchedFor(c, creeps[i]))
      && (forall i :: 0 <= i < |creeps| && !creeps[i].spawning ==>
            (creeps[i].memory.role in HANDLED_ROLES ==> RoleRun(creeps[i].name, creeps[i].memory.role) in calls)
            && (creeps[i].memory.role !in HANDLED_ROLES ==> NoHandler(creeps[i].name, creeps[i].memory.role) in calls))
      && (forall i, c :: 0 <= i < |creeps| && creeps[i].spawning && c in calls ==> c.creep != creeps[i].name)
    decreases |creeps|
  {
    if |creeps| > 0 {
      var init := creeps[..|creeps| - 1];
      var last := creeps[|creeps| - 1];
      DispatchCallsSpec(init);
      var prev := DispatchCalls(init);
      var calls := DispatchCalls(creeps);
      var tail := DispatchOf(last.name, last.spawning, last.memory.role);
      assert calls == prev + tail;
      forall c | c in calls
        ensures c.IsDispatch() && exists i :: 0 <= i < |creeps| && DispatchedFor(c, creeps[i])
      {
        if c in prev {
          var i :| 0 <= i < |init| && DispatchedFor(c, init[i]);
          assert creeps[i] == init[i];
        } else {
          assert c in tail && creeps[|creeps| - 1] == last && DispatchedFor(c, last);
        }
      }
      forall i | 0 <= i < |creeps| && !creeps[i].spawning
        ensures creeps[i].memory.role in HANDLED_ROLES ==> RoleRun(creeps[i].name, creeps[i].memory.role) in calls
        ensures creeps[i].memory.role !in HANDLED_ROLES ==> NoHandler(creeps[i].name, creeps[i].memory.role) in calls
      {
        if i < |init| {
          assert creeps[i] == init[i];
        }
      }
      forall i, c | 0 <= i < |creeps| && creeps[i].spawning && c in calls
        ensures c.creep != creeps[i].name
      {
        if i < |init| {
          assert creeps[i] == init[i];
          if c in tail {
            assert creeps[|creeps| - 1].name != creeps[i].name;
          }
        } else {
          assert c !in tail;
          var j :| 0 <= j < |init| && DispatchedFor(c, init[j]);
          assert creeps[j] == init[j];
        }
      }
    }
  }

  /** The loop over `Game.creeps`. */
  method DispatchCreeps(creeps: seq<Creep>) returns (calls: seq<Call>)
    ensures calls == DispatchCalls(creeps)
  {
    calls := [];
    var i := 0;
    while i < |creeps|
      invariant i <= |creeps| && calls == DispatchCalls(creeps[..i])
    {
      assert creeps[..i + 1][..i] == creeps[..i];
      var creep := creeps[i];
      if !creep.spawning {
        if creep.memory.role in HANDLED_ROLES {
          calls := calls + [RoleRun(creep.name, creep.memory.role)];
        } else {
          calls := calls + [NoHandler(creep.name, creep.memory.role)];
        }
      }
      i := i + 1;
    }
    assert creeps[..i] == creeps;
  }

  /**
   * `mainLoop`: garbage collection against the live creeps, then every manager call, then every
   * dispatch call, then statistics, once and last.
   */
  method RunMainLoop(memory: GameMemory, rooms: seq<Room>, creeps: seq<Creep>, now: int) returns (calls: seq<Call>)
    modifies memory`creeps
    ensures now % GC_INTERVAL != 0 ==> memory.creeps == old(memory.creeps)
    ensures now % GC_INTERVAL == 0 ==> forall n :: n in memory.creeps <==> n in old(memory.creeps) && exists c :: c in creeps && c.name == n
    ensures forall n :: n in memory.creeps ==> n in old(memory.creeps) && memory.creeps[n] == old(memory.creeps)[n]
    ensures calls == ManagerCalls(rooms) + DispatchCalls(creeps) + [StatsRun]
  {
    var live := set c | c in creeps :: c.name;
    CollectGarbage(memory, live, now);
    var managers := RunManagers(rooms);
    var dispatch := DispatchCreeps(creeps);
    calls := managers + dispatch + [StatsRun];
  }

  /** Nothing after the manager calls is a manager call. */
  lemma NoManagerAfter(m: seq<Call>, d: seq<Call>)
    requires forall c :: c in d ==> c.IsDispatch()
    ensures forall j :: |m| <= j < |m + d + [StatsRun]| ==> !(m + d + [StatsRun])[j].IsManager()
  {
    var calls := m + d + [StatsRun];
    forall j | |m| <= j < |calls|
      ensures !calls[j].IsManager()
    {
      if j < |m| + |d| {
        assert calls[j] == d[j - |m|] && d[j - |m|] in d;
      }
    }
  }

  /** In the loop's calls, every manager call precedes every dispatch call, and statistics come once, last. */
  lemma MainLoopOrder(rooms: seq<Room>, creeps: seq<Creep>)
    requires forall i, j :: 0 <= i < j < |creeps| ==> creeps[i].name != creeps[j].name
    ensures var calls := ManagerCalls(rooms) + DispatchCalls(creeps) + [StatsRun];
      && calls[|calls| - 1] == StatsRun && StatsRun !in calls[..|calls| - 1]
      && forall i, j :: 0 <= i < j < |calls| && calls[j].IsManager() ==> calls[i].IsManager()
  {
    ManagerCallsOwned(rooms);
    DispatchCallsSpec(creeps);
    var m := ManagerCalls(rooms);
    var d := DispatchCalls(creeps);
    NoManagerAfter(m, d);
    var calls := m + d + [StatsRun];
    assert calls[..|calls| - 1] == m + d;
    forall i, j | 0 <= i < j < |calls| && calls[j].IsManager()
      ensures calls[i].IsManager()
    {
      assert calls[i] == m[i] && m[i] in m;
    }
  }
}
