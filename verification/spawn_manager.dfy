/**
 * The base spawn loop: every idle spawn asks for one creep of the first role, in the fixed
 * order harvester, upgrader, builder, whose head count is below its minimum. Counts are taken
 * over all of the bot's creeps, not per room.
 */
module SpawnManager {
  import opened Common
  import opened Strings
  import opened Schema
  import opened World
  import opened BodyGenerator

  /** A spawn as the loop reads it. */
  datatype SpawnView = SpawnView(name: string, spawning: bool, energyCapacityAvailable: nat)

  /** One `spawn.spawnCreep(body, name, { memory })` call. */
  datatype SpawnCall = SpawnCall(spawnName: string, body: seq<BodyPart>, name: string, memory: CreepMemory)

  /** The roles the loop counts, in the table's order, and their minimum head counts. */
  const ROLES: seq<string> := ["harvester", "upgrader", "builder"]
  const MINIMUMS: seq<nat> := [2, 1, 1]

  /** Number of creeps in `roles` whose role is `role`. */
  function CountRole(roles: seq<string>, role: string): nat
  {
    if |roles| == 0 then 0
    else CountRole(roles[..|roles| - 1], role) + (if roles[|roles| - 1] == role then 1 else 0)
  }

  /** The count does not depend on the order in which creeps are enumerated. */
  lemma {:induction false} CountRoleMultiset(roles: seq<string>, role: string)
    ensures CountRole(roles, role) == multiset(roles)[role]
  {
    if |roles| > 0 {
      var init := roles[..|roles| - 1];
      CountRoleMultiset(init, role);
      assert roles == init + [roles[|roles| - 1]];
    }
  }

  /** Role number j of the table is below its minimum. */
  predicate Short(roles: seq<string>, j: nat)
    requires j < |ROLES|
  {
    CountRole(roles, ROLES[j]) < MINIMUMS[j]
  }

  /** The first table entry at or after i that is below its minimum. */
  function FirstShort(roles: seq<string>, i: nat): (r: Option<nat>)
    requires i <= |ROLES|
    ensures r.Some? ==> i <= r.value < |ROLES| && Short(roles, r.value)
    ensures r.Some? ==> forall k :: i <= k < r.value ==> !Short(roles, k)
    ensures r.None? ==> forall k :: i <= k < |ROLES| ==> !Short(roles, k)
    decreases |ROLES| - i
  {
    if i == |ROLES| then None
    else if Short(roles, i) then Some(i)
    else FirstShort(roles, i + 1)
  }

  /**
   * The role to spawn: the earliest one in the table below its minimum, whatever the deficits
   * of later ones; none when every minimum is met.
   */
  function ChosenRole(roles: seq<string>): (r: Option<string>)
    ensures r.None? <==> forall k :: 0 <= k < |ROLES| ==> !Short(roles, k)
    ensures r.Some? ==>
      exists j :: (0 <= j < |ROLES| && r.value == ROLES[j] && Short(roles, j)
        && forall k :: 0 <= k < j ==> !Short(roles, k))
  {
    var j := FirstShort(roles, 0);
    if j.Some? then Some(ROLES[j.value]) else None
  }

  /** With no creeps at all, a harvester comes first. */
  lemma NoCreepsMeansHarvester()
    ensures ChosenRole([]) == Some("harvester")
  {
    assert Short([], 0);
  }

  /** Two harvesters and nothing else: the upgrader is next, ahead of the equally short builder. */
  lemma UpgraderBeforeBuilder()
    ensures ChosenRole(["harvester", "harvester"]) == Some("upgrader")
  {
    var roles := ["harvester", "harvester"];
    assert roles[..1] == ["harvester"];
    assert CountRole(roles, "harvester") == 2;
    assert CountRole(roles, "upgrader") == 0;
    assert !Short(roles, 0) && Short(roles, 1);
  }

  /** Roles outside the table are never counted: adding such a creep changes nothing. */
  lemma {:induction false} OtherRolesIgnored(roles: seq<string>, other: string)
    requires other !in ROLES
    ensures ChosenRole(roles + [other]) == ChosenRole(roles)
  {
    var ext := roles + [other];
    assert ext[..|ext| - 1] == roles;
    forall j | 0 <= j < |ROLES|
      ensures Short(ext, j) == Short(roles, j)
    {
      assert ROLES[j] != other;
    }
    assert FirstShort(ext, 0) == FirstShort(roles, 0) by {
      assert FirstShort(ext, 3) == FirstShort(roles, 3);
      assert FirstShort(ext, 2) == FirstShort(roles, 2);
      assert FirstShort(ext, 1) == FirstShort(roles, 1);
    }
  }

  /** A spawn that is not busy spawning. */
  predicate Idle(s: SpawnView)
  {
    !s.spawning
  }

  /** The spawns that are not busy, in enumeration order. */
  function IdleSpawns(spawns: seq<SpawnView>): (r: seq<SpawnView>)
    ensures |r| <= |spawns|
    ensures forall k :: 0 <= k < |r| ==> !r[k].spawning && r[k] in spawns
  {
    if |spawns| == 0 then []
    else
      var last := spawns[|spawns| - 1];
      IdleSpawns(spawns[..|spawns| - 1]) + (if last.spawning then [] else [last])
  }

  /** The idle spawns are exactly the spawns that are not spawning, in enumeration order. */
  lemma {:induction false} IdleSpawnsInOrder(spawns: seq<SpawnView>)
    ensures IdleSpawns(spawns) == Filter(spawns, Idle)
  {
    if |spawns| > 0 {
      var init, last := spawns[..|spawns| - 1], spawns[|spawns| - 1];
      IdleSpawnsInOrder(init);
      assert spawns == init + [last];
      FilterAppend(init, [last], Idle);
      assert Filter([last], Idle) == if Idle(last) then [last] else [];
    }
  }

  /** The request an idle spawn makes for `role` at tick `now`. */
  function Request(spawn: SpawnView, role: string, now: nat): SpawnCall
  {
    SpawnCall(spawn.name, Sets(SetCount(spawn.energyCapacityAvailable)), role + "-" + NatToString(now), NewMemory(role))
  }

  /** The `counts` table: the three roles, each with its number of creeps. */
  method CountRoles(roles: seq<string>) returns (counts: map<string, nat>)
    ensures counts.Keys == set j | 0 <= j < |ROLES| :: ROLES[j]
    ensures forall j :: 0 <= j < |ROLES| ==> counts[ROLES[j]] == CountRole(roles, ROLES[j])
  {
    counts := map["harvester" := 0, "upgrader" := 0, "builder" := 0];
    assert counts.Keys == set j | 0 <= j < |ROLES| :: ROLES[j] by {
      assert ROLES[0] == "harvester" && ROLES[1] == "upgrader" && ROLES[2] == "builder";
    }
    var i := 0;
    while i < |roles|
      invariant 0 <= i <= |roles|
      invariant counts.Keys == set j | 0 <= j < |ROLES| :: ROLES[j]
      invariant forall j :: 0 <= j < |ROLES| ==> counts[ROLES[j]] == CountRole(roles[..i], ROLES[j])
    {
      assert roles[..i + 1][..i] == roles[..i];
      var role := roles[i];
      if role in counts {
        counts := counts[role := counts[role] + 1];
      }
      i := i + 1;
    }
    assert roles[..i] == roles;
  }

  /** The `for (role in ROLE_MIN_COUNTS)` scan with its `break`. */
  method SelectRole(roles: seq<string>, counts: map<string, nat>) returns (role: Option<string>)
    requires forall j :: 0 <= j < |ROLES| ==> ROLES[j] in counts && counts[ROLES[j]] == CountRole(roles, ROLES[j])
    ensures role == ChosenRole(roles)
  {
    role := None;
    var i := 0;
    while i < |ROLES|
      invariant 0 <= i <= |ROLES|
      invariant FirstShort(roles, 0) == FirstShort(roles, i)
    {
      if counts[ROLES[i]] < MINIMUMS[i] {
        role := Some(ROLES[i]);
        break;
      }
      i := i + 1;
    }
  }

  /**
   * `runSpawnManager`: each spawn that is not already spawning makes at most one request, for
   * the chosen role, with the basic body its room's capacity buys. The engine's answer only
   * decides a log line, so the model returns the calls made.
   */
  method RunSpawnManager(spawns: seq<SpawnView>, roles: seq<string>, now: nat) returns (calls: seq<SpawnCall>)
    ensures ChosenRole(roles).None? ==> calls == []
    ensures ChosenRole(roles).Some? ==> |calls| == |IdleSpawns(spawns)|
    ensures ChosenRole(roles).Some? ==>
      forall k :: 0 <= k < |calls| ==> calls[k] == Request(IdleSpawns(spawns)[k], ChosenRole(roles).value, now)
  {
    calls := [];
    ghost var idle: seq<SpawnView> := [];
    var i := 0;
    while i < |spawns|
      invariant 0 <= i <= |spawns|
      invariant idle == IdleSpawns(spawns[..i])
      invariant ChosenRole(roles).None? ==> calls == []
      invariant ChosenRole(roles).Some? ==> |calls| == |idle|
      invariant ChosenRole(roles).Some? ==>
        forall k :: 0 <= k < |calls| ==> calls[k] == Request(idle[k], ChosenRole(roles).value, now)
    {
      assert spawns[..i + 1][..i] == spawns[..i];
      var spawn := spawns[i];
      if spawn.spawning {
        i := i + 1;
        continue;
      }
      idle := idle + [spawn];
      var counts := CountRoles(roles);
      var role := SelectRole(roles, counts);
      if role.Some? {
        var body := GenerateBasicBody(spawn.energyCapacityAvailable);
        var name := role.value + "-" + NatToString(now);
        calls := calls + [SpawnCall(spawn.name, body, name, NewMemory(role.value))];
      }
      i := i + 1;
    }
    assert spawns[..i] == spawns;
  }
}
