/**
 * Room defence: each tick it sums the hostiles' attack and heal power into a threat profile,
 * picks a focus target for the towers, asks for defenders, and triggers safe mode when the
 * weakest rampart would fall soon. The game's power constants are a parameter.
 */
module Defense {
  import opened Common
  import opened Schema
  import opened World

  /** ATTACK_POWER, RANGED_ATTACK_POWER, HEAL_POWER and REPAIR_POWER. */
  datatype Powers = Powers(attack: nat, rangedAttack: nat, heal: nat, repair: nat)

  /** What the manager does besides writing memory: notifications sent and safe-mode orders. */
  datatype Effect = CriticalThreatNotice | SafeModeActivatedNotice | NoSafeModeNotice | SafeModeOrder

  // ---------------------------------------------------------------- threat assessment

  function PartDps(p: BodyPart, powers: Powers): nat
  {
    match p
    case ATTACK => powers.attack
    case RANGED_ATTACK => powers.rangedAttack
    case _ => 0
  }

  function PartHeal(p: BodyPart, powers: Powers): nat
  {
    if p == HEAL then powers.heal else 0
  }

  function BodyDps(body: seq<BodyPart>, powers: Powers): nat
  {
    if |body| == 0 then 0 else BodyDps(body[..|body| - 1], powers) + PartDps(body[|body| - 1], powers)
  }

  function BodyHeal(body: seq<BodyPart>, powers: Powers): nat
  {
    if |body| == 0 then 0 else BodyHeal(body[..|body| - 1], powers) + PartHeal(body[|body| - 1], powers)
  }

  /** The damage per tick of all hostiles, summed part by part. */
  function TotalDps(hs: seq<Hostile>, powers: Powers): nat
  {
    if |hs| == 0 then 0 else TotalDps(hs[..|hs| - 1], powers) + BodyDps(hs[|hs| - 1].body, powers)
  }

  /** The healing per tick of all hostiles, summed part by part. */
  function TotalHeal(hs: seq<Hostile>, powers: Powers): nat
  {
    if |hs| == 0 then 0 else TotalHeal(hs[..|hs| - 1], powers) + BodyHeal(hs[|hs| - 1].body, powers)
  }

  /** How many parts of type p a body has. */
  function Occurrences(body: seq<BodyPart>, p: BodyPart): nat
  {
    if |body| == 0 then 0 else Occurrences(body[..|body| - 1], p) + (if body[|body| - 1] == p then 1 else 0)
  }

  lemma {:induction false} OccurrencesMultiset(body: seq<BodyPart>, p: BodyPart)
    ensures Occurrences(body, p) == multiset(body)[p]
  {
    if |body| > 0 {
      var init := body[..|body| - 1];
      OccurrencesMultiset(init, p);
      assert body == init + [body[|body| - 1]];
    }
  }

  /** How many parts of type p the hostiles carry between them. */
  function PartCount(hs: seq<Hostile>, p: BodyPart): nat
  {
    if |hs| == 0 then 0 else PartCount(hs[..|hs| - 1], p) + Occurrences(hs[|hs| - 1].body, p)
  }

  lemma {:induction false} BodyPowerByParts(body: seq<BodyPart>, powers: Powers)
    ensures BodyDps(body, powers)
      == powers.attack * Occurrences(body, BodyPart.ATTACK) + powers.rangedAttack * Occurrences(body, RANGED_ATTACK)
    ensures BodyHeal(body, powers) == powers.heal * Occurrences(body, HEAL)
  {
    if |body| > 0 {
      var init, last := body[..|body| - 1], body[|body| - 1];
      BodyPowerByParts(init, powers);
      var a, r, h := Occurrences(init, BodyPart.ATTACK), Occurrences(init, RANGED_ATTACK), Occurrences(init, HEAL);
      var da, dr, dh := (if last == BodyPart.ATTACK then 1 else 0), (if last == RANGED_ATTACK then 1 else 0), (if last == HEAL then 1 else 0);
      assert PartDps(last, powers) == powers.attack * da + powers.rangedAttack * dr;
      assert PartHeal(last, powers) == powers.heal * dh;
      Distribute(powers.attack, a, da);
      Distribute(powers.rangedAttack, r, dr);
      Distribute(powers.heal, h, dh);
    }
  }

  /** Distributivity, proved apart so that the nonlinear step stays out of the inductive proofs. */
  lemma Distribute(k: nat, a: nat, b: nat)
    ensures k * (a + b) == k * a + k * b
  {
  }

  /**
   * Every ATTACK part adds ATTACK_POWER and every RANGED_ATTACK part RANGED_ATTACK_POWER to the
   * damage, every HEAL part HEAL_POWER to the healing; no other part adds anything.
   */
  lemma {:induction false} TotalPowerByParts(hs: seq<Hostile>, powers: Powers)
    ensures TotalDps(hs, powers)
      == powers.attack * PartCount(hs, BodyPart.ATTACK) + powers.rangedAttack * PartCount(hs, RANGED_ATTACK)
    ensures TotalHeal(hs, powers) == powers.heal * PartCount(hs, HEAL)
  {
    if |hs| > 0 {
      var init := hs[..|hs| - 1];
      var last := hs[|hs| - 1].body;
      TotalPowerByParts(init, powers);
      BodyPowerByParts(last, powers);
      var a, r, h := PartCount(init, BodyPart.ATTACK), PartCount(init, RANGED_ATTACK), PartCount(init, HEAL);
      var da, dr, dh := Occurrences(last, BodyPart.ATTACK), Occurrences(last, RANGED_ATTACK), Occurrences(last, HEAL);
      Distribute(powers.attack, a, da);
      Distribute(powers.rangedAttack, r, dr);
      Distribute(powers.heal, h, dh);
    }
  }

  /** The threat level of a non-empty group of hostiles. */
  function Classify(dps: nat, heal: nat, count: nat): (l: Level)
    ensures l != NONE
    ensures l == CRITICAL <==> heal > 200
    ensures l == HIGH <==> heal <= 200 && (dps > 500 || count > 5)
    ensures l == MEDIUM <==> heal <= 200 && dps <= 500 && count <= 5 && dps > 200
    ensures l == LOW <==> heal <= 200 && dps <= 200 && count <= 5
  {
    var base := if dps > 500 || count > 5 then HIGH else if dps > 200 then MEDIUM else LOW;
    if heal > 200 then CRITICAL else base
  }

  function Rank(l: Level): nat
  {
    match l
    case NONE => 0
    case LOW => 1
    case MEDIUM => 2
    case HIGH => 3
    case CRITICAL => 4
  }

  /** A stronger group never gets a lower level. */
  lemma ClassifyMonotone(dps: nat, heal: nat, count: nat, dps': nat, heal': nat, count': nat)
    requires dps <= dps' && heal <= heal' && count <= count'
    ensures Rank(Classify(dps, heal, count)) <= Rank(Classify(dps', heal', count'))
  {
    if heal' <= 200 && (dps > 500 || count > 5) {
      assert Classify(dps', heal', count') == HIGH;
    }
  }

  /** The profile `assessThreats` writes for the room's hostiles at tick `now`. */
  function ProfileOf(hs: seq<Hostile>, powers: Powers, now: int): (p: ThreatProfile)
    ensures p.hostileCount == |hs| && p.lastUpdated == now
    ensures |hs| == 0 ==> p == ThreatProfile(NONE, PEACETIME, 0, 0, 0, now)
    ensures |hs| > 0 ==> p.level != NONE && p.threatType == HARASS
    ensures |hs| > 0 ==> p.dps == TotalDps(hs, powers) && p.heal == TotalHeal(hs, powers)
  {
    if |hs| == 0 then ThreatProfile(NONE, PEACETIME, 0, 0, 0, now)
    else
      var dps := TotalDps(hs, powers);
      var heal := TotalHeal(hs, powers);
      ThreatProfile(Classify(dps, heal, |hs|), HARASS, dps, heal, |hs|, now)
  }

  /** The alert throttle: no alert recorded (or one recorded at tick 0), or the last is over 1000 ticks old. */
  predicate AlertDue(last: Option<int>, now: int)
  {
    last.None? || last.value == 0 || now - last.value > 1000
  }

  /** A critical-threat notification goes out. */
  predicate SendsAlert(rm: RoomMemory, p: ThreatProfile, now: int)
  {
    p.level == CRITICAL && AlertDue(rm.lastCriticalAlert, now)
  }

  /** Room memory after `assessThreats`. */
  function AfterAssess(rm: RoomMemory, p: ThreatProfile, now: int): (r: RoomMemory)
    ensures r.threatProfile == Some(p)
    ensures r.lastCriticalAlert == (if SendsAlert(rm, p, now) then Some(now) else rm.lastCriticalAlert)
    ensures r.defenseStatus == rm.defenseStatus && r.safeModeQueued == rm.safeModeQueued
  {
    rm.(threatProfile := Some(p), lastCriticalAlert := if SendsAlert(rm, p, now) then Some(now) else rm.lastCriticalAlert)
  }

  /**
   * After an alert at a non-zero tick, no further alert goes out for the next 1000 ticks,
   * whatever the later profiles are.
   */
  lemma AlertThrottled(rm: RoomMemory, p: ThreatProfile, p': ThreatProfile, now: int, later: int)
    requires SendsAlert(rm, p, now) && now != 0
    requires now <= later <= now + 1000
    ensures !SendsAlert(AfterAssess(rm, p, now), p', later)
  {
  }

  /** A room without hostiles never alerts. */
  lemma PeaceNeverAlerts(rm: RoomMemory, powers: Powers, now: int)
    ensures !SendsAlert(rm, ProfileOf([], powers, now), now)
  {
  }

  // ---------------------------------------------------------------- focus target

  /** The first own spawn's position, else the controller's. */
  function ReferencePos(room: Room): (r: Option<Pos>)
    ensures |room.MySpawns()| > 0 ==> r == Some(room.MySpawns()[0].pos)
    ensures |room.MySpawns()| == 0 && room.controller.Some? ==> r == Some(room.controller.value.pos)
    ensures r.None? <==> |room.MySpawns()| == 0 && room.controller.None?
  {
    var spawns := room.MySpawns();
    if |spawns| > 0 then Some(spawns[0].pos)
    else if room.controller.Some? then Some(room.controller.value.pos)
    else None
  }

  predicate IsHealer(h: Hostile)
  {
    HEAL in h.body
  }

  /**
   * The hostile closest by range to `ref` among the healers, or among all hostiles when there
   * is no healer; the earliest on ties.
   */
  function FocusTarget(ref: Pos, hs: seq<Hostile>): (r: Option<Hostile>)
    ensures r.Some? <==> |hs| > 0
    ensures r.Some? ==> r.value in hs
    ensures r.Some? && (exists h :: h in hs && IsHealer(h)) ==>
      IsHealer(r.value) && forall h :: h in hs && IsHealer(h) ==> Range(ref, r.value.pos) <= Range(ref, h.pos)
    ensures r.Some? && (forall h :: h in hs ==> !IsHealer(h)) ==>
      forall h :: h in hs ==> Range(ref, r.value.pos) <= Range(ref, h.pos)
  {
    var healers := Filter(hs, IsHealer);
    var key := (h: Hostile) => Range(ref, h.pos);
    if |healers| > 0 then Some(healers[ArgMin(healers, key)])
    else if |hs| > 0 then Some(hs[ArgMin(hs, key)])
    else None
  }

  function IdleStatus(): DefenseStatus
  {
    DefenseStatus(IDLE, None, None)
  }

  /** Room memory after `controlTowers`. */
  function AfterControl(rm: RoomMemory, room: Room): (r: RoomMemory)
    ensures r.threatProfile == rm.threatProfile && r.lastCriticalAlert == rm.lastCriticalAlert
    ensures r.safeModeQueued == rm.safeModeQueued
    ensures rm.threatProfile.None? || rm.threatProfile.value.level == NONE ==> r.defenseStatus == Some(IdleStatus())
    ensures rm.threatProfile.Some? && rm.threatProfile.value.level != NONE && ReferencePos(room).None? ==> r == rm
    ensures rm.threatProfile.Some? && rm.threatProfile.value.level != NONE && ReferencePos(room).Some? ==>
      && r.defenseStatus.Some?
      && (r.defenseStatus.value.mode == Mode.ATTACK <==> |room.hostiles| > 0)
      && (r.defenseStatus.value.mode == Mode.ATTACK ==>
            exists h :: h in room.hostiles && r.defenseStatus.value.focusTarget == Some(h.id))
      && (r.defenseStatus.value.mode != Mode.ATTACK ==> r.defenseStatus.value == IdleStatus())
  {
    if rm.threatProfile.None? || rm.threatProfile.value.level == NONE then rm.(defenseStatus := Some(IdleStatus()))
    else
      var ref := ReferencePos(room);
      if ref.None? then rm
      else
        var target := FocusTarget(ref.value, room.hostiles);
        if target.Some? then rm.(defenseStatus := Some(DefenseStatus(Mode.ATTACK, Some(target.value.id), None)))
        else rm.(defenseStatus := Some(IdleStatus()))
  }

  /**
   * Right after an assessment of the same hostiles, a room with hostiles and a reference
   * position always gets an ATTACK status, and one without hostiles an IDLE status.
   */
  lemma AssessThenControl(rm: RoomMemory, room: Room, powers: Powers, now: int)
    requires ReferencePos(room).Some?
    ensures var r := AfterControl(AfterAssess(rm, ProfileOf(room.hostiles, powers, now), now), room);
      && r.defenseStatus.Some?
      && (r.defenseStatus.value.mode == Mode.ATTACK <==> |room.hostiles| > 0)
      && (|room.hostiles| == 0 ==> r.defenseStatus.value == IdleStatus())
  {
    var a := AfterAssess(rm, ProfileOf(room.hostiles, powers, now), now);
    if |room.hostiles| > 0 {
      assert a.threatProfile.value.level != NONE;
      assert FocusTarget(ReferencePos(room).value, room.hostiles).Some?;
    }
  }

  // ---------------------------------------------------------------- defenders

  predicate DefendsRoom(m: CreepMemory, roomName: string)
  {
    m.role == "defender" && m.homeRoom == Some(roomName)
  }

  /** Levels at which defenders are wanted. */
  predicate WantsDefenders(rm: RoomMemory)
  {
    rm.threatProfile.Some? && rm.threatProfile.value.level in {MEDIUM, HIGH, CRITICAL}
  }

  /** `min(ceil(hostileCount / 2), 4)`. */
  function DesiredDefenders(hostileCount: nat): (d: nat)
    ensures d <= 4
    ensures d < 4 ==> hostileCount <= 2 * d < hostileCount + 2
    ensures d == 4 ==> hostileCount >= 7
  {
    Min((hostileCount + 1) / 2, 4)
  }

  /** The request `requestDefender` queues. */
  function DefenderRequest(roomName: string): SpawnRequest
  {
    SpawnRequest("defender", NewMemory("defender").(homeRoom := Some(roomName)), Some(1))
  }

  predicate IsDefenderRequest(r: SpawnRequest)
  {
    r.memory.role == "defender"
  }

  /** Queued defender requests, for any room. */
  function DefenderRequests(q: seq<SpawnRequest>): nat
  {
    if |q| == 0 then 0 else DefenderRequests(q[..|q| - 1]) + (if IsDefenderRequest(q[|q| - 1]) then 1 else 0)
  }

  lemma {:induction false} DefenderRequestsZero(q: seq<SpawnRequest>)
    ensures DefenderRequests(q) == 0 <==> forall i :: 0 <= i < |q| ==> !IsDefenderRequest(q[i])
  {
    if |q| > 0 {
      DefenderRequestsZero(q[..|q| - 1]);
      assert forall i :: 0 <= i < |q| - 1 ==> q[..|q| - 1][i] == q[i];
    }
  }

  lemma {:induction false} DefenderRequestsPrepend(r: SpawnRequest, q: seq<SpawnRequest>)
    ensures DefenderRequests([r] + q) == DefenderRequests(q) + (if IsDefenderRequest(r) then 1 else 0)
  {
    if |q| > 0 {
      var init := q[..|q| - 1];
      DefenderRequestsPrepend(r, init);
      assert ([r] + q)[..|q|] == [r] + init;
    } else {
      assert ([r] + q)[..0] == [];
    }
  }

  /** The queue after `requestDefender`: prepended only when no defender request is queued. */
  function AfterRequest(q: seq<SpawnRequest>, roomName: string): seq<SpawnRequest>
  {
    if exists i :: 0 <= i < |q| && IsDefenderRequest(q[i]) then q else [DefenderRequest(roomName)] + q
  }

  /**
   * A queue with at most one defender request keeps at most one; after a request there is
   * exactly one, and every later request, for this room or any other, changes nothing.
   */
  lemma AtMostOneDefenderRequest(q: seq<SpawnRequest>, roomName: string, other: string)
    requires DefenderRequests(q) <= 1
    ensures DefenderRequests(AfterRequest(q, roomName)) == 1
    ensures AfterRequest(AfterRequest(q, roomName), other) == AfterRequest(q, roomName)
  {
    DefenderRequestsZero(q);
    DefenderRequestsPrepend(DefenderRequest(roomName), q);
    var q' := AfterRequest(q, roomName);
    if !exists i :: 0 <= i < |q| && IsDefenderRequest(q[i]) {
      assert IsDefenderRequest(q'[0]);
    }
  }

  // ---------------------------------------------------------------- safe mode

  /** `2 * 5 * REPAIR_POWER`: two repairers with five WORK parts each. */
  function RepairCapacity(powers: Powers): nat
  {
    2 * 5 * powers.repair
  }

  /** The weakest rampart falls in under 1500 ticks: `floor(hits / netDamage) < 1500` with positive net damage. */
  predicate BreachImminent(dps: nat, powers: Powers, weakestHits: nat)
  {
    var net := Max(0, dps - RepairCapacity(powers));
    net > 0 && weakestHits / net < 1500
  }

  /** The breach test without division. */
  lemma BreachImminentMeans(dps: nat, powers: Powers, weakestHits: nat)
    ensures BreachImminent(dps, powers, weakestHits)
      <==> dps > RepairCapacity(powers) && weakestHits < 1500 * (dps - RepairCapacity(powers))
  {
    if dps > RepairCapacity(powers) {
      var net := dps - RepairCapacity(powers);
      assert Max(0, dps - RepairCapacity(powers)) == net;
      DivBelow(weakestHits, net, 1500);
    }
  }

  lemma DivBelow(a: nat, n: nat, k: nat)
    requires n > 0
    ensures a / n < k <==> a < k * n
  {
    var q, r := a / n, a % n;
    assert a == q * n + r && r < n;
    if q < k {
      assert q + 1 <= k;
      assert (q + 1) * n <= k * n;
    } else {
      assert q * n >= k * n;
    }
  }

  function Ramparts(room: Room): (r: seq<Structure>)
    ensures forall i :: 0 <= i < |r| ==> r[i].stype == Rampart
  {
    Filter(room.structures, (s: Structure) => s.stype == Rampart)
  }

  /** Hits of the weakest rampart, the earliest on ties. */
  function WeakestHits(ramparts: seq<Structure>): (h: nat)
    requires |ramparts| > 0
    ensures exists i :: 0 <= i < |ramparts| && ramparts[i].hits == h
    ensures forall i :: 0 <= i < |ramparts| ==> h <= ramparts[i].hits
  {
    ramparts[ArgMin(ramparts, (s: Structure) => s.hits)].hits
  }

  /** `manageSafeMode` decides to activate: critical, not yet queued, and no ramparts or an imminent breach. */
  predicate WantsSafeMode(rm: RoomMemory, room: Room, powers: Powers)
  {
    && rm.threatProfile.Some? && rm.threatProfile.value.level == CRITICAL
    && !rm.safeModeQueued
    && var ramparts := Ramparts(room);
       |ramparts| == 0 || BreachImminent(rm.threatProfile.value.dps, powers, WeakestHits(ramparts))
  }

  predicate SafeModeAvailable(room: Room)
  {
    room.controller.Some? && room.controller.value.safeModeAvailable > 0
  }

  /** Room memory after `manageSafeMode`, given the engine's answer to the activation order. */
  function AfterSafeMode(rm: RoomMemory, room: Room, powers: Powers, answer: EngineCode): (r: RoomMemory)
    ensures r.(safeModeQueued := rm.safeModeQueued) == rm
    ensures r.safeModeQueued <==> rm.safeModeQueued || (WantsSafeMode(rm, room, powers) && SafeModeAvailable(room) && answer == OK)
  {
    if WantsSafeMode(rm, room, powers) && SafeModeAvailable(room) && answer == OK then rm.(safeModeQueued := true) else rm
  }

  /** The notifications and orders `manageSafeMode` produces. */
  function SafeModeEffects(rm: RoomMemory, room: Room, powers: Powers, answer: EngineCode): seq<Effect>
  {
    if !WantsSafeMode(rm, room, powers) then []
    else if !SafeModeAvailable(room) then [NoSafeModeNotice]
    else if answer == OK then [SafeModeOrder, SafeModeActivatedNotice]
    else [SafeModeOrder]
  }

  /**
   * Once safe mode is queued it is never ordered again; a safe-mode order is only ever given
   * at CRITICAL; and the flag is set only when the engine accepted the order.
   */
  lemma SafeModeOnce(rm: RoomMemory, room: Room, powers: Powers, answer: EngineCode)
    ensures rm.safeModeQueued ==> SafeModeEffects(rm, room, powers, answer) == []
    ensures SafeModeOrder in SafeModeEffects(rm, room, powers, answer) ==> rm.threatProfile.value.level == CRITICAL
    ensures AfterSafeMode(rm, room, powers, answer).safeModeQueued && !rm.safeModeQueued ==>
      answer == OK && SafeModeOrder in SafeModeEffects(rm, room, powers, answer)
  {
  }

  // ---------------------------------------------------------------- the manager

  /** Number of memories that belong to defenders of the room. */
  function DefenderCount(ms: seq<CreepMemory>, roomName: string): nat
  {
    if |ms| == 0 then 0 else DefenderCount(ms[..|ms| - 1], roomName) + (if DefendsRoom(ms[|ms| - 1], roomName) then 1 else 0)
  }

  /** The creeps that defend the room, in enumeration order. */
  function DefendersOf(cs: seq<Creep>, roomName: string): (r: seq<Creep>)
    reads set c | c in cs
    ensures |r| == DefenderCount(Memories(cs), roomName)
    ensures forall i :: 0 <= i < |r| ==> r[i] in cs && DefendsRoom(r[i].memory, roomName)
    ensures forall i :: 0 <= i < |cs| && DefendsRoom(cs[i].memory, roomName) ==> cs[i] in r
  {
    if |cs| == 0 then []
    else
      var last := cs[|cs| - 1];
      DefendersOf(cs[..|cs| - 1], roomName) + (if DefendsRoom(last.memory, roomName) then [last] else [])
  }

  /** The focus id towers and defenders should use, if the status is ATTACK with one. */
  function AttackFocus(rm: RoomMemory): Option<string>
  {
    if rm.defenseStatus.Some? && rm.defenseStatus.value.mode == Mode.ATTACK && rm.defenseStatus.value.focusTarget.Some?
    then rm.defenseStatus.value.focusTarget else None
  }

  /** The spawn queue after `manageDefenders`. */
  function QueueAfterDefenders(q: seq<SpawnRequest>, rm: RoomMemory, ms: seq<CreepMemory>, roomName: string): seq<SpawnRequest>
  {
    if WantsDefenders(rm) && DefenderCount(ms, roomName) < DesiredDefenders(rm.threatProfile.value.hostileCount)
    then AfterRequest(q, roomName) else q
  }

  /** A creep's memory after `manageDefenders`. */
  function DefenderMemoryAfter(m: CreepMemory, rm: RoomMemory, roomName: string): CreepMemory
  {
    if WantsDefenders(rm) && AttackFocus(rm).Some? && DefendsRoom(m, roomName) then m.(targetId := AttackFocus(rm)) else m
  }

  /** Room memory after `assessThreats` and `controlTowers`, the state the later steps read. */
  function Controlled(rm: RoomMemory, room: Room, powers: Powers, now: int): RoomMemory
  {
    AfterControl(AfterAssess(rm, ProfileOf(room.hostiles, powers, now), now), room)
  }

  /** `_.filter(Game.creeps, ...)`: the creeps whose memory makes them defenders of the room. */
  method CollectDefenders(creeps: seq<Creep>, ghost ms: seq<CreepMemory>, roomName: string) returns (defenders: seq<Creep>)
    requires |ms| == |creeps| && forall i :: 0 <= i < |creeps| ==> creeps[i].memory == ms[i]
    ensures |defenders| == DefenderCount(ms, roomName)
    ensures forall c :: c in defenders ==> c in creeps
    ensures forall c :: c in creeps ==> (c in defenders <==> DefendsRoom(c.memory, roomName))
  {
    defenders := [];
    var i := 0;
    while i < |creeps|
      invariant 0 <= i <= |creeps|
      invariant defenders == DefendersOf(creeps[..i], roomName)
    {
      assert creeps[..i + 1][..i] == creeps[..i];
      var c := creeps[i];
      if c.memory.role == "defender" && c.memory.homeRoom == Some(roomName) {
        defenders := defenders + [c];
      }
      i := i + 1;
    }
    assert creeps[..i] == creeps;
    assert Memories(creeps) == ms;
    forall c | c in creeps && DefendsRoom(c.memory, roomName)
      ensures c in defenders
    {
      var j :| 0 <= j < |creeps| && creeps[j] == c;
    }
  }

  /** `defenders.forEach(d => d.memory.targetId = focus)`. */
  method PointDefendersAt(creeps: seq<Creep>, defenders: seq<Creep>, focus: string)
    requires forall c :: c in defenders ==> c in creeps
    modifies set c | c in creeps
    ensures forall c :: c in creeps ==> c.issued == old(c.issued)
    ensures forall c :: c in creeps ==>
      c.memory == (if c in defenders then old(c.memory).(targetId := Some(focus)) else old(c.memory))
  {
    var k := 0;
    while k < |defenders|
      invariant 0 <= k <= |defenders|
      invariant forall c :: c in creeps ==> c.issued == old(c.issued)
      invariant forall c :: c in creeps ==>
        c.memory == (if c in defenders[..k] then old(c.memory).(targetId := Some(focus)) else old(c.memory))
    {
      defenders[k].memory := defenders[k].memory.(targetId := Some(focus));
      assert defenders[..k + 1] == defenders[..k] + [defenders[k]];
      k := k + 1;
    }
    assert defenders[..k] == defenders;
  }

  /** `DefenseManager`, built for one room each tick. */
  class DefenseManager {
    const room: Room
    const memory: GameMemory
    /** `Game.creeps`. */
    const creeps: seq<Creep>
    const powers: Powers
    /** `Game.time`. */
    const now: int
    var effects: seq<Effect>

    constructor (room: Room, memory: GameMemory, creeps: seq<Creep>, powers: Powers, now: int)
      ensures this.room == room && this.memory == memory && this.creeps == creeps
      ensures this.powers == powers && this.now == now && effects == []
    {
      this.room, this.memory, this.creeps := room, memory, creeps;
      this.powers, this.now, effects := powers, now, [];
    }

    /** `assessThreats`: a fresh profile for the room, and a throttled critical alert. */
    method AssessThreats()
      modifies memory`rooms, this`effects
      ensures memory.rooms == old(memory.rooms)[room.name := AfterAssess(old(memory.Room(room.name)), ProfileOf(room.hostiles, powers, now), now)]
      ensures effects == old(effects)
        + (if SendsAlert(old(memory.Room(room.name)), ProfileOf(room.hostiles, powers, now), now) then [CriticalThreatNotice] else [])
    {
      var hostiles := room.hostiles;
      var rm := memory.Room(room.name);
      if |hostiles| == 0 {
        memory.rooms := memory.rooms[room.name := rm.(threatProfile := Some(ThreatProfile(NONE, PEACETIME, 0, 0, 0, now)))];
        return;
      }
      var totalDps, totalHeal := 0, 0;
      var i := 0;
      while i < |hostiles|
        invariant 0 <= i <= |hostiles|
        invariant totalDps == TotalDps(hostiles[..i], powers) && totalHeal == TotalHeal(hostiles[..i], powers)
      {
        var body := hostiles[i].body;
        var j := 0;
        while j < |body|
          invariant 0 <= j <= |body|
          invariant totalDps == TotalDps(hostiles[..i], powers) + BodyDps(body[..j], powers)
          invariant totalHeal == TotalHeal(hostiles[..i], powers) + BodyHeal(body[..j], powers)
        {
          assert body[..j + 1][..j] == body[..j];
          match body[j] {
            case ATTACK => totalDps := totalDps + powers.attack;
            case RANGED_ATTACK => totalDps := totalDps + powers.rangedAttack;
            case HEAL => totalHeal := totalHeal + powers.heal;
            case _ =>
          }
          j := j + 1;
        }
        assert body[..j] == body;
        assert hostiles[..i + 1][..i] == hostiles[..i];
        i := i + 1;
      }
      assert hostiles[..i] == hostiles;
      var level := Classify(totalDps, totalHeal, |hostiles|);
      var profile := ThreatProfile(level, HARASS, totalDps, totalHeal, |hostiles|, now);
      rm := rm.(threatProfile := Some(profile));
      if level == CRITICAL && (rm.lastCriticalAlert.None? || rm.lastCriticalAlert.value == 0 || now - rm.lastCriticalAlert.value > 1000) {
        effects := effects + [CriticalThreatNotice];
        rm := rm.(lastCriticalAlert := Some(now));
      }
      memory.rooms := memory.rooms[room.name := rm];
    }

    /** `controlTowers`: the tower focus, healers first, by range from the reference position. */
    method ControlTowers()
      modifies memory`rooms
      ensures memory.Room(room.name) == AfterControl(old(memory.Room(room.name)), room)
      ensures memory.rooms - {room.name} == old(memory.rooms) - {room.name}
    {
      var rm := memory.Room(room.name);
      if rm.threatProfile.None? || rm.threatProfile.value.level == NONE {
        memory.rooms := memory.rooms[room.name := rm.(defenseStatus := Some(IdleStatus()))];
        return;
      }
      var referencePos := ReferencePos(room);
      if referencePos.None? {
        return;
      }
      var focusTarget := FocusTarget(referencePos.value, room.hostiles);
      if focusTarget.Some? {
        memory.rooms := memory.rooms[room.name := rm.(defenseStatus := Some(DefenseStatus(Mode.ATTACK, Some(focusTarget.value.id), None)))];
      } else {
        memory.rooms := memory.rooms[room.name := rm.(defenseStatus := Some(IdleStatus()))];
      }
    }

    /** `requestDefender`: prepend a defender request unless one, for any room, is queued. */
    method RequestDefender()
      modifies memory`spawnQueue
      ensures memory.spawnQueue == AfterRequest(old(memory.spawnQueue), room.name)
    {
      var queued := false;
      var i := 0;
      while i < |memory.spawnQueue|
        invariant 0 <= i <= |memory.spawnQueue|
        invariant queued <==> exists k :: 0 <= k < i && IsDefenderRequest(memory.spawnQueue[k])
      {
        if memory.spawnQueue[i].memory.role == "defender" {
          queued := true;
        }
        i := i + 1;
      }
      if !queued {
        memory.spawnQueue := [DefenderRequest(room.name)] + memory.spawnQueue;
      }
    }

    /**
     * `manageDefenders`: at MEDIUM or above, request a defender while the room has fewer than
     * it wants, and point every one of its defenders at the focus target.
     */
    method ManageDefenders(ghost ms: seq<CreepMemory>)
      requires |ms| == |creeps| && forall i :: 0 <= i < |creeps| ==> creeps[i].memory == ms[i]
      modifies memory`spawnQueue, set c | c in creeps
      ensures memory.spawnQueue == QueueAfterDefenders(old(memory.spawnQueue), memory.Room(room.name), ms, room.name)
      ensures forall c :: c in creeps ==> c.issued == old(c.issued)
      ensures forall i :: 0 <= i < |creeps| ==> creeps[i].memory == DefenderMemoryAfter(ms[i], memory.Room(room.name), room.name)
    {
      var rm := memory.Room(room.name);
      if rm.threatProfile.None? || rm.threatProfile.value.level == NONE || rm.threatProfile.value.level == LOW {
        return;
      }
      var defenders := CollectDefenders(creeps, ms, room.name);
      var desired := DesiredDefenders(rm.threatProfile.value.hostileCount);
      if |defenders| < desired {
        RequestDefender();
      }
      var focus := AttackFocus(rm);
      if focus.Some? {
        PointDefendersAt(creeps, defenders, focus.value);
      }
    }

    /** `activateSafeMode`: order it if the controller has activations left; flag it only when accepted. */
    method ActivateSafeMode(answer: EngineCode)
      modifies memory`rooms, this`effects
      ensures memory.Room(room.name)
        == if SafeModeAvailable(room) && answer == OK then old(memory.Room(room.name)).(safeModeQueued := true) else old(memory.Room(room.name))
      ensures memory.rooms - {room.name} == old(memory.rooms) - {room.name}
      ensures effects == old(effects)
        + (if !SafeModeAvailable(room) then [NoSafeModeNotice]
           else if answer == OK then [SafeModeOrder, SafeModeActivatedNotice] else [SafeModeOrder])
    {
      if room.controller.Some? && room.controller.value.safeModeAvailable > 0 {
        effects := effects + [SafeModeOrder];
        var result := answer;
        if result == OK {
          effects := effects + [SafeModeActivatedNotice];
          memory.rooms := memory.rooms[room.name := memory.Room(room.name).(safeModeQueued := true)];
        }
      } else {
        effects := effects + [NoSafeModeNotice];
      }
    }

    /** `manageSafeMode`: at CRITICAL, unless already queued, activate on no ramparts or an imminent breach. */
    method ManageSafeMode(answer: EngineCode)
      modifies memory`rooms, this`effects
      ensures memory.Room(room.name) == AfterSafeMode(old(memory.Room(room.name)), room, powers, answer)
      ensures memory.rooms - {room.name} == old(memory.rooms) - {room.name}
      ensures effects == old(effects) + SafeModeEffects(old(memory.Room(room.name)), room, powers, answer)
    {
      var rm := memory.Room(room.name);
      if rm.threatProfile.None? || rm.threatProfile.value.level != CRITICAL {
        return;
      }
      if rm.safeModeQueued {
        return;
      }
      var ramparts := Ramparts(room);
      if |ramparts| == 0 {
        ActivateSafeMode(answer);
        return;
      }
      var weakest := WeakestHits(ramparts);
      var netDamage := Max(0, rm.threatProfile.value.dps - RepairCapacity(powers));
      if netDamage > 0 {
        var breachTime := weakest / netDamage;
        if breachTime < 1500 {
          ActivateSafeMode(answer);
        }
      }
    }

    /**
     * `run`: assess, then set the tower focus, then manage defenders, then safe mode; each step
     * reads what the previous one wrote.
     */
    method Run(answer: EngineCode, ghost ms: seq<CreepMemory>)
      requires |ms| == |creeps| && forall i :: 0 <= i < |creeps| ==> creeps[i].memory == ms[i]
      modifies memory`rooms, memory`spawnQueue, this`effects, set c | c in creeps
      ensures memory.Room(room.name) == AfterSafeMode(Controlled(old(memory.Room(room.name)), room, powers, now), room, powers, answer)
      ensures memory.rooms - {room.name} == old(memory.rooms) - {room.name}
      ensures memory.spawnQueue
        == QueueAfterDefenders(old(memory.spawnQueue), Controlled(old(memory.Room(room.name)), room, powers, now), ms, room.name)
      ensures forall i :: 0 <= i < |creeps| ==>
        creeps[i].memory == DefenderMemoryAfter(ms[i], Controlled(old(memory.Room(room.name)), room, powers, now), room.name)
      ensures forall c :: c in creeps ==> c.issued == old(c.issued)
      ensures effects == old(effects)
        + (if SendsAlert(old(memory.Room(room.name)), ProfileOf(room.hostiles, powers, now), now) then [CriticalThreatNotice] else [])
        + SafeModeEffects(Controlled(old(memory.Room(room.name)), room, powers, now), room, powers, answer)
    {
      ghost var rm0, rooms0 := memory.Room(room.name), memory.rooms;
      AssessThreats();
      assert memory.rooms - {room.name} == rooms0 - {room.name};
      ghost var assessed := AfterAssess(rm0, ProfileOf(room.hostiles, powers, now), now);
      assert memory.Room(room.name) == assessed;
      ControlTowers();
      assert memory.Room(room.name) == Controlled(rm0, room, powers, now);
      assert memory.rooms - {room.name} == rooms0 - {room.name};
      ManageDefenders(ms);
      ManageSafeMode(answer);
    }
  }
}
