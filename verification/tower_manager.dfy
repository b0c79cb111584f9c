/**
 * Tower control: follow the defence manager's focus, else fight the closest hostile, else heal
 * the most damaged friendly creep and repair the most damaged critical structure. A tower
 * holding less than 10 energy does nothing.
 */
module Towers {
  import opened Common
  import opened Schema
  import opened World
  import Defense

  const MIN_TOWER_ENERGY: nat := 10

  datatype OrderKind = TowerAttack | TowerRepair | TowerHeal

  /** `tower.attack/repair/heal(target)`. */
  datatype TowerOrder = TowerOrder(kind: OrderKind, towerId: string, targetId: string)

  predicate Ready(t: Structure)
  {
    t.energy >= MIN_TOWER_ENERGY
  }

  /** The orders `towers.forEach` gives: one per tower with enough energy, in order. */
  function Volley(towers: seq<Structure>, kind: OrderKind, target: string): (r: seq<TowerOrder>)
    ensures |r| <= |towers|
    ensures forall i :: 0 <= i < |r| ==> r[i].kind == kind && r[i].targetId == target
    ensures (forall t :: t in towers ==> Ready(t)) ==> |r| == |towers|
  {
    if |towers| == 0 then []
    else
      var init := towers[..|towers| - 1];
      var last := towers[|towers| - 1];
      Volley(init, kind, target) + (if Ready(last) then [TowerOrder(kind, last.id, target)] else [])
  }

  lemma VolleyStep(towers: seq<Structure>, kind: OrderKind, target: string, i: nat)
    requires i < |towers|
    ensures Volley(towers[..i + 1], kind, target)
      == Volley(towers[..i], kind, target) + (if Ready(towers[i]) then [TowerOrder(kind, towers[i].id, target)] else [])
  {
    assert towers[..i + 1][..i] == towers[..i];
  }

  predicate Damaged(a: Ally)
  {
    a.hits < a.hitsMax
  }

  /** The damaged creep with the largest `hitsMax - hits`, the earliest on ties. */
  function MostDamaged(allies: seq<Ally>): (r: Option<Ally>)
    ensures r.Some? <==> exists a :: a in allies && Damaged(a)
    ensures r.Some? ==> r.value in allies && Damaged(r.value)
    ensures r.Some? ==> forall a :: a in allies && Damaged(a) ==> a.hitsMax - a.hits <= r.value.hitsMax - r.value.hits
  {
    var damaged := Filter(allies, Damaged);
    if |damaged| == 0 then None
    else Some(damaged[ArgMin(damaged, (a: Ally) => a.hits - a.hitsMax)])
  }

  /** Walls and ramparts below 10% of their maximum, anything else below 50%. */
  predicate Critical(s: Structure)
  {
    if s.stype == Rampart || s.stype == ConstructedWall then 10 * s.hits < s.hitsMax else 2 * s.hits < s.hitsMax
  }

  /** The critical structure with the fewest hits, the earliest on ties. */
  function WeakestCritical(structures: seq<Structure>): (r: Option<Structure>)
    ensures r.Some? <==> exists s :: s in structures && Critical(s)
    ensures r.Some? ==> r.value in structures && Critical(r.value)
    ensures r.Some? ==> forall s :: s in structures && Critical(s) ==> r.value.hits <= s.hits
  {
    var critical := Filter(structures, Critical);
    if |critical| == 0 then None
    else Some(critical[ArgMin(critical, (s: Structure) => s.hits)])
  }

  /** The hostile closest by range to the first tower, the earliest on ties. */
  function ClosestHostile(from: Pos, hs: seq<Hostile>): (r: Hostile)
    requires |hs| > 0
    ensures r in hs && forall h :: h in hs ==> Range(from, r.pos) <= Range(from, h.pos)
  {
    hs[ArgMin(hs, (h: Hostile) => Range(from, h.pos))]
  }

  /** The peacetime orders: healing, then repairs. */
  function PeacetimeOrders(room: Room, towers: seq<Structure>): seq<TowerOrder>
  {
    var heal := MostDamaged(room.myCreeps);
    var repair := WeakestCritical(room.structures);
    (if heal.Some? then Volley(towers, TowerHeal, heal.value.id) else [])
      + (if repair.Some? then Volley(towers, TowerRepair, repair.value.id) else [])
  }

  /** Every order `run` gives this tick, given the room's defence status and the ids that still resolve. */
  function Orders(room: Room, towers: seq<Structure>, status: Option<DefenseStatus>, live: set<string>): seq<TowerOrder>
  {
    if |towers| == 0 then []
    else if status.Some? && status.value.mode == Mode.ATTACK && status.value.focusTarget.Some? && status.value.focusTarget.value in live
    then Volley(towers, TowerAttack, status.value.focusTarget.value)
    else if status.Some? && status.value.mode == REPAIR && status.value.repairTarget.Some? && status.value.repairTarget.value in live
    then Volley(towers, TowerRepair, status.value.repairTarget.value)
    else if |room.hostiles| > 0 then Volley(towers, TowerAttack, ClosestHostile(towers[0].pos, room.hostiles).id)
    else PeacetimeOrders(room, towers)
  }

  /** A tower short of energy never appears in any order. */
  lemma {:induction false} EnergyGate(towers: seq<Structure>, kind: OrderKind, target: string, id: string)
    requires forall u :: u in towers && u.id == id ==> !Ready(u)
    ensures forall o :: o in Volley(towers, kind, target) ==> o.towerId != id
  {
    if |towers| > 0 {
      var init := towers[..|towers| - 1];
      assert forall u :: u in init ==> u in towers;
      EnergyGate(init, kind, target, id);
    }
  }

  /** Every tower with enough energy fires at the target. */
  lemma {:induction false} EveryReadyTowerFires(towers: seq<Structure>, kind: OrderKind, target: string, t: Structure)
    requires t in towers && Ready(t)
    ensures TowerOrder(kind, t.id, target) in Volley(towers, kind, target)
  {
    var init := towers[..|towers| - 1];
    if t != towers[|towers| - 1] {
      assert towers == init + [towers[|towers| - 1]];
      EveryReadyTowerFires(init, kind, target, t);
    }
  }

  /**
   * A live ATTACK focus pre-empts everything else: every order attacks it. With hostiles in the
   * room and no live focus, the towers never heal or repair.
   */
  lemma FocusPreempts(room: Room, towers: seq<Structure>, status: Option<DefenseStatus>, live: set<string>)
    ensures status.Some? && status.value.mode == Mode.ATTACK && status.value.focusTarget.Some? && status.value.focusTarget.value in live
      ==> forall o :: o in Orders(room, towers, status, live) ==> o.kind == TowerAttack && Some(o.targetId) == status.value.focusTarget
    ensures |room.hostiles| > 0 && (status.None? || status.value.mode != REPAIR)
      ==> forall o :: o in Orders(room, towers, status, live) ==> o.kind == TowerAttack
  {
    var os := Orders(room, towers, status, live);
    forall o | o in os
      ensures status.Some? && status.value.mode == Mode.ATTACK && status.value.focusTarget.Some? && status.value.focusTarget.value in live
        ==> o.kind == TowerAttack && Some(o.targetId) == status.value.focusTarget
      ensures |room.hostiles| > 0 && (status.None? || status.value.mode != REPAIR) ==> o.kind == TowerAttack
    {
      var i :| 0 <= i < |os| && os[i] == o;
    }
  }

  /** The defence manager never writes a REPAIR status, so the tower's REPAIR branch cannot fire after it. */
  lemma RepairStatusNeverWritten(rm: RoomMemory, room: Room)
    requires rm.defenseStatus.None? || rm.defenseStatus.value.mode != REPAIR
    ensures var r := Defense.AfterControl(rm, room); r.defenseStatus.None? || r.defenseStatus.value.mode != REPAIR
  {
  }

  /** `TowerManager`, built for one room each tick. */
  class TowerManager {
    const room: Room
    const memory: GameMemory
    /** The ids `Game.getObjectById` still resolves. */
    const live: set<string>
    /** `room.find(FIND_MY_STRUCTURES, { filter: tower })`. */
    const towers: seq<Structure>
    var orders: seq<TowerOrder>

    constructor (room: Room, memory: GameMemory, live: set<string>)
      ensures this.room == room && this.memory == memory && this.live == live
      ensures towers == Filter(room.structures, (s: Structure) => s.stype == Tower && s.my)
      ensures orders == []
    {
      this.room, this.memory, this.live := room, memory, live;
      towers := Filter(room.structures, (s: Structure) => s.stype == Tower && s.my);
      orders := [];
    }

    /** Every tower with at least 10 energy targets the same object. */
    method Fire(kind: OrderKind, target: string)
      modifies this`orders
      ensures orders == old(orders) + Volley(towers, kind, target)
    {
      var i := 0;
      ghost var start := orders;
      while i < |towers|
        invariant 0 <= i <= |towers|
        invariant orders == start + Volley(towers[..i], kind, target)
      {
        VolleyStep(towers, kind, target, i);
        if towers[i].energy >= MIN_TOWER_ENERGY {
          assert start + Volley(towers[..i], kind, target) + [TowerOrder(kind, towers[i].id, target)]
            == start + (Volley(towers[..i], kind, target) + [TowerOrder(kind, towers[i].id, target)]);
          orders := orders + [TowerOrder(kind, towers[i].id, target)];
        }
        i := i + 1;
      }
      assert towers[..i] == towers;
    }

    /** `healFriendlyCreeps`. */
    method HealFriendlyCreeps()
      modifies this`orders
      ensures var a := MostDamaged(room.myCreeps);
        orders == old(orders) + (if a.Some? then Volley(towers, TowerHeal, a.value.id) else [])
    {
      var mostDamaged := MostDamaged(room.myCreeps);
      if mostDamaged.Some? {
        Fire(TowerHeal, mostDamaged.value.id);
      }
    }

    /** `repairCriticalStructures`. */
    method RepairCriticalStructures()
      modifies this`orders
      ensures var s := WeakestCritical(room.structures);
        orders == old(orders) + (if s.Some? then Volley(towers, TowerRepair, s.value.id) else [])
    {
      var weakest := WeakestCritical(room.structures);
      if weakest.Some? {
        Fire(TowerRepair, weakest.value.id);
      }
    }

    /** `run`: the priority chain. */
    method Run()
      modifies this`orders
      ensures orders == old(orders) + Orders(room, towers, memory.Room(room.name).defenseStatus, live)
    {
      if |towers| == 0 {
        return;
      }
      var status := memory.Room(room.name).defenseStatus;
      ghost var expected := Orders(room, towers, status, live);
      if status.Some? && status.value.mode == Mode.ATTACK && status.value.focusTarget.Some? {
        if status.value.focusTarget.value in live {
          assert expected == Volley(towers, TowerAttack, status.value.focusTarget.value);
          Fire(TowerAttack, status.value.focusTarget.value);
          return;
        }
      }
      if status.Some? && status.value.mode == REPAIR && status.value.repairTarget.Some? {
        if status.value.repairTarget.value in live {
          assert expected == Volley(towers, TowerRepair, status.value.repairTarget.value);
          Fire(TowerRepair, status.value.repairTarget.value);
          return;
        }
      }
      if |room.hostiles| > 0 {
        var closest := ClosestHostile(towers[0].pos, room.hostiles);
        assert expected == Volley(towers, TowerAttack, closest.id);
        Fire(TowerAttack, closest.id);
        return;
      }
      ghost var o0 := orders;
      var heal := MostDamaged(room.myCreeps);
      var repair := WeakestCritical(room.structures);
      ghost var healing := if heal.Some? then Volley(towers, TowerHeal, heal.value.id) else [];
      ghost var repairing := if repair.Some? then Volley(towers, TowerRepair, repair.value.id) else [];
      assert expected == healing + repairing;
      HealFriendlyCreeps();
      assert orders == o0 + healing;
      RepairCriticalStructures();
      assert orders == o0 + healing + repairing;
      AppendAssoc(o0, healing, repairing);
    }
  }
}
