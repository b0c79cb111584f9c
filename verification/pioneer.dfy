/**
 * The pioneer: travels to a new room, builds a container next to the source closest to it, and
 * once a container stands there goes home to be recycled.
 */
module Pioneer {
  import opened Common
  import opened Schema
  import opened World
  import opened Movement
  import opened RoleSteps

  /** The outcome of `recycle`: suicide without a home, travel home, then recycle at the first own spawn. */
  ghost predicate RecycledFrom(before: seq<Action>, m0: CreepMemory, after: seq<Action>, m1: CreepMemory, pos: Pos, room: Room, answer: Answers)
  {
    var here := ToXY(pos);
    var atHome := m0.homeRoom == Some(room.name);
    && (m0.homeRoom.None? ==> after == before + [Suicide] && m1 == m0)
    && (m0.homeRoom.Some? && !atHome ==> Moved(before, m0, after, m1, here, Centre(m0.homeRoom.value), 0, SuicideOnStuck, answer))
    && (atHome && room.MySpawns() != [] ==>
          Commanded(before, m0, after, m1, here, Action.Recycle(room.MySpawns()[0].id), room.MySpawns()[0].pos, SuicideOnStuck, answer))
    && (atHome && room.MySpawns() == [] ==> Idle(before, m0, after, m1))
  }

  /** The source closest by range to the creep. */
  function NearestSource(pos: Pos, sources: seq<Source>): (s: Source)
    requires |sources| > 0
    ensures s in sources && forall t :: t in sources ==> Range(pos, s.pos) <= Range(pos, t.pos)
  {
    sources[ClosestByRange(pos, sources, (s: Source) => s.pos)]
  }

  /** The construction site closest by range to the source. */
  function NearestSite(at: Pos, sites: seq<Site>): (s: Site)
    requires |sites| > 0
    ensures s in sites && forall t :: t in sites ==> Range(at, s.pos) <= Range(at, t.pos)
  {
    sites[ClosestByRange(at, sites, (s: Site) => s.pos)]
  }

  /**
   * The outcome of `buildContainer`: a container next to the closest source switches to
   * recycling; otherwise flip `isBuilding` by the load, then build the site closest to the
   * source (or place a container site on the source's tile), or harvest.
   */
  ghost predicate BuiltFrom(
    before: seq<Action>, m0: CreepMemory, after: seq<Action>, m1: CreepMemory,
    pos: Pos, room: Room, used: nat, free: nat, answer: Answers)
  {
    var here := ToXY(pos);
    && (room.sources == [] ==> Idle(before, m0, after, m1))
    && (room.sources != [] ==>
          var source := NearestSource(pos, room.sources);
          var m2 := m0.(isBuilding := NextPhase(m0.isBuilding, used, free));
          var recovery := FlipOnStuck(IsBuilding);
          && (AdjacentContainer(room.structures, source.pos).Some? ==> after == before && m1 == m0.(recycling := true))
          && (AdjacentContainer(room.structures, source.pos).None? ==>
                && (m2.isBuilding && room.sites != [] ==>
                      var site := NearestSite(source.pos, room.sites);
                      Commanded(before, m2, after, m1, here, Build(site.id), site.pos, recovery, answer))
                && (m2.isBuilding && room.sites == [] ==> after == before + [PlaceSite(source.pos, Container)] && m1 == m2)
                && (!m2.isBuilding ==> Commanded(before, m2, after, m1, here, Harvest(source.id), source.pos, recovery, answer))))
  }

  /** `recycle`. */
  method RecycleSelf(creep: Creep, answer: Answers)
    modifies creep
    ensures RecycledFrom(old(creep.issued), old(creep.memory), creep.issued, creep.memory, creep.pos, creep.room, answer)
  {
    var homeRoom := creep.memory.homeRoom;
    if homeRoom.None? {
      var _ := creep.Issue(Suicide, answer);
      return;
    }
    if creep.room.name != homeRoom.value {
      MoveRecovering(creep, Centre(homeRoom.value), 0, SuicideOnStuck, answer);
      return;
    }
    var spawns := creep.room.MySpawns();
    if |spawns| > 0 {
      CommandRecovering(creep, Action.Recycle(spawns[0].id), spawns[0].pos, SuicideOnStuck, answer);
    }
  }

  /** `buildContainer`. */
  method BuildContainer(creep: Creep, answer: Answers)
    modifies creep
    ensures BuiltFrom(old(creep.issued), old(creep.memory), creep.issued, creep.memory, creep.pos, creep.room, creep.used, creep.free, answer)
  {
    if |creep.room.sources| == 0 {
      return;
    }
    var source := NearestSource(creep.pos, creep.room.sources);
    if AdjacentContainer(creep.room.structures, source.pos).Some? {
      creep.memory := creep.memory.(recycling := true);
      return;
    }
    creep.memory := creep.memory.(isBuilding := NextPhase(creep.memory.isBuilding, creep.used, creep.free));
    if creep.memory.isBuilding {
      if |creep.room.sites| > 0 {
        var site := NearestSite(source.pos, creep.room.sites);
        CommandRecovering(creep, Build(site.id), site.pos, FlipOnStuck(IsBuilding), answer);
      } else {
        var _ := creep.Issue(PlaceSite(source.pos, Container), answer);
      }
    } else {
      CommandRecovering(creep, Harvest(source.id), source.pos, FlipOnStuck(IsBuilding), answer);
    }
  }

  /**
   * `PioneerRole.run`: a recycling pioneer only recycles; otherwise it travels to its target
   * room (suiciding when stuck) and builds there. Nothing here clears `recycling`.
   */
  method Run(creep: Creep, answer: Answers)
    modifies creep
    ensures var m0 := old(creep.memory);
      && (m0.recycling ==> RecycledFrom(old(creep.issued), m0, creep.issued, creep.memory, creep.pos, creep.room, answer))
      && (!m0.recycling && m0.targetRoom.None? ==> Idle(old(creep.issued), m0, creep.issued, creep.memory))
      && (!m0.recycling && m0.targetRoom.Some? && creep.room.name != m0.targetRoom.value ==>
            Moved(old(creep.issued), m0, creep.issued, creep.memory, ToXY(creep.pos), Centre(m0.targetRoom.value), 0, SuicideOnStuck, answer))
      && (!m0.recycling && m0.targetRoom == Some(creep.room.name) ==>
            BuiltFrom(old(creep.issued), m0, creep.issued, creep.memory, creep.pos, creep.room, creep.used, creep.free, answer))
    ensures old(creep.memory).recycling ==> creep.memory.recycling
  {
    var m := creep.memory;
    if m.recycling {
      RecycleSelf(creep, answer);
      return;
    }
    if m.targetRoom.None? {
      return;
    }
    if creep.room.name != m.targetRoom.value {
      MoveRecovering(creep, Centre(m.targetRoom.value), 0, SuicideOnStuck, answer);
      return;
    }
    BuildContainer(creep, answer);
  }
}
