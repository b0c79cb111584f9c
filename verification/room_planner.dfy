/**
 * The room planner: structure-count change detection that invalidates the path memo, container
 * sites beside sources, memoised road plans between a room's keypoints, highway plans to remote
 * rooms, road-site placement along every plan, and the tick schedule that runs them.
 */
module RoomPlanner {
  import opened Common
  import opened Strings
  import opened Schema
  import opened World
  import opened PathCache

  const CONTAINER_CONSTRUCTION_DELAY: int := 1000
  const HIGHWAY_PLAN_DELAY: int := 2500
  /** The road-building period, written as a literal at its only use. */
  const ROAD_BUILD_DELAY: int := 100
  const MIN_RCL_FOR_CONTAINERS: nat := 2
  const MIN_RCL_FOR_ROADS: nat := 3

  /** The serialised options of the intra-room road search, `{ swampCost: 1 }`. */
  const ROAD_SEARCH_OPTS: string := "{\"swampCost\":1}"

  /** `Game.map.findRoute(from, to)` with a route callback that forbids the rooms in `avoid`. */
  datatype RouteQuery = RouteQuery(from: string, to: string, avoid: set<string>)

  /** A cost set on one tile of a room's cost matrix. */
  datatype CostSetting = CostSetting(tile: XY, cost: nat)

  /**
   * A highway search: origin, goal and range, terrain costs, the rooms the room callback refuses,
   * and the cost settings it makes for the visible rooms it does not refuse (any other room gets
   * an empty matrix).
   */
  datatype HighwaySearch = HighwaySearch(
    origin: Pos, goal: Pos, range: nat, plainCost: nat, swampCost: nat,
    excluded: set<string>, matrices: map<string, seq<CostSetting>>)

  /** The engine queries the planner makes, as oracles. */
  datatype Engine = Engine(
    /** `room.findPath(from, to, { ignoreCreeps: true, range: 1 })`: the steps of the path. */
    findPath: (Pos, Pos) -> seq<XY>,
    /** `PathFinder.search(from, to, { swampCost: 1 })`, which the path memo runs on a miss. */
    roadSearch: (Pos, Pos) -> SearchResult,
    /** `Game.map.findRoute`: `None` for ERR_NO_PATH, otherwise the number of rooms on the route. */
    findRoute: RouteQuery -> Option<nat>,
    highwaySearch: HighwaySearch -> SearchResult)

  // ---------------------------------------------------------------------------------------------
  // Structure-change detection

  /** `Memory.roomPlans[name]`, reading an absent entry as `{ paths: {} }`. */
  function PlanOf(plans: map<string, RoomPlan>, name: string): RoomPlan
  {
    if name in plans then plans[name] else EmptyRoomPlan
  }

  /** A structure count was recorded for the room and the current count differs from it. */
  predicate StructuresChanged(plan: RoomPlan, current: nat)
  {
    plan.lastStructureCount.Some? && plan.lastStructureCount.value != current
  }

  /**
   * `detectStructureChanges`: invalidate the room's memo entries when a recorded structure count
   * differs from the current one, then record the current count.
   */
  method DetectStructureChanges(memory: GameMemory, cache: Cache, room: Room) returns (invalidated: bool)
    requires cache.Valid()
    modifies memory`roomPlans, cache
    ensures cache.Valid()
    ensures invalidated <==> StructuresChanged(PlanOf(old(memory.roomPlans), room.name), |room.structures|)
    ensures memory.roomPlans == old(memory.roomPlans)[room.name :=
      PlanOf(old(memory.roomPlans), room.name).(lastStructureCount := Some(|room.structures|))]
    ensures memory.roomPlans - {room.name} == old(memory.roomPlans) - {room.name}
    ensures !invalidated ==> cache.entries == old(cache.entries) && cache.rooms == old(cache.rooms)
    ensures invalidated ==> cache.rooms == old(cache.rooms) - {room.name}
    ensures invalidated ==> forall k :: k in cache.entries <==> k in old(cache.entries) && !Involves(k, old(cache.entries)[k], room.name)
    ensures invalidated ==> cache.entries == Invalidated(old(cache.entries), room.name)
    ensures forall k :: k in cache.entries ==> k in old(cache.entries) && cache.entries[k] == old(cache.entries)[k]
  {
    if room.name !in memory.roomPlans {
      memory.roomPlans := memory.roomPlans[room.name := EmptyRoomPlan];
    }
    var plan := memory.roomPlans[room.name];
    var current := |room.structures|;
    invalidated := plan.lastStructureCount.Some? && plan.lastStructureCount.value != current;
    if invalidated {
      cache.InvalidateRoomCache(room.name);
    }
    memory.roomPlans := memory.roomPlans[room.name := plan.(lastStructureCount := Some(current))];
  }

  // ---------------------------------------------------------------------------------------------
  // Containers beside sources

  /** A container, or a container site, stands within range 1 of the source. */
  predicate ContainerNear(room: Room, source: Source)
  {
    || (exists s :: s in room.structures && s.stype == Container && InRange(source.pos, s.pos, 1))
    || (exists s :: s in room.sites && s.stype == Container && InRange(source.pos, s.pos, 1))
  }

  /**
   * Where `planSourceContainers` places a container site for a source: nowhere when one is near,
   * otherwise at the first step of the source's path to the controller, if that path has a step.
   */
  function ContainerSpot(room: Room, source: Source, findPath: (Pos, Pos) -> seq<XY>): (spot: Option<Pos>)
    requires room.controller.Some?
    ensures spot.Some? ==> !ContainerNear(room, source) && spot.value.roomName == room.name
    ensures !ContainerNear(room, source) && |findPath(source.pos, room.controller.value.pos)| > 0 ==> spot.Some?
  {
    if ContainerNear(room, source) then None
    else
      var path := findPath(source.pos, room.controller.value.pos);
      if |path| > 0 then Some(Pos(path[0].x, path[0].y, room.name)) else None
  }

  /** A container site is due at `p`: the room is at level 2 or more and `p` is some source's spot. */
  predicate ContainerSite(room: Room, findPath: (Pos, Pos) -> seq<XY>, p: Pos)
  {
    && room.ControllerLevel() >= MIN_RCL_FOR_CONTAINERS
    && room.controller.Some?
    && exists i :: 0 <= i < |room.sources| && ContainerSpot(room, room.sources[i], findPath) == Some(p)
  }

  /** `planSourceContainers`: the tiles where a container site is placed, one per source at most. */
  method PlanSourceContainers(room: Room, findPath: (Pos, Pos) -> seq<XY>) returns (sites: seq<Pos>)
    ensures room.ControllerLevel() < MIN_RCL_FOR_CONTAINERS ==> sites == []
    ensures |sites| <= |room.sources|
    ensures forall p :: p in sites <==> ContainerSite(room, findPath, p)
  {
    sites := [];
    if room.ControllerLevel() < MIN_RCL_FOR_CONTAINERS {
      return;
    }
    // A level of 2 or more implies a controller, so the source's `!controllerPos` guard never fires.
    var i := 0;
    while i < |room.sources|
      invariant i <= |room.sources| && |sites| <= i
      invariant forall p :: p in sites <==> exists k :: 0 <= k < i && ContainerSpot(room, room.sources[k], findPath) == Some(p)
    {
      var source := room.sources[i];
      var near := ContainerNear(room, source);
      if !near {
        var path := findPath(source.pos, room.controller.value.pos);
        if |path| > 0 {
          sites := sites + [Pos(path[0].x, path[0].y, room.name)];
        }
      }
      i := i + 1;
    }
  }

  // ---------------------------------------------------------------------------------------------
  // Intra-room road plans

  /** The plan key of a keypoint pair: `x,y-x,y`. */
  function PathKey(from: Pos, to: Pos): string
  {
    NatToString(from.x) + "," + NatToString(from.y) + "-" + NatToString(to.x) + "," + NatToString(to.y)
  }

  /** The keypoints: the controller first, when there is one, then the sources in order. */
  function Keypoints(room: Room): (kp: seq<Pos>)
    ensures |kp| == |room.sources| + (if room.controller.Some? then 1 else 0)
    ensures room.controller.Some? ==> kp[0] == room.controller.value.pos
    ensures forall i :: 0 <= i < |room.sources| ==> kp[|kp| - |room.sources| + i] == room.sources[i].pos
  {
    (if room.controller.Some? then [room.controller.value.pos] else [])
    + seq(|room.sources|, i requires 0 <= i < |room.sources| => room.sources[i].pos)
  }

  /** `k` is the key of some keypoint pair a < b. */
  predicate IsPairKey(kp: seq<Pos>, k: string)
  {
    exists a, b :: 0 <= a < b < |kp| && k == PathKey(kp[a], kp[b])
  }

  /** The complete computed paths, reduced to `{x, y}`: what the loop stores. */
  function Stored<K(!new)>(computed: map<K, RoadQuery>): (m: map<K, seq<XY>>)
    ensures forall k :: k in m <==> k in computed && !computed[k].result.incomplete
    ensures forall k :: k in m ==> m[k] == MapSeq(computed[k].result.path, ToXY)
  {
    map k | k in computed && !computed[k].result.incomplete :: MapSeq(computed[k].result.path, ToXY)
  }

  /**
   * One call of the path memo while planning: the pair asked for, the memo entries and structure
   * records the call found, and the result it gave.
   */
  datatype RoadQuery = RoadQuery(
    from: Pos, to: Pos, memo: map<string, CachedSearchResult>, records: map<string, RoomStructureRecord>,
    result: CachedSearchResult)

  /** A memo entry written while planning: the road search for the endpoints its key names, stamped now. */
  ghost predicate FreshRoad(k: string, e: CachedSearchResult, engine: Engine, visible: map<string, Room>, now: int)
  {
    exists from: Pos, to: Pos {:trigger engine.roadSearch(from, to)} :: k == CacheKey(from, to, ROAD_SEARCH_OPTS) && e == Packed(from, to, engine.roadSearch(from, to), visible, now)
  }

  /** Every entry of `after` is the entry `before` holds under its key, or a fresh road search. */
  ghost predicate MemoGrown(before: map<string, CachedSearchResult>, after: map<string, CachedSearchResult>,
                            engine: Engine, visible: map<string, Room>, now: int)
  {
    forall k :: k in after ==> (k in before && after[k] == before[k]) || FreshRoad(k, after[k], engine, visible, now)
  }

  /**
   * The memo's answer to `q`: the stored entry when the lookup of the pair's key passes its expiry
   * and structure checks, and otherwise the road search of the pair, packed now.
   */
  ghost predicate MemoAnswer(q: RoadQuery, engine: Engine, visible: map<string, Room>, now: int)
  {
    RecordsWellFormed(q.records) &&
    var key := CacheKey(q.from, q.to, ROAD_SEARCH_OPTS);
    var c := Lookup(q.memo, q.records, visible, now, key, q.from, q.to);
    && (c.ok ==> key in q.memo && q.result == q.memo[key])
    && (!c.ok ==> q.result == Packed(q.from, q.to, engine.roadSearch(q.from, q.to), visible, now))
  }

  /**
   * Each computed key is the key of the pair it was computed for, its result is the memo's answer,
   * and the memo the call found held only entries of `start` and fresh road searches.
   */
  ghost predicate MemoAnswers(computed: map<string, RoadQuery>, start: map<string, CachedSearchResult>,
                              engine: Engine, visible: map<string, Room>, now: int)
  {
    forall k :: k in computed ==>
      && k == PathKey(computed[k].from, computed[k].to)
      && MemoAnswer(computed[k], engine, visible, now)
      && MemoGrown(start, computed[k].memo, engine, visible, now)
  }

  /** Recording the memo's answer for one more pair keeps the answers accounted for. */
  lemma MemoAnswersAdd(computed: map<string, RoadQuery>, start: map<string, CachedSearchResult>,
                       engine: Engine, visible: map<string, Room>, now: int, q: RoadQuery)
    requires MemoAnswers(computed, start, engine, visible, now)
    requires MemoAnswer(q, engine, visible, now) && MemoGrown(start, q.memo, engine, visible, now)
    ensures MemoAnswers(computed[PathKey(q.from, q.to) := q], start, engine, visible, now)
  {
  }

  lemma MemoGrownTrans(a: map<string, CachedSearchResult>, b: map<string, CachedSearchResult>, c: map<string, CachedSearchResult>,
                       engine: Engine, visible: map<string, Room>, now: int)
    requires MemoGrown(a, b, engine, visible, now) && MemoGrown(b, c, engine, visible, now)
    ensures MemoGrown(a, c, engine, visible, now)
  {
  }

  /** Storing the road search of one pair, then trimming, only adds a fresh road search. */
  lemma MemoGrownByStore(before: map<string, CachedSearchResult>, after: map<string, CachedSearchResult>,
                         from: Pos, to: Pos, r: CachedSearchResult, engine: Engine, visible: map<string, Room>, now: int)
    requires r == Packed(from, to, engine.roadSearch(from, to), visible, now)
    requires Cleaned(before[CacheKey(from, to, ROAD_SEARCH_OPTS) := r], after)
    ensures MemoGrown(before, after, engine, visible, now)
  {
    var key := CacheKey(from, to, ROAD_SEARCH_OPTS);
    forall k | k in after
      ensures (k in before && after[k] == before[k]) || FreshRoad(k, after[k], engine, visible, now)
    {
      assert k in before[key := r] && after[k] == before[key := r][k];
      if k == key {
        assert FreshRoad(k, after[k], engine, visible, now);
      }
    }
  }

  /**
   * The road plans after some pairs were visited. `computed` holds, per key, the last result
   * `findPathWithCache` gave for it. A key was computed only when absent, and only for a keypoint
   * pair; the plans are the earlier ones, untouched, plus every complete computed path.
   */
  ghost predicate PlannedPairs(before: map<string, seq<XY>>, after: map<string, seq<XY>>, kp: seq<Pos>,
                               computed: map<string, RoadQuery>)
  {
    && (forall k :: k in computed ==> k !in before && IsPairKey(kp, k))
    && after == before + Stored(computed)
  }

  /** Every pair a < b visited before (i, j), in loop order, had its key already or had it computed. */
  ghost predicate PairsCovered(before: map<string, seq<XY>>, kp: seq<Pos>, computed: map<string, RoadQuery>, i: nat, j: nat)
  {
    forall a, b :: 0 <= a < b < |kp| && (a < i || (a == i && b < j)) ==>
      PathKey(kp[a], kp[b]) in before || PathKey(kp[a], kp[b]) in computed
  }

  /** `after` differs from `before` at most in the paths of the room `name`, whose entry exists in both. */
  ghost predicate OnlyPathsOf(before: map<string, RoomPlan>, after: map<string, RoomPlan>, name: string)
  {
    && name in before && name in after
    && after - {name} == before - {name}
    && after[name].lastStructureCount == before[name].lastStructureCount
  }

  /** Rewriting the paths of one room's plan changes nothing else. */
  lemma PathsRewritten(plans: map<string, RoomPlan>, name: string, paths: map<string, seq<XY>>)
    requires name in plans
    ensures OnlyPathsOf(plans, plans[name := plans[name].(paths := paths)], name)
  {
    assert plans[name := plans[name].(paths := paths)] - {name} == plans - {name};
  }

  /** Computing an absent pair key keeps the planning invariant, whether or not the path is stored. */
  lemma PairComputed(before: map<string, seq<XY>>, after: map<string, seq<XY>>, kp: seq<Pos>,
                     computed: map<string, RoadQuery>, key: string, r: RoadQuery)
    requires PlannedPairs(before, after, kp, computed)
    requires key !in after && IsPairKey(kp, key)
    ensures r.result.incomplete ==> PlannedPairs(before, after, kp, computed[key := r])
    ensures !r.result.incomplete ==> PlannedPairs(before, after[key := MapSeq(r.result.path, ToXY)], kp, computed[key := r])
  {
    StoredStep(before, computed, key, r);
  }

  /** Adding one computed result to the plans: stored iff complete. */
  lemma StoredStep<K(!new)>(before: map<K, seq<XY>>, computed: map<K, RoadQuery>, key: K, r: RoadQuery)
    requires key !in before + Stored(computed)
    ensures r.result.incomplete ==> before + Stored(computed[key := r]) == before + Stored(computed)
    ensures !r.result.incomplete ==> before + Stored(computed[key := r]) == (before + Stored(computed))[key := MapSeq(r.result.path, ToXY)]
  {
    var c := computed[key := r];
    if r.result.incomplete {
      assert Stored(c) == Stored(computed);
    } else {
      var v := MapSeq(r.result.path, ToXY);
      assert Stored(c) == Stored(computed)[key := v];
      assert (before + Stored(computed))[key := v] == before + Stored(computed)[key := v];
    }
  }

  /** A visited pair whose key is present or computed extends the covered pairs by one. */
  lemma PairsCoveredStep(before: map<string, seq<XY>>, kp: seq<Pos>, computed0: map<string, RoadQuery>,
                         computed: map<string, RoadQuery>, i: nat, j: nat)
    requires PairsCovered(before, kp, computed0, i, j) && computed0.Keys <= computed.Keys
    requires i < j < |kp| && (PathKey(kp[i], kp[j]) in before || PathKey(kp[i], kp[j]) in computed)
    ensures PairsCovered(before, kp, computed, i, j + 1)
  {
  }

  /**
   * `findPathWithCache(from, to, { swampCost: 1 })`: the memo's answer for the pair; a hit leaves
   * the entries alone, a miss stores the road search and trims.
   */
  method RoadPath(cache: Cache, from: Pos, to: Pos, engine: Engine, visible: map<string, Room>, now: int)
    returns (r: CachedSearchResult)
    requires cache.Valid()
    modifies cache
    ensures cache.Valid()
    ensures MemoAnswer(RoadQuery(from, to, old(cache.entries), old(cache.rooms), r), engine, visible, now)
    ensures var key := CacheKey(from, to, ROAD_SEARCH_OPTS);
      var c := Lookup(old(cache.entries), old(cache.rooms), visible, now, key, from, to);
      && cache.rooms == c.rooms
      && (c.ok ==> cache.entries == old(cache.entries))
      && (!c.ok ==> Cleaned(old(cache.entries)[key := r], cache.entries))
    ensures MemoGrown(old(cache.entries), cache.entries, engine, visible, now)
  {
    var hit;
    r, hit := cache.FindPathWithCache(from, to, ROAD_SEARCH_OPTS, engine.roadSearch(from, to), visible, now);
    if !hit {
      MemoGrownByStore(old(cache.entries), cache.entries, from, to, r, engine, visible, now);
    }
  }

  /** The memo's answer for a pair, recorded as a query, with the memo still grown only from `start`. */
  method AskMemo(cache: Cache, from: Pos, to: Pos, engine: Engine, visible: map<string, Room>, now: int,
                 ghost start: map<string, CachedSearchResult>)
    returns (r: CachedSearchResult, ghost q: RoadQuery)
    requires cache.Valid() && MemoGrown(start, cache.entries, engine, visible, now)
    modifies cache
    ensures cache.Valid() && MemoGrown(start, cache.entries, engine, visible, now)
    ensures q.from == from && q.to == to && q.result == r
    ensures MemoAnswer(q, engine, visible, now) && MemoGrown(start, q.memo, engine, visible, now)
  {
    ghost var memo, records := cache.entries, cache.rooms;
    r := RoadPath(cache, from, to, engine, visible, now);
    MemoGrownTrans(start, memo, cache.entries, engine, visible, now);
    q := RoadQuery(from, to, memo, records, r);
  }

  /** Plan the pair (i, j), whose key is absent: ask the memo, and keep the path when complete. */
  method PlanAbsentPair(memory: GameMemory, cache: Cache, name: string, kp: seq<Pos>, i: nat, j: nat,
                        engine: Engine, visible: map<string, Room>, now: int,
                        ghost before: map<string, seq<XY>>, ghost computed0: map<string, RoadQuery>,
                        ghost start: map<string, CachedSearchResult>)
    returns (ghost computed: map<string, RoadQuery>)
    requires cache.Valid() && name in memory.roomPlans && i < j < |kp|
    requires PathKey(kp[i], kp[j]) !in memory.roomPlans[name].paths
    requires PlannedPairs(before, memory.roomPlans[name].paths, kp, computed0)
    requires PairsCovered(before, kp, computed0, i, j)
    requires MemoAnswers(computed0, start, engine, visible, now) && MemoGrown(start, cache.entries, engine, visible, now)
    modifies memory`roomPlans, cache
    ensures cache.Valid()
    ensures OnlyPathsOf(old(memory.roomPlans), memory.roomPlans, name)
    ensures PlannedPairs(before, memory.roomPlans[name].paths, kp, computed)
    ensures PairsCovered(before, kp, computed, i, j + 1)
    ensures MemoAnswers(computed, start, engine, visible, now) && MemoGrown(start, cache.entries, engine, visible, now)
  {
    var key := PathKey(kp[i], kp[j]);
    var plan := memory.roomPlans[name];
    var r, q := AskMemo(cache, kp[i], kp[j], engine, visible, now, start);
    MemoAnswersAdd(computed0, start, engine, visible, now, q);
    assert IsPairKey(kp, key);
    PairComputed(before, plan.paths, kp, computed0, key, q);
    computed := computed0[key := q];
    if !r.incomplete {
      PathsRewritten(memory.roomPlans, name, plan.paths[key := MapSeq(r.path, ToXY)]);
      memory.roomPlans := memory.roomPlans[name := plan.(paths := plan.paths[key := MapSeq(r.path, ToXY)])];
    }
    PairsCoveredStep(before, kp, computed0, computed, i, j);
  }

  /** One pass of the inner loop: plan the pair (i, j) unless its key is present. */
  method PlanPair(memory: GameMemory, cache: Cache, name: string, kp: seq<Pos>, i: nat, j: nat,
                  engine: Engine, visible: map<string, Room>, now: int,
                  ghost before: map<string, seq<XY>>, ghost computed0: map<string, RoadQuery>,
                  ghost start: map<string, CachedSearchResult>)
    returns (ghost computed: map<string, RoadQuery>)
    requires cache.Valid() && name in memory.roomPlans && i < j < |kp|
    requires PlannedPairs(before, memory.roomPlans[name].paths, kp, computed0)
    requires PairsCovered(before, kp, computed0, i, j)
    requires MemoAnswers(computed0, start, engine, visible, now) && MemoGrown(start, cache.entries, engine, visible, now)
    modifies memory`roomPlans, cache
    ensures cache.Valid()
    ensures OnlyPathsOf(old(memory.roomPlans), memory.roomPlans, name)
    ensures PlannedPairs(before, memory.roomPlans[name].paths, kp, computed)
    ensures PairsCovered(before, kp, computed, i, j + 1)
    ensures MemoAnswers(computed, start, engine, visible, now) && MemoGrown(start, cache.entries, engine, visible, now)
  {
    if PathKey(kp[i], kp[j]) in memory.roomPlans[name].paths {
      computed := computed0;
      PairsCoveredStep(before, kp, computed0, computed, i, j);
    } else {
      computed := PlanAbsentPair(memory, cache, name, kp, i, j, engine, visible, now, before, computed0, start);
    }
  }

  /** The inner loop of `planIntraRoomRoads`: the pairs (i, j) for every j > i. */
  method PlanPairsFrom(memory: GameMemory, cache: Cache, name: string, kp: seq<Pos>, i: nat,
                       engine: Engine, visible: map<string, Room>, now: int,
                       ghost before: map<string, seq<XY>>, ghost computed0: map<string, RoadQuery>,
                       ghost start: map<string, CachedSearchResult>)
    returns (ghost computed: map<string, RoadQuery>)
    requires cache.Valid() && name in memory.roomPlans && i < |kp|
    requires PlannedPairs(before, memory.roomPlans[name].paths, kp, computed0)
    requires PairsCovered(before, kp, computed0, i, 0)
    requires MemoAnswers(computed0, start, engine, visible, now) && MemoGrown(start, cache.entries, engine, visible, now)
    modifies memory`roomPlans, cache
    ensures cache.Valid()
    ensures OnlyPathsOf(old(memory.roomPlans), memory.roomPlans, name)
    ensures PlannedPairs(before, memory.roomPlans[name].paths, kp, computed)
    ensures PairsCovered(before, kp, computed, i + 1, 0)
    ensures MemoAnswers(computed, start, engine, visible, now) && MemoGrown(start, cache.entries, engine, visible, now)
  {
    computed := computed0;
    var j := i + 1;
    while j < |kp|
      invariant i < j <= |kp|
      invariant cache.Valid()
      invariant OnlyPathsOf(old(memory.roomPlans), memory.roomPlans, name)
      invariant PlannedPairs(before, memory.roomPlans[name].paths, kp, computed)
      invariant PairsCovered(before, kp, computed, i, j)
      invariant MemoAnswers(computed, start, engine, visible, now) && MemoGrown(start, cache.entries, engine, visible, now)
    {
      computed := PlanPair(memory, cache, name, kp, i, j, engine, visible, now, before, computed, start);
      j := j + 1;
    }
  }

  /**
   * `planIntraRoomRoads`: from level 3, make sure the room has a plan entry, then visit every
   * keypoint pair i < j; a pair whose key is absent gets a path from the memo, kept only when complete.
   */
  method PlanIntraRoomRoads(memory: GameMemory, cache: Cache, room: Room, engine: Engine,
                            visible: map<string, Room>, now: int)
    returns (ghost computed: map<string, RoadQuery>)
    requires cache.Valid()
    modifies memory`roomPlans, cache
    ensures cache.Valid()
    ensures MemoGrown(old(cache.entries), cache.entries, engine, visible, now)
    ensures room.ControllerLevel() < MIN_RCL_FOR_ROADS ==>
      memory.roomPlans == old(memory.roomPlans) && cache.entries == old(cache.entries) && cache.rooms == old(cache.rooms)
    ensures room.ControllerLevel() >= MIN_RCL_FOR_ROADS ==>
      && room.name in memory.roomPlans
      && memory.roomPlans - {room.name} == old(memory.roomPlans) - {room.name}
      && memory.roomPlans[room.name].lastStructureCount == PlanOf(old(memory.roomPlans), room.name).lastStructureCount
      && PlannedPairs(PlanOf(old(memory.roomPlans), room.name).paths, memory.roomPlans[room.name].paths, Keypoints(room), computed)
      && PairsCovered(PlanOf(old(memory.roomPlans), room.name).paths, Keypoints(room), computed, |Keypoints(room)|, 0)
      && MemoAnswers(computed, old(cache.entries), engine, visible, now)
  {
    computed := map[];
    if room.ControllerLevel() < MIN_RCL_FOR_ROADS {
      return;
    }
    if room.name !in memory.roomPlans {
      memory.roomPlans := memory.roomPlans[room.name := EmptyRoomPlan];
    }
    computed := PlanAllPairs(memory, cache, room.name, Keypoints(room), engine, visible, now);
  }

  /** The outer loop of `planIntraRoomRoads`: every keypoint pair i < j, in order. */
  method PlanAllPairs(memory: GameMemory, cache: Cache, name: string, kp: seq<Pos>,
                      engine: Engine, visible: map<string, Room>, now: int)
    returns (ghost computed: map<string, RoadQuery>)
    requires cache.Valid() && name in memory.roomPlans
    modifies memory`roomPlans, cache
    ensures cache.Valid()
    ensures OnlyPathsOf(old(memory.roomPlans), memory.roomPlans, name)
    ensures PlannedPairs(old(memory.roomPlans)[name].paths, memory.roomPlans[name].paths, kp, computed)
    ensures PairsCovered(old(memory.roomPlans)[name].paths, kp, computed, |kp|, 0)
    ensures MemoAnswers(computed, old(cache.entries), engine, visible, now)
    ensures MemoGrown(old(cache.entries), cache.entries, engine, visible, now)
  {
    computed := map[];
    ghost var before := memory.roomPlans[name].paths;
    var i := 0;
    while i < |kp|
      invariant i <= |kp| && cache.Valid()
      invariant OnlyPathsOf(old(memory.roomPlans), memory.roomPlans, name)
      invariant PlannedPairs(before, memory.roomPlans[name].paths, kp, computed)
      invariant PairsCovered(before, kp, computed, i, 0)
      invariant MemoAnswers(computed, old(cache.entries), engine, visible, now)
      invariant MemoGrown(old(cache.entries), cache.entries, engine, visible, now)
    {
      computed := PlanPairsFrom(memory, cache, name, kp, i, engine, visible, now, before, computed, old(cache.entries));
      i := i + 1;
    }
  }

  // ---------------------------------------------------------------------------------------------
  // Highways

  /** The highway id `home-remote`. */
  function HighwayId(home: string, remote: string): string
  {
    home + "-" + remote
  }

  /** One home room never gives two remotes the same highway id. */
  lemma HighwayIdsDistinct(home: string)
    ensures forall r1, r2 :: HighwayId(home, r1) == HighwayId(home, r2) ==> r1 == r2
  {
    forall r1, r2 | HighwayId(home, r1) == HighwayId(home, r2) ensures r1 == r2 {
      var p := home + "-";
      assert r1 == HighwayId(home, r1)[|p|..];
      assert r2 == HighwayId(home, r2)[|p|..];
    }
  }

  /** Rooms whose intel says hostile: the route and the highway search both refuse them. */
  function HostileRooms(intel: IntelMap): set<string>
  {
    set n | n in intel.records && intel.records[n].hostile
  }

  /** The cost a structure sets in the highway search: roads 1; containers and own ramparts none; any other 0xff. */
  function StructureCost(s: Structure): Option<nat>
  {
    if s.stype == Road then Some(1)
    else if s.stype != Container && (s.stype != Rampart || !s.my) then Some(0xff)
    else None
  }

  /** The settings the room callback makes, structure by structure, on a fresh cost matrix. */
  function CostSettings(structures: seq<Structure>): (m: seq<CostSetting>)
    ensures |m| <= |structures|
    ensures forall c :: c in m ==> c.cost == 1 || c.cost == 0xff
    ensures forall c :: c in m ==> exists s :: s in structures && ToXY(s.pos) == c.tile && StructureCost(s) == Some(c.cost)
    ensures forall s :: s in structures && StructureCost(s).Some? ==> CostSetting(ToXY(s.pos), StructureCost(s).value) in m
  {
    if |structures| == 0 then []
    else
      var s := structures[0];
      var rest := CostSettings(structures[1..]);
      assert forall t :: t in structures[1..] ==> t in structures;
      match StructureCost(s)
      case None => rest
      case Some(c) => [CostSetting(ToXY(s.pos), c)] + rest
  }

  /** Roads cost 1; containers and the bot's own ramparts set nothing; every other structure costs 0xff. */
  lemma StructureCostRule(s: Structure)
    ensures StructureCost(s) == Some(1) <==> s.stype == Road
    ensures StructureCost(s).None? <==> s.stype == Container || (s.stype == Rampart && s.my)
    ensures StructureCost(s).Some? && s.stype != Road ==> StructureCost(s) == Some(0xff)
  {
  }

  /** The highway search for a remote: from storage to range 1 of its first source, plains 2, swamps 10. */
  function HighwayQuery(storage: Structure, intel: IntelMap, visible: map<string, Room>, remote: string): (q: HighwaySearch)
    requires remote in intel.records && |intel.records[remote].sources| > 0
    ensures q.origin == storage.pos && q.goal.roomName == remote && q.range == 1
    ensures forall n :: n in q.excluded <==> n in intel.records && intel.records[n].hostile
    ensures forall n :: n in q.matrices <==> n in visible && n !in q.excluded
  {
    var source := intel.records[remote].sources[0];
    var excluded := HostileRooms(intel);
    HighwaySearch(storage.pos, Pos(source.pos.x, source.pos.y, remote), 1, 2, 10, excluded,
      map n | n in visible && n !in excluded :: CostSettings(visible[n].structures))
  }

  /**
   * What `planHighways` plans for one remote, leaving aside whether its id exists: nothing unless
   * the remote is in the intel map, belongs to this room, has a source, has a route that avoids
   * hostile rooms and a complete search; then the searched path stamped now.
   */
  function PlannedHighway(home: Room, storage: Structure, intel: IntelMap, visible: map<string, Room>,
                          engine: Engine, now: int, remote: string): (h: Option<Highway>)
    ensures h.Some? ==> remote in intel.records && intel.records[remote].homeRoom == Some(home.name)
    ensures h.Some? ==> |intel.records[remote].sources| > 0 && h.value.createdAt == now
    ensures h.Some? ==> var route := engine.findRoute(RouteQuery(storage.pos.roomName, remote, HostileRooms(intel)));
      route.Some? && route.value > 0
    ensures h.Some? ==> var result := engine.highwaySearch(HighwayQuery(storage, intel, visible, remote));
      !result.incomplete && h.value.path == result.path
  {
    if remote !in intel.records then None
    else
      var record := intel.records[remote];
      if record.homeRoom != Some(home.name) || |record.sources| == 0 then None
      else
        var route := engine.findRoute(RouteQuery(storage.pos.roomName, remote, HostileRooms(intel)));
        if route.None? || route.value == 0 then None
        else
          var result := engine.highwaySearch(HighwayQuery(storage, intel, visible, remote));
          if result.incomplete then None else Some(Highway(result.path, now))
  }

  /** `PlannedHighway` for each remote of one call. */
  function PlanFor(home: Room, storage: Structure, intel: IntelMap, visible: map<string, Room>, engine: Engine, now: int)
    : string -> Option<Highway>
  {
    remote => PlannedHighway(home, storage, intel, visible, engine, now, remote)
  }

  /**
   * The highways after the first n remotes of `order` were visited, `plan` giving each remote's
   * plan: old highways are kept, every new one is the plan of a visited remote under its id, and
   * every visited remote with a plan and a fresh id has it stored.
   */
  ghost predicate HighwaysUpTo(before: map<string, Highway>, after: map<string, Highway>, home: string,
                               order: seq<string>, plan: string -> Option<Highway>, n: nat)
    requires n <= |order|
  {
    && (forall id :: id in before ==> id in after && after[id] == before[id])
    && (forall id :: id in after && id !in before ==>
          (exists k :: 0 <= k < n && id == HighwayId(home, order[k]) && plan(order[k]) == Some(after[id])))
    && (forall k :: 0 <= k < n ==> HighwayStored(before, after, home, plan, order[k]))
  }

  /** A remote with a plan and a fresh id has that plan stored under its id. */
  ghost predicate HighwayStored(before: map<string, Highway>, after: map<string, Highway>, home: string,
                                plan: string -> Option<Highway>, remote: string)
  {
    HighwayId(home, remote) !in before && plan(remote).Some? ==>
      HighwayId(home, remote) in after && after[HighwayId(home, remote)] == plan(remote).value
  }

  /** A visited remote that stores nothing, because it has no plan or its id is taken, keeps the invariant. */
  lemma HighwaySkipped(before: map<string, Highway>, after: map<string, Highway>, home: string,
                       order: seq<string>, plan: string -> Option<Highway>, n: nat)
    requires n < |order| && NoDuplicates(order)
    requires HighwaysUpTo(before, after, home, order, plan, n)
    requires plan(order[n]).None? || HighwayId(home, order[n]) in after
    ensures HighwaysUpTo(before, after, home, order, plan, n + 1)
  {
    HighwayIdsDistinct(home);
    assert HighwayStored(before, after, home, plan, order[n]);
  }

  /** A visited remote whose plan is stored under its fresh id keeps the invariant. */
  lemma HighwayAdded(before: map<string, Highway>, after: map<string, Highway>, home: string,
                     order: seq<string>, plan: string -> Option<Highway>, n: nat)
    requires n < |order| && NoDuplicates(order)
    requires HighwaysUpTo(before, after, home, order, plan, n)
    requires HighwayId(home, order[n]) !in after && plan(order[n]).Some?
    ensures HighwaysUpTo(before, after[HighwayId(home, order[n]) := plan(order[n]).value], home, order, plan, n + 1)
  {
    var id := HighwayId(home, order[n]);
    var after' := after[id := plan(order[n]).value];
    HighwayIdsDistinct(home);
    forall k | 0 <= k < n
      ensures HighwayStored(before, after', home, plan, order[k])
    {
      assert HighwayStored(before, after, home, plan, order[k]);
      assert order[k] != order[n];
    }
    assert HighwayStored(before, after', home, plan, order[n]);
  }

  /** What `planHighways` leaves: nothing changes without intel or storage, else every remote was visited. */
  ghost predicate HighwaysPlanned(before: map<string, Highway>, after: map<string, Highway>, home: Room, store: Option<IntelMap>,
                                  visible: map<string, Room>, engine: Engine, now: int)
  {
    if store.None? || home.storage.None? then after == before
    else
      var intel := store.value;
      HighwaysUpTo(before, after, home.name, intel.order, PlanFor(home, home.storage.value, intel, visible, engine, now), |intel.order|)
  }

  /** One pass of the loop of `planHighways`, for the n-th remote of the enumeration. */
  method PlanHighway(memory: GameMemory, home: Room, storage: Structure, intel: IntelMap, visible: map<string, Room>,
                     engine: Engine, now: int, n: nat, ghost before: map<string, Highway>)
    requires intel.Valid() && n < |intel.order|
    requires HighwaysUpTo(before, memory.highways, home.name, intel.order, PlanFor(home, storage, intel, visible, engine, now), n)
    modifies memory`highways
    ensures HighwaysUpTo(before, memory.highways, home.name, intel.order, PlanFor(home, storage, intel, visible, engine, now), n + 1)
  {
    ghost var plan := PlanFor(home, storage, intel, visible, engine, now);
    var remote := intel.order[n];
    var record := intel.records[remote];
    var id := HighwayId(home.name, remote);
    if record.homeRoom != Some(home.name) || |record.sources| == 0 || id in memory.highways {
      HighwaySkipped(before, memory.highways, home.name, intel.order, plan, n);
      return;
    }
    var route := engine.findRoute(RouteQuery(storage.pos.roomName, remote, HostileRooms(intel)));
    if route.None? || route.value == 0 {
      HighwaySkipped(before, memory.highways, home.name, intel.order, plan, n);
      return;
    }
    var result := engine.highwaySearch(HighwayQuery(storage, intel, visible, remote));
    if !result.incomplete {
      assert plan(remote) == Some(Highway(result.path, now));
      HighwayAdded(before, memory.highways, home.name, intel.order, plan, n);
      memory.highways := memory.highways[id := Highway(result.path, now)];
    } else {
      HighwaySkipped(before, memory.highways, home.name, intel.order, plan, n);
    }
  }

  /**
   * `planHighways`: with intel and storage, visit the remotes in enumeration order and store a
   * highway for each one this room owns that has a source, no highway yet, a route and a
   * complete search.
   */
  method PlanHighways(memory: GameMemory, store: IntelStore, room: Room, visible: map<string, Room>, engine: Engine, now: int)
    requires store.Valid()
    modifies memory`highways
    ensures HighwaysPlanned(old(memory.highways), memory.highways, room, store.intel, visible, engine, now)
  {
    if store.intel.None? || room.storage.None? {
      return;
    }
    var intel := store.intel.value;
    var storage := room.storage.value;
    var i := 0;
    while i < |intel.order|
      invariant i <= |intel.order|
      invariant HighwaysUpTo(old(memory.highways), memory.highways, room.name, intel.order, PlanFor(room, storage, intel, visible, engine, now), i)
    {
      PlanHighway(memory, room, storage, intel, visible, engine, now, i, old(memory.highways));
      i := i + 1;
    }
  }

  /**
   * After `planHighways`, a remote of the intel map whose id was fresh has a highway iff it has a
   * plan, and then exactly that plan; ids that existed are untouched.
   */
  lemma HighwaysPlannedForEveryRemote(before: map<string, Highway>, after: map<string, Highway>, home: Room, intel: IntelMap,
                                      visible: map<string, Room>, engine: Engine, now: int, remote: string)
    requires intel.Valid() && home.storage.Some?
    requires HighwaysPlanned(before, after, home, Some(intel), visible, engine, now)
    requires remote in intel.records
    ensures HighwayId(home.name, remote) in before ==> after[HighwayId(home.name, remote)] == before[HighwayId(home.name, remote)]
    ensures var h := PlannedHighway(home, home.storage.value, intel, visible, engine, now, remote);
      HighwayId(home.name, remote) !in before ==>
        (HighwayId(home.name, remote) in after <==> h.Some?)
        && (h.Some? ==> after[HighwayId(home.name, remote)] == h.value)
  {
    var plan := PlanFor(home, home.storage.value, intel, visible, engine, now);
    var k :| 0 <= k < |intel.order| && intel.order[k] == remote;
    assert HighwayStored(before, after, home.name, plan, intel.order[k]);
    HighwayIdsDistinct(home.name);
  }

  // ---------------------------------------------------------------------------------------------
  // Road sites

  /** `lookFor` at the tile finds a road or a road construction site. */
  predicate RoadOrSiteAt(room: Room, p: Pos)
  {
    || (exists s :: s in room.structures && s.stype == Road && s.pos == p)
    || (exists s :: s in room.sites && s.stype == Road && s.pos == p)
  }

  /** A road site may be placed at `p`: its room is visible (and owned, when asked) and the tile has no road or road site. */
  predicate RoadWanted(visible: map<string, Room>, ownedOnly: bool, p: Pos)
  {
    p.roomName in visible && (!ownedOnly || visible[p.roomName].Owned()) && !RoadOrSiteAt(visible[p.roomName], p)
  }

  /** The first pass: a tile of some plan of a visible owned room. */
  predicate PlanRoad(plans: map<string, RoomPlan>, visible: map<string, Room>, p: Pos)
  {
    && p.roomName in plans
    && (exists key :: key in plans[p.roomName].paths && ToXY(p) in plans[p.roomName].paths[key])
    && RoadWanted(visible, true, p)
  }

  /** The highway passes: a tile of some highway, in a visible room (owned too, for the last pass). */
  predicate HighwayRoad(highways: map<string, Highway>, visible: map<string, Room>, ownedOnly: bool, p: Pos)
  {
    (exists id :: id in highways && p in highways[id].path) && RoadWanted(visible, ownedOnly, p)
  }

  /** Road sites along one stored plan path of the room `name`. */
  method RoadsAlongPlan(room: Room, name: string, path: seq<XY>) returns (sites: seq<Pos>)
    ensures forall p :: p in sites <==> p.roomName == name && ToXY(p) in path && !RoadOrSiteAt(room, p)
  {
    sites := [];
    var i := 0;
    while i < |path|
      invariant i <= |path|
      invariant forall p :: p in sites <==> p.roomName == name && ToXY(p) in path[..i] && !RoadOrSiteAt(room, p)
    {
      var p := Pos(path[i].x, path[i].y, name);
      if !RoadOrSiteAt(room, p) {
        sites := sites + [p];
      }
      assert path[..i + 1] == path[..i] + [path[i]];
      i := i + 1;
    }
    assert path[..i] == path;
  }

  /** Road sites along every stored plan path of the room `name`, in any order of keys. */
  method RoadsInRoom(room: Room, name: string, paths: map<string, seq<XY>>) returns (sites: seq<Pos>)
    ensures forall p :: p in sites <==>
      p.roomName == name && (exists key :: key in paths && ToXY(p) in paths[key]) && !RoadOrSiteAt(room, p)
  {
    sites := [];
    var pending := paths.Keys;
    while pending != {}
      invariant pending <= paths.Keys
      invariant forall p :: p in sites <==>
        p.roomName == name && (exists key :: key in paths && key !in pending && ToXY(p) in paths[key]) && !RoadOrSiteAt(room, p)
      decreases |pending|
    {
      var key :| key in pending;
      var more := RoadsAlongPlan(room, name, paths[key]);
      sites := sites + more;
      pending := pending - {key};
    }
  }

  /** The first pass of `buildRoads`: stored plans of visible owned rooms. */
  method PlanRoads(plans: map<string, RoomPlan>, visible: map<string, Room>) returns (sites: seq<Pos>)
    ensures forall p :: p in sites <==> PlanRoad(plans, visible, p)
  {
    sites := [];
    var pending := plans.Keys;
    while pending != {}
      invariant pending <= plans.Keys
      invariant forall p :: p in sites <==> PlanRoad(plans, visible, p) && p.roomName !in pending
      decreases |pending|
    {
      var name :| name in pending;
      if name in visible && visible[name].Owned() {
        var more := RoadsInRoom(visible[name], name, plans[name].paths);
        sites := sites + more;
      }
      pending := pending - {name};
    }
  }

  /** Road sites along one highway path. */
  method RoadsAlongHighway(path: seq<Pos>, visible: map<string, Room>, ownedOnly: bool) returns (sites: seq<Pos>)
    ensures forall p :: p in sites <==> p in path && RoadWanted(visible, ownedOnly, p)
  {
    sites := [];
    var i := 0;
    while i < |path|
      invariant i <= |path|
      invariant forall p :: p in sites <==> p in path[..i] && RoadWanted(visible, ownedOnly, p)
    {
      var p := path[i];
      if p.roomName in visible && (!ownedOnly || visible[p.roomName].Owned()) && !RoadOrSiteAt(visible[p.roomName], p) {
        sites := sites + [p];
      }
      assert path[..i + 1] == path[..i] + [p];
      i := i + 1;
    }
    assert path[..i] == path;
  }

  /** The second (every visible room) or third (visible owned rooms only) pass of `buildRoads`. */
  method HighwayRoads(highways: map<string, Highway>, visible: map<string, Room>, ownedOnly: bool) returns (sites: seq<Pos>)
    ensures forall p :: p in sites <==> HighwayRoad(highways, visible, ownedOnly, p)
  {
    sites := [];
    var pending := highways.Keys;
    while pending != {}
      invariant pending <= highways.Keys
      invariant forall p :: p in sites <==>
        (exists id :: id in highways && id !in pending && p in highways[id].path) && RoadWanted(visible, ownedOnly, p)
      decreases |pending|
    {
      var id :| id in pending;
      var more := RoadsAlongHighway(highways[id].path, visible, ownedOnly);
      sites := sites + more;
      pending := pending - {id};
    }
  }

  /**
   * `buildRoads`: the road sites of its three passes, in order. Every site is on a visible tile
   * with no road and no road site; the last pass only repeats tiles the second already ordered.
   */
  method BuildRoads(plans: map<string, RoomPlan>, highways: map<string, Highway>, visible: map<string, Room>)
    returns (roads: seq<Pos>)
    ensures forall p :: p in roads <==> PlanRoad(plans, visible, p) || HighwayRoad(highways, visible, false, p)
    ensures forall p :: p in roads ==> p.roomName in visible && !RoadOrSiteAt(visible[p.roomName], p)
  {
    var first := PlanRoads(plans, visible);
    var second := HighwayRoads(highways, visible, false);
    var third := HighwayRoads(highways, visible, true);
    roads := first + second + third;
  }

  // ---------------------------------------------------------------------------------------------
  // The schedule

  /**
   * `runRoomPlanner`: for an owned room, detect structure changes every tick; plan containers and
   * intra-room roads on ticks divisible by 1000 and highways on ticks divisible by 2500; place
   * road sites on ticks divisible by 100, for every room, from the plans as they then stand.
   */
  method RunRoomPlanner(memory: GameMemory, cache: Cache, store: IntelStore, room: Room, visible: map<string, Room>,
                        engine: Engine, now: int)
    returns (invalidated: bool, containers: seq<Pos>, ghost computed: map<string, RoadQuery>, roads: seq<Pos>)
    requires cache.Valid() && store.Valid()
    modifies memory`roomPlans, memory`highways, cache
    ensures cache.Valid()
    ensures invalidated <==> room.Owned() && StructuresChanged(PlanOf(old(memory.roomPlans), room.name), |room.structures|)
    ensures var cleared := if invalidated then Invalidated(old(cache.entries), room.name) else old(cache.entries);
      && MemoGrown(cleared, cache.entries, engine, visible, now)
      && (!(room.Owned() && now % CONTAINER_CONSTRUCTION_DELAY == 0) ==>
            && cache.entries == cleared
            && cache.rooms == (if invalidated then old(cache.rooms) - {room.name} else old(cache.rooms)))
      && (room.Owned() && now % CONTAINER_CONSTRUCTION_DELAY == 0 && room.ControllerLevel() >= MIN_RCL_FOR_ROADS ==>
            MemoAnswers(computed, cleared, engine, visible, now))
    ensures !room.Owned() ==> memory.roomPlans == old(memory.roomPlans) && memory.highways == old(memory.highways)
    ensures room.Owned() ==>
      && room.name in memory.roomPlans
      && memory.roomPlans - {room.name} == old(memory.roomPlans) - {room.name}
      && memory.roomPlans[room.name].lastStructureCount == Some(|room.structures|)
    ensures !(room.Owned() && now % CONTAINER_CONSTRUCTION_DELAY == 0) ==>
      containers == [] && PlanOf(memory.roomPlans, room.name).paths == PlanOf(old(memory.roomPlans), room.name).paths
    ensures room.Owned() && now % CONTAINER_CONSTRUCTION_DELAY == 0 ==>
      forall p :: p in containers <==> ContainerSite(room, engine.findPath, p)
    ensures room.Owned() && now % CONTAINER_CONSTRUCTION_DELAY == 0 && room.ControllerLevel() >= MIN_RCL_FOR_ROADS ==>
      var before := PlanOf(old(memory.roomPlans), room.name).paths;
      PlannedPairs(before, memory.roomPlans[room.name].paths, Keypoints(room), computed)
      && PairsCovered(before, Keypoints(room), computed, |Keypoints(room)|, 0)
    ensures room.Owned() && now % HIGHWAY_PLAN_DELAY == 0 ==>
      HighwaysPlanned(old(memory.highways), memory.highways, room, store.intel, visible, engine, now)
    ensures !(room.Owned() && now % HIGHWAY_PLAN_DELAY == 0) ==> memory.highways == old(memory.highways)
    ensures now % ROAD_BUILD_DELAY != 0 ==> roads == []
    ensures now % ROAD_BUILD_DELAY == 0 ==> forall p :: p in roads <==>
      PlanRoad(memory.roomPlans, visible, p) || HighwayRoad(memory.highways, visible, false, p)
  {
    invalidated, containers, computed, roads := false, [], map[], [];
    if room.Owned() {
      invalidated := DetectStructureChanges(memory, cache, room);
    }
    if now % CONTAINER_CONSTRUCTION_DELAY == 0 && room.Owned() {
      containers := PlanSourceContainers(room, engine.findPath);
      computed := PlanIntraRoomRoads(memory, cache, room, engine, visible, now);
    }
    if now % HIGHWAY_PLAN_DELAY == 0 && room.Owned() {
      PlanHighways(memory, store, room, visible, engine, now);
    }
    if now % ROAD_BUILD_DELAY == 0 {
      roads := BuildRoads(memory.roomPlans, memory.highways, visible);
    }
  }

  /** Planning ticks are road-building ticks: 1000 and 2500 are multiples of 100. */
  lemma PlanningTicksBuildRoads(now: int)
    ensures now % CONTAINER_CONSTRUCTION_DELAY == 0 ==> now % ROAD_BUILD_DELAY == 0
    ensures now % HIGHWAY_PLAN_DELAY == 0 ==> now % ROAD_BUILD_DELAY == 0
  {
    if now % CONTAINER_CONSTRUCTION_DELAY == 0 {
      assert now == (now / 1000) * 10 * 100;
    }
    if now % HIGHWAY_PLAN_DELAY == 0 {
      assert now == (now / 2500) * 25 * 100;
    }
  }
}
