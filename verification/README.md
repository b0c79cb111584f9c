# Screeps kingdom AI: a verified model of the colony core

This project models, in Dafny, the decision logic of a Screeps colony bot: what it does in one game tick. That covers:

- the main loop: memory garbage collection, the per-room managers and per-creep role dispatch;
- the room managers:
  - the defence manager (threat assessment, tower focus, defender requests, safe mode);
  - the tower manager;
  - the spawn manager and the body generator;
- the planners and remote operations:
  - the expansion planner (room scoring and the best-first target list);
  - the remote manager (scout queue, remote creep requests, scout reports into the shared intel map);
  - the room planner (source containers, intra-room roads, highways to remote rooms, road construction);
- the path memo and its per-room structure hashes;
- the stuck-detecting movement wrapper;
- the nine creep roles: repairer, hauler, remote hauler, pioneer, remote harvester, defender, scout, reserver and remote defender.

The game engine is not modelled. Everything the engine decides becomes a parameter:
- search results;
- route and flee queries;
- object lookups by id;
- the answer code to each creep command (`Answers`, a function from command to code).

A creep is a `Creep` object whose `memory` field the roles update in place. Its `issued` field records the commands it gave this tick, in order. `Memory` is a `GameMemory` object. The shared `global.intel` map, with its dirty flag, is an `IntelStore` object. The path memo is a `Cache` object.

## Model

| member | source | states |
|---|---|---|
| PathCache.Descriptors | src/utils/pathCache.ts:24-25 | one `type:x,y` descriptor per structure |
| PathCache.StructureHash | src/utils/pathCache.ts:19-27 | a room not in view hashes to the empty string; every hash keeps the descriptor shape (a colon is always followed by a digit) |
| PathCache.DescriptorShape | src/utils/pathCache.ts:25 | a descriptor has that shape, because no structure type name contains a colon |
| PathCache.HashShape | src/utils/pathCache.ts:25-26 | sorting and joining descriptors with `\|` keeps the shape |
| PathCache.HashOrderIndependent | src/utils/pathCache.ts:19-27 | the hash does not depend on the order in which the engine lists the room's structures (the sort makes it canonical) |
| PathCache.KeyNamesEndpoints | src/utils/pathCache.ts:64 | the memo key contains the origin room name and the destination room name |
| PathCache.AddPathRoomsSpec | src/utils/pathCache.ts:69-72 | collecting path rooms into an insertion-ordered set keeps earlier rooms in place, adds each path room once and nothing else |
| PathCache.PathRooms | src/utils/pathCache.ts:93-96 | the rooms a stored search is checked against: the origin room first, each room once, exactly the origin, destination and path rooms |
| PathCache.SpansTwoRooms | src/utils/pathCache.ts:93-96 | a search whose destination or path leaves the origin room is checked against at least two rooms |
| PathCache.RoomHashes | src/utils/pathCache.ts:98 | one hash per room, in order, each the room's structure hash |
| PathCache.CheckRoom | src/utils/pathCache.ts:29-45 | a missing or empty stored hash fails; a record is refreshed only when absent or at least 50 ticks old; a fresh record answers from its stored hash without rehashing; a pass implies a stored hash of the right shape |
| PathCache.CheckRooms | src/utils/pathCache.ts:74-80 | the check over the path rooms stops at the first failure, keeps every record and touches only the rooms it checks |
| PathCache.MultiRoomEntryNeverHits | src/utils/pathCache.ts:69-99 | an entry stored for a search that spans two or more rooms carries `::`-joined hashes, which never equal a single room's hash: its check always fails |
| PathCache.EndpointEntriesInvolveRoom | src/utils/pathCache.ts:64-127 | invalidating either endpoint room removes every entry stored for those endpoints |
| PathCache.OldestKey | src/utils/pathCache.ts:51-54 | returns an entry with the smallest time stamp |
| PathCache.InvolvedKeys | src/utils/pathCache.ts:126-131 | collects exactly the keys whose key names the room or whose path enters it |
| PathCache.Cache.constructor | src/utils/pathCache.ts:13-17 | the memo and the structure records start empty |
| PathCache.Cache.IsStructureHashValid | src/utils/pathCache.ts:29-45 | the answer and the records are those `CheckRoom` gives |
| PathCache.Cache.CleanCache | src/utils/pathCache.ts:47-56 | above 1000 entries, removes the 200 with the smallest stamps, none newer than any entry kept; otherwise changes nothing |
| PathCache.Cache.CheckEntry | src/utils/pathCache.ts:69-80 | the structure check of a stored entry over its path rooms, as `CheckRooms` |
| PathCache.Cache.Store | src/utils/pathCache.ts:108-109 | stores the entry, then cleans; the memo never exceeds 1000 entries |
| PathCache.Cache.FindPathWithCache | src/utils/pathCache.ts:58-121 | a hit returns the stored entry unchanged and leaves the memo alone; a miss stores the fresh search, stamped now with its room hashes, and cleans; the 1000-entry bound is kept |
| PathCache.Cache.InvalidateRoomCache | src/utils/pathCache.ts:123-135 | removes exactly the entries involving the room, leaves the others unchanged, and forgets the room's structure record |
| PathCache.Cache.GetCacheStats | src/utils/pathCache.ts:137-142 | the size reported is the number of entries, at most 1000 |
| Movement.Flip | src/utils/movement.ts:76 | the named flag is negated (an absent flag reads false) and nothing else changes |
| Movement.Clear | src/utils/movement.ts:100 | the named field is deleted and nothing else changes |
| Movement.Track | src/utils/movement.ts:29-51 | stuck bookkeeping: only a taken move order (OK or ERR_TIRED) records the position; the counter grows only when the position repeats and restarts when it differs; with no position remembered it is left as is; an untaken order restarts the counter |
| Movement.RepeatedCount | src/utils/movement.ts:33-43 | from fresh memory, n taken orders at one spot count n - 1 repeats |
| Movement.FirstStuckOnFourthCall | src/utils/movement.ts:44-47 | from fresh memory, a creep that never moves is first reported stuck on its fourth move order, not its third |
| Movement.MoveTo | src/utils/movement.ts:19-54 | issues exactly one move order; the memory is `Track` of the old one; the answer is ERR_STUCK exactly when the order was taken and the count reached 3, and otherwise the engine's own answer |
| Movement.HandleStuck | src/utils/movement.ts:61-79 | one random step; if the step is refused the flag is flipped; the counter restarts either way |
| Movement.HandleStuckClearProperty | src/utils/movement.ts:85-103 | one random step; if the step is refused the field is deleted; the counter restarts either way |
| Movement.RandomStepAndWait | src/roles/scout.ts:21-27 | one random step and a restarted counter, whatever the engine answers |
| Defense.OccurrencesMultiset | src/defenseManager.ts:38-50 | counting a part by walking the body agrees with the body's multiset |
| Defense.BodyPowerByParts | src/defenseManager.ts:38-50 | one body's damage and healing are the power of each part type times its number of parts |
| Defense.TotalPowerByParts | src/defenseManager.ts:34-51 | the damage and healing summed over all hostiles are the power times the total count of each part type |
| Defense.Classify | src/defenseManager.ts:53-57 | CRITICAL iff healing exceeds 200; otherwise HIGH iff damage exceeds 500 or more than 5 hostiles; MEDIUM iff damage exceeds 200; otherwise LOW |
| Defense.ClassifyMonotone | src/defenseManager.ts:53-57 | more damage, healing or hostiles never lowers the level |
| Defense.ProfileOf | src/defenseManager.ts:18-66 | no hostiles gives the peacetime profile; otherwise a HARASS profile, never NONE, with the summed damage and healing; both record the count and the tick |
| Defense.AfterAssess | src/defenseManager.ts:59-86 | the new profile is stored; the alert time changes only when an alert is sent; nothing else changes |
| Defense.AlertThrottled | src/defenseManager.ts:77-86 | after a critical alert, no other alert goes out within the next 1000 ticks |
| Defense.PeaceNeverAlerts | src/defenseManager.ts:22-32 | a room without hostiles never alerts |
| Defense.ReferencePos | src/defenseManager.ts:96-100 | the first own spawn's position, else the controller's, and none only when the room has neither |
| Defense.FocusTarget | src/defenseManager.ts:103-111 | one of the hostiles, present iff there are hostiles; a healer whenever a healer is present; otherwise a hostile closest to the reference position |
| Defense.AfterControl | src/defenseManager.ts:89-128 | no threat gives the IDLE status; a threat without a reference position changes nothing; otherwise ATTACK with the focus, leaving the profile, alert and safe-mode flag alone |
| Defense.AssessThenControl | src/defenseManager.ts:11-13 | right after assessing the same hostiles, a room with a reference position gets ATTACK iff it has hostiles, and IDLE when it has none |
| Defense.DesiredDefenders | src/defenseManager.ts:141-144 | half the hostiles rounded up, at most 4 |
| Defense.DefenderRequestsZero | src/defenseManager.ts:174 | no queued request is a defender's iff the defender count is zero |
| Defense.DefenderRequestsPrepend | src/defenseManager.ts:174-175 | prepending a request adds one to the count exactly when it is a defender request |
| Defense.AtMostOneDefenderRequest | src/defenseManager.ts:158-178 | requesting keeps exactly one defender request queued (given at most one before), and a second request, for any room, changes nothing |
| Defense.BreachImminentMeans | src/defenseManager.ts:209-219 | the breach test `floor(hits / netDamage) < 1500` means positive net damage and `hits < 1500 * netDamage` |
| Defense.Ramparts | src/defenseManager.ts:194-196 | only ramparts are returned |
| Defense.WeakestHits | src/defenseManager.ts:205-207 | the hits of some rampart, no more than any rampart's |
| Defense.AfterSafeMode | src/defenseManager.ts:180-237 | only the safe-mode flag can change; it is set only when safe mode is wanted, available and the engine answered OK to the order, and it is never cleared |
| Defense.SafeModeOnce | src/defenseManager.ts:180-237 | once queued, nothing more is ordered or sent; an order is given only at CRITICAL; a newly set flag means an OK answer |
| Defense.DefendersOf | src/defenseManager.ts:136-139 | exactly the creeps whose memory makes them defenders of the room |
| Defense.CollectDefenders | src/defenseManager.ts:136-139 | the filter over all creeps returns exactly the room's defenders |
| Defense.PointDefendersAt | src/defenseManager.ts:150-155 | every defender's target becomes the focus; other creeps and all commands are unchanged |
| Defense.DefenseManager.constructor | src/defenseManager.ts:7-9 | a manager for one room with no effects yet |
| Defense.DefenseManager.AssessThreats | src/defenseManager.ts:18-87 | only this room's memory changes, to `AfterAssess` of the fresh profile |
| Defense.DefenseManager.ControlTowers | src/defenseManager.ts:89-128 | this room's memory becomes `AfterControl` of the old one; other rooms are unchanged |
| Defense.DefenseManager.RequestDefender | src/defenseManager.ts:158-178 | the spawn queue becomes `AfterRequest`: a prepended defender request unless one is queued |
| Defense.DefenseManager.ManageDefenders | src/defenseManager.ts:130-156 | the queue and each creep's memory become what the defender step prescribes; no creep issues a command |
| Defense.DefenseManager.ActivateSafeMode | src/defenseManager.ts:223-237 | the flag is set exactly when the controller has activations left and the engine answered OK |
| Defense.DefenseManager.ManageSafeMode | src/defenseManager.ts:180-221 | this room's memory becomes `AfterSafeMode`; the effects grow by exactly `SafeModeEffects` |
| Defense.DefenseManager.Run | src/defenseManager.ts:11-16 | the four steps in order: the room's memory, the spawn queue and every creep's memory are as composed from them |
| Towers.Volley | src/towerManager.ts:56-71 | one order per tower with at least 10 energy, all of one kind and one target; every tower fires when all are ready |
| Towers.EnergyGate | src/towerManager.ts:58 | a tower short of energy appears in no order |
| Towers.EveryReadyTowerFires | src/towerManager.ts:57-61 | every tower with enough energy gets the order |
| Towers.MostDamaged | src/towerManager.ts:73-90 | present iff some own creep is damaged; a damaged creep with the largest missing hits |
| Towers.WeakestCritical | src/towerManager.ts:92-114 | present iff some structure is critical (walls and ramparts below 10%, others below 50%); a critical structure with the fewest hits |
| Towers.ClosestHostile | src/towerManager.ts:40-46 | a hostile closest by range to the first tower |
| Towers.FocusPreempts | src/towerManager.ts:14-54 | a resolvable ATTACK focus makes every order an attack on it; otherwise, with hostiles and no REPAIR status, every order is an attack |
| Towers.RepairStatusNeverWritten | src/defenseManager.ts:89-128 | the defence manager never writes the REPAIR status, so the tower's repair-mode branch cannot be taken after it |
| Towers.TowerManager.constructor | src/towerManager.ts:7-12 | the towers are the room's own tower structures |
| Towers.TowerManager.Fire | src/towerManager.ts:56-71 | adds exactly the volley's orders |
| Towers.TowerManager.HealFriendlyCreeps | src/towerManager.ts:73-90 | a volley of heals on the most damaged creep, or nothing |
| Towers.TowerManager.RepairCriticalStructures | src/towerManager.ts:92-114 | a volley of repairs on the weakest critical structure, or nothing |
| Towers.TowerManager.Run | src/towerManager.ts:14-54 | the orders are those of the priority chain: focus, repair target, closest hostile, then heals and repairs |
| SpawnManager.CountRoleMultiset | src/spawnManager.ts:27-32 | the role count does not depend on creep enumeration order |
| SpawnManager.FirstShort | src/spawnManager.ts:35-40 | the first table role below its minimum, with none short before it; none when no role is short |
| SpawnManager.ChosenRole | src/spawnManager.ts:34-40 | none iff no role is short; otherwise the first short role in table order |
| SpawnManager.NoCreepsMeansHarvester | src/spawnManager.ts:7-11 | with no creeps, a harvester is chosen |
| SpawnManager.UpgraderBeforeBuilder | src/spawnManager.ts:7-11 | with two harvesters only, the upgrader comes before the equally short builder |
| SpawnManager.OtherRolesIgnored | src/spawnManager.ts:29-31 | a creep of a role outside the table changes nothing |
| SpawnManager.IdleSpawns | src/spawnManager.ts:17-19 | every idle spawn is one of the room's spawns and is not spawning |
| SpawnManager.IdleSpawnsInOrder | src/spawnManager.ts:17-19 | the idle spawns are the non-spawning spawns in enumeration order, so every idle spawn makes its call |
| SpawnManager.CountRoles | src/spawnManager.ts:21-32 | the count table has exactly the three roles, each with its number of creeps |
| SpawnManager.SelectRole | src/spawnManager.ts:34-40 | the scan with its break yields `ChosenRole` |
| SpawnManager.RunSpawnManager | src/spawnManager.ts:13-53 | nothing is spawned when no role is short; otherwise each idle spawn makes one call for the chosen role, named `role-tick`, with the generated body |
| BodyGenerator.SetsShape | src/utils/bodyGenerator.ts:4-6 | k sets have 3k parts in WORK, CARRY, MOVE order and cost k times 200 |
| BodyGenerator.GenerateBasicBody | src/utils/bodyGenerator.ts:2-15 | whole sets only, as many as the budget buys up to 16 (48 parts); the cost never exceeds a non-negative budget; below 200 the body is empty |
| BodyGenerator.BudgetOf300 | src/__tests__/bodyGenerator.test.ts:1-9 | a budget of 300 buys exactly WORK, CARRY, MOVE |
| ExpansionPlanner.ScoreExample | src/expansionPlanner.ts:20-53 | two sources, a mineral, three rooms away, free and quiet score 24.4 |
| ExpansionPlanner.ViableScore | src/expansionPlanner.ts:55-72 | a viable room's score never carries the hostile or the owned penalty |
| ExpansionPlanner.Candidates | src/expansionPlanner.ts:91-114 | exactly the eligible rooms, each scored, in enumeration order |
| ExpansionPlanner.SortDescPermutes | src/expansionPlanner.ts:116 | the sort is best-first and a permutation |
| ExpansionPlanner.SortDescStable | src/expansionPlanner.ts:116 | equal scores keep their order |
| ExpansionPlanner.TopTargetsShape | src/expansionPlanner.ts:74-126 | at most `maxTargets` targets, best-first, each an eligible room with its score; none without intel |
| ExpansionPlanner.TopTargetsComplete | src/expansionPlanner.ts:74-126 | an eligible room left out scores no more than any target, and only when the list is full |
| ExpansionPlanner.TopTargetsDistinct | src/expansionPlanner.ts:74-126 | no room appears twice |
| ExpansionPlanner.TopTargetsStable | src/expansionPlanner.ts:116 | rooms with equal scores come out in intel enumeration order |
| ExpansionPlanner.ExpansionActionFor | src/expansionPlanner.ts:128-155 | none iff there is no record or the room is not viable; claim iff the GCL allows another room and the room has two sources; otherwise reserve |
| RemoteManager.WithScout | src/remoteManager.ts:17-21 | the room is queued once; the old queue is a prefix; no duplicate is created |
| RemoteManager.WithScoutsProps | src/remoteManager.ts:83-97 | enqueuing a list keeps the queue as a prefix, adds every name and nothing else, and keeps it duplicate-free |
| RemoteManager.Without | src/remoteManager.ts:199-201 | exactly the other queued rooms, duplicate-free if the queue was |
| RemoteManager.EnqueueSpawn | src/remoteManager.ts:12-15 | appends the request |
| RemoteManager.EnqueueScout | src/remoteManager.ts:17-21 | the queue becomes `WithScout` of the old one |
| RemoteManager.AnyCreep | src/remoteManager.ts:125-127 | true iff some creep's memory satisfies the predicate |
| World.OwnedRooms | src/remoteManager.ts:80 | only owned rooms, each one of the visible rooms, in enumeration order |
| RemoteManager.StaleExits | src/remoteManager.ts:87-96 | exactly the exits with no record or a record over 5000 ticks old |
| RemoteManager.ScoutNeighbours | src/remoteManager.ts:83-97 | step 1 enqueues the stale exits of every owned room in order |
| RemoteManager.ScoutQueueAfterStep1 | src/remoteManager.ts:83-97 | after step 1, the queue keeps its old entries, holds every stale neighbour and nothing else, without duplicates |
| RemoteManager.ScoutRequests | src/remoteManager.ts:23-37 | one scout request for the head of the queue iff the queue is non-empty and no live scout targets it |
| RemoteManager.ProcessScoutQueue | src/remoteManager.ts:23-37 | appends exactly `ScoutRequests` |
| RemoteManager.NoStorageNoExpansion | src/remoteManager.ts:64-75 | a room without storage never expands |
| RemoteManager.HarvesterRequests | src/remoteManager.ts:136-154 | a harvester request for exactly the sources no live harvester works, in source order |
| RemoteManager.TargetRequests | src/remoteManager.ts:124-178 | every request targets the room from this home; a remote defender is asked for only when the record says hostile |
| RemoteManager.TargetRequestsCover | src/remoteManager.ts:124-178 | a reserver, hauler or defender is requested exactly when the source's condition holds and no live creep serves the target |
| RemoteManager.HarvesterRequestsCover | src/remoteManager.ts:136-154 | a harvester is requested for a source exactly when none works it |
| RemoteManager.VisibleRoom | src/remoteManager.ts:122 | a visible room of that name, or none when no such room is visible |
| RemoteManager.ServedRecord | src/remoteManager.ts:115-120 | the record is claimed by this home; a visible room's hostile flag is synced; the rest is kept |
| RemoteManager.ServeTarget | src/remoteManager.ts:112-188 | only the target's record changes; the intel is dirty iff it was or the record changed; the queue grows by the target's requests |
| RemoteManager.ServeRooms | src/remoteManager.ts:102-189 | step 3 keeps the intel's keys and order and only appends to the queue |
| RemoteManager.ServeTargetsUntouched | src/remoteManager.ts:112-188 | records of rooms that are not targets are untouched |
| RemoteManager.NoRemoteDefenderRequested | src/remoteManager.ts:167-178 | step 3 never requests a remote defender: targets are chosen only among non-hostile rooms, and the request reads the record as chosen |
| RemoteManager.RequestHarvesters | src/remoteManager.ts:136-154 | appends exactly `HarvesterRequests` |
| RemoteManager.RequestRemoteCreeps | src/remoteManager.ts:124-178 | appends exactly `TargetRequests` |
| RemoteManager.Serve | src/remoteManager.ts:112-188 | the intel, dirty flag and queue become `ServeTarget` of the old ones |
| RemoteManager.ServeAll | src/remoteManager.ts:112-188 | serving targets in order |
| RemoteManager.ManageRemotes | src/remoteManager.ts:102-189 | step 3 as `ServeRooms` |
| RemoteManager.IntelOf | src/remoteManager.ts:39-62 | the record: scouted now, no home, hostile iff hostiles are present, the room's sources, mineral and controller |
| RemoteManager.FreshReportEligible | src/remoteManager.ts:39-62 | a fresh report of a room is eligible for expansion from any home (the record drops any home) |
| RemoteManager.Reports | src/remoteManager.ts:191-206 | the scout reports keep the intel well-formed |
| RemoteManager.ReportsKeys | src/remoteManager.ts:191-206 | a room has a record afterwards iff it had one or a scout reported it |
| RemoteManager.ReportsFresh | src/remoteManager.ts:191-206 | a reported room's record is fresh and claimed by no home |
| RemoteManager.ReportsQueue | src/remoteManager.ts:199-201 | the reports remove exactly the reported rooms from the queue and keep it duplicate-free |
| RemoteManager.ReportsDirty | src/remoteManager.ts:191-206 | the intel is dirty afterwards iff it was before or some scout reported |
| RemoteManager.ScoutOrders | src/remoteManager.ts:192-205 | a scout with a target retires in its target room and otherwise heads for it; other creeps give no command |
| RemoteManager.UpdateIntel | src/remoteManager.ts:39-62 | the room's record is replaced by `IntelOf` and the intel is marked dirty |
| RemoteManager.ScoutReport | src/remoteManager.ts:194-205 | one creep's report and commands |
| RemoteManager.ScoutReports | src/remoteManager.ts:191-206 | step 4 over all creeps is `Reports`, and each creep issues its `ScoutOrders` |
| RemoteManager.RunRemoteManager | src/remoteManager.ts:77-207 | steps 1 to 4 in order: the scout queue, the spawn queue, the intel and every creep's commands as composed from the steps |
| RoomPlanner.DetectStructureChanges | src/roomPlanner.ts:209-226 | invalidates iff a count was recorded and differs; then exactly the entries involving the room go (`Invalidated`); the count is recorded; other rooms' plans are unchanged |
| RoomPlanner.ContainerSpot | src/roomPlanner.ts:17-32 | no spot when a container or site is near the source; a spot whenever there is none and a path to the controller exists |
| RoomPlanner.PlanSourceContainers | src/roomPlanner.ts:10-35 | nothing below level 2; at most one site per source; exactly the due sites |
| RoomPlanner.Keypoints | src/roomPlanner.ts:42-44 | the controller first when present, then the sources in order |
| RoomPlanner.Stored | src/roomPlanner.ts:54-59 | exactly the complete searches are stored |
| RoomPlanner.RoadPath | src/roomPlanner.ts:53 | the memo's answer for the pair: the live entry on a hit, with the entries unchanged; on a miss the road search packed now, stored and trimmed; the memo only ever gains fresh road searches |
| RoomPlanner.PlanIntraRoomRoads | src/roomPlanner.ts:37-63 | nothing below level 3; otherwise every keypoint pair has its path, the stored one or a new complete one, each new one being the memo's answer for its pair over a memo that held only the earlier entries and fresh road searches; only this room's paths change |
| RoomPlanner.HighwayIdsDistinct | src/roomPlanner.ts:79 | one home never gives two remotes the same highway id |
| RoomPlanner.CostSettings | src/roomPlanner.ts:113-123 | one setting per costed structure on its tile: roads 1, others 0xff |
| RoomPlanner.StructureCostRule | src/roomPlanner.ts:114-121 | roads cost 1; containers and own ramparts set nothing; every other structure costs 0xff |
| RoomPlanner.HighwayQuery | src/roomPlanner.ts:82-126 | from the storage to range 1 of the remote's first source; hostile rooms excluded; cost matrices for the other visible rooms |
| RoomPlanner.PlannedHighway | src/roomPlanner.ts:71-135 | a highway exists only for a remote of this home with sources, a route and a complete search, stamped now |
| RoomPlanner.PlanHighways | src/roomPlanner.ts:65-137 | nothing changes without intel or storage; otherwise every remote was visited |
| RoomPlanner.HighwaysPlannedForEveryRemote | src/roomPlanner.ts:65-137 | an existing highway is never replaced; a new one is stored exactly when planned |
| RoomPlanner.PlanRoads | src/roomPlanner.ts:140-161 | exactly the plan tiles of visible owned rooms without a road or road site |
| RoomPlanner.HighwayRoads | src/roomPlanner.ts:163-206 | exactly the highway tiles in visible (owned, for the last pass) rooms without a road or site |
| RoomPlanner.BuildRoads | src/roomPlanner.ts:139-207 | exactly the plan and highway tiles that lack a road, all in visible rooms |
| RoomPlanner.RunRoomPlanner | src/roomPlanner.ts:228-253 | owned rooms only; container, road, highway and road-building steps each on their own tick period; off the container tick the memo is exactly the invalidation's result, or unchanged; on it the memo only gains fresh road searches and every road path is the memo's answer |
| RoomPlanner.PlanningTicksBuildRoads | src/roomPlanner.ts:234-252 | every planning tick is also a road-building tick |
| MainLoop.CollectGarbage | src/main.ts:51-57 | every 100 ticks, exactly the dead creeps' memories go, the others unchanged; otherwise nothing changes |
| MainLoop.OwnedRoomsSpec | src/main.ts:60-62 | exactly the owned rooms |
| MainLoop.ManagerCallsLayout | src/main.ts:59-67 | three calls per owned room, in room order: spawn manager, defence manager, tower manager |
| MainLoop.ManagerCallsOwned | src/main.ts:59-67 | every manager call names an owned room |
| MainLoop.RunManagers | src/main.ts:59-67 | the calls are `ManagerCalls` |
| MainLoop.DispatchCallsSpec | src/main.ts:69-80 | spawning creeps get no call; a known role runs its handler; an unknown role gets a warning |
| MainLoop.DispatchCreeps | src/main.ts:69-80 | the calls are `DispatchCalls` |
| MainLoop.RunMainLoop | src/main.ts:49-84 | garbage collection, then manager calls, then dispatch, then statistics |
| MainLoop.MainLoopOrder | src/main.ts:49-84 | the statistics call is last and happens once; every manager call precedes every creep call |
| RoleSteps.Recover | src/utils/movement.ts:61-103 | the role's reaction to ERR_STUCK, as `Recovered` |
| RoleSteps.MoveRecovering | src/utils/movement.ts:19-54 | a move with stuck bookkeeping, then recovery exactly when stuck |
| RoleSteps.CommandRecovering | src/roles/hauler.ts:35-42 | the command, then a recovering move exactly when the answer is ERR_NOT_IN_RANGE |
| RoleSteps.NextPhase | src/roles/repairer.ts:10-17 | a full creep spends; an empty one that is not full gathers; otherwise the phase is kept |
| RoleSteps.ClosestByPath | src/roles/hauler.ts:27-33 | none iff there are no candidates; otherwise one of them |
| RoleSteps.ClosestByRange | src/roles/pioneer.ts:38 | the first object at the smallest range |
| RoleSteps.AdjacentContainer | src/roles/pioneer.ts:41-43 | a container within range 1 when one exists, none otherwise |
| Repairer.RepairCandidates | src/roles/repairer.ts:27-67 | only structures below 80% that are not walls; under attack, ramparts only below 30% |
| Repairer.ChosenTierAtMost | src/roles/repairer.ts:27-67 | a structure of urgency u makes the chosen tier at most u |
| Repairer.RepairCandidatesOfTier | src/roles/repairer.ts:27-67 | a structure is a candidate iff its urgency is the chosen tier |
| Repairer.RepairCandidatesMostUrgent | src/roles/repairer.ts:27-67 | the candidates are exactly the structures of the most urgent tier present; none only when nothing needs repair |
| Repairer.RepairStructures | src/roles/repairer.ts:26-86 | repair a candidate, else move to the first spawn, else idle |
| Repairer.FetchEnergy | src/roles/repairer.ts:88-116 | storage, else a store with energy, else a source, else idle |
| Repairer.Run | src/roles/repairer.ts:9-24 | the phase flip, then repair or fetch |
| Hauler.Consumers | src/roles/hauler.ts:27-33 | exactly the extensions, spawns and towers with free capacity |
| Hauler.Stocked | src/roles/hauler.ts:46-49 | exactly the containers with more than 200 energy |
| Hauler.ServeClosest | src/roles/hauler.ts:26-58 | the command on one candidate, or idle |
| Hauler.Run | src/roles/hauler.ts:9-24 | the phase flip, then deliver to consumers or withdraw from stocked containers |
| RemoteHauler.Stocked | src/roles/remoteHauler.ts:70-73 | exactly the containers with more than 100 energy |
| RemoteHauler.FetchEnergy | src/roles/remoteHauler.ts:26-90 | travel to the target, then dropped energy, then a stocked container, else idle |
| RemoteHauler.DeliverEnergy | src/roles/remoteHauler.ts:46-102 | travel home, then the storage, else a spawn, else idle |
| RemoteHauler.Run | src/roles/remoteHauler.ts:10-24 | the `isReturning` flip, then deliver or fetch |
| Pioneer.NearestSource | src/roles/pioneer.ts:38 | the source closest by range |
| Pioneer.NearestSite | src/roles/pioneer.ts:60 | the site closest by range to the source |
| Pioneer.RecycleSelf | src/roles/pioneer.ts:78-102 | no home: suicide; away: travel home; a spawn: recycle; else idle |
| Pioneer.BuildContainer | src/roles/pioneer.ts:37-76 | a finished container sets recycling; otherwise build a site, place one, or harvest |
| Pioneer.Run | src/roles/pioneer.ts:10-35 | recycling once set stays set |
| RemoteHarvester.WorkSource | src/roles/remoteHarvester.ts:39-84 | move to the container or source, repair a worn container, harvest and transfer |
| RemoteHarvester.Run | src/roles/remoteHarvester.ts:10-85 | missing memory: idle; away: travel; unresolved source: forget it; otherwise work |
| Defender.Run | src/roles/defender.ts:10-52 | no target: rally; unresolved: forget it; otherwise kite at range 3 |
| Scout.Run | src/roles/scout.ts:10-47 | no target: wander; away: travel; at target: idle |
| Reserver.Run | src/roles/reserver.ts:10-40 | no target: idle; away: travel; reserve the controller |
| RemoteDefender.NearestHostile | src/roles/remoteDefender.ts:24 | the hostile closest by range |
| RemoteDefender.Run | src/roles/remoteDefender.ts:10-43 | no target: idle; away: travel; attack the nearest hostile, else move to the centre |

## Left out

- The game engine: path search, `findRoute`, flee search and `getObjectById` are parameters (oracles), and the answer to each creep or structure command is a function from command to code.
- `findClosestByPath` is modelled as a nondeterministic choice among the candidates. It assumes every candidate is reachable, so the engine's null answer for unreachable targets is not modelled.
- `Math.random` in the stuck recovery is a nondeterministic choice of direction.
- Map iteration order in `buildRoads` is not modelled: road sites are stated as sets of tiles, not as an order.
- `statsManager`, `Logger`, the profiler, room visuals and `creep.say` have no effect on state and are left out.
- The legacy roles harvester, staticHarvester, builder and upgrader are outside this model.
- The `try`/`catch` fallback in `findPathWithCache` (a search stored without a structure hash) is not modelled, because it is reached only when the engine throws.
- `JSON.stringify` of the search options is an abstract string in the memo key.
- `src/main.ts` imports a `spawnManager` export that the spawn manager module does not provide, and it never calls `runRemoteManager` or `runRoomPlanner`. The model keeps each entry point separate.
- MainLoop.RunMainLoop records which handler each creep gets; it does not run the role modules itself.
- Aliasing between `Memory.creeps` and each creep's `memory` is not modelled; each creep carries its own memory.
- The remote harvester's `findInRange` uses the structures of the creep's current room.
- `global.intel` is read by the remote manager but never created there; the model takes it as present (`requires store.intel.Some?` on the remote manager's methods) and does not model a tick on which it is missing.
- Common.Range ignores room names: the engine's `getRangeTo` is infinite across rooms, but every range the model compares is between objects of one room. `World.InRange` does compare room names.
- PathCache.Cache.CleanCache (through PathCache.OldestKey and `EvictedOldest`): among entries with the same stamp, which ones are evicted is left unspecified. The source stable-sorts by stamp and so removes tied entries in key insertion order, where a key deleted and stored again on a miss moves to the end; the memo is modelled as an unordered map without that insertion order. Every miss of one tick carries the same stamp, so which later lookups still hit after a trim is not pinned down.
- Thresholds written with JavaScript floats (`0.8`, `0.1`) are stated over exact integers.
- `scripts/main.js` and the TypeScript declaration files are not part of this model.
