# Verified model of the CrawlStars game server

CrawlStars is a server-authoritative real-time game: a room store, one WebSocket session per client, a
fixed-rate simulation, and bots that fill up matches. This project models the parts of the server that hold
state, loops and interleavings, and proves what they keep in every run. `dafny verify dfyconfig.toml` checks
all of it.

| part | modules |
|---|---|
| tile map, world coordinates | Grid, World |
| bot navigation: search, heap, cache, steering, line of sight | PathSearch, OpenHeap, PathSearchMethod, PathCache, Steering, Supercover |
| map collision, swept movement, wall hits | MapCollision, Movement, MovementSafety, SegmentHit |
| a bot that is steered and moved arrives | Corridor, Arrival, BotRun, Approach |
| client session and publication queues | SessionProtocol, SessionSafety, SessionGuarantees, LiveSession, ObservationQueue, LiveObservation, LifecycleQueue |
| rooms and the store | RoomLifecycle, RoomEffects, RoomRegistry, StoreEffects, RoomGuarantees, LiveRoom |
| charges, bursts, dashes, swings, projectiles | AttackTimers, Combat, CircleContact, SkillDash, DashContact, TimedDash, Melee, ProjectileLife |
| exact cores | RateLimiter, GameEnd, TeamAssignment, SpawnAssignment |

How the code is modelled:

- float64 becomes `real` with the code's own epsilons; the square root is a parameter with the property that
  the library promises. The only heap algorithm the code imports, `container/heap`, is modelled with its own
  sift loops and verified.
- Code that changes fields or loops over collections is a class or a method with loops, proved against a
  function of the old state; what the code promises is then proved about that function.
- Code that several goroutines run at once is a state machine whose steps are the critical sections, channel
  operations and callbacks; lemmas about it quantify over every sequence of steps. The sections themselves
  also appear as methods that update the fields (LiveSession, LiveObservation, LiveRoom), proved equal to the
  state machine's steps.
- Clocks, random identities, authentication, I/O outcomes and the contacts of dashes with the map enter as
  parameters or as choices of the run.

Four results go against what one would expect of the code, and are stated exactly:

- The tick that a snapshot promises for the next attack is the right one if and only if the running burst, if
  any, is one of the player's own normal attack and no dash outlasts it
  (`AttackTimers.PromiseHoldsIffReliable`). A burst's promise takes the place of a longer dash's
  (`AttackTimers.DashOutlastsBurst`), and a skill's burst announces a lock that does not exist for a normal
  attack of another kind (`AttackTimers.SkillBurstLocksNothing`). Configuration validation admits both.
- Two live players that start apart do not always stay apart during a movement sweep. They do so if and only
  if neither sweep is a *grazing pass*: level to within the tolerance, overlapping across the axis, and passing
  through each other without a blocked contact. `MovementSafety.GrazingPassExample` runs one through the
  movement phase with float64 values and radii of 2^-21. The offset across the axis must then miss the radius
  sum R by at most 1e-24 / R (`MovementSafety.GrazingIsNarrow`), which no float64 does unless R is below
  1e-4; configuration validation admits such radii, the game's own are far larger.
- At an exact corner of the grid the bots' supercover lists both side cells, unless the segment ends in that
  corner with both coordinates falling: then it stops short of it and lists neither (`Supercover.Traverse`).
- Dealing a match's places by index is a bijection exactly on the indices below the sum of the team sizes;
  `matchTeamForPlayerIndex` answers every other index with no team.

## Model

| member | source | states |
|---|---|---|
| Grid.ManhattanAdmissible | internal/rooms/bot_pathfinding.go:284-286 | the search's heuristic never exceeds the true walking distance |
| PathSearch.NextTileCorrect | internal/rooms/bot_pathfinding.go:142-176 | on every map the search ends; it has no answer exactly when start is goal or the goal is unreachable, and otherwise answers the first tile of a shortest four-neighbour path |
| PathSearch.RoundKeeps | internal/rooms/bot_pathfinding.go:149-175 | one pass of the loop keeps the back pointers a tree with falling step counts, keeps every settled tile covered by the open set, and shrinks the termination measure even though stale heap entries stay |
| PathSearch.FirstStepWalks | internal/rooms/bot_pathfinding.go:288-300 | following back pointers from any settled tile ends, and gives the first tile of a walk of the recorded length |
| PathSearch.WalkFrontier | internal/rooms/bot_pathfinding.go:149-175 | every walk from the start crosses the open set at a node whose cost does not exceed the walk |
| PathSearch.RunCorrect | internal/rooms/bot_pathfinding.go:149-175 | from any state the loop can be in, what it ends with is the first tile of a shortest path, or nothing if there is none |
| PathSearch.LessIsTotal | internal/rooms/bot_pathfinding.go:29-40 | the heap order is a strict total order by f, h, row and column, so ties are broken the same way every time |
| PathSearch.NeighborsInOrder | internal/rooms/bot_pathfinding.go:58-63 | the neighbours are tried up, down, left, right |
| OpenHeap.OpenHeap.constructor | internal/rooms/bot_pathfinding.go:146-147 | a heap of one node is in heap order |
| OpenHeap.OpenHeap.Push | internal/rooms/bot_pathfinding.go:46-48 | pushing adds exactly the node and restores heap order |
| OpenHeap.OpenHeap.Up | internal/rooms/bot_pathfinding.go:29-44 | sifting up permutes the nodes and restores the order with all ancestors |
| OpenHeap.OpenHeap.Pop | internal/rooms/bot_pathfinding.go:50-56 | popping removes exactly one node, no other is less than it, and the rest is in heap order |
| OpenHeap.OpenHeap.Down | internal/rooms/bot_pathfinding.go:29-44 | sifting down permutes the nodes and restores the order with all descendants |
| PathSearchMethod.FirstStepTile | internal/rooms/bot_pathfinding.go:288-300 | the loop without a bound ends on the search's back pointers and finds the tile after the start |
| PathSearchMethod.ExpandNode | internal/rooms/bot_pathfinding.go:158-173 | trying the four neighbours updates heap, costs and back pointers together, each neighbour exactly when it is passable and got cheaper |
| PathSearchMethod.FirstBotPathStep | internal/rooms/bot_pathfinding.go:142-176 | the whole search with its heap and two maps answers as the shortest-path specification demands |
| PathCache.BotControllerState.constructor | internal/rooms/bot_controller.go:13-21 | a fresh bot state caches nothing |
| PathCache.BotControllerState.Clear | internal/rooms/bot_controller.go:534-542 | invalidation forgets the cached step |
| PathCache.BotControllerState.CachedBotPathDirection | internal/rooms/bot_controller.go:313-347 | over any sequence of calls on one map the cached direction is the one computed without a cache, failures included |
| Steering.GeometryIs | internal/rooms/bot_pathfinding.go:244-269 | bots steer exactly on maps that are non-empty rectangles, with the default tile size if none is given |
| Steering.StepIsPlanned | internal/rooms/bot_controller.go:349-362 | bots plan with a positive step, which in a tick rate's ticks makes the speed |
| MapCollision.CandidatesCover | internal/simulation/map_collision.go:56-91 | a tile whose box meets the rectangle is never pruned, wherever the rectangle lies |
| MapCollision.CircleCandidatesCover | internal/simulation/map_collision.go:35-45 | a tile that a circle touches is among the circle's candidates |
| MapCollision.CollidesWithMap | internal/simulation/simulation.go:741-798 | the server's pruned test hits exactly when the circle leaves the map or touches a blocking tile anywhere |
| MapCollision.BotMapCollidesWithPlayer | internal/rooms/bot_pathfinding.go:472-508 | the bots' full scan decides the very same question, so the two agree for all positions and radii |
| MapCollision.CollidesAtPoint | internal/simulation/simulation.go:741-798 | a circle collides with the map exactly if one of its points is off the map, which is centred on the origin, or in the box of a blocking tile |
| MapCollision.TouchesAtPoint | internal/simulation/simulation.go:785-798 | comparing with the nearest point of the box decides exactly whether circle and tile share a point |
| SegmentHit.SlabIsExact | internal/simulation/melee.go:165-181 | one slab keeps exactly the instants inside it, parallel segments included |
| SegmentHit.HitIsFirstInside | internal/simulation/melee.go:152-163 | the hit is the least instant of the segment inside the box, and there is none exactly when the segment misses it |
| SegmentHit.HitTileIsCandidate | internal/simulation/map_collision.go:47-54 | a tile that the segment hits is among the segment's candidates |
| SegmentHit.FirstBlockingSegmentT | internal/simulation/melee.go:63-119 | the pruned loop finds the least of the map edge's crossings and of the hits of all wall tiles of the map |
| SegmentHit.EdgeTimeIsExit | internal/simulation/melee.go:80-91 | the edge time is when the segment leaves the map on that axis, if it does |
| SegmentHit.SightIsClearBefore | internal/simulation/melee.go:63-119 | an instant is before the blocking one exactly when up to it the segment meets no box of a wall tile and has not reached the edge of the map it heads for |
| Movement.MarkCollisions | internal/simulation/simulation.go:550-559 | the pairwise pass blocks exactly the live players that collide with another live one on this axis |
| Movement.ResolvePlayerMovementAxis | internal/simulation/simulation.go:540-567 | on one axis every blocked player is back at its origin and every other at its target |
| Movement.PreparedInputForPlayer | internal/simulation/simulation.go:531-538 | a player moves by the first input prepared for it, or not at all |
| Movement.ApplyPlayerMovement | internal/simulation/simulation.go:491-529 | the movement phase sweeps all players along x with the wall test and the pairwise pass, then along y from there, and changes nothing but positions |
| MovementSafety.WallClearAfterMovement | internal/simulation/simulation.go:491-529 | with any number of players, whoever was clear of the walls is clear after the movement phase |
| MovementSafety.MinimumIsLowerBound | internal/simulation/simulation.go:569-606 | the swept minimum distance is a lower bound of the pair's distance at every instant of the sweep |
| MovementSafety.CollidesExactly | internal/simulation/simulation.go:569-606 | the pair test, as geometry: a pair beyond the contact distance collides exactly if some instant of its sweep brings it within it, and a nearer pair exactly unless it ends further apart without ever coming nearer, each to within the tolerance |
| MovementSafety.FreePlayerMoves | internal/simulation/simulation.go:491-567 | with any number of players, one that stays beyond the contact distance of every other live player in both sweeps moves as the walls allow, and by its whole movement if none stops it |
| MovementSafety.IdlePlayerStays | internal/simulation/simulation.go:491-567 | a player without an input stays where it is |
| MovementSafety.GrazingIsNotBlocked | internal/simulation/simulation.go:569-606 | a grazing pass is not reported as a collision and does bring the circles' interiors together |
| MovementSafety.ResolvedSweep | internal/simulation/simulation.go:540-606 | after the pairwise pass two players stay apart along the whole sweep exactly when their sweep is not a grazing pass |
| MovementSafety.TwoPlayersStayApart | internal/simulation/simulation.go:491-606 | two live players that start apart stay apart at every instant of both sweeps if and only if neither sweep is a grazing pass |
| MovementSafety.GrazingIsNarrow | internal/simulation/simulation.go:569-606 | players that start apart can only graze if their offset across the axis misses the radius sum R by at most 1e-24 / R |
| MovementSafety.GrazingPassExample | internal/simulation/simulation.go:491-606 | grazing passes happen to players: with float64 values, on a map without walls, a player that starts apart from another steps through it in the movement phase |
| MovementSafety.LoneMovement | internal/simulation/simulation.go:491-529 | for the only live player the phase reduces to the two wall tests |
| Corridor.TileIffBetweenEdges | internal/rooms/bot_pathfinding.go:86-99 | the bot's tile is the one between whose edges it stands, and it has none exactly off the map |
| Corridor.CenteringXKeepsClear | internal/rooms/bot_pathfinding.go:302-339 | centring towards a column's middle never hits a wall and stays in the tile |
| Corridor.CenteringYKeepsClear | internal/rooms/bot_pathfinding.go:302-339 | centring towards a row's middle never hits a wall and stays in the tile |
| Corridor.AdvancingXKeepsClear | internal/rooms/bot_pathfinding.go:302-339 | a centred full step towards the next passable tile of the row never hits a wall and ends in one of the two tiles |
| Corridor.AdvancingYKeepsClear | internal/rooms/bot_pathfinding.go:302-339 | the same along a column |
| Arrival.TickProgresses | internal/rooms/bot_controller.go:299-347 | one tick of search, steering and server movement keeps the bot clear and brings it closer to the tile's middle, or nearer to the next tile, or into it |
| Arrival.TickSpendsBudget | internal/rooms/bot_pathfinding.go:114-140 | every tick away from the goal tile lowers the bound on the remaining ticks |
| Arrival.PathArrives | internal/rooms/bot_pathfinding.go:114-140 | a bot that only walls can block and that fits the corridors reaches every reachable goal tile within distance times ticks per tile, and is clear of the walls at every tick until then |
| BotRun.BotArrives | internal/simulation/simulation.go:491-529 | the arrival theorem for the movement phase of all players in which the bot is the only one alive: it reaches every reachable goal tile within distance times ticks per tile, and is clear of the walls at every tick until then |
| BotRun.RunBot | internal/rooms/bot_controller.go:313-347 | the ticks made with the cached direction and the in-place movement phase are, for any truthful cache, exactly the run that arrives |
| Approach.DirectionExists | internal/rooms/bot_pathfinding.go:114-140 | there is a direction exactly if the bot and the goal stand on passable tiles that are connected |
| Approach.DirectionInGoalTile | internal/rooms/bot_pathfinding.go:341-349 | inside the goal's tile the direction is the unit vector from the bot to the goal, and to the right when it stands on the goal |
| Approach.ClampedDirection | internal/simulation/simulation.go:838-855 | the server takes a direction within the unit circle as it is and shortens a longer one to a unit vector |
| Approach.BotClosesIn | internal/simulation/simulation.go:491-529 | inside the goal's tile with no wall in between, after n ticks whose steps are no longer than the distance was, the distance left is the distance less these n steps |
| Supercover.FrontierAdvances | internal/rooms/bot_pathfinding.go:413-448 | whichever branch a step takes, the crossings made so far stay before the next ones, near ties included |
| Supercover.StepsSuffice | internal/rooms/bot_pathfinding.go:406-413 | as long as a crossing is due, fewer steps than the bound have been made, so the bound never ends the loop |
| Supercover.Traverse | internal/rooms/bot_pathfinding.go:371-449 | the list has no duplicates, and for displacements below 1e12 tiles it holds the tile of every instant of the segment, of every exact corner both side cells unless the segment stops short in it and then neither, and no tile further off than the tie tolerance |
| Supercover.SupercoverTiles | internal/rooms/bot_pathfinding.go:351-449 | the same for a world segment; a start off the map gives no tiles |
| Supercover.SegmentTiles | internal/rooms/bot_pathfinding.go:361-369 | the instants' tiles are the tiles that the bot assigns to the segment's points |
| SessionSafety.DoKeeps | internal/rooms/websocket.go:396-649 | every channel operation of producers, writer and closer keeps the queues bounded, the approvals accounted for, and the ticks on their way in order |
| SessionGuarantees.SessionOrdering | internal/rooms/websocket.go:396-488 | in every interleaving written gameplay ticks strictly increase, the commands accepted by the control queue, approvals and messages alike, are those written, in flight and queued in that order, the pending count is the approvals queued or in flight, while it is positive the snapshot slot is empty, and while the session is open the newest tick is on its way or written unless it is an approval that found the control queue full |
| SessionGuarantees.AcceptedGrows | internal/rooms/websocket.go:442-518 | a command is accepted exactly by the step that sends it while there is room |
| SessionGuarantees.SendsNeverWait | internal/rooms/websocket.go:416-547 | no send made while holding the mutex can block, and the control queue never exceeds its capacity |
| SessionGuarantees.StepOnScript | internal/rooms/websocket.go:563-649 | after the terminal handoff no step changes the remaining output except by writing its head |
| SessionGuarantees.EndingFollowsScript | internal/rooms/websocket.go:563-622 | after the handoff, absent I/O failures, everything written is a prefix of: the command in flight, the accepted queue, terminal snapshot, result, close |
| SessionGuarantees.WriterCanMove | internal/rooms/websocket.go:563-600 | until the session has ended the writer, or the section it waits for, has a step to take exactly unless it waits with nothing to receive; after the handoff it always has one of its own |
| SessionGuarantees.WriterPolls | internal/rooms/websocket.go:563-600 | a writer at the top of its loop leaves a session that is done, and otherwise takes the oldest control command, else the terminal, and waits only if there is neither |
| SessionGuarantees.SnapshotCompletes | internal/rooms/websocket.go:396-429 | step by step, an undisturbed snapshot ends up in the slot, whatever was there, or deferred |
| SessionGuarantees.ApprovalCompletes | internal/rooms/websocket.go:431-464 | step by step, an undisturbed approval clears slot and deferred snapshot and is queued if there is room |
| SessionGuarantees.ControlCompletes | internal/rooms/websocket.go:500-518 | step by step, a control message is queued if there is room and nothing else changes |
| SessionGuarantees.TerminalCompletes | internal/rooms/websocket.go:520-547 | step by step, the terminal clears slot and deferred snapshot and is handed over |
| SessionGuarantees.CloseEnds | internal/rooms/websocket.go:563-649 | closing makes a sender that waits for the slot give up and the writer leave before its next write |
| SessionGuarantees.EndingCompletes | internal/rooms/websocket.go:602-622 | the writer alone completes that output in a bounded number of steps and stops |
| LiveSession.ClientSession.EnqueueSnapshot | internal/rooms/websocket.go:396-429 | the newest snapshot takes the slot, or waits behind outstanding approvals; after the terminal or the close nothing changes |
| LiveSession.ClientSession.EnqueueSkillApprovalSnapshot | internal/rooms/websocket.go:431-464 | an approval supersedes waiting snapshots and is queued and counted exactly when there is room, and asks for the close otherwise |
| LiveSession.ClientSession.TryEnqueueControl | internal/rooms/websocket.go:500-518 | a control message that is reported queued is at the queue's end, it is queued exactly when there is room and the session goes on, and otherwise nothing changes |
| LiveSession.ClientSession.EnqueueTerminal | internal/rooms/websocket.go:520-547 | the first terminal of an open session is handed over and clears waiting snapshots; later ones are refused |
| LiveSession.ClientSession.CompleteReliableSnapshot | internal/rooms/websocket.go:466-488 | the last approval written releases the deferred snapshot, unless the session is ending |
| ObservationQueue.PublicationGuarantees | internal/rooms/observer.go:77-155 | with any number of publishers there is one drainer at most, queued work always has one, nobody returns before its own item is handled, and per kind the observer hears strictly newer sequences |
| ObservationQueue.CommitEffect | internal/rooms/observer.go:77-91 | a commit moves its own counter, never below zero, and the thread comes to hold the transition numbered next |
| ObservationQueue.NobodyStranded | internal/rooms/observer.go:100-155 | a waiting publisher always has its own item queued or in delivery, there is a drainer, and that drainer alone releases it within two steps for every item before its end |
| ObservationQueue.GaugesSettle | internal/rooms/observer.go:100-155 | once everything committed has been published each gauge shows its counter |
| LiveObservation.ObservationState.Transition | internal/rooms/observer.go:77-91 | a commit moves one counter, never below zero, and numbers the transition |
| LiveObservation.ObservationState.Publish | internal/rooms/observer.go:100-155 | the drain loop handles all that is pending in order, tells the observer what is not stale, and leaves the queue idle |
| LiveObservation.ToldOnlyNewer | internal/rooms/observer.go:133-147 | in whatever order transitions were queued, per kind the observer hears increasing sequences and in the end the newest |
| LiveObservation.NewestIsTold | internal/rooms/observer.go:133-147 | nothing is heard that was not queued, and the newest of every kind is heard of unless it was before |
| LifecycleQueue.LifecycleOrder | internal/rooms/websocket.go:278-351 | publications come out in the order prepared, so connected before disconnected even if it becomes ready last; a ready head always has a drainer; nobody returns before its own entry is published |
| LifecycleQueue.NobodyStranded | internal/rooms/websocket.go:278-351 | a waiting thread always has its own entry queued or being published, and once nothing before it is unready there is a drainer that alone releases it in a bounded number of steps |
| LifecycleQueue.EnqueueEffect | internal/rooms/websocket.go:278-299 | a ready publication joins the queue, and its thread drains exactly if the queue was empty and nobody drains, and waits otherwise |
| LifecycleQueue.MakeReadyEffect | internal/rooms/websocket.go:301-323 | whoever makes a prepared publication ready drains exactly if it is the head and nobody drains, and waits otherwise |
| LifecycleQueue.DrainEffect | internal/rooms/websocket.go:325-351 | the drainer publishes a ready head, tells its thread, and gives up draining when the head is not ready |
| LifecycleQueue.QuiescentQueue | internal/rooms/websocket.go:316-351 | with nobody inside a publish call nothing ready is left over |
| RoomLifecycle.SectionKeeps | internal/rooms/store.go:772-988 | every section that holds a room's mutex keeps the room sound: status never goes back, timers belong to their phase, none is lost or stopped twice, and the connected counter moves as the clients do |
| RoomLifecycle.AdvanceAccounts | internal/rooms/websocket.go:1577-1597 | a matched room with every human attached goes on to loading, or straight to the countdown if all are ready, and exchanges its deadline for the next phase's timer |
| RoomLifecycle.ArmAccounts | internal/rooms/store.go:964-980 | creating a ticker loses none, provided the field is free, and a failed launch hands the new one over to be stopped |
| RoomLifecycle.RemoveAccounts | internal/rooms/cleanup.go:449-492 | removal hands over every timer that the room holds and forgets its clients and reservations |
| RoomLifecycle.SectionPlayers | internal/rooms/store.go:1313-1340 | a section changes the participants only by appending its own newcomers |
| RoomEffects.MarkReadyEffect | internal/rooms/websocket.go:1199-1258 | a ready message in time from the player's session is recorded, the last one of a loading room starts the countdown with its timer, a late one removes the room, and any other does nothing |
| RoomEffects.ReserveEffect | internal/rooms/websocket.go:891-931 | a reservation is made exactly for an admitted human who has neither a session nor a reservation |
| RoomEffects.AttachEffect | internal/rooms/websocket.go:993-1056 | a session takes its reservation's place, and the last one that a matched room waits for takes it on to loading or the countdown, with the timer of that phase |
| RoomEffects.ReleaseEffect | internal/rooms/websocket.go:1076-1141 | a session's end forgets connection and ready message, and removes a room whose match has not started |
| RoomEffects.JoinEffect | internal/rooms/store.go:721-789 | the first human of a room arms the bot-fill timer, the one that fills it matches it with the attach deadline instead |
| RoomEffects.AddBotsEffect | internal/rooms/store.go:514-604 | bots that fill a room match it and take it on to loading if every human is attached, and more bots than places change nothing |
| RoomEffects.FillBotsEffect | internal/rooms/store.go:857-939 | the bot-fill timer is spent in any case and fills the room if its bots could be chosen |
| RoomEffects.RemovalEffect | internal/rooms/cleanup.go:255-304 | a deadline, the end of a game, deletion, expiry and shutdown remove a room entirely or do nothing, and an idle room with sessions or reservations goes only at its hard lifetime |
| RoomEffects.CountdownEffect | internal/rooms/websocket.go:1317-1351 | only the countdown's own timer counts down, and its last tick starts the match |
| RoomEffects.StartNowEffect | internal/rooms/store.go:1065-1097 | starting a room with participants at once leaves it with its gameplay timer alone |
| RoomEffects.ArmEffect | internal/rooms/store.go:964-980 | a timer is armed if its worker can be launched, and otherwise its ticker is stopped or handed over and the field stays free |
| RoomEffects.GameplayEffect | internal/rooms/websocket.go:1353-1460 | a gameplay tick ends a started match exactly on its terminal snapshot |
| RoomRegistry.DoKeeps | internal/rooms/store.go:482-604 | every section of the store keeps registry, identities, counters and timers consistent, whatever work threads owe in between |
| RoomRegistry.DeregisterKeeps | internal/rooms/store.go:394-415 | a removed room is still registered when its remover comes to deregister it, so its identities are released |
| RoomRegistry.SettleKeeps | internal/rooms/store.go:482-512 | identities move between a thread, a room and the release list without ever being shared or lost |
| RoomRegistry.CreateMatchRoomKeeps | internal/rooms/store.go:791-826 | opening a room with its first human keeps all of this |
| StoreEffects.CreateRoomEffect | internal/rooms/store.go:284-309 | a room opens, empty and registered under its own name, exactly while the store is open and below its limit; otherwise nothing changes |
| StoreEffects.CreateMatchRoomEffect | internal/rooms/store.go:791-831 | a match room opens with its first human in it, waiting for bots, or matched if it has one place only |
| StoreEffects.OpenStoreAdmits | internal/rooms/store.go:482-604 | in an open store a registered room's sections run exactly if humans bring issued credentials and bots unused identities |
| StoreEffects.InRoomEffect | internal/rooms/store.go:394-418 | a section changes its own room only, takes its newcomers' identities in and sends a refused one back, and a room it removes is deregistered at once or owed to be, with its identities |
| StoreEffects.DeregisterEffect | internal/rooms/store.go:394-418 | paying that debt frees the name and hands the room's identities on to be released |
| StoreEffects.StopTimerEffect | internal/rooms/cleanup.go:255-304 | a handed over timer is stopped once and no other is |
| RoomGuarantees.StatusOnlyAdvances | internal/rooms/websocket.go:1260-1351 | over any run a room's match status only advances, and a removed room never changes again |
| RoomGuarantees.MatchStatusGuarantees | internal/rooms/websocket.go:1577-1632 | matched, loading and starting rooms are exactly full; loading and starting ones that are not removed have every human attached; starting ones have every human ready |
| RoomGuarantees.NoRoomIsStuck | internal/rooms/ready_deadline.go:7-25 | a timer runs only in its own phase; no room waits for attachments or ready messages that are already there; and while workers can be launched every waiting room has its deadline, countdown or gameplay timer |
| RoomGuarantees.ReadyMessagesStart | internal/rooms/websocket.go:1199-1298 | over any run of the store, once every human of a loading room has sent its ready message in time the countdown has started, unless the room has been removed |
| RoomGuarantees.CountdownStartsMatch | internal/rooms/websocket.go:1325-1351 | a countdown takes exactly as many ticks as it shows and then starts the match |
| RoomGuarantees.FillingMatches | internal/rooms/store.go:951-959 | whoever fills a forming room takes it out of the forming phase in the same section |
| RoomGuarantees.DueDeadlineCancels | internal/rooms/ready_deadline.go:35-105 | a due attach or ready deadline removes the room with its clients, reservations and timers |
| RoomGuarantees.TimersStopOnce | internal/rooms/cleanup.go:505-512 | no stop channel is closed twice, none is closed while a room still uses it, and once nobody owes anything each timer is either in use or stopped |
| RoomGuarantees.QuiescentConservation | internal/rooms/cleanup.go:313-366 | with no work outstanding the identities in use are the disjoint union of the registered rooms' participants, the counters equal registered rooms and attached clients, and every timer not in use was stopped exactly once |
| RoomGuarantees.ShutdownEmpties | internal/rooms/cleanup.go:38-123 | however shutdown interleaves with other threads, once it has visited every room and nobody owes anything, the registry, identities and counters are empty and every timer is stopped |
| LiveRoom.Room.AllMatchClientsAttached | internal/rooms/websocket.go:1599-1615 | all are attached exactly when the room is full, has a human, and every human has a session |
| LiveRoom.Room.AllMatchPlayersReady | internal/rooms/websocket.go:1617-1632 | the same for ready messages |
| LiveRoom.Room.MatchmakingHumanCount | internal/rooms/store.go:941-949 | counts the participants that are no bots |
| LiveRoom.Room.ArmBotFillLocked | internal/rooms/store.go:833-847 | the bot-fill timer is armed only for the first human of a waiting room that has none |
| LiveRoom.Room.ArmMatchedAttachDeadlineLocked | internal/rooms/store.go:964-980 | the attach deadline is armed only in a matched room with humans that has none |
| LiveRoom.Room.ArmReadyDeadlineLocked | internal/rooms/ready_deadline.go:7-25 | the ready deadline is armed only in a loading room that still waits for a human |
| LiveRoom.Room.MarkRoomMatchedIfFullLocked | internal/rooms/store.go:951-959 | exactly a full room becomes matched, with ready messages cleared |
| LiveRoom.Room.AdvanceMatchLoadingLocked | internal/rooms/websocket.go:1577-1597 | the in-place transition is the one that the lifecycle lemmas are about |
| LiveRoom.Room.StartMatchCountdownLocked | internal/rooms/websocket.go:1264-1280 | the countdown replaces the ready deadline |
| LiveRoom.Room.StartRoomLocked | internal/rooms/store.go:1368-1402 | starting stops the countdown and runs one gameplay timer |
| LiveRoom.Room.RemoveRoomLocked | internal/rooms/cleanup.go:449-492 | the in-place removal hands over all five timers |
| LiveRoom.Room.TryJoinMatchmaking | internal/rooms/store.go:772-789 | a human's join, with the matching and bot-fill consequences of each case |
| LiveRoom.Room.AppendBots | internal/rooms/store.go:575-592 | appended bots match a full room and advance it if everybody is attached |
| LiveRoom.Room.AttachClientSession | internal/rooms/websocket.go:1022-1047 | attaching consumes the reservation, counts the client and may complete the wait |
| LiveRoom.Room.ReleaseClient | internal/rooms/websocket.go:1098-1133 | a session's end forgets client and ready flag, and cancels a match that has not started |
| LiveRoom.Room.MarkClientReady | internal/rooms/websocket.go:1244-1252 | the last ready message of a loading room starts the countdown |
| AttackTimers.NextChargeIsExact | internal/simulation/simulation.go:253-290 | in every future run without a reload dash, the tick that the snapshot promises is exactly the next one at which a charge is restored |
| AttackTimers.ChargePromised | internal/simulation/simulation.go:275-290 | a charge is promised exactly while one is missing, and within the recharge time |
| AttackTimers.AttackRateBound | internal/simulation/simulation.go:608-643 | in T ticks with k approved reload dashes at most (k + 1) * MaxCharges + T / RechargeTicks attacks are granted |
| AttackTimers.ReloadBound | internal/simulation/skill.go:3-16 | and at most one reload dash is approved in every started cooldown of the run |
| AttackTimers.OffsetsIncrease | internal/simulation/game_config.go:579-595 | a validated schedule, by interval or by offsets, has strictly increasing shot times |
| AttackTimers.OffsetsAre | internal/simulation/game_config.go:579-595 | a shot comes at its listed offset, or without a list at a multiple of the interval |
| AttackTimers.RunSound | internal/simulation/simulation.go:204-251 | in every run of a player a dash has as many ticks left as its ready tick says, a burst is on its schedule and unfinished, and both come from the player's configuration |
| AttackTimers.BurstRuns | internal/simulation/normal_attack.go:179-217 | a burst by an attack or a skill that neither death nor another skill burst ends is in place exactly until its last shot, and if the normal attack is a burst no attack is granted meanwhile |
| AttackTimers.BurstPromises | internal/simulation/normal_attack.go:123-217 | such a burst emits ordinal k at activation plus its offset and at no other tick; if the normal attack is a burst, attacks are refused without spending a charge until the tick after the last shot, and then only a dash in progress and the charges decide |
| AttackTimers.DashPromises | internal/simulation/simulation.go:467-470 | unless death or a collision ends it, a dash refuses every attack and skill free of charge until exactly its ready tick, and then only the player's own burst and the charges decide |
| AttackTimers.PromiseHoldsIffReliable | internal/simulation/simulation.go:253-273 | in every undisturbed run attacks are locked before exactly the tick that the snapshot promises if and only if a running burst is one of the normal attack and no dash outlasts it |
| AttackTimers.AttackPromise | internal/simulation/simulation.go:253-273 | where that holds, attacks are refused without cost until exactly the promised tick, and then only the charges decide |
| AttackTimers.DashOutlastsBurst | internal/simulation/simulation.go:259-273 | a run in which the promised tick comes and a charged attack is refused because of a dash |
| AttackTimers.SkillBurstLocksNothing | internal/simulation/normal_attack.go:123-128 | a run in which an attack is granted sixteen ticks before the promised tick |
| Combat.DueEmissionsExact | internal/simulation/normal_attack.go:179-228 | a tick's scheduled emissions are exactly the due shots of living owners, one each, in owner order |
| Combat.CombatState.RechargeAttackCharges | internal/simulation/simulation.go:608-633 | every player's charges recharge by their own limits, whatever order the map is walked in |
| Combat.CombatState.ConsumeAttackCharge | internal/simulation/simulation.go:635-643 | a charge is spent exactly when there is one |
| Combat.CombatState.OrderedBurstOwnerIDs | internal/simulation/normal_attack.go:219-228 | the owners of running bursts, each once, in ascending order |
| Combat.CombatState.CollectDueBurstEmissions | internal/simulation/normal_attack.go:179-208 | dead owners' bursts are dropped, due shots are emitted and counted, the rest is untouched |
| Combat.CombatState.TryApproveSkill | internal/simulation/skill.go:3-16 | a skill is approved exactly when its cooldown is over, and starts a new one |
| Combat.CombatState.DispatchApprovedSkill | internal/simulation/skill.go:22-73 | an approved skill does to its own player's gun what its kind says, and fires its first shot |
| Combat.CombatState.PrepareTimedDash | internal/simulation/timed_dash.go:13-30 | before the movement only a reload dash is approved, and only for a player that is not dashing |
| Combat.CombatState.ApproveAttack | internal/simulation/normal_attack.go:123-164 | a burst in progress refuses another before a charge is spent; a granted attack spends one and starts its burst |
| Combat.CombatState.ApplyPreparedInput | internal/simulation/simulation.go:467-489 | a dashing player gets and pays nothing, an approved skill takes precedence over the attack, and nobody else is affected |
| Combat.CombatState.StepDashTimers | internal/simulation/timed_dash.go:32-60 | every dash has one segment less to go, and ends with its last one, a collision or its owner's death |
| Combat.CombatState.ProjectPlayer | internal/simulation/simulation.go:253-290 | the snapshot tells a living player the tick after its burst, else its dash's ready tick, else none, and a dead one none, whose dash is cleared |
| Combat.CombatState.FinishCompletedBursts | internal/simulation/normal_attack.go:210-217 | exactly the completed bursts are removed |
| Combat.FiredByExact | internal/simulation/normal_attack.go:123-164 | each player fires ordinal 0 at once exactly if its own input activates a shot, and then once |
| Combat.FiresAtOnce | internal/simulation/simulation.go:467-489 | a shot is fired at once exactly by a due shooting skill or a granted burst attack of a player that is not dashing, and its burst starts at that tick |
| Combat.SkillGoesFirst | internal/simulation/simulation.go:471-475 | a due skill pressed together with an attack is used, and costs no charge |
| Combat.CombatState.Advance | internal/simulation/simulation.go:204-251 | in a whole tick every player's charges, burst, dash and cooldown take their own tick, independently of all others, and the shots of the tick are the due ones and those fired at once |
| SkillDash.RoundFinds | internal/simulation/skill_dash.go:75-138 | a round records a time within the tolerance of the earliest report, and only contacts of moving dashers at that time |
| SkillDash.RecordWindow | internal/simulation/skill_dash.go:78-90 | a report counts exactly if it lies in the rest of the tick, to within the tolerance |
| SkillDash.RoundStops | internal/simulation/skill_dash.go:140-168 | every round with a contact stops at least one dasher, so the loop ends |
| SkillDash.EarliestContacts | internal/simulation/skill_dash.go:75-138 | the three scans and the pair scan record all reports, each in turn |
| SkillDash.ReportsExact | internal/simulation/skill_dash.go:92-138 | the scans report exactly the contacts of each moving dasher with the map and the players that do not dash, with each stopped dasher, and of each two moving ones |
| SkillDash.GlobalTimeIsThere | internal/simulation/skill_dash.go:181-191 | the local time of a contact on the rest of the way becomes the time at which the dasher is there |
| SkillDash.ApplySkillDashes | internal/simulation/skill_dash.go:73-179 | the loop over candidates in place resolves all dashes of a tick |
| SkillDash.DashesResolve | internal/simulation/skill_dash.go:73-179 | every dasher ends between its origin and its target, at the target unless it met something; the earliest contact stops its participants exactly there, and nobody stops earlier |
| CircleContact.HitIsFirstTouch | internal/simulation/melee.go:121-150 | unless a start outside the circle only grazes it, the hit is the first instant of the segment that touches the circle, to within 1e-12, and without a hit none does |
| CircleContact.SegmentClearance | internal/simulation/melee.go:121-127 | what the quadratic measures is the squared distance of the segment's point from the centre, less the squared radius |
| CircleContact.GrazingIsClosest | internal/simulation/melee.go:135-149 | a grazing segment is taken to touch at its instant closest to the circle, where the clearance is within the relative tolerance |
| CircleContact.ContactIsFirstTouch | internal/simulation/skill_dash.go:193-208 | two moving circles that start apart meet at the first instant at which they touch, or not at all, and two in contact are let go exactly if they move apart |
| CircleContact.LetGoMovesApart | internal/simulation/skill_dash.go:198-206 | circles in contact that are let go never come closer than they start |
| DashContact.MovingDashersStayApart | internal/simulation/skill_dash.go:92-168 | up to the event that a round of the loop finds, two moving dashers that are apart stay apart, and two in contact come no closer, at every time and not only at the events |
| DashContact.StoppedDashersAreAvoided | internal/simulation/skill_dash.go:105-113 | the same for a moving dasher and one that has stopped |
| Melee.DamageRules | internal/simulation/combat_rules.go:3-12 | nobody damages itself or the dead, and friends are spared exactly between two teams without friendly fire |
| Melee.ReachIsRange | internal/simulation/melee.go:45-48 | a swing goes its range in its direction |
| Melee.FirstMeleeTarget | internal/simulation/melee.go:41-61 | the loop finds the first player in list order that the owner may damage and the swing touches before a wall or edge blocks it |
| Melee.TargetIsUnique | internal/simulation/melee.go:41-61 | no other player, and no other blocking instant, satisfies that |
| Melee.NobodyIsHitThroughWalls | internal/simulation/melee.go:41-119 | up to the instant at which a swing hits it has met no box of a wall tile and not reached the edge of the map it heads for |
| Melee.InReachIsHit | internal/simulation/melee.go:41-119 | a player that a swing touches while its way is clear for a little longer is hit, or one before it in the list |
| Melee.ApplyMeleeIntents | internal/simulation/melee.go:17-39 | every swing is aimed at the players as they were before all of them, and then each player takes the sum |
| Melee.StrikesAddUp | internal/simulation/melee.go:17-39 | the sum is that of the strikes that the tick hands on |
| Melee.StruckLosesAll | internal/simulation/melee.go:30-38 | it is taken down to zero, at which the player is dead |
| TimedDash.TimedDashes.StepTimedDashes | internal/simulation/timed_dash.go:32-60 | each living dasher moves as resolved and its dash counts down or ends, dashes of the dead are cleared, and nobody else moves |
| TimedDash.StepIsWithin | internal/simulation/timed_dash.go:32-54 | one tick moves a dasher by at most its step, and by exactly its step unless it collides |
| TimedDash.DashTimes | internal/simulation/timed_dash.go:32-54 | while a dash runs its remaining ticks are its ready tick minus the current tick minus one, and undisturbed it runs exactly its duration |
| TimedDash.TimersAgree | internal/simulation/timed_dash.go:32-60 | the time of a dash that moves a player is the one that locks its attacks |
| TimedDash.DashPositions | internal/simulation/timed_dash.go:32-60 | over all ticks of one dash, whatever the other players do, the player's position is on the straight line of its direction, on schedule until it meets something, never further than the configured distance, and exactly that far after an undisturbed full duration |
| ProjectileLife.PrunedExact | internal/simulation/simulation.go:303-339 | pruning keeps exactly the live projectiles and the tombstones still in their window, in order, with their ticks |
| ProjectileLife.StepKeeps | internal/simulation/simulation.go:204-251 | after every tick the runtime book holds exactly the live projectiles and the destroyed book exactly the tombstones, travel is within range, hits are by distinct projectiles, and a player is at zero exactly when dead |
| ProjectileLife.RunKeeps | internal/simulation/simulation.go:645-716 | the same over any run, with players moving and rules changing from tick to tick, and the dead stay dead |
| ProjectileLife.NoneBeyondRange | internal/simulation/simulation.go:645-685 | in every snapshot every projectile, tombstones included, is on the straight path of its shot and at most its range from where it was emitted, and a live one exactly as far as its runtime has counted |
| ProjectileLife.HealthIsPaid | internal/simulation/simulation.go:687-716 | over any run each player has lost exactly the damage of the recorded hits on it and of the strikes against it, down to zero |
| ProjectileLife.HitEffect | internal/simulation/simulation.go:705-716 | a hit takes its damage from its target, down to zero and death, and from nobody else, and moves at most the living owner of a teleporting projectile |
| ProjectileLife.HitTeleports | internal/simulation/simulation.go:705-716 | a hit of a projectile that teleports takes its living owner to the place found behind the target, as the damage has left the players |
| ProjectileLife.FlightEffect | internal/simulation/simulation.go:645-685 | a live projectile goes its step, and survives exactly if nothing blocks it there, it touches nobody it may hit, and its range goes on |
| ProjectileLife.FlightIs | internal/simulation/simulation.go:652-661 | the step is speed times tick, or what is left of the range when that is no more to within the tolerance |
| ProjectileLife.TargetIsLeast | internal/simulation/simulation.go:687-703 | the target has the least id of those the projectile may hit and touches, and there is none exactly if there are none |
| ProjectileLife.TouchingOverlap | internal/simulation/simulation.go:857-869 | circles that share a point overlap |
| ProjectileLife.OverlapTouches | internal/simulation/simulation.go:857-869 | and circles that overlap share a point, up to the tolerance |
| ProjectileLife.LiveOnesFly | internal/simulation/simulation.go:645-685 | a projectile that survives a tick is speed times tick further along its direction, and its book says so |
| ProjectileLife.ShotsFly | internal/simulation/normal_attack.go:240-273 | after a tick each of its shots is a live projectile of its own at its origin, with its full range |
| ProjectileLife.PlacesTaken | internal/simulation/simulation.go:491-529 | after a tick a player stands where its movement took it |
| ProjectileLife.DestructionIsDated | internal/simulation/simulation.go:292-301 | a projectile leaves the live ones only into a tombstone of that very tick |
| ProjectileLife.TombstoneWindow | internal/simulation/simulation.go:303-339 | a tombstone is in the snapshots of exactly the 30 ticks from its own on, and never again |
| ProjectileLife.Simulation.constructor | internal/simulation/simulation.go:159-180 | a new state is sound when its players are |
| ProjectileLife.Simulation.MoveProjectiles | internal/simulation/simulation.go:645-685 | each live projectile flies once, in list order, seeing the damage done by those before it |
| ProjectileLife.Simulation.FindTarget | internal/simulation/simulation.go:687-703 | of the players a projectile may hit and touches, the one with the least id |
| ProjectileLife.Simulation.PruneExpiredProjectileTombstones | internal/simulation/simulation.go:303-339 | compacting the list in place keeps the survivors and their order |
| ProjectileLife.Simulation.EmitProjectiles | internal/simulation/normal_attack.go:240-273 | every shot becomes a live projectile with a new number and a fresh range |
| ProjectileLife.Simulation.Advance | internal/simulation/simulation.go:204-251 | a tick is flight with hits and teleports, movement, other damage, emission, and pruning at the new tick |
| RateLimiter.IPRateLimiter.constructor | internal/rooms/rate_limit.go:35-57 | a new limiter knows no address |
| RateLimiter.IPRateLimiter.Allow | internal/rooms/rate_limit.go:59-87 | under a clock that does not go back and without duration saturation, the sweeping limiter answers as one that never evicts |
| RateLimiter.IPRateLimiter.Sweep | internal/rooms/rate_limit.go:98-113 | the first call only starts the interval; later ones drop, at most once per interval, exactly the buckets not seen for the stale period |
| RateLimiter.SweepAgrees | internal/rooms/rate_limit.go:98-113 | an evicted bucket would have been refilled, so eviction cannot be observed |
| RateLimiter.DurationSuffices | internal/rooms/rate_limit.go:115-124 | waiting the computed duration earns the tokens, rounding included |
| RateLimiter.DurationIsLeast | internal/rooms/rate_limit.go:115-124 | and no shorter wait of at least a nanosecond does |
| RateLimiter.DurationFits | internal/rooms/rate_limit.go:115-124 | every wait is a positive duration, and one too long to fit is the longest |
| RateLimiter.ClockBack | internal/rooms/rate_limit.go:89-96 | a clock that goes back earns nothing and moves none of the bucket's times back |
| RateLimiter.StaleWhenFull | internal/rooms/rate_limit.go:46-49 | a bucket is stale after a minute, or after the least time that fills it if that is longer |
| RateLimiter.GrantsArePaid | internal/rooms/rate_limit.go:59-96 | over any sequence of calls the grants of one address are paid for by its tokens and its earnings |
| RateLimiter.WindowBound | internal/rooms/rate_limit.go:59-96 | in any window one address gets at most the burst plus what the window earns |
| RateLimiter.RetryIsGranted | internal/rooms/rate_limit.go:59-87 | an address that retries after the returned wait, with only others calling meanwhile, is granted |
| GameEnd.CalculateGameEndResults | internal/rooms/game_end.go:61-72 | each mode's calculator gives exactly the players that have a result theirs |
| GameEnd.ResultsExact | internal/rooms/game_end.go:98-236 | the results name exactly the players with a result, each with its own |
| GameEnd.SoloGameEndResults | internal/rooms/game_end.go:102-130 | Solo: the dead lose while somebody lives, the last one alive wins, and if nobody lives all draw |
| GameEnd.PlayerSurvivalGameEndResults | internal/rooms/game_end.go:205-236 | with a death the dead lose and the living win, or all draw |
| GameEnd.ConfiguredTeamEliminations | internal/rooms/game_end.go:173-193 | a configured team is eliminated exactly when none of its players lives |
| GameEnd.TeamGameEndResults | internal/rooms/game_end.go:132-171 | with a team eliminated its players lose and the others' win, or all draw |
| GameEnd.LivePlayerCount | internal/rooms/game_end.go:195-203 | counts the living |
| GameEnd.Ledger.ClaimFinalizedGameEndResults | internal/rooms/game_end.go:25-41 | only players without a result get one, and exactly those are returned |
| GameEnd.ShouldEndGame | internal/rooms/game_end.go:74-96 | each mode's own test, by results, by counting the living or by going through the teams, decides whether the snapshot ends the match |
| GameEnd.EndMeans | internal/rooms/game_end.go:74-236 | a match ends with the first death, with the first team that has nobody left, or in Solo when no two live; and then whoever lives, or whose team does, has won, unless nobody has |
| GameEnd.Ledger.RecordTick | internal/rooms/websocket.go:1433-1442 | a tick claims its snapshot's results and says whether the match ends |
| GameEnd.ResultsAreFinal | internal/rooms/game_end.go:25-41 | over a run a claimed result never changes |
| GameEnd.EveryoneSettled | internal/rooms/game_end.go:74-96 | the tick that ends a match leaves every player of a configured team with a result |
| GameEnd.TerminalDecides | internal/rooms/game_end.go:61-96 | outside Solo nobody has a result before the end, and the last snapshot alone decides |
| GameEnd.SoloOutcome | internal/rooms/game_end.go:102-130 | at the end of a Solo match the living have won, earlier deaths have lost, and last-tick deaths have lost or drawn depending on whether somebody lives |
| GameEnd.SoloHasOneWinner | internal/rooms/game_end.go:102-130 | a Solo match ends with exactly one winner and all others losing if one player lives, and otherwise nobody wins |
| TeamAssignment.MatchTeamForPlayerIndex | internal/simulation/game_config.go:926-947 | the endless-looking loop ends; an index below the sum of sizes gets the place dealt that many places after the first, any other gets none |
| TeamAssignment.BeforeIsPlaces | internal/simulation/game_config.go:926-947 | counting places round by round and team by team gives the same number |
| TeamAssignment.RanksDiffer | internal/simulation/game_config.go:926-947 | places are dealt by slot and within a slot by team, no two at the same index |
| TeamAssignment.DealIsBijection | internal/simulation/game_config.go:926-947 | when the sizes add up to the match size, its indices and the teams' places correspond one to one |
| SpawnAssignment.MapSpawnPoints | internal/simulation/player_assignment.go:59-69 | the centres of the spawn tiles in row order |
| SpawnAssignment.FallbackSpawnTiles | internal/simulation/player_assignment.go:129-176 | five preferred tiles and then the inner map, each passable tile once |
| SpawnAssignment.FallbackSpawnPosition | internal/simulation/player_assignment.go:93-113 | fallback positions go round the tiles that no spawn point occupies |
| SpawnAssignment.SpawnPositionForIndex | internal/simulation/player_assignment.go:86-91 | spawn points first, then fallback positions |
| SpawnAssignment.CapacityCounts | internal/simulation/player_assignment.go:71-84 | the capacity is the number of spawn points plus the free fallback tiles |
| SpawnAssignment.SpawnsAreUnique | internal/simulation/player_assignment.go:12-34 | below the capacity all spawn positions differ and lie on tiles that do not block players |
| SpawnAssignment.SpawnTilesInOrder | internal/simulation/player_assignment.go:59-69 | spawn points are used row by row from the top, in each row from the left |
| SpawnAssignment.SpawnTilesExact | internal/simulation/player_assignment.go:59-69 | they are exactly the tiles with the spawn code, once each |
| SpawnAssignment.FallbackTilesExact | internal/simulation/player_assignment.go:129-176 | the fallback tiles are exactly the unblocked tiles of the map without its border |
| SpawnAssignment.FallbackTilesInOrder | internal/simulation/player_assignment.go:129-176 | they come in the order of the preferred tiles and then row by row, each where it is first met |
| SpawnAssignment.PreferredAre | internal/simulation/player_assignment.go:146-152 | the preferred tiles are two opposite corners of the inner map, the other two, and its middle |
| SpawnAssignment.FallbackGoesRound | internal/simulation/player_assignment.go:93-113 | past the last free tile the positions start again, all fallback tiles serve if none is free, and without any it is the origin |
| SpawnAssignment.SpawnsThenFallback | internal/simulation/player_assignment.go:86-91 | an index outside the spawn points starts on the fallback positions, a negative one on the first |

## Left out

- Float rounding, NaN, infinities and integer overflow: numbers are exact, so the claims are about the arithmetic that the code intends.
- HTTP routing, JSON, logging, metrics export and sockets: a write or a ping is a step that may succeed or fail.
- Random identities, digests and token comparison: identities are fresh values and authentication is a choice of the run.
- Panics in callbacks and forced transport aborts: callbacks are assumed to return.
- Reconnect graces, connection generations and pending inputs of a room: they do not influence the modelled fields.
- The store's mutation gate: the model lets sections interleave that the gate keeps apart, so the results hold for more runs than the code has.
- In-place update of the store's own maps: RoomRegistry is a state machine on values, because its sections belong to concurrent threads; LiveRoom captures the in-place update within one room.
- Blocking inside a section, in LiveSession and LiveObservation: their methods run without another thread in between; SessionProtocol and ObservationQueue cover all interleavings.
- PathCache.BotControllerState.CachedBotPathDirection: the map is the same in all calls, as it is for one match; a nil bot state is not modelled.
- MovementSafety.TwoPlayersStayApart: for three or more live players the pairwise pass does not keep them apart, so only two are considered.
- BotRun.BotArrives: the bot is alone; avoidance, dodging, retreat and exploration are not modelled.
- Supercover.SupercoverTiles: nothing but the first tile and distinctness is claimed for displacements of 1e12 tiles and more, where the tie tolerance exceeds the distance of crossings.
- RateLimiter.IPRateLimiter.Allow: agreement is claimed for clocks that do not go back and waits below the largest duration.
- SessionGuarantees.SessionOrdering: producers call in tick order, as the room's ticker does.
- Combat.CombatState.ApplyPreparedInput: the shots of a spread attack and the swing of a melee attack are not listed; projectile types are defined, as configuration validation demands, so an emission never fails.
- SkillDash.DashesResolve: contact times are given by finder functions, and those with the map stay so; for two dashers CircleContact and DashContact say what the code's own times guarantee. Sorting the dashers by id only renames them.
- DashContact.MovingDashersStayApart: nothing is claimed for ways that graze each other within the relative tolerance of the discriminant, where the code takes the closest instant for the contact (CircleContact.GrazingIsClosest), nor across several events, because a stop comes up to 1e-6 before its contact.
- ProjectileLife.Simulation.Advance: where a teleport lands is given by a function, because the search steps through neighbouring float64 values; the damage of melee swings comes as a list of strikes, which Melee provides.
- Retreat goals, exploration tiles and targeting of bots: their comparators use tolerances that are not transitive.
- The team of participants beyond the match size in debug rooms.
