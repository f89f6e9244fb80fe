# Proofs about the engine's hot-reload host, its examples and its benches

This project models the parts of the repository whose correctness is an argument rather than a call: the ray march and
surface culling of the voxel sandbox, the two-thread hot-reload host, the node-graph model, the notes service, the
trail ring and fixed-step timers of the showcase, the pong server, and the reference algorithms of the benches,
together with the bounded heap and the bounding volume hierarchy the nearest scan is measured against. Each file is one
module; `dafny verify dfyconfig.toml` checks them all.

- `voxel_grid`, `voxel_march`, `voxel_pick`, `minecraft`: the block world, the crosshair ray as a march from cell to
  cell, what a pick promises, and the sandbox's state with its ray, clicks and draw filter.
- `dll_settle`, `dll_host`, `reload_protocol`: the settle detector, the loader with its retries, and the host as two
  threads taking one atomic step at a time.
- `node_graph`, `graph_table`: the graph as nodes and a finite map of wires, and the two fixed arrays that stand for it.
- `id_order`, `notes_store`, `notes_effects`, `notes_service`: the tables as values, the requests, what they are seen to
  do, and the handlers.
- `fixed_step`, `trail_history`, `trail_ring`: the accumulator timer, the marks ever dropped, and the ring that keeps
  the newest of them.
- `pong_rules`, `pong_match`, `pong_server`: one tick, whole games, and the server's state.
- `nearest`, `nearest_heap`: the k nearest, by linear scan and by bounded heap.
- `bvh_tree`, `bvh_boxes`, `bvh_partition`, `bvh_cost`, `bvh_decide`, `bvh_build`, `bvh_refit`, `bvh_nearest`: the
  bounding volume hierarchy, how it is built over any boxes and at what cost nodes are split, how it is fitted again to
  moved boxes, and the search of it.
- `reals`, `wrappers`: shared arithmetic and shared values.
- `fluid_scan`, `fluid_laws`, `key_walk`, `slug`: index arithmetic on a grid with a halo and what is measured on it, the
  stride walk over a table's keys, and the hand-written recogniser of slugs.

Times and coordinates are exact reals; the infinite time of a ray parallel to an axis is a value of its own. Random
choices of the outside world are inputs: the ids a database assigns, whether a file operation succeeds, where the balls
are, what the players press. The platform's square root is a parameter, any function whose squares give back what it was
applied to.

Where the source's own words and its code part ways, the model follows the code:

- `examples/pong_multiplayer/main.c:197` says the player who conceded gets the serve; the code serves toward the end of
  the player who scored (`PongMatch.ScorerIsServed`).
- `bench/bench_db_file.c:36` says an odd stride walks every key; being odd is not enough, sharing no divisor with the
  number of rows is what it takes (`KeyWalk.OddIsNotEnough`, `KeyWalk.FullCycleIffCoprime`).
- `examples/accounts_api/main.c:215` speaks of the assigned id, but a post whose body names an id is inserted under
  that id. If another account's note has it the answer is a server error, so one account can tell that another's note
  exists. `NotesStore.NamedIdsInterfere` is such a run and `NotesStore.AccountsAreIndependent` gives the exact
  condition.
- `examples/minecraft/main.c:159` says `place` is the empty cell before the hit; with the eye inside a block it is that
  block itself (`VoxelPick.PlaceIsAirNeighbour`).
- `examples/node_graph/main.c:225` guards against a full edge table; no run of edits reaches one
  (`NodeGraph.ConnectNeverDropped`).

## Model

| member | source | states |
|---|---|---|
| VoxelGrid.ExposedIffAirNeighbour | examples/minecraft/main.c:117-122 | A block is skipped as walled in exactly when every cell sharing a face with it is solid |
| VoxelGrid.CullingKeepsFirstSolid | examples/minecraft/main.c:359-366 | A face-to-face walk runs into the same first block with and without the undrawn blocks if and only if it does not start inside an undrawn one, and then that block is drawn |
| VoxelMarch.AdvanceKeepsTrack | examples/minecraft/main.c:199-208 | A step keeps every axis's next boundary time exact and not earlier than the time travelled, and time never falls, ties included |
| VoxelMarch.NthOnTrack | examples/minecraft/main.c:168-208 | Every march from any eye in any direction, zero components included, satisfies that geometry at each step |
| VoxelMarch.EarlierCellsAreVisited | examples/minecraft/main.c:187-209 | No cell is skipped: every cell whose interior the ray meets before an entry is an earlier cell of the march |
| VoxelMarch.NthIsNAway | examples/minecraft/main.c:199-208 | The n-th cell is n faces away from the first, so the march never turns back |
| VoxelMarch.CellsTested | examples/minecraft/main.c:187-209 | At most 4 + 7 (abs dx + abs dy + abs dz) cells are tested within reach |
| VoxelMarch.MarchLeavesReach | examples/minecraft/main.c:187 | Every march gets past the reach, so the loop ends for every direction |
| VoxelMarch.FirstHit | examples/minecraft/main.c:157-197 | A pick is a solid cell the ray touches at a time within reach, and every interior met earlier is air |
| VoxelMarch.NoHit | examples/minecraft/main.c:157-210 | With no pick the ray meets no solid cell's interior at any time within reach |
| VoxelMarch.NextIsEarliest | examples/minecraft/main.c:199-200 | The axis stepped along is one whose boundary comes first, the last of those that tie |
| VoxelPick.PickIffSolidEntered | examples/minecraft/main.c:187-197 | There is a pick exactly when the march enters some solid cell at a time of at most seven |
| VoxelPick.ConsecutiveCellsShareAFace | examples/minecraft/main.c:199-208 | Each step changes one coordinate by one, and the cell before is what is remembered |
| VoxelPick.CellsNeverRepeat | examples/minecraft/main.c:199-208 | No cell is entered twice |
| VoxelPick.PlaceIsAirNeighbour | examples/minecraft/main.c:157-161 | The place cell is an air neighbour of the target across a face, except when the eye is in a block, which is then both |
| VoxelPick.PickedIsDrawn | examples/minecraft/main.c:359-366 | What is picked is drawn, if and only if the eye is not inside an undrawn block |
| VoxelPick.CullingKeepsPick | examples/minecraft/main.c:359-366 | The ray picks the same target and place in the world with every undrawn block taken out, if and only if the eye is not inside an undrawn block |
| VoxelPick.PlaceThenBreak | examples/minecraft/main.c:300-310 | A placed block is what the next ray from the same eye hits, and breaking it gives the old world back; a place outside the chunk changes nothing |
| VoxelPick.LeftClickBreaks | examples/minecraft/main.c:301-303 | After a left click alone the target is air whatever it was, and every other cell is as before |
| VoxelPick.RightClickBuilds | examples/minecraft/main.c:305-310 | After a right click alone the place has the chosen kind exactly when it is an air cell of the chunk, and every other cell is as before |
| VoxelPick.BothClicks | examples/minecraft/main.c:301-310 | Both in one frame: an eye inside the picked block replaces it, and otherwise target and place each end as the one click leaves them |
| VoxelPick.NoClickNoChange | examples/minecraft/main.c:301-310 | Without a pick or a button the world stays as it is |
| VoxelPick.BreakRevealsNext | examples/minecraft/main.c:157-210 | Once the target is broken the same ray picks exactly the next solid cell behind it within reach |
| Minecraft.Minecraft.KindAt | examples/minecraft/main.c:112-115 | The array read agrees with the world it stands for, air outside the chunk |
| Minecraft.Minecraft.BlockExposed | examples/minecraft/main.c:117-122 | The test on the array decides exposure in the world |
| Minecraft.Minecraft.AxisSetup | examples/minecraft/main.c:172-182 | The three arrays are set up to each axis's direction, time per cell and first boundary time |
| Minecraft.Minecraft.Raycast | examples/minecraft/main.c:162-210 | The loop leaves the first solid cell of the march and the cell before it, or no target, and terminates within the bound |
| Minecraft.Minecraft.Aim | examples/minecraft/main.c:297-310 | A frame picks with the ray, then breaks and builds; what that does to each cell is LeftClickBreaks, RightClickBuilds and BothClicks |
| Minecraft.Minecraft.DrawnCells | examples/minecraft/main.c:359-374 | The render loops emit exactly the drawn cells, once each |
| DllSettle.Detector.Feed | src/main.c:78-95 | The detector's fields and answer after one reading |
| DllSettle.CountsAgreeingReadings | src/main.c:82-95 | The counter reaches k exactly when the last k readings agree and none was the loaded time |
| DllSettle.SettlesAfterThreeInARow | src/main.c:78-95 | A poll settles exactly when it and the two before it read one time other than the loaded one |
| DllHost.Host.Load | src/main.c:237-271 | An attempt commits handle, entry points, time and generation together, or changes nothing |
| DllHost.Host.Unload | src/main.c:273-281 | Image and entry points are cleared together |
| DllHost.Host.Reload | src/main.c:202-216 | The reload ends with the first of at most forty attempts that loads, else panics; all entry points are of one image |
| ReloadProtocol.UpToDateWhenQuiet | src/main.c:237-271 | Under every interleaving, whenever the file's time equals the recorded one the loaded image is the file's content |
| ReloadProtocol.StepKeepsCoordinated | src/main.c:196-222 | Each atomic step of either thread keeps the relation between the flags, the detector and both program counters |
| ReloadProtocol.RunsStayCoordinated | src/main.c:196-222 | That relation holds after every run while fewer polls than a settle run fit outside the app's loop |
| ReloadProtocol.EarlyRequestEndsApp | src/main.c:199 | Three polls before the first test of the quit flag end the app |
| ReloadProtocol.LateRequestIsLost | src/main.c:218-219 | Three polls between the two clearing stores raise a request that is never served |
| ReloadProtocol.LostForGood | src/main.c:283-304 | A lost request stays lost whatever is done next |
| ReloadProtocol.ReloadsSafeIffTwoPolls | src/main.c:196-222 | No reload makes the app leave its loop and no request is lost, if and only if at most two polls fit in that window; panics are PanicsIffFortyFail's |
| ReloadProtocol.PanicsIffFortyFail | src/main.c:207-214 | On every run, whatever the timing, main has panicked exactly when forty attempts of one reload have failed |
| ReloadProtocol.DetectorIsFedReadings | src/main.c:286-299 | On every run the detector has been fed exactly the readings decided on since the thread last asked; failed polls and polls during a request leave it alone |
| ReloadProtocol.AsksAfterThreeReadings | src/main.c:293-298 | On every run the watch thread asks exactly when its last three readings agree and none was the loaded time |
| ReloadProtocol.ChangeIsTold | src/main.c:286-301 | While a changed file holds still main is told of it after thirteen moves of the watch thread at the latest, under every interleaving |
| ReloadProtocol.ChangeIsLoaded | src/main.c:196-301 | Every change that holds still is loaded: thirteen moves of the watch thread and five of main after them bring in exactly the file on disk |
| ReloadProtocol.RequestIsServed | src/main.c:200-221 | While loads succeed, within five moves of the main thread an image is in that is no older than the file was when the request was told, and is the file's content if that has not changed since |
| ReloadProtocol.RetriesAgree | src/main.c:207-214 | With the file written or removed between any two calls, main's own steps end as the loader's retry loop does: with the image and time of the first attempt that loads, or in a panic with the last load still recorded, after at most 120 calls |
| NodeGraph.OneEntryPerLink | examples/node_graph/main.c:198 | With one wire an input, the number of edges is the number of wires |
| NodeGraph.SwapRemoveDropsOneWire | examples/node_graph/main.c:206-208 | Filling the hole with the last edge drops that input's wire and no other |
| NodeGraph.AppendAddsOneWire | examples/node_graph/main.c:230-231 | Appending an edge to a free input adds exactly its wire |
| NodeGraph.InputsPerNode | examples/node_graph/main.c:264-273 | There is at most one input port more than there are nodes |
| NodeGraph.WiresFit | examples/node_graph/main.c:58-60 | In a well formed graph edges, input ports, nodes plus one, nine and the table's sixteen are in that order |
| NodeGraph.ConnectReplaces | examples/node_graph/main.c:216-232 | Connecting two nodes is plain map update at the input |
| NodeGraph.ConnectKeepsIffLive | examples/node_graph/main.c:216-232 | Connecting keeps the graph well formed if and only if the link is a self link or both its ports exist |
| NodeGraph.RemoveKeepsWellFormed | examples/node_graph/main.c:244-255 | Removing a node leaves no dangling wire |
| NodeGraph.WithoutKeeps | examples/node_graph/main.c:248-254 | The nodes left are exactly the others, keys still distinct |
| NodeGraph.EditKeepsWellFormed | examples/node_graph/main.c:171-266 | Every edit keeps the graph well formed |
| NodeGraph.RunsStayWellFormed | examples/node_graph/main.c:171-266 | After every run of edits no wire dangles or joins a node to itself, keys are unique and below the next one |
| NodeGraph.ConnectNeverDropped | examples/node_graph/main.c:223-228 | The full-table branch is unreachable in any run, connecting is map update, and the wired share is within nought and one |
| NodeGraph.AddedNode | examples/node_graph/main.c:258-266 | Adding grows the table exactly below eight nodes: the old nodes first, the wires as before, a new blur under the old next key at the click, with input 0 and output 0 and no other port, and one input port more in all |
| NodeGraph.AddedCanBeWired | examples/node_graph/main.c:216-232 | Any output of another node can be wired to the new one, and it to any input; both keep the graph well formed and add that wire |
| NodeGraph.RemoveUndoesAdd | examples/node_graph/main.c:244-255 | Removing the node just added gives the graph back, but for the key used up |
| NodeGraph.RemoveTakesItsWires | examples/node_graph/main.c:234-246 | Removal drops exactly the wires with an end on the node |
| NodeGraph.SelfLinkIsRefused | examples/node_graph/main.c:220-221 | A link from a node to itself changes nothing |
| NodeGraph.DetachUndoesConnect | examples/node_graph/main.c:199-232 | Freeing an input just connected leaves what freeing it beforehand would have |
| NodeGraph.InputTotalCountsPorts | examples/node_graph/main.c:268-273 | The total is the number of input ports of the graph |
| NodeGraph.ShareIsPart | examples/node_graph/main.c:388-389 | The bar times the number of input ports is the number of wires |
| NodeGraph.ShareCountsInputs | examples/node_graph/main.c:388-389 | The bar is full exactly when every input port is wired, and empty exactly when there is no wire |
| NodeGraph.OpensFullyWired | examples/node_graph/main.c:172-195 | The starting compositor has five input ports, each of them wired |
| NodeGraph.OpensUsingEveryOutput | examples/node_graph/main.c:172-195 | Its output ports are exactly those its wires come from |
| NodeGraph.KeysAreNeverReused | examples/node_graph/main.c:264 | A key that was given out and removed never names a node again before a reset |
| GraphTable.Graph.Reset | examples/node_graph/main.c:170-196 | The tables hold the starting compositor |
| GraphTable.Graph.SwapOut | examples/node_graph/main.c:206-208 | The arrays after one swap-with-last, entry by entry and as a map |
| GraphTable.Graph.Detach | examples/node_graph/main.c:200-214 | The edge array loses that input's key, and the answer says whether it had it |
| GraphTable.Graph.Connect | examples/node_graph/main.c:216-232 | The edge array denotes the map after the connect |
| GraphTable.Graph.Unwire | examples/node_graph/main.c:234-242 | The backwards loop with swaps filters the map by node, missing no edge |
| GraphTable.Graph.Remove | examples/node_graph/main.c:244-255 | Wires filtered, first node with the key removed, order of the others kept |
| GraphTable.Graph.CloseGap | examples/node_graph/main.c:251 | The slots after the gap move down by one |
| GraphTable.Graph.Add | examples/node_graph/main.c:257-266 | The tables after an add are those of the model's edit, which AddedNode spells out; a full table stays as it is |
| GraphTable.Graph.InputPorts | examples/node_graph/main.c:268-273 | The total of the nodes' inputs |
| NotesStore.OthersUntouched | examples/accounts_api/main.c:163-266 | A request leaves every other account's notes and sessions as they were |
| NotesStore.OwnRowsDecide | examples/accounts_api/main.c:163-266 | A request is answered and takes effect as if no other account had rows, exactly unless it names another's note id |
| NotesStore.PurgedRun | examples/accounts_api/main.c:163-266 | The same for what an account sees along a run from any tables |
| NotesStore.AccountsAreIndependent | examples/accounts_api/main.c:240-246 | What an account sees in a run equals what it sees with all others' requests removed, if and only if none of its posts names another's note id |
| NotesStore.UnnamedPostsNeverCollide | examples/accounts_api/main.c:212-215 | Posts that leave the id to the database meet that condition in every run |
| NotesStore.NamedIdsInterfere | src/nyangine-core/db/db_orm.c:336-337 | A run in which a named id makes one account's answers depend on another |
| NotesStore.QuotaKept | examples/accounts_api/main.c:212 | No request takes any account over a thousand notes, and every row stays under its own id with a text of 1 to 279 bytes |
| NotesStore.RunsKeepQuota | examples/accounts_api/main.c:205-212 | The same along every run |
| NotesStore.QueryListsOwn | examples/accounts_api/main.c:163-190 | A query lists exactly the caller's notes as stored, in ascending id order, at most a thousand |
| NotesStore.SessionsListOwn | examples/accounts_api/main.c:270-303 | The device list is exactly the caller's sessions with their fields, newest first |
| NotesStore.NoteStaysUntilOwnerDeletes | examples/accounts_api/main.c:240-266 | A stored note stays unchanged until its owner asks for its deletion |
| NotesEffects.DeleteTakesOwnNote | examples/accounts_api/main.c:247-266 | A signed-in delete answers 204 exactly when the note is there and the caller's, takes exactly that row out then, and otherwise answers 404 and changes nothing |
| NotesEffects.QueryAfterDelete | examples/accounts_api/main.c:163-266 | A query right after lists what one before would have, less that note |
| NotesEffects.DeleteTwice | examples/accounts_api/main.c:258-263 | A second delete of the same note is 404 and changes nothing |
| NotesEffects.PostIsAnswered | examples/accounts_api/main.c:193-223 | A post is stored exactly when its body is good, the caller has fewer than a thousand notes and the id is free; else the first of these to fail names the status |
| NotesEffects.PostStoresNote | examples/accounts_api/main.c:200-223 | A stored post adds one row with the posted text under the caller and the request's time, and is answered with it |
| NotesEffects.QueryAfterPost | examples/accounts_api/main.c:163-223 | A query right after lists that note and what was listed before |
| NotesEffects.OthersAreShutOut | examples/accounts_api/main.c:194-196 | A request is answered 401, and does nothing, exactly when its session is missing or revoked |
| NotesEffects.DeleteRevokesOwnSession | examples/accounts_api/main.c:306-328 | A delete of a session revokes exactly that one when it is the caller's, and else answers 404 and changes nothing |
| NotesEffects.BadIdsAreRefused | examples/accounts_api/main.c:225-234 | Both deletes answer 400 exactly without an id of at least one |
| NotesEffects.SignedInUntilEnded | src/nyangine-core/accounts/accounts_session.c:220-233 | Over every run a session signs in until its own account deletes it, and never again |
| IdOrder.Ascending | examples/accounts_api/main.c:172 | The ids of the selected rows, each once, ascending |
| NotesStore.NewestFirst | src/nyangine-core/accounts/accounts_session.c:271-273 | The ids of the sessions, each once, by creation time and then id, descending |
| NotesService.Service.HandleNotesQuery | examples/accounts_api/main.c:164-190 | The answer, or 401 |
| NotesService.Service.HandleNotesPost | examples/accounts_api/main.c:193-223 | Table and answer after a post: 401, 400, 422, 500 or 201, in that order of checks |
| NotesService.Service.HandleNotesDelete | examples/accounts_api/main.c:247-266 | Table and answer after a delete: 404 alike for another's note and for none |
| NotesService.Service.SessionIds | src/nyangine-core/accounts/accounts_session.c:260-279 | The ids listed are exactly the account's sessions, newest first, ties by greater id |
| NotesService.Service.Revoke | src/nyangine-core/accounts/accounts_session.c:220-233 | The session is revoked and no other row changes; an unknown id is an error and changes nothing |
| NotesService.Service.HandleSessionsList | examples/accounts_api/main.c:271-303 | The device list, or 401 |
| NotesService.Service.HandleSessionsDelete | examples/accounts_api/main.c:306-328 | Only a session of the caller's is revoked; another's is not found |
| FixedStep.Drain | examples/showcase/main.c:924-943 | The loop fires once per whole interval, leaves a remainder within the interval, and terminates |
| FixedStep.WholeIntervals | examples/showcase/main.c:926-927 | A count is the whole number of intervals if and only if the remainder is within one interval |
| FixedStep.CarriesOver | examples/showcase/main.c:924-927 | Firing for a frame on top of what has fired is firing for the total |
| FixedStep.SplitDoesNotMatter | examples/showcase/main.c:923-927 | However a time is split into frames, the timer has fired floor(total / interval) times and keeps the rest |
| TrailHistory.FireAllKeepsPace | examples/showcase/main.c:948-981 | A frame's firings keep every mark born within a frame of its due time and at most six marks to a firing |
| TrailHistory.RunsKeepPace | examples/showcase/main.c:948-981 | The same after any run of frames |
| TrailHistory.PacedOverwritesNoneLive | examples/showcase/main.c:131-133 | With frames of at most 0.48 s, the mark 96 pushes earlier is at least 4 s old |
| TrailHistory.LiveMarksAreKept | examples/showcase/main.c:127-133 | Every live mark is among the newest 96 |
| TrailHistory.LongFramesOverwrite | examples/showcase/main.c:131-133 | For every longer limit there are frames within it that overwrite a live mark |
| TrailHistory.RingSafeIffShortFrames | examples/showcase/main.c:127-133 | No live mark is ever overwritten, if and only if frames are limited to 0.48 s or less |
| TrailHistory.MarksLieUnderBalls | examples/showcase/main.c:953-979 | A firing drops one mark under each ball on firm bank, on either side, in the order of the balls |
| TrailHistory.EveryMarkWasABall | examples/showcase/main.c:948-981 | In every run each mark lies where a ball was on firm bank in the frame it was born in |
| TrailHistory.LiveForFourSeconds | examples/showcase/main.c:1021-1026 | A mark is live for its first four seconds |
| TrailRing.Showcase.Update | examples/showcase/main.c:914-981 | One frame's firings of both timers, tied to the history of marks |
| TrailRing.Showcase.Fire | examples/showcase/main.c:950-981 | One firing drops a mark for each ball on firm bank, in order |
| TrailRing.Showcase.Push | examples/showcase/main.c:971-979 | The ring slot written is the oldest and the next slot is its successor |
| TrailRing.Showcase.DrawTrails | examples/showcase/main.c:1017-1032 | The stamped slots are exactly the used ones with a young mark, each once in slot order; with frames of at most 0.48 s they run through the live marks of the whole history, each drop's once |
| TrailRing.RingShowsLive | examples/showcase/main.c:1021-1026 | A slot passes the age filter exactly when the newest drop that went to it is live, and it holds that drop's mark |
| TrailRing.SlotsListLive | examples/showcase/main.c:1021-1026 | The slots that pass it are in one-to-one correspondence with the live marks of the history |
| PongRules.CommandsKeepStanding | examples/pong_multiplayer/main.c:149-161 | No command takes a paddle off its line or past its limit; opposite commands cancel |
| PongRules.StrikesTurnOnce | examples/pong_multiplayer/main.c:230-246 | The loop over the paddles turns the ball exactly when some paddle was hit, and leaves none being hit |
| PongRules.TickKeepsCourt | examples/pong_multiplayer/main.c:215-256 | A tick of any length keeps speed and bounds, and no overlapping paddle is still being closed on |
| PongRules.TickMirrors | examples/pong_multiplayer/main.c:215-256 | Exchanging the ends of the court exchanges the players and nothing else |
| PongRules.StrikeSteers | examples/pong_multiplayer/main.c:230-246 | A strike turns the ball round and steers it away from the paddle's middle: up above it, down below it, in proportion to the offset and at 260 from the paddle's ends on |
| PongRules.LowerSteersLower | examples/pong_multiplayer/main.c:243-245 | Of two hits on one paddle the lower one steers strictly lower |
| PongRules.FirstHitDecides | examples/pong_multiplayer/main.c:230-246 | Of several paddles the first that is hit decides what becomes of the ball |
| PongRules.OverlapIsContact | examples/pong_multiplayer/main.c:231-232 | The overlap tests hold exactly when the ball's square and the paddle's rectangle have a point in common on that axis |
| PongRules.WallSendsBack | examples/pong_multiplayer/main.c:218-227 | A tick moves the ball straight on, or to the wall it would have crossed, from which it heads back |
| PongRules.CommandMoves | examples/pong_multiplayer/main.c:149-161 | Up alone moves a paddle 320 a second upwards and down alone downwards, each at most to the clamp |
| PongRules.PeersFaceEachOther | examples/pong_multiplayer/main.c:180-191 | The first peer is on the left, where the ball is served first, and each next one faces the one before |
| PongMatch.GamesKeepCourt | examples/pong_multiplayer/main.c:200-256 | In every game: speed across 208, speed up at most 260, ball within the court, points are serves less one, nothing stuck to a paddle |
| PongMatch.ScorerIsServed | examples/pong_multiplayer/main.c:248-255 | A point puts the ball in the middle, heading for the scorer's end |
| PongMatch.NoPassingLeft | examples/pong_multiplayer/main.c:230-250 | A ball that goes out on the left has been inside the paddles' band, and no left paddle was level with it at any tick there |
| PongMatch.NoPassingRight | examples/pong_multiplayer/main.c:230-254 | The same on the right |
| PongMatch.RightScoresOnlyUncovered | examples/pong_multiplayer/main.c:215-251 | In every game from the opening serve on, each point of the right player follows a tick in front of the left paddles, one inside their band, and none since at which a left paddle was level with the ball |
| PongMatch.LeftScoresOnlyUncovered | examples/pong_multiplayer/main.c:215-255 | The same for each point of the left player |
| PongMatch.NoTunnellingIffShortTicks | examples/pong_multiplayer/main.c:215-251 | Over all games from the opening serve, no point is scored past a left paddle that was level with the ball before and after it was jumped, if and only if the longest tick's travel is less than a paddle band's width |
| PongServer.Server.SpawnPlayer | examples/pong_multiplayer/main.c:173-191 | The new paddle's side follows the order of arrival |
| PongServer.Server.ApplyCommand | examples/pong_multiplayer/main.c:142-161 | One paddle moves, clamped, and no other |
| PongServer.Server.BouncePaddles | examples/pong_multiplayer/main.c:230-246 | The loop takes the paddles in order and is the fold of the strikes, of which StrikeSteers and FirstHitDecides say what they do |
| PongServer.Server.BallUpdate | examples/pong_multiplayer/main.c:215-256 | The server's whole state after one tick: the move (WallSendsBack), the strikes (StrikeSteers, FirstHitDecides), the point and the serve (ScorerIsServed) |
| Nearest.DistanceIsLeast | src/nyangine-std/math/math_shapes.c:261-265 | The squared distance to a box is the least over all its points, and one of them attains it |
| Nearest.HitsMeasureBoxes | bench/bench_spatial.c:75-85 | Each box has one hit, whose distance is the least square over the box's own points |
| Nearest.TopKUnique | bench/bench_spatial.c:73-88 | A set of hits has one list of its first k |
| Nearest.TopKIsPrefixOfSort | bench/bench_spatial.c:73-88 | That list is the first entries of the whole set sorted by distance, ties by id |
| Nearest.OfferReplacesWorst | src/nyangine-std/math/math_spatial.c:110-113 | Replacing the worst kept keeps the k best, whatever order candidates come in |
| Nearest.InsertKeepsTopK | bench/bench_spatial.c:78-85 | Insertion by distance alone keeps the list right, ids rising |
| Nearest.ShiftIn | bench/bench_spatial.c:80-85 | The in-place shifting loop inserts at the first farther hit |
| Nearest.Consider | bench/bench_spatial.c:77-85 | One candidate is passed over or inserted, the last one dropping out when full |
| Nearest.ScanNearest | bench/bench_spatial.c:73-88 | The scan returns min(k, count) and leaves exactly the first k of all the boxes, in order |
| NearestHeap.SinkOne | src/nyangine-std/math/math_spatial.c:77-85 | Exchanging with the worst child moves the one fault of the heap down |
| NearestHeap.RiseOne | src/nyangine-std/math/math_spatial.c:96-105 | Exchanging with the parent moves the one fault up |
| NearestHeap.SiftDown | src/nyangine-std/math/math_spatial.c:71-87 | A heap again with the same entries, the rest of the array untouched |
| NearestHeap.SiftUp | src/nyangine-std/math/math_spatial.c:92-107 | The same for an appended entry |
| NearestHeap.RootIsWorst | src/nyangine-std/math/math_spatial.c:67-69 | The root is the worst kept, the bound a search prunes by |
| NearestHeap.Offer | src/nyangine-std/math/math_spatial.c:89-114 | The heap holds the k best of everything offered so far |
| NearestHeap.Finish | src/nyangine-std/math/math_spatial.c:121-134 | The same entries in ascending order, in place, each squared distance replaced by its root, still ascending |
| NearestHeap.RootedAscends | src/nyangine-std/math/math_spatial.c:131-133 | Taking roots keeps the order, so the closing assertion holds |
| BvhTree.ItemsWithin | src/nyangine-std/math/math_spatial_bvh.c:158-163 | A node's box holds every item under the node |
| BvhTree.InnerIsNoNearer | src/nyangine-std/math/math_shapes.c:261-265 | A box inside another is at no smaller squared distance from any point |
| BvhTree.KeyIsLowerBound | src/nyangine-std/math/math_spatial_bvh.c:346 | A visit's key is a lower bound for every item under its node |
| BvhNearest.CutOff | src/nyangine-std/math/math_spatial_bvh.c:346 | Leaving out a node beyond the bound loses none of the k best |
| BvhNearest.VisitLeaf | src/nyangine-std/math/math_spatial_bvh.c:350-357 | Every item of the leaf has been offered |
| BvhNearest.PushChildren | src/nyangine-std/math/math_spatial_bvh.c:271-283 | There is room for both children; each is on the stack or rightly left out, and the work left has shrunk |
| BvhNearest.VisitNode | src/nyangine-std/math/math_spatial_bvh.c:345-364 | A visit keeps every item either dealt with or under a node still on the stack, never both |
| BvhNearest.NearestItems | src/nyangine-std/math/math_spatial_bvh.c:332-369 | The search terminates, its stack within its fixed room, with exactly the first k of the tree's items by distance, closest first, ties by id, and with the roots of their squared distances |
| BvhNearest.RootedIsTopK | src/nyangine-std/math/math_spatial.c:121-131 | The k first by squared distance are the k first by distance |
| BvhNearest.Search | src/nyangine-std/math/math_spatial_bvh.c:338-364 | Everything has been dealt with when the stack is empty, and the stack never outgrew its room |
| BvhNearest.AgreesWithScan | bench/bench_spatial.c:73-88 | Both searches return the first k boxes, the tree search with the roots of the scan's squared distances and otherwise the same, entry for entry |
| BvhBoxes.Union | src/nyangine-std/math/math_shapes.c:245-247 | The smallest box that holds both |
| BvhBoxes.LeafBox | src/nyangine-std/math/math_spatial_bvh.c:158-163 | The smallest box that holds the leaf's items |
| BvhRefit.Refit | src/nyangine-std/math/math_spatial_bvh.c:217-230 | One backward pass fits every box, changes nothing else, and keeps the items, the height and that the tree can be searched |
| BvhBoxes.SmallestAroundItems | src/nyangine-std/math/math_spatial_bvh.c:217-230 | After it each node's box is the smallest around all the items under the node |
| BvhPartition.BinsRise | src/nyangine-std/math/math_spatial_bvh.c:41-49 | An item in an earlier bucket comes before one in a later bucket along the axis |
| BvhPartition.BucketsAreEqual | src/nyangine-std/math/math_spatial_bvh.c:41-49 | The buckets are sixteen equal stretches from the first centre to the last |
| BvhPartition.WidestAxis | src/nyangine-std/math/math_spatial_bvh.c:103-106 | The first of the axes along which the centres spread widest |
| BvhPartition.SortIntoBins | src/nyangine-std/math/math_spatial_bvh.c:113-123 | Of the buckets it leaves, those on either side of any boundary hold exactly the count of the items there and the smallest box around them |
| BvhPartition.SortedGathers | src/nyangine-std/math/math_spatial_bvh.c:117-123 | Each bucket has as its count the number of items that fall in it and as its box the smallest around them |
| BvhPartition.LeftGathers | src/nyangine-std/math/math_spatial_bvh.c:72-77 | The buckets before a boundary together stand for exactly the items before it |
| BvhPartition.RightGathers | src/nyangine-std/math/math_spatial_bvh.c:59-65 | The buckets from a boundary on stand for exactly the others |
| BvhPartition.FindSplit | src/nyangine-std/math/math_spatial_bvh.c:51-88 | The first boundary of lowest cost among those with items on both sides, nought exactly when there is none |
| BvhCost.AreaIsFaces | src/nyangine-std/math/math_spatial_bvh.c:29-34 | The cost area is that of a box's six faces, in two dimensions half its perimeter |
| BvhCost.AreaIgnoresAxes | src/nyangine-std/math/math_spatial_bvh.c:29-34 | It does not depend on which axis is which |
| BvhCost.AreaGrows | src/nyangine-std/math/math_spatial_bvh.c:29-34 | It is never negative, and never less for a box around another |
| BvhCost.CostIsPaid | src/nyangine-std/math/math_spatial_bvh.c:78 | The cost of a boundary is, summed over all the items, the area of the smallest box around the item's own side |
| BvhCost.WholeIff | src/nyangine-std/math/math_spatial_bvh.c:130-134 | A run of at most sixteen items with spread centres is left whole exactly when at every boundary that splits it the node's area and that sum come to at least the node's area times the count |
| BvhPartition.BothSides | src/nyangine-std/math/math_spatial_bvh.c:152-153 | A chosen boundary has items in buckets on both sides |
| BvhPartition.Separate | src/nyangine-std/math/math_spatial_bvh.c:136-150 | The in-place loop permutes the run so that earlier buckets come first, and touches nothing else |
| BvhPartition.SeparatedRun | src/nyangine-std/math/math_spatial_bvh.c:152-155 | The closing assertion holds: some items go left, some stay, and the two sides are apart along the axis |
| BvhPartition.SpreadSplits | src/nyangine-std/math/math_spatial_bvh.c:110-128 | Centres that are spread out at all have some on both sides of the first boundary, so the fallback at line 128 is for rounding only |
| BvhPartition.Partition | src/nyangine-std/math/math_spatial_bvh.c:93-156 | A run with all centres in one place is halved as it stands if it has more than sixteen items and else left whole; any other is moved apart in place at the first cheapest boundary along the widest axis, unless it is short and that is not worth it |
| BvhBuild.SettledKeeps | src/nyangine-std/math/math_spatial_bvh.c:193-198 | Boxing a node and leaving it a leaf keeps everything the build keeps |
| BvhBuild.SplitKeeps | src/nyangine-std/math/math_spatial_bvh.c:200-213 | Splitting a node keeps it: items shared out, runs apart, boxes smallest, depths and counts right |
| BvhBuild.SplitCount | src/nyangine-std/math/math_spatial_bvh.c:200-211 | There is room for two more nodes and two more pending ones |
| BvhBuild.SettleDecided | src/nyangine-std/math/math_spatial_bvh.c:193-198 | A node left a leaf has at most four items, is at the last depth, or is one its partition leaves whole |
| BvhBuild.SplitUpDecided | src/nyangine-std/math/math_spatial_bvh.c:197-211 | A node that is split gets as children the two parts its partition makes |
| BvhBuild.FinishedDecided | src/nyangine-std/math/math_spatial_bvh.c:189-214 | In the finished tree that holds of every leaf and of every inner node |
| BvhBuild.CentreIsMiddle | src/nyangine-std/math/math_shapes.c:249-251 | An item's centre is as far from either side of its box |
| BvhBuild.LookAt | src/nyangine-std/math/math_spatial_bvh.c:189-214 | One iteration keeps what the build keeps, decides about one node as its partition says, and leaves less to do |
| BvhBuild.FinishedIsBuilt | src/nyangine-std/math/math_spatial_bvh.c:165-215 | With nothing pending the tree can be searched, has every item once, boxes that fit, fewer than two nodes an item, at most forty-seven levels, and leaves of at most sixteen items unless at the last depth |
| BvhBuild.Build | src/nyangine-std/math/math_spatial_bvh.c:165-215 | The build terminates within its fixed tables with such a tree, for any boxes, none included, each leaf and each split of it decided by the cost of splitting |
| BvhBuild.BuiltAgreesWithScan | bench/bench_spatial.c:140-208 | For any boxes, point and k the search of the tree built over them gives what the linear scan gives |
| BvhBuild.RefittedAgreesWithScan | bench/bench_spatial.c:164-165 | The same after the boxes have moved and the tree has been refitted |
| FluidScan.IndexRoundTrip | bench/bench_fluid.c:49 | Column and row recovered from a cell's index are its own |
| FluidScan.CoordinatesRoundTrip | bench/bench_fluid.c:74-75 | An index is that of the column, row and plane read off it |
| FluidScan.FlatIsNested | bench/bench_fluid.c:73-77 | The flat loop with its halo test comes to exactly the cells of the triple loop at margin nought |
| FluidScan.NestedOnceEach | bench/bench_fluid.c:46-49 | The triple loop comes to no cell twice |
| FluidScan.NeighboursInGrid | bench/bench_fluid.c:82-85 | All six neighbour reads are in bounds |
| FluidScan.WorstNeverGrows | bench/bench_fluid.c:30-61 | The worst divergence at any margin is at most that at margin nought |
| FluidScan.WorstDivergenceBeyond | bench/bench_fluid.c:36-61 | The loops return the largest divergence over the margin's cells, nought when there are none |
| FluidScan.PressureError | bench/bench_fluid.c:79-85 | The error at a cell, a solid neighbour read as the centre |
| FluidScan.PressureResidual | bench/bench_fluid.c:68-92 | The flat loop returns the root of the summed squared errors over the summed squared sources of the triple loop's free cells, nought without a source |
| FluidLaws.MarginIsDistance | bench/bench_fluid.c:43-48 | The scan takes the cells with everything within the margin inside the grid, on all three axes or, in a grid too thin, on two |
| FluidLaws.AffineDivergence | bench/bench_fluid.c:51-53 | A velocity that changes evenly has the trace of its slopes as divergence, at every cell |
| FluidLaws.WorstOfAffine | bench/bench_fluid.c:36-61 | So that is what the scan of such a velocity returns, and nought for a uniform or rotating one |
| FluidLaws.QuadraticError | bench/bench_fluid.c:79-86 | Away from solids a quadratic pressure leaves the source and its curvature as error, and an evenly changing one the source alone |
| FluidLaws.WalledInError | bench/bench_fluid.c:82-85 | A cell with six solid neighbours has its source as error |
| FluidLaws.SolidPressureIsIgnored | bench/bench_fluid.c:82-85 | The pressure inside solid cells makes no difference |
| FluidLaws.ConstantIsFree | bench/bench_fluid.c:79-86 | Adding a constant to the pressure changes no error |
| FluidLaws.ResidualIsRelative | bench/bench_fluid.c:88-92 | Scaling source and pressure changes no residual |
| FluidLaws.NoResidualIffSolved | bench/bench_fluid.c:73-89 | The residual's sum is nought exactly when the equation holds at every free cell |
| KeyWalk.Walk | bench/bench_db_file.c:86-88 | The keys the loop visits, from any counter value |
| KeyWalk.AfterLessRounds | bench/bench_db_file.c:188 | The key after n steps is n strides less whole rounds |
| KeyWalk.NoKeyTwice | bench/bench_db_file.c:71-74 | Steps of a coprime stride closer together than the number of rows meet different keys |
| KeyWalk.EveryKeyMet | bench/bench_db_file.c:71-74 | Within one round a coprime stride meets every key |
| KeyWalk.FullCycleIffCoprime | bench/bench_db_file.c:36-37 | One round meets every key from every start, if and only if stride and rows share no divisor |
| KeyWalk.OddIsNotEnough | bench/bench_db_file.c:36-37 | An odd stride that misses a key |
| KeyWalk.RoundReturns | bench/bench_db_file.c:188 | One round ends where it began |
| KeyWalk.BenchStrideCoprime | bench/bench_db_file.c:37 | 7919 and 20000 share no divisor |
| KeyWalk.BenchWalkIsFullCycle | bench/bench_db_file.c:36-37 | In any 20000 successive steps every key comes up exactly once |
| Slug.JoinOfSplit | examples/undo_editor/main.c:46 | Joining the parts between hyphens gives the text back |
| Slug.SplitOfJoin | examples/undo_editor/main.c:46 | Splitting joined segments gives the segments back |
| Slug.RuleIsGrammar | examples/undo_editor/main.c:46-58 | The rule the loop checks holds exactly of non-empty segments of lowercase letters and digits joined by single hyphens |
| Slug.AlnumIsListed | examples/undo_editor/main.c:46-58 | The characters of a segment are the twenty-six lowercase letters and the ten digits |
| Slug.OneReading | examples/undo_editor/main.c:46 | A slug has exactly one list of segments |
| Slug.IsValid | examples/undo_editor/main.c:49-59 | The recogniser accepts a non-empty text if and only if the grammar does, reading only within it |
| Slug.FromString | src/nyangine-std/base/base_newtype.h:75-99 | The parse admits exactly the slugs of 1 to 63 bytes and names the rule broken otherwise; it reads in bounds even of 64 bytes without a terminator |
| Slug.OnlyFrontMatters | src/nyangine-std/base/base_newtype.h:80-90 | Nothing past the first 64 bytes of the input makes a difference |
| Slug.ParseRoundTrip | src/nyangine-std/base/base_newtype.h:101-106 | The bytes read back are the input's text and parse to the same slug |

## Left out

- Rounding: every floating-point number is an exact real, so a bound such as 0.48 s is that of the formulas and not of their single-precision evaluation.
- Machine widths: cells, keys, counters and grid indices are unbounded integers, and a modification time never wraps.
- World generation, camera and window handling of the sandbox: the world and the ray are any grid and any direction.
- An outside quit racing a reload: only the watch thread sets the quit flag here, since line 219 of `src/main.c` clears it whoever set it.
- ReloadProtocol.UpToDateWhenQuiet: takes each write of the file and each copy of it as atomic and each write's time as strictly newer, because a torn copy or a repeated time makes the claim false outside this program.
- ReloadProtocol.ReloadsSafeIffTwoPolls: counts polls instead of seconds, because the sleep of the watch thread promises only a lower bound.
- The Windows half of the reload host, which follows the same protocol.
- How the node editor produces its gestures: a link it reports is taken to name ports that exist, which `NodeGraph.ConnectKeepsIffLive` shows to be exactly what is needed.
- Registering, signing in and session expiry of the accounts module: a session row appears with its account, and a revoked one proves nobody.
- Parsing of request bodies: a body is either a value of its type or malformed; database errors other than a key in use do not happen.
- The address, agent and last use of a session, which the device list copies out unchanged.
- Colour, rotation and height of a trail mark, which no test of the ring looks at, and the steering of the balls.
- Networking of pong: commands arrive as a list of inputs to the one function that moves a paddle.
- BvhNearest.NearestItems: takes the bound before k hits as none, because the largest float the code has there stands for that and exact reals have no largest.
- BvhPartition.FindSplit: takes the lowest cost before any as none for the same reason, and no centre is NaN.
- The hierarchy's box, radius and ray queries, the octree and the spatial hash.
- The box, radius and ray scans of the spatial bench, each one filter or one minimum over a list.
- The text setter and the undo ring of the document editor.
- Rendering, audio, physics, widgets, scripting and the third-party clients.
