# Verified model of the fleet gateway core

The gateway relays vehicle positions and room messages between clients and regions. This project
models the parts of it whose correctness is not visible in one function, and proves properties of
every input, every run or every reachable state:

* **Multi-region replication** (`Order`, `Rga`, `RgaSequence`, `Hlc`, `VectorClock`, `LwwMap`, `OrSet`,
  `FenceSet`, `Region`, `World`, `Convergence`, `Sessions`, `FenceEdits`, `Clocks`, `Divergences`, `RoomTable`,
  `Coordinator`). The replicated types as values, the mutable objects proved against them, and the
  coordinator working through those objects; all regions together as a step system (local mutation, delivery
  in any order with repeats, snapshot capture and pull); convergence, order stability and clock bounds over
  every run, and runs that reach the states in which less holds.
* **Event-sourced write side** (`Vehicle`, `EventStore`, `Commands`, `WriteSide`, `Projections`, `ReadModels`).
  Handlers interleaved as fetch / load / save / snapshot steps over one store; serialisability, the effect of
  each saved command, snapshots as folds, geofence discipline; projections over arbitrary batchings.
* **Room manager** (`RoomIndex`, `Replay`, `AckWindow`, `Dedup`, `RoomManager`). The two inverse indexes under
  every run of requests, the ring buffer and reconnect answer, the acknowledgement window, the duplicate filter.
* **Kalman filter** (`Matrix`, `Kalman`, `KalmanFilter`). Over exact reals: the four-dimensional filter is
  two independent one-axis filters; covariance soundness in every run; a target at constant velocity is
  followed exactly.
* **Compaction and limiters** (`Compaction`, `Positions`, `RateLimiter`). Roll-ups agree with direct grouping; the
  evicting limiter refines the one that keeps everything.

`dafny verify dfyconfig.toml` checks the whole project.

## Where the code gives less than its documentation

* `HLC.receive` is documented as strictly after the remote stamp; it is not exactly when the remote
  reading equals a wall clock that is ahead of the local reading (`Hlc.ReceiveAfterRemote`).
* `LWWMap` is documented as convergent; delivery order is irrelevant exactly when one write beats all the
  others, which two writers guarantee and three do not (`LwwMap.ConvergentIffDominated`). Over runs a region
  holds such a write whenever it has taken one in (`Sessions.HoldsDominant`); three regions can exchange
  everything and still differ (`Divergences.ThreeWritersDiverge`).
* `traverse` loops forever exactly when a node named like the internal head key is attached below the head
  (`Rga.EndsIffRooted`), which one received append achieves (`Divergences.HeadKeyHangs`); ids made by the
  coordinator never are (`Convergence.AlwaysRooted`).
* A `message_remove` that overtakes its append is lost (`Region.LostRemove`). Two regions then hold equal
  nodes exactly when the same appends and removals took effect there (`Convergence.NodesEqualIff`), and a run
  loses nothing it delivers exactly when no removal is delivered before its append
  (`Convergence.NothingLostIff`, `Divergences.RemovalOvertakes`).
* Message ids keep the order of their stamps exactly as far as stamps fit the padded fields
  (`Hlc.OrderHoldsIff`); ids are never reused, past the fields too (`Hlc.IdInjective`).
* A local geofence edit takes effect exactly when no stored mark of that fence is in its way
  (`FenceEdits.SyncTakesEffectIff`, `FenceEdits.RemoveTakesEffectIff`). Marks get ahead of the clock in two
  ways only: an operation is received on the tie of `HLC.receive`, or a merged snapshot, which does not touch
  the clock, brings newer marks (`FenceEdits.StepIff`, `FenceEdits.AlwaysBehindIff`). Both lose an edit
  (`Divergences.TieLosesEdit`, `Divergences.PullLosesEdit`).
* A size limit of zero leaves an empty room behind, and taking over a client id that shares a room
  overcounts the members (`RoomIndex.JoinValidIff`, `RoomIndex.UpdateValidIff`,
  `RoomIndex.HypothesesNeeded`).
* The acknowledgement window can be overrun: after a message is withheld, a later acknowledgement discounts
  messages still in flight. A run can never be driven over the window exactly when its acknowledgements pass
  over no withheld number or leave nothing in flight (`AckWindow.NeverOverrunIff`, `AckWindow.WindowOverrun`).
* Projections are documented to converge for late batches; the room membership model is decided by the last
  move applied, and is right exactly when that agrees with the newest (`Projections.MembershipRightIff`,
  `Projections.OutOfOrderDiverges`). The rooms of a vehicle's row go the same way
  (`Projections.RowsAreMemberships`).
* Leaving a room the vehicle is not in records nothing, so an acknowledgement kept for that room stays
  (`Commands.CommandTakesEffect`).
* A fix stamped earlier than the last one is compared with the position at the last one
  (`KalmanFilter.LateFixExpectedIff`).
* The duplicate filter is bounded: a key that keeps being let through is not renewed, and a repeat within the
  window passes exactly when as many new keys as the bound were entered since its own (`Dedup.SuppressedIff`,
  `Dedup.CrowdedOut`).
* The limiter's decisions on a key depend on clock readings for it that do not go back, by any amount, unless
  the limit is zero (`RateLimiter.ToleratesIff`, `RateLimiter.BackwardClockDiffers`).

## Model

| member | source | states |
|---|---|---|
| Rga.PathUnique | src/multi-region.js:473-496 | below a head key that is not attached, a node is reached by one path only, whatever origin cycles the rest of the map has |
| Rga.AllPathsExact | src/multi-region.js:473-496 | the nodes to be yielded are exactly those with a path from the head |
| Rga.FrontierStep | src/multi-region.js:487-496 | one turn of the stack loop keeps: yielded paths sorted, all before the stacked ones, stacked ones mutually branching, and every path yielded or below the stack |
| Rga.FrontierDone | src/multi-region.js:487-496 | an empty stack has yielded every head-reachable node once, in the lexicographic order of root-to-node id paths |
| Rga.EndsIffRooted | src/multi-region.js:473-496 | the stack loop ends if and only if the head key is not itself attached below the head |
| Rga.NeverEnds | src/multi-region.js:473-496 | otherwise the stack holds a node of the loop after any number of rounds |
| Rga.TraversalStable | src/multi-region.js:385-394 | growing a node map never reorders nodes already in the traversal: the old order is the new one without the newcomers |
| Rga.InsertGrows | src/multi-region.js:385-394 | inserting takes no node away, moves none and changes no text, and adds exactly the new node |
| Rga.RemoveGrows | src/multi-region.js:402-407 | a removal hides exactly the node named, and changes nothing else |
| Rga.MergeGrows | src/multi-region.js:503-507 | merging takes no node away, moves none, changes no text and brings no removed one back |
| Rga.BroadcastAppends | src/multi-region.js:1031-1047 | inserting after the last visible node puts the old visible order first, then the new message, then only messages already waiting below its id, whatever tombstones lie behind |
| Rga.BroadcastIsAppend | src/multi-region.js:431-441 | with a fresh id nothing is anchored on, toArray() becomes the old array followed by the new item at its index |
| Rga.ArrayAt | src/multi-region.js:431-441 | item i of the array is the i-th visible path's node, with index i |
| Rga.ShownIff | src/multi-region.js:431-441 | a node is in the array if and only if it is attached and not removed, and reads as stored |
| RgaSequence.SortIdsCorrect | src/multi-region.js:484-486 | sorting a bucket of distinct ids gives the same ids in strictly increasing order |
| RgaSequence.Walk | src/multi-region.js:487-496 | the stack loop yields exactly the reference order |
| RgaSequence.Group | src/multi-region.js:474-483 | grouping by anchor puts each node in its anchor's bucket once |
| RgaSequence.FindShown | src/multi-region.js:447-456 | the counting loop finds the position among the visible nodes, -1 when there is none |
| RgaSequence.RGASequence.Insert | src/multi-region.js:385-394 | a known id keeps its node and only gains the tombstone, a new one is added |
| RgaSequence.RGASequence.Remove | src/multi-region.js:402-407 | tombstones a known node, reports whether it existed, and does nothing for an unknown id |
| RgaSequence.RGASequence.Traverse | src/multi-region.js:473-496 | yields the nodes of the reference order, under exactly the condition for the loop to end |
| RgaSequence.RGASequence.ToArray | src/multi-region.js:431-441 | returns the visible nodes of the reference order with their positions |
| RgaSequence.RGASequence.IndexOf | src/multi-region.js:447-456 | agrees with the position in toArray(), -1 for hidden and unknown ids |
| RgaSequence.RGASequence.LastVisibleId | src/multi-region.js:463-467 | returns the id at the end of the visible order |
| RgaSequence.RGASequence.Merge | src/multi-region.js:503-507 | holds the nodes of both sides, tombstoned where either was |
| Hlc.Advances | src/multi-region.js:70-105 | both kinds of reading are strictly after the clock, whatever the wall clock says |
| Hlc.LocalIsEarliest | src/multi-region.js:70-80 | a local reading is the earliest stamp after the clock that is not behind the wall clock |
| Hlc.RemoteIsEarliest | src/multi-region.js:87-105 | a merged reading stands at the largest of clock, remote and wall, with a counter of 0 when the wall leads and otherwise one above the largest there; the tie apart it is the earliest stamp after both |
| Hlc.ReadingsKeepTime | src/multi-region.js:70-105 | over every run each reading stands at the largest time met so far, never beyond |
| Hlc.ReceiveAfterRemote | src/multi-region.js:87-105 | receive is strictly after the remote stamp if and only if not remote.l = wall > local l |
| Hlc.ReceiveNotAfterRemote | src/multi-region.js:92-94 | a concrete reading that falls before the remote stamp |
| Hlc.ReadingsIncrease | src/multi-region.js:70-105 | over every mix of now and receive the readings strictly increase |
| Hlc.IdOrder | src/multi-region.js:339-358 | later stamps give lexicographically later ids, whatever regions and sequence numbers, if the later one fits the field that tells them apart |
| Hlc.IdInjective | src/multi-region.js:353-358 | an id determines stamp, region and local sequence, past the field widths too |
| Hlc.IdReadsBack | src/multi-region.js:353-358 | an id that fits is 15 digits of time, 6 of counter, the region and 12 digits of sequence, and each part reads back |
| Hlc.IdStartsWithDigit | src/multi-region.js:353-358 | an id is never the head key |
| Hlc.CounterOverflowReorders | src/multi-region.js:353-358 | a counter that outgrows its field sorts before its predecessor, at every l |
| Hlc.TimeOverflowReorders | src/multi-region.js:353-358 | a reading that outgrows its field sorts before its predecessor |
| Hlc.OrderHoldsIff | src/multi-region.js:339-358 | for all bounds on l and c: ids keep the order of all stamps up to them if and only if both bounds fit their fields |
| Hlc.HLC.Now | src/multi-region.js:70-80 | advances the object's clock strictly, to the larger of its time and the wall |
| Hlc.HLC.Receive | src/multi-region.js:87-105 | advances the object's clock strictly, to the largest of its time, the remote one and the wall |
| VectorClock.MergeIsJoin | src/multi-region.js:147-157 | merge is the least upper bound of the component order |
| VectorClock.IncrementIsAfter | src/multi-region.js:136-141 | incrementing moves strictly past every clock at or below the old value |
| VectorClock.CompareExact | src/multi-region.js:166-180 | the four answers, said counter by counter with missing regions as zero |
| VectorClock.AfterTransitive | src/multi-region.js:166-180 | the causal order is transitive |
| VectorClock.VcMerge | src/multi-region.js:147-157 | the loop computes the componentwise maximum |
| VectorClock.VcCompare | src/multi-region.js:166-180 | the loop decides the component order in both directions |
| LwwMap.OneWinner | src/multi-region.js:618-624 | two writes never beat each other, and of two different comparable ones one wins |
| LwwMap.WinnerRule | src/multi-region.js:618-624 | a causally newer write wins, and of two concurrent ones that of the greater region id |
| LwwMap.ConvergentIffDominated | src/multi-region.js:601-624 | all delivery orders of a set of writes end with one entry if and only if one write beats all the others |
| LwwMap.DominantSettles | src/multi-region.js:601-611 | such a write wins in every order with repeats, and no write seen is causally newer |
| LwwMap.WinsTransitive | src/multi-region.js:618-624 | among writes of at most two writers the rule is transitive |
| LwwMap.TwoWritersConverge | src/multi-region.js:601-640 | two writers' writes converge in every delivery order |
| LwwMap.ThreeWritersDiverge | src/multi-region.js:618-624 | three writers can close a cycle: two orders end differently, one on a causally older entry |
| LwwMap.MergeBothWays | src/multi-region.js:632-642 | with any number of writers, two maps that merge each other are equal |
| LwwMap.ConflictsAre | src/multi-region.js:632-642 | a conflict is a key of both sides for which each side has seen a write the other has not |
| LwwMap.LWWMap.ApplyEntry | src/multi-region.js:601-611 | stores the incoming entry exactly when it wins or nothing is stored |
| LwwMap.LWWMap.Merge | src/multi-region.js:632-642 | applies every entry of the other map and counts the concurrent ones |
| OrSet.AddWins | src/multi-region.js:226-236 | a removal retires what it has seen; a concurrent add under a new tag survives the merge |
| OrSet.AddShows | src/multi-region.js:208-217 | an add shows its element unless its tag was retired before it arrived |
| OrSet.ORSet.Insert | src/multi-region.js:208-217 | files the given or generated tag under the element, returns it, and lists a new element last |
| OrSet.ORSet.Remove | src/multi-region.js:226-236 | retires exactly the tags of the element seen here and returns them |
| OrSet.ORSet.ApplyRemove | src/multi-region.js:267-269 | retires exactly the given tags |
| OrSet.ORSet.Members | src/multi-region.js:276-284 | lists each present element once, in insertion order |
| OrSet.ORSet.MergeFrom | src/multi-region.js:294-300 | unites tags and retirements |
| FenceSet.MarkOrder | src/multi-region.js:677-683 | stamps with region tie-break are strictly totally ordered |
| FenceSet.LWWElementSet.Insert | src/multi-region.js:703-706 | keeps the newest upsert per element |
| FenceSet.LWWElementSet.Delete | src/multi-region.js:712-717 | keeps the newest removal per element |
| FenceSet.LWWElementSet.MergeFrom | src/multi-region.js:744-751 | keeps the newest of both sides per element |
| Region.RoomMutationsAreHandled | src/multi-region.js:976-1047 | joining, leaving and broadcasting change the replica exactly as handling the emitted operation does |
| Region.KeyedMutationsAreHandled | src/multi-region.js:1059-1149 | the same for sessions, configuration and geofences |
| Region.ApplyRepresents | src/multi-region.js:1297-1367 | applying an operation takes a replica that amounts to a set of operations to one that amounts to that set and the new one |
| Region.LostRemove | src/multi-region.js:402-407 | a removal that finds no target leaves everything as it was |
| Region.MergeRepresents | src/multi-region.js:1437-1465 | absorbing a snapshot amounts to the operations of both sides |
| Region.RepresentsUnique | src/multi-region.js:1297-1367 | a set of operations determines tag sets, nodes and stamp maps |
| Region.PresenceMeaning | src/multi-region.js:243-251 | a client is present exactly when some join was retired by no leave |
| Region.FenceMeaning | src/multi-region.js:723-729 | a fence is live exactly when an upsert is stamped after every removal |
| Region.LatestDefinition | src/multi-region.js:679-716 | the definition a fence holds is the one of the latest reading taken in, whatever its region, and of equal readings that of the greater region id |
| Region.SessionHandled | src/multi-region.js:1335-1342 | a session update that wins is read back, a deletion that wins reads as absent, a loser and other keys change nothing |
| World.InvStep | src/multi-region.js:1297-1465 | every step of any region keeps: clocks bounded by their owners' counters, stored entries below the region's clock, stamps issued once, replicas faithful to the operations taken in |
| World.ClocksStep | src/multi-region.js:1184-1187 | no region's counter for R passes R's own, and every stored session clock stays below its region's |
| World.InvRun | src/multi-region.js:1297-1465 | the invariant holds in every reachable state |
| World.SentConsistent | src/multi-region.js:1031-1047 | no two different messages or fence marks ever share an id |
| Convergence.RegionsConverge | src/multi-region.js:1297-1465 | in every run, regions that took in the same operations (any order, repeats, deliveries and snapshots mixed) hold the same members, message nodes and fences |
| Convergence.MembersMean | src/multi-region.js:976-1018 | in every run a client is a member exactly when some join taken in was retired by no leave taken in |
| Convergence.MessagesMean | src/multi-region.js:1031-1047 | in every run a message is in a region's array if and only if it is attached there, its append was taken in and no removal was; and it reads as it was sent |
| Convergence.AlwaysRooted | src/multi-region.js:1031-1047 | in every run no message is named like the head, so every traversal ends |
| Convergence.OrderKept | src/multi-region.js:473-507 | between any two points of any run, the earlier order of a room at a region is the later one without the newcomers |
| Convergence.SequencesGrow | src/multi-region.js:1297-1465 | no step of any region takes a message away, moves it, changes its text or brings a removed one back |
| Convergence.IdsIncrease | src/multi-region.js:1031-1035 | each message id a region issues sorts after all it issued before, while the new stamp fits the fields |
| Convergence.SayAppends | src/multi-region.js:1031-1047 | in every reachable state a default broadcast appends to the region's visible array |
| Convergence.RemoveBeforeAppendDiverges | src/multi-region.js:402-407 | the two arrival orders of an append and its removal end differently |
| Convergence.NodesEqualIff | src/multi-region.js:385-407 | in every run two regions hold the same nodes of a room if and only if the same appends and removals of it took effect there |
| Convergence.LossStep | src/multi-region.js:1297-1367 | of all steps exactly the delivery of a removal before its append loses something delivered |
| Convergence.NothingLostIff | src/multi-region.js:1297-1367 | along a run all that is delivered takes effect if and only if no removal is delivered before its append |
| Convergence.DeliveredConverge | src/multi-region.js:1297-1465 | in such a run regions that were delivered the same operations hold the same rooms and fences |
| Sessions.SaveReadsBack | src/multi-region.js:1059-1069 | in every reachable state a local save or configuration write beats what is stored and is read back at once |
| Sessions.SessionsConverge | src/multi-region.js:601-640 | a key of which a region took in writes of at most two regions is equal at all regions that took in the same writes of it, and never causally older than one of them |
| Sessions.StoredComparable | src/multi-region.js:601-640 | what two regions hold under a key are two sent writes, never with equal clocks |
| Sessions.ExchangeAgrees | src/multi-region.js:1437-1465 | with any number of writers, two regions that pull each other's state hold the same rooms, fences and sessions |
| Sessions.SettledRun | src/multi-region.js:601-640 | in every run, for every key: each region and snapshot holds one of the writes it took in, and the one beating all others if there is one |
| Sessions.HoldsDominant | src/multi-region.js:601-640 | in every run and with any number of writers, a region whose taken-in writes of a key have one that beats the others holds that one, and none is causally newer |
| Sessions.ReadsDominant | src/multi-region.js:601-640 | such a key reads as the text of that write |
| FenceEdits.SyncTakesEffectIff | src/multi-region.js:1102-1113 | an upsert is stored and live if and only if both stored marks of that fence are below the next one, or it is already stored |
| FenceEdits.RemoveTakesEffectIff | src/multi-region.js:1120-1131 | a removal leaves the fence gone if and only if its stored upsert is not above the next mark or was already removed |
| FenceEdits.BehindEdits | src/multi-region.js:1102-1131 | while no stored mark is ahead of the clock every local edit takes effect, and leaves no mark ahead |
| FenceEdits.ReceiveIff | src/multi-region.js:1297-1367 | receiving a fence operation keeps marks behind the clock if and only if it is overtaken or its stamp does not tie an advanced wall clock with a positive counter |
| FenceEdits.PullIff | src/multi-region.js:1437-1465 | merging a snapshot keeps marks behind the clock if and only if each mark it brings is overtaken or not ahead of the clock |
| FenceEdits.StepIff | src/multi-region.js:1297-1465 | of all steps of a region exactly those two kinds put a mark ahead of its clock |
| FenceEdits.EditsTakeEffect | src/multi-region.js:1102-1131 | in every run without such a step every local fence edit takes effect at once |
| FenceEdits.AlwaysBehindIff | src/multi-region.js:1297-1465 | along a run no mark is ever ahead of a region's clock if and only if it takes no such step |
| Clocks.NeverAhead | src/multi-region.js:70-105 | in every run no clock reading and no stamp sent is ahead of the largest wall clock read by any region |
| Clocks.RepliesFollow | src/multi-region.js:1297-1367 | what a region says after receiving a message is stamped and sorted after it, if and only if the message did not tie a leading wall clock that has not moved on |
| Clocks.CountersCount | src/multi-region.js:1031-1047 | in every run a region's own counter is the number of messages, session writes and fence edits it sent, and its messages are numbered one by one |
| Divergences.PullLosesEdit | src/multi-region.js:1437-1465 | a run in which a region pulls newer marks and its own edit and removal of the fence are without effect |
| Divergences.TieLosesEdit | src/multi-region.js:92-94 | a run in which a region receives a tie, edits the fence and keeps the definition of the peer |
| Divergences.RemovalOvertakes | src/multi-region.js:402-407 | a run in which two regions were delivered the same append and removal and hold different nodes |
| Divergences.HeadKeyHangs | src/multi-region.js:1297-1367 | a received append named like the head key leaves a room whose traversal never ends |
| Divergences.ThreeWritersDiverge | src/multi-region.js:601-624 | a run in which two regions know the same three writes of a session and hold different ones |
| Coordinator.MultiRegionCoordinator.JoinRoom | src/multi-region.js:976-989 | through the room objects, takes the step the convergence theorems are about; the client is present unless its tag was already retired |
| Coordinator.MultiRegionCoordinator.LeaveRoom | src/multi-region.js:997-1011 | the same step for leaving: the client is absent afterwards, and an operation is emitted exactly when it had tags here |
| Coordinator.MultiRegionCoordinator.Broadcast | src/multi-region.js:1031-1047 | through clock and room objects, inserts after the last visible message unless an origin is given, under a new id, and emits that operation |
| Coordinator.MultiRegionCoordinator.SaveSession | src/multi-region.js:1059-1069 | through the session map, takes the modelled step; when stored clocks are below the region's, the write is read back and they stay below |
| Coordinator.MultiRegionCoordinator.SetGlobalConfig | src/multi-region.js:1140-1149 | the same for a configuration write |
| Coordinator.MultiRegionCoordinator.SyncGeofence | src/multi-region.js:1102-1113 | through clock and fence set, takes the modelled step; the fence is live with the new definition under the new mark if and only if no stored mark of it is in the way |
| Coordinator.MultiRegionCoordinator.RemoveGeofence | src/multi-region.js:1120-1131 | the same for a removal: the fence is gone if and only if its stored upsert is not above the new mark or was already removed |
| Coordinator.MultiRegionCoordinator.HandlePeerOperation | src/multi-region.js:1297-1367 | advances the clock object, merges the vector clock and applies every kind of operation through the owning object; unknown kinds are refused |
| Coordinator.MultiRegionCoordinator.MergeRemoteState | src/multi-region.js:1437-1465 | restores the snapshot into objects, merges them, counts session conflicts and reports whether the serialised state changed |
| Coordinator.MultiRegionCoordinator.SerializeState | src/multi-region.js:1413-1428 | produces the replica as values, fit to be merged |
| RoomTable.Rooms.Members | src/multi-region.js:1018-1020 | lists exactly the present members, opening the room |
| RoomTable.Rooms.Ensure | src/multi-region.js:959-966 | opens a missing room with empty objects and leaves all others |
| RoomTable.Rooms.Append | src/multi-region.js:1031-1041 | inserts into the one room, after the last visible message by default |
| RoomTable.Rooms.MergeAll | src/multi-region.js:1442-1455 | the loop merges every room of the snapshot into its own |
| LwwMap.LWWMap.Holding | src/multi-region.js:659-665 | a map restored from a snapshot holds its entries |
| Vehicle.FoldConcat | src/event-sourcing.js:879-886 | replaying a log in two parts is replaying it whole |
| Vehicle.CrossingsDisciplined | src/event-sourcing.js:1487-1511 | one fix records an entry only outside and an exit only inside a fence, fence by fence |
| Vehicle.DisciplineAlternates | src/event-sourcing.js:1020-1034 | entries and exits of a fence alternate, and the last one says whether the vehicle is inside |
| Vehicle.DisciplineCounts | src/event-sourcing.js:1024-1034 | entries minus exits is the change in the number of fences the vehicle is inside |
| Vehicle.CrossingsExact | src/event-sourcing.js:1487-1511 | after a fix a fence id is inside exactly when the last fence defined under it contains the fix; undefined ids keep their standing |
| Vehicle.InsideIsWithin | src/event-sourcing.js:1487-1511 | with unique ids, inside is exactly the defined fences within radius |
| Vehicle.DecideLawful | src/event-sourcing.js:1477-1660 | what any handler records fits, event by event, the state it loaded |
| Vehicle.FoldTallies | src/event-sourcing.js:1006-1055 | the folded inside set and counters are those of the crossing events |
| Commands.CommandTakesEffect | src/event-sourcing.js:1477-1664 | for every log and command: what the handler records has the effect of the command on the replayed state, field by field, and nothing is recorded exactly for a join inside, a leave outside, an acknowledgement not above the last |
| Commands.SavedCommandsTakeEffect | src/event-sourcing.js:1266-1283 | in every interleaving each saved command had its effect on the state its predecessors left |
| Commands.StagedAchieves | src/event-sourcing.js:1477-1664 | the same on an aggregate in memory |
| EventStore.LoadStands | src/event-sourcing.js:879-886 | loading a numbered delta onto an aggregate gives the fold and sequence of the longer log |
| EventStore.StageStands | src/event-sourcing.js:894-906 | recorded events are numbered on from the aggregate and leave it at their fold |
| EventStore.LoadIsReplay | src/event-sourcing.js:1240-1257 | snapshot plus delta gives the state and next sequence of a full replay, also when the log grew after the snapshot was read |
| EventStore.SaveExtends | src/event-sourcing.js:1266-1283 | a save that succeeds extends exactly the log prefix its handler read |
| EventStore.InvStep | src/event-sourcing.js:387-432 | every step of any handler keeps the system invariant |
| EventStore.InvRun | src/event-sourcing.js:1240-1311 | the invariant holds in every interleaving |
| EventStore.Serialisable | src/event-sourcing.js:387-432 | every log is numbered 1..n and equals the saved commands run one after another: no update is lost |
| EventStore.SnapshotsAreFolds | src/event-sourcing.js:1292-1311 | every stored snapshot is the fold of the log prefix of its length |
| EventStore.SnapshotTaken | src/event-sourcing.js:1266-1283 | a save captures a snapshot exactly when it succeeded, one is due, and the log length is a multiple of the interval |
| EventStore.WholeRun | src/event-sourcing.js:387-432 | in every interleaving the order of all events restricted to one aggregate is its log, the known ids are those logged, and snapshots stand at multiples of the interval |
| EventStore.FencesAlternate | src/event-sourcing.js:1477-1516 | in every log the handlers produce, a fence's crossings alternate from an entry on and entries minus exits is the size of the inside set |
| EventStore.PublishSettlesFences | src/event-sourcing.js:1477-1516 | after a published finite fix the inside set is right for every fence id |
| EventStore.LogsLawful | src/event-sourcing.js:1527-1660 | in every interleaving each logged event fits the state reached before it: joins outside, leaves inside, acknowledgements above the last |
| WriteSide.InMemoryEventStore.AppendEvents | src/event-sourcing.js:387-432 | all or nothing: refused exactly for an empty or mixed batch, a known event id or a stale expected sequence; otherwise the store is extended by exactly the batch |
| WriteSide.InMemoryEventStore.GetEvents | src/event-sourcing.js:439-444 | returns the events of the aggregate within the given bounds; without an upper one, the read that loading makes |
| WriteSide.InMemoryEventStore.SaveSnapshot | src/event-sourcing.js:486-492 | replaces the snapshot of its aggregate, and nothing else |
| WriteSide.VehicleAggregate.LoadHistory | src/event-sourcing.js:879-886 | the loop leaves the aggregate at the fold |
| WriteSide.VehicleAggregate.Record | src/event-sourcing.js:894-906 | numbers, applies and stages one event |
| WriteSide.VehicleAggregate.RecordEvent | src/event-sourcing.js:894-906 | an event that already carries a sequence number keeps it and raises the next one |
| WriteSide.VehicleAggregate.PublishLocation | src/event-sourcing.js:1477-1517 | the handler's loops record exactly the decided events, in order, and have the effect of a fix |
| WriteSide.VehicleAggregate.JoinRoom | src/event-sourcing.js:1528-1541 | records a join exactly when the vehicle is outside, and leaves it inside |
| WriteSide.VehicleAggregate.LeaveRoom | src/event-sourcing.js:1567-1580 | records a leave exactly when the vehicle is inside, and leaves it outside |
| WriteSide.VehicleAggregate.Acknowledge | src/event-sourcing.js:1605-1628 | records an acknowledgement exactly when it is above the last, a negative one always and without effect |
| WriteSide.VehicleAggregate.UpdateGeofence | src/event-sourcing.js:1635-1645 | the definitions of the room are the given ones, all others as before |
| WriteSide.VehicleAggregate.ResumeSession | src/event-sourcing.js:1653-1663 | the rooms named are joined and their last named acknowledgements taken |
| Projections.ThroughDefaults | src/event-sourcing.js:2408-2413 | the four default projections are applied once each and each marks the event |
| Projections.ApplyMeans | src/event-sourcing.js:1833-1858 | an event is applied exactly when it has not been seen, and the read models then mean one event more |
| Projections.EachEventOnce | src/event-sourcing.js:1825-1876 | for any split, order and overlap of batches: one violation row per crossing, room counters equal to the qualifying events, aggregate sequence the maximum, position from a newest fix |
| ReadModels.ModelsTell | src/event-sourcing.js:1896-1993 | however batched: each crossing has its row with vehicle, fence, room, direction and time; positions are of a newest fix; counters count what they say |
| ReadModels.AppliedTell | src/event-sourcing.js:1896-1993 | over any batches: members are listed since their last applied join, a vehicle stands at its newest fix, of equal times the last applied, violations stand in the order applied, checkpoints name the event applied last |
| Projections.BatchingsAgree | src/event-sourcing.js:1825-1876 | two batchings of the same events agree on counters and crossings and, with distinct times, on every position |
| Projections.NewlyAppliedCounts | src/event-sourcing.js:1825-1857 | the number returned is the number of events not seen before |
| Projections.MembershipByLastMove | src/event-sourcing.js:1940-1951 | over any batches a client is listed exactly when its last applied move is a join |
| Projections.MembershipRightIff | src/event-sourcing.js:1940-1951 | over any batches the listing is right if and only if the last applied move is a join exactly when the newest is |
| Projections.MembershipsAgreeIff | src/event-sourcing.js:1940-1951 | two batchings of the same events list a client alike if and only if they end on the same kind of move |
| Projections.RowsAreMemberships | src/event-sourcing.js:1918-1930 | over any batches the row of a vehicle lists a room if and only if the room lists the vehicle |
| Projections.InOrderIsRight | src/event-sourcing.js:1940-1951 | the listing is right whenever the moves of that client in that room arrive in order of time |
| Projections.OutOfOrderDiverges | src/event-sourcing.js:1940-1951 | one batch and two batches of the same join and leave end with different members |
| Projections.SortedInTimeOrder | src/event-sourcing.js:347-352 | a batch is processed by time, then by id |
| Projections.ProjectionManager.ProcessEvents | src/event-sourcing.js:1825-1857 | the loops compute the batch function, checkpoints included, and its count; the lag counter returns to where it was |
| Projections.ProjectionManager.IsProcessedByAll | src/event-sourcing.js:1865-1876 | true exactly when every projection has marked the event |
| RoomIndex.RejectedChangesNothing | src/room-manager.js:211-307 | a rejected join changes no membership, and nothing at all unless it leaves an empty room |
| RoomIndex.JoinAcceptedIff | src/room-manager.js:229-307 | a join is accepted if and only if every limit that applies to a newcomer has room; the reply names the first limit met |
| RoomIndex.BreakerHolds | src/room-manager.js:133-144 | over any heap readings the breaker is open if and only if the heap reached the upper mark and has stayed above the lower one since |
| RoomIndex.RejoinReplacesSocket | src/room-manager.js:211-307 | re-joining is never refused and only replaces the stored socket |
| RoomIndex.AdmitMembers | src/room-manager.js:276-297 | an accepted join adds that membership and no other |
| RoomIndex.JoinValidIff | src/room-manager.js:211-307 | a join keeps the invariant if and only if it does not create a room nobody may enter |
| RoomIndex.LeaveMembers | src/room-manager.js:318-333 | leaving removes that membership and no other |
| RoomIndex.LeaveValid | src/room-manager.js:318-333 | leaving keeps the invariant |
| RoomIndex.DisconnectMembers | src/room-manager.js:733-755 | disconnecting removes all memberships of the client and no others |
| RoomIndex.DisconnectValid | src/room-manager.js:733-755 | disconnecting keeps the invariant, the total included |
| RoomIndex.RenameMembers | src/room-manager.js:693-717 | where the old id stood the new one stands with the same socket, and nobody else moves |
| RoomIndex.RenameCountsIff | src/room-manager.js:693-717 | the total is off by exactly the number of rooms both ids were in |
| RoomIndex.UpdateValidIff | src/room-manager.js:693-717 | a change of id keeps the invariant if and only if the ids share no room and together respect the per-client limit |
| RoomIndex.IndexesAgree | src/room-manager.js:211-333 | after any run of requests the indexes are exact inverses without empty entries, all limits hold, and the total is the sum of the room sizes |
| RoomIndex.HypothesesNeeded | src/room-manager.js:276-297 | runs that break the invariant when a hypothesis is dropped |
| Replay.EvictLongest | src/room-manager.js:403-407 | the eviction loop keeps the longest suffix within both bounds |
| Replay.EvictIncremental | src/room-manager.js:398-408 | evicting message by message gives what one eviction from the whole history would |
| Replay.BufferIsNewest | src/room-manager.js:365-408 | after any run of broadcasts the buffer is the longest run of newest messages within the count and byte bounds, its byte total exact |
| Replay.ReconnectExact | src/room-manager.js:603-639 | replay is answered if and only if every number after replayFrom < current is buffered, and then with exactly those messages in order; complete exactly when nothing is missing; otherwise the gap's bounds |
| AckWindow.InvNext | src/room-manager.js:415-435 | every broadcast, acknowledgement of an issued number and departure keeps the count within the window, at most what is in flight, and full while paused |
| AckWindow.WindowHolds | src/room-manager.js:415-435 | the same over every run |
| AckWindow.AckExactIff | src/room-manager.js:650-664 | an acknowledgement keeps the count exact if and only if it passes over no withheld number or leaves nothing in flight |
| AckWindow.ExactIffCareful | src/room-manager.js:650-664 | the count is exact throughout a run if and only if every acknowledgement in it is of that kind |
| AckWindow.TrueWindow | src/room-manager.js:415-435 | with careful acknowledgements, and so when no number was skipped, what is truly in flight is what is counted and within the window |
| AckWindow.SafeIffExact | src/room-manager.js:415-435 | a subscription cannot be driven over the window by further messages if and only if its count is the true number in flight |
| AckWindow.NeverOverrunIff | src/room-manager.js:650-664 | at no point of a run can the client be driven over the window if and only if every acknowledgement passes over no withheld number or leaves nothing in flight |
| AckWindow.WindowOverrun | src/room-manager.js:650-664 | the window's own pauses lead to three messages in flight under a window of two |
| RoomManager.EvictOld | src/room-manager.js:403-408 | the while loop computes the eviction and keeps the byte total |
| Dedup.SuppressedWasSent | src/room-manager.js:165-193 | a suppressed message repeats one let through at most a window earlier, whatever was evicted |
| Dedup.SameDecisions | src/room-manager.js:165-193 | while the keys in use fit the cache it filters as if it remembered everything |
| Dedup.SuppressedIff | src/room-manager.js:165-193 | on every run a message is suppressed if and only if one of its key was let through at most a window earlier and fewer new keys than the bound were entered since the key was |
| Dedup.SpacedWhileFitting | src/room-manager.js:165-193 | while the keys in use fit the cache, messages of one key let through are more than a window apart |
| Dedup.CrowdedOut | src/room-manager.js:165-193 | a cache of one lets a repeat through within the window once another key came up |
| RoomManager.RoomManager.IsDuplicate | src/room-manager.js:165-193 | the object computes the modelled filter |
| RoomManager.BroadcastStepsFlows | src/room-manager.js:415-435 | a broadcast moves each subscription by one step of its flow, and is sent exactly where the flow records it |
| RoomManager.BroadcastReaches | src/room-manager.js:415-435 | exactly the members with an open socket and room in their window get the message, the excluded one apart; those without room are paused, and no other window moves |
| RoomManager.DropAckAt | src/room-manager.js:318-350 | a dropped window reads as fresh, and no other moves |
| RoomManager.RoomManager.Join | src/room-manager.js:211-307 | refused by an open circuit breaker; otherwise the modelled join; keeps the invariant, and leaves everything when rejecting |
| RoomManager.RoomManager.Refuse | src/room-manager.js:229-274 | the limits are tried in order, rejoining exempt |
| RoomManager.RoomManager.Leave | src/room-manager.js:318-350 | the modelled leave, the subscription's window dropped, the invariant kept |
| RoomManager.RoomManager.Disconnect | src/room-manager.js:733-755 | the loop vacates every room of the client, all its windows dropped, the invariant kept |
| RoomManager.RoomManager.UpdateClientId | src/room-manager.js:693-717 | the loop renames the client in each of its rooms; the invariant is kept for an id without rooms |
| RoomManager.RoomManager.Broadcast | src/room-manager.js:365-435 | a duplicate changes nothing; otherwise the room's log remains the outcome of everything published to it, other logs untouched, and the message goes to exactly the seated clients with an open socket and room in their window, never to the excluded one; those without room are paused and no other window moves |
| RoomManager.RoomManager.HandleReconnect | src/room-manager.js:603-639 | answers from the outcome of everything published to the room |
| RoomManager.RoomManager.Acknowledge | src/room-manager.js:650-664 | moves exactly the named subscription's window |
| Matrix.MatMul | src/predictor.js:184-199 | the three loops compute the matrix product |
| Matrix.MatVecMul | src/predictor.js:201-213 | the loops compute matrix times vector |
| Matrix.MatAdd | src/predictor.js:215-225 | the loops compute the sum |
| Matrix.MatSub | src/predictor.js:227-237 | the loops compute the difference |
| Matrix.Transposed | src/predictor.js:239-249 | the loops compute the transpose |
| Matrix.LiftMul | src/predictor.js:184-199 | putting one matrix on both axes respects products |
| Matrix.LiftMulVec | src/predictor.js:201-213 | a matrix put on both axes acts on each axis separately |
| Kalman.PredictLifts | src/predictor.js:94-103 | predicting the joint covariance predicts each axis block |
| Kalman.PredictPositive | src/predictor.js:94-103 | predicting with q >= 0 keeps a block positive semidefinite |
| Kalman.PredictVariance | src/predictor.js:94-103 | prediction carries the variance of every combination of position and velocity over by the motion and adds the process noise |
| Kalman.InverseLifts | src/predictor.js:251-258 | for an innovation covariance s I with s^2 at least the threshold the fallback is not taken and the result is the inverse |
| Kalman.InverseOf | src/predictor.js:251-258 | a 2x2 matrix with |det| at least the threshold, times its computed inverse, is the identity |
| Kalman.GainLifts | src/predictor.js:122-129 | the gain is one axis gain on both axes |
| Kalman.JosephLifts | src/predictor.js:132-143 | the Joseph form equals (I - KH) P and updates each axis block |
| Kalman.UpdatePositive | src/predictor.js:132-143 | an update keeps a block positive semidefinite and its position variance below m^2 |
| KalmanFilter.TwoAxes | src/predictor.js:59-146 | after any run the filter is two independent one-axis filters side by side, state and covariance |
| KalmanFilter.CovarianceSound | src/predictor.js:59-146 | in every run P is symmetric positive semidefinite, two equal axis blocks with nothing between them |
| KalmanFilter.InverseExact | src/predictor.js:122-127 | whatever the run, det S >= m^4, the fallback is not taken and S times its computed inverse is the identity |
| KalmanFilter.FixSharpens | src/predictor.js:105-146 | after a fix both position variances are equal, non-negative and below m^2, and the Joseph update equals the short form |
| KalmanFilter.InnovationAt | src/predictor.js:105-119 | a fix is compared with position plus velocity times the seconds since the last fix, or the position itself when time has not moved on |
| KalmanFilter.KeepsTarget | src/predictor.js:105-146 | fixes in order on the path of a target at constant velocity never surprise a filter that is on it, and leave its velocity |
| KalmanFilter.LateFixExpectedIff | src/predictor.js:105-119 | a fix on the path is as expected if and only if it is not earlier than the last or the target rests |
| KalmanFilter.FixBlends | src/predictor.js:122-131 | in every run a fix moves the position by one share on both axes, the position's part of the innovation variance |
| KalmanFilter.Inverted | src/predictor.js:251-258 | computes both branches; outside the threshold the result is the inverse |
| KalmanFilter.GainLoops | src/predictor.js:122-129 | the matrix calls compute innovation covariance and gain |
| KalmanFilter.JosephLoops | src/predictor.js:132-143 | the matrix calls compute the Joseph update |
| KalmanFilter.KalmanFilterCV.Predict | src/predictor.js:94-103 | the object takes the modelled prediction step |
| KalmanFilter.KalmanFilterCV.Update | src/predictor.js:105-146 | the object takes the modelled step, ignores fixes before initialisation, and returns the fix minus position plus velocity times the seconds moved on, and its covariance |
| Compaction.GroupByExact | src/storage/memory.js:407-430 | filling a bucket map gives one bucket per key that occurs, holding exactly its items in order |
| Compaction.GroupByWeight | src/storage/memory.js:447-465 | grouping conserves weight |
| Compaction.TruncationsNest | src/storage/memory.js:52-75 | minute, hour and day truncations nest, for negative times too |
| Compaction.TruncateIs | src/storage/memory.js:52-75 | a bucket starts at the multiple of its width that the time is in the width after |
| Compaction.MinuteTier | src/storage/memory.js:407-441 | one row per room and minute, counting its located raw events |
| Compaction.TopSpeeds | src/storage/memory.js:428-438 | a minute's top speed is the largest its raw events report, absent when none does |
| Compaction.HourTier | src/storage/memory.js:447-492 | the rows rolled up from minutes are those of grouping raw events by hour |
| Compaction.DayTier | src/storage/memory.js:498-537 | the rows rolled up from hours are those of grouping raw events by day |
| Compaction.DistancesRollUp | src/storage/memory.js:467-537 | an hour's distance is the path through its minutes, a day's the sum of its hours' |
| Compaction.TrimmedTier | src/storage/memory.js:380-387 | trimming keeps exactly the rows since the cutoff, still one per room and bucket and rightly counted |
| Compaction.RollUpIsDirect | src/storage/memory.js:361-387 | after compaction every row of every tier counts the located retained raw events of its bucket |
| Compaction.CompactsTo | src/storage/memory.js:361-400 | what a run leaves of the events before it: those since the cutoff, in order, the number of the others, and the three tiers |
| Positions.MinuteReports | src/storage/memory.js:407-441 | a minute's position is the median of the latitudes and the median of the longitudes its events report, and so for altitude; its speed the largest |
| Positions.HourAverages | src/storage/memory.js:447-492 | an hour's position is the mean of its minutes', its distance the path through them |
| Positions.DayAverages | src/storage/memory.js:498-537 | a day's position is the mean of its hours', its distance the sum of theirs |
| Compaction.Bucketed | src/storage/memory.js:407-430 | the bucket loop computes the grouping |
| Compaction.ComputeDownsample1m | src/storage/memory.js:407-441 | the computed rows are the exact minute tier |
| Compaction.ComputeAggregate1h | src/storage/memory.js:447-492 | the loops compute the hour rows |
| Compaction.ComputeAggregate1d | src/storage/memory.js:498-537 | the loops compute the day rows |
| Compaction.MemoryAdapter.Compact | src/storage/memory.js:361-400 | of the events before: keeps exactly those since the cutoff, in order, reports the number of the others, and leaves in each tier one row per room and bucket not aged out, counting the located events kept; a closed adapter changes nothing |
| RateLimiter.EvictedIsRecent | src/rate-limiter.js:42-47 | evicting only when the oldest time is stale is evicting every stale time |
| RateLimiter.CheckRefines | src/rate-limiter.js:34-51 | a check decides as the limiter that keeps all accepted times |
| RateLimiter.SameDecisions | src/rate-limiter.js:34-77 | over every run whose readings for the key do not go back, whatever other keys do, all decisions on it agree |
| RateLimiter.CleanupInvisible | src/rate-limiter.js:67-77 | cleaning up at any points changes no decision |
| RateLimiter.AtMostLimit | src/rate-limiter.js:34-51 | without removal no interval (x, x + width] holds more than the limit of accepted calls |
| RateLimiter.AcceptedIff | src/rate-limiter.js:34-51 | a check is accepted if and only if fewer than the limit were accepted in the width before it |
| RateLimiter.RemovedStartsAfresh | src/rate-limiter.js:58-60 | a removed key starts afresh, and no other notices |
| RateLimiter.CleanedExact | src/rate-limiter.js:67-77 | a clean-up keeps exactly the times in the window, and the keys that have one |
| RateLimiter.ToleratesIff | src/rate-limiter.js:34-77 | all runs whose readings for a key go back at most d agree with the limiter that keeps everything if and only if d or the limit is zero |
| RateLimiter.BackwardClockDiffers | src/rate-limiter.js:34-51 | a concrete run whose reading goes back and whose decision differs |
| RateLimiter.Limiter.Check | src/conn-rate-limiter.js:22-39 | the object computes the modelled check, for both window widths |
| RateLimiter.Limiter.Cleanup | src/rate-limiter.js:67-77 | the loop drops exactly the stale times and the keys left empty |

## Left out

- Hashes, Merkle comparison, peer transport and the anti-entropy loop: the merge they lead to is modelled, the probe is not.
- Data residency filters, quorum acknowledgements, failover, lag alerts and health marks of the coordinator.
- JSON forms of the replicated types; payloads are texts, and strings are ordered by character rather than UTF-16 unit.
- World.SentConsistent: membership tags are taken from the caller, as the coordinator takes them from a random source.
- `message_remove` and `session_delete` are handled but never emitted by the coordinator; in the step system a region may send any removal, and sends no session deletion.
- Room and fleet aggregates, the mirrored room events of join and leave, command deduplication, event metadata, correlation queries and the temporal query `at`.
- EventStore.Serialisable: handlers use a fresh aggregate each, as the repository's `get` returns, and one aggregate type per id.
- PostgreSQL stores and sinks: their behaviour is in SQL that is not part of this model.
- Projections.EachEventOnce: positions only; altitude, accuracy and speed fall back to earlier rows and depend on the order of arrival.
- Room manager nack resend, backpressure batching and slow-consumer timeouts; `Broadcast` models the synchronous path, and the key of a location update is given with it.
- AckWindow.WindowHolds: acknowledgements name numbers already issued; the code does not check this. The window of a client id is not carried over by a change of id.
- RoomManager.Acknowledge: an acknowledgement from a client outside the room creates a window as in the code; nothing is claimed about it.
- Floating point: the filter is over exact reals. Re-origin, predicted trajectories, eigenvalues, ellipse, ETA and anomaly code are not modelled.
- Compaction: median and distance are parameters; run timestamps are not kept. A bucket key is the pair of room and bucket start, which its text form determines.
- RateLimiter.Limiter.Check: times are whole milliseconds and the limit a natural number.
- Coordinator.MultiRegionCoordinator.MergeRemoteState: takes snapshots as serializeState produces them; the per-room change flag is subsumed by the final comparison.
- Projections.ProjectionManager.ProcessEvents: the in-memory sink does not fail, so a failing handler is not modelled.
- Great-circle distance is a parameter everywhere.
- Sockets, HTTP, authentication, validation, logging and metrics.
