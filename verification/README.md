# Verified models of the GPS HAL's state machines and tables

This Dafny project models the stateful parts of the `gps/` tree: the timer heap, the assisted-GPS
connection protocol, the data-item observer, the elapsed-realtime estimator, trip batching, the status
cache with its network-handle table and field splitter, the geofence maps, and the OSNMA Merkle path.
`dafny verify dfyconfig.toml` checks all of it.

Each part has the same shape. Code that updates fields in place is a class whose methods are proved
against functions on values; the promises of the source are then lemmas about those functions, over
every input and every run.

| files | part |
|---|---|
| `RankedTree.dfy`, `HeapRuns.dfy`, `LocHeap.dfy` | the pointer heap: values, runs, nodes |
| `AgpsMachine.dfy`, `Agps.dfy`, `AgpsRuns.dfy`, `AgpsRouting.dfy`, `AgpsLoop.dfy` | connection machine: values, classes, runs, calls type by type, closed loop |
| `SetMap.dfy`, `ObserverIndex.dfy`, `OsObserver.dfy` | subscriptions and delivery |
| `Estimator.dfy` | elapsed-realtime estimator |
| `TripBatching.dfy`, `TripTheorems.dfy`, `TripRuns.dfy`, `TripWorld.dfy`, `TripCommands.dfy` | trips sharing one hardware distance: operations, restarts, what arms the least distance, whole runs, what the hardware is armed with |
| `NetworkTable.dfy`, `ReportHistory.dfy`, `NmeaTokenizer.dfy` | status cache |
| `Geofence.dfy`, `MerklePath.dfy` | geofence maps, Merkle path |
| `Wrappers.dfy`, `Powers.dfy` | optional values, powers of two |

## Where a promise does not hold

The models follow the code. In these places the code does less than its comments or callers expect; the
exact condition is proved.

- `updateSubscription`. The comment on `LocUnorderedSetMap::update` (gps/utils/LocUnorderedSetMap.h:188-190)
  says it returns the values the entry loses; the code returns the values it keeps. So
  `updateSubscription` leaves the two maps inverse if and only if the client had no items before
  (`UpdateInverseIff`), and the example in gps/core/observer/IDataItemSubscription.h:69-76 fails
  (`DocumentedUpdateFails`). Every other message always keeps the maps inverse (`HandleInverseIff`).
- A data request for an item nobody had is not sent to the framework as a subscription, so the
  framework's set then misses a key, and a new subscription object keeps what it was subscribed to;
  every other message keeps the set equal to the keys (`HandleTracksIff`).
- The connection loop. `dataConnOpenCommand` (gps/gnss/GnssAdapter.cpp:6463-6469) answers a bad access
  point name by a nested close, which the machine ignores (`NestedCloseIsLost`), and the native handler
  ignores types other than WWAN_ANY. A wait that starts is answered exactly under the condition of
  `WaitAnsweredIff`; a 101-character name leaves the machine pending for good (`LongNameSticks`).
- A client that unsubscribes, waits for the close and subscribes again meanwhile stays inactive in the
  list (`SubscribeActiveIff`), although it is told success when the connection is open; the connection
  is given back when the other clients leave (`ReleaseIff`).
- Trip batching. When a trip stops, the batch restarts from the distances on record, which are those of
  the last report or restart.
  - After the armed distance was dropped or reached it arms the least recorded distance: in time if and
    only if a nearest trip's record is current. For the interval alone it arms the whole old distance: in
    time if and only if nobody has less to go (`RestartInTimeIff`; `StopArmsIff` says when the armed
    distance is the least to go again). `DroppedRestartIsLate` and `IntervalRestartIsLate` are reached
    from the empty batch. Nothing clears the mark that the distance was dropped, so each later stop
    restarts this way (`DroppedForGood`).
  - A trip that joins and restarts the batch takes from every running trip's distance what the hardware
    has gone since that trip's last record, and nothing if and only if it has not moved since
    (`JoinLosesIff`, `JoinIsLate`; with refused restarts of joins and engine restarts in the run, `RunAgrees`
    keeps the account).
  - The client of a joining trip is told success although the trip is not recorded if and only if the
    distance query fails and no restart is refused. A client is told failure although its trip is recorded
    if and only if the hardware refuses a first trip while the engine lock is disabled, or the restart for
    a recorded joining trip (`StartRecordsIff`, `LockedStartStays`). In these cases, and on a refused
    engine restart, the hardware is not armed with what is recorded (`InStepIff`).
  - After an engine restart the trips keep the batch distance at which they joined, because the source
    resets copies of them. The hardware is armed with the least to go exactly under the condition of
    `EngineArmsIff`; the next report wraps a trip's distance around exactly under that of `EngineWrapsIff`,
    and such a trip is told as completed at once (`WrapsIff`, `EngineRestartTellsWrongly`).
- `collate` keeps the type mask in step with the handle table only under the conditions of
  `ConnectAgreesIff` and `DisconnectAgreesIff`.
- Geofences. Saving keeps every key linked to its own geofence if and only if no other key holds the
  hardware id (`SaveLinkedIff`); over runs this follows when the engine never reissues an id that is
  stored or awaits the removal reply of a stopped client.
- `mSize` counts the node itself, although its comment (gps/utils/LocHeap.cpp:36) excludes it, and
  `remove` finds an object by address, although gps/utils/LocHeap.h says by rank.

## Model

| member | source | states |
|---|---|---|
| RankedTree.TopIsHighest | gps/utils/LocHeap.h:62-65 | in an ordered tree nothing stored outranks the top, for any strict weak order |
| RankedTree.CheckNodesDecides | gps/utils/LocHeap.cpp:199-222 | the checker accepts a tree exactly when all stored sizes are right and no child outranks its parent |
| RankedTree.PushAdds | gps/utils/LocHeap.cpp:109-126 | push adds exactly the pushed element |
| RankedTree.PushCounts | gps/utils/LocHeap.cpp:109-126 | push keeps every stored size equal to the node count |
| RankedTree.PushKeepsOrder | gps/utils/LocHeap.cpp:109-126 | push keeps heap order |
| RankedTree.PushToSmaller | gps/utils/LocHeap.cpp:115-125 | in any tree with right sizes push adds its node to the smaller subtree, the left one when even, and leaves the other as it is |
| RankedTree.PushTop | gps/utils/LocHeap.cpp:109-114 | a new element takes the top only if it outranks it |
| RankedTree.PopDropsTop | gps/utils/LocHeap.cpp:136-166 | pop takes out exactly the top element |
| RankedTree.PopKeepsOrder | gps/utils/LocHeap.cpp:136-166 | pop keeps heap order, and the new top does not outrank the old one |
| RankedTree.PopPromotes | gps/utils/LocHeap.cpp:136-166 | the higher ranked child takes the top, of equals the right one, and the other subtree stays |
| RankedTree.RemoveFinds | gps/utils/LocHeap.cpp:172-195 | despite pruning by rank, remove finds an element exactly when it is stored |
| RankedTree.RemoveTakesOne | gps/utils/LocHeap.cpp:172-195 | remove takes out exactly one occurrence |
| RankedTree.RemoveKeepsOrder | gps/utils/LocHeap.cpp:172-195 | remove keeps heap order |
| RankedTree.RemoveSide | gps/utils/LocHeap.cpp:172-195 | an element in both subtrees is taken from the left one, and the other subtree stays |
| RankedTree.RemovePrunes | gps/utils/LocHeap.cpp:172-195 | an element that outranks the top is not searched for |
| HeapRuns.RunRefines | gps/utils/LocHeap.cpp:230-269 | any run of push, pop and remove answers as a multiset priority queue would, and leaves a heap |
| HeapRuns.RunPassesCheck | gps/utils/LocHeap.cpp:274-276 | after any run from the empty heap the checker accepts the tree |
| HeapRuns.HeapSorts | gps/utils/LocHeap.cpp:230-256 | pushing any elements and popping until empty gives them back sorted by rank |
| HeapRuns.PushBalances | gps/utils/LocHeap.cpp:115-125 | push keeps right size <= left size <= right size + 1 at every node |
| HeapRuns.PushAllHeight | gps/utils/LocHeap.cpp:102-108 | n pushes build a tree of height h with 2^(h-1) <= n < 2^h |
| LocHeapModule.LocHeapNode.Push | gps/utils/LocHeap.cpp:109-126 | in place: the nodes stay an unshared tree, gain exactly the new node, and hold the pushed value tree |
| LocHeapModule.LocHeapNode.Pop | gps/utils/LocHeap.cpp:136-166 | in place: the detached node carries the old top's data, is childless and no longer among the nodes |
| LocHeapModule.LocHeapNode.Remove | gps/utils/LocHeap.cpp:172-195 | in place: NULL leaves every node unchanged, else one childless node holding the element is detached |
| LocHeapModule.LocHeapNode.CheckNodes | gps/utils/LocHeap.cpp:199-222 | the recursive check with subtraction of stored sizes decides sizes and order |
| LocHeapModule.LocHeap.Push | gps/utils/LocHeap.cpp:230-237 | the stored multiset gains the element; heap invariants hold |
| LocHeapModule.LocHeap.Peek | gps/utils/LocHeap.cpp:239-245 | NULL exactly when empty, else an element nothing stored outranks |
| LocHeapModule.LocHeap.Pop | gps/utils/LocHeap.cpp:247-256 | NULL exactly when empty, else takes out an element nothing stored outranks |
| LocHeapModule.LocHeap.PopNode | gps/utils/LocHeap.cpp:247-253 | the node to delete is a childless node outside the tree |
| LocHeapModule.LocHeap.Remove | gps/utils/LocHeap.cpp:258-269 | returns the element exactly when stored, taking out one occurrence; otherwise nothing changes |
| LocHeapModule.LocHeap.GetTreeSize | gps/utils/LocHeap.cpp:277-279 | the cached size is the number of stored elements |
| Agps.AgpsStateMachine.NotifyAllSubscribers | gps/gnss/Agps.cpp:352-385 | the audience is notified in list order and, when asked, exactly it is deleted |
| Agps.AgpsStateMachine.AddSubscriber | gps/gnss/Agps.cpp:434-453 | appends a clone unless the handle is listed; handles stay distinct |
| Agps.AgpsStateMachine.DeleteSubscriber | gps/gnss/Agps.cpp:455-472 | deletes the subscriber with the handle and keeps the others in order |
| Agps.AgpsStateMachine.AnyActiveSubscribers | gps/gnss/Agps.cpp:474-484 | true exactly when some listed subscriber is active |
| Agps.AgpsStateMachine.GetSubscriber | gps/gnss/Agps.cpp:507-520 | NULL exactly when no listed subscriber has the handle |
| Agps.AgpsStateMachine.ProcessAgpsEventSubscribe | gps/gnss/Agps.cpp:110-144 | new state, list and callbacks of SUBSCRIBE in each state |
| Agps.AgpsStateMachine.ProcessAgpsEventUnsubscribe | gps/gnss/Agps.cpp:146-208 | new state, list and callbacks of UNSUBSCRIBE, through the aliased list element |
| Agps.AgpsStateMachine.ProcessAgpsEventGranted | gps/gnss/Agps.cpp:210-231 | new state and callbacks of GRANTED |
| Agps.AgpsStateMachine.ProcessAgpsEventReleased | gps/gnss/Agps.cpp:233-278 | new state, list and callbacks of RELEASED |
| Agps.AgpsStateMachine.ProcessAgpsEventDenied | gps/gnss/Agps.cpp:280-320 | new state, list and callbacks of DENIED |
| Agps.AgpsManager.RequestATL | gps/gnss/Agps.cpp:609-644 | subscribes with the machine of the type, or reports failure when there is none |
| Agps.AgpsManager.ReleaseATL | gps/gnss/Agps.cpp:646-672 | unsubscribes where the handle is listed first, else nothing; the other machine is untouched |
| Agps.AgpsManager.ReportAtlOpenSuccess | gps/gnss/Agps.cpp:674-693 | GRANTED to the machine of the type, the other untouched |
| Agps.AgpsManager.ReportAtlOpenFailed | gps/gnss/Agps.cpp:695-704 | DENIED to the machine of the type |
| Agps.AgpsManager.ReportAtlClosed | gps/gnss/Agps.cpp:706-715 | RELEASED to the machine of the type |
| Agps.AgpsManager.HandleModemSSR | gps/gnss/Agps.cpp:717-728 | both lists empty, states and callbacks unchanged |
| AgpsRuns.StepKeeps | gps/gnss/Agps.cpp:110-320 | each event keeps list and state consistent: RELEASED has no subscribers, handles are distinct, PENDING and ACQUIRED have an active one, RELEASING an inactive one (after a modem restart the list may be empty) |
| AgpsRuns.StepLists | gps/gnss/Agps.cpp:387-453 | who is listed after each event, in each state |
| AgpsRuns.ReleaseIff | gps/gnss/Agps.cpp:146-208 | the connection is given back exactly when an unsubscribe leaves no active subscriber; a list that empties rests in RELEASED |
| AgpsRuns.UnsubscribeTold | gps/gnss/Agps.cpp:146-208 | who unsubscribes is told the close once at once, unless it stays listed, inactive; no other client is told a close or stops being active |
| AgpsRuns.SubscribeActiveIff | gps/gnss/Agps.cpp:434-453 | after a subscribe the handle is active exactly when it was not listed, or active already |
| AgpsRuns.ManageAllKeeps | gps/gnss/Agps.cpp:609-728 | any sequence of manager calls keeps both machines consistent |
| AgpsRuns.StepBalances | gps/gnss/Agps.cpp:110-350 | requests = releases + denials while pending + forced closes while acquired + 1 if a connection is open or awaited |
| AgpsRuns.RequestsAlternate | gps/gnss/Agps.cpp:326-350 | at every moment of every run at most one request is open and none is released without one |
| AgpsRuns.StepConserves | gps/gnss/Agps.cpp:352-422 | a handle is told its end exactly in the step in which it leaves the list, once |
| AgpsRuns.StepTellsOpen | gps/gnss/Agps.cpp:352-385 | success is told once, exactly to the active subscribers when the awaited connection opens and to who subscribes to an open one |
| AgpsRuns.ManageConserves | gps/gnss/Agps.cpp:609-715 | the same through the manager with both machines; a missing machine answers with one failure |
| AgpsRouting.OtherUntouched | gps/gnss/Agps.cpp:580-607 | SUPL, SUPL_ES and INVALID reach only the assisted-GNSS machine, WWAN_ANY and ANY only the internet one |
| AgpsRouting.RequestReaches | gps/gnss/Agps.cpp:609-644 | a request lists its handle, waiting for a close, with the machine of its type and makes the calls of its state; without a machine it gets one failure |
| AgpsRouting.SuccessReaches | gps/gnss/Agps.cpp:674-693 | a success acquires the pending machine of its type and tells exactly the active |
| AgpsRouting.FailureReaches | gps/gnss/Agps.cpp:695-704 | a failure empties the pending machine of its type, with a failure to each |
| AgpsRouting.CloseReaches | gps/gnss/Agps.cpp:706-715 | a close empties the acquired machine of its type, with a close to each |
| AgpsRouting.ReleaseEnds | gps/gnss/Agps.cpp:233-320 | a close or failure while releasing: the waiting are told and leave, the active get a new request |
| AgpsRouting.StrayReports | gps/gnss/Agps.cpp:210-320 | reports a machine does not wait for change and call nothing |
| AgpsRouting.ReleaseReaches | gps/gnss/Agps.cpp:646-672 | a release goes to the machine that lists the handle, assisted GNSS first, else nothing happens |
| AgpsRouting.RestartEmptiesBoth | gps/gnss/Agps.cpp:717-728 | a modem restart empties both lists, keeps the states and calls nothing |
| AgpsRouting.WholeConnection | gps/gnss/Agps.cpp:609-728 | for each type, one client from request over success and release to the close: listed until the close, each step told once |
| AgpsLoop.NativeAgpsHandler.Notify | gps/gnss/NativeAgpsHandler.cpp:84-104 | connection and access point name are those of the latest network information |
| AgpsLoop.KnownIsLatest | gps/gnss/NativeAgpsHandler.cpp:84-104 | the latest network information counts, connected when its lowest type bit is set |
| AgpsLoop.AnswerIs | gps/gnss/NativeAgpsHandler.cpp:140-162 | the message for each request and release, by type, connection and name; the close inside the callback exactly when a served request gets none |
| AgpsLoop.OpenAsksIff | gps/gnss/GnssAdapter.cpp:6448-6455 | a success is put off for a network type question exactly when there is a library and a name, else it opens the connection at once |
| AgpsLoop.NativeAgpsHandler.ProcessATLRequestRelease | gps/gnss/NativeAgpsHandler.cpp:140-162 | which message, if any, answers a request or a release, and when it reports the close before it returns |
| AgpsLoop.NativeAgpsHandler.DataConnOpen | gps/gnss/GnssAdapter.cpp:6461-6469 | a success message for a valid access point name, else a nested reportAtlClosed |
| AgpsLoop.NestedCloseIsLost | gps/gnss/Agps.cpp:110-320 | a step whose request is answered by a nested close, at the point of the callback, ends as if it had not been |
| AgpsLoop.NextKeepsLive | gps/gnss/Agps.cpp:110-320 | every move of clients, network, queue and modem keeps a reply on its way whenever the machine waits |
| AgpsLoop.NeverStuck | gps/gnss/NativeAgpsHandler.cpp:140-162 | any run whose replies are all handled rests in RELEASED without subscribers or in ACQUIRED with every active subscriber told |
| AgpsLoop.DrainingEnds | gps/gnss/GnssAdapter.cpp:6391-6400 | handling replies, in any order and with deferred network type answers, takes a bounded number of steps |
| AgpsLoop.WaitAnsweredIff | gps/gnss/GnssAdapter.cpp:6461-6469 | exact condition under which a wait that starts has a reply coming |
| AgpsLoop.JoinAnsweredIff | gps/gnss/NativeAgpsHandler.cpp:140-162 | a first subscription is answered exactly for WWAN_ANY and, when connected, a valid name; else it pends with nothing coming |
| AgpsLoop.LongNameSticks | gps/utils/gps_extended_c.h:856 | a connected network with a 101-character name leaves the machine pending |
| SetMap.LocUnorderedSetMap.TrimOrRemove | gps/utils/LocUnorderedSetMap.h:142-153 | entries lose the values, emptied entries go, and the gone keys and values are exact |
| SetMap.LocUnorderedSetMap.AddToAll | gps/utils/LocUnorderedSetMap.h:179-186 | entries gain the values and the new keys are exact |
| SetMap.LocUnorderedSetMap.Update | gps/utils/LocUnorderedSetMap.h:191-201 | replaces the entry; returns the values it keeps and leaves those that are new |
| ObserverIndex.UpdateInverseIff | gps/core/SystemStatusOsObserver.cpp:177-221 | updateSubscription keeps the maps inverse if and only if the client had no items |
| ObserverIndex.DocumentedUpdateFails | gps/core/observer/IDataItemSubscription.h:69-76 | the documented example leaves the client listed for 1, 4 and 5 instead of 2 to 5 |
| ObserverIndex.HandleInverseIff | gps/core/SystemStatusOsObserver.cpp:94-310 | every message keeps the maps inverse, without empty entries, exactly when it is not such an update |
| ObserverIndex.RunInverse | gps/core/SystemStatusOsObserver.cpp:94-310 | so does every run without such updates |
| ObserverIndex.RunIntended | gps/core/observer/IDataItemSubscription.h:49-128 | over any run each client's own entry is what the interface promises |
| ObserverIndex.HandleTracksIff | gps/core/SystemStatusOsObserver.cpp:101-111 | the framework's set stays equal to the item keys exactly unless a data request brings a new key or a new object is already subscribed to others |
| ObserverIndex.RunTracks | gps/core/SystemStatusOsObserver.cpp:135-300 | over any run without data requests the framework's set equals the item keys, once attached |
| ObserverIndex.HandleFramework | gps/core/SystemStatusOsObserver.cpp:94-310 | the framework's subscription after each message, item by item |
| ObserverIndex.HandleRequests | gps/core/SystemStatusOsObserver.cpp:101-150 | what the framework is asked for: the items nobody had on an attached data request, all keys on attaching, else nothing |
| ObserverIndex.RunAllKnown | gps/core/SystemStatusOsObserver.cpp:94-310 | over any run every wanted item is subscribed with the framework or was asked for |
| ObserverIndex.CachedIsLatest | gps/core/SystemStatusOsObserver.cpp:484-512 | after a batch the cache holds the value accepted last |
| ObserverIndex.NotifyIsExact | gps/core/SystemStatusOsObserver.cpp:327-360 | one batch gives each client, in one call, exactly its accepted items with the values after the batch |
| ObserverIndex.RunThenNotify | gps/core/SystemStatusOsObserver.cpp:327-360 | after any run without harmful updates a batch reaches exactly the clients that should have its items |
| OsObserver.SystemStatusOsObserver.SetSubscriptionObj | gps/core/SystemStatusOsObserver.cpp:101-111 | the new object is subscribed to all item keys, besides what it was |
| OsObserver.SystemStatusOsObserver.Subscribe | gps/core/SystemStatusOsObserver.cpp:135-153 | new maps, framework set, and first response from the cache |
| OsObserver.SystemStatusOsObserver.UpdateSubscription | gps/core/SystemStatusOsObserver.cpp:177-221 | new maps and framework set; the first response holds the new items only |
| OsObserver.SystemStatusOsObserver.Unsubscribe | gps/core/SystemStatusOsObserver.cpp:244-260 | new maps and framework set |
| OsObserver.SystemStatusOsObserver.UnsubscribeAll | gps/core/SystemStatusOsObserver.cpp:280-300 | new maps and framework set |
| OsObserver.SystemStatusOsObserver.SendCachedDataItems | gps/core/SystemStatusOsObserver.cpp:456-482 | at most one call, holding exactly the cached items among those asked |
| OsObserver.SystemStatusOsObserver.Notify | gps/core/SystemStatusOsObserver.cpp:327-360 | the cache after the batch, one call per client found, earlier calls kept |
| Estimator.ElapsedRealtimeEstimator.GetElapsedRealtimeEstimateNanos | gps/core/LocApiBase.cpp:1022-1072 | new memory and estimate of one call |
| Estimator.CalibrationSetsOffset | gps/core/LocApiBase.cpp:1053-1055 | the fix at threshold 0 fixes the offset boot - data - initial travel time |
| Estimator.UncalibratedReads | gps/core/LocApiBase.cpp:1041-1071 | over any stream, with jumps, until calibration each estimate is the boot clock less the initial travel time, or -1 without clocks |
| Estimator.RecalibratesAfterJump | gps/core/LocApiBase.cpp:1046-1066 | after a jump exactly four trusted fixes pass before the one that calibrates |
| Estimator.ClosedForm | gps/core/LocApiBase.cpp:1056-1060 | until a jump every trusted fix returns its data time plus that offset, with untrusted fixes and failed clock reads in between |
| Estimator.EstimatesFollowData | gps/core/LocApiBase.cpp:1022-1072 | from the calibrating fix on, differences of estimates are differences of data times |
| Estimator.WallClockIrrelevant | gps/core/LocApiBase.cpp:1022-1072 | streams that differ only in the wall clock give the same estimates, across jumps too |
| Estimator.SteadyCounts | gps/core/LocApiBase.cpp:1065 | each trusted fix without a jump brings calibration one fix nearer |
| Estimator.SixthCalibrates | gps/core/LocApiBase.cpp:1041-1071 | from data times and intervals alone: while trusted fixes keep pace, the estimates until the sixth read the clock, and from the sixth on are data time plus an offset that the sixth gives |
| Estimator.OutOfPaceStartsOver | gps/core/LocApiBase.cpp:1046-1048 | a trusted fix out of pace makes all later estimates those of an estimator that has seen nothing before it |
| TripBatching.BatchingAdapter.TakeCompleted | gps/batching/BatchingAdapter.cpp:752-780 | completed trips leave in order, live ones get their distance, dropped flags are set |
| TripBatching.BatchingAdapter.ReportCompletedTrips | gps/batching/BatchingAdapter.cpp:750-789 | completed ids are told once and the batch restarts when some trip completed |
| TripBatching.BatchingAdapter.RestartTripBatching | gps/batching/BatchingAdapter.cpp:1018-1122 | new distance and interval, hardware call, and rebased trips on success |
| TripBatching.BatchingAdapter.StopTrip | gps/batching/BatchingAdapter.cpp:949-1002 | the stopped trip leaves, flags are set, the batch restarts or is cleared and the hardware stopped |
| TripBatching.BatchingAdapter.StartTrip | gps/batching/BatchingAdapter.cpp:838-948 | the first trip starts the hardware and stays when accepted or the engine lock is disabled; a later one joins the batch and restarts it for a nearer distance or a shorter interval; the response to the client |
| TripBatching.BatchingAdapter.RestartSessions | gps/batching/BatchingAdapter.cpp:294-330 | after an engine restart the hardware starts with the least recorded distance and interval; the trips stay as they are |
| TripTheorems.LeastRecorded | gps/batching/BatchingAdapter.cpp:1041-1050 | the running minimum with 0 as none is positive, attained, and below every recorded remaining distance |
| TripTheorems.LeastRemainingIsLeast | gps/batching/BatchingAdapter.cpp:1041-1050 | with current records it is the least distance to go |
| TripTheorems.RebaseConserves | gps/batching/BatchingAdapter.cpp:1104-1114 | restarting the batch from 0 leaves each trip's own distance unchanged, given no 32-bit wrap |
| TripTheorems.ReportRearms | gps/batching/BatchingAdapter.cpp:756-786 | after a report at or past the armed distance, or one that completes a trip of that distance, every live trip has at least the new distance to go, one exactly that, and the interval suits all |
| TripTheorems.RestartInTimeIff | gps/batching/BatchingAdapter.cpp:1060-1120 | with records of any age: when the hardware reports no later than the first trip to complete, without a restart, after one for the distance, and after one for the interval alone |
| TripTheorems.RestartArms | gps/batching/BatchingAdapter.cpp:1074-1089 | late hardware included: a restart arms the least recorded distance exactly when the old one was dropped or reached or a trip has less left by its record; else the old one |
| TripTheorems.RestartInterval | gps/batching/BatchingAdapter.cpp:1090-1097 | when a restart changes the interval, to which, and when there is a call at all |
| TripTheorems.NothingLeft | gps/batching/BatchingAdapter.cpp:1041-1089 | when the last trip has nothing left on record: the restart arms 0 while the armed distance runs, else keeps the old one |
| TripTheorems.StopMarks | gps/batching/BatchingAdapter.cpp:982-992 | a stop marks the armed distance or running interval as dropped exactly when it is the stopped trip's |
| TripTheorems.ReportMarks | gps/batching/BatchingAdapter.cpp:756-777 | a report does so exactly when a completed trip has it |
| TripTheorems.DistanceRestartIff | gps/batching/BatchingAdapter.cpp:1074-1086 | with the hardware in time before, the restart is for the distance exactly when that was dropped or reached |
| TripRuns.ReportArms | gps/batching/BatchingAdapter.cpp:756-786 | a report at or past the armed distance completes some trip and leaves the batch armed with the least to go |
| TripRuns.EarlyReportArms | gps/batching/BatchingAdapter.cpp:756-786 | one before it completes no trip and leaves the batch armed |
| TripRuns.ReportFollows | gps/batching/BatchingAdapter.cpp:756-786 | over one report, at any distance, a trip is told exactly when it has gone its distance, else it goes on with what is left |
| TripRuns.FirstStartArms | gps/batching/BatchingAdapter.cpp:852-863 | the first trip leaves the hardware armed with the distance to go |
| TripRuns.JoinArmsIff | gps/batching/BatchingAdapter.cpp:906-933 | exactly when a joining trip with an answered query leaves the batch armed with the least distance to go, with records of any age |
| TripRuns.JoinFollows | gps/batching/BatchingAdapter.cpp:906-933 | then every other trip has as much to go as before, and the new one its whole distance |
| TripRuns.StartRecordsIff | gps/batching/BatchingAdapter.cpp:852-944 | when a new trip is recorded, exactly when its client is told success although it is not, and exactly when it is told failure although it is |
| TripRuns.JoinCalls | gps/batching/BatchingAdapter.cpp:886-944 | the call for a joining trip, with its query answered or failed: when there is one, and that it arms the nearer distance and the shorter interval |
| TripRuns.JoinInTimeIff | gps/batching/BatchingAdapter.cpp:897-915 | when joining makes the hardware report no later than before: always with an answered query, else only under the stated condition |
| TripRuns.StopArmsIff | gps/batching/BatchingAdapter.cpp:982-1122 | exactly when a stop leaves the batch armed with the least to go |
| TripRuns.EngineArmsIff | gps/batching/BatchingAdapter.cpp:294-330 | exactly when an engine restart leaves the hardware armed with the least to go |
| TripRuns.ResumeArms | gps/batching/BatchingAdapter.cpp:294-330 | an engine restart calls for the least recorded distance and the least interval; refused, it leaves neither on record |
| TripRuns.EngineWrapsIff | gps/batching/BatchingAdapter.cpp:301-318 | exactly when no trip's distance wraps around at the report after an engine restart |
| TripRuns.WrapsIff | gps/batching/BatchingAdapter.cpp:760-763 | when a trip's distance wraps around at a report, and when it is then taken for completed |
| TripWorld.ReportTellsIff | gps/batching/BatchingAdapter.cpp:756-765 | a trip is told in a report exactly when its goal, put off by what joins lost, is reached |
| TripWorld.RunAgrees | gps/batching/BatchingAdapter.cpp:750-1122 | over any run, with refused calls, a join's query failed, any answer to a stop's query, reports at any distance and engine restarts, as long as the trip's distance does not wrap: its account agrees with its record, and it is told exactly when the account says |
| TripWorld.JoinLosesIff | gps/batching/BatchingAdapter.cpp:926-933 | over any run from the start with the engine up and no join's restart refused: a join that restarts takes from a running trip exactly what the hardware has gone since its last record, and nothing exactly when that is zero |
| TripWorld.ToldOnTime | gps/batching/BatchingAdapter.cpp:750-1122 | while other trips join, complete and stop under the exact conditions: a trip is told exactly once, at exactly its distance, or is still running and not past it |
| TripWorld.EveryTripTold | gps/batching/BatchingAdapter.cpp:756-786 | when no trip joins or stops any more, the reports until none is left tell each trip, at its distance; that nothing wraps is derived |
| TripWorld.DriveEnds | gps/batching/BatchingAdapter.cpp:756-786 | these reports are no more than there are trips |
| TripWorld.JoinIsLate | gps/batching/BatchingAdapter.cpp:926-933 | a nearer trip joining after some distance, from the empty batch: the running trip will be told that much late |
| TripWorld.DroppedRestartIsLate | gps/batching/BatchingAdapter.cpp:982-1002 | stopping the nearer of two trips, from the empty batch: the hardware is armed with more than the other has to go |
| TripWorld.IntervalRestartIsLate | gps/batching/BatchingAdapter.cpp:1090-1095 | stopping the faster of two trips, from the empty batch: the whole old distance is armed again |
| TripWorld.DroppedForGood | gps/batching/BatchingAdapter.cpp:989-992 | once the armed distance was dropped, after any run every stop that leaves a trip arms the least recorded distance |
| TripWorld.LockedStartStays | gps/batching/BatchingAdapter.cpp:852-873 | a first trip refused with the engine lock disabled: failure is told, the trip is recorded, starts with the engine, and is late by what was gone before |
| TripWorld.EngineRestartTellsWrongly | gps/batching/BatchingAdapter.cpp:301-318 | from the empty batch: after an engine restart a trip is told as completed short of its distance, and one that has gone its distance is not |
| TripCommands.InStepIff | gps/batching/BatchingAdapter.cpp:276-1122 | after every report, stop, start and engine restart the hardware is armed with what the adapter records, exactly except for what is refused and recorded all the same |
| TripCommands.RunSuits | gps/batching/BatchingAdapter.cpp:1052-1095 | over any accepted commands the recorded interval is exactly the least that a running trip asks for |
| NetworkTable.ConnectAdds | gps/core/SystemStatus.h:541-555 | connecting adds exactly the handle at the end; a full table or a known handle changes nothing |
| NetworkTable.DisconnectDeletes | gps/core/SystemStatus.h:557-588 | disconnecting deletes exactly the entry of that handle and type, if there is one |
| NetworkTable.DisconnectUndoesConnect | gps/core/SystemStatus.h:541-588 | disconnecting a handle just connected restores the table |
| NetworkTable.DisconnectedTypeBit | gps/core/SystemStatus.h:590-594 | after a disconnect of a type its bit is set if and only if a handle of the type is left |
| NetworkTable.ConnectAgreesIff | gps/core/SystemStatus.h:539-555 | when the mask still agrees with the table after a connect |
| NetworkTable.DisconnectAgreesIff | gps/core/SystemStatus.h:556-594 | when the mask still agrees with the table after a disconnect |
| NetworkTable.RunKeepsTable | gps/core/SystemStatus.h:525-598 | over any events the known handles stay a hole-free list of distinct entries |
| NetworkTable.CollateEntries | gps/core/SystemStatus.h:525-598 | the exact entries after a collate, for connects, disconnects and disconnects without a type bit |
| NetworkTable.CollateMask | gps/core/SystemStatus.h:539-597 | every bit of the mask after a collate |
| NetworkTable.NameIsFirstSinceMobile | gps/core/SystemStatus.h:529-538 | after any events the access point name is the first that is not empty since the latest mobile event |
| NetworkTable.MobileApnStays | gps/core/SystemStatus.h:529-538 | the access point name of a mobile event stays over any run of other events |
| NetworkTable.SystemStatusNetworkInfo.Collate | gps/core/SystemStatus.h:525-598 | the array edit: table, mask and access point name after collating, whatever types the unused slots hold |
| NetworkTable.SystemStatusNetworkInfo.Equals | gps/core/SystemStatus.h:514-524 | true exactly when mask, connection, access point name and all entries agree |
| ReportHistory.Report.SetItemInReport | gps/core/SystemStatus.cpp:1508-1525 | ignore, refresh the time of an equal latest item, or store and drop the oldest |
| ReportHistory.Report.SetDefaultItemInReport | gps/core/SystemStatus.cpp:1528-1534 | a default keeps the bound of 5 |
| ReportHistory.Report.GetItemInReport | gps/core/SystemStatus.cpp:1537-1544 | the latest item alone, or nothing |
| ReportHistory.HistoryIsTail | gps/core/SystemStatus.cpp:1508-1525 | the history is the last 5 of the accepted stream with equal neighbours collapsed to their first |
| ReportHistory.ChangeReported | gps/core/SystemStatus.cpp:1508-1525 | a change is reported exactly when the collapsed stream grows |
| ReportHistory.LatestTime | gps/core/SystemStatus.cpp:1508-1517 | over any stream the latest entry carries the reported time of the latest accepted item |
| NmeaTokenizer.SystemStatusNmeaBase.Tokenize | gps/core/SystemStatus.cpp:110-120 | the shrinking-string loop yields the comma-ended fields |
| NmeaTokenizer.ParseSentence | gps/core/SystemStatus.cpp:93-121 | splitting comma-joined fields, a star and a checksum gives back exactly the fields |
| NmeaTokenizer.ParseEmptyIff | gps/core/SystemStatus.cpp:93-121 | there are fields exactly for a debug sentence of the right length with a star |
| NmeaTokenizer.ParseIsLossless | gps/core/SystemStatus.cpp:93-121 | for any accepted text with a star the fields and the dropped rest rebuild it, first star replaced; no field holds a comma |
| Geofence.GeofenceAdapter.SaveGeofenceItem | gps/geofence/GeofenceAdapter.cpp:698-715 | both maps after a save |
| Geofence.GeofenceAdapter.RemoveGeofenceItem | gps/geofence/GeofenceAdapter.cpp:718-740 | both maps after a removal reply |
| Geofence.GeofenceAdapter.StopClientSessions | gps/geofence/GeofenceAdapter.cpp:89-118 | ends, taking out exactly the client's keys and asking one removal for each |
| Geofence.GeofenceAdapter.GeofenceBreach | gps/geofence/GeofenceAdapter.cpp:842-873 | one call per client with a callback and a share, in client order |
| Geofence.RunKeepsLinked | gps/geofence/GeofenceAdapter.cpp:698-779 | over any run every listed key leads to the geofence that bears it, if the engine does not reissue ids in use |
| Geofence.SaveLinkedIff | gps/geofence/GeofenceAdapter.cpp:712-713 | without that promise: a save keeps this exactly when no other key holds the hardware id |
| Geofence.RemoveUndoesSave | gps/geofence/GeofenceAdapter.cpp:698-740 | removing a fence just saved restores both maps |
| Geofence.StopErasesClient | gps/geofence/GeofenceAdapter.cpp:89-118 | a client stops and its removals are answered in any order: its keys are gone, every other key still leads to its geofence, and with all successful exactly its geofences are gone |
| Geofence.GoneIff | gps/geofence/GeofenceAdapter.cpp:718-740 | a stored geofence goes exactly on a successful removal reply for it or an engine restart |
| Geofence.StoredIsEdited | gps/geofence/GeofenceAdapter.cpp:742-779 | over any run a stored geofence is what the commands naming its id made of it |
| Geofence.ShareConcat | gps/geofence/GeofenceAdapter.cpp:851-860 | a client's share keeps the order of the report |
| Geofence.SharesAreExact | gps/geofence/GeofenceAdapter.cpp:851-860 | each key is told to its owner as often as it was reported |
| Geofence.SharesAddUp | gps/geofence/GeofenceAdapter.cpp:846-872 | all shares together are as many as the known hardware ids |
| Geofence.NoticesTell | gps/geofence/GeofenceAdapter.cpp:862-872 | exactly one call with its whole share for each client with a callback and a share |
| Geofence.BreachTells | gps/geofence/GeofenceAdapter.cpp:851-860 | a call to a client holds its own ids, for exactly the reported hardware ids of its stored geofences, in the order of the report |
| Geofence.BreachReaches | gps/geofence/GeofenceAdapter.cpp:846-872 | a client is called once if it has a callback and a reported geofence, else not |
| Geofence.SavedIsTold | gps/geofence/GeofenceAdapter.cpp:698-873 | a breach of a geofence just saved tells its client the id the client gave it |
| MerklePath.GetNodePath | gps/gnss/XmlFileParser.cpp:441-452 | terminates, appending the sibling path; negative coordinates append nothing |
| MerklePath.PathEntries | gps/gnss/XmlFileParser.cpp:441-452 | exactly rootJ entries, entry k the sibling of i / 2^k |
| MerklePath.FindNodeLoop | gps/gnss/XmlFileParser.cpp:454-462 | the first node with the coordinates, else the zero node |
| MerklePath.FindsFirst | gps/gnss/XmlFileParser.cpp:454-462 | of several nodes with the coordinates the first is found; without any, the zero node |
| MerklePath.FillNodes | gps/gnss/XmlFileParser.cpp:249-255 | the stored node of each layer is the one found for that layer's path entry |
| MerklePath.ClimbReachesRoot | gps/gnss/XmlFileParser.cpp:226-256 | hashing a leaf upward with the found nodes, ordered by parity, reproduces the root |
| MerklePath.OnlyLeafReachesRoot | gps/gnss/XmlFileParser.cpp:226-256 | when the hash has no collisions no other value reproduces the root |

## Left out

- Integer width: counters, times and sizes are unbounded integers, except in trip batching, where 32-bit wrap-around is modelled and the theorems state when it does not occur.
- Undefined behaviour: erasing from a hash set while iterating it in `removeAndReturnInterset` (modelled as visiting every element), reading a trip just erased from its map (modelled with the values it had), and comparing with a subscriber just deleted.
- LocHeap: an object whose rank changes while it is stored; the order is a fixed strict weak order.
- Agps: access point name, bearer, subscription id and type mask that callbacks carry along, the emergency type replacement in `requestATL` (both types use the same machine), and `createAgpsStateMachines`.
- AgpsLoop: the contents of the network type answer; it arrives at any later time or never. Framework callbacks of the assisted-GNSS machine.
- Agps.AgpsStateMachine.ProcessAgpsEventUnsubscribe: the current subscriber is an element of the list, as its only caller passes.
- OsObserver: message posting (each call is handled in the order posted), destruction of the cache, and backhaul requests. Null clients are not modelled; such calls are ignored by the source.
- OsObserver.SystemStatusOsObserver.UpdateCache: whether SystemStatus accepts an item is a parameter, and item copying succeeds.
- Estimator: the retries of `getCurrentTime` and the conversions between GPS time and timer ticks; a clock reading is a parameter.
- TripBatching: failure of stops, updates of options, event masks, routine batching sessions. Query and restart replies are handled at once.
- TripWorld: a new trip has an id of its own, as the session ids its callers generate do, so that no entry is overwritten.
- TripCommands.RunSuits: a new trip has an id of its own, an interval above 0 and an answered query.
- NetworkTable: type numbers other than by their own bit; the first item of a report, which is stored without collating, is the constructor.
- ReportHistory: items whose collate is not the identity (NetworkTable has the one that is not).
- NmeaTokenizer: what the parsers make of the fields.
- Geofence.GeofenceAdapter.StopClientSessions: only with session erasing; without it the loop of the source does not advance. The paused flag across an engine restart.
- MerklePath.FillNodes: a root layer of at least 4, as the four stored layers need. XML reading and hexadecimal conversion.
- Adapter array of `LocApiBase`: shifting entries so that no hole remains would repeat the network-handle table.
- I/O, sockets, threads, dynamic libraries, logging, the fingerprint and display services, floating-point utilities.
