# Verified model of the PDCM telemetry daemon

PDCM collects metrics and firmware heartbeats from a device, keeps them in memory and serves them to
clients.  This project models the state machines at its centre in Dafny and proves what they keep over
whole runs:

- the collection runtime: a bounded priority queue with key exclusion, eviction, coalesced fresh reads
  and shutdown (`CollectionQueue`, with what it answers in `QueueLaws`), drift-free due times (`Scheduler`)
  and the compiler from watches to batched jobs (`Plan`);
- the event pipeline: a ring log under two limits (`EventStore`), per-subscriber queues that account for
  every dropped event (`Subscription`, with what they drop in `Backpressure`) and the interleavings of
  publish, subscribe, dispatch, deliver and close (`EventPipeline`);
- the data store: a sharded, all-or-nothing cache that tells a plain commit log (`DataLog`, `DataRead`,
  `DataShards`, `DataStore`), and the evidence that health results point into (`EvidenceStore`); what
  they accept and return is in `DataLaws` and `EvidenceLaws`;
- identities and watches: references that never alias (`Catalog`, `CatalogLaws`), merged requirements
  (`Watch`, `WatchManager`) and samples credited once (`SampleCredit`);
- the processor graph (`KahnSort`, `ProcessorGraph`), wrap-aware counters (`Counter`), the frame codec
  (`Frame`), queries (`Query`) and health conclusions (`Health`).

`Domain` holds the records and their validators (`validateObservation`,
`validateFirmwareHeartbeatEvidence`, `validateHealthResult`); `Base`, `Collections`, `Ordering` and
`KeyOrder` hold what several components share.

Every section that runs under a mutex is one atomic step.  A component is a datatype of states with step
functions; lemmas prove what each step and every run keeps; a class with the fields and loops of the
source is proved to take exactly those steps.  Histories (offered, committed, credited, settled) are ghost
or extra fields that state run-level laws and influence nothing.  Object sizes are positive constants of
unknown value.  Clocks, provider replies, random boot numbers and waits are parameters.

Where the source and a natural reading differ, the model follows the source:

- an identity key can be shared by two devices when an address contains a bar; `KeysCollideIff` gives the
  exact condition;
- activating a catalog at the last snapshot version fails after the catalog has been replaced; the
  snapshot then still agrees with the catalog it was published for, and with the new one if and only if
  it is empty (`SwitchedAgreesIff`), however many activations have failed before;
- a history sample observed at the largest 64-bit time is never chosen for byte eviction, so a commit can
  be refused while history remains; `LargestTimeIsRefused` shows one and `Commit` states exactly when.

To check everything: `dafny verify dfyconfig.toml`.

## Model

| member | source | states |
|---|---|---|
| CollectionQueue.RunKeeps | product/src/collection/collection_coordinator.cpp:186-237 | In every reachable state of enqueue, evict, dequeue, finish, signal, shutdown and fresh read: no two queued or running tasks share a key and the busy keys are exactly theirs; the queue is sorted by priority, oldest first among equals, and within its limit; the registered fresh reads are exactly the live ones; every accepted task is in exactly one of queue, worker, cancelled list and settled list; waiters are within their limit |
| CollectionQueue.SignalledExactlyOnce | product/src/collection/collection_coordinator.cpp:174-184 | In every run the completion of an accepted task is never signalled while it is queued or running, is signalled exactly once after it has left, and never twice |
| CollectionQueue.NobodyIsForgotten | product/src/collection/collection_coordinator.cpp:552-610 | Once nothing is queued, running or being reported, every waiting fresh read has had its completion signalled |
| CollectionQueue.EvictionIsJust | product/src/collection/collection_coordinator.cpp:211-222 | A queued task leaves on an enqueue only if the queue is full and the new priority is strictly higher; it is then the newest of the lowest priority, it is signalled as exhausted, and everything else stays |
| CollectionQueue.EnqueueKeeps | product/src/collection/collection_coordinator.cpp:201-237 | Offering a new task keeps the whole invariant, whatever the verdict, and an accepted one joins the live tasks |
| CollectionQueue.StopKeeps | product/src/collection/collection_coordinator.cpp:552-564 | Shutdown moves the whole queue, in order, to the tasks to be cancelled and leaves it empty and stopped; the worker and the signals given stay as they are, and the invariant holds |
| CollectionQueue.FinishKeeps | product/src/collection/collection_coordinator.cpp:603-607 | Finishing frees the keys and the registration of exactly the finished task: it alone leaves the live tasks and waits to be reported |
| CollectionQueue.RegisteredIsOwned | product/src/collection/collection_coordinator.cpp:429-441 | A registered fresh read is always still owned, so the branch for an expired weak reference cannot be taken |
| CollectionQueue.ReadWaitsForItsKeys | product/src/collection/collection_coordinator.cpp:385-513 | A fresh read that waits does so for a live task over exactly its sorted keys and generation whose deadline is no earlier than its own; a refused one changes nothing |
| CollectionQueue.SameKeysCoalesce | product/src/collection/collection_coordinator.cpp:429-441 | A second read of the same keys in any order with no later deadline joins the first and accepts no new task |
| CollectionQueue.HistoryGrows | product/src/collection/collection_coordinator.cpp:201-204 | Signals stand once given, accepted tasks stay on record, and after shutdown nothing is accepted any more |
| CollectionQueue.Runtime.ReleaseTask | product/src/collection/collection_coordinator.cpp:186-199 | The loop over the keys and the registration check compute the release step |
| CollectionQueue.Runtime.AnyBusy | product/src/collection/collection_coordinator.cpp:205-209 | Finds a busy key exactly when there is one |
| CollectionQueue.Runtime.FindPosition | product/src/collection/collection_coordinator.cpp:229-233 | Finds the first position with a lower priority |
| CollectionQueue.Runtime.Push | product/src/collection/collection_coordinator.cpp:201-237 | Busy check, eviction and insertion together compute the enqueue step and its verdict; `QueueLaws.VerdictIs` says which verdict each task gets |
| QueueLaws.VerdictIs | product/src/collection/collection_coordinator.cpp:201-237 | In every state that keeps the invariant a task is accepted if and only if the runtime is not stopped, no live task shares a key with it, and there is a free place or a queued task of strictly lower priority; busy if and only if a live task shares a key; full or stopped otherwise |
| QueueLaws.SignalIsTheOutcome | product/src/collection/collection_coordinator.cpp:174-184 | In every run the status signalled for a task is the one it ended with: what its read completed with, not initialised if a shutdown cancelled it, exhausted if another task pushed it out |
| QueueLaws.ReadAnswer | product/src/collection/collection_coordinator.cpp:385-513 | A fresh read that passes its checks waits for the live task that reads the same keys if that ends no earlier, else starts its own exactly when it has a number, its keys are free and there is room; every other one is refused, with which code, and changes nothing |
| CollectionQueue.Runtime.SubmitJob | product/src/collection/collection_coordinator.cpp:327-362 | A scheduled job takes the enqueue step: which verdict it gets, that exactly an accepted one is added to the accepted tasks, and that the object stays in the state its actions lead to |
| CollectionQueue.Runtime.RequestRead | product/src/collection/collection_coordinator.cpp:385-513 | All checks, joining and starting of a fresh read compute the specified step and answer |
| CollectionQueue.Runtime.TakeTask | product/src/collection/collection_coordinator.cpp:577-586 | The worker takes the first task |
| CollectionQueue.Runtime.StopAll | product/src/collection/collection_coordinator.cpp:552-564 | The draining loop computes the shutdown step |
| CollectionQueue.Runtime.ValidIsReached | product/src/collection/collection_coordinator.cpp:186-237 | The object is always in a state of some run, so the laws of every run hold of it |
| KeyOrder.SameKeysSortAlike | product/src/data/data_manager.cpp:94-99 | Sorting keys gives the same sequence for every arrangement of the same keys |
| KeyOrder.SortKeysIs | product/src/collection/collection_coordinator.cpp:399 | Sorting keys by entity and metric gives a permutation of them in order |
| KeyOrder.NeighboursSuffice | product/src/collection/collection_coordinator.cpp:399-403 | After sorting, equal neighbours exist exactly when a key is repeated |
| Plan.Compile | product/src/collection/collection_coordinator.cpp:688-757 | Fails exactly when some watch cannot be compiled, a key repeats or the batches exceed the job limit; otherwise makes one numbered job per batch of the specification |
| Plan.GroupWatches | product/src/collection/collection_coordinator.cpp:696-724 | The first loop accepts exactly the compilable watches with distinct keys and files each under its group |
| Plan.CutGroup | product/src/collection/collection_coordinator.cpp:733-756 | The offset loop cuts a group exactly as the specification does, or stops because there are too many batches |
| Plan.LaidIsSort | product/src/collection/collection_coordinator.cpp:733-739 | Visiting the groups in map order with each group sorted is sorting all items by group and key |
| Plan.BatchesPartition | product/src/collection/collection_coordinator.cpp:731-757 | The batches hold every effective watch exactly once; each is homogeneous, not empty and at most the batch limit |
| Plan.BatchesAreFull | product/src/collection/collection_coordinator.cpp:740-757 | No more batches than needed: one is followed by another of its group only when it is full |
| Plan.ItemsBelong | product/src/collection/collection_coordinator.cpp:696-757 | Every item of a job has the provider, period, kind and isolation class of its job, is known to the data catalog, and carries key, timing, priority and watches of one effective watch |
| Plan.EveryWatchIsServed | product/src/collection/collection_coordinator.cpp:696-757 | No effective watch is left without a job |
| Plan.JobsAreGood | product/src/collection/collection_coordinator.cpp:744-755 | Every job has a positive period no longer than any freshness in it, one group, and the highest priority of its items; ids count from one |
| Plan.SnapshotOrderIsIrrelevant | product/src/collection/collection_coordinator.cpp:696-739 | The batches do not depend on the order in which the snapshot lists its watches |
| Plan.PublishedCompiles | product/src/collection/collection_coordinator.cpp:698-717 | In every state of the watch manager each published effective watch compiles against the catalog it was published for, given a provider name and a non-zero heartbeat data id |
| Plan.SnapshotIsFine | product/src/collection/collection_coordinator.cpp:696-757 | In every state the published snapshot compiles for the catalog it was published for, so it can be refused for the job limit or exhausted numbers only |
| Scheduler.DueAdvances | product/src/collection/collection_coordinator.cpp:318-324 | A job that has used k slots moves to the first slot after now; the slot it is scheduled for is the last one not after now, and the steps taken are the slots passed |
| Scheduler.SlotsAreCovered | product/src/collection/collection_coordinator.cpp:343-369 | The slots reported as logical results and the slot of the queued task are together exactly the slots from the one that was due up to now |
| Scheduler.AllSlotsReported | product/src/collection/collection_coordinator.cpp:313-370 | Between two scheduler times every slot of a job is reported exactly once: those handed over as logical results and the one of the queued task are all slots passed, in order |
| Scheduler.TakenCount | product/src/collection/collection_coordinator.cpp:284-383 | The queue has taken exactly as many tasks as the summary counts as enqueued |
| Scheduler.SlotIsCounted | product/src/collection/collection_coordinator.cpp:313-370 | The last slot of a turn counts as enqueued if and only if the keys of the job are free and there is room in the queue, as busy if and only if a live task needs one of them, and as rejected otherwise; the slots before it count as missed |
| Scheduler.RequestOf | product/src/collection/collection_coordinator.cpp:326-342 | The loop collects the keys of a job, and its window is the least freshness of its items |
| Scheduler.Coordinator.RunDue | product/src/collection/collection_coordinator.cpp:284-383 | Each job is offered at most once per call, at its latest slot not after now; due times stay on the grid of creation time and period and end past now; the logical results, the counters and the tasks the queue took are exactly those of the turns of the jobs, in order; the counters since the plan was installed sum to the slots that have passed |
| Scheduler.Coordinator.RunNext | product/src/collection/collection_coordinator.cpp:313-370 | One job: the due time moves along the grid, every slot passed is counted once, and a task counts as enqueued exactly when the queue has accepted it |
| Scheduler.Coordinator.Offer | product/src/collection/collection_coordinator.cpp:327-362 | Without a request number nothing is offered to the queue; otherwise its verdict on exactly this slot of the job decides, and an accepted slot is the only one added |
| Scheduler.Coordinator.Install | product/src/collection/collection_coordinator.cpp:239-248 | Every job is first due one period after the plan was created |
| Scheduler.Coordinator.ApplySnapshot | product/src/collection/collection_coordinator.cpp:688-771 | Which status each snapshot gets, and that only a success replaces the plan, by the next version |
| Scheduler.Coordinator.AllocateRequest | product/src/collection/collection_coordinator.cpp:826-836 | Request numbers count up from one; zero only when they are used up |
| Watch.BuildEffective | product/src/collection/watch_manager.cpp:223-267 | Each metric effective watch is exactly the least period and freshness, the greatest retention and priority and the sorted ids over the watches naming that metric; the baseline stands where no watch does |
| Watch.MergedTiming | product/src/collection/watch_manager.cpp:251-258 | Merging keeps 0 < period <= freshness <= retention |
| WatchManager.EffectiveTiming | product/src/collection/watch_manager.cpp:223-267 | In every state of the manager, also at the last snapshot version, each published effective watch has its timing in order |
| WatchManager.SwitchedAgreesIff | product/src/collection/watch_manager.cpp:99-110 | In every state of the manager, after an activation that fails at the last snapshot version, the first such one or a later one, the snapshot agrees with the new catalog if and only if it was empty; without watches it is empty exactly when it was published without a baseline |
| WatchManager.LastSwitchDisagrees | product/src/collection/watch_manager.cpp:99-110 | A manager at the last snapshot version whose snapshot disagrees with its catalog after the next activation, and again after the one that follows, when it has neither watch nor baseline left |
| WatchManager.FewerWatchesFewerKeys | product/src/collection/watch_manager.cpp:269-284 | Removing watches never adds effective watches, so publishing a removal cannot exceed the limit |
| WatchManager.MoreWatchesMoreKeys | product/src/collection/watch_manager.cpp:235-261 | One more watch adds to the effective keys exactly the keys of its metrics |
| WatchManager.ValidateRequirement | product/src/collection/watch_manager.cpp:172-221 | Which code each requirement gets, by the first check that fails, and that it succeeds exactly on those that are well formed, current, without repeated metrics and not faster than any supported metric allows |
| WatchManager.Manager.Publish | product/src/collection/watch_manager.cpp:269-306 | Installs the new watches, drops the counters of those that ended, or changes nothing |
| WatchManager.Manager.Create | product/src/collection/watch_manager.cpp:308-360 | The exact status of every request, told from the state before it: owner, exhausted ids, requirement, unsupported metrics, watch limit, snapshot version and effective limit; a created watch gets a new id and the supported metrics in order, every other watch and counter is unchanged; a refused one changes nothing |
| WatchManager.Manager.Destroy | product/src/collection/watch_manager.cpp:362-375 | Removes exactly the named watch of its owner, or answers why not and changes nothing |
| WatchManager.Manager.RemoveOwner | product/src/collection/watch_manager.cpp:377-391 | Removes exactly the watches of the owner, or changes nothing |
| WatchManager.Manager.ActivateCatalog | product/src/collection/watch_manager.cpp:51-111 | A newer catalog ends all watches and the baseline; at the last snapshot version it fails and leaves exactly the old watches and snapshot under the new catalog |
| WatchManager.NothingRetained | product/src/collection/watch_manager.cpp:99-110 | In every state of the manager no watch survives a change of catalog generation |
| WatchManager.Manager.SetBaseline | product/src/collection/watch_manager.cpp:113-156 | The exact status, told from the state before: support, timing, snapshot version and effective limit; on success the baseline for the catalog is installed and published, else nothing changes |
| WatchManager.Manager.ClearBaseline | product/src/collection/watch_manager.cpp:158-170 | Clearing fails only at the last snapshot version, for its result always fits; then nothing changes, else the watches are published without the baseline |
| WatchManager.Manager.RecordSamples | product/src/collection/watch_manager.cpp:393-487 | Credits the range to each named live watch, removes those that reach their limit and publishes then; which error each bad call gets; a failure changes nothing |
| WatchManager.RecordAllBook | product/src/collection/watch_manager.cpp:432-469 | Each watch is credited on its own: a named one by the whole range, the others not at all |
| WatchManager.RecordAllSplits | product/src/collection/watch_manager.cpp:432-469 | Recording a range at once or in two parts leaves the same live watches, counts, times and credited instants |
| SampleCredit.ChecksAreExact | product/src/collection/watch_manager.cpp:409-420 | The two overflow checks hold exactly when the last instant fits 64 signed bits |
| SampleCredit.EachInstantOnce | product/src/collection/watch_manager.cpp:432-469 | Over any ranges a live watch has its credited instants strictly rising, its count equals their number and stays below its limit |
| SampleCredit.CreditIs | product/src/collection/watch_manager.cpp:432-469 | One range credits exactly its instants after the last one credited; the watch ends if and only if it is limited and these bring it to its limit |
| SampleCredit.NeverSaturates | product/src/collection/watch_manager.cpp:451-456 | The saturating branch is unreachable |
| SampleCredit.RecordingSplits | product/src/collection/watch_manager.cpp:432-469 | Recording n + m periods is recording n and then m |
| SampleCredit.ReplayIsHarmless | product/src/collection/watch_manager.cpp:439-449 | Recording a range again changes nothing |
| EventStore.StoreIsLongestSuffix | product/src/data/event_store.cpp:64-112 | After any publications the store is the longest suffix of all accepted events that fits both limits, with an exact byte count and rising sequence numbers |
| EventStore.LongestSuffixIsUnique | product/src/data/event_store.cpp:103-107 | There is only one such suffix |
| EventStore.EventLog.PublishDraft | product/src/data/event_store.cpp:64-112 | Publishing is the specified step: which drafts are refused, the number given, and what is kept |
| EventStore.PublishAccepts | product/src/data/event_store.cpp:64-112 | Which drafts are accepted and what every other is refused with, on their fields; an accepted one gets the next number, an oversized one uses its number up, the others change nothing |
| EventStore.EventLog.EvictOldest | product/src/data/event_store.cpp:103-107 | The eviction loop keeps the longest fitting suffix and the exact byte count |
| EventStore.EventLog.Since | product/src/data/event_store.cpp:114-128 | The binary search returns exactly the stored events above the given number |
| Subscription.EnqueueKeepsInv | product/src/data/subscription_manager.cpp:170-267 | Enqueueing keeps both limits, one marker at most, the exact loss accounting and the order |
| Subscription.DeliveryKeepsInv | product/src/data/subscription_manager.cpp:312-325 | Taking an event for delivery keeps them too |
| Subscription.CountsBalance | product/src/data/subscription_manager.cpp:145-267 | Events offered equal plain events delivered and pending plus the dropped counts of all markers delivered or pending |
| Subscription.MarkersSpan | product/src/data/subscription_manager.cpp:155-165 | Every marker counts at least one event and no more than lie between its first and last sequence numbers |
| Subscription.RecheckUnreachable | product/src/data/subscription_manager.cpp:257-264 | The final capacity check never fails |
| Subscription.AdmitFits | product/src/data/subscription_manager.cpp:199-255 | Making room leaves the incoming event within both limits with no unsigned wrap |
| Subscription.Queue.DropUntilFits | product/src/data/subscription_manager.cpp:212-236 | The drop loop computes the specified drops and keeps the byte count exact |
| Subscription.Queue.InsertMarker | product/src/data/subscription_manager.cpp:238-255 | The marker is extended by each dropped event and replaces the old one in place, or goes last |
| Subscription.Queue.Offer | product/src/data/subscription_manager.cpp:170-267 | `enqueue` computes the specified step on the queue; `Backpressure.PressureLaw` says what that step does |
| Backpressure.PressureLaw | product/src/data/subscription_manager.cpp:170-267 | An open subscription closes if and only if the event alone exceeds the byte limit or does not fit, with a due marker, even when every expendable event is gone; otherwise the fewest oldest expendable ones go, they are what the marker counts from then on, all others stay in order and the new one is last. Expendable to a metric update are updates of the same entity and metric, to any other event all but markers and draining notices |
| Backpressure.MarkerSays | product/src/data/subscription_manager.cpp:145-168 | The marker keeps number and time of the first event it stood for, has boot epoch and catalog generation of the last, and counts them all |
| Backpressure.MarkerPlace | product/src/data/subscription_manager.cpp:238-255 | The marker takes the place of the one queued before, or the last place |
| Subscription.Queue.Take | product/src/data/subscription_manager.cpp:312-325 | The locked part of `deliverNext`: when it delivers, what, and what stays |
| EventPipeline.StepKeepsInv | product/src/data/subscription_manager.cpp:66-362 | Every lock-delimited step of publish, subscribe, dispatch, deliver and close keeps the invariant of the pipeline, also when the subscription is made between the two locks of a dispatch |
| EventPipeline.NothingUnaccounted | product/src/data/subscription_manager.cpp:66-294 | In every interleaving, whenever the subscription was made, while open it accounts for every event offered to it |
| EventPipeline.AtMostOnceInOrder | product/src/data/subscription_manager.cpp:66-294 | In every interleaving, whenever the subscription was made, each event is offered at most once and plain events are delivered in strictly rising order; each marker reports exactly what was dropped |
| EventPipeline.QuietAfterClose | product/src/data/subscription_manager.cpp:296-362 | Once `close` has returned, no callback runs or starts and the queue stays empty, for ever |
| EventPipeline.OfferedExactly | product/src/data/subscription_manager.cpp:269-294 | In every interleaving the subscription has been offered, once and in order, exactly the matching events of the dispatches that copied the registry while it was in it, up to those still to be offered; once it is shut, the first of them |
| EventPipeline.NothingMissed | product/src/data/subscription_manager.cpp:66-294 | While everything accepted still fits the store, an open subscription has been offered exactly the matching events numbered above what had been dispatched when it was made, up to the last dispatch |
| EventPipeline.SinceIsNumbered | product/src/data/event_store.cpp:114-128 | What `since` returns is the numbered part of the stored events, whatever its search does |
| DataStore.Store.Commit | product/src/data/data_manager.cpp:228-409 | All or nothing: which status each batch gets; an accepted one raises the epoch by one and is appended to the log; its shards are the old ones with the batch applied, less the oldest history as far as the byte limit needs it, and tell that log; it is refused for room exactly when the keys exceed their limit or the bytes would even without all history that may go; a refused one changes nothing |
| DataLaws.CommitPassesIff | product/src/data/data_manager.cpp:228-322 | A batch passes every check that does not depend on sizes if and only if it is not empty, a catalog of at most one device is active, there is a next epoch, and every observation, failed ones included, is committable, alone with its key and no older than the last one of its key |
| DataLaws.CommitRefusedWith | product/src/data/data_manager.cpp:228-322 | Which of these a batch that fails several is refused for, and with which code |
| DataStore.StageBatch | product/src/data/data_manager.cpp:304-340 | Staging succeeds exactly when no observation is older than the last one of its key; the copy is then the old shards with each observation applied in turn, and tells the longer log |
| DataStore.CheckBatch | product/src/data/data_manager.cpp:259-302 | The first loop returns the first refusal in the batch; `DataLaws` says which that is |
| DataLaws.BatchPassesIff | product/src/data/data_manager.cpp:259-302 | The loop lets a batch pass if and only if no key comes twice and every observation is committable: no epoch yet, of the active catalog, not stale, well formed for its status, known metric of the same version, value of the described type and size |
| DataLaws.FirstOffender | product/src/data/data_manager.cpp:259-302 | Otherwise the first observation that is not committable or repeats a key decides the code |
| DataStore.AcceptedIsSound | product/src/data/data_manager.cpp:259-302 | A batch without refusal holds each key once, for entities and metrics of the catalog, and only valid observations |
| DataShards.CommitOneRefines | product/src/data/data_manager.cpp:312-336 | Committing one observation into its shard tells the log extended by it, for every key |
| DataShards.EvictHistory | product/src/data/data_manager.cpp:356-374 | The eviction loop ends; each key loses a run from the front of its history and nothing else; the samples lost are in time order, no newer than any kept in any shard, none is lost without need, and the running total equals the recomputed sum; it reaches the limit exactly when all history that may go being gone would |
| DataShards.FindOldest | product/src/data/data_manager.cpp:357-371 | The double loop finds a front as old as any in any shard, or there is none to evict |
| DataShards.OldestIsOldest | product/src/data/data_manager.cpp:359-368 | The oldest front is as old as every history sample kept in any shard |
| DataShards.PopBytes | product/src/data/data_manager.cpp:372-373 | Popping a sample lowers the recomputed sum over all shards by exactly its size |
| DataStore.LargestTimeIsRefused | product/src/data/data_manager.cpp:356-382 | With room for one entry without history a first sample is refused exactly at the largest 64-bit time, where it is never chosen for eviction |
| DataStore.Count | product/src/data/data_manager.cpp:342-349 | The counting loops compute the number of keys and the bytes of all entries |
| DataStore.Store.ReadLatest | product/src/data/data_manager.cpp:411-525 | Answers from the shards exactly what the log tells: the last observation, or after a failure the last valid one relabelled, in key order |
| DataStore.Store.History | product/src/data/data_manager.cpp:527-551 | Returns the valid commits of the key from the first that is within the sample and duration limits and was not evicted for bytes, in time order, up to the last valid one |
| DataStore.Store.ActivateCatalog | product/src/data/data_manager.cpp:135-226 | Which status each catalog gets, entities of another target or kind and without generation refused; a newer one starts an empty log, and each entity it lacks is buried with its generation, the oldest graves beyond the limit forgotten; otherwise nothing changes |
| DataLog.UpdateTells | product/src/data/data_manager.cpp:324-339 | One more observation keeps an entry in step with its log |
| DataLog.TrimHistory | product/src/data/data_manager.cpp:327-336 | The two trimming loops drop what exceeds the sample count and then what exceeds the duration |
| DataLog.HistoryIs | product/src/data/data_manager.cpp:527-551 | A kept history is sorted, contiguous and ends in the last valid sample |
| DataRead.LookIsValid | product/src/data/data_manager.cpp:457-519 | Whatever is returned for a metric with a non-zero id is a valid observation of that key, also when relabelled stale |
| DataLaws.StaleLaw | product/src/data/data_manager.cpp:457-519 | A valid last observation is read as it is; after a failure, if stale values are welcome, the last valid one is read as stale with its age, the failure and the epoch of the last observation; otherwise the failure is read |
| DataLaws.NoSampleLaw | product/src/data/data_manager.cpp:457-519 | What a read gives for an unknown entity, one of another generation, an unknown metric and one never sampled |
| DataRead.ItemsAreValid | product/src/data/data_manager.cpp:411-525 | A whole read returns one valid item per key in key order, none beyond the current epoch |
| EvidenceStore.RunKeeps | product/src/data/data_manager.cpp:651-980 | In every reachable state every reference held by a health result matches a stored record field for field; ids rise; with one device observed times rise, valid records have rising tokens and sample times, and the latest entry names the last record; the item and byte limits of evidence and the count, reference and byte limits of health results, each and all together, hold |
| EvidenceStore.CommitEvidenceKeeps | product/src/data/data_manager.cpp:651-797 | Committing evidence keeps all of that despite time-to-live and capacity eviction |
| EvidenceStore.CommitHealthKeeps | product/src/data/data_manager.cpp:883-980 | Committing health keeps all of that, the byte limit over all results included |
| EvidenceStore.NewerFollows | product/src/data/data_manager.cpp:698-737 | With one device, evidence that passes the checks follows every stored record |
| EvidenceStore.CommitDrops | product/src/data/data_manager.cpp:757-785 | A commit drops every expired record that nothing refers to, never one that is referred to, and keeps the new one |
| EvidenceStore.Store.CommitRecord | product/src/data/data_manager.cpp:651-797 | `commitHeartbeatEvidence` computes the specified step and answer |
| EvidenceLaws.EvidenceAcceptedIff | product/src/data/data_manager.cpp:651-797 | In every reachable state with one device, evidence is committed if and only if the catalog can take it, it is later than all records, and there is room; a repetition of the last record is answered with its id, anything else not later is stale |
| EvidenceStore.Store.CommitResult | product/src/data/data_manager.cpp:883-980 | `commitHealth` computes the specified step, its status, and whether a change event follows |
| EvidenceLaws.HealthAcceptedIff | product/src/data/data_manager.cpp:883-980 | A health result is committed if and only if it is well formed, of the active catalog and its device, refers only to stored records and to each once, and keeps every limit |
| EvidenceStore.EvictLoose | product/src/data/data_manager.cpp:770-785 | The capacity loop gives up exactly when the records that may not go do not fit by themselves; otherwise it drops the first so many unreferenced records, and fewer would not be enough |
| EvidenceStore.TrimGivesUp | product/src/data/data_manager.cpp:770-785 | Eviction for capacity fails exactly when the referenced records and the new one exceed a limit |
| EvidenceStore.TrimIsLeast | product/src/data/data_manager.cpp:770-785 | Otherwise what is kept is everything but the first n unreferenced records, for the least n that fits |
| EvidenceStore.DropExpired | product/src/data/data_manager.cpp:757-769 | The time-to-live loop erases exactly the expired unreferenced records |
| EvidenceStore.Store.Switch | product/src/data/data_manager.cpp:153-216 | A newer catalog clears evidence, latest entries and health |
| Health.DeterminateIff | product/src/metrics/metrics_manager.cpp:202-256 | In every reachable state a heartbeat query is determinate exactly when heartbeat is supported and the last evidence is valid, not from the future and no older than the catalog freshness and the caller's age, if any |
| Health.TighteningKeepsOrDrops | product/src/metrics/metrics_manager.cpp:20-26 | Asking for younger evidence leaves a determinate answer as it is or makes it unknown |
| Health.EvaluatedIsValid | product/src/metrics/metrics_manager.cpp:268-336 | Every result evaluated from stored evidence passes the validator and its reference is accepted by the store; what it concludes is `Health.QueryConcludes` |
| Health.QueryConcludes | product/src/metrics/metrics_manager.cpp:202-382 | In every reachable state a heartbeat query concludes healthy, warning or error exactly as the native class of the last record is normal, warning or fault, if that is valid and young enough, and refers to it; for unsupported, missing, future, stale, timed out, unavailable and failed evidence it is unknown with the code and status of that case |
| Health.OtherQueries | product/src/metrics/metrics_manager.cpp:202-256 | Every other query: which are refused, with which code, and which are answered as unsupported |
| Health.AnswerIsValid | product/src/metrics/metrics_manager.cpp:202-256 | Every heartbeat answer in a reachable state passes the validator |
| Health.LaggingIsUnknown | product/src/metrics/metrics_manager.cpp:354-382 | A manager that has not caught up with a newer catalog concludes nothing |
| Query.Execute | product/src/data/query_engine.cpp:230-297 | Items of any result keep the promise of its consistency level; they are the longest prefix of the snapshot served that fits both limits; truncated exactly when that prefix is proper; which read is served at each level, and with which status a wait for an epoch ends; which refusal comes first |
| Query.Finalize | product/src/data/query_engine.cpp:166-228 | What becomes of a snapshot that is unreadable, torn, too big to measure, truncated or whole |
| Query.TakeFitting | product/src/data/query_engine.cpp:205-215 | The greedy loop takes the longest prefix within both limits, with no unsigned wrap |
| Query.RequiredBytes | product/src/data/query_engine.cpp:194-203 | The sum is exact, or the loop stops before it would wrap |
| Query.AwaitEpoch | product/src/data/query_engine.cpp:275-294 | The waiting loop ends with the first read that is unreadable or wholly at the required epoch; or, when a wait fails or time runs out first, with the read in hand without its items and with that status |
| Query.FindStale | product/src/data/query_engine.cpp:93-136 | Returns a key exactly when some item of that key needs a fresh read, in the order of the items |
| Query.NeedsFreshIff | product/src/data/query_engine.cpp:93-136 | By read policy, when an item needs a fresh read: an age is judged by each of the two limits on its own |
| Query.AnswersFrom | product/src/data/query_engine.cpp:230-270 | Which requests are refused outright; and the read after a fresh read is answered from if and only if the first could be read and some item of it needs a fresh read |
| Query.ItemsFromStore | product/src/data/query_engine.cpp:248-251 | With snapshots of the data store the items are valid observations of the selected keys in key order |
| ProcessorGraph.Graph.Rebuild | product/src/metrics/processor.cpp:47-196 | Succeeds exactly when the catalog is valid, the processors are admissible, their graph is acyclic with no chain above four, and the generation does not go back; then publishes the promised nodes, else changes nothing |
| ProcessorGraph.SortedIsPublished | product/src/metrics/processor.cpp:153-183 | The sorted nodes hold each processor once in the lexicographically least topological order, each with the length of the longest chain ending there |
| ProcessorGraph.PublishedIsUnique | product/src/metrics/processor.cpp:163-179 | That promise determines the nodes |
| ProcessorGraph.InputOrderIsIrrelevant | product/src/metrics/processor.cpp:153-179 | The published nodes do not depend on the order of the input |
| ProcessorGraph.AdmissibleInAnyOrder | product/src/metrics/processor.cpp:61-137 | Admissible processors are admissible in every order |
| ProcessorGraph.VerdictIgnoresOrder | product/src/metrics/processor.cpp:47-196 | Rebuilding succeeds for every order of the same processors or for none |
| ProcessorGraph.CheckProcessors | product/src/metrics/processor.cpp:61-137 | The checks accept exactly the admissible processors and index their producers |
| ProcessorGraph.BuildEdges | product/src/metrics/processor.cpp:139-151 | Edges and in-degrees are those of the producer and consumer relation |
| ProcessorGraph.BoundedChainsAreAcyclic | product/src/metrics/processor.cpp:180-183 | A graph with bounded chains has no cycle |
| KahnSort.Sort | product/src/metrics/processor.cpp:153-183 | The loop succeeds exactly when no chain is longer than four, and then sorts |
| KahnSort.GreedyPrecedes | product/src/metrics/processor.cpp:163-165 | Taking the least ready node precedes every other topological order |
| KahnSort.StuckChain | product/src/metrics/processor.cpp:180-183 | When nothing is ready and something is left, there are chains of every length |
| Counter.DeltasTelescope | product/src/metrics/counter_processor.cpp:127-139 | Over a chain of accepted pairs the deltas sum to last minus first plus one modulus per wrap |
| Counter.WrapDeltaRange | product/src/metrics/counter_processor.cpp:132-136 | A delta across a wrap is between one and the modulus less one |
| Counter.DeltaIsTrueAdvance | product/src/metrics/counter_processor.cpp:127-139 | If the counter advances by less than a modulus between samples, every accepted delta is the true advance |
| Counter.OutputsMeetContract | product/src/metrics/counter_processor.cpp:69-214 | Every output is a valid observation of a configured output, whatever the samples |
| Counter.JudgeAcceptsIff | product/src/metrics/counter_processor.cpp:95-139 | A pair gives a delta if and only if both are valid samples of this counter and of one epoch, the newer is not in the future, their distance is within its bounds, and the counter rose or wrapped as configured; and which delta |
| Counter.OutputsAre | product/src/metrics/counter_processor.cpp:140-214 | An accepted pair gives the delta and the delta per second, derived from both samples; a rejected one an output without value for each |
| Counter.SampleOrderIsIrrelevant | product/src/metrics/counter_processor.cpp:82-94 | Two samples that differ in time or commit epoch may come in either order |
| Catalog.ReferencesNeverAlias | product/src/semantic/semantic_catalog.cpp:269-401 | If two accepted commits publish the same reference, every accepted commit between them publishes it, with the same identity key and incarnation; the generation counts the accepted commits |
| Catalog.GenerationCountsArrivals | product/src/semantic/semantic_catalog.cpp:299-401 | In every run the id of a published reference is the number of identity keys published before its key first was, and its generation is the number of times a device has arrived under that key; rejected commits count for nothing |
| Catalog.RunInv | product/src/semantic/semantic_catalog.cpp:299-401 | Over every run identities are never shared and generations never go back |
| Catalog.ResolveAfterCommit | product/src/semantic/semantic_catalog.cpp:218-238 | After a commit exactly the published reference resolves, and an older generation of it is stale |
| Catalog.KeysCollideIff | product/src/semantic/semantic_catalog.cpp:403-409 | Devices at two addresses can share an identity key exactly when one address continues the other after a bar |
| Catalog.KeyIsInjective | product/src/semantic/semantic_catalog.cpp:403-409 | Addresses without a bar never share a key: it determines address and native id |
| Catalog.KeyCanCollide | product/src/semantic/semantic_catalog.cpp:403-409 | Two different devices that share a key |
| Catalog.SemanticCatalog.CommitDiscovery | product/src/semantic/semantic_catalog.cpp:269-401 | `commit` computes the specified step, status and publication; `CatalogLaws.NextDiscovery` says which discoveries it accepts |
| CatalogLaws.NextDiscovery | product/src/semantic/semantic_catalog.cpp:269-401 | After every run the next discovery is accepted if and only if the target matches and is ready, the manageable devices are as many as detected, the numbers are not used up and a single device can be named; what is published for it, by its history; and the code otherwise |
| Frame.ChunkingIsIrrelevant | product/src/ipc/frame.cpp:88-145 | Feeding any chunks no larger than the maximum gives the frames, leftover and poisoned flag of parsing the whole stream; the leftover is shorter than the maximum |
| Frame.SameStreamSameOutcome | product/src/ipc/frame.cpp:88-145 | Any two splittings of the same bytes, malformed or not, have the same outcome |
| Frame.StatusIsOfTheStream | product/src/ipc/frame.cpp:88-145 | The status of a chunk says what is wrong with the first malformed frame of the stream up to its end, however the bytes before it were cut |
| Frame.RoundTrip | product/src/ipc/frame.cpp:56-145 | Any chunking of concatenated encodings decodes to exactly the original frames |
| Frame.ParseIsExact | product/src/ipc/frame.cpp:113-143 | Unless poisoned, the frames and the leftover re-encode to the input |
| Frame.StopsAt | product/src/ipc/frame.cpp:113-143 | Decoding stops after whole frames; the size announced there decides the code, below the header invalid, above the maximum exhausted, and without a fault the incomplete rest is kept |
| Frame.OnlyOversizeOverflows | product/src/ipc/frame.cpp:88-112 | A chunk within the maximum is never refused for the buffer bound; a larger one poisons the decoder |
| Frame.EncodeFrame | product/src/ipc/frame.cpp:56-83 | Writing by offset produces the encoding, or fails exactly when the frame does not fit |
| Frame.Layout | product/src/ipc/frame.cpp:56-83 | Every field has its place in the encoding, most significant byte first |
| Frame.ReadFrames | product/src/ipc/frame.cpp:113-138 | The consuming loop parses the buffer and returns the code of the first malformed frame |
| Frame.Decoder.Feed | product/src/ipc/frame.cpp:88-145 | `append` computes the specified step on buffer and flag, and which code each failure returns |
| Frame.WriteBig | product/src/ipc/frame.cpp:10-31 | The shifting loop writes the big-endian bytes and nothing else |

## Left out

- DataShards.Index: the mixing formula of the shard index is not modelled; every law holds for any assignment of keys to shards.
- Scheduler.DueAdvances: times are unbounded integers; a due time beyond 63 bits is not modelled.
- Scheduler.Coordinator.RunDue: one call at a time; the source loads the plan before it takes the lock (collection_coordinator.cpp:298-299), so of two concurrent calls the later may install an older plan over a newer one, until the next call.
- Scheduler.Coordinator.ApplySnapshot: the lock that orders plan writers is not modelled; publishing and installing a plan are two separate steps, as in the source.
- CollectionQueue.Runtime.RequestRead: the wait itself is not modelled, only its entry and its end; condition-variable timing and liveness are out.
- DataStore.Store.Commit: byte and key counters are unbounded numbers, so a wrap of `size_t` is not modelled.
- DataStore.Store.ActivateCatalog: the status of the target catalog's own check is an input.
- EvidenceStore.Store.Switch: of the checks on a catalog only its generation and the kind of its entities are modelled; `DataStore.Store.ActivateCatalog` has them all.
- EvidenceStore.Store.CommitRecord: the commit epoch is shared with data commits in the source; each model carries its own.
- Query.Execute: the data store, the clock and the fresh reads are an arbitrary world of answers; item sizes are assumed to fit 64 bits each.
- Counter.OutputsMeetContract: the rate output is computed over the reals, so floating-point rounding is not modelled.
- Counter.OutputsAre: likewise, the rate is exact here.
- EventPipeline.NothingUnaccounted: publishers are assumed never to send loss markers themselves; one subscription is modelled, with any number of deliveries; a refused `subscribe` is a run without that step.
- WatchManager.Manager.ActivateCatalog: the checks of the target catalog and of the capability query are inputs.
- Catalog.SemanticCatalog.CommitDiscovery: the diff between catalogs and the capability sets are not modelled.
- `normalizeAndCommit` and `collectJob`: turning provider replies into observations, and direct collection that bypasses the queue, would add mostly field-by-field members.
- `ProcessorExecutor`: its queue and duplicate filter repeat what the collection queue shows.
- `onHeartbeatEvidenceCommitted`, `onProviderStateChanged` and `runFreshnessOnce`: they evaluate as the query does and commit as modelled.
- Sessions, core lifecycle, sockets, request routing, protobuf translation, the command line and the providers: input, output and plumbing.
