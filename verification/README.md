# Verification of a tiered object store

A Dafny model of the metadata plane and background protocol of a tiered object store: objects are
written as full replicas (HOT), their metadata lives in an ordered key-value store, and background
workers move old versions to erasure-coded shards (EC), repair them and collect what is left over.
Check the whole project with `dafny verify dfyconfig.toml`.

## What is modelled

- **Ordered key-value client** (`KvClient.dfy`): the in-memory map with batches, overlay
  transactions and range iterators; `Keys.dfy` has the key builders, parsers and byte order.
- **Task queue** (`TaskIndex`, `TaskScans`, `TaskRows`, `TaskQueue`, `TaskRuns`, `TaskStore`): task
  rows and their ready, wait and terminal index keys as one map of byte strings; every operation as a
  method proved against its step and against what it does to the table row by row, coherence of
  index and table over every run, and the claim as a refinement of a table scan. `ClaimTxns.dfy`
  puts claims of many workers on snapshot transactions.
- **Object metadata** (`MetaStore.dfy`): the Repository calls on heads, versions, replica and shard
  rows and the due index.
- **Tiering protocol** (`TieringProtocol`, `TieringInvariant`, `TieringSafety`): PUT with quorum,
  late replicas, migration, promotion, replica GC, HOT and EC repair, old-version GC, DELETE, torn
  stores and the due index as interleaved steps of any number of workers that hold stale reads;
  `TornStores` is a run in which a torn store does harm, and `TieringFrames` says what each step may
  touch and by which steps rows come and go.
- **Candidate scan** (`DueScan`) and the whole **candidate pass** (`CandidatePass`), proved to be a
  sequence of steps of the protocol.
- **Retention scan and write quorum** (`OldVersions`), **lease lock** (`Lease`), **storage-node
  admission** (`Admission`), **placement** (`Placement`), **throttle and idle gate** (`Pacing`).

Conventions. Strings are Go byte strings: a `char` stands for a byte. Times are nanoseconds; a zero
`time.Time` is `None`. Clocks, heartbeat values, rendezvous scores, whether an enqueue changes a row,
the order in which replies arrive and when a caller gives up are parameters. The clock does not go
back, PUTs take fresh version numbers, object ids and task types contain no slash. Rows under a
version prefix are grouped by that version, which `Keys.PrefixesExact` justifies. A Repository call
and a blob request are one atomic step each. In-memory rows are values, so JSON encoding does not
appear.

Properties that turned out false of the code, each with an input and the exact condition:

- Byte order of encoded int64 values is not numeric order for two negatives (`Keys.NegativesReverse`,
  `Keys.Int64Order`).
- The priority bias overflows for the largest priorities and sends them to the bottom
  (`Keys.LargestPriorityComesLast`, `Keys.ClampKeepsOrder`).
- A lease grant given earlier than the owner's last one can outlive the stored expiry
  (`Lease.ShorteningBreaksPromises`, `Lease.KeptUnlessShortened`).
- Byte reservations and the candidate byte budget can be passed by an int64 overflow
  (`Admission.OverflowAdmits`, `Admission.ExactUnlessOverflow`, `Admission.ClassExactUnlessOverflow`;
  `DueScan.OverflowPicks`, `DueScan.BudgetKeptExactly`).
- The load penalty wraps for a very deep queue, and the node is then preferred
  (`Placement.DeepQueuePreferred`, `Placement.StoredPenaltyGrowsExactly`).
- Repair targets can repeat when a node id carries blanks, because the fallback compares ids as
  written with trimmed ones (`Placement.BlankNameRepeats`, `Placement.RepairDistinctExactly`).
- A call so small that its delay rounds to zero starts without waiting for the pacer
  (`Throttle.TinyCallJumpsAhead`, `Throttle.GapKeptExactly`).
- A store truncates the file before it copies, so a store that ends early on a node that an ACTIVE
  row names, or that a worker is about to name or read from, leaves a served version without its
  bytes (`TornStores.TornRunBreaksCopies`, `TieringInvariant.TearKeepsExactly`).

## Model

| member | source | states |
|---|---|---|
| `TieringSafety.RunKeepsInv` | internal/tiering/repl_to_ec_processor.go:64-146 | every run of interleaved PUT, late-update, migration, promotion, replica GC, repair, old-version GC, DELETE, torn-store and due-index steps keeps the protocol invariant, with workers acting on stale snapshots |
| `TieringSafety.CurrentVersionAlwaysReadable` | internal/meta/tikv_store_migration.go:36-206 | in every reachable state each object's current version has its row and is HOT with a write quorum of ACTIVE replica rows or EC with K ACTIVE shards of distinct index, and EC_ACTIVE is exactly tier EC |
| `TieringSafety.HotCopiesIntact` | internal/writeservice/writeservice.go:145-343 | in every run, while the current version is HOT, no DELETE has read it and no unsafe torn store has hit it, at least a quorum of nodes is named ACTIVE and each of them holds exactly the bytes the PUT was given |
| `TieringSafety.NeverReverts` | internal/meta/tikv_store_migration.go:59-124 | over any continuation of a run a superseded or deleted version never becomes current again and an EC version never becomes HOT |
| `TieringSafety.PurgeLeavesNewerVersions` | internal/meta/tikv_store_old_version_gc.go:192-231 | whenever a run purges a version, at least keepLatest newer versions of the object are still present, however old the task |
| `TieringSafety.DueIndexComplete` | internal/meta/tikv_store_due_index.go:63-185 | in every reachable state due keys and references are in bijection, and an object is HOT_ACTIVE exactly when its current version is in the due index |
| `TieringSafety.DueEntryLeaves` | internal/meta/tikv_store_policy.go:96-228 | an entry leaves the due index only if its version is no longer current or its object is MIGRATION_PENDING with a task row present |
| `TieringInvariant.TearKeepsExactly` | cmd/storage_node/engine.go:236-282 | in any state that satisfies the invariant, other bytes stored for a version on any node keep the invariant exactly when the tear is not unsafe: the version still matters, the bytes differ, and an ACTIVE row names the node or a worker relies on it |
| `TieringSafety.TornExactly` | cmd/storage_node/engine.go:236-282 | a version counts as torn in a run exactly when some action of the run was an unsafe torn store of it |
| `TornStores.TornRunBreaksCopies` | cmd/storage_node/engine.go:252-267 | a run in which a repair takes the node of a pending late replica for a free one and its store there ends early; the late upsert then names a node that does not hold the bytes |
| `TieringSafety.PutCommitKeeps` | internal/meta/tikv_store_objects.go:14-121 | committing a PUT whose quorum of nodes holds the bytes keeps the invariant: the new head is readable, backed by complete copies and in the due index |
| `TieringSafety.PromoteKeeps` | internal/meta/tikv_store_migration.go:59-124 | promotion keeps the invariant when it brings K shards of distinct index itself or the version is EC already |
| `TieringSafety.PurgeRetains` | internal/meta/tikv_store_old_version_gc.go:192-231 | purging a condemned version is never refused and leaves keepLatest newer versions above it and above every other condemned version |
| `TieringSafety.UpsertKeeps` | internal/meta/tikv_store_migration.go:149-181 | new ACTIVE replica rows keep the invariant if their nodes hold the version or the version no longer matters |
| `TieringInvariant.WorkerStable` | internal/tiering/gc_replication_processor.go:28-92 | what a worker read stays true enough to act on under any step that keeps retired versions retired and removes copies of retired versions only |
| `MetaStore.WithShardsRows` | internal/meta/tikv_store_migration.go:85-101 | after the shard loop each named index has an ACTIVE row for the node of its last location, with different indexes every location has its own row, and the others are unchanged |
| `MetaStore.Store.GetObjectVersionSnapshot` | internal/meta/tikv_store_migration.go:12-34 | a snapshot exists exactly when head and version row do, and shows current version and state of the one and tier of the other |
| `MetaStore.Store.MarkObjectMigrating` | internal/meta/tikv_store_migration.go:36-57 | fails exactly for a missing, superseded or EC_ACTIVE head; otherwise the head is MIGRATING since now and nothing else changes |
| `MetaStore.Store.PromoteObjectVersionToEC` | internal/meta/tikv_store_migration.go:59-124 | succeeds exactly with locations for a current version that has its row; then the version row is EC with these k and m and its own size and creation time, each shard row names the node of its location, the head is EC_ACTIVE, and nothing else changes; it is the promotion step of the protocol |
| `MetaStore.Store.UpsertReplicaLocations` | internal/meta/tikv_store_migration.go:149-181 | the loop gives every non-empty node an ACTIVE row and leaves all other rows alone |
| `MetaStore.Store.MarkReplicaLocationsDeleted` | internal/meta/tikv_store_migration.go:183-206 | existing rows of the named nodes become DELETED, no row is added |
| `MetaStore.Store.UpsertNormalizedMetadata` | internal/meta/tikv_store_objects.go:14-121 | an empty id is an error; otherwise the head, the version row with size and creation time, and for tier HOT the replica rows and the due entry at its time are stored and nothing else changes; an EC version loses its due entry; for a replicated PUT this is the commit step of the protocol |
| `MetaStore.Store.DeleteNormalizedMetadata` | internal/meta/tikv_store_objects.go:273-301 | no head, version, replica, shard or due row of the object is left, and every row and due entry of every other object is as before |
| `MetaStore.Store.PurgeObjectVersionMetadata` | internal/meta/tikv_store_old_version_gc.go:192-231 | refused exactly for the current version and a no-op without the object; else all rows and the due entry of the version are gone and everything else is as before |
| `MetaStore.DeleteErases` | internal/meta/tikv_store_objects.go:284-294 | the object deletion of the protocol erases that object and leaves every other alone |
| `MetaStore.PurgeErases` | internal/meta/tikv_store_old_version_gc.go:192-231 | the purge of the protocol is refused exactly for the current version and else erases that version only |
| `MetaStore.CommitStores` | internal/meta/tikv_store_objects.go:36-113 | the commit of a PUT is the HOT case of the metadata transaction and stores size, creation time and due time as given |
| `MetaStore.SelectStores` | internal/meta/tikv_store_policy.go:209-227 | a selected candidate loses its due entry, a HOT_ACTIVE head is MIGRATION_PENDING since now, and nothing else changes |
| `TieringFrames.StepStays` | internal/tiering/repl_to_ec_processor.go:64-146 | every step of the protocol changes rows of its own version only, the metadata step of a DELETE rows of its own object only, and all other steps no rows |
| `TieringFrames.RowsLeaveBy` | internal/meta/tikv_store_objects.go:273-301 | over any continuation of a run a head is lost only to a DELETE of that object, and a version row only to that or to old-version GC of that version |
| `TieringFrames.ShardRowsWereReported` | internal/meta/tikv_store_migration.go:85-101 | in every reachable state each shard row names a node from which a worker of that version had the report that it stored the shard of that index |
| `TieringFrames.PutCommitStores` | internal/meta/tikv_store_objects.go:36-113 | the commit step needs a quorum and stores the version with the size of its bytes, the nodes that wrote it and its due time |
| `TieringFrames.ReplicaStepsStore` | internal/meta/tikv_store_migration.go:149-206 | late replicas and HOT repair enter exactly the nodes they wrote, replica GC marks exactly the nodes it emptied |
| `TieringFrames.PromoteStepsStore` | internal/tiering/repl_to_ec_processor.go:100-146 | migration and EC repair promote a current version with the shards reported to them and else change nothing |
| `TieringFrames.RemoveStepsStore` | internal/meta/tikv_store_old_version_gc.go:192-231 | old-version GC erases its version unless it is current, a DELETE its object, pruning and selecting the due entry |
| `TieringFrames.HotBlobsChangeBy` | internal/tiering/gc_replication_processor.go:28-75 | a HOT copy on a node changes only by a store or a removal for that very version and node, and a removal removes it |
| `TieringFrames.ChunksChangeBy` | internal/tiering/old_version_gc_processor.go:65-117 | a chunk changes only by a worker or a removal for that very object and index |
| `OldVersions.EnqueueOldVersions` | internal/meta/tikv_store_old_version_gc.go:37-81 | the retention loop hands over the eligible versions in order, all of them unless the task budget is used up, and counts the tasks that changed |
| `OldVersions.EnqueueOldVersionGCCandidates` | internal/meta/tikv_store_old_version_gc.go:14-84 | the sweep over all objects hands over the eligible versions in order, all of them unless the task budget ran out, and counts the tasks that changed |
| `OldVersions.SweepHandsReapable` | internal/meta/tikv_store_old_version_gc.go:39-76 | what the sweep may hand over is exactly the versions that the retention rule allows to purge |
| `OldVersions.ScanHandsReapable` | internal/meta/tikv_store_old_version_gc.go:49-68 | a version is eligible in the loop if and only if at least keepLatest versions are newer, it is not current and it is old enough |
| `WriteQuorum.Required` | internal/writeservice/writeservice.go:69-81 | the quorum is at least one, the configured one when there are enough replicas, and out of reach when there are not |
| `WriteQuorum.AwaitQuorum` | internal/writeservice/writeservice.go:277-313 | unless the caller gives up first, a write commits exactly when enough replicas store it; the nodes recorded are the first successful ones to reply, all replies were seen if it fails, and it is cancelled exactly when the caller gives up while replies are out and the quorum is not in |
| `WriteQuorum.SuccessesAre` | internal/writeservice/writeservice.go:286-290 | the nodes recorded are those of the successful replies in the order of arrival |
| `TaskIndex.WriteKeeps` | internal/meta/tikv_store_task_index.go:158-189 | writing a row with its index keys keeps index and table coherent, from any state of the previous row |
| `TaskIndex.ReindexKeeps` | internal/meta/tikv_store_task_index.go:133-156 | rebuilding the index of a row keeps coherence |
| `TaskIndex.RemoveKeeps` | internal/meta/tikv_store_tasks.go:405-418 | removing a row with its keys keeps coherence |
| `TaskIndex.KeysApart` | internal/meta/tikv_store_task_index.go:39-58 | index keys of tasks with different ids never coincide |
| `TaskIndex.IndexExact` | internal/meta/tikv_store_task_index.go:60-131 | in a coherent store a runnable task has exactly one index key, its own ready (only once due) or wait key, a running task none, a terminal task exactly its terminal key, and every index key names a row |
| `TaskQueue.PromoteMoves` | internal/meta/tikv_store_task_index.go:191-267 | a promotion pass keeps coherence and all rows and moves exactly the first listed wait keys |
| `TaskQueue.PromoteCount` | internal/meta/tikv_store_task_index.go:191-267 | a pass promotes the smaller of its limit and the number of due wait keys |
| `TaskQueue.RoundsDrain` | internal/meta/tikv_store_tasks.go:212-231 | the doubling rounds leave exactly the due wait keys beyond the sum of their limits |
| `TaskQueue.ClaimRefinesTableScan` | internal/meta/tikv_store_tasks.go:204-238 | a claimed task is an eligible row with its id, object, version, type, priority, retries and schedule, running since now without error or finish time; that row alone changes in the table; if the rounds drain the due wait keys it is the first by clamped priority, time, type and id and none is found only if there is none; without a type filter none is found only if there is none |
| `TaskRuns.PurgeExact` | internal/meta/tikv_store_tasks.go:304-432 | the purge removes only terminal rows finished by the cutoff, oldest first, as many as it reports, and all of them when it reports fewer than its limit |
| `TaskRows.StepRows` | internal/meta/tikv_store_tasks.go:35-202 | on any store an enqueue creates the row field by field as asked, revive, requeue and cancel change exactly the fields they name of a row that qualifies, and no other row changes |
| `TaskRows.MarkRows` | internal/meta/tikv_store_tasks.go:240-302 | on any store a done mark makes the row DONE now, a retry mark RETRY_WAIT with one more retry, the error and the next time, a failed mark FAILED now with the error; every other field and row is kept |
| `TaskRows.WriteFinds` | internal/meta/tikv_store_task_index.go:160-189 | the batch of row and index changes exactly the row it names, whatever the store contains |
| `TaskRuns.RowsWereAskedFor` | internal/meta/tikv_store_tasks.go:35-432 | over every run each row stands for an object, version and type that some enqueue of its id asked for |
| `TaskRuns.EnqueueIdempotent` | internal/meta/tikv_store_tasks.go:35-68 | enqueueing creates a PENDING row once; enqueueing the id again changes nothing |
| `TaskRuns.CancelThenRequeue` | internal/meta/tikv_store_tasks.go:137-202 | a cancelled task is FAILED with its finish time, and requeued it is the task it was, PENDING and due now |
| `TaskRuns.ClaimRows` | internal/meta/tikv_store_tasks.go:204-238 | a claim changes exactly the row it returns |
| `TaskRuns.TaskStepKeeps` | internal/meta/tikv_store_tasks.go:35-432 | enqueue, requeue, cancel, claim with promotion, done, retry, failed, revive and purge each keep coherence |
| `TaskRuns.RunCoherent` | internal/meta/tikv_store_tasks.go:35-432 | every run of these operations with a non-decreasing clock, from an empty store, keeps index and table coherent |
| `TaskRuns.RunIndexExact` | internal/meta/tikv_store_task_index.go:158-413 | so in every reachable state each task has exactly the index keys its state calls for |
| `TaskRuns.HealKeeps` | internal/meta/tikv_store_task_index.go:311-316 | the self-heal that rebuilds a row's index from the row keeps coherence |
| `TaskRuns.ClaimSound` | internal/meta/tikv_store_task_index.go:269-331 | on any store, coherent or not, a claimed task was a runnable, due row of the requested type, is returned and stored as that row running since now, and no other row changes; a claim that finds none changes no row |
| `TaskStore.Store.EnqueueTieringTask` | internal/meta/tikv_store_tasks.go:35-68 | an empty id is an error; a missing task is created PENDING with object, version, type, priority and time as asked, an existing one is left alone |
| `TaskStore.Store.EnqueueOrReviveTask` | internal/meta/tikv_store_policy.go:327-368 | a missing task is created, a finished one starts over under the new priority with the rest kept, and a change is reported exactly then |
| `TaskStore.Store.RequeueTieringTaskNow` | internal/meta/tikv_store_tasks.go:137-168 | every existing row that is not DONE is PENDING and due now, without error and times, and a change is reported exactly then |
| `TaskStore.Store.CancelTieringTask` | internal/meta/tikv_store_tasks.go:170-202 | every row that is not terminal is FAILED now with the reason, and a change is reported exactly then |
| `TaskStore.Store.MarkTieringTaskDone` | internal/meta/tikv_store_tasks.go:240-256 | any row is DONE now and keeps every other field |
| `TaskStore.Store.MarkTieringTaskRetry` | internal/meta/tikv_store_tasks.go:258-280 | any row is RETRY_WAIT with one more retry, the error and the next time or now, without a finish time, the rest kept |
| `TaskStore.Store.MarkTieringTaskFailed` | internal/meta/tikv_store_tasks.go:282-302 | any row is FAILED now with the error or the default message, the rest kept |
| `TaskStore.Store.PromoteDueWaitingTasks` | internal/meta/tikv_store_task_index.go:191-267 | the loop and its one batch give the promotion pass and its count, and no row changes |
| `TaskStore.Store.PurgeTerminalTieringTasks` | internal/meta/tikv_store_tasks.go:304-432 | the loop and its one batch give the purge and its count; a caller that gives up on the way gets an error and nothing is removed |
| `TaskStore.Store.TryClaimTask` | internal/meta/tikv_store_task_index.go:333-413 | the transaction takes the row only if it is still claimable, returns and stores it as that row running since now, drops the key of a missing row, and else changes nothing |
| `TaskStore.Store.ClaimFromReadyIndex` | internal/meta/tikv_store_task_index.go:269-331 | the loop over the ready index is the claim scan, dropping orphan keys and rebuilding mismatched ones on the way; it returns and stores one row as taken or changes no row |
| `TaskStore.Store.ClaimNextTieringTask` | internal/meta/tikv_store_tasks.go:204-238 | promotion rounds followed by the claim loop are the claim that refines the table scan; the task returned and stored is a runnable, due row of the type as it was found, running since now, and no other row changes |
| `ScanPlan.ResolvePlan` | internal/meta/tikv_store_tasks.go:13-33 | the plan has a positive first limit no larger than the largest and one to sixteen rounds, and keeps a valid configuration as it is |
| `ScanPlan.BudgetDoubles` | internal/meta/tikv_store_policy.go:146-155 | within the largest limit n rounds visit 2^n - 1 times the first limit, and from it on each round adds the same |
| `ClaimTxns.NoVersionTakenTwice` | internal/meta/tikv_store_task_index.go:333-413 | under every interleaving of snapshot transactions and arbitrary batches, no row version is claimed twice, and every claimed one was a runnable, due version of the indexed type |
| `ClaimTxns.ClaimsWithinRunnableWrites` | internal/meta/kvstore/client.go:211-255 | the committed claims of a task never exceed the committed writes that made it runnable |
| `ClaimTxns.ClaimCommits` | internal/meta/tikv_store_task_index.go:333-413 | in every interleaving a claim of a due row not written since its transaction began takes it, with no other row changed, exactly when its index keys were not written either, and else changes nothing |
| `KvClient.Client.CommitBatch` | internal/meta/kvstore/client.go:346-362 | batch commit equals replaying its operations in order |
| `KvClient.Client.RunInTxn` | internal/meta/kvstore/client.go:211-233 | a transaction gives the same reads and final map as running its body directly on the store, and leaves the store unchanged on error |
| `KvClient.Client.Commit` | internal/meta/kvstore/client.go:226-232 | applying deletions and then writes of the disjoint overlays gives the transaction's view |
| `KvClient.Txn.Get` | internal/meta/kvstore/client.go:257-286 | a read sees the store under the transaction's own writes |
| `KvClient.Txn.Set` | internal/meta/kvstore/client.go:288-302 | a write updates the view at its key and keeps the overlays disjoint |
| `KvClient.Txn.Delete` | internal/meta/kvstore/client.go:304-318 | a delete removes its key from the view and keeps the overlays disjoint |
| `KvClient.Client.NewIter` | internal/meta/kvstore/client.go:412-444 | a range iterator lists the keys of the range once each in ascending order |
| `KvClient.Client.NewPrefixIter` | internal/meta/tikv_store_helpers.go:254-260 | a prefix iterator lists exactly the keys with the prefix, once each in ascending order |
| `KvClient.ListsUnique` | internal/meta/kvstore/client.go:412-444 | there is only one ascending listing of a key set |
| `ByteOrder.ComputePrefixUpperBound` | internal/meta/tikv_store_keys.go:214-223 | the in-place loop computes the upper bound |
| `ByteOrder.PrefixRangeExact` | internal/meta/tikv_store_keys.go:214-223 | for every byte prefix, empty and all-0xFF included, the range up to the bound holds exactly the keys with the prefix |
| `Keys.Int64Order` | internal/meta/tikv_store_keys.go:194-196 | byte order of encoded int64 values is numeric order exactly when the two are not different negatives, and the encoding is injective |
| `Keys.NegativesReverse` | internal/meta/tikv_store_keys.go:194-196 | the key of -1 comes before the key of -2 |
| `Keys.PriorityOrder` | internal/meta/tikv_store_keys.go:202-212 | byte order of encoded priorities is the reverse of clamped priority order |
| `Keys.ClampKeepsOrder` | internal/meta/tikv_store_keys.go:202-212 | clamping keeps the order of two priorities exactly when the bias does not overflow for the larger one, or overflows for both, or the smaller one is clamped to the bottom |
| `Keys.LargestPriorityComesLast` | internal/meta/tikv_store_keys.go:202-217 | a task of priority 0 is scheduled before one of the largest int64 priority |
| `Keys.ParseReadyInverts` | internal/meta/tikv_store_keys.go:67-106 | parsing a built ready key gives back its time, type and id, slashes in the id included |
| `Keys.ParseWaitInverts` | internal/meta/tikv_store_keys.go:75-126 | parsing a built wait key gives back its time, type and id |
| `Keys.ParseTerminalInverts` | internal/meta/tikv_store_keys.go:82-145 | parsing a built terminal key gives back its time and id |
| `Keys.ParseDueInverts` | internal/meta/tikv_store_keys.go:159-192 | parsing a built due key gives back its time, object and version |
| `Keys.FamiliesPrefixFree` | internal/meta/tikv_store_schema.go:5-19 | a key belongs to at most one key family |
| `Keys.PrefixesExact` | internal/meta/tikv_store_keys.go:19-49 | an object prefix matches only that object's rows and a version prefix only that version's |
| `Keys.ReadyOrder` | internal/meta/tikv_store_keys.go:67-73 | byte order of ready keys is clamped priority descending, then time, then type and id |
| `Keys.WaitOrder` | internal/meta/tikv_store_keys.go:75-80 | byte order of wait keys is time, then type and id |
| `Keys.TerminalOrder` | internal/meta/tikv_store_keys.go:82-86 | byte order of terminal keys is finish time, then id |
| `Keys.DueOrder` | internal/meta/tikv_store_keys.go:159-161 | byte order of due keys is time, then object and version |
| `DueScan.DueIndex.ReadyWindow` | internal/meta/tikv_store_due_index.go:192-240 | a window is the first ready entries after the cursor up to its size, with whether more are ready and the key to go on from |
| `DueScan.DueIndex.BurstScan` | internal/meta/tikv_store_policy.go:83-155 | when entries and references are paired the rounds visit exactly a prefix of the sorted ready entries although stale ones are deleted by their references on the way: as many as the rounds allow or all, fewer only when the object cap is full without a byte budget; exactly the stale ones are gone, the pairing is kept and the candidates are those the row checks accept |
| `DueScan.RemovePaired` | internal/meta/tikv_store_due_index.go:109-158 | removing a version by its reference removes the visited entry and keeps entries and references paired |
| `DueScan.VerdictSound` | internal/meta/tikv_store_policy.go:96-136 | an entry is dropped exactly if it is named and its object is gone, moved on, in a later state, or old enough and no longer HOT, and becomes a candidate exactly when it is none of these, named, and old enough |
| `DueScan.CandidatesExact` | internal/meta/tikv_store_policy.go:96-136 | the candidates are exactly the visited entries judged so, in the order of their keys |
| `DueScan.ReadyPrefixIsAll` | internal/meta/tikv_store_due_index.go:209-235 | in an index whose keys are built from their records the ready prefix is exactly the entries that are due |
| `DueScan.AfterDeletes` | internal/meta/tikv_store_due_index.go:209-213 | deleting visited entries does not change what follows the cursor |
| `DueScan.SelectWithinBudget` | internal/meta/tikv_store_policy.go:170-185 | the selection loop is the greedy selection |
| `DueScan.GreedyShape` | internal/meta/tikv_store_policy.go:170-185 | the selection takes each candidate at most once, in order, and never more than the object cap |
| `DueScan.BudgetKeptExactly` | internal/meta/tikv_store_policy.go:177-184 | the bytes selected stay within a positive budget at every point exactly when no running sum overflows |
| `DueScan.SmallSizesFit` | internal/meta/tikv_store_policy.go:177-184 | sizes that leave room above the budget never overflow |
| `DueScan.SkippedOnlyForOverflow` | internal/meta/tikv_store_policy.go:173-185 | a candidate is passed over only when the cap is full or its bytes on top of those picked before it would exceed the budget |
| `DueScan.OverflowPicks` | internal/meta/tikv_store_policy.go:178-183 | with one byte used of a budget of ten a candidate of the largest size is picked |
| `CandidatePass.SortOrdered` | internal/meta/tikv_store_policy.go:157-165 | the candidates are taken oldest first, then the larger, then the smaller id, none lost and none repeated |
| `CandidatePass.PolicyStore.EnqueueTieringCandidates` | internal/meta/tikv_store_policy.go:60-231 | from any state of the protocol the pass leads to the state in which the stale entries it visited are pruned and the greedy choice of its candidates is selected; what it visited is all ready entries, or as many as the rounds allow, or enough for the object cap, and the count is the number of tasks that are new |
| `CandidatePass.PolicyStore.Take` | internal/meta/tikv_store_policy.go:187-228 | the writes for one selected candidate are the selection step of the protocol |
| `CandidatePass.PassIsRun` | internal/meta/tikv_store_policy.go:83-228 | that state is reached from any reachable one by prune and select steps only, so every theorem about runs holds across the pass |
| `Lease.LockTable.TryAcquireLockWithTTL` | internal/meta/kvstore/client.go:480-514 | in memory an acquire succeeds exactly when no other owner has an unexpired lease, stores the owner until now plus the lease time (ten seconds if none is given), and changes only that lock |
| `Lease.LockTable.RefreshLock` | internal/meta/kvstore/client.go:618-647 | in memory a refresh succeeds exactly for the owner of an unexpired lease, stores the owner until now plus the lease time, and changes only that lock |
| `Lease.LockTable.ReleaseLock` | internal/meta/kvstore/client.go:688-707 | in memory a release removes the lock of its owner and nothing else |
| `Lease.AtMostOneHolder` | internal/meta/kvstore/client.go:480-574 | in every interleaving of calls with snapshot reads and conflict-checked commits at most one owner has an unexpired grant, and it is the stored lock |
| `Lease.WholeCall` | internal/meta/kvstore/client.go:480-514 | a call that is not interrupted, as in the memory form, decides on the lock as it is and never meets a conflict |
| `Lease.FinishStores` | internal/meta/kvstore/client.go:515-739 | in every run a call with an outdated read changes nothing; otherwise an acquire succeeds unless another lease is running, a refresh exactly on the own running lease, both store the expiry counted from the call's time, and a release removes the own lock only |
| `Lease.PromisesAreTimed` | internal/meta/kvstore/client.go:515-686 | over every run each grant and the stored lock stem from an acquire or refresh of that owner and expire at its time plus its lease time |
| `Lease.CallsAreTimed` | internal/meta/kvstore/client.go:480-686 | over every run the time of a call is what the clock showed when the call took it |
| `Lease.TakeoverIsFinal` | internal/meta/kvstore/client.go:618-739 | while another owner holds the lock a refresh fails and a release changes nothing, even if it read the lock before the takeover |
| `Lease.TakeoverNeedsExpiry` | internal/meta/kvstore/client.go:515-574 | a lock changes hands only once its stored expiry has passed |
| `Lease.KeptUnlessShortened` | internal/meta/kvstore/client.go:480-574 | a call keeps every grant ever given covered by the stored lock exactly when it does not store an earlier expiry over its owner's running lease |
| `Lease.AllPromisesOneOwner` | internal/meta/kvstore/client.go:480-739 | over a run without such a call all unexpired grants ever given belong to one owner |
| `Lease.ShorteningBreaksPromises` | internal/meta/kvstore/client.go:487-514 | an acquire timed before but stored after a longer one of the same owner lets a second owner in while the longer grant is unexpired |
| `Admission.CountersExact` | cmd/storage_node/engine.go:379-450 | in every interleaving without int64 overflow each counter is the sum of the bytes held and within its positive limit, each reservation is taken at most once and given back exactly once, and no clamp to zero is made |
| `Admission.NextKeeps` | cmd/storage_node/engine.go:473-534 | each atomic step of stores, workers, refusals, full queues and cancellations keeps counters, requests and queues right |
| `Admission.SwapTotalExact` | cmd/storage_node/engine.go:379-398 | a total reservation is refused exactly when what it saw and its bytes exceed a positive limit, tries again when the counter moved, and else takes its bytes |
| `Admission.SwapClassExact` | cmd/storage_node/engine.go:400-424 | the same for a class, of which only background has a limit |
| `Admission.ArriveExact` | cmd/storage_node/engine.go:473-500 | a new request has its class and its bytes, none if the size is negative |
| `Admission.EnqueueExact` | cmd/storage_node/engine.go:500-534 | a write that holds its bytes goes to the end of its queue and is dropped exactly when the queue is full |
| `Admission.TakeExact` | cmd/storage_node/engine.go:349-361 | a worker takes the write that was queued first |
| `Admission.FittingIsQueued` | cmd/storage_node/engine.go:473-534 | a request that fits both limits, finds room in its queue and is not interrupted is queued with its bytes counted once in the total and once in its class |
| `Admission.WorkIsGivenBack` | cmd/storage_node/engine.go:426-451 | a worker that is done gives the bytes back to both counters and the request ends |
| `Admission.QueuesBounded` | cmd/storage_node/engine.go:500-534 | in every run a queue never holds more than its capacity |
| `Admission.ExactUnlessOverflow` | cmd/storage_node/engine.go:388-397 | a total reservation that succeeds keeps the counter equal to the sum exactly when current plus bytes fits int64 |
| `Admission.ClassExactUnlessOverflow` | cmd/storage_node/engine.go:399-420 | the same for the foreground and background counters |
| `Admission.SmallRequestsNeverOverflow` | cmd/storage_node/engine.go:388-420 | with a positive limit, requests no larger than what int64 leaves above it never overflow the total or the background counter |
| `Admission.SmallRunNeverOverflows` | cmd/storage_node/engine.go:379-450 | with a positive total limit, a run whose requests are small never overflows any counter when the requests that have given back the total but not yet the class are at most a given number |
| `Admission.ShortRunNeverOverflows` | cmd/storage_node/engine.go:379-450 | under any limits, a run whose steps times its largest request fit int64 never overflows |
| `Admission.OverflowAdmits` | cmd/storage_node/engine.go:388-397 | with one byte reserved of a limit of ten a request of the largest size is admitted |
| `Placement.SelectByRendezvous` | internal/placement/placement.go:19-52 | the loop gives the first of the ranking: distinct nodes by higher score, then smaller id, and none left out outranks one of them |
| `Placement.SelectedIsBest` | internal/placement/placement.go:19-52 | the chosen nodes are as many as asked for or all, higher scores first with ties by smaller id, and none left out outranks one of them |
| `Placement.TrimExact` | internal/placement/placement.go:70-85 | trimming takes all the blanks at both ends of an id and nothing else |
| `Placement.UniqueNodes` | internal/placement/placement.go:70-85 | the trimmed non-empty ids, each once, in byte order |
| `Placement.RankingUnique` | internal/placement/placement.go:37-42 | a node set has only one ranking |
| `Placement.ChoiceIgnoresOrder` | internal/placement/placement.go:16-52 | node lists with the same distinct nodes give the same choice |
| `Placement.ChoiceStable` | internal/placement/placement.go:19-52 | adding or removing one node changes the choice by one swap at most and keeps the order of the rest |
| `Placement.SelectHotReplicaNodes` | cmd/api/node_selection.go:36-80 | the replicas are the first by penalty then rank when load counts, and the first by rank otherwise |
| `Placement.LoadAwareOptimal` | cmd/api/node_selection.go:62-70 | a chosen node beats every other by penalty, then rendezvous rank |
| `Placement.EqualLoadsReduce` | cmd/api/node_selection.go:62-70 | with equal penalties the load-aware ranking is the rendezvous ranking |
| `Placement.PenaltyMonotone` | cmd/api/node_selection.go:82-104 | more load never means a smaller penalty, as a number |
| `Placement.PenaltyWeights` | cmd/api/node_selection.go:82-104 | one more queued write costs 1000, one more MiB 100, each further bucket of write time 100, IO wait 20, CPU 10 and memory 1 |
| `Placement.IdlePenalty` | cmd/api/node_selection.go:82-104 | a node below the first bucket of every measure has no penalty |
| `Placement.StoredPenaltyGrowsExactly` | cmd/api/node_selection.go:82-104 | the int64 penalty grows with the load up to a given load exactly when the penalty of that load fits int64 |
| `Placement.DeepQueuePreferred` | cmd/api/node_selection.go:82-97 | a queue depth whose thousandfold wraps gives a smaller penalty than an idle node |
| `Placement.PickRepairTargetNodes` | internal/tiering/repair_replication_processor.go:365-394 | for trimmed node ids the targets are distinct healthy nodes, as many as needed or all, and a used one only after every unused one |
| `Placement.RepairDistinctExactly` | internal/tiering/repair_replication_processor.go:365-394 | the targets are distinct for every number needed exactly when every name whose trimmed form is an unused node is written that way |
| `Placement.BlankNameRepeats` | internal/tiering/repair_replication_processor.go:379-392 | with one healthy name that carries a blank and two targets asked for, the node comes twice |
| `Throttle.Pacer.Throttle` | internal/tiering/repl_to_ec_processor.go:341-372 | a paced call is granted a start not before the previous grant ends nor before now and waits exactly until then; a call whose delay is zero starts at once |
| `Throttle.StartsPromptly` | internal/tiering/repl_to_ec_processor.go:353-365 | over every run a call starts at once or as soon as an earlier paced call ends, never later, and is logged with its own bytes and delay |
| `Throttle.GapCoversDelays` | internal/tiering/repl_to_ec_processor.go:358-365 | over every run of calls the gap between the starts of two paced calls is at least the delays of the calls from the first up to the second |
| `Throttle.GapKeptExactly` | internal/tiering/repl_to_ec_processor.go:353-365 | a call keeps that gap to the earlier ones in every state exactly when its delay is positive |
| `Throttle.TinyCallJumpsAhead` | internal/tiering/repl_to_ec_processor.go:353-357 | while a call holds the pace for a second, a call of one byte starts at once |
| `Throttle.WindowBytes` | internal/tiering/repl_to_ec_processor.go:353-365 | the bytes of all calls, paced or not, that start in any window are at most rate times window plus the last paced request plus one nanosecond's worth per call |
| `IdleGate.Scanner.StrategyCGatePass` | internal/tiering/policy_scanner.go:314-335 | a tick is admitted exactly at a calm check after enough calm checks in a row and after the cooldown |
| `IdleGate.AdmissionsApart` | internal/tiering/policy_scanner.go:314-335 | any two admissions are at least the cooldown apart |
| `IdleGate.AdmissionAfterCalm` | internal/tiering/policy_scanner.go:314-335 | at each admission the last IdleStableRounds successful checks were calm |
| `IdleGate.CalmIsAdmitted` | internal/tiering/policy_scanner.go:314-335 | the gate is no stricter: after enough calm checks and long enough after every admission the conditions of an admission hold |
| `IdleGate.IsIdleWindow` | internal/tiering/policy_scanner.go:337-395 | the window is idle exactly when some node is live and enough live nodes are idle by count and by ratio |

## Left out

- RunKeepsInv: shard bytes are stored under keys without a version, so EC survival is stated for shard rows only, not for chunk contents.
- WindowBytes: the delay is the exact quotient rounded down; the source computes it in float64.
- StoredPenaltyGrowsExactly: heartbeat values are reals; a float64 outside int64 is not converted.
- EnqueueTieringCandidates: the pass runs under the store mutex without interruption, its prunes succeed, and the task key stands for the task row, whose index keys are in `TaskStore`.
- RunCoherent: one process under the store mutex; the transaction form with several workers is `ClaimTxns`, where all other writers are arbitrary batches.
- Asynchronous due-index commits, direct EC writes (`WriteEC`) and legacy routes.
- JSON records, checksums, HTTP and RPC, timers, logging, fsync and group sync, path checks of blob keys.
- Reed-Solomon split, encode and reconstruct; SHA-256 scores are a parameter.
- Store errors in the middle of a loop.
- The order of workers' queues, which comes from channels.
- `GetNormalizedMetadata`, admin views, listings, statistics, and repair enqueueing beyond the create-or-revive step.
- The threshold loop of strategies A and B, which shares counter and cooldown with the modelled gate.
- That only one scanner runs: the lease is not used as a fence there.
