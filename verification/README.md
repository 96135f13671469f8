# In-memory agent server runtime: what may be deleted, when, and what must survive

A Dafny model of the in-memory runtime of an agent server, and proofs about it. The
runtime keeps checkpoints of agent threads, streams of run messages, a key-value store
with expiring items, and a queue of runs. Most of its hard logic decides what may be
thrown away; most of the theorems here say what survives.

| file | what it models |
|---|---|
| `History.dfy` | one namespace of checkpoints: how a channel is reconstructed, which ancestors that needs |
| `Store.dfy` | whole checkpoint stores: keep-latest pruning, run deletion, thread deletion |
| `Trails.dfy` | the same retention told on parent links, blob keys and tags alone |
| `Walks.dfy`, `Pruning.dfy`, `RunDeletion.dfy`, `BaseSaver.dfy`, `Saver.dfy` | the in-memory saver's loops and its class |
| `Sizes.dfy` | the per-thread size table against a recount from scratch |
| `SqlWalks.dfy`, `PostgresSaver.dfy` | the SQL saver's version of the same policy, and exactly when the two agree |
| `Runs.dfy` | stored runs, shared by the sweep and the scheduler |
| `ThreadSweep.dfy`, `SweepPass.dfy` | the thread TTL protocol as interleaved steps, and one sweep pass |
| `StreamIds.dfy`, `Streams.dfy` | message ids, resume cursors and the stream manager |
| `StreamTraces.dfy` | the stream manager told from its calls alone |
| `Persistence.dfy` | which live dictionary may write a file |
| `ItemStore.dfy` | the TTL item store and its size tracker |
| `Scheduler.dfy` | claiming runs, and the runner pool |
| `DeployEvents.dfy` | the deploy event ring and its resumable stream (section 9.2.4 of the HTML Living Standard) |
| `Filters.dfy` | authorization filters and JSON containment |
| `Prelude.dfy` | sums over maps, string order, decimal text |

## How to read the model

A delta-backed channel has no value of its own at a checkpoint: its blob is missing or
empty and it is replayed from its ancestors' writes, down to the nearest ancestor with a
materialized blob. `History.Reconstruct` defines that reading without reference to
pruning; it also records how the chain ends (snapshot, root, missing parent, repeated
id). The savers walk parents for several channels at once; `History.Closure` is what the
walks retain. `History.RetentionIsExact` connects the two in both directions.

State machines (`ThreadSweep`, `Streams`, `Persistence`, `ItemStore`, `Scheduler`,
`DeployEvents`) are step functions; their main theorems speak of every sequence of steps.
Where the source changes objects in place, a class does the same, and its methods are
proved against those functions. In `ThreadSweep` a step is the code between two awaits.

Four properties hold only under a condition, which is proved to be exact:

- The SQL saver's walk stops at a falsy parent id and looks a missing version up as the
  text `None`, so it can stop before the in-memory walk does. On every history it retains
  no more than the in-memory saver (`SqlWalks.SaversAgreeExactly`). It retains the same,
  and leaves every surviving head readable, if and only if no head's walk is cut short
  before a checkpoint that nothing else retains (`SqlWalks.NothingLost`); for keep-latest
  that is: the walk from the newest checkpoint is not cut short (`SqlWalks.CutShort`).
  `SqlWalks.Unambiguous` is a condition on the history alone that suffices, and
  `SqlWalks.SqlCanForgetSnapshot` is a history on which a needed snapshot is lost.
- A thread claimed by a sweeper has no pending or running run, if and only if no step puts
  one there while it is claimed. Two kinds of step can. `Runs.put` creating a thread by
  explicit id awaits a log call after the maintenance gate (ops.py, line 2976), although
  the gate's documentation says that nothing awaits there; and the status setters
  (ops.py, lines 1419 and 3403) never look at the marker and may set a finished run back
  to pending. `ThreadSweep.CreateRace` and `ThreadSweep.StatusRace` are such runs;
  `ThreadSweep.QuietExactlyUndisturbed` is the condition, thread by thread.
- No thread has two running runs, if and only if no status setter and no insertion adds
  one beside another (`Scheduler.OneRunningAlways`); `Runs.next` never does.
- A deploy stream resumed from a cursor beyond the events so far sends ids at or before
  that cursor: `DeployEvents.CursorMustBeKnown`.

Taken as given, because the code is in other packages: the base saver's `put` stores one
checkpoint and one blob per new version, `put_writes` adds to one group and does not
replace an existing write with a non-negative index, `delete_thread` removes all three
kinds of record; the base store's `_apply_put_ops` sets or removes items;
`PersistentDict.close` syncs and then clears. SQL deletes are set operations. Ids and
channel versions are strings, times are integers, payloads are a tag and bytes, and the
clock, the outcome of external calls and the choice of the next step are parameters.

## Model

| member | source | states |
|---|---|---|
| `History.WalkIsUnion` | src/langgraph_runtime_inmem/checkpoint.py:632-653 | walking the parents once for a set of channels passes exactly the ancestors that walking for each channel alone would pass |
| `History.WalkIsChain` | src/langgraph_runtime_inmem/checkpoint.py:634-653 | the ancestors the retention walk passes for a channel are exactly the links of that channel's replay chain, and only the last link can carry a snapshot |
| `History.ReconstructPreserved` | src/langgraph_runtime_inmem/checkpoint.py:607-653 | cutting a history to any set that holds a checkpoint and its needed ancestors leaves every channel of that checkpoint with the same value: same direct blob, or same chain with the same writes and the same end |
| `History.ReconstructNeeds` | src/langgraph_runtime_inmem/checkpoint.py:607-653 | the converse: a cut after which every channel still reads the same has dropped no needed ancestor |
| `History.RetentionIsExact` | src/langgraph_runtime_inmem/checkpoint.py:568-579 | a cut keeps every channel of the surviving heads readable if and only if it holds the heads' closure, on every history, cyclic or broken links included |
| `History.ClosurePreserved` | src/langgraph_runtime_inmem/checkpoint.py:446-505 | the closure computed again on a cut history is the same |
| `History.KeptIsNeeded` | src/langgraph_runtime_inmem/checkpoint.py:632-653 | each ancestor keep-latest retains is a link of the replay chain of some delta-backed channel of the newest checkpoint, with no snapshot of that channel nearer the head |
| `History.KeepIdempotent` | src/langgraph_runtime_inmem/checkpoint.py:595-665 | on a pruned history keep-latest keeps everything |
| `History.KeepOthersIdempotent` | src/langgraph_runtime_inmem/checkpoint.py:446-505 | on a history some runs were deleted from, deleting them again keeps everything |
| `History.SplitDeletionKeepsMore` | src/langgraph_runtime_inmem/checkpoint.py:446-505 | deleting runs a, then runs b, keeps every checkpoint of a namespace that one deletion of both keeps |
| `Stores.PruneKeepsLatestReadable` | src/langgraph_runtime_inmem/checkpoint.py:581-688 | for every store, thread and namespace: after keep-latest the newest checkpoint is still there and still the newest, each of its channels reconstructs to the same value, and storage, writes and blobs of all other threads are untouched |
| `Stores.PruneAllKeepsLatestReadable` | src/langgraph_runtime_inmem/checkpoint.py:586-694 | the same for a call naming any threads in any order, for the newest checkpoint of every thread |
| `Stores.PrunedAllOwn` | src/langgraph_runtime_inmem/checkpoint.py:586-694 | a call does to each named thread, however often it is named, what pruning it alone would do |
| `Stores.PruneIsLeast` | src/langgraph_runtime_inmem/checkpoint.py:632-665 | no cut that keeps the newest checkpoint and all its readings keeps fewer checkpoints than keep-latest does |
| `Stores.PruneLeavesNoGarbage` | src/langgraph_runtime_inmem/checkpoint.py:667-688 | of a thread with stored namespaces, no blob survives that no kept checkpoint uses, no write group without a kept checkpoint, and no empty namespace |
| `Stores.PruneIdempotent` | src/langgraph_runtime_inmem/checkpoint.py:586-694 | a second keep-latest prune changes no record at all |
| `Stores.PruneIsConfined` | src/langgraph_runtime_inmem/checkpoint.py:675-688 | keep-latest on one thread changes no record of another |
| `Trails.NeededIsReplayedOver` | src/langgraph_runtime_inmem/checkpoint.py:615-653 | on parent links, blob keys and blob tags alone: an ancestor is needed if and only if some delta-backed channel whose blob is missing or tagged "empty" is replayed over it, along a trail of distinct stored parents of which only the last may have a blob with another tag |
| `Trails.ReadingByTags` | src/langgraph_runtime_inmem/checkpoint.py:568-579 | a reading is the blob itself if and only if its tag is not "empty"; a delta-backed channel without one is replayed over a trail that starts at the stored parent, carries every write group and blob, and ends in a snapshot if and only if its last checkpoint has one |
| `Trails.PruneKeepsTrails` | src/langgraph_runtime_inmem/checkpoint.py:599-665 | a namespace keeps exactly its newest checkpoint and the checkpoints a channel of it is replayed over |
| `Trails.EmptyBlobKeepsParent` | src/langgraph_runtime_inmem/checkpoint.py:615-641 | if a delta-backed channel of the newest checkpoint has a missing or empty blob, its stored parent is kept and the reading starts there |
| `Trails.ValuedHeadStandsAlone` | src/langgraph_runtime_inmem/checkpoint.py:615-634 | if every delta-backed channel of the newest checkpoint has a blob with another tag, that checkpoint alone is kept |
| `Stores.SameThreadSameReading` | src/langgraph_runtime_inmem/checkpoint.py:586-694 | a change confined to other threads changes no reading of any channel of any checkpoint of this thread |
| `Stores.DeletionKeepsOthersReadable` | src/langgraph_runtime_inmem/checkpoint.py:425-547 | for every store and set of runs, every checkpoint owned by none of them survives and each of its channels reconstructs to the same value, through shared blobs and through targeted ancestors |
| `Stores.DeletionIsLeast` | src/langgraph_runtime_inmem/checkpoint.py:442-505 | no cut that keeps those checkpoints and all their readings keeps fewer checkpoints than run deletion does |
| `Stores.DeletionLeavesNoGarbage` | src/langgraph_runtime_inmem/checkpoint.py:507-547 | exactly the write groups of removed checkpoints go, and exactly those blobs of removed checkpoints that no remaining checkpoint uses |
| `Stores.DeletionIdempotent` | src/langgraph_runtime_inmem/checkpoint.py:425-547 | deleting the same runs again changes no record at all |
| `Stores.SplitDeletion` | src/langgraph_runtime_inmem/checkpoint.py:446-505 | store-wide: a checkpoint that one deletion of a and b keeps is also there after deleting a, then b |
| `Trails.DeletionKeepsTrails` | src/langgraph_runtime_inmem/checkpoint.py:446-505 | a checkpoint stays if and only if none of the runs owns it or a channel of such a checkpoint is replayed over it |
| `Trails.EmptyBlobProtectsParent` | src/langgraph_runtime_inmem/checkpoint.py:460-489 | a surviving checkpoint with a missing or empty delta blob keeps its stored parent, whoever owns that |
| `Trails.ValuedSurvivorsProtectNothing` | src/langgraph_runtime_inmem/checkpoint.py:460-478 | if no survivor has such a blob, every targeted checkpoint goes |
| `Stores.DeletionErasesNamed` | src/langgraph_runtime_inmem/checkpoint.py:574-577 | a call with strategy delete leaves no record of any named thread and every record of the others |
| `Walks.LatestId` | src/langgraph_runtime_inmem/checkpoint.py:599 | the loop for max(checkpoints, key=str) returns the greatest id in code-point order |
| `Prelude.StrLeqByFirstDifference` | src/langgraph_runtime_inmem/checkpoint.py:599 | the order of ids: at the first differing position the smaller character decides, and a proper prefix comes first |
| `Walks.DropSettled` | src/langgraph_runtime_inmem/checkpoint.py:643-652 | the inner channel loop removes exactly the channels with a materialized blob at the ancestor |
| `Walks.KeepIds` | src/langgraph_runtime_inmem/checkpoint.py:597-653 | the keep-latest parent walk terminates on every parent graph, cycles included, and returns the newest checkpoint with its needed ancestors |
| `Walks.ProtectedBy` | src/langgraph_runtime_inmem/checkpoint.py:460-501 | the walk of delete_for_runs from one survivor marks exactly the targeted ones among the ancestors it needs |
| `Pruning.PruneSpaces` | src/langgraph_runtime_inmem/checkpoint.py:595-673 | over all namespaces: the kept checkpoints, the keys of the writes and blobs they use, and the bytes and number of the removed ones |
| `Pruning.DropWrites` | src/langgraph_runtime_inmem/checkpoint.py:675-679 | drops exactly the thread's write groups outside the kept keys and returns their bytes |
| `Pruning.DropBlobs` | src/langgraph_runtime_inmem/checkpoint.py:681-688 | drops exactly the thread's blobs outside the kept keys and returns their bytes |
| `Pruning.PruneAccounting` | src/langgraph_runtime_inmem/checkpoint.py:655-694 | the bytes and the count that prune hands to adjust are the true change of the recount, and adjust does not clamp |
| `Pruning.DeleteAccounting` | src/langgraph_runtime_inmem/checkpoint.py:409-411 | removing the thread's row gives the recount of the store without the thread |
| `RunDeletion.ProtectedTargets` | src/langgraph_runtime_inmem/checkpoint.py:446-501 | the walks of all survivors together mark exactly the targeted checkpoints that some survivor needs |
| `RunDeletion.RemovedIsUnprotected` | src/langgraph_runtime_inmem/checkpoint.py:503-505 | candidates minus protected is exactly the set outside the survivors' closure |
| `RunDeletion.DeleteEntries` | src/langgraph_runtime_inmem/checkpoint.py:507-521 | the deletion loop leaves every other checkpoint in place and collects exactly the blobs the removed ones refer to |
| `RunDeletion.DeletedByPhases` | src/langgraph_runtime_inmem/checkpoint.py:507-547 | deleting checkpoints, empty namespaces, empty threads, writes and orphaned blobs in the code's phases is the specified run deletion |
| `Sizes.AdjustmentIsExact` | src/langgraph_runtime_inmem/checkpoint.py:136-151 | adjusting one row by the true difference keeps the table equal to the recount, and the max(0, ...) changes nothing |
| `Sizes.OnlyOneRowMoves` | src/langgraph_runtime_inmem/checkpoint.py:254-272 | a change confined to one thread moves only that thread's row of the recount |
| `Sizes.TotalsChange` | src/langgraph_runtime_inmem/checkpoint.py:142-147 | both totals stay the sums over the rows when one row is set, added or dropped |
| `Sizes.EntrySizeByParts` | src/langgraph_runtime_inmem/checkpoint.py:68-78 | a checkpoint weighs its id, both payloads and its parent id, if any |
| `Sizes.WriteSizeByParts` | src/langgraph_runtime_inmem/checkpoint.py:81-96 | a write weighs both parts of its key, its task, channel, type tag, bytes and path |
| `Sizes.BlobSizeByParts` | src/langgraph_runtime_inmem/checkpoint.py:99-106 | a blob weighs its channel, version, type tag and bytes |
| `Sizes.GroupSizeByWrites` | src/langgraph_runtime_inmem/checkpoint.py:81-96 | the first write of a group brings in the checkpoint id, each further one only itself, and an empty group weighs nothing |
| `Sizes.Utf8ByRanges` | src/langgraph_runtime_inmem/checkpoint.py:53-61 | text weighs one byte a character and one more from each of the code points 0x80, 0x800 and 0x10000 on |
| `Sizes.CheckpointSizeState.constructor` | src/langgraph_runtime_inmem/checkpoint.py:112-116 | an empty table with zero totals |
| `Sizes.CheckpointSizeState.Adjust` | src/langgraph_runtime_inmem/checkpoint.py:136-151 | the row and both totals move together, all-zero rows are dropped, and whether a clamp changed a value is recorded |
| `Sizes.CheckpointSizeState.RemoveThread` | src/langgraph_runtime_inmem/checkpoint.py:153-158 | drops the row, keeps the totals equal to the sums and returns the row's bytes |
| `Sizes.CheckpointSizeState.CopyThread` | src/langgraph_runtime_inmem/checkpoint.py:160-169 | the target row becomes the source row and the totals stay the sums |
| `Sizes.CheckpointSizeState.Clear` | src/langgraph_runtime_inmem/checkpoint.py:171-175 | an empty table with zero totals |
| `BaseSaver.MeasureGroup` | src/langgraph_runtime_inmem/checkpoint.py:81-96 | the loop computes a write group's size; an empty group weighs nothing |
| `BaseSaver.MeasureBlobs` | src/langgraph_runtime_inmem/checkpoint.py:324-328 | the loop adds up exactly the stored blobs among the new versions |
| `BaseSaver.PutAccounting` | src/langgraph_runtime_inmem/checkpoint.py:330-360 | new minus old size and the new-entry count that put reports are the true change of the recount, overwritten checkpoints and blobs included |
| `BaseSaver.WritesAccounting` | src/langgraph_runtime_inmem/checkpoint.py:374-386 | the size change put_writes reports is the true change of the recount |
| `BaseSaver.PutStores` | src/langgraph_runtime_inmem/checkpoint.py:344 | a put leaves its checkpoint, a blob for every new version, and all other records as they were |
| `BaseSaver.PutThenRead` | src/langgraph_runtime_inmem/checkpoint.py:344 | a channel whose new version was given a value reads as that value at the new checkpoint |
| `BaseSaver.WritesAreMerged` | src/langgraph_runtime_inmem/checkpoint.py:379 | put_writes leaves every added write, unless an ordinary one was already there, and all other records as they were |
| `Savers.InMemorySaver.constructor` | src/langgraph_runtime_inmem/checkpoint.py:179-236 | a saver over any loaded dictionaries holds exactly those and starts with an exact size table |
| `Savers.InMemorySaver.Put` | src/langgraph_runtime_inmem/checkpoint.py:294-360 | stores the checkpoint and one blob per new version; table still equals the recount, totals the sums, nothing clamped |
| `Savers.InMemorySaver.PutWrites` | src/langgraph_runtime_inmem/checkpoint.py:362-386 | merges the writes into the checkpoint's group; table still equals the recount |
| `Savers.InMemorySaver.DeleteThread` | src/langgraph_runtime_inmem/checkpoint.py:409-411 | removes all three kinds of record of the thread; table still equals the recount |
| `Savers.InMemorySaver.Clear` | src/langgraph_runtime_inmem/checkpoint.py:399-403 | empties store and table |
| `Savers.InMemorySaver.PruneThread` | src/langgraph_runtime_inmem/checkpoint.py:586-694 | in place, leaves exactly the keep-latest store; table still equals the recount, with no clamp |
| `Savers.InMemorySaver.Prune` | src/langgraph_runtime_inmem/checkpoint.py:556-694 | all strategies and any thread list; an unknown strategy is refused and changes nothing; table still equals the recount |
| `Savers.InMemorySaver.RebuildSizeTracking` | src/langgraph_runtime_inmem/checkpoint.py:254-272 | the three loops arrive at the recount from any earlier table |
| `Savers.InMemorySaver.RemovableTargets` | src/langgraph_runtime_inmem/checkpoint.py:425-505 | exactly the targeted checkpoints outside the survivors' closure |
| `Savers.InMemorySaver.DeleteForRuns` | src/langgraph_runtime_inmem/checkpoint.py:413-551 | in place, leaves exactly the store specified for run deletion; table still equals the recount |
| `SqlWalks.SqlWalkWithin` | src/langgraph_runtime_inmem/postgres.py:158-172 | on every history the SQL walk passes no checkpoint that the in-memory walk does not pass |
| `SqlWalks.WalkAgreesExactly` | src/langgraph_runtime_inmem/postgres.py:158-172 | from any start and any channels the two walks pass the same checkpoints if and only if, following both in step, the SQL walk does not stop while the next parent is stored, new and still needed |
| `SqlWalks.AncestorsAgreeExactly` | src/langgraph_runtime_inmem/postgres.py:146-172 | the same for the walk from a stored checkpoint with its own unsettled channels |
| `SqlWalks.SaversAgreeExactly` | src/langgraph_runtime_inmem/postgres.py:128-176 | for any heads the SQL saver retains no more than the in-memory saver, and the same if and only if no head's walk is cut short before a checkpoint that is neither a head nor passed by a walk from a head |
| `SqlWalks.LatestAgreesExactly` | src/langgraph_runtime_inmem/postgres.py:131-172 | for keep-latest the retained sets are the same if and only if the walk from the newest checkpoint is not cut short, cyclic histories included |
| `SqlWalks.WalksAgreeExactly` | src/langgraph_runtime_inmem/postgres.py:158-172 | the condition on the history alone: the walks agree from every start and for every channel set if and only if no checkpoint has the empty id and a checkpoint that lacks a channel with a snapshot under the version text "None" leads nowhere new |
| `SqlWalks.UnambiguousLosesNothing` | src/langgraph_runtime_inmem/postgres.py:128-176 | that condition suffices: on such a history nothing is lost, whatever the heads |
| `SqlWalks.SqlCanForgetSnapshot` | src/langgraph_runtime_inmem/postgres.py:161-171 | a concrete history on which the walk from the newest checkpoint is cut short and the snapshot it is replayed from is dropped |
| `PostgresSaver.HistoryRemovalIsSafe` | src/langgraph_runtime_inmem/postgres.py:128-195 | on every history one thread's removal keeps the heads and nothing outside their closure; it keeps exactly the closure if and only if nothing is lost, and it leaves every channel of every head readable as before if and only if nothing is lost, for keep-latest and for run deletion |
| `PostgresSaver.HistoryRemovalIdempotent` | src/langgraph_runtime_inmem/postgres.py:116-195 | on every history the same removal again changes no row, write group or blob |
| `PostgresSaver.HistoryRemovedCuts` | src/langgraph_runtime_inmem/postgres.py:173-195 | on every history, the three deletes touch no blob or write group of a surviving row |
| `PostgresSaver.HistoryRemovalLeavesNoGarbage` | src/langgraph_runtime_inmem/postgres.py:177-195 | if a row goes, no write group of a removed row and no unused blob of the thread is left; nothing else goes, and if no row goes nothing changes |
| `PostgresSaver.HistoryRemovalIsConfined` | src/langgraph_runtime_inmem/postgres.py:179-195 | one thread's removal changes no row, write group or blob of another thread |
| `PostgresSaver.AllHistoryRemovedOwn` | src/langgraph_runtime_inmem/postgres.py:116-195 | a call does to each named thread, however often it is named, what removing its history alone would do |
| `PostgresSaver.SameHistorySameCheckpoints` | src/langgraph_runtime_inmem/postgres.py:128-176 | same history in, same checkpoints out, for one thread under either policy, if and only if nothing is lost |
| `PostgresSaver.PruneCallsAgree` | src/langgraph_runtime_inmem/postgres.py:83-94 | whole keep-latest calls of the two savers, with any thread list, leave the same checkpoints with the same write groups and blobs of a thread if and only if it is not named or nothing of it is lost |
| `PostgresSaver.DeletionCallsAgree` | src/langgraph_runtime_inmem/postgres.py:108-195 | whole run deletions of the two savers leave the same checkpoints with the same write groups and blobs if and only if nothing is lost, provided every thread with a targeted checkpoint is named |
| `PostgresSaver.QueriedDeletionAgrees` | src/langgraph_runtime_inmem/postgres.py:108-115 | the SQL query names enough threads: its run deletion agrees with the in-memory one on any thread if and only if nothing of that thread is lost |
| `PostgresSaver.WalkRow` | src/langgraph_runtime_inmem/postgres.py:146-172 | the walk loop terminates on every parent graph and returns exactly the passed parents |
| `PostgresSaver.LatestPerNamespace` | src/langgraph_runtime_inmem/postgres.py:132-135 | the fold from the empty string finds the greatest id of every namespace |
| `PostgresSaver.PostgresTables.Survivors` | src/langgraph_runtime_inmem/postgres.py:128-136 | the rows that are not candidates are exactly the policy's heads |
| `PostgresSaver.PostgresTables.ProtectedRows` | src/langgraph_runtime_inmem/postgres.py:145-172 | the rows marked by all walks are exactly those some survivor needs |
| `PostgresSaver.PostgresTables.RemoveThreadHistory` | src/langgraph_runtime_inmem/postgres.py:116-195 | in place, leaves exactly the rows, writes and blobs specified for one thread |
| `PostgresSaver.PostgresTables.RemoveHistory` | src/langgraph_runtime_inmem/postgres.py:116-195 | one thread after the other, in order |
| `PostgresSaver.PostgresTables.DeleteForRuns` | src/langgraph_runtime_inmem/postgres.py:79-81 | removes history in exactly the threads that hold a row of one of the runs |
| `ThreadSweep.ProtocolInvariant` | src/langgraph_runtime_inmem/ops.py:1784-1862 | in every interleaving of sweepers, Runs.put, Runs.next, Threads.put, Threads.delete and TTL changes: the marker set is exactly the threads held by sweepers, each by one, and every stored run refers to a stored thread |
| `ThreadSweep.OneClaimantStep` | src/langgraph_runtime_inmem/ops.py:1784-1793 | claiming and releasing keep one claimant per marked thread, on success and failure |
| `ThreadSweep.RunsHaveThreadsStep` | src/langgraph_runtime_inmem/ops.py:1466-1479 | no step strands a run, deletion by identity with duplicate thread objects included |
| `ThreadSweep.QuietStep` | src/langgraph_runtime_inmem/ops.py:2932-3080 | a step that starts with the thread quiet (not both marked and with an active run) leaves it quiet if and only if it is neither the completion of an explicit-id creation nor a status setter that puts an active run into the marked thread |
| `ThreadSweep.QuietFrom` | src/langgraph_runtime_inmem/ops.py:1784-1862 | from any moment at which a thread is quiet it stays quiet up to a later one if and only if nothing intrudes into it meanwhile |
| `ThreadSweep.QuietExactlyUndisturbed` | src/langgraph_runtime_inmem/ops.py:74-87 | for every run of the server and every thread: the thread never has a pending or running run while marked if and only if no step of the run inserts or revives an active run of it while it is marked; other threads do not matter |
| `ThreadSweep.ClaimIsQuiet` | src/langgraph_runtime_inmem/ops.py:1804-1813 | a claim finds its thread without active runs, whatever happened before |
| `ThreadSweep.CreateRace` | src/langgraph_runtime_inmem/ops.py:2976-2977 | a concrete run in which a run is inserted into a marked thread, through the await between the gate and the insertion |
| `ThreadSweep.StatusRace` | src/langgraph_runtime_inmem/ops.py:3393-3406 | a concrete run without explicit-id creation in which a cancelled run is set back to pending while its thread is marked |
| `ThreadSweep.SweepSparesExactly` | src/langgraph_runtime_inmem/ops.py:1835-1843 | a finishing sweep deletes no active run if and only if it only pruned or its thread is quiet at that moment |
| `ThreadSweep.SweepDeletesNoActiveRun` | src/langgraph_runtime_inmem/ops.py:1784-1862 | over every run of the server, a sweep deletes no pending or running run if nothing intruded into its thread since a claim of it, whatever happened to other threads |
| `ThreadSweep.ClaimHasExpired` | src/langgraph_runtime_inmem/ops.py:1794-1843 | over every run, a thread is claimed only when its first object has expired under its own override or else the server's default, with no active run; the same configuration decides whether that object will be deleted or the thread pruned |
| `ThreadSweep.DeletionIsComplete` | src/langgraph_runtime_inmem/ops.py:1466-1479 | over every run, a completed deletion leaves no run of the thread, no TTL entry and no object with the identity it was started for; all else stays |
| `ThreadSweep.ReplacementForgetsSweeps` | src/langgraph_runtime_inmem/ops.py:157-171 | a replaced TTL entry forgets earlier sweeps: an idle thread is then eligible if and only if it has expired under the new configuration in force |
| `ThreadSweep.UpdatePostpones` | src/langgraph_runtime_inmem/ops.py:1825-1833 | an update moves the expiry of the first object with the id |
| `ThreadSweep.CreationIsRecorded` | src/langgraph_runtime_inmem/ops.py:1182-1199 | a new thread is updated at its creation and has the TTL entry it was given |
| `ThreadSweep.PutRunBlocksClaim` | src/langgraph_runtime_inmem/ops.py:1804-1813 | once an active run is put, its thread cannot be claimed |
| `ThreadSweep.NextRunExcludes` | src/langgraph_runtime_inmem/ops.py:2769-2781 | a claimed run runs, and no second run of its thread can be claimed |
| `ThreadSweep.SweepInvariant` | src/langgraph_runtime_inmem/ops.py:1844-1860 | in every run, the recorded updated_at of a pruned thread is the last pruned one until its TTL entry is replaced or removed |
| `ThreadSweep.PrunedOncePerUpdate` | src/langgraph_runtime_inmem/ops.py:1748-1760 | over all runs and any number of sweeps, two prunes of a thread with no replacement of its TTL entry between them are of strictly increasing updated_at |
| `ThreadSweep.EligibleAgain` | src/langgraph_runtime_inmem/ops.py:1825-1860 | after a prune, an idle keep-latest thread is eligible again if and only if its updated_at passed the value read before the await and has expired, so an update during the prune is not lost |
| `SweepPass.SortExpired` | src/langgraph_runtime_inmem/ops.py:1762 | the sorted list is a permutation of the expired threads in order of expiry and id |
| `SweepPass.SelectExpired` | src/langgraph_runtime_inmem/ops.py:1762-1764 | at most limit threads are chosen, all if there is room, and none expires later than one left out |
| `SweepPass.Visit` | src/langgraph_runtime_inmem/ops.py:1835-1859 | one visit: skipped, the thread's records are untouched; kept latest, they are those of a pruned thread and the newest checkpoint of every namespace reads as before; deleted, none is left; the size table stays exact |
| `SweepPass.PassTreatsAll` | src/langgraph_runtime_inmem/ops.py:1778-1862 | every thread selected once is treated as its outcome says and unselected threads keep all their records, whatever the batches |
| `SweepPass.VisitBatches` | src/langgraph_runtime_inmem/ops.py:1778-1862 | for every batch size, zero and negative included: each chosen thread is visited once and in order, treated as its outcome says, unchosen threads keep all their records, and deleted <= processed <= chosen |
| `SweepPass.HandledCounts` | src/langgraph_runtime_inmem/ops.py:1838-1859 | processed counts the visits that were not skipped |
| `SweepPass.DeletionsCount` | src/langgraph_runtime_inmem/ops.py:1837-1840 | deleted counts the visits that deleted their thread |
| `SweepPass.MeasureThreads` | src/langgraph_runtime_inmem/ops.py:1766-1771 | the sizes recorded before the pass are the recount sizes of the chosen threads |
| `SweepPass.ReportDeleted` | src/langgraph_runtime_inmem/ops.py:1865-1872 | the reported size is the sum of what each chosen thread lost |
| `SweepPass.SweepSelected` | src/langgraph_runtime_inmem/ops.py:1766-1890 | a whole pass without interleaved writes: every thread selected once is treated as its outcome says, unselected ones keep their records, and the reported deleted size is exactly the fall of the estimated total |
| `SweepPass.SweptShrinks` | src/langgraph_runtime_inmem/ops.py:1864-1872 | no saver call of a sweep enlarges a thread, and unvisited threads keep their size |
| `SweepPass.ReportedSizeIsExact` | src/langgraph_runtime_inmem/ops.py:1864-1890 | with no interleaved writes the reported deleted size is exactly the fall of the estimated total |
| `Scheduler.PendingRuns` | src/langgraph_runtime_inmem/ops.py:2737-2746 | the waiting runs, each once, oldest first |
| `Scheduler.NextPass` | src/langgraph_runtime_inmem/ops.py:2748-2782 | an uninterrupted pass claims at most limit runs, each the oldest waiting run of an idle existing thread, leaves all other runs alone, and afterwards each thread among the limit oldest waiting runs is busy |
| `Scheduler.FairPassKeepsOne` | src/langgraph_runtime_inmem/ops.py:2769-2781 | such a pass never leaves two running runs on a thread |
| `Scheduler.OneRunningStep` | src/langgraph_runtime_inmem/ops.py:2769-2781 | a change that starts with at most one running run per thread keeps it so if and only if it is no setter or insertion that adds one beside another |
| `Scheduler.OneRunningAlways` | src/langgraph_runtime_inmem/ops.py:2748-2782 | over every history of claims (of interrupted passes too), status changes, insertions and deletions, no thread ever has two stored running runs if and only if no setter and no insertion adds one beside another |
| `Scheduler.ListedRunIsStored` | src/langgraph_runtime_inmem/ops.py:2748-2767 | a run of the list a suspended pass read is still stored when the pass comes to it if and only if neither the run nor its thread was deleted meanwhile |
| `Filters.ContainsReflexive` | src/langgraph_runtime_inmem/ops.py:855-868 | dictionary containment is reflexive |
| `Filters.ContainsTransitive` | src/langgraph_runtime_inmem/ops.py:855-868 | dictionary containment is transitive through any nesting |
| `Filters.ContainsAntisymmetric` | src/langgraph_runtime_inmem/ops.py:855-868 | two dictionaries that contain each other are equal |
| `Filters.ContainsByPaths` | src/langgraph_runtime_inmem/ops.py:855-868 | one dictionary contains another if and only if at every path of keys where the smaller has a dictionary the larger has one, and where it has another value the larger has the same |
| `Filters.LeafMeansExactly` | src/langgraph_runtime_inmem/ops.py:4410-4437 | a key compared with a value, or by a first operator $eq or $contains, is judged by its meaning on all metadata, where $contains asks that the value is a list with each wanted element among its items; a key can turn some metadata away if and only if it is of that kind |
| `Filters.HasEveryWanted` | src/langgraph_runtime_inmem/ops.py:4420-4433 | the $contains test holds if and only if the value is a list and each item of a wanted list, or the single wanted value, equals one of its items |
| `Filters.ValidExactly` | src/langgraph_runtime_inmem/ops.py:4278-4325 | the validator accepts exactly the filters whose $or and $and are lists of at least two filters and which nest at most two levels, where having both keys takes two |
| `Filters.CheckMeans` | src/langgraph_runtime_inmem/ops.py:4343-4440 | a filter the validator accepts, with such keys throughout, never makes the matcher raise, and the verdict is the plain meaning: some $or group, all $and groups, all keys |
| `Scheduler.ConservedStep` | src/langgraph_runtime_inmem/queue.py:128-140 | each step of the loop keeps every runner in exactly one of free, busy and expired, and finds a free runner for each run it was promised |
| `Scheduler.RunnersAddUp` | src/langgraph_runtime_inmem/queue.py:175-240 | in every run of the loop no dispatch finds the pool empty, and free, busy and expired runners add up to the concurrency |
| `Scheduler.RestoreFreesAll` | src/langgraph_runtime_inmem/queue.py:176-183 | after a restore no runner is expired: every runner that is not busy is free |
| `Scheduler.PassUsesAllRunners` | src/langgraph_runtime_inmem/queue.py:208-211 | a pass can dispatch n runs one after the other, whichever runners it takes, if and only if n runners are free |
| `Scheduler.RunnerPool.constructor` | src/langgraph_runtime_inmem/queue.py:114-125 | all runners start free |
| `Scheduler.RunnerPool.StartPass` | src/langgraph_runtime_inmem/queue.py:208-210 | the limit of a pass is the number of free runners |
| `Scheduler.RunnerPool.Take` | src/langgraph_runtime_inmem/queue.py:211 | taking a runner for a yielded run succeeds and conserves the runners |
| `Scheduler.RunnerPool.CleanupTask` | src/langgraph_runtime_inmem/queue.py:128-140 | the runner of a finished task returns to the pool, or is kept as expired if that raised |
| `Scheduler.RunnerPool.PutBackExpired` | src/langgraph_runtime_inmem/queue.py:176-183 | every expired runner returns to the pool |
| `StreamIds.NextId` | src/langgraph_runtime_inmem/inmem_stream.py:21-35 | the next id is strictly greater than the last for any clock reading, and its clock part is the greater of the two |
| `StreamIds.IdsIncrease` | src/langgraph_runtime_inmem/inmem_stream.py:21-35 | for any clock readings, backwards ones included, ids strictly increase as pairs |
| `StreamIds.NextIdIsLeast` | src/langgraph_runtime_inmem/inmem_stream.py:21-35 | the next id is the least that is later than the last, not before the clock and has a sequence number |
| `StreamIds.IdTextForm` | src/langgraph_runtime_inmem/inmem_stream.py:35 | the text is milliseconds, a dash and the sequence number |
| `StreamIds.Generator.Generate` | src/langgraph_runtime_inmem/inmem_stream.py:21-35 | the globals move to the next id and the text is that id's text |
| `StreamIds.IdTextParses` | src/langgraph_runtime_inmem/inmem_stream.py:38-43 | an id parses back from its text if and only if its clock part is not negative |
| `StreamIds.RestoreMessages` | src/langgraph_runtime_inmem/inmem_stream.py:247-272 | the generator yields exactly the messages the cursor specifies, and raises exactly on malformed cursors |
| `StreamIds.LaterThanAnyCursor` | src/langgraph_runtime_inmem/inmem_stream.py:261-272 | whatever id the cursor names, exactly the stored messages with greater ids are yielded, and they are the last ones |
| `StreamIds.ResumeIsExact` | src/langgraph_runtime_inmem/inmem_stream.py:254-272 | on stored messages with increasing ids, resuming from message i's id and from the index cursor i both yield exactly messages i+1 onward |
| `Streams.ManagerInvariant` | src/langgraph_runtime_inmem/inmem_stream.py:121-423 | in every reachable state pending deletions are active runs, a pending run has no entry in any of the four per-run maps, no bucket or list is empty, and a stopped manager holds nothing |
| `Streams.DeleteRunIsLocal` | src/langgraph_runtime_inmem/inmem_stream.py:353-361 | deleting a run clears it and changes nothing of any other run or thread stream |
| `Streams.DeleteThreadIsLocal` | src/langgraph_runtime_inmem/inmem_stream.py:363-396 | deleting a thread clears its runs and streams, marks its active runs, and changes nothing of any other thread |
| `Streams.ClosedForever` | src/langgraph_runtime_inmem/inmem_stream.py:398-423 | after close all maps and sets stay empty whatever is called |
| `Streams.ReplayInvariant` | src/langgraph_runtime_inmem/inmem_stream.py:134-138 | with clocks at or after the epoch, every stored buffer in every reachable state has readable, strictly increasing ids |
| `Streams.ResumeAfterAnyRun` | src/langgraph_runtime_inmem/inmem_stream.py:247-272 | in every reachable state resuming a run from stored message i yields exactly the later messages, by id and by index |
| `StreamTraces.TraceTells` | src/langgraph_runtime_inmem/inmem_stream.py:121-423 | in every reachable state the manager holds for each run exactly what the calls tell by per-run rules that know no nested maps: active and pending marks, queues, control queues, control key, stored messages; and the last id and the stop flag are those the calls tell |
| `StreamTraces.StoredExactly` | src/langgraph_runtime_inmem/inmem_stream.py:131-138 | after every history the stored messages of a run are, in order, exactly its accepted resumable messages since it was last cleared, each with the topic, data and id it was accepted with |
| `StreamTraces.ControlExactly` | src/langgraph_runtime_inmem/inmem_stream.py:139-141 | after every history the control key of a run is the last accepted message whose topic contains "control" since the run was cleared, if there is one |
| `StreamTraces.ResumeFromPut` | src/langgraph_runtime_inmem/inmem_stream.py:247-272 | resuming from the id of a retained message yields exactly the resumable messages accepted after it, in order |
| `StreamTraces.SubscribersTold` | src/langgraph_runtime_inmem/inmem_stream.py:190-245 | after every history a thread's subscribers are those added and not removed since it was last deleted |
| `StreamTraces.RemoveTakesFirst` | src/langgraph_runtime_inmem/inmem_stream.py:207-210 | removing a queue takes out its first occurrence and nothing else |
| `Streams.StreamManager.constructor` | src/langgraph_runtime_inmem/inmem_stream.py:82-98 | a new manager holds nothing and shares the process-wide id generator |
| `Streams.StreamManager.PutOne` | src/langgraph_runtime_inmem/inmem_stream.py:121-138 | a refused run gets no id and no state; otherwise the message gets the next id and is stored where its flags say |
| `Streams.StreamManager.AddQueue` | src/langgraph_runtime_inmem/inmem_stream.py:166-176 | a queue joins its run unless the run is refused |
| `Streams.StreamManager.AddControlQueue` | src/langgraph_runtime_inmem/inmem_stream.py:178-188 | a control queue joins its run unless the run is refused |
| `Streams.StreamManager.AddThreadStream` | src/langgraph_runtime_inmem/inmem_stream.py:190-197 | a thread stream joins unless the manager is stopped |
| `Streams.StreamManager.RemoveQueue` | src/langgraph_runtime_inmem/inmem_stream.py:199-214 | removes one occurrence and any bucket that becomes empty |
| `Streams.StreamManager.RemoveControlQueue` | src/langgraph_runtime_inmem/inmem_stream.py:216-231 | removes one occurrence and any bucket that becomes empty |
| `Streams.StreamManager.RemoveThreadStream` | src/langgraph_runtime_inmem/inmem_stream.py:233-245 | removes one occurrence and a list that becomes empty |
| `Streams.StreamManager.MarkRunActive` | src/langgraph_runtime_inmem/inmem_stream.py:285-290 | a run becomes active unless refused |
| `Streams.StreamManager.MarkRunInactive` | src/langgraph_runtime_inmem/inmem_stream.py:292-299 | a run becomes inactive and a pending deletion is completed |
| `Streams.StreamManager.ClearRunState` | src/langgraph_runtime_inmem/inmem_stream.py:339-351 | removes the run from all four maps |
| `Streams.StreamManager.DeleteRun` | src/langgraph_runtime_inmem/inmem_stream.py:353-361 | clears the run and marks it pending exactly if it is active |
| `Streams.StreamManager.ReleaseRuns` | src/langgraph_runtime_inmem/inmem_stream.py:381-386 | the loop over the thread's runs touches only that thread and marks exactly its active runs |
| `Streams.StreamManager.DeleteThread` | src/langgraph_runtime_inmem/inmem_stream.py:363-396 | the loop and the final pops together leave nothing of the thread but pending marks of its active runs |
| `Streams.StreamManager.Close` | src/langgraph_runtime_inmem/inmem_stream.py:398-423 | stops the manager and empties it |
| `Persistence.OnlyOwnersWrite` | src/langgraph_runtime_inmem/_persistence.py:38-53 | in every run of create, register, mutate, flush, die and close steps, where an instance is closed only if registered since its last close, every write to a file is made by its registry owner of that moment |
| `Persistence.CloseWritesExactly` | src/langgraph_runtime_inmem/_persistence.py:83-104 | a close breaks the owners-only rule exactly when it syncs an instance that was not registered since its last close while the file has no live owner |
| `Persistence.DeniedNeverWrites` | src/langgraph_runtime_inmem/_persistence.py:83-90 | a denied duplicate writes nothing in any later run that does not register it anew, even after the owner closed |
| `Persistence.FlushKeepsOwners` | src/langgraph_runtime_inmem/_persistence.py:129-143 | a flush, whichever syncs fail, leaves every live owner registered |
| `Persistence.RegisterNeverEvicts` | src/langgraph_runtime_inmem/_persistence.py:38-53 | registering changes the live owner of a file only if it had none |
| `Persistence.CloseSavesContents` | src/langgraph_runtime_inmem/_persistence.py:83-104 | a close that may write leaves on disk what the instance held just before, empties it and gives up its ownership; a denied or superseded one only empties it and leaves it denied; a failed one changes nothing |
| `Persistence.FlushSavesContents` | src/langgraph_runtime_inmem/_persistence.py:129-143 | a flush leaves on disk exactly the contents of the live owners whose sync does not fail |
| `Persistence.DiskIsLastSave` | src/langgraph_runtime_inmem/_persistence.py:76-143 | in every run each file holds exactly what its owner held at its last successful close or flush, so nothing another instance held ever reaches it |
| `Persistence.Registry.RegisterPersistentDict` | src/langgraph_runtime_inmem/_persistence.py:25-53 | a live other owner denies the newcomer; otherwise the newcomer becomes the owner |
| `Persistence.Registry.ClosePersistentDict` | src/langgraph_runtime_inmem/_persistence.py:76-104 | the three ways to close: denied, superseded, or synced, cleared and unregistered; a failed sync changes nothing |
| `Persistence.Registry.FlushRegisteredOnce` | src/langgraph_runtime_inmem/_persistence.py:122-143 | syncs every live registered instance that does not fail and drops dead ones |
| `ItemStore.LoadedRefines` | src/langgraph_runtime_inmem/store.py:94-97 | loaded records, less TTL records without an item, are read as a specification state |
| `ItemStore.StoreRefines` | src/langgraph_runtime_inmem/store.py:203-285 | from any loaded records, after any run of locked batches and sweeps, the stored state refines a specification in which a sweep deletes exactly the items whose last write or refresh plus TTL is at or before now; tracked sizes are the items' and the total is their sum |
| `ItemStore.TtlKeysAreItemKeys` | src/langgraph_runtime_inmem/store.py:203-285 | in every run TTL keys are item keys and tracked keys equal item keys |
| `ItemStore.SweepConserves` | src/langgraph_runtime_inmem/store.py:242-285 | in every reachable state the bytes a sweep deletes and the total after add up to the total before |
| `ItemStore.DiskBackedInMemStore.constructor` | src/langgraph_runtime_inmem/store.py:58-97 | a store over any loaded records holds the items and exactly the TTL records that have one, with an exact tracker |
| `ItemStore.DiskBackedInMemStore.DropOrphanedTtlRecords` | src/langgraph_runtime_inmem/store.py:119-123 | the loop drops exactly the TTL records without an item |
| `ItemStore.DiskBackedInMemStore.RebuildSizeTracking` | src/langgraph_runtime_inmem/store.py:150-155 | the loop arrives at the sizes of all items from any tracker |
| `ItemStore.DiskBackedInMemStore.RefreshKeys` | src/langgraph_runtime_inmem/store.py:157-171 | refreshing restarts the TTL of exactly the given items that have one |
| `ItemStore.DiskBackedInMemStore.TrackItem` | src/langgraph_runtime_inmem/store.py:140-148 | a stored item gets its estimate, a missing one loses its entry |
| `ItemStore.DiskBackedInMemStore.UpdateTtl` | src/langgraph_runtime_inmem/store.py:220-224 | the loop records a TTL for exactly the written items that were given one and forgets the others' |
| `ItemStore.DiskBackedInMemStore.TrackPuts` | src/langgraph_runtime_inmem/store.py:226-227 | the loop restores tracked sizes to those of all items |
| `ItemStore.DiskBackedInMemStore.ApplyPuts` | src/langgraph_runtime_inmem/store.py:203-235 | items, TTL records and sizes after a batch, with tracker and total exact |
| `ItemStore.DiskBackedInMemStore.SweepTtl` | src/langgraph_runtime_inmem/store.py:242-285 | deletes exactly the due items, counts them, and its deleted size is the fall of the total |
| `ItemStore.SizeTracker.constructor` | src/langgraph_runtime_inmem/size_tracking.py:15-18 | nothing tracked, zero total |
| `ItemStore.SizeTracker.SetSize` | src/langgraph_runtime_inmem/size_tracking.py:25-36 | the entry becomes the non-negative size and the total stays the sum |
| `ItemStore.SizeTracker.Remove` | src/langgraph_runtime_inmem/size_tracking.py:38-43 | the entry goes, its size is returned and the total falls by it |
| `ItemStore.SizeTracker.Clear` | src/langgraph_runtime_inmem/size_tracking.py:45-48 | nothing tracked, zero total |
| `DeployEvents.StreamIsFaithful` | src/langgraph_runtime_inmem/routes.py:427-445 | from any start cursor not beyond the events so far, in every interleaving of appends and polls, each id sent is the event's absolute 1-based position, ids strictly increase and nothing is sent twice |
| `DeployEvents.DeliveredUnlessRotated` | src/langgraph_runtime_inmem/routes.py:427-445 | over every run, an event the cursor has passed was sent if and only if no poll found it rotated out |
| `DeployEvents.MissedOnlyIfRotated` | src/langgraph_runtime_inmem/routes.py:434-443 | a poll sends an event behind the cursor exactly when the ring still holds it |
| `DeployEvents.CursorMustBeKnown` | src/langgraph_runtime_inmem/routes.py:418-433 | a stream sends only ids behind its start cursor in all runs if and only if that cursor is not beyond the events so far |
| `DeployEvents.SentStays` | src/langgraph_runtime_inmem/routes.py:427-445 | what was sent stays sent |
| `DeployEvents.TerminalComesLast` | src/langgraph_runtime_inmem/routes.py:446-457 | the terminal event's id exceeds every id sent before it |
| `DeployEvents.DeployOperation.constructor` | src/langgraph_runtime_inmem/routes.py:77-79 | an empty ring |
| `DeployEvents.DeployOperation.Append` | src/langgraph_runtime_inmem/routes.py:137-165 | the ring holds the latest 2000 events and the count all of them |
| `DeployEvents.DeployOperation.Poll` | src/langgraph_runtime_inmem/routes.py:434-445 | one poll yields the events behind the cursor still in the ring, under their positions, and moves the cursor to the count |

## Left out

- Serializers, encryption, pickling, files, SQL execution and connection pools, HTTP, subprocesses, logging and asyncio internals: foreign code or input and output.
- Ids and versions that are no strings (UUID objects, numbers, a null version), and metadata whose delta counters are no dictionary in the SQL saver, which would iterate a JSON list as channel names.
- Savers that share one store under different serializers: the model has one saver per store.
- `Threads.patch` replacing a thread object while a deletion rebuilds the list; it holds a list reference across an await. Its TTL change is the step `SetTtl`.
- Copying a thread by rewriting JSON text; only the copy of the size row is modelled.
- Thread status (`set_joint_status`, `Runs.cancel`): cancelling one run sets the thread idle whatever else is active, so no global status invariant holds.
- `SweepPass.VisitBatches`: takes what each recheck came to as a parameter; the recheck itself is `ThreadSweep.Eligible`. Passes that raise half-way, and the count-based statistics, which are computed like the size-based ones, are not modelled.
- `Scheduler.NextPass`: states the pass without the await for a missing thread or the retry counter. A pass that resumes after such an await walks the list it read before, so it can yield a run deleted meanwhile if its thread exists at that moment; `Scheduler.ListedRunIsStored` says exactly when a listed run is still stored, and such a claim is the step `ClaimedUnstored` of `Scheduler.OneRunningAlways`.
- Runners returned from another thread's event loop (`call_soon_threadsafe`), and errors between taking a runner and starting its task.
- Delivery into asyncio queues, the contents of close signals (their ids are the step `AnyOtherId`), and `put_thread` beyond the id it consumes.
- Merged replay of a whole thread (`join_event_streaming`), which sorts on id text rather than on the parsed pair.
- `int()` on text with spaces, underscores or non-ASCII digits: `StreamIds.ParseInt` accepts decimal digits with an optional sign.
- `unregister_persistent_dict`, the disabled-persistence switch and the flush thread; a double close is not excluded but characterised by `Persistence.CloseWritesExactly`.
- Empty namespace buckets and vectors of the item store: items are keyed by namespace and key together, and a size estimate covers item and vectors.
- Python's equality across types (`True == 1`), floats and NaN in JSON values, and `$or` groups that are no dictionaries.
- Floating-point ratios and formatting of sizes.
- Assistants, crons, search, counting, graph state access, lifespan and metrics: they store, list and forward records, and nothing above depends on them.
