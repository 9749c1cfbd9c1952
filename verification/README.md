# Verified model of minicc's durability and recovery machinery

This project models the parts of the local coding agent where state is kept,
shared and recovered, and proves what each of them promises over every run or
every input.

- **Rewind** (`Snapshots.dfy`): the manifest, the stored preimages and the
  workspace, with journaled writes, outside edits, damaged images and restores
  in any order.
- **Lease-fenced workers** (`TaskStore.dfy`): any number of owners claiming,
  renewing, releasing and writing, at sampled times.
- **Coalescing persistence** (`TaskPersistence.dfy`): dirty map, background
  drain, serial numbers, failing writes and the final drain.
- **Stream mirror** (`TaskExecution.dfy`): a bounded worker window, a host that
  sees any of its snapshots, and the unbounded stream both must agree with.
- **Task manager** (`SessionQueue.dfy`, `TaskSlots.dfy`, `Stranding.dfy`,
  `TaskOrder.dfy`, `TaskUsage.dfy`, `Timeline.dfy`): the queue of each session and
  its order, who gets a slot next, the folding of subtask usage, and the bounded
  timeline.
- **Sessions** (`SessionIds.dfy`, `SessionCuts.dfy`): stable message ids, and
  cuts that keep a conversation valid for rewind and fork.
- **Algorithms** (`Impact.dfy`, `PassAtK.dfy`, `Fixture.dfy`, `Prune.dfy`,
  `CommandParts.dfy`, `SearchWindow.dfy`).

Objects that the program updates in place are classes whose methods are proved
against a pure step function; the results about whole runs are lemmas about that
function; those named `...Exactly` say in other terms when something happens.
File and database accesses are atomic steps. Those of them that may fail here
are copies of preimages, replacements of files, saves of the snapshot manifest,
writes of the task store and hand-overs to the executor.

## Assumptions

- SHA-256 fingerprints are collision-free: a digest is modelled by what it was
  computed from (snapshots, timeline, message ids).
- Randomly drawn ids are parameters; that they are fresh is a premise of the
  lemmas that need it.
- The times of lease operations are parameters in no particular order; only the
  expiry lemmas compare them.
- pass@k is computed over exact rationals.

## Where the code does less than one might expect

- Scheduling persists a cancelled or refused task before it goes on to the next
  one. If that write raises, the tasks behind it wait with the slot free until
  something schedules the key again. `StrandedExactlyByAWriteFailure` is the
  exact condition, `StrandingHappens` a run.
- The store redacts snapshots, which may lengthen a stream window. A host length
  then drifts from the worker's offset: `LengthFollowsOffsetExactly` and
  `LengthDriftsAfterRedaction`.
- The reset of a missed stream window is not guarded by the status, so it also
  rewrites a cancelled or terminal record: `FrozenTaskChangesOnlyByReset` and
  `FrozenTaskIsRewritten`.
- The timeline's indexes stay exact only if stored events hold no duplicates, and
  reloading does not remove them: `RunsStayIndexedExactly`,
  `EvictionKeepsIndexExactly` and `ReloadedDuplicateComesBack`.
- A restore saves its records only at its end. If that save raises, the files it
  changed are back, but no retry sets their records right, and writes to them are
  refused while they stay as they are: `RetryAfterFailedSave` and
  `LostRecordClosesThePath`.
- Serials order the writes of one host only. A snapshot numbered before a task is
  handed to a worker can land after the task was taken back, over the worker's
  newer row: `StaleCommitExactly` and `StaleCommitHappens`.
- Of two running tasks of one session key that a starting host adopts, the first
  loses its slot: `AdoptedTwiceLosesTheSlot`.
- A change announced after the snapshot writer has stopped is not recorded
  unless it is a retry (`ChangeIsTakenUpExactly`), so the persistence results
  speak of accepted changes.
- Prune's documentation keeps the children of a retained batch. A batch that is
  kept only because it still runs does not protect them; a finished child needs
  to be among the newest, or to have a parent reached from them:
  `ChildOfKeptBatch` and `RunningBatchLosesItsChild`.
- A token that ends in a backslash is not read back from double quotes: the
  backslash takes the closing quote along (`QuotedLineIsReadBackExactly`).
- A rewind that has to grow to the full length still writes a backup, with
  nothing removed: `BackupWithoutRemovalExactly` and `BackupOfTheWholeHistory`.

## Model

| member | source | states |
|---|---|---|
| Snapshots.Rewind | minicc/snapshots.py:325-388 | After any run of journaled writes, outside edits, image damage and earlier restores, with manifest saves failing at will, a path whose writes are all confirmed, that nobody else touched since its first write and whose image is whole goes back to what that first write found (content or absence); a path never written is not moved |
| Snapshots.RewindExactly | minicc/snapshots.py:358-383 | In every reachable state a restore ends on the first preimage exactly when the record matches the disk and the image matches its digest, or the file is already there |
| Snapshots.RestoreChangesOnlyConfirmedFiles | minicc/snapshots.py:353-383 | In every reachable state a restore changes a file only if it was journaled, is not awaiting confirmation and still holds the content last confirmed, and then only to the first preimage; no outside edit is lost |
| Snapshots.AcceptedWriteIsSafe | minicc/snapshots.py:273-307 | An accepted before_write never covers somebody else's work: the path holds its last confirmed content, or, for a captured dirty path, what capture saw |
| Snapshots.AcceptedExactly | minicc/snapshots.py:273-307 | After any run from a capture the answer of before_write, told from the history alone: a path written before is refused while unconfirmed or no longer as last confirmed and accepted again otherwise; a path dirty at capture needs its preimage and its captured state; any other path is accepted if it has no file, or if the copy of its file succeeds and has room |
| Snapshots.ReportExactly | minicc/snapshots.py:354-385 | By membership: a journaled path is a conflict exactly when its file is not as recorded, restored exactly when an intact image can be put back, removed exactly when it had no preimage and can be deleted, else skipped; only restored and removed files change, to the image and to nothing |
| Snapshots.SelectInParts | minicc/snapshots.py:349-385 | Each list of the report keeps the order of the journal |
| Snapshots.TotalSizeOneMore | minicc/snapshots.py:145-148 | The bytes in use grow by the size of each file that is preserved |
| Snapshots.PendingPathIsClosed | minicc/snapshots.py:274-276 | Between before_write and after_write a path accepts no second write and no restore moves it or its record |
| Snapshots.EveryRunKeepsInv | minicc/snapshots.py:265-388 | Over every run the lists stay disjoint and duplicate-free, images and sizes stay within the caps, undamaged images match their digests, and a confirmed path holds what was confirmed, or its first preimage where a restore could not save its record, unless somebody else edited it |
| Snapshots.StepInv | minicc/snapshots.py:265-388 | Each action (write announced or confirmed, edit by anybody, damage, restore) keeps that invariant |
| Snapshots.RestoreRetryCompletes | minicc/snapshots.py:353-387 | Restoring again after a restore in which some replacements failed ends in exactly the world of an undisturbed restore; a restore after a complete one changes nothing |
| Snapshots.RetryAfterFailedSave | minicc/snapshots.py:384-387 | When the save that ends a restore raises, a retry completes the files, but the records come right exactly when no journaled path that it would rewrite or remove held anything but what it brings back; every path that did is a conflict, and before_write refuses it after the retry |
| Snapshots.LostRecordClosesThePath | minicc/snapshots.py:358-387 | One write of a clean file, a restore whose save raises and the retry: the file is back, and before_write refuses it |
| Snapshots.CaptureClassifies | minicc/snapshots.py:163-218 | Capture classifies each dirty path once: absent ones as missing, readable ones that fit with their own content and digest, the rest as skipped, within the caps |
| Snapshots.SkippedOnlyAtTheCap | minicc/snapshots.py:145-148 | A dirty path is left without a preimage exactly when it is denied or unreadable or does not fit at its turn |
| Snapshots.CapturedListsOnlyGrow | minicc/snapshots.py:282-292 | No run drops a preserved or missing path, changes a stored digest or adds to the skipped list |
| Snapshots.SnapshotJournal.Capture | minicc/snapshots.py:180-218 | The capture loop with its running byte count ends in a valid journal that classifies each dirty path as stated above |
| Snapshots.SnapshotJournal.CopyPreimage | minicc/snapshots.py:145-160 | Adds image, digest and size of one file and keeps the running byte count equal to the sum over the manifest |
| Snapshots.SnapshotJournal.BeforeWrite | minicc/snapshots.py:265-309 | Refuses with the first objection that applies and changes nothing, or stores the preimage once and marks the path as awaiting confirmation; when the manifest cannot be saved at most an unused image is left; the manifest stays valid |
| Snapshots.SnapshotJournal.AfterWrite | minicc/snapshots.py:311-322 | Records the digest of the file as it now is, and nothing else; when the manifest cannot be saved the write stays unconfirmed |
| Snapshots.SnapshotJournal.RestoreOne | minicc/snapshots.py:354-385 | One round of the restore loop: conflict unless the record matches the disk, else the image comes back, the file goes, or the path is skipped; record and report follow, all else stays |
| Snapshots.SnapshotJournal.Restore | minicc/snapshots.py:325-388 | A restore replaces files, records and reports as the pass does; when the manifest cannot be saved the files stay replaced, the records are the old ones and there is no report |
| Snapshots.SnapshotJournal.RestoreAll | minicc/snapshots.py:349-385 | The pass ends in the world that treats every journaled path by its own fate, and its four report lists hold exactly the paths of each fate, in journal order |
| TaskStore.SingleWriterEpochs | minicc/task_store.py:115-163 | Two accepted writes of one owner enclose an accepted write of another only if both claimed in between, each over a missing or expired lease; no assumption on clocks |
| TaskStore.ComesThroughAClaim | minicc/task_store.py:119-126 | An owner that did not hold a lease and later does has claimed it in between, when it was missing or expired |
| TaskStore.EvictedOwnerIsFenced | minicc/task_store.py:131-163 | Once another owner has claimed, an evicted owner's heartbeat, release and fenced write change nothing until it claims again |
| TaskStore.ReleaseIsOwnerScoped | minicc/task_store.py:147-149 | A release removes the caller's own lease and no other lease and no row |
| TaskStore.RowIsTheLastAcceptedWrite | minicc/task_store.py:156-181 | The row of a task is the payload of its last accepted write; refused writes leave no trace |
| TaskStore.DeadUntilClaimed | minicc/task_store.py:115-140 | A lease dead at some time becomes live for that time only through a successful claim, or through its owner's heartbeat that was sampled before it expired and landed late |
| TaskStore.DeadWorkerStaysDead | minicc/task_execution.py:23-28 | A worker found dead by its lease is found alive at that time again only after such a claim or renewal, or after the lease row was removed |
| TaskStore.RenewingOwnerKeepsTheLease | minicc/task_store.py:115-140 | An owner that renews before its deadline is never displaced: each heartbeat lands, and its fenced writes pass exactly until the deadline |
| TaskStore.ClaimExactly | minicc/task_store.py:115-126 | A claim succeeds exactly when there is no live lease or the caller has it; then the caller holds the task, for exactly the given time; other leases and all rows stay |
| TaskStore.HeartbeatExactly | minicc/task_store.py:128-140 | A heartbeat renews exactly the caller's own live lease, for exactly the given time, and no other |
| TaskStore.UpsertExactly | minicc/task_store.py:151-181 | A write without a fence is taken from anybody, one with a fence exactly from the holder of the live lease; it changes one row and no lease |
| TaskStore.LeaseRowDecides | minicc/task_execution.py:23-28 | Where there is a lease its expiry alone says whether a worker lives, else a heartbeat less than 45 seconds old of a versioned record |
| TaskStore.Store.ClaimLease | minicc/task_store.py:115-126 | Claim as one transaction: success exactly when there is no lease, an expired one or the caller's own |
| TaskStore.Store.HeartbeatLease | minicc/task_store.py:128-140 | Renewal succeeds exactly for the owner of a lease that has not expired |
| TaskStore.Store.ReleaseLease | minicc/task_store.py:147-149 | Deletes the lease only if the caller owns it |
| TaskStore.Store.Upsert | minicc/task_store.py:151-181 | The fence and the write are one step; a refused write changes nothing |
| TaskPersistence.StaleNeverReplacesNewer | minicc/task_manager.py:2914-2925 | Under every interleaving, with other processes writing the same rows at any moment, this host commits only under greater serials and never an older snapshot; the row is never older than its last commit, so a row holding one of its snapshots is never followed by an older one |
| TaskPersistence.StoredRowIsTheLastWrite | minicc/task_manager.py:2914-2925 | The stored row is absent if nobody wrote it; or it is the very snapshot that was taken when the committed serial was handed out; or it is exactly the last write of another process, newer than anything this host committed; nothing has written it since |
| TaskPersistence.RowGoesBackExactly | minicc/task_manager.py:2921-2925 | A step puts an older version into the row exactly when it lands a snapshot of this host over a newer row of another process |
| TaskPersistence.StaleCommitExactly | minicc/task_manager.py:2916-2925 | Over every run the commit of a numbered snapshot does so exactly when it lands, the task is not detached by then, no later serial was committed, and the row is a write of another process that came after the number was handed out |
| TaskPersistence.StaleCommitHappens | minicc/task_manager.py:2910-2925 | A snapshot numbered before a hand-over waits, the worker writes version 2, the host takes the task back, and the snapshot lands: the row goes from version 2 to version 1 |
| TaskPersistence.AskedIsStoredOrOnItsWay | minicc/task_persistence.py:52-99 | Every accepted change was committed by this host and not replaced by anything older, or is still dirty, or in a flush that will store it or put it back, whatever writes fail, unless a flush since the last accepted change was left to a worker that owned the task; a task neither dirty nor being flushed is then stored as last asked |
| TaskPersistence.HostRequestIsKept | minicc/task_manager.py:2492-2504 | A change accepted while the host owns the task, also after it took the task back from a worker that wrote the row, is committed and not replaced by anything older, dirty or being flushed for as long as the task is not handed over again |
| TaskPersistence.ChangeIsTakenUpExactly | minicc/task_persistence.py:52-61 | An announced change becomes dirty unless the writer has stopped and it is no retry, and then it leaves no trace |
| TaskPersistence.DrainLandsOrRequeues | minicc/task_persistence.py:83-99 | An id that the background drain takes is flushed like any other: its content is stored, or it is dirty again when the snapshot cannot be built |
| TaskPersistence.OwnedExactly | minicc/task_manager.py:2492-2505 | Over every run a task is left to its worker exactly since the last hand-over that was not taken back, and a stopped writer stays stopped |
| TaskPersistence.VersionCountsChanges | minicc/task_manager.py:2909-2913 | The version a snapshot carries is one more than the number of changes made before it, here or elsewhere |
| TaskPersistence.StepKeepsInv | minicc/task_persistence.py:52-99 | Each step of enqueue, flush, background drain, snapshot and commit keeps the invariant behind these results |
| TaskPersistence.StepOnlyForward | minicc/task_manager.py:2921-2925 | A single step, of this host or of another process, keeps its serials and its committed versions from going back |
| TaskPersistence.FlushLandsOrRequeues | minicc/task_persistence.py:63-81 | With no other writer, a flush stores the current version or puts the id back, exactly according to the write |
| TaskPersistence.UnlandedExactly | minicc/task_persistence.py:118-138 | The drained ids reported as lost are exactly those whose two attempts both fail |
| TaskPersistence.CloseKeepsWhatWasAsked | minicc/task_persistence.py:101-138 | After close everything asked for before is stored, named as lost and dirty again, or left to a worker: by the drain only if the task is detached by then, and otherwise only if that had happened before |
| TaskPersistence.TaskSnapshotWriter.Enqueue | minicc/task_persistence.py:52-61 | Remembers the id unless the writer has stopped and this is no retry; one entry an id |
| TaskPersistence.TaskSnapshotWriter.Write | minicc/task_manager.py:2909-2925 | Numbers and writes a snapshot of the current version; raises exactly when the write does not land |
| TaskPersistence.TaskSnapshotWriter.Flush | minicc/task_persistence.py:63-81 | A flush nobody disturbs is the whole sequence of its steps: the id is out of the dirty map, or back at its end exactly when the write raised; the last error is cleared only on success |
| TaskPersistence.TaskSnapshotWriter.DrainNext | minicc/task_persistence.py:119-135 | One round of the final drain gives one more id its two attempts and leaves every other row alone |
| TaskPersistence.TaskSnapshotWriter.FlushTwice | minicc/task_persistence.py:121-135 | Two attempts at one id: its current version is stored, or its row is untouched and it is dirty again |
| TaskPersistence.TaskSnapshotWriter.Close | minicc/task_persistence.py:101-138 | Drains every dirty id once, returns exactly the ids that never landed, in order, and leaves every other row alone |
| TaskExecution.MirrorRefinesStream | minicc/task_execution.py:46-63 | For every stream and any choice of its snapshots in any order, a live host task has the greatest offset seen as its length, and its text is a tail of the stream up to there, within its limit and at least as long as the two limits force, across missed windows too |
| TaskExecution.AppliedKeepsStep | minicc/task_execution.py:46-63 | Applying one snapshot of the stream keeps the mirror in step with it |
| TaskExecution.NothingMissedNothingLost | minicc/task_execution.py:46-63 | As long as no retained window was missed, the text is exactly what a host reading the stream directly would show |
| TaskExecution.DeltaIsTheMissingPiece | minicc/task_execution.py:47-62 | The part cut out of an overlapping window is exactly the stretch of the stream the host lacks |
| TaskExecution.LengthFollowsOffsetExactly | minicc/task_execution.py:46-63 | A snapshot leaves a live task's length equal to its offset exactly when its window is not longer than that offset |
| TaskExecution.SnapshotWithoutLength | minicc/task_execution.py:41-48 | A snapshot without a length counts as the whole stream so far: what lies behind the last offset is appended |
| TaskExecution.LengthDriftsAfterRedaction | minicc/task_execution.py:46-63 | An eleven-character key stored as its marker of 22 characters leaves the host at length 22 for offset 11 |
| TaskExecution.FrozenTaskChangesOnlyByReset | minicc/task_execution.py:49-60 | A cancelled or terminal task is still changed by a snapshot exactly when a whole window was missed: the reset has no status test |
| TaskExecution.FrozenTaskIsRewritten | minicc/task_execution.py:49-60 | A task cancelled after its first character is overwritten by a snapshot taken two windows later |
| TaskExecution.WorkerStream.OnStream | minicc/task_worker.py:397-401 | The worker's window stays the tail of the unbounded stream and its length the stream's |
| TaskExecution.WorkerStream.TakeSnapshot | minicc/task_worker.py:305-327 | A snapshot is the stream's tail at its current offset |
| TaskExecution.WorkerSnapshotMirror.Append | minicc/task_manager.py:669-688 | Appends a delta, keeps the last characters and counts all; nothing on a cancelled or terminal task |
| TaskExecution.WorkerSnapshotMirror.Apply | minicc/task_execution.py:41-63 | Ignores an offset that is not new, replaces the text after a missed window, else appends exactly the missing piece; the last offset follows |
| SessionQueue.SchedulerInvariant | minicc/task_manager.py:1300-1400 | After every run of adoptions, submissions, enqueues, schedulings, releases, cancellations, status changes and prunes, an unfinished task is admitted and has neither given up nor lost its slot exactly when it is active or queued, never both, on its own session key; it is on no other key; queues repeat no id and stay within the limit; a queue waits behind an active task unless its key was stranded |
| SessionQueue.AdoptedTwiceLosesTheSlot | minicc/task_manager.py:1225-1238 | Adopting the task of a live worker takes the slot from an unfinished task exactly when it has the same key; that task then is on no lane |
| SessionQueue.StepKeepsInv | minicc/task_manager.py:1300-1400 | Every single operation keeps the scheduler invariant, with hand-overs and writes failing at will |
| SessionQueue.StrandedExactlyByAWriteFailure | minicc/task_manager.py:1365-1391 | Scheduling leaves tasks waiting behind a free slot exactly when persisting a task it passed over raised with others still behind it |
| Stranding.StrandingHappens | minicc/task_manager.py:1363-1367 | Three tasks submitted and enqueued on one key, the second cancelled while it waits: when the first gives up the slot and persisting the second raises, the third waits behind a free slot |
| TaskOrder.FirstComeFirstServed | minicc/task_manager.py:1328-1393 | If one task waits ahead of another and the other is started, the first was started before or is finished, provided nobody is put at the front of that queue meanwhile |
| TaskOrder.StepKeepsOrder | minicc/task_manager.py:1300-1400 | One operation keeps two waiting tasks in order, or starts the first, or one of them is finished |
| TaskOrder.DeadStaysDead | minicc/task_manager.py:1357-1367 | A finished or removed task is never revived and never started again by any operation |
| SessionQueue.SchedulingTakesFromTheFront | minicc/task_manager.py:1355-1393 | Scheduling takes ids from the front only: all it passes over are finished afterwards, it stops at the first that can run, and no other task changes |
| TaskSlots.SchedulingServes | minicc/task_manager.py:1349-1393 | A free slot goes to the first waiting task that is neither finished nor cancelling nor refused by the executor, and to nobody if there is none; every cancelling task before it ends as cancelled, every refused one as failed, and nothing else changes; a write that raises stops it right there |
| TaskSlots.ReleasedExactly | minicc/task_manager.py:1395-1400 | In every reachable state a released task gives up its slot, the queue behind it is served, no other lane changes, and nothing happens while another task has the slot |
| TaskSlots.SlotIsPassedOn | minicc/task_manager.py:1395-1400 | Without faults the slot of a released task goes to the first waiting task that is neither finished nor cancelling, with the others still behind it; if there is none the lane is empty and free |
| TaskSlots.CancelledExactly | minicc/task_manager.py:2873-2897 | A cancel ends an unfinished task as cancelled with its token set and leaves a finished one alone; an active task keeps its slot unless it is a batch, which passes it on; any other task leaves the queue, and a free lane is served |
| TaskSlots.CancelledLeavesExactly | minicc/task_manager.py:2873-2897 | After a cancel the task is on its lane exactly when it had the slot and is no batch |
| TaskSlots.AcceptsExactly | minicc/task_manager.py:1301-1333 | A task is taken exactly when the manager is not closing and the task already has a place or fewer unfinished tasks than the limit wait on its key |
| TaskSlots.RefusedExactly | minicc/task_manager.py:1301-1327 | A refused task ends as cancelled while the manager is closing and as failed when the queue is full; no other task changes and nobody who waits loses a place |
| TaskSlots.AcceptedExactly | minicc/task_manager.py:1316-1333 | An accepted task stands behind all who wait, or before them all if it is put at the front; behind an active task nothing else changes, on a free lane the queue is served |
| TaskSlots.AdoptedExactly | minicc/task_manager.py:1225-1238 | An adopted task runs and has the slot of its key, the queue and all other tasks stay; one seen before is left alone |
| TaskSlots.ClosingExactly | minicc/task_manager.py:1301-1304 | A manager is closing exactly after a shutdown |
| SessionQueue.FilterKeepsOrder | minicc/task_manager.py:1309-1315 | Dropping stale entries keeps the others, their order and their uniqueness |
| SessionQueue.TaskManager.AdoptRunning | minicc/task_manager.py:1225-1238 | A task that a live worker runs takes the slot of its key, whoever had it |
| SessionQueue.TaskManager.ScheduleSession | minicc/task_manager.py:1349-1393 | The loop drops dead ids, ends cancelled and refused ones, gives a free slot to the first task that can run, and stops short where persisting raises |
| SessionQueue.TaskManager.QueueTask | minicc/task_manager.py:1300-1333 | Accepts exactly when not closing and the live queue has room or already holds the task |
| SessionQueue.TaskManager.DropDead | minicc/task_manager.py:1309-1316 | The live queue, by a loop over the stale one |
| SessionQueue.TaskManager.ReleaseSlot | minicc/task_manager.py:1395-1400 | Frees the slot only for the task that has it, then schedules the key |
| SessionQueue.TaskManager.RemoveQueued | minicc/task_manager.py:1335-1347 | Removes exactly the given id from the queue of its key |
| SessionQueue.TaskManager.CancelTask | minicc/task_manager.py:2873-2897 | Cancels one task and dequeues it, or frees the slot of an active batch |
| Impact.Search | minicc/impact.py:341-351 | The breadth-first search ends, on cycles too, with parents and distances that form a complete, step-by-step tree over the reversed imports |
| Impact.FindsExactlyTheReachable | minicc/impact.py:341-351 | A file is found exactly when an import chain from a changed file leads to it |
| Impact.DistancesAreShortest | minicc/impact.py:342-350 | Its distance is the length of the shortest such chain |
| Impact.NoShorterChain | minicc/impact.py:344-351 | Every import chain ends in a found file and is at least as long as that file's distance |
| Impact.ImportChain | minicc/impact.py:376-382 | The pointer walk ends and returns a real import chain of that length from a changed file |
| Impact.Rank | minicc/impact.py:352-361 | The ranking holds each file once, nearest first and then by name |
| Impact.RecommendedTests | minicc/impact.py:358-391 | At most the limit of tests, each with a shortest chain, nearest first; every reachable test is shown, or the cut shows only tests at least as near |
| Impact.LimitKeepsTheNearest | minicc/impact.py:390-391 | No file dropped by the limit is nearer than one it keeps |
| Impact.Display | minicc/impact.py:384-384 | A chain of more than 32 files is shown by its first 16 and its last 16 and marked, a shorter one whole |
| Impact.TextLeExactly | minicc/impact.py:352-361 | One name sorts before another exactly when it is a prefix of it or has the smaller character at the first difference |
| TaskUsage.BooksBalance | minicc/task_manager.py:781-796 | For every run of reports, totals, results and folds, the number is, counter by counter, what the last replacement reported, or the initial number, plus the known counters of the reports that came since and before the task was stopped, plus the total of the first fold since then unless the replacement declares its subtree; the flag says which. What replaces and what is too late is told from the operations alone |
| TaskUsage.NumbersExactly | minicc/task_manager.py:786-786 | A replacing number has exactly the counters reported as numbers, with the reported values; a usage is positive exactly when one of them is greater than zero |
| TaskUsage.StoppedExactly | minicc/task_manager.py:781-784 | A record is closed for usage exactly after a cancellation request or the end of the task |
| TaskUsage.FinalisingAgainChangesNothing | minicc/task_manager.py:1773-1800 | After a fold any number of further folds leaves the record exactly as it is |
| TaskUsage.TotalOfIsTheSum | minicc/task_manager.py:1785-1791 | The folded total is per counter the sum over the children found, and is empty exactly when none reports a token counter |
| TaskUsage.AddedAt | minicc/llm/usage.py:211-218 | Each known token counter a report carries is added once; every other counter stays |
| TaskUsage.AddUsageTotals | minicc/llm/usage.py:211-218 | The loop over the token keys computes that sum |
| TaskUsage.TaskRecord.UpdateUsage | minicc/task_manager.py:781-791 | Adds a report, or replaces the number and clears the flag; nothing once cancelled or terminal |
| TaskUsage.TaskRecord.ApplyResult | minicc/task_manager.py:834-874 | A positive usage replaces the number and sets the flag as declared; an empty one keeps both; a terminal record ignores the result |
| TaskUsage.TaskRecord.CommitFold | minicc/task_manager.py:1792-1801 | The second look under the lock: folds a non-empty total once, and leaves the flag clear for an empty one |
| TaskUsage.TaskRecord.RollUp | minicc/task_manager.py:1766-1801 | A whole roll-up folds the sum over all children at most once |
| TaskUsage.TaskRecord.Cancel | minicc/task_manager.py:757-758 | Setting the token keeps the number and the flag |
| TaskUsage.TaskRecord.FinishTask | minicc/task_manager.py:740-749 | A terminal status keeps the number and the flag |
| Timeline.EveryRunViewsItsHistory | minicc/task_manager.py:631-661 | Over every run of appends, result merges, cancellation and finishing the record is the last events of an unbounded reference history that drops only what clashes with the window before it; the indexes, the count of dropped events and the revision are exact |
| Timeline.AppendRefinesHistory | minicc/task_manager.py:641-661 | One append agrees with that reference: accepted exactly when neither id nor content is among the retained events |
| Timeline.MergeRefinesHistory | minicc/task_manager.py:843-861 | Merging a result agrees with the reference, also when events evicted during the merge reappear in it |
| Timeline.NewsIsTakenExactly | minicc/task_manager.py:631-661 | An event sharing neither id nor content with a retained one becomes the last, under the id it came with or the one drawn for it; the revision grows exactly if it names a path, writes or runs bash or git; the oldest goes and is counted exactly when the record is full; all others, and all that come too late, leave no trace |
| Timeline.MergeLeavesNothingOut | minicc/task_manager.py:843-861 | A merge adds events of the result, in their order, and every event of the result afterwards is in the history or clashes with one that is |
| Timeline.EndedExactly | minicc/task_manager.py:740-779 | A record is terminal exactly after a cancellation or a finish |
| Timeline.AskedExactly | minicc/task_manager.py:752-759 | Its token is set exactly after it was set from elsewhere or a cancellation found the record not terminal |
| Timeline.LegacyIdsAt | minicc/task_manager.py:568-580 | A reloaded event keeps its id, or gets one derived from its own content if it has none |
| Timeline.ReplayChangesNothing | minicc/task_manager.py:641-652 | Replaying any retained events, singly or in a result, leaves the whole record unchanged, revision included |
| Timeline.EvictionKeepsIndexExactly | minicc/task_manager.py:656-660 | An eviction keeps the indexes exact if and only if no other retained event shares the evicted id or content |
| Timeline.ReloadIsSoundExactly | minicc/task_manager.py:568-589 | Reloading a stored list yields a sound record, a faithful view of its own window, exactly when no two of the stored events it retains share content or id; those it cuts off do not matter |
| Timeline.RunsStayIndexedExactly | minicc/task_manager.py:568-661 | After the reload of any stored list every run of the open record keeps the indexes exact if and only if no two of the stored events it retains are duplicates, by content or by id, at whatever positions |
| Timeline.ClashBreaksTheIndex | minicc/task_manager.py:650-660 | From the oldest retained event that clashes with a later one, as many unseen events as fill the window and push it out end with a wrong index |
| Timeline.ShownButForgotten | minicc/task_manager.py:656-660 | A full record that shows its oldest event a second time forgets it with the next new event: it is still shown, no longer known, and taken again |
| Timeline.ReloadedDuplicateComesBack | minicc/task_manager.py:578-589 | Any stored list of 32 events whose last repeats the first reloads into such a record |
| Timeline.TaskRecord.constructor | minicc/task_manager.py:560-589 | Reload gives missing ids, cuts the window, indexes exactly it and counts what was cut |
| Timeline.TaskRecord.AppendTimelineEvent | minicc/task_manager.py:631-661 | Ignores an event whose id or content is retained; else appends it, evicts and counts the oldest beyond the limit, and marks the checkpoint dirty exactly when the revision grows |
| Timeline.TaskRecord.AddEvent | minicc/task_manager.py:663-667 | Nothing once cancelled or terminal, else an append |
| Timeline.TaskRecord.ApplyResult | minicc/task_manager.py:834-862 | The merge loop with its growing set of seen contents agrees with the merge that refines the reference history |
| Timeline.TaskRecord.RequestCancel | minicc/task_manager.py:752-779 | A first cancellation notes itself on the timeline and then closes the record; a later one changes nothing |
| Timeline.TaskRecord.TokenWasSet | minicc/task_manager.py:1672-1672 | A token set from elsewhere closes the record for single events and changes nothing else |
| Timeline.TaskRecord.Finish | minicc/task_manager.py:740-749 | A terminal status leaves the timeline as it is |
| SessionIds.WithMessageIds | minicc/session.py:394-424 | The queue-draining loop gives message i the stored id of the same rank among equal contents, else its own fresh token, and changes nothing else |
| SessionIds.IdsStayDistinct | minicc/session.py:394-424 | Distinct stored ids and fresh tokens give distinct ids after any save |
| SessionIds.ReusedIdKeepsContent | minicc/session.py:382-389 | A reused id comes from a stored message with exactly the same fingerprint and rank |
| SessionIds.ReusedIdKeepsFields | minicc/session.py:382-424 | A message with a reused id has the role, text, calls and answered call of the stored message, and is the given message in everything but the id |
| SessionIds.IdSurvivesExactly | minicc/session.py:411-422 | A stored id survives a save exactly when the new list holds enough copies of its content, counted from the front |
| SessionIds.UnmovedContentKeepsItsIds | minicc/session.py:399-405 | Content that stands at the same positions keeps its ids there, whatever happened to the rest |
| SessionIds.AgreeingPrefixKeepsItsIds | minicc/session.py:399-405 | An append-only save, or one that rewrites only a later part, keeps all earlier ids in place |
| SessionIds.NewSystemPromptKeepsTheRest | minicc/session.py:318-342 | Loading with a new system prompt and saving keeps every later id in place |
| SessionIds.SavingAgainIsStable | minicc/session.py:329-342 | Saving what was just saved changes nothing, whatever tokens are drawn |
| SessionCuts.KeepThroughToolResults | minicc/session.py:229-251 | The loop ends at the first position from the cut on whose message does not answer an open call |
| SessionCuts.AcceptedHistoryStaysAccepted | minicc/session.py:229-251 | Any cut of a history the tool protocol accepts is accepted |
| SessionCuts.PendingExactly | minicc/agent/context.py:63-83 | By positions: a call is pending exactly when the last turn that is no tool result makes it, under a non-empty id, and no tool result behind that turn answers it |
| SessionCuts.AcceptedExactly | minicc/agent/context.py:104-142 | By positions: accepted are exactly the histories in which only assistants call tools, under distinct ids, every call of every round has its own result before the next round, and every result answers a call that still waits for it |
| SessionCuts.RoundsStayWhole | minicc/session.py:229-251 | In a cut of such a history every call of every kept round, parallel ones included, still has its result |
| SessionCuts.CarriedExactly | minicc/session.py:239-250 | Carried along past the chosen point are exactly the results of calls of the last round that still wait |
| SessionCuts.CutIsTheOnlyRepair | minicc/session.py:229-251 | If some extension of the chosen point by tool messages alone is accepted, it is this one |
| SessionCuts.CutIsAcceptedExactly | minicc/session.py:229-251 | For every history, broken ones included, the cut adds only tool messages and is accepted exactly when some such extension is |
| SessionCuts.CutOfLegalChoice | minicc/session.py:239-250 | After a legal choice the cut is accepted exactly when no call is left open |
| SessionCuts.ValidateToolProtocol | minicc/agent/context.py:104-142 | The validator accepts exactly the histories whose every step is legal and whose last round is answered |
| SessionCuts.PendingCalls | minicc/agent/context.py:78-83 | The walk returns the calls the last round is still waiting for |
| SessionCuts.RewindIsUndoneByItsBackup | minicc/session.py:486-518 | Kept and removed add up to the old length, the rest is a prefix of the old history, copying the backup back restores every session file exactly, and an accepted history stays accepted |
| SessionCuts.BackupWithoutRemovalExactly | minicc/session.py:506-518 | A rewind writes a backup with nothing removed exactly when the results carried along reach the end of the history |
| SessionCuts.BackupOfTheWholeHistory | minicc/session.py:506-518 | A question, a call and its result: keeping three messages keeps all four, removes none and writes a backup |
| SessionCuts.RewindToUserKeepsExactlyN | minicc/session.py:520-545 | It succeeds exactly when there is an n-th user turn, and then leaves exactly n of them |
| SessionCuts.UserTurnsAreCounted | minicc/session.py:532-542 | The user turns of a history are the positions whose role is user |
| SessionCuts.ObjectAt | minicc/session.py:436-451 | A fork starts from exactly the entries that are objects, each in its place |
| SessionCuts.ForkOfAcceptedIsAccepted | minicc/session.py:426-484 | A fork of an accepted conversation is an accepted prefix of it, and no existing session changes |
| SessionCuts.ForkByIdFindsTheMessage | minicc/session.py:443-484 | After any save with distinct ids, forking by the id of a message branches right behind that message, and the id is the one the lineage names |
| SessionCuts.FindUserTurn | minicc/session.py:532-542 | Finds the position right behind the n-th user turn, or there are fewer |
| SessionCuts.FindLast | minicc/session.py:446-450 | Finds the last message with an id, or there is none |
| SessionCuts.SessionFiles.Save | minicc/session.py:329-342 | Writes stamped messages, keeps the lineage and no other session changes |
| SessionCuts.SessionFiles.Rewind | minicc/session.py:486-518 | All four refusals and the no-op leave everything as it was; else the whole old payload becomes the backup and the cut prefix the session, with the number removed |
| SessionCuts.SessionFiles.RewindToUserIndex | minicc/session.py:520-545 | Rewinds right behind the n-th user turn, or refuses with no change |
| SessionCuts.SessionFiles.Fork | minicc/session.py:426-484 | Each refusal exactly in its case, with no change; else a new session with the cut prefix and its lineage |
| PassAtK.ClosedFormIsTheShare | minicc/bench_compare.py:302-314 | 1 - C(n-c, k) / C(n, k) is the share of k-element subsets of the draws that hold a success, by counting subsets |
| PassAtK.PicksAreCounted | minicc/bench_compare.py:302-302 | C(n, k) is the number of k-element subsets of a set of n |
| PassAtK.HitsAreTheRest | minicc/bench_compare.py:302-302 | Subsets with and without a success add up to all subsets |
| PassAtK.MissRatioStep | minicc/bench_compare.py:312-312 | One factor (n-c-i)/(n-i) takes the ratio from i to i+1 |
| PassAtK.ShareIsAProbability | minicc/bench_compare.py:302-314 | The value lies between 0 and 1, is 0 exactly without successes and 1 exactly with fewer than k misses |
| PassAtK.MoreSuccessesNeverHurt | minicc/bench_compare.py:302-314 | More successes among equally many draws never lower the value |
| PassAtK.MoreAttemptsNeverHurt | minicc/bench_compare.py:302-314 | A greater k never lowers the value |
| PassAtK.RowValue | minicc/bench_compare.py:304-313 | The product loop with its saturated case computes exactly that share |
| PassAtK.PassAtK | minicc/bench_compare.py:286-314 | There is a figure exactly when some row is gradable and every gradable row has at least k draws, at least one; it is then the mean share over all gradable rows |
| PassAtK.GradableAt | minicc/bench_compare.py:286-300 | Gradable are exactly the rows with a verdict, each once and in its place |
| PassAtK.FigureIsAProbability | minicc/bench_compare.py:314-314 | The figure lies between 0 and 1 |
| Fixture.RequireWritableFixture | minicc/bench_tasks.py:136-220 | Accepts exactly when every entry is fine by itself and no two places overlap; a pairwise refusal names a real collision |
| Fixture.RequireApart | minicc/bench_tasks.py:199-220 | The pair loop accepts exactly the pairwise disjoint places and tells equal places from blocked parents |
| Fixture.AcceptedExactlyWhenEveryOrderWorks | minicc/behavior_bench.py:291-300 | Writing in any order succeeds with one file a key, each reading back its own text, if and only if the places are pairwise apart; the tree is then the same for every order |
| Fixture.WorksOutExactly | minicc/behavior_bench.py:291-300 | The same for one given order |
| Fixture.RefusedPairLosesAFile | minicc/bench_tasks.py:199-220 | Two entries at one place leave a single file with the later text; a file on the way blocks the write in both orders |
| Fixture.WritingShapesTheTree | minicc/behavior_bench.py:291-300 | A completed write leaves as files exactly the places and as folders exactly what lies above them |
| Fixture.FineKeysNameFiles | minicc/bench_tasks.py:170-195 | Keys that are fine one by one name a place below the workspace and never climb |
| Fixture.FineExactly | minicc/bench_tasks.py:166-195 | A key passes by itself exactly when it is text with text behind it, not absolute, not blank, without a parent step, without a slash at the end, and names something |
| Fixture.SplitExactly | minicc/bench_tasks.py:174-191 | The parts of a key joined by slashes give it back, and no part holds a slash |
| Fixture.NameAt | minicc/bench_tasks.py:191-198 | The names are exactly the parts that are neither empty nor a dot, in order |
| Fixture.SamePlaceExactly | minicc/bench_tasks.py:199-206 | Two keys share a place exactly when their names are one by one the same to the host |
| Fixture.StaysInsideExactly | minicc/bench_tasks.py:788-797 | A walk stays inside exactly when no beginning of it goes up more often than down; its depth is the difference |
| Fixture.DownAndUpIsNothing | minicc/bench_tasks.py:788-797 | Going down into a folder and up again changes nothing, wherever it stands in a walk |
| Fixture.NothingToClimb | minicc/bench_tasks.py:171-174 | Without a parent step a path resolves to its own names, inside the workspace |
| Fixture.PrepareFixture | minicc/behavior_bench.py:291-300 | For keys that do not climb the loop ends in the tree of its entries, or stops at the first that finds a file or folder in its way |
| Fixture.ContractPathStaysInside | minicc/bench_tasks.py:775-798 | The depth counter accepts exactly the relative paths no beginning of which goes up more often than down |
| Prune.DeletedExactly | minicc/task_store.py:307-342 | A task is deleted exactly when it is terminal and no chain of children reaches it from one of the newest terminal tasks in age; unfinished and unreadable tasks stay |
| Prune.NewestSurvive | minicc/task_store.py:307-335 | A finished task with fewer than the kept number of finished tasks listed before it, and no older than the age limit, is never deleted |
| Prune.OrphansGoExactly | minicc/task_store.py:307-342 | A finished task without readable parents is deleted exactly when that many finished tasks are listed before it or it is older than the limit |
| Prune.TerminalsAt | minicc/task_store.py:307-319 | The finished tasks stand in the order of the query, each behind exactly those listed before it |
| Prune.ClampExactly | minicc/task_store.py:297-300 | The number kept is the one asked for between none and a thousand, else the nearer bound |
| Prune.RetainedExactlyByAChain | minicc/task_store.py:320-335 | The least child-closed set is what chains of readable children reach |
| Prune.CloseOver | minicc/task_store.py:325-335 | The worklist ends on any child graph and yields the least closed set containing the seeds |
| Prune.PruningTwiceDeletesNothing | minicc/task_store.py:320-342 | Pruning again with the same limits deletes nothing |
| Prune.ChildOfKeptBatch | minicc/task_store.py:317-335 | A finished child of any kept batch survives exactly when it is among the newest in age itself or some parent of it is reached from them; so always when the batch is finished or so reached, and for a running batch only on those grounds |
| Prune.RunningBatchLosesItsChild | minicc/task_store.py:317-342 | With room for one finished task and a newer one to fill it, a running batch stays and its finished child is deleted |
| Prune.TaskStore.Prune | minicc/task_store.py:285-345 | Deletes exactly those ids from all three tables, with the count clamped between 0 and 1000 |
| CommandParts.ParseUndoesPrint | minicc/agent/check_commands.py:6-40 | Printing any token list with blanks and quotes quoted and empty tokens as an empty pair, then parsing, gives the list back |
| CommandParts.QuotedLineIsReadBackExactly | minicc/agent/check_commands.py:14-35 | A list of whole tokens in double quotes, their own double quotes escaped, parses back to the list exactly when none of them ends in a backslash |
| CommandParts.FailsExactlyOnOpenQuote | minicc/agent/check_commands.py:36-37 | The parser fails exactly on lines that leave a quote open |
| CommandParts.TokensAreTheLiteralText | minicc/agent/check_commands.py:14-35 | Joined, the tokens are the line without separating blanks, delimiting quotes and the backslashes that escape the open quote; nothing else is lost or added |
| CommandParts.PlainLinesSplitOnBlanks | minicc/agent/check_commands.py:28-34 | A line without quotes always parses, into non-empty tokens without blanks |
| CommandParts.CommandParts | minicc/agent/check_commands.py:6-40 | The index loop agrees with the scanner whose round trip and failures are stated above |
| SearchWindow.SearchText | minicc/task_store.py:367-391 | None exactly when the folded text holds no match; else the window of the first match, the capped count of matches and the clipped snippet bounds |
| SearchWindow.LocateWindow | minicc/task_store.py:372-384 | The pass with a running offset finds the character that holds the start of the match and the one that completes it |
| SearchWindow.WindowIsTheSmallest | minicc/task_store.py:374-384 | Every stretch of original characters that covers the match contains the window; without its first or last character it covers no longer |
| SearchWindow.WindowHoldsTheMatch | minicc/task_store.py:374-384 | The window folds to text that holds the match |
| SearchWindow.WindowLiesInTheSnippet | minicc/task_store.py:385-390 | The window lies in the snippet, with at most 80 characters and an ellipsis on each side |
| SearchWindow.CountIsTheMost | minicc/task_store.py:372-372 | The count is the greatest number of matches that do not overlap |
| SearchWindow.CountIsAttained | minicc/task_store.py:372-372 | And as many places that do not overlap are found as are counted |

## Left out

- Files, SQLite, FTS, locks, threads, subprocesses, git and HTTP: atomic steps or parameters here.
- Snapshots: directories, symbolic links, modification times, deny rules (a parameter says which paths cannot be read), manifests from before the journal existed, a capture that finds an existing manifest, and one that cannot save its own, after which there is no journal.
- Snapshots: byte sizes are lengths of the modelled text.
- Host writes without a lease: they appear as unfenced writes of the table and are no part of the lease theorems; nothing is claimed about how often several hosts resume a task.
- Persistence: which process may write a row at which moment is the lease's business; other processes, among them the host that ran before, write at any moment here. A version counts changes in the order they are made, so a worker's write always is the newer one.
- Persistence: the six-second join of the drain thread; the final drain assumes that no other writer is running.
- Stream mirror: usage, context, compactions and events carried by the same snapshots, and the floor of 512 on the limits.
- Session queue: the children of a cancelled batch are cancelled by operations of their own; the running body of a cancelled batch may outlive its slot, so the invariant is about the bookkeeping.
- Session queue: error texts, futures and the thread pool; a hand-over either succeeds or is refused.
- Usage: cost, cache metrics, per-turn lists and the copy inside the stored result; booleans reported as counters count as unusable values.
- Usage: a total reported by a worker is taken as that task's own spend, as the program takes it.
- Timeline: sequence numbers, item ids, creation times and the separate event log for subscribers.
- Message ids: redaction before stamping; messages are taken as already cleaned. The content fingerprint is the content itself.
- Cuts: tool call lists that are not lists, and calls whose id is not text.
- Fork: the pattern session ids must match, and the drawn name of an unnamed target.
- Rewind of a session: time stamps and the view.
- Impact.Expand: visits the importers of a file in any order, where the program sorts them, so which of several shortest chains is shown stays open.
- Impact: parsing and resolving imports, and which file is a test; both are parameters.
- pass@k: rounding to four digits and the logarithms the product is computed with; Wilson and Newcombe intervals, bootstrap and percentiles.
- Fixture: trailing dots and reserved names of a host, and backslashes in keys on hosts where the writer does not take them as separators; which names a host takes as one is a parameter.
- Fixture: texts that cannot be encoded, such as one with a lone surrogate, and keys with a NUL, which the loader accepts and the writer cannot write.
- Fixture.ContractPathStaysInside: the text is taken with backslashes already turned and outer blanks removed.
- Prune: reading the payloads from JSON, and vacuuming; the ordered query is a parameter.
- Command parts: what is done with the tokens afterwards.
- Search: redaction of the snippet, and the database's own substring filter.
- Configuration, permissions, authorization, prompts, reports, MCP, hooks and the command line: mostly one-branch facts or wording.
