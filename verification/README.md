# Verified models of zcr521

Dafny models of the parts of the repository that carry its hardest guarantees, and proofs of those
guarantees. `dafny verify dfyconfig.toml` checks everything.

## What is modelled

**The durable task manager** (`TaskSpec`, `TaskInvariant`, `TaskTheorems`, `TaskOutcomes`, `TaskProgress`, `TaskTight`,
`TaskManager`, `TaskView`). A state machine with one event for every section under the manager's mutex, every
semaphore operation, every client call, a crash at any point and a restart. Memory, disk, the two semaphores,
cancel functions, waiter channels and one program counter per worker are state; which writes succeed is part of
each event. The class `Manager` has the source's fields and methods, and each method is proved to make exactly the
step of the state machine. The theorems are about all runs from an empty directory. `TaskView` connects the manager
to the status its task stream reports. `TaskOutcomes` says what becomes of a task: which status an outcome gives it, every
change of status there is, how a cancellation reaches the runner, and what clients are answered.

**The resumable upload store** (`Uploads`, `UploadRuns`, `UploadStore`, `ContentRange`, `Locks`). Chunks appended to a data file,
an offset in a separate metadata file, rollback by truncation, publication by rename. Every call may fail, a process
may die between any two writes, and a power loss may leave any bytes behind the saved offset. `UploadRuns` says which uploads go through. `Locks` is the
reference-counted lock table with any number of threads.

**Archive extraction** (`FileTree`, `Archive`, `ArchiveNames`, `ArchiveSafety`, `ArchiveComplete`, `ArchiveAccepts`,
`ArchiveExtract`). A filesystem of directories, files, hard links and symbolic links with path resolution, the TAR and
ZIP loops over arbitrary entry lists, what the text of an entry's name means, and which archives are extracted.

**APK selection** (`Wire`, `ApkToc`, `ApkTocWriter`, `ApkTocLoops`, `ApkSelect`, `ApkSelection`, `ApkInclusion`,
`ApkLoops`). The protobuf wire parser, the table of contents built from it, and the choice of variant, ABI, density, SDK
and paths; `ApkInclusion` says which APKs are taken in the words of the device and of their targeting.

**Scheduling** (`Calendar`, `Cron`, `CronText`, `CronLoops`, `Schedules`, `ScheduleTimes`, `Scheduler`). The Gregorian
calendar, cron expressions as strings and the grammar they are written in, the search for the next minute, next-run times
and written times of day, and the scheduler's tick over its table.

**The supervisor** (`Supervisor`, `Versions`). The sliding failure window and the growing delays of the restart loop,
and the version file with its rollback.

**The task stream and the bridge** (`Stream`, `StreamLoops`, `EventStream`, `EventStreamInputs`). The polling loop that
writes server-sent events, the bridge's reader of them, and the reader that section 9.2.6 of the HTML standard asks for.
The round trip from the one loop to the other is about the two formats: the bridge itself asks for JSON and event
streams alike (`cmd/zcr521-bridge/main.go:174`), to which this server answers with JSON.

**Shell quoting** (`Shell`) against the token recognition of the POSIX shell, and **the retrying download**
(`Download`).

Each component has a specification in functions, the theorems about it, and the source's loops and classes proved
against it. `Common` and `Text` hold what they share, among it 64-bit wrap-around and decimal numbers.

## Where the code differs from what one may expect

- An interval schedule multiplies seconds by 10^9 in 64 bits (`internal/ops/schedule.go:514`) and any positive number of
  seconds is accepted. From 9223372037 seconds on the length is too short (`Schedules.IntervalsThatFit`). When it is
  negative or zero the next run does not lie ahead and the schedule stays due (`Schedules.TickLeavesOnlyOverflowsDue`);
  when it is positive the job starts far too often, every 0.29 seconds for 18446744074 seconds
  (`Schedules.WrappedIntervals`). An interval keeps its period exactly up to 9223372036 seconds
  (`Scheduler.PeriodIsKeptExactly`).
- The first delay of the supervisor is not capped by MaxDelay, and a cap of 2^62 ns or more lets a doubled delay turn
  negative (`Supervisor.DoublesExactlyWhen`).
- A download limit of 2^63-1 bytes makes the reader's length wrap, and an empty file counts as a success
  (`Download.LargestLimitLosesAll`; exactly when, over all retries, in `Download.DownloadsAreExact`); a complete `.part` file can never be finished (`Download.CompletePartNeverFinishes`).
- An invalid part of a cron field is not reported once an earlier part matches (`Cron.InvalidPartSeenWhenReached`);
  day of month and weekday must both match, unlike in the usual cron; an expression whose next match is more than five
  years away is refused.
- A change of a polled task is sent twice, under the standard method and under its older alias, so the stream's events
  are twice as many as the changes.
- The bridge reads event streams differently from section 9.2.6 of the HTML standard in five ways: it passes on an event
  that the end of the stream cuts off (`EventStreamInputs.UnfinishedEventIsPassedOn`), an empty id does not reset the
  last id (`EmptyIdIsIgnored`), an id from an earlier stream is kept (`EarlierIdIsKept`), a CR by itself does not end a
  line (`LoneReturnJoinsLines`), and a byte order mark is not dropped (`MarkHidesTheFirstField`). The lines agree exactly
  without such a CR or mark (`EventStream.SameLinesExactly`), the readings of the same lines exactly as
  `EventStream.ReadersAgreeExactly` says, and printed streams meet all of it (`EventStreamInputs.PrintedStreamsConform`).
  Texts with such a CR or mark can still be read alike, because it does no harm or by accident
  (`EventStreamInputs.AgreementByAccident`); for them `EventStream.TextsAgreeByEvents` compares the events of the two
  readings.
- A rollback restores the binary, saves the version file and then exchanges the process, and the supervisor goes on when
  one of the last two fails. A long run that it records then gives the candidate's version to the restored binary,
  exactly when no rollback that restored the binary also saved and exchanged (`Versions.MarkTellsTheTruth`,
  `Versions.FileTellsTheTruth`). Both ways happen: `Versions.UnsavedRollbackMisleads` and
  `Versions.UnexchangedRollbackMisleads`.

## Model

| member | source | states |
|---|---|---|
| `TaskInvariant.RunKeepsInv` | internal/tasks/manager.go:102-392 | Every run of clients, workers, crashes and restarts keeps the inductive invariant: one live worker per unfinished task, conserved slots, exact waiter channels, and snapshots that agree with finished records |
| `TaskTheorems.OneWorkerPerUnfinishedTask` | internal/tasks/manager.go:51-392 | In every reachable state a queued, running or cancelling task has exactly one live worker and every other task has none |
| `TaskTheorems.FinishedForever` | internal/tasks/manager.go:196-392 | The whole record of a finished task is unchanged by every interleaving within one process |
| `TaskTheorems.CancelIsBinding` | internal/tasks/manager.go:196-392 | Once Cancel has answered Cancelling, the only terminal status the task can reach in this process is Cancelled |
| `TaskTheorems.CancellingForever` | internal/tasks/manager.go:196-392 | A cancelling record leaves that status only for Cancelled, even when its snapshot could not be written |
| `TaskTheorems.RestartRebuildsEveryTask` | internal/tasks/manager.go:145-438 | From any crash point a restart keeps finished snapshots verbatim, requeues every unfinished durable task with exactly one worker, and fails every unfinished non-durable one with PROCESS_RESTARTED and no worker |
| `TaskTheorems.FinishedSnapshotForever` | internal/tasks/manager.go:394-447 | A finished snapshot survives any number of crashes and restarts, and memory agrees with it whenever a process is up |
| `TaskTheorems.NoSubmittedTaskIsLost` | internal/tasks/manager.go:102-143 | A task whose Submit succeeded is on disk in every later state and in memory whenever a process is up |
| `TaskTheorems.SnapshotIsARealState` | internal/tasks/manager.go:440-447 | The disk copy is a record the task held in memory during the run, however many later writes failed; a failing load counts only for the records it got to |
| `TaskTheorems.EveryEventWritesOnce` | internal/tasks/manager.go:102-392 | Each event changes at most one record, and memory, disk and history change by exactly that write |
| `TaskTheorems.WritesAreSound` | internal/tasks/manager.go:196-392 | What is written belongs to a task that was not finished, keeps its id, and from Cancelling only becomes Cancelled |
| `TaskTheorems.EveryFinishWakesItsWaiters` | internal/tasks/manager.go:248-278 | A step closes a waiter channel, once, exactly when it finishes that channel's task; no wake-up is lost |
| `TaskTheorems.ChannelCount` | internal/tasks/manager.go:449-454 | A registered channel has been closed once if its task is finished and never before, so a woken waiter sees a finished task |
| `TaskOutcomes.SettledAsReported` | internal/tasks/manager.go:345-374 | The final section records the runner's outcome: Cancelled exactly if the task was being cancelled or its context was, else Succeeded with progress 1, TimedOut for the code TIMEOUT, or Failed, with the outcome as result and everything ordered kept |
| `TaskOutcomes.UnrunIsCancelled` | internal/tasks/manager.go:376-392 | A task that never ran is recorded as Cancelled with the CANCELLED result and its message |
| `TaskOutcomes.OutcomeArrives` | internal/tasks/manager.go:340-374 | Over every run of the process after a runner returned: once its task is finished, the record reports exactly that outcome, cancelled only for a cancellation before the return or one asked for since |
| `TaskOutcomes.StatusesMoveAsDrawn` | internal/tasks/manager.go:102-392 | In every reachable state each step changes a task's status along one of five arrows, each taken by one kind of step only, and never what was ordered |
| `TaskOutcomes.SubmittedAsOrdered` | internal/tasks/manager.go:102-143 | An accepted task is queued with the tool, arguments, weight and durability asked for, in memory and on disk, and has a new worker |
| `TaskOutcomes.BegunIsRunning` | internal/tasks/manager.go:316-338 | A worker that begins marks its queued task as running from now on |
| `TaskOutcomes.ProgressIsRecorded` | internal/tasks/manager.go:226-246 | An accepted report changes the progress, the message and the time of the record, and nothing else |
| `TaskOutcomes.RestartedAsOrdered` | internal/tasks/manager.go:145-165 | A restart keeps orders, progress and start times, and marks what it requeued and what it failed |
| `TaskOutcomes.CancelHandsOver` | internal/tasks/manager.go:196-222 | A cancellation marks the task, and hands over the context of exactly its own runner exactly when the snapshot was written |
| `TaskOutcomes.ContextsFollowCalls` | internal/tasks/manager.go:196-343 | A context is cancelled exactly by the call handed over for it, by Close while its runner runs, or by its own worker after the return |
| `TaskOutcomes.CancelReachesTheRunner` | internal/tasks/manager.go:196-343 | After a saved cancellation of a running task, in every later state of the process its context is cancelled or the outstanding call can be made and cancels it |
| `TaskOutcomes.CancelAnswers` | internal/tasks/manager.go:196-222 | Each answer of Cancel under its exact condition; a record that is answered is the one held, and on disk if the task was unfinished |
| `TaskOutcomes.UpdateAnswers` | internal/tasks/manager.go:226-246 | Each answer of Update under its exact condition; a refusal other than a failed save changes nothing |
| `TaskOutcomes.SubmitAnswers` | internal/tasks/manager.go:102-143 | Each answer of Submit under its exact condition; the task is held and on disk exactly when it was accepted |
| `TaskOutcomes.WaitAnswers` | internal/tasks/manager.go:248-278 | Wait answers at once exactly for a missing or finished task, and otherwise leaves one more open channel behind the others |
| `TaskProgress.LimitsHold` | internal/tasks/manager.go:291-336 | Never more than totalLimit runners execute, and never more than heavyLimit runners of heavy tasks |
| `TaskProgress.BlockedMeansBusy` | internal/tasks/manager.go:291-314 | When a worker is blocked and no internal step is enabled, at least heavyLimit runners are executing |
| `TaskTight.BoundIsTight` | internal/tasks/manager.go:291-314 | For all limits a reachable blocked and quiet state has exactly heavyLimit executing runners, so the bound cannot be raised |
| `TaskProgress.SomeWorkerCanMove` | internal/tasks/manager.go:291-374 | While any worker is left some worker step is enabled: the two nested semaphores never deadlock |
| `TaskProgress.WorkBoundsEverySchedule` | internal/tasks/manager.go:291-374 | Every schedule of worker steps is at most as long as a measure of the work left |
| `TaskProgress.EveryTaskFinishes` | internal/tasks/manager.go:291-392 | If runners return, worker steps alone lead from any reachable state to one where all tasks are finished and all waiters woken |
| `TaskManager.Manager.Submit` | internal/tasks/manager.go:102-143 | The method changes the fields exactly as the Submit section of the state machine, and returns its reply or error |
| `TaskManager.Manager.Cancel` | internal/tasks/manager.go:196-222 | As the Cancel section, with its reply, including the one for a snapshot that could not be written |
| `TaskManager.Manager.Update` | internal/tasks/manager.go:226-246 | As the Update section, with its range, existence and finished-task errors |
| `TaskManager.Manager.Wait` | internal/tasks/manager.go:248-278 | Answers at once for a missing or finished task and otherwise registers exactly one new open channel |
| `TaskManager.Manager.CloseCancels` | internal/tasks/manager.go:280-289 | Close calls every registered cancel function |
| `TaskManager.Manager.BeginTask` | internal/tasks/manager.go:316-338 | The starting section: stop on a cancelled task, otherwise mark running, persist and register the cancel function |
| `TaskManager.Manager.RunnerReturns` | internal/tasks/manager.go:340-343 | The runner's outcome is kept together with whether the context was cancelled by then |
| `TaskManager.Manager.SettleTask` | internal/tasks/manager.go:345-374 | The final section: the outcome or a cancellation is recorded, persisted, and every waiter notified |
| `TaskManager.Manager.FinishCancelledTask` | internal/tasks/manager.go:376-392 | A worker that never ran its task records Cancelled unless the task is finished, and notifies |
| `TaskManager.Manager.NotifyLocked` | internal/tasks/manager.go:449-454 | The loop closes every channel registered for the task once and forgets them |
| `TaskManager.Manager.DeferredRelease` | internal/tasks/manager.go:299-314 | The deferred functions give back the heavy slot, then the total slot, and the worker ends |
| `TaskManager.Manager.Load` | internal/tasks/manager.go:394-438 | The loop over the snapshots loads every one, rewriting the unfinished ones; a failed write makes New fail with some of them rewritten |
| `TaskManager.Manager.ResumeInterrupted` | internal/tasks/manager.go:145-165 | The loop requeues exactly the interrupted durable tasks and starts one worker each |
| `TaskManager.Manager.Initialise` | internal/service/service.go:47-57 | New followed by ResumeInterrupted is the boot step of the state machine, or its failing variant |
| `TaskView.ViewEndsExactly` | internal/mcpapi/tasks_http.go:353-370 | Every record has a reported status, and it ends a task stream exactly for finished tasks and for interrupted ones not yet resumed |
| `TaskView.ViewsAre` | internal/mcpapi/tasks_http.go:498-577 | Each reported status under its exact condition on the record |
| `TaskView.ReturnedIsCompleted` | internal/mcpapi/tasks_http.go:498-577 | On every run, a task whose runner returned uncancelled is reported as completed once it is finished |
| `TaskView.StreamEndIsFinal` | internal/mcpapi/tasks_http.go:498-577 | On every run of the manager a stream ends exactly when its task is finished, and what it saw then never changes in that process |
| `Uploads.RunKeepsInv` | internal/frontend/transfer.go:261-424 | Every run of creations, chunks, completions, cancellations, expiries and power losses keeps the data file a run of the committed chunks plus leftovers inside the declared total |
| `Uploads.CommittedBytesSurvive` | internal/frontend/transfer.go:314-365 | After any run received <= file length <= total, and the first received bytes are the acknowledged chunks in order |
| `Uploads.ChunkIsAllOrNothing` | internal/frontend/transfer.go:314-365 | A chunk is acknowledged exactly when it is not too long, continues a live upload at its offset inside its total, has a body as long as its range and meets no fault; then all of it is committed behind the earlier chunks, and otherwise offset and committed bytes stay as they were |
| `Uploads.CompletePublishesTheChunks` | internal/frontend/transfer.go:368-406 | A completion publishes exactly the declared number of bytes, equal to the acknowledged chunks, with their digest, which matches a declared one |
| `Uploads.PublishedOnce` | internal/frontend/transfer.go:368-406 | After a publication no later completion or chunk for that id succeeds, and the published bytes do not change |
| `Uploads.StaleBytesAreOverwritten` | internal/frontend/transfer.go:314-365 | Bytes left by a crash between the data write and the metadata save never end up in what a retried chunk commits |
| `UploadRuns.CreatedExactly` | internal/frontend/transfer.go:261-303 | A creation succeeds exactly for a size within the limit and arguments that could be normalised, when its files can be made, and starts at offset 0 |
| `UploadRuns.CompletedExactly` | internal/frontend/transfer.go:368-406 | A completion succeeds exactly for a live upload with all bytes acknowledged and the declared digest, when no call fails |
| `UploadRuns.CancelledExactly` | internal/frontend/transfer.go:409-424 | A cancellation succeeds exactly for a live upload both of whose files can be removed, and leaves neither |
| `UploadRuns.RefusedExactly` | internal/frontend/transfer.go:314-331 | A missing, an expired and a conflicting upload are each reported exactly when they are |
| `UploadRuns.IncompleteExactly` | internal/frontend/transfer.go:368-386 | So are a missing, an expired, an incomplete and a mismatching upload at completion |
| `UploadRuns.FailedChunkIsCutBack` | internal/frontend/transfer.go:332-365 | A chunk that fails leaves the data file as it was up to the offset, with its exact error |
| `UploadRuns.FailedCompletionIsUndone` | internal/frontend/transfer.go:388-400 | A completion whose save failed and that could rename back leaves the upload as it was |
| `UploadRuns.LifetimesAreKept` | internal/frontend/transfer.go:488-602 | Uploads and artifacts go exactly when their lifetime is over |
| `UploadRuns.FaultlessUploadCompletes` | internal/frontend/transfer.go:261-406 | Any content within the limit, cut into any chunks that are not too long and sent in order and in time, is published, and the file is the content |
| `UploadRuns.ResumedUploadCompletes` | internal/frontend/transfer.go:261-406 | After any faults, crashes and power losses, sending the bytes missing from the saved offset on completes the upload, and the file is what was acknowledged followed by what was sent |
| `UploadStore.TransferManager.LoadUpload` | internal/frontend/transfer.go:488-509 | Finds, refuses or deletes an expired record, and touches no other id |
| `UploadStore.TransferManager.CreateUpload` | internal/frontend/transfer.go:261-303 | The new slot and reply of the protocol, error by error, and nothing for other ids |
| `UploadStore.TransferManager.WriteChunk` | internal/frontend/transfer.go:314-365 | The new slot and reply of the protocol for every failure point, and nothing for other ids |
| `UploadStore.TransferManager.CompleteUpload` | internal/frontend/transfer.go:368-406 | As above for completion, with its rename-back and its crash points |
| `UploadStore.TransferManager.CancelUpload` | internal/frontend/transfer.go:409-424 | Removes both files, reporting a removal that failed |
| `UploadStore.TransferManager.CleanupUploads` | internal/frontend/transfer.go:552-602 | The clean-up loop treats every upload exactly as loading it would |
| `UploadStore.TransferManager.CleanupArtifacts` | internal/frontend/transfer.go:552-602 | The clean-up loop removes exactly the expired artifacts |
| `ContentRange.AcceptedRangesAreValid` | internal/frontend/transfer.go:701-730 | An accepted header is an ordered range inside its total whose length fits 64 bits |
| `ContentRange.RangesRoundTrip` | internal/frontend/transfer.go:701-730 | Every valid range printed as a header is read back as itself |
| `Locks.MutualExclusion` | internal/frontend/transfer.go:604-623 | With any number of threads at most one is inside an id's critical section |
| `Locks.TableIsExact` | internal/frontend/transfer.go:604-623 | The table has an entry exactly while some thread is counted, refs is their number, and they all share one lock object |
| `Locks.WaitersCanBeServed` | internal/frontend/transfer.go:604-623 | A waiting thread, or the thread inside the same id, can always move |
| `Locks.LockTable.LockTransfer` | internal/frontend/transfer.go:604-613 | The first table section: find or allocate the entry and count the caller |
| `Locks.LockTable.Unlocked` | internal/frontend/transfer.go:614-623 | The second table section: stop counting and drop an entry nobody counts on |
| `ArchiveSafety.TarStaysInside` | internal/ops/archive.go:618-684 | For every entry list and every tree without a crossing hard link, extraction changes nothing outside the destination, keeps that condition, and without overwriting changes no file that existed |
| `ArchiveSafety.ZipStaysInside` | internal/ops/archive.go:562-616 | The same for ZIP archives |
| `ArchiveSafety.NothingOutsideChanges` | internal/ops/archive.go:618-684 | Any single location outside the destination keeps its node and contents |
| `ArchiveSafety.NothingThatExistedChanges` | internal/ops/archive.go:618-684 | Without overwriting, any single location that existed keeps its node and contents |
| `ArchiveSafety.CheckedPathsArePlain` | internal/ops/archive.go:699-723 | A path that passes the component check has no symbolic link on its way in the actual tree |
| `ArchiveAccepts.RejectedExactly` | internal/ops/archive.go:699-723 | The component check lets a path through exactly when no component is a symbolic link and none but the last a file, and reports a symbolic link exactly when there is one |
| `ArchiveComplete.ExtractedTarIsComplete` | internal/ops/archive.go:618-684 | A TAR extraction that succeeds without overwriting has every entry in its place: directories, files with exactly their data, allowed symbolic links, hard links to their sources; later entries disturb none |
| `ArchiveComplete.ExtractedZipIsComplete` | internal/ops/archive.go:562-616 | The same for ZIP archives |
| `ArchiveAccepts.TarLandsAsNamed` | internal/ops/archive.go:618-684 | After a success every TAR entry named by components is at exactly those components below the destination: directory, file with its data, link with its text, hard link with its source |
| `ArchiveAccepts.ZipLandsAsNamed` | internal/ops/archive.go:562-616 | The same for ZIP entries |
| `ArchiveAccepts.TarAccepts` | internal/ops/archive.go:618-684 | An archive of directories and files, none in the way of another and with room for all in the tree, is extracted without an error within the limits |
| `ArchiveAccepts.ZipAccepts` | internal/ops/archive.go:562-616 | The same for ZIP |
| `ArchiveAccepts.TarCountsRight` | internal/ops/archive.go:618-684 | A success counted every entry and every byte, kept within both limits, and met no failing call |
| `ArchiveAccepts.ZipCountsRight` | internal/ops/archive.go:562-616 | The same for ZIP |
| `ArchiveComplete.EntryIsInPlace` | internal/ops/archive.go:634-682 | One entry extracted without an error is in its place, whether or not it overwrote |
| `ArchiveComplete.FileIsWritten` | internal/ops/archive.go:639-668 | A regular entry extracted without an error holds exactly its data |
| `Archive.SafePathsAreProper` | internal/ops/archive.go:686-697 | Whatever an entry is called, the place it gets names only things below the destination |
| `Archive.OrdinaryNamesAreAccepted` | internal/ops/archive.go:686-697 | Relative names without a parent component are never refused |
| `ArchiveNames.AbsoluteExactly` | internal/ops/archive.go:739-751 | A name is absolute exactly when it starts with a slash of either kind or a drive letter |
| `ArchiveNames.PlainNamesAreTheirPlace` | internal/ops/archive.go:686-697 | A name made of components stands for exactly those components, in their order |
| `ArchiveNames.DotsChangeNothing` | internal/ops/archive.go:686-697 | An empty component or "." changes nothing, wherever it stands |
| `ArchiveNames.UpUndoesDown` | internal/ops/archive.go:686-697 | A component followed by ".." drops out, wherever the two stand |
| `ArchiveNames.BackslashesAreSlashes` | internal/ops/archive.go:686-697 | Backslashes and slashes mean the same |
| `ArchiveNames.ClimbingNames` | internal/ops/archive.go:686-697 | A name that climbs first leads below the place so many levels above, and is refused exactly when that is not in the destination |
| `ArchiveNames.LinksAllowedExactly` | internal/ops/archive.go:725-737 | A symbolic link is allowed exactly when its text, read from its own directory, stays in the destination |
| `ArchiveExtract.Disk.RejectSymlinkComponents` | internal/ops/archive.go:699-723 | The component loop computes the specified rejection |
| `ArchiveExtract.Disk.ExtractTar` | internal/ops/archive.go:618-684 | The loop leaves the tree, counts and error the specification names |
| `ArchiveExtract.Disk.ExtractZip` | internal/ops/archive.go:562-616 | The loop leaves the tree, counts and error the specification names |
| `Wire.VarintRoundTrip` | internal/ops/package_archive.go:121-134 | Every 64-bit value encoded as in lines 775-779 is read back from 1 to 10 bytes, whatever follows |
| `Wire.DecodedVarintsFit` | internal/ops/package_archive.go:121-134 | An accepted varint fits 64 bits and used 1 to 10 bytes that were there |
| `Wire.ParseInvertsSerialise` | internal/ops/package_archive.go:63-119 | Parsing inverts serialising for every well-formed field list within the size and count limits |
| `Wire.AcceptedInputIsItsFields` | internal/ops/package_archive.go:63-119 | Accepted input splits exactly into contiguous field encodings, at most half as many as bytes |
| `Wire.EncodingsParse` | internal/ops/package_archive.go:63-119 | Conversely, any join of field encodings within the limit parses to those fields |
| `Wire.ParseOfConcatenation` | internal/ops/package_archive.go:63-119 | parse(a+b) is parse(a) followed by parse(b), and fails exactly when parse(b) does |
| `Wire.FieldIsLocal` | internal/ops/package_archive.go:63-119 | A field depends only on the bytes it used |
| `Wire.ReadProtoVarint` | internal/ops/package_archive.go:121-134 | The shifting loop computes the recursive reading and stays in bounds |
| `Wire.ParseProtoWireLoop` | internal/ops/package_archive.go:63-119 | The offset loop computes the recursive parse, error by error |
| `ApkSelect.NearestDensityIsNearest` | internal/ops/package_archive.go:551-564 | nearestDensity is a value at the least distance and the larger of two as near; 0 without values |
| `ApkSelect.HighestNotAboveIsHighest` | internal/ops/package_archive.go:566-574 | highestNotAbove is the highest positive value not above the wanted one, or 0 |
| `ApkSelect.SomeFloorFits` | internal/ops/package_archive.go:497-499 | A list of SDK floors lets a device in exactly when one is positive and not above its level |
| `ApkSelect.SafeRelativeIsSafe` | internal/ops/package_archive.go:475-482 | A path the selection accepts relative to the current directory is accepted below every directory |
| `ApkSelection.ChoicesAreBest` | internal/ops/package_archive.go:431-450 | The ABI is the device's first that a candidate offers, the density the nearest offered, the SDK the highest offered that fits |
| `ApkSelection.SelectionIsExact` | internal/ops/package_archive.go:409-488 | A selection has the highest matching variant, the first offered ABI, the nearest offered density and, sorted, exactly the paths the inclusion rule takes, each as often as it is taken, all of them safe |
| `ApkInclusion.InclusionIsExact` | internal/ops/package_archive.go:457-486 | An APK of its own path is selected exactly when it is installed at once or by default and is the master, has no targeting, or is in by each dimension: its ABIs have the first offered one, its densities the nearest, its floors the highest that fits, its languages one of the device, and no alternative of a fallback fits |
| `ApkInclusion.OneDimension` | internal/ops/package_archive.go:457-479 | What that means for an APK targeted by one dimension only, and for fallbacks |
| `ApkInclusion.VariantIsHighest` | internal/ops/package_archive.go:414-424 | The selection is for the highest-numbered variant that suits the device |
| `ApkInclusion.MatchesMeans` | internal/ops/package_archive.go:490-504 | A variant suits a device by ABI or as a fallback, by some floor that fits, and by a nearest density that is real |
| `ApkInclusion.FoldMeans` | internal/ops/package_archive.go:511-518 | ABI names are equal when they are the same letters in either case |
| `ApkInclusion.SameLanguageMeans` | internal/ops/package_archive.go:538-549 | Two language tags fit exactly when their primary parts are the same word in either case |
| `ApkInclusion.OrderMeans` | internal/ops/package_archive.go:486-487 | Paths are ordered by their first different character, a beginning before its continuation |
| `ApkInclusion.SafeExactly` | internal/ops/package_archive.go:480-484 | A path is safe exactly when every directory there could be accepts it |
| `ApkSelection.FailuresAreExact` | internal/ops/package_archive.go:409-488 | Each failure means what it says: no matching variant, a taken path that is unsafe, or nothing taken |
| `ApkSelection.SelectionIgnoresOrder` | internal/ops/package_archive.go:409-488 | Permuting descriptions and variants changes neither the selection nor the failure |
| `ApkToc.ParsedChoicesAreBest` | internal/ops/package_archive.go:322-354 | Whatever table of contents is accepted, its densities are such that the best-choice theorem applies |
| `ApkTocWriter.TocRoundTrip` | internal/ops/package_archive.go:164-407 | Every table of contents written by the message layout, with all its targeting, is read back as exactly what it says, or refused when it offers nothing to install |
| `ApkTocWriter.ApkTargetBack` | internal/ops/package_archive.go:264-292 | The four targetings of an APK, values and alternatives, survive writing and reading |
| `ApkTocWriter.VariantTargetBack` | internal/ops/package_archive.go:240-262 | So do the three targetings of a variant |
| `ApkTocWriter.DensityBack` | internal/ops/package_archive.go:322-354 | A density means its dots per inch, whether it is written as a standard bucket or as a number |
| `ApkToc.HalvesMaySwap` | internal/ops/package_archive.go:164-233 | Two halves of a table of contents with one package name may be written in either order: same selection, or none either way |
| `ApkLoops.NearestDensityLoop` | internal/ops/package_archive.go:551-564 | The loop computes the specified choice |
| `ApkLoops.HighestNotAboveLoop` | internal/ops/package_archive.go:566-574 | The loop computes the specified choice |
| `ApkLoops.TargetMatchesVariant` | internal/ops/package_archive.go:490-504 | The early returns compute the specified match |
| `ApkLoops.SelectLoop` | internal/ops/package_archive.go:409-488 | The loops of selectAPKS, over any sort by falling number, compute the specified selection |
| `ApkTocLoops.ParseTocLoop` | internal/ops/package_archive.go:164-233 | The nested loops that append to the lists compute the specified table of contents or its first error |
| `Calendar.DayOfItsDate` | internal/ops/schedule.go:545-548 | Every day number is one real Gregorian date and comes back from it (the calendar behind Day, Month and AddDate) |
| `Calendar.DateOfItsDay` | internal/ops/schedule.go:545-548 | Every real date comes back from its day number |
| `Calendar.DaysFollow` | internal/ops/schedule.go:545-548 | The date of the next day is the next date of the calendar, and weekdays go round the week |
| `Calendar.Epoch` | internal/ops/schedule.go:545-548 | The calendar is anchored: the first of January 1970 was a Thursday |
| `Calendar.KnownDays` | internal/ops/schedule.go:545-548 | The weekdays of the first of every month of 2024 |
| `Calendar.KnownFebruaries` | internal/ops/schedule.go:545-548 | February in the four kinds of years |
| `Cron.PartsMatchTheirUnion` | internal/ops/schedule.go:569-609 | A field whose parts are all valid matches exactly the union of what they denote, although the loop stops at the first match |
| `Cron.InvalidPartSeenWhenReached` | internal/ops/schedule.go:604-606 | An invalid part is reported exactly for the values that no part before it matches |
| `CronText.WrittenFieldMeansItsParts` | internal/ops/schedule.go:569-609 | A field written from any list of stars, numbers and intervals, each with or without a step, is valid and matches exactly the values one of them means: the range, the number alone, or the interval, by whole steps from its start |
| `CronText.PartRoundTrip` | internal/ops/schedule.go:569-603 | Every part of the grammar is read back as the range and the step it was written with |
| `CronText.ClockReads` | internal/ops/schedule.go:548 | The five clock values of a minute are those of its date and time of day on the local clock |
| `CronText.WrittenExpressionMatches` | internal/ops/schedule.go:540-567 | Five written fields with any blanks between them are a valid expression that matches the minutes whose date and time all five mean |
| `CronText.NextTimeIsMeant` | internal/ops/schedule.go:540-567 | The answer for it is the least minute strictly later whose date and time all five fields mean, and failure means the horizon has none |
| `Cron.SearchStopsAtTheFirst` | internal/ops/schedule.go:540-567 | For any five fields the first minute that is not a plain mismatch decides the search, by match or by error |
| `Cron.NextCronIsLeast` | internal/ops/schedule.go:540-567 | For a valid expression the result is the least minute strictly later that matches all five fields, and failure means the five-year horizon has none |
| `Cron.HorizonIsFiveYears` | internal/ops/schedule.go:545-547 | The horizon is 1825 to 1827 days ahead, leap days included |
| `Cron.StarsMatchEveryMinute` | internal/ops/schedule.go:540-609 | Five stars match every minute, because every clock value lies in the range of its field; the answer is the next minute |
| `Cron.RunsEnumerate` | internal/ops/schedule.go:540-567 | Asking again from each answer lists every matching minute once, in increasing order |
| `CronLoops.CronFieldMatches` | internal/ops/schedule.go:569-609 | The loop over the parts computes the specified outcome, each error included |
| `CronLoops.NextCronTime` | internal/ops/schedule.go:540-567 | The minute loop with its inner field loop computes the specified search, and skips no match |
| `CronLoops.InvalidPartsCanHide` | internal/ops/schedule.go:604-606 | A concrete expression whose invalid part is never reported |
| `Schedules.DailyIsLeast` | internal/ops/schedule.go:515-528 | The daily result is the least moment of that time of day within (now, now + 1 day] |
| `Schedules.WeeklyIsLeast` | internal/ops/schedule.go:515-528 | The weekly result is the least moment of that weekday and time within (now, now + 7 days] |
| `ScheduleTimes.TimeOfDayMeans` | internal/ops/schedule.go:611-619 | A written time of day, with or without leading zeros, is accepted exactly when there is such a time, and means it |
| `ScheduleTimes.DailyRunsAsWritten` | internal/ops/schedule.go:515-528 | A daily schedule runs at the first moment later than now at which the local clock shows the written time, within a day |
| `ScheduleTimes.WeeklyRunsAsWritten` | internal/ops/schedule.go:515-528 | A weekly one at the first such moment on its weekday, within a week |
| `ScheduleTimes.OthersRunAsAsked` | internal/ops/schedule.go:505-538 | The other kinds run at their time if it is to come, after their interval, ten seconds after the start, at their cron time, or at no time |
| `ScheduleTimes.StartedGoesOn` | internal/ops/schedule.go:357-381 | A started schedule keeps everything but its next time, and a one-shot is switched off |
| `Schedules.NextIsLater` | internal/ops/schedule.go:505-538 | For time schedules the result lies after now exactly unless an interval's 64-bit length is not positive |
| `Schedules.IntervalsThatFit` | internal/ops/schedule.go:513-514 | The length of an interval is the one asked for exactly up to 9223372036 seconds, and too short beyond |
| `Schedules.WrappedIntervals` | internal/ops/schedule.go:513-514 | Concrete lengths of both kinds: a negative one, and 0.29 seconds for 18446744074 seconds |
| `Schedules.TickLeavesOnlyOverflowsDue` | internal/ops/schedule.go:357-381 | After a tick a schedule is due exactly if it was due and is an interval that overflows |
| `Schedules.TickSettles` | internal/ops/schedule.go:357-381 | Without overflowing intervals nothing is due after a tick, and a second tick at that time changes nothing |
| `Scheduler.Scheduler.TriggerDueSchedules` | internal/ops/schedule.go:357-381 | The loop over the table advances exactly the due schedules, saves them, and launches each due id once |
| `Scheduler.Scheduler.NearestScheduleTime` | internal/ops/schedule.go:344-355 | The loop finds the earliest set time of an enabled schedule, or none |
| `Scheduler.NextTickIsLater` | internal/ops/schedule.go:344-381 | After a tick the timer is set for later than now, or not at all |
| `Scheduler.OneShotsStartOnce` | internal/ops/schedule.go:364-367 | A once or boot schedule starts at most once over any sequence of ticks |
| `Scheduler.OneShotsStartAtTheirTime` | internal/ops/schedule.go:357-381 | It starts exactly when a tick comes at or after its time |
| `Scheduler.IntervalsKeepTheirDistance` | internal/ops/schedule.go:357-381 | Over any sequence of ticks an interval of at most 9223372036 seconds starts at most once per period of that many seconds |
| `Scheduler.WrappedIntervalsStartEarly` | internal/ops/schedule.go:357-381 | Every longer interval is started twice by some two ticks less than its period apart |
| `Scheduler.PeriodIsKeptExactly` | internal/ops/schedule.go:357-381 | An interval keeps its period over all ticks exactly up to 9223372036 seconds |
| `Supervisor.WindowAtFailure` | internal/supervisor/supervisor.go:108-115 | The pruned list at a failure is exactly the failures since the last reset that lie in the window |
| `Supervisor.ListIsTheWindow` | internal/supervisor/supervisor.go:94-145 | The list kept between failures is the same window as of the last failure |
| `Supervisor.StopsAtMaxFailures` | internal/supervisor/supervisor.go:126-129 | The supervisor stops at a failure exactly when that count is MaxFailures, and it is never more |
| `Supervisor.WaitAfterFailure` | internal/supervisor/supervisor.go:130-137 | Each wait is the initial delay after a long run and otherwise the delay numbered by the runs since the reset |
| `Supervisor.LongRunsStartOver` | internal/supervisor/supervisor.go:126-137 | A run counts as a failure if it was shorter than stableAfter, and from there on clears the count and the delay |
| `Supervisor.DoublesExactlyWhen` | internal/supervisor/supervisor.go:130-137 | The k-th delay is min(initial*2^k, max) for all k exactly when initial <= max < 2^62 nanoseconds |
| `Supervisor.CrashLoopsStop` | internal/supervisor/supervisor.go:94-145 | Short runs whose failures fit one window are restarted until exactly the MaxFailures-th, which stops the supervisor |
| `Supervisor.FastCrashLoopsStop` | internal/supervisor/supervisor.go:94-145 | The same from a bound u on each run: (MaxFailures-1)*u plus the waits must fit the window |
| `Supervisor.DefaultsStopCrashLoops` | internal/supervisor/supervisor.go:52-63 | With the default options, runs that fail within 146 seconds are stopped at the fifth failure |
| `Supervisor.RunLoop` | internal/supervisor/supervisor.go:94-145 | The loop with its changing failure list and delays produces the specified waits and ending |
| `Supervisor.DropOld` | internal/supervisor/supervisor.go:110-115 | The pruning loop drops exactly the leading failures before the cutoff |
| `Versions.SettledForever` | internal/supervisor/supervisor.go:435-448 | Without a pending candidate no failure or long run ever changes the program or makes one pending |
| `Versions.CandidateOrBackup` | internal/supervisor/supervisor.go:378-448 | After an installation, whichever calls fail, the program is the candidate or the untouched backup, and a decision stays |
| `Versions.FailureReverts` | internal/supervisor/supervisor.go:393-433 | A failure of a new candidate puts the backup in place for good when every call works |
| `Versions.RestoredExactly` | internal/supervisor/supervisor.go:393-448 | The backup is put in place exactly for an undecided candidate with another, present, non-empty backup among the versions, when the calls work; without that nothing changes |
| `Versions.RollbackIsOnRecord` | internal/supervisor/supervisor.go:393-433 | What a recorded rollback says in each field |
| `Versions.StableIsOnRecord` | internal/supervisor/supervisor.go:378-391 | What marking a candidate stable says in each field |
| `Versions.MarkTellsTheTruth` | internal/supervisor/supervisor.go:378-448 | After an upgrade and any events, a recorded long run names the program in place exactly when no failure restored the backup or one that did was also recorded and exchanged the process |
| `Versions.FileTellsTheTruth` | internal/supervisor/supervisor.go:378-448 | Over any events that decide the candidate, the file names the program in place exactly when no long run was recorded between a restore and the exchange of the process |
| `Versions.UnsavedRollbackMisleads` | internal/supervisor/supervisor.go:378-433 | A rollback whose record was not saved, followed by a long run, leaves the wrong version recorded as active, from any upgrade |
| `Versions.UnexchangedRollbackMisleads` | internal/supervisor/supervisor.go:393-433 | A rollback that was saved but whose process was not exchanged leaves a true file, which the next long run makes false |
| `Versions.RollbackTellsTheTruth` | internal/supervisor/supervisor.go:393-433 | A recorded rollback names the version that was put in place |
| `Versions.VersionFiles.Mark` | internal/supervisor/supervisor.go:378-391 | The field updates make the specified new file, or leave the old one |
| `Versions.VersionFiles.RollbackPendingCandidate` | internal/supervisor/supervisor.go:435-448 | The checks, the restore, the field updates and the save make the specified step |
| `Stream.StreamIsTheChanges` | internal/mcpapi/tasks_http.go:249-315 | The stream is the first response and then every change of the polled state up to the first error or finished state, numbered 1, 2, 3, ... |
| `Stream.DestutterHasNoRepeats` | internal/mcpapi/tasks_http.go:290-292 | Removing repeats leaves no two equal neighbours, loses no state, and changes nothing when there are none |
| `Stream.StreamRoundTrip` | cmd/zcr521-bridge/main.go:223-280 | Reading a printed stream back yields its payloads in order, up to and with the first that answers the awaited request, and the last event number |
| `Stream.UpToMatchIsPrefix` | cmd/zcr521-bridge/main.go:502-515 | What is read is a prefix that ends with the first matching payload |
| `Stream.StreamArrives` | internal/mcpapi/tasks_http.go:249-351 | Composed from polling to the reader: the changes of state arrive, in order and nothing else, up to and with the first payload that answers the awaited request if there is one, with the number of the last event read |
| `EventStream.SameLinesExactly` | cmd/zcr521-bridge/main.go:223-280 | bufio.ScanLines and the HTML standard split a text into the same lines exactly when no CR stands alone before its end and it has no byte order mark |
| `EventStream.ReadersAgreeExactly` | cmd/zcr521-bridge/main.go:223-280 | On any lines: same payloads, same ending and same last id as the reader of the HTML standard, each under its exact condition on the unfinished event and the ids |
| `EventStream.TextsAgreeByEvents` | cmd/zcr521-bridge/main.go:223-280 | For every text: same payloads, and same last id, exactly when the events of the two readings carry the same data, and the same last id that counts |
| `EventStream.TextsAgreeExactly` | cmd/zcr521-bridge/main.go:223-280 | For every text whose lone CRs and mark do not matter: payloads and id are those of the standard exactly when the unfinished event passes on nothing and the ids agree |
| `EventStreamInputs.PrintedStreamsConform` | cmd/zcr521-bridge/main.go:223-280 | Every printed stream is read as the HTML standard asks |
| `EventStreamInputs.UnfinishedEventIsPassedOn` | cmd/zcr521-bridge/main.go:223-280 | A text whose last event has no empty line after it: the bridge passes it on, the standard discards it |
| `EventStreamInputs.EarlierIdIsKept` | cmd/zcr521-bridge/main.go:223-280 | A text without an id: the bridge keeps the id of an earlier stream |
| `EventStreamInputs.EmptyIdIsIgnored` | cmd/zcr521-bridge/main.go:223-280 | A text with an empty id: the bridge keeps the id before it, the standard resets it |
| `EventStreamInputs.LoneReturnJoinsLines` | cmd/zcr521-bridge/main.go:223-280 | A text with a lone CR: one payload that is not JSON for the bridge, two lines of one valid payload for the standard |
| `EventStreamInputs.MarkHidesTheFirstField` | cmd/zcr521-bridge/main.go:223-280 | A text with a byte order mark: the bridge misses the first field |
| `EventStreamInputs.AgreementByAccident` | cmd/zcr521-bridge/main.go:223-280 | A text with a lone CR that changes its lines and is still read alike |
| `StreamLoops.StreamTaskLoop` | internal/mcpapi/tasks_http.go:249-315 | The polling loop writes exactly the printed stream |
| `StreamLoops.Bridge.ConsumeSSE` | cmd/zcr521-bridge/main.go:223-280 | The line loop changes the bridge exactly as the specified reader |
| `Shell.QuotedListRoundTrip` | internal/ops/command.go:364-369 | Shell token recognition of the joined quotations gives exactly the original strings, one word each, nothing open to expansion |
| `Shell.DelayedCommand` | internal/ops/android_device.go:222-226 | The delayed command line is read as a sleep and then the given program with exactly the given arguments |
| `Download.PartStaysPrefix` | internal/ops/transfer.go:193-266 | After any attempt the .part file is still a beginning of the content |
| `Download.SuccessIsWhole` | internal/ops/transfer.go:193-266 | A success means the whole content, counted right and within the limit, exactly unless the limit is 2^63-1 on a file started anew |
| `Download.LargestLimitLosesAll` | internal/ops/transfer.go:250-257 | A concrete success with an empty file under that limit |
| `Download.CanSucceed` | internal/ops/transfer.go:193-266 | With a server that answers ranges an attempt can succeed exactly when the .part file is not complete yet and the content is within the limit |
| `Download.CompletePartNeverFinishes` | internal/ops/transfer.go:137-151 | Resuming from a complete .part file fails however often it is retried |
| `Download.RetriesKeepThePrefix` | internal/ops/transfer.go:137-151 | Over any number of failed and resumed attempts the file stays a beginning of the content; success is the whole content exactly unless the limit is 2^63-1 and the attempt that succeeded started a non-empty file anew |
| `Download.DownloadsAreExact` | internal/ops/transfer.go:114-191 | A reported success leaves the content at the destination with the checked sum, all of it under the same exact condition; a failure leaves what was there, or nothing when only the last rename failed |
| `Download.SucceedsExactly` | internal/ops/transfer.go:193-266 | An attempt succeeds exactly when it is answered, nothing breaks or fails, the disk takes the rest, and the content is within the limit |
| `Download.InterruptedDownloadsFinish` | internal/ops/transfer.go:137-151 | However many attempts broke off, one at which nothing breaks finishes the download with the whole content |
| `Download.DownloadsFinishExactly` | internal/ops/transfer.go:114-191 | Then the content is at the destination exactly unless something was there that was not to be overwritten, the declared sum is another, or the last steps fail |
| `Download.Downloader.TryOnce` | internal/ops/transfer.go:193-266 | One attempt changes the file and answers as specified |
| `Download.Downloader.RetryLoop` | internal/ops/transfer.go:137-151 | The retry loop computes the specified sequence of attempts |
| `Download.Downloader.DownloadTo` | internal/ops/transfer.go:114-191 | The operation changes both files and answers as specified, error by error |

## Left out

- Uploads.PublishedOnce: identifiers are taken to be fresh, since random 128-bit numbers are an input of the model.
- TaskTheorems.FinishedForever: is about one process; across processes TaskTheorems.FinishedSnapshotForever says it of
  the snapshots, because a finished record whose last snapshot was not written is run again after a crash.
- TaskManager.Manager.Load: snapshots that are not valid JSON, or were put there by something else, are not modelled;
  nor is the quarantine of such files.
- ArchiveSafety.TarStaysInside: where symbolic links created by the extraction lead is not claimed; the code checks their
  text only.
- Stream.StreamRoundTrip: payloads are JSON on one line, which is what the JSON encoder writes; the reader's limit on the
  length of a line is not modelled.
- EventStream.ReadersAgreeExactly: the standard's event names and its reconnection time are not compared, since the bridge
  reads neither; decoding of UTF-8 is done before the readers start.
- ApkInclusion.InclusionIsExact: is about APKs with a path of their own; how often a shared path is selected is in
  ApkSelection.SelectionIsExact.
- ArchiveAccepts.TarAccepts: links are not among the entries it promises to extract; where they land when they are is in
  ArchiveAccepts.TarLandsAsNamed.
- CronText.NextTimeIsMeant: expressions with signs, leading zeros or other blanks than space and tab are read by the model but
  not part of the written grammar.
- EventStream.TextsAgreeExactly: leaves the texts in which a lone CR or a byte order mark matters to
  EventStream.TextsAgreeByEvents.
- That every task is cancelled after Close: a select may still take a free slot after the manager was closed.
- JSON, SHA-256, gzip, xz, tar and zip encodings are opaque; atomic file replacement is one step that happens or not.
- Clock readings are parameters. An operation that reads the clock several times in a row, such as the start of the task
  manager, has one reading; the supervisor's runs have three.
- Shell.QuotedListRoundTrip: substitutions and here-documents outside quotations are not parsed, only marked as open to
  expansion; quoted words never contain any.
- Fixed-offset zones only: daylight saving is not part of this model. 64-bit machines only.
- Folding of letters outside ASCII when ABI names and locales are compared, and Unicode in general.
- File modes, devices, FIFOs, Windows replacement and drive letters beyond their spelling.
- Publishing device files as artifacts, the download handler, HTTP and MCP plumbing, and the JSON shape of messages.
- A clean-up that runs while a chunk is being written: the clean-up does not take the per-id lock.
- The task reporter's log, retries and run counters of a scheduled job, and its network and charging listeners.
- The per-process task registry of the operations package, chunk uploads to HTTP servers, configuration checks, device
  probes and command adapters: they would add only easy members.
