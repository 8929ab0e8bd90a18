# A verified model of orchd's control plane

orchd runs tenants' workloads on one box: databases, app runners and microVMs
that it suspends when idle, backs up, evicts when the disk is full, and meters.
This project models the parts of it that decide whether data survives and
whether counts are right, and proves what they promise over every run.

Run the verifier over the whole project with `dafny verify dfyconfig.toml`.

## What is modelled

Code that changes state step by step appears twice: as a class or a method
with a loop, in the shape of the source, and as a function on plain values that
the method is proved equal to. The theorems are about those functions. Where
several goroutines, clients or processes interleave, there is a transition
system whose steps are the sections the code holds a lock for, and the theorem
is an invariant of every run.

**Backups and eviction.** `DumpSeal` is the protocol by which a database is
exported, stopped and sealed with a fingerprint of `pg_control`, `DumpHistory`
what a recorded dump holds of the database's past, and `DumpManager` the
manager's code over it. `TarLag` is the other kind of backup, with the
scheduler's cache of checks. `Schedule` and `Eviction` are what trusts them:
sweeps, the coverage report, and the deletion of projects. `LruSelect` and
`LruTicks` choose the projects, `LruWindow` deletes them, `Reaper` suspends the
idle workloads. `LocalStore`,
`MultiStore` and `BackupIds` are the store and its names.

**MicroVMs.** `MicroVm` and `FcDriver` are suspend, snapshot, compaction and
restore, with every API call able to succeed, fail, or take effect and fail;
`Admission` is the MaxLive reservation protocol; `DeviceIds` hands out device
ids and picks each VM's subnet.

**Metering.** `Ledger` is the conservation argument, `Meter` the sharded
counters, `MeteredWriter` the response writer, `Reporter` the outbox.

**The rest.** `RateLimit` is the token bucket; `UriEncode` and `CanonicalQuery`
the canonical query of a signed request; `DiskOps`, `PathNames`, `Freeze`,
`FreezeExact`, `BuildHolds` and `WorkingTree` the building of a working tree
from a live template or a frozen one. `Sorting`, `MapSums` and `Common` are shared.

### Conventions

A database's contents are an abstract value and its content hash that value. A
`pg_control` fingerprint is a token, new after every rewrite of the file; a
restored data dir brings back an older one. Backup ids are times, so a larger
one is newer; that two dumps of one workload never fall into the same second is
assumed. Commands, API calls, file writes and the network are steps that
succeed or fail as the environment chooses, and Status answers what it chooses;
where a promise needs a true answer, the theorem says so. Times are integers, and reals in the
token bucket. Counters are unbounded integers, except for the shard hash, which
is computed modulo 2^32.

## Where the code does less than its comments say

Each of these is a theorem: the input that shows it, and the exact condition
under which the promise holds.

- A client write between the idle-time export and the stop is not in the sealed
  dump, which is nevertheless trusted (`ReapIsExactIffWindowQuiet`).
- Status reports a server it cannot ask about as stopped. A running database that
  is missed so is exported offline and its pg_control sealed while it goes on
  running, and the seal is trusted whatever is written next
  (`MissedServerIsSealed`, `DumpIsSoundIff`); after a reap too, if its suspend
  fails (`ReapIsSoundIff`).
- `BackupRetain` 0 removes the archive just made, of a dump (`StoredIsKeptIff`) as
  of a data dir, whose workload is not due with nothing stored (`LagBoundedIff`).
- If the dump state cannot be written after a backup was stored, a later dump
  may name an older backup, which eviction prunes
  (`TornHistoryLosesTheDatabase`, `DumpSurvivesIff`).
- A database reported recent can be older than the interval, by the time its
  export took (`RecentIsYoungIff`).
- The archive of a data dir is read whether or not the suspend before it worked,
  and can hold what the data dir never held (`FailedSuspendTearsTheArchive`,
  `LagBoundedIff`).
- The S3 store gives an archive its time after the data dir was read, so that a
  write during the read can be no later than it. The workload then counts as
  unchanged: current in the report and never due, passed over by a drain and by
  an eviction, and the write is lost (`LateStampHidesAWrite`, `CurrentIsExactIff`,
  `SafeToWipeLosesAWrite`, `EvictionLosesAWrite`, `TarSurvivesIff`).
- A tar-backed workload can be stale in the report and not due, or recent and due
  (`StaleButNotDue`, `DueButRecent`, `AgreeIff`, `StaysInStepIff`); for databases
  the two agree as far as Status gives both the same answer (`DueIffUncovered`).
- Suspend leaves a VM paused when the pause reports an error but took effect
  (`LeftPausedIff`).
- A compaction still in flight when the next snapshot is taken removes that
  snapshot's memory file, and the next start boots fresh
  (`LateCompactionLosesTheSnapshot`, `SnapshotIsKeptIff`); if its output appears
  only after the restore in between, it takes that file's place
  (`LateCompactionMixesSnapshots`, `SnapshotIsSafeIff`). The restore holds the
  lock only while it looks at the file, and suspend does not take it.
- A driver that dies while a guest runs beside its snapshot, or is paused for it,
  can restore that snapshot over a newer rootfs (`CrashRestoresTwice`,
  `CrashIsSafeIff`).
- Start reports a running instance for a VMM that never started its guest
  (`StartOutcome`).
- The reservation is released before the record is written, and the process is
  not called firecracker before its exec, so MaxLive can be exceeded by the number
  of spawns in between (`TheOverrunIsReal`). A VMM whose record cannot be written,
  or whose socket never appears, is left running and uncounted
  (`ReplacedVmmIsUncounted`, `LoadIsBounded`).
- The reaper looks at use and at keep-warm once, and suspends minutes later: a
  workload used again, or made keep-warm, while it waits is suspended all the same
  (`InNeedIsSuspended`, `WrongSuspendIff`).
- The LRU looks once at all projects and deletes the victims one after another: one
  that wakes in between is deleted (`EvictedInUse`, `EvictedInUseIff`).
- A project whose row cannot be deleted has already lost its driver volumes and
  microVM clones (`EvictionIsLossless`).
- Bytes that a copy adds to a hijacked connection's counter after another goroutine
  released it are lost (`LateBytesAreLost`, `NothingIsLostIff`).
- A drain lists minutes in no order, so an aggregate past the reporter's buffer
  can stay behind a newer one (`OnlyTheHeadIsFresh`, `PruningIsExactIff`), and an
  interval below the settle time skips drains (`ShortIntervalWaits`).
- A project whose id was not found at first is reported without one for as long
  as drains name it (`FirstResolutionStays`).
- A plain file named like a skipped directory is in the frozen image and not in
  a live copy, and a delta onto an empty directory fails live and works frozen
  (`FreezesExactlyIff`).
- MultiStore lists nothing when its primary is unreachable, while a lookup by id
  goes on to the older stores (`ListedIffOwned`); an archive in two stores, or one
  its owner will not delete, survives Retain (`RetainLeavesTheNewest`). A negative
  `BackupRetain` indexes before the list (`MultiStore.Retain`, `LocalStore.Retain`).
- A tie across the keep boundary of the LRU, between projects that may go and
  projects that may not, can cost extra ticks (`StopsInTimeIff`).
- A file name with a fraction of a second is listed under an id that leads to
  another name (`PathIsTheFile`).
- `safeJoin` refuses every name below the roots `/` and `.`, and takes an empty
  root for `/` (`SafeJoinIff`, `NothingRefusedIff`).
- The query of a signed request is sorted before it is encoded, which is not
  always the order of the encoded string (`RawOrderIsEncodedOrderIff`,
  `RawOrderCanDiffer`).

## Model

| member | source | states |
|---|---|---|
| DumpSeal.InvStep | orchestrator/internal/manager/dump.go:256-367 | every write, checkpoint, crash, wake, suspend, export, store, seal, wipe, restore, manual deletion and orchd restart, but for the export of a running server that Status reported stopped, keeps the invariant that a matching fingerprint means recorded contents that are backed, and exact unless the window was written to |
| DumpSeal.InvRun | orchestrator/internal/manager/dump.go:256-367 | the invariant holds after every sequence of those events |
| DumpSeal.SealIsSound | orchestrator/internal/manager/dump.go:138-160 | in every run with BackupRetain at least 1 in which no Status misses a running server, dumpCurrent implies the recorded contents can be rebuilt from the seed or the store (unless deleted by hand) and equal the present contents unless a client wrote in the window |
| DumpSeal.QuietSealIsExact | orchestrator/internal/manager/dump.go:138-160 | with no missed server and no write in any window, dumpCurrent implies the exact present contents are recoverable |
| DumpSeal.ReapIsExactIffWindowQuiet | orchestrator/internal/manager/manager.go:1840-1857 | after dump, any writes, suspend and seal, the dump counts as current, and is the truth if and only if the last write in between left the exported contents |
| DumpSeal.DumpIsSoundIff | orchestrator/internal/manager/dump.go:262-284 | the seal of a dump that went through stays right in every quiet future without a missed server if and only if Status answered what the server was |
| DumpSeal.MissedServerIsSealed | orchestrator/internal/runtime/docker.go:538-544 | the dump of a running server that Status reported stopped seals the pg_control of a server that goes on running, and counts as current |
| DumpSeal.MissedDumpGoesThrough | orchestrator/internal/manager/dump.go:267-280 | nothing stops that dump: it goes through whenever its export, put and writes do |
| DumpSeal.StoredIsKeptIff | orchestrator/internal/manager/dump.go:300-305 | a dump whose export was stored and recorded can be rebuilt if and only if BackupRetain is at least 1 or retention failed |
| DumpSeal.BackupDumpCovers | orchestrator/internal/manager/dump.go:262-313 | a dump that missed no server and returns no error leaves the database backed: exact when stopped, dated at its store when running; a failed one keeps the invariant |
| DumpSeal.DailyDumpCovers | orchestrator/internal/manager/dump.go:343-367 | no error from a daily dump that missed no server means the database is covered, and an error loses nothing |
| DumpSeal.DumpGoesThroughIff | orchestrator/internal/manager/dump.go:262-313 | a dump returns no error if and only if its export works, and runs where it was looked for, its put works if one is needed, its dump state can be written, and, offline, its seal can; it then records what the export read, at the instant of its store, sealed exactly when offline |
| DumpSeal.DailyDumpIff | orchestrator/internal/manager/dump.go:343-367 | a daily dump returns no error if and only if the database was seen stopped under a current dump, which changes nothing, or on those answers |
| DumpSeal.RetainKeepsTheNewest | orchestrator/internal/manager/dump.go:303-305 | retention leaves the newest archives, as many as are kept or all there are |
| DumpSeal.WakeUnseals | orchestrator/internal/manager/dump.go:138-148 | no dump is current of a database whose server has started since |
| DumpSeal.RestoreArrives | orchestrator/internal/manager/dump.go:199-235 | a restore placed in an empty data dir is what the database holds once its server has run |
| DumpSeal.ReapSealsOnlyTheTruth | orchestrator/internal/manager/manager.go:1843-1856 | a reap that missed no server and seals leaves a current, backed dump; a failed dump never keeps a workload running; a failed suspend is never followed by a seal |
| DumpSeal.ReapSealsIff | orchestrator/internal/manager/manager.go:1843-1854 | a reap seals if and only if its dump had every answer it needs, the suspend reported no error, and the last seal could be written; the database is then down under a current dump of what was read, sealed with pg_control as the stop left it |
| DumpSeal.ReapCoversIff | orchestrator/internal/manager/manager.go:1843-1854 | of a database seen running, a reap leaves a current dump exactly then |
| DumpSeal.ReapIsSoundIff | orchestrator/internal/manager/manager.go:1843-1854 | once the dump of a reap went through, what the reap leaves is trusted rightly in every quiet future if and only if Status did not miss a running server, or the suspend stopped it, whatever it answered |
| DumpHistory.DumpIsOfAnInstant | orchestrator/internal/manager/dump.go:288-289 | in every run, missed servers and failures included, the dump state records exactly what the database held at one instant, no later than the time it is stamped with |
| DumpHistory.DumpIsOlderThanItsStamp | orchestrator/internal/manager/dump.go:262-289 | the instant is that of the export, and the stamp that of the store |
| DumpHistory.RebuildableIff | orchestrator/internal/manager/dump.go:298-311 | the recorded contents can be rebuilt if and only if the dump names no backup or one that is still stored, which holds unless it was removed by hand or a dump state was lost |
| DumpManager.DumpBackups.IsDumpCurrent | orchestrator/internal/manager/dump.go:141-148 | answers whether the recorded fingerprint is the file's |
| DumpManager.DumpBackups.SealDump | orchestrator/internal/manager/dump.go:151-160 | is the protocol's seal step, and fails exactly without a dump state, without pg_control, or when the write fails |
| DumpManager.DumpBackups.ExportDump | orchestrator/internal/manager/dump.go:199-235 | is the protocol's export step with whatever Status answered; offline it runs the server, which rewrites pg_control |
| DumpManager.DumpBackups.WriteDumpState | orchestrator/internal/manager/dump.go:120-127 | the new dump state is in place or the old one untouched |
| DumpManager.DumpBackups.StoreDump | orchestrator/internal/manager/dump.go:288-313 | is the protocol's store step: pristine and unchanged exports are recorded without a new archive, any other is stored and retention applied; the clock may have moved since the export |
| DumpManager.DumpBackups.BackupDumpOnce | orchestrator/internal/manager/dump.go:262-284 | is the whole uninterrupted dump that DumpSeal.BackupDumpCovers is about, without an error exactly on the answers it needs |
| DumpManager.DumpBackups.DailyDumpNow | orchestrator/internal/manager/dump.go:343-367 | is the daily dump that DumpSeal.DailyDumpCovers is about, without an error exactly for a covered database or on those answers |
| DumpManager.DumpBackups.SuspendNow | orchestrator/internal/manager/manager.go:1846-1849 | is the protocol's suspend step, with its three ways to fail: a running database runs on exactly after an error that did not stop it |
| DumpManager.DumpBackups.ReapOne | orchestrator/internal/manager/manager.go:1840-1857 | is the reap that DumpSeal.ReapSealsOnlyTheTruth is about; it seals exactly when dump and suspend went through and the seal could be written, over what the dump read |
| TarLag.InvStep | orchestrator/internal/manager/schedule.go:97-121 | writes, cached checks, renewals, archives stamped before or after they are read, while the workload writes, failed suspends and listings, and restarts keep the invariant that the cache's time never overstates how fresh a whole newest backup is |
| TarLag.NotDueMeansLagBounded | orchestrator/internal/manager/schedule.go:221-245 | whenever tarDue answers no there is a backup, and if nothing was written before it was both read and stamped it is exactly what the data dir held at some instant less than BackupInterval ago |
| TarLag.LagBoundedIff | orchestrator/internal/manager/manager.go:1956-1976 | a scheduled backup that ends makes its workload not due, and bounds the lag whatever the archive holds if and only if nothing was written before it was both read and stamped and retention leaves it |
| TarLag.DownIsWhole | orchestrator/internal/manager/manager.go:1956-1963 | while the workload is down and no file is synced, nothing is written under an archive |
| TarLag.FailedSuspendTearsTheArchive | orchestrator/internal/manager/manager.go:1957-1963 | a run in which the ignored suspend failed: the archive holds what the data dir never held, and the workload is not due |
| TarLag.SuspendedBackupIsWhole | orchestrator/internal/manager/manager.go:1955-1963 | a backup whose suspend worked, of a workload seen running or found down, makes a whole archive of the contents at its begin, unless a file was synced meanwhile |
| TarLag.RunsAfterIff | orchestrator/internal/manager/manager.go:1965-1970 | after a backup its workload runs if and only if it was seen running and started again, or ran on all the time because it was not suspended |
| TarLag.DueAfterRestartIff | orchestrator/internal/manager/schedule.go:97-121 | after a restart of orchd a workload is due if and only if the store lists no archive younger than the interval and a write may have come after the newest |
| TarLag.UpUnlessRead | orchestrator/internal/manager/manager.go:1934-1970 | a workload comes up unless a backup holds it, and goes down at any time, and neither writes anything |
| TarLag.CoverageIsHonest | orchestrator/internal/manager/schedule.go:396-410 | in every run, with either kind of store, current means exact contents unless the newest archive was stamped after its read, written under, and the last write is not past its listed time; recent means a bounded lag if nothing was written before it was both read and stamped |
| TarLag.CurrentIsExactIff | orchestrator/internal/backup/s3.go:62-81 | whatever the archive that ends here may hold, in every future until the next one current means exact contents if and only if nothing was written before it was both read and stamped, or the last write by then is past its listed time; an archive stamped first always meets this |
| TarLag.ToldRunIsExact | orchestrator/internal/manager/manager.go:2189-2218 | in every run whose archives all meet that condition, current means exact contents |
| TarLag.StampedFirstIsExact | orchestrator/internal/backup/store.go:138-166 | in every run with a store that stamps an archive before it reads, as the local one does, current means exact contents |
| TarLag.LateStampHidesAWrite | orchestrator/internal/backup/s3.go:62-81 | a run with a store that stamps after it reads, as the S3 one does: a file synced during the read is in no archive, and the workload is current in the report and not due, at every later time and through every renewal |
| TarLag.AgreeIff | orchestrator/internal/manager/schedule.go:221-231 | the scheduler and the report agree if and only if nothing was written since the newest backup, or the time the scheduler remembers and the newest listed one are both recent or both not |
| TarLag.StaysInStepIff | orchestrator/internal/manager/schedule.go:97-113 | from the two times in step, exactly these events part them: a renewal, a first look the store did not answer, and a backup whose own time is kept, or not noted |
| TarLag.InStepRun | orchestrator/internal/manager/schedule.go:97-121 | in every run without such an event the scheduler and the report agree |
| TarLag.StaleButNotDue | orchestrator/internal/manager/schedule.go:221-231 | a run after which the report says stale and the scheduler says not due: data found unchanged, then written |
| TarLag.DueButRecent | orchestrator/internal/manager/schedule.go:97-113 | a run after which the report says recent and the scheduler says due: a cached first look that found nothing, then a manual backup |
| TarLag.TarWorkload.CheckedAtNow | orchestrator/internal/manager/schedule.go:97-113 | the cached time, or the newest backup's on the first look, which is then cached |
| TarLag.TarWorkload.IsTarDue | orchestrator/internal/manager/schedule.go:221-231 | is the model's due step, cache update included |
| TarLag.TarWorkload.Begin | orchestrator/internal/manager/manager.go:1955-1961 | a workload seen running is suspended, whether or not that works: it runs on exactly if it was not seen or not stopped; with a store that stamps first, that is the archive's time |
| TarLag.TarWorkload.StampArchive | orchestrator/internal/backup/s3.go:80-81 | the archive is given its time, once it was read, unless it has one |
| TarLag.TarWorkload.ReadAndStamp | orchestrator/internal/manager/manager.go:1963-1963 | is the store's Create up to its end, in either order, with what happens meanwhile |
| TarLag.TarWorkload.End | orchestrator/internal/manager/manager.go:1965-1978 | the workload is started again, and the archive, if it was made, is the newest, retention applied |
| TarLag.TarWorkload.TarBackupNow | orchestrator/internal/manager/manager.go:1934-1978 | is the whole backup, with what the workload, its clients and the clock do before its stamp and after; with the suspend it makes a whole archive, and it leaves the workload running exactly as TarLag.RunsAfterIff says |
| Schedule.DueIffUncovered | orchestrator/internal/manager/schedule.go:202-217 | a database is due exactly when coverDump calls it stale or failed and it has no failure in the last hour, if and only if both got the same answer from Status or the answer does not matter |
| Schedule.DumpDueIff | orchestrator/internal/manager/schedule.go:202-217 | a database is due if and only if its dump is not current, no dump of it failed within the hour, and it has none, is not seen running, or its last one is BackupInterval old |
| Schedule.StatusIff | orchestrator/internal/manager/schedule.go:368-394 | which of the four statuses a database has: sealed; else seen running with a young dump; else failed; else stale |
| Schedule.AttemptWorksIff | orchestrator/internal/manager/schedule.go:185-191 | when a backup goes through, for each kind of workload, and that a failure is remembered until one does |
| Schedule.FailureWaitsAnHour | orchestrator/internal/manager/schedule.go:199-217 | a dump that failed is not due for an hour and due then, if the database is down or was never dumped; until one goes through the report says failed and not stale |
| Schedule.SweepStopsAt | orchestrator/internal/manager/schedule.go:151-197 | in every environment a sweep has one place where it stops: before it each workload was asked about and, if due, tried; there was a cancel, a full batch, or a due workload under a busy disk, and past it nothing was touched; only a cancel or the disk cuts it short |
| Schedule.StateIsSnapshotIff | orchestrator/internal/manager/schedule.go:193-195 | the state is snapshotted if and only if the sweep was not cut short and its newest snapshot, remembered or found, is the interval old; the new one is the newest, and what retention leaves is kept |
| Schedule.SweepOne | orchestrator/internal/manager/schedule.go:161-192 | one turn of the sweep's loop: what is due is tried, and a busy disk ends the sweep |
| Schedule.SweepBackups | orchestrator/internal/manager/schedule.go:151-197 | the loop is the sweep function, which a cancel or a busy disk cuts short and a full batch ends; it counts only backups that went through, and unless cut short snapshots the state when that is due |
| Schedule.SweepKeepsTheStateYoung | orchestrator/internal/manager/schedule.go:193-195 | after a sweep that was not cut short the state has a stored snapshot younger than the interval, unless making it failed |
| Schedule.SuccessCovers | orchestrator/internal/manager/schedule.go:185-191 | a backup that goes through leaves its workload not due for the interval, whatever is asked later, unless Status misses it then; nothing failing means it goes through |
| Schedule.GoodSweepTakesABatch | orchestrator/internal/manager/schedule.go:151-197 | with nothing failing one sweep takes the number of due workloads down by exactly the batch, or to zero |
| Schedule.BacklogClears | orchestrator/internal/manager/schedule.go:145-150 | N due workloads are none after N / batch sweeps, rounded up, each in an environment of its own, while no new ones fall due |
| Schedule.DrainAll | orchestrator/internal/manager/schedule.go:276-295 | every workload up to a cancel is tried, whatever its age and whatever failed before it, unless it is a tar unchanged since its backup; then the state is snapshotted |
| Schedule.DrainSparesTheUnchanged | orchestrator/internal/manager/schedule.go:276-295 | a drain passes over what is not backed up, or is unchanged since its newest archive, and tries everything else |
| Schedule.DrainCovers | orchestrator/internal/manager/schedule.go:412-415 | what a drain went through with is current or recent in a report less than the interval later |
| Schedule.DrainIsSafe | orchestrator/internal/manager/schedule.go:412-415 | a drain in which nothing failed, its state snapshot included, makes the report that follows say safe to wipe |
| Schedule.Coverage | orchestrator/internal/manager/schedule.go:340-366 | each total is the number of workloads with that status, and the verdict holds if and only if the state is backed up and every backed-up workload is current or recent |
| Schedule.SafeToWipeKeepsEverything | orchestrator/internal/manager/schedule.go:19-24 | when the report says safe, every database with a current dump can be rebuilt exactly, every other one as it was at an instant less than the interval plus its export ago, every tar-backed data dir exactly unless its archive hides a write, or with a bounded lag; each with the condition under which the backup it names is still there |
| Schedule.SafeToWipeLosesAWrite | orchestrator/internal/manager/schedule.go:277-294 | with such an archive, a box of one workload is safe to wipe by its report at every later time, and passed over by the scheduler and by a drain, while no archive holds its contents |
| Schedule.RecentIsYoungIff | orchestrator/internal/manager/schedule.go:19-24 | what the report calls recent is less than the interval old if and only if no time passed between the export and its store |
| Eviction.EvictProject | orchestrator/internal/manager/eviction.go:94-101 | the project is deleted if and only if every backup step went through and its row could be deleted; then each workload's archives are pruned, and when it was not deleted nothing is; which steps of the deletion were done |
| Eviction.Delete | orchestrator/internal/manager/manager.go:1651-1680 | every workload of a project that is found is stopped; it is pruned only once the row is gone and if the store lets it |
| Eviction.DeletionStopsAndPrunes | orchestrator/internal/manager/manager.go:1651-1680 | a workload of a project that is found is down afterwards; its newest archives are kept, as many as the setting says, exactly if the row went, the setting is not negative and the store lets it, and else all |
| Eviction.GoesOnIff | orchestrator/internal/manager/eviction.go:112-138 | an eviction goes past its backups if and only if every workload is not backed up, covered or unchanged, or its dump or archive goes through |
| Eviction.BackupOneCovers | orchestrator/internal/manager/eviction.go:112-138 | a workload whose backup step succeeds survives pruning to a retention other than 0, unless its window was written to, the backup it names was removed by hand, a dump state was lost, or it was written before its archive was both read and stamped, or since; a quiet backup of a workload without a hidden write is never one of these |
| Eviction.EvictionIsLossless | orchestrator/internal/manager/eviction.go:104-138 | every such workload of an evicted project can be rebuilt from what the store keeps; an eviction that fails leaves every workload's files as they were, and its driver volumes and microVM clone if and only if the backup failed or the project was not found |
| Eviction.DumpSurvivesIff | orchestrator/internal/manager/manager.go:2224-2238 | a database that is not pristine survives pruning if and only if an archive holds its contents and fewer than the kept number are newer than the newest that does, or nothing is pruned |
| Eviction.TarSurvivesIff | orchestrator/internal/manager/eviction.go:128-137 | whatever the archive made before an eviction may hold, the data dir survives if and only if nothing was written before it was both read and stamped, and the contents are still those that were read |
| Eviction.EvictionLosesAWrite | orchestrator/internal/manager/eviction.go:128-133 | a write that a late stamp hides is lost: the backup step passes the workload over, and whatever the deletion keeps does not hold its contents |
| Eviction.TornHistoryLosesTheDatabase | orchestrator/internal/manager/dump.go:300-312 | a run in which a lost dump state makes eviction drop the only archive of the present contents |
| MicroVm.InvStep | orchestrator/internal/runtime/firecracker.go:328-441 | every step of suspend, compaction, restore, boot, stop and delete, whichever call fails, keeps a state file complete, current and unused until it is consumed |
| MicroVm.RestoresAreSafe | orchestrator/internal/runtime/firecracker.go:819-851 | memory is loaded only from a complete snapshot of the rootfs as it is, if the driver does not die and no snapshot is taken while a compaction can still put its output in place |
| MicroVm.RestoredAtMostOnce | orchestrator/internal/runtime/firecracker.go:847-849 | no two restores use the same snapshot |
| MicroVm.ReachedStates | orchestrator/internal/runtime/firecracker.go:328-441 | every state of every disciplined run meets the invariant that the exact conditions below are stated for |
| MicroVm.SnapshotIsSafeIff | orchestrator/internal/runtime/firecracker.go:401-406 | whatever follows a snapshot is safe if and only if no compaction was in flight when it was taken, or one whose output was already unlinked |
| MicroVm.SnapshotIsKeptIff | orchestrator/internal/runtime/firecracker.go:414-430 | once the compaction in flight ends, the memory in place is the snapshot's if and only if there was none; with an unlinked output there is no memory, and the next start boots fresh |
| MicroVm.LateCompactionMixesSnapshots | orchestrator/internal/runtime/firecracker.go:414-430 | a run that resumes a guest with the memory of one snapshot and the state of another: the compaction's output appears after the first restore |
| MicroVm.LateCompactionLosesTheSnapshot | orchestrator/internal/runtime/firecracker.go:813-817 | a run in the usual order: the first restore unlinks the output, and the compaction removes the second snapshot's memory |
| MicroVm.CrashRestoresTwice | orchestrator/internal/runtime/firecracker.go:847-849 | a driver that dies between load and drop restores the same snapshot again, over a newer rootfs |
| MicroVm.CrashIsSafeIff | orchestrator/internal/runtime/firecracker.go:819-851 | the driver may die without a later start restoring what it must not if and only if there is nothing to restore, or a complete, current, unused snapshot and no guest that could outdate it |
| MicroVm.LeftPausedIff | orchestrator/internal/runtime/firecracker.go:380-399 | Suspend leaves the VM paused if and only if its pause reported an error and the VM was paused by it or before |
| MicroVm.SuspendOutcome | orchestrator/internal/runtime/firecracker.go:365-407 | success is a VM that is down with a complete, current snapshot; an error after the pause leaves no snapshot and a VM that serves or is down; no error leaves a VM that serves beside a snapshot a start would restore |
| MicroVm.SuspendSucceedsIff | orchestrator/internal/runtime/firecracker.go:365-407 | Suspend returns no error if and only if the VM was down, is ephemeral, or was paused and its snapshot made; then it is down beside a whole snapshot of this very state |
| MicroVm.SuspendFails | orchestrator/internal/runtime/firecracker.go:380-399 | after an error past the pause no snapshot file is left and the guest serves exactly if its resume worked; after one at the pause nothing was touched |
| MicroVm.StartOutcome | orchestrator/internal/runtime/firecracker.go:328-361 | a failed restore falls back to a boot; Start reports an instance without a running guest exactly for a VMM that never started one, or a pause it could not see |
| MicroVm.StartResumesIff | orchestrator/internal/runtime/firecracker.go:347-361 | Start of a VM that is down resumes its snapshot if and only if the memory file is there or decompresses, the state file is there, and spawn, load and wait work: the rootfs is not written and that memory and state are loaded once; else the guest boots afresh, and no snapshot is left either way |
| MicroVm.StartOfAVmm | orchestrator/internal/runtime/firecracker.go:332-346 | Start of a VM with a VMM: a running guest is left alone, a paused one serves again if and only if its resume and the wait work, and is else killed and started from what is on the disk |
| MicroVm.StopAndDelete | orchestrator/internal/runtime/firecracker.go:433-458 | both leave no VMM and no snapshot, and a deleted VM's rootfs is not the next one's |
| FcDriver.FcVm.SuspendVm | orchestrator/internal/runtime/firecracker.go:365-407 | is the Suspend that MicroVm.SuspendOutcome and MicroVm.LeftPausedIff are about; when it fails and what it leaves, by the answers |
| FcDriver.FcVm.CompactVm | orchestrator/internal/runtime/firecracker.go:414-430 | run whole, it keeps the memory a start would use, whether or not the compression works or a zstd is installed; a compression that works leaves that memory compressed, and the raw file gone |
| FcDriver.FcVm.CheckMemory | orchestrator/internal/runtime/firecracker.go:822-831 | the raw memory file is there or decompressed from a complete one, else the restore is given up |
| FcDriver.FcVm.RestoreVm | orchestrator/internal/runtime/firecracker.go:819-851 | is the model's restore, and succeeds exactly when the memory is there, loads and serves; the snapshot is gone and the rootfs as it was |
| FcDriver.FcVm.StartVm | orchestrator/internal/runtime/firecracker.go:328-361 | is the Start that MicroVm.StartOutcome and MicroVm.StartResumesIff are about: a resumed guest or a fresh boot, exactly as the latter says |
| FcDriver.FcVm.DeleteVm | orchestrator/internal/runtime/firecracker.go:446-458 | VMM, snapshot and rootfs are gone, and no file of them serves a later VM of that name |
| FcDriver.FcVm.StopVm | orchestrator/internal/runtime/firecracker.go:433-441 | the VM is down and no snapshot is left |
| FcDriver.FcVm.DropSnapshot | orchestrator/internal/runtime/firecracker.go:813-817 | all three snapshot files are gone, and with them the name of an output still being written |
| Admission.InvStep | orchestrator/internal/runtime/firecracker.go:610-715 | admissions, failed spawns, starts, records, failed records, execs, deaths, kills and restarts of the driver keep the reservations counted once and the load within MaxLive plus the most VMMs unseen so far |
| Admission.LoadIsBounded | orchestrator/internal/runtime/firecracker.go:602-715 | in every run, VMMs and reservations are at most MaxLive plus the most VMMs that were at once started and not counted: not yet recorded, not yet a firecracker, or left behind by a failed record, a failed kill or a later spawn of the same ref |
| Admission.NoCapAdmitsAll | orchestrator/internal/runtime/firecracker.go:610-624 | without a positive MaxLive every spawn is admitted at once, in every state |
| Admission.CountedFromExecOn | orchestrator/internal/runtime/firecracker.go:587-600 | a started and recorded VMM is counted from its exec on, for every other ref, until it dies or is killed |
| Admission.RestartForgets | orchestrator/internal/runtime/firecracker.go:563-634 | a restart of the driver forgets its reservations, and neither the VMMs nor their records |
| Admission.OneStepKeepsTheCap | orchestrator/internal/runtime/firecracker.go:697-707 | were start, record and exec one step, no spawn to replace a live VMM and every kill to work, the cap would be exactly MaxLive, through deaths and restarts of the driver |
| Admission.TheOverrunIsReal | orchestrator/internal/runtime/firecracker.go:697-707 | for every MaxLive and k there is a run whose load is MaxLive + k with k VMMs unseen, with release and record as they are and with both as one step |
| Admission.ReplacedVmmIsUncounted | orchestrator/internal/runtime/firecracker.go:708-715 | at MaxLive 1, a spawn whose socket never appeared leaves its VMM running, the next spawn of the ref overwrites its record, and there are two VMMs of which one is unseen |
| Admission.Spawner.CountLive | orchestrator/internal/runtime/firecracker.go:563-600 | counts exactly the other refs whose recorded process is alive and called firecracker |
| Admission.Spawner.TryAdmit | orchestrator/internal/runtime/firecracker.go:610-624 | admits exactly while the count and the reservations leave room, and then reserves; without a positive MaxLive always, and reserves nothing |
| Admission.Spawner.AdmitOrWait | orchestrator/internal/runtime/firecracker.go:610-634 | admitted by the first pass that finds room, while others go on in between; an error exactly if a pass found none after the ten minutes were over, and no pass before it |
| Admission.Spawner.FailSpawn | orchestrator/internal/runtime/firecracker.go:648-653 | a spawn that fails before its process runs gives its reservation back |
| Admission.Spawner.StartVmm | orchestrator/internal/runtime/firecracker.go:697-704 | the process runs, under another name, and its reservation is gone before its record is written |
| Admission.Spawner.SaveMeta | orchestrator/internal/runtime/firecracker.go:705-707 | the record names the process, whatever it is called by then, or, if it cannot be written, the process runs on unrecorded |
| Admission.Spawner.ProcessExecs | orchestrator/internal/runtime/firecracker.go:587-600 | only from here on is a recorded process counted |
| Admission.Spawner.ProcessDies | orchestrator/internal/runtime/firecracker.go:587-600 | a VMM that dies leaves its record behind, and is not counted by it |
| Admission.Spawner.KillVmm | orchestrator/internal/runtime/firecracker.go:853-867 | the record is cleared whether or not the process went |
| DeviceIds.Candidate | orchestrator/internal/runtime/fc_host.go:83-98 | the id tried is at least 100, at least the counter, above every recorded id, and no higher than one of these demands |
| DeviceIds.GrantedIdsAreDistinct | orchestrator/internal/runtime/fc_host.go:134-156 | however allocations, lost counter files and changing records interleave, an id is granted only while unused and at 100 or above, and again only after its volume was deleted |
| DeviceIds.ThinPool.HighWaterMark | orchestrator/internal/runtime/fc_host.go:100-132 | the largest recorded id, or 0 |
| DeviceIds.ThinPool.NextDevId | orchestrator/internal/runtime/fc_host.go:83-98 | the next id, the counter one past it; nothing changes when the counter cannot be written |
| DeviceIds.AttemptIs | orchestrator/internal/runtime/fc_host.go:138-156 | what one try does: a free id is granted, a taken one makes way for the next, up to 32, and any other failure ends the allocation |
| DeviceIds.BeginsAndFrees | orchestrator/internal/runtime/fc_host.go:134-156 | an allocation begins with its first try, and a deleted volume's id is free, and no other |
| DeviceIds.ThinPool.Allocate | orchestrator/internal/runtime/fc_host.go:138-156 | alone, it grants the first id from the next one on that the pool does not hold, if and only if that is among 32, the counter could be moved past it and the commands for it work; each error says which of these failed, and what is left held |
| DeviceIds.LinksAreValidAndDisjoint | orchestrator/internal/runtime/fc_host.go:292-298 | both addresses of a VM are valid exactly below index 16384; they are the two hosts of one /30, inside 10.201.0.0/16, that no other index has |
| Ledger.TrafficIsConserved | orchestrator/internal/metering/meter.go:93-104 | at every point of every interleaving, what was recorded for a workload is what was drained plus buckets, counters still to be read, bytes between swap and add, and bytes added to a counter after its connection's release had read it |
| Ledger.NothingIsLostIff | orchestrator/internal/metering/writer.go:156-175 | in every interleaving, nothing is lost in any counter of any workload if and only if no byte is added to a connection's counter after its release has swapped it |
| Ledger.WhatADrainLeaves | orchestrator/internal/metering/meter.go:146-152 | with no bucket open and nothing in flight, what is not drained sits in counters of connections not yet released, or came too late |
| Ledger.WhatIsMissingInTheEnd | orchestrator/internal/metering/meter.go:200-207 | once all is drained and every connection released, exactly the bytes that came too late are missing |
| Ledger.LateBytesAreLost | orchestrator/internal/metering/writer.go:156-175 | a run in which a read returns after its connection was released by another: its bytes are in no bucket, and whatever follows never brings them back |
| Ledger.OneBucketPerKey | orchestrator/internal/metering/meter.go:154-172 | a drain gathered shard by shard, with anything in between, names each minute and workload at most once |
| Ledger.ClassIsTheFirstDigit | orchestrator/internal/metering/meter.go:118-128 | one request counts once, with its bytes, in the class of its status's first digit from 2 to 5; 101 counts as 2, and any other status in none |
| Ledger.SwapsLandAtTheirMinute | orchestrator/internal/metering/meter.go:93-104 | bytes swapped out of a connection land in the bucket of the minute they were swapped for, under its names, and change no other |
| Ledger.FnvIs | orchestrator/internal/metering/meter.go:81-90 | the shard is 32-bit FNV-1a of the workload id, with its standard offset and prime, modulo 32 |
| Ledger.XorIsDigitwise | orchestrator/internal/metering/meter.go:86-86 | the exclusive or is that of the binary digits |
| Ledger.CountersAreTheirFields | orchestrator/internal/metering/meter.go:22-44 | the counters that are conserved one by one are all there are |
| Meter.BookedIsARun | orchestrator/internal/metering/meter.go:200-207 | booking a connection, in a drain or at its release, is two swaps and a landing of the ledger |
| Meter.RefinesDrain | orchestrator/internal/metering/meter.go:154-171 | emptying one shard removes exactly its keys from the one flat map the shards stand for |
| Meter.TrafficMeter.AddTo | orchestrator/internal/metering/meter.go:93-104 | adds to one bucket of the flat map, in the shard of its workload, counter by counter; a bucket keeps the project it was opened with |
| Meter.TrafficMeter.RecordRequest | orchestrator/internal/metering/meter.go:107-128 | counts one request, its bytes and its status class, in the bucket of the minute and workload and no other |
| Meter.TrafficMeter.UntrackConn | orchestrator/internal/metering/meter.go:200-207 | the connection leaves the live set, and what it carried since the last drain is added to its workload's bucket of this minute, and to nothing else |
| Meter.TrafficMeter.Drain | orchestrator/internal/metering/meter.go:135-173 | keeps the balance, returns no key twice, none at or past the limit, leaves none before it, and empties every live connection's counters into the minute just ended, or on shutdown this one; every other bucket is returned, or left, as it was |
| MeteredWriter.FirstFinalWins | orchestrator/internal/metering/writer.go:74-89 | the status counted is that of the first final header, write or hijack, whatever follows |
| MeteredWriter.Writer.WriteHeader | orchestrator/internal/metering/writer.go:74-80 | an informational response settles nothing |
| MeteredWriter.Writer.Write | orchestrator/internal/metering/writer.go:82-89 | counts the bytes written and settles 200 |
| MeteredWriter.Writer.Hijack | orchestrator/internal/metering/writer.go:114-144 | tracks the connection, and bytes the server had buffered count as read; a refused hijack changes nothing, and a failing flush books the connection at once |
| MeteredWriter.Writer.Release | orchestrator/internal/metering/writer.go:168-175 | only the first release books, and it books what the connection carried, in its workload's bucket of that minute |
| MeteredWriter.Writer.Finish | orchestrator/internal/metering/writer.go:61-70 | books exactly one request, in the class of the settled status, or of 200 when none was, with the bytes of both bodies |
| Reporter.DropsTheLeast | orchestrator/internal/metering/reporter.go:221-234 | pruning drops the shortest prefix that leaves at most MaxPending with a head inside the buffer |
| Reporter.OnlyTheHeadIsFresh | orchestrator/internal/metering/reporter.go:221-227 | one drain can return a newer minute before an older one, and then the older one is kept past the buffer |
| Reporter.PruningIsExactIff | orchestrator/internal/metering/reporter.go:221-227 | nothing past the buffer is kept if and only if no such aggregate stands behind one that is inside it and within the count |
| Reporter.SortedPruningIsExact | orchestrator/internal/metering/reporter.go:221-227 | in an outbox sorted by minute nothing past the buffer is kept |
| Reporter.BackoffDoubles | orchestrator/internal/metering/reporter.go:277-278 | the code's doubling step is the closed form min(5s * 2^(k-1), 5min) after k failures |
| Reporter.NextDrainIsTheFirst | orchestrator/internal/metering/reporter.go:136-140 | the next drain is the first settled boundary after now |
| Reporter.WakesForBoth | orchestrator/internal/metering/reporter.go:134-146 | the reporter sleeps past no settled boundary and past no due retry of a waiting outbox, and wakes for nothing else |
| Reporter.ShortIntervalWaits | orchestrator/internal/metering/reporter.go:136-140 | with an interval below the settle time, the wait stays within the interval if and only if the boundary is old enough |
| Reporter.UsageReporter.Prune | orchestrator/internal/metering/reporter.go:221-234 | the outbox stays what was collected minus a prefix, what left is counted as dropped, and its head is inside the buffer |
| Reporter.UsageReporter.Collect | orchestrator/internal/metering/reporter.go:168-218 | drained buckets join the outbox in order and it is pruned, or they are discarded while reporting is off; each is given its project's id, and exactly those of the newest minute are kept for the admin page |
| Reporter.UsageReporter.Resolve | orchestrator/internal/metering/reporter.go:173-195 | a project the last drain had keeps its id, any other is looked up once, and only this drain's projects are remembered |
| Reporter.FirstResolutionStays | orchestrator/internal/metering/reporter.go:196-200 | while drains with traffic name a project it is reported under what it first resolved to, found or not |
| Reporter.UsageReporter.Took | orchestrator/internal/metering/reporter.go:259-275 | an answered batch leaves the front of the outbox with one fate, and the backoff ends |
| Reporter.UsageReporter.BackOff | orchestrator/internal/metering/reporter.go:276-284 | after k failures in a row the next try is the closed form's wait away |
| Reporter.UsageReporter.SendOne | orchestrator/internal/metering/reporter.go:246-284 | one batch of at most 500: taken it counts as sent, malformed as dropped, and either way leaves the outbox; any other answer leaves it there and begins the next wait |
| Reporter.UsageReporter.Send | orchestrator/internal/metering/reporter.go:238-287 | ends; batches are at most 500, oldest first; it stops at an empty outbox, a failure, or before the next try; no failure is followed by another post |
| Reporter.Tick | orchestrator/internal/metering/reporter.go:131-163 | one turn of drain, collect and send keeps the meter's balance and the outbox's invariant together |
| Reporter.WhereTrafficGoes | orchestrator/internal/metering/reporter.go:165-234 | what was recorded is sent, refused, pruned, waiting, discarded while off, still to be read by the meter, or lost with a connection released too soon; each aggregate has one fate |
| Reporter.OnlyLateBytesAreLost | orchestrator/internal/metering/reporter.go:165-234 | every recorded byte is in one of these places but the last if and only if none was added to a counter after its connection's release |
| LruSelect.SelectEvictions | orchestrator/internal/manager/eviction.go:41-64 | sorts in place (a permutation, newest first) and returns the ids of the selection that LruSelect.SelectionIsRight is about; nothing when eviction is off |
| LruSelect.WalkFromOldest | orchestrator/internal/manager/eviction.go:49-63 | the backward loop with its early break takes the last ones that may go |
| LruSelect.SelectionIsRight | orchestrator/internal/manager/eviction.go:37-64 | none without a positive keep and batch, or with no more projects than are kept; else victims are distinct, beyond the newest keep, unguarded and idle long enough, as many as eligible up to the batch, and no older one that could go stays |
| LruWindow.EvictVictims | orchestrator/internal/manager/eviction.go:88-102 | one after another every victim whose backup and deletion go through is gone, with whatever the fleet does between two turns |
| LruWindow.VictimsGo | orchestrator/internal/manager/eviction.go:88-102 | every victim whose backup and deletion went through is gone when the loop ends, whatever happened before its turn |
| LruWindow.EvictedInUse | orchestrator/internal/manager/eviction.go:71-102 | a run for every victim: it wakes on a request after the selection, and is deleted |
| LruWindow.EvictedInUseIff | orchestrator/internal/manager/eviction.go:71-102 | which victims of the loop this befalls: at its turn one is guarded, or was active within the minimum age, if and only if since the selection it was last guarded, or its clock last stamped within that age; it is gone all the same |
| LruTicks.NeverFewerThanKeep | orchestrator/internal/manager/eviction.go:66-102 | however ties fall, repeated ticks leave at least keep projects |
| LruTicks.TicksTakeBatches | orchestrator/internal/manager/eviction.go:66-102 | without a mixed tie each tick takes exactly a batch of what was eligible at first |
| LruTicks.StopsInTimeIff | orchestrator/internal/manager/eviction.go:46-47 | for every fleet, keep, age and batch: ticks stop after eligible / batch of them, rounded up, in every order the sort picks among ties, if and only if no tie of candidates that may go and may not crosses the keep boundary |
| Reaper.NeverTooSoon | orchestrator/internal/manager/manager.go:1779-1822 | a workload is selected only after more than the timeout without a use, or when it has run without a live entry since a pass that long ago |
| Reaper.RestartGivesGrace | orchestrator/internal/manager/manager.go:1796-1803 | after a restart of orchd nothing is selected for a full idle timeout |
| Reaper.RestartEndsThePass | orchestrator/internal/manager/manager.go:1824-1862 | a restart of orchd forgets what a pass had selected or looked at: none of it is suspended |
| Reaper.NeverTooLate | orchestrator/internal/manager/manager.go:1788-1822 | with passes at most g apart an unused running workload is selected within the timeout plus g with a live entry, plus 2g without |
| Reaper.Manager.MarkLive | orchestrator/internal/manager/manager.go:2584-2590 | the workload is owned and used now, and out of the grace map |
| Reaper.Manager.Forget | orchestrator/internal/manager/manager.go:2592-2596 | the live entry is gone and nothing else changes |
| Reaper.Manager.Touch | orchestrator/internal/manager/manager.go:2598-2604 | renews an existing entry's last use, and makes none |
| Reaper.Manager.Stale | orchestrator/internal/manager/manager.go:1789-1822 | both loops: exactly the selected workloads, each once, and the grace map after the pass |
| Reaper.Manager.ReapIdle | orchestrator/internal/manager/manager.go:1779-1834 | what is queued to be suspended is what is not keep-warm when it is looked at and has a live entry not used for more than the timeout, or runs without one and was noted more than the timeout ago; with no timeout nothing is |
| Reaper.Manager.Look | orchestrator/internal/manager/manager.go:1831-1834 | keep-warm is read once, and queues the workload or passes it over |
| Reaper.Manager.SuspendQueued | orchestrator/internal/manager/manager.go:1836-1862 | a queued workload is suspended with no second look: if the driver's suspend works it is no longer running and has no live entry, else nothing changes |
| Reaper.Manager.SetKeepWarm | orchestrator/internal/manager/manager.go:1710-1718 | writes the record and takes nothing out of the queue |
| Reaper.QueuedWasChosen | orchestrator/internal/manager/manager.go:1789-1841 | whatever is about to be suspended was selected by a pass and not keep-warm at the look after it |
| Reaper.WrongSuspendIff | orchestrator/internal/manager/manager.go:1831-1846 | for every run: a workload about to be suspended was used within the timeout or is keep-warm if and only if it was used again within it after its pass, or made keep-warm after its look |
| Reaper.InNeedIsSuspended | orchestrator/internal/manager/manager.go:1836-1846 | two runs for every timeout: a request, or SetKeepWarm, reaches a workload that waits for its suspend, and it is suspended all the same |
| MultiStore.ListedIffOwned | orchestrator/internal/backup/multi.go:35-75 | List names an id exactly when owner finds it, if and only if the primary answers or no other reachable store has it |
| MultiStore.RetainLeavesTheNewest | orchestrator/internal/backup/multi.go:101-110 | Retain leaves exactly the newest keep of what it listed if and only if none it removed lies in two stores or is refused by its owner; nothing kept has an earlier time than anything removed |
| MultiStore.MultiStore.List | orchestrator/internal/backup/multi.go:33-55 | fails exactly without the primary; else every id of the reachable stores once, newest first |
| MultiStore.MultiStore.FindOwner | orchestrator/internal/backup/multi.go:58-75 | the first reachable store that has the id, none for a malformed id |
| MultiStore.MultiStore.Delete | orchestrator/internal/backup/multi.go:93-99 | the id leaves its owner and no other store, or the owner refuses; a missing one is no error |
| MultiStore.MultiStore.Retain | orchestrator/internal/backup/multi.go:101-110 | deletes each id beyond keep of one List, once, whatever the deletes answer; a negative keep panics |
| BackupIds.ParseUndoesFormat | orchestrator/internal/backup/store.go:67-67 | every time in years 0 to 9999 reads back to the second |
| BackupIds.FormatUndoesParse | orchestrator/internal/backup/store.go:95-95 | what was read prints back as it was, if and only if no fraction followed its seconds |
| BackupIds.ValidIff | orchestrator/internal/backup/store.go:67-67 | the times that can be read: months 1 to 12, each month's days, leap years among them, hours to 23, minutes and seconds to 59 |
| BackupIds.Months | orchestrator/internal/backup/store.go:67-67 | thirty days in April, June, September and November, 31 in every other month but February |
| BackupIds.February | orchestrator/internal/backup/store.go:67-67 | February has a 29th day in exactly the years that year / 4 - year / 100 + year / 400 counts as leap years |
| BackupIds.FractionsAreRead | orchestrator/internal/backup/store.go:95-95 | a fraction after the seconds is read, behind a point or a comma, to nanoseconds |
| BackupIds.IdReadsBack | orchestrator/internal/backup/store.go:78-97 | parseID undoes backupID for every workload id, underscores and dots included, and both kinds |
| BackupIds.IdsAreDistinct | orchestrator/internal/backup/store.go:78-84 | two backups share an id exactly when workload, second and kind agree |
| BackupIds.FileNameReadsBack | orchestrator/internal/backup/store.go:106-128 | parseFileName undoes fileName |
| BackupIds.PathIsTheFile | orchestrator/internal/backup/store.go:130-136 | path maps a listed id to the file it came from if and only if no fraction follows the seconds in its name |
| LocalStore.RetainKeepsTheNewest | orchestrator/internal/backup/store.go:243-253 | in a directory of the store's own names, exactly the workload's archives beyond the newest keep go, but for those the file system will not remove, and no other file; no archive kept has an earlier time than one removed |
| LocalStore.LocalStore.Put | orchestrator/internal/backup/store.go:255-271 | the archive is in place under its id and listed, or nothing changed |
| LocalStore.LocalStore.List | orchestrator/internal/backup/store.go:170-201 | every archive of the workload and nothing else, none after one of an earlier time, compared by year, month, day, hour, minute, second and fraction, each once among the store's own names |
| LocalStore.LocalStore.Delete | orchestrator/internal/backup/store.go:232-241 | the file the id stands for is gone, or the file system refused; an id that does not parse is an error, a missing file is none |
| LocalStore.LocalStore.Retain | orchestrator/internal/backup/store.go:243-253 | deletes by id what the listing has beyond keep, none of it later than anything kept, whatever the deletes answer; a negative keep panics |
| RateLimit.ForPerMinute | orchestrator/internal/api/ratelimit.go:24-37 | no limiter for a rate that is not positive; else a sixtieth of it a second, with a burst of ten seconds, at least 20 |
| RateLimit.AllowKeepsValid | orchestrator/internal/api/ratelimit.go:39-58 | every bucket stays between empty and full |
| RateLimit.WindowIsBounded | orchestrator/internal/api/ratelimit.go:8-15 | in any window of any run a key is allowed at most burst + rate * length requests |
| RateLimit.RefusedIffAWindowIsFull | orchestrator/internal/api/ratelimit.go:39-58 | the converse: in every run a request is refused if and only if one more would break that bound in a window of its key's own requests that ends with it |
| RateLimit.TokensAreTheLeastLeft | orchestrator/internal/api/ratelimit.go:43-57 | at every instant a bucket holds the least that any window up to then has left, or is full |
| RateLimit.BurstIsAllowed | orchestrator/internal/api/ratelimit.go:43-56 | of requests at one instant exactly as many are allowed as there are whole tokens, and the first ones |
| RateLimit.KeysAreIndependent | orchestrator/internal/api/ratelimit.go:43-47 | a key gets the answers it would get alone |
| RateLimit.SpacedIsNeverRefused | orchestrator/internal/api/ratelimit.go:48-56 | requests at least 1 / rate apart are all allowed |
| RateLimit.SpacedAmongOthers | orchestrator/internal/api/ratelimit.go:39-58 | and that holds whatever other keys send in between |
| RateLimit.RateLimiter.IsAllowed | orchestrator/internal/api/ratelimit.go:39-58 | is the step the theorems are about |
| UriEncode.AwsUriEncode | orchestrator/internal/backup/sigv4.go:82-97 | the byte loop is the encoding UriEncode.DecodeUndoesEncode is about |
| UriEncode.EncodedByteIs | orchestrator/internal/backup/sigv4.go:82-97 | exactly the unreserved bytes of section 2.3 of RFC 3986, and in a path the slash, stay as they are; any other is a percent sign and two upper-case digits |
| UriEncode.DecodeUndoesEncode | orchestrator/internal/backup/sigv4.go:80-97 | decoding gives every byte string back, in both slash modes, as a path and in a query |
| CanonicalQuery.CanonicalQueryString | orchestrator/internal/backup/sigv4.go:63-78 | the nested loops over sorted copies print the canonical pairs, whatever order the map gives its keys in |
| CanonicalQuery.ParseUndoesQuery | orchestrator/internal/backup/sigv4.go:25-28 | the receiver reads exactly the pairs that were signed, in their order |
| CanonicalQuery.CanonicalIffSameMultimap | orchestrator/internal/backup/sigv4.go:63-78 | two sets of values have one canonical string exactly when every pair occurs equally often in both |
| CanonicalQuery.CanonicalIsStable | orchestrator/internal/backup/sigv4.go:25-28 | what the wire query reads back as is the multimap that was signed, and canonicalising it again changes nothing |
| CanonicalQuery.RawOrderIsEncodedOrderIff | orchestrator/internal/backup/sigv4.go:63-78 | sorting before the encoding gives the order of the encoded pairs if and only if no two keys, and no two values of one key, first differ in a smaller literal byte and a larger escaped one |
| CanonicalQuery.RawOrderCanDiffer | orchestrator/internal/backup/sigv4.go:68-72 | two keys that sort differently as they are and encoded |
| PathNames.SafeJoinIff | orchestrator/internal/template/fs.go:25-33 | no name leads out of the root: the result is the root or the cleaned name below it; and it is refused if and only if the root is not clean, or is / or . and the name means something below it |
| PathNames.NothingRefusedIff | orchestrator/internal/template/fs.go:27-30 | no name is refused if and only if the root is empty, or clean and neither / nor . |
| PathNames.ResolveUndoesSpell | orchestrator/internal/template/fs.go:144-153 | a file's archive name resolves to its path |
| DiskOps.RunsIffFits | orchestrator/internal/template/fs.go:49-60 | making directories and writing files succeeds if and only if no file stands where a directory has to be nor a directory where a file has to be; the outcome's directories and keys do not depend on order |
| DiskOps.OrderDoesNotMatterIff | orchestrator/internal/template/fs.go:49-60 | every order has one outcome if and only if all fail or no two writes put different contents at one path |
| Freeze.UntarUndoesBundle | orchestrator/internal/template/fs.go:181-225 | extracting a bundle writes each archived file where it stood |
| Freeze.CopyWritesTheArchive | orchestrator/internal/template/fs.go:228-260 | unless a plain file bears a skipped name, a live copy writes exactly the files of the archive |
| Freeze.FrozenFollowsLive | orchestrator/internal/template/fs.go:168-179 | then, for every destination, delta and deletions, a frozen build succeeds whenever the live one does, with the same files |
| Freeze.DeltaOrderIff | orchestrator/internal/template/fs.go:48-60 | the delta map's iteration order does not matter if and only if it fails in every order or no two names resolve to one path with different contents |
| Freeze.DeltaOrderIsFree | orchestrator/internal/template/fs.go:39-44 | a whole build, deletions included, is the same in every order of a delta of distinct paths |
| FreezeExact.FreezesExactlyIff | orchestrator/internal/template/fs.go:124-179 | live and frozen builds agree on success and files for every destination directory, delta and deletions if and only if no visited plain file bears a skipped name and no visited directory is without a file; otherwise they differ even in an empty one |
| BuildHolds.LiveBuildHolds | orchestrator/internal/template/fs.go:39-67 | what a live build that works holds at every path: nothing where, or below where, it was told to delete; else the delta's file; else the template's, if no skipped name leads there; else what the destination had |
| BuildHolds.FrozenBuildHolds | orchestrator/internal/template/fs.go:168-179 | the same of a frozen build, in which only skipped directories keep a file of the template out |
| BuildHolds.CopiesIff | orchestrator/internal/template/fs.go:228-260 | a live copy writes exactly the template's files with no skipped name on their path, each with its contents |
| BuildHolds.ArchivesIff | orchestrator/internal/template/fs.go:124-166 | a bundle holds exactly the template's files below no skipped directory, each with its contents |
| BuildHolds.SkipsIff | orchestrator/internal/template/fs.go:14-23 | node_modules, .git and what the caller excludes are skipped, and nothing else |
| WorkingTree.Dest.MkdirAll | orchestrator/internal/template/fs.go:54-56 | makes every missing directory of the path, or fails at a file in its way |
| WorkingTree.Dest.WriteFile | orchestrator/internal/template/fs.go:57-59 | the parents and the file are there, or a file above or a directory in its place made it fail |
| WorkingTree.Dest.RemoveAll | orchestrator/internal/template/fs.go:61-65 | the path and everything below it are gone, and nothing else |
| WorkingTree.Dest.CopyTree | orchestrator/internal/template/fs.go:228-260 | the walk performs the live copy's operations, skipping named directories and files |
| WorkingTree.Dest.ApplyDelta | orchestrator/internal/template/fs.go:48-67 | all writes, then all removals, up to the first error |
| WorkingTree.Dest.Untar | orchestrator/internal/template/fs.go:181-225 | performs the archive's entries up to the first error |
| WorkingTree.Dest.Materialize | orchestrator/internal/template/fs.go:39-44 | is the live build the theorems are about |
| WorkingTree.Dest.MaterializeFromTar | orchestrator/internal/template/fs.go:173-179 | is the frozen build the theorems are about |
| WorkingTree.Bundle | orchestrator/internal/template/fs.go:124-166 | the walk's entries are the archive's, in order, named relative to the root |

## Left out

- DumpSeal.QuietSealIsExact: recoverable includes a backup someone deleted by hand, which the code cannot know about.
- DumpSeal.InvStep: a workload's wipe, and its removal from the store, are one step each; deletions racing a wake, and the setters of environment and keep-warm, are atomic.
- DumpSeal.BackupDumpCovers: whether an offline export loads a restore that is still pending is left to the environment, both ways; that Status misses no running server is assumed, and DumpSeal.DumpIsSoundIff says exactly when that is needed.
- DumpSeal.MissedServerIsSealed: two servers on one data dir are taken to leave it as it is, which is the best that can happen.
- Eviction.EvictionIsLossless: histories with a missed server, a write in a dump's window, or before an archive was both read and stamped, a named backup removed by hand, or a lost dump state are excluded; Eviction.DumpSurvivesIff and Eviction.TarSurvivesIff say exactly what then happens.
- Eviction.EvictProject: a prune that fails removes nothing; MultiStore.MultiStore.Retain says what a partial one leaves.
- Schedule.SweepBackups: a box without a backup store, on which nothing is swept, is not modelled.
- Schedule.SafeToWipeKeepsEverything: histories in which Status missed a running server are excluded; DumpHistory.DumpIsOfAnInstant holds for those too.
- Schedule.DrainCovers: the report comes before the interval is over, counted from listed times, which are cut to the second.
- TarLag.NotDueMeansLagBounded: every change of the data dir is taken to advance a modification time, and no backup to be deleted by hand; TarLag.LagBoundedIff says what an archive read under writes is worth.
- TarLag.CurrentIsExactIff: a write between the end of a read and the stamp that follows it counts as one during the read.
- MicroVm.RestoresAreSafe: assumes the driver does not die and no snapshot is taken while a compaction can still put its output in place; MicroVm.SnapshotIsSafeIff and MicroVm.CrashIsSafeIff show exactly when that is needed. A zstd that outlives the driver is not modelled.
- FcDriver.FcVm.StartVm: a kill is taken to work, and a VMM left by a spawn that failed to show its socket to be replaced by the next one.
- Admission.Spawner.CountLive: a VM directory that cannot be read, for which the count is short, is not modelled.
- LruTicks.StopsInTimeIff: the clock of the minimum age stands still over the ticks, and every selected project is deleted.
- LruWindow.EvictedInUseIff: a use is a write of the project's clock, which for requests is coalesced and comes from a goroutine of its own.
- Reaper.NeverTooLate: no restart of orchd, and no use, falls between the passes; each restart begins the grace anew.
- MultiStore.MultiStore.Retain: a store's reachability, and what it refuses to delete, does not change during one call.
- LocalStore.LocalStore.Put: archives are opaque contents; temporary files, which no listing shows, are not modelled.
- Reporter.UsageReporter.Collect: the random ids of aggregates, and log lines, are not modelled.
- MeteredWriter.Writer.Finish: a body still read by the transport after the handler ended is not counted.
- RateLimit.WindowIsBounded: rounding of floating point is not modelled.
- WorkingTree.Dest.Materialize: what a failed build leaves behind, file modes and symbolic links are not described; the destination is given by a clean path other than / and ., for which PathNames.NothingRefusedIff shows that no name is skipped.
- The byte formats of gzip, tar and JSON, SHA-256 and HMAC, and the Postgres export itself.
- Docker, device-mapper, iptables and Firecracker calls beyond their success, failure and stated effect.
- HTTP handlers, proxying, TLS, the admin pages, routing, key minting and the reprovision webhook.
- Fetching and extracting a restored archive, and the S3 store's requests beyond the canonical query.
- Simple bounded buffers, configuration parsing and image presets, which would only add easy members.
