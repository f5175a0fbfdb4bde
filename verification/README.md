# Verified model of Pelican's daemon and its Panel interface

This project models the parts of the `wings` daemon in which state, branching and ordering are hardest to
get right, and one part of the `panel` API, and proves properties of them that hold for every input, every
tree, or every interleaving. `dafny verify dfyconfig.toml` checks all of it.

- **The quota-tracked sandbox filesystem** (`Paths`, `Tree`, `Removal`, `QuotaFS`, `Pruning`, `Accounting`,
  `CopyNames`, `Walk`, `DiskSpace`, `FilesystemOps`). The disk is a map from component lists to entries with an
  inode table; symbolic links are leaves; an arbitrary fixed set of entries (`stuck`) cannot be
  removed, and an arbitrary predicate (`locked`) says what cannot be created, opened or moved. Proved:
  the batched recursive delete removes exactly what can be removed, for any batch size; the denylist-respecting
  delete computes a pure prune; a guarded write, copy, rename or delete keeps the cached usage equal to a full
  walk, exactly when a stated condition holds; usage stays within the limit at every step of every run on which the
  guard's sum does not wrap around and a refresh never finds more than the limit; the walk visits exactly what its
  SkipDir and SkipAll contract says, in any listing order; `unsafePath` accepts exactly the lexically contained paths,
  inverts joining, and is idempotent.
- **The power lifecycle** (`Power`, `Environment`, `Crash`). Power actions of any number of callers interleave on
  a lock whose release checks no owner; Docker operations interleave on a four-state machine that crash detection
  watches. Proved: mutual exclusion and proper bracketing over all interleavings, and exactly when the crash
  handler fires.
- **The console stream** (`ScanReader`, `Sinks`, `SinkRuns`, `RateLimit`): chunked lines with a byte bound, a
  drop-oldest fan-out pushed to, read from and changed concurrently, a fixed-window limiter with a latch. Proved: a
  run keeps every registered channel open, and no send panics, exactly as long as it registers new channels only; and
  exactly when the pushes under way, and whoever waits for them, can come to an end.
- **SFTP activity merging** (`SftpCron`), **server transfer** (`Transfer`), and the **batched server list of the
  Panel** (`PanelServers`), which must build for every server what the single request builds.

Methods whose source updates fields or loops over variables are Dafny methods of the same shape; their contracts
equate the result with a specification function or relation, and the lemmas are about that specification. Methods
that run beside others (`Power.Server`, `Environment.Environment`) take any number of steps of the others between
any two of their own; an own step is one operation on the lock, one read or change of the state, one call to the
environment, or one test-and-attach.

Inputs the code does not control are parameters or free choices: the kernel's listing order, refused system calls,
inode numbers, Docker's answers, clock readings, database failures, the hash function, the denylist (an arbitrary
predicate on paths), and the number of bytes a reader delivers.

## What the proofs found

- `RemoveAll` of a path that runs through a regular file reports an error although nothing is there, unlike its
  documentation; otherwise it returns nil exactly when the target is gone (`QuotaFS.Quota.RemoveAll`,
  `Removal.GoneButUnresolved`).
- `unlinkat` charges a regular file before it asks the kernel, so a refused removal lowers the usage all the same
  (`QuotaFS.Quota.Unlinkat`). From a usage of zero or more the charge of a whole delete is exact if and only if every
  refused file is empty or the exact charge ends at zero anyway (`QuotaFS.Quota.RemoveAll`, `Tree.ExactCharge`).
- `CanFit` adds in int64: a sum above 2^63 - 1 wraps around and passes the guard (`Accounting.CanFitMeaning`,
  `Accounting.OverflowPassesTheGuard`). A usage of -1 passes it too.
- A delete keeps an exact counter exact if and only if no refused file has a size, and no removed file with a size
  had another name or nothing is left to count (`Accounting.DeleteAgreement`); a copy onto an existing file (all 51
  candidate names taken) and an extraction onto an existing file overcount by the bytes they overwrite
  (`Accounting.StepAgreement`). Without hard links a run keeps the counter exact throughout if and only if it has
  none of these (`Accounting.RunAgreementMeaning`).
- A termination can be counted as a crash: a console line that marks the server as started may be acted upon
  between the two state changes (`Environment.OvertakenTermination`). It is counted if and only if another operation
  set the server to starting or running in between and it stayed up until the termination set it offline; a run
  counts exactly its streams that end in starting or running if and only if that never happens
  (`Environment.OvertakenMeaning`, `Environment.CrashesAreStreamEnds`).
- `ScanReader` does not truncate a long line to one event, as its documentation says: the rest follows in further
  events, with at most 256 bytes lost between them. A line gives more than one event if and only if text follows the
  chunk that takes it beyond 65536 bytes; with full chunks that means more than 65536 + 256 bytes
  (`ScanReader.MoreThanOneEvent`, `ScanReader.OneEventUpTo`).
- A push can wait for a message that nobody sends: it does if and only if the channel is empty and every push under
  way has found it full and is about to evict (`Sinks.BlockedMeaning`), and every capacity has a run from the empty
  channel that ends there (`Sinks.EvictionCanBlock`). Without new pushes, those under way can still end if and only if
  none is about to evict from an empty channel that no other one will fill (`Sinks.FinishMeaning`). A push that cannot
  end holds the read lock of the pool: once a listener wants to leave, no call on the pool returns any more
  (`SinkRuns.GrantMeaning`, `SinkRuns.WaitsForever`, `SinkRuns.LeavingCanBlock`). Concurrent pushes can overtake each other
  (`Sinks.ConcurrentPushesReorder`).
- A channel that is registered again after `Off` closed it makes the next push panic although it is registered only
  once at a time (`SinkRuns.RegisteredAgain`). A run is safe throughout if and only if every channel it registers is
  neither registered nor closed at the time (`SinkRuns.RunIsSafe`).
- A transfer that arrives whole is accepted if and only if the extractor reads the archive to its end, as only the
  bytes it reads are hashed (`Transfer.DeliveredIsVerified`).
- Only the archive extracted last is covered by a checksum (`Transfer.EarlierArchivesAreUnchecked`); with genuine
  checksum fields nothing but the archive that was sent is extracted if and only if one archive part arrived
  (`Transfer.AcceptedIsGenuine`).
- The Panel's list omits the mounts key where the single answer has null, and repeats a mount exactly as often as
  its join rows are repeated (`PanelServers.ListAgreesWithGet`).

## Model

| member | source | states |
|---|---|---|
| Paths.UnsafePathMeaning | wings/internal/ufs/fs_unix.go:852-895 | `unsafePath` succeeds iff the normalised joined path lies under the base, and then yields the remaining components, "." for the base |
| Paths.UnsafePathInverts | wings/internal/ufs/fs_unix.go:852-895 | resolving a base path joined with clean components gives back those components |
| Paths.UnsafePathIdempotent | wings/internal/ufs/fs_unix.go:852-895 | resolving a result again changes nothing |
| Paths.UnsafePathParent | wings/internal/ufs/fs_unix.go:852-895 | "/.." after clean components leads to their parent, and from the base itself is rejected |
| Paths.UnsafePathBack | wings/internal/ufs/fs_unix.go:852-895 | "n/.." in the middle of a path makes no difference, whatever follows |
| Paths.UnsafePathBackToBase | wings/internal/ufs/fs_unix.go:852-895 | nor does it at the start |
| Paths.UnsafePathStay | wings/internal/ufs/fs_unix.go:852-895 | neither "/./" nor "//" in the middle of a path makes a difference |
| Paths.UnsafePathAbove | wings/internal/ufs/fs_unix.go:852-895 | a path that climbs any number of levels above the base is rejected iff the components after that do not lead back into it |
| Paths.InsideIsPrefix | wings/internal/ufs/fs_unix.go:890-895 | the string prefix test means containment of component lists |
| Paths.SplitPath | wings/internal/ufs/path_unix.go:47-80 | for every path: superfluous slashes at both ends aside, the split is at the last slash, and without one the directory is "." |
| Paths.SqueezedMeaning | wings/internal/ufs/path_unix.go:47-55 | what the first loop takes away are slashes at the start, and one stays |
| Paths.StrippedMeaning | wings/internal/ufs/path_unix.go:57-64 | what the second loop takes away are slashes at the end |
| Paths.SplitOfClean | wings/internal/ufs/path_unix.go:47-80 | for a clean path that is the parent directory and the last component |
| Paths.CleanIsNoDot | wings/internal/ufs/path_unix.go:36-42 | a clean path is neither empty nor "." and does not end with a dot component |
| Tree.ResolveMeaning | wings/internal/ufs/fs_unix.go:539-575 | a lookup succeeds iff the entry exists, and else tells a missing entry from a path through a non-directory |
| Tree.ShedTwice | wings/internal/ufs/removeall_unix.go:115-181 | below the target exactly the entries that cannot be removed and the directories leading to them survive a removal, and a second one leaves them too |
| Tree.ChargedTwice | wings/internal/ufs/fs_quota.go:69-78 | charges made one after the other, stopping at zero, add up to one charge for everything removed and everything refused |
| Tree.ExactCharge | wings/internal/ufs/fs_quota.go:161-169 | the charge is exactly for what was removed iff every refused file is empty or the exact charge ends at zero |
| Removal.ShedAfterClearing | wings/internal/ufs/removeall_unix.go:183-240 | clearing a directory and then trying to remove it leaves exactly what cannot be removed |
| Removal.HeldByRest | wings/internal/ufs/removeall_unix.go:183-240 | after clearing, a directory is empty iff nothing below it had to stay |
| Removal.GoneButUnresolved | wings/internal/ufs/fs_unix.go:379-405 | there is a path with nothing to remove at which a removal still fails |
| QuotaFS.DirStream.Readdirnames | wings/internal/ufs/removeall_unix.go:125-150 | batches list each entry once as long as none is removed; a short batch ends the listing |
| QuotaFS.Quota.Add | wings/internal/ufs/fs_quota.go:69-78 | the new usage is the int64 sum, zero if that is negative |
| QuotaFS.Quota.UnlinkRaw | wings/internal/ufs/fs_unix.go:425-436 | what the kernel removes or refuses, and with which error |
| QuotaFS.Quota.Unlinkat | wings/internal/ufs/fs_quota.go:161-169 | removes one entry; a regular file is charged whether or not the removal is refused |
| QuotaFS.Quota.RemoveContentsFrom | wings/internal/ufs/removeall_unix.go:115-181 | for any batch size, terminates and leaves below the directory exactly the undeletable entries and the directories leading to them; what was charged for them |
| QuotaFS.Quota.ClearPass | wings/internal/ufs/removeall_unix.go:125-175 | one pass over an opened directory ends with fewer entries, or with every entry that is left tried |
| QuotaFS.Quota.RemoveNames | wings/internal/ufs/removeall_unix.go:140-160 | one batch: the error count equals the batch iff no entry of the directory went |
| QuotaFS.Quota.RemoveAllFrom | wings/internal/ufs/removeall_unix.go:183-240 | the same for one entry; nil iff it is gone |
| QuotaFS.Quota.RemoveStat | wings/internal/ufs/fs_unix.go:308-333 | removes a file or an empty directory and reports what it was, or changes nothing |
| QuotaFS.Quota.Remove | wings/internal/ufs/fs_quota.go:114-130 | charges a removed regular file its size, nothing otherwise |
| QuotaFS.Quota.RemoveAll | wings/internal/ufs/fs_quota.go:139-159 | survivors, result and charge of a recursive delete by path, and exactly when that charge is what was removed; escaping paths and the base itself are rejected untouched |
| QuotaFS.Quota.RemoveAllPath | wings/internal/ufs/removeall_unix.go:31-74 | the same for a cleaned relative path, whether the fast or the recursive way is taken |
| QuotaFS.Quota.Mkdir | wings/internal/ufs/fs_unix.go:192-214 | exactly when it adds a directory; else nothing changes |
| QuotaFS.Quota.MkdirAll | wings/internal/ufs/mkdir_unix.go:14-63 | exactly when it succeeds, and then adds exactly the missing directories on the way; on failure only some of them |
| QuotaFS.Quota.OpenFile | wings/internal/ufs/fs_unix.go:264-277 | exactly when a regular file is opened or created; the tree and sizes afterwards |
| QuotaFS.Quota.TouchPath | wings/internal/ufs/fs_unix.go:613-645 | exactly when the parent is a directory or can be made, with its missing parents; opening the file means the same afterwards |
| QuotaFS.Quota.Touch | wings/internal/ufs/fs_unix.go:597-607 | exactly when the file can be opened with its missing parents; the tree and sizes afterwards |
| QuotaFS.Quota.Rename | wings/internal/ufs/fs_unix.go:438-515 | exactly when a subtree is moved to a free name; one accounted step; only two equal spellings of one path are a success that does nothing |
| Pruning.PruneMeaning | wings/server/filesystem/filesystem.go:408-462 | which entries a denylist-respecting delete keeps: a file iff it or a directory from the target down is denylisted, a directory also iff something in it stays |
| Pruning.PruneIdempotent | wings/server/filesystem/filesystem.go:408-462 | pruning twice is pruning once |
| Pruning.PruneReached | wings/server/filesystem/filesystem.go:424-462 | once all entries are done, removing the directory iff it is empty yields the prune |
| Accounting.CanFitMeaning | wings/internal/ufs/fs_quota.go:82-109 | the guard lets through exactly: everything without a limit or with unknown usage, what fits, and every sum beyond 2^63 - 1 |
| Accounting.WithDirsMeaning | wings/internal/ufs/mkdir_unix.go:14-63 | adding missing directories adds exactly the prefixes of the path and keeps the tree well formed |
| Accounting.MoveMeaning | wings/internal/ufs/fs_unix.go:438-515 | a move keeps the tree well formed and moving back restores it |
| Accounting.BytesOfMove | wings/internal/ufs/fs_unix.go:438-515 | a move keeps the disk usage and the absence of hard links |
| Accounting.RenameMeaning | wings/internal/ufs/fs_unix.go:438-515 | entry by entry: whatever was at or below the old path is at or below the new one, nothing is left, every other entry is unchanged, and only directories on the way to the new path are added |
| Accounting.WriteMeaning | wings/server/filesystem/filesystem.go:143-190 | a write leaves a file of exactly the bytes that got through, counted instead of the earlier ones, and changes nothing else but missing directories |
| Accounting.CopyMeaning | wings/server/filesystem/filesystem.go:305-357 | a copy leaves the bytes copied over those of an earlier file, counts them all, and changes nothing else |
| Accounting.CreateMeaning | wings/internal/ufs/fs_unix.go:264-277 | opening without truncating leaves an earlier file alone and adds an empty one otherwise |
| Accounting.ChunkMeaning | wings/server/filesystem/compress.go:340-353 | a chunk extends the file to where it ends unless the file went on, counts all its bytes, and changes nothing else |
| Accounting.BytesOfUnlink | wings/server/filesystem/disk_space.go:162-202 | removing a name frees the inode's size unless it has another name |
| Accounting.ChargeMeaning | wings/internal/ufs/fs_quota.go:114-169 | the charge for a removal is at least the bytes freed, and equal iff no removed file with a size had another name |
| Accounting.DeleteAgreement | wings/internal/ufs/fs_quota.go:114-169 | an exact counter stays exact over a delete, refused removals included, iff no refused file has a size, and nothing is left to count or no removed file with a size had another name |
| Accounting.StepValid | wings/server/filesystem/filesystem.go:143-357 | every operation keeps the disk well formed and free of hard links |
| Accounting.StepAgreement | wings/server/filesystem/filesystem.go:143-357 | for every operation: an exact counter stays exact iff the stated condition holds |
| Accounting.RunAgreement | wings/server/filesystem/disk_space.go:132-160 | over every sequential run from a tree without hard links, without refused files that have a size and without copies or extractions over such files, the counter is what a walk computes and a refresh changes nothing |
| Accounting.RunAgreementMeaning | wings/server/filesystem/disk_space.go:132-160 | without hard links, an exact counter is exact at every step of a run iff no step is a refused removal of a file with a size or a copy or extraction over one |
| Accounting.GuardMeaning | wings/server/filesystem/filesystem.go:156-183 | a guarded write or copy stays within the limit, however many bytes get through, iff the guard's sum does not wrap around (or the limit is 2^63 - 1) |
| Accounting.StepWithinLimit | wings/internal/ufs/fs_quota.go:82-109 | from a usage within the limit a step whose guarded sum does not wrap around ends within it; a refresh does iff the files on the disk are within it |
| Accounting.RunWithinLimit | wings/internal/ufs/fs_quota.go:82-109 | over every run in which that sum does not wrap around and which refreshes only while the files are within the limit, usage stays within it at every step, however early copies end |
| Accounting.ExactRunWithinLimit | wings/internal/ufs/fs_quota.go:82-109 | over the runs on which the counter stays exact, and in which that sum does not wrap around, the files on the disk stay within the limit at every step, refreshes included |
| Accounting.OverflowPassesTheGuard | wings/internal/ufs/fs_quota.go:82-109 | without the bound on the sum a guarded write can end above the limit |
| CopyNames.ExtMeaning | wings/server/filesystem/filesystem.go:359-372 | the extension is a suffix of the name, so taking it off and putting it back gives the name |
| CopyNames.ExtOfOne | wings/server/filesystem/filesystem.go:359-372 | the extension starts at the last dot |
| CopyNames.ExtOfTar | wings/server/filesystem/filesystem.go:359-372 | ".tar" in front of it is taken along |
| CopyNames.ExtOfNone | wings/server/filesystem/filesystem.go:359-372 | a name without a dot has none |
| CopyNames.CandidateMeaning | wings/server/filesystem/filesystem.go:276-303 | candidate 0 is the name, 1 has " copy", 2 to 49 " copy " and the number before, 50 " copy." and the time, each between name and extension |
| CopyNames.CandidatesDiffer | wings/server/filesystem/filesystem.go:276-303 | no two of the 51 candidates are the same, for every time stamp |
| CopyNames.CopyNameMeaning | wings/server/filesystem/filesystem.go:305-336 | the suffix goes between the name and its extension |
| CopyNames.FreeIndexMeaning | wings/server/filesystem/filesystem.go:276-303 | all candidates before the chosen one are taken, and it is taken itself only if it is the last |
| CopyNames.FindCopySuffix | wings/server/filesystem/filesystem.go:276-303 | the loop over 51 suffixes yields the first free candidate, the last one if all are taken |
| CopyNames.CopyNameIsProper | wings/server/filesystem/filesystem.go:276-303 | every candidate is a single path component |
| FilesystemOps.Filesystem.UpdateCachedDiskUsage | wings/server/filesystem/disk_space.go:132-160 | stores the full walk's sum as usage: a refresh step |
| FilesystemOps.Filesystem.Write | wings/server/filesystem/filesystem.go:143-190 | writes iff the change fits and the file can be opened, and then is one accounted step with exactly the bytes that got through, whatever fails afterwards; nil iff nothing failed |
| FilesystemOps.Filesystem.CreateDirectory | wings/server/filesystem/filesystem.go:194-196 | exactly when it succeeds; adds directories only, and then exactly the missing ones |
| FilesystemOps.Filesystem.Copy | wings/server/filesystem/filesystem.go:305-357 | copies iff the source is a regular file that fits and the duplicate can be opened; one accounted step with exactly the bytes copied; nil iff nothing failed |
| FilesystemOps.CopyTargetMeaning | wings/server/filesystem/filesystem.go:276-336 | the duplicate has the first of the candidates 1 to 50 before which all are taken; it never goes onto the source, and onto another entry iff all 51 names are taken |
| FilesystemOps.Filesystem.ExtractFile | wings/server/filesystem/compress.go:304-368 | the chunked loop is a run of accounted steps; the file ends with the chunks that were done, all of them unless one does not fit or cannot be written; onto a new file each step keeps the counter exact |
| FilesystemOps.TotalMeaning | wings/server/filesystem/compress.go:304-368 | the length of an extracted file is the sum of its chunks |
| FilesystemOps.Filesystem.WriteChunk | wings/server/filesystem/compress.go:340-353 | exactly when a chunk is written and added; else nothing changes |
| FilesystemOps.Filesystem.Delete | wings/server/filesystem/filesystem.go:400-402 | the recursive delete below the base: one accounted step in which every entry that cannot be removed was refused |
| FilesystemOps.Filesystem.SafeDeleteRecursively | wings/server/filesystem/filesystem.go:408-462 | computes the prune when no removal is refused and removes nothing the prune keeps otherwise; one accounted step in which only entries at or below the target were refused |
| FilesystemOps.Filesystem.SafeDeleteDirectory | wings/server/filesystem/filesystem.go:424-462 | the loop over the entries of a directory does the same |
| FilesystemOps.Filesystem.SafeDeleteEntry | wings/server/filesystem/filesystem.go:431-454 | one entry of it, and whether it remains |
| Walk.PreorderIsBelow | wings/internal/ufs/walk_unix.go:37-90 | the documented order lists everything below the root once, directories first |
| Walk.VisitedMeaning | wings/internal/ufs/walk_unix.go:37-90 | an entry is visited iff no earlier answer took it out |
| Walk.CutsMeaning | wings/internal/ufs/walk_unix.go:37-90 | SkipDir at a directory takes out what is below it, elsewhere what is in its directory; SkipAll and errors everything, Continue nothing |
| Walk.OrderFollowsListing | wings/internal/ufs/walk_unix.go:59-90 | what lies in a directory comes in the order of its listing, subtree after subtree |
| Walk.WalkDir | wings/internal/ufs/walk_unix.go:37-90 | calls the callback on exactly the entries the documented order keeps, and returns what cuts the walk outside |
| Walk.WalkChildren | wings/internal/ufs/walk_unix.go:59-90 | the loop over the entries of a directory does the same for its subtrees |
| Walk.WalkDirat | wings/internal/ufs/walk_unix.go:23-35 | the same from a root; SkipDir and SkipAll are no errors, a missing root goes to the callback |
| DiskSpace.DirectorySize | wings/server/filesystem/disk_space.go:162-202 | the bytes of the distinct inodes below the root, for every listing order |
| DiskSpace.PartGrows | wings/server/filesystem/disk_space.go:175-199 | one visited entry adds its size unless its inode was met before |
| DiskSpace.AddSizes | wings/server/filesystem/disk_space.go:175-199 | the callback's variables after any number of calls |
| Power.StepKeepsInv | wings/server/power.go:56-165 | every step of every caller keeps: one holder, bodies of start, stop and restart hold the lock, the log is properly bracketed |
| Power.MutualExclusion | wings/server/power.go:69-121 | over all interleavings at most one holder, and no two start, stop or restart bodies at once |
| Power.ExclusiveSection | wings/server/power.go:69-121 | between an acquire and its own release nobody else acquires, releases, or calls the environment other than to kill |
| Power.ForeignReleaseBreaksExclusion | wings/system/locker.go:64-71 | a release by somebody who does not hold the lock would let a second caller in |
| Power.Locker.Acquire | wings/system/locker.go:34-43 | succeeds iff the lock was free; held afterwards either way |
| Power.Locker.TryAcquire | wings/system/locker.go:47-60 | where the wait ends: succeeds only on a free lock, fails only when the context has ended |
| Power.Locker.Release | wings/system/locker.go:64-71 | the lock is free afterwards, whoever held it |
| Power.Server.Take | wings/server/power.go:82-121 | a caller that waits does so only on a lock that is held, and fails only after all its patience; any other gets the lock iff it is free |
| Power.Server.HandlePowerAction | wings/server/power.go:56-165 | runs in steps of the system and makes, between its own acquire and release, exactly the calls of its action until one fails: check, prepare and start; wait for the stop; wait, prepare and start; terminate; a kill runs without the lock if it must; a refused call does nothing; it had seen the lock held, or had no patience at all, and a waiting one is refused only after all its patience |
| Power.Server.RunBody | wings/server/power.go:123-165 | which environment calls each action makes, in which order, and with which error it stops |
| Environment.CrashMeaning | wings/server/server.go:390-431 | the crash handler fires iff a stream ends right after starting or running, or an operation that sets offline was overtaken |
| Environment.CrashAtMeaning | wings/server/server.go:409-422 | a crash is a change to offline right after starting or running |
| Environment.OvertakenMeaning | wings/server/server.go:390-431 | an operation that knew the server to be down and sets it offline counts as a crash iff another one brought it up in between and it stayed up |
| Environment.CrashesAreStreamEnds | wings/server/server.go:390-431 | the crashes of a run are exactly the streams that end in starting or running iff no operation was overtaken |
| Environment.OvertakenTermination | wings/environment/docker/power.go:292-346 | such an overtaken termination exists |
| Environment.FitsKeepsDiscipline | wings/environment/docker/environment.go:199-213 | setting offline only after setting stopping, or seeing offline, is kept by every call that does so |
| Environment.Environment.OnStateChange | wings/server/server.go:390-431 | tracks the state and starts the crash handler iff it went from starting or running to offline |
| Environment.Environment.SetState | wings/environment/docker/environment.go:199-213 | the state, the trace and the crash count afterwards |
| Environment.Environment.Attach | wings/environment/docker/container.go:49-66 | attached afterwards iff it was or the attach succeeds |
| Environment.Environment.StreamEnds | wings/environment/docker/container.go:76-82 | offline and detached; counts as a crash iff it was starting or running |
| Environment.Environment.SeesStartupLine | wings/server/listeners.go:156-189 | a starting server becomes running, any other is left alone |
| Environment.Environment.Start | wings/environment/docker/power.go:51-128 | the state changes of every outcome; alone, it never counts as a crash |
| Environment.Environment.Terminate | wings/environment/docker/power.go:273-347 | its own events along every branch, others interleaved: stopping, then offline iff it succeeds on a running container; when it succeeds; alone, never a crash |
| Environment.Environment.AwaitStop | wings/environment/docker/power.go:312-346 | the polling loop ends with offline iff it reports success |
| Environment.StopsInTimeMeaning | wings/environment/docker/power.go:312-346 | it does iff the first poll that does not see the container running sees it stopped or gone, or without such a poll the last kill works |
| Environment.Environment.Stop | wings/environment/docker/power.go:137-200 | its own events in every configuration, others interleaved; alone, never a crash, and a server that was up is stopping afterwards, or offline and detached if the container is gone |
| Environment.Environment.SendCommand | wings/environment/docker/container.go:326-344 | the stop command marks the server as stopping iff attached |
| Environment.Environment.Destroy | wings/environment/docker/container.go:300-321 | stopping, then offline, whatever Docker answers; a container that is gone is no error |
| Crash.CrashHandler.HandleServerCrash | wings/server/crash.go:50-107 | restarts iff it is a crash and the last restart is a timeout ago; stamps stay a timeout apart |
| Crash.RestartsAreApart | wings/server/crash.go:85-106 | any two automatic restarts are at least as many timeouts apart as their distance in the sequence |
| ScanReader.CrlfAt | wings/system/utils.go:15-18 | the substitution position by position |
| ScanReader.ContentMeaning | wings/system/utils.go:72-80 | it is made in every chunk on its own, wherever the chunk stands |
| ScanReader.ContentLength | wings/system/utils.go:72-80 | no byte is added or lost by it |
| ScanReader.ScanConserves | wings/system/utils.go:46-121 | emitted plus dropped bytes are the substituted input |
| ScanReader.ScanBounds | wings/system/utils.go:70-100 | every event has 1 to 65536 bytes; at most 256 are dropped, only after a full one |
| ScanReader.ShortLines | wings/system/utils.go:46-121 | lines of at most 65536 bytes are emitted whole, in order, without empty ones |
| ScanReader.LongLine | wings/system/utils.go:80-100 | events and drops of a line make up the line; all events but the last are full; beyond 65536 + 256 bytes there is more than one |
| ScanReader.MoreThanOneEvent | wings/system/utils.go:80-100 | a line gives more than one event iff text follows the chunk with which it goes beyond 65536 bytes |
| ScanReader.OneEventUpTo | wings/system/utils.go:80-100 | with full 256-byte chunks a line gives at most one event iff it has at most 65536 + 256 bytes |
| ScanReader.LineByLine | wings/system/utils.go:57-121 | a line is cut up independently of its neighbours |
| ScanReader.UnfinishedLine | wings/system/utils.go:101-110 | an unfinished line of at most 65536 bytes is emitted whole, at the end of the stream and on a read error alike, except for a read error right after a full buffer: then it is lost |
| ScanReader.FillBuffer | wings/system/utils.go:63-106 | one round of the inner loop is one event of the specification |
| ScanReader.ScanReader | wings/system/utils.go:46-121 | the events are those of the specification; an error iff reading fails |
| Sinks.HoldsSuffix | wings/system/sink_pool.go:98-121 | whenever it is read, a channel holds the latest messages in order without a gap |
| Sinks.UnreadHoldsLast | wings/system/sink_pool.go:98-121 | unread it holds exactly the last messages up to its capacity |
| Sinks.RemoveFirstTakesOne | wings/system/sink_pool.go:40-65 | one registration less and nobody else's; still registered iff it was registered twice |
| Sinks.SinkPool.On | wings/system/sink_pool.go:32-36 | appends the channel; a pool without closed or repeated channels stays one iff the channel is new to it and open |
| Sinks.SinkPool.Off | wings/system/sink_pool.go:40-65 | removes the first registration and closes the channel; a pool without closed or repeated channels stays one |
| Sinks.SinkPool.Destroy | wings/system/sink_pool.go:69-80 | closes every channel and empties the pool |
| Sinks.SinkPool.Push | wings/system/sink_pool.go:98-121 | every channel gets the message as a ring buffer, once per registration; that no channel is closed is what the runs of the whole pool supply |
| Sinks.RunConserves | wings/system/sink_pool.go:98-121 | over all interleavings of pushes and reads each message is in exactly one place |
| Sinks.RunIsOrdered | wings/system/sink_pool.go:98-121 | with one push at a time messages are received in order, and evicted ones are older than buffered ones |
| Sinks.ConcurrentPushesReorder | wings/system/sink_pool.go:98-121 | two pushes at a time can be reordered |
| Sinks.BlockedMeaning | wings/system/sink_pool.go:98-121 | pushes are stuck iff the channel is empty and every push under way is about to evict (without capacity also to send again) |
| Sinks.EvictionCanBlock | wings/system/sink_pool.go:107-118 | for every capacity above zero a run from the empty channel ends with a push stuck |
| Sinks.FinishMeaning | wings/system/sink_pool.go:98-121 | without new pushes those under way can all end iff none is about to evict from an empty channel that no other one will fill |
| SinkRuns.StepKeepsSafe | wings/system/sink_pool.go:32-121 | with pushes, readers and changes of the pool interleaved: registered channels stay open and registered once iff a channel that is registered is neither registered nor closed |
| SinkRuns.RunIsSafe | wings/system/sink_pool.go:32-121 | over every run from the empty pool: safe throughout iff all registrations are such |
| SinkRuns.RunNeverPanics | wings/system/sink_pool.go:32-121 | on such a run no send reaches a closed channel and none is closed twice |
| SinkRuns.SafeMeaning | wings/system/sink_pool.go:32-121 | in every other idle pool the next push panics, or the one after some removal |
| SinkRuns.RegisteredAgain | wings/system/sink_pool.go:32-65 | registering a removed channel again makes the next push panic |
| SinkRuns.ChannelRun | wings/system/sink_pool.go:98-121 | what a run of the pool does to one channel is a run of that channel |
| SinkRuns.GrantMeaning | wings/system/sink_pool.go:32-121 | a caller that waits for the write lock can still get it iff no channel is starved |
| SinkRuns.WaitsForever | wings/system/sink_pool.go:32-121 | otherwise neither it nor any later push ever gets the lock |
| SinkRuns.LeavingCanBlock | wings/system/sink_pool.go:40-121 | that state is reached with one listener, one push at a time and any capacity |
| RateLimit.Rate.Try | wings/system/rate.go:27-42 | allowed iff fewer than the limit were in the current window; the fields and the history afterwards |
| RateLimit.AtMostTwice | wings/system/rate.go:27-42 | any stretch of time no longer than the duration sees at most twice the limit |
| RateLimit.BothSidesOfAWindow | wings/system/rate.go:27-42 | that bound is reached for every limit and duration: twice the limit within one unit of time |
| RateLimit.ConsoleThrottle.Allow | wings/server/console.go:66-77 | allowed iff the limiter allows it; a denied call strikes iff it is the first or the one before was allowed, resets or not |
| RateLimit.DeniedRunsMeaning | wings/server/console.go:66-77 | strikes equal the number of maximal runs of denied calls |
| SftpCron.AcceptedGrows | wings/internal/cron/sftp_cron.go:130-137 | accepting record by record is accepting the records of the first distinct keys |
| SftpCron.FirstKeysMeaning | wings/internal/cron/sftp_cron.go:169-195 | a key is among those sent iff fewer than the maximum of different ones come before it |
| SftpCron.AllFilesGrow | wings/internal/cron/sftp_cron.go:145-158 | every record adds its files at the end, one without files none |
| SftpCron.MergeMeaning | wings/internal/cron/sftp_cron.go:138-158 | a group keeps its first record, all files in order and the earliest time |
| SftpCron.EventMap.Push | wings/internal/cron/sftp_cron.go:130-195 | the map holds the merges of the first keys and the ids of what went in |
| SftpCron.SftpCron.Collect | wings/internal/cron/sftp_cron.go:47-79 | paging stops at the end or at a page that adds nothing |
| SftpCron.SftpCron.DeleteAll | wings/internal/cron/sftp_cron.go:91-108 | one statement per chunk of 1 to 32000 ids; the chunks put together are a prefix of the ids, all of them if no error occurs |
| SftpCron.SftpCron.Run | wings/internal/cron/sftp_cron.go:41-110 | nothing is deleted before the Panel accepted; without error exactly the accepted rows are gone, and some were if there were any; every error has its cause |
| SftpCron.DeletedWereSent | wings/internal/cron/sftp_cron.go:41-158 | a row is gone iff it is of one of the first keys; what was sent for its user, server, address, event and minute starts with such a record, contains its files and is no later |
| Transfer.NamesAreUnambiguous | wings/router/router_transfer.go:173-286 | no part name of the sender is taken for another kind or another backup |
| Transfer.SelectedMeaning | wings/server/transfer/archive.go:58-73 | the backups sent are the requested files of the directory |
| Transfer.Send | wings/server/transfer/source.go:73-142 | the parts and their order |
| Transfer.PartsMeaning | wings/server/transfer/source.go:73-142 | "archive", "checksum_archive", then "backup_" and "checksum_backup_" for every backup in order, and "install_logs" last iff there are any |
| Transfer.Receive | wings/router/router_transfer.go:149-360 | successful iff no step failed, the environment is set up, and what arrived verifies, an archive by the bytes the extractor reads of it |
| Transfer.DeliveredIsVerified | wings/server/transfer/source.go:73-142 | what the sender sends is accepted iff the extractor reads the archive to its end (or the hash does not tell), and every backup ends up as it was |
| Transfer.AcceptedIsGenuine | wings/router/router_transfer.go:298-343 | however parts are dropped, repeated, reordered or corrupted, with genuine checksum fields an accepted transfer has the archive and backups that were sent, and extracted nothing else iff one archive part arrived |
| Transfer.EarlierArchivesAreUnchecked | wings/router/router_transfer.go:175-200 | an archive extracted before the last one is covered by no checksum |
| PanelServers.ValueMeaning | panel/internal/api/remote/servers.go:226-233 | a server's own value wins over the default, the first one if there are several |
| PanelServers.EnvMeaning | panel/internal/api/remote/servers.go:224-234 | a name is in the environment iff it is that of a variable of the egg, with the value of the last such variable |
| PanelServers.MappedMeaning | panel/internal/api/remote/servers.go:239-251 | every address is mapped to its ports in order |
| PanelServers.EnvOfServer | panel/internal/api/remote/servers.go:224-234 | in terms of the tables: the last variable of the egg with a name, with the first value of the server for it or the default |
| PanelServers.MappingOfServer | panel/internal/api/remote/servers.go:241-254 | in terms of the tables: an address has the ports of the server's allocations there, in order |
| PanelServers.PrimaryNamed | panel/internal/api/remote/servers.go:243-248 | the default allocation is the one the server names, if it is the server's |
| PanelServers.PrimaryFirst | panel/internal/api/remote/servers.go:249-251 | otherwise it is the server's first |
| PanelServers.ConfigMeaning | panel/internal/api/remote/servers.go:223-254 | exactly the variables of the egg and the addresses of the server are there; without allocations one empty entry and no default |
| PanelServers.MountsOfServer | panel/internal/api/remote/servers.go:18-219 | exactly the mounts joined with the node and the egg are there, in the list once per pair of join rows |
| PanelServers.OnNodeMeaning | panel/internal/api/remote/servers.go:18-40 | the list is about the servers of the node |
| PanelServers.FilterTwice | panel/internal/api/remote/servers.go:132-160 | filtering rows read for all servers gives the rows read for one |
| PanelServers.BuildServerConfig | panel/internal/api/remote/servers.go:223-254 | environment, mappings and default allocation from the rows |
| PanelServers.CountAll | panel/internal/api/remote/servers.go:75-93 | the grouped mounts contain a mount once per pair of join rows |
| PanelServers.List | panel/internal/api/remote/servers.go:18-130 | every server of the node gets its own configuration, its mounts once per pair of join rows |
| PanelServers.Get | panel/internal/api/remote/servers.go:162-219 | not found iff no server has the number; else the configuration of one that has |
| PanelServers.GetOne | panel/internal/api/remote/servers.go:176-219 | one server's configuration, each mount once |
| PanelServers.ListAgreesWithGet | panel/internal/api/remote/servers.go:18-219 | both build the same environment, allocations and set of mounts; the same multiset iff no join rows are duplicated |

## Left out

- Symbolic link resolution, special files, `openat2`, permissions, ownership and times of files, and errors of reading a directory.
- Changes to a directory by somebody else during an operation, and concurrent calls of `Quota.Add`.
- QuotaFS.Quota.Mkdir: the double-check after a refused `mkdir` only matters when somebody else creates the directory; nobody does here.
- QuotaFS.Quota.Rename: takes component lists; whether both strings are equal is a parameter.
- FilesystemOps.Filesystem.Write: takes component lists; the string form of a path is modelled for `unsafePath` and `RemoveAll`, and a symbolic link as target is refused.
- FilesystemOps.Filesystem.ExtractFile: a failing write of a chunk leaves no bytes behind, no file grows beyond 2^63 - 1 bytes, and only the single-file case of `extractStream` is modelled.
- FilesystemOps.Filesystem.SafeDeleteRecursively: the tree it leaves when a removal is refused is only bounded, since it stops at the first error, wherever the kernel's listing order puts that.
- `RemoveContents`, `TruncateRootDirectory`, `CompressFiles`, `Writefile`, `Symlink` and the SFTP server's own writes.
- DiskSpace.DirectorySize: the callback's calls are made in a loop over the visited entries, and its errors cannot occur on a tree nobody changes.
- RateLimit.Rate.Try: does not model the wrap-around of the counter at a limit of 2^64 - 1.
- Power.Server.HandlePowerAction: the waiting time is counted in steps of others, and `Destroy` of the lock happens after all calls.
- Environment.Environment.Attach: the test for an attached stream and the attaching are one step.
- Environment: the event bus is synchronous, one handler run per event; the console echo and the installer, which set offline directly, are not part of the model; the reader goroutine is represented by its end.
- Crash.CrashHandler.HandleServerCrash: handler runs are atomic, and the power action that follows a restart stamp is not followed up.
- Sinks.SinkPool.Push: the method takes the sends to different channels one after the other; their interleavings are the subject of the transition systems of `Sinks` and `SinkRuns`, in which a channel belongs to one pool and the goroutine of a nil channel ends at once.
- SftpCron.SftpCron.Run: the order of the rows is the same in every query of one run.
- Transfer: cancellation is a prefix of the parts; nothing is claimed about backups that did not arrive; install logs are not verified by the source either.
- PanelServers.List: the fields copied from the server row, the invocation text (map iteration order is unspecified) and the process configuration, which both requests take from the same function.
- The websocket, SFTP, authentication, installer, backup and configuration-file parts of the daemon, and the rest of the Panel.
