# A verified model of the f4kvs LSM engine

The project models the storage engine of `crates/f4kvs-lsm`: memtables, the write-ahead log, sorted
files, flushes, level-0 compaction, crash recovery and prefix scans. It proves that the engine is a
plain map from keys to values, in every intermediate state and across crashes, and it states exactly
where the code falls short of that.

`dafny verify dfyconfig.toml` checks everything.

## How the modules fit together

| layer | modules | what is shown |
|---|---|---|
| bytes | `LittleEndian`, `FlatIndex`, `BloomFilter`, `BlockFormat`, `CacheKeys`, `SsTable`, `WalFrame`, `FileNames` | what is written is read back: index records, filter bits, blocks, whole files, log segments, file names |
| counters and caches | `MapSum`, `Memtable`, `BlockCache` | the incremental numbers agree with what they summarise |
| meaning | `Keys`, `Entries`, `Versions`, `Search` | a set of timestamped entries read as a map: the newest entry of a key decides |
| reads | `ReadPath`, `ScanViews`, `ScanResume`, `PrefixScan` | the layered lookup and the cursor merge compute that map, and what a scan sees that resumes below its prefix |
| compaction | `Merge`, `Compaction`, `Removal`, `Reclaim` | merging keeps the newest live entries, installing and crashing keep all reads, which reads a crash among the removals changes, no reader loses its file |
| log | `WalLog` | sort, checkpoint filter and replay, and the record that decides a key |
| engine | `Engine`, `EngineMemory`, `EngineFlush`, `EngineCompact`, `EngineRewrite`, `EngineCrash`, `Loading` | a state machine whose steps are the lock regions and disk writes of the source, and its invariant |
| runs | `Runs`, `EngineRuns`, `EngineJournal`, `EngineLosses`, `EngineRemoval`, `EngineClearing`, `EngineScans` | theorems over all runs: reads, crashes, numbers, what the log gives back, what is lost and when, crashes among removals, what a rewrite of level 0 uncovers, paged scans |
| calls | `LsmSteps`, `LsmRewrite`, `LsmTree`, `LsmClient` | the engine as a class, each method a sequence of machine steps or a rewrite, with the compaction check after a flush and the key count; what a caller may conclude over any sequence of calls |

The state machine (`Engine.State`, `Engine.Action`, `Engine.Enabled`, `Engine.Do`) interleaves any number
of writers, one flush (swap, take a file number, write the file, record the counter, publish, drop the
immutable table), one compaction of level 0 into level 1 or of level 0 into itself (start, write each
output, install, remove each input), removals of any log records, checkpoints, a clock that may do
anything, and crashes. Logged writes may reach the memtable in any order. `Engine.Inv` is kept by every
step (`EngineRuns.StepKeepsInv`): reads are right in every state, and a crash shows exactly what the log
replays over the files (`EngineRuns.CrashShowsSurvivors`). What the log owes to the writes is a matter of
the run: `EngineJournal.CrashLosesNothing` gives a key back as the records handed over leave it when every
step was careful about it (`EngineJournal.CarefulFor`), and `EngineLosses` says exactly what a careless
step costs.
`LsmTree.LsmTreeEngine` performs sequences of those steps, and the rewrites of the compaction check; its
class invariant is the machine's, and its constructor and methods show that such runs exist.
`Loading.Reopen` scans the directory, replays the log and is proved to perform the machine's crash step.

Compression, serialisation, checksums and hashing are function parameters with the round trips they
need (`Lossless`). The clock is a parameter. Keys are byte strings, values are opaque except `Null`.

## Where the code does not meet its promise

Each point is a lemma or a contract: a concrete failing input, or the exact condition.

- Inputs of a compaction are removed one by one, level 0 first. A crash in between can bring a deleted
  value back (`Removal.CrashAfterTombstoneRemoved`) or hide a live key
  (`Removal.CrashAfterFirstRangeRemoved`). For any inputs removed, `Removal.RemovalKeepsReadIff` says exactly
  which keys the files answer as before, and `EngineRemoval.CrashAmidRemovalIff` says which keys the reopened
  engine does, with the replayed log over the files, at every moment of every run
  (`EngineClearing.CrashAmidClearingIff` for a rewrite of level 0). Removing level 1 from the highest range
  down and then level 0 from the oldest file on would be harmless at every point
  (`Removal.SafeOrderKeepsReads`).
- The rewrite of level 0 that runs after a flush drops tombstones that still cover deeper values: a deleted
  value becomes readable again (`EngineClearing.RewriteBringsBack`), exactly under the condition of
  `Compaction.RewriteChangesReadIff`, in any state of any run (`EngineClearing.RewriteUncoversIff`).
  `LsmTree.LsmTreeEngine.Put` says which keys a put may bring back that way. The key count does not notice,
  and deleting such a key again can take it below zero: `LsmClient.DeletedKeyWraps` performs a sequence of
  calls that ends with an empty map and a count of 2^64 - 1.
- Two writers of one key take the log lock and the memtable lock one after the other and can pass each
  other in between: readers see one value, a crash brings the other (`EngineLosses.RacingWritersDiffer`).
  A crash keeps the shown value exactly if the write applied last agrees with the record that decides in
  the log (`EngineLosses.CrashKeepsAppliedIff`).
- A shutdown flushes and then wipes the log without keeping writers out. A write that arrives in between
  is acknowledged, readable and gone after the reopen (`EngineLosses.LateWriteIsLost`), also if a later flush
  has already swapped it out of the memtable (`EngineLosses.SwappedWriteIsLost`); each key survives exactly
  under the condition of `EngineLosses.ShutdownKeepsIff`, and all do if no write is applied after
  the final swap (`EngineLosses.QuietShutdownLosesNothing`).
- Truncation removes segments in directory order; a crash after a newer segment went first revives
  what it had overwritten (`WalFrame.NewestRemovedFirstRevives`). For any set of segments removed,
  `EngineLosses.RemovalShowsIff` says exactly which keys reopen as before. Oldest-first removal is safe
  (`WalFrame.OldestRemoved`, `WalLog.SuffixReplay`).
- A scan handed out page by page pins its files at the start and reads the memtables anew for each page.
  A flush that ends between two pages hides the keys it moved, except where the pinned files happen to
  answer them alike (`EngineScans.FlushHidesIff`, `EngineScans.PagesReturnIff`; a losing run is
  `EngineScans.FlushedKeyIsMissed`).
- Recovery sorts the log by timestamp and skips what the last checkpoint covers, in whole seconds. The
  record it ends with for a key is the one stamped last, the later one of two stamped alike, if every
  checkpoint in the log is stamped earlier (`WalLog.RecoveryEndsWith`). So a write in the same second as a
  checkpoint left in the log is lost, and so is one that a clock set back has stamped earlier than an older
  record of its key (`WalLog.WriteSurvivesIff`, `WalLog.SortKeepsLastWriteIff`, `WalLog.SortKeepsOrderIff`).
- A record too large for a fresh segment is dropped and reported as written
  (`WalFrame.FrameWalManager.WriteEntry`).
- A record cut short by a crash costs the whole segment as soon as four bytes of it arrived
  (`WalFrame.TornRecord`).
- Putting a block that is already resident leaves the cache counter too high
  (`BlockCache.PutKeepsExactIff`); the size bound still holds.
- A resume key below the prefix shuts every file and memtable that holds a key in between: a scan can miss
  keys, or return an overwritten or deleted value from an older file (`ScanResume.SupersededIsReturned`).
  `PrefixScan.ScanNext` says what such a call returns, and `ScanResume.ResumeIsRightIff` when that is right
  (`Memtable.FirstKeyIsFirstDue`, `ScanViews.SeekFindsDueIff` for the single lookups).
- Putting `Null` deletes the key but counts one key too many (`LsmSteps.PutCounts`). The count is the number
  of live keys exactly if the puts of `Null` and the keys brought back by rewrites agree modulo 2^64
  (`LsmClient.Perform`, `LsmClient.CountAfter`).

## Model

| member | source | states |
|---|---|---|
| EngineRuns.StepKeepsInv | crates/f4kvs-lsm/src/core/engine.rs:1778-1996 | Every atomic step keeps the engine invariant: writers in any order, flush, compaction, level-0 rewrite, removal of any log records, checkpoint, any clock, crash |
| EngineRuns.RunKeepsInv | crates/f4kvs-lsm/src/core/engine.rs:1778-1859 | The invariant holds in every state of every run from an empty directory |
| EngineRuns.ReadsShowTheMap | crates/f4kvs-lsm/src/core/engine.rs:356-463 | In every such state a point read of any key returns what the plain map of applied writes holds: newest write wins in every intermediate state |
| EngineRuns.CrashShowsSurvivors | crates/f4kvs-lsm/src/core/engine.rs:1265-1494 | After a crash at any moment of any run a read returns the last record the log replays for the key, or else what the files hold; a second crash changes nothing |
| EngineJournal.CrashLosesNothing | crates/f4kvs-lsm/src/core/engine.rs:1265-1494 | In any interleaving of concurrent puts, deletes, batches, flushes, compactions and truncations, a crash at any moment gives a key back as the last of all records its callers have handed over leaves it, counting every record of every batch, applied or not, if the steps were careful about that key: its writes applied in log order, nothing of it forgotten that only memory holds, a clock that moves on |
| EngineJournal.ReadsShowTheGiven | crates/f4kvs-lsm/src/core/engine.rs:2590-2639 | In such a run, once as many records are applied as were handed over, a read returns what the last one handed over for the key says |
| EngineJournal.CheckpointEndsReplay | crates/f4kvs-lsm/src/storage/wal_frame.rs:701-717 | In such a run nothing is replayed behind a checkpoint, although the log still holds every record before it: a crash leaves the key to the files |
| EngineJournal.GivenIsStamped | crates/f4kvs-lsm/src/core/engine.rs:2601-2618 | Every record of a run is stamped with the time of the last tick before it |
| EngineJournal.CrashGivesBackIff | crates/f4kvs-lsm/src/core/engine.rs:1342-1462 | In every reachable state a crash gives a key back exactly if the record that decides for it in the log has its last logged value, or none decides and the files answer for it |
| EngineLosses.CrashKeepsAppliedIff | crates/f4kvs-lsm/src/core/engine.rs:2424-2458 | Of writers racing on one key, a crash keeps what readers saw exactly if the write applied last agrees with the record that decides in the log, or with the files if none does |
| EngineLosses.RacingWritersDiffer | crates/f4kvs-lsm/src/core/engine.rs:2424-2458 | A run of two puts that pass each other between log and memtable: readers see one value, a crash brings the other |
| EngineLosses.GuardedFlushMayTruncate | crates/f4kvs-lsm/src/core/engine.rs:3711-3764 | A flush under the exclusive guard, with no write on its way, leaves a state in which emptying the log loses nothing of any key |
| EngineLosses.ShutdownKeepsIff | crates/f4kvs-lsm/src/core/engine.rs:3853-3872 | After the checkpoint and truncation of a shutdown, with whatever writes and flushes still under way, a key reopens as before exactly if no memtable holds it or the files answer it like the memtables |
| EngineLosses.QuietShutdownLosesNothing | crates/f4kvs-lsm/src/core/engine.rs:3853-3872 | A shutdown loses nothing if no write is applied between the final swap and the truncation |
| EngineLosses.LateWriteSurvivesIff | crates/f4kvs-lsm/src/core/engine.rs:3853-3872 | The last write applied to a key survives the shutdown, wherever a flush has taken it by then, exactly if the files answer its key alike |
| EngineLosses.LateWriteIsLost | crates/f4kvs-lsm/src/core/engine.rs:3853-3872 | A run in which a put that arrives during shutdown is readable and gone after the reopen |
| EngineLosses.SwappedWriteIsLost | crates/f4kvs-lsm/src/core/engine.rs:1737-1771 | The same run with the put already swapped into the immutable table by a flush of its own |
| EngineLosses.RemovalShowsIff | crates/f4kvs-lsm/src/storage/wal_frame.rs:662-687 | With nothing of the key in memory and any set of records removed, a reopen shows the key as before exactly if no record of it remains behind the last remaining checkpoint or the last one there has the value of its last record in the full log |
| EngineScans.PagesReturnIff | crates/f4kvs-lsm/src/core/engine.rs:513-536 | Pages of a scan taken in different states of a run return a key that is not written meanwhile exactly if it was not in memory when the files were pinned, or is in memory still when its page is taken, or the pinned files answer it alike |
| EngineScans.PagesAreTheMap | crates/f4kvs-lsm/src/core/engine.rs:655-681 | If that holds for every key with the prefix, the concatenated pages are the client's map, filtered by the prefix and sorted |
| EngineScans.ReadInPages | crates/f4kvs-lsm/src/core/engine.rs:655-681 | A caller that pins the files and takes pages from whatever the memtables are by then gets pages of the run, and all of them once the scan reports its end |
| EngineScans.FlushHidesIff | crates/f4kvs-lsm/src/core/engine.rs:482-501 | A flush between two pages hides a key of the memtable from the scan exactly if the pinned files do not answer it alike |
| EngineScans.FlushedKeyIsMissed | crates/f4kvs-lsm/src/core/engine.rs:482-501 | A run in which a put is readable throughout and missed by a scan that a flush overtakes |
| EngineRuns.NeverReused | crates/f4kvs-lsm/src/core/engine.rs:1146-1182 | Over whole runs with crashes and removals, a flush writes a file with a new name and with timestamps above those of every file ever on disk |
| EngineRuns.SlowReadIsRight | crates/f4kvs-lsm/src/core/engine.rs:386-463 | A read that looks at the active memtable, the immutable one and the files at three different moments returns the current value of any key not written meanwhile, whatever flush and compaction steps run in between |
| EngineRuns.QuietKeepsMissing | crates/f4kvs-lsm/src/core/engine.rs:1778-1859 | Data moves only the way a read travels: a key missing in a memtable does not come back to it without a write |
| EngineRuns.PinnedFilesStayRight | crates/f4kvs-lsm/src/core/engine.rs:482-501 | Files pinned at the start of a scan answer like the live files as long as the memtables stay, even if a compaction replaces the live map |
| EngineRuns.StepKeepsSpent | crates/f4kvs-lsm/src/core/engine.rs:1223-1262 | The numbers of a file stay below the recovered counter after the file is gone, because the SEQUENCE file was written before the file was published |
| EngineMemory.ApplyKeepsInv | crates/f4kvs-lsm/src/core/engine.rs:2513-2549 | Applying any logged write, in whatever order, changes reads of its key only, to its value |
| EngineMemory.DropKeepsInv | crates/f4kvs-lsm/src/core/engine.rs:1828-1834 | Dropping the immutable memtable after its file is live changes no read |
| EngineFlush.FirstNameIsFree | crates/f4kvs-lsm/src/core/engine.rs:1880-1895 | In every reachable state the loop that looks for an unused file name stops at its first candidate, and no file on disk has that name |
| EngineFlush.FlushFileAnswers | crates/f4kvs-lsm/src/core/engine.rs:1862-1920 | The file a flush writes holds exactly the keys of the memtable and answers each like the memtable, tombstones included |
| EngineFlush.WriteKeepsInv | crates/f4kvs-lsm/src/core/engine.rs:1899-1920 | A written, unpublished file is newer than everything on disk and disturbs no read and no reload |
| EngineFlush.PublishKeepsInv | crates/f4kvs-lsm/src/core/engine.rs:1924-1988 | Publishing the file next to a running compaction changes no read |
| EngineCompact.InstallKeepsInv | crates/f4kvs-lsm/src/compaction/manager.rs:425-476 | Installing the outputs, next to files flushed meanwhile, changes no read and leaves level 1 sorted, disjoint and free of tombstones |
| EngineCompact.InstalledFiles | crates/f4kvs-lsm/src/compaction/manager.rs:449-472 | Filtering the live map by input paths removes exactly the inputs and keeps concurrent files |
| EngineCompact.UnlinkKeepsInv | crates/f4kvs-lsm/src/compaction/manager.rs:794-816 | Removing an input changes no read and frees no number that could be used again |
| EngineRewrite.InstallRewrittenKeepsInv | crates/f4kvs-lsm/src/compaction/manager.rs:301-377 | Replacing level 0 by its own merge, next to files flushed meanwhile, changes no read if nothing deeper is uncovered |
| EngineRewrite.StartRewriteKeepsInv | crates/f4kvs-lsm/src/compaction/manager.rs:209-301 | Rewriting level 0 may start whenever no compaction runs, next to a flush in any phase |
| EngineCrash.CrashKeepsInv | crates/f4kvs-lsm/src/core/engine.rs:1034-1125 | A crash with a flush and a compaction or rewrite in any phase, up to the removal of inputs, reloads into a state satisfying the invariant |
| EngineCrash.RecoveredIsUnused | crates/f4kvs-lsm/src/core/engine.rs:1146-1182 | The counter rebuilt from file names, entry counts and the SEQUENCE file exceeds every number and timestamp on disk |
| Loading.LoadExistingSstables | crates/f4kvs-lsm/src/core/engine.rs:1059-1125 | Every file that opens lands, once, in the level its name states: level 0 in the order of the directory, the levels below in search order |
| Loading.RecoverCounter | crates/f4kvs-lsm/src/core/engine.rs:1146-1182 | The two scans yield the highest number in use, and the SEQUENCE file is rewritten exactly if the counter moved past it |
| Loading.Reopen | crates/f4kvs-lsm/src/core/engine.rs:1034-1182 | Scanning the directory a crash left behind, rebuilding the counter, reading the log back and replaying it performs exactly the machine's crash step: files, counter and memtable; no level lists a file twice |
| FileNames.FlushNameReadsBack | crates/f4kvs-lsm/src/core/engine.rs:45-77 | For every 64-bit number the zero-padded hexadecimal flush name parses back to that number and to level 0 |
| FileNames.CompactNameReadsBack | crates/f4kvs-lsm/src/core/engine.rs:45-60 | A compaction name parses back to its level and never as a flush number |
| FileNames.CompactNamesAreDistinct | crates/f4kvs-lsm/src/compaction/manager.rs:1250-1255 | Two compaction names are equal only if level, second and unique number are |
| FileNames.NamesAreDistinct | crates/f4kvs-lsm/src/core/engine.rs:1880-1895 | Different flush numbers give different names, and no flush name is a compaction name |
| FileNames.FlushNameWidth | crates/f4kvs-lsm/src/core/engine.rs:1880-1895 | Every 64-bit number is printed with sixteen digits, so all flush names have the same length |
| ReadPath.GetFromMemtables | crates/f4kvs-lsm/src/core/engine.rs:386-402 | The loop over memtables returns the first hit, active table first |
| ReadPath.GetFromSstables | crates/f4kvs-lsm/src/core/engine.rs:404-463 | The loop over levels returns the deciding entry's value: highest timestamp in level 0, else binary search below |
| ReadPath.FindSstablePicks | crates/f4kvs-lsm/src/core/engine.rs:2087-2099 | On files sorted by largest key, overlapping or not, the binary search lands on the first file not ending below the key, or no such file covers the key |
| ReadPath.BestHitIsNewest | crates/f4kvs-lsm/src/core/engine.rs:412-440 | Over overlapping level-0 files the lookup finds the newest entry of the key, and nothing only if no file holds it |
| ReadPath.LayeredReadsNewest | crates/f4kvs-lsm/src/core/engine.rs:404-463 | On layered files, also with overlapping old and new level-1 files, the lookup equals the newest entry over all files |
| Merge.MergeSstables | crates/f4kvs-lsm/src/compaction/manager.rs:560-613 | The merge collects exactly the entries of all inputs, none lost or repeated, by key and newest first |
| Merge.DeduplicateEntries | crates/f4kvs-lsm/src/compaction/manager.rs:1170-1191 | What remains is exactly the newest entry of each key that is not a tombstone, in key order |
| Merge.CutIntoRuns | crates/f4kvs-lsm/src/compaction/manager.rs:1194-1232 | The cut keeps every entry in order; no run is empty or over the target unless it is one entry, and no run could have taken the next entry |
| Merge.CompactSstables | crates/f4kvs-lsm/src/compaction/manager.rs:501-558 | The outputs are sorted files in disjoint ascending ranges holding exactly the newest live entries of the inputs, cut at the target size: none is over it unless it holds one entry, and none could have taken the first entry of the next |
| Compaction.SortFilesSorts | crates/f4kvs-lsm/src/compaction/manager.rs:46-53 | Sorting by largest, then smallest key gives search order and keeps the same files, each as often as it was there |
| Compaction.InstallKeepsReads | crates/f4kvs-lsm/src/compaction/manager.rs:386-476 | Replacing inputs by outputs keeps every read and re-establishes the level-1 shape, with files published during the merge |
| Compaction.CrashKeepsReads | crates/f4kvs-lsm/src/core/engine.rs:1077-1125 | With all inputs and any prefix of the outputs on disk, the reloaded files answer every key as before |
| Compaction.RewriteChangesReadIff | crates/f4kvs-lsm/src/compaction/manager.rs:301-377 | Rewriting level 0 in place changes a read exactly if the newest merged entry is a tombstone, no newer file holds the key and a deeper level holds it live |
| Compaction.RewriteKeepsReads | crates/f4kvs-lsm/src/compaction/manager.rs:301-377 | A rewrite that uncovers nothing keeps every read and the layers |
| Compaction.RewriteCrashKeeps | crates/f4kvs-lsm/src/core/engine.rs:1077-1125 | While the inputs of a rewrite are still on disk, any outputs already written add nothing after a reload |
| Removal.RemovalKeepsReadIff | crates/f4kvs-lsm/src/compaction/manager.rs:794-816 | With any inputs of either level removed and all outputs there, a reload answers a key as before exactly if a newer file holds it; or the remaining level-0 inputs hold it and no removed input held a newer, differently answering entry; or they do not and the search ends at an output, at an input that answers like the newest merged entry, or nowhere |
| EngineRemoval.CrashAmidRemovalIff | crates/f4kvs-lsm/src/compaction/manager.rs:794-816 | At any moment of any run, with later flushes already published, after a crash among the removals the reopened engine answers a key as the client's map does exactly if the record that decides in the log has its value; or, if none does, a memtable held it and the files left say the same, or no memtable held it and the condition on the files left holds |
| EngineRemoval.StepSuperposes | crates/f4kvs-lsm/src/compaction/manager.rs:425-476 | However many inputs are gone, the live files of level 0 and the one in flight stay newer than all inputs, and the outputs stay their merge |
| EngineClearing.CrashAmidClearingIff | crates/f4kvs-lsm/src/compaction/manager.rs:794-816 | The same for the inputs of a level-0 rewrite: right exactly if the log decides for the key's value, or else a newer file holds the key or no remaining input has a value of it whose tombstone is gone |
| EngineClearing.RewriteUncoversIff | crates/f4kvs-lsm/src/compaction/manager.rs:301-377 | In any state of any run, installing a level-0 rewrite changes what a key reads exactly if no memtable and no other level-0 file holds it, its newest merged entry is a tombstone and level 1 has a value, which then comes back |
| EngineClearing.RewriteBringsBack | crates/f4kvs-lsm/src/compaction/manager.rs:301-377 | Two level-0 files over a level-1 file: the rewrite makes a deleted value readable |
| Removal.SafeOrderKeepsReads | crates/f4kvs-lsm/src/compaction/manager.rs:794-816 | Removing level-1 inputs from the highest range down, then level-0 inputs from the oldest on, changes no read at any point |
| Removal.CrashAfterTombstoneRemoved | crates/f4kvs-lsm/src/compaction/manager.rs:794-816 | Of two level-0 inputs the one with a tombstone is removed first: a crash brings the deleted value back from level 1 |
| Removal.CrashAfterFirstRangeRemoved | crates/f4kvs-lsm/src/compaction/manager.rs:794-816 | After level 0 and the lower of two level-1 inputs are removed, a live key of the lower range is hidden; inputs and output are cut under one target size |
| Reclaim.StepKeepsInv | crates/f4kvs-lsm/src/storage/sstable.rs:1798-1874 | Pinning, unpinning, publishing, starting a compaction while earlier inputs are still being removed, installing, marking, checking and unlinking keep the reclaim invariant |
| Reclaim.NoReaderLosesItsFile | crates/f4kvs-lsm/src/storage/sstable.rs:2154-2196 | In every run, told by its actions alone: a file that no compaction has replaced, or that was pinned more often than unpinned, is on disk and cannot be unlinked, and while it is pinned it is not found idle, although check and unlink are separate steps |
| Reclaim.CountIsHeld | crates/f4kvs-lsm/src/storage/sstable.rs:1838-1857 | The reader count of a cell is the number of its pins less the number of its unpins |
| Reclaim.ReclaimsIff | crates/f4kvs-lsm/src/compaction/manager.rs:794-816 | A file is found idle exactly if a compaction has replaced it, it is marked, all its pins are undone and it has been neither unlinked nor left behind; it is unlinked only after that, once |
| Reclaim.LiveUntilSuperseded | crates/f4kvs-lsm/src/compaction/manager.rs:353-377 | The live map holds exactly the files that a flush or compaction has created and no compaction has replaced |
| Reclaim.OnDiskUntilUnlinked | crates/f4kvs-lsm/src/compaction/manager.rs:794-816 | A created file is on disk exactly until it is unlinked, whatever other files come and go |
| Reclaim.InstalledOrReclaimed | crates/f4kvs-lsm/src/compaction/manager.rs:353-377 | After an install every input is still installed or handed to reclaim, and exactly the merged files are handed over |
| Reclaim.OwnCellIsUnsafe | crates/f4kvs-lsm/src/storage/sstable.rs:2150-2158 | If a clone had its own reader count, reclaim would unlink a file under its reader |
| WalLog.RecoverFromWal | crates/f4kvs-lsm/src/core/engine.rs:1342-1462 | Recovery applies exactly the records later than the last checkpoint, in order, to the memtable |
| WalLog.ToReplayIsTail | crates/f4kvs-lsm/src/core/engine.rs:1342-1370 | Under a clock that moved on after each checkpoint, the timestamp filter keeps exactly the records behind the last checkpoint |
| WalLog.RecoveryEndsWith | crates/f4kvs-lsm/src/core/engine.rs:1342-1370 | Whatever clock stamped the log, recovery ends for a key with the record stamped last, the last one of several, if every checkpoint is stamped earlier, and with none otherwise |
| WalLog.WriteSurvivesIff | crates/f4kvs-lsm/src/core/engine.rs:1342-1370 | A put appended to any log is recovered to its value exactly if no record of the key is stamped later and every checkpoint earlier, or the record that decides without it leaves the same value |
| WalLog.SortKeepsOrderIff | crates/f4kvs-lsm/src/storage/wal_frame.rs:596-628 | Sorting by timestamp keeps append order exactly if timestamps never decrease |
| WalLog.SortKeepsLastWriteIff | crates/f4kvs-lsm/src/storage/wal_frame.rs:596-628 | The sorted log ends with the same record of a key as the appended one exactly if the last appended record of the key has the greatest timestamp of the key |
| WalLog.SuffixReplay | crates/f4kvs-lsm/src/storage/wal_frame.rs:662-687 | Dropping oldest records keeps what is replayed a suffix |
| WalFrame.ReadEntries | crates/f4kvs-lsm/src/storage/wal_frame.rs:216-241 | The segment parser computes the parse that the round trips are about |
| WalFrame.HeldReadsBack | crates/f4kvs-lsm/src/storage/wal_frame.rs:138-164 | A segment reads back as exactly the records appended to it |
| WalFrame.TornRecord | crates/f4kvs-lsm/src/storage/wal_frame.rs:216-241 | With a record cut short, the segment still reads back exactly if fewer than four bytes of it arrived, and is an error otherwise |
| WalFrame.FrameWalManager.WriteEntry | crates/f4kvs-lsm/src/storage/wal_frame.rs:449-467 | A record is appended to the log, in the current segment exactly if it fits there and else in a new one; a record too large for a fresh segment is dropped without an error |
| WalFrame.FrameWalManager.BatchWriteEntries | crates/f4kvs-lsm/src/storage/wal_frame.rs:502-569 | A batch is appended in order, also one larger than a segment. It joins the current segment exactly if that stays within the maximum size, so a segment of several batches never exceeds it; how many segments are opened otherwise is stated |
| WalFrame.FrameWalManager.RotateSegment | crates/f4kvs-lsm/src/storage/wal_frame.rs:395-422 | Rotation opens an empty segment and changes no record |
| WalFrame.FrameWalManager.FlushPendingGroupCommit | crates/f4kvs-lsm/src/storage/wal_frame.rs:820-842 | Every queued record is written once, in queue order, and then acknowledged; without an open segment the records are dropped, none is acknowledged and the call fails. By the class invariant whatever is acknowledged has been written, and the log is all that was written and not truncated |
| WalFrame.FrameWalManager.ReadEntriesFromDisk | crates/f4kvs-lsm/src/storage/wal_frame.rs:596-628 | Recovery reads all appended records over all segments, then sorts them stably |
| WalFrame.FrameWalManager.MarkCleanShutdown | crates/f4kvs-lsm/src/storage/wal_frame.rs:701-717 | A clean shutdown empties the queue and leaves an empty log |
| WalFrame.OldestRemoved | crates/f4kvs-lsm/src/storage/wal_frame.rs:662-687 | Removing the oldest segments leaves a suffix of the log |
| WalFrame.SegmentsRemoved | crates/f4kvs-lsm/src/storage/wal_frame.rs:662-687 | Removing any set of segments keeps the records at some places of the log, in order: the removals of the machine's truncation step |
| WalFrame.NewestRemovedFirstRevives | crates/f4kvs-lsm/src/storage/wal_frame.rs:662-687 | Removing a newer segment before an older one lets a crash revive a deleted key |
| PrefixScan.ScanPrefix | crates/f4kvs-lsm/src/core/engine.rs:482-629 | A full scan returns exactly the live keys with the prefix, each with the value a point read gives, strictly ascending in unsigned byte order (`Keys.LtIsByteOrder`), and ends |
| PrefixScan.ScanNext | crates/f4kvs-lsm/src/core/engine.rs:466-480 | For every resume key: the call returns the first pair that a view shows which starts at the first key offered and from then on has the memtables and only the files with no key between resume key and prefix; not below the prefix, that is the least live key above the resume key |
| ScanResume.ResumeIsRightIff | crates/f4kvs-lsm/src/core/engine.rs:503-511 | The answer is right exactly if the first live key and every key before it is seen right, where a key is seen wrong if it is live and every memtable and file with a key up to it is shut, or if no memtable decides it, its newest entry lies in shut files only and the others answer otherwise |
| ScanResume.NothingBetweenIsRight | crates/f4kvs-lsm/src/core/engine.rs:503-511 | With no key of any memtable or file between resume key and prefix the answer is right |
| ScanResume.SupersededIsReturned | crates/f4kvs-lsm/src/core/engine.rs:590-612 | A newer file with a key in between is passed over, and an overwritten or deleted value of an older file is returned |
| PrefixScan.PrefixScanState.NextN | crates/f4kvs-lsm/src/core/engine.rs:655-681 | A page holds exactly the visible keys between the old and the new position; end of scan is reported only if none is left |
| PrefixScan.PrefixScanState.Next | crates/f4kvs-lsm/src/core/engine.rs:513-536 | The next pair is the first one visible to the sources that take part; deleted keys are skipped |
| PrefixScan.PrefixScanState.MinKey | crates/f4kvs-lsm/src/core/engine.rs:538-575 | The candidate is the least key still due over all cursors and memtables that are not shut |
| PrefixScan.PrefixScanState.Resolve | crates/f4kvs-lsm/src/core/engine.rs:590-629 | Asking only the files whose cursor sits on the key gives what all files that take part say of it |
| ScanViews.AnswerIsSeen | crates/f4kvs-lsm/src/core/engine.rs:590-629 | Over layered files that is the newest entry over all pinned files, in whatever order the levels are listed |
| ScanViews.AdvanceKeepsCursor | crates/f4kvs-lsm/src/core/engine.rs:577-588 | Stepping over the least key keeps every cursor on its file's first key not yet visited |
| ScanViews.SeekFindsDueIff | crates/f4kvs-lsm/src/core/engine.rs:503-511 | A cursor sought behind a resume key offers the right key exactly if the resume key is not below the prefix, or nothing lies between, or no key has the prefix |
| Keys.LtIsByteOrder | crates/f4kvs-lsm/src/core/engine.rs:538-552 | One key comes before another exactly if it is a proper prefix of it, or at the first place where they differ it has the smaller byte, bytes being unsigned |
| Keys.StartsWithIff | crates/f4kvs-lsm/src/core/engine.rs:538-552 | A key starts with a prefix exactly if the prefix and something behind it make the key |
| Memtable.FirstKeyIsFirstDue | crates/f4kvs-lsm/src/storage/memtable.rs:11-36 | The memtable lookup finds the least due key under exactly the same condition |
| Memtable.Memtable.Put | crates/f4kvs-lsm/src/storage/memtable.rs:89-127 | A put stores the value, reports whether the key was new, live or deleted, and keeps the size and entry counters exact |
| Memtable.Memtable.Delete | crates/f4kvs-lsm/src/storage/memtable.rs:199-232 | A delete stores a tombstone and leaves one extra byte in the size |
| Memtable.Updated | crates/f4kvs-lsm/src/storage/memtable.rs:105-118 | The amount subtracted never exceeds the tracked size, so the saturating subtraction never saturates |
| Memtable.NewKeyWeighs | crates/f4kvs-lsm/src/storage/memtable.rs:130-141 | A new key adds to the weight that makes a flush due every byte of itself and of a text, byte string or printed document, eight for a number, one for a truth value, nothing for a deletion mark |
| Memtable.Memtable.GetAllEntries | crates/f4kvs-lsm/src/storage/memtable.rs:340-346 | The listing holds every key once, in order, with its value and deletion flag |
| LsmTree.LsmTreeEngine.Put | crates/f4kvs-lsm/src/core/engine.rs:2424-2458 | A put updates the map at its key and the number of `Null` puts. Exactly if the memtable is full by then, it is flushed; if level 0 then holds too many files, the map also gains exactly the keys whose tombstones in level 0 cover a value in level 1, and their number is kept account of. Memtable, files, map and account are all stated |
| LsmTree.LsmTreeEngine.Delete | crates/f4kvs-lsm/src/core/engine.rs:2513-2549 | A delete removes the key from the map, with the same flush, check and account |
| LsmTree.LsmTreeEngine.BatchPut | crates/f4kvs-lsm/src/core/engine.rs:2590-2639 | A batch over the limit changes nothing; any other applies all puts in order, with the same flush, check and account; counting after the fact is exact even with repeated keys |
| LsmTree.LsmTreeEngine.Get | crates/f4kvs-lsm/src/core/engine.rs:2460-2511 | A read returns what the map holds, in every state the operations can reach |
| LsmTree.LsmTreeEngine.Count | crates/f4kvs-lsm/src/core/engine.rs:3009-3011 | The count is, modulo 2^64, the number of live keys plus the puts of `Null` less the keys brought back by rewrites, both of which every operation accounts for from zero on |
| LsmClient.Perform | crates/f4kvs-lsm/src/core/engine.rs:3009-3011 | After any sequence of puts, deletes, batches, flushes and full compactions the count is the number of live keys exactly if `Null` puts and keys brought back agree modulo 2^64; if none was brought back, the map is the plain map of the operations; none is while level 1 is empty or level 0 stays below its limit |
| LsmClient.CountAfter | crates/f4kvs-lsm/src/core/engine.rs:3009-3011 | From an empty engine, with nothing brought back, the count is the size of the plain map exactly if `Null` was put a multiple of 2^64 times, so always if it never was |
| LsmClient.DeletedKeyWraps | crates/f4kvs-lsm/src/core/engine.rs:315-324 | A sequence of calls on the engine: a key is put, compacted, deleted, readable again after a rewrite of level 0, deleted again; the count is then 2^64 - 1 |
| LsmSteps.PutCounts | crates/f4kvs-lsm/src/core/engine.rs:836-856 | The change of the count is exact for every value but `Null`, for which it is one too high in every case |
| LsmTree.LsmTreeEngine.FlushMemtable | crates/f4kvs-lsm/src/core/engine.rs:1778-1859 | A flush moves the memtable into one new level-0 file and changes neither map nor count |
| LsmTree.LsmTreeEngine.TakeFileNumber | crates/f4kvs-lsm/src/core/engine.rs:1880-1895 | The number drawn is the least from the counter on that no file name carries |
| LsmSteps.StampedItems | crates/f4kvs-lsm/src/core/engine.rs:1899-1917 | Stamping the listed items in turn gives the records of the flush, in key order with consecutive timestamps |
| LsmTree.LsmTreeEngine.CompactAll | crates/f4kvs-lsm/src/compaction/manager.rs:386-480 | Compacting everything empties level 0, leaves the merge of all files in level 1, cut at the target size and newly numbered, frees the file numbers of the inputs, and changes neither map nor count |
| LsmTree.LsmTreeEngine.CompactIfNeeded | crates/f4kvs-lsm/src/compaction/manager.rs:209-377 | The check rewrites level 0 if it holds too many files, else level 1 if it is too large, into the merge of what it replaces, cut at the target size and newly numbered, and leaves everything else as it is; map and account gain exactly the revealed keys in the first case |
| LsmRewrite.TotalSizeAdds | crates/f4kvs-lsm/src/compaction/manager.rs:727-747 | The size that decides about a level-1 rewrite counts every file of the level once |
| LsmRewrite.RewriteIsSound | crates/f4kvs-lsm/src/compaction/manager.rs:301-377 | A rewrite of level 0 over a disjoint level 1 leaves the engine's invariant intact for the map with the revealed keys added; none of them was live before |
| LsmTree.LsmTreeEngine.ScanPrefix | crates/f4kvs-lsm/src/core/engine.rs:482-629 | A scan returns the map's bindings with the prefix, strictly ascending in unsigned byte order (`Keys.LtIsByteOrder`) |
| FlatIndex.FromSorted | crates/f4kvs-lsm/src/storage/flat_index.rs:35-48 | Packing pairs yields the packed index the lookups are proved about |
| FlatIndex.PackedReadsBack | crates/f4kvs-lsm/src/storage/flat_index.rs:66-84 | Every packed record reads back as its pair, for any keys and locations within the field widths and a packed size below 4 GiB |
| FlatIndex.PartitionPointIsLowerBound | crates/f4kvs-lsm/src/storage/flat_index.rs:61-64 | Binary search over packed records gives the lower bound of any key |
| FlatIndex.GetIsMapLookup | crates/f4kvs-lsm/src/storage/flat_index.rs:50-59 | A lookup finds a location exactly if the pair is in the list |
| FlatIndex.DecodeEncode | crates/f4kvs-lsm/src/storage/flat_index.rs:86-134 | Decoding an encoded index restores it, offsets and records alike |
| LittleEndian.ReadsLittleEndian | crates/f4kvs-lsm/src/storage/flat_index.rs:76-84 | The fixed-width readers take the least byte first |
| BloomFilter.AddedKeysTest | crates/f4kvs-lsm/src/storage/sstable.rs:139-216 | Every added key tests positive whatever is added before or after it |
| BloomFilter.TestsIff | crates/f4kvs-lsm/src/storage/sstable.rs:139-216 | A key tests positive exactly if each of its probes meets a probe of some added key, so any other is ruled out; only a filter without bits rules nothing out |
| BloomFilter.ReadPacked | crates/f4kvs-lsm/src/storage/sstable.rs:299-408 | A filter of at most 100,000,000 bits survives serialisation bit for bit, a larger one comes back empty |
| BloomFilter.NoFalseNegatives | crates/f4kvs-lsm/src/storage/sstable.rs:139-408 | No added key is ruled out, in memory or after a reload, for every size below 2^32 |
| BlockFormat.WriteBlocks | crates/f4kvs-lsm/src/storage/sstable.rs:584-672 | Every entry can be read from the location recorded for it; every block lies in the data section, every offset in a block is below 32 KiB, and every block ahead of the last is at least 32 KiB long |
| BlockFormat.FrameReadsBack | crates/f4kvs-lsm/src/storage/sstable.rs:25-68 | A framed entry parses back, whatever precedes and follows it in the block |
| CacheKeys.BlockKeyIsInjective | crates/f4kvs-lsm/src/storage/sstable.rs:1186-1200 | Two cached blocks share a cache key only if path and offset agree |
| SsTable.SsTable.WriteEntries | crates/f4kvs-lsm/src/storage/sstable.rs:584-776 | For every non-empty sorted list within the format's limits, the written bytes, index and metadata describe exactly that list; behind the index lie the packed filter of all keys, at the recorded offset, and the metadata, each with its checksum |
| SsTable.SsTable.LookupSync | crates/f4kvs-lsm/src/storage/sstable.rs:1142-1184 | Cached or not, a stored key looks up to its value or tombstone with its timestamp, every other key to Missing; a key outside the range of the file or ruled out by the filter touches neither file nor caches |
| SsTable.SsTable.ReadSnappyBlock | crates/f4kvs-lsm/src/storage/sstable.rs:1186-1238 | Reading through the in-file and the shared cache returns the block on disk, keeps the caches faithful and leaves the block in them |
| SsTable.SsTable.GetAllEntries | crates/f4kvs-lsm/src/storage/sstable.rs:2002-2086 | The whole file reads back as the list it was written from |
| BlockCache.RunIsBounded | crates/f4kvs-lsm/src/storage/block_cache.rs:59-122 | Over any gets, puts and removals the resident bytes stay within the limit or the largest block put, and a hit is the block last put |
| BlockCache.RunIsExact | crates/f4kvs-lsm/src/storage/block_cache.rs:83-122 | If no put meets a block of its key, the size counter is exact and the access order is a permutation of the keys |
| BlockCache.OrderIsByLastUse | crates/f4kvs-lsm/src/storage/block_cache.rs:59-111 | If no put meets a block of its key, the access order lists the resident keys by the operation that last put or read them |
| BlockCache.SparedIff | crates/f4kvs-lsm/src/storage/block_cache.rs:59-122 | In such a run the least recently used go first: a put spares another resident key exactly if the blocks used no earlier than it and the new one fit together; reads evict nothing and a removal takes its own key only |
| BlockCache.PutKeepsExactIff | crates/f4kvs-lsm/src/storage/block_cache.rs:83-102 | A put keeps the accounting exact exactly if the key was not resident before it, or its block and those used after it leave no room for the new one |
| BlockCache.BlockCache.PutBlock | crates/f4kvs-lsm/src/storage/block_cache.rs:83-122 | The eviction loop ends, never subtracts below zero, and the cache behaves as the specification whose runs `BlockCache.SparedIff` describes |

## Left out

- EngineRuns.StepKeepsInv: has no step for a crash among removals, nor for a rewrite of level 0 that uncovers a deeper value, because reads change there and the invariant does not survive them in every state; `EngineRemoval`, `EngineClearing` and `LsmRewrite` state exactly what they change. Nor does a compaction start while inputs of the one before are still being removed, as it may in the source; `Reclaim` has that.
- Group commit that does not wait for durability: a write then reaches the memtable before its record is on disk, while the machine logs first.
- Files left behind because a reader kept them pinned for five seconds, which a restart loads again: the machine removes every input in the end.
- More than one immutable memtable and more than one flush or compaction at a time: the immutable list is searched oldest first and emptied by index, so the machine has one flush in flight.
- The selection strategies of automatic compaction (size-tiered, time-windowed, adaptive) and rewriting part of a level: the machine and `LsmTree` rewrite all of a level, as the leveled strategy does.
- An install abandoned on a lock timeout: in `Reclaim` the inputs stay; the orphaned outputs on disk and their reload are not in the engine machine.
- Corrupt input files: the source aborts a compaction whose input reads back short; here every input reads back.
- The asynchronous read of the files, which picks indices under one lock and uses them under another: the synchronous read is modelled.
- The log inside `LsmTree`: its methods keep a ghost journal instead; logging, truncation and crashes are in the machine and in `WalFrame`.
- Numbers at the top of the 64-bit range: timestamps and counters are unbounded in the machine; `Loading.Reopen` asks for a counter below 2^64 - 1.
- SsTable.SsTable.Open: takes the metadata as given; scanning the file tail for it is not modelled.
- Loading.Reopen: takes which files open from the directory entries; opening them on parallel threads is not modelled.
- Values of the JSON kind: they are written through a library that cannot read them back, so `Lossless` does not hold for files and log records that contain one.
- Files written without block compression (`wal.rs`, `wal_indexed.rs` and `wal_handle.rs` are not part of this model either), file handles, memory mapping, directory syncs and failing I/O.
- Bloom filters in engine-level files: the byte-level file shows that the filter never changes a lookup.
- Key counts of a reopened engine (an estimate from entry counts), bulk import, expiry, column families, statistics, key-only scans and `scan_all`.
