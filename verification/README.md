# accretion-db: a Dafny model and its proofs

accretion-db is an LSM key-value engine: a segmented, group-committed write-ahead log, memtables, immutable table files in
size-tiers, a manifest that names them, and a simulated file system that can lose power at any operation. This project models
that stack and proves what its crash and concurrency tests sample. The central theorem is `Lives.CrashSafety`: from an empty disk,
through any number of sessions, each ended by a power loss at any storage operation, reopening reads back exactly the completed
calls of every session, and its one interrupted call entirely or not at all. A put or delete whose flush is refused counts as
completed: its record is logged and applied.

## How the model is built

The proofs are stacked the way the engine is.

| layer | files | what it holds |
|---|---|---|
| bytes and codecs | `Numbers`, `ByteStrings`, `Crc`, `Frame`, `Parse`, `Bloom`, `TableFormat`, `TableDamage`, `ManifestFormat`, `RecordFormat` | formats as functions, with their round trips, exactly which bytes each decoder accepts, and the damage it notices |
| power-loss model | `Sim` (inodes, live and durable names, tears), `Simulator` (the object), `FsView` (the same by name) | `FsView.StepRefines` and `FsView.CrashRefines` let the engine proofs speak of names only |
| storage protocols | `Protocols` | replace a file, write a file, append and sync, delete, each with all its crash images |
| data | `Versions`, `Memtables`, `Sources`, `SortedRuns`, `Merge`, `LsmVersion`, `Meaning` | versions, recency, lookup by position and by number, merging, tiers, and what a stack of sources means as a map |
| log | `Scan`, `WalModel`, `WalRepair` | torn tails, recovery, repair |
| engine, as functions | `EngineModel`, `EngineState` | each call as the operations it issues and the state it leaves; the invariant `Running` |
| crash safety | `LogSafety`, `TableSafety`, `CompactionSafety`, `EngineSafety`, `OpenSafety`, `Reading`, `Lives`, `Window`, `WindowReached` | every crash point of every call and of opening; whole lives; the one known window |
| threads | `GroupCommit`, `GroupRecovery`, `ConcurrentDb`, `ConcurrentWrites`, `ConcurrentProgress`, `PinGc` | atomic steps of any number of threads: what every interleaving keeps, that writes take effect, and that every call returns |
| engine, as objects | `Memtables`, `Merge`, `TableFiles`, `WalLog`, `ManifestStore`, `Database` | the imperative code: classes and loops, each proved to issue the operations and reach the state of the functions above |

A crash theorem about the functions is a theorem about the objects: each method of `Database.Db` ensures that the operations it
adds to the storage's history, its result and its new state are those of the function, and keeps `Running`.

Premises, each stated in the contracts that need it:

- the tier fanout is at least 2 (`EngineModel.Sane`; `LsmVersion.FanoutOneLoops` shows why);
- keys, values, payloads and counts fit in 32 bits, sequence numbers and ids in 64 (`RecordFits`, `TableFits`, `VersionFits`; the
  outcome `OutOfRange` otherwise). `RecordFormat.RecordFitsIff`, `TableFormat.SmallTablesFit` and `ManifestFormat.DecodeVersionIff`
  say how much that leaves room for;
- where a power loss flips a bit in the frame of the interrupted write, the flipped frame does not decode
  (`WalModel.TearNoticed`). Losing part of a frame, and every completed call, needs no such premise. `Frame.FlipDetected` says
  exactly which flips decode, `Frame.UndetectedExists` gives one, and `Crc.Crc32DetectsOneByte` shows that only flips in the length
  field can. Tables and the manifest are synced before they are durably named, so no tear reaches them;
- the durability mode is one that syncs before it acknowledges.

Two findings about the code are stated as theorems rather than smoothed over. A compaction whose output is empty does not use up
its output id, so a crash right after its manifest switch leaves a file on which the next table creation fails, and with it every
later flush of buffered data (`Window.EmptyOutputWindow`, `Window.RefusedForGood`; `WindowReached.WindowReached` is a life of four
calls that gets there). The data stays readable, and no reachable state refuses a call in any other case (`Window.FlushRefusedIff`,
`Window.WriteRefusedIff`). And repairing a torn segment that is not the last one can bring back later segments' records on the
following recovery (`WalRepair.RecordReturns` shows it happen, `WalRepair.RecoverTruncateRecover` says exactly when it does not);
the engine's own logs are only ever torn in their last segment.

## Model

| member | source | states |
|---|---|---|
| Lives.CrashSafety | tests/crash.rs:83-110 | From an empty disk, through any number of sessions of put, delete and flush, each cut by a power loss after any storage operation with any tear (also while opening), reopening succeeds and lookup and scan read back exactly the completed calls, each session's interrupted call counting entirely or not at all; a call that had issued no operation never counts. The one premise on tears: a flipped bit does not turn the interrupted write's frame into another frame |
| Lives.EventSafe | src/testkit/mod.rs:143-178 | One session ended by a power loss at any operation takes a disk that means a map to a disk that means that map with the completed calls, and the interrupted one or not |
| Lives.TablesIntact | src/manifest.rs:218-234 | After any such history the disk is blank, or its manifest decodes and every table it names is on disk in full, is described by its metadata and has an id of its own below the next one |
| Lives.CutAndCrash | src/testkit/mod.rs:47-62 | A run all of whose crash images are acceptable stays acceptable when cut after any number of operations and crashed on the inode-level disk |
| Lives.EveryPowerLoss | src/testkit/mod.rs:47-62 | No power loss is outside these theorems: a session may be cut after any number of the last call's operations and the disk crashed there in every way the simulator can, a bit flip that goes unnoticed aside |
| Lives.EveryPowerLossOnOpening | src/db.rs:145-180 | Nor is any power loss while opening |
| EngineSafety.CallSafe | src/db.rs:184-232 | Every crash point of a put, delete or flush leaves an image meaning the map before or after the call, and the finished call leaves a running engine that means the map after it |
| EngineSafety.WriteSafe | src/db.rs:195-232 | The same for one write, with the flush it may trigger; a refused flush does not undo the write, and without a stray table file nothing is refused |
| EngineSafety.FlushSafe | src/db.rs:298-353 | A flush never changes what the disk means, at any crash point; unless refused it ends with nothing in memory, no logged record and every tier below the fanout, and it is refused only by a stray table file |
| OpenSafety.OpenSafe | src/db.rs:145-180 | A crash at any operation of opening (first manifest, tail repair, first segment) leaves an image meaning the same map; a finished open yields a running engine meaning it |
| OpenSafety.RepairSafe | src/wal/mod.rs:95-130 | Repairing the tail while opening changes nothing that is recovered, at any crash point, and leaves a clean log |
| OpenSafety.ManifestSafe | src/manifest.rs:182-203 | The first manifest appears atomically: no manifest or the empty version |
| Reading.GetCorrect | src/db.rs:236-261 | In every running state the lookup (active table, frozen tables newest first, then tables newest first behind key ranges and filters) returns the map's value |
| Reading.ScanOfCorrect | src/db.rs:265-287 | In every running state, for every kind of bound on either side, the scan succeeds and yields, ascending, exactly the map's entries whose key passes the comparison each bound stands for: an included end is in, an excluded one is out, an open one asks nothing |
| ByteStrings.LessMeans | src/db.rs:417-429 | The key order is the dictionary order of unsigned bytes: one key is below another exactly if it is a proper prefix of it or has the smaller byte where they first differ |
| ByteStrings.LittleEndian | src/wal/frame.rs:12-19 | Integers are stored low byte first |
| Reading.PassedOverIff | src/manifest.rs:66-68 | A lookup passes over a table exactly if the key is below the table's first key or above its last |
| Window.FlushRoundRefusedIff | src/db.rs:322-344 | A flush round is refused exactly if a file bears the next table id |
| Window.CompactionRefusedIff | src/compaction.rs:160-210 | A compaction is refused exactly if a file bears the next table id |
| Window.FlushRefusedIff | src/db.rs:298-353 | A flush is refused exactly if it has a table to write (something is buffered or a tier is full) and a file bears the next table id |
| Window.WriteRefusedIff | src/db.rs:195-232 | A write comes back refused exactly if it fills the active table and a file bears the next table id |
| Window.EmptyOutputWindow | src/compaction.rs:199-206 | Every compaction with an empty output has a crash point, right after the manifest switch, whose disk means the right map but reopens with a stray file under the next table id |
| Window.RefusedForGood | src/db.rs:314-353 | With such a stray file every flush of buffered data is refused and changes neither disk nor version, so the next one is refused too |
| WindowReached.WindowReached | src/compaction.rs:199-206 | The window is reached: with fanout 2, put, flush, delete and a flush cut seven operations into its compaction is a life after which the database reads as empty, has a file under the next table id, and refuses the flush after any put |
| LogSafety.AppendSafe | src/wal/mod.rs:158-175 | Appending a record and syncing: a crash anywhere, with any tear that does not turn the frame into another, means the map without or with the write; afterwards with it; a rotation in between does not matter |
| LogSafety.RotateSafe | src/wal/mod.rs:256-270 | Rolling to a fresh segment keeps the recovered records at every crash point |
| LogSafety.ResetSafe | src/wal/mod.rs:138-155 | Once the logged records are in installed tables, replacing the log by one empty segment changes nothing that is read, at any crash point |
| TableSafety.InstallSafe | src/manifest.rs:218-290 | Installing a version whose new table is synced but not yet durably named: every crash image means the map under the old or the new version; afterwards exactly the tables of the live ids remain |
| TableSafety.FlushOldestDone | src/db.rs:322-344 | One flush round moves the oldest frozen table into tier 0 and keeps the meaning at every crash point |
| TableSafety.TableStaged | src/compaction.rs:92-136 | Writing a table file is invisible to crashes until a directory sync, and leaves its complete bytes synced |
| CompactionSafety.CompactTierDone | src/compaction.rs:160-210 | Compacting a tier, with tombstones kept, dropped, or nothing left to write, keeps the map at every crash point and the recency of the sources |
| CompactionSafety.CascadeSafe | src/db.rs:350-351 | The cascade keeps the map at every crash point and, unless refused, leaves every tier below the fanout |
| EngineModel.CompactTierVersion | src/db.rs:350-351 | Each compaction of a full tier leaves fewer tables, so the cascade ends |
| Meaning.Written | src/db.rs:195-232 | A write with a fresh sequence number, logged and applied, is what readers see from then on, and nothing else changes |
| Meaning.MemoryLost | src/db.rs:149-163 | Replaying the whole log over the tables, even records flushed long ago, means the same map as before the crash |
| Meaning.BlockMerged | src/compaction.rs:160-210 | Replacing a contiguous block of tables by its merge means the same map and keeps recency |
| Sources.PositionIsNewest | src/db.rs:236-261 | Under recency the first source holding a key holds its largest-numbered version |
| Sources.NewestAnyOrder | src/iter/mod.rs:101-121 | The largest-numbered version does not depend on the order of the sources, so lookup by position and scan by number agree |
| Sources.MergePreservesVisible | src/compaction.rs:139-210 | A merge of a contiguous block, with tombstones dropped only when nothing lies below, leaves every key's visible value unchanged |
| Sources.MergeKeepsRecent | src/manifest.rs:140-154 | and keeps the recency of the stack |
| ConcurrentDb.AlwaysRecent | src/db.rs:195-353 | In every state any number of writers, flushers and readers can reach: of two sources with a key the younger has the newer version or the same record, every stored number is below the next, and position-based lookup is the largest-number lookup |
| ConcurrentDb.AlwaysQuiesced | src/db.rs:298-353 | The in-flight count is exactly the writers between claim and clear, and is 0 whenever a flush body runs, even if another flusher has reopened the write path |
| ConcurrentDb.ReleaseLosesNothing | src/db.rs:346-348 | When the log is released, each record in it, or a later write of its key, is in an installed table, unless its write has failed |
| ConcurrentDb.ReadsAreLinearizable | src/db.rs:236-261 | Under every interleaving a read returns a value its key had at some moment between its beginning and its end |
| ConcurrentDb.CrashAmidThreads | src/db.rs:195-232 | In every reachable state replaying the log over the tables reads, per key, the current value or that of a logged write that is still to be applied or has failed after it was logged |
| ConcurrentDb.ReopenedAmidThreads | src/db.rs:145-180 | and the database reopened there is again one just opened, so all of this holds across power losses |
| ConcurrentWrites.EverythingWasWritten | src/db.rs:195-232 | Under every interleaving each record in the log, in memory or in a table was there when the database was opened, or has the key and the value or deletion some thread was called with, under a number given out since |
| ConcurrentWrites.WriteTakesEffect | src/db.rs:195-232 | Once a thread called to write a key has applied its record, and from then on whatever other threads, flushes and compactions do, a read of the key sees what the call asked for, under the number it claimed, or a larger-numbered write some caller asked for |
| ConcurrentWrites.WriteSurvives | src/db.rs:145-232 | and so it does after a power loss at any later moment, by replaying the log over the tables |
| ConcurrentProgress.WhoWaits | src/db.rs:195-311 | In every reachable state a reader can go on, a writer can go on once it has begun and waits to begin only while a flush is wanted or under way, and a flush waits exactly for the writers in flight and for another flush |
| ConcurrentProgress.NoDeadlock | src/db.rs:195-311 | As long as a call has not returned some thread can go on |
| ConcurrentProgress.RunsEnd | src/db.rs:195-353 | Compactions aside, no run has more than eleven steps for each thread |
| ConcurrentProgress.AllReturn | src/db.rs:195-353 | A run that nobody but a further compaction could continue has every call returned |
| ConcurrentProgress.IsWanted | src/db.rs:218-303 | A flush is wanted from the moment a caller asks for it or a write has filled the active table |
| ConcurrentProgress.KeepsWritersOut | src/db.rs:195-205 | Until a wanted flush is over no writer joins those in flight |
| ConcurrentProgress.AnythingMayFail | src/db.rs:206-232 | None of the failures is left out: in every reachable state a write may fail before or after its record is logged and a flush anywhere behind its freeze |
| ConcurrentProgress.AnythingMayBeCompacted | src/compaction.rs:160-210 | nor any compaction: whichever neighbouring tables, with whichever merge of them |
| ConcurrentDb.StepInv | src/db.rs:195-353 | Every atomic step keeps the lock, phase, data and reader invariants |
| GroupCommit.Safety | src/wal/mod.rs:186-253 | In every run of any number of appends, with batches failing anywhere: at most one leader; leader's batch then queue are the unsynced numbers in order without gaps; every append that returned success has its frame in the synced log |
| GroupCommit.StepInv | src/wal/mod.rs:186-242 | Every step keeps these invariants, and a writer is parked only while somebody leads |
| GroupCommit.NoDeadlock | src/wal/mod.rs:196-240 | While some append has not returned, a step other than an error or a spurious wakeup is enabled |
| GroupCommit.NoInfiniteRun | src/wal/mod.rs:196-240 | No run of such steps is infinite |
| GroupCommit.AllReturn | src/wal/mod.rs:186-242 | A run of such steps that can go no further has every append returned successfully, its frame synced |
| GroupCommit.LogInOrder | src/wal/mod.rs:245-253 | In every run without errors the log is the frames in the order in which their appends entered the queue, from the first on, none twice |
| GroupCommit.AnythingMayHappen | src/wal/mod.rs:206-270 | In every reachable state a leader may fail at any point of its batch, may roll the segment behind the barrier, and a parked writer may wake for no reason |
| GroupRecovery.AppendsSurvive | src/wal/mod.rs:186-270 | Power lost at any moment of any run of concurrent appends, with batches failing and retried and segments rolled on the way: recovery of the segment files yields the synced records in order, then a prefix of the unsynced ones, and among them the record of every append that returned success |
| GroupRecovery.PowerLossLeaves | src/wal/mod.rs:245-270 | Every crash of the storage that holds such a log leaves the image that theorem starts from |
| PinGc.PinnedFilesStay | src/manifest.rs:212-266 | Said of the steps alone: under every interleaving of readers with the installer each table of the current version, and of every version pinned more often while it was current than dropped, has been created and not deleted |
| PinGc.CollectionExact | src/manifest.rs:237-267 | After a collection the table files created and not deleted are exactly those of the current version, of the one before it, and of the versions with pins outstanding when it took its snapshot |
| PinGc.NobodyWaits | src/manifest.rs:212-267 | The current version can be pinned at any moment and a version dropped exactly if it has pins outstanding; between installs any new version can be begun, and otherwise the installer has a next step |
| Sim.Step | src/storage/sim.rs:274-432 | Every operation keeps the disk well-formed: bindings lead to existing inodes below the next id, synced bytes are no longer than live ones, append numbers are unique |
| Sim.WriteAtChanges | src/storage/sim.rs:322-344 | A write in place changes exactly the given bytes of the one file, and no synced byte |
| Sim.RenameMoves | src/storage/sim.rs:399-415 | A rename moves the live link and no durable one, and drops only what nothing names any more |
| Sim.Crash | src/storage/sim.rs:162-245 | So does every crash |
| Sim.CrashRestoresSyncedImage | src/storage/sim.rs:162-245 | After a crash the namespace is the last directory-synced image, every file starts with its synced bytes, and at most one inode has anything beyond them |
| Sim.TearsHappen | src/storage/sim.rs:162-245 | Every tear does happen: of the durably named inodes with unsynced bytes the one appended to last may lose its tail, keep any prefix of it, or keep it with any one bit inverted, and then holds its synced bytes and exactly that |
| Sim.OnlyTheLastIsTorn | src/storage/sim.rs:162-245 | And nothing else does: an inode that comes back with more than its synced bytes is that one, and holds what the tear leaves of its tail |
| Sim.TargetUnique | src/storage/sim.rs:162-200 | The inode to tear is determined: the tearable one appended to last |
| Sim.CrashIdempotent | src/storage/sim.rs:162-245 | A second crash changes nothing |
| Simulator.SimFs.Crash | src/storage/sim.rs:155-245 | The crash method tears an allowed target in an allowed way and leaves exactly the modelled state |
| Simulator.SimFs.ArmCrashAfter | src/storage/sim.rs:139-142 | Arms the crash and changes nothing else |
| Simulator.SimFs.FindTarget | src/storage/sim.rs:162-200 | The search over the inodes finds the tearable inode whose unsynced append came last, if there is one |
| Simulator.SimFs.Create | src/storage/sim.rs:274-292 | Refused or applied exactly as modelled, and the armed crash fires inside the operation that reaches the threshold |
| Simulator.SimFs.Append | src/storage/sim.rs:302-320 | The same; returns the offset of the appended bytes |
| Simulator.SimFs.WriteAt | src/storage/sim.rs:322-344 | The same, with the bounds error |
| Simulator.SimFs.SyncFile | src/storage/sim.rs:368-380 | The same |
| Simulator.SimFs.SyncDir | src/storage/sim.rs:382-397 | The same; never refused |
| Simulator.SimFs.Rename | src/storage/sim.rs:399-415 | The same; renaming a file to itself changes nothing |
| Simulator.SimFs.Delete | src/storage/sim.rs:417-432 | The same; the durable name survives until a directory sync |
| Simulator.SimFs.List | src/storage/sim.rs:434-444 | Exactly the live names |
| Simulator.SimFs.ReadAt | src/storage/sim.rs:346-366 | As many of the asked bytes as the file has from the offset on; an offset behind the end is an error |
| FsView.StepRefines | src/storage/sim.rs:274-432 | Every operation the engine issues does on the inode-level disk what it does on the name-level view the engine proofs use |
| FsView.CrashRefines | src/storage/sim.rs:162-245 | Every allowed crash leaves the durable image of that view, one file of it possibly extended by a torn tail |
| Protocols.ReplaceRun | src/manifest.rs:277-290 | Scratch file, sync, rename, directory sync: every crash point shows the old image or the new one, never anything else |
| Protocols.WriteFileRun | src/sstable/builder.rs:145-200 | Creating, appending and syncing a file is invisible to crashes until a directory sync, and then complete |
| Protocols.AppendSyncRun | src/wal/mod.rs:168-175 | Appending to a durable file and syncing: a crash shows the old bytes, a torn extension of them, or all of it |
| Frame.DecodeEncoded | src/wal/frame.rs:12-71 | A frame decodes to its payload whatever follows it |
| Frame.DecodeCut | src/wal/frame.rs:44-71 | Every proper prefix of a frame reads as torn |
| Frame.DecodedReencodes | src/wal/frame.rs:44-71 | Whatever decodes is the encoding of its payload |
| Frame.FlipDetected | src/wal/frame.rs:44-71 | A frame with any one bit flipped decodes exactly if the flip shortens the length field to a prefix of the payload with the same checksum |
| Frame.FlipInPlace | src/wal/frame.rs:44-71 | The same for a frame with more bytes behind it: it decodes exactly if the flip makes the length field claim a stretch, possibly into those bytes, with the payload's checksum |
| Frame.UndetectedExists | src/wal/frame.rs:44-71 | Such a flip exists: four payload bytes whose CRC-32 is that of the empty payload |
| Crc.Crc32DetectsOneByte | src/wal/frame.rs:12-21 | The CRC-32 of two buffers of equal length that differ in one byte differs |
| Crc.CheckValue | src/wal/frame.rs:12-21 | The CRC-32 of the digits 1 to 9 is the published check value |
| Scan.ScanBuffer | src/wal/recovery.rs:39-54 | The scan loop computes the specified scan |
| Scan.TornTail | src/wal/recovery.rs:39-54 | Scanning the first n bytes of concatenated frames yields exactly the frames that are whole, and stops cleanly exactly on a frame boundary |
| Scan.WholeFramesIsLongest | src/wal/recovery.rs:39-54 | That prefix is the longest that fits |
| Scan.ValidPrefixReencodes | src/wal/recovery.rs:39-54 | For arbitrary bytes, re-encoding the recovered payloads gives exactly the first valid_len bytes |
| Scan.RepairedScansClean | src/wal/recovery.rs:90-113 | The kept prefix scans cleanly to the same records |
| Scan.FlippedAppend | src/wal/recovery.rs:39-54 | A bit flipped in the last frame costs exactly that frame, unless the flipped frame decodes |
| RecordFormat.RecordRoundTrip | src/db.rs:434-495 | Decoding an encoded log record gives the record back |
| RecordFormat.DecodeRecordIff | src/db.rs:464-495 | Bytes decode to a record exactly if they begin with its encoding: an unknown tag or a short buffer is refused |
| RecordFormat.RecordFitsIff | src/db.rs:444-461 | A record fits exactly if its number fits 64 bits and its encoding, whose length is given, is under 4 GiB |
| RecordFormat.RecordLayout | src/db.rs:444-461 | Number, tag (1 put, 0 delete), length and key, in this order |
| WalModel.RecoverYieldsLog | src/wal/recovery.rs:58-86 | Recovery over all segments yields exactly the records the log holds, in order, and points at the last segment |
| WalModel.FrameTorn | src/wal/recovery.rs:39-86 | A torn last frame leaves the log as it was or with its one new record; only of a bit flip is it assumed that the flipped frame does not decode |
| WalRepair.RecoverTruncateRecover | src/wal/recovery.rs:58-113 | For arbitrary bytes: recover, truncate, recover finds the same records and Clean when recovery stopped in the last segment; in general the same records exactly if no segment behind the torn one holds a readable record |
| WalRepair.RecordReturns | src/wal/recovery.rs:58-113 | A log with a torn first segment and a readable second: recovery finds no record, and after the repair it finds one |
| WalRepair.LaterAppends | src/wal/mod.rs:95-130 | Frames appended to a cleanly recovered log are recovered behind its records |
| WalRepair.RepairCrashSafe | src/wal/recovery.rs:90-113 | A crash at any operation of truncating a last segment leaves a log with the same records |
| WalRepair.TornBatchIff | src/wal/mod.rs:245-253 | What a power loss makes of a group-commit batch of several frames that was not yet synced: recovery yields everything synced and then a prefix of the batch exactly if no bit was flipped or the frame hit by the flip does not decode where it stands |
| WalLog.RecoverLog | src/wal/recovery.rs:58-86 | The recovery loop computes the specified recovery of what the storage shows |
| WalLog.TruncateTail | src/wal/recovery.rs:90-113 | Issues exactly the repair operations; nothing when the tail is already clean |
| WalLog.ListSegments | src/wal/segment.rs:32-43 | The ids of the live segments, ascending |
| WalLog.ReadAll | src/wal/segment.rs:109-126 | The chunked read loop returns the whole file |
| WalLog.OpenWal | src/wal/mod.rs:95-130 | Recovers, repairs and adopts the last segment, or creates the first |
| WalLog.Wal.Append | src/wal/mod.rs:168-175 | Append, sync and rotation if due: exactly the modelled operations and state, success exactly when the rotation finds its name free |
| WalLog.Wal.MaybeRotate | src/wal/mod.rs:256-270 | Rolls exactly when the active segment has reached its size |
| WalLog.Wal.Release | src/wal/mod.rs:138-155 | A new empty segment becomes durable before the old ones go |
| Versions.ReplayOrderIrrelevant | src/memtable/mod.rs:123-134 | Two sequences of the same records, equal numbers meaning equal records, replay to the same table in any order |
| Versions.ReplayKeepsNewest | src/db.rs:149-163 | Replay holds exactly the newest version of every key the records mention |
| Versions.WeightZero | src/memtable/mod.rs:147-155 | The byte count is 0 exactly for the empty table, which is what the flush's freeze test relies on |
| Versions.WeightOfWrite | src/memtable/mod.rs:110-135 | A write of a new key adds its key, its value and 32 bytes to a table's weight; of a known key, the difference of the values |
| Memtables.Memtable.Insert | src/memtable/mod.rs:110-120 | Puts the version and keeps the byte count equal to the sum over the entries; no subtraction underflows |
| Memtables.Memtable.InsertIfNewer | src/memtable/mod.rs:123-134 | The same, only for a version that is not older than the one there |
| Memtables.MemtableSet.Get | src/memtable/mod.rs:231-243 | First hit over the active table and the frozen ones from the newest back |
| Memtables.MemtableSet.Freeze | src/memtable/mod.rs:270-276 | The active table becomes the newest frozen one, a fresh table takes its place |
| Memtables.MemtableSet.DiscardFrozen | src/memtable/mod.rs:300-304 | Exactly the given table goes |
| Merge.MergedCorrect | src/iter/mod.rs:67-121 | For any number of sorted sources the merge is strictly ascending and holds, for exactly the union of their keys, the largest-numbered version |
| Merge.ScanCorrect | src/iter/mod.rs:124-145 | The live merge yields a pair exactly if it is the visible value of its key |
| Merge.LiveOfSorted | src/iter/mod.rs:124-145 | Leaving out tombstones keeps the order and drops nothing else |
| Merge.MergeIterator.constructor | src/iter/mod.rs:70-80 | The heap starts with the head of every source; ahead lies the whole merge |
| Merge.MergeIterator.Next | src/iter/mod.rs:101-121 | Each call yields the next entry of the merge, popping the superseded heads of the same key, and none at its end |
| Merge.LiveIter.Next | src/iter/mod.rs:137-145 | Each call yields the next live pair |
| TableFormat.TableRoundTrip | src/sstable/reader.rs:161-188 | Opening a built table and iterating yields exactly the entries it was built from |
| TableFormat.GetBuilt | src/sstable/reader.rs:99-126 | A lookup in a built table (filter, sparse index, block search) is the lookup in its entries |
| TableFormat.OpenBuilt | src/sstable/reader.rs:36-84 | A built file opens to its index, its filter and its entry count |
| TableFormat.SplitCorrect | src/sstable/builder.rs:95-142 | The blocks partition the entries in order, none is empty, and each body is at most 4096 bytes or a single entry |
| TableFormat.SplitGreedy | src/sstable/builder.rs:95-142 | A block is sealed only when the entry that opens the next one would have taken it past 4096 bytes |
| TableFormat.FilterRoom | src/sstable/builder.rs:72-92 | A filter made for at least as many keys as it gets has ten bits for each |
| EngineModel.FlushedFilterRoom | src/db.rs:322-344 | and a flushed table's filter is made for all of its keys |
| TableFormat.SmallTablesFit | src/sstable/builder.rs:145-200 | Every table file below 512 MiB fits its fixed-width fields, whatever it holds |
| TableFormat.EntryLayout | src/sstable/builder.rs:215-229 | Key, number, tag (1 value, 0 deletion), in this order |
| TableFormat.FooterLayout | src/sstable/builder.rs:175-188 | A footer is 48 bytes and begins with the magic, low byte first, and format version 1 |
| TableFormat.FindBlockBuilt | src/sstable/reader.rs:117-126 | The block the sparse index points at is the only one that can hold the key |
| TableFormat.BlockRoundTrip | src/sstable/reader.rs:249-272 | Decoding an encoded block gives its entries back |
| TableFormat.IndexRoundTrip | src/sstable/reader.rs:230-246 | Decoding an encoded index gives its handles back |
| TableFormat.FooterRoundTrip | src/sstable/builder.rs:175-188 | Decoding an encoded footer gives its fields back |
| TableDamage.LoadIff | src/sstable/reader.rs:129-134 | A handle loads a block exactly if its region lies in the file and is that block's encoding followed by its checksum |
| TableDamage.OpenIff | src/sstable/reader.rs:36-84 | A file opens exactly if it ends in a footer with the magic, the version and the right checksum that leads to a checksummed index and filter before it, and it opens to those |
| TableDamage.DamagedBehindData | src/sstable/reader.rs:36-84 | A built table with any one byte of index, filter or footer changed does not open |
| TableDamage.DamagedBlock | src/sstable/reader.rs:129-134 | A block with any one byte changed does not load, and every other block loads as before |
| TableDamage.DamagedLookup | src/sstable/reader.rs:99-114 | The table still opens, a lookup that goes to the damaged block fails, and every other lookup answers as before |
| TableDamage.DamagedTable | src/sstable/reader.rs:161-188 | Reading a whole table notices any one changed byte, wherever it is |
| Bloom.NoFalseNegatives | src/sstable/bloom.rs:40-71 | Every inserted key is admitted, whatever was inserted before and after it, for any hash and any number of probes |
| Bloom.NewReportsAbsent | src/sstable/bloom.rs:22-37 | A fresh filter admits nothing |
| Bloom.CodecRoundTrip | src/sstable/bloom.rs:86-119 | Decoding an encoded filter gives it back and leaves the rest of the buffer |
| Bloom.DecodeIff | src/sstable/bloom.rs:95-119 | A filter is read exactly off a buffer that begins with its encoding; sizes that disagree are refused |
| Bloom.ProbesStep | src/sstable/bloom.rs:40-57 | While the double hash does not wrap, each probe is the same non-zero step beyond the one before, around the array, so neighbouring probes differ |
| Bloom.SizeMeans | src/sstable/bloom.rs:22-37 | A fresh filter has the fewest whole bytes, at least eight, that give each key its bits |
| Bloom.BloomFilter.Insert | src/sstable/bloom.rs:60-65 | Sets exactly the key's probe bits |
| Bloom.BloomFilter.Contains | src/sstable/bloom.rs:68-72 | Exactly whether all of the key's probe bits are set |
| Parse.Cursor.TakeSome | src/sstable/mod.rs:131-141 | Takes exactly n bytes off the front, or fails and does not advance |
| Parse.UnsealSealed | src/sstable/reader.rs:204-217 | A checksummed region verifies and yields its body |
| Parse.UnsealIff | src/sstable/reader.rs:204-217 | Nothing but a body followed by its own checksum is accepted, and it yields that body |
| Parse.UnsealDamaged | src/sstable/reader.rs:204-217 | A checksummed region with any one byte changed, in the body or in the checksum, is refused |
| TableFiles.TableBuilder.Add | src/sstable/builder.rs:95-121 | A key not above the last is refused and changes nothing; otherwise the entry is the table's next |
| TableFiles.TableBuilder.SealBlock | src/sstable/builder.rs:124-142 | Appends the checksummed block and its index entry; nothing for an empty block |
| TableFiles.TableBuilder.Finish | src/sstable/builder.rs:145-200 | The file holds exactly the specified bytes of the added entries, behind one sync; the summary describes them |
| TableFiles.OpenTable | src/sstable/reader.rs:36-84 | Opens exactly if the specified parse of the file succeeds, to its result |
| TableFiles.TableReader.Get | src/sstable/reader.rs:99-114 | The specified lookup |
| TableFiles.TableIter.Next | src/sstable/reader.rs:161-188 | Each call yields the next entry of the specified iteration, loading blocks on demand |
| TableFiles.DecodeIndex | src/sstable/reader.rs:230-246 | The index loop computes the specified parse, failing exactly when it does |
| TableFiles.DecodeBlock | src/sstable/reader.rs:249-272 | The block loop computes the specified parse, failing exactly when it does |
| TableFiles.WriteTable | src/compaction.rs:92-136 | Writes the table file of an ascending stream, none for an empty one; fails exactly if the name is taken or the stream is not ascending, in the latter case with the blocks sealed before in the file |
| TableFiles.ReadAllEntries | src/compaction.rs:81-88 | Collects exactly what the iterator yields, or fails where it fails |
| LsmVersion.FlushedOrder | src/manifest.rs:126-136 | A flushed table becomes the newest of the newest-first order |
| LsmVersion.CompactedOrder | src/manifest.rs:140-154 | A compaction replaces its tier's tables, in the newest-first order, by the output at their place |
| LsmVersion.ClearedOrder | src/compaction.rs:199-206 | An empty output just removes them |
| LsmVersion.BottomHasNothingBelow | src/compaction.rs:139-142 | If the output is at the bottom, no older table is left below |
| LsmVersion.CountersGrow | src/manifest.rs:126-154 | Sequence number and next table id never go back, and the next id is above every id given out |
| LsmVersion.TierDepth | src/manifest.rs:126-154 | In every version reached from empty with fanout f of at least 2, tables weighted by f to their tier are at most the flushes, so f to the number of tiers less one is too |
| LsmVersion.CascadeStepShrinks | src/compaction.rs:145-157 | Every compaction of a full tier lowers the number of tables |
| LsmVersion.FanoutOneLoops | src/db.rs:350-351 | With fanout 1 a lone table is compacted into a lone table one tier down: the premise on the fanout is needed |
| LsmVersion.FullTier | src/compaction.rs:145-157 | The first tier that has reached the fanout, none if all are below |
| ManifestFormat.VersionRoundTrip | src/manifest.rs:306-409 | Decoding an encoded version gives it back |
| ManifestFormat.DecodeVersionIff | src/manifest.rs:360-409 | Bytes decode to a version exactly if they are a body that begins with its encoding, magic and format number included, followed by the body's checksum |
| ManifestFormat.DamagedManifest | src/manifest.rs:360-409 | A manifest with any one byte changed does not decode |
| ManifestFormat.ManifestLayout | src/manifest.rs:306-325 | It begins with the magic, low byte first, and format number 1 |
| ManifestStore.EncodeManifest | src/manifest.rs:306-325 | The encoding loops compute the specified bytes |
| ManifestStore.DecodeManifest | src/manifest.rs:360-409 | The decoding loops compute the specified parse, failing exactly when it does |
| ManifestStore.Manifest.Install | src/manifest.rs:218-234 | The new version is current, the superseded ones somebody holds are remembered, and exactly the switch and the collection are issued |
| ManifestStore.Manifest.Gc | src/manifest.rs:237-267 | Deletes exactly the table files outside the live ids, ascending, with one directory sync if there are any |
| ManifestStore.RetainedIff | src/manifest.rs:237-250 | Of the superseded versions exactly those somebody holds are remembered |
| ManifestStore.IdsOfIff | src/manifest.rs:237-255 | and their ids are exactly the tables any of them refers to |
| ManifestStore.OpenManifest | src/manifest.rs:182-203 | Decodes the manifest, or installs the empty version when there is none; fails exactly when it does not decode |
| Database.Db.Write | src/db.rs:195-232 | Claim, log, apply, clear and the flush when the table is full: exactly the modelled state and operations, and the engine keeps meaning the map with the write |
| Database.Db.Put | src/db.rs:184-187 | The engine then means the map with the key set |
| Database.Db.Delete | src/db.rs:190-193 | The engine then means the map without the key |
| Database.Db.Get | src/db.rs:236-261 | Exactly the modelled lookup |
| Database.Db.Scan | src/db.rs:265-287 | Fails exactly when a table cannot be read; otherwise the lazy iterator it returns is about to yield exactly the modelled scan |
| Database.RunningInOrder | src/db.rs:265-287 | In every running state the tables can be read and every source of a scan is in key order, so a scan never fails |
| Database.Db.FlushNow | src/db.rs:291-311 | Exactly the modelled flush; the write path is open again afterwards |
| Database.Db.FlushQuiesced | src/db.rs:314-353 | Freeze, flush every frozen table, release the log, cascade: exactly the modelled state and operations |
| Database.Db.CompactOne | src/compaction.rs:160-210 | Exactly the modelled compaction of one tier |
| Database.Db.CascadeAll | src/db.rs:350-351 | The loop ends and is exactly the modelled cascade |
| Database.SnapshotOf | src/memtable/mod.rs:163-169 | The table's entries, ascending by key |
| Database.ReplayLog | src/db.rs:149-163 | The replay loop computes the specified replay and the next sequence number, failing exactly when a record does not decode |
| Database.OpenDb | src/db.rs:145-180 | Issues exactly the modelled operations, fails exactly when the manifest or a recovered record does not decode, and otherwise yields the modelled engine (which `OpenSafety.OpenSafe` shows to mean what the disk means) |
| Database.MeansNoScratch | src/wal/recovery.rs:100-113 | A disk that means a map holds no scratch file, which is what `OpenDb` needs |

## Left out

- Lives.CrashSafety: covers the durable modes `Always` and `GroupCommit` with one caller at a time, as the tests it generalizes do; threads at the moment of a crash are `ConcurrentWrites.WriteSurvives`, `ConcurrentDb.CrashAmidThreads` and `GroupRecovery.AppendsSurvive`, which are not joined into one machine with the engine's files. `OsBuffered` promises nothing under crashes and is not modelled.
- Lives.EventSafe: the only storage failures are the power loss and the errors the code provokes or tolerates (a taken name, a missing scratch file or manifest); partial writes and other failing system calls are outside, as they are outside the simulator.
- GroupCommit.Safety: a frame append is all or nothing.
- ConcurrentDb.CrashAmidThreads: a record of a failed write is in the log or not when the call returns; in group-commit mode the restored frame may also be written later by another leader, after the log has been released, and that is outside.
- ConcurrentDb.ReadsAreLinearizable: per key. A scan reads memory and tables at two moments, so nothing is claimed about several keys of one scan under concurrency.
- ConcurrentProgress.RunsEnd: how many compactions a flush makes is a free choice of the step relation; that the engine's cascade ends is `LsmVersion.CascadeStepShrinks`.
- TableDamage.DamagedTable: speaks of one changed byte, the detection the checksum guarantees; wider damage is refused unless its checksum happens to fit, which is what `TableDamage.OpenIff` and `TableDamage.LoadIff` say.
- Sim.Step: one directory, so `sync_dir` commits every entry; names are an enumerated type with integer ids, and path formatting and parsing are not modelled.
- Sim.Crash: the seeded generator is replaced by nondeterminism over the three tear modes, every length and every bit; its distribution is not modelled.
- FsView.StepRefines: only the operations the engine issues, so no write in place and no rename of a durably named file; `Simulator.SimFs` has them all.
- Crc.Crc32: the bitwise register computation; crc32fast's tables and vector code are not part of this model, and all theorems but the detection ones hold for any checksum.
- Bloom.NoFalseNegatives: xxh3 and the floating-point choice of the number of probes are parameters, so the false-positive rate is not stated.
- TableFormat.FindBlock: the library's `partition_point` and binary search appear as the first index not at or below the key and the entry with the key.
- Database.Db.Scan: asks that what can be read of the tables is in key order, as the builder enforces and `Database.RunningInOrder` shows for every running state. The reader cache map is left out.
- Database.Db.Write: the object runs one caller at a time, so the condition-variable waits are in the state machines only. Lock poisoning is left out.
- Database.Drain: the merge of the compaction inputs is collected into a sequence before it is written, where the source streams it.
- Database.OpenDb: the storage holds no scratch file of an interrupted rewrite, as after every power loss.
- Ghost arguments of the `Db` methods (`img`, `d`, `kv`) carry the invariant's witnesses; they have no counterpart in the source.
- The real file system, command line, benchmarks and scripts: input, output and timing only.
- Error texts, `Debug` and `Display` implementations.
