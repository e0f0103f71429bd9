# Verified model of Bichon's storage and mail paths

This project models, in Dafny, the parts of the Bichon mail archive where state is kept or decided on, and
proves what they promise over whole runs.

* **Blob store** (`crates/blob`). Bytes: `Words`, `Compression`, `Segment`, `SegmentLog`, `Index`. The store as
  a value and its operations: `BlobStore`, `StoreWrites`, `SingleWrites`, `BatchMarks`, `Reads`, `Runs`,
  `SegmentLimits`, `Statistics`. Collection: `Gc`, `GcMeaning`, `GcTransparency`, `TwoPhaseGc`, `Accounting`, `GcProgress`.
  Recovery: `Recovery`, `Opening`, `Reopening`, `Rebuild`, `Watermark`, `AnyRun`, `Books`. Crashes: `Crash`, `Marks`,
  `CrashPoints` (every disk state of every write), `CrashReads`, `TornAppends`, `Restarts`, `Lives` (whole lives of
  operations, crashes and restarts), `CrashCounts`, `CrashBooks`, `LifeBooks`, `GcCrash`, `Orphans`, `OpenCrash`. Runs
  in which a promise fails: `Witnesses`, `WitnessesOnDisk`, `WitnessesOfWatermarks`, `WitnessesOfCounts`.
  The engine object with its loops, each method proved equal to the operation on the value and to pass through the
  disk states of the crash theorems: `BlobEngine`, `DiskTrace`, `FilePool`.
* **Memory database** (`crates/memdb`): `Lines`, `Wal`, `MemDb`, `MemDbRuns`, `MemDbLimits`, `Listing`.
* **SMTP session** (`crates/smtp`): `MailData`, `CutMail`, `Unicode`, `PlainAuth`, `MailSession`,
  `MailWire`, `MailRuns`.
* **View access** (`crates/core`): `Access`.
* **Mbox import** (`crates/cli`): `Splitting`, `GmailLabels`, `MboxImport`.

Things outside the code are parameters: checksum and compression functions, the JSON codec, account and token
lookup, address folding, header parsing, the lists of known mail labels. `Compression.Lawful` and `Wal.Faithful` say what is asked of them; the
checksum is not asked anything.

Where the code does not do what its comments say, the model follows the code, and a lemma gives the exact
condition. The main cases:

* the watermark a collection writes counts data bytes, not file bytes, so a later reopen can fail, cut live
  entries off, bring back values that were overwritten or deleted, or take stored data for entries
  (`Watermark.ReopenAnyHarmless`, `AnyRun.RunThenReopen`, `AnyRun.CollectWritesReopen`);
* a collection drops the file of live empty values (`GcTransparency.CollectTransparent`), undoes writes to kept
  keys between its phases (`TwoPhaseGc.TransparentToWrites`), and can drop a tombstone that a rebuild needs
  (`Rebuild.CollectStaysFresh`);
* a rejected batch is seen by a reopen (`Restarts.RejectedThenReopened`) and by a rebuild
  (`Rebuild.RejectedThenRebuilt`), and repeated keys in a delete batch are
  counted twice (`Accounting.DeletesBalance`);
* opening saves its watermarks before it indexes what it replays, so a crash in between loses it
  (`OpenCrash.OpenInterrupted`), and recovery counts data twice after a crash behind `flush_active`
  (`Books.ReopenTotals`, `Books.BatchFlushCountsTwice`);
* a roll-over inside a delete saves the count of a key whose tombstone is not written, so that after a crash live
  and deleted bytes can exceed the total (`CrashBooks.CrashCovers`, `LifeBooks.LifeCovers`);
* a segment file that outlives a crash of its collection is found again but never collected (`Orphans.OrphanStays`);
* an append whose header is complete and whose data is not keeps the store from opening (`TornAppends.TornReopen`);
* a write-ahead log cut inside a character does not open, although corrupted lines are said never to prevent
  startup (`MemDbRuns.CrashKeepsBeginning`);
* overlapping snapshots and commits after an interrupted line lose entries (`MemDbLimits`);
* aggregates also cover accounts that are granted without the right to read them (`Access.AggregateMeans`);
* a mail is received although the connection closed before its terminator (`CutMail.CutMailIsReceived`).

`dafny verify dfyconfig.toml` checks the whole project.

## Model

| member | source | states |
|---|---|---|
| `Compression.CompressRoundTrip` | crates/blob/src/compress.rs:3-47 | decompressing what `compress` stored, under the codec it reports, gives the value back, for every codec, threshold and level |
| `Compression.Compress` | crates/blob/src/compress.rs:3-29 | a value is stored encoded if and only if it is at least the threshold long and encoding makes it shorter; otherwise as it is |
| `Words.LE32Bijective` | crates/blob/src/segment.rs:110-151 | 32-bit little-endian fields decode to what was encoded, and every four bytes are the encoding of what they decode to |
| `Words.LE64Bijective` | crates/blob/src/bucket.rs:36-73 | the same for 64-bit fields |
| `Words.LE32Bytes` | crates/blob/src/segment.rs:110-151 | the least significant byte comes first |
| `Words.LE64Bytes` | crates/blob/src/bucket.rs:36-73 | a 64-bit field is its low word, then its high word |
| `Segment.DecodeFramed` | crates/blob/src/segment.rs:189-278 | a framed entry in any file, at any offset, decodes to that entry and the offset after it; with a wrong checksum field it is reported as a mismatch |
| `Segment.DecodeSound` | crates/blob/src/segment.rs:189-278 | bytes that decode are the encoding of the decoded entry |
| `Segment.DecodeExact` | crates/blob/src/segment.rs:189-369 | an entry is read at an offset if and only if its encoding stands there |
| `Segment.DecodeVerdict` | crates/blob/src/segment.rs:189-369 | for every file and offset, from the bytes alone: an I/O error with fewer than 50 bytes left; otherwise corruption if and only if magic, codec or size is refused, an I/O error if the data runs past the end, a mismatch if the checksum is wrong, and else the entry field by field |
| `Segment.SegmentWriter.Create` | crates/blob/src/segment.rs:63-72 | a new segment is an empty file with the writer at its end |
| `Segment.SegmentWriter.OpenAppend` | crates/blob/src/segment.rs:74-84 | appending to an existing file starts at its length |
| `Segment.SegmentWriter.WriteBody` | crates/blob/src/segment.rs:110-151 | header with a zero checksum, then key, sizes and data |
| `Segment.SegmentWriter.Append` | crates/blob/src/segment.rs:103-151 | placeholder checksum, seek back, patch, seek to end: the file is the old file plus exactly the encoding, and the old length is returned |
| `Segment.ReadHeader` | crates/blob/src/segment.rs:189-241 | the shared header checks in source order; when the file ends inside the header, which of the two errors comes first |
| `Segment.ReadEntryAt` | crates/blob/src/segment.rs:189-278 | the streaming reader returns what the byte-level decoder says on every file and offset, except that with fewer than 50 bytes left a wrong magic or codec that is there is reported as corruption and not as a short read |
| `Segment.ReadEntryAtFile` | crates/blob/src/segment.rs:282-369 | the positional reader returns what the byte-level decoder says on every file and offset; with fewer than 50 bytes left that is always a short read |
| `SegmentLog.AppendKeepsPlaced` | crates/blob/src/segment.rs:103-108 | an append extends the placed log by the entry at the returned offset |
| `SegmentLog.Ordered` | crates/blob/src/segment.rs:103-108 | entries of a log do not overlap |
| `SegmentLog.SameOffset` | crates/blob/src/segment.rs:103-108 | an offset names one entry |
| `SegmentLog.ReadPlaced` | crates/blob/src/segment.rs:189-278 | reading at the offset an append returned gives that entry back, whatever was appended since |
| `SegmentLog.ScanEntries` | crates/blob/src/segment.rs:394-425 | the scan loop visits exactly what the recursive definition says and stops or fails where it does |
| `SegmentLog.ScanFromBoundary` | crates/blob/src/segment.rs:394-425 | from any entry boundary the scan visits the remaining entries and then whatever follows the log |
| `SegmentLog.ScanWholeLog` | crates/blob/src/segment.rs:394-425 | a log written by appends scans back to itself and ends at the file length |
| `SegmentLog.ScanTail` | crates/blob/src/segment.rs:394-425 | arbitrary bytes after a log are cut off and the log recovered if and only if they are shorter than a header, or their header is refused or their checksum wrong within one maximal entry of the end |
| `SegmentLog.ScanVerdict` | crates/blob/src/segment.rs:394-425 | what a scan does at an offset, from the bytes alone: stop, cut there, fail because damage is too far from the end or data runs past it, or go on behind the entry |
| `SegmentLog.ZeroTailIsCut` | crates/blob/src/segment.rs:394-425 | zero bytes after a log, fewer than a maximal entry, are cut off from any boundary |
| `SegmentLog.TornAppend` | crates/blob/src/segment.rs:110-151 | the exact scan result for an append that stopped after any number of bytes |
| `Index.RecordRoundTrip` | crates/blob/src/bucket.rs:36-73 | an index record that fits its words decodes to itself |
| `Index.RecordVerdict` | crates/blob/src/bucket.rs:48-73 | a row is read if and only if its checksum is right, and each field from its own bytes |
| `Index.RecordCanonical` | crates/blob/src/bucket.rs:48-73 | a decoded row is the canonical encoding if and only if its padding is zero |
| `Index.InsertAllAt` | crates/blob/src/bucket.rs:187-209 | after a batch a key holds the last record for it, or what it held before |
| `BlobStore.ApplyAllAt` | crates/blob/src/engine.rs:265-433 | a sequence of writes acts on a key through its last write |
| `StoreWrites.WriteOneInv` | crates/blob/src/engine.rs:265-339 | a put or delete keeps the invariant and changes exactly its key |
| `StoreWrites.AppendManyFacts` | crates/blob/src/engine.rs:739-774 | the append loop keeps all earlier entries, places each new one, and its records are the new history |
| `StoreWrites.BatchInv` | crates/blob/src/engine.rs:390-433 | an accepted batch acts as its puts in order |
| `StoreWrites.RejectedInv` | crates/blob/src/engine.rs:402-404 | a rejected batch leaves entries on disk and changes no read |
| `StoreWrites.DeleteBatchInv` | crates/blob/src/engine.rs:347-388 | a delete batch acts as its tombstones in order |
| `Reads.GetMeans` | crates/blob/src/engine.rs:293-312 | `get` returns the decompressed live entry of the key, or nothing |
| `Runs.StepRefines` | crates/blob/src/engine.rs:265-433 | every operation does to the store what it does to a plain map of values |
| `Runs.RunRefines` | crates/blob/src/engine.rs:265-433 | every run is the run of a plain map |
| `Runs.EveryRunReadsLastWrite` | crates/blob/src/engine.rs:265-433 | after every run of put, delete, batches (rejected ones too), seal, flush and collection, `get` returns the last value written, or nothing |
| `Runs.NonEmptyRunsAreSafe` | crates/blob/src/engine.rs:701-716 | runs whose values are not empty never meet the collection that drops live data |
| `SegmentLimits.RunWithinLimits` | crates/blob/src/segment.rs:98-100 | in every run each segment file stays below 1 GiB + 50 + 100 MiB, every entry passes the decoder, and its index row fits its words |
| `SegmentLimits.ReopenOnlyCuts` | crates/blob/src/recovery.rs:37-126 | opening any disk, damaged or not, leaves every file a prefix of what it was, so the bound on file sizes survives |
| `Statistics.RunIsTruthful` | crates/blob/src/meta.rs:124-130 | in every run exactly the segments before the active one are sealed, and every ratio is deleted over total |
| `Statistics.RunFillsSegments` | crates/blob/src/engine.rs:739-751 | in every run without a request to seal and without collections, every segment before the active one holds at least 1 GiB |
| `Gc.CandidateIsMax` | crates/blob/src/gc.rs:53-62 | no sealed segment at or above the threshold has a higher ratio than the one chosen, and on a tie the last is taken |
| `Gc.CompactExact` | crates/blob/src/gc.rs:85-127 | the rewritten file holds exactly the entries the index points at |
| `Gc.CompactDistinct` | crates/blob/src/gc.rs:85-127 | each key is kept at most once |
| `Gc.KeptIsCurrent` | crates/blob/src/gc.rs:91-127 | a kept entry is the current value of its key |
| `Gc.CurrentIsKept` | crates/blob/src/gc.rs:91-127 | a current value in the segment is kept |
| `Gc.DeletedKeysEmpty` | crates/blob/src/gc.rs:92-106 | the list of index rows to remove is always empty, because lookup hides tombstones |
| `GcMeaning.RedirectMeans` | crates/blob/src/engine.rs:664-699 | with the file replaced and the index redirected, every kept entry is applied on top of whatever was written meanwhile |
| `GcTransparency.FinishReads` | crates/blob/src/engine.rs:664-733 | after phase 2 a kept key reads as at phase 1, or not at all if its file was dropped, and every other key as just before phase 2 |
| `GcTransparency.TwoPhaseTransparent` | crates/blob/src/engine.rs:664-716 | writes between the phases survive if and only if the collection drops no live values and every kept key still reads as it did at phase 1 |
| `GcTransparency.DropLosesKey` | crates/blob/src/engine.rs:704-716 | a collection whose kept values are all empty makes a live key unreadable |
| `GcTransparency.CollectTransparent` | crates/blob/src/engine.rs:664-733 | an undisturbed collection changes no read if and only if it does not drop the file of live empty values |
| `GcTransparency.CollectInv` | crates/blob/src/engine.rs:664-733 | such a collection keeps the invariant with the same meaning |
| `TwoPhaseGc.TransparentToWrites` | crates/blob/src/engine.rs:664-716 | the same if-and-only-if for any run of operations between the phases, collections of this and other segments included, as long as none removes the segment |
| `TwoPhaseGc.WritesStay` | crates/blob/src/engine.rs:265-433 | writes alone remove no segment |
| `TwoPhaseGc.FinishRestores` | crates/blob/src/engine.rs:664-733 | when another collection removed the segment in between, phase 2 puts its file and all its kept rows back, and the segment has no statistics |
| `TwoPhaseGc.DisjointWritesAreSafe` | crates/blob/src/engine.rs:664-699 | writes to keys that were not kept are never undone |
| `GcProgress.CollectReclaims` | crates/blob/src/gc.rs:109-121 | a collection frees at least `deleted_bytes` and leaves at most one minus the ratio of the data |
| `GcProgress.CollectMakesProgress` | crates/blob/src/engine.rs:648-733 | each pass leaves exactly one eligible segment fewer |
| `GcProgress.CollectAll` | crates/blob/src/engine.rs:648-662 | repeated collection terminates with nothing left to collect |
| `GcProgress.NothingLeft` | crates/blob/src/gc.rs:53-62 | then every sealed segment is below the threshold |
| `Statistics.RunThenCollected` | crates/blob/src/gc.rs:53-62 | then in every segment before the active one the deleted part of the data is below the threshold |
| `Accounting.PutsBalance` | crates/blob/src/engine.rs:762-771 | puts keep live plus deleted bytes within the total of every segment |
| `Accounting.DeletedSegment` | crates/blob/src/engine.rs:358-375 | what a delete batch does to live and deleted bytes of one segment, repeated keys included |
| `Accounting.DeletesBalance` | crates/blob/src/engine.rs:358-375 | a delete batch keeps the books within the total if and only if what its repeated keys count again still fits |
| `GcProgress.CollectBalances` | crates/blob/src/engine.rs:717-733 | a collection keeps the books balanced |
| `GcProgress.RunBalances` | crates/blob/src/engine.rs:314-375 | in every run with distinct keys per delete batch the books balance in every segment |
| `Books.ReopenTotals` | crates/blob/src/recovery.rs:68-121 | a reopen restores the total of a segment if and only if the saved one counts exactly the data before its watermark |
| `Books.BatchFlushCountsTwice` | crates/blob/src/engine.rs:421-423 | a batch that dies between the save of `flush_active` and the index transaction: after the reopen each segment counts twice what the batch wrote to it and what was behind its watermark |
| `CrashCounts.PointsSettled` | crates/blob/src/engine.rs:265-433 | at every disk state of every write with distinct deletes but one the saved metadata counts no more deletes than there are tombstones on disk, and after the first watermark update all of the write; the exception is a delete whose roll-over has saved its count ahead of its tombstone |
| `CrashBooks.CrashCovers` | crates/blob/src/recovery.rs:80-116 | a crash at any disk state of any write with distinct deletes, from any boundary watermarks and covered counts, then a reopen: live plus deleted bytes are within the total of every segment if and only if the state is not that exception with a count that exceeds what a segment can take |
| `CrashBooks.CrashCoversAtRest` | crates/blob/src/engine.rs:358-375 | from a store at rest that is: the counted key is larger than the slack of its segment |
| `LifeBooks.LifeCovers` | crates/blob/src/engine.rs:105-733 | in every life with distinct deletes, through crashes and restarts, live plus deleted bytes stay within the total everywhere if and only if no crash is such a one |
| `Books.CleanRestartBalances` | crates/blob/src/engine.rs:105-157 | restarting a store at rest keeps balanced books |
| `Books.RebuildBalances` | crates/blob/src/recovery.rs:23-33 | a rebuild leaves balanced books, whatever they were |
| `BatchMarks.SortEnds` | crates/blob/src/engine.rs:426-426 | the sort gives a sorted permutation |
| `BatchMarks.DedupEnds` | crates/blob/src/engine.rs:427-427 | an end is dropped if and only if its segment is that of the end last kept |
| `BatchMarks.SortDedupExact` | crates/blob/src/engine.rs:426-427 | whatever sorted order the sort gives: what the removal of duplicates leaves is exactly the highest end of each segment, in rising order |
| `BatchMarks.SortDedupHighest` | crates/blob/src/engine.rs:425-427 | for the records of a batch that is the last record of each segment |
| `BatchMarks.HighestEndsExact` | crates/blob/src/engine.rs:425-427 | the last record of each segment is the one that ends furthest on |
| `BatchMarks.HighestEndsSuffice` | crates/blob/src/engine.rs:425-430 | marking only those sets the same watermarks as marking every record |
| `BatchMarks.BatchAscends` | crates/blob/src/engine.rs:401-419 | the records of a batch are in log order |
| `BatchMarks.PartialMarks` | crates/blob/src/engine.rs:428-430 | between two watermark updates the watermarks are those of marking a prefix of the records |
| `Recovery.ReopenReplays` | crates/blob/src/recovery.rs:37-126 | reopening replays the records after the watermarks into the index and cuts damaged tails |
| `Recovery.ReopenRebuilds` | crates/blob/src/recovery.rs:23-33 | reopening without index rebuilds it from every record on disk |
| `Recovery.ReopenIdempotent` | crates/blob/src/engine.rs:105-157 | a second reopen changes nothing |
| `Opening.OpenedActive` | crates/blob/src/engine.rs:105-157 | every open that succeeds, of any directory: the active segment is the largest number known and has a file, empty when there was none, no other file comes or goes, and exactly the other segments are sealed |
| `Opening.LargestUnique` | crates/blob/src/engine.rs:105-137 | there is only one such number |
| `Opening.FirstOpen` | crates/blob/src/engine.rs:94-157 | opening an empty directory gives the empty store with its first file |
| `Reopening.ReopenExact` | crates/blob/src/recovery.rs:37-126 | watermarks on any entry boundaries and any tail that recovery cuts: the open succeeds, a second one changes nothing, every watermark is at its end, and exactly the entries behind the old ones are replayed |
| `Reopening.ReopenReads` | crates/blob/src/recovery.rs:68-121 | after a reopen a key reads as the last entry behind the watermarks, and otherwise as before |
| `Reopening.ReopenHarmless` | crates/blob/src/recovery.rs:68-121 | a reopen leaves every read as it was if and only if the last entry behind the watermarks for each key reads as the key does now |
| `CrashReads.PointsAreMid` | crates/blob/src/engine.rs:265-433 | every disk state of every write, in source order, is a crash point of the theorems: between appends, inside roll-over and seal, after the flush, after the index transaction, between watermark updates, for puts, deletes, batches and rejected batches |
| `CrashReads.CrashReadsKey` | crates/blob/src/engine.rs:105-157 | what a key reads after a crash there and a reopen, and that this is what the appended prefix of the write left if and only if no older entry behind the watermarks overtakes it |
| `CrashReads.CrashKeepsPrefix` | crates/blob/src/engine.rs:105-157 | a crash at any such state of any write with any tail that recovery cuts: the store reopens, a second open changes nothing, and all reads are those of the appended prefix if and only if no key is overtaken |
| `CrashReads.CrashAtRest` | crates/blob/src/engine.rs:105-157 | from a store with every watermark at its end, the reopened store means exactly the appended prefix |
| `TornAppends.TornReopen` | crates/blob/src/segment.rs:110-151 | an append cut short after any number of bytes behind any boundary watermarks: the open fails if and only if the header is complete and the data is not, or the image is complete, its checksum not patched and the value of the greatest size |
| `TornAppends.TornCrash` | crates/blob/src/recovery.rs:80-121 | the same at every disk state of every write |
| `Restarts.StepResumable` | crates/blob/src/engine.rs:265-433 | every operation but a collection leaves watermarks on entry boundaries, and which |
| `Restarts.RejectedReads` | crates/blob/src/engine.rs:402-404 | what a key reads after a rejected batch and a plain reopen: the last entry behind the watermarks or in the batch, or as before |
| `Restarts.RejectedThenReopened` | crates/blob/src/engine.rs:402-404 | after a rejected batch a plain reopen agrees with the running store if and only if each key already read as the last entry left behind the watermarks |
| `Restarts.CollectResumable` | crates/blob/src/engine.rs:717-729 | a collection whose kept data adds up to an entry boundary leaves boundary watermarks |
| `Lives.LifeInv` | crates/blob/src/engine.rs:105-733 | in every life of operations, collections on boundaries, crashes at any disk state and restarts, index and watermarks stay recoverable |
| `Lives.LifeWithinLimits` | crates/blob/src/segment.rs:98-100 | in every such life every segment file stays within its limits |
| `Lives.LifeReads` | crates/blob/src/engine.rs:105-433 | in every such life in which no crash is overtaken, every key reads as the last write that reached the disk left it |
| `Lives.RestfulLifeReads` | crates/blob/src/engine.rs:105-433 | that holds of every life without rejected batches and without collections that keep data, however often and wherever it crashes |
| `Watermark.BoundaryRescan` | crates/blob/src/recovery.rs:68-121 | from a watermark on an entry boundary the scan finds exactly the entries behind it and keeps the file |
| `Watermark.StrayRescan` | crates/blob/src/recovery.rs:68-121 | from a watermark inside an entry, where the bytes imitate none, the file is cut there if recovery takes them for damage, and otherwise the open fails |
| `Watermark.ForgedRescan` | crates/blob/src/recovery.rs:68-121 | where they imitate an entry, that entry is found and whatever follows it |
| `Watermark.ReopenAny` | crates/blob/src/recovery.rs:37-126 | any store, watermarks anywhere and any data: whether the reopen fails, and otherwise the exact files and index it leaves |
| `Watermark.ReopenAnyReads` | crates/blob/src/recovery.rs:68-121 | what every key then reads |
| `Watermark.ReopenAnyHarmless` | crates/blob/src/engine.rs:721-727 | a reopen of any store succeeds with unchanged reads if and only if no scan fails, the last entry found for each key, genuine or imitated by stored data, reads as the key does, and no other live row points into bytes that are cut off |
| `AnyRun.RunThenReopen` | crates/blob/src/engine.rs:105-733 | any run with any data, collections and rejected batches, then a reopen: every key reads as the last write if and only if those conditions hold |
| `AnyRun.CollectWritesReopen` | crates/blob/src/engine.rs:717-729 | a collection on a boundary, any writes, then a reopen: a key kept from that boundary on reads as it was kept, so every read survives if and only if no such key was overwritten or deleted |
| `GcCrash.GcCrashKeepsReads` | crates/blob/src/engine.rs:664-733 | a crash inside phase 2, after the rename, after either index transaction, or before the emptied file is removed: every read is as before the collection |
| `GcCrash.GcCrashExactly` | crates/blob/src/engine.rs:664-733 | the same crash with the watermarks anywhere and any operations between the phases: every read is as just before phase 2 if and only if no scan fails and each key reads so through the last entry the scans find for it, or else through its row |
| `GcCrash.RedirectedReads` | crates/blob/src/engine.rs:690-716 | once the rows are redirected, a key for which the scans find nothing reads as at phase 1 if kept and as just before phase 2 otherwise, unless its entry is cut off |
| `Orphans.OrphanStays` | crates/blob/src/engine.rs:704-716 | the file of an emptied segment that outlives such a crash stays as it is through every later operation, delete, collection, crash and restart, and no collection ever picks it |
| `OpenCrash.OpenInterrupted` | crates/blob/src/engine.rs:141-146 | a crash inside `open` between the saved watermarks and the index transaction: what would have been replayed is lost, harmlessly if and only if each key already read as the last entry behind the watermarks |
| `OpenCrash.RebuildInterrupted` | crates/blob/src/engine.rs:94-146 | the same crash inside a rebuild leaves every key absent |
| `Rebuild.RebuiltKey` | crates/blob/src/gc.rs:91-127 | what a rebuild after a collection finds for one key |
| `Rebuild.CollectStaysFresh` | crates/blob/src/gc.rs:91-127 | after a collection a rebuild agrees with the index if and only if no key lost its newest tombstone over a surviving earlier put |
| `Rebuild.RejectedThenRebuilt` | crates/blob/src/engine.rs:402-404 | after a rejected batch a rebuild agrees with the running store if and only if each key already read as the last value left behind |
| `Rebuild.RunStaysFresh` | crates/blob/src/recovery.rs:23-33 | in every run of rebuildable steps a rebuild agrees with the index |
| `Rebuild.RebuildKeepsReads` | crates/blob/src/recovery.rs:23-33 | then losing the index loses no read |
| `Rebuild.LostIndexInRun` | crates/blob/src/recovery.rs:23-33 | after any such run and the loss of the index, every key reads as the last write left it |
| `Witnesses.CollectionLosesEmptyValue` | crates/blob/src/engine.rs:704-716 | a five-step run in which a collection loses an empty value |
| `Witnesses.DeletedKeyComesBack` | crates/blob/src/engine.rs:667-692 | a key deleted between the phases can be read again |
| `WitnessesOnDisk.DuplicateDeletesOvercount` | crates/blob/src/engine.rs:358-367 | one key twice in a delete batch counts more than the segment holds |
| `WitnessesOnDisk.RejectedValueAppears` | crates/blob/src/engine.rs:402-404 | a value of a rejected batch is absent while running and present after a rebuild |
| `WitnessesOnDisk.RejectedValueReopens` | crates/blob/src/engine.rs:402-404 | the same after a plain reopen |
| `WitnessesOnDisk.InterruptedOpenLosesPut` | crates/blob/src/engine.rs:141-146 | a put dies after its append: a reopen finds the value, and if that reopen dies after it saved the watermarks, no later one does |
| `WitnessesOfCounts.DeleteOvercounts` | crates/blob/src/engine.rs:358-375 | eleven values of 100 MiB and a crash in the delete of the first: the key still reads, and live plus deleted bytes exceed the total |
| `WitnessesOfWatermarks.ReopenLosesCollected` | crates/blob/src/engine.rs:725-725 | after a collection that kept one byte a reopen succeeds and the key cannot be read |
| `WitnessesOfWatermarks.ForgedKeyAppears` | crates/blob/src/engine.rs:725-725 | after a collection that kept a value which is itself an encoded entry, a reopen finds a key that was never put |
| `WitnessesOfWatermarks.ReopenFails` | crates/blob/src/engine.rs:725-725 | after a collection that kept a value which looks like an entry header, the store does not open |
| `WitnessesOnDisk.DeletedKeyReopens` | crates/blob/src/engine.rs:725-725 | a collection on a boundary, a delete and a reopen: the deleted key reads again |
| `WitnessesOnDisk.DroppedTombstoneReturns` | crates/blob/src/gc.rs:92-106 | a deleted key returns with a rebuild after its tombstone was collected |
| `BlobEngine.InsertBatch` | crates/blob/src/bucket.rs:187-209 | the row loop inserts all records, the last one for a key winning |
| `BlobEngine.ScanFiles` | crates/blob/src/recovery.rs:37-126 | the loop over the segments in ascending order, stopping at the first failure |
| `BlobEngine.Tally` | crates/blob/src/recovery.rs:80-116 | the sums over the scanned entries |
| `BlobEngine.ScanFile` | crates/blob/src/recovery.rs:68-121 | one segment: start offset, scan, truncation and statistics |
| `BlobEngine.OpenDisk` | crates/blob/src/engine.rs:94-157 | the recovery part of opening is the reopen function that `Opening` and the crash theorems speak of |
| `BlobEngine.OpenNew` | crates/blob/src/engine.rs:94-157 | opening a new directory gives a valid engine on the empty store |
| `BlobEngine.Engine.constructor` | crates/blob/src/engine.rs:147-157 | the engine takes over what recovery leaves, with the writer at the end of the active file |
| `BlobEngine.Engine.Get` | crates/blob/src/engine.rs:293-312 | reading through index, pooled file handle and decompression; the pool stays current |
| `BlobEngine.Engine.SealActive` | crates/blob/src/engine.rs:790-825 | an empty active segment stays; otherwise it is sealed and the next one opened, through exactly two disk states |
| `BlobEngine.Engine.Seal` | crates/blob/src/engine.rs:790-825 | the disk states passed are those of `CrashPoints` for a seal |
| `BlobEngine.Engine.Flush` | crates/blob/src/engine.rs:453-457 | the metadata is saved; the disk states passed are those of `CrashPoints` |
| `BlobEngine.Engine.WriteEntry` | crates/blob/src/engine.rs:751-760 | the file grows by the encoding of the entry |
| `BlobEngine.Engine.AppendActive` | crates/blob/src/engine.rs:751-774 | append and account |
| `BlobEngine.Engine.AppendEntry` | crates/blob/src/engine.rs:739-774 | roll over a full segment first |
| `BlobEngine.Engine.MarkIndexed` | crates/blob/src/engine.rs:781-788 | a watermark only moves forward |
| `BlobEngine.Engine.MarkEach` | crates/blob/src/engine.rs:428-430 | the watermark loop of a batch |
| `BlobEngine.Engine.AccountDelete` | crates/blob/src/engine.rs:314-331 | deleted bytes go to the segment of the live value |
| `BlobEngine.Engine.WriteOne` | crates/blob/src/engine.rs:275-291 | append, index, mark |
| `BlobEngine.Engine.Put` | crates/blob/src/engine.rs:265-291 | a value above 100 MiB is refused, otherwise stored; the disk states passed are exactly those the crash theorems quantify over |
| `BlobEngine.Engine.Delete` | crates/blob/src/engine.rs:314-339 | account, tombstone, index; the disk states passed are exactly those of the crash theorems |
| `BlobEngine.Engine.Commit` | crates/blob/src/engine.rs:421-433 | index transaction and watermarks |
| `BlobEngine.Engine.AppendItems` | crates/blob/src/engine.rs:397-420 | the batch loop stops at the first oversized value with its appends on disk |
| `BlobEngine.Engine.PutBatch` | crates/blob/src/engine.rs:390-433 | all, with the ends sorted and without duplicates, or, after an oversized value, the appends alone; the disk states passed are exactly those of the crash theorems |
| `BlobEngine.Engine.AppendTombstones` | crates/blob/src/engine.rs:356-380 | the delete loop accounts against the index as it was |
| `BlobEngine.Engine.DeleteBatch` | crates/blob/src/engine.rs:347-388 | the whole delete batch; the disk states passed are exactly those of the crash theorems |
| `BlobEngine.Engine.PickSegment` | crates/blob/src/gc.rs:53-62 | the choice loop |
| `BlobEngine.Engine.CompactSegment` | crates/blob/src/gc.rs:85-127 | the scan closure that keeps, drops and counts |
| `BlobEngine.Engine.GcPrepare` | crates/blob/src/gc.rs:47-146 | phase 1 changes nothing |
| `BlobEngine.Engine.RedirectIndex` | crates/blob/src/engine.rs:667-699 | kept rows in, deleted keys out |
| `BlobEngine.Engine.DropSegment` | crates/blob/src/engine.rs:704-716 | an emptied segment loses its file and statistics |
| `BlobEngine.Engine.ResetSegment` | crates/blob/src/engine.rs:717-729 | the statistics of a collected segment |
| `BlobEngine.Engine.ReplaceFile` | crates/blob/src/gc.rs:149-151 | the rename changes one file |
| `BlobEngine.Engine.GcFinish` | crates/blob/src/engine.rs:664-733 | phase 2 as a whole; the disk states passed are those of `GcCrash` and the final one |
| `FilePool.Pool.Get` | crates/blob/src/file_pool.rs:25-48 | a hit moves to the front, a miss opens and evicts the last; the handle reads the current file |
| `FilePool.Pool.Invalidate` | crates/blob/src/file_pool.rs:50-53 | the segment leaves the pool |
| `FilePool.ReplaceThenInvalidate` | crates/blob/src/engine.rs:687-688 | replacing a file and invalidating it keeps every pooled handle current |
| `FilePool.PoolIsMostRecent` | crates/blob/src/file_pool.rs:25-53 | after every history the pool is the most recent part of the recency order, bounded and without duplicates |
| `Lines.CutUtf8` | crates/memdb/src/wal.rs:58-59 | a cut through text leaves text if and only if it is not inside a character |
| `Unicode.TextIsEncoded` | crates/memdb/src/wal.rs:58-59 | the decoder accepts exactly the encodings, by the arithmetic of section 3 of RFC 3629, of sequences of Unicode scalar values |
| `Wal.ReadAfter` | crates/memdb/src/wal.rs:51-74 | the line loop: entries above the number are kept, other lines skipped, bytes that are not text are an error |
| `Wal.ReadText` | crates/memdb/src/wal.rs:36-74 | every whole line written is read back, in order |
| `Wal.ReadInterrupted` | crates/memdb/src/wal.rs:36-74 | a write cut after any number of bytes: the log opens if and only if no character is split, and holds each entry wholly or not at all |
| `Wal.WriteAfterInterruption` | crates/memdb/src/wal.rs:36-74 | writing after an interrupted line: everything is read back if and only if there was no such line, otherwise the first new entry and the interrupted one are lost |
| `MemDb.Apply` | crates/memdb/src/db.rs:151-166 | the operations of one entry, applied one after another: every record of every collection holds what the last operation on it left, or what it held |
| `MemDb.LastOpIs` | crates/memdb/src/db.rs:151-166 | which operation of a list is the last on a record |
| `MemDb.ReplayAt` | crates/memdb/src/db.rs:190-210 | after any entries a record holds what the last operation on it left, and a collection exists if and only if something was ever put into it |
| `MemDb.Recover` | crates/memdb/src/db.rs:190-210 | snapshot, then the entries it does not cover |
| `MemDb.Inner.constructor` | crates/memdb/src/db.rs:217-231 | the opened database holds what recovery found and nothing pending |
| `MemDb.Inner.WriteEntry` | crates/memdb/src/wal.rs:36-40 | one line per entry |
| `MemDb.Inner.FlushPending` | crates/memdb/src/db.rs:133-147 | all pending entries reach the log in order |
| `MemDb.Inner.Commit` | crates/memdb/src/db.rs:80-116 | number, apply, then write or queue by durability: at once in Full and Off, in Batch all together once `max_ops` are queued and nothing before; an empty commit does nothing |
| `MemDb.Inner.Capture` | crates/memdb/src/db.rs:274-285 | the snapshot is taken from memory under the lock |
| `MemDb.Inner.Install` | crates/memdb/src/db.rs:288-290 | the rename replaces the snapshot file at once |
| `MemDb.Inner.Truncate` | crates/memdb/src/db.rs:294-311 | the log is emptied only when no commit came since |
| `MemDbRuns.StepInv` | crates/memdb/src/db.rs:80-315 | every step, crashes and restarts included, keeps memory, log and snapshots in agreement with the history |
| `MemDbRuns.RunHistory` | crates/memdb/src/db.rs:80-315 | every run with one snapshot at a time has such a history |
| `MemDbRuns.HistoryIsCommits` | crates/memdb/src/db.rs:80-116 | until a crash the history is everything committed, in order, and every record holds what the last committed operation on it left |
| `MemDbRuns.CrashKeepsBeginning` | crates/memdb/src/db.rs:80-315 | a crash anywhere in any run, after any number of bytes: opening restores exactly a beginning of the commits, every record as the last operation in it left it, all of them in Full and Off, and fewer than `max_ops` short in Batch; it fails if and only if a character was split |
| `MemDbLimits.InstallKeepsLogged` | crates/memdb/src/db.rs:287-290 | renaming a snapshot keeps every logged entry if and only if it counts all entries truncated since it was taken |
| `MemDbLimits.TruncateKeepsLogged` | crates/memdb/src/db.rs:292-311 | truncating keeps every logged entry if and only if the snapshot file counts them all |
| `MemDbLimits.OverlapLosesCommit` | crates/memdb/src/db.rs:274-311 | two overlapping snapshots lose a commit |
| `MemDbLimits.CommitAfterInterruption` | crates/memdb/src/db.rs:80-231 | after a reopen on an interrupted line, of all commits up to the next flush in any durability mode the first survives if and only if there was no such line, and all others survive |
| `MemDbLimits.SplitCharacterFailsOpen` | crates/memdb/src/wal.rs:58-59 | a first commit cut before a continuation byte: the database does not open |
| `Listing.ScanIsFilter` | crates/memdb/src/db.rs:512-522 | the ranged prefix scan returns exactly the records with the prefix, in order |
| `Listing.Listed` | crates/memdb/src/query.rs:15-43 | row i of a listing is row i of the collection, or row i from the end when descending |
| `Listing.PagesCoverListing` | crates/memdb/src/query.rs:15-43 | the announced pages are the whole listing, forwards or backwards, if and only if the page-count sum stays below 2^64 |
| `MailData.ReadData` | crates/smtp/src/server.rs:677-723 | the receiving loop, never returning more than 50 MiB |
| `MailData.ReceiveUndoesStuffing` | crates/smtp/src/server.rs:677-723 | receiving inverts the dot stuffing of section 4.5.2 of RFC 5321 and stops just after the terminator if and only if every line is text, no white-space-led line is a lone dot, and the whole is within 50 MiB |
| `MailData.BlankDotEndsMail` | crates/smtp/src/server.rs:711-713 | a lone dot after a blank ends the mail |
| `Unicode.DotLineIs` | crates/smtp/src/server.rs:711-713 | on text, the line that ends a mail is exactly a dot and otherwise only characters with the property White_Space |
| `CutMail.CutMailIsReceived` | crates/smtp/src/server.rs:690-722 | a connection closed after any number of bytes before the end of the terminator: the lines that arrived whole and what is kept of the cut one are taken for a mail if and only if those lines are sendable, no character is split, and the bytes are within 50 MiB |
| `CutMail.CutOutcome` | crates/smtp/src/server.rs:690-722 | the exact outcome when the lines that arrived whole are sendable: too big, not text, or the mail so far |
| `CutMail.CutBehindStop` | crates/smtp/src/server.rs:690-722 | when one of them is not, the cut makes no difference to the mail |
| `CutMail.CutAccepted` | crates/smtp/src/server.rs:695-697 | a sendable mail cut short is accepted if and only if the cut splits no character |
| `CutMail.DeliveredIsPrefix` | crates/smtp/src/server.rs:690-722 | what a cut mail delivers is a beginning of the mail, and all of it exactly when only the terminator was cut |
| `CutMail.HalfLineIsReceived` | crates/smtp/src/server.rs:695-697 | a line of two letters cut after the first is received as a mail of one letter |
| `CutMail.UnterminatedArrives` | crates/smtp/src/server.rs:690-722 | an unterminated mail arrives whole if and only if it is sendable and all its lines came |
| `PlainAuth.ThirdPart` | crates/smtp/src/server.rs:642-645 | the third part between zero bytes is the password of such a message, and there is one only then |
| `MailSession.SmtpSession.constructor` | crates/smtp/src/server.rs:147-163 | a new session holds nothing |
| `MailSession.SmtpSession.Clear` | crates/smtp/src/server.rs:165-169 | reset forgets sender, recipients and journal flag, not the login |
| `MailSession.SmtpSession.VerifyPlain` | crates/smtp/src/server.rs:636-667 | a login if and only if the text decodes to a message of section 2 of RFC 4616 whose password is a known token, a fourth part being ignored; the user is that of the token |
| `MailSession.SmtpSession.ContinueAuth` | crates/smtp/src/server.rs:291-337 | a waiting session takes any line as the answer |
| `MailSession.SmtpSession.AcceptSender` | crates/smtp/src/server.rs:389-426 | login, peer and white-list checks in order; the journal flag is cleared, recipients are not |
| `MailSession.SmtpSession.AcceptRecipient` | crates/smtp/src/server.rs:427-532 | one recipient per transaction: the journal, or a local account with permission |
| `MailSession.SmtpSession.AcceptData` | crates/smtp/src/server.rs:533-618 | checks, reading, delivery to the one destination, reset on success |
| `MailSession.SmtpSession.ProcessCommand` | crates/smtp/src/server.rs:270-634 | one line of the client |
| `MailSession.SmtpSession.Secure` | crates/smtp/src/server.rs:213-219 | after the handshake the session is reset |
| `MailWire.UserUnique` | crates/smtp/src/server.rs:291-337 | the lines of a connection show nobody or exactly one user logged in, that of the last login |
| `MailRuns.KnowsStep` | crates/smtp/src/server.rs:195-634 | after every line the session awaits an answer and holds a sender, recipient, journal flag, user and TLS if and only if the wire showed them, sender, recipient and journal since the transaction began |
| `MailRuns.LoginLawful` | crates/smtp/src/server.rs:291-337 | 235 is answered if and only if the line is an initial response or the answer to a PLAIN prompt with a known token as password, or answers the password prompt of LOGIN with a known token |
| `MailRuns.SenderLawful` | crates/smtp/src/server.rs:389-426 | a sender is accepted if and only if the client is logged in where required, a permitted peer, and the address is on the white-list if there is one that is not empty |
| `MailRuns.RecipientLawful` | crates/smtp/src/server.rs:427-532 | a recipient is accepted if and only if the transaction has a sender and no recipient, the client may use the server, and the address is the journal or a local account that the logged-in user may deliver to |
| `MailRuns.MailLawful` | crates/smtp/src/server.rs:533-618 | a mail is delivered to a destination if and only if the command is DATA and sender, that destination, login, permitted peer, text and storage, all as seen on the wire, hold |
| `MailRuns.TlsLawful` | crates/smtp/src/server.rs:355-364 | TLS begins if and only if it is asked for, offered and not yet on |
| `MailRuns.EveryLineIsLawful` | crates/smtp/src/server.rs:195-634 | in every connection all of this holds of every line, and every accepted mail goes to the only destination of its transaction and is the text that arrived, at most 50 MiB |
| `Access.ScopeGroupsFor` | crates/core/src/account/access.rs:175-206 | the expansion loop: a view becomes its sources, other accounts themselves |
| `Access.Matches` | crates/core/src/account/access.rs:82-130 | a source matches a message if and only if one of its participants, if it lists any, is the sender or a recipient, and one of its recipients, if it lists any, is a recipient; blank addresses match nobody |
| `Access.SenderIrrelevant` | crates/core/src/account/access.rs:82-130 | who sent a message does not matter to a source without participants |
| `Access.SentIsNotReceived` | crates/core/src/account/access.rs:82-130 | a message that a listed recipient only sent is not matched |
| `Access.ViewGranting` | crates/core/src/account/access.rs:354-397 | a view is returned only if it is granted, readable and one of its sources names the account and asks for such a message, and none only if no granted view does |
| `Access.MayReadMail` | crates/core/src/account/access.rs:568-571 | if and only if the account may be read directly or such a view is granted |
| `Access.AggregateAccountIds` | crates/core/src/account/access.rs:306-335 | the set built by the loop, account by account |
| `Access.ScopeMeans` | crates/core/src/account/access.rs:175-206 | what a search shows: readable accounts asked for, and mail that a view asked for delegates |
| `Access.ScopeIsReadable` | crates/core/src/account/access.rs:175-206 | with views on or off and whatever accounts are candidates, the scope groups show nothing that the per-message check refuses |
| `Access.SearchIsReadable` | crates/core/src/account/access.rs:147-164 | whatever roles, grants and requested accounts, restricted or not, a search shows nothing that the per-message check refuses |
| `Access.ScopeAgrees` | crates/core/src/account/access.rs:354-443 | over all grants, search and check agree on a message if and only if direct reading comes from a grant on an existing account that is no view, or a view delegates it too |
| `Access.UnfilteredIsReadable` | crates/core/src/account/access.rs:554-560 | every message of an account without filter may be read |
| `Access.AggregateMeans` | crates/core/src/account/access.rs:306-335 | counting covers the accounts without filter and, beyond them, exactly the accounts granted without the right to read |
| `Access.UnreadableIsCounted` | crates/core/src/account/access.rs:306-335 | one account with a grant that does not allow reading is counted over, and none of its messages may be read |
| `MboxImport.Take` | crates/cli/src/mbox/mod.rs:200-219 | one mail buffered, its folder sent when full: the byte count is exact and below 200 MiB, the subtraction never saturates, every mail is in one place |
| `MboxImport.RunImport` | crates/cli/src/mbox/mod.rs:138-226 | the batches of a folder are its kept mails in order, sent plus skipped is read, and no batch exceeds 50 |
| `MboxImport.FolderOfIs` | crates/cli/src/mbox/mod.rs:180-199 | a mail goes to a folder if and only if that is the folder asked for, else the mailbox of its metadata, else the one its labels name |
| `MboxImport.KeptAre` | crates/cli/src/mbox/mod.rs:138-199 | the kept mails are exactly those that are small enough and parse, each once, in order, under that folder |
| `GmailLabels.FolderIsFirstBest` | crates/cli/src/mbox/gmail.rs:128-165 | the folder is the first label of the best kind, own labels before general places before states, and `Unknown` without labels |
| `GmailLabels.LabelsAre` | crates/cli/src/mbox/gmail.rs:129-133 | a label is a part between commas, trimmed and not blank |
| `Splitting.SplitIs` | crates/cli/src/mbox/gmail.rs:129-130 | the parts are the pieces without separator that joined give the whole |

## Left out

- Power loss, fsync order, disk-full and other I/O errors, file locking and retries: a crash is the death of the
  process with all written bytes kept.
- Threads, timers and background workers: their effects are atomic steps. In particular `get` is one step, while
  the code reads the index before it takes the lock.
- The inside of zstd, lz4, CRC32, redb, bincode and serde: functions with round-trip laws, and an atomic map.
- Backup artifacts, hashing, the meta migration from version 2, the `stats` and `exists` calls, and the size of
  the database on disk: field copying.
- Overflow of the 32-bit segment number: numbers are unbounded in the store; `SegmentLimits.RunWithinLimits`
  assumes the number fits only where it speaks of index rows.
- The deleted ratio is a real number, not a rounded floating-point one.
- CrashReads.CrashKeepsPrefix: speaks of tails that recovery cuts; `TornAppends.TornCrash` says which torn appends
  are not of that kind.
- Lives.LifeInv: collections in a life fall on entry boundaries, drop no live value and are not interrupted; behind a
  stray watermark a restart cuts a file inside an entry, so that the store is no longer one of whole entries.
  `Watermark.ReopenAny` gives what such a restart leaves, and `GcCrash.GcCrashExactly` an interrupted collection.
- Lives.LifeWithinLimits: speaks of the same lives; `SegmentLimits.ReopenOnlyCuts` bounds the files after any restart.
- Lives.LifeReads: speaks of the same lives.
- GcCrash.GcCrashKeepsReads: starts from a store at rest; `GcCrash.GcCrashExactly` has the exact condition elsewhere.
- Orphans.OrphanStays: the interrupted collection starts from a store at rest, and later crashes from boundary
  watermarks.
- LifeBooks.LifeCovers: speaks of the same lives, with distinct keys in each delete batch; what repeated keys count is
  `Accounting.DeletesBalance`.
- TwoPhaseGc.TransparentToWrites: the collections between the phases drop no live values, and the segment stays;
  `TwoPhaseGc.FinishRestores` says what happens when it does not.
- GcProgress.RunBalances: runs without restarts; with them the totals can count data twice (`Books.ReopenTotals`), and
  what stays is `LifeBooks.LifeCovers`.
- MemDbRuns.CrashKeepsBeginning: restarts inside a run are after whole lines; what follows a restart on an
  interrupted line is `MemDbLimits.CommitAfterInterruption`.
- The in-memory mode of the memory database, the duplicate-key check of `insert`, `update`, `filter` and the JSON
  dump: easy members beside the log.
- SMTP sockets, TLS, timeouts, base64, the splitting of a line into command and argument, and the reply texts
  beyond their code: a line arrives as a command, and as text where an answer is awaited.
- Storing of a received mail after `parse_email` or the journal handler takes it: one outcome per mail.
- Permission expiry and role lookup: whether a grant allows reading is given per account.
- The attachment, dashboard and export endpoints that use the account sets, `crates/admin`, the rest of
  `crates/cli`, date parsing, retention and all of `web/`: conversions, dialogs and user interface.
