/** The engine object: files, index and metadata updated in place (engine.rs, gc.rs, recovery.rs). */
module BlobEngine {
  import opened Words
  import opened Compression
  import opened Segment
  import opened SegmentLog
  import opened Index
  import opened BlobStore
  import opened StoreWrites
  import opened Gc
  import opened Recovery
  import opened Reads
  import opened Runs
  import opened FilePool
  import BatchMarks
  import Opening
  import CrashPoints
  import GcCrash
  import opened DiskTrace

  /** `IndexStore::insert_batch` as a loop over one transaction. */
  method InsertBatch(index: IndexMap, recs: seq<IndexRecord>) returns (r: IndexMap)
    ensures r == InsertAll(index, recs)
  {
    r := index;
    for i := 0 to |recs|
      invariant r == InsertAll(index, recs[..i])
    {
      assert recs[..i + 1][..i] == recs[..i];
      r := r[recs[i].key := recs[i]];
    }
    assert recs[..|recs|] == recs;
  }

  // --------------------------------------------------------------------- opening

  /** `scan_segments`: one file after another, ascending; the first error ends it. */
  method ScanFiles(crc: Crc, files: map<nat, Bytes>, meta: Meta, full: bool, hi: nat) returns (r: ScanState)
    ensures r == ScanSegments(crc, files, meta, full, hi)
  {
    hide Scan;
    var fs: map<nat, Bytes>, segments: map<nat, Stats> := files, meta.segments;
    var records: seq<IndexRecord> := [];
    for id := 0 to hi
      invariant ScanSegments(crc, files, meta, full, id) == ScanState(fs, segments, records)
    {
      if id in files {
        var one := ScanFile(crc, id, files[id], meta.StatsOf(id).(isSealed := id != meta.active), full);
        if one.SegFailed? {
          FailureStays(crc, files, meta, full, id + 1, hi);
          return Failed(one.error);
        }
        fs, segments, records := fs[id := one.file], segments[id := one.stats], records + one.records;
      }
    }
    return ScanState(fs, segments, records);
  }

  lemma {:induction false} FailureStays(crc: Crc, files: map<nat, Bytes>, meta: Meta, full: bool, id: nat, hi: nat)
    requires id <= hi && ScanSegments(crc, files, meta, full, id).Failed?
    ensures ScanSegments(crc, files, meta, full, hi) == ScanSegments(crc, files, meta, full, id)
    decreases hi - id
  {
    hide ScanSegment;
    if id < hi {
      FailureStays(crc, files, meta, full, id + 1, hi);
    }
  }

  /** The callback of the scan: one record per entry, data bytes, raw sizes of tombstones. */
  method Tally(id: nat, es: Log) returns (records: seq<IndexRecord>, data: nat, raw: nat)
    ensures records == LogRecords(id, es) && data == DataBytes(es) && raw == TombstoneRaw(es)
  {
    records, data, raw := [], 0, 0;
    for i := 0 to |es|
      invariant records == LogRecords(id, es[..i]) && data == DataBytes(es[..i]) && raw == TombstoneRaw(es[..i])
    {
      var p := es[i];
      assert es[..i + 1][..i] == es[..i];
      records := records + [IndexRecord(p.e.key, id, p.off, |p.e.data|, p.e.flags)];
      data := data + |p.e.data|;
      if p.e.IsTombstone() {
        raw := raw + p.e.rawSize;
      }
    }
    assert es[..|es|] == es;
  }

  /** One round: where to start, the scan, truncation, statistics, watermark. */
  method ScanFile(crc: Crc, id: nat, file: Bytes, stats: Stats, full: bool) returns (r: SegScan)
    ensures r == ScanSegment(crc, id, file, stats, full)
  {
    hide Scan, LogRecords, DataBytes, TombstoneRaw;
    var start := 0;
    if !full && stats.indexed <= |file| {
      start := stats.indexed;
    }
    if start >= |file| { return SegScan(file, stats, []); }
    var scan := ScanEntries(crc, file, start);
    if scan.ScanFailed? { return SegFailed(scan.error); }
    var records, data, raw := Tally(id, scan.entries);
    var cut := file;
    if scan.end < |file| {
      cut := file[..scan.end];
    }
    return SegScan(cut, Recompute(stats.(total := stats.total + data, deleted := stats.deleted + raw, indexed := scan.end)), records);
  }

  /** `Engine::open` up to the state it starts from. */
  method OpenDisk(crc: Crc, disk: Disk, lost: bool, hi: nat) returns (r: OpenResult)
    ensures r == Reopen(crc, disk, lost, hi)
  {
    hide ScanSegments, InsertAll;
    var active := OpenActive(disk, hi);
    var index, segments := disk.index, disk.meta.segments;
    if lost {
      index, segments := map[], ResetStats(disk.meta.segments);
    }
    var scan := ScanFiles(crc, disk.files, Meta(active, segments), lost, hi);
    if scan.Failed? { return OpenFailed(scan.error); }
    index := InsertBatch(index, scan.records);
    var files := scan.files;
    if active !in files {
      files := files[active := []];
    }
    return Opened(Disk(files, index, Meta(active, scan.segments)));
  }

  // ---------------------------------------------------------------------- engine

  /** Each file is the encoding of its log. */
  ghost predicate Mirrors(crc: Crc, files: map<nat, Bytes>, logs: map<nat, Log>)
    ensures Mirrors(crc, files, logs) ==> files.Keys == logs.Keys
  {
    && files.Keys == logs.Keys
    && forall id :: id in logs ==> WellPlaced(logs[id]) && files[id] == EncodeLog(crc, logs[id])
  }

  lemma MirrorsAt(crc: Crc, files: map<nat, Bytes>, logs: map<nat, Log>, id: nat)
    requires Mirrors(crc, files, logs) && id in logs
    ensures WellPlaced(logs[id]) && files[id] == EncodeLog(crc, logs[id])
  {
  }

  lemma MirrorsSet(crc: Crc, files: map<nat, Bytes>, logs: map<nat, Log>, id: nat, log: Log)
    requires Mirrors(crc, files, logs) && WellPlaced(log)
    ensures Mirrors(crc, files[id := EncodeLog(crc, log)], logs[id := log])
  {
    hide EncodeLog, WellPlaced;
  }

  lemma MirrorsDrop(crc: Crc, files: map<nat, Bytes>, logs: map<nat, Log>, id: nat)
    requires Mirrors(crc, files, logs)
    ensures Mirrors(crc, files - {id}, logs - {id})
  {
    hide EncodeLog, WellPlaced;
  }

  lemma MarkToShape(st: Store, p: BatchMarks.SegmentEnd)
    requires Shape(st)
    ensures Shape(BatchMarks.MarkTo(st, p))
  {
    hide LogOk;
  }

  /** Open a new directory: recovery of nothing, then the engine on what it leaves. */
  method OpenNew(lib: Lib, cfg: Config) returns (engine: Engine)
    ensures fresh(engine) && engine.Valid() && engine.lib == lib && engine.cfg == cfg && engine.State() == EMPTY
  {
    hide Reopen, DiskOf, Shape;
    var found := OpenDisk(lib.crc, Disk(map[], map[], Meta(1, map[])), false, 2);
    Opening.FirstOpen(lib.crc, 1, false, 2);
    engine := new Engine(lib, cfg, found.disk, EMPTY);
  }

  class Engine {
    const lib: Lib
    const cfg: Config
    var files: map<nat, Bytes>
    var index: IndexMap
    var meta: Meta
    var saved: Meta
    var writerId: nat
    var bytesWritten: nat
    ghost var logs: map<nat, Log>
    /** The disk states passed through so far. */
    ghost var passed: set<Store>

    ghost function State(): Store
      reads this
    {
      Store(logs, index, meta, saved)
    }

    /** The disk is in this state now. */
    ghost method Note()
      modifies this`passed
      ensures passed == old(passed) + {OnDisk(State())}
    {
      passed := passed + {OnDisk(State())};
    }

    /** The files are the encodings of the logs, and the writer is at the end of the active one. */
    ghost predicate Valid()
      reads this
    {
      && Shape(State()) && Mirrors(lib.crc, files, logs)
      && writerId == meta.active && bytesWritten == End(logs[meta.active])
    }

    /** Take over an opened disk that holds the logs of `st`; the writer starts at the end of the active file. */
    constructor (lib: Lib, cfg: Config, disk: Disk, ghost st: Store)
      requires Shape(st) && disk == DiskOf(lib.crc, st) && st.saved == st.meta
      ensures Valid() && this.lib == lib && this.cfg == cfg && State() == st
    {
      hide EncodeLog, LogOk;
      this.lib, this.cfg := lib, cfg;
      files, logs, index := disk.files, st.logs, disk.index;
      meta, saved := disk.meta, disk.meta;
      writerId := disk.meta.active;
      bytesWritten := |disk.files[disk.meta.active]|;
      passed := {OnDisk(st)};
    }

    /** `contents` is what the open handles read: the file of a segment under the inode it has now. */
    ghost predicate Opens(dir: Directory, contents: map<Inode, Bytes>)
      reads this
    {
      forall id :: id in files ==> id in dir && dir[id] in contents && contents[dir[id]] == files[id]
    }

    /** Index, pooled file handle, positional read, decompression. */
    method Get(pool: Pool, dir: Directory, contents: map<Inode, Bytes>, key: Key) returns (r: GetResult)
      requires Valid() && pool.Valid() && pool.Current(dir) && Opens(dir, contents)
      modifies pool
      ensures r == Reads.Get(lib, State(), key)
      ensures pool.Valid() && pool.Current(dir)
    {
      hide DecodeAt, EncodeLog, LogOk;
      var row := Lookup(index, key);
      if row.None? { return Absent; }
      var rec := row.value;
      if rec.segmentId !in files { return SegmentNotFound; }
      MirrorsAt(lib.crc, files, logs, rec.segmentId);
      var handle := pool.Get(rec.segmentId, dir);
      var read := ReadEntryAtFile(lib.crc, contents[handle], rec.offset);
      match read
      case Ok(e, _) => return Unpack(lib, e);
      case _ => return ReadError;
    }

    method SealActive()
      requires Valid()
      modifies this
      ensures Valid() && State() == BlobStore.SealActive(old(State()))
      ensures passed == old(passed) + {OnDisk(State().(saved := old(saved))), OnDisk(State())}
    {
      hide EncodeLog, Shape, Mirrors, WellPlaced;
      SealShape(State());
      if bytesWritten == 0 {
        Note();
        return;
      }
      var stats := meta.StatsOf(writerId);
      meta := Meta(writerId + 1, meta.segments[writerId := stats.(isSealed := true)]);
      writerId, bytesWritten := writerId + 1, 0;
      EmptyFile(lib.crc);
      MirrorsSet(lib.crc, files, logs, writerId, []);
      files := files[writerId := []];
      logs := logs[writerId := []];
      Note();
      saved := meta;
      Note();
    }

    method Seal()
      requires Valid()
      modifies this
      ensures Valid() && State() == Step(lib, cfg, old(State()), Op.Seal)
      ensures passed == old(passed) + Disks(CrashPoints.Points(lib, cfg, old(State()), Op.Seal))
    {
      hide Mirrors, Shape, BlobStore.SealActive, Disks, CrashPoints.Points, OnDisk;
      SealIs(lib, cfg, State());
      Note();
      SealActive();
    }

    method Flush()
      requires Valid()
      modifies this
      ensures Valid() && State() == Step(lib, cfg, old(State()), Op.Flush)
      ensures passed == old(passed) + Disks(CrashPoints.Points(lib, cfg, old(State()), Op.Flush))
    {
      hide Mirrors, Shape;
      ShapeIgnoresIndex(State(), index, meta);
      Note();
      saved := meta;
      Note();
      DisksTwo(CrashPoints.Point(old(State()), 0, 0, 0), CrashPoints.Point(State(), 0, 0, 0));
    }

    /** Write the entry at the end of the active file. */
    method WriteEntry(e: Entry) returns (offset: nat)
      requires Valid() && EntryOk(e) && bytesWritten < SEGMENT_MAX_SIZE
      modifies this`files, this`logs, this`bytesWritten, this`passed
      ensures offset == End(old(logs)[writerId])
      ensures logs == old(logs)[writerId := old(logs)[writerId] + [Placed(offset, e)]]
      ensures Mirrors(lib.crc, files, logs) && bytesWritten == End(logs[writerId])
      ensures passed == old(passed) + {OnDisk(State())}
    {
      hide EncodeLog, Shape, WellPlaced, EntryOk, Mirrors, Encode;
      ghost var log := logs[writerId];
      MirrorsAt(lib.crc, files, logs, writerId);
      EntrySize(e);
      var writer := new SegmentWriter.OpenAppend(writerId, files[writerId]);
      offset := writer.Append(lib.crc, e);
      AppendKeepsPlaced(lib.crc, log, e);
      MirrorsSet(lib.crc, files, logs, writerId, log + [Placed(End(log), e)]);
      files := files[writerId := writer.file.bytes];
      bytesWritten := writer.bytesWritten;
      logs := logs[writerId := log + [Placed(End(log), e)]];
      Note();
    }

    /** Write the entry and account for it. */
    method AppendActive(e: Entry) returns (r: IndexRecord)
      requires Valid() && EntryOk(e) && bytesWritten < SEGMENT_MAX_SIZE
      modifies this
      ensures Valid() && State() == BlobStore.AppendActive(old(State()), e) && r == Appended(State())
      ensures passed == old(passed) + {OnDisk(State())}
    {
      hide Shape, EntryOk, Mirrors, End;
      AppendActiveShape(State(), e);
      var offset := WriteEntry(e);
      var was := meta.StatsOf(writerId);
      var stats := was.(total := was.total + |e.data|,
                        deleted := was.deleted + if e.IsTombstone() then e.rawSize else 0);
      meta := meta.(segments := meta.segments[writerId := Recompute(stats)]);
      r := IndexRecord(e.key, writerId, offset, |e.data|, e.flags);
    }

    method AppendEntry(e: Entry) returns (r: IndexRecord)
      requires Valid() && EntryOk(e)
      modifies this
      ensures Valid() && State() == BlobStore.AppendEntry(old(State()), e) && r == Appended(State())
      ensures passed == old(passed) + RollDisks(old(State())) + {OnDisk(State())}
    {
      hide Shape, EntryOk, Mirrors, BlobStore.AppendActive, Appended;
      if bytesWritten >= SEGMENT_MAX_SIZE {
        SealActive();
      } else {
        Note();
      }
      r := AppendActive(e);
    }

    method MarkIndexed(segment: nat, end: nat)
      requires Valid()
      modifies this
      ensures Valid() && State() == BatchMarks.MarkTo(old(State()), BatchMarks.SegmentEnd(segment, end))
      ensures passed == old(passed) + {OnDisk(State())}
    {
      hide Mirrors, Shape;
      MarkToShape(State(), BatchMarks.SegmentEnd(segment, end));
      if segment in meta.segments {
        var stats := meta.segments[segment];
        if end > stats.indexed {
          meta := meta.(segments := meta.segments[segment := stats.(indexed := end)]);
        }
      }
      saved := meta;
      Note();
    }

    method MarkEach(ends: seq<BatchMarks.SegmentEnd>)
      requires Valid()
      modifies this
      ensures Valid() && State() == BatchMarks.MarkAllTo(old(State()), ends)
      ensures passed == old(passed) + MarkDisks(old(State()), ends)
    {
      hide BatchMarks.MarkTo, Shape, Mirrors, OnDisk, MarkDisks;
      ghost var st := State();
      NoMarks(st);
      for i := 0 to |ends|
        invariant Valid() && State() == BatchMarks.MarkAllTo(old(State()), ends[..i])
        invariant passed == old(passed) + MarkDisks(st, ends[..i])
      {
        assert ends[..i + 1][..i] == ends[..i];
        MarkStep(st, ends, i);
        MarkIndexed(ends[i].segment, ends[i].end);
      }
      assert ends[..|ends|] == ends;
    }

    method AccountDelete(key: Key)
      requires Valid()
      modifies this`meta
      ensures Valid() && State() == CountDeleted(old(State()), key)
    {
      hide Mirrors, Shape;
      CountDeletedShape(State(), key);
      var row := Lookup(index, key);
      if row.Some? && row.value.segmentId in meta.segments {
        var stats := meta.segments[row.value.segmentId];
        meta := meta.(segments := meta.segments[row.value.segmentId :=
          Recompute(stats.(deleted := stats.deleted + row.value.dataSize))]);
      }
    }

    method WriteOne(e: Entry)
      requires Valid() && EntryOk(e)
      modifies this
      ensures Valid() && State() == BlobStore.WriteOne(old(State()), e)
      ensures passed == old(passed) + WriteDisks(old(State()), e)
    {
      hide Mirrors, Shape, Mark, EntryOk, BlobStore.AppendEntry, Appended, RollDisks, OnDisk;
      var r := AppendEntry(e);
      ghost var a := State();
      index := index[e.key := r];
      OneInserted(old(State()), e);
      Note();
      ShapeIgnoresIndex(a, index, saved);
      BatchMarks.MarkIsTo(State(), r);
      MarkIndexed(r.segmentId, r.EntryEnd());
    }

    method Put(item: Item) returns (ok: bool)
      requires Valid()
      modifies this
      ensures Valid() && ok == (|item.value| <= MAX_VALUE_SIZE) && State() == PutItem(lib, cfg, old(State()), item)
      ensures passed == old(passed) + Disks(CrashPoints.Points(lib, cfg, old(State()), Op.Put(item)))
    {
      hide Mirrors, Shape, BlobStore.WriteOne, EntryOk, Pack, Disks, CrashPoints.Points, WriteDisks, OnDisk;
      Note();
      PutIs(lib, cfg, State(), item);
      if |item.value| > MAX_VALUE_SIZE { return false; }
      PackOk(lib, cfg, item);
      WriteOne(Pack(lib, cfg, item.key, item.value, item.codec));
      return true;
    }

    method Delete(key: Key)
      requires Valid()
      modifies this
      ensures Valid() && State() == DeleteOne(old(State()), key)
      ensures passed == old(passed) + Disks(CrashPoints.Points(lib, cfg, old(State()), Op.Delete(key)))
    {
      hide Mirrors, Shape, BlobStore.WriteOne, EntryOk, CountDeleted, Disks, CrashPoints.Points, WriteDisks, OnDisk;
      Note();
      DeleteIs(lib, cfg, State(), key);
      AccountDelete(key);
      TombstoneOk(key);
      WriteOne(Tombstone(key));
    }

    /** The end of a batch: save, one index transaction, then the watermarks of all or the furthest records. */
    method Commit(recs: seq<IndexRecord>, ends: seq<BatchMarks.SegmentEnd>)
      requires Valid()
      requires ends == BatchMarks.EndsOf(recs)
            || (BatchMarks.Ascending(recs) && ends == BatchMarks.EndsOf(BatchMarks.HighestEnds(recs)))
      modifies this
      ensures Valid() && State() == CommitBatch(old(State()), recs)
      ensures passed == old(passed) + CommitDisks(old(State()), recs, ends)
    {
      hide Mirrors, Shape, MarkAll, InsertAll, BatchMarks.Ascending, BatchMarks.HighestEnds, BatchMarks.MarkAllTo, BatchMarks.EndsOf,
        OnDisk, MarkDisks;
      saved := meta;
      Note();
      index := InsertBatch(index, recs);
      Note();
      ShapeIgnoresIndex(old(State()), index, saved);
      BatchMarks.EndsSuffice(State(), recs, ends);
      MarkEach(ends);
    }

    /** The append loop: it stops before the first oversized value. */
    method AppendItems(items: seq<Item>) returns (records: seq<IndexRecord>, ends: seq<BatchMarks.SegmentEnd>, n: nat)
      requires Valid()
      modifies this
      ensures Valid() && n == Accepted(items)
      ensures State() == AppendMany(old(State()), PackAll(lib, cfg, items[..n]))
      ensures records == AppendedRecords(old(State()), PackAll(lib, cfg, items[..n])) && ends == BatchMarks.EndsOf(records)
      ensures passed == old(passed) + Disks(CrashPoints.AppendPoints(old(State()), PackAll(lib, cfg, items[..n])))
    {
      hide Mirrors, Shape, EntryOk, Pack, BlobStore.AppendEntry, Appended, Accepted, Disks, OnDisk, RollDisks,
        CrashPoints.AppendPoints;
      ghost var st := State();
      Note();
      AppendNone(st);
      records, ends, n := [], [], 0;
      NoneAccepted();
      while n < |items|
        invariant Valid() && st.Ready() && n <= |items| && Accepted(items[..n]) == n
        invariant forall j :: 0 <= j < n ==> |items[j].value| <= MAX_VALUE_SIZE
        invariant State() == AppendMany(st, PackAll(lib, cfg, items[..n]))
        invariant records == AppendedRecords(st, PackAll(lib, cfg, items[..n])) && ends == BatchMarks.EndsOf(records)
        invariant passed == old(passed) + Disks(CrashPoints.AppendPoints(st, PackAll(lib, cfg, items[..n])))
      {
        AcceptedPrefix(items, n);
        if |items[n].value| > MAX_VALUE_SIZE {
          return;
        }
        PackedPrefix(lib, cfg, items, n);
        AppendStep(st, PackAll(lib, cfg, items[..n + 1]));
        PackOk(lib, cfg, items[n]);
        var r := AppendEntry(Pack(lib, cfg, items[n].key, items[n].value, items[n].codec));
        records := records + [r];
        ends := ends + [BatchMarks.SegmentEnd(r.segmentId, r.EntryEnd())];
        n := n + 1;
      }
      assert items[..|items|] == items;
    }

    method PutBatch(items: seq<Item>) returns (ok: bool)
      requires Valid()
      modifies this
      ensures Valid() && ok == (Accepted(items) == |items|) && State() == PutItems(lib, cfg, old(State()), items)
      ensures passed == old(passed) + Disks(CrashPoints.Points(lib, cfg, old(State()), Op.PutBatch(items)))
    {
      hide Mirrors, Shape, CommitBatch, AppendMany, AppendedRecords, Accepted, Pack, BatchMarks.Ascending, BatchMarks.SortOf, BatchMarks.Dedup,
        BatchMarks.EndsOf, BatchMarks.HighestEnds, Disks, CrashPoints.Points, CrashPoints.AppendPoints, CommitDisks;
      PutBatchIs(lib, cfg, State(), items);
      var records, ends, n := AppendItems(items);
      if n < |items| { return false; }
      if items != [] {
        var sorted := BatchMarks.SortEnds(ends);
        var furthest := BatchMarks.DedupEnds(sorted);
        BatchMarks.BatchAscends(old(State()), PackAll(lib, cfg, items[..n]));
        BatchMarks.SortDedupHighest(records, sorted);
        Commit(records, furthest);
      }
      return true;
    }

    /** The loop of `delete_batch`. */
    method AppendTombstones(keys: seq<Key>) returns (records: seq<IndexRecord>)
      requires Valid()
      modifies this
      ensures Valid() && State() == DeleteMany(old(State()), keys)
      ensures records == AppendedRecords(old(State()), Tombstones(keys))
      ensures passed == old(passed) + Disks(CrashPoints.DeletePoints(old(State()), keys))
    {
      hide Mirrors, Shape, EntryOk, BlobStore.AppendEntry, Appended, CountDeleted, Tombstones, Disks, OnDisk, RollDisks,
        CrashPoints.DeletePoints;
      ghost var st := State();
      Note();
      AppendNone(st);
      records := [];
      for i := 0 to |keys|
        invariant Valid() && st.Ready() && Shape(st)
        invariant State() == DeleteMany(st, keys[..i])
        invariant records == AppendedRecords(st, Tombstones(keys[..i]))
        invariant passed == old(passed) + Disks(CrashPoints.DeletePoints(st, keys[..i]))
      {
        assert keys[..i + 1][..i] == keys[..i];
        TombstonePrefix(keys, i);
        DeleteStep(st, keys[..i + 1]);
        AccountDelete(keys[i]);
        TombstoneOk(keys[i]);
        var r := AppendEntry(Tombstone(keys[i]));
        SameRecord(st, keys[..i + 1]);
        records := records + [r];
      }
      assert keys[..|keys|] == keys;
    }

    method DeleteBatch(keys: seq<Key>)
      requires Valid()
      modifies this
      ensures Valid() && State() == StoreWrites.DeleteBatch(old(State()), keys)
      ensures passed == old(passed) + Disks(CrashPoints.Points(lib, cfg, old(State()), Op.DeleteKeys(keys)))
    {
      hide Mirrors, Shape, CommitBatch, DeleteMany, AppendedRecords, Disks, CrashPoints.Points, CommitDisks,
        CrashPoints.DeletePoints;
      DeleteBatchIs(lib, cfg, State(), keys);
      if keys == [] {
        Note();
        AppendNone(State());
        return;
      }
      var records := AppendTombstones(keys);
      Commit(records, BatchMarks.EndsOf(records));
    }

    // -------------------------------------------------------------- collection

    method PickSegment() returns (t: Option<nat>)
      requires Valid()
      ensures t == Candidate(meta, cfg.gcRatio, meta.active + 1)
    {
      t := None;
      for id := 0 to meta.active + 1
        invariant t == Candidate(meta, cfg.gcRatio, id)
      {
        if id in meta.segments && Eligible(cfg.gcRatio, meta.segments[id])
           && (t.None? || meta.segments[id].ratio >= meta.segments[t.value].ratio) {
          t := Some(id);
        }
      }
    }

    /** Scan the segment and rewrite what the index says is current to a temporary file. */
    method CompactSegment(seg: nat, entries: Log) returns (kept: Log, deleted: seq<Key>, temp: Bytes)
      requires LogOk(entries)
      ensures kept == Compact(index, seg, entries) && deleted == DeletedKeys(index, seg, entries)
      ensures LogOk(kept) && temp == EncodeLog(lib.crc, kept)
    {
      hide EncodeLog, LogOk, WellPlaced, Encode;
      kept, deleted, temp := [], [], [];
      EmptyFile(lib.crc);
      for i := 0 to |entries|
        invariant kept == Compact(index, seg, entries[..i]) && deleted == DeletedKeys(index, seg, entries[..i])
        invariant LogOk(kept) && temp == EncodeLog(lib.crc, kept)
      {
        var e, offset := entries[i].e, entries[i].off;
        assert entries[..i + 1][..i] == entries[..i];
        CompactPrefixOk(index, seg, entries, i + 1);
        MemberSize(entries, i);
        var row := Lookup(index, e.key);
        var current := row.Some? && row.value.segmentId == seg && row.value.offset == offset;
        if e.IsTombstone() {
          if current { deleted := deleted + [e.key]; }
        } else if current {
          var writer := new SegmentWriter.OpenAppend(seg, temp);
          var newOffset := writer.Append(lib.crc, e);
          AppendKeepsPlaced(lib.crc, kept, e);
          kept := kept + [Placed(newOffset, e)];
          temp := writer.file.bytes;
        }
      }
      assert entries[..|entries|] == entries;
    }

    /** Phase 1: nothing of the store changes. */
    method GcPrepare() returns (p: Option<Prep>, temp: Bytes)
      requires Valid()
      ensures p == Prepare(cfg, State())
      ensures p.Some? ==> LogOk(p.value.log) && temp == EncodeLog(lib.crc, p.value.log)
    {
      hide EncodeLog, Candidate, LogOk, Scan, Mirrors, Compact, DeletedKeys;
      var t := PickSegment();
      if t.None? || t.value !in files { return None, []; }
      var seg := t.value;
      ghost var log := logs[seg];
      MirrorsAt(lib.crc, files, logs, seg);
      ScanWholeLog(lib.crc, log, 0);
      assert log[..0] == [] && log[0..] == log;
      var scan := ScanEntries(lib.crc, files[seg], 0);
      var kept, deleted, out := CompactSegment(seg, scan.entries);
      return Some(Prep(seg, meta.segments[seg].total, kept, deleted)), out;
    }

    method RedirectIndex(p: Prep)
      modifies this`index, this`passed
      ensures index == InsertAll(old(index), LogRecords(p.seg, p.log)) - (set k | k in p.deletedKeys)
      ensures passed == old(passed) + {OnDisk(old(State()).(index := InsertAll(old(index), LogRecords(p.seg, p.log)))),
                                       OnDisk(State())}
    {
      index := InsertBatch(index, LogRecords(p.seg, p.log));
      Note();
      index := index - (set k | k in p.deletedKeys);
      Note();
    }

    /** A segment with nothing left: out of the metadata first, then off the disk. */
    method DropSegment(seg: nat)
      modifies this
      ensures files == old(files) - {seg} && logs == old(logs) - {seg} && index == old(index)
      ensures meta == old(meta).(segments := old(meta).segments - {seg}) && saved == meta
      ensures writerId == old(writerId) && bytesWritten == old(bytesWritten)
      ensures passed == old(passed) + {OnDisk(old(State()).(saved := meta)), OnDisk(State())}
    {
      meta := meta.(segments := meta.segments - {seg});
      saved := meta;
      Note();
      files := files - {seg};
      logs := logs - {seg};
      Note();
    }

    /** Smaller and clean. */
    method ResetSegment(seg: nat, after: nat)
      modifies this`meta, this`saved, this`passed
      ensures meta == (if seg in old(meta).segments then
                         old(meta).(segments := old(meta).segments[seg :=
                           old(meta).segments[seg].(total := after, deleted := 0, ratio := 0.0, indexed := after)])
                       else old(meta))
      ensures saved == meta && passed == old(passed) + {OnDisk(State())}
    {
      if seg in meta.segments {
        var stats := meta.segments[seg];
        meta := meta.(segments := meta.segments[seg :=
          stats.(total := after, deleted := 0, ratio := 0.0, indexed := after)]);
      }
      saved := meta;
      Note();
    }

    /** The rename of the temporary file. */
    method ReplaceFile(p: Prep, temp: Bytes)
      requires Mirrors(lib.crc, files, logs) && LogOk(p.log) && temp == EncodeLog(lib.crc, p.log)
      modifies this`files, this`logs, this`passed
      ensures State() == GcCrash.Renamed(old(State()), p)
      ensures Mirrors(lib.crc, files, logs) && Mirrors(lib.crc, files - {p.seg}, logs - {p.seg})
      ensures logs - {p.seg} == old(logs) - {p.seg}
      ensures passed == old(passed) + {OnDisk(State())}
    {
      hide EncodeLog, LogOk, Mirrors, OnDisk;
      PlacedOk(p.log);
      MirrorsSet(lib.crc, files, logs, p.seg, p.log);
      files := files[p.seg := temp];
      logs := logs[p.seg := p.log];
      MirrorsDrop(lib.crc, files, logs, p.seg);
      assert logs - {p.seg} == old(logs) - {p.seg};
      Note();
    }

    /** Phase 2: replace the file, redirect the index, update or drop the statistics. */
    method GcFinish(p: Prep, temp: Bytes)
      requires Valid() && LogOk(p.log) && temp == EncodeLog(lib.crc, p.log)
      requires p.seg in logs && p.seg in meta.segments && p.seg != meta.active
      modifies this
      ensures Valid() && State() == Finish(old(State()), p)
      ensures passed == old(passed) + PhaseDisks(old(State()), p) + {OnDisk(State())}
    {
      hide EncodeLog, LogOk, DataBytes, InsertAll, Shape, Mirrors, LogRecords, PhaseDisks, OnDisk;
      ghost var st := State();
      PhaseIs(st, p);
      GcMeaning.FinishShape(st, p);
      ReplaceFile(p, temp);
      RedirectIndex(p);
      assert State() == GcCrash.Purged(st, p);
      var after := DataBytes(p.log);
      if after == 0 {
        DropSegment(p.seg);
      } else {
        ResetSegment(p.seg, after);
      }
    }
  }

  lemma PlacedOk(log: Log)
    requires LogOk(log)
    ensures WellPlaced(log)
  {
  }

  lemma EmptyFile(crc: Crc)
    ensures LogOk([]) && EncodeLog(crc, []) == []
  {
  }

  lemma NoMarks(st: Store)
    ensures MarkDisks(st, []) == {}
  {
  }

  lemma OneInserted(st: Store, e: Entry)
    requires st.Ready()
    ensures var a := AppendEntry(st, e); CrashPoints.Indexed(a, [Appended(a)]) == a.(index := a.index[e.key := Appended(a)])
  {
    var r := Appended(AppendEntry(st, e));
    assert [r][..0] == [] && r.key == e.key;
    assert InsertAll(AppendEntry(st, e).index, [r][..0]) == AppendEntry(st, e).index;
  }

  lemma EntrySize(e: Entry)
    requires EntryOk(e)
    ensures |e.data| <= MAX_VALUE_SIZE
  {
  }

  lemma TombstonePrefix(keys: seq<Key>, i: nat)
    requires i < |keys|
    ensures Tombstones(keys[..i + 1])[..i] == Tombstones(keys[..i])
    ensures Tombstones(keys[..i + 1])[i] == Tombstone(keys[i])
  {
  }

  lemma NoneAccepted()
    ensures Accepted([]) == 0
  {
  }

  lemma PackedPrefix(lib: Lib, cfg: Config, items: seq<Item>, i: nat)
    requires i < |items| && forall j :: 0 <= j <= i ==> |items[j].value| <= MAX_VALUE_SIZE
    ensures PackAll(lib, cfg, items[..i + 1])[..i] == PackAll(lib, cfg, items[..i])
  {
    hide Pack;
  }

  lemma MemberSize(log: Log, i: nat)
    requires LogOk(log) && i < |log|
    ensures |log[i].e.data| <= MAX_VALUE_SIZE
  {
    assert log[i] in log;
  }

  lemma AcceptedPrefix(items: seq<Item>, i: nat)
    requires i < |items| && Accepted(items[..i]) == i
    ensures |items[i].value| > MAX_VALUE_SIZE ==> Accepted(items) == i
    ensures |items[i].value| <= MAX_VALUE_SIZE ==> Accepted(items[..i + 1]) == i + 1
  {
    assert items[..i + 1][..i] == items[..i];
    assert forall j | 0 <= j < i :: items[..i][j] == items[j];
  }

  lemma CompactPrefixOk(index: IndexMap, seg: nat, log: Log, i: nat)
    requires LogOk(log) && i <= |log|
    ensures LogOk(Compact(index, seg, log[..i]))
  {
    PrefixLogOk(log, i);
    CompactOk(index, seg, log[..i]);
  }

  lemma PrefixLogOk(log: Log, i: nat)
    requires LogOk(log) && i <= |log|
    ensures LogOk(log[..i])
  {
    hide WellPlaced;
    PrefixPlaced(log, i);
    BoundaryBelowEnd(log, i);
    assert forall p :: p in log[..i] ==> p in log;
  }
}
