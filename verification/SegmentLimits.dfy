/** How large a segment file can become, and that everything in it fits its fields (segment.rs, types.rs). */
module SegmentLimits {
  import opened Words
  import opened Compression
  import opened Segment
  import opened SegmentLog
  import opened Index
  import opened BlobStore
  import opened Gc
  import opened Recovery
  import opened Runs

  /** The file stays below 1 GiB + 50 bytes + 100 MiB, every entry decodes, and its index row fits its words. */
  ghost predicate WithinLimits(crc: Crc, id: nat, log: Log)
    requires WellPlaced(log)
  {
    && End(log) < SEGMENT_MAX_SIZE + ENTRY_HEADER_SIZE + MAX_VALUE_SIZE
    && forall i :: 0 <= i < |log| ==>
         && log[i].off + log[i].e.Size() <= End(log)
         && (id < 0x1_0000_0000 ==> RecordOf(id, log[i]).FitsWords())
         && DecodeAt(crc, EncodeLog(crc, log), log[i].off) == Ok(log[i].e, log[i].off + log[i].e.Size())
  }

  lemma LogWithinLimits(crc: Crc, id: nat, log: Log)
    requires LogOk(log)
    ensures WithinLimits(crc, id, log)
  {
    hide DecodeAt, EncodeLog, WellPlaced, EntryOk;
    forall i | 0 <= i < |log|
      ensures log[i].off + log[i].e.Size() <= End(log)
      ensures DecodeAt(crc, EncodeLog(crc, log), log[i].off) == Ok(log[i].e, log[i].off + log[i].e.Size())
    {
      Ordered(log, i, |log|);
      DecodePlaced(crc, log, [], i);
      assert EncodeLog(crc, log) + [] == EncodeLog(crc, log);
    }
  }

  /** In every run, through roll-overs, rejected batches and collections, every segment is within its limits. */
  lemma RunWithinLimits(lib: Lib, cfg: Config, ops: seq<Op>, id: nat)
    requires id in Run(lib, cfg, EMPTY, ops).logs
    ensures LogOk(Run(lib, cfg, EMPTY, ops).logs[id])
    ensures WithinLimits(lib.crc, id, Run(lib, cfg, EMPTY, ops).logs[id])
  {
    hide *;
    EmptyInv();
    ShapeLogs(Run(lib, cfg, EMPTY, ops), id);
    LogWithinLimits(lib.crc, id, Run(lib, cfg, EMPTY, ops).logs[id]);
  }

  // ------------------------------------------------------------------ reopening any disk

  ghost predicate WithinBound(files: map<nat, Bytes>) {
    forall id :: id in files ==> |files[id]| <= MAX_SEGMENT_FILE
  }

  lemma SegmentShrinks(crc: Crc, id: nat, file: Bytes, stats: Stats, full: bool)
    ensures var r := ScanSegment(crc, id, file, stats, full); r.SegScan? ==> |r.file| <= |file| && r.file <= file
  {
    hide Scan;
  }

  lemma {:induction false} FilesShrink(crc: Crc, files: map<nat, Bytes>, meta: Meta, full: bool, hi: nat)
    ensures var r := ScanSegments(crc, files, meta, full, hi);
      r.ScanState? ==> r.files.Keys == files.Keys && forall id :: id in files ==> r.files[id] <= files[id]
  {
    hide ScanSegment;
    if hi != 0 {
      FilesShrink(crc, files, meta, full, hi - 1);
      if hi - 1 in files {
        SegmentShrinks(crc, hi - 1, files[hi - 1], meta.StatsOf(hi - 1).(isSealed := hi - 1 != meta.active), full);
      }
    }
  }

  /** Opening any disk, damaged or not, with or without its index, only cuts files: each is a prefix of what it was. */
  lemma ReopenOnlyCuts(crc: Crc, disk: Disk, lost: bool, hi: nat)
    ensures var r := Reopen(crc, disk, lost, hi);
      r.Opened? ==>
        && (forall id :: id in disk.files ==> id in r.disk.files && r.disk.files[id] <= disk.files[id])
        && (forall id :: id in r.disk.files && id !in disk.files ==> r.disk.files[id] == [])
        && (WithinBound(disk.files) ==> WithinBound(r.disk.files))
  {
    hide ScanSegments, InsertAll, MaxId;
    var active := OpenActive(disk, hi);
    FilesShrink(crc, disk.files, Meta(active, ResetStats(disk.meta.segments)), true, hi);
    FilesShrink(crc, disk.files, disk.meta.(active := active), false, hi);
  }
}
