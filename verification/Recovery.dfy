/** Reopening a store from its files, its index and its saved metadata (recovery.rs, `Engine::open`). */
module Recovery {
  import opened Words
  import opened Segment
  import opened SegmentLog
  import opened Index
  import opened BlobStore
  import opened Gc

  /** What a process finds on disk. */
  datatype Disk = Disk(files: map<nat, Bytes>, index: IndexMap, meta: Meta)

  /** Raw sizes of tombstones, which recovery adds to `deleted_bytes`. */
  function TombstoneRaw(log: Log): nat {
    if log == [] then 0
    else
      var p := log[|log| - 1];
      TombstoneRaw(log[..|log| - 1]) + if p.e.IsTombstone() then p.e.rawSize else 0
  }

  datatype SegScan = SegScan(file: Bytes, stats: Stats, records: seq<IndexRecord>) | SegFailed(error: ScanError)

  /** A watermark beyond the file means the file was replaced: scan it all. */
  function ScanStart(file: Bytes, indexed: nat, full: bool): nat {
    if full || indexed > |file| then 0 else indexed
  }

  /** One round of the loop over segments. */
  function ScanSegment(crc: Crc, id: nat, file: Bytes, stats: Stats, full: bool): SegScan {
    var start := ScanStart(file, stats.indexed, full);
    if start >= |file| then SegScan(file, stats, [])
    else
      match Scan(crc, file, start)
      case ScanFailed(error) => SegFailed(error)
      case Scanned(es, end) =>
        SegScan(file[..end],
                Recompute(stats.(total := stats.total + DataBytes(es),
                                 deleted := stats.deleted + TombstoneRaw(es), indexed := end)),
                LogRecords(id, es))
  }

  datatype ScanState =
    | ScanState(files: map<nat, Bytes>, segments: map<nat, Stats>, records: seq<IndexRecord>)
    | Failed(error: ScanError)

  /** `scan_segments` over the ids below `hi`, ascending. */
  function ScanSegments(crc: Crc, files: map<nat, Bytes>, meta: Meta, full: bool, hi: nat): ScanState {
    if hi == 0 then ScanState(files, meta.segments, [])
    else
      var id := hi - 1;
      match ScanSegments(crc, files, meta, full, id)
      case Failed(error) => Failed(error)
      case ScanState(fs, segs, recs) =>
        if id !in files then ScanState(fs, segs, recs)
        else
          match ScanSegment(crc, id, files[id], meta.StatsOf(id).(isSealed := id != meta.active), full)
          case SegFailed(error) => Failed(error)
          case SegScan(file, stats, rs) => ScanState(fs[id := file], segs[id := stats], recs + rs)
  }

  /** The largest id on disk below `hi`, or 0. */
  function MaxId(files: map<nat, Bytes>, hi: nat): nat {
    if hi == 0 then 0 else if hi - 1 in files then hi - 1 else MaxId(files, hi - 1)
  }

  function ResetStats(segments: map<nat, Stats>): map<nat, Stats> {
    map id | id in segments :: segments[id].(total := 0, deleted := 0, ratio := 0.0, indexed := 0)
  }

  datatype OpenResult = Opened(disk: Disk) | OpenFailed(error: ScanError)

  /** The active segment after `open`: the newest id on disk or in the metadata, at least 1. */
  function OpenActive(disk: Disk, hi: nat): nat {
    var newest := MaxId(disk.files, hi);
    var active := if newest > disk.meta.active then newest else disk.meta.active;
    if active == 0 then 1 else active
  }

  /** Scan, index what was found, open or create the active segment, save. */
  function OpenWith(crc: Crc, files: map<nat, Bytes>, index: IndexMap, meta: Meta, full: bool, hi: nat): OpenResult {
    match ScanSegments(crc, files, meta, full, hi)
    case Failed(error) => OpenFailed(error)
    case ScanState(fs, segs, recs) =>
      Opened(Disk(if meta.active in fs then fs else fs[meta.active := []],
                  InsertAll(index, recs), Meta(meta.active, segs)))
  }

  /**
   * `Engine::open`: `lost` says the index database was unreadable and replaced
   * by an empty one. `hi` is above every id on disk.
   */
  function Reopen(crc: Crc, disk: Disk, lost: bool, hi: nat): OpenResult {
    var active := OpenActive(disk, hi);
    if lost then OpenWith(crc, disk.files, map[], Meta(active, ResetStats(disk.meta.segments)), true, hi)
    else OpenWith(crc, disk.files, disk.index, disk.meta.(active := active), false, hi)
  }

  // ------------------------------------------------------- disks that hold logs

  /** `file` is `log` followed by bytes that recovery cuts off. */
  ghost predicate Holds(crc: Crc, file: Bytes, log: Log) {
    && LogOk(log)
    && End(log) <= |file| && file[..End(log)] == EncodeLog(crc, log)
    && Cuttable(crc, file, End(log))
  }

  ghost predicate HoldsAll(crc: Crc, files: map<nat, Bytes>, logs: map<nat, Log>) {
    files.Keys == logs.Keys && forall id :: id in logs ==> Holds(crc, files[id], logs[id])
  }

  /** A number of entries for each log. */
  ghost predicate Fits(logs: map<nat, Log>, cut: map<nat, nat>) {
    cut.Keys == logs.Keys && forall id :: id in logs ==> cut[id] <= |logs[id]|
  }

  /** How many entries of each log the watermarks cover. */
  ghost predicate Covered(logs: map<nat, Log>, meta: Meta, cut: map<nat, nat>)
    ensures Covered(logs, meta, cut) ==> Fits(logs, cut)
  {
    Fits(logs, cut) && forall id :: id in logs ==> meta.StatsOf(id).indexed == End(logs[id][..cut[id]])
  }

  /** The records after the watermarks, ascending. */
  ghost function Uncovered(logs: map<nat, Log>, cut: map<nat, nat>, hi: nat): seq<IndexRecord>
    requires Fits(logs, cut)
  {
    if hi == 0 then []
    else Uncovered(logs, cut, hi - 1) + (if hi - 1 in logs then LogRecords(hi - 1, logs[hi - 1][cut[hi - 1]..]) else [])
  }

  lemma HoldsScan(crc: Crc, file: Bytes, log: Log, i: nat)
    requires Holds(crc, file, log) && i <= |log|
    ensures Scan(crc, file, End(log[..i])) == Scanned(log[i..], End(log))
  {
    hide Cuttable, EncodeLog, Scan;
    var tail := file[End(log)..];
    assert file == EncodeLog(crc, log) + tail;
    ScanTail(crc, log, tail, i);
  }

  lemma BoundaryBelowEnd(log: Log, i: nat)
    requires WellPlaced(log) && i <= |log|
    ensures End(log[..i]) <= End(log) && (End(log[..i]) == End(log) ==> i == |log|)
  {
    hide WellPlaced;
    PrefixPlaced(log, i);
    if i < |log| {
      Ordered(log, i, |log|);
    } else {
      assert log[..i] == log;
    }
  }

  /** Scanning one file from a covered boundary restores its log and reports the uncovered records. */
  lemma SegmentRecovered(crc: Crc, id: nat, file: Bytes, log: Log, stats: Stats, full: bool, i: nat)
    requires Holds(crc, file, log) && i <= |log|
    requires stats.indexed == End(log[..i]) && (full ==> i == 0)
    ensures var r := ScanSegment(crc, id, file, stats, full);
            && r.SegScan? && r.file == EncodeLog(crc, log)
            && r.records == LogRecords(id, log[i..])
            && r.stats.isSealed == stats.isSealed
            && r.stats.indexed == End(log)
            && (i == |log| && file == EncodeLog(crc, log) && !full ==> r.stats == stats)
  {
    hide Cuttable, WellPlaced, Scan, EncodeLog;
    HoldsScan(crc, file, log, i);
    BoundaryBelowEnd(log, i);
    assert EncodeLog(crc, log) == file[..End(log)];
    assert End(log[..0]) == 0;
    if ScanStart(file, stats.indexed, full) >= |file| {
      assert i == |log| && file[..End(log)] == file;
      assert LogRecords(id, log[i..]) == [];
    }
  }

  /** The statistics of segment `id` after its round. */
  ghost predicate StatsRestored(crc: Crc, file: Bytes, log: Log, meta: Meta, id: nat, i: nat, stats: Stats) {
    && stats.indexed == End(log) && stats.isSealed == (id != meta.active)
    && (WellPlaced(log) && i == |log| && file == EncodeLog(crc, log)
        && id in meta.segments && meta.segments[id].isSealed == (id != meta.active) ==>
          stats == meta.segments[id])
  }

  /** What a recovery scan needs to know of the disk. */
  ghost predicate Scannable(crc: Crc, files: map<nat, Bytes>, logs: map<nat, Log>, meta: Meta,
                            cut: map<nat, nat>, full: bool)
  {
    HoldsAll(crc, files, logs) && Covered(logs, meta, cut) && (full ==> forall id :: id in cut ==> cut[id] == 0)
  }

  /** One round of the loop. */
  lemma RoundRecovered(crc: Crc, files: map<nat, Bytes>, logs: map<nat, Log>, meta: Meta,
                       cut: map<nat, nat>, full: bool, id: nat)
    requires Scannable(crc, files, logs, meta, cut, full) && id in logs
    requires ScanSegments(crc, files, meta, full, id).ScanState?
    ensures var b, r := ScanSegments(crc, files, meta, full, id), ScanSegments(crc, files, meta, full, id + 1);
            && r.ScanState? && id in r.segments && LogOk(logs[id])
            && r.files == b.files[id := EncodeLog(crc, logs[id])]
            && r.segments == b.segments[id := r.segments[id]]
            && r.records == b.records + LogRecords(id, logs[id][cut[id]..])
            && (!full ==> StatsRestored(crc, files[id], logs[id], meta, id, cut[id], r.segments[id]))
            && r.segments[id].indexed == End(logs[id]) && r.segments[id].isSealed == (id != meta.active)
  {
    hide ScanSegment, EncodeLog, WellPlaced, Cuttable;
    var stats := meta.StatsOf(id).(isSealed := id != meta.active);
    SegmentRecovered(crc, id, files[id], logs[id], stats, full, cut[id]);
  }

  /** The whole loop reports every record after the watermarks. */
  lemma {:induction false} SegmentsRecovered(crc: Crc, files: map<nat, Bytes>, logs: map<nat, Log>, meta: Meta,
                                             cut: map<nat, nat>, full: bool, hi: nat)
    requires Scannable(crc, files, logs, meta, cut, full)
    ensures var r := ScanSegments(crc, files, meta, full, hi);
            Fits(logs, cut) && r.ScanState? && r.records == Uncovered(logs, cut, hi) && r.files.Keys == files.Keys
  {
    hide Scannable, EncodeLog, ScanSegment, LogOk, StatsRestored;
    ScannableKeys(crc, files, logs, meta, cut, full);
    if hi != 0 {
      var id := hi - 1;
      SegmentsRecovered(crc, files, logs, meta, cut, full, id);
      if id in logs {
        RoundRecovered(crc, files, logs, meta, cut, full, id);
      }
    }
  }

  /** ... and leaves segment `id` cut back to its log with its watermark at the end. */
  lemma {:induction false} SegmentRestored(crc: Crc, files: map<nat, Bytes>, logs: map<nat, Log>, meta: Meta,
                                           cut: map<nat, nat>, full: bool, hi: nat, id: nat)
    requires Scannable(crc, files, logs, meta, cut, full) && id in logs && id < hi
    ensures var r := ScanSegments(crc, files, meta, full, hi);
            && r.ScanState? && LogOk(logs[id]) && id in r.files && r.files[id] == EncodeLog(crc, logs[id])
            && id in r.segments && r.segments[id].indexed == End(logs[id])
            && r.segments[id].isSealed == (id != meta.active)
            && (!full ==> StatsRestored(crc, files[id], logs[id], meta, id, cut[id], r.segments[id]))
  {
    hide Holds, EncodeLog, ScanSegments, LogOk, StatsRestored, Covered, HoldsAll, Scannable;
    SegmentsRecovered(crc, files, logs, meta, cut, full, hi - 1);
    ScannableKeys(crc, files, logs, meta, cut, full);
    RoundSkipped(crc, files, meta, full, hi - 1);
    if id == hi - 1 {
      RoundRecovered(crc, files, logs, meta, cut, full, id);
    } else {
      SegmentRestored(crc, files, logs, meta, cut, full, hi - 1, id);
      if hi - 1 in logs {
        RoundRecovered(crc, files, logs, meta, cut, full, hi - 1);
      }
    }
  }

  lemma RoundSkipped(crc: Crc, files: map<nat, Bytes>, meta: Meta, full: bool, id: nat)
    ensures id !in files ==> ScanSegments(crc, files, meta, full, id + 1) == ScanSegments(crc, files, meta, full, id)
  {
  }

  lemma ScannableKeys(crc: Crc, files: map<nat, Bytes>, logs: map<nat, Log>, meta: Meta,
                      cut: map<nat, nat>, full: bool)
    requires Scannable(crc, files, logs, meta, cut, full)
    ensures files.Keys == logs.Keys && Fits(logs, cut)
  {
  }

  lemma {:induction false} SegmentIds(crc: Crc, files: map<nat, Bytes>, meta: Meta, full: bool, hi: nat)
    ensures var r := ScanSegments(crc, files, meta, full, hi);
            r.ScanState? ==> meta.segments.Keys <= r.segments.Keys <= meta.segments.Keys + files.Keys
  {
    hide ScanSegment;
    if hi != 0 {
      SegmentIds(crc, files, meta, full, hi - 1);
    }
  }

  /** The statistics of a segment after the loop are those of its round. */
  lemma {:induction false} LoopStats(crc: Crc, files: map<nat, Bytes>, meta: Meta, full: bool, hi: nat, id: nat)
    requires id in files && id < hi
    ensures var r := ScanSegments(crc, files, meta, full, hi);
      var one := ScanSegment(crc, id, files[id], meta.StatsOf(id).(isSealed := id != meta.active), full);
      r.ScanState? ==> one.SegScan? && id in r.segments && r.segments[id] == one.stats
  {
    hide ScanSegment;
    if id < hi - 1 {
      LoopStats(crc, files, meta, full, hi - 1, id);
    }
  }

  lemma {:induction false} MaxIdBelow(files: map<nat, Bytes>, hi: nat, top: nat)
    requires top in files && top < hi && forall id :: id in files ==> id <= top
    ensures MaxId(files, hi) == top
  {
    if hi - 1 != top {
      MaxIdBelow(files, hi - 1, top);
    }
  }

  // ------------------------------------------------------------ the theorem

  /** The store's disk: files and index as they are, metadata as last saved. */
  ghost function DiskOf(crc: Crc, st: Store): Disk
    requires Shape(st)
  {
    Disk(map id | id in st.logs :: EncodeLog(crc, st.logs[id]), st.index, st.saved)
  }

  /** The store a reopened disk is, given the logs its files hold. */
  function Loaded(logs: map<nat, Log>, disk: Disk): Store {
    Store(logs, disk.index, disk.meta, disk.meta)
  }

  /** Files are logs up to a cuttable tail, the newest is `active`, and the metadata is no newer. */
  ghost predicate Recoverable(crc: Crc, disk: Disk, logs: map<nat, Log>, active: nat) {
    && HoldsAll(crc, disk.files, logs)
    && 1 <= active && active in logs && (forall id :: id in logs ==> 1 <= id <= active)
    && disk.meta.active <= active
    && (forall id :: id in disk.meta.segments ==> id in logs)
  }

  /** After the loop every file is exactly its log and every watermark at its end. */
  lemma LoopRestores(crc: Crc, disk: Disk, logs: map<nat, Log>, meta: Meta, cut: map<nat, nat>, full: bool)
    requires Scannable(crc, disk.files, logs, meta, cut, full) && meta.segments.Keys <= logs.Keys
    requires meta.active in logs && forall id :: id in logs ==> id <= meta.active
    ensures var r := ScanSegments(crc, disk.files, meta, full, meta.active + 1);
            && r.ScanState? && meta.active in r.files
            && Restored(crc, Disk(r.files, disk.index, Meta(meta.active, r.segments)), logs, meta.active)
  {
    hide Holds, EncodeLog, ScanSegments, LogOk, Scannable;
    var hi := meta.active + 1;
    ScannableKeys(crc, disk.files, logs, meta, cut, full);
    SegmentsRecovered(crc, disk.files, logs, meta, cut, full, hi);
    SegmentIds(crc, disk.files, meta, full, hi);
    var r := ScanSegments(crc, disk.files, meta, full, hi);
    forall id | id in logs
      ensures && LogOk(logs[id]) && r.files[id] == EncodeLog(crc, logs[id])
              && id in r.segments && r.segments[id].indexed == End(logs[id])
              && r.segments[id].isSealed == (id != meta.active)
    {
      SegmentRestored(crc, disk.files, logs, meta, cut, full, hi, id);
    }
    assert r.segments.Keys == logs.Keys;
  }

  lemma OpenWithRestores(crc: Crc, disk: Disk, logs: map<nat, Log>, index: IndexMap, meta: Meta,
                         cut: map<nat, nat>, full: bool)
    requires Scannable(crc, disk.files, logs, meta, cut, full) && meta.segments.Keys <= logs.Keys
    requires meta.active in logs && forall id :: id in logs ==> id <= meta.active
    ensures var r := OpenWith(crc, disk.files, index, meta, full, meta.active + 1);
            && Fits(logs, cut) && r.Opened? && r.disk.index == InsertAll(index, Uncovered(logs, cut, meta.active + 1))
            && Restored(crc, r.disk, logs, meta.active)
  {
    hide ScanSegments, Restored, InsertAll, Scannable, Uncovered;
    ScannableKeys(crc, disk.files, logs, meta, cut, full);
    SegmentsRecovered(crc, disk.files, logs, meta, cut, full, meta.active + 1);
    LoopRestores(crc, disk, logs, meta, cut, full);
    var r := ScanSegments(crc, disk.files, meta, full, meta.active + 1);
    RestoredIgnoresIndex(crc, Disk(r.files, disk.index, Meta(meta.active, r.segments)), logs, meta.active,
                         InsertAll(index, r.records));
  }

  lemma ActiveIsNewest(crc: Crc, disk: Disk, logs: map<nat, Log>, active: nat)
    requires Recoverable(crc, disk, logs, active)
    ensures OpenActive(disk, active + 1) == active
  {
    MaxIdBelow(disk.files, active + 1, active);
  }

  /** Reopening with the index at hand: the uncovered records are replayed into it. */
  lemma ReopenReplays(crc: Crc, disk: Disk, logs: map<nat, Log>, cut: map<nat, nat>, active: nat)
    requires Recoverable(crc, disk, logs, active) && Covered(logs, disk.meta, cut)
    ensures var r := Reopen(crc, disk, false, active + 1);
            && r.Opened? && r.disk.index == InsertAll(disk.index, Uncovered(logs, cut, active + 1))
            && Restored(crc, r.disk, logs, active)
  {
    hide OpenWith, OpenActive, Holds, Restored, InsertAll, Uncovered;
    ActiveIsNewest(crc, disk, logs, active);
    OpenWithRestores(crc, disk, logs, disk.index, disk.meta.(active := active), cut, false);
  }

  lemma RestoredIgnoresIndex(crc: Crc, disk: Disk, logs: map<nat, Log>, active: nat, index: IndexMap)
    requires Restored(crc, disk, logs, active)
    ensures Restored(crc, disk.(index := index), logs, active)
  {
  }

  lemma {:induction false} NothingUncovered(logs: map<nat, Log>, cut: map<nat, nat>, hi: nat)
    requires cut.Keys == logs.Keys && forall id :: id in logs ==> cut[id] == |logs[id]|
    ensures Uncovered(logs, cut, hi) == []
  {
    if hi != 0 {
      NothingUncovered(logs, cut, hi - 1);
    }
  }

  /** Every file is exactly its log and every watermark at its end. */
  ghost predicate Restored(crc: Crc, disk: Disk, logs: map<nat, Log>, active: nat) {
    && disk.files.Keys == logs.Keys && disk.meta.active == active
    && (forall id :: id in logs ==> LogOk(logs[id]) && disk.files[id] == EncodeLog(crc, logs[id]))
    && disk.meta.segments.Keys == logs.Keys
    && forall id :: id in logs ==>
         disk.meta.segments[id].indexed == End(logs[id]) && disk.meta.segments[id].isSealed == (id != active)
  }

  lemma SegmentUnchanged(crc: Crc, disk: Disk, logs: map<nat, Log>, cut: map<nat, nat>, id: nat)
    requires Restored(crc, disk, logs, disk.meta.active) && Scannable(crc, disk.files, logs, disk.meta, cut, false)
    requires id in logs && id <= disk.meta.active && id in cut && cut[id] == |logs[id]|
    ensures var r := ScanSegments(crc, disk.files, disk.meta, false, disk.meta.active + 1);
            && r.ScanState? && id in r.segments && r.segments[id] == disk.meta.segments[id]
            && id in r.files && r.files[id] == disk.files[id]
  {
    hide EncodeLog, ScanSegments, Scannable, StatsRestored, LogOk;
    var hi := disk.meta.active + 1;
    var r := ScanSegments(crc, disk.files, disk.meta, false, hi);
    SegmentRestored(crc, disk.files, logs, disk.meta, cut, false, hi, id);
    StatsUnchanged(crc, disk.files[id], logs[id], disk.meta, id, r.segments[id]);
  }

  lemma RestoredKeys(crc: Crc, disk: Disk, logs: map<nat, Log>, active: nat)
    requires Restored(crc, disk, logs, active)
    ensures disk.meta.active == active && disk.files.Keys == disk.meta.segments.Keys == logs.Keys
  {
  }

  lemma LoopUnchanged(crc: Crc, disk: Disk, logs: map<nat, Log>, active: nat)
    requires Restored(crc, disk, logs, active) && 1 <= active && active in logs
    requires forall id :: id in logs ==> 1 <= id <= active
    ensures ScanSegments(crc, disk.files, disk.meta, false, active + 1) ==
            ScanState(disk.files, disk.meta.segments, [])
  {
    hide ScanSegments, Scannable, Recoverable, Restored;
    var cut := map id | id in logs :: |logs[id]|;
    RestoredScannable(crc, disk, logs, active, cut);
    RestoredKeys(crc, disk, logs, active);
    SegmentsRecovered(crc, disk.files, logs, disk.meta, cut, false, active + 1);
    SegmentIds(crc, disk.files, disk.meta, false, active + 1);
    NothingUncovered(logs, cut, active + 1);
    var r := ScanSegments(crc, disk.files, disk.meta, false, active + 1);
    forall id | id in logs
      ensures id in r.segments && r.segments[id] == disk.meta.segments[id]
      ensures id in r.files && r.files[id] == disk.files[id]
    {
      SegmentUnchanged(crc, disk, logs, cut, id);
    }
    assert r.segments == disk.meta.segments && r.files == disk.files;
  }

  /** A second reopen changes nothing at all. */
  lemma ReopenIdempotent(crc: Crc, disk: Disk, logs: map<nat, Log>, active: nat)
    requires Restored(crc, disk, logs, active) && 1 <= active && active in logs
    requires forall id :: id in logs ==> 1 <= id <= active
    ensures Reopen(crc, disk, false, active + 1) == Opened(disk)
  {
    hide EncodeLog, ScanSegments, OpenActive, Scannable, LogOk;
    RestoredScannable(crc, disk, logs, active, map id | id in logs :: |logs[id]|);
    ActiveIsNewest(crc, disk, logs, active);
    LoopUnchanged(crc, disk, logs, active);
  }

  lemma RestoredScannable(crc: Crc, disk: Disk, logs: map<nat, Log>, active: nat, cut: map<nat, nat>)
    requires Restored(crc, disk, logs, active) && 1 <= active && active in logs
    requires (forall id :: id in logs ==> 1 <= id <= active) && cut == map id | id in logs :: |logs[id]|
    ensures Scannable(crc, disk.files, logs, disk.meta, cut, false) && Recoverable(crc, disk, logs, active)
  {
    hide EncodeLog, WellPlaced;
    forall id | id in logs
      ensures Holds(crc, disk.files[id], logs[id])
      ensures logs[id][..|logs[id]|] == logs[id]
    {
      assert disk.files[id][..End(logs[id])] == disk.files[id];
    }
  }

  lemma StatsUnchanged(crc: Crc, file: Bytes, log: Log, meta: Meta, id: nat, stats: Stats)
    requires WellPlaced(log) && StatsRestored(crc, file, log, meta, id, |log|, stats)
    requires file == EncodeLog(crc, log) && id in meta.segments && meta.segments[id].isSealed == (id != meta.active)
    ensures stats == meta.segments[id]
  {
  }

  /** Reopening without the index: it is rebuilt from every record on disk. */
  lemma ReopenRebuilds(crc: Crc, disk: Disk, logs: map<nat, Log>, active: nat)
    requires Recoverable(crc, disk, logs, active)
    ensures var r := Reopen(crc, disk, true, active + 1);
            && r.Opened? && r.disk.index == InsertAll(map[], Flat(logs, 0, active + 1))
            && Restored(crc, r.disk, logs, active)
  {
    hide OpenWith, OpenActive, Holds, Restored, InsertAll, Flat;
    var meta := Meta(active, ResetStats(disk.meta.segments));
    var cut := map id | id in logs :: 0;
    assert forall id :: id in logs ==> End(logs[id][..0]) == 0 && meta.StatsOf(id).indexed == 0;
    ActiveIsNewest(crc, disk, logs, active);
    OpenWithRestores(crc, disk, logs, map[], meta, cut, true);
    AllUncovered(logs, cut, active + 1);
  }

  lemma {:induction false} AllUncovered(logs: map<nat, Log>, cut: map<nat, nat>, hi: nat)
    requires cut.Keys == logs.Keys && forall id :: id in logs ==> cut[id] == 0
    ensures Uncovered(logs, cut, hi) == Flat(logs, 0, hi)
  {
    if hi != 0 {
      AllUncovered(logs, cut, hi - 1);
      if hi - 1 in logs {
        assert logs[hi - 1][0..] == logs[hi - 1];
      }
    }
  }
}
