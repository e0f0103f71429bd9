/**
 * Reopening any store, wherever its watermarks stand: a collection sets its segment's watermark to a count of
 * data bytes, and the reopen trusts it (engine.rs, gc.rs, recovery.rs).
 */
module Watermark {
  import opened Words
  import opened Compression
  import opened Segment
  import opened SegmentLog
  import opened Index
  import opened BlobStore
  import opened StoreWrites
  import opened Gc
  import opened Reads
  import opened Recovery
  import opened Crash
  import opened Reopening

  /** `get` on the bytes of a disk. */
  function DiskGet(lib: Lib, disk: Disk, k: Key): GetResult {
    match Lookup(disk.index, k)
    case None => Absent
    case Some(r) =>
      if r.segmentId !in disk.files then SegmentNotFound
      else
        match DecodeAt(lib.crc, disk.files[r.segmentId], r.offset)
        case Ok(e, _) => Unpack(lib, e)
        case _ => ReadError
  }

  lemma DiskGetIsGet(lib: Lib, st: Store, k: Key)
    requires Shape(st)
    ensures DiskGet(lib, DiskOf(lib.crc, st), k) == Get(lib, st, k)
  {
    hide DecodeAt, EncodeLog, LogOk;
  }

  // ---------------------------------------------------------------- where watermarks stand

  /** Where the scan of the segment starts: at its saved watermark, or at 0 when that is beyond the file. */
  function StartOf(s: Store, id: nat): nat
    requires id in s.logs
  {
    var w := s.saved.StatsOf(id).indexed;
    if w > End(s.logs[id]) then 0 else w
  }

  ghost predicate AtBoundary(s: Store, id: nat, c: nat)
    requires id in s.logs
  {
    c <= |s.logs[id]| && StartOf(s, id) == End(s.logs[id][..c])
  }

  // ------------------------------------------------------------------------- the scan

  /** What the scan of the segment finds from there. */
  ghost function Rescan(crc: Crc, s: Store, id: nat): (r: ScanResult)
    requires Shape(s) && id in s.logs
    ensures r.Scanned? ==> r.end <= End(s.logs[id])
  {
    ShapeLogs(s, id);
    var file, w := EncodeLog(crc, s.logs[id]), StartOf(s, id);
    if w >= |file| then Scanned([], |file|) else Scan(crc, file, w)
  }

  /** No scan of a segment below `hi` fails. */
  ghost predicate AllOpen(crc: Crc, s: Store, hi: nat)
    requires Shape(s)
  {
    forall id :: id in s.logs && id < hi ==> Rescan(crc, s, id).Scanned?
  }

  /** The entries found in each segment, genuine or not. */
  ghost function Seen(crc: Crc, s: Store): (logs: map<nat, Log>)
    requires Shape(s)
    ensures logs.Keys == s.logs.Keys
  {
    map id | id in s.logs :: (var r := Rescan(crc, s, id); if r.Scanned? then r.entries else [])
  }

  /** Nothing of these logs is covered. */
  ghost function NoCut(logs: map<nat, Log>): (cut: map<nat, nat>)
    ensures Fits(logs, cut) && forall id :: id in logs ==> cut[id] == 0
  {
    map id | id in logs :: 0
  }

  /** The rows and the entries that the reopen replays, in the order it does. */
  ghost function Rows(crc: Crc, s: Store, hi: nat): seq<IndexRecord>
    requires Shape(s)
  {
    Uncovered(Seen(crc, s), NoCut(Seen(crc, s)), hi)
  }

  ghost function Replayed(crc: Crc, s: Store): seq<Entry>
    requires Shape(s)
  {
    Behind(Seen(crc, s), NoCut(Seen(crc, s)), s.meta.active + 1)
  }

  /** The file of a segment after its round. */
  ghost function CutFile(crc: Crc, s: Store, id: nat): Bytes
    requires Shape(s) && id in s.logs && Rescan(crc, s, id).Scanned?
  {
    ShapeLogs(s, id);
    EncodeLog(crc, s.logs[id])[..Rescan(crc, s, id).end]
  }

  lemma FileIs(crc: Crc, s: Store, id: nat)
    requires Shape(s) && id in s.logs
    ensures WellPlaced(s.logs[id]) && StartOf(s, id) <= End(s.logs[id])
    ensures ScanStart(EncodeLog(crc, s.logs[id]), s.saved.StatsOf(id).indexed, false) == StartOf(s, id)
  {
    hide EncodeLog, WellPlaced;
    ShapeLogs(s, id);
  }

  /** One round is the scan of the segment. */
  lemma Round(crc: Crc, s: Store, id: nat)
    requires Shape(s) && id in s.logs
    ensures WellPlaced(s.logs[id])
    ensures var r := ScanSegment(crc, id, EncodeLog(crc, s.logs[id]), s.saved.StatsOf(id).(isSealed := id != s.meta.active), false);
      if !Rescan(crc, s, id).Scanned? then r.SegFailed?
      else r.SegScan? && r.file == CutFile(crc, s, id) && r.records == LogRecords(id, Seen(crc, s)[id])
  {
    hide Scan, EncodeLog, Shape, StartOf, LogOk, WellPlaced;
    FileIs(crc, s, id);
    var file := EncodeLog(crc, s.logs[id]);
    assert file[..|file|] == file;
    assert LogRecords(id, []) == [];
  }

  // --------------------------------------------------------- what it finds in three cases

  /** From a boundary: the entries behind it, and the whole file stays. */
  lemma BoundaryRescan(crc: Crc, s: Store, id: nat, c: nat)
    requires Shape(s) && id in s.logs && AtBoundary(s, id, c)
    ensures Rescan(crc, s, id) == Scanned(s.logs[id][c..], End(s.logs[id]))
  {
    hide Scan, Shape, EncodeLog, LogOk, Holds;
    ShapeLogs(s, id);
    var log := s.logs[id];
    PlainHolds(crc, log);
    HoldsScan(crc, EncodeLog(crc, log), log, c);
    BoundaryBelowEnd(log, c);
    if StartOf(s, id) >= End(log) {
      assert log[c..] == [];
    }
  }

  /** From inside an entry where the bytes do not imitate one: the file is cut there, or the open fails. */
  lemma StrayRescan(crc: Crc, s: Store, id: nat)
    requires Shape(s) && id in s.logs && StartOf(s, id) < End(s.logs[id]) && WellPlaced(s.logs[id])
    requires !DecodeAt(crc, EncodeLog(crc, s.logs[id]), StartOf(s, id)).Ok?
    ensures Rescan(crc, s, id).Scanned? <==> Cuttable(crc, EncodeLog(crc, s.logs[id]), StartOf(s, id))
    ensures Rescan(crc, s, id).Scanned? ==> Rescan(crc, s, id) == Scanned([], StartOf(s, id))
  {
    hide DecodeAt, EncodeLog, Shape, WellPlaced, Damaged;
    if StartOf(s, id) + ENTRY_HEADER_SIZE <= End(s.logs[id]) {
      DamagedIs(crc, EncodeLog(crc, s.logs[id]), StartOf(s, id));
    }
  }

  /** Where the bytes imitate an entry, that entry is found, and what follows it. */
  lemma ForgedRescan(crc: Crc, s: Store, id: nat, e: Entry, next: nat)
    requires Shape(s) && id in s.logs && WellPlaced(s.logs[id]) && StartOf(s, id) < End(s.logs[id])
    requires DecodeAt(crc, EncodeLog(crc, s.logs[id]), StartOf(s, id)) == Ok(e, next)
    ensures Rescan(crc, s, id) == Prepend([Placed(StartOf(s, id), e)], Scan(crc, EncodeLog(crc, s.logs[id]), next))
  {
    hide DecodeAt, EncodeLog, Shape, WellPlaced, Scan;
    ScanStep(crc, EncodeLog(crc, s.logs[id]), StartOf(s, id), e, next);
  }

  lemma PlainHolds(crc: Crc, log: Log)
    requires LogOk(log)
    ensures Holds(crc, EncodeLog(crc, log), log)
  {
    hide EncodeLog, WellPlaced;
    var file := EncodeLog(crc, log);
    assert file[..End(log)] == file;
  }

  lemma AllOpenStep(crc: Crc, s: Store, id: nat)
    requires Shape(s)
    ensures AllOpen(crc, s, id + 1) <==> AllOpen(crc, s, id) && (id in s.logs ==> Rescan(crc, s, id).Scanned?)
  {
    hide Rescan, Shape;
  }

  // -------------------------------------------------------------------------- the loop

  ghost predicate Looped(crc: Crc, s: Store, hi: nat, r: ScanState)
    requires Shape(s)
  {
    if !AllOpen(crc, s, hi) then r.Failed?
    else
      && r.ScanState? && r.records == Rows(crc, s, hi) && r.files.Keys == s.logs.Keys
      && forall id :: id in s.logs ==> r.files[id] == FileAfter(crc, s, hi, id)
  }

  ghost function FileAfter(crc: Crc, s: Store, hi: nat, id: nat): Bytes
    requires Shape(s) && id in s.logs && AllOpen(crc, s, hi)
  {
    ShapeLogs(s, id);
    if id < hi then CutFile(crc, s, id) else EncodeLog(crc, s.logs[id])
  }

  lemma ScanNext(crc: Crc, files: map<nat, Bytes>, meta: Meta, id: nat)
    requires id in files
    ensures ScanSegments(crc, files, meta, false, id + 1) ==
      match ScanSegments(crc, files, meta, false, id)
      case Failed(error) => Failed(error)
      case ScanState(fs, segs, recs) =>
        match ScanSegment(crc, id, files[id], meta.StatsOf(id).(isSealed := id != meta.active), false)
        case SegFailed(error) => Failed(error)
        case SegScan(file, stats, rs) => ScanState(fs[id := file], segs[id := stats], recs + rs)
  {
  }

  lemma RowsNext(crc: Crc, s: Store, id: nat)
    requires Shape(s)
    ensures Rows(crc, s, id + 1) == Rows(crc, s, id) + if id in s.logs then LogRecords(id, Seen(crc, s)[id]) else []
  {
    hide Seen, Shape, LogRecords;
    var seen := Seen(crc, s);
    if id in s.logs {
      assert seen[id][0..] == seen[id];
    }
  }

  lemma LoopedOk(crc: Crc, s: Store, id: nat, b: ScanState, a: ScanState)
    requires Shape(s) && id in s.logs && AllOpen(crc, s, id) && AllOpen(crc, s, id + 1) && Looped(crc, s, id, b)
    requires Rescan(crc, s, id).Scanned?
    requires a.ScanState? && b.ScanState? && a.files == b.files[id := CutFile(crc, s, id)]
    requires a.records == b.records + LogRecords(id, Seen(crc, s)[id])
    ensures Looped(crc, s, id + 1, a)
  {
    hide EncodeLog, CutFile, AllOpen, LogRecords, Rows, Shape, Seen, Rescan;
    RowsNext(crc, s, id);
  }

  lemma LoopedStep(crc: Crc, s: Store, files: map<nat, Bytes>, meta: Meta, id: nat)
    requires Shape(s) && id in s.logs && WellPlaced(s.logs[id])
    requires files.Keys == s.logs.Keys && files[id] == EncodeLog(crc, s.logs[id])
    requires meta == s.saved.(active := s.meta.active) && Looped(crc, s, id, ScanSegments(crc, files, meta, false, id))
    ensures Looped(crc, s, id + 1, ScanSegments(crc, files, meta, false, id + 1))
  {
    hide ScanSegment, ScanSegments, EncodeLog, CutFile, Rescan, Shape, Seen, AllOpen, LogRecords, Looped, WellPlaced;
    ScanNext(crc, files, meta, id);
    AllOpenStep(crc, s, id);
    Round(crc, s, id);
    var b, a := ScanSegments(crc, files, meta, false, id), ScanSegments(crc, files, meta, false, id + 1);
    LoopedFails(crc, s, id, b);
    if AllOpen(crc, s, id + 1) {
      LoopedOk(crc, s, id, b, a);
    } else {
      LoopedFails(crc, s, id + 1, a);
    }
  }

  lemma LoopedFails(crc: Crc, s: Store, hi: nat, r: ScanState)
    requires Shape(s)
    ensures Looped(crc, s, hi, r) ==> (r.ScanState? <==> AllOpen(crc, s, hi))
    ensures !AllOpen(crc, s, hi) && r.Failed? ==> Looped(crc, s, hi, r)
  {
    hide AllOpen, Rows, FileAfter, Shape;
  }

  /** The files on disk. */
  ghost predicate Files(crc: Crc, s: Store, files: map<nat, Bytes>)
    requires Shape(s)
  {
    files.Keys == s.logs.Keys && forall id :: id in s.logs ==> FileAt(crc, s, id, files[id])
  }

  ghost predicate FileAt(crc: Crc, s: Store, id: nat, file: Bytes)
    requires Shape(s) && id in s.logs
    ensures FileAt(crc, s, id, file) ==> WellPlaced(s.logs[id]) && file == EncodeLog(crc, s.logs[id])
  {
    ShapeLogs(s, id);
    file == EncodeLog(crc, s.logs[id])
  }

  lemma {:induction false} MarkLoop(crc: Crc, s: Store, files: map<nat, Bytes>, meta: Meta, hi: nat)
    requires Shape(s) && Files(crc, s, files) && meta == s.saved.(active := s.meta.active)
    ensures Looped(crc, s, hi, ScanSegments(crc, files, meta, false, hi))
  {
    hide Looped, ScanSegments, EncodeLog, Shape, FileAt;
    if hi == 0 {
      LoopedNone(crc, s, files, meta);
    } else {
      var id := hi - 1;
      MarkLoop(crc, s, files, meta, id);
      if id in s.logs {
        assert FileAt(crc, s, id, files[id]);
        LoopedStep(crc, s, files, meta, id);
      } else {
        RoundSkipped(crc, files, meta, false, id);
        LoopedSkip(crc, s, id, ScanSegments(crc, files, meta, false, id));
      }
    }
  }

  lemma LoopedNone(crc: Crc, s: Store, files: map<nat, Bytes>, meta: Meta)
    requires Shape(s) && Files(crc, s, files)
    ensures Looped(crc, s, 0, ScanSegments(crc, files, meta, false, 0))
  {
    hide EncodeLog, CutFile, Rescan, Shape;
  }

  lemma LoopedSkip(crc: Crc, s: Store, id: nat, r: ScanState)
    requires Shape(s) && id !in s.logs && Looped(crc, s, id, r)
    ensures Looped(crc, s, id + 1, r)
  {
    hide EncodeLog, CutFile, AllOpen, Shape, Rows;
    AllOpenStep(crc, s, id);
    RowsNext(crc, s, id);
    assert Rows(crc, s, id) + [] == Rows(crc, s, id);
  }

  /** The disk holds the files as the rounds left them. */
  ghost predicate CutFiles(crc: Crc, s: Store, files: map<nat, Bytes>)
    requires Shape(s)
  {
    && AllOpen(crc, s, s.meta.active + 1) && files.Keys == s.logs.Keys
    && forall id :: id in s.logs ==> Rescan(crc, s, id).Scanned? && files[id] == CutFile(crc, s, id)
  }

  lemma LoopedFiles(crc: Crc, s: Store, r: ScanState)
    requires Shape(s) && Looped(crc, s, s.meta.active + 1, r) && AllOpen(crc, s, s.meta.active + 1)
    ensures r.ScanState? && r.records == Rows(crc, s, s.meta.active + 1) && CutFiles(crc, s, r.files) && s.meta.active in r.files
  {
    hide EncodeLog, Rows, Rescan, Shape, CutFile;
    ShapeIds(s);
    forall id | id in s.logs ensures Rescan(crc, s, id).Scanned? && r.files[id] == CutFile(crc, s, id) {
      assert r.files[id] == FileAfter(crc, s, s.meta.active + 1, id);
    }
  }

  lemma OpenedWith(crc: Crc, s: Store)
    requires Shape(s) && SavedOlder(s)
    ensures Reopen(crc, DiskOf(crc, s), false, s.meta.active + 1)
         == OpenWith(crc, DiskOf(crc, s).files, s.index, s.saved.(active := s.meta.active), false, s.meta.active + 1)
  {
    hide OpenWith, EncodeLog, Shape;
    ShapeIds(s);
    MaxIdBelow(DiskOf(crc, s).files, s.meta.active + 1, s.meta.active);
  }

  /** What a reopen of any store comes to, wherever its watermarks stand and whatever data it holds. */
  lemma ReopenAny(crc: Crc, s: Store)
    requires Shape(s) && SavedOlder(s)
    ensures var r := Reopen(crc, DiskOf(crc, s), false, s.meta.active + 1);
      if !AllOpen(crc, s, s.meta.active + 1) then r.OpenFailed?
      else r.Opened? && r.disk.index == InsertAll(s.index, Rows(crc, s, s.meta.active + 1)) && CutFiles(crc, s, r.disk.files)
  {
    hide ScanSegments, InsertAll, Shape, Rows, Files, Looped, AllOpen, CutFiles, Reopen, DiskOf;
    var files, meta, hi := DiskOf(crc, s).files, s.saved.(active := s.meta.active), s.meta.active + 1;
    OpenedWith(crc, s);
    DiskFiles(crc, s);
    MarkLoop(crc, s, files, meta, hi);
    var r := ScanSegments(crc, files, meta, false, hi);
    LoopedFails(crc, s, hi, r);
    if AllOpen(crc, s, hi) {
      LoopedFiles(crc, s, r);
    }
  }

  lemma DiskFiles(crc: Crc, s: Store)
    requires Shape(s)
    ensures Files(crc, s, DiskOf(crc, s).files)
  {
    hide EncodeLog, LogOk;
  }

  // ------------------------------------------------------------------------- the reads

  /** An entry of a file that is cut at `w` is read exactly when it ends before. */
  lemma CutDecode(crc: Crc, file: Bytes, w: nat, off: nat)
    requires w <= |file| && DecodeAt(crc, file, off).Ok?
    ensures var r := DecodeAt(crc, file, off);
      if r.next <= w then DecodeAt(crc, file[..w], off) == r else !DecodeAt(crc, file[..w], off).Ok?
  {
    hide DecodeHeader, Body;
    var r := DecodeAt(crc, file, off);
    if off + ENTRY_HEADER_SIZE <= w {
      assert file[..w][off..off + ENTRY_HEADER_SIZE] == file[off..off + ENTRY_HEADER_SIZE];
      if r.next <= w {
        assert file[..w][off + ENTRY_HEADER_SIZE..r.next] == file[off + ENTRY_HEADER_SIZE..r.next];
      }
    }
  }

  /** The last record for a key points at the last entry for it. */
  lemma {:induction false} LastPoints(logs: map<nat, Log>, recs: seq<IndexRecord>, es: seq<Entry>, k: Key)
    requires AllPoint(logs, recs, es)
    ensures LastFor(recs, k).Some? <==> LastEntry(es, k).Some?
    ensures LastFor(recs, k).Some? ==>
      PointsAt(logs, LastFor(recs, k).value, LastEntry(es, k).value) && LastFor(recs, k).value in recs
  {
    hide PointsAt;
    if recs != [] {
      var n := |recs| - 1;
      PointsKey(logs, recs[n], es[n]);
      LastPoints(logs, recs[..n], es[..n], k);
      assert recs == recs[..n] + [recs[n]];
    }
  }

  /** Every entry that a scan visits is read at its offset, and ends before the scan does. */
  lemma {:induction false} ScanSound(crc: Crc, file: Bytes, off: nat, p: Placed)
    requires off <= |file| && Scan(crc, file, off).Scanned? && p in Scan(crc, file, off).entries
    ensures var d := DecodeAt(crc, file, p.off); d.Ok? && d.entry == p.e && d.next <= Scan(crc, file, off).end
    decreases |file| - off
  {
    hide DecodeAt;
    var d := DecodeAt(crc, file, off);
    if p in Scan(crc, file, d.next).entries {
      ScanSound(crc, file, d.next, p);
    }
  }

  lemma SeenRead(crc: Crc, s: Store, id: nat, p: Placed)
    requires Shape(s) && id in s.logs && p in Seen(crc, s)[id]
    ensures Rescan(crc, s, id).Scanned?
    ensures var d := DecodeAt(crc, CutFile(crc, s, id), p.off); d.Ok? && d.entry == p.e
  {
    hide DecodeAt, EncodeLog, Scan, Shape;
    ShapeLogs(s, id);
    var file := EncodeLog(crc, s.logs[id]);
    ScanSound(crc, file, StartOf(s, id), p);
    CutDecode(crc, file, Rescan(crc, s, id).end, p.off);
  }

  /** The row of `k` points into bytes that are cut off. */
  ghost predicate CutAway(crc: Crc, s: Store, k: Key)
    requires Shape(s)
  {
    var r := Lookup(s.index, k);
    && r.Some? && r.value.segmentId in s.logs
    && var found := Rescan(crc, s, r.value.segmentId); found.Scanned? && r.value.EntryEnd() > found.end
  }

  /** What is read through an old row, after the files are cut. */
  lemma RowRead(lib: Lib, s: Store, disk: Disk, r: IndexRecord, e: Entry, k: Key)
    requires Shape(s) && PointsAt(s.logs, r, e) && Lookup(disk.index, k) == Some(r) && CutFiles(lib.crc, s, disk.files)
    ensures DiskGet(lib, disk, k) ==
      if r.EntryEnd() > Rescan(lib.crc, s, r.segmentId).end then ReadError else Unpack(lib, e)
  {
    hide DecodeAt, EncodeLog, Unpack, Rescan, AllOpen;
    var id := r.segmentId;
    ShapeLogs(s, id);
    ReadPlaced(lib.crc, s.logs[id], Placed(r.offset, e));
    CutDecode(lib.crc, EncodeLog(lib.crc, s.logs[id]), Rescan(lib.crc, s, id).end, r.offset);
  }

  /** What is read through a replayed row. */
  lemma ReplayedRead(lib: Lib, s: Store, disk: Disk, r: IndexRecord, e: Entry, k: Key)
    requires Shape(s) && PointsAt(Seen(lib.crc, s), r, e) && k in disk.index && disk.index[k] == r && CutFiles(lib.crc, s, disk.files)
    ensures DiskGet(lib, disk, k) == ReadEntry(lib, e)
  {
    hide DecodeAt, EncodeLog, Unpack, Rescan, AllOpen, Shape, Seen, CutFile;
    SeenRead(lib.crc, s, r.segmentId, Placed(r.offset, e));
  }

  /** What `k` reads after the reopen: the last entry replayed for it, or as before unless that was cut away. */
  ghost function AfterReplay(lib: Lib, s: Store, k: Key): GetResult
    requires Shape(s)
  {
    match LastEntry(Replayed(lib.crc, s), k)
    case Some(e) => ReadEntry(lib, e)
    case None => if CutAway(lib.crc, s, k) then ReadError else Get(lib, s, k)
  }

  /** After the reopen of any store, if it opens. */
  lemma ReopenAnyReads(lib: Lib, s: Store, view: View, k: Key)
    requires Inv(s, view) && SavedOlder(s)
    ensures var r := Reopen(lib.crc, DiskOf(lib.crc, s), false, s.meta.active + 1);
      r.Opened? ==> DiskGet(lib, r.disk, k) == AfterReplay(lib, s, k)
  {
    hide *;
    var r := Reopen(lib.crc, DiskOf(lib.crc, s), false, s.meta.active + 1);
    ReopenAny(lib.crc, s);
    ReplayIs(lib, s, k);
    if r.Opened? {
      CutReads(lib, s, view, r.disk, k);
    }
  }

  /** What is read through the old row of `k`, wherever it points, after the files are cut. */
  ghost function CutGet(lib: Lib, s: Store, k: Key): GetResult
    requires Shape(s)
  {
    match Lookup(s.index, k)
    case None => Absent
    case Some(r) =>
      if r.segmentId !in s.logs then SegmentNotFound
      else if !Rescan(lib.crc, s, r.segmentId).Scanned? then ReadError
      else
        match DecodeAt(lib.crc, CutFile(lib.crc, s, r.segmentId), r.offset)
        case Ok(e, _) => Unpack(lib, e)
        case _ => ReadError
  }

  /** The same for any index, also one whose rows do not fit the files. */
  lemma ReopenRowsRead(lib: Lib, s: Store, k: Key)
    requires Shape(s) && SavedOlder(s)
    ensures var r := Reopen(lib.crc, DiskOf(lib.crc, s), false, s.meta.active + 1);
      r.Opened? ==>
        DiskGet(lib, r.disk, k) == (match LastEntry(Replayed(lib.crc, s), k) case Some(e) => ReadEntry(lib, e) case None => CutGet(lib, s, k))
  {
    hide InsertAll, CutFile, Shape, Rows, Replayed, LastEntry, LastFor, PointsAt, Unpack, ReadEntry, Rescan, Seen, AllOpen, DecodeAt, Reopen;
    var r := Reopen(lib.crc, DiskOf(lib.crc, s), false, s.meta.active + 1);
    var rows := Rows(lib.crc, s, s.meta.active + 1);
    ReopenAny(lib.crc, s);
    ReplayedRow(lib, s, k);
    InsertAllAt(s.index, rows, k);
    if r.Opened? && LastFor(rows, k).Some? {
      ReplayedRead(lib, s, r.disk, LastFor(rows, k).value, LastEntry(Replayed(lib.crc, s), k).value, k);
    }
  }

  /** The row of a replayed key is the last one found. */
  lemma ReplayedRow(lib: Lib, s: Store, k: Key)
    requires Shape(s)
    ensures var rows, es := Rows(lib.crc, s, s.meta.active + 1), Replayed(lib.crc, s);
      && (LastFor(rows, k).Some? <==> LastEntry(es, k).Some?)
      && (LastFor(rows, k).Some? ==> PointsAt(Seen(lib.crc, s), LastFor(rows, k).value, LastEntry(es, k).value))
  {
    hide Shape, Seen, Uncovered, Behind, LastFor, LastEntry, PointsAt, AllPoint;
    var seen, hi := Seen(lib.crc, s), s.meta.active + 1;
    BehindPoints(seen, NoCut(seen), hi);
    LastPoints(seen, Uncovered(seen, NoCut(seen), hi), Behind(seen, NoCut(seen), hi), k);
  }

  lemma CutReads(lib: Lib, s: Store, view: View, disk: Disk, k: Key)
    requires Inv(s, view) && CutFiles(lib.crc, s, disk.files)
    requires disk.index == InsertAll(s.index, Rows(lib.crc, s, s.meta.active + 1))
    ensures var e := LastEntry(Replayed(lib.crc, s), k);
      DiskGet(lib, disk, k) ==
      if e.Some? then ReadEntry(lib, e.value) else if CutAway(lib.crc, s, k) then ReadError else Get(lib, s, k)
  {
    hide InsertAll, CutFile, Shape, Rows, Replayed, LastEntry, LastFor, DiskGet, Get, PointsAt, Unpack, ReadEntry, Rescan, Seen, AllOpen;
    var rows := Rows(lib.crc, s, s.meta.active + 1);
    ReplayedRow(lib, s, k);
    InsertAllAt(s.index, rows, k);
    if LastFor(rows, k).Some? {
      ReplayedRead(lib, s, disk, LastFor(rows, k).value, LastEntry(Replayed(lib.crc, s), k).value, k);
    } else {
      GetMeans(lib, s, view, k);
      if k in view {
        PointsIn(s.logs, Lookup(s.index, k).value, view[k]);
        RowRead(lib, s, disk, Lookup(s.index, k).value, view[k], k);
      } else {
        AbsentRead(lib, disk, k);
      }
    }
  }

  lemma PointsIn(logs: map<nat, Log>, r: IndexRecord, e: Entry)
    requires PointsAt(logs, r, e)
    ensures r.segmentId in logs
  {
  }

  lemma AbsentRead(lib: Lib, disk: Disk, k: Key)
    requires Lookup(disk.index, k) == None
    ensures DiskGet(lib, disk, k) == Absent
  {
  }

  /**
   * Every store, whatever was written, rejected and collected before: a reopen succeeds with every read as it
   * was if and only if no scan from a watermark fails, the last entry found for each key, genuine or imitated by
   * stored data, reads as the key reads now, and no other live row points into bytes that a scan cuts off.
   */
  lemma ReopenAnyHarmless(lib: Lib, s: Store, view: View, model: map<Key, Bytes>)
    requires Inv(s, view) && Stands(lib, view, model) && SavedOlder(s)
    ensures
      var r := Reopen(lib.crc, DiskOf(lib.crc, s), false, s.meta.active + 1);
      var found := Replayed(lib.crc, s);
      (r.Opened? && forall k :: DiskGet(lib, r.disk, k) == Get(lib, s, k)) <==>
        && AllOpen(lib.crc, s, s.meta.active + 1)
        && (forall k :: LastEntry(found, k).Some? ==> ReadEntry(lib, LastEntry(found, k).value) == Get(lib, s, k))
        && (forall k :: LastEntry(found, k).None? ==> !CutAway(lib.crc, s, k))
  {
    hide *;
    var r := Reopen(lib.crc, DiskOf(lib.crc, s), false, s.meta.active + 1);
    var found := Replayed(lib.crc, s);
    ReopenAny(lib.crc, s);
    forall k: Key
      ensures r.Opened? ==> (DiskGet(lib, r.disk, k) == Get(lib, s, k) <==>
        if LastEntry(found, k).Some? then ReadEntry(lib, LastEntry(found, k).value) == Get(lib, s, k) else !CutAway(lib.crc, s, k))
    {
      ReopenAnyReads(lib, s, view, k);
      ReplayIs(lib, s, k);
      LiveReads(lib, s, view, model, k);
    }
  }

  lemma ReplayIs(lib: Lib, s: Store, k: Key)
    requires Shape(s)
    ensures var e := LastEntry(Replayed(lib.crc, s), k);
      AfterReplay(lib, s, k) ==
      if e.Some? then ReadEntry(lib, e.value) else if CutAway(lib.crc, s, k) then ReadError else Get(lib, s, k)
  {
  }

  /** A live row reads. */
  lemma LiveReads(lib: Lib, s: Store, view: View, model: map<Key, Bytes>, k: Key)
    requires Inv(s, view) && Stands(lib, view, model)
    ensures CutAway(lib.crc, s, k) ==> Get(lib, s, k) != ReadError
  {
    hide Shape, Get, Rescan;
    GetMeans(lib, s, view, k);
  }
}
