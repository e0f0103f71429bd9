/** Opening any directory, an empty one included: which segment becomes active, and that it has a file (engine.rs). */
module Opening {
  import opened Words
  import opened Segment
  import opened SegmentLog
  import opened Index
  import opened BlobStore
  import opened Gc
  import opened Recovery

  /** The largest of 1, the saved id and the ids on disk. */
  ghost predicate Largest(disk: Disk, a: nat) {
    && 1 <= a && disk.meta.active <= a && (forall id :: id in disk.files ==> id <= a)
    && (a == 1 || a == disk.meta.active || a in disk.files)
  }

  lemma {:induction false} MaxIdIs(files: map<nat, Bytes>, hi: nat)
    ensures forall id :: id in files && id < hi ==> id <= MaxId(files, hi)
    ensures MaxId(files, hi) == 0 || MaxId(files, hi) in files
  {
    if hi != 0 {
      MaxIdIs(files, hi - 1);
    }
  }

  lemma OpenActiveLargest(disk: Disk, hi: nat)
    requires forall id :: id in disk.files ==> id < hi
    ensures Largest(disk, OpenActive(disk, hi))
  {
    hide MaxId;
    MaxIdIs(disk.files, hi);
  }

  lemma LargestUnique(disk: Disk, a: nat, b: nat)
    requires Largest(disk, a) && Largest(disk, b)
    ensures a == b
  {
  }

  /** The loop keeps every file, and gives each one below `hi` statistics. */
  lemma {:induction false} LoopFiles(crc: Crc, files: map<nat, Bytes>, meta: Meta, full: bool, hi: nat)
    ensures var r := ScanSegments(crc, files, meta, full, hi);
      r.ScanState? ==>
        && r.files.Keys == files.Keys
        && (forall id :: id in files && id < hi ==> id in r.segments && (r.segments[id].isSealed <==> id != meta.active))
        && (forall id :: id !in files ==> (id in r.segments <==> id in meta.segments))
        && (forall id :: id !in files && id in r.segments ==> r.segments[id] == meta.segments[id])
  {
    hide Scan, DataBytes, TombstoneRaw, LogRecords;
    if hi != 0 {
      LoopFiles(crc, files, meta, full, hi - 1);
    }
  }

  /**
   * Every open that succeeds, of any directory, with or without its index: the active segment is the largest id
   * known, it has a file, which is empty when there was none, no other file appears or goes, and exactly the
   * segments other than the active one are sealed.
   */
  lemma OpenedActive(crc: Crc, disk: Disk, lost: bool, hi: nat)
    requires forall id :: id in disk.files ==> id < hi
    ensures var r := Reopen(crc, disk, lost, hi);
      r.Opened? ==>
        var a := r.disk.meta.active;
        && Largest(disk, a) && a in r.disk.files && (a !in disk.files ==> r.disk.files[a] == [])
        && r.disk.files.Keys == disk.files.Keys + {a}
        && forall id :: id in disk.files ==> id in r.disk.meta.segments && (r.disk.meta.segments[id].isSealed <==> id != a)
  {
    hide ScanSegments, InsertAll, OpenActive, Largest;
    var active := OpenActive(disk, hi);
    OpenActiveLargest(disk, hi);
    var meta := if lost then Meta(active, ResetStats(disk.meta.segments)) else disk.meta.(active := active);
    LoopFiles(crc, disk.files, meta, lost, hi);
  }

  lemma {:induction false} NothingToScan(crc: Crc, meta: Meta, full: bool, hi: nat)
    ensures ScanSegments(crc, map[], meta, full, hi) == ScanState(map[], meta.segments, [])
  {
    if hi != 0 {
      NothingToScan(crc, meta, full, hi - 1);
    }
  }

  /** The first open of an empty directory, whether or not an index was found, is the empty store on disk. */
  lemma FirstOpen(crc: Crc, saved: nat, lost: bool, hi: nat)
    requires saved <= 1
    ensures Shape(EMPTY) && Reopen(crc, Disk(map[], map[], Meta(saved, map[])), lost, hi) == Opened(DiskOf(crc, EMPTY))
    ensures Loaded(EMPTY.logs, DiskOf(crc, EMPTY)) == EMPTY
  {
    hide ScanSegments, OpenActive;
    EmptyInv();
    var disk := Disk(map[], map[], Meta(saved, map[]));
    OpenActiveLargest(disk, hi);
    assert OpenActive(disk, hi) == 1;
    NothingToScan(crc, Meta(1, map[]), lost, hi);
    assert ResetStats(map[]) == map[];
    assert DiskOf(crc, EMPTY).files == map[1 := []];
  }
}
