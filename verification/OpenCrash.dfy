/**
 * The process dies inside `open`: the watermarks found by the scan are saved before the records are put in the
 * index (engine.rs, recovery.rs).
 */
module OpenCrash {
  import opened Words
  import opened Compression
  import opened Segment
  import opened SegmentLog
  import opened Index
  import opened BlobStore
  import opened Reads
  import opened Recovery
  import opened Crash
  import opened Reopening

  /** A scan that was saved is not repeated, whatever the rows are. */
  lemma NotRepeated(crc: Crc, disk: Disk, logs: map<nat, Log>, active: nat, index: IndexMap)
    requires Restored(crc, disk, logs, active) && 1 <= active && active in logs
    requires forall id :: id in logs ==> 1 <= id <= active
    ensures Reopen(crc, disk.(index := index), false, active + 1) == Opened(disk.(index := index))
  {
    hide Restored, Reopen;
    RestoredIgnoresIndex(crc, disk, logs, active, index);
    ReopenIdempotent(crc, disk.(index := index), logs, active);
  }

  /** The disk that an interrupted open leaves. */
  ghost predicate Interrupted(crc: Crc, c: Store, tail: Bytes, lost: bool, disk: Disk)
    requires Shape(c)
  {
    var r := Reopen(crc, DiskWithTail(crc, c, tail), lost, c.meta.active + 1);
    r.Opened? && disk == r.disk.(index := if lost then map[] else c.index)
  }

  /** Every open of boundary watermarks can be interrupted there. */
  lemma CanBeInterrupted(crc: Crc, c: Store, cut: map<nat, nat>, tail: Bytes) returns (disk: Disk)
    requires SavedOlder(c) && Covered(c.logs, c.saved, cut) && CutsOff(crc, c, tail)
    ensures Interrupted(crc, c, tail, false, disk)
  {
    hide Shape, Reopen, DiskWithTail, Covered, SavedOlder, CutsOff, Recoverable, Restored;
    SavedCovered(crc, c, cut, tail);
    DiskRecoverable(crc, c, tail);
    ReopenReplays(crc, DiskWithTail(crc, c, tail), c.logs, cut, c.meta.active);
    disk := Reopen(crc, DiskWithTail(crc, c, tail), false, c.meta.active + 1).disk.(index := c.index);
  }

  /**
   * A crash inside `open` after the watermarks are saved and before the records are indexed: the next open
   * repeats nothing, so every key reads as the old rows say, and what the first open would have replayed is
   * lost. Nothing is lost if and only if, for each key with an entry behind the old watermarks, the last such
   * entry reads as the key reads now.
   */
  lemma OpenInterrupted(lib: Lib, c: Store, view: View, cut: map<nat, nat>, tail: Bytes, disk: Disk)
    requires Inv(c, view) && SavedOlder(c) && Covered(c.logs, c.saved, cut) && CutsOff(lib.crc, c, tail)
    requires Interrupted(lib.crc, c, tail, false, disk)
    ensures Reopen(lib.crc, disk, false, c.meta.active + 1) == Opened(disk)
    ensures Shape(Loaded(c.logs, disk)) && Shape(Reopened(lib.crc, c, tail))
    ensures forall k :: Get(lib, Loaded(c.logs, disk), k) == Get(lib, c, k)
    ensures (forall k :: Get(lib, Loaded(c.logs, disk), k) == Get(lib, Reopened(lib.crc, c, tail), k)) <==>
      forall k :: var e := LastEntry(Behind(c.logs, cut, c.meta.active + 1), k);
        e.Some? ==> ReadEntry(lib, e.value) == Get(lib, c, k)
  {
    hide *;
    InterruptedRestored(lib.crc, c, cut, tail, disk);
    ReopenHarmless(lib, c, view, cut, tail);
    forall k: Key ensures Get(lib, Loaded(c.logs, disk), k) == Get(lib, c, k) {
      SameIndexReads(lib, Loaded(c.logs, disk), c, k);
    }
  }

  lemma SameIndexReads(lib: Lib, a: Store, b: Store, k: Key)
    requires Shape(a) && Shape(b) && a.logs == b.logs && a.index == b.index
    ensures Get(lib, a, k) == Get(lib, b, k)
  {
  }

  lemma InterruptedRestored(crc: Crc, c: Store, cut: map<nat, nat>, tail: Bytes, disk: Disk)
    requires SavedOlder(c) && Covered(c.logs, c.saved, cut) && CutsOff(crc, c, tail)
    requires Interrupted(crc, c, tail, false, disk)
    ensures Reopen(crc, disk, false, c.meta.active + 1) == Opened(disk)
    ensures Shape(Loaded(c.logs, disk)) && Loaded(c.logs, disk).logs == c.logs && Loaded(c.logs, disk).index == c.index
  {
    hide Shape, EncodeLog, CutsOff, Recoverable, Reopen, Restored, InsertAll, Uncovered, Resumable, DiskWithTail, Covered;
    SavedCovered(crc, c, cut, tail);
    DiskRecoverable(crc, c, tail);
    ReopenReplays(crc, DiskWithTail(crc, c, tail), c.logs, cut, c.meta.active);
    var r := Reopen(crc, DiskWithTail(crc, c, tail), false, c.meta.active + 1);
    ShapeIds(c);
    NotRepeated(crc, r.disk, c.logs, c.meta.active, c.index);
    RestoredIgnoresIndex(crc, r.disk, c.logs, c.meta.active, c.index);
    RestoredResumable(crc, disk, c);
    ResumableShape(Loaded(c.logs, disk), FullCut(c.logs));
  }

  /**
   * The same crash inside a rebuild of a lost index: the next open finds an index that is readable and empty and
   * watermarks at the end, and every key of the store is absent.
   */
  lemma RebuildInterrupted(lib: Lib, c: Store, tail: Bytes, disk: Disk, k: Key)
    requires SavedOlder(c) && CutsOff(lib.crc, c, tail) && Interrupted(lib.crc, c, tail, true, disk)
    ensures Reopen(lib.crc, disk, false, c.meta.active + 1) == Opened(disk)
    ensures Shape(Loaded(c.logs, disk)) && Get(lib, Loaded(c.logs, disk), k) == Absent
  {
    hide Shape, EncodeLog, CutsOff, Recoverable, Reopen, Restored, InsertAll, Flat, Resumable, DiskWithTail, DecodeAt;
    DiskRecoverable(lib.crc, c, tail);
    ReopenRebuilds(lib.crc, DiskWithTail(lib.crc, c, tail), c.logs, c.meta.active);
    var r := Reopen(lib.crc, DiskWithTail(lib.crc, c, tail), true, c.meta.active + 1);
    ShapeIds(c);
    NotRepeated(lib.crc, r.disk, c.logs, c.meta.active, map[]);
    RestoredIgnoresIndex(lib.crc, r.disk, c.logs, c.meta.active, map[]);
    RestoredResumable(lib.crc, disk, c);
    ResumableShape(Loaded(c.logs, disk), FullCut(c.logs));
  }
}
