/** The process dies inside the write of one entry: for which byte counts the store opens again (segment.rs, recovery.rs). */
module TornAppends {
  import opened Words
  import opened Compression
  import opened Segment
  import opened SegmentLog
  import opened BlobStore
  import opened Runs
  import opened Gc
  import opened Recovery
  import opened Crash
  import opened Reopening
  import opened CrashPoints
  import opened CrashReads

  /** The entry is complete and only its checksum is not patched yet, or its data is cut short. */
  predicate Unreadable(crc: Crc, e: Entry, n: nat)
    requires |e.data| <= MAX_VALUE_SIZE
  {
    || ENTRY_HEADER_SIZE <= n < e.Size()
    || (n == e.Size() && crc(Body(e)) != 0 && |e.data| == MAX_VALUE_SIZE)
  }

  lemma TornIs(crc: Crc, off: nat, e: Entry, n: nat)
    requires |e.data| <= MAX_VALUE_SIZE && n <= e.Size()
    ensures Torn(crc, off, e, n).ScanFailed? <==> Unreadable(crc, e, n)
    ensures n < e.Size() || crc(Body(e)) != 0 ==> Torn(crc, off, e, n) == Scanned([], off) || Unreadable(crc, e, n)
  {
    hide Body;
  }

  // ------------------------------------------------------------------------- the open fails

  /** A failed round fails the open. */
  lemma RoundFails(crc: Crc, disk: Disk, active: nat)
    requires active in disk.files && OpenActive(disk, active + 1) == active
    requires ScanSegment(crc, active, disk.files[active], disk.meta.StatsOf(active).(isSealed := false), false).SegFailed?
    ensures Reopen(crc, disk, false, active + 1).OpenFailed?
  {
    hide ScanSegment, OpenActive;
  }

  lemma ActiveOf(crc: Crc, c: Store, tail: Bytes)
    requires Shape(c) && SavedOlder(c)
    ensures OpenActive(DiskWithTail(crc, c, tail), c.meta.active + 1) == c.meta.active
  {
    hide EncodeLog, LogOk;
    MaxIdBelow(DiskWithTail(crc, c, tail).files, c.meta.active + 1, c.meta.active);
  }

  /** The file of the active segment, and where its scan starts. */
  lemma ActiveFile(crc: Crc, c: Store, cut: map<nat, nat>, tail: Bytes)
    requires Shape(c) && Covered(c.logs, c.saved, cut)
    ensures WellPlaced(c.Active()) && DiskWithTail(crc, c, tail).files[c.meta.active] == EncodeLog(crc, c.Active()) + tail
    ensures cut[c.meta.active] <= |c.Active()| && End(c.Active()[..cut[c.meta.active]]) <= End(c.Active())
    ensures c.saved.StatsOf(c.meta.active).indexed == End(c.Active()[..cut[c.meta.active]])
  {
    hide EncodeLog, WellPlaced, End;
    ShapeLogs(c, c.meta.active);
    BoundaryBelowEnd(c.Active(), cut[c.meta.active]);
  }

  lemma TornFails(crc: Crc, c: Store, cut: map<nat, nat>, e: Entry, n: nat)
    requires Shape(c) && SavedOlder(c) && Covered(c.logs, c.saved, cut) && |e.data| <= MAX_VALUE_SIZE && n <= e.Size()
    requires Unreadable(crc, e, n)
    ensures Reopen(crc, DiskWithTail(crc, c, TornImage(e, n)), false, c.meta.active + 1).OpenFailed?
  {
    hide Shape, EncodeLog, Scan, Torn, WellPlaced, End, Body, Reopen, OpenActive, Covered, SavedOlder;
    var tail, active, log := TornImage(e, n), c.meta.active, c.Active();
    var disk, i := DiskWithTail(crc, c, tail), cut[active];
    ActiveOf(crc, c, tail);
    ActiveFile(crc, c, cut, tail);
    TornIs(crc, End(log), e, n);
    TornAppend(crc, log, e, n, i);
    assert disk.meta == c.saved by { SavedCovered(crc, c, cut, tail); }
    RoundFails(crc, disk, active);
  }

  // ------------------------------------------------------------------------- the open succeeds

  lemma TornCutsOff(crc: Crc, c: Store, e: Entry, n: nat)
    requires Shape(c) && |e.data| <= MAX_VALUE_SIZE && n <= e.Size() && Torn(crc, End(c.Active()), e, n) == Scanned([], End(c.Active()))
    ensures CutsOff(crc, c, TornImage(e, n))
  {
    hide EncodeLog, Scan, Torn, WellPlaced, Body, TornImage;
    var log, tail := c.Active(), TornImage(e, n);
    ShapeLogs(c, c.meta.active);
    TornAppend(crc, log, e, n, |log|);
    ScanTail(crc, log, tail, |log|);
    assert log[..|log|] == log && log[|log|..] == [];
    PrependStops([], End(log));
  }

  /** The logs with the entry at the end of the active segment. */
  function Longer(c: Store, e: Entry): (logs: map<nat, Log>)
    requires c.Ready()
    ensures logs.Keys == c.logs.Keys
  {
    c.logs[c.meta.active := c.Active() + [Placed(End(c.Active()), e)]]
  }

  lemma LongerCovered(c: Store, cut: map<nat, nat>, e: Entry)
    requires c.Ready() && Covered(c.logs, c.saved, cut)
    ensures Covered(Longer(c, e), c.saved, cut)
  {
    var log, i := c.Active(), cut[c.meta.active];
    assert (log + [Placed(End(log), e)])[..i] == log[..i];
  }

  lemma LongerHolds(crc: Crc, c: Store, e: Entry, id: nat)
    requires Shape(c) && EntryOk(e) && End(c.Active()) < SEGMENT_MAX_SIZE && crc(Body(e)) == 0 && id in c.logs
    ensures var disk := DiskWithTail(crc, c, TornImage(e, e.Size()));
      id in disk.files && Holds(crc, disk.files[id], Longer(c, e)[id])
  {
    hide EncodeLog, WellPlaced, Body, LogOk, Holds, Encode, EntryOk, TornImage;
    ShapeLogs(c, id);
    WholeHolds(crc, c.logs[id]);
    if id == c.meta.active {
      var log := c.Active();
      AppendLogOk(log, e);
      EntrySize(e);
      AppendKeepsPlaced(crc, log, e);
      ImageIs(crc, e);
      WholeHolds(crc, Longer(c, e)[id]);
    }
  }

  lemma EntrySize(e: Entry)
    requires EntryOk(e)
    ensures |e.data| <= MAX_VALUE_SIZE
  {
  }

  lemma TailFacts(crc: Crc, c: Store, tail: Bytes)
    requires Shape(c)
    ensures var disk := DiskWithTail(crc, c, tail); disk.files.Keys == c.logs.Keys && disk.meta == c.saved
  {
    hide EncodeLog, LogOk;
  }

  lemma LongerRecoverable(crc: Crc, c: Store, e: Entry, disk: Disk)
    requires Shape(c) && SavedOlder(c) && disk.files.Keys == c.logs.Keys && disk.meta == c.saved
    requires forall id :: id in c.logs ==> Holds(crc, disk.files[id], Longer(c, e)[id])
    ensures Recoverable(crc, disk, Longer(c, e), c.meta.active)
  {
    hide Holds, End, Shape;
    ShapeIds(c);
  }

  /** A complete image whose true checksum is zero is an entry already. */
  lemma ZeroChecksum(crc: Crc, c: Store, cut: map<nat, nat>, e: Entry)
    requires Shape(c) && SavedOlder(c) && Covered(c.logs, c.saved, cut) && EntryOk(e) && End(c.Active()) < SEGMENT_MAX_SIZE
    requires crc(Body(e)) == 0
    ensures Reopen(crc, DiskWithTail(crc, c, TornImage(e, e.Size())), false, c.meta.active + 1).Opened?
  {
    hide EncodeLog, Reopen, Body, Holds, TornImage, End, EntryOk, Shape, DiskWithTail, Longer, Covered, SavedOlder, Recoverable;
    EntrySize(e);
    var disk := DiskWithTail(crc, c, TornImage(e, e.Size()));
    TailFacts(crc, c, TornImage(e, e.Size()));
    forall id | id in c.logs ensures Holds(crc, disk.files[id], Longer(c, e)[id]) {
      LongerHolds(crc, c, e, id);
    }
    LongerRecoverable(crc, c, e, disk);
    LongerCovered(c, cut, e);
    ReopenReplays(crc, disk, Longer(c, e), cut, c.meta.active);
  }

  lemma ImageIs(crc: Crc, e: Entry)
    requires |e.data| <= MAX_VALUE_SIZE && crc(Body(e)) == 0
    ensures TornImage(e, e.Size()) == Encode(crc, e)
  {
    hide Body, Framed;
    var b := Framed(0, Body(e));
    assert b[..|b|] == b;
  }

  lemma WholeHolds(crc: Crc, log: Log)
    requires LogOk(log)
    ensures Holds(crc, EncodeLog(crc, log), log)
  {
    hide EncodeLog, WellPlaced;
    var file := EncodeLog(crc, log);
    assert file[..End(log)] == file;
  }

  /**
   * An append cut short after `n` bytes, behind any store with boundary watermarks: the open fails if and only if
   * the header is complete and the data is not, or the image is complete, its checksum not patched, and the value
   * of the greatest size.
   */
  lemma TornReopen(crc: Crc, c: Store, cut: map<nat, nat>, e: Entry, n: nat)
    requires Shape(c) && SavedOlder(c) && Covered(c.logs, c.saved, cut) && EntryOk(e) && n <= e.Size()
    requires End(c.Active()) < SEGMENT_MAX_SIZE
    ensures Reopen(crc, DiskWithTail(crc, c, TornImage(e, n)), false, c.meta.active + 1).OpenFailed? <==> Unreadable(crc, e, n)
    ensures !Unreadable(crc, e, n) && (n < e.Size() || crc(Body(e)) != 0) ==> CutsOff(crc, c, TornImage(e, n))
  {
    hide Shape, EncodeLog, Torn, WellPlaced, End, Body, Reopen, Covered, SavedOlder, TornImage, CutsOff, Unreadable, ReopensAs;
    if Unreadable(crc, e, n) {
      TornFails(crc, c, cut, e, n);
    } else {
      TornIs(crc, End(c.Active()), e, n);
      if n < e.Size() || crc(Body(e)) != 0 {
        TornCutsOff(crc, c, e, n);
        ReopenExact(crc, c, cut, TornImage(e, n));
        OpenedIs(crc, c, TornImage(e, n));
      } else {
        ZeroChecksum(crc, c, cut, e);
      }
    }
  }

  lemma OpenedIs(crc: Crc, c: Store, tail: Bytes)
    requires Shape(c) && ReopensAs(crc, c, tail, Reopened(crc, c, tail))
    ensures Reopen(crc, DiskWithTail(crc, c, tail), false, c.meta.active + 1).Opened?
  {
    hide Reopen, Shape, DiskWithTail;
  }

  /** The same at every disk state of every write. */
  lemma TornCrash(lib: Lib, cfg: Config, st: Store, cut: map<nat, nat>, op: Op, i: nat, e: Entry, n: nat)
    requires Resumable(st, cut) && !op.Gc? && i < |Points(lib, cfg, st, op)| && EntryOk(e) && n <= e.Size()
    requires var c := Points(lib, cfg, st, op)[i].disk; c.Ready() && End(c.Active()) < SEGMENT_MAX_SIZE
    ensures var c := Points(lib, cfg, st, op)[i].disk;
      && Shape(c)
      && (Reopen(lib.crc, DiskWithTail(lib.crc, c, TornImage(e, n)), false, c.meta.active + 1).OpenFailed?
          <==> Unreadable(lib.crc, e, n))
  {
    hide *;
    var p, es := Points(lib, cfg, st, op)[i], Writes(lib, cfg, op);
    PointsAreMid(lib, cfg, st, cut, op, i);
    MidFacts(st, cut, es, p.disk, p.written, p.indexed, p.marked);
    TornReopen(lib.crc, p.disk, MidCut(st, cut, p.disk.logs, p.marked), e, n);
  }
}
