/** The byte counts of a segment after a reopen and after a rebuild (recovery.rs, meta.rs). */
module Books {
  import opened Words
  import opened Compression
  import opened Segment
  import opened SegmentLog
  import opened Index
  import opened BlobStore
  import opened Gc
  import opened Recovery
  import opened Accounting
  import opened Crash
  import opened Reopening
  import opened Runs
  import opened CrashPoints
  import opened CrashReads

  lemma {:induction false} NoTombstoneRaw(log: Log)
    requires forall p :: p in log ==> EntryOk(p.e)
    ensures TombstoneRaw(log) == 0
  {
    if log != [] {
      var n := |log| - 1;
      assert log == log[..n] + [log[n]];
      NoTombstoneRaw(log[..n]);
    }
  }

  /** One round from a boundary: the data behind it is added to what was counted. */
  lemma RoundCounts(crc: Crc, id: nat, file: Bytes, log: Log, stats: Stats, full: bool, i: nat)
    requires Holds(crc, file, log) && i <= |log| && stats.indexed == End(log[..i]) && (full ==> i == 0)
    ensures var r := ScanSegment(crc, id, file, stats, full);
      && r.SegScan? && r.stats.total == stats.total + DataBytes(log[i..]) && r.stats.deleted == stats.deleted
      && (stats == Recompute(stats) ==> r.stats == Recompute(r.stats))
  {
    hide Cuttable, WellPlaced, Scan, EncodeLog, DataBytes, TombstoneRaw, EntryOk;
    HoldsScan(crc, file, log, i);
    BoundaryBelowEnd(log, i);
    assert End(log[..0]) == 0;
    assert forall p :: p in log[i..] ==> p in log;
    NoTombstoneRaw(log[i..]);
    if ScanStart(file, stats.indexed, full) >= |file| {
      assert i == |log| && log[i..] == [];
      NoData();
    }
  }

  /** After an open the statistics of a segment are those of its round. */
  lemma OpenedStats(crc: Crc, disk: Disk, lost: bool, active: nat, id: nat)
    requires OpenActive(disk, active + 1) == active && id in disk.files && id <= active
    requires Reopen(crc, disk, lost, active + 1).Opened?
    ensures var before := if lost then ResetStats(disk.meta.segments) else disk.meta.segments;
      var round := ScanSegment(crc, id, disk.files[id], StatsIn(before, id).(isSealed := id != active), lost);
      round.SegScan? && Reopen(crc, disk, lost, active + 1).disk.meta.StatsOf(id) == round.stats
  {
    hide ScanSegments, ScanSegment, OpenActive, InsertAll;
    var before := if lost then ResetStats(disk.meta.segments) else disk.meta.segments;
    LoopStats(crc, disk.files, Meta(active, before), lost, active + 1, id);
  }

  function StatsIn(segments: map<nat, Stats>, id: nat): Stats {
    Meta(0, segments).StatsOf(id)
  }

  /**
   * After a reopen a segment counts what the saved metadata counted and, once more, the data behind its
   * watermark; deleted bytes are as saved.
   */
  lemma ReopenCounts(crc: Crc, c: Store, cut: map<nat, nat>, tail: Bytes, id: nat)
    requires SavedOlder(c) && Covered(c.logs, c.saved, cut) && CutsOff(crc, c, tail) && id in c.logs
    ensures var was, now := c.saved.StatsOf(id), Reopened(crc, c, tail).meta.StatsOf(id);
      && now.total == was.total + DataBytes(c.logs[id][cut[id]..]) && now.deleted == was.deleted
      && (was == Recompute(was) ==> now == Recompute(now))
  {
    hide *;
    ReopenExact(crc, c, cut, tail);
    SavedCovered(crc, c, cut, tail);
    DiskRecoverable(crc, c, tail);
    ShapeIds(c);
    var disk, active := DiskWithTail(crc, c, tail), c.meta.active;
    ActiveIsNewest(crc, disk, c.logs, active);
    FileHolds(crc, disk, c.logs, active, id);
    ReopenedIs(crc, c, tail);
    OpenedStats(crc, disk, false, active, id);
    CoveredAt(c.logs, c.saved, cut, id);
    var stats := SealedAs(c.saved, id, id != active);
    RoundCounts(crc, id, disk.files[id], c.logs[id], stats, false, cut[id]);
  }

  lemma ReopenedIs(crc: Crc, c: Store, tail: Bytes)
    requires Shape(c) && ReopensAs(crc, c, tail, Reopened(crc, c, tail))
    ensures var r := Reopen(crc, DiskWithTail(crc, c, tail), false, c.meta.active + 1);
      r.Opened? && Reopened(crc, c, tail).meta == r.disk.meta
  {
    hide Shape, Reopen, DiskWithTail, Resumable, DiskOf;
  }

  lemma CoveredAt(logs: map<nat, Log>, meta: Meta, cut: map<nat, nat>, id: nat)
    requires Covered(logs, meta, cut) && id in logs
    ensures id in cut && cut[id] <= |logs[id]| && meta.StatsOf(id).indexed == End(logs[id][..cut[id]])
  {
  }

  /** The statistics as a round starts with them: only the mark of the active segment is set again. */
  ghost function SealedAs(meta: Meta, id: nat, flag: bool): (s: Stats)
    ensures s == StatsIn(meta.segments, id).(isSealed := flag)
    ensures s.total == meta.StatsOf(id).total && s.deleted == meta.StatsOf(id).deleted && s.indexed == meta.StatsOf(id).indexed
    ensures meta.StatsOf(id) == Recompute(meta.StatsOf(id)) ==> s == Recompute(s)
  {
    meta.StatsOf(id).(isSealed := flag)
  }

  lemma FileHolds(crc: Crc, disk: Disk, logs: map<nat, Log>, active: nat, id: nat)
    requires Recoverable(crc, disk, logs, active) && id in logs
    ensures id in disk.files && Holds(crc, disk.files[id], logs[id])
  {
  }

  lemma {:induction false} DataSplit(log: Log, i: nat)
    requires i <= |log|
    ensures DataBytes(log) == DataBytes(log[..i]) + DataBytes(log[i..])
  {
    DataBytesConcat(log[..i], log[i..]);
    assert log[..i] + log[i..] == log;
  }

  /** A reopen restores the totals if and only if the saved ones count exactly what the watermarks cover. */
  lemma ReopenTotals(crc: Crc, c: Store, cut: map<nat, nat>, tail: Bytes, id: nat)
    requires SavedOlder(c) && Covered(c.logs, c.saved, cut) && CutsOff(crc, c, tail) && id in c.logs
    ensures Reopened(crc, c, tail).meta.StatsOf(id).total == DataBytes(c.logs[id])
       <==> c.saved.StatsOf(id).total == DataBytes(c.logs[id][..cut[id]])
  {
    hide *;
    ReopenCounts(crc, c, cut, tail, id);
    FitsAt(c.logs, cut, id);
    DataSplit(c.logs[id], cut[id]);
  }

  lemma FitsAt(logs: map<nat, Log>, cut: map<nat, nat>, id: nat)
    requires Fits(logs, cut) && id in logs
    ensures id in cut && cut[id] <= |logs[id]|
  {
  }

  /** When the metadata was saved with data behind its watermarks, that data is counted twice. */
  lemma FlushedCountsTwice(crc: Crc, c: Store, cut: map<nat, nat>, tail: Bytes, id: nat)
    requires SavedOlder(c) && Covered(c.logs, c.saved, cut) && CutsOff(crc, c, tail) && id in c.logs
    requires c.saved.StatsOf(id).total == DataBytes(c.logs[id])
    ensures Reopened(crc, c, tail).meta.StatsOf(id).total == DataBytes(c.logs[id]) + DataBytes(c.logs[id][cut[id]..])
  {
    hide *;
    ReopenCounts(crc, c, cut, tail, id);
  }

  /** The old watermark of a segment after its log has grown. */
  lemma GrownFromMark(st: Store, cut: map<nat, nat>, s: Store, id: nat)
    requires Shape(st) && Fits(st.logs, cut) && id in s.logs
    requires LogsGrown(st.logs, st.meta.active, s.logs, s.meta.active)
    ensures MidCut(st, cut, s.logs, 0)[id] == if id in st.logs then cut[id] else 0
  {
    hide Shape, Flat, CutAt, LogsGrown;
    MidCutAt(st, cut, s.logs, 0, id);
    OldLogCovered(st, s, 0, id);
    GrownCut(st, s, id);
    CutIs(s.logs, |st.History()|, id);
  }

  /**
   * A batch that dies between the save of the metadata and the index transaction: after the reopen every
   * segment counts what the batch wrote to it, and what was behind its watermark before, twice.
   */
  lemma BatchFlushCountsTwice(lib: Lib, cfg: Config, st: Store, cut: map<nat, nat>, items: seq<Item>, id: nat)
    requires Resumable(st, cut) && Totals(st.logs, st.meta) && items != [] && Accepted(items) == |items|
    requires id in AppendMany(st, PackAll(lib, cfg, items)).logs
    ensures
      var es, points := PackAll(lib, cfg, items), Points(lib, cfg, st, PutBatch(items));
      var i, from := |AppendPoints(st, es)|, if id in st.logs then cut[id] else 0;
      && i < |points| && Shape(points[i].disk)
      && var log := AppendMany(st, es).logs[id];
         && from <= |log|
         && Reopened(lib.crc, points[i].disk, []).meta.StatsOf(id).total == DataBytes(log) + DataBytes(log[from..])
  {
    hide *;
    var op := PutBatch(items);
    ResumableShape(st, cut);
    FlushPoint(lib, cfg, st, items);
    var es := PackAll(lib, cfg, items);
    var a, i := AppendMany(st, es), |AppendPoints(st, es)|;
    var c := a.(saved := a.meta);
    PointsAreMid(lib, cfg, st, cut, op, i);
    WritesOk(lib, cfg, op);
    PutsTotal(st, es);
    TotalsAt(c, id);
    var mid := MidCut(st, cut, c.logs, 0);
    GrownMid(st, cut, es, c, |es|, 0);
    GrownFromMark(st, cut, c, id);
    FitsAt(c.logs, mid, id);
    NoTail(lib.crc, c);
    FlushedCountsTwice(lib.crc, c, mid, [], id);
  }

  /** The disk state after `flush_active`. */
  lemma FlushPoint(lib: Lib, cfg: Config, st: Store, items: seq<Item>)
    requires st.Ready() && items != [] && Accepted(items) == |items|
    ensures var es, points := PackAll(lib, cfg, items), Points(lib, cfg, st, PutBatch(items));
      var a, i := AppendMany(st, es), |AppendPoints(st, es)|;
      i < |points| && points[i] == Point(a.(saved := a.meta), |es|, 0, 0) && Writes(lib, cfg, PutBatch(items)) == es
  {
    hide AppendPoints, AppendMany, PackAll, Accepted, Indexed;
    assert items[..|items|] == items;
  }

  lemma TotalsAt(s: Store, id: nat)
    requires Totals(s.logs, s.meta) && id in s.logs
    ensures s.meta.StatsOf(id).total == DataBytes(s.logs[id])
  {
    hide DataBytes;
  }

  lemma GrownMid(st: Store, cut: map<nat, nat>, es: seq<Entry>, c: Store, j: nat, q: nat)
    requires Resumable(st, cut) && Mid(st, cut, es, c, j, q, 0)
    ensures Shape(c) && SavedOlder(c) && Fits(st.logs, cut) && Fits(c.logs, MidCut(st, cut, c.logs, 0))
    ensures LogsGrown(st.logs, st.meta.active, c.logs, c.meta.active)
    ensures Covered(c.logs, c.saved, MidCut(st, cut, c.logs, 0))
  {
    hide Shape, MidCut, LogsGrown, Extends, SavedOlder;
  }

  // ------------------------------------------------------------ live and deleted bytes

  /** A replayed record of segment `id` lies at or behind the watermark. */
  lemma {:induction false} UncoveredPast(logs: map<nat, Log>, cut: map<nat, nat>, hi: nat, id: nat, r: IndexRecord)
    requires Fits(logs, cut) && id in logs && WellPlaced(logs[id])
    requires r in Uncovered(logs, cut, hi) && r.segmentId == id
    ensures r.offset >= End(logs[id][..cut[id]])
  {
    hide WellPlaced;
    var top := hi - 1;
    if r in Uncovered(logs, cut, top) {
      UncoveredPast(logs, cut, top, id, r);
    } else {
      var log := logs[top];
      var recs := LogRecords(top, log[cut[top]..]);
      assert Uncovered(logs, cut, hi) == Uncovered(logs, cut, top) + recs;
      var k :| 0 <= k < |recs| && recs[k] == r;
      var n := cut[top] + k;
      assert log[cut[top]..][k] == log[n];
      PlacedAt(log, cut[top], n);
    }
  }

  lemma PlacedAt(log: Log, i: nat, n: nat)
    requires WellPlaced(log) && i <= n < |log|
    ensures End(log[..i]) <= log[n].off
  {
    hide WellPlaced;
    PrefixPlaced(log, n);
    if i < n {
      Ordered(log, i, n);
    }
    PrefixPlaced(log, i);
  }

  lemma PlacedBefore(log: Log, i: nat, p: Placed)
    requires WellPlaced(log) && i <= |log| && p in log[..i]
    ensures p.off < End(log[..i])
  {
    hide WellPlaced;
    var n :| 0 <= n < i && log[..i][n] == p;
    PrefixPlaced(log, i);
    Ordered(log[..i], n, i);
    assert log[..i][..i] == log[..i];
  }

  /** Replaying what lies behind the watermark makes nothing in front of it live. */
  lemma ReplayAt(index: IndexMap, logs: map<nat, Log>, cut: map<nat, nat>, hi: nat, id: nat, p: Placed)
    requires Fits(logs, cut) && id in logs && WellPlaced(logs[id]) && p in logs[id][..cut[id]]
    requires Live(InsertAll(index, Uncovered(logs, cut, hi)), id, p)
    ensures Live(index, id, p)
  {
    hide WellPlaced, InsertAll, Uncovered;
    var recs := Uncovered(logs, cut, hi);
    InsertAllAt(index, recs, p.e.key);
    LastForMember(recs, p.e.key);
    if LastFor(recs, p.e.key).Some? {
      UncoveredPast(logs, cut, hi, id, LastFor(recs, p.e.key).value);
      PlacedBefore(logs[id], cut[id], p);
      assert false;
    }
  }

  lemma {:induction false} LiveGrows(index: IndexMap, id: nat, log: Log, extra: Log)
    ensures LiveBytes(index, id, log) <= LiveBytes(index, id, log + extra)
  {
    hide LiveBytes, Live;
    if extra == [] {
      assert log + extra == log;
    } else {
      var n := |extra| - 1;
      LiveGrows(index, id, log, extra[..n]);
      assert log + extra == log + extra[..n] + [extra[n]];
      LiveStep(index, id, log + extra[..n], extra[n]);
    }
  }

  /** The index after the reopen. */
  ghost function ReplayedIndex(c: Store, cut: map<nat, nat>): IndexMap
    requires Fits(c.logs, cut)
  {
    InsertAll(c.index, Uncovered(c.logs, cut, c.meta.active + 1))
  }

  /** A segment after the reopen of any boundary watermarks, exactly. */
  lemma ReopenSegment(crc: Crc, c: Store, cut: map<nat, nat>, tail: Bytes, id: nat)
    requires SavedOlder(c) && Covered(c.logs, c.saved, cut) && CutsOff(crc, c, tail) && id in c.logs
    ensures var s := Reopened(crc, c, tail);
      && s.index == ReplayedIndex(c, cut) && s.logs == c.logs && s.saved == s.meta
      && s.meta.StatsOf(id).total == c.saved.StatsOf(id).total + DataBytes(c.logs[id][cut[id]..])
      && s.meta.StatsOf(id).deleted == c.saved.StatsOf(id).deleted
  {
    hide ReopensAs, Reopen, InsertAll, Uncovered, CutsOff, Covered, SavedOlder, DataBytes, DiskWithTail, Reopened;
    ReopenExact(crc, c, cut, tail);
    ReopenCounts(crc, c, cut, tail, id);
    ReopenedSaved(crc, c, tail);
  }

  lemma ReopenedLogs(crc: Crc, c: Store, cut: map<nat, nat>, tail: Bytes)
    requires SavedOlder(c) && Covered(c.logs, c.saved, cut) && CutsOff(crc, c, tail)
    ensures Reopened(crc, c, tail).logs == c.logs && Reopened(crc, c, tail).saved == Reopened(crc, c, tail).meta
  {
    hide ReopensAs, Reopen, InsertAll, Uncovered, CutsOff, Covered, SavedOlder, DiskWithTail, Reopened;
    ReopenExact(crc, c, cut, tail);
    ReopenedSaved(crc, c, tail);
  }

  lemma ReopenedSaved(crc: Crc, c: Store, tail: Bytes)
    requires Shape(c) && ReopensAs(crc, c, tail, Reopened(crc, c, tail))
    ensures Reopened(crc, c, tail).saved == Reopened(crc, c, tail).meta
  {
    hide Shape, Reopen, DiskWithTail, Resumable, DiskOf;
  }

  /** Enough for a segment: what is live before the watermark fits the saved counts. */
  lemma PrefixCovers(crc: Crc, c: Store, cut: map<nat, nat>, tail: Bytes, id: nat, ref: IndexMap)
    requires SavedOlder(c) && Covered(c.logs, c.saved, cut) && CutsOff(crc, c, tail) && id in c.logs
    requires forall p :: p in c.logs[id][..cut[id]] && Live(ReplayedIndex(c, cut), id, p) ==> Live(ref, id, p)
    requires LiveBytes(ref, id, c.logs[id][..cut[id]]) + c.saved.StatsOf(id).deleted <= c.saved.StatsOf(id).total
    ensures var s := Reopened(crc, c, tail);
      LiveBytes(s.index, id, c.logs[id]) + s.meta.StatsOf(id).deleted <= s.meta.StatsOf(id).total
  {
    hide *;
    ReopenSegment(crc, c, cut, tail, id);
    FitsAt(c.logs, cut, id);
    var log, i, after := c.logs[id], cut[id], ReplayedIndex(c, cut);
    LiveMonotone(ref, after, id, log[..i]);
    assert log == log[..i] + log[i..];
    LiveAtMostData(after, id, log[..i], log[i..]);
  }

  // ----------------------------------------------------------------------- at rest

  /** Restarting a store at rest keeps its books. */
  lemma CleanRestartBalances(crc: Crc, st: Store)
    requires Resumable(st, FullCut(st.logs)) && st.saved == st.meta && BooksBalance(st)
    ensures Shape(st) && BooksBalance(Reopened(crc, st, []))
  {
    hide *;
    var s, cut := Reopened(crc, st, []), FullCut(st.logs);
    ResumableShape(st, cut);
    NoTail(crc, st);
    ReopenExact(crc, st, cut, []);
    FullUncovered(st.logs, st.meta.active + 1);
    InsertNone(st.index);
    ResumableShape(s, cut);
    MetaKeys(s);
    forall id | id in st.logs
      ensures s.meta.StatsOf(id).total == st.meta.StatsOf(id).total && s.meta.StatsOf(id).deleted == st.meta.StatsOf(id).deleted
      ensures s.meta.StatsOf(id) == Recompute(s.meta.StatsOf(id))
    {
      ReopenCounts(crc, st, cut, [], id);
      FullAt(st.logs, id);
      NoData();
      ComputedAt(st, id);
    }
    SameBooks(st, s);
  }

  lemma SameBooks(st: Store, s: Store)
    requires BooksBalance(st) && s.logs == st.logs && s.index == st.index && s.meta.segments.Keys <= s.logs.Keys
    requires forall id :: id in st.logs ==>
      && s.meta.StatsOf(id).total == st.meta.StatsOf(id).total && s.meta.StatsOf(id).deleted == st.meta.StatsOf(id).deleted
      && s.meta.StatsOf(id) == Recompute(s.meta.StatsOf(id))
    ensures BooksBalance(s)
  {
    hide DataBytes, LiveBytes;
  }

  lemma FullAt(logs: map<nat, Log>, id: nat)
    requires id in logs
    ensures id in FullCut(logs) && FullCut(logs)[id] == |logs[id]| && logs[id][FullCut(logs)[id]..] == []
  {
  }

  lemma InsertNone(index: IndexMap)
    ensures InsertAll(index, []) == index
  {
  }

  lemma ComputedAt(st: Store, id: nat)
    requires BooksBalance(st)
    ensures st.meta.StatsOf(id) == Recompute(st.meta.StatsOf(id))
  {
    hide DataBytes, LiveBytes;
    NewIsComputed();
  }

  lemma NewIsComputed()
    ensures NEW_STATS == Recompute(NEW_STATS)
  {
  }

  lemma {:induction false} FullUncovered(logs: map<nat, Log>, hi: nat)
    ensures Uncovered(logs, FullCut(logs), hi) == []
  {
    NothingUncovered(logs, FullCut(logs), hi);
  }

  // -------------------------------------------------------------------------- a rebuild

  lemma RebuildCounts(crc: Crc, st: Store, id: nat)
    requires Shape(st) && SavedOlder(st) && id in st.logs
    ensures var r := Reopen(crc, DiskOf(crc, st), true, st.meta.active + 1);
      && r.Opened? && id in r.disk.meta.segments
      && r.disk.meta.segments[id].total == DataBytes(st.logs[id]) && r.disk.meta.segments[id].deleted == 0
      && r.disk.meta.segments[id] == Recompute(r.disk.meta.segments[id])
  {
    hide Shape, EncodeLog, InsertAll, ScanSegment, ScanSegments, DataBytes, Holds, HoldsAll, Restored, CutsOff;
    NoTail(crc, st);
    DiskRecoverable(crc, st, []);
    ShapeIds(st);
    var disk, active := DiskOf(crc, st), st.meta.active;
    var meta := Meta(active, ResetStats(disk.meta.segments));
    ReopenRebuilds(crc, disk, st.logs, active);
    ActiveIsNewest(crc, disk, st.logs, active);
    FileHolds(crc, disk, st.logs, active, id);
    LoopStats(crc, disk.files, meta, true, active + 1, id);
    var log := st.logs[id];
    assert log[..0] == [] && log[0..] == log;
    RoundCounts(crc, id, disk.files[id], log, meta.StatsOf(id).(isSealed := id != active), true, 0);
  }

  /** A rebuild leaves books that balance, whatever they were before. */
  lemma RebuildBalances(crc: Crc, st: Store)
    requires Shape(st) && SavedOlder(st)
    ensures var r := Reopen(crc, DiskOf(crc, st), true, st.meta.active + 1);
      r.Opened? && BooksBalance(Loaded(st.logs, r.disk))
  {
    hide Shape, EncodeLog, InsertAll, Reopen, DataBytes, Holds, HoldsAll, Compact, LiveBytes, CutsOff;
    NoTail(crc, st);
    DiskRecoverable(crc, st, []);
    ShapeIds(st);
    ReopenRebuilds(crc, DiskOf(crc, st), st.logs, st.meta.active);
    var r := Reopen(crc, DiskOf(crc, st), true, st.meta.active + 1);
    forall id | id in st.logs
      ensures id in r.disk.meta.segments && r.disk.meta.segments[id].total == DataBytes(st.logs[id])
      ensures r.disk.meta.segments[id].deleted == 0 && r.disk.meta.segments[id] == Recompute(r.disk.meta.segments[id])
      ensures LiveBytes(r.disk.index, id, st.logs[id]) <= DataBytes(st.logs[id])
    {
      RebuildCounts(crc, st, id);
      LiveWithin(r.disk.index, id, st.logs[id]);
    }
  }

  lemma {:induction false} LiveWithin(index: IndexMap, id: nat, log: Log)
    ensures LiveBytes(index, id, log) <= DataBytes(log)
  {
    hide Live;
    if log != [] {
      LiveWithin(index, id, log[..|log| - 1]);
      if Live(index, id, log[|log| - 1]) {
        var c := Compact(index, id, log[..|log| - 1]);
        assert (c + [Placed(End(c), log[|log| - 1].e)])[..|c|] == c;
      }
    }
  }
}
