/**
 * Live and deleted bytes after a crash at any disk state of any write and a reopen: where they still fit the
 * total, and the one kind of state where they may not (engine.rs, recovery.rs).
 */
module CrashBooks {
  import opened Words
  import opened Compression
  import opened Segment
  import opened SegmentLog
  import opened Index
  import opened BlobStore
  import opened StoreWrites
  import opened Gc
  import opened Runs
  import opened Accounting
  import opened GcProgress
  import opened Recovery
  import opened Crash
  import opened Reopening
  import opened CrashPoints
  import opened CrashReads
  import opened CrashCounts
  import Books

  // ------------------------------------------------------------------------ after the reopen

  /** Before the first watermark update: what is live in front of a watermark was live, and the write is not about its key. */
  lemma PrefixRow(st: Store, cut: map<nat, nat>, es: seq<Entry>, c: Store, j: nat, q: nat, id: nat, p: Placed)
    requires Resumable(st, cut) && (forall i :: 0 <= i < |es| ==> EntryOk(es[i])) && Mid(st, cut, es, c, j, q, 0)
    requires Fits(c.logs, MidCut(st, cut, c.logs, 0)) && id in st.logs && p in st.logs[id][..cut[id]]
    requires Live(Books.ReplayedIndex(c, MidCut(st, cut, c.logs, 0)), id, p)
    ensures Live(st.index, id, p) && forall i :: 0 <= i < j ==> es[i].key != p.e.key
  {
    hide Shape, Flat, Extends, InsertAll, LastFor, AppendMany, AppendedRecords, MidCut, LogsGrown, EntryOk, Uncovered, WellPlaced, Horizon;
    var recs, k := AppendedRecords(st, es[..j]), p.e.key;
    UncoveredMid(st, cut, c, recs, 0);
    assert recs[0..] == recs;
    var was := Uncovered(st.logs, cut, Horizon(st, c.logs, 0));
    InsertAllAt(c.index, was + recs, k);
    LastForConcat(was, recs, k);
    LastForMember(recs, k);
    LastForMember(was, k);
    InsertAllAt(st.index, recs[..q], k);
    LastForMember(recs[..q], k);
    ShapeLogs(st, id);
    Books.PlacedBefore(st.logs[id], cut[id], p);
    if LastFor(recs, k).Some? {
      NewRowElsewhere(st, es[..j], LastFor(recs, k).value, id, cut[id]);
      assert false;
    } else if LastFor(was, k).Some? {
      Books.UncoveredPast(st.logs, cut, Horizon(st, c.logs, 0), id, LastFor(was, k).value);
      assert false;
    } else {
      assert forall r :: r in recs[..q] ==> r in recs;
      forall i | 0 <= i < j ensures es[i].key != k {
        RecordKey(st, es[..j], i);
        assert recs[i] in recs;
      }
    }
  }

  lemma RecordKey(st: Store, es: seq<Entry>, i: nat)
    requires Shape(st) && i < |es| && forall n :: 0 <= n < |es| ==> EntryOk(es[n])
    ensures AppendedRecords(st, es)[i].key == es[i].key
  {
    hide Shape, AppendedRecords, AppendMany, Flat, Extends, EntryOk;
    AppendManyFacts(st, es);
    PointsKey(AppendMany(st, es).logs, AppendedRecords(st, es)[i], es[i]);
  }

  lemma NewRowElsewhere(st: Store, es: seq<Entry>, r: IndexRecord, id: nat, i: nat)
    requires Shape(st) && (forall n :: 0 <= n < |es| ==> EntryOk(es[n])) && r in AppendedRecords(st, es)
    requires id in st.logs && i <= |st.logs[id]|
    ensures r.segmentId == id ==> r.offset >= End(st.logs[id][..i])
  {
    hide Shape, AppendedRecords, EntryOk, WellPlaced;
    var n :| 0 <= n < |es| && AppendedRecords(st, es)[n] == r;
    RecordsBeyond(st, es, n);
    ShapeLogs(st, id);
    BoundaryBelowEnd(st.logs[id], i);
  }

  /** What is live in front of a watermark without the deleted keys fits the counts on disk. */
  lemma PrefixFits(st: Store, cut: map<nat, nat>, view: View, saved: Meta, keys: seq<Key>, n: nat, id: nat)
    requires Resumable(st, cut) && Inv(st, view) && Covers(st.logs, st.index, st.meta) && SavedCovers(st, cut)
    requires SavedAs(st, saved, keys, n) && n <= |keys| && DistinctDeletes(DeleteKeys(keys)) && id in st.logs
    ensures LiveBytes(st.index - (set k | k in keys[..n]), id, st.logs[id][..cut[id]]) + saved.StatsOf(id).deleted
         <= saved.StatsOf(id).total
  {
    hide Resumable, Shape, Means, LiveBytes, Counted, Repeated, WellPlaced, Live;
    var log, i, ref := st.logs[id], cut[id], st.index - (set k | k in keys[..n]);
    assert log == log[..i] + log[i..];
    if saved == st.saved {
      LessLive(st.index, (set k | k in keys[..n]), id, log[..i]);
    } else {
      Books.LiveGrows(ref, id, log[..i], log[i..]);
      ShapeLogs(st, id);
      LiveWithout(st.logs, st.index, view, keys[..n], id);
      NoneRepeated(st.index, keys[..n], id);
    }
  }

  lemma LessLive(index: IndexMap, gone: set<Key>, id: nat, log: Log)
    ensures LiveBytes(index - gone, id, log) <= LiveBytes(index, id, log)
  {
    hide LiveBytes;
    LiveMonotone(index, index - gone, id, log);
  }

  lemma NewSegmentEmpty(st: Store, view: View, saved: Meta, keys: seq<Key>, n: nat, id: nat)
    requires Inv(st, view) && SavedOlder(st) && id !in st.logs && SavedAs(st, saved, keys, n)
    ensures saved.StatsOf(id).deleted == 0
  {
    hide Shape, Means, Counted;
    if saved != st.saved {
      NothingCounted(st, view, keys[..n], id);
    }
  }

  /** A segment, at a state before the first watermark update. */
  lemma UnmarkedCovers(crc: Crc, st: Store, cut: map<nat, nat>, view: View, es: seq<Entry>, keys: seq<Key>, c: Store, j: nat,
                       q: nat, n: nat, tail: Bytes, id: nat)
    requires Resumable(st, cut) && Inv(st, view) && Covers(st.logs, st.index, st.meta) && SavedCovers(st, cut)
    requires (forall i :: 0 <= i < |es| ==> EntryOk(es[i])) && Mid(st, cut, es, c, j, q, 0) && CutsOff(crc, c, tail)
    requires SavedAs(st, c.saved, keys, n) && n <= j && n <= |keys| && DistinctDeletes(DeleteKeys(keys)) && id in c.logs
    requires forall i :: 0 <= i < n ==> es[i].key == keys[i]
    ensures var s := Reopened(crc, c, tail);
      LiveBytes(s.index, id, c.logs[id]) + s.meta.StatsOf(id).deleted <= s.meta.StatsOf(id).total
  {
    hide Resumable, Shape, Means, Covers, SavedCovers, LiveBytes, Mid, CutsOff, SavedAs, Reopened, Live, DistinctDeletes, MidCut, EntryOk,
      Books.ReplayedIndex, Covered, LogsGrown;
    MidFacts(st, cut, es, c, j, q, 0);
    Books.GrownMid(st, cut, es, c, j, q);
    Books.GrownFromMark(st, cut, c, id);
    var mid := MidCut(st, cut, c.logs, 0);
    Books.FitsAt(c.logs, mid, id);
    var ref := st.index - (set k | k in keys[..n]);
    if id in st.logs {
      GrownPrefix(st, c, id);
      assert c.logs[id][..cut[id]] == st.logs[id][..cut[id]];
      forall p | p in c.logs[id][..mid[id]] && Live(Books.ReplayedIndex(c, mid), id, p)
        ensures Live(ref, id, p)
      {
        PrefixRow(st, cut, es, c, j, q, id, p);
        StaysLive(st.index, keys[..n], id, p);
      }
      PrefixFits(st, cut, view, c.saved, keys, n, id);
    } else {
      NewSegmentEmpty(st, view, c.saved, keys, n, id);
      LiveNone(ref, id);
      assert c.logs[id][..0] == [];
    }
    Books.PrefixCovers(crc, c, mid, tail, id, ref);
  }

  lemma StaysLive(index: IndexMap, keys: seq<Key>, id: nat, p: Placed)
    requires Live(index, id, p) && forall i :: 0 <= i < |keys| ==> keys[i] != p.e.key
    ensures Live(index - (set k | k in keys), id, p)
  {
  }

  /** A segment, at a state after a watermark update. */
  lemma MarkedCovers(crc: Crc, c: Store, mid: map<nat, nat>, tail: Bytes, id: nat)
    requires SavedOlder(c) && Covered(c.logs, c.saved, mid) && CutsOff(crc, c, tail) && id in c.logs
    requires Covers(c.logs, c.index, c.saved)
    ensures var s := Reopened(crc, c, tail);
      LiveBytes(s.index, id, c.logs[id]) + s.meta.StatsOf(id).deleted <= s.meta.StatsOf(id).total
  {
    hide Shape, LiveBytes, CutsOff, Reopened, Live, Covered, InsertAll, Uncovered, WellPlaced;
    var log, i := c.logs[id], mid[id];
    ShapeLogs(c, id);
    forall p | p in log[..i] && Live(Books.ReplayedIndex(c, mid), id, p)
      ensures Live(c.index, id, p)
    {
      Books.ReplayAt(c.index, c.logs, mid, c.meta.active + 1, id, p);
    }
    assert log == log[..i] + log[i..];
    Books.LiveGrows(c.index, id, log[..i], log[i..]);
    Books.PrefixCovers(crc, c, mid, tail, id, c.index);
  }

  // ------------------------------------------------------------- the saved roll-over of a delete

  lemma LoopPoint(lib: Lib, cfg: Config, st: Store, op: Op, i: nat)
    requires st.Ready() && (op.Delete? || op.DeleteKeys?) && i < |DeletePoints(st, KeysOf(op))|
    ensures i < |Points(lib, cfg, st, op)| && Points(lib, cfg, st, op)[i] == DeletePoints(st, KeysOf(op))[i]
  {
    hide DeleteMany, DeletePoints, OnePoints, CommitPoints, AppendedRecords;
  }

  lemma RolledAt(lib: Lib, cfg: Config, st: Store, op: Op, n: nat)
    requires st.Ready() && (op.Delete? || op.DeleteKeys?) && n < |KeysOf(op)|
    ensures var keys := KeysOf(op);
      var a := CountDeleted(DeleteMany(st, keys[..n]), keys[n]);
      3 * n + 2 < |Points(lib, cfg, st, op)| && Points(lib, cfg, st, op)[3 * n + 2] == Point(RollOver(a), n, 0, 0)
  {
    hide DeleteMany, CountDeleted, DeletePoints, Points, RollOver, KeysOf;
    DeletePointAt(st, KeysOf(op), n);
    LoopPoint(lib, cfg, st, op, 3 * n + 2);
  }

  lemma FullRolls(b: Store, k: Key)
    requires b.Ready() && End(b.Active()) >= SEGMENT_MAX_SIZE
    ensures var a := CountDeleted(b, k); RollOver(a) == SealActive(a) && SealActive(a).saved == SealActive(a).meta
  {
    hide CountDeleted;
    CountKeeps(b, k);
  }

  lemma SavedRollFull(st: Store, op: Op, i: nat)
    requires st.Ready() && SavedRoll(st, op, i)
    ensures End(DeleteMany(st, KeysOf(op)[..i / 3]).Active()) >= SEGMENT_MAX_SIZE
  {
    hide DeleteMany, End, KeysOf;
  }

  /** The disk at that state. */
  lemma RolledPoint(lib: Lib, cfg: Config, st: Store, op: Op, i: nat)
    requires st.Ready() && SavedRoll(st, op, i)
    ensures var keys, n := KeysOf(op), i / 3;
      var a := CountDeleted(DeleteMany(st, keys[..n]), keys[n]);
      && !op.Gc? && i < |Points(lib, cfg, st, op)|
      && Points(lib, cfg, st, op)[i] == Point(SealActive(a), n, 0, 0) && SealActive(a).saved == SealActive(a).meta
  {
    hide *;
    var n := i / 3;
    SavedRollFull(st, op, i);
    RolledAt(lib, cfg, st, op, n);
    FullRolls(DeleteMany(st, KeysOf(op)[..n]), KeysOf(op)[n]);
  }

  /** The index that a reopen of `st` would give, and the one after `n` more tombstones. */
  lemma RolledIndex(st: Store, cut: map<nat, nat>, keys: seq<Key>, c: Store, k: Key)
    requires Resumable(st, cut) && Mid(st, cut, Tombstones(keys), c, |keys|, 0, 0)
    ensures Fits(c.logs, MidCut(st, cut, c.logs, 0))
    ensures Lookup(Books.ReplayedIndex(c, MidCut(st, cut, c.logs, 0)), k)
         == Lookup(Books.ReplayedIndex(st, cut) - (set d | d in keys), k)
  {
    hide Shape, Flat, Extends, InsertAll, AppendMany, AppendedRecords, MidCut, LogsGrown, Uncovered, Lookup, Tombstones;
    var es := Tombstones(keys);
    assert es[..|keys|] == es;
    var recs := AppendedRecords(st, es);
    UncoveredMid(st, cut, c, recs, 0);
    NothingJumped(st, c);
    assert recs[0..] == recs;
    assert recs[..0] == [] && InsertAll(st.index, []) == st.index by { Books.InsertNone(st.index); }
    InsertAllConcat(st.index, Uncovered(st.logs, cut, st.meta.active + 1), recs);
    TombstoneRecords(st, keys);
    HiddenRows(Books.ReplayedIndex(st, cut), recs, keys, k);
  }

  lemma NothingJumped(st: Store, c: Store)
    requires Shape(st) && LogsGrown(st.logs, st.meta.active, c.logs, c.meta.active) && st.meta.active in c.logs
    ensures Horizon(st, c.logs, 0) == st.meta.active + 1
  {
    hide Shape, LogsGrown, Flat, CutAt;
    GrownCut(st, c, st.meta.active);
    CutIs(c.logs, |st.History()|, st.meta.active);
  }

  lemma ReplayedMeans(st: Store, cut: map<nat, nat>, view: View)
    requires Inv(st, view) && Fits(st.logs, cut)
    ensures Means(st.logs, Books.ReplayedIndex(st, cut), ApplyAll(view, Behind(st.logs, cut, st.meta.active + 1)))
  {
    hide Shape, InsertAll, Uncovered, Means, Behind, PointsAt, ApplyAll;
    BehindPoints(st.logs, cut, st.meta.active + 1);
    InsertAllMeans(st.logs, st.index, view, Uncovered(st.logs, cut, st.meta.active + 1), Behind(st.logs, cut, st.meta.active + 1));
  }

  /** The logs at that state: tombstones were added, and the next segment. */
  lemma RolledLog(st: Store, keys: seq<Key>, k: Key, id: nat)
    requires Shape(st) && id in st.logs
    ensures var c := SealActive(CountDeleted(DeleteMany(st, keys), k));
      && id in c.logs && id in DeleteMany(st, keys).logs && c.logs[id] == DeleteMany(st, keys).logs[id] && st.logs[id] <= c.logs[id]
      && forall p :: p in c.logs[id][|st.logs[id]|..] ==> p.e.IsTombstone() && p.e.data == []
  {
    hide Shape, DeleteMany, CountDeleted, LogsGrown, AppendMany, Extends, Flat;
    var b := DeleteMany(st, keys);
    DeleteManyFacts(st, keys);
    TombstonesOk(keys);
    AppendManyGrows(st, Tombstones(keys));
    GrownHas(st, b, id);
    ExtraTombstones(st, keys, id);
    ShapeIds(st);
    GrownActive(st.logs, st.meta.active, b.logs, b.meta.active);
    CountKeeps(b, k);
  }

  /** Live bytes at that state after the reopen. */
  lemma RolledLive(st: Store, cut: map<nat, nat>, view: View, keys: seq<Key>, k: Key, id: nat)
    requires Resumable(st, cut) && Inv(st, view) && DistinctDeletes(DeleteKeys(keys)) && id in st.logs
    requires Mid(st, cut, Tombstones(keys), SealActive(CountDeleted(DeleteMany(st, keys), k)), |keys|, 0, 0)
    ensures var c := SealActive(CountDeleted(DeleteMany(st, keys), k));
      && Fits(c.logs, MidCut(st, cut, c.logs, 0)) && id in c.logs
      && LiveBytes(Books.ReplayedIndex(c, MidCut(st, cut, c.logs, 0)), id, c.logs[id]) + Counted(Books.ReplayedIndex(st, cut), keys, id)
      == LiveBytes(Books.ReplayedIndex(st, cut), id, st.logs[id])
  {
    hide Resumable, Shape, Means, LiveBytes, Counted, Repeated, Mid, MidCut, DeleteMany, CountDeleted, Books.ReplayedIndex, Tombstones,
      SealActive, Lookup, WellPlaced;
    var c, r := SealActive(CountDeleted(DeleteMany(st, keys), k)), Books.ReplayedIndex(st, cut);
    RolledLog(st, keys, k, id);
    RolledIndex(st, cut, keys, c, k);
    var after, was := Books.ReplayedIndex(c, MidCut(st, cut, c.logs, 0)), st.logs[id];
    assert c.logs[id] == was + c.logs[id][|was|..];
    TombstonesAreDead(after, id, was, c.logs[id][|was|..]);
    forall d ensures Lookup(after, d) == Lookup(r - (set e | e in keys), d) {
      RolledIndex(st, cut, keys, c, d);
    }
    LiveSame(after, r - (set e | e in keys), id, was);
    ReplayedMeans(st, cut, view);
    ShapeLogs(st, id);
    LiveWithout(st.logs, r, ApplyAll(view, Behind(st.logs, cut, st.meta.active + 1)), keys, id);
    NoneRepeated(r, keys, id);
  }

  /** One segment after a crash at that state and the reopen, exactly. */
  lemma RolledSegment(lib: Lib, cfg: Config, st: Store, cut: map<nat, nat>, view: View, op: Op, i: nat, tail: Bytes, id: nat)
    requires Resumable(st, cut) && Inv(st, view) && DistinctDeletes(op) && SavedRoll(st, op, i)
    requires !op.Gc? && i < |Points(lib, cfg, st, op)| && CutsOff(lib.crc, Points(lib, cfg, st, op)[i].disk, tail) && id in st.logs
    ensures var keys, n, r := KeysOf(op), i / 3, Books.ReplayedIndex(st, cut);
      var c := Points(lib, cfg, st, op)[i].disk; var s := Reopened(lib.crc, c, tail);
      && id in c.logs && s.logs == c.logs
      && s.meta.StatsOf(id).total == st.meta.StatsOf(id).total + DataBytes(st.logs[id][cut[id]..])
      && s.meta.StatsOf(id).deleted == st.meta.StatsOf(id).deleted + Counted(st.index, keys[..n + 1], id)
      && LiveBytes(s.index, id, c.logs[id]) + Counted(r, keys[..n], id) == LiveBytes(r, id, st.logs[id])
  {
    hide Resumable, Shape, Means, LiveBytes, DataBytes, Counted, Mid, MidCut, DeleteMany, CountDeleted, Books.ReplayedIndex, Tombstones,
      SealActive, CutsOff, Reopened, Points, Covered, SavedOlder, LogsGrown;
    var keys, n := KeysOf(op), i / 3;
    RolledPoint(lib, cfg, st, op, i);
    var b := DeleteMany(st, keys[..n]);
    var c := SealActive(CountDeleted(b, keys[n]));
    RolledMid(lib, cfg, st, cut, op, i);
    RolledLog(st, keys[..n], keys[n], id);
    RolledLive(st, cut, view, keys[..n], keys[n], id);
    MidFacts(st, cut, Tombstones(keys[..n]), c, n, 0, 0);
    Books.GrownMid(st, cut, Tombstones(keys[..n]), c, n, 0);
    Books.GrownFromMark(st, cut, c, id);
    Books.ReopenSegment(lib.crc, c, MidCut(st, cut, c.logs, 0), tail, id);
    RolledCounts(st, view, keys, n, id);
    BehindData(st.logs[id], c.logs[id], cut[id]);
  }

  lemma RolledMid(lib: Lib, cfg: Config, st: Store, cut: map<nat, nat>, op: Op, i: nat)
    requires Resumable(st, cut) && SavedRoll(st, op, i)
    ensures var keys, n := KeysOf(op), i / 3;
      Mid(st, cut, Tombstones(keys[..n]), SealActive(CountDeleted(DeleteMany(st, keys[..n]), keys[n])), n, 0, 0)
  {
    hide Resumable, Shape, GrownFrom, Mid, AppendMany, DeleteMany, CountDeleted, Tombstones, SealActive;
    var keys, n := KeysOf(op), i / 3;
    var es, b := Tombstones(keys[..n]), DeleteMany(st, keys[..n]);
    TombstonesOk(keys[..n]);
    DeleteManyFacts(st, keys[..n]);
    DeleteManyGrown(st, keys[..n]);
    CountGrown(st, b, keys[n]);
    CountDeletedShape(b, keys[n]);
    CountKeeps(b, keys[n]);
    assert es[..n] == es;
    RollIsMid(st, cut, es, CountDeleted(b, keys[n]), n, 1);
  }

  lemma RolledCounts(st: Store, view: View, keys: seq<Key>, n: nat, id: nat)
    requires Inv(st, view) && n < |keys| && id in DeleteMany(st, keys[..n]).logs
    ensures var a := CountDeleted(DeleteMany(st, keys[..n]), keys[n]);
      && a.Ready()
      && SealActive(a).meta.StatsOf(id).total == st.meta.StatsOf(id).total
      && SealActive(a).meta.StatsOf(id).deleted == st.meta.StatsOf(id).deleted + Counted(st.index, keys[..n + 1], id)
  {
    hide Inv, DeleteMany, CountDeleted, Counted, SealActive;
    NextCounts(st, view, keys, n);
    DeletedTotal(st, view, keys[..n], id);
    CountedTotals(DeleteMany(st, keys[..n]), keys[n]);
    SealTotalsOnly(CountDeleted(DeleteMany(st, keys[..n]), keys[n]));
  }

  lemma BehindData(a: Log, b: Log, i: nat)
    requires i <= |a| && a <= b && forall p :: p in b[|a|..] ==> p.e.IsTombstone() && p.e.data == []
    ensures DataBytes(b[i..]) == DataBytes(a[i..])
  {
    hide DataBytes, LiveBytes;
    assert b[i..] == a[i..] + b[|a|..];
    DataBytesConcat(a[i..], b[|a|..]);
    TombstonesAreDead(map[], 0, [], b[|a|..]);
  }

  // ----------------------------------------------------------------------------- the theorem

  /** With one more key counted than tombstones replayed, live and deleted bytes of the segment exceed its total. */
  ghost predicate Exceeds(st: Store, cut: map<nat, nat>, keys: seq<Key>, n: nat, id: nat)
    requires Fits(st.logs, cut) && n < |keys| && id in st.logs
  {
    var r := Books.ReplayedIndex(st, cut);
    LiveBytes(r, id, st.logs[id]) + st.meta.StatsOf(id).deleted + Counted(st.index, keys[..n + 1], id)
    > st.meta.StatsOf(id).total + DataBytes(st.logs[id][cut[id]..]) + Counted(r, keys[..n], id)
  }

  /** The crash counts a key as deleted that is still live, beyond what its segment can take. */
  ghost predicate Overcounts(st: Store, cut: map<nat, nat>, op: Op, i: nat)
    requires Shape(st) && Fits(st.logs, cut)
  {
    SavedRoll(st, op, i) && exists id :: id in st.logs && Exceeds(st, cut, KeysOf(op), i / 3, id)
  }

  lemma RolledCovers(lib: Lib, cfg: Config, st: Store, cut: map<nat, nat>, view: View, op: Op, i: nat, tail: Bytes)
    requires Resumable(st, cut) && Inv(st, view) && DistinctDeletes(op) && SavedRoll(st, op, i)
    requires !op.Gc? && i < |Points(lib, cfg, st, op)| && CutsOff(lib.crc, Points(lib, cfg, st, op)[i].disk, tail)
    ensures var s := Reopened(lib.crc, Points(lib, cfg, st, op)[i].disk, tail);
      Covers(s.logs, s.index, s.meta) <==> !Overcounts(st, cut, op, i)
  {
    hide Resumable, Shape, Means, LiveBytes, DataBytes, Counted, Books.ReplayedIndex, CutsOff, Reopened, Points, SavedRoll, DistinctDeletes;
    var c := Points(lib, cfg, st, op)[i].disk;
    var s := Reopened(lib.crc, c, tail);
    RolledNew(lib, cfg, st, cut, view, op, i, tail);
    forall id | id in st.logs
      ensures id in s.logs
      ensures LiveBytes(s.index, id, s.logs[id]) + s.meta.StatsOf(id).deleted <= s.meta.StatsOf(id).total
         <==> !Exceeds(st, cut, KeysOf(op), i / 3, id)
    {
      RolledSegment(lib, cfg, st, cut, view, op, i, tail, id);
    }
  }

  /** Segments that the write itself created hold nothing live. */
  lemma RolledNew(lib: Lib, cfg: Config, st: Store, cut: map<nat, nat>, view: View, op: Op, i: nat, tail: Bytes)
    requires Resumable(st, cut) && Inv(st, view) && SavedRoll(st, op, i)
    requires !op.Gc? && i < |Points(lib, cfg, st, op)| && CutsOff(lib.crc, Points(lib, cfg, st, op)[i].disk, tail)
    ensures var s := Reopened(lib.crc, Points(lib, cfg, st, op)[i].disk, tail);
      forall id :: id in s.logs && id !in st.logs ==>
        LiveBytes(s.index, id, s.logs[id]) + s.meta.StatsOf(id).deleted <= s.meta.StatsOf(id).total
  {
    hide Resumable, Shape, Means, LiveBytes, DataBytes, Counted, Books.ReplayedIndex, CutsOff, Reopened, Points, SavedRoll, Mid, MidCut,
      DeleteMany, CountDeleted, Tombstones, SealActive, Covered, SavedOlder, LogsGrown, Counts, Live;
    var keys, n := KeysOf(op), i / 3;
    RolledPoint(lib, cfg, st, op, i);
    var a := CountDeleted(DeleteMany(st, keys[..n]), keys[n]);
    var c := SealActive(a);
    RolledMid(lib, cfg, st, cut, op, i);
    MidFacts(st, cut, Tombstones(keys[..n]), c, n, 0, 0);
    Books.GrownMid(st, cut, Tombstones(keys[..n]), c, n, 0);
    NextCounts(st, view, keys, n);
    RollCounts(st, a, keys[..n + 1]);
    ResumableShape(st, cut);
    var mid := MidCut(st, cut, c.logs, 0);
    forall id | id in c.logs && id !in st.logs
      ensures var s := Reopened(lib.crc, c, tail);
        s.logs == c.logs && LiveBytes(s.index, id, c.logs[id]) + s.meta.StatsOf(id).deleted <= s.meta.StatsOf(id).total
    {
      Books.GrownFromMark(st, cut, c, id);
      NewSegmentEmpty(st, view, c.saved, keys, n + 1, id);
      LiveNone(c.index, id);
      assert c.logs[id][..0] == [];
      Books.ReopenSegment(lib.crc, c, mid, tail, id);
      Books.PrefixCovers(lib.crc, c, mid, tail, id, c.index);
    }
    if c.logs.Keys <= st.logs.Keys {
      Books.ReopenedLogs(lib.crc, c, mid, tail);
    }
  }

  lemma SettledCovers(lib: Lib, cfg: Config, st: Store, cut: map<nat, nat>, view: View, op: Op, i: nat, tail: Bytes, id: nat)
    requires Resumable(st, cut) && Inv(st, view) && Covers(st.logs, st.index, st.meta) && SavedCovers(st, cut)
    requires !op.Gc? && DistinctDeletes(op) && i < |Points(lib, cfg, st, op)| && !SavedRoll(st, op, i)
    requires CutsOff(lib.crc, Points(lib, cfg, st, op)[i].disk, tail) && id in Points(lib, cfg, st, op)[i].disk.logs
    ensures var c := Points(lib, cfg, st, op)[i].disk; var s := Reopened(lib.crc, c, tail);
      s.logs == c.logs && LiveBytes(s.index, id, c.logs[id]) + s.meta.StatsOf(id).deleted <= s.meta.StatsOf(id).total
  {
    hide Resumable, Shape, Means, Covers, SavedCovers, LiveBytes, Mid, CutsOff, SavedAs, Reopened, DistinctDeletes, MidCut, EntryOk, Points,
      Covered, SavedRoll, Writes, SavedOlder, KeysOf;
    var p, es, keys := Points(lib, cfg, st, op)[i], Writes(lib, cfg, op), KeysOf(op);
    var mid := MidCut(st, cut, p.disk.logs, p.marked);
    PointsAreMid(lib, cfg, st, cut, op, i);
    MidFacts(st, cut, es, p.disk, p.written, p.indexed, p.marked);
    Books.ReopenedLogs(lib.crc, p.disk, mid, tail);
    PointsSettled(lib, cfg, st, view, op, i);
    if p.marked == 0 {
      var n :| 0 <= n <= p.written && SavedAs(st, p.disk.saved, keys, n);
      WritesOk(lib, cfg, op);
      var m := CountedKeys(lib, cfg, st, op, p.disk.saved, n);
      UnmarkedCovers(lib.crc, st, cut, view, es, keys, p.disk, p.written, p.indexed, m, tail, id);
    } else {
      MarkedCovers(lib.crc, p.disk, mid, tail, id);
    }
  }

  /** The keys that the metadata counts are those of the first tombstones. */
  lemma CountedKeys(lib: Lib, cfg: Config, st: Store, op: Op, saved: Meta, n: nat) returns (m: nat)
    requires SavedAs(st, saved, KeysOf(op), n) && DistinctDeletes(op)
    ensures m <= n && m <= |KeysOf(op)| <= |Writes(lib, cfg, op)| && SavedAs(st, saved, KeysOf(op), m)
    ensures (forall i :: 0 <= i < m ==> Writes(lib, cfg, op)[i].key == KeysOf(op)[i]) && DistinctDeletes(DeleteKeys(KeysOf(op)))
  {
    hide Counts, Pack, Accepted;
    m := if n <= |KeysOf(op)| then n else 0;
  }

  /**
   * A crash at any disk state of any write with distinct deletes, from any store with boundary watermarks and
   * covered counts: after the reopen live and deleted bytes are within the total of every segment if and only
   * if the crash is not just after the saved roll-over of a delete whose count, ahead of its tombstone, exceeds
   * what a segment can take.
   */
  lemma CrashCovers(lib: Lib, cfg: Config, st: Store, cut: map<nat, nat>, view: View, op: Op, i: nat, tail: Bytes)
    requires Resumable(st, cut) && Inv(st, view) && Covers(st.logs, st.index, st.meta) && SavedCovers(st, cut)
    requires !op.Gc? && DistinctDeletes(op) && i < |Points(lib, cfg, st, op)|
    requires CutsOff(lib.crc, Points(lib, cfg, st, op)[i].disk, tail)
    ensures var s := Reopened(lib.crc, Points(lib, cfg, st, op)[i].disk, tail);
      Covers(s.logs, s.index, s.meta) <==> !Overcounts(st, cut, op, i)
  {
    hide Resumable, Inv, SavedCovers, LiveBytes, CutsOff, Reopened, DistinctDeletes, Points, SavedRoll, Exceeds;
    if SavedRoll(st, op, i) {
      RolledCovers(lib, cfg, st, cut, view, op, i, tail);
    } else {
      var c := Points(lib, cfg, st, op)[i].disk;
      var s := Reopened(lib.crc, c, tail);
      PointsAreMid(lib, cfg, st, cut, op, i);
      PointLogs(lib, cfg, st, cut, op, i, tail);
      forall id | id in s.logs
        ensures LiveBytes(s.index, id, s.logs[id]) + s.meta.StatsOf(id).deleted <= s.meta.StatsOf(id).total
      {
        SettledCovers(lib, cfg, st, cut, view, op, i, tail, id);
      }
    }
  }

  lemma PointLogs(lib: Lib, cfg: Config, st: Store, cut: map<nat, nat>, op: Op, i: nat, tail: Bytes)
    requires Resumable(st, cut) && !op.Gc? && i < |Points(lib, cfg, st, op)|
    requires CutsOff(lib.crc, Points(lib, cfg, st, op)[i].disk, tail)
    ensures var c := Points(lib, cfg, st, op)[i].disk; var s := Reopened(lib.crc, c, tail);
      s.logs == c.logs && s.saved == s.meta
  {
    hide Resumable, Shape, Mid, CutsOff, Reopened, MidCut, Points, Covered, Writes, SavedOlder;
    var p, es := Points(lib, cfg, st, op)[i], Writes(lib, cfg, op);
    PointsAreMid(lib, cfg, st, cut, op, i);
    MidFacts(st, cut, es, p.disk, p.written, p.indexed, p.marked);
    Books.ReopenedLogs(lib.crc, p.disk, MidCut(st, cut, p.disk.logs, p.marked), tail);
  }

  // ------------------------------------------------------------------------------- at rest

  /** Counted as deleted while it is live, the key does not fit the slack of the segment. */
  predicate Outgrows(st: Store, k: Key, id: nat)
    requires id in st.logs
  {
    LiveBytes(st.index, id, st.logs[id]) + st.meta.StatsOf(id).deleted + RowBytes(st.index, k, id) > st.meta.StatsOf(id).total
  }

  lemma ExceedsAtRest(st: Store, keys: seq<Key>, n: nat, id: nat)
    requires n < |keys| && id in st.logs
    ensures Exceeds(st, FullCut(st.logs), keys, n, id) <==> Outgrows(st, keys[n], id)
  {
    hide LiveBytes, DataBytes, Uncovered, FullCut, InsertAll, RowBytes;
    Books.FullUncovered(st.logs, st.meta.active + 1);
    Books.InsertNone(st.index);
    Books.FullAt(st.logs, id);
    NoData();
    assert keys[..n + 1][..n] == keys[..n];
  }

  lemma CoversSaved(st: Store, cut: map<nat, nat>)
    requires Fits(st.logs, cut) && Covers(st.logs, st.index, st.saved)
    ensures SavedCovers(st, cut)
  {
    hide LiveBytes;
    forall id | id in st.logs
      ensures LiveBytes(st.index, id, st.logs[id][..cut[id]]) <= LiveBytes(st.index, id, st.logs[id])
    {
      var log, i := st.logs[id], cut[id];
      assert log == log[..i] + log[i..];
      Books.LiveGrows(st.index, id, log[..i], log[i..]);
    }
  }

  /**
   * From a store at rest: every crash of every write keeps live and deleted bytes within the total, unless a
   * roll-over has saved the count of a live key whose tombstone is not written and whose size is more than the
   * slack of its segment.
   */
  lemma CrashCoversAtRest(lib: Lib, cfg: Config, st: Store, view: View, op: Op, i: nat, tail: Bytes)
    requires Resumable(st, FullCut(st.logs)) && Inv(st, view) && Covers(st.logs, st.index, st.meta) && st.saved == st.meta
    requires !op.Gc? && DistinctDeletes(op) && i < |Points(lib, cfg, st, op)|
    requires CutsOff(lib.crc, Points(lib, cfg, st, op)[i].disk, tail)
    ensures var s := Reopened(lib.crc, Points(lib, cfg, st, op)[i].disk, tail);
      Covers(s.logs, s.index, s.meta) <==>
        !(SavedRoll(st, op, i) && exists id :: id in st.logs && Outgrows(st, KeysOf(op)[i / 3], id))
  {
    hide Resumable, Inv, Covers, SavedCovers, LiveBytes, CutsOff, Reopened, DistinctDeletes, Points, SavedRoll, Exceeds, Outgrows, FullCut;
    CoversSaved(st, FullCut(st.logs));
    CrashCovers(lib, cfg, st, FullCut(st.logs), view, op, i, tail);
    if SavedRoll(st, op, i) {
      forall id | id in st.logs
        ensures Exceeds(st, FullCut(st.logs), KeysOf(op), i / 3, id) <==> Outgrows(st, KeysOf(op)[i / 3], id)
      {
        ExceedsAtRest(st, KeysOf(op), i / 3, id);
      }
    }
  }
}
