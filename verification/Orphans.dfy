/**
 * The file of an emptied segment that outlives a crash of its collection: it is found again, and never collected
 * (engine.rs, recovery.rs).
 */
module Orphans {
  import opened Words
  import opened Compression
  import opened Segment
  import opened SegmentLog
  import opened Index
  import opened BlobStore
  import opened StoreWrites
  import opened Gc
  import opened Runs
  import opened Recovery
  import opened Crash
  import opened Reopening
  import opened BatchMarks
  import opened CrashPoints
  import opened CrashReads
  import opened Restarts
  import opened Lives
  import opened GcCrash
  import Books

  // ---------------------------------------------------------------- a segment without data

  /** Nothing is counted, so the ratio is 0 whatever is deleted. */
  ghost predicate Uncounted(m: Meta, id: nat) {
    m.StatsOf(id).total == 0 && m.StatsOf(id).ratio == 0.0
  }

  /** A sealed segment with no data in its file and none in its statistics, in memory or on disk. */
  ghost predicate Barren(s: Store, id: nat, log: Log) {
    && id in s.logs && s.logs[id] == log && DataBytes(log) == 0 && id < s.meta.active
    && Uncounted(s.meta, id) && Uncounted(s.saved, id)
  }

  lemma NotEligible(cfg: Config, s: Store, id: nat, log: Log)
    requires cfg.Valid() && Barren(s, id, log)
    ensures id in s.meta.segments ==> !Eligible(cfg.gcRatio, s.meta.segments[id])
  {
  }

  // ----------------------------------------------------------------- what every write keeps

  lemma SealBarren(s: Store, id: nat, log: Log)
    requires Shape(s) && Barren(s, id, log)
    ensures Barren(SealActive(s), id, log) && Barren(SealActive(s).(saved := s.saved), id, log)
  {
    hide Shape, DataBytes;
  }

  lemma AppendBarren(s: Store, e: Entry, id: nat, log: Log)
    requires Shape(s) && Barren(s, id, log)
    ensures Barren(AppendEntry(s, e), id, log)
  {
    hide Shape, DataBytes, SealActive;
    SealBarren(s, id, log);
  }

  /** A key of the segment that is deleted is counted, and the ratio stays 0. */
  lemma CountBarren(s: Store, k: Key, id: nat, log: Log)
    requires Barren(s, id, log)
    ensures Barren(CountDeleted(s, k), id, log)
  {
    hide DataBytes;
  }

  lemma {:induction false} MarksBarren(s: Store, recs: seq<IndexRecord>, id: nat, log: Log)
    requires Barren(s, id, log)
    ensures Barren(MarkAll(s, recs), id, log)
  {
    hide DataBytes;
    if recs != [] {
      MarksBarren(s, recs[..|recs| - 1], id, log);
    }
  }

  lemma IndexedBarren(s: Store, index: IndexMap, id: nat, log: Log)
    requires Barren(s, id, log)
    ensures Barren(s.(index := index), id, log) && Barren(s.(index := index, saved := s.meta), id, log)
  {
  }

  lemma {:induction false} AppendsBarren(s: Store, es: seq<Entry>, id: nat, log: Log)
    requires Shape(s) && (forall i :: 0 <= i < |es| ==> EntryOk(es[i])) && Barren(s, id, log)
    ensures Shape(AppendMany(s, es)) && Barren(AppendMany(s, es), id, log)
  {
    hide Shape, EntryOk, Barren, AppendEntry;
    if es != [] {
      var n := |es| - 1;
      AppendsBarren(s, es[..n], id, log);
      AppendBarren(AppendMany(s, es[..n]), es[n], id, log);
      AppendShape(AppendMany(s, es[..n]), es[n]);
    }
  }

  lemma {:induction false} DeletesBarren(s: Store, keys: seq<Key>, id: nat, log: Log)
    requires Shape(s) && Barren(s, id, log)
    ensures Shape(DeleteMany(s, keys)) && Barren(DeleteMany(s, keys), id, log)
  {
    hide Shape, Barren, AppendEntry, CountDeleted;
    if keys != [] {
      var n := |keys| - 1;
      DeletesBarren(s, keys[..n], id, log);
      NextBarren(DeleteMany(s, keys[..n]), keys[n], id, log);
      TombstoneOk(keys[n]);
      AppendBarren(CountDeleted(DeleteMany(s, keys[..n]), keys[n]), Tombstone(keys[n]), id, log);
      AppendShape(CountDeleted(DeleteMany(s, keys[..n]), keys[n]), Tombstone(keys[n]));
    }
  }

  lemma NextBarren(s: Store, k: Key, id: nat, log: Log)
    requires Shape(s) && Barren(s, id, log)
    ensures Shape(CountDeleted(s, k)) && Barren(CountDeleted(s, k), id, log)
  {
    hide Shape, Barren, CountDeleted;
    CountDeletedShape(s, k);
    CountBarren(s, k, id, log);
  }

  lemma CommitBarren(s: Store, recs: seq<IndexRecord>, id: nat, log: Log)
    requires Barren(s, id, log)
    ensures Barren(CommitBatch(s, recs), id, log)
  {
    hide Barren, InsertAll, MarkAll;
    IndexedBarren(s, InsertAll(s.index, recs), id, log);
    MarksBarren(s.(index := InsertAll(s.index, recs), saved := s.meta), recs, id, log);
  }

  lemma WriteBarren(s: Store, e: Entry, id: nat, log: Log)
    requires Shape(s) && Barren(s, id, log)
    ensures Barren(WriteOne(s, e), id, log)
  {
    hide Shape, Barren, AppendEntry, Mark, Appended;
    AppendBarren(s, e, id, log);
    var a := AppendEntry(s, e);
    var d := a.(index := a.index[e.key := Appended(a)]);
    IndexedBarren(a, d.index, id, log);
    assert [Appended(a)][..0] == [];
    assert MarkAll(d, [Appended(a)]) == Mark(MarkAll(d, []), Appended(a));
    MarksBarren(d, [Appended(a)], id, log);
  }

  /** A collection does not pick the segment, and touches no other than the one it picks. */
  lemma CollectBarren(cfg: Config, s: Store, id: nat, log: Log)
    requires cfg.Valid() && Shape(s) && Barren(s, id, log)
    ensures Barren(Collect(cfg, s), id, log)
  {
    hide Shape, DataBytes, InsertAll, Compact, DeletedKeys, Candidate;
    NotEligible(cfg, s, id, log);
  }

  /** Every operation, collections anywhere included. */
  lemma StepBarren(lib: Lib, cfg: Config, s: Store, op: Op, id: nat, log: Log)
    requires cfg.Valid() && Shape(s) && Barren(s, id, log)
    ensures Barren(Step(lib, cfg, s, op), id, log)
  {
    hide Shape, Barren, Pack, WriteOne, CommitBatch, AppendMany, AppendedRecords, DeleteMany, Collect, CountDeleted, SealActive, EntryOk;
    match op
    case Put(item) => if |item.value| <= MAX_VALUE_SIZE { WriteBarren(s, Pack(lib, cfg, item.key, item.value, item.codec), id, log); }
    case Delete(k) =>
      NextBarren(s, k, id, log);
      WriteBarren(CountDeleted(s, k), Tombstone(k), id, log);
    case PutBatch(items) =>
      var es := PackAll(lib, cfg, items[..Accepted(items)]);
      AppendsBarren(s, es, id, log);
      CommitBarren(AppendMany(s, es), AppendedRecords(s, es), id, log);
    case DeleteKeys(keys) =>
      DeletesBarren(s, keys, id, log);
      CommitBarren(DeleteMany(s, keys), AppendedRecords(s, Tombstones(keys)), id, log);
    case Seal => SealBarren(s, id, log);
    case Flush => IndexedBarren(s, s.index, id, log);
    case Gc => CollectBarren(cfg, s, id, log);
  }

  // --------------------------------------------------------------------- every disk state

  lemma RollBarren(a: Store, n: nat, i: nat, id: nat, log: Log)
    requires Shape(a) && Barren(a, id, log) && i < 2
    ensures Barren(RollPoints(a, n)[i].disk, id, log)
  {
    hide Shape, Barren, SealActive;
    SealBarren(a, id, log);
    assert a.(saved := a.saved) == a;
  }

  lemma {:induction false} AppendPointBarren(s: Store, es: seq<Entry>, i: nat, id: nat, log: Log)
    requires Shape(s) && (forall n :: 0 <= n < |es| ==> EntryOk(es[n])) && Barren(s, id, log) && i < |AppendPoints(s, es)|
    ensures Barren(AppendPoints(s, es)[i].disk, id, log)
  {
    hide Shape, Barren, EntryOk, AppendMany, RollOver;
    if es != [] {
      var n := |es| - 1;
      var before := AppendPoints(s, es[..n]);
      AppendsBarren(s, es[..n], id, log);
      AppendsBarren(s, es, id, log);
      if i < |before| {
        AppendPointBarren(s, es[..n], i, id, log);
      } else if i < |before| + 2 {
        RollBarren(AppendMany(s, es[..n]), n, i - |before|, id, log);
      }
    }
  }

  lemma {:induction false} DeletePointBarren(s: Store, keys: seq<Key>, i: nat, id: nat, log: Log)
    requires Shape(s) && Barren(s, id, log) && i < |DeletePoints(s, keys)|
    ensures Barren(DeletePoints(s, keys)[i].disk, id, log)
  {
    hide Shape, Barren, DeleteMany, RollOver, CountDeleted;
    if keys != [] {
      var n := |keys| - 1;
      var before := DeletePoints(s, keys[..n]);
      DeletesBarren(s, keys[..n], id, log);
      DeletesBarren(s, keys, id, log);
      NextBarren(DeleteMany(s, keys[..n]), keys[n], id, log);
      if i < |before| {
        DeletePointBarren(s, keys[..n], i, id, log);
      } else if i < |before| + 2 {
        RollBarren(CountDeleted(DeleteMany(s, keys[..n]), keys[n]), n, i - |before|, id, log);
      }
    }
  }

  lemma OneBarren(a: Store, r: IndexRecord, i: nat, id: nat, log: Log)
    requires Barren(a, id, log) && i < 2
    ensures Barren(OnePoints(a, r)[i].disk, id, log)
  {
    hide Barren, InsertAll, Mark;
    var d := Indexed(a, [r]);
    IndexedBarren(a, d.index, id, log);
    assert [r][..0] == [] && MarkAll(d, [r]) == Mark(MarkAll(d, []), r);
    MarksBarren(d, [r], id, log);
  }

  lemma CommitPointBarren(a: Store, recs: seq<IndexRecord>, marks: seq<IndexRecord>, upTo: nat -> nat, i: nat, id: nat, log: Log)
    requires Barren(a, id, log) && i < |CommitPoints(a, recs, marks, upTo)|
    ensures Barren(CommitPoints(a, recs, marks, upTo)[i].disk, id, log)
  {
    hide Barren, InsertAll, MarkAll;
    var d := Indexed(a.(saved := a.meta), recs);
    IndexedBarren(a, a.index, id, log);
    IndexedBarren(a, d.index, id, log);
    if i >= 2 {
      MarksBarren(d, marks[..i - 1], id, log);
    }
  }

  lemma PutPointBarren(lib: Lib, cfg: Config, s: Store, op: Op, i: nat, id: nat, log: Log)
    requires Shape(s) && Barren(s, id, log) && (op.Put? || op.PutBatch?) && i < |Points(lib, cfg, s, op)|
    ensures Barren(Points(lib, cfg, s, op)[i].disk, id, log)
  {
    hide Shape, Barren, AppendPoints, OnePoints, CommitPoints, AppendMany, Writes, AppendedRecords, HighestEnds, Accepted, EntryOk;
    var es := Writes(lib, cfg, op);
    WritesOk(lib, cfg, op);
    var before, a := AppendPoints(s, es), AppendMany(s, es);
    AppendsBarren(s, es, id, log);
    if i < |before| {
      AppendPointBarren(s, es, i, id, log);
    } else if op.Put? {
      OnePointsLength(a, Appended(a));
      OneBarren(a, Appended(a), i - |before|, id, log);
    } else {
      var recs := AppendedRecords(s, es);
      CommitPointBarren(a, recs, HighestEnds(recs), n => MarkedBy(recs, n), i - |before|, id, log);
    }
  }

  lemma DeleteOpBarren(lib: Lib, cfg: Config, s: Store, op: Op, i: nat, id: nat, log: Log)
    requires Shape(s) && Barren(s, id, log) && (op.Delete? || op.DeleteKeys?) && i < |Points(lib, cfg, s, op)|
    ensures Barren(Points(lib, cfg, s, op)[i].disk, id, log)
  {
    hide Shape, Barren, DeletePoints, OnePoints, CommitPoints, DeleteMany, Writes, AppendedRecords, Tombstones;
    var es, keys := Writes(lib, cfg, op), if op.Delete? then [op.key] else op.keys;
    WritesOne(lib, cfg, op);
    var before, a, recs := DeletePoints(s, keys), DeleteMany(s, keys), AppendedRecords(s, es);
    DeletesBarren(s, keys, id, log);
    if i < |before| {
      DeletePointBarren(s, keys, i, id, log);
    } else if op.Delete? {
      OnePointsLength(a, recs[0]);
      OneBarren(a, recs[0], i - |before|, id, log);
    } else {
      CommitPointBarren(a, recs, recs, n => n, i - |before|, id, log);
    }
  }

  lemma PointBarren(lib: Lib, cfg: Config, s: Store, op: Op, i: nat, id: nat, log: Log)
    requires Shape(s) && Barren(s, id, log) && !op.Gc? && i < |Points(lib, cfg, s, op)|
    ensures Barren(Points(lib, cfg, s, op)[i].disk, id, log)
  {
    hide Shape, Barren;
    match op
    case Put(_) => PutPointBarren(lib, cfg, s, op, i, id, log);
    case PutBatch(_) => PutPointBarren(lib, cfg, s, op, i, id, log);
    case Delete(_) => DeleteOpBarren(lib, cfg, s, op, i, id, log);
    case DeleteKeys(_) => DeleteOpBarren(lib, cfg, s, op, i, id, log);
    case Seal => hide SealActive; SealBarren(s, id, log);
    case Flush => IndexedBarren(s, s.index, id, log);
  }

  // --------------------------------------------------------------------------- a reopen

  lemma NoDataBehind(log: Log, i: nat)
    requires DataBytes(log) == 0 && i <= |log|
    ensures DataBytes(log[i..]) == 0
  {
    hide DataBytes;
    Books.DataSplit(log, i);
  }

  lemma ReopenBarren(crc: Crc, c: Store, cut: map<nat, nat>, tail: Bytes, id: nat, log: Log)
    requires SavedOlder(c) && Covered(c.logs, c.saved, cut) && CutsOff(crc, c, tail) && Barren(c, id, log)
    ensures Barren(Reopened(crc, c, tail), id, log)
  {
    hide DataBytes, CutsOff, Reopened, ReopensAs, InsertAll, Uncovered, Books.ReplayedIndex;
    Books.ReopenSegment(crc, c, cut, tail, id);
    Books.ReopenCounts(crc, c, cut, tail, id);
    ReopenExact(crc, c, cut, tail);
    NoDataBehind(log, cut[id]);
  }

  /** A crash at any disk state of an operation, and the reopen. */
  lemma CrashBarren(lib: Lib, cfg: Config, s: Store, ev: Event, id: nat, log: Log)
    requires Marked(s) && ev.Crash? && Possible(lib, cfg, s, ev) && Barren(s, id, log)
    ensures Barren(After(lib, cfg, s, ev), id, log)
  {
    hide Shape, Resumable, Mid, CutsOff, Points, Reopened, Writes, Barren, MidCut, Covered, SavedOlder;
    var p, cut := Points(lib, cfg, s, ev.op)[ev.point], CutOf(s);
    PointBarren(lib, cfg, s, ev.op, ev.point, id, log);
    PointsAreMid(lib, cfg, s, cut, ev.op, ev.point);
    MidFacts(s, cut, Writes(lib, cfg, ev.op), p.disk, p.written, p.indexed, p.marked);
    ReopenBarren(lib.crc, p.disk, MidCut(s, cut, p.disk.logs, p.marked), ev.tail, id, log);
  }

  // ------------------------------------------------------------------------- the orphan

  /** An operation of any kind, or a crash from boundary watermarks and the reopen. */
  ghost predicate Happens(lib: Lib, cfg: Config, s: Store, ev: Event, t: Store) {
    && Shape(s)
    && match ev
       case Do(op) => t == Step(lib, cfg, s, op)
       case Crash(_, _, _) => Marked(s) && Possible(lib, cfg, s, ev) && t == After(lib, cfg, s, ev)
  }

  lemma ForgottenFacts(cfg: Config, st: Store, view: View)
    requires Synced(st) && Inv(st, view) && Prepare(cfg, st).Some? && DataBytes(Prepare(cfg, st).value.log) == 0
    ensures var p := Prepare(cfg, st).value; var c := Forgotten(st, p);
      && Shape(c) && SavedOlder(c) && p.seg in c.logs && c.logs[p.seg] == p.log && p.seg in st.logs
      && p.seg !in c.saved.segments && p.seg < c.meta.active
  {
    hide Prepare, Shape, Means, InsertAll, DataBytes, Synced, PhasePoints, Collect, Compact, LogOk;
    var p := Prepare(cfg, st).value;
    ForgottenPoint(st, p);
    PointShape(cfg, st, view, Forgotten(st, p));
    CollectedDisk(cfg, st, view);
    ShapeIds(st);
  }

  /** The crash left the file and took the segment out of the saved metadata. */
  lemma ForgottenReopens(crc: Crc, cfg: Config, st: Store, view: View)
    requires Resumable(st, FullCut(st.logs)) && Inv(st, view) && Prepare(cfg, st).Some?
    requires DataBytes(Prepare(cfg, st).value.log) == 0
    ensures var p := Prepare(cfg, st).value; var c := Forgotten(st, p);
      Shape(c) && Barren(Reopened(crc, c, []), p.seg, p.log)
  {
    hide *;
    var p := Prepare(cfg, st).value;
    var c := Forgotten(st, p);
    ForgottenFacts(cfg, st, view);
    ForgottenMarks(st, p, c);
    NoTail(crc, c);
    ForgottenBarren(crc, c, FullCut(c.logs)[p.seg := 0], p);
  }

  lemma ForgottenPoint(st: Store, p: Prep)
    requires DataBytes(p.log) == 0
    ensures Forgotten(st, p) in PhasePoints(st, p)
  {
    hide DataBytes, InsertAll;
    var points := PhasePoints(st, p);
    assert points[3] == Forgotten(st, p);
  }

  lemma ForgottenMarks(st: Store, p: Prep, c: Store)
    requires Resumable(st, FullCut(st.logs)) && p.seg in st.logs && c == Forgotten(st, p)
    ensures Covered(c.logs, c.saved, FullCut(c.logs)[p.seg := 0])
  {
    hide Shape, InsertAll;
    var cut := FullCut(c.logs)[p.seg := 0];
    forall id | id in c.logs
      ensures cut[id] <= |c.logs[id]| && c.saved.StatsOf(id).indexed == End(c.logs[id][..cut[id]])
    {
      if id != p.seg {
        assert c.logs[id] == st.logs[id] && st.logs[id][..|st.logs[id]|] == st.logs[id];
      }
    }
  }

  lemma ForgottenBarren(crc: Crc, c: Store, cut: map<nat, nat>, p: Prep)
    requires SavedOlder(c) && Covered(c.logs, c.saved, cut) && CutsOff(crc, c, []) && p.seg in c.logs && c.logs[p.seg] == p.log
    requires p.seg !in c.saved.segments && DataBytes(p.log) == 0 && p.seg < c.meta.active
    ensures Barren(Reopened(crc, c, []), p.seg, p.log)
  {
    hide DataBytes, CutsOff, Reopened, ReopensAs, InsertAll, Uncovered, Books.ReplayedIndex;
    Books.ReopenSegment(crc, c, cut, [], p.seg);
    Books.ReopenCounts(crc, c, cut, [], p.seg);
    ReopenExact(crc, c, cut, []);
    NoDataBehind(p.log, cut[p.seg]);
  }

  /**
   * The process dies after the metadata of an emptied segment is saved and before its file is removed. However
   * the store is used afterwards, with any operations, deletes, collections, crashes and restarts: the file stays
   * as it is, and no collection ever picks it.
   */
  lemma {:induction false} OrphanStays(lib: Lib, cfg: Config, st: Store, view: View, states: seq<Store>, evs: seq<Event>, n: nat)
    requires cfg.Valid() && Resumable(st, FullCut(st.logs)) && Inv(st, view) && Prepare(cfg, st).Some?
    requires DataBytes(Prepare(cfg, st).value.log) == 0
    requires |states| == |evs| + 1 && n < |states|
    requires Shape(Forgotten(st, Prepare(cfg, st).value))
      && states[0] == Reopened(lib.crc, Forgotten(st, Prepare(cfg, st).value), [])
    requires forall i :: 0 <= i < |evs| ==> Happens(lib, cfg, states[i], evs[i], states[i + 1])
    ensures var p, s := Prepare(cfg, st).value, states[n];
      && Barren(s, p.seg, p.log) && p.seg in s.logs && s.logs[p.seg] == p.log
      && (p.seg in s.meta.segments ==> !Eligible(cfg.gcRatio, s.meta.segments[p.seg]))
      && (Prepare(cfg, s).Some? ==> Prepare(cfg, s).value.seg != p.seg)
  {
    hide Prepare, Inv, Resumable, Happens, Barren, DataBytes, Forgotten, Reopened, Eligible;
    var p := Prepare(cfg, st).value;
    if n == 0 {
      ForgottenReopens(lib.crc, cfg, st, view);
    } else {
      OrphanStays(lib, cfg, st, view, states, evs, n - 1);
      HappensBarren(lib, cfg, states[n - 1], evs[n - 1], states[n], p.seg, p.log);
    }
    NotEligible(cfg, states[n], p.seg, p.log);
    BarrenFile(states[n], p.seg, p.log);
  }

  lemma BarrenFile(s: Store, id: nat, log: Log)
    requires Barren(s, id, log)
    ensures id in s.logs && s.logs[id] == log
  {
  }

  lemma HappensBarren(lib: Lib, cfg: Config, s: Store, ev: Event, t: Store, id: nat, log: Log)
    requires cfg.Valid() && Happens(lib, cfg, s, ev, t) && Barren(s, id, log)
    ensures Barren(t, id, log)
  {
    hide Shape, Step, Possible, After, Barren, Marked;
    match ev
    case Do(op) => StepBarren(lib, cfg, s, op, id, log);
    case Crash(_, _, _) => CrashBarren(lib, cfg, s, ev, id, log);
  }
}
