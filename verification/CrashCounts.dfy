/** What the metadata on disk counts at every disk state of every write (engine.rs). */
module CrashCounts {
  import opened Compression
  import opened Segment
  import opened SegmentLog
  import opened Index
  import opened BlobStore
  import opened StoreWrites
  import opened Gc
  import opened Runs
  import opened Accounting
  import opened GcProgress
  import opened Recovery
  import opened Crash
  import opened BatchMarks
  import opened CrashPoints
  import opened CrashReads

  // ------------------------------------------------------------ what the metadata on disk counts

  /** The keys the operation deletes. */
  function KeysOf(op: Op): seq<Key> {
    match op
    case Delete(k) => [k]
    case DeleteKeys(keys) => keys
    case _ => []
  }

  /** Live bytes before the watermarks and deleted bytes fit the saved totals. */
  ghost predicate SavedCovers(st: Store, cut: map<nat, nat>)
    requires Fits(st.logs, cut)
  {
    forall id :: id in st.logs ==>
      LiveBytes(st.index, id, st.logs[id][..cut[id]]) + st.saved.StatsOf(id).deleted <= st.saved.StatsOf(id).total
  }

  /** `saved` counts at least what `st` counts and, as deleted, the rows of `keys`. */
  ghost predicate Counts(st: Store, saved: Meta, keys: seq<Key>) {
    forall id ::
      && saved.StatsOf(id).deleted == st.meta.StatsOf(id).deleted + Counted(st.index, keys, id)
      && saved.StatsOf(id).total >= st.meta.StatsOf(id).total
  }

  /** What is on disk is what was there before the write, or counts the first `n` deletes. */
  ghost predicate SavedAs(st: Store, saved: Meta, keys: seq<Key>, n: nat) {
    saved == st.saved || (n <= |keys| && Counts(st, saved, keys[..n]))
  }

  lemma DataGrows(a: Log, b: Log)
    requires a <= b
    ensures DataBytes(a) <= DataBytes(b)
  {
    hide DataBytes;
    assert b == a + b[|a|..];
    DataBytesConcat(a, b[|a|..]);
  }

  /** Totals rise with the logs. */
  lemma TotalsRise(st: Store, s: Store)
    requires SameOver(st, s) && LogsGrown(st.logs, st.meta.active, s.logs, s.meta.active)
    ensures forall id :: s.meta.StatsOf(id).total >= st.meta.StatsOf(id).total
  {
    hide DataBytes;
    forall id ensures s.meta.StatsOf(id).total >= st.meta.StatsOf(id).total {
      assert Over(st, id) == Over(s, id);
      NoData();
      DataGrows(LogIn(st.logs, id), LogIn(s.logs, id));
    }
  }

  lemma RollCounts(st: Store, a: Store, keys: seq<Key>)
    requires Shape(a) && Counts(st, a.meta, keys)
    ensures RollOver(a).saved == a.saved || Counts(st, RollOver(a).saved, keys)
    ensures End(a.Active()) < SEGMENT_MAX_SIZE ==> RollOver(a).saved == a.saved
    ensures Counts(st, SealActive(a).meta, keys)
  {
    hide LogOk, Counted;
    SealTotalsOnly(a);
  }

  lemma SealTotalsOnly(a: Store)
    requires Shape(a)
    ensures forall id :: SealActive(a).meta.StatsOf(id).deleted == a.meta.StatsOf(id).deleted
    ensures forall id :: SealActive(a).meta.StatsOf(id).total == a.meta.StatsOf(id).total
    ensures SealActive(a) == a || SealActive(a).saved == SealActive(a).meta
  {
    hide LogOk;
  }

  // ---------------------------------------------------------------------------- puts

  lemma AppendedCounts(st: Store, es: seq<Entry>)
    requires Shape(st) && forall i :: 0 <= i < |es| ==> EntryOk(es[i])
    ensures Shape(AppendMany(st, es)) && Counts(st, AppendMany(st, es).meta, [])
  {
    hide Shape, AppendMany, SameOver, LogsGrown, EntryOk;
    AppendManyTotals(st, es);
    AppendManyFacts(st, es);
    TotalsRise(st, AppendMany(st, es));
  }

  lemma {:induction false} AppendedSaved(st: Store, es: seq<Entry>)
    requires Shape(st) && forall i :: 0 <= i < |es| ==> EntryOk(es[i])
    ensures SavedAs(st, AppendMany(st, es).saved, [], 0)
  {
    hide Shape, Counts, EntryOk, RollOver;
    if es != [] {
      var n := |es| - 1;
      AppendedSaved(st, es[..n]);
      AppendedCounts(st, es[..n]);
      RollCounts(st, AppendMany(st, es[..n]), []);
    }
  }

  lemma {:induction false} AppendPointSaved(st: Store, es: seq<Entry>, i: nat)
    requires Shape(st) && (forall n :: 0 <= n < |es| ==> EntryOk(es[n])) && i < |AppendPoints(st, es)|
    ensures SavedAs(st, AppendPoints(st, es)[i].disk.saved, [], 0)
  {
    hide Shape, Counts, EntryOk, RollOver, AppendMany;
    if es != [] {
      var n := |es| - 1;
      var before, a := AppendPoints(st, es[..n]), AppendMany(st, es[..n]);
      AppendedSaved(st, es[..n]);
      AppendedCounts(st, es[..n]);
      RollCounts(st, a, []);
      AppendedSaved(st, es);
      if i < |before| {
        AppendPointSaved(st, es[..n], i);
      }
    }
  }

  // -------------------------------------------------------------------------- deletes

  lemma DeletedCounts(st: Store, view: View, keys: seq<Key>)
    requires Inv(st, view)
    ensures Shape(DeleteMany(st, keys)) && Counts(st, DeleteMany(st, keys).meta, keys)
  {
    hide Shape, Means, DeleteMany, SameOver, LogsGrown, Counted, Computed;
    DeleteManyBooks(st, view, keys);
    DeleteManyFacts(st, keys);
    AppendManyFacts(st, Tombstones(keys));
    TotalsRise(st, DeleteMany(st, keys));
  }

  /** Accounting runs ahead of the tombstone by one key. */
  lemma NextCounts(st: Store, view: View, keys: seq<Key>, n: nat)
    requires Inv(st, view) && n < |keys|
    ensures var a := CountDeleted(DeleteMany(st, keys[..n]), keys[n]);
      Shape(a) && Counts(st, a.meta, keys[..n + 1]) && a.saved == DeleteMany(st, keys[..n]).saved
  {
    hide Shape, Means, DeleteMany, SameOver, LogsGrown, Computed, CountDeleted, RowBytes, Extends, Over;
    var b := DeleteMany(st, keys[..n]);
    DeletedCounts(st, view, keys[..n]);
    DeleteManyFacts(st, keys[..n]);
    AppendManyFacts(st, Tombstones(keys[..n]));
    RowHasStats(st, view, b, keys[n]);
    CountTotals(b, keys[n]);
    CountDeletedShape(b, keys[n]);
    assert keys[..n + 1][..n] == keys[..n];
    CountedTotals(b, keys[n]);
  }

  lemma CountedTotals(b: Store, k: Key)
    ensures forall id :: CountDeleted(b, k).meta.StatsOf(id).total == b.meta.StatsOf(id).total
  {
  }

  /** After the loop the metadata on disk counts no more deletes than there are tombstones. */
  lemma {:induction false} DeletedSaved(st: Store, view: View, keys: seq<Key>, m: nat) returns (n: nat)
    requires Inv(st, view) && m <= |keys|
    ensures n <= m && SavedAs(st, DeleteMany(st, keys[..m]).saved, keys, n)
  {
    hide Shape, Means, Counts, RollOver, CountDeleted;
    n := 0;
    if m == 0 {
      assert keys[..0] == [];
    } else {
      n := DeletedSaved(st, view, keys, m - 1);
      assert keys[..m][..m - 1] == keys[..m - 1];
      var a := CountDeleted(DeleteMany(st, keys[..m - 1]), keys[m - 1]);
      NextCounts(st, view, keys, m - 1);
      RollCounts(st, a, keys[..m]);
      if RollOver(a).saved != a.saved {
        n := m;
      }
    }
  }

  lemma {:induction false} DeletePointsLength(st: Store, keys: seq<Key>)
    requires st.Ready()
    ensures |DeletePoints(st, keys)| == 1 + 3 * |keys|
  {
    if keys != [] {
      DeletePointsLength(st, keys[..|keys| - 1]);
    }
  }

  /** The three states of key `n`. */
  lemma {:induction false} DeletePointAt(st: Store, keys: seq<Key>, n: nat)
    requires st.Ready() && n < |keys|
    ensures |DeletePoints(st, keys)| == 1 + 3 * |keys|
    ensures var a, p := CountDeleted(DeleteMany(st, keys[..n]), keys[n]), DeletePoints(st, keys);
      && p[3 * n + 1] == Point(RollOver(a).(saved := a.saved), n, 0, 0)
      && p[3 * n + 2] == Point(RollOver(a), n, 0, 0)
      && p[3 * n + 3] == Point(DeleteMany(st, keys[..n + 1]), n + 1, 0, 0)
  {
    hide DeleteMany, RollOver, CountDeleted;
    DeletePointsLength(st, keys);
    var m := |keys| - 1;
    DeletePointsLength(st, keys[..m]);
    if n < m {
      DeletePointAt(st, keys[..m], n);
      assert keys[..m][..n] == keys[..n] && keys[..m][..n + 1] == keys[..n + 1];
    } else {
      assert keys[..n + 1] == keys;
    }
  }

  lemma DeletePointFirst(st: Store, keys: seq<Key>)
    requires st.Ready()
    ensures |DeletePoints(st, keys)| == 1 + 3 * |keys| && DeletePoints(st, keys)[0] == Point(st, 0, 0, 0)
    decreases |keys|
  {
    hide DeleteMany, RollOver, CountDeleted;
    DeletePointsLength(st, keys);
    if keys != [] {
      DeletePointFirst(st, keys[..|keys| - 1]);
    }
  }

  /** The state at which a roll-over has saved the count of a key whose tombstone is not written. */
  predicate SavedRoll(st: Store, op: Op, i: nat)
    requires st.Ready()
    ensures SavedRoll(st, op, i) ==> i / 3 < |KeysOf(op)| && i == 3 * (i / 3) + 2 && (op.Delete? || op.DeleteKeys?)
  {
    var keys := KeysOf(op);
    i % 3 == 2 && i / 3 < |keys| && End(DeleteMany(st, keys[..i / 3]).Active()) >= SEGMENT_MAX_SIZE
  }

  /** At every other state of the delete loop the metadata counts no more deletes than there are tombstones. */
  lemma DeletePointSaved(st: Store, view: View, op: Op, i: nat) returns (n: nat)
    requires Inv(st, view) && (op.Delete? || op.DeleteKeys?) && i < |DeletePoints(st, KeysOf(op))|
    requires !SavedRoll(st, op, i)
    ensures var p := DeletePoints(st, KeysOf(op))[i]; n <= p.written && SavedAs(st, p.disk.saved, KeysOf(op), n)
  {
    hide Shape, Means, Counts, RollOver, DeletePoints, DeleteMany, CountDeleted;
    var keys := KeysOf(op);
    DeletePointFirst(st, keys);
    n := 0;
    if i > 0 {
      var m, r := (i - 1) / 3, (i - 1) % 3;
      assert i == 3 * m + r + 1;
      DeletePointAt(st, keys, m);
      if r == 2 {
        n := DeletedSaved(st, view, keys, m + 1);
      } else {
        n := DeletedSaved(st, view, keys, m);
        NextCounts(st, view, keys, m);
        var a := CountDeleted(DeleteMany(st, keys[..m]), keys[m]);
        CountKeeps(DeleteMany(st, keys[..m]), keys[m]);
        RollCounts(st, a, keys[..m + 1]);
      }
    }
  }

  lemma CountKeeps(b: Store, k: Key)
    requires b.Ready()
    ensures CountDeleted(b, k).Ready() && CountDeleted(b, k).Active() == b.Active() && CountDeleted(b, k).saved == b.saved
  {
  }

  // ------------------------------------------------------------------- every disk state

  /**
   * What the metadata on disk counts: before the first watermark update no more deletes than there are
   * tombstones, and from then on all of the write.
   */
  ghost predicate Settled(st: Store, op: Op, p: Point) {
    if p.marked == 0 then exists n :: 0 <= n <= p.written && SavedAs(st, p.disk.saved, KeysOf(op), n)
    else Covers(p.disk.logs, p.disk.index, p.disk.saved)
  }

  lemma MarkedSettled(st: Store, op: Op, d: Store, marks: seq<IndexRecord>, p: Point)
    requires Covers(d.logs, d.index, d.meta) && marks != [] && p.disk == MarkAll(d, marks) && p.marked > 0
    ensures Settled(st, op, p)
  {
    hide LiveBytes, Computed;
    MarkAllBooks(d, marks);
  }

  lemma UnmarkedSettled(st: Store, op: Op, p: Point, n: nat)
    requires p.marked == 0 && n <= p.written && SavedAs(st, p.disk.saved, KeysOf(op), n)
    ensures Settled(st, op, p)
  {
  }

  /** The states after the append loop of one entry. */
  lemma OneSettled(st: Store, op: Op, a: Store, r: IndexRecord, i: nat, n: nat)
    requires Covers(a.logs, InsertAll(a.index, [r]), a.meta) && n <= 1 && SavedAs(st, a.saved, KeysOf(op), n) && i < 2
    ensures Settled(st, op, OnePoints(a, r)[i])
  {
    hide Covers, InsertAll, Mark, SavedAs, Settled;
    if i == 0 {
      UnmarkedSettled(st, op, OnePoints(a, r)[0], n);
    } else {
      var d := Indexed(a, [r]);
      assert [r][..0] == [] && MarkAll(d, [r]) == Mark(MarkAll(d, []), r);
      MarkedSettled(st, op, d, [r], OnePoints(a, r)[1]);
    }
  }

  /** The states after the append loop of a batch. */
  lemma CommitSettled(st: Store, op: Op, a: Store, recs: seq<IndexRecord>, marks: seq<IndexRecord>, upTo: nat -> nat, i: nat)
    requires Covers(a.logs, InsertAll(a.index, recs), a.meta) && Counts(st, a.meta, KeysOf(op))
    requires |KeysOf(op)| <= |recs| && forall n :: 1 <= n <= |marks| ==> upTo(n) > 0
    requires i < |CommitPoints(a, recs, marks, upTo)|
    ensures Settled(st, op, CommitPoints(a, recs, marks, upTo)[i])
  {
    hide Covers, InsertAll, MarkAll, Counts, Settled;
    var keys, p := KeysOf(op), CommitPoints(a, recs, marks, upTo)[i];
    assert keys[..|keys|] == keys;
    if i < 2 {
      UnmarkedSettled(st, op, p, |keys|);
    } else {
      MarkedSettled(st, op, Indexed(a.(saved := a.meta), recs), marks[..i - 1], p);
    }
  }

  lemma PutSettled(lib: Lib, cfg: Config, st: Store, op: Op, i: nat)
    requires Shape(st) && Covers(st.logs, st.index, st.meta) && (op.Put? || op.PutBatch?) && i < |Points(lib, cfg, st, op)|
    ensures Settled(st, op, Points(lib, cfg, st, op)[i])
  {
    hide Shape, Covers, AppendPoints, OnePoints, CommitPoints, AppendMany, Writes, AppendedRecords, HighestEnds, MarkAll, SavedAs,
      Accepted, Settled, Counts, CommitBatch, InsertAll, EntryOk;
    var es := Writes(lib, cfg, op);
    WritesOk(lib, cfg, op);
    WritesOne(lib, cfg, op);
    var before, a := AppendPoints(st, es), AppendMany(st, es);
    if i < |before| {
      AppendPointSaved(st, es, i);
      AppendPointUnmarked(st, es, i);
      UnmarkedSettled(st, op, before[i], 0);
    } else {
      var recs := AppendedRecords(st, es);
      PutsCover(st, es);
      AppendedSaved(st, es);
      AppendManyFactsIndex(st, es);
      if op.Put? {
        OneRecord(st, es);
        OnePointsLength(a, recs[0]);
        assert recs == [recs[0]];
        OneSettled(st, op, a, recs[0], i - |before|, 0);
      } else {
        AppendedCounts(st, es);
        MarksPositive(st, es);
        CommitSettled(st, op, a, recs, HighestEnds(recs), n => MarkedBy(recs, n), i - |before|);
      }
    }
  }

  lemma AppendManyFactsIndex(st: Store, es: seq<Entry>)
    requires Shape(st) && forall i :: 0 <= i < |es| ==> EntryOk(es[i])
    ensures AppendMany(st, es).index == st.index
  {
    hide Shape, AppendMany, Extends, PointsAt, Flat, EntryOk;
    AppendManyFacts(st, es);
  }

  lemma MarksPositive(st: Store, es: seq<Entry>)
    requires st.Ready()
    ensures var recs := AppendedRecords(st, es); forall n :: 1 <= n <= |HighestEnds(recs)| ==> MarkedBy(recs, n) > 0
  {
    hide AppendedRecords, HighestEnds, MarkAll;
    BatchAscends(st, es);
    var recs := AppendedRecords(st, es);
    forall n | 1 <= n <= |HighestEnds(recs)| ensures MarkedBy(recs, n) > 0 {
      PartialMarks(st, recs, n);
    }
  }

  lemma {:induction false} AppendPointUnmarked(st: Store, es: seq<Entry>, i: nat)
    requires st.Ready() && i < |AppendPoints(st, es)|
    ensures AppendPoints(st, es)[i].marked == 0
  {
    hide AppendMany, RollOver;
    if es != [] && i < |AppendPoints(st, es[..|es| - 1])| {
      AppendPointUnmarked(st, es[..|es| - 1], i);
    }
  }

  lemma {:induction false} DeletePointUnmarked(st: Store, keys: seq<Key>, i: nat)
    requires st.Ready() && i < |DeletePoints(st, keys)|
    ensures DeletePoints(st, keys)[i].marked == 0
  {
    hide DeleteMany, RollOver, CountDeleted;
    if keys != [] && i < |DeletePoints(st, keys[..|keys| - 1])| {
      DeletePointUnmarked(st, keys[..|keys| - 1], i);
    }
  }

  /** The counts after a loop of deletes. */
  lemma DeletedCovers(st: Store, view: View, keys: seq<Key>)
    requires Inv(st, view) && Covers(st.logs, st.index, st.meta) && DistinctDeletes(DeleteKeys(keys))
    ensures var a := DeleteMany(st, keys); Covers(a.logs, InsertAll(a.index, AppendedRecords(st, Tombstones(keys))), a.meta)
  {
    hide Inv, LiveBytes, InsertAll, DeleteMany, AppendedRecords, Counted, Repeated;
    var a, recs := DeleteMany(st, keys), AppendedRecords(st, Tombstones(keys));
    DeletedIndex(st, keys);
    forall id | id in a.logs
      ensures LiveBytes(InsertAll(st.index, recs), id, a.logs[id]) + a.meta.StatsOf(id).deleted <= a.meta.StatsOf(id).total
    {
      DeletedSegment(st, view, keys, id);
      NoneRepeated(st.index, keys, id);
    }
  }

  lemma DeletedIndex(st: Store, keys: seq<Key>)
    requires Shape(st)
    ensures DeleteMany(st, keys).index == st.index
  {
    hide Shape, DeleteMany, AppendMany;
    DeleteManyFacts(st, keys);
    TombstonesOk(keys);
    AppendManyFactsIndex(st, Tombstones(keys));
  }

  lemma DeleteSettled(lib: Lib, cfg: Config, st: Store, view: View, op: Op, i: nat)
    requires Inv(st, view) && Covers(st.logs, st.index, st.meta) && (op.Delete? || op.DeleteKeys?) && DistinctDeletes(op)
    requires i < |Points(lib, cfg, st, op)| && !SavedRoll(st, op, i)
    ensures Settled(st, op, Points(lib, cfg, st, op)[i])
  {
    hide Shape, Means, Covers, DeletePoints, OnePoints, CommitPoints, DeleteMany, Writes, AppendedRecords, MarkAll, Settled, Counts,
      InsertAll, Tombstones, SavedAs, SavedRoll;
    var es, keys := Writes(lib, cfg, op), KeysOf(op);
    WritesOne(lib, cfg, op);
    var before, a := DeletePoints(st, keys), DeleteMany(st, keys);
    if i < |before| {
      var n := DeletePointSaved(st, view, op, i);
      DeletePointUnmarked(st, keys, i);
      UnmarkedSettled(st, op, before[i], n);
    } else {
      var recs := AppendedRecords(st, es);
      DeletedCovers(st, view, keys);
      if op.Delete? {
        assert keys[..1] == keys;
        var n := DeletedSaved(st, view, keys, 1);
        OnePointsLength(a, recs[0]);
        assert recs == [recs[0]];
        OneSettled(st, op, a, recs[0], i - |before|, n);
      } else {
        DeletedCounts(st, view, keys);
        CommitSettled(st, op, a, recs, recs, n => n, i - |before|);
      }
    }
  }

  lemma PointsSettled(lib: Lib, cfg: Config, st: Store, view: View, op: Op, i: nat)
    requires Inv(st, view) && Covers(st.logs, st.index, st.meta) && !op.Gc? && DistinctDeletes(op)
    requires i < |Points(lib, cfg, st, op)| && !SavedRoll(st, op, i)
    ensures Settled(st, op, Points(lib, cfg, st, op)[i])
  {
    hide Shape, Means, Covers, Settled, DistinctDeletes, SavedRoll;
    match op
    case Put(_) => PutSettled(lib, cfg, st, op, i);
    case PutBatch(_) => PutSettled(lib, cfg, st, op, i);
    case Delete(_) => DeleteSettled(lib, cfg, st, view, op, i);
    case DeleteKeys(_) => DeleteSettled(lib, cfg, st, view, op, i);
    case Seal =>
      hide SealActive;
      CountsSelf(st);
      RollCounts(st, st, []);
      SealTotalsOnly(st);
      UnmarkedSettled(st, op, Points(lib, cfg, st, op)[i], 0);
    case Flush =>
      CountsSelf(st);
      UnmarkedSettled(st, op, Points(lib, cfg, st, op)[i], 0);
  }

  lemma CountsSelf(st: Store)
    ensures Counts(st, st.meta, [])
  {
  }
}
