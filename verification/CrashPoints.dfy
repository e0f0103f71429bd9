/** Every disk state that a write passes through, and what a reopen there finds (engine.rs, recovery.rs). */
module CrashPoints {
  import opened Compression
  import opened Segment
  import opened Index
  import opened BlobStore
  import opened StoreWrites
  import opened Runs
  import opened Recovery
  import opened Crash
  import opened Marks
  import opened BatchMarks

  // ------------------------------------------------------------------- the disk states

  /** A disk state: so many entries of the write are in the logs, indexed, and under saved watermarks. */
  datatype Point = Point(disk: Store, written: nat, indexed: nat, marked: nat)

  /** Inside a roll-over: the next file exists, then the metadata is saved. */
  function RollPoints(a: Store, n: nat): seq<Point>
    requires a.Ready()
  {
    [Point(RollOver(a).(saved := a.saved), n, 0, 0), Point(RollOver(a), n, 0, 0)]
  }

  /** The append loop of `put` and `put_batch`. */
  function AppendPoints(st: Store, es: seq<Entry>): seq<Point>
    requires st.Ready()
  {
    if es == [] then [Point(st, 0, 0, 0)]
    else
      var n := |es| - 1;
      AppendPoints(st, es[..n]) + RollPoints(AppendMany(st, es[..n]), n) + [Point(AppendMany(st, es), n + 1, 0, 0)]
  }

  /** The loop of `delete` and `delete_batch`; a roll-over saves the count of a key not yet deleted. */
  function DeletePoints(st: Store, keys: seq<Key>): seq<Point>
    requires st.Ready()
  {
    if keys == [] then [Point(st, 0, 0, 0)]
    else
      var n := |keys| - 1;
      DeletePoints(st, keys[..n]) + RollPoints(CountDeleted(DeleteMany(st, keys[..n]), keys[n]), n)
      + [Point(DeleteMany(st, keys), n + 1, 0, 0)]
  }

  function Indexed(a: Store, recs: seq<IndexRecord>): Store {
    a.(index := InsertAll(a.index, recs))
  }

  /** One entry: the index row, then the watermark. */
  function OnePoints(a: Store, r: IndexRecord): seq<Point> {
    [Point(Indexed(a, [r]), 1, 1, 0), Point(Mark(Indexed(a, [r]), r), 1, 1, 1)]
  }

  /** A batch: the metadata saved, the index transaction, then the watermarks one by one. */
  function CommitPoints(a: Store, recs: seq<IndexRecord>, marks: seq<IndexRecord>, upTo: nat -> nat): seq<Point> {
    var n, d := |recs|, Indexed(a.(saved := a.meta), recs);
    [Point(a.(saved := a.meta), n, 0, 0), Point(d, n, n, 0)]
    + seq(|marks|, i requires 0 <= i < |marks| => Point(MarkAll(d, marks[..i + 1]), n, n, upTo(i + 1)))
  }

  /** The entries the operation writes. */
  function Writes(lib: Lib, cfg: Config, op: Op): (es: seq<Entry>) {
    match op
    case Put(item) =>
      if |item.value| > MAX_VALUE_SIZE then [] else [Pack(lib, cfg, item.key, item.value, item.codec)]
    case Delete(k) => [Tombstone(k)]
    case PutBatch(items) => PackAll(lib, cfg, items[..Accepted(items)])
    case DeleteKeys(keys) => Tombstones(keys)
    case Seal => []
    case Flush => []
    case Gc => []
  }

  /** Every disk state of the operation, in order. */
  function Points(lib: Lib, cfg: Config, st: Store, op: Op): seq<Point>
    requires st.Ready() && !op.Gc?
  {
    var es := Writes(lib, cfg, op);
    match op
    case Put(item) =>
      AppendPoints(st, es) + if es == [] then [] else OnePoints(AppendMany(st, es), Appended(AppendMany(st, es)))
    case Delete(k) =>
      DeletePoints(st, [k]) + OnePoints(DeleteMany(st, [k]), AppendedRecords(st, es)[0])
    case PutBatch(items) =>
      AppendPoints(st, es) +
      if Accepted(items) < |items| || items == [] then []
      else
        var recs := AppendedRecords(st, es);
        CommitPoints(AppendMany(st, es), recs, HighestEnds(recs), i => MarkedBy(recs, i))
    case DeleteKeys(keys) =>
      DeletePoints(st, keys) +
      if keys == [] then []
      else CommitPoints(DeleteMany(st, keys), AppendedRecords(st, es), AppendedRecords(st, es), i => i)
    case Seal => [Point(st, 0, 0, 0), Point(SealActive(st).(saved := st.saved), 0, 0, 0), Point(SealActive(st), 0, 0, 0)]
    case Flush => [Point(st, 0, 0, 0), Point(st.(saved := st.meta), 0, 0, 0)]
  }

  // --------------------------------------------------------- what is common to all of them

  /**
   * The store while `es` is being written to `st`: `j` entries are in the logs, the first `q` of their records
   * in the index, the first `m` under saved watermarks; the other watermarks are where they were.
   */
  ghost predicate Mid(st: Store, cut: map<nat, nat>, es: seq<Entry>, c: Store, j: nat, q: nat, m: nat)
    requires Resumable(st, cut)
    ensures Mid(st, cut, es, c, j, q, m) ==> Shape(c) && j <= |es|
  {
    && m <= q <= j <= |es| && Shape(c) && SavedOlder(c)
    && LogsGrown(st.logs, st.meta.active, c.logs, c.meta.active)
    && Extends(AppendMany(st, es[..j]).logs, c.logs)
    && c.History() == st.History() + AppendedRecords(st, es[..j])
    && c.index == InsertAll(st.index, AppendedRecords(st, es[..j])[..q])
    && Covered(c.logs, c.saved, MidCut(st, cut, c.logs, m))
  }

  /** While appending, whether or not a roll-over has just happened or the metadata was just saved. */
  lemma AppendingIsMid(st: Store, cut: map<nat, nat>, es: seq<Entry>, c: Store, j: nat)
    requires Resumable(st, cut) && j <= |es| && forall i :: 0 <= i < |es| ==> EntryOk(es[i])
    requires Shape(c) && GrownFrom(st, c) && c.index == st.index
    requires Extends(AppendMany(st, es[..j]).logs, c.logs) && c.History() == AppendMany(st, es[..j]).History()
    ensures Mid(st, cut, es, c, j, 0, 0)
    ensures Mid(st, cut, es, c.(saved := c.meta), j, 0, 0)
  {
    hide Resumable, Shape, Flat, Extends, EntryOk, MidCut, LogsGrown, Covered;
    AppendManyFacts(st, es[..j]);
    GrownMarked(st, cut, c);
    ShapeIgnoresIndex(c, c.index, c.meta);
    MetaKeys(c);
  }

  /** A state of the loop and the roll-over after it. */
  lemma RollIsMid(st: Store, cut: map<nat, nat>, es: seq<Entry>, a: Store, j: nat, i: nat)
    requires Resumable(st, cut) && j <= |es| && (forall n :: 0 <= n < |es| ==> EntryOk(es[n])) && i < 2
    requires Shape(a) && GrownFrom(st, a) && a.index == st.index
    requires a.logs == AppendMany(st, es[..j]).logs && a.meta.active == AppendMany(st, es[..j]).meta.active
    ensures Mid(st, cut, es, RollPoints(a, j)[i].disk, j, 0, 0)
  {
    hide Resumable, Shape, Flat, GrownFrom, Extends, Mid, SealActive, EntryOk, AppendMany;
    var r := RollOver(a);
    SealGrown(st, a);
    SealShape(a);
    SealHistory(a);
    SealIndex(a);
    ExtendsSelf(a.logs);
    ShapeIgnoresIndex(r, r.index, a.saved);
    AppendingIsMid(st, cut, es, if i == 0 then r.(saved := a.saved) else r, j);
  }

  /** `j` entries are appended. */
  lemma AppendedIsMid(st: Store, cut: map<nat, nat>, es: seq<Entry>, a: Store, j: nat)
    requires Resumable(st, cut) && j <= |es| && forall n :: 0 <= n < |es| ==> EntryOk(es[n])
    requires Shape(a) && GrownFrom(st, a) && a.index == st.index
    requires a.logs == AppendMany(st, es[..j]).logs && a.meta.active == AppendMany(st, es[..j]).meta.active
    ensures Mid(st, cut, es, a, j, 0, 0) && Mid(st, cut, es, a.(saved := a.meta), j, 0, 0)
  {
    hide Resumable, Shape, Flat, GrownFrom, Extends, Mid, EntryOk, AppendMany;
    ExtendsSelf(a.logs);
    AppendingIsMid(st, cut, es, a, j);
  }

  /** A prefix of the write is a write. */
  lemma MidOfPrefix(st: Store, cut: map<nat, nat>, es: seq<Entry>, n: nat, c: Store, j: nat)
    requires Resumable(st, cut) && n <= |es| && j <= n && Mid(st, cut, es[..n], c, j, 0, 0)
    ensures Mid(st, cut, es, c, j, 0, 0)
  {
    hide Shape, Flat, Extends, MidCut, LogsGrown, Covered, AppendMany, AppendedRecords, Resumable;
    assert es[..n][..j] == es[..j];
  }

  lemma {:induction false} AppendPointsAreMid(st: Store, cut: map<nat, nat>, es: seq<Entry>, i: nat)
    requires Resumable(st, cut) && (forall n :: 0 <= n < |es| ==> EntryOk(es[n])) && i < |AppendPoints(st, es)|
    ensures var p := AppendPoints(st, es)[i];
      p.indexed == p.marked == 0 && Mid(st, cut, es, p.disk, p.written, 0, 0)
  {
    hide Resumable, Shape, GrownFrom, Mid, EntryOk, AppendMany, RollOver;
    if es == [] {
      GrownSelf(st);
      NothingAppended(st, es);
      AppendedIsMid(st, cut, es, st, 0);
    } else {
      var n := |es| - 1;
      var before, a := AppendPoints(st, es[..n]), AppendMany(st, es[..n]);
      AppendManyFacts(st, es[..n]);
      AppendManyFacts(st, es);
      AppendManyGrown(st, es[..n]);
      AppendManyGrown(st, es);
      if i < |before| {
        AppendPointsAreMid(st, cut, es[..n], i);
        MidOfPrefix(st, cut, es, n, before[i].disk, before[i].written);
      } else if i < |before| + 2 {
        RollIsMid(st, cut, es, a, n, i - |before|);
      } else {
        assert es[..|es|] == es;
        AppendedIsMid(st, cut, es, AppendMany(st, es), |es|);
      }
    }
  }

  lemma NothingAppended(st: Store, es: seq<Entry>)
    requires st.Ready()
    ensures AppendMany(st, es[..0]) == st
  {
    assert es[..0] == [];
  }

  lemma {:induction false} DeletePointsAreMid(st: Store, cut: map<nat, nat>, keys: seq<Key>, i: nat)
    requires Resumable(st, cut) && i < |DeletePoints(st, keys)|
    ensures var p := DeletePoints(st, keys)[i];
      p.indexed == p.marked == 0 && Mid(st, cut, Tombstones(keys), p.disk, p.written, 0, 0)
  {
    hide Resumable, Shape, GrownFrom, Mid, AppendMany, RollOver, DeleteMany, CountDeleted, Tombstones;
    var es := Tombstones(keys);
    TombstonesOk(keys);
    if keys == [] {
      GrownSelf(st);
      NothingAppended(st, es);
      AppendedIsMid(st, cut, es, st, 0);
    } else {
      var n := |keys| - 1;
      var before, b := DeletePoints(st, keys[..n]), DeleteMany(st, keys[..n]);
      TombstonesPrefix(keys, n);
      DeleteManyFacts(st, keys[..n]);
      DeleteManyGrown(st, keys[..n]);
      if i < |before| {
        DeletePointsAreMid(st, cut, keys[..n], i);
        MidOfPrefix(st, cut, es, n, before[i].disk, before[i].written);
      } else if i < |before| + 2 {
        CountGrown(st, b, keys[n]);
        CountDeletedShape(b, keys[n]);
        RollIsMid(st, cut, es, CountDeleted(b, keys[n]), n, i - |before|);
      } else {
        DeleteManyFacts(st, keys);
        DeleteManyGrown(st, keys);
        assert es[..|es|] == es;
        AppendedIsMid(st, cut, es, DeleteMany(st, keys), |keys|);
      }
    }
  }

  lemma TombstonesOk(keys: seq<Key>)
    ensures forall i :: 0 <= i < |keys| ==> EntryOk(Tombstones(keys)[i])
  {
  }

  lemma TombstonesPrefix(keys: seq<Key>, n: nat)
    requires n <= |keys|
    ensures Tombstones(keys)[..n] == Tombstones(keys[..n])
  {
  }

  // ----------------------------------------------------------- after the append loop

  /** After the index transaction, before the watermarks. */
  lemma IndexedIsMid(st: Store, cut: map<nat, nat>, es: seq<Entry>, a: Store)
    requires Resumable(st, cut) && Mid(st, cut, es, a, |es|, 0, 0) && a.index == st.index
    ensures Mid(st, cut, es, Indexed(a, AppendedRecords(st, es)), |es|, |es|, 0)
  {
    hide Shape, Flat, Extends, InsertAll, AppendMany, AppendedRecords, Covered, MidCut, LogsGrown, Resumable;
    var recs := AppendedRecords(st, es);
    assert es[..|es|] == es && recs[..|es|] == recs;
    ShapeIgnoresIndex(a, InsertAll(a.index, recs), a.saved);
  }

  /** After some watermark updates. */
  lemma MarkedIsMid(st: Store, cut: map<nat, nat>, es: seq<Entry>, d: Store, m: nat)
    requires Resumable(st, cut) && Mid(st, cut, es, d, |es|, |es|, 0) && GrownFrom(st, d) && 0 < m <= |es|
    ensures var c := MarkAll(d, AppendedRecords(st, es)[..m]);
      && Mid(st, cut, es, c, |es|, |es|, m) && c.saved == c.meta
      && Covered(c.logs, c.meta, MidCut(st, cut, c.logs, m))
  {
    hide Shape, Flat, MarkAll, AppendedRecords, Extends, InsertAll, AppendMany, LogsGrown, MidCut, Covered;
    var recs := AppendedRecords(st, es);
    assert es[..|es|] == es;
    GrownMarked(st, cut, d);
    MarkAllMoves(st, cut, d, recs, m);
    MarkAllShape(d, recs[..m]);
    MetaKeys(MarkAll(d, recs[..m]));
  }

  /** What is on disk after the append loop, its index untouched. */
  ghost predicate Loop(st: Store, cut: map<nat, nat>, es: seq<Entry>, a: Store)
    requires Resumable(st, cut)
  {
    && Shape(a) && GrownFrom(st, a) && a.index == st.index
    && Mid(st, cut, es, a, |es|, 0, 0) && Mid(st, cut, es, a.(saved := a.meta), |es|, 0, 0)
  }

  lemma GrownIndexed(st: Store, a: Store, index: IndexMap)
    requires GrownFrom(st, a) && Shape(a)
    ensures GrownFrom(st, a.(index := index)) && GrownFrom(st, a.(index := index, saved := a.meta))
  {
    hide LogOk, LogsGrown;
  }

  lemma OnePointsAreMid(st: Store, cut: map<nat, nat>, es: seq<Entry>, a: Store, i: nat)
    requires Resumable(st, cut) && |es| == 1 && Loop(st, cut, es, a) && i < 2
    ensures var p := OnePoints(a, AppendedRecords(st, es)[0])[i];
      Mid(st, cut, es, p.disk, p.written, p.indexed, p.marked)
  {
    hide Resumable, Shape, GrownFrom, Mid, AppendedRecords, InsertAll, Mark;
    var recs := AppendedRecords(st, es);
    assert recs == [recs[0]] && recs[..1] == recs && recs[..1][..0] == [];
    var d := Indexed(a, recs);
    IndexedIsMid(st, cut, es, a);
    GrownIndexed(st, a, d.index);
    MarkedIsMid(st, cut, es, d, 1);
    assert MarkAll(d, recs) == Mark(MarkAll(d, []), recs[0]);
  }

  lemma CommitPointsAreMid(st: Store, cut: map<nat, nat>, es: seq<Entry>, a: Store, marks: seq<IndexRecord>,
                           upTo: nat -> nat, i: nat)
    requires Resumable(st, cut) && Loop(st, cut, es, a)
    requires forall n :: 1 <= n <= |marks| ==> 0 < upTo(n) <= |es| && (forall s: Store ::
      MarkAll(s, marks[..n]) == MarkAll(s, AppendedRecords(st, es)[..upTo(n)]))
    requires i < |CommitPoints(a, AppendedRecords(st, es), marks, upTo)|
    ensures var p := CommitPoints(a, AppendedRecords(st, es), marks, upTo)[i];
      Mid(st, cut, es, p.disk, p.written, p.indexed, p.marked)
  {
    hide Resumable, Shape, GrownFrom, Mid, AppendedRecords, InsertAll, MarkAll;
    var recs := AppendedRecords(st, es);
    var d := Indexed(a.(saved := a.meta), recs);
    if i > 0 {
      IndexedIsMid(st, cut, es, a.(saved := a.meta));
      if i > 1 {
        GrownIndexed(st, a, d.index);
        MarkedIsMid(st, cut, es, d, upTo(i - 1));
        assert MarkAll(d, marks[..i - 1]) == MarkAll(d, recs[..upTo(i - 1)]);
      }
    }
  }

  lemma PutsLoop(st: Store, cut: map<nat, nat>, es: seq<Entry>)
    requires Resumable(st, cut) && forall n :: 0 <= n < |es| ==> EntryOk(es[n])
    ensures Loop(st, cut, es, AppendMany(st, es))
  {
    hide Resumable, Shape, GrownFrom, Mid, EntryOk, AppendMany;
    assert es[..|es|] == es;
    AppendManyFacts(st, es);
    AppendManyGrown(st, es);
    AppendedIsMid(st, cut, es, AppendMany(st, es), |es|);
  }

  lemma DeletesLoop(st: Store, cut: map<nat, nat>, keys: seq<Key>)
    requires Resumable(st, cut)
    ensures Loop(st, cut, Tombstones(keys), DeleteMany(st, keys))
  {
    hide Resumable, Shape, GrownFrom, Mid, AppendMany, DeleteMany, Tombstones;
    var es := Tombstones(keys);
    TombstonesOk(keys);
    assert es[..|es|] == es;
    DeleteManyFacts(st, keys);
    DeleteManyGrown(st, keys);
    AppendedIsMid(st, cut, es, DeleteMany(st, keys), |es|);
  }

  lemma SealPointsAreMid(st: Store, cut: map<nat, nat>, c: Store)
    requires Resumable(st, cut)
    requires c == st || c == SealActive(st) || c == SealActive(st).(saved := st.saved) || c == st.(saved := st.meta)
    ensures Mid(st, cut, [], c, 0, 0, 0)
  {
    hide Resumable, Shape, GrownFrom, Mid, Extends, SealActive, Flat;
    GrownSelf(st);
    SealGrown(st, st);
    SealShape(st);
    SealHistory(st);
    SealIndex(st);
    NothingAppended(st, []);
    ExtendsSelf(st.logs);
    var s := SealActive(st);
    ShapeIgnoresIndex(s, s.index, st.saved);
    AppendingIsMid(st, cut, [], st, 0);
    AppendingIsMid(st, cut, [], s, 0);
    AppendingIsMid(st, cut, [], s.(saved := st.saved), 0);
  }
}
