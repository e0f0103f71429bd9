/** The byte counts that drive collection (engine.rs, gc.rs, meta.rs). */
module Accounting {
  import opened Segment
  import opened SegmentLog
  import opened Index
  import opened BlobStore
  import opened StoreWrites
  import opened Gc
  import opened Runs
  import opened Crash

  /** Data bytes of the entries in segment `id` that the index points at. */
  function LiveBytes(index: IndexMap, id: nat, log: Log): nat {
    DataBytes(Compact(index, id, log))
  }

  /** `total_bytes` counts the stored data and `deleted_ratio` is up to date. */
  ghost predicate Totals(logs: map<nat, Log>, meta: Meta) {
    && (forall id :: id in logs ==> meta.StatsOf(id).total == DataBytes(logs[id]))
    && (forall id :: id in meta.segments ==> meta.segments[id] == Recompute(meta.segments[id]))
  }

  /** Live and deleted bytes together never exceed the total. */
  ghost predicate Covers(logs: map<nat, Log>, index: IndexMap, meta: Meta) {
    forall id :: id in logs ==>
      LiveBytes(index, id, logs[id]) + meta.StatsOf(id).deleted <= meta.StatsOf(id).total
  }

  ghost predicate BooksBalance(st: Store) {
    Totals(st.logs, st.meta) && Covers(st.logs, st.index, st.meta)
  }

  function LogIn(logs: map<nat, Log>, id: nat): Log {
    if id in logs then logs[id] else []
  }

  /** What `total_bytes` counts beyond the stored data. */
  function Over(st: Store, id: nat): int {
    st.meta.StatsOf(id).total - DataBytes(LogIn(st.logs, id))
  }

  ghost predicate SameOver(a: Store, b: Store) {
    forall id :: Over(a, id) == Over(b, id)
  }

  ghost predicate Computed(meta: Meta) {
    forall id :: id in meta.segments ==> meta.segments[id] == Recompute(meta.segments[id])
  }

  /** Totals that were exact stay so as long as data and count grow alike. */
  lemma TotalsKept(st: Store, s: Store)
    requires Totals(st.logs, st.meta) && st.meta.segments.Keys <= st.logs.Keys && SameOver(st, s)
    requires Computed(st.meta) ==> Computed(s.meta)
    ensures Totals(s.logs, s.meta)
  {
    hide DataBytes;
    NoData();
    forall id | id in s.logs ensures s.meta.StatsOf(id).total == DataBytes(s.logs[id]) {
      assert Over(st, id) == Over(s, id);
    }
  }

  lemma NoData()
    ensures DataBytes([]) == 0
  {
  }

  // ------------------------------------------------- how live bytes move

  lemma LiveStep(index: IndexMap, id: nat, log: Log, p: Placed)
    ensures LiveBytes(index, id, log + [p]) == LiveBytes(index, id, log) + if Live(index, id, p) then |p.e.data| else 0
  {
    var c := Compact(index, id, log);
    assert (log + [p])[..|log|] == log;
    if Live(index, id, p) {
      var q := Placed(End(c), p.e);
      assert (c + [q])[..|c|] == c;
    }
  }

  lemma {:induction false} LiveMonotone(a: IndexMap, b: IndexMap, id: nat, log: Log)
    requires forall p :: p in log && Live(b, id, p) ==> Live(a, id, p)
    ensures LiveBytes(b, id, log) <= LiveBytes(a, id, log)
  {
    hide LiveBytes, Live;
    if log != [] {
      var n := |log| - 1;
      assert log == log[..n] + [log[n]];
      assert log[n] in log && forall p :: p in log[..n] ==> p in log;
      LiveMonotone(a, b, id, log[..n]);
      LiveStep(a, id, log[..n], log[n]);
      LiveStep(b, id, log[..n], log[n]);
    } else {
      LiveNone(a, id);
      LiveNone(b, id);
    }
  }

  lemma LiveNone(index: IndexMap, id: nat)
    ensures LiveBytes(index, id, []) == 0
  {
  }

  lemma LiveSame(a: IndexMap, b: IndexMap, id: nat, log: Log)
    requires forall k :: Lookup(a, k) == Lookup(b, k)
    ensures LiveBytes(a, id, log) == LiveBytes(b, id, log)
  {
    hide LiveBytes;
    LiveMonotone(a, b, id, log);
    LiveMonotone(b, a, id, log);
  }

  lemma {:induction false} LiveAtMostData(index: IndexMap, id: nat, log: Log, extra: Log)
    ensures LiveBytes(index, id, log + extra) <= LiveBytes(index, id, log) + DataBytes(extra)
  {
    hide LiveBytes, Live;
    if extra == [] {
      assert log + extra == log;
    } else {
      var n := |extra| - 1;
      LiveAtMostData(index, id, log, extra[..n]);
      assert log + extra == log + extra[..n] + [extra[n]];
      LiveStep(index, id, log + extra[..n], extra[n]);
    }
  }

  lemma {:induction false} DataBytesConcat(a: Log, b: Log)
    ensures DataBytes(a + b) == DataBytes(a) + DataBytes(b)
  {
    if b == [] {
      assert a + b == a;
    } else {
      var n := |b| - 1;
      DataBytesConcat(a, b[..n]);
      assert (a + b)[..|a| + n] == a + b[..n];
    }
  }

  /** The bytes a lookup of `k` credits to segment `id`. */
  function RowBytes(index: IndexMap, k: Key, id: nat): nat {
    match Lookup(index, k)
    case Some(r) => if r.segmentId == id then r.dataSize else 0
    case None => 0
  }

  /** Bytes of the live entries of `k` in the log. */
  function LiveSize(index: IndexMap, id: nat, log: Log, k: Key): nat {
    if log == [] then 0
    else
      var p := log[|log| - 1];
      LiveSize(index, id, log[..|log| - 1], k) + if p.e.key == k && Live(index, id, p) then |p.e.data| else 0
  }

  /** Hiding one key takes exactly its live entries from every segment. */
  lemma {:induction false} LiveHidden(a: IndexMap, b: IndexMap, id: nat, log: Log, k: Key)
    requires Lookup(b, k).None? && forall d :: d != k ==> Lookup(b, d) == Lookup(a, d)
    ensures LiveBytes(a, id, log) == LiveBytes(b, id, log) + LiveSize(a, id, log, k)
  {
    hide LiveBytes;
    if log == [] {
      LiveNone(a, id);
      LiveNone(b, id);
    } else {
      var n := |log| - 1;
      assert log == log[..n] + [log[n]];
      LiveHidden(a, b, id, log[..n], k);
      LiveStep(a, id, log[..n], log[n]);
      LiveStep(b, id, log[..n], log[n]);
    }
  }

  lemma {:induction false} LiveSizeNone(index: IndexMap, id: nat, log: Log, k: Key)
    requires forall p :: p in log ==> !(p.e.key == k && Live(index, id, p))
    ensures LiveSize(index, id, log, k) == 0
  {
    hide Live;
    if log != [] {
      var n := |log| - 1;
      assert log[n] in log && forall p :: p in log[..n] ==> p in log;
      LiveSizeNone(index, id, log[..n], k);
    }
  }

  lemma {:induction false} LiveSizeOne(index: IndexMap, id: nat, log: Log, q: Placed)
    requires WellPlaced(log) && q in log && Live(index, id, q)
    ensures LiveSize(index, id, log, q.e.key) == |q.e.data|
  {
    hide WellPlaced;
    var n := |log| - 1;
    PrefixPlaced(log, n);
    assert log == log[..n] + [log[n]];
    if log[n] == q {
      forall p | p in log[..n]
        ensures !(p.e.key == q.e.key && Live(index, id, p))
      {
        var m :| 0 <= m < n && log[m] == p;
        Ordered(log, m, n);
      }
      LiveSizeNone(index, id, log[..n], q.e.key);
    } else {
      LiveSizeOne(index, id, log[..n], q);
      if log[n].e.key == q.e.key && Live(index, id, log[n]) {
        SameOffset(log, log[n], q);
      }
    }
  }

  /** Under the invariant the live bytes of a key are the bytes its row names. */
  lemma RowIsLive(logs: map<nat, Log>, index: IndexMap, view: View, id: nat, k: Key)
    requires Means(logs, index, view) && id in logs && WellPlaced(logs[id])
    ensures LiveSize(index, id, logs[id], k) == RowBytes(index, k, id)
  {
    hide WellPlaced;
    var r := Lookup(index, k);
    if r.Some? && r.value.segmentId == id {
      LiveSizeOne(index, id, logs[id], Placed(r.value.offset, view[k]));
    } else {
      LiveSizeNone(index, id, logs[id], k);
    }
  }

  // ---------------------------------------------------------------------- totals

  lemma AppendTotals(st: Store, e: Entry)
    requires Shape(st) && EntryOk(e)
    ensures var s := AppendEntry(st, e);
            && SameOver(st, s) && (Computed(st.meta) ==> Computed(s.meta))
            && LogsGrown(st.logs, st.meta.active, s.logs, s.meta.active)
            && forall id :: s.meta.StatsOf(id).deleted == st.meta.StatsOf(id).deleted
  {
    hide LogOk, LogsGrown, SealActive, AppendActive, Over, Computed;
    var r := RollOver(st);
    SealShape(st);
    SealLogs(st);
    SealTotals(st);
    LogsGrownSelf(st.logs, st.meta.active);
    AppendActiveLogs(r, e);
    AppendActiveTotals(r, e);
    LogsGrownTrans(st.logs, st.meta.active, r.logs, r.meta.active,
                   AppendActive(r, e).logs, AppendActive(r, e).meta.active);
  }

  lemma LogsGrownSelf(a: map<nat, Log>, active: nat)
    ensures LogsGrown(a, active, a, active)
  {
  }

  lemma SealTotals(st: Store)
    requires Shape(st)
    ensures SameOver(st, SealActive(st)) && (Computed(st.meta) ==> Computed(SealActive(st).meta))
    ensures forall id :: SealActive(st).meta.StatsOf(id).deleted == st.meta.StatsOf(id).deleted
  {
    hide LogOk, DataBytes;
  }

  lemma AppendActiveTotals(st: Store, e: Entry)
    requires Shape(st) && EntryOk(e)
    ensures SameOver(st, AppendActive(st, e)) && (Computed(st.meta) ==> Computed(AppendActive(st, e).meta))
    ensures forall id :: AppendActive(st, e).meta.StatsOf(id).deleted == st.meta.StatsOf(id).deleted
  {
    hide LogOk;
    var p := Placed(End(st.Active()), e);
    assert (st.Active() + [p])[..|st.Active()|] == st.Active();
  }

  lemma {:induction false} AppendManyTotals(st: Store, es: seq<Entry>)
    requires Shape(st) && forall i :: 0 <= i < |es| ==> EntryOk(es[i])
    ensures var s := AppendMany(st, es);
            && SameOver(st, s) && (Computed(st.meta) ==> Computed(s.meta))
            && LogsGrown(st.logs, st.meta.active, s.logs, s.meta.active)
            && forall id :: s.meta.StatsOf(id).deleted == st.meta.StatsOf(id).deleted
  {
    hide Shape, Over, Computed, AppendEntry, EntryOk, LogsGrown;
    if es == [] {
      LogsGrownSelf(st.logs, st.meta.active);
    } else {
      var n := |es| - 1;
      var a, s := AppendMany(st, es[..n]), AppendMany(st, es);
      AppendManyTotals(st, es[..n]);
      AppendManyFacts(st, es[..n]);
      AppendTotals(a, es[n]);
      LogsGrownTrans(st.logs, st.meta.active, a.logs, a.meta.active, s.logs, s.meta.active);
    }
  }

  /** Watermark updates count nothing. */
  lemma {:induction false} MarkAllBooks(st: Store, recs: seq<IndexRecord>)
    ensures var s := MarkAll(st, recs);
            && s.logs == st.logs && s.index == st.index && (Computed(st.meta) ==> Computed(s.meta))
            && forall id :: s.meta.StatsOf(id).deleted == st.meta.StatsOf(id).deleted
                            && s.meta.StatsOf(id).total == st.meta.StatsOf(id).total
  {
    if recs != [] {
      MarkAllBooks(st, recs[..|recs| - 1]);
    }
  }

  lemma CommitBooks(s: Store, recs: seq<IndexRecord>)
    ensures Covers(s.logs, InsertAll(s.index, recs), s.meta) ==>
      Covers(CommitBatch(s, recs).logs, CommitBatch(s, recs).index, CommitBatch(s, recs).meta)
    ensures SameOver(s, CommitBatch(s, recs)) && (Computed(s.meta) ==> Computed(CommitBatch(s, recs).meta))
  {
    hide MarkAll, InsertAll, LiveBytes, Computed, DataBytes;
    MarkAllBooks(s.(index := InsertAll(s.index, recs), saved := s.meta), recs);
  }

  // ------------------------------------------------------------------------ puts

  /** Where a batch puts its entries nothing was before. */
  lemma {:induction false} RecordsBeyond(st: Store, es: seq<Entry>, i: nat)
    requires Shape(st) && i < |es| && forall n :: 0 <= n < |es| ==> EntryOk(es[n])
    ensures var r := AppendedRecords(st, es)[i];
            r.segmentId in st.logs ==> r.offset >= End(st.logs[r.segmentId])
  {
    hide Shape, EntryOk, AppendEntry, Appended;
    var n := |es| - 1;
    if i < n {
      RecordsBeyond(st, es[..n], i);
    } else {
      AppendManyFacts(st, es[..n]);
      AppendManyGrows(st, es[..n]);
      AppendedBeyond(st, AppendMany(st, es[..n]), es[n]);
    }
  }

  lemma {:induction false} AppendManyGrows(st: Store, es: seq<Entry>)
    requires Shape(st) && forall i :: 0 <= i < |es| ==> EntryOk(es[i])
    ensures LogsGrown(st.logs, st.meta.active, AppendMany(st, es).logs, AppendMany(st, es).meta.active)
  {
    hide Shape, AppendEntry, EntryOk, LogsGrown;
    if es == [] {
      LogsGrownSelf(st.logs, st.meta.active);
    } else {
      var n := |es| - 1;
      var a, s := AppendMany(st, es[..n]), AppendMany(st, es);
      AppendManyGrows(st, es[..n]);
      AppendManyFacts(st, es[..n]);
      AppendGrows(a, es[n]);
      LogsGrownTrans(st.logs, st.meta.active, a.logs, a.meta.active, s.logs, s.meta.active);
    }
  }

  lemma AppendGrows(s: Store, e: Entry)
    requires Shape(s)
    ensures LogsGrown(s.logs, s.meta.active, AppendEntry(s, e).logs, AppendEntry(s, e).meta.active)
  {
    hide Shape, LogsGrown, SealActive, AppendActive;
    var r := RollOver(s);
    SealShape(s);
    SealLogs(s);
    LogsGrownSelf(s.logs, s.meta.active);
    AppendActiveLogs(r, e);
    LogsGrownTrans(s.logs, s.meta.active, r.logs, r.meta.active, AppendActive(r, e).logs, AppendActive(r, e).meta.active);
  }

  lemma AppendedAt(s: Store, e: Entry)
    requires s.Ready()
    ensures var r := RollOver(s);
            Appended(AppendEntry(s, e)).segmentId == r.meta.active && Appended(AppendEntry(s, e)).offset == End(r.Active())
  {
  }

  lemma PrefixEnd(a: Log, b: Log)
    requires WellPlaced(b) && a <= b
    ensures End(a) <= End(b)
  {
    hide WellPlaced;
    if a != [] {
      Ordered(b, |a| - 1, |b|);
    }
  }

  lemma AppendedBeyond(st: Store, s: Store, e: Entry)
    requires Shape(st) && Shape(s) && LogsGrown(st.logs, st.meta.active, s.logs, s.meta.active)
    ensures var r := Appended(AppendEntry(s, e));
            r.segmentId in st.logs ==> r.offset >= End(st.logs[r.segmentId])
  {
    hide WellPlaced, AppendEntry, Appended, AppendActive;
    var r := RollOver(s);
    AppendedAt(s, e);
    var id := r.meta.active;
    if id in st.logs && id == s.meta.active {
      assert LogOk(s.logs[id]);
      PrefixEnd(st.logs[id], s.logs[id]);
    }
  }

  /** An old entry that is live after the batch was live before it. */
  lemma OldRows(st: Store, es: seq<Entry>, id: nat, p: Placed)
    requires Shape(st) && id in st.logs && p in st.logs[id] && forall i :: 0 <= i < |es| ==> EntryOk(es[i])
    requires Live(InsertAll(st.index, AppendedRecords(st, es)), id, p)
    ensures Live(st.index, id, p)
  {
    hide InsertAll, LastFor, AppendedRecords, AppendMany, EntryOk, WellPlaced;
    var recs, k := AppendedRecords(st, es), p.e.key;
    InsertAllAt(st.index, recs, k);
    LastForMember(recs, k);
    if LastFor(recs, k).Some? {
      var i :| 0 <= i < |recs| && recs[i] == LastFor(recs, k).value;
      RecordsBeyond(st, es, i);
      var log := st.logs[id];
      var m :| 0 <= m < |log| && log[m] == p;
      assert LogOk(log);
      Ordered(log, m, |log|);
    }
  }

  /** Growth keeps the books covered as long as no old entry becomes live. */
  lemma GrowthCovers(st: Store, s: Store, index: IndexMap, id: nat)
    requires Shape(st) && Covers(st.logs, st.index, st.meta) && SameOver(st, s) && id in s.logs
    requires LogsGrown(st.logs, st.meta.active, s.logs, s.meta.active)
    requires s.meta.StatsOf(id).deleted == st.meta.StatsOf(id).deleted
    requires forall p :: id in st.logs && p in st.logs[id] && Live(index, id, p) ==> Live(st.index, id, p)
    ensures LiveBytes(index, id, s.logs[id]) + s.meta.StatsOf(id).deleted <= s.meta.StatsOf(id).total
  {
    hide LogOk, LiveBytes, DataBytes, Live;
    var log, was := s.logs[id], LogIn(st.logs, id);
    var extra := log[|was|..];
    assert log == was + extra;
    assert Over(st, id) == Over(s, id);
    LiveAtMostData(index, id, was, extra);
    DataBytesConcat(was, extra);
    if id in st.logs {
      LiveMonotone(st.index, index, id, was);
    } else {
      LiveNone(index, id);
      NoData();
    }
  }

  /** `put_batch`, committed or rejected, and `put`, whatever the totals count. */
  lemma PutsCover(st: Store, es: seq<Entry>)
    requires Shape(st) && Covers(st.logs, st.index, st.meta) && forall i :: 0 <= i < |es| ==> EntryOk(es[i])
    ensures var s, recs := AppendMany(st, es), AppendedRecords(st, es);
      && Covers(s.logs, s.index, s.meta) && Covers(s.logs, InsertAll(s.index, recs), s.meta)
      && Covers(CommitBatch(s, recs).logs, CommitBatch(s, recs).index, CommitBatch(s, recs).meta)
  {
    hide Shape, LiveBytes, DataBytes, Live, InsertAll, AppendMany, AppendedRecords, EntryOk, CommitBatch, SameOver, Computed;
    var s, recs := AppendMany(st, es), AppendedRecords(st, es);
    AppendManyFacts(st, es);
    AppendManyTotals(st, es);
    forall id | id in s.logs
      ensures LiveBytes(st.index, id, s.logs[id]) + s.meta.StatsOf(id).deleted <= s.meta.StatsOf(id).total
      ensures LiveBytes(InsertAll(st.index, recs), id, s.logs[id]) + s.meta.StatsOf(id).deleted <= s.meta.StatsOf(id).total
    {
      forall p | id in st.logs && p in st.logs[id] && Live(InsertAll(st.index, recs), id, p)
        ensures Live(st.index, id, p)
      {
        OldRows(st, es, id, p);
      }
      GrowthCovers(st, s, st.index, id);
      GrowthCovers(st, s, InsertAll(st.index, recs), id);
    }
    CommitBooks(s, recs);
  }

  lemma PutsTotal(st: Store, es: seq<Entry>)
    requires Shape(st) && Totals(st.logs, st.meta) && forall i :: 0 <= i < |es| ==> EntryOk(es[i])
    ensures var s := AppendMany(st, es); var c := CommitBatch(s, AppendedRecords(st, es));
      Totals(s.logs, s.meta) && Totals(c.logs, c.meta)
  {
    hide Shape, Totals, Over, Computed, AppendMany, AppendedRecords, EntryOk, CommitBatch;
    MetaKeys(st);
    AppendManyTotals(st, es);
    CommitBooks(AppendMany(st, es), AppendedRecords(st, es));
    TotalsKept(st, AppendMany(st, es));
    TotalsKept(st, CommitBatch(AppendMany(st, es), AppendedRecords(st, es)));
  }

  /** `put_batch`, committed or rejected, and `put`. */
  lemma PutsBalance(st: Store, es: seq<Entry>)
    requires Shape(st) && BooksBalance(st) && forall i :: 0 <= i < |es| ==> EntryOk(es[i])
    ensures BooksBalance(AppendMany(st, es))
    ensures BooksBalance(CommitBatch(AppendMany(st, es), AppendedRecords(st, es)))
  {
    hide Shape, Covers, Totals, AppendMany, AppendedRecords, EntryOk, CommitBatch;
    PutsCover(st, es);
    PutsTotal(st, es);
  }

  // --------------------------------------------------------------------- deletes

  /** What the accounting of a batch of deletes adds to segment `id`. */
  function Counted(index: IndexMap, keys: seq<Key>, id: nat): nat {
    if keys == [] then 0
    else Counted(index, keys[..|keys| - 1], id) + RowBytes(index, keys[|keys| - 1], id)
  }

  /** The part of it that counts a key once more. */
  function Repeated(index: IndexMap, keys: seq<Key>, id: nat): (n: nat)
    ensures n <= Counted(index, keys, id)
  {
    if keys == [] then 0
    else
      var n := |keys| - 1;
      Repeated(index, keys[..n], id) + if keys[n] in keys[..n] then RowBytes(index, keys[n], id) else 0
  }

  lemma CountTotals(st: Store, k: Key)
    requires Lookup(st.index, k).Some? ==> Lookup(st.index, k).value.segmentId in st.meta.segments
    ensures var s := CountDeleted(st, k);
            && SameOver(st, s) && (Computed(st.meta) ==> Computed(s.meta))
            && forall id :: s.meta.StatsOf(id).deleted == st.meta.StatsOf(id).deleted + RowBytes(st.index, k, id)
  {
    hide DataBytes;
  }

  /** A visible row leads to a segment with statistics. */
  lemma RowHasStats(st: Store, view: View, s: Store, k: Key)
    requires Means(st.logs, st.index, view) && Shape(s) && Extends(st.logs, s.logs)
    ensures Lookup(st.index, k).Some? ==> Lookup(st.index, k).value.segmentId in s.meta.segments
  {
    hide LogOk;
  }

  lemma {:induction false} DeleteManyBooks(st: Store, view: View, keys: seq<Key>)
    requires Inv(st, view)
    ensures var s := DeleteMany(st, keys);
            && SameOver(st, s) && (Computed(st.meta) ==> Computed(s.meta))
            && LogsGrown(st.logs, st.meta.active, s.logs, s.meta.active)
            && forall id :: s.meta.StatsOf(id).deleted == st.meta.StatsOf(id).deleted + Counted(st.index, keys, id)
  {
    hide Shape, Means, Over, Computed, AppendEntry, CountDeleted, LogsGrown, RowBytes, Extends;
    if keys == [] {
      LogsGrownSelf(st.logs, st.meta.active);
    } else {
      var n := |keys| - 1;
      var b := DeleteMany(st, keys[..n]);
      var c, s := CountDeleted(b, keys[n]), DeleteMany(st, keys);
      DeleteManyBooks(st, view, keys[..n]);
      DeleteManyFacts(st, keys[..n]);
      AppendManyFacts(st, Tombstones(keys[..n]));
      RowHasStats(st, view, b, keys[n]);
      CountTotals(b, keys[n]);
      CountDeletedShape(b, keys[n]);
      TombstoneOk(keys[n]);
      AppendTotals(c, Tombstone(keys[n]));
      LogsGrownTrans(st.logs, st.meta.active, b.logs, b.meta.active, s.logs, s.meta.active);
    }
  }

  /** Hiding the keys of a batch takes what they count, each key once. */
  lemma {:induction false} LiveWithout(logs: map<nat, Log>, index: IndexMap, view: View, keys: seq<Key>, id: nat)
    requires Means(logs, index, view) && id in logs && WellPlaced(logs[id])
    ensures LiveBytes(index - (set k | k in keys), id, logs[id]) + Counted(index, keys, id) ==
            LiveBytes(index, id, logs[id]) + Repeated(index, keys, id)
  {
    hide LiveBytes, Means, WellPlaced, LiveSize;
    var log := logs[id];
    if keys == [] {
      assert index - (set k | k in keys) == index;
    } else {
      var n := |keys| - 1;
      var k, a := keys[n], index - (set d | d in keys[..n]);
      var b := index - (set d | d in keys);
      assert keys == keys[..n] + [k];
      LiveWithout(logs, index, view, keys[..n], id);
      if k in keys[..n] {
        assert a == b;
      } else {
        LiveHidden(a, b, id, log, k);
        LiveSizeSame(a, index, id, log, k);
        RowIsLive(logs, index, view, id, k);
      }
    }
  }

  lemma {:induction false} LiveSizeSame(a: IndexMap, b: IndexMap, id: nat, log: Log, k: Key)
    requires Lookup(a, k) == Lookup(b, k)
    ensures LiveSize(a, id, log, k) == LiveSize(b, id, log, k)
  {
    if log != [] {
      LiveSizeSame(a, b, id, log[..|log| - 1], k);
    }
  }

  lemma {:induction false} TombstonesAreDead(index: IndexMap, id: nat, log: Log, extra: Log)
    requires forall p :: p in extra ==> p.e.IsTombstone() && p.e.data == []
    ensures LiveBytes(index, id, log + extra) == LiveBytes(index, id, log) && DataBytes(extra) == 0
  {
    hide LiveBytes;
    if extra == [] {
      assert log + extra == log;
    } else {
      var n := |extra| - 1;
      assert extra[n] in extra && forall p :: p in extra[..n] ==> p in extra;
      TombstonesAreDead(index, id, log, extra[..n]);
      assert log + extra == log + extra[..n] + [extra[n]];
      LiveStep(index, id, log + extra[..n], extra[n]);
    }
  }

  /** What a batch adds to a log are its own entries. */
  lemma {:induction false} ExtraEntries(st: Store, es: seq<Entry>, id: nat, i: nat)
    requires Shape(st) && forall n :: 0 <= n < |es| ==> EntryOk(es[n])
    requires id in AppendMany(st, es).logs && (if id in st.logs then |st.logs[id]| else 0) <= i < |AppendMany(st, es).logs[id]|
    ensures AppendMany(st, es).logs[id][i].e in es
  {
    hide Shape, EntryOk, SealActive;
    var n := |es| - 1;
    var a := AppendMany(st, es[..n]);
    AppendManyFacts(st, es[..n]);
    assert es[n] in es && forall e :: e in es[..n] ==> e in es;
    RolledLogs(a);
    if id in a.logs && i < |a.logs[id]| {
      ExtraEntries(st, es[..n], id, i);
    }
  }

  lemma RolledLogs(a: Store)
    requires a.Ready()
    ensures forall id :: id in RollOver(a).logs ==>
              if id in a.logs && (id != a.meta.active + 1) then RollOver(a).logs[id] == a.logs[id]
              else RollOver(a).logs[id] == [] || (id in a.logs && RollOver(a).logs[id] == a.logs[id])
  {
  }

  lemma HiddenRows(index: IndexMap, recs: seq<IndexRecord>, keys: seq<Key>, k: Key)
    requires |recs| == |keys| && forall i :: 0 <= i < |keys| ==> recs[i].key == keys[i] && recs[i].IsTombstone()
    ensures Lookup(InsertAll(index, recs), k) == Lookup(index - (set d | d in keys), k)
  {
    hide InsertAll, LastFor;
    InsertAllAt(index, recs, k);
    LastForMember(recs, k);
    if k in keys {
      var i :| 0 <= i < |keys| && keys[i] == k;
      assert recs[i] in recs;
    }
  }

  /** A batch of deletes adds tombstones alone. */
  lemma ExtraTombstones(st: Store, keys: seq<Key>, id: nat)
    requires Shape(st) && id in DeleteMany(st, keys).logs
    ensures var log, was := DeleteMany(st, keys).logs[id], LogIn(st.logs, id);
      was <= log && log == was + log[|was|..] && forall p :: p in log[|was|..] ==> p.e.IsTombstone() && p.e.data == []
  {
    hide Shape, DeleteMany, AppendMany, AppendedRecords, PointsAt, Extends, LogsGrown;
    var es, s := Tombstones(keys), DeleteMany(st, keys);
    DeleteManyFacts(st, keys);
    AppendManyGrows(st, es);
    var log, was := s.logs[id], LogIn(st.logs, id);
    GrownPrefix(st, s, id);
    var extra := log[|was|..];
    forall p | p in extra
      ensures p.e.IsTombstone() && p.e.data == []
    {
      var i :| 0 <= i < |extra| && extra[i] == p;
      ExtraEntries(st, es, id, |was| + i);
    }
  }

  lemma DeletedTotal(st: Store, view: View, keys: seq<Key>, id: nat)
    requires Inv(st, view) && id in DeleteMany(st, keys).logs
    ensures var s := DeleteMany(st, keys);
      && s.meta.StatsOf(id).total == st.meta.StatsOf(id).total
      && s.meta.StatsOf(id).deleted == st.meta.StatsOf(id).deleted + Counted(st.index, keys, id)
  {
    hide Inv, DataBytes, DeleteMany, LogsGrown, Computed, LiveBytes, Counted;
    var s := DeleteMany(st, keys);
    DeleteManyBooks(st, view, keys);
    ExtraTombstones(st, keys, id);
    var log, was := s.logs[id], LogIn(st.logs, id);
    assert Over(st, id) == Over(s, id);
    TombstonesAreDead(st.index, id, was, log[|was|..]);
    DataBytesConcat(was, log[|was|..]);
  }

  /** Hiding the keys of a batch, its tombstones being dead. */
  lemma DeletedLive(st: Store, view: View, keys: seq<Key>, id: nat)
    requires Inv(st, view) && id in DeleteMany(st, keys).logs
    ensures var s, index := DeleteMany(st, keys), InsertAll(st.index, AppendedRecords(st, Tombstones(keys)));
      LiveBytes(index, id, s.logs[id]) == LiveBytes(st.index - (set d | d in keys), id, LogIn(st.logs, id))
  {
    hide Shape, Means, LiveBytes, DataBytes, InsertAll, DeleteMany, AppendedRecords, LogIn, Lookup;
    var es, s := Tombstones(keys), DeleteMany(st, keys);
    var index := InsertAll(st.index, AppendedRecords(st, es));
    ExtraTombstones(st, keys, id);
    var log, was := s.logs[id], LogIn(st.logs, id);
    TombstonesAreDead(index, id, was, log[|was|..]);
    forall k
      ensures Lookup(index, k) == Lookup(st.index - (set d | d in keys), k)
    {
      TombstoneRecords(st, keys);
      HiddenRows(st.index, AppendedRecords(st, es), keys, k);
    }
    LiveSame(index, st.index - (set d | d in keys), id, was);
  }

  /** One segment after a batch of deletes, exactly. */
  lemma DeletedSegment(st: Store, view: View, keys: seq<Key>, id: nat)
    requires Inv(st, view) && id in DeleteMany(st, keys).logs
    ensures var s, index := DeleteMany(st, keys), InsertAll(st.index, AppendedRecords(st, Tombstones(keys)));
            && s.meta.StatsOf(id).total == st.meta.StatsOf(id).total
            && s.meta.StatsOf(id).deleted == st.meta.StatsOf(id).deleted + Counted(st.index, keys, id)
            && (id in st.logs ==>
                  LiveBytes(index, id, s.logs[id]) + Counted(st.index, keys, id) ==
                  LiveBytes(st.index, id, st.logs[id]) + Repeated(st.index, keys, id))
            && (id !in st.logs ==> LiveBytes(index, id, s.logs[id]) == 0 == s.meta.StatsOf(id).deleted)
  {
    hide Shape, Means, LiveBytes, DataBytes, InsertAll, DeleteMany, AppendedRecords, Counted, Repeated;
    DeletedTotal(st, view, keys, id);
    DeletedLive(st, view, keys, id);
    if id in st.logs {
      ShapeLogs(st, id);
      LiveWithout(st.logs, st.index, view, keys, id);
    } else {
      LiveNone(st.index - (set d | d in keys), id);
      NothingCounted(st, view, keys, id);
    }
  }

  lemma GrownPrefix(st: Store, s: Store, id: nat)
    requires LogsGrown(st.logs, st.meta.active, s.logs, s.meta.active) && id in s.logs
    ensures id in st.logs ==> st.logs[id] <= s.logs[id]
  {
  }

  lemma TombstoneRecords(st: Store, keys: seq<Key>)
    requires Shape(st)
    ensures forall i :: 0 <= i < |keys| ==>
              var r := AppendedRecords(st, Tombstones(keys))[i]; r.key == keys[i] && r.IsTombstone()
  {
    hide Shape, AppendedRecords, AppendMany, Flat, Extends;
    var es := Tombstones(keys);
    AppendManyFacts(st, es);
    forall i | 0 <= i < |keys|
      ensures var r := AppendedRecords(st, es)[i]; r.key == keys[i] && r.IsTombstone()
    {
      PointsKey(AppendMany(st, es).logs, AppendedRecords(st, es)[i], es[i]);
    }
  }

  lemma {:induction false} NothingCounted(st: Store, view: View, keys: seq<Key>, id: nat)
    requires Inv(st, view) && id !in st.logs
    ensures Counted(st.index, keys, id) == 0 && st.meta.StatsOf(id) == NEW_STATS
  {
    hide LogOk;
    if keys != [] {
      NothingCounted(st, view, keys[..|keys| - 1], id);
    }
  }

  /**
   * Whatever the totals count: after a batch of deletes live plus deleted bytes are within the total if and only
   * if, in every segment, what its repeated keys count again still fits.
   */
  lemma DeletesCover(st: Store, view: View, keys: seq<Key>)
    requires Inv(st, view) && keys != []
    ensures var s := DeleteBatch(st, keys);
      Covers(s.logs, s.index, s.meta) <==>
            forall id :: id in st.logs ==>
              LiveBytes(st.index, id, st.logs[id]) + st.meta.StatsOf(id).deleted + Repeated(st.index, keys, id)
              <= st.meta.StatsOf(id).total
  {
    hide Inv, LiveBytes, DataBytes, InsertAll, DeleteMany, AppendMany, AppendedRecords, Counted, Repeated, MarkAll, SameOver, Computed;
    var s, recs := DeleteMany(st, keys), AppendedRecords(st, Tombstones(keys));
    var index := InsertAll(st.index, recs);
    DeleteManyFacts(st, keys);
    DeleteManyBooks(st, view, keys);
    MarkAllBooks(s.(index := index, saved := s.meta), recs);
    assert DeleteBatch(st, keys).logs == s.logs && DeleteBatch(st, keys).index == index;
    forall id | id in s.logs
      ensures LiveBytes(index, id, s.logs[id]) + s.meta.StatsOf(id).deleted <= s.meta.StatsOf(id).total <==>
              (id in st.logs ==>
                 LiveBytes(st.index, id, st.logs[id]) + st.meta.StatsOf(id).deleted + Repeated(st.index, keys, id)
                 <= st.meta.StatsOf(id).total)
    {
      DeletedSegment(st, view, keys, id);
    }
    forall id | id in st.logs
      ensures id in s.logs
    {
      GrownHas(st, s, id);
    }
  }

  lemma DeletesTotal(st: Store, view: View, keys: seq<Key>)
    requires Inv(st, view) && Totals(st.logs, st.meta)
    ensures Totals(DeleteBatch(st, keys).logs, DeleteBatch(st, keys).meta)
  {
    hide Shape, Means, Totals, Over, Computed, DeleteMany, AppendedRecords, CommitBatch;
    if keys != [] {
      MetaKeys(st);
      DeleteManyBooks(st, view, keys);
      CommitBooks(DeleteMany(st, keys), AppendedRecords(st, Tombstones(keys)));
      TotalsKept(st, DeleteBatch(st, keys));
    }
  }

  /**
   * A batch of deletes keeps the books balanced if and only if, in every segment, what its repeated keys count
   * again still fits.
   */
  lemma DeletesBalance(st: Store, view: View, keys: seq<Key>)
    requires Inv(st, view) && BooksBalance(st) && keys != []
    ensures BooksBalance(DeleteBatch(st, keys)) <==>
            forall id :: id in st.logs ==>
              LiveBytes(st.index, id, st.logs[id]) + st.meta.StatsOf(id).deleted + Repeated(st.index, keys, id)
              <= st.meta.StatsOf(id).total
  {
    hide Inv, LiveBytes, Covers, Totals, Repeated, DeleteBatch;
    DeletesCover(st, view, keys);
    DeletesTotal(st, view, keys);
  }

  lemma GrownHas(st: Store, s: Store, id: nat)
    requires LogsGrown(st.logs, st.meta.active, s.logs, s.meta.active) && id in st.logs
    ensures id in s.logs
  {
  }

  lemma {:induction false} NoneRepeated(index: IndexMap, keys: seq<Key>, id: nat)
    requires forall i, j :: 0 <= i < j < |keys| ==> keys[i] != keys[j]
    ensures Repeated(index, keys, id) == 0
  {
    if keys != [] {
      NoneRepeated(index, keys[..|keys| - 1], id);
    }
  }
}
