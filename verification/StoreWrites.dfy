/** What each write does to the meaning of the store (engine.rs). */
module StoreWrites {
  import opened Segment
  import opened SegmentLog
  import opened Index
  import opened BlobStore

  lemma MarkShape(st: Store, r: IndexRecord)
    requires Shape(st)
    ensures Shape(Mark(st, r)) && Mark(st, r) == st.(meta := Mark(st, r).meta, saved := Mark(st, r).saved)
    ensures Mark(st, r).meta.active == st.meta.active
    ensures Mark(st, r).meta.segments.Keys == st.meta.segments.Keys
  {
    hide LogOk;
  }

  lemma {:induction false} MarkAllShape(st: Store, recs: seq<IndexRecord>)
    requires Shape(st)
    ensures Shape(MarkAll(st, recs))
    ensures MarkAll(st, recs) == st.(meta := MarkAll(st, recs).meta, saved := MarkAll(st, recs).saved)
    ensures MarkAll(st, recs).meta.active == st.meta.active
    ensures MarkAll(st, recs).meta.segments.Keys == st.meta.segments.Keys
  {
    hide Shape;
    if recs != [] {
      MarkAllShape(st, recs[..|recs| - 1]);
      MarkShape(MarkAll(st, recs[..|recs| - 1]), recs[|recs| - 1]);
    }
  }

  lemma CountDeletedInv(st: Store, k: Key, view: View)
    requires Inv(st, view)
    ensures Inv(CountDeleted(st, k), view)
  {
    hide LogOk, Means;
  }

  lemma PointsKey(logs: map<nat, Log>, r: IndexRecord, e: Entry)
    requires PointsAt(logs, r, e)
    ensures r.key == e.key && r.IsTombstone() == e.IsTombstone()
  {
  }

  /** Pointing one key at an entry in the logs applies that entry. */
  lemma InsertMeans(logs: map<nat, Log>, index: IndexMap, view: View, r: IndexRecord, e: Entry)
    requires Means(logs, index, view) && PointsAt(logs, r, e)
    ensures Means(logs, index[r.key := r], Apply(view, e))
  {
    hide PointsAt;
    PointsKey(logs, r, e);
    assert forall k :: k != r.key ==> Lookup(index[r.key := r], k) == Lookup(index, k);
  }

  lemma {:induction false} InsertAllMeans(logs: map<nat, Log>, index: IndexMap, view: View,
                                          recs: seq<IndexRecord>, es: seq<Entry>)
    requires Means(logs, index, view) && |recs| == |es|
    requires forall i :: 0 <= i < |recs| ==> PointsAt(logs, recs[i], es[i])
    ensures Means(logs, InsertAll(index, recs), ApplyAll(view, es))
  {
    hide PointsAt, Means;
    if recs != [] {
      var n := |recs| - 1;
      InsertAllMeans(logs, index, view, recs[..n], es[..n]);
      InsertMeans(logs, InsertAll(index, recs[..n]), ApplyAll(view, es[..n]), recs[n], es[n]);
    }
  }

  lemma PointsExtends(a: map<nat, Log>, b: map<nat, Log>, r: IndexRecord, e: Entry)
    requires Extends(a, b) && PointsAt(a, r, e)
    ensures PointsAt(b, r, e)
  {
  }

  lemma ExtendsTrans(a: map<nat, Log>, b: map<nat, Log>, c: map<nat, Log>)
    requires Extends(a, b) && Extends(b, c)
    ensures Extends(a, c)
  {
  }

  /** `put` after compression and `delete` after accounting: one entry is applied. */
  lemma WriteOneInv(st: Store, e: Entry, view: View)
    requires Inv(st, view) && EntryOk(e)
    ensures Inv(WriteOne(st, e), Apply(view, e))
    ensures WriteOne(st, e).History() == st.History() + [Appended(AppendEntry(st, e))]
  {
    hide AppendEntry, Shape, Means, Mark, Appended, Extends, PointsAt, Flat;
    var a := AppendEntry(st, e);
    AppendShape(st, e);
    AppendExtends(st, e);
    AppendHistory(st, e);
    ExtendsMeans(st.logs, a.logs, st.index, view);
    PointsKey(a.logs, Appended(a), e);
    InsertMeans(a.logs, st.index, view, Appended(a), e);
    var s := a.(index := a.index[e.key := Appended(a)]);
    ShapeIgnoresIndex(a, s.index, s.saved);
    MarkShape(s, Appended(a));
  }

  lemma ShapeIgnoresIndex(st: Store, index: IndexMap, saved: Meta)
    requires Shape(st)
    ensures Shape(st.(index := index, saved := saved))
  {
  }

  /** The append loop of a batch: the old meaning stands, and record `i` points at entry `i`. */
  lemma {:induction false} AppendManyFacts(st: Store, es: seq<Entry>)
    requires Shape(st) && forall i :: 0 <= i < |es| ==> EntryOk(es[i])
    ensures var s := AppendMany(st, es);
            && Shape(s) && Extends(st.logs, s.logs) && s.index == st.index
            && s.History() == st.History() + AppendedRecords(st, es)
            && forall i :: 0 <= i < |es| ==> PointsAt(s.logs, AppendedRecords(st, es)[i], es[i])
  {
    hide AppendEntry, Shape, Appended, Extends, PointsAt, Flat, EntryOk;
    if es == [] {
      ExtendsSelf(st.logs);
      assert st.History() + [] == st.History();
    } else {
      var n := |es| - 1;
      var a := AppendMany(st, es[..n]);
      var s := AppendMany(st, es);
      var recs := AppendedRecords(st, es[..n]);
      AppendManyFacts(st, es[..n]);
      AppendShape(a, es[n]);
      AppendExtends(a, es[n]);
      AppendHistory(a, es[n]);
      ExtendsTrans(st.logs, a.logs, s.logs);
      assert st.History() + recs + [Appended(s)] == st.History() + (recs + [Appended(s)]);
      forall i | 0 <= i < n
        ensures PointsAt(s.logs, recs[i], es[i])
      {
        PointsExtends(a.logs, s.logs, recs[i], es[..n][i]);
      }
    }
  }

  lemma ExtendsSelf(a: map<nat, Log>)
    ensures Extends(a, a)
  {
  }

  /** A committed batch applies its entries in order. */
  lemma BatchInv(st: Store, es: seq<Entry>, view: View)
    requires Inv(st, view) && forall i :: 0 <= i < |es| ==> EntryOk(es[i])
    ensures Inv(CommitBatch(AppendMany(st, es), AppendedRecords(st, es)), ApplyAll(view, es))
    ensures CommitBatch(AppendMany(st, es), AppendedRecords(st, es)).History() ==
            st.History() + AppendedRecords(st, es)
  {
    hide Shape, Means, PointsAt, AppendMany, AppendedRecords, Flat, EntryOk;
    AppendManyFacts(st, es);
    CommitInv(AppendMany(st, es), AppendedRecords(st, es), es, st.logs, view);
  }

  lemma CommitInv(s: Store, recs: seq<IndexRecord>, es: seq<Entry>, was: map<nat, Log>, view: View)
    requires Shape(s) && Extends(was, s.logs) && Means(was, s.index, view) && |recs| == |es|
    requires forall i :: 0 <= i < |es| ==> PointsAt(s.logs, recs[i], es[i])
    ensures Inv(CommitBatch(s, recs), ApplyAll(view, es))
    ensures CommitBatch(s, recs) == s.(index := InsertAll(s.index, recs), meta := CommitBatch(s, recs).meta,
                                       saved := CommitBatch(s, recs).saved)
    ensures CommitBatch(s, recs).meta.active == s.meta.active
  {
    hide Shape, Means, PointsAt, InsertAll, MarkAll;
    ExtendsMeans(was, s.logs, s.index, view);
    InsertAllMeans(s.logs, s.index, view, recs, es);
    ShapeIgnoresIndex(s, InsertAll(s.index, recs), s.meta);
    MarkAllShape(s.(index := InsertAll(s.index, recs), saved := s.meta), recs);
  }

  /** A rejected batch leaves entries on disk that nothing points at: the meaning stands. */
  lemma RejectedInv(st: Store, es: seq<Entry>, view: View)
    requires Inv(st, view) && forall i :: 0 <= i < |es| ==> EntryOk(es[i])
    ensures Inv(AppendMany(st, es), view)
  {
    hide Shape, Means, AppendMany, AppendedRecords, Flat, EntryOk;
    AppendManyFacts(st, es);
    ExtendsMeans(st.logs, AppendMany(st, es).logs, st.index, view);
  }

  // ----------------------------------------------------------------- deletes

  /** Appending looks only at the logs and the active segment. */
  lemma AppendCongruent(a: Store, b: Store, e: Entry)
    requires a.Ready() && a.logs == b.logs && a.meta.active == b.meta.active
    ensures AppendEntry(a, e).logs == AppendEntry(b, e).logs
    ensures AppendEntry(a, e).meta.active == AppendEntry(b, e).meta.active
  {
  }

  lemma {:induction false} DeleteManyFacts(st: Store, keys: seq<Key>)
    requires Shape(st)
    ensures var s, a := DeleteMany(st, keys), AppendMany(st, Tombstones(keys));
            Shape(s) && s.index == st.index && s.logs == a.logs && s.meta.active == a.meta.active
  {
    hide AppendEntry, Shape, CountDeleted;
    if keys != [] {
      var n := |keys| - 1;
      DeleteManyFacts(st, keys[..n]);
      assert Tombstones(keys)[..n] == Tombstones(keys[..n]);
      var b := DeleteMany(st, keys[..n]);
      var c := CountDeleted(b, keys[n]);
      CountDeletedShape(b, keys[n]);
      AppendShape(c, Tombstone(keys[n]));
      AppendExtends(c, Tombstone(keys[n]));
      AppendCongruent(c, AppendMany(st, Tombstones(keys[..n])), Tombstone(keys[n]));
    }
  }

  lemma CountDeletedShape(st: Store, k: Key)
    requires Shape(st)
    ensures Shape(CountDeleted(st, k))
  {
    hide LogOk;
  }

  function DeleteBatch(st: Store, keys: seq<Key>): Store
    requires st.Ready()
  {
    if keys == [] then st
    else CommitBatch(DeleteMany(st, keys), AppendedRecords(st, Tombstones(keys)))
  }

  lemma DeleteBatchInv(st: Store, keys: seq<Key>, view: View)
    requires Inv(st, view)
    ensures Inv(DeleteBatch(st, keys), ApplyAll(view, Tombstones(keys)))
    ensures DeleteBatch(st, keys).History() == st.History() + AppendedRecords(st, Tombstones(keys))
  {
    hide Shape, Means, AppendMany, AppendedRecords, Flat, DeleteMany, CommitBatch;
    var es := Tombstones(keys);
    DeleteManyFacts(st, keys);
    AppendManyFacts(st, es);
    if keys != [] {
      CommitInv(DeleteMany(st, keys), AppendedRecords(st, es), es, st.logs, view);
    } else {
      assert es == [];
    }
  }
}
