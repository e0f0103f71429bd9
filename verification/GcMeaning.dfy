/** What a collection does to the meaning of the store, also with writes between its phases. */
module GcMeaning {
  import opened Segment
  import opened SegmentLog
  import opened Index
  import opened BlobStore
  import opened StoreWrites
  import opened Gc

  /** Every row of `s1` into segment `t` is for a key that had a row into it in `s0`. */
  ghost predicate RowsFrom(s0: Store, s1: Store, t: nat) {
    forall k :: Lookup(s1.index, k).Some? && Lookup(s1.index, k).value.segmentId == t ==>
      Lookup(s0.index, k).Some? && Lookup(s0.index, k).value.segmentId == t
  }

  /**
   * `s1` is reachable from `s0` while segment `t` is being compacted: it is still there and sealed, and no key
   * came to have a row into it.
   */
  ghost predicate Later(s0: Store, s1: Store, t: nat)
    ensures Later(s0, s1, t) ==> RowsFrom(s0, s1, t) && t in s0.logs
  {
    t in s0.logs && t in s1.logs && t in s1.meta.segments && t != s1.meta.active && RowsFrom(s0, s1, t)
  }

  /** Phase 2 would remove a file that still holds live (empty) values. */
  predicate DropsLive(p: Prep) {
    p.log != [] && DataBytes(p.log) == 0
  }

  ghost predicate Keeps(p: Prep, k: Key) {
    exists e :: e in Entries(p.log) && e.key == k
  }

  lemma LaterSelf(cfg: Config, st: Store, view: View)
    requires Inv(st, view) && Prepare(cfg, st).Some?
    ensures Later(st, st, Prepare(cfg, st).value.seg)
  {
    hide Candidate, Compact, DeletedKeys, LogOk, Means;
  }

  // -------------------------------------------------------- meaning of Finish

  lemma InsertAllKeys(a: IndexMap, b: IndexMap, recs: seq<IndexRecord>)
    requires forall k :: k in a && k !in b ==> exists r :: r in recs && r.key == k
    requires forall k :: k in b ==> k in a && a[k] == b[k]
    ensures InsertAll(a, recs) == InsertAll(b, recs)
  {
    hide InsertAll, LastFor;
    var x, y := InsertAll(a, recs), InsertAll(b, recs);
    forall k: Key
      ensures k in x <==> k in y
      ensures k in x ==> x[k] == y[k]
    {
      InsertAllAt(a, recs, k);
      InsertAllAt(b, recs, k);
      LastForMember(recs, k);
    }
  }

  lemma ApplyAllKeys(a: View, b: View, es: seq<Entry>)
    requires forall k :: k in a && k !in b ==> exists e :: e in es && e.key == k
    requires forall k :: k in b ==> k in a && a[k] == b[k]
    ensures ApplyAll(a, es) == ApplyAll(b, es)
  {
    hide ApplyAll, LastEntry;
    var x, y := ApplyAll(a, es), ApplyAll(b, es);
    forall k: Key
      ensures k in x <==> k in y
      ensures k in x ==> x[k] == y[k]
    {
      ApplyAllAt(a, es, k);
      ApplyAllAt(b, es, k);
      LastEntryMember(es, k);
    }
  }

  /** A key is kept exactly when one of the new index rows is for it. */
  lemma KeptRecord(p: Prep, e: Entry)
    requires e in Entries(p.log)
    ensures exists r :: r in LogRecords(p.seg, p.log) && r.key == e.key
  {
    var i :| 0 <= i < |p.log| && Entries(p.log)[i] == e;
    assert LogRecords(p.seg, p.log)[i].key == e.key;
  }

  /** Rows outside the kept keys do not point into the compacted segment. */
  lemma OthersElsewhere(s0: Store, v0: View, s1: Store, p: Prep, k: Key)
    requires Inv(s0, v0) && p.seg in s0.logs && RowsFrom(s0, s1, p.seg)
    requires p.log == Compact(s0.index, p.seg, s0.logs[p.seg])
    requires Lookup(s1.index, k).Some? && !Keeps(p, k)
    ensures Lookup(s1.index, k).value.segmentId != p.seg
  {
    hide Compact, Inv;
    if Lookup(s1.index, k).value.segmentId == p.seg {
      CurrentIsKept(s0, v0, p.seg, k);
    }
  }

  /** The logs are those of `s1` but for the compacted segment, which is there when anything was kept. */
  ghost predicate Replaces(logs: map<nat, Log>, s1: Store, p: Prep) {
    && (forall id :: id in s1.logs && id != p.seg ==> id in logs && logs[id] == s1.logs[id])
    && (p.log != [] ==> p.seg in logs && logs[p.seg] == p.log)
  }

  /**
   * With the file replaced and the index redirected, every kept entry is applied on top of whatever the store
   * means by then.
   */
  lemma RedirectMeans(s0: Store, v0: View, s1: Store, v1: View, p: Prep, logs: map<nat, Log>)
    requires Inv(s0, v0) && Inv(s1, v1) && p.seg in s0.logs && RowsFrom(s0, s1, p.seg) && Replaces(logs, s1, p)
    requires p.log == Compact(s0.index, p.seg, s0.logs[p.seg])
    ensures Means(logs, InsertAll(s1.index, LogRecords(p.seg, p.log)), ApplyAll(v1, Entries(p.log)))
  {
    hide InsertAll, ApplyAll, Compact, Shape, RowsFrom;
    var es, recs := Entries(p.log), LogRecords(p.seg, p.log);
    var index := map k | k in s1.index && !Keeps(p, k) :: s1.index[k];
    var view := map k | k in v1 && !Keeps(p, k) :: v1[k];
    assert Means(logs, index, view) by {
      RestMeans(s0, v0, s1, v1, p, logs, index, view);
    }
    forall i | 0 <= i < |recs|
      ensures PointsAt(logs, recs[i], es[i])
    {
      assert p.log[i] in p.log && p.log != [];
    }
    InsertAllMeans(logs, index, view, recs, es);
    forall k | k in s1.index && k !in index
      ensures exists r :: r in recs && r.key == k
    {
      var e :| e in es && e.key == k;
      KeptRecord(p, e);
    }
    InsertAllKeys(s1.index, index, recs);
    ApplyAllKeys(v1, view, es);
  }

  lemma RestMeans(s0: Store, v0: View, s1: Store, v1: View, p: Prep, logs: map<nat, Log>, index: IndexMap, view: View)
    requires Inv(s0, v0) && Inv(s1, v1) && p.seg in s0.logs && RowsFrom(s0, s1, p.seg) && Replaces(logs, s1, p)
    requires p.log == Compact(s0.index, p.seg, s0.logs[p.seg])
    requires index == map k | k in s1.index && !Keeps(p, k) :: s1.index[k]
    requires view == map k | k in v1 && !Keeps(p, k) :: v1[k]
    ensures Means(logs, index, view)
  {
    hide Compact, Keeps, Shape;
    forall k | Lookup(index, k).Some?
      ensures Lookup(index, k) == Lookup(s1.index, k) && Lookup(index, k).value.segmentId != p.seg && k in view
    {
      OthersElsewhere(s0, v0, s1, p, k);
    }
  }

  /** Phase 2, when the file it leaves behind is not dropped. */
  lemma FinishMeans(s0: Store, v0: View, s1: Store, v1: View, p: Prep)
    requires Inv(s0, v0) && Inv(s1, v1) && p.seg in s0.logs && RowsFrom(s0, s1, p.seg)
    requires p.log == Compact(s0.index, p.seg, s0.logs[p.seg]) && p.deletedKeys == [] && !DropsLive(p)
    ensures Means(Finish(s1, p).logs, Finish(s1, p).index, ApplyAll(v1, Entries(p.log)))
  {
    hide InsertAll, ApplyAll, Compact, Shape, Means, RowsFrom;
    FinishIs(s1, p);
    RedirectMeans(s0, v0, s1, v1, p, Finish(s1, p).logs);
  }

  lemma FinishIs(s1: Store, p: Prep)
    requires p.deletedKeys == []
    ensures Finish(s1, p).index == InsertAll(s1.index, LogRecords(p.seg, p.log))
    ensures Finish(s1, p).logs == if DataBytes(p.log) == 0 then s1.logs - {p.seg} else s1.logs[p.seg := p.log]
  {
    hide InsertAll, DataBytes;
    assert (set k | k in p.deletedKeys) == {};
  }

  lemma FinishShape(s1: Store, p: Prep)
    requires Shape(s1) && p.seg in s1.logs && p.seg in s1.meta.segments && p.seg != s1.meta.active
    requires LogOk(p.log)
    ensures Shape(Finish(s1, p))
  {
    hide LogOk;
  }
}
