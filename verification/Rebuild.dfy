/** Losing the index and rebuilding it from the segments (recovery.rs, gc.rs). */
module Rebuild {
  import opened Compression
  import opened Segment
  import opened SegmentLog
  import opened Index
  import opened BlobStore
  import opened StoreWrites
  import opened Gc
  import opened GcMeaning
  import opened GcTransparency
  import opened Recovery
  import opened Reads
  import opened Runs
  import opened Crash
  import opened Marks
  import opened Reopening
  import opened SingleWrites

  /** The index a rebuild produces. */
  function Rebuilt(st: Store): IndexMap {
    InsertAll(map[], st.History())
  }

  /** Rebuilding would give every lookup the answer it has now. */
  ghost predicate Fresh(st: Store) {
    forall k :: Lookup(Rebuilt(st), k) == Lookup(st.index, k)
  }

  /** Writes that index what they append keep the index rebuildable. */
  lemma WritesStayFresh(st: Store, s: Store, recs: seq<IndexRecord>)
    requires Fresh(st) && s.History() == st.History() + recs && s.index == InsertAll(st.index, recs)
    ensures Fresh(s)
  {
    hide Flat, InsertAll, LastFor;
    InsertAllConcat(map[], st.History(), recs);
    forall k: Key
      ensures Lookup(Rebuilt(s), k) == Lookup(s.index, k)
    {
      InsertAllAt(st.index, recs, k);
      InsertAllAt(Rebuilt(st), recs, k);
      assert Lookup(Rebuilt(st), k) == Lookup(st.index, k);
    }
  }

  // ---------------------------------------------------------------- collections

  /** The newest record of `k` is a tombstone in segment `t`, and before `t` its newest is a put. */
  ghost predicate Resurrected(st: Store, t: nat, k: Key) {
    var last, before := LastFor(st.History(), k), LastFor(Flat(st.logs, 0, t), k);
    && last.Some? && last.value.IsTombstone() && last.value.segmentId == t
    && before.Some? && !before.value.IsTombstone()
  }

  /** The history around segment `t`. */
  lemma HistoryAround(logs: map<nat, Log>, t: nat, active: nat, k: Key)
    requires t in logs && t <= active
    ensures var a, mid, b := Flat(logs, 0, t), LogRecords(t, logs[t]), Flat(logs, t + 1, active + 1);
            && LastFor(Flat(logs, 0, active + 1), k) ==
               (if LastFor(b, k).Some? then LastFor(b, k)
                else if LastFor(mid, k).Some? then LastFor(mid, k) else LastFor(a, k))
            && (LastFor(a, k).Some? ==> LastFor(a, k).value.segmentId < t)
            && (LastFor(mid, k).Some? ==> LastFor(mid, k).value.segmentId == t)
            && (LastFor(b, k).Some? ==> LastFor(b, k).value.segmentId > t)
  {
    hide Flat, LastFor;
    var a, mid, b := Flat(logs, 0, t), LogRecords(t, logs[t]), Flat(logs, t + 1, active + 1);
    FlatSplit(logs, 0, t, active + 1);
    FlatSplit(logs, t, t + 1, active + 1);
    FlatOne(logs, t);
    LastForConcat(a, mid + b, k);
    LastForConcat(mid, b, k);
    LastForMember(a, k);
    LastForMember(mid, k);
    LastForMember(b, k);
    if LastFor(a, k).Some? {
      FlatMember(logs, 0, t, LastFor(a, k).value);
    }
    if LastFor(b, k).Some? {
      FlatMember(logs, t + 1, active + 1, LastFor(b, k).value);
    }
  }

  /** The history after the collection: only the middle changed. */
  lemma CollectedHistory(st: Store, p: Prep, k: Key)
    requires p.seg in st.logs && p.seg <= st.meta.active && !DropsLive(p)
    ensures var a, mid, b := Flat(st.logs, 0, p.seg), LogRecords(p.seg, p.log), Flat(st.logs, p.seg + 1, st.meta.active + 1);
            LastFor(Finish(st, p).History(), k) ==
            if LastFor(b, k).Some? then LastFor(b, k)
            else if LastFor(mid, k).Some? then LastFor(mid, k) else LastFor(a, k)
  {
    hide Flat, LastFor;
    var s, t, active := Finish(st, p), p.seg, st.meta.active;
    FlatSplit(s.logs, 0, t, active + 1);
    FlatSplit(s.logs, t, t + 1, active + 1);
    FlatOne(s.logs, t);
    FlatSame(st.logs, s.logs, 0, t);
    FlatSame(st.logs, s.logs, t + 1, active + 1);
    var a, mid, b := Flat(st.logs, 0, t), LogRecords(t, p.log), Flat(st.logs, t + 1, active + 1);
    assert Flat(s.logs, t, t + 1) == mid;
    LastForConcat(a, mid + b, k);
    LastForConcat(mid, b, k);
  }

  lemma KeptRow(st: Store, view: View, p: Prep, k: Key)
    requires Inv(st, view) && p.seg in st.logs && p.log == Compact(st.index, p.seg, st.logs[p.seg])
    ensures LastFor(LogRecords(p.seg, p.log), k).Some? <==>
            Lookup(st.index, k).Some? && Lookup(st.index, k).value.segmentId == p.seg
    ensures LastFor(LogRecords(p.seg, p.log), k).Some? ==>
              !LastFor(LogRecords(p.seg, p.log), k).value.IsTombstone()
              && LastFor(LogRecords(p.seg, st.logs[p.seg]), k).Some?
  {
    hide LastFor, Compact, Shape;
    var recs := LogRecords(p.seg, p.log);
    LastForMember(recs, k);
    LastForMember(LogRecords(p.seg, st.logs[p.seg]), k);
    if LastFor(recs, k).Some? {
      var i :| 0 <= i < |recs| && recs[i] == LastFor(recs, k).value;
      var e := p.log[i].e;
      assert Entries(p.log)[i] == e;
      CompactExact(st.index, p.seg, st.logs[p.seg], e);
      var q :| q in st.logs[p.seg] && Live(st.index, p.seg, q) && q.e == e;
      var n :| 0 <= n < |st.logs[p.seg]| && st.logs[p.seg][n] == q;
      assert LogRecords(p.seg, st.logs[p.seg])[n].key == k;
    }
    if Lookup(st.index, k).Some? && Lookup(st.index, k).value.segmentId == p.seg {
      CurrentIsKept(st, view, p.seg, k);
      KeptRecord(p, view[k]);
    }
  }

  /** Key by key: a collection keeps the rebuilt lookup right unless it drops a tombstone that still shadows a put. */
  lemma RebuiltKey(cfg: Config, st: Store, view: View, k: Key)
    requires Inv(st, view) && Fresh(st) && Prepare(cfg, st).Some? && !DropsLive(Prepare(cfg, st).value)
    ensures var s := Collect(cfg, st);
            Lookup(Rebuilt(s), k) == Lookup(s.index, k) <==> !Resurrected(st, Prepare(cfg, st).value.seg, k)
  {
    hide Flat, InsertAll, LastFor, Shape, Means, Prepare, Compact, DropsLive, LogOk;
    var p := Prepare(cfg, st).value;
    var s, recs := Finish(st, p), LogRecords(p.seg, p.log);
    Prepared(cfg, st, view);
    ShapeBelow(st, p.seg);
    HistoryAround(st.logs, p.seg, st.meta.active, k);
    CollectedHistory(st, p, k);
    KeptRow(st, view, p, k);
    InsertAllAt(map[], st.History(), k);
    InsertAllAt(map[], s.History(), k);
    InsertAllAt(st.index, recs, k);
    assert Lookup(Rebuilt(st), k) == Lookup(st.index, k);
  }

  lemma ShapeBelow(st: Store, t: nat)
    requires Shape(st) && t in st.logs
    ensures t <= st.meta.active
  {
  }

  /**
   * After a collection the index is still rebuildable if and only if no key
   * loses its newest tombstone while a put of it survives in an earlier segment.
   */
  lemma CollectStaysFresh(cfg: Config, st: Store, view: View)
    requires Inv(st, view) && Fresh(st) && Prepare(cfg, st).Some? && !DropsLive(Prepare(cfg, st).value)
    ensures Fresh(Collect(cfg, st)) <==> forall k :: !Resurrected(st, Prepare(cfg, st).value.seg, k)
  {
    hide Lookup, Rebuilt, Collect, Prepare, Resurrected, DropsLive, Inv;
    var s, t := Collect(cfg, st), Prepare(cfg, st).value.seg;
    forall k: Key
      ensures Lookup(Rebuilt(s), k) == Lookup(s.index, k) <==> !Resurrected(st, t, k)
    {
      RebuiltKey(cfg, st, view, k);
    }
  }

  // ------------------------------------------------------------ rejected batches

  /**
   * A rejected batch is invisible while the process runs, but a rebuild sees
   * what it left: reads after a rebuild are the running reads if and only if
   * each key already read as the last rejected value left on disk for it.
   */
  lemma RejectedThenRebuilt(lib: Lib, st: Store, view: View, es: seq<Entry>)
    requires Inv(st, view) && Fresh(st) && forall i :: 0 <= i < |es| ==> EntryOk(es[i]) && !es[i].IsTombstone()
    ensures var s := AppendMany(st, es);
            && Shape(s) && Shape(s.(index := Rebuilt(s)))
            && (forall k :: Get(lib, s, k) == Get(lib, st, k))
            && ((forall k :: Get(lib, s.(index := Rebuilt(s)), k) == Get(lib, s, k)) <==>
                (forall k :: LastEntry(es, k).Some? ==> Get(lib, st, k) == Unpack(lib, LastEntry(es, k).value)))
  {
    hide Shape, Get, Unpack, AppendMany, AppendedRecords, Rebuilt, LastEntry, EntryOk;
    var s := AppendMany(st, es);
    RejectedInv(st, es, view);
    ShapeIgnoresIndex(s, Rebuilt(s), s.saved);
    forall k: Key
      ensures Get(lib, s, k) == Get(lib, st, k)
      ensures Get(lib, s.(index := Rebuilt(s)), k) ==
              if LastEntry(es, k).Some? then Unpack(lib, LastEntry(es, k).value) else Get(lib, st, k)
    {
      RejectedKey(lib, st, view, es, k);
    }
  }

  lemma RejectedKey(lib: Lib, st: Store, view: View, es: seq<Entry>, k: Key)
    requires Inv(st, view) && Fresh(st) && forall i :: 0 <= i < |es| ==> EntryOk(es[i]) && !es[i].IsTombstone()
    ensures var s := AppendMany(st, es);
            && Shape(s) && Shape(s.(index := Rebuilt(s))) && Get(lib, s, k) == Get(lib, st, k)
            && Get(lib, s.(index := Rebuilt(s)), k) ==
               if LastEntry(es, k).Some? then Unpack(lib, LastEntry(es, k).value) else Get(lib, st, k)
  {
    hide Shape, Get, Unpack, AppendMany, AppendedRecords, LastEntry, EntryOk, InsertAll, Flat, Means, PointsAt, Extends,
      ApplyAll;
    var s, recs := AppendMany(st, es), AppendedRecords(st, es);
    AppendManyFacts(st, es);
    RejectedInv(st, es, view);
    ShapeIgnoresIndex(s, Rebuilt(s), s.saved);
    ExtendsMeans(st.logs, s.logs, st.index, view);
    FreshMeans(s.logs, st.index, Rebuilt(st), view);
    InsertAllMeans(s.logs, Rebuilt(st), view, recs, es);
    InsertAllConcat(map[], st.History(), recs);
    GetMeans(lib, st, view, k);
    GetMeans(lib, s, view, k);
    GetMeans(lib, s.(index := Rebuilt(s)), ApplyAll(view, es), k);
    ApplyAllAt(view, es, k);
    LastEntryMember(es, k);
  }

  lemma FreshMeans(logs: map<nat, Log>, a: IndexMap, b: IndexMap, view: View)
    requires Means(logs, a, view) && forall k :: Lookup(b, k) == Lookup(a, k)
    ensures Means(logs, b, view)
  {
    hide PointsAt;
  }

  // ------------------------------------------------------------------- every run

  /** The step leaves no unindexed entry behind and drops no tombstone that still shadows a put. */
  ghost predicate Rebuildable(cfg: Config, st: Store, op: Op) {
    && (op.PutBatch? ==> Accepted(op.items) == |op.items|)
    && (op.Gc? && Prepare(cfg, st).Some? ==>
          !DropsLive(Prepare(cfg, st).value) && forall k :: !Resurrected(st, Prepare(cfg, st).value.seg, k))
  }

  lemma BatchStaysFresh(st: Store, view: View, es: seq<Entry>)
    requires Inv(st, view) && Fresh(st) && forall i :: 0 <= i < |es| ==> EntryOk(es[i])
    ensures Fresh(CommitBatch(AppendMany(st, es), AppendedRecords(st, es)))
  {
    hide Shape, Means, PointsAt, AppendMany, AppendedRecords, Flat, EntryOk, CommitBatch, Fresh, Extends;
    var s, recs := AppendMany(st, es), AppendedRecords(st, es);
    AppendManyFacts(st, es);
    BatchInv(st, es, view);
    CommitInv(s, recs, es, st.logs, view);
    WritesStayFresh(st, CommitBatch(s, recs), recs);
  }

  lemma DeletesStayFresh(st: Store, view: View, keys: seq<Key>)
    requires Inv(st, view) && Fresh(st)
    ensures Fresh(DeleteBatch(st, keys))
  {
    hide Shape, Means, PointsAt, AppendMany, AppendedRecords, Flat, CommitBatch, Fresh, Extends, DeleteMany;
    if keys != [] {
      var es := Tombstones(keys);
      var s, recs := DeleteMany(st, keys), AppendedRecords(st, es);
      DeleteManyFacts(st, keys);
      AppendManyFacts(st, es);
      DeleteBatchInv(st, keys, view);
      CommitInv(s, recs, es, st.logs, view);
      WritesStayFresh(st, CommitBatch(s, recs), recs);
    }
  }

  lemma SameLookups(st: Store, s: Store)
    requires Fresh(st) && s.History() == st.History() && s.index == st.index
    ensures Fresh(s)
  {
  }

  lemma StepStaysFresh(lib: Lib, cfg: Config, st: Store, view: View, op: Op)
    requires Inv(st, view) && Fresh(st) && Rebuildable(cfg, st, op)
    ensures Fresh(Step(lib, cfg, st, op))
  {
    hide Shape, Means, Fresh, AppendMany, AppendedRecords, CommitBatch, WriteOne, Pack, DeleteBatch, SealActive, EntryOk,
      Prepare, Resurrected, DropsLive, Finish, Flat;
    match op
    case Put(item) =>
      if |item.value| <= MAX_VALUE_SIZE {
        var e := Pack(lib, cfg, item.key, item.value, item.codec);
        PackOk(lib, cfg, item);
        WriteOneIsBatch(st, e);
        BatchStaysFresh(st, view, [e]);
      }
    case Delete(k) =>
      DeleteOneIsBatch(st, k);
      DeletesStayFresh(st, view, [k]);
    case PutBatch(items) =>
      if items == [] {
        AppendNone(st);
      } else {
        assert items[..|items|] == items;
        BatchStaysFresh(st, view, PackAll(lib, cfg, items));
      }
    case DeleteKeys(keys) =>
      DeletesStayFresh(st, view, keys);
    case Seal =>
      SealHistory(st);
      SealIndex(st);
      SameLookups(st, SealActive(st));
    case Flush =>
      SameLookups(st, st.(saved := st.meta));
    case Gc =>
      if Prepare(cfg, st).Some? {
        CollectStaysFresh(cfg, st, view);
      }
  }

  lemma AppendSaved(st: Store, e: Entry)
    requires Shape(st) && SavedOlder(st)
    ensures SavedOlder(AppendEntry(st, e))
  {
    hide LogOk;
  }

  lemma {:induction false} AppendManySaved(st: Store, es: seq<Entry>)
    requires Shape(st) && SavedOlder(st) && forall i :: 0 <= i < |es| ==> EntryOk(es[i])
    ensures SavedOlder(AppendMany(st, es))
  {
    hide Shape, SavedOlder, AppendEntry, EntryOk;
    if es != [] {
      AppendManyFacts(st, es[..|es| - 1]);
      AppendManySaved(st, es[..|es| - 1]);
      AppendSaved(AppendMany(st, es[..|es| - 1]), es[|es| - 1]);
    }
  }

  lemma CommitSaves(s: Store, recs: seq<IndexRecord>)
    ensures CommitBatch(s, recs).saved == CommitBatch(s, recs).meta
  {
    MarkAllSaved(s.(index := InsertAll(s.index, recs), saved := s.meta), recs);
  }

  lemma SavedIsOlder(s: Store)
    requires Shape(s) && s.saved == s.meta
    ensures SavedOlder(s)
  {
  }

  lemma StepSaved(lib: Lib, cfg: Config, st: Store, op: Op)
    requires Shape(st) && SavedOlder(st)
    ensures SavedOlder(Step(lib, cfg, st, op))
  {
    hide Shape, AppendMany, AppendedRecords, CommitBatch, Mark, Appended, Pack, DeleteMany, CountDeleted,
      EntryOk, Prepare, Flat, AppendEntry, SavedOlder;
    var s := Step(lib, cfg, st, op);
    if s.saved == s.meta {
      SavedIsOlder(s);
    }
    match op
    case Put(item) =>
      if |item.value| <= MAX_VALUE_SIZE {
        WriteOneSaves(st, Pack(lib, cfg, item.key, item.value, item.codec));
      }
    case Delete(k) =>
      WriteOneSaves(CountDeleted(st, k), Tombstone(k));
    case PutBatch(items) =>
      var es := PackAll(lib, cfg, items[..Accepted(items)]);
      AppendManySaved(st, es);
      CommitSaves(AppendMany(st, es), AppendedRecords(st, es));
    case DeleteKeys(keys) =>
      CommitSaves(DeleteMany(st, keys), AppendedRecords(st, Tombstones(keys)));
    case Seal => SealSaved(st);
    case Flush =>
    case Gc =>
  }

  lemma WriteOneSaves(st: Store, e: Entry)
    requires st.Ready()
    ensures WriteOne(st, e).saved == WriteOne(st, e).meta
  {
    hide AppendEntry, Appended;
  }

  lemma SealSaved(st: Store)
    requires Shape(st) && SavedOlder(st)
    ensures SavedOlder(SealActive(st))
  {
    hide LogOk;
  }

  ghost predicate RebuildableRun(lib: Lib, cfg: Config, st: Store, ops: seq<Op>)
    requires Shape(st)
  {
    forall i :: 0 <= i < |ops| ==> Rebuildable(cfg, Run(lib, cfg, st, ops[..i]), ops[i])
  }

  lemma {:induction false} RunStaysFresh(lib: Lib, cfg: Config, st: Store, view: View, model: Model, ops: seq<Op>)
    requires Lawful(lib) && Inv(st, view) && Stands(lib, view, model) && Fresh(st) && SavedOlder(st)
    requires RebuildableRun(lib, cfg, st, ops)
    ensures Fresh(Run(lib, cfg, st, ops)) && SavedOlder(Run(lib, cfg, st, ops)) && GcSafe(lib, cfg, st, ops)
  {
    hide Lawful, Inv, Stands, Fresh, SavedOlder, Step, Prepare, DropsLive, Resurrected, Effects;
    if ops != [] {
      var n := |ops| - 1;
      assert forall i :: 0 <= i < n ==> ops[..n][..i] == ops[..i];
      assert RebuildableRun(lib, cfg, st, ops[..n]);
      RunStaysFresh(lib, cfg, st, view, model, ops[..n]);
      var v := RunRefines(lib, cfg, st, view, model, ops[..n]);
      StepStaysFresh(lib, cfg, Run(lib, cfg, st, ops[..n]), v, ops[n]);
      StepSaved(lib, cfg, Run(lib, cfg, st, ops[..n]), ops[n]);
      assert forall i :: 0 <= i < n ==> ops[i] == ops[..n][i];
    }
  }

  /** Reopened without its index, the store opens and `k` reads as `result`. */
  ghost predicate ReadsAfterLoss(lib: Lib, st: Store, k: Key, result: GetResult)
    requires Shape(st)
  {
    var r := Reopen(lib.crc, DiskOf(lib.crc, st), true, st.meta.active + 1);
    && r.Opened? && Shape(Loaded(st.logs, r.disk))
    && Get(lib, Loaded(st.logs, r.disk), k) == result
  }

  /** Reopening a rebuildable store without its index gives back every read. */
  lemma RebuildKeepsReads(lib: Lib, st: Store, k: Key)
    requires Shape(st) && Fresh(st) && SavedOlder(st)
    ensures ReadsAfterLoss(lib, st, k, Get(lib, st, k))
  {
    hide Flat, InsertAll, Cuttable, EncodeLog, DecodeAt, Reopen, LogOk, Recoverable, Unpack;
    var disk := DiskOf(lib.crc, st);
    PlainDisk(lib.crc, st);
    ReopenRebuilds(lib.crc, disk, st.logs, st.meta.active);
    assert Lookup(Rebuilt(st), k) == Lookup(st.index, k);
  }

  lemma PlainDisk(crc: Crc, st: Store)
    requires Shape(st) && SavedOlder(st)
    ensures Recoverable(crc, DiskOf(crc, st), st.logs, st.meta.active)
  {
    hide *;
    NoTail(crc, st);
    DiskRecoverable(crc, st, []);
  }

  /**
   * Any run of such steps from a rebuildable store (the empty one is), then the
   * index is lost: every key still reads as the last write left it.
   */
  lemma LostIndexInRun(lib: Lib, cfg: Config, st: Store, view: View, model: Model, ops: seq<Op>, k: Key)
    requires Lawful(lib) && Inv(st, view) && Stands(lib, view, model) && Fresh(st) && SavedOlder(st)
    requires RebuildableRun(lib, cfg, st, ops)
    ensures var m := Effects(model, ops);
            ReadsAfterLoss(lib, Run(lib, cfg, st, ops), k, if k in m then Found(m[k]) else Absent)
  {
    hide *;
    RunStaysFresh(lib, cfg, st, view, model, ops);
    var v := RunRefines(lib, cfg, st, view, model, ops);
    GetMeans(lib, Run(lib, cfg, st, ops), v, k);
    StandsAt(lib, v, Effects(model, ops), k);
    RebuildKeepsReads(lib, Run(lib, cfg, st, ops), k);
  }
}
