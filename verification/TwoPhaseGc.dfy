/** Writes that land between the two phases of a collection (engine.rs). */
module TwoPhaseGc {
  import opened Compression
  import opened Segment
  import opened SegmentLog
  import opened Index
  import opened BlobStore
  import opened StoreWrites
  import opened Gc
  import opened GcMeaning
  import opened GcTransparency
  import opened Reads
  import opened Runs

  /** Segment `t` is sealed: writes go elsewhere. */
  ghost predicate SealedHere(st: Store, t: nat) {
    t in st.logs && t in st.meta.segments && t < st.meta.active
  }

  lemma AppendElsewhere(st: Store, e: Entry, t: nat)
    requires Shape(st) && SealedHere(st, t)
    ensures var s := AppendEntry(st, e);
            && s.logs[t] == st.logs[t] && SealedHere(s, t) && s.index == st.index && Appended(s).segmentId > t
  {
    hide LogOk;
  }

  lemma {:induction false} AppendManyElsewhere(st: Store, es: seq<Entry>, t: nat)
    requires Shape(st) && SealedHere(st, t) && forall i :: 0 <= i < |es| ==> EntryOk(es[i])
    ensures var s := AppendMany(st, es);
            && SealedHere(s, t) && s.logs[t] == st.logs[t] && s.index == st.index
            && forall i :: 0 <= i < |es| ==> AppendedRecords(st, es)[i].segmentId > t
  {
    hide AppendEntry, Shape, Appended, SealedHere, EntryOk;
    if es != [] {
      var n := |es| - 1;
      AppendManyElsewhere(st, es[..n], t);
      AppendManyFacts(st, es[..n]);
      AppendElsewhere(AppendMany(st, es[..n]), es[n], t);
    }
  }

  /** Rows for segments other than `t` leave the visible rows into `t` a subset of what they were. */
  lemma InsertElsewhere(index: IndexMap, recs: seq<IndexRecord>, t: nat, k: Key)
    requires forall i :: 0 <= i < |recs| ==> recs[i].segmentId > t
    requires var r := Lookup(InsertAll(index, recs), k); r.Some? && r.value.segmentId == t
    ensures Lookup(InsertAll(index, recs), k) == Lookup(index, k)
  {
    hide InsertAll, LastFor;
    InsertAllAt(index, recs, k);
    LastForMember(recs, k);
  }

  lemma CommitLater(st: Store, s: Store, recs: seq<IndexRecord>, t: nat)
    requires Shape(st) && Shape(s) && SealedHere(st, t) && SealedHere(s, t)
    requires s.logs[t] == st.logs[t] && s.index == st.index
    requires forall i :: 0 <= i < |recs| ==> recs[i].segmentId > t
    ensures Later(st, CommitBatch(s, recs), t) && SealedHere(CommitBatch(s, recs), t)
  {
    hide InsertAll, MarkAll, Shape;
    var b := s.(index := InsertAll(s.index, recs), saved := s.meta);
    ShapeIgnoresIndex(s, b.index, b.saved);
    MarkAllShape(b, recs);
    forall k | Lookup(b.index, k).Some? && Lookup(b.index, k).value.segmentId == t
      ensures Lookup(b.index, k) == Lookup(st.index, k)
    {
      InsertElsewhere(st.index, recs, t, k);
    }
  }

  lemma WriteOneLater(st: Store, e: Entry, t: nat)
    requires Shape(st) && SealedHere(st, t) && EntryOk(e)
    ensures Later(st, WriteOne(st, e), t) && SealedHere(WriteOne(st, e), t)
  {
    hide AppendEntry, Shape, Mark, EntryOk;
    var a := AppendEntry(st, e);
    AppendElsewhere(st, e, t);
    AppendShape(st, e);
    var b := a.(index := a.index[e.key := Appended(a)]);
    ShapeIgnoresIndex(a, b.index, b.saved);
    MarkShape(b, Appended(a));
  }

  lemma LaterTrans(a: Store, b: Store, c: Store, t: nat)
    requires Later(a, b, t) && Later(b, c, t)
    ensures Later(a, c, t)
  {
  }

  /** No write touches a sealed segment or makes a row point into it. */
  lemma StepLater(lib: Lib, cfg: Config, st: Store, op: Op, t: nat)
    requires Shape(st) && SealedHere(st, t) && !op.Gc?
    ensures Later(st, Step(lib, cfg, st, op), t) && SealedHere(Step(lib, cfg, st, op), t)
  {
    hide Shape, WriteOne, CommitBatch, AppendMany, AppendedRecords, Pack, CountDeleted, DeleteMany, Later, EntryOk;
    LaterIdentity(st, t);
    match op
    case Put(item) =>
      if |item.value| <= MAX_VALUE_SIZE {
        PackOk(lib, cfg, item);
        WriteOneLater(st, Pack(lib, cfg, item.key, item.value, item.codec), t);
      }
    case Delete(k) =>
      var c := CountDeleted(st, k);
      CountDeletedShape(st, k);
      TombstoneOk(k);
      WriteOneLater(c, Tombstone(k), t);
      SameRows(st, c, t);
      LaterTrans(st, c, WriteOne(c, Tombstone(k)), t);
    case PutBatch(items) =>
      var es := PackAll(lib, cfg, items[..Accepted(items)]);
      AppendManyElsewhere(st, es, t);
      AppendManyFacts(st, es);
      SameRows(st, AppendMany(st, es), t);
      CommitLater(st, AppendMany(st, es), AppendedRecords(st, es), t);
    case DeleteKeys(keys) =>
      var es := Tombstones(keys);
      forall i | 0 <= i < |es| ensures EntryOk(es[i]) { TombstoneOk(keys[i]); }
      DeleteManyFacts(st, keys);
      DeleteManySealed(st, keys, t);
      AppendManyElsewhere(st, es, t);
      CommitLater(st, DeleteMany(st, keys), AppendedRecords(st, es), t);
    case Seal =>
      SealLater(st, t);
    case Flush =>
      SameRows(st, st.(saved := st.meta), t);
  }

  lemma LaterIdentity(st: Store, t: nat)
    requires SealedHere(st, t)
    ensures Later(st, st, t)
  {
  }

  lemma SameRows(st: Store, s: Store, t: nat)
    requires SealedHere(st, t) && SealedHere(s, t) && s.logs[t] == st.logs[t] && s.index == st.index
    ensures Later(st, s, t)
  {
  }

  lemma SealLater(st: Store, t: nat)
    requires Shape(st) && SealedHere(st, t)
    ensures Later(st, SealActive(st), t) && SealedHere(SealActive(st), t)
  {
    hide LogOk;
  }

  lemma {:induction false} DeleteManySealed(st: Store, keys: seq<Key>, t: nat)
    requires Shape(st) && SealedHere(st, t)
    ensures SealedHere(DeleteMany(st, keys), t) && DeleteMany(st, keys).logs[t] == st.logs[t]
  {
    hide AppendEntry, Shape, CountDeleted;
    if keys != [] {
      var n := |keys| - 1;
      DeleteManySealed(st, keys[..n], t);
      DeleteManyFacts(st, keys[..n]);
      var b := DeleteMany(st, keys[..n]);
      CountDeletedShape(b, keys[n]);
      AppendElsewhere(CountDeleted(b, keys[n]), Tombstone(keys[n]), t);
    }
  }

  lemma {:induction false} RunLater(lib: Lib, cfg: Config, st: Store, ops: seq<Op>, t: nat)
    requires Shape(st) && SealedHere(st, t) && forall i :: 0 <= i < |ops| ==> !ops[i].Gc?
    ensures Later(st, Run(lib, cfg, st, ops), t) && SealedHere(Run(lib, cfg, st, ops), t)
  {
    hide Shape, Step, Later, SealedHere;
    if ops == [] {
      LaterIdentity(st, t);
    } else {
      var n := |ops| - 1;
      RunLater(lib, cfg, st, ops[..n], t);
      StepLater(lib, cfg, Run(lib, cfg, st, ops[..n]), ops[n], t);
      LaterTrans(st, Run(lib, cfg, st, ops[..n]), Run(lib, cfg, st, ops), t);
    }
  }

  // ------------------------------------------------------ other collections between the phases

  /** A row of a kept entry is for a key whose row pointed into the segment. */
  lemma KeptRow(index: IndexMap, seg: nat, log: Log, r: IndexRecord)
    requires r in LogRecords(seg, Compact(index, seg, log))
    ensures Lookup(index, r.key).Some? && Lookup(index, r.key).value.segmentId == seg && r.segmentId == seg
  {
    hide Compact;
    var c := Compact(index, seg, log);
    var i :| 0 <= i < |c| && RecordOf(seg, c[i]) == r;
    assert Entries(c)[i] == c[i].e;
    CompactExact(index, seg, log, c[i].e);
  }

  /** A whole collection, of this or another segment, that does not remove segment `t`. */
  lemma CollectLater(cfg: Config, st: Store, t: nat)
    requires Shape(st) && SealedHere(st, t) && t in Collect(cfg, st).logs
    ensures Later(st, Collect(cfg, st), t) && SealedHere(Collect(cfg, st), t)
  {
    hide Candidate, Compact, DeletedKeys, LogOk, InsertAll, LastFor, DataBytes, LogRecords;
    LaterIdentity(st, t);
    if Prepare(cfg, st).Some? {
      var p, s := Prepare(cfg, st).value, Collect(cfg, st);
      var recs := LogRecords(p.seg, p.log);
      forall k | Lookup(s.index, k).Some? && Lookup(s.index, k).value.segmentId == t
        ensures Lookup(st.index, k).Some? && Lookup(st.index, k).value.segmentId == t
      {
        InsertAllAt(st.index, recs, k);
        LastForMember(recs, k);
        if LastFor(recs, k).Some? {
          KeptRow(st.index, p.seg, st.logs[p.seg], LastFor(recs, k).value);
        }
      }
    }
  }

  /** The segment is there after every operation of the run. */
  ghost predicate Stays(lib: Lib, cfg: Config, st: Store, ops: seq<Op>, t: nat)
    requires Shape(st)
  {
    forall n :: 0 <= n <= |ops| ==> t in Run(lib, cfg, st, ops[..n]).logs
  }

  lemma {:induction false} AnyRunLater(lib: Lib, cfg: Config, st: Store, ops: seq<Op>, t: nat)
    requires Shape(st) && SealedHere(st, t) && Stays(lib, cfg, st, ops, t)
    ensures Later(st, Run(lib, cfg, st, ops), t) && SealedHere(Run(lib, cfg, st, ops), t)
  {
    hide Shape, Step, Later, SealedHere;
    if ops == [] {
      LaterIdentity(st, t);
    } else {
      var n := |ops| - 1;
      assert forall m :: 0 <= m <= n ==> ops[..n][..m] == ops[..m];
      assert ops[..|ops|] == ops && t in Run(lib, cfg, st, ops[..|ops|]).logs;
      AnyRunLater(lib, cfg, st, ops[..n], t);
      AnyStepLater(lib, cfg, Run(lib, cfg, st, ops[..n]), ops[n], t);
      LaterTrans(st, Run(lib, cfg, st, ops[..n]), Run(lib, cfg, st, ops), t);
    }
  }

  lemma AnyStepLater(lib: Lib, cfg: Config, st: Store, op: Op, t: nat)
    requires Shape(st) && SealedHere(st, t) && t in Step(lib, cfg, st, op).logs
    ensures Later(st, Step(lib, cfg, st, op), t) && SealedHere(Step(lib, cfg, st, op), t)
  {
    hide Shape, Later, SealedHere, Collect, WriteOne, CommitBatch, AppendMany, AppendedRecords, Pack, CountDeleted, DeleteMany, SealActive;
    if op.Gc? {
      CollectLater(cfg, st, t);
    } else {
      StepLater(lib, cfg, st, op, t);
    }
  }

  /** Writes alone remove no segment. */
  lemma WritesStay(lib: Lib, cfg: Config, st: Store, ops: seq<Op>, t: nat)
    requires Shape(st) && SealedHere(st, t) && forall i :: 0 <= i < |ops| ==> !ops[i].Gc?
    ensures Stays(lib, cfg, st, ops, t)
  {
    hide Shape, Run;
    forall n | 0 <= n <= |ops| ensures t in Run(lib, cfg, st, ops[..n]).logs {
      RunLater(lib, cfg, st, ops[..n], t);
    }
  }

  /**
   * A collection whose phases are separated by any run of operations, other collections included even of the same
   * segment, as long as none removes it: transparent to that run if and only if it does not drop the file of live
   * values and every key it kept still reads as it did before.
   */
  lemma TransparentToWrites(lib: Lib, cfg: Config, st: Store, view: View, model: Model, ops: seq<Op>)
    requires Lawful(lib) && Inv(st, view) && Stands(lib, view, model)
    requires Prepare(cfg, st).Some? && GcSafe(lib, cfg, st, ops) && Stays(lib, cfg, st, ops, Prepare(cfg, st).value.seg)
    ensures var p, s1 := Prepare(cfg, st).value, Run(lib, cfg, st, ops);
            && Shape(Finish(s1, p))
            && ((forall k :: Get(lib, Finish(s1, p), k) == Get(lib, s1, k)) <==>
                !DropsLive(p) && (forall k :: Keeps(p, k) ==> Get(lib, s1, k) == Get(lib, st, k)))
  {
    hide Lawful, Means, Stands, Run, Effects, Get, Keeps, Later, Finish, DropsLive, Prepare, Stays, GcSafe;
    var p := Prepare(cfg, st).value;
    Prepared(cfg, st, view);
    ShapeSealed(st, p.seg);
    var v1 := RunRefines(lib, cfg, st, view, model, ops);
    AnyRunLater(lib, cfg, st, ops, p.seg);
    TwoPhaseTransparent(lib, cfg, st, view, Run(lib, cfg, st, ops), v1);
  }

  /**
   * When another collection has removed the segment in between, phase 2 puts the file and the rows of everything
   * phase 1 kept back, and the segment has no statistics any more.
   */
  lemma FinishRestores(cfg: Config, s0: Store, v0: View, s1: Store, v1: View)
    requires Inv(s0, v0) && Inv(s1, v1) && Prepare(cfg, s0).Some? && DataBytes(Prepare(cfg, s0).value.log) > 0
    requires Prepare(cfg, s0).value.seg !in s1.logs
    ensures var p := Prepare(cfg, s0).value; var s := Finish(s1, p);
      && p.seg in s.logs && s.logs[p.seg] == p.log && p.seg !in s.meta.segments
      && Means(s.logs, s.index, ApplyAll(v1, Entries(p.log)))
  {
    hide Prepare, InsertAll, ApplyAll, Compact, LogOk, DataBytes;
    var p := Prepare(cfg, s0).value;
    Prepared(cfg, s0, v0);
    NoRowsInto(s1, v1, p.seg);
    FinishMeans(s0, v0, s1, v1, p);
  }

  lemma NoRowsInto(s: Store, view: View, t: nat)
    requires Inv(s, view) && t !in s.logs
    ensures forall k :: Lookup(s.index, k).Some? ==> Lookup(s.index, k).value.segmentId != t
  {
    hide Shape;
  }

  lemma ShapeSealed(st: Store, t: nat)
    requires Shape(st) && t in st.logs && t in st.meta.segments && t != st.meta.active
    ensures SealedHere(st, t)
  {
  }

  // ------------------------------------------------- the disjoint-keys corollary

  ghost predicate Touches(op: Op, k: Key) {
    match op
    case Put(item) => item.key == k
    case Delete(d) => d == k
    case PutBatch(items) => exists i :: 0 <= i < |items| && items[i].key == k
    case DeleteKeys(keys) => k in keys
    case _ => false
  }

  lemma {:induction false} PutIntoOther(model: Model, items: seq<Item>, k: Key)
    requires forall i :: 0 <= i < |items| ==> items[i].key != k
    ensures (k in PutInto(model, items) <==> k in model) && (k in model ==> PutInto(model, items)[k] == model[k])
  {
    if items != [] {
      PutIntoOther(model, items[..|items| - 1], k);
    }
  }

  lemma {:induction false} EffectsOther(model: Model, ops: seq<Op>, k: Key)
    requires forall i :: 0 <= i < |ops| ==> !Touches(ops[i], k)
    ensures (k in Effects(model, ops) <==> k in model) && (k in model ==> Effects(model, ops)[k] == model[k])
  {
    if ops != [] {
      var n := |ops| - 1;
      EffectsOther(model, ops[..n], k);
      assert !Touches(ops[n], k);
      if ops[n].PutBatch? {
        PutIntoOther(Effects(model, ops[..n]), ops[n].items, k);
      }
    }
  }

  /** Writes whose keys are disjoint from the kept ones are always safe. */
  lemma DisjointWritesAreSafe(lib: Lib, cfg: Config, st: Store, view: View, model: Model, ops: seq<Op>, k: Key)
    requires Lawful(lib) && Inv(st, view) && Stands(lib, view, model)
    requires Prepare(cfg, st).Some? && !DropsLive(Prepare(cfg, st).value)
    requires GcSafe(lib, cfg, st, ops) && Stays(lib, cfg, st, ops, Prepare(cfg, st).value.seg)
    requires forall i, d :: 0 <= i < |ops| && Keeps(Prepare(cfg, st).value, d) ==> !Touches(ops[i], d)
    ensures var p, s1 := Prepare(cfg, st).value, Run(lib, cfg, st, ops);
            Shape(Finish(s1, p)) && Get(lib, Finish(s1, p), k) == Get(lib, s1, k)
  {
    hide Lawful, Means, Run, Effects, Get, Keeps, Finish, DropsLive, Prepare, Touches, Shape, Stays, GcSafe;
    var p, s1 := Prepare(cfg, st).value, Run(lib, cfg, st, ops);
    var v1 := RunRefines(lib, cfg, st, view, model, ops);
    forall d | Keeps(p, d)
      ensures Get(lib, s1, d) == Get(lib, st, d)
    {
      EffectsOther(model, ops, d);
      GetMeans(lib, s1, v1, d);
      GetMeans(lib, st, view, d);
    }
    TransparentToWrites(lib, cfg, st, view, model, ops);
  }
}
