/** What the statistics of a segment say in every run, and when a new segment is begun (engine.rs, meta.rs). */
module Statistics {
  import opened Compression
  import opened Segment
  import opened SegmentLog
  import opened Index
  import opened BlobStore
  import opened StoreWrites
  import opened Gc
  import opened Runs
  import opened GcProgress

  /** The part of the data that is deleted. */
  function Share(deleted: nat, total: nat): real {
    if total == 0 then 0.0 else deleted as real / total as real
  }

  /** Exactly the segments before the active one are sealed, and every ratio is that of its counts. */
  ghost predicate Truthful(m: Meta) {
    forall id :: id in m.segments ==>
      && id <= m.active
      && (m.segments[id].isSealed <==> id != m.active)
      && m.segments[id].ratio == Share(m.segments[id].deleted, m.segments[id].total)
  }

  /** Every segment before the active one was filled. */
  ghost predicate Filled(st: Store) {
    forall id :: id in st.logs && id < st.meta.active ==> End(st.logs[id]) >= SEGMENT_MAX_SIZE
  }

  // ---------------------------------------------------------------- single steps

  lemma SealTruthful(st: Store)
    requires st.Ready() && Truthful(st.meta)
    ensures Truthful(SealActive(st).meta)
  {
    hide End;
  }

  lemma AppendTruthful(st: Store, e: Entry)
    requires st.Ready() && Truthful(st.meta)
    ensures Truthful(AppendEntry(st, e).meta)
  {
    hide End, SealActive;
    SealTruthful(st);
  }

  lemma MarkTruthful(st: Store, r: IndexRecord)
    requires Truthful(st.meta)
    ensures Truthful(Mark(st, r).meta) && Mark(st, r).logs == st.logs && Mark(st, r).meta.active == st.meta.active
  {
  }

  lemma CountTruthful(st: Store, k: Key)
    requires Truthful(st.meta)
    ensures Truthful(CountDeleted(st, k).meta)
  {
  }

  lemma AppendFills(st: Store, e: Entry)
    requires Shape(st) && Filled(st)
    ensures Filled(AppendEntry(st, e))
  {
    hide End, LogOk;
  }

  lemma CollectTruthful(cfg: Config, st: Store)
    requires Shape(st) && Truthful(st.meta)
    ensures Truthful(Collect(cfg, st).meta)
  {
    hide Compact, DeletedKeys, InsertAll, LogOk, DataBytes, Candidate;
  }

  // ---------------------------------------------------------------- loops

  lemma {:induction false} AppendsKeep(st: Store, es: seq<Entry>)
    requires Shape(st) && Truthful(st.meta) && forall i :: 0 <= i < |es| ==> EntryOk(es[i])
    ensures Truthful(AppendMany(st, es).meta) && (Filled(st) ==> Filled(AppendMany(st, es)))
  {
    hide AppendEntry, Shape, EntryOk;
    if es != [] {
      var n := |es| - 1;
      AppendsKeep(st, es[..n]);
      AppendManyFacts(st, es[..n]);
      AppendTruthful(AppendMany(st, es[..n]), es[n]);
      if Filled(st) {
        AppendFills(AppendMany(st, es[..n]), es[n]);
      }
    }
  }

  lemma {:induction false} DeletesKeep(st: Store, keys: seq<Key>)
    requires Shape(st) && Truthful(st.meta)
    ensures Truthful(DeleteMany(st, keys).meta) && (Filled(st) ==> Filled(DeleteMany(st, keys)))
  {
    hide AppendEntry, Shape, CountDeleted;
    if keys != [] {
      var n := |keys| - 1;
      var a := DeleteMany(st, keys[..n]);
      DeletesKeep(st, keys[..n]);
      DeleteManyFacts(st, keys[..n]);
      CountDeletedShape(a, keys[n]);
      CountTruthful(a, keys[n]);
      AppendTruthful(CountDeleted(a, keys[n]), Tombstone(keys[n]));
      if Filled(st) {
        AppendFills(CountDeleted(a, keys[n]), Tombstone(keys[n]));
      }
    }
  }

  lemma {:induction false} MarksKeep(st: Store, recs: seq<IndexRecord>)
    requires Truthful(st.meta)
    ensures var s := MarkAll(st, recs); Truthful(s.meta) && s.logs == st.logs && s.meta.active == st.meta.active
  {
    hide Mark;
    if recs != [] {
      MarksKeep(st, recs[..|recs| - 1]);
      MarkTruthful(MarkAll(st, recs[..|recs| - 1]), recs[|recs| - 1]);
    }
  }

  lemma WriteKeeps(st: Store, e: Entry)
    requires Shape(st) && Truthful(st.meta)
    ensures Truthful(WriteOne(st, e).meta) && (Filled(st) ==> Filled(WriteOne(st, e)))
  {
    hide AppendEntry, Shape, Mark, Appended;
    AppendTruthful(st, e);
    var a := AppendEntry(st, e);
    MarkTruthful(a.(index := a.index[e.key := Appended(a)]), Appended(a));
    if Filled(st) {
      AppendFills(st, e);
    }
  }

  lemma CommitKeeps(a: Store, recs: seq<IndexRecord>)
    requires Truthful(a.meta)
    ensures Truthful(CommitBatch(a, recs).meta) && (Filled(a) ==> Filled(CommitBatch(a, recs)))
  {
    hide MarkAll, InsertAll;
    MarksKeep(a.(index := InsertAll(a.index, recs), saved := a.meta), recs);
  }

  // ---------------------------------------------------------------- every run

  lemma StepKeeps(lib: Lib, cfg: Config, st: Store, op: Op)
    requires Shape(st) && Truthful(st.meta)
    ensures Truthful(Step(lib, cfg, st, op).meta)
    ensures Filled(st) && !op.Seal? && !op.Gc? ==> Filled(Step(lib, cfg, st, op))
  {
    hide Shape, Truthful, Filled, WriteOne, Pack, AppendMany, AppendedRecords, CommitBatch, DeleteMany, Collect, SealActive,
      Accepted, CountDeleted;
    match op
    case Put(item) =>
      if |item.value| <= MAX_VALUE_SIZE {
        WriteKeeps(st, Pack(lib, cfg, item.key, item.value, item.codec));
      }
    case Delete(k) =>
      CountDeletedShape(st, k);
      CountTruthful(st, k);
      CountFilled(st, k);
      WriteKeeps(CountDeleted(st, k), Tombstone(k));
    case PutBatch(items) =>
      var es := PackAll(lib, cfg, items[..Accepted(items)]);
      AppendsKeep(st, es);
      CommitKeeps(AppendMany(st, es), AppendedRecords(st, es));
    case DeleteKeys(keys) =>
      DeletesKeep(st, keys);
      CommitKeeps(DeleteMany(st, keys), AppendedRecords(st, Tombstones(keys)));
    case Seal =>
      SealTruthful(st);
    case Flush =>
      FlushFilled(st);
    case Gc =>
      CollectTruthful(cfg, st);
  }

  lemma CountFilled(st: Store, k: Key)
    ensures Filled(st) <==> Filled(CountDeleted(st, k))
  {
    hide End;
  }

  lemma FlushFilled(st: Store)
    ensures Filled(st) <==> Filled(st.(saved := st.meta))
  {
    hide End;
  }

  /** In every run exactly the segments before the active one are sealed, and every ratio is that of its counts. */
  lemma {:induction false} RunIsTruthful(lib: Lib, cfg: Config, ops: seq<Op>)
    ensures Truthful(Run(lib, cfg, EMPTY, ops).meta)
  {
    hide Step, Shape, Truthful;
    EmptyShape();
    if ops == [] {
      EmptyTruthful();
    } else {
      RunIsTruthful(lib, cfg, ops[..|ops| - 1]);
      StepKeeps(lib, cfg, Run(lib, cfg, EMPTY, ops[..|ops| - 1]), ops[|ops| - 1]);
    }
  }

  lemma EmptyShape()
    ensures Shape(EMPTY)
  {
    EmptyInv();
  }

  lemma EmptyTruthful()
    ensures Truthful(EMPTY.meta) && Filled(EMPTY)
  {
  }

  /** Without a request to seal and without collections, a new segment is begun only when the last is full. */
  lemma {:induction false} RunFillsSegments(lib: Lib, cfg: Config, ops: seq<Op>)
    requires forall i :: 0 <= i < |ops| ==> !ops[i].Seal? && !ops[i].Gc?
    ensures Filled(Run(lib, cfg, EMPTY, ops))
  {
    hide Step, Shape, Truthful, Filled;
    EmptyShape();
    if ops == [] {
      EmptyTruthful();
    } else {
      var n := |ops| - 1;
      RunFillsSegments(lib, cfg, ops[..n]);
      RunIsTruthful(lib, cfg, ops[..n]);
      StepKeeps(lib, cfg, Run(lib, cfg, EMPTY, ops[..n]), ops[n]);
    }
  }

  /** When a run is followed by collections until none is due, little of every earlier segment is deleted. */
  lemma RunThenCollected(lib: Lib, cfg: Config, ops: seq<Op>, id: nat)
    requires var st := Run(lib, cfg, EMPTY, ops);
      Prepare(cfg, st).None? && id in st.meta.segments && id != st.meta.active
    ensures var s := Run(lib, cfg, EMPTY, ops).meta.segments[id]; Share(s.deleted, s.total) < cfg.gcRatio
  {
    hide Run, Prepare;
    EmptyShape();
    RunIsTruthful(lib, cfg, ops);
    NothingLeft(cfg, Run(lib, cfg, EMPTY, ops), id);
  }
}
