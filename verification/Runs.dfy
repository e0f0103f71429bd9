/** Whole runs of the store against a plain map from keys to values (engine.rs). */
module Runs {
  import opened Words
  import opened Compression
  import opened Segment
  import opened Index
  import opened BlobStore
  import opened StoreWrites
  import opened Gc
  import opened GcMeaning
  import opened GcTransparency
  import opened Reads

  datatype Item = Item(key: Key, value: Bytes, codec: Codec)

  datatype Op =
    | Put(item: Item)
    | Delete(key: Key)
    | PutBatch(items: seq<Item>)
    | DeleteKeys(keys: seq<Key>)
    | Seal
    | Flush
    | Gc

  /** How many items `put_batch` appends before the first oversized value. */
  function Accepted(items: seq<Item>): (n: nat)
    ensures n <= |items| && forall i :: 0 <= i < n ==> |items[i].value| <= MAX_VALUE_SIZE
    ensures n < |items| ==> |items[n].value| > MAX_VALUE_SIZE
  {
    if items == [] then 0
    else
      var last := |items| - 1;
      var n := Accepted(items[..last]);
      if n == last && |items[last].value| <= MAX_VALUE_SIZE then n + 1 else n
  }

  function PackAll(lib: Lib, cfg: Config, items: seq<Item>): (es: seq<Entry>)
    requires forall i :: 0 <= i < |items| ==> |items[i].value| <= MAX_VALUE_SIZE
    ensures |es| == |items| && forall i :: 0 <= i < |es| ==> EntryOk(es[i])
    ensures forall i :: 0 <= i < |es| ==> es[i] == Pack(lib, cfg, items[i].key, items[i].value, items[i].codec)
  {
    seq(|items|, i requires 0 <= i < |items| => Pack(lib, cfg, items[i].key, items[i].value, items[i].codec))
  }

  lemma WriteOneShape(st: Store, e: Entry)
    requires Shape(st) && EntryOk(e)
    ensures Shape(WriteOne(st, e))
  {
    hide AppendEntry, Shape, Mark, Appended, Extends, PointsAt;
    var a := AppendEntry(st, e);
    AppendShape(st, e);
    ShapeIgnoresIndex(a, a.index[e.key := Appended(a)], a.saved);
    MarkShape(a.(index := a.index[e.key := Appended(a)]), Appended(a));
  }

  lemma CommitShape(s: Store, recs: seq<IndexRecord>)
    requires Shape(s)
    ensures Shape(CommitBatch(s, recs))
  {
    hide Shape, InsertAll, MarkAll;
    ShapeIgnoresIndex(s, InsertAll(s.index, recs), s.meta);
    MarkAllShape(s.(index := InsertAll(s.index, recs), saved := s.meta), recs);
  }

  lemma CollectShape(cfg: Config, st: Store)
    requires Shape(st)
    ensures Shape(Collect(cfg, st))
  {
    hide Candidate, Compact, DeletedKeys, LogOk, Finish;
    if Prepare(cfg, st).Some? {
      var p := Prepare(cfg, st).value;
      CompactOk(st.index, p.seg, st.logs[p.seg]);
      FinishShape(st, p);
    }
  }

  function PutItem(lib: Lib, cfg: Config, st: Store, item: Item): Store
    requires st.Ready()
  {
    if |item.value| > MAX_VALUE_SIZE then st
    else WriteOne(st, Pack(lib, cfg, item.key, item.value, item.codec))
  }

  /** All or, after an oversized value, the appends alone. */
  function PutItems(lib: Lib, cfg: Config, st: Store, items: seq<Item>): Store
    requires st.Ready()
  {
    var n := Accepted(items);
    var es := PackAll(lib, cfg, items[..n]);
    if n < |items| || items == [] then AppendMany(st, es)
    else CommitBatch(AppendMany(st, es), AppendedRecords(st, es))
  }

  function DeleteOne(st: Store, k: Key): Store
    requires st.Ready()
  {
    WriteOne(CountDeleted(st, k), Tombstone(k))
  }

  lemma StepShape(lib: Lib, cfg: Config, st: Store, op: Op)
    requires Shape(st)
    ensures match op
            case Put(item) => Shape(PutItem(lib, cfg, st, item))
            case Delete(k) => Shape(DeleteOne(st, k))
            case PutBatch(items) => Shape(PutItems(lib, cfg, st, items))
            case DeleteKeys(keys) => Shape(DeleteBatch(st, keys))
            case Seal => Shape(SealActive(st))
            case Flush => Shape(st.(saved := st.meta))
            case Gc => Shape(Collect(cfg, st))
  {
    hide Shape, Collect, SealActive, WriteOne, CommitBatch, AppendMany, AppendedRecords, Pack, CountDeleted, DeleteMany;
    match op
    case Put(item) =>
      if |item.value| <= MAX_VALUE_SIZE {
        PackOk(lib, cfg, item);
        WriteOneShape(st, Pack(lib, cfg, item.key, item.value, item.codec));
      }
    case Delete(k) =>
      CountDeletedShape(st, k);
      WriteOneShape(CountDeleted(st, k), Tombstone(k));
    case PutBatch(items) =>
      var es := PackAll(lib, cfg, items[..Accepted(items)]);
      AppendManyFacts(st, es);
      CommitShape(AppendMany(st, es), AppendedRecords(st, es));
    case DeleteKeys(keys) =>
      DeleteManyFacts(st, keys);
      CommitShape(DeleteMany(st, keys), AppendedRecords(st, Tombstones(keys)));
    case Seal =>
      SealShape(st);
    case Flush =>
      ShapeIgnoresIndex(st, st.index, st.meta);
    case Gc =>
      CollectShape(cfg, st);
  }

  lemma PackOk(lib: Lib, cfg: Config, item: Item)
    requires |item.value| <= MAX_VALUE_SIZE
    ensures EntryOk(Pack(lib, cfg, item.key, item.value, item.codec))
  {
  }

  ghost function Step(lib: Lib, cfg: Config, st: Store, op: Op): (s: Store)
    requires Shape(st)
    ensures Shape(s)
  {
    StepShape(lib, cfg, st, op);
    match op
    case Put(item) => PutItem(lib, cfg, st, item)
    case Delete(k) => DeleteOne(st, k)
    case PutBatch(items) => PutItems(lib, cfg, st, items)
    case DeleteKeys(keys) => DeleteBatch(st, keys)
    case Seal => SealActive(st)
    case Flush => st.(saved := st.meta)
    case Gc => Collect(cfg, st)
  }

  ghost function Run(lib: Lib, cfg: Config, st: Store, ops: seq<Op>): (s: Store)
    requires Shape(st)
    ensures Shape(s)
  {
    if ops == [] then st else Step(lib, cfg, Run(lib, cfg, st, ops[..|ops| - 1]), ops[|ops| - 1])
  }

  // --------------------------------------------------------------- the model

  type Model = map<Key, Bytes>

  function PutInto(model: Model, items: seq<Item>): Model {
    if items == [] then model
    else PutInto(model, items[..|items| - 1])[items[|items| - 1].key := items[|items| - 1].value]
  }

  /** What an operation promises its caller. */
  function Effect(model: Model, op: Op): Model {
    match op
    case Put(item) => if |item.value| <= MAX_VALUE_SIZE then model[item.key := item.value] else model
    case Delete(k) => model - {k}
    case PutBatch(items) => if Accepted(items) == |items| then PutInto(model, items) else model
    case DeleteKeys(keys) => model - (set k | k in keys)
    case Seal => model
    case Flush => model
    case Gc => model
  }

  function Effects(model: Model, ops: seq<Op>): Model {
    if ops == [] then model else Effect(Effects(model, ops[..|ops| - 1]), ops[|ops| - 1])
  }

  /** No collection in the run drops the file of live empty values. */
  ghost predicate GcSafe(lib: Lib, cfg: Config, st: Store, ops: seq<Op>)
    requires Shape(st)
  {
    forall i :: 0 <= i < |ops| && ops[i].Gc? ==>
      var p := Prepare(cfg, Run(lib, cfg, st, ops[..i]));
      p.Some? ==> !DropsLive(p.value)
  }

  // --------------------------------------------------------- batches and views

  lemma {:induction false} PackAllStands(lib: Lib, cfg: Config, view: View, model: Model, items: seq<Item>)
    requires Lawful(lib) && Stands(lib, view, model)
    requires forall i :: 0 <= i < |items| ==> |items[i].value| <= MAX_VALUE_SIZE
    ensures Stands(lib, ApplyAll(view, PackAll(lib, cfg, items)), PutInto(model, items))
  {
    hide Lawful, Stands, Pack, Apply;
    if items != [] {
      var n := |items| - 1;
      PackAllStands(lib, cfg, view, model, items[..n]);
      assert PackAll(lib, cfg, items)[..n] == PackAll(lib, cfg, items[..n]);
      PackStands(lib, cfg, ApplyAll(view, PackAll(lib, cfg, items[..n])), PutInto(model, items[..n]),
                 items[n].key, items[n].value, items[n].codec);
    }
  }

  lemma {:induction false} DeleteStands(lib: Lib, view: View, model: Model, keys: seq<Key>)
    requires Stands(lib, view, model)
    ensures Stands(lib, ApplyAll(view, Tombstones(keys)), model - (set k | k in keys))
  {
    var n := |keys| - 1;
    if keys == [] {
      assert model - (set k | k in keys) == model;
    } else {
      DeleteStands(lib, view, model, keys[..n]);
      assert Tombstones(keys)[..n] == Tombstones(keys[..n]);
      assert keys == keys[..n] + [keys[n]];
      assert model - (set k | k in keys) == model - (set k | k in keys[..n]) - {keys[n]};
    }
  }

  // ------------------------------------------------------------ every run

  /** One step keeps the invariant and does to the model what it promises. */
  lemma StepRefines(lib: Lib, cfg: Config, st: Store, view: View, model: Model, op: Op) returns (view': View)
    requires Lawful(lib) && Inv(st, view) && Stands(lib, view, model)
    requires op.Gc? && Prepare(cfg, st).Some? ==> !DropsLive(Prepare(cfg, st).value)
    ensures Inv(Step(lib, cfg, st, op), view') && Stands(lib, view', Effect(model, op))
  {
    hide Lawful, Shape, Means, Stands, Pack, WriteOne, CommitBatch, AppendMany, AppendedRecords,
      Collect, Prepare, DropsLive, CountDeleted, SealActive, DeleteBatch, ApplyAll, PutInto, EntryOk;
    match op
    case Put(item) =>
      view' := view;
      if |item.value| <= MAX_VALUE_SIZE {
        var e := Pack(lib, cfg, item.key, item.value, item.codec);
        PackStands(lib, cfg, view, model, item.key, item.value, item.codec);
        WriteOneInv(st, e, view);
        view' := Apply(view, e);
      }
    case Delete(k) =>
      CountDeletedInv(st, k, view);
      TombstoneOk(k);
      WriteOneInv(CountDeleted(st, k), Tombstone(k), view);
      view' := Apply(view, Tombstone(k));
      DeleteOneStands(lib, view, model, k);
    case PutBatch(items) =>
      var n := Accepted(items);
      var es := PackAll(lib, cfg, items[..n]);
      if n < |items| || items == [] {
        RejectedInv(st, es, view);
        view' := view;
        EmptyBatch(model, items);
      } else {
        assert items[..n] == items;
        BatchInv(st, es, view);
        PackAllStands(lib, cfg, view, model, items);
        view' := ApplyAll(view, es);
      }
    case DeleteKeys(keys) =>
      DeleteBatchInv(st, keys, view);
      DeleteStands(lib, view, model, keys);
      view' := ApplyAll(view, Tombstones(keys));
    case Seal =>
      SealInv(st, view);
      view' := view;
    case Flush =>
      ShapeIgnoresIndex(st, st.index, st.meta);
      view' := view;
    case Gc =>
      CollectInv(cfg, st, view);
      view' := view;
  }

  lemma TombstoneOk(k: Key)
    ensures EntryOk(Tombstone(k))
  {
  }

  lemma EmptyBatch(model: Model, items: seq<Item>)
    ensures items == [] ==> Effect(model, PutBatch(items)) == model
  {
  }

  lemma DeleteOneStands(lib: Lib, view: View, model: Model, k: Key)
    requires Stands(lib, view, model)
    ensures Stands(lib, Apply(view, Tombstone(k)), model - {k})
  {
  }

  lemma SealInv(st: Store, view: View)
    requires Inv(st, view)
    ensures Inv(SealActive(st), view)
  {
    hide LogOk;
    SealShape(st);
    ExtendsMeans(st.logs, SealActive(st).logs, st.index, view);
  }

  lemma {:induction false} RunRefines(lib: Lib, cfg: Config, st: Store, view: View, model: Model, ops: seq<Op>)
    returns (view': View)
    requires Lawful(lib) && Inv(st, view) && Stands(lib, view, model) && GcSafe(lib, cfg, st, ops)
    ensures Inv(Run(lib, cfg, st, ops), view') && Stands(lib, view', Effects(model, ops))
  {
    hide Lawful, Inv, Stands, Step, Effect, Prepare, DropsLive;
    view' := view;
    if ops != [] {
      var n := |ops| - 1;
      assert forall i :: 0 <= i < n ==> ops[..n][..i] == ops[..i];
      assert GcSafe(lib, cfg, st, ops[..n]);
      var v := RunRefines(lib, cfg, st, view, model, ops[..n]);
      view' := StepRefines(lib, cfg, Run(lib, cfg, st, ops[..n]), v, Effects(model, ops[..n]), ops[n]);
    }
  }

  /**
   * After any run from an empty store, each key reads as the last value put for
   * it, or as absent when it was last deleted or never written.
   */
  lemma EveryRunReadsLastWrite(lib: Lib, cfg: Config, ops: seq<Op>, k: Key)
    requires Lawful(lib) && GcSafe(lib, cfg, EMPTY, ops)
    ensures Get(lib, Run(lib, cfg, EMPTY, ops), k) ==
            var model := Effects(map[], ops);
            if k in model then Found(model[k]) else Absent
  {
    hide Lawful, Run, Get, Effects, GcSafe, Means, Shape;
    EmptyInv();
    var view := RunRefines(lib, cfg, EMPTY, map[], map[], ops);
    GetMeans(lib, Run(lib, cfg, EMPTY, ops), view, k);
  }

  // ------------------------------------------------- runs that are always safe

  ghost predicate NonEmptyPuts(op: Op) {
    match op
    case Put(item) => item.value != []
    case PutBatch(items) => forall i :: 0 <= i < |items| ==> items[i].value != []
    case _ => true
  }

  ghost predicate NonEmptyModel(model: Model) {
    forall k :: k in model ==> model[k] != []
  }

  lemma {:induction false} PutIntoNonEmpty(model: Model, items: seq<Item>)
    requires NonEmptyModel(model) && forall i :: 0 <= i < |items| ==> items[i].value != []
    ensures NonEmptyModel(PutInto(model, items))
  {
    if items != [] {
      PutIntoNonEmpty(model, items[..|items| - 1]);
    }
  }

  lemma {:induction false} EffectsNonEmpty(model: Model, ops: seq<Op>)
    requires NonEmptyModel(model) && forall i :: 0 <= i < |ops| ==> NonEmptyPuts(ops[i])
    ensures NonEmptyModel(Effects(model, ops))
  {
    if ops != [] {
      var n := |ops| - 1;
      EffectsNonEmpty(model, ops[..n]);
      if ops[n].PutBatch? {
        PutIntoNonEmpty(Effects(model, ops[..n]), ops[n].items);
      }
    }
  }

  /** A segment of non-empty live values is never dropped. */
  lemma NonEmptyKept(lib: Lib, cfg: Config, st: Store, view: View, model: Model)
    requires Lawful(lib) && Inv(st, view) && Stands(lib, view, model) && NonEmptyModel(model)
    requires Prepare(cfg, st).Some?
    ensures !DropsLive(Prepare(cfg, st).value)
  {
    hide Candidate, Shape, Means;
    var p := Prepare(cfg, st).value;
    if p.log != [] {
      var n := |p.log| - 1;
      assert Entries(p.log)[n] == p.log[n].e;
      KeptIsCurrent(st, view, p.seg, p.log[n].e);
    }
  }

  /** Runs that put only non-empty values never meet the condition that makes a collection lossy. */
  lemma {:induction false} NonEmptyRunsAreSafe(lib: Lib, cfg: Config, st: Store, view: View, model: Model, ops: seq<Op>)
    requires Lawful(lib) && Inv(st, view) && Stands(lib, view, model) && NonEmptyModel(model)
    requires forall i :: 0 <= i < |ops| ==> NonEmptyPuts(ops[i])
    ensures GcSafe(lib, cfg, st, ops)
  {
    hide Lawful, Inv, Stands, Prepare, DropsLive, NonEmptyPuts, NonEmptyModel, Effects, Run;
    forall i | 0 <= i < |ops|
      ensures var p := Prepare(cfg, Run(lib, cfg, st, ops[..i])); p.Some? ==> !DropsLive(p.value)
    {
      NonEmptyRunsAreSafe(lib, cfg, st, view, model, ops[..i]);
      var v := RunRefines(lib, cfg, st, view, model, ops[..i]);
      EffectsNonEmpty(model, ops[..i]);
      if Prepare(cfg, Run(lib, cfg, st, ops[..i])).Some? {
        NonEmptyKept(lib, cfg, Run(lib, cfg, st, ops[..i]), v, Effects(model, ops[..i]));
      }
    }
  }
}
