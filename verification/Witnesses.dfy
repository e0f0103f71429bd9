/**
 * Short runs in which a promise of the store fails: each one is an instance of the exact condition stated
 * with the operation it concerns (engine.rs, gc.rs).
 */
module Witnesses {
  import opened Words
  import opened Compression
  import opened Segment
  import opened SegmentLog
  import opened Index
  import opened BlobStore
  import opened Gc
  import opened GcMeaning
  import opened GcTransparency
  import opened Reads
  import opened Runs
  import opened TwoPhaseGc

  function A(): Key {
    seq(32, _ => 0)
  }

  function B(): Key {
    seq(32, _ => 1)
  }

  function Plain(k: Key, v: Bytes): Entry
    requires |v| <= MAX_VALUE_SIZE
  {
    Entry(0, Uncompressed, k, |v|, v)
  }

  function PutOf(k: Key, v: Bytes): Op {
    Put(Item(k, v, Uncompressed))
  }

  function C(): Key {
    seq(32, _ => 2)
  }

  lemma Different()
    ensures A() != B() && A() != C() && B() != C()
  {
    assert A()[0] == 0 && B()[0] == 1 && C()[0] == 2;
  }

  /** The store after one more entry in an active segment that is not full. */
  function Written(st: Store, log: Log, s: Stats, e: Entry): Store {
    var p := Placed(End(log), e);
    var t := Recompute(s.(total := s.total + |e.data|)).(indexed := End(log) + e.Size());
    var meta := st.meta.(segments := st.meta.segments[st.meta.active := t]);
    Store(st.logs[st.meta.active := log + [p]], st.index[e.key := RecordOf(st.meta.active, p)], meta, meta)
  }

  lemma WriteOneIs(st: Store, log: Log, s: Stats, e: Entry)
    requires st.Ready() && st.Active() == log && End(log) < SEGMENT_MAX_SIZE
    requires st.meta.StatsOf(st.meta.active) == s && s.indexed <= End(log) && e.rawSize == |e.data|
    requires e.IsTombstone() ==> e.rawSize == 0
    ensures WriteOne(st, e) == Written(st, log, s, e)
  {
  }

  lemma PackIs(lib: Lib, cfg: Config, k: Key, v: Bytes)
    requires |v| <= MAX_VALUE_SIZE
    ensures Pack(lib, cfg, k, v, Uncompressed) == Plain(k, v)
  {
  }

  lemma PutIs(lib: Lib, cfg: Config, st: Store, log: Log, s: Stats, k: Key, v: Bytes)
    requires Shape(st) && st.Active() == log && End(log) < SEGMENT_MAX_SIZE && |v| <= MAX_VALUE_SIZE
    requires st.meta.StatsOf(st.meta.active) == s && s.indexed <= End(log)
    ensures Step(lib, cfg, st, PutOf(k, v)) == Written(st, log, s, Plain(k, v))
  {
    hide WriteOne, Written, Shape, Pack;
    PackIs(lib, cfg, k, v);
    WriteOneIs(st, log, s, Plain(k, v));
  }

  lemma RunNext(lib: Lib, cfg: Config, ops: seq<Op>, n: nat, from: Store, to: Store)
    requires Shape(EMPTY) && n < |ops| && Run(lib, cfg, EMPTY, ops[..n]) == from
    requires Shape(from) && Step(lib, cfg, from, ops[n]) == to
    ensures Run(lib, cfg, EMPTY, ops[..n + 1]) == to
  {
    hide Shape, Step;
    assert ops[..n + 1][..n] == ops[..n];
  }

  // ---------------------------------------------------------------- a segment with one live key

  /** A value as long as `v`, and not empty. */
  function Other(v: Bytes): (w: Bytes)
    ensures |w| == if v == [] then 1 else |v|
  {
    seq(if v == [] then 1 else |v|, _ => 8)
  }

  /** A holds `v`, B was put and deleted, and the segment is sealed. */
  function OneLive(v: Bytes): seq<Op> {
    [PutOf(A(), v), PutOf(B(), Other(v)), Delete(B()), Seal]
  }

  function LogOf(v: Bytes): Log
    requires |v| <= 100
  {
    [Placed(0, Plain(A(), v)), Placed(50 + |v|, Plain(B(), Other(v))), Placed(100 + |v| + |Other(v)|, Tombstone(B()))]
  }

  function RowOf(v: Bytes, i: nat): IndexRecord
    requires |v| <= 100 && i < 3
  {
    RecordOf(1, LogOf(v)[i])
  }

  function Half(v: Bytes): real {
    |Other(v)| as real / (|v| + |Other(v)|) as real
  }

  function OneSegment(log: Log, index: IndexMap, stats: Stats): Store {
    Store(map[1 := log], index, Meta(1, map[1 := stats]), Meta(1, map[1 := stats]))
  }

  function After1(v: Bytes): Store
    requires |v| <= 100
  {
    OneSegment(LogOf(v)[..1], map[A() := RowOf(v, 0)], Stats(|v|, 0, 0.0, false, 50 + |v|))
  }

  function After2(v: Bytes): Store
    requires |v| <= 100
  {
    OneSegment(LogOf(v)[..2], map[A() := RowOf(v, 0), B() := RowOf(v, 1)], Stats(|v| + |Other(v)|, 0, 0.0, false, 100 + |v| + |Other(v)|))
  }

  function After3(v: Bytes): Store
    requires |v| <= 100
  {
    OneSegment(LogOf(v), map[A() := RowOf(v, 0), B() := RowOf(v, 2)], Stats(|v| + |Other(v)|, |Other(v)|, Half(v), false, 150 + |v| + |Other(v)|))
  }

  function SealedOne(v: Bytes): Store
    requires |v| <= 100
  {
    var meta := Meta(2, map[1 := Stats(|v| + |Other(v)|, |Other(v)|, Half(v), true, 150 + |v| + |Other(v)|)]);
    Store(map[1 := LogOf(v), 2 := []], map[A() := RowOf(v, 0), B() := RowOf(v, 2)], meta, meta)
  }

  lemma Step1(lib: Lib, cfg: Config, v: Bytes)
    requires |v| <= 100 && Shape(EMPTY)
    ensures Step(lib, cfg, EMPTY, PutOf(A(), v)) == After1(v)
  {
    hide Step, Shape;
    PutIs(lib, cfg, EMPTY, [], NEW_STATS, A(), v);
    assert LogOf(v)[..1] == [] + [Placed(0, Plain(A(), v))];
  }

  lemma Step2(lib: Lib, cfg: Config, v: Bytes)
    requires |v| <= 100 && Shape(After1(v))
    ensures Step(lib, cfg, After1(v), PutOf(B(), Other(v))) == After2(v)
  {
    hide Step, Shape;
    var s := Stats(|v|, 0, 0.0, false, 50 + |v|);
    Different();
    PutIs(lib, cfg, After1(v), LogOf(v)[..1], s, B(), Other(v));
    assert LogOf(v)[..2] == LogOf(v)[..1] + [Placed(50 + |v|, Plain(B(), Other(v)))];
  }

  lemma Step3(lib: Lib, cfg: Config, v: Bytes)
    requires |v| <= 100 && Shape(After2(v))
    ensures Step(lib, cfg, After2(v), Delete(B())) == After3(v)
  {
    hide Shape, WriteOne;
    var st := After2(v);
    Different();
    var counted := CountDeleted(st, B());
    var s := Stats(|v| + |Other(v)|, |Other(v)|, Half(v), false, 100 + |v| + |Other(v)|);
    assert counted.meta.segments == map[1 := s];
    WriteOneIs(counted, LogOf(v)[..2], s, Tombstone(B()));
    assert LogOf(v) == LogOf(v)[..2] + [Placed(100 + |v| + |Other(v)|, Tombstone(B()))];
  }

  lemma Step4(lib: Lib, cfg: Config, v: Bytes)
    requires |v| <= 100 && Shape(After3(v))
    ensures Step(lib, cfg, After3(v), Seal) == SealedOne(v)
  {
    hide Shape;
  }

  lemma OneLiveRun(lib: Lib, cfg: Config, v: Bytes)
    requires |v| <= 100
    ensures Shape(EMPTY) && Run(lib, cfg, EMPTY, OneLive(v)) == SealedOne(v)
    ensures Shape(SealedOne(v))
  {
    hide Shape, Step, Run, After1, After2, After3, SealedOne, Inv;
    EmptyInv();
    EmptyShape();
    var ops := OneLive(v);
    RunNone(lib, cfg);
    assert ops[..0] == [] && ops[..4] == ops;
    Step1(lib, cfg, v);
    RunNext(lib, cfg, ops, 0, EMPTY, After1(v));
    Step2(lib, cfg, v);
    RunNext(lib, cfg, ops, 1, After1(v), After2(v));
    Step3(lib, cfg, v);
    RunNext(lib, cfg, ops, 2, After2(v), After3(v));
    Step4(lib, cfg, v);
    RunNext(lib, cfg, ops, 3, After3(v), SealedOne(v));
  }

  lemma EmptyShape()
    ensures Shape(EMPTY)
  {
    EmptyInv();
  }

  lemma RunNone(lib: Lib, cfg: Config)
    requires Shape(EMPTY)
    ensures Run(lib, cfg, EMPTY, []) == EMPTY
  {
  }

  lemma HalfEnough(v: Bytes)
    ensures Half(v) >= 0.5
  {
    var a, t := |Other(v)| as real, (|v| + |Other(v)|) as real;
    assert a / t * t == a && t <= 2.0 * a;
  }

  /** A collection of that segment keeps A alone. */
  lemma OneLivePrepared(cfg: Config, v: Bytes)
    requires |v| <= 100 && cfg.Valid() && cfg.gcRatio <= 0.5
    ensures Prepare(cfg, SealedOne(v)) == Some(Prep(1, |v| + |Other(v)|, [Placed(0, Plain(A(), v))], []))
  {
    hide DeletedKeys, Compact;
    var st := SealedOne(v);
    HalfEnough(v);
    assert Candidate(st.meta, cfg.gcRatio, 0) == None;
    assert Candidate(st.meta, cfg.gcRatio, 1) == None;
    assert Candidate(st.meta, cfg.gcRatio, 2) == Some(1);
    assert Candidate(st.meta, cfg.gcRatio, 3) == Some(1);
    CompactIs(v);
  }

  lemma CompactIs(v: Bytes)
    requires |v| <= 100
    ensures Compact(SealedOne(v).index, 1, LogOf(v)) == [Placed(0, Plain(A(), v))]
    ensures DeletedKeys(SealedOne(v).index, 1, LogOf(v)) == []
  {
    Different();
    var index, log := SealedOne(v).index, LogOf(v);
    assert log[..3] == log && log[..2][..1] == log[..1] && log[..1][..0] == [];
    assert Compact(index, 1, log[..1]) == [] + [Placed(0, Plain(A(), v))];
    assert Compact(index, 1, log[..2]) == Compact(index, 1, log[..1]);
    assert DeletedKeys(index, 1, log[..1]) == [] + [];
    assert DeletedKeys(index, 1, log[..2]) == DeletedKeys(index, 1, log[..1]) + [];
  }

  lemma OneLiveModel(v: Bytes)
    requires |v| <= 100
    ensures Effects(map[], OneLive(v)) == map[A() := v]
  {
    Different();
    var ops := OneLive(v);
    assert ops[..3][..2] == ops[..2] && ops[..2][..1] == ops[..1] && ops[..1][..0] == [];
    assert Effects(map[], ops[..1]) == Effect(map[], ops[0]);
    assert Effects(map[], ops[..2]) == Effect(Effects(map[], ops[..1]), ops[1]);
    assert Effects(map[], ops[..3]) == Effect(Effects(map[], ops[..2]), ops[2]);
  }

  lemma NoGc(lib: Lib, cfg: Config, ops: seq<Op>)
    requires Shape(EMPTY) && forall i :: 0 <= i < |ops| ==> !ops[i].Gc?
    ensures GcSafe(lib, cfg, EMPTY, ops)
  {
  }

  /** An empty value that shares its segment only with deleted data is lost by the collection of that segment. */
  lemma CollectionLosesEmptyValue(lib: Lib, cfg: Config)
    requires Lawful(lib) && cfg.Valid() && cfg.gcRatio <= 0.5
    ensures Shape(EMPTY)
    ensures Get(lib, Run(lib, cfg, EMPTY, OneLive([])), A()) == Found([])
    ensures Get(lib, Run(lib, cfg, EMPTY, OneLive([]) + [Gc]), A()) == SegmentNotFound
  {
    hide Shape, Run, Get, Lawful, SealedOne, Means, Collect, Prepare, Effects, GcSafe, Stands;
    var ops, st := OneLive([]), SealedOne([]);
    OneLiveRun(lib, cfg, []);
    OneLivePrepared(cfg, []);
    OneLiveModel([]);
    NoGc(lib, cfg, ops);
    EmptyInv();
    EmptyStands(lib);
    EveryRunReadsLastWrite(lib, cfg, ops, A());
    var view := RunRefines(lib, cfg, EMPTY, map[], map[], ops);
    OnlyA(lib, view, []);
    var k := DropLosesKey(lib, cfg, st, view);
    RunGc(lib, cfg, ops);
  }

  lemma OnlyA(lib: Lib, view: View, v: Bytes)
    requires Stands(lib, view, map[A() := v])
    ensures forall k :: k in view <==> k == A()
  {
  }

  lemma RunGc(lib: Lib, cfg: Config, ops: seq<Op>)
    requires Shape(EMPTY)
    ensures Run(lib, cfg, EMPTY, ops + [Gc]) == Collect(cfg, Run(lib, cfg, EMPTY, ops))
  {
    hide Shape, Collect;
    assert (ops + [Gc])[..|ops|] == ops;
  }

  /** A key deleted between the phases of a collection that kept it can be read again afterwards. */
  lemma DeletedKeyComesBack(lib: Lib, cfg: Config)
    requires Lawful(lib) && cfg.Valid() && cfg.gcRatio <= 0.5
    ensures Shape(EMPTY)
    ensures
      var st := Run(lib, cfg, EMPTY, OneLive([7]));
      var p := Prepare(cfg, st);
      && p.Some?
      && Get(lib, Run(lib, cfg, st, [Delete(A())]), A()) == Absent
      && Shape(Finish(Run(lib, cfg, st, [Delete(A())]), p.value))
      && Get(lib, Finish(Run(lib, cfg, st, [Delete(A())]), p.value), A()) == Found([7])
  {
    hide Shape, Run, Get, Lawful, SealedOne, Means, Finish, Effects, GcSafe, Prepare, Later, Stands, Entries;
    var ops, st := OneLive([7]), SealedOne([7]);
    OneLiveRun(lib, cfg, [7]);
    OneLivePrepared(cfg, [7]);
    OneLiveModel([7]);
    NoGc(lib, cfg, ops);
    EmptyInv();
    EmptyStands(lib);
    EveryRunReadsLastWrite(lib, cfg, ops, A());
    var view := RunRefines(lib, cfg, EMPTY, map[], map[], ops);
    KeepsA([7]);
    DeleteReads(lib, cfg, st, view, map[A() := [7]]);
  }

  lemma KeepsA(v: Bytes)
    requires 1 <= |v| <= 100
    ensures var p := Prep(1, |v| + |Other(v)|, [Placed(0, Plain(A(), v))], []);
      Keeps(p, A()) && !DropsLive(p) && DataBytes(p.log) == |v|
  {
    var log := [Placed(0, Plain(A(), v))];
    assert Entries(log)[0] == Plain(A(), v);
    assert log[..0] == [] && DataBytes(log) == DataBytes(log[..0]) + |v|;
  }

  lemma DeleteReads(lib: Lib, cfg: Config, st: Store, view: View, model: Model)
    requires Lawful(lib) && Inv(st, view) && Stands(lib, view, model) && Prepare(cfg, st).Some?
    requires Keeps(Prepare(cfg, st).value, A()) && !DropsLive(Prepare(cfg, st).value)
    ensures
      var s, p := Run(lib, cfg, st, [Delete(A())]), Prepare(cfg, st).value;
      && Get(lib, s, A()) == Absent
      && Shape(Finish(s, p))
      && Get(lib, Finish(s, p), A()) == Get(lib, st, A())
  {
    hide Shape, Run, Get, Lawful, Means, Finish, Effects, Prepare, Later, Stands, Keeps, DropsLive;
    var ops, p := [Delete(A())], Prepare(cfg, st).value;
    assert GcSafe(lib, cfg, st, ops);
    var v1 := RunRefines(lib, cfg, st, view, model, ops);
    DeletedModel(model);
    StandsKeys(lib, v1, Effects(model, ops), A());
    GetMeans(lib, Run(lib, cfg, st, ops), v1, A());
    Prepared(cfg, st, view);
    ShapeSealed(st, p.seg);
    RunLater(lib, cfg, st, ops, p.seg);
    FinishReads(lib, cfg, st, view, Run(lib, cfg, st, ops), v1, A());
  }

  lemma DeletedModel(model: Model)
    ensures A() !in Effects(model, [Delete(A())])
  {
    assert [Delete(A())][..0] == [];
  }

  lemma StandsKeys(lib: Lib, view: View, model: Model, k: Key)
    requires Stands(lib, view, model) && k !in model
    ensures k !in view
  {
  }
}
