/**
 * Short runs in which the statistics or what a reopen finds differ from the running store: instances of the
 * exact conditions stated with deletes, rejected batches and collections (engine.rs, gc.rs, recovery.rs).
 */
module WitnessesOnDisk {
  import opened Words
  import opened Compression
  import opened Segment
  import opened SegmentLog
  import opened Index
  import opened BlobStore
  import opened StoreWrites
  import opened Gc
  import opened GcTransparency
  import opened Reads
  import opened Runs
  import opened Recovery
  import opened Crash
  import opened Reopening
  import opened Restarts
  import opened Rebuild
  import opened AnyRun
  import opened Accounting
  import opened GcProgress
  import opened CrashPoints
  import opened OpenCrash
  import opened Lives
  import opened Witnesses

  // ---------------------------------------------------------------- a key twice in one delete batch

  lemma OnePut(lib: Lib, cfg: Config) returns (view: View)
    requires Lawful(lib)
    ensures Shape(EMPTY) && Run(lib, cfg, EMPTY, [PutOf(A(), [7])]) == After1([7])
    ensures Inv(After1([7]), view) && BooksBalance(After1([7]))
  {
    hide Shape, Step, Run, After1, Means, Lawful, Stands, BooksBalance;
    var ops := [PutOf(A(), [7])];
    EmptyShape();
    EmptyInv();
    EmptyBalances();
    EmptyStands(lib);
    RunNone(lib, cfg);
    assert ops[..0] == [] && ops[..1] == ops;
    Step1(lib, cfg, [7]);
    RunNext(lib, cfg, ops, 0, EMPTY, After1([7]));
    NoGc(lib, cfg, ops);
    view := RunRefines(lib, cfg, EMPTY, map[], map[], ops);
    StepBalances(lib, cfg, EMPTY, map[], PutOf(A(), [7]));
  }

  /** Deleting one key twice in a batch counts more bytes deleted than the segment has. */
  lemma DuplicateDeletesOvercount(lib: Lib, cfg: Config)
    requires Lawful(lib)
    ensures Shape(EMPTY)
    ensures !BooksBalance(DeleteBatch(Run(lib, cfg, EMPTY, [PutOf(A(), [7])]), [A(), A()]))
  {
    hide *;
    var view := OnePut(lib, cfg);
    TwiceCounted();
    DeletesBalance(After1([7]), view, [A(), A()]);
  }

  lemma TwiceCounted()
    ensures
      var st := After1([7]);
      && 1 in st.logs && st.meta.StatsOf(1).deleted == 0 && st.meta.StatsOf(1).total == 1
      && LiveBytes(st.index, 1, st.logs[1]) == 1
      && Repeated(st.index, [A(), A()], 1) == 1
  {
    hide LiveBytes, Repeated;
    var st := After1([7]);
    LiveOnce();
    RepeatedOnce(st.index, RowOf([7], 0));
  }

  lemma LiveOnce()
    ensures LiveBytes(After1([7]).index, 1, After1([7]).logs[1]) == 1
  {
    var index, log := After1([7]).index, After1([7]).logs[1];
    assert log == [Placed(0, Plain(A(), [7]))] && log[..0] == [];
    assert Compact(index, 1, log) == Compact(index, 1, log[..0]) + log;
    KeepsA([7]);
  }

  lemma RepeatedOnce(index: IndexMap, row: IndexRecord)
    requires Lookup(index, A()) == Some(row) && row.segmentId == 1 && row.dataSize == 1
    ensures Repeated(index, [A(), A()], 1) == 1
  {
    hide Lookup;
    var keys := [A(), A()];
    assert keys[..1] == [A()] && keys[..1][..0] == [];
    assert Repeated(index, keys[..1], 1) == Repeated(index, keys[..1][..0], 1);
  }

  // ---------------------------------------------------------------- a rejected batch

  /** A good value followed by one above the limit. */
  function Rejected(): Op {
    PutBatch([Item(A(), [7], Uncompressed), Item(B(), seq(MAX_VALUE_SIZE + 1, _ => 0), Uncompressed)])
  }

  lemma RejectedRun(lib: Lib, cfg: Config)
    requires Shape(EMPTY)
    ensures Step(lib, cfg, EMPTY, Rejected()) == AppendMany(EMPTY, [Plain(A(), [7])])
  {
    hide Shape, AppendMany, AppendedRecords, CommitBatch, Pack;
    var items := Rejected().items;
    assert items[..1][..0] == [] && |items[1].value| > MAX_VALUE_SIZE && |items[0].value| == 1;
    assert Accepted(items[..1]) == 1;
    assert Accepted(items) == 1;
    PackIs(lib, cfg, A(), [7]);
    assert PackAll(lib, cfg, items[..1]) == [Plain(A(), [7])];
  }

  lemma FreshEmpty()
    ensures Fresh(EMPTY)
  {
    assert Flat(EMPTY.logs, 0, 0) == [];
    assert Flat(EMPTY.logs, 0, 1) == [];
    assert LogRecords(1, []) == [];
    assert Flat(EMPTY.logs, 0, 2) == [];
  }

  lemma UnpackPlain(lib: Lib, k: Key, v: Bytes)
    requires |v| == 1
    ensures Unpack(lib, Plain(k, v)) == Found(v)
  {
  }

  /** The value of a rejected batch is absent while the process runs and present after a rebuild. */
  lemma RejectedValueAppears(lib: Lib, cfg: Config)
    ensures Shape(EMPTY)
    ensures
      var s := Step(lib, cfg, EMPTY, Rejected());
      && Get(lib, s, A()) == Absent
      && Shape(s.(index := Rebuilt(s)))
      && Get(lib, s.(index := Rebuilt(s)), A()) == Found([7])
  {
    hide Shape, Get, AppendMany, Rebuilt, Step, Means, Fresh, Rejected, Unpack;
    EmptyShape();
    EmptyInv();
    FreshEmpty();
    RejectedRun(lib, cfg);
    var es := [Plain(A(), [7])];
    RejectedKey(lib, EMPTY, map[], es, A());
    GetMeans(lib, EMPTY, map[], A());
    UnpackPlain(lib, A(), [7]);
    assert LastEntry(es, A()) == Some(es[0]);
  }

  /** One entry in the log of a new store, not in its index. */
  function Unindexed(): Store
    requires Shape(EMPTY)
  {
    AppendMany(EMPTY, [Seven()])
  }

  function Seven(): (e: Entry)
    ensures e.key == A()
  {
    Plain(A(), [7])
  }

  /** A reopen indexes it. */
  lemma UnindexedReopens(lib: Lib)
    ensures Shape(EMPTY) && Shape(Unindexed()) && CutsOff(lib.crc, Unindexed(), []) && Get(lib, Unindexed(), A()) == Absent
    ensures Shape(Reopened(lib.crc, Unindexed(), [])) && Get(lib, Reopened(lib.crc, Unindexed(), []), A()) == Found([7])
  {
    hide *;
    UnindexedCovered();
    UnindexedIs();
    NoTail(lib.crc, Unindexed());
    EmptyInv();
    EmptyMarked();
    SevenOk();
    RejectedReads(lib, EMPTY, FullCut(EMPTY.logs), map[], [Seven()], [], A());
    NothingBefore();
    GetMeans(lib, EMPTY, map[], A());
    OnlyEntry(lib);
  }

  lemma NothingBefore()
    ensures Behind(EMPTY.logs, FullCut(EMPTY.logs), EMPTY.meta.active + 1) + [Seven()] == [Seven()]
  {
    hide Behind, FullCut, Seven;
    FullBehind(EMPTY.logs, EMPTY.meta.active + 1);
  }

  lemma SevenOk()
    ensures EntryOk(Seven())
  {
  }

  lemma OnlyEntry(lib: Lib)
    ensures LastEntry([Seven()], A()) == Some(Seven()) && ReadEntry(lib, Seven()) == Found([7])
  {
  }

  /** The value of a rejected batch is absent while the process runs and present after a plain reopen. */
  lemma RejectedValueReopens(lib: Lib, cfg: Config)
    ensures Shape(EMPTY)
    ensures
      var s := Step(lib, cfg, EMPTY, Rejected());
      && Get(lib, s, A()) == Absent
      && Shape(Reopened(lib.crc, s, [])) && Get(lib, Reopened(lib.crc, s, []), A()) == Found([7])
  {
    hide *;
    UnindexedReopens(lib);
    RejectedRun(lib, cfg);
    UnindexedIs();
  }

  lemma UnindexedIs()
    requires Shape(EMPTY)
    ensures Unindexed() == AppendMany(EMPTY, [Plain(A(), [7])]) == AppendMany(EMPTY, [Seven()])
  {
  }

  /**
   * A put dies after its append. A reopen finds the value; if that reopen dies too, after it saved the watermarks,
   * no later one does.
   */
  lemma InterruptedOpenLosesPut(lib: Lib, cfg: Config) returns (disk: Disk)
    ensures Shape(EMPTY) && Shape(Unindexed())
    ensures var points := Points(lib, cfg, EMPTY, PutOf(A(), [7])); |points| > 3 && points[3].disk == Unindexed()
    ensures Shape(Reopened(lib.crc, Unindexed(), [])) && Get(lib, Reopened(lib.crc, Unindexed(), []), A()) == Found([7])
    ensures Interrupted(lib.crc, Unindexed(), [], false, disk) && Reopen(lib.crc, disk, false, Unindexed().meta.active + 1) == Opened(disk)
    ensures Shape(Loaded(Unindexed().logs, disk)) && Get(lib, Loaded(Unindexed().logs, disk), A()) == Absent
  {
    hide *;
    EmptyShape();
    UnindexedReopens(lib);
    AppendedPoint(lib, cfg);
    UnindexedCovered();
    var now := MidCut(EMPTY, FullCut(EMPTY.logs), Unindexed().logs, 0);
    disk := CanBeInterrupted(lib.crc, Unindexed(), now, []);
    OpenInterrupted(lib, Unindexed(), map[], now, [], disk);
  }

  lemma UnindexedCovered()
    ensures Shape(EMPTY)
    ensures var c := Unindexed();
      && Inv(c, map[]) && SavedOlder(c) && Fits(EMPTY.logs, FullCut(EMPTY.logs))
      && Covered(c.logs, c.saved, MidCut(EMPTY, FullCut(EMPTY.logs), c.logs, 0))
  {
    hide *;
    EmptyInv();
    UnindexedIs();
    EmptyMarked();
    SevenOk();
    RejectedBehind(EMPTY, FullCut(EMPTY.logs), map[], [Seven()]);
  }

  lemma AppendedPoint(lib: Lib, cfg: Config)
    requires Shape(EMPTY)
    ensures var points := Points(lib, cfg, EMPTY, PutOf(A(), [7])); |points| > 3 && points[3].disk == Unindexed()
  {
    hide Shape, AppendMany, Pack, OnePoints, RollOver;
    var es := Writes(lib, cfg, PutOf(A(), [7]));
    PackIs(lib, cfg, A(), [7]);
    assert es == [Plain(A(), [7])] && es[..0] == [];
    assert AppendPoints(EMPTY, []) == [Point(EMPTY, 0, 0, 0)];
    assert AppendPoints(EMPTY, es)[3] == Point(AppendMany(EMPTY, es), 1, 0, 0);
  }

  // ----------------------------------------------- a deleted key behind a boundary watermark

  function Fifty(): (v: Bytes)
    ensures |v| == 50
  {
    seq(50, _ => 8)
  }

  function FiftyOne(): (v: Bytes)
    ensures |v| == 51
  {
    seq(51, _ => 9)
  }

  /** A and B are kept, C was put and deleted: the 51 data bytes kept are the end of the first entry. */
  function TwoLive(): seq<Op> {
    [PutOf(A(), [7]), PutOf(B(), Fifty()), PutOf(C(), FiftyOne()), Delete(C()), Seal]
  }

  function TwoLog(): Log {
    [Placed(0, Plain(A(), [7])), Placed(51, Plain(B(), Fifty())), Placed(151, Plain(C(), FiftyOne())), Placed(252, Tombstone(C()))]
  }

  function TwoRow(i: nat): IndexRecord
    requires i < 4
  {
    RecordOf(1, TwoLog()[i])
  }

  function Two2(): Store {
    OneSegment(TwoLog()[..2], map[A() := TwoRow(0), B() := TwoRow(1)], Stats(51, 0, 0.0, false, 151))
  }

  function Two3(): Store {
    OneSegment(TwoLog()[..3], map[A() := TwoRow(0), B() := TwoRow(1), C() := TwoRow(2)], Stats(102, 0, 0.0, false, 252))
  }

  function Two4(): Store {
    OneSegment(TwoLog(), map[A() := TwoRow(0), B() := TwoRow(1), C() := TwoRow(3)], Stats(102, 51, 0.5, false, 302))
  }

  function Two5(): Store {
    var meta := Meta(2, map[1 := Stats(102, 51, 0.5, true, 302)]);
    Store(map[1 := TwoLog(), 2 := []], map[A() := TwoRow(0), B() := TwoRow(1), C() := TwoRow(3)], meta, meta)
  }

  lemma ToTwo2(lib: Lib, cfg: Config)
    requires Shape(After1([7]))
    ensures Step(lib, cfg, After1([7]), PutOf(B(), Fifty())) == Two2()
  {
    hide Step, Shape;
    Different();
    var log := LogOf([7])[..1];
    assert log == [Placed(0, Plain(A(), [7]))];
    PutIs(lib, cfg, After1([7]), log, Stats(1, 0, 0.0, false, 51), B(), Fifty());
    assert TwoLog()[..2] == log + [TwoLog()[1]];
  }

  lemma ToTwo3(lib: Lib, cfg: Config)
    requires Shape(Two2())
    ensures Step(lib, cfg, Two2(), PutOf(C(), FiftyOne())) == Two3()
  {
    hide Step, Shape;
    Different();
    PutIs(lib, cfg, Two2(), TwoLog()[..2], Stats(51, 0, 0.0, false, 151), C(), FiftyOne());
    assert TwoLog()[..3] == TwoLog()[..2] + [TwoLog()[2]];
  }

  lemma ToTwo4(lib: Lib, cfg: Config)
    requires Shape(Two3())
    ensures Step(lib, cfg, Two3(), Delete(C())) == Two4()
  {
    hide Shape, WriteOne;
    Different();
    var counted, s := CountDeleted(Two3(), C()), Stats(102, 51, 0.5, false, 252);
    assert counted.meta.segments == map[1 := s];
    WriteOneIs(counted, TwoLog()[..3], s, Tombstone(C()));
    assert TwoLog() == TwoLog()[..3] + [TwoLog()[3]];
  }

  lemma ToTwo5(lib: Lib, cfg: Config)
    requires Shape(Two4())
    ensures Step(lib, cfg, Two4(), Seal) == Two5()
  {
    hide Shape;
  }

  lemma TwoLiveRun(lib: Lib, cfg: Config)
    ensures Shape(EMPTY) && Run(lib, cfg, EMPTY, TwoLive()) == Two5()
  {
    hide Shape, Step, Run, After1, Two2, Two3, Two4, Two5;
    var ops := TwoLive();
    EmptyShape();
    RunNone(lib, cfg);
    assert ops[..0] == [] && ops[..5] == ops;
    Step1(lib, cfg, [7]);
    RunNext(lib, cfg, ops, 0, EMPTY, After1([7]));
    ToTwo2(lib, cfg);
    RunNext(lib, cfg, ops, 1, After1([7]), Two2());
    ToTwo3(lib, cfg);
    RunNext(lib, cfg, ops, 2, Two2(), Two3());
    ToTwo4(lib, cfg);
    RunNext(lib, cfg, ops, 3, Two3(), Two4());
    ToTwo5(lib, cfg);
    RunNext(lib, cfg, ops, 4, Two4(), Two5());
  }

  function TwoKept(): Log {
    TwoLog()[..2]
  }

  /** Which of the four entries are live, and that no tombstone has a visible row. */
  lemma TwoRows()
    ensures var index, log := Two5().index, TwoLog();
      && Live(index, 1, log[0]) && Live(index, 1, log[1]) && !Live(index, 1, log[2]) && !Live(index, 1, log[3])
      && !log[0].e.IsTombstone() && !log[1].e.IsTombstone() && !log[2].e.IsTombstone() && Lookup(index, log[3].e.key) == None
  {
    Different();
  }

  lemma TwoEnds()
    ensures TwoLog()[0].off == 0 && TwoLog()[1].off == 51 && TwoLog()[0].e.Size() == 51 && |TwoLog()| == 4
  {
  }

  lemma TwoCompacts()
    ensures Compact(Two5().index, 1, TwoLog()) == TwoKept() && DeletedKeys(Two5().index, 1, TwoLog()) == []
  {
    hide Live, TwoLog, Two5, Lookup;
    TwoRows();
    TwoEnds();
    var index, log := Two5().index, TwoLog();
    assert log[..4] == log && log[..3][..2] == log[..2] && log[..2][..1] == log[..1] && log[..1][..0] == [];
    assert Compact(index, 1, log[..1]) == [] + [log[0]];
    assert Compact(index, 1, log[..2]) == [log[0]] + [log[1]];
    assert [log[0]] + [log[1]] == log[..2];
    assert Compact(index, 1, log[..3]) == Compact(index, 1, log[..2]);
    assert DeletedKeys(index, 1, log[..1]) == [] + [];
    assert DeletedKeys(index, 1, log[..2]) == DeletedKeys(index, 1, log[..1]) + [];
    assert DeletedKeys(index, 1, log[..3]) == DeletedKeys(index, 1, log[..2]) + [];
  }

  lemma TwoPrepared(cfg: Config)
    requires cfg.Valid() && cfg.gcRatio <= 0.5
    ensures Prepare(cfg, Two5()) == Some(Prep(1, 102, TwoKept(), []))
    ensures DataBytes(TwoKept()) == 51 && BoundaryAt(TwoKept(), 1) && |TwoKept()| == 2
  {
    hide Compact, DeletedKeys;
    var st, log := Two5(), TwoKept();
    TwoCompacts();
    assert Candidate(st.meta, cfg.gcRatio, 0) == None;
    assert Candidate(st.meta, cfg.gcRatio, 1) == None;
    assert Candidate(st.meta, cfg.gcRatio, 2) == Some(1);
    assert Candidate(st.meta, cfg.gcRatio, 3) == Some(1);
    assert log[..1][..0] == [] && log[1..][..0] == [];
    assert DataBytes(log[..1]) == 0 + 1;
    assert DataBytes(log) == DataBytes(log[..1]) + 50;
    assert DataBytes(log[1..]) == 0 + 50;
  }

  lemma TwoFull()
    requires Shape(Two5())
    ensures Resumable(Two5(), FullCut(Two5().logs))
  {
    hide Shape, Plain;
    var s := Two5();
    assert s.logs[1][..4] == s.logs[1] && s.logs[2][..0] == s.logs[2];
  }

  /** A collection on a boundary, then a delete, then a reopen: the deleted key reads again. */
  lemma DeletedKeyReopens(lib: Lib, cfg: Config)
    requires Lawful(lib) && cfg.Valid() && cfg.gcRatio <= 0.5
    ensures Shape(EMPTY)
    ensures
      var st := Run(lib, cfg, EMPTY, TwoLive());
      && Shape(Collect(cfg, st))
      && var s := Run(lib, cfg, Collect(cfg, st), [Delete(B())]);
         && Get(lib, s, B()) == Absent
         && Shape(Reopened(lib.crc, s, []))
         && Get(lib, Reopened(lib.crc, s, []), B()) == Found(Fifty())
  {
    hide *;
    EmptyInv();
    EmptyStands(lib);
    var ops, st, dels := TwoLive(), Two5(), [Delete(B())];
    TwoLiveRun(lib, cfg);
    TwoPrepared(cfg);
    TwoOps();
    NoGc(lib, cfg, ops);
    var view := RunRefines(lib, cfg, EMPTY, map[], map[], ops);
    TwoFull();
    var model := Effects(map[], ops);
    CollectWritesReopen(lib, cfg, st, view, model, 1, dels);
    var c := Collect(cfg, st);
    KeepingIsSafe(cfg, st);
    CollectInv(cfg, st, view);
    NoGcSafe(lib, cfg, c, dels);
    var v := RunRefines(lib, cfg, c, view, model, dels);
    BDeleted(model);
    StandsAt(lib, v, Effects(model, dels), B());
    GetMeans(lib, Run(lib, cfg, c, dels), v, B());
    TwoSecond(lib);
  }

  lemma TwoOps()
    ensures forall i :: 0 <= i < |TwoLive()| ==> !TwoLive()[i].Gc?
  {
  }

  lemma BDeleted(model: Model)
    ensures B() !in Effects(model, [Delete(B())])
  {
    assert [Delete(B())][..0] == [];
  }

  lemma TwoSecond(lib: Lib)
    ensures TwoKept()[1].e == Plain(B(), Fifty()) && TwoKept()[1].e.key == B() && |TwoKept()| == 2
    ensures Unpack(lib, Plain(B(), Fifty())) == Found(Fifty())
  {
  }

  // ---------------------------------------------------------------- a dropped tombstone

  /** A is put in one segment; the next one holds its tombstone and a key put and deleted. */
  function PutThenDeleted(): seq<Op> {
    [PutOf(A(), [7]), Seal, PutOf(B(), [8]), Delete(B()), Delete(A()), Seal]
  }

  function First(): Placed {
    Placed(0, Plain(A(), [7]))
  }

  function Second(): Log {
    [Placed(0, Plain(B(), [8])), Placed(51, Tombstone(B())), Placed(101, Tombstone(A()))]
  }

  function TwoSegments(n: nat, index: IndexMap, one: Stats, two: Stats): Store
    requires n <= 3
  {
    var meta := Meta(2, map[1 := one, 2 := two]);
    Store(map[1 := [First()], 2 := Second()[..n]], index, meta, meta)
  }

  const FIRST_SEALED := Stats(1, 0, 0.0, true, 51)

  function Sealed1(): Store {
    var meta := Meta(2, map[1 := FIRST_SEALED]);
    Store(map[1 := [First()], 2 := []], map[A() := RecordOf(1, First())], meta, meta)
  }

  function PutB(): Store {
    TwoSegments(1, map[A() := RecordOf(1, First()), B() := RecordOf(2, Second()[0])],
                FIRST_SEALED, Stats(1, 0, 0.0, false, 51))
  }

  function DeletedB(): Store {
    TwoSegments(2, map[A() := RecordOf(1, First()), B() := RecordOf(2, Second()[1])],
                FIRST_SEALED, Stats(1, 1, 1.0, false, 101))
  }

  function DeletedA(): Store {
    TwoSegments(3, map[A() := RecordOf(2, Second()[2]), B() := RecordOf(2, Second()[1])],
                Stats(1, 1, 1.0, true, 51), Stats(1, 1, 1.0, false, 151))
  }

  function Sealed2(): Store {
    var meta := Meta(3, map[1 := Stats(1, 1, 1.0, true, 51), 2 := Stats(1, 1, 1.0, true, 151)]);
    Store(map[1 := [First()], 2 := Second(), 3 := []],
          map[A() := RecordOf(2, Second()[2]), B() := RecordOf(2, Second()[1])], meta, meta)
  }

  lemma ToSealed1(lib: Lib, cfg: Config)
    requires Shape(After1([7]))
    ensures Step(lib, cfg, After1([7]), Seal) == Sealed1()
  {
    hide Shape;
    assert LogOf([7])[..1] == [First()];
  }

  lemma ToPutB(lib: Lib, cfg: Config)
    requires Shape(Sealed1())
    ensures Step(lib, cfg, Sealed1(), PutOf(B(), [8])) == PutB()
  {
    hide Shape, Step;
    Different();
    PutIs(lib, cfg, Sealed1(), [], NEW_STATS, B(), [8]);
    assert Second()[..1] == [] + [Second()[0]];
  }

  lemma ToDeletedB(lib: Lib, cfg: Config)
    requires Shape(PutB())
    ensures Step(lib, cfg, PutB(), Delete(B())) == DeletedB()
  {
    hide Shape, WriteOne;
    Different();
    var counted, s := CountDeleted(PutB(), B()), Stats(1, 1, 1.0, false, 51);
    assert counted.meta.segments == map[1 := FIRST_SEALED, 2 := s];
    WriteOneIs(counted, Second()[..1], s, Tombstone(B()));
    assert Second()[..2] == Second()[..1] + [Second()[1]];
  }

  lemma ToDeletedA(lib: Lib, cfg: Config)
    requires Shape(DeletedB())
    ensures Step(lib, cfg, DeletedB(), Delete(A())) == DeletedA()
  {
    hide Shape, WriteOne;
    Different();
    var counted, s := CountDeleted(DeletedB(), A()), Stats(1, 1, 1.0, false, 101);
    assert counted.meta.segments == map[1 := Stats(1, 1, 1.0, true, 51), 2 := s];
    WriteOneIs(counted, Second()[..2], s, Tombstone(A()));
    assert Second()[..3] == Second()[..2] + [Second()[2]];
  }

  lemma ToSealed2(lib: Lib, cfg: Config)
    requires Shape(DeletedA())
    ensures Step(lib, cfg, DeletedA(), Seal) == Sealed2()
  {
    hide Shape;
    assert Second()[..3] == Second();
  }

  lemma TombstoneRun(lib: Lib, cfg: Config)
    ensures Shape(EMPTY) && Run(lib, cfg, EMPTY, PutThenDeleted()) == Sealed2()
  {
    hide Shape, Step, Run, After1, Sealed1, PutB, DeletedB, DeletedA, Sealed2;
    var ops := PutThenDeleted();
    EmptyShape();
    RunNone(lib, cfg);
    assert ops[..0] == [] && ops[..6] == ops;
    Step1(lib, cfg, [7]);
    RunNext(lib, cfg, ops, 0, EMPTY, After1([7]));
    ToSealed1(lib, cfg);
    RunNext(lib, cfg, ops, 1, After1([7]), Sealed1());
    ToPutB(lib, cfg);
    RunNext(lib, cfg, ops, 2, Sealed1(), PutB());
    ToDeletedB(lib, cfg);
    RunNext(lib, cfg, ops, 3, PutB(), DeletedB());
    ToDeletedA(lib, cfg);
    RunNext(lib, cfg, ops, 4, DeletedB(), DeletedA());
    ToSealed2(lib, cfg);
    RunNext(lib, cfg, ops, 5, DeletedA(), Sealed2());
  }

  lemma SecondCompacts()
    ensures Compact(Sealed2().index, 2, Second()) == [] && DeletedKeys(Sealed2().index, 2, Second()) == []
  {
    Different();
    var index, log := Sealed2().index, Second();
    assert log[..3] == log && log[..2][..1] == log[..1] && log[..1][..0] == [];
    assert Lookup(index, A()) == None && Lookup(index, B()) == None;
    assert Compact(index, 2, log[..1]) == Compact(index, 2, []) == [];
    assert DeletedKeys(index, 2, log[..1]) == DeletedKeys(index, 2, []) + [];
    assert Compact(index, 2, log[..2]) == Compact(index, 2, log[..1]);
    assert DeletedKeys(index, 2, log[..2]) == DeletedKeys(index, 2, log[..1]) + [];
    assert DeletedKeys(index, 2, log) == DeletedKeys(index, 2, log[..2]) + [];
  }

  lemma SecondChosen(cfg: Config)
    requires cfg.Valid()
    ensures Prepare(cfg, Sealed2()) == Some(Prep(2, 1, [], []))
  {
    hide Compact, DeletedKeys;
    var st := Sealed2();
    SecondCompacts();
    assert Candidate(st.meta, cfg.gcRatio, 0) == None;
    assert Candidate(st.meta, cfg.gcRatio, 1) == None;
    assert Candidate(st.meta, cfg.gcRatio, 2) == Some(1);
    assert Candidate(st.meta, cfg.gcRatio, 3) == Some(2);
    assert Candidate(st.meta, cfg.gcRatio, 4) == Some(2);
  }

  lemma HistoryOfFirst(logs: map<nat, Log>)
    requires logs.Keys == {1, 3} && logs[1] == [First()] && logs[3] == []
    ensures Flat(logs, 0, 4) == [RecordOf(1, First())]
  {
    assert Flat(logs, 0, 1) == [];
    assert Flat(logs, 0, 2) == [] + LogRecords(1, logs[1]);
    assert Flat(logs, 0, 3) == Flat(logs, 0, 2) + [];
    assert Flat(logs, 0, 4) == Flat(logs, 0, 3) + LogRecords(3, logs[3]);
  }

  /** A key whose tombstone a collection dropped is absent while the process runs and returns with a rebuild. */
  lemma DroppedTombstoneReturns(lib: Lib, cfg: Config)
    requires cfg.Valid()
    ensures Shape(EMPTY)
    ensures
      var s := Collect(cfg, Run(lib, cfg, EMPTY, PutThenDeleted()));
      && Lookup(s.index, A()) == None
      && Lookup(Rebuilt(s), A()) == Some(RecordOf(1, First()))
      && !Fresh(s)
  {
    hide Run, Shape, Prepare;
    TombstoneRun(lib, cfg);
    SecondChosen(cfg);
    Different();
    var s := Collect(cfg, Sealed2());
    assert LogRecords(2, []) == [];
    assert s.index == Sealed2().index;
    assert s.logs.Keys == {1, 3};
    HistoryOfFirst(s.logs);
    var recs := [RecordOf(1, First())];
    assert recs[..0] == [] && InsertAll(map[], recs) == InsertAll(map[], recs[..0])[A() := recs[0]];
  }
}
