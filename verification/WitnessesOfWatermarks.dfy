/**
 * A collection leaves a watermark inside an entry: a reopen that loses the key, one that fails, and one that finds
 * a key nobody wrote (engine.rs, gc.rs, recovery.rs).
 */
module WitnessesOfWatermarks {
  import opened Words
  import opened Compression
  import opened Segment
  import opened SegmentLog
  import opened Index
  import opened BlobStore
  import opened Gc
  import opened GcMeaning
  import opened Reads
  import opened Runs
  import opened Recovery
  import opened Crash
  import opened Reopening
  import opened Watermark
  import opened AnyRun
  import opened Witnesses

  /** The store opens again, and `k` reads as that. */
  ghost predicate ReopensReading(lib: Lib, s: Store, k: Key, expected: GetResult)
    requires Shape(s)
  {
    var r := Reopen(lib.crc, DiskOf(lib.crc, s), false, s.meta.active + 1);
    r.Opened? && DiskGet(lib, r.disk, k) == expected
  }

  lemma ReadingIs(lib: Lib, s: Store, k: Key, expected: GetResult)
    requires Shape(s)
    ensures var r := Reopen(lib.crc, DiskOf(lib.crc, s), false, s.meta.active + 1);
      ReopensReading(lib, s, k, expected) <==> r.Opened? && DiskGet(lib, r.disk, k) == expected
  {
  }

  // --------------------------------------------------------------- one live key is collected

  function Ops(v: Bytes): seq<Op> {
    OneLive(v) + [Op.Gc]
  }

  function KeptLog(v: Bytes): Log
    requires |v| <= 100
  {
    [Placed(0, Plain(A(), v))]
  }

  /** The store after the collection: the watermark of the segment is the length of the value. */
  function Collected(v: Bytes): Store
    requires |v| <= 100
  {
    var meta := Meta(2, map[1 := Stats(|v|, 0, 0.0, true, |v|)]);
    Store(map[1 := KeptLog(v), 2 := []], map[A() := RecordOf(1, KeptLog(v)[0]), B() := RowOf(v, 2)], meta, meta)
  }

  lemma CollectedIs(cfg: Config, v: Bytes)
    requires cfg.Valid() && cfg.gcRatio <= 0.5 && 1 <= |v| <= 100
    ensures Collect(cfg, SealedOne(v)) == Collected(v)
  {
    hide Prepare;
    OneLivePrepared(cfg, v);
    KeepsA(v);
    Different();
    var recs := LogRecords(1, KeptLog(v));
    assert recs == [RecordOf(1, KeptLog(v)[0])] && recs[..0] == [];
    assert InsertAll(SealedOne(v).index, recs) == SealedOne(v).index[A() := recs[0]];
    var none: seq<Key> := [];
    assert (set k | k in none) == {};
  }

  lemma CollectedModel(v: Bytes)
    requires |v| <= 100
    ensures Effects(map[], OneLive(v) + [Op.Gc]) == map[A() := v]
  {
    OneLiveModel(v);
    assert (OneLive(v) + [Op.Gc])[..4] == OneLive(v);
  }

  lemma CollectedSafe(lib: Lib, cfg: Config, v: Bytes)
    requires cfg.Valid() && cfg.gcRatio <= 0.5 && Shape(EMPTY) && 1 <= |v| <= 100
    ensures GcSafe(lib, cfg, EMPTY, OneLive(v) + [Op.Gc])
  {
    hide Run, Prepare, DropsLive, Shape;
    var ops := OneLive(v) + [Op.Gc];
    OneLiveRun(lib, cfg, v);
    OneLivePrepared(cfg, v);
    KeepsA(v);
    assert ops[..4] == OneLive(v);
  }

  lemma OpsIs(v: Bytes)
    ensures Ops(v) == OneLive(v) + [Op.Gc]
  {
  }

  /** The run that leads there, and what it reads. */
  lemma CollectedRun(lib: Lib, cfg: Config, v: Bytes, k: Key) returns (view: View)
    requires Lawful(lib) && cfg.Valid() && cfg.gcRatio <= 0.5 && 1 <= |v| <= 100
    ensures Shape(EMPTY) && Run(lib, cfg, EMPTY, Ops(v)) == Collected(v)
    ensures Inv(Collected(v), view) && SavedOlder(Collected(v))
    ensures Get(lib, Collected(v), k) == if k == A() then Found(v) else Absent
  {
    hide *;
    EmptyInv();
    EmptySaved();
    EmptyStands(lib);
    var ops := Ops(v);
    OpsIs(v);
    OneLiveRun(lib, cfg, v);
    RunGc(lib, cfg, OneLive(v));
    CollectedIs(cfg, v);
    CollectedSafe(lib, cfg, v);
    CollectedModel(v);
    RunSaved(lib, cfg, EMPTY, ops);
    view := RunRefines(lib, cfg, EMPTY, map[], map[], ops);
    EveryRunReadsLastWrite(lib, cfg, ops, k);
  }

  /** The first file is one entry; the scan of it starts `|v|` bytes in, inside the entry. */
  lemma CollectedFile(crc: Crc, v: Bytes)
    requires 1 <= |v| <= 50 && Shape(Collected(v))
    ensures WellPlaced(KeptLog(v)) && End(KeptLog(v)) == 50 + |v| && StartOf(Collected(v), 1) == |v|
    ensures EncodeLog(crc, KeptLog(v)) == Encode(crc, Plain(A(), v)) && EncodeLog(crc, KeptLog(v))[50..] == v
  {
    hide Encode;
    ShapeLogs(Collected(v), 1);
    var e := Plain(A(), v);
    assert KeptLog(v)[..0] == [];
    assert [] + Encode(crc, e) == Encode(crc, e);
    DataEnds(crc, e);
  }

  lemma DataEnds(crc: Crc, e: Entry)
    requires |e.data| <= MAX_VALUE_SIZE
    ensures Encode(crc, e)[50..] == e.data
  {
    hide Body, Framed;
    HeaderFields(crc(Body(e)), e);
  }

  /** What the scans of both files find. */
  lemma CollectedSeen(crc: Crc, v: Bytes, found: Log, end: nat)
    requires 1 <= |v| <= 50 && Shape(Collected(v)) && Rescan(crc, Collected(v), 1) == Scanned(found, end)
    ensures AllOpen(crc, Collected(v), Collected(v).meta.active + 1) && Replayed(crc, Collected(v)) == Entries(found)
  {
    hide Shape, Rescan, Plain;
    var s := Collected(v);
    assert s.logs[2][..0] == [] && AtBoundary(s, 2, 0);
    BoundaryRescan(crc, s, 2, 0);
    var seen := Seen(crc, s);
    assert seen[1] == found && seen[2] == [];
    BehindTwo(seen, found);
  }

  lemma BehindTwo(logs: map<nat, Log>, found: Log)
    requires logs.Keys == {1, 2} && logs[1] == found && logs[2] == []
    ensures Behind(logs, NoCut(logs), 3) == Entries(found)
  {
    var cut := NoCut(logs);
    assert found[0..] == found && Entries([]) == [];
    assert Behind(logs, cut, 1) == [];
    assert Behind(logs, cut, 2) == [] + Entries(found);
    assert Behind(logs, cut, 3) == Behind(logs, cut, 2) + [];
  }

  // ---------------------------------------------------------------------- a key is lost

  /** Read from its second byte, an entry does not start with the magic number. */
  lemma MagicShifted(crc: Crc, file: Bytes)
    requires |file| == 51 && file[0..4] == LE32(ENTRY_MAGIC)
    ensures DecodeAt(crc, file, 1).Corrupt?
  {
    hide Body, LE32, FromLE32;
    var h := file[1..51];
    MagicBytes();
    assert h[0..4][0] == file[1] == file[0..4][1] == 0;
    LE32Bijective(ENTRY_MAGIC, h[0..4]);
    assert FromLE32(h[0..4]) != ENTRY_MAGIC;
    assert DecodeHeader(h) == None;
  }

  lemma MagicBytes()
    ensures LE32(ENTRY_MAGIC)[0] == 1 && LE32(ENTRY_MAGIC)[1] == 0
  {
    assert ENTRY_MAGIC % 256 == 1;
    assert ENTRY_MAGIC / 256 % 256 == 0;
    assert ToLE(ENTRY_MAGIC, 4) == [1] + ToLE(ENTRY_MAGIC / 256, 3);
    assert ToLE(ENTRY_MAGIC / 256, 3) == [0] + ToLE(ENTRY_MAGIC / 256 / 256, 2);
  }

  lemma EncodedMagic(crc: Crc, e: Entry)
    requires |e.data| <= MAX_VALUE_SIZE
    ensures Encode(crc, e)[0..4] == LE32(ENTRY_MAGIC)
  {
    hide Body, LE32, Framed;
    HeaderFields(crc(Body(e)), e);
  }

  /** The scan of the one-byte key finds nothing and cuts everything but one byte. */
  lemma OneByteRescan(crc: Crc)
    requires Shape(Collected([7]))
    ensures Rescan(crc, Collected([7]), 1) == Scanned([], 1)
  {
    hide DecodeAt, EncodeLog, Encode, Shape, Rescan, LE32, WellPlaced;
    var s := Collected([7]);
    CollectedFile(crc, [7]);
    EncodedMagic(crc, Plain(A(), [7]));
    MagicShifted(crc, EncodeLog(crc, KeptLog([7])));
    StrayRescan(crc, s, 1);
  }

  lemma OneByteCut(crc: Crc)
    requires Shape(Collected([7])) && Rescan(crc, Collected([7]), 1) == Scanned([], 1)
    ensures CutAway(crc, Collected([7]), A())
  {
    hide Shape, Rescan;
    Different();
  }

  lemma LostRead(lib: Lib, view: View)
    requires Inv(Collected([7]), view) && SavedOlder(Collected([7]))
    ensures ReopensReading(lib, Collected([7]), A(), ReadError)
  {
    hide *;
    ReadingIs(lib, Collected([7]), A(), ReadError);
    var s := Collected([7]);
    OneByteRescan(lib.crc);
    OneByteCut(lib.crc);
    CollectedSeen(lib.crc, [7], [], 1);
    ReopenAny(lib.crc, s);
    ReopenAnyReads(lib, s, view, A());
    ReplayIs(lib, s, A());
    NoneFound(A());
  }

  /** One live key of one byte: the collection leaves a watermark of 1, and after a reopen the key cannot be read. */
  lemma ReopenLosesCollected(lib: Lib, cfg: Config)
    requires Lawful(lib) && cfg.Valid() && cfg.gcRatio <= 0.5
    ensures Shape(EMPTY)
    ensures
      var s := Run(lib, cfg, EMPTY, Ops([7]));
      Get(lib, s, A()) == Found([7]) && ReopensReading(lib, s, A(), ReadError)
  {
    hide *;
    var view := CollectedRun(lib, cfg, [7], A());
    LostRead(lib, view);
  }

  lemma NoneFound(k: Key)
    ensures LastEntry(Entries([]), k) == None
  {
  }

  // ---------------------------------------------------------------------- a key appears

  /** An empty value for C. */
  function Forged(): (e: Entry)
    ensures e.data == []
  {
    Plain(C(), [])
  }

  /** A value that is itself that entry. */
  ghost function Imitation(crc: Crc): (v: Bytes)
    ensures |v| == 50
  {
    Encode(crc, Forged())
  }

  lemma ImitationRescan(crc: Crc)
    requires Shape(Collected(Imitation(crc)))
    ensures Rescan(crc, Collected(Imitation(crc)), 1) == Scanned([Placed(50, Forged())], 100)
  {
    hide DecodeAt, EncodeLog, Encode, Shape, Scan, WellPlaced;
    var v, e := Imitation(crc), Forged();
    CollectedFile(crc, v);
    var s, file := Collected(v), EncodeLog(crc, KeptLog(v));
    assert file[50..100] == file[50..] == v;
    DecodeExact(crc, file, 50, e, 100);
    ScanLast(crc, file, 50, e);
  }

  lemma ForgedRead(lib: Lib, view: View)
    requires Inv(Collected(Imitation(lib.crc)), view) && SavedOlder(Collected(Imitation(lib.crc)))
    ensures ReopensReading(lib, Collected(Imitation(lib.crc)), C(), Found([]))
  {
    hide *;
    ReadingIs(lib, Collected(Imitation(lib.crc)), C(), Found([]));
    var v := Imitation(lib.crc);
    var s := Collected(v);
    ImitationRescan(lib.crc);
    CollectedSeen(lib.crc, v, [Placed(50, Forged())], 100);
    ReopenAny(lib.crc, s);
    ReopenAnyReads(lib, s, view, C());
    ReplayIs(lib, s, C());
    OneFound(lib);
  }

  lemma OneFound(lib: Lib)
    ensures LastEntry(Entries([Placed(50, Forged())]), C()) == Some(Forged()) && ReadEntry(lib, Forged()) == Found([])
  {
  }

  lemma ForgedRun(lib: Lib, cfg: Config) returns (view: View)
    requires Lawful(lib) && cfg.Valid() && cfg.gcRatio <= 0.5
    ensures Shape(EMPTY) && Run(lib, cfg, EMPTY, Ops(Imitation(lib.crc))) == Collected(Imitation(lib.crc))
    ensures Inv(Collected(Imitation(lib.crc)), view) && SavedOlder(Collected(Imitation(lib.crc)))
    ensures Get(lib, Collected(Imitation(lib.crc)), C()) == Absent
  {
    hide *;
    view := CollectedRun(lib, cfg, Imitation(lib.crc), C());
    NotA();
  }

  lemma NotA()
    ensures C() != A()
  {
    Different();
  }

  /** Stored data that imitates an entry at the watermark: after the collection and a reopen a key reads that was never put. */
  lemma ForgedKeyAppears(lib: Lib, cfg: Config)
    requires Lawful(lib) && cfg.Valid() && cfg.gcRatio <= 0.5
    ensures Shape(EMPTY)
    ensures
      var s := Run(lib, cfg, EMPTY, Ops(Imitation(lib.crc)));
      Get(lib, s, C()) == Absent && ReopensReading(lib, s, C(), Found([]))
  {
    hide *;
    var view := ForgedRun(lib, cfg);
    ForgedRead(lib, view);
  }

  // --------------------------------------------------------------------- the open fails

  /** A value that looks like the header of an entry with one byte of data. */
  ghost function Header(crc: Crc): (v: Bytes)
    ensures |v| == 50
  {
    Encode(crc, Plain(C(), [7]))[..50]
  }

  lemma HeaderRescan(crc: Crc)
    requires Shape(Collected(Header(crc)))
    ensures Rescan(crc, Collected(Header(crc)), 1).ScanFailed?
  {
    hide DecodeAt, EncodeLog, Encode, Shape, Scan, WellPlaced;
    var v := Header(crc);
    CollectedFile(crc, v);
    var s, file := Collected(v), EncodeLog(crc, KeptLog(v));
    assert file[50..100] == file[50..] == v;
    HeaderAlone(crc, file, Plain(C(), [7]));
    ScanStops(crc, file, 50);
  }

  lemma HeaderAlone(crc: Crc, file: Bytes, e: Entry)
    requires |e.data| == 1 && |file| == 100 && file[50..100] == Encode(crc, e)[..50]
    ensures DecodeAt(crc, file, 50).IoError?
  {
    hide DecodeHeader, Framed, Body;
    HeaderDecodes(crc(Body(e)), e);
  }

  /** Stored data that looks like a header at the watermark: after the collection the store does not open any more. */
  lemma ReopenFails(lib: Lib, cfg: Config)
    requires Lawful(lib) && cfg.Valid() && cfg.gcRatio <= 0.5
    ensures Shape(EMPTY)
    ensures
      var s := Run(lib, cfg, EMPTY, Ops(Header(lib.crc)));
      && Get(lib, s, A()) == Found(Header(lib.crc))
      && Reopen(lib.crc, DiskOf(lib.crc, s), false, s.meta.active + 1).OpenFailed?
  {
    hide *;
    var v := Header(lib.crc);
    var view := CollectedRun(lib, cfg, v, A());
    HeaderRescan(lib.crc);
    FirstFails(lib.crc, v);
    ReopenAny(lib.crc, Collected(v));
  }

  lemma FirstFails(crc: Crc, v: Bytes)
    requires |v| <= 100 && Shape(Collected(v)) && Rescan(crc, Collected(v), 1).ScanFailed?
    ensures !AllOpen(crc, Collected(v), Collected(v).meta.active + 1)
  {
    hide Rescan, Shape;
  }
}
