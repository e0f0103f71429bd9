/** Every run, with any collections, followed by a reopen (engine.rs, gc.rs, recovery.rs). */
module AnyRun {
  import opened Words
  import opened Compression
  import opened Segment
  import opened SegmentLog
  import opened Index
  import opened BlobStore
  import opened Gc
  import opened GcMeaning
  import opened GcTransparency
  import opened Reads
  import opened Runs
  import opened Recovery
  import opened Crash
  import opened Marks
  import opened Reopening
  import opened CrashPoints
  import opened Restarts
  import opened Watermark
  import opened Rebuild

  /** In every run the saved metadata is no newer than the files. */
  lemma {:induction false} RunSaved(lib: Lib, cfg: Config, st: Store, ops: seq<Op>)
    requires Shape(st) && SavedOlder(st)
    ensures SavedOlder(Run(lib, cfg, st, ops))
  {
    hide Shape, SavedOlder, Step;
    if ops != [] {
      RunSaved(lib, cfg, st, ops[..|ops| - 1]);
      StepSaved(lib, cfg, Run(lib, cfg, st, ops[..|ops| - 1]), ops[|ops| - 1]);
    }
  }

  /**
   * Any run, with any collections, rejected batches and data, then a reopen: it succeeds with every key reading as
   * the last write left it if and only if no scan from a watermark fails, the last entry found for each key reads
   * as the last write, and no other live row points into bytes that a scan cuts off.
   */
  lemma RunThenReopen(lib: Lib, cfg: Config, ops: seq<Op>)
    requires Lawful(lib) && GcSafe(lib, cfg, EMPTY, ops)
    ensures
      var s, model := Run(lib, cfg, EMPTY, ops), Effects(map[], ops);
      var r, found := Reopen(lib.crc, DiskOf(lib.crc, s), false, s.meta.active + 1), Replayed(lib.crc, s);
      (r.Opened? && forall k :: DiskGet(lib, r.disk, k) == LastWrite(model, k)) <==>
        && AllOpen(lib.crc, s, s.meta.active + 1)
        && (forall k :: LastEntry(found, k).Some? ==> ReadEntry(lib, LastEntry(found, k).value) == LastWrite(model, k))
        && (forall k :: LastEntry(found, k).None? ==> !CutAway(lib.crc, s, k))
  {
    hide *;
    EmptyInv();
    var s, model := Run(lib, cfg, EMPTY, ops), Effects(map[], ops);
    EmptySaved();
    EmptyStands(lib);
    RunSaved(lib, cfg, EMPTY, ops);
    var view := RunRefines(lib, cfg, EMPTY, map[], map[], ops);
    ReopenAnyHarmless(lib, s, view, model);
    forall k: Key ensures Get(lib, s, k) == LastWrite(model, k) {
      EveryRunReadsLastWrite(lib, cfg, ops, k);
      LastWriteIs(model, k);
    }
  }

  lemma EmptySaved()
    ensures SavedOlder(EMPTY)
  {
  }

  /** What the map of values says of `k`. */
  function LastWrite(model: Model, k: Key): GetResult {
    if k in model then Found(model[k]) else Absent
  }

  lemma LastWriteIs(model: Model, k: Key)
    ensures LastWrite(model, k) == if k in model then Found(model[k]) else Absent
  {
  }

  // ------------------------------------------- one collection, then writes, then a reopen

  /** Every watermark is at its end but that of segment `t`, which covers `i` entries. */
  ghost predicate BehindIn(s: Store, t: nat, log: Log, i: nat)
    ensures BehindIn(s, t, log, i) ==> Shape(s)
  {
    t in s.logs && s.logs[t] == log && t < s.meta.active && Resumable(s, FullCut(s.logs)[t := i])
  }

  lemma OneBehind(logs: map<nat, Log>, t: nat, i: nat, hi: nat)
    requires t in logs && i <= |logs[t]|
    ensures Fits(logs, FullCut(logs)[t := i])
    ensures Behind(logs, FullCut(logs)[t := i], hi) == if t < hi then Entries(logs[t][i..]) else []
  {
    if hi != 0 {
      OneBehind(logs, t, i, hi - 1);
      if hi - 1 in logs && hi - 1 != t {
        assert Entries(logs[hi - 1][|logs[hi - 1]|..]) == [];
      }
    }
  }

  /** Writes elsewhere leave the segment and its watermark alone. */
  lemma StepBehindIn(lib: Lib, cfg: Config, st: Store, t: nat, log: Log, i: nat, op: Op)
    requires BehindIn(st, t, log, i) && !op.Gc? && (op.PutBatch? ==> Accepted(op.items) == |op.items|)
    ensures BehindIn(Step(lib, cfg, st, op), t, log, i)
  {
    hide Shape, Resumable, MidCut, AppendedRecords, Writes, Step, Flat, FullCut, Accepted;
    var cut, s, recs := FullCut(st.logs)[t := i], Step(lib, cfg, st, op), AppendedRecords(st, Writes(lib, cfg, op));
    StepResumable(lib, cfg, st, cut, op);
    GrewLogs(st, cut, s, recs);
    assert FullCut(st.logs).Keys == st.logs.Keys by { FullCutIs(st.logs); }
    FullCutIs(st.logs);
    FullCutIs(s.logs);
    forall id | id in s.logs ensures MidCut(st, cut, s.logs, |recs|)[id] == FullCut(s.logs)[t := i][id] {
      MidCutEnd(st, cut, s, recs, id);
    }
    assert MidCut(st, cut, s.logs, |recs|) == FullCut(s.logs)[t := i];
  }

  lemma FullCutIs(logs: map<nat, Log>)
    ensures FullCut(logs).Keys == logs.Keys && forall id :: id in logs ==> FullCut(logs)[id] == |logs[id]|
  {
  }

  lemma GrewLogs(st: Store, cut: map<nat, nat>, s: Store, recs: seq<IndexRecord>)
    requires GrewBy(st, cut, s, recs)
    ensures st.meta.active <= s.meta.active
    ensures forall id :: id in st.logs ==> id in s.logs && (id < st.meta.active ==> s.logs[id] == st.logs[id])
  {
  }

  lemma {:induction false} RunBehindIn(lib: Lib, cfg: Config, st: Store, t: nat, log: Log, i: nat, ops: seq<Op>)
    requires BehindIn(st, t, log, i)
    requires forall n :: 0 <= n < |ops| ==> !ops[n].Gc? && (ops[n].PutBatch? ==> Accepted(ops[n].items) == |ops[n].items|)
    ensures BehindIn(Run(lib, cfg, st, ops), t, log, i)
  {
    hide BehindIn, Step, Accepted;
    if ops != [] {
      var n := |ops| - 1;
      RunBehindIn(lib, cfg, st, t, log, i, ops[..n]);
      StepBehindIn(lib, cfg, Run(lib, cfg, st, ops[..n]), t, log, i, ops[n]);
    }
  }

  /** A collection of a store at rest leaves its kept entries from the boundary on behind the watermark. */
  lemma CollectBehindIn(cfg: Config, st: Store, view: View, i: nat)
    requires Resumable(st, FullCut(st.logs)) && Inv(st, view) && Prepare(cfg, st).Some?
    requires DataBytes(Prepare(cfg, st).value.log) > 0 && BoundaryAt(Prepare(cfg, st).value.log, i)
    ensures BehindIn(Collect(cfg, st), Prepare(cfg, st).value.seg, Prepare(cfg, st).value.log, i)
  {
    hide Prepare, Shape, Means, LogOk, DataBytes, Collect, Compact, InsertAll, BoundaryAt, Resumable;
    var p, s := Prepare(cfg, st).value, Collect(cfg, st);
    CollectedDisk(cfg, st, view);
    CollectResumable(cfg, st, FullCut(st.logs), view, i);
    ShapeIds(st);
    assert FullCut(st.logs)[p.seg := i] == FullCut(s.logs)[p.seg := i];
  }

  lemma BehindInFits(s: Store, t: nat, log: Log, i: nat)
    requires BehindIn(s, t, log, i)
    ensures i <= |log| && SavedOlder(s) && Covered(s.logs, s.saved, FullCut(s.logs)[t := i])
    ensures Behind(s.logs, FullCut(s.logs)[t := i], s.meta.active + 1) == Entries(log[i..])
  {
    hide Shape, Behind;
    ResumableShape(s, FullCut(s.logs)[t := i]);
    assert FullCut(s.logs)[t := i][t] == i;
    OneBehind(s.logs, t, i, s.meta.active + 1);
  }

  /**
   * A collection that keeps data and falls on the boundary `i`, then any writes, then a reopen: every read stays
   * as the writes left it if and only if every key kept from that boundary on still reads as it was kept. A key
   * overwritten or deleted since then reads as it was kept.
   */
  lemma CollectWritesReopen(lib: Lib, cfg: Config, st: Store, view: View, model: Model, i: nat, ops: seq<Op>)
    requires Lawful(lib) && Resumable(st, FullCut(st.logs)) && Inv(st, view) && Stands(lib, view, model)
    requires Prepare(cfg, st).Some? && DataBytes(Prepare(cfg, st).value.log) > 0 && BoundaryAt(Prepare(cfg, st).value.log, i)
    requires forall n :: 0 <= n < |ops| ==> !ops[n].Gc? && (ops[n].PutBatch? ==> Accepted(ops[n].items) == |ops[n].items|)
    ensures Shape(Collect(cfg, st)) && i <= |Prepare(cfg, st).value.log|
    ensures
      var log := Prepare(cfg, st).value.log;
      var s := Run(lib, cfg, Collect(cfg, st), ops);
      && Shape(Reopened(lib.crc, s, []))
      && (forall n :: i <= n < |log| ==> Get(lib, Reopened(lib.crc, s, []), log[n].e.key) == Unpack(lib, log[n].e))
      && ((forall k :: Get(lib, Reopened(lib.crc, s, []), k) == Get(lib, s, k)) <==>
          (forall n :: i <= n < |log| ==> Get(lib, s, log[n].e.key) == Unpack(lib, log[n].e)))
  {
    hide *;
    var p, c := Prepare(cfg, st).value, Collect(cfg, st);
    var log := p.log;
    KeepingIsSafe(cfg, st);
    CollectBehindIn(cfg, st, view, i);
    CollectInv(cfg, st, view);
    RunBehindIn(lib, cfg, c, p.seg, log, i, ops);
    var s := Run(lib, cfg, c, ops);
    NoGcSafe(lib, cfg, c, ops);
    var v := RunRefines(lib, cfg, c, view, model, ops);
    BehindInFits(s, p.seg, log, i);
    NoTail(lib.crc, s);
    var cut := FullCut(s.logs)[p.seg := i];
    ReopenHarmless(lib, s, v, cut, []);
    Prepared(cfg, st, view);
    forall n | i <= n < |log|
      ensures LastEntry(Entries(log[i..]), log[n].e.key) == Some(log[n].e) && ReadEntry(lib, log[n].e) == Unpack(lib, log[n].e)
      ensures Get(lib, Reopened(lib.crc, s, []), log[n].e.key) == Unpack(lib, log[n].e)
    {
      KeptOnce(cfg, st, view, i, n);
      ReadLive(lib, log[n].e);
      ReopenReads(lib, s, v, cut, [], log[n].e.key);
    }
    forall k: Key
      ensures LastEntry(Entries(log[i..]), k).Some? ==> exists n :: i <= n < |log| && log[n].e.key == k && LastEntry(Entries(log[i..]), k) == Some(log[n].e)
    {
      LastKeptIs(log, i, k);
    }
  }

  lemma KeepingIsSafe(cfg: Config, st: Store)
    requires Prepare(cfg, st).Some? && DataBytes(Prepare(cfg, st).value.log) > 0
    ensures !DropsLive(Prepare(cfg, st).value)
  {
  }

  lemma NoGcSafe(lib: Lib, cfg: Config, st: Store, ops: seq<Op>)
    requires Shape(st) && forall n :: 0 <= n < |ops| ==> !ops[n].Gc?
    ensures GcSafe(lib, cfg, st, ops)
  {
  }

  lemma ReadLive(lib: Lib, e: Entry)
    requires !e.IsTombstone()
    ensures ReadEntry(lib, e) == Unpack(lib, e)
  {
  }

  lemma LastKeptIs(log: Log, i: nat, k: Key)
    requires i <= |log|
    ensures LastEntry(Entries(log[i..]), k).Some? ==> exists n :: i <= n < |log| && log[n].e.key == k && LastEntry(Entries(log[i..]), k) == Some(log[n].e)
  {
    hide LastEntry;
    var es := Entries(log[i..]);
    LastEntryMember(es, k);
    if LastEntry(es, k).Some? {
      var j :| 0 <= j < |es| && es[j] == LastEntry(es, k).value;
      assert log[i + j].e == es[j];
    }
  }

  /** A kept entry is live, and the last one for its key. */
  lemma KeptOnce(cfg: Config, st: Store, view: View, i: nat, n: nat)
    requires Inv(st, view) && Prepare(cfg, st).Some? && i <= n < |Prepare(cfg, st).value.log|
    ensures var log := Prepare(cfg, st).value.log;
      !log[n].e.IsTombstone() && LastEntry(Entries(log[i..]), log[n].e.key) == Some(log[n].e)
  {
    hide Prepare, Shape, Means, Compact, LastEntry, LogOk, Later;
    var p := Prepare(cfg, st).value;
    var log, e := p.log, p.log[n].e;
    Prepared(cfg, st, view);
    ShapeLogs(st, p.seg);
    assert Entries(log)[n] == e;
    KeptIsCurrent(st, view, p.seg, e);
    MeansLive(st, view, e.key);
    LastKeptIs(log, i, e.key);
    LastEntryMember(Entries(log[i..]), e.key);
    assert Entries(log[i..])[n - i] == e;
    var m :| i <= m < |log| && log[m].e.key == e.key && LastEntry(Entries(log[i..]), e.key) == Some(log[m].e);
    if m < n {
      CompactDistinct(st.index, p.seg, st.logs[p.seg], m, n);
    } else if n < m {
      CompactDistinct(st.index, p.seg, st.logs[p.seg], n, m);
    }
  }
}
