/**
 * Whole lives of a store: operations, collections, and crashes at any disk state followed by a reopen, in any
 * order (engine.rs, recovery.rs).
 */
module Lives {
  import opened Words
  import opened Compression
  import opened Segment
  import opened SegmentLog
  import opened Index
  import opened BlobStore
  import opened StoreWrites
  import opened Gc
  import opened GcMeaning
  import opened GcTransparency
  import opened Reads
  import opened Runs
  import opened Crash
  import opened Marks
  import opened Reopening
  import opened CrashPoints
  import opened CrashReads
  import opened Restarts
  import opened SegmentLimits

  /** The watermarks are entry boundaries. */
  ghost predicate Marked(st: Store)
    ensures Marked(st) ==> Shape(st)
  {
    exists cut :: Resumable(st, cut)
  }

  ghost function CutOf(st: Store): (cut: map<nat, nat>)
    requires Marked(st)
    ensures Resumable(st, cut)
  {
    var cut :| Resumable(st, cut);
    cut
  }

  /** A boundary is the end of one number of entries only. */
  lemma CutUnique(st: Store, a: map<nat, nat>, b: map<nat, nat>)
    requires Resumable(st, a) && Resumable(st, b)
    ensures a == b
  {
    hide Shape, WellPlaced, SavedOlder, SameMarks, End;
    forall id | id in st.logs ensures a[id] == b[id] {
      ShapeLogs(st, id);
      if a[id] < b[id] {
        EndsRise(st.logs[id], a[id], b[id] - 1);
      } else if b[id] < a[id] {
        EndsRise(st.logs[id], b[id], a[id] - 1);
      }
    }
  }

  // ------------------------------------------------------------------------------ lives

  /** An operation, or a crash at one of its disk states with some bytes behind the log, and the reopen. */
  datatype Event = Do(op: Op) | Crash(op: Op, point: nat, tail: Bytes)

  /** Collections fall on a boundary and drop no live value; a crash leaves bytes that recovery cuts off. */
  ghost predicate Possible(lib: Lib, cfg: Config, st: Store, ev: Event)
    ensures Possible(lib, cfg, st, ev) ==> Shape(st)
  {
    && Shape(st)
    && match ev
       case Do(op) =>
         op.Gc? ==> OnBoundary(cfg, st) && (Prepare(cfg, st).Some? ==> !DropsLive(Prepare(cfg, st).value))
       case Crash(op, i, tail) =>
         !op.Gc? && i < |Points(lib, cfg, st, op)| && CutsOff(lib.crc, Points(lib, cfg, st, op)[i].disk, tail)
  }

  ghost function After(lib: Lib, cfg: Config, st: Store, ev: Event): Store
    requires Possible(lib, cfg, st, ev)
  {
    match ev
    case Do(op) => Step(lib, cfg, st, op)
    case Crash(op, i, tail) => Reopened(lib.crc, Points(lib, cfg, st, op)[i].disk, tail)
  }

  ghost predicate Life(lib: Lib, cfg: Config, states: seq<Store>, evs: seq<Event>) {
    && |states| == |evs| + 1 && states[0] == EMPTY
    && forall i :: 0 <= i < |evs| ==>
         Possible(lib, cfg, states[i], evs[i]) && states[i + 1] == After(lib, cfg, states[i], evs[i])
  }

  // -------------------------------------------------------------------------- invariants

  lemma EmptyMarked()
    ensures Resumable(EMPTY, FullCut(EMPTY.logs)) && Marked(EMPTY)
  {
    EmptyInv();
    EmptyLog();
  }

  /** Every operation keeps the index pointing at live entries. */
  lemma StepInv(lib: Lib, cfg: Config, st: Store, view: View, op: Op) returns (after: View)
    requires Inv(st, view) && (op.Gc? && Prepare(cfg, st).Some? ==> !DropsLive(Prepare(cfg, st).value))
    ensures Inv(Step(lib, cfg, st, op), after)
  {
    hide Shape, Means, Pack, WriteOne, CommitBatch, AppendMany, AppendedRecords, Collect, Prepare, DropsLive, CountDeleted,
      SealActive, DeleteBatch, ApplyAll, EntryOk;
    after := view;
    match op
    case Put(item) =>
      if |item.value| <= MAX_VALUE_SIZE {
        var e := Pack(lib, cfg, item.key, item.value, item.codec);
        PackOk(lib, cfg, item);
        WriteOneInv(st, e, view);
        after := Apply(view, e);
      }
    case Delete(k) =>
      CountDeletedInv(st, k, view);
      TombstoneOk(k);
      WriteOneInv(CountDeleted(st, k), Tombstone(k), view);
      after := Apply(view, Tombstone(k));
    case PutBatch(items) =>
      var es := PackAll(lib, cfg, items[..Accepted(items)]);
      if Accepted(items) < |items| || items == [] {
        RejectedInv(st, es, view);
      } else {
        BatchInv(st, es, view);
        after := ApplyAll(view, es);
      }
    case DeleteKeys(keys) =>
      DeleteBatchInv(st, keys, view);
      after := ApplyAll(view, Tombstones(keys));
    case Seal => SealInv(st, view);
    case Flush => ShapeIgnoresIndex(st, st.index, st.meta);
    case Gc => CollectInv(cfg, st, view);
  }

  lemma DoMarked(lib: Lib, cfg: Config, st: Store, view: View, op: Op)
    requires Marked(st) && Inv(st, view) && Possible(lib, cfg, st, Do(op))
    ensures Marked(Step(lib, cfg, st, op))
  {
    hide Shape, Means, Resumable, MidCut, GrewBy, BoundaryAt, Prepare, DropsLive, Collect, AppendedRecords, Writes;
    var cut := CutOf(st);
    if op.Gc? {
      var i := BoundaryIndex(cfg, st);
      CollectResumable(cfg, st, cut, view, i);
      StepGc(lib, cfg, st);
    } else {
      StepResumable(lib, cfg, st, cut, op);
    }
  }

  lemma StepGc(lib: Lib, cfg: Config, st: Store)
    requires Shape(st)
    ensures Step(lib, cfg, st, Op.Gc) == Collect(cfg, st)
  {
  }

  lemma BoundaryIndex(cfg: Config, st: Store) returns (i: nat)
    requires OnBoundary(cfg, st)
    ensures var p := Prepare(cfg, st); p.Some? && DataBytes(p.value.log) > 0 ==> BoundaryAt(p.value.log, i)
  {
    hide Prepare, DataBytes, BoundaryAt;
    i := 0;
    if Prepare(cfg, st).Some? && DataBytes(Prepare(cfg, st).value.log) > 0 {
      i :| BoundaryAt(Prepare(cfg, st).value.log, i);
    }
  }

  lemma CrashMarked(lib: Lib, cfg: Config, st: Store, view: View, ev: Event) returns (after: View)
    requires Marked(st) && Inv(st, view) && ev.Crash? && Possible(lib, cfg, st, ev)
    ensures Resumable(After(lib, cfg, st, ev), FullCut(After(lib, cfg, st, ev).logs)) && Inv(After(lib, cfg, st, ev), after)
  {
    hide Shape, Means, Resumable, Mid, CutsOff, Points, Reopened, ApplyAll, EntryOk, Writes, ReopensAs;
    var cut, es := CutOf(st), Writes(lib, cfg, ev.op);
    var p := Points(lib, cfg, st, ev.op)[ev.point];
    WritesOk(lib, cfg, ev.op);
    PointsAreMid(lib, cfg, st, cut, ev.op, ev.point);
    CrashMeans(lib.crc, st, cut, view, es, p.disk, p.written, p.indexed, p.marked, ev.tail);
    after := ApplyAll(ApplyAll(view, es[..p.indexed]), StillBehind(st, cut, p.disk, p.marked) + es[p.marked..p.written]);
  }

  /**
   * After every event of every life the watermarks are entry boundaries and the index points at live entries:
   * any crash or restart there is covered.
   */
  lemma {:induction false} LifeInv(lib: Lib, cfg: Config, states: seq<Store>, evs: seq<Event>, n: nat) returns (view: View)
    requires Life(lib, cfg, states, evs) && n < |states|
    ensures Marked(states[n]) && Inv(states[n], view)
  {
    hide Inv, Marked, Possible, After;
    if n == 0 {
      EmptyInv();
      EmptyMarked();
      view := map[];
    } else {
      var v := LifeInv(lib, cfg, states, evs, n - 1);
      var st, ev := states[n - 1], evs[n - 1];
      assert states[n] == After(lib, cfg, st, ev);
      view := EventInv(lib, cfg, st, v, ev);
    }
  }

  lemma EventInv(lib: Lib, cfg: Config, st: Store, view: View, ev: Event) returns (after: View)
    requires Marked(st) && Inv(st, view) && Possible(lib, cfg, st, ev)
    ensures Marked(After(lib, cfg, st, ev)) && Inv(After(lib, cfg, st, ev), after)
  {
    hide Shape, Means, Resumable, Step, Prepare, DropsLive, OnBoundary, Points, CutsOff, Reopened;
    match ev
    case Do(op) =>
      DoMarked(lib, cfg, st, view, op);
      after := StepInv(lib, cfg, st, view, op);
    case Crash(_, _, _) =>
      after := CrashMarked(lib, cfg, st, view, ev);
  }

  /** In every life every segment file stays within its limits, through roll-over, collection, crash and reopen. */
  lemma LifeWithinLimits(lib: Lib, cfg: Config, states: seq<Store>, evs: seq<Event>, n: nat, id: nat)
    requires Life(lib, cfg, states, evs) && n < |states| && id in states[n].logs
    ensures LogOk(states[n].logs[id]) && WithinLimits(lib.crc, id, states[n].logs[id])
  {
    hide Life, Inv, Marked, WithinLimits, LogOk;
    var view := LifeInv(lib, cfg, states, evs, n);
    ShapeLogs(states[n], id);
    LogWithinLimits(lib.crc, id, states[n].logs[id]);
  }

  // ----------------------------------------------------------------- what every key reads

  /** What the first `j` entries of an operation do to the map of values. */
  function PrefixEffect(model: Model, op: Op, j: nat): Model {
    match op
    case Put(item) => if j == 0 then model else model[item.key := item.value]
    case Delete(k) => if j == 0 then model else model - {k}
    case PutBatch(items) => if j <= |items| then PutInto(model, items[..j]) else model
    case DeleteKeys(keys) => if j <= |keys| then model - (set k | k in keys[..j]) else model
    case _ => model
  }

  lemma PrefixStands(lib: Lib, cfg: Config, view: View, model: Model, op: Op, j: nat)
    requires Lawful(lib) && Stands(lib, view, model) && j <= |Writes(lib, cfg, op)|
    ensures Stands(lib, ApplyAll(view, Writes(lib, cfg, op)[..j]), PrefixEffect(model, op, j))
  {
    hide Lawful, Stands, Pack, Apply, Accepted;
    var es := Writes(lib, cfg, op);
    match op
    case Put(item) =>
      ApplyNone(view, es);
      if j == 1 {
        PackStands(lib, cfg, view, model, item.key, item.value, item.codec);
        ApplyOne(view, es[0]);
        assert es[..1] == [es[0]];
      }
    case Delete(k) =>
      ApplyNone(view, es);
      if j == 1 {
        DeleteOneStands(lib, view, model, k);
        ApplyOne(view, es[0]);
        assert es[..1] == [es[0]];
      }
    case PutBatch(items) =>
      var all := items[..Accepted(items)];
      assert all[..j] == items[..j];
      assert es[..j] == PackAll(lib, cfg, items[..j]);
      PackAllStands(lib, cfg, view, model, items[..j]);
    case DeleteKeys(keys) =>
      assert es[..j] == Tombstones(keys[..j]);
      DeleteStands(lib, view, model, keys[..j]);
    case _ => ApplyNone(view, es);
  }

  lemma ApplyNone(view: View, es: seq<Entry>)
    ensures ApplyAll(view, es[..0]) == view
  {
    assert es[..0] == [];
  }

  lemma ApplyOne(view: View, e: Entry)
    ensures ApplyAll(view, [e]) == Apply(view, e)
  {
    assert [e][..0] == [];
    assert ApplyAll(view, [e]) == Apply(ApplyAll(view, []), e);
  }

  /** No entry that was behind the watermarks overtakes what the crashed operation wrote. */
  ghost predicate Harmless(lib: Lib, cfg: Config, st: Store, ev: Event) {
    ev.Crash? && Marked(st) && !ev.op.Gc? && ev.point < |Points(lib, cfg, st, ev.op)| ==>
      var p, es := Points(lib, cfg, st, ev.op)[ev.point], Writes(lib, cfg, ev.op);
      p.marked <= p.written <= |es| ==>
        forall k :: !Overtaken(lib, st, CutOf(st), es, p.disk, p.written, p.marked, k)
  }

  function EventEffect(lib: Lib, cfg: Config, st: Store, model: Model, ev: Event): Model
    requires st.Ready()
  {
    match ev
    case Do(op) => Effect(model, op)
    case Crash(op, i, _) =>
      if !op.Gc? && i < |Points(lib, cfg, st, op)| then PrefixEffect(model, op, Points(lib, cfg, st, op)[i].written) else model
  }

  lemma StandsByReads(lib: Lib, a: View, b: View, model: Model)
    requires Stands(lib, a, model) && forall k :: ViewRead(lib, b, k) == ViewRead(lib, a, k)
    ensures Stands(lib, b, model)
  {
    forall k ensures k in b <==> k in a {
      assert ViewRead(lib, b, k) == ViewRead(lib, a, k);
    }
    forall k | k in b ensures Unpack(lib, b[k]) == Found(model[k]) {
      assert ViewRead(lib, b, k) == ViewRead(lib, a, k);
    }
  }

  lemma CrashStands(lib: Lib, cfg: Config, st: Store, view: View, model: Model, ev: Event) returns (after: View)
    requires Lawful(lib) && Marked(st) && Inv(st, view) && Stands(lib, view, model)
    requires ev.Crash? && Possible(lib, cfg, st, ev) && Harmless(lib, cfg, st, ev)
    ensures Inv(After(lib, cfg, st, ev), after) && Stands(lib, after, EventEffect(lib, cfg, st, model, ev))
  {
    hide Shape, Means, Resumable, Mid, CutsOff, Points, Reopened, ApplyAll, EntryOk, Writes, Stands, Overtaken, PrefixEffect, Lawful,
      ViewRead, StillBehind, ReopensAs;
    var cut, es := CutOf(st), Writes(lib, cfg, ev.op);
    var p := Points(lib, cfg, st, ev.op)[ev.point];
    after := CrashMarked(lib, cfg, st, view, ev);
    WritesOk(lib, cfg, ev.op);
    PointsAreMid(lib, cfg, st, cut, ev.op, ev.point);
    MidFacts(st, cut, es, p.disk, p.written, p.indexed, p.marked);
    var expected := ApplyAll(view, es[..p.written]);
    forall k ensures ViewRead(lib, after, k) == ViewRead(lib, expected, k) {
      CrashReadsKey(lib, st, cut, view, es, p.disk, p.written, p.indexed, p.marked, ev.tail, k);
      ReadsAsView(lib, Reopened(lib.crc, p.disk, ev.tail), after, k);
      PrefixMeans(lib, st, view, es, p.written, k);
    }
    PrefixStands(lib, cfg, view, model, ev.op, p.written);
    StandsByReads(lib, expected, after, EventEffect(lib, cfg, st, model, ev));
  }

  lemma ReadsAsView(lib: Lib, s: Store, view: View, k: Key)
    requires Inv(s, view)
    ensures Get(lib, s, k) == ViewRead(lib, view, k)
  {
    hide Shape, Means, Get, Unpack;
    GetMeans(lib, s, view, k);
  }

  /** The map of values after each event: an operation has its effect, a crash that of the prefix on disk. */
  ghost function LifeModel(lib: Lib, cfg: Config, states: seq<Store>, evs: seq<Event>, n: nat): Model
    requires Life(lib, cfg, states, evs) && n < |states|
  {
    if n == 0 then map[] else
      EventEffect(lib, cfg, states[n - 1], LifeModel(lib, cfg, states, evs, n - 1), evs[n - 1])
  }

  lemma {:induction false} LifeStands(lib: Lib, cfg: Config, states: seq<Store>, evs: seq<Event>, n: nat) returns (view: View)
    requires Lawful(lib) && Life(lib, cfg, states, evs) && n < |states|
    requires forall i :: 0 <= i < n ==> Harmless(lib, cfg, states[i], evs[i])
    ensures Marked(states[n]) && Inv(states[n], view) && Stands(lib, view, LifeModel(lib, cfg, states, evs, n))
  {
    hide Inv, Marked, Possible, After, Harmless, Stands, Lawful, EventEffect;
    if n == 0 {
      EmptyInv();
      EmptyMarked();
      EmptyStands(lib);
      view := map[];
    } else {
      var v := LifeStands(lib, cfg, states, evs, n - 1);
      var st, ev := states[n - 1], evs[n - 1];
      assert states[n] == After(lib, cfg, st, ev);
      assert Harmless(lib, cfg, st, ev);
      view := EventStands(lib, cfg, st, v, LifeModel(lib, cfg, states, evs, n - 1), ev);
      var w := EventInv(lib, cfg, st, v, ev);
    }
  }

  lemma EventStands(lib: Lib, cfg: Config, st: Store, view: View, model: Model, ev: Event) returns (after: View)
    requires Lawful(lib) && Marked(st) && Inv(st, view) && Stands(lib, view, model)
    requires Possible(lib, cfg, st, ev) && Harmless(lib, cfg, st, ev)
    ensures Inv(After(lib, cfg, st, ev), after) && Stands(lib, after, EventEffect(lib, cfg, st, model, ev))
  {
    hide Shape, Means, Resumable, Step, Prepare, DropsLive, OnBoundary, Points, CutsOff, Reopened, Stands, Lawful, Effect, Harmless,
      PrefixEffect;
    match ev
    case Do(op) => after := StepRefines(lib, cfg, st, view, model, op);
    case Crash(_, _, _) => after := CrashStands(lib, cfg, st, view, model, ev);
  }

  /** In every life whose crashes are harmless, every key reads as the last write that survived left it. */
  lemma LifeReads(lib: Lib, cfg: Config, states: seq<Store>, evs: seq<Event>, n: nat, k: Key)
    requires Lawful(lib) && Life(lib, cfg, states, evs) && n < |states|
    requires forall i :: 0 <= i < n ==> Harmless(lib, cfg, states[i], evs[i])
    ensures Marked(states[n])
    ensures Get(lib, states[n], k) ==
      var m := LifeModel(lib, cfg, states, evs, n); if k in m then Found(m[k]) else Absent
  {
    hide Life, Inv, Marked, Harmless, Lawful, Get, LifeModel, Stands;
    var view := LifeStands(lib, cfg, states, evs, n);
    GetMeans(lib, states[n], view, k);
    StandsAt(lib, view, LifeModel(lib, cfg, states, evs, n), k);
  }

  // ------------------------------------------------- lives that leave nothing behind the watermarks

  /** No rejected batch, and no collection that keeps data in its segment. */
  ghost predicate Restful(cfg: Config, st: Store, ev: Event) {
    match ev
    case Crash(_, _, _) => true
    case Do(op) =>
      && (op.PutBatch? ==> Accepted(op.items) == |op.items|)
      && (op.Gc? ==> Prepare(cfg, st).Some? ==> DataBytes(Prepare(cfg, st).value.log) == 0)
  }

  lemma FullAfterWrites(st: Store, s: Store, recs: seq<IndexRecord>)
    requires Resumable(st, FullCut(st.logs)) && GrewBy(st, FullCut(st.logs), s, recs)
    ensures MidCut(st, FullCut(st.logs), s.logs, |recs|) == FullCut(s.logs)
  {
    hide Shape, Flat, LogsGrown, MidCut, Resumable;
    forall id | id in s.logs ensures MidCut(st, FullCut(st.logs), s.logs, |recs|)[id] == |s.logs[id]| {
      MidCutEnd(st, FullCut(st.logs), s, recs, id);
    }
  }

  lemma RestfulStep(lib: Lib, cfg: Config, st: Store, view: View, op: Op)
    requires Resumable(st, FullCut(st.logs)) && Inv(st, view)
    requires Possible(lib, cfg, st, Do(op)) && Restful(cfg, st, Do(op))
    ensures var s := Step(lib, cfg, st, op); Resumable(s, FullCut(s.logs))
  {
    hide Shape, Means, Resumable, MidCut, GrewBy, BoundaryAt, Collect, AppendedRecords, Writes, DataBytes, Prepare, FullCut, OnBoundary,
      DropsLive, Accepted, Step;
    if op.Gc? {
      CollectResumable(cfg, st, FullCut(st.logs), view, 0);
      CollectedFull(cfg, st, view);
      StepGc(lib, cfg, st);
    } else {
      StepResumable(lib, cfg, st, FullCut(st.logs), op);
      FullAfterWrites(st, Step(lib, cfg, st, op), AppendedRecords(st, Writes(lib, cfg, op)));
    }
  }

  lemma CollectedFull(cfg: Config, st: Store, view: View)
    requires Inv(st, view) && (Prepare(cfg, st).Some? ==> DataBytes(Prepare(cfg, st).value.log) == 0)
    ensures CollectedCut(cfg, st, FullCut(st.logs), 0) == FullCut(Collect(cfg, st).logs)
  {
    hide Prepare, Shape, Means, DataBytes, Collect, Compact, InsertAll;
    if Prepare(cfg, st).Some? {
      CollectedDisk(cfg, st, view);
    } else {
      NoCollection(cfg, st);
    }
  }

  lemma {:induction false} RestfulFull(lib: Lib, cfg: Config, states: seq<Store>, evs: seq<Event>, n: nat)
    requires Life(lib, cfg, states, evs) && n < |states|
    requires forall i :: 0 <= i < n ==> Restful(cfg, states[i], evs[i])
    ensures Resumable(states[n], FullCut(states[n].logs))
  {
    hide Inv, Possible, After, Restful, Resumable, Marked;
    if n == 0 {
      EmptyMarked();
    } else {
      RestfulFull(lib, cfg, states, evs, n - 1);
      var v := LifeInv(lib, cfg, states, evs, n - 1);
      var st, ev := states[n - 1], evs[n - 1];
      assert states[n] == After(lib, cfg, st, ev);
      assert Restful(cfg, st, ev);
      RestfulEvent(lib, cfg, st, v, ev);
    }
  }

  lemma RestfulEvent(lib: Lib, cfg: Config, st: Store, view: View, ev: Event)
    requires Marked(st) && Resumable(st, FullCut(st.logs)) && Inv(st, view) && Possible(lib, cfg, st, ev) && Restful(cfg, st, ev)
    ensures Resumable(After(lib, cfg, st, ev), FullCut(After(lib, cfg, st, ev).logs))
  {
    hide Shape, Means, Resumable, Step, Prepare, DropsLive, OnBoundary, Points, CutsOff, Reopened, Restful, Possible, Marked;
    match ev
    case Do(op) => RestfulStep(lib, cfg, st, view, op);
    case Crash(_, _, _) => var w := CrashMarked(lib, cfg, st, view, ev);
  }

  /** With every watermark at its end nothing can overtake. */
  lemma FullHarmless(lib: Lib, cfg: Config, st: Store, ev: Event)
    requires Resumable(st, FullCut(st.logs))
    ensures Harmless(lib, cfg, st, ev)
  {
    hide Resumable, Shape, Points, Writes, StillBehind, FullCut;
    if ev.Crash? && Marked(st) && !ev.op.Gc? && ev.point < |Points(lib, cfg, st, ev.op)| {
      CutUnique(st, FullCut(st.logs), CutOf(st));
      var p := Points(lib, cfg, st, ev.op)[ev.point];
      FullStillBehind(st, p.disk, p.marked);
    }
  }

  /**
   * In every life without rejected batches and without collections that keep data in their segment, however
   * often and wherever it crashes, every key reads as the last write that survived left it: all of a completed
   * operation and the appended prefix of a crashed one.
   */
  lemma RestfulLifeReads(lib: Lib, cfg: Config, states: seq<Store>, evs: seq<Event>, n: nat, k: Key)
    requires Lawful(lib) && Life(lib, cfg, states, evs) && n < |states|
    requires forall i :: 0 <= i < n ==> Restful(cfg, states[i], evs[i])
    ensures Shape(states[n])
    ensures Get(lib, states[n], k) ==
      var m := LifeModel(lib, cfg, states, evs, n); if k in m then Found(m[k]) else Absent
  {
    hide *;
    LifeLength(lib, cfg, states, evs);
    forall i | 0 <= i < n ensures Harmless(lib, cfg, states[i], evs[i]) {
      RestfulFull(lib, cfg, states, evs, i);
      FullHarmless(lib, cfg, states[i], evs[i]);
    }
    LifeReads(lib, cfg, states, evs, n, k);
  }

  lemma LifeLength(lib: Lib, cfg: Config, states: seq<Store>, evs: seq<Event>)
    requires Life(lib, cfg, states, evs)
    ensures |states| == |evs| + 1
  {
  }
}
