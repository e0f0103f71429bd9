/** Which operations leave a store that a reopen can resume from, and where its watermarks are (engine.rs). */
module Restarts {
  import opened Words
  import opened Compression
  import opened Segment
  import opened SegmentLog
  import opened Index
  import opened BlobStore
  import opened StoreWrites
  import opened Gc
  import opened GcMeaning
  import opened GcTransparency
  import opened Reads
  import opened Runs
  import opened Recovery
  import opened Crash
  import opened Marks
  import opened Reopening
  import opened CrashPoints
  import opened CrashReads
  import opened SingleWrites

  lemma GrownResumable(st: Store, cut: map<nat, nat>, s: Store)
    requires Resumable(st, cut) && Shape(s) && GrownFrom(st, s)
    ensures Resumable(s, MidCut(st, cut, s.logs, 0))
  {
    hide Shape, Covered, MidCut, LogsGrown;
    GrownMarked(st, cut, s);
  }

  lemma CommittedResumable(st: Store, cut: map<nat, nat>, es: seq<Entry>, a: Store)
    requires Resumable(st, cut) && Loop(st, cut, es, a) && es != []
    ensures var s := CommitBatch(a, AppendedRecords(st, es));
      Resumable(s, MidCut(st, cut, s.logs, |es|)) && GrewBy(st, cut, s, AppendedRecords(st, es))
  {
    hide Shape, Covered, MidCut, LogsGrown, Mid, GrownFrom, InsertAll, MarkAll, AppendedRecords, Flat, Resumable;
    var recs := AppendedRecords(st, es);
    var d := Indexed(a.(saved := a.meta), recs);
    IndexedIsMid(st, cut, es, a.(saved := a.meta));
    GrownIndexed(st, a, d.index);
    MarkedIsMid(st, cut, es, d, |es|);
    assert recs[..|es|] == recs;
    var s := MarkAll(d, recs);
    MidFacts(st, cut, es, s, |es|, |es|, |es|);
    MidGrew(st, cut, es, s, |es|);
    SavedMarks(s, MidCut(st, cut, s.logs, |es|));
  }

  lemma SavedMarks(s: Store, cut: map<nat, nat>)
    requires Shape(s) && SavedOlder(s) && s.saved == s.meta && Covered(s.logs, s.meta, cut)
    ensures Resumable(s, cut)
  {
    hide LogOk;
  }

  lemma MidGrew(st: Store, cut: map<nat, nat>, es: seq<Entry>, c: Store, q: nat)
    requires Resumable(st, cut) && Mid(st, cut, es, c, |es|, q, q)
    ensures GrewBy(st, cut, c, AppendedRecords(st, es))
  {
    hide Shape, LogsGrown, Extends, Flat, AppendMany, AppendedRecords, InsertAll;
    assert es[..|es|] == es;
  }

  /** How many of its entries the operation marks. */
  function MarksOf(lib: Lib, cfg: Config, op: Op): nat {
    if op.PutBatch? && Accepted(op.items) < |op.items| then 0 else |Writes(lib, cfg, op)|
  }

  /** `s` resumes where `st` left off, with the first `m` of the records `recs` marked. */
  ghost predicate Resumes(st: Store, cut: map<nat, nat>, s: Store, recs: seq<IndexRecord>, m: nat)
    requires Resumable(st, cut)
  {
    Resumable(s, MidCut(st, cut, s.logs, m)) && GrewBy(st, cut, s, recs)
  }

  lemma PutResumes(lib: Lib, cfg: Config, st: Store, cut: map<nat, nat>, item: Item)
    requires Resumable(st, cut)
    ensures var es := Writes(lib, cfg, Put(item)); Resumes(st, cut, PutItem(lib, cfg, st, item), AppendedRecords(st, es), |es|)
  {
    hide Shape, Resumable, Loop, MidCut, Pack, CommitBatch, WriteOne, AppendMany, AppendedRecords, GrewBy;
    if |item.value| <= MAX_VALUE_SIZE {
      var e := Pack(lib, cfg, item.key, item.value, item.codec);
      PackOk(lib, cfg, item);
      WriteOneIsBatch(st, e);
      PutsLoop(st, cut, [e]);
      CommittedResumable(st, cut, [e], AppendMany(st, [e]));
    } else {
      StillResumable(st, cut, st);
    }
  }

  lemma DeletesResume(st: Store, cut: map<nat, nat>, keys: seq<Key>)
    requires Resumable(st, cut)
    ensures Resumes(st, cut, DeleteBatch(st, keys), AppendedRecords(st, Tombstones(keys)), |keys|)
  {
    hide Shape, Resumable, Loop, MidCut, CommitBatch, DeleteMany, AppendedRecords, GrewBy, Tombstones;
    if keys == [] {
      assert Tombstones(keys) == [];
      StillResumable(st, cut, st);
    } else {
      DeletesLoop(st, cut, keys);
      CommittedResumable(st, cut, Tombstones(keys), DeleteMany(st, keys));
    }
  }

  lemma PutBatchResumes(lib: Lib, cfg: Config, st: Store, cut: map<nat, nat>, items: seq<Item>)
    requires Resumable(st, cut)
    ensures var es := Writes(lib, cfg, PutBatch(items));
      Resumes(st, cut, PutItems(lib, cfg, st, items), AppendedRecords(st, es), MarksOf(lib, cfg, PutBatch(items)))
  {
    hide Shape, Resumable, Loop, MidCut, CommitBatch, AppendMany, AppendedRecords, GrewBy, Accepted, EntryOk;
    var es := PackAll(lib, cfg, items[..Accepted(items)]);
    if Accepted(items) < |items| || items == [] {
      AppendManyResumable(st, cut, es);
    } else {
      PutsLoop(st, cut, es);
      CommittedResumable(st, cut, es, AppendMany(st, es));
    }
  }

  /** Every operation but a collection leaves boundary watermarks. */
  lemma StepResumable(lib: Lib, cfg: Config, st: Store, cut: map<nat, nat>, op: Op)
    requires Resumable(st, cut) && !op.Gc?
    ensures Resumes(st, cut, Step(lib, cfg, st, op), AppendedRecords(st, Writes(lib, cfg, op)), MarksOf(lib, cfg, op))
  {
    hide Shape, Resumable, Resumes, PutItem, PutItems, DeleteOne, DeleteBatch, SealActive, AppendedRecords, Accepted, Tombstones;
    match op
    case Put(item) => PutResumes(lib, cfg, st, cut, item);
    case Delete(k) =>
      DeleteOneIsBatch(st, k);
      OneTombstone(k);
      DeletesResume(st, cut, [k]);
    case PutBatch(items) => PutBatchResumes(lib, cfg, st, cut, items);
    case DeleteKeys(keys) => DeletesResume(st, cut, keys);
    case Seal => StillResumable(st, cut, SealActive(st));
    case Flush => StillResumable(st, cut, st.(saved := st.meta));
  }

  lemma OneTombstone(k: Key)
    ensures Tombstones([k]) == [Tombstone(k)]
  {
  }

  /** Operations that write nothing. */
  lemma StillResumable(st: Store, cut: map<nat, nat>, s: Store)
    requires Resumable(st, cut) && (s == st || s == SealActive(st) || s == st.(saved := st.meta))
    ensures Resumes(st, cut, s, AppendedRecords(st, []), 0)
  {
    hide Shape, Covered, MidCut, SealActive, Flat, LogsGrown;
    GrownSelf(st);
    SealGrown(st, st);
    SealShape(st);
    SealHistory(st);
    ShapeIgnoresIndex(st, st.index, st.meta);
    MetaKeys(st);
    GrownResumable(st, cut, s);
    assert st.History() + [] == st.History();
  }

  lemma AppendManyResumable(st: Store, cut: map<nat, nat>, es: seq<Entry>)
    requires Resumable(st, cut) && forall i :: 0 <= i < |es| ==> EntryOk(es[i])
    ensures var s := AppendMany(st, es);
      Resumable(s, MidCut(st, cut, s.logs, 0)) && GrewBy(st, cut, s, AppendedRecords(st, es))
  {
    hide Shape, Covered, MidCut, Flat, LogsGrown, AppendMany, AppendedRecords, EntryOk;
    AppendManyFacts(st, es);
    AppendManyGrown(st, es);
    GrownResumable(st, cut, AppendMany(st, es));
  }

  // -------------------------------------------------------------- rejected batches

  /** After a rejected batch what lies behind the watermarks is what did before, and then what the batch left. */
  lemma RejectedBehind(st: Store, cut: map<nat, nat>, view: View, es: seq<Entry>)
    requires Resumable(st, cut) && Inv(st, view) && (forall i :: 0 <= i < |es| ==> EntryOk(es[i]))
    ensures var s := AppendMany(st, es); var now := MidCut(st, cut, s.logs, 0);
      && Inv(s, view) && SavedOlder(s) && Covered(s.logs, s.saved, now)
      && Behind(s.logs, now, s.meta.active + 1) == Behind(st.logs, cut, st.meta.active + 1) + es
  {
    hide *;
    var s := AppendMany(st, es);
    assert es[..|es|] == es && es[0..|es|] == es;
    PutsLoop(st, cut, es);
    LoopMid(st, cut, es, s);
    MidFacts(st, cut, es, s, |es|, 0, 0);
    MidBehind(st, cut, view, es, s, |es|, 0, 0);
    AllStillBehind(st, cut, s);
    RejectedInv(st, es, view);
  }

  /** What a key reads after a rejected batch and a plain reopen. */
  lemma RejectedReads(lib: Lib, st: Store, cut: map<nat, nat>, view: View, es: seq<Entry>, tail: Bytes, k: Key)
    requires Resumable(st, cut) && Inv(st, view) && (forall i :: 0 <= i < |es| ==> EntryOk(es[i]))
    requires CutsOff(lib.crc, AppendMany(st, es), tail)
    ensures
      var s, behind := AppendMany(st, es), Behind(st.logs, cut, st.meta.active + 1) + es;
      && Shape(Reopened(lib.crc, s, tail)) && Get(lib, s, k) == Get(lib, st, k)
      && Get(lib, Reopened(lib.crc, s, tail), k) ==
         match LastEntry(behind, k) case Some(e) => ReadEntry(lib, e) case None => Get(lib, s, k)
  {
    hide *;
    var s := AppendMany(st, es);
    RejectedBehind(st, cut, view, es);
    ReopenReads(lib, s, view, MidCut(st, cut, s.logs, 0), tail, k);
    GetMeans(lib, s, view, k);
    GetMeans(lib, st, view, k);
  }

  /**
   * A rejected batch, then a plain reopen with the index at hand: the reads are those of the running store if and
   * only if, for each key among the entries behind the watermarks and then those left by the batch, the last one
   * reads as the key reads now.
   */
  lemma RejectedThenReopened(lib: Lib, st: Store, cut: map<nat, nat>, view: View, es: seq<Entry>, tail: Bytes)
    requires Resumable(st, cut) && Inv(st, view) && (forall i :: 0 <= i < |es| ==> EntryOk(es[i]))
    requires CutsOff(lib.crc, AppendMany(st, es), tail)
    ensures
      var s, behind := AppendMany(st, es), Behind(st.logs, cut, st.meta.active + 1) + es;
      && Shape(Reopened(lib.crc, s, tail)) && (forall k :: Get(lib, s, k) == Get(lib, st, k))
      && ((forall k :: Get(lib, Reopened(lib.crc, s, tail), k) == Get(lib, s, k)) <==>
          (forall k :: LastEntry(behind, k).Some? ==> ReadEntry(lib, LastEntry(behind, k).value) == Get(lib, s, k)))
  {
    hide *;
    var s := AppendMany(st, es);
    RejectedBehind(st, cut, view, es);
    ReopenHarmless(lib, s, view, MidCut(st, cut, s.logs, 0), tail);
    forall k: Key ensures Get(lib, s, k) == Get(lib, st, k) {
      GetMeans(lib, s, view, k);
      GetMeans(lib, st, view, k);
    }
  }

  lemma LoopMid(st: Store, cut: map<nat, nat>, es: seq<Entry>, a: Store)
    requires Resumable(st, cut) && Loop(st, cut, es, a)
    ensures Mid(st, cut, es, a, |es|, 0, 0) && LogsGrown(st.logs, st.meta.active, a.logs, a.meta.active)
  {
    hide Shape, Extends, Flat, AppendMany, InsertAll;
  }

  /** With nothing new marked, all that was behind the watermarks still is. */
  lemma AllStillBehind(st: Store, cut: map<nat, nat>, s: Store)
    requires Resumable(st, cut) && LogsGrown(st.logs, st.meta.active, s.logs, s.meta.active)
    ensures StillBehind(st, cut, s, 0) == Behind(st.logs, cut, st.meta.active + 1)
  {
    hide Flat, Behind, Shape, CutAt;
    ActiveIsLast(st);
    GrownCut(st, s, st.meta.active);
    CutIs(s.logs, |st.History()|, st.meta.active);
  }

  // ------------------------------------------------------------------- collections

  /** The data kept after some entry adds up to 50 bytes per entry before it: the watermark is a boundary. */
  predicate BoundaryAt(log: Log, i: nat) {
    i <= |log| && DataBytes(log[i..]) == ENTRY_HEADER_SIZE * i
  }

  /** A collection that leaves boundary watermarks: none is due, it drops its segment, or it falls on one. */
  ghost predicate OnBoundary(cfg: Config, st: Store) {
    var p := Prepare(cfg, st);
    p.Some? ==> DataBytes(p.value.log) == 0 || exists i :: BoundaryAt(p.value.log, i)
  }

  lemma {:induction false} EndIsDataAndHeaders(log: Log)
    requires WellPlaced(log)
    ensures End(log) == DataBytes(log) + ENTRY_HEADER_SIZE * |log|
  {
    if log != [] {
      EndIsDataAndHeaders(log[..|log| - 1]);
    }
  }

  lemma BoundaryArithmetic(log: Log, i: nat)
    requires WellPlaced(log) && i <= |log|
    ensures DataBytes(log) == End(log[..i]) <==> BoundaryAt(log, i)
  {
    hide WellPlaced, DataBytes;
    PrefixPlaced(log, i);
    EndIsDataAndHeaders(log[..i]);
    DataBytesSplit(log, i);
  }

  lemma {:induction false} DataBytesSplit(log: Log, i: nat)
    requires i <= |log|
    ensures DataBytes(log) == DataBytes(log[..i]) + DataBytes(log[i..])
  {
    if i == |log| {
      assert log[..i] == log && log[i..] == [];
    } else {
      var n := |log| - 1;
      DataBytesSplit(log[..n], i);
      assert log[..n][..i] == log[..i];
      assert log[i..][..n - i] == log[..n][i..];
    }
  }

  /** What a collection does to files, index and metadata. */
  lemma CollectedDisk(cfg: Config, st: Store, view: View)
    requires Inv(st, view) && Prepare(cfg, st).Some?
    ensures var p := Prepare(cfg, st).value;
      var s := Collect(cfg, st);
      && Shape(s) && SavedOlder(s) && s.saved == s.meta && s.meta.active == st.meta.active
      && p.seg in st.logs && p.seg in st.meta.segments && p.seg != st.meta.active && LogOk(p.log)
      && p.log == Compact(st.index, p.seg, st.logs[p.seg])
      && s.index == InsertAll(st.index, LogRecords(p.seg, p.log))
      && (forall id :: id != p.seg ==> s.meta.StatsOf(id) == st.meta.StatsOf(id))
      && if DataBytes(p.log) == 0 then s.logs == st.logs - {p.seg}
         else s.logs == st.logs[p.seg := p.log] && s.meta.StatsOf(p.seg).indexed == DataBytes(p.log)
  {
    hide Candidate, Compact, DeletedKeys, LogOk, Means, InsertAll, DataBytes;
    var p := Prepare(cfg, st).value;
    Prepared(cfg, st, view);
    FinishShape(st, p);
    MetaKeys(Finish(st, p));
    assert (set k | k in p.deletedKeys) == {};
  }

  /** The cut after a collection. */
  ghost function CollectedCut(cfg: Config, st: Store, cut: map<nat, nat>, i: nat): map<nat, nat> {
    match Prepare(cfg, st)
    case None => cut
    case Some(p) => if DataBytes(p.log) == 0 then cut - {p.seg} else cut[p.seg := i]
  }

  lemma KeptResumable(st: Store, cut: map<nat, nat>, s: Store, t: nat, log: Log, i: nat)
    requires Resumable(st, cut) && Shape(s) && SavedOlder(s) && s.saved == s.meta
    requires s.logs == st.logs[t := log] && (forall id :: id != t ==> s.meta.StatsOf(id) == st.meta.StatsOf(id))
    requires i <= |log| && s.meta.StatsOf(t).indexed == End(log[..i])
    ensures Resumable(s, cut[t := i])
  {
    hide Shape;
    SavedMarks(s, cut[t := i]);
  }

  lemma DroppedResumable(st: Store, cut: map<nat, nat>, s: Store, t: nat)
    requires Resumable(st, cut) && Shape(s) && SavedOlder(s) && s.saved == s.meta
    requires s.logs == st.logs - {t} && (forall id :: id != t ==> s.meta.StatsOf(id) == st.meta.StatsOf(id))
    ensures Resumable(s, cut - {t})
  {
    hide Shape;
    SavedMarks(s, cut - {t});
  }

  lemma CollectResumable(cfg: Config, st: Store, cut: map<nat, nat>, view: View, i: nat)
    requires Resumable(st, cut) && Inv(st, view)
    requires var p := Prepare(cfg, st); p.Some? && DataBytes(p.value.log) > 0 ==> BoundaryAt(p.value.log, i)
    ensures Resumable(Collect(cfg, st), CollectedCut(cfg, st, cut, i))
  {
    hide Prepare, Shape, Means, LogOk, DataBytes, BoundaryAt, Collect, Resumable, Compact, InsertAll;
    if Prepare(cfg, st).Some? {
      CollectedDisk(cfg, st, view);
      var p, s := Prepare(cfg, st).value, Collect(cfg, st);
      if DataBytes(p.log) > 0 {
        BoundaryFits(p.log, i);
        BoundaryArithmetic(p.log, i);
        KeptResumable(st, cut, s, p.seg, p.log, i);
      } else {
        DroppedResumable(st, cut, s, p.seg);
      }
    } else {
      NoCollection(cfg, st);
    }
  }

  lemma BoundaryFits(log: Log, i: nat)
    requires BoundaryAt(log, i)
    ensures i <= |log|
  {
  }

  lemma NoCollection(cfg: Config, st: Store)
    requires Prepare(cfg, st).None?
    ensures Collect(cfg, st) == st
  {
  }
}
