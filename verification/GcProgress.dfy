/** What a collection reclaims, and that collecting comes to an end (engine.rs, gc.rs). */
module GcProgress {
  import opened Compression
  import opened Segment
  import opened SegmentLog
  import opened Index
  import opened BlobStore
  import opened StoreWrites
  import opened Gc
  import opened GcMeaning
  import opened GcTransparency
  import opened Reads
  import opened Runs
  import opened SingleWrites
  import opened Crash
  import opened Accounting

  /** A row that is live outside the compacted segment after phase 2 was live there before. */
  lemma LiveElsewhere(st: Store, p: Prep, id: nat, q: Placed)
    requires id != p.seg && p.deletedKeys == [] && Live(Finish(st, p).index, id, q)
    ensures Live(st.index, id, q)
  {
    hide InsertAll, LastFor, DataBytes;
    var recs := LogRecords(p.seg, p.log);
    assert (set k | k in p.deletedKeys) == {};
    assert Finish(st, p).index == InsertAll(st.index, recs);
    InsertAllAt(st.index, recs, q.e.key);
    LastForMember(recs, q.e.key);
  }

  lemma FinishTotals(st: Store, p: Prep)
    requires p.seg in st.meta.segments
    ensures Totals(st.logs, st.meta) ==> Totals(Finish(st, p).logs, Finish(st, p).meta)
    ensures forall id :: id != p.seg ==> Finish(st, p).meta.StatsOf(id) == st.meta.StatsOf(id)
    ensures p.seg in Finish(st, p).logs && DataBytes(p.log) > 0 ==>
              Finish(st, p).meta.StatsOf(p.seg).deleted == 0 && Finish(st, p).meta.StatsOf(p.seg).total == DataBytes(p.log)
  {
    hide DataBytes, InsertAll;
  }

  /** The books of one segment after phase 2. */
  lemma FinishCovers(st: Store, p: Prep, id: nat)
    requires Covers(st.logs, st.index, st.meta) && p.seg in st.meta.segments && p.deletedKeys == []
    requires id in Finish(st, p).logs
    ensures var s := Finish(st, p);
            LiveBytes(s.index, id, s.logs[id]) + s.meta.StatsOf(id).deleted <= s.meta.StatsOf(id).total
  {
    hide LiveBytes, DataBytes, InsertAll, Live;
    var s := Finish(st, p);
    FinishTotals(st, p);
    if id == p.seg {
      LiveAtMostData(s.index, p.seg, [], p.log);
      LiveNone(s.index, p.seg);
      assert [] + p.log == p.log;
    } else {
      forall q | q in st.logs[id] && Live(s.index, id, q)
        ensures Live(st.index, id, q)
      {
        LiveElsewhere(st, p, id, q);
      }
      LiveMonotone(st.index, s.index, id, st.logs[id]);
    }
  }

  lemma CollectCovers(cfg: Config, st: Store, view: View)
    requires Inv(st, view) && Covers(st.logs, st.index, st.meta) && Prepare(cfg, st).Some?
    ensures Covers(Collect(cfg, st).logs, Collect(cfg, st).index, Collect(cfg, st).meta)
  {
    hide Prepare, Shape, Means, LiveBytes, Finish, LogOk, Later;
    var p := Prepare(cfg, st).value;
    Prepared(cfg, st, view);
    forall id | id in Finish(st, p).logs
      ensures var s := Finish(st, p);
              LiveBytes(s.index, id, s.logs[id]) + s.meta.StatsOf(id).deleted <= s.meta.StatsOf(id).total
    {
      FinishCovers(st, p, id);
    }
  }

  lemma CollectBalances(cfg: Config, st: Store, view: View)
    requires Inv(st, view) && BooksBalance(st) && Prepare(cfg, st).Some?
    ensures BooksBalance(Collect(cfg, st))
  {
    hide Prepare, Shape, Means, Covers, Totals, Finish, LogOk, Later;
    var p := Prepare(cfg, st).value;
    Prepared(cfg, st, view);
    FinishTotals(st, p);
    CollectCovers(cfg, st, view);
  }

  /** The ratio field means what it says. */
  lemma RatioTimesTotal(s: Stats)
    requires s == Recompute(s) && s.deleted <= s.total
    ensures s.ratio * s.total as real == s.deleted as real
  {
    if s.total > 0 {
      Quotient(s.deleted as real, s.total as real);
    }
  }

  lemma Quotient(x: real, y: real)
    requires y != 0.0
    ensures x / y * y == x
  {
  }

  /**
   * A collection reclaims at least the deleted bytes of its segment and leaves
   * at most the fraction one minus the ratio of its data.
   */
  lemma CollectReclaims(cfg: Config, st: Store, view: View)
    requires Inv(st, view) && BooksBalance(st) && Prepare(cfg, st).Some?
    ensures var p := Prepare(cfg, st).value;
            var stats := st.meta.segments[p.seg];
            var after := DataBytes(p.log);
            && p.before == DataBytes(st.logs[p.seg]) && after + stats.deleted <= p.before
            && after as real <= (1.0 - stats.ratio) * p.before as real
            && after as real <= (1.0 - cfg.gcRatio) * p.before as real
  {
    hide Shape, Means, Compact, DataBytes, InsertAll, LogOk, Candidate, DeletedKeys;
    var p := Prepare(cfg, st).value;
    Prepared(cfg, st, view);
    var stats := st.meta.segments[p.seg];
    assert LiveBytes(st.index, p.seg, st.logs[p.seg]) == DataBytes(p.log);
    RatioTimesTotal(stats);
    var t := stats.total as real;
    assert (1.0 - stats.ratio) * t == t - stats.ratio * t;
    assert (1.0 - cfg.gcRatio) * t >= (1.0 - stats.ratio) * t by {
      Scale(1.0 - stats.ratio, 1.0 - cfg.gcRatio, t);
    }
  }

  lemma Scale(a: real, b: real, t: real)
    requires a <= b && t >= 0.0
    ensures a * t <= b * t
  {
  }

  // ----------------------------------------------------------------- termination

  /** How many segments below `hi` a collection could pick. */
  function EligibleCount(meta: Meta, threshold: real, hi: nat): nat {
    if hi == 0 then 0
    else EligibleCount(meta, threshold, hi - 1) +
         if hi - 1 in meta.segments && Eligible(threshold, meta.segments[hi - 1]) then 1 else 0
  }

  lemma {:induction false} OneFewer(a: Meta, b: Meta, threshold: real, hi: nat, t: nat)
    requires t in a.segments && Eligible(threshold, a.segments[t])
    requires t in b.segments ==> !Eligible(threshold, b.segments[t])
    requires forall id :: id != t ==> (id in a.segments <==> id in b.segments) && (id in a.segments ==> a.segments[id] == b.segments[id])
    ensures EligibleCount(a, threshold, hi) == EligibleCount(b, threshold, hi) + if t < hi then 1 else 0
  {
    hide Eligible;
    if hi != 0 {
      OneFewer(a, b, threshold, hi - 1, t);
    }
  }

  /** Every pass that compacts leaves one eligible segment fewer, because the threshold is positive. */
  lemma CollectMakesProgress(cfg: Config, st: Store)
    requires Shape(st) && cfg.Valid() && Prepare(cfg, st).Some?
    ensures var s := Collect(cfg, st);
            && s.meta.active == st.meta.active
            && EligibleCount(s.meta, cfg.gcRatio, s.meta.active + 1) + 1 == EligibleCount(st.meta, cfg.gcRatio, st.meta.active + 1)
  {
    hide Compact, DeletedKeys, LogOk, DataBytes, InsertAll, Candidate;
    var p := Prepare(cfg, st).value;
    OneFewer(st.meta, Collect(cfg, st).meta, cfg.gcRatio, st.meta.active + 1, p.seg);
  }

  /** Collecting until there is nothing to collect. */
  ghost function CollectAll(cfg: Config, st: Store): (s: Store)
    requires Shape(st) && cfg.Valid()
    ensures Shape(s) && Prepare(cfg, s).None?
    decreases EligibleCount(st.meta, cfg.gcRatio, st.meta.active + 1)
  {
    if Prepare(cfg, st).None? then st
    else
      CollectShape(cfg, st);
      CollectMakesProgress(cfg, st);
      CollectAll(cfg, Collect(cfg, st))
  }

  /** With nothing left to collect, no sealed segment is at or above the threshold. */
  lemma NothingLeft(cfg: Config, st: Store, id: nat)
    requires Shape(st) && Prepare(cfg, st).None? && id in st.meta.segments && st.meta.segments[id].isSealed
    ensures st.meta.segments[id].ratio < cfg.gcRatio
  {
    hide LogOk, Compact, DeletedKeys;
    if st.meta.segments[id].ratio >= cfg.gcRatio {
      CandidateIsMax(st.meta, cfg.gcRatio, st.meta.active + 1, id);
    }
  }

  // ------------------------------------------------------------------- every run

  /** The deletes of a batch are distinct. */
  ghost predicate DistinctDeletes(op: Op) {
    op.DeleteKeys? ==> forall i, j :: 0 <= i < j < |op.keys| ==> op.keys[i] != op.keys[j]
  }

  lemma DistinctCover(st: Store, view: View, keys: seq<Key>)
    requires Inv(st, view) && Covers(st.logs, st.index, st.meta) && DistinctDeletes(DeleteKeys(keys))
    ensures Covers(DeleteBatch(st, keys).logs, DeleteBatch(st, keys).index, DeleteBatch(st, keys).meta)
  {
    hide Inv, LiveBytes, Repeated, DeleteMany, CommitBatch;
    if keys != [] {
      DeletesCover(st, view, keys);
      forall id
        ensures Repeated(st.index, keys, id) == 0
      {
        NoneRepeated(st.index, keys, id);
      }
    }
  }

  /** Every operation keeps live and deleted bytes within the total, whatever the totals count. */
  lemma StepCovers(lib: Lib, cfg: Config, st: Store, view: View, op: Op)
    requires Inv(st, view) && Covers(st.logs, st.index, st.meta) && DistinctDeletes(op)
    ensures var s := Step(lib, cfg, st, op); Covers(s.logs, s.index, s.meta)
  {
    hide Shape, Means, Covers, AppendMany, AppendedRecords, CommitBatch, WriteOne, Pack, DeleteBatch, SealActive,
      EntryOk, Finish, Prepare;
    match op
    case Put(item) =>
      if |item.value| <= MAX_VALUE_SIZE {
        var e := Pack(lib, cfg, item.key, item.value, item.codec);
        PackOk(lib, cfg, item);
        WriteOneIsBatch(st, e);
        PutsCover(st, [e]);
      }
    case Delete(k) =>
      DeleteOneIsBatch(st, k);
      DistinctCover(st, view, [k]);
    case PutBatch(items) =>
      PutsCover(st, PackAll(lib, cfg, items[..Accepted(items)]));
    case DeleteKeys(keys) =>
      DistinctCover(st, view, keys);
    case Seal =>
      SealCovers(st);
    case Flush =>
    case Gc =>
      if Prepare(cfg, st).Some? {
        CollectCovers(cfg, st, view);
      }
  }

  lemma StepTotals(lib: Lib, cfg: Config, st: Store, view: View, op: Op)
    requires Inv(st, view) && Totals(st.logs, st.meta)
    ensures Totals(Step(lib, cfg, st, op).logs, Step(lib, cfg, st, op).meta)
  {
    hide Shape, Means, Totals, AppendMany, AppendedRecords, CommitBatch, WriteOne, Pack, DeleteBatch, SealActive,
      EntryOk, Finish, Prepare, Computed, Over, Later;
    match op
    case Put(item) =>
      if |item.value| <= MAX_VALUE_SIZE {
        var e := Pack(lib, cfg, item.key, item.value, item.codec);
        PackOk(lib, cfg, item);
        WriteOneIsBatch(st, e);
        PutsTotal(st, [e]);
      }
    case Delete(k) =>
      DeleteOneIsBatch(st, k);
      DeletesTotal(st, view, [k]);
    case PutBatch(items) =>
      PutsTotal(st, PackAll(lib, cfg, items[..Accepted(items)]));
    case DeleteKeys(keys) =>
      DeletesTotal(st, view, keys);
    case Seal =>
      SealTotals(st);
      MetaKeys(st);
      TotalsKept(st, SealActive(st));
    case Flush =>
    case Gc =>
      if Prepare(cfg, st).Some? {
        Prepared(cfg, st, view);
        FinishTotals(st, Prepare(cfg, st).value);
      }
  }

  lemma StepBalances(lib: Lib, cfg: Config, st: Store, view: View, op: Op)
    requires Inv(st, view) && BooksBalance(st) && DistinctDeletes(op)
    ensures BooksBalance(Step(lib, cfg, st, op))
  {
    hide Inv, Covers, Totals, Step, DistinctDeletes;
    StepCovers(lib, cfg, st, view, op);
    StepTotals(lib, cfg, st, view, op);
  }

  lemma SealCovers(st: Store)
    requires Shape(st) && Covers(st.logs, st.index, st.meta)
    ensures Covers(SealActive(st).logs, SealActive(st).index, SealActive(st).meta)
  {
    hide LogOk, LiveBytes, DataBytes;
    LiveNone(st.index, st.meta.active + 1);
  }

  lemma EmptyBalances()
    ensures BooksBalance(EMPTY)
  {
    assert EMPTY.meta.StatsOf(1) == NEW_STATS;
  }

  /** In every run live and deleted bytes stay within the total of their segment. */
  lemma {:induction false} RunBalances(lib: Lib, cfg: Config, st: Store, view: View, model: Model, ops: seq<Op>)
    requires Lawful(lib) && Inv(st, view) && Stands(lib, view, model) && BooksBalance(st) && GcSafe(lib, cfg, st, ops)
    requires forall i :: 0 <= i < |ops| ==> DistinctDeletes(ops[i])
    ensures BooksBalance(Run(lib, cfg, st, ops))
  {
    hide Lawful, Inv, Stands, BooksBalance, Step, Prepare, DropsLive, DistinctDeletes, Effects;
    if ops != [] {
      var n := |ops| - 1;
      assert forall i :: 0 <= i < n ==> ops[..n][..i] == ops[..i];
      assert forall i :: 0 <= i < n ==> ops[i] == ops[..n][i];
      assert GcSafe(lib, cfg, st, ops[..n]);
      RunBalances(lib, cfg, st, view, model, ops[..n]);
      var v := RunRefines(lib, cfg, st, view, model, ops[..n]);
      StepBalances(lib, cfg, Run(lib, cfg, st, ops[..n]), v, ops[n]);
    }
  }
}
