/** Compaction of a sealed segment in two phases (gc.rs and the second half of `gc` in engine.rs). */
module Gc {
  import opened Words
  import opened Segment
  import opened SegmentLog
  import opened Index
  import opened BlobStore

  // ----------------------------------------------------- choosing the segment

  predicate Eligible(threshold: real, s: Stats) {
    s.isSealed && s.ratio >= threshold
  }

  /** The eligible segment with the highest ratio among ids below `hi`; the last one on a tie. */
  function Candidate(meta: Meta, threshold: real, hi: nat): (t: Option<nat>)
    ensures t.Some? ==> t.value in meta.segments && t.value < hi && Eligible(threshold, meta.segments[t.value])
  {
    if hi == 0 then None
    else
      var best := Candidate(meta, threshold, hi - 1);
      if && hi - 1 in meta.segments && Eligible(threshold, meta.segments[hi - 1])
         && (best.Some? ==> meta.segments[hi - 1].ratio >= meta.segments[best.value].ratio)
      then Some(hi - 1) else best
  }

  /** No eligible segment is passed over, and none beats the choice. */
  lemma {:induction false} CandidateIsMax(meta: Meta, threshold: real, hi: nat, id: nat)
    requires id < hi && id in meta.segments && Eligible(threshold, meta.segments[id])
    ensures var t := Candidate(meta, threshold, hi);
            && t.Some? && meta.segments[id].ratio <= meta.segments[t.value].ratio
            && (meta.segments[id].ratio == meta.segments[t.value].ratio ==> id <= t.value)
  {
    if id < hi - 1 {
      CandidateIsMax(meta, threshold, hi - 1, id);
    }
  }

  // -------------------------------------------------------------- compaction

  /** The index says this entry of segment `seg` is the current version of its key. */
  predicate Live(index: IndexMap, seg: nat, p: Placed) {
    && !p.e.IsTombstone()
    && var r := Lookup(index, p.e.key);
       r.Some? && r.value.segmentId == seg && r.value.offset == p.off
  }

  /** The live entries, rewritten back to back. */
  function Compact(index: IndexMap, seg: nat, log: Log): Log {
    if log == [] then []
    else
      var n := |log| - 1;
      var c := Compact(index, seg, log[..n]);
      if Live(index, seg, log[n]) then c + [Placed(End(c), log[n].e)] else c
  }

  /** The keys whose tombstone row is to be removed with the segment. */
  function DeletedKeys(index: IndexMap, seg: nat, log: Log): seq<Key> {
    if log == [] then []
    else
      var n := |log| - 1;
      var r := Lookup(index, log[n].e.key);
      DeletedKeys(index, seg, log[..n]) +
      if log[n].e.IsTombstone() && r.Some? && r.value.segmentId == seg && r.value.offset == log[n].off
      then [log[n].e.key] else []
  }

  /** Stored data bytes, headers not counted. */
  function DataBytes(log: Log): nat {
    if log == [] then 0 else DataBytes(log[..|log| - 1]) + |log[|log| - 1].e.data|
  }

  function Entries(log: Log): (es: seq<Entry>)
    ensures |es| == |log| && forall i :: 0 <= i < |log| ==> es[i] == log[i].e
  {
    seq(|log|, i requires 0 <= i < |log| => log[i].e)
  }

  datatype Prep = Prep(seg: nat, before: nat, log: Log, deletedKeys: seq<Key>)

  /** Phase 1: nothing of the store changes. */
  function Prepare(cfg: Config, st: Store): (p: Option<Prep>)
    ensures p.Some? ==> p.value.seg in st.meta.segments && p.value.seg in st.logs
                        && Eligible(cfg.gcRatio, st.meta.segments[p.value.seg])
  {
    match Candidate(st.meta, cfg.gcRatio, st.meta.active + 1)
    case None => None
    case Some(t) =>
      if t !in st.logs then None
      else Some(Prep(t, st.meta.segments[t].total, Compact(st.index, t, st.logs[t]),
                     DeletedKeys(st.index, t, st.logs[t])))
  }

  /** Phase 2: replace the file, redirect the index, update or drop the statistics. */
  function Finish(st: Store, p: Prep): Store {
    var after := DataBytes(p.log);
    var index := InsertAll(st.index, LogRecords(p.seg, p.log)) - (set k | k in p.deletedKeys);
    if after == 0 then
      var meta := st.meta.(segments := st.meta.segments - {p.seg});
      Store(st.logs - {p.seg}, index, meta, meta)
    else
      var meta :=
        if p.seg in st.meta.segments then
          st.meta.(segments := st.meta.segments[p.seg :=
            st.meta.segments[p.seg].(total := after, deleted := 0, ratio := 0.0, indexed := after)])
        else st.meta;
      Store(st.logs[p.seg := p.log], index, meta, meta)
  }

  function Collect(cfg: Config, st: Store): Store {
    match Prepare(cfg, st)
    case None => st
    case Some(p) => Finish(st, p)
  }

  // ------------------------------------------------------- what is kept, exactly

  lemma {:induction false} CompactOk(index: IndexMap, seg: nat, log: Log)
    requires LogOk(log)
    ensures LogOk(Compact(index, seg, log)) && End(Compact(index, seg, log)) <= End(log)
  {
    hide EntryOk;
    if log != [] {
      var n := |log| - 1;
      var c := Compact(index, seg, log[..n]);
      assert log[n] in log;
      assert forall p :: p in log[..n] ==> p in log;
      CompactOk(index, seg, log[..n]);
      if Live(index, seg, log[n]) {
        AppendKeepsPlaced(_ => 0, c, log[n].e);
      }
    }
  }

  /** The rewritten file holds the live entries of the segment and nothing else. */
  lemma {:induction false} CompactExact(index: IndexMap, seg: nat, log: Log, e: Entry)
    ensures e in Entries(Compact(index, seg, log)) <==>
            exists q :: q in log && Live(index, seg, q) && q.e == e
  {
    if log != [] {
      var n := |log| - 1;
      var c := Compact(index, seg, log[..n]);
      CompactExact(index, seg, log[..n], e);
      assert log == log[..n] + [log[n]];
      assert log[n] in log;
      if Live(index, seg, log[n]) {
        assert Entries(c + [Placed(End(c), log[n].e)]) == Entries(c) + [log[n].e];
      }
      if q :| q in log && Live(index, seg, q) && q.e == e {
        assert q == log[n] || q in log[..n];
      }
      if q :| q in log[..n] && Live(index, seg, q) && q.e == e {
        assert q in log;
      }
    }
  }

  /** Each key is kept at most once. */
  lemma {:induction false} CompactDistinct(index: IndexMap, seg: nat, log: Log, i: nat, j: nat)
    requires WellPlaced(log) && i < j < |Compact(index, seg, log)|
    ensures Compact(index, seg, log)[i].e.key != Compact(index, seg, log)[j].e.key
  {
    hide WellPlaced;
    var n := |log| - 1;
    var c := Compact(index, seg, log[..n]);
    PrefixPlaced(log, n);
    if j < |c| {
      CompactDistinct(index, seg, log[..n], i, j);
    } else {
      var e := c[i].e;
      assert Entries(c)[i] == e;
      CompactExact(index, seg, log[..n], e);
      var q :| q in log[..n] && Live(index, seg, q) && q.e == e;
      var m :| 0 <= m < n && log[m] == q;
      Ordered(log, m, n);
    }
  }

  /** A kept entry is the meaning of its key. */
  lemma KeptIsCurrent(st: Store, view: View, seg: nat, e: Entry)
    requires Inv(st, view) && seg in st.logs
    requires e in Entries(Compact(st.index, seg, st.logs[seg]))
    ensures e.key in view && view[e.key] == e
  {
    var log := st.logs[seg];
    CompactExact(st.index, seg, log, e);
    var q :| q in log && Live(st.index, seg, q) && q.e == e;
    assert LogOk(log);
    SameOffset(log, q, Placed(q.off, view[e.key]));
  }

  /** Conversely the meaning of a key that lives in the segment is kept. */
  lemma CurrentIsKept(st: Store, view: View, seg: nat, k: Key)
    requires Inv(st, view) && seg in st.logs
    requires Lookup(st.index, k).Some? && Lookup(st.index, k).value.segmentId == seg
    ensures k in view && view[k].key == k && view[k] in Entries(Compact(st.index, seg, st.logs[seg]))
  {
    var q := Placed(Lookup(st.index, k).value.offset, view[k]);
    assert q in st.logs[seg] && Live(st.index, seg, q);
    CompactExact(st.index, seg, st.logs[seg], view[k]);
  }

  /** `get` hides tombstones, so no tombstone is ever recognised as current: the list stays empty. */
  lemma {:induction false} DeletedKeysEmpty(st: Store, view: View, seg: nat, log: Log)
    requires Inv(st, view) && seg in st.logs && log <= st.logs[seg]
    ensures DeletedKeys(st.index, seg, log) == []
  {
    hide Shape;
    if log != [] {
      var n := |log| - 1;
      DeletedKeysEmpty(st, view, seg, log[..n]);
      var k := log[n].e.key;
      assert log[n] in st.logs[seg];
      if Lookup(st.index, k).Some? && Lookup(st.index, k).value.segmentId == seg
         && Lookup(st.index, k).value.offset == log[n].off {
        ShapeLogs(st, seg);
        SameOffset(st.logs[seg], log[n], Placed(log[n].off, view[k]));
      }
    }
  }

  lemma ShapeLogs(st: Store, id: nat)
    requires Shape(st) && id in st.logs
    ensures LogOk(st.logs[id]) && WellPlaced(st.logs[id])
  {
  }
}
