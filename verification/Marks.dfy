/** Watermark updates move the cut of the history (engine.rs). */
module Marks {
  import opened SegmentLog
  import opened Index
  import opened BlobStore
  import opened StoreWrites
  import opened Recovery
  import opened Crash

  /** Position `y` of the history is entry `i` of segment `id`. */
  lemma {:induction false} HistoryAt(logs: map<nat, Log>, hi: nat, y: nat) returns (id: nat, i: nat)
    requires y < |Flat(logs, 0, hi)|
    ensures id < hi && id in logs && i < |logs[id]| && y == |Flat(logs, 0, id)| + i
    ensures Flat(logs, 0, hi)[y] == RecordOf(id, logs[id][i])
    decreases hi
  {
    if y < |Flat(logs, 0, hi - 1)| {
      id, i := HistoryAt(logs, hi - 1, y);
    } else {
      id, i := hi - 1, y - |Flat(logs, 0, hi - 1)|;
    }
  }

  lemma CutStep(logs: map<nat, Log>, id: nat, i: nat, d: nat)
    requires id in logs && i < |logs[id]| && d in logs
    ensures var y := |Flat(logs, 0, id)| + i;
            CutAt(logs, y + 1)[d] == (if d == id then i + 1 else CutAt(logs, y)[d]) && CutAt(logs, y)[id] == i
  {
    hide Flat;
    if d < id {
      FlatLength(logs, d, id);
    } else if d > id {
      FlatLength(logs, id, d);
    }
  }

  lemma MarkStats(s: Store, r: IndexRecord, d: nat)
    requires r.segmentId in s.meta.segments
    ensures Mark(s, r).meta.StatsOf(d).indexed ==
            if d == r.segmentId && r.EntryEnd() > s.meta.StatsOf(d).indexed then r.EntryEnd()
            else s.meta.StatsOf(d).indexed
  {
  }

  lemma NonEmptyHasStats(s: Store, id: nat)
    requires Shape(s) && id in s.logs && s.logs[id] != []
    ensures id in s.meta.segments && WellPlaced(s.logs[id])
  {
  }

  /** `s` grew from `st` by the records `recs`. */
  ghost predicate GrewBy(st: Store, cut: map<nat, nat>, s: Store, recs: seq<IndexRecord>) {
    && Shape(st) && Covered(st.logs, st.meta, cut) && Shape(s)
    && LogsGrown(st.logs, st.meta.active, s.logs, s.meta.active)
    && s.History() == st.History() + recs
  }

  /** How the cut moves when the entry `i` of segment `id` is the next one marked. */
  lemma MidCutStep(st: Store, cut: map<nat, nat>, s: Store, id: nat, i: nat, m: nat, d: nat)
    requires Shape(st) && Covered(st.logs, st.meta, cut) && id in s.logs && i < |s.logs[id]| && d in s.logs
    requires LogsGrown(st.logs, st.meta.active, s.logs, s.meta.active)
    requires |st.History()| + m == |Flat(s.logs, 0, id)| + i
    ensures var a, b := MidCut(st, cut, s.logs, m), MidCut(st, cut, s.logs, m + 1);
      b[d] == (if d == id then i + 1 else a[d]) && a[id] <= i
  {
    hide Shape, Flat, CutAt, MidCut, LogsGrown;
    CutStep(s.logs, id, i, d);
    CutStep(s.logs, id, i, id);
    OldLogCovered(st, s, m, id);
    MidCutAt(st, cut, s.logs, m, d);
    MidCutAt(st, cut, s.logs, m + 1, d);
    MidCutAt(st, cut, s.logs, m, id);
  }

  lemma EndsRise(log: Log, c: nat, i: nat)
    requires WellPlaced(log) && c <= i < |log|
    ensures End(log[..c]) < End(log[..i + 1]) == log[i].off + log[i].e.Size()
  {
    hide WellPlaced;
    PrefixPlaced(log, i + 1);
    BoundaryBelowEnd(log[..i + 1], c);
    assert log[..i + 1][..c] == log[..c];
  }

  lemma MarkedNext(st: Store, cut: map<nat, nat>, s: Store, r: IndexRecord, id: nat, i: nat, m: nat, d: nat)
    requires Shape(st) && Covered(st.logs, st.meta, cut) && Shape(s) && id in s.logs && i < |s.logs[id]| && d in s.logs
    requires LogsGrown(st.logs, st.meta.active, s.logs, s.meta.active) && r == RecordOf(id, s.logs[id][i])
    requires |st.History()| + m == |Flat(s.logs, 0, id)| + i && Covered(s.logs, s.meta, MidCut(st, cut, s.logs, m))
    requires Fits(s.logs, MidCut(st, cut, s.logs, m + 1))
    ensures Mark(s, r).meta.StatsOf(d).indexed == End(s.logs[d][..MidCut(st, cut, s.logs, m + 1)[d]])
  {
    hide Flat, Shape, Mark, WellPlaced, MidCut, LogsGrown;
    NonEmptyHasStats(s, id);
    MarkStats(s, r, d);
    MidCutStep(st, cut, s, id, i, m, d);
    if d == id {
      EndsRise(s.logs[id], MidCut(st, cut, s.logs, m)[id], i);
    }
  }

  /** Marking the next new record moves the cut by one. */
  lemma MarkMoves(st: Store, cut: map<nat, nat>, s: Store, recs: seq<IndexRecord>, m: nat)
    requires GrewBy(st, cut, s, recs) && m < |recs| && Covered(s.logs, s.meta, MidCut(st, cut, s.logs, m))
    ensures Covered(s.logs, Mark(s, recs[m]).meta, MidCut(st, cut, s.logs, m + 1))
  {
    hide Flat, Shape, Mark, MidCut, LogsGrown;
    var y := |st.History()| + m;
    var id, i := HistoryAt(s.logs, s.meta.active + 1, y);
    assert s.History()[y] == recs[m];
    MidCutFits(st, cut, s, m + 1);
    forall d | d in s.logs
      ensures Mark(s, recs[m]).meta.StatsOf(d).indexed == End(s.logs[d][..MidCut(st, cut, s.logs, m + 1)[d]])
    {
      MarkedNext(st, cut, s, recs[m], id, i, m, d);
    }
  }

  lemma {:induction false} MarkAllMoves(st: Store, cut: map<nat, nat>, s: Store, recs: seq<IndexRecord>, m: nat)
    requires GrewBy(st, cut, s, recs) && m <= |recs| && Covered(s.logs, s.meta, MidCut(st, cut, s.logs, 0))
    ensures Covered(s.logs, MarkAll(s, recs[..m]).meta, MidCut(st, cut, s.logs, m))
    ensures m > 0 ==> MarkAll(s, recs[..m]).saved == MarkAll(s, recs[..m]).meta
  {
    hide Shape, Mark, Flat, MidCut, Covered, LogsGrown;
    if m == 0 {
      assert recs[..0] == [];
    } else {
      MarkAllMoves(st, cut, s, recs, m - 1);
      MarkAllShape(s, recs[..m - 1]);
      var b := MarkAll(s, recs[..m - 1]);
      MarkMoves(st, cut, b, recs, m - 1);
      MarkSaves(b, recs[m - 1]);
      assert recs[..m][..m - 1] == recs[..m - 1];
    }
  }

  lemma MarkSaves(s: Store, r: IndexRecord)
    ensures Mark(s, r).saved == Mark(s, r).meta && Mark(s, r).logs == s.logs
  {
  }

  /** Marks at the end of the history are marks at the end of every log. */
  lemma MidCutEnd(st: Store, cut: map<nat, nat>, s: Store, recs: seq<IndexRecord>, id: nat)
    requires GrewBy(st, cut, s, recs) && id in s.logs
    ensures MidCut(st, cut, s.logs, |recs|)[id] ==
      if id in st.logs && st.logs[id] == s.logs[id] then cut[id] else |s.logs[id]|
  {
    hide Flat, Shape, MidCut, CutAt;
    ActiveIsLast(s);
    FlatLength(s.logs, id, s.meta.active + 1);
    assert |s.History()| == |st.History()| + |recs|;
    CutIs(s.logs, |s.History()|, id);
    MidCutAt(st, cut, s.logs, |recs|, id);
  }

  lemma {:induction false} MarkAllSaved(s: Store, recs: seq<IndexRecord>)
    requires s.saved == s.meta
    ensures MarkAll(s, recs).saved == MarkAll(s, recs).meta
  {
  }
}
