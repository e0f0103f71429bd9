/** Watermarks while the log grows: what a reopen would find uncovered in the middle of a write (engine.rs). */
module Crash {
  import opened Segment
  import opened SegmentLog
  import opened Index
  import opened BlobStore
  import opened StoreWrites
  import opened Recovery

  // ------------------------------------- watermarks that cut the history at a point

  /** How many of `n` entries starting at position `start` come before position `x`. */
  function Clamp(x: nat, start: nat, n: nat): (c: nat)
    ensures c <= n
  {
    if x <= start then 0 else if x - start >= n then n else x - start
  }

  ghost function CutAt(logs: map<nat, Log>, x: nat): (cut: map<nat, nat>)
    ensures Fits(logs, cut)
  {
    map id | id in logs :: Clamp(x, |Flat(logs, 0, id)|, |logs[id]|)
  }

  lemma {:induction false} UncoveredAt(logs: map<nat, Log>, x: nat, hi: nat)
    ensures Uncovered(logs, CutAt(logs, x), hi) ==
            var f := Flat(logs, 0, hi); if x <= |f| then f[x..] else []
  {
    if hi != 0 {
      var id := hi - 1;
      UncoveredAt(logs, x, id);
      var f := Flat(logs, 0, id);
      if id in logs {
        var log := logs[id];
        var c := Clamp(x, |f|, |log|);
        assert LogRecords(id, log[c..]) == LogRecords(id, log)[c..];
      }
    }
  }

  // ------------------------------------------------------- stores to start from

  ghost predicate SavedOlder(st: Store) {
    st.saved.active <= st.meta.active && st.saved.segments.Keys <= st.logs.Keys
  }

  lemma MetaKeys(s: Store)
    requires Shape(s)
    ensures s.meta.segments.Keys <= s.logs.Keys
  {
  }

  /** Logs that grew by appends and roll-overs alone. */
  ghost predicate LogsGrown(a: map<nat, Log>, active: nat, b: map<nat, Log>, active': nat) {
    && active <= active'
    && (forall id :: id in a ==> id in b && a[id] <= b[id] && (id < active ==> b[id] == a[id]))
    && (forall id :: id in b && id !in a ==> id > active)
  }

  ghost predicate SameMarks(a: Meta, b: Meta) {
    forall id :: a.StatsOf(id).indexed == b.StatsOf(id).indexed
  }

  /** `s` grew from `st`, and no watermark moved, in memory or on disk. */
  ghost predicate GrownFrom(st: Store, s: Store) {
    && LogsGrown(st.logs, st.meta.active, s.logs, s.meta.active) && SavedOlder(s)
    && SameMarks(st.meta, s.meta) && SameMarks(st.meta, s.saved)
  }

  /** The saved metadata is no newer than the files and has the watermarks of the one in memory. */
  ghost predicate Synced(st: Store)
    ensures Synced(st) ==> Shape(st)
  {
    Shape(st) && SavedOlder(st) && SameMarks(st.meta, st.saved)
  }

  /**
   * The watermarks are entry boundaries, `cut` entries into each log, and the saved metadata has them too.
   * Nothing is asked of what lies behind them.
   */
  ghost predicate Resumable(st: Store, cut: map<nat, nat>)
    ensures Resumable(st, cut) ==> Synced(st) && Shape(st) && Fits(st.logs, cut)
  {
    Synced(st) && Covered(st.logs, st.meta, cut)
  }

  lemma GrownSelf(st: Store)
    requires Synced(st)
    ensures GrownFrom(st, st)
  {
    hide LogOk;
  }

  lemma LogsGrownTrans(a: map<nat, Log>, m: nat, b: map<nat, Log>, n: nat, c: map<nat, Log>, o: nat)
    requires LogsGrown(a, m, b, n) && LogsGrown(b, n, c, o)
    ensures LogsGrown(a, m, c, o)
  {
    forall id | id in a
      ensures a[id] <= c[id]
    {
      assert a[id] <= b[id] <= c[id];
    }
  }

  lemma SealLogs(s: Store)
    requires Shape(s)
    ensures var r := SealActive(s);
            && LogsGrown(s.logs, s.meta.active, r.logs, r.meta.active)
            && SameMarks(s.meta, r.meta) && r.meta.segments.Keys <= r.logs.Keys
            && (r.saved == s.saved || r.saved == r.meta)
  {
    hide LogOk;
  }

  /** A roll-over, also when the process dies before the new metadata is saved. */
  lemma SealGrown(st: Store, s: Store)
    requires Shape(s) && GrownFrom(st, s)
    ensures GrownFrom(st, SealActive(s)) && GrownFrom(st, SealActive(s).(saved := s.saved))
  {
    hide Shape, LogsGrown, SealActive;
    var r := SealActive(s);
    SealLogs(s);
    LogsGrownTrans(st.logs, st.meta.active, s.logs, s.meta.active, r.logs, r.meta.active);
    GrownActive(s.logs, s.meta.active, r.logs, r.meta.active);
  }

  lemma GrownActive(a: map<nat, Log>, active: nat, b: map<nat, Log>, active': nat)
    requires LogsGrown(a, active, b, active')
    ensures active <= active' && a.Keys <= b.Keys
  {
  }

  lemma AppendActiveLogs(s: Store, e: Entry)
    requires Shape(s)
    ensures var r := AppendActive(s, e);
            && LogsGrown(s.logs, s.meta.active, r.logs, r.meta.active)
            && SameMarks(s.meta, r.meta) && r.saved == s.saved
  {
    hide LogOk;
  }

  lemma AppendGrown(st: Store, s: Store, e: Entry)
    requires Shape(s) && GrownFrom(st, s)
    ensures GrownFrom(st, AppendEntry(s, e))
  {
    hide Shape, LogsGrown, SealActive, AppendActive;
    SealShape(s);
    SealGrown(st, s);
    var r := RollOver(s);
    AppendActiveLogs(r, e);
    var t := AppendActive(r, e);
    LogsGrownTrans(st.logs, st.meta.active, r.logs, r.meta.active, t.logs, t.meta.active);
    GrownActive(r.logs, r.meta.active, t.logs, t.meta.active);
  }

  lemma CountGrown(st: Store, s: Store, k: Key)
    requires GrownFrom(st, s)
    ensures GrownFrom(st, CountDeleted(s, k))
  {
  }

  lemma {:induction false} AppendManyGrown(st: Store, es: seq<Entry>)
    requires Synced(st) && forall i :: 0 <= i < |es| ==> EntryOk(es[i])
    ensures GrownFrom(st, AppendMany(st, es))
  {
    hide AppendEntry, Synced, Shape, GrownFrom, EntryOk;
    GrownSelf(st);
    if es != [] {
      var n := |es| - 1;
      AppendManyGrown(st, es[..n]);
      AppendManyFacts(st, es[..n]);
      AppendGrown(st, AppendMany(st, es[..n]), es[n]);
    }
  }

  lemma {:induction false} DeleteManyGrown(st: Store, keys: seq<Key>)
    requires Synced(st)
    ensures GrownFrom(st, DeleteMany(st, keys))
  {
    hide AppendEntry, Synced, Shape, GrownFrom, CountDeleted;
    GrownSelf(st);
    if keys != [] {
      var n := |keys| - 1;
      DeleteManyGrown(st, keys[..n]);
      DeleteManyFacts(st, keys[..n]);
      var b := DeleteMany(st, keys[..n]);
      CountGrown(st, b, keys[n]);
      CountDeletedShape(b, keys[n]);
      AppendGrown(st, CountDeleted(b, keys[n]), Tombstone(keys[n]));
    }
  }

  lemma FlatLength(logs: map<nat, Log>, id: nat, hi: nat)
    requires id < hi && id in logs
    ensures |Flat(logs, 0, hi)| >= |Flat(logs, 0, id)| + |logs[id]|
    ensures hi == id + 1 ==> |Flat(logs, 0, hi)| == |Flat(logs, 0, id)| + |logs[id]|
  {
    hide *;
    FlatSplit(logs, 0, id, hi);
    FlatSplit(logs, id, id + 1, hi);
    FlatOne(logs, id);
  }

  lemma GrownCut(st: Store, s: Store, id: nat)
    requires Shape(st) && LogsGrown(st.logs, st.meta.active, s.logs, s.meta.active) && id in s.logs
    ensures Clamp(|st.History()|, |Flat(s.logs, 0, id)|, |s.logs[id]|) == if id in st.logs then |st.logs[id]| else 0
  {
    hide LogOk, Flat;
    var active := st.meta.active;
    FlatSame(st.logs, s.logs, 0, active);
    FlatLength(st.logs, active, active + 1);
    if id < active {
      FlatLength(s.logs, id, active);
    } else if id > active {
      FlatLength(s.logs, active, id);
    }
  }

  // ------------------------------------------- the cut after some new records are marked

  /** Position `x` of the history, as seen from an older one. */
  lemma CutMonotone(logs: map<nat, Log>, x: nat, y: nat, id: nat)
    requires x <= y && id in logs
    ensures CutAt(logs, x)[id] <= CutAt(logs, y)[id]
  {
  }

  /**
   * The cut of the grown `logs` when the first `m` new records are marked: a segment where none is keeps its
   * old watermark, however far behind that is; elsewhere the watermark is at the last one marked.
   */
  ghost function MidCut(st: Store, cut: map<nat, nat>, logs: map<nat, Log>, m: nat): (r: map<nat, nat>)
    requires Fits(st.logs, cut)
    ensures r.Keys == logs.Keys
  {
    map id | id in logs ::
      var p := CutAt(logs, |st.History()| + m)[id];
      if id in st.logs && p <= |st.logs[id]| then cut[id] else p
  }

  lemma MidCutAt(st: Store, cut: map<nat, nat>, logs: map<nat, Log>, m: nat, id: nat)
    requires Fits(st.logs, cut) && id in logs
    ensures MidCut(st, cut, logs, m)[id] ==
      var p := CutAt(logs, |st.History()| + m)[id]; if id in st.logs && p <= |st.logs[id]| then cut[id] else p
  {
  }

  lemma OldLogCovered(st: Store, s: Store, m: nat, id: nat)
    requires Shape(st) && LogsGrown(st.logs, st.meta.active, s.logs, s.meta.active) && id in s.logs
    ensures id in st.logs ==> CutAt(s.logs, |st.History()| + m)[id] >= |st.logs[id]|
    ensures id in st.logs && id < st.meta.active ==> CutAt(s.logs, |st.History()| + m)[id] == |st.logs[id]|
    ensures m == 0 && id !in st.logs ==> CutAt(s.logs, |st.History()|)[id] == 0
  {
    hide Shape, Clamp, Flat;
    GrownCut(st, s, id);
    CutMonotone(s.logs, |st.History()|, |st.History()| + m, id);
  }

  lemma MidCutFits(st: Store, cut: map<nat, nat>, s: Store, m: nat)
    requires Shape(st) && Covered(st.logs, st.meta, cut)
    requires LogsGrown(st.logs, st.meta.active, s.logs, s.meta.active)
    ensures Fits(s.logs, MidCut(st, cut, s.logs, m))
  {
    hide Shape, Flat, Clamp;
  }

  lemma GrownMarkedAt(st: Store, cut: map<nat, nat>, s: Store, id: nat)
    requires Shape(st) && Covered(st.logs, st.meta, cut) && id in s.logs
    requires LogsGrown(st.logs, st.meta.active, s.logs, s.meta.active)
    ensures var c := MidCut(st, cut, s.logs, 0)[id];
      c <= |s.logs[id]| && st.meta.StatsOf(id).indexed == End(s.logs[id][..c])
  {
    hide LogOk, CutAt, Flat;
    OldLogCovered(st, s, 0, id);
    MidCutFits(st, cut, s, 0);
    if id in st.logs {
      GrownCut(st, s, id);
      CutIs(s.logs, |st.History()|, id);
      assert s.logs[id][..cut[id]] == st.logs[id][..cut[id]];
    } else {
      assert s.logs[id][..0] == [];
    }
  }

  lemma CutIs(logs: map<nat, Log>, x: nat, id: nat)
    requires id in logs
    ensures CutAt(logs, x)[id] == Clamp(x, |Flat(logs, 0, id)|, |logs[id]|)
  {
  }

  /** However far the log has grown, unmarked, the watermarks still cut it where they did. */
  lemma GrownMarked(st: Store, cut: map<nat, nat>, s: Store)
    requires Resumable(st, cut) && Shape(s) && GrownFrom(st, s)
    ensures Covered(s.logs, s.meta, MidCut(st, cut, s.logs, 0)) && Covered(s.logs, s.saved, MidCut(st, cut, s.logs, 0))
  {
    hide Shape, MidCut, LogsGrown;
    forall id | id in s.logs
      ensures var c := MidCut(st, cut, s.logs, 0)[id];
        c <= |s.logs[id]| && st.meta.StatsOf(id).indexed == End(s.logs[id][..c])
    {
      GrownMarkedAt(st, cut, s, id);
    }
  }

  /** Two cuts that agree from `lo` on leave the same records uncovered there. */
  lemma {:induction false} SameTail(logs: map<nat, Log>, a: map<nat, nat>, b: map<nat, nat>, lo: nat, hi: nat)
    requires Fits(logs, a) && Fits(logs, b) && lo <= hi
    requires forall id :: id in logs && lo <= id < hi ==> a[id] == b[id]
    ensures var x, y := Uncovered(logs, b, lo), Uncovered(logs, b, hi);
      |x| <= |y| && y[..|x|] == x && Uncovered(logs, a, hi) == Uncovered(logs, a, lo) + y[|x|..]
  {
    if lo == hi {
      assert Uncovered(logs, a, hi) + [] == Uncovered(logs, a, hi);
    } else {
      SameTail(logs, a, b, lo, hi - 1);
    }
  }

  lemma {:induction false} SameBelow(a: map<nat, Log>, c: map<nat, nat>, b: map<nat, Log>, d: map<nat, nat>, hi: nat)
    requires Fits(a, c) && Fits(b, d)
    requires forall id :: id < hi ==> (id in a <==> id in b) && (id in a ==> a[id] == b[id] && c[id] == d[id])
    ensures Uncovered(a, c, hi) == Uncovered(b, d, hi)
  {
    if hi != 0 {
      SameBelow(a, c, b, d, hi - 1);
    }
  }

  /** Up to where the old uncovered records stay uncovered: marking jumps over those of the active segment. */
  ghost function Horizon(st: Store, logs: map<nat, Log>, m: nat): nat
    requires st.meta.active in st.logs && st.meta.active in logs
  {
    if CutAt(logs, |st.History()| + m)[st.meta.active] <= |st.logs[st.meta.active]| then st.meta.active + 1
    else st.meta.active
  }

  lemma UncoveredBelow(st: Store, cut: map<nat, nat>, s: Store, m: nat)
    requires Shape(st) && Covered(st.logs, st.meta, cut)
    requires LogsGrown(st.logs, st.meta.active, s.logs, s.meta.active)
    requires Fits(s.logs, MidCut(st, cut, s.logs, m))
    ensures Uncovered(s.logs, MidCut(st, cut, s.logs, m), st.meta.active) == Uncovered(st.logs, cut, st.meta.active)
    ensures Uncovered(s.logs, CutAt(s.logs, |st.History()| + m), st.meta.active) == []
  {
    hide LogOk, Flat, CutAt, Uncovered;
    var a0, x := st.meta.active, |st.History()| + m;
    forall id | id < a0 && id in s.logs
      ensures MidCut(st, cut, s.logs, m)[id] == cut[id]
    {
      OldLogCovered(st, s, m, id);
    }
    SameBelow(s.logs, MidCut(st, cut, s.logs, m), st.logs, cut, a0);
    UncoveredAt(s.logs, x, a0);
    FlatSame(st.logs, s.logs, 0, a0);
    FlatLength(st.logs, a0, a0 + 1);
  }

  lemma ActiveIsLast(st: Store)
    requires Shape(st)
    ensures st.meta.active in st.logs && forall id :: id in st.logs ==> id <= st.meta.active
  {
  }

  /** Some new record of segment `a0` is marked. */
  lemma JoinPast(logs: map<nat, Log>, mid: map<nat, nat>, at: map<nat, nat>, a0: nat, hi: nat)
    requires Fits(logs, mid) && Fits(logs, at) && a0 <= hi && Uncovered(logs, at, a0) == []
    requires forall id :: id in logs && a0 <= id ==> mid[id] == at[id]
    ensures Uncovered(logs, mid, hi) == Uncovered(logs, mid, a0) + Uncovered(logs, at, hi)
  {
    hide Uncovered;
    SameTail(logs, mid, at, a0, hi);
    assert Uncovered(logs, at, hi)[0..] == Uncovered(logs, at, hi);
  }

  /** None is: what was uncovered in it, `was[c..]`, still is. */
  lemma JoinBefore(logs: map<nat, Log>, was: Log, c: nat, mid: map<nat, nat>, at: map<nat, nat>, a0: nat, hi: nat)
    requires Fits(logs, mid) && Fits(logs, at) && a0 < hi && a0 in logs && Uncovered(logs, at, a0) == []
    requires was <= logs[a0] && mid[a0] == c <= |was| == at[a0]
    requires forall id :: id in logs && a0 < id ==> mid[id] == at[id]
    ensures Uncovered(logs, mid, hi) == Uncovered(logs, mid, a0) + LogRecords(a0, was[c..]) + Uncovered(logs, at, hi)
  {
    hide Uncovered, LogRecords;
    SameTail(logs, mid, at, a0 + 1, hi);
    ActivePart(a0, was, logs[a0], c);
    UncoveredNext(logs, mid, a0);
    UncoveredNext(logs, at, a0);
    var all, news := Uncovered(logs, at, hi), LogRecords(a0, logs[a0][|was|..]);
    var below, left, t := Uncovered(logs, mid, a0), LogRecords(a0, was[c..]), all[|news|..];
    assert [] + news == news;
    assert all == news + t;
    assert below + (left + news) + t == below + left + (news + t);
  }

  /** The cut in the middle of a write against the cut at that point of the history. */
  lemma MidAgrees(st: Store, cut: map<nat, nat>, s: Store, m: nat)
    requires Shape(st) && Covered(st.logs, st.meta, cut)
    requires LogsGrown(st.logs, st.meta.active, s.logs, s.meta.active)
    ensures var mid, at, a0 := MidCut(st, cut, s.logs, m), CutAt(s.logs, |st.History()| + m), st.meta.active;
      && Fits(s.logs, mid) && a0 in s.logs && a0 in st.logs && st.logs[a0] <= s.logs[a0] && cut[a0] <= |st.logs[a0]|
      && (forall id :: id in s.logs && a0 < id ==> mid[id] == at[id])
      && at[a0] >= |st.logs[a0]|
      && mid[a0] == if at[a0] == |st.logs[a0]| then cut[a0] else at[a0]
  {
    hide Flat, CutAt, Shape;
    ActiveIsLast(st);
    MidCutFits(st, cut, s, m);
    OldLogCovered(st, s, m, st.meta.active);
  }

  lemma UncoveredNext(logs: map<nat, Log>, cut: map<nat, nat>, id: nat)
    requires Fits(logs, cut) && id in logs
    ensures Uncovered(logs, cut, id + 1) == Uncovered(logs, cut, id) + LogRecords(id, logs[id][cut[id]..])
  {
  }

  /** In the middle of a write, the old uncovered records and then the new ones that are not marked. */
  lemma UncoveredMid(st: Store, cut: map<nat, nat>, s: Store, recs: seq<IndexRecord>, m: nat)
    requires Shape(st) && Covered(st.logs, st.meta, cut) && Shape(s)
    requires LogsGrown(st.logs, st.meta.active, s.logs, s.meta.active)
    requires s.History() == st.History() + recs && m <= |recs|
    ensures var mid := MidCut(st, cut, s.logs, m);
      && Fits(s.logs, mid) && st.meta.active in s.logs
      && Horizon(st, s.logs, m) <= st.meta.active + 1
      && Uncovered(s.logs, mid, s.meta.active + 1) == Uncovered(st.logs, cut, Horizon(st, s.logs, m)) + recs[m..]
  {
    hide Shape, Flat, CutAt, Uncovered, MidCut, LogRecords;
    var a0, x, hi := st.meta.active, |st.History()| + m, s.meta.active + 1;
    var mid, at := MidCut(st, cut, s.logs, m), CutAt(s.logs, |st.History()| + m);
    UncoveredAt(s.logs, x, hi);
    assert s.History()[x..] == recs[m..];
    MidAgrees(st, cut, s, m);
    UncoveredBelow(st, cut, s, m);
    if at[a0] > |st.logs[a0]| {
      JoinPast(s.logs, mid, at, a0, hi);
    } else {
      JoinBefore(s.logs, st.logs[a0], cut[a0], mid, at, a0, hi);
      UncoveredNext(st.logs, cut, a0);
    }
  }

  lemma ActivePart(id: nat, was: Log, log: Log, c: nat)
    requires was <= log && c <= |was|
    ensures LogRecords(id, log[c..]) == LogRecords(id, was[c..]) + LogRecords(id, log[|was|..])
  {
    assert log[c..] == was[c..] + log[|was|..];
  }
}
