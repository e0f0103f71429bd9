/** The process dies inside the second phase of a collection (engine.rs, gc.rs, recovery.rs). */
module GcCrash {
  import opened Compression
  import opened Segment
  import opened SegmentLog
  import opened Index
  import opened BlobStore
  import opened StoreWrites
  import opened Gc
  import opened GcMeaning
  import opened GcTransparency
  import opened Reads
  import opened Recovery
  import opened Crash
  import opened Reopening
  import opened Restarts
  import opened Watermark

  /** The compacted file is in place. */
  function Renamed(st: Store, p: Prep): Store {
    st.(logs := st.logs[p.seg := p.log])
  }

  /** ... and the kept rows are redirected. */
  function Redirected(st: Store, p: Prep): Store {
    Renamed(st, p).(index := InsertAll(st.index, LogRecords(p.seg, p.log)))
  }

  /** ... and the rows of dropped tombstones are gone; there are none (`Gc.DeletedKeysEmpty`). */
  function Purged(st: Store, p: Prep): Store {
    Redirected(st, p).(index := Redirected(st, p).index - (set k | k in p.deletedKeys))
  }

  /** ... and an emptied segment is gone from the saved metadata, its file still there. */
  function Forgotten(st: Store, p: Prep): Store {
    Purged(st, p).(saved := st.meta.(segments := st.meta.segments - {p.seg}))
  }

  /** The disk states of phase 2 before it is complete. */
  function PhasePoints(st: Store, p: Prep): seq<Store> {
    [Renamed(st, p), Redirected(st, p), Purged(st, p)] + if DataBytes(p.log) == 0 then [Forgotten(st, p)] else []
  }

  // -------------------------------------------------------------- nothing or something dropped

  lemma {:induction false} CompactShorter(index: IndexMap, seg: nat, log: Log)
    requires WellPlaced(log)
    ensures WellPlaced(Compact(index, seg, log)) && End(Compact(index, seg, log)) <= End(log)
    ensures End(Compact(index, seg, log)) == End(log) ==> Compact(index, seg, log) == log
  {
    hide Live, EncodeLog;
    if log != [] {
      var n := |log| - 1;
      var c := Compact(index, seg, log[..n]);
      CompactShorter(index, seg, log[..n]);
      if Live(index, seg, log[n]) {
        AppendKeepsPlaced(_ => 0, c, log[n].e);
        if c == log[..n] {
          assert c + [log[n]] == log;
        }
      }
    }
  }

  /** Only segment `t` has entries left to replay. */
  lemma {:induction false} OnlyRows(logs: map<nat, Log>, t: nat, hi: nat)
    requires t in logs && forall id :: id in logs && id != t ==> logs[id] == []
    ensures Uncovered(logs, NoCut(logs), hi) == if t < hi then LogRecords(t, logs[t]) else []
  {
    if hi != 0 {
      OnlyRows(logs, t, hi - 1);
      if hi - 1 in logs {
        assert logs[hi - 1][0..] == logs[hi - 1];
        if hi - 1 != t {
          assert LogRecords(hi - 1, []) == [];
        }
      }
    }
  }

  /** Every scan of `c` starts at the end of its segment, but that of `t` after `i` entries. */
  ghost predicate StartsAt(c: Store, t: nat, i: nat) {
    && t in c.logs && AtBoundary(c, t, i)
    && forall id :: id in c.logs && id != t ==> AtBoundary(c, id, |c.logs[id]|)
  }

  lemma StartsSeen(crc: Crc, c: Store, t: nat, i: nat)
    requires Shape(c) && StartsAt(c, t, i)
    ensures AllOpen(crc, c, c.meta.active + 1) && i <= |c.logs[t]|
    ensures Seen(crc, c)[t] == c.logs[t][i..] && forall id :: id in c.logs && id != t ==> Seen(crc, c)[id] == []
    ensures forall id :: id in c.logs ==> Rescan(crc, c, id).Scanned? && Rescan(crc, c, id).end == End(c.logs[id])
  {
    hide Shape, StartOf, End, Rescan;
    forall id | id in c.logs
      ensures Rescan(crc, c, id) == Scanned(c.logs[id][if id == t then i else |c.logs[id]|..], End(c.logs[id]))
    {
      BoundaryRescan(crc, c, id, if id == t then i else |c.logs[id]|);
    }
  }

  lemma StartsReopen(crc: Crc, c: Store, t: nat, i: nat)
    requires Shape(c) && SavedOlder(c) && StartsAt(c, t, i)
    ensures var r := Reopen(crc, DiskOf(crc, c), false, c.meta.active + 1);
      && r.Opened? && r.disk.files == DiskOf(crc, c).files
      && i <= |c.logs[t]| && r.disk.index == InsertAll(c.index, LogRecords(t, c.logs[t][i..]))
  {
    hide Shape, EncodeLog, InsertAll, Uncovered, Reopen, LogRecords, StartsAt, Seen, AllOpen, Rescan, NoCut;
    StartsIn(c, t, i);
    StartsSeen(crc, c, t, i);
    ReopenAny(crc, c);
    ShapeIds(c);
    OnlyRows(Seen(crc, c), t, c.meta.active + 1);
    var r := Reopen(crc, DiskOf(crc, c), false, c.meta.active + 1);
    forall id | id in c.logs ensures r.disk.files[id] == DiskOf(crc, c).files[id] {
      WholeFile(crc, c, id);
    }
    assert r.disk.files == DiskOf(crc, c).files;
  }

  lemma WholeFile(crc: Crc, c: Store, id: nat)
    requires Shape(c) && id in c.logs && Rescan(crc, c, id).Scanned? && Rescan(crc, c, id).end == End(c.logs[id])
    ensures CutFile(crc, c, id) == DiskOf(crc, c).files[id]
  {
    hide EncodeLog, Rescan, WellPlaced;
    ShapeLogs(c, id);
    var file := EncodeLog(crc, c.logs[id]);
    assert file[..|file|] == file;
  }

  lemma StartsIn(c: Store, t: nat, i: nat)
    requires StartsAt(c, t, i)
    ensures t in c.logs
  {
  }

  // ------------------------------------------------------------------------ the points

  lemma ReplacedShape(st: Store, t: nat, log: Log)
    requires Shape(st) && t in st.logs && t in st.meta.segments && t != st.meta.active && LogOk(log)
    ensures Shape(st.(logs := st.logs[t := log]))
  {
    hide LogOk;
  }

  lemma PointShape(cfg: Config, st: Store, view: View, c: Store)
    requires Synced(st) && Inv(st, view) && Prepare(cfg, st).Some? && c in PhasePoints(st, Prepare(cfg, st).value)
    ensures Shape(c) && SavedOlder(c) && c.meta == st.meta && c.logs == st.logs[Prepare(cfg, st).value.seg := Prepare(cfg, st).value.log]
  {
    hide Prepare, Means, LogOk, Compact, InsertAll, DataBytes, Shape, Collect;
    var p := Prepare(cfg, st).value;
    CollectedDisk(cfg, st, view);
    ReplacedShape(st, p.seg, p.log);
    var r := Renamed(st, p);
    MetaKeys(st);
    Prepared(cfg, st, view);
    PointIs(st, p, c);
    ShapeIgnoresIndex(r, c.index, c.saved);
  }

  lemma PointIs(st: Store, p: Prep, c: Store)
    requires c in PhasePoints(st, p) && p.deletedKeys == []
    ensures c == Renamed(st, p) || c == Redirected(st, p) || c == Forgotten(st, p)
    ensures c != Renamed(st, p) ==> c.index == Redirected(st, p).index
    ensures c == Renamed(st, p).(index := c.index, saved := c.saved)
    ensures c.saved == st.saved || c.saved == st.meta.(segments := st.meta.segments - {p.seg})
  {
    hide InsertAll, DataBytes;
    assert (set k | k in p.deletedKeys) == {};
    assert Purged(st, p) == Redirected(st, p);
  }

  /** A segment that is not touched. */
  lemma OtherStart(st: Store, c: Store, id: nat)
    requires Resumable(st, FullCut(st.logs)) && id in c.logs && id in st.logs && c.logs[id] == st.logs[id]
    requires c.saved.StatsOf(id).indexed == st.saved.StatsOf(id).indexed || c.saved.StatsOf(id).indexed == st.meta.StatsOf(id).indexed
    ensures AtBoundary(c, id, |c.logs[id]|)
  {
    hide Shape, End;
    assert st.logs[id][..|st.logs[id]|] == st.logs[id];
  }

  lemma ReplacedStart(st: Store, c: Store, t: nat, log: Log)
    requires Resumable(st, FullCut(st.logs)) && t in st.logs && t in c.logs && c.logs[t] == log && End(log) <= End(st.logs[t])
    requires c.saved.StatsOf(t).indexed == st.saved.StatsOf(t).indexed || c.saved.StatsOf(t).indexed == 0
    ensures AtBoundary(c, t, 0) || (AtBoundary(c, t, |log|) && End(log) == End(st.logs[t]))
  {
    hide Shape;
    assert st.logs[t][..|st.logs[t]|] == st.logs[t] && log[..0] == [] && log[..|log|] == log;
  }

  /** The rescan after the replacement: of the whole file when it became shorter. */
  lemma PointStarts(cfg: Config, st: Store, view: View, c: Store)
    requires Resumable(st, FullCut(st.logs)) && Inv(st, view) && Prepare(cfg, st).Some?
    requires c in PhasePoints(st, Prepare(cfg, st).value)
    ensures var p := Prepare(cfg, st).value;
      StartsAt(c, p.seg, 0) || (StartsAt(c, p.seg, |p.log|) && c.logs == st.logs)
  {
    hide Prepare, Means, LogOk, Compact, InsertAll, DataBytes, Shape, PhasePoints, AtBoundary, Collect, Resumable, FullCut;
    var p := Prepare(cfg, st).value;
    var t := p.seg;
    CollectedDisk(cfg, st, view);
    PointShape(cfg, st, view, c);
    Prepared(cfg, st, view);
    PointIs(st, p, c);
    ShapeLogs(st, t);
    CompactShorter(st.index, t, st.logs[t]);
    forall id | id in c.logs && id != t ensures AtBoundary(c, id, |c.logs[id]|) {
      OtherStart(st, c, id);
    }
    ReplacedStart(st, c, t, p.log);
    if !AtBoundary(c, t, 0) {
      assert st.logs[t := st.logs[t]] == st.logs;
    }
  }

  /** A kept entry is what its key means already. */
  lemma KeptAgain(cfg: Config, st: Store, view: View)
    requires Inv(st, view) && Prepare(cfg, st).Some?
    ensures ApplyAll(view, Entries(Prepare(cfg, st).value.log)) == view
  {
    hide Prepare, Shape, Means, ApplyAll, LastEntry, Compact, Later, LogOk;
    var p := Prepare(cfg, st).value;
    Prepared(cfg, st, view);
    var es := Entries(p.log);
    var v := ApplyAll(view, es);
    forall k ensures (k in v <==> k in view) && (k in v ==> v[k] == view[k]) {
      ApplyAllAt(view, es, k);
      LastEntryMember(es, k);
      if LastEntry(es, k).Some? {
        KeptIsCurrent(st, view, p.seg, LastEntry(es, k).value);
        MeansLive(st, view, k);
      }
    }
  }

  /** However the index stands at the point, the replayed rows make it the redirected one. */
  lemma PointMeans(cfg: Config, st: Store, view: View, c: Store)
    requires Synced(st) && Inv(st, view) && Prepare(cfg, st).Some? && c in PhasePoints(st, Prepare(cfg, st).value)
    ensures var recs := LogRecords(Prepare(cfg, st).value.seg, Prepare(cfg, st).value.log);
      && InsertAll(c.index, recs) == InsertAll(st.index, recs)
      && Means(c.logs, InsertAll(st.index, recs), view)
      && (c.logs == st.logs ==> Means(c.logs, c.index, view))
  {
    hide Prepare, Shape, Means, InsertAll, ApplyAll, Compact, Later, LogOk, DataBytes;
    var p := Prepare(cfg, st).value;
    var recs := LogRecords(p.seg, p.log);
    Prepared(cfg, st, view);
    InsertTwice(st.index, recs);
    PointIs(st, p, c);
    PointShape(cfg, st, view, c);
    RedirectMeans(st, view, st, view, p, c.logs);
    KeptAgain(cfg, st, view);
  }

  lemma InsertTwice(index: IndexMap, recs: seq<IndexRecord>)
    ensures InsertAll(InsertAll(index, recs), recs) == InsertAll(index, recs)
  {
    hide *;
    var once := InsertAll(index, recs);
    var twice := InsertAll(once, recs);
    forall k: Key
      ensures k in twice <==> k in once
      ensures k in twice ==> twice[k] == once[k]
    {
      InsertAllAt(index, recs, k);
      InsertAllAt(once, recs, k);
    }
  }

  /**
   * A crash inside phase 2 of a collection, after the rename, after the index transaction, or after the metadata
   * is saved and before the file of an emptied segment is removed: the store reopens with every read as before
   * the collection, also when the collection would have dropped live empty values.
   */
  lemma GcCrashKeepsReads(lib: Lib, cfg: Config, st: Store, view: View, c: Store, k: Key)
    requires Resumable(st, FullCut(st.logs)) && Inv(st, view) && Prepare(cfg, st).Some?
    requires c in PhasePoints(st, Prepare(cfg, st).value)
    ensures Shape(c)
    ensures var r := Reopen(lib.crc, DiskOf(lib.crc, c), false, c.meta.active + 1);
      r.Opened? && DiskGet(lib, r.disk, k) == Get(lib, st, k)
  {
    hide *;
    var p := Prepare(cfg, st).value;
    PointShape(cfg, st, view, c);
    PointStarts(cfg, st, view, c);
    PointMeans(cfg, st, view, c);
    PointLog(cfg, st, view, c);
    if StartsAt(c, p.seg, 0) {
      StartsReopen(lib.crc, c, p.seg, 0);
      assert c.logs[p.seg][0..] == c.logs[p.seg];
      ReadsThrough(lib, c, InsertAll(c.index, LogRecords(p.seg, p.log)), view, st, k);
    } else {
      StartsReopen(lib.crc, c, p.seg, |p.log|);
      NoRecords(p.seg, p.log, c.index);
      ReadsThrough(lib, c, c.index, view, st, k);
    }
  }

  lemma PointLog(cfg: Config, st: Store, view: View, c: Store)
    requires Synced(st) && Inv(st, view) && Prepare(cfg, st).Some? && c in PhasePoints(st, Prepare(cfg, st).value)
    ensures var p := Prepare(cfg, st).value; p.seg in c.logs && c.logs[p.seg] == p.log
  {
  }

  lemma NoRecords(t: nat, log: Log, index: IndexMap)
    ensures InsertAll(index, LogRecords(t, log[|log|..])) == index
  {
    assert LogRecords(t, log[|log|..]) == [];
  }

  /** Files and rows that mean `view` read as any store that means it. */
  lemma ReadsThrough(lib: Lib, c: Store, index: IndexMap, view: View, st: Store, k: Key)
    requires Shape(c) && Means(c.logs, index, view) && Inv(st, view)
    ensures forall disk: Disk :: disk.files == DiskOf(lib.crc, c).files && disk.index == index ==> DiskGet(lib, disk, k) == Get(lib, st, k)
  {
    hide Shape, Means, Get, EncodeLog, DecodeAt, Unpack;
    var s := c.(index := index);
    ShapeIgnoresIndex(c, index, c.saved);
    GetMeans(lib, s, view, k);
    GetMeans(lib, st, view, k);
    DiskGetIsGet(lib, s, k);
    assert DiskOf(lib.crc, s).files == DiskOf(lib.crc, c).files;
  }

  // ----------------------------------------- any watermarks, and writes between the phases

  lemma MidShape(cfg: Config, s0: Store, v0: View, s1: Store, c: Store)
    requires Inv(s0, v0) && Prepare(cfg, s0).Some? && Shape(s1) && SavedOlder(s1) && Later(s0, s1, Prepare(cfg, s0).value.seg)
    requires c in PhasePoints(s1, Prepare(cfg, s0).value)
    ensures Shape(c) && SavedOlder(c) && c.meta == s1.meta && c.logs == s1.logs[Prepare(cfg, s0).value.seg := Prepare(cfg, s0).value.log]
  {
    hide Prepare, Means, LogOk, Compact, InsertAll, DataBytes, Shape, PhasePoints;
    var p := Prepare(cfg, s0).value;
    Prepared(cfg, s0, v0);
    LaterFacts(s0, s1, p.seg);
    ReplacedShape(s1, p.seg, p.log);
    MetaKeys(s1);
    PointIs(s1, p, c);
    ShapeIgnoresIndex(Renamed(s1, p), c.index, c.saved);
  }

  /** What `k` reads after the crash: the last entry found for it, or through the row it has. */
  ghost function AfterCrash(lib: Lib, c: Store, k: Key): GetResult
    requires Shape(c)
  {
    match LastEntry(Replayed(lib.crc, c), k)
    case Some(e) => ReadEntry(lib, e)
    case None => CutGet(lib, c, k)
  }

  /**
   * A crash inside phase 2 with the watermarks anywhere and any operations between the phases: the store reopens
   * with every read as just before phase 2 if and only if no scan fails and each key reads so through the last
   * entry that the scans find for it, or else through its row in the cut files.
   */
  lemma GcCrashExactly(lib: Lib, cfg: Config, s0: Store, v0: View, s1: Store, c: Store)
    requires Inv(s0, v0) && Prepare(cfg, s0).Some? && Shape(s1) && SavedOlder(s1) && Later(s0, s1, Prepare(cfg, s0).value.seg)
    requires c in PhasePoints(s1, Prepare(cfg, s0).value)
    ensures Shape(c)
    ensures
      var r := Reopen(lib.crc, DiskOf(lib.crc, c), false, c.meta.active + 1);
      (r.Opened? && forall k :: DiskGet(lib, r.disk, k) == Get(lib, s1, k)) <==>
        AllOpen(lib.crc, c, c.meta.active + 1) && forall k :: AfterCrash(lib, c, k) == Get(lib, s1, k)
  {
    hide *;
    MidShape(cfg, s0, v0, s1, c);
    ReopenAny(lib.crc, c);
    forall k: Key
      ensures var r := Reopen(lib.crc, DiskOf(lib.crc, c), false, c.meta.active + 1);
        r.Opened? ==> DiskGet(lib, r.disk, k) == AfterCrash(lib, c, k)
    {
      ReopenRowsRead(lib, c, k);
      AfterCrashIs(lib, c, k);
    }
  }

  lemma AfterCrashIs(lib: Lib, c: Store, k: Key)
    requires Shape(c)
    ensures AfterCrash(lib, c, k) ==
      match LastEntry(Replayed(lib.crc, c), k) case Some(e) => ReadEntry(lib, e) case None => CutGet(lib, c, k)
  {
  }

  /**
   * Once the rows are redirected: a key for which nothing is found reads as at phase 1 if it was kept and as just
   * before phase 2 otherwise, unless its entry was cut off.
   */
  lemma RedirectedReads(lib: Lib, cfg: Config, s0: Store, v0: View, s1: Store, v1: View, c: Store, k: Key)
    requires Inv(s0, v0) && Inv(s1, v1) && Prepare(cfg, s0).Some? && SavedOlder(s1) && Later(s0, s1, Prepare(cfg, s0).value.seg)
    requires c in PhasePoints(s1, Prepare(cfg, s0).value) && c != Renamed(s1, Prepare(cfg, s0).value)
    ensures Shape(c)
    ensures var r := Reopen(lib.crc, DiskOf(lib.crc, c), false, c.meta.active + 1);
      r.Opened? ==>
        var e := LastEntry(Replayed(lib.crc, c), k);
        DiskGet(lib, r.disk, k) ==
        if e.Some? then ReadEntry(lib, e.value)
        else if CutAway(lib.crc, c, k) then ReadError
        else if Keeps(Prepare(cfg, s0).value, k) then Get(lib, s0, k) else Get(lib, s1, k)
  {
    hide Prepare, Means, LogOk, Compact, InsertAll, DataBytes, Shape, PhasePoints, Get, Reopen, DiskGet, Replayed, CutAway, ApplyAll, LastEntry,
      Later, Unpack, ReadEntry, Keeps, RowsFrom;
    var p := Prepare(cfg, s0).value;
    MidShape(cfg, s0, v0, s1, c);
    Prepared(cfg, s0, v0);
    PointIs(s1, p, c);
    var view := ApplyAll(v1, Entries(p.log));
    PointReplaces(s1, p, c);
    RedirectMeans(s0, v0, s1, v1, p, c.logs);
    ReopenAnyReads(lib, c, view, k);
    ReplayIs(lib, c, k);
    RedirectedGet(lib, cfg, s0, v0, s1, v1, c, k);
  }

  lemma PointReplaces(s1: Store, p: Prep, c: Store)
    requires c.logs == s1.logs[p.seg := p.log]
    ensures Replaces(c.logs, s1, p)
  {
  }

  lemma RedirectedGet(lib: Lib, cfg: Config, s0: Store, v0: View, s1: Store, v1: View, c: Store, k: Key)
    requires Inv(s0, v0) && Inv(s1, v1) && Prepare(cfg, s0).Some?
    requires Inv(c, ApplyAll(v1, Entries(Prepare(cfg, s0).value.log)))
    ensures Get(lib, c, k) == if Keeps(Prepare(cfg, s0).value, k) then Get(lib, s0, k) else Get(lib, s1, k)
  {
    hide Prepare, Shape, Means, Compact, LogOk, Get, ApplyAll, LastEntry, Unpack, Later;
    var p := Prepare(cfg, s0).value;
    var es := Entries(p.log);
    Prepared(cfg, s0, v0);
    GetMeans(lib, c, ApplyAll(v1, es), k);
    GetMeans(lib, s1, v1, k);
    GetMeans(lib, s0, v0, k);
    ApplyAllAt(v1, es, k);
    LastEntryMember(es, k);
    if LastEntry(es, k).Some? {
      KeptIsCurrent(s0, v0, p.seg, LastEntry(es, k).value);
      MeansLive(s0, v0, k);
    }
  }
}
