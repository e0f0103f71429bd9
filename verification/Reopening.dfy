/**
 * What a reopen reads: for every store whose watermarks are entry boundaries, whatever was written, rejected or
 * collected before (engine.rs, recovery.rs).
 */
module Reopening {
  import opened Words
  import opened Compression
  import opened Segment
  import opened SegmentLog
  import opened Index
  import opened BlobStore
  import opened StoreWrites
  import opened Gc
  import opened Recovery
  import opened Reads
  import opened Crash

  // ------------------------------------------------------ entries behind the watermarks

  /** The entries that a reopen replays, in the order it does. */
  ghost function Behind(logs: map<nat, Log>, cut: map<nat, nat>, hi: nat): seq<Entry>
    requires Fits(logs, cut)
  {
    if hi == 0 then []
    else Behind(logs, cut, hi - 1) + (if hi - 1 in logs then Entries(logs[hi - 1][cut[hi - 1]..]) else [])
  }

  /** Record `i` points at entry `i`. */
  ghost predicate AllPoint(logs: map<nat, Log>, recs: seq<IndexRecord>, es: seq<Entry>) {
    |recs| == |es| && forall i :: 0 <= i < |recs| ==> PointsAt(logs, recs[i], es[i])
  }

  lemma AllPointConcat(logs: map<nat, Log>, r: seq<IndexRecord>, d: seq<Entry>, s: seq<IndexRecord>, e: seq<Entry>)
    requires AllPoint(logs, r, d) && AllPoint(logs, s, e)
    ensures AllPoint(logs, r + s, d + e)
  {
    hide PointsAt;
  }

  lemma {:induction false} BehindPoints(logs: map<nat, Log>, cut: map<nat, nat>, hi: nat)
    requires Fits(logs, cut)
    ensures AllPoint(logs, Uncovered(logs, cut, hi), Behind(logs, cut, hi))
  {
    hide AllPoint;
    if hi == 0 {
      NonePoint(logs);
    } else {
      BehindPoints(logs, cut, hi - 1);
      if hi - 1 in logs {
        SuffixPoints(logs, hi - 1, cut[hi - 1]);
        AllPointConcat(logs, Uncovered(logs, cut, hi - 1), Behind(logs, cut, hi - 1),
                       LogRecords(hi - 1, logs[hi - 1][cut[hi - 1]..]), Entries(logs[hi - 1][cut[hi - 1]..]));
      } else {
        assert Uncovered(logs, cut, hi) == Uncovered(logs, cut, hi - 1) && Behind(logs, cut, hi) == Behind(logs, cut, hi - 1);
      }
    }
  }

  lemma NonePoint(logs: map<nat, Log>)
    ensures AllPoint(logs, [], [])
  {
  }

  lemma SuffixPoints(logs: map<nat, Log>, id: nat, c: nat)
    requires id in logs && c <= |logs[id]|
    ensures AllPoint(logs, LogRecords(id, logs[id][c..]), Entries(logs[id][c..]))
  {
    assert forall i :: 0 <= i < |logs[id][c..]| ==> logs[id][c..][i] in logs[id];
  }

  lemma PointsUnique(logs: map<nat, Log>, r: IndexRecord, d: Entry, e: Entry)
    requires PointsAt(logs, r, d) && PointsAt(logs, r, e) && LogOk(logs[r.segmentId])
    ensures d == e
  {
    SameOffset(logs[r.segmentId], Placed(r.offset, d), Placed(r.offset, e));
  }

  lemma AllPointUnique(st: Store, recs: seq<IndexRecord>, d: seq<Entry>, e: seq<Entry>)
    requires Shape(st) && AllPoint(st.logs, recs, d) && AllPoint(st.logs, recs, e)
    ensures d == e
  {
    hide LogOk;
    forall i | 0 <= i < |recs| ensures d[i] == e[i] {
      ShapeLogs(st, recs[i].segmentId);
      PointsUnique(st.logs, recs[i], d[i], e[i]);
    }
  }

  lemma AllPointExtends(a: map<nat, Log>, b: map<nat, Log>, recs: seq<IndexRecord>, es: seq<Entry>)
    requires Extends(a, b) && AllPoint(a, recs, es)
    ensures AllPoint(b, recs, es)
  {
    hide PointsAt, Extends;
    forall i | 0 <= i < |recs| ensures PointsAt(b, recs[i], es[i]) {
      PointsExtends(a, b, recs[i], es[i]);
    }
  }

  // ---------------------------------------------------------------------- the reopen

  /** The disk of a store, the active file followed by the bytes of an interrupted append. */
  ghost function DiskWithTail(crc: Crc, c: Store, tail: Bytes): Disk
    requires Shape(c)
  {
    var d := DiskOf(crc, c);
    d.(files := d.files[c.meta.active := d.files[c.meta.active] + tail])
  }

  /** Recovery cuts the bytes off. */
  ghost predicate CutsOff(crc: Crc, c: Store, tail: Bytes)
    ensures CutsOff(crc, c, tail) ==> Shape(c)
  {
    Shape(c) && Cuttable(crc, EncodeLog(crc, c.Active()) + tail, End(c.Active()))
  }

  lemma DiskRecoverable(crc: Crc, c: Store, tail: Bytes)
    requires SavedOlder(c) && CutsOff(crc, c, tail)
    ensures Recoverable(crc, DiskWithTail(crc, c, tail), c.logs, c.meta.active)
  {
    hide EncodeLog, WellPlaced;
    var d := DiskWithTail(crc, c, tail);
    forall id | id in c.logs
      ensures Holds(crc, d.files[id], c.logs[id])
    {
      var file, log := d.files[id], c.logs[id];
      assert LogOk(log);
      assert file[..End(log)] == EncodeLog(crc, log);
    }
  }

  lemma NoTail(crc: Crc, c: Store)
    requires Shape(c)
    ensures CutsOff(crc, c, []) && DiskWithTail(crc, c, []) == DiskOf(crc, c)
  {
    hide EncodeLog, LogOk;
    ShapeLogs(c, c.meta.active);
    var file := EncodeLog(crc, c.Active());
    assert file + [] == file;
    assert DiskWithTail(crc, c, []).files == DiskOf(crc, c).files;
  }

  lemma ShapeIds(c: Store)
    requires Shape(c)
    ensures 1 <= c.meta.active && c.meta.active in c.logs && forall id :: id in c.logs ==> 1 <= id <= c.meta.active
  {
  }

  lemma RestoredDisk(crc: Crc, disk: Disk, logs: map<nat, Log>, active: nat)
    requires Restored(crc, disk, logs, active) && Shape(Loaded(logs, disk))
    ensures disk == DiskOf(crc, Loaded(logs, disk))
  {
    hide LogOk, EncodeLog;
    assert disk.files == DiskOf(crc, Loaded(logs, disk)).files;
  }

  /** Every watermark at the end of its log. */
  ghost function FullCut(logs: map<nat, Log>): (cut: map<nat, nat>)
    ensures Fits(logs, cut)
  {
    map id | id in logs :: |logs[id]|
  }

  lemma RestoredResumable(crc: Crc, disk: Disk, c: Store)
    requires Shape(c) && Restored(crc, disk, c.logs, c.meta.active)
    ensures Resumable(Loaded(c.logs, disk), FullCut(c.logs))
  {
    hide LogOk, EncodeLog;
    var s := Loaded(c.logs, disk);
    assert Shape(s);
    forall id | id in c.logs ensures s.meta.StatsOf(id).indexed == End(c.logs[id][..|c.logs[id]|]) {
      assert c.logs[id][..|c.logs[id]|] == c.logs[id];
    }
  }

  /** The reopened store, when the logs are `c.logs` and the rows are `index`. */
  ghost predicate ReopensAs(crc: Crc, c: Store, tail: Bytes, s: Store)
    requires Shape(c)
    ensures ReopensAs(crc, c, tail, s) ==> Resumable(s, FullCut(c.logs)) && s.logs == c.logs && s.meta.active == c.meta.active
  {
    var r := Reopen(crc, DiskWithTail(crc, c, tail), false, c.meta.active + 1);
    && r.Opened? && s == Loaded(c.logs, r.disk) && s.meta.active == c.meta.active
    && Resumable(s, FullCut(c.logs)) && r.disk == DiskOf(crc, s)
    && Reopen(crc, r.disk, false, c.meta.active + 1) == r
  }

  ghost function Reopened(crc: Crc, c: Store, tail: Bytes): Store
    requires Shape(c)
  {
    var r := Reopen(crc, DiskWithTail(crc, c, tail), false, c.meta.active + 1);
    if r.Opened? then Loaded(c.logs, r.disk) else c
  }

  lemma SavedCovered(crc: Crc, c: Store, cut: map<nat, nat>, tail: Bytes)
    requires Shape(c)
    ensures DiskWithTail(crc, c, tail).meta == c.saved && DiskWithTail(crc, c, tail).index == c.index
  {
  }

  /**
   * Boundary watermarks and any bytes that recovery cuts off: the open succeeds, a second one changes nothing,
   * every watermark is at its end, and the entries behind the old watermarks are replayed into the index.
   */
  lemma ReopenExact(crc: Crc, c: Store, cut: map<nat, nat>, tail: Bytes)
    requires SavedOlder(c) && Covered(c.logs, c.saved, cut) && CutsOff(crc, c, tail)
    ensures ReopensAs(crc, c, tail, Reopened(crc, c, tail))
    ensures Reopened(crc, c, tail).index == InsertAll(c.index, Uncovered(c.logs, cut, c.meta.active + 1))
    ensures Reopened(crc, c, tail).logs == c.logs
  {
    hide Shape, EncodeLog, CutsOff, Recoverable, Reopen, Restored, InsertAll, Uncovered, Resumable, DiskWithTail, Covered;
    SavedCovered(crc, c, cut, tail);
    var active, disk := c.meta.active, DiskWithTail(crc, c, tail);
    DiskRecoverable(crc, c, tail);
    ReopenReplays(crc, disk, c.logs, cut, active);
    var r := Reopen(crc, disk, false, active + 1);
    ShapeIds(c);
    ReopenIdempotent(crc, r.disk, c.logs, active);
    RestoredResumable(crc, r.disk, c);
    RestoredDisk(crc, r.disk, c.logs, active);
    RestoredKeys(crc, r.disk, c.logs, active);
  }

  /** The reopened store means the old contents with the entries behind the watermarks written once more. */
  lemma ReopenMeans(crc: Crc, c: Store, view: View, cut: map<nat, nat>, tail: Bytes)
    requires Inv(c, view) && SavedOlder(c) && Covered(c.logs, c.saved, cut) && CutsOff(crc, c, tail)
    ensures ReopensAs(crc, c, tail, Reopened(crc, c, tail))
    ensures Inv(Reopened(crc, c, tail), ApplyAll(view, Behind(c.logs, cut, c.meta.active + 1)))
  {
    hide Shape, EncodeLog, Cuttable, Reopen, InsertAll, Uncovered, Means, Behind, PointsAt, Resumable, Reopened;
    ReopenExact(crc, c, cut, tail);
    BehindPoints(c.logs, cut, c.meta.active + 1);
    InsertAllMeans(c.logs, c.index, view, Uncovered(c.logs, cut, c.meta.active + 1), Behind(c.logs, cut, c.meta.active + 1));
    ResumableShape(Reopened(crc, c, tail), FullCut(c.logs));
  }

  lemma ResumableShape(s: Store, cut: map<nat, nat>)
    requires Resumable(s, cut)
    ensures Shape(s) && SavedOlder(s) && Covered(s.logs, s.meta, cut) && Covered(s.logs, s.saved, cut)
  {
    hide LogOk;
  }

  /** What a read of the entry gives. */
  function ReadEntry(lib: Lib, e: Entry): GetResult {
    if e.IsTombstone() then Absent else Unpack(lib, e)
  }

  /** After a reopen a key reads as the last entry behind the watermarks, and otherwise as before. */
  lemma ReopenReads(lib: Lib, c: Store, view: View, cut: map<nat, nat>, tail: Bytes, k: Key)
    requires Inv(c, view) && SavedOlder(c) && Covered(c.logs, c.saved, cut) && CutsOff(lib.crc, c, tail)
    ensures Shape(Reopened(lib.crc, c, tail))
    ensures Get(lib, Reopened(lib.crc, c, tail), k) ==
      match LastEntry(Behind(c.logs, cut, c.meta.active + 1), k)
      case Some(e) => ReadEntry(lib, e)
      case None => Get(lib, c, k)
  {
    hide Shape, EncodeLog, Cuttable, Means, Behind, Resumable, Reopened, Get, ApplyAll, LastEntry, Covered, ReopensAs, Unpack;
    var es := Behind(c.logs, cut, c.meta.active + 1);
    ReopenMeans(lib.crc, c, view, cut, tail);
    GetMeans(lib, Reopened(lib.crc, c, tail), ApplyAll(view, es), k);
    GetMeans(lib, c, view, k);
    ApplyAllAt(view, es, k);
  }

  /**
   * A reopen leaves every read as it was if and only if, for each key with an entry behind the watermarks, the
   * last such entry reads as the key reads now.
   */
  lemma ReopenHarmless(lib: Lib, c: Store, view: View, cut: map<nat, nat>, tail: Bytes)
    requires Inv(c, view) && SavedOlder(c) && Covered(c.logs, c.saved, cut) && CutsOff(lib.crc, c, tail)
    ensures Shape(Reopened(lib.crc, c, tail))
    ensures (forall k :: Get(lib, Reopened(lib.crc, c, tail), k) == Get(lib, c, k)) <==>
      forall k :: var e := LastEntry(Behind(c.logs, cut, c.meta.active + 1), k);
        e.Some? ==> ReadEntry(lib, e.value) == Get(lib, c, k)
  {
    hide *;
    ReopenReads(lib, c, view, cut, tail, seq(32, _ => 0));
    forall k: Key
      ensures Get(lib, Reopened(lib.crc, c, tail), k) ==
        match LastEntry(Behind(c.logs, cut, c.meta.active + 1), k)
        case Some(e) => ReadEntry(lib, e)
        case None => Get(lib, c, k)
    {
      ReopenReads(lib, c, view, cut, tail, k);
    }
  }

  // ------------------------------------------------------------------ rejected batches

  lemma {:induction false} FullBehind(logs: map<nat, Log>, hi: nat)
    ensures Behind(logs, FullCut(logs), hi) == []
  {
    if hi != 0 {
      FullBehind(logs, hi - 1);
    }
  }

  /** Behind the watermarks in the middle of a write: the old entries and the new ones that are not marked. */
  lemma BehindMid(st: Store, cut: map<nat, nat>, s: Store, recs: seq<IndexRecord>, es: seq<Entry>, m: nat)
    requires Shape(st) && Covered(st.logs, st.meta, cut) && Shape(s) && Extends(st.logs, s.logs)
    requires LogsGrown(st.logs, st.meta.active, s.logs, s.meta.active)
    requires s.History() == st.History() + recs && m <= |recs| && AllPoint(s.logs, recs, es)
    ensures var mid := MidCut(st, cut, s.logs, m);
      && Fits(s.logs, mid) && st.meta.active in s.logs
      && Behind(s.logs, mid, s.meta.active + 1) == Behind(st.logs, cut, Horizon(st, s.logs, m)) + es[m..]
  {
    hide Shape, Flat, MidCut, Behind, Uncovered, Horizon, Extends, PointsAt;
    UncoveredMid(st, cut, s, recs, m);
    var mid, h := MidCut(st, cut, s.logs, m), Horizon(st, s.logs, m);
    BehindPoints(s.logs, mid, s.meta.active + 1);
    BehindPoints(st.logs, cut, h);
    AllPointExtends(st.logs, s.logs, Uncovered(st.logs, cut, h), Behind(st.logs, cut, h));
    AllPointConcat(s.logs, Uncovered(st.logs, cut, h), Behind(st.logs, cut, h), recs[m..], es[m..]);
    AllPointUnique(s, Uncovered(s.logs, mid, s.meta.active + 1), Behind(s.logs, mid, s.meta.active + 1),
                   Behind(st.logs, cut, h) + es[m..]);
  }
}
