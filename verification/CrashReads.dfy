/** A crash at any disk state of any write, then a reopen: what every key reads (engine.rs, recovery.rs). */
module CrashReads {
  import opened Words
  import opened Compression
  import opened Segment
  import opened Index
  import opened BlobStore
  import opened StoreWrites
  import opened Reads
  import opened Runs
  import opened Recovery
  import opened Crash
  import opened Reopening
  import opened BatchMarks
  import opened CrashPoints

  lemma WritesOk(lib: Lib, cfg: Config, op: Op)
    ensures forall i :: 0 <= i < |Writes(lib, cfg, op)| ==> EntryOk(Writes(lib, cfg, op)[i])
  {
    match op
    case Put(item) => if |item.value| <= MAX_VALUE_SIZE { PackOk(lib, cfg, item); }
    case Delete(k) => TombstonesOk([k]); assert Tombstones([k])[0] == Tombstone(k);
    case DeleteKeys(keys) => TombstonesOk(keys);
    case _ =>
  }

  lemma PutPointsAreMid(lib: Lib, cfg: Config, st: Store, cut: map<nat, nat>, op: Op, i: nat)
    requires Resumable(st, cut) && op.Put? && i < |Points(lib, cfg, st, op)|
    ensures var p := Points(lib, cfg, st, op)[i];
      Mid(st, cut, Writes(lib, cfg, op), p.disk, p.written, p.indexed, p.marked)
  {
    hide Resumable, Shape, Mid, AppendPoints, OnePoints, AppendMany, Writes, Loop;
    var es := Writes(lib, cfg, op);
    WritesOk(lib, cfg, op);
    WritesOne(lib, cfg, op);
    if i < |AppendPoints(st, es)| {
      AppendPointsAreMid(st, cut, es, i);
    } else {
      PutsLoop(st, cut, es);
      OneRecord(st, es);
      OnePointsLength(AppendMany(st, es), Appended(AppendMany(st, es)));
      OnePointsAreMid(st, cut, es, AppendMany(st, es), i - |AppendPoints(st, es)|);
    }
  }

  lemma WritesOne(lib: Lib, cfg: Config, op: Op)
    ensures op.Put? ==> |Writes(lib, cfg, op)| <= 1
    ensures op.Delete? ==> Writes(lib, cfg, op) == Tombstones([op.key])
    ensures op.DeleteKeys? ==> Writes(lib, cfg, op) == Tombstones(op.keys)
    ensures op.Seal? || op.Flush? ==> Writes(lib, cfg, op) == []
  {
  }

  lemma OneRecord(st: Store, es: seq<Entry>)
    requires st.Ready() && |es| == 1
    ensures AppendedRecords(st, es)[0] == Appended(AppendMany(st, es))
  {
  }

  lemma OnePointsLength(a: Store, r: IndexRecord)
    ensures |OnePoints(a, r)| == 2
  {
  }

  lemma DeletePointsOk(lib: Lib, cfg: Config, st: Store, cut: map<nat, nat>, op: Op, i: nat)
    requires Resumable(st, cut) && op.Delete? && i < |Points(lib, cfg, st, op)|
    ensures var p := Points(lib, cfg, st, op)[i];
      Mid(st, cut, Writes(lib, cfg, op), p.disk, p.written, p.indexed, p.marked)
  {
    hide Resumable, Shape, Mid, DeletePoints, OnePoints, DeleteMany, Tombstones, Loop, AppendedRecords, Writes;
    var es, keys := Writes(lib, cfg, op), [op.key];
    WritesOne(lib, cfg, op);
    if i < |DeletePoints(st, keys)| {
      DeletePointsAreMid(st, cut, keys, i);
    } else {
      DeletesLoop(st, cut, keys);
      OnePointsLength(DeleteMany(st, keys), AppendedRecords(st, es)[0]);
      OnePointsAreMid(st, cut, es, DeleteMany(st, keys), i - |DeletePoints(st, keys)|);
    }
  }

  lemma PutBatchPointsAreMid(lib: Lib, cfg: Config, st: Store, cut: map<nat, nat>, op: Op, i: nat)
    requires Resumable(st, cut) && op.PutBatch? && i < |Points(lib, cfg, st, op)|
    ensures var p := Points(lib, cfg, st, op)[i];
      Mid(st, cut, Writes(lib, cfg, op), p.disk, p.written, p.indexed, p.marked)
  {
    hide Resumable, Shape, Mid, AppendPoints, CommitPoints, AppendMany, Writes, Loop, AppendedRecords, HighestEnds, MarkAll,
      Accepted;
    var es := Writes(lib, cfg, op);
    WritesOk(lib, cfg, op);
    if i < |AppendPoints(st, es)| {
      AppendPointsAreMid(st, cut, es, i);
    } else {
      var recs := AppendedRecords(st, es);
      var marks, upTo := HighestEnds(recs), (n: nat) => MarkedBy(recs, n);
      PutsLoop(st, cut, es);
      BatchAscends(st, es);
      forall n | 1 <= n <= |marks|
        ensures 0 < upTo(n) <= |es| && forall s: Store :: MarkAll(s, marks[..n]) == MarkAll(s, recs[..upTo(n)])
      {
        PartialMarks(st, recs, n);
        forall s: Store ensures MarkAll(s, marks[..n]) == MarkAll(s, recs[..upTo(n)]) {
          PartialMarks(s, recs, n);
        }
      }
      CommitPointsAreMid(st, cut, es, AppendMany(st, es), marks, upTo, i - |AppendPoints(st, es)|);
    }
  }

  lemma DeleteKeysPointsAreMid(lib: Lib, cfg: Config, st: Store, cut: map<nat, nat>, op: Op, i: nat)
    requires Resumable(st, cut) && op.DeleteKeys? && i < |Points(lib, cfg, st, op)|
    ensures var p := Points(lib, cfg, st, op)[i];
      Mid(st, cut, Writes(lib, cfg, op), p.disk, p.written, p.indexed, p.marked)
  {
    hide Resumable, Shape, Mid, DeletePoints, CommitPoints, DeleteMany, Tombstones, Loop, AppendedRecords, MarkAll, Writes;
    var es, keys := Writes(lib, cfg, op), op.keys;
    WritesOne(lib, cfg, op);
    if i < |DeletePoints(st, keys)| {
      DeletePointsAreMid(st, cut, keys, i);
    } else {
      DeletesLoop(st, cut, keys);
      CommitPointsAreMid(st, cut, es, DeleteMany(st, keys), AppendedRecords(st, es), n => n, i - |DeletePoints(st, keys)|);
    }
  }

  /**
   * Every disk state of every write is covered: between any two appends, inside a roll-over, after the
   * metadata is saved, after the index transaction and between any two watermark updates.
   */
  lemma PointsAreMid(lib: Lib, cfg: Config, st: Store, cut: map<nat, nat>, op: Op, i: nat)
    requires Resumable(st, cut) && !op.Gc? && i < |Points(lib, cfg, st, op)|
    ensures var p := Points(lib, cfg, st, op)[i];
      Mid(st, cut, Writes(lib, cfg, op), p.disk, p.written, p.indexed, p.marked)
  {
    match op
    case Put(_) => hide *; PutPointsAreMid(lib, cfg, st, cut, op, i);
    case Delete(_) => hide *; DeletePointsOk(lib, cfg, st, cut, op, i);
    case PutBatch(_) => hide *; PutBatchPointsAreMid(lib, cfg, st, cut, op, i);
    case DeleteKeys(_) => hide *; DeleteKeysPointsAreMid(lib, cfg, st, cut, op, i);
    case Seal => hide Resumable, Shape, Mid; SealPointsAreMid(st, cut, Points(lib, cfg, st, op)[i].disk);
    case Flush => hide Resumable, Shape, Mid; SealPointsAreMid(st, cut, Points(lib, cfg, st, op)[i].disk);
  }

  // ------------------------------------------------------------------- what a reopen finds

  lemma MidInv(st: Store, cut: map<nat, nat>, view: View, es: seq<Entry>, c: Store, j: nat, q: nat, m: nat)
    requires Resumable(st, cut) && Inv(st, view) && (forall i :: 0 <= i < |es| ==> EntryOk(es[i]))
    requires Mid(st, cut, es, c, j, q, m)
    ensures Inv(c, ApplyAll(view, es[..q])) && q <= j <= |es|
    ensures AllPoint(c.logs, AppendedRecords(st, es[..j]), es[..j]) && Extends(st.logs, c.logs)
  {
    hide Shape, Flat, Extends, InsertAll, AppendMany, AppendedRecords, Covered, MidCut, LogsGrown, PointsAt, EntryOk, Means, ApplyAll;
    var a, recs := AppendMany(st, es[..j]), AppendedRecords(st, es[..j]);
    AppendManyFacts(st, es[..j]);
    AllPointExtends(a.logs, c.logs, recs, es[..j]);
    ExtendsTrans(st.logs, a.logs, c.logs);
    ExtendsMeans(st.logs, c.logs, st.index, view);
    assert es[..j][..q] == es[..q];
    InsertAllMeans(c.logs, st.index, view, recs[..q], es[..q]);
  }

  /** What was behind the watermarks before the write and still is. */
  ghost function StillBehind(st: Store, cut: map<nat, nat>, c: Store, m: nat): seq<Entry>
    requires Resumable(st, cut)
  {
    if st.meta.active in c.logs then Behind(st.logs, cut, Horizon(st, c.logs, m)) else []
  }

  lemma MidBehind(st: Store, cut: map<nat, nat>, view: View, es: seq<Entry>, c: Store, j: nat, q: nat, m: nat)
    requires Resumable(st, cut) && Inv(st, view) && (forall i :: 0 <= i < |es| ==> EntryOk(es[i]))
    requires Mid(st, cut, es, c, j, q, m)
    ensures m <= j && Fits(c.logs, MidCut(st, cut, c.logs, m))
    ensures Behind(c.logs, MidCut(st, cut, c.logs, m), c.meta.active + 1) == StillBehind(st, cut, c, m) + es[m..j]
  {
    hide Shape, Flat, Extends, InsertAll, AppendMany, AppendedRecords, MidCut, LogsGrown, PointsAt, EntryOk, Means, ApplyAll,
      Behind, Horizon, AllPoint;
    MidInv(st, cut, view, es, c, j, q, m);
    BehindMid(st, cut, c, AppendedRecords(st, es[..j]), es[..j], m);
    assert es[..j][m..] == es[m..j];
  }

  lemma MidFacts(st: Store, cut: map<nat, nat>, es: seq<Entry>, c: Store, j: nat, q: nat, m: nat)
    requires Resumable(st, cut) && Mid(st, cut, es, c, j, q, m)
    ensures m <= q <= j <= |es| && Shape(c) && SavedOlder(c) && Covered(c.logs, c.saved, MidCut(st, cut, c.logs, m))
  {
  }

  /**
   * The reopened store means the old contents with the indexed entries written, then what was behind the
   * watermarks before, then the entries that were appended and not marked.
   */
  lemma CrashMeans(crc: Crc, st: Store, cut: map<nat, nat>, view: View, es: seq<Entry>, c: Store, j: nat, q: nat, m: nat,
                   tail: Bytes)
    requires Resumable(st, cut) && Inv(st, view) && (forall i :: 0 <= i < |es| ==> EntryOk(es[i]))
    requires Mid(st, cut, es, c, j, q, m) && CutsOff(crc, c, tail)
    ensures m <= q <= j <= |es| && ReopensAs(crc, c, tail, Reopened(crc, c, tail))
    ensures Inv(Reopened(crc, c, tail), ApplyAll(ApplyAll(view, es[..q]), StillBehind(st, cut, c, m) + es[m..j]))
  {
    hide *;
    MidFacts(st, cut, es, c, j, q, m);
    MidInv(st, cut, view, es, c, j, q, m);
    MidBehind(st, cut, view, es, c, j, q, m);
    ReopenMeans(crc, c, ApplyAll(view, es[..q]), MidCut(st, cut, c.logs, m), tail);
  }

  // ------------------------------------------------------------------------- key by key

  lemma {:induction false} LastEntryConcat(a: seq<Entry>, b: seq<Entry>, k: Key)
    ensures LastEntry(a + b, k) == if LastEntry(b, k).Some? then LastEntry(b, k) else LastEntry(a, k)
  {
    if b == [] {
      assert a + b == a;
    } else {
      var n := |b| - 1;
      LastEntryConcat(a, b[..n], k);
      assert (a + b)[..|a| + n] == a + b[..n];
    }
  }

  lemma SplitSlice(es: seq<Entry>, a: nat, b: nat, c: nat)
    requires a <= b <= c <= |es|
    ensures es[a..c] == es[a..b] + es[b..c]
  {
  }

  lemma LastInOverlap(es: seq<Entry>, j: nat, q: nat, m: nat, k: Key)
    requires m <= q <= j <= |es|
    ensures LastEntry(es[..j], k) == if LastEntry(es[m..j], k).Some? then LastEntry(es[m..j], k) else LastEntry(es[..q], k)
  {
    hide LastEntry;
    SplitSlice(es, 0, m, j);
    SplitSlice(es, 0, m, q);
    SplitSlice(es, m, q, j);
    assert es[0..m] == es[..m] && es[0..j] == es[..j] && es[0..q] == es[..q];
    LastEntryConcat(es[..m], es[m..j], k);
    LastEntryConcat(es[..m], es[m..q], k);
    LastEntryConcat(es[m..q], es[q..j], k);
  }

  /** What `k` reads in a view of entries. */
  function ViewRead(lib: Lib, view: View, k: Key): GetResult {
    if k in view then Unpack(lib, view[k]) else Absent
  }

  lemma ApplyAllReads(lib: Lib, view: View, es: seq<Entry>, k: Key)
    ensures ViewRead(lib, ApplyAll(view, es), k) ==
      match LastEntry(es, k) case Some(e) => ReadEntry(lib, e) case None => ViewRead(lib, view, k)
  {
    hide ApplyAll, LastEntry, Unpack;
    ApplyAllAt(view, es, k);
  }

  /** What `k` reads when the first `j` entries of the write are written to the store. */
  ghost function PrefixRead(lib: Lib, st: Store, es: seq<Entry>, j: nat, k: Key): GetResult
    requires Shape(st) && j <= |es|
  {
    match LastEntry(es[..j], k) case Some(e) => ReadEntry(lib, e) case None => Get(lib, st, k)
  }

  lemma PrefixMeans(lib: Lib, st: Store, view: View, es: seq<Entry>, j: nat, k: Key)
    requires Inv(st, view) && j <= |es|
    ensures PrefixRead(lib, st, es, j, k) == ViewRead(lib, ApplyAll(view, es[..j]), k)
  {
    hide Shape, Means, ApplyAll, LastEntry, Get, Unpack, ReadEntry;
    ApplyAllReads(lib, view, es[..j], k);
    GetMeans(lib, st, view, k);
  }

  /** `k` reads as an entry that was behind the watermarks before the write, instead of as the write left it. */
  ghost predicate Overtaken(lib: Lib, st: Store, cut: map<nat, nat>, es: seq<Entry>, c: Store, j: nat, m: nat, k: Key)
    requires Resumable(st, cut) && m <= j <= |es|
  {
    var e := LastEntry(StillBehind(st, cut, c, m), k);
    LastEntry(es[m..j], k).None? && e.Some? && ReadEntry(lib, e.value) != PrefixRead(lib, st, es, j, k)
  }

  /** After the crash and the reopen every key reads as the appended prefix of the write left it, unless overtaken. */
  lemma CrashReadsKey(lib: Lib, st: Store, cut: map<nat, nat>, view: View, es: seq<Entry>, c: Store, j: nat, q: nat, m: nat,
                      tail: Bytes, k: Key)
    requires Resumable(st, cut) && Inv(st, view) && (forall i :: 0 <= i < |es| ==> EntryOk(es[i]))
    requires Mid(st, cut, es, c, j, q, m) && CutsOff(lib.crc, c, tail)
    ensures m <= j <= |es| && Shape(Reopened(lib.crc, c, tail))
    ensures Get(lib, Reopened(lib.crc, c, tail), k) ==
      (var e := LastEntry(StillBehind(st, cut, c, m), k);
       if LastEntry(es[m..j], k).None? && e.Some? then ReadEntry(lib, e.value) else PrefixRead(lib, st, es, j, k))
    ensures Get(lib, Reopened(lib.crc, c, tail), k) == PrefixRead(lib, st, es, j, k)
       <==> !Overtaken(lib, st, cut, es, c, j, m, k)
  {
    hide Shape, ApplyAll, EntryOk, Mid, StillBehind, CutsOff, Means, Resumable, Reopened, ReopensAs, LastEntry, Unpack, Get;
    CrashMeans(lib.crc, st, cut, view, es, c, j, q, m, tail);
    var before, again := ApplyAll(view, es[..q]), StillBehind(st, cut, c, m) + es[m..j];
    GetMeans(lib, Reopened(lib.crc, c, tail), ApplyAll(before, again), k);
    ApplyAllReads(lib, before, again, k);
    ApplyAllReads(lib, view, es[..q], k);
    PrefixMeans(lib, st, view, es, j, k);
    ApplyAllReads(lib, view, es[..j], k);
    LastEntryConcat(StillBehind(st, cut, c, m), es[m..j], k);
    LastInOverlap(es, j, q, m, k);
  }

  /**
   * A crash at any disk state of any write, started from any store with boundary watermarks, with any bytes
   * that recovery cuts off behind the log: every key reads as the appended prefix of the write left it if and
   * only if no entry behind the old watermarks overtakes a key. The open succeeds and a second one changes
   * nothing.
   */
  lemma CrashKeepsPrefix(lib: Lib, cfg: Config, st: Store, cut: map<nat, nat>, view: View, op: Op, i: nat, tail: Bytes)
    requires Resumable(st, cut) && Inv(st, view) && !op.Gc? && i < |Points(lib, cfg, st, op)|
    requires CutsOff(lib.crc, Points(lib, cfg, st, op)[i].disk, tail)
    ensures
      var p, es := Points(lib, cfg, st, op)[i], Writes(lib, cfg, op);
      && p.marked <= p.written <= |es| && ReopensAs(lib.crc, p.disk, tail, Reopened(lib.crc, p.disk, tail))
      && Shape(Reopened(lib.crc, p.disk, tail))
      && ((forall k :: Get(lib, Reopened(lib.crc, p.disk, tail), k) == PrefixRead(lib, st, es, p.written, k)) <==>
          (forall k :: !Overtaken(lib, st, cut, es, p.disk, p.written, p.marked, k)))
  {
    hide *;
    var p, es := Points(lib, cfg, st, op)[i], Writes(lib, cfg, op);
    WritesOk(lib, cfg, op);
    PointsAreMid(lib, cfg, st, cut, op, i);
    CrashMeans(lib.crc, st, cut, view, es, p.disk, p.written, p.indexed, p.marked, tail);
    CrashReadsKey(lib, st, cut, view, es, p.disk, p.written, p.indexed, p.marked, tail, seq(32, _ => 0));
    forall k: Key
      ensures Get(lib, Reopened(lib.crc, p.disk, tail), k) == PrefixRead(lib, st, es, p.written, k)
         <==> !Overtaken(lib, st, cut, es, p.disk, p.written, p.marked, k)
    {
      CrashReadsKey(lib, st, cut, view, es, p.disk, p.written, p.indexed, p.marked, tail, k);
    }
  }

  // ---------------------------------------------------------- nothing behind the watermarks

  lemma {:induction false} ReplayedPrefix(view: View, es: seq<Entry>, j: nat, q: nat, m: nat)
    requires m <= q <= j <= |es|
    ensures ApplyAll(ApplyAll(view, es[..q]), es[m..j]) == ApplyAll(view, es[..j])
  {
    hide *;
    var twice, once := ApplyAll(ApplyAll(view, es[..q]), es[m..j]), ApplyAll(view, es[..j]);
    forall k: Key
      ensures k in twice <==> k in once
      ensures k in twice ==> twice[k] == once[k]
    {
      ApplyAllAt(ApplyAll(view, es[..q]), es[m..j], k);
      ApplyAllAt(view, es[..q], k);
      ApplyAllAt(view, es[..j], k);
      LastInOverlap(es, j, q, m, k);
    }
  }

  lemma FullStillBehind(st: Store, c: Store, m: nat)
    requires Resumable(st, FullCut(st.logs))
    ensures StillBehind(st, FullCut(st.logs), c, m) == []
  {
    hide Behind, Resumable;
    if st.meta.active in c.logs {
      FullBehind(st.logs, Horizon(st, c.logs, m));
    }
  }

  /** From a store with every watermark at its end the appended prefix is always what is found. */
  lemma CrashAtRest(crc: Crc, lib: Lib, cfg: Config, st: Store, view: View, op: Op, i: nat, tail: Bytes)
    requires Resumable(st, FullCut(st.logs)) && Inv(st, view) && !op.Gc? && i < |Points(lib, cfg, st, op)|
    requires CutsOff(crc, Points(lib, cfg, st, op)[i].disk, tail)
    ensures
      var p, es := Points(lib, cfg, st, op)[i], Writes(lib, cfg, op);
      && p.written <= |es| && ReopensAs(crc, p.disk, tail, Reopened(crc, p.disk, tail))
      && Inv(Reopened(crc, p.disk, tail), ApplyAll(view, es[..p.written]))
  {
    hide *;
    var p, es := Points(lib, cfg, st, op)[i], Writes(lib, cfg, op);
    WritesOk(lib, cfg, op);
    PointsAreMid(lib, cfg, st, FullCut(st.logs), op, i);
    CrashMeans(crc, st, FullCut(st.logs), view, es, p.disk, p.written, p.indexed, p.marked, tail);
    FullStillBehind(st, p.disk, p.marked);
    assert [] + es[p.marked..p.written] == es[p.marked..p.written];
    ReplayedPrefix(view, es, p.written, p.indexed, p.marked);
  }
}
