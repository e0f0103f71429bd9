/**
 * Where the memory database loses committed entries: snapshots that overlap, and a commit after a write was
 * cut short. Each loss is given with the exact condition under which it happens (db.rs, wal.rs).
 */
module MemDbLimits {
  import opened Lines
  import opened Words
  import opened Wal
  import opened MemDb
  import opened MemDbRuns

  /** Opening takes the entry into account: the snapshot counts it, or the log replays it. */
  ghost predicate Survives(c: Codec, disk: Disk, e: WalEntry) {
    || e.seqNo <= disk.snap.lastSeq
    || (var r := Read(c, disk.wal, disk.snap.lastSeq); r.Some? && e in r.value)
  }

  ghost predicate AllSurvive(c: Codec, disk: Disk, es: seq<WalEntry>) {
    forall i :: 0 <= i < |es| ==> Survives(c, disk, es[i])
  }

  lemma {:induction false} AfterMember(es: seq<WalEntry>, after: nat, e: WalEntry)
    ensures e in After(es, after) <==> e in es && e.seqNo > after
  {
    if es != [] {
      AfterMember(es[1..], after, e);
      assert es == [es[0]] + es[1..];
    }
  }

  lemma ReadLines(c: Codec, es: seq<WalEntry>, after: nat)
    requires Faithful(c)
    ensures Read(c, Text(c, es), after) == Some(After(es, after))
  {
    hide *;
    ReadText(c, es, [], after);
    ReadNothing(c, after);
    assert Text(c, es) + [] == Text(c, es);
    JoinEmpty(After(es, after));
  }

  lemma WindowSurvives(c: Codec, disk: Disk, stale: seq<WalEntry>, h: seq<WalEntry>, base: nat, b: nat)
    requires Faithful(c) && Numbered(h, 0) && Below(stale, base) && base <= b <= |h|
    requires disk.wal == Text(c, stale + h[base..b])
    ensures AllSurvive(c, disk, h[..b]) <==> base <= disk.snap.lastSeq
  {
    hide Faithful, Text, Read, After;
    var s, es := disk.snap.lastSeq, stale + h[base..b];
    ReadLines(c, es, s);
    if base <= s {
      forall i | 0 <= i < b ensures Survives(c, disk, h[..b][i]) {
        AfterMember(es, s, h[i]);
        if i >= s {
          assert h[i] == es[|stale| + i - base];
        }
      }
    } else {
      var e := h[..b][base - 1];
      AfterMember(es, s, e);
      assert e !in stale && e !in h[base..b];
    }
  }

  /**
   * Renaming a snapshot into place keeps every entry that was written to the log exactly when the snapshot
   * counts all entries that a truncation has cut from the log since it was taken.
   */
  lemma InstallKeepsLogged(c: Codec, dur: Durability, sys: Sys, y: History, i: nat)
    requires Faithful(c) && Inv(c, dur, sys, y) && Enabled(sys, Install(i))
    ensures AllSurvive(c, StepTo(c, dur, sys, Install(i)).db.disk, y.h[..Logged(sys.db, y)])
       <==> y.base <= sys.jobs[i].snap.lastSeq
  {
    hide Faithful, AllSurvive, Text, Replay;
    WindowSurvives(c, Installed(sys.db, sys.jobs[i].snap).disk, y.stale, y.h, y.base, Logged(sys.db, y));
  }

  /**
   * Truncating the log keeps every entry that was written to it exactly when the snapshot file, whichever
   * snapshot wrote it last, counts them all.
   */
  lemma TruncateKeepsLogged(c: Codec, dur: Durability, sys: Sys, y: History, i: nat)
    requires Faithful(c) && Inv(c, dur, sys, y) && Enabled(sys, Truncate(i))
    requires sys.db.lastSeq == sys.jobs[i].snap.lastSeq
    ensures AllSurvive(c, StepTo(c, dur, sys, Truncate(i)).db.disk, y.h[..Logged(sys.db, y)])
       <==> Logged(sys.db, y) <= sys.db.disk.snap.lastSeq
  {
    hide Faithful, AllSurvive, Text, Replay;
    var b := Logged(sys.db, y);
    var disk := Truncated(sys.db, sys.db.lastSeq).disk;
    assert [] + y.h[b..b] == [];
    TextNothing(c);
    WindowSurvives(c, disk, [], y.h, b, b);
  }

  lemma TextNothing(c: Codec)
    ensures Text(c, []) == []
  {
  }

  /** Two snapshots that overlap around a commit, the later one ending first. */
  function Overlap(op: Op): seq<Step> {
    [Capture, Commit([op]), Capture, Install(1), Truncate(1), Install(0)]
  }

  /** A committed entry is gone after the older of two overlapping snapshots is renamed last. */
  lemma OverlapLosesCommit(c: Codec, col: string, key: string, value: Json)
    ensures var db := Run(c, Full, Overlap(Insert(col, key, value))).db;
      && db.data == map[col := map[key := value]]
      && Recovered(c, db.disk) == Some(NO_SNAPSHOT)
  {
    hide Text, Run;
    var op := Insert(col, key, value);
    var steps := Overlap(op);
    var data: Data := map[col := map[key := value]];
    assert ApplyOps(map[], [op]) == ApplyOp(ApplyOps(map[], []), op) == data;
    var first, second := Job(NO_SNAPSHOT, false), Job(Snapshot(1, data), false);
    var wal := [] + Text(c, [WalEntry(1, [op])]);
    RunNothing(c);
    RunTo(c, steps, 0, START, Sys(EMPTY_DB, [first]));
    RunTo(c, steps, 1, Sys(EMPTY_DB, [first]), Sys(Db(1, data, [], Disk(wal, NO_SNAPSHOT)), [first]));
    RunTo(c, steps, 2, Sys(Db(1, data, [], Disk(wal, NO_SNAPSHOT)), [first]),
          Sys(Db(1, data, [], Disk(wal, NO_SNAPSHOT)), [first, second]));
    RunTo(c, steps, 3, Sys(Db(1, data, [], Disk(wal, NO_SNAPSHOT)), [first, second]),
          Sys(Db(1, data, [], Disk(wal, second.snap)), [first, second.(renamed := true)]));
    RunTo(c, steps, 4, Sys(Db(1, data, [], Disk(wal, second.snap)), [first, second.(renamed := true)]),
          Sys(Db(1, data, [], Disk([], second.snap)), [first]));
    RunTo(c, steps, 5, Sys(Db(1, data, [], Disk([], second.snap)), [first]),
          Sys(Db(1, data, [], Disk([], NO_SNAPSHOT)), [first.(renamed := true)]));
    assert steps[..6] == steps;
    ReadNothing(c, 0);
  }

  lemma RunNothing(c: Codec)
    ensures Run(c, Full, []) == START
  {
  }

  lemma RunTo(c: Codec, steps: seq<Step>, n: nat, from: Sys, to: Sys)
    requires n < |steps| && Run(c, Full, steps[..n]) == from && StepTo(c, Full, from, steps[n]) == to
    ensures Run(c, Full, steps[..n + 1]) == to
  {
    assert steps[..n + 1][..n] == steps[..n];
  }

  lemma {:induction false} BelowMax(s: nat, es: seq<WalEntry>, e: WalEntry)
    requires e in es
    ensures e.seqNo <= MaxSeq(s, es)
  {
    var n := |es| - 1;
    if e != es[n] {
      assert es == es[..n] + [es[n]];
      BelowMax(s, es[..n], e);
    }
  }

  lemma {:induction false} MaxAtLeast(s: nat, es: seq<WalEntry>)
    ensures s <= MaxSeq(s, es)
  {
    if es != [] {
      MaxAtLeast(s, es[..|es| - 1]);
    }
  }

  // ------------------------------------------------------- commits after an interrupted write

  /** Commits one after another. */
  function CommitAll(c: Codec, dur: Durability, db: Db, commits: seq<seq<Op>>): Db {
    if commits == [] then db
    else Committed(c, dur, CommitAll(c, dur, db, commits[..|commits| - 1]), commits[|commits| - 1])
  }

  /** The entries that these commits make. */
  function NewEntries(db: Db, commits: seq<seq<Op>>): (es: seq<WalEntry>)
    ensures |es| == |commits| && forall i :: 0 <= i < |es| ==> es[i] == WalEntry(db.lastSeq + i + 1, commits[i])
  {
    seq(|commits|, i requires 0 <= i < |commits| => WalEntry(db.lastSeq + i + 1, commits[i]))
  }

  /** What is on disk and what is queued together are the entries in order. */
  lemma CommitWrites(c: Codec, dur: Durability, db: Db, ops: seq<Op>)
    requires ops != [] && (db.pending == [] || dur.Batch?)
    ensures var after := Committed(c, dur, db, ops);
      && after.disk.wal + Text(c, after.pending) == db.disk.wal + Text(c, db.pending) + Text(c, [NextEntry(db, ops)])
      && after.disk.snap == db.disk.snap && after.lastSeq == db.lastSeq + 1
      && (after.pending == [] || dur.Batch?)
  {
    hide Text, ApplyOps;
    var e := NextEntry(db, ops);
    TextConcat(c, db.pending, [e]);
    TextNothing(c);
    assert db.disk.wal + (Text(c, db.pending) + Text(c, [e])) == db.disk.wal + Text(c, db.pending) + Text(c, [e]);
  }

  lemma {:induction false} CommitAllWrites(c: Codec, dur: Durability, db: Db, commits: seq<seq<Op>>)
    requires db.pending == [] && forall i :: 0 <= i < |commits| ==> commits[i] != []
    ensures var after := CommitAll(c, dur, db, commits);
      && after.disk.wal + Text(c, after.pending) == db.disk.wal + Text(c, NewEntries(db, commits))
      && after.disk.snap == db.disk.snap && after.lastSeq == db.lastSeq + |commits|
      && (after.pending == [] || dur.Batch?)
  {
    hide Text, Committed;
    if commits == [] {
      assert NewEntries(db, commits) == [];
    } else {
      var n := |commits| - 1;
      CommitAllWrites(c, dur, db, commits[..n]);
      var before := CommitAll(c, dur, db, commits[..n]);
      CommitWrites(c, dur, before, commits[n]);
      var es, e := NewEntries(db, commits[..n]), NextEntry(before, commits[n]);
      assert NewEntries(db, commits) == es + [e];
      TextConcat(c, es, [e]);
      assert db.disk.wal + Text(c, es) + Text(c, [e]) == db.disk.wal + (Text(c, es) + Text(c, [e]));
    }
  }

  /** The disk after the commits have been flushed; nothing is queued unless commits are batched. */
  lemma FlushedDisk(c: Codec, dur: Durability, db: Db, commits: seq<seq<Op>>)
    requires db.pending == [] && forall i :: 0 <= i < |commits| ==> commits[i] != []
    ensures Flushed(c, CommitAll(c, dur, db, commits)).disk == Append(c, db.disk, NewEntries(db, commits))
    ensures !dur.Batch? ==> Flushed(c, CommitAll(c, dur, db, commits)) == CommitAll(c, dur, db, commits)
  {
    hide Text, CommitAll, NewEntries;
    CommitAllWrites(c, dur, db, commits);
    TextNothing(c);
  }

  /**
   * The log ends in the first `m` bytes of an entry whose writing was cut short, the database has been opened
   * again on it, and commits are made and flushed: the first of them survives exactly when there are no such
   * bytes, all others survive, and the interrupted entry is not read either, although opening may have shown it.
   */
  lemma CommitAfterInterruption(c: Codec, dur: Durability, disk: Disk, es: seq<WalEntry>, e: WalEntry, m: nat,
                                commits: seq<seq<Op>>)
    requires Faithful(c) && m <= |c.show(e)| && commits != [] && forall i :: 0 <= i < |commits| ==> commits[i] != []
    requires disk.wal == Text(c, es) + c.show(e)[..m]
    requires Recovered(c, disk).Some? && ValidUtf8(c.show(e)[..m])
    ensures
      var db := Opened(disk, Recovered(c, disk).value);
      var after, made := Flushed(c, CommitAll(c, dur, db, commits)), NewEntries(db, commits);
      && (forall i :: 0 <= i < |made| ==> (Survives(c, after.disk, made[i]) <==> m == 0 || i > 0))
      && Read(c, after.disk.wal, disk.snap.lastSeq)
         == Some(After(es + (if m == 0 then made else made[1..]), disk.snap.lastSeq))
  {
    hide Faithful, Text, Read, After, ValidUtf8, Replay, Committed, Survives, Recovered;
    var s, db := disk.snap.lastSeq, Opened(disk, Recovered(c, disk).value);
    var made := NewEntries(db, commits);
    FlushedDisk(c, dur, db, commits);
    WriteAfterInterruption(c, es, e, m, made[0], made[1..], s);
    assert [made[0]] + made[1..] == made;
    var kept := if m == 0 then made else made[1..];
    assert es + (if m == 0 then [made[0]] else []) + made[1..] == es + kept;
    OpenedAbove(c, disk, es, c.show(e)[..m]);
    forall i | 0 <= i < |made|
      ensures Survives(c, Append(c, disk, made), made[i]) <==> m == 0 || i > 0
    {
      MadeSurvives(c, Append(c, disk, made), es, made, i, m);
    }
  }

  lemma MadeSurvives(c: Codec, disk: Disk, es: seq<WalEntry>, made: seq<WalEntry>, i: nat, m: nat)
    requires i < |made| && forall k :: 0 <= k < |made| ==> made[k].seqNo == made[0].seqNo + k
    requires disk.snap.lastSeq < made[0].seqNo && forall d :: d in es ==> d.seqNo < made[0].seqNo
    requires Read(c, disk.wal, disk.snap.lastSeq)
          == Some(After(es + (if m == 0 then made else made[1..]), disk.snap.lastSeq))
    ensures Survives(c, disk, made[i]) <==> m == 0 || i > 0
  {
    hide Read, After;
    var kept := if m == 0 then made else made[1..];
    AfterMember(es + kept, disk.snap.lastSeq, made[i]);
    if m == 0 {
      assert made[i] == kept[i];
    } else if i > 0 {
      assert made[i] == kept[i - 1];
    } else {
      assert forall k :: 0 <= k < |kept| ==> kept[k] == made[k + 1];
    }
  }

  /** Opening takes a number at least as high as the snapshot's and every entry read. */
  lemma OpenedAbove(c: Codec, disk: Disk, es: seq<WalEntry>, rest: Bytes)
    requires Faithful(c) && disk.wal == Text(c, es) + rest && Recovered(c, disk).Some?
    ensures disk.snap.lastSeq <= Recovered(c, disk).value.lastSeq
    ensures forall e :: e in es ==> e.seqNo <= Recovered(c, disk).value.lastSeq
  {
    hide Faithful, Text, Read, After, Replay, MaxSeq;
    var s := disk.snap.lastSeq;
    ReadText(c, es, rest, s);
    var all := Read(c, disk.wal, s).value;
    MaxAtLeast(s, all);
    forall e | e in es ensures e.seqNo <= MaxSeq(s, all) {
      AfterMember(es, s, e);
      if e.seqNo > s {
        assert e in all;
        BelowMax(s, all, e);
      }
    }
  }

  /**
   * A first commit that is cut before a continuation byte of its text: the database cannot be opened, although
   * nothing else was ever written.
   */
  lemma SplitCharacterFailsOpen(c: Codec, dur: Durability, op: Op, n: nat)
    requires Faithful(c)
    requires n < |c.show(WalEntry(1, [op]))| && Continuation(c.show(WalEntry(1, [op]))[n])
    ensures n > 0 && n <= |Text(c, Todo(EMPTY_DB, [op]))|
    ensures Run(c, dur, []).db == EMPTY_DB && Recovered(c, DiskAt(c, EMPTY_DB, [op], n)) == None
  {
    hide Read, Faithful, Decoder;
    var e := WalEntry(1, [op]);
    var text := c.show(e);
    assert Todo(EMPTY_DB, [op]) == [e];
    TextOne(c, e);
    FirstByte(c, e);
    assert Text(c, [e])[..n] == text[..n] && [] + text[..n] == text[..n];
    ReadStub(c, e, n, 0);
  }

  lemma FirstByte(c: Codec, e: WalEntry)
    requires Faithful(c) && |c.show(e)| > 0
    ensures !Continuation(c.show(e)[0])
  {
    CutUtf8(c.show(e), 0);
  }
}
