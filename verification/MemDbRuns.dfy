/**
 * Whole runs of the memory database: commits, flushes, the unlocked steps of snapshots and crashes, in any
 * order. Every crash keeps exactly a beginning of the committed entries (db.rs).
 */
module MemDbRuns {
  import opened Words
  import opened Wal
  import opened MemDb

  /** A snapshot under way: taken from memory, and then renamed over the snapshot file. */
  datatype Job = Job(snap: Snapshot, renamed: bool)
  datatype Sys = Sys(db: Db, jobs: seq<Job>)

  datatype Step =
    | Commit(ops: seq<Op>)
    | Flush
    | Capture
    | Install(job: nat)
    | Truncate(job: nat)
    // The process dies while `ops` is being committed, with that many more lines on disk, and is restarted.
    | Crash(ops: seq<Op>, lines: nat)

  const START := Sys(EMPTY_DB, [])

  function Fresh(db: Db, ops: seq<Op>): seq<WalEntry> {
    if ops == [] then [] else [NextEntry(db, ops)]
  }

  /** The entries that a flush, or a commit of `ops`, may be writing to the log. */
  function Todo(db: Db, ops: seq<Op>): seq<WalEntry> {
    db.pending + Fresh(db, ops)
  }

  predicate Enabled(sys: Sys, step: Step) {
    match step
    case Install(i) => i < |sys.jobs| && !sys.jobs[i].renamed
    case Truncate(i) => i < |sys.jobs| && sys.jobs[i].renamed
    case Crash(ops, lines) => lines <= |Todo(sys.db, ops)|
    case _ => true
  }

  function StepTo(c: Codec, dur: Durability, sys: Sys, step: Step): Sys {
    if !Enabled(sys, step) then sys else
      match step
      case Commit(ops) => sys.(db := Committed(c, dur, sys.db, ops))
      case Flush => sys.(db := Flushed(c, sys.db))
      case Capture => sys.(jobs := sys.jobs + [Job(Captured(sys.db), false)])
      case Install(i) =>
        Sys(Installed(sys.db, sys.jobs[i].snap), sys.jobs[i := sys.jobs[i].(renamed := true)])
      case Truncate(i) =>
        Sys(Truncated(sys.db, sys.jobs[i].snap.lastSeq), sys.jobs[..i] + sys.jobs[i + 1..])
      case Crash(ops, lines) =>
        var disk := Append(c, sys.db.disk, Todo(sys.db, ops)[..lines]);
        match Recovered(c, disk)
        case Some(s) => Sys(Opened(disk, s), [])
        case None => sys
  }

  function Run(c: Codec, dur: Durability, steps: seq<Step>): Sys {
    if steps == [] then START else StepTo(c, dur, Run(c, dur, steps[..|steps| - 1]), steps[|steps| - 1])
  }

  // ---------------------------------------------------------------- the history behind a state

  /**
   * The committed entries `h`, and which of them the log file holds: those from `base` up to the pending
   * ones, after some `stale` entries that a snapshot has covered.
   */
  datatype History = History(h: seq<WalEntry>, stale: seq<WalEntry>, base: nat)

  function Logged(db: Db, y: History): int {
    |y.h| - |db.pending|
  }

  /** How the history grows: a commit adds an entry, a crash keeps what the disk holds. */
  function HistoryTo(sys: Sys, y: History, step: Step): History
    requires 0 <= y.base <= Logged(sys.db, y)
    requires sys.db.disk.snap.lastSeq <= |y.h|
  {
    if !Enabled(sys, step) then y else
      match step
      case Commit(ops) => y.(h := y.h + Fresh(sys.db, ops))
      case Flush => y
      case Capture => y
      case Install(i) => y
      case Truncate(i) =>
        if sys.db.lastSeq == sys.jobs[i].snap.lastSeq then y.(stale := [], base := Logged(sys.db, y)) else y
      case Crash(ops, lines) =>
        var all, s, w := y.h + Fresh(sys.db, ops), sys.db.disk.snap.lastSeq, Logged(sys.db, y) + lines;
        if s <= w then y.(h := all[..w]) else History(all[..s], y.stale + all[y.base..w], s)
  }

  ghost predicate Numbered(es: seq<WalEntry>, first: nat) {
    forall i :: 0 <= i < |es| ==> es[i].seqNo == first + i + 1
  }

  ghost predicate Below(es: seq<WalEntry>, n: nat) {
    forall i :: 0 <= i < |es| ==> es[i].seqNo < n
  }

  /** The snapshot is the state after the entries it counts. */
  ghost predicate Covers(s: Snapshot, h: seq<WalEntry>) {
    s.lastSeq <= |h| && s.data == Replay(map[], h[..s.lastSeq])
  }

  ghost predicate MemoryOk(db: Db, h: seq<WalEntry>) {
    Numbered(h, 0) && db.lastSeq == |h| && db.data == Replay(map[], h)
  }

  ghost predicate LogOk(c: Codec, db: Db, y: History) {
    && y.base <= Logged(db, y)
    && db.pending == y.h[Logged(db, y)..]
    && Below(y.stale, y.base)
    && db.disk.wal == Text(c, y.stale + y.h[y.base..Logged(db, y)])
  }

  predicate Bounded(dur: Durability, pending: seq<WalEntry>) {
    pending == [] || (dur.Batch? && |pending| < dur.maxOps)
  }

  ghost predicate Inv(c: Codec, dur: Durability, sys: Sys, y: History)
    ensures Inv(c, dur, sys, y) ==> 0 <= y.base <= Logged(sys.db, y) && sys.db.disk.snap.lastSeq <= |y.h|
  {
    && MemoryOk(sys.db, y.h)
    && LogOk(c, sys.db, y)
    && Bounded(dur, sys.db.pending)
    && Covers(sys.db.disk.snap, y.h)
    && y.base <= sys.db.disk.snap.lastSeq
    && (forall i :: 0 <= i < |sys.jobs| ==> Covers(sys.jobs[i].snap, y.h))
  }

  // ---------------------------------------------------------------- recovery from a log window

  lemma {:induction false} AfterBelow(es: seq<WalEntry>, after: nat)
    requires Below(es, after + 1)
    ensures After(es, after) == []
  {
    if es != [] {
      AfterBelow(es[1..], after);
    }
  }

  lemma {:induction false} AfterNumbered(es: seq<WalEntry>, first: nat, after: nat)
    requires Numbered(es, first) && first <= after
    ensures After(es, after) == if after - first < |es| then es[after - first..] else []
  {
    if es == [] {
    } else if after == first {
      AfterAll(es, after);
      assert es[0..] == es;
    } else {
      AfterNumbered(es[1..], first + 1, after);
      assert after - first < |es| ==> es[1..][after - first - 1..] == es[after - first..];
    }
  }

  lemma {:induction false} AfterAll(es: seq<WalEntry>, after: nat)
    requires forall i :: 0 <= i < |es| ==> es[i].seqNo > after
    ensures After(es, after) == es
  {
    if es != [] {
      AfterAll(es[1..], after);
      assert es == [es[0]] + es[1..];
    }
  }

  /** Of a log window, exactly the entries after the snapshot are replayed. */
  lemma AfterWindow(stale: seq<WalEntry>, h: seq<WalEntry>, base: nat, w: nat, s: nat)
    requires Numbered(h, 0) && Below(stale, base) && base <= w <= |h| && base <= s
    ensures After(stale + h[base..w], s) == if s < w then h[s..w] else []
  {
    hide After;
    AfterConcat(stale, h[base..w], s);
    AfterBelow(stale, s);
    AfterNumbered(h[base..w], base, s);
    assert s < w ==> h[base..w][s - base..] == h[s..w];
    assert [] + After(h[base..w], s) == After(h[base..w], s);
  }

  lemma {:induction false} MaxSeqNumbered(es: seq<WalEntry>, s: nat)
    requires Numbered(es, s)
    ensures MaxSeq(s, es) == s + |es|
  {
    if es != [] {
      MaxSeqNumbered(es[..|es| - 1], s);
    }
  }

  /** Opening restores the state after the first entries of the history, as many as the disk holds. */
  ghost predicate Restores(c: Codec, disk: Disk, h: seq<WalEntry>, d: nat) {
    d <= |h| && Recovered(c, disk) == Some(Snapshot(d, Replay(map[], h[..d])))
  }

  lemma RestoresWindow(c: Codec, disk: Disk, stale: seq<WalEntry>, h: seq<WalEntry>, base: nat, w: nat)
    requires Numbered(h, 0) && Below(stale, base) && base <= w <= |h|
    requires Covers(disk.snap, h) && base <= disk.snap.lastSeq
    requires Read(c, disk.wal, disk.snap.lastSeq) == Some(After(stale + h[base..w], disk.snap.lastSeq))
    ensures Restores(c, disk, h, Max(disk.snap.lastSeq, w))
  {
    hide Read, After, Replay, MaxSeq;
    var s := disk.snap.lastSeq;
    AfterWindow(stale, h, base, w, s);
    var es := if s < w then h[s..w] else [];
    MaxSeqNumbered(es, s);
    ReplayConcat(map[], h[..s], es);
    assert h[..s] + es == h[..Max(s, w)];
  }

  lemma RestoresLines(c: Codec, disk: Disk, stale: seq<WalEntry>, h: seq<WalEntry>, base: nat, w: nat)
    requires Faithful(c)
    requires Numbered(h, 0) && Below(stale, base) && base <= w <= |h|
    requires Covers(disk.snap, h) && base <= disk.snap.lastSeq
    requires disk.wal == Text(c, stale + h[base..w])
    ensures Restores(c, disk, h, Max(disk.snap.lastSeq, w))
  {
    hide *;
    var s := disk.snap.lastSeq;
    var es := stale + h[base..w];
    ReadText(c, es, [], s);
    ReadNothing(c, s);
    assert disk.wal + [] == disk.wal;
    JoinEmpty(After(es, s));
    RestoresWindow(c, disk, stale, h, base, w);
  }

  lemma JoinEmpty(es: seq<WalEntry>)
    ensures Join(es, Some([])) == Some(es)
  {
    assert es + [] == es;
  }

  // ---------------------------------------------------------------- every step keeps the invariant

  lemma CoversMore(s: Snapshot, h: seq<WalEntry>, more: seq<WalEntry>)
    requires Covers(s, h)
    ensures Covers(s, h + more)
  {
    assert (h + more)[..s.lastSeq] == h[..s.lastSeq];
  }

  lemma CoversLess(s: Snapshot, h: seq<WalEntry>, d: nat)
    requires Covers(s, h) && s.lastSeq <= d <= |h|
    ensures Covers(s, h[..d])
  {
    assert h[..d][..s.lastSeq] == h[..s.lastSeq];
  }

  lemma FlushLog(c: Codec, db: Db, y: History)
    requires LogOk(c, db, y)
    ensures LogOk(c, Flushed(c, db), y)
  {
    hide Text, Below;
    var b := Logged(db, y);
    TextConcat(c, y.stale + y.h[y.base..b], y.h[b..]);
    assert y.stale + y.h[y.base..b] + y.h[b..] == y.stale + y.h[y.base..|y.h|];
  }

  lemma QueueLog(c: Codec, db: Db, y: History, e: WalEntry)
    requires LogOk(c, db, y)
    ensures LogOk(c, db.(pending := db.pending + [e]), y.(h := y.h + [e]))
  {
    hide Text, Below;
    var b := Logged(db, y);
    assert (y.h + [e])[b..] == y.h[b..] + [e];
    assert (y.h + [e])[y.base..b] == y.h[y.base..b];
  }

  lemma WriteLog(c: Codec, db: Db, y: History, e: WalEntry)
    requires LogOk(c, db, y) && db.pending == []
    ensures LogOk(c, db.(disk := Append(c, db.disk, [e])), y.(h := y.h + [e]))
  {
    hide Text, Below;
    var n := |y.h|;
    TextConcat(c, y.stale + y.h[y.base..n], [e]);
    assert y.stale + y.h[y.base..n] + [e] == y.stale + (y.h + [e])[y.base..n + 1];
    assert (y.h + [e])[n + 1..] == [];
  }

  lemma LogIgnores(c: Codec, db: Db, y: History, lastSeq: nat, data: Data, snap: Snapshot)
    requires LogOk(c, db, y)
    ensures LogOk(c, db.(lastSeq := lastSeq, data := data, disk := db.disk.(snap := snap)), y)
  {
  }

  lemma CommitLog(c: Codec, dur: Durability, db: Db, y: History, ops: seq<Op>)
    requires LogOk(c, db, y) && Bounded(dur, db.pending) && ops != []
    ensures LogOk(c, Committed(c, dur, db, ops), y.(h := y.h + [NextEntry(db, ops)]))
    ensures Bounded(dur, Committed(c, dur, db, ops).pending)
  {
    hide LogOk, ApplyOps, Text;
    var e := NextEntry(db, ops);
    var applied := db.(lastSeq := e.seqNo, data := ApplyOps(db.data, ops));
    LogIgnores(c, db, y, e.seqNo, applied.data, db.disk.snap);
    assert db.(lastSeq := e.seqNo, data := applied.data, disk := db.disk.(snap := db.disk.snap)) == applied;
    if dur.Batch? {
      QueueLog(c, applied, y, e);
      FlushLog(c, applied.(pending := db.pending + [e]), y.(h := y.h + [e]));
    } else {
      WriteLog(c, applied, y, e);
    }
  }

  lemma CommitInv(c: Codec, dur: Durability, sys: Sys, y: History, ops: seq<Op>)
    requires Inv(c, dur, sys, y)
    ensures Inv(c, dur, StepTo(c, dur, sys, Commit(ops)), HistoryTo(sys, y, Commit(ops)))
  {
    hide LogOk, Covers, ApplyOps, Text, Flushed, Bounded;
    if ops == [] {
      assert y.h + [] == y.h;
    } else {
      var e := NextEntry(sys.db, ops);
      CommitLog(c, dur, sys.db, y, ops);
      assert (y.h + [e])[..|y.h|] == y.h;
      CommittedShape(c, dur, sys.db, ops);
      CoversMore(sys.db.disk.snap, y.h, [e]);
      forall i | 0 <= i < |sys.jobs| ensures Covers(sys.jobs[i].snap, y.h + [e]) {
        CoversMore(sys.jobs[i].snap, y.h, [e]);
      }
    }
  }

  lemma CommittedShape(c: Codec, dur: Durability, db: Db, ops: seq<Op>)
    requires ops != []
    ensures var after := Committed(c, dur, db, ops);
      && after.lastSeq == db.lastSeq + 1
      && after.data == ApplyOps(db.data, ops)
      && after.disk.snap == db.disk.snap
  {
  }

  lemma FlushInv(c: Codec, dur: Durability, sys: Sys, y: History)
    requires Inv(c, dur, sys, y)
    ensures Inv(c, dur, StepTo(c, dur, sys, Flush), y)
  {
    hide LogOk, Covers, Text, Replay, Numbered;
    FlushLog(c, sys.db, y);
  }

  /** Taking a snapshot file into use is safe when it still counts every entry cut from the log. */
  predicate Safe(sys: Sys, y: History, step: Step) {
    Enabled(sys, step) ==>
      match step
      case Install(i) => y.base <= sys.jobs[i].snap.lastSeq
      case Truncate(i) =>
        sys.db.lastSeq == sys.jobs[i].snap.lastSeq ==> Logged(sys.db, y) <= sys.db.disk.snap.lastSeq
      case _ => true
  }

  lemma CaptureInv(c: Codec, dur: Durability, sys: Sys, y: History)
    requires Inv(c, dur, sys, y)
    ensures Inv(c, dur, StepTo(c, dur, sys, Capture), y)
  {
    hide Replay, Numbered, LogOk, Bounded;
    assert y.h[..|y.h|] == y.h;
  }

  lemma InstallInv(c: Codec, dur: Durability, sys: Sys, y: History, i: nat)
    requires Inv(c, dur, sys, y) && Safe(sys, y, Install(i))
    ensures Inv(c, dur, StepTo(c, dur, sys, Install(i)), y)
  {
    hide Replay, MemoryOk, LogOk, Bounded, Covers;
    if Enabled(sys, Install(i)) {
      assert LogOk(c, Installed(sys.db, sys.jobs[i].snap), y) by {
        LogIgnores(c, sys.db, y, sys.db.lastSeq, sys.db.data, sys.jobs[i].snap);
      }
      assert MemoryOk(Installed(sys.db, sys.jobs[i].snap), y.h) by {
        MemoryIgnores(sys.db, sys.db.disk.(snap := sys.jobs[i].snap), y.h);
      }
    }
  }

  lemma MemoryIgnores(db: Db, disk: Disk, h: seq<WalEntry>)
    requires MemoryOk(db, h)
    ensures MemoryOk(db.(disk := disk), h)
  {
  }

  lemma TruncateLog(c: Codec, db: Db, y: History)
    requires LogOk(c, db, y)
    ensures LogOk(c, db.(disk := db.disk.(wal := [])), y.(stale := [], base := Logged(db, y)))
  {
    var b := Logged(db, y);
    assert [] + y.h[b..b] == [];
  }

  lemma TruncateInv(c: Codec, dur: Durability, sys: Sys, y: History, i: nat)
    requires Inv(c, dur, sys, y) && Safe(sys, y, Truncate(i))
    ensures Inv(c, dur, StepTo(c, dur, sys, Truncate(i)), HistoryTo(sys, y, Truncate(i)))
  {
    hide Replay, MemoryOk, LogOk, Bounded, Covers;
    if Enabled(sys, Truncate(i)) {
      TruncateLog(c, sys.db, y);
      MemoryIgnores(sys.db, sys.db.disk.(wal := []), y.h);
    }
  }

  /** The log file after `lines` more lines, as a window on the history with them. */
  lemma CrashWindow(c: Codec, db: Db, y: History, ops: seq<Op>, lines: nat)
    requires LogOk(c, db, y) && lines <= |Todo(db, ops)|
    ensures var all := y.h + Fresh(db, ops);
      && Todo(db, ops) == all[Logged(db, y)..]
      && Logged(db, y) + lines <= |all|
      && Append(c, db.disk, Todo(db, ops)[..lines]).wal == Text(c, y.stale + all[y.base..Logged(db, y) + lines])
  {
    hide Text, Below;
    var all, b := y.h + Fresh(db, ops), Logged(db, y);
    assert Todo(db, ops) == all[b..];
    TextConcat(c, y.stale + y.h[y.base..b], Todo(db, ops)[..lines]);
    assert y.stale + y.h[y.base..b] + Todo(db, ops)[..lines] == y.stale + all[y.base..b + lines];
  }

  lemma NumberedFresh(db: Db, h: seq<WalEntry>, ops: seq<Op>)
    requires Numbered(h, 0) && db.lastSeq == |h|
    ensures Numbered(h + Fresh(db, ops), 0)
  {
  }

  lemma CrashLog(c: Codec, disk: Disk, y: History, all: seq<WalEntry>, w: nat, data: Data)
    requires Numbered(all, 0) && Below(y.stale, y.base) && y.base <= w <= |all|
    requires y.base <= disk.snap.lastSeq <= |all|
    requires disk.wal == Text(c, y.stale + all[y.base..w])
    ensures var s := disk.snap.lastSeq;
      LogOk(c, Db(Max(s, w), data, [], disk),
            if s <= w then y.(h := all[..w]) else History(all[..s], y.stale + all[y.base..w], s))
  {
    hide Text;
    var s := disk.snap.lastSeq;
    if s <= w {
      assert all[..w][y.base..w] == all[y.base..w];
    } else {
      assert y.stale + all[y.base..w] + all[..s][s..s] == y.stale + all[y.base..w];
    }
  }

  lemma CrashInv(c: Codec, dur: Durability, sys: Sys, y: History, ops: seq<Op>, lines: nat)
    requires Faithful(c) && Inv(c, dur, sys, y) && lines <= |Todo(sys.db, ops)|
    ensures Recovered(c, Append(c, sys.db.disk, Todo(sys.db, ops)[..lines])).Some?
    ensures Inv(c, dur, StepTo(c, dur, sys, Crash(ops, lines)), HistoryTo(sys, y, Crash(ops, lines)))
  {
    hide Text, Faithful, Replay, Recovered, Numbered, Below;
    var all, s, w := y.h + Fresh(sys.db, ops), sys.db.disk.snap.lastSeq, Logged(sys.db, y) + lines;
    var disk := Append(c, sys.db.disk, Todo(sys.db, ops)[..lines]);
    CrashWindow(c, sys.db, y, ops, lines);
    NumberedFresh(sys.db, y.h, ops);
    CoversMore(sys.db.disk.snap, y.h, Fresh(sys.db, ops));
    RestoresLines(c, disk, y.stale, all, y.base, w);
    CrashLog(c, disk, y, all, w, Replay(map[], all[..Max(s, w)]));
    CoversLess(disk.snap, all, Max(s, w));
    NumberedPrefix(all, Max(s, w));
  }

  lemma NumberedPrefix(h: seq<WalEntry>, n: nat)
    requires Numbered(h, 0) && n <= |h|
    ensures Numbered(h[..n], 0)
  {
  }

  /** Every safe step keeps memory, log and snapshot in agreement with the history. */
  lemma StepInv(c: Codec, dur: Durability, sys: Sys, y: History, step: Step)
    requires Faithful(c) && Inv(c, dur, sys, y) && Safe(sys, y, step)
    ensures Inv(c, dur, StepTo(c, dur, sys, step), HistoryTo(sys, y, step))
  {
    hide Inv, Faithful;
    match step {
      case Commit(ops) => CommitInv(c, dur, sys, y, ops);
      case Flush => FlushInv(c, dur, sys, y);
      case Capture => CaptureInv(c, dur, sys, y);
      case Install(i) => InstallInv(c, dur, sys, y, i);
      case Truncate(i) => TruncateInv(c, dur, sys, y, i);
      case Crash(ops, lines) =>
        if Enabled(sys, step) {
          CrashInv(c, dur, sys, y, ops, lines);
        }
    }
  }

  // ---------------------------------------------------------------- one snapshot at a time

  /** No snapshot is started while another is under way. */
  predicate OneAtATime(c: Codec, dur: Durability, steps: seq<Step>) {
    steps != [] ==>
      && OneAtATime(c, dur, steps[..|steps| - 1])
      && (steps[|steps| - 1].Capture? ==> Run(c, dur, steps[..|steps| - 1]).jobs == [])
  }

  predicate Lone(sys: Sys, y: History) {
    && |sys.jobs| <= 1
    && (|sys.jobs| == 1 ==>
          if sys.jobs[0].renamed then sys.db.disk.snap == sys.jobs[0].snap
          else y.base <= sys.jobs[0].snap.lastSeq)
  }

  lemma LoneStep(c: Codec, dur: Durability, sys: Sys, y: History, step: Step)
    requires Faithful(c) && Inv(c, dur, sys, y) && Lone(sys, y) && (step.Capture? ==> sys.jobs == [])
    ensures Safe(sys, y, step)
    ensures Lone(StepTo(c, dur, sys, step), HistoryTo(sys, y, step))
  {
    hide Replay, Text, Recovered, ApplyOps, Numbered, Below, Covers, Faithful;
    if step.Crash? && Enabled(sys, step) {
      CrashInv(c, dur, sys, y, step.ops, step.lines);
    } else if step.Commit? && step.ops != [] {
      CommittedShape(c, dur, sys.db, step.ops);
    }
  }

  ghost function RunHistory(c: Codec, dur: Durability, steps: seq<Step>): (y: History)
    requires Faithful(c) && OneAtATime(c, dur, steps)
    ensures Inv(c, dur, Run(c, dur, steps), y) && Lone(Run(c, dur, steps), y)
  {
    if steps == [] then
      StartInv(c, dur);
      History([], [], 0)
    else
      var sys, y := Run(c, dur, steps[..|steps| - 1]), RunHistory(c, dur, steps[..|steps| - 1]);
      LoneStep(c, dur, sys, y, steps[|steps| - 1]);
      StepInv(c, dur, sys, y, steps[|steps| - 1]);
      HistoryTo(sys, y, steps[|steps| - 1])
  }

  lemma StartInv(c: Codec, dur: Durability)
    ensures Inv(c, dur, START, History([], [], 0))
  {
    assert Text(c, []) == [];
  }

  /** How many committed entries a crash keeps, with `cut` bytes of the entries in hand written. */
  function Survivors(c: Codec, db: Db, y: History, ops: seq<Op>, cut: nat): nat
    requires cut <= |Text(c, Todo(db, ops))| && |db.pending| <= |y.h|
  {
    Max(db.disk.snap.lastSeq, Logged(db, y) + Landed(c, Todo(db, ops), cut))
  }

  function DiskAt(c: Codec, db: Db, ops: seq<Op>, cut: nat): Disk
    requires cut <= |Text(c, Todo(db, ops))|
  {
    db.disk.(wal := db.disk.wal + Text(c, Todo(db, ops))[..cut])
  }

  /** The lines on disk after a crash that splits no character. */
  lemma CrashReads(c: Codec, db: Db, y: History, ops: seq<Op>, cut: nat)
    requires Faithful(c) && LogOk(c, db, y) && cut <= |Text(c, Todo(db, ops))|
    ensures
      var w, s := Logged(db, y) + Landed(c, Todo(db, ops), cut), db.disk.snap.lastSeq;
      var all := y.h + Fresh(db, ops);
      && y.base <= w <= |all|
      && Read(c, DiskAt(c, db, ops, cut).wal, s) ==
         if SplitsCharacter(c, Todo(db, ops), cut) then None else Some(After(y.stale + all[y.base..w], s))
  {
    hide Faithful, Read, SplitsCharacter, Landed, Text, Below, After;
    var todo, all, b := Todo(db, ops), y.h + Fresh(db, ops), Logged(db, y);
    var n := Landed(c, todo, cut);
    ReadInterrupted(c, y.stale + y.h[y.base..b], todo, cut, db.disk.snap.lastSeq);
    CrashWindow(c, db, y, ops, n);
    WindowGrows(y, all, b, todo, n);
  }

  lemma WindowGrows(y: History, all: seq<WalEntry>, b: nat, todo: seq<WalEntry>, n: nat)
    requires y.h <= all && y.base <= b <= |y.h| && todo == all[b..] && n <= |todo|
    ensures y.stale + y.h[y.base..b] + todo[..n] == y.stale + all[y.base..b + n]
  {
    assert all[y.base..b + n] == y.h[y.base..b] + todo[..n];
  }

  lemma CrashAnywhere(c: Codec, dur: Durability, sys: Sys, y: History, ops: seq<Op>, cut: nat)
    requires Faithful(c) && Inv(c, dur, sys, y) && cut <= |Text(c, Todo(sys.db, ops))|
    ensures
      if SplitsCharacter(c, Todo(sys.db, ops), cut) then Recovered(c, DiskAt(c, sys.db, ops, cut)) == None
      else Restores(c, DiskAt(c, sys.db, ops, cut), y.h + Fresh(sys.db, ops), Survivors(c, sys.db, y, ops, cut))
  {
    hide Faithful, Read, SplitsCharacter, Landed, Text, Replay, Numbered, After, Restores;
    var todo, all, b := Todo(sys.db, ops), y.h + Fresh(sys.db, ops), Logged(sys.db, y);
    var n, disk := Landed(c, todo, cut), DiskAt(c, sys.db, ops, cut);
    CrashReads(c, sys.db, y, ops, cut);
    if !SplitsCharacter(c, todo, cut) {
      NumberedFresh(sys.db, y.h, ops);
      CoversMore(disk.snap, y.h, Fresh(sys.db, ops));
      RestoresWindow(c, disk, y.stale, all, y.base, b + n);
    }
  }

  lemma InvFacts(c: Codec, dur: Durability, sys: Sys, y: History)
    requires Inv(c, dur, sys, y)
    ensures sys.db.data == Replay(map[], y.h) && |sys.db.pending| <= |y.h| && Bounded(dur, sys.db.pending)
  {
  }

  /** Every record of what was recovered holds what the last operation of these entries on it put there. */
  ghost predicate Holds(s: Option<Snapshot>, es: seq<WalEntry>) {
    s.Some? && forall col, key :: At(s.value.data, col, key) == Held(AllOps(es), col, key)
  }

  lemma RestoredHolds(c: Codec, disk: Disk, h: seq<WalEntry>, d: nat)
    ensures Restores(c, disk, h, d) ==> d <= |h| && Holds(Recovered(c, disk), h[..d])
  {
    hide Recovered, Replay, Held, AllOps;
    if Restores(c, disk, h, d) {
      forall col, key ensures At(Replay(map[], h[..d]), col, key) == Held(AllOps(h[..d]), col, key) {
        ReplayAt(h[..d], col, key);
      }
    }
  }

  /**
   * A crash at any point of any run, even inside a commit or flush with any number of bytes written: opening
   * fails exactly when the bytes end inside a character; otherwise it restores the state after a beginning
   * of the committed entries, which holds all that were not pending and the pending ones already written. Every
   * record then holds what the last of their operations on it put there.
   */
  lemma CrashKeepsBeginning(c: Codec, dur: Durability, steps: seq<Step>, ops: seq<Op>, cut: nat)
    requires Faithful(c) && OneAtATime(c, dur, steps)
    requires cut <= |Text(c, Todo(Run(c, dur, steps).db, ops))|
    ensures Run(c, dur, steps).db.data == Replay(map[], RunHistory(c, dur, steps).h)
    ensures |Run(c, dur, steps).db.pending| <= |RunHistory(c, dur, steps).h|
    ensures
      var db, y := Run(c, dur, steps).db, RunHistory(c, dur, steps);
      if SplitsCharacter(c, Todo(db, ops), cut) then Recovered(c, DiskAt(c, db, ops, cut)) == None
      else Restores(c, DiskAt(c, db, ops, cut), y.h + Fresh(db, ops), Survivors(c, db, y, ops, cut))
    ensures
      var db, y := Run(c, dur, steps).db, RunHistory(c, dur, steps);
      !SplitsCharacter(c, Todo(db, ops), cut) ==>
        Holds(Recovered(c, DiskAt(c, db, ops, cut)), (y.h + Fresh(db, ops))[..Survivors(c, db, y, ops, cut)])
    ensures
      var db, y := Run(c, dur, steps).db, RunHistory(c, dur, steps);
      var lost := |y.h| - Survivors(c, db, y, ops, cut);
      match dur
      case Full => lost <= 0
      case Off => lost <= 0
      case Batch(max) => lost <= 0 || lost < max
  {
    hide *;
    var sys, y := Run(c, dur, steps), RunHistory(c, dur, steps);
    CrashAnywhere(c, dur, sys, y, ops, cut);
    InvFacts(c, dur, sys, y);
    RestoredHolds(c, DiskAt(c, sys.db, ops, cut), y.h + Fresh(sys.db, ops), Survivors(c, sys.db, y, ops, cut));
    LossBound(c, dur, sys.db, y, ops, cut);
  }

  lemma LossBound(c: Codec, dur: Durability, db: Db, y: History, ops: seq<Op>, cut: nat)
    requires cut <= |Text(c, Todo(db, ops))| && |db.pending| <= |y.h| && Bounded(dur, db.pending)
    ensures |y.h| - Survivors(c, db, y, ops, cut) <= |db.pending|
    ensures |db.pending| == 0 || (dur.Batch? && |db.pending| < dur.maxOps)
  {
    hide Landed, Text;
  }

  /** The operations handed to commit, in order; an empty commit leaves no trace. */
  function CommittedOps(steps: seq<Step>): seq<seq<Op>> {
    if steps == [] then [] else
      var last := steps[|steps| - 1];
      CommittedOps(steps[..|steps| - 1]) + (if last.Commit? && last.ops != [] then [last.ops] else [])
  }

  function OpsOf(h: seq<WalEntry>): seq<seq<Op>> {
    seq(|h|, i requires 0 <= i < |h| => h[i].ops)
  }

  lemma {:induction false} HistoryOps(c: Codec, dur: Durability, steps: seq<Step>)
    requires Faithful(c) && OneAtATime(c, dur, steps) && forall i :: 0 <= i < |steps| ==> !steps[i].Crash?
    ensures OpsOf(RunHistory(c, dur, steps).h) == CommittedOps(steps)
  {
    hide Faithful, Inv, Run;
    if steps != [] {
      var n := |steps| - 1;
      HistoryOps(c, dur, steps[..n]);
      var sys, y := Run(c, dur, steps[..n]), RunHistory(c, dur, steps[..n]);
      HistoryStep(sys, y, steps[n]);
    }
  }

  /** The operations of all commits, in order. */
  function Flat(commits: seq<seq<Op>>): seq<Op> {
    if commits == [] then [] else Flat(commits[..|commits| - 1]) + commits[|commits| - 1]
  }

  lemma {:induction false} FlatOps(h: seq<WalEntry>)
    ensures AllOps(h) == Flat(OpsOf(h))
  {
    if h != [] {
      FlatOps(h[..|h| - 1]);
      assert OpsOf(h)[..|h| - 1] == OpsOf(h[..|h| - 1]);
    }
  }

  /** Until a crash, the history is everything committed, and memory holds the last operation on every record. */
  lemma HistoryIsCommits(c: Codec, dur: Durability, steps: seq<Step>)
    requires Faithful(c) && OneAtATime(c, dur, steps) && forall i :: 0 <= i < |steps| ==> !steps[i].Crash?
    ensures OpsOf(RunHistory(c, dur, steps).h) == CommittedOps(steps)
    ensures forall col, key :: At(Run(c, dur, steps).db.data, col, key) == Held(Flat(CommittedOps(steps)), col, key)
  {
    hide *;
    HistoryOps(c, dur, steps);
    var sys, y := Run(c, dur, steps), RunHistory(c, dur, steps);
    InvFacts(c, dur, sys, y);
    FlatOps(y.h);
    forall col, key ensures At(sys.db.data, col, key) == Held(Flat(CommittedOps(steps)), col, key) {
      ReplayAt(y.h, col, key);
    }
  }

  lemma HistoryStep(sys: Sys, y: History, step: Step)
    requires y.base <= Logged(sys.db, y) && sys.db.disk.snap.lastSeq <= |y.h| && !step.Crash?
    ensures OpsOf(HistoryTo(sys, y, step).h)
         == OpsOf(y.h) + (if step.Commit? && step.ops != [] then [step.ops] else [])
  {
    if step.Commit? {
      var more := Fresh(sys.db, step.ops);
      assert OpsOf(y.h + more) == OpsOf(y.h) + OpsOf(more);
    } else {
      assert OpsOf(y.h) + [] == OpsOf(y.h);
    }
  }
}
