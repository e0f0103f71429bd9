/**
 * A full segment of live values and a crash while one of them is deleted: an instance of the condition under
 * which live and deleted bytes exceed the total (engine.rs).
 */
module WitnessesOfCounts {
  import opened Words
  import opened Compression
  import opened Segment
  import opened SegmentLog
  import opened Index
  import opened BlobStore
  import opened Gc
  import opened Reads
  import opened Runs
  import opened Accounting
  import opened GcProgress
  import opened Crash
  import opened Reopening
  import opened CrashPoints
  import opened CrashReads
  import opened CrashCounts
  import opened CrashBooks
  import opened Witnesses

  const COUNT := 11
  const SIZE: nat := ENTRY_HEADER_SIZE + MAX_VALUE_SIZE

  function KeyAt(i: nat): Key
    requires i < COUNT
  {
    seq(32, _ => i as byte)
  }

  function Large(): (v: Bytes)
    ensures |v| == MAX_VALUE_SIZE
  {
    seq(MAX_VALUE_SIZE, _ => 0)
  }

  /** The first `n` of eleven values of the greatest size. */
  function Puts(n: nat): (ops: seq<Op>)
    requires n <= COUNT
    ensures |ops| == n && forall i :: 0 <= i < n ==> ops[i] == PutOf(KeyAt(i), Large())
  {
    seq(n, i requires 0 <= i < n => PutOf(KeyAt(i), Large()))
  }

  function LargeLog(n: nat): (log: Log)
    requires n <= COUNT
    ensures |log| == n && forall i :: 0 <= i < n ==> log[i] == Placed(i * SIZE, Plain(KeyAt(i), Large()))
  {
    seq(n, i requires 0 <= i < n => Placed(i * SIZE, Plain(KeyAt(i), Large())))
  }

  lemma LargeEnd(n: nat)
    requires n <= COUNT
    ensures End(LargeLog(n)) == n * SIZE
  {
    hide Large, Plain;
    if n > 0 {
      assert LargeLog(n)[n - 1] == Placed((n - 1) * SIZE, Plain(KeyAt(n - 1), Large()));
      PlainSize(KeyAt(n - 1), Large());
    }
  }

  lemma PlainSize(k: Key, v: Bytes)
    requires |v| <= MAX_VALUE_SIZE
    ensures Plain(k, v).Size() == ENTRY_HEADER_SIZE + |v| && Plain(k, v).key == k && |Plain(k, v).data| == |v|
    ensures !Plain(k, v).IsTombstone()
  {
  }

  lemma KeysDiffer(i: nat, j: nat)
    requires i < j < COUNT
    ensures KeyAt(i) != KeyAt(j)
  {
    assert KeyAt(i)[0] == i as byte && KeyAt(j)[0] == j as byte;
  }

  /** The store after `n` of the puts. */
  ghost predicate Filled(st: Store, n: nat)
    requires n <= COUNT
  {
    && Shape(st) && st.logs == map[1 := LargeLog(n)] && st.meta.active == 1 && st.saved == st.meta
    && st.meta.StatsOf(1) == Stats(n * MAX_VALUE_SIZE, 0, 0.0, false, n * SIZE)
    && forall i :: 0 <= i < n ==> Lookup(st.index, KeyAt(i)) == Some(RecordOf(1, LargeLog(n)[i]))
  }

  lemma EmptyFilled()
    ensures Filled(EMPTY, 0)
  {
    EmptyShape();
    assert LargeLog(0) == [];
    assert EMPTY.meta.StatsOf(1) == NEW_STATS;
  }

  lemma NextFilled(lib: Lib, cfg: Config, st: Store, n: nat)
    requires n < COUNT && Filled(st, n)
    ensures Filled(Step(lib, cfg, st, PutOf(KeyAt(n), Large())), n + 1)
  {
    hide Shape, Step, End, Plain, Large, Lookup, RecordOf;
    var log, s, e := LargeLog(n), st.meta.StatsOf(1), Plain(KeyAt(n), Large());
    LargeEnd(n);
    LargeEnd(n + 1);
    PlainSize(KeyAt(n), Large());
    PutIs(lib, cfg, st, log, s, KeyAt(n), Large());
    StepIsShape(lib, cfg, st, PutOf(KeyAt(n), Large()));
    assert LargeLog(n + 1) == log + [Placed(n * SIZE, e)];
    var t := Written(st, log, s, e);
    forall i | 0 <= i <= n ensures Lookup(t.index, KeyAt(i)) == Some(RecordOf(1, LargeLog(n + 1)[i])) {
      if i < n {
        KeysDiffer(i, n);
        LookupOther(st.index, e.key, RecordOf(1, Placed(n * SIZE, e)), KeyAt(i));
      } else {
        LookupNew(st.index, Placed(n * SIZE, e));
      }
    }
  }

  lemma LookupOther(index: IndexMap, k: Key, r: IndexRecord, d: Key)
    requires d != k
    ensures Lookup(index[k := r], d) == Lookup(index, d)
  {
  }

  lemma LookupNew(index: IndexMap, p: Placed)
    requires !p.e.IsTombstone()
    ensures Lookup(index[p.e.key := RecordOf(1, p)], p.e.key) == Some(RecordOf(1, p))
  {
  }

  lemma StepIsShape(lib: Lib, cfg: Config, st: Store, op: Op)
    requires Shape(st)
    ensures Shape(Step(lib, cfg, st, op))
  {
  }

  lemma {:induction false} RunFilled(lib: Lib, cfg: Config, n: nat)
    requires n <= COUNT && Shape(EMPTY)
    ensures Filled(Run(lib, cfg, EMPTY, Puts(n)), n)
  {
    hide Shape, Step, Filled, Large;
    if n == 0 {
      EmptyFilled();
      RunNone(lib, cfg);
      assert Puts(0) == [];
    } else {
      RunFilled(lib, cfg, n - 1);
      var st := Run(lib, cfg, EMPTY, Puts(n - 1));
      NextFilled(lib, cfg, st, n - 1);
      assert Puts(n)[..n - 1] == Puts(n - 1);
      assert Puts(n)[n - 1] == PutOf(KeyAt(n - 1), Large());
    }
  }

  lemma {:induction false} LargeData(n: nat)
    requires n <= COUNT
    ensures DataBytes(LargeLog(n)) == n * MAX_VALUE_SIZE
  {
    hide Large, Plain;
    if n > 0 {
      LargeData(n - 1);
      assert LargeLog(n)[..n - 1] == LargeLog(n - 1);
      PlainSize(KeyAt(n - 1), Large());
    }
  }

  lemma {:induction false} AllLive(index: IndexMap, id: nat, log: Log)
    requires forall p :: p in log ==> Live(index, id, p)
    ensures LiveBytes(index, id, log) == DataBytes(log)
  {
    hide LiveBytes, Live;
    if log == [] {
      LiveNone(index, id);
    } else {
      var n := |log| - 1;
      assert log == log[..n] + [log[n]];
      AllLive(index, id, log[..n]);
      LiveStep(index, id, log[..n], log[n]);
    }
  }

  /** Every byte of the segment is live, so no key can be counted as deleted. */
  lemma FilledOutgrows(st: Store)
    requires Filled(st, COUNT)
    ensures Outgrows(st, KeyAt(0), 1) && LiveBytes(st.index, 1, st.logs[1]) == st.meta.StatsOf(1).total
  {
    hide Shape, LiveBytes, DataBytes, Large, Plain;
    var log := LargeLog(COUNT);
    forall p | p in log ensures Live(st.index, 1, p) {
      var i :| 0 <= i < COUNT && log[i] == p;
      PlainSize(KeyAt(i), Large());
    }
    AllLive(st.index, 1, log);
    LargeData(COUNT);
    PlainSize(KeyAt(0), Large());
    assert log[0] == Placed(0, Plain(KeyAt(0), Large()));
  }

  lemma FilledAtRest(st: Store)
    requires Filled(st, COUNT)
    ensures Resumable(st, FullCut(st.logs)) && Covers(st.logs, st.index, st.meta)
  {
    hide LogOk, LiveBytes, Large, Plain, Lookup, RecordOf, End;
    FilledOutgrows(st);
    LargeEnd(COUNT);
    assert LargeLog(COUNT)[..COUNT] == LargeLog(COUNT);
  }

  lemma FilledRolls(st: Store)
    requires Filled(st, COUNT)
    ensures SavedRoll(st, Delete(KeyAt(0)), 2)
  {
    hide Shape, Large, Plain, Lookup, RecordOf, End;
    LargeEnd(COUNT);
    assert KeysOf(Delete(KeyAt(0)))[..0] == [];
  }

  /**
   * Eleven values of 100 MiB fill a segment; a crash while the first is deleted, after the roll-over saved its
   * count: the key still reads, and live and deleted bytes of the segment exceed its total.
   */
  lemma DeleteOvercounts(lib: Lib, cfg: Config)
    requires Lawful(lib)
    ensures Shape(EMPTY)
    ensures
      var st := Run(lib, cfg, EMPTY, Puts(COUNT));
      var points := Points(lib, cfg, st, Delete(KeyAt(0)));
      && |points| > 2 && Shape(points[2].disk)
      && var s := Reopened(lib.crc, points[2].disk, []);
         && Shape(s) && Get(lib, s, KeyAt(0)) == Get(lib, st, KeyAt(0))
         && !Covers(s.logs, s.index, s.meta)
  {
    hide Shape, Means, Run, Points, Filled, Reopened, Resumable, Covers, Get, Stands, Lawful, SavedRoll, Outgrows, CutsOff, Mid, Writes, Puts,
      Large, FullCut, DeleteMany, CountDeleted, SealActive, KeyAt, ApplyAll, GcSafe, Effects, DistinctDeletes, ReopensAs;
    EmptyShape();
    EmptyInv();
    EmptyStands(lib);
    RunFilled(lib, cfg, COUNT);
    var st, op := Run(lib, cfg, EMPTY, Puts(COUNT)), Delete(KeyAt(0));
    PutsNoGc(lib, cfg);
    var view := RunRefines(lib, cfg, EMPTY, map[], map[], Puts(COUNT));
    FilledAtRest(st);
    FilledOutgrows(st);
    FilledFacts(st);
    FilledRolls(st);
    RolledPoint(lib, cfg, st, op, 2);
    PointsAreMid(lib, cfg, st, FullCut(st.logs), op, 2);
    var c := Points(lib, cfg, st, op)[2].disk;
    NoTail(lib.crc, c);
    OneDelete(KeyAt(0));
    CrashCoversAtRest(lib, cfg, st, view, op, 2, []);
    CrashAtRest(lib.crc, lib, cfg, st, view, op, 2, []);
    NothingApplied(view, Writes(lib, cfg, op));
    GetMeans(lib, st, view, KeyAt(0));
    GetMeans(lib, Reopened(lib.crc, c, []), view, KeyAt(0));
  }

  lemma NothingApplied(view: View, es: seq<Entry>)
    ensures ApplyAll(view, es[..0]) == view
  {
    assert es[..0] == [];
  }

  lemma OneDelete(k: Key)
    ensures DistinctDeletes(Delete(k)) && KeysOf(Delete(k)) == [k]
  {
  }

  lemma FilledFacts(st: Store)
    requires Filled(st, COUNT)
    ensures 1 in st.logs && st.saved == st.meta
  {
  }

  lemma PutsNoGc(lib: Lib, cfg: Config)
    requires Shape(EMPTY)
    ensures GcSafe(lib, cfg, EMPTY, Puts(COUNT))
  {
    hide Shape, Run, Large;
  }
}
