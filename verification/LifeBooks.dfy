/** Live and deleted bytes in whole lives of a store, through crashes and restarts (engine.rs, recovery.rs). */
module LifeBooks {
  import opened Compression
  import opened Segment
  import opened Index
  import opened BlobStore
  import opened Gc
  import opened Runs
  import opened Accounting
  import opened GcProgress
  import opened Crash
  import opened Marks
  import opened Reopening
  import opened CrashPoints
  import opened CrashReads
  import opened Restarts
  import opened Lives
  import opened CrashCounts
  import opened CrashBooks
  import Books

  /** Live and deleted bytes are within the total of every segment. */
  ghost predicate Within(st: Store) {
    Covers(st.logs, st.index, st.meta)
  }

  // -------------------------------------------------------------- what stays saved for a crash

  /** Every operation saves what it counts, except a batch that is rejected. */
  lemma StepSaves(lib: Lib, cfg: Config, st: Store, op: Op)
    requires Shape(st)
    ensures var s := Step(lib, cfg, st, op);
      s.saved == s.meta || s == st || (op.PutBatch? && s == AppendMany(st, Writes(lib, cfg, op)))
  {
    hide Shape, Pack, WriteOne, CommitBatch, AppendMany, AppendedRecords, DeleteMany, Finish, Prepare, CountDeleted, Accepted;
    match op
    case Put(item) => if |item.value| <= MAX_VALUE_SIZE { WriteSaves(st, Pack(lib, cfg, item.key, item.value, item.codec)); }
    case Delete(k) => WriteSaves(CountDeleted(st, k), Tombstone(k));
    case PutBatch(items) =>
      var es := Writes(lib, cfg, op);
      if items != [] && Accepted(items) == |items| {
        CommitSaves(AppendMany(st, es), AppendedRecords(st, es));
      }
    case DeleteKeys(keys) => CommitSaves(DeleteMany(st, keys), AppendedRecords(st, Tombstones(keys)));
    case Seal => SealTotalsOnly(st);
    case Flush =>
    case Gc => if Prepare(cfg, st).Some? { FinishSaves(st, Prepare(cfg, st).value); }
  }

  lemma WriteSaves(st: Store, e: Entry)
    requires st.Ready()
    ensures WriteOne(st, e).saved == WriteOne(st, e).meta
  {
    hide AppendEntry;
  }

  lemma CommitSaves(s: Store, recs: seq<IndexRecord>)
    ensures CommitBatch(s, recs).saved == CommitBatch(s, recs).meta
  {
    hide InsertAll;
    MarkAllSaved(s.(index := InsertAll(s.index, recs), saved := s.meta), recs);
  }

  lemma FinishSaves(st: Store, p: Prep)
    ensures Finish(st, p).saved == Finish(st, p).meta
  {
    hide InsertAll, DataBytes;
  }

  /** A rejected batch leaves metadata on disk that still covers what lies before the watermarks. */
  lemma RejectedSaved(st: Store, cut: map<nat, nat>, view: View, es: seq<Entry>, now: map<nat, nat>)
    requires Resumable(st, cut) && Inv(st, view) && Within(st) && SavedCovers(st, cut)
    requires (forall i :: 0 <= i < |es| ==> EntryOk(es[i])) && Resumable(AppendMany(st, es), now)
    ensures SavedCovers(AppendMany(st, es), now)
  {
    hide Resumable, Shape, Means, Covers, LiveBytes, AppendMany, EntryOk, SavedAs, MidCut, LogsGrown, GrownFrom;
    var s := AppendMany(st, es);
    AppendManyFactsIndex(st, es);
    AppendedSaved(st, es);
    AppendManyGrown(st, es);
    AppendManyGrows(st, es);
    ResumableShape(st, cut);
    ResumableShape(s, now);
    GrownResumable(st, cut, s);
    CutUnique(s, now, MidCut(st, cut, s.logs, 0));
    forall id | id in s.logs
      ensures LiveBytes(s.index, id, s.logs[id][..now[id]]) + s.saved.StatsOf(id).deleted <= s.saved.StatsOf(id).total
    {
      Books.GrownFromMark(st, cut, s, id);
      if id in st.logs {
        GrownPrefix(st, s, id);
        assert s.logs[id][..cut[id]] == st.logs[id][..cut[id]];
        PrefixFits(st, cut, view, s.saved, [], 0, id);
        assert st.index - (set k | k in [][..0]) == st.index;
      } else {
        NewSegmentEmpty(st, view, s.saved, [], 0, id);
        LiveNone(s.index, id);
        assert s.logs[id][..0] == [];
      }
    }
  }

  lemma StepSaved(lib: Lib, cfg: Config, st: Store, cut: map<nat, nat>, view: View, op: Op, now: map<nat, nat>)
    requires Resumable(st, cut) && Inv(st, view) && Within(st) && SavedCovers(st, cut)
    requires Within(Step(lib, cfg, st, op)) && Resumable(Step(lib, cfg, st, op), now)
    ensures SavedCovers(Step(lib, cfg, st, op), now)
  {
    hide Resumable, Shape, Means, Covers, SavedCovers, Step, AppendMany, EntryOk, Writes;
    var s := Step(lib, cfg, st, op);
    StepSaves(lib, cfg, st, op);
    if s.saved == s.meta {
      CoversSaved(s, now);
    } else if s == st {
      CutUnique(st, cut, now);
    } else {
      WritesOk(lib, cfg, op);
      RejectedSaved(st, cut, view, Writes(lib, cfg, op), now);
    }
  }

  // ------------------------------------------------------------------------------ whole lives

  /** The crash counts a key as deleted that is still live, beyond what its segment can take. */
  ghost predicate Overcounted(st: Store, ev: Event) {
    ev.Crash? && Marked(st) && Overcounts(st, CutOf(st), ev.op, ev.point)
  }

  /** What an event keeps, and exactly when. */
  lemma EventCovers(lib: Lib, cfg: Config, st: Store, view: View, ev: Event)
    requires Marked(st) && Inv(st, view) && Within(st) && SavedCovers(st, CutOf(st))
    requires Possible(lib, cfg, st, ev) && DistinctDeletes(ev.op)
    ensures Within(After(lib, cfg, st, ev)) <==> !Overcounted(st, ev)
    ensures Within(After(lib, cfg, st, ev)) && Marked(After(lib, cfg, st, ev)) ==>
      SavedCovers(After(lib, cfg, st, ev), CutOf(After(lib, cfg, st, ev)))
  {
    hide Shape, Means, Resumable, Covers, SavedCovers, Step, Prepare, OnBoundary, Points, CutsOff, Reopened, Overcounts,
      DistinctDeletes, Marked;
    var s := After(lib, cfg, st, ev);
    match ev
    case Do(op) =>
      StepCovers(lib, cfg, st, view, op);
      if Marked(s) {
        StepSaved(lib, cfg, st, CutOf(st), view, op, CutOf(s));
      }
    case Crash(op, i, tail) =>
      CrashCovers(lib, cfg, st, CutOf(st), view, op, i, tail);
      PointLogs(lib, cfg, st, CutOf(st), op, i, tail);
      if Within(s) && Marked(s) {
        CoversSaved(s, CutOf(s));
      }
  }

  lemma {:induction false} LifeSaved(lib: Lib, cfg: Config, states: seq<Store>, evs: seq<Event>, n: nat)
    requires Life(lib, cfg, states, evs) && n < |states| && forall i :: 0 <= i < n ==> DistinctDeletes(evs[i].op)
    requires forall i :: 0 <= i <= n ==> Within(states[i])
    ensures Marked(states[n]) && SavedCovers(states[n], CutOf(states[n]))
  {
    hide Inv, Possible, After, Within, DistinctDeletes, Marked, SavedCovers;
    var w := LifeInv(lib, cfg, states, evs, n);
    if n == 0 {
      EmptySaved();
    } else {
      LifeSaved(lib, cfg, states, evs, n - 1);
      var v := LifeInv(lib, cfg, states, evs, n - 1);
      assert DistinctDeletes(evs[n - 1].op) && states[n] == After(lib, cfg, states[n - 1], evs[n - 1]);
      EventCovers(lib, cfg, states[n - 1], v, evs[n - 1]);
    }
  }

  lemma EmptySaved()
    requires Marked(EMPTY)
    ensures Within(EMPTY) && SavedCovers(EMPTY, CutOf(EMPTY))
  {
    hide Marked, Resumable;
    EmptyBalances();
    CoversSaved(EMPTY, CutOf(EMPTY));
  }

  /**
   * In every life with distinct deletes, however often and wherever it crashes: live and deleted bytes stay
   * within the total of every segment at every point if and only if no crash counts a live key as deleted
   * beyond what its segment can take.
   */
  lemma {:induction false} LifeCovers(lib: Lib, cfg: Config, states: seq<Store>, evs: seq<Event>, n: nat)
    requires Life(lib, cfg, states, evs) && n < |states| && forall i :: 0 <= i < n ==> DistinctDeletes(evs[i].op)
    ensures (forall i :: 0 <= i <= n ==> Within(states[i])) <==> (forall i :: 0 <= i < n ==> !Overcounted(states[i], evs[i]))
  {
    hide Inv, Possible, After, Within, DistinctDeletes, Marked, SavedCovers, Overcounted;
    if n == 0 {
      EmptyMarked();
      EmptySaved();
    } else {
      LifeCovers(lib, cfg, states, evs, n - 1);
      if forall i :: 0 <= i <= n - 1 ==> Within(states[i]) {
        LifeSaved(lib, cfg, states, evs, n - 1);
        var v := LifeInv(lib, cfg, states, evs, n - 1);
        assert DistinctDeletes(evs[n - 1].op) && states[n] == After(lib, cfg, states[n - 1], evs[n - 1]);
        EventCovers(lib, cfg, states[n - 1], v, evs[n - 1]);
      }
    }
  }
}
