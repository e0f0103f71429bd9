/** Exactly when a collection leaves every read as it was. */
module GcTransparency {
  import opened Compression
  import opened Segment
  import opened SegmentLog
  import opened Index
  import opened BlobStore
  import opened Gc
  import opened GcMeaning
  import opened Reads

  /** The facts about phase 1 that phase 2 relies on. */
  lemma Prepared(cfg: Config, st: Store, view: View)
    requires Inv(st, view) && Prepare(cfg, st).Some?
    ensures var p := Prepare(cfg, st).value;
            && p.seg in st.logs && p.log == Compact(st.index, p.seg, st.logs[p.seg]) && LogOk(p.log)
            && p.deletedKeys == [] && p.seg in st.meta.segments && p.seg != st.meta.active
            && Later(st, st, p.seg)
  {
    hide Candidate, Compact, DeletedKeys, LogOk;
    var p := Prepare(cfg, st).value;
    LaterSelf(cfg, st, view);
    DeletedKeysEmpty(st, view, p.seg, st.logs[p.seg]);
    CompactOk(st.index, p.seg, st.logs[p.seg]);
  }

  /** Phase 2 without a drop: a kept key reads as at phase 1 and every other key as before. */
  lemma KeptReads(lib: Lib, cfg: Config, s0: Store, v0: View, s1: Store, v1: View, k: Key)
    requires Inv(s0, v0) && Inv(s1, v1) && Prepare(cfg, s0).Some?
    requires Later(s0, s1, Prepare(cfg, s0).value.seg) && !DropsLive(Prepare(cfg, s0).value)
    ensures var p := Prepare(cfg, s0).value;
            && Shape(Finish(s1, p))
            && Get(lib, Finish(s1, p), k) == if Keeps(p, k) then Get(lib, s0, k) else Get(lib, s1, k)
  {
    hide Shape, Means, Prepare, Finish, Later, Compact, DropsLive, Unpack, Get, ApplyAll, LastEntry;
    var p := Prepare(cfg, s0).value;
    var es := Entries(p.log);
    var v2 := ApplyAll(v1, es);
    Prepared(cfg, s0, v0);
    LaterFacts(s0, s1, p.seg);
    FinishShape(s1, p);
    FinishMeans(s0, v0, s1, v1, p);
    GetMeans(lib, Finish(s1, p), v2, k);
    GetMeans(lib, s1, v1, k);
    GetMeans(lib, s0, v0, k);
    ApplyAllAt(v1, es, k);
    LastEntryMember(es, k);
    if LastEntry(es, k).Some? {
      KeptIsCurrent(s0, v0, p.seg, LastEntry(es, k).value);
      MeansLive(s0, v0, k);
    }
  }

  /** Phase 2 that drops the file of live values: a kept key has no file any more, every other key reads as before. */
  lemma DroppedReads(lib: Lib, cfg: Config, s0: Store, v0: View, s1: Store, v1: View, k: Key)
    requires Inv(s0, v0) && Inv(s1, v1) && Prepare(cfg, s0).Some?
    requires Later(s0, s1, Prepare(cfg, s0).value.seg) && DropsLive(Prepare(cfg, s0).value)
    ensures var p := Prepare(cfg, s0).value;
            && Shape(Finish(s1, p))
            && Get(lib, Finish(s1, p), k) == if Keeps(p, k) then SegmentNotFound else Get(lib, s1, k)
  {
    hide Shape, Prepare, Finish, Later, Compact, Unpack, InsertAll, LastFor, LogOk, EncodeLog, DecodeAt;
    var p := Prepare(cfg, s0).value;
    var recs := LogRecords(p.seg, p.log);
    Prepared(cfg, s0, v0);
    LaterFacts(s0, s1, p.seg);
    FinishShape(s1, p);
    FinishIs(s1, p);
    InsertAllAt(s1.index, recs, k);
    LastForMember(recs, k);
    if LastFor(recs, k).Some? {
      var i :| 0 <= i < |recs| && recs[i] == LastFor(recs, k).value;
      assert Entries(p.log)[i] == p.log[i].e;
      KeptIsCurrent(s0, v0, p.seg, p.log[i].e);
      MeansLive(s0, v0, k);
    } else {
      if Keeps(p, k) {
        var e :| e in Entries(p.log) && e.key == k;
        KeptRecord(p, e);
      }
      if Lookup(s1.index, k).Some? {
        OthersElsewhere(s0, v0, s1, p, k);
      }
    }
  }

  /**
   * After phase 2 a kept key reads as at phase 1, unless its file is dropped; every other key reads as just
   * before phase 2.
   */
  lemma FinishReads(lib: Lib, cfg: Config, s0: Store, v0: View, s1: Store, v1: View, k: Key)
    requires Inv(s0, v0) && Inv(s1, v1) && Prepare(cfg, s0).Some?
    requires Later(s0, s1, Prepare(cfg, s0).value.seg)
    ensures var p := Prepare(cfg, s0).value;
            && Shape(Finish(s1, p))
            && Get(lib, Finish(s1, p), k) ==
               if !Keeps(p, k) then Get(lib, s1, k) else if DropsLive(p) then SegmentNotFound else Get(lib, s0, k)
  {
    hide *;
    if DropsLive(Prepare(cfg, s0).value) {
      DroppedReads(lib, cfg, s0, v0, s1, v1, k);
    } else {
      KeptReads(lib, cfg, s0, v0, s1, v1, k);
    }
  }

  lemma LaterFacts(s0: Store, s1: Store, t: nat)
    requires Later(s0, s1, t)
    ensures t in s1.logs && t in s1.meta.segments && t != s1.meta.active
  {
  }

  lemma MeansLive(st: Store, view: View, k: Key)
    requires Inv(st, view) && k in view
    ensures !view[k].IsTombstone()
  {
  }

  /**
   * Two-phase GC with any writes between the phases leaves every read as those
   * writes made it if and only if it does not drop the file of live values and
   * each key that phase 1 kept still reads, when phase 2 starts, as it did at phase 1.
   */
  lemma TwoPhaseTransparent(lib: Lib, cfg: Config, s0: Store, v0: View, s1: Store, v1: View)
    requires Inv(s0, v0) && Inv(s1, v1) && Prepare(cfg, s0).Some?
    requires Later(s0, s1, Prepare(cfg, s0).value.seg)
    ensures var p := Prepare(cfg, s0).value;
            && Shape(Finish(s1, p))
            && ((forall k :: Get(lib, Finish(s1, p), k) == Get(lib, s1, k)) <==>
                !DropsLive(p) && (forall k :: Keeps(p, k) ==> Get(lib, s1, k) == Get(lib, s0, k)))
  {
    hide *;
    var p := Prepare(cfg, s0).value;
    FinishReads(lib, cfg, s0, v0, s1, v1, seq(32, _ => 0));
    forall k: Key
      ensures Get(lib, Finish(s1, p), k) ==
              if !Keeps(p, k) then Get(lib, s1, k) else if DropsLive(p) then SegmentNotFound else Get(lib, s0, k)
      ensures Get(lib, s1, k) != SegmentNotFound
    {
      FinishReads(lib, cfg, s0, v0, s1, v1, k);
      GetMeans(lib, s1, v1, k);
    }
    if DropsLive(p) {
      var k := SomeKept(p);
    }
  }

  lemma SomeKept(p: Prep) returns (k: Key)
    requires DropsLive(p)
    ensures Keeps(p, k)
  {
    k := p.log[0].e.key;
    assert Entries(p.log)[0] == p.log[0].e;
  }

  /** A collection that drops the file of live empty values makes those keys unreadable. */
  lemma DropLosesKey(lib: Lib, cfg: Config, st: Store, view: View) returns (k: Key)
    requires Inv(st, view) && Prepare(cfg, st).Some? && DropsLive(Prepare(cfg, st).value)
    ensures Shape(Collect(cfg, st))
    ensures k in view && Get(lib, Collect(cfg, st), k) == SegmentNotFound != Get(lib, st, k)
  {
    var p := Prepare(cfg, st).value;
    Prepared(cfg, st, view);
    FinishShape(st, p);
    var n := |p.log| - 1;
    var e := p.log[n].e;
    k := e.key;
    assert Entries(p.log)[n] == e;
    KeptIsCurrent(st, view, p.seg, e);
    assert LogRecords(p.seg, p.log)[n] == RecordOf(p.seg, p.log[n]);
    GetMeans(lib, st, view, k);
  }

  /**
   * An atomic collection leaves every read as it was if and only if it does not
   * drop the file of live values, that is, unless the chosen segment's live
   * values exist and are all empty.
   */
  lemma CollectTransparent(lib: Lib, cfg: Config, st: Store, view: View)
    requires Inv(st, view)
    ensures Shape(Collect(cfg, st))
    ensures (forall k :: Get(lib, Collect(cfg, st), k) == Get(lib, st, k)) <==>
            !(Prepare(cfg, st).Some? && DropsLive(Prepare(cfg, st).value))
  {
    hide Get, Prepare, Finish, DropsLive, Means, Shape, Keeps, Later;
    if Prepare(cfg, st).Some? {
      Prepared(cfg, st, view);
      if DropsLive(Prepare(cfg, st).value) {
        var k := DropLosesKey(lib, cfg, st, view);
      } else {
        TwoPhaseTransparent(lib, cfg, st, view, st, view);
      }
    }
  }

  /** A transparent collection also keeps the invariant, with the same meaning. */
  lemma CollectInv(cfg: Config, st: Store, view: View)
    requires Inv(st, view)
    requires Prepare(cfg, st).Some? ==> !DropsLive(Prepare(cfg, st).value)
    ensures Inv(Collect(cfg, st), view)
  {
    hide Prepare, Finish, DropsLive, Means, Shape, Later, Compact, ApplyAll, LastEntry;
    if Prepare(cfg, st).Some? {
      var p := Prepare(cfg, st).value;
      Prepared(cfg, st, view);
      FinishShape(st, p);
      FinishMeans(st, view, st, view, p);
      var es := Entries(p.log);
      var v := ApplyAll(view, es);
      forall k
        ensures k in v <==> k in view
        ensures k in v ==> v[k] == view[k]
      {
        ApplyAllAt(view, es, k);
        LastEntryMember(es, k);
        if LastEntry(es, k).Some? {
          KeptIsCurrent(st, view, p.seg, LastEntry(es, k).value);
          MeansLive(st, view, k);
        }
      }
      assert v == view;
    }
  }
}
