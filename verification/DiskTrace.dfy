/** The disk states of a write as sets, for comparison with those the engine passes through (engine.rs). */
module DiskTrace {
  import opened Compression
  import opened Segment
  import opened Index
  import opened BlobStore
  import opened StoreWrites
  import opened Runs
  import opened Gc
  import opened BatchMarks
  import opened CrashPoints
  import opened GcCrash

  /** What of a store is on disk: the metadata as saved. */
  function OnDisk(st: Store): Store {
    st.(meta := st.saved)
  }

  ghost function Disks(ps: seq<Point>): set<Store> {
    set p | p in ps :: OnDisk(p.disk)
  }

  ghost function PhaseDisks(st: Store, p: Prep): set<Store> {
    set c | c in PhasePoints(st, p) :: OnDisk(c)
  }

  /** A roll-over, if the active segment is full. */
  ghost function RollDisks(a: Store): set<Store>
    requires a.Ready()
  {
    {OnDisk(RollOver(a).(saved := a.saved)), OnDisk(RollOver(a))}
  }

  /** The watermarks, one by one. */
  ghost function MarkDisks(d: Store, ends: seq<SegmentEnd>): set<Store> {
    set i | 0 < i <= |ends| :: OnDisk(MarkAllTo(d, ends[..i]))
  }

  lemma DisksConcat(a: seq<Point>, b: seq<Point>)
    ensures Disks(a + b) == Disks(a) + Disks(b)
  {
    var all := a + b;
    assert forall p :: p in all <==> p in a || p in b;
    forall s | s in Disks(a) + Disks(b) ensures s in Disks(all) {
      var p :| (p in a || p in b) && OnDisk(p.disk) == s;
      assert p in all;
    }
  }

  lemma DisksOne(p: Point)
    ensures Disks([p]) == {OnDisk(p.disk)}
  {
    assert p in [p];
  }

  lemma DisksTwo(p: Point, q: Point)
    ensures Disks([p, q]) == {OnDisk(p.disk), OnDisk(q.disk)}
  {
    assert p in [p, q] && q in [p, q];
  }

  lemma RollIs(a: Store, n: nat)
    requires a.Ready()
    ensures Disks(RollPoints(a, n)) == RollDisks(a)
  {
    hide RollOver;
    DisksTwo(RollPoints(a, n)[0], RollPoints(a, n)[1]);
  }

  lemma AppendNone(st: Store)
    requires st.Ready()
    ensures Disks(AppendPoints(st, [])) == {OnDisk(st)} && Disks(DeletePoints(st, [])) == {OnDisk(st)}
  {
    DisksOne(Point(st, 0, 0, 0));
  }

  /** One more entry: a roll-over, if due, and the append. */
  lemma AppendStep(st: Store, es: seq<Entry>)
    requires st.Ready() && es != []
    ensures var a := AppendMany(st, es[..|es| - 1]);
      Disks(AppendPoints(st, es)) == Disks(AppendPoints(st, es[..|es| - 1])) + RollDisks(a) + {OnDisk(AppendEntry(a, es[|es| - 1]))}
  {
    hide Disks, RollDisks, RollPoints, AppendEntry;
    var n := |es| - 1;
    var a := AppendMany(st, es[..n]);
    var p := Point(AppendMany(st, es), n + 1, 0, 0);
    DisksConcat(AppendPoints(st, es[..n]), RollPoints(a, n));
    DisksConcat(AppendPoints(st, es[..n]) + RollPoints(a, n), [p]);
    RollIs(a, n);
    DisksOne(p);
  }

  lemma DeleteStep(st: Store, keys: seq<Key>)
    requires st.Ready() && keys != []
    ensures var a := CountDeleted(DeleteMany(st, keys[..|keys| - 1]), keys[|keys| - 1]);
      Disks(DeletePoints(st, keys)) ==
      Disks(DeletePoints(st, keys[..|keys| - 1])) + RollDisks(a) + {OnDisk(AppendEntry(a, Tombstone(keys[|keys| - 1])))}
  {
    hide Disks, RollDisks, RollPoints, AppendEntry, CountDeleted;
    var n := |keys| - 1;
    var a := CountDeleted(DeleteMany(st, keys[..n]), keys[n]);
    var p := Point(DeleteMany(st, keys), n + 1, 0, 0);
    DisksConcat(DeletePoints(st, keys[..n]), RollPoints(a, n));
    DisksConcat(DeletePoints(st, keys[..n]) + RollPoints(a, n), [p]);
    RollIs(a, n);
    DisksOne(p);
  }

  lemma PrefixEnds(recs: seq<IndexRecord>, i: nat)
    requires i <= |recs|
    ensures EndsOf(recs)[..i] == EndsOf(recs[..i])
  {
  }

  lemma CommitIs(a: Store, recs: seq<IndexRecord>, marks: seq<IndexRecord>, upTo: nat -> nat)
    ensures var d := Indexed(a.(saved := a.meta), recs);
      Disks(CommitPoints(a, recs, marks, upTo)) ==
      {OnDisk(a.(saved := a.meta)), OnDisk(d)} + MarkDisks(d, EndsOf(marks))
  {
    hide InsertAll, MarkAll, MarkAllTo, EndsOf;
    var n, d := |recs|, Indexed(a.(saved := a.meta), recs);
    var first := [Point(a.(saved := a.meta), n, 0, 0), Point(d, n, n, 0)];
    var rest := seq(|marks|, i requires 0 <= i < |marks| => Point(MarkAll(d, marks[..i + 1]), n, n, upTo(i + 1)));
    DisksConcat(first, rest);
    DisksTwo(first[0], first[1]);
    forall i | 0 <= i < |marks| ensures rest[i].disk == MarkAllTo(d, EndsOf(marks)[..i + 1]) {
      PrefixEnds(marks, i + 1);
      MarkAllIsTo(d, marks[..i + 1]);
    }
    MarksAre(d, EndsOf(marks), rest);
  }

  lemma MarksAre(d: Store, ends: seq<SegmentEnd>, rest: seq<Point>)
    requires |rest| == |ends| && forall i :: 0 <= i < |ends| ==> rest[i].disk == MarkAllTo(d, ends[..i + 1])
    ensures Disks(rest) == MarkDisks(d, ends)
  {
    hide MarkAllTo;
    forall s | s in Disks(rest) ensures s in MarkDisks(d, ends) {
      var p :| p in rest && OnDisk(p.disk) == s;
      var i :| 0 <= i < |rest| && rest[i] == p;
      assert s == OnDisk(MarkAllTo(d, ends[..i + 1]));
    }
    forall s | s in MarkDisks(d, ends) ensures s in Disks(rest) {
      var i :| 0 < i <= |ends| && OnDisk(MarkAllTo(d, ends[..i])) == s;
      assert rest[i - 1] in rest && rest[i - 1].disk == MarkAllTo(d, ends[..i - 1 + 1]);
    }
  }

  lemma MarkStep(d: Store, ends: seq<SegmentEnd>, i: nat)
    requires i < |ends|
    ensures MarkDisks(d, ends[..i + 1]) == MarkDisks(d, ends[..i]) + {OnDisk(MarkAllTo(d, ends[..i + 1]))}
  {
    hide MarkAllTo;
    var more, less := ends[..i + 1], ends[..i];
    forall j | 0 < j <= i ensures more[..j] == less[..j] {
    }
    assert more[..i + 1] == more;
    forall s | s in MarkDisks(d, less) ensures s in MarkDisks(d, more) {
      var j :| 0 < j <= |less| && OnDisk(MarkAllTo(d, less[..j])) == s;
      assert more[..j] == less[..j];
    }
  }

  // ---------------------------------------------------------------- the operations

  /** One entry: roll-over, append, index row, watermark. */
  ghost function WriteDisks(a: Store, e: Entry): set<Store>
    requires a.Ready()
  {
    var b := AppendEntry(a, e);
    var d := Indexed(b, [Appended(b)]);
    RollDisks(a) + {OnDisk(b), OnDisk(d), OnDisk(Mark(d, Appended(b)))}
  }

  lemma PutIs(lib: Lib, cfg: Config, st: Store, item: Item)
    requires st.Ready()
    ensures Disks(Points(lib, cfg, st, Put(item))) == {OnDisk(st)} +
      if |item.value| > MAX_VALUE_SIZE then {} else WriteDisks(st, Pack(lib, cfg, item.key, item.value, item.codec))
  {
    hide Disks, RollDisks, AppendEntry, Mark, Pack, OnDisk, InsertAll, Appended;
    AppendNone(st);
    if |item.value| > MAX_VALUE_SIZE {
      assert AppendPoints(st, []) + [] == AppendPoints(st, []);
    } else {
      var e := Pack(lib, cfg, item.key, item.value, item.codec);
      assert [e][..0] == [];
      AppendStep(st, [e]);
      var b := AppendMany(st, [e]);
      var one := OnePoints(b, Appended(b));
      DisksConcat(AppendPoints(st, [e]), one);
      DisksTwo(one[0], one[1]);
    }
  }

  lemma SameRecord(st: Store, keys: seq<Key>)
    requires Shape(st) && keys != []
    ensures Shape(DeleteMany(st, keys)) && Appended(DeleteMany(st, keys)) == Appended(AppendMany(st, Tombstones(keys)))
  {
    hide Shape, AppendMany, DeleteMany;
    DeleteManyFacts(st, keys);
  }

  lemma DeleteIs(lib: Lib, cfg: Config, st: Store, k: Key)
    requires Shape(st)
    ensures Disks(Points(lib, cfg, st, Delete(k))) == {OnDisk(st)} + WriteDisks(CountDeleted(st, k), Tombstone(k))
  {
    hide Disks, RollDisks, AppendEntry, Mark, OnDisk, InsertAll, Appended, CountDeleted, Shape;
    AppendNone(st);
    assert [k][..0] == [];
    DeleteStep(st, [k]);
    var b, r := DeleteMany(st, [k]), AppendedRecords(st, Tombstones([k]))[0];
    SameRecord(st, [k]);
    assert Tombstones([k])[..0] == [];
    assert r == Appended(AppendMany(st, Tombstones([k])));
    var one := OnePoints(b, r);
    DisksConcat(DeletePoints(st, [k]), one);
    DisksTwo(one[0], one[1]);
  }

  /** The end of a batch: metadata, index, watermarks. */
  ghost function CommitDisks(a: Store, recs: seq<IndexRecord>, ends: seq<SegmentEnd>): set<Store> {
    var d := Indexed(a.(saved := a.meta), recs);
    {OnDisk(a.(saved := a.meta)), OnDisk(d)} + MarkDisks(d, ends)
  }

  lemma PutBatchIs(lib: Lib, cfg: Config, st: Store, items: seq<Item>)
    requires st.Ready()
    ensures var es := PackAll(lib, cfg, items[..Accepted(items)]); var recs := AppendedRecords(st, es);
      Disks(Points(lib, cfg, st, PutBatch(items))) == Disks(AppendPoints(st, es)) +
      if Accepted(items) < |items| || items == [] then {}
      else CommitDisks(AppendMany(st, es), recs, EndsOf(HighestEnds(recs)))
  {
    hide Disks, AppendMany, AppendPoints, AppendedRecords, CommitPoints, MarkDisks, OnDisk, Indexed, HighestEnds, PackAll,
      Accepted, EndsOf;
    var es := PackAll(lib, cfg, items[..Accepted(items)]);
    var recs := AppendedRecords(st, es);
    if Accepted(items) < |items| || items == [] {
      assert AppendPoints(st, es) + [] == AppendPoints(st, es);
    } else {
      DisksConcat(AppendPoints(st, es), CommitPoints(AppendMany(st, es), recs, HighestEnds(recs), i => MarkedBy(recs, i)));
      CommitIs(AppendMany(st, es), recs, HighestEnds(recs), i => MarkedBy(recs, i));
    }
  }

  lemma DeleteBatchIs(lib: Lib, cfg: Config, st: Store, keys: seq<Key>)
    requires st.Ready()
    ensures var recs := AppendedRecords(st, Tombstones(keys));
      Disks(Points(lib, cfg, st, DeleteKeys(keys))) == Disks(DeletePoints(st, keys)) +
      if keys == [] then {} else CommitDisks(DeleteMany(st, keys), recs, EndsOf(recs))
  {
    hide Disks, DeleteMany, DeletePoints, AppendedRecords, CommitPoints, MarkDisks, OnDisk, Indexed, EndsOf, Tombstones;
    var recs := AppendedRecords(st, Tombstones(keys));
    if keys == [] {
      assert DeletePoints(st, keys) + [] == DeletePoints(st, keys);
    } else {
      DisksConcat(DeletePoints(st, keys), CommitPoints(DeleteMany(st, keys), recs, recs, i => i));
      CommitIs(DeleteMany(st, keys), recs, recs, i => i);
    }
  }

  lemma SealIs(lib: Lib, cfg: Config, st: Store)
    requires st.Ready()
    ensures Disks(Points(lib, cfg, st, Seal)) ==
      {OnDisk(st), OnDisk(SealActive(st).(saved := st.saved)), OnDisk(SealActive(st))}
  {
    hide SealActive, OnDisk;
    var ps := Points(lib, cfg, st, Seal);
    assert ps == [ps[0]] + [ps[1], ps[2]];
    DisksConcat([ps[0]], [ps[1], ps[2]]);
    DisksOne(ps[0]);
    DisksTwo(ps[1], ps[2]);
  }

  lemma PhaseIs(st: Store, p: Prep)
    ensures PhaseDisks(st, p) == {OnDisk(Renamed(st, p)), OnDisk(Redirected(st, p)), OnDisk(Purged(st, p))} +
      if DataBytes(p.log) == 0 then {OnDisk(Forgotten(st, p))} else {}
  {
    hide Renamed, Redirected, Purged, Forgotten, OnDisk, DataBytes;
    var ps := PhasePoints(st, p);
    assert forall c :: c in ps <==> c in ps[..3] || c in ps[3..];
    assert ps[0] in ps && ps[1] in ps && ps[2] in ps;
    if DataBytes(p.log) == 0 {
      assert ps[3] in ps;
    }
  }
}
