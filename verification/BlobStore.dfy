/**
 * The blob store as a value: segment logs, index, segment statistics in memory
 * and as last saved, and the writes on it (engine.rs, meta.rs).
 */
module BlobStore {
  import opened Words
  import opened Compression
  import opened Segment
  import opened SegmentLog
  import opened Index

  datatype Config = Config(threshold: nat, level: int, gcRatio: real) {
    predicate Valid() {
      0.0 < gcRatio < 1.0 && level >= 0
    }
  }

  datatype Stats = Stats(total: nat, deleted: nat, ratio: real, isSealed: bool, indexed: nat)

  const NEW_STATS := Stats(0, 0, 0.0, false, 0)

  function Recompute(s: Stats): Stats {
    s.(ratio := if s.total > 0 then s.deleted as real / s.total as real else 0.0)
  }

  datatype Meta = Meta(active: nat, segments: map<nat, Stats>) {
    function StatsOf(id: nat): Stats {
      if id in segments then segments[id] else NEW_STATS
    }
  }

  /** `logs` are the segment files, `saved` is meta.bin; `meta` is lost in a crash. */
  datatype Store = Store(logs: map<nat, Log>, index: IndexMap, meta: Meta, saved: Meta) {
    predicate Ready() {
      meta.active in logs
    }

    function Active(): Log
      requires Ready()
    {
      logs[meta.active]
    }

    /** Every record on disk, oldest first. */
    function History(): seq<IndexRecord> {
      Flat(logs, 0, meta.active + 1)
    }
  }

  const EMPTY := Store(map[1 := []], map[], Meta(1, map[]), Meta(1, map[]))

  // ------------------------------------------------------------------ writes

  function SealActive(st: Store): (s: Store)
    requires st.Ready()
    ensures s.Ready()
  {
    if End(st.Active()) == 0 then st
    else
      var id := st.meta.active;
      var meta := Meta(id + 1, st.meta.segments[id := st.meta.StatsOf(id).(isSealed := true)]);
      Store(st.logs[id + 1 := []], st.index, meta, meta)
  }

  function RollOver(st: Store): (s: Store)
    requires st.Ready()
    ensures s.Ready()
  {
    if End(st.Active()) >= SEGMENT_MAX_SIZE then SealActive(st) else st
  }

  /** Append to the active segment and account for it. */
  function AppendActive(st: Store, e: Entry): (s: Store)
    requires st.Ready()
    ensures s.Ready() && s.Active() != []
  {
    var id := st.meta.active;
    var was := st.meta.StatsOf(id);
    var stats := was.(total := was.total + |e.data|,
                      deleted := was.deleted + if e.IsTombstone() then e.rawSize else 0);
    st.(logs := st.logs[id := st.logs[id] + [Placed(End(st.logs[id]), e)]],
        meta := st.meta.(segments := st.meta.segments[id := Recompute(stats)]))
  }

  /** `append_entry`. */
  function AppendEntry(st: Store, e: Entry): (s: Store)
    requires st.Ready()
    ensures s.Ready() && s.Active() != []
  {
    AppendActive(RollOver(st), e)
  }

  /** The record of the entry appended last. */
  function Appended(st: Store): IndexRecord
    requires st.Ready() && st.Active() != []
  {
    RecordOf(st.meta.active, st.Active()[|st.Active()| - 1])
  }

  /** `mark_indexed`, which also saves. */
  function Mark(st: Store, r: IndexRecord): Store {
    var meta :=
      if r.segmentId in st.meta.segments && r.EntryEnd() > st.meta.segments[r.segmentId].indexed then
        st.meta.(segments := st.meta.segments[r.segmentId := st.meta.segments[r.segmentId].(indexed := r.EntryEnd())])
      else st.meta;
    st.(meta := meta, saved := meta)
  }

  /** Append one entry, index it, mark it: `put` after compression, `delete` after accounting. */
  function WriteOne(st: Store, e: Entry): (s: Store)
    requires st.Ready()
    ensures s.Ready()
  {
    var a := AppendEntry(st, e);
    Mark(a.(index := a.index[e.key := Appended(a)]), Appended(a))
  }

  /** The entry `put` stores for a value within the limit. */
  function Pack(lib: Lib, cfg: Config, key: Key, value: Bytes, codec: Codec): Entry
    requires |value| <= MAX_VALUE_SIZE
  {
    var p := Compress(lib, value, codec, cfg.threshold, cfg.level);
    Entry(0, p.codec, key, |value|, p.data)
  }

  /** `deleted_bytes` accounting on the segment that holds the live value. */
  function CountDeleted(st: Store, k: Key): (s: Store)
    ensures s == st.(meta := s.meta) && s.meta.active == st.meta.active
    ensures s.meta.segments.Keys == st.meta.segments.Keys
    ensures forall id :: id in s.meta.segments ==>
              s.meta.segments[id] == st.meta.segments[id].(deleted := s.meta.segments[id].deleted,
                                                           ratio := s.meta.segments[id].ratio)
  {
    match Lookup(st.index, k)
    case Some(r) =>
      if r.segmentId in st.meta.segments then
        var s := st.meta.segments[r.segmentId];
        st.(meta := st.meta.(segments :=
          st.meta.segments[r.segmentId := Recompute(s.(deleted := s.deleted + r.dataSize))]))
      else st
    case None => st
  }

  // ----------------------------------------------------------------- batches

  function AppendMany(st: Store, es: seq<Entry>): (s: Store)
    requires st.Ready()
    ensures s.Ready() && (es != [] ==> s.Active() != [])
  {
    if es == [] then st else AppendEntry(AppendMany(st, es[..|es| - 1]), es[|es| - 1])
  }

  /** The `records` vector after the append loop. */
  function AppendedRecords(st: Store, es: seq<Entry>): (recs: seq<IndexRecord>)
    requires st.Ready()
    ensures |recs| == |es|
  {
    if es == [] then [] else AppendedRecords(st, es[..|es| - 1]) + [Appended(AppendMany(st, es))]
  }

  function Tombstones(keys: seq<Key>): (es: seq<Entry>)
    ensures |es| == |keys| && forall i :: 0 <= i < |es| ==> es[i] == Tombstone(keys[i])
  {
    seq(|keys|, i requires 0 <= i < |keys| => Tombstone(keys[i]))
  }

  /** The loop of `delete_batch`: account against the index as it was, append a tombstone. */
  function DeleteMany(st: Store, keys: seq<Key>): (s: Store)
    requires st.Ready()
    ensures s.Ready()
  {
    if keys == [] then st
    else
      var n := |keys| - 1;
      AppendEntry(CountDeleted(DeleteMany(st, keys[..n]), keys[n]), Tombstone(keys[n]))
  }

  function MarkAll(st: Store, recs: seq<IndexRecord>): Store {
    if recs == [] then st else Mark(MarkAll(st, recs[..|recs| - 1]), recs[|recs| - 1])
  }

  /** The tail of a batch: one index transaction, then the watermarks. */
  function CommitBatch(st: Store, recs: seq<IndexRecord>): Store {
    MarkAll(st.(index := InsertAll(st.index, recs), saved := st.meta), recs)
  }

  // -------------------------------------------------------------- invariants

  /** The largest file a segment can become: not yet full, then one maximal entry. */
  const MAX_SEGMENT_FILE: nat := SEGMENT_MAX_SIZE - 1 + ENTRY_HEADER_SIZE + MAX_VALUE_SIZE

  ghost predicate EntryOk(e: Entry) {
    && |e.data| <= MAX_VALUE_SIZE
    && (e.flags == 0 || e == Tombstone(e.key))
  }

  ghost predicate LogOk(log: Log)
    ensures LogOk(log) ==> WellPlaced(log)
  {
    && WellPlaced(log)
    && End(log) <= MAX_SEGMENT_FILE
    && forall p :: p in log ==> EntryOk(p.e)
  }

  /** Segment files, statistics and the active writer fit together. */
  ghost predicate Shape(st: Store)
    ensures Shape(st) ==> st.Ready()
  {
    && 1 <= st.meta.active && st.Ready()
    && (forall id :: id in st.logs ==> 1 <= id <= st.meta.active && LogOk(st.logs[id]))
    && (forall id :: id in st.meta.segments ==>
          id in st.logs && (st.meta.segments[id].isSealed <==> id != st.meta.active))
    && (forall id :: id in st.logs && id !in st.meta.segments ==> id == st.meta.active && st.logs[id] == [])
  }

  /** What the store means: the live entry of each key. */
  type View = map<Key, Entry>

  function Apply(view: View, e: Entry): View {
    if e.IsTombstone() then view - {e.key} else view[e.key := e]
  }

  function ApplyAll(view: View, es: seq<Entry>): View {
    if es == [] then view else Apply(ApplyAll(view, es[..|es| - 1]), es[|es| - 1])
  }

  /** The last entry for `k`. */
  function LastEntry(es: seq<Entry>, k: Key): Option<Entry> {
    if es == [] then None
    else if es[|es| - 1].key == k then Some(es[|es| - 1])
    else LastEntry(es[..|es| - 1], k)
  }

  lemma {:induction false} LastEntryMember(es: seq<Entry>, k: Key)
    ensures LastEntry(es, k).Some? ==> LastEntry(es, k).value in es && LastEntry(es, k).value.key == k
    ensures LastEntry(es, k).None? ==> forall e :: e in es ==> e.key != k
  {
    if es != [] {
      var n := |es| - 1;
      LastEntryMember(es[..n], k);
      assert es == es[..n] + [es[n]];
    }
  }

  /** A sequence of writes acts on a key through its last write to that key. */
  lemma {:induction false} ApplyAllAt(view: View, es: seq<Entry>, k: Key)
    ensures var v := ApplyAll(view, es);
            match LastEntry(es, k)
            case Some(e) => if e.IsTombstone() then k !in v else k in v && v[k] == e
            case None => (k in v <==> k in view) && (k in v ==> v[k] == view[k])
  {
    if es != [] {
      ApplyAllAt(view, es[..|es| - 1], k);
    }
  }

  /** Record `r` points at entry `e` in the logs. */
  ghost predicate PointsAt(logs: map<nat, Log>, r: IndexRecord, e: Entry) {
    && r.segmentId in logs
    && Placed(r.offset, e) in logs[r.segmentId]
    && r == RecordOf(r.segmentId, Placed(r.offset, e))
  }

  /** The index over these logs means exactly `view`. */
  ghost predicate Means(logs: map<nat, Log>, index: IndexMap, view: View) {
    && (forall k :: k in view ==>
          && Lookup(index, k).Some? && PointsAt(logs, Lookup(index, k).value, view[k])
          && view[k].key == k && !view[k].IsTombstone())
    && (forall k :: Lookup(index, k).Some? ==> k in view)
  }

  ghost predicate Inv(st: Store, view: View)
    ensures Inv(st, view) ==> Shape(st)
  {
    Shape(st) && Means(st.logs, st.index, view)
  }

  lemma EmptyInv()
    ensures Inv(EMPTY, map[])
  {
    assert WellPlaced([]);
  }

  // ------------------------------------------------------- logs only ever grow

  /** Every entry of `a` is still at its place in `b`. */
  ghost predicate Extends(a: map<nat, Log>, b: map<nat, Log>) {
    forall id :: id in a ==> id in b && forall p :: p in a[id] ==> p in b[id]
  }

  lemma ExtendsMeans(a: map<nat, Log>, b: map<nat, Log>, index: IndexMap, view: View)
    requires Extends(a, b) && Means(a, index, view)
    ensures Means(b, index, view)
  {
  }

  lemma EmptyLog()
    ensures LogOk([])
  {
  }

  lemma SealShape(st: Store)
    requires Shape(st)
    ensures Shape(SealActive(st)) && Extends(st.logs, SealActive(st).logs)
  {
    hide WellPlaced;
    EmptyLog();
  }

  lemma SealIndex(s: Store)
    requires s.Ready()
    ensures SealActive(s).index == s.index
  {
  }

  lemma SealHistory(st: Store)
    requires st.Ready()
    ensures SealActive(st).History() == st.History()
  {
    if End(st.Active()) != 0 {
      var id := st.meta.active;
      FlatSame(st.logs, SealActive(st).logs, 0, id + 1);
      assert LogRecords(id + 1, []) == [];
    }
  }

  lemma AppendLogOk(log: Log, e: Entry)
    requires LogOk(log) && EntryOk(e) && End(log) < SEGMENT_MAX_SIZE
    ensures LogOk(log + [Placed(End(log), e)])
  {
    hide WellPlaced;
    AppendKeepsPlaced(_ => 0, log, e);
  }

  lemma AppendActiveShape(st: Store, e: Entry)
    requires Shape(st) && EntryOk(e) && End(st.Active()) < SEGMENT_MAX_SIZE
    ensures Shape(AppendActive(st, e))
  {
    AppendLogOk(st.Active(), e);
    hide LogOk;
  }

  lemma AppendShape(st: Store, e: Entry)
    requires Shape(st) && EntryOk(e)
    ensures Shape(AppendEntry(st, e))
  {
    hide LogOk, AppendActive;
    SealShape(st);
    AppendActiveShape(RollOver(st), e);
  }

  /** An append disturbs no entry and no index row, and its record points at what was written. */
  lemma AppendExtends(st: Store, e: Entry)
    requires Shape(st)
    ensures var s := AppendEntry(st, e);
            Extends(st.logs, s.logs) && s.index == st.index && PointsAt(s.logs, Appended(s), e)
  {
    hide LogOk;
    SealShape(st);
    var r := RollOver(st);
    var log, p := r.Active(), Placed(End(r.Active()), e);
    assert AppendEntry(st, e).logs == r.logs[r.meta.active := log + [p]];
    assert p in log + [p];
  }

  lemma AppendHistory(st: Store, e: Entry)
    requires st.Ready()
    ensures AppendEntry(st, e).History() == st.History() + [Appended(AppendEntry(st, e))]
  {
    hide Flat;
    var r := RollOver(st);
    SealHistory(st);
    FlatAppend(r.logs, r.meta.active, Placed(End(r.Active()), e));
  }
}
