/** Index records, their on-disk form and the index as a last-writer-wins map (bucket.rs). */
module Index {
  import opened Words
  import opened Segment
  import opened SegmentLog

  const INDEX_RECORD_SIZE: nat := 56

  datatype IndexRecord = IndexRecord(key: Key, segmentId: nat, offset: nat, dataSize: nat, flags: byte) {
    predicate IsTombstone() {
      flags == 1
    }

    /** The offset just after the entry this record points at. */
    function EntryEnd(): nat {
      offset + ENTRY_HEADER_SIZE + dataSize
    }

    predicate FitsWords() {
      segmentId < 0x1_0000_0000 && offset < 0x1_0000_0000_0000_0000 && dataSize < 0x1_0000_0000
    }
  }

  type IndexMap = map<Key, IndexRecord>

  // --------------------------------------------------------------- byte form

  function RecordBody(r: IndexRecord): (b: Bytes)
    requires r.FitsWords()
    ensures |b| == 52
  {
    r.key + LE32(r.segmentId) + LE64(r.offset) + LE32(r.dataSize) + [r.flags, 0, 0, 0]
  }

  function EncodeRecord(crc: Crc, r: IndexRecord): (b: Bytes)
    requires r.FitsWords()
    ensures |b| == INDEX_RECORD_SIZE
  {
    RecordBody(r) + LE32(crc(RecordBody(r)))
  }

  function DecodeRecord(crc: Crc, b: Bytes): (r: Option<IndexRecord>)
    requires |b| == INDEX_RECORD_SIZE
    ensures r.Some? ==> r.value.FitsWords()
  {
    if FromLE32(b[52..56]) != crc(b[..52]) then None
    else Some(IndexRecord(b[0..32], FromLE32(b[32..36]), FromLE64(b[36..44]), FromLE32(b[44..48]), b[48]))
  }

  lemma RecordFields(crc: Crc, r: IndexRecord)
    requires r.FitsWords()
    ensures var b := EncodeRecord(crc, r);
            && b[0..32] == r.key && b[32..36] == LE32(r.segmentId) && b[36..44] == LE64(r.offset)
            && b[44..48] == LE32(r.dataSize) && b[48..52] == [r.flags, 0, 0, 0]
            && b[..52] == RecordBody(r) && b[52..56] == LE32(crc(RecordBody(r)))
  {
  }

  /** Decoding undoes encoding. */
  lemma RecordRoundTrip(crc: Crc, r: IndexRecord)
    requires r.FitsWords()
    ensures DecodeRecord(crc, EncodeRecord(crc, r)) == Some(r)
  {
    hide EncodeRecord, RecordBody;
    var b := EncodeRecord(crc, r);
    RecordFields(crc, r);
    LE32Bijective(r.segmentId, b[32..36]);
    LE64Bijective(r.offset, b[36..44]);
    LE32Bijective(r.dataSize, b[44..48]);
    LE32Bijective(crc(RecordBody(r)), b[52..56]);
    assert b[48..52][0] == b[48];
  }

  /** A row is read exactly when its checksum is right, and each field from its own bytes. */
  lemma RecordVerdict(crc: Crc, b: Bytes, r: IndexRecord)
    requires |b| == INDEX_RECORD_SIZE
    ensures DecodeRecord(crc, b) == Some(r) <==>
      && Word(b[52], b[53], b[54], b[55]) == crc(b[..52])
      && r.key == b[..32]
      && r.segmentId == Word(b[32], b[33], b[34], b[35])
      && r.offset == Word(b[36], b[37], b[38], b[39]) + 0x1_0000_0000 * Word(b[40], b[41], b[42], b[43])
      && r.dataSize == Word(b[44], b[45], b[46], b[47])
      && r.flags == b[48]
  {
    hide Word, FromLE32, FromLE64;
    LE32Bytes(b[52..56]);
    LE32Bytes(b[32..36]);
    LE64Bytes(b[36..44]);
    assert b[36..44][..4] == b[36..40] && b[36..44][4..] == b[40..44];
    LE32Bytes(b[36..40]);
    LE32Bytes(b[40..44]);
    LE32Bytes(b[44..48]);
    assert b[0..32] == b[..32];
  }

  /** A row that decodes is the encoding of what it decodes to, exactly when its padding is zero. */
  lemma RecordCanonical(crc: Crc, b: Bytes)
    requires |b| == INDEX_RECORD_SIZE && DecodeRecord(crc, b).Some?
    ensures EncodeRecord(crc, DecodeRecord(crc, b).value) == b <==> b[49..52] == [0, 0, 0]
  {
    hide EncodeRecord;
    var d := DecodeRecord(crc, b).value;
    RecordFields(crc, d);
    LE32Bijective(0, b[32..36]);
    LE64Bijective(0, b[36..44]);
    LE32Bijective(0, b[44..48]);
    LE32Bijective(0, b[52..56]);
    var e := EncodeRecord(crc, d);
    assert e[48..52][1..] == e[49..52] && [d.flags, 0, 0, 0][1..] == [0, 0, 0];
    if b[49..52] == [0, 0, 0] {
      assert b[48..52] == [b[48]] + b[49..52] == [d.flags, 0, 0, 0];
      assert b[..52] == b[0..32] + b[32..36] + b[36..44] + b[44..48] + b[48..52] == RecordBody(d);
      assert b == b[..52] + b[52..56];
      assert e == e[..52] + e[52..56];
    }
  }

  // ------------------------------------------------------------ lookup table

  /** `IndexStore::get`: a tombstone row reads as absent. */
  function Lookup(index: IndexMap, k: Key): Option<IndexRecord> {
    if k in index && !index[k].IsTombstone() then Some(index[k]) else None
  }

  /** `IndexStore::insert_batch`: later rows win. */
  function InsertAll(index: IndexMap, recs: seq<IndexRecord>): IndexMap {
    if recs == [] then index
    else
      var n := |recs| - 1;
      InsertAll(index, recs[..n])[recs[n].key := recs[n]]
  }

  /** The last record for `k`. */
  function LastFor(recs: seq<IndexRecord>, k: Key): Option<IndexRecord> {
    if recs == [] then None
    else
      var n := |recs| - 1;
      if recs[n].key == k then Some(recs[n]) else LastFor(recs[..n], k)
  }

  lemma {:induction false} InsertAllConcat(index: IndexMap, a: seq<IndexRecord>, b: seq<IndexRecord>)
    ensures InsertAll(index, a + b) == InsertAll(InsertAll(index, a), b)
  {
    if b == [] {
      assert a + b == a;
    } else {
      var n := |b| - 1;
      InsertAllConcat(index, a, b[..n]);
      assert (a + b)[..|a| + n] == a + b[..n];
    }
  }

  lemma {:induction false} LastForConcat(a: seq<IndexRecord>, b: seq<IndexRecord>, k: Key)
    ensures LastFor(a + b, k) == if LastFor(b, k).Some? then LastFor(b, k) else LastFor(a, k)
  {
    if b == [] {
      assert a + b == a;
    } else {
      var n := |b| - 1;
      LastForConcat(a, b[..n], k);
      assert (a + b)[..|a| + n] == a + b[..n];
    }
  }

  lemma {:induction false} LastForMember(recs: seq<IndexRecord>, k: Key)
    ensures LastFor(recs, k).Some? ==> LastFor(recs, k).value in recs && LastFor(recs, k).value.key == k
    ensures LastFor(recs, k).None? ==> forall r :: r in recs ==> r.key != k
  {
    if recs != [] {
      var n := |recs| - 1;
      LastForMember(recs[..n], k);
      assert recs == recs[..n] + [recs[n]];
    }
  }

  /** Batches are last-writer-wins. */
  lemma {:induction false} InsertAllAt(index: IndexMap, recs: seq<IndexRecord>, k: Key)
    ensures var m := InsertAll(index, recs);
            match LastFor(recs, k)
            case Some(r) => k in m && m[k] == r
            case None => (k in m <==> k in index) && (k in m ==> m[k] == index[k])
  {
    if recs != [] {
      InsertAllAt(index, recs[..|recs| - 1], k);
    }
  }

  // -------------------------------------------------------- records of a log

  function RecordOf(seg: nat, p: Placed): IndexRecord {
    IndexRecord(p.e.key, seg, p.off, |p.e.data|, p.e.flags)
  }

  /** What a scan of the segment reports, in log order. */
  function LogRecords(seg: nat, log: Log): (recs: seq<IndexRecord>)
    ensures |recs| == |log| && forall i :: 0 <= i < |log| ==> recs[i] == RecordOf(seg, log[i])
  {
    seq(|log|, i requires 0 <= i < |log| => RecordOf(seg, log[i]))
  }

  /** The records of segments `lo` to `hi - 1` in ascending order. */
  function Flat(logs: map<nat, Log>, lo: nat, hi: nat): seq<IndexRecord>
    decreases hi
  {
    if hi <= lo then []
    else Flat(logs, lo, hi - 1) + (if hi - 1 in logs then LogRecords(hi - 1, logs[hi - 1]) else [])
  }

  lemma {:induction false} FlatSplit(logs: map<nat, Log>, lo: nat, mid: nat, hi: nat)
    requires lo <= mid <= hi
    ensures Flat(logs, lo, hi) == Flat(logs, lo, mid) + Flat(logs, mid, hi)
    decreases hi
  {
    if mid == hi {
      assert Flat(logs, lo, hi) == Flat(logs, lo, mid) + [];
    } else {
      FlatSplit(logs, lo, mid, hi - 1);
    }
  }

  lemma {:induction false} FlatSame(a: map<nat, Log>, b: map<nat, Log>, lo: nat, hi: nat)
    requires forall id :: lo <= id < hi ==> (id in a <==> id in b) && (id in a ==> a[id] == b[id])
    ensures Flat(a, lo, hi) == Flat(b, lo, hi)
    decreases hi
  {
    if lo < hi {
      FlatSame(a, b, lo, hi - 1);
    }
  }

  lemma FlatOne(logs: map<nat, Log>, id: nat)
    ensures Flat(logs, id, id + 1) == if id in logs then LogRecords(id, logs[id]) else []
  {
    assert Flat(logs, id, id) == [];
  }

  /** Appending to the last segment appends to the flat history. */
  lemma FlatAppend(logs: map<nat, Log>, id: nat, p: Placed)
    requires id in logs
    ensures Flat(logs[id := logs[id] + [p]], 0, id + 1) == Flat(logs, 0, id + 1) + [RecordOf(id, p)]
  {
    FlatSame(logs, logs[id := logs[id] + [p]], 0, id);
    assert LogRecords(id, logs[id] + [p]) == LogRecords(id, logs[id]) + [RecordOf(id, p)];
  }

  lemma {:induction false} FlatMember(logs: map<nat, Log>, lo: nat, hi: nat, r: IndexRecord)
    requires r in Flat(logs, lo, hi)
    ensures lo <= r.segmentId < hi && r.segmentId in logs
    ensures exists p :: p in logs[r.segmentId] && r == RecordOf(r.segmentId, p)
    decreases hi
  {
    var id := hi - 1;
    if r in Flat(logs, lo, id) {
      FlatMember(logs, lo, id, r);
    } else {
      var recs := LogRecords(id, logs[id]);
      var i :| 0 <= i < |recs| && recs[i] == r;
      assert logs[id][i] in logs[id];
    }
  }
}
