/** Reading a key through the index and the bytes of its segment (`get` in engine.rs). */
module Reads {
  import opened Words
  import opened Compression
  import opened Segment
  import opened SegmentLog
  import opened Index
  import opened BlobStore

  datatype GetResult = Found(value: Bytes) | Absent | SegmentNotFound | ReadError

  function Unpack(lib: Lib, e: Entry): (r: GetResult)
    ensures r.Found? || r.ReadError?
  {
    match Decompress(lib, e.data, e.codec, e.rawSize)
    case Some(v) => Found(v)
    case None => ReadError
  }

  /** Index row, segment file, decode at the offset, decompress. */
  ghost function Get(lib: Lib, st: Store, k: Key): GetResult
    requires Shape(st)
  {
    match Lookup(st.index, k)
    case None => Absent
    case Some(r) =>
      if r.segmentId !in st.logs then SegmentNotFound
      else
        match DecodeAt(lib.crc, EncodeLog(lib.crc, st.logs[r.segmentId]), r.offset)
        case Ok(e, _) => Unpack(lib, e)
        case _ => ReadError
  }

  /** Under the invariant a read returns the live entry of the key, or nothing. */
  lemma GetMeans(lib: Lib, st: Store, view: View, k: Key)
    requires Inv(st, view)
    ensures Get(lib, st, k) == if k in view then Unpack(lib, view[k]) else Absent
  {
    hide DecodeAt, EncodeLog, WellPlaced;
    if k in view {
      var r := Lookup(st.index, k).value;
      assert LogOk(st.logs[r.segmentId]);
      ReadPlaced(lib.crc, st.logs[r.segmentId], Placed(r.offset, view[k]));
    }
  }

  /** The map of values that a view of entries stands for. */
  ghost predicate Stands(lib: Lib, view: View, model: map<Key, Bytes>) {
    && view.Keys == model.Keys
    && forall k :: k in view ==> Unpack(lib, view[k]) == Found(model[k])
  }

  lemma PackStands(lib: Lib, cfg: Config, view: View, model: map<Key, Bytes>, k: Key, value: Bytes, codec: Codec)
    requires Lawful(lib) && Stands(lib, view, model) && |value| <= MAX_VALUE_SIZE
    ensures var e := Pack(lib, cfg, k, value, codec);
            && EntryOk(e) && e.key == k && !e.IsTombstone() && (e.data == [] <==> value == [])
            && Stands(lib, Apply(view, e), model[k := value])
  {
    hide Lawful, Compress, Decompress;
    CompressRoundTrip(lib, value, codec, cfg.threshold, cfg.level);
  }

  lemma EmptyStands(lib: Lib)
    ensures Stands(lib, map[], map[])
  {
  }

  lemma StandsAt(lib: Lib, view: View, model: map<Key, Bytes>, k: Key)
    requires Stands(lib, view, model)
    ensures k in view <==> k in model
    ensures k in view ==> Unpack(lib, view[k]) == Found(model[k])
  {
  }
}
