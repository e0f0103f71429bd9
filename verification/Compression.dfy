/** Codecs and the transparent compression in front of the log (compress.rs, types.rs). */
module Compression {
  import opened Words

  const MAX_VALUE_SIZE := 100 * 1024 * 1024

  datatype Codec = Uncompressed | Zstd | Lz4

  function CodecByte(c: Codec): byte {
    match c
    case Uncompressed => 0
    case Zstd => 1
    case Lz4 => 2
  }

  function CodecFromByte(b: byte): Option<Codec> {
    match b
    case 0 => Some(Uncompressed)
    case 1 => Some(Zstd)
    case 2 => Some(Lz4)
    case _ => None
  }

  /** The functions the store takes from other crates. */
  datatype Lib = Lib(
    crc: Bytes -> u32,
    zstdEncode: (Bytes, int) -> Option<Bytes>,
    zstdDecode: Bytes -> Option<Bytes>,
    lz4Encode: Bytes -> Bytes,
    lz4Decode: (Bytes, nat) -> Option<Bytes>)

  /**
   * What those crates promise: decoding undoes encoding, and no decoder makes a
   * non-empty value out of no bytes. Nothing is promised about the CRC.
   */
  ghost predicate Lawful(lib: Lib) {
    && (forall d, l :: lib.zstdEncode(d, l).Some? ==> lib.zstdDecode(lib.zstdEncode(d, l).value) == Some(d))
    && (forall d :: lib.lz4Decode(lib.lz4Encode(d), |d|) == Some(d))
    && (lib.zstdDecode([]).Some? ==> lib.zstdDecode([]).value == [])
    && (forall n :: lib.lz4Decode([], n).Some? ==> lib.lz4Decode([], n).value == [])
  }

  datatype Packed = Packed(data: Bytes, codec: Codec)

  /** What an encoder makes of the value. */
  function Encoded(lib: Lib, value: Bytes, codec: Codec, level: int): Option<Bytes> {
    match codec
    case Uncompressed => None
    case Zstd => lib.zstdEncode(value, level)
    case Lz4 => Some(lib.lz4Encode(value))
  }

  /** A value is stored encoded exactly when it is no shorter than the threshold and that makes it shorter. */
  function Compress(lib: Lib, value: Bytes, codec: Codec, threshold: nat, level: int): (p: Packed)
    ensures |p.data| <= |value|
    ensures p.codec == Uncompressed || p.codec == codec
    ensures p.codec != Uncompressed <==>
      && |value| >= threshold
      && Encoded(lib, value, codec, level).Some? && |Encoded(lib, value, codec, level).value| < |value|
    ensures p.codec != Uncompressed ==> Encoded(lib, value, codec, level) == Some(p.data)
    ensures p.codec == Uncompressed ==> p.data == value
  {
    if |value| < threshold then Packed(value, Uncompressed)
    else
      var p := match codec
        case Zstd =>
          (match lib.zstdEncode(value, level)
           case Some(out) => Packed(out, Zstd)
           case None => Packed(value, Uncompressed))
        case Lz4 => Packed(lib.lz4Encode(value), Lz4)
        case Uncompressed => Packed(value, Uncompressed);
      if |p.data| >= |value| then Packed(value, Uncompressed) else p
  }

  function Decompress(lib: Lib, data: Bytes, codec: Codec, rawSize: nat): (value: Option<Bytes>) {
    match codec
    case Uncompressed => Some(data)
    case Zstd => lib.zstdDecode(data)
    case Lz4 => lib.lz4Decode(data, rawSize)
  }

  /** Storing a value loses nothing and empties nothing. */
  lemma CompressRoundTrip(lib: Lib, value: Bytes, codec: Codec, threshold: nat, level: int)
    requires Lawful(lib)
    ensures var p := Compress(lib, value, codec, threshold, level);
            && Decompress(lib, p.data, p.codec, |value|) == Some(value)
            && (p.data == [] <==> value == [])
  {
    match codec
    case Zstd =>
      var out := lib.zstdEncode(value, level);
      assert out.Some? ==> lib.zstdDecode(out.value) == Some(value);
    case Lz4 =>
      assert lib.lz4Decode(lib.lz4Encode(value), |value|) == Some(value);
    case Uncompressed =>
  }
}
