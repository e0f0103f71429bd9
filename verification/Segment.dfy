/** The byte format of a segment file: writing, reading and scanning entries (segment.rs). */
module Segment {
  import opened Words
  import opened Compression

  const ENTRY_MAGIC: u32 := 0xB3DB_0001
  const ENTRY_HEADER_SIZE: nat := 50
  const SEGMENT_MAX_SIZE: nat := 1024 * 1024 * 1024

  type Key = k: Bytes | |k| == 32 witness seq(32, _ => 0)
  type Crc = Bytes -> u32

  datatype Entry = Entry(flags: byte, codec: Codec, key: Key, rawSize: u32, data: Bytes) {
    predicate IsTombstone() {
      flags == 1
    }

    function Size(): nat {
      ENTRY_HEADER_SIZE + |data|
    }
  }

  function Tombstone(key: Key): Entry {
    Entry(1, Uncompressed, key, 0, [])
  }

  // ---------------------------------------------------------------- encoding

  /** The bytes the checksum covers: everything after the CRC field. */
  function Body(e: Entry): (b: Bytes)
    requires |e.data| <= MAX_VALUE_SIZE
    ensures |b| == e.Size() - 8
  {
    [e.flags, CodecByte(e.codec)] + e.key + LE32(e.rawSize) + LE32(|e.data|) + e.data
  }

  function Framed(crc: u32, body: Bytes): (b: Bytes)
    ensures |b| == 8 + |body|
  {
    LE32(ENTRY_MAGIC) + LE32(crc) + body
  }

  function Encode(crc: Crc, e: Entry): (b: Bytes)
    requires |e.data| <= MAX_VALUE_SIZE
    ensures |b| == e.Size()
  {
    Framed(crc(Body(e)), Body(e))
  }

  // ---------------------------------------------------------------- decoding

  datatype ReadResult = Ok(entry: Entry, next: nat) | Corrupt | CrcMismatch | IoError

  /** The `n` bytes at `off`, when the file has them. */
  function Slice(file: Bytes, off: nat, n: nat): (r: Option<Bytes>)
    ensures r.Some? ==> |r.value| == n
  {
    if off + n <= |file| then Some(file[off..off + n]) else None
  }

  lemma SliceOfSlice(s: Bytes, a: nat, b: nat, i: nat, j: nat)
    requires a <= b <= |s| && i <= j <= b - a
    ensures s[a..b][i..j] == s[a + i..a + j]
  {
    assert forall k | 0 <= k < j - i :: s[a..b][i..j][k] == s[a + i + k] == s[a + i..a + j][k];
  }

  /** The checks on a complete 50-byte header, in the order both decoders make them. */
  function DecodeHeader(h: Bytes): (r: Option<(byte, Codec, Key, u32, nat)>)
    requires |h| == ENTRY_HEADER_SIZE
    ensures r.Some? ==> r.value.4 <= MAX_VALUE_SIZE
  {
    if FromLE32(h[0..4]) != ENTRY_MAGIC then None
    else if CodecFromByte(h[9]).None? then None
    else
      var size := FromLE32(h[46..50]);
      if size > MAX_VALUE_SIZE then None
      else Some((h[8], CodecFromByte(h[9]).value, h[10..42], FromLE32(h[42..46]), size))
  }

  /** What a reader finds at `off`. */
  function DecodeAt(crc: Crc, file: Bytes, off: nat): (r: ReadResult)
    ensures r.Ok? ==> off + ENTRY_HEADER_SIZE <= r.next <= |file| && |r.entry.data| <= MAX_VALUE_SIZE
  {
    if off + ENTRY_HEADER_SIZE > |file| then IoError
    else
      var h := file[off..off + ENTRY_HEADER_SIZE];
      match DecodeHeader(h)
      case None => Corrupt
      case Some((flags, codec, key, rawSize, size)) =>
        var next := off + ENTRY_HEADER_SIZE + size;
        if next > |file| then IoError
        else
          var e := Entry(flags, codec, key, rawSize, file[off + ENTRY_HEADER_SIZE..next]);
          if FromLE32(h[4..8]) == crc(Body(e)) then Ok(e, next) else CrcMismatch
  }

  lemma CodecBytes(c: Codec, b: byte)
    ensures CodecFromByte(CodecByte(c)) == Some(c)
    ensures CodecFromByte(b).Some? ==> CodecByte(CodecFromByte(b).value) == b
  {
  }

  lemma HeaderFields(crc: u32, e: Entry)
    requires |e.data| <= MAX_VALUE_SIZE
    ensures var b := Framed(crc, Body(e));
            && b[0..4] == LE32(ENTRY_MAGIC) && b[4..8] == LE32(crc)
            && b[8] == e.flags && b[9] == CodecByte(e.codec) && b[10..42] == e.key
            && b[42..46] == LE32(e.rawSize) && b[46..50] == LE32(|e.data|) && b[50..] == e.data
  {
    var b := Framed(crc, Body(e));
    var body := Body(e);
    assert b[8..] == body;
    assert body[2..34] == e.key;
    assert body[34..38] == LE32(e.rawSize);
    assert body[38..42] == LE32(|e.data|);
    assert body[42..] == e.data;
    assert forall i, j | 0 <= i <= j <= |body| :: b[8 + i..8 + j] == body[i..j];
  }

  lemma HeaderDecodes(c: u32, e: Entry)
    requires |e.data| <= MAX_VALUE_SIZE
    ensures var h := Framed(c, Body(e))[..ENTRY_HEADER_SIZE];
            DecodeHeader(h) == Some((e.flags, e.codec, e.key, e.rawSize, |e.data|)) && FromLE32(h[4..8]) == c
  {
    var b := Framed(c, Body(e));
    var h := b[..50];
    HeaderFields(c, e);
    SliceOfSlice(b, 0, 50, 0, 4);
    SliceOfSlice(b, 0, 50, 4, 8);
    SliceOfSlice(b, 0, 50, 10, 42);
    SliceOfSlice(b, 0, 50, 42, 46);
    SliceOfSlice(b, 0, 50, 46, 50);
    LE32Bijective(ENTRY_MAGIC, h[0..4]);
    LE32Bijective(c, h[0..4]);
    LE32Bijective(e.rawSize, h[0..4]);
    LE32Bijective(|e.data|, h[0..4]);
    CodecBytes(e.codec, 0);
  }

  /** An image with checksum field `c` decodes to its entry when `c` is right, and never otherwise. */
  lemma DecodeFramed(crc: Crc, file: Bytes, off: nat, c: u32, e: Entry)
    requires |e.data| <= MAX_VALUE_SIZE
    requires off + e.Size() <= |file| && file[off..off + e.Size()] == Framed(c, Body(e))
    ensures DecodeAt(crc, file, off) ==
            if c == crc(Body(e)) then Ok(e, off + e.Size()) else CrcMismatch
  {
    hide DecodeHeader, Framed, Body;
    var b := Framed(c, Body(e));
    HeaderFields(c, e);
    HeaderDecodes(c, e);
    SliceOfSlice(file, off, off + e.Size(), 0, 50);
    SliceOfSlice(file, off, off + e.Size(), 50, e.Size());
    assert b[0..50] == b[..50] && b[50..e.Size()] == b[50..];
  }

  lemma DecodeSound(crc: Crc, file: Bytes, off: nat)
    requires DecodeAt(crc, file, off).Ok?
    ensures var r := DecodeAt(crc, file, off);
            r.next == off + r.entry.Size() && file[off..r.next] == Encode(crc, r.entry)
  {
    var r := DecodeAt(crc, file, off);
    var e := r.entry;
    var h := file[off..off + 50];
    LE32Bijective(0, h[0..4]);
    LE32Bijective(0, h[4..8]);
    LE32Bijective(0, h[42..46]);
    LE32Bijective(0, h[46..50]);
    CodecBytes(e.codec, h[9]);
    assert file[off..r.next] == h + e.data;
    assert h[8..] == [h[8], h[9]] + h[10..42] + h[42..46] + h[46..50];
    assert Body(e) == h[8..] + e.data;
    assert h == h[0..4] + h[4..8] + h[8..];
  }

  /** A decoder accepts exactly the encodings: nothing else decodes, and every encoding does. */
  lemma DecodeExact(crc: Crc, file: Bytes, off: nat, e: Entry, next: nat)
    ensures DecodeAt(crc, file, off) == Ok(e, next) <==>
            && |e.data| <= MAX_VALUE_SIZE
            && next == off + e.Size() <= |file|
            && file[off..next] == Encode(crc, e)
  {
    if |e.data| <= MAX_VALUE_SIZE && next == off + e.Size() <= |file| && file[off..next] == Encode(crc, e) {
      DecodeFramed(crc, file, off, crc(Body(e)), e);
    }
    if DecodeAt(crc, file, off) == Ok(e, next) {
      DecodeSound(crc, file, off);
    }
  }

  // ------------------------------------------------- what a complete header says, byte by byte

  /** `0xB3DB0001` as it stands on disk. */
  const MAGIC_BYTES: Bytes := [0x01, 0x00, 0xDB, 0xB3]

  function WordAt(file: Bytes, at: nat): (w: u32)
    requires at + 4 <= |file|
  {
    Word(file[at], file[at + 1], file[at + 2], file[at + 3])
  }

  /** The magic, the codec or the size is none that a writer would write. */
  predicate Refused(file: Bytes, off: nat)
    requires off + 50 <= |file|
  {
    file[off..off + 4] != MAGIC_BYTES || file[off + 9] > 2 || WordAt(file, off + 46) > 104_857_600
  }

  /** The data the header announces runs past the end of the file. */
  predicate Overruns(file: Bytes, off: nat)
    requires off + 50 <= |file|
  {
    off + 50 + WordAt(file, off + 46) > |file|
  }

  /** The stored checksum is not that of the bytes after it. */
  predicate WrongSum(crc: Crc, file: Bytes, off: nat)
    requires off + 50 <= |file| && !Overruns(file, off)
  {
    WordAt(file, off + 4) != crc(file[off + 8..off + 50 + WordAt(file, off + 46)])
  }

  lemma MagicOnDisk()
    ensures LE32(ENTRY_MAGIC) == MAGIC_BYTES
  {
    LE32Bytes(MAGIC_BYTES);
    LE32Bijective(ENTRY_MAGIC, MAGIC_BYTES);
  }

  lemma WordIs(file: Bytes, off: nat, i: nat)
    requires off + 50 <= |file| && i + 4 <= 50
    ensures FromLE32(file[off..off + 50][i..i + 4]) == WordAt(file, off + i)
  {
    hide FromLE32;
    SliceOfSlice(file, off, off + 50, i, i + 4);
    LE32Bytes(file[off + i..off + i + 4]);
  }

  lemma MagicIs(file: Bytes, off: nat)
    requires off + 50 <= |file|
    ensures FromLE32(file[off..off + 50][0..4]) == ENTRY_MAGIC <==> file[off..off + 4] == MAGIC_BYTES
  {
    hide FromLE32, LE32;
    SliceOfSlice(file, off, off + 50, 0, 4);
    MagicOnDisk();
    LE32Bijective(ENTRY_MAGIC, file[off..off + 4]);
  }

  lemma HeaderRefused(file: Bytes, off: nat)
    requires off + 50 <= |file|
    ensures DecodeHeader(file[off..off + 50]).None? <==> Refused(file, off)
    ensures !Refused(file, off) ==> DecodeHeader(file[off..off + 50]).value.4 == WordAt(file, off + 46)
  {
    hide FromLE32;
    MagicIs(file, off);
    WordIs(file, off, 46);
  }

  /** The checksum covers the bytes from the flags to the end of the data. */
  lemma BodyOnDisk(crc: Crc, file: Bytes, off: nat)
    requires off + 50 <= |file| && !Refused(file, off) && !Overruns(file, off)
    ensures var next := off + 50 + WordAt(file, off + 46);
      DecodeAt(crc, file, off) ==
      var e := EntryAt(file, off);
      if WrongSum(crc, file, off) then CrcMismatch else Ok(e, next)
  {
    hide FromLE32, LE32, Body;
    HeaderRefused(file, off);
    MagicIs(file, off);
    WordIs(file, off, 4);
    WordIs(file, off, 42);
    WordIs(file, off, 46);
    SliceOfSlice(file, off, off + 50, 10, 42);
    BodyIs(file, off);
  }

  /** The entry whose fields stand at `off`. */
  function EntryAt(file: Bytes, off: nat): (e: Entry)
    requires off + 50 <= |file| && !Refused(file, off) && !Overruns(file, off)
    ensures |e.data| <= MAX_VALUE_SIZE
  {
    Entry(file[off + 8], CodecFromByte(file[off + 9]).value, file[off + 10..off + 42], WordAt(file, off + 42),
          file[off + 50..off + 50 + WordAt(file, off + 46)])
  }

  lemma BodyIs(file: Bytes, off: nat)
    requires off + 50 <= |file| && !Refused(file, off) && !Overruns(file, off)
    ensures Body(EntryAt(file, off)) == file[off + 8..off + 50 + WordAt(file, off + 46)]
  {
    hide LE32, FromLE32;
    var e, next := EntryAt(file, off), off + 50 + WordAt(file, off + 46);
    var raw, size := file[off + 42..off + 46], file[off + 46..off + 50];
    LE32Bytes(raw);
    LE32Bytes(size);
    LE32Bijective(0, raw);
    LE32Bijective(0, size);
    CodecBytes(e.codec, file[off + 9]);
    assert file[off + 8..next] == [file[off + 8], file[off + 9]] + file[off + 10..off + 42] + raw + size + file[off + 50..next];
  }

  /**
   * What a read says of a complete header, in terms of the bytes alone: it is damaged, or its data runs past the
   * file, or its checksum is wrong, or it is the entry whose fields stand there. Without a complete header it is
   * an I/O error.
   */
  lemma DecodeVerdict(crc: Crc, file: Bytes, off: nat)
    ensures off + 50 > |file| ==> DecodeAt(crc, file, off) == IoError
    ensures off + 50 <= |file| ==>
      DecodeAt(crc, file, off) ==
      if Refused(file, off) then Corrupt
      else if Overruns(file, off) then IoError
      else if WrongSum(crc, file, off) then CrcMismatch
      else Ok(EntryAt(file, off), off + 50 + WordAt(file, off + 46))
  {
    hide FromLE32, Body;
    if off + 50 <= |file| {
      HeaderRefused(file, off);
      if !Refused(file, off) && !Overruns(file, off) {
        BodyOnDisk(crc, file, off);
      }
    }
  }

  // ------------------------------------------------------------------- files

  /** `file` with `buf` written at `pos`, extending it where it ends first. */
  function Overwrite(file: Bytes, pos: nat, buf: Bytes): (r: Bytes)
    requires pos <= |file|
    ensures pos == |file| ==> r == file + buf
  {
    file[..pos] + buf + (if pos + |buf| <= |file| then file[pos + |buf|..] else [])
  }

  /** Patching the checksum field of the last image in a file. */
  lemma PatchCrc(prefix: Bytes, body: Bytes, c: u32)
    ensures Overwrite(prefix + Framed(0, body), |prefix| + 4, LE32(c)) == prefix + Framed(c, body)
  {
    var f := prefix + Framed(0, body);
    assert f[..|prefix| + 4] == prefix + LE32(ENTRY_MAGIC);
    assert f[|prefix| + 8..] == body;
  }

  /** An open file: its bytes and a cursor. */
  class File {
    var bytes: Bytes
    var pos: nat

    constructor (content: Bytes)
      ensures bytes == content && pos == 0
    {
      bytes, pos := content, 0;
    }

    method Seek(p: nat)
      modifies this`pos
      ensures pos == p
    {
      pos := p;
    }

    method WriteAll(buf: Bytes)
      requires pos <= |bytes|
      modifies this
      ensures pos == old(pos) + |buf|
      ensures bytes == Overwrite(old(bytes), old(pos), buf)
    {
      bytes := Overwrite(bytes, pos, buf);
      pos := pos + |buf|;
    }

    method ReadExact(n: nat) returns (r: Option<Bytes>)
      modifies this`pos
      ensures r == Slice(bytes, old(pos), n)
      ensures r.Some? ==> pos == old(pos) + n
    {
      r := Slice(bytes, pos, n);
      if r.Some? {
        pos := pos + n;
      }
    }
  }

  class SegmentWriter {
    const file: File
    const id: nat
    var bytesWritten: nat

    ghost predicate Valid()
      reads this, file
    {
      file.pos == |file.bytes| == bytesWritten
    }

    constructor Create(id: nat)
      ensures Valid() && fresh(file) && this.id == id && file.bytes == []
    {
      file := new File([]);
      this.id := id;
      bytesWritten := 0;
    }

    constructor OpenAppend(id: nat, content: Bytes)
      ensures Valid() && fresh(file) && this.id == id && file.bytes == content
    {
      file := new File(content);
      this.id := id;
      bytesWritten := |content|;
      new;
      file.Seek(|content|);
    }

    /** The fields after the checksum, written one by one. */
    method WriteBody(e: Entry)
      requires file.pos == |file.bytes| && |e.data| <= MAX_VALUE_SIZE
      modifies file
      ensures file.pos == |file.bytes| && file.bytes == old(file.bytes) + Body(e)
    {
      file.WriteAll([e.flags]);
      file.WriteAll([CodecByte(e.codec)]);
      file.WriteAll(e.key);
      file.WriteAll(LE32(e.rawSize));
      file.WriteAll(LE32(|e.data|));
      file.WriteAll(e.data);
    }

    /**
     * Write the entry with a zero checksum, then go back and patch it. The file
     * ends up exactly one encoding longer and the cursor back at its end.
     */
    method Append(crc: Crc, e: Entry) returns (offset: nat)
      requires Valid() && |e.data| <= MAX_VALUE_SIZE
      modifies this, file
      ensures Valid() && offset == old(bytesWritten)
      ensures file.bytes == old(file.bytes) + Encode(crc, e)
    {
      offset := bytesWritten;
      ghost var was := file.bytes;
      file.WriteAll(LE32(ENTRY_MAGIC));
      var crcPos := file.pos;
      file.WriteAll(LE32(0));
      WriteBody(e);
      var body := Body(e);
      assert file.bytes == was + Framed(0, body);
      file.Seek(crcPos);
      file.WriteAll(LE32(crc(body)));
      PatchCrc(was, body, crc(body));
      file.Seek(|file.bytes|);
      bytesWritten := bytesWritten + e.Size();
    }
  }

  datatype HeaderRead =
    | Header(stored: u32, flags: byte, codec: Codec, key: Key, rawSize: u32, size: nat)
    | BadHeader
    | ShortHeader

  /** The magic is there and wrong, or it and the codec are there and the codec is unknown. */
  predicate BadStart(b: Bytes, at: nat) {
    && at + 4 <= |b|
    && (FromLE32(b[at..at + 4]) != ENTRY_MAGIC || (at + 10 <= |b| && CodecFromByte(b[at + 9]).None?))
  }

  /** The header fields as the streaming decoder reads them, one `read_exact` each. */
  method ReadHeader(file: File) returns (r: HeaderRead)
    modifies file`pos
    ensures old(file.pos) + ENTRY_HEADER_SIZE > |file.bytes| ==>
              r == if BadStart(file.bytes, old(file.pos)) then BadHeader else ShortHeader
    ensures old(file.pos) + ENTRY_HEADER_SIZE <= |file.bytes| ==>
              var h := file.bytes[old(file.pos)..old(file.pos) + ENTRY_HEADER_SIZE];
              match DecodeHeader(h)
              case None => r.BadHeader?
              case Some((flags, codec, key, rawSize, size)) =>
                r == Header(FromLE32(h[4..8]), flags, codec, key, rawSize, size)
    ensures r.Header? ==> file.pos == old(file.pos) + ENTRY_HEADER_SIZE && r.size <= MAX_VALUE_SIZE
  {
    ghost var at := file.pos;
    var magic := file.ReadExact(4);
    if magic.None? { return ShortHeader; }
    if at + 50 <= |file.bytes| {
      SliceOfSlice(file.bytes, at, at + 50, 0, 4);
    }
    if FromLE32(magic.value) != ENTRY_MAGIC { return BadHeader; }
    var stored := file.ReadExact(4);
    if stored.None? { return ShortHeader; }
    var flags := file.ReadExact(1);
    if flags.None? { return ShortHeader; }
    var codecByte := file.ReadExact(1);
    if codecByte.None? { return ShortHeader; }
    var codec := CodecFromByte(codecByte.value[0]);
    if codec.None? { return BadHeader; }
    var key := file.ReadExact(32);
    if key.None? { return ShortHeader; }
    var rawSize := file.ReadExact(4);
    if rawSize.None? { return ShortHeader; }
    var dataSize := file.ReadExact(4);
    if dataSize.None? { return ShortHeader; }
    var size := FromLE32(dataSize.value);
    SliceOfSlice(file.bytes, at, at + 50, 4, 8);
    SliceOfSlice(file.bytes, at, at + 50, 10, 42);
    SliceOfSlice(file.bytes, at, at + 50, 42, 46);
    SliceOfSlice(file.bytes, at, at + 50, 46, 50);
    if size > MAX_VALUE_SIZE { return BadHeader; }
    return Header(FromLE32(stored.value), flags.value[0], codec.value, key.value, FromLE32(rawSize.value), size);
  }

  /**
   * The streaming decoder: the positional one, except that when the file ends inside the header it finds a bad
   * magic or codec first.
   */
  method ReadEntryAt(crc: Crc, content: Bytes, offset: nat) returns (r: ReadResult)
    ensures r == if offset + ENTRY_HEADER_SIZE > |content| && BadStart(content, offset) then Corrupt
                 else DecodeAt(crc, content, offset)
  {
    var file := new File(content);
    file.Seek(offset);
    var h := ReadHeader(file);
    match h
    case ShortHeader => return IoError;
    case BadHeader => return Corrupt;
    case Header(stored, flags, codec, key, rawSize, size) =>
      var data := file.ReadExact(size);
      if data.None? { return IoError; }
      var e := Entry(flags, codec, key, rawSize, data.value);
      if stored != crc(Body(e)) { return CrcMismatch; }
      return Ok(e, offset + ENTRY_HEADER_SIZE + size);
  }

  /** The positional decoder: one read of the header, one of the data. */
  method ReadEntryAtFile(crc: Crc, content: Bytes, offset: nat) returns (r: ReadResult)
    ensures r == DecodeAt(crc, content, offset)
  {
    var header := Slice(content, offset, ENTRY_HEADER_SIZE);
    if header.None? { return IoError; }
    var h := header.value;
    if FromLE32(h[0..4]) != ENTRY_MAGIC { return Corrupt; }
    var codec := CodecFromByte(h[9]);
    if codec.None? { return Corrupt; }
    var size := FromLE32(h[46..50]);
    if size > MAX_VALUE_SIZE { return Corrupt; }
    var data := Slice(content, offset + ENTRY_HEADER_SIZE, size);
    if data.None? { return IoError; }
    var e := Entry(h[8], codec.value, h[10..42], FromLE32(h[42..46]), data.value);
    if FromLE32(h[4..8]) != crc(Body(e)) { return CrcMismatch; }
    return Ok(e, offset + ENTRY_HEADER_SIZE + size);
  }
}
