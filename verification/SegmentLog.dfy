/** A segment as the sequence of entries it holds, and the scan that recovers it (segment.rs). */
module SegmentLog {
  import opened Words
  import opened Compression
  import opened Segment

  /** An entry and the offset it was written at. */
  datatype Placed = Placed(off: nat, e: Entry)
  type Log = seq<Placed>

  function End(log: Log): (n: nat) {
    if log == [] then 0 else log[|log| - 1].off + log[|log| - 1].e.Size()
  }

  /** Every entry starts where the one before it ends and obeys the value limit. */
  ghost predicate WellPlaced(log: Log) {
    log == [] ||
    var n := |log| - 1;
    WellPlaced(log[..n]) && log[n].off == End(log[..n]) && |log[n].e.data| <= MAX_VALUE_SIZE
  }

  /** The file a sequence of appends leaves behind. */
  ghost function EncodeLog(crc: Crc, log: Log): (file: Bytes)
    requires WellPlaced(log)
    ensures |file| == End(log)
  {
    if log == [] then [] else EncodeLog(crc, log[..|log| - 1]) + Encode(crc, log[|log| - 1].e)
  }

  lemma AppendKeepsPlaced(crc: Crc, log: Log, e: Entry)
    requires WellPlaced(log) && |e.data| <= MAX_VALUE_SIZE
    ensures WellPlaced(log + [Placed(End(log), e)])
    ensures End(log + [Placed(End(log), e)]) == End(log) + e.Size()
    ensures EncodeLog(crc, log + [Placed(End(log), e)]) == EncodeLog(crc, log) + Encode(crc, e)
  {
    assert (log + [Placed(End(log), e)])[..|log|] == log;
  }

  lemma {:induction false} PrefixPlaced(log: Log, i: nat)
    requires WellPlaced(log) && i <= |log|
    ensures WellPlaced(log[..i])
    ensures i < |log| ==> log[i].off == End(log[..i]) && |log[i].e.data| <= MAX_VALUE_SIZE
  {
    if i == |log| {
      assert log[..i] == log;
    } else {
      PrefixPlaced(log[..|log| - 1], i);
      assert log[..|log| - 1][..i] == log[..i];
    }
  }

  lemma BoundaryAfter(log: Log, i: nat)
    requires i < |log|
    ensures End(log[..i + 1]) == log[i].off + log[i].e.Size()
  {
  }

  /** Entries do not overlap and stay below the end of the log. */
  lemma {:induction false} Ordered(log: Log, i: nat, j: nat)
    requires WellPlaced(log) && i < j <= |log|
    ensures log[i].off + log[i].e.Size() <= (if j < |log| then log[j].off else End(log))
    decreases j
  {
    PrefixPlaced(log, j);
    if j == |log| {
      assert log[..j] == log;
    }
    if i < j - 1 {
      Ordered(log, i, j - 1);
      PrefixPlaced(log, j - 1);
    }
  }

  /** An offset names at most one entry. */
  lemma SameOffset(log: Log, p: Placed, q: Placed)
    requires WellPlaced(log) && p in log && q in log && p.off == q.off
    ensures p == q
  {
    var i :| 0 <= i < |log| && log[i] == p;
    var j :| 0 <= j < |log| && log[j] == q;
    if i < j {
      Ordered(log, i, j);
    } else if j < i {
      Ordered(log, j, i);
    }
  }

  /** The bytes of entry `i` stand at its offset, whatever follows the log. */
  lemma {:induction false} ImageAt(crc: Crc, log: Log, tail: Bytes, i: nat)
    requires WellPlaced(log) && i < |log|
    ensures log[i].off + log[i].e.Size() <= End(log) && |log[i].e.data| <= MAX_VALUE_SIZE
    ensures (EncodeLog(crc, log) + tail)[log[i].off..log[i].off + log[i].e.Size()] == Encode(crc, log[i].e)
  {
    var n := |log| - 1;
    var file := EncodeLog(crc, log) + tail;
    var rest := Encode(crc, log[n].e) + tail;
    assert file == EncodeLog(crc, log[..n]) + rest;
    if i < n {
      ImageAt(crc, log[..n], rest, i);
    } else {
      assert rest[..log[n].e.Size()] == Encode(crc, log[n].e);
    }
  }

  /** Reading at the offset of an entry returns that entry and the offset of the next. */
  lemma DecodePlaced(crc: Crc, log: Log, tail: Bytes, i: nat)
    requires WellPlaced(log) && i < |log|
    ensures DecodeAt(crc, EncodeLog(crc, log) + tail, log[i].off) == Ok(log[i].e, log[i].off + log[i].e.Size())
  {
    hide *;
    ImageAt(crc, log, tail, i);
    DecodeExact(crc, EncodeLog(crc, log) + tail, log[i].off, log[i].e, log[i].off + log[i].e.Size());
  }

  lemma ReadPlaced(crc: Crc, log: Log, p: Placed)
    requires WellPlaced(log) && p in log
    ensures DecodeAt(crc, EncodeLog(crc, log), p.off) == Ok(p.e, p.off + p.e.Size())
  {
    var i :| 0 <= i < |log| && log[i] == p;
    DecodePlaced(crc, log, [], i);
    assert EncodeLog(crc, log) + [] == EncodeLog(crc, log);
  }

  // -------------------------------------------------------------------- scan

  datatype ScanError = MidFileCorruption | ReadFailed
  datatype ScanResult = Scanned(entries: Log, end: nat) | ScanFailed(error: ScanError)

  function Prepend(log: Log, r: ScanResult): ScanResult {
    match r
    case Scanned(es, end) => Scanned(log + es, end)
    case ScanFailed(_) => r
  }

  /** The entries a scan from `off` visits and the offset it stops at, or its error. */
  function Scan(crc: Crc, file: Bytes, off: nat): (r: ScanResult)
    ensures r.Scanned? && off <= |file| ==> off <= r.end <= |file|
    decreases |file| - off
  {
    if off + ENTRY_HEADER_SIZE > |file| then Scanned([], off)
    else
      match DecodeAt(crc, file, off)
      case Ok(e, next) => Prepend([Placed(off, e)], Scan(crc, file, next))
      case IoError => ScanFailed(ReadFailed)
      case _ =>
        if |file| - off < ENTRY_HEADER_SIZE + 100 * 1024 * 1024 then Scanned([], off)
        else ScanFailed(MidFileCorruption)
  }

  /** `scan_entries`: the loop over offsets, collecting what the callback is shown. */
  method ScanEntries(crc: Crc, file: Bytes, start: nat) returns (r: ScanResult)
    ensures r == Scan(crc, file, start)
  {
    hide DecodeAt, Prepend;
    var offset := start;
    var visited: Log := [];
    PrependTwice([], [], Scan(crc, file, start));
    while offset + ENTRY_HEADER_SIZE <= |file|
      invariant Scan(crc, file, start) == Prepend(visited, Scan(crc, file, offset))
      decreases |file| - offset
    {
      var read := ReadEntryAt(crc, file, offset);
      PrependStops(visited, offset);
      match read
      case Ok(e, next) =>
        PrependTwice(visited, [Placed(offset, e)], Scan(crc, file, next));
        visited := visited + [Placed(offset, e)];
        offset := next;
      case IoError =>
        return ScanFailed(ReadFailed);
      case _ =>
        if |file| - offset < ENTRY_HEADER_SIZE + 100 * 1024 * 1024 {
          return Scanned(visited, offset);
        }
        return ScanFailed(MidFileCorruption);
    }
    PrependStops(visited, offset);
    return Scanned(visited, offset);
  }

  lemma PrependStops(log: Log, end: nat)
    ensures Prepend(log, Scanned([], end)) == Scanned(log, end)
    ensures forall error :: Prepend(log, ScanFailed(error)) == ScanFailed(error)
  {
    assert log + [] == log;
  }

  lemma PrependTwice(a: Log, b: Log, r: ScanResult)
    ensures Prepend(a, Prepend(b, r)) == Prepend(a + b, r)
    ensures Prepend([], r) == r
  {
    if r.Scanned? {
      assert a + (b + r.entries) == a + b + r.entries;
      assert [] + r.entries == r.entries;
    }
  }

  lemma ScanStep(crc: Crc, file: Bytes, off: nat, e: Entry, next: nat)
    requires DecodeAt(crc, file, off) == Ok(e, next)
    ensures Scan(crc, file, off) == Prepend([Placed(off, e)], Scan(crc, file, next))
  {
    hide DecodeAt;
  }

  lemma ScanStops(crc: Crc, file: Bytes, off: nat)
    ensures off + ENTRY_HEADER_SIZE > |file| ==> Scan(crc, file, off) == Scanned([], off)
    ensures off + ENTRY_HEADER_SIZE <= |file| && DecodeAt(crc, file, off).IoError? ==>
              Scan(crc, file, off) == ScanFailed(ReadFailed)
    ensures off + ENTRY_HEADER_SIZE <= |file| && DecodeAt(crc, file, off).CrcMismatch? ==>
              Scan(crc, file, off) ==
              if |file| - off < ENTRY_HEADER_SIZE + 100 * 1024 * 1024 then Scanned([], off)
              else ScanFailed(MidFileCorruption)
  {
    hide DecodeAt;
  }

  lemma ScanLast(crc: Crc, file: Bytes, off: nat, e: Entry)
    requires DecodeAt(crc, file, off) == Ok(e, |file|)
    ensures Scan(crc, file, off) == Scanned([Placed(off, e)], |file|)
  {
    hide DecodeAt, Scan;
    ScanStep(crc, file, off, e, |file|);
    ScanStops(crc, file, |file|);
    assert [Placed(off, e)] + [] == [Placed(off, e)];
  }

  /** From any entry boundary a scan first visits exactly the remaining entries, each at its own offset. */
  lemma {:induction false} ScanFromBoundary(crc: Crc, log: Log, tail: Bytes, i: nat)
    requires WellPlaced(log) && i <= |log|
    ensures Scan(crc, EncodeLog(crc, log) + tail, End(log[..i])) ==
            Prepend(log[i..], Scan(crc, EncodeLog(crc, log) + tail, End(log)))
    decreases |log| - i
  {
    hide *;
    var file := EncodeLog(crc, log) + tail;
    var last := Scan(crc, file, End(log));
    if i == |log| {
      assert log[..i] == log && log[i..] == [];
      PrependTwice([], [], last);
    } else {
      PrefixPlaced(log, i);
      BoundaryAfter(log, i);
      DecodePlaced(crc, log, tail, i);
      ScanStep(crc, file, log[i].off, log[i].e, End(log[..i + 1]));
      ScanFromBoundary(crc, log, tail, i + 1);
      PrependTwice([log[i]], log[i + 1..], last);
      assert Placed(log[i].off, log[i].e) == log[i];
      assert log[i..] == [log[i]] + log[i + 1..];
    }
  }

  /** With nothing after the log the scan ends at the file length. */
  lemma ScanWholeLog(crc: Crc, log: Log, i: nat)
    requires WellPlaced(log) && i <= |log|
    ensures Scan(crc, EncodeLog(crc, log), End(log[..i])) == Scanned(log[i..], End(log))
  {
    ScanFromBoundary(crc, log, [], i);
    assert EncodeLog(crc, log) + [] == EncodeLog(crc, log);
    assert log[i..] + [] == log[i..];
  }

  // -------------------------------------------------------------- torn tails

  /** A complete header that is damaged, or whose data does not have its checksum. */
  predicate Damaged(crc: Crc, file: Bytes, off: nat)
    requires off + ENTRY_HEADER_SIZE <= |file|
  {
    Refused(file, off) || (!Overruns(file, off) && WrongSum(crc, file, off))
  }

  /**
   * The bytes from `off` on are what recovery cuts off: shorter than a header,
   * or a damaged header (magic, codec, size or checksum) within one maximal entry of the end.
   */
  predicate Cuttable(crc: Crc, file: Bytes, off: nat) {
    || off + ENTRY_HEADER_SIZE > |file|
    || (Damaged(crc, file, off) && |file| - off < ENTRY_HEADER_SIZE + 100 * 1024 * 1024)
  }

  lemma DamagedIs(crc: Crc, file: Bytes, off: nat)
    requires off + ENTRY_HEADER_SIZE <= |file|
    ensures Damaged(crc, file, off) <==> DecodeAt(crc, file, off).Corrupt? || DecodeAt(crc, file, off).CrcMismatch?
  {
    hide DecodeAt, Refused, Overruns, WrongSum;
    DecodeVerdict(crc, file, off);
  }

  /**
   * What a scan does at `off`, in terms of the bytes alone: it stops, fails because data runs past the file, fails
   * because damage is too far from the end, cuts there, or goes on behind the entry.
   */
  lemma ScanVerdict(crc: Crc, file: Bytes, off: nat)
    ensures off + 50 > |file| ==> Scan(crc, file, off) == Scanned([], off)
    ensures off + 50 <= |file| ==>
      Scan(crc, file, off) ==
      if Damaged(crc, file, off) then
        (if |file| - off < 50 + 104_857_600 then Scanned([], off) else ScanFailed(MidFileCorruption))
      else if Overruns(file, off) then ScanFailed(ReadFailed)
      else Prepend([Placed(off, EntryAt(file, off))], Scan(crc, file, off + 50 + WordAt(file, off + 46)))
  {
    hide DecodeAt, Refused, Overruns, WrongSum, EntryAt, WordAt;
    DecodeVerdict(crc, file, off);
  }

  /**
   * Arbitrary bytes after a valid log: scanning from any boundary yields the
   * log and its end, so that the file can be cut back to a valid log, if and
   * only if those bytes are cuttable.
   */
  lemma ScanTail(crc: Crc, log: Log, tail: Bytes, i: nat)
    requires WellPlaced(log) && i <= |log|
    ensures var file := EncodeLog(crc, log) + tail;
            Scan(crc, file, End(log[..i])) == Scanned(log[i..], End(log)) <==> Cuttable(crc, file, End(log))
    ensures (EncodeLog(crc, log) + tail)[..End(log)] == EncodeLog(crc, log)
  {
    hide DecodeAt, EncodeLog, WellPlaced, Damaged;
    var file := EncodeLog(crc, log) + tail;
    ScanFromBoundary(crc, log, tail, i);
    if End(log) + ENTRY_HEADER_SIZE <= |file| {
      DamagedIs(crc, file, End(log));
    }
    var last := Scan(crc, file, End(log));
    assert log[i..] + [] == log[i..];
    assert last.Scanned? && last.entries != [] ==> log[i..] + last.entries != log[i..] by {
      if last.Scanned? && last.entries != [] {
        assert |log[i..] + last.entries| > |log[i..]|;
      }
    }
  }

  /** Zero bytes behind a log, as a preallocated or half-synced file has them, are cut off. */
  lemma ZeroTailIsCut(crc: Crc, log: Log, tail: Bytes, i: nat)
    requires WellPlaced(log) && i <= |log| && |tail| < 50 + 104_857_600 && forall n :: 0 <= n < |tail| ==> tail[n] == 0
    ensures Scan(crc, EncodeLog(crc, log) + tail, End(log[..i])) == Scanned(log[i..], End(log))
  {
    hide EncodeLog, WellPlaced, Scan;
    var file := EncodeLog(crc, log) + tail;
    if |tail| >= 50 {
      assert file[End(log)..End(log) + 4][0] == tail[0] == 0;
    }
    ScanTail(crc, log, tail, i);
  }

  /** What `write_entry` has put in the file when it stops after `n` bytes, before the patch. */
  function TornImage(e: Entry, n: nat): Bytes
    requires |e.data| <= MAX_VALUE_SIZE && n <= e.Size()
  {
    Framed(0, Body(e))[..n]
  }

  /** What a scan makes of the image of an append interrupted after `n` bytes, written at `off`. */
  function Torn(crc: Crc, off: nat, e: Entry, n: nat): ScanResult
    requires |e.data| <= MAX_VALUE_SIZE && n <= e.Size()
  {
    if n < ENTRY_HEADER_SIZE then Scanned([], off)
    else if n < e.Size() then ScanFailed(ReadFailed)
    else if crc(Body(e)) == 0 then Scanned([Placed(off, e)], off + e.Size())
    else if |e.data| < MAX_VALUE_SIZE then Scanned([], off)
    else ScanFailed(MidFileCorruption)
  }

  /**
   * An append interrupted after `n` bytes. Reopening restores the log exactly
   * when the header is incomplete, or the image is complete, its true checksum
   * is not zero and its value is below the maximum. The remaining cases are a
   * failed open (data cut short, or a maximal value refused as mid-file
   * corruption) and, for a zero checksum, an entry that is complete already.
   */
  lemma TornAppend(crc: Crc, log: Log, e: Entry, n: nat, i: nat)
    requires WellPlaced(log) && i <= |log| && |e.data| <= MAX_VALUE_SIZE && n <= e.Size()
    ensures Scan(crc, EncodeLog(crc, log) + TornImage(e, n), End(log[..i])) ==
            Prepend(log[i..], Torn(crc, End(log), e, n))
  {
    hide *;
    ScanFromBoundary(crc, log, TornImage(e, n), i);
    ScanTorn(crc, EncodeLog(crc, log), e, n);
  }

  /** The scan at the interrupted append itself. */
  lemma ScanTorn(crc: Crc, prefix: Bytes, e: Entry, n: nat)
    requires |e.data| <= MAX_VALUE_SIZE && n <= e.Size()
    ensures Scan(crc, prefix + TornImage(e, n), |prefix|) == Torn(crc, |prefix|, e, n)
  {
    hide DecodeAt, Framed, Body, Scan;
    var file, off := prefix + TornImage(e, n), |prefix|;
    ScanStops(crc, file, off);
    if n == e.Size() {
      assert file[off..off + e.Size()] == Framed(0, Body(e));
      DecodeFramed(crc, file, off, 0, e);
      if crc(Body(e)) == 0 {
        ScanLast(crc, file, off, e);
      }
    } else if n >= ENTRY_HEADER_SIZE {
      assert file[off..] == TornImage(e, n);
      TornHeader(crc, file, off, e, n);
    }
  }

  /** A complete header whose data is cut short is an I/O error, not corruption. */
  lemma TornHeader(crc: Crc, file: Bytes, off: nat, e: Entry, n: nat)
    requires |e.data| <= MAX_VALUE_SIZE && ENTRY_HEADER_SIZE <= n < e.Size()
    requires |file| == off + n && file[off..] == TornImage(e, n)
    ensures DecodeAt(crc, file, off) == IoError
  {
    hide Framed, Body, DecodeHeader;
    HeaderDecodes(0, e);
    assert file[off..off + 50] == file[off..][..50] == Framed(0, Body(e))[..50];
  }
}
