/** The write-ahead log of the memory database: one JSON line per committed entry (wal.rs). */
module Wal {
  import opened Words
  import opened Lines

  /** A JSON value, by its text. */
  type Json = string
  datatype Op =
    | Insert(collection: string, key: string, value: Json)
    | Upsert(collection: string, key: string, value: Json)
    | Delete(collection: string, key: string)
  datatype WalEntry = WalEntry(seqNo: nat, ops: seq<Op>)

  // ---------------------------------------------------------------- lines

  /** The JSON writer and reader of one entry. Reading ignores white space around the entry. */
  datatype Codec = Codec(show: WalEntry -> Bytes, parse: Bytes -> Option<WalEntry>)

  /** An entry is written as one JSON object: it reads back, and nothing less than one object, or more, does. */
  ghost predicate Faithful(c: Codec) {
    && (forall e :: c.parse(c.show(e)) == Some(e))
    && (forall e :: c.show(e) != [] && ValidUtf8(c.show(e)) && NEWLINE !in c.show(e))
    && (forall e, n: nat :: n < |c.show(e)| ==> c.parse(c.show(e)[..n]) == None)
    && (forall e, d, n: nat :: 0 < n <= |c.show(e)| ==> c.parse(c.show(e)[..n] + c.show(d)) == None)
  }

  function Line(c: Codec, e: WalEntry): Bytes {
    c.show(e) + [NEWLINE]
  }

  function Text(c: Codec, es: seq<WalEntry>): Bytes {
    if es == [] then [] else Line(c, es[0]) + Text(c, es[1..])
  }

  function Kept(c: Codec, line: Bytes, after: nat): seq<WalEntry> {
    match c.parse(line)
    case Some(e) => if e.seqNo > after then [e] else []
    case None => []
  }

  function Join(a: seq<WalEntry>, r: Option<seq<WalEntry>>): Option<seq<WalEntry>> {
    match r
    case Some(es) => Some(a + es)
    case None => None
  }

  function Rest(b: Bytes, n: nat): (r: Bytes)
    ensures b != [] ==> |r| < |b|
  {
    if n < |b| then b[n + 1..] else []
  }

  /**
   * What reading the log gives: a line that is not an entry is skipped, a line that is not text is an error.
   */
  function Read(c: Codec, b: Bytes, after: nat): Option<seq<WalEntry>>
    decreases |b|
  {
    if b == [] then Some([]) else
      var n := LineEnd(b);
      if !ValidUtf8(b[..n]) then None
      else Join(Kept(c, b[..n], after), Read(c, Rest(b, n), after))
  }

  lemma ReadStep(c: Codec, b: Bytes, after: nat)
    requires b != []
    ensures Read(c, b, after) ==
      if !ValidUtf8(b[..LineEnd(b)]) then None
      else Join(Kept(c, b[..LineEnd(b)], after), Read(c, Rest(b, LineEnd(b)), after))
  {
  }

  lemma ReadNothing(c: Codec, after: nat)
    ensures Read(c, [], after) == Some([])
  {
  }

  lemma JoinNothing(r: Option<seq<WalEntry>>)
    ensures Join([], r) == r
  {
    if r.Some? {
      assert [] + r.value == r.value;
    }
  }

  lemma JoinTwice(a: seq<WalEntry>, b: seq<WalEntry>, r: Option<seq<WalEntry>>)
    ensures Join(a, Join(b, r)) == Join(a + b, r)
  {
    if r.Some? {
      assert a + (b + r.value) == a + b + r.value;
    }
  }

  /** Read all entries with a number above `after`, line by line. */
  method ReadAfter(c: Codec, b: Bytes, after: nat) returns (r: Option<seq<WalEntry>>)
    ensures r == Read(c, b, after)
  {
    hide Read, LineEnd, Decoder;
    var entries: seq<WalEntry>, pos := [], 0;
    assert b[0..] == b;
    JoinNothing(Read(c, b, after));
    while pos < |b|
      invariant pos <= |b|
      invariant Read(c, b, after) == Join(entries, Read(c, b[pos..], after))
    {
      var n := FindNewline(b, pos);
      var line := b[pos..n];
      assert b[pos..][..n - pos] == line;
      ReadStep(c, b[pos..], after);
      if !ValidUtf8(line) {
        return None;
      }
      ghost var before, start := entries, pos;
      match c.parse(line) {
        case Some(e) =>
          if e.seqNo > after {
            entries := entries + [e];
          }
        case None =>
      }
      assert entries == before + Kept(c, line, after);
      pos := if n < |b| then n + 1 else n;
      assert Rest(b[start..], n - start) == b[pos..];
      JoinTwice(before, Kept(c, line, after), Read(c, b[pos..], after));
    }
    ReadNothing(c, after);
    assert b[pos..] == [] && entries + [] == entries;
    r := Some(entries);
  }

  // ---------------------------------------------------------------- reading back what was written

  function After(es: seq<WalEntry>, after: nat): seq<WalEntry> {
    if es == [] then [] else (if es[0].seqNo > after then [es[0]] else []) + After(es[1..], after)
  }

  lemma AfterOne(e: WalEntry, after: nat)
    ensures After([e], after) == if e.seqNo > after then [e] else []
  {
    assert After([e], after) == (if e.seqNo > after then [e] else []) + After([], after);
  }

  lemma {:induction false} AfterConcat(a: seq<WalEntry>, b: seq<WalEntry>, after: nat)
    ensures After(a + b, after) == After(a, after) + After(b, after)
  {
    if a == [] {
      assert a + b == b;
    } else {
      AfterConcat(a[1..], b, after);
      assert (a + b)[1..] == a[1..] + b;
      assert (a + b)[0] == a[0];
      var head := if a[0].seqNo > after then [a[0]] else [];
      assert head + (After(a[1..], after) + After(b, after)) == head + After(a[1..], after) + After(b, after);
    }
  }

  lemma {:induction false} TextConcat(c: Codec, a: seq<WalEntry>, b: seq<WalEntry>)
    ensures Text(c, a + b) == Text(c, a) + Text(c, b)
  {
    if a == [] {
      assert a + b == b;
    } else {
      TextConcat(c, a[1..], b);
      assert (a + b)[1..] == a[1..] + b;
      assert Line(c, a[0]) + (Text(c, a[1..]) + Text(c, b)) == Line(c, a[0]) + Text(c, a[1..]) + Text(c, b);
    }
  }

  lemma TextOne(c: Codec, e: WalEntry)
    ensures Text(c, [e]) == Line(c, e)
  {
    assert Text(c, [e]) == Line(c, e) + Text(c, []);
  }

  /** A line up to its newline is read by itself. */
  lemma ReadLine(c: Codec, line: Bytes, rest: Bytes, after: nat)
    requires NEWLINE !in line && ValidUtf8(line)
    ensures Read(c, line + [NEWLINE] + rest, after) == Join(Kept(c, line, after), Read(c, rest, after))
  {
    var b := line + [NEWLINE] + rest;
    assert b == line + ([NEWLINE] + rest);
    LineEndAt(line, [NEWLINE] + rest);
    assert b[..|line|] == line;
    assert Rest(b, |line|) == rest;
    ReadStep(c, b, after);
  }

  /** A last line without newline is read too. */
  lemma ReadLast(c: Codec, line: Bytes, after: nat)
    requires NEWLINE !in line && line != []
    ensures Read(c, line, after) == if ValidUtf8(line) then Some(Kept(c, line, after)) else None
  {
    LineEndAt(line, []);
    assert line + [] == line && line[..|line|] == line && Rest(line, |line|) == [];
    ReadStep(c, line, after);
    ReadNothing(c, after);
    assert Kept(c, line, after) + [] == Kept(c, line, after);
  }

  lemma ReadEntry(c: Codec, e: WalEntry, rest: Bytes, after: nat)
    requires Faithful(c)
    ensures Read(c, Line(c, e) + rest, after) == Join(After([e], after), Read(c, rest, after))
  {
    hide Read, Join, After;
    ReadLine(c, c.show(e), rest, after);
    AfterOne(e, after);
  }

  /** Every whole line written is read back, in order, before whatever follows. */
  lemma {:induction false} ReadText(c: Codec, es: seq<WalEntry>, rest: Bytes, after: nat)
    requires Faithful(c)
    ensures Read(c, Text(c, es) + rest, after) == Join(After(es, after), Read(c, rest, after))
  {
    hide Read, Faithful, Line;
    if es == [] {
      assert Text(c, es) + rest == rest;
      JoinNothing(Read(c, rest, after));
    } else {
      ReadText(c, es[1..], rest, after);
      var tail := Text(c, es[1..]) + rest;
      assert Text(c, es) + rest == Line(c, es[0]) + tail;
      ReadEntry(c, es[0], tail, after);
      JoinTwice(After([es[0]], after), After(es[1..], after), Read(c, rest, after));
      AfterConcat([es[0]], es[1..], after);
      assert es == [es[0]] + es[1..];
    }
  }

  // ---------------------------------------------------------------- interrupted writes

  /** How many whole lines of `todo` the first `cut` bytes of its text hold. */
  function WholeLines(c: Codec, todo: seq<WalEntry>, cut: nat): (j: nat)
    ensures j <= |todo|
  {
    if todo == [] || cut < |Line(c, todo[0])| then 0
    else 1 + WholeLines(c, todo[1..], cut - |Line(c, todo[0])|)
  }

  /** How many bytes follow the last whole line. */
  function Leftover(c: Codec, todo: seq<WalEntry>, cut: nat): (m: nat)
    requires cut <= |Text(c, todo)|
    ensures m > 0 ==>
      WholeLines(c, todo, cut) < |todo| && m <= |c.show(todo[WholeLines(c, todo, cut)])|
  {
    if todo == [] then 0
    else if cut < |Line(c, todo[0])| then cut
    else Leftover(c, todo[1..], cut - |Line(c, todo[0])|)
  }

  /** The bytes after the last whole line: a beginning of the next entry. */
  function Stub(c: Codec, todo: seq<WalEntry>, cut: nat): Bytes
    requires cut <= |Text(c, todo)|
  {
    var m := Leftover(c, todo, cut);
    if m == 0 then [] else c.show(todo[WholeLines(c, todo, cut)])[..m]
  }

  lemma {:induction false} CutText(c: Codec, todo: seq<WalEntry>, cut: nat)
    requires cut <= |Text(c, todo)|
    ensures Text(c, todo)[..cut] == Text(c, todo[..WholeLines(c, todo, cut)]) + Stub(c, todo, cut)
  {
    if todo == [] {
    } else if cut < |Line(c, todo[0])| {
      assert todo[..0] == [];
      assert Text(c, todo)[..cut] == Line(c, todo[0])[..cut] == c.show(todo[0])[..cut];
    } else {
      var k := |Line(c, todo[0])|;
      CutText(c, todo[1..], cut - k);
      var j := WholeLines(c, todo[1..], cut - k);
      assert Text(c, todo)[..cut] == Line(c, todo[0]) + Text(c, todo[1..])[..cut - k];
      assert todo[..1 + j] == [todo[0]] + todo[1..][..j];
      assert todo[..1 + j][1..] == todo[1..][..j];
      assert Line(c, todo[0]) + (Text(c, todo[1..][..j]) + Stub(c, todo[1..], cut - k))
          == Line(c, todo[0]) + Text(c, todo[1..][..j]) + Stub(c, todo[1..], cut - k);
    }
  }

  /** The cut falls inside a character of the text. */
  predicate SplitsCharacter(c: Codec, todo: seq<WalEntry>, cut: nat)
    requires cut <= |Text(c, todo)|
  {
    var m, j := Leftover(c, todo, cut), WholeLines(c, todo, cut);
    0 < m && m < |c.show(todo[j])| && Continuation(c.show(todo[j])[m])
  }

  /** Entries whose JSON is wholly on disk, with or without their newline. */
  function Landed(c: Codec, todo: seq<WalEntry>, cut: nat): (n: nat)
    requires cut <= |Text(c, todo)|
    ensures n <= |todo|
  {
    var m, j := Leftover(c, todo, cut), WholeLines(c, todo, cut);
    if 0 < m && m == |c.show(todo[j])| then j + 1 else j
  }

  lemma ReadStub(c: Codec, e: WalEntry, m: nat, after: nat)
    requires Faithful(c) && 0 < m <= |c.show(e)|
    ensures Read(c, c.show(e)[..m], after) ==
      if m < |c.show(e)| && Continuation(c.show(e)[m]) then None
      else if m == |c.show(e)| then Some(After([e], after)) else Some([])
  {
    hide Read, Decoder, After;
    var p := c.show(e)[..m];
    ReadLast(c, p, after);
    if m < |c.show(e)| {
      CutUtf8(c.show(e), m);
    } else {
      assert p == c.show(e);
      AfterOne(e, after);
    }
  }

  /**
   * A write of `todo` after the lines `es` cut short anywhere: the log opens exactly when the cut is not
   * inside a character, and then holds each entry of `todo` wholly or not at all, the first ones first.
   */
  lemma ReadInterrupted(c: Codec, es: seq<WalEntry>, todo: seq<WalEntry>, cut: nat, after: nat)
    requires Faithful(c) && cut <= |Text(c, todo)|
    ensures Read(c, Text(c, es) + Text(c, todo)[..cut], after) ==
      if SplitsCharacter(c, todo, cut) then None
      else Some(After(es + todo[..Landed(c, todo, cut)], after))
  {
    hide Read, Faithful, Text, After, WholeLines;
    var j, m := WholeLines(c, todo, cut), Leftover(c, todo, cut);
    var whole, stub := es + todo[..j], Stub(c, todo, cut);
    CutText(c, todo, cut);
    TextConcat(c, es, todo[..j]);
    assert Text(c, es) + (Text(c, todo[..j]) + stub) == Text(c, whole) + stub;
    ReadText(c, whole, stub, after);
    if m == 0 {
      ReadNothing(c, after);
      assert After(whole, after) + [] == After(whole, after);
    } else {
      ReadStub(c, todo[j], m, after);
      AfterConcat(whole, [todo[j]], after);
      assert whole + [todo[j]] == es + todo[..j + 1];
      assert After(whole, after) + [] == After(whole, after);
    }
  }

  /** The line made of a beginning of one entry and a whole other entry is text, but no entry. */
  lemma ReadJoined(c: Codec, e: WalEntry, m: nat, d: WalEntry, rest: Bytes, after: nat)
    requires Faithful(c) && 0 < m <= |c.show(e)| && ValidUtf8(c.show(e)[..m])
    ensures Read(c, c.show(e)[..m] + Line(c, d) + rest, after) == Read(c, rest, after)
  {
    hide Read, Decoder;
    var line := c.show(e)[..m] + c.show(d);
    DecoderConcat(c.show(e)[..m], c.show(d));
    ReadLine(c, line, rest, after);
    assert c.show(e)[..m] + Line(c, d) + rest == line + [NEWLINE] + rest;
    assert Kept(c, line, after) == [];
    JoinNothing(Read(c, rest, after));
  }

  /**
   * Writing `d` and then `later` to a log that ends in the first `m` bytes of an interrupted entry `e`:
   * all of it is read back exactly when no such bytes were there; otherwise `d` is lost, and `e` with it
   * even when `e` was whole.
   */
  lemma WriteAfterInterruption(c: Codec, es: seq<WalEntry>, e: WalEntry, m: nat, d: WalEntry,
                               later: seq<WalEntry>, after: nat)
    requires Faithful(c) && m <= |c.show(e)| && ValidUtf8(c.show(e)[..m])
    ensures Read(c, Text(c, es) + c.show(e)[..m] + Text(c, [d] + later), after) ==
      Some(After(es + (if m == 0 then [d] else []) + later, after))
  {
    hide Read, Faithful, Text, After, ValidUtf8;
    var stub := c.show(e)[..m];
    var tail := Text(c, later);
    TextConcat(c, [d], later);
    TextOne(c, d);
    ReadText(c, later, [], after);
    ReadNothing(c, after);
    assert tail + [] == tail;
    assert After(later, after) + [] == After(later, after);
    assert Text(c, es) + stub + Text(c, [d] + later) == Text(c, es) + (stub + Line(c, d) + tail);
    ReadText(c, es, stub + Line(c, d) + tail, after);
    AfterConcat(es + (if m == 0 then [d] else []), later, after);
    if m == 0 {
      assert stub + Line(c, d) + tail == Line(c, d) + tail;
      ReadEntry(c, d, tail, after);
      AfterConcat(es, [d], after);
      JoinTwice(After(es, after), After([d], after), Some(After(later, after)));
    } else {
      ReadJoined(c, e, m, d, tail, after);
      assert es + [] == es;
    }
  }
}
