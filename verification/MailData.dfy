/** Receiving the text of a mail: line by line, with the dots of section 4.5.2 of RFC 5321 (server.rs). */
module MailData {
  import opened Lines
  import opened Words

  const MAX_MAIL_SIZE := 50 * 1024 * 1024
  const DOT: byte := 46
  const TERMINATOR: Bytes := [46, 13, 10]

  /** The bytes of the white-space character at the front; 0 when there is none. */
  function SpaceAt(b: Bytes): (n: nat)
    ensures n <= |b|
  {
    if |b| >= 1 && (b[0] == 0x20 || 0x09 <= b[0] <= 0x0D) then 1
    else if |b| >= 2 && b[0] == 0xC2 && (b[1] == 0x85 || b[1] == 0xA0) then 2
    else if |b| >= 3 && (
      || (b[0] == 0xE1 && b[1] == 0x9A && b[2] == 0x80)
      || (b[0] == 0xE2 && b[1] == 0x80
          && (0x80 <= b[2] <= 0x8A || b[2] == 0xA8 || b[2] == 0xA9 || b[2] == 0xAF))
      || (b[0] == 0xE2 && b[1] == 0x81 && b[2] == 0x9F)
      || (b[0] == 0xE3 && b[1] == 0x80 && b[2] == 0x80)) then 3
    else 0
  }

  function SkipSpaces(b: Bytes): (r: Bytes)
    ensures |r| <= |b|
    decreases |b|
  {
    if SpaceAt(b) == 0 then b else SkipSpaces(b[SpaceAt(b)..])
  }

  /** With the white space at both ends taken off, the line is a single dot. */
  predicate DotLine(line: Bytes) {
    var s := SkipSpaces(line);
    s != [] && s[0] == DOT && SkipSpaces(s[1..]) == []
  }

  /** The first line with its newline, or what there is when no newline follows. */
  function LineLength(b: Bytes): (n: nat)
    ensures n <= |b| && (b != [] ==> n > 0)
  {
    if LineEnd(b) < |b| then LineEnd(b) + 1 else |b|
  }

  function Unstuff(line: Bytes): Bytes {
    if |line| >= 2 && line[0] == DOT && line[1] == DOT then line[1..] else line
  }

  datatype Received =
    | Mail(data: Bytes, rest: Bytes)
    | TooBig(rest: Bytes)
    | NotText

  /** What is received from the bytes `b` of the connection when `total` bytes came before. */
  function Receive(b: Bytes, total: nat): Received
    decreases |b|
  {
    if b == [] then Mail([], []) else
      var n := LineLength(b);
      if !ValidUtf8(b[..n]) then NotText
      else if total + n > MAX_MAIL_SIZE then TooBig(b[n..])
      else if DotLine(b[..n]) then Mail([], b[n..])
      else Before(Unstuff(b[..n]), Receive(b[n..], total + n))
  }

  function Before(line: Bytes, r: Received): Received {
    if r.Mail? then Mail(line + r.data, r.rest) else r
  }

  lemma ReceiveStep(b: Bytes, total: nat)
    requires b != []
    ensures var n := LineLength(b);
      Receive(b, total) ==
      if !ValidUtf8(b[..n]) then NotText
      else if total + n > MAX_MAIL_SIZE then TooBig(b[n..])
      else if DotLine(b[..n]) then Mail([], b[n..])
      else Before(Unstuff(b[..n]), Receive(b[n..], total + n))
  {
  }

  lemma ReceiveNothing(total: nat)
    ensures Receive([], total) == Mail([], [])
  {
  }

  lemma BeforeTwice(a: Bytes, b: Bytes, r: Received)
    ensures Before(a, Before(b, r)) == Before(a + b, r)
  {
    if r.Mail? {
      assert a + (b + r.data) == a + b + r.data;
    }
  }

  lemma BeforeNothing(r: Received)
    ensures Before([], r) == r
  {
    if r.Mail? {
      assert [] + r.data == r.data;
    }
  }

  /** Read the mail line by line from the connection. */
  method ReadData(b: Bytes) returns (r: Received)
    ensures r == Receive(b, 0)
    ensures r.Mail? ==> |r.data| <= MAX_MAIL_SIZE
  {
    hide Receive, ValidUtf8, DotLine, LineEnd;
    var data: Bytes, pos, total := [], 0, 0;
    assert b[0..] == b;
    BeforeNothing(Receive(b, 0));
    while pos < |b|
      invariant pos <= |b| && |data| <= total <= MAX_MAIL_SIZE
      invariant Receive(b, 0) == Before(data, Receive(b[pos..], total))
    {
      var end := FindNewline(b, pos);
      var next := if end < |b| then end + 1 else end;
      var line := b[pos..next];
      assert b[pos..][..next - pos] == line && b[pos..][next - pos..] == b[next..];
      ReceiveStep(b[pos..], total);
      if !ValidUtf8(line) {
        return NotText;
      }
      total := total + |line|;
      if total > MAX_MAIL_SIZE {
        return TooBig(b[next..]);
      }
      if DotLine(line) {
        assert data + [] == data;
        return Mail(data, b[next..]);
      }
      BeforeTwice(data, Unstuff(line), Receive(b[next..], total));
      data := data + Unstuff(line);
      pos := next;
    }
    assert b[pos..] == [] && data + [] == data;
    ReceiveNothing(total);
    r := Mail(data, []);
  }

  // ---------------------------------------------------------------- dot stuffing

  /** A message, as the lines it is made of. */
  predicate IsLine(line: Bytes) {
    line != [] && line[|line| - 1] == NEWLINE && NEWLINE !in line[..|line| - 1]
  }

  predicate AreLines(lines: seq<Bytes>) {
    forall i :: 0 <= i < |lines| ==> IsLine(lines[i])
  }

  function Message(lines: seq<Bytes>): Bytes {
    if lines == [] then [] else lines[0] + Message(lines[1..])
  }

  function StuffLine(line: Bytes): Bytes {
    if line != [] && line[0] == DOT then [DOT] + line else line
  }

  /** What a sender puts on the wire for the lines. */
  function Stuff(lines: seq<Bytes>): Bytes {
    if lines == [] then [] else StuffLine(lines[0]) + Stuff(lines[1..])
  }

  /** The line is text, and the receiver does not take it for the end: a leading dot is stuffed. */
  predicate Sendable(line: Bytes) {
    ValidUtf8(line) && ((line != [] && line[0] == DOT) || !DotLine(line))
  }

  predicate AllSendable(lines: seq<Bytes>) {
    forall i :: 0 <= i < |lines| ==> Sendable(lines[i])
  }

  lemma StuffedIsLine(line: Bytes)
    requires IsLine(line)
    ensures IsLine(StuffLine(line))
  {
    var s := StuffLine(line);
    assert line[0] == DOT ==> s[..|s| - 1] == [DOT] + line[..|line| - 1];
  }

  lemma LineFirst(line: Bytes, rest: Bytes)
    requires IsLine(line)
    ensures LineLength(line + rest) == |line|
    ensures (line + rest)[..|line|] == line && (line + rest)[|line|..] == rest
  {
    var body := line[..|line| - 1];
    assert line + rest == body + ([NEWLINE] + rest);
    LineEndAt(body, [NEWLINE] + rest);
  }

  lemma DecoderAscii(b: byte, rest: Bytes)
    requires b < 0x80
    ensures ValidUtf8([b] + rest) <==> ValidUtf8(rest)
  {
    assert Decoder([b]) == Next(Decoder([]), b) by { assert [b][..0] == []; }
    DecoderConcat([b], rest);
  }

  lemma NotSpace(b: Bytes)
    requires b != [] && b[0] == DOT
    ensures SkipSpaces(b) == b
  {
  }

  /** A stuffed line is undone by the receiver, and is the end only if white space hid the dot from the sender. */
  lemma UnstuffStuffed(line: Bytes)
    requires IsLine(line)
    ensures Unstuff(StuffLine(line)) == line
    ensures ValidUtf8(StuffLine(line)) && !DotLine(StuffLine(line)) <==> Sendable(line)
  {
    hide Decoder;
    if line[0] == DOT {
      DecoderAscii(DOT, line);
      NotSpace([DOT] + line);
      NotSpace(line);
      assert ([DOT] + line)[1..] == line;
    }
  }

  lemma ReceiveLine(line: Bytes, rest: Bytes, total: nat)
    requires IsLine(line)
    ensures Receive(line + rest, total) ==
      if !ValidUtf8(line) then NotText
      else if total + |line| > MAX_MAIL_SIZE then TooBig(rest)
      else if DotLine(line) then Mail([], rest)
      else Before(Unstuff(line), Receive(rest, total + |line|))
  {
    hide *;
    LineFirst(line, rest);
    LineNonEmpty(line);
    ReceiveStep(line + rest, total);
  }

  lemma LineNonEmpty(line: Bytes)
    requires IsLine(line)
    ensures line != []
  {
  }

  lemma ReceiveEnd(rest: Bytes, total: nat)
    ensures Receive(TERMINATOR + rest, total) ==
      if total + 3 > MAX_MAIL_SIZE then TooBig(rest) else Mail([], rest)
  {
    hide Receive;
    assert IsLine(TERMINATOR);
    ReceiveLine(TERMINATOR, rest, total);
    DotTerminator();
    assert ValidUtf8(TERMINATOR) by {
      assert TERMINATOR == [46] + ([13] + ([10] + []));
      DecoderAscii(46, [13] + ([10] + []));
      DecoderAscii(13, [10] + []);
      DecoderAscii(10, []);
    }
  }

  lemma DotTerminator()
    ensures DotLine(TERMINATOR)
  {
    NotSpace(TERMINATOR);
    assert TERMINATOR[1..] == [13, 10];
    assert SpaceAt([13, 10]) == 1 && [13, 10][1..] == [10];
    assert SpaceAt([10]) == 1 && [10][1..] == [];
  }

  /** The mail arrives whole, and the connection is left where the next command starts. */
  predicate Arrives(lines: seq<Bytes>, rest: Bytes, total: nat) {
    Receive(Stuff(lines) + TERMINATOR + rest, total) == Mail(Message(lines), rest)
  }

  lemma ArrivesStep(lines: seq<Bytes>, rest: Bytes, total: nat)
    requires AreLines(lines) && lines != []
    ensures Arrives(lines, rest, total) <==>
      && Sendable(lines[0])
      && total + |StuffLine(lines[0])| <= MAX_MAIL_SIZE
      && Arrives(lines[1..], rest, total + |StuffLine(lines[0])|)
  {
    hide Receive, ValidUtf8, DotLine;
    var line := StuffLine(lines[0]);
    var tail := Stuff(lines[1..]) + TERMINATOR + rest;
    assert Stuff(lines) + TERMINATOR + rest == line + tail;
    StuffedIsLine(lines[0]);
    ReceiveLine(line, tail, total);
    UnstuffStuffed(lines[0]);
    var r := Receive(tail, total + |line|);
    if r.Mail? {
      CancelFront(lines[0], r.data, Message(lines[1..]));
    }
    assert |tail| > |rest|;
  }

  lemma CancelFront(a: Bytes, b: Bytes, c: Bytes)
    ensures a + b == a + c <==> b == c
  {
    if a + b == a + c {
      assert b == (a + b)[|a|..] == (a + c)[|a|..] == c;
    }
  }

  lemma SendableStep(lines: seq<Bytes>)
    requires lines != []
    ensures AllSendable(lines) <==> Sendable(lines[0]) && AllSendable(lines[1..])
    ensures |Stuff(lines)| == |StuffLine(lines[0])| + |Stuff(lines[1..])|
  {
    hide Sendable, StuffLine;
    assert lines == [lines[0]] + lines[1..];
  }

  lemma SendableNone()
    ensures AllSendable([]) && Stuff([]) == []
  {
  }

  lemma {:induction false} ArrivesExactly(lines: seq<Bytes>, rest: Bytes, total: nat)
    requires AreLines(lines)
    ensures Arrives(lines, rest, total)
       <==> AllSendable(lines) && total + |Stuff(lines)| + |TERMINATOR| <= MAX_MAIL_SIZE
  {
    hide Sendable, AllSendable, IsLine, Arrives, StuffLine;
    if lines == [] {
      SendableNone();
      ArrivesNone(rest, total);
    } else {
      ArrivesStep(lines, rest, total);
      ArrivesExactly(lines[1..], rest, total + |StuffLine(lines[0])|);
      SendableStep(lines);
    }
  }

  lemma ArrivesNone(rest: Bytes, total: nat)
    ensures Arrives([], rest, total) <==> total + |TERMINATOR| <= MAX_MAIL_SIZE
  {
    hide Receive;
    assert Stuff([]) + TERMINATOR + rest == TERMINATOR + rest;
    ReceiveEnd(rest, total);
  }

  /**
   * Receiving undoes dot stuffing and stops just after the terminator exactly when every line is text, no
   * line that starts with white space is a lone dot, and the stuffed mail with its terminator is within 50 MiB.
   */
  lemma ReceiveUndoesStuffing(lines: seq<Bytes>, rest: Bytes)
    requires AreLines(lines)
    ensures Receive(Stuff(lines) + TERMINATOR + rest, 0) == Mail(Message(lines), rest)
       <==> AllSendable(lines) && |Stuff(lines)| + |TERMINATOR| <= MAX_MAIL_SIZE
  {
    hide Receive, AllSendable;
    ArrivesExactly(lines, rest, 0);
  }

  /** A lone dot after a blank ends the mail early: what follows is left for the command reader. */
  lemma BlankDotEndsMail(rest: Bytes)
    ensures Receive([0x20] + TERMINATOR + rest, 0) == Mail([], rest)
  {
    hide Receive;
    var line := [0x20] + TERMINATOR;
    assert line == [0x20, 46, 13, 10] && line[..3] == [0x20, 46, 13];
    ReceiveLine(line, rest, 0);
    DotTerminator();
    assert line[1..] == TERMINATOR && SpaceAt(line) == 1;
    assert ValidUtf8(line) by {
      DecoderAscii(0x20, TERMINATOR);
      DecoderAscii(46, [13, 10]);
      DecoderAscii(13, [10]);
      DecoderAscii(10, []);
      assert TERMINATOR == [46] + [13, 10] && [13, 10] == [13] + [10] && [10] == [10] + [];
    }
  }
}
