/** A connection that closes before the end of a mail (server.rs). */
module CutMail {
  import opened Lines
  import opened Words
  import opened MailData

  /** What a sender puts on the wire for a whole mail. */
  function Wire(lines: seq<Bytes>): Bytes {
    Stuff(lines) + TERMINATOR
  }

  /** How many stuffed lines lie whole within the first `n` bytes. */
  function WholeLines(lines: seq<Bytes>, n: nat): (j: nat)
    ensures j <= |lines|
  {
    if lines == [] || n < |StuffLine(lines[0])| then 0
    else 1 + WholeLines(lines[1..], n - |StuffLine(lines[0])|)
  }

  /** The bytes of the line that was cut: of a line of the mail or of the terminator. */
  function Stub(lines: seq<Bytes>, n: nat): Bytes
    requires n < |Wire(lines)|
  {
    if lines == [] then TERMINATOR[..n]
    else if n < |StuffLine(lines[0])| then StuffLine(lines[0])[..n]
    else Stub(lines[1..], n - |StuffLine(lines[0])|)
  }

  /** What the receiver keeps of a stub: nothing if it takes it for the end. */
  function Kept(stub: Bytes): Bytes {
    if DotLine(stub) then [] else Unstuff(stub)
  }

  /** What a cut mail delivers. */
  function Delivered(lines: seq<Bytes>, n: nat): Bytes
    requires n < |Wire(lines)|
  {
    Message(lines[..WholeLines(lines, n)]) + Kept(Stub(lines, n))
  }

  // ---------------------------------------------------------------- one line

  lemma WireStep(lines: seq<Bytes>, n: nat)
    requires lines != [] && |StuffLine(lines[0])| <= n < |Wire(lines)|
    ensures var m := |StuffLine(lines[0])|;
      && n - m < |Wire(lines[1..])|
      && Wire(lines)[..n] == StuffLine(lines[0]) + Wire(lines[1..])[..n - m]
      && Wire(lines)[n] == Wire(lines[1..])[n - m]
      && Stub(lines, n) == Stub(lines[1..], n - m)
      && WholeLines(lines, n) == 1 + WholeLines(lines[1..], n - m)
      && lines[..WholeLines(lines, n)] == [lines[0]] + lines[1..][..WholeLines(lines[1..], n - m)]
  {
    hide StuffLine;
    assert Wire(lines) == StuffLine(lines[0]) + Wire(lines[1..]);
  }

  lemma WireStart(lines: seq<Bytes>, n: nat)
    requires n < |Wire(lines)| && (lines != [] ==> n < |StuffLine(lines[0])|)
    ensures Stub(lines, n) == Wire(lines)[..n] && WholeLines(lines, n) == 0
    ensures lines[..WholeLines(lines, n)] == [] && (lines == [] ==> n < |TERMINATOR|)
    ensures Wire(lines)[n] == (if lines == [] then TERMINATOR else StuffLine(lines[0]))[n]
  {
    hide StuffLine;
    if lines == [] {
      assert Wire(lines) == TERMINATOR;
    } else {
      assert Wire(lines) == StuffLine(lines[0]) + (Stuff(lines[1..]) + TERMINATOR);
    }
  }

  lemma StubIsOpen(lines: seq<Bytes>, n: nat)
    requires AreLines(lines) && n < |Wire(lines)| && (lines != [] ==> n < |StuffLine(lines[0])|)
    ensures NEWLINE !in Stub(lines, n)
  {
    if lines != [] {
      StuffedIsLine(lines[0]);
    }
  }

  /** The last line of a closed connection has no newline and is handled like any other. */
  lemma ReceiveStub(stub: Bytes, total: nat)
    requires NEWLINE !in stub
    ensures Receive(stub, total) ==
      if stub == [] then Mail([], [])
      else if !ValidUtf8(stub) then NotText
      else if total + |stub| > MAX_MAIL_SIZE then TooBig([])
      else Mail(Kept(stub), [])
  {
    hide Receive, ValidUtf8, DotLine, LineEnd;
    if stub == [] {
      ReceiveNothing(total);
    } else {
      LineEndAt(stub, []);
      assert stub + [] == stub;
      assert stub[..|stub|] == stub && stub[|stub|..] == [];
      ReceiveStep(stub, total);
      ReceiveNothing(total + |stub|);
      assert Unstuff(stub) + [] == Unstuff(stub);
    }
  }

  lemma KeptNothing()
    ensures Kept([]) == [] && ValidUtf8([])
  {
  }

  lemma MessageFront(line: Bytes, lines: seq<Bytes>)
    ensures Message([line] + lines) == line + Message(lines)
  {
    assert ([line] + lines)[1..] == lines;
  }

  /** The front line of a cut mail is received as it would be from the whole one. */
  lemma ReceiveFront(lines: seq<Bytes>, n: nat, total: nat)
    requires AreLines(lines) && lines != [] && |StuffLine(lines[0])| <= n < |Wire(lines)|
    ensures n - |StuffLine(lines[0])| < |Wire(lines[1..])|
    ensures var m, rest := |StuffLine(lines[0])|, Wire(lines[1..])[..n - |StuffLine(lines[0])|];
      Receive(Wire(lines)[..n], total) ==
      if !ValidUtf8(StuffLine(lines[0])) then NotText
      else if total + m > MAX_MAIL_SIZE then TooBig(rest)
      else if DotLine(StuffLine(lines[0])) then Mail([], rest)
      else Before(lines[0], Receive(rest, total + m))
  {
    hide *;
    WireStep(lines, n);
    FrontIsLine(lines);
    UnstuffStuffed(lines[0]);
    ReceiveLine(StuffLine(lines[0]), Wire(lines[1..])[..n - |StuffLine(lines[0])|], total);
  }

  lemma FrontIsLine(lines: seq<Bytes>)
    requires AreLines(lines) && lines != []
    ensures IsLine(lines[0]) && IsLine(StuffLine(lines[0])) && lines[0] != [] && AreLines(lines[1..])
  {
    StuffedIsLine(lines[0]);
  }

  // --------------------------------------------------- accepted, and with what

  /** The receiver takes what arrived for a mail: the lines that arrived whole and what it keeps of the stub. */
  ghost predicate Accepted(lines: seq<Bytes>, n: nat, total: nat)
    requires n < |Wire(lines)|
  {
    Receive(Wire(lines)[..n], total) == Mail(Delivered(lines, n), [])
  }

  ghost predicate Whole(lines: seq<Bytes>, n: nat)
    requires n < |Wire(lines)|
  {
    AllSendable(lines[..WholeLines(lines, n)]) && ValidUtf8(Stub(lines, n))
  }

  lemma StartAccepted(lines: seq<Bytes>, n: nat, total: nat)
    requires AreLines(lines) && n < |Wire(lines)| && (lines != [] ==> n < |StuffLine(lines[0])|)
    ensures Receive(Wire(lines)[..n], total) ==
      if n == 0 then Mail([], [])
      else if !ValidUtf8(Stub(lines, n)) then NotText
      else if total + n > MAX_MAIL_SIZE then TooBig([])
      else Mail(Delivered(lines, n), [])
    ensures Delivered(lines, n) == Kept(Stub(lines, n)) && (n == 0 ==> Delivered(lines, n) == [])
    ensures Whole(lines, n) <==> ValidUtf8(Stub(lines, n))
    ensures n == 0 ==> Whole(lines, n)
  {
    hide Receive, ValidUtf8, DotLine, Wire, StuffLine, Stub, WholeLines, AreLines, Kept;
    WireStart(lines, n);
    StubIsOpen(lines, n);
    ReceiveStub(Stub(lines, n), total);
    assert [] + Kept(Stub(lines, n)) == Kept(Stub(lines, n));
    KeptNothing();
  }

  lemma WholeStep(lines: seq<Bytes>, n: nat)
    requires lines != [] && |StuffLine(lines[0])| <= n < |Wire(lines)|
    ensures n - |StuffLine(lines[0])| < |Wire(lines[1..])|
    ensures Whole(lines, n) <==> Sendable(lines[0]) && Whole(lines[1..], n - |StuffLine(lines[0])|)
    ensures Delivered(lines, n) == lines[0] + Delivered(lines[1..], n - |StuffLine(lines[0])|)
  {
    hide Sendable, ValidUtf8, Wire, StuffLine, Stub, WholeLines, Message, Kept;
    WireStep(lines, n);
    var m, j := |StuffLine(lines[0])|, WholeLines(lines, n);
    var rest := lines[1..][..WholeLines(lines[1..], n - m)];
    assert lines[..j][1..] == rest;
    SendableStep(lines[..j]);
    MessageFront(lines[0], rest);
    assert lines[0] + Message(rest) + Kept(Stub(lines, n)) == lines[0] + (Message(rest) + Kept(Stub(lines, n)));
  }

  lemma {:induction false} AcceptedExactly(lines: seq<Bytes>, n: nat, total: nat)
    requires AreLines(lines) && n < |Wire(lines)| && total <= MAX_MAIL_SIZE
    ensures Accepted(lines, n, total) <==> Whole(lines, n) && total + n <= MAX_MAIL_SIZE
    decreases |lines|
  {
    hide Receive, ValidUtf8, DotLine, Wire, StuffLine, Whole, AreLines, Delivered, Stub, Unstuff;
    if lines == [] || n < |StuffLine(lines[0])| {
      StartAccepted(lines, n, total);
    } else {
      var m := |StuffLine(lines[0])|;
      FrontIsLine(lines);
      ReceiveFront(lines, n, total);
      WholeStep(lines, n);
      UnstuffStuffed(lines[0]);
      if total + m <= MAX_MAIL_SIZE {
        AcceptedExactly(lines[1..], n - m, total + m);
      }
      var r := Receive(Wire(lines[1..])[..n - m], total + m);
      if r.Mail? {
        CancelFront(lines[0], r.data, Delivered(lines[1..], n - m));
      }
    }
  }

  /**
   * A connection closed after any `n` bytes of a mail, before the end of its terminator: the lines that arrived
   * whole and the stub of the next one are taken for a complete mail if and only if these lines are sendable,
   * the cut is not inside a character, and the bytes are within 50 MiB.
   */
  lemma CutMailIsReceived(lines: seq<Bytes>, n: nat)
    requires AreLines(lines) && n < |Wire(lines)|
    ensures Receive(Wire(lines)[..n], 0) == Mail(Delivered(lines, n), [])
       <==> && AllSendable(lines[..WholeLines(lines, n)])
            && ValidUtf8(Stub(lines, n))
            && n <= MAX_MAIL_SIZE
  {
    hide Receive, ValidUtf8, Stub, WholeLines, Delivered, Wire, AllSendable, AreLines;
    AcceptedExactly(lines, n, 0);
  }

  // ------------------------------------------------------------- the other outcomes

  /**
   * The whole outcome when the lines that arrived whole are sendable: too big if those lines are, refused as not
   * text if the cut is inside a character, too big if the stub passes the limit, otherwise received as a mail.
   */
  lemma {:induction false} CutOutcome(lines: seq<Bytes>, n: nat, total: nat)
    requires AreLines(lines) && n < |Wire(lines)| && AllSendable(lines[..WholeLines(lines, n)])
    requires total <= MAX_MAIL_SIZE
    ensures var r := Receive(Wire(lines)[..n], total);
      if total + n - |Stub(lines, n)| > MAX_MAIL_SIZE then r.TooBig?
      else if !ValidUtf8(Stub(lines, n)) then r == NotText
      else if total + n > MAX_MAIL_SIZE then r == TooBig([])
      else r == Mail(Delivered(lines, n), [])
    decreases |lines|
  {
    hide Receive, ValidUtf8, DotLine, Wire, StuffLine, AreLines, Delivered, Stub, Sendable, WholeLines, AllSendable;
    if lines == [] || n < |StuffLine(lines[0])| {
      StartAccepted(lines, n, total);
      WireStart(lines, n);
      KeptNothing();
    } else {
      var m := |StuffLine(lines[0])|;
      FrontIsLine(lines);
      ReceiveFront(lines, n, total);
      WireStep(lines, n);
      WholeStep(lines, n);
      UnstuffStuffed(lines[0]);
      ArrivedFront(lines, n);
      StubWithin(lines[1..], n - m);
      if total + m <= MAX_MAIL_SIZE {
        CutOutcome(lines[1..], n - m, total + m);
      }
    }
  }

  lemma ArrivedFront(lines: seq<Bytes>, n: nat)
    requires lines != [] && |StuffLine(lines[0])| <= n < |Wire(lines)| && AllSendable(lines[..WholeLines(lines, n)])
    ensures n - |StuffLine(lines[0])| < |Wire(lines[1..])| && Sendable(lines[0])
    ensures AllSendable(lines[1..][..WholeLines(lines[1..], n - |StuffLine(lines[0])|)])
  {
    hide Sendable, Wire, StuffLine, Stub, WholeLines;
    WireStep(lines, n);
    var j := WholeLines(lines, n);
    assert lines[..j][1..] == lines[1..][..WholeLines(lines[1..], n - |StuffLine(lines[0])|)];
    SendableStep(lines[..j]);
  }

  lemma {:induction false} StubWithin(lines: seq<Bytes>, n: nat)
    requires n < |Wire(lines)|
    ensures |Stub(lines, n)| <= n
    decreases |lines|
  {
    hide Wire, StuffLine, WholeLines;
    if lines == [] || n < |StuffLine(lines[0])| {
      WireStart(lines, n);
    } else {
      WireStep(lines, n);
      StubWithin(lines[1..], n - |StuffLine(lines[0])|);
    }
  }

  /** Both say the same of the mail, however much is left to read. */
  predicate SameMail(a: Received, b: Received) {
    if a.Mail? then b.Mail? && a.data == b.data else if a.TooBig? then b.TooBig? else b.NotText?
  }

  /** When a line that arrived whole is not sendable, the cut makes no difference. */
  lemma {:induction false} CutBehindStop(lines: seq<Bytes>, n: nat, total: nat)
    requires AreLines(lines) && n < |Wire(lines)| && !AllSendable(lines[..WholeLines(lines, n)])
    ensures SameMail(Receive(Wire(lines)[..n], total), Receive(Wire(lines), total))
    decreases |lines|
  {
    hide Receive, ValidUtf8, DotLine, Wire, StuffLine, AreLines, Sendable, AllSendable, WholeLines, Stub;
    SendableNone();
    if lines == [] || n < |StuffLine(lines[0])| {
      WireStart(lines, n);
    } else {
      var m := |StuffLine(lines[0])|;
      FrontIsLine(lines);
      ReceiveFront(lines, n, total);
      WireStep(lines, n);
      UnstuffStuffed(lines[0]);
      WireWhole(lines);
      ReceiveLine(StuffLine(lines[0]), Wire(lines[1..]), total);
      var j := WholeLines(lines, n);
      assert lines[..j][1..] == lines[1..][..WholeLines(lines[1..], n - m)];
      SendableStep(lines[..j]);
      if Sendable(lines[0]) {
        CutBehindStop(lines[1..], n - m, total + m);
      }
    }
  }

  lemma WireWhole(lines: seq<Bytes>)
    requires lines != []
    ensures Wire(lines) == StuffLine(lines[0]) + Wire(lines[1..])
  {
  }

  // ----------------------------------------------------------- mails fit to be sent

  /** The cut falls inside a character. */
  predicate SplitsCharacter(lines: seq<Bytes>, n: nat)
    requires n < |Wire(lines)|
  {
    Continuation(Wire(lines)[n])
  }

  lemma TerminatorAscii(n: nat)
    requires n < |TERMINATOR|
    ensures ValidUtf8(TERMINATOR[..n]) && !Continuation(TERMINATOR[n])
  {
    assert ValidUtf8(TERMINATOR) by {
      assert TERMINATOR == [46] + ([13] + ([10] + []));
      DecoderAscii(46, [13] + ([10] + []));
      DecoderAscii(13, [10] + []);
      DecoderAscii(10, []);
    }
    assert TERMINATOR[0] == 46 && TERMINATOR[1] == 13 && TERMINATOR[2] == 10;
    CutUtf8(TERMINATOR, n);
  }

  lemma {:induction false} StubIsText(lines: seq<Bytes>, n: nat)
    requires AreLines(lines) && AllSendable(lines) && n < |Wire(lines)|
    ensures ValidUtf8(Stub(lines, n)) <==> !SplitsCharacter(lines, n)
    ensures AllSendable(lines[..WholeLines(lines, n)])
    decreases |lines|
  {
    hide ValidUtf8, DotLine, Wire, StuffLine, AreLines, Sendable, WholeLines, Continuation;
    if lines == [] || n < |StuffLine(lines[0])| {
      WireStart(lines, n);
      if lines == [] {
        TerminatorAscii(n);
      } else {
        FrontIsLine(lines);
        UnstuffStuffed(lines[0]);
        CutUtf8(StuffLine(lines[0]), n);
      }
    } else {
      FrontIsLine(lines);
      WireStep(lines, n);
      StubIsText(lines[1..], n - |StuffLine(lines[0])|);
    }
  }

  /** A sendable mail within the limit that is cut short is accepted if and only if no character is split. */
  lemma CutAccepted(lines: seq<Bytes>, n: nat)
    requires AreLines(lines) && AllSendable(lines) && n < |Wire(lines)| && n <= MAX_MAIL_SIZE
    ensures Receive(Wire(lines)[..n], 0) ==
      if SplitsCharacter(lines, n) then NotText else Mail(Delivered(lines, n), [])
  {
    hide Receive, ValidUtf8, Wire, Delivered, Stub, AreLines, AllSendable, WholeLines, SplitsCharacter;
    StubIsText(lines, n);
    StubWithin(lines, n);
    CutOutcome(lines, n, 0);
  }

  // ------------------------------------------------------------- what is missing

  lemma KeptIsPrefix(line: Bytes, n: nat)
    requires IsLine(line) && n < |StuffLine(line)|
    ensures var k := Kept(StuffLine(line)[..n]); k <= line && |k| < |line|
  {
    hide DotLine, IsLine;
    LineNonEmpty(line);
    var stub := StuffLine(line)[..n];
    if line[0] == DOT {
      LoneDot(stub);
      if |stub| >= 2 {
        assert stub[1..] == line[..n - 1];
      }
    } else {
      assert stub == line[..n];
    }
  }

  lemma LoneDot(stub: Bytes)
    ensures stub == [DOT] ==> DotLine(stub)
  {
    if stub == [DOT] {
      NotSpace(stub);
      assert stub[1..] == [];
    }
  }

  /** A stub of the terminator adds nothing to the mail. */
  lemma KeptOfTerminator(n: nat)
    requires n < |TERMINATOR|
    ensures Kept(TERMINATOR[..n]) == []
  {
    var stub := TERMINATOR[..n];
    if n == 0 {
      KeptNothing();
    } else if n == 1 {
      assert stub == [DOT];
      LoneDot(stub);
    } else {
      assert stub == [46, 13] && stub[1..] == [13];
      NotSpace(stub);
      assert SpaceAt([13]) == 1 && [13][1..] == [];
    }
  }

  /** A cut mail is a beginning of the one that was sent; it is all of it exactly when only the terminator was cut. */
  lemma {:induction false} DeliveredIsPrefix(lines: seq<Bytes>, n: nat)
    requires AreLines(lines) && n < |Wire(lines)|
    ensures Delivered(lines, n) <= Message(lines)
    ensures Delivered(lines, n) == Message(lines) <==> n >= |Stuff(lines)|
    decreases |lines|
  {
    hide StuffLine, AreLines, Kept, Wire, Delivered;
    if lines == [] {
      WireStart(lines, n);
      StartDelivers(lines, n);
      KeptOfTerminator(n);
    } else if n < |StuffLine(lines[0])| {
      WireStart(lines, n);
      StartDelivers(lines, n);
      FrontIsLine(lines);
      KeptIsPrefix(lines[0], n);
      assert Message(lines) == lines[0] + Message(lines[1..]);
    } else {
      FrontIsLine(lines);
      WholeStep(lines, n);
      DeliveredIsPrefix(lines[1..], n - |StuffLine(lines[0])|);
      CancelFront(lines[0], Delivered(lines[1..], n - |StuffLine(lines[0])|), Message(lines[1..]));
    }
  }

  lemma StartDelivers(lines: seq<Bytes>, n: nat)
    requires n < |Wire(lines)| && (lines != [] ==> n < |StuffLine(lines[0])|)
    ensures Delivered(lines, n) == Kept(Stub(lines, n))
  {
    hide Kept, StuffLine, Stub, Wire;
    WireStart(lines, n);
    assert [] + Kept(Stub(lines, n)) == Kept(Stub(lines, n));
  }

  lemma {:induction false} WholeAll(lines: seq<Bytes>, n: nat)
    requires n >= |Stuff(lines)|
    ensures WholeLines(lines, n) == |lines|
  {
    hide StuffLine;
    if lines != [] {
      WholeAll(lines[1..], n - |StuffLine(lines[0])|);
    }
  }

  /** A line that is not sendable stops the mail short. */
  lemma {:induction false} StopsShort(lines: seq<Bytes>, n: nat, total: nat)
    requires AreLines(lines) && n < |Wire(lines)| && !AllSendable(lines[..WholeLines(lines, n)])
    ensures var r := Receive(Wire(lines)[..n], total); r.Mail? ==> |r.data| < |Message(lines)|
    decreases |lines|
  {
    hide Receive, ValidUtf8, DotLine, Wire, StuffLine, AreLines, Sendable, AllSendable, WholeLines, Stub;
    SendableNone();
    if lines == [] || n < |StuffLine(lines[0])| {
      WireStart(lines, n);
    } else {
      var m := |StuffLine(lines[0])|;
      FrontIsLine(lines);
      ReceiveFront(lines, n, total);
      WireStep(lines, n);
      UnstuffStuffed(lines[0]);
      var j := WholeLines(lines, n);
      assert lines[..j][1..] == lines[1..][..WholeLines(lines[1..], n - m)];
      SendableStep(lines[..j]);
      if Sendable(lines[0]) {
        StopsShort(lines[1..], n - m, total + m);
      }
    }
  }

  /** An unterminated mail within the limit arrives whole if and only if it is sendable and all its lines came. */
  lemma UnterminatedArrives(lines: seq<Bytes>, n: nat)
    requires AreLines(lines) && n < |Wire(lines)| && n <= MAX_MAIL_SIZE
    ensures Receive(Wire(lines)[..n], 0) == Mail(Message(lines), [])
       <==> AllSendable(lines) && n >= |Stuff(lines)|
  {
    hide *;
    DeliveredIsPrefix(lines, n);
    StubWithin(lines, n);
    if n >= |Stuff(lines)| {
      WholeAll(lines, n);
      assert lines[..|lines|] == lines;
    }
    if AllSendable(lines[..WholeLines(lines, n)]) {
      CutOutcome(lines, n, 0);
      if n >= |Stuff(lines)| {
        StubIsText(lines, n);
        PastLines(lines, n);
      }
    } else {
      StopsShort(lines, n, 0);
      if AllSendable(lines) {
        SendablePrefix(lines, WholeLines(lines, n));
      }
    }
  }

  lemma SendablePrefix(lines: seq<Bytes>, j: nat)
    requires j <= |lines| && AllSendable(lines)
    ensures AllSendable(lines[..j])
  {
    hide Sendable;
  }

  lemma PastLines(lines: seq<Bytes>, n: nat)
    requires |Stuff(lines)| <= n < |Wire(lines)|
    ensures !SplitsCharacter(lines, n)
  {
    TerminatorAscii(n - |Stuff(lines)|);
  }

  /** A line of two letters, cut after the first: a mail of one letter is received. */
  lemma HalfLineIsReceived()
    ensures var lines: seq<Bytes> := [[104, 105, 13, 10]];
      |Wire(lines)| > 1 && Receive(Wire(lines)[..1], 0) == Mail([104], [])
  {
    hide Receive;
    var line: Bytes := [104, 105, 13, 10];
    WireWhole([line]);
    assert [line][1..] == [] && StuffLine(line) == line;
    assert Wire([line])[..1] == [104];
    DecoderAscii(104, []);
    assert [104] + [] == [104];
    ReceiveStub([104], 0);
    assert SpaceAt([104]) == 0;
  }
}
