/** Text read line by line from bytes: where a line ends, and which bytes are text. */
module Lines {
  import opened Words

  const NEWLINE: byte := 10

  // ---------------------------------------------------------------- UTF-8

  /** The states of a UTF-8 decoder, section 4 of RFC 3629. */
  datatype Utf8 = Start | Tail1 | Tail2 | Tail3 | AfterE0 | AfterED | AfterF0 | AfterF4 | Bad

  predicate Continuation(b: byte) {
    0x80 <= b <= 0xBF
  }

  function Next(s: Utf8, b: byte): Utf8 {
    match s
    case Start =>
      if b < 0x80 then Start
      else if 0xC2 <= b <= 0xDF then Tail1
      else if b == 0xE0 then AfterE0
      else if b == 0xED then AfterED
      else if 0xE1 <= b <= 0xEF then Tail2
      else if b == 0xF0 then AfterF0
      else if 0xF1 <= b <= 0xF3 then Tail3
      else if b == 0xF4 then AfterF4
      else Bad
    case Tail1 => if Continuation(b) then Start else Bad
    case Tail2 => if Continuation(b) then Tail1 else Bad
    case Tail3 => if Continuation(b) then Tail2 else Bad
    case AfterE0 => if 0xA0 <= b <= 0xBF then Tail1 else Bad
    case AfterED => if 0x80 <= b <= 0x9F then Tail1 else Bad
    case AfterF0 => if 0x90 <= b <= 0xBF then Tail2 else Bad
    case AfterF4 => if 0x80 <= b <= 0x8F then Tail2 else Bad
    case Bad => Bad
  }

  function Decoder(b: Bytes): Utf8 {
    if b == [] then Start else Next(Decoder(b[..|b| - 1]), b[|b| - 1])
  }

  predicate ValidUtf8(b: Bytes) {
    Decoder(b) == Start
  }

  lemma {:induction false} BadStaysBad(a: Bytes, b: Bytes)
    requires Decoder(a) == Bad
    ensures Decoder(a + b) == Bad
  {
    if b == [] {
      assert a + b == a;
    } else {
      BadStaysBad(a, b[..|b| - 1]);
      assert (a + b)[..|a + b| - 1] == a + b[..|b| - 1];
    }
  }

  lemma {:induction false} DecoderConcat(a: Bytes, b: Bytes)
    requires ValidUtf8(a)
    ensures Decoder(a + b) == Decoder(b)
  {
    if b == [] {
      assert a + b == a;
    } else {
      DecoderConcat(a, b[..|b| - 1]);
      assert (a + b)[..|a + b| - 1] == a + b[..|b| - 1];
    }
  }

  /** A cut through valid text leaves valid text exactly when it does not fall inside a character. */
  lemma CutUtf8(b: Bytes, n: nat)
    requires ValidUtf8(b) && n < |b|
    ensures ValidUtf8(b[..n]) <==> !Continuation(b[n])
  {
    assert b == b[..n] + b[n..];
    assert b == b[..n + 1] + b[n + 1..];
    assert b[..n + 1][..n] == b[..n];
    if Decoder(b[..n]) == Bad {
      BadStaysBad(b[..n], b[n..]);
    }
    if Decoder(b[..n + 1]) == Bad {
      BadStaysBad(b[..n + 1], b[n + 1..]);
    }
  }

  // ---------------------------------------------------------------- lines

  /** The length of the first line, without its newline. */
  function LineEnd(b: Bytes): (n: nat)
    ensures n <= |b| && NEWLINE !in b[..n] && (n < |b| ==> b[n] == NEWLINE)
  {
    if b == [] || b[0] == NEWLINE then 0 else
      var n := 1 + LineEnd(b[1..]);
      assert b[..n] == [b[0]] + b[1..][..n - 1];
      n
  }

  method FindNewline(b: Bytes, pos: nat) returns (n: nat)
    requires pos <= |b|
    ensures pos <= n <= |b|
    ensures n - pos == LineEnd(b[pos..])
  {
    n := pos;
    while n < |b| && b[n] != NEWLINE
      invariant pos <= n <= |b|
      invariant LineEnd(b[pos..]) == n - pos + LineEnd(b[n..])
    {
      assert b[n..][1..] == b[n + 1..];
      n := n + 1;
    }
  }

  lemma {:induction false} LineEndAt(line: Bytes, rest: Bytes)
    requires NEWLINE !in line && (rest != [] ==> rest[0] == NEWLINE)
    ensures LineEnd(line + rest) == |line|
  {
    if line == [] {
      assert line + rest == rest;
    } else {
      assert (line + rest)[1..] == line[1..] + rest;
      LineEndAt(line[1..], rest);
    }
  }
}
