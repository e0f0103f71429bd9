/** Characters and their bytes: what the byte-level tests of text and white space mean. */
module Unicode {
  import opened Words
  import opened Lines
  import opened MailData

  /** A Unicode scalar value. */
  predicate Scalar(c: nat) {
    c < 0xD800 || 0xE000 <= c < 0x11_0000
  }

  /** A continuation byte with six bits of the character. */
  function Six(bits: nat): byte
    requires bits < 0x40
  {
    0x80 + bits
  }

  /** The encoding of a character, section 3 of RFC 3629. */
  function Encode(c: nat): (b: Bytes)
    requires Scalar(c)
    ensures 1 <= |b| <= 4
  {
    if c < 0x80 then [c]
    else if c < 0x800 then [0xC0 + c / 0x40, Six(c % 0x40)]
    else if c < 0x1_0000 then [0xE0 + c / 0x1000, Six(c / 0x40 % 0x40), Six(c % 0x40)]
    else [0xF0 + c / 0x4_0000, Six(c / 0x1000 % 0x40), Six(c / 0x40 % 0x40), Six(c % 0x40)]
  }

  predicate Scalars(text: seq<nat>) {
    forall i :: 0 <= i < |text| ==> Scalar(text[i])
  }

  function EncodeText(text: seq<nat>): Bytes
    requires Scalars(text)
  {
    if text == [] then [] else Encode(text[0]) + EncodeText(text[1..])
  }

  // ---------------------------------------------------------------- text

  lemma Decoder1(a: byte)
    ensures Decoder([a]) == Next(Start, a)
  {
    assert [a][..0] == [];
  }

  lemma DecoderStep(b: Bytes, x: byte)
    ensures Decoder(b + [x]) == Next(Decoder(b), x)
  {
    assert (b + [x])[..|b|] == b;
  }

  lemma Decoder2(a: byte, b: byte)
    ensures Decoder([a, b]) == Next(Next(Start, a), b)
  {
    Decoder1(a);
    DecoderStep([a], b);
    assert [a] + [b] == [a, b];
  }

  lemma Decoder3(a: byte, b: byte, c: byte)
    ensures Decoder([a, b, c]) == Next(Next(Next(Start, a), b), c)
  {
    Decoder2(a, b);
    DecoderStep([a, b], c);
    assert [a, b] + [c] == [a, b, c];
  }

  lemma Decoder4(a: byte, b: byte, c: byte, d: byte)
    ensures Decoder([a, b, c, d]) == Next(Next(Next(Next(Start, a), b), c), d)
  {
    hide Next;
    Decoder3(a, b, c);
    DecoderStep([a, b, c], d);
    assert [a, b, c] + [d] == [a, b, c, d];
  }

  lemma CharacterIsText(c: nat)
    requires Scalar(c)
    ensures ValidUtf8(Encode(c))
  {
    hide Decoder;
    var b := Encode(c);
    if c < 0x80 {
      Decoder1(b[0]);
    } else if c < 0x800 {
      Decoder2(b[0], b[1]);
    } else if c < 0x1_0000 {
      Decoder3(b[0], b[1], b[2]);
    } else {
      Decoder4(b[0], b[1], b[2], b[3]);
    }
  }

  lemma {:induction false} EncodedIsText(text: seq<nat>)
    requires Scalars(text)
    ensures ValidUtf8(EncodeText(text))
  {
    hide Encode;
    if text != [] {
      CharacterIsText(text[0]);
      EncodedIsText(text[1..]);
      DecoderConcat(Encode(text[0]), EncodeText(text[1..]));
    }
  }

  /** The length of the first character of a text. */
  function First(b: Bytes): nat
    requires b != []
  {
    if b[0] < 0x80 then 1 else if b[0] < 0xE0 then 2 else if b[0] < 0xF0 then 3 else 4
  }

  lemma Cut(b: Bytes, n: nat)
    requires ValidUtf8(b) && n <= |b|
    ensures Decoder(b[..n]) != Bad
  {
    assert b == b[..n] + b[n..];
    if Decoder(b[..n]) == Bad {
      BadStaysBad(b[..n], b[n..]);
    }
  }

  /** The first character of a text is an encoded one. */
  lemma FirstIsCharacter(b: Bytes)
    requires ValidUtf8(b) && b != []
    ensures First(b) <= |b| && ValidUtf8(b[..First(b)])
    ensures exists c :: Scalar(c) && b[..First(b)] == Encode(c)
  {
    hide Decoder, Encode;
    Cut(b, 1);
    assert b[..1] == [b[0]];
    Decoder1(b[0]);
    if First(b) == 1 {
      Encoded1(b[0]);
    } else {
      assert |b| >= 2 by { LongerThan(b, 1); }
      Cut(b, 2);
      assert b[..2] == [b[0], b[1]];
      Decoder2(b[0], b[1]);
      if First(b) == 2 {
        Encoded2(b[0], b[1]);
      } else {
        assert |b| >= 3 by { LongerThan(b, 2); }
        Cut(b, 3);
        assert b[..3] == [b[0], b[1], b[2]];
        Decoder3(b[0], b[1], b[2]);
        if First(b) == 3 {
          Encoded3(b[0], b[1], b[2]);
        } else {
          assert |b| >= 4 by { LongerThan(b, 3); }
          Cut(b, 4);
          assert b[..4] == [b[0], b[1], b[2], b[3]];
          Decoder4(b[0], b[1], b[2], b[3]);
          Encoded4(b[0], b[1], b[2], b[3]);
        }
      }
    }
  }

  lemma LongerThan(b: Bytes, n: nat)
    requires ValidUtf8(b) && n <= |b| && Decoder(b[..n]) != Start
    ensures |b| > n
  {
    assert b[..|b|] == b;
  }

  lemma Encoded1(a: byte)
    requires a < 0x80
    ensures Scalar(a) && Encode(a) == [a]
  {
  }

  lemma Encoded2(a: byte, b: byte)
    requires Next(Next(Start, a), b) == Start && 0x80 <= a < 0xE0
    ensures exists c :: Scalar(c) && [a, b] == Encode(c)
  {
    var c := (a - 0xC0) * 0x40 + (b - 0x80);
    assert c / 0x40 == a - 0xC0 && c % 0x40 == b - 0x80;
    assert [a, b] == Encode(c);
  }

  lemma Encoded3(a: byte, b: byte, d: byte)
    requires Next(Next(Next(Start, a), b), d) == Start && 0xE0 <= a < 0xF0
    ensures exists c :: Scalar(c) && [a, b, d] == Encode(c)
  {
    var top := (a - 0xE0) * 0x40 + (b - 0x80);
    var c := top * 0x40 + (d - 0x80);
    assert c / 0x40 == top && c % 0x40 == d - 0x80;
    assert top % 0x40 == b - 0x80 && c / 0x1000 == a - 0xE0;
    assert [a, b, d] == Encode(c);
  }

  lemma Encoded4(a: byte, b: byte, d: byte, e: byte)
    requires Next(Next(Next(Next(Start, a), b), d), e) == Start && 0xF0 <= a
    ensures exists c :: Scalar(c) && [a, b, d, e] == Encode(c)
  {
    var top := (a - 0xF0) * 0x40 + (b - 0x80);
    var mid := top * 0x40 + (d - 0x80);
    var c := mid * 0x40 + (e - 0x80);
    assert c / 0x40 == mid && c % 0x40 == e - 0x80;
    assert mid % 0x40 == d - 0x80 && c / 0x1000 == top && top % 0x40 == b - 0x80;
    assert c / 0x4_0000 == a - 0xF0;
    assert [a, b, d, e] == Encode(c);
  }

  /** Bytes are text exactly when they encode characters. */
  lemma {:induction false} TextIsEncoded(b: Bytes)
    ensures ValidUtf8(b) <==> exists text :: Scalars(text) && EncodeText(text) == b
    decreases |b|
  {
    hide Encode, Decoder;
    if exists text :: Scalars(text) && EncodeText(text) == b {
      var text :| Scalars(text) && EncodeText(text) == b;
      EncodedIsText(text);
    }
    if ValidUtf8(b) {
      if b == [] {
        assert EncodeText([]) == b;
      } else {
        var n := First(b);
        FirstIsCharacter(b);
        var c :| Scalar(c) && b[..n] == Encode(c);
        assert b == b[..n] + b[n..];
        DecoderConcat(b[..n], b[n..]);
        TextIsEncoded(b[n..]);
        var rest :| Scalars(rest) && EncodeText(rest) == b[n..];
        assert ([c] + rest)[1..] == rest;
        assert EncodeText([c] + rest) == b;
      }
    }
  }

  // ---------------------------------------------------------------- white space

  /** The characters with the Unicode property White_Space. */
  predicate WhiteSpace(c: nat) {
    || 0x09 <= c <= 0x0D || c == 0x20 || c == 0x85 || c == 0xA0 || c == 0x1680
    || 0x2000 <= c <= 0x200A || c == 0x2028 || c == 0x2029 || c == 0x202F || c == 0x205F || c == 0x3000
  }

  lemma SpaceIs(c: nat, rest: Bytes)
    requires Scalar(c)
    ensures SpaceAt(Encode(c) + rest) == if WhiteSpace(c) then |Encode(c)| else 0
  {
    var b := Encode(c) + rest;
    if c < 0x80 {
      assert b[0] == c;
    } else if c < 0x800 {
      assert b[0] == 0xC0 + c / 0x40 && b[1] == 0x80 + c % 0x40;
      assert c == c / 0x40 * 0x40 + c % 0x40;
    } else if c < 0x1_0000 {
      assert b[0] == 0xE0 + c / 0x1000 && b[1] == 0x80 + c / 0x40 % 0x40 && b[2] == 0x80 + c % 0x40;
      assert c == c / 0x40 * 0x40 + c % 0x40;
      assert c / 0x40 == c / 0x1000 * 0x40 + c / 0x40 % 0x40;
    } else {
      assert b[0] >= 0xF0;
    }
  }

  predicate Blank(text: seq<nat>) {
    forall i :: 0 <= i < |text| ==> WhiteSpace(text[i])
  }

  lemma {:induction false} SkipIs(text: seq<nat>)
    requires Scalars(text)
    ensures exists n :: Leading(text, n) && SkipSpaces(EncodeText(text)) == EncodeText(text[n..])
  {
    hide Encode, SpaceAt, WhiteSpace;
    if text == [] {
      NoSpace();
      assert Leading(text, 0) && text[0..] == text;
    } else {
      var rest := text[1..];
      SpaceIs(text[0], EncodeText(rest));
      if WhiteSpace(text[0]) {
        SkipIs(rest);
        var n: nat :| Leading(rest, n) && SkipSpaces(EncodeText(rest)) == EncodeText(rest[n..]);
        assert EncodeText(text)[|Encode(text[0])|..] == EncodeText(rest);
        assert rest[n..] == text[n + 1..];
        forall i | 0 <= i < n + 1 ensures WhiteSpace(text[i]) {
          if i > 0 {
            assert text[i] == rest[i - 1];
          }
        }
        assert n < |rest| ==> text[n + 1] == rest[n];
        assert Leading(text, n + 1);
      } else {
        assert Leading(text, 0) && text[0..] == text;
      }
    }
  }

  lemma NoSpace()
    ensures SkipSpaces([]) == []
  {
  }

  /** The first `n` characters are white space, and the next, if any, is not. */
  predicate Leading(text: seq<nat>, n: int) {
    0 <= n <= |text| && Blank(text[..n]) && (n < |text| ==> !WhiteSpace(text[n]))
  }

  /** A line that ends a mail: a dot and otherwise only white space. */
  predicate LoneDot(text: seq<nat>) {
    exists i :: 0 <= i < |text| && text[i] == 46 && Blank(text[..i]) && Blank(text[i + 1..])
  }

  lemma FirstByte(text: seq<nat>)
    requires Scalars(text)
    ensures EncodeText(text) == [] <==> text == []
    ensures text != [] ==> (EncodeText(text)[0] == DOT <==> text[0] == 46)
    ensures text != [] && text[0] == 46 ==> EncodeText(text)[1..] == EncodeText(text[1..])
  {
  }

  lemma SkipsAll(text: seq<nat>)
    requires Scalars(text)
    ensures SkipSpaces(EncodeText(text)) == [] <==> Blank(text)
  {
    hide SkipSpaces, WhiteSpace, Encode;
    SkipIs(text);
    var n :| Leading(text, n) && SkipSpaces(EncodeText(text)) == EncodeText(text[n..]);
    FirstByte(text[n..]);
    assert n == |text| ==> text[..n] == text;
  }

  lemma LoneDotAt(text: seq<nat>, n: int)
    requires Leading(text, n)
    ensures LoneDot(text) <==> n < |text| && text[n] == 46 && Blank(text[n + 1..])
  {
    if LoneDot(text) {
      var i :| 0 <= i < |text| && text[i] == 46 && Blank(text[..i]) && Blank(text[i + 1..]);
      assert forall j :: 0 <= j < i ==> text[..i][j] == text[j];
      assert forall j :: 0 <= j < n ==> text[..n][j] == text[j];
    }
  }

  /** On text, the test for the end of a mail is that for such a line. */
  lemma DotLineIs(text: seq<nat>)
    requires Scalars(text)
    ensures DotLine(EncodeText(text)) <==> LoneDot(text)
  {
    hide SkipSpaces, WhiteSpace, Encode, LoneDot, EncodeText;
    SkipIs(text);
    var n :| Leading(text, n) && SkipSpaces(EncodeText(text)) == EncodeText(text[n..]);
    LoneDotAt(text, n);
    var t := text[n..];
    FirstByte(t);
    if t != [] {
      SkipsAll(t[1..]);
      assert t[1..] == text[n + 1..];
    }
  }
}
