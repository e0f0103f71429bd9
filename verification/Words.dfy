/** Bytes, machine words and their little-endian form on disk. */
module Words {
  type byte = x: int | 0 <= x < 256
  type u32 = x: int | 0 <= x < 0x1_0000_0000
  type u64 = x: int | 0 <= x < 0x1_0000_0000_0000_0000
  type Bytes = seq<byte>

  datatype Option<+T> = None | Some(value: T)

  /** The number of values that `n` bytes can hold. */
  function Span(n: nat): nat {
    if n == 0 then 1 else 256 * Span(n - 1)
  }

  lemma SpanOfWords()
    ensures Span(4) == 0x1_0000_0000
    ensures Span(8) == 0x1_0000_0000_0000_0000
  {
    assert Span(2) == 0x1_0000;
    assert Span(4) == 256 * (256 * Span(2));
    assert Span(6) == 256 * (256 * Span(4));
    assert Span(8) == 256 * (256 * Span(6));
  }

  /** The `n` low bytes of `x`, least significant first. */
  function ToLE(x: nat, n: nat): (b: Bytes)
    ensures |b| == n
  {
    if n == 0 then [] else [x % 256] + ToLE(x / 256, n - 1)
  }

  function FromLE(b: Bytes): (x: nat)
    ensures x < Span(|b|)
  {
    if b == [] then 0 else b[0] + 256 * FromLE(b[1..])
  }

  lemma {:induction false} FromToLE(x: nat, n: nat)
    requires x < Span(n)
    ensures FromLE(ToLE(x, n)) == x
  {
    if n != 0 {
      FromToLE(x / 256, n - 1);
      assert ToLE(x, n)[1..] == ToLE(x / 256, n - 1);
    }
  }

  lemma {:induction false} ToFromLE(b: Bytes)
    ensures ToLE(FromLE(b), |b|) == b
  {
    if b != [] {
      ToFromLE(b[1..]);
      var x := FromLE(b);
      assert x % 256 == b[0] && x / 256 == FromLE(b[1..]);
      assert b == [b[0]] + b[1..];
    }
  }

  function LE32(x: u32): (b: Bytes)
    ensures |b| == 4
  {
    ToLE(x, 4)
  }

  function FromLE32(b: Bytes): (x: u32)
    requires |b| == 4
  {
    SpanOfWords();
    FromLE(b)
  }

  function LE64(x: u64): (b: Bytes)
    ensures |b| == 8
  {
    ToLE(x, 8)
  }

  function FromLE64(b: Bytes): (x: u64)
    requires |b| == 8
  {
    SpanOfWords();
    FromLE(b)
  }

  /** Words and their four or eight bytes are in bijection. */
  lemma LE32Bijective(x: u32, b: Bytes)
    requires |b| == 4
    ensures FromLE32(LE32(x)) == x
    ensures LE32(FromLE32(b)) == b
  {
    SpanOfWords();
    FromToLE(x, 4);
    ToFromLE(b);
  }

  lemma LE64Bijective(x: u64, b: Bytes)
    requires |b| == 8
    ensures FromLE64(LE64(x)) == x
    ensures LE64(FromLE64(b)) == b
  {
    SpanOfWords();
    FromToLE(x, 8);
    ToFromLE(b);
  }

  function Word(a: int, b: int, c: int, d: int): int {
    a + 0x100 * b + 0x1_0000 * c + 0x100_0000 * d
  }

  /** The least significant byte comes first. */
  lemma LE32Bytes(b: Bytes)
    requires |b| == 4
    ensures FromLE32(b) == Word(b[0], b[1], b[2], b[3])
  {
    var t := b[1..];
    assert t[1..][1..] == [b[3]];
    assert FromLE([b[3]]) == b[3] + 256 * FromLE([b[3]][1..]) == b[3];
    assert FromLE(t[1..]) == b[2] + 256 * FromLE(t[1..][1..]);
    assert FromLE(t) == b[1] + 256 * FromLE(t[1..]);
  }

  /** The same for eight bytes: two words, the low one first. */
  lemma LE64Bytes(b: Bytes)
    requires |b| == 8
    ensures FromLE64(b) == FromLE32(b[..4]) + 0x1_0000_0000 * FromLE32(b[4..])
  {
    SpanOfWords();
    FromLEConcat(b[..4], b[4..]);
    assert b == b[..4] + b[4..];
  }

  lemma {:induction false} FromLEConcat(a: Bytes, b: Bytes)
    ensures FromLE(a + b) == FromLE(a) + Span(|a|) * FromLE(b)
  {
    if a == [] {
      assert a + b == b;
    } else {
      FromLEConcat(a[1..], b);
      assert (a + b)[1..] == a[1..] + b;
      Scale(FromLE(a[1..]), Span(|a| - 1), FromLE(b));
    }
  }

  lemma Scale(x: nat, y: nat, z: nat)
    ensures 256 * (x + y * z) == 256 * x + (256 * y) * z
  {
  }
}
