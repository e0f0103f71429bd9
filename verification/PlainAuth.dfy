/** The message of the PLAIN mechanism and its parts between zero bytes (server.rs). */
module PlainAuth {
  import opened Words
  import opened Splitting

  /** The parts between zero bytes. */
  function Parts(b: Bytes): seq<Bytes> {
    Split(b, 0)
  }

  predicate ZeroFree(b: Bytes) {
    Without(b, 0)
  }

  /** The message of section 2 of RFC 4616 with this password; a fourth part, if any, is ignored. */
  ghost predicate PlainMessage(b: Bytes, password: Bytes) {
    exists a: Bytes, c: Bytes :: ZeroFree(a) && ZeroFree(c) && ZeroFree(password) && Spells(b, a, c, password)
  }

  predicate Spells(b: Bytes, a: Bytes, c: Bytes, password: Bytes) {
    var m := a + [0] + c + [0] + password;
    m <= b && (b == m || b[|m|] == 0)
  }

  /** The third part is the password. */
  lemma ThirdPart(b: Bytes, t: Bytes)
    ensures |Parts(b)| >= 3 && Parts(b)[2] == t <==> PlainMessage(b, t)
  {
    if |Parts(b)| >= 3 && Parts(b)[2] == t {
      ThirdPartIsPassword(b);
    }
    if PlainMessage(b, t) {
      var a: Bytes, c: Bytes :| ZeroFree(a) && ZeroFree(c) && ZeroFree(t) && Spells(b, a, c, t);
      PasswordIsThird(b, a, c, t);
    }
  }

  lemma ThirdPartIsPassword(b: Bytes)
    requires |Parts(b)| >= 3
    ensures PlainMessage(b, Parts(b)[2])
  {
    hide Split, Without;
    var p := Parts(b);
    FirstPart(b, 0);
    var b1 := b[|p[0]| + 1..];
    FirstPart(b1, 0);
    var b2 := b1[|p[1]| + 1..];
    FirstPart(b2, 0);
    assert Parts(b2)[0] == p[2] && (|Parts(b2)| == 1 <==> |p| == 3);
    Spelled(b, b1, b2, p[0], p[1], p[2]);
  }

  lemma Spelled(b: Bytes, b1: Bytes, b2: Bytes, a: Bytes, c: Bytes, t: Bytes)
    requires a <= b && |a| < |b| && b[|a|] == 0 && b1 == b[|a| + 1..]
    requires c <= b1 && |c| < |b1| && b1[|c|] == 0 && b2 == b1[|c| + 1..]
    requires t <= b2 && (b2 == t || (|t| < |b2| && b2[|t|] == 0))
    ensures Spells(b, a, c, t)
  {
    assert b == a + [0] + b1;
    assert b1 == c + [0] + b2;
    assert b2 == t + b2[|t|..];
    var m := a + [0] + c + [0] + t;
    assert b == m + b2[|t|..];
  }

  lemma PasswordIsThird(b: Bytes, a: Bytes, c: Bytes, t: Bytes)
    requires ZeroFree(a) && ZeroFree(c) && ZeroFree(t) && Spells(b, a, c, t)
    ensures |Parts(b)| >= 3 && Parts(b)[2] == t
  {
    var m := a + [0] + c + [0] + t;
    var b2 := b[|a| + |c| + 2..];
    var b1 := c + [0] + b2;
    assert b == a + [0] + b1;
    PartEnds(a, b1, 0);
    PartEnds(c, b2, 0);
    if b == m {
      assert m[|a| + |c| + 2..] == t;
      PartEnds(t, [], 0);
    } else {
      var rest := b[|m| + 1..];
      assert b == m + [0] + rest;
      assert b2 == t + [0] + rest;
      PartEnds(t, rest, 0);
    }
  }
}
