/** Cutting a sequence at every separator. */
module Splitting {

  predicate Without<T(==)>(s: seq<T>, sep: T) {
    forall i :: 0 <= i < |s| ==> s[i] != sep
  }

  function Split<T(==)>(s: seq<T>, sep: T): (p: seq<seq<T>>)
    ensures |p| > 0
  {
    if s == [] then [[]]
    else if s[0] == sep then [[]] + Split(s[1..], sep)
    else var p := Split(s[1..], sep); [[s[0]] + p[0]] + p[1..]
  }

  function Join<T>(p: seq<seq<T>>, sep: T): seq<T>
    requires p != []
  {
    if |p| == 1 then p[0] else p[0] + [sep] + Join(p[1..], sep)
  }

  /** Either there is no separator, or the first part ends at the first one. */
  lemma {:induction false} FirstPart<T>(b: seq<T>, sep: T)
    ensures var p := Split(b, sep);
      && Without(p[0], sep)
      && p[0] <= b
      && (|p| == 1 ==> b == p[0])
      && (|p| > 1 ==> |p[0]| < |b| && b[|p[0]|] == sep && p[1..] == Split(b[|p[0]| + 1..], sep))
  {
    if b != [] && b[0] != sep {
      FirstPart(b[1..], sep);
      var p, q := Split(b, sep), Split(b[1..], sep);
      assert p[0] == [b[0]] + q[0] && p[1..] == q[1..];
      if |q| > 1 {
        assert b[1..][|q[0]| + 1..] == b[|p[0]| + 1..];
      }
    }
  }

  lemma {:induction false} PartEnds<T>(a: seq<T>, rest: seq<T>, sep: T)
    requires Without(a, sep)
    ensures Split(a, sep) == [a]
    ensures Split(a + [sep] + rest, sep) == [a] + Split(rest, sep)
  {
    var b := a + [sep] + rest;
    if a == [] {
      assert b[1..] == rest;
    } else {
      PartEnds(a[1..], rest, sep);
      assert b[1..] == a[1..] + [sep] + rest;
      assert [a[0]] + a[1..] == a;
    }
  }

  /** The parts are those pieces without a separator that give the whole again. */
  lemma SplitIs<T>(s: seq<T>, sep: T, p: seq<seq<T>>)
    requires p != []
    ensures p == Split(s, sep) <==> Join(p, sep) == s && forall i :: 0 <= i < |p| ==> Without(p[i], sep)
  {
    if p == Split(s, sep) {
      SplitJoins(s, sep);
    }
    if Join(p, sep) == s && forall i :: 0 <= i < |p| ==> Without(p[i], sep) {
      JoinSplits(p, sep);
    }
  }

  lemma {:induction false} SplitJoins<T>(s: seq<T>, sep: T)
    ensures Join(Split(s, sep), sep) == s && forall i :: 0 <= i < |Split(s, sep)| ==> Without(Split(s, sep)[i], sep)
    decreases |s|
  {
    var p := Split(s, sep);
    FirstPart(s, sep);
    if |p| > 1 {
      SplitJoins(s[|p[0]| + 1..], sep);
      assert s == p[0] + [sep] + s[|p[0]| + 1..];
      forall i | 0 <= i < |p| ensures Without(p[i], sep) {
        if i > 0 {
          assert p[i] == p[1..][i - 1];
        }
      }
    }
  }

  lemma {:induction false} JoinSplits<T>(p: seq<seq<T>>, sep: T)
    requires p != [] && forall i :: 0 <= i < |p| ==> Without(p[i], sep)
    ensures Split(Join(p, sep), sep) == p
  {
    if |p| == 1 {
      PartEnds(p[0], [], sep);
    } else {
      JoinSplits(p[1..], sep);
      PartEnds(p[0], Join(p[1..], sep), sep);
      assert [p[0]] + p[1..] == p;
    }
  }
}
