/** The watermarks at the end of `put_batch`: only the highest end per segment is marked (engine.rs). */
module BatchMarks {
  import opened Segment
  import opened SegmentLog
  import opened Index
  import opened BlobStore
  import opened Accounting

  /** Later records are in later segments, or further on in the same one. */
  ghost predicate Ascending(recs: seq<IndexRecord>) {
    forall i, j :: 0 <= i < j < |recs| ==>
      recs[i].segmentId < recs[j].segmentId
      || (recs[i].segmentId == recs[j].segmentId && recs[i].EntryEnd() < recs[j].EntryEnd())
  }

  /** Of records in log order, the last one of each segment. */
  function HighestEnds(recs: seq<IndexRecord>): seq<IndexRecord> {
    if |recs| <= 1 then recs
    else (if recs[0].segmentId == recs[1].segmentId then [] else [recs[0]]) + HighestEnds(recs[1..])
  }

  /** `r` is in the list and no record of its segment ends further on. */
  ghost predicate Highest(recs: seq<IndexRecord>, r: IndexRecord) {
    r in recs && forall q :: q in recs && q.segmentId == r.segmentId ==> q.EntryEnd() <= r.EntryEnd()
  }

  lemma HighestStep(recs: seq<IndexRecord>, r: IndexRecord)
    requires Ascending(recs) && |recs| > 1
    ensures Highest(recs, r) <==>
      Highest(recs[1..], r) || (r == recs[0] && recs[0].segmentId != recs[1].segmentId)
  {
    assert recs == [recs[0]] + recs[1..];
    assert recs[1] in recs;
    assert forall q :: q in recs[1..] ==> exists i :: 1 <= i < |recs| && recs[i] == q;
  }

  /** One record per segment is left: the one with the highest end. */
  lemma {:induction false} HighestEndsExact(recs: seq<IndexRecord>, r: IndexRecord)
    requires Ascending(recs)
    ensures r in HighestEnds(recs) <==> Highest(recs, r)
  {
    if |recs| > 1 {
      hide Highest;
      HighestEndsExact(recs[1..], r);
      HighestStep(recs, r);
    }
  }

  lemma MarkTwice(st: Store, a: IndexRecord, b: IndexRecord)
    requires a.segmentId == b.segmentId && a.EntryEnd() < b.EntryEnd()
    ensures Mark(Mark(st, a), b) == Mark(st, b)
  {
    if a.segmentId in st.meta.segments {
      assert Mark(Mark(st, a), b).meta.segments == Mark(st, b).meta.segments;
    }
  }

  lemma {:induction false} MarkFirst(st: Store, recs: seq<IndexRecord>)
    requires recs != []
    ensures MarkAll(st, recs) == MarkAll(Mark(st, recs[0]), recs[1..])
  {
    hide Mark;
    var n := |recs| - 1;
    if n > 0 {
      MarkFirst(st, recs[..n]);
      assert recs[..n][1..] == recs[1..][..n - 1];
    } else {
      assert recs[..0] == [];
    }
  }

  /** Marking the highest end of each segment is the same as marking every record. */
  lemma {:induction false} HighestEndsSuffice(st: Store, recs: seq<IndexRecord>)
    requires Ascending(recs)
    ensures MarkAll(st, HighestEnds(recs)) == MarkAll(st, recs)
    decreases |recs|
  {
    hide Mark, MarkAll;
    if |recs| > 1 {
      var rest := recs[1..];
      MarkFirst(st, recs);
      if recs[0].segmentId == recs[1].segmentId {
        HighestEndsSuffice(st, rest);
        MarkFirst(st, rest);
        MarkFirst(Mark(st, recs[0]), rest);
        MarkTwice(st, recs[0], recs[1]);
        assert [] + HighestEnds(rest) == HighestEnds(rest);
      } else {
        HighestEndsSuffice(Mark(st, recs[0]), rest);
        var kept := [recs[0]] + HighestEnds(rest);
        MarkFirst(st, kept);
        assert kept[1..] == HighestEnds(rest);
      }
    }
  }

  lemma AppendedEnd(st: Store)
    requires st.Ready() && st.Active() != []
    ensures Appended(st).segmentId == st.meta.active && Appended(st).EntryEnd() == End(st.Active())
  {
  }

  lemma NextBeyond(st: Store, e: Entry)
    requires st.Ready() && st.Active() != []
    ensures var a, b := Appended(st), Appended(AppendEntry(st, e));
      a.segmentId < b.segmentId || (a.segmentId == b.segmentId && a.EntryEnd() < b.EntryEnd())
  {
    hide Appended, AppendEntry;
    AppendedEnd(st);
    AppendedAt(st, e);
  }

  /** The records of a batch are in log order. */
  lemma {:induction false} BatchAscends(st: Store, es: seq<Entry>)
    requires st.Ready()
    ensures Ascending(AppendedRecords(st, es))
  {
    hide Appended, AppendEntry;
    if |es| > 1 {
      var n := |es| - 1;
      var a, recs := AppendMany(st, es[..n]), AppendedRecords(st, es[..n]);
      BatchAscends(st, es[..n]);
      NextBeyond(a, es[n]);
      assert recs[n - 1] == Appended(a);
      assert AppendedRecords(st, es) == recs + [Appended(AppendEntry(a, es[n]))];
    }
  }

  /** How many records are marked, each or through a later one, after the first `i` of the highest ends. */
  function MarkedBy(recs: seq<IndexRecord>, i: nat): (m: nat)
    ensures m <= |recs|
  {
    if i == 0 || recs == [] then 0
    else if |recs| == 1 then 1
    else if recs[0].segmentId == recs[1].segmentId then 1 + MarkedBy(recs[1..], i)
    else 1 + MarkedBy(recs[1..], i - 1)
  }

  lemma {:induction false} HighestEndsPrefix(recs: seq<IndexRecord>, i: nat)
    requires i <= |HighestEnds(recs)|
    ensures HighestEnds(recs)[..i] == HighestEnds(recs[..MarkedBy(recs, i)])
    ensures i > 0 ==> MarkedBy(recs, i) > 0
    decreases |recs|
  {
    if i == 0 || |recs| <= 1 {
    } else if recs[0].segmentId == recs[1].segmentId {
      HighestEndsPrefix(recs[1..], i);
      var m := MarkedBy(recs[1..], i);
      assert recs[..m + 1][1..] == recs[1..][..m];
      assert [] + HighestEnds(recs[1..]) == HighestEnds(recs[1..]);
      assert [] + HighestEnds(recs[1..][..m]) == HighestEnds(recs[1..][..m]);
    } else {
      HighestEndsPrefix(recs[1..], i - 1);
      var m := MarkedBy(recs[1..], i - 1);
      assert recs[..m + 1][1..] == recs[1..][..m];
      assert ([recs[0]] + HighestEnds(recs[1..]))[..i] == [recs[0]] + HighestEnds(recs[1..])[..i - 1];
      if i == 1 {
        assert recs[..1] == [recs[0]];
      }
    }
  }

  /** Between the watermark updates of a batch: as if every record so far had been marked. */
  lemma PartialMarks(st: Store, recs: seq<IndexRecord>, i: nat)
    requires Ascending(recs) && i <= |HighestEnds(recs)|
    ensures MarkAll(st, HighestEnds(recs)[..i]) == MarkAll(st, recs[..MarkedBy(recs, i)])
    ensures i > 0 ==> MarkedBy(recs, i) > 0
  {
    hide HighestEnds, MarkAll;
    HighestEndsPrefix(recs, i);
    HighestEndsSuffice(st, recs[..MarkedBy(recs, i)]);
  }

  // ---------------------------------------------------------------- sorting and dropping duplicates

  datatype SegmentEnd = SegmentEnd(segment: nat, end: nat)

  function EndsOf(recs: seq<IndexRecord>): (s: seq<SegmentEnd>)
    ensures |s| == |recs|
    ensures forall i :: 0 <= i < |s| ==> s[i] == SegmentEnd(recs[i].segmentId, recs[i].EntryEnd())
  {
    seq(|recs|, i requires 0 <= i < |recs| => SegmentEnd(recs[i].segmentId, recs[i].EntryEnd()))
  }

  /** By rising segment, and by falling end within one. */
  ghost predicate Sorted(s: seq<SegmentEnd>) {
    forall i, j :: 0 <= i < j < |s| ==>
      s[i].segment < s[j].segment || (s[i].segment == s[j].segment && s[i].end >= s[j].end)
  }

  ghost predicate SortOf(s: seq<SegmentEnd>, t: seq<SegmentEnd>) {
    multiset(s) == multiset(t) && Sorted(t)
  }

  /** Drop each end whose segment is that of the end last kept. */
  function Dedup(s: seq<SegmentEnd>): seq<SegmentEnd> {
    if s == [] then [] else
      var kept, x := Dedup(s[..|s| - 1]), s[|s| - 1];
      if kept != [] && kept[|kept| - 1].segment == x.segment then kept else kept + [x]
  }

  ghost predicate Rising(s: seq<SegmentEnd>) {
    forall i, j :: 0 <= i < j < |s| ==> s[i].segment < s[j].segment
  }

  /** `p` is in the list and no end of its segment is higher. */
  ghost predicate Top(s: seq<SegmentEnd>, p: SegmentEnd) {
    p in s && forall q :: q in s && q.segment == p.segment ==> q.end <= p.end
  }

  lemma TopStep(s: seq<SegmentEnd>, p: SegmentEnd)
    requires Sorted(s) && s != []
    ensures var n, x := |s| - 1, s[|s| - 1];
      Top(s, p) <==> Top(s[..n], p) || (p == x && (n == 0 || s[n - 1].segment != x.segment))
  {
    var n, x := |s| - 1, s[|s| - 1];
    var a := s[..n];
    assert s == a + [x];
    forall q | q in a ensures q.segment < x.segment || (q.segment == x.segment && q.end >= x.end) {
      BelowLast(s, q);
    }
    if n > 0 {
      LastOf(s);
    }
    TopSplit(a, x, p);
  }

  lemma BelowLast(s: seq<SegmentEnd>, q: SegmentEnd)
    requires Sorted(s) && s != [] && q in s[..|s| - 1]
    ensures var x, y := s[|s| - 1], s[|s| - 2];
      && (q.segment < x.segment || (q.segment == x.segment && q.end >= x.end))
      && q.segment <= y.segment
  {
    var i :| 0 <= i < |s| - 1 && s[i] == q;
  }

  lemma LastOf(s: seq<SegmentEnd>)
    requires Sorted(s) && |s| > 1
    ensures s[|s| - 2] in s[..|s| - 1]
    ensures s[|s| - 2].segment != s[|s| - 1].segment ==> forall q :: q in s[..|s| - 1] ==> q.segment < s[|s| - 1].segment
  {
    assert s[..|s| - 1][|s| - 2] == s[|s| - 2];
    forall q | q in s[..|s| - 1] ensures q.segment <= s[|s| - 2].segment <= s[|s| - 1].segment {
      BelowLast(s, q);
    }
  }

  /** A lowest last element is on top only if it is alone in its segment, or equal to one in front. */
  lemma TopSplit(a: seq<SegmentEnd>, x: SegmentEnd, p: SegmentEnd)
    requires forall q :: q in a ==> q.segment < x.segment || (q.segment == x.segment && q.end >= x.end)
    ensures Top(a + [x], p) <==> Top(a, p) || (p == x && forall q :: q in a ==> q.segment < x.segment)
  {
    var s := a + [x];
    assert forall q :: q in s <==> q in a || q == x;
  }

  lemma {:induction false} DedupSorted(s: seq<SegmentEnd>)
    requires Sorted(s)
    ensures Rising(Dedup(s)) && (s == [] <==> Dedup(s) == [])
    ensures s != [] ==> Dedup(s)[|Dedup(s)| - 1].segment == s[|s| - 1].segment
    ensures forall p :: p in Dedup(s) <==> Top(s, p)
  {
    hide Top;
    if s == [] {
      assert forall p :: !Top(s, p) by { TopNothing(); }
    } else {
      var n := |s| - 1;
      DedupSorted(s[..n]);
      var kept := Dedup(s[..n]);
      forall p ensures p in Dedup(s) <==> Top(s, p) {
        TopStep(s, p);
      }
      if n > 0 {
        assert s[..n][n - 1] == s[n - 1];
        assert s[n - 1].segment <= s[n].segment;
      }
    }
  }

  lemma TopNothing()
    ensures forall p :: !Top([], p)
  {
  }

  /** However the sort breaks ties: what is left is exactly the highest end of each segment, in rising order. */
  lemma SortDedupExact(s: seq<SegmentEnd>, t: seq<SegmentEnd>, p: SegmentEnd)
    requires SortOf(s, t)
    ensures p in Dedup(t) <==> Top(s, p)
    ensures Rising(Dedup(t))
  {
    hide Dedup;
    DedupSorted(t);
    assert forall q :: q in s <==> q in multiset(s);
    assert forall q :: q in t <==> q in multiset(t);
  }

  lemma RisingMember(a: seq<SegmentEnd>, p: SegmentEnd)
    requires Rising(a) && a != []
    ensures var n := |a| - 1;
      && (p in a[..n] <==> p in a && p != a[n])
      && (p in a ==> p == a[n] || p.segment < a[n].segment)
  {
    var n := |a| - 1;
    if p in a {
      var i :| 0 <= i < |a| && a[i] == p;
      if i < n {
        assert a[..n][i] == p;
      }
    }
    if p in a[..n] {
      var i :| 0 <= i < n && a[..n][i] == p;
      assert a[i] == p;
    }
  }

  lemma {:induction false} RisingUnique(a: seq<SegmentEnd>, b: seq<SegmentEnd>)
    requires Rising(a) && Rising(b) && forall p :: p in a <==> p in b
    ensures a == b
  {
    SomeMember(a);
    SomeMember(b);
    if a != [] {
      var n, m := |a| - 1, |b| - 1;
      assert a[n] in a && b[m] in b;
      RisingMember(a, b[m]);
      RisingMember(b, a[n]);
      forall p ensures p in a[..n] <==> p in b[..m] {
        RisingMember(a, p);
        RisingMember(b, p);
      }
      RisingUnique(a[..n], b[..m]);
      assert a == a[..n] + [a[n]] && b == b[..m] + [b[m]];
    }
  }

  lemma SomeMember(s: seq<SegmentEnd>)
    ensures s == [] || exists p :: p in s
  {
    if s != [] {
      assert s[0] in s;
    }
  }

  lemma {:induction false} HighestEndsRise(recs: seq<IndexRecord>)
    requires Ascending(recs)
    ensures Rising(EndsOf(HighestEnds(recs)))
    ensures recs != [] ==> HighestEnds(recs) != [] && HighestEnds(recs)[0].segmentId == recs[0].segmentId
  {
    hide Rising;
    if |recs| <= 1 {
      FewRise(EndsOf(recs));
    } else {
      AscendingRest(recs);
      HighestEndsRise(recs[1..]);
      var h := HighestEnds(recs[1..]);
      if recs[0].segmentId == recs[1].segmentId {
        assert [] + h == h;
      } else {
        assert EndsOf([recs[0]] + h) == [SegmentEnd(recs[0].segmentId, recs[0].EntryEnd())] + EndsOf(h);
        RisingFront(SegmentEnd(recs[0].segmentId, recs[0].EntryEnd()), EndsOf(h));
      }
    }
  }

  lemma FewRise(s: seq<SegmentEnd>)
    requires |s| <= 1
    ensures Rising(s)
  {
  }

  lemma RisingFront(x: SegmentEnd, s: seq<SegmentEnd>)
    requires Rising(s) && s != [] && x.segment < s[0].segment
    ensures Rising([x] + s)
  {
  }

  lemma AscendingRest(recs: seq<IndexRecord>)
    requires Ascending(recs) && |recs| > 1
    ensures Ascending(recs[1..]) && recs[0].segmentId <= recs[1].segmentId
  {
  }

  lemma HighestIsTop(recs: seq<IndexRecord>, r: IndexRecord)
    requires r in recs
    ensures Highest(recs, r) <==> Top(EndsOf(recs), SegmentEnd(r.segmentId, r.EntryEnd()))
  {
    var s, p := EndsOf(recs), SegmentEnd(r.segmentId, r.EntryEnd());
    var k :| 0 <= k < |recs| && recs[k] == r;
    assert s[k] == p;
    if Top(s, p) {
      forall q | q in recs && q.segmentId == r.segmentId ensures q.EntryEnd() <= r.EntryEnd() {
        var i :| 0 <= i < |recs| && recs[i] == q;
        assert s[i] in s;
      }
    }
  }

  lemma EndsMember(recs: seq<IndexRecord>, p: SegmentEnd)
    ensures p in EndsOf(recs) <==> exists r :: r in recs && p == SegmentEnd(r.segmentId, r.EntryEnd())
  {
    var s := EndsOf(recs);
    if p in s {
      var i :| 0 <= i < |s| && s[i] == p;
      assert recs[i] in recs;
    }
    if r :| r in recs && p == SegmentEnd(r.segmentId, r.EntryEnd()) {
      var i :| 0 <= i < |recs| && recs[i] == r;
      assert s[i] == p;
    }
  }

  lemma SameEnds(recs: seq<IndexRecord>, p: SegmentEnd)
    requires Ascending(recs)
    ensures p in EndsOf(HighestEnds(recs)) <==> Top(EndsOf(recs), p)
  {
    hide Highest, Top, Ascending, HighestEnds;
    var top := HighestEnds(recs);
    EndsMember(top, p);
    EndsMember(recs, p);
    if r :| r in top && p == SegmentEnd(r.segmentId, r.EntryEnd()) {
      HighestEndsExact(recs, r);
      HighestIn(recs, r);
      HighestIsTop(recs, r);
    }
    if Top(EndsOf(recs), p) {
      TopIn(EndsOf(recs), p);
      var r :| r in recs && p == SegmentEnd(r.segmentId, r.EntryEnd());
      HighestIsTop(recs, r);
      HighestEndsExact(recs, r);
    }
  }

  lemma HighestIn(recs: seq<IndexRecord>, r: IndexRecord)
    requires Highest(recs, r)
    ensures r in recs
  {
  }

  lemma TopIn(s: seq<SegmentEnd>, p: SegmentEnd)
    requires Top(s, p)
    ensures p in s
  {
  }

  /** Sorting the ends of a batch by segment and falling end and dropping duplicates leaves the last ones. */
  lemma SortDedupHighest(recs: seq<IndexRecord>, t: seq<SegmentEnd>)
    requires Ascending(recs) && SortOf(EndsOf(recs), t)
    ensures Dedup(t) == EndsOf(HighestEnds(recs))
  {
    hide *;
    HighestEndsRise(recs);
    SortDedupExact(EndsOf(recs), t, SegmentEnd(0, 0));
    forall p ensures p in Dedup(t) <==> p in EndsOf(HighestEnds(recs)) {
      SortDedupExact(EndsOf(recs), t, p);
      SameEnds(recs, p);
    }
    RisingUnique(Dedup(t), EndsOf(HighestEnds(recs)));
  }

  // ------------------------------------------------------------ the loops over the ends

  /** `ends.sort_by`: any stable sort gives what this insertion does. */
  method SortEnds(s: seq<SegmentEnd>) returns (t: seq<SegmentEnd>)
    ensures SortOf(s, t)
  {
    t := [];
    for i := 0 to |s|
      invariant Sorted(t) && multiset(t) == multiset(s[..i])
    {
      var pos := 0;
      while pos < |t| && InOrder(t[pos], s[i])
        invariant pos <= |t| && forall j :: 0 <= j < pos ==> InOrder(t[j], s[i])
      {
        pos := pos + 1;
      }
      InsertKeepsOrder(t, pos, s[i]);
      assert s[..i + 1] == s[..i] + [s[i]];
      assert t == t[..pos] + t[pos..];
      t := t[..pos] + [s[i]] + t[pos..];
    }
    assert s[..|s|] == s;
  }

  predicate InOrder(a: SegmentEnd, b: SegmentEnd) {
    a.segment < b.segment || (a.segment == b.segment && a.end >= b.end)
  }

  lemma InsertKeepsOrder(t: seq<SegmentEnd>, pos: nat, x: SegmentEnd)
    requires Sorted(t) && pos <= |t| && (forall j :: 0 <= j < pos ==> InOrder(t[j], x)) && (pos < |t| ==> !InOrder(t[pos], x))
    ensures Sorted(t[..pos] + [x] + t[pos..])
  {
    var r := t[..pos] + [x] + t[pos..];
    forall i, j | 0 <= i < j < |r| ensures InOrder(r[i], r[j]) {
      if i == pos {
        assert InOrder(t[pos], t[j - 1]) || j - 1 == pos;
      }
    }
  }

  /** `ends.dedup_by`. */
  method DedupEnds(s: seq<SegmentEnd>) returns (t: seq<SegmentEnd>)
    ensures t == Dedup(s)
  {
    t := [];
    for i := 0 to |s|
      invariant t == Dedup(s[..i])
    {
      assert s[..i + 1][..i] == s[..i];
      if t == [] || t[|t| - 1].segment != s[i].segment {
        t := t + [s[i]];
      }
    }
    assert s[..|s|] == s;
  }

  /** `mark_indexed` takes a segment and an end. */
  function MarkTo(st: Store, p: SegmentEnd): Store {
    var meta :=
      if p.segment in st.meta.segments && p.end > st.meta.segments[p.segment].indexed then
        st.meta.(segments := st.meta.segments[p.segment := st.meta.segments[p.segment].(indexed := p.end)])
      else st.meta;
    st.(meta := meta, saved := meta)
  }

  function MarkAllTo(st: Store, ends: seq<SegmentEnd>): Store {
    if ends == [] then st else MarkTo(MarkAllTo(st, ends[..|ends| - 1]), ends[|ends| - 1])
  }

  lemma MarkIsTo(st: Store, r: IndexRecord)
    ensures Mark(st, r) == MarkTo(st, SegmentEnd(r.segmentId, r.EntryEnd()))
  {
  }

  lemma {:induction false} MarkAllIsTo(st: Store, recs: seq<IndexRecord>)
    ensures MarkAll(st, recs) == MarkAllTo(st, EndsOf(recs))
  {
    hide Mark, MarkTo;
    if recs != [] {
      var n := |recs| - 1;
      MarkAllIsTo(st, recs[..n]);
      assert EndsOf(recs)[..n] == EndsOf(recs[..n]);
      MarkIsTo(MarkAll(st, recs[..n]), recs[n]);
    }
  }

  /** Sorted, without duplicates, or as they are: the watermarks of a batch are those of all its records. */
  lemma EndsSuffice(st: Store, recs: seq<IndexRecord>, ends: seq<SegmentEnd>)
    requires ends == EndsOf(recs) || (Ascending(recs) && ends == EndsOf(HighestEnds(recs)))
    ensures MarkAllTo(st, ends) == MarkAll(st, recs)
  {
    hide *;
    MarkAllIsTo(st, recs);
    if ends != EndsOf(recs) {
      HighestEndsSuffice(st, recs);
      MarkAllIsTo(st, HighestEnds(recs));
    }
  }
}
