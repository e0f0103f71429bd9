/** Reading a collection in key order: prefix scans and pages (db.rs, query.rs). */
module Listing {
  import opened Words
  import opened Wal

  /** A record of a collection; keys are compared byte by byte. */
  datatype Row = Row(key: Bytes, value: Json)

  predicate Less(a: Bytes, b: Bytes) {
    b != [] && (a == [] || a[0] < b[0] || (a[0] == b[0] && Less(a[1..], b[1..])))
  }

  /** The records as the tree yields them. */
  predicate Ordered(rows: seq<Row>) {
    forall i, j :: 0 <= i < j < |rows| ==> Less(rows[i].key, rows[j].key)
  }

  predicate HasPrefix(key: Bytes, prefix: Bytes) {
    prefix <= key
  }

  /** The records from the first key that is not below `start`. */
  function RangeFrom(rows: seq<Row>, start: Bytes): seq<Row> {
    if rows != [] && Less(rows[0].key, start) then RangeFrom(rows[1..], start) else rows
  }

  function TakeWhilePrefixed(rows: seq<Row>, prefix: Bytes): seq<Row> {
    if rows != [] && HasPrefix(rows[0].key, prefix)
    then [rows[0]] + TakeWhilePrefixed(rows[1..], prefix) else []
  }

  function ScanPrefix(rows: seq<Row>, prefix: Bytes): seq<Row> {
    TakeWhilePrefixed(RangeFrom(rows, prefix), prefix)
  }

  /** What a prefix scan means: every record is asked. */
  function Prefixed(rows: seq<Row>, prefix: Bytes): seq<Row> {
    if rows == [] then [] else
      (if HasPrefix(rows[0].key, prefix) then [rows[0]] else []) + Prefixed(rows[1..], prefix)
  }

  lemma {:induction false} PrefixedNotLess(key: Bytes, prefix: Bytes)
    requires HasPrefix(key, prefix)
    ensures !Less(key, prefix)
  {
    if prefix != [] {
      PrefixedNotLess(key[1..], prefix[1..]);
    }
  }

  /** Keys with one prefix stand together: past them, no greater key has it. */
  lemma {:induction false} PrefixedConvex(key: Bytes, later: Bytes, prefix: Bytes)
    requires !Less(key, prefix) && !HasPrefix(key, prefix) && Less(key, later)
    ensures !HasPrefix(later, prefix)
  {
    if HasPrefix(later, prefix) {
      if prefix[0] == key[0] {
        assert key == [key[0]] + key[1..] && prefix == [prefix[0]] + prefix[1..];
        PrefixedConvex(key[1..], later[1..], prefix[1..]);
      }
    }
  }

  lemma {:induction false} NonePrefixed(rows: seq<Row>, prefix: Bytes)
    requires forall i :: 0 <= i < |rows| ==> !HasPrefix(rows[i].key, prefix)
    ensures Prefixed(rows, prefix) == []
  {
    if rows != [] {
      NonePrefixed(rows[1..], prefix);
    }
  }

  lemma {:induction false} TakeIsPrefixed(rows: seq<Row>, prefix: Bytes)
    requires Ordered(rows) && (rows != [] ==> !Less(rows[0].key, prefix))
    ensures TakeWhilePrefixed(rows, prefix) == Prefixed(rows, prefix)
  {
    hide Less;
    if rows == [] {
    } else if HasPrefix(rows[0].key, prefix) {
      if |rows| > 1 {
        NotLessLater(rows[0].key, rows[1].key, prefix);
      }
      TakeIsPrefixed(rows[1..], prefix);
    } else {
      forall i | 0 <= i < |rows| ensures !HasPrefix(rows[i].key, prefix) {
        if i > 0 {
          PrefixedConvex(rows[0].key, rows[i].key, prefix);
        }
      }
      NonePrefixed(rows, prefix);
    }
  }

  lemma {:induction false} NotLessLater(key: Bytes, later: Bytes, bound: Bytes)
    requires !Less(key, bound) && Less(key, later)
    ensures !Less(later, bound)
  {
    if bound != [] && key != [] && key[0] == bound[0] == later[0] {
      NotLessLater(key[1..], later[1..], bound[1..]);
    }
  }

  /** The ranged scan returns exactly the records whose key has the prefix, in order. */
  lemma {:induction false} ScanIsFilter(rows: seq<Row>, prefix: Bytes)
    requires Ordered(rows)
    ensures ScanPrefix(rows, prefix) == Prefixed(rows, prefix)
  {
    if rows != [] && Less(rows[0].key, prefix) {
      ScanIsFilter(rows[1..], prefix);
      if HasPrefix(rows[0].key, prefix) {
        PrefixedNotLess(rows[0].key, prefix);
      }
    } else {
      TakeIsPrefixed(rows, prefix);
    }
  }

  // ---------------------------------------------------------------- pages

  const U64 := 0x1_0000_0000_0000_0000

  datatype Page = Page(page: nat, size: nat)

  /** What the constructor of a page asserts, on 64-bit words. */
  predicate Valid(p: Page) {
    1 <= p.page < U64 && 1 <= p.size < U64
  }

  function Offset(p: Page): nat
    requires Valid(p)
  {
    ((p.page - 1) * p.size) % U64
  }

  function TotalPages(size: nat, total: nat): nat
    requires 1 <= size
  {
    if total == 0 then 0 else ((total + size - 1) % U64) / size
  }

  function Reversed(rows: seq<Row>): (r: seq<Row>)
    ensures |r| == |rows| && forall i :: 0 <= i < |rows| ==> r[i] == rows[|rows| - 1 - i]
  {
    if rows == [] then [] else Reversed(rows[1..]) + [rows[0]]
  }

  /** From the first key to the last, or from the last to the first. */
  function Listed(rows: seq<Row>, desc: bool): (r: seq<Row>)
    ensures |r| == |rows| && forall i :: 0 <= i < |rows| ==> r[i] == rows[if desc then |rows| - 1 - i else i]
  {
    if desc then Reversed(rows) else rows
  }

  function Slice(rows: seq<Row>, skip: nat, take: nat): seq<Row> {
    if skip >= |rows| then [] else rows[skip..if skip + take < |rows| then skip + take else |rows|]
  }

  function Paginate(rows: seq<Row>, p: Page, desc: bool): seq<Row>
    requires Valid(p)
  {
    Slice(Listed(rows, desc), Offset(p), p.size)
  }

  /** Pages 1 to `n`, one after another. */
  function Pages(rows: seq<Row>, size: nat, desc: bool, n: nat): seq<Row>
    requires 1 <= size < U64 && n < U64
  {
    if n == 0 then [] else Pages(rows, size, desc, n - 1) + Paginate(rows, Page(n, size), desc)
  }

  lemma OffsetInside(n: nat, size: nat, total: nat)
    requires 1 <= n < U64 && 1 <= size < U64 && (n - 1) * size < total < U64
    ensures Offset(Page(n, size)) == (n - 1) * size
  {
    assert 0 <= (n - 1) * size;
    var x := (n - 1) * size;
    assert x % U64 == x;
  }

  lemma Product(n: nat, size: nat)
    requires 1 <= n
    ensures n * size == (n - 1) * size + size
  {
  }

  lemma {:induction false} PagesSoFar(rows: seq<Row>, size: nat, desc: bool, n: nat)
    requires 1 <= size < U64 && |rows| < U64 && n < U64 && (n > 0 ==> (n - 1) * size < |rows|)
    ensures Pages(rows, size, desc, n) == Slice(Listed(rows, desc), 0, n * size)
  {
    var l := Listed(rows, desc);
    if n == 0 {
    } else {
      Product(n, size);
      if n > 1 {
        Product(n - 1, size);
      }
      PagesSoFar(rows, size, desc, n - 1);
      OffsetInside(n, size, |rows|);
      SliceTwice(l, (n - 1) * size, size);
    }
  }

  lemma SliceTwice(l: seq<Row>, a: nat, size: nat)
    requires a < |l|
    ensures Slice(l, 0, a) + Slice(l, a, size) == Slice(l, 0, a + size)
  {
  }

  /** The number of pages reaches the end of the listing and no further. */
  lemma TotalReachesEnd(size: nat, total: nat)
    requires 1 <= size < U64 && 0 < total < U64 && total + size - 1 < U64
    ensures var n := TotalPages(size, total);
      1 <= n < U64 && (n - 1) * size < total <= n * size
  {
    var x := total + size - 1;
    assert x % U64 == x;
    var n := x / size;
    assert n * size + x % size == x;
    assert 1 <= n by { Quotient(x, size); }
    Product(n, size);
    Grows(n, size);
  }

  lemma Quotient(x: nat, size: nat)
    requires 1 <= size <= x
    ensures 1 <= x / size
  {
  }

  lemma Grows(n: nat, size: nat)
    requires 1 <= size
    ensures n <= n * size
  {
    assert n * size == n * (size - 1) + n;
  }

  /**
   * Pages 1 to the announced total are the whole listing, forwards or backwards, exactly when the sum in the
   * page count stays below 2^64; past that the announced total is 0.
   */
  lemma PagesCoverListing(rows: seq<Row>, size: nat, desc: bool)
    requires 1 <= size < U64 && |rows| < U64
    ensures TotalPages(size, |rows|) < U64
    ensures Pages(rows, size, desc, TotalPages(size, |rows|)) == Listed(rows, desc)
       <==> |rows| == 0 || |rows| + size - 1 < U64
  {
    hide Pages, TotalPages, Listed, Slice;
    var total := |rows|;
    if total == 0 {
      NoPages(rows, size, desc);
      NoTotal(size, total);
    } else if total + size - 1 < U64 {
      TotalReachesEnd(size, total);
      var n := TotalPages(size, total);
      PagesSoFar(rows, size, desc, n);
      WholeSlice(Listed(rows, desc), n * size);
    } else {
      NoPages(rows, size, desc);
      NoTotal(size, total);
    }
  }

  lemma WholeSlice(l: seq<Row>, n: nat)
    requires |l| <= n
    ensures Slice(l, 0, n) == l
  {
  }

  lemma NoPages(rows: seq<Row>, size: nat, desc: bool)
    requires 1 <= size < U64
    ensures Pages(rows, size, desc, 0) == []
  {
  }

  lemma NoTotal(size: nat, total: nat)
    requires 1 <= size < U64 && total < U64 && (total == 0 || total + size - 1 >= U64)
    ensures TotalPages(size, total) == 0
  {
    if total > 0 {
      var x := total + size - 1 - U64;
      assert (x + U64) % U64 == x;
      assert x < size;
      Below(x, size);
    }
  }

  lemma Below(x: nat, size: nat)
    requires x < size
    ensures x / size == 0
  {
  }
}
