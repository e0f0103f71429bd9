/** The pool of open segment files (file_pool.rs). */
module FilePool {
  /** An open file is the inode it was opened on; the directory says which inode a segment is now. */
  type Inode = nat
  datatype Slot = Slot(seg: nat, inode: Inode)
  type Directory = map<nat, Inode>

  function Without(slots: seq<Slot>, seg: nat): seq<Slot> {
    if slots == [] then []
    else (if slots[0].seg == seg then [] else [slots[0]]) + Without(slots[1..], seg)
  }

  lemma {:induction false} WithoutMember(slots: seq<Slot>, seg: nat, s: Slot)
    ensures s in Without(slots, seg) <==> s in slots && s.seg != seg
  {
    if slots != [] {
      WithoutMember(slots[1..], seg, s);
      assert slots == [slots[0]] + slots[1..];
    }
  }

  lemma {:induction false} WithoutConcat(a: seq<Slot>, b: seq<Slot>, seg: nat)
    ensures Without(a + b, seg) == Without(a, seg) + Without(b, seg)
  {
    if a == [] {
      assert a + b == b;
    } else {
      var head := if a[0].seg == seg then [] else [a[0]];
      WithoutConcat(a[1..], b, seg);
      assert (a + b)[1..] == a[1..] + b;
      assert head + (Without(a[1..], seg) + Without(b, seg)) == head + Without(a[1..], seg) + Without(b, seg);
    }
  }

  lemma {:induction false} WithoutAbsent(slots: seq<Slot>, seg: nat)
    requires forall i :: 0 <= i < |slots| ==> slots[i].seg != seg
    ensures Without(slots, seg) == slots
  {
    if slots != [] {
      WithoutAbsent(slots[1..], seg);
      assert slots == [slots[0]] + slots[1..];
    }
  }

  ghost predicate Distinct(slots: seq<Slot>) {
    forall i, j :: 0 <= i < j < |slots| ==> slots[i].seg != slots[j].seg
  }

  /** The pool after `get(seg)`: its slot in front, the last one gone if a new one did not fit. */
  function Touched(slots: seq<Slot>, max: nat, slot: Slot): seq<Slot>
    requires max >= 1
  {
    if exists i :: 0 <= i < |slots| && slots[i].seg == slot.seg then [slot] + Without(slots, slot.seg)
    else [slot] + (if |slots| >= max then slots[..|slots| - 1] else slots)
  }

  lemma WithoutOne(slot: Slot)
    ensures Without([slot], slot.seg) == []
  {
  }

  lemma WithoutMiddle(a: seq<Slot>, x: Slot, b: seq<Slot>)
    requires forall i :: 0 <= i < |a| ==> a[i].seg != x.seg
    requires forall i :: 0 <= i < |b| ==> b[i].seg != x.seg
    ensures Without(a + [x] + b, x.seg) == a + b
  {
    hide Without;
    WithoutConcat(a + [x], b, x.seg);
    WithoutConcat(a, [x], x.seg);
    WithoutOne(x);
    WithoutAbsent(a, x.seg);
    WithoutAbsent(b, x.seg);
    assert a + [] == a;
  }

  /** Removing a pooled segment takes out its one slot. */
  lemma WithoutAt(slots: seq<Slot>, i: nat)
    requires Distinct(slots) && i < |slots|
    ensures Without(slots, slots[i].seg) == slots[..i] + slots[i + 1..]
  {
    hide Without;
    WithoutMiddle(slots[..i], slots[i], slots[i + 1..]);
    assert slots == slots[..i] + [slots[i]] + slots[i + 1..];
  }

  lemma MovedToFront(slots: seq<Slot>, i: nat)
    requires Distinct(slots) && i < |slots|
    ensures Distinct([slots[i]] + (slots[..i] + slots[i + 1..]))
    ensures forall s :: s in [slots[i]] + (slots[..i] + slots[i + 1..]) ==> s in slots
  {
    var r := slots[..i] + slots[i + 1..];
    assert forall j :: 0 <= j < |r| ==> r[j] == slots[if j < i then j else j + 1];
  }

  lemma WithoutDistinct(slots: seq<Slot>, seg: nat)
    requires Distinct(slots)
    ensures Distinct(Without(slots, seg)) && |Without(slots, seg)| <= |slots|
    ensures (exists i :: 0 <= i < |slots| && slots[i].seg == seg) ==> |Without(slots, seg)| == |slots| - 1
  {
    hide Without;
    if i :| 0 <= i < |slots| && slots[i].seg == seg {
      WithoutAt(slots, i);
    } else {
      WithoutAbsent(slots, seg);
    }
  }

  class Pool {
    const maxEntries: nat
    var entries: seq<Slot>

    ghost predicate Valid()
      reads this
    {
      1 <= maxEntries && |entries| <= maxEntries && Distinct(entries)
    }

    /** Every pooled handle is the file its segment is now. */
    ghost predicate Current(dir: Directory)
      reads this
    {
      forall s :: s in entries ==> s.seg in dir && dir[s.seg] == s.inode
    }

    constructor (max: nat)
      ensures Valid() && entries == [] && maxEntries == if max < 1 then 1 else max
    {
      maxEntries := if max < 1 then 1 else max;
      entries := [];
    }

    method Get(seg: nat, dir: Directory) returns (inode: Inode)
      requires Valid() && Current(dir) && seg in dir
      modifies this
      ensures Valid() && Current(dir) && inode == dir[seg]
      ensures entries == Touched(old(entries), maxEntries, Slot(seg, dir[seg]))
    {
      var i := 0;
      while i < |entries|
        invariant 0 <= i <= |entries| && entries == old(entries)
        invariant forall j :: 0 <= j < i ==> entries[j].seg != seg
      {
        if entries[i].seg == seg {
          var slot := entries[i];
          assert slot in entries && Slot(seg, dir[seg]) == slot;
          WithoutAt(entries, i);
          MovedToFront(entries, i);
          entries := [slot] + (entries[..i] + entries[i + 1..]);
          return slot.inode;
        }
        i := i + 1;
      }
      inode := dir[seg];
      if |entries| >= maxEntries {
        entries := entries[..|entries| - 1];
      }
      entries := [Slot(seg, inode)] + entries;
    }

    method Invalidate(seg: nat)
      requires Valid()
      modifies this
      ensures Valid() && entries == Without(old(entries), seg)
    {
      WithoutDistinct(entries, seg);
      var kept: seq<Slot>, i := [], |entries|;
      while i > 0
        invariant 0 <= i <= |entries| && entries == old(entries) && kept == Without(entries[i..], seg)
      {
        i := i - 1;
        assert entries[i..][1..] == entries[i + 1..];
        if entries[i].seg != seg {
          kept := [entries[i]] + kept;
        }
      }
      assert entries[0..] == entries;
      entries := kept;
    }
  }

  /** Replacing a segment's file and invalidating it keeps every pooled handle current. */
  lemma ReplaceThenInvalidate(slots: seq<Slot>, dir: Directory, seg: nat, inode: Inode)
    requires forall s :: s in slots ==> s.seg in dir && dir[s.seg] == s.inode
    ensures forall s :: s in Without(slots, seg) ==> s.seg in dir[seg := inode] && dir[seg := inode][s.seg] == s.inode
    ensures forall s :: s in Without(slots, seg) ==> s.seg in dir - {seg} && (dir - {seg})[s.seg] == s.inode
  {
    forall s | s in Without(slots, seg)
      ensures s in slots && s.seg != seg
    {
      WithoutMember(slots, seg, s);
    }
  }

  // -------------------------------------------------------- least recently used

  datatype Access = Touch(slot: Slot) | Forget(seg: nat)

  /** All segments ever used and not forgotten since, most recent first. */
  function Recency(h: seq<Access>): seq<Slot> {
    if h == [] then []
    else
      var r := Recency(h[..|h| - 1]);
      match h[|h| - 1]
      case Touch(slot) => [slot] + Without(r, slot.seg)
      case Forget(seg) => Without(r, seg)
  }

  function PoolAfter(h: seq<Access>, max: nat): seq<Slot>
    requires max >= 1
  {
    if h == [] then []
    else
      var p := PoolAfter(h[..|h| - 1], max);
      match h[|h| - 1]
      case Touch(slot) => Touched(p, max, slot)
      case Forget(seg) => Without(p, seg)
  }

  /**
   * After any history the pool is the most recently used end of the recency
   * list: bounded, duplicate-free, and what an eviction drops is the least
   * recently used slot.
   */
  lemma {:induction false} PoolIsMostRecent(h: seq<Access>, max: nat)
    requires max >= 1
    ensures PoolAfter(h, max) <= Recency(h) && |PoolAfter(h, max)| <= max && Distinct(PoolAfter(h, max))
  {
    if h != [] {
      var n := |h| - 1;
      PoolIsMostRecent(h[..n], max);
      var p, r := PoolAfter(h[..n], max), Recency(h[..n]);
      match h[n]
      case Touch(slot) => TouchKeepsPrefix(p, r, max, slot);
      case Forget(seg) => ForgetKeepsPrefix(p, r, seg);
    }
  }

  lemma ForgetKeepsPrefix(p: seq<Slot>, r: seq<Slot>, seg: nat)
    requires p <= r && Distinct(p)
    ensures Without(p, seg) <= Without(r, seg) && Distinct(Without(p, seg)) && |Without(p, seg)| <= |p|
  {
    hide Without;
    assert r == p + r[|p|..];
    WithoutConcat(p, r[|p|..], seg);
    WithoutDistinct(p, seg);
  }

  lemma TouchKeepsPrefix(p: seq<Slot>, r: seq<Slot>, max: nat, slot: Slot)
    requires max >= 1 && p <= r && |p| <= max && Distinct(p)
    ensures Touched(p, max, slot) <= [slot] + Without(r, slot.seg)
    ensures |Touched(p, max, slot)| <= max && Distinct(Touched(p, max, slot))
  {
    hide Without;
    ForgetKeepsPrefix(p, r, slot.seg);
    WithoutDistinct(p, slot.seg);
    if !exists i :: 0 <= i < |p| && p[i].seg == slot.seg {
      WithoutAbsent(p, slot.seg);
    } else {
      forall s | s in Without(p, slot.seg)
        ensures s.seg != slot.seg
      {
        WithoutMember(p, slot.seg, s);
      }
    }
  }
}
