/** The memory database: collections in memory, a write-ahead log and a snapshot file (db.rs). */
module MemDb {
  import opened Lines
  import opened Words
  import opened Wal

  type Data = map<string, map<string, Json>>

  datatype Durability = Full | Batch(maxOps: nat) | Off

  /** The snapshot file; an absent file reads as number 0 and no data. */
  datatype Snapshot = Snapshot(lastSeq: nat, data: Data)
  datatype Disk = Disk(wal: Bytes, snap: Snapshot)
  datatype Db = Db(lastSeq: nat, data: Data, pending: seq<WalEntry>, disk: Disk)

  const NO_SNAPSHOT := Snapshot(0, map[])
  const EMPTY_DB := Db(0, map[], [], Disk([], NO_SNAPSHOT))

  function ApplyOp(d: Data, op: Op): Data {
    match op
    case Insert(col, key, value) => d[col := (if col in d then d[col] else map[])[key := value]]
    case Upsert(col, key, value) => d[col := (if col in d then d[col] else map[])[key := value]]
    case Delete(col, key) => if col in d then d[col := d[col] - {key}] else d
  }

  function ApplyOps(d: Data, ops: seq<Op>): Data {
    if ops == [] then d else ApplyOp(ApplyOps(d, ops[..|ops| - 1]), ops[|ops| - 1])
  }

  /** The data after whole entries. */
  function Replay(d: Data, es: seq<WalEntry>): Data {
    if es == [] then d else ApplyOps(Replay(d, es[..|es| - 1]), es[|es| - 1].ops)
  }

  lemma {:induction false} ReplayConcat(d: Data, a: seq<WalEntry>, b: seq<WalEntry>)
    ensures Replay(d, a + b) == Replay(Replay(d, a), b)
  {
    if b == [] {
      assert a + b == a;
    } else {
      ReplayConcat(d, a, b[..|b| - 1]);
      assert (a + b)[..|a + b| - 1] == a + b[..|b| - 1];
    }
  }

  // ---------------------------------------------------------------- what a record holds

  /** What `key` of `col` holds. */
  function At(d: Data, col: string, key: string): Option<Json> {
    if col in d && key in d[col] then Some(d[col][key]) else None
  }

  predicate On(op: Op, col: string, key: string) {
    op.collection == col && op.key == key
  }

  /** The last operation on `key` of `col`. */
  function LastOp(ops: seq<Op>, col: string, key: string): Option<Op> {
    if ops == [] then None
    else if On(ops[|ops| - 1], col, key) then Some(ops[|ops| - 1])
    else LastOp(ops[..|ops| - 1], col, key)
  }

  lemma {:induction false} LastOpIs(ops: seq<Op>, col: string, key: string)
    ensures match LastOp(ops, col, key)
      case None => forall i :: 0 <= i < |ops| ==> !On(ops[i], col, key)
      case Some(op) => exists i :: 0 <= i < |ops| && ops[i] == op && On(op, col, key) && forall j :: i < j < |ops| ==> !On(ops[j], col, key)
  {
    if ops != [] && !On(ops[|ops| - 1], col, key) {
      LastOpIs(ops[..|ops| - 1], col, key);
    }
  }

  /** The value of the last insert or upsert; nothing after a delete, or without any operation. */
  function Held(ops: seq<Op>, col: string, key: string): Option<Json> {
    match LastOp(ops, col, key)
    case Some(Insert(_, _, value)) => Some(value)
    case Some(Upsert(_, _, value)) => Some(value)
    case _ => None
  }

  /** Some operation put a record into `col`; a delete neither makes nor removes a collection. */
  predicate Filled(ops: seq<Op>, col: string) {
    exists i :: 0 <= i < |ops| && !ops[i].Delete? && ops[i].collection == col
  }

  /** All operations of these entries, in order. */
  function AllOps(es: seq<WalEntry>): seq<Op> {
    if es == [] then [] else AllOps(es[..|es| - 1]) + es[|es| - 1].ops
  }

  lemma {:induction false} ApplyOpsAt(d: Data, ops: seq<Op>, col: string, key: string)
    ensures At(ApplyOps(d, ops), col, key) == if LastOp(ops, col, key).Some? then Held(ops, col, key) else At(d, col, key)
    ensures col in ApplyOps(d, ops) <==> col in d || Filled(ops, col)
  {
    if ops != [] {
      var n := |ops| - 1;
      ApplyOpsAt(d, ops[..n], col, key);
      assert ops == ops[..n] + [ops[n]];
    }
  }

  lemma {:induction false} LastOpConcat(a: seq<Op>, b: seq<Op>, col: string, key: string)
    ensures LastOp(a + b, col, key) == if LastOp(b, col, key).Some? then LastOp(b, col, key) else LastOp(a, col, key)
  {
    if b == [] {
      assert a + b == a;
    } else {
      LastOpConcat(a, b[..|b| - 1], col, key);
      assert (a + b)[..|a + b| - 1] == a + b[..|b| - 1];
    }
  }

  /** After any entries a record holds what the last operation on it put there, and a collection exists once filled. */
  lemma {:induction false} ReplayAt(es: seq<WalEntry>, col: string, key: string)
    ensures At(Replay(map[], es), col, key) == Held(AllOps(es), col, key)
    ensures col in Replay(map[], es) <==> Filled(AllOps(es), col)
  {
    hide ApplyOps;
    if es != [] {
      var n := |es| - 1;
      ReplayAt(es[..n], col, key);
      ApplyOpsAt(Replay(map[], es[..n]), es[n].ops, col, key);
      LastOpConcat(AllOps(es[..n]), es[n].ops, col, key);
      FilledConcat(AllOps(es[..n]), es[n].ops, col);
    }
  }

  lemma FilledConcat(a: seq<Op>, b: seq<Op>, col: string)
    ensures Filled(a + b, col) <==> Filled(a, col) || Filled(b, col)
  {
    var c := a + b;
    if i :| 0 <= i < |a| && !a[i].Delete? && a[i].collection == col {
      assert c[i] == a[i];
    }
    if i :| 0 <= i < |b| && !b[i].Delete? && b[i].collection == col {
      assert c[|a| + i] == b[i];
    }
  }

  function Max(a: nat, b: nat): nat {
    if a < b then b else a
  }

  function MaxSeq(s: nat, es: seq<WalEntry>): nat {
    if es == [] then s else Max(MaxSeq(s, es[..|es| - 1]), es[|es| - 1].seqNo)
  }

  // ---------------------------------------------------------------- what the operations do

  function Append(c: Codec, disk: Disk, es: seq<WalEntry>): Disk {
    disk.(wal := disk.wal + Text(c, es))
  }

  function Flushed(c: Codec, db: Db): Db {
    db.(pending := [], disk := Append(c, db.disk, db.pending))
  }

  function NextEntry(db: Db, ops: seq<Op>): WalEntry {
    WalEntry(db.lastSeq + 1, ops)
  }

  function Committed(c: Codec, dur: Durability, db: Db, ops: seq<Op>): Db {
    if ops == [] then db else
      var e := NextEntry(db, ops);
      var applied := db.(lastSeq := e.seqNo, data := ApplyOps(db.data, ops));
      match dur
      case Batch(max) =>
        var queued := applied.(pending := db.pending + [e]);
        if |queued.pending| >= max then Flushed(c, queued) else queued
      case Full => applied.(disk := Append(c, db.disk, [e]))
      case Off => applied.(disk := Append(c, db.disk, [e]))
  }

  function Captured(db: Db): Snapshot {
    Snapshot(db.lastSeq, db.data)
  }

  function Installed(db: Db, s: Snapshot): Db {
    db.(disk := db.disk.(snap := s))
  }

  function Truncated(db: Db, captured: nat): Db {
    if db.lastSeq == captured then db.(disk := db.disk.(wal := [])) else db
  }

  /** What opening finds: the snapshot and the entries after it; nothing when the log is not text. */
  function Recovered(c: Codec, disk: Disk): Option<Snapshot> {
    match Read(c, disk.wal, disk.snap.lastSeq)
    case Some(es) => Some(Snapshot(MaxSeq(disk.snap.lastSeq, es), Replay(disk.snap.data, es)))
    case None => None
  }

  function Opened(disk: Disk, s: Snapshot): Db {
    Db(s.lastSeq, s.data, [], disk)
  }

  // ---------------------------------------------------------------- the operations

  method Apply(d: Data, ops: seq<Op>) returns (r: Data)
    ensures r == ApplyOps(d, ops)
    ensures forall col, key :: At(r, col, key) == if LastOp(ops, col, key).Some? then Held(ops, col, key) else At(d, col, key)
  {
    r := d;
    assert ops[..0] == [];
    for i := 0 to |ops|
      invariant r == ApplyOps(d, ops[..i])
    {
      r := ApplyOp(r, ops[i]);
      assert ops[..i + 1][..i] == ops[..i];
    }
    assert ops[..|ops|] == ops;
    forall col, key ensures At(r, col, key) == if LastOp(ops, col, key).Some? then Held(ops, col, key) else At(d, col, key) {
      ApplyOpsAt(d, ops, col, key);
    }
  }

  /** Read the snapshot, then replay the entries of the log that it does not cover. */
  method Recover(c: Codec, disk: Disk) returns (r: Option<Snapshot>)
    ensures r == Recovered(c, disk)
  {
    hide Read, ApplyOps;
    var entries := ReadAfter(c, disk.wal, disk.snap.lastSeq);
    if entries.None? {
      return None;
    }
    var es, s := entries.value, disk.snap;
    assert es[..0] == [];
    for i := 0 to |es|
      invariant s == Snapshot(MaxSeq(disk.snap.lastSeq, es[..i]), Replay(disk.snap.data, es[..i]))
    {
      assert es[..i + 1][..i] == es[..i];
      var data := Apply(s.data, es[i].ops);
      s := Snapshot(Max(s.lastSeq, es[i].seqNo), data);
    }
    assert es[..|es|] == es;
    r := Some(s);
  }

  class Inner {
    const codec: Codec
    const durability: Durability
    var lastSeq: nat
    var data: Data
    var pending: seq<WalEntry>
    var wal: Bytes
    var snapshotFile: Snapshot

    function State(): Db
      reads this
    {
      Db(lastSeq, data, pending, Disk(wal, snapshotFile))
    }

    constructor (c: Codec, dur: Durability, disk: Disk, s: Snapshot)
      ensures codec == c && durability == dur
      ensures State() == Opened(disk, s)
    {
      codec, durability := c, dur;
      lastSeq, data, pending := s.lastSeq, s.data, [];
      wal, snapshotFile := disk.wal, disk.snap;
    }

    method WriteEntry(e: WalEntry)
      modifies this`wal
      ensures wal == old(wal) + Line(codec, e)
    {
      wal := wal + codec.show(e) + [NEWLINE];
    }

    /** Write the pending entries to the log one after another. */
    method FlushPending() returns (count: nat)
      modifies this
      ensures count == |old(pending)|
      ensures State() == Flushed(codec, old(State()))
    {
      count := |pending|;
      if count == 0 {
        assert wal + [] == wal;
        return;
      }
      assert pending[..0] == [] && wal + [] == wal;
      for i := 0 to |pending|
        invariant pending == old(pending) && lastSeq == old(lastSeq) && data == old(data)
        invariant snapshotFile == old(snapshotFile)
        invariant wal == old(wal) + Text(codec, pending[..i])
      {
        WriteEntry(pending[i]);
        TextConcat(codec, pending[..i], [pending[i]]);
        TextOne(codec, pending[i]);
        assert pending[..i + 1] == pending[..i] + [pending[i]];
      }
      assert pending[..|pending|] == pending;
      pending := [];
    }

    /** Number the operations, apply them in memory, and write or queue them as one entry. */
    method Commit(ops: seq<Op>) returns (number: nat)
      modifies this
      ensures number == if ops == [] then 0 else old(lastSeq) + 1
      ensures State() == Committed(codec, durability, old(State()), ops)
      ensures ops != [] ==>
        var e := WalEntry(number, ops);
        match durability
        case Batch(max) =>
          if |old(pending)| + 1 < max then wal == old(wal) && pending == old(pending) + [e]
          else wal == old(wal) + Text(codec, old(pending) + [e]) && pending == []
        case _ => wal == old(wal) + Line(codec, e) && pending == old(pending)
    {
      if ops == [] {
        return 0;
      }
      lastSeq := lastSeq + 1;
      number := lastSeq;
      var e := WalEntry(number, ops);
      data := Apply(data, ops);
      match durability {
        case Batch(max) =>
          pending := pending + [e];
          if |pending| >= max {
            var _ := FlushPending();
          }
        case Full =>
          WriteEntry(e);
          TextOne(codec, e);
        case Off =>
          WriteEntry(e);
          TextOne(codec, e);
      }
    }

    method Capture() returns (s: Snapshot)
      ensures s == Captured(State())
    {
      s := Snapshot(lastSeq, data);
    }

    method Install(s: Snapshot)
      modifies this`snapshotFile
      ensures State() == Installed(old(State()), s)
    {
      snapshotFile := s;
    }

    method Truncate(captured: nat)
      modifies this`wal
      ensures State() == Truncated(old(State()), captured)
    {
      if lastSeq == captured {
        wal := [];
      }
    }
  }
}
