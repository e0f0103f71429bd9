/** A single put or delete is a batch of one (engine.rs). */
module SingleWrites {
  import opened Segment
  import opened Index
  import opened BlobStore
  import opened StoreWrites
  import opened Runs

  lemma AppendOne(st: Store, e: Entry)
    requires st.Ready()
    ensures AppendMany(st, [e]) == AppendEntry(st, e) && AppendedRecords(st, [e]) == [Appended(AppendEntry(st, e))]
  {
    hide AppendEntry, Appended;
    assert [e][..0] == [];
    assert AppendMany(st, [e]) == AppendEntry(AppendMany(st, []), e);
    assert AppendedRecords(st, [e]) == AppendedRecords(st, []) + [Appended(AppendMany(st, [e]))];
  }

  lemma AppendedKey(st: Store, e: Entry)
    requires st.Ready()
    ensures Appended(AppendEntry(st, e)).key == e.key
  {
  }

  lemma CommitOne(s: Store, r: IndexRecord)
    ensures CommitBatch(s, [r]) == Mark(s.(index := s.index[r.key := r]), r)
  {
    var index := s.index[r.key := r];
    assert [r][..0] == [];
    assert InsertAll(s.index, [r]) == index;
    var d := s.(index := index, saved := s.meta);
    assert MarkAll(d, [r]) == Mark(d, r);
  }

  lemma WriteOneIsBatch(st: Store, e: Entry)
    requires st.Ready()
    ensures WriteOne(st, e) == CommitBatch(AppendMany(st, [e]), AppendedRecords(st, [e]))
  {
    hide AppendEntry, CommitBatch, AppendMany, AppendedRecords, Appended, Mark;
    AppendOne(st, e);
    AppendedKey(st, e);
    CommitOne(AppendEntry(st, e), Appended(AppendEntry(st, e)));
  }

  lemma DeleteOneIsBatch(st: Store, k: Key)
    requires st.Ready()
    ensures DeleteOne(st, k) == DeleteBatch(st, [k])
  {
    hide AppendEntry, CountDeleted, CommitBatch, Appended, AppendMany, AppendedRecords, WriteOne;
    var e, c := Tombstone(k), CountDeleted(st, k);
    WriteOneIsBatch(c, e);
    AppendOne(c, e);
    AppendOne(st, e);
    assert Tombstones([k]) == [e] && [k][..0] == [];
    assert DeleteMany(st, [k]) == AppendEntry(CountDeleted(DeleteMany(st, []), k), e);
    AppendCongruent(c, st, e);
    AppendedCongruent(AppendEntry(c, e), AppendEntry(st, e));
  }

  lemma AppendedCongruent(a: Store, b: Store)
    requires a.Ready() && a.Active() != [] && a.logs == b.logs && a.meta.active == b.meta.active
    ensures Appended(a) == Appended(b)
  {
  }

  lemma AppendNone(st: Store)
    requires st.Ready()
    ensures AppendMany(st, []) == st
  {
  }
}
