/** Importing an mbox file: mails are buffered per folder and sent in batches (mbox/mod.rs). */
module MboxImport {
  import opened Words
  import GmailLabels

  const MAX_EMAIL_BYTES := 100 * 1024 * 1024
  const MAX_BUFFER_BYTES := 200 * 1024 * 1024
  const BATCH_LIMIT := 50

  type Folder = string
  type Buffers = map<Folder, seq<string>>

  /** What the headers of a mail say: its metadata with a mailbox or none, and its labels. */
  datatype Headers = Headers(metadata: Option<Option<Folder>>, labels: Option<string>)

  datatype Import = Import(
    parse: Bytes -> Option<Headers>, encode: Bytes -> string, target: Option<Folder>, known: GmailLabels.Known)
  datatype Mail = Mail(folder: Folder, eml: string)
  datatype Batch = Batch(folder: Folder, emls: seq<string>)

  function DefaultFolder(p: Import, h: Headers): Folder {
    GmailLabels.DetermineFolder(p.known, if h.labels.Some? then h.labels.value else "INBOX")
  }

  function FolderOf(p: Import, h: Headers): Folder {
    if p.target.Some? then p.target.value
    else if h.metadata.Some? then
      (if h.metadata.value.Some? then h.metadata.value.value else DefaultFolder(p, h))
    else DefaultFolder(p, h)
  }

  /** The labels of a mail, or the one that stands for none. */
  function LabelsOf(p: Import, h: Headers): seq<string> {
    GmailLabels.Labels(p.known, match h.labels case Some(raw) => raw case None => "INBOX")
  }

  /** A mail goes to the folder asked for; else to the mailbox it was exported from; else by its labels. */
  ghost predicate GoesTo(p: Import, h: Headers, f: Folder) {
    || p.target == Some(f)
    || (p.target == None && h.metadata == Some(Some(f)))
    || (&& p.target == None && h.metadata in {None, Some(None)}
        && if LabelsOf(p, h) == [] then f == "Unknown"
           else exists i: nat :: GmailLabels.FirstBest(p.known, LabelsOf(p, h), i) && LabelsOf(p, h)[i] == f)
  }

  lemma FolderOfIs(p: Import, h: Headers, f: Folder)
    ensures FolderOf(p, h) == f <==> GoesTo(p, h, f)
  {
    hide GmailLabels.DetermineFolder, GmailLabels.Labels, GmailLabels.Rank;
    var labels := LabelsOf(p, h);
    GmailLabels.FolderIsFirstBest(p.known, if h.labels.Some? then h.labels.value else "INBOX");
    if labels != [] {
      var i: nat :| GmailLabels.FirstBest(p.known, labels, i) && labels[i] == DefaultFolder(p, h);
      forall j: nat | GmailLabels.FirstBest(p.known, labels, j) ensures i == j {
        GmailLabels.OneFirstBest(p.known, labels, i, j);
      }
    }
  }

  /** A mail that can be imported under this folder and text. */
  ghost predicate Imports(p: Import, body: Bytes, m: Mail) {
    && |body| <= MAX_EMAIL_BYTES
    && p.parse(body).Some? && GoesTo(p, p.parse(body).value, m.folder)
    && m.eml == p.encode(body)
  }

  /** What of the file is to be imported; oversized and unreadable mails are left out. */
  function Kept(p: Import, mails: seq<Bytes>): seq<Mail> {
    if mails == [] then [] else
      var n := |mails| - 1;
      Kept(p, mails[..n]) + KeptOne(p, mails[n])
  }

  function KeptOne(p: Import, body: Bytes): seq<Mail> {
    if |body| > MAX_EMAIL_BYTES then [] else
      match p.parse(body)
      case None => []
      case Some(h) => [Mail(FolderOf(p, h), p.encode(body))]
  }

  /** `kept` is made of the mails at these places, and no other can be imported. */
  ghost predicate MadeOf(p: Import, mails: seq<Bytes>, kept: seq<Mail>, at: seq<nat>) {
    && |at| == |kept|
    && (forall i, j :: 0 <= i < j < |at| ==> at[i] < at[j])
    && (forall i :: 0 <= i < |at| ==> at[i] < |mails| && Imports(p, mails[at[i]], kept[i]))
    && (forall n, m :: 0 <= n < |mails| && Imports(p, mails[n], m) ==> n in at)
  }

  /** What is kept is exactly what can be imported, each mail of the file once and in its order. */
  lemma {:induction false} KeptAre(p: Import, mails: seq<Bytes>)
    ensures exists at :: MadeOf(p, mails, Kept(p, mails), at)
  {
    hide MadeOf;
    if mails == [] {
      NoneKept(p);
    } else {
      var n := |mails| - 1;
      KeptAre(p, mails[..n]);
      var at :| MadeOf(p, mails[..n], Kept(p, mails[..n]), at);
      OneMore(p, mails[..n], Kept(p, mails[..n]), at, mails[n]);
      assert mails[..n] + [mails[n]] == mails;
      assert Kept(p, mails) == Kept(p, mails[..n]) + KeptOne(p, mails[n]);
    }
  }

  lemma NoneKept(p: Import)
    ensures MadeOf(p, [], Kept(p, []), [])
  {
  }

  lemma KeptOneIs(p: Import, body: Bytes)
    ensures |KeptOne(p, body)| <= 1
    ensures KeptOne(p, body) == [] ==> forall m :: !Imports(p, body, m)
    ensures KeptOne(p, body) != [] ==> Imports(p, body, KeptOne(p, body)[0])
  {
    hide GoesTo, FolderOf;
    if p.parse(body).Some? {
      FolderOfIs(p, p.parse(body).value, FolderOf(p, p.parse(body).value));
    }
  }

  lemma OneMore(p: Import, mails: seq<Bytes>, kept: seq<Mail>, at: seq<nat>, body: Bytes)
    requires MadeOf(p, mails, kept, at)
    ensures exists all :: MadeOf(p, mails + [body], kept + KeptOne(p, body), all)
  {
    hide Imports, KeptOne;
    KeptOneIs(p, body);
    var more := mails + [body];
    assert more[|mails|] == body && forall n :: 0 <= n < |mails| ==> more[n] == mails[n];
    if KeptOne(p, body) == [] {
      assert kept + [] == kept;
      assert MadeOf(p, more, kept, at);
    } else {
      var all := at + [|mails|];
      assert all[|at|] == |mails|;
      forall n, m | 0 <= n < |more| && Imports(p, more[n], m) ensures n in all {
        if n < |mails| {
          assert Imports(p, mails[n], m);
        }
      }
      assert KeptOne(p, body) == [KeptOne(p, body)[0]];
      assert MadeOf(p, more, kept + KeptOne(p, body), all);
    }
  }

  function InFolder(mails: seq<Mail>, f: Folder): seq<string> {
    if mails == [] then [] else
      var n := |mails| - 1;
      InFolder(mails[..n], f) + (if mails[n].folder == f then [mails[n].eml] else [])
  }

  function SentTo(sent: seq<Batch>, f: Folder): seq<string> {
    if sent == [] then [] else
      var n := |sent| - 1;
      SentTo(sent[..n], f) + (if sent[n].folder == f then sent[n].emls else [])
  }

  function SentCount(sent: seq<Batch>): nat {
    if sent == [] then 0 else SentCount(sent[..|sent| - 1]) + |sent[|sent| - 1].emls|
  }

  function Buffered(buffers: Buffers, f: Folder): seq<string> {
    if f in buffers then buffers[f] else []
  }

  function ByteCount(emls: seq<string>): nat {
    if emls == [] then 0 else ByteCount(emls[..|emls| - 1]) + |emls[|emls| - 1]|
  }

  // ---------------------------------------------------------------- sums over the buffers

  ghost function Sum(weigh: seq<string> -> nat, buffers: Buffers): nat
    decreases |buffers|
  {
    if buffers == map[] then 0 else
      var f :| f in buffers;
      weigh(buffers[f]) + Sum(weigh, buffers - {f})
  }

  lemma {:induction false} SumSplit(weigh: seq<string> -> nat, buffers: Buffers, f: Folder)
    requires f in buffers
    ensures Sum(weigh, buffers) == weigh(buffers[f]) + Sum(weigh, buffers - {f})
    decreases |buffers|
  {
    var g :| g in buffers && Sum(weigh, buffers) == weigh(buffers[g]) + Sum(weigh, buffers - {g});
    if g != f {
      SumSplit(weigh, buffers - {g}, f);
      SumSplit(weigh, buffers - {f}, g);
      assert buffers - {g} - {f} == buffers - {f} - {g};
    }
  }

  lemma SumPut(weigh: seq<string> -> nat, buffers: Buffers, f: Folder, emls: seq<string>)
    requires weigh([]) == 0
    ensures Sum(weigh, buffers[f := emls]) + weigh(Buffered(buffers, f)) == Sum(weigh, buffers) + weigh(emls)
  {
    SumSplit(weigh, buffers[f := emls], f);
    if f in buffers {
      SumSplit(weigh, buffers, f);
      assert buffers[f := emls] - {f} == buffers - {f};
    } else {
      assert buffers[f := emls] - {f} == buffers;
    }
  }

  // ---------------------------------------------------------------- the import

  /** Every kept mail is in exactly one place, in order: sent, or waiting in its folder's buffer. */
  ghost predicate Accounted(kept: seq<Mail>, buffers: Buffers, sent: seq<Batch>) {
    && (forall f :: SentTo(sent, f) + Buffered(buffers, f) == InFolder(kept, f))
    && SentCount(sent) + Sum(s => |s|, buffers) == |kept|
  }

  predicate BatchesOk(sent: seq<Batch>) {
    forall i :: 0 <= i < |sent| ==> 0 < |sent[i].emls| <= BATCH_LIMIT
  }

  predicate BuffersOk(buffers: Buffers) {
    forall f :: f in buffers ==> 0 < |buffers[f]| < BATCH_LIMIT
  }

  lemma Push(kept: seq<Mail>, buffers: Buffers, sent: seq<Batch>, m: Mail)
    requires Accounted(kept, buffers, sent)
    ensures Accounted(kept + [m], buffers[m.folder := Buffered(buffers, m.folder) + [m.eml]], sent)
  {
    var emls := Buffered(buffers, m.folder) + [m.eml];
    var after := buffers[m.folder := emls];
    SumPut(s => |s|, buffers, m.folder, emls);
    forall f ensures SentTo(sent, f) + Buffered(after, f) == InFolder(kept + [m], f) {
      assert (kept + [m])[..|kept|] == kept;
      assert f == m.folder ==> SentTo(sent, f) + emls == SentTo(sent, f) + Buffered(buffers, f) + [m.eml];
      assert InFolder(kept, f) + [] == InFolder(kept, f);
    }
  }

  lemma Send(kept: seq<Mail>, buffers: Buffers, sent: seq<Batch>, f: Folder)
    requires Accounted(kept, buffers, sent) && f in buffers
    ensures Accounted(kept, buffers - {f}, sent + [Batch(f, buffers[f])])
  {
    var after := sent + [Batch(f, buffers[f])];
    assert after[..|sent|] == sent;
    SumSplit(s => |s|, buffers, f);
    forall g ensures SentTo(after, g) + Buffered(buffers - {f}, g) == InFolder(kept, g) {
      assert SentTo(sent, g) + [] == SentTo(sent, g);
      assert SentTo(sent, f) + buffers[f] + [] == SentTo(sent, f) + buffers[f];
    }
  }

  lemma BytesOfPush(buffers: Buffers, f: Folder, eml: string)
    ensures Sum(ByteCount, buffers[f := Buffered(buffers, f) + [eml]]) == Sum(ByteCount, buffers) + |eml|
  {
    var emls := Buffered(buffers, f) + [eml];
    SumPut(ByteCount, buffers, f, emls);
    assert emls[..|emls| - 1] == Buffered(buffers, f);
  }

  method Freed(emls: seq<string>) returns (freed: nat)
    ensures freed == ByteCount(emls)
  {
    freed := 0;
    assert emls[..0] == [];
    for i := 0 to |emls|
      invariant freed == ByteCount(emls[..i])
    {
      freed := freed + |emls[i]|;
      assert emls[..i + 1][..i] == emls[..i];
    }
    assert emls[..|emls|] == emls;
  }

  function SaturatingSub(a: nat, b: nat): nat {
    if b <= a then a - b else 0
  }

  /** Buffer one mail, and send its folder's buffer when it is full or all buffers together are. */
  method Take(m: Mail, buffers: Buffers, total: nat, sent: seq<Batch>, ghost kept: seq<Mail>)
    returns (buffersAfter: Buffers, totalAfter: nat, sentAfter: seq<Batch>)
    requires Accounted(kept, buffers, sent) && BatchesOk(sent) && BuffersOk(buffers)
    requires total == Sum(ByteCount, buffers) < MAX_BUFFER_BYTES
    ensures Accounted(kept + [m], buffersAfter, sentAfter) && BatchesOk(sentAfter) && BuffersOk(buffersAfter)
    ensures totalAfter == Sum(ByteCount, buffersAfter) < MAX_BUFFER_BYTES
  {
    hide Sum, Accounted, ByteCount;
    var buffer := Buffered(buffers, m.folder) + [m.eml];
    buffersAfter, totalAfter, sentAfter := buffers[m.folder := buffer], total + |m.eml|, sent;
    Push(kept, buffers, sent, m);
    BytesOfPush(buffers, m.folder, m.eml);
    if |buffer| >= BATCH_LIMIT || totalAfter >= MAX_BUFFER_BYTES {
      ghost var full := buffersAfter;
      var freed := Freed(buffer);
      Send(kept + [m], full, sent, m.folder);
      SumSplit(ByteCount, full, m.folder);
      BytesBelow(buffers, m.folder, buffer);
      buffersAfter := buffersAfter - {m.folder};
      assert freed <= totalAfter;
      totalAfter := SaturatingSub(totalAfter, freed);
      sentAfter := sent + [Batch(m.folder, buffer)];
    }
  }

  /** What the other folders hold is not more than what all held before. */
  lemma BytesBelow(buffers: Buffers, f: Folder, emls: seq<string>)
    ensures Sum(ByteCount, buffers[f := emls] - {f}) <= Sum(ByteCount, buffers)
  {
    hide ByteCount;
    assert buffers[f := emls] - {f} == buffers - {f};
    if f in buffers {
      SumSplit(ByteCount, buffers, f);
    } else {
      assert buffers - {f} == buffers;
    }
  }

  lemma NothingBuffered()
    ensures Sum(ByteCount, map[]) == 0 && Accounted([], map[], [])
  {
  }

  lemma AllSent(kept: seq<Mail>, sent: seq<Batch>)
    requires Accounted(kept, map[], sent)
    ensures forall f :: SentTo(sent, f) == InFolder(kept, f)
    ensures SentCount(sent) == |kept|
  {
    forall f ensures SentTo(sent, f) == InFolder(kept, f) {
      assert SentTo(sent, f) + [] == SentTo(sent, f);
    }
  }

  /**
   * The batches sent for a folder are that folder's kept mails in file order, nothing lost and nothing twice;
   * every mail read is sent or counted as skipped; no batch is empty or above the limit.
   */
  method RunImport(p: Import, mails: seq<Bytes>) returns (sent: seq<Batch>, skipped: nat)
    ensures forall f :: SentTo(sent, f) == InFolder(Kept(p, mails), f)
    ensures SentCount(sent) + skipped == |mails|
    ensures BatchesOk(sent)
  {
    hide Sum, Accounted, InFolder, SentTo, SentCount, ByteCount;
    var buffers: Buffers, total := map[], 0;
    sent, skipped := [], 0;
    NothingBuffered();
    assert mails[..0] == [];
    for i := 0 to |mails|
      invariant Accounted(Kept(p, mails[..i]), buffers, sent) && BatchesOk(sent) && BuffersOk(buffers)
      invariant total == Sum(ByteCount, buffers) < MAX_BUFFER_BYTES
      invariant |Kept(p, mails[..i])| + skipped == i
    {
      var body := mails[i];
      ghost var kept := Kept(p, mails[..i]);
      assert mails[..i + 1][..i] == mails[..i];
      assert kept + [] == kept;
      if |body| > MAX_EMAIL_BYTES {
        skipped := skipped + 1;
        continue;
      }
      var headers := p.parse(body);
      if headers.None? {
        skipped := skipped + 1;
        continue;
      }
      buffers, total, sent := Take(Mail(FolderOf(p, headers.value), p.encode(body)), buffers, total, sent, kept);
    }
    assert mails[..|mails|] == mails;
    while buffers != map[]
      invariant Accounted(Kept(p, mails), buffers, sent) && BatchesOk(sent) && BuffersOk(buffers)
      decreases |buffers|
    {
      var f :| f in buffers;
      Send(Kept(p, mails), buffers, sent, f);
      if buffers[f] != [] {
        sent := sent + [Batch(f, buffers[f])];
      }
      buffers := buffers - {f};
    }
    AllSent(Kept(p, mails), sent);
  }
}
