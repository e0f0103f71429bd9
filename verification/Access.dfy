/** Which mail a user may read: directly, or through views over other accounts (access.rs). */
module Access {
  import opened Words

  datatype Envelope = Envelope(from: string, to: seq<string>, cc: seq<string>, bcc: seq<string>)

  /** A source of a view; a scope group of a search has the same fields. */
  datatype Source = Source(account: nat, anyParticipant: seq<string>, anyRecipient: seq<string>)

  datatype AccountType = Imap | NoSync | View
  datatype Account = Account(id: nat, kind: AccountType, view: Option<seq<Source>>)

  /** Trimming and case folding of addresses. */
  datatype Folding = Folding(trim: string -> string, equal: (string, string) -> bool)

  /** What a user holds: a role for all accounts, and per granted account whether the grant allows reading now. */
  datatype Reader = Reader(everywhere: bool, grants: map<nat, bool>)

  predicate CanRead(r: Reader, id: nat) {
    r.everywhere || (id in r.grants && r.grants[id])
  }

  datatype Permission = DataRead | DataReadAll | OtherPermission

  /** A role for all accounts gives its permissions, and reading when it is for all data. */
  predicate GlobalAllows(global: set<Permission>, p: Permission) {
    p in global || (p == DataRead && DataReadAll in global)
  }

  predicate HasGlobally(admin: bool, global: set<Permission>, p: Permission) {
    admin || GlobalAllows(global, p)
  }

  function ReaderOf(admin: bool, global: set<Permission>, grants: map<nat, bool>): Reader {
    Reader(HasGlobally(admin, global, DataRead), grants)
  }

  function Unbounded(id: nat): Source {
    Source(id, [], [])
  }

  predicate Unfiltered(g: Source) {
    g.anyParticipant == [] && g.anyRecipient == []
  }

  predicate ListMatches(f: Folding, list: seq<string>, address: string) {
    exists i :: 0 <= i < |list| && f.equal(list[i], address)
  }

  predicate ParticipantMatches(f: Folding, e: Envelope, address: string, includeSender: bool) {
    var a := f.trim(address);
    && a != ""
    && (|| (includeSender && f.equal(e.from, a))
        || ListMatches(f, e.to, a) || ListMatches(f, e.cc, a) || ListMatches(f, e.bcc, a))
  }

  predicate AnyMatches(f: Folding, addresses: seq<string>, e: Envelope, includeSender: bool) {
    exists i :: 0 <= i < |addresses| && ParticipantMatches(f, e, addresses[i], includeSender)
  }

  // ---------------------------------------------------------------- what a filter of a view asks for

  function Recipients(e: Envelope): seq<string> {
    e.to + e.cc + e.bcc
  }

  /** An address of a filter that is not blank and is that of one of the people. */
  predicate Names(f: Folding, address: string, people: seq<string>) {
    f.trim(address) != "" && exists p :: p in people && f.equal(p, f.trim(address))
  }

  predicate NamesOne(f: Folding, addresses: seq<string>, people: seq<string>) {
    exists a :: a in addresses && Names(f, a, people)
  }

  /**
   * What a source asks of a message: if it lists participants, one of them sent or received it; if it lists
   * recipients, one of them received it.
   */
  predicate Concerns(f: Folding, g: Source, e: Envelope) {
    && (g.anyParticipant != [] ==> NamesOne(f, g.anyParticipant, [e.from] + Recipients(e)))
    && (g.anyRecipient != [] ==> NamesOne(f, g.anyRecipient, Recipients(e)))
  }

  function People(e: Envelope, includeSender: bool): seq<string> {
    if includeSender then [e.from] + Recipients(e) else Recipients(e)
  }

  lemma ParticipantMeans(f: Folding, e: Envelope, address: string, includeSender: bool)
    ensures ParticipantMatches(f, e, address, includeSender) <==> Names(f, address, People(e, includeSender))
  {
    var a, people := f.trim(address), People(e, includeSender);
    assert forall p :: p in people <==> (includeSender && p == e.from) || p in e.to || p in e.cc || p in e.bcc;
    if Names(f, address, people) {
      var p :| p in people && f.equal(p, a);
      assert (includeSender && p == e.from) || ListMatches(f, e.to, a) || ListMatches(f, e.cc, a)
        || ListMatches(f, e.bcc, a);
    }
  }

  lemma AnyMatchesMeans(f: Folding, addresses: seq<string>, e: Envelope, includeSender: bool)
    ensures AnyMatches(f, addresses, e, includeSender) <==> NamesOne(f, addresses, People(e, includeSender))
  {
    hide ParticipantMatches, Names;
    forall i | 0 <= i < |addresses|
      ensures ParticipantMatches(f, e, addresses[i], includeSender) <==> Names(f, addresses[i], People(e, includeSender))
    {
      ParticipantMeans(f, e, addresses[i], includeSender);
    }
  }

  /** Who sent a message does not matter to a source that lists no participants. */
  lemma SenderIrrelevant(f: Folding, g: Source, e: Envelope, from: string)
    requires g.anyParticipant == []
    ensures Matches(f, g, e.(from := from)) == Matches(f, g, e)
  {
    assert Recipients(e.(from := from)) == Recipients(e);
  }

  /** A message that a listed recipient only sent is not what the source asks for. */
  lemma SentIsNotReceived(f: Folding, g: Source, e: Envelope)
    requires g.anyRecipient != [] && forall a, p :: a in g.anyRecipient && p in Recipients(e) ==> !f.equal(p, f.trim(a))
    ensures !Matches(f, g, e)
  {
  }

  predicate Matches(f: Folding, g: Source, e: Envelope): (r: bool)
    ensures r <==> Concerns(f, g, e)
  {
    AnyMatchesMeans(f, g.anyParticipant, e, true);
    AnyMatchesMeans(f, g.anyRecipient, e, false);
    if g.anyParticipant != [] && !AnyMatches(f, g.anyParticipant, e, true) then false
    else if g.anyRecipient != [] && !AnyMatches(f, g.anyRecipient, e, false) then false
    else true
  }

  function Find(accounts: seq<Account>, id: nat): (r: Option<Account>)
    ensures r.Some? ==> r.value.id == id && r.value in accounts
  {
    if accounts == [] then None
    else if accounts[0].id == id then Some(accounts[0])
    else Find(accounts[1..], id)
  }

  /** All accounts, without the views when views are switched off. */
  function Readable(accounts: seq<Account>, viewsOn: bool): seq<Account> {
    if accounts == [] then []
    else (if viewsOn || accounts[0].kind != View then [accounts[0]] else []) + Readable(accounts[1..], viewsOn)
  }

  function SourcesOf(account: Account): seq<Source> {
    if account.view.Some? then account.view.value else []
  }

  // ---------------------------------------------------------------- the operations

  /** The groups that one candidate account adds to a search. */
  function GroupsFor(accounts: seq<Account>, r: Reader, id: nat): seq<Source> {
    match Find(accounts, id)
    case None => []
    case Some(account) =>
      if !CanRead(r, id) then []
      else if account.kind == View then SourcesOf(account)
      else [Unbounded(id)]
  }

  function ScopeGroups(accounts: seq<Account>, r: Reader, candidates: seq<nat>): seq<Source> {
    if candidates == [] then [] else
      var n := |candidates| - 1;
      ScopeGroups(accounts, r, candidates[..n]) + GroupsFor(accounts, r, candidates[n])
  }

  method ScopeGroupsFor(accounts: seq<Account>, r: Reader, candidates: seq<nat>) returns (groups: seq<Source>)
    ensures groups == ScopeGroups(accounts, r, candidates)
  {
    groups := [];
    assert candidates[..0] == [];
    for i := 0 to |candidates|
      invariant groups == ScopeGroups(accounts, r, candidates[..i])
    {
      var id := candidates[i];
      assert candidates[..i + 1][..i] == candidates[..i];
      var found := Find(accounts, id);
      ghost var before := groups;
      if found.Some? && CanRead(r, id) {
        if found.value.kind == View {
          var sources := SourcesOf(found.value);
          for j := 0 to |sources|
            invariant groups == before + sources[..j]
          {
            groups := groups + [Source(sources[j].account, sources[j].anyParticipant, sources[j].anyRecipient)];
          }
          assert sources[..|sources|] == sources;
        } else {
          groups := groups + [Unbounded(id)];
        }
      }
      assert groups == before + GroupsFor(accounts, r, id);
    }
    assert candidates[..|candidates|] == candidates;
  }

  /** The accounts of the groups that carry no filter. */
  function UnfilteredAccounts(groups: seq<Source>): seq<nat> {
    if groups == [] then []
    else (if Unfiltered(groups[0]) then [groups[0].account] else []) + UnfilteredAccounts(groups[1..])
  }

  /** View `v` grants the reading of `e` in `account`. */
  predicate Grants(f: Folding, accounts: seq<Account>, r: Reader, v: nat, account: nat, e: Envelope) {
    && CanRead(r, v)
    && var found := Find(accounts, v);
       found.Some? && found.value.kind == View && Delegates(f, SourcesOf(found.value), account, e)
  }

  predicate Delegates(f: Folding, sources: seq<Source>, account: nat, e: Envelope) {
    exists i :: 0 <= i < |sources| && sources[i].account == account && Concerns(f, sources[i], e)
  }

  /** The first granted view, in the order of the grants, through which the message may be read. */
  method ViewGranting(f: Folding, accounts: seq<Account>, viewsOn: bool, r: Reader, granted: seq<nat>,
                      account: nat, e: Envelope) returns (view: Option<nat>)
    requires forall id :: id in granted <==> id in r.grants
    ensures view.Some? ==> viewsOn && view.value in r.grants && Grants(f, accounts, r, view.value, account, e)
    ensures view.None? && viewsOn ==> forall v :: v in r.grants ==> !Grants(f, accounts, r, v, account, e)
  {
    if !viewsOn {
      return None;
    }
    for i := 0 to |granted|
      invariant forall k :: 0 <= k < i ==> !Grants(f, accounts, r, granted[k], account, e)
    {
      var v := granted[i];
      var found := Find(accounts, v);
      if CanRead(r, v) && found.Some? && found.value.kind == View {
        var sources := SourcesOf(found.value);
        for j := 0 to |sources|
          invariant forall k :: 0 <= k < j ==> !(sources[k].account == account && Concerns(f, sources[k], e))
        {
          if sources[j].account == account {
            var group := Source(account, sources[j].anyParticipant, sources[j].anyRecipient);
            if Matches(f, group, e) {
              assert Delegates(f, sources, account, e);
              return Some(v);
            }
          }
        }
      }
    }
    return None;
  }

  ghost predicate ThroughView(f: Folding, accounts: seq<Account>, viewsOn: bool, r: Reader, account: nat,
                              e: Envelope) {
    viewsOn && exists v :: v in r.grants && Grants(f, accounts, r, v, account, e)
  }

  ghost predicate MayRead(f: Folding, accounts: seq<Account>, viewsOn: bool, r: Reader, account: nat, e: Envelope) {
    CanRead(r, account) || ThroughView(f, accounts, viewsOn, r, account, e)
  }

  method MayReadMail(f: Folding, accounts: seq<Account>, viewsOn: bool, r: Reader, granted: seq<nat>,
                     account: nat, e: Envelope) returns (ok: bool)
    requires forall id :: id in granted <==> id in r.grants
    ensures ok <==> MayRead(f, accounts, viewsOn, r, account, e)
  {
    if CanRead(r, account) {
      return true;
    }
    var view := ViewGranting(f, accounts, viewsOn, r, granted, account, e);
    return view.Some?;
  }

  /** One granted account's share of what may be counted over. */
  function AggregateOf(accounts: seq<Account>, r: Reader, id: nat): set<nat> {
    match Find(accounts, id)
    case None => {}
    case Some(account) =>
      if account.kind == View
      then if CanRead(r, id) then set s | s in SourcesOf(account) && Unfiltered(s) :: s.account else {}
      else {id}
  }

  /** The accounts whose contents are counted over. */
  method AggregateAccountIds(accounts: seq<Account>, r: Reader, granted: seq<nat>) returns (ids: set<nat>)
    ensures forall a :: a in ids <==> exists i :: 0 <= i < |granted| && a in AggregateOf(accounts, r, granted[i])
  {
    ids := {};
    for i := 0 to |granted|
      invariant forall a :: a in ids <==> exists k :: 0 <= k < i && a in AggregateOf(accounts, r, granted[k])
    {
      var id := granted[i];
      var found := Find(accounts, id);
      ghost var before := ids;
      if found.Some? {
        if found.value.kind == View {
          if CanRead(r, id) {
            var sources := SourcesOf(found.value);
            for j := 0 to |sources|
              invariant ids == before + (set s | s in sources[..j] && Unfiltered(s) :: s.account)
            {
              assert sources[..j + 1] == sources[..j] + [sources[j]];
              if Unfiltered(sources[j]) {
                ids := ids + {sources[j].account};
              }
            }
            assert sources[..|sources|] == sources;
          }
        } else {
          ids := ids + {id};
        }
      }
      assert ids == before + AggregateOf(accounts, r, id);
    }
  }

  // ---------------------------------------------------------------- search and per-message check agree

  lemma {:induction false} ScopeMember(accounts: seq<Account>, r: Reader, candidates: seq<nat>, g: Source)
    ensures g in ScopeGroups(accounts, r, candidates)
       <==> exists i :: 0 <= i < |candidates| && g in GroupsFor(accounts, r, candidates[i])
  {
    hide GroupsFor;
    if candidates != [] {
      var n := |candidates| - 1;
      ScopeMember(accounts, r, candidates[..n], g);
      assert forall i :: 0 <= i < n ==> candidates[..n][i] == candidates[i];
    }
  }

  predicate DistinctIds(accounts: seq<Account>) {
    forall i, j :: 0 <= i < j < |accounts| ==> accounts[i].id != accounts[j].id
  }

  lemma {:induction false} FindAbsent(accounts: seq<Account>, id: nat)
    requires forall i :: 0 <= i < |accounts| ==> accounts[i].id != id
    ensures Find(accounts, id) == None
  {
    if accounts != [] {
      FindAbsent(accounts[1..], id);
    }
  }

  lemma {:induction false} FindReadable(accounts: seq<Account>, viewsOn: bool, id: nat)
    requires DistinctIds(accounts)
    ensures Find(Readable(accounts, viewsOn), id) ==
      (var found := Find(accounts, id); if found.Some? && found.value.kind == View && !viewsOn then None else found)
  {
    if accounts != [] {
      FindReadable(accounts[1..], viewsOn, id);
      var rest := Readable(accounts[1..], viewsOn);
      if viewsOn || accounts[0].kind != View {
        assert ([accounts[0]] + rest)[1..] == rest;
      } else {
        assert [] + rest == rest;
        if accounts[0].id == id {
          FindAbsent(accounts[1..], id);
        }
      }
    }
  }

  /** The search scope lets the message through. */
  ghost predicate InScope(f: Folding, accounts: seq<Account>, viewsOn: bool, r: Reader, candidates: seq<nat>,
                          account: nat, e: Envelope) {
    exists g :: g in ScopeGroups(Readable(accounts, viewsOn), r, candidates) && g.account == account && Matches(f, g, e)
  }

  /** An account of its own that is asked for and may be read. */
  predicate OwnScope(accounts: seq<Account>, r: Reader, candidates: seq<nat>, account: nat) {
    account in candidates && CanRead(r, account) && Find(accounts, account).Some? && Find(accounts, account).value.kind != View
  }

  ghost predicate ViewScope(f: Folding, accounts: seq<Account>, viewsOn: bool, r: Reader, candidates: seq<nat>,
                            account: nat, e: Envelope) {
    viewsOn && exists v :: v in candidates && Grants(f, accounts, r, v, account, e)
  }

  lemma UnboundedMatches(f: Folding, id: nat, e: Envelope)
    ensures Matches(f, Unbounded(id), e)
  {
  }

  lemma GroupsForMatch(f: Folding, accounts: seq<Account>, viewsOn: bool, r: Reader, id: nat, account: nat, e: Envelope)
    requires DistinctIds(accounts)
    ensures (exists g :: g in GroupsFor(Readable(accounts, viewsOn), r, id) && g.account == account && Matches(f, g, e))
       <==> || (id == account && OwnScope(accounts, r, [id], account))
            || (viewsOn && Grants(f, accounts, r, id, account, e))
  {
    hide Matches, Concerns, Readable, Find;
    FindReadable(accounts, viewsOn, id);
    UnboundedMatches(f, id, e);
    var groups := GroupsFor(Readable(accounts, viewsOn), r, id);
    if exists g :: g in groups && g.account == account && Matches(f, g, e) {
      var g :| g in groups && g.account == account && Matches(f, g, e);
      var i :| 0 <= i < |groups| && groups[i] == g;
    }
    if id == account && OwnScope(accounts, r, [id], account) {
      assert Unbounded(id) in groups;
    }
    if viewsOn && Grants(f, accounts, r, id, account, e) {
      var sources := SourcesOf(Find(accounts, id).value);
      var i :| 0 <= i < |sources| && sources[i].account == account && Concerns(f, sources[i], e);
      assert sources[i] in groups;
    }
  }

  /** What a search shows: own accounts asked for and readable, and mail that a view asked for delegates. */
  lemma ScopeMeans(f: Folding, accounts: seq<Account>, viewsOn: bool, r: Reader, candidates: seq<nat>, account: nat,
                   e: Envelope)
    requires DistinctIds(accounts)
    ensures InScope(f, accounts, viewsOn, r, candidates, account, e)
       <==> OwnScope(accounts, r, candidates, account) || ViewScope(f, accounts, viewsOn, r, candidates, account, e)
  {
    hide Matches, Concerns, Readable, Find, GroupsFor, ScopeGroups, Grants;
    var all := Readable(accounts, viewsOn);
    if InScope(f, accounts, viewsOn, r, candidates, account, e) {
      var g :| g in ScopeGroups(all, r, candidates) && g.account == account && Matches(f, g, e);
      ScopeMember(all, r, candidates, g);
      var i :| 0 <= i < |candidates| && g in GroupsFor(all, r, candidates[i]);
      GroupsForMatch(f, accounts, viewsOn, r, candidates[i], account, e);
    }
    if OwnScope(accounts, r, candidates, account) {
      GroupsForMatch(f, accounts, viewsOn, r, account, account, e);
      ScopeHas(f, all, r, candidates, account, account, e);
    }
    if ViewScope(f, accounts, viewsOn, r, candidates, account, e) {
      var v :| v in candidates && Grants(f, accounts, r, v, account, e);
      GroupsForMatch(f, accounts, viewsOn, r, v, account, e);
      ScopeHas(f, all, r, candidates, v, account, e);
    }
  }

  lemma ScopeHas(f: Folding, all: seq<Account>, r: Reader, candidates: seq<nat>, id: nat, account: nat, e: Envelope)
    requires id in candidates
    requires exists g :: g in GroupsFor(all, r, id) && g.account == account && Matches(f, g, e)
    ensures exists g :: g in ScopeGroups(all, r, candidates) && g.account == account && Matches(f, g, e)
  {
    hide Matches, Concerns, GroupsFor, ScopeGroups;
    var g :| g in GroupsFor(all, r, id) && g.account == account && Matches(f, g, e);
    ScopeMember(all, r, candidates, g);
    var i :| 0 <= i < |candidates| && candidates[i] == id;
  }

  /** Whatever accounts are asked for, a search shows no message that the per-message check refuses. */
  lemma ScopeIsReadable(f: Folding, accounts: seq<Account>, viewsOn: bool, r: Reader, candidates: seq<nat>,
                        account: nat, e: Envelope)
    requires DistinctIds(accounts) && InScope(f, accounts, viewsOn, r, candidates, account, e)
    ensures MayRead(f, accounts, viewsOn, r, account, e)
  {
    hide InScope, Matches, Concerns, Find;
    ScopeMeans(f, accounts, viewsOn, r, candidates, account, e);
  }

  /**
   * A search over all grants and the per-message check agree on a message exactly when direct reading of its
   * account comes from a grant on an existing account that is no view, or a granted view delegates it too.
   */
  lemma ScopeAgrees(f: Folding, accounts: seq<Account>, viewsOn: bool, r: Reader, candidates: seq<nat>, account: nat,
                    e: Envelope)
    requires DistinctIds(accounts) && forall id :: id in candidates <==> id in r.grants
    ensures (InScope(f, accounts, viewsOn, r, candidates, account, e) <==> MayRead(f, accounts, viewsOn, r, account, e))
       <==> (CanRead(r, account) ==>
               OwnScope(accounts, r, candidates, account) || ThroughView(f, accounts, viewsOn, r, account, e))
  {
    hide InScope, Matches, Concerns, Find, Grants;
    ScopeMeans(f, accounts, viewsOn, r, candidates, account, e);
  }

  /** The groups a search is held to; none at all when nothing is asked for and everything may be read. */
  function SearchScope(accounts: seq<Account>, r: Reader, seesAll: bool, granted: seq<nat>,
                       requested: Option<seq<nat>>): Option<seq<Source>> {
    match requested
    case Some(ids) => Some(ScopeGroups(accounts, r, ids))
    case None => if seesAll then None else Some(ScopeGroups(accounts, r, granted))
  }

  ghost predicate SearchShows(f: Folding, accounts: seq<Account>, viewsOn: bool, r: Reader, seesAll: bool,
                              granted: seq<nat>, requested: Option<seq<nat>>, account: nat, e: Envelope) {
    var scope := SearchScope(Readable(accounts, viewsOn), r, seesAll, granted, requested);
    scope.Some? ==> exists g :: g in scope.value && g.account == account && Matches(f, g, e)
  }

  /**
   * Whatever roles and grants a user has and whatever accounts are asked for, restricted or not, a search shows
   * no message that the per-message check refuses; and without restriction it shows all, as that check does.
   */
  lemma SearchIsReadable(f: Folding, accounts: seq<Account>, viewsOn: bool, admin: bool, global: set<Permission>,
                         grants: map<nat, bool>, granted: seq<nat>, requested: Option<seq<nat>>, account: nat,
                         e: Envelope)
    requires DistinctIds(accounts) && forall id :: id in granted <==> id in grants
    ensures var r, seesAll := ReaderOf(admin, global, grants), HasGlobally(admin, global, DataReadAll);
      && (SearchShows(f, accounts, viewsOn, r, seesAll, granted, requested, account, e)
          ==> MayRead(f, accounts, viewsOn, r, account, e))
      && (requested.None? && seesAll ==> SearchShows(f, accounts, viewsOn, r, seesAll, granted, requested, account, e))
  {
    hide Matches, Concerns, Readable, ScopeGroups, ThroughView;
    var r, seesAll := ReaderOf(admin, global, grants), HasGlobally(admin, global, DataReadAll);
    if requested.Some? || !seesAll {
      var ids := if requested.Some? then requested.value else granted;
      if SearchShows(f, accounts, viewsOn, r, seesAll, granted, requested, account, e) {
        ScopeIsReadable(f, accounts, viewsOn, r, ids, account, e);
      }
    }
  }

  // ---------------------------------------------------------------- accounts without a filter

  lemma {:induction false} UnfilteredMember(groups: seq<Source>, a: nat)
    ensures a in UnfilteredAccounts(groups) <==> exists g :: g in groups && Unfiltered(g) && g.account == a
  {
    if groups != [] {
      UnfilteredMember(groups[1..], a);
      assert groups == [groups[0]] + groups[1..];
    }
  }

  lemma UnfilteredMatches(f: Folding, g: Source, e: Envelope)
    requires Unfiltered(g)
    ensures Matches(f, g, e)
  {
  }

  /** Every message of an account that a search scope holds without filter may be read. */
  lemma UnfilteredIsReadable(f: Folding, accounts: seq<Account>, viewsOn: bool, r: Reader, candidates: seq<nat>,
                             account: nat, e: Envelope)
    requires DistinctIds(accounts)
    requires account in UnfilteredAccounts(ScopeGroups(Readable(accounts, viewsOn), r, candidates))
    ensures MayRead(f, accounts, viewsOn, r, account, e)
  {
    hide Matches, Concerns, Readable, ScopeGroups, MayRead;
    var groups := ScopeGroups(Readable(accounts, viewsOn), r, candidates);
    UnfilteredMember(groups, account);
    var g :| g in groups && Unfiltered(g) && g.account == account;
    UnfilteredMatches(f, g, e);
    ScopeIsReadable(f, accounts, viewsOn, r, candidates, account, e);
  }

  ghost predicate Aggregated(accounts: seq<Account>, r: Reader, granted: seq<nat>, account: nat) {
    exists i :: 0 <= i < |granted| && account in AggregateOf(accounts, r, granted[i])
  }

  /** A grant on an account of its own that does not allow reading it. */
  predicate UnreadableGrant(accounts: seq<Account>, r: Reader, granted: seq<nat>, account: nat) {
    && account in granted && !CanRead(r, account)
    && Find(accounts, account).Some? && Find(accounts, account).value.kind != View
  }

  lemma AggregateOfMeans(accounts: seq<Account>, r: Reader, id: nat, account: nat)
    ensures account in AggregateOf(accounts, r, id) <==>
      || account in UnfilteredAccounts(GroupsFor(accounts, r, id))
      || (id == account && UnreadableGrant(accounts, r, [id], account))
  {
    hide Find;
    UnfilteredMember(GroupsFor(accounts, r, id), account);
    if id == account && Find(accounts, id).Some? && Find(accounts, id).value.kind != View && CanRead(r, id) {
      assert Unbounded(id) in GroupsFor(accounts, r, id);
    }
  }

  /**
   * Counting covers every account that the search scope holds without filter, and beyond them exactly the
   * accounts that are granted without the right to read them.
   */
  lemma AggregateMeans(accounts: seq<Account>, r: Reader, granted: seq<nat>, account: nat)
    ensures Aggregated(accounts, r, granted, account) <==>
      || account in UnfilteredAccounts(ScopeGroups(accounts, r, granted))
      || UnreadableGrant(accounts, r, granted, account)
  {
    hide AggregateOf, GroupsFor, ScopeGroups, UnfilteredAccounts, Find;
    var groups := ScopeGroups(accounts, r, granted);
    UnfilteredMember(groups, account);
    if Aggregated(accounts, r, granted, account) {
      var i :| 0 <= i < |granted| && account in AggregateOf(accounts, r, granted[i]);
      AggregateOfMeans(accounts, r, granted[i], account);
      UnfilteredMember(GroupsFor(accounts, r, granted[i]), account);
      if account in UnfilteredAccounts(GroupsFor(accounts, r, granted[i])) {
        var g :| g in GroupsFor(accounts, r, granted[i]) && Unfiltered(g) && g.account == account;
        ScopeMember(accounts, r, granted, g);
      }
    }
    if account in UnfilteredAccounts(groups) {
      var g :| g in groups && Unfiltered(g) && g.account == account;
      ScopeMember(accounts, r, granted, g);
      var i :| 0 <= i < |granted| && g in GroupsFor(accounts, r, granted[i]);
      UnfilteredMember(GroupsFor(accounts, r, granted[i]), account);
      AggregateOfMeans(accounts, r, granted[i], account);
    }
    if UnreadableGrant(accounts, r, granted, account) {
      var i :| 0 <= i < |granted| && granted[i] == account;
      AggregateOfMeans(accounts, r, granted[i], account);
    }
  }

  /** A grant that does not allow reading: the account is counted over, and none of its messages may be read. */
  lemma UnreadableIsCounted(f: Folding, viewsOn: bool, e: Envelope)
    ensures var accounts, r := [Account(1, Imap, None)], Reader(false, map[1 := false]);
      Aggregated(accounts, r, [1], 1) && !MayRead(f, accounts, viewsOn, r, 1, e)
  {
    hide Matches;
    var accounts, r := [Account(1, Imap, None)], Reader(false, map[1 := false]);
    assert Find(accounts, 1) == Some(accounts[0]);
    assert 1 in AggregateOf(accounts, r, [1][0]);
  }
}
