/**
 * An SMTP connection as the wire shows it: the lines, the replies and what was accepted. Prompts, logins,
 * transactions and encryption are defined from these alone (server.rs).
 */
module MailWire {
  import opened Words
  import opened MailSession

  /** One line, the world it met and the reply to it. */
  datatype Event = Event(w: World, input: Input, reply: nat, delivered: Option<Delivery>)

  // ---------------------------------------------------------------- prompts

  datatype Prompt = NoPrompt | PlainPrompt | UserPrompt | PasswordPrompt

  /** What the next line answers, after one more event. */
  function NextPrompt(p: Prompt, e: Event): Prompt {
    if e.input.Closed? then p else
      match p
      case NoPrompt =>
        if e.input.command == AuthPlain(None) then PlainPrompt
        else if e.input.command == AuthLogin then UserPrompt
        else NoPrompt
      case UserPrompt => if e.w.decode(e.input.text).Some? then PasswordPrompt else NoPrompt
      case _ => NoPrompt
  }

  function PromptAfter(ev: seq<Event>): Prompt {
    if ev == [] then NoPrompt else NextPrompt(PromptAfter(ev[..|ev| - 1]), ev[|ev| - 1])
  }

  // ---------------------------------------------------------------- logins

  predicate TokenLogin(w: World, text: string, user: User) {
    w.decode(text).Some? && w.resolve(w.decode(text).value) == Some(user)
  }

  /** A line that logs this user in: AUTH PLAIN with an initial response, or the last answer of a dialogue. */
  ghost predicate LoginBy(ev: seq<Event>, e: Event, user: User) {
    && e.input.Line?
    && (match PromptAfter(ev)
        case NoPrompt =>
          && e.input.command.AuthPlain? && e.input.command.initial.Some?
          && PlainLogin(e.w, e.input.command.initial.value, user)
        case PlainPrompt => PlainLogin(e.w, e.input.text, user)
        case UserPrompt => false
        case PasswordPrompt => TokenLogin(e.w, e.input.text, user))
  }

  ghost predicate NoLogin(ev: seq<Event>, e: Event) {
    forall u :: !LoginBy(ev, e, u)
  }

  ghost predicate NoLoginSince(ev: seq<Event>, from: int) {
    forall k :: 0 <= from <= k < |ev| ==> NoLogin(ev[..k], ev[k])
  }

  /** The last login was that of this user. */
  ghost predicate LoggedInAs(ev: seq<Event>, user: User) {
    exists k :: 0 <= k < |ev| && LoginBy(ev[..k], ev[k], user) && NoLoginSince(ev, k + 1)
  }

  ghost predicate LoggedIn(ev: seq<Event>) {
    exists u :: LoggedInAs(ev, u)
  }

  ghost predicate UserIs(ev: seq<Event>, user: Option<User>) {
    if user.Some? then LoggedInAs(ev, user.value) else NoLoginSince(ev, 0)
  }

  // ---------------------------------------------------------------- transactions

  predicate MailOk(e: Event) {
    e.input.Line? && e.input.command.MailFrom? && e.reply == 250
  }

  predicate Deliverable(w: World, authRequired: bool, user: Option<User>, address: Address, dest: Destination) {
    match dest
    case ToJournal => w.isTarget(address)
    case ToAccount(account) =>
      && !w.isTarget(address)
      && w.find(address) == Found(account)
      && account.kind == NoSync
      && (authRequired ==> user.Some? && w.permits(user.value, account.id))
  }

  predicate RcptFor(e: Event, authRequired: bool, user: Option<User>, dest: Destination) {
    && e.input.Line? && e.input.command.RcptTo? && e.reply == 250
    && Deliverable(e.w, authRequired, user, e.input.command.address, dest)
  }

  /** A recipient was accepted: the journal address, or a local account the logged-in user may deliver to. */
  ghost predicate RcptOk(ev: seq<Event>, e: Event, authRequired: bool, dest: Destination) {
    exists user :: UserIs(ev, user) && RcptFor(e, authRequired, user, dest)
  }

  /** The transaction ended: by RSET, by an accepted mail, or by the switch to TLS. */
  predicate Ends(e: Event) {
    && e.input.Line?
    && (match e.input.command
        case Rset => e.reply == 250
        case Data => e.reply == 250
        case StartTls => e.reply == 220
        case _ => false)
  }

  predicate Quiet(ev: seq<Event>, from: int) {
    forall k :: 0 <= from <= k < |ev| ==> !Ends(ev[k])
  }

  predicate NoMailSince(ev: seq<Event>, from: int) {
    forall k :: 0 <= from <= k < |ev| ==> !MailOk(ev[k])
  }

  /** A sender was accepted in the current transaction. */
  predicate HasSender(ev: seq<Event>) {
    exists i :: 0 <= i < |ev| && MailOk(ev[i]) && Quiet(ev, i)
  }

  /** A sender and, later, this recipient were accepted in the current transaction. */
  ghost predicate HasRecipient(ev: seq<Event>, authRequired: bool, account: Account) {
    exists j :: 0 <= j < |ev| && RcptOk(ev[..j], ev[j], authRequired, ToAccount(account)) && HasSender(ev[..j])
      && Quiet(ev, j)
  }

  /** A sender and, later, the journal were accepted, and no further sender since. */
  ghost predicate HasJournal(ev: seq<Event>, authRequired: bool) {
    exists j :: 0 <= j < |ev| && RcptOk(ev[..j], ev[j], authRequired, ToJournal) && HasSender(ev[..j]) && Quiet(ev, j)
      && NoMailSince(ev, j)
  }

  ghost predicate Addressed(ev: seq<Event>, authRequired: bool, dest: Destination) {
    match dest
    case ToAccount(account) => HasRecipient(ev, authRequired, account)
    case ToJournal => HasJournal(ev, authRequired)
  }

  /** The client was told to go ahead with TLS. */
  predicate SwitchesTls(e: Event) {
    e.input.Line? && e.input.command.StartTls? && e.reply == 220
  }

  /** The connection is encrypted: from the start, or since STARTTLS was granted. */
  predicate OnTls(ev: seq<Event>, tls: bool) {
    tls || exists k :: 0 <= k < |ev| && SwitchesTls(ev[k])
  }

  /** With journaling on, a client that has not logged in must be a permitted peer. */
  ghost predicate PeerOk(ev: seq<Event>, tls: bool, w: World) {
    !w.journaling || LoggedIn(ev) || w.allowPeer(OnTls(ev, tls))
  }

  // ---------------------------------------------------------------- one login at a time

  lemma LoginUnique(ev: seq<Event>, e: Event, u: User, v: User)
    requires LoginBy(ev, e, u) && LoginBy(ev, e, v)
    ensures u == v
  {
    hide PlainLogin, PlainUser;
    match PromptAfter(ev) {
      case NoPrompt =>
        PlainUserIs(e.w, e.input.command.initial.value, u);
        PlainUserIs(e.w, e.input.command.initial.value, v);
      case PlainPrompt =>
        PlainUserIs(e.w, e.input.text, u);
        PlainUserIs(e.w, e.input.text, v);
      case _ =>
    }
  }

  // ---------------------------------------------------------------- one more event

  lemma PromptStep(ev: seq<Event>, e: Event)
    ensures PromptAfter(ev + [e]) == NextPrompt(PromptAfter(ev), e)
  {
    assert (ev + [e])[..|ev|] == ev;
  }

  lemma NoLoginStep(ev: seq<Event>, e: Event, from: nat)
    requires from <= |ev|
    ensures NoLoginSince(ev + [e], from) <==> NoLoginSince(ev, from) && NoLogin(ev, e)
  {
    hide NoLogin;
    var all := ev + [e];
    assert all[|ev|] == e && all[..|ev|] == ev;
    assert forall k :: 0 <= k < |ev| ==> all[k] == ev[k] && all[..k] == ev[..k];
  }

  lemma LoginStep(ev: seq<Event>, e: Event, user: User)
    ensures LoggedInAs(ev + [e], user) <==> LoginBy(ev, e, user) || (LoggedInAs(ev, user) && NoLogin(ev, e))
  {
    hide LoginBy, NoLogin, NoLoginSince;
    var all := ev + [e];
    assert all[|ev|] == e && all[..|ev|] == ev;
    assert forall k :: 0 <= k < |ev| ==> all[k] == ev[k] && all[..k] == ev[..k];
    if LoggedInAs(all, user) {
      var k :| 0 <= k < |all| && LoginBy(all[..k], all[k], user) && NoLoginSince(all, k + 1);
      if k < |ev| {
        NoLoginStep(ev, e, k + 1);
      }
    }
    if LoginBy(ev, e, user) {
      NoLoginAtEnd(all);
    }
    if LoggedInAs(ev, user) && NoLogin(ev, e) {
      var k :| 0 <= k < |ev| && LoginBy(ev[..k], ev[k], user) && NoLoginSince(ev, k + 1);
      NoLoginStep(ev, e, k + 1);
      assert LoginBy(all[..k], all[k], user);
    }
  }

  lemma NoLoginAtEnd(ev: seq<Event>)
    ensures NoLoginSince(ev, |ev|)
  {
  }

  /** Nobody or exactly one user is logged in. */
  lemma UserUnique(ev: seq<Event>, a: Option<User>, b: Option<User>)
    requires UserIs(ev, a) && UserIs(ev, b)
    ensures a == b
  {
    hide LoginBy;
    if a.Some? {
      var k :| 0 <= k < |ev| && LoginBy(ev[..k], ev[k], a.value) && NoLoginSince(ev, k + 1);
      assert !NoLogin(ev[..k], ev[k]);
      if b.Some? {
        var n :| 0 <= n < |ev| && LoginBy(ev[..n], ev[n], b.value) && NoLoginSince(ev, n + 1);
        assert !NoLogin(ev[..n], ev[n]);
        assert k == n;
        LoginUnique(ev[..k], ev[k], a.value, b.value);
      }
    }
  }

  /** The user after one more event: whom it logs in, or who was logged in before. */
  lemma UserStep(ev: seq<Event>, e: Event, user: Option<User>, login: Option<User>)
    requires UserIs(ev, user) && forall u :: LoginBy(ev, e, u) <==> login == Some(u)
    ensures UserIs(ev + [e], if login.Some? then login else user)
  {
    hide LoginBy, LoggedInAs, NoLoginSince;
    if login.Some? {
      LoginStep(ev, e, login.value);
    } else if user.Some? {
      LoginStep(ev, e, user.value);
    } else {
      NoLoginStep(ev, e, 0);
    }
  }

  lemma LoggedInIs(ev: seq<Event>, user: Option<User>)
    requires UserIs(ev, user)
    ensures LoggedIn(ev) <==> user.Some?
  {
    if LoggedIn(ev) {
      hide LoggedInAs, NoLoginSince;
      var u :| LoggedInAs(ev, u);
      UserUnique(ev, user, Some(u));
    }
  }

  lemma RcptOkIs(ev: seq<Event>, e: Event, auth: bool, user: Option<User>, dest: Destination)
    requires UserIs(ev, user)
    ensures RcptOk(ev, e, auth, dest) <==> RcptFor(e, auth, user, dest)
  {
    hide UserIs, RcptFor;
    if RcptOk(ev, e, auth, dest) {
      var u :| UserIs(ev, u) && RcptFor(e, auth, u, dest);
      UserUnique(ev, u, user);
    }
  }

  lemma QuietStep(ev: seq<Event>, e: Event, from: nat)
    requires from <= |ev|
    ensures Quiet(ev + [e], from) <==> Quiet(ev, from) && !Ends(e)
    ensures NoMailSince(ev + [e], from) <==> NoMailSince(ev, from) && !MailOk(e)
  {
    hide Ends, MailOk;
    assert (ev + [e])[|ev|] == e;
    assert forall k :: 0 <= k < |ev| ==> (ev + [e])[k] == ev[k];
  }

  lemma SenderStep(ev: seq<Event>, e: Event)
    ensures HasSender(ev + [e]) <==> !Ends(e) && (MailOk(e) || HasSender(ev))
  {
    hide Ends, MailOk, Quiet;
    var all := ev + [e];
    if HasSender(all) {
      var i :| 0 <= i < |all| && MailOk(all[i]) && Quiet(all, i);
      QuietStep(ev, e, i);
    }
    if !Ends(e) && HasSender(ev) {
      var i :| 0 <= i < |ev| && MailOk(ev[i]) && Quiet(ev, i);
      QuietStep(ev, e, i);
      assert MailOk(all[i]);
    }
    if !Ends(e) && MailOk(e) {
      QuietStep(ev, e, |ev|);
      QuietNow(ev);
      assert MailOk(all[|ev|]);
    }
  }

  lemma QuietNow(ev: seq<Event>)
    ensures Quiet(ev, |ev|) && NoMailSince(ev, |ev|)
  {
  }

  lemma RecipientStep(ev: seq<Event>, e: Event, auth: bool, account: Account)
    ensures HasRecipient(ev + [e], auth, account) <==>
      !Ends(e) && (HasRecipient(ev, auth, account) || (HasSender(ev) && RcptOk(ev, e, auth, ToAccount(account))))
  {
    hide Ends, MailOk, Quiet, RcptOk, HasSender;
    var all, dest := ev + [e], ToAccount(account);
    assert all[..|ev|] == ev && all[|ev|] == e;
    if HasRecipient(all, auth, account) {
      var j :| 0 <= j < |all| && RcptOk(all[..j], all[j], auth, dest) && HasSender(all[..j]) && Quiet(all, j);
      QuietStep(ev, e, j);
      assert j < |ev| ==> all[..j] == ev[..j];
    }
    if !Ends(e) && HasRecipient(ev, auth, account) {
      var j :| 0 <= j < |ev| && RcptOk(ev[..j], ev[j], auth, dest) && HasSender(ev[..j]) && Quiet(ev, j);
      QuietStep(ev, e, j);
      assert all[..j] == ev[..j] && RcptOk(all[..j], all[j], auth, dest);
    }
    if !Ends(e) && HasSender(ev) && RcptOk(ev, e, auth, dest) {
      QuietStep(ev, e, |ev|);
      QuietNow(ev);
    }
  }

  lemma JournalStep(ev: seq<Event>, e: Event, auth: bool)
    requires RcptOk(ev, e, auth, ToJournal) ==> !MailOk(e)
    ensures HasJournal(ev + [e], auth) <==>
      !Ends(e) && !MailOk(e) && (HasJournal(ev, auth) || (HasSender(ev) && RcptOk(ev, e, auth, ToJournal)))
  {
    hide Ends, MailOk, Quiet, NoMailSince, RcptOk, HasSender;
    var all := ev + [e];
    assert all[..|ev|] == ev && all[|ev|] == e;
    if HasJournal(all, auth) {
      var j :| 0 <= j < |all| && RcptOk(all[..j], all[j], auth, ToJournal) && HasSender(all[..j]) && Quiet(all, j)
        && NoMailSince(all, j);
      QuietStep(ev, e, j);
      assert j < |ev| ==> all[..j] == ev[..j];
    }
    if !Ends(e) && !MailOk(e) && HasJournal(ev, auth) {
      var j :| 0 <= j < |ev| && RcptOk(ev[..j], ev[j], auth, ToJournal) && HasSender(ev[..j]) && Quiet(ev, j)
        && NoMailSince(ev, j);
      QuietStep(ev, e, j);
      assert all[..j] == ev[..j] && RcptOk(all[..j], all[j], auth, ToJournal);
    }
    if !Ends(e) && !MailOk(e) && HasSender(ev) && RcptOk(ev, e, auth, ToJournal) {
      QuietStep(ev, e, |ev|);
      QuietNow(ev);
    }
  }

  lemma OnTlsStep(ev: seq<Event>, e: Event, tls: bool)
    ensures OnTls(ev + [e], tls) <==> OnTls(ev, tls) || SwitchesTls(e)
  {
    hide SwitchesTls;
    var all := ev + [e];
    assert all[|ev|] == e && forall k :: 0 <= k < |ev| ==> all[k] == ev[k];
  }
}
