/**
 * Whole SMTP connections: what the session holds is what the wire showed, and every line that is granted
 * something is entitled to it by the lines before (server.rs).
 */
module MailRuns {
  import opened Words
  import opened MailData
  import opened MailSession
  import opened MailWire

  datatype Connection = Connection(session: Session, open: bool, events: seq<Event>)

  function Connect(authRequired: bool, tlsActive: bool): Connection {
    Connection(NewSession(authRequired, tlsActive), true, [])
  }

  /** Process one line; after a STARTTLS that is granted, negotiate or hang up. */
  function Feed(c: Connection, w: World, input: Input): Connection {
    if !c.open then c else
      var (s, o) := Handle(c.session, w, input);
      var events := c.events + [Event(w, input, o.reply, o.delivered)];
      match o.next
      case Continue => Connection(s, true, events)
      case Stop => Connection(s, false, events)
      case Upgrade =>
        if w.handshakes then Connection(Reset(s).(tlsActive := true), true, events)
        else Connection(s, false, events)
  }

  function Talk(authRequired: bool, tlsActive: bool, inputs: seq<(World, Input)>): Connection {
    if inputs == [] then Connect(authRequired, tlsActive) else
      var last := inputs[|inputs| - 1];
      Feed(Talk(authRequired, tlsActive, inputs[..|inputs| - 1]), last.0, last.1)
  }

  // ---------------------------------------------------------------- the session knows what the wire showed

  predicate Awaits(state: AuthState, p: Prompt) {
    match state
    case Idle => p == NoPrompt
    case WaitingForPlain => p == PlainPrompt
    case WaitingForUsername => p == UserPrompt
    case WaitingForPassword(_) => p == PasswordPrompt
  }

  ghost predicate Knows(s: Session, ev: seq<Event>, tls: bool) {
    && Awaits(s.authState, PromptAfter(ev))
    && (s.mailFrom.Some? <==> HasSender(ev))
    && (s.rcptTo == [] || |s.rcptTo| == 1)
    && (forall a :: HasRecipient(ev, s.authRequired, a) <==> s.rcptTo == [a])
    && (s.journal <==> HasJournal(ev, s.authRequired))
    && (s.journal ==> s.rcptTo == [])
    && UserIs(ev, s.user)
    && (s.authenticated <==> s.user.Some?)
    && (s.tlsActive <==> OnTls(ev, tls))
  }

  function Shown(s: Session, w: World, input: Input): Event {
    var o := Handle(s, w, input).1;
    Event(w, input, o.reply, o.delivered)
  }

  function After(s: Session, w: World, input: Input): Session {
    var (t, o) := Handle(s, w, input);
    if o.next.Upgrade? then Reset(t).(tlsActive := true) else t
  }

  /** Whom a line logs in, as the session sees it. */
  function LoginOf(s: Session, w: World, input: Input): Option<User> {
    if input.Closed? then None else
      match s.authState
      case Idle =>
        if input.command.AuthPlain? && input.command.initial.Some? then PlainUser(w, input.command.initial.value)
        else None
      case WaitingForPlain => PlainUser(w, input.text)
      case WaitingForUsername => None
      case WaitingForPassword(_) =>
        var d := w.decode(input.text);
        if d.Some? then w.resolve(d.value) else None
  }

  /** How an event changes what the session holds; `login` is whom it logs in. */
  ghost predicate Changes(s: Session, t: Session, e: Event, login: Option<User>) {
    var auth := s.authRequired;
    && t.authRequired == auth
    && (t.mailFrom.Some? <==> !Ends(e) && (MailOk(e) || s.mailFrom.Some?))
    && t.user == (if login.Some? then login else s.user)
    && (t.authenticated <==> t.user.Some?)
    && (e.reply == 235 <==> login.Some?)
    && (Ends(e) ==> t.rcptTo == [])
    && (!Ends(e) && t.rcptTo != s.rcptTo ==>
          && s.rcptTo == [] && s.mailFrom.Some? && |t.rcptTo| == 1
          && RcptFor(e, auth, s.user, ToAccount(t.rcptTo[0])))
    && (forall a :: s.mailFrom.Some? && RcptFor(e, auth, s.user, ToAccount(a)) ==> s.rcptTo == [] && t.rcptTo == [a])
    && (RcptFor(e, auth, s.user, ToJournal) ==> !MailOk(e))
    && (t.journal <==>
          !Ends(e) && !MailOk(e) && (s.journal || (s.mailFrom.Some? && RcptFor(e, auth, s.user, ToJournal))))
    && (t.journal ==> t.rcptTo == [])
    && (t.tlsActive <==> s.tlsActive || SwitchesTls(e))
    && (forall p :: Awaits(s.authState, p) ==> Awaits(t.authState, NextPrompt(p, e)))
  }

  ghost predicate Steady(s: Session) {
    (s.journal ==> s.rcptTo == []) && (s.authenticated <==> s.user.Some?)
  }

  lemma AnswerChanges(s: Session, w: World, text: string, c: Command)
    requires Steady(s) && s.authState != Idle
    ensures var (t, o) := Answer(s, w, text);
      Changes(s, t, Event(w, Line(text, c), o.reply, o.delivered), LoginOf(s, w, Line(text, c)))
    ensures Answer(s, w, text).1.next == Continue
  {
    hide PlainUser;
  }

  lemma MailChanges(s: Session, w: World, text: string, address: Address)
    requires Steady(s) && s.authState == Idle
    ensures var (t, o) := HandleMail(s, w, address);
      Changes(s, t, Event(w, Line(text, MailFrom(address)), o.reply, o.delivered), None)
  {
    hide PeerAllowed, SenderAllowed;
  }

  lemma RcptChanges(s: Session, w: World, text: string, address: Address)
    requires Steady(s) && s.authState == Idle
    ensures var (t, o) := HandleRcpt(s, w, address);
      Changes(s, t, Event(w, Line(text, RcptTo(address)), o.reply, o.delivered), None)
  {
    hide PeerAllowed;
  }

  lemma DataChanges(s: Session, w: World, text: string)
    requires Steady(s) && s.authState == Idle
    ensures var (t, o) := HandleData(s, w);
      Changes(s, t, Event(w, Line(text, Data), o.reply, o.delivered), None)
  {
    hide PeerAllowed, Receive;
  }

  lemma OtherChanges(s: Session, w: World, text: string, c: Command)
    requires Steady(s) && s.authState == Idle && !c.MailFrom? && !c.RcptTo? && !c.Data?
    ensures Changes(s, After(s, w, Line(text, c)), Shown(s, w, Line(text, c)), LoginOf(s, w, Line(text, c)))
  {
    hide PlainUser, HandleMail, HandleRcpt, HandleData;
  }

  lemma EffectChanges(s: Session, w: World, input: Input)
    requires Steady(s)
    ensures Changes(s, After(s, w, input), Shown(s, w, input), LoginOf(s, w, input))
  {
    if input.Closed? {
    } else if s.authState != Idle {
      hide Answer, Changes;
      AnswerChanges(s, w, input.text, input.command);
    } else if input.command.MailFrom? {
      hide Changes;
      MailChanges(s, w, input.text, input.command.address);
    } else if input.command.RcptTo? {
      hide Changes;
      RcptChanges(s, w, input.text, input.command.address);
    } else if input.command.Data? {
      hide Changes, Receive;
      DataChanges(s, w, input.text);
    } else {
      hide *;
      OtherChanges(s, w, input.text, input.command);
    }
  }

  /** The session logs in exactly whom the wire shows to log in. */
  lemma LoginIs(s: Session, ev: seq<Event>, w: World, input: Input, user: User)
    requires Awaits(s.authState, PromptAfter(ev))
    ensures LoginBy(ev, Shown(s, w, input), user) <==> LoginOf(s, w, input) == Some(user)
  {
    hide PlainUser, PlainLogin, PromptAfter, Handle;
    if input.Line? {
      PlainUserIs(w, input.text, user);
      if input.command.AuthPlain? && input.command.initial.Some? {
        PlainUserIs(w, input.command.initial.value, user);
      }
    }
  }

  lemma RecipientsKnown(s: Session, t: Session, ev: seq<Event>, tls: bool, e: Event, login: Option<User>, a: Account)
    requires Knows(s, ev, tls) && Changes(s, t, e, login)
    ensures HasRecipient(ev + [e], s.authRequired, a) <==> t.rcptTo == [a]
  {
    hide Ends, MailOk, RcptOk, RcptFor, UserIs, HasSender, HasRecipient, HasJournal, OnTls, SwitchesTls, PromptAfter,
      NextPrompt, Awaits;
    RecipientStep(ev, e, s.authRequired, a);
    RcptOkIs(ev, e, s.authRequired, s.user, ToAccount(a));
    if t.rcptTo != s.rcptTo && t.rcptTo == [a] {
      assert t.rcptTo[0] == a;
    }
  }

  lemma JournalKnown(s: Session, t: Session, ev: seq<Event>, tls: bool, e: Event, login: Option<User>)
    requires Knows(s, ev, tls) && Changes(s, t, e, login)
    ensures t.journal <==> HasJournal(ev + [e], s.authRequired)
    ensures t.mailFrom.Some? <==> HasSender(ev + [e])
    ensures t.tlsActive <==> OnTls(ev + [e], tls)
    ensures Awaits(t.authState, PromptAfter(ev + [e]))
  {
    hide Ends, MailOk, RcptOk, RcptFor, UserIs, HasSender, HasRecipient, HasJournal, OnTls, SwitchesTls, PromptAfter,
      NextPrompt, Awaits;
    RcptOkIs(ev, e, s.authRequired, s.user, ToJournal);
    JournalStep(ev, e, s.authRequired);
    SenderStep(ev, e);
    OnTlsStep(ev, e, tls);
    PromptStep(ev, e);
  }

  lemma KnowsStep(s: Session, ev: seq<Event>, tls: bool, w: World, input: Input)
    requires Knows(s, ev, tls)
    ensures Knows(After(s, w, input), ev + [Shown(s, w, input)], tls)
  {
    hide After, Shown, Ends, MailOk, RcptOk, RcptFor, UserIs, HasSender, HasRecipient, HasJournal, OnTls, SwitchesTls,
      LoginBy, LoginOf, PromptAfter, NextPrompt, Awaits;
    var t, e, login := After(s, w, input), Shown(s, w, input), LoginOf(s, w, input);
    EffectChanges(s, w, input);
    JournalKnown(s, t, ev, tls, e, login);
    forall u ensures LoginBy(ev, e, u) <==> login == Some(u) {
      LoginIs(s, ev, w, input, u);
    }
    UserStep(ev, e, s.user, login);
    forall a ensures HasRecipient(ev + [e], s.authRequired, a) <==> t.rcptTo == [a] {
      RecipientsKnown(s, t, ev, tls, e, login, a);
    }
  }

  // ---------------------------------------------------------------- what a line is entitled to

  /** The sender is on the white-list, if there is one that is not empty. */
  ghost predicate Listed(w: World, address: Address) {
    forall list :: w.whitelist == Some(list) && list != {} ==> address in list
  }

  /** A line that is a command, from a client that may use the server. */
  ghost predicate Entitled(ev: seq<Event>, auth: bool, tls: bool, e: Event) {
    e.input.Line? && PromptAfter(ev) == NoPrompt && (auth ==> LoggedIn(ev)) && PeerOk(ev, tls, e.w)
  }

  ghost predicate AdmitsSender(ev: seq<Event>, auth: bool, tls: bool, e: Event) {
    Entitled(ev, auth, tls, e) && e.input.command.MailFrom? && Listed(e.w, e.input.command.address)
  }

  /** A recipient, the first of a transaction with a sender, that the user may deliver to. */
  ghost predicate AdmitsRecipient(ev: seq<Event>, auth: bool, tls: bool, e: Event, dest: Destination) {
    && Entitled(ev, auth, tls, e) && e.input.command.RcptTo?
    && HasSender(ev)
    && (forall d :: !Addressed(ev, auth, d))
    && exists user :: UserIs(ev, user) && Deliverable(e.w, auth, user, e.input.command.address, dest)
  }

  /** A mail in a transaction with a sender and this destination that arrives whole and is stored. */
  ghost predicate AdmitsMail(ev: seq<Event>, auth: bool, tls: bool, e: Event, d: Delivery) {
    && Entitled(ev, auth, tls, e) && e.input.command.Data?
    && HasSender(ev)
    && Addressed(ev, auth, d.dest)
    && (var r := Receive(e.w.incoming, 0); r.Mail? && r.data == d.data)
    && e.w.stores
  }

  ghost predicate AdmitsTls(ev: seq<Event>, tls: bool, e: Event) {
    e.input.Line? && PromptAfter(ev) == NoPrompt && e.input.command.StartTls? && e.w.tlsOffered && !OnTls(ev, tls)
  }

  /** Logins, senders, recipients, mails and encryption are granted exactly to the lines entitled to them. */
  ghost predicate Lawful(ev: seq<Event>, auth: bool, tls: bool, e: Event) {
    && (e.reply == 235 <==> exists u :: LoginBy(ev, e, u))
    && (MailOk(e) <==> AdmitsSender(ev, auth, tls, e))
    && (forall d :: RcptOk(ev, e, auth, d) <==> AdmitsRecipient(ev, auth, tls, e, d))
    && (forall d :: e.delivered == Some(d) <==> AdmitsMail(ev, auth, tls, e, d))
    && (SwitchesTls(e) <==> AdmitsTls(ev, tls, e))
  }

  lemma LoginLawful(s: Session, ev: seq<Event>, tls: bool, w: World, input: Input)
    requires Knows(s, ev, tls)
    ensures Shown(s, w, input).reply == 235 <==> exists u :: LoginBy(ev, Shown(s, w, input), u)
  {
    hide After, Shown, LoginBy, LoginOf, PromptAfter, Awaits, Ends, MailOk, RcptFor, SwitchesTls, NextPrompt, UserIs;
    var login := LoginOf(s, w, input);
    EffectChanges(s, w, input);
    if login.Some? {
      LoginIs(s, ev, w, input, login.value);
    }
    forall u | LoginBy(ev, Shown(s, w, input), u) ensures login == Some(u) {
      LoginIs(s, ev, w, input, u);
    }
  }

  /** What the commands test of the session is what the wire showed. */
  lemma GuardsMean(s: Session, ev: seq<Event>, tls: bool, w: World)
    requires Knows(s, ev, tls)
    ensures s.authState == Idle <==> PromptAfter(ev) == NoPrompt
    ensures s.authenticated <==> LoggedIn(ev)
    ensures PeerAllowed(s, w) <==> PeerOk(ev, tls, w)
    ensures forall d :: Addressed(ev, s.authRequired, d) <==>
      (match d case ToAccount(a) => s.rcptTo == [a] case ToJournal => s.journal)
  {
    hide PromptAfter, HasSender, HasRecipient, HasJournal, UserIs, LoggedIn, OnTls;
    LoggedInIs(ev, s.user);
  }

  lemma SenderLawful(s: Session, ev: seq<Event>, tls: bool, w: World, input: Input)
    requires Knows(s, ev, tls)
    ensures var e := Shown(s, w, input); MailOk(e) <==> AdmitsSender(ev, s.authRequired, tls, e)
  {
    hide Knows, PromptAfter, LoggedIn, PeerOk, PeerAllowed, HandleRcpt, HandleData, PlainUser;
    GuardsMean(s, ev, tls, w);
  }

  lemma RecipientGuards(s: Session, w: World, input: Input, d: Destination)
    requires s.authenticated <==> s.user.Some?
    ensures RcptFor(Shown(s, w, input), s.authRequired, s.user, d) <==>
      && input.Line? && input.command.RcptTo? && s.authState == Idle
      && s.rcptTo == [] && !s.journal
      && (s.authRequired ==> s.authenticated)
      && s.mailFrom.Some?
      && PeerAllowed(s, w)
      && Deliverable(w, s.authRequired, s.user, input.command.address, d)
  {
    hide PeerAllowed, HandleMail, HandleData, PlainUser;
  }

  lemma RecipientLawful(s: Session, ev: seq<Event>, tls: bool, w: World, input: Input, d: Destination)
    requires Knows(s, ev, tls)
    ensures var e := Shown(s, w, input);
      RcptOk(ev, e, s.authRequired, d) <==> AdmitsRecipient(ev, s.authRequired, tls, e, d)
  {
    hide PromptAfter, Awaits, LoggedIn, PeerOk, PeerAllowed, Handle, HasSender, HasRecipient, HasJournal, Addressed, RcptOk,
      UserIs, OnTls, RcptFor, Deliverable;
    var e := Shown(s, w, input);
    GuardsMean(s, ev, tls, w);
    RcptOkIs(ev, e, s.authRequired, s.user, d);
    RecipientGuards(s, w, input, d);
    Unaddressed(s, ev, tls);
    if AdmitsRecipient(ev, s.authRequired, tls, e, d) {
      var user :| UserIs(ev, user) && Deliverable(e.w, s.authRequired, user, e.input.command.address, d);
      UserUnique(ev, user, s.user);
    }
  }

  lemma Unaddressed(s: Session, ev: seq<Event>, tls: bool)
    requires Knows(s, ev, tls)
    ensures (forall d :: !Addressed(ev, s.authRequired, d)) <==> s.rcptTo == [] && !s.journal
  {
    hide PromptAfter, Awaits, HasSender, HasRecipient, HasJournal, UserIs, OnTls;
    if forall d :: !Addressed(ev, s.authRequired, d) {
      assert !Addressed(ev, s.authRequired, ToJournal);
      if s.rcptTo != [] {
        assert s.rcptTo == [s.rcptTo[0]];
        assert !Addressed(ev, s.authRequired, ToAccount(s.rcptTo[0]));
      }
    }
  }

  lemma MailLawful(s: Session, ev: seq<Event>, tls: bool, w: World, input: Input, d: Delivery)
    requires Knows(s, ev, tls)
    ensures var e := Shown(s, w, input);
      e.delivered == Some(d) <==> AdmitsMail(ev, s.authRequired, tls, e, d)
  {
    hide Receive, PlainUser, PromptAfter, PeerOk, PeerAllowed, HasSender, HasRecipient, HasJournal, LoggedIn, Reset,
      OnTls, UserIs, Answer;
    GuardsMean(s, ev, tls, w);
    if s.authState != Idle {
      AnswersDeliverNothing(s, w, input);
    } else if s.rcptTo != [] {
      assert s.rcptTo == [s.rcptTo[0]];
    }
  }

  lemma AnswersDeliverNothing(s: Session, w: World, input: Input)
    requires s.authState != Idle
    ensures Shown(s, w, input).delivered == None
  {
  }

  lemma TlsLawful(s: Session, ev: seq<Event>, tls: bool, w: World, input: Input)
    requires Knows(s, ev, tls)
    ensures var e := Shown(s, w, input); SwitchesTls(e) <==> AdmitsTls(ev, tls, e)
  {
    hide PromptAfter, HasSender, HasRecipient, HasJournal, UserIs, OnTls, HandleMail, HandleRcpt, HandleData, PlainUser;
  }

  lemma LineLawful(s: Session, ev: seq<Event>, tls: bool, w: World, input: Input)
    requires Knows(s, ev, tls)
    ensures Lawful(ev, s.authRequired, tls, Shown(s, w, input))
  {
    hide Knows, Shown, LoginBy, MailOk, AdmitsSender, RcptOk, AdmitsRecipient, AdmitsMail, SwitchesTls, AdmitsTls;
    LoginLawful(s, ev, tls, w, input);
    SenderLawful(s, ev, tls, w, input);
    TlsLawful(s, ev, tls, w, input);
    var e := Shown(s, w, input);
    forall d ensures RcptOk(ev, e, s.authRequired, d) <==> AdmitsRecipient(ev, s.authRequired, tls, e, d) {
      RecipientLawful(s, ev, tls, w, input, d);
    }
    forall d ensures e.delivered == Some(d) <==> AdmitsMail(ev, s.authRequired, tls, e, d) {
      MailLawful(s, ev, tls, w, input, d);
    }
  }

  // ---------------------------------------------------------------- whole connections

  /** Only one destination was addressed in the current transaction. */
  ghost predicate OnlyAddressed(ev: seq<Event>, auth: bool, dest: Destination) {
    forall d :: Addressed(ev, auth, d) <==> d == dest
  }

  lemma OneDestination(s: Session, ev: seq<Event>, tls: bool, dest: Destination)
    requires Knows(s, ev, tls) && Addressed(ev, s.authRequired, dest)
    ensures OnlyAddressed(ev, s.authRequired, dest)
  {
    hide PromptAfter, HasSender, HasRecipient, HasJournal, UserIs, OnTls;
  }

  ghost predicate LawfulAt(ev: seq<Event>, auth: bool, tls: bool, n: nat)
    requires n < |ev|
  {
    && Lawful(ev[..n], auth, tls, ev[n])
    && (ev[n].delivered.Some? ==>
          && OnlyAddressed(ev[..n], auth, ev[n].delivered.value.dest)
          && |ev[n].delivered.value.data| <= MAX_MAIL_SIZE)
  }

  ghost predicate AllLawful(ev: seq<Event>, auth: bool, tls: bool) {
    forall n :: 0 <= n < |ev| ==> LawfulAt(ev, auth, tls, n)
  }

  lemma {:induction false} ReceiveBounded(b: Bytes, total: nat)
    requires total <= MAX_MAIL_SIZE
    ensures var r := Receive(b, total); r.Mail? ==> total + |r.data| <= MAX_MAIL_SIZE
    decreases |b|
  {
    hide DotLine;
    if b != [] {
      var n := LineLength(b);
      ReceiveStep(b, total);
      if total + n <= MAX_MAIL_SIZE {
        ReceiveBounded(b[n..], total + n);
      }
    }
  }

  lemma LastLawful(s: Session, ev: seq<Event>, tls: bool, w: World, input: Input)
    requires Knows(s, ev, tls)
    ensures LawfulAt(ev + [Shown(s, w, input)], s.authRequired, tls, |ev|)
  {
    hide Knows, Receive, OnlyAddressed, Addressed, HasSender, Shown, LoginBy, MailOk, AdmitsSender, RcptOk,
      AdmitsRecipient, SwitchesTls, AdmitsTls, Entitled;
    var e := Shown(s, w, input);
    assert (ev + [e])[..|ev|] == ev && (ev + [e])[|ev|] == e;
    LineLawful(s, ev, tls, w, input);
    if e.delivered.Some? {
      assert AdmitsMail(ev, s.authRequired, tls, e, e.delivered.value);
      OneDestination(s, ev, tls, e.delivered.value.dest);
      ReceiveBounded(e.w.incoming, 0);
    }
  }

  lemma LawfulMore(ev: seq<Event>, e: Event, auth: bool, tls: bool)
    requires AllLawful(ev, auth, tls) && LawfulAt(ev + [e], auth, tls, |ev|)
    ensures AllLawful(ev + [e], auth, tls)
  {
    hide Lawful, OnlyAddressed;
    forall n | 0 <= n < |ev + [e]| ensures LawfulAt(ev + [e], auth, tls, n) {
      if n < |ev| {
        assert (ev + [e])[..n] == ev[..n] && (ev + [e])[n] == ev[n];
        assert LawfulAt(ev, auth, tls, n);
      }
    }
  }

  ghost predicate Sound(c: Connection, auth: bool, tls: bool) {
    && c.session.authRequired == auth
    && AllLawful(c.events, auth, tls)
    && (c.open ==> Knows(c.session, c.events, tls))
  }

  lemma FeedIs(c: Connection, w: World, input: Input)
    requires c.open
    ensures var f := Feed(c, w, input);
      && f.events == c.events + [Shown(c.session, w, input)]
      && (f.open ==> f.session == After(c.session, w, input))
      && f.session.authRequired == c.session.authRequired
  {
    hide Receive, PlainUser;
  }

  lemma FeedSound(c: Connection, auth: bool, tls: bool, w: World, input: Input)
    requires Sound(c, auth, tls)
    ensures Sound(Feed(c, w, input), auth, tls)
  {
    hide Feed, AllLawful, LawfulAt, Knows, Shown, After;
    if c.open {
      KnowsStep(c.session, c.events, tls, w, input);
      LastLawful(c.session, c.events, tls, w, input);
      LawfulMore(c.events, Shown(c.session, w, input), auth, tls);
      FeedIs(c, w, input);
    } else {
      FeedClosed(c, w, input);
    }
  }

  lemma FeedClosed(c: Connection, w: World, input: Input)
    requires !c.open
    ensures Feed(c, w, input) == c
  {
  }

  /**
   * In every connection, whatever the client sends and the world answers, logins, senders, recipients, mails
   * and encryption are granted exactly to the lines entitled to them, and a mail goes to the one destination
   * of its transaction.
   */
  lemma {:induction false} EveryLineIsLawful(auth: bool, tls: bool, inputs: seq<(World, Input)>)
    ensures AllLawful(Talk(auth, tls, inputs).events, auth, tls)
    ensures Sound(Talk(auth, tls, inputs), auth, tls)
  {
    hide Feed, AllLawful, Knows;
    if inputs == [] {
      ConnectSound(auth, tls);
    } else {
      EveryLineIsLawful(auth, tls, inputs[..|inputs| - 1]);
      var last := inputs[|inputs| - 1];
      FeedSound(Talk(auth, tls, inputs[..|inputs| - 1]), auth, tls, last.0, last.1);
    }
  }

  lemma ConnectSound(auth: bool, tls: bool)
    ensures Sound(Connect(auth, tls), auth, tls)
  {
  }
}
