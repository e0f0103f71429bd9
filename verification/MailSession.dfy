/** One SMTP session: the commands, the authentication dialogue and the delivery of a mail (server.rs). */
module MailSession {
  import opened Words
  import opened MailData
  import opened PlainAuth

  type Address = string

  datatype AccountType = Imap | NoSync | View
  datatype Account = Account(id: nat, email: Address, kind: AccountType)
  datatype User = User(id: nat)
  datatype Lookup = Found(account: Account) | Missing | Failed

  /** Everything outside the session that one command may meet; it may differ from one command to the next. */
  datatype World = World(
    journaling: bool,
    allowPeer: bool -> bool,
    isTarget: Address -> bool,
    find: Address -> Lookup,
    permits: (User, nat) -> bool,
    decode: string -> Option<Bytes>,
    resolve: Bytes -> Option<User>,
    whitelist: Option<set<Address>>,
    tlsOffered: bool,
    handshakes: bool,
    incoming: Bytes,
    stores: bool)

  datatype Command =
    | Hello
    | StartTls
    | AuthPlain(initial: Option<string>)
    | AuthLogin
    | AuthOther
    | AuthBare
    | MailFrom(address: Address)
    | RcptTo(address: Address)
    | Data
    | Rset
    | Noop
    | Quit
    | Unknown

  /** A line is a command unless the session waits for an answer to an authentication prompt. */
  datatype Input = Closed | Line(text: string, command: Command)

  datatype AuthState = Idle | WaitingForPlain | WaitingForUsername | WaitingForPassword(username: Bytes)

  datatype Session = Session(
    mailFrom: Option<Address>,
    rcptTo: seq<Account>,
    authenticated: bool,
    user: Option<User>,
    authRequired: bool,
    tlsActive: bool,
    authState: AuthState,
    journal: bool)

  datatype Destination = ToAccount(account: Account) | ToJournal
  datatype Delivery = Delivery(dest: Destination, data: Bytes)

  datatype Next = Continue | Stop | Upgrade
  /** The last reply to the line, what the connection does next, and the mail accepted, if any. */
  datatype Outcome = Outcome(reply: nat, next: Next, delivered: Option<Delivery>)

  function Reply(code: nat): Outcome {
    Outcome(code, Continue, None)
  }

  function NewSession(authRequired: bool, tlsActive: bool): Session {
    Session(None, [], false, None, authRequired, tlsActive, Idle, false)
  }

  function Reset(s: Session): Session {
    s.(mailFrom := None, rcptTo := [], journal := false)
  }

  predicate PeerAllowed(s: Session, w: World) {
    !w.journaling || s.authenticated || w.allowPeer(s.tlsActive)
  }

  // ---------------------------------------------------------------- authentication

  function PlainUser(w: World, text: string): Option<User> {
    var d := w.decode(text);
    if d.Some? && |Parts(d.value)| >= 3 then w.resolve(Parts(d.value)[2]) else None
  }

  /** The text names a user by the token in the place of the password. */
  ghost predicate PlainLogin(w: World, text: string, user: User) {
    w.decode(text).Some? && exists token :: PlainMessage(w.decode(text).value, token) && w.resolve(token) == Some(user)
  }

  /** What the code takes for a PLAIN login is one. */
  lemma PlainUserIs(w: World, text: string, user: User)
    ensures PlainUser(w, text) == Some(user) <==> PlainLogin(w, text, user)
  {
    hide PlainMessage, Parts;
    if w.decode(text).Some? {
      var d := w.decode(text).value;
      if PlainUser(w, text) == Some(user) {
        ThirdPart(d, Parts(d)[2]);
      }
      if PlainLogin(w, text, user) {
        var token :| PlainMessage(d, token) && w.resolve(token) == Some(user);
        ThirdPart(d, token);
      }
    }
  }

  function LogIn(s: Session, user: Option<User>): Session {
    if user.Some? then s.(authenticated := true, user := user) else s
  }

  function LogInReply(user: Option<User>): Outcome {
    Reply(if user.Some? then 235 else 535)
  }

  /** A line that answers a prompt. */
  function Answer(s: Session, w: World, text: string): (Session, Outcome)
    requires s.authState != Idle
  {
    match s.authState
    case WaitingForPlain =>
      var user := PlainUser(w, text);
      (LogIn(s, user).(authState := Idle), LogInReply(user))
    case WaitingForUsername =>
      var d := w.decode(text);
      if d.Some? then (s.(authState := WaitingForPassword(d.value)), Reply(334))
      else (s.(authState := Idle), Reply(501))
    case WaitingForPassword(_) =>
      var d := w.decode(text);
      if d.None? then (s.(authState := Idle), Reply(501)) else
        var user := w.resolve(d.value);
        (LogIn(s, user).(authState := Idle), LogInReply(user))
  }

  // ---------------------------------------------------------------- commands

  predicate SenderAllowed(w: World, address: Address) {
    w.whitelist.Some? && w.whitelist.value != {} ==> address in w.whitelist.value
  }

  function HandleMail(s: Session, w: World, address: Address): (Session, Outcome) {
    if s.authRequired && !s.authenticated then (s, Reply(530))
    else if !PeerAllowed(s, w) then (s, Reply(554))
    else if !SenderAllowed(w, address) then (s, Reply(550))
    else (s.(journal := false, mailFrom := Some(address)), Reply(250))
  }

  function HandleRcpt(s: Session, w: World, address: Address): (Session, Outcome) {
    if s.rcptTo != [] || s.journal then (s, Reply(452))
    else if s.authRequired && !s.authenticated then (s, Reply(530))
    else if s.mailFrom.None? then (s, Reply(503))
    else if !PeerAllowed(s, w) then (s, Reply(554))
    else if w.isTarget(address) then (s.(journal := true), Reply(250))
    else
      match w.find(address)
      case Missing => (s, Reply(550))
      case Failed => (s, Reply(451))
      case Found(account) =>
        if s.authRequired && s.user.None? then (s, Reply(530))
        else if s.authRequired && !w.permits(s.user.value, account.id) then (s, Reply(554))
        else if account.kind != NoSync then (s, Reply(550))
        else (s.(rcptTo := s.rcptTo + [account]), Reply(250))
  }

  function HandleData(s: Session, w: World): (Session, Outcome) {
    if s.authRequired && !s.authenticated then (s, Reply(530))
    else if s.mailFrom.None? then (s, Reply(503))
    else if s.rcptTo == [] && !s.journal then (s, Reply(503))
    else if !PeerAllowed(s, w) then (s, Reply(554))
    else
      match Receive(w.incoming, 0)
      case TooBig(_) => (s, Reply(552))
      case NotText => (s, Outcome(354, Stop, None))
      case Mail(data, _) =>
        if !w.stores then (s, Reply(451)) else
          var dest := if s.journal then ToJournal else ToAccount(s.rcptTo[0]);
          (Reset(s), Outcome(250, Continue, Some(Delivery(dest, data))))
  }

  function HandleCommand(s: Session, w: World, c: Command): (Session, Outcome) {
    match c
    case Hello => (s, Reply(250))
    case StartTls =>
      if !w.tlsOffered then (s, Reply(454))
      else if s.tlsActive then (s, Reply(503))
      else (s, Outcome(220, Upgrade, None))
    case AuthPlain(None) => (s.(authState := WaitingForPlain), Reply(334))
    case AuthPlain(Some(text)) => (LogIn(s, PlainUser(w, text)), LogInReply(PlainUser(w, text)))
    case AuthLogin => (s.(authState := WaitingForUsername), Reply(334))
    case AuthOther => (s, Reply(504))
    case AuthBare => (s, Reply(501))
    case MailFrom(address) => HandleMail(s, w, address)
    case RcptTo(address) => HandleRcpt(s, w, address)
    case Data => HandleData(s, w)
    case Rset => (Reset(s), Reply(250))
    case Noop => (s, Reply(250))
    case Quit => (s, Outcome(221, Stop, None))
    case Unknown => (s, Reply(500))
  }

  function Handle(s: Session, w: World, input: Input): (Session, Outcome) {
    match input
    case Closed => (s, Outcome(0, Stop, None))
    case Line(text, c) => if s.authState != Idle then Answer(s, w, text) else HandleCommand(s, w, c)
  }

  // ---------------------------------------------------------------- the session object

  class SmtpSession {
    var mailFrom: Option<Address>
    var rcptTo: seq<Account>
    var authenticated: bool
    var user: Option<User>
    const authRequired: bool
    var tlsActive: bool
    var authState: AuthState
    var journal: bool

    function State(): Session
      reads this
    {
      Session(mailFrom, rcptTo, authenticated, user, authRequired, tlsActive, authState, journal)
    }

    constructor (authRequired: bool, tlsActive: bool)
      ensures State() == NewSession(authRequired, tlsActive)
    {
      mailFrom, rcptTo, authenticated, user := None, [], false, None;
      this.authRequired, this.tlsActive := authRequired, tlsActive;
      authState, journal := Idle, false;
    }

    method Clear()
      modifies this
      ensures State() == Reset(old(State()))
    {
      mailFrom, rcptTo, journal := None, [], false;
    }

    method VerifyPlain(w: World, text: string) returns (o: Outcome)
      modifies this`authenticated, this`user
      ensures State() == LogIn(old(State()), PlainUser(w, text))
      ensures o == LogInReply(PlainUser(w, text))
      ensures o.reply == 235 <==> exists u :: PlainLogin(w, text, u)
      ensures forall u :: PlainLogin(w, text, u) ==> user == Some(u)
    {
      forall u ensures PlainUser(w, text) == Some(u) <==> PlainLogin(w, text, u) {
        PlainUserIs(w, text, u);
      }
      var decoded := w.decode(text);
      if decoded.Some? {
        var parts := Parts(decoded.value);
        if |parts| >= 3 {
          var found := w.resolve(parts[2]);
          if found.Some? {
            authenticated, user := true, found;
            return Reply(235);
          }
        }
      }
      return Reply(535);
    }

    method ContinueAuth(w: World, text: string) returns (o: Outcome)
      requires authState != Idle
      modifies this
      ensures (State(), o) == Answer(old(State()), w, text)
    {
      match authState {
        case WaitingForPlain =>
          o := VerifyPlain(w, text);
          authState := Idle;
        case WaitingForUsername =>
          var decoded := w.decode(text);
          if decoded.Some? {
            authState := WaitingForPassword(decoded.value);
            o := Reply(334);
          } else {
            authState := Idle;
            o := Reply(501);
          }
        case WaitingForPassword(_) =>
          var decoded := w.decode(text);
          if decoded.Some? {
            var found := w.resolve(decoded.value);
            if found.Some? {
              authenticated, user := true, found;
            }
            o := Reply(if found.Some? then 235 else 535);
          } else {
            o := Reply(501);
          }
          authState := Idle;
      }
    }

    method AcceptSender(w: World, address: Address) returns (o: Outcome)
      modifies this
      ensures (State(), o) == HandleMail(old(State()), w, address)
    {
      if authRequired && !authenticated {
        return Reply(530);
      }
      if !PeerAllowed(State(), w) {
        return Reply(554);
      }
      var allowed := true;
      if w.whitelist.Some? {
        if w.whitelist.value != {} && address !in w.whitelist.value {
          allowed := false;
        }
      }
      if !allowed {
        return Reply(550);
      }
      journal := false;
      mailFrom := Some(address);
      return Reply(250);
    }

    method AcceptRecipient(w: World, address: Address) returns (o: Outcome)
      modifies this
      ensures (State(), o) == HandleRcpt(old(State()), w, address)
    {
      if rcptTo != [] || journal {
        return Reply(452);
      }
      if authRequired && !authenticated {
        return Reply(530);
      }
      if mailFrom.None? {
        return Reply(503);
      }
      if !PeerAllowed(State(), w) {
        return Reply(554);
      }
      if w.isTarget(address) {
        journal := true;
        return Reply(250);
      }
      match w.find(address) {
        case Missing => return Reply(550);
        case Failed => return Reply(451);
        case Found(account) =>
          if authRequired {
            if user.None? {
              return Reply(530);
            }
            if !w.permits(user.value, account.id) {
              return Reply(554);
            }
          }
          if account.kind != NoSync {
            return Reply(550);
          }
          rcptTo := rcptTo + [account];
          return Reply(250);
      }
    }

    method AcceptData(w: World) returns (o: Outcome)
      modifies this
      ensures (State(), o) == HandleData(old(State()), w)
    {
      if authRequired && !authenticated {
        return Reply(530);
      }
      if mailFrom.None? || (rcptTo == [] && !journal) {
        return Reply(503);
      }
      if !PeerAllowed(State(), w) {
        return Reply(554);
      }
      var received := ReadData(w.incoming);
      match received {
        case TooBig(_) => return Reply(552);
        case NotText => return Outcome(354, Stop, None);
        case Mail(data, _) =>
          if !w.stores {
            return Reply(451);
          }
          var dest := if journal then ToJournal else ToAccount(rcptTo[0]);
          Clear();
          return Outcome(250, Continue, Some(Delivery(dest, data)));
      }
    }

    /** One line of the client. */
    method ProcessCommand(w: World, input: Input) returns (o: Outcome)
      modifies this
      ensures (State(), o) == Handle(old(State()), w, input)
    {
      hide HandleMail, HandleRcpt, HandleData, Answer, PlainUser;
      if input.Closed? {
        return Outcome(0, Stop, None);
      }
      if authState != Idle {
        o := ContinueAuth(w, input.text);
        return;
      }
      match input.command {
        case Hello => o := Reply(250);
        case StartTls =>
          o := if !w.tlsOffered then Reply(454) else if tlsActive then Reply(503) else Outcome(220, Upgrade, None);
        case AuthPlain(initial) =>
          if initial.Some? {
            o := VerifyPlain(w, initial.value);
          } else {
            authState := WaitingForPlain;
            o := Reply(334);
          }
        case AuthLogin =>
          authState := WaitingForUsername;
          o := Reply(334);
        case AuthOther => o := Reply(504);
        case AuthBare => o := Reply(501);
        case MailFrom(address) => o := AcceptSender(w, address);
        case RcptTo(address) => o := AcceptRecipient(w, address);
        case Data => o := AcceptData(w);
        case Rset =>
          Clear();
          o := Reply(250);
        case Noop => o := Reply(250);
        case Quit => o := Outcome(221, Stop, None);
        case Unknown => o := Reply(500);
      }
    }

    /** The connection after a completed TLS handshake. */
    method Secure()
      modifies this
      ensures State() == Reset(old(State())).(tlsActive := true)
    {
      tlsActive := true;
      Clear();
    }
  }
}
