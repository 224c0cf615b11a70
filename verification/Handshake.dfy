/** One participant's side of the authentication handshake (DDS Security 1.1,
    sections 7.4.3 and 8.8.2). What the plugins, the message writer and the other
    participants answer is part of each event. */
module Handshakes {
  import opened Basics

  const MAX_RESENDS := 10

  datatype AuthStatus = Authenticated | Authenticating | Unauthenticated | Rejected

  datatype HandshakeState =
    | PendingRequestSend
    | PendingRequestMessage
    | PendingReplyMessage
    | PendingFinalMessage
    | CompletedWithFinalMessageSent
    | CompletedWithFinalMessageReceived

  /** Message identity: the writing participant's prefix and a sequence number. */
  datatype Id = Id(prefix: int, seqnum: int)

  const NO_ID := Id(-1, 0)

  /** The class of the handshake token inside a message. */
  datatype Kind = Request | Reply | Final

  datatype Message = Message(id: Id, related: Id, dest: int, kind: Kind, isHandshake: bool, hasToken: bool)

  datatype Stored = Stored(msg: Message, counter: int)

  datatype Local = Local(
    me: int,
    accessProtected: bool,
    allowUnauthenticated: bool,
    auth: map<int, AuthStatus>,
    states: map<int, HandshakeState>,
    stored: map<int, Stored>,
    nextSeqnum: int)

  function NewLocal(me: int, accessProtected: bool, allowUnauthenticated: bool): Local {
    Local(me, accessProtected, allowUnauthenticated, map[me := Authenticated], map[], map[], 1)
  }

  // ----- answers from outside -----------------------------------------------------

  /** validate_remote_identity: an error, or who is to send the request. */
  datatype Identity = IdentityError | SendRequest | AwaitRequest | OtherOutcome

  /** process_handshake */
  datatype Processed = OkFinalMessage | OkDone | Unexpected | ProcessError

  datatype Answers = Answers(
    compatible: bool,
    hasIdentityToken: bool,
    identity: Identity,
    requestCreated: bool,
    replyCreated: bool,
    processed: Processed,
    writeOk: bool,
    permissionsOk: bool,
    domainCheck: Option<bool>,
    cryptoOk: bool)

  datatype Event =
    | ParticipantData(p: int, a: Answers)
    | StatelessMessage(m: Message, a: Answers)
    | ResendTick(ok: set<int>)          // the participants the write succeeds for
    | ParticipantRemoved(p: int)
    | KeyMessagesNumbered(n: nat)       // key-exchange messages share the numbering

  /** A created message, the message it answers, and the message that was stored for
      the same participant when it was created. */
  datatype Made = Made(msg: Message, answered: Option<Message>, stored: Option<Message>)

  datatype Outcome = Outcome(local: Local, written: set<Message>, made: Option<Made>)

  function Quiet(l: Local): Outcome { Outcome(l, {}, None) }

  // ----- steps ----------------------------------------------------------------------

  function NewMessage(l: Local, p: int, answered: Option<Message>, kind: Kind): Message {
    Message(Id(l.me, l.nextSeqnum), if answered.Some? then answered.value.id else NO_ID, p, kind, true, true)
  }

  /** Creates a message, writes it, stores it for resending and moves on to `next`. */
  function Send(l: Local, p: int, answered: Option<Message>, kind: Kind, next: HandshakeState, writeOk: bool): Outcome {
    var m := NewMessage(l, p, answered, kind);
    Outcome(
      l.(nextSeqnum := l.nextSeqnum + 1, stored := l.stored[p := Stored(m, MAX_RESENDS)], states := l.states[p := next]),
      if writeOk then {m} else {},
      Some(Made(m, answered, if p in l.stored then Some(l.stored[p].msg) else None)))
  }

  function TrySendingRequest(l: Local, p: int, a: Answers): Outcome {
    if a.requestCreated then Send(l, p, None, Request, PendingReplyMessage, a.writeOk) else Quiet(l)
  }

  function WithAuth(o: Outcome, p: int, s: AuthStatus): Outcome {
    o.(local := o.local.(auth := o.local.auth[p := s]))
  }

  function StartAuthentication(l: Local, p: int, a: Answers): Outcome {
    if !a.hasIdentityToken then WithAuth(Quiet(l), p, Rejected)
    else match a.identity
      case IdentityError => WithAuth(Quiet(l), p, if l.allowUnauthenticated then Unauthenticated else Rejected)
      case SendRequest =>
        WithAuth(TrySendingRequest(l.(states := l.states[p := PendingRequestSend]), p, a), p, Authenticating)
      case AwaitRequest =>
        WithAuth(Quiet(l.(states := l.states[p := PendingRequestMessage])), p, Authenticating)
      case OtherOutcome => WithAuth(Quiet(l), p, Rejected)
  }

  function ParticipantDataRead(l: Local, p: int, a: Answers): Outcome {
    if p !in l.auth then
      if a.compatible then StartAuthentication(l, p, a)
      else WithAuth(Quiet(l), p, if l.allowUnauthenticated then Unauthenticated else Rejected)
    else if l.auth[p] == Authenticating && p in l.states && l.states[p] == PendingRequestSend then
      TrySendingRequest(l, p, a)
    else Quiet(l)
  }

  /** Permissions, the domain check if access is protected, and crypto registration. */
  predicate PassesChecks(l: Local, a: Answers) {
    a.permissionsOk && (l.accessProtected ==> a.domainCheck == Some(true)) && a.cryptoOk
  }

  function OnAuthenticated(o: Outcome, p: int, a: Answers): Outcome {
    WithAuth(o, p, if PassesChecks(o.local, a) then Authenticated else Rejected)
  }

  predicate RelatedToOurs(l: Local, m: Message, p: int) {
    p in l.stored && m.related == l.stored[p].msg.id
  }

  function ResetCounter(l: Local, p: int): Local {
    if p in l.stored then l.(stored := l.stored[p := l.stored[p].(counter := MAX_RESENDS)]) else l
  }

  function OnPendingRequest(l: Local, m: Message, a: Answers): Outcome {
    if m.hasToken && a.replyCreated
    then Send(l, m.id.prefix, Some(m), Reply, PendingFinalMessage, a.writeOk)
    else Quiet(l)
  }

  function OnPendingReply(l: Local, m: Message, a: Answers): Outcome {
    var p := m.id.prefix;
    if !RelatedToOurs(l, m, p) || !m.hasToken then Quiet(l)
    else match a.processed
      case OkFinalMessage =>
        OnAuthenticated(Send(l, p, Some(m), Final, CompletedWithFinalMessageSent, a.writeOk), p, a)
      case ProcessError => Quiet(ResetCounter(l, p))
      case _ => Quiet(l)
  }

  function OnPendingFinal(l: Local, m: Message, a: Answers): Outcome {
    var p := m.id.prefix;
    if !RelatedToOurs(l, m, p) || !m.hasToken then Quiet(l)
    else match a.processed
      case OkDone =>
        OnAuthenticated(Quiet(l.(states := l.states[p := CompletedWithFinalMessageReceived], stored := l.stored - {p})), p, a)
      case ProcessError => Quiet(ResetCounter(l, p))
      case _ => Quiet(l)
  }

  function ResendFinal(l: Local, p: int, a: Answers): Outcome {
    if p in l.stored && a.writeOk then Quiet(l).(written := {l.stored[p].msg}) else Quiet(l)
  }

  function StatelessMessageRead(l: Local, m: Message, a: Answers): Outcome {
    var p := m.id.prefix;
    if m.dest != l.me || !m.isHandshake || p !in l.states then Quiet(l)
    else match l.states[p]
      case PendingRequestSend => TrySendingRequest(l, p, a)
      case PendingRequestMessage => OnPendingRequest(l, m, a)
      case PendingReplyMessage => OnPendingReply(l, m, a)
      case PendingFinalMessage => OnPendingFinal(l, m, a)
      case CompletedWithFinalMessageSent => ResendFinal(l, p, a)
      case CompletedWithFinalMessageReceived => Quiet(l)
  }

  /** A final message is not resent on its own. */
  predicate Resendable(l: Local, p: int) {
    p in l.stored && !(p in l.states && l.states[p] == CompletedWithFinalMessageSent)
  }

  function AfterResend(l: Local, p: int, ok: set<int>): Stored
    requires p in l.stored
  {
    if Resendable(l, p) && p in ok then l.stored[p].(counter := l.stored[p].counter - 1) else l.stored[p]
  }

  function Resend(l: Local, ok: set<int>): Outcome {
    Outcome(
      l.(stored := map p | p in l.stored && AfterResend(l, p, ok).counter > 0 :: AfterResend(l, p, ok)),
      set p | p in l.stored && Resendable(l, p) && p in ok :: l.stored[p].msg,
      None)
  }

  function Step(l: Local, ev: Event): Outcome {
    match ev
    case ParticipantData(p, a) => ParticipantDataRead(l, p, a)
    case StatelessMessage(m, a) => StatelessMessageRead(l, m, a)
    case ResendTick(ok) => Resend(l, ok)
    case ParticipantRemoved(p) => Quiet(l.(auth := l.auth - {p}))
    case KeyMessagesNumbered(n) => Quiet(l.(nextSeqnum := l.nextSeqnum + n))
  }

  function After(l: Local, h: seq<Event>): Local
    decreases |h|
  {
    if h == [] then l else Step(After(l, h[..|h| - 1]), h[|h| - 1]).local
  }

  // ----- what every step keeps --------------------------------------------------------

  predicate Completed(s: HandshakeState) {
    s == CompletedWithFinalMessageSent || s == CompletedWithFinalMessageReceived
  }

  /** What holds about one remote participant between steps. */
  predicate Sound(l: Local, p: int) {
    && (p in l.stored ==>
          && 1 <= l.stored[p].counter <= MAX_RESENDS
          && l.stored[p].msg.dest == p && l.stored[p].msg.id.prefix == l.me && 1 <= l.stored[p].msg.id.seqnum < l.nextSeqnum)
    && (p in l.states && l.states[p] == CompletedWithFinalMessageSent ==> p in l.stored && l.stored[p].msg.kind == Final)
    && (p in l.auth && l.auth[p] == Authenticated && p != l.me ==> p in l.states && Completed(l.states[p]))
  }

  ghost predicate Inv(l: Local) {
    l.nextSeqnum >= 1 && forall p :: Sound(l, p)
  }

  lemma SendSound(l: Local, p: int, answered: Option<Message>, kind: Kind, next: HandshakeState, ok: bool)
    requires Inv(l)
    requires next == CompletedWithFinalMessageSent ==> kind == Final
    requires p in l.auth && l.auth[p] == Authenticated && p != l.me ==> Completed(next)
    ensures Inv(Send(l, p, answered, kind, next, ok).local)
  {
    var o := Send(l, p, answered, kind, next, ok);
    forall q ensures Sound(o.local, q) {
      assert Sound(l, q);
    }
  }

  lemma WithAuthSound(o: Outcome, p: int, s: AuthStatus)
    requires Inv(o.local)
    requires s == Authenticated ==> p in o.local.states && Completed(o.local.states[p])
    ensures Inv(WithAuth(o, p, s).local)
  {
    forall q ensures Sound(WithAuth(o, p, s).local, q) { assert Sound(o.local, q); }
  }

  lemma RestartSound(l: Local, p: int, s: HandshakeState)
    requires Inv(l) && p !in l.auth && (s == PendingRequestSend || s == PendingRequestMessage)
    ensures Inv(l.(states := l.states[p := s]))
  {
    var d := l.(states := l.states[p := s]);
    forall q ensures Sound(d, q) { assert Sound(l, q); }
  }

  lemma FinishSound(l: Local, p: int)
    requires Inv(l)
    ensures Inv(l.(states := l.states[p := CompletedWithFinalMessageReceived], stored := l.stored - {p}))
  {
    var d := l.(states := l.states[p := CompletedWithFinalMessageReceived], stored := l.stored - {p});
    forall q ensures Sound(d, q) { assert Sound(l, q); }
  }

  lemma ResetSound(l: Local, p: int)
    requires Inv(l)
    ensures Inv(ResetCounter(l, p))
  {
    forall q ensures Sound(ResetCounter(l, p), q) { assert Sound(l, q); }
  }

  lemma StartKeepsInv(l: Local, p: int, a: Answers)
    requires Inv(l) && p !in l.auth
    ensures Inv(StartAuthentication(l, p, a).local)
  {
    RestartSound(l, p, PendingRequestSend);
    RestartSound(l, p, PendingRequestMessage);
    var sending := l.(states := l.states[p := PendingRequestSend]);
    if a.requestCreated {
      SendSound(sending, p, None, Request, PendingReplyMessage, a.writeOk);
    }
    WithAuthSound(TrySendingRequest(sending, p, a), p, Authenticating);
    WithAuthSound(Quiet(l.(states := l.states[p := PendingRequestMessage])), p, Authenticating);
    WithAuthSound(Quiet(l), p, Rejected);
    WithAuthSound(Quiet(l), p, Unauthenticated);
  }

  lemma DataKeepsInv(l: Local, p: int, a: Answers)
    requires Inv(l)
    ensures Inv(ParticipantDataRead(l, p, a).local)
  {
    if p !in l.auth {
      StartKeepsInv(l, p, a);
      WithAuthSound(Quiet(l), p, Rejected);
      WithAuthSound(Quiet(l), p, Unauthenticated);
    } else if a.requestCreated && l.auth[p] == Authenticating {
      SendSound(l, p, None, Request, PendingReplyMessage, a.writeOk);
    }
  }

  lemma OnPendingReplyKeepsInv(l: Local, m: Message, a: Answers)
    requires Inv(l)
    ensures Inv(OnPendingReply(l, m, a).local)
  {
    var p := m.id.prefix;
    ResetSound(l, p);
    SendSound(l, p, Some(m), Final, CompletedWithFinalMessageSent, a.writeOk);
    var o := Send(l, p, Some(m), Final, CompletedWithFinalMessageSent, a.writeOk);
    WithAuthSound(o, p, if PassesChecks(o.local, a) then Authenticated else Rejected);
  }

  lemma OnPendingFinalKeepsInv(l: Local, m: Message, a: Answers)
    requires Inv(l)
    ensures Inv(OnPendingFinal(l, m, a).local)
  {
    var p := m.id.prefix;
    ResetSound(l, p);
    FinishSound(l, p);
    var o := Quiet(l.(states := l.states[p := CompletedWithFinalMessageReceived], stored := l.stored - {p}));
    WithAuthSound(o, p, if PassesChecks(o.local, a) then Authenticated else Rejected);
  }

  lemma MessageKeepsInv(l: Local, m: Message, a: Answers)
    requires Inv(l)
    ensures Inv(StatelessMessageRead(l, m, a).local)
  {
    var p := m.id.prefix;
    assert Sound(l, p);
    if m.dest == l.me && m.isHandshake && p in l.states {
      match l.states[p]
      case PendingRequestSend =>
        if a.requestCreated { SendSound(l, p, None, Request, PendingReplyMessage, a.writeOk); }
      case PendingRequestMessage =>
        if m.hasToken && a.replyCreated { SendSound(l, p, Some(m), Reply, PendingFinalMessage, a.writeOk); }
      case PendingReplyMessage => OnPendingReplyKeepsInv(l, m, a);
      case PendingFinalMessage => OnPendingFinalKeepsInv(l, m, a);
      case _ =>
    }
  }

  lemma ResendKeepsInv(l: Local, ok: set<int>)
    requires Inv(l)
    ensures Inv(Resend(l, ok).local)
  {
    var o := Resend(l, ok);
    forall q ensures Sound(o.local, q) {
      assert Sound(l, q);
    }
  }

  lemma StepKeepsInv(l: Local, ev: Event)
    requires Inv(l)
    ensures Inv(Step(l, ev).local)
  {
    match ev
    case ParticipantData(p, a) => DataKeepsInv(l, p, a);
    case StatelessMessage(m, a) => MessageKeepsInv(l, m, a);
    case ResendTick(ok) => ResendKeepsInv(l, ok);
    case ParticipantRemoved(p) =>
      forall q ensures Sound(Step(l, ev).local, q) { assert Sound(l, q); }
    case KeyMessagesNumbered(n) =>
      forall q ensures Sound(Step(l, ev).local, q) { assert Sound(l, q); }
  }

  lemma {:induction false} RunKeepsInv(l: Local, h: seq<Event>)
    requires Inv(l)
    ensures Inv(After(l, h))
    decreases |h|
  {
    if h != [] {
      RunKeepsInv(l, h[..|h| - 1]);
      StepKeepsInv(After(l, h[..|h| - 1]), h[|h| - 1]);
    }
  }
}
