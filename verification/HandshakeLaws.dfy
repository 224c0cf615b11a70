/** What one step of the handshake does, told by what can be observed: the messages
    created and written, the state and status of each remote, and the counters. */
module HandshakeLaws {
  import opened Basics
  import opened Handshakes

  /** A handshake message for this participant from a remote it has a handshake with. */
  predicate Handled(l: Local, m: Message) { m.dest == l.me && m.isHandshake && m.id.prefix in l.states }

  predicate HandledIn(l: Local, m: Message, s: HandshakeState) { Handled(l, m) && l.states[m.id.prefix] == s }

  /** It carries a token and answers what is stored for its sender. */
  predicate AnswersStored(l: Local, m: Message) {
    m.hasToken && m.id.prefix in l.stored && m.related == l.stored[m.id.prefix].msg.id
  }

  /** The writer takes what a step other than a resend tick writes. */
  predicate WriterTakes(ev: Event) { (ev.ParticipantData? || ev.StatelessMessage?) && ev.a.writeOk }

  /** Data of a participant without a status. */
  predicate FirstData(l: Local, ev: Event, p: int) { ev.ParticipantData? && ev.p == p && p !in l.auth }

  predicate BeginsAs(l: Local, ev: Event, p: int, i: Identity) {
    FirstData(l, ev, p) && ev.a.compatible && ev.a.hasIdentityToken && ev.a.identity == i
  }

  // ----- which messages are created ----------------------------------------------------

  predicate WantsRequest(l: Local, ev: Event, p: int) {
    && (ev.ParticipantData? || ev.StatelessMessage?) && ev.a.requestCreated
    && (|| BeginsAs(l, ev, p, SendRequest)
        || (ev.ParticipantData? && ev.p == p && p in l.auth && l.auth[p] == Authenticating
            && p in l.states && l.states[p] == PendingRequestSend)
        || (ev.StatelessMessage? && ev.m.id.prefix == p && HandledIn(l, ev.m, PendingRequestSend)))
  }

  predicate WantsReply(l: Local, ev: Event, p: int) {
    ev.StatelessMessage? && ev.m.id.prefix == p && HandledIn(l, ev.m, PendingRequestMessage) && ev.m.hasToken && ev.a.replyCreated
  }

  predicate WantsFinal(l: Local, ev: Event, p: int) {
    && ev.StatelessMessage? && ev.m.id.prefix == p && HandledIn(l, ev.m, PendingReplyMessage)
    && AnswersStored(l, ev.m) && ev.a.processed == OkFinalMessage
  }

  predicate Finishes(l: Local, ev: Event, p: int) {
    && ev.StatelessMessage? && ev.m.id.prefix == p && HandledIn(l, ev.m, PendingFinalMessage)
    && AnswersStored(l, ev.m) && ev.a.processed == OkDone
  }

  predicate Refuses(l: Local, ev: Event, p: int) {
    && ev.StatelessMessage? && ev.m.id.prefix == p
    && (HandledIn(l, ev.m, PendingReplyMessage) || HandledIn(l, ev.m, PendingFinalMessage))
    && AnswersStored(l, ev.m) && ev.a.processed == ProcessError
  }

  ghost predicate IsMadeAs(o: Outcome, p: int, kind: Kind) {
    o.made.Some? && o.made.value.msg.dest == p && o.made.value.msg.kind == kind
  }

  lemma CreatedByData(l: Local, q: int, a: Answers, p: int)
    ensures var o := ParticipantDataRead(l, q, a);
            && (IsMadeAs(o, p, Request) <==> WantsRequest(l, ParticipantData(q, a), p))
            && !IsMadeAs(o, p, Reply) && !IsMadeAs(o, p, Final)
  {
  }

  lemma CreatedByMessage(l: Local, m: Message, a: Answers, p: int)
    ensures var o, ev := StatelessMessageRead(l, m, a), StatelessMessage(m, a);
            && (IsMadeAs(o, p, Request) <==> WantsRequest(l, ev, p))
            && (IsMadeAs(o, p, Reply) <==> WantsReply(l, ev, p))
            && (IsMadeAs(o, p, Final) <==> WantsFinal(l, ev, p))
  {
  }

  /** A request, reply or final for p is created exactly when the handshake calls for it
      and the plugin provides it. */
  lemma CreatedExactly(l: Local, ev: Event, p: int)
    ensures var o := Step(l, ev);
            && (IsMadeAs(o, p, Request) <==> WantsRequest(l, ev, p))
            && (IsMadeAs(o, p, Reply) <==> WantsReply(l, ev, p))
            && (IsMadeAs(o, p, Final) <==> WantsFinal(l, ev, p))
  {
    hide ParticipantDataRead, StatelessMessageRead, WantsRequest;
    match ev
    case ParticipantData(q, a) => CreatedByData(l, q, a, p);
    case StatelessMessage(m, a) => CreatedByMessage(l, m, a, p);
    case _ => NothingWanted(l, ev, p);
  }

  lemma NothingWanted(l: Local, ev: Event, p: int)
    requires !ev.ParticipantData? && !ev.StatelessMessage?
    ensures !WantsRequest(l, ev, p)
  {
  }

  // ----- what is written -----------------------------------------------------------------

  /** At a resend tick: stored, not the final of a completed handshake, and taken. */
  ghost predicate ResentAt(l: Local, ev: Event, m: Message) {
    ev.ResendTick? && exists p ::
      p in ev.ok && p in l.stored && l.stored[p].msg == m && !(p in l.states && l.states[p] == CompletedWithFinalMessageSent)
  }

  /** The stored final, when the remote sends another handshake message. */
  predicate FinalAgain(l: Local, ev: Event, m: Message) {
    && ev.StatelessMessage? && HandledIn(l, ev.m, CompletedWithFinalMessageSent)
    && ev.m.id.prefix in l.stored && l.stored[ev.m.id.prefix].msg == m
  }

  lemma WrittenOnData(l: Local, q: int, a: Answers, m: Message)
    ensures var o := ParticipantDataRead(l, q, a);
            m in o.written <==> a.writeOk && o.made.Some? && o.made.value.msg == m
  {
  }

  lemma WrittenOnMessage(l: Local, r: Message, a: Answers, m: Message)
    ensures var o, ev := StatelessMessageRead(l, r, a), StatelessMessage(r, a);
            m in o.written <==> a.writeOk && ((o.made.Some? && o.made.value.msg == m) || FinalAgain(l, ev, m))
  {
  }

  /** Exactly what is written: a message just created, or a final asked for again, if the
      writer takes it; and at a resend tick the stored messages it takes, finals apart. */
  lemma WrittenExactly(l: Local, ev: Event, m: Message)
    ensures var o := Step(l, ev);
            m in o.written <==>
              || (WriterTakes(ev) && ((o.made.Some? && o.made.value.msg == m) || FinalAgain(l, ev, m)))
              || ResentAt(l, ev, m)
  {
    hide ParticipantDataRead, StatelessMessageRead, FinalAgain;
    match ev
    case ParticipantData(q, a) => WrittenOnData(l, q, a, m); NoFinal(l, ev, m);
    case StatelessMessage(r, a) => WrittenOnMessage(l, r, a, m);
    case ResendTick(ok) =>
      if ResentAt(l, ev, m) {
        var p :| p in ok && p in l.stored && l.stored[p].msg == m && !(p in l.states && l.states[p] == CompletedWithFinalMessageSent);
        assert Resendable(l, p);
      }
    case _ =>
  }

  lemma NoFinal(l: Local, ev: Event, m: Message)
    requires !ev.StatelessMessage?
    ensures !FinalAgain(l, ev, m)
  {
  }

  /** A created message is written exactly if the writer takes it. */
  lemma CreatedIsWrittenIff(l: Local, ev: Event)
    requires Step(l, ev).made.Some?
    ensures Step(l, ev).made.value.msg in Step(l, ev).written <==> ev.a.writeOk
  {
    hide Step;
    var n := Step(l, ev).made.value.msg;
    WrittenExactly(l, ev, n);
    CreatorsAnswer(l, ev);
    if FinalAgain(l, ev, n) { CompletedCreatesNothing(l, ev, n); }
  }

  lemma CreatorsAnswer(l: Local, ev: Event)
    requires Step(l, ev).made.Some?
    ensures ev.ParticipantData? || ev.StatelessMessage?
  {
    hide ParticipantDataRead, StatelessMessageRead;
  }

  lemma CompletedCreatesNothing(l: Local, ev: Event, m: Message)
    requires FinalAgain(l, ev, m)
    ensures Step(l, ev).made.None?
  {
  }

  /** A completed initiator writes its stored final at every handshake message from that
      remote that finds the writer ready, and changes nothing else. */
  lemma FinalIsRepeated(l: Local, m: Message, a: Answers)
    requires Inv(l) && HandledIn(l, m, CompletedWithFinalMessageSent) && a.writeOk
    ensures var o := Step(l, StatelessMessage(m, a));
            && o.local == l && m.id.prefix in l.stored && l.stored[m.id.prefix].msg.kind == Final
            && o.written == {l.stored[m.id.prefix].msg}
  {
    assert Sound(l, m.id.prefix);
  }

  // ----- state ------------------------------------------------------------------------------

  /** Where a message of this kind leaves its author. */
  function Awaiting(k: Kind): HandshakeState {
    match k
    case Request => PendingReplyMessage
    case Reply => PendingFinalMessage
    case Final => CompletedWithFinalMessageSent
  }

  /** The state of the handshake with p follows the message created for it, if any. */
  function StateThen(l: Local, ev: Event, made: Option<Made>, p: int): Option<HandshakeState> {
    if made.Some? && made.value.msg.dest == p then Some(Awaiting(made.value.msg.kind))
    else if BeginsAs(l, ev, p, SendRequest) then Some(PendingRequestSend)
    else if BeginsAs(l, ev, p, AwaitRequest) then Some(PendingRequestMessage)
    else if Finishes(l, ev, p) then Some(CompletedWithFinalMessageReceived)
    else if p in l.states then Some(l.states[p]) else None
  }

  function At<T>(m: map<int, T>, p: int): Option<T> { if p in m then Some(m[p]) else None }

  lemma StateOnStart(l: Local, q: int, a: Answers, p: int)
    requires q !in l.auth && a.compatible
    ensures var o := StartAuthentication(l, q, a); At(o.local.states, p) == StateThen(l, ParticipantData(q, a), o.made, p)
  {
    if a.hasIdentityToken {
      match a.identity
      case SendRequest =>
      case _ =>
    }
  }

  lemma StateOnData(l: Local, q: int, a: Answers, p: int)
    ensures var o := ParticipantDataRead(l, q, a);
            At(o.local.states, p) == StateThen(l, ParticipantData(q, a), o.made, p)
  {
    hide StartAuthentication;
    if q !in l.auth && a.compatible { StateOnStart(l, q, a, p); }
  }

  lemma StateOnPendingReply(l: Local, m: Message, a: Answers, p: int)
    requires HandledIn(l, m, PendingReplyMessage)
    ensures var o := OnPendingReply(l, m, a); At(o.local.states, p) == StateThen(l, StatelessMessage(m, a), o.made, p)
  {
  }

  lemma StateOnPendingFinal(l: Local, m: Message, a: Answers, p: int)
    requires HandledIn(l, m, PendingFinalMessage)
    ensures var o := OnPendingFinal(l, m, a); At(o.local.states, p) == StateThen(l, StatelessMessage(m, a), o.made, p)
  {
  }

  lemma StateOnMessage(l: Local, m: Message, a: Answers, p: int)
    ensures var o := StatelessMessageRead(l, m, a);
            At(o.local.states, p) == StateThen(l, StatelessMessage(m, a), o.made, p)
  {
    hide OnPendingReply, OnPendingFinal;
    if Handled(l, m) {
      match l.states[m.id.prefix]
      case PendingReplyMessage => StateOnPendingReply(l, m, a, p);
      case PendingFinalMessage => StateOnPendingFinal(l, m, a, p);
      case _ =>
    }
  }

  lemma StateExactly(l: Local, ev: Event, p: int)
    ensures At(Step(l, ev).local.states, p) == StateThen(l, ev, Step(l, ev).made, p)
  {
    hide ParticipantDataRead, StatelessMessageRead;
    match ev
    case ParticipantData(q, a) => StateOnData(l, q, a, p);
    case StatelessMessage(m, a) => StateOnMessage(l, m, a, p);
    case _ =>
  }

  // ----- status -------------------------------------------------------------------------------

  predicate AllChecks(l: Local, a: Answers) {
    a.permissionsOk && a.cryptoOk && (l.accessProtected ==> a.domainCheck == Some(true))
  }

  /** First data: taken on, let in unauthenticated if that is allowed, or rejected.
      Completion: authenticated exactly if every check passes. */
  function StatusThen(l: Local, ev: Event, p: int): Option<AuthStatus> {
    if FirstData(l, ev, p) then
      if ev.a.compatible && ev.a.hasIdentityToken && (ev.a.identity == SendRequest || ev.a.identity == AwaitRequest)
      then Some(Authenticating)
      else if l.allowUnauthenticated && (!ev.a.compatible || (ev.a.hasIdentityToken && ev.a.identity == IdentityError))
      then Some(Unauthenticated)
      else Some(Rejected)
    else if WantsFinal(l, ev, p) || Finishes(l, ev, p) then
      Some(if AllChecks(l, ev.a) then Authenticated else Rejected)
    else if ev == ParticipantRemoved(p) then None
    else At(l.auth, p)
  }

  lemma StatusOnStart(l: Local, q: int, a: Answers, p: int)
    requires q !in l.auth && a.compatible
    ensures var o := StartAuthentication(l, q, a); At(o.local.auth, p) == StatusThen(l, ParticipantData(q, a), p)
  {
    if a.hasIdentityToken {
      match a.identity
      case SendRequest =>
      case _ =>
    }
  }

  lemma StatusOnData(l: Local, q: int, a: Answers, p: int)
    ensures At(ParticipantDataRead(l, q, a).local.auth, p) == StatusThen(l, ParticipantData(q, a), p)
  {
    hide StartAuthentication;
    if q !in l.auth && a.compatible { StatusOnStart(l, q, a, p); }
  }

  lemma StatusOnPendingReply(l: Local, m: Message, a: Answers, p: int)
    requires HandledIn(l, m, PendingReplyMessage)
    ensures var o := OnPendingReply(l, m, a); At(o.local.auth, p) == StatusThen(l, StatelessMessage(m, a), p)
  {
  }

  lemma StatusOnPendingFinal(l: Local, m: Message, a: Answers, p: int)
    requires HandledIn(l, m, PendingFinalMessage)
    ensures var o := OnPendingFinal(l, m, a); At(o.local.auth, p) == StatusThen(l, StatelessMessage(m, a), p)
  {
  }

  lemma StatusOnMessage(l: Local, m: Message, a: Answers, p: int)
    ensures At(StatelessMessageRead(l, m, a).local.auth, p) == StatusThen(l, StatelessMessage(m, a), p)
  {
    hide OnPendingReply, OnPendingFinal;
    if Handled(l, m) {
      match l.states[m.id.prefix]
      case PendingReplyMessage => StatusOnPendingReply(l, m, a, p);
      case PendingFinalMessage => StatusOnPendingFinal(l, m, a, p);
      case _ =>
    }
  }

  lemma StatusExactly(l: Local, ev: Event, p: int)
    ensures At(Step(l, ev).local.auth, p) == StatusThen(l, ev, p)
  {
    hide ParticipantDataRead, StatelessMessageRead;
    match ev
    case ParticipantData(q, a) => StatusOnData(l, q, a, p);
    case StatelessMessage(m, a) => StatusOnMessage(l, m, a, p);
    case _ =>
  }

  // ----- stored messages ------------------------------------------------------------------------

  /** A new message starts with ten resends; a refused answer gives them back; each resend
      costs one, and with the last the message goes. */
  function StoredThen(l: Local, ev: Event, made: Option<Made>, p: int): Option<Stored> {
    if made.Some? && made.value.msg.dest == p then Some(Stored(made.value.msg, 10))
    else if p !in l.stored || Finishes(l, ev, p) then None
    else if Refuses(l, ev, p) then Some(Stored(l.stored[p].msg, 10))
    else if ev.ResendTick? && p in ev.ok && !(p in l.states && l.states[p] == CompletedWithFinalMessageSent) then
      if l.stored[p].counter == 1 then None else Some(Stored(l.stored[p].msg, l.stored[p].counter - 1))
    else Some(l.stored[p])
  }

  lemma StoredOnStart(l: Local, q: int, a: Answers, p: int)
    requires q !in l.auth && a.compatible
    ensures var o := StartAuthentication(l, q, a); At(o.local.stored, p) == StoredThen(l, ParticipantData(q, a), o.made, p)
  {
    if a.hasIdentityToken {
      match a.identity
      case SendRequest =>
      case _ =>
    }
  }

  lemma StoredOnData(l: Local, q: int, a: Answers, p: int)
    ensures var o := ParticipantDataRead(l, q, a);
            At(o.local.stored, p) == StoredThen(l, ParticipantData(q, a), o.made, p)
  {
    hide StartAuthentication;
    if q !in l.auth && a.compatible { StoredOnStart(l, q, a, p); }
  }

  lemma StoredOnPendingReply(l: Local, m: Message, a: Answers, p: int)
    requires HandledIn(l, m, PendingReplyMessage)
    ensures var o := OnPendingReply(l, m, a); At(o.local.stored, p) == StoredThen(l, StatelessMessage(m, a), o.made, p)
  {
  }

  lemma StoredOnPendingFinal(l: Local, m: Message, a: Answers, p: int)
    requires HandledIn(l, m, PendingFinalMessage)
    ensures var o := OnPendingFinal(l, m, a); At(o.local.stored, p) == StoredThen(l, StatelessMessage(m, a), o.made, p)
  {
  }

  lemma StoredOnMessage(l: Local, m: Message, a: Answers, p: int)
    ensures var o := StatelessMessageRead(l, m, a);
            At(o.local.stored, p) == StoredThen(l, StatelessMessage(m, a), o.made, p)
  {
    hide OnPendingReply, OnPendingFinal;
    if Handled(l, m) {
      match l.states[m.id.prefix]
      case PendingReplyMessage => StoredOnPendingReply(l, m, a, p);
      case PendingFinalMessage => StoredOnPendingFinal(l, m, a, p);
      case _ =>
    }
  }

  lemma StoredExactly(l: Local, ev: Event, p: int)
    requires Inv(l)
    ensures At(Step(l, ev).local.stored, p) == StoredThen(l, ev, Step(l, ev).made, p)
  {
    assert Sound(l, p);
    hide ParticipantDataRead, StatelessMessageRead;
    match ev
    case ParticipantData(q, a) => StoredOnData(l, q, a, p);
    case StatelessMessage(m, a) => StoredOnMessage(l, m, a, p);
    case _ =>
  }
}
