/** Results about every run of one participant's handshake machine. */
module HandshakeRuns {
  import opened Basics
  import opened Handshakes

  // ----- progress -----------------------------------------------------------------

  /** One step along the initiator's or the responder's path, or no step. */
  predicate Forward(s: HandshakeState, t: HandshakeState) {
    || t == s
    || (s == PendingRequestSend && t == PendingReplyMessage)
    || (s == PendingReplyMessage && t == CompletedWithFinalMessageSent)
    || (s == PendingRequestMessage && t == PendingFinalMessage)
    || (s == PendingFinalMessage && t == CompletedWithFinalMessageReceived)
  }

  function Rank(s: HandshakeState): nat {
    match s
    case PendingRequestSend => 0
    case PendingRequestMessage => 0
    case PendingReplyMessage => 1
    case PendingFinalMessage => 1
    case _ => 2
  }

  predicate Initiates(s: HandshakeState) {
    s == PendingRequestSend || s == PendingReplyMessage || s == CompletedWithFinalMessageSent
  }

  /** Authentication with p starts over: its data arrives while it has no status. */
  predicate Restarts(l: Local, ev: Event, p: int) {
    ev.ParticipantData? && ev.p == p && p !in l.auth
  }

  /** Nothing kept about p differs. */
  predicate SameAbout(l: Local, d: Local, p: int) {
    && (p in l.auth <==> p in d.auth) && (p in l.auth ==> l.auth[p] == d.auth[p])
    && (p in l.states <==> p in d.states) && (p in l.states ==> l.states[p] == d.states[p])
    && (p in l.stored <==> p in d.stored) && (p in l.stored ==> l.stored[p] == d.stored[p])
  }

  lemma SendTouchesOne(l: Local, q: int, answered: Option<Message>, kind: Kind, next: HandshakeState, ok: bool, p: int)
    requires q != p
    ensures SameAbout(l, Send(l, q, answered, kind, next, ok).local, p)
  {
  }

  lemma ReplyTouchesOne(l: Local, m: Message, a: Answers, p: int)
    requires m.id.prefix != p
    ensures SameAbout(l, OnPendingReply(l, m, a).local, p)
  {
    SendTouchesOne(l, m.id.prefix, Some(m), Final, CompletedWithFinalMessageSent, a.writeOk, p);
  }

  lemma FinalTouchesOne(l: Local, m: Message, a: Answers, p: int)
    requires m.id.prefix != p
    ensures SameAbout(l, OnPendingFinal(l, m, a).local, p)
  {
  }

  lemma OthersUntouchedByMessage(l: Local, m: Message, a: Answers, p: int)
    requires m.id.prefix != p
    ensures SameAbout(l, StatelessMessageRead(l, m, a).local, p)
  {
    var q := m.id.prefix;
    if m.dest == l.me && m.isHandshake && q in l.states {
      match l.states[q]
      case PendingRequestSend => SendTouchesOne(l, q, None, Request, PendingReplyMessage, a.writeOk, p);
      case PendingRequestMessage => SendTouchesOne(l, q, Some(m), Reply, PendingFinalMessage, a.writeOk, p);
      case PendingReplyMessage => ReplyTouchesOne(l, m, a, p);
      case PendingFinalMessage => FinalTouchesOne(l, m, a, p);
      case _ =>
    }
  }

  lemma StartTouchesOne(l: Local, q: int, a: Answers, p: int)
    requires q != p
    ensures SameAbout(l, StartAuthentication(l, q, a).local, p)
  {
    if a.hasIdentityToken && a.identity == SendRequest {
      var sending := l.(states := l.states[q := PendingRequestSend]);
      SendTouchesOne(sending, q, None, Request, PendingReplyMessage, a.writeOk, p);
      assert SameAbout(l, sending, p);
    }
  }

  lemma OthersUntouchedByData(l: Local, q: int, a: Answers, p: int)
    requires q != p
    ensures SameAbout(l, ParticipantDataRead(l, q, a).local, p)
  {
    if q in l.auth {
      SendTouchesOne(l, q, None, Request, PendingReplyMessage, a.writeOk, p);
    } else if a.compatible {
      StartTouchesOne(l, q, a, p);
    }
  }

  lemma MessageGoesForward(l: Local, m: Message, a: Answers)
    requires m.id.prefix in l.states
    ensures var p := m.id.prefix;
            var d := StatelessMessageRead(l, m, a).local;
            && p in d.states && Forward(l.states[p], d.states[p])
            && (Stuck(l, p) ==> Stuck(d, p) && d.states[p] == l.states[p])
  {
  }

  lemma DataGoesForward(l: Local, p: int, a: Answers)
    requires p in l.states && p in l.auth
    ensures var d := ParticipantDataRead(l, p, a).local;
            && p in d.states && Forward(l.states[p], d.states[p])
            && (Stuck(l, p) ==> Stuck(d, p) && d.states[p] == l.states[p])
  {
  }

  lemma StepGoesForward(l: Local, ev: Event, p: int)
    requires p in l.states && !Restarts(l, ev, p)
    ensures var d := Step(l, ev).local;
            && p in d.states && Forward(l.states[p], d.states[p])
            && (Stuck(l, p) ==> Stuck(d, p) && d.states[p] == l.states[p])
  {
    match ev
    case ParticipantData(q, a) => if q == p { DataGoesForward(l, p, a); } else { OthersUntouchedByData(l, q, a, p); }
    case StatelessMessage(m, a) =>
      if m.id.prefix == p { MessageGoesForward(l, m, a); } else { OthersUntouchedByMessage(l, m, a, p); }
    case ResendTick(ok) =>
    case ParticipantRemoved(q) =>
    case KeyMessagesNumbered(n) =>
  }

  lemma StatusStays(l: Local, ev: Event, p: int)
    requires p in l.auth && ev != ParticipantRemoved(p)
    ensures p in Step(l, ev).local.auth
  {
  }

  /** Handshake progress is never undone, nor are the roles swapped, unless the
      authentication status was removed first. */
  lemma {:induction false} ProgressIsKept(l: Local, h: seq<Event>, p: int)
    requires p in l.states && p in l.auth
    requires forall i :: 0 <= i < |h| ==> h[i] != ParticipantRemoved(p)
    ensures var d := After(l, h);
            && p in d.auth && p in d.states
            && Rank(l.states[p]) <= Rank(d.states[p]) && (Initiates(l.states[p]) <==> Initiates(d.states[p]))
    decreases |h|
  {
    if h != [] {
      ProgressIsKept(l, h[..|h| - 1], p);
      StatusStays(After(l, h[..|h| - 1]), h[|h| - 1], p);
      StepGoesForward(After(l, h[..|h| - 1]), h[|h| - 1], p);
    }
  }

  // ----- evidence -------------------------------------------------------------------

  /** Only a message from p can make p authenticated, by completing the handshake and
      passing every check. */
  lemma AuthenticationNeedsEvidence(l: Local, ev: Event, p: int)
    requires !IsAuthenticated(l, p) && IsAuthenticated(Step(l, ev).local, p)
    ensures ev.StatelessMessage? && ev.m.id.prefix == p && PassesChecks(l, ev.a)
    ensures IsComplete(Step(l, ev).local, p)
  {
    match ev
    case ParticipantData(q, a) => if q != p { OthersUntouchedByData(l, q, a, p); }
    case StatelessMessage(m, a) => if m.id.prefix != p { OthersUntouchedByMessage(l, m, a, p); }
    case ResendTick(ok) =>
    case ParticipantRemoved(q) =>
    case KeyMessagesNumbered(n) =>
  }

  lemma StepKeepsConfiguration(l: Local, ev: Event)
    ensures var d := Step(l, ev).local;
            d.me == l.me && d.accessProtected == l.accessProtected && d.allowUnauthenticated == l.allowUnauthenticated
  {
  }

  lemma {:induction false} RunKeepsConfiguration(l: Local, h: seq<Event>)
    ensures After(l, h).accessProtected == l.accessProtected && After(l, h).me == l.me
    decreases |h|
  {
    if h != [] {
      RunKeepsConfiguration(l, h[..|h| - 1]);
      StepKeepsConfiguration(After(l, h[..|h| - 1]), h[|h| - 1]);
    }
  }

  ghost predicate IsAuthenticated(l: Local, p: int) { p in l.auth && l.auth[p] == Authenticated }

  ghost predicate IsComplete(l: Local, p: int) { p in l.states && Completed(l.states[p]) }

  /** The i-th event completed the handshake with p and passed every check, and p was
      not removed since. */
  ghost predicate EvidenceAt(l: Local, h: seq<Event>, i: nat, p: int) {
    && i < |h| && h[i].StatelessMessage? && h[i].m.id.prefix == p && PassesChecks(l, h[i].a)
    && IsComplete(After(l, h[..i + 1]), p)
    && forall j :: i < j < |h| ==> h[j] != ParticipantRemoved(p)
  }

  lemma EvidenceExtends(l: Local, past: seq<Event>, ev: Event, i: nat, p: int)
    requires EvidenceAt(l, past, i, p) && ev != ParticipantRemoved(p)
    ensures EvidenceAt(l, past + [ev], i, p)
  {
    assert (past + [ev])[..i + 1] == past[..i + 1];
  }

  /** In every run: an authenticated remote has, at some message since it was last
      removed, completed the handshake and passed permissions, the domain check if
      access is protected, and crypto registration. */
  lemma {:induction false} AuthenticatedHasEvidence(l: Local, h: seq<Event>, p: int) returns (i: nat)
    requires !IsAuthenticated(l, p) && IsAuthenticated(After(l, h), p)
    ensures EvidenceAt(l, h, i, p)
    decreases |h|
  {
    var past, ev := h[..|h| - 1], h[|h| - 1];
    assert h == past + [ev];
    var before := After(l, past);
    if IsAuthenticated(before, p) {
      i := AuthenticatedHasEvidence(l, past, p);
      EvidenceExtends(l, past, ev, i, p);
    } else {
      EvidenceHere(l, past, ev, p);
      i := |past|;
    }
  }

  lemma EvidenceHere(l: Local, past: seq<Event>, ev: Event, p: int)
    requires !IsAuthenticated(After(l, past), p) && IsAuthenticated(Step(After(l, past), ev).local, p)
    ensures EvidenceAt(l, past + [ev], |past|, p)
  {
    AuthenticationNeedsEvidence(After(l, past), ev, p);
    RunKeepsConfiguration(l, past);
    var h := past + [ev];
    assert h[..|past| + 1] == h && h[..|past|] == past;
    assert After(l, h) == Step(After(l, past), ev).local;
  }

  /** And the handshake with it is complete at that very moment. */
  lemma AuthenticatedMeansCompleted(l: Local, h: seq<Event>, p: int)
    requires Inv(l) && p != l.me && IsAuthenticated(After(l, h), p)
    ensures IsComplete(After(l, h), p)
  {
    RunKeepsInv(l, h);
    RunKeepsConfiguration(l, h);
    assert Sound(After(l, h), p);
  }

  // ----- dead ends ---------------------------------------------------------------------

  /** Waiting for a reply or a final message with nothing stored to match it against. */
  predicate Stuck(l: Local, p: int) {
    && p in l.states && (l.states[p] == PendingReplyMessage || l.states[p] == PendingFinalMessage)
    && p !in l.stored
  }

  ghost predicate NeverRestarts(l: Local, h: seq<Event>, p: int)
    decreases |h|
  {
    h != [] ==> NeverRestarts(l, h[..|h| - 1], p) && !Restarts(After(l, h[..|h| - 1]), h[|h| - 1], p)
  }

  /** Once the stored message has run out of resends, no message whatsoever moves the
      handshake on until authentication is restarted. */
  lemma {:induction false} StuckUntilRestart(l: Local, h: seq<Event>, p: int)
    requires Stuck(l, p) && NeverRestarts(l, h, p)
    ensures Stuck(After(l, h), p) && After(l, h).states[p] == l.states[p]
    decreases |h|
  {
    if h != [] {
      StuckUntilRestart(l, h[..|h| - 1], p);
      StepGoesForward(After(l, h[..|h| - 1]), h[|h| - 1], p);
    }
  }

  // ----- how often a message is written ---------------------------------------------------

  /** The number of steps of a run that write message m. */
  ghost function Writes(l: Local, h: seq<Event>, m: Message): nat
    decreases |h|
  {
    if h == [] then 0
    else Writes(l, h[..|h| - 1], m) + if m in Step(After(l, h[..|h| - 1]), h[|h| - 1]).written then 1 else 0
  }

  /** The step is a failed validation of an answer to the stored message m. */
  ghost predicate FailsValidation(l: Local, ev: Event, m: Message) {
    && ev.StatelessMessage? && ev.m.dest == l.me && ev.m.isHandshake && ev.m.id.prefix == m.dest
    && m.dest in l.states && (l.states[m.dest] == PendingReplyMessage || l.states[m.dest] == PendingFinalMessage)
    && Rejects(l, ev.m, ev.a) && l.stored[m.dest].msg == m
  }

  /** The token of an answer to the stored message is refused. */
  ghost predicate Rejects(l: Local, r: Message, a: Answers) {
    RelatedToOurs(l, r, r.id.prefix) && r.hasToken && a.processed == ProcessError
  }

  ghost function Failures(l: Local, h: seq<Event>, m: Message): nat
    decreases |h|
  {
    if h == [] then 0
    else Failures(l, h[..|h| - 1], m) + if FailsValidation(After(l, h[..|h| - 1]), h[|h| - 1], m) then 1 else 0
  }

  /** The writes still allowed for m: those counted plus those the counter permits. */
  ghost predicate InBudget(l: Local, m: Message, writes: nat, failures: nat) {
    if m.dest in l.stored && l.stored[m.dest].msg == m
    then writes + l.stored[m.dest].counter <= 1 + MAX_RESENDS + MAX_RESENDS * failures
    else if m.id.seqnum < l.nextSeqnum then writes <= 1 + MAX_RESENDS + MAX_RESENDS * failures
    else writes == 0
  }

  /** The budget after a step that started with w writes and f failures. */
  ghost predicate Keeps(o: Outcome, m: Message, w: nat, f: nat) {
    InBudget(o.local, m, w + (if m in o.written then 1 else 0), f)
  }

  ghost predicate Ours(l: Local, m: Message, w: nat, f: nat) {
    Inv(l) && InBudget(l, m, w, f) && m.id.prefix == l.me && m.kind != Final
  }

  lemma SendBudget(l: Local, p: int, answered: Option<Message>, kind: Kind, next: HandshakeState, ok: bool, m: Message, w: nat, f: nat)
    requires Ours(l, m, w, f)
    ensures Keeps(Send(l, p, answered, kind, next, ok), m, w, f)
  {
    assert Sound(l, p) && Sound(l, m.dest);
  }

  lemma ResendBudget(l: Local, ok: set<int>, m: Message, w: nat, f: nat)
    requires Ours(l, m, w, f)
    ensures Keeps(Resend(l, ok), m, w, f)
  {
    assert Sound(l, m.dest);
    var o := Resend(l, ok);
    if m in o.written {
      var p :| p in l.stored && Resendable(l, p) && p in ok && l.stored[p].msg == m;
      assert Sound(l, p);
      assert p == m.dest;
    } else {
      assert m.dest in l.stored && l.stored[m.dest].msg == m ==> !(Resendable(l, m.dest) && m.dest in ok);
    }
  }

  lemma SameBudget(o: Outcome, u: Outcome, m: Message, w: nat, f: nat)
    requires Keeps(o, m, w, f)
    requires u.local.stored == o.local.stored && u.local.nextSeqnum == o.local.nextSeqnum && u.written == o.written
    ensures Keeps(u, m, w, f)
  {
  }

  lemma StartBudget(l: Local, p: int, a: Answers, m: Message, w: nat, f: nat)
    requires Ours(l, m, w, f) && p !in l.auth
    ensures Keeps(StartAuthentication(l, p, a), m, w, f)
  {
    var o := StartAuthentication(l, p, a);
    if a.hasIdentityToken && a.identity == SendRequest && a.requestCreated {
      var sending := l.(states := l.states[p := PendingRequestSend]);
      RestartSound(l, p, PendingRequestSend);
      SendBudget(sending, p, None, Request, PendingReplyMessage, a.writeOk, m, w, f);
      SameBudget(Send(sending, p, None, Request, PendingReplyMessage, a.writeOk), o, m, w, f);
    } else {
      SameBudget(Quiet(l), o, m, w, f);
    }
  }

  lemma DataBudget(l: Local, p: int, a: Answers, m: Message, w: nat, f: nat)
    requires Ours(l, m, w, f)
    ensures Keeps(ParticipantDataRead(l, p, a), m, w, f)
  {
    assert Keeps(Quiet(l), m, w, f);
    if p !in l.auth {
      StartBudget(l, p, a, m, w, f);
    } else {
      SendBudget(l, p, None, Request, PendingReplyMessage, a.writeOk, m, w, f);
    }
  }

  ghost function Failed(l: Local, r: Message, a: Answers, m: Message): nat {
    if FailsValidation(l, StatelessMessage(r, a), m) then 1 else 0
  }

  lemma MoreFailures(o: Outcome, m: Message, w: nat, f: nat, more: nat)
    requires Keeps(o, m, w, f)
    ensures Keeps(o, m, w, f + more)
  {
  }

  /** A handshake message for this participant, which is waiting for an answer. */
  ghost predicate Awaits(l: Local, r: Message) {
    && r.dest == l.me && r.isHandshake && r.id.prefix in l.states
    && (l.states[r.id.prefix] == PendingReplyMessage || l.states[r.id.prefix] == PendingFinalMessage)
  }

  lemma ResetBudget(l: Local, r: Message, a: Answers, m: Message, w: nat, f: nat)
    requires Ours(l, m, w, f) && Awaits(l, r) && Rejects(l, r, a)
    ensures Keeps(Quiet(ResetCounter(l, r.id.prefix)), m, w, f + Failed(l, r, a, m))
  {
    assert Sound(l, m.dest);
  }

  lemma PendingReplyBudget(l: Local, r: Message, a: Answers, m: Message, w: nat, f: nat)
    requires Ours(l, m, w, f) && Awaits(l, r)
    ensures Keeps(OnPendingReply(l, r, a), m, w, f + Failed(l, r, a, m))
  {
    var p := r.id.prefix;
    MoreFailures(Quiet(l), m, w, f, Failed(l, r, a, m));
    if Rejects(l, r, a) {
      ResetBudget(l, r, a, m, w, f);
    } else if a.processed == OkFinalMessage {
      SendBudget(l, p, Some(r), Final, CompletedWithFinalMessageSent, a.writeOk, m, w, f);
    }
  }

  lemma PendingFinalBudget(l: Local, r: Message, a: Answers, m: Message, w: nat, f: nat)
    requires Ours(l, m, w, f) && Awaits(l, r)
    ensures Keeps(OnPendingFinal(l, r, a), m, w, f + Failed(l, r, a, m))
  {
    assert Sound(l, m.dest);
    MoreFailures(Quiet(l), m, w, f, Failed(l, r, a, m));
    if Rejects(l, r, a) {
      ResetBudget(l, r, a, m, w, f);
    }
  }

  lemma MessageBudget(l: Local, r: Message, a: Answers, m: Message, w: nat, f: nat)
    requires Ours(l, m, w, f)
    ensures Keeps(StatelessMessageRead(l, r, a), m, w, f + Failed(l, r, a, m))
  {
    var p := r.id.prefix;
    var more := Failed(l, r, a, m);
    assert Sound(l, p);
    if r.dest != l.me || !r.isHandshake || p !in l.states {
      MoreFailures(Quiet(l), m, w, f, more);
    } else if l.states[p] == PendingReplyMessage {
      PendingReplyBudget(l, r, a, m, w, f);
    } else if l.states[p] == PendingFinalMessage {
      PendingFinalBudget(l, r, a, m, w, f);
    } else {
      OtherStatesBudget(l, r, a, m, w, f);
      MoreFailures(StatelessMessageRead(l, r, a), m, w, f, more);
    }
  }

  lemma OtherStatesBudget(l: Local, r: Message, a: Answers, m: Message, w: nat, f: nat)
    requires Ours(l, m, w, f) && r.dest == l.me && r.isHandshake && r.id.prefix in l.states
    requires l.states[r.id.prefix] != PendingReplyMessage && l.states[r.id.prefix] != PendingFinalMessage
    ensures Keeps(StatelessMessageRead(l, r, a), m, w, f)
  {
    var p := r.id.prefix;
    assert Sound(l, p);
    match l.states[p]
    case PendingRequestSend => SendBudget(l, p, None, Request, PendingReplyMessage, a.writeOk, m, w, f);
    case PendingRequestMessage => SendBudget(l, p, Some(r), Reply, PendingFinalMessage, a.writeOk, m, w, f);
    case CompletedWithFinalMessageSent => assert l.stored[p].msg != m;
    case CompletedWithFinalMessageReceived =>
  }

  lemma StepBudget(l: Local, ev: Event, m: Message, w: nat, f: nat)
    requires Ours(l, m, w, f)
    ensures Keeps(Step(l, ev), m, w, f + if FailsValidation(l, ev, m) then 1 else 0)
  {
    match ev
    case ParticipantData(p, a) => DataBudget(l, p, a, m, w, f);
    case StatelessMessage(r, a) => MessageBudget(l, r, a, m, w, f);
    case ResendTick(ok) => ResendBudget(l, ok, m, w, f);
    case ParticipantRemoved(p) =>
    case KeyMessagesNumbered(n) =>
  }

  lemma {:induction false} RunBudget(me: int, ap: bool, au: bool, h: seq<Event>, m: Message)
    requires m.id.prefix == me && m.id.seqnum >= 1 && m.kind != Final
    ensures var l := NewLocal(me, ap, au);
            InBudget(After(l, h), m, Writes(l, h, m), Failures(l, h, m))
    decreases |h|
  {
    var l := NewLocal(me, ap, au);
    if h != [] {
      var past := h[..|h| - 1];
      RunBudget(me, ap, au, past, m);
      RunKeepsInv(l, past);
      RunKeepsConfiguration(l, past);
      StepBudget(After(l, past), h[|h| - 1], m, Writes(l, past, m), Failures(l, past, m));
    }
  }

  /** In every run a request or reply is written at most eleven times, plus ten times
      for every failed validation of an answer to it. */
  lemma WritesAreBounded(me: int, ap: bool, au: bool, h: seq<Event>, m: Message)
    requires m.id.prefix == me && m.id.seqnum >= 1 && m.kind != Final
    ensures var l := NewLocal(me, ap, au);
            Writes(l, h, m) <= 11 + 10 * Failures(l, h, m)
  {
    RunBudget(me, ap, au, h, m);
    var l := NewLocal(me, ap, au);
    RunKeepsInv(l, h);
    assert Sound(After(l, h), m.dest);
  }
}
