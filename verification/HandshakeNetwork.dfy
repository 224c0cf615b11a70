/** Honest participants on a network that may lose, repeat, delay and reorder their
    handshake messages. */
module HandshakeNetwork {
  import opened Basics
  import opened Handshakes

  /** Every participant's own state, and every message ever created by its identity.
      Any of them may be delivered at any time, any number of times, or never. */
  datatype World = World(locals: map<int, Local>, made: map<Id, Made>)

  datatype NetEvent = NetEvent(at: int, local: Event)

  ghost predicate Initial(w: World) {
    && w.made == map[]
    && forall p :: p in w.locals ==> w.locals[p] == NewLocal(p, w.locals[p].accessProtected, w.locals[p].allowUnauthenticated)
  }

  predicate IsMade(made: map<Id, Made>, m: Message) { m.id in made && made[m.id].msg == m }

  /** A plugin takes only a token of the class that the handshake calls for. */
  predicate TokenClassChecked(m: Message, a: Answers) {
    && (a.replyCreated ==> m.kind == Request)
    && (a.processed == OkFinalMessage ==> m.kind == Reply)
    && (a.processed == OkDone ==> m.kind == Final)
  }

  predicate Enabled(w: World, ev: NetEvent) {
    && ev.at in w.locals
    && (ev.local.StatelessMessage? ==> IsMade(w.made, ev.local.m) && TokenClassChecked(ev.local.m, ev.local.a))
  }

  function Record(made: map<Id, Made>, o: Outcome): map<Id, Made> {
    if o.made.Some? then made[o.made.value.msg.id := o.made.value] else made
  }

  function NetStep(w: World, ev: NetEvent): World
    requires Enabled(w, ev)
  {
    var o := Step(w.locals[ev.at], ev.local);
    World(w.locals[ev.at := o.local], Record(w.made, o))
  }

  ghost predicate Legal(w: World, h: seq<NetEvent>)
    decreases |h|, 0
  {
    h == [] || (Legal(w, h[..|h| - 1]) && Enabled(NetAfter(w, h[..|h| - 1]), h[|h| - 1]))
  }

  ghost function NetAfter(w: World, h: seq<NetEvent>): World
    requires Legal(w, h)
    decreases |h|, 1
  {
    if h == [] then w else NetStep(NetAfter(w, h[..|h| - 1]), h[|h| - 1])
  }

  // ----- what one local step can create ----------------------------------------------

  /** Who may hold which kind of message while it waits. */
  predicate KindsMatch(l: Local, q: int) {
    q in l.states && q in l.stored ==>
      && (l.states[q] == PendingReplyMessage ==> l.stored[q].msg.kind == Request)
      && (l.states[q] == PendingFinalMessage ==> l.stored[q].msg.kind == Reply)
  }

  predicate StoredIs(l: Local, q: int, m: Message) { q in l.stored && l.stored[q].msg == m }

  /** The stored message for q is untouched, refreshed or dropped. */
  predicate StoredStays(l: Local, d: Local, q: int) {
    q in d.stored ==> q in l.stored && d.stored[q].msg == l.stored[q].msg
  }

  /** A new message, where it came from and where it went. */
  predicate Creates(l: Local, ev: Event, d: Local, n: Made) {
    && n.msg.id == Id(l.me, l.nextSeqnum) && d.nextSeqnum == l.nextSeqnum + 1
    && n.msg.isHandshake && n.msg.hasToken
    && StoredIs(d, n.msg.dest, n.msg)
    && n.stored == (if n.msg.dest in l.stored then Some(l.stored[n.msg.dest].msg) else None)
    && (n.msg.kind == Request ==> n.answered == None)
    && (n.msg.kind != Request ==> Answering(l, ev, n))
    && (n.msg.kind == Final ==>
          && RelatedToOurs(l, ev.m, n.msg.dest) && ev.a.processed == OkFinalMessage
          && n.msg.dest in l.states && l.states[n.msg.dest] == PendingReplyMessage)
  }

  predicate Answering(l: Local, ev: Event, n: Made) {
    && ev.StatelessMessage? && n.answered == Some(ev.m) && n.msg.related == ev.m.id && n.msg.dest == ev.m.id.prefix
    && (n.msg.kind == Reply ==> ev.a.replyCreated)
  }

  ghost predicate Shape(l: Local, ev: Event, o: Outcome) {
    && o.local.me == l.me
    && (o.made.None? ==> o.local.nextSeqnum >= l.nextSeqnum)
    && (o.made.Some? ==> Creates(l, ev, o.local, o.made.value))
    && (forall q :: (o.made.Some? && q == o.made.value.msg.dest) || StoredStays(l, o.local, q))
    && forall q :: KindsMatch(l, q) ==> KindsMatch(o.local, q)
  }

  lemma RequestShape(l: Local, ev: Event, p: int, a: Answers)
    ensures Shape(l, ev, TrySendingRequest(l, p, a))
  {
  }

  lemma StartShape(l: Local, ev: Event, p: int, a: Answers)
    ensures Shape(l, ev, StartAuthentication(l, p, a))
  {
    var o := StartAuthentication(l, p, a);
    if a.hasIdentityToken && a.identity == SendRequest {
      var sending := l.(states := l.states[p := PendingRequestSend]);
      var t := TrySendingRequest(sending, p, a);
      RequestShape(sending, ev, p, a);
      forall q | KindsMatch(l, q) ensures KindsMatch(o.local, q) {
        assert KindsMatch(sending, q);
        assert KindsMatch(t.local, q);
      }
      forall q ensures (o.made.Some? && q == o.made.value.msg.dest) || StoredStays(l, o.local, q) {
        assert (t.made.Some? && q == t.made.value.msg.dest) || StoredStays(sending, t.local, q);
      }
    }
  }

  lemma DataShape(l: Local, p: int, a: Answers)
    ensures Shape(l, ParticipantData(p, a), ParticipantDataRead(l, p, a))
  {
    if p in l.auth {
      RequestShape(l, ParticipantData(p, a), p, a);
    } else if a.compatible {
      StartShape(l, ParticipantData(p, a), p, a);
    }
  }

  lemma PendingReplyShape(l: Local, m: Message, a: Answers)
    requires m.id.prefix in l.states && l.states[m.id.prefix] == PendingReplyMessage
    ensures Shape(l, StatelessMessage(m, a), OnPendingReply(l, m, a))
  {
  }

  lemma PendingFinalShape(l: Local, m: Message, a: Answers)
    ensures Shape(l, StatelessMessage(m, a), OnPendingFinal(l, m, a))
  {
  }

  lemma MessageShape(l: Local, m: Message, a: Answers)
    ensures Shape(l, StatelessMessage(m, a), StatelessMessageRead(l, m, a))
  {
    var p := m.id.prefix;
    if m.dest == l.me && m.isHandshake && p in l.states {
      match l.states[p]
      case PendingReplyMessage => PendingReplyShape(l, m, a);
      case PendingFinalMessage => PendingFinalShape(l, m, a);
      case _ =>
    }
  }

  lemma StepShape(l: Local, ev: Event)
    ensures Shape(l, ev, Step(l, ev))
  {
    match ev
    case ParticipantData(p, a) => DataShape(l, p, a);
    case StatelessMessage(m, a) => MessageShape(l, m, a);
    case ResendTick(ok) =>
    case ParticipantRemoved(p) =>
    case KeyMessagesNumbered(n) =>
  }

  // ----- what every step of the whole network keeps -------------------------------------

  /** The history of one created message. */
  predicate WellMade(made: map<Id, Made>, n: Made) {
    && n.msg.isHandshake && n.msg.hasToken
    && (n.answered.Some? ==> IsMade(made, n.answered.value) && n.msg.related == n.answered.value.id)
    && (n.stored.Some? ==>
          && IsMade(made, n.stored.value) && n.stored.value.id.seqnum < n.msg.id.seqnum
          && n.stored.value.id.prefix == n.msg.id.prefix && n.stored.value.dest == n.msg.dest)
    && (n.msg.kind == Reply ==> n.answered.Some? && n.answered.value.kind == Request && n.answered.value.id.prefix == n.msg.dest)
    && (n.msg.kind == Final ==>
          && n.answered.Some? && n.answered.value.kind == Reply && n.answered.value.id.prefix == n.msg.dest
          && n.stored.Some? && n.stored.value.kind == Request && n.answered.value.related == n.stored.value.id)
  }

  /** A created message has its own identity, below its author's next sequence number,
      and none stored by the author for the same participant is older. */
  ghost predicate Placed(w: World, id: Id) {
    id in w.made ==>
      && w.made[id].msg.id == id && id.prefix in w.locals && id.seqnum < w.locals[id.prefix].nextSeqnum
      && (w.made[id].msg.dest in w.locals[id.prefix].stored ==>
            id.seqnum <= w.locals[id.prefix].stored[w.made[id].msg.dest].msg.id.seqnum)
  }

  ghost predicate LocalOk(w: World, p: int) {
    p in w.locals ==> w.locals[p].me == p && Inv(w.locals[p]) && forall q :: HoldsMade(w, p, q)
  }

  ghost predicate HoldsMade(w: World, p: int, q: int)
    requires p in w.locals
  {
    KindsMatch(w.locals[p], q) && (q in w.locals[p].stored ==> IsMade(w.made, w.locals[p].stored[q].msg))
  }

  /** No stored message has been superseded twice. */
  ghost predicate Once(w: World, i: Id, j: Id) {
    i in w.made && j in w.made && w.made[i].stored.Some? && w.made[i].stored == w.made[j].stored ==> i == j
  }

  ghost predicate NetInv(w: World) {
    && (forall p :: LocalOk(w, p))
    && (forall id :: Placed(w, id))
    && (forall id :: id in w.made ==> WellMade(w.made, w.made[id]))
    && (forall i, j :: Once(w, i, j))
  }

  lemma InitialInv(w: World)
    requires Initial(w)
    ensures NetInv(w)
  {
    forall p ensures LocalOk(w, p) {
      if p in w.locals {
        forall q ensures Sound(w.locals[p], q) {}
      }
    }
  }

  ghost predicate Delivered(w: World, ev: Event) {
    ev.StatelessMessage? ==> IsMade(w.made, ev.m) && TokenClassChecked(ev.m, ev.a)
  }

  /** One participant takes a step that creates what `Shape` says. */
  ghost predicate Advances(w: World, at: int, ev: Event, o: Outcome, v: World) {
    && NetInv(w) && at in w.locals && Delivered(w, ev) && Shape(w.locals[at], ev, o) && Inv(o.local)
    && v == World(w.locals[at := o.local], Record(w.made, o))
  }

  lemma MadeGrows(w: World, at: int, ev: Event, o: Outcome, v: World, m: Message)
    requires Advances(w, at, ev, o, v) && IsMade(w.made, m)
    ensures IsMade(v.made, m)
  {
    assert LocalOk(w, at) && Placed(w, m.id);
  }

  lemma LocalsKept(w: World, at: int, ev: Event, o: Outcome, v: World, p: int)
    requires Advances(w, at, ev, o, v)
    ensures LocalOk(v, p)
  {
    assert LocalOk(w, p) && LocalOk(w, at);
    if p in v.locals {
      forall q ensures HoldsMade(v, p, q) {
        assert HoldsMade(w, p, q);
        if p != at {
          if q in w.locals[p].stored { MadeGrows(w, at, ev, o, v, w.locals[p].stored[q].msg); }
        } else {
          HoldsAt(w, at, ev, o, v, q);
        }
      }
    }
  }

  lemma HoldsAt(w: World, at: int, ev: Event, o: Outcome, v: World, q: int)
    requires Advances(w, at, ev, o, v)
    ensures HoldsMade(v, at, q)
  {
    var l := w.locals[at];
    assert LocalOk(w, at) && HoldsMade(w, at, q);
    if o.made.Some? && q == o.made.value.msg.dest {
      assert o.local.stored[q].msg == o.made.value.msg;
    } else {
      assert StoredStays(l, o.local, q);
      if q in o.local.stored { MadeGrows(w, at, ev, o, v, l.stored[q].msg); }
    }
  }

  lemma PlacedKept(w: World, at: int, ev: Event, o: Outcome, v: World, id: Id)
    requires Advances(w, at, ev, o, v)
    ensures Placed(v, id)
  {
    assert LocalOk(w, at) && Placed(w, id);
    if id in w.made && id.prefix == at {
      var q := w.made[id].msg.dest;
      assert (o.made.Some? && q == o.made.value.msg.dest) || StoredStays(w.locals[at], o.local, q);
    }
  }

  lemma NewIsWellMade(w: World, at: int, ev: Event, o: Outcome, v: World)
    requires Advances(w, at, ev, o, v) && o.made.Some?
    ensures WellMade(v.made, o.made.value)
  {
    var l, n := w.locals[at], o.made.value;
    assert LocalOk(w, at) && HoldsMade(w, at, n.msg.dest) && Sound(l, n.msg.dest);
    if n.msg.kind != Request { MadeGrows(w, at, ev, o, v, ev.m); }
    if n.stored.Some? { MadeGrows(w, at, ev, o, v, n.stored.value); }
  }

  lemma OldStaysWellMade(w: World, at: int, ev: Event, o: Outcome, v: World, id: Id)
    requires Advances(w, at, ev, o, v) && id in w.made
    ensures WellMade(v.made, w.made[id])
  {
    var n := w.made[id];
    assert WellMade(w.made, n);
    if n.answered.Some? { MadeGrows(w, at, ev, o, v, n.answered.value); }
    if n.stored.Some? { MadeGrows(w, at, ev, o, v, n.stored.value); }
  }

  /** The message just replaced had not been replaced before. */
  lemma NewIsOnce(w: World, at: int, ev: Event, o: Outcome, v: World, j: Id)
    requires Advances(w, at, ev, o, v) && o.made.Some? && o.made.value.stored.Some? && j in w.made
    ensures w.made[j].stored != o.made.value.stored
  {
    assert LocalOk(w, at) && HoldsMade(w, at, o.made.value.msg.dest);
    assert Sound(w.locals[at], o.made.value.msg.dest);
    assert WellMade(w.made, w.made[j]);
    assert Placed(w, j);
  }

  lemma OnceKept(w: World, at: int, ev: Event, o: Outcome, v: World, i: Id, j: Id)
    requires Advances(w, at, ev, o, v)
    ensures Once(v, i, j)
  {
    assert Once(w, i, j);
    if o.made.Some? && o.made.value.stored.Some? {
      if i in w.made { NewIsOnce(w, at, ev, o, v, i); }
      if j in w.made { NewIsOnce(w, at, ev, o, v, j); }
    }
  }

  lemma AdvanceKeepsInv(w: World, at: int, ev: Event, o: Outcome, v: World)
    requires Advances(w, at, ev, o, v)
    ensures NetInv(v)
  {
    forall p ensures LocalOk(v, p) { LocalsKept(w, at, ev, o, v, p); }
    forall id ensures Placed(v, id) { PlacedKept(w, at, ev, o, v, id); }
    forall id | id in v.made ensures WellMade(v.made, v.made[id]) {
      if o.made.Some? && id == o.made.value.msg.id {
        NewIsWellMade(w, at, ev, o, v);
      } else {
        OldStaysWellMade(w, at, ev, o, v, id);
      }
    }
    forall i, j ensures Once(v, i, j) { OnceKept(w, at, ev, o, v, i, j); }
  }

  lemma NetStepKeepsInv(w: World, ev: NetEvent)
    requires NetInv(w) && Enabled(w, ev)
    ensures NetInv(NetStep(w, ev))
  {
    var l := w.locals[ev.at];
    assert LocalOk(w, ev.at);
    StepShape(l, ev.local);
    StepKeepsInv(l, ev.local);
    AdvanceKeepsInv(w, ev.at, ev.local, Step(l, ev.local), NetStep(w, ev));
  }

  lemma {:induction false} NetRunKeepsInv(w: World, h: seq<NetEvent>)
    requires Initial(w) && Legal(w, h)
    ensures NetInv(NetAfter(w, h))
    decreases |h|
  {
    if h == [] {
      InitialInv(w);
    } else {
      NetRunKeepsInv(w, h[..|h| - 1]);
      NetStepKeepsInv(NetAfter(w, h[..|h| - 1]), h[|h| - 1]);
    }
  }

  // ----- agreement ----------------------------------------------------------------------

  /** The event makes participant `ev.at` complete as the responder. */
  predicate CompletesAsResponder(l: Local, ev: Event) {
    && ev.StatelessMessage? && ev.m.id.prefix in l.states && l.states[ev.m.id.prefix] == PendingFinalMessage
    && var d := Step(l, ev).local;
       ev.m.id.prefix in d.states && d.states[ev.m.id.prefix] == CompletedWithFinalMessageReceived
  }

  lemma CompletionAnswersStored(l: Local, ev: Event)
    requires CompletesAsResponder(l, ev)
    ensures RelatedToOurs(l, ev.m, ev.m.id.prefix) && ev.a.processed == OkDone
  {
  }

  /** The accepted final was created in answer to the reply, and the reply in answer to
      the request that its author had stored when it created the final. */
  ghost predicate Matched(made: map<Id, Made>, final: Message, reply: Message, request: Message) {
    && IsMade(made, final) && IsMade(made, reply) && IsMade(made, request)
    && final.kind == Final && reply.kind == Reply && request.kind == Request
    && made[final.id].answered == Some(reply) && made[final.id].stored == Some(request)
    && made[reply.id].answered == Some(request)
    && request.id.prefix == final.id.prefix == reply.dest && reply.id.prefix == final.dest == request.dest
  }

  lemma ChainIsMatched(w: World, final: Message, reply: Message)
    requires NetInv(w) && IsMade(w.made, final) && IsMade(w.made, reply)
    requires final.kind == Final && final.related == reply.id && reply.dest == final.id.prefix
    ensures w.made[final.id].stored.Some? && Matched(w.made, final, reply, w.made[final.id].stored.value)
  {
    var n := w.made[final.id];
    assert WellMade(w.made, n);
    assert n.answered.value == reply;
    assert WellMade(w.made, w.made[reply.id]);
  }

  /** In every run of the network, whenever a responder completes, the final it takes
      answers exactly the reply it has stored, and that reply exactly the request the
      initiator had stored. */
  lemma ResponderAgrees(w: World, h: seq<NetEvent>, ev: NetEvent)
    requires Initial(w) && Legal(w, h) && Enabled(NetAfter(w, h), ev)
    requires CompletesAsResponder(NetAfter(w, h).locals[ev.at], ev.local)
    ensures var v := NetAfter(w, h);
            var l, p := v.locals[ev.at], ev.local.m.id.prefix;
            && p in l.stored && l.me == ev.at
            && exists request :: Matched(v.made, ev.local.m, l.stored[p].msg, request)
  {
    NetRunKeepsInv(w, h);
    var v := NetAfter(w, h);
    var l, p := v.locals[ev.at], ev.local.m.id.prefix;
    CompletionAnswersStored(l, ev.local);
    assert LocalOk(v, ev.at) && HoldsMade(v, ev.at, p) && Sound(l, p);
    ChainIsMatched(v, ev.local.m, l.stored[p].msg);
  }

  /** A request is answered by at most one final: an initiator completes at most once
      for each request it made. */
  lemma OneFinalPerRequest(w: World, h: seq<NetEvent>, f: Message, g: Message, r: Message, s: Message, request: Message)
    requires Initial(w) && Legal(w, h)
    requires Matched(NetAfter(w, h).made, f, r, request) && Matched(NetAfter(w, h).made, g, s, request)
    ensures f == g && r == s
  {
    NetRunKeepsInv(w, h);
    assert Once(NetAfter(w, h), f.id, g.id);
  }

  // ----- a final is taken at most once -----------------------------------------------------

  /** Sequence number n is behind everything kept for p. */
  predicate Past(l: Local, p: int, n: int) {
    n < l.nextSeqnum && (p in l.stored ==> n < l.stored[p].msg.id.seqnum)
  }

  lemma StepKeepsPast(l: Local, ev: Event, p: int, n: int)
    requires Past(l, p, n)
    ensures Past(Step(l, ev).local, p, n)
  {
    StepShape(l, ev);
    var o := Step(l, ev);
    assert (o.made.Some? && p == o.made.value.msg.dest) || StoredStays(l, o.local, p);
  }

  lemma CompletionPutsPast(l: Local, ev: Event)
    requires CompletesAsResponder(l, ev) && Sound(l, ev.m.id.prefix)
    ensures RelatedToOurs(l, ev.m, ev.m.id.prefix) && Past(Step(l, ev).local, ev.m.id.prefix, ev.m.related.seqnum)
  {
  }

  lemma {:induction false} LegalPrefix(w: World, h: seq<NetEvent>, i: nat)
    requires Legal(w, h) && i <= |h|
    ensures Legal(w, h[..i])
    ensures i < |h| ==> Enabled(NetAfter(w, h[..i]), h[i])
    decreases |h|
  {
    if i == |h| {
      assert h[..i] == h;
    } else if i < |h| - 1 {
      LegalPrefix(w, h[..|h| - 1], i);
      assert h[..|h| - 1][..i] == h[..i];
    }
  }

  ghost predicate CompletesAt(w: World, h: seq<NetEvent>, i: nat)
    requires Legal(w, h) && i < |h|
  {
    LegalPrefix(w, h, i);
    CompletesAsResponder(NetAfter(w, h[..i]).locals[h[i].at], h[i].local)
  }

  lemma {:induction false} PastStays(w: World, h: seq<NetEvent>, i: nat)
    requires Initial(w) && Legal(w, h) && i < |h| && CompletesAt(w, h, i)
    ensures h[i].at in NetAfter(w, h).locals
    ensures Past(NetAfter(w, h).locals[h[i].at], h[i].local.m.id.prefix, h[i].local.m.related.seqnum)
    decreases |h|
  {
    var last := |h| - 1;
    var before := NetAfter(w, h[..last]);
    var at, p, n := h[i].at, h[i].local.m.id.prefix, h[i].local.m.related.seqnum;
    NetRunKeepsInv(w, h[..last]);
    if i == last {
      assert LocalOk(before, at) && Sound(before.locals[at], p);
      CompletionPutsPast(before.locals[at], h[i].local);
    } else {
      assert h[..last][..i] == h[..i];
      PastStays(w, h[..last], i);
      if h[last].at == at { StepKeepsPast(before.locals[at], h[last].local, p, n); }
    }
  }

  /** No final is accepted twice, and no reply is completed twice: with `ResponderAgrees`
      and `OneFinalPerRequest`, every completion of a responder has an initiator's
      completion of its own. */
  lemma FinalTakenOnce(w: World, h: seq<NetEvent>, i: nat, j: nat)
    requires Initial(w) && Legal(w, h) && i < j < |h|
    requires CompletesAt(w, h, i) && CompletesAt(w, h, j) && h[i].at == h[j].at
    ensures h[i].local.m.related != h[j].local.m.related || h[i].local.m.id.prefix != h[j].local.m.id.prefix
    ensures h[i].local.m != h[j].local.m
  {
    LegalPrefix(w, h, j);
    assert h[..j][..i] == h[..i];
    PastStays(w, h[..j], i);
    CompletionAnswersStored(NetAfter(w, h[..j]).locals[h[j].at], h[j].local);
  }

  // ----- and it does complete --------------------------------------------------------------

  predicate InitiatorAnswers(l: Local, a: Answers) {
    && a.compatible && a.hasIdentityToken && a.identity == SendRequest && a.requestCreated
    && a.processed == OkFinalMessage && PassesChecks(l, a)
  }

  predicate ResponderAnswers(l: Local, b: Answers) {
    b.compatible && b.hasIdentityToken && b.identity == AwaitRequest && b.replyCreated && b.processed == OkDone && PassesChecks(l, b)
  }

  /** Whatever is left over from earlier attempts: two participants with no status for
      each other, whose plugins agree, authenticate each other once each has seen the
      other's data and request, reply and final have been delivered, whether or not
      any of the first writes succeeded. */
  lemma ExchangeAuthenticates(i: Local, r: Local, a: Answers, b: Answers)
    requires i.me != r.me && r.me !in i.auth && i.me !in r.auth
    requires InitiatorAnswers(i, a) && ResponderAnswers(r, b)
    ensures var started := Step(i, ParticipantData(r.me, a));
            var waiting := Step(r, ParticipantData(i.me, b));
            started.made.Some? &&
            var replied := Step(waiting.local, StatelessMessage(started.made.value.msg, b));
            replied.made.Some? &&
            var finished := Step(started.local, StatelessMessage(replied.made.value.msg, a));
            finished.made.Some? &&
            var done := Step(replied.local, StatelessMessage(finished.made.value.msg, b));
            && r.me in finished.local.auth && finished.local.auth[r.me] == Authenticated
            && i.me in done.local.auth && done.local.auth[i.me] == Authenticated
            && CompletesAsResponder(replied.local, StatelessMessage(finished.made.value.msg, b))
  {
    var started := Step(i, ParticipantData(r.me, a));
    var q := NewMessage(i, r.me, None, Request);
    assert started.made.value.msg == q && StoredIs(started.local, r.me, q);
    assert started.local.states[r.me] == PendingReplyMessage;
    var waiting := Step(r, ParticipantData(i.me, b)).local;
    assert waiting.me == r.me && waiting.states[i.me] == PendingRequestMessage;
    var replied := Step(waiting, StatelessMessage(q, b));
    var p := NewMessage(waiting, i.me, Some(q), Reply);
    assert replied.made.value.msg == p && StoredIs(replied.local, i.me, p);
    var finished := Step(started.local, StatelessMessage(p, a));
    assert finished.made.value.msg.related == p.id;
  }
}
