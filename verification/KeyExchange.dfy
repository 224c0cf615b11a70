/** The exchange of crypto tokens with authenticated participants and their endpoints
    (DDS Security 1.1, sections 7.4.4 and 8.8.9), with the cache of key messages that
    the writer has not taken yet. */
module KeyExchanges {
  import opened Basics
  import opened Topics

  datatype Class = ParticipantTokens | WriterTokens | ReaderTokens

  /** A key message; `None` for an endpoint stands for the participant itself. */
  datatype KeyMessage = KeyMessage(seqnum: int, kind: Class, source: Option<Guid>, remote: int, dest: Option<Guid>, tokens: int)

  /** What a plugin and the writer answer: the tokens, if any could be created, and
      whether the writer takes the message. */
  datatype Answer = Answer(tokens: Option<int>, writeOk: bool)

  /** The sender's state and its history: every message created, in order, and every
      message the writer has taken, as often as it has. */
  datatype Exchange = Exchange(
    me: int,
    nextSeqnum: int,
    cache: set<KeyMessage>,
    sentTo: set<Guid>,
    created: seq<KeyMessage>,
    accepted: multiset<KeyMessage>)

  function NewExchange(me: int): Exchange { Exchange(me, 1, {}, {}, [], multiset{}) }

  function NewKeyMessage(x: Exchange, c: Class, source: Option<Guid>, p: int, dest: Option<Guid>, tokens: int): KeyMessage {
    KeyMessage(x.nextSeqnum, c, source, p, dest, tokens)
  }

  /** Numbers a message and writes it, or keeps it for later if it is not taken. */
  function Deliver(x: Exchange, m: KeyMessage, ok: bool): Exchange {
    var y := x.(nextSeqnum := x.nextSeqnum + 1, created := x.created + [m]);
    if ok then y.(accepted := y.accepted + multiset{m}) else y.(cache := y.cache + {m})
  }

  function SendKeys(x: Exchange, c: Class, source: Option<Guid>, p: int, dest: Option<Guid>, a: Answer): Exchange {
    if a.tokens.None? then x
    else Deliver(x, NewKeyMessage(x, c, source, p, dest, a.tokens.value), a.writeOk)
  }

  // ----- built-in endpoints -----------------------------------------------------------

  /** A local built-in endpoint, its remote counterpart and the bit that announces it. */
  datatype Pair = Pair(local: int, remote: int, bit: int)

  const VOLATILE_WRITER := 0xff0202c3
  const VOLATILE_READER := 0xff0202c4

  const REMOTE_READERS := [
    Pair(0xff0101c2, 0xff0101c7, 27),
    Pair(0xff0003c2, 0xff0003c7, 17),
    Pair(0xff0004c2, 0xff0004c7, 19),
    Pair(0xff0200c2, 0xff0200c7, 21),
    Pair(VOLATILE_WRITER, VOLATILE_READER, 25)]

  const REMOTE_WRITERS := [
    Pair(0xff0101c7, 0xff0101c2, 26),
    Pair(0xff0003c7, 0xff0003c2, 16),
    Pair(0xff0004c7, 0xff0004c2, 18),
    Pair(0xff0200c7, 0xff0200c2, 20),
    Pair(VOLATILE_READER, VOLATILE_WRITER, 24)]

  predicate IsBuiltIn(entity: int) { entity / 16 % 16 == 0xC }

  predicate IsWriter(entity: int) { entity % 16 == 2 || entity % 16 == 3 || entity % 16 == 8 }

  /** The remote announces the endpoint, and it is not on the volatile topic. */
  predicate Eligible(pair: Pair, available: set<int>) {
    pair.bit in available && pair.remote != VOLATILE_READER && pair.remote != VOLATILE_WRITER
  }

  function SendBuiltIn(x: Exchange, c: Class, p: int, pairs: seq<Pair>, available: set<int>, answers: seq<Answer>): Exchange
    requires |answers| == |pairs|
  {
    if pairs == [] then x
    else
      var k := |pairs| - 1;
      var y := SendBuiltIn(x, c, p, pairs[..k], available, answers[..k]);
      if Eligible(pairs[k], available)
      then SendKeys(y, c, Some(Guid(y.me, pairs[k].local)), p, Some(Guid(p, pairs[k].remote)), answers[k])
      else y
  }

  /** The answers to the requests for the participant's own tokens and those of each pair. */
  datatype ParticipantAnswers = ParticipantAnswers(own: Answer, readers: seq<Answer>, writers: seq<Answer>)

  predicate Complete(a: ParticipantAnswers) {
    |a.readers| == |REMOTE_READERS| && |a.writers| == |REMOTE_WRITERS|
  }

  /** `available` is None for a participant that is not in the discovery database. */
  function StartWithParticipant(x: Exchange, p: int, available: Option<set<int>>, a: ParticipantAnswers): Exchange
    requires Complete(a)
  {
    if available.None? then x
    else
      var y := SendKeys(x, ParticipantTokens, None, p, None, a.own);
      var z := SendBuiltIn(y, WriterTokens, p, REMOTE_READERS, available.value, a.readers);
      SendBuiltIn(z, ReaderTokens, p, REMOTE_WRITERS, available.value, a.writers)
  }

  // ----- user endpoints ----------------------------------------------------------------

  datatype Security = Security(payloadProtected: bool, submessageProtected: bool)

  datatype EndpointAnswers = EndpointAnswers(security: Option<Security>, keys: Answer, setOk: bool)

  predicate NeedsKeys(s: Security) { s.payloadProtected || s.submessageProtected }

  function StartWithEndpoint(x: Exchange, local: Guid, remote: Guid, a: EndpointAnswers): Exchange {
    if remote in x.sentTo || a.security.None? then x
    else if !NeedsKeys(a.security.value) then x.(sentTo := x.sentTo + {remote})
    else if a.keys.tokens.None? then x
    else if remote.prefix == x.me then if a.setOk then x.(sentTo := x.sentTo + {remote}) else x
    else
      var c := if IsWriter(remote.entity) then ReaderTokens else WriterTokens;
      SendKeys(x, c, Some(local), remote.prefix, Some(remote), a.keys).(sentTo := x.sentTo + {remote})
  }

  /** Offers every cached message to the writer again; it takes those in `ok`. */
  function Resend(x: Exchange, ok: set<KeyMessage>): Exchange {
    x.(cache := x.cache - ok, accepted := x.accepted + multiset(x.cache * ok))
  }

  datatype Event =
    | WithParticipant(p: int, available: Option<set<int>>, answers: ParticipantAnswers)
    | WithEndpoint(local: Guid, remote: Guid, a: EndpointAnswers)
    | ResendTick(ok: set<KeyMessage>)
    | AuthMessagesNumbered(n: nat)      // authentication messages share the numbering

  predicate Proper(ev: Event) { ev.WithParticipant? ==> Complete(ev.answers) }

  function Step(x: Exchange, ev: Event): Exchange
    requires Proper(ev)
  {
    match ev
    case WithParticipant(p, available, answers) => StartWithParticipant(x, p, available, answers)
    case WithEndpoint(local, remote, a) => StartWithEndpoint(x, local, remote, a)
    case ResendTick(ok) => Resend(x, ok)
    case AuthMessagesNumbered(n) => x.(nextSeqnum := x.nextSeqnum + n)
  }

  function After(x: Exchange, h: seq<Event>): Exchange
    requires forall i :: 0 <= i < |h| ==> Proper(h[i])
    decreases |h|
  {
    if h == [] then x else Step(After(x, h[..|h| - 1]), h[|h| - 1])
  }

  // ----- conservation -------------------------------------------------------------------

  /** The numbers of created messages strictly increase. */
  ghost predicate Numbered(x: Exchange) {
    && x.nextSeqnum >= 1
    && (forall i :: 0 <= i < |x.created| ==> 1 <= x.created[i].seqnum < x.nextSeqnum)
    && forall i, j :: 0 <= i < j < |x.created| ==> x.created[i].seqnum < x.created[j].seqnum
  }

  /** Every created message is cached or was taken; none was lost, merged or taken twice. */
  ghost predicate Conserved(x: Exchange) {
    Numbered(x) && multiset(x.created) == multiset(x.cache) + x.accepted
  }

  /** All messages to a user endpoint are one message, and it is remembered. */
  ghost predicate OnePerRemote(x: Exchange) {
    && (forall m :: m in x.created && ToUser(m) ==> m.dest.value in x.sentTo)
    && forall i, j :: 0 <= i < j < |x.created| && ToUser(x.created[i]) ==> x.created[i].dest != x.created[j].dest
  }

  predicate ToUser(m: KeyMessage) { m.dest.Some? && !IsBuiltIn(m.dest.value.entity) }

  lemma DeliverConserves(x: Exchange, m: KeyMessage, ok: bool)
    requires Conserved(x) && m.seqnum == x.nextSeqnum
    ensures Conserved(Deliver(x, m, ok))
  {
    assert m !in x.created;
    assert m !in multiset(x.cache) by {
      assert forall k :: k in multiset(x.cache) ==> k in multiset(x.created);
    }
    assert multiset(x.created + [m]) == multiset(x.created) + multiset{m};
    assert multiset(x.cache + {m}) == multiset(x.cache) + multiset{m};
  }

  lemma DeliverKeepsOne(x: Exchange, m: KeyMessage, ok: bool)
    requires OnePerRemote(x) && !ToUser(m)
    ensures OnePerRemote(Deliver(x, m, ok))
  {
  }

  lemma DeliverToNewRemote(x: Exchange, m: KeyMessage, ok: bool, remote: Guid)
    requires OnePerRemote(x) && m.dest == Some(remote) && remote !in x.sentTo
    ensures OnePerRemote(Deliver(x, m, ok).(sentTo := x.sentTo + {remote}))
  {
    var y := Deliver(x, m, ok).(sentTo := x.sentTo + {remote});
    forall i, j | 0 <= i < j < |y.created| && ToUser(y.created[i]) ensures y.created[i].dest != y.created[j].dest {
      assert x.created[i] in x.created;
    }
  }

  lemma {:induction false} BuiltInKeeps(x: Exchange, c: Class, p: int, pairs: seq<Pair>, available: set<int>, answers: seq<Answer>)
    requires |answers| == |pairs| && forall i :: 0 <= i < |pairs| ==> IsBuiltIn(pairs[i].remote)
    requires Conserved(x) && OnePerRemote(x)
    ensures var y := SendBuiltIn(x, c, p, pairs, available, answers);
            Conserved(y) && OnePerRemote(y)
  {
    if pairs != [] {
      var k := |pairs| - 1;
      BuiltInKeeps(x, c, p, pairs[..k], available, answers[..k]);
      var y := SendBuiltIn(x, c, p, pairs[..k], available, answers[..k]);
      if Eligible(pairs[k], available) && answers[k].tokens.Some? {
        var m := NewKeyMessage(y, c, Some(Guid(y.me, pairs[k].local)), p, Some(Guid(p, pairs[k].remote)), answers[k].tokens.value);
        DeliverConserves(y, m, answers[k].writeOk);
        DeliverKeepsOne(y, m, answers[k].writeOk);
      }
    }
  }

  lemma WithParticipantKeeps(x: Exchange, p: int, available: Option<set<int>>, a: ParticipantAnswers)
    requires Complete(a) && Conserved(x) && OnePerRemote(x)
    ensures var y := StartWithParticipant(x, p, available, a); Conserved(y) && OnePerRemote(y)
  {
    if available.Some? {
      var y := SendKeys(x, ParticipantTokens, None, p, None, a.own);
      if a.own.tokens.Some? {
        var m := NewKeyMessage(x, ParticipantTokens, None, p, None, a.own.tokens.value);
        DeliverConserves(x, m, a.own.writeOk);
        DeliverKeepsOne(x, m, a.own.writeOk);
      }
      BuiltInKeeps(y, WriterTokens, p, REMOTE_READERS, available.value, a.readers);
      var z := SendBuiltIn(y, WriterTokens, p, REMOTE_READERS, available.value, a.readers);
      BuiltInKeeps(z, ReaderTokens, p, REMOTE_WRITERS, available.value, a.writers);
    }
  }

  lemma MarkKeeps(x: Exchange, remote: Guid)
    ensures Conserved(x) ==> Conserved(x.(sentTo := x.sentTo + {remote}))
    ensures OnePerRemote(x) ==> OnePerRemote(x.(sentTo := x.sentTo + {remote}))
  {
  }

  lemma WithEndpointKeeps(x: Exchange, local: Guid, remote: Guid, a: EndpointAnswers)
    requires Conserved(x) && OnePerRemote(x)
    ensures var y := StartWithEndpoint(x, local, remote, a); Conserved(y) && OnePerRemote(y)
  {
    var y := StartWithEndpoint(x, local, remote, a);
    if y.created == x.created {
      MarkKeeps(x, remote);
    } else {
      var c := if IsWriter(remote.entity) then ReaderTokens else WriterTokens;
      var m := NewKeyMessage(x, c, Some(local), remote.prefix, Some(remote), a.keys.tokens.value);
      DeliverConserves(x, m, a.keys.writeOk);
      DeliverToNewRemote(x, m, a.keys.writeOk, remote);
      MarkKeeps(Deliver(x, m, a.keys.writeOk), remote);
    }
  }

  lemma ResendConserves(x: Exchange, ok: set<KeyMessage>)
    requires Conserved(x)
    ensures Conserved(Resend(x, ok))
  {
    assert multiset(x.cache) == multiset(x.cache - ok) + multiset(x.cache * ok);
  }

  lemma StepKeeps(x: Exchange, ev: Event)
    requires Proper(ev) && Conserved(x) && OnePerRemote(x)
    ensures Conserved(Step(x, ev)) && OnePerRemote(Step(x, ev))
  {
    match ev
    case WithParticipant(p, available, answers) => WithParticipantKeeps(x, p, available, answers);
    case WithEndpoint(local, remote, a) => WithEndpointKeeps(x, local, remote, a);
    case ResendTick(ok) => ResendConserves(x, ok);
    case AuthMessagesNumbered(n) =>
  }

  lemma {:induction false} BuiltInNumbersGrow(x: Exchange, c: Class, p: int, pairs: seq<Pair>, available: set<int>, answers: seq<Answer>)
    requires |answers| == |pairs|
    ensures SendBuiltIn(x, c, p, pairs, available, answers).nextSeqnum >= x.nextSeqnum
  {
    if pairs != [] {
      var k := |pairs| - 1;
      BuiltInNumbersGrow(x, c, p, pairs[..k], available, answers[..k]);
    }
  }

  lemma NumbersGrow(x: Exchange, ev: Event)
    requires Proper(ev)
    ensures Step(x, ev).nextSeqnum >= x.nextSeqnum
  {
    if ev.WithParticipant? && ev.available.Some? {
      var a := ev.answers;
      var y := SendKeys(x, ParticipantTokens, None, ev.p, None, a.own);
      BuiltInNumbersGrow(y, WriterTokens, ev.p, REMOTE_READERS, ev.available.value, a.readers);
      var z := SendBuiltIn(y, WriterTokens, ev.p, REMOTE_READERS, ev.available.value, a.readers);
      BuiltInNumbersGrow(z, ReaderTokens, ev.p, REMOTE_WRITERS, ev.available.value, a.writers);
    }
  }

  /** In every run: every key message is still cached or was taken, and there is never
      more than one to the same user endpoint. */
  lemma {:induction false} RunKeeps(me: int, h: seq<Event>)
    requires forall i :: 0 <= i < |h| ==> Proper(h[i])
    ensures var x := After(NewExchange(me), h); Conserved(x) && OnePerRemote(x)
    decreases |h|
  {
    if h != [] {
      RunKeeps(me, h[..|h| - 1]);
      StepKeeps(After(NewExchange(me), h[..|h| - 1]), h[|h| - 1]);
    }
  }

  lemma CreatedOnce(x: Exchange, i: nat)
    requires Numbered(x) && i < |x.created|
    ensures multiset(x.created)[x.created[i]] == 1
  {
    var m := x.created[i];
    assert x.created == x.created[..i] + [m] + x.created[i + 1..];
    assert m !in x.created[..i] && m !in x.created[i + 1..];
  }

  lemma OnePlace(x: Exchange, m: KeyMessage)
    requires Conserved(x)
    ensures if m in x.created then x.accepted[m] == (if m in x.cache then 0 else 1)
            else m !in x.cache && x.accepted[m] == 0
  {
    assert multiset(x.created)[m] == multiset(x.cache)[m] + x.accepted[m];
    if m in x.created {
      var i :| 0 <= i < |x.created| && x.created[i] == m;
      CreatedOnce(x, i);
    } else {
      assert m !in multiset(x.created);
    }
  }

  /** Each created message is in exactly one place: cached and never taken, or taken
      exactly once and no longer cached. Nothing else is in either. */
  lemma InExactlyOnePlace(me: int, h: seq<Event>, m: KeyMessage)
    requires forall i :: 0 <= i < |h| ==> Proper(h[i])
    ensures var x := After(NewExchange(me), h);
            if m in x.created then x.accepted[m] == (if m in x.cache then 0 else 1)
            else m !in x.cache && x.accepted[m] == 0
  {
    RunKeeps(me, h);
    OnePlace(After(NewExchange(me), h), m);
  }

  lemma SameRemote(x: Exchange, m: KeyMessage, n: KeyMessage)
    requires OnePerRemote(x) && m in x.created && n in x.created && ToUser(m) && m.dest == n.dest
    ensures m == n
  {
    var i :| 0 <= i < |x.created| && x.created[i] == m;
    var j :| 0 <= j < |x.created| && x.created[j] == n;
  }

  /** Two local endpoints matched with the same user endpoint: only one of them ever
      sends it keys. */
  lemma OneSourcePerRemote(me: int, h: seq<Event>, m: KeyMessage, n: KeyMessage)
    requires forall i :: 0 <= i < |h| ==> Proper(h[i])
    requires m in After(NewExchange(me), h).created && n in After(NewExchange(me), h).created
    requires ToUser(m) && m.dest == n.dest
    ensures m == n
  {
    RunKeeps(me, h);
    SameRemote(After(NewExchange(me), h), m, n);
  }
}
