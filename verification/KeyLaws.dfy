/** What key messages are made of, for whom and when, told by the events of a run. */
module KeyLaws {
  import opened Basics
  import opened Topics
  import opened KeyExchanges

  /** The low four bits of an entity identifier tell writers (2, 3 and 8). */
  predicate NamesWriter(entity: int) { entity % 16 in {2, 3, 8} }

  /** Our readers' tokens go to writers and our writers' tokens to readers. */
  function ClassFor(g: Guid): Class { if NamesWriter(g.entity) then ReaderTokens else WriterTokens }

  // ----- starts with an endpoint --------------------------------------------------------

  /** The start settles the matter for the endpoint: keys are not needed, or were made, or
      were set directly because the endpoint is our own. */
  predicate Disposes(me: int, ev: Event, remote: Guid) {
    && ev.WithEndpoint? && ev.remote == remote && ev.a.security.Some?
    && var s := ev.a.security.value;
       (!s.payloadProtected && !s.submessageProtected) || (ev.a.keys.tokens.Some? && (remote.prefix != me || ev.a.setOk))
  }

  /** The start needs keys for a foreign endpoint, and the plugin has them. */
  predicate CallsForKeys(me: int, ev: Event) {
    && ev.WithEndpoint? && ev.remote.prefix != me && ev.a.security.Some? && ev.a.keys.tokens.Some?
    && (ev.a.security.value.payloadProtected || ev.a.security.value.submessageProtected)
  }

  /** The message that such a start makes. */
  function MessageFor(n: int, ev: Event): KeyMessage
    requires ev.WithEndpoint? && ev.a.keys.tokens.Some?
  {
    KeyMessage(n, ClassFor(ev.remote), Some(ev.local), ev.remote.prefix, Some(ev.remote), ev.a.keys.tokens.value)
  }

  /** A start creates a message exactly if the endpoint is new and foreign, is known, needs
      keys and has tokens; the message is the right one, and is accepted exactly if the
      writer takes it and cached otherwise. */
  lemma StartCreatesIff(x: Exchange, ev: Event)
    requires ev.WithEndpoint? && Conserved(x)
    ensures var y := Step(x, ev);
            if CallsForKeys(x.me, ev) && ev.remote !in x.sentTo then
              var m := MessageFor(x.nextSeqnum, ev);
              && y.created == x.created + [m] && y.nextSeqnum == x.nextSeqnum + 1
              && (m in y.cache <==> !ev.a.keys.writeOk) && (m in y.accepted <==> ev.a.keys.writeOk)
            else y.created == x.created && y.cache == x.cache && y.accepted == x.accepted && y.nextSeqnum == x.nextSeqnum
  {
    if CallsForKeys(x.me, ev) && ev.remote !in x.sentTo {
      var m := MessageFor(x.nextSeqnum, ev);
      FreshIsNowhere(x, m);
    }
  }

  lemma FreshIsNowhere(x: Exchange, m: KeyMessage)
    requires Conserved(x) && m.seqnum == x.nextSeqnum
    ensures m !in x.cache && m !in x.accepted
  {
    assert m !in x.created;
    OnePlace(x, m);
  }

  lemma StepKeepsMe(x: Exchange, ev: Event)
    requires Proper(ev)
    ensures Step(x, ev).me == x.me
    ensures Step(x, ev).sentTo == if ev.WithEndpoint? && Disposes(x.me, ev, ev.remote) then x.sentTo + {ev.remote} else x.sentTo
  {
    hide SendBuiltIn;
    if ev.WithParticipant? && ev.available.Some? {
      var y := SendKeys(x, ParticipantTokens, None, ev.p, None, ev.answers.own);
      BuiltInKeepsMe(y, WriterTokens, ev.p, REMOTE_READERS, ev.available.value, ev.answers.readers);
      var z := SendBuiltIn(y, WriterTokens, ev.p, REMOTE_READERS, ev.available.value, ev.answers.readers);
      BuiltInKeepsMe(z, ReaderTokens, ev.p, REMOTE_WRITERS, ev.available.value, ev.answers.writers);
    }
  }

  lemma {:induction false} BuiltInKeepsMe(x: Exchange, c: Class, p: int, pairs: seq<Pair>, available: set<int>, answers: seq<Answer>)
    requires |answers| == |pairs|
    ensures var y := SendBuiltIn(x, c, p, pairs, available, answers); y.me == x.me && y.sentTo == x.sentTo
  {
    if pairs != [] {
      var k := |pairs| - 1;
      BuiltInKeepsMe(x, c, p, pairs[..k], available, answers[..k]);
    }
  }

  ghost predicate AllProper(h: seq<Event>) { forall i :: 0 <= i < |h| ==> Proper(h[i]) }

  /** In every run the endpoints remembered are exactly those some start has disposed of. */
  lemma {:induction false} RememberedIff(me: int, h: seq<Event>, remote: Guid)
    requires AllProper(h)
    ensures After(NewExchange(me), h).me == me
    ensures remote in After(NewExchange(me), h).sentTo <==> exists i :: 0 <= i < |h| && Disposes(me, h[i], remote)
    decreases |h|
  {
    hide Step, Disposes;
    if h != [] {
      var past, ev := h[..|h| - 1], h[|h| - 1];
      RememberedIff(me, past, remote);
      StepKeepsMe(After(NewExchange(me), past), ev);
      assert h == past + [ev];
      DisposesOfItsOwn(me, ev, remote);
      if exists i :: 0 <= i < |past| && Disposes(me, past[i], remote) {
        var i :| 0 <= i < |past| && Disposes(me, past[i], remote);
        assert h[i] == past[i];
      }
    }
  }

  lemma DisposesOfItsOwn(me: int, ev: Event, remote: Guid)
    ensures Disposes(me, ev, remote) ==> ev.WithEndpoint? && ev.remote == remote
  {
  }

  /** So in every run a start makes its message exactly if it calls for keys and no start
      before it has disposed of the endpoint. */
  lemma CreatedInRunIff(me: int, h: seq<Event>, ev: Event)
    requires AllProper(h) && ev.WithEndpoint?
    ensures var x, y := After(NewExchange(me), h), Step(After(NewExchange(me), h), ev);
            y.created == x.created +
              if CallsForKeys(me, ev) && forall i :: 0 <= i < |h| ==> !Disposes(me, h[i], ev.remote)
              then [MessageFor(x.nextSeqnum, ev)] else []
  {
    hide Step, Disposes, CallsForKeys, MessageFor;
    RunKeeps(me, h);
    RememberedIff(me, h, ev.remote);
    StartCreatesIff(After(NewExchange(me), h), ev);
    var x := After(NewExchange(me), h);
    assert x.created + [] == x.created;
  }

  // ----- starts with a participant ----------------------------------------------------------

  /** What one message says and whether the writer took it. */
  datatype Offer = Offer(kind: Class, source: Option<Guid>, remote: int, dest: Option<Guid>, tokens: int, taken: bool)

  /** The built-in endpoints whose keys are exchanged, by the bit that announces them. */
  predicate IsExchanged(entity: int) {
    entity in {0xff0101c7, 0xff0003c7, 0xff0004c7, 0xff0200c7, 0xff0101c2, 0xff0003c2, 0xff0004c2, 0xff0200c2}
  }

  function BitOf(entity: int): int {
    if entity == 0xff0101c7 then 27 else if entity == 0xff0003c7 then 17
    else if entity == 0xff0004c7 then 19 else if entity == 0xff0200c7 then 21
    else if entity == 0xff0101c2 then 26 else if entity == 0xff0003c2 then 16
    else if entity == 0xff0004c2 then 18 else 20
  }

  /** Our end of the same topic: a writer for a reader and the other way round. */
  function Counterpart(entity: int): int { if entity % 256 == 0xc7 then entity - 5 else entity + 5 }

  /** For one announced remote endpoint, if the plugin has tokens. */
  function OfferTo(me: int, p: int, entity: int, available: set<int>, a: Answer): seq<Offer> {
    if BitOf(entity) in available && a.tokens.Some?
    then [Offer(ClassFor(Guid(p, entity)), Some(Guid(me, Counterpart(entity))), p, Some(Guid(p, entity)), a.tokens.value, a.writeOk)]
    else []
  }

  /** One message for the participant itself and one for each announced endpoint, in a
      fixed order: the four readers, then the four writers. */
  function Offers(me: int, p: int, available: set<int>, a: ParticipantAnswers): seq<Offer>
    requires |a.readers| == 5 && |a.writers| == 5
  {
    (if a.own.tokens.Some? then [Offer(ParticipantTokens, None, p, None, a.own.tokens.value, a.own.writeOk)] else [])
    + (OfferTo(me, p, 0xff0101c7, available, a.readers[0]) + OfferTo(me, p, 0xff0003c7, available, a.readers[1])
       + OfferTo(me, p, 0xff0004c7, available, a.readers[2]) + OfferTo(me, p, 0xff0200c7, available, a.readers[3]))
    + (OfferTo(me, p, 0xff0101c2, available, a.writers[0]) + OfferTo(me, p, 0xff0003c2, available, a.writers[1])
       + OfferTo(me, p, 0xff0004c2, available, a.writers[2]) + OfferTo(me, p, 0xff0200c2, available, a.writers[3]))
  }

  predicate Says(m: KeyMessage, o: Offer) {
    m.kind == o.kind && m.source == o.source && m.remote == o.remote && m.dest == o.dest && m.tokens == o.tokens
  }

  /** y is x with one message more for each offer, numbered in order, each where the
      writer's answer puts it. */
  ghost predicate Extended(x: Exchange, y: Exchange, offers: seq<Offer>) {
    && y.me == x.me && y.nextSeqnum == x.nextSeqnum + |offers|
    && |y.created| == |x.created| + |offers| && y.created[..|x.created|] == x.created
    && forall k :: 0 <= k < |offers| ==> Follows(x, y, offers, k)
  }

  ghost predicate Follows(x: Exchange, y: Exchange, offers: seq<Offer>, k: nat)
    requires k < |offers| && |y.created| == |x.created| + |offers|
  {
    var m := y.created[|x.created| + k];
    && m.seqnum == x.nextSeqnum + k && Says(m, offers[k])
    && (m in y.accepted <==> offers[k].taken) && (m in y.cache <==> !offers[k].taken)
  }

  /** One delivery: the place of older messages does not change. */
  lemma DeliverFollows(x: Exchange, y: Exchange, offers: seq<Offer>, m: KeyMessage, o: Offer)
    requires Conserved(y) && Extended(x, y, offers) && m.seqnum == y.nextSeqnum && Says(m, o)
    ensures Extended(x, Deliver(y, m, o.taken), offers + [o])
  {
    var z, more := Deliver(y, m, o.taken), offers + [o];
    FreshIsNowhere(y, m);
    forall k | 0 <= k < |more| ensures Follows(x, z, more, k) {
      if k < |offers| {
        assert Follows(x, y, offers, k);
        assert z.created[|x.created| + k] == y.created[|x.created| + k];
        assert y.created[|x.created| + k].seqnum < m.seqnum;
      }
    }
  }

  lemma NothingFollows(x: Exchange)
    ensures Extended(x, x, [])
  {
  }

  /** One pair of the built-in lists, given that it is the pair of that endpoint. */
  lemma PairFollows(x: Exchange, y: Exchange, offers: seq<Offer>, c: Class, p: int, pair: Pair, available: set<int>, a: Answer)
    requires Conserved(y) && Extended(x, y, offers)
    requires IsExchanged(pair.remote) && pair.bit == BitOf(pair.remote) && pair.local == Counterpart(pair.remote)
    requires c == ClassFor(Guid(p, pair.remote))
    ensures var z := if Eligible(pair, available)
                     then SendKeys(y, c, Some(Guid(y.me, pair.local)), p, Some(Guid(p, pair.remote)), a) else y;
            Conserved(z) && Extended(x, z, offers + OfferTo(y.me, p, pair.remote, available, a))
  {
    hide Extended, Conserved;
    assert offers + [] == offers;
    if BitOf(pair.remote) in available && a.tokens.Some? {
      var m := NewKeyMessage(y, c, Some(Guid(y.me, pair.local)), p, Some(Guid(p, pair.remote)), a.tokens.value);
      DeliverFollows(x, y, offers, m, OfferTo(y.me, p, pair.remote, available, a)[0]);
      DeliverConserves(y, m, a.writeOk);
    }
  }

  predicate IsPairOf(pair: Pair, entity: int) {
    pair.remote == entity && pair.bit == BitOf(entity) && pair.local == Counterpart(entity) && IsExchanged(entity)
  }

  /** Two consecutive pairs of a list. */
  lemma TwoFollow(x: Exchange, y: Exchange, offers: seq<Offer>, c: Class, p: int, pairs: seq<Pair>, available: set<int>, answers: seq<Answer>,
                  k: nat, e0: int, e1: int)
    requires |pairs| == |answers| && k + 1 < |pairs| && IsPairOf(pairs[k], e0) && IsPairOf(pairs[k + 1], e1)
    requires c == ClassFor(Guid(p, e0)) == ClassFor(Guid(p, e1))
    requires var z := SendBuiltIn(y, c, p, pairs[..k], available, answers[..k]); Conserved(z) && Extended(x, z, offers)
    ensures var z := SendBuiltIn(y, c, p, pairs[..k + 2], available, answers[..k + 2]);
            Conserved(z)
            && Extended(x, z, offers + OfferTo(x.me, p, e0, available, answers[k]) + OfferTo(x.me, p, e1, available, answers[k + 1]))
  {
    hide Conserved, Eligible, SendKeys, SendBuiltIn, OfferTo, ClassFor, BitOf, Counterpart, IsExchanged, Follows;
    var z := SendBuiltIn(y, c, p, pairs[..k], available, answers[..k]);
    BuiltInStep(y, c, p, pairs, available, answers, k);
    PairFollows(x, z, offers, c, p, pairs[k], available, answers[k]);
    var z' := SendBuiltIn(y, c, p, pairs[..k + 1], available, answers[..k + 1]);
    BuiltInStep(y, c, p, pairs, available, answers, k + 1);
    PairFollows(x, z', offers + OfferTo(x.me, p, e0, available, answers[k]), c, p, pairs[k + 1], available, answers[k + 1]);
  }

  lemma ListFollows(x: Exchange, y: Exchange, offers: seq<Offer>, c: Class, p: int, pairs: seq<Pair>, available: set<int>, answers: seq<Answer>,
                    e0: int, e1: int, e2: int, e3: int)
    requires Conserved(y) && Extended(x, y, offers) && |pairs| == 5 && |answers| == 5
    requires IsPairOf(pairs[0], e0) && IsPairOf(pairs[1], e1) && IsPairOf(pairs[2], e2) && IsPairOf(pairs[3], e3)
    requires !Eligible(pairs[4], available)
    requires c == ClassFor(Guid(p, e0)) == ClassFor(Guid(p, e1)) == ClassFor(Guid(p, e2)) == ClassFor(Guid(p, e3))
    ensures var z := SendBuiltIn(y, c, p, pairs, available, answers);
            Conserved(z)
            && Extended(x, z, offers
              + (OfferTo(x.me, p, e0, available, answers[0]) + OfferTo(x.me, p, e1, available, answers[1])
                 + OfferTo(x.me, p, e2, available, answers[2]) + OfferTo(x.me, p, e3, available, answers[3])))
  {
    hide Conserved, Extended, Eligible, SendKeys, OfferTo, ClassFor, IsPairOf;
    var o0, o1, o2, o3 := OfferTo(x.me, p, e0, available, answers[0]), OfferTo(x.me, p, e1, available, answers[1]),
                          OfferTo(x.me, p, e2, available, answers[2]), OfferTo(x.me, p, e3, available, answers[3]);
    BuiltInNothing(y, c, p, pairs, available, answers);
    TwoFollow(x, y, offers, c, p, pairs, available, answers, 0, e0, e1);
    TwoFollow(x, y, offers + o0 + o1, c, p, pairs, available, answers, 2, e2, e3);
    BuiltInStep(y, c, p, pairs, available, answers, 4);
    assert pairs[..5] == pairs && answers[..5] == answers;
    assert offers + o0 + o1 + o2 + o3 == offers + (o0 + o1 + o2 + o3);
  }

  lemma BuiltInNothing(y: Exchange, c: Class, p: int, pairs: seq<Pair>, available: set<int>, answers: seq<Answer>)
    requires |answers| == |pairs|
    ensures SendBuiltIn(y, c, p, pairs[..0], available, answers[..0]) == y
  {
  }

  lemma BuiltInStep(y: Exchange, c: Class, p: int, pairs: seq<Pair>, available: set<int>, answers: seq<Answer>, k: nat)
    requires |answers| == |pairs| && k < |pairs|
    ensures var z := SendBuiltIn(y, c, p, pairs[..k], available, answers[..k]);
            SendBuiltIn(y, c, p, pairs[..k + 1], available, answers[..k + 1])
            == if Eligible(pairs[k], available)
               then SendKeys(z, c, Some(Guid(z.me, pairs[k].local)), p, Some(Guid(p, pairs[k].remote)), answers[k]) else z
  {
    hide SendKeys, Eligible;
    assert pairs[..k + 1][..k] == pairs[..k] && answers[..k + 1][..k] == answers[..k];
  }

  /** Exactly the offers of a start with a participant become messages; none if it is not
      in the database. */
  lemma ParticipantOffersExactly(x: Exchange, p: int, available: Option<set<int>>, a: ParticipantAnswers)
    requires Complete(a) && Conserved(x)
    ensures Extended(x, StartWithParticipant(x, p, available, a),
                     if available.Some? then Offers(x.me, p, available.value, a) else [])
  {
    hide Extended, Conserved, SendBuiltIn;
    NothingFollows(x);
    if available.Some? {
      var y := SendKeys(x, ParticipantTokens, None, p, None, a.own);
      var own := if a.own.tokens.Some? then [Offer(ParticipantTokens, None, p, None, a.own.tokens.value, a.own.writeOk)] else [];
      if a.own.tokens.Some? {
        var m := NewKeyMessage(x, ParticipantTokens, None, p, None, a.own.tokens.value);
        DeliverFollows(x, x, [], m, own[0]);
        DeliverConserves(x, m, a.own.writeOk);
        assert [] + own == own;
      }
      ListFollows(x, y, own, WriterTokens, p, REMOTE_READERS, available.value, a.readers, 0xff0101c7, 0xff0003c7, 0xff0004c7, 0xff0200c7);
      var z := SendBuiltIn(y, WriterTokens, p, REMOTE_READERS, available.value, a.readers);
      var readers := OfferTo(x.me, p, 0xff0101c7, available.value, a.readers[0]) + OfferTo(x.me, p, 0xff0003c7, available.value, a.readers[1])
        + OfferTo(x.me, p, 0xff0004c7, available.value, a.readers[2]) + OfferTo(x.me, p, 0xff0200c7, available.value, a.readers[3]);
      ListFollows(x, z, own + readers, ReaderTokens, p, REMOTE_WRITERS, available.value, a.writers, 0xff0101c2, 0xff0003c2, 0xff0004c2, 0xff0200c2);
    }
  }

  // ----- over runs ---------------------------------------------------------------------------------

  /** The message was made by the i-th event, for the endpoint and with the tokens of that
      event. */
  ghost predicate MadeBy(h: seq<Event>, i: nat, m: KeyMessage)
    requires i < |h|
  {
    h[i].WithEndpoint? && h[i].a.keys.tokens.Some? && m == MessageFor(m.seqnum, h[i])
  }

  ghost predicate HasMaker(h: seq<Event>, m: KeyMessage) { exists i :: 0 <= i < |h| && MadeBy(h, i, m) }

  lemma MakerStays(past: seq<Event>, ev: Event, m: KeyMessage)
    requires HasMaker(past, m)
    ensures HasMaker(past + [ev], m)
  {
    var i :| 0 <= i < |past| && MadeBy(past, i, m);
    assert MadeBy(past + [ev], i, m);
  }

  lemma OffersAreBuiltIn(x: Exchange, p: int, available: set<int>, a: ParticipantAnswers, y: Exchange, m: KeyMessage)
    requires Complete(a) && Extended(x, y, Offers(x.me, p, available, a)) && m in y.created && m !in x.created
    ensures !ToUser(m)
  {
    hide Offers, IsBuiltIn;
    var offers := Offers(x.me, p, available, a);
    assert forall i :: 0 <= i < |x.created| ==> y.created[..|x.created|][i] == x.created[i];
    var j :| 0 <= j < |y.created| && y.created[j] == m;
    assert j >= |x.created|;
    assert Follows(x, y, offers, j - |x.created|);
    NoUserOffer(x.me, p, available, a, j - |x.created|);
  }

  lemma NoUserOffer(me: int, p: int, available: set<int>, a: ParticipantAnswers, k: nat)
    requires Complete(a) && k < |Offers(me, p, available, a)|
    ensures var o := Offers(me, p, available, a)[k]; o.dest.None? || IsBuiltIn(o.dest.value.entity)
  {
    hide ClassFor, Counterpart, BitOf;
    assert forall o :: o in Offers(me, p, available, a) ==> o.dest.None? || IsBuiltIn(o.dest.value.entity);
  }

  /** In every run each key message to a user endpoint has the class that suits the
      endpoint, is addressed to its participant, and carries the source and the tokens of
      the start that made it. */
  lemma {:induction false} UserMessagesAreRight(me: int, h: seq<Event>, m: KeyMessage)
    requires AllProper(h) && m in After(NewExchange(me), h).created && ToUser(m)
    ensures m.kind == ClassFor(m.dest.value) && m.remote == m.dest.value.prefix && HasMaker(h, m)
    decreases |h|
  {
    hide Step, ToUser, MadeBy;
    var past, ev := h[..|h| - 1], h[|h| - 1];
    assert h == past + [ev];
    var x := After(NewExchange(me), past);
    RunKeeps(me, past);
    if m in x.created {
      UserMessagesAreRight(me, past, m);
      MakerStays(past, ev, m);
    } else {
      NewUserMessage(x, ev, h, m);
    }
  }

  lemma NewUserMessage(x: Exchange, ev: Event, h: seq<Event>, m: KeyMessage)
    requires Proper(ev) && Conserved(x) && h != [] && h[|h| - 1] == ev && m in Step(x, ev).created && m !in x.created && ToUser(m)
    ensures m.kind == ClassFor(m.dest.value) && m.remote == m.dest.value.prefix && HasMaker(h, m)
  {
    hide StartWithParticipant, StartWithEndpoint, ToUser;
    match ev
    case WithParticipant(p, available, a) =>
      UnknownMakesNothing(x, p, a);
      if available.Some? {
        ParticipantOffersExactly(x, p, available, a);
        OffersAreBuiltIn(x, p, available.value, a, Step(x, ev), m);
      }
    case WithEndpoint(local, remote, a) =>
      StartCreatesIff(x, ev);
      assert MadeBy(h, |h| - 1, m);
    case ResendTick(ok) =>
    case AuthMessagesNumbered(n) =>
  }

  lemma UnknownMakesNothing(x: Exchange, p: int, a: ParticipantAnswers)
    requires Complete(a)
    ensures StartWithParticipant(x, p, None, a).created == x.created
  {
  }

  /** How many numbers authentication messages took. */
  function TakenElsewhere(h: seq<Event>): int
    decreases |h|
  {
    if h == [] then 0
    else TakenElsewhere(h[..|h| - 1]) + if h[|h| - 1].AuthMessagesNumbered? then h[|h| - 1].n else 0
  }

  lemma StepUsesNumbers(x: Exchange, ev: Event)
    requires Proper(ev) && Conserved(x)
    ensures var y := Step(x, ev);
            y.nextSeqnum - |y.created| == x.nextSeqnum - |x.created| + if ev.AuthMessagesNumbered? then ev.n else 0
  {
    hide StartWithParticipant, StartWithEndpoint, Conserved, Follows, Offers, Disposes, CallsForKeys, MessageFor;
    match ev
    case WithParticipant(p, available, a) => ParticipantOffersExactly(x, p, available, a);
    case WithEndpoint(local, remote, a) => StartCreatesIff(x, ev);
    case ResendTick(ok) =>
    case AuthMessagesNumbered(n) =>
  }

  /** In every run the next number is one more than all key and authentication messages so
      far: each took one number, and none was skipped. */
  lemma {:induction false} NumbersAreRunning(me: int, h: seq<Event>)
    requires AllProper(h)
    ensures var x := After(NewExchange(me), h); x.nextSeqnum == 1 + |x.created| + TakenElsewhere(h)
    decreases |h|
  {
    hide Step, Proper;
    if h != [] {
      var past := h[..|h| - 1];
      NumbersAreRunning(me, past);
      RunKeeps(me, past);
      StepUsesNumbers(After(NewExchange(me), past), h[|h| - 1]);
    }
  }

  /** A resend tick accepts exactly the cached messages that the writer takes, and leaves
      the others cached. */
  lemma ResendTakesExactly(x: Exchange, ok: set<KeyMessage>, m: KeyMessage)
    requires Conserved(x)
    ensures var y := Step(x, ResendTick(ok));
            && y.created == x.created
            && (m in y.cache <==> m in x.cache && m !in ok)
            && y.accepted[m] == x.accepted[m] + if m in x.cache && m in ok then 1 else 0
  {
  }
}
