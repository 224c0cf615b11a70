/** The secure-discovery object: its fields are changed in place by the handlers, each
    of which is proved to do what the step functions of `Handshakes` and `KeyExchanges`
    say, so that their results about runs hold of the object. */
module SecureDiscoveries {
  import opened Basics
  import opened Topics
  import H = Handshakes
  import K = KeyExchanges
  import N = HandshakeNetwork

  method Choose<T(==)>(s: set<T>) returns (e: T)
    requires s != {}
    ensures e in s
  {
    e :| e in s;
  }

  /** The messages written once every participant outside `todo` has been served. */
  ghost function Rewritten(l: H.Local, ok: set<int>, todo: set<int>): set<H.Message> {
    set p | p in l.stored && p !in todo && H.Resendable(l, p) && p in ok :: l.stored[p].msg
  }

  lemma RewrittenOneMore(l: H.Local, ok: set<int>, todo: set<int>, p: int)
    requires p in todo && p in l.stored
    ensures Rewritten(l, ok, todo - {p})
            == Rewritten(l, ok, todo) + if H.Resendable(l, p) && p in ok then {l.stored[p].msg} else {}
  {
  }

  /** The cached messages outside `todo` that the writer takes. */
  ghost function Taken(cache: set<K.KeyMessage>, todo: set<K.KeyMessage>, ok: set<K.KeyMessage>): set<K.KeyMessage> {
    (cache - todo) * ok
  }

  lemma TakenOneMore(cache: set<K.KeyMessage>, todo: set<K.KeyMessage>, ok: set<K.KeyMessage>, m: K.KeyMessage)
    requires m in todo && todo <= cache
    ensures multiset(Taken(cache, todo - {m}, ok))
            == multiset(Taken(cache, todo, ok)) + if m in ok then multiset{m} else multiset{}
    ensures cache - (todo - {m}) - ok == (cache - todo - ok) + if m in ok then {} else {m}
  {
    assert Taken(cache, todo - {m}, ok) == Taken(cache, todo, ok) + if m in ok then {m} else {};
  }

  /** Offers each message to the writer once; returns those not taken, and how often each
      one was taken. */
  method OfferAll(cache: set<K.KeyMessage>, ok: set<K.KeyMessage>) returns (still: set<K.KeyMessage>, ghost taken: multiset<K.KeyMessage>)
    ensures still == cache - ok && taken == multiset(cache * ok)
  {
    var todo := cache;
    still, taken := {}, multiset{};
    while todo != {}
      invariant todo <= cache && still == cache - todo - ok
      invariant taken == multiset(Taken(cache, todo, ok))
      decreases todo
    {
      var m := Choose(todo);
      TakenOneMore(cache, todo, ok, m);
      if m in ok {
        taken := taken + multiset{m};
      } else {
        still := still + {m};
      }
      todo := todo - {m};
    }
    assert Taken(cache, {}, ok) == cache * ok;
  }

  ghost predicate Sound(l: H.Local, x: K.Exchange) {
    H.Inv(l) && K.Conserved(x) && K.OnePerRemote(x) && x.nextSeqnum == l.nextSeqnum
  }

  lemma HandshakeStepKeeps(l: H.Local, ev: H.Event, x: K.Exchange)
    requires Sound(l, x)
    ensures var d := H.Step(l, ev).local; Sound(d, x.(nextSeqnum := d.nextSeqnum))
  {
    hide H.Step;
    H.StepKeepsInv(l, ev);
    N.StepShape(l, ev);
    var n := H.Step(l, ev).local.nextSeqnum - l.nextSeqnum;
    K.StepKeeps(x, K.AuthMessagesNumbered(n));
  }

  /** The key-exchange invariant does not mind numbers given to other messages. */
  lemma KeysFollow(l: H.Local, d: H.Local, x: K.Exchange)
    requires Sound(l, x) && H.Inv(d) && d.nextSeqnum >= l.nextSeqnum
    ensures Sound(d, x.(nextSeqnum := d.nextSeqnum))
  {
    K.StepKeeps(x, K.AuthMessagesNumbered(d.nextSeqnum - l.nextSeqnum));
  }

  /** No other participant is authenticated before its handshake is complete. */
  predicate StillOpen(l: H.Local, p: int) { p in l.auth && l.auth[p] == H.Authenticated ==> p == l.me }

  predicate MaySend(l: H.Local, p: int, kind: H.Kind, next: H.HandshakeState) {
    (next == H.CompletedWithFinalMessageSent ==> kind == H.Final) && (StillOpen(l, p) || H.Completed(next))
  }

  lemma SendKeeps(l: H.Local, x: K.Exchange, p: int, answered: Option<H.Message>, kind: H.Kind, next: H.HandshakeState, ok: bool)
    requires Sound(l, x) && MaySend(l, p, kind, next)
    ensures var d := H.Send(l, p, answered, kind, next, ok).local; Sound(d, x.(nextSeqnum := d.nextSeqnum))
  {
    H.SendSound(l, p, answered, kind, next, ok);
    KeysFollow(l, H.Send(l, p, answered, kind, next, ok).local, x);
  }

  lemma PendingReplyKeeps(l: H.Local, x: K.Exchange, m: H.Message, a: H.Answers)
    requires Sound(l, x)
    ensures var d := H.OnPendingReply(l, m, a).local; Sound(d, x.(nextSeqnum := d.nextSeqnum))
  {
    H.OnPendingReplyKeepsInv(l, m, a);
    KeysFollow(l, H.OnPendingReply(l, m, a).local, x);
  }

  lemma PendingFinalKeeps(l: H.Local, x: K.Exchange, m: H.Message, a: H.Answers)
    requires Sound(l, x)
    ensures Sound(H.OnPendingFinal(l, m, a).local, x)
  {
    H.OnPendingFinalKeepsInv(l, m, a);
    KeysFollow(l, H.OnPendingFinal(l, m, a).local, x);
  }

  lemma StartKeeps(l: H.Local, x: K.Exchange, p: int, a: H.Answers)
    requires Sound(l, x) && p !in l.auth
    ensures var d := H.StartAuthentication(l, p, a).local; Sound(d, x.(nextSeqnum := d.nextSeqnum))
  {
    H.StartKeepsInv(l, p, a);
    KeysFollow(l, H.StartAuthentication(l, p, a).local, x);
  }

  lemma StatusKeeps(l: H.Local, x: K.Exchange, p: int, s: H.AuthStatus)
    requires Sound(l, x) && (s == H.Authenticated ==> p in l.states && H.Completed(l.states[p]))
    ensures Sound(l.(auth := l.auth[p := s]), x)
  {
    H.WithAuthSound(H.Quiet(l), p, s);
  }

  lemma ResetKeeps(l: H.Local, x: K.Exchange, p: int)
    requires Sound(l, x)
    ensures Sound(H.ResetCounter(l, p), x)
  {
    H.ResetSound(l, p);
  }

  /** So counting down cannot underflow. */
  lemma CounterIsPositive(l: H.Local, x: K.Exchange, p: int)
    requires Sound(l, x) && p in l.stored
    ensures l.stored[p].counter >= 1
  {
    assert H.Sound(l, p);
  }

  lemma KeyStepKeeps(l: H.Local, ev: K.Event, x: K.Exchange)
    requires Sound(l, x) && K.Proper(ev)
    ensures var y := K.Step(x, ev); Sound(l.(nextSeqnum := y.nextSeqnum), y)
  {
    hide K.Step, K.Conserved, K.OnePerRemote;
    K.StepKeeps(x, ev);
    K.NumbersGrow(x, ev);
    H.StepKeepsInv(l, H.KeyMessagesNumbered(K.Step(x, ev).nextSeqnum - l.nextSeqnum));
  }

  class SecureDiscovery {
    const me: int
    const accessProtected: bool
    const allowUnauthenticated: bool
    var auth: map<int, H.AuthStatus>
    var states: map<int, H.HandshakeState>
    var stored: map<int, H.Stored>
    var nextSeqnum: int
    var cache: set<K.KeyMessage>
    var sentTo: set<Guid>
    // every key message created, and those the writer has taken
    ghost var created: seq<K.KeyMessage>
    ghost var accepted: multiset<K.KeyMessage>

    /** The handshake part of the state. */
    ghost function View(): H.Local
      reads this
    {
      H.Local(me, accessProtected, allowUnauthenticated, auth, states, stored, nextSeqnum)
    }

    /** The key-exchange part of the state; only the numbering is shared. */
    ghost function Keys(): K.Exchange
      reads this
    {
      K.Exchange(me, nextSeqnum, cache, sentTo, created, accepted)
    }

    /** Both invariants hold, over the one numbering. */
    ghost predicate Valid()
      reads this
    {
      Sound(View(), Keys())
    }

    constructor (me: int, accessProtected: bool, allowUnauthenticated: bool)
      ensures Valid()
      ensures View() == H.NewLocal(me, accessProtected, allowUnauthenticated)
      ensures Keys() == K.NewExchange(me)
      ensures auth == map[me := H.Authenticated] && states == map[] && stored == map[] && nextSeqnum == 1
      ensures cache == {} && sentTo == {} && created == [] && accepted == multiset{}
    {
      this.me, this.accessProtected, this.allowUnauthenticated := me, accessProtected, allowUnauthenticated;
      auth, states, stored, nextSeqnum := map[me := H.Authenticated], map[], map[], 1;
      cache, sentTo, created, accepted := {}, {}, [], multiset{};
      new;
      forall p ensures H.Sound(View(), p) {}
    }

    // ----- authentication --------------------------------------------------------------

    method NewStatelessMessage(p: int, answered: Option<H.Message>, kind: H.Kind) returns (m: H.Message)
      modifies `nextSeqnum
      ensures m == H.NewMessage(old(View()), p, answered, kind)
      ensures nextSeqnum == old(nextSeqnum) + 1
    {
      var n := nextSeqnum;
      nextSeqnum := nextSeqnum + 1;
      var related := if answered.Some? then answered.value.id else H.NO_ID;
      m := H.Message(H.Id(me, n), related, p, kind, true, true);
    }

    /** Creates a message, stores it for resending, tries to write it and moves on. */
    method Send(p: int, answered: Option<H.Message>, kind: H.Kind, next: H.HandshakeState, writeOk: bool) returns (written: set<H.Message>)
      modifies `nextSeqnum, `stored, `states
      ensures old(Valid() && MaySend(View(), p, kind, next)) ==> Valid()
      ensures var o := H.Send(old(View()), p, answered, kind, next, writeOk);
              View() == o.local && written == o.written
    {
      hide Sound;
      if Valid() && MaySend(View(), p, kind, next) { SendKeeps(View(), Keys(), p, answered, kind, next, writeOk); }
      var m := NewStatelessMessage(p, answered, kind);
      stored := stored[p := H.Stored(m, H.MAX_RESENDS)];
      written := if writeOk then {m} else {};
      states := states[p := next];
    }

    method TrySendingRequest(p: int, a: H.Answers) returns (written: set<H.Message>)
      modifies `nextSeqnum, `stored, `states
      ensures old(Valid() && StillOpen(View(), p)) ==> Valid()
      ensures var o := H.TrySendingRequest(old(View()), p, a);
              View() == o.local && written == o.written
    {
      hide Sound;
      written := {};
      if a.requestCreated {
        written := Send(p, None, H.Request, H.PendingReplyMessage, a.writeOk);
      }
    }

    method StartAuthentication(p: int, a: H.Answers) returns (written: set<H.Message>)
      modifies `nextSeqnum, `stored, `states, `auth
      ensures old(Valid() && p !in auth) ==> Valid()
      ensures var o := H.StartAuthentication(old(View()), p, a);
              View() == o.local && written == o.written
    {
      hide Sound;
      if Valid() && p !in auth { StartKeeps(View(), Keys(), p, a); }
      written := {};
      var status := H.Rejected;
      if a.hasIdentityToken {
        match a.identity
        case IdentityError =>
          if allowUnauthenticated { status := H.Unauthenticated; }
        case SendRequest =>
          states := states[p := H.PendingRequestSend];
          written := TrySendingRequest(p, a);
          status := H.Authenticating;
        case AwaitRequest =>
          states := states[p := H.PendingRequestMessage];
          status := H.Authenticating;
        case OtherOutcome =>
      }
      auth := auth[p := status];
    }

    method ParticipantDataRead(p: int, a: H.Answers) returns (written: set<H.Message>)
      requires Valid()
      modifies `nextSeqnum, `stored, `states, `auth
      ensures Valid()
      ensures var o := H.ParticipantDataRead(old(View()), p, a);
              View() == o.local && written == o.written
    {
      hide Sound;
      HandshakeStepKeeps(View(), H.ParticipantData(p, a), Keys());
      written := {};
      if p !in auth {
        if a.compatible {
          written := StartAuthentication(p, a);
        } else {
          auth := auth[p := if allowUnauthenticated then H.Unauthenticated else H.Rejected];
        }
      } else if auth[p] == H.Authenticating && p in states && states[p] == H.PendingRequestSend {
        written := TrySendingRequest(p, a);
      }
    }

    method OnRemoteAuthenticated(p: int, a: H.Answers)
      modifies `auth
      ensures old(Valid() && p in states && H.Completed(states[p])) ==> Valid()
      ensures auth == old(auth)[p := if H.PassesChecks(View(), a) then H.Authenticated else H.Rejected]
    {
      hide Sound;
      if Valid() && p in states && H.Completed(states[p]) {
        StatusKeeps(View(), Keys(), p, if H.PassesChecks(View(), a) then H.Authenticated else H.Rejected);
      }
      var status := H.Rejected;
      if a.permissionsOk {
        if !accessProtected || (a.domainCheck.Some? && a.domainCheck.value) {
          if a.cryptoOk { status := H.Authenticated; }
        }
      }
      auth := auth[p := status];
    }

    method ResetStoredMessageResendCounter(p: int)
      modifies `stored
      ensures old(Valid()) ==> Valid()
      ensures View() == H.ResetCounter(old(View()), p)
    {
      hide Sound;
      if Valid() { ResetKeeps(View(), Keys(), p); }
      if p in stored {
        stored := stored[p := H.Stored(stored[p].msg, H.MAX_RESENDS)];
      }
    }

    method IsRelatedToOurMessage(m: H.Message, p: int) returns (b: bool)
      ensures b <==> H.RelatedToOurs(View(), m, p)
    {
      b := p in stored && m.related == stored[p].msg.id;
    }

    method OnPendingRequest(m: H.Message, a: H.Answers) returns (written: set<H.Message>)
      modifies `nextSeqnum, `stored, `states
      ensures old(Valid() && StillOpen(View(), m.id.prefix)) ==> Valid()
      ensures var o := H.OnPendingRequest(old(View()), m, a);
              View() == o.local && written == o.written
    {
      hide Sound;
      written := {};
      if m.hasToken && a.replyCreated {
        written := Send(m.id.prefix, Some(m), H.Reply, H.PendingFinalMessage, a.writeOk);
      }
    }

    method OnPendingReply(m: H.Message, a: H.Answers) returns (written: set<H.Message>)
      modifies `nextSeqnum, `stored, `states, `auth
      ensures old(Valid()) ==> Valid()
      ensures var o := H.OnPendingReply(old(View()), m, a);
              View() == o.local && written == o.written
    {
      hide Sound;
      if Valid() { PendingReplyKeeps(View(), Keys(), m, a); }
      written := {};
      var p := m.id.prefix;
      var related := IsRelatedToOurMessage(m, p);
      if !related || !m.hasToken { return; }
      match a.processed
      case OkFinalMessage =>
        written := Send(p, Some(m), H.Final, H.CompletedWithFinalMessageSent, a.writeOk);
        OnRemoteAuthenticated(p, a);
      case ProcessError => ResetStoredMessageResendCounter(p);
      case _ =>
    }

    method OnPendingFinal(m: H.Message, a: H.Answers)
      modifies `stored, `states, `auth
      ensures old(Valid()) ==> Valid()
      ensures View() == H.OnPendingFinal(old(View()), m, a).local
    {
      hide Sound;
      if Valid() { PendingFinalKeeps(View(), Keys(), m, a); }
      var p := m.id.prefix;
      var related := IsRelatedToOurMessage(m, p);
      if !related || !m.hasToken { return; }
      match a.processed
      case OkDone =>
        states := states[p := H.CompletedWithFinalMessageReceived];
        stored := stored - {p};
        OnRemoteAuthenticated(p, a);
      case ProcessError => ResetStoredMessageResendCounter(p);
      case _ =>
    }

    method ParticipantStatelessMessageRead(m: H.Message, a: H.Answers) returns (written: set<H.Message>)
      requires Valid()
      modifies `nextSeqnum, `stored, `states, `auth
      ensures Valid()
      ensures var o := H.StatelessMessageRead(old(View()), m, a);
              View() == o.local && written == o.written
    {
      hide Sound;
      HandshakeStepKeeps(View(), H.StatelessMessage(m, a), Keys());
      written := {};
      var p := m.id.prefix;
      if m.dest != me || !m.isHandshake || p !in states { return; }
      match states[p]
      case PendingRequestSend => written := TrySendingRequest(p, a);
      case PendingRequestMessage => written := OnPendingRequest(m, a);
      case PendingReplyMessage => written := OnPendingReply(m, a);
      case PendingFinalMessage => OnPendingFinal(m, a);
      case CompletedWithFinalMessageSent =>
        if p in stored && a.writeOk { written := {stored[p].msg}; }
      case CompletedWithFinalMessageReceived =>
    }

    /** Writes every stored message but finals again; counters go down in place, and
        messages that have run out are dropped afterwards. */
    method ResendAuthenticationMessages(ok: set<int>) returns (written: set<H.Message>)
      requires Valid()
      modifies `stored
      ensures Valid()
      ensures var o := H.Resend(old(View()), ok);
              View() == o.local && written == o.written
    {
      hide Sound;
      HandshakeStepKeeps(View(), H.ResendTick(ok), Keys());
      ghost var l := View();
      written := {};
      var todo := stored.Keys;
      while todo != {}
        invariant todo <= stored.Keys && stored.Keys == l.stored.Keys
        invariant forall p :: p in stored ==> stored[p] == if p in todo then l.stored[p] else H.AfterResend(l, p, ok)
        invariant written == Rewritten(l, ok, todo)
        decreases todo
      {
        var p := Choose(todo);
        RewrittenOneMore(l, ok, todo, p);
        if !(p in states && states[p] == H.CompletedWithFinalMessageSent) {
          if p in ok {
            CounterIsPositive(l, old(Keys()), p);
            assert stored[p].counter >= 1;
            written := written + {stored[p].msg};
            stored := stored[p := H.Stored(stored[p].msg, stored[p].counter - 1)];
          }
        }
        todo := todo - {p};
      }
      stored := map p | p in stored && stored[p].counter > 0 :: stored[p];
      assert stored == H.Resend(l, ok).local.stored;
      assert View() == H.Step(l, H.ResendTick(ok)).local;
    }

    // ----- key exchange ------------------------------------------------------------------

    /** Numbers a key message and writes it, or caches it for the next resend. */
    method SendKeys(c: K.Class, source: Option<Guid>, p: int, dest: Option<Guid>, a: K.Answer)
      modifies `nextSeqnum, `cache, `created, `accepted
      ensures Keys() == K.SendKeys(old(Keys()), c, source, p, dest, a)
    {
      if a.tokens.Some? {
        var m := K.KeyMessage(nextSeqnum, c, source, p, dest, a.tokens.value);
        nextSeqnum := nextSeqnum + 1;
        created := created + [m];
        if a.writeOk {
          accepted := accepted + multiset{m};
        } else {
          cache := cache + {m};
        }
      }
    }

    method SendBuiltIn(c: K.Class, p: int, pairs: seq<K.Pair>, available: set<int>, answers: seq<K.Answer>)
      requires |answers| == |pairs|
      modifies `nextSeqnum, `cache, `created, `accepted
      ensures Keys() == K.SendBuiltIn(old(Keys()), c, p, pairs, available, answers)
    {
      for i := 0 to |pairs|
        invariant Keys() == K.SendBuiltIn(old(Keys()), c, p, pairs[..i], available, answers[..i])
      {
        assert pairs[..i + 1][..i] == pairs[..i] && answers[..i + 1][..i] == answers[..i];
        if pairs[i].bit in available && pairs[i].remote != K.VOLATILE_READER && pairs[i].remote != K.VOLATILE_WRITER {
          SendKeys(c, Some(Guid(me, pairs[i].local)), p, Some(Guid(p, pairs[i].remote)), answers[i]);
        }
      }
      assert pairs[..|pairs|] == pairs && answers[..|pairs|] == answers;
    }

    method StartKeyExchangeWithRemoteParticipant(p: int, available: Option<set<int>>, a: K.ParticipantAnswers)
      requires K.Complete(a)
      requires Valid()
      modifies `nextSeqnum, `cache, `created, `accepted
      ensures Valid()
      ensures Keys() == K.StartWithParticipant(old(Keys()), p, available, a)
    {
      hide Sound;
      KeyStepKeeps(View(), K.WithParticipant(p, available, a), Keys());
      if available.None? { return; }
      SendKeys(K.ParticipantTokens, None, p, None, a.own);
      SendBuiltIn(K.WriterTokens, p, K.REMOTE_READERS, available.value, a.readers);
      SendBuiltIn(K.ReaderTokens, p, K.REMOTE_WRITERS, available.value, a.writers);
    }

    method StartKeyExchangeWithRemoteEndpoint(local: Guid, remote: Guid, a: K.EndpointAnswers)
      requires Valid()
      modifies `nextSeqnum, `cache, `created, `accepted, `sentTo
      ensures Valid()
      ensures Keys() == K.StartWithEndpoint(old(Keys()), local, remote, a)
    {
      hide Sound;
      KeyStepKeeps(View(), K.WithEndpoint(local, remote, a), Keys());
      if remote in sentTo || a.security.None? { return; }
      if !(a.security.value.payloadProtected || a.security.value.submessageProtected) {
        sentTo := sentTo + {remote};
        return;
      }
      if a.keys.tokens.None? { return; }
      if remote.prefix == me {
        if !a.setOk { return; }
      } else {
        SendKeys(if K.IsWriter(remote.entity) then K.ReaderTokens else K.WriterTokens,
                 Some(local), remote.prefix, Some(remote), a.keys);
      }
      sentTo := sentTo + {remote};
    }

    /** Offers every cached key message to the writer; those not taken are cached anew. */
    method ResendKeyMessages(ok: set<K.KeyMessage>)
      requires Valid()
      modifies `cache, `accepted
      ensures Valid()
      ensures Keys() == K.Resend(old(Keys()), ok)
    {
      hide Sound;
      KeyStepKeeps(View(), K.ResendTick(ok), Keys());
      var still, taken := OfferAll(cache, ok);
      cache := still;
      accepted := accepted + taken;
    }
  }
}
