/** The network when only written messages can be delivered: a lost final does not leave
    the responder waiting. */
module HandshakeRecovery {
  import opened Basics
  import opened Handshakes
  import opened HandshakeLaws
  import opened HandshakeNetwork

  /** The participants, and every message a writer has taken so far. */
  datatype Air = Air(w: World, sent: set<Message>)

  ghost predicate AirEnabled(s: Air, ev: NetEvent) {
    Enabled(s.w, ev) && (ev.local.StatelessMessage? ==> ev.local.m in s.sent)
  }

  ghost function AirStep(s: Air, ev: NetEvent): Air
    requires AirEnabled(s, ev)
  {
    Air(NetStep(s.w, ev), s.sent + Step(s.w.locals[ev.at], ev.local).written)
  }

  ghost predicate AirLegal(s: Air, h: seq<NetEvent>)
    decreases |h|, 0
  {
    h == [] || (AirLegal(s, h[..|h| - 1]) && AirEnabled(AirAfter(s, h[..|h| - 1]), h[|h| - 1]))
  }

  ghost function AirAfter(s: Air, h: seq<NetEvent>): Air
    requires AirLegal(s, h)
    decreases |h|, 1
  {
    if h == [] then s else AirStep(AirAfter(s, h[..|h| - 1]), h[|h| - 1])
  }

  lemma {:induction false} AirKeepsInv(s: Air, h: seq<NetEvent>)
    requires NetInv(s.w) && AirLegal(s, h)
    ensures NetInv(AirAfter(s, h).w)
    decreases |h|
  {
    hide NetInv, NetStep;
    if h != [] {
      AirKeepsInv(s, h[..|h| - 1]);
      NetStepKeepsInv(AirAfter(s, h[..|h| - 1]).w, h[|h| - 1]);
    }
  }

  lemma {:induction false} AirPrefix(s: Air, h: seq<NetEvent>, k: nat)
    requires AirLegal(s, h) && k <= |h|
    ensures AirLegal(s, h[..k]) && AirAfter(s, h[..k]).sent <= AirAfter(s, h).sent
    ensures k < |h| ==> AirEnabled(AirAfter(s, h[..k]), h[k])
    decreases |h|
  {
    hide AirEnabled, Step, NetStep;
    if k == |h| {
      assert h[..k] == h;
    } else {
      AirPrefix(s, h[..|h| - 1], k);
      assert h[..|h| - 1][..k] == h[..k];
      AirGrows(AirAfter(s, h[..|h| - 1]), h[|h| - 1]);
    }
  }

  lemma AirGrows(s: Air, ev: NetEvent)
    requires AirEnabled(s, ev)
    ensures s.sent <= AirStep(s, ev).sent
  {
  }

  // ----- the two sides at rest ------------------------------------------------------------

  /** Completed as the initiator with p, with `final` stored. */
  predicate Rests(l: Local, p: int, final: Message) {
    && p in l.auth && p in l.states && l.states[p] == CompletedWithFinalMessageSent
    && p in l.stored && l.stored[p].msg == final
  }

  /** Done as the responder with p, or waiting with nothing stored but `reply`. */
  predicate Waits(l: Local, p: int, reply: Message) {
    && p in l.auth && p in l.states
    && (|| l.states[p] == CompletedWithFinalMessageReceived
        || (l.states[p] == PendingFinalMessage && (p in l.stored ==> l.stored[p].msg == reply)))
  }

  lemma NothingCreated(l: Local, ev: Event, p: int)
    requires p in l.auth && p in l.states
    requires l.states[p] == CompletedWithFinalMessageSent || l.states[p] == CompletedWithFinalMessageReceived
             || l.states[p] == PendingFinalMessage
    ensures !(Step(l, ev).made.Some? && Step(l, ev).made.value.msg.dest == p)
  {
    hide Step;
    CreatedExactly(l, ev, p);
    if Step(l, ev).made.Some? {
      match Step(l, ev).made.value.msg.kind case Request => case Reply => case Final =>
    }
  }

  lemma RestsOn(l: Local, ev: Event, p: int, final: Message)
    requires Inv(l) && Rests(l, p, final) && ev != ParticipantRemoved(p)
    ensures Rests(Step(l, ev).local, p, final)
  {
    hide Step, Inv;
    NothingCreated(l, ev, p);
    StateExactly(l, ev, p);
    StatusExactly(l, ev, p);
    StoredExactly(l, ev, p);
  }

  lemma WaitsOn(l: Local, ev: Event, p: int, reply: Message)
    requires Inv(l) && Waits(l, p, reply) && ev != ParticipantRemoved(p)
    ensures Waits(Step(l, ev).local, p, reply)
  {
    hide Step, Inv;
    NothingCreated(l, ev, p);
    StateExactly(l, ev, p);
    StatusExactly(l, ev, p);
    StoredExactly(l, ev, p);
  }

  /** Neither side loses the other's status. */
  predicate KeepsStatus(ev: NetEvent, i: int, r: int) {
    && !(ev.at == i && ev.local == ParticipantRemoved(r))
    && !(ev.at == r && ev.local == ParticipantRemoved(i))
  }

  predicate Paired(w: World, i: int, r: int, final: Message, reply: Message) {
    i != r && i in w.locals && r in w.locals && Rests(w.locals[i], r, final) && Waits(w.locals[r], i, reply)
  }

  lemma {:induction false} StaysPaired(s: Air, h: seq<NetEvent>, i: int, r: int, final: Message, reply: Message)
    requires NetInv(s.w) && AirLegal(s, h) && Paired(s.w, i, r, final, reply)
    requires forall k :: 0 <= k < |h| ==> KeepsStatus(h[k], i, r)
    ensures Paired(AirAfter(s, h).w, i, r, final, reply)
    decreases |h|
  {
    if h != [] {
      var past, ev := h[..|h| - 1], h[|h| - 1];
      StaysPaired(s, past, i, r, final, reply);
      AirKeepsInv(s, past);
      var w := AirAfter(s, past).w;
      PairedStep(w, ev, i, r, final, reply);
    }
  }

  lemma PairedStep(w: World, ev: NetEvent, i: int, r: int, final: Message, reply: Message)
    requires NetInv(w) && Enabled(w, ev) && Paired(w, i, r, final, reply) && KeepsStatus(ev, i, r)
    ensures Paired(NetStep(w, ev), i, r, final, reply)
  {
    hide Step, Rests, Waits, Inv;
    assert LocalOk(w, ev.at);
    if ev.at == i { RestsOn(w.locals[i], ev.local, r, final); }
    if ev.at == r { WaitsOn(w.locals[r], ev.local, i, reply); }
  }

  // ----- recovery ---------------------------------------------------------------------------

  /** A handshake message of r reaches i while i's writer takes writes. */
  predicate Prompts(ev: NetEvent, i: int, r: int) {
    && ev.at == i && ev.local.StatelessMessage? && ev.local.m.id.prefix == r && ev.local.m.dest == i
    && ev.local.m.isHandshake && ev.local.a.writeOk
  }

  lemma PromptedFinalIsSent(s: Air, h: seq<NetEvent>, j: nat, i: int, r: int, final: Message, reply: Message)
    requires NetInv(s.w) && AirLegal(s, h) && Paired(s.w, i, r, final, reply)
    requires forall k :: 0 <= k < |h| ==> KeepsStatus(h[k], i, r)
    requires j < |h| && Prompts(h[j], i, r)
    ensures final in AirAfter(s, h).sent && IsMade(AirAfter(s, h).w.made, final)
  {
    hide Step, NetInv, Rests, Waits;
    AirPrefix(s, h, j);
    AirPrefix(s, h, j + 1);
    assert h[..j + 1][..j] == h[..j] && h[..j + 1][j] == h[j];
    StaysPaired(s, h[..j], i, r, final, reply);
    AirKeepsInv(s, h[..j]);
    FinalWritten(AirAfter(s, h[..j]), h[j], i, r, final);
    StaysPaired(s, h, i, r, final, reply);
    AirKeepsInv(s, h);
    StoredIsMade(AirAfter(s, h).w, i, r, final);
  }

  lemma FinalWritten(s: Air, ev: NetEvent, i: int, r: int, final: Message)
    requires NetInv(s.w) && AirEnabled(s, ev) && i in s.w.locals && Rests(s.w.locals[i], r, final) && Prompts(ev, i, r)
    ensures final in AirStep(s, ev).sent
  {
    hide Step, Inv;
    assert LocalOk(s.w, i);
    FinalIsRepeated(s.w.locals[i], ev.local.m, ev.local.a);
  }

  lemma StoredIsMade(w: World, i: int, r: int, final: Message)
    requires NetInv(w) && i in w.locals && Rests(w.locals[i], r, final)
    ensures IsMade(w.made, final) && final.kind == Final && final.id.prefix == i && final.dest == r
    ensures final.isHandshake && final.hasToken
  {
    assert LocalOk(w, i) && HoldsMade(w, i, r) && Sound(w.locals[i], r);
    assert WellMade(w.made, w.made[final.id]);
  }

  /** The plugin finds the token of the final good. */
  predicate TakesFinal(b: Answers) { b.processed == OkDone && !b.replyCreated }

  /** From any reachable state in which the initiator has completed and the responder waits
      with the reply that this final answers, whether or not the final was ever written or
      all its copies were lost: once any message of the responder reaches the initiator and
      its write succeeds, the final can be delivered, and its delivery completes the
      responder, unless that is done already or its reply has run out of resends. Anything
      else may happen in between, as long as neither loses the other's status. */
  lemma LostFinalIsRecovered(s: Air, past: seq<NetEvent>, h: seq<NetEvent>, j: nat, i: int, r: int, b: Answers)
    requires Initial(s.w) && AirLegal(s, past) && AirLegal(AirAfter(s, past), h)
    requires var w := AirAfter(s, past).w;
             && i != r && i in w.locals && r in w.locals
             && r in w.locals[i].auth && r in w.locals[i].states && w.locals[i].states[r] == CompletedWithFinalMessageSent
             && i in w.locals[r].auth && i in w.locals[r].states && w.locals[r].states[i] == PendingFinalMessage
             && i in w.locals[r].stored && r in w.locals[i].stored
             && w.locals[i].stored[r].msg.related == w.locals[r].stored[i].msg.id
    requires forall k :: 0 <= k < |h| ==> KeepsStatus(h[k], i, r)
    requires j < |h| && Prompts(h[j], i, r) && TakesFinal(b)
    ensures var final := AirAfter(s, past).w.locals[i].stored[r].msg;
            var end, ev := AirAfter(AirAfter(s, past), h), NetEvent(r, StatelessMessage(final, b));
            && r in end.w.locals && i in end.w.locals[r].states
            && (|| end.w.locals[r].states[i] == CompletedWithFinalMessageReceived
                || i !in end.w.locals[r].stored
                || (AirEnabled(end, ev) && CompletesAsResponder(end.w.locals[r], ev.local)))
  {
    hide Step, NetInv, Inv, AirLegal, AirAfter, CompletesAsResponder;
    InitialInv(s.w);
    AirKeepsInv(s, past);
    var v := AirAfter(s, past);
    var final, reply := v.w.locals[i].stored[r].msg, v.w.locals[r].stored[i].msg;
    assert Paired(v.w, i, r, final, reply);
    StaysPaired(v, h, i, r, final, reply);
    PromptedFinalIsSent(v, h, j, i, r, final, reply);
    AirKeepsInv(v, h);
    var end := AirAfter(v, h);
    StoredIsMade(end.w, i, r, final);
    IsItself(end.w, r);
    if i in end.w.locals[r].stored && end.w.locals[r].states[i] == PendingFinalMessage {
      FinalCompletes(end.w.locals[r], i, final, b);
    }
  }

  /** And the reply that prompts it can be had: a resend tick that the responder's writer
      takes makes the stored reply deliverable. */
  lemma WaitingReplyIsSent(s: Air, r: int, i: int, ok: set<int>)
    requires r in s.w.locals && i in ok && i in s.w.locals[r].stored
    requires i in s.w.locals[r].states && s.w.locals[r].states[i] == PendingFinalMessage
    ensures var ev := NetEvent(r, ResendTick(ok));
            AirEnabled(s, ev) && s.w.locals[r].stored[i].msg in AirStep(s, ev).sent
  {
    hide Step;
    WrittenExactly(s.w.locals[r], ResendTick(ok), s.w.locals[r].stored[i].msg);
  }

  lemma IsItself(w: World, p: int)
    requires NetInv(w) && p in w.locals
    ensures w.locals[p].me == p
  {
    assert LocalOk(w, p);
  }

  lemma FinalCompletes(l: Local, p: int, final: Message, b: Answers)
    requires p in l.states && l.states[p] == PendingFinalMessage && p in l.stored && final.related == l.stored[p].msg.id
    requires final.id.prefix == p && final.dest == l.me && final.isHandshake && final.hasToken && TakesFinal(b)
    ensures CompletesAsResponder(l, StatelessMessage(final, b))
  {
  }
}
