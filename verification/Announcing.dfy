/** The periodic liveliness announcements of a participant (RTPS 2.5, section 8.4.13.5):
    when automatic and manual messages are sent, and what that guarantees over time. */
module Announcing {
  import opened Basics
  import opened Qos

  const TWO63 := 0x8000_0000_0000_0000
  const TWO64 := 0x1_0000_0000_0000_0000

  /** The difference of two 64-bit time stamps, in units of 2^-32 seconds. */
  function Elapsed(now: int, since: int): int { (now - since + TWO63) % TWO64 - TWO63 }

  lemma ElapsedIsDifference(now: int, since: int)
    requires -TWO63 <= now - since < TWO63
    ensures Elapsed(now, since) == now - since
  {
  }

  /** It is the difference less a multiple of 2^64 that leaves it below 2^63. */
  lemma ElapsedWraps(now: int, since: int, k: int)
    requires -0x8000_0000_0000_0000 <= now - since - k * 0x1_0000_0000_0000_0000 < 0x8000_0000_0000_0000
    ensures Elapsed(now, since) == now - since - k * 0x1_0000_0000_0000_0000
  {
    var x := now - since + TWO63;
    assert x == k * TWO64 + (x - k * TWO64) && 0 <= x - k * TWO64 < TWO64;
  }

  function LeaseTicks(d: Duration): int { d.seconds * 0x1_0000_0000 + d.fraction }

  /** Half, with the division of the source, which rounds towards zero. */
  function Half(ticks: int): int { if ticks >= 0 then ticks / 2 else -(-ticks / 2) }

  /** The state between ticks of the timer. */
  datatype State = State(lastAuto: int, manualRequested: bool)

  datatype Kind = AutomaticUpdate | ManualUpdate

  /** The shortest lease among the writers with automatic liveliness. */
  ghost predicate IsShortest(m: Option<int>, writers: seq<Liveliness>) {
    match m
    case None => forall i :: 0 <= i < |writers| ==> !writers[i].Automatic?
    case Some(t) =>
      && (exists i :: 0 <= i < |writers| && writers[i].Automatic?
                      && writers[i].lease.seconds * 0x1_0000_0000 + writers[i].lease.fraction == t)
      && (forall i :: 0 <= i < |writers| && writers[i].Automatic? ==>
                        t <= writers[i].lease.seconds * 0x1_0000_0000 + writers[i].lease.fraction)
  }

  lemma ShortestIsUnique(m: Option<int>, writers: seq<Liveliness>)
    requires IsShortest(m, writers)
    ensures m == Shortest(writers)
  {
    ShortestIsShortest(writers);
  }

  function Shortest(writers: seq<Liveliness>): Option<int>
    decreases |writers|
  {
    if writers == [] then None
    else
      var m, w := Shortest(writers[..|writers| - 1]), writers[|writers| - 1];
      if !w.Automatic? then m
      else if m.None? then Some(LeaseTicks(w.lease)) else Some(Min(m.value, LeaseTicks(w.lease)))
  }

  lemma {:induction false} ShortestIsShortest(writers: seq<Liveliness>)
    ensures IsShortest(Shortest(writers), writers)
    decreases |writers|
  {
    if writers != [] {
      var past, w := writers[..|writers| - 1], writers[|writers| - 1];
      ShortestIsShortest(past);
      var m := Shortest(past);
      if w.Automatic? && (m.None? || LeaseTicks(w.lease) <= m.value) {
        assert writers[|writers| - 1].Automatic?;
      } else if m.Some? {
        var i :| 0 <= i < |past| && past[i].Automatic? && LeaseTicks(past[i].lease) == m.value;
        assert writers[i] == past[i];
      }
      forall i | 0 <= i < |writers| - 1 ensures writers[i] == past[i] {}
    }
  }

  predicate AutoDue(s: State, shortest: Option<int>, now: int) {
    shortest.Some? && Elapsed(now, s.lastAuto) > Half(shortest.value)
  }

  datatype Event =
    | TimerTick(now: int, writers: seq<Liveliness>, autoOk: bool, manualOk: bool)   // whether the writes succeed
    | ManualAssert

  function Step(s: State, ev: Event): State {
    match ev
    case ManualAssert => s.(manualRequested := true)
    case TimerTick(now, writers, autoOk, manualOk) =>
      State(if AutoDue(s, Shortest(writers), now) && autoOk then now else s.lastAuto, s.manualRequested && !manualOk)
  }

  /** The messages offered to the writer at an event. */
  function Offers(s: State, ev: Event): seq<Kind> {
    if ev.ManualAssert? then []
    else (if AutoDue(s, Shortest(ev.writers), ev.now) then [AutomaticUpdate] else [])
         + (if s.manualRequested then [ManualUpdate] else [])
  }

  function After(s: State, h: seq<Event>): State
    decreases |h|
  {
    if h == [] then s else Step(After(s, h[..|h| - 1]), h[|h| - 1])
  }

  // ----- the object ----------------------------------------------------------------------

  class LivelinessState {
    var lastAutoUpdate: int
    var manualRefreshRequested: bool

    constructor (now: int)
      ensures View() == State(now, false)
    {
      lastAutoUpdate, manualRefreshRequested := now, false;
    }

    function View(): State
      reads this
    {
      State(lastAutoUpdate, manualRefreshRequested)
    }

    method RequestManual()
      modifies this
      ensures View() == Step(old(View()), ManualAssert)
    {
      manualRefreshRequested := true;
    }

    /** Collects the messages that are due, then writes them one by one. */
    method WriteParticipantMessage(now: int, writers: seq<Liveliness>, autoOk: bool, manualOk: bool) returns (messages: seq<Kind>)
      modifies this
      ensures var ev := TimerTick(now, writers, autoOk, manualOk);
              View() == Step(old(View()), ev) && messages == Offers(old(View()), ev)
    {
      var shortest := ShortestAutomaticLease(writers);
      messages := [];
      if shortest.Some? {
        if Elapsed(now, lastAutoUpdate) > Half(shortest.value) {
          messages := messages + [AutomaticUpdate];
        }
      }
      if manualRefreshRequested {
        messages := messages + [ManualUpdate];
      }
      for i := 0 to |messages|
        invariant lastAutoUpdate == if AutomaticUpdate in messages[..i] && autoOk then now else old(lastAutoUpdate)
        invariant manualRefreshRequested == (old(manualRefreshRequested) && !(ManualUpdate in messages[..i] && manualOk))
      {
        assert messages[..i + 1] == messages[..i] + [messages[i]];
        match messages[i]
        case AutomaticUpdate => if autoOk { lastAutoUpdate := now; }
        case ManualUpdate => if manualOk { manualRefreshRequested := false; }
      }
      assert messages[..|messages|] == messages;
    }
  }

  method ShortestAutomaticLease(writers: seq<Liveliness>) returns (m: Option<int>)
    ensures m == Shortest(writers) && IsShortest(m, writers)
  {
    m := None;
    for i := 0 to |writers|
      invariant m == Shortest(writers[..i])
    {
      assert writers[..i + 1][..i] == writers[..i] && writers[..i + 1][i] == writers[i];
      if writers[i].Automatic? {
        var t := LeaseTicks(writers[i].lease);
        if m.None? || t < m.value { m := Some(t); }
      }
    }
    assert writers[..|writers|] == writers;
    ShortestIsShortest(writers);
  }

  // ----- over time ---------------------------------------------------------------------------

  /** The time of the last tick, or the start if there was none. */
  function LastTick(start: int, h: seq<Event>): int
    decreases |h|
  {
    if h == [] then start
    else if h[|h| - 1].TimerTick? then h[|h| - 1].now else LastTick(start, h[..|h| - 1])
  }

  /** Ticks come in order, within 2^31 seconds of the start, and every automatic message
      that is offered is written. */
  ghost predicate Regular(s: State, h: seq<Event>)
    decreases |h|
  {
    h == [] ||
    var past, ev := h[..|h| - 1], h[|h| - 1];
    Regular(s, past) && (ev.TimerTick? ==> LastTick(s.lastAuto, past) <= ev.now < s.lastAuto + TWO63 && ev.autoOk)
  }

  lemma {:induction false} LastAutoInOrder(s: State, h: seq<Event>)
    requires Regular(s, h)
    ensures s.lastAuto <= After(s, h).lastAuto <= LastTick(s.lastAuto, h)
    decreases |h|
  {
    if h != [] { LastAutoInOrder(s, h[..|h| - 1]); }
  }

  /** The time of the last automatic message written, as the messages themselves tell. */
  ghost function LastSent(s: State, h: seq<Event>): int
    decreases |h|
  {
    if h == [] then s.lastAuto
    else
      var past, ev := h[..|h| - 1], h[|h| - 1];
      if AutomaticUpdate in Offers(After(s, past), ev) && ev.autoOk then ev.now else LastSent(s, past)
  }

  lemma {:induction false} LastAutoIsLastSent(s: State, h: seq<Event>)
    ensures After(s, h).lastAuto == LastSent(s, h)
    decreases |h|
  {
    if h != [] { LastAutoIsLastSent(s, h[..|h| - 1]); }
  }

  /** The last tick of a run, with the state it found. */
  ghost predicate EndsWithTick(h: seq<Event>) { h != [] && h[|h| - 1].TimerTick? }

  lemma QuietAfterTick(s: State, h: seq<Event>, lease: int)
    requires Regular(s, h) && EndsWithTick(h) && IsShortest(Some(lease), h[|h| - 1].writers) && lease >= 0
    ensures h[|h| - 1].now - After(s, h).lastAuto <= lease / 2
  {
    var past, ev := h[..|h| - 1], h[|h| - 1];
    ShortestIsUnique(Some(lease), ev.writers);
    LastAutoInOrder(s, past);
    ElapsedIsDifference(ev.now, After(s, past).lastAuto);
  }

  /** At any time up to one period P after a tick, manual requests coming in between or
      not, the last automatic message is at most half the shortest lease plus P old. */
  lemma {:induction false} NeverSilentTooLong(s: State, h: seq<Event>, more: seq<Event>, lease: int, period: nat, t: int)
    requires Regular(s, h) && EndsWithTick(h) && IsShortest(Some(lease), h[|h| - 1].writers) && lease >= 0
    requires forall i :: 0 <= i < |more| ==> more[i].ManualAssert?
    requires h[|h| - 1].now <= t <= h[|h| - 1].now + period
    ensures t - LastSent(s, h + more) <= lease / 2 + period
    decreases |more|
  {
    if more == [] {
      assert h + more == h;
      QuietAfterTick(s, h, lease);
      LastAutoIsLastSent(s, h);
    } else {
      var all, fewer := h + more, more[..|more| - 1];
      assert all[..|all| - 1] == h + fewer && all[|all| - 1] == more[|more| - 1];
      NeverSilentTooLong(s, h, fewer, lease, period, t);
    }
  }

  /** In every run a tick offers an automatic message exactly if there is a writer with
      automatic liveliness and the last message is more than half the shortest lease old. */
  lemma AutomaticOfferedIff(s: State, h: seq<Event>, ev: Event, m: Option<int>)
    requires ev.TimerTick? && IsShortest(m, ev.writers) && -TWO63 <= ev.now - LastSent(s, h) < TWO63
    ensures AutomaticUpdate in Offers(After(s, h), ev)
            <==> m.Some? && 2 * (ev.now - LastSent(s, h)) > m.value + if m.value < 0 then 1 else 0
  {
    ShortestIsUnique(m, ev.writers);
    LastAutoIsLastSent(s, h);
    ElapsedIsDifference(ev.now, LastSent(s, h));
  }

  /** The i-th event writes an automatic message. */
  ghost predicate SentAt(s: State, h: seq<Event>, i: nat)
    requires i < |h|
  {
    h[i].TimerTick? && AutomaticUpdate in Offers(After(s, h[..i]), h[i]) && h[i].autoOk
  }

  lemma {:induction false} LastSentWasAt(s: State, h: seq<Event>, i: nat, j: nat)
    requires i < j <= |h| && SentAt(s, h, i) && forall k :: i < k < j ==> !SentAt(s, h, k)
    ensures LastSent(s, h[..j]) == h[i].now
    decreases j
  {
    assert h[..j][..j - 1] == h[..j - 1];
    if i < j - 1 {
      LastSentWasAt(s, h, i, j - 1);
      assert !SentAt(s, h, j - 1);
    }
  }

  /** Two consecutive automatic messages are more than half the shortest lease apart. */
  lemma AutomaticMessagesAreApart(s: State, h: seq<Event>, i: nat, j: nat, lease: int)
    requires i < j < |h| && SentAt(s, h, i) && SentAt(s, h, j) && forall k :: i < k < j ==> !SentAt(s, h, k)
    requires IsShortest(Some(lease), h[j].writers) && -TWO63 <= h[j].now - h[i].now < TWO63
    ensures 2 * (h[j].now - h[i].now) > lease
  {
    LastSentWasAt(s, h, i, j);
    AutomaticOfferedIff(s, h[..j], h[j], Some(lease));
  }

  /** A manual request stays set, and is offered at every tick, until a write succeeds. */
  lemma {:induction false} ManualRequestStays(s: State, h: seq<Event>)
    requires s.manualRequested && forall i :: 0 <= i < |h| && h[i].TimerTick? ==> !h[i].manualOk
    ensures After(s, h).manualRequested
    ensures forall ev: Event :: ev.TimerTick? ==> ManualUpdate in Offers(After(s, h), ev)
    decreases |h|
  {
    if h != [] { ManualRequestStays(s, h[..|h| - 1]); }
  }

  /** A request made by event i, or before the run if i is -1, that no write has served since. */
  ghost predicate Unserved(s: State, h: seq<Event>, i: int) {
    && (if i == -1 then s.manualRequested else 0 <= i < |h| && h[i].ManualAssert?)
    && forall j :: 0 <= j < |h| && i < j && h[j].TimerTick? ==> !h[j].manualOk
  }

  ghost predicate SomeUnserved(s: State, h: seq<Event>) { exists i :: Unserved(s, h, i) }

  lemma UnservedUnfolds(s: State, h: seq<Event>)
    requires h != []
    ensures var ev := h[|h| - 1];
            SomeUnserved(s, h) <==> ev.ManualAssert? || (!ev.manualOk && SomeUnserved(s, h[..|h| - 1]))
  {
    var past, ev := h[..|h| - 1], h[|h| - 1];
    if ev.ManualAssert? {
      assert Unserved(s, h, |h| - 1);
    } else {
      if SomeUnserved(s, h) {
        var i :| Unserved(s, h, i);
        assert Unserved(s, past, i);
      }
      if !ev.manualOk && SomeUnserved(s, past) {
        var i :| Unserved(s, past, i);
        assert Unserved(s, h, i);
      }
    }
  }

  lemma {:induction false} RequestedIffUnserved(s: State, h: seq<Event>)
    ensures After(s, h).manualRequested <==> SomeUnserved(s, h)
    decreases |h|
  {
    hide Unserved, SomeUnserved, AutoDue, Shortest;
    if h == [] {
      NothingServedYet(s);
    } else {
      RequestedIffUnserved(s, h[..|h| - 1]);
      UnservedUnfolds(s, h);
    }
  }

  lemma NothingServedYet(s: State)
    ensures SomeUnserved(s, []) <==> s.manualRequested
  {
    assert s.manualRequested <==> Unserved(s, [], -1);
  }

  /** In every run a tick offers a manual message exactly if some request is unserved. */
  lemma ManualOfferedIff(s: State, h: seq<Event>, ev: Event)
    requires ev.TimerTick?
    ensures ManualUpdate in Offers(After(s, h), ev) <==> exists i :: Unserved(s, h, i)
  {
    hide Unserved, AutoDue, Shortest;
    RequestedIffUnserved(s, h);
  }

  /** And no manual message is ever offered without a request that was not yet served. */
  lemma {:induction false} ManualNeedsRequest(s: State, h: seq<Event>) returns (i: int)
    requires After(s, h).manualRequested
    ensures (i == -1 && s.manualRequested) || (0 <= i < |h| && h[i].ManualAssert?)
    ensures forall j :: i < j < |h| && h[j].TimerTick? ==> !h[j].manualOk
    decreases |h|
  {
    if h == [] {
      i := -1;
    } else if h[|h| - 1].ManualAssert? {
      i := |h| - 1;
    } else {
      i := ManualNeedsRequest(s, h[..|h| - 1]);
    }
  }
}
