/** A reader and one remote writer: which changes are handed on to the application, by
    the kind of reader, over every run of messages, matches and losses. */
module Readers {
  import opened Basics
  import opened NumberSets
  import opened Gaps
  import opened WriterProxies

  /** What decides about incoming data besides the proxy. */
  datatype Kind = Kind(likeStateless: bool, isParticipantReader: bool, reliable: bool, writerIsUserDefined: bool)

  /** The proxy of a matched writer and the last heartbeat count seen from it. */
  datatype Match = Match(proxy: Proxy, heartbeats: int)

  type Link = Option<Match>

  const NewMatch := Match(NewProxy, 0)

  datatype Event =
    | DataArrives(sn: int, now: int)
    | GapArrives(gap: Gap, listed: seq<int>)
    | HeartbeatArrives(count: int, first: int)
    | WriterMatched
    | WriterLost

  predicate TightLink(l: Link) { l.Some? ==> Tight(l.value.proxy) }

  predicate SettledIn(l: Link, n: int) { l.Some? && Settled(l.value.proxy, n) }

  /** A stateless reader hands everything on; the participant reader takes duplicates;
      without a proxy only discovery traffic goes through. */
  predicate Accepts(k: Kind, l: Link, sn: int) {
    || k.likeStateless
    || (if l.Some? then !Settled(l.value.proxy, sn) || k.isParticipantReader else !k.writerIsUserDefined)
  }

  predicate HeartbeatCounts(k: Kind, l: Link, count: int) {
    k.reliable && !k.likeStateless && l.Some? && count > l.value.heartbeats
  }

  ghost function Step(k: Kind, l: Link, ev: Event): (r: Link)
    requires TightLink(l)
    ensures TightLink(r)
    ensures ev != WriterLost ==> forall n :: SettledIn(l, n) ==> SettledIn(r, n)
  {
    match ev
    case DataArrives(sn, now) =>
      if l.Some? && !k.likeStateless && Accepts(k, l, sn)
      then Some(l.value.(proxy := ReceivedAdd(l.value.proxy, sn, now))) else l
    case GapArrives(g, listed) =>
      if l.Some? && !k.likeStateless then
        AfterGapSettles(l.value.proxy, g, listed);
        Some(l.value.(proxy := AfterGap(l.value.proxy, g, listed)))
      else l
    case HeartbeatArrives(count, first) =>
      if HeartbeatCounts(k, l, count) then Some(Match(IrrelevantRange(l.value.proxy, 0, first), count)) else l
    case WriterMatched => if l.None? && !k.likeStateless then Some(NewMatch) else l
    case WriterLost => None
  }

  lemma AfterGapSettles(p: Proxy, g: Gap, listed: seq<int>)
    requires Tight(p)
    ensures forall n :: Settled(p, n) ==> Settled(AfterGap(p, g, listed), n)
  {
  }

  /** The link after a run from any start. */
  ghost function After(k: Kind, start: Link, h: seq<Event>): (l: Link)
    requires TightLink(start)
    ensures TightLink(l)
    decreases |h|
  {
    if h == [] then start else Step(k, After(k, start, h[..|h| - 1]), h[|h| - 1])
  }

  /** The i-th event of the run hands change sn on. */
  ghost predicate HandsOn(k: Kind, start: Link, h: seq<Event>, i: nat, sn: int)
    requires TightLink(start) && i < |h|
  {
    h[i].DataArrives? && h[i].sn == sn && Accepts(k, After(k, start, h[..i]), sn)
  }

  // ----- what stays ---------------------------------------------------------------------

  /** What is settled stays settled until the writer is lost, duplicates or not. */
  lemma {:induction false} SettledStays(k: Kind, start: Link, h: seq<Event>, i: nat, j: nat, n: int)
    requires TightLink(start) && i <= j <= |h| && SettledIn(After(k, start, h[..i]), n)
    requires forall m :: i <= m < j ==> h[m] != WriterLost
    ensures SettledIn(After(k, start, h[..j]), n)
    decreases j
  {
    if i < j {
      SettledStays(k, start, h, i, j - 1, n);
      assert h[..j][..j - 1] == h[..j - 1];
    }
  }

  /** In every run the acknowledgement base is the least number that is not settled. */
  lemma AckBaseIsLeastUnsettled(k: Kind, start: Link, h: seq<Event>, n: int)
    requires TightLink(start) && After(k, start, h).Some?
    ensures var p := After(k, start, h).value.proxy;
            !Settled(p, p.ackBase) && (!Settled(p, n) ==> p.ackBase <= n)
  {
  }

  /** The record of a received change after any event: only a duplicate at the
      participant reader renews it, only a GAP over it or a heartbeat past it takes it
      away, and it goes with the writer. */
  ghost predicate Takes(k: Kind, m: Match, ev: Event, n: int)
    requires n in m.proxy.changes
  {
    match ev
    case DataArrives(sn, now) =>
      !k.likeStateless && k.isParticipantReader && sn == n && m.proxy.changes[n] != Some(now)
    case GapArrives(g, listed) => !k.likeStateless && GapErases(m.proxy, g, listed, n)
    case HeartbeatArrives(count, first) => HeartbeatCounts(k, Some(m), count) && 0 <= n < first
    case WriterMatched => false
    case WriterLost => true
  }

  lemma StepKeepsRecordIff(k: Kind, m: Match, ev: Event, n: int)
    requires Tight(m.proxy) && IsReceived(m.proxy, n)
    ensures (Step(k, Some(m), ev).Some? && Kept(m.proxy, Step(k, Some(m), ev).value.proxy, n)) <==> !Takes(k, m, ev, n)
  {
    match ev
    case DataArrives(sn, now) =>
    case GapArrives(g, listed) => GapKeepsIff(m.proxy, g, listed, n);
    case HeartbeatArrives(count, first) => RangeKeepsIff(m.proxy, 0, first, n);
    case WriterMatched =>
    case WriterLost =>
  }

  /** A heartbeat that moves past a received change drops its record. */
  lemma HeartbeatTakesReceived(k: Kind)
    requires k.reliable && !k.likeStateless
    ensures var m := Match(ReceivedAdd(NewProxy, 3, 7), 0);
            && m.proxy.changes[3] == Some(7)
            && var l := Step(k, Some(m), HeartbeatArrives(1, 4)); l.Some? && 3 !in l.value.proxy.changes
  {
  }

  // ----- how often a change is handed on ---------------------------------------------------

  /** No match and no loss in the run. */
  ghost predicate Steady(h: seq<Event>) { forall m :: 0 <= m < |h| ==> h[m] != WriterMatched && h[m] != WriterLost }

  ghost predicate AtMostOnce(k: Kind, start: Link)
    requires TightLink(start)
  {
    forall h: seq<Event>, i: nat, j: nat, sn: int ::
      Steady(h) && i < j < |h| && HandsOn(k, start, h, i, sn) ==> !HandsOn(k, start, h, j, sn)
  }

  /** A stateful reader other than the participant reader that has a proxy for the
      writer; or one without, to which user data is then not handed on at all. */
  predicate Guards(k: Kind, start: Link) {
    !k.likeStateless && if start.Some? then !k.isParticipantReader else k.writerIsUserDefined
  }

  /** A settled change is not handed on while the writer stays matched. */
  lemma SettledIsNotHandedOn(k: Kind, start: Link, h: seq<Event>, i: nat, j: nat, sn: int)
    requires TightLink(start) && !k.likeStateless && !k.isParticipantReader
    requires i <= j < |h| && SettledIn(After(k, start, h[..i]), sn) && forall m :: i <= m < j ==> h[m] != WriterLost
    ensures !HandsOn(k, start, h, j, sn)
  {
    SettledStays(k, start, h, i, j, sn);
  }

  /** Handed on through a proxy, a change is settled. */
  lemma HandedOnIsSettled(k: Kind, start: Link, h: seq<Event>, i: nat, sn: int)
    requires TightLink(start) && !k.likeStateless && i < |h| && HandsOn(k, start, h, i, sn)
    requires After(k, start, h[..i]).Some?
    ensures SettledIn(After(k, start, h[..i + 1]), sn)
  {
    assert h[..i + 1][..i] == h[..i];
  }

  /** In every run, with any matches and losses: a change that such a reader hands on
      twice was handed on the second time after the writer had been lost. */
  lemma HandedOnAgainAfterLoss(k: Kind, start: Link, h: seq<Event>, i: nat, j: nat, sn: int)
    requires TightLink(start) && !k.likeStateless && !k.isParticipantReader && i < j < |h|
    requires After(k, start, h[..i]).Some? && HandsOn(k, start, h, i, sn) && HandsOn(k, start, h, j, sn)
    ensures exists m :: i < m < j && h[m] == WriterLost
  {
    HandedOnIsSettled(k, start, h, i, sn);
    if forall m :: i < m < j ==> h[m] != WriterLost {
      SettledIsNotHandedOn(k, start, h, i + 1, j, sn);
    }
  }

  /** Without matches and losses the link does not come or go. */
  lemma {:induction false} SteadyLink(k: Kind, start: Link, h: seq<Event>)
    requires TightLink(start) && Steady(h)
    ensures After(k, start, h).Some? <==> start.Some?
    decreases |h|
  {
    if h != [] { SteadyLink(k, start, h[..|h| - 1]); }
  }

  lemma GuardsOnce(k: Kind, start: Link, h: seq<Event>, i: nat, j: nat, sn: int)
    requires TightLink(start) && Guards(k, start) && Steady(h) && i < j < |h| && HandsOn(k, start, h, i, sn)
    ensures !HandsOn(k, start, h, j, sn)
  {
    SteadyLink(k, start, h[..i]);
    if start.Some? && HandsOn(k, start, h, j, sn) {
      HandedOnAgainAfterLoss(k, start, h, i, j, sn);
    }
  }

  /** The run of one change arriving twice. */
  lemma UnguardedTwice(k: Kind, start: Link, h: seq<Event>, sn: int)
    requires TightLink(start) && !Guards(k, start)
    requires sn == (if start.Some? then start.value.proxy.ackBase else 1) && h == [DataArrives(sn, 0), DataArrives(sn, 0)]
    ensures Steady(h) && HandsOn(k, start, h, 0, sn) && HandsOn(k, start, h, 1, sn)
  {
    assert h[..0] == [] && h[..1] == [h[0]] && h[..1][..0] == [];
    assert After(k, start, h[..1]) == Step(k, start, h[0]);
  }

  /** Whatever the start, a change is handed on at most once in every run without matches
      and losses if and only if the reader guards against duplicates. */
  lemma AtMostOnceIff(k: Kind, start: Link)
    requires TightLink(start)
    ensures AtMostOnce(k, start) <==> Guards(k, start)
  {
    if Guards(k, start) {
      forall h: seq<Event>, i: nat, j: nat, sn: int
        | Steady(h) && i < j < |h| && HandsOn(k, start, h, i, sn)
        ensures !HandsOn(k, start, h, j, sn)
      {
        GuardsOnce(k, start, h, i, j, sn);
      }
    } else {
      var sn := if start.Some? then start.value.proxy.ackBase else 1;
      UnguardedTwice(k, start, [DataArrives(sn, 0), DataArrives(sn, 0)], sn);
    }
  }

  /** The participant reader hands number 1 of a fresh writer on twice. */
  lemma ParticipantReaderTakesDuplicates(k: Kind, h: seq<Event>)
    requires !k.likeStateless && k.isParticipantReader && h == [DataArrives(1, 5), DataArrives(1, 6)]
    ensures HandsOn(k, Some(NewMatch), h, 0, 1) && HandsOn(k, Some(NewMatch), h, 1, 1)
    ensures SettledIn(After(k, Some(NewMatch), h[..1]), 1)
  {
    assert h[..0] == [] && h[..1] == [h[0]] && h[..1][..0] == [];
    assert After(k, Some(NewMatch), h[..1]) == Step(k, Some(NewMatch), h[0]);
  }

  /** Even a guarding reader hands a change on again when the writer was lost and is
      matched anew, with a fresh proxy. */
  lemma RematchHandsOnAgain(k: Kind, h: seq<Event>)
    requires Guards(k, Some(NewMatch))
    requires h == [DataArrives(1, 5), WriterLost, WriterMatched, DataArrives(1, 6)]
    ensures HandsOn(k, Some(NewMatch), h, 0, 1) && HandsOn(k, Some(NewMatch), h, 3, 1)
  {
    assert h[..0] == [] && h[..3][..2] == h[..2] && h[..2][..1] == h[..1];
    assert After(k, Some(NewMatch), h[..2]) == Step(k, After(k, Some(NewMatch), h[..1]), WriterLost) == None;
    assert After(k, Some(NewMatch), h[..3]) == Step(k, None, WriterMatched) == Some(NewMatch);
  }

  // ----- the imperative form ------------------------------------------------------------------

  class Reader {
    const kind: Kind
    var matched: RtpsWriterProxy?

    ghost function View(): Link
      reads this, matched
    {
      if matched == null then None else Some(Match(matched.View(), matched.receivedHeartbeatCount))
    }

    ghost predicate Valid()
      reads this, matched
    {
      TightLink(View())
    }

    constructor (kind: Kind)
      ensures this.kind == kind && View() == None && Valid()
    {
      this.kind, matched := kind, null;
    }

    method ProcessReceivedData(sn: int, now: int) returns (handedOn: bool)
      requires Valid()
      modifies matched
      ensures Valid() && matched == old(matched) && View() == Step(kind, old(View()), DataArrives(sn, now))
      ensures handedOn <==> Accepts(kind, old(View()), sn)
      ensures handedOn && !kind.likeStateless && matched != null ==> sn in matched.changes && matched.changes[sn] == Some(now)
    {
      handedOn := true;
      if !kind.likeStateless {
        if matched != null {
          var ignore := matched.ShouldIgnoreChange(sn);
          if ignore && !kind.isParticipantReader { return false; }
          matched.ReceivedChangesAdd(sn, now);
        } else if kind.writerIsUserDefined {
          return false;
        }
      }
    }

    method HandleGap(g: Gap) returns (ghost listed: seq<int>)
      requires Valid() && NumberSets.Valid(g.gapList)
      modifies matched
      ensures Valid() && matched == old(matched) && View() == Step(kind, old(View()), GapArrives(g, listed))
      ensures !kind.likeStateless && matched != null ==> StrictlyAscending(listed) && forall x :: x in listed <==> Contains(g.gapList, x)
    {
      listed := [];
      if kind.likeStateless || matched == null { return; }
      listed := matched.HandleGap(g);
    }

    method HandleHeartbeat(count: int, first: int)
      requires Valid()
      modifies matched
      ensures Valid() && matched == old(matched) && View() == Step(kind, old(View()), HeartbeatArrives(count, first))
    {
      if !kind.reliable || kind.likeStateless || matched == null { return; }
      if count <= matched.receivedHeartbeatCount { return; }
      matched.receivedHeartbeatCount := count;
      matched.IrrelevantChangesRange(0, first);
    }

    method UpdateWriterProxy()
      requires Valid()
      modifies this
      ensures Valid() && View() == Step(kind, old(View()), WriterMatched)
    {
      if !kind.likeStateless && matched == null {
        matched := new RtpsWriterProxy();
      }
    }

    method RemoveWriterProxy()
      requires Valid()
      modifies this
      ensures Valid() && View() == Step(kind, old(View()), WriterLost)
    {
      matched := null;
    }
  }
}
