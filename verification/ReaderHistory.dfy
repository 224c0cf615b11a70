/** Which changes a reader hands on, told by the messages, matches and losses so far and by
    nothing that the reader keeps. */
module ReaderHistory {
  import opened Basics
  import NumberSets
  import Gaps
  import opened WriterProxies
  import opened Readers

  /** The writer is matched after the run. */
  ghost predicate Up(k: Kind, start: Link, h: seq<Event>)
    decreases |h|
  {
    if h == [] then start.Some?
    else
      match h[|h| - 1]
      case WriterMatched => !k.likeStateless || Up(k, start, h[..|h| - 1])
      case WriterLost => false
      case _ => Up(k, start, h[..|h| - 1])
  }

  /** The greatest heartbeat count that the match has seen; a new match has seen 0. */
  ghost function Mark(k: Kind, start: Link, h: seq<Event>): int
    decreases |h|
  {
    if h == [] then (if start.Some? then start.value.heartbeats else 0)
    else
      var past := h[..|h| - 1];
      match h[|h| - 1]
      case HeartbeatArrives(count, first) =>
        if k.reliable && Up(k, start, past) && count > Mark(k, start, past) then count else Mark(k, start, past)
      case WriterMatched => if Up(k, start, past) then Mark(k, start, past) else 0
      case _ => Mark(k, start, past)
  }

  /** The j-th event settles n: it arrives, a valid GAP covers or lists it, a heartbeat that
      counts has moved past it, or a new match begins after it. */
  ghost predicate SettlesAt(k: Kind, start: Link, h: seq<Event>, j: nat, n: int)
    requires j < |h|
  {
    var matched := Up(k, start, h[..j]);
    match h[j]
    case DataArrives(sn, now) => matched && sn == n
    case GapArrives(g, listed) =>
      matched && g.gapStart > 0 && g.gapList.base > 0 && NumberSets.Valid(g.gapList)
      && (g.gapStart <= n < g.gapList.base || n in listed)
    case HeartbeatArrives(count, first) => matched && k.reliable && count > Mark(k, start, h[..j]) && 0 <= n < first
    case WriterMatched => !matched && n < 1
    case WriterLost => false
  }

  ghost predicate NoLossFrom(h: seq<Event>, j: nat) { forall m :: j <= m < |h| ==> h[m] != WriterLost }

  /** Something since the match has settled n. */
  ghost predicate SettledSince(k: Kind, start: Link, h: seq<Event>, n: int) {
    || (NoLossFrom(h, 0) && start.Some? && (n < start.value.proxy.ackBase || n in start.value.proxy.changes))
    || exists j :: 0 <= j < |h| && SettlesAt(k, start, h, j, n) && NoLossFrom(h, j)
  }

  // ----- one event ------------------------------------------------------------------------

  /** What one event adds, with the link at hand. */
  ghost predicate Adds(k: Kind, l: Link, ev: Event, n: int) {
    match ev
    case DataArrives(sn, now) => l.Some? && sn == n
    case GapArrives(g, listed) => l.Some? && ValidGap(g) && (g.gapStart <= n < g.gapList.base || n in listed)
    case HeartbeatArrives(count, first) => HeartbeatCounts(k, l, count) && 0 <= n < first
    case WriterMatched => l.None? && n < 1
    case WriterLost => false
  }

  lemma StepAdds(k: Kind, l: Link, ev: Event, n: int)
    requires TightLink(l) && !k.likeStateless
    ensures SettledIn(Step(k, l, ev), n) <==> ev != WriterLost && (SettledIn(l, n) || Adds(k, l, ev, n))
  {
  }

  /** The link is there exactly when the writer is matched, and remembers the mark. */
  lemma {:induction false} LinkByHistory(k: Kind, start: Link, h: seq<Event>)
    requires TightLink(start) && !k.likeStateless
    ensures After(k, start, h).Some? <==> Up(k, start, h)
    ensures Up(k, start, h) ==> After(k, start, h).value.heartbeats == Mark(k, start, h)
    decreases |h|
  {
    if h != [] { LinkByHistory(k, start, h[..|h| - 1]); }
  }

  lemma AddsIffSettlesAt(k: Kind, start: Link, h: seq<Event>, n: int)
    requires TightLink(start) && !k.likeStateless && h != []
    ensures var past := h[..|h| - 1];
            Adds(k, After(k, start, past), h[|h| - 1], n) <==> SettlesAt(k, start, h, |h| - 1, n)
  {
    LinkByHistory(k, start, h[..|h| - 1]);
  }

  lemma SettlesAtPrefix(k: Kind, start: Link, h: seq<Event>, j: nat, n: int)
    requires h != [] && j < |h| - 1
    ensures SettlesAt(k, start, h[..|h| - 1], j, n) <==> SettlesAt(k, start, h, j, n)
  {
    assert h[..|h| - 1][..j] == h[..j];
  }

  /** Settled before the last event, and that one is no loss; or the last event settles. */
  lemma SinceUnfolds(k: Kind, start: Link, h: seq<Event>, n: int)
    requires h != []
    ensures SettledSince(k, start, h, n)
            <==> h[|h| - 1] != WriterLost
                 && (SettledSince(k, start, h[..|h| - 1], n) || SettlesAt(k, start, h, |h| - 1, n))
  {
    hide SettlesAt;
    var past := h[..|h| - 1];
    if SettledSince(k, start, h, n) {
      if exists j :: 0 <= j < |h| && SettlesAt(k, start, h, j, n) && NoLossFrom(h, j) {
        var j :| 0 <= j < |h| && SettlesAt(k, start, h, j, n) && NoLossFrom(h, j);
        if j < |h| - 1 {
          SettlesAtPrefix(k, start, h, j, n);
          assert NoLossFrom(past, j);
        }
      } else {
        assert NoLossFrom(past, 0);
      }
    }
    if h[|h| - 1] != WriterLost {
      if SettlesAt(k, start, h, |h| - 1, n) {
        assert NoLossFrom(h, |h| - 1);
      }
      if exists j :: 0 <= j < |past| && SettlesAt(k, start, past, j, n) && NoLossFrom(past, j) {
        var j :| 0 <= j < |past| && SettlesAt(k, start, past, j, n) && NoLossFrom(past, j);
        SettlesAtPrefix(k, start, h, j, n);
        assert NoLossFrom(h, j);
      }
      if NoLossFrom(past, 0) { assert NoLossFrom(h, 0); }
    }
  }

  // ----- over runs -----------------------------------------------------------------------------

  /** In every run from any start the settled numbers are exactly those that the events
      since the match have settled. */
  lemma {:induction false} SettledByHistory(k: Kind, start: Link, h: seq<Event>, n: int)
    requires TightLink(start) && !k.likeStateless
    ensures SettledIn(After(k, start, h), n) <==> SettledSince(k, start, h, n)
    decreases |h|
  {
    hide Step, SettlesAt, Adds, SettledIn;
    if h == [] {
      NothingYet(k, start, n);
    } else {
      var past := h[..|h| - 1];
      SettledByHistory(k, start, past, n);
      StepAdds(k, After(k, start, past), h[|h| - 1], n);
      AddsIffSettlesAt(k, start, h, n);
      SinceUnfolds(k, start, h, n);
    }
  }

  lemma NothingYet(k: Kind, start: Link, n: int)
    ensures SettledIn(start, n) <==> SettledSince(k, start, [], n)
  {
  }

  /** The reader hands change sn on after the run: a stateless reader always; a matched
      writer's change if nothing since the match has settled it, or the reader is the
      participant reader; an unmatched writer's unless it is user data. */
  ghost predicate Due(k: Kind, start: Link, h: seq<Event>, sn: int) {
    || k.likeStateless
    || (if Up(k, start, h) then k.isParticipantReader || !SettledSince(k, start, h, sn) else !k.writerIsUserDefined)
  }

  /** In every run from any start the i-th event hands sn on exactly if it is an arrival of
      sn that is due; with a proxy the change is then recorded with its arrival time. */
  lemma HandedOnIff(k: Kind, start: Link, h: seq<Event>, i: nat, sn: int)
    requires TightLink(start) && i < |h|
    ensures HandsOn(k, start, h, i, sn) <==> h[i].DataArrives? && h[i].sn == sn && Due(k, start, h[..i], sn)
    ensures HandsOn(k, start, h, i, sn) && !k.likeStateless && Up(k, start, h[..i]) ==>
              var l := After(k, start, h[..i + 1]);
              l.Some? && sn in l.value.proxy.changes && l.value.proxy.changes[sn] == Some(h[i].now)
  {
    if !k.likeStateless {
      LinkByHistory(k, start, h[..i]);
      SettledByHistory(k, start, h[..i], sn);
      assert h[..i + 1][..i] == h[..i];
    }
  }
}
