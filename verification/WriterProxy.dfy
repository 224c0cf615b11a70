/** A reader's record of one remote writer: which sequence numbers are settled,
    that is, received or declared irrelevant (RTPS 2.5, section 8.4.10.4). */
module WriterProxies {
  import opened Basics
  import opened NumberSets
  import opened Gaps

  /** In `changes`, Some(t) is a change received at t and None one that is not available. */
  datatype Proxy = Proxy(ackBase: int, changes: map<int, Option<int>>)

  const NewProxy := Proxy(1, map[])

  predicate Settled(p: Proxy, n: int) { n < p.ackBase || n in p.changes }

  /** ackBase is the first sequence number that is not settled. */
  predicate Tight(p: Proxy) { p.ackBase !in p.changes }

  ghost function KeysFrom(m: map<int, Option<int>>, n: int): set<int> { set k | k in m && k >= n }

  /** The first number from n upwards with no entry. */
  ghost function FirstFree(m: map<int, Option<int>>, n: int): (r: int)
    ensures n <= r && r !in m
    ensures forall x :: n <= x < r ==> x in m
    decreases KeysFrom(m, n)
  {
    if n in m then
      assert n in KeysFrom(m, n) && n !in KeysFrom(m, n + 1);
      FirstFree(m, n + 1)
    else n
  }

  ghost function Advanced(p: Proxy): (r: Proxy)
    ensures Tight(r)
    ensures forall n :: Settled(r, n) <==> Settled(p, n)
  {
    p.(ackBase := FirstFree(p.changes, p.ackBase))
  }

  /** Exactly one more number is settled. */
  ghost function ReceivedAdd(p: Proxy, sn: int, now: int): (r: Proxy)
    requires Tight(p)
    ensures Tight(r)
    ensures forall n :: Settled(r, n) <==> Settled(p, n) || n == sn
  {
    var q := p.(changes := p.changes[sn := Some(now)]);
    if sn == p.ackBase then Advanced(q) else q
  }

  ghost function SetIrrelevant(p: Proxy, sn: int): (r: Proxy)
    requires Tight(p)
    ensures Tight(r)
    ensures forall n :: Settled(r, n) <==> Settled(p, n) || n == sn
  {
    if sn < p.ackBase then p
    else
      var q := p.(changes := p.changes[sn := None]);
      if sn == p.ackBase then Advanced(q) else q
  }

  /** Exactly the numbers from `from` up to, not including, `until` become settled. */
  ghost function IrrelevantRange(p: Proxy, from: int, until: int): (r: Proxy)
    requires Tight(p)
    ensures Tight(r)
    ensures forall n :: Settled(r, n) <==> Settled(p, n) || from <= n < until
  {
    if from > until then p
    else if from <= p.ackBase then
      var q := p.(changes := map k | k in p.changes && !(from <= k < until) :: p.changes[k]);
      if until > p.ackBase then Advanced(q.(ackBase := until)) else q
    else p.(changes := WithGap(p.changes, from, until))
  }

  ghost function WithGap(m: map<int, Option<int>>, from: int, until: int): (r: map<int, Option<int>>)
    ensures forall k :: k in r <==> k in m || from <= k < until
    decreases until - from
  {
    if until <= from then m else WithGap(m, from, until - 1)[until - 1 := None]
  }

  /** The listed numbers, one after the other. */
  ghost function SetAllIrrelevant(p: Proxy, q: seq<int>): (r: Proxy)
    requires Tight(p)
    ensures Tight(r) && p.ackBase <= r.ackBase
    ensures forall n :: Settled(r, n) <==> Settled(p, n) || n in q
  {
    if q == [] then p
    else
      var r := SetIrrelevant(SetAllIrrelevant(p, q[..|q| - 1]), q[|q| - 1]);
      assert q == q[..|q| - 1] + [q[|q| - 1]];
      r
  }

  predicate ValidGap(g: Gap) { g.gapStart > 0 && g.gapList.base > 0 && Valid(g.gapList) }

  /** The proxy after a GAP whose list, read out, is `listed`. */
  ghost function AfterGap(p: Proxy, g: Gap, listed: seq<int>): (r: Proxy)
    requires Tight(p)
    ensures Tight(r) && p.ackBase <= r.ackBase
  {
    if !ValidGap(g) then p
    else SetAllIrrelevant(IrrelevantRange(p, g.gapStart, g.gapList.base), listed)
  }

  // ----- end to end --------------------------------------------------------------

  /** A GAP built from s by the writer settles exactly s at the reader, as far as the
      list reaches; all of s when it fits. */
  lemma GapSettlesItsSet(p: Proxy, g: Gap, s: set<int>, listed: seq<int>)
    requires Tight(p) && s != {} && Least(s) >= 1 && IsGapMessage(g, s)
    requires forall x :: x in listed <==> (Valid(g.gapList) && Contains(g.gapList, x))
    ensures forall n :: Settled(AfterGap(p, g, listed), n)
                        <==> Settled(p, n) || (n in s && n < RunEnd(s) + MAX_SPAN)
    ensures FitsInList(s) ==>
            forall n :: Settled(AfterGap(p, g, listed), n) <==> Settled(p, n) || n in s
  {
    RestIsAboveRun(s);
    assert ValidGap(g);
    var r := AfterGap(p, g, listed);
    forall n ensures Settled(r, n) <==> Settled(p, n) || (n in s && n < RunEnd(s) + MAX_SPAN) {
      GapDenotesUpToSpan(g, s, n);
    }
  }

  // ----- what happens to the record of a received change -------------------------------
  //
  // The state description in the source says that a received change stays received. The
  // record of one can all the same be overwritten or dropped; the lemmas below say when.

  predicate IsReceived(p: Proxy, n: int) { n in p.changes && p.changes[n].Some? }

  /** The record of n is the same in both. */
  predicate Kept(p: Proxy, r: Proxy, n: int)
    requires n in p.changes
  {
    n in r.changes && r.changes[n] == p.changes[n]
  }

  lemma SetIrrelevantKeepsIff(p: Proxy, sn: int, n: int)
    requires Tight(p) && IsReceived(p, n)
    ensures Kept(p, SetIrrelevant(p, sn), n) <==> !(n == sn && sn >= p.ackBase)
  {
  }

  lemma {:induction false} WithGapAt(m: map<int, Option<int>>, from: int, until: int, n: int)
    requires n in m
    ensures WithGap(m, from, until)[n] == if from <= n < until then None else m[n]
    decreases until - from
  {
    if from < until { WithGapAt(m, from, until - 1, n); }
  }

  /** A range of irrelevant numbers takes the record of every received change in it. */
  lemma RangeKeepsIff(p: Proxy, from: int, until: int, n: int)
    requires Tight(p) && IsReceived(p, n)
    ensures Kept(p, IrrelevantRange(p, from, until), n) <==> !(from <= n < until)
  {
    if p.ackBase < from <= until { WithGapAt(p.changes, from, until, n); }
  }

  /** What is listed before n is, if it is listed at all. */
  function ListedBefore(q: seq<int>, n: int): seq<int>
    decreases |q|
  {
    if q == [] then []
    else if n in q[..|q| - 1] then ListedBefore(q[..|q| - 1], n)
    else if q[|q| - 1] == n then q[..|q| - 1] else q
  }

  /** Some number below n is neither settled nor in s. */
  ghost predicate OpenBelow(p: Proxy, s: seq<int>, n: int) {
    exists x :: x < n && !Settled(p, x) && x !in s
  }

  lemma BaseAgainst(p: Proxy, q: seq<int>, n: int)
    requires Tight(p) && n in SetAllIrrelevant(p, q).changes
    ensures SetAllIrrelevant(p, q).ackBase <= n <==> OpenBelow(p, q, n)
  {
    var r := SetAllIrrelevant(p, q);
    if r.ackBase <= n {
      assert r.ackBase < n && !Settled(r, r.ackBase);
      assert !Settled(p, r.ackBase) && r.ackBase !in q;
    }
    if OpenBelow(p, q, n) {
      var x :| x < n && !Settled(p, x) && x !in q;
      assert !Settled(r, x);
    }
  }

  lemma {:induction false} ListNeverRestores(p: Proxy, q: seq<int>, n: int)
    requires Tight(p) && !IsReceived(p, n)
    ensures !IsReceived(SetAllIrrelevant(p, q), n)
    decreases |q|
  {
    if q != [] { ListNeverRestores(p, q[..|q| - 1], n); }
  }

  lemma {:induction false} ListedBeforeIsListed(q: seq<int>, n: int)
    requires n in q
    ensures forall x :: x in ListedBefore(q, n) ==> x in q
    decreases |q|
  {
    var past := q[..|q| - 1];
    if n in past { ListedBeforeIsListed(past, n); }
  }

  /** A list takes the record of a listed change only if, when its turn comes, some number
      below it is still open: otherwise the base has already moved past it. */
  lemma {:induction false} ListKeepsIff(p: Proxy, q: seq<int>, n: int)
    requires Tight(p) && IsReceived(p, n)
    ensures Kept(p, SetAllIrrelevant(p, q), n) <==> !(n in q && OpenBelow(p, ListedBefore(q, n), n))
    decreases |q|
  {
    if q != [] {
      var past, m := q[..|q| - 1], q[|q| - 1];
      assert q == past + [m];
      var r := SetAllIrrelevant(p, past);
      ListKeepsIff(p, past, n);
      if m == n && n !in past {
        BaseAgainst(p, past, n);
      } else if m == n && Kept(p, r, n) {
        ListedBeforeIsListed(past, n);
        assert !OpenBelow(p, past, n);
        BaseAgainst(p, past, n);
      }
    }
  }

  /** The GAP takes the record of a received n: its run covers n, or it lists n while a
      number below is open, that is, neither settled, nor in the run, nor listed before. */
  ghost predicate GapErases(p: Proxy, g: Gap, listed: seq<int>, n: int) {
    ValidGap(g) &&
    (|| g.gapStart <= n < g.gapList.base
     || (n in listed
         && exists x :: x < n && !Settled(p, x) && !(g.gapStart <= x < g.gapList.base) && x !in ListedBefore(listed, n)))
  }

  lemma GapKeepsIff(p: Proxy, g: Gap, listed: seq<int>, n: int)
    requires Tight(p) && IsReceived(p, n)
    ensures Kept(p, AfterGap(p, g, listed), n) <==> !GapErases(p, g, listed, n)
  {
    if ValidGap(g) {
      var ran := IrrelevantRange(p, g.gapStart, g.gapList.base);
      RangeKeepsIff(p, g.gapStart, g.gapList.base, n);
      if g.gapStart <= n < g.gapList.base {
        RangeTakes(p, g.gapStart, g.gapList.base, n);
        ListNeverRestores(ran, listed, n);
      } else {
        ListKeepsIff(ran, listed, n);
        OpenAfterRun(p, g, listed, n);
      }
    }
  }

  lemma RangeTakes(p: Proxy, from: int, until: int, n: int)
    requires Tight(p) && IsReceived(p, n) && from <= n < until
    ensures !IsReceived(IrrelevantRange(p, from, until), n)
  {
    if p.ackBase < from { WithGapAt(p.changes, from, until, n); }
  }

  lemma OpenAfterRun(p: Proxy, g: Gap, listed: seq<int>, n: int)
    requires Tight(p)
    ensures OpenBelow(IrrelevantRange(p, g.gapStart, g.gapList.base), ListedBefore(listed, n), n)
            <==> exists x :: x < n && !Settled(p, x) && !(g.gapStart <= x < g.gapList.base) && x !in ListedBefore(listed, n)
  {
    var ran := IrrelevantRange(p, g.gapStart, g.gapList.base);
    if OpenBelow(ran, ListedBefore(listed, n), n) {
      var x :| x < n && !Settled(ran, x) && x !in ListedBefore(listed, n);
      assert !Settled(p, x) && !(g.gapStart <= x < g.gapList.base);
    }
  }

  /** With the list in order, as it is read out of a bitmap, what counts is which numbers
      below n the list leaves open altogether. */
  lemma GapKeepsIffAscending(p: Proxy, g: Gap, listed: seq<int>, n: int)
    requires Tight(p) && IsReceived(p, n) && StrictlyAscending(listed)
    ensures Kept(p, AfterGap(p, g, listed), n)
            <==> !(ValidGap(g) &&
                   (|| g.gapStart <= n < g.gapList.base
                    || (n in listed
                        && exists x :: x < n && !Settled(p, x) && !(g.gapStart <= x < g.gapList.base) && x !in listed)))
  {
    GapKeepsIff(p, g, listed, n);
    if n in listed {
      ListedBeforeInOrder(listed, n);
    }
  }

  lemma {:induction false} ListedBeforeInOrder(q: seq<int>, n: int)
    requires StrictlyAscending(q) && n in q
    ensures forall x :: x in ListedBefore(q, n) <==> x in q && x < n
    decreases |q|
  {
    var past, m := q[..|q| - 1], q[|q| - 1];
    assert q == past + [m];
    if n in past {
      ListedBeforeInOrder(past, n);
      var i :| 0 <= i < |past| && past[i] == n;
      assert q[i] < m;
    } else {
      assert forall x :: x in past ==> x < m;
    }
  }

  /** A listed change at or above the base can become unavailable. */
  lemma ReceivedCanBecomeUnavailable()
    ensures var p := ReceivedAdd(NewProxy, 2, 7); p.changes[2] == Some(7) && SetIrrelevant(p, 2).changes[2] == None
  {
  }

  /** So can one that lies in the run and is not listed; or its record is dropped, when
      the run starts at the base. */
  lemma RunTakesReceived()
    ensures var p := ReceivedAdd(NewProxy, 3, 7);
            && p.changes[3] == Some(7)
            && 3 in AfterGap(p, Gap(2, New(4, 0)), []).changes && AfterGap(p, Gap(2, New(4, 0)), []).changes[3] == None
            && 3 !in AfterGap(p, Gap(1, New(4, 0)), []).changes
  {
    var p := ReceivedAdd(NewProxy, 3, 7);
    GapKeepsIff(p, Gap(2, New(4, 0)), [], 3);
    assert SetAllIrrelevant(IrrelevantRange(p, 2, 4), []) == IrrelevantRange(p, 2, 4);
    WithGapAt(p.changes, 2, 4, 3);
  }

  /** And one that is listed can survive: with 2 received, a list of 1 and 2 first moves
      the base to 3. */
  lemma ListedCanSurvive(listed: seq<int>)
    requires listed == [1, 2]
    ensures var p, g := ReceivedAdd(NewProxy, 2, 7), Gap(1, Insert(Insert(New(1, 2), 1), 2));
            && (forall x :: x in listed <==> Contains(g.gapList, x))
            && Kept(p, AfterGap(p, g, listed), 2)
  {
    var p, g := ReceivedAdd(NewProxy, 2, 7), Gap(1, Insert(Insert(New(1, 2), 1), 2));
    NewIsEmpty(1, 2);
    assert StrictlyAscending(listed);
    GapKeepsIffAscending(p, g, listed, 2);
  }

  // ----- the imperative form ---------------------------------------------------------

  /** Walks from begin to last alongside the known numbers and lists the others. */
  method NumbersBetween(begin: int, last: int, known: seq<int>) returns (missing: seq<int>)
    requires StrictlyAscending(known) && forall j :: 0 <= j < |known| ==> begin <= known[j] <= last
    ensures StrictlyAscending(missing)
    ensures forall n :: n in missing <==> begin <= n <= last && n !in known
  {
    missing := [];
    var head := 0;
    var s := begin;
    while s <= last
      invariant begin <= s
      invariant 0 <= head <= |known|
      invariant forall j :: 0 <= j < head ==> known[j] < s
      invariant forall j :: head <= j < |known| ==> s <= known[j]
      invariant StrictlyAscending(missing)
      invariant forall n :: n in missing <==> begin <= n <= last && n < s && n !in known
    {
      assert forall i :: 0 <= i < |missing| ==> missing[i] in missing;
      if head < |known| && known[head] == s {
        assert known[head] in known;
        head := head + 1;
      } else {
        assert s !in known;
        missing := missing + [s];
      }
      s := s + 1;
    }
  }

  class RtpsWriterProxy {
    var changes: map<int, Option<int>>
    var ackBase: int
    var receivedHeartbeatCount: int

    ghost function View(): Proxy
      reads this
    {
      Proxy(ackBase, changes)
    }

    constructor ()
      ensures View() == NewProxy && Tight(View()) && receivedHeartbeatCount == 0
    {
      changes := map[];
      ackBase := 1;
      receivedHeartbeatCount := 0;
    }

    method AdvanceAckBase()
      modifies this`ackBase
      ensures View() == Advanced(old(View()))
    {
      var keys := Ascending(set k | k in changes && k >= ackBase);
      var start := ackBase;
      var i := 0;
      while i < |keys| && keys[i] == ackBase
        invariant i <= |keys| && start <= ackBase
        invariant FirstFree(changes, ackBase) == FirstFree(changes, start)
        invariant forall j :: 0 <= j < i ==> keys[j] < ackBase
        invariant forall j :: i <= j < |keys| ==> keys[j] >= ackBase
      {
        assert keys[i] in keys;
        ackBase := ackBase + 1;
        i := i + 1;
      }
      assert ackBase !in keys;
    }

    method ReceivedChangesAdd(sn: int, now: int)
      requires Tight(View())
      modifies `changes, `ackBase
      ensures View() == ReceivedAdd(old(View()), sn, now)
    {
      changes := changes[sn := Some(now)];
      if sn == ackBase {
        AdvanceAckBase();
      }
    }

    method SetIrrelevantChange(sn: int)
      requires Tight(View())
      modifies `changes, `ackBase
      ensures View() == SetIrrelevant(old(View()), sn)
    {
      if sn >= ackBase {
        changes := changes[sn := None];
      }
      if sn == ackBase {
        AdvanceAckBase();
      }
    }

    method IrrelevantChangesRange(from: int, until: int)
      requires Tight(View())
      modifies `changes, `ackBase
      ensures View() == IrrelevantRange(old(View()), from, until)
    {
      if from > until {
        return;
      }
      if from <= ackBase {
        changes := map k | k in changes && !(from <= k < until) :: changes[k];
        if until > ackBase {
          ackBase := until;
          AdvanceAckBase();
        }
      } else {
        for na := from to until
          invariant ackBase == old(ackBase)
          invariant changes == WithGap(old(changes), from, na)
        {
          changes := changes[na := None];
        }
      }
    }

    method HandleGap(g: Gap) returns (ghost listed: seq<int>)
      requires Tight(View()) && Valid(g.gapList)
      modifies `changes, `ackBase
      ensures StrictlyAscending(listed) && forall x :: x in listed <==> Contains(g.gapList, x)
      ensures View() == AfterGap(old(View()), g, listed)
    {
      var q := Iter(g.gapList);
      listed := q;
      if g.gapStart <= 0 || g.gapList.base <= 0 {
        return;
      }
      IrrelevantChangesRange(g.gapStart, g.gapList.base);
      ghost var ranged := View();
      for i := 0 to |q|
        invariant View() == SetAllIrrelevant(ranged, q[..i])
      {
        assert q[..i + 1][..i] == q[..i];
        SetIrrelevantChange(q[i]);
      }
      assert q[..|q|] == q;
    }

    /** Exactly the unsettled numbers of the advertised range, lowest first. */
    method MissingSeqnums(first: int, last: int) returns (missing: seq<int>)
      requires Tight(View())
      ensures StrictlyAscending(missing)
      ensures forall n :: n in missing <==> first <= n <= last && !Settled(View(), n)
    {
      missing := [];
      if first > last {
        return;
      }
      var begin := Max(first, ackBase);
      var known := Ascending(set k | k in changes && begin <= k <= last);
      assert forall j :: 0 <= j < |known| ==> known[j] in known;
      missing := NumbersBetween(begin, last, known);
    }

    method ShouldIgnoreChange(sn: int) returns (r: bool)
      ensures r == Settled(View(), sn)
    {
      r := sn < ackBase || sn in changes;
    }
  }
}
