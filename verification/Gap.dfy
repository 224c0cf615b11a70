/** GAP submessages: a set of irrelevant sequence numbers as one contiguous run and
    a bitmap list (RTPS 2.5, section 8.3.8.4). */
module Gaps {
  import opened Basics
  import opened NumberSets

  datatype Gap = Gap(gapStart: int, gapList: NumberSet)

  /** The sequence numbers a GAP declares irrelevant. */
  predicate Denotes(g: Gap, n: int)
    requires Valid(g.gapList)
  {
    g.gapStart <= n < g.gapList.base || Contains(g.gapList, n)
  }

  ghost function From(s: set<int>, n: int): set<int> { set x | x in s && x >= n }

  /** The first number from n upwards that is not in s. */
  ghost function EndFrom(s: set<int>, n: int): (e: int)
    ensures n <= e && e !in s
    ensures forall x :: n <= x < e ==> x in s
    decreases From(s, n)
  {
    if n in s then
      assert n in From(s, n) && n !in From(s, n + 1);
      EndFrom(s, n + 1)
    else n
  }

  /** Exclusive end of the run that starts at the smallest member. */
  ghost function RunEnd(s: set<int>): (e: int)
    requires s != {}
    ensures Least(s) < e
  {
    EndFrom(s, Least(s) + 1)
  }

  ghost predicate IsGapMessage(g: Gap, s: set<int>)
    requires s != {}
  {
    g.gapStart == Least(s) && BuiltFrom(g.gapList, RunEnd(s), From(s, RunEnd(s)))
  }

  method GapMsg(irrelevant: set<int>) returns (gap: Option<Gap>)
    ensures gap.Some? <==> irrelevant != {}
    ensures gap.Some? ==> IsGapMessage(gap.value, irrelevant)
  {
    if irrelevant == {} {
      return None;
    }
    var gapStart := Least(irrelevant);
    var endpoint := gapStart + 1;
    while endpoint in irrelevant
      invariant EndFrom(irrelevant, endpoint) == RunEnd(irrelevant)
      decreases From(irrelevant, endpoint)
    {
      assert endpoint in From(irrelevant, endpoint) && endpoint !in From(irrelevant, endpoint + 1);
      endpoint := endpoint + 1;
    }
    var listSet := set x | x in irrelevant && x >= endpoint;
    var gapList := FromBaseAndSet(endpoint, listSet);
    gap := Some(Gap(gapStart, gapList));
  }

  /** Everything from 1 up to, not including, n. */
  function GapMsgBefore(n: int): Gap { Gap(1, New(n, 0)) }

  /** The list fits: nothing follows the run, or it starts at 1 or later and spans
      fewer than 256 numbers. */
  ghost predicate FitsInList(s: set<int>)
    requires s != {}
  {
    Greatest(s) < RunEnd(s) || (RunEnd(s) >= 1 && Greatest(s) < RunEnd(s) + MAX_SPAN)
  }

  lemma RestIsAboveRun(s: set<int>)
    requires s != {}
    ensures From(s, RunEnd(s)) == {} <==> Greatest(s) < RunEnd(s)
    ensures From(s, RunEnd(s)) != {} ==> BaseFor(RunEnd(s), From(s, RunEnd(s))) == RunEnd(s)
  {
    var e := RunEnd(s);
    if Greatest(s) < e {
      assert forall x :: x !in From(s, e);
    } else {
      assert Greatest(s) in From(s, e);
      assert Least(From(s, e)) in From(s, e);
    }
  }

  lemma RunMembers(s: set<int>, n: int)
    requires s != {}
    ensures n in s && n < RunEnd(s) <==> Least(s) <= n < RunEnd(s)
  {
  }

  /** What a GAP built from s declares, for every non-empty set of positive numbers:
      a part of s, and nothing less than all members up to 255 above the run. */
  lemma GapDenotesUpToSpan(g: Gap, s: set<int>, n: int)
    requires s != {} && Least(s) >= 1 && IsGapMessage(g, s)
    ensures Valid(g.gapList)
    ensures Denotes(g, n) <==> n in s && n < RunEnd(s) + MAX_SPAN
  {
    RestIsAboveRun(s);
    RunMembers(s, n);
    var e := RunEnd(s);
    if From(s, e) == {} {
      NewIsEmpty(e, 0);
      assert n !in From(s, e);
    } else {
      assert n in From(s, e) <==> n in s && n >= e;
    }
  }

  /** The run is all there is below the list, and it cannot be made longer. */
  lemma RunIsMaximal(s: set<int>, e: int)
    requires s != {} && Least(s) < e
    requires e !in s && forall x :: Least(s) <= x < e ==> x in s
    ensures e == RunEnd(s)
  {
    var r := RunEnd(s);
    assert r < e ==> r in s;
    assert e < r ==> e in s;
  }

  /** A GAP declares exactly its set if and only if the list fits. */
  lemma GapIsExact(g: Gap, s: set<int>)
    requires s != {} && IsGapMessage(g, s)
    ensures Valid(g.gapList)
    ensures (forall n :: Denotes(g, n) <==> n in s) <==> FitsInList(s)
  {
    RestIsAboveRun(s);
    var e := RunEnd(s);
    if From(s, e) == {} {
      NewIsEmpty(e, 0);
      forall n ensures Denotes(g, n) <==> n in s { RunMembers(s, n); assert n !in From(s, e); }
    } else if e < 1 {
      // The list is refused and the run swallows the hole at its end.
      assert g.gapList.base == 1;
      assert Denotes(g, e) && e !in s;
    } else {
      forall n ensures Denotes(g, n) <==> n in s && n < e + MAX_SPAN {
        RunMembers(s, n);
        assert n in From(s, e) <==> n in s && n >= e;
      }
      var m := Greatest(s);
      assert Denotes(g, m) <==> m < e + MAX_SPAN;
    }
  }

  /** The special form for everything before n is what the general form builds. */
  lemma BeforeIsAGapMessage(n: int, s: set<int>)
    requires n >= 2 && forall x :: x in s <==> 1 <= x < n
    ensures s != {} && IsGapMessage(GapMsgBefore(n), s) && FitsInList(s)
  {
    assert 1 in s;
    assert Least(s) == 1;
    RunIsMaximal(s, n);
    RestIsAboveRun(s);
    assert Greatest(s) < n;
  }

  /** With 1 and 258 the list would start at 2, and 258 is just out of its reach. */
  lemma TruncatedGap(g: Gap, s: set<int>)
    requires s == {1, 258} && IsGapMessage(g, s)
    ensures Valid(g.gapList) && Denotes(g, 1) && !Denotes(g, 258) && !FitsInList(s)
  {
    assert Least(s) == 1;
    assert 2 !in s && RunEnd(s) == 2;
    GapDenotesUpToSpan(g, s, 1);
    GapDenotesUpToSpan(g, s, 258);
    assert 258 in s && Greatest(s) >= 258;
  }
}
