/** Sets of sequence or fragment numbers as a base and a bitmap of 32-bit words,
    most significant bit first (RTPS 2.5, section 8.3.5.5). */
module NumberSets {
  import opened Basics

  // ----- words --------------------------------------------------------------

  /** w & (1 << k) != 0 */
  predicate TestBit(w: nat, k: nat)
    decreases k
  {
    if k == 0 then w % 2 == 1 else TestBit(w / 2, k - 1)
  }

  function PowerOfTwo(n: nat): (p: nat)
    ensures p > 0
  {
    if n == 0 then 1 else 2 * PowerOfTwo(n - 1)
  }

  /** w | (1 << k) */
  function OrBit(w: nat, k: nat): nat
    decreases k
  {
    if k == 0 then (if w % 2 == 1 then w else w + 1)
    else 2 * OrBit(w / 2, k - 1) + w % 2
  }

  /** Sets that bit and keeps the others. */
  lemma {:induction false} OrBitSets(w: nat, k: nat, j: nat)
    ensures TestBit(OrBit(w, k), j) <==> j == k || TestBit(w, j)
    decreases k
  {
    var r := OrBit(w, k);
    if k == 0 {
      assert r / 2 == w / 2;
    } else {
      assert r % 2 == w % 2 && r / 2 == OrBit(w / 2, k - 1);
      if j > 0 { OrBitSets(w / 2, k - 1, j - 1); }
    }
  }

  /** Stays inside the word. */
  lemma {:induction false} OrBitStaysInWord(w: nat, k: nat, n: nat)
    requires k < n && w < PowerOfTwo(n)
    ensures OrBit(w, k) < PowerOfTwo(n)
    decreases k
  {
    var p := PowerOfTwo(n - 1);
    assert PowerOfTwo(n) == 2 * p;
    hide PowerOfTwo;
    if k == 0 {
      assert w % 2 == 0 ==> w + 1 < 2 * p;
    } else {
      assert w / 2 < p;
      OrBitStaysInWord(w / 2, k - 1, n - 1);
    }
  }

  lemma OrBitSetsOne(w: nat, k: nat)
    ensures forall j: nat :: TestBit(OrBit(w, k), j) <==> j == k || TestBit(w, j)
  {
    forall j: nat ensures TestBit(OrBit(w, k), j) <==> j == k || TestBit(w, j) {
      OrBitSets(w, k, j);
    }
  }

  lemma {:induction false} ZeroHasNoBits(k: nat)
    ensures !TestBit(0, k)
  {
    if k > 0 {
      ZeroHasNoBits(k - 1);
    }
  }

  // ----- sets -----------------------------------------------------------------

  const MAX_SPAN := 256

  datatype NumberSet = NumberSet(base: int, numBits: nat, bitmap: seq<nat>)

  predicate Valid(ns: NumberSet) {
    |ns.bitmap| == (ns.numBits + 31) / 32
  }

  function New(base: int, numBits: nat): (r: NumberSet)
    ensures Valid(r)
  {
    NumberSet(base, numBits, seq((numBits + 31) / 32, _ => 0))
  }

  /** The bit for n is inside the set's window and is set. */
  predicate Contains(ns: NumberSet, n: int)
    requires Valid(ns)
  {
    var at := n - ns.base;
    0 <= at < ns.numBits && TestBit(ns.bitmap[at / 32], 31 - at % 32)
  }

  /** Adds n if it is inside the window; otherwise nothing happens. */
  function Insert(ns: NumberSet, n: int): (r: NumberSet)
    requires Valid(ns)
    ensures Valid(r) && r.base == ns.base && r.numBits == ns.numBits
    ensures forall x :: Contains(r, x) <==> Contains(ns, x) || (x == n && ns.base <= n < ns.base + ns.numBits)
  {
    if n < ns.base || ns.numBits == 0 || n >= ns.base + ns.numBits then ns
    else
      var at := n - ns.base;
      var word := at / 32;
      OrBitSetsOne(ns.bitmap[word], 31 - at % 32);
      ns.(bitmap := ns.bitmap[word := OrBit(ns.bitmap[word], 31 - at % 32)])
  }

  lemma NewIsEmpty(base: int, numBits: nat)
    ensures forall n :: !Contains(New(base, numBits), n)
  {
    forall n ensures !Contains(New(base, numBits), n) {
      var at := n - base;
      if 0 <= at < numBits {
        ZeroHasNoBits(31 - at % 32);
      }
    }
  }

  /** The base the source settles on: never above the smallest member. */
  function BaseFor(base: int, s: set<int>): int
    requires s != {}
  {
    Min(base, Least(s))
  }

  /** What building from a base and a set must give: an empty set stays empty, a
      window below 1 is refused, and members 256 or more above the base are lost. */
  ghost predicate BuiltFrom(ns: NumberSet, base: int, s: set<int>) {
    if s == {} then ns == New(base, 0)
    else if BaseFor(base, s) < 1 then ns == New(1, 0)
    else
      && Valid(ns) && ns.base == BaseFor(base, s)
      && forall x :: Contains(ns, x) <==> x in s && x < ns.base + MAX_SPAN
  }

  /** A window from lo to end with the members of q that lie inside it. */
  method Fill(lo: int, end: int, q: seq<int>) returns (ns: NumberSet)
    requires lo <= end
    ensures Valid(ns) && ns.base == lo
    ensures forall x :: Contains(ns, x) <==> x in q && lo <= x <= end
  {
    ns := New(lo, end - lo + 1);
    NewIsEmpty(lo, end - lo + 1);
    for i := 0 to |q|
      invariant Valid(ns) && ns.base == lo && ns.numBits == end - lo + 1
      invariant forall x :: Contains(ns, x) <==> x in q[..i] && lo <= x <= end
    {
      if lo <= q[i] <= end {
        ns := Insert(ns, q[i]);
      }
      assert q[..i + 1] == q[..i] + [q[i]];
    }
    assert q[..|q|] == q;
  }

  method FromBaseAndSet(base: int, s: set<int>) returns (ns: NumberSet)
    ensures BuiltFrom(ns, base, s)
  {
    if s == {} {
      return New(base, 0);
    }
    var lo := BaseFor(base, s);
    if lo < 1 {
      return New(1, 0);
    }
    var last := Greatest(s);
    var end := if last - lo >= MAX_SPAN then lo + 255 else last;
    ns := Fill(lo, end, Ascending(s));
  }

  /** Walks the bits of the window from the base upwards. */
  method Iter(ns: NumberSet) returns (out: seq<int>)
    requires Valid(ns)
    ensures StrictlyAscending(out)
    ensures forall x :: x in out <==> Contains(ns, x)
  {
    out := [];
    for at := 0 to ns.numBits
      invariant StrictlyAscending(out)
      invariant forall x :: x in out <==> Contains(ns, x) && x < ns.base + at
    {
      assert forall i :: 0 <= i < |out| ==> out[i] in out;
      if TestBit(ns.bitmap[at / 32], 31 - at % 32) {
        assert Contains(ns, ns.base + at);
        out := out + [ns.base + at];
      } else {
        assert !Contains(ns, ns.base + at);
      }
    }
  }
}
