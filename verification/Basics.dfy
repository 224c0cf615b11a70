/** Small shared vocabulary: optional values, octets and ordered views of sets. */
module Basics {

  datatype Option<+T> = None | Some(value: T)

  /** An octet on the wire. */
  newtype byte = x: int | 0 <= x < 256

  function Min(a: int, b: int): int { if a <= b then a else b }

  function Max(a: int, b: int): int { if a >= b then a else b }

  /** Products grow with their left factor. */
  lemma MulMonotone(a: int, b: int, k: nat)
    requires a <= b
    ensures a * k <= b * k
  {
  }

  /** Some member of a non-empty set. */
  ghost function Pick<T>(s: set<T>): (e: T)
    requires s != {}
    ensures e in s
  {
    var e :| e in s;
    e
  }

  /** Sets with the same members are equal. */
  lemma SetsAgree(a: set<int>, b: set<int>)
    requires forall x :: x in a <==> x in b
    ensures a == b
  {
    if a - b != {} {
      var x: int := Pick(a - b);
    }
    if b - a != {} {
      var x: int := Pick(b - a);
    }
  }

  predicate IsLeast(m: int, s: set<int>) {
    m in s && forall x :: x in s ==> m <= x
  }

  lemma {:induction false} LeastExists(s: set<int>, e: int)
    requires e in s
    ensures exists m :: IsLeast(m, s)
    decreases s
  {
    var below := set x | x in s && x < e;
    if below == {} {
      forall x | x in s ensures e <= x {
        assert x < e ==> x in below;
      }
      assert IsLeast(e, s);
    } else {
      var y :| y in below;
      assert e !in below;
      LeastExists(below, y);
      var m :| IsLeast(m, below);
      forall x | x in s ensures m <= x {
        assert x < e ==> x in below;
      }
      assert IsLeast(m, s);
    }
  }

  lemma NonEmptyHasLeast(s: set<int>)
    requires s != {}
    ensures exists m :: IsLeast(m, s)
  {
    LeastExists(s, Pick(s));
  }

  function Least(s: set<int>): (m: int)
    requires s != {}
    ensures IsLeast(m, s)
  {
    NonEmptyHasLeast(s);
    var m :| IsLeast(m, s);
    m
  }

  ghost predicate StrictlyAscending(q: seq<int>) {
    forall i, j :: 0 <= i < j < |q| ==> q[i] < q[j]
  }

  /** The members of a set in increasing order: how a BTreeSet or the keys of a
      BTreeMap are iterated. */
  function Ascending(s: set<int>): (q: seq<int>)
    ensures StrictlyAscending(q)
    ensures forall x :: x in q <==> x in s
    ensures |q| == |s|
    decreases |s|
  {
    if s == {} then []
    else
      var m := Least(s);
      [m] + Ascending(s - {m})
  }

  predicate IsGreatest(m: int, s: set<int>) {
    m in s && forall x :: x in s ==> x <= m
  }

  function Greatest(s: set<int>): (m: int)
    requires s != {}
    ensures IsGreatest(m, s)
  {
    var q := Ascending(s);
    assert q[|q| - 1] in q;
    q[|q| - 1]
  }
}
