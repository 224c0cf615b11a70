/** Parameter lists (RTPS 2.5, section 9.4.2.11): identified values, each padded to a
    multiple of four, closed by a sentinel. */
module ParameterLists {
  import opened Basics
  import opened Wire
  import opened ContentFilters

  datatype Parameter = Parameter(pid: u16, value: Bytes)

  const SENTINEL: u16 := 1

  function Padded(v: Bytes): Bytes { v + Zeros(PadOf(|v|)) }

  /** Each value as it comes off the wire: with its padding. */
  function PadAll(ps: seq<Parameter>): seq<Parameter>
    decreases |ps|
  {
    if ps == [] then [] else [Parameter(ps[0].pid, Padded(ps[0].value))] + PadAll(ps[1..])
  }

  /** The length is cut to 16 bits. */
  ghost function HeaderBytes(e: Endian, pid: u16, len: nat): (b: Bytes)
    ensures |b| == 4
  {
    Half(e, pid) + Half(e, len % TWO16)
  }

  ghost function ParameterBytes(e: Endian, p: Parameter): Bytes {
    HeaderBytes(e, p.pid, |Padded(p.value)|) + Padded(p.value)
  }

  ghost function ListBytes(e: Endian, ps: seq<Parameter>): Bytes
    decreases |ps|
  {
    if ps == [] then HeaderBytes(e, SENTINEL, 0) else ParameterBytes(e, ps[0]) + ListBytes(e, ps[1..])
  }

  // ----- writing and reading --------------------------------------------------------------

  method WriteParameter(e: Endian, out: Bytes, p: Parameter) returns (more: Bytes)
    ensures more == out + ParameterBytes(e, p)
  {
    var value := WritePad(p.value, |p.value|);
    var pid := WriteU16(e, p.pid);
    var len := WriteU16(e, |value| % TWO16);
    more := out + (pid + len + value);
  }

  lemma ListStep(e: Endian, out: Bytes, ps: seq<Parameter>, i: nat)
    requires i < |ps|
    ensures out + ListBytes(e, ps[i..]) == out + ParameterBytes(e, ps[i]) + ListBytes(e, ps[i + 1..])
  {
    hide ParameterBytes;
    assert ps[i..][0] == ps[i] && ps[i..][1..] == ps[i + 1..];
    assert out + (ParameterBytes(e, ps[i]) + ListBytes(e, ps[i + 1..]))
        == out + ParameterBytes(e, ps[i]) + ListBytes(e, ps[i + 1..]);
  }

  method WriteTo(e: Endian, ps: seq<Parameter>) returns (out: Bytes)
    ensures out == ListBytes(e, ps)
  {
    hide ParameterBytes, Half;
    out := [];
    assert ps[0..] == ps && out + ListBytes(e, ps) == ListBytes(e, ps);
    for i := 0 to |ps|
      invariant out + ListBytes(e, ps[i..]) == ListBytes(e, ps)
    {
      ListStep(e, out, ps, i);
      out := WriteParameter(e, out, ps[i]);
    }
    assert ps[|ps|..] == [];
    var pid := WriteU16(e, SENTINEL);
    var len := WriteU16(e, 0);
    out := out + (pid + len);
  }

  datatype Header = Header(pid: u16, len: u16)

  function ReadHeader(e: Endian, d: Bytes, pos: nat): (g: Got<Header>)
    ensures g.Got? ==> g.next == pos + 4 <= |d|
  {
    if pos + 4 <= |d|
    then Got(Header(HalfOf(e, d[pos..pos + 2]), HalfOf(e, d[pos + 2..pos + 4])), pos + 4)
    else Failed
  }

  function ReadList(e: Endian, d: Bytes, pos: nat): Got<seq<Parameter>>
    decreases |d| - pos
  {
    var h := ReadHeader(e, d, pos);
    if h.Failed? then Failed
    else if h.value.pid == SENTINEL then Got([], h.next)
    else if h.next + h.value.len > |d| then Failed
    else
      var v := d[h.next..h.next + h.value.len];
      Before([Parameter(h.value.pid, v)], ReadList(e, d, h.next + h.value.len))
  }

  method ReadFrom(e: Endian, d: Bytes) returns (r: Option<seq<Parameter>>)
    ensures var g := ReadList(e, d, 0); r == if g.Got? then Some(g.value) else None
  {
    hide HalfOf;
    ghost var whole := ReadList(e, d, 0);
    var pos: nat := 0;
    var ps: seq<Parameter> := [];
    assert whole.Got? ==> ps + whole.value == whole.value;
    while true
      invariant pos <= |d| && whole == Before(ps, ReadList(e, d, pos))
      decreases |d| - pos
    {
      if pos + 4 > |d| { return None; }
      var pid, len := HalfOf(e, d[pos..pos + 2]), HalfOf(e, d[pos + 2..pos + 4]);
      pos := pos + 4;
      if pid == SENTINEL {
        assert ps + [] == ps;
        return Some(ps);
      }
      if pos + len > |d| { return None; }
      var p := Parameter(pid, d[pos..pos + len]);
      BeforeOneMore(ps, p, ReadList(e, d, pos + len));
      ps := ps + [p];
      pos := pos + len;
    }
  }

  // ----- reading undoes writing -------------------------------------------------------------

  /** What the 16-bit length and the sentinel allow. */
  predicate Safe(p: Parameter) { p.pid != SENTINEL && |p.value| + PadOf(|p.value|) < TWO16 }

  predicate AllSafe(ps: seq<Parameter>) { forall i :: 0 <= i < |ps| ==> Safe(ps[i]) }

  lemma HeaderAt(e: Endian, d: Bytes, pos: nat, pid: u16, len: nat, rest: Bytes)
    requires pos <= |d| && d[pos..] == HeaderBytes(e, pid, len) + rest
    ensures ReadHeader(e, d, pos) == Got(Header(pid, len % TWO16), pos + 4) && d[pos + 4..] == rest
  {
    var b := HeaderBytes(e, pid, len);
    assert d[pos..pos + 2] == d[pos..][..2] == b[..2] == Half(e, pid);
    assert d[pos + 2..pos + 4] == d[pos..][2..4] == b[2..4] == Half(e, len % TWO16);
    assert d[pos + 4..] == d[pos..][4..] == rest;
  }

  lemma SafeStep(e: Endian, p: Parameter, more: Bytes, d: Bytes, pos: nat)
    requires pos <= |d| && d[pos..] == ParameterBytes(e, p) + more && Safe(p)
    ensures var n := |Padded(p.value)|;
            && ReadHeader(e, d, pos) == Got(Header(p.pid, n), pos + 4)
            && pos + 4 + n <= |d| && d[pos + 4..pos + 4 + n] == Padded(p.value) && d[pos + 4 + n..] == more
  {
    hide PadOf, Half, HalfOf, ReadHeader;
    var v := Padded(p.value);
    assert ParameterBytes(e, p) + more == HeaderBytes(e, p.pid, |v|) + (v + more);
    HeaderAt(e, d, pos, p.pid, |v|, v + more);
    assert d[pos + 4..pos + 4 + |v|] == d[pos + 4..][..|v|] == v;
    assert d[pos + 4 + |v|..] == d[pos + 4..][|v|..] == more;
  }

  /** A parameter that is not safe is not read back, whatever follows. */
  lemma UnsafeStep(e: Endian, p: Parameter, more: Bytes, d: Bytes, pos: nat, rest: seq<Parameter>)
    requires pos <= |d| && d[pos..] == ParameterBytes(e, p) + more && !Safe(p)
    ensures !Yields(ReadList(e, d, pos), [Parameter(p.pid, Padded(p.value))] + rest)
  {
    hide PadOf, Half, HalfOf, ReadHeader;
    var v := Padded(p.value);
    assert ParameterBytes(e, p) + more == HeaderBytes(e, p.pid, |v|) + (v + more);
    HeaderAt(e, d, pos, p.pid, |v|, v + more);
    var g := ReadList(e, d, pos);
    if g.Got? && p.pid != SENTINEL {
      assert |g.value[0].value| == |v| % TWO16;
      assert ([Parameter(p.pid, v)] + rest)[0].value == v;
    }
  }

  lemma {:induction false} ReadsBackAt(e: Endian, ps: seq<Parameter>, tail: Bytes, d: Bytes, pos: nat)
    requires pos <= |d| && d[pos..] == ListBytes(e, ps) + tail
    ensures Yields(ReadList(e, d, pos), PadAll(ps)) <==> AllSafe(ps)
    decreases |ps|
  {
    hide ReadHeader, ParameterBytes, Padded, Safe;
    if ps == [] {
      HeaderAt(e, d, pos, SENTINEL, 0, tail);
    } else {
      var more := ListBytes(e, ps[1..]) + tail;
      assert ListBytes(e, ps) + tail == ParameterBytes(e, ps[0]) + more;
      if Safe(ps[0]) {
        SafeStep(e, ps[0], more, d, pos);
        var next := pos + 4 + |Padded(ps[0].value)|;
        NotSentinel(ps[0]);
        ReadsBackAt(e, ps[1..], tail, d, next);
        BeforeIff(Parameter(ps[0].pid, Padded(ps[0].value)), ReadList(e, d, next), PadAll(ps[1..]));
        assert AllSafe(ps) <==> AllSafe(ps[1..]) by { AllSafeStep(ps); }
      } else {
        UnsafeStep(e, ps[0], more, d, pos, PadAll(ps[1..]));
      }
    }
  }

  lemma NotSentinel(p: Parameter)
    requires Safe(p)
    ensures p.pid != SENTINEL
  {
  }

  lemma AllSafeStep(ps: seq<Parameter>)
    requires ps != [] && Safe(ps[0])
    ensures AllSafe(ps) <==> AllSafe(ps[1..])
  {
    hide Safe;
    if AllSafe(ps[1..]) {
      forall i | 0 <= i < |ps| ensures Safe(ps[i]) {
        if i > 0 { assert ps[i] == ps[1..][i - 1]; }
      }
    }
  }

  lemma BeforeIff<T>(t: T, rest: Got<seq<T>>, ts: seq<T>)
    ensures Before([t], rest).Got? && Before([t], rest).value == [t] + ts <==> rest.Got? && rest.value == ts
  {
    if rest.Got? {
      assert ([t] + rest.value)[1..] == rest.value && ([t] + ts)[1..] == ts;
    }
  }

  /** A list comes back, each value with its padding, exactly when no parameter poses as
      the sentinel and every padded length fits in 16 bits. */
  lemma ReadsBackIff(e: Endian, ps: seq<Parameter>, tail: Bytes)
    ensures Yields(ReadList(e, ListBytes(e, ps) + tail, 0), PadAll(ps)) <==> AllSafe(ps)
  {
    hide ReadList, ListBytes, AllSafe, PadAll;
    var d := ListBytes(e, ps) + tail;
    assert d[0..] == d;
    ReadsBackAt(e, ps, tail, d, 0);
  }

  // ----- lookup --------------------------------------------------------------------------------

  /** All values with an identifier, in order. */
  function ValuesOf(ps: seq<Parameter>, pid: u16): seq<Bytes>
    decreases |ps|
  {
    if ps == [] then []
    else (if ps[0].pid == pid then [ps[0].value] else []) + ValuesOf(ps[1..], pid)
  }

  lemma {:induction false} ValuesOfConcat(a: seq<Parameter>, b: seq<Parameter>, pid: u16)
    ensures ValuesOf(a + b, pid) == ValuesOf(a, pid) + ValuesOf(b, pid)
    decreases |a|
  {
    if a == [] {
      assert a + b == b;
    } else {
      assert (a + b)[0] == a[0] && (a + b)[1..] == a[1..] + b;
      ValuesOfConcat(a[1..], b, pid);
      var first := if a[0].pid == pid then [a[0].value] else [];
      assert first + (ValuesOf(a[1..], pid) + ValuesOf(b, pid)) == first + ValuesOf(a[1..], pid) + ValuesOf(b, pid);
    }
  }

  function Under(m: map<u16, seq<Bytes>>, pid: u16): seq<Bytes> { if pid in m then m[pid] else [] }

  ghost predicate Groups(m: map<u16, seq<Bytes>>, ps: seq<Parameter>) {
    forall pid: u16 :: Under(m, pid) == ValuesOf(ps, pid)
  }

  lemma GroupsStep(m: map<u16, seq<Bytes>>, ps: seq<Parameter>, p: Parameter)
    requires Groups(m, ps)
    ensures Groups(m[p.pid := Under(m, p.pid) + [p.value]], ps + [p])
  {
    var n := m[p.pid := Under(m, p.pid) + [p.value]];
    forall pid: u16 ensures Under(n, pid) == ValuesOf(ps + [p], pid) {
      assert Under(m, pid) == ValuesOf(ps, pid);
      ValuesOfConcat(ps, [p], pid);
    }
  }

  lemma GroupsNothing()
    ensures Groups(map[], [])
  {
  }

  /** The values grouped by identifier, as the decoders look them up. */
  method ToMap(ps: seq<Parameter>) returns (m: map<u16, seq<Bytes>>)
    ensures Groups(m, ps)
  {
    m := map[];
    GroupsNothing();
    hide Groups, Under;
    for i := 0 to |ps|
      invariant Groups(m, ps[..i])
    {
      GroupsStep(m, ps[..i], ps[i]);
      assert ps[..i + 1] == ps[..i] + [ps[i]];
      m := m[ps[i].pid := Under(m, ps[i].pid) + [ps[i].value]];
    }
    assert ps[..|ps|] == ps;
  }

  // ----- lists made field by field ----------------------------------------------------------------

  /** One parameter for each value of a field. */
  function Emit(pid: u16, vs: seq<Bytes>): seq<Parameter>
    decreases |vs|
  {
    if vs == [] then [] else [Parameter(pid, vs[0])] + Emit(pid, vs[1..])
  }

  /** The fields in their order, each with the values that `field` gives it. */
  function Fields(order: seq<u16>, field: u16 -> seq<Bytes>): seq<Parameter>
    decreases |order|
  {
    if order == [] then [] else Emit(order[0], field(order[0])) + Fields(order[1..], field)
  }

  function PadEach(vs: seq<Bytes>): seq<Bytes>
    decreases |vs|
  {
    if vs == [] then [] else [Padded(vs[0])] + PadEach(vs[1..])
  }

  lemma {:induction false} EmitValues(pid: u16, vs: seq<Bytes>, other: u16)
    ensures ValuesOf(Emit(pid, vs), other) == if other == pid then vs else []
    decreases |vs|
  {
    if vs != [] {
      EmitValues(pid, vs[1..], other);
      var ps := Emit(pid, vs);
      assert ps[0] == Parameter(pid, vs[0]) && ps[1..] == Emit(pid, vs[1..]);
      if other == pid {
        assert ValuesOf(ps, other) == [vs[0]] + ValuesOf(Emit(pid, vs[1..]), other) == [vs[0]] + vs[1..] == vs;
      } else {
        assert ValuesOf(ps, other) == [] + ValuesOf(Emit(pid, vs[1..]), other) == [];
      }
    }
  }

  lemma NoValues(pid: u16)
    ensures ValuesOf([], pid) == []
  {
  }

  predicate Distinct(order: seq<u16>) { forall i, j :: 0 <= i < j < |order| ==> order[i] != order[j] }

  /** Each field's values are found again under its identifier. */
  lemma {:induction false} FieldsValues(order: seq<u16>, field: u16 -> seq<Bytes>, pid: u16)
    requires Distinct(order)
    ensures ValuesOf(Fields(order, field), pid) == if pid in order then field(pid) else []
    decreases |order|
  {
    hide ValuesOf, Emit;
    if order == [] {
      NoValues(pid);
    } else {
      var rest := order[1..];
      FieldsValues(rest, field, pid);
      EmitValues(order[0], field(order[0]), pid);
      ValuesOfConcat(Emit(order[0], field(order[0])), Fields(rest, field), pid);
      assert order == [order[0]] + rest;
      assert order[0] !in rest;
    }
  }

  lemma {:induction false} PaddedValues(ps: seq<Parameter>, pid: u16)
    ensures ValuesOf(PadAll(ps), pid) == PadEach(ValuesOf(ps, pid))
    decreases |ps|
  {
    if ps != [] {
      PaddedValues(ps[1..], pid);
      assert PadAll(ps)[0].pid == ps[0].pid && PadAll(ps)[1..] == PadAll(ps[1..]);
      if ps[0].pid == pid {
        assert ValuesOf(ps, pid)[1..] == ValuesOf(ps[1..], pid);
      } else {
        assert ValuesOf(ps, pid) == ValuesOf(ps[1..], pid);
        assert ValuesOf(PadAll(ps), pid) == ValuesOf(PadAll(ps[1..]), pid);
      }
    }
  }

  // ----- which lists are safe ------------------------------------------------------------------------

  predicate Short(v: Bytes) { |v| + PadOf(|v|) < TWO16 }

  predicate AllShort(vs: seq<Bytes>) { forall i :: 0 <= i < |vs| ==> Short(vs[i]) }

  lemma SafeConcat(a: seq<Parameter>, b: seq<Parameter>)
    ensures AllSafe(a + b) <==> AllSafe(a) && AllSafe(b)
  {
    hide Safe;
    var c := a + b;
    if AllSafe(c) {
      assert forall i :: 0 <= i < |a| ==> c[i] == a[i];
      forall i | 0 <= i < |b| ensures Safe(b[i]) { assert c[|a| + i] == b[i]; }
    }
  }

  lemma {:induction false} EmitSafe(pid: u16, vs: seq<Bytes>)
    requires pid != SENTINEL
    ensures AllSafe(Emit(pid, vs)) <==> AllShort(vs)
    decreases |vs|
  {
    hide PadOf;
    if vs != [] {
      EmitSafe(pid, vs[1..]);
      SafeConcat([Parameter(pid, vs[0])], Emit(pid, vs[1..]));
      assert vs == [vs[0]] + vs[1..];
      assert AllSafe([Parameter(pid, vs[0])]) <==> Short(vs[0]) by {
        var one := [Parameter(pid, vs[0])];
        assert one[0].value == vs[0];
        assert AllSafe(one) ==> Safe(one[0]);
      }
      ShortStep(vs);
    }
  }

  lemma ShortStep(vs: seq<Bytes>)
    requires vs != []
    ensures AllShort(vs) <==> Short(vs[0]) && AllShort(vs[1..])
  {
    hide Short;
    if AllShort(vs) {
      forall i | 0 <= i < |vs[1..]| ensures Short(vs[1..][i]) { assert vs[1..][i] == vs[i + 1]; }
    }
    if Short(vs[0]) && AllShort(vs[1..]) {
      forall i | 0 <= i < |vs| ensures Short(vs[i]) { if i > 0 { assert vs[i] == vs[1..][i - 1]; } }
    }
  }

  ghost predicate FieldsShort(order: seq<u16>, field: u16 -> seq<Bytes>) {
    forall pid: u16 :: pid in order ==> AllShort(field(pid))
  }

  lemma {:induction false} FieldsSafe(order: seq<u16>, field: u16 -> seq<Bytes>)
    requires SENTINEL !in order
    ensures AllSafe(Fields(order, field)) <==> FieldsShort(order, field)
    decreases |order|
  {
    hide AllSafe, AllShort, Emit;
    if order == [] {
      NothingIsSafe();
    } else {
      FieldsSafe(order[1..], field);
      EmitSafe(order[0], field(order[0]));
      SafeConcat(Emit(order[0], field(order[0])), Fields(order[1..], field));
      assert order == [order[0]] + order[1..];
    }
  }

  lemma NothingIsSafe()
    ensures AllSafe([])
  {
  }
}
