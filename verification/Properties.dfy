/** The codec of the property policy (DDS Security 1.1, section 7.2.5): only properties
    marked for propagation are written, the string ones first, then the binary ones. */
module Properties {
  import opened Basics
  import opened Wire
  import opened ContentFilters

  /** A string property, or a binary one when its value is written without a terminator. */
  datatype Property = Property(name: Bytes, value: Bytes, propagate: bool)

  datatype PropertyPolicy = PropertyPolicy(value: seq<Property>, binaryValue: seq<Property>)

  function Propagated(ps: seq<Property>): (r: seq<Property>)
    ensures forall i :: 0 <= i < |r| ==> r[i] in ps && r[i].propagate
    decreases |ps|
  {
    if ps == [] then []
    else (if ps[0].propagate then [ps[0]] else []) + Propagated(ps[1..])
  }

  /** What the writer propagates and so what a reader is to see. */
  function Visible(q: PropertyPolicy): PropertyPolicy {
    PropertyPolicy(Propagated(q.value), Propagated(q.binaryValue))
  }

  predicate Fits(p: Property) { FitsWord(p.name) && FitsWord(p.value) }

  predicate AllPropertiesFit(ps: seq<Property>) { forall i :: 0 <= i < |ps| ==> Fits(ps[i]) }

  function ValueItem(binary: bool, v: Bytes): Item { if binary then Blob(v) else Text(v) }

  function ValueLen(binary: bool, v: Bytes): nat { if binary then |v| else |v| + 1 }

  /** The serialized length of one property, padding between name and value included. */
  function SerializedLen(binary: bool, p: Property): nat {
    AlignUp(4 + |p.name| + 1) + 4 + ValueLen(binary, p.value)
  }

  lemma SerializedLenInStep(binary: bool, p: Property, pos: nat)
    requires InStep(pos, ValueLen(binary, p.value))
    ensures InStep(pos, SerializedLen(binary, p))
  {
    AlignUpAligns(4 + |p.name| + 1);
  }

  function ListItems(binary: bool, ps: seq<Property>, rest: Items): Items
    decreases |ps|
  {
    if ps == [] then rest
    else Cons(Text(ps[0].name), Cons(ValueItem(binary, ps[0].value), ListItems(binary, ps[1..], rest)))
  }

  function BinaryItems(q: PropertyPolicy): Items {
    Cons(Count(|Visible(q).binaryValue| % TWO32), ListItems(true, Visible(q).binaryValue, Nil))
  }

  function ItemsOf(q: PropertyPolicy): Items {
    Cons(Count(|Visible(q).value| % TWO32), ListItems(false, Visible(q).value, BinaryItems(q)))
  }

  ghost function Encoded(e: Endian, q: PropertyPolicy): Bytes { PutAll(e, [], ItemsOf(q)) }

  predicate Writable(q: PropertyPolicy) { AllPropertiesFit(Visible(q).value) && AllPropertiesFit(Visible(q).binaryValue) }

  // ----- writing ------------------------------------------------------------------------

  method WriteValue(e: Endian, binary: bool, out: Bytes, prevLen: nat, v: Bytes) returns (more: Bytes)
    requires FitsWord(v) && InStep(|out|, prevLen)
    ensures more == Put(e, out, ValueItem(binary, v)) && InStep(|more|, ValueLen(binary, v))
  {
    hide Put, InStep, FitsWord;
    if binary {
      more := WriteVec(e, out, prevLen, v);
    } else {
      more := WriteText(e, out, prevLen, v);
    }
  }

  method WriteProperties(e: Endian, binary: bool, start: Bytes, ps: seq<Property>, ghost rest: Items)
    returns (out: Bytes, prevLen: nat)
    requires AllPropertiesFit(ps) && InStep(|start|, 0)
    ensures PutAll(e, start, ListItems(binary, ps, rest)) == PutAll(e, out, rest) && InStep(|out|, prevLen)
  {
    hide Put, InStep, FitsWord, SerializedLen, ValueItem, ValueLen;
    out, prevLen := start, 0;
    for i := 0 to |ps|
      invariant PutAll(e, start, ListItems(binary, ps, rest)) == PutAll(e, out, ListItems(binary, ps[i..], rest))
      invariant InStep(|out|, prevLen)
    {
      assert ps[i..][0] == ps[i] && ps[i..][1..] == ps[i + 1..];
      ghost var left := ListItems(binary, ps[i..], rest);
      ghost var before := out;
      out := WriteText(e, out, prevLen, ps[i].name);
      assert PutAll(e, before, left) == PutAll(e, out, left.tail);
      out := WriteValue(e, binary, out, |ps[i].name| + 1, ps[i].value);
      SerializedLenInStep(binary, ps[i], |out|);
      prevLen := SerializedLen(binary, ps[i]);
    }
  }

  method WriteTo(e: Endian, q: PropertyPolicy) returns (out: Bytes)
    requires Writable(q)
    ensures out == Encoded(e, q)
  {
    hide Put, InStep, FitsWord, ListItems, Propagated;
    var value := Propagated(q.value);
    StartsInStep();
    out := WriteCount(e, [], 0, |value| % TWO32);
    var prevLen: nat;
    out, prevLen := WriteProperties(e, false, out, value, BinaryItems(q));
    var binaryValue := Propagated(q.binaryValue);
    out := WriteCount(e, out, prevLen, |binaryValue| % TWO32);
    out, prevLen := WriteProperties(e, true, out, binaryValue, Nil);
  }

  // ----- reading ------------------------------------------------------------------------

  /** The properties read, and the serialized length of the last one. */
  datatype Batch = Batch(ps: seq<Property>, prevLen: nat)

  function ReadValue(e: Endian, binary: bool, d: Bytes, pos: nat, prevLen: nat): Got<Bytes> {
    if binary then ReadPaddedBlob(e, d, pos, prevLen) else ReadPaddedText(e, d, pos, prevLen)
  }

  function ReadProperty(e: Endian, binary: bool, d: Bytes, pos: nat, prevLen: nat): Got<Property> {
    var name := ReadPaddedText(e, d, pos, prevLen);
    if name.Failed? then Failed else
    var value := ReadValue(e, binary, d, name.next, |name.value| + 1);
    if value.Failed? then Failed else Got(Property(name.value, value.value, true), value.next)
  }

  function ReadProperties(e: Endian, binary: bool, d: Bytes, pos: nat, prevLen: nat, n: nat): Got<Batch>
    decreases n
  {
    if n == 0 then Got(Batch([], prevLen), pos)
    else
      var p := ReadProperty(e, binary, d, pos, prevLen);
      if p.Failed? then Failed
      else After([p.value], ReadProperties(e, binary, d, p.next, SerializedLen(binary, p.value), n - 1))
  }

  function After(some: seq<Property>, rest: Got<Batch>): Got<Batch> {
    if rest.Failed? then Failed else Got(Batch(some + rest.value.ps, rest.value.prevLen), rest.next)
  }

  /** The binary part may be missing altogether. */
  function ReadBinaryPart(e: Endian, d: Bytes, pos: nat, value: seq<Property>): Got<PropertyPolicy> {
    var m := ReadWord(e, d, pos);
    if m.Failed? then Got(PropertyPolicy(value, []), pos) else
    var bs := ReadProperties(e, true, d, m.next, 0, m.value);
    if bs.Failed? then Failed else Got(PropertyPolicy(value, bs.value.ps), bs.next)
  }

  function Read(e: Endian, d: Bytes, pos: nat): Got<PropertyPolicy> {
    var n := ReadWord(e, d, pos);
    if n.Failed? then Failed else
    var vs := ReadProperties(e, false, d, n.next, 0, n.value);
    if vs.Failed? then Failed else
    var p := SkipPad(d, vs.next, vs.value.prevLen);
    if p.Failed? then Failed else ReadBinaryPart(e, d, p.next, vs.value.ps)
  }

  method ReadOne(c: Cursor, binary: bool, prevLen: nat) returns (r: Option<Property>)
    modifies c
    ensures var g := ReadProperty(c.e, binary, c.data, old(c.pos), prevLen);
            if g.Got? then r == Some(g.value) && c.pos == g.next else r == None
  {
    hide ReadPaddedText, ReadPaddedBlob;
    r := None;
    var name := c.ReadPaddedString(prevLen);
    if name.None? { return; }
    var value;
    if binary {
      value := c.ReadPaddedVec(|name.value| + 1);
    } else {
      value := c.ReadPaddedString(|name.value| + 1);
    }
    if value.None? { return; }
    r := Some(Property(name.value, value.value, true));
  }

  lemma AfterOneMore(some: seq<Property>, p: Property, rest: Got<Batch>)
    ensures After(some, After([p], rest)) == After(some + [p], rest)
  {
    if rest.Got? {
      assert some + ([p] + rest.value.ps) == some + [p] + rest.value.ps;
    }
  }

  method ReadAll(c: Cursor, binary: bool, n: nat) returns (r: Option<Batch>)
    modifies c
    ensures var g := ReadProperties(c.e, binary, c.data, old(c.pos), 0, n);
            if g.Got? then r == Some(g.value) && c.pos == g.next else r == None
  {
    hide ReadProperty, SerializedLen;
    ghost var whole := ReadProperties(c.e, binary, c.data, c.pos, 0, n);
    var ps: seq<Property> := [];
    var prevLen: nat := 0;
    assert whole.Got? ==> ps + whole.value.ps == whole.value.ps;
    for i := 0 to n
      invariant whole == After(ps, ReadProperties(c.e, binary, c.data, c.pos, prevLen, n - i))
    {
      var p := ReadOne(c, binary, prevLen);
      if p.None? { return None; }
      prevLen := SerializedLen(binary, p.value);
      AfterOneMore(ps, p.value, ReadProperties(c.e, binary, c.data, c.pos, prevLen, n - i - 1));
      ps := ps + [p.value];
    }
    assert ps + [] == ps;
    r := Some(Batch(ps, prevLen));
  }

  method ReadFrom(c: Cursor) returns (r: Option<PropertyPolicy>)
    modifies c
    ensures var g := Read(c.e, c.data, old(c.pos));
            if g.Got? then r == Some(g.value) else r == None
  {
    hide ReadProperties, ReadWord, SkipPad;
    r := None;
    var n := c.ReadU32();
    if n.None? { return; }
    var vs := ReadAll(c, false, n.value);
    if vs.None? { return; }
    var ok := c.ReadPad(vs.value.prevLen);
    if !ok { return; }
    var m := c.ReadU32();
    if m.None? { return Some(PropertyPolicy(vs.value.ps, [])); }
    var bs := ReadAll(c, true, m.value);
    if bs.None? { return; }
    r := Some(PropertyPolicy(vs.value.ps, bs.value.ps));
  }

  // ----- reading undoes writing ------------------------------------------------------------

  lemma PropertyStep(e: Endian, binary: bool, d: Bytes, pos: nat, prevLen: nat, p: Property, rest: Items)
    requires Fits(p) && p.propagate && InStep(pos, prevLen)
    requires Laid(e, d, pos, Cons(Text(p.name), Cons(ValueItem(binary, p.value), rest)))
    ensures var g := ReadProperty(e, binary, d, pos, prevLen);
            g.Got? && g.value == p && InStep(g.next, SerializedLen(binary, p)) && Laid(e, d, g.next, rest)
  {
    hide ReadPaddedText, ReadPaddedBlob, InStep, Laid, SerializedLen, FitsWord;
    TextStep(e, d, pos, prevLen, p.name, Cons(ValueItem(binary, p.value), rest));
    var name := ReadPaddedText(e, d, pos, prevLen);
    if binary {
      BlobStep(e, d, name.next, |p.name| + 1, p.value, rest);
    } else {
      TextStep(e, d, name.next, |p.name| + 1, p.value, rest);
    }
    SerializedLenInStep(binary, p, ReadValue(e, binary, d, name.next, |p.name| + 1).next);
  }

  ghost predicate ReadsBatch(g: Got<Batch>, e: Endian, d: Bytes, ps: seq<Property>, rest: Items) {
    g.Got? && g.value.ps == ps && InStep(g.next, g.value.prevLen) && Laid(e, d, g.next, rest)
  }

  lemma {:induction false} BatchReadsBack(e: Endian, binary: bool, d: Bytes, pos: nat, prevLen: nat, ps: seq<Property>, rest: Items)
    requires AllPropertiesFit(ps) && (forall i :: 0 <= i < |ps| ==> ps[i].propagate) && InStep(pos, prevLen)
    requires Laid(e, d, pos, ListItems(binary, ps, rest))
    ensures ReadsBatch(ReadProperties(e, binary, d, pos, prevLen, |ps|), e, d, ps, rest)
    decreases |ps|
  {
    hide ReadProperty, InStep, Laid, SerializedLen, Fits;
    if ps != [] {
      PropertyStep(e, binary, d, pos, prevLen, ps[0], ListItems(binary, ps[1..], rest));
      var p := ReadProperty(e, binary, d, pos, prevLen);
      BatchReadsBack(e, binary, d, p.next, SerializedLen(binary, p.value), ps[1..], rest);
      assert ps == [ps[0]] + ps[1..];
    }
  }

  lemma {:induction false} BatchHasCount(e: Endian, binary: bool, d: Bytes, pos: nat, prevLen: nat, n: nat)
    ensures var g := ReadProperties(e, binary, d, pos, prevLen, n); g.Got? ==> |g.value.ps| == n
    decreases n
  {
    hide ReadProperty, SerializedLen;
    if n > 0 {
      var p := ReadProperty(e, binary, d, pos, prevLen);
      if p.Got? {
        BatchHasCount(e, binary, d, p.next, SerializedLen(binary, p.value), n - 1);
      }
    }
  }

  lemma BinaryPartReadsBack(e: Endian, q: PropertyPolicy, d: Bytes, pos: nat, value: seq<Property>)
    requires Writable(q) && InStep(pos, 0) && Laid(e, d, pos, BinaryItems(q))
    ensures Yields(ReadBinaryPart(e, d, pos, value), PropertyPolicy(value, Visible(q).binaryValue))
            <==> |Visible(q).binaryValue| < TWO32
  {
    hide ReadWord, ReadProperties, Laid, InStep, Propagated, Fits, ListItems;
    var bs := Visible(q).binaryValue;
    CountStep(e, d, pos, 0, |bs| % TWO32, ListItems(true, bs, Nil));
    var m := ReadWord(e, d, pos);
    BatchHasCount(e, true, d, m.next, 0, m.value);
    if |bs| < TWO32 {
      PropagatedMarked(q.binaryValue);
      BatchReadsBack(e, true, d, m.next, 0, bs, Nil);
    }
  }

  lemma PropagatedMarked(ps: seq<Property>)
    ensures forall i :: 0 <= i < |Propagated(ps)| ==> Propagated(ps)[i].propagate
  {
  }

  lemma LaidReadsBack(e: Endian, q: PropertyPolicy, d: Bytes)
    requires Writable(q) && Laid(e, d, 0, ItemsOf(q))
    ensures Yields(Read(e, d, 0), Visible(q)) <==> |Visible(q).value| < TWO32 && |Visible(q).binaryValue| < TWO32
  {
    hide ReadWord, ReadProperties, Laid, InStep, Propagated, Fits, ListItems, BinaryItems, ReadBinaryPart;
    var vs := Visible(q).value;
    StartsInStep();
    CountStep(e, d, 0, 0, |vs| % TWO32, ListItems(false, vs, BinaryItems(q)));
    var n := ReadWord(e, d, 0);
    BatchHasCount(e, false, d, n.next, 0, n.value);
    var g := ReadProperties(e, false, d, n.next, 0, n.value);
    if |vs| < TWO32 {
      PropagatedMarked(q.value);
      BatchReadsBack(e, false, d, n.next, 0, vs, BinaryItems(q));
      BinaryItemsStart(q);
      SkipStep(e, d, g.next, g.value.prevLen, BinaryItems(q));
      BinaryPartReadsBack(e, q, d, SkipPad(d, g.next, g.value.prevLen).next, vs);
    } else if g.Got? && SkipPad(d, g.next, g.value.prevLen).Got? {
      BinaryPartKeepsValue(e, d, SkipPad(d, g.next, g.value.prevLen).next, g.value.ps);
    }
  }

  lemma BinaryItemsStart(q: PropertyPolicy)
    ensures BinaryItems(q).Cons?
  {
  }

  lemma BinaryPartKeepsValue(e: Endian, d: Bytes, pos: nat, value: seq<Property>)
    ensures var g := ReadBinaryPart(e, d, pos, value); g.Got? ==> g.value.value == value
  {
  }

  /** Whatever follows, reading gives back exactly the propagated properties of both
      kinds, in order, just when 32 bits can count them. */
  lemma ReadsBackIff(e: Endian, q: PropertyPolicy, tail: Bytes)
    requires Writable(q)
    ensures Yields(Read(e, Encoded(e, q) + tail, 0), Visible(q))
            <==> |Visible(q).value| < TWO32 && |Visible(q).binaryValue| < TWO32
  {
    hide Read, Laid, Writable, ItemsOf, Yields;
    WrittenIsLaid(e, ItemsOf(q), tail);
    LaidReadsBack(e, q, Encoded(e, q) + tail);
  }

  /** The propagated properties keep their order. */
  lemma {:induction false} PropagatedKeepsOrder(a: seq<Property>, b: seq<Property>)
    ensures Propagated(a + b) == Propagated(a) + Propagated(b)
    decreases |a|
  {
    if a == [] {
      assert a + b == b;
    } else {
      assert (a + b)[0] == a[0] && (a + b)[1..] == a[1..] + b;
      PropagatedKeepsOrder(a[1..], b);
      var first := if a[0].propagate then [a[0]] else [];
      assert first + (Propagated(a[1..]) + Propagated(b)) == first + Propagated(a[1..]) + Propagated(b);
    }
  }

  /** Each property is kept, in its place, exactly if it is marked for propagation. */
  lemma PropagatedExactly(a: seq<Property>, p: Property, b: seq<Property>)
    ensures Propagated(a + [p] + b) == Propagated(a) + (if p.propagate then [p] else []) + Propagated(b)
    ensures Propagated([]) == []
  {
    PropagatedKeepsOrder(a + [p], b);
    PropagatedKeepsOrder(a, [p]);
    assert [p][1..] == [];
  }
}
