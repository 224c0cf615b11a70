/** The codec of the content-filter parameter: four texts and a list of texts, with
    padding before each length word worked out from the length of the text before. */
module ContentFilters {
  import opened Basics
  import opened Wire

  datatype ContentFilter = ContentFilter(
    topicName: Bytes,
    relatedTopicName: Bytes,
    className: Bytes,
    expression: Bytes,
    parameters: seq<Bytes>)

  predicate AllFit(ss: seq<Bytes>) { forall i :: 0 <= i < |ss| ==> FitsWord(ss[i]) }

  predicate Writable(f: ContentFilter) {
    FitsWord(f.topicName) && FitsWord(f.relatedTopicName) && FitsWord(f.className) && FitsWord(f.expression)
    && AllFit(f.parameters)
  }

  function Texts(ss: seq<Bytes>): Items
    decreases |ss|
  {
    if ss == [] then Nil else Cons(Text(ss[0]), Texts(ss[1..]))
  }

  function ItemsOf(f: ContentFilter): Items {
    Cons(Text(f.topicName), Cons(Text(f.relatedTopicName), Cons(Text(f.className), Cons(Text(f.expression),
      Cons(Count(|f.parameters| % TWO32), Texts(f.parameters))))))
  }

  /** Each length word and the parameter count at a multiple of four. */
  ghost function Encoded(e: Endian, f: ContentFilter): Bytes {
    PutAll(e, [], ItemsOf(f))
  }

  // ----- writing ------------------------------------------------------------------------

  method WriteTo(e: Endian, f: ContentFilter) returns (out: Bytes)
    requires Writable(f)
    ensures out == Encoded(e, f)
  {
    hide Put, InStep, FitsWord, Texts;
    ghost var todo := ItemsOf(f);
    StartsInStep();
    out := WriteText(e, [], 0, f.topicName);
    assert PutAll(e, out, todo.tail) == Encoded(e, f);
    out := WriteText(e, out, |f.topicName| + 1, f.relatedTopicName);
    assert PutAll(e, out, todo.tail.tail) == Encoded(e, f);
    out := WriteText(e, out, |f.relatedTopicName| + 1, f.className);
    assert PutAll(e, out, todo.tail.tail.tail) == Encoded(e, f);
    out := WriteText(e, out, |f.className| + 1, f.expression);
    assert PutAll(e, out, todo.tail.tail.tail.tail) == Encoded(e, f);
    out := WriteCount(e, out, |f.expression| + 1, |f.parameters| % TWO32);
    out := WriteParameters(e, out, f.parameters);
  }

  method WriteParameters(e: Endian, start: Bytes, ss: seq<Bytes>) returns (out: Bytes)
    requires AllFit(ss) && InStep(|start|, 0)
    ensures out == PutAll(e, start, Texts(ss))
  {
    hide Put, InStep, FitsWord;
    out := start;
    var prevLen: nat := 0;
    for i := 0 to |ss|
      invariant PutAll(e, start, Texts(ss)) == PutAll(e, out, Texts(ss[i..])) && InStep(|out|, prevLen)
    {
      assert ss[i..][0] == ss[i] && ss[i..][1..] == ss[i + 1..];
      out := WriteText(e, out, prevLen, ss[i]);
      prevLen := |ss[i]| + 1;
    }
  }

  // ----- reading ------------------------------------------------------------------------

  function ReadTexts(e: Endian, d: Bytes, pos: nat, prevLen: nat, n: nat): Got<seq<Bytes>>
    decreases n
  {
    if n == 0 then Got([], pos)
    else
      var s := ReadPaddedText(e, d, pos, prevLen);
      if s.Failed? then Failed else Before([s.value], ReadTexts(e, d, s.next, |s.value| + 1, n - 1))
  }

  function Before<T>(some: seq<T>, rest: Got<seq<T>>): Got<seq<T>> {
    if rest.Failed? then Failed else Got(some + rest.value, rest.next)
  }

  function Read(e: Endian, d: Bytes, pos: nat): Got<ContentFilter> {
    var s1 := ReadPaddedText(e, d, pos, 0);
    if s1.Failed? then Failed else
    var s2 := ReadPaddedText(e, d, s1.next, |s1.value| + 1);
    if s2.Failed? then Failed else
    var s3 := ReadPaddedText(e, d, s2.next, |s2.value| + 1);
    if s3.Failed? then Failed else
    var s4 := ReadPaddedText(e, d, s3.next, |s3.value| + 1);
    if s4.Failed? then Failed else
    var n := ReadPaddedCount(e, d, s4.next, |s4.value| + 1);
    if n.Failed? then Failed else
    var ps := ReadTexts(e, d, n.next, 0, n.value);
    if ps.Failed? then Failed else Got(ContentFilter(s1.value, s2.value, s3.value, s4.value, ps.value), ps.next)
  }

  method ReadParameters(c: Cursor, n: nat) returns (r: Option<seq<Bytes>>)
    modifies c
    ensures var g := ReadTexts(c.e, c.data, old(c.pos), 0, n);
            if g.Got? then r == Some(g.value) && c.pos == g.next else r == None
  {
    hide ReadPaddedText;
    ghost var whole := ReadTexts(c.e, c.data, c.pos, 0, n);
    var ss: seq<Bytes> := [];
    var prevLen: nat := 0;
    assert whole.Got? ==> ss + whole.value == whole.value;
    for i := 0 to n
      invariant whole == Before(ss, ReadTexts(c.e, c.data, c.pos, prevLen, n - i))
    {
      ghost var at := c.pos;
      var s := c.ReadPaddedString(prevLen);
      if s.None? { return None; }
      BeforeOneMore(ss, s.value, ReadTexts(c.e, c.data, c.pos, |s.value| + 1, n - i - 1));
      ss := ss + [s.value];
      prevLen := |s.value| + 1;
    }
    assert ss + [] == ss;
    r := Some(ss);
  }

  lemma BeforeOneMore<T>(some: seq<T>, t: T, rest: Got<seq<T>>)
    ensures Before(some, Before([t], rest)) == Before(some + [t], rest)
  {
    if rest.Got? {
      assert some + ([t] + rest.value) == some + [t] + rest.value;
    }
  }

  method ReadFrom(c: Cursor) returns (r: Option<ContentFilter>)
    modifies c
    ensures var g := Read(c.e, c.data, old(c.pos));
            if g.Got? then r == Some(g.value) && c.pos == g.next else r == None
  {
    hide ReadPaddedText, ReadTexts;
    r := None;
    var s1 := c.ReadPaddedString(0);
    if s1.None? { return; }
    var s2 := c.ReadPaddedString(|s1.value| + 1);
    if s2.None? { return; }
    var s3 := c.ReadPaddedString(|s2.value| + 1);
    if s3.None? { return; }
    var s4 := c.ReadPaddedString(|s3.value| + 1);
    if s4.None? { return; }
    var ok := c.ReadPad(|s4.value| + 1);
    if !ok { return; }
    var n := c.ReadU32();
    if n.None? { return; }
    var ps := ReadParameters(c, n.value);
    if ps.None? { return; }
    r := Some(ContentFilter(s1.value, s2.value, s3.value, s4.value, ps.value));
  }

  // ----- reading undoes writing ------------------------------------------------------------

  lemma {:induction false} TextsReadBack(e: Endian, d: Bytes, pos: nat, prevLen: nat, ss: seq<Bytes>, n: nat)
    requires AllFit(ss) && n <= |ss| && InStep(pos, prevLen) && Laid(e, d, pos, Texts(ss))
    ensures Yields(ReadTexts(e, d, pos, prevLen, n), ss[..n])
    decreases n
  {
    hide ReadPaddedText, InStep, FitsWord, Laid;
    if n > 0 {
      TextStep(e, d, pos, prevLen, ss[0], Texts(ss[1..]));
      TextsReadBack(e, d, ReadPaddedText(e, d, pos, prevLen).next, |ss[0]| + 1, ss[1..], n - 1);
      assert ss[..n] == [ss[0]] + ss[1..][..n - 1];
    }
  }

  lemma LaidReadsBack(e: Endian, f: ContentFilter, d: Bytes)
    requires Writable(f) && Laid(e, d, 0, ItemsOf(f))
    ensures Yields(Read(e, d, 0), f.(parameters := f.parameters[..|f.parameters| % TWO32]))
  {
    hide ReadPaddedText, ReadPaddedCount, ReadTexts, InStep, FitsWord, Laid, AllFit;
    var i := ItemsOf(f);
    StartsInStep();
    TextStep(e, d, 0, 0, f.topicName, i.tail);
    var s1 := ReadPaddedText(e, d, 0, 0);
    TextStep(e, d, s1.next, |s1.value| + 1, f.relatedTopicName, i.tail.tail);
    var s2 := ReadPaddedText(e, d, s1.next, |s1.value| + 1);
    TextStep(e, d, s2.next, |s2.value| + 1, f.className, i.tail.tail.tail);
    var s3 := ReadPaddedText(e, d, s2.next, |s2.value| + 1);
    TextStep(e, d, s3.next, |s3.value| + 1, f.expression, i.tail.tail.tail.tail);
    var s4 := ReadPaddedText(e, d, s3.next, |s3.value| + 1);
    CountStep(e, d, s4.next, |s4.value| + 1, |f.parameters| % TWO32, Texts(f.parameters));
    var n := ReadPaddedCount(e, d, s4.next, |s4.value| + 1);
    TextsReadBack(e, d, n.next, 0, f.parameters, n.value);
  }

  /** Whatever follows, reading gives back what was written, except that the 32-bit
      count keeps only so many of the parameters. */
  lemma ReadsBack(e: Endian, f: ContentFilter, tail: Bytes)
    requires Writable(f)
    ensures Yields(Read(e, Encoded(e, f) + tail, 0), f.(parameters := f.parameters[..|f.parameters| % TWO32]))
  {
    hide Read, Laid, Writable, ItemsOf, Yields;
    WrittenIsLaid(e, ItemsOf(f), tail);
    LaidReadsBack(e, f, Encoded(e, f) + tail);
  }

  /** So a filter survives the wire exactly when its parameters can be counted. */
  lemma SurvivesIff(e: Endian, f: ContentFilter, tail: Bytes)
    requires Writable(f)
    ensures Yields(Read(e, Encoded(e, f) + tail, 0), f) <==> |f.parameters| < TWO32
  {
    hide Read, Encoded, Writable;
    ReadsBack(e, f, tail);
    if |f.parameters| < TWO32 {
      assert f.parameters[..|f.parameters| % TWO32] == f.parameters;
    } else {
      assert |f.parameters[..|f.parameters| % TWO32]| < |f.parameters|;
    }
  }

  /** Every length word and the count sit at multiples of four. */
  lemma LengthsAreAligned(e: Endian, f: ContentFilter, k: nat)
    requires Writable(f) && k < Length(ItemsOf(f))
    ensures Offset(e, 0, ItemsOf(f), k) % 4 == 0
    ensures HasAt(Encoded(e, f), Offset(e, 0, ItemsOf(f), k), Cell(e, Nth(ItemsOf(f), k)))
  {
    PutAllLays(e, [], ItemsOf(f));
    ItemsAreAligned(e, Encoded(e, f), 0, ItemsOf(f), k);
  }
}
