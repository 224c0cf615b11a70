/** Values of fixed layout: a number of words followed by a number of plain octets, as
    the derived encodings lay out enumerations, durations, GUIDs and locators. */
module FixedCodec {
  import opened Basics
  import opened Wire
  import opened ParameterLists

  datatype Fixed = Fixed(words: seq<u32>, octets: Bytes)

  datatype Shape = Shape(words: nat, octets: nat)

  predicate HasShape(f: Fixed, s: Shape) { |f.words| == s.words && |f.octets| == s.octets }

  ghost function WordsBytes(e: Endian, ws: seq<u32>): (b: Bytes)
    ensures |b| == 4 * |ws|
    decreases |ws|
  {
    if ws == [] then [] else Word(e, ws[0]) + WordsBytes(e, ws[1..])
  }

  ghost function FixedBytes(e: Endian, f: Fixed): Bytes { WordsBytes(e, f.words) + f.octets }

  function ReadWords(e: Endian, d: Bytes, n: nat): (ws: seq<u32>)
    requires 4 * n <= |d|
    ensures |ws| == n
    decreases n
  {
    if n == 0 then [] else [WordOf(e, d[..4])] + ReadWords(e, d[4..], n - 1)
  }

  /** Octets behind the value are ignored. */
  function ReadFixed(e: Endian, s: Shape, d: Bytes): (r: Option<Fixed>)
    ensures r.Some? ==> HasShape(r.value, s)
  {
    if 4 * s.words + s.octets > |d| then None
    else Some(Fixed(ReadWords(e, d, s.words), d[4 * s.words..4 * s.words + s.octets]))
  }

  lemma {:induction false} WordsReadBack(e: Endian, ws: seq<u32>, tail: Bytes)
    ensures ReadWords(e, WordsBytes(e, ws) + tail, |ws|) == ws
    decreases |ws|
  {
    hide Word, WordOf;
    if ws != [] {
      var d := WordsBytes(e, ws) + tail;
      assert d[..4] == Word(e, ws[0]) && d[4..] == WordsBytes(e, ws[1..]) + tail;
      WordsReadBack(e, ws[1..], tail);
      assert ws == [ws[0]] + ws[1..];
    }
  }

  lemma FixedReadsBack(e: Endian, f: Fixed, s: Shape, tail: Bytes)
    requires HasShape(f, s)
    ensures ReadFixed(e, s, FixedBytes(e, f) + tail) == Some(f)
  {
    var d := FixedBytes(e, f) + tail;
    assert d == WordsBytes(e, f.words) + (f.octets + tail);
    WordsReadBack(e, f.words, f.octets + tail);
    assert d[4 * s.words..4 * s.words + s.octets] == f.octets;
  }

  method WriteFixed(e: Endian, f: Fixed) returns (out: Bytes)
    ensures out == FixedBytes(e, f)
  {
    hide Word;
    out := [];
    var ws := f.words;
    assert ws[0..] == ws && out + WordsBytes(e, ws) == WordsBytes(e, ws);
    for i := 0 to |ws|
      invariant out + WordsBytes(e, ws[i..]) == WordsBytes(e, ws)
    {
      assert ws[i..][0] == ws[i] && ws[i..][1..] == ws[i + 1..];
      var b := WriteU32(e, ws[i]);
      assert out + (b + WordsBytes(e, ws[i + 1..])) == out + b + WordsBytes(e, ws[i + 1..]);
      out := out + b;
    }
    assert ws[|ws|..] == [] && out + [] == out;
    out := out + f.octets;
  }

  // ----- fields of a parameter list ----------------------------------------------------------

  /** A field may be missing, hold a value, or hold octets that are no value. */
  datatype Field<+T> = Absent | Present(value: T) | Bad

  function FromOption<T>(o: Option<T>): Field<T> { if o.None? then Absent else Present(o.value) }

  function ToOption<T>(f: Field<T>): Option<T> { if f.Present? then Some(f.value) else None }

  predicate Shaped(f: Field<Fixed>, s: Shape) { f.Present? ==> HasShape(f.value, s) }

  /** The first value under an identifier counts. */
  function FixedField(e: Endian, ps: seq<Parameter>, pid: u16, s: Shape): (r: Field<Fixed>)
    ensures Shaped(r, s)
  {
    var vs := ValuesOf(ps, pid);
    if vs == [] then Absent
    else
      var f := ReadFixed(e, s, vs[0]);
      if f.None? then Bad else Present(f.value)
  }

  /** The values of a field that is written at most once. */
  ghost function AtMostOne(e: Endian, o: Option<Fixed>): seq<Bytes> {
    if o.None? then [] else [FixedBytes(e, o.value)]
  }

  lemma FieldReadsBack(e: Endian, ps: seq<Parameter>, pid: u16, s: Shape, o: Option<Fixed>)
    requires ValuesOf(ps, pid) == PadEach(AtMostOne(e, o))
    requires o.Some? ==> HasShape(o.value, s)
    ensures FixedField(e, ps, pid, s) == FromOption(o)
  {
    hide ReadFixed, FixedBytes, ValuesOf;
    if o.Some? {
      FixedReadsBack(e, o.value, s, Zeros(PadOf(|FixedBytes(e, o.value)|)));
      assert PadEach(AtMostOne(e, o)) == [Padded(FixedBytes(e, o.value))];
    }
  }
}
