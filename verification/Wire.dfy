/** Octets on the wire: words, texts and binary values, each behind a length word that
    is aligned to four octets (RTPS 2.5, sections 9.3 and 9.4). */
module Wire {
  import opened Basics

  type Bytes = seq<byte>

  const TWO16 := 0x1_0000
  const TWO32 := 0x1_0000_0000

  type u16 = x: int | 0 <= x < 0x1_0000
  type u32 = x: int | 0 <= x < 0x1_0000_0000
  type i32 = x: int | -0x8000_0000 <= x < 0x8000_0000

  datatype Endian = Little | Big

  /** The number that four octets stand for. */
  function WordOf(e: Endian, b: Bytes): u32
    requires |b| == 4
  {
    if e == Little
    then b[0] as int + 256 * b[1] as int + 65536 * b[2] as int + 16777216 * b[3] as int
    else b[3] as int + 256 * b[2] as int + 65536 * b[1] as int + 16777216 * b[0] as int
  }

  predicate IsWord(e: Endian, n: u32, b: Bytes) { |b| == 4 && WordOf(e, b) == n }

  /** The octets of a number, by division. */
  method WriteU32(e: Endian, n: u32) returns (b: Bytes)
    ensures b == Word(e, n)
  {
    var b0, b1, b2, b3 := (n % 256) as byte, (n / 256 % 256) as byte, (n / 65536 % 256) as byte, (n / 16777216) as byte;
    b := if e == Little then [b0, b1, b2, b3] else [b3, b2, b1, b0];
    assert n / 256 / 256 == n / 65536 && n / 65536 / 256 == n / 16777216;
    WordIsUnique(e, n, b, Word(e, n));
  }

  lemma WordExists(e: Endian, n: u32)
    ensures exists b :: IsWord(e, n, b)
  {
    var b0, b1, b2, b3 := (n % 256) as byte, (n / 256 % 256) as byte, (n / 65536 % 256) as byte, (n / 16777216) as byte;
    assert n / 256 / 256 == n / 65536 && n / 65536 / 256 == n / 16777216;
    var b := if e == Little then [b0, b1, b2, b3] else [b3, b2, b1, b0];
    assert IsWord(e, n, b);
  }

  lemma WordIsUnique(e: Endian, n: u32, b: Bytes, c: Bytes)
    requires IsWord(e, n, b) && IsWord(e, n, c)
    ensures b == c
  {
    var x, y := if e == Little then b else [b[3], b[2], b[1], b[0]], if e == Little then c else [c[3], c[2], c[1], c[0]];
    DigitIsUnique(x[0], x[1] as int + 256 * x[2] as int + 65536 * x[3] as int, y[0], y[1] as int + 256 * y[2] as int + 65536 * y[3] as int);
    DigitIsUnique(x[1], x[2] as int + 256 * x[3] as int, y[1], y[2] as int + 256 * y[3] as int);
    DigitIsUnique(x[2], x[3] as int, y[2], y[3] as int);
  }

  lemma DigitIsUnique(a: byte, m: int, b: byte, n: int)
    requires a as int + 256 * m == b as int + 256 * n
    ensures a == b && m == n
  {
  }

  /** The four octets that stand for a number. */
  ghost function Word(e: Endian, n: u32): (b: Bytes)
    ensures |b| == 4 && WordOf(e, b) == n
  {
    WordExists(e, n);
    var b :| IsWord(e, n, b);
    b
  }

  function HalfOf(e: Endian, b: Bytes): u16
    requires |b| == 2
  {
    if e == Little then b[0] as int + 256 * b[1] as int else b[1] as int + 256 * b[0] as int
  }

  predicate IsHalf(e: Endian, n: u16, b: Bytes) { |b| == 2 && HalfOf(e, b) == n }

  method WriteU16(e: Endian, n: u16) returns (b: Bytes)
    ensures b == Half(e, n)
  {
    b := if e == Little then [(n % 256) as byte, (n / 256) as byte] else [(n / 256) as byte, (n % 256) as byte];
    assert b[0] == Half(e, n)[0] && b[1] == Half(e, n)[1];
  }

  ghost function Half(e: Endian, n: u16): (b: Bytes)
    ensures |b| == 2 && HalfOf(e, b) == n
  {
    assert IsHalf(e, n, if e == Little then [(n % 256) as byte, (n / 256) as byte] else [(n / 256) as byte, (n % 256) as byte]);
    var b :| IsHalf(e, n, b);
    b
  }

  /** A signed word in two's complement. */
  function AsWord(x: i32): u32 { if x < 0 then x + TWO32 else x }

  function AsSigned(n: u32): (x: i32)
    ensures AsWord(x) == n
  {
    if n >= 0x8000_0000 then n - TWO32 else n
  }

  // ----- items: a length word and what it counts ------------------------------------------

  /** A text, binary octets, or a bare count. */
  datatype Item = Text(s: Bytes) | Blob(s: Bytes) | Count(n: u32)

  datatype List<+T> = Nil | Cons(head: T, tail: List<T>)

  type Items = List<Item>

  /** The writer's conversion of a text length panics beyond this. */
  predicate FitsWord(s: Bytes) { |s| + 1 < TWO32 }

  /** A text is written with a zero behind it, which its length word counts. */
  ghost function Cell(e: Endian, i: Item): (b: Bytes)
    ensures |b| >= 4
  {
    match i
    case Text(s) => Word(e, (|s| + 1) % TWO32) + (s + [0])
    case Blob(s) => Word(e, |s| % TWO32) + s
    case Count(n) => Word(e, n)
  }

  // ----- layout -------------------------------------------------------------------------

  /** What n lacks to the next multiple of four. */
  function PadOf(n: nat): nat { 3 - (n + 3) % 4 }

  function AlignUp(n: nat): nat { n + PadOf(n) }

  function Zeros(n: nat): (z: Bytes)
    ensures |z| == n && forall i :: 0 <= i < n ==> z[i] == 0
  {
    seq(n, _ => 0)
  }

  /** The item is placed at the next multiple of four. */
  ghost function Put(e: Endian, out: Bytes, i: Item): Bytes { out + Zeros(PadOf(|out|)) + Cell(e, i) }

  ghost function PutAll(e: Endian, out: Bytes, items: Items): Bytes
    decreases items
  {
    match items
    case Nil => out
    case Cons(i, rest) => PutAll(e, Put(e, out, i), rest)
  }

  predicate HasAt(d: Bytes, pos: nat, cell: Bytes) {
    pos + |cell| <= |d| && d[pos..pos + |cell|] == cell
  }

  /** From pos on, the items follow each other, each at the next multiple of four. */
  ghost predicate Laid(e: Endian, d: Bytes, pos: nat, items: Items)
    decreases items
  {
    match items
    case Nil => true
    case Cons(i, rest) => HasAt(d, AlignUp(pos), Cell(e, i)) && Laid(e, d, AlignUp(pos) + |Cell(e, i)|, rest)
  }

  function Length(items: Items): nat {
    match items
    case Nil => 0
    case Cons(_, rest) => 1 + Length(rest)
  }

  /** The k-th item, and where it starts. */
  function Nth(items: Items, k: nat): Item
    requires k < Length(items)
  {
    if k == 0 then items.head else Nth(items.tail, k - 1)
  }

  ghost function Offset(e: Endian, pos: nat, items: Items, k: nat): nat
    requires k < Length(items)
    decreases k
  {
    if k == 0 then AlignUp(pos) else Offset(e, AlignUp(pos) + |Cell(e, items.head)|, items.tail, k - 1)
  }

  /** Every item, and so every length word, sits at a multiple of four. */
  lemma {:induction false} ItemsAreAligned(e: Endian, d: Bytes, pos: nat, items: Items, k: nat)
    requires Laid(e, d, pos, items) && k < Length(items)
    ensures Offset(e, pos, items, k) % 4 == 0 && HasAt(d, Offset(e, pos, items, k), Cell(e, Nth(items, k)))
    decreases k
  {
    AlignUpAligns(pos);
    if k > 0 {
      ItemsAreAligned(e, d, AlignUp(pos) + |Cell(e, items.head)|, items.tail, k - 1);
    }
  }

  lemma {:induction false} PutAllExtends(e: Endian, out: Bytes, items: Items)
    ensures |out| <= |PutAll(e, out, items)| && PutAll(e, out, items)[..|out|] == out
    decreases items
  {
    if items.Cons? {
      var next := Put(e, out, items.head);
      PutAllExtends(e, next, items.tail);
      assert next[..|out|] == out;
    }
  }

  lemma {:induction false} PutAllLays(e: Endian, out: Bytes, items: Items)
    ensures Laid(e, PutAll(e, out, items), |out|, items)
    decreases items
  {
    hide Put, AlignUp, Cell;
    if items.Cons? {
      var next := Put(e, out, items.head);
      PutAllLays(e, next, items.tail);
      PutAllExtends(e, next, items.tail);
      PutPlaces(e, out, items.head, PutAll(e, next, items.tail));
    }
  }

  lemma PutPlaces(e: Endian, out: Bytes, i: Item, d: Bytes)
    requires var next := Put(e, out, i); |next| <= |d| && d[..|next|] == next
    ensures HasAt(d, AlignUp(|out|), Cell(e, i)) && |Put(e, out, i)| == AlignUp(|out|) + |Cell(e, i)|
  {
    hide Cell;
    var next := Put(e, out, i);
    var q := AlignUp(|out|);
    assert next[q..q + |Cell(e, i)|] == Cell(e, i);
    assert d[q..q + |Cell(e, i)|] == d[..|next|][q..q + |Cell(e, i)|];
  }

  /** More octets behind do not disturb the layout. */
  lemma {:induction false} LaidExtends(e: Endian, d: Bytes, tail: Bytes, pos: nat, items: Items)
    requires Laid(e, d, pos, items)
    ensures Laid(e, d + tail, pos, items)
    decreases items
  {
    hide AlignUp, Cell;
    if items.Cons? {
      var q, n := AlignUp(pos), |Cell(e, items.head)|;
      assert (d + tail)[q..q + n] == d[q..q + n];
      LaidExtends(e, d, tail, q + n, items.tail);
    }
  }

  /** What was written is laid out in the buffer, whatever follows. */
  lemma WrittenIsLaid(e: Endian, items: Items, tail: Bytes)
    ensures Laid(e, PutAll(e, [], items) + tail, 0, items)
  {
    PutAllLays(e, [], items);
    LaidExtends(e, PutAll(e, [], items), tail, 0, items);
  }

  // ----- reading ---------------------------------------------------------------------------

  datatype Got<+T> = Got(value: T, next: nat) | Failed

  predicate Yields<T(==)>(g: Got<T>, v: T) { g.Got? && g.value == v }

  function ReadWord(e: Endian, d: Bytes, pos: nat): (g: Got<u32>)
    ensures g.Got? ==> g.next == pos + 4 <= |d|
  {
    if pos + 4 <= |d| then Got(WordOf(e, d[pos..pos + 4]), pos + 4) else Failed
  }

  function ReadBytes(d: Bytes, pos: nat, n: nat): (g: Got<Bytes>)
    ensures g.Got? ==> g.next == pos + n <= |d|
  {
    if pos + n <= |d| then Got(d[pos..pos + n], pos + n) else Failed
  }

  /** Without its last character, be that a zero or not; an octet from 128 to 191
      continues a character. */
  function PopChar(s: Bytes): Bytes
    decreases |s|
  {
    if s == [] then []
    else if 128 <= s[|s| - 1] < 192 then PopChar(s[..|s| - 1])
    else s[..|s| - 1]
  }

  function ReadBlob(e: Endian, d: Bytes, pos: nat): (g: Got<Bytes>)
    ensures g.Got? ==> pos <= g.next <= |d|
  {
    var n := ReadWord(e, d, pos);
    if n.Failed? then Failed else ReadBytes(d, n.next, n.value)
  }

  function ReadText(e: Endian, d: Bytes, pos: nat): (g: Got<Bytes>)
    ensures g.Got? ==> pos <= g.next <= |d|
  {
    var s := ReadBlob(e, d, pos);
    if s.Failed? then Failed else Got(PopChar(s.value), s.next)
  }

  /** Skips what a value of `len` octets leaves to the next multiple of four. */
  function SkipPad(d: Bytes, pos: nat, len: nat): (g: Got<()>)
    ensures g.Got? ==> g.next == pos + PadOf(len)
  {
    if PadOf(len) > 0 && pos + PadOf(len) > |d| then Failed else Got((), pos + PadOf(len))
  }

  /** A position is out of alignment exactly as the length before it says. */
  predicate InStep(pos: nat, prevLen: nat) { pos % 4 == prevLen % 4 }

  lemma StartsInStep()
    ensures InStep(0, 0)
  {
  }

  lemma WordAt(e: Endian, d: Bytes, pos: nat, n: u32, s: Bytes)
    requires HasAt(d, pos, Word(e, n) + s)
    ensures ReadWord(e, d, pos) == Got(n, pos + 4)
    ensures d[pos + 4..pos + 4 + |s|] == s
  {
    var cell := Word(e, n) + s;
    assert d[pos..pos + 4] == d[pos..pos + |cell|][..4] == cell[..4] == Word(e, n);
    assert d[pos + 4..pos + 4 + |s|] == d[pos..pos + |cell|][4..] == cell[4..] == s;
  }

  lemma BlobAt(e: Endian, d: Bytes, pos: nat, s: Bytes)
    requires |s| < TWO32 && HasAt(d, pos, Word(e, |s|) + s)
    ensures ReadBlob(e, d, pos) == Got(s, pos + 4 + |s|)
  {
    WordAt(e, d, pos, |s|, s);
  }

  function ReadPaddedText(e: Endian, d: Bytes, pos: nat, prevLen: nat): Got<Bytes> {
    var p := SkipPad(d, pos, prevLen);
    if p.Failed? then Failed else ReadText(e, d, p.next)
  }

  function ReadPaddedBlob(e: Endian, d: Bytes, pos: nat, prevLen: nat): Got<Bytes> {
    var p := SkipPad(d, pos, prevLen);
    if p.Failed? then Failed else ReadBlob(e, d, p.next)
  }

  function ReadPaddedCount(e: Endian, d: Bytes, pos: nat, prevLen: nat): Got<u32> {
    var p := SkipPad(d, pos, prevLen);
    if p.Failed? then Failed else ReadWord(e, d, p.next)
  }

  lemma SkipsToItem(d: Bytes, pos: nat, prevLen: nat, cell: Bytes)
    requires InStep(pos, prevLen) && HasAt(d, AlignUp(pos), cell)
    ensures SkipPad(d, pos, prevLen) == Got((), AlignUp(pos))
  {
  }

  lemma SamePad(a: nat, b: nat)
    requires InStep(a, b)
    ensures PadOf(a) == PadOf(b)
  {
  }

  lemma AlignUpAligns(n: nat)
    ensures AlignUp(n) % 4 == 0
  {
  }

  lemma AlignedNext(pos: nat, n: nat)
    ensures InStep(AlignUp(pos) + 4 + n, n)
  {
  }

  /** Reading one item where it was laid, from wherever the one before it ended. */
  lemma TextStep(e: Endian, d: Bytes, pos: nat, prevLen: nat, s: Bytes, rest: Items)
    requires FitsWord(s) && InStep(pos, prevLen) && Laid(e, d, pos, Cons(Text(s), rest))
    ensures var g := ReadPaddedText(e, d, pos, prevLen);
            g.Got? && g.value == s && InStep(g.next, |s| + 1) && Laid(e, d, g.next, rest)
  {
    hide SkipPad, AlignUp, PadOf, InStep, WordOf, ReadBlob;
    var z: Bytes := s + [0];
    SkipsToItem(d, pos, prevLen, Cell(e, Text(s)));
    AlignedNext(pos, |z|);
    BlobAt(e, d, AlignUp(pos), z);
    assert z[..|z| - 1] == s;
  }

  /** Skipping the padding first changes nothing. */
  lemma SkipStep(e: Endian, d: Bytes, pos: nat, prevLen: nat, items: Items)
    requires items.Cons? && InStep(pos, prevLen) && Laid(e, d, pos, items)
    ensures var p := SkipPad(d, pos, prevLen); p.Got? && InStep(p.next, 0) && Laid(e, d, p.next, items)
  {
    SkipsToItem(d, pos, prevLen, Cell(e, items.head));
    AlignUpAligns(pos);
  }

  lemma BlobStep(e: Endian, d: Bytes, pos: nat, prevLen: nat, s: Bytes, rest: Items)
    requires FitsWord(s) && InStep(pos, prevLen) && Laid(e, d, pos, Cons(Blob(s), rest))
    ensures var g := ReadPaddedBlob(e, d, pos, prevLen);
            g.Got? && g.value == s && InStep(g.next, |s|) && Laid(e, d, g.next, rest)
  {
    hide SkipPad, AlignUp, PadOf, InStep, WordOf, ReadBlob;
    SkipsToItem(d, pos, prevLen, Cell(e, Blob(s)));
    AlignedNext(pos, |s|);
    BlobAt(e, d, AlignUp(pos), s);
  }

  lemma CountStep(e: Endian, d: Bytes, pos: nat, prevLen: nat, n: u32, rest: Items)
    requires InStep(pos, prevLen) && Laid(e, d, pos, Cons(Count(n), rest))
    ensures var g := ReadPaddedCount(e, d, pos, prevLen);
            g.Got? && g.value == n && InStep(g.next, 0) && Laid(e, d, g.next, rest)
  {
    hide SkipPad, AlignUp, PadOf, InStep, WordOf, ReadWord;
    SkipsToItem(d, pos, prevLen, Cell(e, Count(n)));
    AlignedNext(pos, 0);
    assert Word(e, n) + [] == Word(e, n);
    WordAt(e, d, AlignUp(pos), n, []);
  }

  // ----- cursors -----------------------------------------------------------------------------

  /** A reader over a buffer. */
  class Cursor {
    const e: Endian
    const data: Bytes
    var pos: nat

    constructor (e: Endian, data: Bytes)
      ensures this.e == e && this.data == data && pos == 0
    {
      this.e, this.data, pos := e, data, 0;
    }

    method ReadU32() returns (r: Option<u32>)
      modifies this
      ensures var g := ReadWord(e, data, old(pos));
              if g.Got? then r == Some(g.value) && pos == g.next else r == None && pos == old(pos)
    {
      r := None;
      if pos + 4 <= |data| {
        r := Some(WordOf(e, data[pos..pos + 4]));
        pos := pos + 4;
      }
    }

    method ReadVec() returns (r: Option<Bytes>)
      modifies this
      ensures var g := ReadBlob(e, data, old(pos));
              if g.Got? then r == Some(g.value) && pos == g.next else r == None
    {
      r := None;
      var n := ReadU32();
      if n.Some? && pos + n.value <= |data| {
        r := Some(data[pos..pos + n.value]);
        pos := pos + n.value;
      }
    }

    method ReadString() returns (r: Option<Bytes>)
      modifies this
      ensures var g := ReadText(e, data, old(pos));
              if g.Got? then r == Some(g.value) && pos == g.next else r == None
    {
      r := ReadVec();
      if r.Some? {
        r := Some(PopChar(r.value));
      }
    }

    method ReadPad(len: nat) returns (ok: bool)
      modifies this
      ensures var g := SkipPad(data, old(pos), len);
              if g.Got? then ok && pos == g.next else !ok
    {
      ok := true;
      var m := len % 4;
      if m > 0 {
        ok := pos + (4 - m) <= |data|;
        if ok { pos := pos + (4 - m); }
      }
    }

    method ReadPaddedString(prevLen: nat) returns (r: Option<Bytes>)
      modifies this
      ensures var g := ReadPaddedText(e, data, old(pos), prevLen);
              if g.Got? then r == Some(g.value) && pos == g.next else r == None
    {
      r := None;
      var ok := ReadPad(prevLen);
      if ok { r := ReadString(); }
    }

    method ReadPaddedVec(prevLen: nat) returns (r: Option<Bytes>)
      modifies this
      ensures var g := ReadPaddedBlob(e, data, old(pos), prevLen);
              if g.Got? then r == Some(g.value) && pos == g.next else r == None
    {
      r := None;
      var ok := ReadPad(prevLen);
      if ok { r := ReadVec(); }
    }
  }

  // ----- writing ------------------------------------------------------------------------------

  /** The padding before the next item, from the length of the previous one. */
  method WritePad(out: Bytes, prevLen: nat) returns (more: Bytes)
    ensures more == out + Zeros(PadOf(prevLen))
  {
    more := out;
    var m := prevLen % 4;
    if m > 0 {
      for i := 0 to 4 - m
        invariant more == out + Zeros(i)
      {
        more := more + [0];
      }
    }
    assert out + Zeros(0) == out;
  }

  method WriteText(e: Endian, out: Bytes, prevLen: nat, s: Bytes) returns (more: Bytes)
    requires FitsWord(s) && InStep(|out|, prevLen)
    ensures more == Put(e, out, Text(s)) && InStep(|more|, |s| + 1)
  {
    hide PadOf, InStep, Word;
    SamePad(|out|, prevLen);
    AlignedNext(|out|, |s| + 1);
    more := WritePad(out, prevLen);
    var len := WriteU32(e, |s| + 1);
    more := more + (len + (s + [0]));
  }

  method WriteVec(e: Endian, out: Bytes, prevLen: nat, s: Bytes) returns (more: Bytes)
    requires FitsWord(s) && InStep(|out|, prevLen)
    ensures more == Put(e, out, Blob(s)) && InStep(|more|, |s|)
  {
    hide PadOf, InStep, Word;
    SamePad(|out|, prevLen);
    AlignedNext(|out|, |s|);
    more := WritePad(out, prevLen);
    var len := WriteU32(e, |s|);
    more := more + (len + s);
  }

  method WriteCount(e: Endian, out: Bytes, prevLen: nat, n: u32) returns (more: Bytes)
    requires InStep(|out|, prevLen)
    ensures more == Put(e, out, Count(n)) && InStep(|more|, 0)
  {
    SamePad(|out|, prevLen);
    AlignedNext(|out|, 0);
    more := WritePad(out, prevLen);
    var word := WriteU32(e, n);
    more := more + word;
  }
}
