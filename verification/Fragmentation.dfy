/** Cutting samples into DATAFRAG submessages and putting them together again
    (RTPS 2.5, section 8.3.8.3). */
module Fragmentation {
  import opened Basics
  import opened Payload

  datatype DataFrag = DataFrag(
    writerSn: int,
    startingNum: nat,
    fragmentsInSubmessage: nat,
    dataSize: nat,
    fragmentSize: nat,
    isKey: bool,
    payload: seq<byte>)

  /** dataSize / fragmentSize, rounded up. */
  function TotalFragments(dataSize: nat, fragmentSize: nat): nat
    requires fragmentSize > 0
  {
    dataSize / fragmentSize + (if dataSize % fragmentSize > 0 then 1 else 0)
  }

  /** The fragment numbered n (from 1) of a sample; a disposal by key hash cannot
      be fragmented. */
  function DataFragMsg(data: DDSData, sn: int, n: nat, fragmentSize: nat, sampleSize: nat): Option<DataFrag>
    requires n >= 1
  {
    if data.DisposeByKeyHash? then None
    else
      MulMonotone(0, n - 1, fragmentSize);
      var from: nat := (n - 1) * fragmentSize;
      var upTo: nat := Min(n * fragmentSize, sampleSize);
      var p := if data.Data? then data.serializedPayload else data.key;
      Some(DataFrag(sn, n, 1, sampleSize, fragmentSize, data.DisposeByKey?, BytesSlice(p, from, upTo)))
  }

  // ----- octet ranges -----------------------------------------------------

  /** Every octet of a sample lies in exactly one fragment. */
  lemma OctetHasFragment(j: nat, size: nat, fs: nat) returns (f: nat)
    requires fs > 0 && j < size
    ensures f < TotalFragments(size, fs)
    ensures f * fs <= j < (f + 1) * fs
  {
    f := j / fs;
    assert f * fs + j % fs == j;
    var q := size / fs;
    assert q * fs + size % fs == size;
    if f > q {
      MulMonotone(q + 1, f, fs);
    }
  }

  /** Every fragment of a sample starts inside it. */
  lemma FragmentStartsInside(f: nat, size: nat, fs: nat)
    requires fs > 0 && f < TotalFragments(size, fs)
    ensures f * fs < size
  {
    var q := size / fs;
    assert q * fs + size % fs == size;
    if size % fs > 0 {
      MulMonotone(f, q, fs);
    } else {
      MulMonotone(f + 1, q, fs);
    }
  }

  // ----- one assembly buffer ----------------------------------------------

  /** What an assembly buffer holds. */
  datatype Buffer = Buffer(bytes: seq<byte>, received: seq<bool>, modified: int)

  /** The buffer made for the first fragment of a sample. */
  function FreshBuffer(df: DataFrag, now: int): Buffer
    requires df.fragmentSize > 0
  {
    Buffer(seq(df.dataSize, _ => 0),
           seq(TotalFragments(df.dataSize, df.fragmentSize), _ => false),
           now)
  }

  /** The insertion stays inside the buffer and its bitmap. */
  predicate Fits(byteCount: nat, fragmentCount: nat, df: DataFrag, fs: nat) {
    && df.startingNum >= 1
    && (df.startingNum - 1) * fs <= byteCount
    && df.startingNum - 1 + df.fragmentsInSubmessage <= fragmentCount
  }

  function ToBeforeByte(byteCount: nat, df: DataFrag, fs: nat): (to: int)
    requires df.startingNum >= 1 && (df.startingNum - 1) * fs <= byteCount
    ensures (df.startingNum - 1) * fs <= to <= byteCount
    ensures to - (df.startingNum - 1) * fs <= |df.payload|
  {
    MulMonotone(0, df.fragmentsInSubmessage, fs);
    Min((df.startingNum - 1) * fs + Min(df.fragmentsInSubmessage * fs, |df.payload|), byteCount)
  }

  function Inserted(b: Buffer, df: DataFrag, fs: nat, now: int): (r: Buffer)
    requires Fits(|b.bytes|, |b.received|, df, fs)
    ensures |r.bytes| == |b.bytes| && |r.received| == |b.received|
  {
    var start := df.startingNum - 1;
    MulMonotone(0, start, fs);
    var from := start * fs;
    var to := ToBeforeByte(|b.bytes|, df, fs);
    Buffer(b.bytes[..from] + df.payload[..to - from] + b.bytes[to..],
           seq(|b.received|, i requires 0 <= i < |b.received| =>
             b.received[i] || start <= i < start + df.fragmentsInSubmessage),
           now)
  }

  predicate AllSet(bits: seq<bool>) {
    forall i :: 0 <= i < |bits| ==> bits[i]
  }

  /** The assembled octets as a sample; the parser may reject them. */
  function Decoded(bytes: seq<byte>, isKey: bool): Option<DDSData> {
    match FromBytes(bytes)
    case None => None
    case Some(p) => Some(if isKey then DisposeByKey(NotAliveDisposed, p) else Data(p))
  }

  /** Numbers (from 1) of the fragments not yet received, lowest first. */
  function Missing(received: seq<bool>): (m: seq<nat>)
  {
    MissingUpTo(received, |received|)
  }

  function MissingUpTo(received: seq<bool>, n: nat): (m: seq<nat>)
    requires n <= |received|
    ensures StrictlyAscending(m)
    ensures forall x :: x in m <==> 1 <= x <= n && !received[x - 1]
  {
    if n == 0 then []
    else if received[n - 1] then MissingUpTo(received, n - 1)
    else
      var m := MissingUpTo(received, n - 1);
      assert forall i :: 0 <= i < |m| ==> m[i] in m;
      m + [n]
  }

  class AssemblyBuffer {
    const bufferBytes: array<byte>
    const receivedBitmap: array<bool>
    var modifiedTime: int

    ghost function Storage(): set<object> { {this, bufferBytes, receivedBitmap} }

    ghost function View(): Buffer
      reads this, bufferBytes, receivedBitmap
    {
      Buffer(bufferBytes[..], receivedBitmap[..], modifiedTime)
    }

    constructor (df: DataFrag, now: int)
      requires 0 < df.fragmentSize <= df.dataSize
      ensures View() == FreshBuffer(df, now)
      ensures fresh(bufferBytes) && fresh(receivedBitmap)
    {
      bufferBytes := new byte[df.dataSize](_ => 0);
      receivedBitmap := new bool[TotalFragments(df.dataSize, df.fragmentSize)](_ => false);
      modifiedTime := now;
    }

    method InsertFrags(df: DataFrag, fs: nat, now: int)
      requires Fits(bufferBytes.Length, receivedBitmap.Length, df, fs)
      modifies this, bufferBytes, receivedBitmap
      ensures View() == Inserted(old(View()), df, fs, now)
    {
      ghost var was := View();
      var start := df.startingNum - 1;
      MulMonotone(0, start, fs);
      var from := start * fs;
      var to := ToBeforeByte(bufferBytes.Length, df, fs);
      forall i | from <= i < to {
        bufferBytes[i] := df.payload[i - from];
      }
      for f := 0 to df.fragmentsInSubmessage
        invariant forall i :: 0 <= i < receivedBitmap.Length ==>
          receivedBitmap[i] == (was.received[i] || start <= i < start + f)
        invariant bufferBytes[..] == Inserted(was, df, fs, now).bytes
      {
        receivedBitmap[start + f] := true;
      }
      modifiedTime := now;
      assert receivedBitmap[..] == Inserted(was, df, fs, now).received;
    }

    method IsComplete() returns (complete: bool)
      ensures complete == AllSet(receivedBitmap[..])
    {
      for i := 0 to receivedBitmap.Length
        invariant forall k :: 0 <= k < i ==> receivedBitmap[k]
      {
        if !receivedBitmap[i] {
          assert !receivedBitmap[..][i];
          return false;
        }
      }
      complete := true;
    }
  }

  // ----- the assembler of one remote writer --------------------------------

  datatype Assembler = Assembler(fragmentSize: nat, buffers: map<int, Buffer>)

  /** The arrival neither trips an assertion nor runs outside a buffer. */
  ghost predicate Accepts(a: Assembler, df: DataFrag) {
    if df.writerSn in a.buffers then
      var b := a.buffers[df.writerSn];
      Fits(|b.bytes|, |b.received|, df, a.fragmentSize)
    else
      && 0 < df.fragmentSize <= df.dataSize
      && Fits(df.dataSize, TotalFragments(df.dataSize, df.fragmentSize), df, a.fragmentSize)
  }

  /** The buffer of the arriving fragment's sample, made now if there is none. */
  ghost function EntryOf(a: Assembler, df: DataFrag, now: int): Buffer
    requires Accepts(a, df)
  {
    if df.writerSn in a.buffers then a.buffers[df.writerSn] else FreshBuffer(df, now)
  }

  /** The same buffer with the fragment in it. */
  ghost function Filled(a: Assembler, df: DataFrag, now: int): Buffer
    requires Accepts(a, df)
  {
    Inserted(EntryOf(a, df, now), df, a.fragmentSize, now)
  }

  ghost function Arrive(a: Assembler, df: DataFrag, now: int): (Assembler, Option<DDSData>)
    requires Accepts(a, df)
  {
    var b := Filled(a, df, now);
    if AllSet(b.received)
    then (a.(buffers := a.buffers - {df.writerSn}), Decoded(b.bytes, df.isKey))
    else (a.(buffers := a.buffers[df.writerSn := b]), None)
  }

  ghost function Collect(a: Assembler, expireBefore: int): Assembler {
    a.(buffers := map sn | sn in a.buffers && a.buffers[sn].modified >= expireBefore :: a.buffers[sn])
  }

  class FragmentAssembler {
    const fragmentSize: nat
    var assemblyBuffers: map<int, AssemblyBuffer>
    ghost var state: Assembler
    ghost var repr: set<object>

    /** The heap represents `state`; no two buffers share storage. */
    ghost predicate Valid()
      reads this, repr
    {
      && this !in repr
      && state.fragmentSize == fragmentSize
      && (forall i :: i in state.buffers ==> i in assemblyBuffers)
      && (forall i :: i in assemblyBuffers ==> Holds(i))
      && (forall i, j :: i in assemblyBuffers && j in assemblyBuffers && i != j ==>
            assemblyBuffers[i].Storage() !! assemblyBuffers[j].Storage())
    }

    ghost predicate Holds(i: int)
      requires i in assemblyBuffers
      reads this, repr
    {
      && assemblyBuffers[i].Storage() <= repr
      && i in state.buffers && assemblyBuffers[i].View() == state.buffers[i]
    }

    constructor (fragmentSize: nat)
      ensures Valid() && fresh(repr) && state == Assembler(fragmentSize, map[])
    {
      this.fragmentSize := fragmentSize;
      assemblyBuffers := map[];
      state := Assembler(fragmentSize, map[]);
      repr := {};
    }

    /** The buffer of the fragment's sample, made now if there is none. */
    method Entry(df: DataFrag, now: int) returns (buffer: AssemblyBuffer)
      requires Valid() && Accepts(state, df)
      modifies this
      ensures Valid() && fresh(repr - old(repr))
      ensures df.writerSn in assemblyBuffers && buffer == assemblyBuffers[df.writerSn]
      ensures state == old(state).(buffers := old(state).buffers[df.writerSn := EntryOf(old(state), df, now)])
    {
      var sn := df.writerSn;
      if sn in assemblyBuffers {
        buffer := assemblyBuffers[sn];
        assert Holds(sn);
        assert state.buffers == state.buffers[sn := state.buffers[sn]];
      } else {
        buffer := new AssemblyBuffer(df, now);
        assemblyBuffers := assemblyBuffers[sn := buffer];
        repr := repr + buffer.Storage();
        state := state.(buffers := state.buffers[sn := buffer.View()]);
      }
    }

    /** Puts the fragment into its sample's buffer. */
    method Fill(df: DataFrag, now: int) returns (buffer: AssemblyBuffer)
      requires Valid() && Accepts(state, df)
      modifies this, repr
      ensures Valid() && fresh(repr - old(repr))
      ensures df.writerSn in assemblyBuffers && buffer == assemblyBuffers[df.writerSn]
      ensures state == old(state).(buffers := old(state).buffers[df.writerSn := Filled(old(state), df, now)])
    {
      buffer := Entry(df, now);
      assert Holds(df.writerSn);
      assert |buffer.View().bytes| == buffer.bufferBytes.Length;
      assert |buffer.View().received| == buffer.receivedBitmap.Length;
      buffer.InsertFrags(df, fragmentSize, now);
      state := state.(buffers := state.buffers[df.writerSn := buffer.View()]);
    }

    method NewDatafrag(df: DataFrag, now: int) returns (r: Option<DDSData>)
      requires Valid() && Accepts(state, df)
      modifies this, repr
      ensures Valid() && fresh(repr - old(repr))
      ensures (state, r) == Arrive(old(state), df, now)
    {
      ghost var was := state;
      var buffer := Fill(df, now);
      assert Holds(df.writerSn);
      var complete := buffer.IsComplete();
      if complete {
        assemblyBuffers := assemblyBuffers - {df.writerSn};
        r := Decoded(buffer.bufferBytes[..], df.isKey);
        assert state.buffers - {df.writerSn} == was.buffers - {df.writerSn};
        state := state.(buffers := state.buffers - {df.writerSn});
      } else {
        r := None;
      }
    }

    method GarbageCollectBefore(expireBefore: int)
      requires Valid()
      modifies this
      ensures Valid() && repr == old(repr)
      ensures state == Collect(old(state), expireBefore)
    {
      assemblyBuffers := map sn | sn in assemblyBuffers && assemblyBuffers[sn].modifiedTime >= expireBefore
                           :: assemblyBuffers[sn];
      state := Collect(state, expireBefore);
    }

    method IsPartiallyReceived(sn: int) returns (r: bool)
      requires Valid()
      ensures r <==> sn in state.buffers
    {
      r := sn in assemblyBuffers;
    }

    method MissingFragsFor(sn: int) returns (m: seq<nat>)
      requires Valid()
      ensures m == if sn in state.buffers then Missing(state.buffers[sn].received) else []
    {
      m := [];
      if sn in assemblyBuffers {
        assert Holds(sn);
        var bits := assemblyBuffers[sn].receivedBitmap;
        for f := 0 to bits.Length
          invariant m == MissingUpTo(bits[..], f)
        {
          if !bits[f] {
            m := m + [f + 1];
          }
        }
      }
    }
  }
}
