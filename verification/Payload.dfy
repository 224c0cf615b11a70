/** Serialized samples: the four header octets followed by the value, read as one
    octet string when a sample is cut into fragments. */
module Payload {
  import opened Basics

  const H_LEN := 4

  type Octets2 = s: seq<byte> | |s| == 2 witness [0, 0]

  datatype SerializedPayload = SerializedPayload(
    representationIdentifier: Octets2,
    representationOptions: Octets2,
    value: seq<byte>)

  datatype ChangeKind = Alive | NotAliveDisposed | NotAliveUnregistered

  datatype DDSData =
    | Data(serializedPayload: SerializedPayload)
    | DisposeByKey(changeKind: ChangeKind, key: SerializedPayload)
    | DisposeByKeyHash(hashChangeKind: ChangeKind, keyHash: seq<byte>)

  /** Header and value as one octet string. */
  function Serialized(p: SerializedPayload): seq<byte> {
    p.representationIdentifier + p.representationOptions + p.value
  }

  /** A window of the serialized form, assembled without copying the value when
      the window does not touch the header. */
  function BytesSlice(p: SerializedPayload, from: nat, toBefore: nat): (r: seq<byte>)
    ensures var hi := Min(toBefore, |Serialized(p)|); r == Serialized(p)[Min(from, hi)..hi]
  {
    var hi := Min(toBefore, |p.value| + H_LEN);
    var lo := Min(from, hi);
    if lo >= H_LEN then
      var r := p.value[lo - H_LEN..hi - H_LEN];
      assert r == Serialized(p)[lo..hi];
      r
    else
      var header := p.representationIdentifier + p.representationOptions;
      var b := if hi > H_LEN then header + p.value[..hi - H_LEN] else header;
      assert b[lo..hi] == Serialized(p)[lo..hi];
      b[lo..hi]
  }

  /** Reads a payload back; fewer than four octets are an error. */
  function FromBytes(b: seq<byte>): Option<SerializedPayload> {
    if |b| < H_LEN then None
    else Some(SerializedPayload(b[0..2], b[2..4], b[4..]))
  }

  lemma FromBytesInvertsSerialized(p: SerializedPayload)
    ensures FromBytes(Serialized(p)) == Some(p)
  {
    var b := Serialized(p);
    assert b[0..2] == p.representationIdentifier;
    assert b[2..4] == p.representationOptions;
    assert b[4..] == p.value;
  }

  /** The octets that fragmentation works on; a key hash has none. */
  function SampleBytes(d: DDSData): seq<byte>
    requires !d.DisposeByKeyHash?
  {
    if d.Data? then Serialized(d.serializedPayload) else Serialized(d.key)
  }
}
