/** Exactly which parameter lists the decoders refuse, for every list of octets, whether an
    encoder could have written it or not. */
module Decoding {
  import opened Basics
  import opened Wire
  import opened ParameterLists
  import opened FixedCodec
  import opened Qos
  import opened Sedp
  import CF = ContentFilters

  /** A value is there, and the first one has fewer than n octets. */
  predicate TooShort(ps: seq<Parameter>, pid: u16, n: nat) {
    var vs := ValuesOf(ps, pid); vs != [] && |vs[0]| < n
  }

  /** The first word of the first value is not one of those from low to high. */
  predicate Outside(e: Endian, ps: seq<Parameter>, pid: u16, low: int, high: int) {
    var vs := ValuesOf(ps, pid); vs != [] && |vs[0]| >= 4 && !(low <= WordOf(e, vs[0][..4]) <= high)
  }

  lemma FieldIs(e: Endian, ps: seq<Parameter>, pid: u16, s: Shape)
    ensures var f := FixedField(e, ps, pid, s);
            && (f.Bad? <==> TooShort(ps, pid, 4 * s.words + s.octets))
            && (f.Absent? <==> ValuesOf(ps, pid) == [])
            && (f.Present? && s.words > 0 ==>
                  |f.value.words| > 0 && |ValuesOf(ps, pid)[0]| >= 4 && f.value.words[0] == WordOf(e, ValuesOf(ps, pid)[0][..4]))
  {
    hide WordOf, ValuesOf;
  }

  // ----- policies -----------------------------------------------------------------------

  predicate KindsRefused(e: Endian, ps: seq<Parameter>) {
    || TooShort(ps, 0x1d, 4) || Outside(e, ps, 0x1d, 0, 3)
    || TooShort(ps, 0x21, 6) || Outside(e, ps, 0x21, 0, 2)
    || TooShort(ps, 0x1f, 4) || Outside(e, ps, 0x1f, 0, 1) || TooShort(ps, 0x06, 4)
    || TooShort(ps, 0x25, 4) || Outside(e, ps, 0x25, 0, 1)
  }

  predicate TimedRefused(e: Endian, ps: seq<Parameter>) {
    || TooShort(ps, 0x1b, 12) || Outside(e, ps, 0x1b, 0, 2)
    || TooShort(ps, 0x1a, 12) || Outside(e, ps, 0x1a, 1, 2)
    || TooShort(ps, 0x40, 8) || Outside(e, ps, 0x40, 0, 1)
    || TooShort(ps, 0x41, 12)
  }

  predicate TimesRefused(ps: seq<Parameter>) {
    TooShort(ps, 0x23, 8) || TooShort(ps, 0x27, 8) || TooShort(ps, 0x04, 8) || TooShort(ps, 0x2b, 8)
  }

  lemma KindsRefusedIff(e: Endian, ps: seq<Parameter>)
    ensures KindsRefused(e, ps)
            <==> DurabilityIn(e, ps).Bad? || PresentationIn(e, ps).Bad? || OwnershipIn(e, ps).Bad? || DestinationOrderIn(e, ps).Bad?
  {
    hide FixedField, TooShort, ValuesOf, WordOf;
    FieldIs(e, ps, DURABILITY, Shape(1, 0));
    FieldIs(e, ps, PRESENTATION, Shape(1, 2));
    FieldIs(e, ps, OWNERSHIP, Shape(1, 0));
    FieldIs(e, ps, OWNERSHIP_STRENGTH, Shape(1, 0));
    FieldIs(e, ps, DESTINATION_ORDER, Shape(1, 0));
  }

  lemma TimedRefusedIff(e: Endian, ps: seq<Parameter>)
    ensures TimedRefused(e, ps)
            <==> LivelinessIn(e, ps).Bad? || ReliabilityIn(e, ps).Bad? || HistoryIn(e, ps).Bad? || ResourceLimitsIn(e, ps).Bad?
  {
    hide FixedField, TooShort, ValuesOf, WordOf;
    FieldIs(e, ps, LIVELINESS, Shape(3, 0));
    FieldIs(e, ps, RELIABILITY, Shape(3, 0));
    FieldIs(e, ps, HISTORY, Shape(2, 0));
    FieldIs(e, ps, RESOURCE_LIMITS, Shape(3, 0));
  }

  lemma TimesRefusedIff(e: Endian, ps: seq<Parameter>)
    ensures TimesRefused(ps)
            <==> DurationIn(e, ps, DEADLINE).Bad? || DurationIn(e, ps, LATENCY_BUDGET).Bad?
                 || DurationIn(e, ps, TIME_BASED_FILTER).Bad? || DurationIn(e, ps, LIFESPAN).Bad?
  {
    hide FixedField, TooShort, ValuesOf;
    FieldIs(e, ps, DEADLINE, Shape(2, 0));
    FieldIs(e, ps, LATENCY_BUDGET, Shape(2, 0));
    FieldIs(e, ps, TIME_BASED_FILTER, Shape(2, 0));
    FieldIs(e, ps, LIFESPAN, Shape(2, 0));
  }

  /** The policies of a list are refused exactly if some value is too short for its policy
      or names a kind that there is not. */
  lemma PoliciesRefusedIff(e: Endian, ps: seq<Parameter>)
    ensures FromParameterList(e, ps).None? <==> KindsRefused(e, ps) || TimedRefused(e, ps) || TimesRefused(ps)
  {
    hide KindsRefused, TimedRefused, TimesRefused, DurabilityIn, PresentationIn, OwnershipIn, DestinationOrderIn, LivelinessIn,
      ReliabilityIn, HistoryIn, ResourceLimitsIn, DurationIn;
    KindsRefusedIff(e, ps);
    TimedRefusedIff(e, ps);
    TimesRefusedIff(e, ps);
  }

  /** Ownership is told by two parameters: shared without a strength, exclusive with one,
      and left open in any other combination. */
  lemma OwnershipRead(e: Endian, ps: seq<Parameter>)
    requires FromParameterList(e, ps).Some?
    ensures var kinds, strengths := ValuesOf(ps, 0x1f), ValuesOf(ps, 0x06);
            && (kinds != [] ==> |kinds[0]| >= 4) && (strengths != [] ==> |strengths[0]| >= 4)
            && FromParameterList(e, ps).value.ownership
               == if kinds != [] && strengths == [] && WordOf(e, kinds[0][..4]) == 0 then Some(Shared)
                  else if kinds != [] && strengths != [] && WordOf(e, kinds[0][..4]) == 1
                       then Some(Exclusive(AsSigned(WordOf(e, strengths[0][..4]))))
                  else None
  {
    hide FixedField, ValuesOf, WordOf, DurabilityIn, PresentationIn, DestinationOrderIn, LivelinessIn,
      ReliabilityIn, HistoryIn, ResourceLimitsIn, DurationIn;
    FieldIs(e, ps, OWNERSHIP, Shape(1, 0));
    FieldIs(e, ps, OWNERSHIP_STRENGTH, Shape(1, 0));
  }

  // ----- records ---------------------------------------------------------------------------

  /** No text, or one whose length word is missing or counts more octets than there are. */
  predicate NoText(e: Endian, ps: seq<Parameter>, pid: u16) {
    var vs := ValuesOf(ps, pid);
    vs == [] || |vs[0]| < 4 || WordOf(e, vs[0][..4]) > |vs[0]| - 4
  }

  predicate SomeShort(vs: seq<Bytes>, n: nat) { exists i :: 0 <= i < |vs| && |vs[i]| < n }

  lemma TextRefusedIff(e: Endian, ps: seq<Parameter>, pid: u16)
    ensures TextIn(e, ps, pid).Present? <==> !NoText(e, ps, pid)
  {
    hide WordOf, ValuesOf, PopChar;
  }

  lemma {:induction false} LocatorsRefusedIff(e: Endian, vs: seq<Bytes>)
    ensures LocatorsOf(e, vs).None? <==> SomeShort(vs, 24)
    decreases |vs|
  {
    hide ReadWords, LocatorOf;
    if vs != [] {
      LocatorsRefusedIff(e, vs[1..]);
      if SomeShort(vs[1..], 24) {
        var i :| 0 <= i < |vs[1..]| && |vs[1..][i]| < 24;
        assert vs[i + 1] == vs[1..][i];
      }
      if SomeShort(vs, 24) && |vs[0]| >= 24 {
        var i :| 0 <= i < |vs| && |vs[i]| < 24;
        assert vs[1..][i - 1] == vs[i];
      }
    }
  }

  predicate ExtrasRefused(isReader: bool, e: Endian, ps: seq<Parameter>) {
    if isReader
    then TooShort(ps, 0x43, 1) || (ValuesOf(ps, 0x35) != [] && CF.Read(e, ValuesOf(ps, 0x35)[0], 0).Failed?)
    else TooShort(ps, 0x60, 4)
  }

  lemma ExtrasRefusedIff(isReader: bool, e: Endian, ps: seq<Parameter>)
    ensures (if isReader then ReaderExtrasIn(e, ps) else WriterExtrasIn(e, ps)).None? <==> ExtrasRefused(isReader, e, ps)
  {
    hide FixedField, ValuesOf, TooShort, CF.Read, WordOf;
    FieldIs(e, ps, EXPECTS_INLINE_QOS, Shape(0, 1));
    FieldIs(e, ps, TYPE_MAX_SIZE, Shape(1, 0));
  }

  lemma KeysRefusedIff(e: Endian, ps: seq<Parameter>)
    ensures OctetsIn(e, ps, ENDPOINT_GUID).Present? <==> ValuesOf(ps, 0x5a) != [] && !TooShort(ps, 0x5a, 16)
    ensures OctetsIn(e, ps, PARTICIPANT_GUID).Bad? <==> TooShort(ps, 0x50, 16)
    ensures SecurityIn(e, ps).Bad? <==> TooShort(ps, 0x1004, 8)
  {
    hide FixedField, ValuesOf, TooShort, WordOf;
    FieldIs(e, ps, ENDPOINT_GUID, Shape(0, 16));
    FieldIs(e, ps, PARTICIPANT_GUID, Shape(0, 16));
    FieldIs(e, ps, SECURITY_INFO, Shape(2, 0));
  }

  /** A record is refused exactly if its GUID or one of its names is missing or broken, a
      locator or any other field is too short, or its policies are refused. */
  lemma RecordRefusedIff(isReader: bool, e: Endian, ps: seq<Parameter>)
    ensures FromEndpointList(isReader, e, ps).None?
            <==> || ValuesOf(ps, 0x5a) == [] || TooShort(ps, 0x5a, 16) || TooShort(ps, 0x50, 16)
                 || SomeShort(ValuesOf(ps, 0x2f), 24) || SomeShort(ValuesOf(ps, 0x30), 24)
                 || NoText(e, ps, 0x05) || NoText(e, ps, 0x07) || TooShort(ps, 0x1004, 8)
                 || KindsRefused(e, ps) || TimedRefused(e, ps) || TimesRefused(ps)
                 || ExtrasRefused(isReader, e, ps)
  {
    hide ValuesOf, TooShort, SomeShort, NoText, KindsRefused, TimedRefused, TimesRefused, ExtrasRefused, FromParameterList,
      ReaderExtrasIn, WriterExtrasIn, OctetsIn, SecurityIn, TextIn, LocatorsOf, SetQos;
    KeysRefusedIff(e, ps);
    LocatorsRefusedIff(e, ValuesOf(ps, UNICAST_LOCATOR));
    LocatorsRefusedIff(e, ValuesOf(ps, MULTICAST_LOCATOR));
    TextRefusedIff(e, ps, TOPIC_NAME);
    TextRefusedIff(e, ps, TYPE_NAME);
    PoliciesRefusedIff(e, ps);
    ExtrasRefusedIff(isReader, e, ps);
  }
}
