/** Discovered readers and writers as parameter lists (RTPS 2.5, section 9.6.3). */
module Sedp {
  import opened Basics
  import opened Wire
  import opened ParameterLists
  import opened FixedCodec
  import opened Qos
  import CF = ContentFilters

  type Octets4 = b: Bytes | |b| == 4 witness [0, 0, 0, 0]
  type Octets16 = b: Bytes | |b| == 16 witness [0, 0, 0, 0, 0, 0, 0, 0, 0, 0, 0, 0, 0, 0, 0, 0]

  // ----- locators -------------------------------------------------------------------------

  datatype Locator =
    | Invalid
    | Reserved
    | UdpV4(ip4: Octets4, port: u16)
    | UdpV6(ip6: Octets16, port: u16, flowInfo: u32, scopeId: u32)
    | Other(kind: i32, otherPort: u32, address: Octets16)

  const NO_ADDRESS: Octets16 := [0, 0, 0, 0, 0, 0, 0, 0, 0, 0, 0, 0, 0, 0, 0, 0]
  const LOCATOR_SHAPE := Shape(2, 16)

  /** Kind, port and address; an IPv4 address sits in the last four octets. */
  function LocatorFixed(l: Locator): (f: Fixed)
    ensures HasShape(f, LOCATOR_SHAPE)
  {
    match l
    case Invalid => Fixed([AsWord(-1), 0], NO_ADDRESS)
    case Reserved => Fixed([AsWord(0), 0], NO_ADDRESS)
    case UdpV4(ip, port) => Fixed([AsWord(1), port], NO_ADDRESS[..12] + ip)
    case UdpV6(ip, port, _, _) => Fixed([AsWord(2), port], ip)
    case Other(kind, port, address) => Fixed([AsWord(kind), port], address)
  }

  function LocatorOf(f: Fixed): Locator
    requires HasShape(f, LOCATOR_SHAPE)
  {
    var kind := AsSigned(f.words[0]);
    if kind == -1 then Invalid
    else if kind == 0 then Reserved
    else if kind == 1 then UdpV4(f.octets[12..], f.words[1] % TWO16)
    else if kind == 2 then UdpV6(f.octets, f.words[1] % TWO16, 0, 0)
    else Other(kind, f.words[1], f.octets)
  }

  /** What the wire format can tell apart: no IPv6 flow or scope, and no kind of its own
      that is one of the known four. */
  predicate Canonical(l: Locator) {
    && (l.UdpV6? ==> l.flowInfo == 0 && l.scopeId == 0)
    && (l.Other? ==> !(-1 <= l.kind <= 2))
  }

  lemma LocatorReadsBackIff(l: Locator)
    ensures LocatorOf(LocatorFixed(l)) == l <==> Canonical(l)
  {
    if l.UdpV4? {
      assert (NO_ADDRESS[..12] + l.ip4)[12..] == l.ip4;
    }
  }

  // ----- records --------------------------------------------------------------------------------

  /** The policies that the built-in topic data has room for. */
  datatype TopicPolicies = TopicPolicies(
    durability: Option<Durability>,
    deadline: Option<Duration>,
    latencyBudget: Option<Duration>,
    liveliness: Option<Liveliness>,
    reliability: Option<Reliability>,
    ownership: Option<Ownership>,
    destinationOrder: Option<DestinationOrder>,
    timeBasedFilter: Option<Duration>,
    presentation: Option<Presentation>,
    lifespan: Option<Duration>)

  function SetQos(q: Policies): TopicPolicies {
    TopicPolicies(q.durability, q.deadline, q.latencyBudget, q.liveliness, q.reliability, q.ownership, q.destinationOrder,
                  q.timeBasedFilter, q.presentation, q.lifespan)
  }

  function QosIn(t: TopicPolicies): Policies {
    Policies(t.durability, t.presentation, t.deadline, t.latencyBudget, t.ownership, t.liveliness, t.timeBasedFilter,
             t.reliability, t.destinationOrder, None, None, t.lifespan, None)
  }

  datatype SecurityInfo = SecurityInfo(attributes: u32, pluginAttributes: u32)

  /** What only a reader or only a writer has. */
  datatype Extras =
    | ReaderExtras(expectsInlineQos: bool, contentFilter: Option<CF.ContentFilter>)
    | WriterExtras(maxSizeSerialized: Option<u32>)

  /** A discovered reader or writer: proxy and built-in topic data. */
  datatype Endpoint = Endpoint(
    guid: Octets16,
    key: Octets16,
    participantKey: Option<Octets16>,
    unicast: seq<Locator>,
    multicast: seq<Locator>,
    topicName: Bytes,
    typeName: Bytes,
    policies: TopicPolicies,
    serviceInstanceName: Option<Bytes>,
    relatedEntityKey: Option<Octets16>,
    topicAliases: Option<seq<Bytes>>,
    security: Option<SecurityInfo>,
    extras: Extras)

  const EXPECTS_INLINE_QOS: u16 := 0x43
  const TYPE_MAX_SIZE: u16 := 0x60
  const ENDPOINT_GUID: u16 := 0x5a
  const UNICAST_LOCATOR: u16 := 0x2f
  const MULTICAST_LOCATOR: u16 := 0x30
  const PARTICIPANT_GUID: u16 := 0x50
  const TOPIC_NAME: u16 := 0x05
  const TYPE_NAME: u16 := 0x07
  const SERVICE_INSTANCE_NAME: u16 := 0x80
  const RELATED_ENTITY_GUID: u16 := 0x81
  const TOPIC_ALIASES: u16 := 0x82
  const CONTENT_FILTER: u16 := 0x35
  const SECURITY_INFO: u16 := 0x1004

  const HEAD_ORDER: seq<u16> := [
    EXPECTS_INLINE_QOS, TYPE_MAX_SIZE, ENDPOINT_GUID, UNICAST_LOCATOR, MULTICAST_LOCATOR, PARTICIPANT_GUID, TOPIC_NAME,
    TYPE_NAME]

  const TAIL_ORDER: seq<u16> := [
    SERVICE_INSTANCE_NAME, RELATED_ENTITY_GUID, TOPIC_ALIASES, CONTENT_FILTER, SECURITY_INFO]

  // ----- what is written ---------------------------------------------------------------------------

  ghost function LocatorValues(e: Endian, ls: seq<Locator>): seq<Bytes>
    decreases |ls|
  {
    if ls == [] then [] else [FixedBytes(e, LocatorFixed(ls[0]))] + LocatorValues(e, ls[1..])
  }

  ghost function TextValues(e: Endian, ss: seq<Bytes>): seq<Bytes>
    decreases |ss|
  {
    if ss == [] then [] else [Cell(e, Text(ss[0]))] + TextValues(e, ss[1..])
  }

  function OctetsFixed(o: Option<Octets16>): Option<Fixed> { if o.None? then None else Some(Fixed([], o.value)) }

  function ExpectsFixed(x: Extras): Option<Fixed> {
    if x.ReaderExtras? then Some(Fixed([], [Flag(x.expectsInlineQos)])) else None
  }

  function MaxSizeFixed(x: Extras): Option<Fixed> {
    if x.WriterExtras? && x.maxSizeSerialized.Some? then Some(Fixed([x.maxSizeSerialized.value], [])) else None
  }

  function SecurityFixed(o: Option<SecurityInfo>): Option<Fixed> {
    if o.None? then None else Some(Fixed([o.value.attributes, o.value.pluginAttributes], []))
  }

  ghost function FilterValues(e: Endian, x: Extras): seq<Bytes> {
    if x.ReaderExtras? && x.contentFilter.Some? then [CF.Encoded(e, x.contentFilter.value)] else []
  }

  /** The values of one field other than the QoS policies. */
  ghost function EndpointValues(e: Endian, r: Endpoint, pid: u16): seq<Bytes> {
    if pid == EXPECTS_INLINE_QOS then AtMostOne(e, ExpectsFixed(r.extras))
    else if pid == TYPE_MAX_SIZE then AtMostOne(e, MaxSizeFixed(r.extras))
    else if pid == ENDPOINT_GUID then AtMostOne(e, OctetsFixed(Some(r.guid)))
    else if pid == UNICAST_LOCATOR then LocatorValues(e, r.unicast)
    else if pid == MULTICAST_LOCATOR then LocatorValues(e, r.multicast)
    else if pid == PARTICIPANT_GUID then AtMostOne(e, OctetsFixed(r.participantKey))
    else if pid == TOPIC_NAME then TextValues(e, [r.topicName])
    else if pid == TYPE_NAME then TextValues(e, [r.typeName])
    else if pid == SERVICE_INSTANCE_NAME then TextValues(e, if r.serviceInstanceName.Some? then [r.serviceInstanceName.value] else [])
    else if pid == RELATED_ENTITY_GUID then AtMostOne(e, OctetsFixed(r.relatedEntityKey))
    else if pid == TOPIC_ALIASES then TextValues(e, if r.topicAliases.Some? then r.topicAliases.value else [])
    else if pid == CONTENT_FILTER then FilterValues(e, r.extras)
    else if pid == SECURITY_INFO then AtMostOne(e, SecurityFixed(r.security))
    else []
  }

  ghost function EndpointField(e: Endian, r: Endpoint): u16 -> seq<Bytes> {
    (pid: u16) => EndpointValues(e, r, pid)
  }

  ghost function EndpointParameters(e: Endian, r: Endpoint): seq<Parameter> {
    Fields(HEAD_ORDER, EndpointField(e, r)) + QosParameters(e, QosIn(r.policies)) + Fields(TAIL_ORDER, EndpointField(e, r))
  }

  /** Texts whose length the writer can express. */
  predicate Writable(r: Endpoint) {
    && FitsWord(r.topicName) && FitsWord(r.typeName)
    && (r.serviceInstanceName.Some? ==> FitsWord(r.serviceInstanceName.value))
    && (r.topicAliases.Some? ==> CF.AllFit(r.topicAliases.value))
    && (r.extras.ReaderExtras? && r.extras.contentFilter.Some? ==> CF.Writable(r.extras.contentFilter.value))
  }

  // ----- reading ----------------------------------------------------------------------------------

  function LocatorsOf(e: Endian, vs: seq<Bytes>): Option<seq<Locator>>
    decreases |vs|
  {
    if vs == [] then Some([])
    else
      var f, rest := ReadFixed(e, LOCATOR_SHAPE, vs[0]), LocatorsOf(e, vs[1..]);
      if f.None? || rest.None? then None else Some([LocatorOf(f.value)] + rest.value)
  }

  function OctetsIn(e: Endian, ps: seq<Parameter>, pid: u16): Field<Octets16> {
    var f := FixedField(e, ps, pid, Shape(0, 16));
    if f.Absent? then Absent else if f.Bad? then Bad else Present(f.value.octets)
  }

  function BoolIn(e: Endian, ps: seq<Parameter>, pid: u16): Field<bool> {
    var f := FixedField(e, ps, pid, Shape(0, 1));
    if f.Absent? then Absent else if f.Bad? then Bad else Present(f.value.octets[0] != 0)
  }

  function WordIn(e: Endian, ps: seq<Parameter>, pid: u16): Field<u32> {
    var f := FixedField(e, ps, pid, Shape(1, 0));
    if f.Absent? then Absent else if f.Bad? then Bad else Present(f.value.words[0])
  }

  function SecurityIn(e: Endian, ps: seq<Parameter>): Field<SecurityInfo> {
    var f := FixedField(e, ps, SECURITY_INFO, Shape(2, 0));
    if f.Absent? then Absent else if f.Bad? then Bad else Present(SecurityInfo(f.value.words[0], f.value.words[1]))
  }

  function TextIn(e: Endian, ps: seq<Parameter>, pid: u16): Field<Bytes> {
    var vs := ValuesOf(ps, pid);
    if vs == [] then Absent
    else
      var s := ReadText(e, vs[0], 0);
      if s.Failed? then Bad else Present(s.value)
  }

  function FilterIn(e: Endian, ps: seq<Parameter>): Field<CF.ContentFilter> {
    var vs := ValuesOf(ps, CONTENT_FILTER);
    if vs == [] then Absent
    else
      var f := CF.Read(e, vs[0], 0);
      if f.Failed? then Bad else Present(f.value)
  }

  function ReaderExtrasIn(e: Endian, ps: seq<Parameter>): Option<Extras> {
    var expects, filter := BoolIn(e, ps, EXPECTS_INLINE_QOS), FilterIn(e, ps);
    if expects.Bad? || filter.Bad? then None
    else Some(ReaderExtras(expects.Present? && expects.value, ToOption(filter)))
  }

  function WriterExtrasIn(e: Endian, ps: seq<Parameter>): Option<Extras> {
    var size := WordIn(e, ps, TYPE_MAX_SIZE);
    if size.Bad? then None else Some(WriterExtras(ToOption(size)))
  }

  /** GUID and both names must be there; the RPC fields are never read. */
  function FromEndpointList(isReader: bool, e: Endian, ps: seq<Parameter>): Option<Endpoint> {
    var guid, participant := OctetsIn(e, ps, ENDPOINT_GUID), OctetsIn(e, ps, PARTICIPANT_GUID);
    var unicast, multicast := LocatorsOf(e, ValuesOf(ps, UNICAST_LOCATOR)), LocatorsOf(e, ValuesOf(ps, MULTICAST_LOCATOR));
    var topic, typ := TextIn(e, ps, TOPIC_NAME), TextIn(e, ps, TYPE_NAME);
    var security := SecurityIn(e, ps);
    var qos := FromParameterList(e, ps);
    var extras := if isReader then ReaderExtrasIn(e, ps) else WriterExtrasIn(e, ps);
    if !guid.Present? || participant.Bad? || unicast.None? || multicast.None? || !topic.Present? || !typ.Present?
       || security.Bad? || qos.None? || extras.None?
    then None
    else Some(Endpoint(guid.value, guid.value, ToOption(participant), unicast.value, multicast.value, topic.value, typ.value,
                       SetQos(qos.value), None, None, None, ToOption(security), extras.value))
  }

  // ----- what comes back ------------------------------------------------------------------------------

  function NormalLocators(ls: seq<Locator>): seq<Locator>
    decreases |ls|
  {
    if ls == [] then [] else [LocatorOf(LocatorFixed(ls[0]))] + NormalLocators(ls[1..])
  }

  function NormalExtras(x: Extras): Extras {
    if x.ReaderExtras? && x.contentFilter.Some?
    then
      var f := x.contentFilter.value;
      x.(contentFilter := Some(f.(parameters := f.parameters[..|f.parameters| % TWO32])))
    else x
  }

  /** The record that a receiver sees. */
  function Normal(r: Endpoint): Endpoint {
    r.(key := r.guid, unicast := NormalLocators(r.unicast), multicast := NormalLocators(r.multicast),
       serviceInstanceName := None, relatedEntityKey := None, topicAliases := None, extras := NormalExtras(r.extras))
  }

  lemma OrdersAreDistinct()
    ensures Distinct(HEAD_ORDER) && Distinct(QOS_ORDER) && Distinct(TAIL_ORDER)
  {
  }

  ghost function InOrder(order: seq<u16>, pid: u16, vs: seq<Bytes>): seq<Bytes> { if pid in order then vs else [] }

  /** Where each identifier's values come from. */
  lemma WrittenValues(e: Endian, r: Endpoint, pid: u16)
    ensures ValuesOf(PadAll(EndpointParameters(e, r)), pid)
            == PadEach(InOrder(HEAD_ORDER, pid, EndpointValues(e, r, pid))
                       + InOrder(QOS_ORDER, pid, AtMostOne(e, QosFixed(QosIn(r.policies), pid)))
                       + InOrder(TAIL_ORDER, pid, EndpointValues(e, r, pid)))
  {
    hide EndpointValues, QosFixed, AtMostOne, Fields, Distinct, PadAll, PadEach, ValuesOf;
    OrdersAreDistinct();
    var head, qos, tail := Fields(HEAD_ORDER, EndpointField(e, r)), QosParameters(e, QosIn(r.policies)), Fields(TAIL_ORDER, EndpointField(e, r));
    PaddedValues(EndpointParameters(e, r), pid);
    ValuesOfConcat(head + qos, tail, pid);
    ValuesOfConcat(head, qos, pid);
    FieldsValues(HEAD_ORDER, EndpointField(e, r), pid);
    FieldsValues(QOS_ORDER, QosField(e, QosIn(r.policies)), pid);
    FieldsValues(TAIL_ORDER, EndpointField(e, r), pid);
  }

  predicate OfEndpoint(pid: u16) {
    (pid in HEAD_ORDER || pid in TAIL_ORDER) && pid !in QOS_ORDER && !(pid in HEAD_ORDER && pid in TAIL_ORDER)
  }

  lemma WrittenField(e: Endian, r: Endpoint, pid: u16)
    requires OfEndpoint(pid)
    ensures ValuesOf(PadAll(EndpointParameters(e, r)), pid) == PadEach(EndpointValues(e, r, pid))
  {
    hide EndpointValues, QosFixed, AtMostOne, EndpointParameters, PadEach, PadAll, ValuesOf;
    WrittenValues(e, r, pid);
    var vs := EndpointValues(e, r, pid);
    assert vs + [] + [] == vs && [] + [] + vs == vs;
  }

  lemma PoliciesAreCarried(e: Endian, r: Endpoint)
    ensures Carries(e, PadAll(EndpointParameters(e, r)), QosIn(r.policies))
  {
    hide EndpointValues, QosFixed, AtMostOne, EndpointParameters, PadEach, PadAll, ValuesOf;
    forall pid: u16 | pid in QOS_ORDER
      ensures ValuesOf(PadAll(EndpointParameters(e, r)), pid) == PadEach(AtMostOne(e, QosFixed(QosIn(r.policies), pid)))
    {
      WrittenValues(e, r, pid);
      OrdersAreApart(pid);
      var vs := AtMostOne(e, QosFixed(QosIn(r.policies), pid));
      assert [] + vs + [] == vs;
    }
  }

  lemma OrdersAreApart(pid: u16)
    requires pid in QOS_ORDER
    ensures pid !in HEAD_ORDER && pid !in TAIL_ORDER
  {
  }

  lemma {:induction false} LocatorsReadBack(e: Endian, ls: seq<Locator>)
    ensures LocatorsOf(e, PadEach(LocatorValues(e, ls))) == Some(NormalLocators(ls))
    decreases |ls|
  {
    hide ReadFixed, FixedBytes, LocatorFixed, LocatorOf, PadOf;
    if ls != [] {
      var f := LocatorFixed(ls[0]);
      var b := FixedBytes(e, f);
      FixedReadsBack(e, f, LOCATOR_SHAPE, Zeros(PadOf(|b|)));
      var vs := LocatorValues(e, ls);
      assert vs[0] == b && vs[1..] == LocatorValues(e, ls[1..]);
      assert PadEach(vs)[0] == Padded(b) && PadEach(vs)[1..] == PadEach(LocatorValues(e, ls[1..]));
      LocatorsReadBack(e, ls[1..]);
    }
  }

  lemma TextReadsBack(e: Endian, s: Bytes, tail: Bytes)
    requires FitsWord(s)
    ensures Yields(ReadText(e, Cell(e, Text(s)) + tail, 0), s)
  {
    hide Cell, InStep, ReadText, Laid, FitsWord;
    var items := Cons(Text(s), Nil);
    assert PutAll(e, [], items) == Cell(e, Text(s));
    WrittenIsLaid(e, items, tail);
    StartsInStep();
    TextStep(e, Cell(e, Text(s)) + tail, 0, 0, s, Nil);
  }

  lemma TextFieldReadsBack(e: Endian, ps: seq<Parameter>, pid: u16, s: Bytes)
    requires FitsWord(s) && ValuesOf(ps, pid) == PadEach(TextValues(e, [s]))
    ensures TextIn(e, ps, pid) == Present(s)
  {
    hide Cell, ReadText, FitsWord, ValuesOf, PadOf;
    var v := Cell(e, Text(s));
    assert TextValues(e, [s]) == [v];
    assert PadEach([v]) == [Padded(v)];
    TextReadsBack(e, s, Zeros(PadOf(|v|)));
  }

  lemma FilterReadsBack(e: Endian, ps: seq<Parameter>, x: Extras)
    requires x.ReaderExtras? && (x.contentFilter.Some? ==> CF.Writable(x.contentFilter.value))
    requires ValuesOf(ps, CONTENT_FILTER) == PadEach(FilterValues(e, x))
    ensures FilterIn(e, ps) == FromOption(NormalExtras(x).contentFilter)
  {
    hide CF.Encoded, CF.Read, CF.Writable, ValuesOf, PadOf;
    if x.contentFilter.Some? {
      var v := CF.Encoded(e, x.contentFilter.value);
      assert PadEach([v]) == [Padded(v)];
      CF.ReadsBack(e, x.contentFilter.value, Zeros(PadOf(|v|)));
    }
  }

  lemma OctetsReadBack(e: Endian, ps: seq<Parameter>, pid: u16, o: Option<Octets16>)
    requires ValuesOf(ps, pid) == PadEach(AtMostOne(e, OctetsFixed(o)))
    ensures OctetsIn(e, ps, pid) == FromOption(o)
  {
    hide FixedField, AtMostOne, ValuesOf;
    FieldReadsBack(e, ps, pid, Shape(0, 16), OctetsFixed(o));
  }

  lemma SecurityReadsBack(e: Endian, ps: seq<Parameter>, o: Option<SecurityInfo>)
    requires ValuesOf(ps, SECURITY_INFO) == PadEach(AtMostOne(e, SecurityFixed(o)))
    ensures SecurityIn(e, ps) == FromOption(o)
  {
    hide FixedField, AtMostOne, ValuesOf;
    FieldReadsBack(e, ps, SECURITY_INFO, Shape(2, 0), SecurityFixed(o));
  }

  lemma ReaderExtrasReadBack(e: Endian, ps: seq<Parameter>, x: Extras)
    requires x.ReaderExtras? && (x.contentFilter.Some? ==> CF.Writable(x.contentFilter.value))
    requires ValuesOf(ps, EXPECTS_INLINE_QOS) == PadEach(AtMostOne(e, ExpectsFixed(x)))
    requires ValuesOf(ps, CONTENT_FILTER) == PadEach(FilterValues(e, x))
    ensures ReaderExtrasIn(e, ps) == Some(NormalExtras(x))
  {
    hide FixedField, AtMostOne, ValuesOf, FilterIn, FilterValues, CF.Writable;
    FieldReadsBack(e, ps, EXPECTS_INLINE_QOS, Shape(0, 1), ExpectsFixed(x));
    FilterReadsBack(e, ps, x);
  }

  lemma WriterExtrasReadBack(e: Endian, ps: seq<Parameter>, x: Extras)
    requires x.WriterExtras? && ValuesOf(ps, TYPE_MAX_SIZE) == PadEach(AtMostOne(e, MaxSizeFixed(x)))
    ensures WriterExtrasIn(e, ps) == Some(NormalExtras(x))
  {
    hide FixedField, AtMostOne, ValuesOf;
    FieldReadsBack(e, ps, TYPE_MAX_SIZE, Shape(1, 0), MaxSizeFixed(x));
  }

  /** Every field is found among the parameters with its values. */
  ghost predicate Holds(e: Endian, ps: seq<Parameter>, r: Endpoint) {
    && ValuesOf(ps, EXPECTS_INLINE_QOS) == PadEach(AtMostOne(e, ExpectsFixed(r.extras)))
    && ValuesOf(ps, TYPE_MAX_SIZE) == PadEach(AtMostOne(e, MaxSizeFixed(r.extras)))
    && ValuesOf(ps, ENDPOINT_GUID) == PadEach(AtMostOne(e, OctetsFixed(Some(r.guid))))
    && ValuesOf(ps, UNICAST_LOCATOR) == PadEach(LocatorValues(e, r.unicast))
    && ValuesOf(ps, MULTICAST_LOCATOR) == PadEach(LocatorValues(e, r.multicast))
    && ValuesOf(ps, PARTICIPANT_GUID) == PadEach(AtMostOne(e, OctetsFixed(r.participantKey)))
    && ValuesOf(ps, TOPIC_NAME) == PadEach(TextValues(e, [r.topicName]))
    && ValuesOf(ps, TYPE_NAME) == PadEach(TextValues(e, [r.typeName]))
    && ValuesOf(ps, CONTENT_FILTER) == PadEach(FilterValues(e, r.extras))
    && ValuesOf(ps, SECURITY_INFO) == PadEach(AtMostOne(e, SecurityFixed(r.security)))
  }

  lemma ProxyFieldsAreOfEndpoint()
    ensures OfEndpoint(EXPECTS_INLINE_QOS) && OfEndpoint(TYPE_MAX_SIZE) && OfEndpoint(ENDPOINT_GUID)
    ensures OfEndpoint(UNICAST_LOCATOR) && OfEndpoint(MULTICAST_LOCATOR)
  {
  }

  lemma TopicFieldsAreOfEndpoint()
    ensures OfEndpoint(PARTICIPANT_GUID) && OfEndpoint(TOPIC_NAME) && OfEndpoint(TYPE_NAME)
    ensures OfEndpoint(CONTENT_FILTER) && OfEndpoint(SECURITY_INFO)
  {
  }

  lemma NamedValues(e: Endian, r: Endpoint)
    ensures EndpointValues(e, r, EXPECTS_INLINE_QOS) == AtMostOne(e, ExpectsFixed(r.extras))
    ensures EndpointValues(e, r, TYPE_MAX_SIZE) == AtMostOne(e, MaxSizeFixed(r.extras))
    ensures EndpointValues(e, r, ENDPOINT_GUID) == AtMostOne(e, OctetsFixed(Some(r.guid)))
    ensures EndpointValues(e, r, UNICAST_LOCATOR) == LocatorValues(e, r.unicast)
    ensures EndpointValues(e, r, MULTICAST_LOCATOR) == LocatorValues(e, r.multicast)
    ensures EndpointValues(e, r, PARTICIPANT_GUID) == AtMostOne(e, OctetsFixed(r.participantKey))
    ensures EndpointValues(e, r, TOPIC_NAME) == TextValues(e, [r.topicName])
    ensures EndpointValues(e, r, TYPE_NAME) == TextValues(e, [r.typeName])
    ensures EndpointValues(e, r, CONTENT_FILTER) == FilterValues(e, r.extras)
    ensures EndpointValues(e, r, SECURITY_INFO) == AtMostOne(e, SecurityFixed(r.security))
  {
    hide AtMostOne, LocatorValues, TextValues, FilterValues;
  }

  lemma WrittenHolds(e: Endian, r: Endpoint)
    ensures Holds(e, PadAll(EndpointParameters(e, r)), r)
  {
    hide EndpointParameters, EndpointValues, OfEndpoint, PadEach, PadAll, ValuesOf, AtMostOne, TextValues, LocatorValues,
      FilterValues;
    ProxyFieldsAreOfEndpoint();
    TopicFieldsAreOfEndpoint();
    NamedValues(e, r);
    WrittenField(e, r, EXPECTS_INLINE_QOS);
    WrittenField(e, r, TYPE_MAX_SIZE);
    WrittenField(e, r, ENDPOINT_GUID);
    WrittenField(e, r, UNICAST_LOCATOR);
    WrittenField(e, r, MULTICAST_LOCATOR);
    WrittenField(e, r, PARTICIPANT_GUID);
    WrittenField(e, r, TOPIC_NAME);
    WrittenField(e, r, TYPE_NAME);
    WrittenField(e, r, CONTENT_FILTER);
    WrittenField(e, r, SECURITY_INFO);
  }

  lemma ExtrasReadBack(e: Endian, ps: seq<Parameter>, r: Endpoint)
    requires Writable(r) && Holds(e, ps, r)
    ensures (if r.extras.ReaderExtras? then ReaderExtrasIn(e, ps) else WriterExtrasIn(e, ps)) == Some(NormalExtras(r.extras))
  {
    hide PadEach, ValuesOf, AtMostOne, FilterValues, ReaderExtrasIn, WriterExtrasIn, CF.Writable, NormalExtras;
    if r.extras.ReaderExtras? {
      ReaderExtrasReadBack(e, ps, r.extras);
    } else {
      WriterExtrasReadBack(e, ps, r.extras);
    }
  }

  lemma HeldReadsBack(e: Endian, ps: seq<Parameter>, r: Endpoint)
    requires Writable(r) && Holds(e, ps, r) && Carries(e, ps, QosIn(r.policies))
    ensures FromEndpointList(r.extras.ReaderExtras?, e, ps) == Some(Normal(r))
  {
    hide PadEach, ValuesOf, AtMostOne, TextValues, LocatorValues, FilterValues, Carries, OctetsIn, TextIn, SecurityIn,
      ReaderExtrasIn, WriterExtrasIn, FromParameterList, LocatorsOf, NormalLocators, NormalExtras, FitsWord;
    OctetsReadBack(e, ps, ENDPOINT_GUID, Some(r.guid));
    OctetsReadBack(e, ps, PARTICIPANT_GUID, r.participantKey);
    LocatorsReadBack(e, r.unicast);
    LocatorsReadBack(e, r.multicast);
    TextFieldReadsBack(e, ps, TOPIC_NAME, r.topicName);
    TextFieldReadsBack(e, ps, TYPE_NAME, r.typeName);
    SecurityReadsBack(e, ps, r.security);
    PoliciesReadBack(e, ps, QosIn(r.policies));
    ExtrasReadBack(e, ps, r);
  }

  /** Encoding to a parameter list and decoding gives the record back in normal form. */
  lemma RecordReadsBack(e: Endian, r: Endpoint)
    requires Writable(r)
    ensures FromEndpointList(r.extras.ReaderExtras?, e, PadAll(EndpointParameters(e, r))) == Some(Normal(r))
  {
    hide FromEndpointList, EndpointParameters, Holds, Carries, Normal, Writable, PadAll;
    WrittenHolds(e, r);
    PoliciesAreCarried(e, r);
    HeldReadsBack(e, PadAll(EndpointParameters(e, r)), r);
  }

  // ----- exactly which records survive ---------------------------------------------------------------

  predicate AllCanonical(ls: seq<Locator>) { forall i :: 0 <= i < |ls| ==> Canonical(ls[i]) }

  lemma {:induction false} LocatorsNormalIff(ls: seq<Locator>)
    ensures |NormalLocators(ls)| == |ls| && (NormalLocators(ls) == ls <==> AllCanonical(ls))
    decreases |ls|
  {
    hide LocatorOf, LocatorFixed, Canonical;
    if ls != [] {
      var rest := ls[1..];
      LocatorsNormalIff(rest);
      LocatorReadsBackIff(ls[0]);
      assert ls == [ls[0]] + rest;
      assert NormalLocators(ls)[1..] == NormalLocators(rest);
      if Canonical(ls[0]) && AllCanonical(rest) {
        forall i | 0 <= i < |ls| ensures Canonical(ls[i]) {
          if i > 0 { assert ls[i] == rest[i - 1]; }
        }
      } else if !AllCanonical(rest) {
        var i :| 0 <= i < |rest| && !Canonical(rest[i]);
        assert ls[i + 1] == rest[i];
      }
    }
  }

  /** The two GUIDs agree, the RPC fields are empty, the locators are ones the wire can
      tell apart, and the filter's parameters can be counted. */
  predicate Faithful(r: Endpoint) {
    && r.key == r.guid
    && r.serviceInstanceName.None? && r.relatedEntityKey.None? && r.topicAliases.None?
    && AllCanonical(r.unicast) && AllCanonical(r.multicast)
    && (r.extras.ReaderExtras? && r.extras.contentFilter.Some? ==> |r.extras.contentFilter.value.parameters| < TWO32)
  }

  lemma ExtrasNormalIff(x: Extras)
    ensures NormalExtras(x) == x
            <==> (x.ReaderExtras? && x.contentFilter.Some? ==> |x.contentFilter.value.parameters| < TWO32)
  {
    if x.ReaderExtras? && x.contentFilter.Some? {
      var ps := x.contentFilter.value.parameters;
      if |ps| < TWO32 {
        assert ps[..|ps| % TWO32] == ps;
      } else {
        assert |ps[..|ps| % TWO32]| < |ps|;
      }
    }
  }

  /** A reader or writer record survives encoding and decoding exactly when it is faithful. */
  lemma SameRecordIff(e: Endian, r: Endpoint)
    requires Writable(r)
    ensures FromEndpointList(r.extras.ReaderExtras?, e, PadAll(EndpointParameters(e, r))) == Some(r) <==> Faithful(r)
  {
    hide FromEndpointList, EndpointParameters, Writable, PadAll, AllCanonical, NormalLocators, NormalExtras;
    RecordReadsBack(e, r);
    LocatorsNormalIff(r.unicast);
    LocatorsNormalIff(r.multicast);
    ExtrasNormalIff(r.extras);
  }

  // ----- through the octets ---------------------------------------------------------------------------

  /** What a receiver makes of a buffer. */
  function Received(isReader: bool, e: Endian, d: Bytes): Option<Endpoint> {
    var ps := ReadList(e, d, 0);
    if ps.Failed? then None else FromEndpointList(isReader, e, ps.value)
  }

  // ----- when every value fits its 16-bit length ---------------------------------------------------------

  /** A text whose cell, padded, has a length below 65536. */
  predicate ShortText(s: Bytes) { |s| <= 65527 }

  predicate AllShortTexts(ss: seq<Bytes>) { forall i :: 0 <= i < |ss| ==> ShortText(ss[i]) }

  ghost predicate ShortEnough(e: Endian, r: Endpoint) {
    && ShortText(r.topicName) && ShortText(r.typeName)
    && (r.serviceInstanceName.Some? ==> ShortText(r.serviceInstanceName.value))
    && (r.topicAliases.Some? ==> AllShortTexts(r.topicAliases.value))
    && (r.extras.ReaderExtras? && r.extras.contentFilter.Some? ==> |CF.Encoded(e, r.extras.contentFilter.value)| <= 65532)
  }

  lemma ShortIff(v: Bytes)
    ensures Short(v) <==> |v| <= 65532
  {
  }

  lemma {:induction false} TextsShortIff(e: Endian, ss: seq<Bytes>)
    ensures AllShort(TextValues(e, ss)) <==> AllShortTexts(ss)
    decreases |ss|
  {
    hide Short, Word;
    if ss != [] {
      TextsShortIff(e, ss[1..]);
      var vs := TextValues(e, ss);
      assert vs[0] == Cell(e, Text(ss[0])) && vs[1..] == TextValues(e, ss[1..]);
      ShortIff(vs[0]);
      ShortStep(vs);
      assert ss == [ss[0]] + ss[1..];
    }
  }

  lemma FixedIsShort(e: Endian, o: Option<Fixed>)
    requires o.Some? ==> |o.value.words| <= 3 && |o.value.octets| <= 16
    ensures AllShort(AtMostOne(e, o))
  {
    if o.Some? { ShortIff(FixedBytes(e, o.value)); }
  }

  lemma {:induction false} LocatorsAreShort(e: Endian, ls: seq<Locator>)
    ensures AllShort(LocatorValues(e, ls))
    decreases |ls|
  {
    hide Short, LocatorFixed;
    if ls != [] {
      LocatorsAreShort(e, ls[1..]);
      var vs := LocatorValues(e, ls);
      assert vs[0] == FixedBytes(e, LocatorFixed(ls[0])) && vs[1..] == LocatorValues(e, ls[1..]);
      ShortIff(vs[0]);
      ShortStep(vs);
    }
  }

  lemma QosIsShort(e: Endian, q: Policies)
    ensures FieldsShort(QOS_ORDER, QosField(e, q))
  {
    hide QosFixed, AtMostOne, AllShort;
    forall pid: u16 | pid in QOS_ORDER ensures AllShort(AtMostOne(e, QosFixed(q, pid))) {
      QosFixedHasShape(q, pid);
      FixedIsShort(e, QosFixed(q, pid));
    }
  }

  lemma HeadShortIff(e: Endian, r: Endpoint)
    ensures FieldsShort(HEAD_ORDER, EndpointField(e, r)) <==> ShortText(r.topicName) && ShortText(r.typeName)
  {
    hide AtMostOne, AllShort, TextValues, LocatorValues, FilterValues, EndpointValues, ShortText;
    NamedValues(e, r);
    FixedIsShort(e, ExpectsFixed(r.extras));
    FixedIsShort(e, MaxSizeFixed(r.extras));
    FixedIsShort(e, OctetsFixed(Some(r.guid)));
    FixedIsShort(e, OctetsFixed(r.participantKey));
    LocatorsAreShort(e, r.unicast);
    LocatorsAreShort(e, r.multicast);
    OneTextShortIff(e, r.topicName);
    OneTextShortIff(e, r.typeName);
    assert TOPIC_NAME in HEAD_ORDER && TYPE_NAME in HEAD_ORDER;
  }

  lemma OneTextShortIff(e: Endian, s: Bytes)
    ensures AllShort(TextValues(e, [s])) <==> ShortText(s)
  {
    hide AllShort, TextValues, ShortText;
    TextsShortIff(e, [s]);
    assert [s][0] == s;
  }

  lemma TailShortIff(e: Endian, r: Endpoint)
    ensures FieldsShort(TAIL_ORDER, EndpointField(e, r))
            <==> && (r.serviceInstanceName.Some? ==> ShortText(r.serviceInstanceName.value))
                 && (r.topicAliases.Some? ==> AllShortTexts(r.topicAliases.value))
                 && (r.extras.ReaderExtras? && r.extras.contentFilter.Some?
                     ==> |CF.Encoded(e, r.extras.contentFilter.value)| <= 65532)
  {
    hide AtMostOne, AllShort, TextValues, LocatorValues, FilterValues, EndpointValues, CF.Encoded, ShortText, AllShortTexts;
    NamedValues(e, r);
    NamedRpcValues(e, r);
    FixedIsShort(e, OctetsFixed(r.relatedEntityKey));
    FixedIsShort(e, SecurityFixed(r.security));
    if r.serviceInstanceName.Some? { OneTextShortIff(e, r.serviceInstanceName.value); }
    if r.topicAliases.Some? { TextsShortIff(e, r.topicAliases.value); }
    NoTextsShort(e);
    FilterShortIff(e, r.extras);
    assert SERVICE_INSTANCE_NAME in TAIL_ORDER && TOPIC_ALIASES in TAIL_ORDER && CONTENT_FILTER in TAIL_ORDER;
  }

  lemma NoTextsShort(e: Endian)
    ensures AllShort(TextValues(e, []))
  {
  }

  lemma NamedRpcValues(e: Endian, r: Endpoint)
    ensures EndpointValues(e, r, SERVICE_INSTANCE_NAME)
            == TextValues(e, if r.serviceInstanceName.Some? then [r.serviceInstanceName.value] else [])
    ensures EndpointValues(e, r, RELATED_ENTITY_GUID) == AtMostOne(e, OctetsFixed(r.relatedEntityKey))
    ensures EndpointValues(e, r, TOPIC_ALIASES) == TextValues(e, if r.topicAliases.Some? then r.topicAliases.value else [])
  {
    hide AtMostOne, LocatorValues, TextValues, FilterValues;
  }

  lemma FilterShortIff(e: Endian, x: Extras)
    ensures AllShort(FilterValues(e, x))
            <==> (x.ReaderExtras? && x.contentFilter.Some? ==> |CF.Encoded(e, x.contentFilter.value)| <= 65532)
  {
    hide CF.Encoded, Short;
    if x.ReaderExtras? && x.contentFilter.Some? {
      var v := CF.Encoded(e, x.contentFilter.value);
      ShortIff(v);
      ShortStep([v]);
      assert [v][1..] == [];
    }
  }

  /** Every value fits exactly when the texts and the filter are short enough. */
  lemma SafeIffShort(e: Endian, r: Endpoint)
    ensures AllSafe(EndpointParameters(e, r)) <==> ShortEnough(e, r)
  {
    hide AllSafe, Fields, FieldsShort, EndpointField, ShortText, AllShortTexts, QosField, CF.Encoded;
    var head, qos, tail := Fields(HEAD_ORDER, EndpointField(e, r)), QosParameters(e, QosIn(r.policies)), Fields(TAIL_ORDER, EndpointField(e, r));
    SafeConcat(head + qos, tail);
    SafeConcat(head, qos);
    FieldsSafe(HEAD_ORDER, EndpointField(e, r));
    FieldsSafe(QOS_ORDER, QosField(e, QosIn(r.policies)));
    FieldsSafe(TAIL_ORDER, EndpointField(e, r));
    HeadShortIff(e, r);
    TailShortIff(e, r);
    QosIsShort(e, QosIn(r.policies));
  }

  /** A record arrives in normal form when every value fits. */
  lemma RecordArrives(e: Endian, r: Endpoint, tail: Bytes)
    requires Writable(r) && ShortEnough(e, r)
    ensures Received(r.extras.ReaderExtras?, e, ListBytes(e, EndpointParameters(e, r)) + tail) == Some(Normal(r))
  {
    hide FromEndpointList, EndpointParameters, Writable, Normal, PadAll, AllSafe, ReadList, ListBytes, ShortEnough;
    SafeIffShort(e, r);
    ReadsBackIff(e, EndpointParameters(e, r), tail);
    RecordReadsBack(e, r);
  }

  // ----- matching is not changed by discovery ------------------------------------------------------------

  /** What discovery leaves of a set of policies. */
  function Discovered(q: Policies): Policies { QosIn(SetQos(q)) }

  lemma DiscoveredDropsOnly(q: Policies)
    ensures Discovered(q) == q.(history := None, resourceLimits := None, property := None)
    ensures var t := SetQos(q);
            && t.durability == q.durability && t.presentation == q.presentation && t.deadline == q.deadline
            && t.latencyBudget == q.latencyBudget && t.ownership == q.ownership && t.liveliness == q.liveliness
            && t.timeBasedFilter == q.timeBasedFilter && t.reliability == q.reliability
            && t.destinationOrder == q.destinationOrder && t.lifespan == q.lifespan
  {
  }

  lemma ComplianceUnchanged(off: Policies, req: Policies)
    ensures ComplianceFailure(Discovered(off), Discovered(req)) == ComplianceFailure(off, req)
    ensures ComplianceFailure(off, Discovered(req)) == ComplianceFailure(off, req)
    ensures ComplianceFailure(Discovered(off), req) == ComplianceFailure(off, req)
  {
  }

  /** The offer of a writer and the request of a reader, each sent through discovery in
      octets of whichever byte order, are judged as the originals are, whether against each other or against
      the local policies of the other side. */
  lemma MatchingUnchanged(e: Endian, f: Endian, w: Endpoint, r: Endpoint, off: Policies, req: Policies, wTail: Bytes, rTail: Bytes)
    requires w.extras.WriterExtras? && w.policies == SetQos(off) && Writable(w) && ShortEnough(e, w)
    requires r.extras.ReaderExtras? && r.policies == SetQos(req) && Writable(r) && ShortEnough(f, r)
    ensures var w' := Received(false, e, ListBytes(e, EndpointParameters(e, w)) + wTail);
            var r' := Received(true, f, ListBytes(f, EndpointParameters(f, r)) + rTail);
            && w'.Some? && r'.Some?
            && ComplianceFailure(QosIn(w'.value.policies), QosIn(r'.value.policies)) == ComplianceFailure(off, req)
            && ComplianceFailure(off, QosIn(r'.value.policies)) == ComplianceFailure(off, req)
            && ComplianceFailure(QosIn(w'.value.policies), req) == ComplianceFailure(off, req)
  {
    hide Received, EndpointParameters, ListBytes, Writable, ShortEnough, ComplianceFailure, SetQos, QosIn;
    RecordArrives(e, w, wTail);
    RecordArrives(f, r, rTail);
    ComplianceUnchanged(off, req);
  }
}
