/** The wire format in octets and numbers as RTPS 2.5 gives them (sections 9.3, 9.4.2 and
    9.6.4), and what the encoders write, compared. */
module WireFormat {
  import opened Basics
  import opened Wire
  import opened ParameterLists
  import opened FixedCodec
  import opened Qos
  import opened Sedp
  import CF = ContentFilters
  import P = Properties

  // ----- numbers ------------------------------------------------------------------------

  function U16(e: Endian, n: u16): Bytes {
    match e
    case Big => [(n / 256) as byte, (n % 256) as byte]
    case Little => [(n % 256) as byte, (n / 256) as byte]
  }

  function U32(e: Endian, n: u32): Bytes {
    match e
    case Big => U16(e, n / 0x1_0000) + U16(e, n % 0x1_0000)
    case Little => U16(e, n % 0x1_0000) + U16(e, n / 0x1_0000)
  }

  /** Two's complement. */
  function S32(e: Endian, x: i32): Bytes { U32(e, if x < 0 then x + 0x1_0000_0000 else x) }

  lemma HalfOctets(e: Endian, n: u16)
    ensures Half(e, n) == U16(e, n)
  {
    var b := Half(e, n);
    assert b == [b[0], b[1]];
  }

  lemma WordOctets(e: Endian, n: u32)
    ensures Word(e, n) == U32(e, n)
  {
    var hi, lo := n / 0x1_0000, n % 0x1_0000;
    assert n == hi * 0x1_0000 + lo && hi == hi / 256 * 256 + hi % 256 && lo == lo / 256 * 256 + lo % 256;
    var b := U32(e, n);
    assert WordOf(e, b) == n;
    WordIsUnique(e, n, b, Word(e, n));
  }

  // ----- parameters -----------------------------------------------------------------------

  /** Identifier, length and value padded with zeros to a multiple of four; the list ends
      with identifier 1 and length 0. */
  lemma ListOctets(e: Endian, p: Parameter, rest: seq<Parameter>)
    ensures var n := (|p.value| + 3) / 4 * 4;
            ListBytes(e, [p] + rest)
            == U16(e, p.pid) + U16(e, n % 0x1_0000) + (p.value + seq(n - |p.value|, _ => 0)) + ListBytes(e, rest)
    ensures ListBytes(e, []) == U16(e, 1) + U16(e, 0)
  {
    hide Half, U16;
    var n := (|p.value| + 3) / 4 * 4;
    assert |p.value| + PadOf(|p.value|) == n;
    assert Padded(p.value) == p.value + seq(n - |p.value|, _ => 0);
    HalfOctets(e, p.pid);
    HalfOctets(e, n % 0x1_0000);
    HalfOctets(e, 1);
    HalfOctets(e, 0);
    assert ([p] + rest)[0] == p && ([p] + rest)[1..] == rest;
  }

  /** Identifiers with their values, one parameter for each value. */
  type Table = seq<(u16, seq<Bytes>)>

  function Listing(t: Table): seq<Parameter>
    decreases |t|
  {
    if t == [] then []
    else
      var (pid, vs) := t[|t| - 1];
      Listing(t[..|t| - 1]) + seq(|vs|, i requires 0 <= i < |vs| => Parameter(pid, vs[i]))
  }

  function Pairs(order: seq<u16>, f: u16 -> seq<Bytes>): Table {
    seq(|order|, i requires 0 <= i < |order| => (order[i], f(order[i])))
  }

  lemma {:induction false} EmitIsSeq(pid: u16, vs: seq<Bytes>)
    ensures Emit(pid, vs) == seq(|vs|, i requires 0 <= i < |vs| => Parameter(pid, vs[i]))
    decreases |vs|
  {
    if vs != [] { EmitIsSeq(pid, vs[1..]); }
  }

  lemma {:induction false} ListingJoins(a: Table, b: Table)
    ensures Listing(a + b) == Listing(a) + Listing(b)
    decreases |b|
  {
    if b == [] {
      assert a + b == a;
    } else {
      assert (a + b)[..|a + b| - 1] == a + b[..|b| - 1] && (a + b)[|a + b| - 1] == b[|b| - 1];
      ListingJoins(a, b[..|b| - 1]);
    }
  }

  lemma ListingOne(pid: u16, vs: seq<Bytes>)
    ensures Listing([(pid, vs)]) == Emit(pid, vs)
  {
    EmitIsSeq(pid, vs);
    var t: Table := [(pid, vs)];
    assert t[..0] == [] && Listing(t[..0]) == [];
  }

  lemma {:induction false} FieldsListed(order: seq<u16>, f: u16 -> seq<Bytes>)
    ensures Fields(order, f) == Listing(Pairs(order, f))
    decreases |order|
  {
    hide Listing, Emit;
    if order == [] {
      ListingNothing();
      assert Pairs(order, f) == [];
    } else {
      FieldsListed(order[1..], f);
      ListingOne(order[0], f(order[0]));
      assert Pairs(order, f) == [(order[0], f(order[0]))] + Pairs(order[1..], f);
      ListingJoins([(order[0], f(order[0]))], Pairs(order[1..], f));
    }
  }

  lemma ListingNothing()
    ensures Listing([]) == []
  {
  }

  // ----- policies ---------------------------------------------------------------------------

  function Time(e: Endian, d: Duration): Bytes { S32(e, d.seconds) + U32(e, d.fraction) }

  function Times(e: Endian, o: Option<Duration>): seq<Bytes> { if o.None? then [] else [Time(e, o.value)] }

  function DurabilityOctets(e: Endian, o: Option<Durability>): seq<Bytes> {
    if o.None? then []
    else [U32(e, match o.value case Volatile => 0 case TransientLocal => 1 case Transient => 2 case Persistent => 3)]
  }

  function PresentationOctets(e: Endian, o: Option<Presentation>): seq<Bytes> {
    if o.None? then []
    else
      var scope := match o.value.scope case InstanceScope => 0 case TopicScope => 1 case GroupScope => 2;
      [U32(e, scope) + [if o.value.coherent then 1 else 0, if o.value.ordered then 1 else 0]]
  }

  function OwnershipOctets(e: Endian, o: Option<Ownership>): seq<Bytes> {
    match o case None => [] case Some(Shared) => [U32(e, 0)] case Some(Exclusive(_)) => [U32(e, 1)]
  }

  function StrengthOctets(e: Endian, o: Option<Ownership>): seq<Bytes> {
    match o case Some(Exclusive(strength)) => [S32(e, strength)] case _ => []
  }

  function LivelinessOctets(e: Endian, o: Option<Liveliness>): seq<Bytes> {
    match o
    case None => []
    case Some(Automatic(lease)) => [U32(e, 0) + Time(e, lease)]
    case Some(ManualByParticipant(lease)) => [U32(e, 1) + Time(e, lease)]
    case Some(ManualByTopic(lease)) => [U32(e, 2) + Time(e, lease)]
  }

  function ReliabilityOctets(e: Endian, o: Option<Reliability>): seq<Bytes> {
    match o
    case None => []
    case Some(BestEffort) => [U32(e, 1) + Time(e, Duration(0, 0))]
    case Some(Reliable(blocking)) => [U32(e, 2) + Time(e, blocking)]
  }

  function OrderOctets(e: Endian, o: Option<DestinationOrder>): seq<Bytes> {
    match o case None => [] case Some(ByReception) => [U32(e, 0)] case Some(BySource) => [U32(e, 1)]
  }

  function HistoryOctets(e: Endian, o: Option<History>): seq<Bytes> {
    match o case None => [] case Some(KeepLast(depth)) => [U32(e, 0) + S32(e, depth)] case Some(KeepAll) => [U32(e, 1) + U32(e, 0)]
  }

  function LimitsOctets(e: Endian, o: Option<ResourceLimits>): seq<Bytes> {
    if o.None? then []
    else [S32(e, o.value.maxSamples) + S32(e, o.value.maxInstances) + S32(e, o.value.maxSamplesPerInstance)]
  }

  /** The policies by identifier, in the order they are written. */
  function PolicyTable(e: Endian, q: Policies): Table {
    [(0x1d, DurabilityOctets(e, q.durability)), (0x21, PresentationOctets(e, q.presentation)), (0x23, Times(e, q.deadline)),
     (0x27, Times(e, q.latencyBudget)), (0x1f, OwnershipOctets(e, q.ownership)), (0x06, StrengthOctets(e, q.ownership)),
     (0x1b, LivelinessOctets(e, q.liveliness)), (0x04, Times(e, q.timeBasedFilter)), (0x1a, ReliabilityOctets(e, q.reliability)),
     (0x25, OrderOctets(e, q.destinationOrder)), (0x40, HistoryOctets(e, q.history)), (0x41, LimitsOctets(e, q.resourceLimits)),
     (0x2b, Times(e, q.lifespan))]
  }

  lemma NoWords(e: Endian, t: Bytes)
    ensures FixedBytes(e, Fixed([], t)) == t
  {
    assert [] + t == t;
  }

  lemma OneWord(e: Endian, a: u32, t: Bytes)
    ensures FixedBytes(e, Fixed([a], t)) == U32(e, a) + t && (t == [] ==> FixedBytes(e, Fixed([a], t)) == U32(e, a))
  {
    hide Word, U32;
    WordOctets(e, a);
    assert [a][1..] == [];
  }

  lemma TwoWords(e: Endian, a: u32, b: u32, t: Bytes)
    ensures FixedBytes(e, Fixed([a, b], t)) == U32(e, a) + U32(e, b) + t
    ensures t == [] ==> FixedBytes(e, Fixed([a, b], t)) == U32(e, a) + U32(e, b)
  {
    hide Word, U32;
    WordOctets(e, a);
    OneWord(e, b, t);
    assert [a, b][0] == a && [a, b][1..] == [b];
    assert Word(e, a) + WordsBytes(e, [b]) + t == Word(e, a) + (WordsBytes(e, [b]) + t);
    assert U32(e, a) + (U32(e, b) + t) == U32(e, a) + U32(e, b) + t;
  }

  lemma ThreeWords(e: Endian, a: u32, b: u32, c: u32)
    ensures FixedBytes(e, Fixed([a, b, c], [])) == U32(e, a) + U32(e, b) + U32(e, c)
    ensures FixedBytes(e, Fixed([a, b, c], [])) == U32(e, a) + (U32(e, b) + U32(e, c))
  {
    hide Word, U32;
    WordOctets(e, a);
    TwoWords(e, b, c, []);
    assert [a, b, c][0] == a && [a, b, c][1..] == [b, c];
    assert Word(e, a) + WordsBytes(e, [b, c]) + [] == Word(e, a) + (WordsBytes(e, [b, c]) + []);
    assert U32(e, a) + (U32(e, b) + U32(e, c)) == U32(e, a) + U32(e, b) + U32(e, c);
  }

  lemma TimesOctets(e: Endian, o: Option<Duration>)
    ensures AtMostOne(e, DurationFixed(o)) == Times(e, o)
  {
    hide U32, FixedBytes;
    if o.Some? { TwoWords(e, AsWord(o.value.seconds), o.value.fraction, []); }
  }

  lemma FirstPolicies(e: Endian, q: Policies)
    ensures AtMostOne(e, QosFixed(q, DURABILITY)) == DurabilityOctets(e, q.durability)
    ensures AtMostOne(e, QosFixed(q, PRESENTATION)) == PresentationOctets(e, q.presentation)
    ensures AtMostOne(e, QosFixed(q, DESTINATION_ORDER)) == OrderOctets(e, q.destinationOrder)
  {
    hide U32, FixedBytes;
    if q.durability.Some? { OneWord(e, DurabilityTag(q.durability.value), []); }
    if q.presentation.Some? {
      var p := q.presentation.value;
      OneWord(e, ScopeTag(p.scope), [Flag(p.coherent), Flag(p.ordered)]);
    }
    OneWord(e, 0, []);
    OneWord(e, 1, []);
  }

  lemma OwnershipPolicies(e: Endian, q: Policies)
    ensures AtMostOne(e, QosFixed(q, OWNERSHIP)) == OwnershipOctets(e, q.ownership)
    ensures AtMostOne(e, QosFixed(q, OWNERSHIP_STRENGTH)) == StrengthOctets(e, q.ownership)
  {
    hide U32, FixedBytes;
    OneWord(e, 0, []);
    OneWord(e, 1, []);
    if q.ownership.Some? && q.ownership.value.Exclusive? { OneWord(e, AsWord(q.ownership.value.strength), []); }
  }

  lemma WordAndTime(e: Endian, a: u32, d: Duration)
    ensures FixedBytes(e, Fixed([a] + DurationWords(d), [])) == U32(e, a) + Time(e, d)
  {
    hide U32, FixedBytes;
    ThreeWords(e, a, AsWord(d.seconds), d.fraction);
    assert [a] + DurationWords(d) == [a, AsWord(d.seconds), d.fraction];
  }

  lemma TimedPolicies(e: Endian, q: Policies)
    ensures AtMostOne(e, QosFixed(q, LIVELINESS)) == LivelinessOctets(e, q.liveliness)
    ensures AtMostOne(e, QosFixed(q, RELIABILITY)) == ReliabilityOctets(e, q.reliability)
  {
    hide U32, FixedBytes, DurationWords, Time;
    if q.liveliness.Some? { WordAndTime(e, KindTag(q.liveliness.value), q.liveliness.value.lease); }
    if q.reliability.Some? {
      match q.reliability.value
      case BestEffort => WordAndTime(e, 1, ZERO);
      case Reliable(d) => WordAndTime(e, 2, d);
    }
  }

  lemma LocalPolicies(e: Endian, q: Policies)
    ensures AtMostOne(e, QosFixed(q, HISTORY)) == HistoryOctets(e, q.history)
    ensures AtMostOne(e, QosFixed(q, RESOURCE_LIMITS)) == LimitsOctets(e, q.resourceLimits)
  {
    hide U32, FixedBytes;
    if q.history.Some? {
      match q.history.value
      case KeepLast(depth) => TwoWords(e, 0, AsWord(depth), []);
      case KeepAll => TwoWords(e, 1, 0, []);
    }
    if q.resourceLimits.Some? {
      var r := q.resourceLimits.value;
      ThreeWords(e, AsWord(r.maxSamples), AsWord(r.maxInstances), AsWord(r.maxSamplesPerInstance));
    }
  }

  lemma TimePolicies(e: Endian, q: Policies)
    ensures AtMostOne(e, QosFixed(q, DEADLINE)) == Times(e, q.deadline)
    ensures AtMostOne(e, QosFixed(q, LATENCY_BUDGET)) == Times(e, q.latencyBudget)
    ensures AtMostOne(e, QosFixed(q, TIME_BASED_FILTER)) == Times(e, q.timeBasedFilter)
    ensures AtMostOne(e, QosFixed(q, LIFESPAN)) == Times(e, q.lifespan)
  {
    hide AtMostOne, Times, DurationFixed;
    TimesOctets(e, q.deadline);
    TimesOctets(e, q.latencyBudget);
    TimesOctets(e, q.timeBasedFilter);
    TimesOctets(e, q.lifespan);
  }

  /** For every set of policies the parameters written are those of the table, octet by
      octet and in that order. */
  lemma PoliciesOnTheWire(e: Endian, q: Policies)
    ensures QosParameters(e, q) == Listing(PolicyTable(e, q))
  {
    hide Listing, AtMostOne, QosFixed, Fields, Times, DurabilityOctets, PresentationOctets, OwnershipOctets, StrengthOctets,
      LivelinessOctets, ReliabilityOctets, OrderOctets, HistoryOctets, LimitsOctets;
    FieldsListed(QOS_ORDER, QosField(e, q));
    FirstPolicies(e, q);
    OwnershipPolicies(e, q);
    TimedPolicies(e, q);
    LocalPolicies(e, q);
    TimePolicies(e, q);
    assert Pairs(QOS_ORDER, QosField(e, q)) == PolicyTable(e, q);
  }

  // ----- endpoints -----------------------------------------------------------------------------

  /** Kind, port and sixteen octets of address. */
  function LocatorOctets(e: Endian, l: Locator): Bytes {
    match l
    case Invalid => S32(e, -1) + U32(e, 0) + seq(16, _ => 0)
    case Reserved => S32(e, 0) + U32(e, 0) + seq(16, _ => 0)
    case UdpV4(ip, port) => S32(e, 1) + U32(e, port) + (seq(12, _ => 0) + ip)
    case UdpV6(ip, port, _, _) => S32(e, 2) + U32(e, port) + ip
    case Other(kind, port, address) => S32(e, kind) + U32(e, port) + address
  }

  function LocatorsOctets(e: Endian, ls: seq<Locator>): seq<Bytes> {
    seq(|ls|, i requires 0 <= i < |ls| => LocatorOctets(e, ls[i]))
  }

  /** The length, which counts the closing zero, and the octets. */
  function TextOctets(e: Endian, s: Bytes): Bytes { U32(e, (|s| + 1) % 0x1_0000_0000) + s + [0] }

  function TextsOctets(e: Endian, ss: seq<Bytes>): seq<Bytes> {
    seq(|ss|, i requires 0 <= i < |ss| => TextOctets(e, ss[i]))
  }

  function Optional<T>(o: Option<T>): seq<T> { if o.None? then [] else [o.value] }

  /** What comes before the policies. */
  function HeadTable(e: Endian, r: Endpoint): Table {
    [(0x43, ExpectsOctets(r.extras)),
     (0x60, SizeOctets(e, r.extras)),
     (0x5a, [r.guid]), (0x2f, LocatorsOctets(e, r.unicast)), (0x30, LocatorsOctets(e, r.multicast)),
     (0x50, Optional(r.participantKey)), (0x05, [TextOctets(e, r.topicName)]), (0x07, [TextOctets(e, r.typeName)])]
  }

  /** And behind them. */
  ghost function TailTable(e: Endian, r: Endpoint): Table {
    [(0x80, TextsOctets(e, Optional(r.serviceInstanceName))), (0x81, Optional(r.relatedEntityKey)),
     (0x82, TextsOctets(e, if r.topicAliases.Some? then r.topicAliases.value else [])),
     (0x35, FilterOctets(e, r.extras)),
     (0x1004, SecurityOctets(e, r.security))]
  }

  ghost function FilterOctets(e: Endian, x: Extras): seq<Bytes> {
    match x case ReaderExtras(_, Some(filter)) => [CF.Encoded(e, filter)] case _ => []
  }

  lemma OneLocator(e: Endian, l: Locator)
    ensures FixedBytes(e, LocatorFixed(l)) == LocatorOctets(e, l)
  {
    hide U32, FixedBytes;
    var f := LocatorFixed(l);
    TwoWords(e, f.words[0], f.words[1], f.octets);
    assert f.words == [f.words[0], f.words[1]];
    assert NO_ADDRESS == seq(16, _ => 0);
    if l.UdpV4? { assert NO_ADDRESS[..12] == seq(12, _ => 0); }
  }

  lemma {:induction false} LocatorsListed(e: Endian, ls: seq<Locator>)
    ensures LocatorValues(e, ls) == LocatorsOctets(e, ls)
    decreases |ls|
  {
    hide LocatorOctets, FixedBytes, LocatorFixed;
    if ls != [] {
      OneLocator(e, ls[0]);
      LocatorsListed(e, ls[1..]);
    }
  }

  lemma OneText(e: Endian, s: Bytes)
    ensures Cell(e, Text(s)) == TextOctets(e, s)
  {
    hide U32, Word;
    WordOctets(e, (|s| + 1) % 0x1_0000_0000);
  }

  lemma {:induction false} TextsListed(e: Endian, ss: seq<Bytes>)
    ensures TextValues(e, ss) == TextsOctets(e, ss)
    decreases |ss|
  {
    hide TextOctets, Cell;
    if ss != [] {
      OneText(e, ss[0]);
      TextsListed(e, ss[1..]);
    }
  }

  lemma OctetsListed(e: Endian, o: Option<Octets16>)
    ensures AtMostOne(e, OctetsFixed(o)) == Optional(o)
  {
    if o.Some? { assert [] + o.value == o.value; }
  }

  function ExpectsOctets(x: Extras): seq<Bytes> {
    match x case ReaderExtras(expects, _) => [[if expects then 1 else 0]] case WriterExtras(_) => []
  }

  function SizeOctets(e: Endian, x: Extras): seq<Bytes> {
    match x case WriterExtras(Some(size)) => [U32(e, size)] case _ => []
  }

  function SecurityOctets(e: Endian, o: Option<SecurityInfo>): seq<Bytes> {
    match o case None => [] case Some(s) => [U32(e, s.attributes) + U32(e, s.pluginAttributes)]
  }

  lemma WordsListed(e: Endian, r: Endpoint)
    ensures AtMostOne(e, ExpectsFixed(r.extras)) == ExpectsOctets(r.extras)
    ensures AtMostOne(e, MaxSizeFixed(r.extras)) == SizeOctets(e, r.extras)
    ensures AtMostOne(e, SecurityFixed(r.security)) == SecurityOctets(e, r.security)
  {
    hide U32, FixedBytes;
    if r.extras.ReaderExtras? { NoWords(e, [Flag(r.extras.expectsInlineQos)]); }
    if r.extras.WriterExtras? && r.extras.maxSizeSerialized.Some? { OneWord(e, r.extras.maxSizeSerialized.value, []); }
    if r.security.Some? { TwoWords(e, r.security.value.attributes, r.security.value.pluginAttributes, []); }
  }

  lemma HeadListed(e: Endian, r: Endpoint)
    ensures Pairs(HEAD_ORDER, EndpointField(e, r)) == HeadTable(e, r)
  {
    hide AtMostOne, LocatorsOctets, TextOctets, TextValues, LocatorValues, FilterValues, EndpointValues, ExpectsOctets, SizeOctets;
    NamedValues(e, r);
    WordsListed(e, r);
    OctetsListed(e, Some(r.guid));
    OctetsListed(e, r.participantKey);
    LocatorsListed(e, r.unicast);
    LocatorsListed(e, r.multicast);
    TextsListed(e, [r.topicName]);
    TextsListed(e, [r.typeName]);
    assert TextsOctets(e, [r.topicName]) == [TextOctets(e, r.topicName)];
    assert TextsOctets(e, [r.typeName]) == [TextOctets(e, r.typeName)];
    assert Optional(Some(r.guid)) == [r.guid];
  }

  lemma TailListed(e: Endian, r: Endpoint)
    ensures Pairs(TAIL_ORDER, EndpointField(e, r)) == TailTable(e, r)
  {
    hide AtMostOne, TextOctets, TextsOctets, TextValues, LocatorValues, EndpointValues, SecurityOctets, CF.Encoded;
    NamedValues(e, r);
    NamedRpcValues(e, r);
    WordsListed(e, r);
    OctetsListed(e, r.relatedEntityKey);
    TextsListed(e, Optional(r.serviceInstanceName));
    TextsListed(e, if r.topicAliases.Some? then r.topicAliases.value else []);
  }

  /** Every record of a reader or writer is written as the tables say: what precedes the
      policies, the policies, and the rest. */
  lemma EndpointOnTheWire(e: Endian, r: Endpoint)
    ensures EndpointParameters(e, r) == Listing(HeadTable(e, r) + PolicyTable(e, QosIn(r.policies)) + TailTable(e, r))
  {
    hide Listing, Fields, HeadTable, TailTable, PolicyTable, EndpointField, QosParameters;
    FieldsListed(HEAD_ORDER, EndpointField(e, r));
    FieldsListed(TAIL_ORDER, EndpointField(e, r));
    HeadListed(e, r);
    TailListed(e, r);
    PoliciesOnTheWire(e, QosIn(r.policies));
    ListingJoins(HeadTable(e, r) + PolicyTable(e, QosIn(r.policies)), TailTable(e, r));
    ListingJoins(HeadTable(e, r), PolicyTable(e, QosIn(r.policies)));
  }

  // ----- filters and properties ----------------------------------------------------------------

  lemma {:induction false} TextsNth(ss: seq<Bytes>, k: nat)
    ensures Length(CF.Texts(ss)) == |ss|
    ensures k < |ss| ==> Nth(CF.Texts(ss), k) == Text(ss[k])
    decreases |ss|
  {
    if ss != [] { TextsNth(ss[1..], if k > 0 then k - 1 else 0); }
  }

  lemma NthStep(i: Item, rest: Items, k: nat)
    ensures Length(Cons(i, rest)) == 1 + Length(rest)
    ensures k <= Length(rest) ==> Nth(Cons(i, rest), k) == if k == 0 then i else Nth(rest, k - 1)
  {
  }

  /** The k-th item of a content filter: four texts, the count, then the parameters. */
  lemma FilterLayout(f: CF.ContentFilter, k: nat)
    requires k < 5 + |f.parameters|
    ensures Length(CF.ItemsOf(f)) == 5 + |f.parameters|
    ensures Nth(CF.ItemsOf(f), k)
            == if k == 0 then Text(f.topicName) else if k == 1 then Text(f.relatedTopicName)
               else if k == 2 then Text(f.className) else if k == 3 then Text(f.expression)
               else if k == 4 then Count(|f.parameters| % 0x1_0000_0000) else Text(f.parameters[k - 5])
  {
    hide Nth, Length, CF.Texts;
    TextsNth(f.parameters, if k >= 5 then k - 5 else 0);
    var items := CF.ItemsOf(f);
    var i1, i2, i3, i4, i5 := items.tail, items.tail.tail, items.tail.tail.tail, items.tail.tail.tail.tail, items.tail.tail.tail.tail.tail;
    NthStep(i4.head, i5, if k >= 4 then k - 4 else 0);
    NthStep(i3.head, i4, if k >= 3 then k - 3 else 0);
    NthStep(i2.head, i3, if k >= 2 then k - 2 else 0);
    NthStep(i1.head, i2, if k >= 1 then k - 1 else 0);
    NthStep(items.head, i1, k);
  }

  /** Name and value of the k-th property of a list, and what follows the list. */
  lemma {:induction false} PropertyNth(binary: bool, ps: seq<P.Property>, rest: Items, k: nat)
    requires k < |ps|
    ensures var items := P.ListItems(binary, ps, rest);
            && Length(items) == 2 * |ps| + Length(rest)
            && Nth(items, 2 * k) == Text(ps[k].name)
            && Nth(items, 2 * k + 1) == if binary then Blob(ps[k].value) else Text(ps[k].value)
    decreases |ps|
  {
    var items := P.ListItems(binary, ps, rest);
    assert items.tail.tail == P.ListItems(binary, ps[1..], rest);
    if |ps| > 1 { PropertyNth(binary, ps[1..], rest, if k > 0 then k - 1 else 0); }
    if k > 0 {
      assert Nth(items, 2 * k) == Nth(items.tail, 2 * k - 1) == Nth(items.tail.tail, 2 * k - 2);
      assert Nth(items, 2 * k + 1) == Nth(items.tail, 2 * k) == Nth(items.tail.tail, 2 * k - 1);
    } else {
      assert Nth(items, 1) == Nth(items.tail, 0);
    }
  }

  /** The length that the code works out for a property is that of its octets. */
  lemma SerializedLenIsLength(e: Endian, binary: bool, p: P.Property)
    ensures P.SerializedLen(binary, p)
            == |PutAll(e, [], Cons(Text(p.name), Cons(if binary then Blob(p.value) else Text(p.value), Nil)))|
  {
    var value := if binary then Blob(p.value) else Text(p.value);
    assert |Put(e, [], Text(p.name))| == 4 + |p.name| + 1;
    var named := Put(e, [], Text(p.name));
    assert PutAll(e, named, Cons(value, Nil)) == PutAll(e, Put(e, named, value), Nil) == Put(e, named, value);
  }

  // ----- reading texts and padding ---------------------------------------------------------------

  /** The last character goes, with the octets from 128 to 191 that continue it. */
  lemma {:induction false} PopsLastChar(before: Bytes, lead: byte, more: Bytes)
    requires !(128 <= lead < 192) && forall i :: 0 <= i < |more| ==> 128 <= more[i] < 192
    ensures PopChar(before + [lead] + more) == before
    decreases |more|
  {
    var s := before + [lead] + more;
    if more == [] {
      assert s[..|s| - 1] == before;
    } else {
      assert s[..|s| - 1] == before + [lead] + more[..|more| - 1];
      PopsLastChar(before, lead, more[..|more| - 1]);
    }
  }

  /** Padding is skipped to the next multiple of four, and fails beyond the end. */
  lemma SkipsToBoundary(d: Bytes, pos: nat, len: nat)
    requires pos % 4 == len % 4
    ensures var next := (pos + 3) / 4 * 4;
            SkipPad(d, pos, len) == if next == pos || next <= |d| then Got((), next) else Failed
  {
  }
}
