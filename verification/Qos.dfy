/** The QoS policies: when an offer satisfies a request (DDS 1.4, section 2.2.3), and
    how policies travel as parameters. */
module Qos {
  import opened Basics
  import opened Wire
  import opened ParameterLists
  import opened FixedCodec
  import opened Properties

  datatype Duration = Duration(seconds: i32, fraction: u32)

  const ZERO := Duration(0, 0)

  predicate Longer(a: Duration, b: Duration) {
    a.seconds > b.seconds || (a.seconds == b.seconds && a.fraction > b.fraction)
  }

  datatype Durability = Volatile | TransientLocal | Transient | Persistent
  datatype Scope = InstanceScope | TopicScope | GroupScope
  datatype Presentation = Presentation(scope: Scope, coherent: bool, ordered: bool)
  datatype Ownership = Shared | Exclusive(strength: i32)
  datatype Liveliness = Automatic(lease: Duration) | ManualByParticipant(lease: Duration) | ManualByTopic(lease: Duration)
  datatype Reliability = BestEffort | Reliable(maxBlocking: Duration)
  datatype DestinationOrder = ByReception | BySource
  datatype History = KeepLast(depth: i32) | KeepAll
  datatype ResourceLimits = ResourceLimits(maxSamples: i32, maxInstances: i32, maxSamplesPerInstance: i32)

  datatype Policies = Policies(
    durability: Option<Durability>,
    presentation: Option<Presentation>,
    deadline: Option<Duration>,
    latencyBudget: Option<Duration>,
    ownership: Option<Ownership>,
    liveliness: Option<Liveliness>,
    timeBasedFilter: Option<Duration>,
    reliability: Option<Reliability>,
    destinationOrder: Option<DestinationOrder>,
    history: Option<History>,
    resourceLimits: Option<ResourceLimits>,
    lifespan: Option<Duration>,
    property: Option<PropertyPolicy>)

  // ----- tags ------------------------------------------------------------------------------

  function DurabilityTag(d: Durability): u32 {
    match d case Volatile => 0 case TransientLocal => 1 case Transient => 2 case Persistent => 3
  }

  function ScopeTag(s: Scope): u32 {
    match s case InstanceScope => 0 case TopicScope => 1 case GroupScope => 2
  }

  function KindTag(l: Liveliness): u32 {
    match l case Automatic(_) => 0 case ManualByParticipant(_) => 1 case ManualByTopic(_) => 2
  }

  // ----- compatibility -----------------------------------------------------------------------

  datatype PolicyId =
    | DurabilityId | PresentationId | DeadlineId | LatencyBudgetId | OwnershipId | LivelinessId | ReliabilityId
    | DestinationOrderId

  /** The source's ordering of liveliness looks at the lease only: a longer one is less. */
  predicate LivelinessLess(off: Liveliness, req: Liveliness) { Longer(off.lease, req.lease) }

  predicate ReliabilityLess(off: Reliability, req: Reliability) { off.BestEffort? && req.Reliable? }

  /** The first policy by which the offer fails the request, if any. */
  function ComplianceFailure(off: Policies, req: Policies): Option<PolicyId> {
    if off.durability.Some? && req.durability.Some?
       && DurabilityTag(off.durability.value) < DurabilityTag(req.durability.value) then Some(DurabilityId)
    else if off.presentation.Some? && req.presentation.Some?
            && PresentationFails(off.presentation.value, req.presentation.value) then Some(PresentationId)
    else if off.deadline.Some? && req.deadline.Some?
            && Longer(off.deadline.value, req.deadline.value) then Some(DeadlineId)
    else if off.latencyBudget.Some? && req.latencyBudget.Some?
            && Longer(off.latencyBudget.value, req.latencyBudget.value) then Some(LatencyBudgetId)
    else if off.ownership.Some? && req.ownership.Some?
            && off.ownership.value != req.ownership.value then Some(OwnershipId)
    else if off.liveliness.Some? && req.liveliness.Some?
            && LivelinessLess(off.liveliness.value, req.liveliness.value) then Some(LivelinessId)
    else if off.reliability.Some? && req.reliability.Some?
            && ReliabilityLess(off.reliability.value, req.reliability.value) then Some(ReliabilityId)
    else if off.destinationOrder.Some? && req.destinationOrder.Some?
            && off.destinationOrder.value.ByReception? && req.destinationOrder.value.BySource? then Some(DestinationOrderId)
    else None
  }

  predicate PresentationFails(off: Presentation, req: Presentation) {
    (req.coherent && !off.coherent) || (req.ordered && !off.ordered) || ScopeTag(req.scope) > ScopeTag(off.scope)
  }

  /** The length of a duration, in units of 2^-32 seconds. */
  function Value(d: Duration): int { d.seconds * 0x1_0000_0000 + d.fraction }

  /** Volatile, transient-local, transient, persistent: each includes those before. */
  predicate AtLeastDurable(o: Durability, r: Durability) {
    match r
    case Volatile => true
    case TransientLocal => o.TransientLocal? || o.Transient? || o.Persistent?
    case Transient => o.Transient? || o.Persistent?
    case Persistent => o.Persistent?
  }

  /** Instance, topic, group: each includes those before. */
  predicate AtLeastWide(o: Scope, r: Scope) {
    match r
    case InstanceScope => true
    case TopicScope => o.TopicScope? || o.GroupScope?
    case GroupScope => o.GroupScope?
  }

  /** Automatic, manual by participant, manual by topic: each is stricter than those before. */
  predicate AtLeastManual(o: Liveliness, r: Liveliness) {
    match r
    case Automatic(_) => true
    case ManualByParticipant(_) => o.ManualByParticipant? || o.ManualByTopic?
    case ManualByTopic(_) => o.ManualByTopic?
  }

  /** The request is met in one policy: by a policy at least as good, or by default when
      either side leaves it open. */
  predicate Meets(id: PolicyId, off: Policies, req: Policies) {
    match id
    case DurabilityId =>
      off.durability.None? || req.durability.None? || AtLeastDurable(off.durability.value, req.durability.value)
    case PresentationId => off.presentation.None? || req.presentation.None?
      || var o, r := off.presentation.value, req.presentation.value;
         (r.coherent ==> o.coherent) && (r.ordered ==> o.ordered) && AtLeastWide(o.scope, r.scope)
    case DeadlineId => off.deadline.None? || req.deadline.None? || Value(off.deadline.value) <= Value(req.deadline.value)
    case LatencyBudgetId =>
      off.latencyBudget.None? || req.latencyBudget.None? || Value(off.latencyBudget.value) <= Value(req.latencyBudget.value)
    case OwnershipId => off.ownership.None? || req.ownership.None? || off.ownership == req.ownership
    case LivelinessId =>
      off.liveliness.None? || req.liveliness.None? || Value(off.liveliness.value.lease) <= Value(req.liveliness.value.lease)
    case ReliabilityId =>
      off.reliability.None? || req.reliability.None? || (req.reliability.value.Reliable? ==> off.reliability.value.Reliable?)
    case DestinationOrderId =>
      off.destinationOrder.None? || req.destinationOrder.None?
      || (req.destinationOrder.value.BySource? ==> off.destinationOrder.value.BySource?)
  }

  lemma OrdersAreThose(o: Policies, r: Policies, a: Duration, b: Duration)
    ensures Longer(a, b) <==> Value(a) > Value(b)
    ensures o.durability.Some? && r.durability.Some? ==>
              (DurabilityTag(o.durability.value) < DurabilityTag(r.durability.value)
               <==> !AtLeastDurable(o.durability.value, r.durability.value))
    ensures o.presentation.Some? && r.presentation.Some? ==>
              (ScopeTag(r.presentation.value.scope) > ScopeTag(o.presentation.value.scope)
               <==> !AtLeastWide(o.presentation.value.scope, r.presentation.value.scope))
  {
  }

  function Place(id: PolicyId): nat {
    match id
    case DurabilityId => 0 case PresentationId => 1 case DeadlineId => 2 case LatencyBudgetId => 3
    case OwnershipId => 4 case LivelinessId => 5 case ReliabilityId => 6 case DestinationOrderId => 7
  }

  /** The verdict is the first policy that is not met, and none exactly if all are. */
  lemma VerdictIsFirstUnmet(off: Policies, req: Policies, id: PolicyId)
    ensures ComplianceFailure(off, req) == Some(id)
            <==> !Meets(id, off, req) && forall i :: Place(i) < Place(id) ==> Meets(i, off, req)
    ensures ComplianceFailure(off, req) == None ==> Meets(id, off, req)
  {
    hide Longer, DurabilityTag, ScopeTag, Value, AtLeastDurable, AtLeastWide;
    OrdersAreThose(off, req, ZERO, ZERO);
    if off.deadline.Some? && req.deadline.Some? { OrdersAreThose(off, req, off.deadline.value, req.deadline.value); }
    if off.latencyBudget.Some? && req.latencyBudget.Some? {
      OrdersAreThose(off, req, off.latencyBudget.value, req.latencyBudget.value);
    }
    if off.liveliness.Some? && req.liveliness.Some? {
      OrdersAreThose(off, req, off.liveliness.value.lease, req.liveliness.value.lease);
    }
    if ComplianceFailure(off, req) != Some(id) && !Meets(id, off, req) {
      var first := ComplianceFailure(off, req).value;
      assert !Meets(first, off, req) && Place(first) < Place(id);
    }
  }

  /** The two differ in this one policy at most. */
  predicate DifferOnlyIn(id: PolicyId, a: Policies, b: Policies) {
    match id
    case DurabilityId => b == a.(durability := b.durability)
    case PresentationId => b == a.(presentation := b.presentation)
    case DeadlineId => b == a.(deadline := b.deadline)
    case LatencyBudgetId => b == a.(latencyBudget := b.latencyBudget)
    case OwnershipId => b == a.(ownership := b.ownership)
    case LivelinessId => b == a.(liveliness := b.liveliness)
    case ReliabilityId => b == a.(reliability := b.reliability)
    case DestinationOrderId => b == a.(destinationOrder := b.destinationOrder)
  }

  predicate Names(id: PolicyId, q: Policies) {
    match id
    case DurabilityId => q.durability.Some?
    case PresentationId => q.presentation.Some?
    case DeadlineId => q.deadline.Some?
    case LatencyBudgetId => q.latencyBudget.Some?
    case OwnershipId => q.ownership.Some?
    case LivelinessId => q.liveliness.Some?
    case ReliabilityId => q.reliability.Some?
    case DestinationOrderId => q.destinationOrder.Some?
  }

  /** Raising one offered policy never turns an accepted offer into a refused one, and
      lowering it below the request always refuses, for that policy. */
  lemma ComplianceIsMonotone(id: PolicyId, off: Policies, other: Policies, req: Policies)
    requires ComplianceFailure(off, req) == None && DifferOnlyIn(id, off, other)
    ensures Names(id, off) && Meets(id, other, off) ==> ComplianceFailure(other, req) == None
    ensures !Meets(id, other, req) ==> ComplianceFailure(other, req) == Some(id)
  {
    hide ComplianceFailure, Value, AtLeastDurable, AtLeastWide;
    forall i ensures Meets(i, off, req) { VerdictIsFirstUnmet(off, req, i); }
    forall i | i != id ensures Meets(i, other, req) { SameElsewhere(id, i, off, other, req); }
    VerdictIsFirstUnmet(other, req, id);
    if Names(id, off) && Meets(id, other, off) {
      MeetsThrough(id, other, off, req);
      NoneWhenAllMet(other, req);
    }
  }

  lemma SameElsewhere(id: PolicyId, i: PolicyId, a: Policies, b: Policies, req: Policies)
    requires DifferOnlyIn(id, a, b) && i != id
    ensures Meets(i, b, req) <==> Meets(i, a, req)
  {
  }

  lemma MeetsThrough(id: PolicyId, a: Policies, b: Policies, c: Policies)
    requires Names(id, b) && Meets(id, a, b) && Meets(id, b, c)
    ensures Meets(id, a, c)
  {
  }

  lemma NoneWhenAllMet(off: Policies, req: Policies)
    requires forall i :: Meets(i, off, req)
    ensures ComplianceFailure(off, req) == None
  {
    hide ComplianceFailure, Meets;
    var v := ComplianceFailure(off, req);
    if v.Some? { VerdictIsFirstUnmet(off, req, v.value); }
  }

  predicate LeavesNothingOpen(q: Policies) {
    q.durability.Some? && q.presentation.Some? && q.deadline.Some? && q.latencyBudget.Some? && q.ownership.Some?
    && q.liveliness.Some? && q.reliability.Some? && q.destinationOrder.Some?
  }

  /** Every set of policies meets itself, and meeting is passed on through a set that
      leaves nothing open. */
  lemma ComplianceIsAPreorder(a: Policies, b: Policies, c: Policies)
    ensures ComplianceFailure(a, a) == None
    ensures LeavesNothingOpen(b) && ComplianceFailure(a, b) == None && ComplianceFailure(b, c) == None ==> ComplianceFailure(a, c) == None
  {
  }

  /** What the comments and the DDS table ask for: at least the requested kind, and at
      most the requested lease. */
  predicate LivelinessAsDocumented(off: Liveliness, req: Liveliness) {
    AtLeastManual(off, req) && Value(off.lease) <= Value(req.lease)
  }

  /** The code decides as documented exactly when the kinds are in order or the lease
      is too long anyway. */
  lemma LivelinessDecidesAsDocumentedIff(off: Liveliness, req: Liveliness)
    ensures (!LivelinessLess(off, req) <==> LivelinessAsDocumented(off, req))
            <==> AtLeastManual(off, req) || Value(off.lease) > Value(req.lease)
  {
  }

  /** An automatic offer passes for a request that wants manual assertion by topic. */
  lemma LivelinessKindIsIgnored(lease: Duration, none: Policies)
    requires none == Policies(None, None, None, None, None, None, None, None, None, None, None, None, None)
    ensures var off, req := none.(liveliness := Some(Automatic(lease))), none.(liveliness := Some(ManualByTopic(lease)));
            ComplianceFailure(off, req) == None
            && !LivelinessAsDocumented(off.liveliness.value, req.liveliness.value)
  {
  }

  /** Ownership kinds are to be equal; the code also compares the strengths, so it
      decides as documented unless both are exclusive with different strengths. */
  lemma OwnershipDecidesAsDocumentedIff(off: Ownership, req: Ownership)
    ensures (off == req <==> (off.Shared? <==> req.Shared?))
            <==> !(off.Exclusive? && req.Exclusive? && off.strength != req.strength)
  {
  }

  /** Two exclusive owners of different strength are refused for it. */
  lemma OwnershipStrengthIsCompared(none: Policies)
    requires none == Policies(None, None, None, None, None, None, None, None, None, None, None, None, None)
    ensures var off, req := none.(ownership := Some(Exclusive(1))), none.(ownership := Some(Exclusive(2)));
            ComplianceFailure(off, req) == Some(OwnershipId)
            && off.ownership.value.Exclusive? && req.ownership.value.Exclusive?
  {
  }

  // ----- policies as parameters ------------------------------------------------------------------

  const DURABILITY: u16 := 0x1d
  const PRESENTATION: u16 := 0x21
  const DEADLINE: u16 := 0x23
  const LATENCY_BUDGET: u16 := 0x27
  const OWNERSHIP: u16 := 0x1f
  const OWNERSHIP_STRENGTH: u16 := 0x06
  const LIVELINESS: u16 := 0x1b
  const TIME_BASED_FILTER: u16 := 0x04
  const RELIABILITY: u16 := 0x1a
  const DESTINATION_ORDER: u16 := 0x25
  const HISTORY: u16 := 0x40
  const RESOURCE_LIMITS: u16 := 0x41
  const LIFESPAN: u16 := 0x2b

  const QOS_ORDER: seq<u16> := [
    DURABILITY, PRESENTATION, DEADLINE, LATENCY_BUDGET, OWNERSHIP, OWNERSHIP_STRENGTH, LIVELINESS,
    TIME_BASED_FILTER, RELIABILITY, DESTINATION_ORDER, HISTORY, RESOURCE_LIMITS, LIFESPAN]

  function Flag(b: bool): byte { if b then 1 else 0 }

  function DurationWords(d: Duration): seq<u32> { [AsWord(d.seconds), d.fraction] }

  function DurationFixed(o: Option<Duration>): Option<Fixed> {
    if o.None? then None else Some(Fixed(DurationWords(o.value), []))
  }

  /** What is written for one identifier. */
  function QosFixed(q: Policies, pid: u16): Option<Fixed> {
    if pid == DURABILITY then
      if q.durability.None? then None else Some(Fixed([DurabilityTag(q.durability.value)], []))
    else if pid == PRESENTATION then
      if q.presentation.None? then None
      else var p := q.presentation.value; Some(Fixed([ScopeTag(p.scope)], [Flag(p.coherent), Flag(p.ordered)]))
    else if pid == DEADLINE then DurationFixed(q.deadline)
    else if pid == LATENCY_BUDGET then DurationFixed(q.latencyBudget)
    else if pid == OWNERSHIP then
      if q.ownership.None? then None else Some(Fixed([if q.ownership.value.Shared? then 0 else 1], []))
    else if pid == OWNERSHIP_STRENGTH then
      if q.ownership.Some? && q.ownership.value.Exclusive? then Some(Fixed([AsWord(q.ownership.value.strength)], []))
      else None
    else if pid == LIVELINESS then
      if q.liveliness.None? then None
      else var l := q.liveliness.value; Some(Fixed([KindTag(l)] + DurationWords(l.lease), []))
    else if pid == TIME_BASED_FILTER then DurationFixed(q.timeBasedFilter)
    else if pid == RELIABILITY then
      if q.reliability.None? then None
      else match q.reliability.value
        case BestEffort => Some(Fixed([1] + DurationWords(ZERO), []))
        case Reliable(d) => Some(Fixed([2] + DurationWords(d), []))
    else if pid == DESTINATION_ORDER then
      if q.destinationOrder.None? then None else Some(Fixed([if q.destinationOrder.value.ByReception? then 0 else 1], []))
    else if pid == HISTORY then
      if q.history.None? then None
      else match q.history.value
        case KeepLast(depth) => Some(Fixed([0, AsWord(depth)], []))
        case KeepAll => Some(Fixed([1, 0], []))
    else if pid == RESOURCE_LIMITS then
      if q.resourceLimits.None? then None
      else var r := q.resourceLimits.value;
           Some(Fixed([AsWord(r.maxSamples), AsWord(r.maxInstances), AsWord(r.maxSamplesPerInstance)], []))
    else if pid == LIFESPAN then DurationFixed(q.lifespan)
    else None
  }

  function QosShape(pid: u16): Shape {
    if pid == PRESENTATION then Shape(1, 2)
    else if pid == DURABILITY || pid == OWNERSHIP || pid == OWNERSHIP_STRENGTH || pid == DESTINATION_ORDER then Shape(1, 0)
    else if pid == LIVELINESS || pid == RELIABILITY || pid == RESOURCE_LIMITS then Shape(3, 0)
    else Shape(2, 0)
  }

  lemma QosFixedHasShape(q: Policies, pid: u16)
    ensures QosFixed(q, pid).Some? ==> HasShape(QosFixed(q, pid).value, QosShape(pid))
  {
  }

  ghost function QosField(e: Endian, q: Policies): u16 -> seq<Bytes> {
    (pid: u16) => AtMostOne(e, QosFixed(q, pid))
  }

  /** The parameters for a set of policies, in the order they are written. */
  ghost function QosParameters(e: Endian, q: Policies): seq<Parameter> { Fields(QOS_ORDER, QosField(e, q)) }

  // ----- writing ------------------------------------------------------------------------------

  lemma QosStep(e: Endian, q: Policies, i: nat)
    requires i < |QOS_ORDER|
    ensures Fields(QOS_ORDER[i..], QosField(e, q))
            == Emit(QOS_ORDER[i], AtMostOne(e, QosFixed(q, QOS_ORDER[i]))) + Fields(QOS_ORDER[i + 1..], QosField(e, q))
  {
    hide QosFixed, Emit;
    assert QOS_ORDER[i..][0] == QOS_ORDER[i] && QOS_ORDER[i..][1..] == QOS_ORDER[i + 1..];
  }

  /** Pushes one parameter if there is a value. */
  method EmitOption(e: Endian, pl: seq<Parameter>, pid: u16, o: Option<Fixed>) returns (more: seq<Parameter>)
    ensures more == pl + Emit(pid, AtMostOne(e, o))
  {
    more := pl;
    if o.Some? {
      var v := WriteFixed(e, o.value);
      more := more + [Parameter(pid, v)];
      assert Emit(pid, [v]) == [Parameter(pid, v)];
    }
  }

  /** What is left to push from the i-th policy on. */
  ghost function Remaining(e: Endian, q: Policies, i: nat): seq<Parameter>
    requires i <= |QOS_ORDER|
  {
    Fields(QOS_ORDER[i..], QosField(e, q))
  }

  lemma AllRemaining(e: Endian, q: Policies)
    ensures Remaining(e, q, 0) == QosParameters(e, q) && Remaining(e, q, 13) == []
  {
    assert QOS_ORDER[0..] == QOS_ORDER && QOS_ORDER[13..] == [];
  }

  /** Pushes the i-th policy. */
  method EmitPolicy(e: Endian, q: Policies, pl: seq<Parameter>, pid: u16, ghost i: nat) returns (more: seq<Parameter>)
    requires i < |QOS_ORDER| && QOS_ORDER[i] == pid
    ensures pl + Remaining(e, q, i) == more + Remaining(e, q, i + 1)
  {
    hide QosFixed, Emit, AtMostOne, QosField;
    QosStep(e, q, i);
    more := EmitOption(e, pl, pid, QosFixed(q, pid));
    ghost var rest := Fields(QOS_ORDER[i + 1..], QosField(e, q));
    assert pl + (Emit(pid, AtMostOne(e, QosFixed(q, pid))) + rest) == more + rest;
  }

  /** The parameters are pushed policy by policy. */
  method ToParameterList(e: Endian, q: Policies) returns (pl: seq<Parameter>)
    ensures pl == QosParameters(e, q)
  {
    hide Remaining, QosParameters;
    pl := [];
    AllRemaining(e, q);
    assert pl + QosParameters(e, q) == QosParameters(e, q);
    pl := EmitPolicy(e, q, pl, DURABILITY, 0);
    pl := EmitPolicy(e, q, pl, PRESENTATION, 1);
    pl := EmitPolicy(e, q, pl, DEADLINE, 2);
    pl := EmitPolicy(e, q, pl, LATENCY_BUDGET, 3);
    pl := EmitPolicy(e, q, pl, OWNERSHIP, 4);
    pl := EmitPolicy(e, q, pl, OWNERSHIP_STRENGTH, 5);
    pl := EmitPolicy(e, q, pl, LIVELINESS, 6);
    pl := EmitPolicy(e, q, pl, TIME_BASED_FILTER, 7);
    pl := EmitPolicy(e, q, pl, RELIABILITY, 8);
    pl := EmitPolicy(e, q, pl, DESTINATION_ORDER, 9);
    pl := EmitPolicy(e, q, pl, HISTORY, 10);
    pl := EmitPolicy(e, q, pl, RESOURCE_LIMITS, 11);
    pl := EmitPolicy(e, q, pl, LIFESPAN, 12);
    assert pl + [] == pl;
  }

  // ----- reading ------------------------------------------------------------------------------

  function DurationOf(f: Field<Fixed>): Field<Duration>
    requires Shaped(f, Shape(2, 0))
  {
    match f
    case Absent => Absent
    case Bad => Bad
    case Present(x) => Present(Duration(AsSigned(x.words[0]), x.words[1]))
  }

  function DurabilityOf(f: Field<Fixed>): Field<Durability>
    requires Shaped(f, Shape(1, 0))
  {
    match f
    case Absent => Absent
    case Bad => Bad
    case Present(x) =>
      if x.words[0] == 0 then Present(Volatile) else if x.words[0] == 1 then Present(TransientLocal)
      else if x.words[0] == 2 then Present(Transient) else if x.words[0] == 3 then Present(Persistent) else Bad
  }

  function PresentationOf(f: Field<Fixed>): Field<Presentation>
    requires Shaped(f, Shape(1, 2))
  {
    match f
    case Absent => Absent
    case Bad => Bad
    case Present(x) =>
      if x.words[0] > 2 then Bad
      else
        var scope := if x.words[0] == 0 then InstanceScope else if x.words[0] == 1 then TopicScope else GroupScope;
        Present(Presentation(scope, x.octets[0] != 0, x.octets[1] != 0))
  }

  /** Both parts of an exclusive ownership must be there, and no strength for a shared one. */
  function OwnershipOf(kind: Field<Fixed>, strength: Field<Fixed>): Field<Ownership>
    requires Shaped(kind, Shape(1, 0)) && Shaped(strength, Shape(1, 0))
  {
    if kind.Bad? || strength.Bad? || (kind.Present? && kind.value.words[0] > 1) then Bad
    else if kind.Absent? then Absent
    else if kind.value.words[0] == 0 then if strength.Absent? then Present(Shared) else Absent
    else if strength.Absent? then Absent
    else Present(Exclusive(AsSigned(strength.value.words[0])))
  }

  function LivelinessOf(f: Field<Fixed>): Field<Liveliness>
    requires Shaped(f, Shape(3, 0))
  {
    match f
    case Absent => Absent
    case Bad => Bad
    case Present(x) =>
      var lease := Duration(AsSigned(x.words[1]), x.words[2]);
      if x.words[0] == 0 then Present(Automatic(lease)) else if x.words[0] == 1 then Present(ManualByParticipant(lease))
      else if x.words[0] == 2 then Present(ManualByTopic(lease)) else Bad
  }

  function ReliabilityOf(f: Field<Fixed>): Field<Reliability>
    requires Shaped(f, Shape(3, 0))
  {
    match f
    case Absent => Absent
    case Bad => Bad
    case Present(x) =>
      if x.words[0] == 1 then Present(BestEffort)
      else if x.words[0] == 2 then Present(Reliable(Duration(AsSigned(x.words[1]), x.words[2]))) else Bad
  }

  function DestinationOrderOf(f: Field<Fixed>): Field<DestinationOrder>
    requires Shaped(f, Shape(1, 0))
  {
    match f
    case Absent => Absent
    case Bad => Bad
    case Present(x) =>
      if x.words[0] == 0 then Present(ByReception) else if x.words[0] == 1 then Present(BySource) else Bad
  }

  function HistoryOf(f: Field<Fixed>): Field<History>
    requires Shaped(f, Shape(2, 0))
  {
    match f
    case Absent => Absent
    case Bad => Bad
    case Present(x) =>
      if x.words[0] == 0 then Present(KeepLast(AsSigned(x.words[1]))) else if x.words[0] == 1 then Present(KeepAll) else Bad
  }

  function ResourceLimitsOf(f: Field<Fixed>): Field<ResourceLimits>
    requires Shaped(f, Shape(3, 0))
  {
    match f
    case Absent => Absent
    case Bad => Bad
    case Present(x) => Present(ResourceLimits(AsSigned(x.words[0]), AsSigned(x.words[1]), AsSigned(x.words[2])))
  }

  function ReadQos(e: Endian, ps: seq<Parameter>, pid: u16): (f: Field<Fixed>)
    ensures Shaped(f, QosShape(pid))
  {
    FixedField(e, ps, pid, QosShape(pid))
  }

  function DurabilityIn(e: Endian, ps: seq<Parameter>): Field<Durability> { DurabilityOf(ReadQos(e, ps, DURABILITY)) }

  function PresentationIn(e: Endian, ps: seq<Parameter>): Field<Presentation> {
    PresentationOf(ReadQos(e, ps, PRESENTATION))
  }

  function DurationIn(e: Endian, ps: seq<Parameter>, pid: u16): Field<Duration> {
    DurationOf(FixedField(e, ps, pid, Shape(2, 0)))
  }

  function OwnershipIn(e: Endian, ps: seq<Parameter>): Field<Ownership> {
    OwnershipOf(ReadQos(e, ps, OWNERSHIP), ReadQos(e, ps, OWNERSHIP_STRENGTH))
  }

  function LivelinessIn(e: Endian, ps: seq<Parameter>): Field<Liveliness> { LivelinessOf(ReadQos(e, ps, LIVELINESS)) }

  function ReliabilityIn(e: Endian, ps: seq<Parameter>): Field<Reliability> { ReliabilityOf(ReadQos(e, ps, RELIABILITY)) }

  function DestinationOrderIn(e: Endian, ps: seq<Parameter>): Field<DestinationOrder> {
    DestinationOrderOf(ReadQos(e, ps, DESTINATION_ORDER))
  }

  function HistoryIn(e: Endian, ps: seq<Parameter>): Field<History> { HistoryOf(ReadQos(e, ps, HISTORY)) }

  function ResourceLimitsIn(e: Endian, ps: seq<Parameter>): Field<ResourceLimits> {
    ResourceLimitsOf(ReadQos(e, ps, RESOURCE_LIMITS))
  }

  /** The policies in a parameter list; octets that are no value fail the whole. */
  function FromParameterList(e: Endian, ps: seq<Parameter>): Option<Policies> {
    var durability := DurabilityIn(e, ps);
    var presentation := PresentationIn(e, ps);
    var deadline := DurationIn(e, ps, DEADLINE);
    var latencyBudget := DurationIn(e, ps, LATENCY_BUDGET);
    var ownership := OwnershipIn(e, ps);
    var liveliness := LivelinessIn(e, ps);
    var timeBasedFilter := DurationIn(e, ps, TIME_BASED_FILTER);
    var reliability := ReliabilityIn(e, ps);
    var destinationOrder := DestinationOrderIn(e, ps);
    var history := HistoryIn(e, ps);
    var resourceLimits := ResourceLimitsIn(e, ps);
    var lifespan := DurationIn(e, ps, LIFESPAN);
    if durability.Bad? || presentation.Bad? || deadline.Bad? || latencyBudget.Bad? || ownership.Bad? || liveliness.Bad?
       || timeBasedFilter.Bad? || reliability.Bad? || destinationOrder.Bad? || history.Bad? || resourceLimits.Bad?
       || lifespan.Bad?
    then None
    else Some(Policies(
      ToOption(durability), ToOption(presentation), ToOption(deadline), ToOption(latencyBudget), ToOption(ownership),
      ToOption(liveliness), ToOption(timeBasedFilter), ToOption(reliability), ToOption(destinationOrder),
      ToOption(history), ToOption(resourceLimits), ToOption(lifespan), None))
  }

  // ----- reading undoes writing ------------------------------------------------------------------

  /** The list holds the policies, each value padded, perhaps among other parameters. */
  ghost predicate Carries(e: Endian, ps: seq<Parameter>, q: Policies) {
    forall pid :: pid in QOS_ORDER ==> ValuesOf(ps, pid) == PadEach(AtMostOne(e, QosFixed(q, pid)))
  }

  lemma CarriedField(e: Endian, ps: seq<Parameter>, q: Policies, pid: u16)
    requires Carries(e, ps, q) && pid in QOS_ORDER
    ensures ReadQos(e, ps, pid) == FromOption(QosFixed(q, pid))
  {
    hide QosFixed, QosShape, FixedField;
    QosFixedHasShape(q, pid);
    FieldReadsBack(e, ps, pid, QosShape(pid), QosFixed(q, pid));
  }

  lemma DurationsReadBack(o: Option<Duration>)
    ensures DurationOf(FromOption(DurationFixed(o))) == FromOption(o)
  {
  }

  lemma SimplePoliciesReadBack(q: Policies)
    ensures DurabilityOf(FromOption(QosFixed(q, DURABILITY))) == FromOption(q.durability)
    ensures PresentationOf(FromOption(QosFixed(q, PRESENTATION))) == FromOption(q.presentation)
    ensures DestinationOrderOf(FromOption(QosFixed(q, DESTINATION_ORDER))) == FromOption(q.destinationOrder)
    ensures HistoryOf(FromOption(QosFixed(q, HISTORY))) == FromOption(q.history)
    ensures ResourceLimitsOf(FromOption(QosFixed(q, RESOURCE_LIMITS))) == FromOption(q.resourceLimits)
  {
  }

  lemma CompoundPoliciesReadBack(q: Policies)
    ensures LivelinessOf(FromOption(QosFixed(q, LIVELINESS))) == FromOption(q.liveliness)
    ensures ReliabilityOf(FromOption(QosFixed(q, RELIABILITY))) == FromOption(q.reliability)
    ensures OwnershipOf(FromOption(QosFixed(q, OWNERSHIP)), FromOption(QosFixed(q, OWNERSHIP_STRENGTH)))
            == FromOption(q.ownership)
  {
  }

  lemma SimpleFieldsReadBack(e: Endian, ps: seq<Parameter>, q: Policies)
    requires Carries(e, ps, q)
    ensures DurabilityIn(e, ps) == FromOption(q.durability) && PresentationIn(e, ps) == FromOption(q.presentation)
    ensures DestinationOrderIn(e, ps) == FromOption(q.destinationOrder)
    ensures HistoryIn(e, ps) == FromOption(q.history) && ResourceLimitsIn(e, ps) == FromOption(q.resourceLimits)
  {
    hide QosFixed, ReadQos, Carries, DurabilityOf, PresentationOf, DestinationOrderOf, HistoryOf, ResourceLimitsOf;
    SimplePoliciesReadBack(q);
    CarriedField(e, ps, q, DURABILITY);
    CarriedField(e, ps, q, PRESENTATION);
    CarriedField(e, ps, q, DESTINATION_ORDER);
    CarriedField(e, ps, q, HISTORY);
    CarriedField(e, ps, q, RESOURCE_LIMITS);
  }

  lemma CompoundFieldsReadBack(e: Endian, ps: seq<Parameter>, q: Policies)
    requires Carries(e, ps, q)
    ensures LivelinessIn(e, ps) == FromOption(q.liveliness) && ReliabilityIn(e, ps) == FromOption(q.reliability)
    ensures OwnershipIn(e, ps) == FromOption(q.ownership)
  {
    hide QosFixed, ReadQos, Carries, OwnershipOf, LivelinessOf, ReliabilityOf;
    CompoundPoliciesReadBack(q);
    CarriedField(e, ps, q, LIVELINESS);
    CarriedField(e, ps, q, RELIABILITY);
    CarriedField(e, ps, q, OWNERSHIP);
    CarriedField(e, ps, q, OWNERSHIP_STRENGTH);
  }

  lemma DurationFieldReadsBack(e: Endian, ps: seq<Parameter>, q: Policies, pid: u16, o: Option<Duration>)
    requires Carries(e, ps, q) && pid in QOS_ORDER && QosFixed(q, pid) == DurationFixed(o) && QosShape(pid) == Shape(2, 0)
    ensures DurationIn(e, ps, pid) == FromOption(o)
  {
    hide QosFixed, Carries, DurationOf, DurationFixed, FixedField;
    CarriedField(e, ps, q, pid);
    DurationsReadBack(o);
  }

  lemma DurationPolicies(q: Policies)
    ensures QosFixed(q, DEADLINE) == DurationFixed(q.deadline) && QosFixed(q, LATENCY_BUDGET) == DurationFixed(q.latencyBudget)
    ensures QosFixed(q, TIME_BASED_FILTER) == DurationFixed(q.timeBasedFilter)
    ensures QosFixed(q, LIFESPAN) == DurationFixed(q.lifespan)
  {
  }

  lemma DurationFieldsReadBack(e: Endian, ps: seq<Parameter>, q: Policies)
    requires Carries(e, ps, q)
    ensures DurationIn(e, ps, DEADLINE) == FromOption(q.deadline)
    ensures DurationIn(e, ps, LATENCY_BUDGET) == FromOption(q.latencyBudget)
    ensures DurationIn(e, ps, TIME_BASED_FILTER) == FromOption(q.timeBasedFilter)
    ensures DurationIn(e, ps, LIFESPAN) == FromOption(q.lifespan)
  {
    hide Carries, QosFixed, DurationFixed, DurationIn;
    DurationPolicies(q);
    DurationFieldReadsBack(e, ps, q, DEADLINE, q.deadline);
    DurationFieldReadsBack(e, ps, q, LATENCY_BUDGET, q.latencyBudget);
    DurationFieldReadsBack(e, ps, q, TIME_BASED_FILTER, q.timeBasedFilter);
    DurationFieldReadsBack(e, ps, q, LIFESPAN, q.lifespan);
  }

  lemma OptionsBack(q: Policies)
    ensures !FromOption(q.durability).Bad? && ToOption(FromOption(q.durability)) == q.durability
    ensures !FromOption(q.presentation).Bad? && ToOption(FromOption(q.presentation)) == q.presentation
    ensures !FromOption(q.deadline).Bad? && ToOption(FromOption(q.deadline)) == q.deadline
    ensures !FromOption(q.latencyBudget).Bad? && ToOption(FromOption(q.latencyBudget)) == q.latencyBudget
    ensures !FromOption(q.ownership).Bad? && ToOption(FromOption(q.ownership)) == q.ownership
    ensures !FromOption(q.liveliness).Bad? && ToOption(FromOption(q.liveliness)) == q.liveliness
    ensures !FromOption(q.timeBasedFilter).Bad? && ToOption(FromOption(q.timeBasedFilter)) == q.timeBasedFilter
    ensures !FromOption(q.reliability).Bad? && ToOption(FromOption(q.reliability)) == q.reliability
    ensures !FromOption(q.destinationOrder).Bad? && ToOption(FromOption(q.destinationOrder)) == q.destinationOrder
    ensures !FromOption(q.history).Bad? && ToOption(FromOption(q.history)) == q.history
    ensures !FromOption(q.resourceLimits).Bad? && ToOption(FromOption(q.resourceLimits)) == q.resourceLimits
    ensures !FromOption(q.lifespan).Bad? && ToOption(FromOption(q.lifespan)) == q.lifespan
  {
  }

  /** Of all policies only the properties are not read back. */
  lemma PoliciesReadBack(e: Endian, ps: seq<Parameter>, q: Policies)
    requires Carries(e, ps, q)
    ensures FromParameterList(e, ps) == Some(q.(property := None))
  {
    hide Carries, DurabilityIn, PresentationIn, DurationIn, OwnershipIn, LivelinessIn, ReliabilityIn, DestinationOrderIn,
      HistoryIn, ResourceLimitsIn, FromOption, ToOption;
    SimpleFieldsReadBack(e, ps, q);
    CompoundFieldsReadBack(e, ps, q);
    DurationFieldsReadBack(e, ps, q);
    OptionsBack(q);
  }
}
