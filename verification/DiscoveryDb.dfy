/** The discovery database: participants with their leases, live endpoints, the
    attic of endpoints whose participant timed out, and the topic table. */
module DiscoveryDbs {
  import opened Basics
  import opened Topics

  // ----- time ----------------------------------------------------------------

  const NANOS_PER_SEC := 1_000_000_000
  const TICKS_PER_SEC := 0x1_0000_0000

  /** Seconds cast to a signed 32-bit number. */
  function AsI32(x: nat): int {
    var m := x % 0x1_0000_0000;
    if m < 0x8000_0000 then m else m - 0x1_0000_0000
  }

  /** Seconds from 2^31 on turn negative, and the cast repeats every 2^32 seconds. */
  lemma SecondsWrap(x: nat, k: nat)
    requires -0x8000_0000 <= x - k * 0x1_0000_0000 < 0x8000_0000
    ensures AsI32(x) == x - k * 0x1_0000_0000
  {
    var y := x - k * 0x1_0000_0000;
    if y >= 0 {
      assert x == k * 0x1_0000_0000 + y && x % 0x1_0000_0000 == y;
    } else {
      assert x == (k - 1) * 0x1_0000_0000 + (y + 0x1_0000_0000) && x % 0x1_0000_0000 == y + 0x1_0000_0000;
    }
  }

  /** A span of nanoseconds in units of 2^-32 seconds, as the source converts it. */
  function Ticks(nanos: nat): int {
    AsI32(nanos / NANOS_PER_SEC) * TICKS_PER_SEC + nanos % NANOS_PER_SEC * TICKS_PER_SEC / NANOS_PER_SEC
  }

  /** The longest span the cast leaves alone: 2^31 seconds. */
  const LONGEST := 0x8000_0000 * NANOS_PER_SEC

  /** A lease that is not exceeded bounds the span itself, to within one tick. */
  lemma TicksBoundNanos(nanos: nat, lease: int)
    requires nanos < LONGEST && Ticks(nanos) <= lease
    ensures nanos * TICKS_PER_SEC < (lease + 1) * NANOS_PER_SEC
  {
    var s, r := nanos / NANOS_PER_SEC, nanos % NANOS_PER_SEC;
    var f := r * TICKS_PER_SEC / NANOS_PER_SEC;
    assert nanos == s * NANOS_PER_SEC + r;
    assert r * TICKS_PER_SEC < (f + 1) * NANOS_PER_SEC;
    assert s < 0x8000_0000;
    assert AsI32(s) == s;
  }

  /** And a span within the lease does not exceed it in ticks either. */
  lemma NanosBoundTicks(nanos: nat, lease: int)
    requires nanos < LONGEST && nanos * TICKS_PER_SEC <= lease * NANOS_PER_SEC
    ensures Ticks(nanos) <= lease
  {
    var s, r := nanos / NANOS_PER_SEC, nanos % NANOS_PER_SEC;
    assert nanos == s * NANOS_PER_SEC + r && AsI32(s) == s;
  }

  // ----- state ----------------------------------------------------------------

  const PARTICIPANT_ENTITY := 0x1c1
  const DEFAULT_LEASE := 60 * TICKS_PER_SEC

  datatype Participant = Participant(guid: Guid, lease: Option<int>)

  datatype Endpoint = Endpoint(guid: Guid, topic: TopicData)

  type Endpoints = map<Guid, Endpoint>

  datatype Db = Db(
    myGuid: Guid,
    proxies: map<int, Participant>,
    lifeSigns: map<int, int>,
    localReaders: Endpoints,
    localWriters: Endpoints,
    readers: Endpoints,
    writers: Endpoints,
    readersAttic: Endpoints,
    writersAttic: Endpoints,
    topics: Table)

  function EmptyDb(myGuid: Guid): Db {
    Db(myGuid, map[], map[], map[], map[], map[], map[], map[], map[], map[])
  }

  /** The endpoints of one participant: the range of its GUID prefix. */
  function Of(m: Endpoints, p: int): Endpoints { map g | g in m && g.prefix == p :: m[g] }

  function Without(m: Endpoints, ps: set<int>): Endpoints { map g | g in m && g.prefix !in ps :: m[g] }

  function Within(m: Endpoints, ps: set<int>): Endpoints { map g | g in m && g.prefix in ps :: m[g] }

  function LeaseOf(p: Participant): int {
    if p.lease.Some? then p.lease.value else DEFAULT_LEASE
  }

  // ----- operations -------------------------------------------------------------

  /** The attic entries of p are live again. */
  function FromAttic(db: Db, p: int): Db {
    db.(readers := db.readers + Within(db.readersAttic, {p}),
        readersAttic := Without(db.readersAttic, {p}),
        writers := db.writers + Within(db.writersAttic, {p}),
        writersAttic := Without(db.writersAttic, {p}))
  }

  function UpdateParticipant(db: Db, data: Participant, now: int): Db {
    if data.guid.entity != PARTICIPANT_ENTITY then db
    else
      var p := data.guid.prefix;
      var d := if p in db.proxies then db else FromAttic(db, p);
      d.(proxies := d.proxies[p := data], lifeSigns := d.lifeSigns[p := now])
  }

  function ParticipantIsAlive(db: Db, p: int, now: int): Db {
    if p in db.lifeSigns then db.(lifeSigns := db.lifeSigns[p := now]) else db
  }

  function DisposeParticipant(db: Db, p: int): Db {
    db.(proxies := db.proxies - {p}, lifeSigns := db.lifeSigns - {p},
        readers := Without(db.readers, {p}), writers := Without(db.writers, {p}))
  }

  /** Time-out of a set of participants: their endpoints go to the attic. */
  function TimeOut(db: Db, ps: set<int>): Db {
    db.(proxies := db.proxies - ps, lifeSigns := db.lifeSigns - ps,
        readers := Without(db.readers, ps), writers := Without(db.writers, ps),
        readersAttic := db.readersAttic + Within(db.readers, ps),
        writersAttic := db.writersAttic + Within(db.writers, ps))
  }

  /** Silent for longer than the lease. The clock never runs backwards. */
  predicate Expired(db: Db, p: int, now: int) {
    && p in db.proxies && p in db.lifeSigns
    && Ticks(Max(0, now - db.lifeSigns[p])) > LeaseOf(db.proxies[p])
  }

  function ExpiredSet(db: Db, now: int): set<int> {
    set p | p in db.proxies && Expired(db, p, now)
  }

  function Cleanup(db: Db, now: int): Db { TimeOut(db, ExpiredSet(db, now)) }

  function UpdateSubscription(db: Db, e: Endpoint): Db {
    db.(readers := db.readers[e.guid := e], topics := Updated(db.topics, e.topic, e.guid, ViaSubscription))
  }

  function UpdatePublication(db: Db, e: Endpoint): Db {
    db.(writers := db.writers[e.guid := e], topics := Updated(db.topics, e.topic, e.guid, ViaPublication))
  }

  predicate OnTopic(m: Endpoints, name: string) {
    exists g :: g in m && m[g].topic.name == name
  }

  predicate HasWritersOrReaders(db: Db, name: string) {
    OnTopic(db.localReaders, name) || OnTopic(db.localWriters, name)
    || OnTopic(db.readers, name) || OnTopic(db.writers, name)
  }

  function LiveTopics(db: Db): set<string> { set n | n in db.topics && HasWritersOrReaders(db, n) }

  function TopicCleanup(db: Db): Db { db.(topics := Cleaned(db.topics, LiveTopics(db))) }

  // ----- runs -------------------------------------------------------------------

  datatype Event =
    | ParticipantSeen(data: Participant, now: int)
    | Alive(p: int, now: int)
    | Disposed(p: int)
    | CleanupTick(now: int)
    | ReaderSeen(e: Endpoint)
    | WriterSeen(e: Endpoint)
    | ReaderDisposed(g: Guid)
    | WriterDisposed(g: Guid)
    | LocalReader(e: Endpoint)
    | LocalWriter(e: Endpoint)
    | LocalReaderGone(g: Guid)
    | LocalWriterGone(g: Guid)
    | TopicSeen(t: TopicData, source: Guid, via: Via)
    | TopicCleanupTick

  function Step(db: Db, ev: Event): Db {
    match ev
    case ParticipantSeen(data, now) => UpdateParticipant(db, data, now)
    case Alive(p, now) => ParticipantIsAlive(db, p, now)
    case Disposed(p) => DisposeParticipant(db, p)
    case CleanupTick(now) => Cleanup(db, now)
    case _ => EndpointStep(db, ev)
  }

  /** Events that do not concern the participant tables or the attic. */
  function EndpointStep(db: Db, ev: Event): (d: Db)
    ensures d.proxies == db.proxies && d.lifeSigns == db.lifeSigns
    ensures d.readersAttic == db.readersAttic && d.writersAttic == db.writersAttic
    ensures WellKeyed(db.topics) ==> WellKeyed(d.topics)
  {
    match ev
    case ReaderSeen(e) =>
      assert WellKeyed(db.topics) ==> WellKeyed(UpdateSubscription(db, e).topics) by {
        if WellKeyed(db.topics) { UpdateWellKeyed(db.topics, e.topic, e.guid, ViaSubscription); }
      }
      UpdateSubscription(db, e)
    case WriterSeen(e) =>
      assert WellKeyed(db.topics) ==> WellKeyed(UpdatePublication(db, e).topics) by {
        if WellKeyed(db.topics) { UpdateWellKeyed(db.topics, e.topic, e.guid, ViaPublication); }
      }
      UpdatePublication(db, e)
    case ReaderDisposed(g) => db.(readers := db.readers - {g})
    case WriterDisposed(g) => db.(writers := db.writers - {g})
    case LocalReader(e) => db.(localReaders := db.localReaders[e.guid := e])
    case LocalWriter(e) => db.(localWriters := db.localWriters[e.guid := e])
    case LocalReaderGone(g) => db.(localReaders := db.localReaders - {g})
    case LocalWriterGone(g) => db.(localWriters := db.localWriters - {g})
    case TopicSeen(t, source, via) =>
      assert WellKeyed(db.topics) ==> WellKeyed(Updated(db.topics, t, source, via)) by {
        if WellKeyed(db.topics) { UpdateWellKeyed(db.topics, t, source, via); }
      }
      db.(topics := Updated(db.topics, t, source, via))
    case TopicCleanupTick => TopicCleanup(db)
    case _ => db
  }

  function Run(db: Db, h: seq<Event>): Db
    decreases |h|
  {
    if h == [] then db else Step(Run(db, h[..|h| - 1]), h[|h| - 1])
  }

  /** Both participant tables have the same keys, and a known participant has nothing
      in the attic. */
  ghost predicate Inv(db: Db) {
    && (forall p :: p in db.proxies <==> p in db.lifeSigns)
    && (forall g :: g in db.readersAttic || g in db.writersAttic ==> g.prefix !in db.proxies)
    && WellKeyed(db.topics)
  }

  lemma SeenKeepsInv(db: Db, data: Participant, now: int)
    requires Inv(db)
    ensures Inv(UpdateParticipant(db, data, now))
  {
    hide Within, WellKeyed;
    var p := data.guid.prefix;
    var d := FromAttic(db, p);
    assert forall g :: g in d.readersAttic || g in d.writersAttic ==> g.prefix != p && g.prefix !in db.proxies;
  }

  lemma CleanupKeepsInv(db: Db, now: int)
    requires Inv(db)
    ensures Inv(Cleanup(db, now))
  {
  }

  lemma StepKeepsInv(db: Db, ev: Event)
    requires Inv(db)
    ensures Inv(Step(db, ev))
  {
    match ev
    case ParticipantSeen(data, now) => SeenKeepsInv(db, data, now);
    case CleanupTick(now) => CleanupKeepsInv(db, now);
    case Alive(p, now) =>
    case Disposed(p) =>
    case _ => assert Step(db, ev) == EndpointStep(db, ev);
  }

  lemma {:induction false} RunKeepsInv(db: Db, h: seq<Event>)
    requires Inv(db)
    ensures Inv(Run(db, h))
    decreases |h|
  {
    if h != [] {
      RunKeepsInv(db, h[..|h| - 1]);
      StepKeepsInv(Run(db, h[..|h| - 1]), h[|h| - 1]);
    }
  }

  // ----- time-out and rediscovery -------------------------------------------------

  /** The event is about participant p or one of its endpoints. */
  predicate Names(ev: Event, p: int) {
    match ev
    case ParticipantSeen(data, _) => data.guid.prefix == p
    case Alive(q, _) => q == p
    case Disposed(q) => q == p
    case ReaderSeen(e) => e.guid.prefix == p
    case WriterSeen(e) => e.guid.prefix == p
    case ReaderDisposed(g) => g.prefix == p
    case WriterDisposed(g) => g.prefix == p
    case _ => false
  }

  /** Everything the database holds about remote participant p. */
  datatype About = About(known: bool, readers: Endpoints, writers: Endpoints, readersAttic: Endpoints, writersAttic: Endpoints)

  function Holds(db: Db, p: int): About {
    About(p in db.proxies, Of(db.readers, p), Of(db.writers, p), Of(db.readersAttic, p), Of(db.writersAttic, p))
  }

  lemma OfWithout(m: Endpoints, ps: set<int>, p: int)
    ensures Of(Without(m, ps), p) == if p in ps then map[] else Of(m, p)
  {
  }

  lemma OfWithin(m: Endpoints, ps: set<int>, p: int)
    ensures Of(Within(m, ps), p) == if p in ps then Of(m, p) else map[]
  {
  }

  lemma OfUnion(a: Endpoints, b: Endpoints, p: int)
    ensures Of(a + b, p) == Of(a, p) + Of(b, p)
  {
  }

  lemma OfMoved(from: Endpoints, to: Endpoints, ps: set<int>, p: int)
    ensures Of(Without(from, ps), p) == if p in ps then map[] else Of(from, p)
    ensures Of(to + Within(from, ps), p) == if p in ps then Of(to, p) + Of(from, p) else Of(to, p)
  {
    OfWithout(from, ps, p);
    OfWithin(from, ps, p);
    OfUnion(to, Within(from, ps), p);
  }

  lemma OfOther(m: Endpoints, g: Guid, e: Endpoint, p: int)
    requires g.prefix != p
    ensures Of(m[g := e], p) == Of(m, p)
    ensures Of(m - {g}, p) == Of(m, p)
  {
  }

  lemma AtticOfOther(db: Db, q: int, p: int)
    requires p != q
    ensures Holds(FromAttic(db, q), p) == Holds(db, p)
  {
    OfMoved(db.readersAttic, db.readers, {q}, p);
    OfMoved(db.writersAttic, db.writers, {q}, p);
  }

  lemma SeenLeavesAbsentAlone(db: Db, data: Participant, now: int, p: int)
    requires p !in db.proxies && data.guid.prefix != p
    ensures Holds(UpdateParticipant(db, data, now), p) == Holds(db, p)
  {
    AtticOfOther(db, data.guid.prefix, p);
  }

  lemma CleanupLeavesAbsentAlone(db: Db, now: int, p: int)
    requires p !in db.proxies
    ensures Holds(Cleanup(db, now), p) == Holds(db, p)
  {
    OfMoved(db.readers, db.readersAttic, ExpiredSet(db, now), p);
    OfMoved(db.writers, db.writersAttic, ExpiredSet(db, now), p);
  }

  lemma OtherStepsLeaveAbsentAlone(db: Db, ev: Event, p: int)
    requires p !in db.proxies && !Names(ev, p)
    ensures Holds(Step(db, ev), p) == Holds(db, p)
  {
    match ev
    case ReaderSeen(e) => OfOther(db.readers, e.guid, e, p);
    case WriterSeen(e) => OfOther(db.writers, e.guid, e, p);
    case ReaderDisposed(g) => OfOther(db.readers, g, Endpoint(g, TopicData("", "", 0)), p);
    case WriterDisposed(g) => OfOther(db.writers, g, Endpoint(g, TopicData("", "", 0)), p);
    case ParticipantSeen(data, now) => SeenLeavesAbsentAlone(db, data, now, p);
    case CleanupTick(now) => CleanupLeavesAbsentAlone(db, now, p);
    case Disposed(q) => OfWithout(db.readers, {q}, p); OfWithout(db.writers, {q}, p);
    case _ =>
  }

  lemma {:induction false} OtherRunsLeaveAbsentAlone(db: Db, h: seq<Event>, p: int)
    requires p !in db.proxies && forall i :: 0 <= i < |h| ==> !Names(h[i], p)
    ensures Holds(Run(db, h), p) == Holds(db, p)
    decreases |h|
  {
    if h != [] {
      OtherRunsLeaveAbsentAlone(db, h[..|h| - 1], p);
      OtherStepsLeaveAbsentAlone(Run(db, h[..|h| - 1]), h[|h| - 1], p);
    }
  }

  lemma NothingInAttic(db: Db, p: int)
    requires Inv(db) && p in db.proxies
    ensures Of(db.readersAttic, p) == map[] && Of(db.writersAttic, p) == map[]
  {
  }

  lemma NothingPlus(m: Endpoints)
    ensures map[] + m == m && m + map[] == m
  {
  }

  /** Time-out moves everything of an expired participant to the attic. */
  lemma TimedOutGoesToAttic(db: Db, p: int, now: int)
    requires Inv(db) && Expired(db, p, now)
    ensures var b := Holds(db, p);
            Holds(Cleanup(db, now), p) == About(false, map[], map[], b.readers, b.writers)
  {
    var ps := ExpiredSet(db, now);
    assert p in ps;
    OfMoved(db.readers, db.readersAttic, ps, p);
    OfMoved(db.writers, db.writersAttic, ps, p);
    NothingInAttic(db, p);
    NothingPlus(Of(db.readers, p));
    NothingPlus(Of(db.writers, p));
  }

  /** A newly seen participant gets back what the attic holds for it. */
  lemma SeenAgainComesFromAttic(db: Db, data: Participant, now: int)
    requires data.guid.entity == PARTICIPANT_ENTITY && data.guid.prefix !in db.proxies
    ensures var p := data.guid.prefix;
            var b := Holds(db, p);
            Holds(UpdateParticipant(db, data, now), p)
            == About(true, b.readers + b.readersAttic, b.writers + b.writersAttic, map[], map[])
  {
    OfMoved(db.readersAttic, db.readers, {data.guid.prefix}, data.guid.prefix);
    OfMoved(db.writersAttic, db.writers, {data.guid.prefix}, data.guid.prefix);
  }

  /** Time-out, anything about other participants, rediscovery: exactly the same
      readers and writers as before, and nothing left in the attic. */
  lemma RediscoveryRestores(db: Db, past: seq<Event>, p: int, t: int, between: seq<Event>, data: Participant, now: int)
    requires Inv(db) && Expired(Run(db, past), p, t)
    requires forall i :: 0 <= i < |between| ==> !Names(between[i], p)
    requires data.guid == Guid(p, PARTICIPANT_ENTITY)
    ensures var before := Run(db, past);
            var after := UpdateParticipant(Run(Cleanup(before, t), between), data, now);
            Holds(after, p) == About(true, Of(before.readers, p), Of(before.writers, p), map[], map[])
  {
    RunKeepsInv(db, past);
    var before := Run(db, past);
    TimedOutGoesToAttic(before, p, t);
    OtherRunsLeaveAbsentAlone(Cleanup(before, t), between, p);
    SeenAgainComesFromAttic(Run(Cleanup(before, t), between), data, now);
    NothingPlus(Of(before.readers, p));
    NothingPlus(Of(before.writers, p));
  }

  /** A disposal does not clear the attic: after it, a returning participant has what
      the attic held, so it starts with nothing only if the attic held nothing. */
  lemma DisposalLeavesAttic(db: Db, data: Participant, now: int)
    requires data.guid.entity == PARTICIPANT_ENTITY
    ensures var p := data.guid.prefix;
            var after := UpdateParticipant(DisposeParticipant(db, p), data, now);
            && Of(after.readers, p) == Of(db.readersAttic, p) && Of(after.writers, p) == Of(db.writersAttic, p)
            && (Inv(db) && p in db.proxies ==> Of(after.readers, p) == map[] && Of(after.writers, p) == map[])
  {
    var p := data.guid.prefix;
    OfWithout(db.readers, {p}, p);
    OfWithout(db.writers, {p}, p);
    SeenAgainComesFromAttic(DisposeParticipant(db, p), data, now);
    NothingPlus(Of(db.readersAttic, p));
    NothingPlus(Of(db.writersAttic, p));
    if Inv(db) && p in db.proxies {
      NothingInAttic(db, p);
    }
  }

  // ----- leases over timed runs ------------------------------------------------------

  /** The lease that a participant's own data names, in units of 2^-32 seconds; a minute
      if it names none. */
  function SaidLease(data: Participant): int {
    match data.lease
    case Some(ticks) => ticks
    case None => 60 * 0x1_0000_0000
  }

  /** One participant's life as its own events tell it: when it was last heard, and
      for how long that counts. */
  datatype Life = Life(heard: int, lease: int)

  function LifeStep(life: Option<Life>, ev: Event, p: int): Option<Life> {
    match ev
    case ParticipantSeen(data, now) =>
      if data.guid == Guid(p, 0x1c1) then Some(Life(now, SaidLease(data))) else life
    case Alive(q, now) => if q == p && life.Some? then Some(life.value.(heard := now)) else life
    case Disposed(q) => if q == p then None else life
    case CleanupTick(now) =>
      if life.Some? && Ticks(Max(0, now - life.value.heard)) > life.value.lease then None else life
    case _ => life
  }

  function LifeAfter(h: seq<Event>, p: int): Option<Life>
    decreases |h|
  {
    if h == [] then None else LifeStep(LifeAfter(h[..|h| - 1], p), h[|h| - 1], p)
  }

  /** The tables say about p what its life says. */
  ghost predicate Tells(db: Db, p: int, life: Option<Life>) {
    && (p in db.proxies <==> life.Some?) && (p in db.lifeSigns <==> life.Some?)
    && (life.Some? ==> life.value == Life(db.lifeSigns[p], SaidLease(db.proxies[p])))
  }

  lemma CleanupTells(db: Db, now: int, p: int, life: Option<Life>)
    requires Tells(db, p, life)
    ensures Tells(Cleanup(db, now), p, LifeStep(life, CleanupTick(now), p))
  {
    assert p in ExpiredSet(db, now) <==> Expired(db, p, now);
  }

  lemma SeenTells(db: Db, data: Participant, now: int, p: int, life: Option<Life>)
    requires Tells(db, p, life)
    ensures Tells(UpdateParticipant(db, data, now), p, LifeStep(life, ParticipantSeen(data, now), p))
  {
  }

  lemma AliveTells(db: Db, q: int, now: int, p: int, life: Option<Life>)
    requires Tells(db, p, life)
    ensures Tells(ParticipantIsAlive(db, q, now), p, LifeStep(life, Alive(q, now), p))
  {
    hide Ticks;
  }

  lemma DisposedTells(db: Db, q: int, p: int, life: Option<Life>)
    requires Tells(db, p, life)
    ensures Tells(DisposeParticipant(db, q), p, LifeStep(life, Disposed(q), p))
  {
    hide Ticks;
  }

  lemma StepTells(db: Db, ev: Event, p: int, life: Option<Life>)
    requires Tells(db, p, life)
    ensures Tells(Step(db, ev), p, LifeStep(life, ev, p))
  {
    hide UpdateParticipant, ParticipantIsAlive, DisposeParticipant, Cleanup, EndpointStep, Ticks;
    match ev
    case ParticipantSeen(data, now) => SeenTells(db, data, now, p, life);
    case Alive(q, now) => AliveTells(db, q, now, p, life);
    case Disposed(q) => DisposedTells(db, q, p, life);
    case CleanupTick(now) => CleanupTells(db, now, p, life);
    case _ => assert Step(db, ev) == EndpointStep(db, ev);
  }

  /** In every run, a participant is in the tables exactly while it is alive by its
      own events. */
  lemma {:induction false} KnownExactlyWhileAlive(my: Guid, h: seq<Event>, p: int)
    ensures Tells(Run(EmptyDb(my), h), p, LifeAfter(h, p))
    decreases |h|
  {
    if h != [] {
      KnownExactlyWhileAlive(my, h[..|h| - 1], p);
      StepTells(Run(EmptyDb(my), h[..|h| - 1]), h[|h| - 1], p, LifeAfter(h[..|h| - 1], p));
    }
  }

  /** What p's own messages say, whatever the cleanups do. */
  function Heard(life: Life, more: seq<Event>, p: int): Life
    decreases |more|
  {
    if more == [] then life
    else
      var past := Heard(life, more[..|more| - 1], p);
      match more[|more| - 1]
      case ParticipantSeen(data, now) =>
        if data.guid == Guid(p, 0x1c1) then Life(now, SaidLease(data)) else past
      case Alive(q, now) => if q == p then past.(heard := now) else past
      case _ => past
  }

  /** At time now the silence is within the lease, in elapsed nanoseconds, and shorter than
      2^31 seconds. */
  predicate WithinLease(life: Life, now: int) {
    var silence := if life.heard < now then now - life.heard else 0;
    silence < 0x8000_0000 * 1_000_000_000 && silence * 0x1_0000_0000 <= life.lease * 1_000_000_000
  }

  /** p is not disposed, and at every cleanup its silence is within its lease. */
  ghost predicate KeepsTalking(life: Life, more: seq<Event>, p: int) {
    forall i :: 0 <= i < |more| ==>
      && more[i] != Disposed(p)
      && (more[i].CleanupTick? ==> WithinLease(Heard(life, more[..i], p), more[i].now))
  }

  /** A known participant that is heard from within its lease is never removed: after any
      run it is still in both tables, with the time and lease it last told. */
  lemma {:induction false} HeardWithinLeaseStays(db: Db, more: seq<Event>, p: int)
    requires p in db.proxies && p in db.lifeSigns
    requires KeepsTalking(Life(db.lifeSigns[p], SaidLease(db.proxies[p])), more, p)
    ensures Tells(Run(db, more), p, Some(Heard(Life(db.lifeSigns[p], SaidLease(db.proxies[p])), more, p)))
    decreases |more|
  {
    var life := Life(db.lifeSigns[p], SaidLease(db.proxies[p]));
    if more != [] {
      var past, ev := more[..|more| - 1], more[|more| - 1];
      assert KeepsTalking(life, past, p) by {
        forall i | 0 <= i < |past| ensures past[i] == more[i] && past[..i] == more[..i] {}
      }
      HeardWithinLeaseStays(db, past, p);
      var h := Heard(life, past, p);
      StepTells(Run(db, past), ev, p, Some(h));
      if ev.CleanupTick? {
        NanosBoundTicks(Max(0, ev.now - h.heard), h.lease);
      }
    }
  }

  /** The cast of seconds to 32 bits is why the bounds end at 2^31 seconds: silence of
      just that length counts as negative, and no lease is exceeded by it. */
  lemma LongSilenceWrapsAround(db: Db, p: int, now: int)
    requires p in db.proxies && p in db.lifeSigns && now - db.lifeSigns[p] == LONGEST && SaidLease(db.proxies[p]) >= 0
    ensures Ticks(LONGEST) < 0 && !Expired(db, p, now)
  {
    assert LONGEST / NANOS_PER_SEC == 0x8000_0000 && LONGEST % NANOS_PER_SEC == 0;
  }

  function TimeOf(ev: Event): Option<int> {
    match ev
    case ParticipantSeen(_, now) => Some(now)
    case Alive(_, now) => Some(now)
    case CleanupTick(now) => Some(now)
    case _ => None
  }

  /** The clock after a run that starts at 0. */
  function Clock(h: seq<Event>): int
    decreases |h|
  {
    if h == [] then 0
    else if TimeOf(h[|h| - 1]).Some? then TimeOf(h[|h| - 1]).value
    else Clock(h[..|h| - 1])
  }

  /** The last cleanup, or the start. */
  function LastCleanup(h: seq<Event>): int
    decreases |h|
  {
    if h == [] then 0
    else if h[|h| - 1].CleanupTick? then h[|h| - 1].now
    else LastCleanup(h[..|h| - 1])
  }

  /** The clock does not run backwards, and cleanups are at most `period` apart. */
  ghost predicate Timed(h: seq<Event>, period: int)
    decreases |h|
  {
    h != [] ==>
      var past := h[..|h| - 1];
      Timed(past, period) && Clock(past) <= Clock(h) <= LastCleanup(past) + period
  }

  /** At the last cleanup nobody known was silent beyond the lease. */
  lemma {:induction false} AliveAtLastCleanup(h: seq<Event>, p: int, period: int)
    requires Timed(h, period)
    ensures 0 <= LastCleanup(h) <= Clock(h)
    ensures var life := LifeAfter(h, p);
            life.Some? ==> && 0 <= life.value.heard <= Clock(h)
                           && (life.value.heard < LastCleanup(h) ==>
                                 Ticks(LastCleanup(h) - life.value.heard) <= life.value.lease)
    decreases |h|
  {
    if h != [] {
      AliveAtLastCleanup(h[..|h| - 1], p, period);
    }
  }

  /** With cleanups at most `period` apart, a participant still known was heard from
      no longer ago than its lease plus one period (to within one clock tick). */
  lemma SilentParticipantsAreRemoved(my: Guid, h: seq<Event>, p: int, period: int, now: int)
    requires Timed(h, period) && Clock(h) <= now <= LastCleanup(h) + period && Clock(h) < LONGEST
    requires p in Run(EmptyDb(my), h).proxies
    ensures var life := LifeAfter(h, p);
            && Tells(Run(EmptyDb(my), h), p, life) && life.Some?
            && (now - life.value.heard > period ==>
                  (now - life.value.heard - period) * 0x1_0000_0000 < (life.value.lease + 1) * 1_000_000_000)
  {
    hide Run, LifeAfter, Ticks, Timed, Clock, LastCleanup, EmptyDb, SaidLease;
    KnownExactlyWhileAlive(my, h, p);
    AliveAtLastCleanup(h, p, period);
    var life := LifeAfter(h, p).value;
    if now - life.heard > period {
      TicksBoundNanos(LastCleanup(h) - life.heard, life.lease);
    }
  }

  // ----- topics over runs ---------------------------------------------------------------

  /** No cleanup in the run drops topic n. */
  ghost predicate NeverDropped(db: Db, h: seq<Event>, n: string)
    decreases |h|
  {
    h != [] ==>
    && NeverDropped(db, h[..|h| - 1], n)
    && (h[|h| - 1].TopicCleanupTick? ==> HasWritersOrReaders(Run(db, h[..|h| - 1]), n))
  }

  /** Until its topic is dropped, what a source said about a topic keeps its type, and
      a record from a topic announcement stays one. */
  lemma {:induction false} TopicRecordsPersist(db: Db, h: seq<Event>, n: string, s: Guid)
    requires NeverDropped(db, h, n)
    ensures Keeps(db.topics, Run(db, h).topics, n, s)
    decreases |h|
  {
    if h != [] {
      TopicRecordsPersist(db, h[..|h| - 1], n, s);
      var d, ev := Run(db, h[..|h| - 1]), h[|h| - 1];
      match ev
      case ReaderSeen(e) => UpdateKeeps(d.topics, e.topic, e.guid, ViaSubscription, n, s);
      case WriterSeen(e) => UpdateKeeps(d.topics, e.topic, e.guid, ViaPublication, n, s);
      case TopicSeen(t, source, via) => UpdateKeeps(d.topics, t, source, via, n, s);
      case _ =>
    }
  }

  /** Topic cleanup drops exactly the topics that no live endpoint is on, neither a local
      nor a remote one, neither a reader nor a writer. */
  lemma TopicCleanupIsExact(db: Db, n: string)
    ensures n in TopicCleanup(db).topics
            <==> n in db.topics
                 && ((exists g :: g in db.localReaders && db.localReaders[g].topic.name == n)
                     || (exists g :: g in db.localWriters && db.localWriters[g].topic.name == n)
                     || (exists g :: g in db.readers && db.readers[g].topic.name == n)
                     || (exists g :: g in db.writers && db.writers[g].topic.name == n))
    ensures n in TopicCleanup(db).topics ==> TopicCleanup(db).topics[n] == db.topics[n]
  {
    assert n in LiveTopics(db) <==> n in db.topics && HasWritersOrReaders(db, n);
  }

  /** A live endpoint's topic need not be in the table: after time-out, topic cleanup
      and rediscovery a reader is back, but its topic only if another endpoint kept it. */
  lemma RediscoveredTopicMayBeMissing(db: Db, g: Guid, t: int, data: Participant, now: int)
    requires Inv(db) && g in db.readers && Expired(db, g.prefix, t)
    requires data.guid == Guid(g.prefix, PARTICIPANT_ENTITY)
    ensures var n := db.readers[g].topic.name;
            var after := UpdateParticipant(TopicCleanup(Cleanup(db, t)), data, now);
            && g in after.readers && after.readers[g] == db.readers[g]
            && (n in after.topics <==> n in db.topics && HasWritersOrReaders(Cleanup(db, t), n))
  {
    var cleaned := Cleanup(db, t);
    TimedOutGoesToAttic(db, g.prefix, t);
    assert g in Of(db.readers, g.prefix);
    TopicCleanupIsExact(cleaned, db.readers[g].topic.name);
    SeenAgainComesFromAttic(TopicCleanup(cleaned), data, now);
    assert g in Of(cleaned.readersAttic, g.prefix);
  }

  /** No endpoint but e, whose participant has expired. */
  ghost predicate Lonely(db: Db, e: Endpoint, t: int) {
    && Inv(db) && db.readers == map[e.guid := e] && db.writers == map[] && db.localReaders == map[] && db.localWriters == map[]
    && Expired(db, e.guid.prefix, t)
  }

  /** The last endpoint on a topic comes back, and the topic does not. */
  lemma LonelyTopicIsMissing(db: Db, e: Endpoint, t: int, data: Participant, now: int)
    requires Lonely(db, e, t) && data.guid == Guid(e.guid.prefix, PARTICIPANT_ENTITY)
    ensures var after := UpdateParticipant(TopicCleanup(Cleanup(db, t)), data, now);
            e.guid in after.readers && after.readers[e.guid] == e && e.topic.name !in after.topics
  {
    RediscoveredTopicMayBeMissing(db, e.guid, t, data, now);
    NobodyIsLeft(db, e, t);
  }

  lemma NobodyIsLeft(db: Db, e: Endpoint, t: int)
    requires Lonely(db, e, t)
    ensures !HasWritersOrReaders(Cleanup(db, t), e.topic.name)
  {
    assert e.guid.prefix in ExpiredSet(db, t);
    var c := Cleanup(db, t);
    assert forall g :: g !in c.readers && g !in c.writers && g !in c.localReaders && g !in c.localWriters;
  }

  lemma NothingIsWrong(my: Guid)
    ensures Inv(EmptyDb(my))
  {
  }

  lemma OneReaderIsLonely(my: Guid, p: Participant, e: Endpoint)
    requires p == Participant(Guid(2, PARTICIPANT_ENTITY), Some(0)) && e == Endpoint(Guid(2, 7), TopicData("t", "T", 0))
    ensures Lonely(UpdateSubscription(UpdateParticipant(EmptyDb(my), p, 0), e), e, 10 * NANOS_PER_SEC)
  {
    hide Updated, Inv, TimeOut, Cleanup, TopicCleanup, DisposeParticipant, ParticipantIsAlive;
    var d0 := EmptyDb(my);
    NothingIsWrong(my);
    SeenKeepsInv(d0, p, 0);
    var d1 := UpdateParticipant(d0, p, 0);
    StepKeepsInv(d1, ReaderSeen(e));
    assert d1.readers == map[] && d1.writers == map[];
    var t := 10 * NANOS_PER_SEC;
    assert t / NANOS_PER_SEC == 10 && t % NANOS_PER_SEC == 0;
    assert Ticks(t) > 0;
  }

  /** A run that ends with a live reader whose topic is not in the table. */
  lemma RediscoveredTopicIsMissing(my: Guid, p: Participant, e: Endpoint, h: seq<Event>)
    requires p == Participant(Guid(2, PARTICIPANT_ENTITY), Some(0)) && e == Endpoint(Guid(2, 7), TopicData("t", "T", 0))
    requires h == [ParticipantSeen(p, 0), ReaderSeen(e), CleanupTick(10 * NANOS_PER_SEC), TopicCleanupTick,
                   ParticipantSeen(p, 20 * NANOS_PER_SEC)]
    ensures var db := Run(EmptyDb(my), h);
            e.guid in db.readers && db.readers[e.guid] == e && "t" !in db.topics
  {
    hide UpdateParticipant, UpdateSubscription, Cleanup, TopicCleanup, Lonely, Run;
    OneReaderIsLonely(my, p, e);
    var db := UpdateSubscription(UpdateParticipant(EmptyDb(my), p, 0), e);
    LonelyTopicIsMissing(db, e, 10 * NANOS_PER_SEC, p, 20 * NANOS_PER_SEC);
    FiveSteps(EmptyDb(my), h);
  }

  lemma FiveSteps(db: Db, h: seq<Event>)
    requires |h| == 5
    ensures Run(db, h) == Step(Step(Step(Step(Step(db, h[0]), h[1]), h[2]), h[3]), h[4])
  {
    hide Step;
    assert h[..4][..3] == h[..3] && h[..3][..2] == h[..2] && h[..2][..1] == h[..1] && h[..1][..0] == [];
    assert Run(db, h[..1]) == Step(db, h[0]);
    assert Run(db, h[..2]) == Step(Run(db, h[..1]), h[1]);
    assert Run(db, h[..3]) == Step(Run(db, h[..2]), h[2]);
    assert Run(db, h[..4]) == Step(Run(db, h[..3]), h[3]);
  }
}
