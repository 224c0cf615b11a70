/** Where the database keeps a remote endpoint, told by the events that concern it. */
module EndpointHistory {
  import opened Basics
  import opened Topics
  import opened DiscoveryDbs

  /** What is known of one endpoint: live, and set aside while its participant is away. */
  datatype Track = Track(live: Option<Endpoint>, aside: Option<Endpoint>)

  /** The endpoint's participant is given up by a cleanup. */
  predicate GivenUp(life: Option<Life>, ev: Event, p: int) { ev.CleanupTick? && life.Some? && LifeStep(life, ev, p).None? }

  /** The participant announces itself while it is unknown. */
  predicate Returns(life: Option<Life>, ev: Event, p: int) {
    ev.ParticipantSeen? && ev.data.guid == Guid(p, 0x1c1) && life.None?
  }

  /** What any endpoint goes through with its participant. */
  function WithParticipant(t: Track, life: Option<Life>, ev: Event, p: int): Track {
    if ev == Disposed(p) then t.(live := None)
    else if GivenUp(life, ev, p) then Track(None, if t.live.Some? then t.live else t.aside)
    else if Returns(life, ev, p) then Track(if t.aside.Some? then t.aside else t.live, None)
    else t
  }

  /** A reader by its own events: announced, disposed, or with its participant. */
  function ReaderTrack(h: seq<Event>, g: Guid): Track
    decreases |h|
  {
    if h == [] then Track(None, None)
    else
      var past, ev := h[..|h| - 1], h[|h| - 1];
      var t := ReaderTrack(past, g);
      if ev.ReaderSeen? && ev.e.guid == g then t.(live := Some(ev.e))
      else if ev == ReaderDisposed(g) then t.(live := None)
      else WithParticipant(t, LifeAfter(past, g.prefix), ev, g.prefix)
  }

  /** A writer likewise. */
  function WriterTrack(h: seq<Event>, g: Guid): Track
    decreases |h|
  {
    if h == [] then Track(None, None)
    else
      var past, ev := h[..|h| - 1], h[|h| - 1];
      var t := WriterTrack(past, g);
      if ev.WriterSeen? && ev.e.guid == g then t.(live := Some(ev.e))
      else if ev == WriterDisposed(g) then t.(live := None)
      else WithParticipant(t, LifeAfter(past, g.prefix), ev, g.prefix)
  }

  predicate Shows(m: Endpoints, g: Guid, o: Option<Endpoint>) {
    (g in m <==> o.Some?) && (g in m ==> m[g] == o.value)
  }

  predicate Places(live: Endpoints, attic: Endpoints, g: Guid, t: Track) { Shows(live, g, t.live) && Shows(attic, g, t.aside) }

  // ----- one event ----------------------------------------------------------------------

  lemma MovedToAttic(live: Endpoints, attic: Endpoints, ps: set<int>, g: Guid, t: Track)
    requires Places(live, attic, g, t)
    ensures Places(Without(live, ps), attic + Within(live, ps), g,
                   if g.prefix in ps then Track(None, if t.live.Some? then t.live else t.aside) else t)
  {
  }

  lemma MovedBack(live: Endpoints, attic: Endpoints, p: int, g: Guid, t: Track)
    requires Places(live, attic, g, t)
    ensures Places(live + Within(attic, {p}), Without(attic, {p}), g,
                   if g.prefix == p then Track(if t.aside.Some? then t.aside else t.live, None) else t)
  {
  }

  lemma Removed(live: Endpoints, attic: Endpoints, p: int, g: Guid, t: Track)
    requires Places(live, attic, g, t)
    ensures Places(Without(live, {p}), attic, g, if g.prefix == p then t.(live := None) else t)
  {
  }

  /** Both kinds of endpoint in one database. */
  predicate Agree(db: Db, g: Guid, r: Track, w: Track) {
    Places(db.readers, db.readersAttic, g, r) && Places(db.writers, db.writersAttic, g, w)
  }

  lemma CleanupPlaces(db: Db, now: int, g: Guid, life: Option<Life>, r: Track, w: Track)
    requires Tells(db, g.prefix, life) && Agree(db, g, r, w)
    ensures var ev := CleanupTick(now);
            Agree(Cleanup(db, now), g, WithParticipant(r, life, ev, g.prefix), WithParticipant(w, life, ev, g.prefix))
  {
    hide Ticks, Places, Without, Within;
    var ps := ExpiredSet(db, now);
    assert g.prefix in ps <==> GivenUp(life, CleanupTick(now), g.prefix);
    MovedToAttic(db.readers, db.readersAttic, ps, g, r);
    MovedToAttic(db.writers, db.writersAttic, ps, g, w);
  }

  lemma SeenPlaces(db: Db, data: Participant, now: int, g: Guid, life: Option<Life>, r: Track, w: Track)
    requires Tells(db, g.prefix, life) && Agree(db, g, r, w)
    ensures var ev := ParticipantSeen(data, now);
            Agree(UpdateParticipant(db, data, now), g, WithParticipant(r, life, ev, g.prefix), WithParticipant(w, life, ev, g.prefix))
  {
    hide Ticks, Places, Without, Within;
    MovedBack(db.readers, db.readersAttic, data.guid.prefix, g, r);
    MovedBack(db.writers, db.writersAttic, data.guid.prefix, g, w);
  }

  lemma DisposedPlaces(db: Db, p: int, g: Guid, life: Option<Life>, r: Track, w: Track)
    requires Agree(db, g, r, w)
    ensures var ev := Disposed(p);
            Agree(DisposeParticipant(db, p), g, WithParticipant(r, life, ev, g.prefix), WithParticipant(w, life, ev, g.prefix))
  {
    hide Ticks, Places, Without;
    Removed(db.readers, db.readersAttic, p, g, r);
    Removed(db.writers, db.writersAttic, p, g, w);
  }

  /** The events about participants. */
  predicate OfParticipants(ev: Event) { ev.ParticipantSeen? || ev.Alive? || ev.Disposed? || ev.CleanupTick? }

  lemma OtherEventsPlace(db: Db, ev: Event, g: Guid, r: Track, w: Track)
    requires Agree(db, g, r, w) && !OfParticipants(ev)
    ensures Agree(Step(db, ev), g,
                  if ev.ReaderSeen? && ev.e.guid == g then r.(live := Some(ev.e))
                  else if ev == ReaderDisposed(g) then r.(live := None) else r,
                  if ev.WriterSeen? && ev.e.guid == g then w.(live := Some(ev.e))
                  else if ev == WriterDisposed(g) then w.(live := None) else w)
  {
    assert Step(db, ev) == EndpointStep(db, ev);
  }

  lemma ParticipantEventsPlace(db: Db, ev: Event, g: Guid, life: Option<Life>, r: Track, w: Track)
    requires Tells(db, g.prefix, life) && Agree(db, g, r, w) && OfParticipants(ev)
    ensures Agree(Step(db, ev), g, WithParticipant(r, life, ev, g.prefix), WithParticipant(w, life, ev, g.prefix))
  {
    hide Cleanup, UpdateParticipant, DisposeParticipant, Ticks, Places;
    match ev
    case ParticipantSeen(data, now) => SeenPlaces(db, data, now, g, life, r, w);
    case Disposed(p) => DisposedPlaces(db, p, g, life, r, w);
    case CleanupTick(now) => CleanupPlaces(db, now, g, life, r, w);
    case Alive(p, now) =>
  }

  // ----- over runs ---------------------------------------------------------------------------

  /** In every run each remote reader and writer is live, and set aside, exactly as the
      events that concern it say, and with the data it last announced. */
  lemma {:induction false} EndpointsByTheirEvents(my: Guid, h: seq<Event>, g: Guid)
    ensures var db, r, w := Run(EmptyDb(my), h), ReaderTrack(h, g), WriterTrack(h, g);
            && Shows(db.readers, g, r.live) && Shows(db.readersAttic, g, r.aside)
            && Shows(db.writers, g, w.live) && Shows(db.writersAttic, g, w.aside)
    decreases |h|
  {
    hide Step, LifeStep, Shows, Tells;
    if h == [] {
      NothingShown(my, g);
    } else {
      var past, ev := h[..|h| - 1], h[|h| - 1];
      var db, r, w := Run(EmptyDb(my), past), ReaderTrack(past, g), WriterTrack(past, g);
      EndpointsByTheirEvents(my, past, g);
      KnownExactlyWhileAlive(my, past, g.prefix);
      if OfParticipants(ev) {
        ParticipantEventsPlace(db, ev, g, LifeAfter(past, g.prefix), r, w);
      } else {
        OtherEventsPlace(db, ev, g, r, w);
      }
    }
  }

  lemma NothingShown(my: Guid, g: Guid)
    ensures Agree(EmptyDb(my), g, Track(None, None), Track(None, None))
  {
  }

  /** A local endpoint is there from its last announcement until it is withdrawn. */
  function LocalStep(o: Option<Endpoint>, ev: Event, g: Guid, reader: bool): Option<Endpoint> {
    match ev
    case LocalReader(e) => if reader && e.guid == g then Some(e) else o
    case LocalWriter(e) => if !reader && e.guid == g then Some(e) else o
    case LocalReaderGone(gone) => if reader && gone == g then None else o
    case LocalWriterGone(gone) => if !reader && gone == g then None else o
    case _ => o
  }

  function LocalTrack(h: seq<Event>, g: Guid, reader: bool): Option<Endpoint>
    decreases |h|
  {
    if h == [] then None else LocalStep(LocalTrack(h[..|h| - 1], g, reader), h[|h| - 1], g, reader)
  }

  predicate OfLocals(ev: Event) { ev.LocalReader? || ev.LocalWriter? || ev.LocalReaderGone? || ev.LocalWriterGone? }

  lemma OthersKeepLocals(db: Db, ev: Event)
    requires !OfLocals(ev)
    ensures Step(db, ev).localReaders == db.localReaders && Step(db, ev).localWriters == db.localWriters
  {
    hide Updated, Cleanup, FromAttic, TopicCleanup;
    match ev
    case CleanupTick(now) => CleanupKeepsLocals(db, now);
    case ParticipantSeen(data, now) => AtticKeepsLocals(db, data.guid.prefix);
    case TopicCleanupTick => TopicCleanupKeepsLocals(db);
    case _ =>
  }

  lemma StepKeepsLocals(db: Db, ev: Event, g: Guid, r: Option<Endpoint>, w: Option<Endpoint>)
    requires Shows(db.localReaders, g, r) && Shows(db.localWriters, g, w)
    ensures Shows(Step(db, ev).localReaders, g, LocalStep(r, ev, g, true))
    ensures Shows(Step(db, ev).localWriters, g, LocalStep(w, ev, g, false))
  {
    hide Updated, Cleanup, UpdateParticipant, DisposeParticipant, ParticipantIsAlive, TopicCleanup, UpdateSubscription, UpdatePublication;
    if !OfLocals(ev) {
      OthersKeepLocals(db, ev);
    }
  }

  lemma CleanupKeepsLocals(db: Db, now: int)
    ensures Cleanup(db, now).localReaders == db.localReaders && Cleanup(db, now).localWriters == db.localWriters
  {
  }

  lemma AtticKeepsLocals(db: Db, p: int)
    ensures FromAttic(db, p).localReaders == db.localReaders && FromAttic(db, p).localWriters == db.localWriters
  {
  }

  lemma TopicCleanupKeepsLocals(db: Db)
    ensures TopicCleanup(db).localReaders == db.localReaders && TopicCleanup(db).localWriters == db.localWriters
  {
  }

  /** In every run each local reader and writer is there exactly as its own events say. */
  lemma {:induction false} LocalsByTheirEvents(my: Guid, h: seq<Event>, g: Guid)
    ensures var db := Run(EmptyDb(my), h);
            Shows(db.localReaders, g, LocalTrack(h, g, true)) && Shows(db.localWriters, g, LocalTrack(h, g, false))
    decreases |h|
  {
    hide Step, LocalStep, Shows;
    if h == [] {
      NoLocals(my, g);
    } else {
      var past := h[..|h| - 1];
      LocalsByTheirEvents(my, past, g);
      StepKeepsLocals(Run(EmptyDb(my), past), h[|h| - 1], g, LocalTrack(past, g, true), LocalTrack(past, g, false));
    }
  }

  lemma NoLocals(my: Guid, g: Guid)
    ensures Shows(EmptyDb(my).localReaders, g, None) && Shows(EmptyDb(my).localWriters, g, None)
  {
  }

  // ----- topics ---------------------------------------------------------------------------------

  datatype Announcement = Announcement(data: TopicData, source: Guid, via: Via)

  /** What an event says about a topic. */
  function Announced(ev: Event): Option<Announcement> {
    match ev
    case ReaderSeen(e) => Some(Announcement(e.topic, e.guid, ViaSubscription))
    case WriterSeen(e) => Some(Announcement(e.topic, e.guid, ViaPublication))
    case TopicSeen(t, source, via) => Some(Announcement(t, source, via))
    case _ => None
  }

  predicate OnRecord(t: Table, n: string, s: Guid) { n in t && s in t[n] }

  /** The records after every event: an announcement adds its source and, if it is a Topic
      announcement of the same type, renews it; a topic cleanup keeps those that some
      endpoint is on; no other event changes them. */
  lemma TopicsExactly(db: Db, ev: Event, n: string, s: Guid)
    ensures var u := Step(db, ev).topics;
            match Announced(ev)
            case Some(a) =>
              && (OnRecord(u, n, s) <==> OnRecord(db.topics, n, s) || (n == a.data.name && s == a.source))
              && (OnRecord(u, n, s) ==>
                    u[n][s] == if n == a.data.name && s == a.source
                                  && (OnRecord(db.topics, n, s) ==> db.topics[n][s].data.typeName == a.data.typeName && a.via == ViaTopic)
                               then Record(a.via, a.data) else db.topics[n][s])
            case None =>
              if ev.TopicCleanupTick? then
                && (n in u <==> n in db.topics && HasWritersOrReaders(db, n)) && (n in u ==> u[n] == db.topics[n])
              else u == db.topics
  {
    hide Step, Updated, HasWritersOrReaders, Cleaned;
    if Announced(ev).Some? {
      var a := Announced(ev).value;
      AnnouncementUpdates(db, ev);
      RecordsExactly(db.topics, a.data, a.source, a.via, n, s);
    } else if ev.TopicCleanupTick? {
      KeptIffLive(db, n);
    } else {
      OthersKeepTopics(db, ev);
    }
  }

  lemma AnnouncementUpdates(db: Db, ev: Event)
    requires Announced(ev).Some?
    ensures var a := Announced(ev).value; Step(db, ev).topics == Updated(db.topics, a.data, a.source, a.via)
  {
    hide Updated;
  }

  lemma OthersKeepTopics(db: Db, ev: Event)
    requires Announced(ev).None? && !ev.TopicCleanupTick?
    ensures Step(db, ev).topics == db.topics
  {
    hide Cleanup, FromAttic, Without, Within;
    match ev
    case CleanupTick(now) => CleanupKeepsTopics(db, now);
    case ParticipantSeen(data, now) => AtticKeepsTopics(db, data.guid.prefix);
    case _ =>
  }

  lemma AtticKeepsTopics(db: Db, p: int)
    ensures FromAttic(db, p).topics == db.topics
  {
  }

  lemma KeptIffLive(db: Db, n: string)
    ensures var u := Step(db, TopicCleanupTick).topics;
            (n in u <==> n in db.topics && HasWritersOrReaders(db, n)) && (n in u ==> u[n] == db.topics[n])
  {
    hide TopicCleanup;
    TopicCleanupIsExact(db, n);
  }

  lemma CleanupKeepsTopics(db: Db, now: int)
    ensures Cleanup(db, now).topics == db.topics
  {
  }
}
