/** The discovery database as the source keeps it: maps changed in place, entry by
    entry, proved against the operations on values. */
module DiscoveryStore {
  import opened Basics
  import opened Topics
  import opened DiscoveryDbs
  import D = DiscoveryDbs

  lemma TimeOutOneMore(db: Db, ps: set<int>, p: int)
    ensures TimeOut(TimeOut(db, ps), {p}) == TimeOut(db, ps + {p})
  {
    MoveOneMore(db.readers, db.readersAttic, ps, p);
    MoveOneMore(db.writers, db.writersAttic, ps, p);
    assert db.proxies - ps - {p} == db.proxies - (ps + {p});
    assert db.lifeSigns - ps - {p} == db.lifeSigns - (ps + {p});
  }

  lemma MoveOneMore(from: Endpoints, to: Endpoints, ps: set<int>, p: int)
    ensures Without(Without(from, ps), {p}) == Without(from, ps + {p})
    ensures to + Within(from, ps) + Within(Without(from, ps), {p}) == to + Within(from, ps + {p})
  {
  }

  lemma NobodyTimesOut(db: Db)
    ensures TimeOut(db, {}) == db
  {
    assert Without(db.readers, {}) == db.readers;
    assert Without(db.writers, {}) == db.writers;
    assert db.readersAttic + Within(db.readers, {}) == db.readersAttic;
    assert db.writersAttic + Within(db.writers, {}) == db.writersAttic;
  }

  /** Moves all entries with a GUID prefix from one map to another, one at a time. */
  method MoveByGuidPrefix(p: int, from: Endpoints, to: Endpoints) returns (from': Endpoints, to': Endpoints)
    ensures from' == Without(from, {p})
    ensures to' == to + Within(from, {p})
  {
    from', to' := from, to;
    var toMove := set g | g in from && g.prefix == p;
    while toMove != {}
      invariant forall g :: g in toMove ==> g in from' && g.prefix == p
      invariant forall g :: g in from' <==> g in from && (g.prefix != p || g in toMove)
      invariant forall g :: g in from' ==> from'[g] == from[g]
      invariant forall g :: g in to' <==> g in to || (g in from && g.prefix == p && g !in toMove)
      invariant forall g :: g in to' ==>
        to'[g] == if g in from && g.prefix == p && g !in toMove then from[g] else to[g]
      decreases toMove
    {
      var g :| g in toMove;
      to' := to'[g := from'[g]];
      from' := from' - {g};
      toMove := toMove - {g};
    }
    assert from' == Without(from, {p});
    assert to' == to + Within(from, {p});
  }

  /** Removes all entries with a GUID prefix, one at a time. */
  method RemoveByGuidPrefix(p: int, from: Endpoints) returns (from': Endpoints)
    ensures from' == Without(from, {p})
  {
    from' := from;
    var toRemove := set g | g in from && g.prefix == p;
    while toRemove != {}
      invariant forall g :: g in from' <==> g in from && (g.prefix != p || g in toRemove)
      invariant forall g :: g in from' ==> from'[g] == from[g]
      decreases toRemove
    {
      var g :| g in toRemove;
      from' := from' - {g};
      toRemove := toRemove - {g};
    }
    assert from' == Without(from, {p});
  }

  /** Why and when a participant was given up. */
  datatype Lost = Lost(prefix: int, lease: int, elapsed: int)

  ghost predicate Lists(lost: seq<Lost>, p: int) { exists l :: l in lost && l.prefix == p }

  /** Known, and silent for longer than the lease its data names. */
  ghost predicate Overdue(db: Db, p: int, now: int) {
    && p in db.proxies && p in db.lifeSigns
    && Ticks(Max(0, now - db.lifeSigns[p])) > SaidLease(db.proxies[p])
  }

  /** The entry for p, if p is to be reported. */
  ghost function Verdict(db: Db, p: int, now: int): Option<Lost> {
    if Overdue(db, p, now)
    then Some(Lost(p, SaidLease(db.proxies[p]), Ticks(Max(0, now - db.lifeSigns[p]))))
    else None
  }

  /** The report names exactly the expired participants, in order, each once and with
      its lease and the time since it was last heard. */
  ghost predicate Reports(lost: seq<Lost>, db: Db, now: int) {
    && (forall i, j :: 0 <= i < j < |lost| ==> lost[i].prefix < lost[j].prefix)
    && (forall p :: Lists(lost, p) <==> Overdue(db, p, now))
    && (forall l :: l in lost ==> Verdict(db, l.prefix, now) == Some(l))
  }

  /** The entries that f gives for the keys, in the order of the keys. */
  ghost function Collected(f: int -> Option<Lost>, keys: seq<int>): seq<Lost> {
    if keys == [] then []
    else
      var last := f(keys[|keys| - 1]);
      Collected(f, keys[..|keys| - 1]) + if last.Some? then [last.value] else []
  }

  lemma {:induction false} CollectedExactly(f: int -> Option<Lost>, keys: seq<int>)
    requires StrictlyAscending(keys)
    requires forall p :: f(p).Some? ==> f(p).value.prefix == p
    ensures var lost := Collected(f, keys);
            && (forall i, j :: 0 <= i < j < |lost| ==> lost[i].prefix < lost[j].prefix)
            && (forall l :: l in lost ==> l.prefix in keys && f(l.prefix) == Some(l))
            && (forall p :: p in keys && f(p).Some? ==> f(p).value in lost)
  {
    if keys != [] {
      var past, p := keys[..|keys| - 1], keys[|keys| - 1];
      CollectedExactly(f, past);
      assert keys == past + [p];
      var lost := Collected(f, past);
      forall i | 0 <= i < |lost| ensures lost[i].prefix < p {
        assert lost[i] in lost;
      }
    }
  }

  ghost function CollectedFrom(db: Db, keys: seq<int>, now: int): seq<Lost> {
    Collected(p => Verdict(db, p, now), keys)
  }

  lemma CollectedSnoc(db: Db, keys: seq<int>, k: nat, now: int)
    requires k < |keys|
    ensures CollectedFrom(db, keys[..k + 1], now)
            == CollectedFrom(db, keys[..k], now)
               + var v := Verdict(db, keys[k], now); if v.Some? then [v.value] else []
  {
    var q := keys[..k + 1];
    assert q[..|q| - 1] == keys[..k] && q[|q| - 1] == keys[k];
  }

  lemma CollectedReports(db: Db, now: int, keys: seq<int>)
    requires StrictlyAscending(keys) && forall p :: p in keys <==> p in db.proxies
    ensures Reports(CollectedFrom(db, keys, now), db, now)
  {
    var f := (p: int) => Verdict(db, p, now);
    CollectedExactly(f, keys);
    var lost := Collected(f, keys);
    forall p ensures Lists(lost, p) <==> Expired(db, p, now) {
      if Expired(db, p, now) {
        assert f(p).value in lost;
      }
    }
  }

  /** Walks the sources in order and remembers the latest that disagrees. */
  method LastDisagreement(m: map<Guid, Record>, d: TopicData) returns (last: Option<Guid>)
    ensures last.None? ==> forall s :: s in m ==> !Inconsistent(m[s].data, d)
    ensures last.Some? ==> LastToDisagree(m, d, last.value)
  {
    last := None;
    var rest := m.Keys;
    while rest != {}
      invariant forall s :: s in rest ==> s in m
      invariant forall x, y :: x in m && x !in rest && y in rest ==> !Below(y, x)
      invariant last.None? ==> forall s :: s in m && s !in rest ==> !Inconsistent(m[s].data, d)
      invariant last.Some? ==>
        && last.value in m && last.value !in rest && Inconsistent(m[last.value].data, d)
        && forall x :: x in m && x !in rest && Inconsistent(m[x].data, d) ==> !Below(last.value, x)
      decreases rest
    {
      ghost var any :| any in rest;
      ghost var low := LowestExists(rest, any);
      var s :| s in rest && forall x :: x in rest ==> !Below(x, s);
      if Inconsistent(m[s].data, d) {
        last := Some(s);
      }
      rest := rest - {s};
    }
  }

  class DiscoveryDB {
    const myGuid: Guid
    var proxies: map<int, Participant>
    var lifeSigns: map<int, int>
    var localReaders: Endpoints
    var localWriters: Endpoints
    var readers: Endpoints
    var writers: Endpoints
    var readersAttic: Endpoints
    var writersAttic: Endpoints
    var topics: Table

    ghost function View(): Db
      reads this
    {
      Db(myGuid, proxies, lifeSigns, localReaders, localWriters, readers, writers, readersAttic, writersAttic, topics)
    }

    constructor (myGuid: Guid)
      ensures View() == EmptyDb(myGuid) && Inv(View())
    {
      this.myGuid := myGuid;
      proxies, lifeSigns := map[], map[];
      localReaders, localWriters, readers, writers := map[], map[], map[], map[];
      readersAttic, writersAttic, topics := map[], map[], map[];
    }

    /** True if the participant was not known before, unless it is this one. */
    method UpdateParticipant(data: Participant, now: int) returns (isNew: bool)
      modifies this
      ensures View() == D.UpdateParticipant(old(View()), data, now)
      ensures isNew <==> data.guid.entity == PARTICIPANT_ENTITY
                         && data.guid.prefix !in old(proxies) && data.guid != myGuid
    {
      hide Without, Within;
      if data.guid.entity != PARTICIPANT_ENTITY {
        return false;
      }
      isNew := false;
      if data.guid.prefix !in proxies {
        isNew := data.guid != myGuid;
        readersAttic, readers := MoveByGuidPrefix(data.guid.prefix, readersAttic, readers);
        writersAttic, writers := MoveByGuidPrefix(data.guid.prefix, writersAttic, writers);
      }
      proxies := proxies[data.guid.prefix := data];
      lifeSigns := lifeSigns[data.guid.prefix := now];
    }

    method ParticipantIsAlive(p: int, now: int)
      modifies this`lifeSigns
      ensures View() == D.ParticipantIsAlive(old(View()), p, now)
    {
      if p in lifeSigns {
        lifeSigns := lifeSigns[p := now];
      }
    }

    method RemoveParticipant(p: int, activeDisposal: bool)
      modifies this
      ensures View() == if activeDisposal then DisposeParticipant(old(View()), p) else TimeOut(old(View()), {p})
    {
      hide Without, Within;
      proxies := proxies - {p};
      lifeSigns := lifeSigns - {p};
      if activeDisposal {
        readers := RemoveByGuidPrefix(p, readers);
        writers := RemoveByGuidPrefix(p, writers);
      } else {
        readers, readersAttic := MoveByGuidPrefix(p, readers, readersAttic);
        writers, writersAttic := MoveByGuidPrefix(p, writers, writersAttic);
      }
    }

    method Judge(p: int, now: int) returns (r: Option<Lost>)
      requires p in proxies
      ensures r == Verdict(View(), p, now)
    {
      r := None;
      if p in lifeSigns {
        var elapsed := Ticks(Max(0, now - lifeSigns[p]));
        if elapsed > LeaseOf(proxies[p]) {
          r := Some(Lost(p, LeaseOf(proxies[p]), elapsed));
        }
      }
    }

    /** The participants that are silent beyond their lease, lowest prefix first. */
    method FindExpired(now: int) returns (lost: seq<Lost>)
      ensures Reports(lost, View(), now)
    {
      var keys := Ascending(proxies.Keys);
      lost := JudgeAll(keys, now);
      CollectedReports(View(), now, keys);
    }

    method JudgeAll(keys: seq<int>, now: int) returns (lost: seq<Lost>)
      requires forall p :: p in keys ==> p in proxies
      ensures lost == CollectedFrom(View(), keys, now)
    {
      lost := [];
      for k := 0 to |keys|
        invariant lost == CollectedFrom(View(), keys[..k], now)
      {
        var verdict := Judge(keys[k], now);
        CollectedSnoc(View(), keys, k, now);
        if verdict.Some? {
          lost := lost + [verdict.value];
        }
      }
      assert keys[..|keys|] == keys;
    }

    /** Gives up exactly the participants that are silent beyond their lease, and
        reports exactly those. */
    method ParticipantCleanup(now: int) returns (lost: seq<Lost>)
      modifies this
      ensures View() == Cleanup(old(View()), now)
      ensures Reports(lost, old(View()), now)
    {
      lost := FindExpired(now);
      ghost var was := View();
      ghost var done: set<int> := {};
      NobodyTimesOut(was);
      for i := 0 to |lost|
        invariant View() == TimeOut(was, done)
        invariant forall p :: p in done <==> Lists(lost[..i], p)
      {
        TimeOutOneMore(was, done, lost[i].prefix);
        RemoveParticipant(lost[i].prefix, false);
        done := done + {lost[i].prefix};
        assert lost[..i + 1] == lost[..i] + [lost[i]];
        assert forall p :: Lists(lost[..i + 1], p) <==> Lists(lost[..i], p) || p == lost[i].prefix;
      }
      assert lost[..|lost|] == lost;
      SameTimeOut(was, done, ExpiredSet(was, now));
    }

    method TopicCleanup()
      modifies this`topics
      ensures View() == D.TopicCleanup(old(View()))
    {
      var live := LiveTopics(Db(myGuid, proxies, lifeSigns, localReaders, localWriters, readers, writers,
                                readersAttic, writersAttic, topics));
      ghost var was := topics;
      var dead := set n | n in topics && n !in live;
      while dead != {}
        invariant forall n :: n in topics <==> n in was && (n in live || n in dead)
        invariant forall n :: n in topics ==> topics[n] == was[n]
        decreases dead
      {
        var n :| n in dead;
        topics := topics - {n};
        dead := dead - {n};
      }
      assert topics == Cleaned(was, live);
    }

    method UpdateTopicData(d: TopicData, source: Guid, via: Via) returns (events: seq<StatusEvent>, notify: bool)
      modifies this`topics
      ensures topics == Updated(old(topics), d, source, via)
      ensures Raises(old(topics), d, source, events)
      ensures notify <==> Notifies(old(topics), d, source, via)
    {
      events, notify := [], false;
      if d.name !in topics {
        topics := topics[d.name := map[source := Record(via, d)]];
        events := [TopicDetected(d.name, d.typeName)];
        return;
      }
      var m := topics[d.name];
      if source in m {
        if !Inconsistent(d, m[source].data) {
          if via == ViaTopic {
            topics := topics[d.name := m[source := Record(via, d)]];
            notify := true;
          }
        } else {
          events := [InconsistentTopic(m[source].data, source, d, source)];
        }
      } else {
        var last := LastDisagreement(m, d);
        if last.Some? {
          events := [InconsistentTopic(m[last.value].data, last.value, d, source)];
        }
        topics := topics[d.name := m[source := Record(via, d)]];
        notify := true;
      }
    }

    method UpdateSubscription(e: Endpoint) returns (events: seq<StatusEvent>, notify: bool)
      modifies this
      ensures View() == D.UpdateSubscription(old(View()), e)
      ensures Raises(old(topics), e.topic, e.guid, events)
      ensures notify <==> Notifies(old(topics), e.topic, e.guid, ViaSubscription)
    {
      readers := readers[e.guid := e];
      events, notify := UpdateTopicData(e.topic, e.guid, ViaSubscription);
    }

    method UpdatePublication(e: Endpoint) returns (events: seq<StatusEvent>, notify: bool)
      modifies this
      ensures View() == D.UpdatePublication(old(View()), e)
      ensures Raises(old(topics), e.topic, e.guid, events)
      ensures notify <==> Notifies(old(topics), e.topic, e.guid, ViaPublication)
    {
      writers := writers[e.guid := e];
      events, notify := UpdateTopicData(e.topic, e.guid, ViaPublication);
    }
  }

  lemma SameTimeOut(db: Db, a: set<int>, b: set<int>)
    requires forall p :: p in a <==> p in b
    ensures TimeOut(db, a) == TimeOut(db, b)
  {
    SetsAgree(a, b);
  }
}
