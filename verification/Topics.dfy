/** The table of topics: what each source has said about each topic name. */
module Topics {
  import opened Basics

  /** A GUID: the participant's prefix and the entity inside it. */
  datatype Guid = Guid(prefix: int, entity: int)

  /** How a topic was discovered. */
  datatype Via = ViaTopic | ViaPublication | ViaSubscription | SelfDefined

  datatype TopicData = TopicData(name: string, typeName: string, qos: int)

  datatype Record = Record(via: Via, data: TopicData)

  type Table = map<string, map<Guid, Record>>

  datatype StatusEvent =
    | TopicDetected(name: string, typeName: string)
    | InconsistentTopic(previous: TopicData, previousSource: Guid, discovered: TopicData, source: Guid)

  predicate Inconsistent(a: TopicData, b: TopicData) { a.typeName != b.typeName }

  /** The table after one announcement. */
  function Updated(t: Table, d: TopicData, source: Guid, via: Via): Table {
    if d.name !in t then t[d.name := map[source := Record(via, d)]]
    else
      var m := t[d.name];
      if source in m && (Inconsistent(d, m[source].data) || via != ViaTopic) then t
      else t[d.name := m[source := Record(via, d)]]
  }

  /** GUIDs are ordered by prefix, then entity. */
  predicate Below(a: Guid, b: Guid) { a.prefix < b.prefix || (a.prefix == b.prefix && a.entity < b.entity) }

  lemma {:induction false} LowestExists(s: set<Guid>, g: Guid) returns (low: Guid)
    requires g in s
    ensures low in s && forall x :: x in s ==> !Below(x, low)
    decreases s
  {
    var below := set x | x in s && Below(x, g);
    if below == {} {
      low := g;
      assert forall x :: x in s && Below(x, g) ==> x in below;
    } else {
      var y :| y in below;
      assert g !in below;
      low := LowestExists(below, y);
      forall x | x in s ensures !Below(x, low) {
        assert Below(x, g) ==> x in below;
      }
    }
  }

  /** s has announced the topic under another type, and of such sources it is the last. */
  ghost predicate LastToDisagree(m: map<Guid, Record>, d: TopicData, s: Guid) {
    && s in m && Inconsistent(m[s].data, d)
    && forall x :: x in m && Inconsistent(m[x].data, d) ==> !Below(s, x)
  }

  /** What an announcement raises: a new topic, or one disagreement, with the source's own
      earlier record if there is one and otherwise with the last that disagrees. */
  ghost predicate Raises(t: Table, d: TopicData, source: Guid, events: seq<StatusEvent>) {
    if d.name !in t then events == [TopicDetected(d.name, d.typeName)]
    else
      var m := t[d.name];
      if source in m then
        events == if Inconsistent(d, m[source].data) then [InconsistentTopic(m[source].data, source, d, source)] else []
      else if events == [] then forall s :: s in m ==> !Inconsistent(m[s].data, d)
      else exists s :: LastToDisagree(m, d, s) && events == [InconsistentTopic(m[s].data, s, d, source)]
  }

  /** The event for the disagreement of d with the record of s. */
  predicate Contrasts(m: map<Guid, Record>, d: TopicData, source: Guid, ev: StatusEvent) {
    && ev.InconsistentTopic? && ev.discovered == d && ev.source == source
    && ev.previousSource in m && ev.previous == m[ev.previousSource].data && ev.previous.typeName != d.typeName
  }

  /** An announcement raises at most one event: the new topic exactly if its name was not
      known; a disagreement exactly if the source's own record, or if it has none any
      other's, is of another type, and then with its own, or the last by GUID. */
  lemma EventsExactly(t: Table, d: TopicData, source: Guid, events: seq<StatusEvent>)
    requires Raises(t, d, source, events)
    ensures |events| <= 1
    ensures d.name !in t <==> events == [TopicDetected(d.name, d.typeName)]
    ensures d.name in t ==>
              && (events != [] <==> if source in t[d.name] then t[d.name][source].data.typeName != d.typeName
                                    else exists s :: s in t[d.name] && t[d.name][s].data.typeName != d.typeName)
              && (events != [] ==>
                    && Contrasts(t[d.name], d, source, events[0])
                    && (source in t[d.name] ==> events[0].previousSource == source)
                    && (source !in t[d.name] ==>
                          forall s :: s in t[d.name] && t[d.name][s].data.typeName != d.typeName ==>
                                        var last := events[0].previousSource;
                                        s.prefix < last.prefix || (s.prefix == last.prefix && s.entity <= last.entity)))
  {
    if d.name in t && source !in t[d.name] && events != [] {
      var m := t[d.name];
      var s :| LastToDisagree(m, d, s) && events == [InconsistentTopic(m[s].data, s, d, source)];
    }
  }

  /** The record of every source on every topic after an announcement: a further source is
      recorded; a known one only by a Topic announcement of the same type; nothing else
      changes. */
  lemma RecordsExactly(t: Table, d: TopicData, source: Guid, via: Via, n: string, s: Guid)
    ensures var u := Updated(t, d, source, via);
            && (n in u && s in u[n] <==> (n in t && s in t[n]) || (n == d.name && s == source))
            && (n in u && s in u[n] ==>
                  u[n][s] == if n == d.name && s == source
                                && (n in t && s in t[n] ==> t[n][s].data.typeName == d.typeName && via == ViaTopic)
                             then Record(via, d) else t[n][s])
  {
  }

  /** Those waiting for a topic are notified of a further source, and of a Topic
      announcement that agrees with the source's earlier record. */
  predicate Notifies(t: Table, d: TopicData, source: Guid, via: Via) {
    d.name in t && (source in t[d.name] ==> !Inconsistent(d, t[d.name][source].data) && via == ViaTopic)
  }

  /** Notified exactly when an already known topic's records were written. */
  lemma NotifiesOnChange(t: Table, d: TopicData, source: Guid, via: Via)
    ensures Notifies(t, d, source, via) ==>
              && source in Updated(t, d, source, via)[d.name]
              && Updated(t, d, source, via)[d.name][source] == Record(via, d)
    ensures d.name in t && !Notifies(t, d, source, via) ==> Updated(t, d, source, via) == t
  {
  }

  /** Topics that `live` still knows. */
  function Cleaned(t: Table, live: set<string>): Table {
    map n | n in t && n in live :: t[n]
  }

  // ----- what every announcement keeps -------------------------------------------

  /** No topic without a source, and every record is filed under its own name. */
  predicate WellKeyed(t: Table) {
    forall n :: n in t ==> Filed(n, t[n])
  }

  predicate Filed(n: string, m: map<Guid, Record>) {
    |m| > 0 && forall s :: s in m ==> m[s].data.name == n
  }

  /** Everything known stays known under the same type, and what came over the topic
      announcements is not replaced by anything weaker. */
  predicate Keeps(t: Table, u: Table, n: string, s: Guid) {
    n in t && s in t[n] ==>
      && n in u && s in u[n] && u[n][s].data.typeName == t[n][s].data.typeName
      && (t[n][s].via == ViaTopic ==> u[n][s].via == ViaTopic)
  }

  lemma UpdateKeeps(t: Table, d: TopicData, source: Guid, via: Via, n: string, s: Guid)
    ensures Keeps(t, Updated(t, d, source, via), n, s)
  {
  }

  lemma UpdateWellKeyed(t: Table, d: TopicData, source: Guid, via: Via)
    requires WellKeyed(t)
    ensures WellKeyed(Updated(t, d, source, via))
  {
    var u := Updated(t, d, source, via);
    forall n | n in u ensures Filed(n, u[n]) {
      if n == d.name && u != t {
        assert source in u[n];
        assert u[n].Keys != {};
      }
    }
  }
}
