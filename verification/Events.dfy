/** The switch events a consistency check splits its range at. */
module Events {
  import opened Order
  import opened Model
  import opened Versions

  datatype SwitchEvent = SwitchEvent(versionID: string, at: int)

  /** By time, then by identifier. */
  predicate EventLess(a: SwitchEvent, b: SwitchEvent) {
    if a.at == b.at then Less(a.versionID, b.versionID) else a.at < b.at
  }

  lemma EventOrder()
    ensures StrictWeakOrder(EventLess)
  {
    LessIsStrictWeakOrder();
  }

  /** The version was published inside [since, until) and still is. */
  predicate Switched(v: VersionValue, since: int, until: int) {
    v.state == Published && v.publishedAt != ZERO_TIME && since <= v.publishedAt < until
  }

  /** One event for each switched version. */
  ghost predicate Lists(events: seq<SwitchEvent>, m: ManagerValue, since: int, until: int) {
    && (forall i :: 0 <= i < |events| ==>
          && events[i].versionID in m.versions && Switched(m.versions[events[i].versionID], since, until)
          && events[i].at == m.versions[events[i].versionID].publishedAt)
    && (forall id :: id in m.versions && Switched(m.versions[id], since, until) ==> SwitchEvent(id, m.versions[id].publishedAt) in events)
    && (forall i, j :: 0 <= i < j < |events| ==> events[i].versionID != events[j].versionID)
  }

  /** The switches in order of time, then the end of the range. */
  ghost predicate SwitchList(events: seq<SwitchEvent>, m: ManagerValue, since: int, until: int) {
    && events != [] && events[|events| - 1] == SwitchEvent("", until)
    && Lists(events[..|events| - 1], m, since, until)
    && Ordered(EventLess, events)
  }

  /** The boundaries never go back, and stay inside the range. */
  lemma SwitchesAscend(events: seq<SwitchEvent>, m: ManagerValue, since: int, until: int)
    requires SwitchList(events, m, since, until) && since < until
    ensures forall i :: 0 <= i < |events| ==> since <= events[i].at <= until
    ensures forall i, j :: 0 <= i < j < |events| ==> events[i].at <= events[j].at
    ensures forall i, j :: 0 <= i < j < |events| && events[i].at == events[j].at ==> !Less(events[j].versionID, events[i].versionID)
  {
    forall i | 0 <= i < |events| ensures since <= events[i].at <= until {
      assert i < |events| - 1 ==> events[i] == events[..|events| - 1][i];
    }
  }

  /** A version switches inside the range exactly if it is published now and was stamped inside. */
  lemma SwitchListed(events: seq<SwitchEvent>, m: ManagerValue, since: int, until: int, id: string)
    requires SwitchList(events, m, since, until) && id in m.versions
    ensures (exists i :: 0 <= i < |events| - 1 && events[i].versionID == id) <==>
            m.versions[id].state == Published && m.versions[id].publishedAt != ZERO_TIME && since <= m.versions[id].publishedAt < until
    ensures forall i :: 0 <= i < |events| - 1 && events[i].versionID == id ==> events[i].at == m.versions[id].publishedAt
  {
    var listed := events[..|events| - 1];
    forall i | 0 <= i < |events| - 1 ensures events[i] == listed[i] {
    }
    if Switched(m.versions[id], since, until) {
      var e := SwitchEvent(id, m.versions[id].publishedAt);
      assert e in listed;
      var i :| 0 <= i < |listed| && listed[i] == e;
      assert events[i].versionID == id;
    }
  }

  method SwitchEvents(manager: Manager, since: int, until: int) returns (events: seq<SwitchEvent>)
    requires manager.Valid()
    ensures SwitchList(events, manager.Contents, since, until)
  {
    ghost var m := manager.Contents;
    var found: seq<SwitchEvent> := [];
    var todo := manager.versions.Keys;
    while todo != {}
      invariant todo <= manager.versions.Keys
      invariant ListsBut(found, m, since, until, todo)
    {
      var id :| id in todo;
      var v := manager.versions[id];
      assert v.Value() == m.versions[id];
      if v.state == Published && v.publishedAt != ZERO_TIME {
        if v.publishedAt >= since && v.publishedAt < until {
          found := found + [SwitchEvent(v.id, v.publishedAt)];
        }
      }
      todo := todo - {id};
    }
    EventOrder();
    SortedWithSentinel(found, m, since, until);
    events := Sort(EventLess, found + [SwitchEvent("", until)]);
  }

  /** As Lists, for the versions a range over the map has visited. */
  ghost predicate ListsBut(events: seq<SwitchEvent>, m: ManagerValue, since: int, until: int, todo: set<string>) {
    && (forall i :: 0 <= i < |events| ==>
          && events[i].versionID in m.versions && Switched(m.versions[events[i].versionID], since, until)
          && events[i].at == m.versions[events[i].versionID].publishedAt && events[i].versionID !in todo)
    && (forall id :: id in m.versions && id !in todo && Switched(m.versions[id], since, until) ==>
          SwitchEvent(id, m.versions[id].publishedAt) in events)
    && (forall i, j :: 0 <= i < j < |events| ==> events[i].versionID != events[j].versionID)
  }

  /** Sorting puts the sentinel last: every event precedes the end of the range. */
  lemma SortedWithSentinel(found: seq<SwitchEvent>, m: ManagerValue, since: int, until: int)
    requires ListsBut(found, m, since, until, {}) && StrictWeakOrder(EventLess)
    ensures SwitchList(Sort(EventLess, found + [SwitchEvent("", until)]), m, since, until)
  {
    hide Sort, StrictWeakOrder, ListsBut, Lists, EventLess;
    var end := SwitchEvent("", until);
    var all := found + [end];
    var events := Sort(EventLess, all);
    assert |multiset(events)| == |multiset(all)|;
    var n := |events| - 1;
    AllEarlier(found, m, since, until);
    SentinelLast(found, events, end);
    assert events == events[..n] + [end];
    CancelLast(events[..n], found, end);
    SameLists(found, events[..n], m, since, until);
  }

  lemma AllEarlier(found: seq<SwitchEvent>, m: ManagerValue, since: int, until: int)
    requires ListsBut(found, m, since, until, {})
    ensures forall e :: e in found ==> e.at < until
  {
  }

  lemma CancelLast(a: seq<SwitchEvent>, b: seq<SwitchEvent>, e: SwitchEvent)
    requires multiset(a + [e]) == multiset(b + [e])
    ensures multiset(a) == multiset(b)
  {
    assert multiset(a) == multiset(a + [e]) - multiset{e};
    assert multiset(b) == multiset(b + [e]) - multiset{e};
  }

  lemma SentinelLast(found: seq<SwitchEvent>, events: seq<SwitchEvent>, end: SwitchEvent)
    requires Ordered(EventLess, events) && multiset(events) == multiset(found + [end])
    requires forall e :: e in found ==> e.at < end.at
    ensures events != [] && events[|events| - 1] == end
  {
    assert end in multiset(events);
    assert end in events;
    var i :| 0 <= i < |events| && events[i] == end;
    var last := events[|events| - 1];
    assert last in multiset(events);
    assert last in found + [end];
    assert i < |events| - 1 ==> !EventLess(last, end);
  }

  lemma SameLists(found: seq<SwitchEvent>, events: seq<SwitchEvent>, m: ManagerValue, since: int, until: int)
    requires ListsBut(found, m, since, until, {}) && multiset(events) == multiset(found)
    ensures Lists(events, m, since, until)
  {
    forall e ensures e in events <==> e in found {
      assert e in events <==> e in multiset(events);
      assert e in found <==> e in multiset(found);
    }
    forall i | 0 <= i < |events| ensures events[i] in found {
      assert events[i] in events;
    }
    forall i, j | 0 <= i < j < |events| ensures events[i].versionID != events[j].versionID {
      if events[i].versionID == events[j].versionID {
        assert events[i] in found && events[j] in found;
        assert events[i] == events[j];
        Twice(events, i, j);
        Once(found, events[i]);
      }
    }
  }

  lemma Twice(events: seq<SwitchEvent>, i: nat, j: nat)
    requires i < j < |events| && events[i] == events[j]
    ensures multiset(events)[events[j]] >= 2
  {
    assert events == events[..j] + [events[j]] + events[j + 1..];
    assert events[i] in events[..j];
  }

  lemma Once(found: seq<SwitchEvent>, e: SwitchEvent)
    requires forall i, j :: 0 <= i < j < |found| ==> found[i].versionID != found[j].versionID
    ensures multiset(found)[e] <= 1
  {
    if found != [] {
      Once(found[1..], e);
      assert found == [found[0]] + found[1..];
      assert found[0] !in found[1..];
    }
  }
}
