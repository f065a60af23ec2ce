/** The online/offline consistency check: every entity written in a range is compared once. */
module Syncing {
  import opened Order
  import opened Model
  import opened Printing
  import opened Routing
  import opened Cache
  import opened Versions
  import opened Placement
  import opened Stores
  import opened Windows
  import opened Events

  datatype Diff = Diff(entity: Key, field: string, window: int, online: string, offline: string)

  /** A difference without the number of the window it was found in. */
  datatype Finding = Finding(entity: Key, field: string, online: string, offline: string)

  /** The offline view: the fields of an entity, if it has a snapshot there. */
  type Offline = Key -> Option<Fields>

  /** What a check looks at: the store when it starts, and the offline view. */
  datatype Scene = Scene(hash: HashFn, shards: Shards, cache: CacheMap, vm: ManagerValue, offline: Offline)

  ghost predicate SceneOK(sc: Scene) {
    |sc.shards| > 0
  }

  ghost function Online(sc: Scene, cache: CacheMap, key: Key): SnapshotValue
    requires SceneOK(sc)
  {
    Answer(sc.hash, sc.shards, cache, sc.vm, key, ActiveID(sc.vm))
  }

  /** The cache answers every read of the scene as it did when the check began. */
  ghost predicate SameAnswers(sc: Scene, cache: CacheMap)
    requires SceneOK(sc)
  {
    forall key :: Online(sc, cache, key) == Online(sc, sc.cache, key)
  }

  /** The reads a check makes fill the cache without changing any later answer. */
  lemma ReadKeepsAnswers(sc: Scene, cache: CacheMap, key: Key)
    requires SceneOK(sc) && SameAnswers(sc, cache)
    ensures SameAnswers(sc, cache[CacheKey(key, ActiveID(sc.vm)) := Online(sc, cache, key)])
  {
    var id := ActiveID(sc.vm);
    var filled := cache[CacheKey(key, id) := Online(sc, cache, key)];
    forall k ensures Online(sc, filled, k) == Online(sc, sc.cache, k) {
      assert Online(sc, cache, k) == Online(sc, sc.cache, k);
      if CacheKey(k, id) == CacheKey(key, id) {
        KeyInjectiveInEntity(k, key, id);
      }
    }
  }

  function OfflineValue(off: Option<Fields>, name: string): FeatureValue {
    if off.Some? && name in off.value then off.value[name] else ZERO_VALUE
  }

  /** The fields whose printed values differ, in the order of names. */
  function Differences(key: Key, online: Fields, off: Option<Fields>, names: seq<string>): seq<Finding>
    requires forall i :: 0 <= i < |names| ==> names[i] in online
  {
    if names == [] then []
    else
      var name := names[|names| - 1];
      var front := Differences(key, online, off, names[..|names| - 1]);
      if Show(online[name]) == Show(OfflineValue(off, name)) then front
      else front + [Finding(key, name, Show(online[name]), Show(OfflineValue(off, name)))]
  }

  ghost function EntityFindings(sc: Scene, key: Key): seq<Finding>
    requires SceneOK(sc)
  {
    var online := Online(sc, sc.cache, key).fields;
    Differences(key, online, sc.offline(key), SortedNames(online.Keys))
  }

  /** A field of an entity is reported exactly when its printed values differ, and at most once. */
  lemma FindingsExact(sc: Scene, key: Key, f: Finding)
    requires SceneOK(sc)
    ensures f in EntityFindings(sc, key) <==> Differs(key, Online(sc, sc.cache, key).fields, sc.offline(key), f)
    ensures multiset(EntityFindings(sc, key))[f] <= 1
  {
    var online := Online(sc, sc.cache, key).fields;
    DifferencesExact(key, online, sc.offline(key), SortedNames(online.Keys), f);
    DifferencesOnce(key, online, sc.offline(key), SortedNames(online.Keys), f);
  }

  /** The field is online and the two sides print it apart; a field that is missing offline prints as the empty text. */
  ghost predicate Differs(key: Key, online: Fields, off: Option<Fields>, f: Finding) {
    && f.entity == key && f.field in online && PrintsAs(Some(online[f.field]), f.online)
    && PrintsAs(if off.Some? && f.field in off.value then Some(off.value[f.field]) else None, f.offline)
    && f.online != f.offline
  }

  lemma OfflinePrints(off: Option<Fields>, name: string, s: string)
    ensures PrintsAs(if off.Some? && name in off.value then Some(off.value[name]) else None, s) <==> s == Show(OfflineValue(off, name))
  {
    ShowPrints(OfflineValue(off, name), s);
  }

  /**
   When a field shown online is reported: against a string, an integer or a flag of its own kind exactly if the
   contents differ, an integer against a flag always, and where the offline side has no such field exactly if
   the field is no empty string.
   */
  lemma FieldReported(sc: Scene, key: Key, n: string)
    requires SceneOK(sc) && n in Online(sc, sc.cache, key).fields
    ensures var v, off := Online(sc, sc.cache, key).fields[n], sc.offline(key);
            var reported := exists f :: f in EntityFindings(sc, key) && f.field == n;
            if off.None? || n !in off.value then
              && (v.kind == StringField ==> (reported <==> v.str != ""))
              && (v.kind == IntField || v.kind == BoolField ==> reported)
            else
              var w := off.value[n];
              && (v.kind == w.kind == StringField ==> (reported <==> v.str != w.str))
              && (v.kind == w.kind == IntField ==> (reported <==> v.num != w.num))
              && (v.kind == w.kind == BoolField ==> (reported <==> v.flag != w.flag))
              && (v.kind == w.kind == FloatField ==> (reported <==> v.float != w.float))
              && (v.kind == IntField && w.kind == BoolField ==> reported)
              && (v.kind == BoolField && w.kind == IntField ==> reported)
  {
    hide Show, PrintsAs, OfflineValue, Online, EntityFindings;
    var v, off := Online(sc, sc.cache, key).fields[n], sc.offline(key);
    var w := if off.Some? && n in off.value then Some(off.value[n]) else None;
    var printed := Finding(key, n, Show(v), Show(OfflineValue(off, n)));
    ShowPrints(v, printed.online);
    OfflinePrints(off, n, printed.offline);
    PrintedApart(v, w, printed.online, printed.offline);
    FindingsExact(sc, key, printed);
    forall f | f in EntityFindings(sc, key) && f.field == n ensures f == printed {
      FindingsExact(sc, key, f);
      ShowPrints(v, f.online);
      OfflinePrints(off, n, f.offline);
    }
  }

  lemma {:induction false} DifferencesExact(key: Key, online: Fields, off: Option<Fields>, names: seq<string>, f: Finding)
    requires forall i :: 0 <= i < |names| ==> names[i] in online
    ensures f in Differences(key, online, off, names) <==> f.field in names && Differs(key, online, off, f)
  {
    hide Show, OfflineValue, PrintsAs;
    if names != [] {
      var n := |names| - 1;
      DifferencesExact(key, online, off, names[..n], f);
      assert names == names[..n] + [names[n]];
      ShowPrints(online[names[n]], f.online);
      OfflinePrints(off, names[n], f.offline);
    }
  }

  lemma {:induction false} DifferencesOnce(key: Key, online: Fields, off: Option<Fields>, names: seq<string>, f: Finding)
    requires forall i :: 0 <= i < |names| ==> names[i] in online
    requires StrictlyIncreasing(names)
    ensures multiset(Differences(key, online, off, names))[f] <= 1
  {
    hide Show, OfflineValue, Less;
    if names != [] {
      var n := |names| - 1;
      DifferencesOnce(key, online, off, names[..n], f);
      DifferencesExact(key, online, off, names[..n], f);
      NotBefore(names, n);
    }
  }

  lemma NotBefore(names: seq<string>, n: nat)
    requires StrictlyIncreasing(names) && n < |names|
    ensures names[n] !in names[..n]
  {
    if i :| 0 <= i < n && names[i] == names[n] {
      LessIrreflexive(names[n]);
    }
  }

  /** The entity's routed entry was written inside [begin, end). */
  ghost predicate WrittenIn(sc: Scene, key: Key, begin: int, end: int)
    requires SceneOK(sc)
  {
    var e := Find(sc.hash, sc.shards, key);
    e.Some? && begin <= e.value.writtenAt < end
  }

  /** What comparing one listed key in one window reports. */
  ghost function Compared(sc: Scene, key: Key, begin: int, end: int): seq<Finding>
    requires SceneOK(sc)
  {
    if WrittenIn(sc, key, begin, end) then EntityFindings(sc, key) else []
  }

  /** What one window reports over a bag of listed keys, whatever order they are listed in. */
  ghost function Tally(sc: Scene, bag: multiset<Key>, begin: int, end: int): multiset<Finding>
    requires SceneOK(sc)
    decreases |bag|
  {
    if bag == multiset{} then multiset{}
    else
      var k :| k in bag;
      multiset(Compared(sc, k, begin, end)) + Tally(sc, bag - multiset{k}, begin, end)
  }

  lemma TallyPicks(sc: Scene, bag: multiset<Key>, begin: int, end: int) returns (m: Key)
    requires SceneOK(sc) && bag != multiset{}
    ensures m in bag
    ensures Tally(sc, bag, begin, end) == multiset(Compared(sc, m, begin, end)) + Tally(sc, bag - multiset{m}, begin, end)
  {
    m :| m in bag && Tally(sc, bag, begin, end) ==
                       multiset(Compared(sc, m, begin, end)) + Tally(sc, bag - multiset{m}, begin, end);
  }

  lemma {:induction false} TallyAnyOrder(sc: Scene, bag: multiset<Key>, begin: int, end: int, k: Key)
    requires SceneOK(sc) && k in bag
    ensures Tally(sc, bag, begin, end) == multiset(Compared(sc, k, begin, end)) + Tally(sc, bag - multiset{k}, begin, end)
    decreases |bag|
  {
    hide Tally, Compared;
    var m := TallyPicks(sc, bag, begin, end);
    if m != k {
      var rest := bag - multiset{m} - multiset{k};
      assert bag - multiset{k} - multiset{m} == rest;
      TallyAnyOrder(sc, bag - multiset{m}, begin, end, k);
      TallyAnyOrder(sc, bag - multiset{k}, begin, end, m);
    }
  }

  lemma TallyAdd(sc: Scene, bag: multiset<Key>, begin: int, end: int, k: Key)
    requires SceneOK(sc)
    ensures Tally(sc, bag + multiset{k}, begin, end) == Tally(sc, bag, begin, end) + multiset(Compared(sc, k, begin, end))
  {
    TallyAnyOrder(sc, bag + multiset{k}, begin, end, k);
    assert bag + multiset{k} - multiset{k} == bag;
  }

  /** Adjacent windows together report what their union does. */
  lemma {:induction false} TallyJoins(sc: Scene, bag: multiset<Key>, a: int, b: int, c: int)
    requires SceneOK(sc) && a <= b <= c
    ensures Tally(sc, bag, a, b) + Tally(sc, bag, b, c) == Tally(sc, bag, a, c)
    decreases |bag|
  {
    hide EntityFindings;
    if bag != multiset{} {
      var k :| k in bag;
      TallyAnyOrder(sc, bag, a, b, k);
      TallyAnyOrder(sc, bag, b, c, k);
      TallyAnyOrder(sc, bag, a, c, k);
      TallyJoins(sc, bag - multiset{k}, a, b, c);
    }
  }

  ghost function TallyWindows(sc: Scene, bag: multiset<Key>, ws: seq<Window>): multiset<Finding>
    requires SceneOK(sc)
  {
    if ws == [] then multiset{}
    else TallyWindows(sc, bag, ws[..|ws| - 1]) + Tally(sc, bag, ws[|ws| - 1].begin, ws[|ws| - 1].end)
  }

  lemma {:induction false} EmptyWindow(sc: Scene, bag: multiset<Key>, a: int)
    requires SceneOK(sc)
    ensures Tally(sc, bag, a, a) == multiset{}
    decreases |bag|
  {
    if bag != multiset{} {
      var k :| k in bag;
      TallyAnyOrder(sc, bag, a, a, k);
      EmptyWindow(sc, bag - multiset{k}, a);
    }
  }

  /** Any tiling of a range reports, in all, exactly what one comparison over the whole range reports. */
  lemma {:induction false} TilingReportsRange(sc: Scene, bag: multiset<Key>, ws: seq<Window>, begin: int, until: int)
    requires SceneOK(sc) && Tiles(ws, begin, until)
    ensures TallyWindows(sc, bag, ws) == Tally(sc, bag, begin, until)
    decreases |ws|
  {
    hide Tally;
    var n := |ws| - 1;
    if n > 0 {
      assert ws[n - 1].end == ws[n].begin;
      TilingReportsRange(sc, bag, ws[..n], begin, ws[n - 1].end);
      TilesAscend(ws, begin, until, 0, n);
      TallyJoins(sc, bag, begin, ws[n].begin, until);
    } else {
      assert ws[..0] == [];
      assert TallyWindows(sc, bag, ws[..0]) == multiset{};
    }
  }

  /** The keys of the first n shards, with their multiplicity: a stray copy lists its key again. */
  ghost function Bag(s: Shards, n: nat): multiset<Key>
    requires n <= |s|
  {
    if n == 0 then multiset{} else Bag(s, n - 1) + multiset(s[n - 1].Keys)
  }

  /** A key is listed once for each shard that stores it. */
  lemma {:induction false} BagCounts(s: Shards, n: nat, key: Key)
    requires n <= |s|
    ensures Bag(s, n)[key] == |Holders(s, n, key)|
  {
    hide Holders;
    NextHolder(s, n, key);
    if n > 0 {
      BagCounts(s, n - 1, key);
      assert multiset(s[n - 1].Keys)[key] == if key in s[n - 1] then 1 else 0;
    }
  }

  lemma NextHolder(s: Shards, n: nat, key: Key)
    requires n <= |s|
    ensures |Holders(s, n, key)| == if n == 0 then 0 else |Holders(s, n - 1, key)| + if key in s[n - 1] then 1 else 0
  {
    if n == 0 {
      assert Holders(s, 0, key) == {};
    } else {
      assert Holders(s, n, key) == Holders(s, n - 1, key) + (if key in s[n - 1] then {n - 1} else {});
    }
  }

  function Holders(s: Shards, n: nat, key: Key): set<int>
    requires n <= |s|
  {
    set i | 0 <= i < n && key in s[i]
  }

  /**
   A difference is reported once for each listing of its entity, if the entity was written in the range, and never
   otherwise.
   */
  lemma {:induction false} TallyCounts(sc: Scene, bag: multiset<Key>, begin: int, end: int, f: Finding)
    requires SceneOK(sc)
    ensures Tally(sc, bag, begin, end)[f] == if f in Compared(sc, f.entity, begin, end) then bag[f.entity] else 0
    decreases |bag|
  {
    hide EntityFindings, WrittenIn, Tally;
    if bag == multiset{} {
      NothingListed(sc, begin, end);
    } else {
      var k := TallyPicks(sc, bag, begin, end);
      TallyCounts(sc, bag - multiset{k}, begin, end, f);
      ComparedOnce(sc, k, begin, end, f);
    }
  }

  /** The same, spelled out: the differing fields of the entities written in the range, once for each listing. */
  lemma TallyExact(sc: Scene, bag: multiset<Key>, begin: int, end: int, f: Finding)
    requires SceneOK(sc)
    ensures Tally(sc, bag, begin, end)[f] ==
            if WrittenIn(sc, f.entity, begin, end) && Differs(f.entity, Online(sc, sc.cache, f.entity).fields, sc.offline(f.entity), f)
            then bag[f.entity] else 0
  {
    hide Tally, Differs, Online, EntityFindings, WrittenIn;
    TallyCounts(sc, bag, begin, end, f);
    FindingsExact(sc, f.entity, f);
  }

  lemma ComparedOnce(sc: Scene, key: Key, begin: int, end: int, f: Finding)
    requires SceneOK(sc)
    ensures multiset(Compared(sc, key, begin, end))[f] == if f.entity == key && f in Compared(sc, key, begin, end) then 1 else 0
  {
    hide EntityFindings;
    FindingsExact(sc, key, f);
    assert f in EntityFindings(sc, key) <==> f in multiset(EntityFindings(sc, key));
  }

  /**
   Over a tiled range, a differing field of an entity stored in one shard only, written in the range,
   is reported exactly once.
   */
  lemma ExactlyOnce(sc: Scene, ws: seq<Window>, begin: int, until: int, f: Finding, shard: int)
    requires SceneOK(sc) && Tiles(ws, begin, until)
    requires forall i :: 0 <= i < |sc.shards| ==> (f.entity in sc.shards[i] <==> i == shard)
    requires 0 <= shard < |sc.shards| && WrittenIn(sc, f.entity, begin, until)
    ensures TallyWindows(sc, Bag(sc.shards, |sc.shards|), ws)[f] ==
            if Differs(f.entity, Online(sc, sc.cache, f.entity).fields, sc.offline(f.entity), f) then 1 else 0
  {
    hide EntityFindings, Tiles, Find, Online, Tally, Differs;
    TilingReportsRange(sc, Bag(sc.shards, |sc.shards|), ws, begin, until);
    TallyCounts(sc, Bag(sc.shards, |sc.shards|), begin, until, f);
    BagCounts(sc.shards, |sc.shards|, f.entity);
    assert Holders(sc.shards, |sc.shards|, f.entity) == {shard};
    FindingsExact(sc, f.entity, f);
  }

  ghost function Bare(d: Diff): Finding {
    Finding(d.entity, d.field, d.online, d.offline)
  }

  ghost function BareAll(diffs: seq<Diff>): seq<Finding> {
    seq(|diffs|, i requires 0 <= i < |diffs| => Bare(diffs[i]))
  }

  lemma BareConcat(a: seq<Diff>, b: seq<Diff>)
    ensures BareAll(a + b) == BareAll(a) + BareAll(b)
  {
  }

  /** Each difference was found in a window its entity was written in. */
  ghost predicate Found(sc: Scene, diffs: seq<Diff>, ws: seq<Window>)
    requires SceneOK(sc)
  {
    forall i :: 0 <= i < |diffs| ==>
      && 0 <= diffs[i].window < |ws|
      && WrittenIn(sc, diffs[i].entity, ws[diffs[i].window].begin, ws[diffs[i].window].end)
  }

  /** The windows of a check: fixed steps if no version switched in the range, else from switch to switch. */
  function WindowsFor(events: seq<SwitchEvent>, begin: int, until: int, step: int): seq<Window>
    requires step > 0
  {
    if |events| == 1 then PartitionOf(begin, until, step, 0) else Between(Bounds(begin, events))
  }

  function Bounds(begin: int, events: seq<SwitchEvent>): (bounds: seq<int>)
    ensures |bounds| == |events| + 1
  {
    [begin] + seq(|events|, i requires 0 <= i < |events| => events[i].at)
  }

  /** In both modes the windows tile the range, for any switches and any step. */
  lemma WindowsTile(events: seq<SwitchEvent>, m: ManagerValue, begin: int, until: int, step: int)
    requires SwitchList(events, m, begin, until) && begin < until && step > 0
    ensures Tiles(WindowsFor(events, begin, until, step), begin, until)
  {
    SwitchesAscend(events, m, begin, until);
    PartitionTiles(begin, until, step);
    BetweenTiles(Bounds(begin, events));
  }

  /** Without a switch in the range window i starts i steps in, and the last is cut at the end. */
  lemma StepWindow(events: seq<SwitchEvent>, begin: int, until: int, step: int, i: nat, start: int)
    requires |events| == 1 && step > 0 && start == begin + i * step
    ensures var ws := WindowsFor(events, begin, until, step);
            && (i < |ws| <==> start < until)
            && (i < |ws| ==> ws[i] == Window(start, if start + step > until then until else start + step, i))
  {
    hide PartitionOf;
    PartitionWindow(begin, until, step, 0, i);
  }

  /** Otherwise each window reaches from one switch to the next, the first from the start of the range. */
  lemma SwitchWindow(events: seq<SwitchEvent>, begin: int, until: int, step: int, i: nat)
    requires |events| > 1 && step > 0 && i < |events|
    ensures var ws := WindowsFor(events, begin, until, step);
            |ws| == |events| && ws[i] == Window(if i == 0 then begin else events[i - 1].at, events[i].at, i)
  {
    hide PartitionOf, Bounds, Between;
    BoundAt(begin, events, i);
    if i > 0 {
      BoundAt(begin, events, i - 1);
    }
    BetweenAt(Bounds(begin, events), i);
  }

  lemma BoundAt(begin: int, events: seq<SwitchEvent>, i: nat)
    requires i < |events|
    ensures Bounds(begin, events)[0] == begin && Bounds(begin, events)[i + 1] == events[i].at
  {
  }

  const HOUR := 3_600_000_000_000

  /** The snapshot's field names in order. */
  method FieldNames(s: Snapshot) returns (names: seq<string>)
    ensures names == SortedNames(s.fields.m.Keys)
  {
    var list: seq<string> := [];
    var todo := s.fields.m.Keys;
    while todo != {}
      invariant todo <= s.fields.m.Keys && forall n :: n in list <==> n in s.fields.m && n !in todo
      invariant forall i, j :: 0 <= i < j < |list| ==> list[i] != list[j]
    {
      var n :| n in todo;
      list := list + [n];
      todo := todo - {n};
    }
    SortedDistinct(list);
    names := SortStrings(list);
    IncreasingUnique(names, SortedNames(s.fields.m.Keys));
  }

  class Checker {
    const store: Store
    const versions: Manager
    const step: int

    constructor (store: Store, versions: Manager, step: int)
      ensures this.store == store && this.versions == versions
      ensures this.step == (if step <= 0 then HOUR else step) && this.step > 0
    {
      this.store, this.versions := store, versions;
      this.step := if step <= 0 then HOUR else step;
    }

    /** The store is as the scene has it, but for cached snapshots that answer alike. */
    ghost predicate Agrees(sc: Scene)
      reads store`Contents, store.cache`Contents, store.versions`Contents
    {
      && SceneOK(sc) && store.router.hash == sc.hash && store.Contents == sc.shards && store.versions.Contents == sc.vm
      && SameAnswers(sc, store.cache.Contents)
    }

    ghost function Now(offline: Offline): Scene
      reads store`Contents, store.cache`Contents, store.versions`Contents
    {
      Scene(store.router.hash, store.Contents, store.cache.Contents, store.versions.Contents, offline)
    }

    method DiffFields(key: Key, online: Snapshot, off: Option<Fields>, window: int) returns (diffs: seq<Diff>)
      ensures BareAll(diffs) == Differences(key, online.fields.m, off, SortedNames(online.fields.m.Keys))
      ensures forall i :: 0 <= i < |diffs| ==> diffs[i].window == window && diffs[i].entity == key
    {
      hide Show, OfflineValue, BareAll, Differences, SortedNames, StrictlyIncreasing;
      NoDiffs();
      var fields := online.fields.m;
      var names := FieldNames(online);
      NoDifferences(key, fields, off, names);
      diffs := [];
      for i := 0 to |names|
        invariant BareAll(diffs) == Differences(key, fields, off, names[..i])
        invariant forall j :: 0 <= j < |diffs| ==> diffs[j].window == window && diffs[j].entity == key
      {
        NextDifference(key, fields, off, names, i, diffs, window);
        var onlineValue, offlineValue := fields[names[i]], OfflineValue(off, names[i]);
        if Show(onlineValue) != Show(offlineValue) {
          diffs := diffs + [Diff(key, names[i], window, Show(onlineValue), Show(offlineValue))];
        }
      }
      assert names[..|names|] == names;
    }

    /** One read of a scene: the answer, and the cache that answers alike. */
    method ReadOnline(key: Key, ghost sc: Scene) returns (online: Snapshot)
      requires store.Valid() && store.versions.Valid() && Agrees(sc)
      modifies store.cache
      ensures store.Valid() && store.versions.Valid() && Agrees(sc)
      ensures online.Value() == Online(sc, sc.cache, key)
    {
      hide Store.Valid, SameAnswers, Manager.Valid, ActiveID;
      AnswerNow(sc, store.cache.Contents, key);
      ReadKeepsAnswers(sc, store.cache.Contents, key);
      online := store.ReadVersion(key, "");
    }

    /** Compares one listed key in one window. */
    method CompareKey(key: Key, begin: int, end: int, window: int, offline: Offline, ghost sc: Scene) returns (diffs: seq<Diff>)
      requires store.Valid() && store.versions.Valid() && Agrees(sc) && sc.offline == offline
      modifies store.cache
      ensures store.Valid() && store.versions.Valid() && Agrees(sc)
      ensures BareAll(diffs) == Compared(sc, key, begin, end)
      ensures forall i :: 0 <= i < |diffs| ==> diffs[i].window == window && diffs[i].entity == key && WrittenIn(sc, key, begin, end)
    {
      hide Store.Valid, Store.Routable, SameAnswers, Manager.Valid, Find, Online, Differences;
      store.HasShards();
      diffs := [];
      var writtenAt := store.WrittenAt(key);
      if writtenAt.None? {
        return;
      }
      if writtenAt.value < begin || !(writtenAt.value < end) {
        return;
      }
      var online := ReadOnline(key, sc);
      diffs := DiffFields(key, online, offline(key), window);
    }

    /** Compares the keys of one shard; bag holds the keys listed before. */
    method CompareShard(shard: nat, begin: int, end: int, window: int, offline: Offline, ghost sc: Scene, ghost bag: multiset<Key>)
      returns (diffs: seq<Diff>)
      requires store.Valid() && store.versions.Valid() && Agrees(sc) && sc.offline == offline && shard < |sc.shards|
      modifies store.cache
      ensures store.Valid() && store.versions.Valid() && Agrees(sc)
      ensures Tally(sc, bag + multiset(sc.shards[shard].Keys), begin, end) == Tally(sc, bag, begin, end) + multiset(BareAll(diffs))
      ensures forall i :: 0 <= i < |diffs| ==> diffs[i].window == window && WrittenIn(sc, diffs[i].entity, begin, end)
    {
      hide Store.Valid, Store.Routable, SameAnswers, Manager.Valid, Tally, WrittenIn, EntityFindings, BareAll;
      store.HasShards();
      NoDiffs();
      var keys := store.Keys(shard);
      assert bag + multiset(keys[..0]) == bag;
      diffs := [];
      for i := 0 to |keys|
        invariant store.Valid() && store.versions.Valid() && Agrees(sc)
        invariant Tally(sc, bag + multiset(keys[..i]), begin, end) == Tally(sc, bag, begin, end) + multiset(BareAll(diffs))
        invariant forall j :: 0 <= j < |diffs| ==> diffs[j].window == window && WrittenIn(sc, diffs[j].entity, begin, end)
      {
        var more := CompareKey(keys[i], begin, end, window, offline, sc);
        KeyTallied(sc, bag, keys, i, begin, end, diffs, more);
        diffs := diffs + more;
      }
      assert keys[..|keys|] == keys;
    }

    /** Compares every listed key of the store inside one window. */
    method CompareWindow(begin: int, end: int, window: int, offline: Offline, ghost sc: Scene) returns (diffs: seq<Diff>)
      requires store.Valid() && store.versions.Valid() && Agrees(sc) && sc.offline == offline
      modifies store.cache
      ensures store.Valid() && store.versions.Valid() && Agrees(sc)
      ensures multiset(BareAll(diffs)) == Tally(sc, Bag(sc.shards, |sc.shards|), begin, end)
      ensures forall i :: 0 <= i < |diffs| ==> diffs[i].window == window && WrittenIn(sc, diffs[i].entity, begin, end)
    {
      hide Store.Valid, Store.Routable, SameAnswers, Manager.Valid, Tally, WrittenIn, BareAll;
      store.HasShards();
      NoDiffs();
      NothingListed(sc, begin, end);
      diffs := [];
      var shardCount := store.ShardCount();
      for shard := 0 to shardCount
        invariant store.Valid() && store.versions.Valid() && Agrees(sc)
        invariant multiset(BareAll(diffs)) == Tally(sc, Bag(sc.shards, shard), begin, end)
        invariant forall j :: 0 <= j < |diffs| ==> diffs[j].window == window && WrittenIn(sc, diffs[j].entity, begin, end)
      {
        var more := CompareShard(shard, begin, end, window, offline, sc, Bag(sc.shards, shard));
        BareConcat(diffs, more);
        diffs := diffs + more;
      }
    }

    /** The windows in turn. */
    method CompareWindows(ws: seq<Window>, offline: Offline, ghost sc: Scene) returns (diffs: seq<Diff>)
      requires store.Valid() && store.versions.Valid() && Agrees(sc) && sc.offline == offline
      requires forall i :: 0 <= i < |ws| ==> ws[i].index == i
      modifies store.cache
      ensures store.Valid() && store.versions.Valid() && Agrees(sc)
      ensures multiset(BareAll(diffs)) == TallyWindows(sc, Bag(sc.shards, |sc.shards|), ws)
      ensures Found(sc, diffs, ws)
    {
      hide Store.Valid, SameAnswers, Manager.Valid, Tally, WrittenIn, Bag, BareAll;
      NoDiffs();
      diffs := [];
      for i := 0 to |ws|
        invariant store.Valid() && store.versions.Valid() && Agrees(sc)
        invariant multiset(BareAll(diffs)) == TallyWindows(sc, Bag(sc.shards, |sc.shards|), ws[..i])
        invariant Found(sc, diffs, ws)
      {
        assert ws[..i + 1][..i] == ws[..i];
        var more := CompareWindow(ws[i].begin, ws[i].end, ws[i].index, offline, sc);
        BareConcat(diffs, more);
        diffs := diffs + more;
      }
      assert ws[..|ws|] == ws;
    }

    /**
     Splits the range at the version switches, or into steps if there are none, and compares window by
     window. An empty or backward range is rejected.
     */
    method Check(begin: int, until: int, offline: Offline) returns (ok: bool, diffs: seq<Diff>, ghost events: seq<SwitchEvent>)
      requires store.Valid() && store.versions.Valid() && versions.Valid() && |store.Contents| > 0 && step > 0
      modifies store.cache
      ensures store.Valid() && Agrees(old(Now(offline)))
      ensures ok == (until > begin)
      ensures ok ==> SwitchList(events, versions.Contents, begin, until)
      ensures ok ==> multiset(BareAll(diffs)) == Tally(old(Now(offline)), Bag(store.Contents, |store.Contents|), begin, until)
      ensures ok ==> Found(old(Now(offline)), diffs, WindowsFor(events, begin, until, step))
      ensures ok ==>
                var sc := old(Now(offline));
                forall f: Finding ::
                  multiset(BareAll(diffs))[f] ==
                  if WrittenIn(sc, f.entity, begin, until) && Differs(f.entity, Online(sc, sc.cache, f.entity).fields, offline(f.entity), f)
                  then Bag(store.Contents, |store.Contents|)[f.entity] else 0
    {
      hide WrittenIn, Differs, Online, Store.Valid, SameAnswers, Manager.Valid, Tally, TallyWindows, Found, Bag, BareAll, SwitchList, Tiles, PartitionOf, Between;
      ghost var sc := Now(offline);
      AnswersAtStart(sc);
      diffs, events := [], [];
      ok := until > begin;
      if !ok {
        return;
      }
      var found := SwitchEvents(versions, begin, until);
      events := found;
      WindowsTile(events, versions.Contents, begin, until, step);
      WindowsNumbered(WindowsFor(events, begin, until, step), begin, until);
      TilingReportsRange(sc, Bag(sc.shards, |sc.shards|), WindowsFor(events, begin, until, step), begin, until);
      if |found| == 1 {
        var ws := Partition(begin, until, step);
        diffs := CompareWindows(ws, offline, sc);
      } else {
        diffs := CompareWindows(Between(Bounds(begin, found)), offline, sc);
      }
      forall f: Finding
        ensures Tally(sc, Bag(sc.shards, |sc.shards|), begin, until)[f] ==
                if WrittenIn(sc, f.entity, begin, until) && Differs(f.entity, Online(sc, sc.cache, f.entity).fields, offline(f.entity), f)
                then Bag(sc.shards, |sc.shards|)[f.entity] else 0
      {
        TallyExact(sc, Bag(sc.shards, |sc.shards|), begin, until, f);
      }
    }
  }

  lemma AnswerNow(sc: Scene, cache: CacheMap, key: Key)
    requires SceneOK(sc) && SameAnswers(sc, cache)
    ensures Online(sc, cache, key) == Online(sc, sc.cache, key)
  {
  }

  lemma AnswersAtStart(sc: Scene)
    requires SceneOK(sc)
    ensures SameAnswers(sc, sc.cache)
  {
  }

  lemma NoDiffs()
    ensures BareAll([]) == []
  {
  }

  lemma NoDifferences(key: Key, online: Fields, off: Option<Fields>, names: seq<string>)
    requires forall i :: 0 <= i < |names| ==> names[i] in online
    ensures Differences(key, online, off, names[..0]) == []
  {
  }

  lemma NextDifference(key: Key, online: Fields, off: Option<Fields>, names: seq<string>, i: nat, diffs: seq<Diff>, window: int)
    requires (forall j :: 0 <= j < |names| ==> names[j] in online) && i < |names|
    requires BareAll(diffs) == Differences(key, online, off, names[..i])
    ensures var a, b := Show(online[names[i]]), Show(OfflineValue(off, names[i]));
            BareAll(if a == b then diffs else diffs + [Diff(key, names[i], window, a, b)]) == Differences(key, online, off, names[..i + 1])
  {
    hide Show, OfflineValue;
    assert names[..i + 1][..i] == names[..i];
  }

  lemma NothingListed(sc: Scene, begin: int, end: int)
    requires SceneOK(sc)
    ensures Tally(sc, multiset{}, begin, end) == multiset{}
  {
  }

  lemma WindowsNumbered(ws: seq<Window>, begin: int, until: int)
    requires Tiles(ws, begin, until)
    ensures forall i :: 0 <= i < |ws| ==> ws[i].index == i
  {
  }

  lemma KeyTallied(sc: Scene, bag: multiset<Key>, keys: seq<Key>, i: nat, begin: int, end: int, diffs: seq<Diff>, more: seq<Diff>)
    requires SceneOK(sc) && i < |keys| && BareAll(more) == Compared(sc, keys[i], begin, end)
    requires Tally(sc, bag + multiset(keys[..i]), begin, end) == Tally(sc, bag, begin, end) + multiset(BareAll(diffs))
    ensures Tally(sc, bag + multiset(keys[..i + 1]), begin, end) == Tally(sc, bag, begin, end) + multiset(BareAll(diffs + more))
  {
    hide Tally, Compared, BareAll;
    assert keys[..i + 1] == keys[..i] + [keys[i]];
    assert bag + multiset(keys[..i + 1]) == bag + multiset(keys[..i]) + multiset{keys[i]};
    TallyAdd(sc, bag + multiset(keys[..i]), begin, end, keys[i]);
    BareConcat(diffs, more);
  }
}
