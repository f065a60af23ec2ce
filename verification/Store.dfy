/** The sharded store: live entry records behind routing, the read cache in front, the journal beside. */
module Stores {
  import opened Model
  import opened Routing
  import opened Cache
  import opened Versions
  import opened Journals
  import opened Results
  import opened Ranks
  import opened Placement
  import opened Undoing

  /** The record and its field map belong to this cell, and read as v. */
  ghost predicate HoldsEntry(e: Entry, i: int, k: Key, v: EntryValue)
    reads e, e.fields
  {
    e.key == k && e.place == e.fields.place == Cell(i, k) && e.Value() == v
  }

  lemma Held(e: Entry, i: int, k: Key, v: EntryValue)
    requires e.key == k && e.place == e.fields.place == Cell(i, k) && e.Value() == v
    ensures HoldsEntry(e, i, k, v)
  {
  }

  lemma ShardHeld(shard: map<Key, Entry>, i: int, v: Live, entries: set<Entry>, maps: set<FieldMap>)
    requires shard.Keys == v.Keys
    requires forall k :: k in shard ==> shard[k] in entries && shard[k].fields in maps && HoldsEntry(shard[k], i, k, v[k])
    ensures HoldsShard(shard, i, v, entries, maps)
  {
  }

  ghost predicate HoldsShard(shard: map<Key, Entry>, i: int, v: Live, entries: set<Entry>, maps: set<FieldMap>)
    reads entries, maps
  {
    && shard.Keys == v.Keys
    && (forall k :: k in shard ==> shard[k] in entries && shard[k].fields in maps && HoldsEntry(shard[k], i, k, v[k]))
  }

  /** The entry of a cell once a record is placed there. */
  function Present(shard: Live, key: Key): EntryValue {
    if key in shard then shard[key] else EntryValue(map[], "", ZERO_TIME)
  }

  class Store {
    const router: Router
    const versions: Manager
    const cache: ReadCache
    const journal: Journal
    const results: CommittedResults
    var shards: seq<map<Key, Entry>>
    ghost var Contents: Shards

    /** The live records and their field maps. */
    ghost var Entries: set<Entry>
    ghost var Maps: set<FieldMap>

    /** Every shard cell holds its own record with its own field map, and reads as Contents. */
    ghost predicate CellsOK()
      reads this, Entries, Maps
    {
      && (forall e :: e in Entries ==> e.place.Cell?)
      && (forall f :: f in Maps ==> f.place.Cell?)
      && |Contents| == |shards| > 0
      && (forall i :: 0 <= i < |shards| ==> HoldsShard(shards[i], i, Contents[i], Entries, Maps))
    }

    /** Consistent, but for the shard count the router may be ahead of. */
    ghost predicate Consistent()
      reads this, Entries, Maps, cache, cache.Maps
      reads journal, journal.buf, journal.Copies, journal.Maps, router, router.routeTable
    {
      CellsOK() && cache.Valid() && journal.Valid() && router.Valid()
    }

    /** Store and router agree on the shard count: every key is routed to one of the shards. */
    ghost predicate Routable()
      reads this, Entries, Maps, router, router.routeTable
    {
      CellsOK() && router.Valid() && router.shardCount == |shards|
    }

    ghost predicate Valid()
      reads this, Entries, Maps, cache, cache.Maps
      reads journal, journal.buf, journal.Copies, journal.Maps, router, router.routeTable
    {
      Routable() && cache.Valid() && journal.Valid()
    }

    /**
     In every consistent state no two cells share a record or a field map, and none is shared with a
     cached snapshot or a journaled before-image; so an in-place merge reaches one entry only.
     */
    lemma NothingShared()
      requires Consistent()
      ensures forall i, k, j, l :: 0 <= i < |shards| && k in shards[i] && 0 <= j < |shards| && l in shards[j] && (i != j || k != l) ==>
                shards[i][k] != shards[j][l] && shards[i][k].fields != shards[j][l].fields
      ensures forall i, k, c :: 0 <= i < |shards| && k in shards[i] && c in cache.entries ==>
                shards[i][k].fields != cache.entries[c].fields
      ensures forall i, k, j :: 0 <= i < |shards| && k in shards[i] && 0 <= j < journal.len && journal.buf[j].before != null ==>
                shards[i][k] != journal.buf[j].before && shards[i][k].fields != journal.buf[j].before.fields
    {
      forall i, k | 0 <= i < |shards| && k in shards[i]
        ensures shards[i][k].place == shards[i][k].fields.place == Cell(i, k)
      {
        assert HoldsShard(shards[i], i, Contents[i], Entries, Maps);
      }
      forall j | 0 <= j < journal.len && journal.buf[j].before != null
        ensures journal.buf[j].before.place == journal.buf[j].before.fields.place == Detached
      {
        assert Stored(journal.buf[j], journal.Contents[j], journal.Copies, journal.Maps);
      }
    }

    lemma NotLive(fields: FieldMap)
      requires Valid() && fields.place == Detached
      ensures fields !in Maps
    {
    }

    /** No record or field map of a cell belongs to the cache or the journal. */
    lemma Separate()
      requires Valid()
      ensures Maps !! cache.Maps && Maps !! journal.Maps && Entries !! journal.Copies
      ensures Routable() && CellsOK() && |Contents| == |shards| > 0
    {
    }

    lemma JournalOK()
      requires Valid()
      ensures journal.Valid() && |Contents| > 0
    {
    }

    lemma PlacesOK()
      requires CellsOK()
      ensures (forall e :: e in Entries ==> e.place.Cell?) && (forall f :: f in Maps ==> f.place.Cell?)
    {
    }

    lemma CellCount()
      requires CellsOK()
      ensures |Contents| == |shards| > 0
    {
    }

    lemma HasShards()
      requires Valid()
      ensures |Contents| > 0 && Routable()
    {
    }

    constructor (router: Router, versions: Manager)
      requires router.Valid()
      ensures Valid() && this.router == router && this.versions == versions
      ensures Contents == EmptyShards(router.shardCount)
      ensures Entries == {} && Maps == {} && fresh(cache) && fresh(journal) && fresh(journal.buf) && fresh(results)
      ensures cache.Contents == map[] && journal.Contents == [] && results.done == map[]
    {
      this.router, this.versions := router, versions;
      cache := new ReadCache();
      journal := new Journal();
      results := new CommittedResults();
      shards := EmptyShards(router.shardCount);
      Contents := EmptyShards(router.shardCount);
      Entries, Maps := {}, {};
    }

    static method New(router: Router, versions: Manager) returns (s: Store)
      requires router.Valid() && versions.Valid()
      modifies versions`hook
      ensures fresh(s) && s.Valid() && s.router == router && s.versions == versions
      ensures s.Contents == EmptyShards(router.shardCount)
      ensures s.cache.Contents == map[] && s.journal.Contents == [] && s.results.done == map[]
      ensures versions.Valid() && versions.hook == s.cache
    {
      s := new Store(router, versions);
      versions.SetCacheHook(s.cache);
    }

    method ShardCount() returns (n: nat)
      requires Routable()
      ensures n == |Contents|
    {
      n := |shards|;
    }

    /** The routed shard; shard 0 for an index the store has not grown to yet. */
    method ShardIndex(key: Key) returns (i: int)
      requires CellsOK() && router.Valid()
      ensures var r := Slot(router.hash, key, router.shardCount); i == if r < |shards| then r else 0
    {
      i := router.Route(key);
      if i < 0 || i >= |shards| {
        i := 0;
      }
    }

    /** Places a new empty record. */
    method AddEntry(i: int, key: Key) returns (e: Entry)
      requires CellsOK() && 0 <= i < |shards| && key !in shards[i]
      modifies `shards, `Contents, `Entries, `Maps
      ensures CellsOK() && fresh(e) && fresh(e.fields) && Entries == old(Entries) + {e} && Maps == old(Maps) + {e.fields}
      ensures shards == old(shards)[i := old(shards)[i][key := e]]
      ensures Contents == PutAt(old(Contents), i, key, EntryValue(map[], "", ZERO_TIME))
    {
      e := new Entry(key, Cell(i, key));
      Entries, Maps := Entries + {e}, Maps + {e.fields};
      Contents := PutAt(Contents, i, key, e.Value());
      shards := shards[i := shards[i][key := e]];
      forall j | 0 <= j < |shards| ensures HoldsShard(shards[j], j, Contents[j], Entries, Maps) {
        assert j != i ==> HoldsShard(old(shards)[j], j, old(Contents)[j], old(Entries), old(Maps));
      }
    }

    /** Gives a record a new field map made for its cell, and a new version and time. */
    method SetEntry(i: int, key: Key, e: Entry, fields: FieldMap, versionID: string, at: int)
      requires CellsOK() && 0 <= i < |shards| && key in shards[i] && shards[i][key] == e
      requires fields.place == Cell(i, key)
      modifies e, `Contents, `Maps
      ensures CellsOK() && Maps == old(Maps) + {fields}
      ensures Contents == PutAt(old(Contents), i, key, EntryValue(fields.m, versionID, at))
    {
      hide HoldsEntry, HoldsShard;
      CellCount();
      PlacesOK();
      OtherCells(i, key);
      Contents := PutAt(Contents, i, key, EntryValue(fields.m, versionID, at));
      Maps := Maps + {fields};
      e.Set(fields, versionID, at);
      Held(e, i, key, Contents[i][key]);
      forall j | 0 <= j < |shards| ensures HoldsShard(shards[j], j, Contents[j], Entries, Maps) {
        ShardHeld(shards[j], j, Contents[j], Entries, Maps);
      }
    }

    /** Every other cell's record and field map differ from this cell's. */
    lemma OtherCells(i: int, key: Key)
      requires CellsOK() && 0 <= i < |shards| && key in shards[i]
      ensures shards[i][key].key == key && shards[i][key].place == shards[i][key].fields.place == Cell(i, key)
      ensures forall j :: 0 <= j < |shards| ==> shards[j].Keys == Contents[j].Keys
      ensures shards[i][key].Value() == Contents[i][key] && shards[i][key] in Entries && shards[i][key].fields in Maps
      ensures forall j, k :: 0 <= j < |shards| && k in shards[j] && (j != i || k != key) ==>
                && shards[j][k] != shards[i][key] && shards[j][k].fields != shards[i][key].fields
                && shards[j][k] in Entries && shards[j][k].fields in Maps
                && k in Contents[j] && HoldsEntry(shards[j][k], j, k, Contents[j][k])
    {
      assert HoldsShard(shards[i], i, Contents[i], Entries, Maps);
      forall j, k | 0 <= j < |shards| && k in shards[j]
        ensures shards[j][k].place == Cell(j, k) == shards[j][k].fields.place && k in Contents[j]
        ensures shards[j][k] in Entries && shards[j][k].fields in Maps && HoldsEntry(shards[j][k], j, k, Contents[j][k])
      {
        assert HoldsShard(shards[j], j, Contents[j], Entries, Maps);
      }
      forall j | 0 <= j < |shards| ensures shards[j].Keys == Contents[j].Keys {
        assert HoldsShard(shards[j], j, Contents[j], Entries, Maps);
      }
    }

    /** Writes the fields of the window in place, then the new version and time. */
    method MergeEntry(i: int, key: Key, e: Entry, patch: Fields, overwrite: seq<string>, versionID: string, now: int)
      requires CellsOK() && 0 <= i < |shards| && key in shards[i] && shards[i][key] == e
      modifies e, e.fields, `Contents
      ensures CellsOK()
      ensures Contents == PutAt(old(Contents), i, key,
                EntryValue(MergeFields(old(Contents)[i][key].fields, patch, overwrite), versionID, now))
    {
      hide HoldsEntry, HoldsShard, MergeFields;
      CellCount();
      PlacesOK();
      OtherCells(i, key);
      Contents := PutAt(Contents, i, key, EntryValue(MergeFields(Contents[i][key].fields, patch, overwrite), versionID, now));
      MergeRecord(e, patch, overwrite, versionID, now);
      Held(e, i, key, Contents[i][key]);
      forall j | 0 <= j < |shards| ensures HoldsShard(shards[j], j, Contents[j], Entries, Maps) {
        ShardHeld(shards[j], j, Contents[j], Entries, Maps);
      }
    }

    method RemoveEntry(i: int, key: Key)
      requires CellsOK() && 0 <= i < |shards|
      modifies `shards, `Contents
      ensures CellsOK() && Contents == DropAt(old(Contents), i, key)
    {
      Contents := DropAt(Contents, i, key);
      shards := shards[i := shards[i] - {key}];
      forall j | 0 <= j < |shards| ensures HoldsShard(shards[j], j, Contents[j], Entries, Maps) {
        assert HoldsShard(old(shards)[j], j, old(Contents)[j], Entries, Maps);
      }
    }

    /** Finds the record of a cell, placing an empty one if there is none. */
    method Obtain(i: int, key: Key) returns (e: Entry)
      requires CellsOK() && 0 <= i < |shards|
      modifies `shards, `Contents, `Entries, `Maps
      ensures CellsOK() && fresh(Entries - old(Entries)) && fresh(Maps - old(Maps)) && |shards| == old(|shards|)
      ensures key in shards[i] && shards[i][key] == e && e in Entries && e.fields in Maps
      ensures Contents == PutAt(old(Contents), i, key, Present(old(Contents)[i], key))
    {
      assert HoldsShard(shards[i], i, Contents[i], Entries, Maps);
      if key in shards[i] {
        e := shards[i][key];
        PutAtSame(Contents, i, key);
      } else {
        e := AddEntry(i, key);
      }
    }

    /** Replaces the fields of a cell, placing the record if there is none. */
    method PutEntry(i: int, key: Key, fields: FieldMap, versionID: string, at: int)
      requires CellsOK() && 0 <= i < |shards|
      modifies `shards, `Contents, `Entries, `Maps, Entries
      ensures CellsOK() && fresh(Entries - old(Entries)) && fresh(Maps - old(Maps)) && |Contents| == |old(Contents)|
      ensures Contents == PutAt(old(Contents), i, key, EntryValue(fields.m, versionID, at))
    {
      hide Store.CellsOK, Present;
      CellCount();
      var copy := CloneFields(fields, Cell(i, key));
      PutAtTwice(Contents, i, key, Present(Contents[i], key), EntryValue(copy.m, versionID, at));
      var e := Obtain(i, key);
      SetEntry(i, key, e, copy, versionID, at);
    }

    /** Merges into the fields of a cell, placing the record if there is none. */
    method MergeAt(i: int, key: Key, patch: Fields, overwrite: seq<string>, versionID: string, now: int)
      requires CellsOK() && 0 <= i < |shards|
      modifies `shards, `Contents, `Entries, `Maps, Entries, Maps
      ensures CellsOK() && fresh(Entries - old(Entries)) && fresh(Maps - old(Maps)) && |Contents| == |old(Contents)|
      ensures Contents == PutAt(old(Contents), i, key, Merged(Lookup(old(Contents)[i], key), patch, overwrite, versionID, now))
    {
      hide Store.CellsOK;
      CellCount();
      PutAtTwice(Contents, i, key, Present(Contents[i], key), Merged(Lookup(Contents[i], key), patch, overwrite, versionID, now));
      var e := Obtain(i, key);
      MergeEntry(i, key, e, patch, overwrite, versionID, now);
    }

    method PutRouted(key: Key, fields: FieldMap, versionID: string, at: int)
      requires Valid()
      modifies `shards, `Contents, `Entries, `Maps, Entries
      ensures Valid() && fresh(Entries - old(Entries)) && fresh(Maps - old(Maps))
      ensures Contents == Put(router.hash, old(Contents), key, EntryValue(fields.m, versionID, at))
    {
      hide Store.CellsOK;
      Separate();
      var i := ShardIndex(key);
      PutEntry(i, key, fields, versionID, at);
      CellCount();
    }

    method MergeRouted(key: Key, patch: Fields, overwrite: seq<string>, versionID: string, now: int)
      requires Valid()
      modifies `shards, `Contents, `Entries, `Maps, Entries, Maps
      ensures Valid() && fresh(Entries - old(Entries)) && fresh(Maps - old(Maps))
      ensures Contents == Put(router.hash, old(Contents), key,
                Merged(Find(router.hash, old(Contents), key), patch, overwrite, versionID, now))
    {
      hide Store.CellsOK;
      Separate();
      var i := ShardIndex(key);
      MergeAt(i, key, patch, overwrite, versionID, now);
      CellCount();
    }

    method DropRouted(key: Key)
      requires Valid()
      modifies `shards, `Contents
      ensures Valid() && Contents == Drop(router.hash, old(Contents), key)
    {
      var i := ShardIndex(key);
      RemoveEntry(i, key);
    }

    method Forget(key: Key)
      requires Valid()
      modifies cache`entries, cache`Contents
      ensures Valid() && cache.Contents == WithoutEntity(old(cache.Contents), key)
    {
      cache.InvalidateEntity(key);
    }

    method WriteAt(key: Key, fields: FieldMap, versionID: string, at: int)
      requires Valid()
      modifies `shards, `Contents, `Entries, `Maps, Entries, cache`entries, cache`Contents
      ensures Valid() && fresh(Entries - old(Entries)) && fresh(Maps - old(Maps))
      ensures Contents == Put(router.hash, old(Contents), key, EntryValue(old(fields.m), versionID, at))
      ensures cache.Contents == WithoutEntity(old(cache.Contents), key)
    {
      hide Store.Valid;
      PutRouted(key, fields, versionID, at);
      Forget(key);
    }

    method MergeWrite(key: Key, patch: Fields, overwrite: seq<string>, versionID: string, now: int)
      requires Valid()
      modifies `shards, `Contents, `Entries, `Maps, Entries, Maps, cache`entries, cache`Contents
      ensures Valid() && fresh(Entries - old(Entries)) && fresh(Maps - old(Maps))
      ensures Contents == Put(router.hash, old(Contents), key,
                Merged(Find(router.hash, old(Contents), key), patch, overwrite, versionID, now))
      ensures cache.Contents == WithoutEntity(old(cache.Contents), key)
      ensures |Contents| > 0 && old(|Contents|) > 0
      ensures var before, after := Find(router.hash, old(Contents), key), Find(router.hash, Contents, key);
              && after.Some? && after.value.versionID == versionID && after.value.writtenAt == now
              && (forall n :: n in after.value.fields <==> if n in overwrite then n in patch else before.Some? && n in before.value.fields)
              && (forall n :: n in after.value.fields ==>
                    after.value.fields[n] == if n in overwrite then patch[n] else before.value.fields[n])
    {
      hide Store.Valid, Find, Put, Merged;
      HasShards();
      MergedInPlace(router.hash, Contents, key, patch, overwrite, versionID, now);
      MergeRouted(key, patch, overwrite, versionID, now);
      Forget(key);
    }

    method Delete(key: Key)
      requires Valid()
      modifies `shards, `Contents, cache`entries, cache`Contents
      ensures Valid() && Contents == Drop(router.hash, old(Contents), key)
      ensures cache.Contents == WithoutEntity(old(cache.Contents), key)
    {
      hide Store.Valid;
      DropRouted(key);
      Forget(key);
    }

    /** Writes only when the stored version is not newer than the incoming one. */
    method CompareAndWrite(key: Key, fields: FieldMap, incoming: string, now: int) returns (ok: bool)
      requires Valid()
      modifies `shards, `Contents, `Entries, `Maps, Entries, cache`entries, cache`Contents
      ensures Valid() && fresh(Entries - old(Entries)) && fresh(Maps - old(Maps))
      ensures |old(Contents)| > 0 && ok == Admits(Find(router.hash, old(Contents), key), incoming)
      ensures var e := Find(router.hash, old(Contents), key);
              ok == (e.None? || e.value.versionID == "" || Rank(e.value.versionID) <= Rank(incoming))
      ensures Contents == if ok then Put(router.hash, old(Contents), key, EntryValue(old(fields.m), incoming, now)) else old(Contents)
      ensures cache.Contents == if ok then WithoutEntity(old(cache.Contents), key) else old(cache.Contents)
    {
      hide Store.Valid, Store.Routable, Admits, Find, Rank;
      HasShards();
      AdmitsInRanks(Find(router.hash, Contents, key), incoming);
      var newer := StoredNewer(key, incoming);
      ok := !newer;
      if ok {
        WriteAt(key, fields, incoming, now);
      }
    }

    method StoredNewer(key: Key, incoming: string) returns (newer: bool)
      requires Routable()
      ensures newer == !Admits(Find(router.hash, Contents, key), incoming)
    {
      var entry := LookupEntry(key);
      if entry == null || entry.versionID == "" {
        return false;
      }
      var current := VersionRank(entry.versionID);
      var other := VersionRank(incoming);
      newer := current > other;
    }

    /** The live record of a key. */
    method LookupEntry(key: Key) returns (e: Entry?)
      requires Routable()
      ensures e == null <==> Find(router.hash, Contents, key) == None
      ensures e != null ==> e in Entries && e.fields in Maps && e.key == key && Find(router.hash, Contents, key) == Some(e.Value())
    {
      var i := ShardIndex(key);
      assert HoldsShard(shards[i], i, Contents[i], Entries, Maps);
      e := if key in shards[i] then shards[i][key] else null;
    }

    method WrittenAt(key: Key) returns (at: Option<int>)
      requires Routable()
      ensures at == match Find(router.hash, Contents, key) case None => None case Some(v) => Some(v.writtenAt)
    {
      var e := LookupEntry(key);
      at := if e == null then None else Some(e.writtenAt);
    }

    /** A deep copy of the live entry. */
    method EntryFor(key: Key) returns (copy: Entry?)
      requires Routable()
      ensures copy == null <==> Find(router.hash, Contents, key) == None
      ensures copy != null ==> fresh(copy) && fresh(copy.fields) && copy.place == copy.fields.place == Detached
                               && Find(router.hash, Contents, key) == Some(copy.Value())
    {
      var e := LookupEntry(key);
      if e == null {
        return null;
      }
      copy := e.Clone();
    }

    method Keys(shardIndex: int) returns (out: seq<Key>)
      requires Routable()
      ensures if 0 <= shardIndex < |Contents| then multiset(out) == multiset(Contents[shardIndex].Keys) else out == []
    {
      out := [];
      if shardIndex < 0 || shardIndex >= |shards| {
        return;
      }
      assert HoldsShard(shards[shardIndex], shardIndex, Contents[shardIndex], Entries, Maps);
      var todo := shards[shardIndex].Keys;
      while todo != {}
        invariant todo <= shards[shardIndex].Keys
        invariant multiset(out) + multiset(todo) == multiset(shards[shardIndex].Keys)
      {
        var key :| key in todo;
        out := out + [key];
        todo := todo - {key};
      }
    }

    /** A snapshot of a record without the fields the version's layout does not know. */
    method EntrySnapshot(entry: Entry, versionID: string) returns (raw: Snapshot)
      requires versions.Valid()
      ensures fresh(raw) && fresh(raw.fields) && raw.fields.place == Detached
      ensures raw.Value() == SnapshotValue(entry.key, entry.versionID,
                               Filtered(entry.fields.m, LayoutOf(versions.Contents, versionID)), entry.writtenAt)
      ensures raw.entity == entry.key && raw.versionID == entry.versionID && raw.writtenAt == entry.writtenAt
      ensures var layout := if versionID in versions.Contents.versions then versions.Contents.versions[versionID].fields else [];
              && (forall n :: n in raw.fields.m <==> n in entry.fields.m && (layout == [] || n in layout))
              && (forall n :: n in raw.fields.m ==> raw.fields.m[n] == entry.fields.m[n])
    {
      raw := entry.Snapshot();
      var v: Version? := null;
      if versionID != "" {
        v := versions.Get(versionID);
      }
      if v != null && |v.fields| > 0 {
        KeepOnly(raw.fields, v.fields);
      }
    }

    /** A read under a version, or under the active one if none is named. */
    method ReadVersion(key: Key, versionID: string) returns (r: Snapshot)
      requires Valid() && versions.Valid()
      modifies cache
      ensures Valid() && fresh(r) && fresh(r.fields)
      ensures var id := if versionID == "" then ActiveID(versions.Contents) else versionID;
              && r.Value() == Answer(router.hash, Contents, old(cache.Contents), versions.Contents, key, id)
              && cache.Contents == old(cache.Contents)[CacheKey(key, id) := r.Value()]
      ensures var id := if versionID == "" then ActiveID(versions.Contents) else versionID;
              CacheKey(key, id) !in old(cache.Contents) ==>
                Shows(r.Value(), Find(router.hash, Contents, key), key, id,
                      if id in versions.Contents.versions then versions.Contents.versions[id].fields else [])
    {
      hide Store.Valid, Store.Routable, Manager.Valid, Answer, ActiveID, Shows, Find;
      var id := versionID;
      if id == "" {
        id := ResolveActiveVersionID();
      }
      r := ReadUnder(key, id);
    }

    method Read(key: Key) returns (r: Snapshot)
      requires Valid() && versions.Valid()
      modifies cache
      ensures Valid() && fresh(r) && fresh(r.fields)
      ensures var id := ActiveID(versions.Contents);
              && r.Value() == Answer(router.hash, Contents, old(cache.Contents), versions.Contents, key, id)
              && cache.Contents == old(cache.Contents)[CacheKey(key, id) := r.Value()]
      ensures var id := ActiveID(versions.Contents);
              CacheKey(key, id) !in old(cache.Contents) ==>
                Shows(r.Value(), Find(router.hash, Contents, key), key, id,
                      if id in versions.Contents.versions then versions.Contents.versions[id].fields else [])
    {
      hide Store.Valid, Store.Routable, Manager.Valid, Answer, ActiveID, Shows, Find;
      var id := ResolveActiveVersionID();
      r := ReadUnder(key, id);
    }

    method ResolveActiveVersionID() returns (id: string)
      requires versions.Valid()
      ensures id == ActiveID(versions.Contents)
      ensures var m := versions.Contents; id == if m.activeID in m.versions && m.versions[m.activeID].state == Published then m.activeID else ""
    {
      var v := versions.ResolveActiveVersion();
      id := if v == null then "" else v.id;
    }

    method ReadUnder(key: Key, versionID: string) returns (r: Snapshot)
      requires Valid() && versions.Valid()
      modifies cache
      ensures Valid() && fresh(r) && fresh(r.fields)
      ensures r.Value() == Answer(router.hash, Contents, old(cache.Contents), versions.Contents, key, versionID)
      ensures cache.Contents == old(cache.Contents)[CacheKey(key, versionID) := r.Value()]
      ensures CacheKey(key, versionID) !in old(cache.Contents) ==>
                Shows(r.Value(), Find(router.hash, Contents, key), key, versionID,
                      if versionID in versions.Contents.versions then versions.Contents.versions[versionID].fields else [])
    {
      hide Store.CellsOK, Answer, ReadCache.Valid, Manager.Valid, Find, Shows, CacheKey;
      Separate();
      NoEmptyVersion();
      UncachedShows(router.hash, Contents, cache.Contents, versions.Contents, key, versionID);
      r := AnswerRead(key, versionID);
    }

    lemma NoEmptyVersion()
      requires versions.Valid()
      ensures "" !in versions.Contents.versions
    {
    }

    /** The part Read and ReadVersion share: the cache, then the shards. The caller gets a copy of its own. */
    method AnswerRead(key: Key, versionID: string) returns (r: Snapshot)
      requires Routable() && cache.Valid() && versions.Valid()
      modifies cache
      ensures cache.Valid() && fresh(r) && fresh(r.fields)
      ensures r.Value() == Answer(router.hash, Contents, old(cache.Contents), versions.Contents, key, versionID)
      ensures cache.Contents == old(cache.Contents)[CacheKey(key, versionID) := r.Value()]
    {
      var cached := FromCache(key, versionID);
      if cached == null {
        var snap := BuildView(key, versionID);
        r := Fill(key, versionID, snap);
      } else {
        r := cached;
        SameUpdate(cache.Contents, CacheKey(key, versionID));
      }
    }

    method FromCache(key: Key, versionID: string) returns (r: Snapshot?)
      requires cache.Valid()
      ensures r == null <==> CacheKey(key, versionID) !in cache.Contents
      ensures r != null ==> fresh(r) && fresh(r.fields) && r.Value() == cache.Contents[CacheKey(key, versionID)]
    {
      var cached := cache.Get(key, versionID);
      if cached.None? {
        return null;
      }
      r := cached.value.Clone();
    }

    /** Caches a copy of the snapshot and returns another. */
    method Fill(key: Key, versionID: string, snap: Snapshot) returns (r: Snapshot)
      requires cache.Valid()
      modifies cache
      ensures cache.Valid() && fresh(r) && fresh(r.fields) && r.Value() == old(snap.Value())
      ensures cache.Contents == old(cache.Contents)[CacheKey(key, versionID) := r.Value()]
    {
      cache.Put(key, versionID, snap);
      r := snap.Clone();
    }

    method BuildView(key: Key, versionID: string) returns (snap: Snapshot)
      requires Routable() && versions.Valid()
      ensures fresh(snap) && fresh(snap.fields) && snap.fields.place == Detached
      ensures snap.Value() == View(Find(router.hash, Contents, key), versions.Contents, key, versionID)
    {
      var entry := LookupEntry(key);
      if entry == null {
        var none := new FieldMap(Detached);
        snap := new Snapshot(key, versionID, none, ZERO_TIME);
      } else {
        snap := EntrySnapshot(entry, versionID);
      }
    }

    /** Puts one before-image back. */
    method Revert(op: JournalOp, ghost v: OpValue)
      requires Valid() && Stored(op, v, journal.Copies, journal.Maps)
      modifies `shards, `Contents, `Entries, `Maps, Entries, cache`entries, cache`Contents
      ensures Valid() && fresh(Entries - old(Entries)) && fresh(Maps - old(Maps))
      ensures Contents == RestoreIn(router.hash, old(Contents), v.key, v.before)
      ensures cache.Contents == WithoutEntity(old(cache.Contents), v.key)
    {
      if op.before == null {
        Delete(op.key);
      } else {
        WriteAt(op.key, op.before.fields, op.before.versionID, op.before.writtenAt);
      }
    }

    /** One operation of the replay: ops[i] reads as the i-th operation of the batch. */
    method RevertStep(ops: seq<JournalOp>, i: nat, batch: string, seen: set<Key>) returns (now: set<Key>)
      requires Valid() && ops == OpsOf(journal.buf[..journal.len], batch)
      requires i < |ops| == |OpsOf(journal.Contents, batch)|
      modifies `shards, `Contents, `Entries, `Maps, Entries, cache`entries, cache`Contents
      ensures Valid() && fresh(Entries - old(Entries)) && fresh(Maps - old(Maps)) && |Contents| > 0
      ensures Replayed(Contents, cache.Contents, OpsOf(journal.Contents, batch)[i + 1..], now) ==
              Replayed(old(Contents), old(cache.Contents), OpsOf(journal.Contents, batch)[i..], seen)
    {
      now := seen;
      ghost var vals := OpsOf(journal.Contents, batch);
      assert vals[i..][0] == vals[i] && vals[i..][1..] == vals[i + 1..];
      journal.StoredOp(batch, i);
      if ops[i].key !in seen {
        Revert(ops[i], vals[i]);
        now := seen + {ops[i].key};
      }
    }

    /** Restores the first before-image of each key among the operations of a batch. */
    method RevertAll(ops: seq<JournalOp>, batch: string)
      requires Valid() && ops == OpsOf(journal.buf[..journal.len], batch) && |ops| == |OpsOf(journal.Contents, batch)|
      modifies `shards, `Contents, `Entries, `Maps, Entries, cache`entries, cache`Contents
      ensures Valid() && fresh(Entries - old(Entries)) && fresh(Maps - old(Maps))
      ensures Replayed(old(Contents), old(cache.Contents), OpsOf(journal.Contents, batch), {}) == (Contents, cache.Contents)
    {
      hide Store.Valid;
      HasShards();
      var seen: set<Key> := {};
      for i := 0 to |ops|
        invariant Valid() && fresh(Entries - old(Entries)) && fresh(Maps - old(Maps)) && |Contents| > 0
        invariant Replayed(Contents, cache.Contents, OpsOf(journal.Contents, batch)[i..], seen) ==
                  Replayed(old(Contents), old(cache.Contents), OpsOf(journal.Contents, batch), {})
      {
        seen := RevertStep(ops, i, batch, seen);
      }
    }

    /** The shards and the cache after a replay. */
    ghost function Replayed(s: Shards, c: CacheMap, ops: seq<OpValue>, seen: set<Key>): (Shards, CacheMap)
      requires |s| > 0
    {
      (UndoShards(router.hash, s, ops, seen), Forgotten(c, ops, seen))
    }

    /** Reverts the first journaled write of each key of the batch, then clears the batch from the journal. */
    method RollbackBatch(batch: string)
      requires Valid()
      modifies `shards, `Contents, `Entries, `Maps, Entries, cache`entries, cache`Contents
      modifies journal`len, journal`Contents, journal`byKey, journal.buf
      ensures Valid() && fresh(Entries - old(Entries)) && fresh(Maps - old(Maps))
      ensures Contents == UndoShards(router.hash, old(Contents), OpsOf(old(journal.Contents), batch), {})
      ensures cache.Contents == Forgotten(old(cache.Contents), OpsOf(old(journal.Contents), batch), {})
      ensures journal.Contents == Without(old(journal.Contents), batch)
    {
      hide Store.Valid, UndoShards, Forgotten, OpsOf, Without;
      JournalOK();
      var ops := journal.OpsFor(batch);
      RevertAll(ops, batch);
      ClearJournal(batch);
    }

    method ClearJournal(batch: string)
      requires Valid()
      modifies journal`len, journal`Contents, journal`byKey, journal.buf
      ensures Valid() && journal.Contents == Without(old(journal.Contents), batch)
    {
      journal.Clear(batch);
    }

    /** Old shards keep their data; nothing is moved and the cache is not cleared. */
    method ExpandShards(newCount: int)
      requires Consistent()
      modifies `shards, `Contents
      ensures Consistent() && Contents == Grown(old(Contents), newCount)
      ensures router.shardCount == |Contents| ==> Valid()
    {
      if newCount <= |shards| {
        return;
      }
      Contents := Grown(Contents, newCount);
      shards := shards + EmptyShards(newCount - |shards|);
      forall j | 0 <= j < |shards| ensures HoldsShard(shards[j], j, Contents[j], Entries, Maps) {
        assert j < |old(shards)| ==> HoldsShard(old(shards)[j], j, old(Contents)[j], Entries, Maps);
      }
    }
  }

  /** Deletes every field the layout does not name. */
  method KeepOnly(fields: FieldMap, layout: seq<string>)
    modifies fields
    ensures fields.m == map n | n in old(fields.m) && n in layout :: old(fields.m)[n]
  {
    var allowed := set n | n in layout;
    var todo := fields.m.Keys;
    while todo != {}
      invariant todo <= old(fields.m).Keys
      invariant fields.m == map n | n in old(fields.m) && (n in todo || n in layout) :: old(fields.m)[n]
    {
      var name :| name in todo;
      if name !in allowed {
        fields.m := fields.m - {name};
      }
      todo := todo - {name};
    }
  }

  lemma SameUpdate(c: CacheMap, k: string)
    requires k in c
    ensures c[k := c[k]] == c
  {
  }

  lemma MergeStep(fields: Fields, patch: Fields, overwrite: seq<string>, i: nat)
    requires i < |overwrite|
    ensures MergeFields(fields, patch, overwrite[..i + 1]) ==
            if overwrite[i] in patch then MergeFields(fields, patch, overwrite[..i])[overwrite[i] := patch[overwrite[i]]]
            else MergeFields(fields, patch, overwrite[..i]) - {overwrite[i]}
  {
  }

  method MergeRecord(e: Entry, patch: Fields, overwrite: seq<string>, versionID: string, now: int)
    modifies e, e.fields
    ensures e.fields == old(e.fields)
    ensures e.Value() == EntryValue(MergeFields(old(e.fields.m), patch, overwrite), versionID, now)
  {
    MergeInto(e.fields, patch, overwrite);
    e.Set(e.fields, versionID, now);
  }

  method MergeInto(fields: FieldMap, patch: Fields, overwrite: seq<string>)
    modifies fields
    ensures fields.m == MergeFields(old(fields.m), patch, overwrite)
  {
    for i := 0 to |overwrite|
      invariant fields.m == MergeFields(old(fields.m), patch, overwrite[..i])
    {
      MergeStep(old(fields.m), patch, overwrite, i);
      var name := overwrite[i];
      if name in patch {
        fields.m := fields.m[name := patch[name]];
      } else {
        fields.m := fields.m - {name};
      }
    }
    assert overwrite[..|overwrite|] == overwrite;
  }

  /** A routed merge, field by field. */
  lemma MergedInPlace(hash: HashFn, s: Shards, key: Key, patch: Fields, overwrite: seq<string>, versionID: string, now: int)
    requires |s| > 0
    ensures var before := Find(hash, s, key);
            var t := Put(hash, s, key, Merged(before, patch, overwrite, versionID, now));
            var after := Find(hash, t, key);
            && |t| > 0 && after.Some? && after.value.versionID == versionID && after.value.writtenAt == now
            && (forall n :: n in after.value.fields <==> if n in overwrite then n in patch else before.Some? && n in before.value.fields)
            && (forall n :: n in after.value.fields ==>
                  after.value.fields[n] == if n in overwrite then patch[n] else before.value.fields[n])
  {
    hide Merged;
    forall n {
      MergedEntry(Find(hash, s, key), patch, overwrite, versionID, now, n);
    }
  }

  lemma UncachedShows(hash: HashFn, s: Shards, cache: CacheMap, vm: ManagerValue, key: Key, versionID: string)
    requires |s| > 0 && "" !in vm.versions
    ensures CacheKey(key, versionID) !in cache ==>
              Shows(Answer(hash, s, cache, vm, key, versionID), Find(hash, s, key), key, versionID,
                    if versionID in vm.versions then vm.versions[versionID].fields else [])
  {
    hide Shows, View, Find;
    ViewShows(Find(hash, s, key), vm, key, versionID);
  }
}
