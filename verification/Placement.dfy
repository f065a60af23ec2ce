/** The contents of the shards as values, and the flat map they place. */
module Placement {
  import opened Model
  import opened Routing
  import opened Cache
  import opened Ranks
  import opened Versions

  type Shards = seq<Live>

  function Find(hash: HashFn, s: Shards, key: Key): Option<EntryValue>
    requires |s| > 0
  {
    Lookup(s[Slot(hash, key, |s|)], key)
  }

  function PutAt(s: Shards, i: int, key: Key, v: EntryValue): Shards
    requires 0 <= i < |s|
  {
    s[i := s[i][key := v]]
  }

  function DropAt(s: Shards, i: int, key: Key): Shards
    requires 0 <= i < |s|
  {
    s[i := s[i] - {key}]
  }

  function Put(hash: HashFn, s: Shards, key: Key, v: EntryValue): Shards
    requires |s| > 0
  {
    PutAt(s, Slot(hash, key, |s|), key, v)
  }

  function Drop(hash: HashFn, s: Shards, key: Key): Shards
    requires |s| > 0
  {
    DropAt(s, Slot(hash, key, |s|), key)
  }

  function EmptyShards<V>(n: nat): (s: seq<map<Key, V>>)
    ensures |s| == n && forall i :: 0 <= i < n ==> s[i] == map[]
  {
    seq(n, i => map[])
  }

  /** Shard growth: old shards keep their data. */
  function Grown(s: Shards, count: int): Shards
    ensures |Grown(s, count)| >= |s|
  {
    if count <= |s| then s else s + EmptyShards(count - |s|)
  }

  ghost function StoredKeys(s: Shards): set<Key> {
    set i, k | 0 <= i < |s| && k in s[i] :: k
  }

  /** The entries reachable through routing, as one flat map. */
  ghost function LiveOf(hash: HashFn, s: Shards): Live
    requires |s| > 0
  {
    map k | k in StoredKeys(s) && Find(hash, s, k).Some? :: Find(hash, s, k).value
  }

  /** The entries of one shard that routing no longer reaches there. */
  ghost function Strays(hash: HashFn, s: Shards, i: int): Live
    requires 0 <= i < |s|
  {
    map k | k in s[i] && Slot(hash, k, |s|) != i :: s[i][k]
  }

  ghost predicate SameStrays(hash: HashFn, s: Shards, t: Shards) {
    |s| == |t| && forall i :: 0 <= i < |s| ==> Strays(hash, s, i) == Strays(hash, t, i)
  }

  lemma LiveIsFind(hash: HashFn, s: Shards, key: Key)
    requires |s| > 0
    ensures Lookup(LiveOf(hash, s), key) == Find(hash, s, key)
  {
  }

  /** Live entries and strays together are the whole store. */
  lemma LiveAndStrays(hash: HashFn, s: Shards, t: Shards)
    requires |s| > 0 && SameStrays(hash, s, t) && LiveOf(hash, s) == LiveOf(hash, t)
    ensures s == t
  {
    forall i | 0 <= i < |s| ensures s[i] == t[i] {
      assert Strays(hash, s, i) == Strays(hash, t, i);
      forall k ensures Lookup(s[i], k) == Lookup(t[i], k) {
        if Slot(hash, k, |s|) == i {
          LiveIsFind(hash, s, k);
          LiveIsFind(hash, t, k);
        } else {
          assert Lookup(s[i], k) == Lookup(Strays(hash, s, i), k);
          assert Lookup(t[i], k) == Lookup(Strays(hash, t, i), k);
        }
      }
      SameLookups(s[i], t[i]);
    }
  }

  lemma SameLookups(a: Live, b: Live)
    requires forall k :: Lookup(a, k) == Lookup(b, k)
    ensures a == b
  {
    forall k ensures k in a <==> k in b {
      assert Lookup(a, k) == Lookup(b, k);
    }
    forall k | k in a ensures a[k] == b[k] {
      assert Lookup(a, k) == Lookup(b, k);
    }
  }

  lemma PutAtTwice(s: Shards, i: int, key: Key, first: EntryValue, second: EntryValue)
    requires 0 <= i < |s|
    ensures PutAt(PutAt(s, i, key, first), i, key, second) == PutAt(s, i, key, second)
  {
    assert s[i][key := first][key := second] == s[i][key := second];
  }

  lemma PutAtSame(s: Shards, i: int, key: Key)
    requires 0 <= i < |s| && key in s[i]
    ensures PutAt(s, i, key, s[i][key]) == s
  {
    assert s[i][key := s[i][key]] == s[i];
  }

  /** A routed write is an update of the flat map and touches nothing else. */
  lemma PutIsUpdate(hash: HashFn, s: Shards, key: Key, v: EntryValue)
    requires |s| > 0
    ensures LiveOf(hash, Put(hash, s, key, v)) == LiveOf(hash, s)[key := v]
    ensures SameStrays(hash, s, Put(hash, s, key, v))
  {
    var t := Put(hash, s, key, v);
    forall k ensures Lookup(LiveOf(hash, t), k) == Lookup(LiveOf(hash, s)[key := v], k) {
      LiveIsFind(hash, s, k);
      LiveIsFind(hash, t, k);
    }
    SameLookups(LiveOf(hash, t), LiveOf(hash, s)[key := v]);
  }

  lemma DropIsRemoval(hash: HashFn, s: Shards, key: Key)
    requires |s| > 0
    ensures LiveOf(hash, Drop(hash, s, key)) == LiveOf(hash, s) - {key}
    ensures SameStrays(hash, s, Drop(hash, s, key))
  {
    var t := Drop(hash, s, key);
    forall k ensures Lookup(LiveOf(hash, t), k) == Lookup(LiveOf(hash, s) - {key}, k) {
      LiveIsFind(hash, s, k);
      LiveIsFind(hash, t, k);
    }
    SameLookups(LiveOf(hash, t), LiveOf(hash, s) - {key});
  }

  /** Expansion conserves every stored (shard, key, entry) and adds none. */
  lemma GrowthConserves(s: Shards, count: int, i: int, key: Key)
    requires 0 <= i < |Grown(s, count)|
    ensures Lookup(Grown(s, count)[i], key) == if i < |s| then Lookup(s[i], key) else None
  {
  }

  /** What routing finds after an expansion: the new slot's own copy if that slot existed before, nothing if it is new. */
  lemma GrowthFind(hash: HashFn, s: Shards, count: int, key: Key)
    requires |s| > 0 && count > |s|
    ensures var r := hash(key) % count;
            Find(hash, Grown(s, count), key) == if r < |s| then Lookup(s[r], key) else None
  {
    GrowthConserves(s, count, Slot(hash, key, count), key);
  }

  /**
   A stored key is still found after an expansion exactly when its hash leaves the same remainder under
   both counts, or the new remainder names an old shard that holds a stray copy of it; and what is found
   is the entry found before exactly when, in the second case, the copy equals it.
   */
  lemma GrowthReach(hash: HashFn, s: Shards, count: int, key: Key)
    requires |s| > 0 && count > |s| && Find(hash, s, key).Some?
    ensures var r := hash(key) % count;
            && (Find(hash, Grown(s, count), key).Some? <==> r == hash(key) % |s| || (r < |s| && key in s[r]))
            && (Find(hash, Grown(s, count), key) == Find(hash, s, key) <==>
                  r == hash(key) % |s| || (r < |s| && key in s[r] && s[r][key] == Find(hash, s, key).value))
  {
    GrowthFind(hash, s, count, key);
  }

  /** A key written after an expansion is found by the next routed read. */
  lemma WriteAfterGrowth(hash: HashFn, s: Shards, count: int, key: Key, v: EntryValue)
    requires |s| > 0
    ensures Find(hash, Put(hash, Grown(s, count), key, v), key) == Some(v)
  {
  }

  /** The fields a merge leaves: the patch inside the window, the old fields outside it. */
  function MergeFields(fields: Fields, patch: Fields, overwrite: seq<string>): Fields {
    map n | n in fields.Keys + patch.Keys && (if n in overwrite then n in patch else n in fields)
      :: if n in overwrite then patch[n] else fields[n]
  }

  function FieldsOf(e: Option<EntryValue>): Fields {
    match e
    case None => map[]
    case Some(v) => v.fields
  }

  function Merged(e: Option<EntryValue>, patch: Fields, overwrite: seq<string>, versionID: string, now: int): EntryValue {
    EntryValue(MergeFields(FieldsOf(e), patch, overwrite), versionID, now)
  }

  /** A merge replaces exactly the fields of the window, and stamps the entry whether it was stored or not. */
  lemma MergedEntry(e: Option<EntryValue>, patch: Fields, overwrite: seq<string>, versionID: string, now: int, n: string)
    ensures var r := Merged(e, patch, overwrite, versionID, now);
            && r.versionID == versionID && r.writtenAt == now
            && (n in r.fields <==> if n in overwrite then n in patch else e.Some? && n in e.value.fields)
            && (n in r.fields ==> r.fields[n] == if n in overwrite then patch[n] else e.value.fields[n])
  {
  }

  /** The guard of a compare-and-write: the stored version is not newer than the incoming one. */
  predicate Admits(e: Option<EntryValue>, incoming: string) {
    !(e.Some? && e.value.versionID != "" && VersionNewer(e.value.versionID, incoming))
  }

  /** The guard in ranks: over nothing, over an unnamed version, or over one of no higher rank. */
  lemma AdmitsInRanks(e: Option<EntryValue>, incoming: string)
    ensures Admits(e, incoming) <==> e.None? || e.value.versionID == "" || Rank(e.value.versionID) <= Rank(incoming)
  {
    hide Rank;
  }

  /** Among the first nine versions a write is admitted exactly in creation order, whatever the tables. */
  lemma AdmitsInOrder(e: EntryValue, t: string, a: nat, u: string, b: nat)
    requires e.versionID == Mint(t, a) && 1 <= a <= 9 && 1 <= b <= 9
    ensures Admits(Some(e), Mint(u, b)) <==> a <= b
  {
    hide Rank, Mint;
    AdmitsInRanks(Some(e), Mint(u, b));
    SmallRank(t, a);
    SmallRank(u, b);
  }

  /** The tenth version ranks 1, so it is refused over each of the second to the ninth. */
  lemma TenthIsRefused(e: EntryValue, t: string, a: nat, u: string)
    requires e.versionID == Mint(t, a) && 2 <= a <= 9
    ensures !Admits(Some(e), Mint(u, 10))
  {
    hide Rank, Mint;
    AdmitsInRanks(Some(e), Mint(u, 10));
    SmallRank(t, a);
    RankOfTen(u);
    MintNotEmpty(t, a);
  }

  lemma MintNotEmpty(t: string, n: nat)
    ensures Mint(t, n) != ""
  {
  }

  /** The field layout a read under a version is filtered to; an empty layout filters nothing. */
  function LayoutOf(vm: ManagerValue, versionID: string): seq<string> {
    if versionID != "" && versionID in vm.versions then vm.versions[versionID].fields else []
  }

  function Filtered(fields: Fields, layout: seq<string>): Fields {
    if layout == [] then fields else map n | n in fields && n in layout :: fields[n]
  }

  /** The uncached read of an entity under a version. */
  function View(e: Option<EntryValue>, vm: ManagerValue, key: Key, versionID: string): SnapshotValue {
    match e
    case None => EmptySnapshot(key, versionID)
    case Some(v) => SnapshotValue(key, v.versionID, Filtered(v.fields, LayoutOf(vm, versionID)), v.writtenAt)
  }

  function ActiveID(vm: ManagerValue): string {
    match ResolveActive(vm)
    case None => ""
    case Some(v) => v.id
  }

  /** The version that resolves: the one pointed to, while it is published. */
  lemma ActiveIDIs(vm: ManagerValue)
    requires vm.activeID in vm.versions ==> vm.versions[vm.activeID].id == vm.activeID
    ensures ActiveID(vm) == if vm.activeID in vm.versions && vm.versions[vm.activeID].state == Published then vm.activeID else ""
  {
  }

  /**
   What a read shows of an entry, field by field: entity, version and write time, and the fields that the layout
   names, if there is a layout to name any. An absent entry reads as empty under the version asked for.
   */
  ghost predicate Shows(r: SnapshotValue, e: Option<EntryValue>, key: Key, versionID: string, layout: seq<string>) {
    && r.entity == key
    && r.versionID == (if e.Some? then e.value.versionID else versionID)
    && r.writtenAt == (if e.Some? then e.value.writtenAt else ZERO_TIME)
    && (forall n :: n in r.fields <==> e.Some? && n in e.value.fields && (layout == [] || n in layout))
    && (forall n :: n in r.fields ==> r.fields[n] == e.value.fields[n])
  }

  /** The layout is that of the version, if it is registered. */
  lemma ViewShows(e: Option<EntryValue>, vm: ManagerValue, key: Key, versionID: string)
    requires "" !in vm.versions
    ensures Shows(View(e, vm, key, versionID), e, key, versionID, if versionID in vm.versions then vm.versions[versionID].fields else [])
  {
  }

  /** What a read returns: the cached snapshot if there is one, else the view. */
  function Answer(hash: HashFn, s: Shards, cache: CacheMap, vm: ManagerValue, key: Key, versionID: string): SnapshotValue
    requires |s| > 0
  {
    if CacheKey(key, versionID) in cache then cache[CacheKey(key, versionID)]
    else View(Find(hash, s, key), vm, key, versionID)
  }
}
