/** Time-to-live expiry: a scan removes the routed entries older than the limit, and nothing else. */
module Expiry {
  import opened Model
  import opened Routing
  import opened Placement
  import opened Undoing
  import opened Stores

  /** Strictly past the limit: an entry exactly ttl old is kept. */
  predicate Expired(e: EntryValue, ttl: int, now: int) {
    now - e.writtenAt > ttl
  }

  function ExpiredKeys(live: Live, ttl: int, now: int): set<Key> {
    set k | k in live && Expired(live[k], ttl, now)
  }

  function AfterScan(live: Live, ttl: int, now: int): Live {
    map k | k in live && !Expired(live[k], ttl, now) :: live[k]
  }

  /**
   In instants: an entry is kept, as it is, until the limit after its write and at that instant; the others are
   counted.
   */
  lemma ScanInInstants(live: Live, ttl: int, now: int)
    ensures forall key :: key in AfterScan(live, ttl, now) <==> key in live && now <= live[key].writtenAt + ttl
    ensures forall key :: key in AfterScan(live, ttl, now) ==> AfterScan(live, ttl, now)[key] == live[key]
    ensures |ExpiredKeys(live, ttl, now)| == |live| - |AfterScan(live, ttl, now)|
  {
    var kept, gone := AfterScan(live, ttl, now).Keys, ExpiredKeys(live, ttl, now);
    assert live.Keys == kept + gone && kept !! gone;
    assert |kept + gone| == |kept| + |gone|;
    assert |live| == |live.Keys| && |AfterScan(live, ttl, now)| == |kept|;
  }

  /** A second scan at the same time finds nothing; a later one finds what a single later scan would have. */
  lemma ScanTwice(live: Live, ttl: int, first: int, second: int)
    requires first <= second
    ensures ExpiredKeys(AfterScan(live, ttl, first), ttl, first) == {}
    ensures AfterScan(AfterScan(live, ttl, first), ttl, second) == AfterScan(live, ttl, second)
    ensures |ExpiredKeys(live, ttl, first)| + |ExpiredKeys(AfterScan(live, ttl, first), ttl, second)| == |ExpiredKeys(live, ttl, second)|
  {
    var early, late := ExpiredKeys(live, ttl, first), ExpiredKeys(AfterScan(live, ttl, first), ttl, second);
    assert ExpiredKeys(live, ttl, second) == early + late && early !! late;
  }

  /** The live entries once the listed keys have been checked. */
  function Swept(live: Live, ttl: int, now: int, seen: set<Key>): Live {
    map k | k in live && !(k in seen && Expired(live[k], ttl, now)) :: live[k]
  }

  /** A listed key is expired the first time it is met, and never again. */
  lemma SweepStep(live: Live, ttl: int, now: int, seen: set<Key>, key: Key)
    ensures var at := Swept(live, ttl, now, seen);
            var gone := key in at && Expired(at[key], ttl, now);
            && Swept(live, ttl, now, seen + {key}) == (if gone then at - {key} else at)
            && |ExpiredKeys(live, ttl, now) * (seen + {key})| == |ExpiredKeys(live, ttl, now) * seen| + if gone then 1 else 0
  {
    hide Expired;
    OneMore(ExpiredKeys(live, ttl, now), seen, key);
  }

  lemma OneMore(all: set<Key>, seen: set<Key>, key: Key)
    ensures |all * (seen + {key})| == |all * seen| + if key in all && key !in seen then 1 else 0
  {
    assert all * (seen + {key}) == all * seen + (if key in all && key !in seen then {key} else {});
  }

  lemma SweepDone(live: Live, ttl: int, now: int, seen: set<Key>)
    requires ExpiredKeys(live, ttl, now) <= seen
    ensures Swept(live, ttl, now, seen) == AfterScan(live, ttl, now)
    ensures ExpiredKeys(live, ttl, now) * seen == ExpiredKeys(live, ttl, now)
  {
  }

  /** Every expired key routed to one of the first n shards has been met. */
  ghost predicate Covered(hash: HashFn, count: int, live: Live, ttl: int, now: int, seen: set<Key>, n: int) {
    forall k :: k in ExpiredKeys(live, ttl, now) && Slot(hash, k, count) < n ==> k in seen
  }

  /** Listing a shard meets every expired key routed to it that is still there. */
  lemma ShardCovered(hash: HashFn, s: Shards, live: Live, ttl: int, now: int, seen: set<Key>, n: nat)
    requires n < |s| && LiveOf(hash, s) == Swept(live, ttl, now, seen)
    requires Covered(hash, |s|, live, ttl, now, seen, n)
    ensures Covered(hash, |s|, live, ttl, now, seen + s[n].Keys, n + 1)
  {
    forall k | k in ExpiredKeys(live, ttl, now) && Slot(hash, k, |s|) < n + 1 ensures k in seen + s[n].Keys {
      if Slot(hash, k, |s|) == n && k !in seen {
        LiveIsFind(hash, s, k);
        assert k in Swept(live, ttl, now, seen);
      }
    }
  }

  const DAY := 86_400_000_000_000

  class Scanner {
    const store: Store
    const ttl: int

    constructor (store: Store, ttl: int)
      ensures this.store == store && this.ttl == if ttl <= 0 then DAY else ttl
    {
      this.store := store;
      this.ttl := if ttl <= 0 then DAY else ttl;
    }

    ghost function LiveNow(): Live
      requires |store.Contents| > 0
      reads store`Contents
    {
      LiveOf(store.router.hash, store.Contents)
    }

    predicate IsExpired(age: int) {
      age > ttl
    }

    /** Deletes the routed entry of a key if it is past the limit. */
    method ExpireKey(key: Key, now: int) returns (gone: bool)
      requires store.Valid() && |store.Contents| > 0
      modifies store`shards, store`Contents, store.cache`entries, store.cache`Contents
      ensures store.Valid() && |store.Contents| == old(|store.Contents|)
      ensures gone == (key in old(LiveNow()) && Expired(old(LiveNow())[key], ttl, now))
      ensures gone == (key in old(LiveNow()) && now > old(LiveNow())[key].writtenAt + ttl)
      ensures LiveNow() == if gone then old(LiveNow()) - {key} else old(LiveNow())
      ensures SameStrays(store.router.hash, old(store.Contents), store.Contents)
    {
      hide Store.Valid, Store.Routable, SameStrays, LiveOf, Drop, Find;
      store.HasShards();
      LiveIsFind(store.router.hash, store.Contents, key);
      DropIsRemoval(store.router.hash, store.Contents, key);
      DropKeepsCount(store.router.hash, store.Contents, key);
      SameStraysReflexive(store.router.hash, store.Contents);
      var writtenAt := store.WrittenAt(key);
      if writtenAt.None? {
        return false;
      }
      if !IsExpired(now - writtenAt.value) {
        return false;
      }
      store.Delete(key);
      gone := true;
    }

    /** The keys of one shard, as listed before any of them is expired. */
    method ScanShard(shard: nat, now: int, ghost live: Live, ghost seen: set<Key>, ghost first: Shards)
      returns (expired: nat, ghost met: set<Key>)
      requires store.Valid() && shard < |store.Contents| && LiveNow() == Swept(live, ttl, now, seen)
      requires SameStrays(store.router.hash, first, store.Contents)
      requires Covered(store.router.hash, |store.Contents|, live, ttl, now, seen, shard)
      modifies store`shards, store`Contents, store.cache`entries, store.cache`Contents
      ensures store.Valid() && |store.Contents| == old(|store.Contents|)
      ensures LiveNow() == Swept(live, ttl, now, met)
      ensures |ExpiredKeys(live, ttl, now) * met| == |ExpiredKeys(live, ttl, now) * seen| + expired
      ensures SameStrays(store.router.hash, first, store.Contents)
      ensures Covered(store.router.hash, |store.Contents|, live, ttl, now, met, shard + 1)
    {
      hide Store.Valid, Store.Routable, SameStrays, LiveOf, Swept, ExpiredKeys, Covered, Expired;
      store.HasShards();
      ShardCovered(store.router.hash, store.Contents, live, ttl, now, seen, shard);
      ghost var listed := store.Contents[shard].Keys;
      var keys := store.Keys(shard);
      ListedExactly(keys, listed);
      expired := 0;
      met := seen;
      for i := 0 to |keys|
        invariant store.Valid() && |store.Contents| == old(|store.Contents|)
        invariant met == seen + set k | k in keys[..i]
        invariant LiveNow() == Swept(live, ttl, now, met)
        invariant |ExpiredKeys(live, ttl, now) * met| == |ExpiredKeys(live, ttl, now) * seen| + expired
        invariant SameStrays(store.router.hash, first, store.Contents)
      {
        ghost var before := store.Contents;
        SweepStep(live, ttl, now, met, keys[i]);
        assert keys[..i + 1] == keys[..i] + [keys[i]];
        met := met + {keys[i]};
        var gone := ExpireKey(keys[i], now);
        SameStraysTransitive(store.router.hash, first, before, store.Contents);
        if gone {
          expired := expired + 1;
        }
      }
      assert keys[..|keys|] == keys;
      assert met == seen + listed;
    }

    /** Every shard in turn. */
    method ScanShards(now: int, ghost live: Live, ghost first: Shards) returns (expired: nat, ghost seen: set<Key>)
      requires store.Valid() && |store.Contents| > 0 && LiveNow() == live && store.Contents == first
      modifies store`shards, store`Contents, store.cache`entries, store.cache`Contents
      ensures store.Valid() && |store.Contents| == |first|
      ensures LiveNow() == Swept(live, ttl, now, seen)
      ensures expired == |ExpiredKeys(live, ttl, now) * seen|
      ensures SameStrays(store.router.hash, first, store.Contents)
      ensures Covered(store.router.hash, |first|, live, ttl, now, seen, |first|)
    {
      hide Store.Valid, Store.Routable, SameStrays, LiveOf, Swept, ExpiredKeys, Covered, AfterScan;
      store.HasShards();
      SameStraysReflexive(store.router.hash, first);
      NothingSwept(store.router.hash, first, live, ttl, now);
      var shardCount := store.ShardCount();
      expired, seen := 0, {};
      for shard := 0 to shardCount
        invariant store.Valid() && |store.Contents| == |first|
        invariant LiveNow() == Swept(live, ttl, now, seen)
        invariant expired == |ExpiredKeys(live, ttl, now) * seen|
        invariant SameStrays(store.router.hash, first, store.Contents)
        invariant Covered(store.router.hash, |first|, live, ttl, now, seen, shard)
      {
        var n;
        n, seen := ScanShard(shard, now, live, seen, first);
        expired := expired + n;
      }
    }

    /** Removes every routed entry older than the limit and counts them; stray copies are left alone. */
    method Scan(now: int) returns (expired: nat)
      requires store.Valid() && |store.Contents| > 0
      modifies store`shards, store`Contents, store.cache`entries, store.cache`Contents
      ensures store.Valid() && |store.Contents| == old(|store.Contents|)
      ensures LiveNow() == AfterScan(old(LiveNow()), ttl, now)
      ensures expired == |ExpiredKeys(old(LiveNow()), ttl, now)|
      ensures forall key :: key in LiveNow() <==> key in old(LiveNow()) && now <= old(LiveNow())[key].writtenAt + ttl
      ensures forall key :: key in LiveNow() ==> LiveNow()[key] == old(LiveNow())[key]
      ensures expired == |old(LiveNow())| - |LiveNow()|
      ensures SameStrays(store.router.hash, old(store.Contents), store.Contents)
    {
      hide Store.Valid, SameStrays, Swept, ExpiredKeys, Covered, AfterScan, Scanner.LiveNow;
      ghost var live, first, seen := LiveNow(), store.Contents, {};
      expired, seen := ScanShards(now, live, first);
      AllCovered(store.router.hash, |first|, live, ttl, now, seen);
      SweepDone(live, ttl, now, seen);
      ScanInInstants(live, ttl, now);
    }
  }

  lemma DropKeepsCount(hash: HashFn, s: Shards, key: Key)
    requires |s| > 0
    ensures |Drop(hash, s, key)| == |s|
  {
  }

  lemma ListedExactly(keys: seq<Key>, listed: set<Key>)
    requires multiset(keys) == multiset(listed)
    ensures (set k | k in keys) == listed
  {
    forall k ensures k in keys <==> k in listed {
      assert k in keys <==> k in multiset(keys);
    }
  }

  lemma NothingSwept(hash: HashFn, s: Shards, live: Live, ttl: int, now: int)
    ensures Swept(live, ttl, now, {}) == live
    ensures |ExpiredKeys(live, ttl, now) * {}| == 0 && Covered(hash, |s|, live, ttl, now, {}, 0)
  {
  }

  lemma AllCovered(hash: HashFn, count: nat, live: Live, ttl: int, now: int, seen: set<Key>)
    requires count > 0 && Covered(hash, count, live, ttl, now, seen, count)
    ensures ExpiredKeys(live, ttl, now) <= seen
  {
  }
}
