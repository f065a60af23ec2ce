/** The online read cache, keyed by the string entity@version. */
module Cache {
  import opened Text
  import opened Model

  type CacheMap = map<string, SnapshotValue>

  function CacheKey(entity: Key, versionID: string): string {
    entity + "@" + versionID
  }

  /** What InvalidateEntity leaves: the prefix scan over the string keys. */
  function WithoutEntity(c: CacheMap, entity: Key): CacheMap {
    map s | s in c && !HasPrefix(s, entity + "@") :: c[s]
  }

  /** What InvalidateVersion leaves: the suffix scan over the string keys. */
  function WithoutVersion(c: CacheMap, versionID: string): CacheMap {
    map s | s in c && !HasSuffix(s, "@" + versionID) :: c[s]
  }

  /**
   Two different (entity, version) pairs share a key exactly when one entity continues into the
   other's version across an '@'; so no two pairs whose versions are '@'-free ever collide.
   */
  lemma KeyCollision(e: Key, v: string, f: Key, w: string)
    ensures CacheKey(e, v) == CacheKey(f, w) <==>
            (e == f && v == w)
            || (exists x :: f == e + "@" + x && v == x + "@" + w)
            || (exists x :: e == f + "@" + x && w == x + "@" + v)
  {
    JoinCollision(e, v, f, w, '@');
  }

  lemma KeyInjective(e: Key, v: string, f: Key, w: string)
    requires '@' !in v && '@' !in w && CacheKey(e, v) == CacheKey(f, w)
    ensures e == f && v == w
  {
    SplitAtLast(e, v, f, w, '@');
  }

  /** One version, any entities: no condition on '@' is needed. */
  lemma KeyInjectiveInEntity(e: Key, f: Key, v: string)
    requires CacheKey(e, v) == CacheKey(f, v)
    ensures e == f
  {
    assert e == CacheKey(e, v)[..|e|] && f == CacheKey(f, v)[..|f|];
  }

  /** The prefix scan removes every version's entry of the entity, whatever the version strings are. */
  lemma WithoutEntityRemovesAll(c: CacheMap, entity: Key, versionID: string)
    ensures CacheKey(entity, versionID) !in WithoutEntity(c, entity)
  {
  }

  /** And it removes no other string: only those the entity forms with some version. */
  lemma WithoutEntityExact(c: CacheMap, entity: Key, e: Key, w: string)
    requires CacheKey(e, w) in c
    ensures CacheKey(e, w) !in WithoutEntity(c, entity) <==> exists v :: CacheKey(entity, v) == CacheKey(e, w)
    ensures CacheKey(e, w) in WithoutEntity(c, entity) ==> WithoutEntity(c, entity)[CacheKey(e, w)] == c[CacheKey(e, w)]
  {
    var s, p := CacheKey(e, w), entity + "@";
    if HasPrefix(s, p) {
      assert s == p + s[|p|..] == CacheKey(entity, s[|p|..]);
    }
    if v :| CacheKey(entity, v) == s {
      assert s[..|p|] == p;
    }
  }

  /** The suffix scan of a version removes exactly the strings that some entity forms with that version. */
  lemma WithoutVersionExact(c: CacheMap, v: string, e: Key, w: string)
    requires CacheKey(e, w) in c
    ensures CacheKey(e, w) !in WithoutVersion(c, v) <==> exists a :: CacheKey(a, v) == CacheKey(e, w)
  {
    var s, p := CacheKey(e, w), "@" + v;
    if HasSuffix(s, p) {
      var a := s[..|s| - |p|];
      assert s == a + p == CacheKey(a, v);
    }
    if a :| CacheKey(a, v) == s {
      assert s == a + p && s[|s| - |p|..] == p;
    }
  }

  /** What a scan that has yet to visit todo has kept. */
  ghost function Kept(c: CacheMap, todo: set<string>, drop: string -> bool): CacheMap {
    map s | s in c && (s in todo || !drop(s)) :: c[s]
  }

  lemma KeptAll(c: CacheMap, drop: string -> bool)
    ensures Kept(c, c.Keys, drop) == c
  {
  }

  lemma KeptStep(c: CacheMap, todo: set<string>, drop: string -> bool, key: string)
    requires key in todo
    ensures Kept(c, todo - {key}, drop) == if drop(key) then Kept(c, todo, drop) - {key} else Kept(c, todo, drop)
  {
  }

  lemma KeptVersion(c: CacheMap, versionID: string)
    ensures Kept(c, {}, s => HasSuffix(s, "@" + versionID)) == WithoutVersion(c, versionID)
  {
  }

  lemma KeptEntity(c: CacheMap, entity: Key)
    ensures Kept(c, {}, s => HasPrefix(s, entity + "@")) == WithoutEntity(c, entity)
  {
  }

  class ReadCache {
    var entries: map<string, Snapshot>
    ghost var Contents: CacheMap
    /** The field maps of the cached snapshots, none of which a live entry holds. */
    ghost var Maps: set<FieldMap>

    ghost predicate Valid()
      reads this, Maps
    {
      && (forall f :: f in Maps ==> f.place == Detached)
      && (forall s :: s in entries <==> s in Contents)
      && (forall s :: s in entries ==> entries[s].fields in Maps && entries[s].Value() == Contents[s])
    }

    constructor ()
      ensures Valid() && Maps == {} && Contents == map[]
    {
      entries, Contents := map[], map[];
      Maps := {};
    }

    method Get(entity: Key, versionID: string) returns (r: Option<Snapshot>)
      requires Valid()
      ensures r.Some? <==> CacheKey(entity, versionID) in Contents
      ensures r.Some? ==> r.value.fields in Maps
                          && r.value.Value() == Contents[CacheKey(entity, versionID)]
    {
      var key := CacheKey(entity, versionID);
      if key in entries {
        r := Some(entries[key]);
      } else {
        r := None;
      }
    }

    /** Stores a copy: the caller's snapshot stays its own. */
    method Put(entity: Key, versionID: string, snapshot: Snapshot)
      requires Valid()
      modifies this
      ensures Valid()
      ensures Contents == old(Contents)[CacheKey(entity, versionID) := old(snapshot.Value())]
    {
      var copy := snapshot.Clone();
      var key := CacheKey(entity, versionID);
      entries := entries[key := copy];
      Contents := Contents[key := copy.Value()];
      Maps := Maps + {copy.fields};
    }

    method Remove(key: string)
      requires Valid()
      modifies this`entries, this`Contents
      ensures Valid() && Contents == old(Contents) - {key}
    {
      entries, Contents := entries - {key}, Contents - {key};
    }

    /** The scan both invalidations run: delete while ranging over the keys. */
    method RemoveWhere(drop: string -> bool)
      requires Valid()
      modifies this`entries, this`Contents
      ensures Valid() && Contents == Kept(old(Contents), {}, drop)
    {
      ghost var before := Contents;
      var todo := entries.Keys;
      KeptAll(before, drop);
      while todo != {}
        invariant Valid() && Contents == Kept(before, todo, drop)
      {
        var key :| key in todo;
        KeptStep(before, todo, drop, key);
        if drop(key) {
          Remove(key);
        }
        todo := todo - {key};
      }
    }

    method InvalidateVersion(versionID: string)
      requires Valid()
      modifies this`entries, this`Contents
      ensures Valid()
      ensures Contents == WithoutVersion(old(Contents), versionID)
    {
      KeptVersion(Contents, versionID);
      RemoveWhere(s => HasSuffix(s, "@" + versionID));
    }

    method InvalidateEntity(entity: Key)
      requires Valid()
      modifies this`entries, this`Contents
      ensures Valid()
      ensures Contents == WithoutEntity(old(Contents), entity)
    {
      KeptEntity(Contents, entity);
      RemoveWhere(s => HasPrefix(s, entity + "@"));
    }

    method ClearAll()
      requires Valid()
      modifies this`entries, this`Contents
      ensures Valid()
      ensures Contents == map[]
    {
      entries, Contents := map[], map[];
    }
  }
}
