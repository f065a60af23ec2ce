/** Batch rollback: the first before-image of each key is put back. */
module Undoing {
  import opened Text
  import opened Model
  import opened Journals
  import opened Placement
  import opened Routing
  import opened Cache

  function Restore(live: Live, key: Key, before: Option<EntryValue>): Live {
    match before
    case None => live - {key}
    case Some(v) => live[key := v]
  }

  /** The effect of replaying ops in order, skipping keys already seen. */
  function Undo(live: Live, ops: seq<OpValue>, seen: set<Key>): Live
    decreases ops
  {
    if ops == [] then live
    else if ops[0].key in seen then Undo(live, ops[1..], seen)
    else Undo(Restore(live, ops[0].key, ops[0].before), ops[1..], seen + {ops[0].key})
  }

  function FirstOp(ops: seq<OpValue>, key: Key): Option<OpValue> {
    if ops == [] then None else if ops[0].key == key then Some(ops[0]) else FirstOp(ops[1..], key)
  }

  /** Each journaled key not seen before ends with its first before-image; every other key is untouched. */
  lemma {:induction false} UndoRestoresFirst(live: Live, ops: seq<OpValue>, seen: set<Key>, key: Key)
    ensures var first := FirstOp(ops, key);
            Lookup(Undo(live, ops, seen), key) ==
            if first.Some? && key !in seen then first.value.before else Lookup(live, key)
    decreases ops
  {
    if ops != [] {
      if ops[0].key in seen {
        UndoRestoresFirst(live, ops[1..], seen, key);
      } else {
        UndoRestoresFirst(Restore(live, ops[0].key, ops[0].before), ops[1..], seen + {ops[0].key}, key);
      }
    }
  }

  function RestoreIn(hash: HashFn, s: Shards, key: Key, before: Option<EntryValue>): (t: Shards)
    requires |s| > 0
    ensures |t| == |s|
  {
    match before
    case None => Drop(hash, s, key)
    case Some(v) => Put(hash, s, key, v)
  }

  /** The same replay on the shards. */
  function UndoShards(hash: HashFn, s: Shards, ops: seq<OpValue>, seen: set<Key>): (t: Shards)
    requires |s| > 0
    ensures |t| == |s|
    decreases ops
  {
    if ops == [] then s
    else if ops[0].key in seen then UndoShards(hash, s, ops[1..], seen)
    else UndoShards(hash, RestoreIn(hash, s, ops[0].key, ops[0].before), ops[1..], seen + {ops[0].key})
  }

  /** What the replay leaves in the read cache. */
  function Forgotten(c: CacheMap, ops: seq<OpValue>, seen: set<Key>): CacheMap
    decreases ops
  {
    if ops == [] then c
    else if ops[0].key in seen then Forgotten(c, ops[1..], seen)
    else Forgotten(WithoutEntity(c, ops[0].key), ops[1..], seen + {ops[0].key})
  }

  /** The replay forgets the cached reads of exactly the keys it puts back. */
  lemma {:induction false} ForgottenExact(c: CacheMap, ops: seq<OpValue>, seen: set<Key>, s: string)
    requires s in c
    ensures s !in Forgotten(c, ops, seen) <==> exists i :: 0 <= i < |ops| && ops[i].key !in seen && HasPrefix(s, ops[i].key + "@")
    ensures s in Forgotten(c, ops, seen) ==> Forgotten(c, ops, seen)[s] == c[s]
    decreases ops
  {
    if ops != [] {
      var now := if ops[0].key in seen then c else WithoutEntity(c, ops[0].key);
      var met := if ops[0].key in seen then seen else seen + {ops[0].key};
      if s in now {
        ForgottenExact(now, ops[1..], met, s);
        assert ops == [ops[0]] + ops[1..];
        forall i | 1 <= i < |ops| ensures ops[i] == ops[1..][i - 1] {
        }
      } else {
        ForgottenShrinks(now, ops[1..], met);
      }
    }
  }

  lemma {:induction false} ForgottenShrinks(c: CacheMap, ops: seq<OpValue>, seen: set<Key>)
    ensures Forgotten(c, ops, seen).Keys <= c.Keys
    decreases ops
  {
    if ops != [] {
      if ops[0].key in seen {
        ForgottenShrinks(c, ops[1..], seen);
      } else {
        ForgottenShrinks(WithoutEntity(c, ops[0].key), ops[1..], seen + {ops[0].key});
      }
    }
  }

  /** On the flat map the sharded replay is Undo. */
  lemma {:induction false} UndoShardsIsUndo(hash: HashFn, s: Shards, ops: seq<OpValue>, seen: set<Key>)
    requires |s| > 0
    ensures LiveOf(hash, UndoShards(hash, s, ops, seen)) == Undo(LiveOf(hash, s), ops, seen)
    decreases ops
  {
    if ops != [] {
      var key, before := ops[0].key, ops[0].before;
      if key in seen {
        UndoShardsIsUndo(hash, s, ops[1..], seen);
      } else {
        RestoreIsRestore(hash, s, key, before);
        UndoShardsIsUndo(hash, RestoreIn(hash, s, key, before), ops[1..], seen + {key});
      }
    }
  }

  lemma RestoreIsRestore(hash: HashFn, s: Shards, key: Key, before: Option<EntryValue>)
    requires |s| > 0
    ensures LiveOf(hash, RestoreIn(hash, s, key, before)) == Restore(LiveOf(hash, s), key, before)
    ensures SameStrays(hash, s, RestoreIn(hash, s, key, before))
  {
    match before
    case None => DropIsRemoval(hash, s, key);
    case Some(v) => PutIsUpdate(hash, s, key, v);
  }

  /** The replay touches nothing that routing does not reach. */
  lemma {:induction false} UndoShardsKeepsStrays(hash: HashFn, s: Shards, ops: seq<OpValue>, seen: set<Key>)
    requires |s| > 0
    ensures SameStrays(hash, s, UndoShards(hash, s, ops, seen))
    decreases ops
  {
    if ops != [] {
      var key, before := ops[0].key, ops[0].before;
      if key in seen {
        UndoShardsKeepsStrays(hash, s, ops[1..], seen);
      } else {
        var t := RestoreIn(hash, s, key, before);
        RestoreIsRestore(hash, s, key, before);
        UndoShardsKeepsStrays(hash, t, ops[1..], seen + {key});
        SameStraysTransitive(hash, s, t, UndoShards(hash, t, ops[1..], seen + {key}));
      }
    }
  }

  lemma SameStraysReflexive(hash: HashFn, s: Shards)
    ensures SameStrays(hash, s, s)
  {
  }

  lemma SameStraysTransitive(hash: HashFn, s: Shards, t: Shards, u: Shards)
    requires SameStrays(hash, s, t) && SameStrays(hash, t, u)
    ensures SameStrays(hash, s, u)
  {
    forall i | 0 <= i < |s| ensures Strays(hash, s, i) == Strays(hash, u, i) {
      assert Strays(hash, s, i) == Strays(hash, t, i);
    }
  }
}
