/** The store object refines the flat map: any sequence of its calls is answered as one map would answer it. */
module Refinement {
  import opened Model
  import opened Routing
  import opened Cache
  import opened Versions
  import opened Journals
  import opened Placement
  import opened Undoing
  import opened Stores
  import opened Coherence
  import VersionRuns

  /** The object's state as a value. */
  ghost function SysOf(s: Store): Sys
    reads s`Contents, s.cache`Contents, s.versions`Contents, s.journal`Contents
  {
    Sys(s.router.hash, s.Contents, s.cache.Contents, s.versions.Contents, s.journal.Contents)
  }

  /** Store, router and manager are consistent, and the manager invalidates this store's cache. */
  ghost predicate Ready(s: Store)
    reads s, s.Entries, s.Maps, s.cache, s.cache.Maps, s.journal, s.journal.buf, s.journal.Copies, s.journal.Maps
    reads s.router, s.router.routeTable, s.versions, s.versions.versions.Values
  {
    s.Valid() && s.versions.Valid() && WellFormed(s.versions.Contents) && s.versions.hook == s.cache
  }

  lemma ReadyParts(s: Store)
    requires Ready(s)
    ensures s.Valid() && s.versions.Valid() && WellFormed(s.versions.Contents) && s.versions.hook == s.cache
    ensures |s.Contents| > 0
  {
  }

  lemma PartsReady(s: Store)
    requires s.Valid() && s.versions.Valid() && WellFormed(s.versions.Contents) && s.versions.hook == s.cache
    ensures Ready(s) && |s.Contents| > 0
  {
  }

  method Write(s: Store, key: Key, fields: FieldMap, versionID: string, now: int)
    requires Ready(s) && |s.Contents| > 0
    modifies s`shards, s`Contents, s`Entries, s`Maps, s.Entries, s.cache`entries, s.cache`Contents
    ensures Ready(s) && |s.Contents| > 0 && fresh(s.Entries - old(s.Entries)) && fresh(s.Maps - old(s.Maps))
    ensures SysOf(s) == SysPut(old(SysOf(s)), key, EntryValue(old(fields.m), versionID, now))
  {
    hide Ready, Store.Valid, Manager.Valid, WellFormed, Put, WithoutEntity;
    ReadyParts(s);
    s.WriteAt(key, fields, versionID, now);
    PartsReady(s);
  }

  method Merge(s: Store, key: Key, patch: Fields, overwrite: seq<string>, versionID: string, now: int)
    requires Ready(s) && |s.Contents| > 0
    modifies s`shards, s`Contents, s`Entries, s`Maps, s.Entries, s.Maps, s.cache`entries, s.cache`Contents
    ensures Ready(s) && |s.Contents| > 0 && fresh(s.Entries - old(s.Entries)) && fresh(s.Maps - old(s.Maps))
    ensures SysOf(s) == SysPut(old(SysOf(s)), key, Merged(Find(s.router.hash, old(s.Contents), key), patch, overwrite, versionID, now))
  {
    hide Ready, Store.Valid, Manager.Valid, WellFormed, Put, WithoutEntity, Merged, Find;
    ReadyParts(s);
    s.MergeWrite(key, patch, overwrite, versionID, now);
    PartsReady(s);
  }

  method CompareAndWrite(s: Store, key: Key, fields: FieldMap, versionID: string, now: int) returns (ok: bool)
    requires Ready(s) && |s.Contents| > 0
    modifies s`shards, s`Contents, s`Entries, s`Maps, s.Entries, s.cache`entries, s.cache`Contents
    ensures Ready(s) && |s.Contents| > 0 && fresh(s.Entries - old(s.Entries)) && fresh(s.Maps - old(s.Maps))
    ensures ok == Admits(Find(s.router.hash, old(s.Contents), key), versionID)
    ensures SysOf(s) == if ok then SysPut(old(SysOf(s)), key, EntryValue(old(fields.m), versionID, now)) else old(SysOf(s))
  {
    hide Ready, Store.Valid, Manager.Valid, WellFormed, Put, WithoutEntity, Find, Admits;
    ReadyParts(s);
    ok := s.CompareAndWrite(key, fields, versionID, now);
    PartsReady(s);
  }

  method Delete(s: Store, key: Key)
    requires Ready(s) && |s.Contents| > 0
    modifies s`shards, s`Contents, s.cache`entries, s.cache`Contents
    ensures Ready(s) && |s.Contents| > 0
    ensures SysOf(s) == SysDrop(old(SysOf(s)), key)
  {
    hide Ready, Store.Valid, Manager.Valid, WellFormed, Drop, WithoutEntity;
    ReadyParts(s);
    s.Delete(key);
    PartsReady(s);
  }

  /** The before-image step of an imported row. */
  method JournalWrite(s: Store, key: Key, batch: string, segment: nat)
    requires Ready(s) && |s.Contents| > 0
    modifies s.journal, s.journal.buf
    ensures Ready(s) && |s.Contents| > 0 && (s.journal.buf == old(s.journal.buf) || fresh(s.journal.buf))
    ensures SysOf(s) == SysJournal(old(SysOf(s)), key, batch, segment)
  {
    hide Ready, Store.Valid, Manager.Valid, WellFormed, Find;
    ReadyParts(s);
    AppendBefore(s, key, batch, segment);
    PartsReady(s);
  }

  method AppendBefore(s: Store, key: Key, batch: string, segment: nat)
    requires s.Valid() && |s.Contents| > 0
    modifies s.journal, s.journal.buf
    ensures s.Valid() && (s.journal.buf == old(s.journal.buf) || fresh(s.journal.buf))
    ensures s.journal.Contents == old(s.journal.Contents) + [Op(batch, segment, key, Find(s.router.hash, s.Contents, key))]
  {
    hide Store.CellsOK, Find;
    s.Separate();
    var before := s.EntryFor(key);
    s.journal.Append(Op(batch, segment, key, before));
  }

  method ClearJournal(s: Store, batch: string)
    requires Ready(s) && |s.Contents| > 0
    modifies s.journal`len, s.journal`Contents, s.journal`byKey, s.journal.buf
    ensures Ready(s) && |s.Contents| > 0
    ensures SysOf(s) == old(SysOf(s)).(ops := Without(old(s.journal.Contents), batch))
  {
    hide Ready, Store.Valid, Manager.Valid, WellFormed, Without;
    ReadyParts(s);
    s.ClearJournal(batch);
    PartsReady(s);
  }

  method RollbackBatch(s: Store, batch: string)
    requires Ready(s) && |s.Contents| > 0
    modifies s`shards, s`Contents, s`Entries, s`Maps, s.Entries, s.cache`entries, s.cache`Contents
    modifies s.journal`len, s.journal`Contents, s.journal`byKey, s.journal.buf
    ensures Ready(s) && |s.Contents| > 0 && fresh(s.Entries - old(s.Entries)) && fresh(s.Maps - old(s.Maps))
    ensures SysOf(s) == SysRollback(old(SysOf(s)), batch)
  {
    hide Ready, Store.Valid, Manager.Valid, WellFormed, UndoShards, Forgotten, OpsOf, Without;
    ReadyParts(s);
    s.RollbackBatch(batch);
    PartsReady(s);
  }

  method Read(s: Store, key: Key) returns (r: Snapshot)
    requires Ready(s) && |s.Contents| > 0
    modifies s.cache
    ensures Ready(s) && |s.Contents| > 0
    ensures (SysOf(s), Saw(r.Value())) == SysRead(old(SysOf(s)), key, ActiveID(s.versions.Contents))
  {
    hide Ready, Store.Valid, Manager.Valid, WellFormed, Answer, ActiveID;
    ReadyParts(s);
    r := s.Read(key);
    PartsReady(s);
  }

  method ReadVersion(s: Store, key: Key, versionID: string) returns (r: Snapshot)
    requires Ready(s) && |s.Contents| > 0
    modifies s.cache
    ensures Ready(s) && |s.Contents| > 0
    ensures (SysOf(s), Saw(r.Value())) ==
            SysRead(old(SysOf(s)), key, if versionID == "" then ActiveID(s.versions.Contents) else versionID)
  {
    hide Ready, Store.Valid, Manager.Valid, WellFormed, Answer, ActiveID;
    ReadyParts(s);
    r := s.ReadVersion(key, versionID);
    PartsReady(s);
  }

  /** An expansion as the server makes it: the router, then the store with the same count. */
  method Expand(s: Store, count: int) returns (grown: bool)
    requires s.Valid()
    modifies s`shards, s`Contents, s.router
    ensures s.Valid() && grown == (count > |old(s.Contents)|)
    ensures s.Contents == Grown(old(s.Contents), count)
  {
    s.Separate();
    var report := s.router.Expand(count);
    grown := report.Some?;
    if grown {
      s.ExpandShards(count);
    }
  }

  method ExpandShards(s: Store, count: int)
    requires Ready(s) && |s.Contents| > 0
    modifies s`shards, s`Contents, s.router
    ensures Ready(s) && |s.Contents| > 0
    ensures SysOf(s) == old(SysOf(s)).(shards := Grown(old(s.Contents), count))
  {
    hide Ready, Store.Valid, Manager.Valid, WellFormed, Grown;
    ReadyParts(s);
    var _ := Expand(s, count);
    PartsReady(s);
  }

  method CreateVersion(s: Store, table: string, tables: Tables, now: int) returns (ok: bool)
    requires Ready(s) && |s.Contents| > 0
    modifies s.versions`versions, s.versions`order, s.versions`lastByTable, s.versions`Contents
    ensures Ready(s) && |s.Contents| > 0 && fresh(s.versions.versions.Values - old(s.versions.versions.Values))
    ensures ok == (table in tables)
    ensures SysOf(s) == if ok then old(SysOf(s)).(vm := Created(old(s.versions.Contents), table, tables[table], now)) else old(SysOf(s))
  {
    hide Ready, Store.Valid, Manager.Valid, WellFormed, Created;
    ReadyParts(s);
    var v := s.versions.Create(table, tables, now);
    ok := v != null;
    PartsReady(s);
  }

  /** The cache is the manager's hook, so what a flush leaves is a consistent store. */
  lemma Hooked(s: Store)
    requires s.Valid() && s.versions.hook == s.cache
    ensures s.versions.HookReady() && s.versions.Hooked() == {s.cache} && s.Routable() && s.journal.Valid()
  {
  }

  lemma Unhooked(s: Store)
    requires s.Routable() && s.journal.Valid() && s.versions.HookReady() && s.versions.hook == s.cache
    ensures s.Valid()
  {
  }

  lemma StaysWellFormed(m: ManagerValue, id: string, now: int)
    requires WellFormed(m)
    ensures CanPublish(m, id) ==> WellFormed(AfterPublish(m, id, now))
    ensures CanRollback(m, id) ==> WellFormed(AfterRollback(m, id))
  {
    hide WellFormed, AfterPublish, AfterRollback;
    if CanPublish(m, id) {
      PublishKeepsWellFormed(m, id, now);
    }
    if CanRollback(m, id) {
      RollbackKeepsWellFormed(m, id);
    }
  }

  method PublishVersion(s: Store, id: string, now: int) returns (ok: bool)
    requires Ready(s) && |s.Contents| > 0
    modifies s.versions`Contents, s.versions`active, s.versions`activeID, s.versions.versions.Values, s.cache
    ensures Ready(s) && |s.Contents| > 0 && s.versions.versions == old(s.versions.versions)
    ensures ok == CanPublish(old(s.versions.Contents), id)
    ensures SysOf(s) == if ok then old(SysOf(s)).(vm := AfterPublish(old(s.versions.Contents), id, now), cache := map[]) else old(SysOf(s))
  {
    hide Ready, Store.Valid, Store.Routable, Journal.Valid, Manager.Valid, Manager.HookReady, WellFormed, CanPublish, AfterPublish;
    ReadyParts(s);
    Hooked(s);
    StaysWellFormed(s.versions.Contents, id, now);
    var v := s.versions.Publish(id, now);
    ok := v != null;
    Unhooked(s);
    PartsReady(s);
  }

  method RollbackVersion(s: Store, id: string) returns (ok: bool)
    requires Ready(s) && |s.Contents| > 0
    modifies s.versions`Contents, s.versions`active, s.versions`activeID, s.versions.versions.Values, s.cache
    ensures Ready(s) && |s.Contents| > 0 && s.versions.versions == old(s.versions.versions)
    ensures ok == CanRollback(old(s.versions.Contents), id)
    ensures SysOf(s) == if ok then old(SysOf(s)).(vm := AfterRollback(old(s.versions.Contents), id), cache := map[]) else old(SysOf(s))
  {
    hide Ready, Store.Valid, Store.Routable, Journal.Valid, Manager.Valid, Manager.HookReady, WellFormed, CanRollback, AfterRollback;
    ReadyParts(s);
    Hooked(s);
    StaysWellFormed(s.versions.Contents, id, 0);
    var v := s.versions.Rollback(id);
    ok := v != null;
    Unhooked(s);
    PartsReady(s);
  }

  /** A field map a caller passes in. */
  method Argument(fields: Fields) returns (passed: FieldMap)
    ensures fresh(passed) && passed.m == fields
  {
    passed := new FieldMap(Detached);
    passed.m := fields;
  }

  method Change(s: Store, call: Call) returns (ghost reply: Reply)
    requires Ready(s) && |s.Contents| > 0
    requires call.Write? || call.Merge? || call.CompareAndWrite? || call.Delete?
    modifies s`shards, s`Contents, s`Entries, s`Maps, s.Entries, s.Maps, s.cache`entries, s.cache`Contents
    ensures Ready(s) && |s.Contents| > 0 && fresh(s.Entries - old(s.Entries)) && fresh(s.Maps - old(s.Maps))
    ensures (SysOf(s), reply) == Step(old(SysOf(s)), call)
  {
    hide Ready, Store.Valid, Manager.Valid, WellFormed, SysPut, SysDrop, Find, Admits, Merged;
    reply := Done;
    if call.Write? {
      var passed := Argument(call.fields);
      Write(s, call.key, passed, call.versionID, call.now);
    } else if call.Merge? {
      Merge(s, call.key, call.patch, call.overwrite, call.versionID, call.now);
    } else if call.CompareAndWrite? {
      var passed := Argument(call.fields);
      var ok := CompareAndWrite(s, call.key, passed, call.versionID, call.now);
      reply := Wrote(ok);
    } else {
      Delete(s, call.key);
    }
  }

  method Keep(s: Store, call: Call) returns (ghost reply: Reply)
    requires Ready(s) && |s.Contents| > 0
    requires call.JournalWrite? || call.ClearJournal? || call.RollbackBatch?
    modifies s`shards, s`Contents, s`Entries, s`Maps, s.Entries, s.cache`entries, s.cache`Contents, s.journal, s.journal.buf
    ensures Ready(s) && |s.Contents| > 0 && fresh(s.Entries - old(s.Entries)) && fresh(s.Maps - old(s.Maps))
    ensures s.journal.buf == old(s.journal.buf) || fresh(s.journal.buf)
    ensures (SysOf(s), reply) == Step(old(SysOf(s)), call)
  {
    hide Ready, Store.Valid, Manager.Valid, WellFormed, SysJournal, SysRollback, Without;
    reply := Done;
    if call.JournalWrite? {
      JournalWrite(s, call.key, call.batch, call.segment);
    } else if call.ClearJournal? {
      ClearJournal(s, call.batch);
    } else {
      RollbackBatch(s, call.batch);
    }
  }

  method Query(s: Store, call: Call) returns (ghost reply: Reply)
    requires Ready(s) && |s.Contents| > 0 && (call.Read? || call.ReadVersion?)
    modifies s.cache
    ensures Ready(s) && |s.Contents| > 0
    ensures (SysOf(s), reply) == Step(old(SysOf(s)), call)
  {
    hide Ready, Store.Valid, Manager.Valid, WellFormed, SysRead, ActiveID;
    if call.Read? {
      var r := Read(s, call.key);
      reply := Saw(r.Value());
    } else {
      var r := ReadVersion(s, call.key, call.versionID);
      reply := Saw(r.Value());
    }
  }

  method Manage(s: Store, call: Call) returns (ghost reply: Reply)
    requires Ready(s) && |s.Contents| > 0 && call.Manage?
    modifies s.versions, s.versions.versions.Values, s.cache
    ensures Ready(s) && |s.Contents| > 0 && fresh(s.versions.versions.Values - old(s.versions.versions.Values))
    ensures (SysOf(s), reply) == Step(old(SysOf(s)), call)
  {
    hide Ready, Store.Valid, Manager.Valid, WellFormed, Created, CanPublish, AfterPublish, CanRollback, AfterRollback;
    var ok;
    match call.op {
      case Create(table, tables, now) => ok := CreateVersion(s, table, tables, now);
      case Publish(id, now) => ok := PublishVersion(s, id, now);
      case Rollback(id) => ok := RollbackVersion(s, id);
    }
    reply := Wrote(ok);
  }

  /** Any one call of the store, the journal, the router or the version manager. */
  method Perform(s: Store, call: Call) returns (ghost reply: Reply)
    requires Ready(s) && |s.Contents| > 0
    modifies s, s.Entries, s.Maps, s.cache, s.journal, s.journal.buf, s.router, s.versions, s.versions.versions.Values
    ensures Ready(s) && |s.Contents| > 0 && fresh(s.Entries - old(s.Entries)) && fresh(s.Maps - old(s.Maps))
    ensures s.journal.buf == old(s.journal.buf) || fresh(s.journal.buf)
    ensures fresh(s.versions.versions.Values - old(s.versions.versions.Values))
    ensures (SysOf(s), reply) == Step(old(SysOf(s)), call)
  {
    hide Ready, Store.Valid, Manager.Valid, WellFormed;
    if call.ExpandShards? {
      ExpandShards(s, call.count);
      reply := Done;
    } else if call.Manage? {
      reply := Manage(s, call);
    } else if call.Read? || call.ReadVersion? {
      reply := Query(s, call);
    } else if call.JournalWrite? || call.ClearJournal? || call.RollbackBatch? {
      reply := Keep(s, call);
    } else {
      reply := Change(s, call);
    }
  }

  /** A sequence of calls on the object runs as the value model does. */
  method Replay(s: Store, calls: seq<Call>) returns (ghost replies: seq<Reply>)
    requires Ready(s) && |s.Contents| > 0
    modifies s, s.Entries, s.Maps, s.cache, s.journal, s.journal.buf, s.router, s.versions, s.versions.versions.Values
    ensures Ready(s)
    ensures (SysOf(s), replies) == Run(old(SysOf(s)), calls)
  {
    hide Ready, Step, Run;
    ghost var first := SysOf(s);
    replies := [];
    NoCalls(first, calls);
    for i := 0 to |calls|
      invariant Ready(s) && |s.Contents| > 0 && fresh(s.Entries - old(s.Entries)) && fresh(s.Maps - old(s.Maps))
      invariant s.journal.buf == old(s.journal.buf) || fresh(s.journal.buf)
      invariant fresh(s.versions.versions.Values - old(s.versions.versions.Values))
      invariant (SysOf(s), replies) == Run(first, calls[..i])
    {
      RunNext(first, calls[..i], calls[i]);
      assert calls[..i + 1] == calls[..i] + [calls[i]];
      ghost var reply := Perform(s, calls[i]);
      replies := replies + [reply];
    }
    assert calls[..|calls|] == calls;
  }

  /**
   Any sequence of calls on a new store object, journaled writes and batch rollbacks included: each call
   is answered as one flat map answers it, unless it reads or tests a key an expansion has moved since
   the key was last written, deleted, or restored from a before-image taken while it was good.
   */
  method Drive(s: Store, calls: seq<Call>) returns (ghost replies: seq<Reply>)
    requires Ready(s) && |s.Contents| > 0
    requires SysOf(s) == NewSys(s.router.hash, |s.Contents|)
    modifies s, s.Entries, s.Maps, s.cache, s.journal, s.journal.buf, s.router, s.versions, s.versions.versions.Values
    ensures Ready(s)
    ensures (SysOf(s), replies) == Run(old(SysOf(s)), calls)
    ensures forall i :: 0 <= i < |calls| && TrustedAt(NEW_TRACK, old(SysOf(s)), calls, i) ==> replies[i] == FlatRun(NEW_FLAT, calls).1[i]
  {
    hide Ready, Run, FlatRun, TrackRun, Trusted, TrustedAt;
    ghost var hash, count := s.router.hash, |s.Contents|;
    replies := Replay(s, calls);
    StoreRefinesFlatMap(hash, count, calls);
  }

  /** What Read and EntryFor returned reads the same after any further calls, in-place merges included. */
  method EarlierCopiesStay(s: Store, key: Key, calls: seq<Call>) returns (r: Snapshot, e: Entry?)
    requires Ready(s) && |s.Contents| > 0
    modifies s, s.Entries, s.Maps, s.cache, s.journal, s.journal.buf, s.router, s.versions, s.versions.versions.Values
    ensures (e == null <==> old(Find(s.router.hash, s.Contents, key)) == None)
    ensures e != null ==> old(Find(s.router.hash, s.Contents, key)) == Some(e.Value())
    ensures r.Value() == old(Answer(s.router.hash, s.Contents, s.cache.Contents, s.versions.Contents, key, ActiveID(s.versions.Contents)))
  {
    hide Ready, Store.Valid, Store.Routable, Manager.Valid, WellFormed, Find, Answer, ActiveID, Run;
    ReadyParts(s);
    s.HasShards();
    e := s.EntryFor(key);
    r := s.Read(key);
    PartsReady(s);
    var _ := Replay(s, calls);
  }

  lemma NoCalls(first: Sys, calls: seq<Call>)
    requires |first.shards| > 0
    ensures Run(first, calls[..0]) == (first, [])
  {
  }
}
