/** Shards plus string-keyed cache refine one flat map read through the version layout. */
module Coherence {
  import Text
  import opened Model
  import opened Routing
  import opened Cache
  import opened Versions
  import opened Placement
  import opened Journals
  import opened Undoing
  import VersionRuns

  /** The whole store as a value. */
  datatype Sys = Sys(hash: HashFn, shards: Shards, cache: CacheMap, vm: ManagerValue, ops: seq<OpValue>)

  /** The reference: one map from keys to entries with a journal of its own, no cache and no shards. */
  datatype Flat = Flat(live: Live, vm: ManagerValue, ops: seq<OpValue>)

  /** JournalWrite appends the before-image of a key, as the importer does ahead of each merge. */
  datatype Call =
    | Write(key: Key, fields: Fields, versionID: string, now: int)
    | Merge(key: Key, patch: Fields, overwrite: seq<string>, versionID: string, now: int)
    | CompareAndWrite(key: Key, fields: Fields, versionID: string, now: int)
    | Delete(key: Key)
    | JournalWrite(key: Key, batch: string, segment: nat)
    | ClearJournal(batch: string)
    | RollbackBatch(batch: string)
    | Read(key: Key)
    | ReadVersion(key: Key, versionID: string)
    | ExpandShards(count: int)
    | Manage(op: VersionRuns.Op)

  datatype Reply = Done | Wrote(ok: bool) | Saw(snapshot: SnapshotValue)

  function SysPut(s: Sys, key: Key, v: EntryValue): Sys
    requires |s.shards| > 0
  {
    s.(shards := Put(s.hash, s.shards, key, v), cache := WithoutEntity(s.cache, key))
  }

  function SysDrop(s: Sys, key: Key): Sys
    requires |s.shards| > 0
  {
    s.(shards := Drop(s.hash, s.shards, key), cache := WithoutEntity(s.cache, key))
  }

  function SysUndo(s: Sys, ops: seq<OpValue>, seen: set<Key>): Sys
    requires |s.shards| > 0
  {
    s.(shards := UndoShards(s.hash, s.shards, ops, seen), cache := Forgotten(s.cache, ops, seen))
  }

  function SysJournal(s: Sys, key: Key, batch: string, segment: nat): Sys
    requires |s.shards| > 0
  {
    s.(ops := s.ops + [Op(batch, segment, key, Find(s.hash, s.shards, key))])
  }

  function SysRollback(s: Sys, batch: string): Sys
    requires |s.shards| > 0
  {
    SysUndo(s, OpsOf(s.ops, batch), {}).(ops := Without(s.ops, batch))
  }

  /** A read answers from the cache if it can; otherwise it builds the view and caches it. */
  function SysRead(s: Sys, key: Key, versionID: string): (Sys, Reply)
    requires |s.shards| > 0
  {
    var v := Answer(s.hash, s.shards, s.cache, s.vm, key, versionID);
    (s.(cache := s.cache[CacheKey(key, versionID) := v]), Saw(v))
  }

  function Step(s: Sys, call: Call): (r: (Sys, Reply))
    requires |s.shards| > 0
    ensures |r.0.shards| >= |s.shards| && r.0.hash == s.hash
  {
    match call
    case Write(k, fields, v, now) => (SysPut(s, k, EntryValue(fields, v, now)), Done)
    case Merge(k, patch, overwrite, v, now) =>
      (SysPut(s, k, Merged(Find(s.hash, s.shards, k), patch, overwrite, v, now)), Done)
    case CompareAndWrite(k, fields, v, now) =>
      if Admits(Find(s.hash, s.shards, k), v) then (SysPut(s, k, EntryValue(fields, v, now)), Wrote(true)) else (s, Wrote(false))
    case Delete(k) => (SysDrop(s, k), Done)
    case JournalWrite(k, batch, segment) => (SysJournal(s, k, batch, segment), Done)
    case ClearJournal(batch) => (s.(ops := Without(s.ops, batch)), Done)
    case RollbackBatch(batch) => (SysRollback(s, batch), Done)
    case Read(k) => SysRead(s, k, ActiveID(s.vm))
    case ReadVersion(k, v) => SysRead(s, k, if v == "" then ActiveID(s.vm) else v)
    case ExpandShards(count) => (s.(shards := Grown(s.shards, count)), Done)
    case Manage(op) =>
      // Create leaves the cache alone; a successful Publish or Rollback flushes it.
      (s.(vm := VersionRuns.Apply(s.vm, op), cache := if !op.Create? && VersionRuns.Accepts(s.vm, op) then map[] else s.cache),
       Wrote(VersionRuns.Accepts(s.vm, op)))
  }

  function FlatStep(f: Flat, call: Call): (Flat, Reply) {
    match call
    case Write(k, fields, v, now) => (f.(live := f.live[k := EntryValue(fields, v, now)]), Done)
    case Merge(k, patch, overwrite, v, now) =>
      (f.(live := f.live[k := Merged(Lookup(f.live, k), patch, overwrite, v, now)]), Done)
    case CompareAndWrite(k, fields, v, now) =>
      if Admits(Lookup(f.live, k), v) then (f.(live := f.live[k := EntryValue(fields, v, now)]), Wrote(true)) else (f, Wrote(false))
    case Delete(k) => (f.(live := f.live - {k}), Done)
    case JournalWrite(k, batch, segment) => (f.(ops := f.ops + [Op(batch, segment, k, Lookup(f.live, k))]), Done)
    case ClearJournal(batch) => (f.(ops := Without(f.ops, batch)), Done)
    case RollbackBatch(batch) => (f.(live := Undo(f.live, OpsOf(f.ops, batch), {}), ops := Without(f.ops, batch)), Done)
    case Read(k) => (f, Saw(View(Lookup(f.live, k), f.vm, k, ActiveID(f.vm))))
    case ReadVersion(k, v) =>
      (f, Saw(View(Lookup(f.live, k), f.vm, k, if v == "" then ActiveID(f.vm) else v)))
    case ExpandShards(_) => (f, Done)
    case Manage(op) => (f.(vm := VersionRuns.Apply(f.vm, op)), Wrote(VersionRuns.Accepts(f.vm, op)))
  }

  /** The pair whose read filled a cached string, and whether its version was then registered, or none was named. */
  datatype Holder = Holder(key: Key, versionID: string, known: bool)

  /**
   What a run has put in doubt: the keys whose entry an expansion left behind, for each journaled write
   whether its before-image can be trusted, and for each cached string which read filled it.
   */
  datatype Track = Track(lost: set<Key>, ops: seq<Op<bool>>, held: map<string, Holder>)

  /** A restored key is as good as its before-image. */
  function TrackUndo(lost: set<Key>, ops: seq<Op<bool>>, seen: set<Key>): set<Key>
    decreases ops
  {
    if ops == [] then lost
    else if ops[0].key in seen then TrackUndo(lost, ops[1..], seen)
    else TrackUndo(if ops[0].before then lost - {ops[0].key} else lost + {ops[0].key}, ops[1..], seen + {ops[0].key})
  }

  /** The stored keys that an expansion routes elsewhere. */
  ghost function MovedKeys(s: Sys, count: int): set<Key>
    requires |s.shards| > 0
  {
    set k | k in StoredKeys(s.shards) && count > |s.shards| && Slot(s.hash, k, count) != Slot(s.hash, k, |s.shards|)
  }

  /** The strings a change of the cache leaves. */
  function Cut(held: map<string, Holder>, cache: CacheMap): map<string, Holder> {
    map c | c in held && c in cache :: held[c]
  }

  function After(t: Track, lost: set<Key>, cache: CacheMap): Track {
    t.(lost := lost, held := Cut(t.held, cache))
  }

  /** The version a read is made under. */
  function VersionOf(s: Sys, call: Call): string
    requires call.Read? || call.ReadVersion?
  {
    if call.Read? || call.versionID == "" then ActiveID(s.vm) else call.versionID
  }

  /** A read that finds nothing cached fills the string. */
  ghost function Filled(t: Track, s: Sys, key: Key, versionID: string): Track {
    var c := CacheKey(key, versionID);
    if c in s.cache then t else t.(held := t.held[c := Holder(key, versionID, Known(s.vm, versionID))])
  }

  /** A write or a delete makes a key good again; an expansion loses the stored keys it moves. */
  ghost function TrackStep(t: Track, s: Sys, call: Call): Track
    requires |s.shards| > 0
  {
    var cache := Step(s, call).0.cache;
    match call
    case Write(k, _, _, _) => After(t, t.lost - {k}, cache)
    case Delete(k) => After(t, t.lost - {k}, cache)
    case JournalWrite(k, batch, segment) => t.(ops := t.ops + [Op(batch, segment, k, k !in t.lost)])
    case ClearJournal(batch) => t.(ops := Without(t.ops, batch))
    case RollbackBatch(batch) => After(t, TrackUndo(t.lost, OpsOf(t.ops, batch), {}), cache).(ops := Without(t.ops, batch))
    case ExpandShards(count) => t.(lost := t.lost + MovedKeys(s, count))
    case Read(k) => Filled(t, s, k, VersionOf(s, call))
    case ReadVersion(k, _) => Filled(t, s, k, VersionOf(s, call))
    case _ => After(t, t.lost, cache)
  }

  /** The string still holds a view of its holder: the version was known, or is not registered to this day. */
  ghost predicate StillRight(vm: ManagerValue, h: Holder) {
    h.known || h.versionID !in vm.versions
  }

  /** Nothing is cached under the string of the pair, or what a read of the pair itself left there and is still right. */
  ghost predicate OwnString(t: Track, vm: ManagerValue, key: Key, versionID: string) {
    var c := CacheKey(key, versionID);
    c in t.held ==> t.held[c].key == key && t.held[c].versionID == versionID && StillRight(vm, t.held[c])
  }

  /**
   The call neither reads nor tests a lost key, nor reads a string that another pair, or an outdated read, has filled.
   */
  ghost predicate Trusted(t: Track, s: Sys, call: Call) {
    && ((call.Read? || call.ReadVersion? || call.CompareAndWrite?) ==> call.key !in t.lost)
    && ((call.Read? || call.ReadVersion?) ==> OwnString(t, s.vm, call.key, VersionOf(s, call)))
  }

  /** Reads are under registered versions, or under none. */
  ghost predicate Allowed(s: Sys, call: Call) {
    call.Read? || call.ReadVersion? ==> Known(s.vm, VersionOf(s, call))
  }

  function Run(s: Sys, calls: seq<Call>): (r: (Sys, seq<Reply>))
    requires |s.shards| > 0
    ensures |r.0.shards| > 0 && |r.1| == |calls|
  {
    if calls == [] then (s, [])
    else
      var (s1, replies) := Run(s, calls[..|calls| - 1]);
      var (s2, reply) := Step(s1, calls[|calls| - 1]);
      (s2, replies + [reply])
  }

  function FlatRun(f: Flat, calls: seq<Call>): (r: (Flat, seq<Reply>))
    ensures |r.1| == |calls|
  {
    if calls == [] then (f, [])
    else
      var (f1, replies) := FlatRun(f, calls[..|calls| - 1]);
      var (f2, reply) := FlatStep(f1, calls[|calls| - 1]);
      (f2, replies + [reply])
  }

  ghost function TrackRun(t: Track, s: Sys, calls: seq<Call>): Track
    requires |s.shards| > 0
  {
    if calls == [] then t
    else TrackStep(TrackRun(t, s, calls[..|calls| - 1]), Run(s, calls[..|calls| - 1]).0, calls[|calls| - 1])
  }

  ghost predicate AllowedRun(s: Sys, calls: seq<Call>)
    requires |s.shards| > 0
  {
    calls == [] || (AllowedRun(s, calls[..|calls| - 1]) && Allowed(Run(s, calls[..|calls| - 1]).0, calls[|calls| - 1]))
  }

  /**
   Every cached string belongs to the pair that filled it, and holds its current view unless the key is lost or the
   read outdated.
   */
  ghost predicate CacheGood(s: Sys, t: Track)
    requires |s.shards| > 0
  {
    t.held.Keys == s.cache.Keys && forall c :: c in s.cache ==> HolderGood(s, t.lost, c, t.held[c])
  }

  ghost predicate HolderGood(s: Sys, lost: set<Key>, c: string, h: Holder)
    requires |s.shards| > 0 && c in s.cache
  {
    && c == CacheKey(h.key, h.versionID)
    && (if h.known then Known(s.vm, h.versionID) else h.versionID != "")
    && (h.key !in lost && StillRight(s.vm, h) ==> s.cache[c] == View(Find(s.hash, s.shards, h.key), s.vm, h.key, h.versionID))
  }

  ghost predicate Inv(s: Sys, t: Track) {
    |s.shards| > 0 && WellFormed(s.vm) && CacheGood(s, t)
  }

  /** Both sides journaled the same writes, with the same before-images where they can be trusted. */
  ghost predicate SameJournals(a: seq<OpValue>, b: seq<OpValue>, g: seq<Op<bool>>) {
    |a| == |b| == |g| && forall i :: 0 <= i < |a| ==> SameOp(a[i], b[i], g[i])
  }

  ghost predicate SameOp(a: OpValue, b: OpValue, g: Op<bool>) {
    a.batch == b.batch == g.batch && a.segment == b.segment == g.segment && a.key == b.key == g.key && (g.before ==> a.before == b.before)
  }

  ghost predicate Simulates(s: Sys, f: Flat, t: Track)
    requires |s.shards| > 0
  {
    && s.vm == f.vm && SameJournals(s.ops, f.ops, t.ops)
    && forall k :: k !in t.lost ==> Find(s.hash, s.shards, k) == Lookup(f.live, k)
  }

  /** A hit on a key that is not lost, on a string its own read filled, is the current view. */
  lemma HitIsView(s: Sys, k: Key, v: string, t: Track)
    requires Inv(s, t) && k !in t.lost && CacheKey(k, v) in s.cache && OwnString(t, s.vm, k, v)
    ensures s.cache[CacheKey(k, v)] == View(Find(s.hash, s.shards, k), s.vm, k, v)
  {
    assert HolderGood(s, t.lost, CacheKey(k, v), t.held[CacheKey(k, v)]);
  }

  /**
   A read under a registered version, or none, finds its own string exactly unless a read made under an
   identifier not registered at the time has filled it: the strings of registered versions never collide.
   */
  lemma KnownReadIsOwn(s: Sys, t: Track, k: Key, v: string)
    requires Inv(s, t) && Known(s.vm, v)
    ensures OwnString(t, s.vm, k, v) <==> (CacheKey(k, v) in s.cache ==> t.held[CacheKey(k, v)].known)
  {
    var c := CacheKey(k, v);
    if c in s.cache {
      var h := t.held[c];
      assert HolderGood(s, t.lost, c, h);
      if h.known {
        RegisteredKeyInjective(s.vm, k, v, h.key, h.versionID);
      }
    }
  }

  /** A change of one key on both sides, after which they agree on it or it counts as lost. */
  lemma ChangeSimulates(s: Sys, f: Flat, t: Track, s2: Sys, f2: Flat, lost: set<Key>, key: Key)
    requires Inv(s, t) && Simulates(s, f, t) && |s2.shards| > 0
    requires s2.hash == s.hash && s2.vm == s.vm && s2.ops == s.ops && f2.vm == f.vm && f2.ops == f.ops
    requires s2.cache == WithoutEntity(s.cache, key)
    requires forall k :: k != key ==>
               && Find(s2.hash, s2.shards, k) == Find(s.hash, s.shards, k) && Lookup(f2.live, k) == Lookup(f.live, k)
               && (k in lost <==> k in t.lost)
    requires key !in lost ==> Find(s2.hash, s2.shards, key) == Lookup(f2.live, key)
    ensures Inv(s2, After(t, lost, s2.cache)) && Simulates(s2, f2, After(t, lost, s2.cache))
  {
    hide Find, View, WellFormed, SameJournals;
    forall c | c in s2.cache ensures HolderGood(s2, lost, c, t.held[c]) {
      assert HolderGood(s, t.lost, c, t.held[c]);
      WithoutEntityRemovesAll(s.cache, key, t.held[c].versionID);
    }
  }

  /** Putting an entry on the store side, and putting one or not on the flat side. */
  lemma PutSimulates(s: Sys, f: Flat, t: Track, key: Key, v: EntryValue, live: Live, lost: set<Key>)
    requires Inv(s, t) && Simulates(s, f, t)
    requires forall k :: k != key ==> Lookup(live, k) == Lookup(f.live, k) && (k in lost <==> k in t.lost)
    requires key !in lost ==> Lookup(live, key) == Some(v)
    ensures var s2 := SysPut(s, key, v);
            Inv(s2, After(t, lost, s2.cache)) && Simulates(s2, f.(live := live), After(t, lost, s2.cache))
  {
    hide WellFormed, SameJournals, CacheGood, After;
    ChangeSimulates(s, f, t, SysPut(s, key, v), f.(live := live), lost, key);
  }

  lemma DropSimulates(s: Sys, f: Flat, t: Track, key: Key, live: Live, lost: set<Key>)
    requires Inv(s, t) && Simulates(s, f, t)
    requires forall k :: k != key ==> Lookup(live, k) == Lookup(f.live, k) && (k in lost <==> k in t.lost)
    requires key !in lost ==> Lookup(live, key) == None
    ensures var s2 := SysDrop(s, key);
            Inv(s2, After(t, lost, s2.cache)) && Simulates(s2, f.(live := live), After(t, lost, s2.cache))
  {
    hide WellFormed, SameJournals, CacheGood, After;
    ChangeSimulates(s, f, t, SysDrop(s, key), f.(live := live), lost, key);
  }

  /** A replay of corresponding operations. */
  lemma {:induction false} UndoSimulates(s: Sys, f: Flat, t: Track, a: seq<OpValue>, b: seq<OpValue>, g: seq<Op<bool>>, seen: set<Key>)
    requires Inv(s, t) && Simulates(s, f, t) && SameJournals(a, b, g)
    ensures var s2 := SysUndo(s, a, seen);
            var t2 := After(t, TrackUndo(t.lost, g, seen), s2.cache);
            Inv(s2, t2) && Simulates(s2, f.(live := Undo(f.live, b, seen)), t2)
    decreases a
  {
    hide Inv, Simulates, Cut;
    InvHasShards(s, t);
    if a == [] {
      CutNothing(s, t);
    } else {
      var key := a[0].key;
      assert SameOp(a[0], b[0], g[0]);
      if key in seen {
        UndoSimulates(s, f, t, a[1..], b[1..], g[1..], seen);
      } else {
        var lost := if g[0].before then t.lost - {key} else t.lost + {key};
        var f2 := f.(live := Restore(f.live, key, b[0].before));
        var s2 := RestoreSimulates(s, f, t, key, a[0].before, b[0].before, lost);
        UndoSimulates(s2, f2, After(t, lost, s2.cache), a[1..], b[1..], g[1..], seen + {key});
        ForgottenShrinks(s2.cache, a[1..], seen + {key});
        CutTwice(t.held, s2.cache, Forgotten(s2.cache, a[1..], seen + {key}));
      }
    }
  }

  lemma CutNothing(s: Sys, t: Track)
    requires Inv(s, t)
    ensures Cut(t.held, s.cache) == t.held
  {
  }

  lemma CutTwice(held: map<string, Holder>, c: CacheMap, d: CacheMap)
    requires d.Keys <= c.Keys
    ensures Cut(Cut(held, c), d) == Cut(held, d)
  {
  }

  lemma RestoreSimulates(s: Sys, f: Flat, t: Track, key: Key, a: Option<EntryValue>, b: Option<EntryValue>, lost: set<Key>)
    returns (s2: Sys)
    requires Inv(s, t) && Simulates(s, f, t)
    requires (forall k :: k != key ==> (k in lost <==> k in t.lost)) && (key !in lost ==> a == b)
    ensures s2 == s.(shards := RestoreIn(s.hash, s.shards, key, a), cache := WithoutEntity(s.cache, key)) && |s2.shards| > 0
    ensures Inv(s2, After(t, lost, s2.cache)) && Simulates(s2, f.(live := Restore(f.live, key, b)), After(t, lost, s2.cache))
  {
    hide WellFormed, SameJournals, CacheGood, After;
    match a
    case None =>
      s2 := SysDrop(s, key);
      DropSimulates(s, f, t, key, Restore(f.live, key, b), lost);
    case Some(v) =>
      s2 := SysPut(s, key, v);
      PutSimulates(s, f, t, key, v, Restore(f.live, key, b), lost);
  }

  /** Filtering by batch keeps the journals in step. */
  lemma {:induction false} FiltersStayTogether(a: seq<OpValue>, b: seq<OpValue>, g: seq<Op<bool>>, batch: string)
    requires SameJournals(a, b, g)
    ensures SameJournals(OpsOf(a, batch), OpsOf(b, batch), OpsOf(g, batch))
    ensures SameJournals(Without(a, batch), Without(b, batch), Without(g, batch))
  {
    if a != [] {
      assert SameOp(a[|a| - 1], b[|a| - 1], g[|a| - 1]);
      FiltersStayTogether(a[..|a| - 1], b[..|a| - 1], g[..|a| - 1], batch);
    }
  }

  lemma RollbackSimulates(s: Sys, f: Flat, t: Track, batch: string)
    requires Inv(s, t) && Simulates(s, f, t)
    ensures var call := RollbackBatch(batch);
            Inv(Step(s, call).0, TrackStep(t, s, call)) && Simulates(Step(s, call).0, FlatStep(f, call).0, TrackStep(t, s, call))
  {
    hide WellFormed, UndoShards, Undo, TrackUndo, Find, OpsOf, Without, Cut, HolderGood;
    FiltersStayTogether(s.ops, f.ops, t.ops, batch);
    UndoSimulates(s, f, t, OpsOf(s.ops, batch), OpsOf(f.ops, batch), OpsOf(t.ops, batch), {});
    var undone := SysUndo(s, OpsOf(s.ops, batch), {});
    var t2 := After(t, TrackUndo(t.lost, OpsOf(t.ops, batch), {}), undone.cache);
    JournalOnly(undone, SysRollback(s, batch), t2, t2.(ops := Without(t.ops, batch)));
  }

  /** The journal plays no part in what is cached. */
  lemma JournalOnly(s: Sys, s2: Sys, t: Track, t2: Track)
    requires Inv(s, t) && s2 == s.(ops := s2.ops) && t2.lost == t.lost && t2.held == t.held
    ensures Inv(s2, t2)
  {
    hide WellFormed, View, Find;
    forall c | c in s2.cache ensures HolderGood(s2, t2.lost, c, t2.held[c]) {
      assert HolderGood(s, t.lost, c, t.held[c]);
    }
  }

  lemma JournalSimulates(s: Sys, f: Flat, t: Track, call: Call)
    requires Inv(s, t) && Simulates(s, f, t) && (call.JournalWrite? || call.ClearJournal?)
    ensures Inv(Step(s, call).0, TrackStep(t, s, call)) && Simulates(Step(s, call).0, FlatStep(f, call).0, TrackStep(t, s, call))
  {
    hide Inv;
    InvHasShards(s, t);
    JournalOnly(s, Step(s, call).0, t, TrackStep(t, s, call));
    if call.ClearJournal? {
      FiltersStayTogether(s.ops, f.ops, t.ops, call.batch);
    }
  }

  lemma ReadSimulates(s: Sys, f: Flat, t: Track, key: Key, v: string)
    requires Inv(s, t) && Simulates(s, f, t)
    ensures var (s2, reply) := SysRead(s, key, v);
            && Inv(s2, Filled(t, s, key, v)) && Simulates(s2, f, Filled(t, s, key, v))
            && (key !in t.lost && OwnString(t, s.vm, key, v) ==> reply == Saw(View(Lookup(f.live, key), f.vm, key, v)))
  {
    hide WellFormed, SameJournals, View;
    var c := CacheKey(key, v);
    if c in s.cache {
      assert s.cache[c := s.cache[c]] == s.cache;
      if key !in t.lost && OwnString(t, s.vm, key, v) {
        HitIsView(s, key, v, t);
      }
    } else {
      var s2, t2 := SysRead(s, key, v).0, Filled(t, s, key, v);
      forall d | d in s2.cache ensures HolderGood(s2, t2.lost, d, t2.held[d]) {
        assert d != c ==> HolderGood(s, t.lost, d, t.held[d]);
      }
    }
  }

  /** A key that is neither lost nor moved is found as before. */
  lemma GrownFind(s: Sys, count: int, key: Key)
    requires |s.shards| > 0 && key !in MovedKeys(s, count)
    ensures Find(s.hash, Grown(s.shards, count), key) == Find(s.hash, s.shards, key)
  {
    if count > |s.shards| {
      GrowthFind(s.hash, s.shards, count, key);
      assert forall i :: 0 <= i < |s.shards| && key in s.shards[i] ==> key in StoredKeys(s.shards);
    }
  }

  lemma GrowSimulates(s: Sys, f: Flat, t: Track, count: int)
    requires Inv(s, t) && Simulates(s, f, t)
    ensures var call := ExpandShards(count);
            Inv(Step(s, call).0, TrackStep(t, s, call)) && Simulates(Step(s, call).0, FlatStep(f, call).0, TrackStep(t, s, call))
  {
    hide WellFormed, SameJournals, View, Find, Grown, MovedKeys;
    var s2, lost := Step(s, ExpandShards(count)).0, t.lost + MovedKeys(s, count);
    forall k | k !in lost ensures Find(s2.hash, s2.shards, k) == Find(s.hash, s.shards, k) {
      GrownFind(s, count, k);
    }
    forall c | c in s2.cache ensures HolderGood(s2, lost, c, t.held[c]) {
      assert HolderGood(s, t.lost, c, t.held[c]);
    }
  }

  /** Registering a version changes no cached view but those of reads made under its identifier before. */
  lemma CreateSimulates(s: Sys, table: string, layout: seq<string>, now: int, t: Track)
    requires Inv(s, t)
    ensures var s2 := s.(vm := Created(s.vm, table, layout, now)); Inv(s2, After(t, t.lost, s2.cache))
  {
    var s2 := s.(vm := Created(s.vm, table, layout, now));
    CreateKeepsWellFormed(s.vm, table, layout, now);
    CreateIsFresh(s.vm, table);
    hide WellFormed;
    CutNothing(s, t);
    forall c | c in s2.cache ensures HolderGood(s2, t.lost, c, t.held[c]) {
      assert HolderGood(s, t.lost, c, t.held[c]);
      assert StillRight(s2.vm, t.held[c]) ==> LayoutOf(s2.vm, t.held[c].versionID) == LayoutOf(s.vm, t.held[c].versionID);
    }
  }

  /** A minted identifier holds an '@' exactly when its table's name does. */
  lemma MintHasNoAt(table: string, n: nat)
    ensures '@' !in Mint(table, n) <==> '@' !in table
  {
    Text.DecimalReadsBack(n);
  }

  lemma ManageSimulates(s: Sys, f: Flat, t: Track, op: VersionRuns.Op)
    requires Inv(s, t) && Simulates(s, f, t)
    ensures var (s2, reply) := Step(s, Manage(op)); var (g, answer) := FlatStep(f, Manage(op));
            Inv(s2, After(t, t.lost, s2.cache)) && Simulates(s2, g, After(t, t.lost, s2.cache)) && reply == answer
  {
    hide HolderGood;
    CutNothing(s, t);
    if VersionRuns.Accepts(s.vm, op) {
      VersionRuns.StepKeepsWellFormed(s.vm, op);
      match op
      case Create(table, tables, now) => CreateSimulates(s, table, tables[table], now, t);
      case Publish(id, now) =>
      case Rollback(id) =>
    }
  }

  lemma MergeSimulates(s: Sys, f: Flat, t: Track, call: Call)
    requires Inv(s, t) && Simulates(s, f, t) && call.Merge?
    ensures var s2 := Step(s, call).0; Inv(s2, After(t, t.lost, s2.cache)) && Simulates(s2, FlatStep(f, call).0, After(t, t.lost, s2.cache))
  {
    hide Inv, Merged, Find, After;
    InvHasShards(s, t);
    var v := Merged(Find(s.hash, s.shards, call.key), call.patch, call.overwrite, call.versionID, call.now);
    PutSimulates(s, f, t, call.key, v, FlatStep(f, call).0.live, t.lost);
  }

  lemma CompareSimulates(s: Sys, f: Flat, t: Track, call: Call)
    requires Inv(s, t) && Simulates(s, f, t) && call.CompareAndWrite?
    ensures var s2 := Step(s, call).0; Inv(s2, After(t, t.lost, s2.cache)) && Simulates(s2, FlatStep(f, call).0, After(t, t.lost, s2.cache))
    ensures call.key !in t.lost ==> Step(s, call).1 == FlatStep(f, call).1
  {
    hide Inv, Admits, Find, SameJournals;
    InvHasShards(s, t);
    CutNothing(s, t);
    if Admits(Find(s.hash, s.shards, call.key), call.versionID) {
      PutSimulates(s, f, t, call.key, EntryValue(call.fields, call.versionID, call.now), FlatStep(f, call).0.live, t.lost);
    }
  }

  /** One call on both sides. */
  ghost predicate InStep(s: Sys, f: Flat, t: Track, call: Call)
    requires |s.shards| > 0
  {
    var (s2, reply) := Step(s, call);
    var (f2, answer) := FlatStep(f, call);
    var t2 := TrackStep(t, s, call);
    Inv(s2, t2) && Simulates(s2, f2, t2) && (Trusted(t, s, call) ==> reply == answer)
  }

  lemma StepSimulates(s: Sys, f: Flat, t: Track, call: Call)
    requires Inv(s, t) && Simulates(s, f, t)
    ensures InStep(s, f, t, call)
  {
    hide Inv, Simulates, OwnString, Filled, After;
    InvHasShards(s, t);
    match call
    case Write(k, fields, v, now) => WriteSimulates(s, f, t, call);
    case Merge(k, patch, overwrite, v, now) => MergeSimulates(s, f, t, call);
    case CompareAndWrite(k, fields, v, now) => CompareSimulates(s, f, t, call);
    case Delete(k) => WriteSimulates(s, f, t, call);
    case JournalWrite(k, batch, segment) => JournalSimulates(s, f, t, call);
    case ClearJournal(batch) => JournalSimulates(s, f, t, call);
    case RollbackBatch(batch) => RollbackSimulates(s, f, t, batch);
    case Read(k) => SameVersions(s, f, t); ReadSimulates(s, f, t, k, VersionOf(s, call));
    case ReadVersion(k, v) => SameVersions(s, f, t); ReadSimulates(s, f, t, k, VersionOf(s, call));
    case ExpandShards(count) => GrowSimulates(s, f, t, count);
    case Manage(op) => ManageSimulates(s, f, t, op);
  }

  lemma InvHasShards(s: Sys, t: Track)
    requires Inv(s, t)
    ensures |s.shards| > 0
  {
  }

  lemma SameVersions(s: Sys, f: Flat, t: Track)
    requires |s.shards| > 0 && Simulates(s, f, t)
    ensures s.vm == f.vm
  {
  }

  lemma WriteSimulates(s: Sys, f: Flat, t: Track, call: Call)
    requires Inv(s, t) && Simulates(s, f, t) && (call.Write? || call.Delete?)
    ensures Inv(Step(s, call).0, TrackStep(t, s, call)) && Simulates(Step(s, call).0, FlatStep(f, call).0, TrackStep(t, s, call))
  {
    hide Inv, SameJournals, Find, After;
    InvHasShards(s, t);
    var live, lost := FlatStep(f, call).0.live, t.lost - {call.key};
    if call.Write? {
      PutSimulates(s, f, t, call.key, EntryValue(call.fields, call.versionID, call.now), live, lost);
    } else {
      DropSimulates(s, f, t, call.key, live, lost);
    }
  }

  /** Call i of a run is trusted in the state it finds. */
  ghost predicate TrustedAt(t: Track, s: Sys, calls: seq<Call>, i: nat)
    requires |s.shards| > 0 && i < |calls|
  {
    Trusted(TrackRun(t, s, calls[..i]), Run(s, calls[..i]).0, calls[i])
  }

  lemma {:induction false} RunSimulates(s: Sys, f: Flat, t: Track, calls: seq<Call>)
    requires Inv(s, t) && Simulates(s, f, t)
    ensures Inv(Run(s, calls).0, TrackRun(t, s, calls)) && Simulates(Run(s, calls).0, FlatRun(f, calls).0, TrackRun(t, s, calls))
    ensures forall i :: 0 <= i < |calls| && TrustedAt(t, s, calls, i) ==> Run(s, calls).1[i] == FlatRun(f, calls).1[i]
  {
    hide Inv, Simulates, Step, FlatStep, TrackStep, Trusted;
    InvHasShards(s, t);
    if calls != [] {
      var n := |calls| - 1;
      var front := calls[..n];
      RunSimulates(s, f, t, front);
      StepInRun(s, f, t, front, calls[n]);
      forall i | 0 <= i < |calls| && TrustedAt(t, s, calls, i) ensures Run(s, calls).1[i] == FlatRun(f, calls).1[i] {
        assert i < n ==> calls[i] == front[i] && front[..i] == calls[..i] && TrustedAt(t, s, front, i);
      }
    }
  }

  lemma StepInRun(s: Sys, f: Flat, t: Track, front: seq<Call>, call: Call)
    requires |s.shards| > 0
    requires Inv(Run(s, front).0, TrackRun(t, s, front)) && Simulates(Run(s, front).0, FlatRun(f, front).0, TrackRun(t, s, front))
    ensures var s1, f1, t1 := Run(s, front).0, FlatRun(f, front).0, TrackRun(t, s, front);
            var t2 := TrackStep(t1, s1, call);
            && Inv(Step(s1, call).0, t2) && Simulates(Step(s1, call).0, FlatStep(f1, call).0, t2)
            && (Trusted(t1, s1, call) ==> Step(s1, call).1 == FlatStep(f1, call).1)
  {
    hide Inv, Simulates, Step, FlatStep, TrackStep, Trusted, Run, FlatRun, TrackRun;
    StepSimulates(Run(s, front).0, FlatRun(f, front).0, TrackRun(t, s, front), call);
  }

  function NewSys(hash: HashFn, count: nat): Sys {
    Sys(hash, EmptyShards(count), map[], EMPTY_MANAGER, [])
  }

  const NEW_FLAT := Flat(map[], EMPTY_MANAGER, [])
  const NEW_TRACK := Track({}, [], map[])

  /**
   Every run from a new store, whatever its calls: each call is answered exactly as the flat map answers
   it, but for two kinds. One reads or tests a key that an expansion has moved since the key was last
   written, deleted, or restored from a before-image taken while it was good. The other reads a string
   that a read of another pair has filled, or a read made before its version was registered.
   */
  lemma StoreRefinesFlatMap(hash: HashFn, count: nat, calls: seq<Call>)
    requires count > 0
    ensures forall i :: 0 <= i < |calls| && TrustedAt(NEW_TRACK, NewSys(hash, count), calls, i) ==>
              Run(NewSys(hash, count), calls).1[i] == FlatRun(NEW_FLAT, calls).1[i]
  {
    NewSimulates(hash, count);
    RunSimulates(NewSys(hash, count), NEW_FLAT, NEW_TRACK, calls);
  }

  lemma NewSimulates(hash: HashFn, count: nat)
    requires count > 0
    ensures Inv(NewSys(hash, count), NEW_TRACK) && Simulates(NewSys(hash, count), NEW_FLAT, NEW_TRACK)
  {
  }

  lemma {:induction false} FlatReplyAt(f: Flat, calls: seq<Call>, i: nat)
    requires i < |calls|
    ensures FlatRun(f, calls).1[i] == FlatStep(FlatRun(f, calls[..i]).0, calls[i]).1
  {
    hide FlatStep;
    var front := calls[..|calls| - 1];
    if i < |front| {
      FlatReplyAt(f, front, i);
      assert front[..i] == calls[..i];
    }
  }

  lemma ActiveIsRegistered(m: ManagerValue)
    requires WellFormed(m)
    ensures "" !in m.versions && (m.activeID in m.versions ==> m.versions[m.activeID].id == m.activeID)
  {
    NoEmptyName(m);
    assert m.activeID in m.versions ==> IdentifierOK(m, m.activeID);
  }

  lemma FlatReadShows(f: Flat, call: Call)
    requires WellFormed(f.vm) && (call.Read? || call.ReadVersion?)
    ensures var active := if f.vm.activeID in f.vm.versions && f.vm.versions[f.vm.activeID].state == Published then f.vm.activeID else "";
            var id := if call.ReadVersion? && call.versionID != "" then call.versionID else active;
            FlatStep(f, call).1.Saw?
            && Shows(FlatStep(f, call).1.snapshot, Lookup(f.live, call.key), call.key, id,
                     if id in f.vm.versions then f.vm.versions[id].fields else [])
  {
    hide WellFormed, Shows, View, ActiveID;
    ActiveIsRegistered(f.vm);
    ActiveIDIs(f.vm);
    ViewShows(Lookup(f.live, call.key), f.vm, call.key, ActiveID(f.vm));
    if call.ReadVersion? {
      ViewShows(Lookup(f.live, call.key), f.vm, call.key, call.versionID);
    }
  }

  /**
   What a trusted read of any run shows, field by field: the version, the write time and the values of the entry that
   the calls before it have left in the flat map, of those fields that the layout of the version names. A read that
   names no version is under the one pointed to, while that is published; a version that is not registered, and an
   empty layout, hide nothing. An entity that is not stored reads as empty.
   */
  lemma TrustedReadShows(hash: HashFn, count: nat, calls: seq<Call>, i: nat)
    requires count > 0 && i < |calls| && (calls[i].Read? || calls[i].ReadVersion?)
    requires TrustedAt(NEW_TRACK, NewSys(hash, count), calls, i)
    ensures var f, reply := FlatRun(NEW_FLAT, calls[..i]).0, Run(NewSys(hash, count), calls).1[i];
            var m, e := f.vm, Lookup(f.live, calls[i].key);
            var active := if m.activeID in m.versions && m.versions[m.activeID].state == Published then m.activeID else "";
            var id := if calls[i].ReadVersion? && calls[i].versionID != "" then calls[i].versionID else active;
            var layout := if id in m.versions then m.versions[id].fields else [];
            && reply.Saw? && reply.snapshot.entity == calls[i].key
            && reply.snapshot.versionID == (if e.Some? then e.value.versionID else id)
            && reply.snapshot.writtenAt == (if e.Some? then e.value.writtenAt else ZERO_TIME)
            && (forall n :: n in reply.snapshot.fields <==> e.Some? && n in e.value.fields && (layout == [] || n in layout))
            && (forall n :: n in reply.snapshot.fields ==> reply.snapshot.fields[n] == e.value.fields[n])
  {
    hide Run, FlatRun, TrackRun, Inv, Simulates, Trusted, FlatStep, WellFormed;
    var s := NewSys(hash, count);
    NewSimulates(hash, count);
    RunSimulates(s, NEW_FLAT, NEW_TRACK, calls[..i]);
    RunVersions(Run(s, calls[..i]).0, FlatRun(NEW_FLAT, calls[..i]).0, TrackRun(NEW_TRACK, s, calls[..i]));
    StoreRefinesFlatMap(hash, count, calls);
    FlatReplyAt(NEW_FLAT, calls, i);
    FlatReadShows(FlatRun(NEW_FLAT, calls[..i]).0, calls[i]);
  }

  lemma RunVersions(s: Sys, f: Flat, t: Track)
    requires Inv(s, t) && Simulates(s, f, t)
    ensures WellFormed(f.vm)
  {
  }

  /** Every cached string was filled under a version registered at the time, or none. */
  ghost predicate AllKnown(t: Track) {
    forall c :: c in t.held ==> t.held[c].known
  }

  lemma StepKeepsKnown(t: Track, s: Sys, call: Call)
    requires |s.shards| > 0 && AllKnown(t) && Allowed(s, call)
    ensures AllKnown(TrackStep(t, s, call))
  {
    hide Step, Known, TrackUndo;
  }

  lemma {:induction false} RunKeepsKnown(t: Track, s: Sys, calls: seq<Call>)
    requires |s.shards| > 0 && AllKnown(t) && AllowedRun(s, calls)
    ensures AllKnown(TrackRun(t, s, calls))
  {
    hide AllKnown, TrackStep, Step, Allowed;
    if calls != [] {
      var front := calls[..|calls| - 1];
      RunKeepsKnown(t, s, front);
      StepKeepsKnown(TrackRun(t, s, front), Run(s, front).0, calls[|calls| - 1]);
    }
  }

  lemma {:induction false} AllowedPrefix(s: Sys, calls: seq<Call>, i: nat)
    requires |s.shards| > 0 && AllowedRun(s, calls) && i <= |calls|
    ensures AllowedRun(s, calls[..i]) && (i < |calls| ==> Allowed(Run(s, calls[..i]).0, calls[i]))
  {
    hide Run, Allowed;
    if i == |calls| {
      assert calls[..i] == calls;
    } else if i < |calls| - 1 {
      AllowedPrefix(s, calls[..|calls| - 1], i);
      assert calls[..|calls| - 1][..i] == calls[..i];
    }
  }

  /** The call reads or tests a lost key. */
  predicate AboutLost(t: Track, call: Call) {
    (call.Read? || call.ReadVersion? || call.CompareAndWrite?) && call.key in t.lost
  }

  /**
   If all reads of the run are under versions registered at the time, or none, lost keys are the only
   exception, whatever characters the table names hold.
   */
  lemma KnownReadsRefineFlatMap(hash: HashFn, count: nat, calls: seq<Call>)
    requires count > 0 && AllowedRun(NewSys(hash, count), calls)
    ensures forall i :: 0 <= i < |calls| && !AboutLost(TrackRun(NEW_TRACK, NewSys(hash, count), calls[..i]), calls[i]) ==>
              Run(NewSys(hash, count), calls).1[i] == FlatRun(NEW_FLAT, calls).1[i]
  {
    hide Run, FlatRun, TrackRun, AllowedRun, Inv, Simulates, Trusted, Allowed;
    var s := NewSys(hash, count);
    StoreRefinesFlatMap(hash, count, calls);
    forall i | 0 <= i < |calls| && !AboutLost(TrackRun(NEW_TRACK, s, calls[..i]), calls[i]) ensures TrustedAt(NEW_TRACK, s, calls, i) {
      NewSimulates(hash, count);
      RunSimulates(s, NEW_FLAT, NEW_TRACK, calls[..i]);
      AllowedPrefix(s, calls, i);
      RunKeepsKnown(NEW_TRACK, s, calls[..i]);
      KnownIsTrusted(TrackRun(NEW_TRACK, s, calls[..i]), Run(s, calls[..i]).0, calls[i]);
    }
  }

  lemma KnownIsTrusted(t: Track, s: Sys, call: Call)
    requires Inv(s, t) && AllKnown(t) && Allowed(s, call) && !AboutLost(t, call)
    ensures Trusted(t, s, call)
  {
    hide WellFormed, OwnString;
    if call.Read? || call.ReadVersion? {
      KnownReadIsOwn(s, t, call.key, VersionOf(s, call));
    }
  }

  /** Nothing is lost and every before-image can be trusted. */
  ghost predicate NothingLost(t: Track) {
    t.lost == {} && forall i :: 0 <= i < |t.ops| ==> t.ops[i].before
  }

  lemma {:induction false} FiltersKeepTrust(ops: seq<Op<bool>>, batch: string)
    requires forall i :: 0 <= i < |ops| ==> ops[i].before
    ensures forall i :: 0 <= i < |OpsOf(ops, batch)| ==> OpsOf(ops, batch)[i].before
    ensures forall i :: 0 <= i < |Without(ops, batch)| ==> Without(ops, batch)[i].before
  {
    if ops != [] {
      FiltersKeepTrust(ops[..|ops| - 1], batch);
    }
  }

  lemma {:induction false} TrustedUndo(lost: set<Key>, ops: seq<Op<bool>>, seen: set<Key>)
    requires lost == {} && forall i :: 0 <= i < |ops| ==> ops[i].before
    ensures TrackUndo(lost, ops, seen) == {}
    decreases ops
  {
    if ops != [] {
      TrustedUndo({}, ops[1..], if ops[0].key in seen then seen else seen + {ops[0].key});
      assert lost - {ops[0].key} == {};
    }
  }

  predicate Grows(s: Sys, call: Call) {
    call.ExpandShards? && call.count > |s.shards|
  }

  lemma StepLosesNothing(t: Track, s: Sys, call: Call)
    requires |s.shards| > 0 && NothingLost(t) && !Grows(s, call)
    ensures NothingLost(TrackStep(t, s, call)) && |Step(s, call).0.shards| == |s.shards|
  {
    hide UndoShards;
    if call.RollbackBatch? {
      FiltersKeepTrust(t.ops, call.batch);
      TrustedUndo(t.lost, OpsOf(t.ops, call.batch), {});
    } else if call.ClearJournal? {
      FiltersKeepTrust(t.ops, call.batch);
    } else if call.ExpandShards? {
      assert MovedKeys(s, call.count) == {};
    }
  }

  lemma {:induction false} RunLosesNothing(t: Track, s: Sys, calls: seq<Call>)
    requires |s.shards| > 0 && NothingLost(t)
    requires forall i :: 0 <= i < |calls| ==> !Grows(s, calls[i])
    ensures NothingLost(TrackRun(t, s, calls)) && |Run(s, calls).0.shards| == |s.shards|
  {
    hide NothingLost, Step, TrackStep;
    if calls != [] {
      RunLosesNothing(t, s, calls[..|calls| - 1]);
      StepLosesNothing(TrackRun(t, s, calls[..|calls| - 1]), Run(s, calls[..|calls| - 1]).0, calls[|calls| - 1]);
    }
  }

  /** At a fixed shard count the journals and the stored entries coincide after every run. */
  lemma FixedCountState(hash: HashFn, count: nat, calls: seq<Call>)
    requires count > 0
    requires forall i :: 0 <= i < |calls| ==> !Grows(NewSys(hash, count), calls[i])
    ensures Run(NewSys(hash, count), calls).0.ops == FlatRun(NEW_FLAT, calls).0.ops
    ensures Run(NewSys(hash, count), calls).0.vm == FlatRun(NEW_FLAT, calls).0.vm
    ensures LiveOf(hash, Run(NewSys(hash, count), calls).0.shards) == FlatRun(NEW_FLAT, calls).0.live
  {
    hide Run, FlatRun, TrackRun, Find, LiveOf, Inv;
    var s := NewSys(hash, count);
    NewSimulates(hash, count);
    RunSimulates(s, NEW_FLAT, NEW_TRACK, calls);
    RunLosesNothing(NEW_TRACK, s, calls);
    RunKeepsHash(s, calls);
    var end, flat, t := Run(s, calls).0, FlatRun(NEW_FLAT, calls).0, TrackRun(NEW_TRACK, s, calls);
    forall k ensures Lookup(LiveOf(hash, end.shards), k) == Lookup(flat.live, k) {
      LiveIsFind(hash, end.shards, k);
    }
    SameLookups(LiveOf(hash, end.shards), flat.live);
    forall i | 0 <= i < |end.ops| ensures end.ops[i] == flat.ops[i] {
      assert SameOp(end.ops[i], flat.ops[i], t.ops[i]);
    }
  }

  /** And if its reads are under registered versions, or none, so do all replies. */
  lemma FixedCountRefinesFlatMap(hash: HashFn, count: nat, calls: seq<Call>)
    requires count > 0 && AllowedRun(NewSys(hash, count), calls)
    requires forall i :: 0 <= i < |calls| ==> !Grows(NewSys(hash, count), calls[i])
    ensures Run(NewSys(hash, count), calls).1 == FlatRun(NEW_FLAT, calls).1
  {
    hide Run, FlatRun, TrackRun, AllowedRun;
    var s := NewSys(hash, count);
    KnownReadsRefineFlatMap(hash, count, calls);
    forall i | 0 <= i < |calls| ensures !AboutLost(TrackRun(NEW_TRACK, s, calls[..i]), calls[i]) {
      RunLosesNothing(NEW_TRACK, s, calls[..i]);
    }
  }

  lemma {:induction false} RunKeepsHash(s: Sys, calls: seq<Call>)
    requires |s.shards| > 0
    ensures Run(s, calls).0.hash == s.hash
  {
    hide Step;
    if calls != [] {
      RunKeepsHash(s, calls[..|calls| - 1]);
    }
  }

  /**
   Where the promise stops. A read under an identifier that is not registered yet caches the
   unfiltered entry; after Create registers that identifier the same read is still answered from
   the cache, and the answer is right exactly when the new layout hides none of the entry's fields.
   */
  lemma UnregisteredReadGoesStale(s: Sys, key: Key, table: string, layout: seq<string>, now: int)
    requires |s.shards| > 0 && WellFormed(s.vm)
    requires CacheKey(key, Mint(table, |s.vm.versions| + 1)) !in s.cache
    ensures var id := Mint(table, |s.vm.versions| + 1);
            var s1 := SysRead(s, key, id).0;
            var s2 := s1.(vm := Created(s1.vm, table, layout, now));
            var e := Find(s.hash, s.shards, key);
            SysRead(s2, key, id).1 == Saw(View(e, s2.vm, key, id)) <==>
            (layout == [] || forall n :: n in FieldsOf(e) ==> n in layout)
  {
    CreateIsFresh(s.vm, table);
    var e := Find(s.hash, s.shards, key);
    if e.Some? && layout != [] {
      var kept := Filtered(e.value.fields, layout);
      if forall n :: n in e.value.fields ==> n in layout {
        assert kept == e.value.fields;
      } else {
        var n :| n in e.value.fields && n !in layout;
        assert n !in kept;
      }
    }
  }

  lemma RunNext(s: Sys, calls: seq<Call>, call: Call)
    requires |s.shards| > 0
    ensures var (t, replies) := Run(s, calls); Run(s, calls + [call]) == (Step(t, call).0, replies + [Step(t, call).1])
  {
    assert (calls + [call])[..|calls|] == calls;
  }

  lemma FlatRunNext(f: Flat, calls: seq<Call>, call: Call)
    ensures var (g, replies) := FlatRun(f, calls); FlatRun(f, calls + [call]) == (FlatStep(g, call).0, replies + [FlatStep(g, call).1])
  {
    assert (calls + [call])[..|calls|] == calls;
  }

  /** The last reply of a run, from the store and from the flat map. */
  ghost predicate Disagree(hash: HashFn, count: nat, calls: seq<Call>)
    requires count > 0 && calls != []
  {
    Run(NewSys(hash, count), calls).1[|calls| - 1] != FlatRun(NEW_FLAT, calls).1[|calls| - 1]
  }

  lemma RunThree(s: Sys, f: Flat, a: Call, b: Call, c: Call)
    requires |s.shards| > 0
    ensures var s1 := Step(s, a).0; var s2 := Step(s1, b).0;
            Run(s, [a, b, c]).0 == Step(s2, c).0 && Run(s, [a, b, c]).1[2] == Step(s2, c).1
    ensures var f1 := FlatStep(f, a).0; var f2 := FlatStep(f1, b).0;
            FlatRun(f, [a, b, c]).0 == FlatStep(f2, c).0 && FlatRun(f, [a, b, c]).1[2] == FlatStep(f2, c).1
  {
    hide Step, FlatStep;
    assert [] + [a] == [a] && [a] + [b] == [a, b] && [a, b] + [c] == [a, b, c];
    RunNext(s, [], a);
    RunNext(s, [a], b);
    RunNext(s, [a, b], c);
    FlatRunNext(f, [], a);
    FlatRunNext(f, [a], b);
    FlatRunNext(f, [a, b], c);
  }

  const SAMPLE: Fields := map["x" := IntValue(1)]

  /** A run in which a read under a registered version is wrong: it was cached before the version was created. */
  lemma StaleRun(hash: HashFn, count: nat, key: Key, table: string)
    requires count > 0
    ensures var read := ReadVersion(key, Mint(table, 1));
            Disagree(hash, count, [Write(key, SAMPLE, "", 0), read, Manage(VersionRuns.Create(table, map[table := ["y"]], 0)), read])
  {
    hide Run, FlatRun, Step, FlatStep;
    var s, f := NewSys(hash, count), NEW_FLAT;
    var write, read := Write(key, SAMPLE, "", 0), ReadVersion(key, Mint(table, 1));
    var create := Manage(VersionRuns.Create(table, map[table := ["y"]], 0));
    RunThree(s, f, write, read, create);
    RunNext(s, [write, read, create], read);
    FlatRunNext(f, [write, read, create], read);
    assert [write, read, create] + [read] == [write, read, create, read];
    StaleSteps(s, f, key, table);
  }

  lemma StaleSteps(s: Sys, f: Flat, key: Key, table: string)
    requires |s.shards| > 0 && s.vm == f.vm == EMPTY_MANAGER && s.cache == map[]
    ensures var read := ReadVersion(key, Mint(table, 1));
            var write, create := Write(key, SAMPLE, "", 0), Manage(VersionRuns.Create(table, map[table := ["y"]], 0));
            Step(Step(Step(Step(s, write).0, read).0, create).0, read).1 !=
            FlatStep(FlatStep(FlatStep(FlatStep(f, write).0, read).0, create).0, read).1
  {
    hide Step, FlatStep, Mint;
    StaleStore(s, key, table, Mint(table, 1));
    StaleFlat(f, key, table);
    var e, vm := Some(EntryValue(SAMPLE, "", 0)), Created(EMPTY_MANAGER, table, ["y"], 0);
    assert "x" in View(e, EMPTY_MANAGER, key, Mint(table, 1)).fields && "x" !in View(e, vm, key, Mint(table, 1)).fields;
  }

  /** The store answers the second read from its cache. */
  lemma StaleStore(s: Sys, key: Key, table: string, id: string)
    requires |s.shards| > 0 && s.vm == EMPTY_MANAGER && s.cache == map[] && id != ""
    ensures var read, create := ReadVersion(key, id), Manage(VersionRuns.Create(table, map[table := ["y"]], 0));
            Step(Step(Step(Step(s, Write(key, SAMPLE, "", 0)).0, read).0, create).0, read).1 ==
            Saw(View(Some(EntryValue(SAMPLE, "", 0)), EMPTY_MANAGER, key, id))
  {
    hide View, Mint, Slot, CacheKey;
    var s1 := Step(s, Write(key, SAMPLE, "", 0)).0;
    assert s1.vm == EMPTY_MANAGER && s1.cache == map[] && Find(s1.hash, s1.shards, key) == Some(EntryValue(SAMPLE, "", 0));
  }

  lemma StaleFlat(f: Flat, key: Key, table: string)
    requires f.vm == EMPTY_MANAGER
    ensures var read, create := ReadVersion(key, Mint(table, 1)), Manage(VersionRuns.Create(table, map[table := ["y"]], 0));
            FlatStep(FlatStep(FlatStep(FlatStep(f, Write(key, SAMPLE, "", 0)).0, read).0, create).0, read).1 ==
            Saw(View(Some(EntryValue(SAMPLE, "", 0)), Created(EMPTY_MANAGER, table, ["y"], 0), key, Mint(table, 1)))
  {
    hide View, Mint, Created;
  }

  /** An entry written before an expansion is answered wrongly after it exactly when its key's remainder changed. */
  lemma MovedRun(hash: HashFn, count: nat, more: int, key: Key)
    requires 0 < count < more
    ensures Disagree(hash, count, [Write(key, SAMPLE, "", 0), ExpandShards(more), Read(key)]) <==> hash(key) % more != hash(key) % count
  {
    hide Run, FlatRun, Step, FlatStep;
    var s, f := NewSys(hash, count), NEW_FLAT;
    RunThree(s, f, Write(key, SAMPLE, "", 0), ExpandShards(more), Read(key));
    MovedSteps(s, f, more, key);
  }

  lemma MovedSteps(s: Sys, f: Flat, more: int, key: Key)
    requires 0 < |s.shards| < more && s.shards == EmptyShards(|s.shards|) && s.vm == f.vm == EMPTY_MANAGER && s.cache == map[]
    ensures Step(Step(Step(s, Write(key, SAMPLE, "", 0)).0, ExpandShards(more)).0, Read(key)).1 !=
            FlatStep(FlatStep(FlatStep(f, Write(key, SAMPLE, "", 0)).0, ExpandShards(more)).0, Read(key)).1
            <==> s.hash(key) % more != s.hash(key) % |s.shards|
  {
    var written := Put(s.hash, s.shards, key, EntryValue(SAMPLE, "", 0));
    assert Find(s.hash, written, key) == Some(EntryValue(SAMPLE, "", 0));
    GrowthReach(s.hash, written, more, key);
    assert "x" in SAMPLE;
  }

  const LATER: Fields := map["x" := IntValue(2)]

  lemma RunFive(s: Sys, f: Flat, a: Call, b: Call, c: Call, d: Call, e: Call)
    requires |s.shards| > 0
    ensures var s2 := Step(Step(s, a).0, b).0; var s4 := Step(Step(s2, c).0, d).0;
            Run(s, [a, b, c, d, e]).1[4] == Step(s4, e).1
    ensures var f2 := FlatStep(FlatStep(f, a).0, b).0; var f4 := FlatStep(FlatStep(f2, c).0, d).0;
            FlatRun(f, [a, b, c, d, e]).1[4] == FlatStep(f4, e).1
  {
    hide Step, FlatStep;
    RunThree(s, f, a, b, c);
    assert [a, b, c] + [d] == [a, b, c, d] && [a, b, c, d] + [e] == [a, b, c, d, e];
    RunNext(s, [a, b, c], d);
    RunNext(s, [a, b, c, d], e);
    FlatRunNext(f, [a, b, c], d);
    FlatRunNext(f, [a, b, c, d], e);
  }

  /** An entry, an expansion, its successor, another expansion, a read. */
  function TwiceExpanded(key: Key, first: int, second: int): seq<Call> {
    [Write(key, SAMPLE, "", 0), ExpandShards(first), Write(key, LATER, "", 0), ExpandShards(second), Read(key)]
  }

  /**
   The read is wrong exactly when the second expansion moves the key. It then finds nothing, or, where the
   key is routed back to the slot the first expansion took it from, the overwritten entry.
   */
  lemma TwiceExpandedRun(hash: HashFn, count: nat, first: int, second: int, key: Key)
    requires 0 < count < first < second
    ensures var a, b, c := hash(key) % count, hash(key) % first, hash(key) % second;
            var held := if c == b then Some(EntryValue(LATER, "", 0)) else if c == a then Some(EntryValue(SAMPLE, "", 0)) else None;
            && Run(NewSys(hash, count), TwiceExpanded(key, first, second)).1[4] == Saw(View(held, EMPTY_MANAGER, key, ""))
            && (Disagree(hash, count, TwiceExpanded(key, first, second)) <==> c != b)
  {
    hide Run, FlatRun, Step, FlatStep;
    RunFive(NewSys(hash, count), NEW_FLAT, Write(key, SAMPLE, "", 0), ExpandShards(first), Write(key, LATER, "", 0),
            ExpandShards(second), Read(key));
    TwiceExpandedSteps(NewSys(hash, count), first, second, key);
    TwiceExpandedFlat(key, first, second);
    assert LATER["x"] != SAMPLE["x"] && "x" in LATER;
  }

  lemma TwiceExpandedFlat(key: Key, first: int, second: int)
    ensures var f2 := FlatStep(FlatStep(NEW_FLAT, Write(key, SAMPLE, "", 0)).0, ExpandShards(first)).0;
            var f4 := FlatStep(FlatStep(f2, Write(key, LATER, "", 0)).0, ExpandShards(second)).0;
            FlatStep(f4, Read(key)).1 == Saw(View(Some(EntryValue(LATER, "", 0)), EMPTY_MANAGER, key, ""))
  {
  }

  lemma TwiceExpandedSteps(s: Sys, first: int, second: int, key: Key)
    requires 0 < |s.shards| < first < second && s.shards == EmptyShards(|s.shards|) && s.vm == EMPTY_MANAGER && s.cache == map[]
    ensures var s2 := Step(Step(s, Write(key, SAMPLE, "", 0)).0, ExpandShards(first)).0;
            var s4 := Step(Step(s2, Write(key, LATER, "", 0)).0, ExpandShards(second)).0;
            var a, b, c := s.hash(key) % |s.shards|, s.hash(key) % first, s.hash(key) % second;
            var held := if c == b then Some(EntryValue(LATER, "", 0)) else if c == a then Some(EntryValue(SAMPLE, "", 0)) else None;
            Step(s4, Read(key)).1 == Saw(View(held, EMPTY_MANAGER, key, ""))
  {
    hide View;
    var one := Put(s.hash, s.shards, key, EntryValue(SAMPLE, "", 0));
    var two := Put(s.hash, Grown(one, first), key, EntryValue(LATER, "", 0));
    GrowthFind(s.hash, two, second, key);
    var c := s.hash(key) % second;
    if c < first {
      assert Lookup(two[c], key) ==
             if c == s.hash(key) % first then Some(EntryValue(LATER, "", 0))
             else if c == s.hash(key) % |s.shards| then Some(EntryValue(SAMPLE, "", 0)) else None;
    }
  }

  /** With hash 5 and 2, 3, then 4 shards, the overwritten entry comes back. */
  lemma OverwrittenEntryReturns(hash: HashFn, key: Key)
    requires hash(key) == 5
    ensures Run(NewSys(hash, 2), TwiceExpanded(key, 3, 4)).1[4] == Saw(View(Some(EntryValue(SAMPLE, "", 0)), EMPTY_MANAGER, key, ""))
    ensures Disagree(hash, 2, TwiceExpanded(key, 3, 4))
  {
    hide Run, FlatRun, View, Disagree;
    TwiceExpandedRun(hash, 2, 3, 4, key);
  }

  /**
   After an expansion a cached read is still right exactly when the key's remainder is unchanged, or what
   its new slot holds, a stray copy or nothing, views the same.
   */
  lemma MovedKeyReadsFromCacheOnly(s: Sys, key: Key, count: int, v: string)
    requires |s.shards| > 0 && count > |s.shards| && CacheKey(key, v) in s.cache
    requires s.cache[CacheKey(key, v)] == View(Find(s.hash, s.shards, key), s.vm, key, v)
    ensures var t := s.(shards := Grown(s.shards, count));
            var r := s.hash(key) % count;
            var held := if r < |s.shards| then Lookup(s.shards[r], key) else None;
            SysRead(t, key, v).1 == Saw(View(Find(t.hash, t.shards, key), t.vm, key, v)) <==>
            r == s.hash(key) % |s.shards| || View(held, s.vm, key, v) == s.cache[CacheKey(key, v)]
  {
    GrowthFind(s.hash, s.shards, count, key);
  }

  /**
   Where two pairs share a string, a read of the second is answered with the snapshot the first filled,
   which names the first pair's entity. One of the two identifiers is then not registered.
   */
  lemma CollisionAnswersForAnother(s: Sys, key: Key, v: string, other: Key, w: string)
    requires |s.shards| > 0 && CacheKey(key, v) == CacheKey(other, w) && key != other && CacheKey(key, v) !in s.cache
    ensures var t := SysRead(s, key, v).0;
            SysRead(t, other, w).1 == Saw(View(Find(s.hash, s.shards, key), s.vm, key, v)) && SysRead(t, other, w).1.snapshot.entity == key
    ensures WellFormed(s.vm) ==> !Known(s.vm, v) || !Known(s.vm, w)
  {
    hide WellFormed;
    if WellFormed(s.vm) && Known(s.vm, v) && Known(s.vm, w) {
      RegisteredKeyInjective(s.vm, key, v, other, w);
    }
  }

  /** Every identifier takes part in such a collision: behind an '@' and any text it collides for a longer entity. */
  lemma AtSignAnswersForAnother(s: Sys, key: Key, x: string, v: string)
    requires |s.shards| > 0 && CacheKey(key, x + "@" + v) !in s.cache
    ensures var t := SysRead(s, key, x + "@" + v).0;
            var other := key + "@" + x;
            other != key && SysRead(t, other, v).1 == Saw(View(Find(s.hash, s.shards, key), s.vm, key, x + "@" + v))
            && SysRead(t, other, v).1.snapshot.entity == key
    ensures WellFormed(s.vm) ==> !Known(s.vm, x + "@" + v) || !Known(s.vm, v)
  {
    hide WellFormed;
    KeyCollision(key, x + "@" + v, key + "@" + x, v);
    assert |key + "@" + x| > |key|;
    CollisionAnswersForAnother(s, key, x + "@" + v, key + "@" + x, v);
  }
}
