/** The consistency check in states that runs of the store reach: it finds what the flat map's views differ in. */
module CheckRuns {
  import opened Model
  import opened Printing
  import opened Routing
  import opened Cache
  import opened Versions
  import opened Placement
  import opened Undoing
  import opened Journals
  import opened Stores
  import opened Coherence
  import opened Refinement
  import opened Syncing

  ghost function SceneOf(s: Sys, offline: Offline): Scene {
    Scene(s.hash, s.shards, s.cache, s.vm, offline)
  }

  /**
   What the check looks for: a field of an entity of the flat map, written in [begin, end), that the layout of the
   version that resolves names, or that has none to name it, and that the offline side prints apart.
   */
  ghost predicate FlatFinding(f: Flat, offline: Offline, begin: int, end: int, d: Finding) {
    var e, off, active := Lookup(f.live, d.entity), offline(d.entity), ResolveActive(f.vm);
    && e.Some? && begin <= e.value.writtenAt < end
    && d.field in e.value.fields && (active.None? || active.value.fields == [] || d.field in active.value.fields)
    && PrintsAs(Some(e.value.fields[d.field]), d.online)
    && PrintsAs(if off.Some? && d.field in off.value then Some(off.value[d.field]) else None, d.offline)
    && d.online != d.offline
  }

  /** Nothing an expansion has moved, and no cached string of another pair, stands between the key and its view. */
  ghost predicate TrustedKey(t: Track, s: Sys, key: Key) {
    key !in t.lost && OwnString(t, s.vm, key, ActiveID(s.vm))
  }

  /** A trusted key's online side is the flat map's view under the active version. */
  lemma OnlineIsFlatView(s: Sys, f: Flat, t: Track, offline: Offline, key: Key)
    requires Inv(s, t) && Simulates(s, f, t) && TrustedKey(t, s, key)
    ensures |s.shards| > 0 && Find(s.hash, s.shards, key) == Lookup(f.live, key)
    ensures Online(SceneOf(s, offline), s.cache, key) == View(Lookup(f.live, key), f.vm, key, ActiveID(f.vm))
  {
    hide WellFormed, View, Find, SameJournals, HolderGood, OwnString, ActiveID;
    var id := ActiveID(s.vm);
    if CacheKey(key, id) in s.cache {
      HitIsView(s, key, id, t);
    }
  }

  lemma ActiveLayout(m: ManagerValue)
    requires WellFormed(m)
    ensures "" !in m.versions
    ensures ActiveID(m) in m.versions <==> ResolveActive(m).Some?
    ensures ActiveID(m) in m.versions ==> m.versions[ActiveID(m)].fields == ResolveActive(m).value.fields
  {
    ActiveIsRegistered(m);
  }

  lemma ComparedIsFlat(s: Sys, f: Flat, t: Track, offline: Offline, begin: int, end: int, d: Finding)
    requires Inv(s, t) && Simulates(s, f, t) && TrustedKey(t, s, d.entity)
    ensures |s.shards| > 0
    ensures d in Compared(SceneOf(s, offline), d.entity, begin, end) <==> FlatFinding(f, offline, begin, end, d)
  {
    hide Inv, Simulates, View, Find, Online, TrustedKey, EntityFindings, ActiveID, ResolveActive, PrintsAs, WellFormed;
    OnlineIsFlatView(s, f, t, offline, d.entity);
    FindingsExact(SceneOf(s, offline), d.entity, d);
    RunVersions(s, f, t);
    ActiveLayout(f.vm);
    ViewShows(Lookup(f.live, d.entity), f.vm, d.entity, ActiveID(f.vm));
  }

  /**
   In a state any run reaches, a check over any range reports a difference of a trusted key exactly if it is one of the
   flat map's view, once for each shard that stores the key.
   */
  lemma CheckAfterRun(hash: HashFn, count: nat, calls: seq<Call>, offline: Offline, begin: int, end: int, d: Finding)
    requires count > 0
    requires TrustedKey(TrackRun(NEW_TRACK, NewSys(hash, count), calls), Run(NewSys(hash, count), calls).0, d.entity)
    ensures var s, f := Run(NewSys(hash, count), calls).0, FlatRun(NEW_FLAT, calls).0;
            var reported := Tally(SceneOf(s, offline), Bag(s.shards, |s.shards|), begin, end)[d];
            && reported == (if FlatFinding(f, offline, begin, end, d) then |Holders(s.shards, |s.shards|, d.entity)| else 0)
            && (reported > 0 <==> FlatFinding(f, offline, begin, end, d))
  {
    hide Run, FlatRun, TrackRun, Inv, Simulates, TrustedKey, Tally, Bag, Holders, Compared, FlatFinding;
    NewSimulates(hash, count);
    RunSimulates(NewSys(hash, count), NEW_FLAT, NEW_TRACK, calls);
    var s, f, t := Run(NewSys(hash, count), calls).0, FlatRun(NEW_FLAT, calls).0, TrackRun(NEW_TRACK, NewSys(hash, count), calls);
    ComparedIsFlat(s, f, t, offline, begin, end, d);
    TallyCounts(SceneOf(s, offline), Bag(s.shards, |s.shards|), begin, end, d);
    BagCounts(s.shards, |s.shards|, d.entity);
    FindingIsStored(s, f, t, offline, begin, end, d);
  }

  lemma FindingIsStored(s: Sys, f: Flat, t: Track, offline: Offline, begin: int, end: int, d: Finding)
    requires Inv(s, t) && Simulates(s, f, t) && TrustedKey(t, s, d.entity)
    ensures FlatFinding(f, offline, begin, end, d) ==> |Holders(s.shards, |s.shards|, d.entity)| > 0
  {
    hide Inv, View, Differs, OwnString, ActiveID, SameJournals;
    InvHasShards(s, t);
    if FlatFinding(f, offline, begin, end, d) {
      assert Slot(s.hash, d.entity, |s.shards|) in Holders(s.shards, |s.shards|, d.entity);
    }
  }

  lemma ActiveIsKnown(m: ManagerValue)
    requires WellFormed(m)
    ensures Known(m, ActiveID(m))
  {
    assert m.activeID in m.versions ==> IdentifierOK(m, m.activeID);
  }

  /** If all reads so far were under registered versions, or none, a key can be trusted exactly if it is not lost. */
  lemma KnownReadsTrusted(hash: HashFn, count: nat, calls: seq<Call>, key: Key)
    requires count > 0 && AllowedRun(NewSys(hash, count), calls)
    ensures var t := TrackRun(NEW_TRACK, NewSys(hash, count), calls);
            TrustedKey(t, Run(NewSys(hash, count), calls).0, key) <==> key !in t.lost
  {
    hide Run, FlatRun, TrackRun, AllowedRun, Simulates, OwnString, WellFormed;
    NewSimulates(hash, count);
    RunSimulates(NewSys(hash, count), NEW_FLAT, NEW_TRACK, calls);
    var s, t := Run(NewSys(hash, count), calls).0, TrackRun(NEW_TRACK, NewSys(hash, count), calls);
    RunKeepsKnown(NEW_TRACK, NewSys(hash, count), calls);
    ActiveIsKnown(s.vm);
    KnownReadIsOwn(s, t, key, ActiveID(s.vm));
  }

  /** Every stored copy of a key is in the slot routing gives it. */
  ghost predicate NoStrays(s: Sys) {
    forall i, k :: 0 <= i < |s.shards| && k in s.shards[i] ==> Slot(s.hash, k, |s.shards|) == i
  }

  lemma StrayIn(hash: HashFn, s: Shards, i: int, key: Key)
    requires 0 <= i < |s|
    ensures key in Strays(hash, s, i) <==> key in s[i] && Slot(hash, key, |s|) != i
  {
  }

  lemma SameStraysNone(s: Sys, shards: Shards)
    requires NoStrays(s) && SameStrays(s.hash, s.shards, shards)
    ensures NoStrays(s.(shards := shards))
  {
    forall i, k | 0 <= i < |shards| && k in shards[i] ensures Slot(s.hash, k, |shards|) == i {
      assert Strays(s.hash, s.shards, i) == Strays(s.hash, shards, i);
      StrayIn(s.hash, s.shards, i, k);
      StrayIn(s.hash, shards, i, k);
    }
  }

  /** A call that does not grow the store leaves the unreachable copies as they are. */
  lemma StepKeepsStrays(s: Sys, call: Call)
    requires |s.shards| > 0 && !Grows(s, call)
    ensures SameStrays(s.hash, s.shards, Step(s, call).0.shards)
  {
    hide SameStrays, Put, Drop, UndoShards, Merged, View;
    SameStraysReflexive(s.hash, s.shards);
    match call
    case Write(k, fields, v, now) => PutIsUpdate(s.hash, s.shards, k, EntryValue(fields, v, now));
    case Merge(k, patch, overwrite, v, now) =>
      PutIsUpdate(s.hash, s.shards, k, Merged(Find(s.hash, s.shards, k), patch, overwrite, v, now));
    case CompareAndWrite(k, fields, v, now) => PutIsUpdate(s.hash, s.shards, k, EntryValue(fields, v, now));
    case Delete(k) => DropIsRemoval(s.hash, s.shards, k);
    case RollbackBatch(batch) => UndoShardsKeepsStrays(s.hash, s.shards, OpsOf(s.ops, batch), {});
    case _ =>
  }

  lemma StepKeepsPlace(s: Sys, call: Call)
    requires |s.shards| > 0 && NoStrays(s) && !Grows(s, call)
    ensures NoStrays(Step(s, call).0) && |Step(s, call).0.shards| == |s.shards|
  {
    hide Step;
    StepKeepsStrays(s, call);
    SameStraysNone(s, Step(s, call).0.shards);
  }

  lemma {:induction false} RunKeepsPlace(s: Sys, calls: seq<Call>)
    requires |s.shards| > 0 && NoStrays(s)
    requires forall i :: 0 <= i < |calls| ==> !Grows(s, calls[i])
    ensures NoStrays(Run(s, calls).0) && |Run(s, calls).0.shards| == |s.shards|
  {
    hide NoStrays, Step;
    if calls != [] {
      var front, last := calls[..|calls| - 1], calls[|calls| - 1];
      RunKeepsPlace(s, front);
      StepKeepsPlace(Run(s, front).0, last);
    }
  }

  lemma StoredOnce(s: Sys, key: Key)
    requires |s.shards| > 0 && NoStrays(s)
    ensures |Holders(s.shards, |s.shards|, key)| <= 1
  {
    var slot := Slot(s.hash, key, |s.shards|);
    assert Holders(s.shards, |s.shards|, key) == if key in s.shards[slot] then {slot} else {};
  }

  lemma NewHasNoStrays(hash: HashFn, count: nat)
    ensures NoStrays(NewSys(hash, count))
  {
  }

  /**
   After any run at a fixed shard count whose reads were under registered versions, or none, a check over any range
   reports each difference of the flat map's views once, and nothing else.
   */
  lemma CheckFindsFlatDifferences(hash: HashFn, count: nat, calls: seq<Call>, offline: Offline, begin: int, end: int, d: Finding)
    requires count > 0 && AllowedRun(NewSys(hash, count), calls)
    requires forall i :: 0 <= i < |calls| ==> !Grows(NewSys(hash, count), calls[i])
    ensures var s := Run(NewSys(hash, count), calls).0;
            Tally(SceneOf(s, offline), Bag(s.shards, |s.shards|), begin, end)[d] ==
            if FlatFinding(FlatRun(NEW_FLAT, calls).0, offline, begin, end, d) then 1 else 0
  {
    hide Run, FlatRun, TrackRun, AllowedRun, TrustedKey, Tally, Bag, Holders, FlatFinding, NoStrays;
    RunLosesNothing(NEW_TRACK, NewSys(hash, count), calls);
    KnownReadsTrusted(hash, count, calls, d.entity);
    CheckAfterRun(hash, count, calls, offline, begin, end, d);
    NewHasNoStrays(hash, count);
    RunKeepsPlace(NewSys(hash, count), calls);
    StoredOnce(Run(NewSys(hash, count), calls).0, d.entity);
  }

  /**
   Any calls on a new store object, then a check of a range: it reports the trusted differences of the flat map's
   views, and no other of a trusted key.
   */
  method DriveAndCheck(checker: Checker, calls: seq<Call>, begin: int, until: int, offline: Offline)
    returns (diffs: seq<Diff>)
    requires Ready(checker.store) && |checker.store.Contents| > 0 && checker.step > 0
    requires checker.versions == checker.store.versions && begin < until
    requires SysOf(checker.store) == NewSys(checker.store.router.hash, |checker.store.Contents|)
    modifies checker.store, checker.store.Entries, checker.store.Maps, checker.store.cache, checker.store.journal
    modifies checker.store.journal.buf, checker.store.router, checker.store.versions, checker.store.versions.versions.Values
    ensures forall d: Finding ::
              TrustedKey(TrackRun(NEW_TRACK, old(SysOf(checker.store)), calls), Run(old(SysOf(checker.store)), calls).0, d.entity) ==>
                (multiset(BareAll(diffs))[d] > 0 <==> FlatFinding(FlatRun(NEW_FLAT, calls).0, offline, begin, until, d))
    ensures AllowedRun(old(SysOf(checker.store)), calls) && (forall i :: 0 <= i < |calls| ==> !Grows(old(SysOf(checker.store)), calls[i])) ==>
              forall d: Finding ::
                multiset(BareAll(diffs))[d] == if FlatFinding(FlatRun(NEW_FLAT, calls).0, offline, begin, until, d) then 1 else 0
  {
    hide Ready, Store.Valid, Manager.Valid, WellFormed, Run, FlatRun, TrackRun, AllowedRun, TrustedKey, Tally, Bag, FlatFinding, BareAll;
    var store := checker.store;
    ghost var hash, count := store.router.hash, |store.Contents|;
    var _ := Replay(store, calls);
    ReadyParts(store);
    var ok, found, _ := checker.Check(begin, until, offline);
    diffs := found;
    ReportIsFlat(hash, count, calls, offline, begin, until, multiset(BareAll(diffs)));
  }

  lemma ReportIsFlat(hash: HashFn, count: nat, calls: seq<Call>, offline: Offline, begin: int, end: int, report: multiset<Finding>)
    requires count > 0
    requires var s := Run(NewSys(hash, count), calls).0; report == Tally(SceneOf(s, offline), Bag(s.shards, |s.shards|), begin, end)
    ensures forall d: Finding ::
              TrustedKey(TrackRun(NEW_TRACK, NewSys(hash, count), calls), Run(NewSys(hash, count), calls).0, d.entity) ==>
                (report[d] > 0 <==> FlatFinding(FlatRun(NEW_FLAT, calls).0, offline, begin, end, d))
    ensures AllowedRun(NewSys(hash, count), calls) && (forall i :: 0 <= i < |calls| ==> !Grows(NewSys(hash, count), calls[i])) ==>
              forall d: Finding :: report[d] == if FlatFinding(FlatRun(NEW_FLAT, calls).0, offline, begin, end, d) then 1 else 0
  {
    hide Run, FlatRun, TrackRun, AllowedRun, TrustedKey, Tally, Bag, FlatFinding;
    forall d: Finding | TrustedKey(TrackRun(NEW_TRACK, NewSys(hash, count), calls), Run(NewSys(hash, count), calls).0, d.entity)
      ensures report[d] > 0 <==> FlatFinding(FlatRun(NEW_FLAT, calls).0, offline, begin, end, d)
    {
      CheckAfterRun(hash, count, calls, offline, begin, end, d);
    }
    if AllowedRun(NewSys(hash, count), calls) && forall i :: 0 <= i < |calls| ==> !Grows(NewSys(hash, count), calls[i]) {
      forall d: Finding
        ensures report[d] == if FlatFinding(FlatRun(NEW_FLAT, calls).0, offline, begin, end, d) then 1 else 0
      {
        CheckFindsFlatDifferences(hash, count, calls, offline, begin, end, d);
      }
    }
  }
}
