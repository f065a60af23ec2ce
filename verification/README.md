# Feature store: a verified model

This project models an in-memory feature store and proves that its stateful parts agree with each other over every run. Entities live in hash-routed shards. Reads go through a cache keyed by the string `entity@version` and are filtered by the layout of the active version. Batch imports journal what they overwrite so that they can be rolled back, backfill retries are made idempotent by a commit registry, a consistency check walks time windows, and a scan expires old entries.

The program's classes are modelled as Dafny classes over the same mutable records, maps, lists and arrays. Each class carries ghost fields holding its contents as values, and each method says how it changes them. The program-level results are lemmas about those values. `Refinement.Drive`, `ImportRuns.ImportAndUndo`, `Backfills.RetryAll` and `CheckRuns.DriveAndCheck` carry the main ones back to the objects: each makes any sequence of calls on them and states what it leaves.

Main results:

- **Refinement.** `Refinement.Drive` runs any sequence of writes, merges, compare-and-writes, deletes, journaled writes, batch rollbacks, reads, expansions and version changes on a new store object and shows that every reply is the one a single flat map with its own journal would give. Two kinds of call are excepted: one that reads or tests a key an expansion has moved since the key was last written, deleted, or restored from a before-image taken while it was good, and one that reads a cached string filled by a read of another pair or before its version was registered. `Coherence.StoreRefinesFlatMap` is the same on values; `Coherence.KnownReadsRefineFlatMap` shows that the second kind takes a read under an identifier that is not registered. `Ingest.ImportCallsUndone` places an import and its rollback in such a run. `Coherence.TrustedReadShows` says field by field what a read of such a run shows.
- **Heap separation.** `Stores.Store.NothingShared` and `Refinement.EarlierCopiesStay`: in-place merges never reach a snapshot, a before-image or an earlier answer.
- **Import undo.** `Ingest.ImportThenRollback`, `Ingest.UndoInReverseRestores`, `Ingest.RollbackRestoresShards`: rolling back a batch stopped anywhere restores the store exactly, and batches undone last first restore the original. `Ingest.UndoInAnyOrder` says what any number of batches undone in any order leave, `Ingest.AllUndone` when that is the original. `ImportRuns.ImportAndUndo` and `ImportAndUndoIn` are both on the objects. `Ingest.ImportedEntry` is what an import leaves under each key.
- **Exactly-once retry.** `Backfills.RetriesAfterErrors`: any number of interrupted Retries and a last complete one equal one Retry; `Backfills.RetryAll` makes those calls on the object. `Compute.RetryResumes`, `Compute.SecondRetryWritesNothing`. `Compute.StepInRanks` and `Compute.StepInOrder` say when a position writes.
- **Exactly-once comparison.** `Syncing.TilingReportsRange`, `Syncing.ExactlyOnce` and `Syncing.Checker.Check`: whichever way the range is cut into windows, the differences reported are those of one comparison over the whole range. `CheckRuns.CheckAfterRun` and `CheckFindsFlatDifferences`: after a run of the store they are those of the flat map's views. `Syncing.FieldReported` says when two values count as different.
- **Version lifecycle.** `VersionRuns.RunPointer`, `RunAdvances`, `TransitionsBounded`; `AtMostOnePublished` and `ResolvesFromFirstPublish` say exactly which runs keep one published version and one that resolves.
- **Expiry.** `Expiry.Scanner.Scan`: a scan keeps exactly the entries whose limit has not passed, unchanged, and counts the others; `Expiry.ScanTwice`.

## Where the code departs from its comments

The model follows the code. Each departure has a lemma that says exactly when it matters.

- `versionRank` (internal/store/store.go:381-390) is meant to follow the publish sequence but folds the digits from last to first: "v10" ranks 1. `Ranks.RankReadsBackwards` gives its meaning and `Ranks.RankOrderLimit` shows that it follows creation order up to the ninth version and no further. So the stale-write guard admits among the first nine versions in creation order (`Placement.AdmitsInOrder`), and refuses the tenth over each of the second to the ninth (`Placement.TenthIsRefused`).
- Rolling back to a superseded parent leaves no active version, because Superseded to Published is not an edge of the state machine (internal/version/state.go:18-20) and the refused transition is ignored (internal/version/version.go:136). `Versions.RollbackResolves` is the exact condition for one call, `VersionRuns.ResolvesFromFirstPublish` for a run; `VersionRuns.RollbackCanLeaveNoneActive` is a run that meets it.
- Rolling back a superseded version whose parent is not active leaves the active one published and moves the pointer off it: `VersionRuns.AtMostOnePublished` is the exact condition over runs, `VersionRuns.RollbackCanStrandPublished` a run; `Versions.RollbackLeavesPublished`.
- An expansion moves no entry and clears no cache, so a moved key may be readable from the cache only: `Placement.GrowthReach`, `Coherence.MovedRun`, `Coherence.MovedKeyReadsFromCacheOnly`.
- A second expansion can bring an overwritten entry back. The first leaves a copy behind, the key is written again in its new shard, and the second routes it back to the old one: `Coherence.TwiceExpandedRun` says exactly when, `Coherence.OverwrittenEntryReturns` is the case of 2, 3 and 4 shards.
- A read under an identifier that is not registered yet caches an unfiltered snapshot, which a later Create does not drop: `Coherence.UnregisteredReadGoesStale` is the exact condition, `Coherence.StaleRun` a run.
- A read under an identifier that is not registered can answer for another entity, or be answered by one, when one entity runs on into the other's version across an '@'. Registered versions never collide, whatever their tables are called: `Cache.KeyCollision`, `Versions.RegisteredKeyInjective`, `Coherence.CollisionAnswersForAnother`.
- `Run` never marks a result committed, so `Run` followed by `Retry` adds twice: `Compute.RunThenRetryAddsTwice`.
- The plan keeps duplicates (internal/compute/plan.go:15-22) and the search returns the first row, so a `Run` over rows that repeat an entity adds the first row's updated map to itself again for each repeat, and never reads the others: `Compute.RunAddsOnce` is the exact condition, `Compute.RunOverTwoRows` the case of two rows.
- Rows that share a field map see each other's updates, and one entity's stored counts can reach another: `Backfills.SharedMapLeaks` is the exact condition, for any rows over any maps in a `Run` or a `Retry`; `Backfills.SharedPairLeaks` is the case of two rows over one map, `Backfills.SharedMapExample` an input.
- `Retry` on the row maps an earlier attempt has updated recognises its own commits only if the updates left the fingerprint total alone: `Compute.UpdatedRowsRecognised`, and `Compute.UpdatedRowsAddAgain` for a row it adds twice.
- An entry stored under an empty version name passes the guard whatever is written, so a rank that has wrapped around to below zero can follow: `Compute.BackfillsKeepRanks` is the exact condition, `Compute.WrappedOverUnnamed` an identifier that meets it.
- Batches undone in another order than last first can put back what an earlier batch had written: `Ingest.AllUndone` is the exact condition, `Ingest.UndoInImportOrder` the case of two batches in import order.
- A task of `Run` with no rows stays in state Running (internal/compute/compute.go:36-59): `Backfills.Backfill.Run`.

## Layout

| file | contents |
|---|---|
| Text, Order, Arithmetic | decimal text and joins, sorting and byte order, remainders |
| Model, Printing | field values and their printed form, entries, snapshots, and the mutable records that hold them |
| Routing, Cache, Versions, VersionRuns, Rank, Journal, Results | one component each, values and class |
| Placement, Undo | shard contents as values, the flat map they place, batch rollback |
| Store | the sharded store class |
| Coherence, Refinement | the flat-map refinement on values and on objects |
| Ingest, ImportRuns, Compute, Backfill | import, sequences of imports and rollbacks, the backfill steps, the backfill class |
| Windows, Events, Sync, CheckRuns, Ttl | time windows, switch events, the consistency check, the check after runs of the store, expiry |

Times are integers counted from the zero instant and strings are sequences of bytes. Clock readings are parameters: a single instant, or a function from the row or plan position to the instant its write reads. The methods `Import`, `Run` and `Retry` take the position of the row whose write the store answers with an error, which stands for the error branches of internal/ingest/ingest.go:98-101 and internal/compute/compute.go:49-52 and 81-84.

## Model

| member | source | states |
|---|---|---|
| Refinement.Drive | internal/store/store.go:115-365 | any sequence of calls on a new store object, journaled writes and batch rollbacks included, is answered as one flat map answers it, unless a call reads or tests a key moved by an expansion since it was last written, deleted, or restored from a good before-image, or reads a cached string that another pair's read, or one made before its version was registered, has filled |
| Refinement.Replay | internal/store/store.go:115-365 | a sequence of calls on the object reaches the state, journal included, and gives the replies of the value model, with all invariants kept |
| Refinement.Perform | internal/store/store.go:115-365 | one call of any kind changes the object as the value model's step does |
| Refinement.EarlierCopiesStay | internal/store/store.go:22-48 | a snapshot from Read and a copy from EntryFor read the same after any later calls, in-place merges included |
| Refinement.Expand | cmd/featurestore/handlers.go:195-203 | router and store grow together: every key is again routed to a shard, and the contents gain only empty shards |
| Refinement.JournalWrite | internal/ingest/ingest.go:111-117 | appends the current entry of a key, as a detached copy, to the journal and changes nothing else |
| Refinement.PublishVersion | internal/version/version.go:81-115 | a publish accepted by the state machine moves the active pointer and leaves the store's cache empty; a rejected one changes nothing |
| Refinement.RollbackVersion | internal/version/version.go:119-149 | a version rollback accepted by the manager leaves the store's cache empty; a rejected one changes nothing |
| Coherence.StoreRefinesFlatMap | internal/store/store.go:130-365 | over every run from a new store, whatever its calls, each trusted call is answered as the flat map answers it; not trusted are reads and tests of lost keys, and reads of cached strings filled by another pair's read or before their version was registered |
| Coherence.KnownReadsRefineFlatMap | internal/store/store.go:130-365 | if every read is under a version registered at the time, or none, only calls about lost keys are excepted, whatever characters the names hold |
| Coherence.FixedCountState | internal/store/store.go:130-365 | at a fixed shard count journals, versions and stored entries coincide with the flat map's after every run |
| Coherence.FixedCountRefinesFlatMap | internal/store/store.go:130-365 | in any run without growth whose reads are under registered versions, or none, all replies coincide with the flat map's |
| Coherence.TrustedReadShows | internal/store/store.go:130-202 | what a trusted read of any run shows: entity, version, write time and values of the flat map's entry, of exactly the fields the layout of the version names; no version, an unregistered one and an empty layout hide nothing; an absent entity reads as empty |
| Coherence.FlatReadShows | internal/store/store.go:130-202 | the same for one read of the flat map in any consistent state |
| Coherence.RunSimulates | internal/store/store.go:130-365 | the simulation between store and flat map, journals and the origin of each cached string included, holds after every run from any related states |
| Coherence.StepSimulates | internal/store/store.go:130-365 | every single call keeps the cache invariant and the simulation |
| Coherence.RollbackSimulates | internal/store/store.go:334-354 | replaying each side's own journal keeps the simulation; a restored key is as good as its before-image |
| Coherence.GrowSimulates | internal/store/store.go:99-112 | an expansion loses at most the stored keys whose slot it changes |
| Coherence.HitIsView | internal/store/store.go:132-134 | a cache hit on a string its own pair's read filled, of a key that is not lost, is the current uncached view |
| Coherence.KnownReadIsOwn | internal/store/cache.go:27-29 | a read under a registered version, or none, finds its own string exactly unless a read under an identifier then unregistered filled it |
| Coherence.ReadSimulates | internal/store/store.go:130-167 | a read of its own string answers with the flat map's filtered view, and every read keeps the cache invariant |
| Coherence.CreateSimulates | internal/version/version.go:54-75 | registering a version changes no cached view but those of reads made under its identifier before, though Create flushes nothing |
| Coherence.UnregisteredReadGoesStale | internal/store/store.go:149-166 | a read under an identifier registered later stays right exactly when the new layout hides none of the entry's fields |
| Coherence.StaleRun | internal/store/store.go:149-166 | a run whose last read under a registered version is wrong, because it was cached before the version was created |
| Coherence.MovedRun | internal/store/store.go:99-126 | a read after write and expansion is wrong exactly when the key's remainder changed |
| Coherence.TwiceExpandedRun | internal/store/store.go:99-126 | a read after write, expansion, write, expansion is wrong exactly when the second expansion moves the key, and finds the overwritten entry exactly when it routes it back |
| Coherence.OverwrittenEntryReturns | internal/store/store.go:99-126 | with hash 5 and 2, 3, then 4 shards the overwritten entry is read again |
| Coherence.MovedKeyReadsFromCacheOnly | internal/store/store.go:99-112 | after an expansion a cached read still agrees with the shards exactly when the key's remainder is unchanged or what its new slot holds views the same |
| Coherence.CollisionAnswersForAnother | internal/store/cache.go:27-29 | where two pairs of different entities share a string, a read of one is answered with the other's snapshot; one of the identifiers is then not registered |
| Coherence.AtSignAnswersForAnother | internal/store/cache.go:27-29 | every identifier meets such a collision, behind an '@' and any text, with a longer entity, and one of the two identifiers is unregistered |
| Coherence.MintHasNoAt | internal/version/version.go:62-63 | minted identifiers hold no '@' exactly when the table name holds none |
| Stores.Store.NothingShared | internal/store/store.go:22-48 | no two cells share a record or field map, and none is shared with a cached snapshot or a before-image |
| Stores.Store.New | internal/store/store.go:63-80 | a new store is empty, consistent, and registered as the manager's cache hook |
| Stores.Store.ShardIndex | internal/store/store.go:115-121 | a key is routed to its hash's slot, or to shard 0 if the store has not grown to that slot yet |
| Stores.Store.LookupEntry | internal/store/store.go:124-126 | finds the live record of a key, or none exactly when the flat map has none |
| Stores.Store.Read | internal/store/store.go:130-146 | answers from the cache or with the view under the active version, caches exactly that answer, and shares nothing with it; an uncached read shows exactly the stored fields the layout names, with their values |
| Stores.Store.ReadVersion | internal/store/store.go:149-167 | the same under a named version, or the active one for an empty name |
| Stores.Store.ResolveActiveVersionID | internal/store/store.go:172-178 | the identifier pointed to while that version is published, empty otherwise |
| Stores.Store.EntrySnapshot | internal/store/store.go:183-202 | a fresh snapshot holding a field exactly if the entry does and the registered version's layout is empty or names it, with the entry's value, version and write time |
| Stores.Store.WriteAt | internal/store/store.go:210-224 | replaces one entry with a copy of the fields, leaves every other cell alone, and forgets the entity's cached reads |
| Stores.Store.MergeWrite | internal/store/store.go:231-254 | the entry then has the given version and write time, the patch's fields inside the window and its old ones outside; nothing else changes but the entity's cached reads, which are forgotten |
| Stores.MergeInto | internal/store/store.go:243-249 | the field loop: window fields become the patch's or vanish, other fields stay |
| Stores.Store.CompareAndWrite | internal/store/store.go:258-275 | writes exactly if nothing is stored, or a version without a name, or one of no higher rank; otherwise changes neither shards nor cache |
| Stores.Store.Delete | internal/store/store.go:278-284 | removes the routed entry and forgets its cached reads |
| Stores.Store.WrittenAt | internal/store/store.go:287-295 | the write time of the routed entry, if there is one |
| Stores.Store.EntryFor | internal/store/store.go:298-306 | a fresh deep copy that reads as the live entry, or none |
| Stores.Store.Keys | internal/store/store.go:309-320 | lists each key of a shard once, in some order, and nothing outside the range |
| Stores.Store.RollbackBatch | internal/store/store.go:334-354 | the first before-image of each key is put back, the batch leaves the journal, the cache forgets the keys |
| Stores.Store.ExpandShards | internal/store/store.go:99-112 | adds empty shards and leaves the old ones as they are |
| Stores.KeepOnly | internal/store/store.go:191-200 | deletes exactly the fields the layout does not name |
| Model.Entry.Clone | internal/store/store.go:23-34 | the copy reads as the record and shares neither it nor its field map |
| Model.Entry.Snapshot | internal/store/store.go:37-48 | the snapshot reads as the record and has a field map of its own |
| Model.Snapshot.Clone | internal/model/model.go:71-82 | the copy reads as the snapshot and has a field map of its own |
| Model.CloneFields | internal/store/store.go:367-373 | a new map with the same fields |
| Model.WrapInt64 | internal/model/model.go:35 | 64-bit values wrap around and are themselves inside the range |
| Text.DecimalDigits | internal/model/model.go:44-45 | digit k of a number is that of the k-th power of ten, without leading zeros |
| Printing.ShowPrints | internal/model/model.go:42-53 | what a value is printed as: strings and floats as they are, flags as true or false, integers as the one numeral with sign and no leading zeros |
| Printing.PrintedApart | internal/model/model.go:42-53 | two printed values of one kind differ exactly if their contents do; against a missing value only an empty string does not |
| Placement.LiveIsFind | internal/store/store.go:115-126 | the flat map holds for each key what routed lookup finds |
| Placement.PutIsUpdate | internal/store/store.go:210-224 | a routed write is one update of the flat map and touches nothing routing does not reach |
| Placement.DropIsRemoval | internal/store/store.go:278-284 | a routed delete is one removal from the flat map and touches nothing else |
| Placement.LiveAndStrays | internal/store/store.go:99-126 | the flat map and the unreachable copies together determine the shards |
| Placement.GrowthConserves | internal/store/store.go:99-112 | expansion keeps every stored shard, key and entry, and adds none |
| Placement.GrowthFind | internal/store/store.go:99-126 | after an expansion routing finds the new slot's own copy if that slot existed, and nothing if it is new |
| Placement.GrowthReach | internal/store/store.go:99-126 | a stored key is still found exactly when its remainder is unchanged or its new slot holds a stray copy, and found with the same entry exactly when in that case the copy equals it |
| Placement.WriteAfterGrowth | internal/store/store.go:210-224 | a key written after an expansion is found by the next routed read |
| Placement.ViewShows | internal/store/store.go:183-202 | an uncached view, field by field |
| Placement.MergedEntry | internal/store/store.go:231-254 | a merged entry, field by field, with the given version and write time whether or not it was stored |
| Placement.AdmitsInRanks | internal/store/store.go:258-264 | the guard admits over nothing, over a version without a name, or over one of no higher rank |
| Placement.AdmitsInOrder | internal/store/store.go:375-390 | among the first nine versions of any tables a write is admitted exactly in creation order |
| Placement.TenthIsRefused | internal/store/store.go:375-390 | the tenth version is refused over the second to the ninth |
| Routing.GrowthByMultiple | internal/entity/hash.go:17-22 | when the count grows to a multiple, a key keeps its slot or moves into the added range |
| Routing.Slot | internal/entity/hash.go:17-22 | the slot lies within the table for every positive size |
| Routing.Router.NewRouter | internal/entity/router.go:21-28 | rejects counts that are not positive and otherwise builds the identity table |
| Routing.Router.Route | internal/entity/router.go:39-50 | the table entry found is the key's slot under the current count |
| Routing.Router.ExpandShards | internal/entity/router.go:54-69 | grows only, rebuilding the table; equal counts are accepted without change |
| Routing.Router.RebuildTable | internal/entity/router.go:73-82 | a new identity table of the given size |
| Routing.Router.Expand | internal/entity/expand.go:16-26 | succeeds exactly for a strictly larger count and reports what was added |
| Cache.KeyCollision | internal/store/cache.go:27-29 | two entity-version pairs share a string exactly when one entity runs on into the other's version across an '@' |
| Cache.KeyInjective | internal/store/cache.go:27-29 | with '@'-free versions the string determines entity and version, whatever the entities hold |
| Cache.KeyInjectiveInEntity | internal/store/cache.go:27-29 | under one version distinct entities never share a string |
| Cache.WithoutEntityRemovesAll | internal/store/cache.go:65-74 | the prefix scan removes the entity's entries of every version |
| Cache.WithoutEntityExact | internal/store/cache.go:65-74 | the prefix scan removes exactly the strings the entity forms with some version |
| Cache.WithoutVersionExact | internal/store/cache.go:53-62 | the suffix scan removes exactly the strings that some entity forms with the version |
| Cache.ReadCache.Get | internal/store/cache.go:32-40 | the snapshot stored under the pair's string, if any |
| Cache.ReadCache.Put | internal/store/cache.go:43-50 | stores a copy under the pair's string; the caller's snapshot stays its own |
| Cache.ReadCache.RemoveWhere | internal/store/cache.go:53-74 | deleting while ranging leaves exactly the strings the scan does not match |
| Cache.ReadCache.InvalidateVersion | internal/store/cache.go:53-62 | leaves exactly the strings without the version's suffix |
| Cache.ReadCache.InvalidateEntity | internal/store/cache.go:65-74 | leaves exactly the strings without the entity's prefix |
| Cache.ReadCache.ClearAll | internal/store/cache.go:84-88 | leaves nothing |
| Versions.Transition | internal/version/state.go:34-43 | moves a record along an edge of the table and refuses everything else, nil included |
| Versions.MintInjective | internal/version/version.go:62-63 | distinct tables or creation numbers give distinct identifiers, whatever characters the names hold |
| Versions.NumberOfMint | internal/version/version.go:62-63 | the creation number is read back from the trailing digits of the identifier |
| Versions.CreateIsFresh | internal/version/version.go:54-75 | Create never overwrites a version |
| Versions.CreateEffect | internal/version/version.go:58-73 | the record a Create adds, field by field |
| Versions.PublishEffect | internal/version/version.go:81-100 | exactly a draft is published: stamped with the instant and pointed to, the published version pointed to before superseded, every other untouched |
| Versions.RollbackEffect | internal/version/version.go:119-141 | the target is rolled back, its parent pointed to and published if it was a draft; no other version and no stamp changes |
| Versions.CreateKeepsWellFormed | internal/version/version.go:54-75 | Create keeps identifiers, order list, parent chains and last-by-table consistent |
| Versions.PublishKeepsWellFormed | internal/version/version.go:81-115 | so does an accepted Publish, with the active pointer on a published version |
| Versions.RollbackKeepsWellFormed | internal/version/version.go:119-149 | so does an accepted Rollback, and no first version is rolled back |
| Versions.ParentsDiffer | internal/version/version.go:58-66 | no version is its own parent: a parent is registered and has a smaller creation number |
| Versions.RegisteredKeyInjective | internal/store/cache.go:27-29 | under registered versions, or none, the cache string determines entity and version, whatever the table names hold |
| Versions.RegisteredScanExact | internal/store/cache.go:53-62 | the suffix scan of a registered version removes exactly its own entries among those of registered versions |
| Versions.RollbackResolves | internal/version/version.go:126-138 | after a rollback a version resolves exactly when the parent was not superseded |
| Versions.RollbackLeavesPublished | internal/version/version.go:126-138 | another version stays published exactly when it was published and is not the target |
| Versions.Manager.Create | internal/version/version.go:54-75 | unknown tables are rejected; otherwise one fresh draft is added, linked to the table's last version |
| Versions.Manager.PublishState | internal/version/version.go:81-105 | exactly a draft is published, stamped, pointed to, and supersedes the version pointed to before |
| Versions.Manager.Publish | internal/version/version.go:81-115 | exactly a draft is published, stamped and pointed to, as the state change says, and the hooked cache is empty afterwards |
| Versions.Manager.RollbackState | internal/version/version.go:119-141 | exactly a published or superseded version with a known parent that is not rolled back is rolled back, and the active pointer moves to the parent |
| Versions.Manager.Rollback | internal/version/version.go:119-149 | the same, and the hooked cache is empty afterwards |
| Versions.Manager.ResolveActiveVersion | internal/version/version.go:152-159 | the pointed-to version, only while it is published |
| Versions.Manager.Get | internal/version/version.go:162-167 | the version of the identifier, if registered |
| VersionRuns.RunsAreWellFormed | internal/version/version.go:54-149 | every run of Create, Publish and Rollback keeps the manager's tables consistent |
| VersionRuns.RunAdvances | internal/version/state.go:10-31 | over any continuation states only advance, versions and order persist, and rolled back is absorbing |
| VersionRuns.RunPointer | internal/version/version.go:81-149 | the active pointer once set is never on a draft or rolled-back version, and first versions are never rolled back |
| VersionRuns.RunOrder | internal/version/version.go:54-75 | the order list holds every version once, in creation order, under its minted identifier |
| VersionRuns.AtMostOnePublished | internal/version/version.go:81-159 | at every point of a run only the version pointed to is published, exactly when no accepted Rollback is made while a version resolves that is neither its target nor the target's parent |
| VersionRuns.OnlyActiveResolves | internal/version/version.go:152-159 | only the version pointed to is published exactly when every published version is the one that resolves |
| VersionRuns.ResolvesFromFirstPublish | internal/version/version.go:81-159 | from the first accepted Publish on a version resolves at every point of a run, exactly when no accepted Rollback names a version whose parent is superseded |
| VersionRuns.ResolvesThroughout | internal/version/version.go:81-159 | the same from any consistent state in which a version resolves or all are drafts |
| VersionRuns.IdleUntilPublish | internal/version/state.go:10-31 | a run leaves drafts only exactly until its first accepted Publish |
| VersionRuns.PublishResolves | internal/version/version.go:81-115 | after an accepted Publish that version resolves |
| VersionRuns.TransitionsBounded | internal/version/state.go:25-43 | in any run publishes and rollbacks together number at most twice the creates |
| VersionRuns.RunCounts | internal/version/version.go:54-149 | accepted calls are counted by the versions' final states |
| VersionRuns.RollbackCanLeaveNoneActive | internal/version/version.go:126-138 | a run whose rollback of the active version leaves none active |
| VersionRuns.RollbackCanStrandPublished | internal/version/version.go:126-138 | a run whose rollback leaves a published version the active pointer is not on |
| Ranks.VersionRank | internal/store/store.go:381-390 | the loop computes the rank of every string |
| Ranks.RankReadsBackwards | internal/store/store.go:381-390 | the rank is the trailing digit run read backwards, modulo 2^64 |
| Ranks.RankOfMint | internal/store/store.go:375-390 | so a minted identifier ranks as its creation number reversed |
| Ranks.RankOfBackwards | internal/store/store.go:381-390 | a number written backwards ranks as itself, modulo 2^64 |
| Ranks.RankOrderLimit | internal/store/store.go:375-390 | ranks follow creation order over the first n versions exactly for n up to nine |
| Journals.Journal.Append | internal/store/journal.go:32-38 | adds one operation at the end, the before-image a detached copy, and keeps the index exact |
| Journals.Journal.OpsFor | internal/store/journal.go:41-51 | the operations of the batch in append order |
| Journals.Journal.LastBeforeOf | internal/store/journal.go:67-75 | the before-state of the key's last operation, through the index |
| Journals.Journal.Compact | internal/store/journal.go:78-87 | writing kept operations over the array being read leaves the other batches' operations in order |
| Journals.Journal.Clear | internal/store/journal.go:78-89 | the journal without the batch, index rebuilt |
| Journals.Journal.RebuildIndex | internal/store/journal.go:91-96 | the index is that of the remaining operations |
| Journals.IndexExact | internal/store/journal.go:32-38 | the index holds exactly the journaled keys, each with its own positions |
| Journals.PositionsExact | internal/store/journal.go:91-96 | the positions are exactly those of the key's operations |
| Journals.PositionsIncrease | internal/store/journal.go:91-96 | and strictly increase |
| Journals.LastIndexed | internal/store/journal.go:67-75 | the last position holds the before-state the key was last journaled with |
| Journals.WithoutSplits | internal/store/journal.go:78-89 | clearing one batch keeps every operation of the others |
| Undoing.UndoRestoresFirst | internal/store/store.go:334-354 | each journaled key ends with its first before-image, every other key is untouched |
| Undoing.UndoShardsIsUndo | internal/store/store.go:334-354 | the replay on the shards is that replay on the flat map |
| Undoing.UndoShardsKeepsStrays | internal/store/store.go:334-354 | the replay touches nothing routing does not reach |
| Undoing.ForgottenExact | internal/store/store.go:334-354 | the replay forgets the cached reads of exactly the keys it puts back |
| Results.ResultKeyCollision | internal/store/results.go:21-23 | two task-entity pairs share a key exactly when one task runs on into the other's entity across a ':' |
| Results.SignatureInjective | internal/compute/signature.go:7-9 | the signature determines task and total |
| Results.CommittedIsLastMark | internal/store/results.go:26-42 | over any history the registry answers yes exactly when the last mark under the key is that task, entity and total |
| Results.CommittedResults.MarkCommitted | internal/store/results.go:26-30 | one registry string now holds the signature |
| Results.CommittedResults.IsCommitted | internal/store/results.go:34-42 | yes exactly when the registry string holds that signature |
| Ingest.ImportJournals | internal/ingest/ingest.go:110-117 | operation j of an import carries its batch, segment j / window, and row j's entity |
| Ingest.RollbackUndoesImport | internal/store/store.go:334-354 | whatever else happened, rolling back a stopped import gives every touched key its entry from before and moves no other |
| Ingest.ImportThenRollback | internal/ingest/rollback.go:7-14 | an import stopped anywhere, then its rollback, is the identity on store and journal |
| Ingest.RollbackRestoresShards | internal/ingest/rollback.go:7-14 | the same for the shards, unreachable copies included |
| Ingest.ImportCallsRun | internal/ingest/ingest.go:86-125 | the journal and merge calls of an import reach the import's state in a run of the flat map |
| Ingest.ImportCallsUndone | internal/ingest/rollback.go:7-14 | in a run, the calls of an import stopped anywhere followed by its batch rollback leave the flat map and its journal as they were |
| Ingest.RollbackTwice | internal/ingest/rollback.go:7-14 | a second rollback changes nothing |
| Ingest.UndoInReverseRestores | internal/ingest/rollback.go:7-14 | any number of batches undone last first restore the original |
| Ingest.UndoInAnyOrder | internal/ingest/rollback.go:7-14 | some or all of any number of batches undone in any order: each key gets back its entry from before the import undone last of those that touch it, and exactly the undone batches leave the journal |
| Ingest.AllUndone | internal/ingest/rollback.go:7-14 | with every batch undone the journal is the original one, and the store is exactly if those entries are the original ones |
| Ingest.UndoInImportOrder | internal/ingest/rollback.go:7-14 | of two batches undone in import order, the second's keys keep what the first had left |
| Ingest.ImportClosedForm | internal/ingest/ingest.go:86-124 | each named entity ends with its original fields outside the window and its last row's inside it; others are unchanged |
| Ingest.ImportedEntry | internal/ingest/ingest.go:86-124 | under each key an import names: the job's version, the clock its last row reads, that row's fields inside the window and the old ones outside; other keys are unchanged |
| Ingest.MergedField | internal/store/store.go:243-249 | field by field, what a row's merge keeps, sets and removes |
| Ingest.WindowSizeIrrelevant | internal/ingest/ingest.go:86-105 | the row window size never changes the stored entries |
| Ingest.SegmentsCoverFile | internal/ingest/ingest.go:86-104 | the segments' row counts add up to the file |
| Ingest.SegmentHolds | internal/ingest/ingest.go:86-104 | segment i holds exactly the rows j of the file with j / window == i |
| Ingest.SegmentOf | internal/ingest/ingest.go:91-97 | the segment a row is written in is its position divided by the window |
| Ingest.FileFields | internal/ingest/ingest.go:60-73 | the sorted, duplicate-free union of the rows' field names |
| Ingest.ComputeFieldWindow | internal/ingest/windows.go:12-26 | the sorted, duplicate-free intersection of file fields and schema |
| Ingest.BuildPatch | internal/ingest/ingest.go:118-123 | the row's own values for the fields of the window |
| Ingest.Importer.constructor | internal/ingest/ingest.go:46-56 | a window that is not positive becomes 64 |
| Ingest.Importer.JournalRow | internal/ingest/ingest.go:111-117 | the operation added holds the flat map's entry of the row |
| Ingest.Importer.WriteRow | internal/ingest/ingest.go:110-125 | one row is journaled and then merged, or journaled only if the store refuses it |
| Ingest.Importer.ImportWindow | internal/ingest/ingest.go:91-104 | one segment: its rows are written in order, counted, and marked done only at its end |
| Ingest.Importer.Import | internal/ingest/ingest.go:78-106 | the store ends in the import's closed state, complete or stopped at the refused row, with ceil(n/w) done segments or a failed batch in progress; each merged entity has the given version and its last row's clock reading; records, field maps and a journal buffer it adds are fresh |
| Ingest.Importer.Rollback | internal/ingest/rollback.go:7-14 | unknown batches are rejected; a known one is marked failed and undone |
| Ingest.Importer.Clear | internal/ingest/ingest.go:134-137 | forgets batch and operations, keeps what was written |
| ImportRuns.ImportFiles | internal/ingest/ingest.go:78-106 | files imported one after the other on the object leave the state of that many imports |
| ImportRuns.ImportAndUndo | internal/ingest/rollback.go:7-14 | any number of files imported on the object, each possibly stopped, then rolled back last first: the very same contents and journal |
| ImportRuns.ImportAndUndoIn | internal/ingest/rollback.go:7-14 | the same in any order: each key has its entry from before the import undone last of those that touch it, and the contents are the original ones exactly if those entries are |
| Compute.RowForIsFirst | internal/compute/compute.go:111-118 | the row found is the first of its entity |
| Compute.AccumulatedField | internal/compute/compute.go:95-106 | integers over stored integers add in 64-bit arithmetic, every other field is the row's own |
| Compute.ClosedForm | internal/compute/compute.go:32-107 | what any plan, repeats included, does to each entity: a Retry writes a due one once where it is first met, a Run at every position that names it, and others are unchanged |
| Compute.RetryIsExactlyOnce | internal/compute/compute.go:72-90 | a Retry stopped anywhere and resumed on value-equal rows equals one uninterrupted Retry, count of writes included |
| Compute.RetryResumes | internal/compute/compute.go:72-90 | stopped at one position and run again to any other, it equals one Retry up to the later of the two |
| Compute.SecondRetryWritesNothing | internal/compute/compute.go:72-90 | a completed Retry repeated writes nothing and changes nothing |
| Compute.WrittenIsDue | internal/compute/compute.go:76-89 | a Retry counts one write for each due planned entity, however often it is planned |
| Compute.WritesAddUp | internal/compute/compute.go:72-90 | the writes of a stopped Retry and of another to any position add up to those of one Retry up to the later position |
| Compute.RunThenRetryAddsTwice | internal/compute/compute.go:32-62 | after a Run, a Retry adds every due row once more, onto the row doubled once for each repeat in the plan |
| Compute.RunAddsOnce | internal/compute/compute.go:48-107 | a Run leaves a due entity with its row added once exactly when the plan names it once or the stored fields hold no integer but zero; otherwise each repeat doubles the integers |
| Compute.DoubledField | internal/compute/compute.go:95-106 | k repeats multiply each integer by 2^k in 64-bit arithmetic and keep every other field |
| Compute.RunCountsPositions | internal/compute/compute.go:47-60 | a Run counts one write for each plan position that names a due entity |
| Compute.RunOverTwoRows | internal/compute/compute.go:48-60 | over two rows of an absent entity the first is stored doubled, the second never read, and two writes counted |
| Compute.RunMarksNothing | internal/compute/compute.go:32-62 | a Run leaves the commit registry alone |
| Compute.NothingDue | internal/compute/compute.go:80-86 | committed and rejected rows leave store and registry alone |
| Compute.StepInRanks | internal/compute/compute.go:76-108 | one position writes and counts exactly if no earlier attempt committed its row and the stored version is none, unnamed or of no higher rank, and marks a Retry's write |
| Compute.StepInOrder | internal/compute/compute.go:76-108 | among the first nine versions it writes exactly over one created no later |
| Compute.StepRankExact | internal/store/store.go:258-275 | a step lowers a stored rank exactly when the stored version is unnamed and the new rank has wrapped below zero |
| Compute.StepsKeepRanks | internal/store/store.go:258-275 | one call keeps a stored rank exactly when it does not write a wrapped rank over an unnamed version |
| Compute.WrappedOverUnnamed | internal/store/store.go:381-390 | an identifier of rank -2^63 is written over an unnamed version of rank 0 |
| Compute.BackfillsKeepRanks | internal/store/store.go:375-390 | over any sequence of Run and Retry calls with any versions, no stored rank ever decreases exactly when no call writes a wrapped rank over an unnamed version |
| Compute.RowsSizeAnyOrder | internal/compute/plan.go:25-33 | the fingerprint total is the same for every order of the rows |
| Compute.FieldsSizeAnyOrder | internal/compute/plan.go:28-31 | and for every order in which a field map is ranged over |
| Compute.FieldsSizePrinted | internal/compute/plan.go:25-33 | each field adds the lengths of its name and of its printed value to the fingerprint total |
| Compute.UpdatedRowsRecognised | internal/compute/compute.go:72-107 | retrying on updated row maps recognises its commits exactly when the total is unchanged |
| Compute.UpdatedRowsAddAgain | internal/compute/compute.go:72-107 | nine over a stored one gives ten, and retried on the updated row map twenty |
| Backfills.BuildPlan | internal/compute/plan.go:15-22 | the sorted entities, duplicates kept |
| Backfills.PlanSorted | internal/compute/plan.go:15-22 | the plan holds the rows' entities, each as often, in byte order |
| Order.LessAtFirstDifference | internal/compute/plan.go:20 | the order of identifiers: the first byte that differs decides, and a text comes after what it begins with |
| Backfills.PlanCovers | internal/compute/plan.go:15-22 | every plan position finds a row and every row is planned |
| Backfills.Signature | internal/compute/plan.go:25-33 | the nested loops compute the fingerprint in whatever order the maps are ranged over |
| Backfills.ResultFor | internal/compute/compute.go:111-118 | the search returns the first row of the key |
| Backfills.AccumulateInto | internal/compute/compute.go:97-106 | the caller's map is updated in place, field by field |
| Backfills.Backfill.WriteResult | internal/compute/compute.go:95-108 | the row map is updated, for every row that shares it, whether or not the guard admits the write; it is written exactly if the store is not refusing and the stored version is none, unnamed or of no higher rank |
| Backfills.Backfill.Retry | internal/compute/compute.go:72-90 | store, registry, rows, count and error are those of the plan's steps, rows sharing a map included; records and maps it adds are fresh |
| Backfills.Backfill.Run | internal/compute/compute.go:32-62 | the same without the registry, with the task's progress and final state |
| Backfills.RefusalLeaves | internal/compute/compute.go:49-52 | a call a store error stops has updated the refused row's map, and neither store, registry nor count |
| Backfills.RetryAfterError | internal/compute/compute.go:72-90 | a Retry a store error stops, called again, leaves the store, registry and write count of one Retry |
| Backfills.RetriesInOne | internal/compute/compute.go:72-90 | any number of tries have the effect of one Retry up to the furthest of them, each position read by the clock of the first try past it |
| Backfills.RetriesAfterErrors | internal/compute/compute.go:72-90 | any sequence of interrupted Retries ended by a complete one equals one uninterrupted Retry |
| Backfills.CountedOn | internal/compute/compute.go:72-90 | a Retry writes the same, and as often, whatever was counted before |
| Backfills.RetryAll | internal/compute/compute.go:72-90 | a task retried on the object with value-equal rows of their own maps, each try interrupted or complete: the effect and count of writes of the tries in one, and of one uninterrupted Retry if the last try is complete |
| Backfills.UnsharedAttempt | internal/compute/compute.go:103 | with a field map for each row, a call does what it does to separate rows |
| Backfills.SharedMapLeaks | internal/compute/compute.go:95-106 | any rows over any maps, in a Run or a Retry over any store: an entity written receives its own row's fields exactly if what earlier positions have added to the same map comes to zero, in 64 bits, at each integer field |
| Backfills.RowsShareMaps | internal/compute/compute.go:95-106 | the rows a caller passes that refer to one field map have the same fields, which is all that is asked of rows and maps |
| Backfills.RowCarries | internal/compute/compute.go:95-106 | after any number of positions a row's fields are its own plus the stored integers the tried positions over the same map have added |
| Backfills.NotYetNamed | internal/compute/compute.go:47-60 | an entity no position has named yet is as it was before the call, so in a plan without repeats all that leaks was stored then |
| Backfills.SharedPairLeaks | internal/compute/compute.go:95-106 | of two rows over one map, the entity written second receives its own row's fields exactly if the first position is skipped as committed, or the first entity stores no integer of the row but zero |
| Backfills.SharedMapExample | internal/compute/compute.go:103 | a count stored for the first entity turns up in the second, stored nowhere before |
| Windows.TilesExactly | internal/sync/windows.go:14-28 | every instant of the range lies in exactly one window and no other instant in any |
| Windows.Partition | internal/sync/windows.go:16-28 | the loop produces the step windows |
| Windows.PartitionWindow | internal/sync/windows.go:16-28 | window i starts i steps in, the last is cut at the end, and there are just enough |
| Windows.PartitionTiles | internal/sync/windows.go:14-28 | the step windows tile every non-empty range |
| Events.SwitchEvents | internal/version/events.go:21-40 | one event for each published version stamped inside the range, ordered, with the sentinel last |
| Events.SwitchListed | internal/version/events.go:25-31 | a version has an event exactly if it is published and was stamped inside the range, at its stamp |
| Events.SwitchesAscend | internal/version/events.go:17-20 | the boundaries never go back, stay inside the range, and stand in identifier order where they coincide |
| Syncing.WindowsTile | internal/sync/sync.go:49-65 | in both modes the windows tile the range, for any switches and step |
| Syncing.StepWindow | internal/sync/sync.go:55-60 | without a switch in the range window i starts i steps in and the last is cut at the end |
| Syncing.SwitchWindow | internal/sync/sync.go:62-64 | otherwise each window reaches from one switch to the next, the first from the start of the range |
| Syncing.TilingReportsRange | internal/sync/sync.go:45-66 | any tiling reports exactly what one comparison over the whole range reports |
| Syncing.ExactlyOnce | internal/sync/sync.go:41-66 | a differing field of a uniquely stored entity written in the range is reported once, any other not at all |
| Syncing.TallyCounts | internal/sync/sync.go:70-106 | each difference is reported once per listing of its entity, if written in the window |
| Syncing.TallyExact | internal/sync/sync.go:70-106 | each differing field of an entity written in the window is reported once per listing, and no other |
| Syncing.BagCounts | internal/sync/sync.go:72-75 | a key is listed once for each shard that stores it |
| Syncing.FindingsExact | internal/sync/sync.go:86-101 | a field is reported exactly when the two sides print it as different texts, a missing offline field as the empty one, and at most once |
| Syncing.FieldReported | internal/sync/sync.go:88-101 | two strings, integers, floats or flags are reported exactly if their contents differ, an integer against a flag always, and against a missing value all but an empty string |
| Syncing.ReadKeepsAnswers | internal/store/store.go:149-166 | the reads a check makes fill the cache without changing any later answer |
| Syncing.FieldNames | internal/model/model.go:85-92 | the snapshot's field names, sorted |
| Syncing.Checker.constructor | internal/sync/sync.go:31-36 | a step that is not positive becomes one hour |
| Syncing.Checker.CompareKey | internal/sync/sync.go:76-101 | one listed key is compared exactly if its entry was written in the window |
| Syncing.Checker.CompareWindow | internal/sync/sync.go:70-106 | the window's differences, whatever order the maps are ranged over |
| Syncing.Checker.Check | internal/sync/sync.go:45-66 | empty ranges are rejected; otherwise each field printed differently, of an entity written in the range, is reported once per listing and nothing else is, each in the window its entity was written in |
| CheckRuns.OnlineIsFlatView | internal/sync/sync.go:82-85 | in a state a run reaches, the online side of a trusted key is the flat map's view under the active version |
| CheckRuns.CheckAfterRun | internal/sync/sync.go:45-106 | after any run, a check reports a difference of a trusted key exactly if it is one of the flat map's view, once for each shard that stores the key |
| CheckRuns.KnownReadsTrusted | internal/store/store.go:130-167 | if all reads were under registered versions, or none, the trusted keys are those no expansion has moved |
| CheckRuns.CheckFindsFlatDifferences | internal/sync/sync.go:45-106 | at a fixed shard count a check reports each difference of the flat map's views once and nothing else |
| CheckRuns.DriveAndCheck | internal/sync/sync.go:45-106 | both on the objects: any calls on a new store, then a check of a range |
| Expiry.Scanner.constructor | internal/ttl/ttl.go:20-25 | a limit that is not positive becomes 24 hours |
| Expiry.ScanInInstants | internal/ttl/ttl.go:43-58 | a scan keeps exactly the entries whose write is no longer ago than the limit, unchanged, and counts the others |
| Expiry.Scanner.ExpireKey | internal/ttl/ttl.go:43-58 | deletes the routed entry exactly if now is later than its write time plus the limit |
| Expiry.Scanner.Scan | internal/ttl/ttl.go:29-40 | an entry is live afterwards, unchanged, exactly if now is no later than its write time plus the limit; the number returned is that of the others; stray copies are left alone |
| Expiry.ScanTwice | internal/ttl/ttl.go:29-45 | a rescan finds nothing, and an early scan then a late one leave what the late one alone does |

## Left out

- Mutexes and fine-grained interleavings: every public method is one atomic step. Read drops its lock before it fills the cache (internal/store/store.go:135-144), so coherence is a sequential claim.
- HTTP handlers, JSON, server wiring, flags and the browse page: input, output and user interface. Of them only the expansion handler's two calls are modelled.
- The hash function: any function from keys to naturals. The internals of xxhash are not part of this model.
- The table registry and schemas: a schema is a list of field names. An unknown table, on which the importer's registry lookup panics, is excluded by passing the schema.
- Router.ShardState, Manager.List, ReadCache.Len, CommittedResults.Count, Journal.OpsForSegment, Importer.Batch, Backfill.Task, task timestamps and table ids, ParseEntity and RouteEntity: they would only add easy members.
- Store.Write, Store.SetClock and the wall clock: a write takes its instant as a parameter.
- Duration overflow: instants and ages are unbounded integers. Counters and lengths are unbounded too; integer field values and version ranks wrap at 64 bits as in the program.
- Float values: a float carries its printed form, so its formatting is not modelled.
- String cloning and Unicode: strings are values, one element a byte.
- Go's slice growth: the journal's buffer doubles when it is full, by this model's own policy.
- The manager's cache hook is the read cache itself rather than an interface of the store, and Router.Lookup is Route.
- Calls between the two halves of an expansion, where the router is ahead of the store: the store's routed methods require equal counts. What the routing of one key then falls back to is stated.
- Versions.Manager.Create: requires the manager's tables to be consistent, which every run from an empty manager keeps.
- Stores.Store.MergeWrite: takes the patch as a value, because the program only reads it.
- Backfills.Backfill.Retry: requires that neither the cache nor the journal holds a row's field map; a caller that passes a journaled before-image's map as a row is not modelled.
- Backfills.Backfill.Run: the error branch is driven by a parameter, because the store's compare-and-write never returns an error.
- Ingest.Importer.Import: the error branch is driven by a parameter, because the store's merge never returns an error.
- Ingest.Importer.WriteRow: bundles the batch id, version id, field window and clock in one job value.
- Windows.Partition: requires a positive step, without which the program's loop does not end; NewChecker supplies one.
- Coherence.StoreRefinesFlatMap: promises nothing of a read whose cached string was filled by another pair's read or before its version was registered, and a key an expansion moved counts again only once it is written, deleted or restored; the lemmas named above say when such an answer is wrong.
- Refinement.Drive: a loop of this project's own, not of the program; it carries the refinement from values to the store object. So are ImportRuns.ImportAndUndo, ImportRuns.ImportAndUndoIn, Backfills.RetryAll and CheckRuns.DriveAndCheck for their results.
