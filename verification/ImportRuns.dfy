/** Sequences of imports and batch rollbacks on the objects. */
module ImportRuns {
  import opened Model
  import opened Routing
  import opened Placement
  import opened Undoing
  import opened Journals
  import opened Stores
  import opened Ingest

  /** The arguments of one Import; refusal is the first row whose merge the store refuses. */
  datatype File = File(batch: string, schema: seq<string>, rows: seq<Row>, versionID: string, clock: nat -> int, refusal: nat)

  /** Import rejects a file without a batch id or without rows. */
  predicate Importing(files: seq<File>) {
    forall k :: 0 <= k < |files| ==> files[k].batch != "" && files[k].rows != []
  }

  ghost function ImportOf(f: File, size: nat): (i: Import)
    ensures i.job.batch == f.batch && (size > 0 ==> ImportOK(i))
  {
    Import(f.rows, StopAt(f.rows, f.refusal), Job(f.batch, f.versionID, FieldWindow(f.schema, f.rows), size, f.clock))
  }

  ghost function ImportsOf(files: seq<File>, size: nat): (imports: seq<Import>)
    ensures |imports| == |files| && forall k :: 0 <= k < |files| ==> imports[k] == ImportOf(files[k], size)
  {
    seq(|files|, k requires 0 <= k < |files| => ImportOf(files[k], size))
  }

  /** The store and the journal after all the files. */
  ghost function Loaded(p: Progress, files: seq<File>, size: nat): Progress
    requires size > 0
  {
    ImportAll(p, ImportsOf(files, size))
  }

  lemma NoFiles(p: Progress, size: nat)
    requires size > 0
    ensures Loaded(p, [], size) == p
  {
  }

  lemma NextFile(p: Progress, files: seq<File>, size: nat, k: nat)
    requires size > 0 && k < |files|
    ensures var i := ImportOf(files[k], size);
            Loaded(p, files[..k + 1], size) == Stopped(Loaded(p, files[..k], size), i.rows, i.stop, i.job)
  {
    hide Stopped, ImportOf;
    assert ImportsOf(files[..k + 1], size)[..k] == ImportsOf(files[..k], size);
  }

  /** A batch is recorded for every file, and is one of own. */
  ghost predicate Recorded(batches: map<string, Batch>, files: seq<File>, own: set<Batch>) {
    forall k :: 0 <= k < |files| ==> files[k].batch in batches && batches[files[k].batch] in own
  }

  lemma NextRecorded(batches: map<string, Batch>, files: seq<File>, k: nat, own: set<Batch>, batch: Batch)
    requires k < |files|
    ensures Recorded(batches, files[..k], own) ==> Recorded(batches[files[k].batch := batch], files[..k + 1], own + {batch})
  {
  }

  lemma NothingRecorded(batches: map<string, Batch>, own: set<Batch>)
    ensures Recorded(batches, [], own)
  {
  }

  method ImportFile(importer: Importer, f: File) returns (batch: Batch)
    requires importer.store.Valid() && importer.windowSize > 0 && |importer.store.Contents| > 0
    requires f.batch != "" && f.rows != []
    modifies importer`batches, importer.store`shards, importer.store`Contents, importer.store`Entries, importer.store`Maps
    modifies importer.store.Entries, importer.store.Maps, importer.store.cache`entries, importer.store.cache`Contents
    modifies importer.store.journal, importer.store.journal.buf
    ensures importer.store.Valid() && |importer.store.Contents| > 0
    ensures fresh(importer.store.Entries - old(importer.store.Entries)) && fresh(importer.store.Maps - old(importer.store.Maps))
    ensures importer.store.journal.buf == old(importer.store.journal.buf) || fresh(importer.store.journal.buf)
    ensures var i := ImportOf(f, importer.windowSize); importer.State() == Stopped(old(importer.State()), i.rows, i.stop, i.job)
    ensures SameStrays(importer.store.router.hash, old(importer.store.Contents), importer.store.Contents)
    ensures fresh(batch) && importer.batches == old(importer.batches)[f.batch := batch]
  {
    hide Store.Valid, SameStrays, Stopped, Importer.State, FieldWindow;
    var b, ok := importer.Import(f.batch, f.schema, f.rows, f.versionID, f.clock, f.refusal);
    batch := b;
  }

  /** A sequence of files, each imported to its end or to the row the store refuses. */
  method ImportFiles(importer: Importer, files: seq<File>) returns (ghost own: set<Batch>)
    requires importer.store.Valid() && importer.windowSize > 0 && |importer.store.Contents| > 0
    requires Importing(files)
    modifies importer`batches, importer.store`shards, importer.store`Contents, importer.store`Entries, importer.store`Maps
    modifies importer.store.Entries, importer.store.Maps, importer.store.cache`entries, importer.store.cache`Contents
    modifies importer.store.journal, importer.store.journal.buf
    ensures importer.store.Valid() && |importer.store.Contents| > 0
    ensures fresh(importer.store.Entries - old(importer.store.Entries)) && fresh(importer.store.Maps - old(importer.store.Maps))
    ensures importer.store.journal.buf == old(importer.store.journal.buf) || fresh(importer.store.journal.buf)
    ensures importer.State() == Loaded(old(importer.State()), files, importer.windowSize)
    ensures SameStrays(importer.store.router.hash, old(importer.store.Contents), importer.store.Contents)
    ensures fresh(own) && Recorded(importer.batches, files, own)
  {
    hide Store.Valid, SameStrays, Loaded, Stopped, ImportOf, Importer.State, Recorded;
    var store := importer.store;
    ghost var p, first := importer.State(), store.Contents;
    SameStraysReflexive(store.router.hash, first);
    NoFiles(p, importer.windowSize);
    own := {};
    NothingRecorded(importer.batches, own);
    for k := 0 to |files|
      invariant store.Valid() && |store.Contents| > 0
      invariant fresh(store.Entries - old(store.Entries)) && fresh(store.Maps - old(store.Maps))
      invariant store.journal.buf == old(store.journal.buf) || fresh(store.journal.buf)
      invariant SameStrays(store.router.hash, first, store.Contents)
      invariant importer.State() == Loaded(p, files[..k], importer.windowSize)
      invariant fresh(own) && Recorded(importer.batches, files[..k], own)
    {
      ghost var before := store.Contents;
      ghost var batches := importer.batches;
      var batch := ImportFile(importer, files[k]);
      NextRecorded(batches, files, k, own, batch);
      own := own + {batch};
      NextFile(p, files, importer.windowSize, k);
      SameStraysTransitive(store.router.hash, first, before, store.Contents);
    }
    assert files[..|files|] == files;
  }

  /** The rollback of one file's batch. */
  method UndoFile(importer: Importer, files: seq<File>, k: nat, ghost own: set<Batch>)
    requires importer.store.Valid() && importer.windowSize > 0 && |importer.store.Contents| > 0
    requires Recorded(importer.batches, files, own) && k < |files|
    modifies own, importer.store`shards, importer.store`Contents, importer.store`Entries, importer.store`Maps
    modifies importer.store.Entries, importer.store.cache`entries, importer.store.cache`Contents
    modifies importer.store.journal, importer.store.journal.buf
    ensures importer.store.Valid() && |importer.store.Contents| > 0
    ensures fresh(importer.store.Entries - old(importer.store.Entries)) && fresh(importer.store.Maps - old(importer.store.Maps))
    ensures importer.store.journal.buf == old(importer.store.journal.buf) || fresh(importer.store.journal.buf)
    ensures importer.State() == RolledBack(old(importer.State()), files[k].batch)
    ensures SameStrays(importer.store.router.hash, old(importer.store.Contents), importer.store.Contents)
    ensures Recorded(importer.batches, files, own)
  {
    hide Store.Valid, SameStrays, Importer.State, RolledBack;
    var known := importer.Rollback(files[k].batch);
  }

  /**
   Files imported, then all their batches rolled back, last file first: the very same contents, strays included, and
   the same journal.
   */
  method ImportAndUndo(importer: Importer, files: seq<File>)
    requires importer.store.Valid() && importer.windowSize > 0 && |importer.store.Contents| > 0
    requires Importing(files) && Importable(importer.State(), ImportsOf(files, importer.windowSize))
    modifies importer`batches, importer.store`shards, importer.store`Contents, importer.store`Entries, importer.store`Maps
    modifies importer.store.Entries, importer.store.Maps, importer.store.cache`entries, importer.store.cache`Contents
    modifies importer.store.journal, importer.store.journal.buf
    ensures importer.store.Valid()
    ensures importer.store.Contents == old(importer.store.Contents)
    ensures importer.store.journal.Contents == old(importer.store.journal.Contents)
  {
    hide Store.Valid, SameStrays, Stopped, RolledBack, Importable, ImportOf, Recorded, UndoAll, ImportAll;
    var store := importer.store;
    ghost var p, first, imports := importer.State(), store.Contents, ImportsOf(files, importer.windowSize);
    ghost var own := ImportFiles(importer, files);
    ghost var all := importer.State();
    var k := |files|;
    assert imports[..k] == imports;
    while k > 0
      invariant store.Valid() && |store.Contents| > 0
      invariant fresh(store.Entries - old(store.Entries)) && fresh(store.Maps - old(store.Maps))
      invariant store.journal.buf == old(store.journal.buf) || fresh(store.journal.buf)
      invariant SameStrays(store.router.hash, first, store.Contents)
      invariant 0 <= k <= |files| && fresh(own) && Recorded(importer.batches, files, own)
      invariant UndoAll(importer.State(), imports[..k]) == UndoAll(all, imports)
    {
      k := k - 1;
      ghost var before := store.Contents;
      UndoPrevious(importer.State(), imports, k);
      UndoFile(importer, files, k, own);
      SameStraysTransitive(store.router.hash, first, before, store.Contents);
    }
    UndoneInReverse(p, imports);
    NothingLeft(importer.State(), imports);
    LiveAndStrays(store.router.hash, first, store.Contents);
  }

  lemma UndoPrevious(p: Progress, imports: seq<Import>, k: nat)
    requires k < |imports|
    ensures UndoAll(p, imports[..k + 1]) == UndoAll(RolledBack(p, imports[k].job.batch), imports[..k])
  {
    hide RolledBack;
    assert imports[..k + 1][..k] == imports[..k];
  }

  lemma NothingLeft(p: Progress, imports: seq<Import>)
    ensures UndoAll(p, imports[..0]) == p
  {
  }

  lemma UndoneInReverse(p: Progress, imports: seq<Import>)
    requires Importable(p, imports)
    ensures UndoAll(ImportAll(p, imports), imports) == p
  {
    hide UndoAll, ImportAll;
    UndoInReverseRestores(p, imports);
  }

  /**
   Files imported, then batches rolled back in any order: each key has the entry from before the import undone last of
   those that touch it; with every batch undone the contents are the original ones exactly if those entries are.
   */
  method ImportAndUndoIn(importer: Importer, files: seq<File>, order: seq<nat>)
    requires importer.store.Valid() && importer.windowSize > 0 && |importer.store.Contents| > 0
    requires Importing(files) && Importable(importer.State(), ImportsOf(files, importer.windowSize))
    requires forall i :: 0 <= i < |order| ==> order[i] < |files|
    modifies importer`batches, importer.store`shards, importer.store`Contents, importer.store`Entries, importer.store`Maps
    modifies importer.store.Entries, importer.store.Maps, importer.store.cache`entries, importer.store.cache`Contents
    modifies importer.store.journal, importer.store.journal.buf
    ensures importer.store.Valid() && |importer.store.Contents| > 0
    ensures SameStrays(importer.store.router.hash, old(importer.store.Contents), importer.store.Contents)
    ensures var imports := ImportsOf(files, importer.windowSize);
            importer.State() == UndoIn(ImportAll(old(importer.State()), imports), imports, order)
    ensures (forall i :: 0 <= i < |files| ==> i in order) ==>
              && importer.store.journal.Contents == old(importer.store.journal.Contents)
              && (importer.store.Contents == old(importer.store.Contents) <==>
                  forall key :: Left(old(importer.State()), ImportsOf(files, importer.windowSize), order, key) ==
                                Lookup(old(importer.State()).live, key))
  {
    hide Store.Valid, SameStrays, Stopped, RolledBack, Importable, ImportOf, Recorded, Left, UndoIn;
    var store := importer.store;
    ghost var p, first, imports := importer.State(), store.Contents, ImportsOf(files, importer.windowSize);
    ghost var own := ImportFiles(importer, files);
    ghost var all := importer.State();
    NothingUndone(all, imports);
    for k := 0 to |order|
      invariant store.Valid() && |store.Contents| > 0
      invariant fresh(store.Entries - old(store.Entries)) && fresh(store.Maps - old(store.Maps))
      invariant store.journal.buf == old(store.journal.buf) || fresh(store.journal.buf)
      invariant SameStrays(store.router.hash, first, store.Contents)
      invariant fresh(own) && Recorded(importer.batches, files, own)
      invariant importer.State() == UndoIn(all, imports, order[..k])
    {
      ghost var before := store.Contents;
      UndoNext(all, imports, order, k);
      UndoFile(importer, files, order[k], own);
      SameStraysTransitive(store.router.hash, first, before, store.Contents);
    }
    assert order[..|order|] == order;
    if forall i :: 0 <= i < |files| ==> i in order {
      AllUndone(p, imports, order);
      SameShards(store.router.hash, first, store.Contents);
    }
  }

  lemma NothingUndone(p: Progress, imports: seq<Import>)
    requires Undoable(imports, [])
    ensures UndoIn(p, imports, []) == p
  {
  }

  lemma UndoNext(p: Progress, imports: seq<Import>, order: seq<nat>, k: nat)
    requires Undoable(imports, order) && k < |order|
    ensures UndoIn(p, imports, order[..k + 1]) == RolledBack(UndoIn(p, imports, order[..k]), imports[order[k]].job.batch)
  {
    hide RolledBack;
    assert order[..k + 1][..k] == order[..k];
  }

  lemma SameShards(hash: HashFn, s: Shards, t: Shards)
    requires |s| > 0 && SameStrays(hash, s, t)
    ensures s == t <==> LiveOf(hash, s) == LiveOf(hash, t)
  {
    if LiveOf(hash, s) == LiveOf(hash, t) {
      LiveAndStrays(hash, s, t);
    }
  }}
