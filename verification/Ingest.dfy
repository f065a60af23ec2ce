/** Batch import: windowed, journaled merges, and the rollback that undoes them. */
module Ingest {
  import opened Arithmetic
  import opened Order
  import opened Model
  import opened Journals
  import opened Placement
  import opened Routing
  import opened Undoing
  import opened Stores
  import opened Coherence

  datatype Row = Row(entity: Key, fields: Fields)

  datatype Segment = Segment(index: nat, done: bool, rows: nat)

  /** One import: its batch, target version, field window, row window size, and the clock its merges read. */
  datatype Job = Job(batch: string, versionID: string, window: seq<string>, size: nat, clock: nat -> int)

  /** Live entries and journal, which an import changes together. */
  datatype Progress = Progress(live: Live, ops: seq<OpValue>)

  function RowPatch(row: Row, window: seq<string>): Fields {
    map n | n in window && n in row.fields :: row.fields[n]
  }

  function BeforeOp(p: Progress, row: Row, j: nat, job: Job): OpValue
    requires job.size > 0
  {
    Op(job.batch, j / job.size, row.entity, Lookup(p.live, row.entity))
  }

  function Journaled(p: Progress, row: Row, j: nat, job: Job): Progress
    requires job.size > 0
  {
    p.(ops := p.ops + [BeforeOp(p, row, j, job)])
  }

  function RowWritten(p: Progress, row: Row, j: nat, job: Job): Progress
    requires job.size > 0
  {
    RowMerged(Journaled(p, row, j, job), row, job, job.clock(j))
  }

  /** The merge of one row, field window only. */
  function RowMerged(p: Progress, row: Row, job: Job, now: int): Progress {
    p.(live := p.live[row.entity := Merged(Lookup(p.live, row.entity), RowPatch(row, job.window), job.window, job.versionID, now)])
  }

  /** The state after the first n rows. */
  function Imported(p: Progress, rows: seq<Row>, n: nat, job: Job): Progress
    requires n <= |rows| && job.size > 0
  {
    if n == 0 then p else RowWritten(Imported(p, rows, n - 1, job), rows[n - 1], n - 1, job)
  }

  /** The operations those rows journal. */
  function OwnOps(p: Progress, rows: seq<Row>, n: nat, job: Job): seq<OpValue>
    requires n <= |rows| && job.size > 0
  {
    if n == 0 then [] else OwnOps(p, rows, n - 1, job) + [BeforeOp(Imported(p, rows, n - 1, job), rows[n - 1], n - 1, job)]
  }

  /** An import that stops after n rows, or with row n journaled and not yet merged. */
  datatype Stop = Stop(n: nat, midRow: bool)

  predicate StopOK(rows: seq<Row>, stop: Stop) {
    stop.n <= |rows| && (stop.midRow ==> stop.n < |rows|)
  }

  /** Where an import stops when the store first refuses row refusal, if that is a row. */
  function StopAt(rows: seq<Row>, refusal: nat): (stop: Stop)
    ensures StopOK(rows, stop)
  {
    if refusal < |rows| then Stop(refusal, true) else Stop(|rows|, false)
  }

  function Stopped(p: Progress, rows: seq<Row>, stop: Stop, job: Job): Progress
    requires StopOK(rows, stop) && job.size > 0
  {
    var q := Imported(p, rows, stop.n, job);
    if stop.midRow then Journaled(q, rows[stop.n], stop.n, job) else q
  }

  function Touched(rows: seq<Row>, stop: Stop): set<Key>
    requires StopOK(rows, stop)
  {
    set i | 0 <= i < |rows| && (i < stop.n || (stop.midRow && i == stop.n)) :: rows[i].entity
  }

  /** RollbackBatch on values: replay the batch's operations, then drop them from the journal. */
  function RolledBack(p: Progress, batch: string): Progress {
    Progress(Undo(p.live, OpsOf(p.ops, batch), {}), Without(p.ops, batch))
  }

  /** The journal after n rows, operation by operation: op j carries segment j / size. */
  lemma {:induction false} ImportJournals(p: Progress, rows: seq<Row>, n: nat, job: Job)
    requires n <= |rows| && job.size > 0
    ensures Imported(p, rows, n, job).ops == p.ops + OwnOps(p, rows, n, job)
    ensures var own := OwnOps(p, rows, n, job);
            |own| == n && forall j :: 0 <= j < n ==>
              own[j].batch == job.batch && own[j].segment == j / job.size && own[j].key == rows[j].entity
  {
    if n > 0 {
      ImportJournals(p, rows, n - 1, job);
    }
  }

  lemma {:induction false} FirstOpSnoc(ops: seq<OpValue>, op: OpValue, key: Key)
    ensures FirstOp(ops + [op], key) ==
            if FirstOp(ops, key).Some? then FirstOp(ops, key) else if op.key == key then Some(op) else None
  {
    if ops == [] {
      assert ops + [op] == [op];
    } else {
      FirstOpSnoc(ops[1..], op, key);
      assert (ops + [op])[1..] == ops[1..] + [op];
    }
  }

  lemma NoFirstOp(key: Key)
    ensures FirstOp([], key) == None
  {
  }

  /**
   A touched key's first operation holds the entry it had before the import; an untouched key has neither operation nor
   change.
   */
  lemma {:induction false} FirstOpIsOriginal(p: Progress, rows: seq<Row>, n: nat, job: Job, key: Key)
    requires n <= |rows| && job.size > 0
    ensures var first := FirstOp(OwnOps(p, rows, n, job), key);
            if key in Touched(rows, Stop(n, false)) then first.Some? && first.value.before == Lookup(p.live, key)
            else first == None && Lookup(Imported(p, rows, n, job).live, key) == Lookup(p.live, key)
  {
    hide FirstOp, Merged;
    NoFirstOp(key);
    if n > 0 {
      FirstOpIsOriginal(p, rows, n - 1, job, key);
      FirstOpSnoc(OwnOps(p, rows, n - 1, job), BeforeOp(Imported(p, rows, n - 1, job), rows[n - 1], n - 1, job), key);
      assert Touched(rows, Stop(n, false)) == Touched(rows, Stop(n - 1, false)) + {rows[n - 1].entity};
    } else {
      assert Touched(rows, Stop(0, false)) == {};
    }
  }

  /** The operations a stopped import leaves, and their first before-images. */
  lemma StoppedJournal(p: Progress, rows: seq<Row>, stop: Stop, job: Job, key: Key) returns (own: seq<OpValue>)
    requires StopOK(rows, stop) && job.size > 0
    ensures Stopped(p, rows, stop, job).ops == p.ops + own
    ensures forall i :: 0 <= i < |own| ==> own[i].batch == job.batch
    ensures if key in Touched(rows, stop) then FirstOp(own, key).Some? && FirstOp(own, key).value.before == Lookup(p.live, key)
            else FirstOp(own, key) == None && Lookup(Stopped(p, rows, stop, job).live, key) == Lookup(p.live, key)
  {
    ImportJournals(p, rows, stop.n, job);
    FirstOpIsOriginal(p, rows, stop.n, job, key);
    own := OwnOps(p, rows, stop.n, job);
    if stop.midRow {
      var op := BeforeOp(Imported(p, rows, stop.n, job), rows[stop.n], stop.n, job);
      FirstOpSnoc(own, op, key);
      assert Touched(rows, stop) == Touched(rows, Stop(stop.n, false)) + {rows[stop.n].entity};
      own := own + [op];
    } else {
      assert Touched(rows, stop) == Touched(rows, Stop(stop.n, false));
    }
  }

  /**
   Rolling back an import stopped anywhere, whatever happened to the store since: every key it touched
   gets back the entry it had, or its absence; no other key moves; the journal is as before the import.
   */
  lemma RollbackUndoesImport(p: Progress, rows: seq<Row>, stop: Stop, job: Job, since: Live, key: Key)
    requires StopOK(rows, stop) && job.size > 0
    requires NoneOf(p.ops, job.batch)
    ensures var r := RolledBack(Progress(since, Stopped(p, rows, stop, job).ops), job.batch);
            && Lookup(r.live, key) == (if key in Touched(rows, stop) then Lookup(p.live, key) else Lookup(since, key))
            && r.ops == p.ops
  {
    var own := StoppedJournal(p, rows, stop, job, key);
    OpsOfForeign(p.ops, job.batch);
    OpsOfOwn(own, job.batch);
    OpsOfConcat(p.ops, own, job.batch);
    WithoutConcat(p.ops, own, job.batch);
    assert OpsOf(p.ops + own, job.batch) == own;
    UndoRestoresFirst(since, own, {}, key);
  }

  /** With no other writer in between, import and rollback cancel exactly. */
  lemma ImportThenRollback(p: Progress, rows: seq<Row>, stop: Stop, job: Job)
    requires StopOK(rows, stop) && job.size > 0
    requires NoneOf(p.ops, job.batch)
    ensures RolledBack(Stopped(p, rows, stop, job), job.batch) == p
  {
    var q := Stopped(p, rows, stop, job);
    forall key ensures Lookup(RolledBack(q, job.batch).live, key) == Lookup(p.live, key) {
      RollbackUndoesImport(p, rows, stop, job, q.live, key);
      var own := StoppedJournal(p, rows, stop, job, key);
    }
    SameLookups(RolledBack(q, job.batch).live, p.live);
    RollbackUndoesImport(p, rows, stop, job, q.live, "");
  }

  /** On the shards, with what Importer.Import and Importer.Rollback promise: the very same contents, strays included. */
  lemma RollbackRestoresShards(hash: HashFn, s: Shards, t: Shards, u: Shards, p: Progress, q: Progress, r: Progress,
                               rows: seq<Row>, stop: Stop, job: Job)
    requires StopOK(rows, stop) && job.size > 0 && NoneOf(p.ops, job.batch)
    requires |s| > 0 && SameStrays(hash, s, t) && SameStrays(hash, t, u)
    requires p.live == LiveOf(hash, s) && q.live == LiveOf(hash, t) && r.live == LiveOf(hash, u)
    requires q == Stopped(p, rows, stop, job) && r == RolledBack(q, job.batch)
    ensures u == s && r.ops == p.ops
  {
    ImportThenRollback(p, rows, stop, job);
    SameStraysTransitive(hash, s, t, u);
    LiveAndStrays(hash, s, u);
  }

  /**
   The calls an import makes: for each row its before-image, then its merge; the stop decides whether the last is
   merged.
   */
  function ImportCalls(rows: seq<Row>, n: nat, job: Job): seq<Call>
    requires n <= |rows| && job.size > 0
  {
    if n == 0 then []
    else
      var row := rows[n - 1];
      ImportCalls(rows, n - 1, job) + [JournalWrite(row.entity, job.batch, (n - 1) / job.size)]
      + [Merge(row.entity, RowPatch(row, job.window), job.window, job.versionID, job.clock(n - 1))]
  }

  function StoppedCalls(rows: seq<Row>, stop: Stop, job: Job): seq<Call>
    requires StopOK(rows, stop) && job.size > 0
  {
    ImportCalls(rows, stop.n, job)
    + if stop.midRow then [JournalWrite(rows[stop.n].entity, job.batch, stop.n / job.size)] else []
  }

  /** Two more calls of a run, one after the other. */
  lemma FlatRunTwo(f: Flat, calls: seq<Call>, c: Call, d: Call)
    ensures FlatRun(f, calls + [c] + [d]).0 == FlatStep(FlatStep(FlatRun(f, calls).0, c).0, d).0
  {
    hide FlatRun, FlatStep;
    FlatRunNext(f, calls, c);
    FlatRunNext(f, calls + [c], d);
  }

  /** The two calls of a row write it. */
  lemma RowCalls(f: Flat, row: Row, j: nat, job: Job)
    requires job.size > 0
    ensures var journal, merge := JournalWrite(row.entity, job.batch, j / job.size),
                                  Merge(row.entity, RowPatch(row, job.window), job.window, job.versionID, job.clock(j));
            var p := RowWritten(Progress(f.live, f.ops), row, j, job);
            FlatStep(FlatStep(f, journal).0, merge).0 == Flat(p.live, f.vm, p.ops)
  {
    hide RowPatch, Merged;
  }

  lemma {:induction false} ImportCallsRun(f: Flat, rows: seq<Row>, n: nat, job: Job)
    requires n <= |rows| && job.size > 0
    ensures var p := Imported(Progress(f.live, f.ops), rows, n, job);
            FlatRun(f, ImportCalls(rows, n, job)).0 == Flat(p.live, f.vm, p.ops)
  {
    hide RowPatch, RowWritten, FlatStep, FlatRun;
    if n > 0 {
      var row := rows[n - 1];
      ImportCallsRun(f, rows, n - 1, job);
      FlatRunTwo(f, ImportCalls(rows, n - 1, job), JournalWrite(row.entity, job.batch, (n - 1) / job.size),
        Merge(row.entity, RowPatch(row, job.window), job.window, job.versionID, job.clock(n - 1)));
      RowCalls(FlatRun(f, ImportCalls(rows, n - 1, job)).0, row, n - 1, job);
    } else {
      NoFlatCalls(f);
    }
  }

  lemma NoFlatCalls(f: Flat)
    ensures FlatRun(f, []) == (f, [])
  {
  }

  /**
   On the flat map every store run is compared with, the calls of an import stopped anywhere followed by
   the rollback of its batch leave everything as it was.
   */
  lemma ImportCallsUndone(f: Flat, rows: seq<Row>, stop: Stop, job: Job)
    requires StopOK(rows, stop) && job.size > 0 && NoneOf(f.ops, job.batch)
    ensures FlatRun(f, StoppedCalls(rows, stop, job) + [RollbackBatch(job.batch)]).0 == f
  {
    hide Imported, RolledBack;
    var p := Progress(f.live, f.ops);
    StoppedCallsRun(f, rows, stop, job);
    FlatRunNext(f, StoppedCalls(rows, stop, job), RollbackBatch(job.batch));
    ImportThenRollback(p, rows, stop, job);
    RolledBackValue(Stopped(p, rows, stop, job), job.batch);
  }

  lemma RolledBackValue(p: Progress, batch: string)
    ensures RolledBack(p, batch) == Progress(Undo(p.live, OpsOf(p.ops, batch), {}), Without(p.ops, batch))
  {
  }

  lemma StoppedCallsRun(f: Flat, rows: seq<Row>, stop: Stop, job: Job)
    requires StopOK(rows, stop) && job.size > 0
    ensures var p := Stopped(Progress(f.live, f.ops), rows, stop, job);
            FlatRun(f, StoppedCalls(rows, stop, job)).0 == Flat(p.live, f.vm, p.ops)
  {
    hide Imported, ImportCalls;
    var calls := ImportCalls(rows, stop.n, job);
    ImportCallsRun(f, rows, stop.n, job);
    if stop.midRow {
      FlatRunNext(f, calls, JournalWrite(rows[stop.n].entity, job.batch, stop.n / job.size));
    } else {
      assert calls + [] == calls;
    }
  }

  /** A second rollback of the same batch changes nothing. */
  lemma RollbackTwice(p: Progress, batch: string)
    ensures RolledBack(RolledBack(p, batch), batch) == RolledBack(p, batch)
  {
    WithoutHasNone(p.ops, batch);
    OpsOfForeign(Without(p.ops, batch), batch);
  }

  lemma {:induction false} WithoutHasNone(ops: seq<OpValue>, batch: string)
    ensures NoneOf(Without(ops, batch), batch)
  {
    if ops != [] {
      WithoutHasNone(ops[..|ops| - 1], batch);
    }
  }

  datatype Import = Import(rows: seq<Row>, stop: Stop, job: Job)

  predicate ImportOK(i: Import) {
    StopOK(i.rows, i.stop) && i.job.size > 0
  }

  function ImportAll(p: Progress, imports: seq<Import>): Progress
    requires forall k :: 0 <= k < |imports| ==> ImportOK(imports[k])
  {
    if imports == [] then p
    else
      var last := imports[|imports| - 1];
      assert ImportOK(last);
      Stopped(ImportAll(p, imports[..|imports| - 1]), last.rows, last.stop, last.job)
  }

  /** Undo the batches, last import first. */
  function UndoAll(p: Progress, imports: seq<Import>): Progress
    decreases imports
  {
    if imports == [] then p
    else UndoAll(RolledBack(p, imports[|imports| - 1].job.batch), imports[..|imports| - 1])
  }

  lemma {:induction false} ImportAllBatches(p: Progress, imports: seq<Import>, batch: string)
    requires forall k :: 0 <= k < |imports| ==> ImportOK(imports[k]) && imports[k].job.batch != batch
    requires NoneOf(p.ops, batch)
    ensures NoneOf(ImportAll(p, imports).ops, batch)
  {
    if imports != [] {
      var last, front := imports[|imports| - 1], imports[..|imports| - 1];
      assert ImportOK(last);
      ImportAllBatches(p, front, batch);
      var own := StoppedJournal(ImportAll(p, front), last.rows, last.stop, last.job, "");
    }
  }

  /** Any number of imports under distinct batch ids, undone last first, leave the original store and journal. */
  lemma {:induction false} UndoInReverseRestores(p: Progress, imports: seq<Import>)
    requires forall k :: 0 <= k < |imports| ==> ImportOK(imports[k])
    requires forall i, j :: 0 <= i < j < |imports| ==> imports[i].job.batch != imports[j].job.batch
    requires forall i :: 0 <= i < |imports| ==> NoneOf(p.ops, imports[i].job.batch)
    ensures UndoAll(ImportAll(p, imports), imports) == p
  {
    hide Stopped, RolledBack, Imported;
    if imports != [] {
      var n := |imports| - 1;
      var last, front := imports[n], imports[..n];
      assert ImportOK(last) && NoneOf(p.ops, last.job.batch);
      ImportAllBatches(p, front, last.job.batch);
      ImportThenRollback(ImportAll(p, front), last.rows, last.stop, last.job);
      UndoInReverseRestores(p, front);
    }
  }

  /** Imports under distinct batch ids, none of them in the journal yet. */
  ghost predicate Importable(p: Progress, imports: seq<Import>) {
    && (forall k :: 0 <= k < |imports| ==> ImportOK(imports[k]) && NoneOf(p.ops, imports[k].job.batch))
    && (forall i, j :: 0 <= i < j < |imports| ==> imports[i].job.batch != imports[j].job.batch)
  }

  predicate Undoable(imports: seq<Import>, order: seq<nat>) {
    && (forall k :: 0 <= k < |imports| ==> ImportOK(imports[k]))
    && (forall i :: 0 <= i < |order| ==> order[i] < |imports|)
  }

  /** Undo the batches of some of the imports, in the given order. */
  function UndoIn(p: Progress, imports: seq<Import>, order: seq<nat>): Progress
    requires Undoable(imports, order)
  {
    if order == [] then p
    else RolledBack(UndoIn(p, imports, order[..|order| - 1]), imports[order[|order| - 1]].job.batch)
  }

  predicate Touches(i: Import, key: Key)
    requires ImportOK(i)
  {
    key in Touched(i.rows, i.stop)
  }

  /** Of the imports that touch the key, the one whose batch is undone last; -1 if no undone batch touches it. */
  function LastToTouch(imports: seq<Import>, order: seq<nat>, key: Key): (j: int)
    requires Undoable(imports, order)
    ensures j == -1 || j in order
  {
    if order == [] then -1
    else
      var front, i := order[..|order| - 1], order[|order| - 1];
      if i !in front && Touches(imports[i], key) then i else LastToTouch(imports, front, key)
  }

  /** The operations of other batches, in append order. */
  function Outside(ops: seq<OpValue>, batches: set<string>): seq<OpValue> {
    if ops == [] then []
    else Outside(ops[..|ops| - 1], batches) + (if ops[|ops| - 1].batch !in batches then [ops[|ops| - 1]] else [])
  }

  function BatchesOf(imports: seq<Import>, order: seq<nat>): set<string>
    requires Undoable(imports, order)
  {
    set i | 0 <= i < |order| :: imports[order[i]].job.batch
  }

  lemma {:induction false} OutsideNothing(ops: seq<OpValue>)
    ensures Outside(ops, {}) == ops
  {
    if ops != [] {
      OutsideNothing(ops[..|ops| - 1]);
    }
  }

  lemma FilterSnoc(ops: seq<OpValue>, op: OpValue, batch: string)
    ensures Without(ops + [op], batch) == Without(ops, batch) + if op.batch != batch then [op] else []
    ensures OpsOf(ops + [op], batch) == OpsOf(ops, batch) + if op.batch == batch then [op] else []
  {
    assert (ops + [op])[..|ops|] == ops;
  }

  lemma {:induction false} OutsideAlso(ops: seq<OpValue>, batches: set<string>, batch: string)
    ensures Without(Outside(ops, batches), batch) == Outside(ops, batches + {batch})
    ensures OpsOf(Outside(ops, batches), batch) == if batch in batches then [] else OpsOf(ops, batch)
  {
    hide Without, OpsOf;
    if ops == [] {
      NothingToFilter(batch);
    } else {
      var front, last := ops[..|ops| - 1], ops[|ops| - 1];
      OutsideAlso(front, batches, batch);
      FilterSnoc(front, last, batch);
      FilterSnoc(Outside(front, batches), last, batch);
      assert front + [last] == ops;
      assert Outside(ops, batches) == if last.batch in batches then Outside(front, batches) else Outside(front, batches) + [last];
    }
  }

  lemma NothingToFilter(batch: string)
    ensures Without<Option<EntryValue>>([], batch) == [] && OpsOf<Option<EntryValue>>([], batch) == []
  {
  }

  lemma {:induction false} OutsideConcat(a: seq<OpValue>, b: seq<OpValue>, batches: set<string>)
    ensures Outside(a + b, batches) == Outside(a, batches) + Outside(b, batches)
  {
    if b == [] {
      assert a + b == a;
    } else {
      OutsideConcat(a, b[..|b| - 1], batches);
      assert (a + b)[..|a + b| - 1] == a + b[..|b| - 1];
    }
  }

  lemma {:induction false} OutsideOwn(ops: seq<OpValue>, batches: set<string>)
    requires forall i :: 0 <= i < |ops| ==> ops[i].batch in batches
    ensures Outside(ops, batches) == []
  {
    if ops != [] {
      OutsideOwn(ops[..|ops| - 1], batches);
    }
  }

  lemma {:induction false} OutsideForeign(ops: seq<OpValue>, batches: set<string>)
    requires forall i :: 0 <= i < |ops| ==> ops[i].batch !in batches
    ensures Outside(ops, batches) == ops
  {
    if ops != [] {
      OutsideForeign(ops[..|ops| - 1], batches);
    }
  }

  /** An import journals under its own batch only. */
  lemma StoppedKeepsOthers(p: Progress, a: Import, batch: string)
    requires ImportOK(a) && a.job.batch != batch
    ensures OpsOf(Stopped(p, a.rows, a.stop, a.job).ops, batch) == OpsOf(p.ops, batch)
  {
    var own := StoppedJournal(p, a.rows, a.stop, a.job, "");
    OpsOfForeign(own, batch);
    OpsOfConcat(p.ops, own, batch);
  }

  lemma PrefixImportable(p: Progress, imports: seq<Import>, n: nat)
    requires Importable(p, imports) && n <= |imports|
    ensures Importable(p, imports[..n])
  {
  }

  /** The batch of import k is in the journal as import k left it, and was not there before. */
  lemma {:induction false} BatchJournaled(p: Progress, imports: seq<Import>, k: nat)
    requires Importable(p, imports) && k < |imports|
    ensures var before, i := ImportAll(p, imports[..k]), imports[k];
            && NoneOf(before.ops, i.job.batch)
            && OpsOf(ImportAll(p, imports).ops, i.job.batch) == OpsOf(Stopped(before, i.rows, i.stop, i.job).ops, i.job.batch)
  {
    hide Stopped, NoneOf, OpsOf;
    var n := |imports| - 1;
    if k == n {
      ImportAllBatches(p, imports[..n], imports[n].job.batch);
    } else {
      BatchJournaled(p, imports[..n], k);
      assert imports[..n][..k] == imports[..k];
      StoppedKeepsOthers(ImportAll(p, imports[..n]), imports[n], imports[k].job.batch);
    }
  }

  /** Only the operations of the batch matter to its rollback. */
  lemma RolledBackKey(p: Progress, imports: seq<Import>, k: nat, now: Progress, key: Key)
    requires Importable(p, imports) && k < |imports|
    requires OpsOf(now.ops, imports[k].job.batch) == OpsOf(ImportAll(p, imports).ops, imports[k].job.batch)
    ensures Lookup(RolledBack(now, imports[k].job.batch).live, key) ==
            if Touches(imports[k], key) then Lookup(ImportAll(p, imports[..k]).live, key) else Lookup(now.live, key)
  {
    hide Stopped, NoneOf, OpsOf, Undo, Touched;
    var i := imports[k];
    BatchJournaled(p, imports, k);
    RollbackUndoesImport(ImportAll(p, imports[..k]), i.rows, i.stop, i.job, now.live, key);
  }

  lemma RolledBackTwice(now: Progress, batch: string)
    requires OpsOf(now.ops, batch) == []
    ensures RolledBack(now, batch).live == now.live
  {
  }

  /**
   Some or all of any number of imports undone in any order, repeats included: each key gets back the entry it
   had before the import undone last of those that touch it, and exactly the undone batches leave the journal.
   */
  lemma {:induction false} UndoInAnyOrder(p: Progress, imports: seq<Import>, order: seq<nat>, key: Key)
    requires Importable(p, imports) && Undoable(imports, order)
    ensures var r, j := UndoIn(ImportAll(p, imports), imports, order), LastToTouch(imports, order, key);
            && Lookup(r.live, key) == Lookup(ImportAll(p, if j < 0 then imports else imports[..j]).live, key)
            && r.ops == Outside(ImportAll(p, imports).ops, BatchesOf(imports, order))
  {
    hide Importable, ImportAll, RolledBack, UndoIn, LastToTouch, Touches, Outside, BatchesOf, Lookup;
    if order == [] {
      NothingUndone(p, imports, key);
    } else {
      var front, i := order[..|order| - 1], order[|order| - 1];
      assert order == front + [i];
      UndoInAnyOrder(p, imports, front, key);
      OneMoreUndone(p, imports, front, i, key);
    }
  }

  lemma NothingUndone(p: Progress, imports: seq<Import>, key: Key)
    requires Undoable(imports, [])
    ensures UndoIn(p, imports, []) == p && LastToTouch(imports, [], key) == -1
    ensures var all := ImportAll(p, imports);
            UndoIn(all, imports, []) == all && all.ops == Outside(all.ops, BatchesOf(imports, []))
  {
    OutsideNothing(ImportAll(p, imports).ops);
    assert BatchesOf(imports, []) == {};
  }

  lemma OneMoreUndone(p: Progress, imports: seq<Import>, front: seq<nat>, i: nat, key: Key)
    requires Importable(p, imports) && Undoable(imports, front + [i]) && Undoable(imports, front) && i < |imports|
    requires UndoIn(ImportAll(p, imports), imports, front).ops == Outside(ImportAll(p, imports).ops, BatchesOf(imports, front))
    ensures var now, r := UndoIn(ImportAll(p, imports), imports, front), UndoIn(ImportAll(p, imports), imports, front + [i]);
            var before, j := LastToTouch(imports, front, key), LastToTouch(imports, front + [i], key);
            && (if j == before then Lookup(r.live, key) == Lookup(now.live, key)
                else j == i && Lookup(r.live, key) == Lookup(ImportAll(p, imports[..i]).live, key))
            && r.ops == Outside(ImportAll(p, imports).ops, BatchesOf(imports, front + [i]))
  {
    hide Importable, ImportAll, RolledBack, Touches, Outside, BatchesOf, Without, OpsOf, Lookup;
    var all := ImportAll(p, imports);
    var now, batch := UndoIn(all, imports, front), imports[i].job.batch;
    UndoNext(all, imports, front, i, key);
    OutsideAlso(all.ops, BatchesOf(imports, front), batch);
    BatchesNext(imports, front, i);
    RolledBackValue(now, batch);
    if i in front {
      RolledBackTwice(now, batch);
    } else {
      BatchUndoneOnce(p, imports, front, i);
      RolledBackKey(p, imports, i, now, key);
    }
  }

  lemma UndoNext(p: Progress, imports: seq<Import>, front: seq<nat>, i: nat, key: Key)
    requires Undoable(imports, front + [i]) && Undoable(imports, front) && i < |imports|
    ensures UndoIn(p, imports, front + [i]) == RolledBack(UndoIn(p, imports, front), imports[i].job.batch)
    ensures LastToTouch(imports, front + [i], key) ==
            if i !in front && Touches(imports[i], key) then i else LastToTouch(imports, front, key)
  {
    assert (front + [i])[..|front|] == front;
  }

  lemma BatchesNext(imports: seq<Import>, front: seq<nat>, i: nat)
    requires Undoable(imports, front + [i]) && Undoable(imports, front) && i < |imports|
    ensures BatchesOf(imports, front + [i]) == BatchesOf(imports, front) + {imports[i].job.batch}
    ensures i in front ==> imports[i].job.batch in BatchesOf(imports, front)
  {
    var order := front + [i];
    assert order[|front|] == i;
    assert forall k :: 0 <= k < |front| ==> order[k] == front[k];
    assert BatchesOf(imports, order) <= BatchesOf(imports, front) + {imports[i].job.batch};
    forall b | b in BatchesOf(imports, front) ensures b in BatchesOf(imports, order) {
      var k :| 0 <= k < |front| && imports[front[k]].job.batch == b;
      assert imports[order[k]].job.batch == b;
    }
  }

  lemma BatchUndoneOnce(p: Progress, imports: seq<Import>, front: seq<nat>, i: nat)
    requires Importable(p, imports) && Undoable(imports, front) && i < |imports| && i !in front
    ensures imports[i].job.batch !in BatchesOf(imports, front)
  {
    forall k | 0 <= k < |front| ensures imports[front[k]].job.batch != imports[i].job.batch {
      assert front[k] in front && front[k] != i;
    }
  }

  lemma {:induction false} UntouchedByImports(p: Progress, imports: seq<Import>, key: Key)
    requires forall k :: 0 <= k < |imports| ==> ImportOK(imports[k]) && !Touches(imports[k], key)
    ensures Lookup(ImportAll(p, imports).live, key) == Lookup(p.live, key)
  {
    hide Stopped, Touched;
    if imports != [] {
      var last, front := imports[|imports| - 1], imports[..|imports| - 1];
      UntouchedByImports(p, front, key);
      assert ImportOK(last) && !Touches(last, key);
      var own := StoppedJournal(ImportAll(p, front), last.rows, last.stop, last.job, key);
    }
  }

  lemma {:induction false} ImportsJournal(p: Progress, imports: seq<Import>, batches: set<string>)
    requires Importable(p, imports)
    requires forall k :: 0 <= k < |imports| ==> imports[k].job.batch in batches
    ensures Outside(ImportAll(p, imports).ops, batches) == Outside(p.ops, batches)
  {
    hide Stopped, Importable, Outside;
    if imports != [] {
      var last, front := imports[|imports| - 1], imports[..|imports| - 1];
      PrefixImportable(p, imports, |imports| - 1);
      ImportsJournal(p, front, batches);
      LastJournals(p, imports, batches);
    }
  }

  lemma LastJournals(p: Progress, imports: seq<Import>, batches: set<string>)
    requires Importable(p, imports) && imports != [] && imports[|imports| - 1].job.batch in batches
    ensures Outside(ImportAll(p, imports).ops, batches) == Outside(ImportAll(p, imports[..|imports| - 1]).ops, batches)
  {
    hide Stopped, Outside;
    var last, q := imports[|imports| - 1], ImportAll(p, imports[..|imports| - 1]);
    var own := StoppedJournal(q, last.rows, last.stop, last.job, "");
    OutsideConcat(q.ops, own, batches);
    OutsideOwn(own, batches);
  }

  lemma {:induction false} NoneToTouch(imports: seq<Import>, order: seq<nat>, key: Key, i: nat)
    requires Undoable(imports, order) && LastToTouch(imports, order, key) < 0 && i in order
    ensures !Touches(imports[i], key)
  {
    var front, last := order[..|order| - 1], order[|order| - 1];
    if i in front {
      NoneToTouch(imports, front, key, i);
    } else {
      assert order == front + [last];
    }
  }

  /** The entry a key had before the import undone last of those that touch it, or still has. */
  function Left(p: Progress, imports: seq<Import>, order: seq<nat>, key: Key): Option<EntryValue>
    requires Undoable(imports, order)
  {
    var j := LastToTouch(imports, order, key);
    Lookup((if j < 0 then p else ImportAll(p, imports[..j])).live, key)
  }

  /**
   All batches undone, in any order: the journal is the original one, and the store is exactly if every key had
   its original entry before the import undone last of those that touch it.
   */
  lemma AllUndone(p: Progress, imports: seq<Import>, order: seq<nat>)
    requires Importable(p, imports) && Undoable(imports, order)
    requires forall i :: 0 <= i < |imports| ==> i in order
    ensures var r := UndoIn(ImportAll(p, imports), imports, order);
            && r.ops == p.ops
            && (r == p <==> forall key :: Left(p, imports, order, key) == Lookup(p.live, key))
  {
    hide Importable, ImportAll, UndoIn, LastToTouch, Touches, BatchesOf, Outside;
    var r := UndoIn(ImportAll(p, imports), imports, order);
    AllJournalGone(p, imports, order);
    forall key ensures Lookup(r.live, key) == Left(p, imports, order, key) {
      UndoInAnyOrder(p, imports, order, key);
      NoneLeft(p, imports, order, key);
    }
    UndoInAnyOrder(p, imports, order, "");
    if forall key :: Left(p, imports, order, key) == Lookup(p.live, key) {
      SameLookups(r.live, p.live);
    }
  }

  lemma NoneLeft(p: Progress, imports: seq<Import>, order: seq<nat>, key: Key)
    requires Undoable(imports, order)
    requires forall i :: 0 <= i < |imports| ==> i in order
    ensures LastToTouch(imports, order, key) < 0 ==> Lookup(ImportAll(p, imports).live, key) == Lookup(p.live, key)
  {
    hide ImportAll, LastToTouch, Touches;
    if LastToTouch(imports, order, key) < 0 {
      forall i | 0 <= i < |imports| ensures !Touches(imports[i], key) {
        NoneToTouch(imports, order, key, i);
      }
      UntouchedByImports(p, imports, key);
    }
  }

  lemma AllJournalGone(p: Progress, imports: seq<Import>, order: seq<nat>)
    requires Importable(p, imports) && Undoable(imports, order)
    requires forall i :: 0 <= i < |imports| ==> i in order
    ensures Outside(ImportAll(p, imports).ops, BatchesOf(imports, order)) == p.ops
  {
    hide ImportAll, Outside;
    var batches := BatchesOf(imports, order);
    forall k | 0 <= k < |imports| ensures imports[k].job.batch in batches {
      assert k in order;
    }
    ImportsJournal(p, imports, batches);
    forall i | 0 <= i < |p.ops| ensures p.ops[i].batch !in batches {
      forall k | 0 <= k < |order| ensures imports[order[k]].job.batch != p.ops[i].batch {
        assert NoneOf(p.ops, imports[order[k]].job.batch);
      }
    }
    OutsideForeign(p.ops, batches);
  }

  /** Two batches undone in import order: a key of the second keeps the entry the first had left. */
  lemma UndoInImportOrder(p: Progress, a: Import, b: Import, key: Key)
    requires ImportOK(a) && ImportOK(b) && Importable(p, [a, b])
    ensures var q := Stopped(p, a.rows, a.stop, a.job);
            var r := RolledBack(RolledBack(Stopped(q, b.rows, b.stop, b.job), a.job.batch), b.job.batch);
            Lookup(r.live, key) == if Touches(b, key) then Lookup(q.live, key) else Lookup(p.live, key)
  {
    hide Importable, Stopped, RolledBack, Touches;
    var imports := [a, b];
    var order: seq<nat> := [0, 1];
    assert forall k :: 0 <= k < 2 ==> imports[k] == a || imports[k] == b;
    assert order[..1] == [0] && order[..1][..0] == [] && imports[..1] == [a] && [a][..0] == [] && imports[..0] == [];
    var all := ImportAll(p, imports);
    assert all == Stopped(ImportAll(p, [a]), b.rows, b.stop, b.job) && ImportAll(p, [a]) == Stopped(p, a.rows, a.stop, a.job);
    assert UndoIn(all, imports, [0]) == RolledBack(all, a.job.batch);
    assert LastToTouch(imports, [0], key) == if Touches(a, key) then 0 else -1;
    UndoInAnyOrder(p, imports, order, key);
    NoneLeft(p, imports, order, key);
  }

  /** The position of a key's last row among the first n, or -1. */
  function LastRow(rows: seq<Row>, n: nat, key: Key): (j: int)
    requires n <= |rows|
    ensures -1 <= j < n
    ensures j >= 0 ==> rows[j].entity == key
    ensures forall i :: j < i < n ==> rows[i].entity != key
  {
    if n == 0 then -1 else if rows[n - 1].entity == key then n - 1 else LastRow(rows, n - 1, key)
  }

  lemma MergeAbsorbs(fields: Fields, first: Fields, second: Fields, window: seq<string>)
    ensures MergeFields(MergeFields(fields, first, window), second, window) == MergeFields(fields, second, window)
  {
  }

  /**
   The import in closed form: an entity named in the file ends with its original fields outside the
   window and exactly its last row's fields inside it; every other entity is unchanged.
   */
  lemma {:induction false} ImportClosedForm(p: Progress, rows: seq<Row>, n: nat, job: Job, key: Key)
    requires n <= |rows| && job.size > 0
    ensures var j := LastRow(rows, n, key);
            Lookup(Imported(p, rows, n, job).live, key) ==
            if j < 0 then Lookup(p.live, key)
            else Some(Merged(Lookup(p.live, key), RowPatch(rows[j], job.window), job.window, job.versionID, job.clock(j)))
  {
    if n > 0 {
      ImportClosedForm(p, rows, n - 1, job, key);
      var j := LastRow(rows, n - 1, key);
      if rows[n - 1].entity == key && j >= 0 {
        MergeAbsorbs(FieldsOf(Lookup(p.live, key)), RowPatch(rows[j], job.window), RowPatch(rows[n - 1], job.window), job.window);
      }
    }
  }

  /**
   What an import leaves under each key: the job's version, the clock its last row reads, that row's fields inside
   the window and the fields from before outside it. A key no row names is as before.
   */
  lemma ImportedEntry(p: Progress, rows: seq<Row>, n: nat, job: Job, key: Key)
    requires n <= |rows| && job.size > 0
    ensures var j, before, after := LastRow(rows, n, key), Lookup(p.live, key), Lookup(Imported(p, rows, n, job).live, key);
            if j < 0 then after == before
            else
              && after.Some? && after.value.versionID == job.versionID && after.value.writtenAt == job.clock(j)
              && (forall f :: f in after.value.fields <==>
                    if f in job.window then f in rows[j].fields else before.Some? && f in before.value.fields)
              && (forall f :: f in after.value.fields ==>
                    after.value.fields[f] == if f in job.window then rows[j].fields[f] else before.value.fields[f])
  {
    hide Imported, Merged, LastRow;
    ImportClosedForm(p, rows, n, job, key);
    var j := LastRow(rows, n, key);
    if j >= 0 {
      forall f {
        MergedEntry(Lookup(p.live, key), RowPatch(rows[j], job.window), job.window, job.versionID, job.clock(j), f);
      }
    }
  }

  /** The version and write time of every entity that a stopped import has merged. */
  lemma StoppedStamps(p: Progress, rows: seq<Row>, stop: Stop, job: Job)
    requires StopOK(rows, stop) && job.size > 0
    ensures forall key :: LastRow(rows, stop.n, key) >= 0 ==>
              var after := Lookup(Stopped(p, rows, stop, job).live, key);
              after.Some? && after.value.versionID == job.versionID && after.value.writtenAt == job.clock(LastRow(rows, stop.n, key))
  {
    hide Imported, LastRow;
    forall key | LastRow(rows, stop.n, key) >= 0
      ensures var after := Lookup(Stopped(p, rows, stop, job).live, key);
              after.Some? && after.value.versionID == job.versionID && after.value.writtenAt == job.clock(LastRow(rows, stop.n, key))
    {
      ImportedEntry(p, rows, stop.n, job, key);
    }
  }

  /** Field by field: what MergeFields of a row patch means. */
  lemma MergedField(fields: Fields, row: Row, window: seq<string>, name: string)
    ensures var after := MergeFields(fields, RowPatch(row, window), window);
            if name in window then (name in after <==> name in row.fields) && (name in after ==> after[name] == row.fields[name])
            else (name in after <==> name in fields) && (name in after ==> after[name] == fields[name])
  {
  }

  /** The row window size shapes segments only: it never changes the stored entries. */
  lemma {:induction false} WindowSizeIrrelevant(p: Progress, q: Progress, rows: seq<Row>, n: nat, job: Job, size: nat)
    requires n <= |rows| && job.size > 0 && size > 0 && p.live == q.live
    ensures Imported(p, rows, n, job).live == Imported(q, rows, n, job.(size := size)).live
  {
    if n > 0 {
      WindowSizeIrrelevant(p, q, rows, n - 1, job, size);
    }
  }

  /** ceil(n / size) */
  function SegmentCount(n: nat, size: nat): nat
    requires size > 0
  {
    (n + size - 1) / size
  }

  function SegmentRows(n: nat, size: nat, i: nat): int {
    if (i + 1) * size <= n then size else n - i * size
  }

  /** The segments of a complete import of n rows. */
  ghost predicate Segmented(segments: seq<Segment>, n: nat, size: nat)
    requires size > 0
  {
    && |segments| == SegmentCount(n, size)
    && (forall i :: 0 <= i < |segments| ==> segments[i].index == i && segments[i].done && segments[i].rows == SegmentRows(n, size, i))
  }

  lemma SegmentBounds(n: nat, size: nat, i: nat)
    requires size > 0
    ensures i * size < n <==> i < SegmentCount(n, size)
  {
    var c := SegmentCount(n, size);
    assert n + size - 1 == c * size + (n + size - 1) % size;
    if i < c {
      ProductMonotone(i, c, size);
    } else if c < i {
      ProductMonotone(c, i, size);
    }
  }

  function RowTotal(s: seq<Segment>): nat {
    if s == [] then 0 else RowTotal(s[..|s| - 1]) + s[|s| - 1].rows
  }

  lemma {:induction false} PartialTotal(segments: seq<Segment>, n: nat, size: nat, i: nat)
    requires size > 0 && Segmented(segments, n, size) && i <= |segments|
    ensures RowTotal(segments[..i]) == if i * size <= n then i * size else n
  {
    if i > 0 {
      PartialTotal(segments, n, size, i - 1);
      SegmentBounds(n, size, i - 1);
      assert segments[..i][..i - 1] == segments[..i - 1];
      assert (i - 1 + 1) * size == (i - 1) * size + size == i * size;
    } else {
      assert 0 * size == 0;
    }
  }

  /**
   Segment i holds as many rows as its window has: those from i windows on, up to the next window or the end of the
   file.
   */
  lemma SegmentHolds(segments: seq<Segment>, n: nat, size: nat, i: nat, j: nat)
    requires size > 0 && Segmented(segments, n, size) && i < |segments|
    ensures i * size <= j < i * size + segments[i].rows <==> j < n && j / size == i
  {
    SegmentBounds(n, size, i);
    if i * size <= j < i * size + size {
      SegmentOf(j, i, size);
    }
    if j / size == i {
      assert j == i * size + j % size;
    }
  }

  /** The row counts of the segments add up to the file. */
  lemma SegmentsCoverFile(segments: seq<Segment>, n: nat, size: nat)
    requires size > 0 && Segmented(segments, n, size)
    ensures RowTotal(segments) == n
  {
    PartialTotal(segments, n, size, |segments|);
    SegmentBounds(n, size, |segments|);
    assert segments[..|segments|] == segments;
  }

  lemma SegmentOf(j: nat, segment: nat, size: nat)
    requires size > 0 && segment * size <= j < segment * size + size
    ensures j / size == segment
  {
    RemainderUnique(j, size, segment, j - segment * size);
  }

  /** Segments while rows are being written: all but the last are done and full. */
  ghost predicate InProgress(segments: seq<Segment>, n: nat, size: nat) {
    && segments != []
    && (forall i :: 0 <= i < |segments| - 1 ==> segments[i] == Segment(i, true, size))
    && (|segments| - 1) * size <= n
    && segments[|segments| - 1] == Segment(|segments| - 1, false, n - (|segments| - 1) * size)
  }

  /** Segments of the windows before row start of n, each done and holding its share of the rows. */
  ghost predicate Windowed(segments: seq<Segment>, start: nat, n: nat, size: nat) {
    && start == |segments| * size
    && (segments != [] ==> (|segments| - 1) * size < n)
    && (forall i :: 0 <= i < |segments| ==> segments[i] == Segment(i, true, segments[i].rows) && segments[i].rows == SegmentRows(n, size, i))
  }

  function WindowEnd(start: nat, n: nat, size: nat): nat {
    if start + size > n then n else start + size
  }

  lemma NothingImported(p: Progress, rows: seq<Row>, job: Job)
    requires job.size > 0
    ensures Imported(p, rows, 0, job) == p && Windowed([], 0, |rows|, job.size)
  {
  }

  lemma NextWindow(segments: seq<Segment>, start: nat, n: nat, size: nat)
    requires Windowed(segments, start, n, size) && size > 0 && start < n
    ensures Windowed(segments + [Segment(|segments|, true, WindowEnd(start, n, size) - start)], start + size, n, size)
  {
  }

  lemma AllWindowed(segments: seq<Segment>, start: nat, n: nat, size: nat)
    requires Windowed(segments, start, n, size) && size > 0 && start >= n
    ensures Segmented(segments, n, size)
  {
    SegmentBounds(n, size, |segments|);
    if segments != [] {
      SegmentBounds(n, size, |segments| - 1);
    }
  }

  lemma StoppedInWindow(segments: seq<Segment>, start: nat, n: nat, size: nat, refusal: nat)
    requires Windowed(segments, start, n, size) && size > 0 && start <= refusal < n
    ensures InProgress(segments + [Segment(|segments|, false, refusal - start)], refusal, size)
  {
    forall i | 0 <= i < |segments| ensures segments[i] == Segment(i, true, size) {
      if i + 1 < |segments| {
        ProductMonotone(i + 1, |segments|, size);
      }
    }
  }

  lemma ReplaceLast(done: seq<Segment>, last: Segment, next: Segment)
    ensures (done + [last])[|done + [last]| - 1 := next] == done + [next]
  {
  }

  /** Row i of the window that starts at start belongs to the next segment. */
  lemma NextSegmentOf(segments: seq<Segment>, start: nat, n: nat, size: nat, i: nat)
    requires Windowed(segments, start, n, size) && size > 0 && start <= i < start + size
    ensures i / size == |segments|
  {
    SegmentOf(i, |segments|, size);
  }

  ghost function FileNames(rows: seq<Row>): set<string> {
    set i, n | 0 <= i < |rows| && n in rows[i].fields :: n
  }

  /** The overwrite window: the sorted, duplicate-free intersection of the file's fields and the schema's. */
  ghost function FieldWindow(schema: seq<string>, rows: seq<Row>): (window: seq<string>)
    ensures StrictlyIncreasing(window)
    ensures forall n :: n in window <==> n in schema && n in FileNames(rows)
  {
    SortedNames(set n | n in FileNames(rows) && n in schema)
  }

  method FileFields(rows: seq<Row>) returns (names: seq<string>)
    ensures StrictlyIncreasing(names) && forall n :: n in names <==> n in FileNames(rows)
  {
    var found: set<string> := {};
    for i := 0 to |rows|
      invariant found == FileNames(rows[..i])
    {
      assert rows[..i + 1] == rows[..i] + [rows[i]];
      found := found + rows[i].fields.Keys;
      assert found == FileNames(rows[..i + 1]);
    }
    assert rows[..|rows|] == rows;
    var list: seq<string> := [];
    var todo := found;
    while todo != {}
      invariant todo <= found && forall n :: n in list <==> n in found && n !in todo
      invariant forall i, j :: 0 <= i < j < |list| ==> list[i] != list[j]
    {
      var n :| n in todo;
      list := list + [n];
      todo := todo - {n};
    }
    SortedDistinct(list);
    names := SortStrings(list);
  }

  method ComputeFieldWindow(schema: seq<string>, rows: seq<Row>) returns (out: seq<string>)
    ensures out == FieldWindow(schema, rows)
  {
    var file := FileFields(rows);
    var known := set n | n in schema;
    out := [];
    for i := 0 to |file|
      invariant StrictlyIncreasing(out)
      invariant forall n :: n in out <==> n in file[..i] && n in schema
    {
      assert file[..i + 1] == file[..i] + [file[i]];
      assert forall n :: n in out ==> Less(n, file[i]);
      if file[i] in known {
        out := out + [file[i]];
      }
    }
    assert file[..|file|] == file;
    IncreasingUnique(out, FieldWindow(schema, rows));
  }

  class Batch {
    const id: string
    const versionID: string
    var segments: seq<Segment>
    var failed: bool

    constructor (id: string, versionID: string)
      ensures this.id == id && this.versionID == versionID && segments == [] && !failed
    {
      this.id, this.versionID, segments, failed := id, versionID, [], false;
    }
  }

  class Importer {
    const store: Store
    const windowSize: nat
    var batches: map<string, Batch>

    constructor (store: Store, windowSize: int)
      ensures this.store == store && batches == map[]
      ensures this.windowSize == if windowSize <= 0 then 64 else windowSize
    {
      this.store := store;
      this.windowSize := if windowSize <= 0 then 64 else windowSize;
      batches := map[];
    }

    /** The flat map and the journal of the store. */
    ghost function State(): Progress
      requires |store.Contents| > 0
      reads store`Contents, store.journal`Contents
    {
      Progress(LiveOf(store.router.hash, store.Contents), store.journal.Contents)
    }

    /** Journals the entry a row is about to change. */
    method JournalRow(row: Row, j: nat, segment: nat, job: Job)
      requires store.Valid() && job.size > 0 && segment == j / job.size
      modifies store.journal, store.journal.buf
      ensures store.Valid() && (store.journal.buf == old(store.journal.buf) || fresh(store.journal.buf))
      ensures State() == Journaled(old(State()), row, j, job)
    {
      LiveIsFind(store.router.hash, store.Contents, row.entity);
      var before := store.EntryFor(row.entity);
      store.journal.Append(Op(job.batch, segment, row.entity, before));
    }

    /** Merges the row's fields inside the window. */
    method MergeRow(row: Row, patch: Fields, job: Job, now: int)
      requires store.Valid() && patch == RowPatch(row, job.window)
      modifies store`shards, store`Contents, store`Entries, store`Maps, store.Entries, store.Maps
      modifies store.cache`entries, store.cache`Contents
      ensures store.Valid() && fresh(store.Entries - old(store.Entries)) && fresh(store.Maps - old(store.Maps))
      ensures State() == RowMerged(old(State()), row, job, now)
      ensures SameStrays(store.router.hash, old(store.Contents), store.Contents)
    {
      hide Store.Valid;
      store.HasShards();
      RowMergedInPlace(store.router.hash, store.Contents, store.journal.Contents, row, job, now);
      store.MergeWrite(row.entity, patch, job.window, job.versionID, now);
    }

    /** One row: journal, then merge unless the store refuses it. */
    method WriteRow(row: Row, j: nat, segment: nat, job: Job, refused: bool)
      requires store.Valid() && job.size > 0 && segment == j / job.size
      modifies store`shards, store`Contents, store`Entries, store`Maps, store.Entries, store.Maps
      modifies store.cache`entries, store.cache`Contents, store.journal, store.journal.buf
      ensures store.Valid() && fresh(store.Entries - old(store.Entries)) && fresh(store.Maps - old(store.Maps))
      ensures store.journal.buf == old(store.journal.buf) || fresh(store.journal.buf)
      ensures State() == if refused then Journaled(old(State()), row, j, job) else RowWritten(old(State()), row, j, job)
      ensures SameStrays(store.router.hash, old(store.Contents), store.Contents)
    {
      hide Store.Valid, SameStrays;
      SameStraysReflexive(store.router.hash, store.Contents);
      JournalRow(row, j, segment, job);
      var patch := BuildPatch(row, job.window);
      if !refused {
        MergeRow(row, patch, job, job.clock(j));
      }
    }

    /** Row i of the file, in the segment that holds it; p and first are what the import began with. */
    method ImportRow(rows: seq<Row>, i: nat, segment: nat, job: Job, refused: bool, ghost p: Progress, ghost first: Shards)
      requires store.Valid() && i < |rows| && job.size > 0 && segment == i / job.size
      requires |store.Contents| > 0 && State() == Imported(p, rows, i, job) && SameStrays(store.router.hash, first, store.Contents)
      modifies store`shards, store`Contents, store`Entries, store`Maps, store.Entries, store.Maps
      modifies store.cache`entries, store.cache`Contents, store.journal, store.journal.buf
      ensures store.Valid() && fresh(store.Entries - old(store.Entries)) && fresh(store.Maps - old(store.Maps))
      ensures store.journal.buf == old(store.journal.buf) || fresh(store.journal.buf)
      ensures |store.Contents| > 0 && SameStrays(store.router.hash, first, store.Contents)
      ensures State() == if refused then Journaled(Imported(p, rows, i, job), rows[i], i, job) else Imported(p, rows, i + 1, job)
    {
      hide Store.Valid, SameStrays, Journaled, RowWritten;
      ghost var before := store.Contents;
      WriteRow(rows[i], i, segment, job, refused);
      store.HasShards();
      SameStraysTransitive(store.router.hash, first, before, store.Contents);
    }

    /**
     One row window: a new segment, its rows one by one, and a stop at the row the store refuses;
     p and first are what the import began with.
     */
    method ImportWindow(batch: Batch, rows: seq<Row>, start: nat, end: nat, job: Job, refusal: nat, ghost p: Progress, ghost first: Shards)
      returns (ok: bool)
      requires store.Valid() && job.size > 0
      requires Windowed(batch.segments, start, |rows|, job.size) && start < |rows| && start <= refusal
      requires end == WindowEnd(start, |rows|, job.size)
      requires |store.Contents| > 0 && State() == Imported(p, rows, start, job) && SameStrays(store.router.hash, first, store.Contents)
      modifies store`shards, store`Contents, store`Entries, store`Maps, store.Entries, store.Maps
      modifies store.cache`entries, store.cache`Contents, store.journal, store.journal.buf, batch`segments
      ensures store.Valid() && fresh(store.Entries - old(store.Entries)) && fresh(store.Maps - old(store.Maps))
      ensures store.journal.buf == old(store.journal.buf) || fresh(store.journal.buf)
      ensures |store.Contents| > 0 && SameStrays(store.router.hash, first, store.Contents)
      ensures ok == (refusal >= end)
      ensures State() == if ok then Imported(p, rows, end, job)
                         else Journaled(Imported(p, rows, refusal, job), rows[refusal], refusal, job)
      ensures if ok then Windowed(batch.segments, start + job.size, |rows|, job.size) else InProgress(batch.segments, refusal, job.size)
    {
      hide Store.Valid, SameStrays, Journaled, Imported, Windowed, InProgress, Importer.State, SegmentRows;
      ghost var done := batch.segments;
      var segment := Segment(|batch.segments|, false, 0);
      batch.segments := batch.segments + [segment];
      for i := start to end
        invariant store.Valid() && fresh(store.Entries - old(store.Entries)) && fresh(store.Maps - old(store.Maps))
        invariant store.journal.buf == old(store.journal.buf) || fresh(store.journal.buf)
        invariant |store.Contents| > 0 && SameStrays(store.router.hash, first, store.Contents)
        invariant i <= refusal && State() == Imported(p, rows, i, job)
        invariant segment == Segment(|done|, false, i - start) && batch.segments == done + [segment]
      {
        NextSegmentOf(done, start, |rows|, job.size, i);
        ImportRow(rows, i, segment.index, job, i == refusal, p, first);
        if i == refusal {
          StoppedInWindow(done, start, |rows|, job.size, refusal);
          return false;
        }
        ReplaceLast(done, segment, segment.(rows := segment.rows + 1));
        segment := segment.(rows := segment.rows + 1);
        batch.segments := batch.segments[|batch.segments| - 1 := segment];
      }
      NextWindow(done, start, |rows|, job.size);
      ReplaceLast(done, segment, segment.(done := true));
      batch.segments := batch.segments[|batch.segments| - 1 := segment.(done := true)];
      ok := true;
    }

    /** The row windows in turn, up to the end of the file or to the refused row. */
    method ImportWindows(batch: Batch, rows: seq<Row>, job: Job, refusal: nat) returns (ok: bool)
      requires store.Valid() && job.size > 0 && |store.Contents| > 0 && batch.segments == [] && !batch.failed && rows != []
      modifies store`shards, store`Contents, store`Entries, store`Maps, store.Entries, store.Maps
      modifies store.cache`entries, store.cache`Contents, store.journal, store.journal.buf, batch`segments, batch`failed
      ensures store.Valid() && |store.Contents| > 0 && SameStrays(store.router.hash, old(store.Contents), store.Contents)
      ensures fresh(store.Entries - old(store.Entries)) && fresh(store.Maps - old(store.Maps))
      ensures store.journal.buf == old(store.journal.buf) || fresh(store.journal.buf)
      ensures ok == (refusal >= |rows|) && batch.failed == !ok
      ensures State() == if ok then Imported(old(State()), rows, |rows|, job)
                         else Journaled(Imported(old(State()), rows, refusal, job), rows[refusal], refusal, job)
      ensures if ok then Segmented(batch.segments, |rows|, job.size) else InProgress(batch.segments, refusal, job.size)
    {
      hide Store.Valid, SameStrays, Imported, Journaled, Windowed, Segmented, InProgress;
      ghost var p, first := State(), store.Contents;
      NothingImported(p, rows, job);
      SameStraysReflexive(store.router.hash, first);
      var start := 0;
      ghost var n := 0;
      while start < |rows|
        invariant store.Valid() && fresh(store.Entries - old(store.Entries)) && fresh(store.Maps - old(store.Maps))
        invariant store.journal.buf == old(store.journal.buf) || fresh(store.journal.buf)
        invariant |store.Contents| > 0 && SameStrays(store.router.hash, first, store.Contents)
        invariant n <= |rows| && n <= refusal && (if n < |rows| then n == start else start >= n)
        invariant State() == Imported(p, rows, n, job)
        invariant Windowed(batch.segments, start, |rows|, job.size) && !batch.failed
      {
        var end := start + job.size;
        if end > |rows| {
          end := |rows|;
        }
        ok := ImportWindow(batch, rows, start, end, job, refusal, p, first);
        if !ok {
          batch.failed := true;
          return;
        }
        n, start := end, start + job.size;
      }
      AllWindowed(batch.segments, start, |rows|, job.size);
      ok := true;
    }

    /** Imports the rows of a file into its batch. */
    method ImportInto(batch: Batch, schema: seq<string>, rows: seq<Row>, clock: nat -> int, refusal: nat) returns (ok: bool)
      requires store.Valid() && windowSize > 0 && |store.Contents| > 0 && rows != [] && batch.segments == [] && !batch.failed
      modifies store`shards, store`Contents, store`Entries, store`Maps, store.Entries, store.Maps
      modifies store.cache`entries, store.cache`Contents, store.journal, store.journal.buf, batch`segments, batch`failed
      ensures store.Valid() && |store.Contents| > 0
      ensures fresh(store.Entries - old(store.Entries)) && fresh(store.Maps - old(store.Maps))
      ensures store.journal.buf == old(store.journal.buf) || fresh(store.journal.buf)
      ensures ok == (refusal >= |rows|) && batch.failed == !ok
      ensures if ok then Segmented(batch.segments, |rows|, windowSize) else InProgress(batch.segments, refusal, windowSize)
      ensures State() == Stopped(old(State()), rows, StopAt(rows, refusal),
                Job(batch.id, batch.versionID, FieldWindow(schema, rows), windowSize, clock))
      ensures SameStrays(store.router.hash, old(store.Contents), store.Contents)
    {
      hide Store.Valid, SameStrays, Journaled, Segmented, InProgress, Imported, FieldWindow;
      var overwrite := ComputeFieldWindow(schema, rows);
      ok := ImportWindows(batch, rows, Job(batch.id, batch.versionID, overwrite, windowSize, clock), refusal);
    }

    /**
     Merges a file in row windows and records the batch. refusal is the first row whose merge the store
     answers with an error, |rows| or more if there is none.
     */
    method Import(batchID: string, schema: seq<string>, rows: seq<Row>, versionID: string, clock: nat -> int, refusal: nat)
      returns (batch: Batch?, ok: bool)
      requires store.Valid() && windowSize > 0 && |store.Contents| > 0
      modifies `batches, store`shards, store`Contents, store`Entries, store`Maps, store.Entries, store.Maps
      modifies store.cache`entries, store.cache`Contents, store.journal, store.journal.buf
      ensures store.Valid() && |store.Contents| > 0
      ensures fresh(store.Entries - old(store.Entries)) && fresh(store.Maps - old(store.Maps))
      ensures store.journal.buf == old(store.journal.buf) || fresh(store.journal.buf)
      ensures batch == null <==> batchID == "" || rows == []
      ensures batch == null ==> !ok && batches == old(batches) && State() == old(State()) && store.Contents == old(store.Contents)
      ensures batch != null ==>
                && fresh(batch) && batch.id == batchID && batch.versionID == versionID && batches == old(batches)[batchID := batch]
                && ok == (refusal >= |rows|) && batch.failed == !ok
                && (if ok then Segmented(batch.segments, |rows|, windowSize) else InProgress(batch.segments, refusal, windowSize))
      ensures batch != null ==>
                && State() == Stopped(old(State()), rows, StopAt(rows, refusal),
                     Job(batchID, versionID, FieldWindow(schema, rows), windowSize, clock))
                && SameStrays(store.router.hash, old(store.Contents), store.Contents)
      ensures batch != null ==>
                var n := if ok then |rows| else refusal;
                forall key :: LastRow(rows, n, key) >= 0 ==>
                  var after := Lookup(State().live, key);
                  after.Some? && after.value.versionID == versionID && after.value.writtenAt == clock(LastRow(rows, n, key))
    {
      hide Store.Valid, SameStrays, Segmented, InProgress, Stopped, FieldWindow, LastRow, Lookup, Importer.State;
      if batchID == "" || |rows| == 0 {
        return null, false;
      }
      StoppedStamps(State(), rows, StopAt(rows, refusal), Job(batchID, versionID, FieldWindow(schema, rows), windowSize, clock));
      var b := new Batch(batchID, versionID);
      batches := batches[batchID := b];
      ok := ImportInto(b, schema, rows, clock, refusal);
      batch := b;
    }

    /** Undoes a batch, complete or cut short. The batch stays recorded, marked failed. */
    method Rollback(batchID: string) returns (known: bool)
      requires store.Valid() && |store.Contents| > 0
      modifies if batchID in batches then {batches[batchID]} else {}
      modifies store`shards, store`Contents, store`Entries, store`Maps, store.Entries, store.cache`entries, store.cache`Contents
      modifies store.journal`len, store.journal`Contents, store.journal`byKey, store.journal.buf
      ensures store.Valid() && |store.Contents| > 0 && known == (batchID in batches)
      ensures fresh(store.Entries - old(store.Entries)) && fresh(store.Maps - old(store.Maps))
      ensures store.journal.buf == old(store.journal.buf) || fresh(store.journal.buf)
      ensures known ==> batches[batchID].failed && State() == RolledBack(old(State()), batchID)
      ensures !known ==> State() == old(State())
      ensures SameStrays(store.router.hash, old(store.Contents), store.Contents)
    {
      hide Store.Valid, SameStrays;
      SameStraysReflexive(store.router.hash, store.Contents);
      known := batchID in batches;
      if !known {
        return;
      }
      UndoShardsIsUndo(store.router.hash, store.Contents, OpsOf(store.journal.Contents, batchID), {});
      UndoShardsKeepsStrays(store.router.hash, store.Contents, OpsOf(store.journal.Contents, batchID), {});
      batches[batchID].failed := true;
      store.RollbackBatch(batchID);
    }

    /** Forgets a batch and its journal operations; the store keeps what the batch wrote. */
    method Clear(batchID: string)
      requires store.Valid() && |store.Contents| > 0
      modifies `batches, store.journal`len, store.journal`Contents, store.journal`byKey, store.journal.buf
      ensures store.Valid() && batches == old(batches) - {batchID}
      ensures State() == old(State()).(ops := Without(old(State()).ops, batchID))
    {
      hide Store.Valid;
      batches := batches - {batchID};
      store.ClearJournal(batchID);
    }
  }

  /** A routed merge is a merge of the flat map. */
  lemma RowMergedInPlace(hash: HashFn, s: Shards, ops: seq<OpValue>, row: Row, job: Job, now: int)
    requires |s| > 0
    ensures var t := Put(hash, s, row.entity, Merged(Find(hash, s, row.entity), RowPatch(row, job.window), job.window, job.versionID, now));
            && Progress(LiveOf(hash, t), ops) == RowMerged(Progress(LiveOf(hash, s), ops), row, job, now)
            && SameStrays(hash, s, t)
  {
    LiveIsFind(hash, s, row.entity);
    PutIsUpdate(hash, s, row.entity, Merged(Find(hash, s, row.entity), RowPatch(row, job.window), job.window, job.versionID, now));
  }

  method BuildPatch(row: Row, overwrite: seq<string>) returns (patch: Fields)
    ensures patch == RowPatch(row, overwrite)
  {
    patch := map[];
    for i := 0 to |overwrite|
      invariant patch == RowPatch(row, overwrite[..i])
    {
      assert overwrite[..i + 1] == overwrite[..i] + [overwrite[i]];
      if overwrite[i] in row.fields {
        patch := patch[overwrite[i] := row.fields[overwrite[i]]];
      }
    }
    assert overwrite[..|overwrite|] == overwrite;
  }
}
