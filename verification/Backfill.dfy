/** The backfill runner: plans, tasks, and the writes behind Run and Retry. */
module Backfills {
  import opened Arithmetic
  import opened Order
  import opened Model
  import opened Routing
  import opened Placement
  import opened Undoing
  import opened Ranks
  import opened Results
  import opened Compute
  import opened Stores

  /** A result row as the caller passes it: writeResult updates the field map it refers to. */
  datatype RowRef = RowRef(entity: Key, fields: FieldMap)

  ghost function MapsOf(rows: seq<RowRef>): set<FieldMap> {
    set r | r in rows :: r.fields
  }

  ghost function RowValues(rows: seq<RowRef>): (vals: seq<Result>)
    reads MapsOf(rows)
    ensures |vals| == |rows|
    ensures forall i :: 0 <= i < |rows| ==> vals[i] == Result(rows[i].entity, rows[i].fields.m)
  {
    if rows == [] then [] else [Result(rows[0].entity, rows[0].fields.m)] + RowValues(rows[1..])
  }

  function Entities(rows: seq<Result>): (keys: seq<Key>)
    ensures |keys| == |rows| && forall i :: 0 <= i < |rows| ==> keys[i] == rows[i].entity
  {
    seq(|rows|, i requires 0 <= i < |rows| => rows[i].entity)
  }

  /** The execution order: the sorted entities, duplicates kept. */
  function PlanOf(rows: seq<Result>): seq<Key> {
    SortStrings(Entities(rows))
  }

  /** The plan names every row's entity as often as the rows do, in byte order. */
  lemma PlanSorted(rows: seq<Result>, i: nat, j: nat)
    requires i < j < |PlanOf(rows)|
    ensures multiset(PlanOf(rows)) == multiset(seq(|rows|, r requires 0 <= r < |rows| => rows[r].entity))
    ensures PlanOf(rows)[i] == PlanOf(rows)[j] || exists k: nat :: PartsAt(PlanOf(rows)[i], PlanOf(rows)[j], k)
  {
    LessTotal(PlanOf(rows)[i], PlanOf(rows)[j]);
    LessAtFirstDifference(PlanOf(rows)[i], PlanOf(rows)[j]);
  }

  /** Every position of the plan finds its row, and every row is planned. */
  lemma PlanCovers(rows: seq<Result>)
    ensures Covers(rows, PlanOf(rows))
    ensures forall key :: Planned(PlanOf(rows), |PlanOf(rows)|, key) <==> key in Entities(rows)
  {
    var order := PlanOf(rows);
    SortKeepsElements(Entities(rows));
    assert order[..|order|] == order;
    forall i | 0 <= i < |order| ensures RowFor(rows, order[i]) >= 0 {
      assert order[i] in order;
      RowForIsFirst(rows, order[i]);
    }
  }

  lemma PlanLength(rows: seq<Result>)
    ensures |PlanOf(rows)| == |rows|
  {
    assert |multiset(PlanOf(rows))| == |multiset(Entities(rows))|;
  }

  method BuildPlan(rows: seq<RowRef>) returns (order: seq<Key>)
    ensures order == PlanOf(RowValues(rows))
  {
    var keys: seq<Key> := [];
    for i := 0 to |rows|
      invariant |keys| == i && forall j :: 0 <= j < i ==> keys[j] == rows[j].entity
    {
      keys := keys + [rows[i].entity];
    }
    assert keys == Entities(RowValues(rows));
    order := SortStrings(keys);
  }

  /** The fingerprint of a result set. */
  method Signature(task: string, rows: seq<RowRef>) returns (signature: string)
    ensures signature == FmtSignature(task, RowsSize(RowValues(rows)))
  {
    hide RowsSize, FieldsSize;
    ghost var vals := RowValues(rows);
    NoRows(vals);
    var total := 0;
    for i := 0 to |rows|
      invariant total == RowsSize(vals[..i])
    {
      var fields := rows[i].fields.m;
      ghost var base := total;
      var todo := fields.Keys;
      AllLeft(fields);
      while todo != {}
        invariant todo <= fields.Keys && total + FieldsSize(Left(fields, todo)) == base + FieldsSize(fields)
      {
        var name :| name in todo;
        NextLeft(fields, todo, name);
        total := total + (|name| + |Show(fields[name])|);
        todo := todo - {name};
      }
      RowsSizeSnoc(vals[..i], vals[i]);
      assert vals[..i + 1] == vals[..i] + [vals[i]] && vals[i].fields == fields;
    }
    assert vals[..|rows|] == vals == RowValues(rows);
    signature := FmtSignature(task, total);
  }

  lemma NoRows(rows: seq<Result>)
    ensures RowsSize(rows[..0]) == 0
  {
  }

  /** The fields a range over a map has yet to visit. */
  function Left(fields: Fields, todo: set<string>): Fields {
    map n | n in fields && n in todo :: fields[n]
  }

  lemma AllLeft(fields: Fields)
    ensures Left(fields, fields.Keys) == fields && FieldsSize(Left(fields, {})) == 0
  {
  }

  lemma NextLeft(fields: Fields, todo: set<string>, name: string)
    requires name in todo && todo <= fields.Keys
    ensures FieldsSize(Left(fields, todo)) == FieldSize(name, fields[name]) + FieldsSize(Left(fields, todo - {name}))
  {
    FieldsSizeAnyOrder(Left(fields, todo), name);
    assert Left(fields, todo) - {name} == Left(fields, todo - {name});
  }

  /** The first row of the key, as a position; -1 if there is none. */
  method ResultFor(rows: seq<RowRef>, key: Key) returns (i: int)
    ensures i == RowFor(RowValues(rows), key)
  {
    RowForIsFirst(RowValues(rows), key);
    i := 0;
    while i < |rows|
      invariant 0 <= i <= |rows| && forall j :: 0 <= j < i ==> rows[j].entity != key
    {
      if rows[i].entity == key {
        return;
      }
      i := i + 1;
    }
    i := -1;
  }

  ghost function ValueOf(e: Entry?): Option<EntryValue>
    reads e, if e == null then {} else {e.fields}
  {
    if e == null then None else Some(e.Value())
  }

  /** Adds the stored integers to the row's integers, in the caller's map. */
  method AccumulateInto(fields: FieldMap, current: Entry?)
    requires current != null ==> current.fields != fields
    modifies fields
    ensures fields.m == Accumulated(ValueOf(current), old(fields.m))
  {
    if current == null {
      return;
    }
    var todo := fields.m.Keys;
    while todo != {}
      invariant todo <= old(fields.m).Keys && fields.m.Keys == old(fields.m).Keys
      invariant forall n :: n in fields.m ==>
                  fields.m[n] == if n in todo then old(fields.m)[n] else AddedTo(current.fields.m, n, old(fields.m)[n])
    {
      var name :| name in todo;
      todo := todo - {name};
      var value := fields.m[name];
      if value.kind == IntField && name in current.fields.m {
        var existing := current.fields.m[name];
        if existing.kind == IntField {
          fields.m := fields.m[name := IntValue(WrapInt64(existing.num + value.num))];
        }
      }
    }
  }

  datatype TaskState = Pending | Running | Partial | Done

  class Task {
    const id: string
    const total: nat
    var state: TaskState
    var processed: nat

    constructor (id: string, total: nat)
      ensures this.id == id && this.total == total && state == Running && processed == 0
    {
      this.id, this.total, state, processed := id, total, Running, 0;
    }

    /** One more item processed; the last one completes the task. */
    method Advance()
      modifies this
      ensures processed == old(processed) + 1 && state == if processed >= total then Done else old(state)
    {
      processed := processed + 1;
      if processed >= total {
        state := Done;
      }
    }
  }

  /** A refused write: the row map is already updated, the store is not. */
  function Refused(a: Attempt, i: nat): Attempt
    requires i < |a.rows|
  {
    var row := a.rows[i];
    a.(rows := a.rows[i := row.(fields := Accumulated(Lookup(a.live, row.entity), row.fields))])
  }

  function RefusedAt(a: Attempt, key: Key): Attempt {
    if RowFor(a.rows, key) < 0 then a else Refused(a, RowFor(a.rows, key))
  }

  /** A whole call, with the plan position whose write the store answers with an error, and whether it was reached. */
  function Attempted(a: Attempt, order: seq<Key>, job: Job, refuse: nat): (Attempt, bool)
    requires Covers(a.rows, order)
  {
    if refuse < |order| && !(job.retry && Committed(Steps(a, order, refuse, job).done, job.task, order[refuse], job.signature))
    then (RefusedAt(Steps(a, order, refuse, job), order[refuse]), true)
    else (Steps(a, order, |order|, job), false)
  }

  /** A Retry of the rows in a. */
  ghost function RetryAttempt(a: Attempt, task: string, versionID: string, clock: nat -> int, refuse: nat): (Attempt, bool) {
    PlanCovers(a.rows);
    Attempted(a, PlanOf(a.rows), Job(true, task, FmtSignature(task, RowsSize(a.rows)), versionID, clock), refuse)
  }

  /** A Run of the rows in a; it has no use for a signature. */
  ghost function RunAttempt(a: Attempt, task: string, versionID: string, clock: nat -> int, refuse: nat): (Attempt, bool) {
    PlanCovers(a.rows);
    Attempted(a, PlanOf(a.rows), Job(false, task, "", versionID, clock), refuse)
  }

  /** The field map each row refers to. */
  function MapsIn(rows: seq<RowRef>): (maps: seq<FieldMap>)
    ensures |maps| == |rows| && forall i :: 0 <= i < |rows| ==> maps[i] == rows[i].fields
  {
    seq(|rows|, i requires 0 <= i < |rows| => rows[i].fields)
  }

  predicate NoSharing<M(==)>(maps: seq<M>) {
    forall i, j :: 0 <= i < j < |maps| ==> maps[i] != maps[j]
  }

  /** An update of row i's field map, as every row that refers to the same map sees it. */
  function SharedUpdate<M(==)>(rows: seq<Result>, maps: seq<M>, i: nat, fields: Fields): (r: seq<Result>)
    requires |maps| == |rows| && i < |rows|
    ensures SameEntities(rows, r)
  {
    seq(|rows|, j requires 0 <= j < |rows| => if maps[j] == maps[i] then rows[j].(fields := fields) else rows[j])
  }

  /** Refused and Step for rows that may share field maps. */
  function SharedRefused<M(==)>(a: Attempt, maps: seq<M>, i: nat): (b: Attempt)
    requires |maps| == |a.rows| && i < |a.rows|
    ensures SameEntities(a.rows, b.rows)
  {
    a.(rows := SharedUpdate(a.rows, maps, i, Refused(a, i).rows[i].fields))
  }

  function SharedRefusedAt<M(==)>(a: Attempt, maps: seq<M>, key: Key): Attempt
    requires |maps| == |a.rows|
  {
    if RowFor(a.rows, key) < 0 then a else SharedRefused(a, maps, RowFor(a.rows, key))
  }

  function SharedWritten<M(==)>(a: Attempt, maps: seq<M>, i: nat, versionID: string, now: int): Attempt
    requires |maps| == |a.rows| && i < |a.rows|
  {
    Written(a, i, versionID, now).(rows := SharedRefused(a, maps, i).rows)
  }

  /** A write of a Retry: an admitted one is marked as committed. */
  function SharedMarked<M(==)>(a: Attempt, maps: seq<M>, i: nat, job: Job, now: int): Attempt
    requires |maps| == |a.rows| && i < |a.rows|
  {
    var key, b := a.rows[i].entity, SharedWritten(a, maps, i, job.versionID, now);
    if Admits(Lookup(a.live, key), job.versionID) then b.(done := Marked(b.done, job.task, key, job.signature)) else b
  }

  function SharedStep<M(==)>(a: Attempt, maps: seq<M>, key: Key, j: nat, job: Job): (b: Attempt)
    requires |maps| == |a.rows| && RowFor(a.rows, key) >= 0
    ensures SameEntities(a.rows, b.rows)
  {
    if job.retry && Committed(a.done, job.task, key, job.signature) then a
    else Step(a, key, j, job).(rows := SharedRefusedAt(a, maps, key).rows)
  }

  function SharedSteps<M(==)>(a: Attempt, maps: seq<M>, order: seq<Key>, n: nat, job: Job): (b: Attempt)
    requires |maps| == |a.rows| && n <= |order| && Covers(a.rows, order)
    ensures SameEntities(a.rows, b.rows)
  {
    if n == 0 then a
    else
      var b := SharedSteps(a, maps, order, n - 1, job);
      SameRowFor(a.rows, b.rows, order[n - 1]);
      SharedStep(b, maps, order[n - 1], n - 1, job)
  }

  function SharedAttempted<M(==)>(a: Attempt, maps: seq<M>, order: seq<Key>, job: Job, refuse: nat): (Attempt, bool)
    requires |maps| == |a.rows| && Covers(a.rows, order)
  {
    if refuse < |order| && !(job.retry && Committed(SharedSteps(a, maps, order, refuse, job).done, job.task, order[refuse], job.signature))
    then (SharedRefusedAt(SharedSteps(a, maps, order, refuse, job), maps, order[refuse]), true)
    else (SharedSteps(a, maps, order, |order|, job), false)
  }

  /** A Run asks no registry, so it is stopped wherever the store refuses. */
  lemma RunAttempted<M>(a: Attempt, maps: seq<M>, order: seq<Key>, job: Job, refuse: nat)
    requires |maps| == |a.rows| && Covers(a.rows, order) && !job.retry
    ensures SharedAttempted(a, maps, order, job, refuse) ==
            if refuse < |order| then (SharedRefusedAt(SharedSteps(a, maps, order, refuse, job), maps, order[refuse]), true)
            else (SharedSteps(a, maps, order, |order|, job), false)
  {
    hide SharedSteps, SharedRefusedAt;
  }

  /** A call a store error stops: the refused row and those over its map are updated, and nothing else. */
  lemma RefusalLeaves<M>(a: Attempt, maps: seq<M>, order: seq<Key>, job: Job, refuse: nat, i: nat)
    requires |maps| == |a.rows| && Covers(a.rows, order) && i < |a.rows|
    requires SharedAttempted(a, maps, order, job, refuse).1
    ensures refuse < |order|
    ensures var b, c, r := SharedSteps(a, maps, order, refuse, job), SharedAttempted(a, maps, order, job, refuse).0, RowFor(a.rows, order[refuse]);
            && r >= 0 && c.live == b.live && c.done == b.done && c.written == b.written && |c.rows| == |a.rows|
            && c.rows[i] == if maps[i] == maps[r]
                            then b.rows[i].(fields := Accumulated(Lookup(b.live, order[refuse]), b.rows[r].fields))
                            else b.rows[i]
  {
    hide Accumulated, SharedSteps, RowFor, Committed;
    var b := SharedSteps(a, maps, order, refuse, job);
    SameRowFor(a.rows, b.rows, order[refuse]);
    RowForIsFirst(b.rows, order[refuse]);
  }

  /** A Retry of the rows in a, whose field maps are maps. */
  ghost function SharedRetry<M>(a: Attempt, maps: seq<M>, task: string, versionID: string, clock: nat -> int, refuse: nat): (Attempt, bool)
    requires |maps| == |a.rows|
  {
    PlanCovers(a.rows);
    SharedAttempted(a, maps, PlanOf(a.rows), Job(true, task, FmtSignature(task, RowsSize(a.rows)), versionID, clock), refuse)
  }

  ghost function SharedRun<M>(a: Attempt, maps: seq<M>, task: string, versionID: string, clock: nat -> int, refuse: nat): (Attempt, bool)
    requires |maps| == |a.rows|
  {
    PlanCovers(a.rows);
    SharedAttempted(a, maps, PlanOf(a.rows), Job(false, task, "", versionID, clock), refuse)
  }

  lemma {:induction false} UnsharedSteps<M>(a: Attempt, maps: seq<M>, order: seq<Key>, n: nat, job: Job)
    requires |maps| == |a.rows| && n <= |order| && Covers(a.rows, order) && NoSharing(maps)
    ensures SharedSteps(a, maps, order, n, job) == Steps(a, order, n, job)
  {
    hide Step, SharedStep, SharedRefusedAt, RefusedAt, RowFor, NoSharing;
    if n > 0 {
      UnsharedSteps(a, maps, order, n - 1, job);
      var b := Steps(a, order, n - 1, job);
      SameRowFor(a.rows, b.rows, order[n - 1]);
      UnsharedStep(b, maps, order[n - 1], n - 1, job);
    }
  }

  lemma UnsharedStep<M>(a: Attempt, maps: seq<M>, key: Key, j: nat, job: Job)
    requires |maps| == |a.rows| && RowFor(a.rows, key) >= 0 && NoSharing(maps)
    ensures SharedStep(a, maps, key, j, job) == Step(a, key, j, job)
    ensures SharedRefusedAt(a, maps, key) == RefusedAt(a, key)
  {
    hide Accumulated, Admits, Committed, Marked, RowFor;
    var i := RowFor(a.rows, key);
    assert SharedRefused(a, maps, i).rows == Refused(a, i).rows;
  }

  /** With a field map for each row, a call does what it does to separate rows. */
  lemma UnsharedAttempt<M>(a: Attempt, maps: seq<M>, order: seq<Key>, job: Job, refuse: nat)
    requires |maps| == |a.rows| && Covers(a.rows, order) && NoSharing(maps)
    ensures SharedAttempted(a, maps, order, job, refuse) == Attempted(a, order, job, refuse)
  {
    hide Steps, SharedSteps, RowFor, Refused, SharedRefused, SharedStep, Step;
    UnsharedSteps(a, maps, order, |order|, job);
    if refuse < |order| {
      UnsharedSteps(a, maps, order, refuse, job);
      var b := Steps(a, order, refuse, job);
      SameRowFor(a.rows, b.rows, order[refuse]);
      UnsharedStep(b, maps, order[refuse], refuse, job);
    }
  }

  lemma UnsharedCalls<M>(a: Attempt, maps: seq<M>, task: string, versionID: string, clock: nat -> int, refuse: nat)
    requires |maps| == |a.rows|
    ensures NoSharing(maps) ==> SharedRetry(a, maps, task, versionID, clock, refuse) == RetryAttempt(a, task, versionID, clock, refuse)
    ensures NoSharing(maps) ==> SharedRun(a, maps, task, versionID, clock, refuse) == RunAttempt(a, task, versionID, clock, refuse)
  {
    hide Attempted, SharedAttempted, Covers, NoSharing;
    PlanCovers(a.rows);
    if NoSharing(maps) {
      UnsharedAttempt(a, maps, PlanOf(a.rows), Job(true, task, FmtSignature(task, RowsSize(a.rows)), versionID, clock), refuse);
      UnsharedAttempt(a, maps, PlanOf(a.rows), Job(false, task, "", versionID, clock), refuse);
    }
  }

  predicate HoldsInteger(e: Option<EntryValue>, n: string) {
    e.Some? && n in e.value.fields && e.value.fields[n].kind == IntField
  }

  /** Rows over one map have the same fields. */
  predicate RowsOver<M(==)>(rows: seq<Result>, maps: seq<M>) {
    |maps| == |rows| && forall i, j :: 0 <= i < |rows| && 0 <= j < |rows| && maps[i] == maps[j] ==> rows[i].fields == rows[j].fields
  }

  lemma RowsShareMaps(rows: seq<RowRef>)
    ensures RowsOver(RowValues(rows), MapsIn(rows))
  {
  }

  /** Plan position j is not skipped, updates the map of row i, and finds an integer stored at the field. */
  predicate Adds<M(==)>(a: Attempt, maps: seq<M>, order: seq<Key>, j: nat, job: Job, i: nat, n: string)
    requires |maps| == |a.rows| && j < |order| && Covers(a.rows, order) && i < |a.rows|
  {
    var b := SharedSteps(a, maps, order, j, job);
    && !(job.retry && Committed(b.done, job.task, order[j], job.signature))
    && maps[RowFor(a.rows, order[j])] == maps[i] && HoldsInteger(Lookup(b.live, order[j]), n)
  }

  /** What the first k positions have added up to at a field of row i's map; nothing if none of them added to it. */
  function Carried<M(==)>(a: Attempt, maps: seq<M>, order: seq<Key>, k: nat, job: Job, i: nat, n: string): Option<int>
    requires |maps| == |a.rows| && k <= |order| && Covers(a.rows, order) && i < |a.rows|
  {
    if k == 0 then None
    else
      var before := Carried(a, maps, order, k - 1, job, i, n);
      if Adds(a, maps, order, k - 1, job, i, n)
      then Some(SharedSteps(a, maps, order, k - 1, job).live[order[k - 1]].fields[n].num + if before.Some? then before.value else 0)
      else before
  }

  function Plus(v: FeatureValue, carried: Option<int>): FeatureValue {
    if v.kind == IntField && carried.Some? then IntValue(WrapInt64(carried.value + v.num)) else v
  }

  lemma WrapAdds(x: int, y: int)
    ensures WrapInt64(x + WrapInt64(y)) == WrapInt64(x + y)
    ensures WrapInt64(x + y) == WrapInt64(y) <==> WrapInt64(x) == 0
  {
    var m, h := 0x1_0000_0000_0000_0000, 0x8000_0000_0000_0000;
    var p := WrapShifts(x);
    var q := WrapShifts(y);
    var r := WrapShifts(x + y);
    ModShift(x + y + h, -q, m);
    if WrapInt64(x) == 0 {
      ModShift(y + h, p, m);
    }
    if WrapInt64(x + y) == WrapInt64(y) {
      ModShift(h, r - q, m);
    }
  }

  /** The row a position tries, as the rows over the same map have it. */
  lemma SharedRows<M>(a: Attempt, maps: seq<M>, key: Key, j: nat, job: Job)
    requires RowsOver(a.rows, maps) && RowFor(a.rows, key) >= 0
    ensures var b, r := SharedStep(a, maps, key, j, job), RowFor(a.rows, key);
            && RowsOver(b.rows, maps) && a.rows[r].entity == key
            && forall i :: 0 <= i < |a.rows| ==>
                 b.rows[i].fields == if (job.retry && Committed(a.done, job.task, key, job.signature)) || maps[i] != maps[r] then a.rows[i].fields
                                     else Accumulated(Lookup(a.live, key), a.rows[i].fields)
  {
    hide Accumulated, Admits, Committed, Marked, RowFor;
    RowForIsFirst(a.rows, key);
  }

  lemma AddsOne(e: Option<EntryValue>, v: FeatureValue, before: Option<int>, fields: Fields, n: string)
    requires n in fields && fields[n] == Plus(v, before)
    ensures Accumulated(e, fields)[n] ==
            Plus(v, if HoldsInteger(e, n) then Some(e.value.fields[n].num + if before.Some? then before.value else 0) else before)
  {
    hide WrapInt64;
    if v.kind == IntField && before.Some? && HoldsInteger(e, n) {
      WrapAdds(e.value.fields[n].num, before.value + v.num);
    }
  }

  /** After k positions each row has its fields plus what the positions over the same map have added. */
  lemma {:induction false} RowCarries<M>(a: Attempt, maps: seq<M>, order: seq<Key>, k: nat, job: Job, i: nat)
    requires RowsOver(a.rows, maps) && k <= |order| && Covers(a.rows, order) && i < |a.rows|
    ensures var rows := SharedSteps(a, maps, order, k, job).rows;
            && RowsOver(rows, maps)
            && rows[i].fields == map n | n in a.rows[i].fields :: Plus(a.rows[i].fields[n], Carried(a, maps, order, k, job, i, n))
  {
    hide SharedStep, Plus, Accumulated, HoldsInteger, RowFor, RowsOver;
    RowCount(a.rows, maps);
    if k == 0 {
      NothingCarried(a.rows[i].fields);
    } else {
      var b := SharedSteps(a, maps, order, k - 1, job);
      RowCarries(a, maps, order, k - 1, job, i);
      SameRowFor(a.rows, b.rows, order[k - 1]);
      SharedRows(b, maps, order[k - 1], k - 1, job);
      var fields, after := a.rows[i].fields, SharedStep(b, maps, order[k - 1], k - 1, job).rows[i].fields;
      forall n | n in fields ensures n in after && after[n] == Plus(fields[n], Carried(a, maps, order, k, job, i, n)) {
        AddsOne(Lookup(b.live, order[k - 1]), fields[n], Carried(a, maps, order, k - 1, job, i, n), b.rows[i].fields, n);
        AccumulatedNames(Lookup(b.live, order[k - 1]), b.rows[i].fields);
        StoredInteger(Lookup(b.live, order[k - 1]), n);
      }
      AccumulatedNames(Lookup(b.live, order[k - 1]), b.rows[i].fields);
    }
  }

  lemma RowCount<M>(rows: seq<Result>, maps: seq<M>)
    requires RowsOver(rows, maps)
    ensures |maps| == |rows|
  {
  }

  lemma NothingCarried(fields: Fields)
    ensures fields == map n | n in fields :: Plus(fields[n], None)
  {
  }

  lemma AccumulatedNames(e: Option<EntryValue>, fields: Fields)
    ensures Accumulated(e, fields).Keys == fields.Keys
  {
  }

  lemma StoredInteger(e: Option<EntryValue>, n: string)
    ensures HoldsInteger(e, n) ==> e.Some? && n in e.value.fields
  {
  }

  /**
   What has been carried into a field changes what adding the entity's own integer then gives. Of 64-bit integers: it is
   not zero. The last disjunct is about other values only, which an addition brings into the 64-bit range.
   */
  predicate LeaksAt(carried: Option<int>, e: Option<EntryValue>, fields: Fields, n: string) {
    && n in fields && fields[n].kind == IntField && carried.Some?
    && (WrapInt64(carried.value) != 0 || (!HoldsInteger(e, n) && fields[n] != IntValue(WrapInt64(fields[n].num))))
  }

  lemma LeaksExactly(carried: Option<int>, e: Option<EntryValue>, fields: Fields, more: Fields, n: string)
    requires n in fields && n in more && more[n] == Plus(fields[n], carried)
    ensures Accumulated(e, more)[n] == Accumulated(e, fields)[n] <==> !LeaksAt(carried, e, fields, n)
  {
    hide WrapInt64;
    if fields[n].kind == IntField && carried.Some? {
      var x, y := carried.value, fields[n].num;
      WrapAdds(x, y);
      if HoldsInteger(e, n) {
        var z := e.value.fields[n].num;
        WrapAdds(z, x + y);
        WrapAdds(x, z + y);
      }
    }
  }

  /** A position that is due writes its row as it finds it, with the entity's own integers added. */
  lemma PositionWrites<M>(b: Attempt, maps: seq<M>, key: Key, j: nat, job: Job)
    requires |maps| == |b.rows| && RowFor(b.rows, key) >= 0 && Due(b, key, job)
    ensures Lookup(SharedStep(b, maps, key, j, job).live, key) ==
            Some(EntryValue(Accumulated(Lookup(b.live, key), b.rows[RowFor(b.rows, key)].fields), job.versionID, job.clock(j)))
  {
    hide Accumulated, Admits, RowFor;
    RowForIsFirst(b.rows, key);
  }

  /** A position touches nothing of another entity but a shared map. */
  lemma OtherPosition<M>(a: Attempt, maps: seq<M>, key: Key, j: nat, job: Job, other: Key)
    requires |maps| == |a.rows| && RowFor(a.rows, key) >= 0 && key != other
    ensures var b := SharedStep(a, maps, key, j, job);
            && Lookup(b.live, other) == Lookup(a.live, other) && (Due(b, other, job) <==> Due(a, other, job))
            && (Committed(b.done, job.task, other, job.signature) <==> Committed(a.done, job.task, other, job.signature))
  {
    hide Accumulated, Admits, RowFor;
    RowForIsFirst(a.rows, key);
    ResultKeyCollision(job.task, key, job.task, other);
  }

  /**
   An entity no position has named yet is as it was before the call: in a plan without repeats, all that is carried was
   stored then.
   */
  lemma {:induction false} NotYetNamed<M>(a: Attempt, maps: seq<M>, order: seq<Key>, k: nat, job: Job, key: Key)
    requires |maps| == |a.rows| && k <= |order| && Covers(a.rows, order)
    requires forall j :: 0 <= j < k ==> order[j] != key
    ensures var b := SharedSteps(a, maps, order, k, job);
            && Lookup(b.live, key) == Lookup(a.live, key) && (Due(b, key, job) <==> Due(a, key, job))
            && (Committed(b.done, job.task, key, job.signature) <==> Committed(a.done, job.task, key, job.signature))
  {
    hide SharedStep, Due, Committed, RowFor;
    if k > 0 {
      var b := SharedSteps(a, maps, order, k - 1, job);
      NotYetNamed(a, maps, order, k - 1, job, key);
      SameRowFor(a.rows, b.rows, order[k - 1]);
      OtherPosition(b, maps, order[k - 1], k - 1, job, key);
    }
  }

  /**
   Any rows over any maps, in a Run or a Retry over any store and registry: an entity written at plan position k receives its
   own row's fields exactly if nothing leaks into them, that is, if what the positions before it have added to the same map
   comes to zero at each integer field.
   */
  lemma SharedMapLeaks<M>(a: Attempt, maps: seq<M>, order: seq<Key>, k: nat, job: Job)
    requires RowsOver(a.rows, maps) && k < |order| && Covers(a.rows, order)
    requires Due(SharedSteps(a, maps, order, k, job), order[k], job)
    ensures var b, i := SharedSteps(a, maps, order, k, job), RowFor(a.rows, order[k]);
            var e, current := Lookup(SharedSteps(a, maps, order, k + 1, job).live, order[k]), Lookup(b.live, order[k]);
            && e.Some?
            && e.value.fields == Accumulated(current, map n | n in a.rows[i].fields ::
                                                Plus(a.rows[i].fields[n], Carried(a, maps, order, k, job, i, n)))
            && (e.value.fields == Accumulated(current, a.rows[i].fields) <==>
                forall n :: !LeaksAt(Carried(a, maps, order, k, job, i, n), current, a.rows[i].fields, n))
  {
    hide SharedStep, Plus, Accumulated, LeaksAt, RowFor, Carried, Due, RowsOver;
    RowCount(a.rows, maps);
    var b, i := SharedSteps(a, maps, order, k, job), RowFor(a.rows, order[k]);
    SameRowFor(a.rows, b.rows, order[k]);
    RowCarries(a, maps, order, k, job, i);
    PositionWrites(b, maps, order[k], k, job);
    var current, fields, more := Lookup(b.live, order[k]), a.rows[i].fields, b.rows[i].fields;
    AccumulatedNames(current, fields);
    AccumulatedNames(current, more);
    forall n ensures LeaksAt(Carried(a, maps, order, k, job, i, n), current, fields, n) <==>
                     n in fields && Accumulated(current, more)[n] != Accumulated(current, fields)[n]
    {
      if n in fields {
        LeaksExactly(Carried(a, maps, order, k, job, i, n), current, fields, more, n);
      } else {
        LeaksInside(Carried(a, maps, order, k, job, i, n), current, fields, n);
      }
    }
  }

  lemma LeaksInside(carried: Option<int>, e: Option<EntryValue>, fields: Fields, n: string)
    ensures LeaksAt(carried, e, fields, n) ==> n in fields
  {
  }

  /**
   Two rows over one map: the entity written second receives what is stored for the first, unless that position is
   skipped.
   */
  lemma SharedPairLeaks<M>(a: Attempt, maps: seq<M>, first: Key, second: Key, fields: Fields, job: Job)
    requires |maps| == 2 && maps[0] == maps[1] && first != second
    requires a.rows == [Result(first, fields), Result(second, fields)] && Due(a, second, job)
    ensures Covers(a.rows, [first, second])
    ensures var e := Lookup(SharedSteps(a, maps, [first, second], 2, job).live, second);
            var one, other := Lookup(a.live, first), Lookup(a.live, second);
            var tried := !(job.retry && Committed(a.done, job.task, first, job.signature));
            && e == Some(EntryValue(Accumulated(other, if tried then Accumulated(one, fields) else fields), job.versionID, job.clock(1)))
            && (e.value.fields == Accumulated(other, fields) <==>
                !tried || forall n :: !LeaksAt(if HoldsInteger(one, n) then Some(one.value.fields[n].num) else None, other, fields, n))
  {
    hide SharedStep, Accumulated, LeaksAt, RowFor, Due, Committed;
    var order := [first, second];
    PairRows(a.rows, first, second, fields);
    NoSteps(a, maps, order, job);
    SharedRows(a, maps, first, 0, job);
    OtherPosition(a, maps, first, 0, job, second);
    var b := SharedStep(a, maps, first, 0, job);
    assert SharedSteps(a, maps, order, 1, job) == b;
    SameRowFor(a.rows, b.rows, second);
    PositionWrites(b, maps, second, 1, job);
    AddedTwice(Lookup(a.live, first), Lookup(a.live, second), fields);
  }

  lemma AddedTwice(one: Option<EntryValue>, other: Option<EntryValue>, fields: Fields)
    ensures Accumulated(other, Accumulated(one, fields)) == Accumulated(other, fields) <==>
            forall n :: !LeaksAt(if HoldsInteger(one, n) then Some(one.value.fields[n].num) else None, other, fields, n)
  {
    hide Accumulated, LeaksAt, Plus;
    var more := Accumulated(one, fields);
    AccumulatedNames(one, fields);
    AccumulatedNames(other, fields);
    AccumulatedNames(other, more);
    forall n
      ensures var carried := if HoldsInteger(one, n) then Some(one.value.fields[n].num) else None;
              LeaksAt(carried, other, fields, n) <==> n in fields && Accumulated(other, more)[n] != Accumulated(other, fields)[n]
    {
      var carried := if HoldsInteger(one, n) then Some(one.value.fields[n].num) else None;
      if n in fields {
        PlusNothing(fields[n]);
        AddsOne(one, fields[n], None, fields, n);
        LeaksExactly(carried, other, fields, more, n);
      } else {
        LeaksInside(carried, other, fields, n);
      }
    }
  }

  lemma PlusNothing(v: FeatureValue)
    ensures Plus(v, None) == v
  {
  }

  lemma PairRows(rows: seq<Result>, first: Key, second: Key, fields: Fields)
    requires first != second && rows == [Result(first, fields), Result(second, fields)]
    ensures Covers(rows, [first, second]) && RowFor(rows, first) == 0 && RowFor(rows, second) == 1
  {
    assert rows[1..] == [Result(second, fields)];
  }

  /** A count stored for the first entity turns up in the second, which was stored nowhere. */
  lemma SharedMapExample(first: Key, second: Key, job: Job, stored: int, added: int)
    requires !job.retry && first != second
    ensures var fields := map["n" := IntValue(added)];
            var a := Attempt(map[first := EntryValue(map["n" := IntValue(stored)], job.versionID, 0)], map[],
                             [Result(first, fields), Result(second, fields)], 0);
            && Covers(a.rows, [first, second])
            && Lookup(SharedSteps(a, [0, 0], [first, second], 2, job).live, second) ==
               Some(EntryValue(map["n" := IntValue(WrapInt64(stored + added))], job.versionID, job.clock(1)))
  {
    hide SharedSteps, Rank, WrapInt64, LeaksAt;
    var fields := map["n" := IntValue(added)];
    var a := Attempt(map[first := EntryValue(map["n" := IntValue(stored)], job.versionID, 0)], map[],
                     [Result(first, fields), Result(second, fields)], 0);
    assert Accumulated(Lookup(a.live, first), fields) == map["n" := IntValue(WrapInt64(stored + added))];
    SharedPairLeaks(a, [0, 0], first, second, fields, job);
  }

  lemma NoSteps<M>(a: Attempt, maps: seq<M>, order: seq<Key>, job: Job)
    requires |maps| == |a.rows| && Covers(a.rows, order)
    ensures SharedSteps(a, maps, order, 0, job) == a
  {
  }

  /** What plan position j adds to the positions before it, in terms of the row it finds. */
  lemma NextPosition<M>(a: Attempt, maps: seq<M>, order: seq<Key>, j: nat, job: Job)
    requires |maps| == |a.rows| && j < |order| && Covers(a.rows, order)
    ensures var b, key := SharedSteps(a, maps, order, j, job), order[j];
            var i := RowFor(b.rows, key);
            && i >= 0 && b.rows[i].entity == key
            && SharedRefusedAt(b, maps, key) == SharedRefused(b, maps, i)
            && SharedSteps(a, maps, order, j + 1, job) ==
               if !job.retry then SharedWritten(b, maps, i, job.versionID, job.clock(j))
               else if Committed(b.done, job.task, key, job.signature) then b
               else SharedMarked(b, maps, i, job, job.clock(j))
  {
    hide Accumulated, Admits, RowFor, Committed, Marked;
    var b := SharedSteps(a, maps, order, j, job);
    SameRowFor(a.rows, b.rows, order[j]);
    RowForIsFirst(b.rows, order[j]);
  }

  /** The store side of Written, on the shards. */
  lemma WrittenInPlace<M>(hash: HashFn, s: Shards, a: Attempt, maps: seq<M>, i: nat, versionID: string, now: int)
    requires |s| > 0 && |maps| == |a.rows| && i < |a.rows| && a.live == LiveOf(hash, s)
    ensures var key := a.rows[i].entity;
            var b := SharedWritten(a, maps, i, versionID, now);
            var ok := Admits(Find(hash, s, key), versionID);
            var rows := SharedRefused(a, maps, i).rows;
            var t := if ok then Put(hash, s, key, EntryValue(rows[i].fields, versionID, now)) else s;
            && b == Attempt(LiveOf(hash, t), a.done, rows, a.written + if ok then 1 else 0)
            && SameStrays(hash, s, t) && Find(hash, s, key) == Lookup(a.live, key)
  {
    hide Accumulated, Admits, LiveOf, Put, Find;
    var key := a.rows[i].entity;
    LiveIsFind(hash, s, key);
    SameStraysReflexive(hash, s);
    PutIsUpdate(hash, s, key, EntryValue(Refused(a, i).rows[i].fields, versionID, now));
  }

  /** One try of a Retry: the clock its writes read, and the plan position whose write the store answers with an error. */
  datatype Try = Try(clock: nat -> int, refuse: nat)

  /** Another Retry on value-equal rows; writes are counted on. */
  ghost function Retried(b: Attempt, rows: seq<Result>, task: string, versionID: string, t: Try): (Attempt, bool) {
    RetryAttempt(b.(rows := rows), task, versionID, t.clock, t.refuse)
  }

  /** The state after any number of tries, each with value-equal rows. */
  ghost function Retries(a: Attempt, task: string, versionID: string, tries: seq<Try>): Attempt {
    if tries == [] then a
    else Retried(Retries(a, task, versionID, tries[..|tries| - 1]), a.rows, task, versionID, tries[|tries| - 1]).0
  }

  /** How far into the plan a try gets: to its error, or to the end. */
  ghost function ReachOf(b: Attempt, rows: seq<Result>, task: string, versionID: string, t: Try): (n: nat)
    ensures n <= |rows|
  {
    PlanLength(rows);
    if Retried(b, rows, task, versionID, t).1 && t.refuse < |rows| then t.refuse else |rows|
  }

  /** How far the furthest of the tries gets. */
  ghost function FurthestReach(a: Attempt, task: string, versionID: string, tries: seq<Try>): (n: nat)
    ensures n <= |a.rows|
  {
    if tries == [] then 0
    else
      var front, last := tries[..|tries| - 1], tries[|tries| - 1];
      Later(FurthestReach(a, task, versionID, front), ReachOf(Retries(a, task, versionID, front), a.rows, task, versionID, last))
  }

  /** At each plan position the clock of the first try that got past it. */
  ghost function FirstClock(a: Attempt, task: string, versionID: string, tries: seq<Try>): nat -> int {
    if tries == [] then (j: nat) => ZERO_TIME
    else
      var front, last := tries[..|tries| - 1], tries[|tries| - 1];
      Spliced(FirstClock(a, task, versionID, front), last.clock, FurthestReach(a, task, versionID, front))
  }

  ghost predicate SameEffect(a: Attempt, b: Attempt) {
    a.live == b.live && a.done == b.done && a.written == b.written
  }

  lemma TryReaches(b: Attempt, rows: seq<Result>, task: string, versionID: string, t: Try)
    ensures Covers(rows, PlanOf(rows)) && |PlanOf(rows)| == |rows|
    ensures var job := Job(true, task, FmtSignature(task, RowsSize(rows)), versionID, t.clock);
            SameEffect(Retried(b, rows, task, versionID, t).0,
                       Steps(b.(rows := rows), PlanOf(rows), ReachOf(b, rows, task, versionID, t), job))
  {
    hide Steps, Covers, PlanOf, RowFor;
    PlanCovers(rows);
    PlanLength(rows);
  }

  /**
   Any number of tries have the effect of one Retry up to the furthest of them, each position read by the clock of the
   first try past it.
   */
  lemma {:induction false} RetriesInOne(a: Attempt, task: string, versionID: string, tries: seq<Try>)
    ensures Covers(a.rows, PlanOf(a.rows)) && |PlanOf(a.rows)| == |a.rows|
    ensures var job := Job(true, task, FmtSignature(task, RowsSize(a.rows)), versionID, FirstClock(a, task, versionID, tries));
            SameEffect(Retries(a, task, versionID, tries), Steps(a, PlanOf(a.rows), FurthestReach(a, task, versionID, tries), job))
  {
    hide Covers, PlanOf, Step, ReachOf, RetryAttempt;
    PlanCovers(a.rows);
    PlanLength(a.rows);
    if tries != [] {
      var front, last := tries[..|tries| - 1], tries[|tries| - 1];
      RetriesInOne(a, task, versionID, front);
      var b := Retries(a, task, versionID, front);
      var m, n := FurthestReach(a, task, versionID, front), ReachOf(b, a.rows, task, versionID, last);
      var job := Job(true, task, FmtSignature(task, RowsSize(a.rows)), versionID, FirstClock(a, task, versionID, front));
      TryReaches(b, a.rows, task, versionID, last);
      RetryResumes(a, PlanOf(a.rows), m, n, job, last.clock, b.(rows := a.rows));
    }
  }

  /**
   Any sequence of Retries that store errors stop anywhere, ended by one that meets no error, all with
   value-equal rows: the store, the registry and the count of writes are those of one uninterrupted Retry.
   */
  lemma RetriesAfterErrors(a: Attempt, task: string, versionID: string, tries: seq<Try>)
    requires tries != [] && tries[|tries| - 1].refuse >= |a.rows|
    ensures var (whole, broken) := RetryAttempt(a, task, versionID, FirstClock(a, task, versionID, tries), |a.rows|);
            !broken && SameEffect(Retries(a, task, versionID, tries), whole)
  {
    hide Steps, Covers, PlanOf, FirstClock, Retries, RetryAttempt;
    RetriesInOne(a, task, versionID, tries);
    LastReaches(a, task, versionID, tries);
    WholeRetry(a, task, versionID, FirstClock(a, task, versionID, tries));
  }

  lemma StepCountsOn(a: Attempt, key: Key, j: nat, job: Job, counted: nat)
    requires RowFor(a.rows, key) >= 0
    ensures var b := Step(a, key, j, job);
            Step(a.(written := a.written + counted), key, j, job) == b.(written := b.written + counted)
  {
    hide RowFor, Accumulated, Admits, Committed, Marked;
  }

  /** The writes of a Retry are counted on from what the caller had counted. */
  lemma {:induction false} StepsCountOn(a: Attempt, order: seq<Key>, n: nat, job: Job, counted: nat)
    requires n <= |order| && Covers(a.rows, order)
    ensures var b := Steps(a, order, n, job);
            Steps(a.(written := a.written + counted), order, n, job) == b.(written := b.written + counted)
  {
    hide RowFor, Step;
    if n > 0 {
      var b := Steps(a, order, n - 1, job);
      StepsCountOn(a, order, n - 1, job, counted);
      SameRowFor(a.rows, b.rows, order[n - 1]);
      StepCountsOn(b, order[n - 1], n - 1, job, counted);
    }
  }

  lemma CountedOn(a: Attempt, task: string, versionID: string, t: Try, counted: nat)
    ensures var b := RetryAttempt(a, task, versionID, t.clock, t.refuse).0;
            RetryAttempt(a.(written := a.written + counted), task, versionID, t.clock, t.refuse).0 == b.(written := b.written + counted)
  {
    hide Steps, Covers, PlanOf, RowFor, Accumulated, Committed;
    PlanCovers(a.rows);
    var order, job := PlanOf(a.rows), Job(true, task, FmtSignature(task, RowsSize(a.rows)), versionID, t.clock);
    StepsCountOn(a, order, |order|, job, counted);
    if t.refuse < |order| {
      StepsCountOn(a, order, t.refuse, job, counted);
    }
  }

  lemma TriesNext(a: Attempt, task: string, versionID: string, tries: seq<Try>, k: nat)
    requires k < |tries|
    ensures Retries(a, task, versionID, tries[..k + 1]) == Retried(Retries(a, task, versionID, tries[..k]), a.rows, task, versionID, tries[k]).0
  {
    hide Retried;
    assert tries[..k + 1][..k] == tries[..k];
  }

  /** One more try, with its own count of writes. */
  lemma NextTry(a: Attempt, task: string, versionID: string, tries: seq<Try>, k: nat, before: Attempt, after: Attempt)
    requires k < |tries| && SameEffect(before, Retries(a, task, versionID, tries[..k]))
    requires after == RetryAttempt(Again(before, a.rows), task, versionID, tries[k].clock, tries[k].refuse).0
    ensures SameEffect(Attempt(after.live, after.done, [], before.written + after.written), Retries(a, task, versionID, tries[..k + 1]))
  {
    hide RetryAttempt, Retries;
    TriesNext(a, task, versionID, tries, k);
    CountedOn(Again(before, a.rows), task, versionID, tries[k], before.written);
    assert Retries(a, task, versionID, tries[..k]).(rows := a.rows) == before.(rows := a.rows);
  }

  lemma LastReaches(a: Attempt, task: string, versionID: string, tries: seq<Try>)
    requires tries != [] && tries[|tries| - 1].refuse >= |a.rows|
    ensures FurthestReach(a, task, versionID, tries) == |a.rows|
  {
    hide Retried, Retries;
  }

  lemma WholeRetry(a: Attempt, task: string, versionID: string, clock: nat -> int)
    ensures Covers(a.rows, PlanOf(a.rows)) && |PlanOf(a.rows)| == |a.rows|
    ensures RetryAttempt(a, task, versionID, clock, |a.rows|) ==
            (Steps(a, PlanOf(a.rows), |a.rows|, Job(true, task, FmtSignature(task, RowsSize(a.rows)), versionID, clock)), false)
  {
    hide Steps, Covers, PlanOf;
    PlanCovers(a.rows);
    PlanLength(a.rows);
  }

  /**
   A Retry that a store error stops anywhere and that is called again with value-equal rows leaves the
   store and registry of one uninterrupted Retry reading the same clocks, and writes what was missing.
   */
  lemma RetryAfterError(a: Attempt, task: string, versionID: string, first: nat -> int, second: nat -> int, refuse: nat, never: nat)
    requires RetryAttempt(a, task, versionID, first, refuse).1 && never >= |a.rows|
    ensures var stopped := RetryAttempt(a, task, versionID, first, refuse).0;
            var (resumed, failed) := RetryAttempt(Again(stopped, a.rows), task, versionID, second, never);
            var (whole, broken) := RetryAttempt(a, task, versionID, Spliced(first, second, refuse), never);
            && !failed && !broken && resumed.live == whole.live && resumed.done == whole.done
            && stopped.written + resumed.written == whole.written
  {
    PlanCovers(a.rows);
    var order := PlanOf(a.rows);
    var job := Job(true, task, FmtSignature(task, RowsSize(a.rows)), versionID, first);
    PlanLength(a.rows);
    RetryIsExactlyOnce(a, order, refuse, job, second);
  }

  class Backfill {
    const store: Store
    var tasks: map<string, Task>

    constructor (store: Store)
      ensures this.store == store && tasks == map[]
    {
      this.store, tasks := store, map[];
    }

    /** Live entries, commit registry and the caller's rows, with a count of writes. */
    ghost function State(rows: seq<RowRef>, written: nat): Attempt
      requires |store.Contents| > 0
      reads store`Contents, store.results, MapsOf(rows)
    {
      Attempt(LiveOf(store.router.hash, store.Contents), store.results.done, RowValues(rows), written)
    }

    /** The rows' field maps are the caller's: neither the cache nor the journal holds them. Rows may share one. */
    ghost predicate Owned(rows: seq<RowRef>)
      reads store.cache`Maps, store.journal`Maps
    {
      forall i :: 0 <= i < |rows| ==>
        rows[i].fields.place == Detached && rows[i].fields !in store.cache.Maps && rows[i].fields !in store.journal.Maps
    }

    /** Updates the caller's row map; nothing in the store is shared with it. */
    method Accumulate(rows: seq<RowRef>, i: nat, ghost written: nat)
      requires store.Valid() && |store.Contents| > 0 && Owned(rows) && i < |rows|
      modifies rows[i].fields
      ensures store.Valid()
      ensures State(rows, written) == SharedRefused(old(State(rows, written)), MapsIn(rows), i)
    {
      hide Store.Valid, Store.Routable, Find, LiveOf, Accumulated;
      store.HasShards();
      store.NotLive(rows[i].fields);
      LiveIsFind(store.router.hash, store.Contents, rows[i].entity);
      var current := store.EntryFor(rows[i].entity);
      AccumulateInto(rows[i].fields, current);
      assert RowValues(rows) == SharedRefused(old(State(rows, written)), MapsIn(rows), i).rows;
    }

    /** The additive update and the guarded write of one row. */
    method WriteResult(rows: seq<RowRef>, i: nat, versionID: string, now: int, refused: bool, ghost written: nat) returns (ok: bool)
      requires store.Valid() && |store.Contents| > 0 && Owned(rows) && i < |rows|
      modifies store`shards, store`Contents, store`Entries, store`Maps, store.Entries
      modifies store.cache`entries, store.cache`Contents, rows[i].fields
      ensures store.Valid() && fresh(store.Entries - old(store.Entries)) && fresh(store.Maps - old(store.Maps))
      ensures |store.Contents| > 0 && SameStrays(store.router.hash, old(store.Contents), store.Contents)
      ensures ok == (!refused && Admits(Lookup(old(State(rows, written)).live, rows[i].entity), versionID))
      ensures var e := Lookup(old(State(rows, written)).live, rows[i].entity);
              ok == (!refused && (e.None? || e.value.versionID == "" || Rank(e.value.versionID) <= Rank(versionID)))
      ensures State(rows, written + if ok then 1 else 0) ==
              if refused then SharedRefused(old(State(rows, written)), MapsIn(rows), i)
              else SharedWritten(old(State(rows, written)), MapsIn(rows), i, versionID, now)
    {
      hide Store.Valid, SameStrays, Put, Find, SharedWritten, Accumulated, SharedRefused, RowValues, LiveOf, Admits, Rank;
      WrittenInPlace(store.router.hash, store.Contents, State(rows, written), MapsIn(rows), i, versionID, now);
      AdmitsInRanks(Lookup(State(rows, written).live, rows[i].entity), versionID);
      SameStraysReflexive(store.router.hash, store.Contents);
      Accumulate(rows, i, written);
      ok := false;
      if !refused {
        ok := store.CompareAndWrite(rows[i].entity, rows[i].fields, versionID, now);
      }
      store.HasShards();
    }

    /** The write of a Retry: an admitted one is marked as committed and counted. */
    method WriteAndMark(rows: seq<RowRef>, i: nat, job: Job, at: int, refused: bool, written: nat) returns (now: nat)
      requires store.Valid() && |store.Contents| > 0 && Owned(rows) && i < |rows|
      modifies store`shards, store`Contents, store`Entries, store`Maps, store.Entries
      modifies store.cache`entries, store.cache`Contents, store.results, rows[i].fields
      ensures store.Valid() && fresh(store.Entries - old(store.Entries)) && fresh(store.Maps - old(store.Maps))
      ensures |store.Contents| > 0 && SameStrays(store.router.hash, old(store.Contents), store.Contents)
      ensures State(rows, now) == if refused then SharedRefused(old(State(rows, written)), MapsIn(rows), i)
                                  else SharedMarked(old(State(rows, written)), MapsIn(rows), i, job, at)
    {
      hide Store.Valid, SameStrays, SharedWritten, SharedRefused, Admits, RowValues, LiveOf, Marked;
      var ok := WriteResult(rows, i, job.versionID, at, refused, written);
      now := written;
      if ok {
        store.results.MarkCommitted(job.task, rows[i].entity, job.signature);
        now := now + 1;
      }
    }

    /** Plan position j of a Retry: a committed row is skipped, a written one is committed. */
    method RetryRow(rows: seq<RowRef>, order: seq<Key>, j: nat, job: Job, refused: bool, written: nat, ghost a: Attempt)
      returns (now: nat, failed: bool)
      requires store.Valid() && |store.Contents| > 0 && Owned(rows) && job.retry && j < |order| && Covers(a.rows, order) && |rows| == |a.rows|
      requires State(rows, written) == SharedSteps(a, MapsIn(rows), order, j, job)
      modifies store`shards, store`Contents, store`Entries, store`Maps, store.Entries
      modifies store.cache`entries, store.cache`Contents, store.results, MapsOf(rows)
      ensures store.Valid() && fresh(store.Entries - old(store.Entries)) && fresh(store.Maps - old(store.Maps))
      ensures |store.Contents| > 0 && SameStrays(store.router.hash, old(store.Contents), store.Contents)
      ensures failed == (refused && !Committed(SharedSteps(a, MapsIn(rows), order, j, job).done, job.task, order[j], job.signature))
      ensures State(rows, now) ==
              if failed then SharedRefusedAt(SharedSteps(a, MapsIn(rows), order, j, job), MapsIn(rows), order[j])
              else SharedSteps(a, MapsIn(rows), order, j + 1, job)
    {
      hide Store.Valid, SameStrays, SharedMarked, SharedRefused, SharedRefusedAt, SharedSteps, RowValues, LiveOf, RowFor, Committed, Covers;
      NextPosition(a, MapsIn(rows), order, j, job);
      SameStraysReflexive(store.router.hash, store.Contents);
      var i := ResultFor(rows, order[j]);
      var committed := store.results.IsCommitted(job.task, rows[i].entity, job.signature);
      if committed {
        return written, false;
      }
      failed := refused;
      now := WriteAndMark(rows, i, job, job.clock(j), refused, written);
    }

    /** The plan of a Retry, up to its end or to the position whose write the store answers with an error. */
    method RetryPlan(rows: seq<RowRef>, order: seq<Key>, job: Job, refuse: nat) returns (written: nat, failed: bool)
      requires store.Valid() && |store.Contents| > 0 && Owned(rows) && job.retry && Covers(RowValues(rows), order)
      modifies store`shards, store`Contents, store`Entries, store`Maps, store.Entries
      modifies store.cache`entries, store.cache`Contents, store.results, MapsOf(rows)
      ensures store.Valid() && |store.Contents| > 0 && SameStrays(store.router.hash, old(store.Contents), store.Contents)
      ensures fresh(store.Entries - old(store.Entries)) && fresh(store.Maps - old(store.Maps))
      ensures (State(rows, written), failed) == SharedAttempted(old(State(rows, 0)), MapsIn(rows), order, job, refuse)
    {
      hide Store.Valid, SameStrays, RowValues, RowFor, SharedSteps, LiveOf, SharedRefusedAt, Committed, Covers;
      ghost var a, first := State(rows, 0), store.Contents;
      SameStraysReflexive(store.router.hash, first);
      NoSteps(a, MapsIn(rows), order, job);
      written := 0;
      for j := 0 to |order|
        invariant store.Valid() && fresh(store.Entries - old(store.Entries)) && fresh(store.Maps - old(store.Maps))
        invariant |store.Contents| > 0 && SameStrays(store.router.hash, first, store.Contents)
        invariant State(rows, written) == SharedSteps(a, MapsIn(rows), order, j, job)
        invariant refuse < j ==> Committed(SharedSteps(a, MapsIn(rows), order, refuse, job).done, job.task, order[refuse], job.signature)
      {
        ghost var before := store.Contents;
        written, failed := RetryRow(rows, order, j, job, j == refuse, written, a);
        SameStraysTransitive(store.router.hash, first, before, store.Contents);
        if failed {
          return;
        }
      }
      failed := false;
    }

    /** Runs a task again: a row its earlier attempts committed is not written twice. */
    method Retry(task: string, versionID: string, rows: seq<RowRef>, clock: nat -> int, refuse: nat) returns (written: nat, failed: bool)
      requires store.Valid() && |store.Contents| > 0 && Owned(rows)
      modifies store`shards, store`Contents, store`Entries, store`Maps, store.Entries
      modifies store.cache`entries, store.cache`Contents, store.results, MapsOf(rows)
      ensures store.Valid() && |store.Contents| > 0 && SameStrays(store.router.hash, old(store.Contents), store.Contents)
      ensures fresh(store.Entries - old(store.Entries)) && fresh(store.Maps - old(store.Maps))
      ensures (State(rows, written), failed) == SharedRetry(old(State(rows, 0)), MapsIn(rows), task, versionID, clock, refuse)
      ensures NoSharing(MapsIn(rows)) ==> (State(rows, written), failed) == RetryAttempt(old(State(rows, 0)), task, versionID, clock, refuse)
    {
      hide Store.Valid, SameStrays, RowValues, LiveOf, SharedAttempted, RetryAttempt, RunAttempt, PlanOf, Covers, NoSharing;
      PlanCovers(RowValues(rows));
      UnsharedCalls(State(rows, 0), MapsIn(rows), task, versionID, clock, refuse);
      var signature := Signature(task, rows);
      var order := BuildPlan(rows);
      written, failed := RetryPlan(rows, order, Job(true, task, signature, versionID, clock), refuse);
    }

    /** Plan position j of a Run: the registry is neither asked nor told. */
    method RunRow(rows: seq<RowRef>, order: seq<Key>, j: nat, job: Job, refused: bool, written: nat, ghost a: Attempt)
      returns (now: nat)
      requires store.Valid() && |store.Contents| > 0 && Owned(rows) && !job.retry && j < |order| && Covers(a.rows, order) && |rows| == |a.rows|
      requires State(rows, written) == SharedSteps(a, MapsIn(rows), order, j, job)
      modifies store`shards, store`Contents, store`Entries, store`Maps, store.Entries
      modifies store.cache`entries, store.cache`Contents, MapsOf(rows)
      ensures store.Valid() && fresh(store.Entries - old(store.Entries)) && fresh(store.Maps - old(store.Maps))
      ensures |store.Contents| > 0 && SameStrays(store.router.hash, old(store.Contents), store.Contents)
      ensures State(rows, now) ==
              if refused then SharedRefusedAt(SharedSteps(a, MapsIn(rows), order, j, job), MapsIn(rows), order[j])
              else SharedSteps(a, MapsIn(rows), order, j + 1, job)
    {
      hide Store.Valid, SameStrays, SharedWritten, SharedRefused, SharedRefusedAt, SharedSteps, Admits, RowValues, LiveOf, RowFor, Covers;
      NextPosition(a, MapsIn(rows), order, j, job);
      var i := ResultFor(rows, order[j]);
      var ok := WriteResult(rows, i, job.versionID, job.clock(j), refused, written);
      now := if ok then written + 1 else written;
    }

    method Register(task: string, total: nat) returns (t: Task)
      modifies `tasks
      ensures fresh(t) && tasks == old(tasks)[task := t]
      ensures t.id == task && t.total == total && t.state == Running && t.processed == 0
    {
      t := new Task(task, total);
      tasks := tasks[task := t];
    }

    lemma RowsOf(rows: seq<RowRef>)
      requires |store.Contents| > 0
      ensures |MapsIn(rows)| == |rows| && State(rows, 0).rows == RowValues(rows) && |RowValues(rows)| == |rows|
    {
    }

    /** The plan of a Run, with the progress of its task. */
    method RunPlan(t: Task, rows: seq<RowRef>, order: seq<Key>, job: Job, refuse: nat) returns (written: nat, failed: bool)
      requires store.Valid() && |store.Contents| > 0 && Owned(rows) && !job.retry && Covers(RowValues(rows), order)
      requires t.total == |order| && t.processed == 0 && t.state == Running
      modifies t, store`shards, store`Contents, store`Entries, store`Maps, store.Entries
      modifies store.cache`entries, store.cache`Contents, MapsOf(rows)
      ensures store.Valid() && |store.Contents| > 0 && SameStrays(store.router.hash, old(store.Contents), store.Contents)
      ensures fresh(store.Entries - old(store.Entries)) && fresh(store.Maps - old(store.Maps))
      ensures (State(rows, written), failed) == SharedAttempted(old(State(rows, 0)), MapsIn(rows), order, job, refuse)
      ensures t.processed == if failed then refuse else |order|
      ensures t.state == if failed then Partial else if order == [] then Running else Done
    {
      hide Store.Valid, SameStrays, RowValues, RowFor, SharedSteps, LiveOf, SharedRefusedAt, SharedAttempted, Covers, MapsIn, Backfill.State, Backfill.Owned;
      ghost var a, first := State(rows, 0), store.Contents;
      RowsOf(rows);
      SameStraysReflexive(store.router.hash, first);
      NoSteps(a, MapsIn(rows), order, job);
      RunAttempted(a, MapsIn(rows), order, job, refuse);
      written, failed := 0, false;
      for j := 0 to |order|
        invariant store.Valid() && fresh(store.Entries - old(store.Entries)) && fresh(store.Maps - old(store.Maps))
        invariant |store.Contents| > 0 && SameStrays(store.router.hash, first, store.Contents)
        invariant State(rows, written) == SharedSteps(a, MapsIn(rows), order, j, job) && j <= refuse
        invariant t.processed == j && t.state == if j > 0 && j == |order| then Done else Running
      {
        ghost var before := store.Contents;
        written := RunRow(rows, order, j, job, j == refuse, written, a);
        SameStraysTransitive(store.router.hash, first, before, store.Contents);
        if j == refuse {
          t.state := Partial;
          return written, true;
        }
        t.Advance();
      }
    }

    /** Runs a task for the first time and records its progress. An empty task id is rejected. */
    method Run(task: string, versionID: string, rows: seq<RowRef>, clock: nat -> int, refuse: nat) returns (written: nat, failed: bool)
      requires store.Valid() && |store.Contents| > 0 && Owned(rows)
      modifies `tasks, store`shards, store`Contents, store`Entries, store`Maps, store.Entries
      modifies store.cache`entries, store.cache`Contents, MapsOf(rows)
      ensures store.Valid() && |store.Contents| > 0 && SameStrays(store.router.hash, old(store.Contents), store.Contents)
      ensures fresh(store.Entries - old(store.Entries)) && fresh(store.Maps - old(store.Maps))
      ensures task == "" ==> failed && State(rows, written) == old(State(rows, 0)) && tasks == old(tasks)
      ensures task != "" ==>
                && (State(rows, written), failed) == SharedRun(old(State(rows, 0)), MapsIn(rows), task, versionID, clock, refuse)
                && (NoSharing(MapsIn(rows)) ==>
                      (State(rows, written), failed) == RunAttempt(old(State(rows, 0)), task, versionID, clock, refuse))
                && task in tasks && tasks == old(tasks)[task := tasks[task]] && fresh(tasks[task])
                && tasks[task].id == task && tasks[task].total == |rows|
                && tasks[task].processed == (if failed then refuse else |rows|)
                && tasks[task].state == (if failed then Partial else if rows == [] then Running else Done)
    {
      hide Store.Valid, SameStrays, RowValues, LiveOf, SharedAttempted, RetryAttempt, RunAttempt, PlanOf, Covers, NoSharing;
      SameStraysReflexive(store.router.hash, store.Contents);
      if task == "" {
        return 0, true;
      }
      UnsharedCalls(State(rows, 0), MapsIn(rows), task, versionID, clock, refuse);
      var t := Register(task, |rows|);
      PlanCovers(RowValues(rows));
      PlanLength(RowValues(rows));
      var order := BuildPlan(rows);
      written, failed := RunPlan(t, rows, order, Job(false, task, "", versionID, clock), refuse);
    }
  }

  /** The field maps of a list of row lists. */
  ghost function AllMaps(tries: seq<seq<RowRef>>): set<FieldMap> {
    set k, m | 0 <= k < |tries| && m in MapsOf(tries[k]) :: m
  }

  /** Row lists equal in value, each with a field map for each row, none of them the store's or shared between lists. */
  ghost predicate Copies(runner: Backfill, lists: seq<seq<RowRef>>, rows: seq<Result>)
    reads runner.store.cache`Maps, runner.store.journal`Maps, AllMaps(lists)
  {
    && (forall k :: 0 <= k < |lists| ==>
          runner.Owned(lists[k]) && NoSharing(MapsIn(lists[k])) && RowValues(lists[k]) == rows)
    && (forall j, k :: 0 <= j < k < |lists| ==> MapsOf(lists[j]) !! MapsOf(lists[k]))
  }

  /** Live entries, commit registry and a count of writes. */
  ghost function EffectOf(runner: Backfill, written: nat): Attempt
    requires |runner.store.Contents| > 0
    reads runner.store`Contents, runner.store.results
  {
    Attempt(LiveOf(runner.store.router.hash, runner.store.Contents), runner.store.results.done, [], written)
  }

  /** One try of a task, on a list of rows of its own; writes are counted on. */
  method RetryOnce(runner: Backfill, task: string, versionID: string, list: seq<RowRef>, t: Try, counted: nat,
                   ghost a: Attempt, ghost tries: seq<Try>, ghost k: nat)
    returns (written: nat)
    requires runner.store.Valid() && |runner.store.Contents| > 0
    requires runner.Owned(list) && NoSharing(MapsIn(list)) && RowValues(list) == a.rows && k < |tries| && tries[k] == t
    requires SameEffect(EffectOf(runner, counted), Retries(a, task, versionID, tries[..k]))
    modifies runner.store`shards, runner.store`Contents, runner.store`Entries, runner.store`Maps, runner.store.Entries
    modifies runner.store.cache`entries, runner.store.cache`Contents, runner.store.results, MapsOf(list)
    ensures runner.store.Valid() && |runner.store.Contents| > 0 && fresh(runner.store.Entries - old(runner.store.Entries))
    ensures fresh(runner.store.Maps - old(runner.store.Maps))
    ensures SameStrays(runner.store.router.hash, old(runner.store.Contents), runner.store.Contents)
    ensures SameEffect(EffectOf(runner, written), Retries(a, task, versionID, tries[..k + 1]))
  {
    hide Store.Valid, SameStrays, Retries, RetryAttempt, RowValues, LiveOf, NoSharing, MapsIn, SameEffect, SharedRetry;
    ghost var before := EffectOf(runner, counted);
    var now, _ := runner.Retry(task, versionID, list, t.clock, t.refuse);
    NextTry(a, task, versionID, tries, k, before, runner.State(list, now));
    written := counted + now;
  }

  /**
   A task retried on value-equal row lists, each try stopped by a store error or complete: together they leave
   the effect and the count of writes of one Retry, once the last try met no error.
   */
  method RetryAll(runner: Backfill, task: string, versionID: string, lists: seq<seq<RowRef>>, tries: seq<Try>, ghost rows: seq<Result>)
    returns (written: nat)
    requires runner.store.Valid() && |runner.store.Contents| > 0
    requires |lists| == |tries| && Copies(runner, lists, rows)
    modifies runner.store`shards, runner.store`Contents, runner.store`Entries, runner.store`Maps, runner.store.Entries
    modifies runner.store.cache`entries, runner.store.cache`Contents, runner.store.results, AllMaps(lists)
    ensures runner.store.Valid() && |runner.store.Contents| > 0 && fresh(runner.store.Entries - old(runner.store.Entries))
    ensures fresh(runner.store.Maps - old(runner.store.Maps))
    ensures SameStrays(runner.store.router.hash, old(runner.store.Contents), runner.store.Contents)
    ensures var a := old(EffectOf(runner, 0)).(rows := rows);
            SameEffect(EffectOf(runner, written), Retries(a, task, versionID, tries))
    ensures tries != [] && tries[|tries| - 1].refuse >= |rows| ==>
              var a := old(EffectOf(runner, 0)).(rows := rows);
              SameEffect(EffectOf(runner, written), RetryAttempt(a, task, versionID, FirstClock(a, task, versionID, tries), |rows|).0)
  {
    hide Store.Valid, SameStrays, Retries, RetryAttempt, FirstClock, RowValues, LiveOf, NoSharing, SameEffect, EffectOf;
    var store := runner.store;
    ghost var a, first := EffectOf(runner, 0).(rows := rows), store.Contents;
    SameStraysReflexive(store.router.hash, first);
    NothingRetried(runner, a, task, versionID);
    written := 0;
    for k := 0 to |tries|
      invariant store.Valid() && |store.Contents| > 0 && fresh(store.Entries - old(store.Entries)) && fresh(store.Maps - old(store.Maps))
      invariant SameStrays(store.router.hash, first, store.Contents)
      invariant forall j :: k <= j < |lists| ==> RowValues(lists[j]) == rows
      invariant SameEffect(EffectOf(runner, written), Retries(a, task, versionID, tries[..k]))
    {
      ghost var contents := store.Contents;
      written := RetryOnce(runner, task, versionID, lists[k], tries[k], written, a, tries, k);
      SameStraysTransitive(store.router.hash, first, contents, store.Contents);
    }
    assert tries[..|tries|] == tries;
    CompletedByLast(a, task, versionID, tries, EffectOf(runner, written));
  }

  lemma NothingRetried(runner: Backfill, a: Attempt, task: string, versionID: string)
    requires |runner.store.Contents| > 0 && a == EffectOf(runner, 0).(rows := a.rows)
    ensures SameEffect(EffectOf(runner, 0), Retries(a, task, versionID, []))
  {
  }

  lemma CompletedByLast(a: Attempt, task: string, versionID: string, tries: seq<Try>, b: Attempt)
    requires SameEffect(b, Retries(a, task, versionID, tries))
    ensures tries != [] && tries[|tries| - 1].refuse >= |a.rows| ==>
              SameEffect(b, RetryAttempt(a, task, versionID, FirstClock(a, task, versionID, tries), |a.rows|).0)
  {
    hide Retries, RetryAttempt, FirstClock;
    if tries != [] && tries[|tries| - 1].refuse >= |a.rows| {
      RetriesAfterErrors(a, task, versionID, tries);
    }
  }
}
