/** Backfill tasks: version-guarded additive writes, and the retry that applies them once. */
module Compute {
  import opened Arithmetic
  import opened Text
  import opened Order
  import opened Model
  import opened Printing
  import opened Ranks
  import opened Placement
  import opened Results
  import Versions

  datatype Result = Result(entity: Key, fields: Fields)

  /** Integer fields add to the stored integers in 64-bit arithmetic; other fields replace. */
  function Accumulated(current: Option<EntryValue>, fields: Fields): Fields {
    match current
    case None => fields
    case Some(e) => map n | n in fields :: AddedTo(e.fields, n, fields[n])
  }

  function AddedTo(stored: Fields, name: string, value: FeatureValue): FeatureValue {
    if value.kind == IntField && name in stored && stored[name].kind == IntField
    then IntValue(WrapInt64(stored[name].num + value.num))
    else value
  }

  /** A backfill in progress: the caller's rows are part of the state because writeResult updates them. */
  datatype Attempt = Attempt(live: Live, done: Done, rows: seq<Result>, written: nat)

  /** One call of Run (registry unused) or Retry, with the clock its writes read by plan position. */
  datatype Job = Job(retry: bool, task: string, signature: string, versionID: string, clock: nat -> int)

  /** The position resultFor finds, or -1. */
  function RowFor(rows: seq<Result>, key: Key): (i: int)
    ensures -1 <= i < |rows|
  {
    if rows == [] then -1
    else if rows[0].entity == key then 0
    else
      var i := RowFor(rows[1..], key);
      if i < 0 then -1 else i + 1
  }

  /** resultFor finds the first row of the key. */
  lemma {:induction false} RowForIsFirst(rows: seq<Result>, key: Key)
    ensures var i := RowFor(rows, key);
            && (i >= 0 ==> rows[i].entity == key)
            && (forall j :: 0 <= j < (if i < 0 then |rows| else i) ==> rows[j].entity != key)
  {
    if rows != [] && rows[0].entity != key {
      RowForIsFirst(rows[1..], key);
      var i := RowFor(rows[1..], key);
      forall j | 0 <= j < (if i < 0 then |rows| else i + 1) ensures rows[j].entity != key {
        assert j > 0 ==> rows[j] == rows[1..][j - 1];
      }
    }
  }

  predicate Covers(rows: seq<Result>, order: seq<Key>) {
    forall i :: 0 <= i < |order| ==> RowFor(rows, order[i]) >= 0
  }

  /** writeResult on the i-th row: the row is updated whether or not the write is admitted. */
  function Written(a: Attempt, i: nat, versionID: string, now: int): Attempt
    requires i < |a.rows|
  {
    var row := a.rows[i];
    var current := Lookup(a.live, row.entity);
    var fields := Accumulated(current, row.fields);
    var b := a.(rows := a.rows[i := row.(fields := fields)]);
    if Admits(current, versionID) then b.(live := b.live[row.entity := EntryValue(fields, versionID, now)], written := b.written + 1) else b
  }

  function Step(a: Attempt, key: Key, j: nat, job: Job): Attempt
    requires RowFor(a.rows, key) >= 0
  {
    if job.retry && Committed(a.done, job.task, key, job.signature) then a
    else
      var b := Written(a, RowFor(a.rows, key), job.versionID, job.clock(j));
      if job.retry && Admits(Lookup(a.live, key), job.versionID)
      then b.(done := Marked(b.done, job.task, key, job.signature))
      else b
  }

  /** The state after the first n positions of the plan. */
  function Steps(a: Attempt, order: seq<Key>, n: nat, job: Job): (b: Attempt)
    requires n <= |order| && Covers(a.rows, order)
    ensures SameEntities(a.rows, b.rows)
  {
    if n == 0 then a
    else
      var b := Steps(a, order, n - 1, job);
      SameRowFor(a.rows, b.rows, order[n - 1]);
      Step(b, order[n - 1], n - 1, job)
  }

  predicate SameEntities(rows: seq<Result>, other: seq<Result>) {
    |rows| == |other| && forall i :: 0 <= i < |rows| ==> rows[i].entity == other[i].entity
  }

  lemma {:induction false} SameRowFor(rows: seq<Result>, other: seq<Result>, key: Key)
    requires SameEntities(rows, other)
    ensures RowFor(rows, key) == RowFor(other, key)
  {
    if rows != [] && rows[0].entity != key {
      SameRowFor(rows[1..], other[1..], key);
    }
  }

  /** The plan reaches key within its first n positions. */
  predicate Planned(order: seq<Key>, n: nat, key: Key)
    requires n <= |order|
  {
    key in order[..n]
  }

  function FirstPosition(order: seq<Key>, n: nat, key: Key): (j: nat)
    requires n <= |order| && Planned(order, n, key)
    ensures j < n && order[j] == key && !Planned(order, j, key)
  {
    if Planned(order, n - 1, key) then FirstPosition(order, n - 1, key)
    else
      assert order[..n] == order[..n - 1] + [order[n - 1]];
      n - 1
  }

  /** The task may write key: it is not committed under this signature and the stored version is not newer. */
  predicate Due(a: Attempt, key: Key, job: Job) {
    !(job.retry && Committed(a.done, job.task, key, job.signature)) && Admits(Lookup(a.live, key), job.versionID)
  }

  /** The result fields the plan finds for key. */
  function FieldsFor(rows: seq<Result>, key: Key): Fields {
    if RowFor(rows, key) < 0 then map[] else rows[RowFor(rows, key)].fields
  }

  /** How often the first n positions name key. */
  function Times(order: seq<Key>, n: nat, key: Key): (m: nat)
    requires n <= |order|
    ensures m > 0 <==> Planned(order, n, key)
  {
    if n == 0 then 0
    else
      assert order[..n] == order[..n - 1] + [order[n - 1]];
      Times(order, n - 1, key) + if order[n - 1] == key then 1 else 0
  }

  function LastPosition(order: seq<Key>, n: nat, key: Key): (j: nat)
    requires n <= |order| && Planned(order, n, key)
    ensures j < n && order[j] == key && forall i :: j < i < n ==> order[i] != key
  {
    if order[n - 1] == key then n - 1
    else
      assert order[..n] == order[..n - 1] + [order[n - 1]];
      LastPosition(order, n - 1, key)
  }

  /** Fields added onto themselves k times over. */
  function Doubled(fields: Fields, k: nat): Fields {
    if k == 0 then fields
    else
      var before := Doubled(fields, k - 1);
      Accumulated(Some(EntryValue(before, "", ZERO_TIME)), before)
  }

  /** What the first write of key stores. */
  function Stored(a: Attempt, key: Key): Fields {
    Accumulated(Lookup(a.live, key), FieldsFor(a.rows, key))
  }

  /**
   The entry of key after n positions, in closed form. A Retry writes a due key where it first meets it. A
   Run writes it at every position that names it, each time from the row the write before has updated.
   */
  function Outcome(a: Attempt, order: seq<Key>, n: nat, job: Job, key: Key): Option<EntryValue>
    requires n <= |order|
  {
    if !Planned(order, n, key) || !Due(a, key, job) then Lookup(a.live, key)
    else if job.retry then Some(EntryValue(Stored(a, key), job.versionID, job.clock(FirstPosition(order, n, key))))
    else Some(EntryValue(Doubled(Stored(a, key), Times(order, n, key) - 1), job.versionID, job.clock(LastPosition(order, n, key))))
  }

  /** What n positions of the plan do to key. */
  ghost predicate Closed(a: Attempt, order: seq<Key>, n: nat, job: Job, key: Key, b: Attempt)
    requires n <= |order|
  {
    && Lookup(b.live, key) == Outcome(a, order, n, job, key)
    && (!Planned(order, n, key) ==> FieldsFor(b.rows, key) == FieldsFor(a.rows, key))
    && (!job.retry && Planned(order, n, key) && Due(a, key, job) ==>
          FieldsFor(b.rows, key) == Doubled(Stored(a, key), Times(order, n, key) - 1))
    && (job.retry ==> (Committed(b.done, job.task, key, job.signature) <==>
          Committed(a.done, job.task, key, job.signature) || (Planned(order, n, key) && Due(a, key, job))))
  }

  /**
   A Run or a Retry over any plan, repeats included: what becomes of each entity. Only the first row of an
   entity is ever read, and an entity that is not planned, or not due, is unchanged.
   */
  lemma {:induction false} ClosedForm(a: Attempt, order: seq<Key>, n: nat, job: Job, key: Key)
    requires n <= |order| && Covers(a.rows, order)
    ensures Closed(a, order, n, job, key, Steps(a, order, n, job))
  {
    if n > 0 {
      ClosedForm(a, order, n - 1, job, key);
      var b := Steps(a, order, n - 1, job);
      SameRowFor(a.rows, b.rows, order[n - 1]);
      ClosedStep(a, order, n, job, key, b);
    }
  }

  lemma ClosedStep(a: Attempt, order: seq<Key>, n: nat, job: Job, key: Key, b: Attempt)
    requires 0 < n <= |order| && RowFor(b.rows, order[n - 1]) >= 0
    requires Closed(a, order, n - 1, job, key, b)
    ensures Closed(a, order, n, job, key, Step(b, order[n - 1], n - 1, job))
  {
    hide Closed, Step, RowFor;
    var k := order[n - 1];
    var c := Step(b, k, n - 1, job);
    if k != key {
      OtherKeyUntouched(b, k, n - 1, job, key);
      ClosedOther(a, order, n, job, key, b, c);
    } else if job.retry {
      RepeatIsNotDue(a, order, n, job, b);
      OwnKey(b, k, n - 1, job);
      RetryOwn(a, order, n, job, b, c);
    } else {
      StillDue(a, order, n, job, b);
      OwnKey(b, k, n - 1, job);
      RunOwn(a, order, n, job, b, c);
    }
  }

  lemma PlannedNext(order: seq<Key>, n: nat)
    requires 0 < n <= |order|
    ensures forall k :: Planned(order, n, k) <==> k == order[n - 1] || Planned(order, n - 1, k)
  {
    assert order[..n] == order[..n - 1] + [order[n - 1]];
  }

  lemma RetryOwn(a: Attempt, order: seq<Key>, n: nat, job: Job, b: Attempt, c: Attempt)
    requires 0 < n <= |order| && job.retry
    requires Closed(a, order, n - 1, job, order[n - 1], b)
    requires Due(b, order[n - 1], job) <==> !Planned(order, n - 1, order[n - 1]) && Due(a, order[n - 1], job)
    requires Afterwards(b, order[n - 1], n - 1, job, c)
    ensures Closed(a, order, n, job, order[n - 1], c)
  {
    hide Accumulated, Admits, RowFor;
    PlannedNext(order, n);
  }

  lemma RunOwn(a: Attempt, order: seq<Key>, n: nat, job: Job, b: Attempt, c: Attempt)
    requires 0 < n <= |order| && !job.retry
    requires Closed(a, order, n - 1, job, order[n - 1], b)
    requires Due(b, order[n - 1], job) <==> Due(a, order[n - 1], job)
    requires Afterwards(b, order[n - 1], n - 1, job, c)
    ensures Closed(a, order, n, job, order[n - 1], c)
  {
    hide Due, RowFor, FieldsFor;
    var key := order[n - 1];
    PlannedNext(order, n);
    if Due(a, key, job) && Planned(order, n - 1, key) {
      AddsOnlyFields(Lookup(b.live, key), FieldsFor(b.rows, key));
    }
  }

  /** An entry adds its fields, whatever its version and time. */
  lemma AddsOnlyFields(current: Option<EntryValue>, fields: Fields)
    requires current.Some?
    ensures Accumulated(current, fields) == Accumulated(Some(EntryValue(current.value.fields, "", ZERO_TIME)), fields)
  {
  }

  lemma ClosedOther(a: Attempt, order: seq<Key>, n: nat, job: Job, key: Key, b: Attempt, c: Attempt)
    requires 0 < n <= |order| && key != order[n - 1]
    requires Closed(a, order, n - 1, job, key, b)
    requires Untouched(b, c, job, key)
    ensures Closed(a, order, n, job, key, c)
  {
    hide Accumulated, Due, RowFor, Doubled;
    PlannedNext(order, n);
  }

  /** What one step does to its own key. */
  ghost predicate Afterwards(a: Attempt, key: Key, j: nat, job: Job, b: Attempt) {
    if Due(a, key, job) then
      && Lookup(b.live, key) == Some(EntryValue(Accumulated(Lookup(a.live, key), FieldsFor(a.rows, key)), job.versionID, job.clock(j)))
      && FieldsFor(b.rows, key) == Accumulated(Lookup(a.live, key), FieldsFor(a.rows, key))
      && (job.retry ==> Committed(b.done, job.task, key, job.signature))
    else
      && Lookup(b.live, key) == Lookup(a.live, key)
      && b.done == a.done
  }

  lemma OwnKey(a: Attempt, key: Key, j: nat, job: Job)
    requires RowFor(a.rows, key) >= 0
    ensures Afterwards(a, key, j, job, Step(a, key, j, job))
  {
    hide Accumulated, Admits, Rank;
    var i := RowFor(a.rows, key);
    RowForIsFirst(a.rows, key);
    SameRowFor(a.rows, a.rows[i := a.rows[i].(fields := Accumulated(Lookup(a.live, key), a.rows[i].fields))], key);
  }

  /**
   In a Retry the step at position n - 1 finds its key due exactly when the plan meets it there first and it was due at
   the start.
   */
  lemma RepeatIsNotDue(a: Attempt, order: seq<Key>, n: nat, job: Job, b: Attempt)
    requires 0 < n <= |order| && job.retry
    requires Closed(a, order, n - 1, job, order[n - 1], b)
    ensures Due(b, order[n - 1], job) <==> !Planned(order, n - 1, order[n - 1]) && Due(a, order[n - 1], job)
  {
  }

  /** In a Run a key is due at every position exactly when it was due at the start. */
  lemma StillDue(a: Attempt, order: seq<Key>, n: nat, job: Job, b: Attempt)
    requires 0 < n <= |order| && !job.retry
    requires Closed(a, order, n - 1, job, order[n - 1], b)
    ensures Due(b, order[n - 1], job) <==> Due(a, order[n - 1], job)
  {
    hide Rank, Accumulated, Doubled;
  }

  ghost predicate Untouched(a: Attempt, b: Attempt, job: Job, key: Key) {
    && Lookup(b.live, key) == Lookup(a.live, key)
    && FieldsFor(b.rows, key) == FieldsFor(a.rows, key)
    && Committed(b.done, job.task, key, job.signature) == Committed(a.done, job.task, key, job.signature)
  }

  lemma OtherRowUntouched(rows: seq<Result>, i: nat, fields: Fields, key: Key)
    requires i < |rows| && rows[i].entity != key
    ensures FieldsFor(rows[i := rows[i].(fields := fields)], key) == FieldsFor(rows, key)
  {
    SameRowFor(rows, rows[i := rows[i].(fields := fields)], key);
    RowForIsFirst(rows, key);
  }

  lemma OtherString(task: string, k: Key, key: Key)
    requires k != key
    ensures ResultKey(task, k) != ResultKey(task, key)
  {
    if ResultKey(task, k) == ResultKey(task, key) {
      SameTaskKey(task, k, key);
    }
  }

  lemma OtherKeyUntouched(a: Attempt, k: Key, j: nat, job: Job, key: Key)
    requires k != key && RowFor(a.rows, k) >= 0
    ensures Untouched(a, Step(a, k, j, job), job, key)
  {
    var i := RowFor(a.rows, k);
    RowForIsFirst(a.rows, k);
    OtherString(job.task, k, key);
    OtherRowUntouched(a.rows, i, Accumulated(Lookup(a.live, k), a.rows[i].fields), key);
  }

  /** Some due planned entity is registered under the string s. */
  ghost predicate Registers(a: Attempt, order: seq<Key>, n: nat, job: Job, s: string)
    requires n <= |order|
  {
    exists k :: Planned(order, n, k) && Due(a, k, job) && s == ResultKey(job.task, k)
  }

  ghost predicate SameAt(d: Done, e: Done, s: string) {
    (s in d <==> s in e) && (s in d ==> d[s] == e[s])
  }

  lemma StepRegistry(a: Attempt, key: Key, j: nat, job: Job, s: string)
    requires RowFor(a.rows, key) >= 0 && job.retry
    ensures var b := Step(a, key, j, job);
            if Due(a, key, job) && s == ResultKey(job.task, key) then s in b.done && b.done[s] == job.signature else SameAt(a.done, b.done, s)
  {
  }

  /** The registry strings of due planned entities hold the signature; every other string is as before. */
  lemma {:induction false} RegistryClosedForm(a: Attempt, order: seq<Key>, n: nat, job: Job, s: string)
    requires n <= |order| && Covers(a.rows, order) && job.retry
    ensures var b := Steps(a, order, n, job);
            if Registers(a, order, n, job, s) then s in b.done && b.done[s] == job.signature else SameAt(a.done, b.done, s)
  {
    hide Step, Due, Closed, RowFor, Planned;
    NoneRegistered(a, order, job, s);
    if n > 0 {
      var b, k := Steps(a, order, n - 1, job), order[n - 1];
      RegistryClosedForm(a, order, n - 1, job, s);
      ClosedForm(a, order, n - 1, job, k);
      RepeatIsNotDue(a, order, n, job, b);
      SameRowFor(a.rows, b.rows, k);
      StepRegistry(b, k, n - 1, job, s);
      RegistersNext(a, order, n, job, s);
    }
  }

  lemma NoneRegistered(a: Attempt, order: seq<Key>, job: Job, s: string)
    ensures !Registers(a, order, 0, job, s)
  {
  }

  lemma RegistersNext(a: Attempt, order: seq<Key>, n: nat, job: Job, s: string)
    requires 0 < n <= |order|
    ensures Registers(a, order, n, job, s) <==>
            Registers(a, order, n - 1, job, s) || (Due(a, order[n - 1], job) && s == ResultKey(job.task, order[n - 1]))
  {
    PlannedNext(order, n);
    if k :| Planned(order, n, k) && Due(a, k, job) && s == ResultKey(job.task, k) {
      assert k == order[n - 1] || Planned(order, n - 1, k);
    }
    assert Planned(order, n, order[n - 1]);
  }

  lemma {:induction false} FirstPositionStable(order: seq<Key>, i: nat, n: nat, key: Key)
    requires i <= n <= |order| && Planned(order, n, key)
    ensures if Planned(order, i, key) then FirstPosition(order, n, key) == FirstPosition(order, i, key)
            else FirstPosition(order, n, key) >= i
  {
    if i < n {
      if Planned(order, i, key) {
        PlannedMonotone(order, i, n - 1, key);
      }
      if Planned(order, n - 1, key) {
        FirstPositionStable(order, i, n - 1, key);
      }
    }
  }

  lemma PlannedMonotone(order: seq<Key>, i: nat, n: nat, key: Key)
    requires i <= n <= |order| && Planned(order, i, key)
    ensures Planned(order, n, key)
  {
  }

  /** The first attempt's clock up to its stop, the second's from there on. */
  function Spliced(first: nat -> int, second: nat -> int, i: nat): nat -> int {
    (j: nat) => if j < i then first(j) else second(j)
  }

  /** The fresh start of a later attempt on value-equal rows. */
  function Again(b: Attempt, rows: seq<Result>): Attempt {
    Attempt(b.live, b.done, rows, 0)
  }

  /** The start of a later attempt on value-equal rows, whatever its count of writes. */
  ghost predicate Restarts(start: Attempt, b: Attempt, rows: seq<Result>) {
    start.live == b.live && start.done == b.done && start.rows == rows
  }

  lemma DueAfterStop(a: Attempt, order: seq<Key>, i: nat, job: Job, key: Key, start: Attempt)
    requires i <= |order| && Covers(a.rows, order) && job.retry && Restarts(start, Steps(a, order, i, job), a.rows)
    ensures Due(start, key, job) <==> !Planned(order, i, key) && Due(a, key, job)
  {
    ClosedForm(a, order, i, job, key);
  }

  function Later(i: nat, n: nat): (m: nat)
    ensures m == i || m == n
    ensures i <= m && n <= m
  {
    if i < n then n else i
  }

  /**
   A Retry stopped before plan position i and run again on value-equal rows up to position n leaves the
   store, registry and count of writes of one Retry up to the later of the two, reading the same clocks.
   */
  lemma RetryResumes(a: Attempt, order: seq<Key>, i: nat, n: nat, job: Job, clock: nat -> int, start: Attempt)
    requires i <= |order| && n <= |order| && Covers(a.rows, order) && job.retry
    requires Restarts(start, Steps(a, order, i, job), a.rows)
    ensures var resumed := Steps(start, order, n, job.(clock := clock));
            var whole := Steps(a, order, Later(i, n), job.(clock := Spliced(job.clock, clock, i)));
            && resumed.live == whole.live && resumed.done == whole.done
            && resumed.written - start.written + Steps(a, order, i, job).written == whole.written
  {
    hide Steps, Restarts, Covers, Due;
    SameRowsCover(a, order, i, job, start);
    var m := Later(i, n);
    var resumed := Steps(start, order, n, job.(clock := clock));
    var whole := Steps(a, order, m, job.(clock := Spliced(job.clock, clock, i)));
    forall key ensures Lookup(resumed.live, key) == Lookup(whole.live, key) {
      ResumedEntry(a, order, i, n, m, job, clock, key, start);
    }
    SameLookups(resumed.live, whole.live);
    forall s ensures SameAt(resumed.done, whole.done, s) {
      ResumedRegistry(a, order, i, n, m, job, clock, s, start);
    }
    SameRegistry(resumed.done, whole.done);
    WritesAddUp(a, order, i, n, m, job, clock, start);
  }

  lemma SameRowsCover(a: Attempt, order: seq<Key>, i: nat, job: Job, start: Attempt)
    requires i <= |order| && Covers(a.rows, order) && Restarts(start, Steps(a, order, i, job), a.rows)
    ensures Covers(start.rows, order) && start.rows == a.rows
  {
  }

  /** Stopped before any plan position and run again to the end, a Retry equals one uninterrupted Retry. */
  lemma RetryIsExactlyOnce(a: Attempt, order: seq<Key>, i: nat, job: Job, clock: nat -> int)
    requires i <= |order| && Covers(a.rows, order) && job.retry
    ensures var stopped := Steps(a, order, i, job);
            var resumed := Steps(Again(stopped, a.rows), order, |order|, job.(clock := clock));
            var whole := Steps(a, order, |order|, job.(clock := Spliced(job.clock, clock, i)));
            && resumed.live == whole.live && resumed.done == whole.done
            && stopped.written + resumed.written == whole.written
  {
    hide Steps, Covers;
    RetryResumes(a, order, i, |order|, job, clock, Again(Steps(a, order, i, job), a.rows));
  }

  lemma SameRegistry(d: Done, e: Done)
    requires forall s :: SameAt(d, e, s)
    ensures d == e
  {
    forall s ensures s in d <==> s in e {
      assert SameAt(d, e, s);
    }
    forall s | s in d ensures d[s] == e[s] {
      assert SameAt(d, e, s);
    }
  }

  lemma OutcomeResumes(a: Attempt, order: seq<Key>, i: nat, n: nat, m: nat, job: Job, clock: nat -> int, key: Key, start: Attempt)
    requires i <= m <= |order| && n <= m && (m == i || m == n) && job.retry && start.rows == a.rows
    requires Lookup(start.live, key) == Outcome(a, order, i, job, key)
    requires Due(start, key, job) <==> !Planned(order, i, key) && Due(a, key, job)
    ensures Outcome(start, order, n, job.(clock := clock), key) ==
            Outcome(a, order, m, job.(clock := Spliced(job.clock, clock, i)), key)
  {
    hide Due, Planned, FirstPosition, FieldsFor, Accumulated;
    DueAnyClock(start, key, job, clock);
    DueAnyClock(a, key, job, Spliced(job.clock, clock, i));
    if Planned(order, i, key) {
      PlannedMonotone(order, i, m, key);
    }
    if Planned(order, n, key) {
      PlannedMonotone(order, n, m, key);
    }
    if Planned(order, m, key) {
      FirstPositionStable(order, i, m, key);
    }
  }

  lemma ResumedEntry(a: Attempt, order: seq<Key>, i: nat, n: nat, m: nat, job: Job, clock: nat -> int, key: Key, start: Attempt)
    requires i <= m <= |order| && n <= m && (m == i || m == n) && Covers(a.rows, order) && Covers(start.rows, order) && job.retry
    requires Restarts(start, Steps(a, order, i, job), a.rows)
    ensures var resumed := Steps(start, order, n, job.(clock := clock));
            var whole := Steps(a, order, m, job.(clock := Spliced(job.clock, clock, i)));
            Lookup(resumed.live, key) == Lookup(whole.live, key)
  {
    hide Steps, Covers, Outcome, Due, Planned;
    ClosedForm(a, order, i, job, key);
    ClosedForm(start, order, n, job.(clock := clock), key);
    ClosedForm(a, order, m, job.(clock := Spliced(job.clock, clock, i)), key);
    DueAfterStop(a, order, i, job, key, start);
    OutcomeResumes(a, order, i, n, m, job, clock, key, start);
  }

  lemma ResumedRegistry(a: Attempt, order: seq<Key>, i: nat, n: nat, m: nat, job: Job, clock: nat -> int, s: string, start: Attempt)
    requires i <= m <= |order| && n <= m && (m == i || m == n) && Covers(a.rows, order) && Covers(start.rows, order) && job.retry
    requires Restarts(start, Steps(a, order, i, job), a.rows)
    ensures var resumed := Steps(start, order, n, job.(clock := clock));
            var whole := Steps(a, order, m, job.(clock := Spliced(job.clock, clock, i)));
            SameAt(resumed.done, whole.done, s)
  {
    hide Steps, Covers, Registers;
    var job1, job2 := job.(clock := clock), job.(clock := Spliced(job.clock, clock, i));
    RegistryClosedForm(a, order, i, job, s);
    RegistryClosedForm(start, order, n, job1, s);
    RegistryClosedForm(a, order, m, job2, s);
    RegistersSplit(a, order, i, n, m, job, start, s);
    SameRegisters(start, order, n, job, job1, s);
    SameRegisters(a, order, m, job, job2, s);
  }

  lemma SameRegisters(a: Attempt, order: seq<Key>, n: nat, job: Job, other: Job, s: string)
    requires n <= |order| && other == job.(clock := other.clock)
    ensures Registers(a, order, n, job, s) <==> Registers(a, order, n, other, s)
  {
    if k :| Planned(order, n, k) && Due(a, k, job) && s == ResultKey(job.task, k) {
      assert Due(a, k, other);
    }
    if k :| Planned(order, n, k) && Due(a, k, other) && s == ResultKey(job.task, k) {
      assert Due(a, k, job);
    }
  }

  /**
   What the plan registers up to the later position is what its first i positions register plus what the restart
   registers.
   */
  lemma RegistersSplit(a: Attempt, order: seq<Key>, i: nat, n: nat, m: nat, job: Job, start: Attempt, s: string)
    requires i <= m <= |order| && n <= m && (m == i || m == n) && Covers(a.rows, order) && job.retry && Restarts(start, Steps(a, order, i, job), a.rows)
    ensures Registers(a, order, m, job, s) <==> Registers(a, order, i, job, s) || Registers(start, order, n, job, s)
  {
    hide Steps, Due, Planned, Covers, Restarts;
    if k :| Planned(order, m, k) && Due(a, k, job) && s == ResultKey(job.task, k) {
      DueAfterStop(a, order, i, job, k, start);
      assert Planned(order, i, k) || Planned(order, n, k);
      assert Planned(order, i, k) || Due(start, k, job);
    }
    if k :| Planned(order, i, k) && Due(a, k, job) && s == ResultKey(job.task, k) {
      PlannedMonotone(order, i, m, k);
    }
    if k :| Planned(order, n, k) && Due(start, k, job) && s == ResultKey(job.task, k) {
      DueAfterStop(a, order, i, job, k, start);
      PlannedMonotone(order, n, m, k);
    }
  }

  /** The planned entities that are due, each once. */
  ghost function DueSet(a: Attempt, order: seq<Key>, n: nat, job: Job): set<Key>
    requires n <= |order|
  {
    set k | k in order[..n] && Due(a, k, job)
  }

  lemma DueSetNext(a: Attempt, order: seq<Key>, n: nat, job: Job)
    requires 0 < n <= |order|
    ensures var k := order[n - 1];
            |DueSet(a, order, n, job)| == |DueSet(a, order, n - 1, job)| + if !Planned(order, n - 1, k) && Due(a, k, job) then 1 else 0
  {
    hide Due;
    var k := order[n - 1];
    PlannedNext(order, n);
    assert forall x :: x in order[..n] <==> Planned(order, n, x);
    assert DueSet(a, order, n, job) == DueSet(a, order, n - 1, job) + (if Due(a, k, job) then {k} else {});
  }

  /** A Retry counts one write for each due planned entity, however often the plan repeats it. */
  lemma {:induction false} WrittenIsDue(a: Attempt, order: seq<Key>, n: nat, job: Job)
    requires n <= |order| && Covers(a.rows, order) && job.retry
    ensures Steps(a, order, n, job).written == a.written + |DueSet(a, order, n, job)|
  {
    hide Step, Due, Closed, RowFor;
    if n > 0 {
      var b, k := Steps(a, order, n - 1, job), order[n - 1];
      WrittenIsDue(a, order, n - 1, job);
      ClosedForm(a, order, n - 1, job, k);
      RepeatIsNotDue(a, order, n, job, b);
      SameRowFor(a.rows, b.rows, k);
      CountedIfDue(b, k, n - 1, job);
      DueSetNext(a, order, n, job);
    }
  }

  lemma CountedIfDue(a: Attempt, key: Key, j: nat, job: Job)
    requires RowFor(a.rows, key) >= 0
    ensures Step(a, key, j, job).written == a.written + if Due(a, key, job) then 1 else 0
  {
    RowForIsFirst(a.rows, key);
  }

  lemma DueSetSplit(a: Attempt, order: seq<Key>, i: nat, n: nat, m: nat, job: Job, start: Attempt)
    requires i <= m <= |order| && n <= m && (m == i || m == n) && Covers(a.rows, order) && job.retry && Restarts(start, Steps(a, order, i, job), a.rows)
    ensures |DueSet(a, order, m, job)| == |DueSet(a, order, i, job)| + |DueSet(start, order, n, job)|
  {
    hide Steps, Due, Covers, Restarts;
    var before, after := DueSet(a, order, i, job), DueSet(start, order, n, job);
    forall k ensures k in DueSet(a, order, m, job) <==> k in before || k in after {
      DueAfterStop(a, order, i, job, k, start);
      if Planned(order, i, k) {
        PlannedMonotone(order, i, m, k);
      }
      if Planned(order, n, k) {
        PlannedMonotone(order, n, m, k);
      }
    }
    assert DueSet(a, order, m, job) == before + after;
    forall k | k in after ensures k !in before {
      DueAfterStop(a, order, i, job, k, start);
    }
  }

  lemma DueSetAnyClock(a: Attempt, order: seq<Key>, n: nat, job: Job, clock: nat -> int)
    requires n <= |order|
    ensures DueSet(a, order, n, job.(clock := clock)) == DueSet(a, order, n, job)
  {
  }

  /** The writes of a stopped Retry and of the one that resumes it add up to those of one uninterrupted Retry. */
  lemma WritesAddUp(a: Attempt, order: seq<Key>, i: nat, n: nat, m: nat, job: Job, clock: nat -> int, start: Attempt)
    requires i <= m <= |order| && n <= m && (m == i || m == n) && Covers(a.rows, order) && Covers(start.rows, order) && job.retry
    requires Restarts(start, Steps(a, order, i, job), a.rows)
    ensures var resumed := Steps(start, order, n, job.(clock := clock));
            resumed.written - start.written + Steps(a, order, i, job).written ==
            Steps(a, order, m, job.(clock := Spliced(job.clock, clock, i))).written
  {
    hide Steps, DueSet, Covers, Restarts;
    WrittenIsDue(a, order, i, job);
    WrittenIsDue(start, order, n, job.(clock := clock));
    WrittenIsDue(a, order, m, job.(clock := Spliced(job.clock, clock, i)));
    DueSetSplit(a, order, i, n, m, job, start);
    DueSetAnyClock(start, order, n, job, clock);
    DueSetAnyClock(a, order, m, job, Spliced(job.clock, clock, i));
  }

  lemma {:induction false} NothingDue(a: Attempt, order: seq<Key>, n: nat, job: Job)
    requires n <= |order| && Covers(a.rows, order)
    requires forall j :: 0 <= j < n ==> !Due(a, order[j], job)
    ensures var b := Steps(a, order, n, job); b.live == a.live && b.done == a.done && b.written == a.written
  {
    hide Step, RowFor;
    if n > 0 {
      NothingDue(a, order, n - 1, job);
      var b := Steps(a, order, n - 1, job);
      SameRowFor(a.rows, b.rows, order[n - 1]);
      NotDue(b, order[n - 1], n - 1, job);
    }
  }

  /** A committed or rejected row leaves store and registry alone. */
  lemma NotDue(a: Attempt, key: Key, j: nat, job: Job)
    requires RowFor(a.rows, key) >= 0 && !Due(a, key, job)
    ensures var b := Step(a, key, j, job); b.live == a.live && b.done == a.done && b.written == a.written
  {
    RowForIsFirst(a.rows, key);
  }

  lemma DueAnyClock(a: Attempt, key: Key, job: Job, clock: nat -> int)
    ensures Due(a, key, job.(clock := clock)) <==> Due(a, key, job)
  {
  }

  /** A completed Retry repeated on value-equal rows writes nothing and changes nothing. */
  lemma SecondRetryWritesNothing(a: Attempt, order: seq<Key>, job: Job, clock: nat -> int)
    requires Covers(a.rows, order) && job.retry
    ensures var b := Steps(a, order, |order|, job);
            var c := Steps(Again(b, a.rows), order, |order|, job.(clock := clock));
            c.live == b.live && c.done == b.done && c.written == 0
  {
    hide Steps, Due, Covers;
    var b := Steps(a, order, |order|, job);
    forall j | 0 <= j < |order| ensures !Due(Again(b, a.rows), order[j], job.(clock := clock)) {
      assert order[..|order|] == order;
      assert Planned(order, |order|, order[j]);
      DueAfterStop(a, order, |order|, job, order[j], Again(b, a.rows));
      DueAnyClock(Again(b, a.rows), order[j], job, clock);
    }
    NothingDue(Again(b, a.rows), order, |order|, job.(clock := clock));
  }

  /** Field by field: integers over stored integers add once, everything else is the row's own value. */
  lemma AccumulatedField(current: Option<EntryValue>, fields: Fields, name: string)
    requires name in fields
    ensures var stored := FieldsOf(current);
            var v := Accumulated(current, fields)[name];
            if fields[name].kind == IntField && name in stored && stored[name].kind == IntField
            then v == FeatureValue(IntField, "", WrapInt64(stored[name].num + fields[name].num), "", false, true)
            else v == fields[name]
    ensures Accumulated(current, fields).Keys == fields.Keys
  {
  }

  lemma AddedToItself(fields: Fields, name: string)
    requires name in fields
    ensures var r := Accumulated(Some(EntryValue(fields, "", ZERO_TIME)), fields);
            && r.Keys == fields.Keys
            && r[name] == if fields[name].kind == IntField then IntValue(WrapInt64(fields[name].num + fields[name].num)) else fields[name]
  {
  }

  /** Field by field: integers are multiplied by a power of two in 64-bit arithmetic, everything else stays. */
  lemma {:induction false} DoubledField(fields: Fields, k: nat, name: string)
    requires name in fields
    ensures Doubled(fields, k).Keys == fields.Keys
    ensures Doubled(fields, k)[name] ==
            if k > 0 && fields[name].kind == IntField then IntValue(WrapInt64(Power2(k) * fields[name].num)) else fields[name]
  {
    hide WrapInt64, Accumulated;
    if k > 0 {
      DoubledField(fields, k - 1, name);
      AddedToItself(Doubled(fields, k - 1), name);
      DoublesAgain(fields[name].num, k);
    }
  }

  lemma DoublesAgain(x: int, k: nat)
    requires k > 0
    ensures var before := if k == 1 then x else WrapInt64(Power2(k - 1) * x);
            WrapInt64(before + before) == WrapInt64(Power2(k) * x)
  {
    hide WrapInt64;
    WrapDoubles(Power2(k - 1) * x);
    assert Power2(k) * x == Power2(k - 1) * x + Power2(k - 1) * x;
    assert k == 1 ==> Power2(k - 1) * x == x;
  }

  lemma WrapDoubles(x: int)
    ensures WrapInt64(WrapInt64(x) + WrapInt64(x)) == WrapInt64(x + x)
  {
    var q := WrapShifts(x);
    ModShift(x + x + 0x8000_0000_0000_0000, -2 * q, 0x1_0000_0000_0000_0000);
  }

  lemma WrapShifts(y: int) returns (q: int)
    ensures WrapInt64(y) == y - q * 0x1_0000_0000_0000_0000
  {
    q := (y + 0x8000_0000_0000_0000) / 0x1_0000_0000_0000_0000;
  }

  lemma Power2Next(k: nat)
    requires k > 0
    ensures Power2(k) == 2 * Power2(k - 1)
  {
  }

  lemma OddBelow(k: nat)
    requires k > 0
    ensures (Power2(k) - 1) % 2 == 1
  {
    hide Power2;
    var h := Power2(k - 1);
    Power2Next(k);
    RemainderUnique(Power2(k) - 1, 2, h - 1, 1);
  }

  /** Doubling changes a 64-bit integer unless it is zero. */
  lemma DoublingFixesZeroOnly(x: int, k: nat)
    requires k > 0 && WrapInt64(Power2(k) * x) == x
    ensures x == 0
  {
    hide WrapInt64, Power2;
    var q := WrapShifts(Power2(k) * x);
    assert (Power2(k) - 1) * x == q * 0x1_0000_0000_0000_0000;
    OddBelow(k);
    Power2Of64();
    var z := OddCancels(Power2(k) - 1, x, q, 64);
  }

  lemma Power2Of64()
    ensures Power2(64) == 0x1_0000_0000_0000_0000
  {
    hide Power2;
    Power2Of1();
    Power2Adds(1, 1);
    Power2Adds(2, 2);
    Power2Adds(4, 4);
    Power2Adds(8, 8);
    Power2Adds(16, 16);
    Power2Adds(32, 32);
  }

  lemma Power2Of1()
    ensures Power2(1) == 2
  {
    assert Power2(0) == 1;
  }

  lemma {:induction false} Power2Adds(a: nat, b: nat)
    ensures Power2(a + b) == Power2(a) * Power2(b)
  {
    if a > 0 {
      Power2Adds(a - 1, b);
      assert Power2(a) * Power2(b) == 2 * (Power2(a - 1) * Power2(b));
    }
  }

  /** Doubled fields are the fields exactly when there was no doubling, or every integer among them is zero. */
  lemma DoubledIsSame(fields: Fields, k: nat)
    ensures Doubled(fields, k) == fields <==>
            k == 0 || forall n :: n in fields && fields[n].kind == IntField ==> fields[n] == IntValue(0)
  {
    hide Doubled, WrapInt64;
    NotDoubled(fields);
    forall n | n in fields
      ensures Doubled(fields, k).Keys == fields.Keys
      ensures Doubled(fields, k)[n] == fields[n] <==> k == 0 || fields[n].kind != IntField || fields[n] == IntValue(0)
    {
      DoubledField(fields, k, n);
      DoubledInteger(fields[n], k);
    }
    if fields == map[] {
      DoubledEmpty(k);
    }
  }

  lemma NotDoubled(fields: Fields)
    ensures Doubled(fields, 0) == fields
  {
  }

  lemma {:induction false} DoubledEmpty(k: nat)
    ensures Doubled(map[], k) == map[]
  {
    if k > 0 {
      DoubledEmpty(k - 1);
    }
  }

  lemma DoubledInteger(v: FeatureValue, k: nat)
    ensures k > 0 ==> (IntValue(WrapInt64(Power2(k) * v.num)) == v <==> v == IntValue(0))
  {
    if k > 0 && IntValue(WrapInt64(Power2(k) * v.num)) == v {
      DoublingFixesZeroOnly(v.num, k);
    }
    assert Power2(k) * 0 == 0;
  }

  /**
   A Run leaves a due entity with its row added once exactly when the plan names it once, or the fields
   stored hold no integer but zero. Every later position adds the updated row to itself; further rows of
   the entity are never read.
   */
  lemma RunAddsOnce(a: Attempt, order: seq<Key>, job: Job, key: Key)
    requires Covers(a.rows, order) && !job.retry && Planned(order, |order|, key) && Due(a, key, job)
    ensures var e, fields := Lookup(Steps(a, order, |order|, job).live, key), Stored(a, key);
            && e.Some? && e.value.fields == Doubled(fields, Times(order, |order|, key) - 1)
            && (e.value.fields == fields <==>
                  Times(order, |order|, key) == 1 || forall n :: n in fields && fields[n].kind == IntField ==> fields[n] == IntValue(0))
  {
    hide Steps, Doubled, Due, Planned, Accumulated;
    ClosedForm(a, order, |order|, job, key);
    DoubledIsSame(Stored(a, key), Times(order, |order|, key) - 1);
  }

  /** How many of the first n positions name a due entity. */
  ghost function DuePositions(a: Attempt, order: seq<Key>, n: nat, job: Job): nat
    requires n <= |order|
  {
    if n == 0 then 0 else DuePositions(a, order, n - 1, job) + if Due(a, order[n - 1], job) then 1 else 0
  }

  /** A Run counts one write for each position that names a due entity. */
  lemma {:induction false} RunCountsPositions(a: Attempt, order: seq<Key>, n: nat, job: Job)
    requires n <= |order| && Covers(a.rows, order) && !job.retry
    ensures Steps(a, order, n, job).written == a.written + DuePositions(a, order, n, job)
  {
    hide Step, Due, Closed, RowFor;
    if n > 0 {
      var b, k := Steps(a, order, n - 1, job), order[n - 1];
      RunCountsPositions(a, order, n - 1, job);
      ClosedForm(a, order, n - 1, job, k);
      StillDue(a, order, n, job, b);
      SameRowFor(a.rows, b.rows, k);
      CountedIfDue(b, k, n - 1, job);
    }
  }

  /**
   Two rows of an entity that is not stored: the first is stored twice over, the second never read, and two writes are
   counted.
   */
  lemma RunOverTwoRows(key: Key, first: int, second: int, job: Job)
    requires !job.retry
    ensures var a := Attempt(map[], map[], OneRow(key, first) + OneRow(key, second), 0);
            var b := Steps(a, [key, key], 2, job);
            && Lookup(b.live, key) == Some(EntryValue(map["n" := IntValue(WrapInt64(first + first))], job.versionID, job.clock(1)))
            && b.written == 2
  {
    hide Steps, Rank, WrapInt64, Doubled;
    var a := Attempt(map[], map[], OneRow(key, first) + OneRow(key, second), 0);
    var order := [key, key];
    assert RowFor(a.rows, key) == 0;
    ClosedForm(a, order, 2, job, key);
    RunCountsPositions(a, order, 2, job);
    assert Times(order, 1, key) == 1 && Times(order, 2, key) == 2 && DuePositions(a, order, 1, job) == 1;
    DoubledField(Stored(a, key), 1, "n");
    assert Power2(1) == 2 && Power2(1) * first == first + first;
    assert Doubled(Stored(a, key), 1) == map["n" := IntValue(WrapInt64(first + first))];
  }

  /**
   Run registers nothing, so a Retry after it adds every due row once more, onto what the Run left: the
   row added once for each position of the plan, doubling.
   */
  lemma RunThenRetryAddsTwice(a: Attempt, order: seq<Key>, job: Job, clock: nat -> int, key: Key)
    requires Covers(a.rows, order) && !job.retry
    requires Planned(order, |order|, key) && Due(a, key, job) && !Committed(a.done, job.task, key, job.signature)
    ensures var b := Steps(a, order, |order|, job);
            var c := Steps(Again(b, a.rows), order, |order|, job.(retry := true, clock := clock));
            var left := Lookup(b.live, key);
            && left.Some? && left.value.fields == Doubled(Stored(a, key), Times(order, |order|, key) - 1)
            && Lookup(c.live, key).Some?
            && Lookup(c.live, key).value.fields == Accumulated(left, FieldsFor(a.rows, key))
  {
    hide Steps, Doubled, Accumulated, Planned, RowFor, Due, Closed, Committed;
    var b := Steps(a, order, |order|, job);
    RunMarksNothing(a, order, |order|, job);
    ClosedForm(a, order, |order|, job, key);
    RunLeaves(a, order, job, key, b);
    AgainCovers(a, order, b);
    AdmittedAgain(a, order, job, key, b, clock);
    RetryAdds(Again(b, a.rows), order, job.(retry := true, clock := clock), key);
  }

  lemma RunLeaves(a: Attempt, order: seq<Key>, job: Job, key: Key, b: Attempt)
    requires !job.retry && Planned(order, |order|, key) && Due(a, key, job) && Closed(a, order, |order|, job, key, b)
    ensures var left := Lookup(b.live, key);
            left.Some? && left.value.fields == Doubled(Stored(a, key), Times(order, |order|, key) - 1)
  {
    hide Doubled, Accumulated, Planned, RowFor, Due;
  }

  /** A Retry adds the row of a due planned entity once. */
  lemma RetryAdds(a: Attempt, order: seq<Key>, job: Job, key: Key)
    requires Covers(a.rows, order) && job.retry && Planned(order, |order|, key) && Due(a, key, job)
    ensures var e := Lookup(Steps(a, order, |order|, job).live, key);
            e.Some? && e.value.fields == Accumulated(Lookup(a.live, key), FieldsFor(a.rows, key))
  {
    hide Steps, Accumulated, Planned, RowFor, Due, Doubled;
    ClosedForm(a, order, |order|, job, key);
  }

  lemma AgainCovers(a: Attempt, order: seq<Key>, b: Attempt)
    requires Covers(a.rows, order)
    ensures Covers(Again(b, a.rows).rows, order)
  {
  }

  lemma AdmittedAgain(a: Attempt, order: seq<Key>, job: Job, key: Key, b: Attempt, clock: nat -> int)
    requires !job.retry && Planned(order, |order|, key) && Due(a, key, job) && Closed(a, order, |order|, job, key, b)
    requires b.done == a.done && !Committed(a.done, job.task, key, job.signature)
    ensures Due(Again(b, a.rows), key, job.(retry := true, clock := clock))
  {
    hide Rank, Doubled, Accumulated, Committed;
  }

  lemma {:induction false} RunMarksNothing(a: Attempt, order: seq<Key>, n: nat, job: Job)
    requires n <= |order| && Covers(a.rows, order) && !job.retry
    ensures Steps(a, order, n, job).done == a.done
  {
    hide RowFor, Accumulated, Admits;
    if n > 0 {
      RunMarksNothing(a, order, n - 1, job);
      var b := Steps(a, order, n - 1, job);
      SameRowFor(a.rows, b.rows, order[n - 1]);
      assert Step(b, order[n - 1], n - 1, job).done == b.done;
    }
  }

  ghost predicate RankKept(live: Live, later: Live, k: Key) {
    k in live ==> k in later && Rank(later[k].versionID) >= Rank(live[k].versionID)
  }

  /**
   One step lowers the rank of a stored version exactly when the stored version has no name, which the
   guard never holds against a write, and the written one's rank has wrapped around to below zero.
   */
  lemma StepRankExact(a: Attempt, key: Key, j: nat, job: Job, k: Key)
    requires RowFor(a.rows, key) >= 0
    ensures RankKept(a.live, Step(a, key, j, job).live, k) <==>
            !(k == key && k in a.live && Due(a, key, job) && a.live[k].versionID == "" && Rank(job.versionID) < 0)
  {
    hide Rank;
    NoName();
    RowForIsFirst(a.rows, key);
  }

  lemma NoName()
    ensures Rank("") == 0
  {
  }

  /** The call writes, under a name whose rank has wrapped to below zero, over an entry stored without one. */
  predicate Lowers(a: Attempt, order: seq<Key>, n: nat, job: Job, k: Key)
    requires n <= |order|
  {
    k in a.live && a.live[k].versionID == "" && Rank(job.versionID) < 0 && Planned(order, n, k) && Due(a, k, job)
  }

  /** One Run or Retry, complete or cut short, keeps the rank of a stored version exactly when it does not do that. */
  lemma StepsKeepRanks(a: Attempt, order: seq<Key>, n: nat, job: Job, k: Key)
    requires n <= |order| && Covers(a.rows, order)
    ensures RankKept(a.live, Steps(a, order, n, job).live, k) <==> !Lowers(a, order, n, job, k)
  {
    hide Rank, Steps, Planned, Doubled, Accumulated, Covers;
    NoName();
    ClosedForm(a, order, n, job, k);
  }

  /** One Run or Retry call: its rows, how far its plan got, and its job. */
  datatype Session = Session(rows: seq<Result>, order: seq<Key>, n: nat, job: Job)

  predicate SessionOK(s: Session) {
    s.n <= |s.order| && Covers(s.rows, s.order)
  }

  predicate SessionsOK(calls: seq<Session>) {
    forall i :: 0 <= i < |calls| ==> SessionOK(calls[i])
  }

  function Sessions(live: Live, done: Done, calls: seq<Session>): Attempt
    requires SessionsOK(calls)
  {
    if calls == [] then Attempt(live, done, [], 0)
    else
      assert SessionOK(calls[|calls| - 1]);
      Next(Sessions(live, done, calls[..|calls| - 1]), calls[|calls| - 1])
  }

  /** The next call starts on its own rows. */
  function Next(b: Attempt, s: Session): Attempt
    requires SessionOK(s)
  {
    Steps(Attempt(b.live, b.done, s.rows, 0), s.order, s.n, s.job)
  }

  predicate SessionLowers(b: Attempt, s: Session, k: Key)
    requires SessionOK(s)
  {
    Lowers(Attempt(b.live, b.done, s.rows, 0), s.order, s.n, s.job, k)
  }

  lemma {:induction false} RanksKeptBetween(live: Live, done: Done, calls: seq<Session>, k: Key, i: nat, j: nat)
    requires SessionsOK(calls) && i <= j <= |calls|
    requires forall m :: 0 <= m < |calls| ==> !SessionLowers(Sessions(live, done, calls[..m]), calls[m], k)
    ensures RankKept(Sessions(live, done, calls[..i]).live, Sessions(live, done, calls[..j]).live, k)
    decreases j - i
  {
    hide Lowers, Steps, Rank, Covers;
    if i < j {
      RanksKeptBetween(live, done, calls, k, i, j - 1);
      OneSession(live, done, calls, k, j - 1);
    }
  }

  lemma OneSession(live: Live, done: Done, calls: seq<Session>, k: Key, m: nat)
    requires SessionsOK(calls) && m < |calls|
    ensures RankKept(Sessions(live, done, calls[..m]).live, Sessions(live, done, calls[..m + 1]).live, k) <==>
            !SessionLowers(Sessions(live, done, calls[..m]), calls[m], k)
  {
    hide Lowers, Steps, Rank, Covers, RankKept;
    assert calls[..m + 1][..m] == calls[..m] && SessionOK(calls[m]);
    var b := Sessions(live, done, calls[..m]);
    StepsKeepRanks(Attempt(b.live, b.done, calls[m].rows, 0), calls[m].order, calls[m].n, calls[m].job, k);
  }

  /**
   Over any sequence of Run and Retry calls, complete or cut short and with any versions, the rank of a
   stored version never decreases exactly when no call writes a wrapped rank over an unnamed version.
   */
  lemma BackfillsKeepRanks(live: Live, done: Done, calls: seq<Session>, k: Key)
    requires SessionsOK(calls)
    ensures (forall i, j :: 0 <= i <= j <= |calls| ==>
               RankKept(Sessions(live, done, calls[..i]).live, Sessions(live, done, calls[..j]).live, k))
            <==> (forall m :: 0 <= m < |calls| ==> !SessionLowers(Sessions(live, done, calls[..m]), calls[m], k))
  {
    hide Lowers, Sessions, RankKept, SessionLowers;
    if forall m :: 0 <= m < |calls| ==> !SessionLowers(Sessions(live, done, calls[..m]), calls[m], k) {
      forall i, j | 0 <= i <= j <= |calls|
        ensures RankKept(Sessions(live, done, calls[..i]).live, Sessions(live, done, calls[..j]).live, k)
      {
        RanksKeptBetween(live, done, calls, k, i, j);
      }
    } else {
      var m :| 0 <= m < |calls| && SessionLowers(Sessions(live, done, calls[..m]), calls[m], k);
      OneSession(live, done, calls, k, m);
      assert 0 <= m <= m + 1 <= |calls|;
    }
  }

  /** A version whose digits read backwards are 2^63, written over an entry stored without a version. */
  lemma WrappedOverUnnamed(key: Key, table: string, retry: bool, task: string, clock: nat -> int)
    ensures var a := Attempt(map[key := EntryValue(map[], "", ZERO_TIME)], map[], OneRow(key, 1), 0);
            var b := Steps(a, [key], 1, Job(retry, task, "", Wrapping(table), clock));
            && key in b.live && Rank(a.live[key].versionID) == 0 && Rank(b.live[key].versionID) == -0x8000_0000_0000_0000
            && !RankKept(a.live, b.live, key)
  {
    hide Rank, Wrapping, Steps, Committed, Doubled;
    NoName();
    WrappingRanksBelowZero(table);
    var a := Attempt(map[key := EntryValue(map[], "", ZERO_TIME)], map[], OneRow(key, 1), 0);
    assert RowFor(a.rows, key) == 0;
    NoneCommitted(task, key);
    assert [key][..1] == [key];
    ClosedForm(a, [key], 1, Job(retry, task, "", Wrapping(table), clock), key);
  }

  lemma NoneCommitted(task: string, key: Key)
    ensures !Committed(map[], task, key, "")
  {
  }

  /**
   One position of a Run or a Retry in ranks: a row is written exactly if no earlier attempt committed it and nothing is
   stored for its entity, or a version without a name, or one of no higher rank.
   */
  lemma StepInRanks(a: Attempt, key: Key, j: nat, job: Job)
    requires RowFor(a.rows, key) >= 0
    ensures var b, e, fields := Step(a, key, j, job), Lookup(a.live, key), a.rows[RowFor(a.rows, key)].fields;
            var written := !(job.retry && Committed(a.done, job.task, key, job.signature))
                           && (e.None? || e.value.versionID == "" || Rank(e.value.versionID) <= Rank(job.versionID));
            && b.written == a.written + (if written then 1 else 0)
            && b.live == (if written then a.live[key := EntryValue(Accumulated(e, fields), job.versionID, job.clock(j))] else a.live)
            && b.done == if written && job.retry then Marked(a.done, job.task, key, job.signature) else a.done
  {
    hide Admits, Accumulated, Committed, Marked, RowFor, Rank;
    RowForIsFirst(a.rows, key);
    AdmitsInRanks(Lookup(a.live, key), job.versionID);
  }

  /** Among the first nine versions: a row of version b over an entry of version c is written exactly if c is no later. */
  lemma StepInOrder(a: Attempt, key: Key, j: nat, job: Job, t: string, c: nat, u: string, b: nat)
    requires RowFor(a.rows, key) >= 0 && key in a.live && a.live[key].versionID == Versions.Mint(t, c) && job.versionID == Versions.Mint(u, b)
    requires 1 <= b <= 9 && 1 <= c <= 9 && !(job.retry && Committed(a.done, job.task, key, job.signature))
    ensures Step(a, key, j, job).written == a.written + (if c <= b then 1 else 0)
    ensures c <= b ==> key in Step(a, key, j, job).live && Step(a, key, j, job).live[key].versionID == Versions.Mint(u, b)
    ensures c > b ==> Step(a, key, j, job).live == a.live
  {
    hide Step, Rank, Versions.Mint, Committed, Accumulated;
    StepInRanks(a, key, j, job);
    SmallRank(t, c);
    SmallRank(u, b);
  }

  function FieldSize(name: string, v: FeatureValue): nat {
    |name| + |Show(v)|
  }

  /** The size of a field map, summed in some order. */
  ghost function FieldsSize(f: Fields): nat
    decreases |f|
  {
    if f == map[] then 0
    else
      var n :| n in f;
      FieldSize(n, f[n]) + FieldsSize(f - {n})
  }

  /** The order in which a map is ranged over does not matter. */
  lemma {:induction false} FieldsSizeAnyOrder(f: Fields, n: string)
    requires n in f
    ensures FieldsSize(f) == FieldSize(n, f[n]) + FieldsSize(f - {n})
    decreases |f|
  {
    var m :| m in f && FieldsSize(f) == FieldSize(m, f[m]) + FieldsSize(f - {m});
    if m != n {
      FieldsSizeAnyOrder(f - {m}, n);
      FieldsSizeAnyOrder(f - {n}, m);
      assert f - {m} - {n} == f - {n} - {m};
    }
  }

  /** Each field adds the length of its name and of its printed value to the total. */
  lemma FieldsSizePrinted(f: Fields, n: string, s: string)
    requires n in f && PrintsAs(Some(f[n]), s)
    ensures FieldsSize(f) == |n| + |s| + FieldsSize(f - {n}) && FieldsSize(map[]) == 0
  {
    hide Show, PrintsAs;
    ShowPrints(f[n], s);
    FieldsSizeAnyOrder(f, n);
  }

  ghost function RowsSize(rows: seq<Result>): nat {
    if rows == [] then 0 else RowsSize(rows[..|rows| - 1]) + FieldsSize(rows[|rows| - 1].fields)
  }

  lemma RowsSizeSnoc(rows: seq<Result>, row: Result)
    ensures RowsSize(rows + [row]) == RowsSize(rows) + FieldsSize(row.fields)
  {
  }

  lemma {:induction false} RowsSizeSplit(rows: seq<Result>, i: nat)
    requires i < |rows|
    ensures RowsSize(rows) == RowsSize(rows[..i] + rows[i + 1..]) + FieldsSize(rows[i].fields)
  {
    var n := |rows| - 1;
    var front, last := rows[..n], rows[n];
    assert rows == front + [last];
    RowsSizeSnoc(front, last);
    if i == n {
      assert rows[..i] + rows[i + 1..] == front;
    } else {
      RowsSizeSplit(front, i);
      RowsSizeSnoc(front[..i] + front[i + 1..], last);
      assert rows[..i] + rows[i + 1..] == front[..i] + front[i + 1..] + [last];
    }
  }

  /** The fingerprint total is the same for every order of the rows. */
  lemma {:induction false} RowsSizeAnyOrder(rows: seq<Result>, other: seq<Result>)
    requires multiset(rows) == multiset(other)
    ensures RowsSize(rows) == RowsSize(other)
  {
    assert |multiset(rows)| == |rows| && |multiset(other)| == |other|;
    if rows != [] {
      var n := |rows| - 1;
      assert rows[n] in multiset(rows);
      assert rows[n] in other;
      var i :| 0 <= i < |other| && other[i] == rows[n];
      assert rows == rows[..n] + [rows[n]];
      assert other == other[..i] + [other[i]] + other[i + 1..];
      RowsSizeSplit(other, i);
      assert multiset(rows[..n]) == multiset(rows) - multiset{rows[n]};
      assert multiset(other[..i] + other[i + 1..]) == multiset(other) - multiset{rows[n]};
      RowsSizeAnyOrder(rows[..n], other[..i] + other[i + 1..]);
    }
  }

  /**
   Retrying on the very rows a Retry has updated recognises its own commits exactly when the updates
   left the fingerprint total unchanged.
   */
  lemma UpdatedRowsRecognised(a: Attempt, order: seq<Key>, job: Job, key: Key)
    requires Covers(a.rows, order) && job.retry && job.signature == FmtSignature(job.task, RowsSize(a.rows))
    requires Planned(order, |order|, key) && Due(a, key, job)
    ensures var b := Steps(a, order, |order|, job);
            Committed(b.done, job.task, key, FmtSignature(job.task, RowsSize(b.rows))) <==> RowsSize(b.rows) == RowsSize(a.rows)
  {
    var b := Steps(a, order, |order|, job);
    ClosedForm(a, order, |order|, job, key);
    SignatureInjective(job.task, RowsSize(b.rows), job.task, RowsSize(a.rows));
  }

  /** One row adding v to a field n. */
  function OneRow(key: Key, v: int): seq<Result> {
    [Result(key, map["n" := IntValue(v)])]
  }

  lemma OneRowSize(key: Key, v: nat)
    ensures RowsSize(OneRow(key, v)) == 1 + |Decimal(v)|
  {
    var rows, fields := OneRow(key, v), map["n" := IntValue(v)];
    FieldsSizeAnyOrder(fields, "n");
    assert fields - {"n"} == map[];
    assert rows[..0] == [];
  }

  /** Nine over a stored one gives ten; retried on the updated row map, which prints longer, it gives twenty. */
  lemma UpdatedRowsAddAgain(key: Key, task: string, versionID: string, clock: nat -> int)
    ensures var a := Attempt(map[key := EntryValue(map["n" := IntValue(1)], versionID, 0)], map[], OneRow(key, 9), 0);
            var b := Steps(a, [key], 1, Job(true, task, FmtSignature(task, RowsSize(a.rows)), versionID, clock));
            var c := Steps(b, [key], 1, Job(true, task, FmtSignature(task, RowsSize(b.rows)), versionID, clock));
            && b.rows == OneRow(key, 10)
            && Lookup(b.live, key) == Some(EntryValue(map["n" := IntValue(10)], versionID, clock(0)))
            && Lookup(c.live, key) == Some(EntryValue(map["n" := IntValue(20)], versionID, clock(0)))
  {
    hide RowsSize, FmtSignature, ResultKey, Rank;
    OneRowSize(key, 9);
    OneRowSize(key, 10);
    assert Decimal(10) == Decimal(1) + [DigitChar(0)];
    SignatureInjective(task, RowsSize(OneRow(key, 9)), task, RowsSize(OneRow(key, 10)));
    var first, second := FmtSignature(task, RowsSize(OneRow(key, 9))), FmtSignature(task, RowsSize(OneRow(key, 10)));
    OneRowStep(key, 1, 0, 9, map[], 0, Job(true, task, first, versionID, clock));
    OneRowStep(key, 10, clock(0), 10, Marked(map[], task, key, first), 1, Job(true, task, second, versionID, clock));
  }

  /** One additive step of a Retry over one row. */
  lemma OneRowStep(key: Key, stored: nat, at: int, added: nat, done: Done, written: nat, job: Job)
    requires stored < 100 && added < 100 && job.retry && !Committed(done, job.task, key, job.signature)
    ensures var a := Attempt(map[key := EntryValue(map["n" := IntValue(stored)], job.versionID, at)], done, OneRow(key, added), written);
            Steps(a, [key], 1, job) ==
              Attempt(map[key := EntryValue(map["n" := IntValue(stored + added)], job.versionID, job.clock(0))],
                      Marked(done, job.task, key, job.signature), OneRow(key, stored + added), written + 1)
  {
    hide Rank, Committed, Marked;
    var a := Attempt(map[key := EntryValue(map["n" := IntValue(stored)], job.versionID, at)], done, OneRow(key, added), written);
    assert Steps(a, [key], 0, job) == a && RowFor(a.rows, key) == 0;
    var fields := Accumulated(Lookup(a.live, key), a.rows[0].fields);
    assert fields == map["n" := IntValue(stored + added)];
    assert Written(a, 0, job.versionID, job.clock(0)).rows == OneRow(key, stored + added);
  }
}
