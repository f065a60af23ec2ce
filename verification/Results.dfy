/** The registry of committed results that makes a retry skip what an earlier attempt wrote. */
module Results {
  import opened Text
  import opened Model

  type Done = map<string, string>

  function ResultKey(task: string, entity: Key): string {
    task + ":" + entity
  }

  function FmtSignature(task: string, total: nat): string {
    task + "#" + Decimal(total)
  }

  function Marked(done: Done, task: string, entity: Key, signature: string): Done {
    done[ResultKey(task, entity) := signature]
  }

  predicate Committed(done: Done, task: string, entity: Key, signature: string) {
    ResultKey(task, entity) in done && done[ResultKey(task, entity)] == signature
  }

  /** The string key alone is ambiguous: a task name may continue into the entity across a ':'. */
  lemma ResultKeyCollision(t: string, e: Key, u: string, f: Key)
    ensures ResultKey(t, e) == ResultKey(u, f) <==>
            (t == u && e == f)
            || (exists x :: u == t + ":" + x && e == x + ":" + f)
            || (exists x :: t == u + ":" + x && f == x + ":" + e)
  {
    JoinCollision(t, e, u, f, ':');
  }

  lemma SignatureInjective(t: string, m: nat, u: string, n: nat)
    ensures FmtSignature(t, m) == FmtSignature(u, n) <==> t == u && m == n
  {
    if FmtSignature(t, m) == FmtSignature(u, n) {
      NumberedTextInjective(t + "#", m, u + "#", n);
      assert t == (t + "#")[..|t|] && u == (u + "#")[..|u|];
    }
  }

  lemma SameTaskKey(t: string, e: Key, f: Key)
    requires ResultKey(t, e) == ResultKey(t, f)
    ensures e == f
  {
    assert e == ResultKey(t, e)[|t| + 1..] && f == ResultKey(t, f)[|t| + 1..];
  }

  datatype Mark = Mark(task: string, entity: Key, total: nat)

  function AfterMarks(marks: seq<Mark>): Done {
    if marks == [] then map[]
    else
      var m := marks[|marks| - 1];
      Marked(AfterMarks(marks[..|marks| - 1]), m.task, m.entity, FmtSignature(m.task, m.total))
  }

  /** The last mark made under a string key. */
  function LastMark(marks: seq<Mark>, key: string): Option<Mark> {
    if marks == [] then None
    else if ResultKey(marks[|marks| - 1].task, marks[|marks| - 1].entity) == key then Some(marks[|marks| - 1])
    else LastMark(marks[..|marks| - 1], key)
  }

  lemma {:induction false} DoneIsLastMark(marks: seq<Mark>, key: string)
    ensures var last := LastMark(marks, key);
            if last == None then key !in AfterMarks(marks)
            else key in AfterMarks(marks) && AfterMarks(marks)[key] == FmtSignature(last.value.task, last.value.total)
                 && ResultKey(last.value.task, last.value.entity) == key
  {
    if marks != [] {
      DoneIsLastMark(marks[..|marks| - 1], key);
    }
  }

  /**
   After any history of marks, the registry answers "committed" for a task, entity and total exactly
   when the last mark under their string key is that very one: never for another task or entity,
   though a colliding mark makes it forget.
   */
  lemma CommittedIsLastMark(marks: seq<Mark>, task: string, entity: Key, total: nat)
    ensures Committed(AfterMarks(marks), task, entity, FmtSignature(task, total)) <==>
            LastMark(marks, ResultKey(task, entity)) == Some(Mark(task, entity, total))
  {
    var key := ResultKey(task, entity);
    DoneIsLastMark(marks, key);
    var last := LastMark(marks, key);
    if last.Some? {
      SignatureInjective(last.value.task, last.value.total, task, total);
      if last.value.task == task {
        SameTaskKey(task, last.value.entity, entity);
      }
    }
  }

  class CommittedResults {
    var done: Done

    constructor ()
      ensures done == map[]
    {
      done := map[];
    }

    method MarkCommitted(task: string, entity: Key, signature: string)
      modifies this
      ensures done == Marked(old(done), task, entity, signature)
    {
      done := done[ResultKey(task, entity) := signature];
    }

    method IsCommitted(task: string, entity: Key, signature: string) returns (r: bool)
      ensures r == Committed(done, task, entity, signature)
    {
      var key := ResultKey(task, entity);
      if key !in done {
        return false;
      }
      r := done[key] == signature;
    }
  }
}
