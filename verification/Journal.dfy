/** The write journal an import rolls back from. */
module Journals {
  import opened Model

  /** One journaled write: before is the prior entry, as a value or as a reference to a detached copy. */
  datatype Op<+B> = Op(batch: string, segment: nat, key: Key, before: B)

  type OpValue = Op<Option<EntryValue>>

  /** The operations of one batch, in append order. */
  function OpsOf<B>(ops: seq<Op<B>>, batch: string): seq<Op<B>> {
    if ops == [] then []
    else OpsOf(ops[..|ops| - 1], batch) + (if ops[|ops| - 1].batch == batch then [ops[|ops| - 1]] else [])
  }

  /** What clearing a batch leaves, in append order. */
  function Without<B>(ops: seq<Op<B>>, batch: string): (r: seq<Op<B>>)
    ensures |r| <= |ops|
  {
    if ops == [] then []
    else Without(ops[..|ops| - 1], batch) + (if ops[|ops| - 1].batch != batch then [ops[|ops| - 1]] else [])
  }

  /** The positions of a key's operations. */
  function Positions(ops: seq<OpValue>, key: Key): seq<nat> {
    if ops == [] then []
    else Positions(ops[..|ops| - 1], key) + (if ops[|ops| - 1].key == key then [|ops| - 1] else [])
  }

  /** The position index, built operation by operation. */
  function Index(ops: seq<OpValue>): map<Key, seq<nat>> {
    if ops == [] then map[] else Indexed(Index(ops[..|ops| - 1]), ops[|ops| - 1].key, |ops| - 1)
  }

  function Indexed(index: map<Key, seq<nat>>, key: Key, position: nat): map<Key, seq<nat>> {
    index[key := (if key in index then index[key] else []) + [position]]
  }

  /** The before-state of the key's last operation. */
  function LastBefore(ops: seq<OpValue>, key: Key): Option<EntryValue> {
    if ops == [] then None
    else if ops[|ops| - 1].key == key then ops[|ops| - 1].before
    else LastBefore(ops[..|ops| - 1], key)
  }

  lemma {:induction false} PositionsExact(ops: seq<OpValue>, key: Key)
    ensures forall i :: i in Positions(ops, key) <==> 0 <= i < |ops| && ops[i].key == key
  {
    if ops != [] {
      PositionsExact(ops[..|ops| - 1], key);
    }
  }

  lemma {:induction false} PositionsIncrease(ops: seq<OpValue>, key: Key)
    ensures forall a, b :: 0 <= a < b < |Positions(ops, key)| ==> Positions(ops, key)[a] < Positions(ops, key)[b]
  {
    if ops != [] {
      var front := ops[..|ops| - 1];
      var p := Positions(front, key);
      PositionsIncrease(front, key);
      PositionsExact(front, key);
      var q := Positions(ops, key);
      assert q == p + (if ops[|ops| - 1].key == key then [|front|] else []);
      forall a, b | 0 <= a < b < |q| ensures q[a] < q[b] {
        var i := p[a];
        assert i in p && i < |front|;
        assert b < |p| ==> p[a] < p[b];
      }
    }
  }

  /** The last position of a key holds the before-state the key was last journaled with. */
  lemma {:induction false} LastIndexed(ops: seq<OpValue>, key: Key)
    ensures var p := Positions(ops, key);
            if p == [] then LastBefore(ops, key) == None
            else p[|p| - 1] < |ops| && LastBefore(ops, key) == ops[p[|p| - 1]].before
  {
    if ops != [] && ops[|ops| - 1].key != key {
      LastIndexed(ops[..|ops| - 1], key);
    }
  }

  lemma IndexNext(ops: seq<OpValue>, op: OpValue)
    ensures Index(ops + [op]) == Indexed(Index(ops), op.key, |ops|)
  {
  }

  /** The index holds exactly the journaled keys, each with its own positions. */
  lemma {:induction false} IndexExact(ops: seq<OpValue>, key: Key)
    ensures if key in Index(ops) then Index(ops)[key] == Positions(ops, key) != [] else Positions(ops, key) == []
  {
    if ops != [] {
      IndexExact(ops[..|ops| - 1], key);
    }
  }

  lemma {:induction false} OpsOfConcat(a: seq<OpValue>, b: seq<OpValue>, batch: string)
    ensures OpsOf(a + b, batch) == OpsOf(a, batch) + OpsOf(b, batch)
  {
    if b == [] {
      assert a + b == a;
    } else {
      OpsOfConcat(a, b[..|b| - 1], batch);
      assert (a + b)[..|a + b| - 1] == a + b[..|b| - 1];
    }
  }

  lemma {:induction false} WithoutConcat(a: seq<OpValue>, b: seq<OpValue>, batch: string)
    ensures Without(a + b, batch) == Without(a, batch) + Without(b, batch)
  {
    if b == [] {
      assert a + b == a;
    } else {
      WithoutConcat(a, b[..|b| - 1], batch);
      assert (a + b)[..|a + b| - 1] == a + b[..|b| - 1];
    }
  }

  ghost predicate NoneOf(ops: seq<OpValue>, batch: string) {
    forall i :: 0 <= i < |ops| ==> ops[i].batch != batch
  }

  lemma {:induction false} OpsOfForeign(ops: seq<OpValue>, batch: string)
    requires NoneOf(ops, batch)
    ensures OpsOf(ops, batch) == [] && Without(ops, batch) == ops
  {
    if ops != [] {
      OpsOfForeign(ops[..|ops| - 1], batch);
      assert ops == ops[..|ops| - 1] + [ops[|ops| - 1]];
    }
  }

  lemma {:induction false} OpsOfOwn(ops: seq<OpValue>, batch: string)
    requires forall i :: 0 <= i < |ops| ==> ops[i].batch == batch
    ensures OpsOf(ops, batch) == ops && Without(ops, batch) == []
  {
    if ops != [] {
      OpsOfOwn(ops[..|ops| - 1], batch);
    }
  }

  /** Clearing a batch leaves no operation of it and every operation of the others. */
  lemma {:induction false} WithoutSplits(ops: seq<OpValue>, batch: string, other: string)
    ensures OpsOf(Without(ops, batch), other) == if other == batch then [] else OpsOf(ops, other)
  {
    if ops != [] {
      var front, last := ops[..|ops| - 1], ops[|ops| - 1];
      WithoutSplits(front, batch, other);
      if last.batch == batch {
        assert Without(ops, batch) == Without(front, batch);
      } else {
        OpsOfConcat(Without(front, batch), [last], other);
        assert [last][..0] == [];
        assert OpsOf([last], other) == if last.batch == other then [last] else [];
      }
    }
  }

  type JournalOp = Op<Entry?>

  ghost function BeforeValue(op: JournalOp): Option<EntryValue>
    reads op.before, if op.before == null then {} else {op.before.fields}
  {
    if op.before == null then None else Some(op.before.Value())
  }

  /** The stored operation reads as v; its before-image is a detached copy among the given objects. */
  ghost predicate Stored(op: JournalOp, v: OpValue, copies: set<Entry>, maps: set<FieldMap>)
    reads op.before, if op.before == null then {} else {op.before.fields}
  {
    && op.batch == v.batch && op.segment == v.segment && op.key == v.key
    && (if op.before == null then v.before == None
        else && op.before in copies && op.before.fields in maps
             && op.before.place == op.before.fields.place == Detached && v.before == Some(op.before.Value()))
  }

  ghost predicate AllStored(ops: seq<JournalOp>, vals: seq<OpValue>, copies: set<Entry>, maps: set<FieldMap>)
    reads set i | 0 <= i < |ops| && ops[i].before != null :: ops[i].before
    reads set i | 0 <= i < |ops| && ops[i].before != null :: ops[i].before.fields
  {
    |ops| == |vals| && forall i :: 0 <= i < |ops| ==> Stored(ops[i], vals[i], copies, maps)
  }

  /** Filtering references and filtering values agree. */
  lemma {:induction false} FiltersAgree(ops: seq<JournalOp>, vals: seq<OpValue>, batch: string, copies: set<Entry>, maps: set<FieldMap>)
    requires AllStored(ops, vals, copies, maps)
    ensures AllStored(OpsOf(ops, batch), OpsOf(vals, batch), copies, maps)
    ensures AllStored(Without(ops, batch), Without(vals, batch), copies, maps)
  {
    if ops != [] {
      assert Stored(ops[|ops| - 1], vals[|ops| - 1], copies, maps);
      FiltersAgree(ops[..|ops| - 1], vals[..|ops| - 1], batch, copies, maps);
    }
  }

  /** An append-only list in a growable buffer, with an index of positions by key. */
  class Journal {
    var buf: array<JournalOp>
    var len: nat
    var byKey: map<Key, seq<nat>>
    ghost var Contents: seq<OpValue>

    /** The before-images, detached copies that only the journal reaches, and the field maps they own. */
    ghost var Copies: set<Entry>
    ghost var Maps: set<FieldMap>

    ghost predicate Valid()
      reads this, buf, Copies, Maps
    {
      && (forall e :: e in Copies ==> e.place == Detached)
      && (forall f :: f in Maps ==> f.place == Detached)
      && |Contents| == len <= buf.Length
      && byKey == Index(Contents)
      && (forall i :: 0 <= i < len ==>
            && (buf[i].before != null ==> buf[i].before in Copies && buf[i].before.fields in Maps)
            && Stored(buf[i], Contents[i], Copies, Maps))
    }

    constructor ()
      ensures Valid() && fresh(buf) && Copies == {} && Maps == {} && Contents == []
    {
      var empty := Op("", 0, "", null);
      buf := new JournalOp[0](_ => empty);
      len, byKey, Contents := 0, map[], [];
      Copies, Maps := {}, {};
    }

    method Grow()
      requires Valid()
      modifies `buf
      ensures Valid() && len < buf.Length && fresh(buf)
    {
      var empty := Op("", 0, "", null);
      var smaller, n := buf, len;
      var larger := new JournalOp[2 * n + 1](i => empty);
      for i := 0 to n
        modifies larger
        invariant forall j :: 0 <= j < i ==> larger[j] == smaller[j]
      {
        larger[i] := smaller[i];
      }
      buf := larger;
    }

    method Append(op: JournalOp)
      requires Valid()
      requires op.before != null ==> op.before.place == op.before.fields.place == Detached
      modifies this, buf
      ensures Valid() && (buf == old(buf) || fresh(buf))
      ensures Copies == old(Copies) + (if op.before == null then {} else {op.before})
      ensures Maps == old(Maps) + (if op.before == null then {} else {op.before.fields})
      ensures Contents == old(Contents) + [Op(op.batch, op.segment, op.key, old(BeforeValue(op)))]
    {
      if len == buf.Length {
        Grow();
      }
      Store(op);
    }

    method Store(op: JournalOp)
      requires Valid() && len < buf.Length
      requires op.before != null ==> op.before.place == op.before.fields.place == Detached
      modifies `len, `byKey, `Contents, `Copies, `Maps, buf
      ensures Valid()
      ensures Copies == old(Copies) + (if op.before == null then {} else {op.before})
      ensures Maps == old(Maps) + (if op.before == null then {} else {op.before.fields})
      ensures Contents == old(Contents) + [Op(op.batch, op.segment, op.key, BeforeValue(op))]
    {
      hide Index, Indexed;
      ghost var v := Op(op.batch, op.segment, op.key, BeforeValue(op));
      IndexNext(Contents, v);
      if op.before != null {
        Copies, Maps := Copies + {op.before}, Maps + {op.before.fields};
      }
      buf[len] := op;
      byKey := Indexed(byKey, op.key, len);
      len, Contents := len + 1, Contents + [v];
    }

    lemma StoredOps(batch: string)
      requires Valid()
      ensures AllStored(OpsOf(buf[..len], batch), OpsOf(Contents, batch), Copies, Maps)
    {
      FiltersAgree(buf[..len], Contents, batch, Copies, Maps);
    }

    lemma StoredOp(batch: string, i: nat)
      requires Valid() && i < |OpsOf(buf[..len], batch)|
      ensures |OpsOf(buf[..len], batch)| == |OpsOf(Contents, batch)|
      ensures Stored(OpsOf(buf[..len], batch)[i], OpsOf(Contents, batch)[i], Copies, Maps)
    {
      StoredOps(batch);
    }

    method OpsFor(batch: string) returns (out: seq<JournalOp>)
      requires Valid()
      ensures out == OpsOf(buf[..len], batch)
      ensures AllStored(out, OpsOf(Contents, batch), Copies, Maps)
    {
      out := [];
      for i := 0 to len
        invariant out == OpsOf(buf[..i], batch)
      {
        assert buf[..i + 1][..i] == buf[..i];
        if buf[i].batch == batch {
          out := out + [buf[i]];
        }
      }
      StoredOps(batch);
    }

    method LastBeforeOf(key: Key) returns (e: Entry?)
      requires Valid()
      ensures e == null <==> LastBefore(Contents, key) == None
      ensures e != null ==> LastBefore(Contents, key) == Some(e.Value())
    {
      LastIndexed(Contents, key);
      IndexExact(Contents, key);
      var indexes := if key in byKey then byKey[key] else [];
      if |indexes| == 0 {
        return null;
      }
      var last := indexes[|indexes| - 1];
      assert Stored(buf[last], Contents[last], Copies, Maps);
      e := buf[last].before;
    }

    /** In-place compaction: kept operations are written over the buffer they are read from. */
    method Compact(batch: string) returns (kept: nat)
      requires len <= buf.Length
      modifies buf
      ensures kept <= len && buf[..kept] == Without(old(buf[..len]), batch)
    {
      kept := 0;
      ghost var before := buf[..len];
      for i := 0 to len
        invariant kept <= i && buf[..kept] == Without(before[..i], batch)
        invariant forall j :: i <= j < len ==> buf[j] == before[j]
      {
        assert before[..i + 1][..i] == before[..i];
        if buf[i].batch != batch {
          buf[kept] := buf[i];
          kept := kept + 1;
        }
      }
      assert before[..len] == before;
    }

    method Clear(batch: string)
      requires Valid()
      modifies `len, `Contents, `byKey, buf
      ensures Valid()
      ensures Contents == Without(old(Contents), batch)
    {
      FiltersAgree(buf[..len], Contents, batch, Copies, Maps);
      var kept := Compact(batch);
      Truncate(kept, Without(Contents, batch));
    }

    method Truncate(kept: nat, ghost rest: seq<OpValue>)
      requires kept <= buf.Length
      requires (forall e :: e in Copies ==> e.place == Detached) && (forall f :: f in Maps ==> f.place == Detached)
      requires forall i :: 0 <= i < kept && buf[i].before != null ==> buf[i].before in Copies && buf[i].before.fields in Maps
      requires AllStored(buf[..kept], rest, Copies, Maps)
      modifies `len, `Contents, `byKey
      ensures Valid() && Contents == rest
    {
      assert forall i :: 0 <= i < kept ==> Stored(buf[..kept][i], rest[i], Copies, Maps);
      len, Contents := kept, rest;
      RebuildIndex();
    }

    method RebuildIndex()
      requires len == |Contents| <= buf.Length
      requires forall i :: 0 <= i < len ==> buf[i].key == Contents[i].key
      modifies `byKey
      ensures byKey == Index(Contents)
    {
      byKey := map[];
      for i := 0 to len
        invariant byKey == Index(Contents[..i])
      {
        assert Contents[..i + 1][..i] == Contents[..i];
        byKey := Indexed(byKey, buf[i].key, i);
      }
      assert Contents[..len] == Contents;
    }
  }
}
