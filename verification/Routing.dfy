/** Entity hashing and the shard route table. The hash is any function to the naturals. */
module Routing {
  import opened Arithmetic
  import opened Model

  type HashFn = Key -> nat

  /** Router construction and expansion errors, and the report of a resize. */
  datatype Expansion = Expansion(previous: int, current: int, added: int)

  function Slot(hash: HashFn, key: Key, size: int): (i: nat)
    ensures size > 0 ==> i < size
  {
    if size <= 0 then 0 else hash(key) % size
  }

  /** When the count grows to a multiple, a key keeps its slot or moves into the newly added range. */
  lemma GrowthByMultiple(hash: HashFn, key: Key, size: int, factor: int)
    requires size > 0 && factor > 0
    ensures
      var before, after := Slot(hash, key, size), Slot(hash, key, factor * size);
      after == before || size <= after < factor * size
  {
    var h, n := hash(key), factor * size;
    assert n > 0;
    var q, r := h / n, h % n;
    Regroup(factor, size, q);
    if r < size {
      RemainderUnique(h, size, factor * q, r);
    }
  }

  lemma Regroup(a: int, b: int, c: int)
    ensures (a * b) * c == (a * c) * b
  {
  }

  class Router {
    const hash: HashFn
    var shardCount: int
    var routeTable: array<int>
    var shardStates: array<int>

    ghost predicate Valid()
      reads this, routeTable
    {
      && shardCount > 0
      && routeTable.Length == shardCount
      && (forall i :: 0 <= i < shardCount ==> routeTable[i] == i)
    }

    constructor (hash: HashFn, shardCount: int)
      requires shardCount > 0
      ensures Valid() && fresh(routeTable)
      ensures this.hash == hash && this.shardCount == shardCount
    {
      this.hash := hash;
      this.shardCount := shardCount;
      routeTable := new int[0];
      shardStates := new int[0];
      new;
      RebuildTable(shardCount);
    }

    static method NewRouter(hash: HashFn, shardCount: int) returns (r: Router?)
      ensures r == null <==> shardCount <= 0
      ensures r != null ==> fresh(r) && fresh(r.routeTable) && r.Valid()
      ensures r != null ==> r.hash == hash && r.shardCount == shardCount
    {
      if shardCount <= 0 {
        return null;
      }
      r := new Router(hash, shardCount);
    }

    method RebuildTable(count: int)
      requires count >= 0
      modifies this`routeTable, this`shardStates
      ensures fresh(routeTable) && fresh(shardStates) && routeTable.Length == shardStates.Length == count
      ensures forall i :: 0 <= i < count ==> routeTable[i] == i && shardStates[i] == 0
    {
      var table, states := new int[count], new int[count];
      for i := 0 to count
        invariant forall j :: 0 <= j < i ==> table[j] == j && states[j] == 0
      {
        table[i] := i;
        states[i] := 0;
      }
      routeTable, shardStates := table, states;
    }

    /** The table entry found for a key is its slot under the current shard count. */
    method Route(key: Key) returns (index: int)
      requires Valid()
      ensures index == Slot(hash, key, shardCount) == hash(key) % shardCount
    {
      var slot := Slot(hash, key, routeTable.Length);
      index := routeTable[slot];
    }

    method ExpandShards(newCount: int) returns (ok: bool)
      requires Valid()
      modifies this
      ensures Valid()
      ensures ok == (newCount >= old(shardCount))
      ensures shardCount == if ok then newCount else old(shardCount)
      ensures shardCount == old(shardCount) ==> routeTable == old(routeTable)
      ensures routeTable != old(routeTable) ==> fresh(routeTable)
    {
      if newCount <= 0 {
        return false;
      }
      if newCount == shardCount {
        return true;
      }
      if newCount < shardCount {
        return false;
      }
      RebuildTable(newCount);
      shardCount := newCount;
      ok := true;
    }

    method Expand(target: int) returns (r: Option<Expansion>)
      requires Valid()
      modifies this
      ensures Valid()
      ensures r.Some? <==> target > old(shardCount)
      ensures shardCount == if r.Some? then target else old(shardCount)
      ensures r.Some? ==> r.value == Expansion(old(shardCount), target, target - old(shardCount)) && r.value.added > 0
      ensures routeTable != old(routeTable) ==> fresh(routeTable)
    {
      var before := shardCount;
      var ok := ExpandShards(target);
      if !ok {
        return None;
      }
      var after := shardCount;
      if after <= before {
        return None;
      }
      r := Some(Expansion(before, after, after - before));
    }
  }
}
