/** The version lifecycle and the active-version pointer. */
module Versions {
  import opened Text
  import opened Model
  import opened Cache

  datatype VersionState = Draft | Published | Superseded | RolledBack

  /** The edges of the version state machine. */
  predicate CanTransition(from: VersionState, to: VersionState) {
    match from
    case Draft => to == Published
    case Published => to == Superseded || to == RolledBack
    case Superseded => to == RolledBack
    case RolledBack => false
  }

  function StateRank(s: VersionState): nat {
    match s
    case Draft => 0
    case Published => 1
    case Superseded => 2
    case RolledBack => 3
  }

  datatype VersionValue = VersionValue(id: string, tableID: string, state: VersionState, parentID: string,
                                       fields: seq<string>, createdAt: int, publishedAt: int)

  datatype ManagerValue = ManagerValue(versions: map<string, VersionValue>, order: seq<string>,
                                       lastByTable: map<string, string>, activeID: string)

  /** Table definitions: the ordered field names of each registered table. */
  type Tables = map<string, seq<string>>

  const EMPTY_MANAGER := ManagerValue(map[], [], map[], "")

  function Mint(tableID: string, n: nat): (id: string)
    ensures id != ""
  {
    tableID + "-v" + Decimal(n)
  }

  /** The creation number an identifier ends in. */
  function Number(id: string): nat {
    NumberOf(DigitRun(id))
  }

  function Created(m: ManagerValue, tableID: string, layout: seq<string>, now: int): ManagerValue {
    Recorded(m, Mint(tableID, |m.versions| + 1), tableID, layout, now)
  }

  function Recorded(m: ManagerValue, id: string, tableID: string, layout: seq<string>, now: int): ManagerValue {
    var parent := if tableID in m.lastByTable then m.lastByTable[tableID] else "";
    ManagerValue(m.versions[id := VersionValue(id, tableID, Draft, parent, layout, now, ZERO_TIME)],
                 m.order + [id], m.lastByTable[tableID := id], m.activeID)
  }

  /** The effect of a transition whose error is discarded. */
  function Moved(m: ManagerValue, id: string, to: VersionState): ManagerValue
    requires id in m.versions
  {
    var v := m.versions[id];
    if CanTransition(v.state, to) then m.(versions := m.versions[id := v.(state := to)]) else m
  }

  predicate CanPublish(m: ManagerValue, id: string) {
    id in m.versions && CanTransition(m.versions[id].state, Published)
  }

  function Stamped(m: ManagerValue, id: string, now: int): ManagerValue
    requires id in m.versions
  {
    m.(versions := m.versions[id := m.versions[id].(publishedAt := now)])
  }

  /** The pointed-to version, unless it is id itself, is superseded if its state allows it. */
  function PriorSuperseded(m: ManagerValue, id: string): ManagerValue {
    if m.activeID in m.versions && m.activeID != id then Moved(m, m.activeID, Superseded) else m
  }

  function AfterPublish(m: ManagerValue, id: string, now: int): ManagerValue
    requires CanPublish(m, id)
  {
    PriorSuperseded(Stamped(Moved(m, id, Published), id, now), id).(activeID := id)
  }

  predicate CanRollback(m: ManagerValue, id: string) {
    && id in m.versions
    && (m.versions[id].state == Published || m.versions[id].state == Superseded)
    && m.versions[id].parentID in m.versions
    && m.versions[m.versions[id].parentID].state != RolledBack
  }

  function AfterRollback(m: ManagerValue, id: string): ManagerValue
    requires CanRollback(m, id)
  {
    var parent := m.versions[id].parentID;
    Moved(Moved(m, id, RolledBack), parent, Published).(activeID := parent)
  }

  function ResolveActive(m: ManagerValue): Option<VersionValue> {
    if m.activeID in m.versions && m.versions[m.activeID].state == Published
    then Some(m.versions[m.activeID])
    else None
  }

  /** Identifiers, creation order and parent chains are consistent, and the pointer is on a version that was published. */
  ghost predicate WellFormed(m: ManagerValue) {
    && OrderOK(m)
    && (forall id {:trigger IdentifierOK(m, id)} :: id in m.versions ==> IdentifierOK(m, id))
    && (forall id {:trigger ParentOK(m, id)} :: id in m.versions ==> ParentOK(m, id))
    && (forall t {:trigger LastOK(m, t)} :: LastOK(m, t))
    && PointerOK(m)
  }

  ghost predicate OrderOK(m: ManagerValue) {
    && |m.order| == |m.versions|
    && (forall i {:trigger m.order[i]} :: 0 <= i < |m.order| ==> m.order[i] in m.versions && Number(m.order[i]) == i + 1)
  }

  ghost predicate PointerOK(m: ManagerValue) {
    m.activeID != "" ==>
      && m.activeID in m.versions
      && m.versions[m.activeID].state != Draft && m.versions[m.activeID].state != RolledBack
  }

  /** lastByTable[t] is the newest version of t. */
  ghost predicate LastOK(m: ManagerValue, t: string) {
    && (t in m.lastByTable ==> m.lastByTable[t] in m.versions && m.versions[m.lastByTable[t]].tableID == t)
    && (forall id :: id in m.versions && m.versions[id].tableID == t ==>
          t in m.lastByTable && Number(id) <= Number(m.lastByTable[t]))
  }

  ghost predicate IdentifierOK(m: ManagerValue, id: string)
    requires id in m.versions
  {
    && m.versions[id].id == id
    && 1 <= Number(id) <= |m.order|
    && m.order[Number(id) - 1] == id
    && id == Mint(m.versions[id].tableID, Number(id))
  }

  /** The parent is the previous version of the same table; a table's first version has none and is never rolled back. */
  ghost predicate ParentOK(m: ManagerValue, id: string)
    requires id in m.versions
  {
    var v := m.versions[id];
    && (v.parentID != "" ==>
          && v.parentID in m.versions && m.versions[v.parentID].tableID == v.tableID
          && Number(v.parentID) < Number(id))
    && (forall o :: o in m.versions && m.versions[o].tableID == v.tableID && Number(o) < Number(id) ==>
          v.parentID != "" && Number(o) <= Number(v.parentID))
    && (v.parentID == "" ==> v.state != RolledBack)
  }

  lemma NumberOfMint(tableID: string, n: nat)
    ensures Number(Mint(tableID, n)) == n
  {
    DecimalReadsBack(n);
    RunAfterText(tableID + "-v", Decimal(n));
  }

  /** Distinct creation numbers or tables give distinct identifiers, whatever characters the table names hold. */
  lemma MintInjective(t: string, m: nat, u: string, n: nat)
    ensures Mint(t, m) == Mint(u, n) <==> t == u && m == n
  {
    if Mint(t, m) == Mint(u, n) {
      NumberedTextInjective(t + "-v", m, u + "-v", n);
      assert t == (t + "-v")[..|t|] && u == (u + "-v")[..|u|];
    }
  }

  /** Create never overwrites a version. */
  lemma CreateIsFresh(m: ManagerValue, tableID: string)
    requires WellFormed(m)
    ensures Mint(tableID, |m.versions| + 1) !in m.versions
  {
    NumberOfMint(tableID, |m.versions| + 1);
    assert Mint(tableID, |m.versions| + 1) in m.versions ==> IdentifierOK(m, Mint(tableID, |m.versions| + 1));
  }

  lemma CreateKeepsWellFormed(m: ManagerValue, tableID: string, layout: seq<string>, now: int)
    requires WellFormed(m)
    ensures WellFormed(Created(m, tableID, layout, now))
  {
    var c := Created(m, tableID, layout, now);
    CreateKeepsOrder(m, tableID, layout, now);
    forall o | o in c.versions ensures IdentifierOK(c, o) {
      CreateKeepsIdentifier(m, tableID, layout, now, o);
    }
    forall o | o in c.versions ensures ParentOK(c, o) {
      CreateKeepsParents(m, tableID, layout, now, o);
    }
    forall t ensures LastOK(c, t) {
      CreateKeepsLast(m, tableID, layout, now, t);
    }
  }

  lemma CreateKeepsOrder(m: ManagerValue, tableID: string, layout: seq<string>, now: int)
    requires WellFormed(m)
    ensures OrderOK(Created(m, tableID, layout, now)) && PointerOK(Created(m, tableID, layout, now))
  {
    hide Mint, Number, OrderOK, PointerOK, IdentifierOK, ParentOK, LastOK, Recorded;
    NumberOfMint(tableID, |m.versions| + 1);
    CreateIsFresh(m, tableID);
    RecordKeepsOrder(m, Mint(tableID, |m.versions| + 1), tableID, layout, now);
  }

  lemma RecordKeepsOrder(m: ManagerValue, id: string, tableID: string, layout: seq<string>, now: int)
    requires OrderOK(m) && PointerOK(m) && id !in m.versions && Number(id) == |m.versions| + 1
    ensures OrderOK(Recorded(m, id, tableID, layout, now)) && PointerOK(Recorded(m, id, tableID, layout, now))
  {
    hide Number, OrderOK, Recorded;
    RecordShape(m, id, tableID, layout, now);
    OrderExtends(m, Recorded(m, id, tableID, layout, now), id);
  }

  lemma RecordShape(m: ManagerValue, id: string, tableID: string, layout: seq<string>, now: int)
    ensures var c := Recorded(m, id, tableID, layout, now);
            && c.order == m.order + [id] && c.versions.Keys == m.versions.Keys + {id} && c.activeID == m.activeID
            && (forall o :: o in m.versions && o != id ==> c.versions[o] == m.versions[o])
  {
  }

  lemma OrderExtends(m: ManagerValue, c: ManagerValue, id: string)
    requires OrderOK(m) && c.order == m.order + [id] && id !in m.versions && Number(id) == |m.versions| + 1
    requires c.versions.Keys == m.versions.Keys + {id}
    ensures OrderOK(c)
  {
    assert |c.versions| == |c.versions.Keys| && |m.versions| == |m.versions.Keys|;
    forall i | 0 <= i < |c.order| ensures c.order[i] in c.versions && Number(c.order[i]) == i + 1 {
      assert i < |m.order| ==> c.order[i] == m.order[i];
    }
  }

  lemma CreateKeepsIdentifier(m: ManagerValue, tableID: string, layout: seq<string>, now: int, o: string)
    requires WellFormed(m) && o in Created(m, tableID, layout, now).versions
    ensures IdentifierOK(Created(m, tableID, layout, now), o)
  {
    NumberOfMint(tableID, |m.versions| + 1);
    assert o in m.versions ==> IdentifierOK(m, o);
  }

  lemma CreateKeepsParents(m: ManagerValue, tableID: string, layout: seq<string>, now: int, o: string)
    requires WellFormed(m) && o in Created(m, tableID, layout, now).versions
    ensures ParentOK(Created(m, tableID, layout, now), o)
  {
    CreateIsFresh(m, tableID);
    if o in m.versions {
      NumberOfMint(tableID, |m.versions| + 1);
      assert ParentOK(m, o) && IdentifierOK(m, o);
    } else {
      NewParent(m, tableID, layout, now);
    }
  }

  lemma NoEmptyName(m: ManagerValue)
    requires WellFormed(m)
    ensures "" !in m.versions
  {
    assert "" in m.versions ==> IdentifierOK(m, "");
  }

  lemma NewParent(m: ManagerValue, tableID: string, layout: seq<string>, now: int)
    requires WellFormed(m)
    ensures ParentOK(Created(m, tableID, layout, now), Mint(tableID, |m.versions| + 1))
  {
    hide Mint, Number;
    NumberOfMint(tableID, |m.versions| + 1);
    CreateIsFresh(m, tableID);
    NoEmptyName(m);
    assert LastOK(m, tableID);
    if tableID in m.lastByTable {
      var last := m.lastByTable[tableID];
      assert IdentifierOK(m, last);
    }
  }

  lemma CreateKeepsLast(m: ManagerValue, tableID: string, layout: seq<string>, now: int, t: string)
    requires WellFormed(m)
    ensures LastOK(Created(m, tableID, layout, now), t)
  {
    var c := Created(m, tableID, layout, now);
    NumberOfMint(tableID, |m.versions| + 1);
    CreateIsFresh(m, tableID);
    assert LastOK(m, t);
    forall o | o in c.versions && c.versions[o].tableID == t
      ensures t in c.lastByTable && Number(o) <= Number(c.lastByTable[t])
    {
      assert o in m.versions ==> IdentifierOK(m, o);
    }
  }

  /** Parent chains descend in creation number, so no version is its own ancestor. */
  lemma ParentsDiffer(m: ManagerValue, id: string)
    requires WellFormed(m) && id in m.versions
    ensures "" !in m.versions && m.versions[id].parentID != id
    ensures m.versions[id].parentID != "" ==>
              m.versions[id].parentID in m.versions && Number(m.versions[id].parentID) < Number(id)
  {
    assert ParentOK(m, id);
    assert "" in m.versions ==> IdentifierOK(m, "");
  }

  /** No version, or a registered one. */
  ghost predicate Known(m: ManagerValue, versionID: string) {
    versionID == "" || versionID in m.versions
  }

  lemma RegisteredEndsInNumber(m: ManagerValue, id: string)
    requires WellFormed(m) && id in m.versions
    ensures id == m.versions[id].tableID + "-v" + Decimal(Number(id)) && DigitRun(id) == Decimal(Number(id))
    ensures id != "" && IsDigit(id[|id| - 1])
  {
    var n := Number(id);
    assert IdentifierOK(m, id);
    DecimalReadsBack(n);
    RunAfterText(m.versions[id].tableID + "-v", Decimal(n));
  }

  /** Text put in front of a registered identifier leaves its number to be read off the end. */
  lemma NumberBehindText(m: ManagerValue, x: string, w: string)
    requires WellFormed(m) && w in m.versions
    ensures Number(x + w) == Number(w)
  {
    hide WellFormed;
    RegisteredEndsInNumber(m, w);
    var front, digits := m.versions[w].tableID + "-v", Decimal(Number(w));
    DecimalReadsBack(Number(w));
    RunAfterText(x + front, digits);
    assert x + w == (x + front) + digits;
  }

  lemma SameNumberSameVersion(m: ManagerValue, v: string, w: string)
    requires WellFormed(m) && v in m.versions && w in m.versions && Number(v) == Number(w)
    ensures v == w
  {
    hide Number;
    assert IdentifierOK(m, v) && IdentifierOK(m, w);
  }

  /** A registered identifier never ends in another one, nor in nothing, after an '@'. */
  lemma RegisteredIsNotContinued(m: ManagerValue, x: string, w: string)
    requires WellFormed(m) && Known(m, w)
    ensures x + "@" + w !in m.versions
  {
    hide WellFormed, Number;
    var v := x + "@" + w;
    if v in m.versions {
      RegisteredEndsInNumber(m, v);
      if w != "" {
        NumberBehindText(m, x + "@", w);
        SameNumberSameVersion(m, v, w);
      }
    }
  }

  /**
   Under registered versions, or none, the cache string determines entity and version, whatever the table names hold.
   */
  lemma RegisteredKeyInjective(m: ManagerValue, e: Key, v: string, f: Key, w: string)
    requires WellFormed(m) && Known(m, v) && Known(m, w) && CacheKey(e, v) == CacheKey(f, w)
    ensures e == f && v == w
  {
    KeyCollision(e, v, f, w);
    if x :| f == e + "@" + x && v == x + "@" + w {
      RegisteredIsNotContinued(m, x, w);
    }
    if x :| e == f + "@" + x && w == x + "@" + v {
      RegisteredIsNotContinued(m, x, v);
    }
  }

  /** The suffix scan of a registered version removes exactly its own entries among those of registered versions. */
  lemma RegisteredScanExact(m: ManagerValue, c: CacheMap, v: string, e: Key, w: string)
    requires WellFormed(m) && v in m.versions && Known(m, w) && CacheKey(e, w) in c
    ensures CacheKey(e, w) in WithoutVersion(c, v) <==> w != v
  {
    WithoutVersionExact(c, v, e, w);
    if a :| CacheKey(a, v) == CacheKey(e, w) {
      RegisteredKeyInjective(m, a, v, e, w);
    }
  }

  lemma PublishKeepsWellFormed(m: ManagerValue, id: string, now: int)
    requires WellFormed(m) && CanPublish(m, id)
    ensures WellFormed(AfterPublish(m, id, now))
  {
    PublishMovesStates(m, id, now);
    SameIdentities(m, AfterPublish(m, id, now));
  }

  lemma RollbackKeepsWellFormed(m: ManagerValue, id: string)
    requires WellFormed(m) && CanRollback(m, id)
    ensures WellFormed(AfterRollback(m, id))
  {
    ParentsDiffer(m, id);
    RollbackMovesStates(m, id);
    SameIdentities(m, AfterRollback(m, id));
  }

  lemma PublishMovesStates(m: ManagerValue, id: string, now: int)
    requires CanPublish(m, id)
    ensures OnlyStatesDiffer(m, AfterPublish(m, id, now)) && PointerOK(AfterPublish(m, id, now))
  {
  }

  lemma RollbackMovesStates(m: ManagerValue, id: string)
    requires CanRollback(m, id) && "" !in m.versions && m.versions[id].parentID != id
    ensures OnlyStatesDiffer(m, AfterRollback(m, id)) && PointerOK(AfterRollback(m, id))
  {
  }

  /** Only states and publish times differ, and no first version is rolled back. */
  ghost predicate OnlyStatesDiffer(m: ManagerValue, p: ManagerValue) {
    && p.versions.Keys == m.versions.Keys && p.order == m.order && p.lastByTable == m.lastByTable
    && (forall id :: id in m.versions ==>
          && p.versions[id] == m.versions[id].(state := p.versions[id].state, publishedAt := p.versions[id].publishedAt)
          && (m.versions[id].parentID == "" && m.versions[id].state != RolledBack ==> p.versions[id].state != RolledBack))
  }

  lemma SameIdentities(m: ManagerValue, p: ManagerValue)
    requires WellFormed(m) && OnlyStatesDiffer(m, p) && PointerOK(p)
    ensures WellFormed(p)
  {
    assert |p.versions| == |p.versions.Keys| == |m.versions.Keys|;
    forall id | id in p.versions ensures IdentifierOK(p, id) {
      assert IdentifierOK(m, id);
    }
    forall id | id in p.versions ensures ParentOK(p, id) {
      assert ParentOK(m, id);
    }
    forall t ensures LastOK(p, t) {
      assert LastOK(m, t);
    }
  }

  /** After a successful rollback an active version resolves exactly when the parent was not superseded. */
  lemma RollbackResolves(m: ManagerValue, id: string)
    requires WellFormed(m) && CanRollback(m, id)
    ensures var parent := m.versions[m.versions[id].parentID];
            ResolveActive(AfterRollback(m, id)).Some? <==> parent.state != Superseded
  {
    ParentsDiffer(m, id);
  }

  /** A rollback leaves a version other than its parent published exactly when it was published and not the target. */
  lemma RollbackLeavesPublished(m: ManagerValue, id: string, other: string)
    requires WellFormed(m) && CanRollback(m, id) && other in m.versions && other != m.versions[id].parentID
    ensures AfterRollback(m, id).versions[other].state == Published <==>
            other != id && m.versions[other].state == Published
  {
  }

  /**
   Create adds a draft under the table's name and the next number, with the layout, the instant and the table's newest
   version as parent.
   */
  lemma CreateEffect(m: ManagerValue, t: string, layout: seq<string>, now: int)
    ensures var id, parent := t + "-v" + Decimal(|m.versions| + 1), if t in m.lastByTable then m.lastByTable[t] else "";
            Created(m, t, layout, now) ==
              ManagerValue(m.versions[id := VersionValue(id, t, Draft, parent, layout, now, ZERO_TIME)],
                           m.order + [id], m.lastByTable[t := id], m.activeID)
  {
  }

  /**
   A draft, and nothing else, can be published: it is stamped and pointed to, and the version pointed to before is
   superseded if it was published.
   */
  lemma PublishEffect(m: ManagerValue, id: string, now: int)
    ensures CanPublish(m, id) <==> id in m.versions && m.versions[id].state == Draft
    ensures CanPublish(m, id) ==>
              var p := AfterPublish(m, id, now);
              && p.versions.Keys == m.versions.Keys && p.order == m.order && p.lastByTable == m.lastByTable && p.activeID == id
              && p.versions[id] == m.versions[id].(state := Published, publishedAt := now)
              && (forall o :: o in m.versions && o != id ==>
                    p.versions[o] == if o == m.activeID && m.versions[o].state == Published
                                     then m.versions[o].(state := Superseded) else m.versions[o])
  {
  }

  /**
   A rolled-back version's parent is pointed to, and published if it was a draft; no other version changes, and no
   stamp.
   */
  lemma RollbackEffect(m: ManagerValue, id: string)
    requires CanRollback(m, id) && m.versions[id].parentID != id
    ensures var p, parent := AfterRollback(m, id), m.versions[id].parentID;
            && p.versions.Keys == m.versions.Keys && p.order == m.order && p.lastByTable == m.lastByTable && p.activeID == parent
            && p.versions[id] == m.versions[id].(state := RolledBack)
            && p.versions[parent] == (if m.versions[parent].state == Draft then m.versions[parent].(state := Published) else m.versions[parent])
            && (forall o :: o in m.versions && o != id && o != parent ==> p.versions[o] == m.versions[o])
  {
  }

  /** One version record; the manager's map and its active pointer share it. */
  class Version {
    const id: string
    const tableID: string
    const parentID: string
    const fields: seq<string>
    const createdAt: int
    var state: VersionState
    var publishedAt: int

    ghost function Value(): VersionValue
      reads this
    {
      VersionValue(id, tableID, state, parentID, fields, createdAt, publishedAt)
    }

    constructor (id: string, tableID: string, parentID: string, fields: seq<string>, createdAt: int)
      ensures Value() == VersionValue(id, tableID, Draft, parentID, fields, createdAt, ZERO_TIME)
    {
      this.id, this.tableID, this.parentID := id, tableID, parentID;
      this.fields, this.createdAt := fields, createdAt;
      state, publishedAt := Draft, ZERO_TIME;
    }
  }

  method Transition(v: Version?, to: VersionState) returns (ok: bool)
    modifies if v == null then {} else {v}
    ensures ok <==> v != null && CanTransition(old(v.state), to)
    ensures v != null ==> v.Value() == old(v.Value()).(state := if ok then to else old(v.state))
  {
    if v == null {
      return false;
    }
    if !CanTransition(v.state, to) {
      return false;
    }
    v.state := to;
    ok := true;
  }

  /** The manager; the hook is the read cache the store registers for invalidation. */
  class Manager {
    var versions: map<string, Version>
    var order: seq<string>
    var lastByTable: map<string, string>
    var activeID: string
    var active: Version?
    var hook: ReadCache?
    ghost var Contents: ManagerValue

    ghost predicate Valid()
      reads this, versions.Values
    {
      && Contents.versions.Keys == versions.Keys
      && Contents.order == order && Contents.lastByTable == lastByTable && Contents.activeID == activeID
      && (forall id :: id in versions ==>
            && versions[id].id == id && versions[id].Value() == Contents.versions[id])
      && (if active == null then activeID == "" else activeID in versions && versions[activeID] == active)
      && "" !in versions
    }

    ghost predicate HookReady()
      reads this, hook, if hook == null then {} else hook.Maps
    {
      hook != null ==> hook.Valid()
    }

    ghost function Hooked(): set<object>
      reads this
    {
      if hook == null then {} else {hook}
    }

    constructor ()
      ensures Valid() && Contents == EMPTY_MANAGER && hook == null
    {
      versions, order, lastByTable, activeID := map[], [], map[], "";
      active, hook := null, null;
      Contents := EMPTY_MANAGER;
    }

    method SetCacheHook(hook: ReadCache)
      requires Valid()
      modifies this`hook
      ensures Valid() && this.hook == hook
    {
      this.hook := hook;
    }

    method Create(tableID: string, tables: Tables, now: int) returns (r: Version?)
      requires Valid() && WellFormed(Contents)
      modifies `versions, `order, `lastByTable, `Contents
      ensures Valid() && WellFormed(Contents)
      ensures r != null <==> tableID in tables
      ensures Contents == if tableID in tables then Created(old(Contents), tableID, tables[tableID], now) else old(Contents)
      ensures r != null ==> fresh(r) && r.id !in old(versions) && versions == old(versions)[r.id := r]
      ensures r == null ==> versions == old(versions)
    {
      if tableID !in tables {
        return null;
      }
      CreateIsFresh(Contents, tableID);
      CreateKeepsWellFormed(Contents, tableID, tables[tableID], now);
      assert |versions| == |versions.Keys| && |Contents.versions| == |Contents.versions.Keys|;
      r := Record(Mint(tableID, |versions| + 1), tableID, tables[tableID], now);
    }

    method Record(id: string, tableID: string, layout: seq<string>, now: int) returns (r: Version)
      requires Valid() && id !in versions && id != ""
      modifies `versions, `order, `lastByTable, `Contents
      ensures Valid() && fresh(r)
      ensures Contents == Recorded(old(Contents), id, tableID, layout, now)
      ensures r.id == id && versions == old(versions)[id := r]
    {
      var parent := if tableID in lastByTable then lastByTable[tableID] else "";
      r := new Version(id, tableID, parent, layout, now);
      versions, order, lastByTable := versions[id := r], order + [id], lastByTable[tableID := id];
      Contents := Recorded(Contents, id, tableID, layout, now);
      forall o | o in versions ensures versions[o].id == o && versions[o].Value() == Contents.versions[o] {
        assert o != id ==> versions[o] == old(versions)[o];
      }
    }

    /** Transition on a record of this manager. */
    method Move(v: Version, to: VersionState) returns (ok: bool)
      requires Valid() && v.id in versions && versions[v.id] == v
      modifies v, this`Contents
      ensures Valid()
      ensures ok <==> CanTransition(old(Contents).versions[v.id].state, to)
      ensures Contents == Moved(old(Contents), v.id, to)
    {
      Contents := Moved(Contents, v.id, to);
      ok := Transition(v, to);
    }

    method SetPublishedAt(v: Version, now: int)
      requires Valid() && v.id in versions && versions[v.id] == v
      modifies v, this`Contents
      ensures Valid()
      ensures Contents == Stamped(old(Contents), v.id, now)
    {
      Contents := Stamped(Contents, v.id, now);
      v.publishedAt := now;
    }

    method SetActive(v: Version)
      requires Valid() && v.id in versions && versions[v.id] == v
      modifies this`active, this`activeID, this`Contents
      ensures Valid() && Contents == old(Contents).(activeID := v.id)
    {
      active, activeID := v, v.id;
      Contents := Contents.(activeID := v.id);
    }

    /** Supersedes the active version unless it is the given one; a refused transition is ignored. */
    method Supersede(id: string) returns (prior: string)
      requires Valid()
      modifies versions.Values, `Contents
      ensures Valid()
      ensures Contents == PriorSuperseded(old(Contents), id)
    {
      prior := "";
      if active != null && active.id != id {
        var _ := Move(active, Superseded);
        prior := active.id;
      }
    }

    /** The state change of Publish, made under the manager's lock. */
    method PublishState(id: string, now: int) returns (r: Version?, prior: string)
      requires Valid()
      modifies `Contents, `active, `activeID, versions.Values
      ensures Valid()
      ensures r != null <==> CanPublish(old(Contents), id)
      ensures Contents == if r != null then AfterPublish(old(Contents), id, now) else old(Contents)
      ensures r != null ==> id in versions && r == versions[id] && r.Value() == Contents.versions[id] && activeID == Contents.activeID
    {
      prior := "";
      if id !in versions {
        return null, prior;
      }
      var v := versions[id];
      var ok := Move(v, Published);
      if !ok {
        return null, prior;
      }
      SetPublishedAt(v, now);
      prior := Supersede(id);
      SetActive(v);
      r := v;
    }

    /** The state change of Rollback, made under the manager's lock. */
    method RollbackState(id: string) returns (r: Version?)
      requires Valid()
      modifies `Contents, `active, `activeID, versions.Values
      ensures Valid()
      ensures r != null <==> CanRollback(old(Contents), id)
      ensures Contents == if r != null then AfterRollback(old(Contents), id) else old(Contents)
      ensures r != null ==> activeID in versions && r == versions[activeID]
    {
      if id !in versions {
        return null;
      }
      var target := versions[id];
      if target.state != Published && target.state != Superseded {
        return null;
      }
      if target.parentID !in versions {
        return null;
      }
      var parent := versions[target.parentID];
      if parent.state == RolledBack {
        return null;
      }
      var _ := Move(target, RolledBack);
      var _ := Move(parent, Published);
      SetActive(parent);
      r := parent;
    }

    /** Drops the cached reads of the given versions, then every other one. */
    method Flush(first: string, second: string)
      requires Valid() && HookReady()
      modifies Hooked()
      ensures Valid() && HookReady()
      ensures hook != null ==> hook.Contents == map[]
    {
      if hook != null {
        if first != "" {
          hook.InvalidateVersion(first);
        }
        hook.InvalidateVersion(second);
        hook.ClearAll();
      }
    }

    method Publish(id: string, now: int) returns (r: Version?)
      requires Valid() && HookReady()
      modifies `Contents, `active, `activeID, versions.Values, Hooked()
      ensures Valid() && HookReady()
      ensures r != null <==> CanPublish(old(Contents), id)
      ensures Contents == if r != null then AfterPublish(old(Contents), id, now) else old(Contents)
      ensures r != null ==> id in versions && r == versions[id]
      ensures r != null <==> id in old(Contents).versions && old(Contents).versions[id].state == Draft
      ensures r != null ==> activeID == id && r.state == Published && r.publishedAt == now
      ensures hook != null ==> hook.Contents == if r != null then map[] else old(hook.Contents)
    {
      hide Manager.Valid, CanPublish, AfterPublish;
      PublishEffect(Contents, id, now);
      var prior;
      r, prior := PublishState(id, now);
      if r != null {
        Flush(prior, id);
      }
    }

    method Rollback(id: string) returns (r: Version?)
      requires Valid() && HookReady()
      modifies `Contents, `active, `activeID, versions.Values, Hooked()
      ensures Valid() && HookReady()
      ensures r != null <==> CanRollback(old(Contents), id)
      ensures Contents == if r != null then AfterRollback(old(Contents), id) else old(Contents)
      ensures r != null ==> activeID in versions && r == versions[activeID]
      ensures hook != null ==> hook.Contents == if r != null then map[] else old(hook.Contents)
    {
      hide Manager.Valid, CanRollback, AfterRollback;
      r := RollbackState(id);
      if r != null {
        Flush(id, activeID);
      }
    }

    method ResolveActiveVersion() returns (r: Version?)
      requires Valid()
      ensures r != null <==> ResolveActive(Contents).Some?
      ensures r != null ==> r.id == activeID && ResolveActive(Contents) == Some(r.Value())
    {
      if active != null && active.state != Published {
        return null;
      }
      r := active;
    }

    method Get(id: string) returns (r: Version?)
      requires Valid()
      ensures r != null <==> id in Contents.versions
      ensures r != null ==> r.Value() == Contents.versions[id]
    {
      r := if id in versions then versions[id] else null;
    }
  }
}
