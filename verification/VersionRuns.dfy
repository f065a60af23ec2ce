/** What every run of Create, Publish and Rollback calls keeps. */
module VersionRuns {
  import opened Model
  import opened Versions

  datatype Op =
    | Create(tableID: string, tables: Tables, now: int)
    | Publish(id: string, now: int)
    | Rollback(id: string)

  predicate Accepts(m: ManagerValue, op: Op) {
    match op
    case Create(t, tables, _) => t in tables
    case Publish(id, _) => CanPublish(m, id)
    case Rollback(id) => CanRollback(m, id)
  }

  /** A rejected call changes nothing. */
  function Apply(m: ManagerValue, op: Op): ManagerValue {
    if !Accepts(m, op) then m else
    match op
    case Create(t, tables, now) => Created(m, t, tables[t], now)
    case Publish(id, now) => AfterPublish(m, id, now)
    case Rollback(id) => AfterRollback(m, id)
  }

  function Run(m: ManagerValue, ops: seq<Op>): ManagerValue {
    if ops == [] then m else Apply(Run(m, ops[..|ops| - 1]), ops[|ops| - 1])
  }

  lemma StepKeepsWellFormed(m: ManagerValue, op: Op)
    requires WellFormed(m)
    ensures WellFormed(Apply(m, op))
  {
    if Accepts(m, op) {
      match op
      case Create(t, tables, now) => CreateKeepsWellFormed(m, t, tables[t], now);
      case Publish(id, now) => PublishKeepsWellFormed(m, id, now);
      case Rollback(id) => RollbackKeepsWellFormed(m, id);
    }
  }

  lemma {:induction false} RunsAreWellFormed(ops: seq<Op>)
    ensures WellFormed(Run(EMPTY_MANAGER, ops))
  {
    if ops != [] {
      RunsAreWellFormed(ops[..|ops| - 1]);
      StepKeepsWellFormed(Run(EMPTY_MANAGER, ops[..|ops| - 1]), ops[|ops| - 1]);
    }
  }

  /** Every version of m is still there, unchanged but for a state that only advances; a set pointer stays set. */
  ghost predicate Advances(m: ManagerValue, p: ManagerValue) {
    && (forall id :: id in m.versions ==>
          && id in p.versions
          && StateRank(m.versions[id].state) <= StateRank(p.versions[id].state)
          && p.versions[id] == m.versions[id].(state := p.versions[id].state, publishedAt := p.versions[id].publishedAt))
    && (m.activeID != "" ==> p.activeID != "")
    && m.order <= p.order
  }

  lemma CreateAdvances(m: ManagerValue, t: string, layout: seq<string>, now: int)
    requires Mint(t, |m.versions| + 1) !in m.versions
    ensures Advances(m, Created(m, t, layout, now))
  {
  }

  lemma PublishAdvances(m: ManagerValue, id: string, now: int)
    requires CanPublish(m, id) && id != ""
    ensures Advances(m, AfterPublish(m, id, now))
  {
  }

  lemma RollbackAdvances(m: ManagerValue, id: string)
    requires CanRollback(m, id) && "" !in m.versions
    ensures Advances(m, AfterRollback(m, id))
  {
  }

  lemma StepAdvances(m: ManagerValue, op: Op)
    requires WellFormed(m)
    ensures Advances(m, Apply(m, op))
  {
    if Accepts(m, op) {
      match op
      case Create(t, tables, now) => CreateIsFresh(m, t); CreateAdvances(m, t, tables[t], now);
      case Publish(id, now) => ParentsDiffer(m, id); PublishAdvances(m, id, now);
      case Rollback(id) => ParentsDiffer(m, id); RollbackAdvances(m, id);
    }
  }

  /** Over the rest of any run states only advance, so a rolled-back version stays rolled back. */
  lemma {:induction false} RunAdvances(m: ManagerValue, ops: seq<Op>)
    requires WellFormed(m)
    ensures WellFormed(Run(m, ops)) && Advances(m, Run(m, ops))
    ensures forall id :: id in m.versions && m.versions[id].state == RolledBack ==> Run(m, ops).versions[id].state == RolledBack
  {
    if ops != [] {
      var front := Run(m, ops[..|ops| - 1]);
      RunAdvances(m, ops[..|ops| - 1]);
      StepKeepsWellFormed(front, ops[|ops| - 1]);
      StepAdvances(front, ops[|ops| - 1]);
    }
  }

  /**
   The pointer, once set, is on a version that is neither a draft nor rolled back, and no first version is ever rolled
   back.
   */
  lemma RunPointer(ops: seq<Op>)
    ensures var m := Run(EMPTY_MANAGER, ops);
            && (m.activeID != "" ==> m.activeID in m.versions && m.versions[m.activeID].state in {Published, Superseded})
            && (forall id :: id in m.versions && m.versions[id].parentID == "" ==> m.versions[id].state != RolledBack)
  {
    RunsAreWellFormed(ops);
    var m := Run(EMPTY_MANAGER, ops);
    forall id | id in m.versions && m.versions[id].parentID == "" ensures m.versions[id].state != RolledBack {
      assert ParentOK(m, id);
    }
  }

  /** The order list holds every version once, in creation order, under its own minted identifier. */
  lemma RunOrder(ops: seq<Op>)
    ensures var m := Run(EMPTY_MANAGER, ops);
            && (forall id :: id in m.order <==> id in m.versions)
            && (forall i, j :: 0 <= i < j < |m.order| ==> m.order[i] != m.order[j])
            && (forall i :: 0 <= i < |m.order| ==> m.order[i] == Mint(m.versions[m.order[i]].tableID, i + 1))
  {
    RunsAreWellFormed(ops);
    var m := Run(EMPTY_MANAGER, ops);
    forall id | id in m.versions ensures id in m.order {
      assert IdentifierOK(m, id);
    }
    forall i | 0 <= i < |m.order| ensures m.order[i] == Mint(m.versions[m.order[i]].tableID, i + 1) {
      assert IdentifierOK(m, m.order[i]);
    }
    forall i, j | 0 <= i < j < |m.order| ensures m.order[i] != m.order[j] {
      assert Number(m.order[i]) != Number(m.order[j]);
    }
  }

  /** The property holds at every point of a run. */
  ghost predicate Always(property: ManagerValue -> bool, m: ManagerValue, ops: seq<Op>) {
    forall i :: 0 <= i <= |ops| ==> property(Run(m, ops[..i]))
  }

  /** No call of a run is such a step. */
  ghost predicate Never(step: (ManagerValue, Op) -> bool, m: ManagerValue, ops: seq<Op>) {
    forall i :: 0 <= i < |ops| ==> !step(Run(m, ops[..i]), ops[i])
  }

  lemma PointsSnoc(property: ManagerValue -> bool, m: ManagerValue, ops: seq<Op>, op: Op)
    ensures Always(property, m, ops + [op]) <==> Always(property, m, ops) && property(Run(m, ops + [op]))
  {
    hide Run;
    var all := ops + [op];
    assert all[..|all|] == all;
    assert forall i :: 0 <= i <= |ops| ==> all[..i] == ops[..i];
  }

  lemma StepsSnoc(step: (ManagerValue, Op) -> bool, m: ManagerValue, ops: seq<Op>, op: Op)
    ensures Never(step, m, ops + [op]) <==> Never(step, m, ops) && !step(Run(m, ops), op)
  {
    hide Run;
    var all := ops + [op];
    assert all[..|ops|] == ops && all[|ops|] == op;
    assert forall i :: 0 <= i < |ops| ==> all[..i] == ops[..i] && all[i] == ops[i];
  }

  /** A property that exactly one kind of step breaks holds throughout a run exactly when the run takes no such step. */
  lemma {:induction false} AlwaysIffNever(property: ManagerValue -> bool, step: (ManagerValue, Op) -> bool, m: ManagerValue, ops: seq<Op>)
    requires WellFormed(m) && property(m)
    requires forall n: ManagerValue, op: Op :: WellFormed(n) && property(n) ==> (property(Apply(n, op)) <==> !step(n, op))
    ensures Always(property, m, ops) <==> Never(step, m, ops)
  {
    hide WellFormed, Apply, Always, Never;
    if ops == [] {
      NoSteps(property, step, m);
    } else {
      var front, last := ops[..|ops| - 1], ops[|ops| - 1];
      AlwaysIffNever(property, step, m, front);
      RunAdvances(m, front);
      PointsSnoc(property, m, front, last);
      StepsSnoc(step, m, front, last);
      assert front + [last] == ops;
      AlwaysAtEnd(property, m, front);
    }
  }

  lemma NoSteps(property: ManagerValue -> bool, step: (ManagerValue, Op) -> bool, m: ManagerValue)
    requires property(m)
    ensures Always(property, m, []) && Never(step, m, [])
  {
  }

  lemma AlwaysAtEnd(property: ManagerValue -> bool, m: ManagerValue, ops: seq<Op>)
    ensures Always(property, m, ops) ==> property(Run(m, ops))
  {
    assert ops[..|ops|] == ops;
  }

  /** Every published version is the one the active pointer is on, so at most one is published and it resolves. */
  ghost predicate OnlyActivePublished(m: ManagerValue) {
    forall id :: id in m.versions && m.versions[id].state == Published ==> id == m.activeID
  }

  /** An accepted Rollback that moves the pointer off the version that resolves and leaves that version published. */
  predicate Strands(m: ManagerValue, op: Op) {
    && op.Rollback? && Accepts(m, op) && ResolveActive(m).Some?
    && op.id != m.activeID && m.versions[op.id].parentID != m.activeID
  }

  lemma OnlyActiveResolves(m: ManagerValue)
    requires WellFormed(m)
    ensures OnlyActivePublished(m) <==>
            forall id :: id in m.versions && m.versions[id].state == Published ==> ResolveActive(m) == Some(m.versions[id])
  {
    forall id | id in m.versions ensures m.versions[id].id == id {
      assert IdentifierOK(m, id);
    }
  }

  lemma RollbackStrands(m: ManagerValue, id: string)
    requires WellFormed(m) && OnlyActivePublished(m) && CanRollback(m, id)
    ensures OnlyActivePublished(AfterRollback(m, id)) <==> !Strands(m, Rollback(id))
  {
    hide WellFormed;
    ParentsDiffer(m, id);
    assert m.activeID in m.versions ==> m.activeID in AfterRollback(m, id).versions;
  }

  lemma StepStrands(m: ManagerValue, op: Op)
    requires WellFormed(m) && OnlyActivePublished(m)
    ensures OnlyActivePublished(Apply(m, op)) <==> !Strands(m, op)
  {
    hide AfterRollback;
    if Accepts(m, op) {
      match op
      case Create(t, _, _) => CreateIsFresh(m, t);
      case Publish(id, _) => ParentsDiffer(m, id);
      case Rollback(id) => RollbackStrands(m, id);
    }
  }

  /**
   At every point of a run at most one version of all tables is published, the one that resolves, exactly
   when no accepted Rollback strands the resolving version: when each names it, or its child, or none resolves.
   */
  lemma AtMostOnePublished(ops: seq<Op>)
    ensures Always(OnlyActivePublished, EMPTY_MANAGER, ops) <==> Never(Strands, EMPTY_MANAGER, ops)
  {
    hide WellFormed, OnlyActivePublished, Strands, Apply, Run, Always, Never;
    RunsAreWellFormed([]);
    NothingPublished();
    forall n: ManagerValue, op: Op | WellFormed(n) && OnlyActivePublished(n)
      ensures OnlyActivePublished(Apply(n, op)) <==> !Strands(n, op)
    {
      StepStrands(n, op);
    }
    AlwaysIffNever(OnlyActivePublished, Strands, EMPTY_MANAGER, ops);
  }

  lemma NothingPublished()
    ensures Run(EMPTY_MANAGER, []) == EMPTY_MANAGER && OnlyActivePublished(EMPTY_MANAGER) && Idle(EMPTY_MANAGER)
  {
  }

  /** No version has left Draft. */
  ghost predicate Idle(m: ManagerValue) {
    forall id :: id in m.versions ==> m.versions[id].state == Draft
  }

  /** An accepted Rollback that moves the pointer to a superseded version, which stays superseded. */
  predicate Darkens(m: ManagerValue, op: Op) {
    op.Rollback? && Accepts(m, op) && m.versions[m.versions[op.id].parentID].state == Superseded
  }

  /** A version resolves, or there are drafts only. */
  ghost predicate Serving(m: ManagerValue) {
    Idle(m) || ResolveActive(m).Some?
  }

  lemma StepDarkens(m: ManagerValue, op: Op)
    requires WellFormed(m) && Serving(m)
    ensures Serving(Apply(m, op)) <==> !Darkens(m, op)
  {
    if Accepts(m, op) {
      match op
      case Create(t, _, _) => CreateIsFresh(m, t);
      case Publish(id, now) => PublishResolves(m, id, now);
      case Rollback(id) =>
        ParentsDiffer(m, id);
        assert id in Apply(m, op).versions && Apply(m, op).versions[id].state == RolledBack;
    }
  }

  /**
   From any state with a resolving version, or with drafts only: one resolves ever after, or there are drafts only,
   exactly if no Rollback darkens.
   */
  lemma ResolvesThroughout(m: ManagerValue, ops: seq<Op>)
    requires WellFormed(m) && Serving(m)
    ensures Always(Serving, m, ops) <==> Never(Darkens, m, ops)
  {
    hide WellFormed, Serving, Darkens, Apply, Run, Always, Never;
    forall n: ManagerValue, op: Op | WellFormed(n) && Serving(n)
      ensures Serving(Apply(n, op)) <==> !Darkens(n, op)
    {
      StepDarkens(n, op);
    }
    AlwaysIffNever(Serving, Darkens, m, ops);
  }

  lemma StepLeavesIdle(m: ManagerValue, op: Op)
    requires WellFormed(m)
    ensures Idle(Apply(m, op)) <==> Idle(m) && !(op.Publish? && Accepts(m, op))
  {
    if Accepts(m, op) {
      match op
      case Create(t, _, _) =>
        CreateIsFresh(m, t);
        assert forall id :: id in m.versions ==> Apply(m, op).versions[id] == m.versions[id];
      case Publish(id, _) =>
        assert id in Apply(m, op).versions && Apply(m, op).versions[id].state == Published;
      case Rollback(id) =>
        ParentsDiffer(m, id);
        assert id in Apply(m, op).versions && Apply(m, op).versions[id].state == RolledBack;
    }
  }

  /** A run leaves drafts only until its first accepted Publish. */
  lemma {:induction false} IdleUntilPublish(ops: seq<Op>)
    ensures Idle(Run(EMPTY_MANAGER, ops)) <==> Accepted(EMPTY_MANAGER, ops, (o: Op) => o.Publish?) == 0
  {
    hide WellFormed, Idle, Apply;
    if ops == [] {
      NothingPublished();
    } else {
      var front := ops[..|ops| - 1];
      IdleUntilPublish(front);
      RunsAreWellFormed(front);
      StepLeavesIdle(Run(EMPTY_MANAGER, front), ops[|ops| - 1]);
    }
  }

  /**
   From the first accepted Publish on some version resolves at every point of a run, exactly when no
   accepted Rollback names a version whose parent is superseded.
   */
  lemma ResolvesFromFirstPublish(ops: seq<Op>)
    ensures (forall i :: 0 <= i <= |ops| && Accepted(EMPTY_MANAGER, ops[..i], (o: Op) => o.Publish?) > 0 ==>
               ResolveActive(Run(EMPTY_MANAGER, ops[..i])).Some?)
            <==> Never(Darkens, EMPTY_MANAGER, ops)
  {
    hide WellFormed, Idle, Darkens, ResolveActive, Run, Accepted, Never;
    RunsAreWellFormed([]);
    NothingPublished();
    ResolvesThroughout(EMPTY_MANAGER, ops);
    forall i | 0 <= i <= |ops|
      ensures Idle(Run(EMPTY_MANAGER, ops[..i])) <==> Accepted(EMPTY_MANAGER, ops[..i], (o: Op) => o.Publish?) == 0
    {
      IdleUntilPublish(ops[..i]);
    }
  }

  lemma PublishResolves(m: ManagerValue, id: string, now: int)
    requires WellFormed(m) && CanPublish(m, id)
    ensures ResolveActive(AfterPublish(m, id, now)).Some? && ResolveActive(AfterPublish(m, id, now)).value.id == id
  {
    assert IdentifierOK(m, id);
  }

  function Accepted(m: ManagerValue, ops: seq<Op>, which: Op -> bool): nat {
    if ops == [] then 0
    else
      var front, last := ops[..|ops| - 1], ops[|ops| - 1];
      Accepted(m, front, which) + (if which(last) && Accepts(Run(m, front), last) then 1 else 0)
  }

  ghost function InStates(m: ManagerValue, states: set<VersionState>): set<string> {
    set id | id in m.versions && m.versions[id].state in states
  }

  const LEFT_DRAFT: set<VersionState> := {Published, Superseded, RolledBack}

  lemma CreateCounts(m: ManagerValue, t: string, layout: seq<string>, now: int)
    requires Mint(t, |m.versions| + 1) !in m.versions
    ensures var p := Created(m, t, layout, now);
            && |p.versions| == |m.versions| + 1
            && InStates(p, LEFT_DRAFT) == InStates(m, LEFT_DRAFT)
            && InStates(p, {RolledBack}) == InStates(m, {RolledBack})
  {
  }

  /** An accepted Publish moves exactly one version out of Draft. */
  lemma PublishCounts(m: ManagerValue, id: string, now: int)
    requires CanPublish(m, id)
    ensures var p := AfterPublish(m, id, now);
            && p.versions.Keys == m.versions.Keys
            && id !in InStates(m, LEFT_DRAFT)
            && InStates(p, LEFT_DRAFT) == InStates(m, LEFT_DRAFT) + {id}
            && InStates(p, {RolledBack}) == InStates(m, {RolledBack})
  {
  }

  /** An accepted Rollback moves exactly one version into RolledBack, and may move its parent out of Draft. */
  lemma RollbackCounts(m: ManagerValue, id: string)
    requires CanRollback(m, id) && m.versions[id].parentID != id
    ensures var p := AfterRollback(m, id);
            && p.versions.Keys == m.versions.Keys
            && InStates(p, LEFT_DRAFT) == InStates(m, LEFT_DRAFT) + {m.versions[id].parentID}
            && id !in InStates(m, {RolledBack})
            && InStates(p, {RolledBack}) == InStates(m, {RolledBack}) + {id}
  {
  }

  lemma StepCounts(m: ManagerValue, op: Op)
    requires WellFormed(m)
    ensures var p := Apply(m, op);
            && |p.versions| == |m.versions| + (if op.Create? && Accepts(m, op) then 1 else 0)
            && |InStates(p, LEFT_DRAFT)| >= |InStates(m, LEFT_DRAFT)| + (if op.Publish? && Accepts(m, op) then 1 else 0)
            && |InStates(p, {RolledBack})| == |InStates(m, {RolledBack})| + (if op.Rollback? && Accepts(m, op) then 1 else 0)
  {
    if Accepts(m, op) {
      match op
      case Create(t, tables, now) =>
        CreateIsFresh(m, t);
        CreateCounts(m, t, tables[t], now);
      case Publish(id, now) =>
        PublishCounts(m, id, now);
        SameKeysSameSize(m, AfterPublish(m, id, now));
      case Rollback(id) =>
        ParentsDiffer(m, id);
        RollbackCounts(m, id);
        Subset(InStates(m, LEFT_DRAFT), InStates(AfterRollback(m, id), LEFT_DRAFT));
        SameKeysSameSize(m, AfterRollback(m, id));
    }
  }

  lemma SameKeysSameSize(m: ManagerValue, p: ManagerValue)
    requires p.versions.Keys == m.versions.Keys
    ensures |p.versions| == |m.versions|
  {
  }

  lemma {:induction false} Subset<T>(a: set<T>, b: set<T>)
    requires a <= b
    ensures |a| <= |b|
  {
    if a != {} {
      var x :| x in a;
      Subset(a - {x}, b - {x});
    }
  }

  lemma {:induction false} RunCounts(ops: seq<Op>)
    ensures var m := Run(EMPTY_MANAGER, ops);
            && Accepted(EMPTY_MANAGER, ops, (o: Op) => o.Create?) == |m.versions|
            && Accepted(EMPTY_MANAGER, ops, (o: Op) => o.Publish?) <= |InStates(m, LEFT_DRAFT)|
            && Accepted(EMPTY_MANAGER, ops, (o: Op) => o.Rollback?) == |InStates(m, {RolledBack})|
  {
    if ops == [] {
      assert InStates(EMPTY_MANAGER, LEFT_DRAFT) == {} && InStates(EMPTY_MANAGER, {RolledBack}) == {};
    } else {
      RunCounts(ops[..|ops| - 1]);
      RunsAreWellFormed(ops[..|ops| - 1]);
      StepCounts(Run(EMPTY_MANAGER, ops[..|ops| - 1]), ops[|ops| - 1]);
    }
  }

  /** In any run the accepted publishes and rollbacks together number at most twice the accepted creates. */
  lemma TransitionsBounded(ops: seq<Op>)
    ensures Accepted(EMPTY_MANAGER, ops, (o: Op) => o.Publish?) + Accepted(EMPTY_MANAGER, ops, (o: Op) => o.Rollback?)
            <= 2 * Accepted(EMPTY_MANAGER, ops, (o: Op) => o.Create?)
  {
    RunCounts(ops);
    var m := Run(EMPTY_MANAGER, ops);
    Subset(InStates(m, LEFT_DRAFT), m.versions.Keys);
    Subset(InStates(m, {RolledBack}), m.versions.Keys);
  }

  lemma RunNext(m: ManagerValue, ops: seq<Op>, op: Op)
    ensures Run(m, ops + [op]) == Apply(Run(m, ops), op)
  {
  }

  /** One table with three versions in the given states. */
  ghost predicate Three(m: ManagerValue, t: string, a: VersionState, b: VersionState, c: VersionState, active: string) {
    var v1, v2, v3 := Mint(t, 1), Mint(t, 2), Mint(t, 3);
    && v1 != v2 && v2 != v3 && v1 != v3 && m.versions.Keys == {v1, v2, v3} && m.activeID == active
    && m.versions[v1].state == a && m.versions[v2].state == b && m.versions[v3].state == c
    && m.versions[v2].parentID == v1 && m.versions[v3].parentID == v2
  }

  lemma CreateNext(m: ManagerValue, t: string, n: nat)
    requires |m.versions| == n && Mint(t, n + 1) !in m.versions
    ensures var p := Apply(m, Create(t, map[t := []], 0));
            p == Recorded(m, Mint(t, n + 1), t, [], 0) && |p.versions| == n + 1
  {
  }

  /** The first k versions of one table, all drafts. */
  ghost predicate Drafts(m: ManagerValue, t: string, k: nat) {
    var v1, v2, v3 := Mint(t, 1), Mint(t, 2), Mint(t, 3);
    && v1 != v2 && v2 != v3 && v1 != v3 && |m.versions| == k && m.activeID == ""
    && m.versions.Keys == (match k case 0 => {} case 1 => {v1} case 2 => {v1, v2} case _ => {v1, v2, v3})
    && (k > 0 ==> t in m.lastByTable && m.lastByTable[t] == Mint(t, k))
    && (forall id :: id in m.versions ==> m.versions[id].state == Draft)
    && (k >= 2 ==> m.versions[v2].parentID == v1) && (k >= 3 ==> m.versions[v3].parentID == v2)
  }

  lemma NextDraft(m: ManagerValue, t: string, k: nat)
    requires Drafts(m, t, k) && k < 3
    ensures Drafts(Apply(m, Create(t, map[t := []], 0)), t, k + 1)
  {
    hide Mint, Apply;
    CreateNext(m, t, k);
  }

  lemma ThreeCreated(t: string) returns (ops: seq<Op>)
    ensures Three(Run(EMPTY_MANAGER, ops), t, Draft, Draft, Draft, "")
  {
    hide Mint, Apply;
    MintInjective(t, 1, t, 2);
    MintInjective(t, 2, t, 3);
    MintInjective(t, 1, t, 3);
    ops := [];
    for k := 0 to 3
      invariant Drafts(Run(EMPTY_MANAGER, ops), t, k)
    {
      NextDraft(Run(EMPTY_MANAGER, ops), t, k);
      RunNext(EMPTY_MANAGER, ops, Create(t, map[t := []], 0));
      ops := ops + [Create(t, map[t := []], 0)];
    }
  }

  lemma PublishOneOfThree(m: ManagerValue, t: string)
    ensures Three(m, t, Draft, Draft, Draft, "") ==>
              Three(Apply(m, Publish(Mint(t, 1), 1)), t, Published, Draft, Draft, Mint(t, 1))
    ensures Three(m, t, Published, Draft, Draft, Mint(t, 1)) ==>
              Three(Apply(m, Publish(Mint(t, 2), 2)), t, Superseded, Published, Draft, Mint(t, 2))
    ensures Three(m, t, Superseded, Published, Draft, Mint(t, 2)) ==>
              Three(Apply(m, Publish(Mint(t, 3), 3)), t, Superseded, Superseded, Published, Mint(t, 3))
  {
    hide Mint;
  }

  /** Each of the three versions published in turn. */
  lemma ThreePublished(t: string) returns (ops: seq<Op>)
    ensures Three(Run(EMPTY_MANAGER, ops), t, Superseded, Superseded, Published, Mint(t, 3))
  {
    hide Three, Mint, Apply;
    ops := ThreeCreated(t);
    for i := 1 to 4
      invariant i == 1 ==> Three(Run(EMPTY_MANAGER, ops), t, Draft, Draft, Draft, "")
      invariant i == 2 ==> Three(Run(EMPTY_MANAGER, ops), t, Published, Draft, Draft, Mint(t, 1))
      invariant i == 3 ==> Three(Run(EMPTY_MANAGER, ops), t, Superseded, Published, Draft, Mint(t, 2))
      invariant i == 4 ==> Three(Run(EMPTY_MANAGER, ops), t, Superseded, Superseded, Published, Mint(t, 3))
    {
      PublishOneOfThree(Run(EMPTY_MANAGER, ops), t);
      RunNext(EMPTY_MANAGER, ops, Publish(Mint(t, i), i));
      ops := ops + [Publish(Mint(t, i), i)];
    }
  }

  /**
   A run whose last, accepted Rollback targets the active version and leaves none active: its parent stays superseded.
   */
  lemma RollbackCanLeaveNoneActive(t: string) returns (ops: seq<Op>)
    ensures var n := |ops| - 1;
            && n >= 0 && ops[n] == Rollback(Run(EMPTY_MANAGER, ops[..n]).activeID) && Accepts(Run(EMPTY_MANAGER, ops[..n]), ops[n])
            && ResolveActive(Run(EMPTY_MANAGER, ops[..n])).Some? && ResolveActive(Run(EMPTY_MANAGER, ops)) == None
  {
    var front := ThreePublished(t);
    ops := front + [Rollback(Mint(t, 3))];
    assert ops[..|ops| - 1] == front;
  }

  /**
   A run whose last, accepted Rollback targets a superseded version: another version stays published, and is not the
   one pointed to.
   */
  lemma RollbackCanStrandPublished(t: string) returns (ops: seq<Op>)
    ensures var m := Run(EMPTY_MANAGER, ops);
            && Mint(t, 3) in m.versions && m.versions[Mint(t, 3)].state == Published
            && m.activeID == Mint(t, 1) != Mint(t, 3) && ResolveActive(m) == None
  {
    var front := ThreePublished(t);
    ops := front + [Rollback(Mint(t, 2))];
    assert ops[..|ops| - 1] == front;
    MintInjective(t, 1, t, 3);
  }
}
