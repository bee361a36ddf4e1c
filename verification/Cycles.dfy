/** When planning fails: exactly when newly added tables reference each other in a cycle. */
module Cycles {
  import opened Catalog
  import opened Operations
  import opened Graphs
  import opened Lists
  import opened Dag
  import opened Planner
  import opened PlanTheorems

  // ----- the claim

  /** The new table of operation `i` has a foreign key to the different new table of operation `j`. */
  ghost predicate References(ops: seq<Op>, i: nat, j: nat) {
    && i < |ops| && j < |ops| && i != j
    && ops[i].AddTableOp? && ops[j].AddTableOp?
    && exists n :: n in ops[i].tableDef.constraints && IsForeignKey(ops[i].tableDef.constraints[n]) &&
                   ReferencedTable(ops[i].tableDef.constraints[n]) == ops[j].Key()
  }

  /** New tables that reference each other in a ring; no table references itself in it. */
  ghost predicate IsReferenceCycle(ops: seq<Op>, p: seq<nat>) {
    && |p| >= 2
    && (forall k :: 0 <= k < |p| - 1 ==> References(ops, p[k], p[k + 1]))
    && p[0] == p[|p| - 1]
  }

  /** No two operations add the same table. */
  ghost predicate TablesAddedOnce(ops: seq<Op>) {
    forall i, j :: 0 <= i < j < |ops| && ops[i].AddTableOp? && ops[j].AddTableOp? ==>
      ops[i].Key() != ops[j].Key()
  }

  // ----- general facts about cycles

  ghost predicate Edge(g: Graph, u: nat, v: nat) {
    u < |g.deps| && v in g.deps[u]
  }

  lemma {:induction false} WalkBounds(g: Graph, p: seq<nat>, m: nat -> int, k: nat)
    requires IsWalk(g, p) && k < |p|
    requires forall i :: 0 <= i < |p| - 1 ==> m(p[i + 1]) < m(p[i])
    ensures m(p[k]) <= m(p[0]) - k
  {
    if k > 0 {
      WalkBounds(g, p, m, k - 1);
      assert m(p[k - 1 + 1]) < m(p[k - 1]);
    }
  }

  /** Nothing can get smaller along every edge of a cycle. */
  lemma NoDescendingCycle(g: Graph, p: seq<nat>, m: nat -> int)
    requires IsWalk(g, p) && |p| >= 2
    requires forall i :: 0 <= i < |p| - 1 ==> m(p[i + 1]) < m(p[i])
    ensures !IsCycle(g, p)
  {
    WalkBounds(g, p, m, |p| - 1);
  }

  /** A property that edges pass on and that holds somewhere on a cycle holds all along it. */
  lemma {:induction false} PassedAlong(g: Graph, p: seq<nat>, q: nat -> bool, from: nat, k: nat)
    requires IsWalk(g, p) && from <= k < |p| && q(p[from])
    requires forall i :: 0 <= i < |p| - 1 && q(p[i]) ==> q(p[i + 1])
    ensures q(p[k])
    decreases k
  {
    if from < k {
      PassedAlong(g, p, q, from, k - 1);
      assert q(p[k - 1 + 1]);
    }
  }

  lemma AllAlong(g: Graph, p: seq<nat>, q: nat -> bool, from: nat, k: nat)
    requires IsCycle(g, p) && from < |p| && k < |p| && q(p[from])
    requires forall i :: 0 <= i < |p| - 1 && q(p[i]) ==> q(p[i + 1])
    ensures q(p[k])
  {
    PassedAlong(g, p, q, from, |p| - 1);
    PassedAlong(g, p, q, 0, k);
  }

  /** An edge goes to an operation whose key is depended on. */
  lemma EdgeKey(ops: seq<Op>, u: nat, v: nat)
    requires Edge(GraphOf(ops), u, v)
    ensures u < |ops| && v < |ops| && u != v
    ensures ops[v].Key() in ops[u].DependsOn() && Resolve(ops, ops[v].Key()) == Some(v)
  {
    var key :| key in ops[u].DependsOn() && Resolve(ops, key).Some? && Resolve(ops, key).value == v && v != u;
    assert HasKey(ops, key, v);
  }

  lemma WalkEdge(g: Graph, p: seq<nat>, i: nat)
    requires IsWalk(g, p) && i + 1 < |p|
    ensures Edge(g, p[i], p[i + 1])
  {
  }

  // ----- deploy and post-deploy

  ghost predicate OfStage(ops: seq<Op>, stage: Stage) {
    forall op :: op in ops ==> StageOf(op) == stage
  }

  /** Deploy operations depend on tables only, and no deploy operation has a table's key. */
  lemma DeployHasNoEdges(ops: seq<Op>)
    requires OfStage(ops, Deploy)
    ensures forall i: nat :: i < |ops| ==> GraphOf(ops).deps[i] == {}
  {
    forall i: nat | i < |ops| ensures DepsOf(ops, i) == {} {
      forall key | key in ops[i].DependsOn() ensures Resolve(ops, key).None? {
        assert ops[i] in ops;
        assert key.kind == KTable;
        forall j: nat ensures !HasKey(ops, key, j) {
          if j < |ops| { assert ops[j] in ops; }
        }
      }
    }
  }

  /** The deploy stage keeps the order in which its operations were emitted. */
  lemma DeployUnchanged(ops: seq<Op>, sorted: seq<Op>)
    requires OfStage(ops, Deploy) && IsSorted(ops, sorted)
    ensures sorted == ops
  {
    DeployHasNoEdges(ops);
    var order := SortedFacts(ops, sorted);
    NoEdgesUnchanged(GraphOf(ops), order);
  }

  lemma DeployAcyclic(ops: seq<Op>)
    requires OfStage(ops, Deploy)
    ensures Acyclic(GraphOf(ops))
  {
    DeployHasNoEdges(ops);
    forall p ensures !IsCycle(GraphOf(ops), p) {
      if IsCycle(GraphOf(ops), p) {
        WalkEdge(GraphOf(ops), p, 0);
        assert false;
      }
    }
  }

  /** In post-deploy only DROP COLUMN depends on anything, and then on a DROP TABLE. */
  lemma PostKeys(a: Op, b: Op)
    requires StageOf(a) == PostDeploy && StageOf(b) == PostDeploy && b.Key() in a.DependsOn()
    ensures a.DropColumnOp? && b.DropTableOp?
  {
  }

  lemma PostDeployAcyclic(ops: seq<Op>)
    requires OfStage(ops, PostDeploy)
    ensures Acyclic(GraphOf(ops))
  {
    hide GraphOf, StageOf, Op.Key, Op.DependsOn;
    var g := GraphOf(ops);
    forall p ensures !IsCycle(g, p) {
      if IsCycle(g, p) {
        forall i | 0 <= i < |p| - 1 ensures PostRank(ops, p[i + 1]) < PostRank(ops, p[i]) {
          WalkEdge(g, p, i);
          EdgeKey(ops, p[i], p[i + 1]);
          assert ops[p[i]] in ops && ops[p[i + 1]] in ops;
          PostKeys(ops[p[i]], ops[p[i + 1]]);
        }
        NoDescendingCycle(g, p, (i: nat) => PostRank(ops, i));
      }
    }
  }

  ghost function PostRank(ops: seq<Op>, i: nat): int {
    if i < |ops| && ops[i].DropColumnOp? then 1 else 0
  }

  // ----- pre-deploy

  /** Edges between other operations than ADD TABLE go from a constraint to an earlier one with
      the same key, or from an enum label to a type with a shorter key. */
  ghost function PreRank(ops: seq<Op>, i: nat): int {
    if i >= |ops| then 0
    else if ops[i].AddConstraintOp? then i
    else if ops[i].AddEnumLabelOp? then |ops[i].Key().name|
    else -1
  }

  lemma NoDropsFirstMatch(ops: seq<Op>, u: nat, v: nat)
    requires OfStage(ops, PreDeploy) && u < |ops| && v < |ops|
    requires Resolve(ops, ops[u].Key()) == Some(v)
    ensures v <= u
  {
    var key := ops[u].Key();
    var matches := KeyPositions(ops, key);
    assert HasKey(ops, key, u) && u in Below(|ops|, (i: nat) => HasKey(ops, key, i));
    forall m | 0 <= m < |matches| ensures ops[matches[m]].Kind() != DropConstraint {
      assert HasKey(ops, key, matches[m]);
      assert ops[matches[m]] in ops;
    }
    PreferNoDrop(ops, matches);
    var at :| 0 <= at < |matches| && matches[at] == u;
    assert Ascending(matches);
    assert at > 0 ==> matches[0] < matches[at];
  }

  lemma PreKeys(a: Op, b: Op)
    requires StageOf(a) == PreDeploy && StageOf(b) == PreDeploy && b.Key() in a.DependsOn()
    ensures a.AddTableOp? ==> b.AddTableOp?
    ensures !b.AddTableOp? ==>
      || (a.AddConstraintOp? && b.AddConstraintOp? && a.Key() == b.Key())
      || (a.AddEnumLabelOp? && (b.AddEnumTypeOp? || b.AddEnumLabelOp?) && |b.Key().name| < |a.Key().name|)
  {
    if a.AddEnumLabelOp? {
      assert b.Key() == ObjectKey(a.schema, a.name, KType);
    } else if a.AddConstraintOp? {
      assert a.Key() == ObjectKey(a.schema, a.table + "." + a.constraint.name, KConstraint);
    } else {
      assert b.Key().kind == KTable;
    }
  }

  lemma PreEdge(ops: seq<Op>, u: nat, v: nat)
    requires OfStage(ops, PreDeploy) && Edge(GraphOf(ops), u, v)
    ensures u < |ops| && v < |ops|
    ensures ops[u].AddTableOp? ==> ops[v].AddTableOp?
    ensures !ops[v].AddTableOp? ==> PreRank(ops, v) < PreRank(ops, u)
  {
    hide OfStage;
    EdgeKey(ops, u, v);
    assert StageOf(ops[u]) == PreDeploy && StageOf(ops[v]) == PreDeploy by { StageAtIndex(ops, u, v); }
    hide StageOf, Resolve, Op.Key, Op.DependsOn;
    PreKeys(ops[u], ops[v]);
    if ops[u].AddConstraintOp? && !ops[v].AddTableOp? {
      NoDropsFirstMatch(ops, u, v);
    }
  }

  lemma StageAtIndex(ops: seq<Op>, u: nat, v: nat)
    requires OfStage(ops, PreDeploy) && u < |ops| && v < |ops|
    ensures StageOf(ops[u]) == PreDeploy && StageOf(ops[v]) == PreDeploy
  {
    assert ops[u] in ops && ops[v] in ops;
  }

  /** A pre-deploy cycle consists of ADD TABLE operations. */
  lemma PreCycleIsTables(ops: seq<Op>, p: seq<nat>)
    requires OfStage(ops, PreDeploy) && IsCycle(GraphOf(ops), p)
    ensures forall k :: 0 <= k < |p| ==> p[k] < |ops| && ops[p[k]].AddTableOp?
  {
    var g := GraphOf(ops);
    var q := (i: nat) => i < |ops| && ops[i].AddTableOp?;
    forall i | 0 <= i < |p| - 1
      ensures (q(p[i]) ==> q(p[i + 1])) && (!q(p[i + 1]) ==> PreRank(ops, p[i + 1]) < PreRank(ops, p[i]))
    {
      WalkEdge(g, p, i);
      PreEdge(ops, p[i], p[i + 1]);
    }
    if exists k: nat :: k < |p| && q(p[k]) {
      var from: nat :| from < |p| && q(p[from]);
      forall k: nat | k < |p| ensures q(p[k]) {
        AllAlong(g, p, q, from, k);
      }
    } else {
      forall i | 0 <= i < |p| - 1 ensures PreRank(ops, p[i + 1]) < PreRank(ops, p[i]) {
        var j: nat := i + 1;
        assert !q(p[j]);
      }
      NoDescendingCycle(g, p, (i: nat) => PreRank(ops, i));
    }
  }

  lemma PreCycleIsReferences(ops: seq<Op>, p: seq<nat>)
    requires OfStage(ops, PreDeploy) && IsCycle(GraphOf(ops), p)
    ensures IsReferenceCycle(ops, p)
  {
    PreCycleIsTables(ops, p);
    forall k | 0 <= k < |p| - 1 ensures References(ops, p[k], p[k + 1]) {
      WalkEdge(GraphOf(ops), p, k);
      EdgeKey(ops, p[k], p[k + 1]);
    }
  }

  lemma ReferenceIsEdge(ops: seq<Op>, u: nat, v: nat)
    requires OfStage(ops, PreDeploy) && TablesAddedOnce(ops) && References(ops, u, v)
    ensures Edge(GraphOf(ops), u, v)
  {
    var key := ops[v].Key();
    assert key in ops[u].DependsOn();
    assert HasKey(ops, key, v);
    var r := Resolve(ops, key).value;
    assert HasKey(ops, key, r);
    assert ops[r] in ops;
    assert r == v;
    assert v in DepsOf(ops, u);
  }

  lemma ReferencesAreCycle(ops: seq<Op>, p: seq<nat>)
    requires OfStage(ops, PreDeploy) && TablesAddedOnce(ops) && IsReferenceCycle(ops, p)
    ensures IsCycle(GraphOf(ops), p)
  {
    var g := GraphOf(ops);
    forall k | 0 <= k < |p| - 1 ensures Edge(g, p[k], p[k + 1]) {
      assert References(ops, p[k], p[k + 1]);
      ReferenceIsEdge(ops, p[k], p[k + 1]);
    }
    forall i | 0 <= i < |p| ensures p[i] < |g.deps| {
      assert References(ops, p[0], p[0 + 1]);
      if i < |p| - 1 { assert References(ops, p[i], p[i + 1]); }
    }
  }

  // ----- from a stage back to the whole list

  ghost function StagePositions(ops: seq<Op>, stage: Stage): seq<nat> {
    Positions(ops, |ops|, (op: Op) => StageOf(op) == stage)
  }

  lemma StageIsPick(ops: seq<Op>, stage: Stage)
    ensures OfStage(OpsOfStage(ops, stage), stage)
    ensures var at := StagePositions(ops, stage);
      && |at| == |OpsOfStage(ops, stage)|
      && Ascending(at)
      && (forall k :: 0 <= k < |at| ==> at[k] < |ops| && OpsOfStage(ops, stage)[k] == ops[at[k]])
      && (forall i: nat :: i < |ops| && StageOf(ops[i]) == stage ==> i in at)
  {
    var p := (op: Op) => StageOf(op) == stage;
    FilterIsPick(ops, |ops|, p);
    assert ops[..|ops|] == ops;
    forall i: nat | i < |ops| && StageOf(ops[i]) == stage ensures i in StagePositions(ops, stage) {
      assert Meets(ops, p, i);
    }
  }

  lemma StageReference(ops: seq<Op>, u: nat, v: nat)
    requires References(OpsOfStage(ops, PreDeploy), u, v)
    ensures var at := StagePositions(ops, PreDeploy);
      u < |at| && v < |at| && References(ops, at[u], at[v])
  {
    hide OpsOfStage, StagePositions;
    var s, at := OpsOfStage(ops, PreDeploy), StagePositions(ops, PreDeploy);
    StageIsPick(ops, PreDeploy);
    assert s[u] == ops[at[u]] && s[v] == ops[at[v]];
    assert at[u] != at[v];
  }

  ghost predicate MappedStep(ops: seq<Op>, at: seq<nat>, p: seq<nat>, k: nat)
    requires k + 1 < |p|
  {
    p[k] < |at| && p[k + 1] < |at| && References(ops, at[p[k]], at[p[k + 1]])
  }

  lemma CycleOfStage(ops: seq<Op>, p: seq<nat>) returns (q: seq<nat>)
    requires IsReferenceCycle(OpsOfStage(ops, PreDeploy), p)
    ensures IsReferenceCycle(ops, q)
  {
    hide OpsOfStage, StagePositions, References;
    var at := StagePositions(ops, PreDeploy);
    forall k: nat | k + 1 < |p| ensures MappedStep(ops, at, p, k) {
      StageReference(ops, p[k], p[k + 1]);
    }
    forall k | 0 <= k < |p| ensures p[k] < |at| {
      assert MappedStep(ops, at, p, if k + 1 < |p| then k else k - 1);
    }
    q := seq(|p|, k requires 0 <= k < |p| => at[p[k]]);
    forall k | 0 <= k < |q| - 1 ensures References(ops, q[k], q[k + 1]) {
      assert MappedStep(ops, at, p, k);
    }
  }

  ghost function PlaceIn(at: seq<nat>, i: nat): (k: nat)
    requires i in at
    ensures k < |at| && at[k] == i
  {
    var k :| 0 <= k < |at| && at[k] == i;
    k
  }

  lemma CycleToStage(ops: seq<Op>, p: seq<nat>) returns (q: seq<nat>)
    requires IsReferenceCycle(ops, p)
    ensures IsReferenceCycle(OpsOfStage(ops, PreDeploy), q)
  {
    var s, at := OpsOfStage(ops, PreDeploy), StagePositions(ops, PreDeploy);
    StageIsPick(ops, PreDeploy);
    forall k | 0 <= k < |p| ensures p[k] in at {
      if k < |p| - 1 { assert References(ops, p[k], p[k + 1]); }
      else { assert References(ops, p[k - 1], p[k - 1 + 1]); }
    }
    q := seq(|p|, k requires 0 <= k < |p| => PlaceIn(at, p[k]));
    forall k | 0 <= k < |q| - 1 ensures References(s, q[k], q[k + 1]) {
      assert References(ops, p[k], p[k + 1]);
      assert s[q[k]] == ops[p[k]] && s[q[k + 1]] == ops[p[k + 1]];
    }
  }

  lemma StageTablesOnce(ops: seq<Op>)
    requires TablesAddedOnce(ops)
    ensures TablesAddedOnce(OpsOfStage(ops, PreDeploy))
  {
    var s, at := OpsOfStage(ops, PreDeploy), StagePositions(ops, PreDeploy);
    StageIsPick(ops, PreDeploy);
    forall i, j | 0 <= i < j < |s| && s[i].AddTableOp? && s[j].AddTableOp?
      ensures s[i].Key() != s[j].Key()
    {
      assert at[i] < at[j];
      assert s[i] == ops[at[i]] && s[j] == ops[at[j]];
    }
  }

  /** Planning fails exactly when two or more new tables reference each other in a cycle. */
  lemma PlanningFailsExactlyOnReferenceCycles(ops: seq<Op>)
    requires TablesAddedOnce(ops)
    ensures !Plannable(ops) <==> exists p :: IsReferenceCycle(ops, p)
  {
    hide TablesAddedOnce, IsReferenceCycle, IsCycle, GraphOf, OpsOfStage, OfStage;
    var s := OpsOfStage(ops, PreDeploy);
    StageIsPick(ops, PreDeploy);
    StageIsPick(ops, Deploy);
    StageIsPick(ops, PostDeploy);
    DeployAcyclic(OpsOfStage(ops, Deploy));
    PostDeployAcyclic(OpsOfStage(ops, PostDeploy));
    StageTablesOnce(ops);
    if exists p :: IsReferenceCycle(ops, p) {
      var p :| IsReferenceCycle(ops, p);
      var q := CycleToStage(ops, p);
      ReferencesAreCycle(s, q);
    }
    if !Acyclic(GraphOf(s)) {
      var p :| IsCycle(GraphOf(s), p);
      PreCycleIsReferences(s, p);
      var q := CycleOfStage(ops, p);
    }
    assert Acyclic(GraphOf(s)) ==> Plannable(ops) by {
      if Acyclic(GraphOf(s)) {
        forall stage ensures Acyclic(GraphOf(OpsOfStage(ops, stage))) {
          match stage case PreDeploy => case Deploy => case PostDeploy =>
        }
      }
    }
  }
}
