/** Execution plans: destructive operations are filtered out unless allowed, the rest is split
    into three stages, and each stage is sorted by dependencies. */
module Planner {
  import opened Catalog
  import opened Contexts
  import opened Operations
  import opened Graphs
  import opened Lists
  import opened Dag

  // ----- filtering destructive operations

  /** What is left of `ops` unless dropping is allowed. */
  function Allowed(ops: seq<Op>, unsafeDrop: bool): seq<Op> {
    if unsafeDrop then ops else Filter(ops, (op: Op) => !op.IsDestructive())
  }

  datatype RemovalWarning = Found(count: nat) | Removed(kind: Kind, key: ObjectKey) | UseUnsafeDrop

  function Destructive(): Op -> bool { (op: Op) => op.IsDestructive() }

  /** A warning for each operation, in order. */
  function RemovalsOf(ops: seq<Op>): (r: seq<RemovalWarning>)
    ensures |r| == |ops| && forall i :: 0 <= i < |r| ==> r[i] == Removed(ops[i].Kind(), ops[i].Key())
  {
    seq(|ops|, i requires 0 <= i < |ops| => Removed(ops[i].Kind(), ops[i].Key()))
  }

  lemma NothingSelected(ops: seq<Op>)
    ensures ops[..0] == [] && forall p: Op -> bool :: Filter(ops[..0], p) == []
  {
  }

  /** Keeps the operations that are not destructive; warns about each of the others between a
      heading and a hint. */
  method FilterDestructiveOps(ops: seq<Op>, unsafeDrop: bool)
    returns (filtered: seq<Op>, warnings: seq<RemovalWarning>)
    ensures filtered == Allowed(ops, unsafeDrop)
    ensures var removed := if unsafeDrop then [] else Filter(ops, Destructive());
      && |filtered| + |removed| == |ops|
      && warnings == if removed == [] then [] else [Found(|removed|)] + RemovalsOf(removed) + [UseUnsafeDrop]
  {
    hide Op.IsDestructive, Op.Kind, Op.Key, Filter;
    if unsafeDrop {
      return ops, [];
    }
    NothingSelected(ops);
    var keep := (op: Op) => !op.IsDestructive();
    filtered := [];
    warnings := [];
    var destructiveCount := 0;
    for i := 0 to |ops|
      invariant filtered == Filter(ops[..i], keep)
      invariant destructiveCount == |Filter(ops[..i], Destructive())| == i - |filtered|
    {
      FilterStep(ops, i, keep);
      FilterStep(ops, i, Destructive());
      if !ops[i].IsDestructive() {
        filtered := filtered + [ops[i]];
      } else {
        destructiveCount := destructiveCount + 1;
      }
    }
    assert ops[..|ops|] == ops;
    if destructiveCount > 0 {
      warnings := [Found(destructiveCount)];
      for i := 0 to |ops|
        invariant warnings == [Found(destructiveCount)] + RemovalsOf(Filter(ops[..i], Destructive()))
      {
        FilterStep(ops, i, Destructive());
        if ops[i].IsDestructive() {
          warnings := warnings + [Removed(ops[i].Kind(), ops[i].Key())];
        }
      }
      warnings := warnings + [UseUnsafeDrop];
    }
  }

  // ----- stages and plans

  function OpsOfStage(ops: seq<Op>, stage: Stage): seq<Op> {
    Filter(ops, (op: Op) => StageOf(op) == stage)
  }

  /** Groups the operations by stage. */
  method Plan(ctx: Context, ops: seq<Op>) returns (interrupted: bool, stages: map<Stage, seq<Op>>)
    modifies ctx
    ensures old(ctx.Cancelled()) ==> ctx.Cancelled()
    ensures interrupted ==> ctx.Cancelled() && ops != []
    ensures !interrupted ==> ctx.Cancelled() == old(ctx.Cancelled())
    ensures !interrupted ==> forall stage :: stage in stages && stages[stage] == OpsOfStage(ops, stage)
    ensures old(ctx.Cancelled()) && ops != [] ==> interrupted
  {
    stages := map[PreDeploy := [], Deploy := [], PostDeploy := []];
    forall stage ensures stage in stages && stages[stage] == OpsOfStage(ops[..0], stage) {
      match stage case PreDeploy => case Deploy => case PostDeploy =>
    }
    for i := 0 to |ops|
      invariant ctx.Cancelled() == old(ctx.Cancelled()) && (old(ctx.Cancelled()) ==> i == 0)
      invariant forall stage :: stage in stages && stages[stage] == OpsOfStage(ops[..i], stage)
    {
      var err := ctx.Err();
      if err {
        return true, stages;
      }
      var stage := AssignStage(ops[i].Kind());
      forall st ensures OpsOfStage(ops[..i + 1], st) ==
        OpsOfStage(ops[..i], st) + (if st == stage then [ops[i]] else [])
      {
        FilterStep(ops, i, (op: Op) => StageOf(op) == st);
      }
      stages := stages[stage := stages[stage] + [ops[i]]];
    }
    assert ops[..|ops|] == ops;
    interrupted := false;
  }

  /** `plan` is `ops` stage by stage, each stage sorted. */
  ghost predicate IsPlan(ops: seq<Op>, plan: seq<Op>) {
    exists pre, mid, post :: IsPlanOf(ops, pre, mid, post) && plan == pre + mid + post
  }

  ghost predicate IsPlanOf(ops: seq<Op>, pre: seq<Op>, mid: seq<Op>, post: seq<Op>) {
    && IsSorted(OpsOfStage(ops, PreDeploy), pre)
    && IsSorted(OpsOfStage(ops, Deploy), mid)
    && IsSorted(OpsOfStage(ops, PostDeploy), post)
  }

  /** No stage has a dependency cycle. */
  ghost predicate Plannable(ops: seq<Op>) {
    forall stage :: Acyclic(GraphOf(OpsOfStage(ops, stage)))
  }

  ghost function Concat(blocks: seq<seq<Op>>): seq<Op> {
    if blocks == [] then [] else Concat(blocks[..|blocks| - 1]) + blocks[|blocks| - 1]
  }

  method BuildExecutionPlan(ctx: Context, ops: seq<Op>, unsafeDrop: bool) returns (r: SortResult)
    modifies ctx
    ensures old(ctx.Cancelled()) ==> ctx.Cancelled()
    ensures r.Interrupted? ==> ctx.Cancelled() && ops != []
    ensures !r.Interrupted? ==> ctx.Cancelled() == old(ctx.Cancelled())
    ensures r.CycleDetected? ==> !Plannable(ops)
    ensures r.Ordered? ==> Plannable(ops) && IsPlan(ops, r.ops)
    ensures ops == [] ==> r == Ordered([])
    ensures old(ctx.Cancelled()) && ops != [] ==> r.Interrupted?
  {
    hide IsSorted, Acyclic, GraphOf;
    var interrupted, stages := Plan(ctx, ops);
    if interrupted {
      return Interrupted;
    }
    var stageOrder := [PreDeploy, Deploy, PostDeploy];
    var allOps: seq<Op> := [];
    ghost var blocks: seq<seq<Op>> := [];
    for i := 0 to 3
      invariant ctx.Cancelled() == old(ctx.Cancelled())
      invariant |blocks| == i && allOps == Concat(blocks)
      invariant forall k :: 0 <= k < i ==> (
        && Acyclic(GraphOf(OpsOfStage(ops, stageOrder[k])))
        && IsSorted(OpsOfStage(ops, stageOrder[k]), blocks[k]))
      invariant ops == [] ==> allOps == []
    {
      var stageOps := stages[stageOrder[i]];
      if |stageOps| == 0 {
        NothingToSort(stageOps);
        blocks := blocks + [[]];
        assert blocks[..i] + [[]] == blocks;
        continue;
      }
      var sorted := TopoSort(ctx, stageOps);
      if !sorted.Ordered? {
        return sorted;
      }
      allOps := allOps + sorted.ops;
      blocks := blocks + [sorted.ops];
    }
    assert allOps == blocks[0] + blocks[1] + blocks[2] by {
      assert Concat(blocks) == Concat(blocks[..2]) + blocks[2];
      assert Concat(blocks[..2]) == Concat(blocks[..2][..1]) + blocks[1];
      assert blocks[..2][..1] == [blocks[0]];
      assert Concat([blocks[0]]) == Concat([]) + blocks[0];
    }
    assert IsPlanOf(ops, blocks[0], blocks[1], blocks[2]);
    forall stage ensures Acyclic(GraphOf(OpsOfStage(ops, stage))) {
      match stage
      case PreDeploy => assert stageOrder[0] == stage;
      case Deploy => assert stageOrder[1] == stage;
      case PostDeploy => assert stageOrder[2] == stage;
    }
    return Ordered(allOps);
  }

  lemma NothingToSort(ops: seq<Op>)
    requires ops == []
    ensures IsSorted(ops, []) && Acyclic(GraphOf(ops))
  {
    GraphBelowValid(ops, 0);
    ScheduleFullIffAcyclic(GraphOf(ops), []);
    assert IsSortOrder(ops, []) && PickOps(ops, []) == [];
  }
}
