/** Which operations wait for which, told by the objects they work on; and that in any plan, whatever
    its operations, a table or an enum type is made before anything works on it. */
module CreationOrder {
  import opened Catalog
  import opened Operations
  import opened Graphs
  import opened Lists
  import opened Dag
  import opened Planner
  import opened PlanTheorems

  // ----- what an operation works on

  predicate IsReference(c: Constraint, schema: string, name: string) {
    c.kind == "foreign_key" && c.refTable == name && name != "" && c.refSchema == schema
  }

  /** The operation changes the table, or makes one that refers to it. */
  ghost predicate WorksOnTable(x: Op, schema: string, name: string) {
    match x
    case AddTableOp(_, _, t) => exists n :: n in t.constraints && IsReference(t.constraints[n], schema, name)
    case CreateIndexOp(s, i) => s == schema && i.table == name
    case AddConstraintOp(s, t, _) => s == schema && t == name
    case _ => x.IsColumnOp() && x.schema == schema && x.table == name
  }

  ghost predicate AddsLabel(x: Op, schema: string, name: string) {
    x.AddEnumLabelOp? && x.schema == schema && x.name == name
  }

  /** `x` works on what `y` makes, changes or removes.  Keys join names by a dot, so that a label of a
      type can be taken for a type, and a constraint for another one. */
  ghost predicate Needs(x: Op, y: Op) {
    match y
    case AddTableOp(s, n, _) => WorksOnTable(x, s, n)
    case DropTableOp(s, n) => WorksOnTable(x, s, n)
    case AddEnumTypeOp(s, n, _) => AddsLabel(x, s, n)
    case DropEnumTypeOp(s, n) => AddsLabel(x, s, n)
    case AddEnumLabelOp(s, n, l) => AddsLabel(x, s, n + "." + l)
    case AddConstraintOp(s, t, c) => AddsConstraintNamed(x, s, t + "." + c.name)
    case DropConstraintOp(s, t, n) => AddsConstraintNamed(x, s, t + "." + n)
    case _ => false
  }

  predicate AddsConstraintNamed(x: Op, schema: string, name: string) {
    x.AddConstraintOp? && x.schema == schema && x.table + "." + x.constraint.name == name
  }

  lemma TableNeeded(x: Op, schema: string, name: string)
    ensures ObjectKey(schema, name, KTable) in x.DependsOn() <==> WorksOnTable(x, schema, name)
  {
    if x.AddTableOp? && WorksOnTable(x, schema, name) {
      var n :| n in x.tableDef.constraints && IsReference(x.tableDef.constraints[n], schema, name);
      assert ReferencedTable(x.tableDef.constraints[n]) == ObjectKey(schema, name, KTable);
    }
  }

  lemma OthersNeeded(x: Op, key: ObjectKey)
    ensures key.kind == KType ==> (key in x.DependsOn() <==> AddsLabel(x, key.schema, key.name))
    ensures key.kind == KConstraint ==> (key in x.DependsOn() <==> AddsConstraintNamed(x, key.schema, key.name))
    ensures key in x.DependsOn() ==> key.kind == KTable || key.kind == KType || key.kind == KConstraint
  {
  }

  lemma NeedsExactly(x: Op, y: Op)
    ensures y.Key() in x.DependsOn() <==> Needs(x, y)
  {
    hide WorksOnTable, AddsLabel, AddsConstraintNamed, Op.DependsOn;
    OthersNeeded(x, y.Key());
    TableNeeded(x, y.Key().schema, y.Key().name);
  }

  // ----- one sort

  /** No other operation has the key of operation `j`. */
  ghost predicate OnlyOne(ops: seq<Op>, j: nat)
    requires j < |ops|
  {
    forall k :: 0 <= k < |ops| && ops[k].Key() == ops[j].Key() ==> k == j
  }

  /** Operation `i` waits for operation `j`, if no other has its key, exactly when it works on what that
      makes, changes or removes. */
  lemma WaitsExactly(ops: seq<Op>, i: nat, j: nat)
    requires i < |ops| && j < |ops| && OnlyOne(ops, j)
    ensures j in GraphOf(ops).deps[i] <==> i != j && Needs(ops[i], ops[j])
  {
    hide Op.Key, Op.DependsOn, Needs;
    GraphDeps(ops, i);
    NeedsExactly(ops[i], ops[j]);
    var key := ops[j].Key();
    assert HasKey(ops, key, j);
    assert Resolve(ops, key) == Some(j);
    forall k | k in ops[i].DependsOn() && Resolve(ops, k) == Some(j) ensures k == key {
      assert HasKey(ops, k, j);
    }
  }

  lemma MadeBeforeUsed(ops: seq<Op>, sorted: seq<Op>, order: seq<nat>, a: nat, b: nat)
    requires IsSortOrder(ops, order) && sorted == PickOps(ops, order)
    requires a < |sorted| && b < |sorted| && a != b && OnlyOne(sorted, a) && Needs(sorted[b], sorted[a])
    ensures a < b
  {
    var u, v := order[a], order[b];
    hide Op.Key, Needs;
    OneInSort(ops, sorted, order, a);
    assert u != v;
    WaitsExactly(ops, v, u);
    hide GraphOf, Acyclic, IsSchedule, Resolve;
    ScheduleFullIffAcyclic(GraphOf(ops), order);
    GraphDeps(ops, v);
    assert u in order[..b];
    var k :| 0 <= k < b && order[k] == u;
    assert k == a;
  }

  lemma OneInSort(ops: seq<Op>, sorted: seq<Op>, order: seq<nat>, a: nat)
    requires IsSortOrder(ops, order) && sorted == PickOps(ops, order) && a < |sorted| && OnlyOne(sorted, a)
    ensures order[a] < |ops| && OnlyOne(ops, order[a]) && Distinct(order)
  {
    hide Op.Key, GraphOf;
    AllScheduled(ops, order);
    forall k | 0 <= k < |ops| && ops[k].Key() == ops[order[a]].Key() ensures k == order[a] {
      var v: nat := k;
      assert v in order;
      var i :| 0 <= i < |order| && order[i] == v;
      assert sorted[i].Key() == sorted[a].Key();
    }
  }

  lemma AllScheduled(ops: seq<Op>, order: seq<nat>)
    requires IsSortOrder(ops, order)
    ensures Distinct(order) && forall i: nat :: i < |ops| ==> i in order
  {
    ScheduleFullIffAcyclic(GraphOf(ops), order);
  }

  // ----- a whole plan

  predicate Makes(op: Op) {
    op.AddTableOp? || op.AddEnumTypeOp?
  }

  /** In any plan of any operations a table or an enum type that is made once comes before everything
      that works on it: changes of its columns, indexes, constraints, tables that refer to it, labels. */
  lemma MadeFirst(ops: seq<Op>, plan: seq<Op>, a: nat, b: nat)
    requires IsPlan(ops, plan) && a < |plan| && b < |plan| && a != b
    requires Makes(plan[a]) && OnlyOne(plan, a) && Needs(plan[b], plan[a])
    ensures a < b
  {
    hide IsSorted, OpsOfStage, StageOf, Needs, Op.Key;
    var pre, mid, post :| IsPlanOf(ops, pre, mid, post) && plan == pre + mid + post;
    StageOfSorted(ops, PreDeploy, pre);
    StageOfSorted(ops, Deploy, mid);
    StageOfSorted(ops, PostDeploy, post);
    MakesEarly(plan[a]);
    forall i | |pre| <= i < |plan| ensures StageOf(plan[i]) != PreDeploy {
      assert plan[i] == if i < |pre| + |mid| then mid[i - |pre|] else post[i - |pre| - |mid|];
    }
    if b < |pre| {
      assert pre[a] == plan[a] && pre[b] == plan[b];
      OneInPart(plan, pre, a);
      MadeInStage(OpsOfStage(ops, PreDeploy), pre, a, b);
    }
  }

  lemma MakesEarly(op: Op)
    requires Makes(op)
    ensures StageOf(op) == PreDeploy
  {
  }

  lemma OneInPart(plan: seq<Op>, pre: seq<Op>, a: nat)
    requires pre <= plan && a < |pre| && OnlyOne(plan, a)
    ensures OnlyOne(pre, a)
  {
  }

  lemma MadeInStage(ops: seq<Op>, sorted: seq<Op>, a: nat, b: nat)
    requires IsSorted(ops, sorted) && a < |sorted| && b < |sorted| && a != b
    requires OnlyOne(sorted, a) && Needs(sorted[b], sorted[a])
    ensures a < b
  {
    var order :| IsSortOrder(ops, order) && sorted == PickOps(ops, order);
    MadeBeforeUsed(ops, sorted, order, a, b);
  }
}
