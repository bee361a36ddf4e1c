/** When no table is dropped while another one still refers to it, in emission order and in a plan;
    and the differ's operations carried out in emission order. */
module Removal {
  import opened Catalog
  import opened Operations
  import opened Names
  import opened Graphs
  import opened Lists
  import opened Dag
  import opened Planner
  import opened PlanTheorems
  import opened DiffSpec
  import opened Locality
  import opened TableEdits
  import opened Semantics
  import opened Execution
  import opened ObjectMigration
  import opened TableMigration
  import opened DiffShape
  import opened TableSteps
  import opened SchemaMigration
  import opened PlannedDiff
  import opened TablePlans
  import opened PlanApplies
  import opened EmissionOrder
  import opened Resolution
  import opened PlanOrder

  predicate IsOld(s: SchemaDef, t: SchemaDef, ns: string, n: string) {
    ns in t.schemas && n in SourceOf(s, ns).tables && n !in t.schemas[ns].tables
  }

  /** Constraint `i` of table `xn` is a foreign key to the old table `n` when that is dropped.  In
      emission order the earlier tables are the target's by then, and the later ones the source's; in
      a plan everything has been added, but nothing of a later table removed. */
  ghost predicate BindsThen(order: Order, s: SchemaDef, t: SchemaDef, xns: string, xn: string, i: string, ns: string,
                            n: string)
  {
    if order.AsEmitted? then Binds(if Earlier(s, t, xns, xn, ns, n) then t else s, xns, xn, i, ns, n)
    else Binds(t, xns, xn, i, ns, n) || (!Earlier(s, t, xns, xn, ns, n) && Binds(s, xns, xn, i, ns, n))
  }

  /** No table is dropped while another one has a foreign key to it. */
  ghost predicate DropsFreely(order: Order, s: SchemaDef, t: SchemaDef) {
    forall ns, n, xns, xn, i :: IsOld(s, t, ns, n) ==> !BindsThen(order, s, t, xns, xn, i, ns, n)
  }

  // ----- foreign keys that stay

  lemma AttachedRefers(c: Constraint, table: string, ns: string, n: string)
    ensures RefersTo(Attached(c, table), ns, n) <==> RefersTo(c, ns, n)
  {
  }

  lemma UnchangedRefers(a: Constraint, b: Constraint, ns: string, n: string)
    requires !ConstraintChanged(a, b)
    ensures RefersTo(a, ns, n) <==> RefersTo(b, ns, n)
  {
  }

  lemma TableEndsBound(order: Order, u: NamespaceDef, v: NamespaceDef, m: string, w: Option<TableDef>, i: string,
                       ns: string, n: string)
    requires TableDone(order, u, v, m, w)
    ensures w.Some? <==> m in v.tables
    ensures w.Some? ==>
      && (i in w.value.constraints <==> i in v.tables[m].constraints)
      && (i in w.value.constraints ==>
            (RefersTo(w.value.constraints[i], ns, n) <==> RefersTo(v.tables[m].constraints[i], ns, n)))
  {
    hide After, AfterIndexes, ConstraintChanged, RefersTo, Attached;
    if m in v.tables && i in v.tables[m].constraints {
      AttachedRefers(v.tables[m].constraints[i], m, ns, n);
      AttachedRefers(v.tables[m].constraints[i], v.tables[m].name, ns, n);
      if m in u.tables && i in u.tables[m].constraints &&
         !ConstraintChanged(u.tables[m].constraints[i], v.tables[m].constraints[i])
      {
        UnchangedRefers(u.tables[m].constraints[i], v.tables[m].constraints[i], ns, n);
      }
    }
  }

  /** In the end a table of the target's namespaces has the target's foreign keys. */
  lemma BoundInTheEnd(order: Order, s: SchemaDef, t: SchemaDef, r: SchemaDef, xns: string, xn: string, i: string,
                      ns: string, n: string)
    requires Migrated(order, s, t, r) && xns in t.schemas
    ensures Binds(r, xns, xn, i, ns, n) <==> Binds(t, xns, xn, i, ns, n)
  {
    hide RefersTo, TableDone, AfterTypes, AfterViews, AfterSequences, AfterExtensions;
    assert NamespaceDone(order, s, t, xns, Get(r.schemas, xns));
    TableEndsBound(order, SourceOf(s, xns), t.schemas[xns], xn, Get(r.schemas[xns].tables, xn), i, ns, n);
  }

  // ----- what touches a constraint

  lemma TouchedConcerns(ns: string, n: string, i: string, op: Op)
    requires TouchesConstraint(ns, n, i)(op)
    ensures Concerns(ns, n)(op)
  {
    if !op.DropSchemaOp? { assert Mine(ns, n)(op); }
  }

  lemma DropIsMine(op: Op)
    requires op.DropTableOp?
    ensures Mine(op.schema, op.name)(op) && StageOf(op) == PostDeploy && PartOf(op) == Tables
  {
  }

  lemma DropTouchesNoOther(op: Op, ns: string, n: string, i: string)
    requires op.DropTableOp? && (ns, n) != (op.schema, op.name)
    ensures !TouchesConstraint(ns, n, i)(op)
  {
  }

  lemma StepsDrop(u: NamespaceDef, v: NamespaceDef, k: string, op: Op)
    requires op.DropTableOp?
    ensures op !in NewTableStep(u, v)(k)
    ensures op in OldTableStep(u, v)(k) <==>
      k in u.tables && k !in v.tables && op == DropTableOp(u.name, k)
  {
  }

  lemma NamespaceDrops(u: NamespaceDef, v: NamespaceDef, walk: Walk, op: Op)
    requires SameNamed(u, v) && op.DropTableOp?
    ensures op in TablesOps(u, v, walk) <==> op.schema == u.name && op.name in u.tables && op.name !in v.tables
  {
    hide SameNamed, NewTableStep, OldTableStep, CommonTableStep, Flat;
    var f, g, h := NewTableStep(u, v), OldTableStep(u, v), CommonTableStep(u, v, walk);
    if op in Flat(Sorted(v.tables.Keys), f) {
      var k := FlatMember(Sorted(v.tables.Keys), f, op);
      StepsDrop(u, v, k, op);
    }
    if op in Flat(Sorted(u.tables.Keys), g) {
      var k := FlatMember(Sorted(u.tables.Keys), g, op);
      StepsDrop(u, v, k, op);
    }
    if op in Flat(Sorted(v.tables.Keys), h) {
      var k := FlatMember(Sorted(v.tables.Keys), h, op);
      CommonStepHome(u, v, walk, k);
      CommonDropsNone(CommonTableStep(u, v, walk)(k), v.name, k, op);
    }
    if op.schema == u.name && op.name in u.tables && op.name !in v.tables {
      StepsDrop(u, v, op.name, op);
      FlatHas(Sorted(u.tables.Keys), g, op.name, op);
    }
  }

  lemma CommonDropsNone(ops: seq<Op>, ns: string, k: string, op: Op)
    requires AllOf(ops, ChangesTable(ns, k)) && op in ops
    ensures !op.DropTableOp? && !op.AddTableOp?
  {
    assert ChangesTable(ns, k)(op);
  }

  /** The tables that the differ drops. */
  lemma DiffDrops(s: SchemaDef, t: SchemaDef, walk: Walk, op: Op)
    requires WellFormed(s) && WellFormed(t) && op.DropTableOp?
    ensures op in DiffOps(s, t, walk) <==> IsOld(s, t, op.schema, op.name)
  {
    DropIsMine(op);
    hide WellFormed, DiffOps, Filter, TablesOps, SameNamed, PartOf, StageOf;
    var ns := op.schema;
    MemberOfPart(DiffOps(s, t, walk), op, Tables);
    if ns in t.schemas {
      SourceSameNamed(s, t, ns);
      DiffOfTables(s, t, walk, ns);
      NamesHere(s, t, ns, op.name);
      NamespaceDrops(SourceOf(s, ns), t.schemas[ns], walk, op);
    } else {
      NothingThere(s, t, walk, ns);
    }
  }

  // ----- emission order

  lemma BindsEmitted(s: SchemaDef, t: SchemaDef, walk: Walk, k: nat, xns: string, xn: string, i: string)
    requires WellFormed(s) && WellFormed(t) && Walks(walk, s) && k < |DiffOps(s, t, walk)|
    requires DiffOps(s, t, walk)[k].DropTableOp?
    ensures var ops := DiffOps(s, t, walk); var ns, n := ops[k].schema, ops[k].name;
      Apply(ops[..k], s).Ok? &&
      (Binds(Apply(ops[..k], s).value, xns, xn, i, ns, n) <==> BindsThen(AsEmitted, s, t, xns, xn, i, ns, n))
  {
    hide WellFormed, Walks, DiffOps, Apply, Migrated, Earlier, TouchesConstraint, Mine, Concerns, AllBefore,
      ConstraintAt, RefersTo;
    var ops := DiffOps(s, t, walk);
    var op, touches := ops[k], TouchesConstraint(xns, xn, i);
    var ns, n := op.schema, op.name;
    DiffApplies(s, t, walk);
    PrefixApplies(ops, k, s);
    DiffDrops(s, t, walk, op);
    if (xns, xn) != (ns, n) {
      DropIsMine(op);
      DropTouchesNoOther(op, xns, xn, i);
      ConstraintKept(xns, xn, i);
      TurnOrder(s, t, walk, xns, xn, ns, n);
      forall x | touches(x) ensures Concerns(xns, xn)(x) { TouchedConcerns(xns, xn, i, x); }
      if Earlier(s, t, xns, xn, ns, n) {
        BeforeWeaker(ops, Concerns(xns, xn), Mine(ns, n), touches, Mine(ns, n));
        TouchesOver(ops, k, touches, Mine(ns, n));
        StaysAfter(ops, s, k, touches, ConstraintView(xns, xn, i));
        EarlierInTarget(s, t, xns, xn, ns, n);
        BoundInTheEnd(AsEmitted, s, t, Apply(ops, s).value, xns, xn, i, ns, n);
      } else {
        BeforeWeaker(ops, Mine(ns, n), Concerns(xns, xn), Mine(ns, n), touches);
        TouchesAhead(ops, k, touches, Mine(ns, n));
        StaysBefore(ops, s, k, touches, ConstraintView(xns, xn, i));
      }
    }
  }

  /** A run drops no table that is referred to if and only if the schemas say so. */
  lemma UnboundFreely(order: Order, s: SchemaDef, t: SchemaDef, ops: seq<Op>)
    requires forall op: Op :: op.DropTableOp? ==> (op in ops <==> IsOld(s, t, op.schema, op.name))
    requires Apply(ops, s).Ok?
    requires forall k: nat, xns, xn, i :: k < |ops| && ops[k].DropTableOp? && Apply(ops[..k], s).Ok? ==>
      (Binds(Apply(ops[..k], s).value, xns, xn, i, ops[k].schema, ops[k].name) <==>
       BindsThen(order, s, t, xns, xn, i, ops[k].schema, ops[k].name))
    ensures (forall k: nat :: k < |ops| ==> UnboundAt(ops, k, s)) <==> DropsFreely(order, s, t)
  {
    hide Apply, Binds, BindsThen, IsOld;
    if forall k: nat :: k < |ops| ==> UnboundAt(ops, k, s) {
      forall ns, n, xns, xn, i | IsOld(s, t, ns, n) ensures !BindsThen(order, s, t, xns, xn, i, ns, n) {
        assert DropTableOp(ns, n) in ops;
        var k: nat :| k < |ops| && ops[k] == DropTableOp(ns, n);
        PrefixApplies(ops, k, s);
        assert UnboundAt(ops, k, s);
      }
    }
    if DropsFreely(order, s, t) {
      forall k: nat | k < |ops| ensures UnboundAt(ops, k, s) {
        if ops[k].DropTableOp? {
          PrefixApplies(ops, k, s);
          assert IsOld(s, t, ops[k].schema, ops[k].name);
        }
      }
    }
  }

  lemma UnboundEmitted(s: SchemaDef, t: SchemaDef, walk: Walk)
    requires WellFormed(s) && WellFormed(t) && Walks(walk, s)
    ensures var ops := DiffOps(s, t, walk);
      (forall k: nat :: k < |ops| ==> UnboundAt(ops, k, s)) <==> DropsFreely(AsEmitted, s, t)
  {
    hide WellFormed, Walks, DiffOps, Apply, Binds, BindsThen, IsOld, DropsFreely, UnboundAt, Migrated;
    var ops := DiffOps(s, t, walk);
    DiffApplies(s, t, walk);
    forall op: Op | op.DropTableOp? ensures op in ops <==> IsOld(s, t, op.schema, op.name) {
      DiffDrops(s, t, walk, op);
    }
    forall k: nat, xns, xn, i | k < |ops| && ops[k].DropTableOp? && Apply(ops[..k], s).Ok?
      ensures Binds(Apply(ops[..k], s).value, xns, xn, i, ops[k].schema, ops[k].name) <==>
        BindsThen(AsEmitted, s, t, xns, xn, i, ops[k].schema, ops[k].name)
    {
      BindsEmitted(s, t, walk, k, xns, xn, i);
    }
    UnboundFreely(AsEmitted, s, t, ops);
  }

  /** The differ's operations can be carried out in emission order if and only if all that is created
      finds what it names and no table is dropped that another one refers to; the result is then the
      one described. */
  lemma DiffExecutes(s: SchemaDef, t: SchemaDef, walk: Walk, outside: set<ObjectKey>)
    requires WellFormed(s) && WellFormed(t) && Walks(walk, s)
    ensures var r := Execute(DiffOps(s, t, walk), s, outside);
      && (r.Ok? <==> ResolvesAsEmitted(s, t, outside) && DropsFreely(AsEmitted, s, t))
      && (r.Ok? ==> Migrated(AsEmitted, s, t, r.value))
  {
    hide *;
    DiffApplies(s, t, walk);
    ExecuteExact(DiffOps(s, t, walk), s, outside);
    DiffResolves(s, t, walk, outside);
    UnboundEmitted(s, t, walk);
  }

  // ----- the post-deploy stage keeps its order

  ghost function Post(s: SchemaDef, t: SchemaDef, walk: Walk): seq<Op> {
    OpsOfStage(DiffOps(s, t, walk), PostDeploy)
  }

  lemma PostMember(s: SchemaDef, t: SchemaDef, walk: Walk, op: Op)
    ensures op in Post(s, t, walk) <==> op in DiffOps(s, t, walk) && StageOf(op) == PostDeploy
  {
    hide DiffOps, StageOf;
  }

  lemma PostBefore(s: SchemaDef, t: SchemaDef, walk: Walk, p: Op -> bool, q: Op -> bool)
    requires AllBefore(DiffOps(s, t, walk), p, q)
    ensures AllBefore(Post(s, t, walk), p, q)
  {
    hide DiffOps, AllBefore, StageOf, Filter;
    FilterBefore(DiffOps(s, t, walk), (op: Op) => StageOf(op) == PostDeploy, p, q);
  }

  lemma LateDeps(op: Op)
    requires StageOf(op) == PostDeploy
    ensures op.DependsOn() != {} ==> op.IsColumnOp() && op.DependsOn() == {ObjectKey(op.schema, op.table, KTable)}
  {
  }

  lemma LateTableKey(op: Op, ns: string, n: string)
    requires StageOf(op) == PostDeploy && op.Key() == ObjectKey(ns, n, KTable)
    ensures op.DropTableOp? && op.schema == ns && op.name == n
  {
  }

  lemma OldNotCommon(s: SchemaDef, t: SchemaDef, ns: string, n: string)
    requires IsOld(s, t, ns, n)
    ensures !IsCommon(s, t, ns, n)
  {
  }

  lemma PostFree(s: SchemaDef, t: SchemaDef, walk: Walk, u: nat)
    requires WellFormed(s) && WellFormed(t) && u < |Post(s, t, walk)|
    ensures DepsOf(Post(s, t, walk), u) == {}
  {
    hide WellFormed, DiffOps, Post, StageOf, Resolve, DepsOf, Op.DependsOn, Op.Key, IsCommon, IsOld;
    var ops := Post(s, t, walk);
    var op := ops[u];
    PostMember(s, t, walk, op);
    LateDeps(op);
    forall key | key in op.DependsOn() ensures Resolve(ops, key).None? {
      ColumnOpIsCommon(s, t, walk, op);
      forall j: nat ensures !HasKey(ops, key, j) {
        if HasKey(ops, key, j) {
          PostMember(s, t, walk, ops[j]);
          LateTableKey(ops[j], op.schema, op.table);
          DiffDrops(s, t, walk, ops[j]);
          OldNotCommon(s, t, op.schema, op.table);
        }
      }
    }
    NoDeps(ops, u);
  }

  lemma PostUnchanged(s: SchemaDef, t: SchemaDef, walk: Walk, post: seq<Op>)
    requires WellFormed(s) && WellFormed(t) && IsSorted(Post(s, t, walk), post)
    ensures post == Post(s, t, walk)
  {
    hide WellFormed, DiffOps, Post, DepsOf, GraphOf, Acyclic;
    var ops := Post(s, t, walk);
    var order := SortedFacts(ops, post);
    GraphSize(ops);
    forall u: nat | u < |ops| ensures GraphOf(ops).deps[u] == {} {
      GraphDeps(ops, u);
      PostFree(s, t, walk, u);
    }
    NoEdgesUnchanged(GraphOf(ops), order);
  }

  /** A plan ends with the post-deploy operations as they were emitted. */
  lemma PlanEnds(s: SchemaDef, t: SchemaDef, walk: Walk, plan: seq<Op>) returns (early: seq<Op>)
    requires WellFormed(s) && WellFormed(t) && IsPlan(DiffOps(s, t, walk), plan)
    ensures plan == early + Post(s, t, walk)
    ensures forall op :: op in early ==> StageOf(op) != PostDeploy
  {
    hide WellFormed, DiffOps, IsSorted, OpsOfStage, StageOf;
    var pre, mid, post :| IsPlanOf(DiffOps(s, t, walk), pre, mid, post) && plan == pre + mid + post;
    early := pre + mid;
    PostUnchanged(s, t, walk, post);
    StageOfSorted(DiffOps(s, t, walk), PreDeploy, pre);
    StageOfSorted(DiffOps(s, t, walk), Deploy, mid);
    forall op | op in early ensures StageOf(op) != PostDeploy {
      if op in pre { var i :| 0 <= i < |pre| && pre[i] == op; } else { var i :| 0 <= i < |mid| && mid[i] == op; }
    }
  }

  // ----- constraints in a plan

  /** The constraint is added, or comes with a new table. */
  ghost predicate Added(s: SchemaDef, t: SchemaDef, ns: string, n: string, i: string) {
    || IsNew(s, t, ns, n)
    || (IsCommon(s, t, ns, n) && i in t.schemas[ns].tables[n].constraints &&
        i !in s.schemas[ns].tables[n].constraints)
  }

  lemma NothingReplaced(s: SchemaDef, t: SchemaDef, ns: string, n: string, i: string)
    requires Executable(s, t) && IsCommon(s, t, ns, n)
    ensures !ConstraintReplaced(s.schemas[ns].tables[n], t.schemas[ns].tables[n], i)
  {
    assert NamespaceExecutable(s.schemas[ns], t.schemas[ns]);
    assert TableExecutable(s.schemas[ns].tables[n], t.schemas[ns].tables[n]);
  }

  lemma DropConstraintHome(op: Op)
    requires op.DropConstraintOp?
    ensures OfTable(op.schema, op.table, ConstraintPart)(op) && OfConstraint(op.schema, op.table, op.name)(op)
    ensures PartOf(op) == Tables && StageOf(op) == PostDeploy
  {
    assert TableOf(op) == op.table && PartOfTable(op) == ConstraintPart && ConstraintName()(op) == op.name;
  }

  lemma ConstraintBlockIsCommon(u: NamespaceDef, v: NamespaceDef, walk: Walk, n: string)
    ensures PartBlock(u, v, walk, n, ConstraintPart)(n) != [] ==> n in u.tables && n in v.tables
  {
    hide TableConstraintOps;
  }

  lemma DropConstraintIsCommon(s: SchemaDef, t: SchemaDef, walk: Walk, op: Op)
    requires WellFormed(s) && WellFormed(t) && op.DropConstraintOp? && op in DiffOps(s, t, walk)
    ensures IsCommon(s, t, op.schema, op.table)
  {
    hide WellFormed, DiffOps, Filter, OfTable, OfConstraint, PartBlock, PartOf, SourceOf, StageOf;
    var ns, n := op.schema, op.table;
    DropConstraintHome(op);
    assert op in Filter(DiffOps(s, t, walk), OfTable(ns, n, ConstraintPart));
    if ns in t.schemas {
      DiffOfAnyTable(s, t, walk, ns, n, ConstraintPart);
      ConstraintBlockIsCommon(SourceOf(s, ns), t.schemas[ns], walk, n);
      InSourceOf(s, ns, n);
    } else {
      MemberOfPart(DiffOps(s, t, walk), op, Tables);
      NothingThere(s, t, walk, ns);
    }
  }

  lemma OwnDrop(ns: string, a: TableDef, b: TableDef, i: string, op: Op)
    requires op in OwnConstraintOps(ns, a, b, i) && op.DropConstraintOp?
    ensures i in a.constraints && (i in b.constraints ==> ConstraintReplaced(a, b, i))
  {
    hide OwnConstraintOps, ConstraintChanged;
    OwnConstraintShape(ns, a, b, i);
  }

  /** The constraints that the differ drops. */
  lemma DiffDropsConstraint(s: SchemaDef, t: SchemaDef, walk: Walk, op: Op)
    requires WellFormed(s) && WellFormed(t) && op.DropConstraintOp? && op in DiffOps(s, t, walk)
    ensures IsCommon(s, t, op.schema, op.table)
    ensures var a, b := s.schemas[op.schema].tables[op.table], t.schemas[op.schema].tables[op.table];
      op.name in a.constraints && (op.name in b.constraints ==> ConstraintReplaced(a, b, op.name))
  {
    hide *;
    var ns, n, i := op.schema, op.table, op.name;
    DropConstraintIsCommon(s, t, walk, op);
    CommonIs(s, t, ns, n);
    DropConstraintHome(op);
    assert op in Filter(DiffOps(s, t, walk), OfConstraint(ns, n, i));
    DiffOfConstraint(s, t, walk, ns, n, i);
    OwnDrop(ns, s.schemas[ns].tables[n], t.schemas[ns].tables[n], i, op);
  }

  lemma CommonIs(s: SchemaDef, t: SchemaDef, ns: string, n: string)
    ensures IsCommon(s, t, ns, n) <==>
      (ns in s.schemas && n in s.schemas[ns].tables && ns in t.schemas && n in t.schemas[ns].tables)
  {
  }

  /** What touches a constraint is early if the constraint is added, and late otherwise. */
  lemma TouchStages(s: SchemaDef, t: SchemaDef, walk: Walk, ns: string, n: string, i: string, op: Op)
    requires WellFormed(s) && WellFormed(t) && Executable(s, t) && op in DiffOps(s, t, walk)
    requires TouchesConstraint(ns, n, i)(op)
    ensures StageOf(op) == (if Added(s, t, ns, n, i) then PreDeploy else PostDeploy)
  {
    hide WellFormed, DiffOps, Executable, StageOf, ConstraintChanged, Creates;
    match op {
      case AddTableOp(_, _, _) =>
        CreatingIsEarly(op);
        DiffCreates(s, t, walk, op);
        CreatesNew(s, t, op);
      case DropTableOp(_, _) =>
        DropIsMine(op);
        DiffDrops(s, t, walk, op);
      case AddConstraintOp(_, _, c) =>
        CreatingIsEarly(op);
        DiffCreates(s, t, walk, op);
        AddedIsNew(s, t, op);
      case DropConstraintOp(_, _, _) =>
        DropConstraintHome(op);
        DiffDropsConstraint(s, t, walk, op);
        NothingReplaced(s, t, ns, n, i);
      case DropSchemaOp(_) =>
        DropSchemaLate(s, t, walk, op);
      case _ =>
    }
  }

  lemma AddedIsNew(s: SchemaDef, t: SchemaDef, op: Op)
    requires Executable(s, t) && Creates(s, t, op) && op.AddConstraintOp?
    ensures Added(s, t, op.schema, op.table, op.constraint.name)
  {
    hide Executable, ConstraintChanged;
    NothingReplaced(s, t, op.schema, op.table, op.constraint.name);
  }

  lemma DropSchemaLate(s: SchemaDef, t: SchemaDef, walk: Walk, op: Op)
    requires WellFormed(s) && WellFormed(t) && op.DropSchemaOp? && op in DiffOps(s, t, walk)
    ensures StageOf(op) == PostDeploy && op.schema !in t.schemas
  {
    hide WellFormed, DiffOps;
    if op.schema in t.schemas { WholeOps(s, t, walk, op.schema, op); }
  }

  /** What is not added has the source's foreign key whenever it has the target's. */
  lemma KeptBinds(s: SchemaDef, t: SchemaDef, xns: string, xn: string, i: string, ns: string, n: string)
    requires Executable(s, t)
    ensures !Added(s, t, xns, xn, i) && Binds(t, xns, xn, i, ns, n) ==> Binds(s, xns, xn, i, ns, n)
    ensures Added(s, t, xns, xn, i) ==> !Binds(s, xns, xn, i, ns, n) && xns in t.schemas
  {
    hide Executable, ConstraintChanged, RefersTo;
    if IsCommon(s, t, xns, xn) {
      NothingReplaced(s, t, xns, xn, i);
      var a, b := s.schemas[xns].tables[xn], t.schemas[xns].tables[xn];
      if i in a.constraints && i in b.constraints { UnchangedRefers(a.constraints[i], b.constraints[i], ns, n); }
    }
  }

  /** The place of a DROP TABLE in a plan: everything early is behind, and what is late stands as it
      was emitted. */
  lemma DropPlace(s: SchemaDef, t: SchemaDef, walk: Walk, plan: seq<Op>, k: nat, p: Op -> bool)
    requires WellFormed(s) && WellFormed(t) && IsPlan(DiffOps(s, t, walk), plan) && k < |plan|
    requires plan[k].DropTableOp? && !p(plan[k])
    ensures AllBefore(DiffOps(s, t, walk), p, Mine(plan[k].schema, plan[k].name)) ==>
      forall i :: k <= i < |plan| ==> !p(plan[i])
    ensures AllBefore(DiffOps(s, t, walk), Mine(plan[k].schema, plan[k].name), p) ==>
      forall i :: 0 <= i < k && StageOf(plan[i]) == PostDeploy ==> !p(plan[i])
    ensures forall i :: k <= i < |plan| ==> StageOf(plan[i]) == PostDeploy
  {
    hide WellFormed, DiffOps, IsPlan, StageOf, Post, AllBefore, Mine;
    var early := PlanEnds(s, t, walk, plan);
    var late, q, h := Post(s, t, walk), Mine(plan[k].schema, plan[k].name), |early|;
    DropIsMine(plan[k]);
    forall i | 0 <= i < h ensures StageOf(plan[i]) != PostDeploy { assert plan[i] == early[i]; }
    forall i | h <= i < |plan| ensures plan[i] == late[i - h] && StageOf(plan[i]) == PostDeploy {
      PostMember(s, t, walk, late[i - h]);
    }
    if AllBefore(DiffOps(s, t, walk), p, q) {
      PostBefore(s, t, walk, p, q);
      TouchesOver(late, k - h, p, q);
      forall i | k <= i < |plan| ensures !p(plan[i]) {
        assert plan[i] == late[i - h];
      }
    }
    if AllBefore(DiffOps(s, t, walk), q, p) {
      PostBefore(s, t, walk, q, p);
      TouchesAhead(late, k - h, p, q);
      forall i | 0 <= i < k && StageOf(plan[i]) == PostDeploy ensures !p(plan[i]) {
        assert plan[i] == late[i - h];
      }
    }
  }

  lemma PlanOps(s: SchemaDef, t: SchemaDef, walk: Walk, plan: seq<Op>, i: nat)
    requires IsPlan(DiffOps(s, t, walk), plan) && i < |plan|
    ensures plan[i] in DiffOps(s, t, walk)
  {
    hide IsPlan, DiffOps;
    SameMembers(DiffOps(s, t, walk), plan);
  }

  /** At a DROP TABLE in a plan, what touches a constraint of another table is all behind or all
      ahead. */
  lemma TouchedInPlan(s: SchemaDef, t: SchemaDef, walk: Walk, plan: seq<Op>, k: nat, xns: string, xn: string, i: string)
    requires WellFormed(s) && WellFormed(t) && Executable(s, t) && IsPlan(DiffOps(s, t, walk), plan) && k < |plan|
    requires plan[k].DropTableOp? && (xns, xn) != (plan[k].schema, plan[k].name)
    ensures
      if Earlier(s, t, xns, xn, plan[k].schema, plan[k].name) || Added(s, t, xns, xn, i)
      then forall j :: k <= j < |plan| ==> !TouchesConstraint(xns, xn, i)(plan[j])
      else forall j :: 0 <= j < k ==> !TouchesConstraint(xns, xn, i)(plan[j])
  {
    hide WellFormed, DiffOps, IsPlan, StageOf, AllBefore, Mine, Concerns, TouchesConstraint, Earlier, Added, IsOld,
      Executable;
    var ops, ns, n, touches := DiffOps(s, t, walk), plan[k].schema, plan[k].name, TouchesConstraint(xns, xn, i);
    PlanOps(s, t, walk, plan, k);
    DiffDrops(s, t, walk, plan[k]);
    OldInTarget(s, t, ns, n);
    DropTouchesNoOther(plan[k], xns, xn, i);
    TurnOrder(s, t, walk, xns, xn, ns, n);
    forall x | touches(x) ensures Concerns(xns, xn)(x) { TouchedConcerns(xns, xn, i, x); }
    if Earlier(s, t, xns, xn, ns, n) {
      BeforeWeaker(ops, Concerns(xns, xn), Mine(ns, n), touches, Mine(ns, n));
    } else {
      BeforeWeaker(ops, Mine(ns, n), Concerns(xns, xn), Mine(ns, n), touches);
    }
    DropPlace(s, t, walk, plan, k, touches);
    forall j: nat | j < |plan| && touches(plan[j])
      ensures StageOf(plan[j]) == if Added(s, t, xns, xn, i) then PreDeploy else PostDeploy
    {
      PlanOps(s, t, walk, plan, j);
      TouchStages(s, t, walk, xns, xn, i, plan[j]);
    }
  }

  lemma OldInTarget(s: SchemaDef, t: SchemaDef, ns: string, n: string)
    ensures IsOld(s, t, ns, n) ==> ns in t.schemas
  {
  }

  lemma BindsPlanned(s: SchemaDef, t: SchemaDef, walk: Walk, plan: seq<Op>, k: nat, xns: string, xn: string, i: string)
    requires WellFormed(s) && WellFormed(t) && Walks(walk, s) && Executable(s, t) && IsPlan(DiffOps(s, t, walk), plan)
    requires k < |plan| && plan[k].DropTableOp?
    ensures var ns, n := plan[k].schema, plan[k].name;
      Apply(plan[..k], s).Ok? &&
      (Binds(Apply(plan[..k], s).value, xns, xn, i, ns, n) <==> BindsThen(AsPlanned, s, t, xns, xn, i, ns, n))
  {
    hide WellFormed, Walks, DiffOps, Apply, Migrated, Earlier, TouchesConstraint, ConstraintAt, RefersTo, Executable,
      IsPlan, Added;
    var ns, n, touches := plan[k].schema, plan[k].name, TouchesConstraint(xns, xn, i);
    PlanTakesEffect(s, t, walk, plan);
    PrefixApplies(plan, k, s);
    if (xns, xn) != (ns, n) {
      ConstraintKept(xns, xn, i);
      TouchedInPlan(s, t, walk, plan, k, xns, xn, i);
      KeptBinds(s, t, xns, xn, i, ns, n);
      if Earlier(s, t, xns, xn, ns, n) || Added(s, t, xns, xn, i) {
        StaysAfter(plan, s, k, touches, ConstraintView(xns, xn, i));
        EarlierInTarget(s, t, xns, xn, ns, n);
        BoundInTheEnd(AsPlanned, s, t, Apply(plan, s).value, xns, xn, i, ns, n);
      } else {
        StaysBefore(plan, s, k, touches, ConstraintView(xns, xn, i));
      }
    }
  }

  /** In a plan that applies no table is dropped that another one refers to if and only if the
      schemas say so. */
  lemma UnboundPlanned(s: SchemaDef, t: SchemaDef, walk: Walk, plan: seq<Op>)
    requires WellFormed(s) && WellFormed(t) && Walks(walk, s) && Executable(s, t) && IsPlan(DiffOps(s, t, walk), plan)
    ensures (forall k: nat :: k < |plan| ==> UnboundAt(plan, k, s)) <==> DropsFreely(AsPlanned, s, t)
  {
    hide WellFormed, Walks, DiffOps, Apply, Binds, BindsThen, IsOld, DropsFreely, UnboundAt, Migrated, IsPlan,
      Executable;
    PlanTakesEffect(s, t, walk, plan);
    SameMembers(DiffOps(s, t, walk), plan);
    forall op: Op | op.DropTableOp? ensures op in plan <==> IsOld(s, t, op.schema, op.name) {
      DiffDrops(s, t, walk, op);
    }
    forall k: nat, xns, xn, i | k < |plan| && plan[k].DropTableOp? && Apply(plan[..k], s).Ok?
      ensures Binds(Apply(plan[..k], s).value, xns, xn, i, plan[k].schema, plan[k].name) <==>
        BindsThen(AsPlanned, s, t, xns, xn, i, plan[k].schema, plan[k].name)
    {
      BindsPlanned(s, t, walk, plan, k, xns, xn, i);
    }
    UnboundFreely(AsPlanned, s, t, plan);
  }
}
