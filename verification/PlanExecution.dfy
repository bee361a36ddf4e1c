/** When a plan can be carried out: it replaces nothing, whatever it creates finds the tables and
    columns that it names, and it drops no table that another one refers to. */
module PlanExecution {
  import opened Catalog
  import opened Operations
  import opened Names
  import opened Lists
  import opened Dag
  import opened Planner
  import opened PlanTheorems
  import opened DiffSpec
  import opened RenameTheory
  import opened Locality
  import opened Semantics
  import opened Execution
  import opened ObjectMigration
  import opened TableMigration
  import opened DiffShape
  import opened TableSteps
  import opened SchemaMigration
  import opened Convergence
  import opened PlannedDiff
  import opened TablePlans
  import opened PlanApplies
  import opened EmissionOrder
  import opened Resolution
  import opened PlanOrder
  import opened Removal

  // ----- what is there before deploy

  /** The columns that are added to a table; renames come later. */
  ghost function NewColumns(a: TableDef, b: TableDef): set<string> {
    set x | x in b.columns && x !in a.columns && !TargetTaken(Renames(a, b), x)
  }

  ghost function AddedColumns(s: SchemaDef, t: SchemaDef, ns: string, n: string): set<string> {
    if IsCommon(s, t, ns, n) then NewColumns(s.schemas[ns].tables[n], t.schemas[ns].tables[n]) else {}
  }

  /** Columns that are added to the table come before the operation: if it waits, if it is on the
      same table, or if that is a later one. */
  ghost predicate Ahead(s: SchemaDef, t: SchemaDef, ns: string, n: string, op: Op) {
    || Waits(s, t, op) || (ns, n) == (op.schema, TableOf(op))
    || Earlier(s, t, ns, n, op.schema, TableOf(op))
  }

  /** The columns of the tables that the operation looks at, when its turn comes in a plan. */
  ghost function AtPlan(s: SchemaDef, t: SchemaDef, op: Op): Lookup {
    (ns: string, n: string) =>
      var here := ColumnNames(s, ns, n);
      if here.Some? then Some(here.value + if Ahead(s, t, ns, n, op) then AddedColumns(s, t, ns, n) else {})
      else if IsNew(s, t, ns, n) && (op.AddConstraintOp? ==> CreatedBefore(s, t, ns, n, op))
      then ColumnNames(t, ns, n) else None
  }

  /** Everything that is created finds what it names, in the order of a plan. */
  ghost predicate ResolvesAsPlanned(s: SchemaDef, t: SchemaDef, outside: set<ObjectKey>) {
    forall op :: Creates(s, t, op) ==> Resolves(op, AtPlan(s, t, op), outside)
  }

  // ----- added columns

  lemma RenamesAddNone(schema: string, table: string, pairs: seq<(string, string)>, op: Op)
    requires op in RenameOps(schema, table, pairs)
    ensures !op.AddColumnOp?
  {
    RenamesShape(schema, table, pairs, op);
  }

  lemma AltersAddNone(schema: string, a: TableDef, b: TableDef, op: Op)
    requires op in Flat(b.order, AlterStep(schema, a, b))
    ensures !op.AddColumnOp?
  {
    hide ColumnOps, Flat;
    var k := FlatMember(b.order, AlterStep(schema, a, b), op);
    ColumnOpsAbout(schema, b.name, a.columns[k], b.columns[k]);
  }

  lemma DropsAddNone(schema: string, a: TableDef, b: TableDef, walk: seq<string>, op: Op)
    requires op in Flat(walk, DropStep(schema, a, b, Renames(a, b)))
    ensures !op.AddColumnOp?
  {
    hide Flat, Renames;
    var k := FlatMember(walk, DropStep(schema, a, b, Renames(a, b)), op);
  }

  lemma AddsNew(schema: string, a: TableDef, b: TableDef, op: Op)
    requires ColumnsNamed(b.columns)
    ensures op in Flat(TargetOnly(a, b), AddStep(schema, b, Renames(a, b))) <==>
      op.AddColumnOp? && op.schema == schema && op.table == b.name && op.col.name in NewColumns(a, b) &&
      op.col == b.columns[op.col.name]
  {
    hide Flat, Renames, TargetTaken;
    var f := AddStep(schema, b, Renames(a, b));
    if op in Flat(TargetOnly(a, b), f) { var k := FlatMember(TargetOnly(a, b), f, op); }
    if op.AddColumnOp? && op.schema == schema && op.table == b.name && op.col.name in NewColumns(a, b) &&
      op.col == b.columns[op.col.name]
    {
      assert op.col.name in TargetOnly(a, b);
      FlatHas(TargetOnly(a, b), f, op.col.name, op);
    }
  }

  lemma ColumnsAdded(schema: string, a: TableDef, b: TableDef, walk: seq<string>, op: Op)
    requires ColumnsNamed(b.columns) && op.AddColumnOp?
    ensures op in TableColumnOps(schema, a, b, walk) <==>
      op.schema == schema && op.table == b.name && op.col.name in NewColumns(a, b) && op.col == b.columns[op.col.name]
  {
    hide Flat, Renames, RenameOps, TargetOnly, AddStep, DropStep, AlterStep, NewColumns, ColumnsNamed;
    AddsNew(schema, a, b, op);
    if op in RenameOps(schema, b.name, Renames(a, b)) { RenamesAddNone(schema, b.name, Renames(a, b), op); }
    if op in Flat(walk, DropStep(schema, a, b, Renames(a, b))) { DropsAddNone(schema, a, b, walk, op); }
    if op in Flat(b.order, AlterStep(schema, a, b)) { AltersAddNone(schema, a, b, op); }
  }

  lemma CommonFacts(s: SchemaDef, t: SchemaDef, ns: string, n: string)
    requires WellFormed(s) && WellFormed(t) && IsCommon(s, t, ns, n)
    ensures s.schemas[ns].name == ns && t.schemas[ns].tables[n].name == n && s.schemas[ns].tables[n].name == n
    ensures ColumnsNamed(t.schemas[ns].tables[n].columns) && TableWellFormed(t.schemas[ns].tables[n])
  {
    assert TableWellFormed(t.schemas[ns].tables[n]);
  }

  /** The columns that the differ adds to a common table. */
  lemma DiffAddsColumn(s: SchemaDef, t: SchemaDef, walk: Walk, op: Op)
    requires WellFormed(s) && WellFormed(t) && op.AddColumnOp? && IsCommon(s, t, op.schema, op.table)
    ensures op in DiffOps(s, t, walk) <==>
      op.col.name in AddedColumns(s, t, op.schema, op.table) &&
      op.col == t.schemas[op.schema].tables[op.table].columns[op.col.name]
  {
    var ns, n := op.schema, op.table;
    hide WellFormed, DiffOps, Filter, OfTable, PartBlock, TableColumnOps, NewColumns, TableWellFormed, ColumnsNamed;
    AddColumnHome(op);
    CommonFacts(s, t, ns, n);
    assert op in DiffOps(s, t, walk) <==> op in Filter(DiffOps(s, t, walk), OfTable(ns, n, ColumnPart));
    DiffOfTable(s, t, walk, ns, n, ColumnPart);
    OwnBlockOps(s.schemas[ns], t.schemas[ns], walk, n);
    ColumnsAdded(ns, s.schemas[ns].tables[n], t.schemas[ns].tables[n], walk(ns, n), op);
  }

  // ----- what an operation finds at its turn

  lemma SortedMember(s: SchemaDef, t: SchemaDef, walk: Walk, pre: seq<Op>, op: Op)
    requires IsSorted(Pre(s, t, walk), pre)
    ensures op in pre <==> op in DiffOps(s, t, walk) && StageOf(op) == PreDeploy
  {
    hide *;
    SortedConserves(Pre(s, t, walk), pre);
    PreMember(s, t, walk, op);
  }

  lemma PrefixMember(s: SchemaDef, t: SchemaDef, walk: Walk, pre: seq<Op>, k: nat, op: Op)
    requires IsSorted(Pre(s, t, walk), pre) && k <= |pre| && op in pre[..k]
    ensures op in DiffOps(s, t, walk) && StageOf(op) == PreDeploy
  {
    assert op in pre;
    hide *;
    SortedMember(s, t, walk, pre, op);
  }

  lemma CreatesOnlyThat(s: SchemaDef, t: SchemaDef, walk: Walk, ns: string, n: string, op: Op)
    requires WellFormed(s) && WellFormed(t) && op in DiffOps(s, t, walk) && op.AddTableOp?
    requires op.schema == ns && op.name == n
    ensures IsNew(s, t, ns, n) && op == AddTableOp(ns, n, t.schemas[ns].tables[n])
  {
    hide WellFormed, DiffOps, Creates;
    DiffCreates(s, t, walk, op);
    CreatesNew(s, t, op);
  }

  lemma ColumnNamesKnown(s: SchemaDef, t: SchemaDef, ns: string, n: string)
    ensures ColumnNames(s, ns, n).Some? <==> n in SourceOf(s, ns).tables
    ensures IsCommon(s, t, ns, n) ==> ColumnNames(s, ns, n).Some?
    ensures IsNew(s, t, ns, n) ==>
      ColumnNames(s, ns, n).None? && ColumnNames(t, ns, n) == Some(t.schemas[ns].tables[n].columns.Keys)
  {
  }

  /** The prefix makes column `x` of the table that the source has. */
  lemma MadeColumn(s: SchemaDef, t: SchemaDef, walk: Walk, pre: seq<Op>, k: nat, ns: string, n: string, x: string)
    requires WellFormed(s) && WellFormed(t) && IsSorted(Pre(s, t, walk), pre) && k < |pre| && Creating(pre[k])
    requires ColumnNames(s, ns, n).Some?
    ensures Any(pre[..k], MakesColumn(ns, n, x)) <==> Ahead(s, t, ns, n, pre[k]) && x in AddedColumns(s, t, ns, n)
  {
    hide WellFormed, DiffOps, Pre, StageOf, IsSorted, NewColumns, IsNew, Creating, Waits, Earlier, TableOf, ColumnNames,
      IsCommon;
    ColumnNamesKnown(s, t, ns, n);
    if Any(pre[..k], MakesColumn(ns, n, x)) {
      var op :| op in pre[..k] && MakesColumn(ns, n, x)(op);
      PrefixMember(s, t, walk, pre, k, op);
      if op.AddTableOp? { CreatesOnlyThat(s, t, walk, ns, n, op); }
      DiffAddsColumnTo(s, t, walk, op);
      DiffAddsColumn(s, t, walk, op);
      ColumnPlace(s, t, walk, pre, k, op);
    }
    if Ahead(s, t, ns, n, pre[k]) && x in AddedColumns(s, t, ns, n) {
      var op := AddedOp(s, t, ns, n, x);
      DiffAddsColumn(s, t, walk, op);
      ColumnPlace(s, t, walk, pre, k, op);
      assert MakesColumn(ns, n, x)(op);
    }
  }

  lemma AddedOp(s: SchemaDef, t: SchemaDef, ns: string, n: string, x: string) returns (op: Op)
    requires WellFormed(t) && x in AddedColumns(s, t, ns, n)
    ensures IsCommon(s, t, ns, n) && x in t.schemas[ns].tables[n].columns
    ensures op == AddColumnOp(ns, n, t.schemas[ns].tables[n].columns[x]) && op.col.name == x
  {
    assert TableWellFormed(t.schemas[ns].tables[n]);
    op := AddColumnOp(ns, n, t.schemas[ns].tables[n].columns[x]);
  }

  lemma OldTableLookup(s: SchemaDef, t: SchemaDef, walk: Walk, pre: seq<Op>, k: nat, ns: string, n: string)
    requires WellFormed(s) && WellFormed(t) && IsSorted(Pre(s, t, walk), pre) && k < |pre| && Creating(pre[k])
    requires Apply(pre[..k], s).Ok? && ColumnNames(s, ns, n).Some?
    ensures ColumnNames(Apply(pre[..k], s).value, ns, n) == AtPlan(s, t, pre[k])(ns, n)
  {
    hide WellFormed, DiffOps, Pre, StageOf, IsSorted, AddedColumns, Creating, Ahead, ColumnNames, Apply, Any;
    forall op | op in pre[..k] ensures StageOf(op) == PreDeploy { PrefixMember(s, t, walk, pre, k, op); }
    PreColumns(pre[..k], s, ns, n);
    forall x ensures Any(pre[..k], MakesColumn(ns, n, x)) <==>
      Ahead(s, t, ns, n, pre[k]) && x in AddedColumns(s, t, ns, n)
    {
      MadeColumn(s, t, walk, pre, k, ns, n, x);
    }
    var now := ColumnNames(Apply(pre[..k], s).value, ns, n);
    assert now.value == ColumnNames(s, ns, n).value +
      if Ahead(s, t, ns, n, pre[k]) then AddedColumns(s, t, ns, n) else {};
  }

  lemma MadeTable(s: SchemaDef, t: SchemaDef, walk: Walk, pre: seq<Op>, k: nat, ns: string, n: string)
    requires WellFormed(s) && WellFormed(t) && IsSorted(Pre(s, t, walk), pre) && k < |pre|
    ensures Any(pre[..k], MakesTable(ns, n)) <==>
      IsNew(s, t, ns, n) && AddTableOp(ns, n, t.schemas[ns].tables[n]) in pre[..k]
  {
    hide WellFormed, DiffOps, Pre, StageOf, IsSorted;
    if Any(pre[..k], MakesTable(ns, n)) {
      var op :| op in pre[..k] && MakesTable(ns, n)(op);
      PrefixMember(s, t, walk, pre, k, op);
      CreatesOnlyThat(s, t, walk, ns, n, op);
    }
    if IsNew(s, t, ns, n) && AddTableOp(ns, n, t.schemas[ns].tables[n]) in pre[..k] {
      assert MakesTable(ns, n)(AddTableOp(ns, n, t.schemas[ns].tables[n]));
    }
  }

  lemma MadeNewColumn(s: SchemaDef, t: SchemaDef, walk: Walk, pre: seq<Op>, k: nat, ns: string, n: string, x: string)
    requires WellFormed(s) && WellFormed(t) && IsSorted(Pre(s, t, walk), pre) && k < |pre|
    requires IsNew(s, t, ns, n) && AddTableOp(ns, n, t.schemas[ns].tables[n]) in pre[..k]
    ensures Any(pre[..k], MakesColumn(ns, n, x)) <==> x in t.schemas[ns].tables[n].columns
  {
    hide WellFormed, DiffOps, Pre, StageOf, IsSorted;
    var m := AddTableOp(ns, n, t.schemas[ns].tables[n]);
    if Any(pre[..k], MakesColumn(ns, n, x)) {
      var op :| op in pre[..k] && MakesColumn(ns, n, x)(op);
      PrefixMember(s, t, walk, pre, k, op);
      if op.AddTableOp? { CreatesOnlyThat(s, t, walk, ns, n, op); } else { DiffAddsColumnTo(s, t, walk, op); }
    }
    assert x in t.schemas[ns].tables[n].columns ==> MakesColumn(ns, n, x)(m);
  }

  /** A new table that the operation looks at is there if it has been created. */
  lemma CreatedWhenNeeded(s: SchemaDef, t: SchemaDef, walk: Walk, pre: seq<Op>, k: nat, ns: string, n: string)
    requires WellFormed(s) && WellFormed(t) && IsSorted(Pre(s, t, walk), pre) && k < |pre| && Creating(pre[k])
    requires LooksAt(pre[k], ns, n) && IsNew(s, t, ns, n)
    ensures AddTableOp(ns, n, t.schemas[ns].tables[n]) in pre[..k] <==>
      (pre[k].AddConstraintOp? ==> CreatedBefore(s, t, ns, n, pre[k]))
  {
    hide WellFormed, DiffOps, Pre, StageOf, IsSorted, CreatedBefore, Creates, RefersTo;
    var op := pre[k];
    assert op in pre;
    SortedMember(s, t, walk, pre, op);
    DiffCreates(s, t, walk, op);
    if op.AddConstraintOp? {
      TableBeforeConstraint(s, t, walk, pre, k, ns, n);
    } else if op.AddTableOp? {
      CreatesNew(s, t, op);
      TableBeforeTable(s, t, walk, pre, k, ns, n);
    } else {
      OwnTableCommon(s, t, op);
    }
  }

  lemma NewTableLookup(s: SchemaDef, t: SchemaDef, walk: Walk, pre: seq<Op>, k: nat, ns: string, n: string)
    requires WellFormed(s) && WellFormed(t) && IsSorted(Pre(s, t, walk), pre) && k < |pre| && Creating(pre[k])
    requires LooksAt(pre[k], ns, n) && Apply(pre[..k], s).Ok? && ColumnNames(s, ns, n).None?
    ensures ColumnNames(Apply(pre[..k], s).value, ns, n) == AtPlan(s, t, pre[k])(ns, n)
  {
    hide WellFormed, DiffOps, Pre, StageOf, IsSorted, Creating, ColumnNames, Apply, Any, LooksAt, CreatedBefore,
      AddedColumns, Ahead, IsNew;
    forall op | op in pre[..k] ensures StageOf(op) == PreDeploy { PrefixMember(s, t, walk, pre, k, op); }
    PreColumns(pre[..k], s, ns, n);
    MadeTable(s, t, walk, pre, k, ns, n);
    ColumnNamesKnown(s, t, ns, n);
    if IsNew(s, t, ns, n) {
      NewInTarget(s, t, ns, n);
      CreatedWhenNeeded(s, t, walk, pre, k, ns, n);
      if AddTableOp(ns, n, t.schemas[ns].tables[n]) in pre[..k] {
        forall x ensures Any(pre[..k], MakesColumn(ns, n, x)) <==> x in t.schemas[ns].tables[n].columns {
          MadeNewColumn(s, t, walk, pre, k, ns, n, x);
        }
        var now := ColumnNames(Apply(pre[..k], s).value, ns, n);
        assert now.value == t.schemas[ns].tables[n].columns.Keys;
      }
    }
  }

  lemma ResolvesPlanned(s: SchemaDef, t: SchemaDef, walk: Walk, pre: seq<Op>, k: nat, outside: set<ObjectKey>)
    requires WellFormed(s) && WellFormed(t) && IsSorted(Pre(s, t, walk), pre) && k < |pre| && Creating(pre[k])
    requires Apply(pre[..k], s).Ok?
    ensures Resolves(pre[k], ColumnsIn(Apply(pre[..k], s).value), outside) ==
      Resolves(pre[k], AtPlan(s, t, pre[k]), outside)
  {
    hide WellFormed, DiffOps, Pre, StageOf, IsSorted, Creating, ColumnNames, Apply, LooksAt, AtPlan, Resolves;
    var r := Apply(pre[..k], s).value;
    forall ns, n | LooksAt(pre[k], ns, n) ensures ColumnsIn(r)(ns, n) == AtPlan(s, t, pre[k])(ns, n) {
      if ColumnNames(s, ns, n).Some? {
        OldTableLookup(s, t, walk, pre, k, ns, n);
      } else {
        NewTableLookup(s, t, walk, pre, k, ns, n);
      }
    }
    ResolvesAlike(pre[k], ColumnsIn(r), AtPlan(s, t, pre[k]), outside);
  }

  // ----- the whole plan

  /** A plan is its sorted pre-deploy stage, and what comes later. */
  lemma PlanSplit(ops: seq<Op>, plan: seq<Op>) returns (pre: seq<Op>, rest: seq<Op>)
    requires IsPlan(ops, plan)
    ensures IsSorted(OpsOfStage(ops, PreDeploy), pre) && plan == pre + rest
    ensures forall op :: op in rest ==> StageOf(op) != PreDeploy
  {
    hide IsSorted, OpsOfStage, StageOf;
    var x, mid, post :| IsPlanOf(ops, x, mid, post) && plan == x + mid + post;
    pre, rest := x, mid + post;
    assert plan == pre + rest;
    StageOfSorted(ops, Deploy, mid);
    StageOfSorted(ops, PostDeploy, post);
    forall op | op in rest ensures StageOf(op) != PreDeploy {
      if op in mid { var i :| 0 <= i < |mid| && mid[i] == op; } else { var i :| 0 <= i < |post| && post[i] == op; }
    }
  }

  lemma AllowedStage(ops: seq<Op>, unsafeDrop: bool)
    ensures OpsOfStage(Allowed(ops, unsafeDrop), PreDeploy) == OpsOfStage(ops, PreDeploy)
  {
    var early := (op: Op) => StageOf(op) == PreDeploy;
    var keep := (op: Op) => !op.IsDestructive();
    forall op | early(op) ensures keep(op) { EarlyIsHarmless(op); }
    hide Filter, StageOf;
    if !unsafeDrop { FilterFilter(ops, keep, early, early); }
  }

  lemma EarlyIsHarmless(op: Op)
    requires StageOf(op) == PreDeploy
    ensures !op.IsDestructive()
  {
  }

  lemma StepResolves(s: SchemaDef, t: SchemaDef, walk: Walk, plan: seq<Op>, pre: seq<Op>, rest: seq<Op>, k: nat,
                     outside: set<ObjectKey>)
    requires WellFormed(s) && WellFormed(t) && IsSorted(Pre(s, t, walk), pre) && plan == pre + rest && k < |plan|
    requires (forall op :: op in rest ==> StageOf(op) != PreDeploy) && Apply(plan, s).Ok?
    ensures ResolvesAt(plan, k, s, outside) <==>
      (Creating(plan[k]) ==> Resolves(plan[k], AtPlan(s, t, plan[k]), outside))
  {
    hide WellFormed, DiffOps, Pre, StageOf, IsSorted, Creating, Apply, AtPlan, Resolves;
    PrefixApplies(plan, k, s);
    if !Creating(plan[k]) {
      OthersResolve(plan[k], ColumnsIn(Apply(plan[..k], s).value), outside);
    } else if k < |pre| {
      assert plan[..k] == pre[..k] && plan[k] == pre[k];
      ResolvesPlanned(s, t, walk, pre, k, outside);
    } else {
      assert plan[k] == rest[k - |pre|] && plan[k] in rest;
      CreatingIsEarly(plan[k]);
    }
  }

  lemma PlanMember(s: SchemaDef, t: SchemaDef, walk: Walk, unsafeDrop: bool, plan: seq<Op>, op: Op)
    requires WellFormed(s) && WellFormed(t) && IsPlan(Allowed(DiffOps(s, t, walk), unsafeDrop), plan) && Creating(op)
    ensures op in plan <==> Creates(s, t, op)
  {
    hide *;
    SameMembers(Allowed(DiffOps(s, t, walk), unsafeDrop), plan);
    CreatingIsAllowed(DiffOps(s, t, walk), unsafeDrop, op);
    DiffCreates(s, t, walk, op);
  }

  lemma CreatingIsAllowed(ops: seq<Op>, unsafeDrop: bool, op: Op)
    requires Creating(op)
    ensures op in Allowed(ops, unsafeDrop) <==> op in ops
  {
    CreatingIsEarly(op);
    EarlyIsHarmless(op);
    hide Filter;
  }

  /** In a plan, with or without drops, all operations find what they name if and only if all that
      create do. */
  lemma PlanResolves(s: SchemaDef, t: SchemaDef, walk: Walk, unsafeDrop: bool, plan: seq<Op>, outside: set<ObjectKey>)
    requires WellFormed(s) && WellFormed(t) && IsPlan(Allowed(DiffOps(s, t, walk), unsafeDrop), plan)
    requires Apply(plan, s).Ok?
    ensures (forall k: nat :: k < |plan| ==> ResolvesAt(plan, k, s, outside)) <==> ResolvesAsPlanned(s, t, outside)
  {
    hide WellFormed, DiffOps, Allowed, OpsOfStage, IsPlan, IsSorted, StageOf, Creating, Apply, AtPlan, Resolves,
      ResolvesAt, Creates;
    var pre, rest := PlanSplit(Allowed(DiffOps(s, t, walk), unsafeDrop), plan);
    AllowedStage(DiffOps(s, t, walk), unsafeDrop);
    forall k: nat | k < |plan|
      ensures ResolvesAt(plan, k, s, outside) <==>
        (Creates(s, t, plan[k]) ==> Resolves(plan[k], AtPlan(s, t, plan[k]), outside))
    {
      StepResolves(s, t, walk, plan, pre, rest, k, outside);
      if Creating(plan[k]) {
        PlanMember(s, t, walk, unsafeDrop, plan, plan[k]);
      } else {
        CreatesCreating(s, t, plan[k]);
      }
    }
    if forall k: nat :: k < |plan| ==> ResolvesAt(plan, k, s, outside) {
      forall op | Creates(s, t, op) ensures Resolves(op, AtPlan(s, t, op), outside) {
        CreatesCreating(s, t, op);
        PlanMember(s, t, walk, unsafeDrop, plan, op);
        var k: nat :| k < |plan| && plan[k] == op;
        assert ResolvesAt(plan, k, s, outside);
      }
    }
  }

  lemma CreatesCreating(s: SchemaDef, t: SchemaDef, op: Op)
    ensures Creates(s, t, op) ==> Creating(op)
  {
  }

  lemma AllAllowed(ops: seq<Op>)
    ensures Allowed(ops, true) == ops
  {
  }

  /** A plan of what the differ emits can be carried out on the source if and only if it replaces
      no constraint, no index (unless it says IF NOT EXISTS) and no view that cannot be replaced in
      place, all that it creates finds the tables and columns that it names, and it drops no table
      that another one still refers to; and the result is then the one described. */
  lemma PlanRuns(s: SchemaDef, t: SchemaDef, walk: Walk, plan: seq<Op>, outside: set<ObjectKey>)
    requires WellFormed(s) && WellFormed(t) && Walks(walk, s) && IsPlan(DiffOps(s, t, walk), plan)
    ensures var r := Execute(plan, s, outside);
      && (r.Ok? <==> Executable(s, t) && ResolvesAsPlanned(s, t, outside) && DropsFreely(AsPlanned, s, t))
      && (r.Ok? ==> Migrated(AsPlanned, s, t, r.value))
  {
    hide *;
    PlanTakesEffect(s, t, walk, plan);
    ExecuteExact(plan, s, outside);
    if Apply(plan, s).Ok? {
      AllAllowed(DiffOps(s, t, walk));
      PlanResolves(s, t, walk, true, plan, outside);
      UnboundPlanned(s, t, walk, plan);
    }
  }

  // ----- what the condition says

  /** Columns of the target are there before deploy if and only if none of them is a renamed one. */
  lemma OwnColumns(a: TableDef, b: TableDef, names: set<string>)
    requires names <= b.columns.Keys
    ensures names <= a.columns.Keys + NewColumns(a, b) <==> forall x, y :: IsRename(a, b, x, y) ==> y !in names
  {
    hide Renames, TargetTaken;
    forall y ensures TargetTaken(Renames(a, b), y) <==> exists x :: IsRename(a, b, x, y) { RenameTaken(a, b, y); }
    if names <= a.columns.Keys + NewColumns(a, b) {
      forall x, y | IsRename(a, b, x, y) ensures y !in names {
        assert TargetTaken(Renames(a, b), y);
      }
    }
    if forall x, y :: IsRename(a, b, x, y) ==> y !in names {
      forall y | y in names ensures y in a.columns.Keys + NewColumns(a, b) {
        if TargetTaken(Renames(a, b), y) { var x :| IsRename(a, b, x, y); }
      }
    }
  }

  lemma OwnLookup(s: SchemaDef, t: SchemaDef, op: Op)
    requires Creates(s, t, op) && !op.AddTableOp?
    ensures IsCommon(s, t, op.schema, TableOf(op))
    ensures AtPlan(s, t, op)(op.schema, TableOf(op)) ==
      var a, b := s.schemas[op.schema].tables[TableOf(op)], t.schemas[op.schema].tables[TableOf(op)];
      Some(a.columns.Keys + NewColumns(a, b))
  {
    OwnTableCommon(s, t, op);
    hide NewColumns, Waits, Earlier, Creates, TableOf;
  }

  /** An index whose columns are the target's finds them in a plan if and only if none of them is
      renamed. */
  lemma IndexResolves(s: SchemaDef, t: SchemaDef, op: Op, outside: set<ObjectKey>)
    requires Creates(s, t, op) && op.CreateIndexOp?
    ensures IsCommon(s, t, op.schema, op.index.table)
    ensures var a, b := s.schemas[op.schema].tables[op.index.table], t.schemas[op.schema].tables[op.index.table];
      IndexColumns(op.index) <= b.columns.Keys ==>
      (Resolves(op, AtPlan(s, t, op), outside) <==>
        forall x, y :: IsRename(a, b, x, y) ==> y !in IndexColumns(op.index))
  {
    OwnLookup(s, t, op);
    hide NewColumns, AtPlan, Creates, IndexColumns;
    var a, b := s.schemas[op.schema].tables[op.index.table], t.schemas[op.schema].tables[op.index.table];
    if IndexColumns(op.index) <= b.columns.Keys { OwnColumns(a, b, IndexColumns(op.index)); }
  }

  /** So does a constraint that is no foreign key. */
  lemma ConstraintResolvesOwn(s: SchemaDef, t: SchemaDef, op: Op, outside: set<ObjectKey>)
    requires Creates(s, t, op) && op.AddConstraintOp? && !IsForeignKey(op.constraint)
    ensures IsCommon(s, t, op.schema, op.table)
    ensures var a, b := s.schemas[op.schema].tables[op.table], t.schemas[op.schema].tables[op.table];
      SetOf(op.constraint.columns) <= b.columns.Keys ==>
      (Resolves(op, AtPlan(s, t, op), outside) <==>
        forall x, y :: IsRename(a, b, x, y) ==> y !in SetOf(op.constraint.columns))
  {
    OwnLookup(s, t, op);
    hide NewColumns, AtPlan, Creates, SetOf;
    var a, b := s.schemas[op.schema].tables[op.table], t.schemas[op.schema].tables[op.table];
    if SetOf(op.constraint.columns) <= b.columns.Keys { OwnColumns(a, b, SetOf(op.constraint.columns)); }
  }

  // ----- foreign keys and the tables they refer to

  /** In a plan, with or without drops, a creating operation is in the sorted pre-deploy stage. */
  lemma CreatingPlace(s: SchemaDef, t: SchemaDef, walk: Walk, unsafeDrop: bool, plan: seq<Op>, k: nat)
    returns (pre: seq<Op>)
    requires IsPlan(Allowed(DiffOps(s, t, walk), unsafeDrop), plan) && k < |plan| && Creating(plan[k])
    ensures IsSorted(Pre(s, t, walk), pre) && k < |pre| && pre[k] == plan[k] && pre[..k] == plan[..k]
  {
    hide IsPlan, DiffOps, IsSorted, StageOf, OpsOfStage, Allowed, Creating;
    var rest;
    pre, rest := PlanSplit(Allowed(DiffOps(s, t, walk), unsafeDrop), plan);
    AllowedStage(DiffOps(s, t, walk), unsafeDrop);
    CreatingIsEarly(plan[k]);
    forall j | |pre| <= j < |plan| ensures StageOf(plan[j]) != PreDeploy {
      assert plan[j] == rest[j - |pre|];
    }
    assert pre[..k] == plan[..k];
  }

  /** In any plan a new table comes after the other new tables that it refers to. */
  lemma NewTablesInOrder(s: SchemaDef, t: SchemaDef, walk: Walk, unsafeDrop: bool, plan: seq<Op>, k: nat, ns: string,
                         n: string)
    requires WellFormed(s) && WellFormed(t) && IsPlan(Allowed(DiffOps(s, t, walk), unsafeDrop), plan)
    requires k < |plan| && plan[k].AddTableOp? && NeedsNew(s, t, plan[k].schema, plan[k].name, ns, n)
    ensures AddTableOp(ns, n, t.schemas[ns].tables[n]) in plan[..k]
  {
    assert Creating(plan[k]);
    hide *;
    NeededIsNew(s, t, plan[k].schema, plan[k].name, ns, n);
    NewInTarget(s, t, ns, n);
    var pre := CreatingPlace(s, t, walk, unsafeDrop, plan, k);
    TableBeforeTable(s, t, walk, pre, k, ns, n);
  }

  /** In any plan a constraint that is added to a common table comes after a new table, such as the
      one it refers to, if and only if that waits for nothing and is emitted earlier; or, if an
      earlier addition has the same key, if and only if all that it waits for do. */
  lemma ForeignKeysInOrder(s: SchemaDef, t: SchemaDef, walk: Walk, unsafeDrop: bool, plan: seq<Op>, k: nat, ns: string,
                           n: string)
    requires WellFormed(s) && WellFormed(t) && IsPlan(Allowed(DiffOps(s, t, walk), unsafeDrop), plan)
    requires k < |plan| && plan[k].AddConstraintOp? && IsNew(s, t, ns, n)
    ensures AddTableOp(ns, n, t.schemas[ns].tables[n]) in plan[..k] <==> CreatedBefore(s, t, ns, n, plan[k])
  {
    assert Creating(plan[k]);
    hide *;
    NewInTarget(s, t, ns, n);
    var pre := CreatingPlace(s, t, walk, unsafeDrop, plan, k);
    TableBeforeConstraint(s, t, walk, pre, k, ns, n);
  }

  // ----- planning twice

  /** Every index names columns of its table. */
  ghost predicate IndexesGrounded(t: SchemaDef) {
    forall ns, n, i :: ns in t.schemas && n in t.schemas[ns].tables && i in t.schemas[ns].tables[n].indexes ==>
      IndexColumns(t.schemas[ns].tables[n].indexes[i]) <= t.schemas[ns].tables[n].columns.Keys
  }

  /** After a round only indexes are left to create. */
  lemma OnlyIndexesAgain(order: Order, s: SchemaDef, t: SchemaDef, r: SchemaDef, op: Op)
    requires Migrated(order, s, t, r) && Creates(r, t, op)
    ensures op.CreateIndexOp?
  {
    hide NamespaceMigrated, ConstraintChanged, AddsIndex;
    var ns := op.schema;
    assert NamespaceDone(order, s, t, ns, Get(r.schemas, ns));
    SameTables(order, SourceOf(s, ns), t.schemas[ns], r.schemas[ns]);
    if op.AddConstraintOp? {
      ConstraintsAgain(order, SourceOf(s, ns), t.schemas[ns], r.schemas[ns], op.table, op.constraint.name);
    }
  }

  lemma ConstraintsAgain(order: Order, u: NamespaceDef, v: NamespaceDef, r: NamespaceDef, n: string, i: string)
    requires NamespaceMigrated(order, u, v, r) && n in v.tables && n in r.tables && i in v.tables[n].constraints
    ensures i in r.tables[n].constraints && !ConstraintChanged(r.tables[n].constraints[i], v.tables[n].constraints[i])
  {
    hide AfterTypes, AfterViews, AfterSequences, AfterExtensions, AfterIndexes, After, ConstraintChanged,
      AfterConstraint, Created;
    assert TableDone(order, u, v, n, Get(r.tables, n));
    if n in u.tables {
      SettledConstraint(u.tables[n], v.tables[n], i);
    } else {
      CreatedAgrees(v.name, n, v.tables[n], i);
    }
  }

  lemma CreatedAgrees(schema: string, name: string, b: TableDef, i: string)
    requires i in b.constraints
    ensures i in Created(schema, name, b).constraints
    ensures !ConstraintChanged(Created(schema, name, b).constraints[i], b.constraints[i])
  {
  }

  /** What is created in a second round finds its columns. */
  lemma ResolvesAgain(order: Order, s: SchemaDef, t: SchemaDef, r: SchemaDef, outside: set<ObjectKey>)
    requires Migrated(order, s, t, r) && IndexesGrounded(t)
    ensures ResolvesAsPlanned(r, t, outside)
  {
    hide Migrated, AtPlan;
    forall op | Creates(r, t, op) ensures Resolves(op, AtPlan(r, t, op), outside) {
      OnlyIndexesAgain(order, s, t, r, op);
      IndexFinds(order, s, t, r, op);
    }
  }

  lemma IndexFinds(order: Order, s: SchemaDef, t: SchemaDef, r: SchemaDef, op: Op)
    requires Migrated(order, s, t, r) && IndexesGrounded(t) && Creates(r, t, op) && op.CreateIndexOp?
    ensures Has(AtPlan(r, t, op)(op.schema, op.index.table), IndexColumns(op.index))
  {
    var ns, n := op.schema, op.index.table;
    assert IndexColumns(op.index) <= t.schemas[ns].tables[n].columns.Keys by { hide SameIndex, IndexColumns; }
    OwnLookup(r, t, op);
    ColumnsInTheEnd(order, s, t, r, ns, n);
    hide Migrated, AtPlan, Creates, IndexColumns, NewColumns, IndexesGrounded;
  }

  /** A second round drops no table. */
  lemma NothingOldAgain(order: Order, s: SchemaDef, t: SchemaDef, r: SchemaDef)
    requires Migrated(order, s, t, r)
    ensures DropsFreely(AsPlanned, r, t)
  {
    hide NamespaceMigrated, BindsThen;
    forall ns, n ensures !IsOld(r, t, ns, n) {
      if ns in t.schemas {
        assert NamespaceDone(order, s, t, ns, Get(r.schemas, ns));
        SameTables(order, SourceOf(s, ns), t.schemas[ns], r.schemas[ns]);
      }
    }
  }

  /** If the first plan can be carried out, so can any plan of what the differ finds next, and then
      nothing is left to do if and only if the types of renamed columns settle. */
  lemma PlanTwice(s: SchemaDef, t: SchemaDef, walk: Walk, plan: seq<Op>, walk2: Walk, plan2: seq<Op>, walk3: Walk,
                  outside: set<ObjectKey>)
    requires WellFormed(s) && WellFormed(t) && Walks(walk, s) && IsPlan(DiffOps(s, t, walk), plan)
    requires IndexesGrounded(t) && Execute(plan, s, outside).Ok? && Walks(walk2, Execute(plan, s, outside).value)
    requires IsPlan(DiffOps(Execute(plan, s, outside).value, t, walk2), plan2)
    ensures var r := Execute(plan2, Execute(plan, s, outside).value, outside);
      r.Ok? && (Walks(walk3, r.value) ==> (DiffOps(r.value, t, walk3) == [] <==> SettlesAgain(s, t)))
  {
    hide *;
    var r := Execute(plan, s, outside).value;
    PlanRuns(s, t, walk, plan, outside);
    MigratedWellFormed(AsPlanned, s, t, r);
    ExecutableAgain(AsPlanned, s, t, r);
    ResolvesAgain(AsPlanned, s, t, r, outside);
    NothingOldAgain(AsPlanned, s, t, r);
    PlanRuns(r, t, walk2, plan2, outside);
    SettledBySecondRound(AsPlanned, s, t, r);
    var r2 := Execute(plan2, r, outside).value;
    if Walks(walk3, r2) { OneRound(AsPlanned, r, t, r2, walk3); }
  }
}
