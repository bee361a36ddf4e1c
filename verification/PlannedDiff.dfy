/** What the planner makes of the differ's operations. */
module PlannedDiff {
  import opened Catalog
  import opened Operations
  import opened Names
  import opened Graphs
  import opened Lists
  import opened Dag
  import opened Planner
  import opened PlanTheorems
  import opened Cycles
  import opened DiffSpec
  import opened RenameTheory
  import opened Locality
  import opened TableEdits
  import opened Semantics
  import opened ObjectMigration
  import opened ColumnMigration
  import opened TableMigration
  import opened StagedMigration
  import opened DiffShape
  import opened TableSteps
  import opened SchemaMigration

  // ----- filters and plans

  lemma StageFilter(ops: seq<Op>, stage: Stage)
    ensures OpsOfStage(ops, stage) == Filter(ops, InStage(stage))
  {
    FilterSame(ops, (op: Op) => StageOf(op) == stage, InStage(stage));
  }

  lemma {:induction false} FilterMultiset(s: seq<Op>, p: Op -> bool, op: Op)
    ensures multiset(Filter(s, p))[op] == if p(op) then multiset(s)[op] else 0
  {
    if s != [] {
      var init, last := s[..|s| - 1], s[|s| - 1];
      assert s == init + [last];
      FilterMultiset(init, p, op);
    }
  }

  /** Reordering does not show where at most one element is selected. */
  lemma SingleSelected(a: seq<Op>, b: seq<Op>, p: Op -> bool)
    requires multiset(a) == multiset(b) && |Filter(a, p)| <= 1
    ensures Filter(b, p) == Filter(a, p)
  {
    var x, y := Filter(a, p), Filter(b, p);
    hide Filter;
    forall op ensures multiset(x)[op] == multiset(y)[op] {
      FilterMultiset(a, p, op);
      FilterMultiset(b, p, op);
    }
    assert multiset(x) == multiset(y);
    assert |x| == |multiset(x)| == |multiset(y)| == |y|;
    if |x| == 1 {
      assert x[0] in multiset(y);
    }
  }

  /** A stage of the list keeps the order of what `p` selects. */
  ghost predicate KeepsOrder(ops: seq<Op>, stage: Stage, p: Op -> bool) {
    WaitAlike(OpsOfStage(ops, stage), p) || |Filter(OpsOfStage(ops, stage), p)| <= 1
  }

  lemma StageKeeps(ops: seq<Op>, stage: Stage, sorted: seq<Op>, p: Op -> bool)
    requires IsSorted(OpsOfStage(ops, stage), sorted) && KeepsOrder(ops, stage, p)
    ensures Filter(sorted, p) == Filter(Filter(ops, p), InStage(stage))
  {
    var s := OpsOfStage(ops, stage);
    hide OpsOfStage, IsSorted, Filter, WaitAlike;
    if WaitAlike(s, p) {
      SortIsStable(s, sorted, p);
    } else {
      SortedConserves(s, sorted);
      SingleSelected(s, sorted, p);
    }
    StageFilter(ops, stage);
    FilterSwap(ops, InStage(stage), p);
  }

  /** Where every stage keeps the order, the plan holds the selected operations stage by stage. */
  lemma PlanKeeps(ops: seq<Op>, plan: seq<Op>, p: Op -> bool)
    requires IsPlan(ops, plan) && forall stage :: KeepsOrder(ops, stage, p)
    ensures Filter(plan, p) == Staged(Filter(ops, p))
  {
    hide IsSorted, KeepsOrder, Filter;
    var pre, mid, post :| IsPlanOf(ops, pre, mid, post) && plan == pre + mid + post;
    StageKeeps(ops, PreDeploy, pre, p);
    StageKeeps(ops, Deploy, mid, p);
    StageKeeps(ops, PostDeploy, post, p);
    FilterThree(pre, mid, post, p);
  }

  // ----- the operations of one table

  /** A part of one table, anywhere in the list. */
  function OfTable(ns: string, n: string, part: TablePart): Op -> bool {
    (op: Op) => op.schema == ns && TableOf(op) == n && PartOfTable(op) == part
  }

  /** The CREATE SCHEMA for a namespace that the source does not have. */
  function CreateOps(s: SchemaDef, ns: string): seq<Op> {
    if ns in s.schemas then [] else [CreateSchemaOp(ns)]
  }

  lemma StepsOfTarget(s: SchemaDef, t: SchemaDef, walk: Walk, ns: string)
    requires ns in t.schemas
    ensures TargetNamespaceStep(s, t, walk)(ns) + OldNamespaceStep(s, t)(ns) ==
      CreateOps(s, ns) + NamespaceOps(SourceOf(s, ns), t.schemas[ns], walk)
  {
    hide NamespaceOps;
  }

  lemma CreateIsWhole(s: SchemaDef, ns: string, part: Part)
    requires part != Whole
    ensures Filter(CreateOps(s, ns), InPart(part)) == []
  {
    FilterNone(CreateOps(s, ns), InPart(part));
  }

  lemma DiffOfNamespace(s: SchemaDef, t: SchemaDef, walk: Walk, ns: string, part: Part)
    requires WellFormed(s) && WellFormed(t) && ns in t.schemas && part != Whole
    ensures Filter(Filter(DiffOps(s, t, walk), OfSchema(ns)), InPart(part)) ==
      Filter(NamespaceOps(SourceOf(s, ns), t.schemas[ns], walk), InPart(part))
  {
    hide DiffOps, NamespaceOps, WellFormed, Filter, CreateOps, TargetNamespaceStep, OldNamespaceStep, InPart;
    SchemaOps(s, t, walk, ns);
    StepsOfTarget(s, t, walk, ns);
    FilterConcat(CreateOps(s, ns), NamespaceOps(SourceOf(s, ns), t.schemas[ns], walk), InPart(part));
    CreateIsWhole(s, ns, part);
  }

  lemma DiffOfTables(s: SchemaDef, t: SchemaDef, walk: Walk, ns: string)
    requires WellFormed(s) && WellFormed(t) && ns in t.schemas
    ensures Filter(Filter(DiffOps(s, t, walk), OfSchema(ns)), InPart(Tables)) ==
      TablesOps(SourceOf(s, ns), t.schemas[ns], walk)
  {
    SourceSameNamed(s, t, ns);
    hide DiffOps, NamespaceOps, WellFormed, Filter, TablesOps, SameNamed;
    DiffOfNamespace(s, t, walk, ns, Tables);
    NamespaceParts(SourceOf(s, ns), t.schemas[ns], walk, Tables);
  }

  function OfSchemaPart(ns: string, part: Part): Op -> bool {
    (op: Op) => OfSchema(ns)(op) && InPart(part)(op)
  }

  /** Selecting inside a part of a namespace. */
  lemma SelectInside(ops: seq<Op>, ns: string, part: Part, p: Op -> bool)
    requires forall op :: p(op) ==> op.schema == ns && PartOf(op) == part
    ensures Filter(ops, p) == Filter(Filter(Filter(ops, OfSchema(ns)), InPart(part)), p)
  {
    FilterFilter(ops, OfSchema(ns), InPart(part), OfSchemaPart(ns, part));
    FilterFilter(ops, OfSchemaPart(ns, part), p, p);
  }

  ghost predicate IsCommon(s: SchemaDef, t: SchemaDef, ns: string, n: string) {
    && ns in s.schemas && ns in t.schemas
    && n in s.schemas[ns].tables && n in t.schemas[ns].tables
  }

  lemma OfTableIsTables(ns: string, n: string, part: TablePart, op: Op)
    requires OfTable(ns, n, part)(op) && part != WholeTable
    ensures op.schema == ns && PartOf(op) == Tables
  {
  }

  lemma SelectOfTable(ops: seq<Op>, ns: string, n: string, part: TablePart)
    requires part == ColumnPart || part == ConstraintPart
    requires forall op :: op in ops ==> op.schema == ns
    ensures Filter(ops, OfTable(ns, n, part)) == Filter(ops, PartOfOne(n, part))
  {
    FilterSame(ops, OfTable(ns, n, part), PartOfOne(n, part));
  }

  /** The columns, or the constraints, of a table of the target. */
  lemma DiffOfAnyTable(s: SchemaDef, t: SchemaDef, walk: Walk, ns: string, n: string, part: TablePart)
    requires WellFormed(s) && WellFormed(t) && ns in t.schemas && (part == ColumnPart || part == ConstraintPart)
    ensures Filter(DiffOps(s, t, walk), OfTable(ns, n, part)) ==
      PartBlock(SourceOf(s, ns), t.schemas[ns], walk, n, part)(n)
  {
    SourceSameNamed(s, t, ns);
    DiffOfTables(s, t, walk, ns);
    TablesHome(SourceOf(s, ns), t.schemas[ns], walk);
    var ops := TablesOps(SourceOf(s, ns), t.schemas[ns], walk);
    assert forall op :: op in ops ==> InNamespacePart(t.schemas[ns].name, Tables)(op);
    hide DiffOps, WellFormed, Filter, TablesOps, PartBlock, SameNamed, PartOf, PartOfTable, TableOf, AllOf;
    forall op | OfTable(ns, n, part)(op) ensures op.schema == ns && PartOf(op) == Tables {
      OfTableIsTables(ns, n, part, op);
    }
    SelectInside(DiffOps(s, t, walk), ns, Tables, OfTable(ns, n, part));
    SelectOfTable(ops, ns, n, part);
    OwnPart(SourceOf(s, ns), t.schemas[ns], walk, n, part);
  }

  lemma DiffOfTable(s: SchemaDef, t: SchemaDef, walk: Walk, ns: string, n: string, part: TablePart)
    requires WellFormed(s) && WellFormed(t) && IsCommon(s, t, ns, n) && (part == ColumnPart || part == ConstraintPart)
    ensures Filter(DiffOps(s, t, walk), OfTable(ns, n, part)) ==
      PartBlock(s.schemas[ns], t.schemas[ns], walk, n, part)(n)
  {
    hide DiffOps, WellFormed, Filter, PartBlock, OfTable;
    DiffOfAnyTable(s, t, walk, ns, n, part);
  }

  // ----- columns

  lemma ColumnsWaitAlike(ops: seq<Op>, ns: string, n: string)
    ensures WaitAlike(ops, OfTable(ns, n, ColumnPart))
  {
    forall op | OfTable(ns, n, ColumnPart)(op)
      ensures op.DependsOn() == {ObjectKey(ns, n, KTable)} && op.Key().kind == KColumn
    {
    }
    hide Op.Key, Op.DependsOn, OfTable;
  }

  /** In any plan of the whole list, the operations on the columns of a common table turn the
      source's columns into what `After` says, each of them applying at its turn. */
  lemma PlannedColumns(s: SchemaDef, t: SchemaDef, walk: Walk, plan: seq<Op>, ns: string, n: string)
    requires WellFormed(s) && WellFormed(t) && Walks(walk, s) && IsCommon(s, t, ns, n)
    requires IsPlan(DiffOps(s, t, walk), plan)
    ensures var a, b := s.schemas[ns].tables[n], t.schemas[ns].tables[n];
      var c := RunColumns(Filter(plan, OfTable(ns, n, ColumnPart)), Columns(a.order, a.columns));
      && c.Ok? && c.value.byName == After(a, b) && ColumnsWellFormed(c.value)
      && (c.value.byName == b.columns <==> AllExpressible(a, b) && RenamesAgree(a, b))
  {
    var a, b := s.schemas[ns].tables[n], t.schemas[ns].tables[n];
    assert TableWellFormed(a) && TableWellFormed(b) && s.schemas[ns].name == ns;
    assert ListsAll(walk(ns, n), a.columns.Keys);
    DiffOfTable(s, t, walk, ns, n, ColumnPart);
    OwnBlockOps(s.schemas[ns], t.schemas[ns], walk, n);
    MigrationExact(a, b);
    hide WellFormed, Walks, DiffOps, IsPlan, Filter, RunColumns, PartBlock, TableColumnOps, After, ColumnsWellFormed,
      TableWellFormed, ListsAll, AllExpressible, RenamesAgree, Staged, WaitAlike, OpsOfStage;
    forall stage ensures KeepsOrder(DiffOps(s, t, walk), stage, OfTable(ns, n, ColumnPart)) {
      ColumnsWaitAlike(OpsOfStage(DiffOps(s, t, walk), stage), ns, n);
    }
    PlanKeeps(DiffOps(s, t, walk), plan, OfTable(ns, n, ColumnPart));
    StagedColumns(ns, a, b, walk(ns, n));
  }

  // ----- enum labels

  /** The label operations of one type. */
  function LabelsOf(ns: string, n: string): Op -> bool {
    (op: Op) => op.AddEnumLabelOp? && op.schema == ns && op.name == n
  }

  lemma LabelsWaitAlike(ops: seq<Op>, ns: string, n: string)
    ensures WaitAlike(ops, LabelsOf(ns, n))
  {
    forall op | LabelsOf(ns, n)(op)
      ensures op.DependsOn() == {ObjectKey(ns, n, KType)} && |op.Key().name| > |n|
    {
    }
    hide Op.Key, Op.DependsOn, LabelsOf;
  }

  ghost predicate IsCommonType(s: SchemaDef, t: SchemaDef, ns: string, n: string) {
    && ns in s.schemas && ns in t.schemas
    && n in s.schemas[ns].types && n in t.schemas[ns].types
  }

  lemma LabelsOfType(s: NamespaceDef, t: NamespaceDef, n: string)
    requires n in s.types && n in t.types
    ensures Filter(TypesOps(s, t), LabelsOf(t.name, n)) == EnumOps(t.name, n, s.types[n], t.types[n])
  {
    var ops := EnumOps(t.name, n, s.types[n], t.types[n]);
    forall op | op in ops ensures LabelsOf(t.name, n)(op) {
      LabelName(t.name, n, t.types[n].labels[|s.types[n].labels|..], op);
    }
    FilterAll(ops, LabelsOf(t.name, n));
    assert [] + ops + [] == ops;
    hide EnumOps, Filter, TypesOps;
    TypesAbout(s, t, n);
    TypeLabels(s, t, n);
    FilterFilter(TypesOps(s, t), About(TypeName(), NoBroadcast(), n), LabelsOf(t.name, n), LabelsOf(t.name, n));
  }

  lemma TypeLabels(s: NamespaceDef, t: NamespaceDef, n: string)
    requires n in s.types && n in t.types
    ensures NewTypeStep(s, t)(n) + CommonTypeStep(s, t)(n) + OldTypeStep(s, t)(n) ==
      EnumOps(t.name, n, s.types[n], t.types[n])
  {
    hide EnumOps;
  }

  lemma LabelsAreTypes(ns: string, n: string, op: Op)
    requires LabelsOf(ns, n)(op)
    ensures op.schema == ns && PartOf(op) == Types
  {
  }

  lemma DiffOfTypes(s: SchemaDef, t: SchemaDef, walk: Walk, ns: string)
    requires WellFormed(s) && WellFormed(t) && ns in t.schemas
    ensures Filter(Filter(DiffOps(s, t, walk), OfSchema(ns)), InPart(Types)) ==
      TypesOps(SourceOf(s, ns), t.schemas[ns])
  {
    SourceSameNamed(s, t, ns);
    hide DiffOps, NamespaceOps, WellFormed, Filter, TypesOps, SameNamed;
    DiffOfNamespace(s, t, walk, ns, Types);
    NamespaceParts(SourceOf(s, ns), t.schemas[ns], walk, Types);
  }

  lemma DiffOfLabels(s: SchemaDef, t: SchemaDef, walk: Walk, ns: string, n: string)
    requires WellFormed(s) && WellFormed(t) && IsCommonType(s, t, ns, n)
    ensures Filter(DiffOps(s, t, walk), LabelsOf(ns, n)) ==
      EnumOps(ns, n, s.schemas[ns].types[n], t.schemas[ns].types[n])
  {
    SourceSameNamed(s, t, ns);
    hide DiffOps, WellFormed, Filter, TypesOps, SameNamed, EnumOps, PartOf, OfSchema, InPart;
    DiffOfTypes(s, t, walk, ns);
    forall op | LabelsOf(ns, n)(op) ensures op.schema == ns && PartOf(op) == Types {
      LabelsAreTypes(ns, n, op);
    }
    SelectInside(DiffOps(s, t, walk), ns, Types, LabelsOf(ns, n));
    LabelsOfType(s.schemas[ns], t.schemas[ns], n);
  }

  lemma {:induction false} LabelsArePre(schema: string, name: string, labels: seq<string>)
    ensures forall op :: op in LabelOps(schema, name, labels) ==> StageOf(op) == PreDeploy
  {
    if labels != [] { LabelsArePre(schema, name, labels[..|labels| - 1]); }
  }

  lemma StagedLabels(schema: string, name: string, s: EnumType, t: EnumType)
    ensures Staged(EnumOps(schema, name, s, t)) == EnumOps(schema, name, s, t)
  {
    var ops := EnumOps(schema, name, s, t);
    if IsEnumAppend(s.labels, t.labels) { LabelsArePre(schema, name, t.labels[|s.labels|..]); }
    hide EnumOps, Filter, StageOf;
    AllOfStage(ops, PreDeploy, PreDeploy);
    AllOfStage(ops, PreDeploy, Deploy);
    AllOfStage(ops, PreDeploy, PostDeploy);
  }

  /** In any plan of the whole list, the label operations of a type that both schemas have append
      the missing labels in the target's order if the target's labels extend the source's, and
      there are none otherwise; the differ warns exactly when the labels then stay different. */
  lemma PlannedLabels(s: SchemaDef, t: SchemaDef, walk: Walk, plan: seq<Op>, ns: string, n: string)
    requires WellFormed(s) && WellFormed(t) && IsCommonType(s, t, ns, n)
    requires IsPlan(DiffOps(s, t, walk), plan)
    ensures var a, b := s.schemas[ns].types[n], t.schemas[ns].types[n];
      var labels := Filter(plan, LabelsOf(ns, n));
      && (IsEnumAppend(a.labels, b.labels) ==>
            labels == LabelOps(ns, n, b.labels[|a.labels|..]) &&
            RunOne(labels, Some(a), TypeEffect()) == Ok(Some(a.(labels := b.labels))))
      && (!IsEnumAppend(a.labels, b.labels) ==> labels == [])
      && (EnumNotAppendOnly(ns, n) in DiffWarnings(s, t) <==>
            RunOne(labels, Some(a), TypeEffect()) != Ok(Some(a.(labels := b.labels))))
  {
    var a, b := s.schemas[ns].types[n], t.schemas[ns].types[n];
    DiffOfLabels(s, t, walk, ns, n);
    EnumOpsEffect(ns, n, a, b);
    WarnsAbout(s, t, ns, n);
    var ops := DiffOps(s, t, walk);
    hide WellFormed, DiffOps, DiffWarnings, IsPlan, Filter, Staged, WaitAlike, OpsOfStage, RunOne, LabelOps;
    forall stage ensures KeepsOrder(ops, stage, LabelsOf(ns, n)) {
      LabelsWaitAlike(OpsOfStage(ops, stage), ns, n);
    }
    PlanKeeps(ops, plan, LabelsOf(ns, n));
    StagedLabels(ns, n, a, b);
  }

  lemma TypeWarns(s: NamespaceDef, t: NamespaceDef, w: Warning) returns (n: string)
    requires w in Flat(Sorted(t.types.Keys), TypeWarningStep(s, t))
    ensures n in s.types && n in t.types && EnumWarns(s.types[n], t.types[n]) && w == EnumNotAppendOnly(t.name, n)
  {
    n := FlatMember(Sorted(t.types.Keys), TypeWarningStep(s, t), w);
  }

  lemma WarningIsThere(s: SchemaDef, t: SchemaDef, ns: string, n: string)
    requires WellFormed(t) && IsCommonType(s, t, ns, n) && EnumWarns(s.schemas[ns].types[n], t.schemas[ns].types[n])
    ensures EnumNotAppendOnly(ns, n) in DiffWarnings(s, t)
  {
    var w := EnumNotAppendOnly(ns, n);
    assert t.schemas[ns].name == ns;
    hide EnumWarns, WellFormed;
    assert w in TypeWarningStep(s.schemas[ns], t.schemas[ns])(n);
    FlatHas(Sorted(t.schemas[ns].types.Keys), TypeWarningStep(s.schemas[ns], t.schemas[ns]), n, w);
    hide Flat, TypeWarningStep;
    FlatHas(Sorted(t.schemas.Keys), NamespaceWarningStep(s, t), ns, w);
  }

  lemma WarningIsNeeded(s: SchemaDef, t: SchemaDef, ns: string, n: string)
    requires WellFormed(t) && EnumNotAppendOnly(ns, n) in DiffWarnings(s, t)
    ensures IsCommonType(s, t, ns, n) && EnumWarns(s.schemas[ns].types[n], t.schemas[ns].types[n])
  {
    var w := EnumNotAppendOnly(ns, n);
    hide EnumWarns, Flat, TypeWarningStep;
    if w in Flat(Sorted(s.schemas.Keys), PublicWarningStep(s, t)) {
      var k := FlatMember(Sorted(s.schemas.Keys), PublicWarningStep(s, t), w);
    } else {
      var k := FlatMember(Sorted(t.schemas.Keys), NamespaceWarningStep(s, t), w);
      var m := TypeWarns(s.schemas[k], t.schemas[k], w);
    }
  }

  /** A warning about a type is there exactly when its labels differ and cannot be appended. */
  lemma WarnsAbout(s: SchemaDef, t: SchemaDef, ns: string, n: string)
    requires WellFormed(t)
    ensures EnumNotAppendOnly(ns, n) in DiffWarnings(s, t) <==>
      IsCommonType(s, t, ns, n) && EnumWarns(s.schemas[ns].types[n], t.schemas[ns].types[n])
  {
    hide EnumWarns, WellFormed, DiffWarnings;
    if EnumNotAppendOnly(ns, n) in DiffWarnings(s, t) {
      WarningIsNeeded(s, t, ns, n);
    } else if IsCommonType(s, t, ns, n) && EnumWarns(s.schemas[ns].types[n], t.schemas[ns].types[n]) {
      WarningIsThere(s, t, ns, n);
    }
  }

  // ----- constraints

  function OfConstraint(ns: string, n: string, i: string): Op -> bool {
    (op: Op) => OfTable(ns, n, ConstraintPart)(op) && ConstraintName()(op) == i
  }

  lemma DiffOfConstraint(s: SchemaDef, t: SchemaDef, walk: Walk, ns: string, n: string, i: string)
    requires WellFormed(s) && WellFormed(t) && IsCommon(s, t, ns, n)
    ensures Filter(DiffOps(s, t, walk), OfConstraint(ns, n, i)) ==
      OwnConstraintOps(ns, s.schemas[ns].tables[n], t.schemas[ns].tables[n], i)
  {
    var a, b := s.schemas[ns].tables[n], t.schemas[ns].tables[n];
    assert TableWellFormed(b) && s.schemas[ns].name == ns;
    DiffOfTable(s, t, walk, ns, n, ConstraintPart);
    OwnBlockOps(s.schemas[ns], t.schemas[ns], walk, n);
    hide WellFormed, DiffOps, Filter, OwnConstraintOps, TableConstraintOps, PartBlock;
    ConstraintsAbout(ns, a, b, i);
    FilterFilter(DiffOps(s, t, walk), OfTable(ns, n, ConstraintPart), About(ConstraintName(), NoBroadcast(), i),
                 OfConstraint(ns, n, i));
  }

  /** What the plan holds for one constraint: a replaced one is ADDED before it is DROPPED. */
  ghost function PlannedConstraintOps(schema: string, s: TableDef, t: TableDef, i: string): seq<Op> {
    (if i in t.constraints && (i !in s.constraints || ConstraintChanged(s.constraints[i], t.constraints[i]))
     then [AddConstraintOp(schema, t.name, t.constraints[i])] else []) +
    (if i in s.constraints && (i !in t.constraints || ConstraintChanged(s.constraints[i], t.constraints[i]))
     then [DropConstraintOp(schema, s.name, i)] else [])
  }

  lemma StagedConstraint(schema: string, s: TableDef, t: TableDef, i: string)
    ensures Staged(OwnConstraintOps(schema, s, t, i)) == PlannedConstraintOps(schema, s, t, i)
    ensures forall stage :: |Filter(OwnConstraintOps(schema, s, t, i), InStage(stage))| <= 1
  {
    OwnConstraintShape(schema, s, t, i);
    var ops := OwnConstraintOps(schema, s, t, i);
    hide OwnConstraintOps, ConstraintChanged, Filter, StageOf;
    FilterSmall(ops, PreDeploy);
    FilterSmall(ops, Deploy);
    FilterSmall(ops, PostDeploy);
    forall op: Op ensures (op.AddConstraintOp? ==> StageOf(op) == PreDeploy) &&
      (op.DropConstraintOp? ==> StageOf(op) == PostDeploy) {
      ConstraintStages(op);
    }
    forall stage ensures |Filter(ops, InStage(stage))| <= 1 {
      match stage case PreDeploy => case Deploy => case PostDeploy =>
    }
  }

  lemma ConstraintStages(op: Op)
    ensures op.AddConstraintOp? ==> StageOf(op) == PreDeploy
    ensures op.DropConstraintOp? ==> StageOf(op) == PostDeploy
  {
  }

  lemma FilterSmall(ops: seq<Op>, stage: Stage)
    requires |ops| <= 2
    ensures Filter(ops, InStage(stage)) ==
      (if |ops| > 0 && StageOf(ops[0]) == stage then [ops[0]] else []) +
      (if |ops| > 1 && StageOf(ops[1]) == stage then [ops[1]] else [])
  {
    hide StageOf;
    var a, b := ops[..if |ops| > 0 then 1 else 0], ops[if |ops| > 0 then 1 else 0..];
    assert ops == a + b;
    FilterConcat(a, b, InStage(stage));
    FilterSingle(a, InStage(stage));
    FilterSingle(b, InStage(stage));
  }

  lemma PlanOfConstraint(s: SchemaDef, t: SchemaDef, walk: Walk, plan: seq<Op>, ns: string, n: string, i: string)
    requires WellFormed(s) && WellFormed(t) && IsCommon(s, t, ns, n)
    requires IsPlan(DiffOps(s, t, walk), plan)
    ensures Filter(plan, OfConstraint(ns, n, i)) ==
      PlannedConstraintOps(ns, s.schemas[ns].tables[n], t.schemas[ns].tables[n], i)
  {
    var a, b := s.schemas[ns].tables[n], t.schemas[ns].tables[n];
    var ops := DiffOps(s, t, walk);
    hide WellFormed, DiffOps, IsPlan, Filter, Staged, WaitAlike, OpsOfStage, OwnConstraintOps, PlannedConstraintOps,
      OfConstraint;
    DiffOfConstraint(s, t, walk, ns, n, i);
    StagedConstraint(ns, a, b, i);
    forall stage ensures KeepsOrder(ops, stage, OfConstraint(ns, n, i)) {
      StageFilter(ops, stage);
      FilterSwap(ops, InStage(stage), OfConstraint(ns, n, i));
    }
    PlanKeeps(ops, plan, OfConstraint(ns, n, i));
  }

  lemma PlannedConstraintRuns(schema: string, s: TableDef, t: TableDef, i: string)
    ensures RunOne(PlannedConstraintOps(schema, s, t, i), Get(s.constraints, i), ConstraintEffect()) ==
      if i in s.constraints && i in t.constraints && ConstraintChanged(s.constraints[i], t.constraints[i]) then Fail
      else Ok(Get(AfterConstraints(s, t), i))
  {
    hide RunOne, ConstraintChanged, Attached;
    var v, drop := Get(s.constraints, i), DropConstraintOp(schema, s.name, i);
    var none: seq<Op> := [];
    if i in t.constraints {
      var add := AddConstraintOp(schema, t.name, t.constraints[i]);
      RunTwo(add, drop, v, ConstraintEffect());
      assert [add] + none == [add] && none + none == none;
    } else {
      RunTwo(drop, drop, v, ConstraintEffect());
      assert none + [drop] == [drop] && none + none == none;
    }
  }

  /** In planned order the operations for a constraint of a common table can be carried out if and
      only if the constraint is not a changed one: ADD CONSTRAINT is pre-deploy and DROP
      CONSTRAINT post-deploy, so a replacement meets the constraint it replaces.  In emission
      order they always can. */
  lemma PlannedReplacementFails(s: SchemaDef, t: SchemaDef, walk: Walk, plan: seq<Op>, ns: string, n: string, i: string)
    requires WellFormed(s) && WellFormed(t) && IsCommon(s, t, ns, n)
    requires IsPlan(DiffOps(s, t, walk), plan)
    ensures var a, b := s.schemas[ns].tables[n], t.schemas[ns].tables[n];
      && RunOne(Filter(DiffOps(s, t, walk), OfConstraint(ns, n, i)), Get(a.constraints, i), ConstraintEffect()) ==
           Ok(Get(AfterConstraints(a, b), i))
      && RunOne(Filter(plan, OfConstraint(ns, n, i)), Get(a.constraints, i), ConstraintEffect()) ==
           if i in a.constraints && i in b.constraints &&
             ConstraintChanged(a.constraints[i], b.constraints[i]) then Fail
           else Ok(Get(AfterConstraints(a, b), i))
  {
    var a, b := s.schemas[ns].tables[n], t.schemas[ns].tables[n];
    hide WellFormed, DiffOps, IsPlan, Filter, RunOne, ConstraintChanged, AfterConstraints, OwnConstraintOps,
      PlannedConstraintOps, ConstraintEffect, OfConstraint;
    DiffOfConstraint(s, t, walk, ns, n, i);
    ConstraintRuns(ns, a, b, i);
    PlanOfConstraint(s, t, walk, plan, ns, n, i);
    PlannedConstraintRuns(ns, a, b, i);
  }

  // ----- CREATE SCHEMA first

  lemma {:induction false} FirstSelected(ops: seq<Op>, p: Op -> bool, j: nat)
    requires j < |ops| && p(ops[j])
    ensures Filter(ops, p) != []
    ensures ops[j] != Filter(ops, p)[0] ==> exists i :: 0 <= i < j && ops[i] == Filter(ops, p)[0]
  {
    var init, x := ops[..|ops| - 1], ops[|ops| - 1];
    if j < |init| {
      FirstSelected(init, p, j);
      if ops[j] != Filter(ops, p)[0] {
        var i :| 0 <= i < j && init[i] == Filter(init, p)[0];
        assert ops[i] == Filter(ops, p)[0];
      }
    } else if Filter(init, p) != [] {
      var f := Filter(init, p)[0];
      assert f in Filter(init, p);
      var i :| 0 <= i < |init| && init[i] == f;
      assert ops[i] == f;
    }
  }

  lemma FirstStays(c: Op, rest: seq<Op>, p: Op -> bool)
    requires p(c)
    ensures var f := Filter([c] + rest, p); f != [] && f[0] == c
  {
    FilterConcat([c], rest, p);
    FilterAll([c], p);
  }

  lemma CreateIsEarly(ns: string)
    ensures InStage(PreDeploy)(CreateSchemaOp(ns))
  {
  }

  lemma CreateLeads(s: SchemaDef, t: SchemaDef, walk: Walk, ns: string)
    requires WellFormed(s) && WellFormed(t) && ns in t.schemas && ns !in s.schemas
    ensures var f := Filter(OpsOfStage(DiffOps(s, t, walk), PreDeploy), OfSchema(ns));
      f != [] && f[0] == CreateSchemaOp(ns)
  {
    var ops, rest := DiffOps(s, t, walk), NamespaceOps(SourceOf(s, ns), t.schemas[ns], walk);
    CreateIsEarly(ns);
    hide DiffOps, OpsOfStage, NamespaceOps, WellFormed, TargetNamespaceStep, OldNamespaceStep, StageOf, OfSchema,
      Filter,
      InStage;
    StageFilter(ops, PreDeploy);
    FilterSwap(ops, InStage(PreDeploy), OfSchema(ns));
    SchemaOps(s, t, walk, ns);
    StepsOfTarget(s, t, walk, ns);
    assert Filter(ops, OfSchema(ns)) == [CreateSchemaOp(ns)] + rest;
    FirstStays(CreateSchemaOp(ns), rest, InStage(PreDeploy));
  }

  lemma CreateIsRoot(ops: seq<Op>, u: nat)
    requires u < |ops| && ops[u].CreateSchemaOp?
    ensures GraphOf(ops).deps[u] == {}
  {
    GraphDeps(ops, u);
    hide GraphOf;
    assert ops[u].DependsOn() == {};
    assert DepsOf(ops, u) == {};
  }

  /** In a sorted pre-deploy stage CREATE SCHEMA comes before all else that was emitted for the
      namespace. */
  lemma CreateSortsFirst(ops: seq<Op>, sorted: seq<Op>, ns: string, b: nat) returns (a: nat)
    requires IsSorted(ops, sorted) && b < |sorted|
    requires sorted[b].schema == ns && sorted[b] != CreateSchemaOp(ns)
    requires var f := Filter(ops, OfSchema(ns)); f != [] && f[0] == CreateSchemaOp(ns)
    ensures a < b && sorted[a] == CreateSchemaOp(ns)
  {
    hide GraphOf, Filter;
    var order := SortedFacts(ops, sorted);
    var v := order[b];
    assert sorted[b] == ops[v];
    FirstSelected(ops, OfSchema(ns), v);
    var u: nat :| u < v && ops[u] == CreateSchemaOp(ns);
    CreateIsRoot(ops, u);
    GraphDeps(ops, u);
    RootPrecedes(GraphOf(ops), order, u, v);
    var i, j :| 0 <= i < j < |order| && order[i] == u && order[j] == v;
    assert j == b;
    a := i;
  }

  lemma FirstIsSelected(ops: seq<Op>, p: Op -> bool)
    requires Filter(ops, p) != []
    ensures Filter(ops, p)[0] in ops
  {
    assert Filter(ops, p)[0] in Filter(ops, p);
  }

  lemma PlanParts(ops: seq<Op>, plan: seq<Op>) returns (pre: seq<Op>, rest: seq<Op>)
    requires IsPlan(ops, plan)
    ensures IsSorted(OpsOfStage(ops, PreDeploy), pre) && plan == pre + rest
  {
    hide IsSorted, OpsOfStage;
    var x, mid, post :| IsPlanOf(ops, x, mid, post) && plan == x + mid + post;
    pre, rest := x, mid + post;
    assert plan == pre + rest;
  }

  lemma CreateComesFirst(ops: seq<Op>, sorted: seq<Op>, rest: seq<Op>, ns: string, b: nat) returns (a: nat)
    requires IsSorted(ops, sorted) && b < |sorted + rest|
    requires (sorted + rest)[b].schema == ns && (sorted + rest)[b] != CreateSchemaOp(ns)
    requires var f := Filter(ops, OfSchema(ns)); f != [] && f[0] == CreateSchemaOp(ns)
    ensures a < b && (sorted + rest)[a] == CreateSchemaOp(ns)
  {
    hide IsSorted, OfSchema, Filter;
    if b < |sorted| {
      a := CreateSortsFirst(ops, sorted, ns, b);
    } else {
      FirstIsSelected(ops, OfSchema(ns));
      SortedConserves(ops, sorted);
      assert CreateSchemaOp(ns) in sorted;
      a :| 0 <= a < |sorted| && sorted[a] == CreateSchemaOp(ns);
    }
  }

  /** In any plan of the whole list, everything for a new namespace comes after its CREATE SCHEMA. */
  lemma CreateSchemaFirst(s: SchemaDef, t: SchemaDef, walk: Walk, plan: seq<Op>, ns: string, b: nat) returns (a: nat)
    requires WellFormed(s) && WellFormed(t) && ns in t.schemas && ns !in s.schemas
    requires IsPlan(DiffOps(s, t, walk), plan)
    requires b < |plan| && plan[b].schema == ns && plan[b] != CreateSchemaOp(ns)
    ensures a < b && plan[a] == CreateSchemaOp(ns)
  {
    hide *;
    CreateLeads(s, t, walk, ns);
    var pre, rest := PlanParts(DiffOps(s, t, walk), plan);
    a := CreateComesFirst(OpsOfStage(DiffOps(s, t, walk), PreDeploy), pre, rest, ns, b);
  }

  // ----- new tables

  function AddsTable(key: ObjectKey): Op -> bool {
    (op: Op) => op.AddTableOp? && op.Key() == key
  }

  lemma {:induction false} TwoSelected(ops: seq<Op>, p: Op -> bool, i: nat, j: nat)
    requires i < j < |ops| && p(ops[i]) && p(ops[j])
    ensures |Filter(ops, p)| >= 2
  {
    var init := ops[..|ops| - 1];
    if j < |init| {
      TwoSelected(init, p, i, j);
    } else {
      assert ops[i] == init[i] && init[i] in Filter(init, p);
    }
  }

  lemma AddsOfTables(s: NamespaceDef, t: NamespaceDef, walk: Walk, n: string)
    requires SameNamed(s, t)
    ensures |Filter(TablesOps(s, t, walk), AddsTable(ObjectKey(t.name, n, KTable)))| <= 1
  {
    var p := AddsTable(ObjectKey(t.name, n, KTable));
    var a, b, c := Flat(Sorted(t.tables.Keys), NewTableStep(s, t)), Flat(Sorted(s.tables.Keys), OldTableStep(s, t)),
      Flat(Sorted(t.tables.Keys), CommonTableStep(s, t, walk));
    assert NewTableAdds(s, t, n, p) by { NewTablesAdd(s, t, n); }
    CommonTablesAddNone(s, t, walk, p);
    OldTablesAddNone(s, t, p);
    hide Filter, Flat, NewTableStep, OldTableStep, CommonTableStep, SameNamed;
    FilterThree(a, b, c, p);
  }

  ghost predicate NewTableAdds(s: NamespaceDef, t: NamespaceDef, n: string, p: Op -> bool) {
    |Filter(Flat(Sorted(t.tables.Keys), NewTableStep(s, t)), p)| <= 1
  }

  lemma NewTablesAdd(s: NamespaceDef, t: NamespaceDef, n: string)
    ensures NewTableAdds(s, t, n, AddsTable(ObjectKey(t.name, n, KTable)))
  {
    SortedDistinct(Sorted(t.tables.Keys));
    forall k, op | op in NewTableStep(s, t)(k) ensures AddsTable(ObjectKey(t.name, n, KTable))(op) <==> k == n {
    }
    assert |NewTableStep(s, t)(n)| <= 1;
    hide NewTableStep, Filter, Flat, AddsTable;
    FilterFlatOne(Sorted(t.tables.Keys), NewTableStep(s, t), AddsTable(ObjectKey(t.name, n, KTable)), n);
  }

  lemma OldTablesAddNone(s: NamespaceDef, t: NamespaceDef, p: Op -> bool)
    requires forall op :: p(op) ==> op.AddTableOp?
    ensures Filter(Flat(Sorted(s.tables.Keys), OldTableStep(s, t)), p) == []
  {
    var ops := Flat(Sorted(s.tables.Keys), OldTableStep(s, t));
    FlatAll(Sorted(s.tables.Keys), OldTableStep(s, t), (op: Op) => op.DropTableOp?);
    hide Flat;
    forall op | op in ops ensures !p(op) {
      assert ((op: Op) => op.DropTableOp?)(op);
    }
    FilterNone(ops, p);
  }

  lemma CommonTablesAddNone(s: NamespaceDef, t: NamespaceDef, walk: Walk, p: Op -> bool)
    requires SameNamed(s, t) && forall op :: p(op) ==> op.AddTableOp?
    ensures Filter(Flat(Sorted(t.tables.Keys), CommonTableStep(s, t, walk)), p) == []
  {
    var ops := Flat(Sorted(t.tables.Keys), CommonTableStep(s, t, walk));
    hide Flat, CommonTableStep, SameNamed;
    forall op | op in ops ensures !p(op) {
      var k := FlatMember(Sorted(t.tables.Keys), CommonTableStep(s, t, walk), op);
      CommonStepHome(s, t, walk, k);
      assert ChangesTable(t.name, k)(op);
    }
    FilterNone(ops, p);
  }

  lemma AddsInTables(key: ObjectKey, op: Op)
    requires AddsTable(key)(op)
    ensures op.AddTableOp? && op.schema == key.schema && PartOf(op) == Tables
    ensures key == ObjectKey(key.schema, op.name, KTable)
  {
  }

  lemma AddsOnce(s: SchemaDef, t: SchemaDef, walk: Walk, key: ObjectKey)
    requires WellFormed(s) && WellFormed(t)
    ensures |Filter(DiffOps(s, t, walk), AddsTable(key))| <= 1
  {
    hide DiffOps, Filter, WellFormed, AddsTable, PartOf, TargetNamespaceStep, OldNamespaceStep, TablesOps;
    var ns, ops := key.schema, DiffOps(s, t, walk);
    forall op | AddsTable(key)(op)
      ensures op.AddTableOp? && op.schema == ns && PartOf(op) == Tables && key == ObjectKey(ns, op.name, KTable)
    {
      AddsInTables(key, op);
    }
    SelectInside(ops, ns, Tables, AddsTable(key));
    if ns in t.schemas {
      SourceSameNamed(s, t, ns);
      DiffOfTables(s, t, walk, ns);
      if key == ObjectKey(ns, key.name, KTable) {
        AddsOfTables(SourceOf(s, ns), t.schemas[ns], walk, key.name);
      } else {
        FilterNone(ops, AddsTable(key));
      }
    } else {
      SchemaOps(s, t, walk, ns);
      NothingButDrop(s, t, walk, ns);
    }
  }

  lemma NothingButDrop(s: SchemaDef, t: SchemaDef, walk: Walk, ns: string)
    requires ns !in t.schemas
    ensures Filter(TargetNamespaceStep(s, t, walk)(ns) + OldNamespaceStep(s, t)(ns), InPart(Tables)) == []
    ensures forall p: Op -> bool :: Filter([], p) == []
  {
    hide NamespaceOps;
    FilterNone(TargetNamespaceStep(s, t, walk)(ns) + OldNamespaceStep(s, t)(ns), InPart(Tables));
  }

  lemma FilterShrinks(ops: seq<Op>, keep: Op -> bool, p: Op -> bool)
    ensures |Filter(Filter(ops, keep), p)| <= |Filter(ops, p)|
  {
    FilterSwap(ops, keep, p);
  }

  lemma DiffAddsTablesOnce(s: SchemaDef, t: SchemaDef, walk: Walk, unsafeDrop: bool)
    requires WellFormed(s) && WellFormed(t)
    ensures TablesAddedOnce(Allowed(DiffOps(s, t, walk), unsafeDrop))
  {
    var ops := Allowed(DiffOps(s, t, walk), unsafeDrop);
    forall i, j | 0 <= i < j < |ops| && ops[i].AddTableOp? && ops[j].AddTableOp? ensures ops[i].Key() != ops[j].Key() {
      hide DiffOps, WellFormed, Filter, Op.Key;
      if ops[i].Key() == ops[j].Key() {
        var key := ops[i].Key();
        TwoSelected(ops, AddsTable(key), i, j);
        AddsOnce(s, t, walk, key);
        FilterShrinks(DiffOps(s, t, walk), (op: Op) => !op.IsDestructive(), AddsTable(key));
        assert false;
      }
    }
  }

  /** Planning what the differ emits fails if and only if two or more new tables reference each
      other in a cycle. */
  lemma DiffPlanningFails(s: SchemaDef, t: SchemaDef, walk: Walk, unsafeDrop: bool)
    requires WellFormed(s) && WellFormed(t)
    ensures var ops := Allowed(DiffOps(s, t, walk), unsafeDrop);
      !Plannable(ops) <==> exists p :: IsReferenceCycle(ops, p)
  {
    DiffAddsTablesOnce(s, t, walk, unsafeDrop);
    hide DiffOps, WellFormed, Plannable;
    PlanningFailsExactlyOnReferenceCycles(Allowed(DiffOps(s, t, walk), unsafeDrop));
  }
}
