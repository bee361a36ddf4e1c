/** Running a plan on the tables of a namespace. */
module TablePlans {
  import opened Catalog
  import opened Operations
  import opened Names
  import opened Lists
  import opened Dag
  import opened Planner
  import opened PlanTheorems
  import opened DiffSpec
  import opened Locality
  import opened TableEdits
  import opened Semantics
  import opened ObjectMigration
  import opened ColumnMigration
  import opened TableMigration
  import opened StagedMigration
  import opened DiffShape
  import opened TableSteps
  import opened SchemaMigration
  import opened PlannedDiff
  import opened ObjectPlans

  // ----- one early operation and late ones that wait for nothing

  lemma FreeKeeps(ops: seq<Op>, stage: Stage, p: Op -> bool)
    requires forall op :: op in Filter(ops, p) && StageOf(op) == stage ==> op.DependsOn() == {}
    ensures KeepsOrder(ops, stage, p)
  {
    hide StageOf, Op.DependsOn, Op.Key;
    StageFilter(ops, stage);
    var part := OpsOfStage(ops, stage);
    forall op | op in part && p(op) ensures op.DependsOn() == {} {
      assert InStage(stage)(op);
    }
    assert WaitAlike(part, p);
  }

  lemma FewKeep(ops: seq<Op>, stage: Stage, p: Op -> bool)
    requires |Filter(Filter(ops, p), InStage(stage))| <= 1
    ensures KeepsOrder(ops, stage, p)
  {
    hide Filter, WaitAlike, OpsOfStage;
    StageFilter(ops, stage);
    FilterSwap(ops, InStage(stage), p);
  }

  /** One early operation at most, and late ones that wait for nothing. */
  ghost predicate EarlyThenFree(ops: seq<Op>) {
    && |Filter(ops, InStage(PreDeploy))| <= 1
    && Filter(ops, InStage(Deploy)) == []
    && forall op :: op in ops && StageOf(op) == PostDeploy ==> op.DependsOn() == {}
  }

  lemma EarlyThenFreeInPlan(ops: seq<Op>, plan: seq<Op>, p: Op -> bool)
    requires IsPlan(ops, plan) && EarlyThenFree(Filter(ops, p))
    ensures Filter(plan, p) == Filter(Filter(ops, p), InStage(PreDeploy)) + Filter(Filter(ops, p), InStage(PostDeploy))
  {
    hide Filter, StageOf, Op.DependsOn, KeepsOrder, IsPlan;
    FewKeep(ops, PreDeploy, p);
    FewKeep(ops, Deploy, p);
    FreeKeeps(ops, PostDeploy, p);
    forall stage ensures KeepsOrder(ops, stage, p) {
      match stage case PreDeploy => case Deploy => case PostDeploy =>
    }
    PlanKeeps(ops, plan, p);
  }

  // ----- selections

  function OfTableHere(ns: string, n: string): Op -> bool {
    (op: Op) => OfSchemaPart(ns, Tables)(op) && AboutTable(n)(op)
  }

  lemma ChainTable(ops: seq<Op>, ns: string, n: string)
    ensures Filter(PartIn(ops, ns, Tables), AboutTable(n)) == Filter(ops, OfTableHere(ns, n))
  {
    PartInIs(ops, ns, Tables);
    hide Filter, PartIn;
    FilterFilter(ops, OfSchemaPart(ns, Tables), AboutTable(n), OfTableHere(ns, n));
  }

  lemma OfTableIsPart(ns: string, n: string, part: TablePart, op: Op)
    requires part == ColumnPart || part == ConstraintPart
    ensures OfTable(ns, n, part)(op) <==> OfSchemaPart(ns, Tables)(op) && PartOfOne(n, part)(op)
  {
    assert OfSchema(ns)(op) <==> op.schema == ns;
    if OfTable(ns, n, part)(op) { OfTableIsTables(ns, n, part, op); }
  }

  lemma ChainPart(ops: seq<Op>, ns: string, n: string, part: TablePart)
    requires part == ColumnPart || part == ConstraintPart
    ensures Filter(Filter(PartIn(ops, ns, Tables), AboutTable(n)), InTablePart(part)) ==
      Filter(ops, OfTable(ns, n, part))
  {
    hide Filter, PartIn, OfTable, OfSchemaPart, PartOfOne;
    forall op ensures OfTable(ns, n, part)(op) <==> OfSchemaPart(ns, Tables)(op) && PartOfOne(n, part)(op) {
      OfTableIsPart(ns, n, part, op);
    }
    PartInIs(ops, ns, Tables);
    AboutThenPart(PartIn(ops, ns, Tables), n, part);
    FilterFilter(ops, OfSchemaPart(ns, Tables), PartOfOne(n, part), OfTable(ns, n, part));
  }

  function OfIndexes(ns: string, n: string): Op -> bool {
    (op: Op) => OfSchemaPart(ns, Tables)(op) && PartOfOne(n, IndexPart)(op)
  }

  function OfIndex(ns: string, n: string, i: string): Op -> bool {
    (op: Op) => OfIndexes(ns, n)(op) && AboutIndex(i)(op)
  }

  lemma ChainIndexes(ops: seq<Op>, ns: string, n: string)
    ensures Filter(Filter(PartIn(ops, ns, Tables), AboutTable(n)), InTablePart(IndexPart)) ==
      Filter(ops, OfIndexes(ns, n))
  {
    PartInIs(ops, ns, Tables);
    hide Filter, PartIn, OfSchemaPart, PartOfOne;
    AboutThenPart(PartIn(ops, ns, Tables), n, IndexPart);
    FilterFilter(ops, OfSchemaPart(ns, Tables), PartOfOne(n, IndexPart), OfIndexes(ns, n));
  }

  lemma ChainIndex(ops: seq<Op>, ns: string, n: string, i: string)
    ensures Filter(Filter(Filter(PartIn(ops, ns, Tables), AboutTable(n)), InTablePart(IndexPart)), AboutIndex(i)) ==
      Filter(ops, OfIndex(ns, n, i))
  {
    hide Filter, PartIn, OfIndexes, AboutIndex;
    ChainIndexes(ops, ns, n);
    FilterFilter(ops, OfIndexes(ns, n), AboutIndex(i), OfIndex(ns, n, i));
  }

  // ----- tables that only one schema has

  lemma StagesOfTwo(a: seq<Op>, b: seq<Op>)
    requires forall op :: op in a ==> StageOf(op) == PreDeploy
    requires forall op :: op in b ==> StageOf(op) == PostDeploy
    ensures Filter(a + b, InStage(PreDeploy)) == a
    ensures Filter(a + b, InStage(Deploy)) == []
    ensures Filter(a + b, InStage(PostDeploy)) == b
  {
    hide StageOf, Filter;
    forall stage ensures Filter(a + b, InStage(stage)) ==
      (if stage == PreDeploy then a else []) + (if stage == PostDeploy then b else [])
    {
      FilterConcat(a, b, InStage(stage));
      AllOfStage(a, PreDeploy, stage);
      AllOfStage(b, PostDeploy, stage);
    }
  }

  lemma WholeStages(u: NamespaceDef, v: NamespaceDef, n: string, rest: seq<Op>)
    requires AllDropIndexes(rest)
    ensures |NewTableStep(u, v)(n)| <= 1
    ensures forall op :: op in NewTableStep(u, v)(n) ==> StageOf(op) == PreDeploy
    ensures forall op :: op in OldTableStep(u, v)(n) + rest ==> StageOf(op) == PostDeploy && op.DependsOn() == {}
  {
  }

  lemma WholeTableInPlan(s: SchemaDef, t: SchemaDef, walk: Walk, plan: seq<Op>, ns: string, n: string)
    requires WellFormed(s) && WellFormed(t) && ns in t.schemas && IsPlan(DiffOps(s, t, walk), plan)
    requires !(n in SourceOf(s, ns).tables && n in t.schemas[ns].tables)
    ensures Filter(PartIn(plan, ns, Tables), AboutTable(n)) ==
      Filter(TablesOps(SourceOf(s, ns), t.schemas[ns], walk), AboutTable(n))
  {
    hide WellFormed, DiffOps, IsPlan, Filter, TablesOps, NewTableStep, OldTableStep, AllDropIndexes, StageOf,
      Op.DependsOn,
      SameNamed, OfTableHere, AboutTable;
    var u, v, ops := SourceOf(s, ns), t.schemas[ns], DiffOps(s, t, walk);
    SourceSameNamed(s, t, ns);
    var rest := AboutOneTable(u, v, walk, n);
    var a, b := NewTableStep(u, v)(n), OldTableStep(u, v)(n) + rest;
    assert a + b == a + OldTableStep(u, v)(n) + rest;
    WholeStages(u, v, n, rest);
    StagesOfTwo(a, b);
    DiffOfTables(s, t, walk, ns);
    ChainTable(ops, ns, n);
    ChainTable(plan, ns, n);
    EarlyThenFreeInPlan(ops, plan, OfTableHere(ns, n));
  }

  lemma WholeTablePlanned(s: SchemaDef, t: SchemaDef, walk: Walk, plan: seq<Op>, ns: string, n: string)
    requires WellFormed(s) && WellFormed(t) && ns in t.schemas && IsPlan(DiffOps(s, t, walk), plan)
    requires !(n in SourceOf(s, ns).tables && n in t.schemas[ns].tables)
    ensures var u, v := SourceOf(s, ns), t.schemas[ns];
      var r := RunOne(Filter(PartIn(plan, ns, Tables), AboutTable(n)), Get(u.tables, n), TableEffect());
      r.Ok? && TableDone(AsPlanned, u, v, n, r.value)
  {
    hide WellFormed, DiffOps, IsPlan, Filter, TablesOps, SameNamed, AboutTable, RunOne, TableEffect, Created, PartIn,
      TableMigrated;
    SourceSameNamed(s, t, ns);
    WholeTableInPlan(s, t, walk, plan, ns, n);
    WholeTableDone(SourceOf(s, ns), t.schemas[ns], walk, n);
  }

  // ----- indexes

  /** The target's index meets the source's, from which it differs. */
  predicate IndexClash(a: TableDef, b: TableDef, i: string) {
    && i in a.indexes && i in b.indexes
    && !SameIndex(a.indexes[i], b.indexes[i]) && !b.indexes[i].ifNotExists
  }

  ghost function CreateBlock(u: NamespaceDef, v: NamespaceDef, n: string, i: string): string -> seq<Op> {
    (k: string) =>
      if k == n && k in u.tables && k in v.tables && i in v.tables[k].indexes &&
         (i !in u.tables[k].indexes || DropsIndex(u.tables[k], v.tables[k], i))
      then [CreateIndexOp(u.name, v.tables[k].indexes[i])] else []
  }

  lemma IndexStages(op: Op)
    ensures op.CreateIndexOp? ==> StageOf(op) == PreDeploy
    ensures op.DropIndexOp? ==> StageOf(op) == PostDeploy && op.DependsOn() == {}
  {
  }

  /** The operations on an index create and drop it. */
  lemma IndexBlockShape(u: NamespaceDef, v: NamespaceDef, n: string, i: string, k: string)
    ensures IndexBlock(u, v, n, i)(k) ==
      (if IndexDroppedFor(u, v, k, i) then [DropIndexOp(u.name, i)] else []) + CreateBlock(u, v, n, i)(k)
  {
    hide DropsIndex, OwnIndexOps;
    if k == n && k in u.tables && k in v.tables { OwnIndexShape(u.name, u.tables[k], v.tables[k], i); }
  }

  lemma CreatesOfBlock(u: NamespaceDef, v: NamespaceDef, n: string, i: string, k: string)
    ensures Filter(IndexBlock(u, v, n, i)(k), InStage(PreDeploy)) == CreateBlock(u, v, n, i)(k)
    ensures Filter(IndexBlock(u, v, n, i)(k), InStage(Deploy)) == []
  {
    var a, b := if IndexDroppedFor(u, v, k, i) then [DropIndexOp(u.name, i)] else [], CreateBlock(u, v, n, i)(k);
    forall op | op in b ensures op.CreateIndexOp? {
    }
    hide IndexBlock, CreateBlock, IndexDroppedFor, StageOf, Filter;
    IndexBlockShape(u, v, n, i, k);
    forall op: Op ensures (op.CreateIndexOp? ==> StageOf(op) == PreDeploy) &&
      (op.DropIndexOp? ==> StageOf(op) == PostDeploy) {
      IndexStages(op);
    }
    FilterConcat(a, b, InStage(PreDeploy));
    FilterConcat(a, b, InStage(Deploy));
    AllOfStage(a, PostDeploy, PreDeploy);
    AllOfStage(a, PostDeploy, Deploy);
    AllOfStage(b, PreDeploy, PreDeploy);
    AllOfStage(b, PreDeploy, Deploy);
  }

  lemma EarlyIndexOps(u: NamespaceDef, v: NamespaceDef, n: string, i: string)
    requires n in v.tables
    ensures var ops := Flat(Sorted(v.tables.Keys), IndexBlock(u, v, n, i));
      && Filter(ops, InStage(PreDeploy)) == CreateBlock(u, v, n, i)(n)
      && Filter(ops, InStage(Deploy)) == []
  {
    var names, none := Sorted(v.tables.Keys), ((k: string) => (var x: seq<Op> := []; x));
    forall k ensures k != n ==> CreateBlock(u, v, n, i)(k) == [] {
    }
    SortedDistinct(names);
    hide Filter, Flat, IndexBlock, CreateBlock, StageOf, StrictlySorted;
    forall k ensures Filter(IndexBlock(u, v, n, i)(k), InStage(PreDeploy)) == CreateBlock(u, v, n, i)(k) &&
      Filter(IndexBlock(u, v, n, i)(k), InStage(Deploy)) == none(k)
    {
      CreatesOfBlock(u, v, n, i, k);
    }
    FilterFlat(names, IndexBlock(u, v, n, i), CreateBlock(u, v, n, i), InStage(PreDeploy));
    FlatOne(names, CreateBlock(u, v, n, i), n);
    FilterFlat(names, IndexBlock(u, v, n, i), none, InStage(Deploy));
    FlatEmpty(names, none);
  }

  lemma BlockMember(u: NamespaceDef, v: NamespaceDef, n: string, i: string, k: string, op: Op)
    requires op in IndexBlock(u, v, n, i)(k)
    ensures op.CreateIndexOp? || (op == DropIndexOp(u.name, i) && IndexDroppedFor(u, v, k, i))
  {
    hide IndexBlock, IndexDroppedFor, DropsIndex;
    IndexBlockShape(u, v, n, i, k);
  }

  lemma LateIndexOps(u: NamespaceDef, v: NamespaceDef, n: string, i: string)
    ensures var ops := Filter(Flat(Sorted(v.tables.Keys), IndexBlock(u, v, n, i)), InStage(PostDeploy));
      && (forall op :: op in ops ==> op.DropIndexOp?)
      && (ops == [] <==> !DroppedAnywhere(u, v, i))
  {
    var names := Sorted(v.tables.Keys);
    forall k | IndexDroppedFor(u, v, k, i) ensures k in v.tables {
    }
    hide Flat, IndexBlock, IndexDroppedFor, StageOf;
    var all := Flat(names, IndexBlock(u, v, n, i));
    var ops := Filter(all, InStage(PostDeploy));
    forall op | op in ops ensures op.DropIndexOp? && DroppedAnywhere(u, v, i) {
      IndexStages(op);
      var k := FlatMember(names, IndexBlock(u, v, n, i), op);
      BlockMember(u, v, n, i, k, op);
    }
    assert ops != [] ==> ops[0] in ops;
    if DroppedAnywhere(u, v, i) {
      var k :| IndexDroppedFor(u, v, k, i);
      var drop := DropIndexOp(u.name, i);
      IndexBlockShape(u, v, n, i, k);
      FlatHas(names, IndexBlock(u, v, n, i), k, drop);
      IndexStages(drop);
      assert drop in ops;
    }
  }

  lemma {:induction false} DropsRun(ops: seq<Op>, v: Option<Index>)
    requires forall op :: op in ops ==> op.DropIndexOp?
    ensures RunOne(ops, v, IndexEffect()) == Ok(if ops == [] then v else None)
  {
    if ops != [] {
      assert forall op :: op in ops[..|ops| - 1] ==> op in ops;
      DropsRun(ops[..|ops| - 1], v);
      assert ops[|ops| - 1] in ops;
    }
  }

  lemma CreateRuns(u: NamespaceDef, v: NamespaceDef, n: string, i: string)
    requires n in u.tables && n in v.tables
    ensures var a, b := u.tables[n], v.tables[n];
      RunOne(CreateBlock(u, v, n, i)(n), Get(a.indexes, i), IndexEffect()) ==
        if IndexClash(a, b, i) then Fail
        else Ok(if i in b.indexes && i !in a.indexes then Some(b.indexes[i]) else Get(a.indexes, i))
  {
    hide RunOne, SameIndex;
    var a, b := u.tables[n], v.tables[n];
    if i in b.indexes {
      var create := CreateIndexOp(u.name, b.indexes[i]);
      RunTwo(create, create, Get(a.indexes, i), IndexEffect());
    } else {
      var drop := DropIndexOp(u.name, i);
      RunTwo(drop, drop, Get(a.indexes, i), IndexEffect());
    }
  }

  /** Created first, dropped last. */
  lemma PlannedIndexRuns(u: NamespaceDef, v: NamespaceDef, n: string, i: string, drops: seq<Op>)
    requires n in u.tables && n in v.tables
    requires forall op :: op in drops ==> op.DropIndexOp?
    requires drops == [] <==> !DroppedAnywhere(u, v, i)
    ensures RunOne(CreateBlock(u, v, n, i)(n) + drops, Get(u.tables[n].indexes, i), IndexEffect()) ==
      if IndexClash(u.tables[n], v.tables[n], i) then Fail else Ok(Get(AfterIndexes(AsPlanned, u, v, n), i))
  {
    assert IndexDroppedFor(u, v, n, i) <==> DropsIndex(u.tables[n], v.tables[n], i);
    hide RunOne, SameIndex, CreateBlock, IndexEffect;
    var a, b := u.tables[n], v.tables[n];
    CreateRuns(u, v, n, i);
    RunOneConcat(CreateBlock(u, v, n, i)(n), drops, Get(a.indexes, i), IndexEffect());
    if !IndexClash(a, b, i) {
      DropsRun(drops, if i in b.indexes && i !in a.indexes then Some(b.indexes[i]) else Get(a.indexes, i));
    }
  }

  lemma DiffOfIndex(s: SchemaDef, t: SchemaDef, walk: Walk, ns: string, n: string, i: string)
    requires WellFormed(s) && WellFormed(t) && ns in t.schemas
    ensures Filter(DiffOps(s, t, walk), OfIndex(ns, n, i)) ==
      Flat(Sorted(t.schemas[ns].tables.Keys), IndexBlock(SourceOf(s, ns), t.schemas[ns], n, i))
  {
    hide WellFormed, DiffOps, Filter, TablesOps, SameNamed, OfIndex, AboutIndex, PartOfOne, Flat, IndexBlock;
    var u, v, ops := SourceOf(s, ns), t.schemas[ns], DiffOps(s, t, walk);
    SourceSameNamed(s, t, ns);
    DiffOfTables(s, t, walk, ns);
    PartInFilters(ops, ns, Tables);
    ChainIndex(ops, ns, n, i);
    AboutThenPart(TablesOps(u, v, walk), n, IndexPart);
    TablesIndexAbout(u, v, walk, n, i);
  }

  lemma CreatesOnce(u: NamespaceDef, v: NamespaceDef, n: string, i: string)
    ensures |CreateBlock(u, v, n, i)(n)| <= 1
  {
    hide DropsIndex;
  }

  lemma IndexOpsInPlan(s: SchemaDef, t: SchemaDef, walk: Walk, plan: seq<Op>, ns: string, n: string, i: string)
    returns (drops: seq<Op>)
    requires WellFormed(s) && WellFormed(t) && ns in t.schemas && IsPlan(DiffOps(s, t, walk), plan)
    requires n in t.schemas[ns].tables
    ensures Filter(plan, OfIndex(ns, n, i)) == CreateBlock(SourceOf(s, ns), t.schemas[ns], n, i)(n) + drops
    ensures forall op :: op in drops ==> op.DropIndexOp?
    ensures drops == [] <==> !DroppedAnywhere(SourceOf(s, ns), t.schemas[ns], i)
  {
    hide WellFormed, DiffOps, IsPlan, Filter, OfIndex, Flat, IndexBlock, CreateBlock, DroppedAnywhere, StageOf,
      Op.DependsOn,
      SourceOf;
    var u, v, ops := SourceOf(s, ns), t.schemas[ns], DiffOps(s, t, walk);
    CreatesOnce(u, v, n, i);
    DiffOfIndex(s, t, walk, ns, n, i);
    EarlyIndexOps(u, v, n, i);
    LateIndexOps(u, v, n, i);
    drops := Filter(Filter(ops, OfIndex(ns, n, i)), InStage(PostDeploy));
    forall op | op in Filter(ops, OfIndex(ns, n, i)) && StageOf(op) == PostDeploy ensures op.DependsOn() == {} {
      assert op in drops;
      IndexStages(op);
    }
    EarlyThenFreeInPlan(ops, plan, OfIndex(ns, n, i));
  }

  ghost predicate IndexesExecutable(a: TableDef, b: TableDef) {
    forall i :: !IndexClash(a, b, i)
  }

  lemma PlannedIndexes(s: SchemaDef, t: SchemaDef, walk: Walk, plan: seq<Op>, ns: string, n: string)
    requires WellFormed(s) && WellFormed(t) && IsCommon(s, t, ns, n) && IsPlan(DiffOps(s, t, walk), plan)
    ensures var u, v := s.schemas[ns], t.schemas[ns];
      RunIndexPart(Filter(PartIn(plan, ns, Tables), AboutTable(n)), u.tables[n]) ==
        if IndexesExecutable(u.tables[n], v.tables[n]) then Ok(AfterIndexes(AsPlanned, u, v, n)) else Fail
  {
    EffectsTame();
    hide WellFormed, DiffOps, IsPlan, Filter, PartIn, RunOne, Run, AfterIndexes, IndexEffect, IndexClash,
      DroppedAnywhere,
      CreateBlock, AboutTable;
    var u, v := s.schemas[ns], t.schemas[ns];
    var a, b := u.tables[n], v.tables[n];
    var ops := Filter(Filter(PartIn(plan, ns, Tables), AboutTable(n)), InTablePart(IndexPart));
    forall i ensures RunOne(Filter(ops, About(IndexName(), NoBroadcast(), i)), Get(a.indexes, i), IndexEffect()) ==
      if IndexClash(a, b, i) then Fail else Ok(Get(AfterIndexes(AsPlanned, u, v, n), i))
    {
      ChainIndex(plan, ns, n, i);
      var drops := IndexOpsInPlan(s, t, walk, plan, ns, n, i);
      PlannedIndexRuns(u, v, n, i, drops);
    }
    if IndexesExecutable(a, b) {
      RunByName(ops, a.indexes, IndexName(), NoBroadcast(), IndexEffect(), AfterIndexes(AsPlanned, u, v, n));
    } else {
      var i :| IndexClash(a, b, i);
      RunFails(ops, a.indexes, IndexName(), NoBroadcast(), IndexEffect(), i);
    }
  }

  // ----- constraints and columns

  predicate ConstraintReplaced(a: TableDef, b: TableDef, i: string) {
    i in a.constraints && i in b.constraints && ConstraintChanged(a.constraints[i], b.constraints[i])
  }

  ghost predicate ConstraintsExecutable(a: TableDef, b: TableDef) {
    forall i :: !ConstraintReplaced(a, b, i)
  }

  lemma PlannedConstraints(s: SchemaDef, t: SchemaDef, walk: Walk, plan: seq<Op>, ns: string, n: string)
    requires WellFormed(s) && WellFormed(t) && IsCommon(s, t, ns, n) && IsPlan(DiffOps(s, t, walk), plan)
    ensures var a, b := s.schemas[ns].tables[n], t.schemas[ns].tables[n];
      RunConstraintPart(Filter(PartIn(plan, ns, Tables), AboutTable(n)), a) ==
        if ConstraintsExecutable(a, b) then Ok(AfterConstraints(a, b)) else Fail
  {
    EffectsTame();
    hide WellFormed, DiffOps, IsPlan, Filter, PartIn, RunOne, Run, AfterConstraints, ConstraintEffect, AboutTable,
      OfTable,
      ConstraintChanged;
    var a, b := s.schemas[ns].tables[n], t.schemas[ns].tables[n];
    ChainPart(plan, ns, n, ConstraintPart);
    var ops := Filter(plan, OfTable(ns, n, ConstraintPart));
    forall i ensures RunOne(Filter(ops, About(ConstraintName(), NoBroadcast(), i)), Get(a.constraints, i),
      ConstraintEffect()) ==
      if ConstraintReplaced(a, b, i) then Fail else Ok(Get(AfterConstraints(a, b), i))
    {
      PlannedReplacementFails(s, t, walk, plan, ns, n, i);
      FilterFilter(plan, OfTable(ns, n, ConstraintPart), About(ConstraintName(), NoBroadcast(), i),
        OfConstraint(ns, n, i));
    }
    hide ConstraintReplaced;
    if ConstraintsExecutable(a, b) {
      RunByName(ops, a.constraints, ConstraintName(), NoBroadcast(), ConstraintEffect(), AfterConstraints(a, b));
    } else {
      var i :| ConstraintReplaced(a, b, i);
      RunFails(ops, a.constraints, ConstraintName(), NoBroadcast(), ConstraintEffect(), i);
    }
  }

  lemma PlannedColumnPart(s: SchemaDef, t: SchemaDef, walk: Walk, plan: seq<Op>, ns: string, n: string)
    requires WellFormed(s) && WellFormed(t) && Walks(walk, s) && IsCommon(s, t, ns, n) &&
      IsPlan(DiffOps(s, t, walk), plan)
    ensures var a, b := s.schemas[ns].tables[n], t.schemas[ns].tables[n];
      var c := RunColumnPart(Filter(PartIn(plan, ns, Tables), AboutTable(n)), a);
      c.Ok? && c.value.byName == After(a, b) && ColumnsWellFormed(c.value)
  {
    hide WellFormed, Walks, DiffOps, IsPlan, Filter, PartIn, AboutTable, OfTable, RunColumns, After, ColumnsWellFormed;
    ChainPart(plan, ns, n, ColumnPart);
    PlannedColumns(s, t, walk, plan, ns, n);
  }

  // ----- common tables

  /** No constraint and no index of the table has to replace the source's. */
  ghost predicate TableExecutable(a: TableDef, b: TableDef) {
    ConstraintsExecutable(a, b) && IndexesExecutable(a, b)
  }

  lemma PlannedInside(s: SchemaDef, t: SchemaDef, walk: Walk, plan: seq<Op>, ns: string, n: string)
    requires WellFormed(s) && WellFormed(t) && IsCommon(s, t, ns, n) && IsPlan(DiffOps(s, t, walk), plan)
    ensures InsideTable(Filter(PartIn(plan, ns, Tables), AboutTable(n)))
  {
    hide WellFormed, DiffOps, IsPlan, PartIn, TablesOps, AboutTable, PartOfTable, SameNamed, OfTableHere, Filter;
    SourceSameNamed(s, t, ns);
    DiffOfTables(s, t, walk, ns);
    ChainTable(DiffOps(s, t, walk), ns, n);
    ChainTable(plan, ns, n);
    CommonInside(s.schemas[ns], t.schemas[ns], walk, n);
    PartInFilters(DiffOps(s, t, walk), ns, Tables);
    assert PartIn(DiffOps(s, t, walk), ns, Tables) == TablesOps(s.schemas[ns], t.schemas[ns], walk);
    SameMembers(DiffOps(s, t, walk), plan);
    forall op | op in Filter(plan, OfTableHere(ns, n)) ensures PartOfTable(op) != WholeTable {
      assert op in Filter(DiffOps(s, t, walk), OfTableHere(ns, n));
    }
  }

  lemma PartInFilters(ops: seq<Op>, ns: string, part: Part)
    ensures PartIn(ops, ns, part) == Filter(Filter(ops, OfSchema(ns)), InPart(part))
  {
  }

  /** A plan reorders the operations. */
  lemma SameMembers(ops: seq<Op>, plan: seq<Op>)
    requires IsPlan(ops, plan)
    ensures forall op :: op in plan <==> op in ops
  {
    hide IsPlan;
    var m, n := PlanConserves(ops, plan);
    forall op ensures op in plan <==> op in ops {
      assert op in plan <==> op in multiset(plan);
      assert op in ops <==> op in multiset(ops);
    }
  }

  lemma CommonTablePlanned(s: SchemaDef, t: SchemaDef, walk: Walk, plan: seq<Op>, ns: string, n: string)
    requires WellFormed(s) && WellFormed(t) && Walks(walk, s) && IsCommon(s, t, ns, n) &&
      IsPlan(DiffOps(s, t, walk), plan)
    ensures var u, v := s.schemas[ns], t.schemas[ns];
      var r := RunOne(Filter(PartIn(plan, ns, Tables), AboutTable(n)), Get(u.tables, n), TableEffect());
      && (r.Ok? <==> TableExecutable(u.tables[n], v.tables[n]))
      && (r.Ok? ==> TableDone(AsPlanned, u, v, n, r.value))
  {
    hide WellFormed, Walks, DiffOps, IsPlan, Filter, PartIn, AboutTable, RunOne, TableEffect, RunColumnPart,
      RunConstraintPart,
      RunIndexPart, After, AfterConstraints, AfterIndexes, ColumnsWellFormed, InsideTable, ConstraintsExecutable,
        IndexesExecutable;
    var ops := Filter(PartIn(plan, ns, Tables), AboutTable(n));
    PlannedInside(s, t, walk, plan, ns, n);
    TableSplits(ops, s.schemas[ns].tables[n]);
    PlannedColumnPart(s, t, walk, plan, ns, n);
    PlannedConstraints(s, t, walk, plan, ns, n);
    PlannedIndexes(s, t, walk, plan, ns, n);
  }

  ghost predicate TablesExecutable(u: NamespaceDef, v: NamespaceDef) {
    forall n :: n in u.tables && n in v.tables ==> TableExecutable(u.tables[n], v.tables[n])
  }

  lemma TablePlanned(s: SchemaDef, t: SchemaDef, walk: Walk, plan: seq<Op>, ns: string, n: string)
    requires WellFormed(s) && WellFormed(t) && Walks(walk, s) && ns in t.schemas && IsPlan(DiffOps(s, t, walk), plan)
    ensures var u, v := SourceOf(s, ns), t.schemas[ns];
      var r := RunOne(Filter(PartIn(plan, ns, Tables), AboutTable(n)), Get(u.tables, n), TableEffect());
      && (r.Ok? <==> (n in u.tables && n in v.tables ==> TableExecutable(u.tables[n], v.tables[n])))
      && (r.Ok? ==> TableDone(AsPlanned, u, v, n, r.value))
  {
    hide WellFormed, Walks, DiffOps, IsPlan, Filter, PartIn, AboutTable, RunOne, TableEffect, TableDone,
      TableExecutable;
    if n in SourceOf(s, ns).tables && n in t.schemas[ns].tables {
      CommonTablePlanned(s, t, walk, plan, ns, n);
    } else {
      WholeTablePlanned(s, t, walk, plan, ns, n);
    }
  }

  lemma PlannedTablesRun(s: SchemaDef, t: SchemaDef, walk: Walk, plan: seq<Op>, ns: string)
    requires WellFormed(s) && WellFormed(t) && Walks(walk, s) && ns in t.schemas && IsPlan(DiffOps(s, t, walk), plan)
    ensures var u, v := SourceOf(s, ns), t.schemas[ns];
      var r := Run(PartIn(plan, ns, Tables), u.tables, TableName(), IsDropIndex(), TableEffect());
      && (r.Ok? <==> TablesExecutable(u, v))
      && (r.Ok? ==> forall n :: TableDone(AsPlanned, u, v, n, Get(r.value, n)))
  {
    EffectsTame();
    hide WellFormed, Walks, DiffOps, IsPlan, Filter, PartIn, RunOne, Run, TableEffect, TableDone, TableExecutable;
    var u, v, ops := SourceOf(s, ns), t.schemas[ns], PartIn(plan, ns, Tables);
    forall n ensures var r := RunOne(Filter(ops, About(TableName(), IsDropIndex(), n)), Get(u.tables, n),
      TableEffect());
      && (r.Ok? <==> (n in u.tables && n in v.tables ==> TableExecutable(u.tables[n], v.tables[n])))
      && (r.Ok? ==> TableDone(AsPlanned, u, v, n, r.value))
    {
      TablePlanned(s, t, walk, plan, ns, n);
    }
    if TablesExecutable(u, v) {
      RunSucceeds(ops, u.tables, TableName(), IsDropIndex(), TableEffect());
      var m := Run(ops, u.tables, TableName(), IsDropIndex(), TableEffect()).value;
      forall n ensures TableDone(AsPlanned, u, v, n, Get(m, n)) {
        RunIsLocal(ops, u.tables, TableName(), IsDropIndex(), TableEffect(), n);
      }
    } else {
      var n :| n in u.tables && n in v.tables && !TableExecutable(u.tables[n], v.tables[n]);
      RunFails(ops, u.tables, TableName(), IsDropIndex(), TableEffect(), n);
    }
  }
}
