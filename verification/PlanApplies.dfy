/** Applying a whole plan to the source schema: exactly when every operation applies, and exactly
    when nothing is then left to do. */
module PlanApplies {
  import opened Catalog
  import opened Operations
  import opened Names
  import opened Lists
  import opened Dag
  import opened Planner
  import opened PlanTheorems
  import opened DiffSpec
  import opened Locality
  import opened Semantics
  import opened ObjectMigration
  import opened ColumnMigration
  import opened DiffShape
  import opened TableSteps
  import opened SchemaMigration
  import opened PlannedDiff
  import opened Convergence
  import opened ObjectPlans
  import opened TablePlans

  // ----- when a plan applies

  /** Nothing in the namespace has to make room for its replacement. */
  ghost predicate NamespaceExecutable(u: NamespaceDef, v: NamespaceDef) {
    TablesExecutable(u, v) && ViewsExecutable(u, v)
  }

  ghost predicate Executable(s: SchemaDef, t: SchemaDef) {
    forall n :: n in s.schemas && n in t.schemas ==> NamespaceExecutable(s.schemas[n], t.schemas[n])
  }

  // ----- inside a namespace

  /** `ops` holds what the plan holds for the parts of the namespace. */
  ghost predicate HoldsParts(ops: seq<Op>, plan: seq<Op>, ns: string) {
    Inside(ops) && forall part :: part != Whole ==> Filter(ops, InPart(part)) == PartIn(plan, ns, part)
  }

  lemma PartRuns(ops: seq<Op>, plan: seq<Op>, ns: string, u: NamespaceDef)
    requires HoldsParts(ops, plan, ns)
    ensures RunTables(ops, u.tables) ==
      Run(PartIn(plan, ns, Tables), u.tables, TableName(), IsDropIndex(), TableEffect())
    ensures RunTypes(ops, u.types) == Run(PartIn(plan, ns, Types), u.types, TypeName(), NoBroadcast(), TypeEffect())
    ensures RunViews(ops, u.views) == Run(PartIn(plan, ns, Views), u.views, ViewName(), NoBroadcast(), ViewEffect())
    ensures RunSequences(ops, u.sequences) ==
      Run(PartIn(plan, ns, Sequences), u.sequences, SequenceName(), NoBroadcast(), SequenceEffect())
    ensures RunExtensions(ops, u.extensions) ==
      Run(PartIn(plan, ns, Extensions), u.extensions, ExtensionName(), NoBroadcast(), ExtensionEffect())
  {
    hide Filter, PartIn, Run, Inside;
  }

  lemma ObjectsPlanned(s: SchemaDef, t: SchemaDef, walk: Walk, plan: seq<Op>, ns: string, ops: seq<Op>)
    requires WellFormed(s) && WellFormed(t) && ns in t.schemas && IsPlan(DiffOps(s, t, walk), plan)
    requires HoldsParts(ops, plan, ns)
    ensures var u, v := SourceOf(s, ns), t.schemas[ns];
      && RunTypes(ops, u.types) == Ok(AfterTypes(u, v))
      && RunViews(ops, u.views) == (if ViewsExecutable(u, v) then Ok(AfterViews(u, v)) else Fail)
      && RunSequences(ops, u.sequences) == Ok(AfterSequences(u, v))
      && RunExtensions(ops, u.extensions) == Ok(AfterExtensions(u, v))
  {
    hide *;
    PartRuns(ops, plan, ns, SourceOf(s, ns));
    PlannedTypesRun(s, t, walk, plan, ns);
    PlannedViewsRun(s, t, walk, plan, ns);
    PlannedSequencesRun(s, t, walk, plan, ns);
    PlannedExtensionsRun(s, t, walk, plan, ns);
  }

  lemma TablesPlanned(s: SchemaDef, t: SchemaDef, walk: Walk, plan: seq<Op>, ns: string, ops: seq<Op>)
    requires WellFormed(s) && WellFormed(t) && Walks(walk, s) && ns in t.schemas && IsPlan(DiffOps(s, t, walk), plan)
    requires HoldsParts(ops, plan, ns)
    ensures var u, v := SourceOf(s, ns), t.schemas[ns];
      var r := RunTables(ops, u.tables);
      && (r.Ok? <==> TablesExecutable(u, v))
      && (r.Ok? ==> forall n :: TableDone(AsPlanned, u, v, n, Get(r.value, n)))
  {
    hide *;
    PartRuns(ops, plan, ns, SourceOf(s, ns));
    PlannedTablesRun(s, t, walk, plan, ns);
  }

  lemma BesideIsMigrated(ops: seq<Op>, u: NamespaceDef, v: NamespaceDef)
    requires RunTables(ops, u.tables).Ok? <==> TablesExecutable(u, v)
    requires RunTables(ops, u.tables).Ok? ==>
      forall n :: TableDone(AsPlanned, u, v, n, Get(RunTables(ops, u.tables).value, n))
    requires RunTypes(ops, u.types) == Ok(AfterTypes(u, v))
    requires RunViews(ops, u.views) == if ViewsExecutable(u, v) then Ok(AfterViews(u, v)) else Fail
    requires RunSequences(ops, u.sequences) == Ok(AfterSequences(u, v))
    requires RunExtensions(ops, u.extensions) == Ok(AfterExtensions(u, v))
    ensures SideBySide(ops, u).Ok? <==> NamespaceExecutable(u, v)
    ensures SideBySide(ops, u).Ok? ==>
      SideBySide(ops, u).value.Some? && NamespaceMigrated(AsPlanned, u, v, SideBySide(ops, u).value.value)
  {
    hide TablesExecutable, ViewsExecutable, TableDone, AfterTypes, AfterViews, AfterSequences, AfterExtensions,
      RunTables,
      RunTypes, RunViews, RunSequences, RunExtensions;
  }

  lemma NamespacePlanned(s: SchemaDef, t: SchemaDef, walk: Walk, plan: seq<Op>, ns: string, ops: seq<Op>)
    requires WellFormed(s) && WellFormed(t) && Walks(walk, s) && ns in t.schemas && IsPlan(DiffOps(s, t, walk), plan)
    requires HoldsParts(ops, plan, ns)
    ensures var u, v := SourceOf(s, ns), t.schemas[ns];
      var r := RunOne(ops, Some(u), NamespaceEffect());
      && (r.Ok? <==> NamespaceExecutable(u, v))
      && (r.Ok? ==> r.value.Some? && NamespaceMigrated(AsPlanned, u, v, r.value.value))
  {
    hide *;
    HoldsInside(ops, plan, ns);
    NamespaceSplits(ops, SourceOf(s, ns));
    TablesPlanned(s, t, walk, plan, ns, ops);
    ObjectsPlanned(s, t, walk, plan, ns, ops);
    BesideIsMigrated(ops, SourceOf(s, ns), t.schemas[ns]);
  }

  lemma HoldsInside(ops: seq<Op>, plan: seq<Op>, ns: string)
    requires HoldsParts(ops, plan, ns)
    ensures Inside(ops)
  {
  }

  // ----- CREATE SCHEMA

  lemma {:induction false} FirstIndex(ops: seq<Op>, p: Op -> bool) returns (b: nat)
    requires Filter(ops, p) != []
    ensures b < |ops| && ops[b] == Filter(ops, p)[0] && p(ops[b])
    ensures forall i :: 0 <= i < b ==> !p(ops[i])
  {
    var init := ops[..|ops| - 1];
    if Filter(init, p) != [] {
      b := FirstIndex(init, p);
    } else {
      b := |init|;
      forall i | 0 <= i < b ensures !p(ops[i]) {
        assert init[i] in init;
      }
    }
  }

  lemma OfDiff(s: SchemaDef, t: SchemaDef, walk: Walk, plan: seq<Op>, ns: string, op: Op)
    requires WellFormed(s) && WellFormed(t) && ns in t.schemas && IsPlan(DiffOps(s, t, walk), plan)
    requires op in Filter(plan, OfSchema(ns))
    ensures op in CreateOps(s, ns) || PartOf(op) != Whole
  {
    hide WellFormed, DiffOps, IsPlan, Filter, OfSchema, NamespaceOps, CreateOps, TargetNamespaceStep, OldNamespaceStep,
      PartOf,
      SameNamed, AllOf;
    SameMembers(DiffOps(s, t, walk), plan);
    assert op in Filter(DiffOps(s, t, walk), OfSchema(ns));
    SchemaOps(s, t, walk, ns);
    StepsOfTarget(s, t, walk, ns);
    if op !in CreateOps(s, ns) {
      SourceSameNamed(s, t, ns);
      NamespaceHome(SourceOf(s, ns), t.schemas[ns], walk);
      AllOfMember(NamespaceOps(SourceOf(s, ns), t.schemas[ns], walk), OfNamespace(t.schemas[ns].name), op);
    }
  }

  lemma AllOfMember(ops: seq<Op>, p: Op -> bool, op: Op)
    requires AllOf(ops, p) && op in ops
    ensures p(op)
  {
  }

  /** An old namespace's operations lie inside it. */
  lemma OldNamespaceParts(s: SchemaDef, t: SchemaDef, walk: Walk, plan: seq<Op>, ns: string)
    requires WellFormed(s) && WellFormed(t) && ns in t.schemas && ns in s.schemas && IsPlan(DiffOps(s, t, walk), plan)
    ensures HoldsParts(Filter(plan, OfSchema(ns)), plan, ns)
  {
    hide WellFormed, DiffOps, IsPlan, Filter, OfSchema, PartOf;
    forall op | op in Filter(plan, OfSchema(ns)) ensures PartOf(op) != Whole {
      OfDiff(s, t, walk, plan, ns, op);
    }
    forall part ensures Filter(Filter(plan, OfSchema(ns)), InPart(part)) == PartIn(plan, ns, part) {
      PartInFilters(plan, ns, part);
    }
  }

  lemma CreateIsSelected(ns: string)
    ensures OfSchema(ns)(CreateSchemaOp(ns)) && PartOf(CreateSchemaOp(ns)) == Whole && CreateSchemaOp(ns).schema == ns
  {
  }

  lemma SelectedSchema(ns: string, op: Op)
    requires OfSchema(ns)(op)
    ensures op.schema == ns
  {
  }

  /** A plan starts a new namespace with its CREATE SCHEMA. */
  lemma StartsWithCreate(s: SchemaDef, t: SchemaDef, walk: Walk, plan: seq<Op>, ns: string)
    requires WellFormed(s) && WellFormed(t) && ns in t.schemas && ns !in s.schemas && IsPlan(DiffOps(s, t, walk), plan)
    ensures var ops := Filter(plan, OfSchema(ns)); ops != [] && ops[0] == CreateSchemaOp(ns)
  {
    hide WellFormed, DiffOps, IsPlan, Filter, OfSchema, NamespaceOps, TargetNamespaceStep, OldNamespaceStep;
    var ops := Filter(plan, OfSchema(ns));
    CreateIsSelected(ns);
    SameMembers(DiffOps(s, t, walk), plan);
    SchemaOps(s, t, walk, ns);
    StepsOfTarget(s, t, walk, ns);
    assert CreateSchemaOp(ns) in CreateOps(s, ns) + NamespaceOps(SourceOf(s, ns), t.schemas[ns], walk);
    assert CreateSchemaOp(ns) in Filter(DiffOps(s, t, walk), OfSchema(ns));
    assert CreateSchemaOp(ns) in ops;
    var b := FirstIndex(plan, OfSchema(ns));
    if ops[0] != CreateSchemaOp(ns) {
      SelectedSchema(ns, plan[b]);
      var a := CreateSchemaFirst(s, t, walk, plan, ns, b);
    }
  }

  lemma CreatedOnce(s: SchemaDef, t: SchemaDef, walk: Walk, plan: seq<Op>, ns: string)
    requires WellFormed(s) && WellFormed(t) && ns in t.schemas && ns !in s.schemas && IsPlan(DiffOps(s, t, walk), plan)
    ensures |Filter(Filter(plan, OfSchema(ns)), InPart(Whole))| <= 1
  {
    hide WellFormed, DiffOps, IsPlan, Filter, OfSchema, NamespaceOps, TargetNamespaceStep, OldNamespaceStep, InPart,
      SameNamed;
    var ops := DiffOps(s, t, walk);
    SchemaOps(s, t, walk, ns);
    StepsOfTarget(s, t, walk, ns);
    SourceSameNamed(s, t, ns);
    var inner := NamespaceOps(SourceOf(s, ns), t.schemas[ns], walk);
    NamespaceParts(SourceOf(s, ns), t.schemas[ns], walk, Whole);
    FilterConcat(CreateOps(s, ns), inner, InPart(Whole));
    PartInIs(ops, ns, Whole);
    PartInIs(plan, ns, Whole);
    PartInFilters(ops, ns, Whole);
    PartInFilters(plan, ns, Whole);
    assert |Filter(ops, OfSchemaPart(ns, Whole))| <= 1;
    SingleInPlan(ops, plan, OfSchemaPart(ns, Whole));
  }

  lemma RestIsInside(ops: seq<Op>)
    requires ops != [] && PartOf(ops[0]) == Whole && |Filter(ops, InPart(Whole))| <= 1
    ensures Inside(ops[1..])
    ensures forall part :: part != Whole ==> Filter(ops[1..], InPart(part)) == Filter(ops, InPart(part))
  {
    hide PartOf, Filter;
    assert ops == [ops[0]] + ops[1..];
    forall part ensures Filter(ops, InPart(part)) ==
      (if part == Whole then [ops[0]] else []) + Filter(ops[1..], InPart(part)) {
      FilterConcat([ops[0]], ops[1..], InPart(part));
      FilterSingle([ops[0]], InPart(part));
    }
    assert |Filter(ops[1..], InPart(Whole))| == 0;
    forall op | op in ops[1..] ensures PartOf(op) != Whole {
      assert op !in Filter(ops[1..], InPart(Whole));
    }
  }

  /** Behind its CREATE SCHEMA, a new namespace's operations lie inside it. */
  lemma NewNamespaceParts(s: SchemaDef, t: SchemaDef, walk: Walk, plan: seq<Op>, ns: string)
    requires WellFormed(s) && WellFormed(t) && ns in t.schemas && ns !in s.schemas && IsPlan(DiffOps(s, t, walk), plan)
    ensures var ops := Filter(plan, OfSchema(ns));
      ops != [] && ops[0] == CreateSchemaOp(ns) && HoldsParts(ops[1..], plan, ns)
  {
    hide WellFormed, DiffOps, IsPlan, Filter, OfSchema, PartOf, Inside;
    StartsWithCreate(s, t, walk, plan, ns);
    CreatedOnce(s, t, walk, plan, ns);
    CreateIsSelected(ns);
    RestIsInside(Filter(plan, OfSchema(ns)));
    forall part ensures Filter(Filter(plan, OfSchema(ns)), InPart(part)) == PartIn(plan, ns, part) {
      PartInFilters(plan, ns, part);
    }
  }

  // ----- one namespace

  /** `n` is not a namespace of both schemas, or an executable one. */
  ghost predicate ExecutableAt(s: SchemaDef, t: SchemaDef, n: string) {
    n in s.schemas && n in t.schemas ==> NamespaceExecutable(s.schemas[n], t.schemas[n])
  }

  lemma NewIsExecutable(ns: string, v: NamespaceDef)
    ensures NamespaceExecutable(EmptyNamespace(ns), v)
  {
  }

  lemma CreateThen(ops: seq<Op>, ns: string)
    requires ops != [] && ops[0] == CreateSchemaOp(ns)
    ensures RunOne(ops, None, NamespaceEffect()) == RunOne(ops[1..], Some(EmptyNamespace(ns)), NamespaceEffect())
  {
    hide RunOne;
    var create := CreateSchemaOp(ns);
    assert ops == [create] + ops[1..];
    RunOneConcat([create], ops[1..], None, NamespaceEffect());
    RunTwo(create, create, None, NamespaceEffect());
  }

  lemma GoneInPlan(s: SchemaDef, t: SchemaDef, walk: Walk, plan: seq<Op>, ns: string)
    requires WellFormed(s) && WellFormed(t) && ns !in t.schemas && IsPlan(DiffOps(s, t, walk), plan)
    ensures Filter(plan, OfSchema(ns)) == TargetNamespaceStep(s, t, walk)(ns) + OldNamespaceStep(s, t)(ns)
  {
    assert |TargetNamespaceStep(s, t, walk)(ns) + OldNamespaceStep(s, t)(ns)| <= 1 by { hide NamespaceOps; }
    hide WellFormed, DiffOps, IsPlan, Filter, OfSchema, TargetNamespaceStep, OldNamespaceStep;
    SchemaOps(s, t, walk, ns);
    SingleInPlan(DiffOps(s, t, walk), plan, OfSchema(ns));
  }

  lemma SchemaNamespacePlanned(s: SchemaDef, t: SchemaDef, walk: Walk, plan: seq<Op>, ns: string)
    requires WellFormed(s) && WellFormed(t) && Walks(walk, s) && IsPlan(DiffOps(s, t, walk), plan)
    ensures var r := RunOne(Filter(plan, OfSchema(ns)), Get(s.schemas, ns), NamespaceEffect());
      && (r.Ok? <==> ExecutableAt(s, t, ns))
      && (r.Ok? ==> NamespaceDone(AsPlanned, s, t, ns, r.value))
  {
    hide WellFormed, Walks, DiffOps, IsPlan, Filter, OfSchema, RunOne, NamespaceEffect, NamespaceMigrated, HoldsParts,
      NamespaceExecutable, TargetNamespaceStep, OldNamespaceStep;
    var ops := Filter(plan, OfSchema(ns));
    if ns !in t.schemas {
      GoneInPlan(s, t, walk, plan, ns);
      SchemaNamespaceDone(s, t, walk, ns);
    } else if ns in s.schemas {
      OldNamespaceParts(s, t, walk, plan, ns);
      NamespacePlanned(s, t, walk, plan, ns, ops);
    } else {
      NewNamespaceParts(s, t, walk, plan, ns);
      NamespacePlanned(s, t, walk, plan, ns, ops[1..]);
      NewIsExecutable(ns, t.schemas[ns]);
      CreateThen(ops, ns);
    }
  }

  // ----- the whole plan

  /** A plan of what the differ emits applies to the source if and only if it replaces no constraint,
      no index (unless it says IF NOT EXISTS) and no view that cannot be replaced in place; and the
      result is then the one described.  Whether it also finds what it names is PlanExecution's. */
  lemma PlanTakesEffect(s: SchemaDef, t: SchemaDef, walk: Walk, plan: seq<Op>)
    requires WellFormed(s) && WellFormed(t) && Walks(walk, s) && IsPlan(DiffOps(s, t, walk), plan)
    ensures Apply(plan, s).Ok? <==> Executable(s, t)
    ensures Apply(plan, s).Ok? ==> Migrated(AsPlanned, s, t, Apply(plan, s).value)
  {
    EffectsTame();
    hide WellFormed, Walks, DiffOps, IsPlan, Filter, RunOne, Run, NamespaceEffect, NamespaceDone, NamespaceExecutable;
    forall n ensures var r := RunOne(Filter(plan, About(SchemaName(), NoBroadcast(), n)), Get(s.schemas, n),
      NamespaceEffect());
      && (r.Ok? <==> ExecutableAt(s, t, n)) && (r.Ok? ==> NamespaceDone(AsPlanned, s, t, n, r.value))
    {
      SchemaNamespacePlanned(s, t, walk, plan, n);
    }
    if Executable(s, t) {
      forall n ensures ExecutableAt(s, t, n) {
      }
      RunSucceeds(plan, s.schemas, SchemaName(), NoBroadcast(), NamespaceEffect());
      var m := Run(plan, s.schemas, SchemaName(), NoBroadcast(), NamespaceEffect()).value;
      forall n ensures NamespaceDone(AsPlanned, s, t, n, Get(m, n)) {
        RunIsLocal(plan, s.schemas, SchemaName(), NoBroadcast(), NamespaceEffect(), n);
      }
    } else {
      var n :| n in s.schemas && n in t.schemas && !NamespaceExecutable(s.schemas[n], t.schemas[n]);
      assert !ExecutableAt(s, t, n);
      RunFails(plan, s.schemas, SchemaName(), NoBroadcast(), NamespaceEffect(), n);
    }
  }

  /** Applying a plan and diffing again finds nothing to do if and only if every table settles
      in planned order. */
  lemma PlanApplyDiff(s: SchemaDef, t: SchemaDef, walk: Walk, plan: seq<Op>, walkAgain: Walk)
    requires WellFormed(s) && WellFormed(t) && Walks(walk, s) && IsPlan(DiffOps(s, t, walk), plan)
    requires Apply(plan, s).Ok? && Walks(walkAgain, Apply(plan, s).value)
    ensures DiffOps(Apply(plan, s).value, t, walkAgain) == [] <==> Settles(AsPlanned, s, t)
  {
    hide WellFormed, Walks, DiffOps, IsPlan, Apply, Migrated, Settles, Executable;
    PlanTakesEffect(s, t, walk, plan);
    OneRound(AsPlanned, s, t, Apply(plan, s).value, walkAgain);
  }

  // ----- planning twice

  lemma TableExecutableAgain(order: Order, u: NamespaceDef, v: NamespaceDef, r: NamespaceDef, n: string)
    requires NamespaceMigrated(order, u, v, r) && n in r.tables && n in v.tables
    ensures TableExecutable(r.tables[n], v.tables[n])
  {
    hide AfterTypes, AfterViews, AfterSequences, AfterExtensions, SameIndex, AfterIndex, ConstraintChanged;
    assert TableDone(order, u, v, n, Get(r.tables, n));
    if n in u.tables {
      AfterIndexesAgree(order, u, v, n, r.tables[n]);
      forall i ensures !ConstraintReplaced(r.tables[n], v.tables[n], i) {
        if i in v.tables[n].constraints { SettledConstraint(u.tables[n], v.tables[n], i); }
      }
    } else {
      CreatedUnchanged(v.name, n, v.tables[n]);
    }
  }

  lemma CreatedUnchanged(schema: string, name: string, b: TableDef)
    ensures ConstraintsExecutable(Created(schema, name, b), b) && IndexesExecutable(Created(schema, name, b), b)
  {
  }

  lemma ViewsExecutableAgain(order: Order, u: NamespaceDef, v: NamespaceDef, r: NamespaceDef)
    requires NamespaceMigrated(order, u, v, r)
    ensures ViewsExecutable(r, v)
  {
    hide AfterTypes, AfterSequences, AfterExtensions, TableDone;
  }

  /** Whatever the first round was, a plan of the second replaces nothing. */
  lemma ExecutableAgain(order: Order, s: SchemaDef, t: SchemaDef, r: SchemaDef)
    requires Migrated(order, s, t, r)
    ensures Executable(r, t)
  {
    hide NamespaceMigrated, TableExecutable, ViewsExecutable;
    forall n | n in r.schemas && n in t.schemas ensures NamespaceExecutable(r.schemas[n], t.schemas[n]) {
      assert NamespaceDone(order, s, t, n, Get(r.schemas, n));
      ViewsExecutableAgain(order, SourceOf(s, n), t.schemas[n], r.schemas[n]);
      forall k | k in r.schemas[n].tables && k in t.schemas[n].tables
        ensures TableExecutable(r.schemas[n].tables[k], t.schemas[n].tables[k])
      {
        TableExecutableAgain(order, SourceOf(s, n), t.schemas[n], r.schemas[n], k);
      }
    }
  }
}
