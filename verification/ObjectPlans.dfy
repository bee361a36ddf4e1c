/** Running a plan on the enum types, views, sequences and extensions of a namespace. */
module ObjectPlans {
  import opened Catalog
  import opened Operations
  import opened Names
  import opened Lists
  import opened Dag
  import opened Planner
  import opened PlanTheorems
  import opened DiffSpec
  import opened Locality
  import opened TableEdits
  import opened Semantics
  import opened ObjectMigration
  import opened ColumnMigration
  import opened TableMigration
  import opened StagedMigration
  import opened DiffShape
  import opened TableSteps
  import opened SchemaMigration
  import opened PlannedDiff
  import opened Convergence

  // ----- selecting in two steps or in one

  function OfObject(ns: string, part: Part, at: Op -> string, n: string): Op -> bool {
    (op: Op) => OfSchemaPart(ns, part)(op) && at(op) == n
  }

  ghost function PartIn(ops: seq<Op>, ns: string, part: Part): seq<Op> {
    Filter(Filter(ops, OfSchema(ns)), InPart(part))
  }

  lemma PartInIs(ops: seq<Op>, ns: string, part: Part)
    ensures PartIn(ops, ns, part) == Filter(ops, OfSchemaPart(ns, part))
  {
    FilterFilter(ops, OfSchema(ns), InPart(part), OfSchemaPart(ns, part));
  }

  lemma Chain(ops: seq<Op>, ns: string, part: Part, at: Op -> string, n: string)
    ensures Filter(PartIn(ops, ns, part), About(at, NoBroadcast(), n)) == Filter(ops, OfObject(ns, part, at, n))
  {
    PartInIs(ops, ns, part);
    hide Filter, PartIn;
    FilterFilter(ops, OfSchemaPart(ns, part), About(at, NoBroadcast(), n), OfObject(ns, part, at, n));
  }

  /** A selection of one operation at most is the same in the plan. */
  lemma StagedSingle(ops: seq<Op>)
    requires |ops| <= 1
    ensures Staged(ops) == ops
    ensures forall stage :: |Filter(ops, InStage(stage))| <= 1
  {
    hide Filter, StageOf;
    FilterSmall(ops, PreDeploy);
    FilterSmall(ops, Deploy);
    FilterSmall(ops, PostDeploy);
    forall stage ensures |Filter(ops, InStage(stage))| <= 1 { FilterSmall(ops, stage); }
  }

  lemma SmallKeeps(ops: seq<Op>, p: Op -> bool)
    requires forall stage :: |Filter(Filter(ops, p), InStage(stage))| <= 1
    ensures forall stage :: KeepsOrder(ops, stage, p)
  {
    hide Filter, WaitAlike, OpsOfStage;
    forall stage ensures KeepsOrder(ops, stage, p) {
      StageFilter(ops, stage);
      FilterSwap(ops, InStage(stage), p);
    }
  }

  lemma SingleInPlan(ops: seq<Op>, plan: seq<Op>, p: Op -> bool)
    requires IsPlan(ops, plan) && |Filter(ops, p)| <= 1
    ensures Filter(plan, p) == Filter(ops, p)
  {
    hide Filter, IsPlan, Staged, KeepsOrder;
    StagedSingle(Filter(ops, p));
    SmallKeeps(ops, p);
    PlanKeeps(ops, plan, p);
  }

  /** If the operations about one key fail, so does the run. */
  lemma RunFails<V(!new)>(ops: seq<Op>, m: map<string, V>, at: Op -> string, all: Op -> bool, effect: Effect<V>,
    n: string)
    requires Tame(all, effect) && RunOne(Filter(ops, About(at, all, n)), Get(m, n), effect).Fail?
    ensures Run(ops, m, at, all, effect).Fail?
  {
    hide RunOne, Filter, About, Run, Tame, Get;
    if Run(ops, m, at, all, effect).Ok? { RunIsLocal(ops, m, at, all, effect, n); }
  }

  // ----- enum types

  lemma TypeOpsAbout(s: SchemaDef, t: SchemaDef, walk: Walk, ns: string, n: string)
    requires WellFormed(s) && WellFormed(t) && ns in t.schemas
    ensures var u, v := SourceOf(s, ns), t.schemas[ns];
      Filter(DiffOps(s, t, walk), OfObject(ns, Types, TypeName(), n)) ==
      NewTypeStep(u, v)(n) + CommonTypeStep(u, v)(n) + OldTypeStep(u, v)(n)
  {
    hide WellFormed, DiffOps, Filter, OfObject, TypesOps, NewTypeStep, CommonTypeStep, OldTypeStep;
    Chain(DiffOps(s, t, walk), ns, Types, TypeName(), n);
    DiffOfTypes(s, t, walk, ns);
    TypesAbout(SourceOf(s, ns), t.schemas[ns], n);
  }

  lemma TypeStepsShape(u: NamespaceDef, v: NamespaceDef, n: string)
    ensures var ops := NewTypeStep(u, v)(n) + CommonTypeStep(u, v)(n) + OldTypeStep(u, v)(n);
      if n in u.types && n in v.types then ops == EnumOps(v.name, n, u.types[n], v.types[n]) else |ops| <= 1
  {
    hide EnumOps;
  }

  lemma TypeInPlan(s: SchemaDef, t: SchemaDef, walk: Walk, plan: seq<Op>, ns: string, n: string)
    requires WellFormed(s) && WellFormed(t) && ns in t.schemas && IsPlan(DiffOps(s, t, walk), plan)
    ensures Filter(plan, OfObject(ns, Types, TypeName(), n)) ==
      Filter(DiffOps(s, t, walk), OfObject(ns, Types, TypeName(), n))
  {
    var u, v, ops := SourceOf(s, ns), t.schemas[ns], DiffOps(s, t, walk);
    var p := OfObject(ns, Types, TypeName(), n);
    TypeOpsAbout(s, t, walk, ns, n);
    TypeStepsShape(u, v, n);
    SourceSameNamed(s, t, ns);
    hide WellFormed, DiffOps, Filter, OfObject, IsPlan, Staged, NewTypeStep, CommonTypeStep, OldTypeStep, EnumOps,
      SameNamed, KeepsOrder;
    if n in u.types && n in v.types {
      StagedLabels(v.name, n, u.types[n], v.types[n]);
      OnlyLabels(ops, ns, n, u.types[n], v.types[n]);
      PlanKeeps(ops, plan, p);
    } else {
      SingleInPlan(ops, plan, p);
    }
  }

  /** If a type's operations are label operations, every stage keeps their order. */
  lemma OnlyLabels(ops: seq<Op>, ns: string, n: string, a: EnumType, b: EnumType)
    requires Filter(ops, OfObject(ns, Types, TypeName(), n)) == EnumOps(ns, n, a, b)
    ensures forall stage :: KeepsOrder(ops, stage, OfObject(ns, Types, TypeName(), n))
  {
    var p := OfObject(ns, Types, TypeName(), n);
    forall op | op in ops && p(op) ensures LabelsOf(ns, n)(op) {
      assert op in Filter(ops, p);
      LabelName(ns, n, b.labels[|a.labels|..], op);
    }
    hide EnumOps, OfObject, LabelsOf;
    forall stage ensures KeepsOrder(ops, stage, p) {
      var part := OpsOfStage(ops, stage);
      LabelsWaitAlike(part, ns, n);
      assert WaitAlike(part, p);
    }
  }

  lemma PlannedTypesRun(s: SchemaDef, t: SchemaDef, walk: Walk, plan: seq<Op>, ns: string)
    requires WellFormed(s) && WellFormed(t) && ns in t.schemas && IsPlan(DiffOps(s, t, walk), plan)
    ensures var u, v := SourceOf(s, ns), t.schemas[ns];
      Run(PartIn(plan, ns, Types), u.types, TypeName(), NoBroadcast(), TypeEffect()) == Ok(AfterTypes(u, v))
  {
    var u, v := SourceOf(s, ns), t.schemas[ns];
    EffectsTame();
    hide WellFormed, DiffOps, IsPlan, Filter, PartIn, OfObject, Run, RunOne, About, AfterTypes, NewTypeStep,
      CommonTypeStep,
      OldTypeStep, TypeEffect;
    forall n ensures RunOne(Filter(PartIn(plan, ns, Types), About(TypeName(), NoBroadcast(), n)), Get(u.types, n),
      TypeEffect())
      == Ok(Get(AfterTypes(u, v), n))
    {
      Chain(plan, ns, Types, TypeName(), n);
      TypeInPlan(s, t, walk, plan, ns, n);
      TypeOpsAbout(s, t, walk, ns, n);
      TypeRuns(u, v, n);
    }
    RunByName(PartIn(plan, ns, Types), u.types, TypeName(), NoBroadcast(), TypeEffect(), AfterTypes(u, v));
  }

  // ----- sequences and extensions

  lemma SequenceOpsAbout(s: SchemaDef, t: SchemaDef, walk: Walk, ns: string, n: string)
    requires WellFormed(s) && WellFormed(t) && ns in t.schemas
    ensures var u, v := SourceOf(s, ns), t.schemas[ns];
      Filter(DiffOps(s, t, walk), OfObject(ns, Sequences, SequenceName(), n)) ==
      TargetSequenceStep(u, v)(n) + OldSequenceStep(u, v)(n)
  {
    SourceSameNamed(s, t, ns);
    NamesOfParts(t.schemas[ns]);
    hide WellFormed, DiffOps, Filter, OfObject, NamespaceOps, SequencesOps, TargetSequenceStep, OldSequenceStep,
      SameNamed,
      SequencesNamed;
    Chain(DiffOps(s, t, walk), ns, Sequences, SequenceName(), n);
    DiffOfNamespace(s, t, walk, ns, Sequences);
    NamespaceParts(SourceOf(s, ns), t.schemas[ns], walk, Sequences);
    SequencesAbout(SourceOf(s, ns), t.schemas[ns], n);
  }

  lemma SequenceStepsSmall(u: NamespaceDef, v: NamespaceDef, n: string)
    ensures |TargetSequenceStep(u, v)(n) + OldSequenceStep(u, v)(n)| <= 1
  {
    hide SameSequence;
  }

  lemma PlannedSequencesRun(s: SchemaDef, t: SchemaDef, walk: Walk, plan: seq<Op>, ns: string)
    requires WellFormed(s) && WellFormed(t) && ns in t.schemas && IsPlan(DiffOps(s, t, walk), plan)
    ensures var u, v := SourceOf(s, ns), t.schemas[ns];
      Run(PartIn(plan, ns, Sequences), u.sequences, SequenceName(), NoBroadcast(), SequenceEffect()) ==
        Ok(AfterSequences(u, v))
  {
    var u, v := SourceOf(s, ns), t.schemas[ns];
    EffectsTame();
    hide WellFormed, DiffOps, IsPlan, Filter, PartIn, OfObject, Run, RunOne, About, AfterSequences, TargetSequenceStep,
      OldSequenceStep, SequenceEffect;
    forall n ensures
      RunOne(Filter(PartIn(plan, ns, Sequences), About(SequenceName(), NoBroadcast(), n)), Get(u.sequences, n),
        SequenceEffect())
      == Ok(Get(AfterSequences(u, v), n))
    {
      Chain(plan, ns, Sequences, SequenceName(), n);
      SequenceOpsAbout(s, t, walk, ns, n);
      SequenceStepsSmall(u, v, n);
      SingleInPlan(DiffOps(s, t, walk), plan, OfObject(ns, Sequences, SequenceName(), n));
      SequenceRuns(u, v, n);
    }
    RunByName(PartIn(plan, ns, Sequences), u.sequences, SequenceName(), NoBroadcast(), SequenceEffect(),
      AfterSequences(u, v));
  }

  lemma ExtensionOpsAbout(s: SchemaDef, t: SchemaDef, walk: Walk, ns: string, n: string)
    requires WellFormed(s) && WellFormed(t) && ns in t.schemas
    ensures var u, v := SourceOf(s, ns), t.schemas[ns];
      Filter(DiffOps(s, t, walk), OfObject(ns, Extensions, ExtensionName(), n)) ==
      TargetExtensionStep(u, v)(n) + OldExtensionStep(u, v)(n)
  {
    SourceSameNamed(s, t, ns);
    NamesOfParts(t.schemas[ns]);
    hide WellFormed, DiffOps, Filter, OfObject, NamespaceOps, ExtensionsOps, TargetExtensionStep, OldExtensionStep,
      SameNamed,
      ExtensionsNamed;
    Chain(DiffOps(s, t, walk), ns, Extensions, ExtensionName(), n);
    DiffOfNamespace(s, t, walk, ns, Extensions);
    NamespaceParts(SourceOf(s, ns), t.schemas[ns], walk, Extensions);
    ExtensionsAbout(SourceOf(s, ns), t.schemas[ns], n);
  }

  lemma ExtensionStepsSmall(u: NamespaceDef, v: NamespaceDef, n: string)
    ensures |TargetExtensionStep(u, v)(n) + OldExtensionStep(u, v)(n)| <= 1
  {
    hide VersionChanged;
  }

  lemma PlannedExtensionsRun(s: SchemaDef, t: SchemaDef, walk: Walk, plan: seq<Op>, ns: string)
    requires WellFormed(s) && WellFormed(t) && ns in t.schemas && IsPlan(DiffOps(s, t, walk), plan)
    ensures var u, v := SourceOf(s, ns), t.schemas[ns];
      Run(PartIn(plan, ns, Extensions), u.extensions, ExtensionName(), NoBroadcast(), ExtensionEffect()) ==
        Ok(AfterExtensions(u, v))
  {
    var u, v := SourceOf(s, ns), t.schemas[ns];
    EffectsTame();
    hide WellFormed, DiffOps, IsPlan, Filter, PartIn, OfObject, Run, RunOne, About, AfterExtensions,
      TargetExtensionStep,
      OldExtensionStep, ExtensionEffect;
    forall n ensures
      RunOne(Filter(PartIn(plan, ns, Extensions), About(ExtensionName(), NoBroadcast(), n)), Get(u.extensions, n),
        ExtensionEffect())
      == Ok(Get(AfterExtensions(u, v), n))
    {
      Chain(plan, ns, Extensions, ExtensionName(), n);
      ExtensionOpsAbout(s, t, walk, ns, n);
      ExtensionStepsSmall(u, v, n);
      SingleInPlan(DiffOps(s, t, walk), plan, OfObject(ns, Extensions, ExtensionName(), n));
      ExtensionRuns(u, v, n);
    }
    RunByName(PartIn(plan, ns, Extensions), u.extensions, ExtensionName(), NoBroadcast(), ExtensionEffect(),
      AfterExtensions(u, v));
  }

  // ----- views

  /** The view has to be dropped and created anew. */
  predicate ViewReplaced(a: View, b: View) {
    a.materialized != b.materialized || (b.materialized && a.definition != b.definition)
  }

  ghost predicate ViewsExecutable(u: NamespaceDef, v: NamespaceDef) {
    forall n :: n in u.views && n in v.views ==> !ViewReplaced(u.views[n], v.views[n])
  }

  lemma ViewOpsAbout(s: SchemaDef, t: SchemaDef, walk: Walk, ns: string, n: string)
    requires WellFormed(s) && WellFormed(t) && ns in t.schemas
    ensures var u, v := SourceOf(s, ns), t.schemas[ns];
      Filter(DiffOps(s, t, walk), OfObject(ns, Views, ViewName(), n)) == TargetViewStep(u, v)(n) + OldViewStep(u, v)(n)
  {
    SourceSameNamed(s, t, ns);
    NamesOfParts(t.schemas[ns]);
    hide WellFormed, DiffOps, Filter, OfObject, NamespaceOps, ViewsOps, TargetViewStep, OldViewStep, SameNamed,
      ViewsNamed;
    Chain(DiffOps(s, t, walk), ns, Views, ViewName(), n);
    DiffOfNamespace(s, t, walk, ns, Views);
    NamespaceParts(SourceOf(s, ns), t.schemas[ns], walk, Views);
    ViewsAbout(SourceOf(s, ns), t.schemas[ns], n);
  }

  function DropOld(u: NamespaceDef, n: string): Op
    requires n in u.views
  {
    if u.views[n].materialized then DropMaterializedViewOp(u.name, n) else DropViewOp(u.name, n, true)
  }

  lemma ViewStepsShape(u: NamespaceDef, v: NamespaceDef, n: string)
    ensures var ops := TargetViewStep(u, v)(n) + OldViewStep(u, v)(n);
      if n in u.views && n in v.views && ViewReplaced(u.views[n], v.views[n]) then
        ops == [DropOld(u, n), DiffSpec.CreateView(v.name, v.views[n])]
      else |ops| <= 1
  {
    if n in u.views && n in v.views {
      assert TargetViewStep(u, v)(n) + OldViewStep(u, v)(n) == TargetViewStep(u, v)(n);
    }
  }

  lemma ViewStages(u: NamespaceDef, v: NamespaceDef, n: string)
    requires n in u.views && n in v.views
    ensures StageOf(DropOld(u, n)) == PostDeploy && StageOf(DiffSpec.CreateView(v.name, v.views[n])) == PreDeploy
  {
  }

  /** In a plan a replaced view is created before it is dropped. */
  lemma StagedReplacement(drop: Op, create: Op)
    requires StageOf(drop) == PostDeploy && StageOf(create) == PreDeploy
    ensures Staged([drop, create]) == [create, drop]
    ensures forall stage :: |Filter([drop, create], InStage(stage))| <= 1
  {
    hide Filter, StageOf;
    FilterSmall([drop, create], PreDeploy);
    FilterSmall([drop, create], Deploy);
    FilterSmall([drop, create], PostDeploy);
    forall stage ensures |Filter([drop, create], InStage(stage))| <= 1 { FilterSmall([drop, create], stage); }
  }

  lemma CreateMeetsOld(u: NamespaceDef, v: NamespaceDef, n: string)
    requires n in u.views && n in v.views
    ensures ViewEffect()(DiffSpec.CreateView(v.name, v.views[n]), Some(u.views[n])) == Fail
  {
  }

  lemma ViewInPlan(s: SchemaDef, t: SchemaDef, walk: Walk, plan: seq<Op>, ns: string, n: string)
    requires WellFormed(s) && WellFormed(t) && ns in t.schemas && IsPlan(DiffOps(s, t, walk), plan)
    ensures var u, v := SourceOf(s, ns), t.schemas[ns];
      RunOne(Filter(plan, OfObject(ns, Views, ViewName(), n)), Get(u.views, n), ViewEffect()) ==
        if n in u.views && n in v.views && ViewReplaced(u.views[n], v.views[n]) then Fail
        else Ok(Get(AfterViews(u, v), n))
  {
    var u, v, ops := SourceOf(s, ns), t.schemas[ns], DiffOps(s, t, walk);
    var p := OfObject(ns, Views, ViewName(), n);
    SourceSameNamed(s, t, ns);
    NamesOfParts(u);
    NamesOfParts(v);
    hide WellFormed, DiffOps, Filter, OfObject, IsPlan, Staged, TargetViewStep, OldViewStep, SameNamed, KeepsOrder,
      RunOne,
      AfterViews, DropOld, ViewsNamed, ViewEffect, StageOf, ViewReplaced;
    ViewOpsAbout(s, t, walk, ns, n);
    ViewStepsShape(u, v, n);
    if n in u.views && n in v.views && ViewReplaced(u.views[n], v.views[n]) {
      var drop, create := DropOld(u, n), DiffSpec.CreateView(v.name, v.views[n]);
      ViewStages(u, v, n);
      StagedReplacement(drop, create);
      SmallKeeps(ops, p);
      PlanKeeps(ops, plan, p);
      CreateMeetsOld(u, v, n);
      RunTwo(create, drop, Some(u.views[n]), ViewEffect());
    } else {
      SingleInPlan(ops, plan, p);
      ViewRuns(u, v, n);
    }
  }

  lemma PlannedViewsRun(s: SchemaDef, t: SchemaDef, walk: Walk, plan: seq<Op>, ns: string)
    requires WellFormed(s) && WellFormed(t) && ns in t.schemas && IsPlan(DiffOps(s, t, walk), plan)
    ensures var u, v := SourceOf(s, ns), t.schemas[ns];
      var r := Run(PartIn(plan, ns, Views), u.views, ViewName(), NoBroadcast(), ViewEffect());
      if ViewsExecutable(u, v) then r == Ok(AfterViews(u, v)) else r.Fail?
  {
    var u, v := SourceOf(s, ns), t.schemas[ns];
    EffectsTame();
    hide WellFormed, DiffOps, IsPlan, Filter, PartIn, OfObject, Run, RunOne, AfterViews, ViewEffect, ViewReplaced;
    forall n ensures
      RunOne(Filter(PartIn(plan, ns, Views), About(ViewName(), NoBroadcast(), n)), Get(u.views, n), ViewEffect()) ==
        if n in u.views && n in v.views && ViewReplaced(u.views[n], v.views[n]) then Fail
        else Ok(Get(AfterViews(u, v), n))
    {
      Chain(plan, ns, Views, ViewName(), n);
      ViewInPlan(s, t, walk, plan, ns, n);
    }
    if ViewsExecutable(u, v) {
      RunByName(PartIn(plan, ns, Views), u.views, ViewName(), NoBroadcast(), ViewEffect(), AfterViews(u, v));
    } else {
      var n :| n in u.views && n in v.views && ViewReplaced(u.views[n], v.views[n]);
      RunFails(PartIn(plan, ns, Views), u.views, ViewName(), NoBroadcast(), ViewEffect(), n);
    }
  }
}
