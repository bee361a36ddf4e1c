/** When a plan without destructive operations can be carried out: it is the full plan without them,
    and it can be carried out if and only if that replaces nothing and finds what it names. */
module SafeExecution {
  import opened Catalog
  import opened Operations
  import opened Graphs
  import opened Lists
  import opened Dag
  import opened Planner
  import opened PlanTheorems
  import opened Cycles
  import opened DiffSpec
  import opened RenameTheory
  import opened Locality
  import opened TableEdits
  import opened Semantics
  import opened Execution
  import opened DiffShape
  import opened TableSteps
  import opened SchemaMigration
  import opened PlannedDiff
  import opened ObjectPlans
  import opened TablePlans
  import opened PlanApplies
  import opened Resolution
  import opened PlanOrder
  import opened PlanExecution

  // ----- planning commutes with removing what is destructive

  function Harmless(): Op -> bool { (op: Op) => !op.IsDestructive() }

  function Kept(ops: seq<Op>): seq<Op> { Filter(ops, Harmless()) }

  lemma SafeIsKept(ops: seq<Op>)
    ensures Allowed(ops, false) == Kept(ops)
  {
    FilterSame(ops, (op: Op) => !op.IsDestructive(), Harmless());
  }

  lemma StageOfKept(ops: seq<Op>, stage: Stage)
    ensures OpsOfStage(Kept(ops), stage) == Kept(OpsOfStage(ops, stage))
  {
    hide StageOf, Op.IsDestructive, Filter;
    FilterSwap(ops, Harmless(), (op: Op) => StageOf(op) == stage);
  }

  lemma StageIs(ops: seq<Op>, stage: Stage)
    ensures OfStage(OpsOfStage(ops, stage), stage)
  {
    hide StageOf;
  }

  lemma KeptOfStage(ops: seq<Op>, stage: Stage)
    requires OfStage(ops, stage)
    ensures OfStage(Kept(ops), stage)
  {
    hide StageOf, Op.IsDestructive;
  }

  lemma KeptDeploy(ops: seq<Op>, mid: seq<Op>)
    requires OfStage(ops, Deploy) && IsSorted(ops, mid)
    ensures IsSorted(Kept(ops), Kept(mid))
  {
    hide Kept, OfStage, IsSorted, Acyclic, GraphOf;
    DeployUnchanged(ops, mid);
    KeptOfStage(ops, Deploy);
    DeployAcyclic(Kept(ops));
    var sorted := SortExists(Kept(ops));
    DeployUnchanged(Kept(ops), sorted);
  }

  lemma HarmlessLate(op: Op)
    requires StageOf(op) == PostDeploy && !op.IsDestructive()
    ensures op.DependsOn() == {} && (op.ReplaceViewOp? || op.DropViewOp?)
  {
  }

  /** Nothing waits: sorting changes nothing. */
  lemma FreeIsSorted(ops: seq<Op>)
    requires forall op :: op in ops ==> op.DependsOn() == {}
    ensures IsSorted(ops, ops)
  {
    hide Op.DependsOn, IsSorted, GraphOf, Acyclic, DepsOf;
    GraphSize(ops);
    forall u: nat | u < |ops| ensures GraphOf(ops).deps[u] == {} {
      GraphDeps(ops, u);
      assert ops[u] in ops;
      NoDeps(ops, u);
    }
    NoEdgesAcyclic(GraphOf(ops));
    var sorted := SortExists(ops);
    var order := SortedFacts(ops, sorted);
    NoEdgesUnchanged(GraphOf(ops), order);
    assert sorted == ops by { OrderIsIdentity(ops, order, sorted); }
  }

  lemma NoEdgesAcyclic(g: Graph)
    requires forall u: nat :: u < |g.deps| ==> g.deps[u] == {}
    ensures Acyclic(g)
  {
    forall p ensures !IsCycle(g, p) {
      if IsCycle(g, p) {
        WalkEdge(g, p, 0);
        assert false;
      }
    }
  }

  lemma OrderIsIdentity(ops: seq<Op>, order: seq<nat>, sorted: seq<Op>)
    requires order == UpTo(|ops|) && IsSortOrder(ops, order) && sorted == PickOps(ops, order)
    ensures sorted == ops
  {
  }

  lemma KeptPost(ops: seq<Op>, post: seq<Op>)
    requires OfStage(ops, PostDeploy) && IsSorted(ops, post)
    ensures IsSorted(Kept(ops), Kept(post))
  {
    forall op | op in Kept(ops) ensures op in ops && op.DependsOn() == {} && !op.IsDestructive() {
      HarmlessLate(op);
    }
    assert WaitAlike(ops, Harmless()) by {
      forall op | op in ops && Harmless()(op) ensures op.DependsOn() == {} {
        assert op in Kept(ops);
      }
    }
    hide OfStage, IsSorted, WaitAlike, Op.DependsOn, Op.IsDestructive, Filter;
    SortIsStable(ops, post, Harmless());
    FreeIsSorted(Kept(ops));
  }

  lemma KeptEarly(ops: seq<Op>)
    requires OfStage(ops, PreDeploy)
    ensures Kept(ops) == ops
  {
    forall op | op in ops ensures Harmless()(op) { EarlyIsHarmless(op); }
    FilterAll(ops, Harmless());
  }

  /** The parts of a plan. */
  ghost predicate Parts(ops: seq<Op>, plan: seq<Op>, pre: seq<Op>, mid: seq<Op>, post: seq<Op>) {
    && IsPlanOf(ops, pre, mid, post) && plan == pre + mid + post
    && OfStage(pre, PreDeploy) && OfStage(mid, Deploy) && OfStage(post, PostDeploy)
  }

  lemma SortedOfStage(ops: seq<Op>, stage: Stage, sorted: seq<Op>)
    requires IsSorted(OpsOfStage(ops, stage), sorted)
    ensures OfStage(sorted, stage)
  {
    hide OpsOfStage, IsSorted, StageOf;
    StageOfSorted(ops, stage, sorted);
    forall op | op in sorted ensures StageOf(op) == stage {
      var i :| 0 <= i < |sorted| && sorted[i] == op;
    }
  }

  lemma GetParts(ops: seq<Op>, plan: seq<Op>) returns (pre: seq<Op>, mid: seq<Op>, post: seq<Op>)
    requires IsPlan(ops, plan)
    ensures Parts(ops, plan, pre, mid, post)
  {
    hide OpsOfStage, IsSorted, OfStage;
    pre, mid, post :| IsPlanOf(ops, pre, mid, post) && plan == pre + mid + post;
    SortedOfStage(ops, PreDeploy, pre);
    SortedOfStage(ops, Deploy, mid);
    SortedOfStage(ops, PostDeploy, post);
  }

  lemma PartsKept(ops: seq<Op>, plan: seq<Op>, pre: seq<Op>, mid: seq<Op>, post: seq<Op>)
    requires Parts(ops, plan, pre, mid, post)
    ensures Parts(Kept(ops), Kept(plan), pre, Kept(mid), Kept(post))
  {
    hide OpsOfStage, IsSorted, OfStage, Kept;
    StageIs(ops, PreDeploy);
    StageIs(ops, Deploy);
    StageIs(ops, PostDeploy);
    StageOfKept(ops, PreDeploy);
    StageOfKept(ops, Deploy);
    StageOfKept(ops, PostDeploy);
    KeptEarly(OpsOfStage(ops, PreDeploy));
    KeptDeploy(OpsOfStage(ops, Deploy), mid);
    KeptPost(OpsOfStage(ops, PostDeploy), post);
    KeptEarly(pre);
    KeptOfStage(mid, Deploy);
    KeptOfStage(post, PostDeploy);
    KeptThree(pre, mid, post);
  }

  lemma KeptThree(a: seq<Op>, b: seq<Op>, c: seq<Op>)
    ensures Kept(a + b + c) == Kept(a) + Kept(b) + Kept(c)
  {
    hide Filter;
    FilterConcat(a + b, c, Harmless());
    FilterConcat(a, b, Harmless());
  }

  /** The plan without destructive operations is the full plan without them. */
  lemma SafePlanIsKept(ops: seq<Op>, safe: seq<Op>) returns (plan: seq<Op>)
    requires IsPlan(Allowed(ops, false), safe)
    ensures IsPlan(ops, plan) && safe == Allowed(plan, false)
  {
    hide OpsOfStage, IsSorted, OfStage, Kept, Allowed, Acyclic, GraphOf, StageOf, IsPlanOf;
    SafeIsKept(ops);
    var pre, mid, post := GetParts(Kept(ops), safe);
    PlannableAnyway(ops, safe, pre, mid, post);
    PlanExists(ops);
    plan :| IsPlan(ops, plan);
    var pre', mid', post' := GetParts(ops, plan);
    PartsKept(ops, plan, pre', mid', post');
    SafeIsKept(plan);
    PartsArePlan(Kept(ops), Kept(plan), pre', Kept(mid'), Kept(post'));
    PlanUnique(Kept(ops), safe, Kept(plan));
  }

  lemma PartsArePlan(ops: seq<Op>, plan: seq<Op>, pre: seq<Op>, mid: seq<Op>, post: seq<Op>)
    requires Parts(ops, plan, pre, mid, post)
    ensures IsPlan(ops, plan)
  {
    hide IsSorted, OpsOfStage, OfStage;
  }

  lemma PlannableAnyway(ops: seq<Op>, safe: seq<Op>, pre: seq<Op>, mid: seq<Op>, post: seq<Op>)
    requires Parts(Kept(ops), safe, pre, mid, post)
    ensures Plannable(ops)
  {
    hide OpsOfStage, IsSorted, OfStage, Kept, Acyclic, GraphOf, StageOf;
    StageIs(ops, PreDeploy);
    StageIs(ops, Deploy);
    StageIs(ops, PostDeploy);
    StageOfKept(ops, PreDeploy);
    KeptEarly(OpsOfStage(ops, PreDeploy));
    var order := SortedFacts(OpsOfStage(ops, PreDeploy), pre);
    DeployAcyclic(OpsOfStage(ops, Deploy));
    PostDeployAcyclic(OpsOfStage(ops, PostDeploy));
    forall stage ensures Acyclic(GraphOf(OpsOfStage(ops, stage))) {
      match stage case PreDeploy => case Deploy => case PostDeploy =>
    }
  }

  // ----- the pre-deploy stage applies only if nothing is replaced

  /** If whatever touches it fails as long as it is what it was, nothing touches it in a run. */
  lemma {:induction false} NothingTouches<T(!new)>(ops: seq<Op>, s: SchemaDef, touches: Op -> bool,
                                                   view: SchemaDef -> T)
    requires Keeps(touches, view) && Apply(ops, s).Ok?
    requires forall op, x :: op in ops && touches(op) && view(x) == view(s) ==> ApplyOne(op, x).Fail?
    ensures forall op :: op in ops ==> !touches(op)
  {
    hide Apply, ApplyOne;
    if ops != [] {
      var init, op := ops[..|ops| - 1], ops[|ops| - 1];
      assert ops == init + [op];
      ApplySnoc(init, op, s);
      NothingTouches(init, s, touches, view);
      StaysBefore(ops, s, |init|, touches, view);
      assert ops[..|init|] == init;
    }
  }

  lemma AddFails(op: Op, x: SchemaDef)
    requires op.AddConstraintOp? && ConstraintAt(x, op.schema, op.table, op.constraint.name).Some?
    ensures ApplyOne(op, x).Fail?
  {
  }

  lemma EarlyRemovesNothing(op: Op)
    requires StageOf(op) == PreDeploy
    ensures !op.DropTableOp? && !op.DropConstraintOp? && !op.DropIndexOp? && !op.DropSchemaOp?
    ensures !op.ReplaceViewOp? && !op.DropViewOp? && !op.DropMaterializedViewOp?
  {
  }

  lemma EarlyTouchesConstraint(s: SchemaDef, t: SchemaDef, walk: Walk, ns: string, n: string, i: string, op: Op)
    requires WellFormed(s) && WellFormed(t) && IsCommon(s, t, ns, n)
    requires op in DiffOps(s, t, walk) && StageOf(op) == PreDeploy && TouchesConstraint(ns, n, i)(op)
    ensures op.AddConstraintOp? && op.schema == ns && op.table == n && op.constraint.name == i
  {
    hide WellFormed, DiffOps, StageOf, Creates;
    EarlyRemovesNothing(op);
    if op.AddTableOp? {
      DiffCreates(s, t, walk, op);
      NewNotCommon(s, t, op);
    }
  }

  lemma ConstraintBlocks(s: SchemaDef, t: SchemaDef, walk: Walk, pre: seq<Op>, ns: string, n: string, i: string)
    requires WellFormed(s) && WellFormed(t) && IsSorted(Pre(s, t, walk), pre) && Apply(pre, s).Ok?
    requires IsCommon(s, t, ns, n)
    ensures !ConstraintReplaced(s.schemas[ns].tables[n], t.schemas[ns].tables[n], i)
  {
    hide WellFormed, DiffOps, Pre, IsSorted, Apply, ApplyOne, StageOf, Creates, ConstraintChanged, TouchesConstraint;
    if ConstraintReplaced(s.schemas[ns].tables[n], t.schemas[ns].tables[n], i) {
      ConstraintKept(ns, n, i);
      forall op | op in pre && TouchesConstraint(ns, n, i)(op)
        ensures op.AddConstraintOp? && op.schema == ns && op.table == n && op.constraint.name == i
      {
        SortedMember(s, t, walk, pre, op);
        EarlyTouchesConstraint(s, t, walk, ns, n, i, op);
      }
      forall op, x | op in pre && TouchesConstraint(ns, n, i)(op) &&
        ConstraintView(ns, n, i)(x) == ConstraintView(ns, n, i)(s) ensures ApplyOne(op, x).Fail?
      {
        AddFails(op, x);
      }
      NothingTouches(pre, s, TouchesConstraint(ns, n, i), ConstraintView(ns, n, i));
      var op := ReplacingAdd(s, t, ns, n, i);
      DiffCreates(s, t, walk, op);
      CreatingIsEarly(op);
      SortedMember(s, t, walk, pre, op);
    }
  }

  lemma ReplacingAdd(s: SchemaDef, t: SchemaDef, ns: string, n: string, i: string) returns (op: Op)
    requires WellFormed(t) && IsCommon(s, t, ns, n)
    requires ConstraintReplaced(s.schemas[ns].tables[n], t.schemas[ns].tables[n], i)
    ensures Creates(s, t, op) && op.AddConstraintOp? && TouchesConstraint(ns, n, i)(op)
  {
    assert TableWellFormed(t.schemas[ns].tables[n]);
    hide ConstraintChanged;
    op := AddConstraintOp(ns, n, t.schemas[ns].tables[n].constraints[i]);
  }

  // ----- indexes

  function IndexView(ns: string, n: string, i: string): SchemaDef -> Option<Index> {
    (s: SchemaDef) =>
      if ns in s.schemas && n in s.schemas[ns].tables then Get(s.schemas[ns].tables[n].indexes, i) else None
  }

  function TouchesIndex(ns: string, n: string, i: string): Op -> bool {
    (op: Op) => op.schema == ns && (op.DropSchemaOp? || ShapesIndex(op, n, i))
  }

  predicate ShapesIndex(op: Op, n: string, i: string) {
    match op
    case AddTableOp(_, m, _) => m == n
    case DropTableOp(_, m) => m == n
    case CreateIndexOp(_, x) => x.table == n && x.name == i
    case DropIndexOp(_, j) => j == i
    case _ => false
  }

  lemma TableKeepsIndex(op: Op, t: TableDef, i: string)
    requires EditTable(t, op).Ok? && !(op.CreateIndexOp? && op.index.name == i) && !(op.DropIndexOp? && op.name == i)
    ensures Get(EditTable(t, op).value.indexes, i) == Get(t.indexes, i)
  {
    hide AlterColumn, EditColumns;
  }

  lemma NamespaceKeepsIndex(op: Op, ns: NamespaceDef, n: string, i: string)
    requires EditNamespace(ns, op).Ok? && !ShapesIndex(op, n, i)
    ensures var r := EditNamespace(ns, op).value;
      && (n in r.tables <==> n in ns.tables)
      && (n in ns.tables ==> Get(r.tables[n].indexes, i) == Get(ns.tables[n].indexes, i))
  {
    EffectsTame();
    hide EditTable, TypeEffect, ViewEffect, SequenceEffect, ExtensionEffect;
    if PartOf(op) == Tables && n in ns.tables && (op.DropIndexOp? || TableOf(op) == n) {
      if EditTable(ns.tables[n], op).Ok? { TableKeepsIndex(op, ns.tables[n], i); }
    }
  }

  lemma IndexViewOf(s: SchemaDef, ns: string, n: string, i: string)
    ensures IndexView(ns, n, i)(s) ==
      match Get(s.schemas, ns)
      case None => None
      case Some(a) => if n in a.tables then Get(a.tables[n].indexes, i) else None
  {
  }

  lemma IndexKept(ns: string, n: string, i: string)
    ensures Keeps(TouchesIndex(ns, n, i), IndexView(ns, n, i))
  {
    hide ApplyOne, EditNamespace, IndexView;
    forall op, s | ApplyOne(op, s).Ok? && !TouchesIndex(ns, n, i)(op)
      ensures IndexView(ns, n, i)(ApplyOne(op, s).value) == IndexView(ns, n, i)(s)
    {
      NamespaceStep(op, s, ns);
      IndexViewOf(s, ns, n, i);
      IndexViewOf(ApplyOne(op, s).value, ns, n, i);
      if op.schema == ns && !op.CreateSchemaOp? { NamespaceKeepsIndex(op, s.schemas[ns], n, i); }
    }
  }

  lemma CreateIndexFails(op: Op, x: SchemaDef)
    requires op.CreateIndexOp? && !op.index.ifNotExists
    requires IndexView(op.schema, op.index.table, op.index.name)(x).Some?
    ensures ApplyOne(op, x).Fail?
  {
  }

  lemma EarlyTouchesIndex(s: SchemaDef, t: SchemaDef, walk: Walk, ns: string, n: string, i: string, op: Op)
    requires WellFormed(s) && WellFormed(t) && IsCommon(s, t, ns, n)
    requires op in DiffOps(s, t, walk) && StageOf(op) == PreDeploy && TouchesIndex(ns, n, i)(op)
    ensures i in t.schemas[ns].tables[n].indexes
    ensures op.CreateIndexOp? && op.schema == ns && op.index.table == n && op.index.name == i
    ensures op.index == t.schemas[ns].tables[n].indexes[i]
  {
    hide WellFormed, DiffOps, StageOf, SameIndex;
    EarlyRemovesNothing(op);
    DiffCreates(s, t, walk, op);
    if op.AddTableOp? { NewNotCommon(s, t, op); }
  }

  lemma IndexBlocks(s: SchemaDef, t: SchemaDef, walk: Walk, pre: seq<Op>, ns: string, n: string, i: string)
    requires WellFormed(s) && WellFormed(t) && IsSorted(Pre(s, t, walk), pre) && Apply(pre, s).Ok?
    requires IsCommon(s, t, ns, n)
    ensures !IndexClash(s.schemas[ns].tables[n], t.schemas[ns].tables[n], i)
  {
    hide WellFormed, DiffOps, Pre, IsSorted, Apply, ApplyOne, StageOf, Creates, SameIndex, TouchesIndex;
    if IndexClash(s.schemas[ns].tables[n], t.schemas[ns].tables[n], i) {
      IndexKept(ns, n, i);
      forall op | op in pre && TouchesIndex(ns, n, i)(op)
        ensures op.CreateIndexOp? && op.schema == ns && op.index.table == n && op.index.name == i &&
          !op.index.ifNotExists
      {
        SortedMember(s, t, walk, pre, op);
        EarlyTouchesIndex(s, t, walk, ns, n, i, op);
      }
      forall op, x | op in pre && TouchesIndex(ns, n, i)(op) &&
        IndexView(ns, n, i)(x) == IndexView(ns, n, i)(s) ensures ApplyOne(op, x).Fail?
      {
        CreateIndexFails(op, x);
      }
      NothingTouches(pre, s, TouchesIndex(ns, n, i), IndexView(ns, n, i));
      var op := ClashingIndex(s, t, ns, n, i);
      DiffCreates(s, t, walk, op);
      CreatingIsEarly(op);
      SortedMember(s, t, walk, pre, op);
    }
  }

  lemma ClashingIndex(s: SchemaDef, t: SchemaDef, ns: string, n: string, i: string) returns (op: Op)
    requires WellFormed(t) && IsCommon(s, t, ns, n)
    requires IndexClash(s.schemas[ns].tables[n], t.schemas[ns].tables[n], i)
    ensures Creates(s, t, op) && op.CreateIndexOp? && TouchesIndex(ns, n, i)(op)
  {
    assert TableWellFormed(t.schemas[ns].tables[n]);
    hide SameIndex;
    op := CreateIndexOp(ns, t.schemas[ns].tables[n].indexes[i]);
  }

  // ----- views

  function ViewAt(ns: string, n: string): SchemaDef -> Option<View> {
    (s: SchemaDef) => if ns in s.schemas then Get(s.schemas[ns].views, n) else None
  }

  function TouchesView(ns: string, n: string): Op -> bool {
    (op: Op) => op.schema == ns && (op.DropSchemaOp? || (PartOf(op) == Views && ViewName()(op) == n))
  }

  lemma NamespaceKeepsView(op: Op, ns: NamespaceDef, n: string)
    requires EditNamespace(ns, op).Ok? && !(PartOf(op) == Views && ViewName()(op) == n)
    ensures Get(EditNamespace(ns, op).value.views, n) == Get(ns.views, n)
  {
    hide EditTable, TypeEffect, ViewEffect, SequenceEffect, ExtensionEffect, ViewName;
  }

  lemma ViewAtOf(s: SchemaDef, ns: string, n: string)
    ensures ViewAt(ns, n)(s) == match Get(s.schemas, ns) case None => None case Some(a) => Get(a.views, n)
  {
  }

  lemma ViewKept(ns: string, n: string)
    ensures Keeps(TouchesView(ns, n), ViewAt(ns, n))
  {
    hide ApplyOne, EditNamespace, ViewAt, PartOf, ViewName;
    forall op, s | ApplyOne(op, s).Ok? && !TouchesView(ns, n)(op)
      ensures ViewAt(ns, n)(ApplyOne(op, s).value) == ViewAt(ns, n)(s)
    {
      NamespaceStep(op, s, ns);
      ViewAtOf(s, ns, n);
      ViewAtOf(ApplyOne(op, s).value, ns, n);
      if op.schema == ns && !op.CreateSchemaOp? { NamespaceKeepsView(op, s.schemas[ns], n); }
    }
  }

  lemma CreateViewFails(op: Op, x: SchemaDef, ns: string, n: string)
    requires StageOf(op) == PreDeploy && TouchesView(ns, n)(op) && ViewAt(ns, n)(x).Some?
    ensures ApplyOne(op, x).Fail?
  {
    hide StageOf;
    EarlyRemovesNothing(op);
    ViewKinds(ns, n, op);
  }

  lemma ViewKinds(ns: string, n: string, op: Op)
    requires TouchesView(ns, n)(op)
    ensures op.schema == ns
    ensures op.DropSchemaOp? || PartOf(op) == Views
    ensures !op.DropSchemaOp? && !op.ReplaceViewOp? && !op.DropViewOp? && !op.DropMaterializedViewOp? ==>
      (op.CreateViewOp? || op.CreateMaterializedViewOp?) && op.view.name == n
  {
    assert op.DropSchemaOp? || (PartOf(op) == Views && ViewName()(op) == n);
  }

  lemma ViewBlocks(s: SchemaDef, t: SchemaDef, walk: Walk, pre: seq<Op>, ns: string, n: string)
    requires WellFormed(s) && WellFormed(t) && IsSorted(Pre(s, t, walk), pre) && Apply(pre, s).Ok?
    requires ns in s.schemas && ns in t.schemas && n in s.schemas[ns].views && n in t.schemas[ns].views
    ensures !ViewReplaced(s.schemas[ns].views[n], t.schemas[ns].views[n])
  {
    hide WellFormed, DiffOps, Pre, IsSorted, Apply, ApplyOne, StageOf, TouchesView;
    if ViewReplaced(s.schemas[ns].views[n], t.schemas[ns].views[n]) {
      ViewKept(ns, n);
      forall op, x | op in pre && TouchesView(ns, n)(op) && ViewAt(ns, n)(x) == ViewAt(ns, n)(s)
        ensures ApplyOne(op, x).Fail?
      {
        SortedMember(s, t, walk, pre, op);
        CreateViewFails(op, x, ns, n);
      }
      NothingTouches(pre, s, TouchesView(ns, n), ViewAt(ns, n));
      var op := ReplacingView(s, t, walk, ns, n);
      SortedMember(s, t, walk, pre, op);
    }
  }

  lemma ReplacingView(s: SchemaDef, t: SchemaDef, walk: Walk, ns: string, n: string) returns (op: Op)
    requires WellFormed(s) && WellFormed(t)
    requires ns in s.schemas && ns in t.schemas && n in s.schemas[ns].views && n in t.schemas[ns].views
    requires ViewReplaced(s.schemas[ns].views[n], t.schemas[ns].views[n])
    ensures op in DiffOps(s, t, walk) && StageOf(op) == PreDeploy && TouchesView(ns, n)(op)
  {
    var u, v := s.schemas[ns], t.schemas[ns];
    op := DiffSpec.CreateView(v.name, v.views[n]);
    SourceSameNamed(s, t, ns);
    NamesOfParts(v);
    CreatedViewTouches(v.name, v.views[n]);
    hide WellFormed, DiffOps, Filter, OfObject, StageOf, SameNamed, TouchesView, TargetViewStep, OldViewStep, DropOld;
    ViewOpsAbout(s, t, walk, ns, n);
    ViewStepsShape(u, v, n);
    assert op in Filter(DiffOps(s, t, walk), OfObject(ns, Views, ViewName(), n));
  }

  lemma CreatedViewTouches(ns: string, v: View)
    ensures var op := DiffSpec.CreateView(ns, v); StageOf(op) == PreDeploy && TouchesView(ns, v.name)(op)
  {
    var op := DiffSpec.CreateView(ns, v);
    assert PartOf(op) == Views && ViewName()(op) == v.name && op.schema == ns;
  }

  /** If the pre-deploy stage applies, nothing has to make room for its replacement. */
  lemma PreNeedsExecutable(s: SchemaDef, t: SchemaDef, walk: Walk, pre: seq<Op>)
    requires WellFormed(s) && WellFormed(t) && IsSorted(Pre(s, t, walk), pre) && Apply(pre, s).Ok?
    ensures Executable(s, t)
  {
    hide WellFormed, DiffOps, Pre, IsSorted, Apply, ConstraintReplaced, IndexClash, ViewReplaced;
    forall ns | ns in s.schemas && ns in t.schemas ensures NamespaceExecutable(s.schemas[ns], t.schemas[ns]) {
      var u, v := s.schemas[ns], t.schemas[ns];
      forall n | n in u.tables && n in v.tables ensures TableExecutable(u.tables[n], v.tables[n]) {
        forall i ensures !ConstraintReplaced(u.tables[n], v.tables[n], i) {
          ConstraintBlocks(s, t, walk, pre, ns, n, i);
        }
        forall i ensures !IndexClash(u.tables[n], v.tables[n], i) { IndexBlocks(s, t, walk, pre, ns, n, i); }
      }
      forall n | n in u.views && n in v.views ensures !ViewReplaced(u.views[n], v.views[n]) {
        ViewBlocks(s, t, walk, pre, ns, n);
      }
    }
  }

  // ----- the deploy stage with and without its destructive operations

  /** The target has the column, and it is no identity. */
  predicate Sheds(t: SchemaDef, ns: string, n: string, c: string) {
    && ns in t.schemas && n in t.schemas[ns].tables && c in t.schemas[ns].tables[n].columns
    && !t.schemas[ns].tables[n].columns[c].isIdentity
  }

  /** The same columns; identities may differ where the target has none. */
  predicate ColumnsAlike(sheds: string -> bool, x: Columns, y: Columns) {
    && x.order == y.order && x.byName.Keys == y.byName.Keys
    && forall c :: c in x.byName ==> c in y.byName && (x.byName[c].isIdentity == y.byName[c].isIdentity || sheds(c))
  }

  function Shedding(t: SchemaDef, ns: string, n: string): string -> bool {
    (c: string) => Sheds(t, ns, n, c)
  }

  predicate TableAlike(t: SchemaDef, ns: string, n: string, x: TableDef, y: TableDef) {
    ColumnsAlike(Shedding(t, ns, n), Columns(x.order, x.columns), Columns(y.order, y.columns))
  }

  predicate NamespaceAlike(t: SchemaDef, ns: string, x: NamespaceDef, y: NamespaceDef) {
    && x.views == y.views && x.sequences == y.sequences && x.tables.Keys == y.tables.Keys
    && forall n :: n in x.tables ==> n in y.tables && TableAlike(t, ns, n, x.tables[n], y.tables[n])
  }

  /** What the deploy stage leaves with and without its destructive operations. */
  predicate Alike(t: SchemaDef, x: SchemaDef, y: SchemaDef) {
    && x.schemas.Keys == y.schemas.Keys
    && forall ns :: ns in x.schemas ==> ns in y.schemas && NamespaceAlike(t, ns, x.schemas[ns], y.schemas[ns])
  }

  /** Identities are given to columns that are to have one and taken from those that are not, and a
      column is renamed that is not to be there. */
  predicate Fits(sheds: string -> bool, op: Op) {
    match op
    case AddIdentityOp(_, _, c, _) => !sheds(c)
    case SetIdentityOp(_, _, c, _) => !sheds(c)
    case DropIdentityOp(_, _, c) => sheds(c)
    case RenameColumnOp(_, _, c, _) => !sheds(c)
    case _ => true
  }

  lemma AlterAlike(sheds: string -> bool, x: Column, y: Column, op: Op)
    requires IsAlterColumn(op) && Fits(sheds, op) && StageOf(op) == Deploy
    requires x.isIdentity == y.isIdentity || sheds(op.column)
    requires AlterColumn(x, op).Ok?
    ensures op.IsDestructive() ==> AlterColumn(x, op).value.isIdentity == y.isIdentity || sheds(op.column)
    ensures !op.IsDestructive() ==>
      && AlterColumn(y, op).Ok?
      && (AlterColumn(x, op).value.isIdentity == AlterColumn(y, op).value.isIdentity || sheds(op.column))
  {
  }

  lemma EditOfAlter(x: Columns, op: Op)
    requires IsAlterColumn(op)
    ensures EditColumns(x, op) ==
      if op.column !in x.byName || AlterColumn(x.byName[op.column], op).Fail? then Fail
      else Ok(x.(byName := x.byName[op.column := AlterColumn(x.byName[op.column], op).value]))
  {
    hide AlterColumn;
  }

  lemma RenameAlike(sheds: string -> bool, x: Columns, y: Columns, op: Op)
    requires ColumnsAlike(sheds, x, y) && op.RenameColumnOp? && !sheds(op.oldName) && EditColumns(x, op).Ok?
    ensures EditColumns(y, op).Ok? && ColumnsAlike(sheds, EditColumns(x, op).value, EditColumns(y, op).value)
  {
  }

  lemma RenameIsHarmless(op: Op)
    requires op.RenameColumnOp?
    ensures !op.IsDestructive()
  {
  }

  lemma EditAlike(sheds: string -> bool, x: Columns, y: Columns, op: Op)
    requires ColumnsAlike(sheds, x, y) && op.IsColumnOp() && Fits(sheds, op) && StageOf(op) == Deploy
    requires EditColumns(x, op).Ok?
    ensures op.IsDestructive() ==> ColumnsAlike(sheds, EditColumns(x, op).value, y)
    ensures !op.IsDestructive() ==>
      EditColumns(y, op).Ok? && ColumnsAlike(sheds, EditColumns(x, op).value, EditColumns(y, op).value)
  {
    hide AlterColumn, StageOf, Op.IsDestructive, EditColumns;
    DeployAlters(op);
    if op.RenameColumnOp? {
      RenameIsHarmless(op);
      RenameAlike(sheds, x, y, op);
    } else {
      EditOfAlter(x, op);
      EditOfAlter(y, op);
      AlterAlike(sheds, x.byName[op.column], y.byName[op.column], op);
    }
  }

  lemma DeployAlters(op: Op)
    requires op.IsColumnOp() && StageOf(op) == Deploy
    ensures op.RenameColumnOp? || IsAlterColumn(op)
  {
  }

  lemma DeployKinds(op: Op)
    requires StageOf(op) == Deploy
    ensures op.AlterSequenceOp? || (op.IsColumnOp() && PartOf(op) == Tables && PartOfTable(op) == ColumnPart &&
      TableOf(op) == op.table)
    ensures op.AlterSequenceOp? ==> PartOf(op) == Sequences && !op.IsDestructive()
    ensures !op.CreateSchemaOp? && !op.DropSchemaOp? && !op.DropIndexOp? && !op.AddTableOp? && !op.DropTableOp?
  {
  }

  predicate FitsHere(t: SchemaDef, op: Op) {
    op.IsColumnOp() ==> Fits(Shedding(t, op.schema, op.table), op)
  }

  lemma EditOfColumns(x: TableDef, op: Op)
    requires PartOfTable(op) == ColumnPart
    ensures EditTable(x, op) ==
      match EditColumns(Columns(x.order, x.columns), op)
      case Fail => Fail
      case Ok(c) => Ok(x.(order := c.order, columns := c.byName))
  {
  }

  lemma TableStepAlike(t: SchemaDef, ns: string, n: string, x: TableDef, y: TableDef, op: Op)
    requires TableAlike(t, ns, n, x, y) && op.IsColumnOp() && Fits(Shedding(t, ns, n), op)
    requires StageOf(op) == Deploy && PartOfTable(op) == ColumnPart && EditTable(x, op).Ok?
    ensures op.IsDestructive() ==> TableAlike(t, ns, n, EditTable(x, op).value, y)
    ensures !op.IsDestructive() ==>
      EditTable(y, op).Ok? && TableAlike(t, ns, n, EditTable(x, op).value, EditTable(y, op).value)
  {
    hide EditColumns, EditTable, ColumnsAlike, Shedding, Fits, StageOf, Op.IsDestructive, Op.IsColumnOp, PartOfTable;
    EditOfColumns(x, op);
    EditOfColumns(y, op);
    var c, d := Columns(x.order, x.columns), Columns(y.order, y.columns);
    EditAlike(Shedding(t, ns, n), c, d, op);
    assert EditTable(x, op).value.columns == EditColumns(c, op).value.byName;
    assert Columns(EditTable(x, op).value.order, EditTable(x, op).value.columns) == EditColumns(c, op).value;
  }

  /** A column operation in a namespace. */
  lemma EditOfTable(x: NamespaceDef, op: Op)
    requires PartOf(op) == Tables && PartOfTable(op) == ColumnPart && !op.DropIndexOp?
    requires !op.AddTableOp? && !op.DropTableOp?
    ensures EditNamespace(x, op) ==
      if TableOf(op) !in x.tables || EditTable(x.tables[TableOf(op)], op).Fail? then Fail
      else Ok(x.(tables := x.tables[TableOf(op) := EditTable(x.tables[TableOf(op)], op).value]))
  {
    hide EditTable, TableOf;
  }

  lemma EditOfSequence(x: NamespaceDef, op: Op)
    requires op.AlterSequenceOp?
    ensures EditNamespace(x, op) ==
      if op.after.name !in x.sequences then Fail
      else Ok(x.(sequences := x.sequences[op.after.name := op.after]))
  {
  }

  lemma NamespaceStepAlike(t: SchemaDef, ns: string, x: NamespaceDef, y: NamespaceDef, op: Op)
    requires NamespaceAlike(t, ns, x, y) && FitsHere(t, op) && op.schema == ns
    requires StageOf(op) == Deploy && EditNamespace(x, op).Ok?
    ensures op.IsDestructive() ==> NamespaceAlike(t, ns, EditNamespace(x, op).value, y)
    ensures !op.IsDestructive() ==>
      EditNamespace(y, op).Ok? && NamespaceAlike(t, ns, EditNamespace(x, op).value, EditNamespace(y, op).value)
  {
    hide EditNamespace, EditTable, TableAlike, Shedding, Fits, StageOf, Op.IsDestructive, PartOfTable, PartOf, TableOf;
    DeployKinds(op);
    if op.AlterSequenceOp? {
      EditOfSequence(x, op);
      EditOfSequence(y, op);
    } else {
      EditOfTable(x, op);
      EditOfTable(y, op);
      var n := TableOf(op);
      TableStepAlike(t, ns, n, x.tables[n], y.tables[n], op);
    }
  }

  lemma ApplyInside(op: Op, s: SchemaDef)
    requires !op.CreateSchemaOp? && !op.DropSchemaOp?
    ensures ApplyOne(op, s) ==
      if op.schema !in s.schemas || EditNamespace(s.schemas[op.schema], op).Fail? then Fail
      else Ok(SchemaDef(s.schemas[op.schema := EditNamespace(s.schemas[op.schema], op).value]))
  {
    hide EditNamespace;
  }

  lemma StepAlike(t: SchemaDef, x: SchemaDef, y: SchemaDef, op: Op)
    requires Alike(t, x, y) && FitsHere(t, op) && StageOf(op) == Deploy && ApplyOne(op, x).Ok?
    ensures op.IsDestructive() ==> Alike(t, ApplyOne(op, x).value, y)
    ensures !op.IsDestructive() ==> ApplyOne(op, y).Ok? && Alike(t, ApplyOne(op, x).value, ApplyOne(op, y).value)
  {
    hide ApplyOne, EditNamespace, NamespaceAlike, FitsHere, StageOf, Op.IsDestructive;
    DeployKinds(op);
    ApplyInside(op, x);
    ApplyInside(op, y);
    var ns := op.schema;
    NamespaceStepAlike(t, ns, x.schemas[ns], y.schemas[ns], op);
  }

  lemma AlikeItself(t: SchemaDef, x: SchemaDef)
    ensures Alike(t, x, x)
  {
  }

  lemma KeptSnoc(init: seq<Op>, op: Op)
    ensures Kept(init + [op]) == if op.IsDestructive() then Kept(init) else Kept(init) + [op]
  {
    FilterSnoc(init, op, Harmless());
  }

  lemma {:induction false} RunAlike(t: SchemaDef, ops: seq<Op>, x: SchemaDef)
    requires OfStage(ops, Deploy) && (forall op :: op in ops ==> FitsHere(t, op)) && Apply(ops, x).Ok?
    ensures Apply(Kept(ops), x).Ok? && Alike(t, Apply(ops, x).value, Apply(Kept(ops), x).value)
  {
    hide Apply, ApplyOne, Alike, FitsHere, StageOf, Op.IsDestructive, Kept;
    if ops == [] {
      assert Kept(ops) == [] by { NothingKept(); }
      AlikeItself(t, x);
      ApplyNothing(x);
    } else {
      var init, op := ops[..|ops| - 1], ops[|ops| - 1];
      assert ops == init + [op] && op in ops;
      assert forall z :: z in init ==> z in ops;
      ApplySnoc(init, op, x);
      RunAlike(t, init, x);
      KeptSnoc(init, op);
      StepAlike(t, Apply(init, x).value, Apply(Kept(init), x).value, op);
      ApplySnoc(Kept(init), op, x);
    }
  }

  lemma NothingKept()
    ensures Kept([]) == []
  {
  }

  // ----- the post-deploy stage

  /** The second schema has the views of the first. */
  predicate KeepsViews(x: SchemaDef, y: SchemaDef) {
    forall ns, n :: ns in x.schemas && n in x.schemas[ns].views ==>
      ns in y.schemas && n in y.schemas[ns].views &&
      y.schemas[ns].views[n].materialized == x.schemas[ns].views[n].materialized
  }

  lemma EditOfView(x: NamespaceDef, op: Op)
    requires op.ReplaceViewOp? || op.DropViewOp?
    ensures var n := if op.ReplaceViewOp? then op.view.name else op.name;
      EditNamespace(x, op) ==
        if n !in x.views || x.views[n].materialized then Fail
        else if op.DropViewOp? then Ok(x.(views := x.views - {n}))
        else Ok(x.(views := x.views[n := View(n, op.view.definition, false)]))
  {
  }

  lemma DestructiveViews(op: Op, x: NamespaceDef)
    requires StageOf(op) == PostDeploy && op.IsDestructive() && !op.DropSchemaOp? && EditNamespace(x, op).Ok?
    ensures forall n :: n in EditNamespace(x, op).value.views ==>
      n in x.views && EditNamespace(x, op).value.views[n] == x.views[n]
  {
    hide EditTable;
  }

  lemma ViewStep(x: SchemaDef, y: SchemaDef, op: Op)
    requires KeepsViews(x, y) && StageOf(op) == PostDeploy && ApplyOne(op, x).Ok?
    ensures op.IsDestructive() ==> KeepsViews(ApplyOne(op, x).value, y)
    ensures !op.IsDestructive() ==> ApplyOne(op, y).Ok? && KeepsViews(ApplyOne(op, x).value, ApplyOne(op, y).value)
  {
    hide ApplyOne, EditNamespace, StageOf, Op.IsDestructive, KeepsViews;
    LateIsNoCreate(op);
    if op.DropSchemaOp? {
      DropSchemaViews(x, y, op);
    } else if op.IsDestructive() {
      DestructiveStep(x, y, op);
    } else {
      HarmlessStep(x, y, op);
    }
  }

  lemma LateIsNoCreate(op: Op)
    requires StageOf(op) == PostDeploy
    ensures !op.CreateSchemaOp? && (op.DropSchemaOp? ==> op.IsDestructive())
  {
  }

  lemma DropSchemaViews(x: SchemaDef, y: SchemaDef, op: Op)
    requires KeepsViews(x, y) && op.DropSchemaOp?
    ensures ApplyOne(op, x).Ok? && KeepsViews(ApplyOne(op, x).value, y)
  {
  }

  lemma DestructiveStep(x: SchemaDef, y: SchemaDef, op: Op)
    requires KeepsViews(x, y) && StageOf(op) == PostDeploy && op.IsDestructive() && ApplyOne(op, x).Ok?
    requires !op.CreateSchemaOp? && !op.DropSchemaOp?
    ensures KeepsViews(ApplyOne(op, x).value, y)
  {
    hide ApplyOne, EditNamespace, StageOf, Op.IsDestructive;
    ApplyInside(op, x);
    DestructiveViews(op, x.schemas[op.schema]);
  }

  lemma HarmlessStep(x: SchemaDef, y: SchemaDef, op: Op)
    requires KeepsViews(x, y) && StageOf(op) == PostDeploy && !op.IsDestructive() && ApplyOne(op, x).Ok?
    requires !op.CreateSchemaOp? && !op.DropSchemaOp?
    ensures ApplyOne(op, y).Ok? && KeepsViews(ApplyOne(op, x).value, ApplyOne(op, y).value)
  {
    hide ApplyOne, EditNamespace, StageOf, Op.IsDestructive;
    HarmlessLate(op);
    ApplyInside(op, x);
    ApplyInside(op, y);
    EditOfView(x.schemas[op.schema], op);
    var n := if op.ReplaceViewOp? then op.view.name else op.name;
    assert n in x.schemas[op.schema].views;
    EditOfView(y.schemas[op.schema], op);
  }

  lemma {:induction false} RunViewsKept(ops: seq<Op>, x: SchemaDef, y: SchemaDef)
    requires OfStage(ops, PostDeploy) && KeepsViews(x, y) && Apply(ops, x).Ok?
    ensures Apply(Kept(ops), y).Ok? && KeepsViews(Apply(ops, x).value, Apply(Kept(ops), y).value)
  {
    hide Apply, ApplyOne, KeepsViews, StageOf, Op.IsDestructive, Kept;
    if ops == [] {
      assert Kept(ops) == [] by { NothingKept(); }
      ApplyNothing(x);
      ApplyNothing(y);
    } else {
      var init, op := ops[..|ops| - 1], ops[|ops| - 1];
      assert ops == init + [op] && op in ops;
      assert forall z :: z in init ==> z in ops;
      ApplySnoc(init, op, x);
      RunViewsKept(init, x, y);
      KeptSnoc(init, op);
      ViewStep(Apply(init, x).value, Apply(Kept(init), y).value, op);
      ApplySnoc(Kept(init), op, y);
    }
  }

  // ----- the differ's operations fit

  /** What one column operation of a table asks of the column. */
  predicate FitsTable(b: TableDef, op: Op) {
    match op
    case AddIdentityOp(_, _, c, _) => c in b.columns && b.columns[c].isIdentity
    case SetIdentityOp(_, _, c, _) => c in b.columns && b.columns[c].isIdentity
    case DropIdentityOp(_, _, c) => c in b.columns && !b.columns[c].isIdentity
    case RenameColumnOp(_, _, c, _) => c !in b.columns
    case _ => true
  }

  lemma {:induction false} RenamesFit(schema: string, table: string, b: TableDef, pairs: seq<(string, string)>, op: Op)
    requires op in RenameOps(schema, table, pairs) && forall p :: p in pairs ==> p.0 !in b.columns
    ensures FitsTable(b, op)
  {
    var init := pairs[..|pairs| - 1];
    assert forall p :: p in init ==> p in pairs;
    if op in RenameOps(schema, table, init) { RenamesFit(schema, table, b, init, op); }
    assert pairs[|pairs| - 1] in pairs;
  }

  lemma ColumnOpsFit(schema: string, table: string, x: Column, y: Column, op: Op)
    requires op in ColumnOps(schema, table, x, y)
    ensures !op.RenameColumnOp?
    ensures op.AddIdentityOp? || op.SetIdentityOp? ==> op.column == x.name && y.isIdentity
    ensures op.DropIdentityOp? ==> op.column == x.name && !y.isIdentity
  {
    assert op in TypeOps(schema, table, x, y) || op in NullOps(schema, table, x, y) ||
      op in DefaultOps(schema, table, x, y) || op in CollationOps(schema, table, x, y) ||
      op in IdentityOps(schema, table, x, y);
  }

  lemma AltersFit(schema: string, a: TableDef, b: TableDef, op: Op)
    requires ColumnsNamed(a.columns) && op in Flat(b.order, AlterStep(schema, a, b))
    ensures FitsTable(b, op)
  {
    hide ColumnOps, Flat;
    var k := FlatMember(b.order, AlterStep(schema, a, b), op);
    ColumnOpsFit(schema, b.name, a.columns[k], b.columns[k], op);
  }

  lemma OthersFit(schema: string, a: TableDef, b: TableDef, walk: seq<string>, op: Op)
    requires op in Flat(TargetOnly(a, b), AddStep(schema, b, Renames(a, b))) ||
      op in Flat(walk, DropStep(schema, a, b, Renames(a, b)))
    ensures FitsTable(b, op)
  {
    hide Flat, Renames, TargetOnly, TargetTaken, SourceTaken;
    if op in Flat(walk, DropStep(schema, a, b, Renames(a, b))) {
      var k := FlatMember(walk, DropStep(schema, a, b, Renames(a, b)), op);
    } else {
      var k := FlatMember(TargetOnly(a, b), AddStep(schema, b, Renames(a, b)), op);
    }
  }

  lemma TableOpsFit(schema: string, a: TableDef, b: TableDef, walk: seq<string>, op: Op)
    requires ColumnsNamed(a.columns) && op in TableColumnOps(schema, a, b, walk)
    ensures FitsTable(b, op)
  {
    hide Flat, Renames, RenameOps, TargetOnly, AddStep, DropStep, AlterStep, FitsTable, ColumnsNamed;
    if op in RenameOps(schema, b.name, Renames(a, b)) {
      forall p | p in Renames(a, b) ensures p.0 !in b.columns {
        RenamesExact(a, b, p.0, p.1);
      }
      RenamesFit(schema, b.name, b, Renames(a, b), op);
    } else if op in Flat(b.order, AlterStep(schema, a, b)) {
      AltersFit(schema, a, b, op);
    } else {
      OthersFit(schema, a, b, walk, op);
    }
  }

  lemma DiffFits(s: SchemaDef, t: SchemaDef, walk: Walk, op: Op)
    requires WellFormed(s) && WellFormed(t) && op in DiffOps(s, t, walk)
    ensures FitsHere(t, op)
  {
    if op.IsColumnOp() {
      var ns, n := op.schema, op.table;
      hide WellFormed, DiffOps, Filter, OfTable, PartBlock, TableColumnOps, TableWellFormed, ColumnsNamed, FitsTable,
        FitsHere;
      ColumnOpIsCommon(s, t, walk, op);
      ColumnOpIsPart(op);
      SourceColumnsNamed(s, ns, n);
      assert op in Filter(DiffOps(s, t, walk), OfTable(ns, n, ColumnPart));
      DiffOfTable(s, t, walk, ns, n, ColumnPart);
      OwnBlockOps(s.schemas[ns], t.schemas[ns], walk, n);
      var a, b := s.schemas[ns].tables[n], t.schemas[ns].tables[n];
      TableOpsFit(s.schemas[ns].name, a, b, walk(s.schemas[ns].name, n), op);
      FitsFromTable(t, op);
    }
  }

  lemma SourceColumnsNamed(s: SchemaDef, ns: string, n: string)
    requires WellFormed(s) && ns in s.schemas && n in s.schemas[ns].tables
    ensures ColumnsNamed(s.schemas[ns].tables[n].columns)
  {
    assert TableWellFormed(s.schemas[ns].tables[n]);
  }

  lemma FitsFromTable(t: SchemaDef, op: Op)
    requires op.IsColumnOp() && op.schema in t.schemas && op.table in t.schemas[op.schema].tables
    requires FitsTable(t.schemas[op.schema].tables[op.table], op)
    ensures FitsHere(t, op)
  {
  }

  // ----- the whole plan

  lemma {:induction false} ApplyConcat(a: seq<Op>, b: seq<Op>, s: SchemaDef)
    ensures Apply(a + b, s) == if Apply(a, s).Fail? then Fail else Apply(b, Apply(a, s).value)
  {
    hide Apply, ApplyOne;
    if b == [] {
      assert a + b == a;
      if Apply(a, s).Ok? { ApplyNothing(Apply(a, s).value); }
    } else {
      var init, op := b[..|b| - 1], b[|b| - 1];
      assert b == init + [op] && a + b == (a + init) + [op];
      ApplyConcat(a, init, s);
      ApplySnoc(a + init, op, s);
      if Apply(a, s).Ok? { ApplySnoc(init, op, Apply(a, s).value); }
    }
  }

  lemma AlikeKeepsViews(t: SchemaDef, x: SchemaDef, y: SchemaDef)
    requires Alike(t, x, y)
    ensures KeepsViews(x, y)
  {
    hide TableAlike;
  }

  lemma PartMember(ops: seq<Op>, plan: seq<Op>, pre: seq<Op>, mid: seq<Op>, post: seq<Op>, op: Op)
    requires Parts(ops, plan, pre, mid, post) && op in mid
    ensures op in ops
  {
    hide IsSorted, OfStage, StageOf;
    SortedConserves(OpsOfStage(ops, Deploy), mid);
  }

  /** If the full plan applies, so does what is left of it without its destructive operations. */
  lemma KeptApplies(s: SchemaDef, t: SchemaDef, walk: Walk, plan: seq<Op>, pre: seq<Op>, mid: seq<Op>, post: seq<Op>)
    requires WellFormed(s) && WellFormed(t) && Parts(DiffOps(s, t, walk), plan, pre, mid, post) && Apply(plan, s).Ok?
    ensures Apply(pre + Kept(mid) + Kept(post), s).Ok?
  {
    hide WellFormed, DiffOps, Apply, Kept, Alike, KeepsViews, FitsHere, IsPlanOf, OfStage;
    ApplyConcat(pre + mid, post, s);
    ApplyConcat(pre, mid, s);
    ApplyConcat(pre + Kept(mid), Kept(post), s);
    ApplyConcat(pre, Kept(mid), s);
    var r := Apply(pre, s).value;
    forall op | op in mid ensures FitsHere(t, op) {
      PartMember(DiffOps(s, t, walk), plan, pre, mid, post, op);
      DiffFits(s, t, walk, op);
    }
    RunAlike(t, mid, r);
    AlikeKeepsViews(t, Apply(mid, r).value, Apply(Kept(mid), r).value);
    RunViewsKept(post, Apply(mid, r).value, Apply(Kept(mid), r).value);
  }

  lemma PreOfParts(s: SchemaDef, t: SchemaDef, walk: Walk, plan: seq<Op>, pre: seq<Op>, mid: seq<Op>, post: seq<Op>)
    requires Parts(DiffOps(s, t, walk), plan, pre, mid, post)
    ensures IsSorted(Pre(s, t, walk), pre)
  {
    hide DiffOps, IsSorted, OpsOfStage, OfStage;
  }

  /** A plan without destructive operations applies if and only if the full plan does. */
  lemma SafeApplies(s: SchemaDef, t: SchemaDef, walk: Walk, safe: seq<Op>)
    requires WellFormed(s) && WellFormed(t) && Walks(walk, s) && IsPlan(Allowed(DiffOps(s, t, walk), false), safe)
    ensures Apply(safe, s).Ok? <==> Executable(s, t)
  {
    hide *;
    var plan := SafePlanIsKept(DiffOps(s, t, walk), safe);
    var pre, mid, post := GetParts(DiffOps(s, t, walk), plan);
    PartsKept(DiffOps(s, t, walk), plan, pre, mid, post);
    SafeIsKept(plan);
    PartsJoin(Kept(DiffOps(s, t, walk)), safe, pre, Kept(mid), Kept(post));
    PreOfParts(s, t, walk, plan, pre, mid, post);
    PlanTakesEffect(s, t, walk, plan);
    if Executable(s, t) { KeptApplies(s, t, walk, plan, pre, mid, post); }
    if Apply(safe, s).Ok? {
      ApplyConcat(pre + Kept(mid), Kept(post), s);
      ApplyConcat(pre, Kept(mid), s);
      PreNeedsExecutable(s, t, walk, pre);
    }
  }

  lemma PartsJoin(ops: seq<Op>, plan: seq<Op>, pre: seq<Op>, mid: seq<Op>, post: seq<Op>)
    requires Parts(ops, plan, pre, mid, post)
    ensures plan == pre + mid + post
  {
  }

  lemma SafeDropsNothing(ops: seq<Op>, safe: seq<Op>, s: SchemaDef, k: nat)
    requires IsPlan(Allowed(ops, false), safe) && k < |safe|
    ensures UnboundAt(safe, k, s)
  {
    hide IsPlan, Apply, Bound;
    SameMembers(Allowed(ops, false), safe);
    assert safe[k] in Allowed(ops, false);
  }

  /** A plan without destructive operations can be carried out if and only if nothing has to make room
      for its replacement and all that is created finds what it names. */
  lemma SafePlanRuns(s: SchemaDef, t: SchemaDef, walk: Walk, safe: seq<Op>, outside: set<ObjectKey>)
    requires WellFormed(s) && WellFormed(t) && Walks(walk, s) && IsPlan(Allowed(DiffOps(s, t, walk), false), safe)
    ensures Execute(safe, s, outside).Ok? <==> Executable(s, t) && ResolvesAsPlanned(s, t, outside)
  {
    hide *;
    SafeApplies(s, t, walk, safe);
    ExecuteExact(safe, s, outside);
    if Apply(safe, s).Ok? {
      PlanResolves(s, t, walk, false, safe, outside);
      forall k: nat | k < |safe| ensures UnboundAt(safe, k, s) {
        SafeDropsNothing(DiffOps(s, t, walk), safe, s, k);
      }
    }
  }
}
