/** Schemas on which a plan gets stuck although none of its operations clashes with what is there: it
    does not find what it names, or leaves a foreign key behind. */
module StuckPlans {
  import opened Catalog
  import opened Operations
  import opened Names
  import opened Dag
  import opened Planner
  import opened PlanTheorems
  import opened Cycles
  import opened DiffSpec
  import opened RenameTheory
  import opened Locality
  import opened Semantics
  import opened TableSteps
  import opened SchemaMigration
  import opened PlannedDiff
  import opened TablePlans
  import opened PlanApplies
  import opened Execution
  import opened EmissionOrder
  import opened Resolution
  import opened PlanOrder
  import opened Removal
  import opened PlanExecution
  import opened Findings

  // ----- a plan that does not find what it names

  /** There is a plan, and all its operations apply, but the first that does not find what it names
      or leaves a foreign key behind stops the run. */
  ghost predicate PlanStuck(s: SchemaDef, t: SchemaDef) {
    && WellFormed(s) && WellFormed(t) && Walks(WalkId(), s)
    && (exists plan :: IsPlan(DiffOps(s, t, WalkId()), plan))
    && forall plan :: IsPlan(DiffOps(s, t, WalkId()), plan) ==> Apply(plan, s).Ok? && Execute(plan, s, {}).Fail?
  }

  lemma Stuck(s: SchemaDef, t: SchemaDef)
    requires WellFormed(s) && WellFormed(t) && Walks(WalkId(), s) && Executable(s, t)
    requires exists plan :: IsPlan(DiffOps(s, t, WalkId()), plan)
    requires !(ResolvesAsPlanned(s, t, {}) && DropsFreely(AsPlanned, s, t))
    ensures PlanStuck(s, t)
  {
    hide WellFormed, Walks, Executable, DiffOps, Apply, Execute, IsPlan, Migrated, WalkId, ResolvesAsPlanned,
      DropsFreely;
    forall plan | IsPlan(DiffOps(s, t, WalkId()), plan) ensures Apply(plan, s).Ok? && Execute(plan, s, {}).Fail? {
      PlanTakesEffect(s, t, WalkId(), plan);
      PlanRuns(s, t, WalkId(), plan, {});
    }
  }

  /** One table with one column, which may be indexed. */
  function OneNamed(column: string, indexed: bool): SchemaDef {
    Public(map["a" := TableDef("public", "a", [column], map[column := Id().(name := column)], None, map[],
                               if indexed then map["i" := IndexOver("a", column, false)] else map[], false)], map[])
  }

  lemma OneNamedFacts(column: string, indexed: bool)
    ensures WellFormed(OneNamed(column, indexed))
    ensures column == "id" ==> Walks(WalkId(), OneNamed(column, indexed))
  {
  }

  lemma RenamedExecutable()
    ensures NoNewTables(OneNamed("id", false), OneNamed("key", true))
    ensures Executable(OneNamed("id", false), OneNamed("key", true))
  {
    var u, v := OneNamed("id", false).schemas["public"], OneNamed("key", true).schemas["public"];
    assert TableExecutable(u.tables["a"], v.tables["a"]);
    assert NamespaceExecutable(u, v);
  }

  lemma IdIsRenamed()
    ensures IsRename(OneNamed("id", false).schemas["public"].tables["a"],
                     OneNamed("key", true).schemas["public"].tables["a"], "id", "key")
  {
    assert "id" != "key";
  }

  lemma RenamedIndexLooks()
    ensures !ResolvesAsPlanned(OneNamed("id", false), OneNamed("key", true), {})
  {
    var s, t, op := OneNamed("id", false), OneNamed("key", true), CreateIndexOp("public", IndexOver("a", "key", false));
    assert Creates(s, t, op);
    OneElement("a", "key", false);
    IdIsRenamed();
    IndexResolves(s, t, op, {});
    hide AtPlan;
    assert !Resolves(op, AtPlan(s, t, op), {});
  }

  lemma RenamedIndexEmitted()
    ensures ResolvesAsEmitted(OneNamed("id", false), OneNamed("key", true), {})
    ensures NoOldTables(OneNamed("id", false), OneNamed("key", true))
  {
    var s, t := OneNamed("id", false), OneNamed("key", true);
    OneElement("a", "key", false);
    forall op | Creates(s, t, op) ensures Resolves(op, AtEmission(s, t, op), {}) {
      hide Earlier;
      assert op == CreateIndexOp("public", IndexOver("a", "key", false));
    }
  }

  /** A column is renamed and gets an index: the index is created under the new name before the
      column has it. */
  lemma RenamedIndex()
    ensures OnlyPlanFails(OneNamed("id", false), OneNamed("key", true))
    ensures PlanStuck(OneNamed("id", false), OneNamed("key", true))
  {
    hide *;
    var s, t := OneNamed("id", false), OneNamed("key", true);
    OneNamedFacts("id", false);
    OneNamedFacts("key", true);
    RenamedExecutable();
    RenamedIndexLooks();
    RenamedIndexEmitted();
    PlanFails(s, t);
    PlanWithoutNewTables(s, t, WalkId());
    Stuck(s, t);
  }

  // ----- foreign keys

  function Plain(name: string): TableDef { OneColumn(name, map[], map[]) }

  function Referring(name: string, table: string): TableDef { OneColumn(name, map["fk" := Refers(table)], map[]) }

  /** `a` alone, and `a` with a foreign key to `b`, which has one to `c`. */
  function Alone(): SchemaDef { Public(map["a" := Plain("a")], map[]) }

  function Chained(): SchemaDef {
    Public(map["a" := Referring("a", "b"), "b" := Referring("b", "c"), "c" := Plain("c")], map[])
  }

  lemma AloneFacts()
    ensures WellFormed(Alone()) && OnlyIds(Alone())
  {
    hide TableWellFormed, OneColumn;
    OneColumnWellFormed("a", map[], map[]);
    OneColumnWalk("a", map[], map[]);
    assert OneColumn("a", map[], map[]).columns.Keys == {"id"} by { ColumnsAreIds("a", map[], map[]); }
  }

  lemma ColumnsAreIds(name: string, constraints: map<string, Constraint>, indexes: map<string, Index>)
    ensures OneColumn(name, constraints, indexes).columns.Keys == {"id"}
  {
  }

  lemma PlainFacts(name: string)
    ensures TableWellFormed(Plain(name)) && Plain(name).name == name && Plain(name).schema == "public"
    ensures Plain(name).columns.Keys == {"id"} && Plain(name).constraints == map[] && Plain(name).indexes == map[]
  {
  }

  lemma ReferringFacts(name: string, table: string)
    ensures var x := Referring(name, table);
      && TableWellFormed(x) && x.name == name && x.schema == "public" && x.columns.Keys == {"id"}
      && x.constraints == map["fk" := Refers(table)] && x.indexes == map[]
  {
  }

  lemma ChainedFacts()
    ensures WellFormed(Chained())
  {
    hide TableWellFormed, Plain, Referring;
    ReferringFacts("a", "b");
    ReferringFacts("b", "c");
    PlainFacts("c");
    var tables := Chained().schemas["public"].tables;
    assert forall n :: n in tables ==> n == "a" || n == "b" || n == "c";
  }

  lemma ChainExecutable()
    ensures Executable(Alone(), Chained())
  {
    var u, v := Alone().schemas["public"], Chained().schemas["public"];
    assert TableExecutable(u.tables["a"], v.tables["a"]);
    assert NamespaceExecutable(u, v);
  }

  lemma ChainNeeds()
    ensures IsNew(Alone(), Chained(), "public", "b") && NeedsNew(Alone(), Chained(), "public", "b", "public", "c")
  {
    var c := Chained().schemas["public"].tables["b"].constraints;
    assert "fk" in c && Execution.RefersTo(c["fk"], "public", "c");
  }

  function AddsKey(): Op { AddConstraintOp("public", "a", Refers("b")) }

  lemma ChainCreates()
    ensures Creates(Alone(), Chained(), AddsKey()) && !Shadowed(Alone(), Chained(), AddsKey())
  {
    hide Op.Key;
    forall other | Creates(Alone(), Chained(), other) ensures !Shadows(other, AddsKey()) {
      LessIrreflexive("a");
    }
  }

  lemma ChainLooks()
    ensures !CreatedBefore(Alone(), Chained(), "public", "b", AddsKey())
    ensures !ResolvesAsPlanned(Alone(), Chained(), {})
  {
    hide NeedsNew, Shadowed, Earlier, Ahead;
    var s, t, op := Alone(), Chained(), AddsKey();
    ChainNeeds();
    ChainCreates();
    assert !Free(s, t, "public", "b");
    assert AtPlan(s, t, op)("public", "b") == None;
    assert IsForeignKey(Refers("b")) && ReferencedTable(Refers("b")) == ObjectKey("public", "b", KTable);
    assert !Resolves(op, AtPlan(s, t, op), {});
  }

  lemma NewInChain(op: Op)
    requires Creates(Alone(), Chained(), op) && op.AddTableOp?
    ensures op.schema == "public" && ((op.name == "b" && op.tableDef.constraints == map["fk" := Refers("c")]) ||
      (op.name == "c" && op.tableDef.constraints == map[]))
  {
    hide OneColumn;
    ReferringFacts("b", "c");
    PlainFacts("c");
  }

  lemma ReferenceInChain(ops: seq<Op>, i: nat, j: nat)
    requires forall op :: op in ops && op.AddTableOp? ==> Creates(Alone(), Chained(), op)
    requires Cycles.References(ops, i, j)
    ensures ops[i].name == "b" && ops[j].name == "c"
  {
    hide Creates;
    NewInChain(ops[i]);
    NewInChain(ops[j]);
  }

  lemma ChainIsPlanned(walk: Walk)
    ensures exists plan :: IsPlan(DiffOps(Alone(), Chained(), walk), plan)
  {
    hide *;
    var s, t, ops := Alone(), Chained(), DiffOps(Alone(), Chained(), walk);
    AloneFacts();
    ChainedFacts();
    forall op | op in ops && op.AddTableOp? ensures Creates(s, t, op) {
      TableIsCreating(op);
      DiffCreates(s, t, walk, op);
    }
    forall p ensures !IsReferenceCycle(ops, p) { NoCycleInChain(ops, p); }
    AllAllowed(ops);
    DiffPlanningFails(s, t, walk, true);
    PlanExists(ops);
  }

  lemma TableIsCreating(op: Op)
    requires op.AddTableOp?
    ensures Creating(op)
  {
  }

  lemma NoCycleInChain(ops: seq<Op>, p: seq<nat>)
    requires forall op :: op in ops && op.AddTableOp? ==> Creates(Alone(), Chained(), op)
    ensures !IsReferenceCycle(ops, p)
  {
    hide Creates, Cycles.References;
    if IsReferenceCycle(ops, p) {
      assert Cycles.References(ops, p[0], p[0 + 1]);
      ReferenceInChain(ops, p[0], p[1]);
      if |p| > 2 {
        assert Cycles.References(ops, p[1], p[1 + 1]);
        ReferenceInChain(ops, p[1], p[2]);
      }
    }
  }

  /** The foreign key is added while its table is not there yet. */
  ghost predicate KeyComesFirst(plan: seq<Op>) {
    forall k: nat :: k < |plan| && plan[k] == AddsKey() ==>
      AddTableOp("public", "b", Referring("b", "c")) !in plan[..k]
  }

  /** A foreign key to a new table that waits for another one: the key is added first. */
  lemma ForeignKeyTooEarly()
    ensures PlanStuck(Alone(), Chained())
    ensures forall plan :: IsPlan(DiffOps(Alone(), Chained(), WalkId()), plan) ==> KeyComesFirst(plan)
  {
    hide *;
    var s, t := Alone(), Chained();
    AloneFacts();
    ChainedFacts();
    WalksIds(s);
    ChainExecutable();
    ChainNeeds();
    ChainLooks();
    ChainIsPlanned(WalkId());
    Stuck(s, t);
    forall plan | IsPlan(DiffOps(s, t, WalkId()), plan) ensures KeyComesFirst(plan) { ChainOrder(plan); }
  }

  lemma ChainOrder(plan: seq<Op>)
    requires IsPlan(DiffOps(Alone(), Chained(), WalkId()), plan)
    ensures KeyComesFirst(plan)
  {
    hide WellFormed, DiffOps, IsPlan, CreatedBefore, IsNew, Plain, Referring, Chained, Alone, AddsKey, WalkId, Allowed;
    var s, t := Alone(), Chained();
    AloneFacts();
    ChainedFacts();
    ChainNeeds();
    ChainLooks();
    ChainTable();
    KeyIsAddition();
    AllAllowed(DiffOps(s, t, WalkId()));
    forall k: nat | k < |plan| && plan[k] == AddsKey()
      ensures AddTableOp("public", "b", Referring("b", "c")) !in plan[..k]
    {
      ForeignKeysInOrder(s, t, WalkId(), true, plan, k, "public", "b");
    }
  }

  lemma ChainTable()
    ensures "public" in Chained().schemas && "b" in Chained().schemas["public"].tables
    ensures Chained().schemas["public"].tables["b"] == Referring("b", "c")
  {
  }

  lemma KeyIsAddition()
    ensures AddsKey().AddConstraintOp?
  {
  }

  // ----- what planning is for

  function TwoNew(): SchemaDef {
    Public(map["b" := Referring("b", "c"), "c" := Plain("c")], map[])
  }

  lemma TwoNewFacts()
    ensures WellFormed(TwoNew()) && OnlyIds(Empty())
  {
    hide TableWellFormed, Plain, Referring;
    ReferringFacts("b", "c");
    PlainFacts("c");
    var tables := TwoNew().schemas["public"].tables;
    assert forall n :: n in tables ==> n == "b" || n == "c";
  }

  lemma TwoNewCreates(op: Op)
    requires Creates(Empty(), TwoNew(), op)
    ensures op == AddTableOp("public", "b", Referring("b", "c")) || op == AddTableOp("public", "c", Plain("c"))
  {
    hide Referring, Plain;
  }

  lemma TwoNewEmitted()
    ensures !ResolvesAsEmitted(Empty(), TwoNew(), {})
  {
    var s, t, op := Empty(), TwoNew(), AddTableOp("public", "b", Referring("b", "c"));
    assert Creates(s, t, op);
    assert !Earlier(s, t, "public", "c", "public", "b");
    hide Earlier;
    assert AtEmission(s, t, op)("public", "c") == None;
    assert "fk" in op.tableDef.constraints && op.tableDef.constraints["fk"] == Refers("c");
    assert !ConstraintResolves(Refers("c"), op.Key(), op.tableDef.columns.Keys, AtEmission(s, t, op), {});
    assert !Resolves(op, AtEmission(s, t, op), {});
  }

  lemma TwoNewPlanned()
    ensures ResolvesAsPlanned(Empty(), TwoNew(), {}) && NoOldTables(Empty(), TwoNew()) && Executable(Empty(), TwoNew())
  {
    var s, t := Empty(), TwoNew();
    forall op | Creates(s, t, op) ensures Resolves(op, AtPlan(s, t, op), {}) {
      hide Earlier, Waits, AddedColumns, Free;
      TwoNewCreates(op);
      PlainFacts("c");
      ReferringFacts("b", "c");
      if op.name == "b" {
        assert AtPlan(s, t, op)("public", "c") == Some({"id"});
        assert SetOf(["id"]) == {"id"};
        assert ConstraintResolves(Refers("c"), op.Key(), {"id"}, AtPlan(s, t, op), {});
      }
    }
  }

  lemma TwoNewIsPlanned()
    ensures exists plan :: IsPlan(DiffOps(Empty(), TwoNew(), WalkId()), plan)
  {
    hide *;
    var s, t, ops := Empty(), TwoNew(), DiffOps(Empty(), TwoNew(), WalkId());
    EmptyFacts();
    TwoNewFacts();
    forall op | op in ops && op.AddTableOp? ensures Creates(s, t, op) {
      TableIsCreating(op);
      DiffCreates(s, t, WalkId(), op);
    }
    forall p ensures !IsReferenceCycle(ops, p) { NoCycleInTwo(ops, p); }
    AllAllowed(ops);
    DiffPlanningFails(s, t, WalkId(), true);
    PlanExists(ops);
  }

  lemma NoCycleInTwo(ops: seq<Op>, p: seq<nat>)
    requires forall op :: op in ops && op.AddTableOp? ==> Creates(Empty(), TwoNew(), op)
    ensures !IsReferenceCycle(ops, p)
  {
    hide Creates, Referring, Plain;
    ReferringFacts("b", "c");
    PlainFacts("c");
    if IsReferenceCycle(ops, p) {
      assert Cycles.References(ops, p[0], p[0 + 1]);
      assert |p| > 2 ==> Cycles.References(ops, p[1], p[1 + 1]);
      TwoNewCreates(ops[p[0]]);
      TwoNewCreates(ops[p[1]]);
    }
  }

  /** A new table that refers to a later one: as emitted the operations cannot be carried out, in a
      plan they can. */
  lemma OnlyPlanRuns()
    ensures WellFormed(Empty()) && WellFormed(TwoNew()) && Walks(WalkId(), Empty())
    ensures Execute(DiffOps(Empty(), TwoNew(), WalkId()), Empty(), {}).Fail?
    ensures exists plan :: IsPlan(DiffOps(Empty(), TwoNew(), WalkId()), plan) && Execute(plan, Empty(), {}).Ok?
  {
    hide *;
    var s, t := Empty(), TwoNew();
    EmptyFacts();
    TwoNewFacts();
    WalksIds(s);
    TwoNewEmitted();
    DiffExecutes(s, t, WalkId(), {});
    TwoNewPlanned();
    NoTableDropped(AsPlanned, s, t);
    TwoNewIsPlanned();
    var plan :| IsPlan(DiffOps(s, t, WalkId()), plan);
    PlanRuns(s, t, WalkId(), plan, {});
  }

  // ----- dropping a table that was referred to

  /** `a` with a foreign key to `b`. */
  function Pair(): SchemaDef {
    Public(map["a" := Referring("a", "b"), "b" := Plain("b")], map[])
  }

  lemma PairFacts()
    ensures WellFormed(Pair()) && OnlyIds(Pair())
  {
    hide TableWellFormed, Plain, Referring;
    ReferringFacts("a", "b");
    PlainFacts("b");
    var tables := Pair().schemas["public"].tables;
    assert forall n :: n in tables ==> n == "a" || n == "b";
  }

  lemma PairExecutable()
    ensures NoNewTables(Pair(), Alone()) && Executable(Pair(), Alone())
  {
    var u, v := Pair().schemas["public"], Alone().schemas["public"];
    assert TableExecutable(u.tables["a"], v.tables["a"]);
    assert NamespaceExecutable(u, v);
  }

  lemma PairBinds()
    ensures !DropsFreely(AsPlanned, Pair(), Alone())
  {
    var s, t := Pair(), Alone();
    assert IsOld(s, t, "public", "b");
    assert Binds(s, "public", "a", "fk", "public", "b");
    assert !Earlier(s, t, "public", "a", "public", "b");
    assert BindsThen(AsPlanned, s, t, "public", "a", "fk", "public", "b");
  }

  /** A table is dropped together with the foreign key that refers to it: the table is dropped first. */
  lemma TableDroppedFirst()
    ensures PlanStuck(Pair(), Alone())
  {
    hide *;
    PairFacts();
    AloneFacts();
    WalksIds(Pair());
    PairExecutable();
    PairBinds();
    PlanWithoutNewTables(Pair(), Alone(), WalkId());
    Stuck(Pair(), Alone());
  }

  // ----- a new table that refers to a new column

  function RefersToKey(): Constraint { Refers("a").(refColumns := ["key"]) }

  function WithKey(): TableDef {
    TableDef("public", "a", ["id", "key"], map["id" := Id(), "key" := Id().(name := "key")], None, map[], map[], false)
  }

  /** `a` has a second column, which a new table refers to. */
  function WithNewKey(): SchemaDef {
    Public(map["a" := WithKey(), "b" := OneColumn("b", map["fk" := RefersToKey()], map[])], map[])
  }

  lemma WithKeyFacts()
    ensures TableWellFormed(WithKey()) && WithKey().name == "a" && WithKey().schema == "public"
  {
  }

  lemma KeyedFacts()
    ensures WellFormed(WithNewKey())
  {
    hide TableWellFormed, OneColumn, WithKey;
    WithKeyFacts();
    OneColumnWellFormed("b", map["fk" := RefersToKey()], map[]);
    var tables := WithNewKey().schemas["public"].tables;
    assert forall n :: n in tables ==> n == "a" || n == "b";
  }

  lemma KeyedExecutable()
    ensures Executable(Alone(), WithNewKey())
  {
    var u, v := Alone().schemas["public"], WithNewKey().schemas["public"];
    assert TableExecutable(u.tables["a"], v.tables["a"]);
    assert NamespaceExecutable(u, v);
  }

  function AddsReferring(): Op { AddTableOp("public", "b", OneColumn("b", map["fk" := RefersToKey()], map[])) }

  lemma KeyedFree()
    ensures Free(Alone(), WithNewKey(), "public", "b")
  {
    var s, t := Alone(), WithNewKey();
    forall rns, rn ensures !NeedsNew(s, t, "public", "b", rns, rn) {
      assert RefersToKey().refTable == "a";
    }
  }

  lemma KeyedLooks()
    ensures !ResolvesAsPlanned(Alone(), WithNewKey(), {})
  {
    var s, t, op := Alone(), WithNewKey(), AddsReferring();
    KeyedFree();
    assert Creates(s, t, op);
    assert !Earlier(s, t, "public", "a", "public", "b");
    assert !Ahead(s, t, "public", "a", op) by { hide Free; }
    hide Free, Ahead, AddedColumns, Earlier;
    assert ColumnNames(s, "public", "a") == Some({"id"}) by {
      ColumnsAreIds("a", map[], map[]);
      assert s.schemas["public"].tables["a"] == OneColumn("a", map[], map[]);
    }
    assert {"id"} + {} == {"id"};
    assert AtPlan(s, t, op)("public", "a") == Some({"id"});
    assert "key" in SetOf(RefersToKey().refColumns);
    assert "fk" in op.tableDef.constraints && op.tableDef.constraints["fk"] == RefersToKey();
    assert !ConstraintResolves(RefersToKey(), op.Key(), op.tableDef.columns.Keys, AtPlan(s, t, op), {});
    assert !Resolves(op, AtPlan(s, t, op), {});
  }

  lemma OnlyNewIsB(op: Op)
    requires Creates(Alone(), WithNewKey(), op) && op.AddTableOp?
    ensures op.name == "b" && op.schema == "public" && op.tableDef.constraints == map["fk" := RefersToKey()]
  {
    hide WithKey;
  }

  lemma NoReferenceToA(ops: seq<Op>, p: seq<nat>)
    requires forall op :: op in ops && op.AddTableOp? ==> Creates(Alone(), WithNewKey(), op)
    ensures !IsReferenceCycle(ops, p)
  {
    hide Creates;
    if IsReferenceCycle(ops, p) {
      assert Cycles.References(ops, p[0], p[0 + 1]);
      OnlyNewIsB(ops[p[0]]);
      OnlyNewIsB(ops[p[1]]);
    }
  }

  lemma KeyedIsPlanned(walk: Walk)
    ensures exists plan :: IsPlan(DiffOps(Alone(), WithNewKey(), walk), plan)
  {
    hide *;
    var s, t, ops := Alone(), WithNewKey(), DiffOps(Alone(), WithNewKey(), walk);
    AloneFacts();
    KeyedFacts();
    forall op | op in ops && op.AddTableOp? ensures Creates(s, t, op) {
      TableIsCreating(op);
      DiffCreates(s, t, walk, op);
    }
    forall p ensures !IsReferenceCycle(ops, p) { NoReferenceToA(ops, p); }
    AllAllowed(ops);
    DiffPlanningFails(s, t, walk, true);
    PlanExists(ops);
  }

  /** A new table refers to a column that is added to an old one: the table is created first. */
  lemma TableBeforeColumn()
    ensures PlanStuck(Alone(), WithNewKey())
  {
    hide *;
    AloneFacts();
    KeyedFacts();
    WalksIds(Alone());
    KeyedExecutable();
    KeyedLooks();
    KeyedIsPlanned(WalkId());
    Stuck(Alone(), WithNewKey());
  }
}
