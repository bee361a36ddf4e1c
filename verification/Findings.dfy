/** Schemas on which a promise of the migration fails, and what a plan does to a replaced
    constraint when its statements are read the way the parser reads them. */
module Findings {
  import opened Catalog
  import opened Operations
  import opened Names
  import opened Lists
  import opened Dag
  import opened Planner
  import opened PlanTheorems
  import opened Cycles
  import opened DiffSpec
  import opened Locality
  import opened TableEdits
  import opened Semantics
  import opened ObjectMigration
  import opened TableMigration
  import opened DiffShape
  import opened TableSteps
  import opened SchemaMigration
  import opened PlannedDiff
  import opened Convergence
  import opened ObjectPlans
  import opened TablePlans
  import opened PlanApplies
  import opened MutationMeaning
  import opened Execution
  import opened EmissionOrder
  import opened Resolution
  import opened PlanOrder
  import opened Removal
  import opened PlanExecution
  import M = MutationSpec

  // ----- schemas without new tables have a plan

  /** Every table of the target is one of the source. */
  ghost predicate NoNewTables(s: SchemaDef, t: SchemaDef) {
    forall ns, n :: ns in t.schemas && n in t.schemas[ns].tables ==> n in SourceOf(s, ns).tables
  }

  lemma NothingAdded(s: SchemaDef, t: SchemaDef, walk: Walk)
    requires WellFormed(s) && WellFormed(t) && NoNewTables(s, t)
    ensures forall op :: op in DiffOps(s, t, walk) ==> !op.AddTableOp?
  {
    hide WellFormed, DiffOps, Creates;
    forall op | op in DiffOps(s, t, walk) ensures !op.AddTableOp? {
      if op.AddTableOp? {
        DiffCreates(s, t, walk, op);
        CreatesNew(s, t, op);
      }
    }
  }

  lemma NoReferences(ops: seq<Op>)
    requires forall op :: op in ops ==> !op.AddTableOp?
    ensures TablesAddedOnce(ops) && forall p :: !IsReferenceCycle(ops, p)
  {
    forall p ensures !IsReferenceCycle(ops, p) {
      if |p| >= 2 { assert !References(ops, p[0], p[0 + 1]); }
    }
  }

  lemma PlanWithoutNewTables(s: SchemaDef, t: SchemaDef, walk: Walk)
    requires WellFormed(s) && WellFormed(t) && NoNewTables(s, t)
    ensures exists plan :: IsPlan(DiffOps(s, t, walk), plan)
  {
    var ops := DiffOps(s, t, walk);
    NothingAdded(s, t, walk);
    hide *;
    NoReferences(ops);
    PlanningFailsExactlyOnReferenceCycles(ops);
    PlanExists(ops);
  }

  // ----- small schemas

  function Id(): Column { Column("id", "integer", false, None, false, "", "") }

  function OneColumn(name: string, constraints: map<string, Constraint>, indexes: map<string, Index>): TableDef {
    TableDef("public", name, ["id"], map["id" := Id()], None, constraints, indexes, false)
  }

  function Check(expression: string): Constraint {
    Constraint("c", "check", "CHECK (" + expression + ")", "a", [], "", "", [], expression, "", "")
  }

  function IndexOver(table: string, column: string, unique: bool): Index {
    Index("i", table, [column], [IndexElem(column, "", "", "", "", "default", "default")], unique, "btree", false,
          false, "", "", false, false)
  }

  function IndexOn(table: string, unique: bool): Index { IndexOver(table, "id", unique) }

  function Public(tables: map<string, TableDef>, views: map<string, View>): SchemaDef {
    SchemaDef(map["public" := NamespaceDef("public", tables, map[], views, map[], map[])])
  }

  function Checked(expression: string): SchemaDef {
    Public(map["a" := OneColumn("a", map["c" := Check(expression)], map[])], map[])
  }

  function WithIndexOn(unique: bool): SchemaDef {
    Public(map["a" := OneColumn("a", map[], map["i" := IndexOn("a", unique)])], map[])
  }

  function Materialized(definition: string): SchemaDef {
    Public(map[], map["v" := View("v", definition, true)])
  }

  function Empty(): SchemaDef { Public(map[], map[]) }

  /** Index `i` is on table `home`, one of two. */
  function IndexAt(home: string): SchemaDef {
    Public(map["a" := OneColumn("a", map[], if home == "a" then map["i" := IndexOn("a", false)] else map[]),
               "b" := OneColumn("b", map[], if home == "b" then map["i" := IndexOn("b", false)] else map[])], map[])
  }

  function WalkId(): Walk { (ns: string, n: string) => ["id"] }

  lemma OneColumnWellFormed(name: string, constraints: map<string, Constraint>, indexes: map<string, Index>)
    requires forall n :: n in constraints ==> constraints[n].name == n
    requires forall n :: n in indexes ==> indexes[n].name == n && indexes[n].table == name
    ensures TableWellFormed(OneColumn(name, constraints, indexes))
    ensures OneColumn(name, constraints, indexes).name == name
    ensures OneColumn(name, constraints, indexes).schema == "public"
  {
  }

  /** In emission order the operations can be carried out; planning them, the first that cannot stops
      the run. */
  ghost predicate OnlyPlanFails(s: SchemaDef, t: SchemaDef) {
    && WellFormed(s) && WellFormed(t) && Walks(WalkId(), s)
    && Execute(DiffOps(s, t, WalkId()), s, {}).Ok?
    && (exists plan :: IsPlan(DiffOps(s, t, WalkId()), plan))
    && forall plan :: IsPlan(DiffOps(s, t, WalkId()), plan) ==> Execute(plan, s, {}).Fail?
  }

  ghost predicate NoOldTables(s: SchemaDef, t: SchemaDef) {
    forall ns, n :: !IsOld(s, t, ns, n)
  }

  lemma EmissionRuns(s: SchemaDef, t: SchemaDef)
    requires WellFormed(s) && WellFormed(t) && Walks(WalkId(), s)
    requires ResolvesAsEmitted(s, t, {}) && NoOldTables(s, t)
    ensures Execute(DiffOps(s, t, WalkId()), s, {}).Ok?
  {
    assert DropsFreely(AsEmitted, s, t) by { hide IsOld, BindsThen; }
    hide *;
    DiffExecutes(s, t, WalkId(), {});
  }

  lemma PlanFails(s: SchemaDef, t: SchemaDef)
    requires WellFormed(s) && WellFormed(t) && Walks(WalkId(), s) && NoNewTables(s, t)
    requires ResolvesAsEmitted(s, t, {}) && NoOldTables(s, t)
    requires !(Executable(s, t) && ResolvesAsPlanned(s, t, {}))
    ensures OnlyPlanFails(s, t)
  {
    hide WellFormed, Walks, NoNewTables, Executable, DiffOps, Execute, IsPlan, Migrated, WalkId, ResolvesAsEmitted,
      ResolvesAsPlanned, NoOldTables, DropsFreely;
    EmissionRuns(s, t);
    PlanWithoutNewTables(s, t, WalkId());
    forall plan | IsPlan(DiffOps(s, t, WalkId()), plan) ensures Execute(plan, s, {}).Fail? {
      PlanRuns(s, t, WalkId(), plan, {});
    }
  }

  lemma CheckedFacts(expression: string)
    ensures WellFormed(Checked(expression)) && Walks(WalkId(), Checked(expression))
  {
  }

  lemma WithIndexFacts(unique: bool)
    ensures WellFormed(WithIndexOn(unique)) && Walks(WalkId(), WithIndexOn(unique))
  {
    hide TableWellFormed, OneColumn;
    OneColumnWellFormed("a", map[], map["i" := IndexOn("a", unique)]);
    OneColumnWalk("a", map[], map["i" := IndexOn("a", unique)]);
  }

  lemma OneColumnWalk(name: string, constraints: map<string, Constraint>, indexes: map<string, Index>)
    ensures ListsAll(["id"], OneColumn(name, constraints, indexes).columns.Keys)
  {
  }

  lemma ChecksResolve(before: string, after: string)
    ensures ResolvesAsEmitted(Checked(before), Checked(after), {}) && NoOldTables(Checked(before), Checked(after))
  {
    var s, t := Checked(before), Checked(after);
    forall op | Creates(s, t, op) ensures Resolves(op, AtEmission(s, t, op), {}) {
      hide ConstraintChanged, Earlier;
      assert op == AddConstraintOp("public", "a", Check(after));
    }
  }

  lemma IndexesResolve(s: SchemaDef, t: SchemaDef)
    requires s == WithIndexOn(false) && t == WithIndexOn(true)
    ensures ResolvesAsEmitted(s, t, {}) && NoOldTables(s, t)
  {
    forall op | Creates(s, t, op) ensures Resolves(op, AtEmission(s, t, op), {}) {
      hide SameIndex, Earlier;
      assert op == CreateIndexOp("public", IndexOn("a", true));
      assert IndexColumns(IndexOn("a", true)) == {"id"} by { OneElement("a", "id", true); }
    }
  }

  lemma OneElement(table: string, column: string, unique: bool)
    requires column != ""
    ensures IndexColumns(IndexOver(table, column, unique)) == {column}
  {
    var i := IndexOver(table, column, unique);
    assert ElementNames(i.elements) == [column];
  }

  lemma NothingResolves(s: SchemaDef, t: SchemaDef)
    requires s.schemas.Keys == {"public"} == t.schemas.Keys
    requires s.schemas["public"].tables == map[] == t.schemas["public"].tables
    ensures ResolvesAsEmitted(s, t, {}) && NoOldTables(s, t)
  {
    forall op ensures !Creates(s, t, op) {
    }
  }

  lemma ChecksReplace(before: string, after: string)
    requires before != after
    ensures NoNewTables(Checked(before), Checked(after)) && !Executable(Checked(before), Checked(after))
  {
    var u, v := Checked(before).schemas["public"], Checked(after).schemas["public"];
    assert ConstraintReplaced(u.tables["a"], v.tables["a"], "c");
    assert !TableExecutable(u.tables["a"], v.tables["a"]);
    assert !NamespaceExecutable(u, v);
  }

  lemma IndexesReplace()
    ensures NoNewTables(WithIndexOn(false), WithIndexOn(true)) && !Executable(WithIndexOn(false), WithIndexOn(true))
  {
    var u, v := WithIndexOn(false).schemas["public"], WithIndexOn(true).schemas["public"];
    assert IndexClash(u.tables["a"], v.tables["a"], "i");
    assert !TableExecutable(u.tables["a"], v.tables["a"]);
    assert !NamespaceExecutable(u, v);
  }

  lemma ViewsReplace(before: string, after: string)
    requires before != after
    ensures WellFormed(Materialized(before)) && WellFormed(Materialized(after)) && Walks(WalkId(), Materialized(before))
    ensures NoNewTables(Materialized(before), Materialized(after)) &&
      !Executable(Materialized(before), Materialized(after))
  {
    var u, v := Materialized(before).schemas["public"], Materialized(after).schemas["public"];
    assert ViewReplaced(u.views["v"], v.views["v"]);
    assert !NamespaceExecutable(u, v);
  }

  lemma MaterializedTables(definition: string)
    ensures var x := Materialized(definition);
      x.schemas.Keys == {"public"} && x.schemas["public"].tables == map[]
  {
  }

  /** A CHECK whose expression changes. */
  lemma ReplacedConstraint()
    ensures OnlyPlanFails(Checked("id > 0"), Checked("id > 1"))
  {
    assert "id > 0"[5] != "id > 1"[5];
    hide *;
    CheckedFacts("id > 0");
    CheckedFacts("id > 1");
    ChecksReplace("id > 0", "id > 1");
    ChecksResolve("id > 0", "id > 1");
    PlanFails(Checked("id > 0"), Checked("id > 1"));
  }

  /** An index that becomes UNIQUE. */
  lemma ReplacedIndex()
    ensures OnlyPlanFails(WithIndexOn(false), WithIndexOn(true))
  {
    hide *;
    WithIndexFacts(false);
    WithIndexFacts(true);
    IndexesReplace();
    IndexesResolve(WithIndexOn(false), WithIndexOn(true));
    PlanFails(WithIndexOn(false), WithIndexOn(true));
  }

  /** A materialized view whose definition changes. */
  lemma ReplacedView()
    ensures OnlyPlanFails(Materialized("SELECT 1"), Materialized("SELECT 2"))
  {
    assert "SELECT 1"[7] != "SELECT 2"[7];
    hide *;
    ViewsReplace("SELECT 1", "SELECT 2");
    MaterializedTables("SELECT 1");
    MaterializedTables("SELECT 2");
    NothingResolves(Materialized("SELECT 1"), Materialized("SELECT 2"));
    PlanFails(Materialized("SELECT 1"), Materialized("SELECT 2"));
  }

  // ----- one round is not enough

  /** After the operations have been applied the differ still finds something to do. */
  ghost predicate OneRoundIsNotEnough(s: SchemaDef, t: SchemaDef) {
    && WellFormed(s) && WellFormed(t) && Walks(WalkId(), s)
    && Apply(DiffOps(s, t, WalkId()), s).Ok?
    && var r := Apply(DiffOps(s, t, WalkId()), s).value;
    && Walks(WalkId(), r) && DiffOps(r, t, WalkId()) != []
  }

  /** Every column is the column `id`. */
  ghost predicate OnlyIds(t: SchemaDef) {
    forall ns, n :: ns in t.schemas && n in t.schemas[ns].tables ==> t.schemas[ns].tables[n].columns.Keys == {"id"}
  }

  lemma WalksIds(t: SchemaDef)
    requires OnlyIds(t)
    ensures Walks(WalkId(), t)
  {
  }

  lemma MigratedIds(order: Order, s: SchemaDef, t: SchemaDef, r: SchemaDef)
    requires Migrated(order, s, t, r) && OnlyIds(s) && OnlyIds(t)
    ensures OnlyIds(r)
  {
    hide NamespaceMigrated;
    forall ns, n | ns in r.schemas && n in r.schemas[ns].tables ensures r.schemas[ns].tables[n].columns.Keys == {"id"} {
      assert NamespaceDone(order, s, t, ns, Get(r.schemas, ns));
      if ns in t.schemas { MigratedColumns(order, SourceOf(s, ns), t.schemas[ns], r.schemas[ns], n); }
    }
  }

  lemma NotEnough(s: SchemaDef, t: SchemaDef)
    requires WellFormed(s) && WellFormed(t) && OnlyIds(s) && OnlyIds(t) && !Settles(AsEmitted, s, t)
    ensures OneRoundIsNotEnough(s, t)
  {
    hide WellFormed, Walks, OnlyIds, Settles, DiffOps, Apply, Migrated, WalkId;
    var walk := WalkId();
    WalksIds(s);
    DiffApplies(s, t, walk);
    var r := Apply(DiffOps(s, t, walk), s).value;
    MigratedIds(AsEmitted, s, t, r);
    WalksIds(r);
    OneRound(AsEmitted, s, t, r, walk);
  }

  lemma EmptyFacts()
    ensures WellFormed(Empty()) && OnlyIds(Empty())
  {
  }

  lemma IndexedNeverSettles(order: Order, unique: bool)
    ensures OnlyIds(WithIndexOn(unique)) && !Settles(order, Empty(), WithIndexOn(unique))
  {
    var v := WithIndexOn(unique).schemas["public"];
    assert "i" in v.tables["a"].indexes;
    assert !TableSettles(order, Empty().schemas["public"], v, "a");
    assert !TablesSettle(order, SourceOf(Empty(), "public"), v);
  }

  /** A new table with an index: the index is left for a second round. */
  lemma NewTableWithIndex()
    ensures OneRoundIsNotEnough(Empty(), WithIndexOn(false))
  {
    hide *;
    EmptyFacts();
    WithIndexFacts(false);
    IndexedNeverSettles(AsEmitted, false);
    NotEnough(Empty(), WithIndexOn(false));
  }

  lemma IndexAtWellFormed(home: string)
    ensures WellFormed(IndexAt(home))
  {
    hide TableWellFormed, OneColumn;
    var tables := IndexAt(home).schemas["public"].tables;
    OneColumnWellFormed("a", map[], if home == "a" then map["i" := IndexOn("a", false)] else map[]);
    OneColumnWellFormed("b", map[], if home == "b" then map["i" := IndexOn("b", false)] else map[]);
    assert forall n :: n in tables ==> n == "a" || n == "b";
  }

  lemma IndexAtIds(home: string)
    ensures OnlyIds(IndexAt(home))
  {
    hide IndexOn;
  }

  lemma MovedNeverSettles()
    ensures !Settles(AsEmitted, IndexAt("b"), IndexAt("a"))
  {
    var u, v := IndexAt("b").schemas["public"], IndexAt("a").schemas["public"];
    assert IndexDroppedFor(u, v, "b", "i");
    assert Less("a", "b");
    assert DroppedAfter(u, v, "a", "i");
    assert "i" in v.tables["a"].indexes;
    assert !IndexesSettle(AsEmitted, u, v, "a");
    assert !TableSettles(AsEmitted, u, v, "a");
    assert !TablesSettle(AsEmitted, SourceOf(IndexAt("b"), "public"), v);
  }

  /** An index that moves to a table with an earlier name: it is created, then dropped with the one
      it replaces.  That is so for index names per table, as in the repository; in PostgreSQL, where
      they are per schema, the creation already meets the old index. */
  lemma MovedIndex()
    ensures OneRoundIsNotEnough(IndexAt("b"), IndexAt("a"))
  {
    hide *;
    IndexAtWellFormed("a");
    IndexAtWellFormed("b");
    IndexAtIds("a");
    IndexAtIds("b");
    MovedNeverSettles();
    NotEnough(IndexAt("b"), IndexAt("a"));
  }

  // ----- a plan that leaves an index out

  function WithNewIndex(): SchemaDef {
    Public(map["a" := OneColumn("a", map[], map["i" := IndexOn("a", true).(ifNotExists := true)])], map[])
  }

  lemma NewIndexFacts()
    ensures WellFormed(WithNewIndex()) && OnlyIds(WithNewIndex())
  {
  }

  lemma WithIndexIds(unique: bool)
    ensures OnlyIds(WithIndexOn(unique))
  {
  }

  lemma NewIndexExecutable()
    ensures NoNewTables(WithIndexOn(false), WithNewIndex()) && Executable(WithIndexOn(false), WithNewIndex())
  {
    var u, v := WithIndexOn(false).schemas["public"], WithNewIndex().schemas["public"];
    assert TableExecutable(u.tables["a"], v.tables["a"]);
    assert NamespaceExecutable(u, v);
  }

  lemma NewIndexUnsettled()
    ensures !Settles(AsPlanned, WithIndexOn(false), WithNewIndex())
  {
    var u, v := WithIndexOn(false).schemas["public"], WithNewIndex().schemas["public"];
    assert IndexDroppedFor(u, v, "a", "i");
    assert DroppedAnywhere(u, v, "i");
    assert "i" in v.tables["a"].indexes;
    assert !IndexesSettle(AsPlanned, u, v, "a");
    assert !TableSettles(AsPlanned, u, v, "a");
    assert !TablesSettle(AsPlanned, SourceOf(WithIndexOn(false), "public"), v);
  }

  lemma NewIndexResolves()
    ensures ResolvesAsPlanned(WithIndexOn(false), WithNewIndex(), {})
    ensures NoOldTables(WithIndexOn(false), WithNewIndex())
  {
    var s, t := WithIndexOn(false), WithNewIndex();
    forall op | Creates(s, t, op) ensures Resolves(op, AtPlan(s, t, op), {}) {
      hide SameIndex, Earlier, Waits, AddedColumns;
      assert op == CreateIndexOp("public", IndexOn("a", true).(ifNotExists := true));
      assert IndexColumns(op.index) == {"id"} by { OneElement("a", "id", true); }
    }
  }

  lemma NoTableDropped(order: Order, s: SchemaDef, t: SchemaDef)
    requires NoOldTables(s, t)
    ensures DropsFreely(order, s, t)
  {
    hide IsOld, BindsThen;
  }

  lemma NewIndexLost(r: SchemaDef)
    requires Migrated(AsPlanned, WithIndexOn(false), WithNewIndex(), r)
    ensures "public" in r.schemas && "a" in r.schemas["public"].tables
    ensures r.schemas["public"].tables["a"].indexes == map[]
  {
    hide After, AfterTypes, AfterViews, AfterSequences, AfterExtensions, AfterConstraints;
    var s, t := WithIndexOn(false), WithNewIndex();
    var u, v := s.schemas["public"], t.schemas["public"];
    assert NamespaceDone(AsPlanned, s, t, "public", Get(r.schemas, "public"));
    assert TableDone(AsPlanned, u, v, "a", Get(r.schemas["public"].tables, "a"));
    assert IndexDroppedFor(u, v, "a", "i");
    assert DroppedAnywhere(u, v, "i");
    forall i ensures !(i in v.tables["a"].indexes && AfterIndex(AsPlanned, u, v, "a", i).Some?) {
    }
  }

  /** An index that becomes UNIQUE and says IF NOT EXISTS: its creation is skipped, then the old one
      is dropped. */
  lemma LostIndex(plan: seq<Op>)
    requires IsPlan(DiffOps(WithIndexOn(false), WithNewIndex(), WalkId()), plan)
    ensures Execute(plan, WithIndexOn(false), {}).Ok?
    ensures var r := Execute(plan, WithIndexOn(false), {}).value;
      && DiffOps(r, WithNewIndex(), WalkId()) != []
      && "public" in r.schemas && "a" in r.schemas["public"].tables
      && r.schemas["public"].tables["a"].indexes == map[]
  {
    hide *;
    var s, t := WithIndexOn(false), WithNewIndex();
    WithIndexFacts(false);
    WithIndexIds(false);
    NewIndexFacts();
    NewIndexExecutable();
    NewIndexResolves();
    NoTableDropped(AsPlanned, s, t);
    NewIndexUnsettled();
    PlanRuns(s, t, WalkId(), plan, {});
    var r := Execute(plan, s, {}).value;
    NewIndexLost(r);
    MigratedIds(AsPlanned, s, t, r);
    WalksIds(r);
    OneRound(AsPlanned, s, t, r, WalkId());
  }

  lemma LostIndexPlanned()
    ensures exists plan :: IsPlan(DiffOps(WithIndexOn(false), WithNewIndex(), WalkId()), plan)
  {
    hide *;
    WithIndexFacts(false);
    NewIndexFacts();
    NewIndexExecutable();
    PlanWithoutNewTables(WithIndexOn(false), WithNewIndex(), WalkId());
  }

  // ----- a target without a plan

  function Refers(table: string): Constraint {
    Constraint("fk", "foreign_key", "", "", ["id"], "public", table, ["id"], "", "", "")
  }

  /** Two tables that refer to each other. */
  function Mutual(): SchemaDef {
    Public(map["a" := OneColumn("a", map["fk" := Refers("b")], map[]),
      "b" := OneColumn("b", map["fk" := Refers("a")], map[])],
           map[])
  }

  lemma MutualFacts()
    ensures WellFormed(Mutual())
  {
    hide TableWellFormed, OneColumn;
    OneColumnWellFormed("a", map["fk" := Refers("b")], map[]);
    OneColumnWellFormed("b", map["fk" := Refers("a")], map[]);
    var tables := Mutual().schemas["public"].tables;
    assert forall n :: n in tables ==> n == "a" || n == "b";
  }

  lemma AddedIn(t: SchemaDef, walk: Walk, n: string) returns (i: nat)
    requires WellFormed(t) && "public" in t.schemas && n in t.schemas["public"].tables
    ensures var ops := DiffOps(Empty(), t, walk);
      i < |ops| && ops[i] == AddTableOp("public", n, t.schemas["public"].tables[n])
  {
    EmptyFacts();
    var u, v := SourceOf(Empty(), "public"), t.schemas["public"];
    var op := AddTableOp("public", n, v.tables[n]);
    SourceSameNamed(Empty(), t, "public");
    assert op in NewTableStep(u, v)(n);
    hide Filter, Flat, WellFormed, DiffOps, NewTableStep, OldTableStep, CommonTableStep, SameNamed, OneColumn;
    FlatHas(Sorted(v.tables.Keys), NewTableStep(u, v), n, op);
    DiffOfTables(Empty(), t, walk, "public");
    assert op in TablesOps(u, v, walk);
    assert op in DiffOps(Empty(), t, walk);
    i :| 0 <= i < |DiffOps(Empty(), t, walk)| && DiffOps(Empty(), t, walk)[i] == op;
  }

  lemma FirstReferences(ops: seq<Op>, i: nat, j: nat, n: string, m: string)
    requires i < |ops| && j < |ops| && n != m && m != ""
    requires ops[i] == AddTableOp("public", n, OneColumn(n, map["fk" := Refers(m)], map[]))
    requires ops[j].AddTableOp? && ops[j].schema == "public" && ops[j].name == m
    ensures References(ops, i, j)
  {
    var c := ops[i].tableDef.constraints;
    assert "fk" in c && IsForeignKey(c["fk"]);
  }

  /** The differ accepts the schemas, the planner does not. */
  lemma NoPlan(walk: Walk)
    ensures WellFormed(Empty()) && WellFormed(Mutual()) && !Plannable(DiffOps(Empty(), Mutual(), walk))
  {
    hide WellFormed, DiffOps, Plannable, OneColumn, Refers, References;
    EmptyFacts();
    MutualFacts();
    var ops := DiffOps(Empty(), Mutual(), walk);
    var i := AddedIn(Mutual(), walk, "a");
    var j := AddedIn(Mutual(), walk, "b");
    FirstReferences(ops, i, j, "a", "b");
    FirstReferences(ops, j, i, "b", "a");
    assert IsReferenceCycle(ops, [i, j, i]);
    DiffPlanningFails(Empty(), Mutual(), walk, true);
  }

  // ----- replacing a constraint, as the parser reads the statements

  lemma AddOnce(x: SchemaDef, ns: string, n: string, c: Constraint)
    requires M.HasTable(x, ns, n)
    ensures var t := M.TableAt(x, ns, n);
      M.Mutate(M.AddConstraintMutation(ns, n, c), x) ==
        M.Applied(M.Put(x, ns, n, t.(constraints := t.constraints[c.name := Attached(c, n)])), false)
  {
    hide Attached;
  }

  lemma DropOnce(x: SchemaDef, ns: string, n: string, i: string)
    requires M.HasTable(x, ns, n)
    ensures var t := M.TableAt(x, ns, n);
      M.Mutate(M.DropConstraintMutation(ns, n, i), x) ==
        M.Applied(M.Put(x, ns, n, t.(constraints := t.constraints - {i})), false)
  {
  }

  lemma TwoSteps(x: SchemaDef, a: M.Mutation, b: M.Mutation)
    ensures var y := M.Mutate(a, x); var z := M.Mutate(b, y.schema);
      M.MutateAll([a, b], x) == M.Run(z.schema, (if y.failed then [a] else []) + (if z.failed then [b] else []))
  {
    hide M.Mutate;
    M.MutateAllSnoc([], a, x);
    M.MutateAllSnoc([a], b, x);
    assert [] + [a] == [a] && [a] + [b] == [a, b];
  }

  lemma PutThere(x: SchemaDef, ns: string, n: string, t: TableDef)
    requires M.HasTable(x, ns, n)
    ensures M.HasTable(M.Put(x, ns, n, t), ns, n) && M.TableAt(M.Put(x, ns, n, t), ns, n) == t
  {
  }

  /** Both orders succeed on any schema that has the table. */
  lemma AddThenDrop(x: SchemaDef, ns: string, n: string, c: Constraint)
    requires M.HasTable(x, ns, n)
    ensures var r := M.MutateAll([M.AddConstraintMutation(ns, n, c), M.DropConstraintMutation(ns, n, c.name)], x);
      && r.errors == [] && M.HasTable(r.schema, ns, n)
      && M.TableAt(r.schema, ns, n) ==
           M.TableAt(x, ns, n).(constraints := M.TableAt(x, ns, n).constraints - {c.name})
  {
    hide M.MutateAll, M.Mutate, M.TableAt, M.Put, Attached;
    var t := M.TableAt(x, ns, n);
    var u := t.(constraints := t.constraints[c.name := Attached(c, n)]);
    TwoSteps(x, M.AddConstraintMutation(ns, n, c), M.DropConstraintMutation(ns, n, c.name));
    AddOnce(x, ns, n, c);
    PutThere(x, ns, n, u);
    DropOnce(M.Put(x, ns, n, u), ns, n, c.name);
    assert u.constraints - {c.name} == t.constraints - {c.name};
    PutThere(M.Put(x, ns, n, u), ns, n, u.(constraints := u.constraints - {c.name}));
  }

  lemma DropThenAdd(x: SchemaDef, ns: string, n: string, c: Constraint)
    requires M.HasTable(x, ns, n)
    ensures var r := M.MutateAll([M.DropConstraintMutation(ns, n, c.name), M.AddConstraintMutation(ns, n, c)], x);
      && r.errors == [] && M.HasTable(r.schema, ns, n)
      && M.TableAt(r.schema, ns, n) ==
           M.TableAt(x, ns, n).(constraints := M.TableAt(x, ns, n).constraints[c.name := Attached(c, n)])
  {
    hide M.MutateAll, M.Mutate, M.TableAt, M.Put, Attached;
    var t := M.TableAt(x, ns, n);
    var u := t.(constraints := t.constraints - {c.name});
    TwoSteps(x, M.DropConstraintMutation(ns, n, c.name), M.AddConstraintMutation(ns, n, c));
    DropOnce(x, ns, n, c.name);
    PutThere(x, ns, n, u);
    AddOnce(M.Put(x, ns, n, u), ns, n, c);
    assert u.constraints[c.name := Attached(c, n)] == t.constraints[c.name := Attached(c, n)];
    PutThere(M.Put(x, ns, n, u), ns, n, u.(constraints := u.constraints[c.name := Attached(c, n)]));
  }

  /** The mutations of operations that all have one. */
  function MutationsOf(ops: seq<Op>): seq<M.Mutation>
    requires forall op :: op in ops ==> MutationOf(op).Some?
  {
    if ops == [] then [] else
    assert forall op :: op in ops[..|ops| - 1] ==> op in ops;
    MutationsOf(ops[..|ops| - 1]) + [MutationOf(ops[|ops| - 1]).value]
  }

  lemma TwoMutations(a: Op, b: Op)
    requires MutationOf(a).Some? && MutationOf(b).Some?
    ensures MutationsOf([a, b]) == [MutationOf(a).value, MutationOf(b).value]
  {
    assert [a, b][..1] == [a] && [a][..0] == [];
    assert MutationsOf([a]) == [MutationOf(a).value];
  }

  lemma ReplacementMutations(ns: string, n: string, i: string, c: Constraint)
    ensures var add, drop := AddConstraintOp(ns, n, c), DropConstraintOp(ns, n, i);
      && MutationOf(add).Some? && MutationOf(drop).Some?
      && MutationsOf([add, drop]) == [M.AddConstraintMutation(ns, n, c), M.DropConstraintMutation(ns, n, i)]
      && MutationsOf([drop, add]) == [M.DropConstraintMutation(ns, n, i), M.AddConstraintMutation(ns, n, c)]
  {
    hide MutationsOf;
    TwoMutations(AddConstraintOp(ns, n, c), DropConstraintOp(ns, n, i));
    TwoMutations(DropConstraintOp(ns, n, i), AddConstraintOp(ns, n, c));
  }

  lemma ReplacementOps(s: SchemaDef, t: SchemaDef, walk: Walk, plan: seq<Op>, ns: string, n: string, i: string)
    requires WellFormed(s) && WellFormed(t) && IsCommon(s, t, ns, n) && IsPlan(DiffOps(s, t, walk), plan)
    requires ConstraintReplaced(s.schemas[ns].tables[n], t.schemas[ns].tables[n], i)
    ensures i in t.schemas[ns].tables[n].constraints
    ensures var c := t.schemas[ns].tables[n].constraints[i];
      && c.name == i
      && Filter(DiffOps(s, t, walk), OfConstraint(ns, n, i)) == [DropConstraintOp(ns, n, i), AddConstraintOp(ns, n, c)]
      && Filter(plan, OfConstraint(ns, n, i)) == [AddConstraintOp(ns, n, c), DropConstraintOp(ns, n, i)]
  {
    hide WellFormed, DiffOps, IsPlan, Filter, OfConstraint, ConstraintChanged, OwnConstraintOps, PlannedConstraintOps;
    CommonNames(s, t, ns, n, i);
    ReplacingOps(ns, s.schemas[ns].tables[n], t.schemas[ns].tables[n], i);
    DiffOfConstraint(s, t, walk, ns, n, i);
    PlanOfConstraint(s, t, walk, plan, ns, n, i);
  }

  lemma ReplacingOps(ns: string, a: TableDef, b: TableDef, i: string)
    requires ConstraintReplaced(a, b, i)
    ensures var add, drop := AddConstraintOp(ns, b.name, b.constraints[i]), DropConstraintOp(ns, a.name, i);
      OwnConstraintOps(ns, a, b, i) == [drop, add] && PlannedConstraintOps(ns, a, b, i) == [add, drop]
  {
    hide ConstraintChanged, OwnConstraintOps;
    OwnConstraintShape(ns, a, b, i);
  }

  lemma CommonNames(s: SchemaDef, t: SchemaDef, ns: string, n: string, i: string)
    requires WellFormed(s) && WellFormed(t) && IsCommon(s, t, ns, n) && i in t.schemas[ns].tables[n].constraints
    ensures s.schemas[ns].tables[n].name == n && t.schemas[ns].tables[n].name == n
    ensures t.schemas[ns].tables[n].constraints[i].name == i
  {
    assert TableWellFormed(t.schemas[ns].tables[n]);
  }

  /** The statements for a changed constraint, run as mutations, succeed: in emission order they
      leave the target's constraint, in a plan they leave none. */
  lemma ReplacementVanishes(s: SchemaDef, t: SchemaDef, walk: Walk, plan: seq<Op>, ns: string, n: string, i: string,
                            x: SchemaDef)
    requires WellFormed(s) && WellFormed(t) && IsCommon(s, t, ns, n) && IsPlan(DiffOps(s, t, walk), plan)
    requires ConstraintReplaced(s.schemas[ns].tables[n], t.schemas[ns].tables[n], i)
    requires M.HasTable(x, ns, n)
    ensures var emitted, planned := Filter(DiffOps(s, t, walk), OfConstraint(ns, n, i)),
      Filter(plan, OfConstraint(ns, n, i));
      && (forall op :: op in emitted || op in planned ==> MutationOf(op).Some?)
      && var e, p := M.MutateAll(MutationsOf(emitted), x), M.MutateAll(MutationsOf(planned), x);
      && e.errors == [] && p.errors == []
      && M.HasTable(e.schema, ns, n) && M.HasTable(p.schema, ns, n)
      && M.TableAt(e.schema, ns, n) == M.TableAt(x, ns, n).(constraints :=
           M.TableAt(x, ns, n).constraints[i := Attached(t.schemas[ns].tables[n].constraints[i], n)])
      && M.TableAt(p.schema, ns, n) == M.TableAt(x, ns, n).(constraints := M.TableAt(x, ns, n).constraints - {i})
  {
    hide WellFormed, DiffOps, IsPlan, Filter, OfConstraint, ConstraintChanged, Attached, M.MutateAll, M.HasTable,
      M.TableAt,
      MutationsOf, MutationOf;
    ReplacementOps(s, t, walk, plan, ns, n, i);
    var c := t.schemas[ns].tables[n].constraints[i];
    ReplacementMutations(ns, n, i, c);
    AddThenDrop(x, ns, n, c);
    DropThenAdd(x, ns, n, c);
  }
}
