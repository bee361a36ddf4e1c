/** What the default mode does to the types of columns.  ALTER COLUMN TYPE is destructive and left
    out, but a change of collation is not, and it restates the type that the target has. */
module SafeTypes {
  import opened Catalog
  import opened Operations
  import opened Names
  import opened Lists
  import opened Planner
  import opened PlanTheorems
  import opened Cycles
  import opened DiffSpec
  import opened Locality
  import opened Semantics
  import opened DiffShape
  import opened TableSteps
  import opened SchemaMigration
  import opened PlannedDiff
  import opened Execution
  import opened SafeMode
  import opened Destruction
  import opened PlanApplies
  import F = Findings
  import X = PlanExecution
  import Resolution
  import SafeExecution

  // ----- the differ's changes of type

  lemma TypeOfColumn(schema: string, table: string, x: Column, y: Column, op: Op)
    requires op in ColumnOps(schema, table, x, y)
    ensures !Pointless(op)
  {
    assert op in TypeOps(schema, table, x, y) || op in NullOps(schema, table, x, y) ||
      op in DefaultOps(schema, table, x, y) || op in CollationOps(schema, table, x, y) ||
      op in IdentityOps(schema, table, x, y);
  }

  lemma TypeOfTable(schema: string, s: TableDef, t: TableDef, walk: seq<string>, op: Op)
    requires op in TableColumnOps(schema, s, t, walk)
    ensures !Pointless(op)
  {
    hide Flat, Renames, RenameOps, ColumnOps, TargetOnly, TargetTaken, SourceTaken;
    var pairs := Renames(s, t);
    if op in RenameOps(schema, t.name, pairs) {
      RenamesRename(schema, t.name, pairs, op);
    } else if op in Flat(TargetOnly(s, t), AddStep(schema, t, pairs)) {
      var k := FlatMember(TargetOnly(s, t), AddStep(schema, t, pairs), op);
    } else if op in Flat(walk, DropStep(schema, s, t, pairs)) {
      var k := FlatMember(walk, DropStep(schema, s, t, pairs), op);
    } else {
      var k := FlatMember(t.order, AlterStep(schema, s, t), op);
      TypeOfColumn(schema, t.name, s.columns[k], t.columns[k], op);
    }
  }

  /** The differ changes no type into itself. */
  lemma NoneIsPointless(s: SchemaDef, t: SchemaDef, walk: Walk, op: Op)
    requires WellFormed(s) && WellFormed(t) && op in DiffOps(s, t, walk)
    ensures !Pointless(op)
  {
    hide DiffOps, WellFormed, PartBlock, SourceOf, TableColumnOps;
    if op.AlterColumnTypeOp? {
      ColumnOpIsPlanned(s, t, walk, op);
      ColumnOpOfBlock(SourceOf(s, op.schema), t.schemas[op.schema], walk, op.table, op);
      var a, b := SourceOf(s, op.schema), t.schemas[op.schema];
      TypeOfTable(a.name, a.tables[op.table], b.tables[op.table], walk(a.name, op.table), op);
    }
  }

  /** Of what the differ emits, exactly the operations stay that take nothing away from any schema. */
  lemma DiffAllowedExact(s: SchemaDef, t: SchemaDef, walk: Walk, op: Op)
    requires WellFormed(s) && WellFormed(t) && op in DiffOps(s, t, walk)
    ensures op in Allowed(DiffOps(s, t, walk), false) <==> !CanLose(op)
  {
    hide DiffOps, WellFormed, CanLose, Pointless, Allowed;
    NoneIsPointless(s, t, walk, op);
    AllowedExact(DiffOps(s, t, walk), op);
  }

  // ----- the type of one column over a run

  ghost predicate HasColumn(s: SchemaDef, ns: string, table: string, c: string) {
    ns in s.schemas && table in s.schemas[ns].tables && c in s.schemas[ns].tables[table].columns
  }

  ghost function TypeAt(s: SchemaDef, ns: string, table: string, c: string): string
    requires HasColumn(s, ns, table, c)
  {
    s.schemas[ns].tables[table].columns[c].dataType
  }

  lemma TypeStep(op: Op, x: SchemaDef, ns: string, table: string, c: string)
    requires !op.IsDestructive() && AllTablesNamed(x) && HasColumn(x, ns, table, c) && ApplyOne(op, x).Ok?
    requires op.RenameColumnOp? ==> op.schema != ns || op.table != table || op.oldName != c
    ensures var y := ApplyOne(op, x).value;
      && AllTablesNamed(y) && HasColumn(y, ns, table, c)
      && TypeAt(y, ns, table, c) == if Restates(op, ns, table, c) then op.dataType else TypeAt(x, ns, table, c)
  {
    hide ApplyOne, Op.IsDestructive, KeepsTypes, KeepsViewNames;
    var y := ApplyOne(op, x).value;
    OneKeeps(op, x);
    assert KeepsNamespace(op, ns, x.schemas[ns], y.schemas[ns]);
    assert TablesNamed(x.schemas[ns].tables);
    var a, b := x.schemas[ns].tables[table], y.schemas[ns].tables[table];
    assert KeepsTable(op, ns, a, b) && a.name == table;
    var m :| Follows(op, ns, table, c, m) && m in b.columns &&
      KeepsColumn(op, ns, table, c, a.columns[c], b.columns[m]);
  }

  /** The operations rename the column nowhere, and restate its type as `dataType` only. */
  ghost predicate OnlyRestate(ops: seq<Op>, ns: string, table: string, c: string, dataType: string) {
    forall i :: 0 <= i < |ops| ==>
      && !ops[i].IsDestructive()
      && (ops[i].RenameColumnOp? ==> ops[i].schema != ns || ops[i].table != table || ops[i].oldName != c)
      && (Restates(ops[i], ns, table, c) ==> ops[i].dataType == dataType)
  }

  ghost predicate SomeRestates(ops: seq<Op>, ns: string, table: string, c: string) {
    exists i :: 0 <= i < |ops| && Restates(ops[i], ns, table, c)
  }

  lemma {:induction false} TypeOverRun(ops: seq<Op>, s: SchemaDef, ns: string, table: string, c: string,
                                       dataType: string)
    requires OnlyRestate(ops, ns, table, c, dataType) && AllTablesNamed(s) && HasColumn(s, ns, table, c)
    requires Apply(ops, s).Ok?
    ensures var r := Apply(ops, s).value;
      && AllTablesNamed(r) && HasColumn(r, ns, table, c)
      && TypeAt(r, ns, table, c) == if SomeRestates(ops, ns, table, c) then dataType else TypeAt(s, ns, table, c)
  {
    if ops == [] {
    } else {
      hide Apply, ApplyOne, AllTablesNamed, HasColumn, TypeAt, Op.IsDestructive, Restates;
      var init, op := ops[..|ops| - 1], ops[|ops| - 1];
      assert ops == init + [op];
      ApplySnoc(init, op, s);
      TypeOverRun(init, s, ns, table, c, dataType);
      TypeStep(op, Apply(init, s).value, ns, table, c);
    }
  }

  // ----- the default mode

  lemma CollationEmitted(schema: string, s: TableDef, t: TableDef, walk: seq<string>, c: string) returns (op: Op)
    requires c in s.columns && c in t.columns && c in t.order && s.columns[c].collation != t.columns[c].collation
    requires s.columns[c].name == c
    ensures op in TableColumnOps(schema, s, t, walk) && Restates(op, schema, t.name, c)
  {
    hide Flat, Renames, RenameOps, TypeOps, NullOps, DefaultOps, IdentityOps;
    var x, y := s.columns[c], t.columns[c];
    op := CollationOps(schema, t.name, x, y)[0];
    assert op in CollationOps(schema, t.name, x, y);
    assert op in AlterStep(schema, s, t)(c);
    FlatHas(t.order, AlterStep(schema, s, t), c, op);
  }

  lemma CollationInDiff(s: SchemaDef, t: SchemaDef, walk: Walk, ns: string, table: string, c: string) returns (op: Op)
    requires WellFormed(s) && WellFormed(t)
    requires IsCommon(s, t, ns, table) && HasColumn(s, ns, table, c) && HasColumn(t, ns, table, c)
    requires s.schemas[ns].tables[table].columns[c].collation != t.schemas[ns].tables[table].columns[c].collation
    ensures op in DiffOps(s, t, walk) && Restates(op, ns, table, c)
  {
    var a, b := s.schemas[ns].tables[table], t.schemas[ns].tables[table];
    TablesWellFormed(s, t, ns, table);
    ColumnsListed(a, b, c);
    hide DiffOps, WellFormed, PartBlock, TableColumnOps, Filter, TableWellFormed;
    op := CollationEmitted(ns, a, b, walk(ns, table), c);
    DiffOfTable(s, t, walk, ns, table, ColumnPart);
    OwnBlockOps(s.schemas[ns], t.schemas[ns], walk, table);
    SelectedIsThere(DiffOps(s, t, walk), OfTable(ns, table, ColumnPart), op);
  }

  lemma SelectedIsThere(ops: seq<Op>, p: Op -> bool, op: Op)
    requires op in Filter(ops, p)
    ensures op in ops
  {
  }

  lemma CollationPlanned(s: SchemaDef, t: SchemaDef, walk: Walk, plan: seq<Op>, ns: string, table: string, c: string)
    requires WellFormed(s) && WellFormed(t) && IsPlan(Allowed(DiffOps(s, t, walk), false), plan)
    requires IsCommon(s, t, ns, table) && HasColumn(s, ns, table, c) && HasColumn(t, ns, table, c)
    requires s.schemas[ns].tables[table].columns[c].collation != t.schemas[ns].tables[table].columns[c].collation
    ensures SomeRestates(plan, ns, table, c)
  {
    hide DiffOps, WellFormed, IsPlan;
    var op := CollationInDiff(s, t, walk, ns, table, c);
    InPlan(s, t, walk, plan, op);
  }

  lemma TablesWellFormed(s: SchemaDef, t: SchemaDef, ns: string, table: string)
    requires WellFormed(s) && WellFormed(t) && IsCommon(s, t, ns, table)
    ensures TableWellFormed(s.schemas[ns].tables[table]) && TableWellFormed(t.schemas[ns].tables[table])
    ensures s.schemas[ns].name == ns && t.schemas[ns].tables[table].name == table
  {
    hide TableWellFormed;
  }

  lemma ColumnsListed(a: TableDef, b: TableDef, c: string)
    requires TableWellFormed(a) && TableWellFormed(b) && c in a.columns && c in b.columns
    ensures c in b.order && a.columns[c].name == c
  {
  }

  lemma InPlan(s: SchemaDef, t: SchemaDef, walk: Walk, plan: seq<Op>, op: Op)
    requires IsPlan(Allowed(DiffOps(s, t, walk), false), plan) && op in DiffOps(s, t, walk) && !op.IsDestructive()
    ensures op in plan
  {
    hide DiffOps, IsPlan, Op.IsDestructive;
    var ops := Allowed(DiffOps(s, t, walk), false);
    FilterMember(DiffOps(s, t, walk), (x: Op) => !x.IsDestructive(), op);
    var m, n := PlanConserves(ops, plan);
    assert op in multiset(ops) && op in multiset(plan);
  }

  ghost predicate IsRestated(s: SchemaDef, t: SchemaDef, ns: string, table: string, c: string, dataType: string)
    requires HasColumn(s, ns, table, c) && HasColumn(t, ns, table, c)
  {
    && s.schemas[ns].tables[table].columns[c].collation != t.schemas[ns].tables[table].columns[c].collation
    && dataType == if TypeAt(t, ns, table, c) == "" then TypeAt(s, ns, table, c) else TypeAt(t, ns, table, c)
  }

  lemma MatchedRestates(s: SchemaDef, t: SchemaDef, op: Op, ns: string, table: string, c: string)
    requires HasColumn(s, ns, table, c) && HasColumn(t, ns, table, c) && Matched(s, t, op)
    ensures op.RenameColumnOp? ==> op.schema != ns || op.table != table || op.oldName != c
    ensures Restates(op, ns, table, c) ==> IsRestated(s, t, ns, table, c, op.dataType)
  {
    hide ChangesKind;
  }

  lemma PlanOnlyRestates(s: SchemaDef, t: SchemaDef, walk: Walk, plan: seq<Op>, ns: string, table: string, c: string)
    requires WellFormed(s) && WellFormed(t) && IsPlan(Allowed(DiffOps(s, t, walk), false), plan)
    requires HasColumn(s, ns, table, c) && HasColumn(t, ns, table, c)
    ensures OnlyRestate(plan, ns, table, c, if TypeAt(t, ns, table, c) == "" then TypeAt(s, ns, table, c)
                                            else TypeAt(t, ns, table, c))
    ensures SomeRestates(plan, ns, table, c) ==>
      s.schemas[ns].tables[table].columns[c].collation != t.schemas[ns].tables[table].columns[c].collation
  {
    hide DiffOps, WellFormed, IsPlan, Allowed, Matched, Op.IsDestructive, TypeAt;
    SafePlanFacts(s, t, walk, plan);
    forall i | 0 <= i < |plan|
      ensures plan[i].RenameColumnOp? ==>
        plan[i].schema != ns || plan[i].table != table || plan[i].oldName != c
      ensures Restates(plan[i], ns, table, c) ==> IsRestated(s, t, ns, table, c, plan[i].dataType)
    {
      assert Matched(s, t, plan[i]);
      MatchedRestates(s, t, plan[i], ns, table, c);
    }
  }

  /** In the default mode a column that both schemas have ends with the type that the target has
      exactly when its type is that already, or its collation changes and the target's type is
      given; otherwise it keeps its own. */
  lemma SafePlanTypes(s: SchemaDef, t: SchemaDef, walk: Walk, plan: seq<Op>, ns: string, table: string, c: string)
    requires WellFormed(s) && WellFormed(t) && IsPlan(Allowed(DiffOps(s, t, walk), false), plan)
    requires IsCommon(s, t, ns, table) && HasColumn(s, ns, table, c) && HasColumn(t, ns, table, c)
    requires Apply(plan, s).Ok?
    ensures var r := Apply(plan, s).value;
      var x, y := s.schemas[ns].tables[table].columns[c], t.schemas[ns].tables[table].columns[c];
      && HasColumn(r, ns, table, c)
      && TypeAt(r, ns, table, c) == if x.collation != y.collation && y.dataType != "" then y.dataType else x.dataType
  {
    hide DiffOps, WellFormed, IsPlan, Apply, OnlyRestate, SomeRestates;
    var dataType := if TypeAt(t, ns, table, c) == "" then TypeAt(s, ns, table, c) else TypeAt(t, ns, table, c);
    WellFormedIsNamed(s);
    PlanOnlyRestates(s, t, walk, plan, ns, table, c);
    TypeOverRun(plan, s, ns, table, c, dataType);
    if s.schemas[ns].tables[table].columns[c].collation != t.schemas[ns].tables[table].columns[c].collation {
      CollationPlanned(s, t, walk, plan, ns, table, c);
    }
  }

  // ----- a type that changes in the default mode

  /** One table with one column. */
  function Typed(dataType: string, collation: string): SchemaDef {
    F.Public(map["a" := TableDef("public", "a", ["id"], map["id" := TypedColumn(dataType, collation)], None, map[],
                                 map[], false)],
             map[])
  }

  function TypedColumn(dataType: string, collation: string): Column {
    Column("id", dataType, false, None, false, "", collation)
  }

  function Short(): SchemaDef { Typed("character varying(3)", "C") }

  lemma TypedFacts(dataType: string, collation: string)
    ensures WellFormed(Typed(dataType, collation)) && Walks(F.WalkId(), Typed(dataType, collation))
  {
    var t := Typed(dataType, collation).schemas["public"].tables["a"];
    assert t.columns.Keys == {"id"};
    assert TableWellFormed(t);
  }

  lemma ShortExecutable()
    ensures F.NoNewTables(Typed("text", ""), Short()) && Executable(Typed("text", ""), Short())
    ensures X.ResolvesAsPlanned(Typed("text", ""), Short(), {})
  {
    var u, v := Typed("text", "").schemas["public"], Short().schemas["public"];
    assert NamespaceExecutable(u, v);
    assert forall op :: !Resolution.Creates(Typed("text", ""), Short(), op);
  }

  /** A text column becomes shorter and gets a collation.  The default mode has a plan, which holds no
      change of type, can be carried out, and makes the column shorter all the same. */
  lemma ShortenedAnyway(plan: seq<Op>)
    requires IsPlan(Allowed(DiffOps(Typed("text", ""), Short(), F.WalkId()), false), plan)
    ensures forall op :: op in plan ==> !op.AlterColumnTypeOp?
    ensures Execute(plan, Typed("text", ""), {}).Ok?
    ensures var r := Execute(plan, Typed("text", ""), {}).value;
      HasColumn(r, "public", "a", "id") && TypeAt(r, "public", "a", "id") == "character varying(3)"
  {
    hide *;
    var s, t := Typed("text", ""), Short();
    TypedFacts("text", "");
    ShortFacts();
    ShortExecutable();
    SafeExecution.SafePlanRuns(s, t, F.WalkId(), plan, {});
    ExecuteExact(plan, s, {});
    SafePlanTypes(s, t, F.WalkId(), plan, "public", "a", "id");
    SafePlanFacts(s, t, F.WalkId(), plan);
    NoTypeChanges(plan);
  }

  lemma ShortFacts()
    ensures WellFormed(Short()) && IsCommon(Typed("text", ""), Short(), "public", "a")
    ensures HasColumn(Typed("text", ""), "public", "a", "id") && HasColumn(Short(), "public", "a", "id")
    ensures Typed("text", "").schemas["public"].tables["a"].columns["id"] == TypedColumn("text", "")
    ensures Short().schemas["public"].tables["a"].columns["id"] == TypedColumn("character varying(3)", "C")
    ensures TypedColumn("text", "").collation != TypedColumn("character varying(3)", "C").collation
    ensures TypedColumn("character varying(3)", "C").dataType == "character varying(3)" != ""
  {
    TypedFacts("character varying(3)", "C");
  }

  lemma NoTypeChanges(plan: seq<Op>)
    requires NoneDestructive(plan)
    ensures forall op :: op in plan ==> !op.AlterColumnTypeOp?
  {
  }

  lemma ShortenedPlanned()
    ensures exists plan :: IsPlan(Allowed(DiffOps(Typed("text", ""), Short(), F.WalkId()), false), plan)
  {
    hide *;
    var s, t := Typed("text", ""), Short();
    var ops := Allowed(DiffOps(s, t, F.WalkId()), false);
    TypedFacts("text", "");
    ShortFacts();
    ShortExecutable();
    F.NothingAdded(s, t, F.WalkId());
    StillNothingAdded(s, t);
    F.NoReferences(ops);
    PlanningFailsExactlyOnReferenceCycles(ops);
    PlanExists(ops);
  }

  lemma StillNothingAdded(s: SchemaDef, t: SchemaDef)
    requires forall op :: op in DiffOps(s, t, F.WalkId()) ==> !op.AddTableOp?
    ensures forall op :: op in Allowed(DiffOps(s, t, F.WalkId()), false) ==> !op.AddTableOp?
  {
    hide DiffOps;
    forall op | op in Allowed(DiffOps(s, t, F.WalkId()), false) ensures op in DiffOps(s, t, F.WalkId()) {
      SelectedIsThere(DiffOps(s, t, F.WalkId()), (x: Op) => !x.IsDestructive(), op);
    }
  }
}
