/** Applying the differ's operations to the source schema: every operation applies, and this is
    what each object becomes. */
module SchemaMigration {
  import opened Catalog
  import opened Operations
  import opened Names
  import opened Lists
  import opened DiffSpec
  import opened Locality
  import opened TableEdits
  import opened Semantics
  import opened ObjectMigration
  import opened ColumnMigration
  import opened TableMigration
  import opened DiffShape
  import opened TableSteps

  // ----- tables

  /** The table both schemas have, after the operations. */
  ghost predicate TableMigrated(order: Order, s: NamespaceDef, t: NamespaceDef, n: string, u: TableDef)
    requires n in s.tables && n in t.tables
  {
    && u.schema == s.tables[n].schema && u.name == s.tables[n].name
    && u.isPlaceholder == s.tables[n].isPlaceholder
    && ColumnsWellFormed(Columns(u.order, u.columns))
    && u.columns == After(s.tables[n], t.tables[n])
    && u.constraints == AfterConstraints(s.tables[n], t.tables[n])
    && u.indexes == AfterIndexes(order, s, t, n)
  }

  ghost predicate TableDone(order: Order, s: NamespaceDef, t: NamespaceDef, n: string, v: Option<TableDef>) {
    if n !in t.tables then v.None?
    else if n !in s.tables then v == Some(Created(t.name, n, t.tables[n]))
    else v.Some? && TableMigrated(order, s, t, n, v.value)
  }

  ghost predicate AllDropIndexes(ops: seq<Op>) {
    forall op :: op in ops ==> op.DropIndexOp?
  }

  /** DROP INDEX concerns neither an absent table nor one without indexes. */
  lemma {:induction false} DropsAlone(ops: seq<Op>, v: Option<TableDef>)
    requires AllDropIndexes(ops) && (v.Some? ==> v.value.indexes == map[])
    ensures RunOne(ops, v, TableEffect()) == Ok(v)
  {
    if ops != [] {
      var init, op := ops[..|ops| - 1], ops[|ops| - 1];
      assert op in ops && forall x :: x in init ==> x in ops;
      DropsAlone(init, v);
      if v.Some? {
        var none: map<string, Index> := map[];
        assert none - {op.name} == none;
        assert EditTable(v.value, op) == Ok(v.value);
      }
    }
  }

  lemma WholeStepsAbsent(s: NamespaceDef, t: NamespaceDef, n: string)
    ensures n !in t.tables ==> NewTableStep(s, t)(n) == []
    ensures n !in s.tables ==> OldTableStep(s, t)(n) == []
    ensures n in s.tables && n in t.tables ==> NewTableStep(s, t)(n) == [] && OldTableStep(s, t)(n) == []
  {
  }

  lemma NewTableAbout(s: NamespaceDef, t: NamespaceDef, n: string)
    ensures Filter(Flat(Sorted(t.tables.Keys), NewTableStep(s, t)), AboutTable(n)) == NewTableStep(s, t)(n)
  {
    WholeStepsAbsent(s, t, n);
    SortedDistinct(Sorted(t.tables.Keys));
    hide NewTableStep, TableOf, PartOfTable, Filter, Flat, StrictlySorted;
    forall k, op | op in NewTableStep(s, t)(k) ensures AboutTable(n)(op) <==> k == n { WholeStepOut(s, t, k, op); }
    hide About, AboutTable;
    FilterFlatOne(Sorted(t.tables.Keys), NewTableStep(s, t), AboutTable(n), n);
  }

  lemma OldTableAbout(s: NamespaceDef, t: NamespaceDef, n: string)
    ensures Filter(Flat(Sorted(s.tables.Keys), OldTableStep(s, t)), AboutTable(n)) == OldTableStep(s, t)(n)
  {
    WholeStepsAbsent(s, t, n);
    SortedDistinct(Sorted(s.tables.Keys));
    hide OldTableStep, TableOf, PartOfTable, Filter, Flat, StrictlySorted;
    forall k, op | op in OldTableStep(s, t)(k) ensures AboutTable(n)(op) <==> k == n { WholeStepOut(s, t, k, op); }
    hide About, AboutTable;
    FilterFlatOne(Sorted(s.tables.Keys), OldTableStep(s, t), AboutTable(n), n);
  }

  /** What the common tables' operations do to a table that is not common. */
  lemma OthersDropIndexes(s: NamespaceDef, t: NamespaceDef, walk: Walk, n: string)
    requires SameNamed(s, t) && !(n in s.tables && n in t.tables)
    ensures AllDropIndexes(Filter(Flat(Sorted(t.tables.Keys), CommonTableStep(s, t, walk)), AboutTable(n)))
  {
    var ops := Flat(Sorted(t.tables.Keys), CommonTableStep(s, t, walk));
    assert CommonTableStep(s, t, walk)(n) == [] by { hide CommonTableOps; }
    hide Flat, CommonTableStep, TableOf, PartOf, PartOfTable, SameNamed;
    forall op | op in Filter(ops, AboutTable(n)) ensures op.DropIndexOp? {
      assert op in ops && AboutTable(n)(op);
      var k := FlatMember(Sorted(t.tables.Keys), CommonTableStep(s, t, walk), op);
      CommonStepHome(s, t, walk, k);
      assert ChangesTable(t.name, k)(op);
    }
  }

  lemma AboutOneTable(s: NamespaceDef, t: NamespaceDef, walk: Walk, n: string) returns (rest: seq<Op>)
    requires SameNamed(s, t) && !(n in s.tables && n in t.tables)
    ensures Filter(TablesOps(s, t, walk), AboutTable(n)) == NewTableStep(s, t)(n) + OldTableStep(s, t)(n) + rest
    ensures AllDropIndexes(rest)
  {
    rest := Filter(Flat(Sorted(t.tables.Keys), CommonTableStep(s, t, walk)), AboutTable(n));
    OthersDropIndexes(s, t, walk, n);
    hide Filter, Flat, NewTableStep, OldTableStep, CommonTableStep, SameNamed, AllDropIndexes;
    NewTableAbout(s, t, n);
    OldTableAbout(s, t, n);
    FilterThree(Flat(Sorted(t.tables.Keys), NewTableStep(s, t)), Flat(Sorted(s.tables.Keys), OldTableStep(s, t)),
                Flat(Sorted(t.tables.Keys), CommonTableStep(s, t, walk)), AboutTable(n));
  }

  lemma WholeTableRuns(s: NamespaceDef, t: NamespaceDef, n: string)
    requires !(n in s.tables && n in t.tables)
    ensures RunOne(NewTableStep(s, t)(n) + OldTableStep(s, t)(n), Get(s.tables, n), TableEffect()) ==
      Ok(if n in t.tables then Some(Created(t.name, n, t.tables[n])) else None)
  {
    hide RunOne, EditTable, Created;
    if n in t.tables {
      var add := AddTableOp(t.name, n, t.tables[n]);
      RunTwo(add, add, None, TableEffect());
      assert [add] + [] == [add];
    } else if n in s.tables {
      var drop := DropTableOp(s.name, n);
      RunTwo(drop, drop, Some(s.tables[n]), TableEffect());
      assert [] + [drop] == [drop];
    } else {
      var drop := DropTableOp(s.name, n);
      RunTwo(drop, drop, None, TableEffect());
      var none: seq<Op> := [];
      assert none + none == none;
    }
  }

  lemma WholeTableDone(s: NamespaceDef, t: NamespaceDef, walk: Walk, n: string)
    requires SameNamed(s, t) && !(n in s.tables && n in t.tables)
    ensures var r := RunOne(Filter(TablesOps(s, t, walk), AboutTable(n)), Get(s.tables, n), TableEffect());
      r.Ok? && TableDone(AsEmitted, s, t, n, r.value)
  {
    var rest := AboutOneTable(s, t, walk, n);
    WholeTableRuns(s, t, n);
    var v := if n in t.tables then Some(Created(t.name, n, t.tables[n])) else None;
    hide RunOne, TableEffect, Filter, TablesOps, NewTableStep, OldTableStep, SameNamed;
    DropsAlone(rest, v);
    RunOneConcat(NewTableStep(s, t)(n) + OldTableStep(s, t)(n), rest, Get(s.tables, n), TableEffect());
  }

  // ----- common tables

  lemma CommonInside(s: NamespaceDef, t: NamespaceDef, walk: Walk, n: string)
    requires SameNamed(s, t) && n in s.tables && n in t.tables
    ensures InsideTable(Filter(TablesOps(s, t, walk), AboutTable(n)))
  {
    var ops := Filter(TablesOps(s, t, walk), AboutTable(n));
    WholeStepsAbsent(s, t, n);
    hide NewTableStep, OldTableStep, CommonTableStep, TableOf, PartOf, PartOfTable, SameNamed, Flat;
    forall op | op in ops ensures PartOfTable(op) != WholeTable {
      assert op in TablesOps(s, t, walk) && AboutTable(n)(op);
      if op in Flat(Sorted(t.tables.Keys), NewTableStep(s, t)) {
        var k := FlatMember(Sorted(t.tables.Keys), NewTableStep(s, t), op);
        WholeStepOut(s, t, k, op);
      } else if op in Flat(Sorted(s.tables.Keys), OldTableStep(s, t)) {
        var k := FlatMember(Sorted(s.tables.Keys), OldTableStep(s, t), op);
        WholeStepOut(s, t, k, op);
      } else {
        var k := FlatMember(Sorted(t.tables.Keys), CommonTableStep(s, t, walk), op);
        CommonStepHome(s, t, walk, k);
        assert ChangesTable(t.name, k)(op);
      }
    }
  }

  lemma OwnBlockOps(s: NamespaceDef, t: NamespaceDef, walk: Walk, n: string)
    requires n in s.tables && n in t.tables
    ensures PartBlock(s, t, walk, n, ColumnPart)(n) ==
      TableColumnOps(s.name, s.tables[n], t.tables[n], walk(s.name, n))
    ensures PartBlock(s, t, walk, n, ConstraintPart)(n) == TableConstraintOps(s.name, s.tables[n], t.tables[n])
  {
    hide TableColumnOps, TableConstraintOps;
  }

  lemma TablesWellFormed(s: NamespaceDef, t: NamespaceDef, n: string)
    requires SameNamed(s, t) && n in s.tables && n in t.tables
    ensures TableWellFormed(s.tables[n]) && TableWellFormed(t.tables[n])
    ensures s.tables[n].name == n && t.tables[n].name == n
  {
    hide TableWellFormed;
  }

  lemma CommonColumnsRun(s: NamespaceDef, t: NamespaceDef, walk: Walk, n: string)
    requires SameNamed(s, t) && n in s.tables && n in t.tables
    requires ListsAll(walk(s.name, n), s.tables[n].columns.Keys)
    ensures var c := RunColumnPart(Filter(TablesOps(s, t, walk), AboutTable(n)), s.tables[n]);
      c.Ok? && c.value.byName == After(s.tables[n], t.tables[n]) && ColumnsWellFormed(c.value)
  {
    hide TablesOps, PartBlock, TableColumnOps, Filter, RunColumns, After, ListsAll, ColumnsWellFormed;
    var ops := TablesOps(s, t, walk);
    AboutThenPart(ops, n, ColumnPart);
    OwnPart(s, t, walk, n, ColumnPart);
    OwnBlockOps(s, t, walk, n);
    TablesWellFormed(s, t, n);
    hide SameNamed, Filter, TablesOps, PartBlock, TableColumnOps, RunColumns, After, ColumnsWellFormed,
      TableWellFormed, ListsAll;
    EmittedColumns(s.name, s.tables[n], t.tables[n], walk(s.name, n));
  }

  lemma CommonConstraintsRun(s: NamespaceDef, t: NamespaceDef, walk: Walk, n: string)
    requires SameNamed(s, t) && n in s.tables && n in t.tables
    ensures RunConstraintPart(Filter(TablesOps(s, t, walk), AboutTable(n)), s.tables[n]) ==
      Ok(AfterConstraints(s.tables[n], t.tables[n]))
  {
    hide TablesOps, PartBlock, TableConstraintOps, Filter, Run, AfterConstraints;
    var ops := TablesOps(s, t, walk);
    AboutThenPart(ops, n, ConstraintPart);
    OwnPart(s, t, walk, n, ConstraintPart);
    OwnBlockOps(s, t, walk, n);
    TablesWellFormed(s, t, n);
    hide SameNamed, Filter, TablesOps, PartBlock, TableConstraintOps, Run, AfterConstraints;
    ConstraintsRun(s.name, s.tables[n], t.tables[n]);
  }

  lemma CommonIndexRuns(s: NamespaceDef, t: NamespaceDef, walk: Walk, n: string, i: string)
    requires SameNamed(s, t) && n in s.tables && n in t.tables
    ensures RunOne(Filter(Filter(Filter(TablesOps(s, t, walk), AboutTable(n)), InTablePart(IndexPart)), AboutIndex(i)),
                   Get(s.tables[n].indexes, i), IndexEffect()) == Ok(Get(AfterIndexes(AsEmitted, s, t, n), i))
  {
    hide Filter, TablesOps, AfterIndexes, RunOne, Flat, SameNamed;
    AboutThenPart(TablesOps(s, t, walk), n, IndexPart);
    TablesIndexAbout(s, t, walk, n, i);
    AroundIndex(s, t, n, i);
  }

  lemma CommonIndexesRun(s: NamespaceDef, t: NamespaceDef, walk: Walk, n: string)
    requires SameNamed(s, t) && n in s.tables && n in t.tables
    ensures RunIndexPart(Filter(TablesOps(s, t, walk), AboutTable(n)), s.tables[n]) ==
      Ok(AfterIndexes(AsEmitted, s, t, n))
  {
    EffectsTame();
    hide Filter, TablesOps, AfterIndexes, RunOne, Run, IndexEffect, SameNamed;
    var ops := Filter(Filter(TablesOps(s, t, walk), AboutTable(n)), InTablePart(IndexPart));
    forall i ensures RunOne(Filter(ops, About(IndexName(), NoBroadcast(), i)), Get(s.tables[n].indexes, i),
      IndexEffect()) ==
      Ok(Get(AfterIndexes(AsEmitted, s, t, n), i))
    {
      CommonIndexRuns(s, t, walk, n, i);
    }
    RunByName(ops, s.tables[n].indexes, IndexName(), NoBroadcast(), IndexEffect(), AfterIndexes(AsEmitted, s, t, n));
  }

  lemma CommonTableDone(s: NamespaceDef, t: NamespaceDef, walk: Walk, n: string)
    requires SameNamed(s, t) && n in s.tables && n in t.tables
    requires ListsAll(walk(s.name, n), s.tables[n].columns.Keys)
    ensures var r := RunOne(Filter(TablesOps(s, t, walk), AboutTable(n)), Get(s.tables, n), TableEffect());
      r.Ok? && TableDone(AsEmitted, s, t, n, r.value)
  {
    hide Filter, TablesOps, RunOne, After, AfterConstraints, AfterIndexes, RunColumnPart, RunConstraintPart,
      RunIndexPart, SameNamed, InsideTable, ColumnsWellFormed, TableEffect;
    var ops := Filter(TablesOps(s, t, walk), AboutTable(n));
    CommonInside(s, t, walk, n);
    TableSplits(ops, s.tables[n]);
    CommonColumnsRun(s, t, walk, n);
    CommonConstraintsRun(s, t, walk, n);
    CommonIndexesRun(s, t, walk, n);
  }

  ghost predicate WalksNamespace(walk: Walk, s: NamespaceDef) {
    forall n :: n in s.tables ==> ListsAll(walk(s.name, n), s.tables[n].columns.Keys)
  }

  lemma TablesRun(s: NamespaceDef, t: NamespaceDef, walk: Walk)
    requires SameNamed(s, t) && WalksNamespace(walk, s)
    ensures var r := Run(TablesOps(s, t, walk), s.tables, TableName(), IsDropIndex(), TableEffect());
      r.Ok? && forall n :: TableDone(AsEmitted, s, t, n, Get(r.value, n))
  {
    EffectsTame();
    var ops := TablesOps(s, t, walk);
    hide Filter, TablesOps, RunOne, Run, TableEffect, SameNamed, TableDone;
    forall n ensures var r := RunOne(Filter(ops, About(TableName(), IsDropIndex(), n)), Get(s.tables, n),
      TableEffect());
      r.Ok? && TableDone(AsEmitted, s, t, n, r.value)
    {
      if n in s.tables && n in t.tables { CommonTableDone(s, t, walk, n); } else { WholeTableDone(s, t, walk, n); }
    }
    RunSucceeds(ops, s.tables, TableName(), IsDropIndex(), TableEffect());
    var m := Run(ops, s.tables, TableName(), IsDropIndex(), TableEffect()).value;
    forall n ensures TableDone(AsEmitted, s, t, n, Get(m, n)) {
      RunIsLocal(ops, s.tables, TableName(), IsDropIndex(), TableEffect(), n);
    }
  }

  // ----- namespaces

  ghost predicate NamespaceMigrated(order: Order, s: NamespaceDef, t: NamespaceDef, r: NamespaceDef) {
    && r.name == s.name
    && (forall n :: TableDone(order, s, t, n, Get(r.tables, n)))
    && r.types == AfterTypes(s, t)
    && r.views == AfterViews(s, t)
    && r.sequences == AfterSequences(s, t)
    && r.extensions == AfterExtensions(s, t)
  }

  lemma NamesOfParts(ns: NamespaceDef)
    requires NamespaceWellFormed(ns)
    ensures ViewsNamed(ns) && SequencesNamed(ns) && ExtensionsNamed(ns)
  {
  }

  lemma NamespaceTypesRun(s: NamespaceDef, t: NamespaceDef, walk: Walk)
    requires SameNamed(s, t)
    ensures RunTypes(NamespaceOps(s, t, walk), s.types) == Ok(AfterTypes(s, t))
  {
    NamesOfParts(s);
    NamesOfParts(t);
    hide SameNamed, NamespaceOps, Filter, Run, AfterTypes, TablesOps, TypesOps, ViewsOps, SequencesOps, ExtensionsOps,
      ViewsNamed, SequencesNamed, ExtensionsNamed;
    NamespaceParts(s, t, walk, Types);
    TypesRun(s, t);
  }

  lemma NamespaceViewsRun(s: NamespaceDef, t: NamespaceDef, walk: Walk)
    requires SameNamed(s, t)
    ensures RunViews(NamespaceOps(s, t, walk), s.views) == Ok(AfterViews(s, t))
  {
    NamesOfParts(s);
    NamesOfParts(t);
    hide SameNamed, NamespaceOps, Filter, Run, AfterViews, TablesOps, TypesOps, ViewsOps, SequencesOps, ExtensionsOps,
      ViewsNamed, SequencesNamed, ExtensionsNamed;
    NamespaceParts(s, t, walk, Views);
    ViewsRun(s, t);
  }

  lemma NamespaceSequencesRun(s: NamespaceDef, t: NamespaceDef, walk: Walk)
    requires SameNamed(s, t)
    ensures RunSequences(NamespaceOps(s, t, walk), s.sequences) == Ok(AfterSequences(s, t))
  {
    NamesOfParts(s);
    NamesOfParts(t);
    hide SameNamed, NamespaceOps, Filter, Run, AfterSequences, TablesOps, TypesOps, ViewsOps, SequencesOps,
      ExtensionsOps,
      ViewsNamed, SequencesNamed, ExtensionsNamed;
    NamespaceParts(s, t, walk, Sequences);
    SequencesRun(s, t);
  }

  lemma NamespaceExtensionsRun(s: NamespaceDef, t: NamespaceDef, walk: Walk)
    requires SameNamed(s, t)
    ensures RunExtensions(NamespaceOps(s, t, walk), s.extensions) == Ok(AfterExtensions(s, t))
  {
    NamesOfParts(s);
    NamesOfParts(t);
    hide SameNamed, NamespaceOps, Filter, Run, AfterExtensions, TablesOps, TypesOps, ViewsOps, SequencesOps,
      ExtensionsOps,
      ViewsNamed, SequencesNamed, ExtensionsNamed;
    NamespaceParts(s, t, walk, Extensions);
    ExtensionsRun(s, t);
  }

  lemma NamespaceTablesRun(s: NamespaceDef, t: NamespaceDef, walk: Walk)
    requires SameNamed(s, t) && WalksNamespace(walk, s)
    ensures var r := RunTables(NamespaceOps(s, t, walk), s.tables);
      r.Ok? && forall n :: TableDone(AsEmitted, s, t, n, Get(r.value, n))
  {
    hide SameNamed, WalksNamespace, NamespaceOps, Filter, Run, TableDone, TablesOps;
    NamespaceParts(s, t, walk, Tables);
    TablesRun(s, t, walk);
  }

  lemma NamespaceRuns(s: NamespaceDef, t: NamespaceDef, walk: Walk)
    requires SameNamed(s, t) && WalksNamespace(walk, s)
    ensures var r := RunOne(NamespaceOps(s, t, walk), Some(s), NamespaceEffect());
      r.Ok? && r.value.Some? && NamespaceMigrated(AsEmitted, s, t, r.value.value)
  {
    hide SameNamed, WalksNamespace, NamespaceOps, RunOne, NamespaceEffect, TableDone, AfterTypes, AfterViews,
      AfterSequences, AfterExtensions, Inside, OfNamespace, AllOf, RunTables, RunTypes, RunViews, RunSequences,
        RunExtensions;
    var ops := NamespaceOps(s, t, walk);
    NamespaceHome(s, t, walk);
    NamespaceInside(ops, t.name);
    NamespaceSplits(ops, s);
    NamespaceTablesRun(s, t, walk);
    NamespaceTypesRun(s, t, walk);
    NamespaceViewsRun(s, t, walk);
    NamespaceSequencesRun(s, t, walk);
    NamespaceExtensionsRun(s, t, walk);
  }

  // ----- the whole schema

  ghost predicate Migrated(order: Order, s: SchemaDef, t: SchemaDef, r: SchemaDef) {
    forall n :: NamespaceDone(order, s, t, n, Get(r.schemas, n))
  }

  /** A namespace of the target is what its source becomes; of the others only `public` is left. */
  ghost predicate NamespaceDone(order: Order, s: SchemaDef, t: SchemaDef, n: string, v: Option<NamespaceDef>) {
    if n in t.schemas then v.Some? && NamespaceMigrated(order, SourceOf(s, n), t.schemas[n], v.value)
    else v == if n == "public" then Get(s.schemas, n) else None
  }

  lemma SourceWalks(s: SchemaDef, walk: Walk, n: string)
    requires WellFormed(s) && Walks(walk, s)
    ensures WalksNamespace(walk, SourceOf(s, n))
  {
  }

  lemma SchemaNamespaceDone(s: SchemaDef, t: SchemaDef, walk: Walk, n: string)
    requires WellFormed(s) && WellFormed(t) && Walks(walk, s)
    ensures var r := RunOne(TargetNamespaceStep(s, t, walk)(n) + OldNamespaceStep(s, t)(n), Get(s.schemas, n),
      NamespaceEffect());
      r.Ok? && NamespaceDone(AsEmitted, s, t, n, r.value)
  {
    hide RunOne, NamespaceOps, NamespaceMigrated, EditNamespace;
    if n in t.schemas {
      SourceSameNamed(s, t, n);
      SourceWalks(s, walk, n);
      hide WellFormed, Walks, SameNamed, WalksNamespace;
      var u := SourceOf(s, n);
      var ops := NamespaceOps(u, t.schemas[n], walk);
      NamespaceRuns(u, t.schemas[n], walk);
      if n in s.schemas {
        assert ops + [] == ops;
      } else {
        var create := CreateSchemaOp(n);
        RunTwo(create, create, None, NamespaceEffect());
        RunOneConcat([create], ops, None, NamespaceEffect());
        assert [create] + ops + [] == [create] + ops;
      }
    } else {
      var drop := DropSchemaOp(n);
      RunTwo(drop, drop, Get(s.schemas, n), NamespaceEffect());
      var none: seq<Op> := [];
      assert none + none == none && [] + [drop] == [drop];
    }
  }

  /** For all well-formed schemas, every operation of the differ applies in emission order, and
      the result is the one described. */
  lemma DiffApplies(s: SchemaDef, t: SchemaDef, walk: Walk)
    requires WellFormed(s) && WellFormed(t) && Walks(walk, s)
    ensures var r := Apply(DiffOps(s, t, walk), s); r.Ok? && Migrated(AsEmitted, s, t, r.value)
  {
    EffectsTame();
    var ops := DiffOps(s, t, walk);
    hide WellFormed, Walks, DiffOps, RunOne, Run, NamespaceEffect, Filter, TargetNamespaceStep, OldNamespaceStep,
      NamespaceDone;
    forall n ensures var r := RunOne(Filter(ops, About(SchemaName(), NoBroadcast(), n)), Get(s.schemas, n),
      NamespaceEffect());
      r.Ok? && NamespaceDone(AsEmitted, s, t, n, r.value)
    {
      SchemaOps(s, t, walk, n);
      SchemaNamespaceDone(s, t, walk, n);
    }
    RunSucceeds(ops, s.schemas, SchemaName(), NoBroadcast(), NamespaceEffect());
    var m := Run(ops, s.schemas, SchemaName(), NoBroadcast(), NamespaceEffect()).value;
    forall n ensures NamespaceDone(AsEmitted, s, t, n, Get(m, n)) {
      RunIsLocal(ops, s.schemas, SchemaName(), NoBroadcast(), NamespaceEffect(), n);
    }
  }
}
