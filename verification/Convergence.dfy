/** Diffing, applying and diffing again: exactly when nothing is left to do after one round, and
    exactly when nothing is left after two. */
module Convergence {
  import opened Catalog
  import opened Operations
  import opened Names
  import opened Lists
  import opened DiffSpec
  import opened RenameTheory
  import opened Locality
  import opened TableEdits
  import opened Semantics
  import opened ObjectMigration
  import opened ColumnMigration
  import opened TableMigration
  import opened DiffShape
  import opened TableSteps
  import opened SchemaMigration

  // ----- the result is well-formed

  lemma CommonTableWellFormed(order: Order, s: NamespaceDef, t: NamespaceDef, n: string, u: TableDef)
    requires n in s.tables && n in t.tables && TableMigrated(order, s, t, n, u)
    requires TableWellFormed(s.tables[n]) && TableWellFormed(t.tables[n]) && s.tables[n].name == t.tables[n].name
    ensures TableWellFormed(u)
  {
    hide After, DroppedAfter, DroppedBefore, SameIndex, ConstraintChanged;
    forall i | i in u.constraints ensures u.constraints[i].name == i {
    }
    forall i | i in u.indexes ensures u.indexes[i].name == i && u.indexes[i].table == u.name {
    }
  }

  lemma CreatedWellFormed(schema: string, name: string, t: TableDef)
    requires TableWellFormed(t)
    ensures TableWellFormed(Created(schema, name, t))
  {
  }

  lemma TableDoneWellFormed(order: Order, s: NamespaceDef, t: NamespaceDef, n: string, v: Option<TableDef>)
    requires SameNamed(s, t) && TableDone(order, s, t, n, v) && v.Some?
    ensures n in t.tables && TableWellFormed(v.value) && v.value.schema == s.name && v.value.name == n
  {
    hide TableWellFormed, Created, After, AfterConstraints, AfterIndexes;
    assert Created(t.name, n, v.value).schema == t.name by { CreatedNames(t.name, n, v.value); }
    if n in s.tables {
      CommonTableWellFormed(order, s, t, n, v.value);
    } else {
      CreatedWellFormed(t.name, n, t.tables[n]);
      CreatedNames(t.name, n, t.tables[n]);
    }
  }

  lemma CreatedNames(schema: string, name: string, t: TableDef)
    ensures Created(schema, name, t).schema == schema && Created(schema, name, t).name == name
  {
  }

  lemma ObjectsWellFormed(s: NamespaceDef, t: NamespaceDef)
    requires NamespaceWellFormed(s) && NamespaceWellFormed(t)
    ensures forall n :: n in AfterTypes(s, t) ==> AfterTypes(s, t)[n].name == n
    ensures forall n :: n in AfterViews(s, t) ==> AfterViews(s, t)[n].name == n
    ensures forall n :: n in AfterSequences(s, t) ==> AfterSequences(s, t)[n].name == n
    ensures forall n :: n in AfterExtensions(s, t) ==> AfterExtensions(s, t)[n].name == n
  {
    hide TableWellFormed, SameView, SameSequence, VersionChanged, IsEnumAppend;
  }

  lemma NamespaceStaysWellFormed(order: Order, s: NamespaceDef, t: NamespaceDef, r: NamespaceDef)
    requires SameNamed(s, t) && NamespaceMigrated(order, s, t, r)
    ensures NamespaceWellFormed(r)
  {
    ObjectsWellFormed(s, t);
    hide TableWellFormed, TableDone, SameNamed, AfterTypes, AfterViews, AfterSequences, AfterExtensions;
    forall n | n in r.tables
      ensures r.tables[n].schema == r.name && r.tables[n].name == n && TableWellFormed(r.tables[n]) {
      assert Get(r.tables, n) == Some(r.tables[n]);
      TableDoneWellFormed(order, s, t, n, Get(r.tables, n));
    }
  }

  /** Migrating keeps schemas well-formed. */
  lemma MigratedWellFormed(order: Order, s: SchemaDef, t: SchemaDef, r: SchemaDef)
    requires WellFormed(s) && WellFormed(t) && Migrated(order, s, t, r)
    ensures WellFormed(r)
  {
    hide NamespaceWellFormed, NamespaceMigrated;
    forall n | n in r.schemas ensures r.schemas[n].name == n && NamespaceWellFormed(r.schemas[n]) {
      assert NamespaceDone(order, s, t, n, Get(r.schemas, n));
      if n in t.schemas {
        SourceSameNamed(s, t, n);
        NamespaceStaysWellFormed(order, SourceOf(s, n), t.schemas[n], r.schemas[n]);
        MigratedName(order, SourceOf(s, n), t.schemas[n], r.schemas[n]);
      }
    }
  }

  lemma MigratedName(order: Order, s: NamespaceDef, t: NamespaceDef, r: NamespaceDef)
    requires NamespaceMigrated(order, s, t, r)
    ensures r.name == s.name
  {
  }

  // ----- columns

  /** The two columns agree in all that the differ compares. */
  predicate SameProperties(a: Column, b: Column) {
    && a.dataType == b.dataType && a.isNullable == b.isNullable && a.defaultExpr == b.defaultExpr
    && a.collation == b.collation && a.isIdentity == b.isIdentity
    && (b.isIdentity ==> a.identityKind == b.identityKind)
  }

  lemma NothingForColumn(schema: string, table: string, a: Column, b: Column)
    ensures ColumnOps(schema, table, a, b) == [] <==> SameProperties(a, b)
  {
    var x, y, z := TypeOps(schema, table, a, b), NullOps(schema, table, a, b), DefaultOps(schema, table, a, b);
    var v, w := CollationOps(schema, table, a, b), IdentityOps(schema, table, a, b);
    assert |ColumnOps(schema, table, a, b)| == |x| + |y| + |z| + |v| + |w|;
  }

  /** The type of a column is restated, not changed, when its collation changes and the target
      gives no type; a typed source column then keeps differing. */
  predicate TypeSettles(a: Column, b: Column) {
    a.collation == b.collation || b.dataType != "" || a.dataType == ""
  }

  lemma CommonColumnSettles(a: Column, b: Column)
    ensures SameProperties(Altered(a, b), b) <==> TypeSettles(a, b)
    ensures TypeSettles(Altered(a, b), b)
  {
  }

  /** Renamed columns agree with their targets, and the types of common columns settle. */
  ghost predicate ColumnsSettle(s: TableDef, t: TableDef) {
    && (forall n :: n in s.columns && n in t.columns ==> TypeSettles(s.columns[n], t.columns[n]))
    && (forall a, b :: IsRename(s, t, a, b) ==> SameProperties(s.columns[a], t.columns[b]))
  }

  /** For columns with readable signatures and no absent default beside an empty one, agreement
      is a matter of identity. */
  lemma RenamesSettleOnIdentity(s: TableDef, t: TableDef, a: string, b: string)
    requires IsRename(s, t, a, b) && Readable(s.columns[a]) && Readable(t.columns[b])
    requires !EmptyDefaultClash(s.columns[a], t.columns[b])
    ensures SameProperties(s.columns[a], t.columns[b]) <==>
      && s.columns[a].isIdentity == t.columns[b].isIdentity
      && (t.columns[b].isIdentity ==> s.columns[a].identityKind == t.columns[b].identityKind)
  {
    SignatureRefinesCandidates(s.columns[a], t.columns[b]);
  }

  lemma AfterAgrees(s: TableDef, t: TableDef)
    ensures (forall n :: n in t.columns ==> SameProperties(AfterColumn(s, t, n), t.columns[n])) <==> ColumnsSettle(s, t)
  {
    if forall n :: n in t.columns ==> SameProperties(AfterColumn(s, t, n), t.columns[n]) {
      forall n | n in s.columns && n in t.columns ensures TypeSettles(s.columns[n], t.columns[n]) {
        CommonColumnSettles(s.columns[n], t.columns[n]);
      }
      forall a, b | IsRename(s, t, a, b) ensures SameProperties(s.columns[a], t.columns[b]) {
        AfterRename(s, t, a, b);
        assert SameProperties(AfterColumn(s, t, b), t.columns[b]);
      }
    }
    if ColumnsSettle(s, t) {
      forall n | n in t.columns ensures SameProperties(AfterColumn(s, t, n), t.columns[n]) {
        if n in s.columns { CommonColumnSettles(s.columns[n], t.columns[n]); }
      }
    }
  }

  lemma NoRenames(u: TableDef, t: TableDef)
    requires u.columns.Keys == t.columns.Keys
    ensures Renames(u, t) == [] && TargetOnly(u, t) == []
  {
    assert (set n | n in u.columns && n !in t.columns) == {};
    assert (set n | n in t.columns && n !in u.columns) == {};
    assert SourceOnly(u, t) == [];
  }

  ghost predicate AlteredNowhere(u: TableDef, t: TableDef) {
    forall n :: n in u.columns && n in t.columns ==> SameProperties(u.columns[n], t.columns[n])
  }

  lemma AlterStepEmpty(schema: string, u: TableDef, t: TableDef)
    requires TableWellFormed(t)
    ensures Flat(t.order, AlterStep(schema, u, t)) == [] <==> AlteredNowhere(u, t)
  {
    FlatEmpty(t.order, AlterStep(schema, u, t));
    hide Flat, ColumnOps, SameProperties;
    forall n | n in u.columns && n in t.columns
      ensures AlterStep(schema, u, t)(n) == [] <==> SameProperties(u.columns[n], t.columns[n])
    {
      NothingForColumn(schema, t.name, u.columns[n], t.columns[n]);
    }
  }

  /** Between tables with the same column names only alterations are possible. */
  lemma NothingForColumns(schema: string, u: TableDef, t: TableDef, walk: seq<string>)
    requires TableWellFormed(t) && u.columns.Keys == t.columns.Keys && ListsAll(walk, u.columns.Keys)
    ensures TableColumnOps(schema, u, t, walk) == [] <==> AlteredNowhere(u, t)
  {
    NoRenames(u, t);
    AlterStepEmpty(schema, u, t);
    FlatEmpty(walk, DropStep(schema, u, t, []));
    hide Renames, TargetOnly, AlterStep, AlteredNowhere, TableWellFormed;
    assert Flat([], AddStep(schema, t, [])) == [];
    assert RenameOps(schema, t.name, []) == [];
  }

  // ----- indexes

  /** No index of the table is dropped after its last creation. */
  ghost predicate IndexesSettle(order: Order, s: NamespaceDef, t: NamespaceDef, n: string)
    requires n in s.tables && n in t.tables
  {
    forall i :: i in t.tables[n].indexes ==>
      if order.AsPlanned? then !DroppedAnywhere(s, t, i)
      else
        && !DroppedAfter(s, t, n, i)
        && (i in s.tables[n].indexes && SameIndex(s.tables[n].indexes[i], t.tables[n].indexes[i]) ==>
              !DroppedBefore(s, t, n, i))
  }

  ghost predicate SameIndexes(u: TableDef, t: TableDef) {
    && u.indexes.Keys == t.indexes.Keys
    && forall i :: i in u.indexes ==> i in t.indexes && SameIndex(u.indexes[i], t.indexes[i])
  }

  lemma IndexStepsEmpty(schema: string, u: TableDef, t: TableDef)
    ensures (forall n :: n in t.indexes ==> NewIndexStep(schema, u, t)(n) == []) <==> t.indexes.Keys <= u.indexes.Keys
    ensures (forall n :: n in u.indexes ==> OldIndexStep(schema, u, t)(n) == []) <==> u.indexes.Keys <= t.indexes.Keys
    ensures (forall n :: n in t.indexes ==> ChangedIndexStep(schema, u, t)(n) == []) <==>
      forall i :: i in u.indexes && i in t.indexes ==> SameIndex(u.indexes[i], t.indexes[i])
  {
    hide SameIndex;
  }

  lemma NothingForIndexes(schema: string, u: TableDef, t: TableDef)
    ensures TableIndexOps(schema, u, t) == [] <==> SameIndexes(u, t)
  {
    IndexStepsEmpty(schema, u, t);
    FlatEmpty(Sorted(t.indexes.Keys), NewIndexStep(schema, u, t));
    FlatEmpty(Sorted(u.indexes.Keys), OldIndexStep(schema, u, t));
    FlatEmpty(Sorted(t.indexes.Keys), ChangedIndexStep(schema, u, t));
    hide SameIndex, NewIndexStep, OldIndexStep, ChangedIndexStep, Flat;
  }

  lemma AfterIndexAgrees(order: Order, s: NamespaceDef, t: NamespaceDef, n: string, i: string)
    requires n in s.tables && n in t.tables && i in t.tables[n].indexes
    ensures AfterIndex(order, s, t, n, i).Some? ==>
      SameIndex(AfterIndex(order, s, t, n, i).value, t.tables[n].indexes[i])
    ensures AfterIndex(order, s, t, n, i).Some? <==>
      if order.AsPlanned? then !DroppedAnywhere(s, t, i)
      else
        && !DroppedAfter(s, t, n, i)
        && (i in s.tables[n].indexes && SameIndex(s.tables[n].indexes[i], t.tables[n].indexes[i]) ==>
              !DroppedBefore(s, t, n, i))
  {
    if order.AsPlanned? && !DroppedAnywhere(s, t, i) {
      assert !IndexDroppedFor(s, t, n, i);
    }
  }

  lemma AfterIndexesAgree(order: Order, s: NamespaceDef, t: NamespaceDef, n: string, u: TableDef)
    requires n in s.tables && n in t.tables && u.indexes == AfterIndexes(order, s, t, n)
    ensures SameIndexes(u, t.tables[n]) <==> IndexesSettle(order, s, t, n)
    ensures forall i :: i in u.indexes ==> i in t.tables[n].indexes && SameIndex(u.indexes[i], t.tables[n].indexes[i])
  {
    hide DroppedAfter, DroppedBefore, DroppedAnywhere, SameIndex;
    forall i | i in t.tables[n].indexes
      ensures i in u.indexes ==> SameIndex(u.indexes[i], t.tables[n].indexes[i])
      ensures i in u.indexes <==>
        if order.AsPlanned? then !DroppedAnywhere(s, t, i)
        else
          && !DroppedAfter(s, t, n, i)
          && (i in s.tables[n].indexes && SameIndex(s.tables[n].indexes[i], t.tables[n].indexes[i]) ==>
                !DroppedBefore(s, t, n, i))
    {
      AfterIndexAgrees(order, s, t, n, i);
    }
  }

  // ----- tables

  /** Nothing is left to do for the table: a new one has no indexes, which ADD TABLE does not
      carry, and a common one settles. */
  ghost predicate TableSettles(order: Order, s: NamespaceDef, t: NamespaceDef, n: string)
    requires n in t.tables
  {
    if n !in s.tables then t.tables[n].indexes == map[]
    else ColumnsSettle(s.tables[n], t.tables[n]) && IndexesSettle(order, s, t, n)
  }

  lemma CommonTableSettles(order: Order, s: NamespaceDef, t: NamespaceDef, n: string, u: TableDef, walk: seq<string>)
    requires n in s.tables && n in t.tables && TableMigrated(order, s, t, n, u)
    requires TableWellFormed(t.tables[n]) && ListsAll(walk, u.columns.Keys)
    ensures CommonTableOps(t.name, u, t.tables[n], walk) == [] <==>
      ColumnsSettle(s.tables[n], t.tables[n]) && IndexesSettle(order, s, t, n)
  {
    hide TableColumnOps, TableIndexOps, TableConstraintOps, AfterConstraints, AfterIndexes, IndexesSettle, SameIndexes,
      TableWellFormed, ListsAll, AfterColumn, ColumnsSettle, SameProperties;
    assert u.columns.Keys == t.tables[n].columns.Keys;
    NothingForColumns(t.name, u, t.tables[n], walk);
    AfterAgrees(s.tables[n], t.tables[n]);
    NothingForIndexes(t.name, u, t.tables[n]);
    AfterIndexesAgree(order, s, t, n, u);
    ConstraintsSettle(t.name, s.tables[n], t.tables[n], u);
  }

  lemma UnchangedColumns(u: TableDef, t: TableDef)
    requires u.columns == t.columns
    ensures AlteredNowhere(u, t)
  {
  }

  lemma AttachedUnchanged(c: Constraint, table: string)
    ensures !ConstraintChanged(Attached(c, table), c)
  {
  }

  lemma CreatedSteps(schema: string, name: string, t: TableDef, n: string)
    ensures var u := Created(schema, name, t);
      && NewConstraintStep(schema, u, t)(n) == [] && ChangedConstraintStep(schema, u, t)(n) == []
      && OldConstraintStep(schema, u, t)(n) == []
  {
    hide ConstraintChanged, Attached;
    if n in t.constraints { AttachedUnchanged(t.constraints[n], name); }
  }

  lemma CreatedConstraints(schema: string, name: string, t: TableDef)
    ensures TableConstraintOps(schema, Created(schema, name, t), t) == []
  {
    hide Flat, NewConstraintStep, ChangedConstraintStep, OldConstraintStep, Created;
    var u := Created(schema, name, t);
    forall n ensures NewConstraintStep(schema, u, t)(n) == [] && ChangedConstraintStep(schema, u, t)(n) == [] &&
      OldConstraintStep(schema, u, t)(n) == []
    {
      CreatedSteps(schema, name, t, n);
    }
    FlatEmpty(Sorted(t.constraints.Keys), NewConstraintStep(schema, u, t));
    FlatEmpty(Sorted(t.constraints.Keys), ChangedConstraintStep(schema, u, t));
    FlatEmpty(Sorted(u.constraints.Keys), OldConstraintStep(schema, u, t));
  }

  lemma NoIndexes(u: TableDef, t: TableDef)
    requires u.indexes == map[]
    ensures SameIndexes(u, t) <==> t.indexes == map[]
  {
    assert t.indexes.Keys == {} <==> t.indexes == map[];
  }

  lemma NewTableSettles(t: NamespaceDef, n: string, walk: seq<string>)
    requires n in t.tables && TableWellFormed(t.tables[n]) && ListsAll(walk, t.tables[n].columns.Keys)
    ensures CommonTableOps(t.name, Created(t.name, n, t.tables[n]), t.tables[n], walk) == [] <==>
      t.tables[n].indexes == map[]
  {
    var u := Created(t.name, n, t.tables[n]);
    assert u.columns == t.tables[n].columns && u.indexes == map[];
    hide TableColumnOps, TableIndexOps, TableConstraintOps, Created, TableWellFormed, ListsAll, SameIndexes,
      AlteredNowhere;
    UnchangedColumns(u, t.tables[n]);
    NothingForColumns(t.name, u, t.tables[n], walk);
    NothingForIndexes(t.name, u, t.tables[n]);
    CreatedConstraints(t.name, n, t.tables[n]);
    NoIndexes(u, t.tables[n]);
  }

  /** Between the migrated namespace and its target. */
  lemma TableNowSettles(order: Order, s: NamespaceDef, t: NamespaceDef, r: NamespaceDef, walk: Walk, n: string)
    requires SameNamed(s, t) && NamespaceMigrated(order, s, t, r) && WalksNamespace(walk, r) && n in t.tables
    ensures n in r.tables && r.name == t.name
    ensures CommonTableStep(r, t, walk)(n) == [] <==> TableSettles(order, s, t, n)
  {
    hide CommonTableOps, Created, TableMigrated, TableWellFormed, ListsAll, AfterTypes, AfterViews, AfterSequences,
      AfterExtensions, ColumnsSettle, IndexesSettle;
    assert TableDone(order, s, t, n, Get(r.tables, n));
    assert TableWellFormed(t.tables[n]);
    if n in s.tables {
      CommonTableSettles(order, s, t, n, r.tables[n], walk(r.name, n));
    } else {
      assert r.tables[n].columns == t.tables[n].columns by { CreatedColumns(t.name, n, t.tables[n]); }
      NewTableSettles(t, n, walk(r.name, n));
    }
  }

  lemma CreatedColumns(schema: string, name: string, t: TableDef)
    ensures Created(schema, name, t).columns == t.columns
  {
  }

  ghost predicate TablesSettle(order: Order, s: NamespaceDef, t: NamespaceDef) {
    forall n :: n in t.tables ==> TableSettles(order, s, t, n)
  }

  lemma SameTables(order: Order, s: NamespaceDef, t: NamespaceDef, r: NamespaceDef)
    requires NamespaceMigrated(order, s, t, r)
    ensures r.tables.Keys == t.tables.Keys
  {
    hide Created, TableMigrated, AfterTypes, AfterViews, AfterSequences, AfterExtensions;
    forall n ensures n in r.tables <==> n in t.tables {
      assert TableDone(order, s, t, n, Get(r.tables, n));
    }
  }

  lemma MigratedColumns(order: Order, u: NamespaceDef, v: NamespaceDef, r: NamespaceDef, n: string)
    requires NamespaceMigrated(order, u, v, r) && n in r.tables
    ensures n in v.tables && r.tables[n].columns.Keys == v.tables[n].columns.Keys
  {
    hide AfterTypes, AfterViews, AfterSequences, AfterExtensions, AfterConstraints, AfterIndexes;
    assert TableDone(order, u, v, n, Get(r.tables, n));
  }

  lemma WholeStepsEmpty(r: NamespaceDef, t: NamespaceDef)
    requires r.tables.Keys == t.tables.Keys
    ensures Flat(Sorted(t.tables.Keys), NewTableStep(r, t)) == []
    ensures Flat(Sorted(r.tables.Keys), OldTableStep(r, t)) == []
  {
    FlatEmpty(Sorted(t.tables.Keys), NewTableStep(r, t));
    FlatEmpty(Sorted(r.tables.Keys), OldTableStep(r, t));
  }

  lemma NothingForTables(order: Order, s: NamespaceDef, t: NamespaceDef, r: NamespaceDef, walk: Walk)
    requires SameNamed(s, t) && NamespaceMigrated(order, s, t, r) && WalksNamespace(walk, r)
    ensures TablesOps(r, t, walk) == [] <==> TablesSettle(order, s, t)
  {
    hide Flat, NewTableStep, OldTableStep, CommonTableStep, TableSettles, SameNamed, NamespaceMigrated, WalksNamespace;
    SameTables(order, s, t, r);
    WholeStepsEmpty(r, t);
    FlatEmpty(Sorted(t.tables.Keys), CommonTableStep(r, t, walk));
    forall n | n in t.tables ensures CommonTableStep(r, t, walk)(n) == [] <==> TableSettles(order, s, t, n) {
      TableNowSettles(order, s, t, r, walk, n);
    }
  }

  lemma NothingForNamespace(order: Order, s: NamespaceDef, t: NamespaceDef, r: NamespaceDef, walk: Walk)
    requires SameNamed(s, t) && NamespaceMigrated(order, s, t, r) && WalksNamespace(walk, r)
    ensures NamespaceOps(r, t, walk) == [] <==> TablesSettle(order, s, t)
  {
    NothingForTables(order, s, t, r, walk);
    TypesSettle(s, t, r);
    ViewsSettle(s, t, r);
    SequencesSettle(s, t, r);
    ExtensionsSettle(s, t, r);
    hide TablesOps, TypesOps, ViewsOps, SequencesOps, ExtensionsOps, TablesSettle;
  }

  // ----- one round

  ghost predicate Settles(order: Order, s: SchemaDef, t: SchemaDef) {
    forall n :: n in t.schemas ==> TablesSettle(order, SourceOf(s, n), t.schemas[n])
  }

  lemma NamespaceStepSettles(order: Order, s: SchemaDef, t: SchemaDef, r: SchemaDef, walk: Walk, n: string)
    requires WellFormed(s) && WellFormed(t) && Migrated(order, s, t, r) && Walks(walk, r)
    ensures n in t.schemas ==>
      (TargetNamespaceStep(r, t, walk)(n) == [] <==> TablesSettle(order, SourceOf(s, n), t.schemas[n]))
    ensures OldNamespaceStep(r, t)(n) == []
  {
    MigratedWellFormed(order, s, t, r);
    assert NamespaceDone(order, s, t, n, Get(r.schemas, n));
    hide Migrated, NamespaceOps, NamespaceMigrated, TablesSettle;
    if n in t.schemas {
      SourceSameNamed(s, t, n);
      SourceWalks(r, walk, n);
      hide WellFormed, Walks, SameNamed, WalksNamespace;
      NothingForNamespace(order, SourceOf(s, n), t.schemas[n], r.schemas[n], walk);
    }
  }

  /** After one round nothing is left to do if and only if every table settles. */
  lemma OneRound(order: Order, s: SchemaDef, t: SchemaDef, r: SchemaDef, walk: Walk)
    requires WellFormed(s) && WellFormed(t) && Migrated(order, s, t, r) && Walks(walk, r)
    ensures DiffOps(r, t, walk) == [] <==> Settles(order, s, t)
  {
    hide WellFormed, Migrated, Walks, Flat, TargetNamespaceStep, OldNamespaceStep, TablesSettle;
    forall n ensures
      && (n in t.schemas ==>
        (TargetNamespaceStep(r, t, walk)(n) == [] <==> TablesSettle(order, SourceOf(s, n), t.schemas[n])))
      && OldNamespaceStep(r, t)(n) == []
    {
      NamespaceStepSettles(order, s, t, r, walk, n);
    }
    FlatEmpty(Sorted(t.schemas.Keys), TargetNamespaceStep(r, t, walk));
    FlatEmpty(Sorted(r.schemas.Keys), OldNamespaceStep(r, t));
  }

  /** Applying the differ's operations and diffing again finds nothing to do if and only if every
      table settles. */
  lemma DiffApplyDiff(s: SchemaDef, t: SchemaDef, walk: Walk, walkAgain: Walk)
    requires WellFormed(s) && WellFormed(t) && Walks(walk, s)
    ensures Apply(DiffOps(s, t, walk), s).Ok?
    ensures var r := Apply(DiffOps(s, t, walk), s).value;
      Walks(walkAgain, r) ==> (DiffOps(r, t, walkAgain) == [] <==> Settles(AsEmitted, s, t))
  {
    DiffApplies(s, t, walk);
    hide WellFormed, Walks, DiffOps, Apply, Migrated, Settles;
    var r := Apply(DiffOps(s, t, walk), s).value;
    if Walks(walkAgain, r) { OneRound(AsEmitted, s, t, r, walkAgain); }
  }

  // ----- two rounds

  /** The types of renamed columns settle; they do whenever the target's types are not empty. */
  ghost predicate RenamesSettle(s: TableDef, t: TableDef) {
    forall a, b :: IsRename(s, t, a, b) ==> TypeSettles(s.columns[a], t.columns[b])
  }

  ghost predicate NamespaceRenamesSettle(s: NamespaceDef, t: NamespaceDef) {
    forall n :: n in s.tables && n in t.tables ==> RenamesSettle(s.tables[n], t.tables[n])
  }

  ghost predicate SettlesAgain(s: SchemaDef, t: SchemaDef) {
    forall n :: n in t.schemas ==> NamespaceRenamesSettle(SourceOf(s, n), t.schemas[n])
  }

  lemma ColumnsSettleAgain(s: TableDef, t: TableDef, u: TableDef)
    requires u.columns == After(s, t)
    ensures ColumnsSettle(u, t) <==> RenamesSettle(s, t)
  {
    forall a, b ensures !IsRename(u, t, a, b) {
    }
    if RenamesSettle(s, t) {
      forall n | n in t.columns ensures TypeSettles(u.columns[n], t.columns[n]) {
        if n in s.columns { CommonColumnSettles(s.columns[n], t.columns[n]); }
      }
    }
    if ColumnsSettle(u, t) {
      forall a, b | IsRename(s, t, a, b) ensures TypeSettles(s.columns[a], t.columns[b]) {
        AfterRename(s, t, a, b);
        assert TypeSettles(u.columns[b], t.columns[b]);
      }
    }
  }

  /** The second round drops no index. */
  lemma NoDropsAgain(order: Order, s: NamespaceDef, t: NamespaceDef, r: NamespaceDef, k: string, i: string)
    requires NamespaceMigrated(order, s, t, r)
    ensures !IndexDroppedFor(r, t, k, i)
  {
    hide AfterTypes, AfterViews, AfterSequences, AfterExtensions, SameIndex, AfterIndex;
    if k in r.tables && k in t.tables {
      assert TableDone(order, s, t, k, Get(r.tables, k));
      if k in s.tables { AfterIndexesAgree(order, s, t, k, r.tables[k]); }
    }
  }

  lemma IndexesSettleAgain(order: Order, s: NamespaceDef, t: NamespaceDef, r: NamespaceDef, n: string)
    requires NamespaceMigrated(order, s, t, r) && n in r.tables && n in t.tables
    ensures IndexesSettle(order, r, t, n)
  {
    forall k, i ensures !IndexDroppedFor(r, t, k, i) { NoDropsAgain(order, s, t, r, k, i); }
    hide NamespaceMigrated, IndexDroppedFor, SameIndex;
  }

  lemma TableSettlesAgain(order: Order, s: NamespaceDef, t: NamespaceDef, r: NamespaceDef, n: string)
    requires NamespaceMigrated(order, s, t, r) && n in t.tables
    ensures TableSettles(order, r, t, n) <==> (n in s.tables ==> RenamesSettle(s.tables[n], t.tables[n]))
  {
    SameTables(order, s, t, r);
    IndexesSettleAgain(order, s, t, r, n);
    assert TableDone(order, s, t, n, Get(r.tables, n));
    hide NamespaceMigrated, IndexesSettle, AfterConstraints, AfterIndexes, After;
    if n in s.tables {
      ColumnsSettleAgain(s.tables[n], t.tables[n], r.tables[n]);
    } else {
      assert r.tables[n].columns == t.tables[n].columns;
      forall a, b ensures !IsRename(r.tables[n], t.tables[n], a, b) {
      }
    }
  }

  lemma NamespaceSettlesAgain(order: Order, s: NamespaceDef, t: NamespaceDef, r: NamespaceDef)
    requires NamespaceMigrated(order, s, t, r)
    ensures TablesSettle(order, r, t) <==> NamespaceRenamesSettle(s, t)
  {
    hide NamespaceMigrated, TableSettles, RenamesSettle;
    forall n | n in t.tables
      ensures TableSettles(order, r, t, n) <==> (n in s.tables ==> RenamesSettle(s.tables[n], t.tables[n]))
    {
      TableSettlesAgain(order, s, t, r, n);
    }
  }

  /** After one round, everything settles if and only if the types of renamed columns did. */
  lemma SettledBySecondRound(order: Order, s: SchemaDef, t: SchemaDef, r: SchemaDef)
    requires Migrated(order, s, t, r)
    ensures Settles(order, r, t) <==> SettlesAgain(s, t)
  {
    hide NamespaceMigrated, TablesSettle, NamespaceRenamesSettle;
    forall n | n in t.schemas
      ensures n in r.schemas &&
        (TablesSettle(order, r.schemas[n], t.schemas[n]) <==> NamespaceRenamesSettle(SourceOf(s, n), t.schemas[n]))
    {
      assert NamespaceDone(order, s, t, n, Get(r.schemas, n));
      NamespaceSettlesAgain(order, SourceOf(s, n), t.schemas[n], r.schemas[n]);
    }
  }

  /** Two rounds of diffing and applying leave nothing to do if and only if the types of renamed
      columns settle; in particular whenever all target columns have a type. */
  lemma TwoRounds(s: SchemaDef, t: SchemaDef, walk: Walk, walk2: Walk, walk3: Walk)
    requires WellFormed(s) && WellFormed(t) && Walks(walk, s)
    ensures Apply(DiffOps(s, t, walk), s).Ok?
    ensures var r := Apply(DiffOps(s, t, walk), s).value;
      Walks(walk2, r) ==>
        && Apply(DiffOps(r, t, walk2), r).Ok?
        && var r2 := Apply(DiffOps(r, t, walk2), r).value;
        Walks(walk3, r2) ==> (DiffOps(r2, t, walk3) == [] <==> SettlesAgain(s, t))
  {
    DiffApplies(s, t, walk);
    var r := Apply(DiffOps(s, t, walk), s).value;
    MigratedWellFormed(AsEmitted, s, t, r);
    SettledBySecondRound(AsEmitted, s, t, r);
    hide WellFormed, Walks, DiffOps, Apply, Migrated, Settles, SettlesAgain;
    if Walks(walk2, r) { DiffApplyDiff(r, t, walk2, walk3); }
  }

  /** Every column of the schema has a type. */
  ghost predicate Typed(t: SchemaDef) {
    forall ns, n, c :: ns in t.schemas && n in t.schemas[ns].tables && c in t.schemas[ns].tables[n].columns ==>
      t.schemas[ns].tables[n].columns[c].dataType != ""
  }

  lemma TypedSettles(s: SchemaDef, t: SchemaDef)
    requires Typed(t)
    ensures SettlesAgain(s, t)
  {
  }
}
