/** When two schemas agree, told field by field and without the differ's own comparisons: exactly when
    it finds nothing to do.  And what a migration reaches, told in the same way. */
module Agreement {
  import opened Catalog
  import opened Operations
  import opened Names
  import opened Lists
  import opened DiffSpec
  import opened RenameTheory
  import opened Locality
  import opened TableEdits
  import opened Semantics
  import opened ColumnMigration
  import opened TableMigration
  import opened ObjectMigration
  import opened DiffShape
  import opened TableSteps
  import opened SchemaMigration
  import opened Convergence
  import opened Planner
  import opened Execution
  import opened PlanExecution

  // ----- agreement

  /** Same kind and columns; for a foreign key the same reference and actions; for a CHECK the same
      expression. */
  predicate ConstraintsAgree(c: Constraint, d: Constraint) {
    && (c.kind, c.columns) == (d.kind, d.columns)
    && match d.kind
       case "foreign_key" =>
         (c.refSchema, c.refTable, c.refColumns, c.onDelete, c.onUpdate) ==
         (d.refSchema, d.refTable, d.refColumns, d.onDelete, d.onUpdate)
       case "check" => c.expression == d.expression
       case _ => true
  }

  predicate IndexesAgree(i: Index, j: Index) {
    (i.unique, i.accessMethod, i.whereClause, i.elements) == (j.unique, j.accessMethod, j.whereClause, j.elements)
  }

  /** The same type, nullability, default and collation, and the same identity if there is one. */
  predicate ColumnsAgree(x: Column, y: Column) {
    && (x.dataType, x.isNullable, x.defaultExpr, x.collation) == (y.dataType, y.isNullable, y.defaultExpr, y.collation)
    && (if y.isIdentity then x.isIdentity && x.identityKind == y.identityKind else !x.isIdentity)
  }

  ghost predicate TablesAgree(a: TableDef, b: TableDef) {
    && a.columns.Keys == b.columns.Keys
    && a.indexes.Keys == b.indexes.Keys
    && a.constraints.Keys == b.constraints.Keys
    && (forall n :: n in a.columns && n in b.columns ==> ColumnsAgree(a.columns[n], b.columns[n]))
    && (forall i :: i in a.indexes && i in b.indexes ==> IndexesAgree(a.indexes[i], b.indexes[i]))
    && (forall i :: i in a.constraints && i in b.constraints ==> ConstraintsAgree(a.constraints[i], b.constraints[i]))
  }

  ghost predicate AllTablesAgree(a: NamespaceDef, b: NamespaceDef) {
    && a.tables.Keys == b.tables.Keys
    && forall n :: n in a.tables && n in b.tables ==> TablesAgree(a.tables[n], b.tables[n])
  }

  /** The same objects under the same names.  Labels of a type may differ as long as the target's do
      not extend the source's, and versions as long as one of them is not given. */
  ghost predicate NamespacesAgree(a: NamespaceDef, b: NamespaceDef) {
    && AllTablesAgree(a, b)
    && TypesAgree(a, b)
    && a.views == b.views
    && a.sequences == b.sequences
    && ExtensionsAgree(a, b)
  }

  ghost predicate TypesAgree(a: NamespaceDef, b: NamespaceDef) {
    a.types.Keys == b.types.Keys &&
    forall n :: n in a.types && n in b.types ==> !(a.types[n].labels < b.types[n].labels)
  }

  predicate VersionsAgree(x: Extension, y: Extension) {
    x.version == y.version || x.version == "" || y.version == ""
  }

  ghost predicate ExtensionsAgree(a: NamespaceDef, b: NamespaceDef) {
    a.extensions.Keys == b.extensions.Keys &&
    forall n :: n in a.extensions && n in b.extensions ==> VersionsAgree(a.extensions[n], b.extensions[n])
  }

  /** The same namespaces, but for `public`, which the target need not have. */
  ghost predicate SchemasAgree(s: SchemaDef, t: SchemaDef) {
    && t.schemas.Keys <= s.schemas.Keys <= t.schemas.Keys + {"public"}
    && forall n :: n in s.schemas && n in t.schemas ==> NamespacesAgree(s.schemas[n], t.schemas[n])
  }

  // ----- no operations for columns

  lemma {:induction false} NoRenameOps(schema: string, table: string, pairs: seq<(string, string)>)
    ensures |RenameOps(schema, table, pairs)| == |pairs|
  {
    if pairs != [] { NoRenameOps(schema, table, pairs[..|pairs| - 1]); }
  }

  lemma OnlyInSource(schema: string, a: TableDef, b: TableDef, walk: seq<string>, n: string)
    requires Renames(a, b) == [] && n in walk && n in a.columns && n !in b.columns
    ensures DropStep(schema, a, b, Renames(a, b))(n) != []
    ensures Flat(walk, DropStep(schema, a, b, Renames(a, b))) != []
  {
    hide Flat, Renames;
    FlatEmpty(walk, DropStep(schema, a, b, Renames(a, b)));
  }

  lemma OnlyInTarget(schema: string, a: TableDef, b: TableDef, n: string)
    requires Renames(a, b) == [] && n in b.columns && n !in a.columns
    ensures AddStep(schema, b, Renames(a, b))(n) != []
    ensures Flat(TargetOnly(a, b), AddStep(schema, b, Renames(a, b))) != []
  {
    hide Flat, Renames;
    FlatEmpty(TargetOnly(a, b), AddStep(schema, b, Renames(a, b)));
  }

  /** A column of one side only is renamed, added or dropped. */
  lemma OneSided(schema: string, a: TableDef, b: TableDef, walk: seq<string>)
    requires ListsAll(walk, a.columns.Keys) && a.columns.Keys != b.columns.Keys
    ensures TableColumnOps(schema, a, b, walk) != []
  {
    hide Flat, AlterStep, AddStep, DropStep, Renames, TargetOnly;
    NoRenameOps(schema, b.name, Renames(a, b));
    if Renames(a, b) == [] {
      var n :| n in a.columns <==> n !in b.columns;
      if n in a.columns {
        OnlyInSource(schema, a, b, walk, n);
      } else {
        OnlyInTarget(schema, a, b, n);
      }
    }
  }

  ghost predicate AllColumnsAgree(a: TableDef, b: TableDef) {
    a.columns.Keys == b.columns.Keys &&
    forall n :: n in a.columns && n in b.columns ==> ColumnsAgree(a.columns[n], b.columns[n])
  }

  lemma ColumnOpsExact(schema: string, a: TableDef, b: TableDef, walk: seq<string>)
    requires TableWellFormed(b) && ListsAll(walk, a.columns.Keys)
    ensures TableColumnOps(schema, a, b, walk) == [] <==> AllColumnsAgree(a, b)
  {
    hide TableColumnOps, ListsAll, TableWellFormed;
    if a.columns.Keys == b.columns.Keys {
      NothingForColumns(schema, a, b, walk);
    } else {
      OneSided(schema, a, b, walk);
    }
  }

  // ----- no operations for indexes and constraints

  ghost predicate AllIndexesAgree(a: TableDef, b: TableDef) {
    a.indexes.Keys == b.indexes.Keys &&
    forall i :: i in a.indexes && i in b.indexes ==> IndexesAgree(a.indexes[i], b.indexes[i])
  }

  lemma IndexOpsExact(schema: string, a: TableDef, b: TableDef)
    ensures TableIndexOps(schema, a, b) == [] <==> AllIndexesAgree(a, b)
  {
    hide TableIndexOps;
    NothingForIndexes(schema, a, b);
  }

  lemma ConstraintsAgreeExact(c: Constraint, d: Constraint)
    ensures ConstraintChanged(c, d) <==> !ConstraintsAgree(c, d)
  {
  }

  ghost predicate AllConstraintsAgree(a: TableDef, b: TableDef) {
    a.constraints.Keys == b.constraints.Keys &&
    forall i :: i in a.constraints && i in b.constraints ==> ConstraintsAgree(a.constraints[i], b.constraints[i])
  }

  lemma ConstraintStepsEmpty(schema: string, a: TableDef, b: TableDef)
    ensures (forall n :: n in b.constraints ==> NewConstraintStep(schema, a, b)(n) == []) <==>
            b.constraints.Keys <= a.constraints.Keys
    ensures (forall n :: n in a.constraints ==> OldConstraintStep(schema, a, b)(n) == []) <==>
            a.constraints.Keys <= b.constraints.Keys
    ensures (forall n :: n in b.constraints ==> ChangedConstraintStep(schema, a, b)(n) == []) <==>
      forall i :: i in a.constraints && i in b.constraints ==> ConstraintsAgree(a.constraints[i], b.constraints[i])
  {
    hide ConstraintChanged, ConstraintsAgree;
    forall i | i in a.constraints && i in b.constraints
      ensures ConstraintChanged(a.constraints[i], b.constraints[i]) <==>
              !ConstraintsAgree(a.constraints[i], b.constraints[i])
    {
      ConstraintsAgreeExact(a.constraints[i], b.constraints[i]);
    }
  }

  lemma ConstraintOpsExact(schema: string, a: TableDef, b: TableDef)
    ensures TableConstraintOps(schema, a, b) == [] <==> AllConstraintsAgree(a, b)
  {
    ConstraintStepsEmpty(schema, a, b);
    FlatEmpty(Sorted(b.constraints.Keys), NewConstraintStep(schema, a, b));
    FlatEmpty(Sorted(b.constraints.Keys), ChangedConstraintStep(schema, a, b));
    FlatEmpty(Sorted(a.constraints.Keys), OldConstraintStep(schema, a, b));
    hide ConstraintsAgree, NewConstraintStep, OldConstraintStep, ChangedConstraintStep, Flat;
  }

  lemma TableOpsExact(schema: string, a: TableDef, b: TableDef, walk: seq<string>)
    requires TableWellFormed(b) && ListsAll(walk, a.columns.Keys)
    ensures CommonTableOps(schema, a, b, walk) == [] <==> TablesAgree(a, b)
  {
    hide TableColumnOps, TableIndexOps, TableConstraintOps, TableWellFormed, ListsAll;
    ColumnOpsExact(schema, a, b, walk);
    IndexOpsExact(schema, a, b);
    ConstraintOpsExact(schema, a, b);
  }

  // ----- no operations in a namespace

  lemma WholeTablesEmpty(a: NamespaceDef, b: NamespaceDef)
    ensures Flat(Sorted(b.tables.Keys), NewTableStep(a, b)) == [] <==> b.tables.Keys <= a.tables.Keys
    ensures Flat(Sorted(a.tables.Keys), OldTableStep(a, b)) == [] <==> a.tables.Keys <= b.tables.Keys
  {
    hide Flat;
    FlatEmpty(Sorted(b.tables.Keys), NewTableStep(a, b));
    FlatEmpty(Sorted(a.tables.Keys), OldTableStep(a, b));
  }

  lemma CommonTableStepEmpty(a: NamespaceDef, b: NamespaceDef, walk: Walk, n: string)
    requires NamespaceWellFormed(b) && WalksNamespace(walk, a)
    ensures CommonTableStep(a, b, walk)(n) == [] <==>
            (n in a.tables && n in b.tables ==> TablesAgree(a.tables[n], b.tables[n]))
  {
    hide CommonTableOps, TableWellFormed, ListsAll, TablesAgree;
    if n in a.tables && n in b.tables { TableOpsExact(a.name, a.tables[n], b.tables[n], walk(a.name, n)); }
  }

  lemma TablesOpsExact(a: NamespaceDef, b: NamespaceDef, walk: Walk)
    requires NamespaceWellFormed(b) && WalksNamespace(walk, a)
    ensures TablesOps(a, b, walk) == [] <==> AllTablesAgree(a, b)
  {
    hide TablesAgree, NamespaceWellFormed, WalksNamespace, CommonTableStep, NewTableStep, OldTableStep, Flat;
    forall n ensures CommonTableStep(a, b, walk)(n) == [] <==>
                     (n in a.tables && n in b.tables ==> TablesAgree(a.tables[n], b.tables[n]))
    {
      CommonTableStepEmpty(a, b, walk, n);
    }
    WholeTablesEmpty(a, b);
    FlatEmpty(Sorted(b.tables.Keys), CommonTableStep(a, b, walk));
  }

  lemma {:induction false} LabelOpsCount(schema: string, name: string, labels: seq<string>)
    ensures |LabelOps(schema, name, labels)| == |labels|
  {
    if labels != [] { LabelOpsCount(schema, name, labels[..|labels| - 1]); }
  }

  lemma EnumOpsExact(schema: string, n: string, x: EnumType, y: EnumType)
    ensures EnumOps(schema, n, x, y) == [] <==> !(x.labels < y.labels)
  {
    hide LabelOps;
    if IsEnumAppend(x.labels, y.labels) { LabelOpsCount(schema, n, y.labels[|x.labels|..]); }
  }

  lemma TypeStepsEmpty(a: NamespaceDef, b: NamespaceDef, n: string)
    ensures NewTypeStep(a, b)(n) == [] <==> (n in b.types ==> n in a.types)
    ensures OldTypeStep(a, b)(n) == [] <==> (n in a.types ==> n in b.types)
    ensures CommonTypeStep(a, b)(n) == [] <==>
            (n in a.types && n in b.types ==> !(a.types[n].labels < b.types[n].labels))
  {
    hide EnumOps;
    if n in a.types && n in b.types { EnumOpsExact(b.name, n, a.types[n], b.types[n]); }
  }

  lemma TypesOpsExact(a: NamespaceDef, b: NamespaceDef)
    ensures TypesOps(a, b) == [] <==> TypesAgree(a, b)
  {
    hide Flat, NewTypeStep, OldTypeStep, CommonTypeStep;
    forall n
      ensures NewTypeStep(a, b)(n) == [] <==> (n in b.types ==> n in a.types)
      ensures OldTypeStep(a, b)(n) == [] <==> (n in a.types ==> n in b.types)
      ensures CommonTypeStep(a, b)(n) == [] <==>
              (n in a.types && n in b.types ==> !(a.types[n].labels < b.types[n].labels))
    {
      TypeStepsEmpty(a, b, n);
    }
    FlatEmpty(Sorted(b.types.Keys), NewTypeStep(a, b));
    FlatEmpty(Sorted(b.types.Keys), CommonTypeStep(a, b));
    FlatEmpty(Sorted(a.types.Keys), OldTypeStep(a, b));
  }

  lemma ViewStepsEmpty(a: NamespaceDef, b: NamespaceDef, n: string)
    requires ViewsNamed(a) && ViewsNamed(b)
    ensures TargetViewStep(a, b)(n) == [] <==> (n in b.views ==> n in a.views && a.views[n] == b.views[n])
    ensures OldViewStep(a, b)(n) == [] <==> (n in a.views ==> n in b.views)
  {
  }

  lemma ViewsOpsExact(a: NamespaceDef, b: NamespaceDef)
    requires ViewsNamed(a) && ViewsNamed(b)
    ensures ViewsOps(a, b) == [] <==> a.views == b.views
  {
    hide Flat, TargetViewStep, OldViewStep, ViewsNamed;
    forall n
      ensures TargetViewStep(a, b)(n) == [] <==> (n in b.views ==> n in a.views && a.views[n] == b.views[n])
      ensures OldViewStep(a, b)(n) == [] <==> (n in a.views ==> n in b.views)
    {
      ViewStepsEmpty(a, b, n);
    }
    FlatEmpty(Sorted(b.views.Keys), TargetViewStep(a, b));
    FlatEmpty(Sorted(a.views.Keys), OldViewStep(a, b));
  }

  lemma SequenceStepsEmpty(a: NamespaceDef, b: NamespaceDef, n: string)
    requires SequencesNamed(a) && SequencesNamed(b)
    ensures TargetSequenceStep(a, b)(n) == [] <==>
            (n in b.sequences ==> n in a.sequences && a.sequences[n] == b.sequences[n])
    ensures OldSequenceStep(a, b)(n) == [] <==> (n in a.sequences ==> n in b.sequences)
  {
  }

  lemma SequencesOpsExact(a: NamespaceDef, b: NamespaceDef)
    requires SequencesNamed(a) && SequencesNamed(b)
    ensures SequencesOps(a, b) == [] <==> a.sequences == b.sequences
  {
    hide Flat, TargetSequenceStep, OldSequenceStep, SequencesNamed;
    forall n
      ensures TargetSequenceStep(a, b)(n) == [] <==>
              (n in b.sequences ==> n in a.sequences && a.sequences[n] == b.sequences[n])
      ensures OldSequenceStep(a, b)(n) == [] <==> (n in a.sequences ==> n in b.sequences)
    {
      SequenceStepsEmpty(a, b, n);
    }
    FlatEmpty(Sorted(b.sequences.Keys), TargetSequenceStep(a, b));
    FlatEmpty(Sorted(a.sequences.Keys), OldSequenceStep(a, b));
  }

  lemma ExtensionStepsEmpty(a: NamespaceDef, b: NamespaceDef, n: string)
    ensures TargetExtensionStep(a, b)(n) == [] <==>
            (n in b.extensions ==> n in a.extensions && VersionsAgree(a.extensions[n], b.extensions[n]))
    ensures OldExtensionStep(a, b)(n) == [] <==> (n in a.extensions ==> n in b.extensions)
  {
  }

  lemma ExtensionsOpsExact(a: NamespaceDef, b: NamespaceDef)
    ensures ExtensionsOps(a, b) == [] <==> ExtensionsAgree(a, b)
  {
    hide Flat, TargetExtensionStep, OldExtensionStep, VersionsAgree;
    forall n
      ensures TargetExtensionStep(a, b)(n) == [] <==>
              (n in b.extensions ==> n in a.extensions && VersionsAgree(a.extensions[n], b.extensions[n]))
      ensures OldExtensionStep(a, b)(n) == [] <==> (n in a.extensions ==> n in b.extensions)
    {
      ExtensionStepsEmpty(a, b, n);
    }
    FlatEmpty(Sorted(b.extensions.Keys), TargetExtensionStep(a, b));
    FlatEmpty(Sorted(a.extensions.Keys), OldExtensionStep(a, b));
  }

  lemma NamespaceOpsExact(a: NamespaceDef, b: NamespaceDef, walk: Walk)
    requires NamespaceWellFormed(a) && NamespaceWellFormed(b) && WalksNamespace(walk, a)
    ensures NamespaceOps(a, b, walk) == [] <==> NamespacesAgree(a, b)
  {
    hide TablesOps, TypesOps, ViewsOps, SequencesOps, ExtensionsOps, TableWellFormed, AllTablesAgree, TypesAgree,
      ExtensionsAgree;
    NamesOfParts(a);
    NamesOfParts(b);
    TablesOpsExact(a, b, walk);
    TypesOpsExact(a, b);
    ViewsOpsExact(a, b);
    SequencesOpsExact(a, b);
    ExtensionsOpsExact(a, b);
  }

  // ----- no operations at all

  lemma NamespaceStepsEmpty(s: SchemaDef, t: SchemaDef, walk: Walk, n: string)
    requires WellFormed(s) && WellFormed(t) && Walks(walk, s)
    ensures TargetNamespaceStep(s, t, walk)(n) == [] <==>
            (n in t.schemas ==> n in s.schemas && NamespacesAgree(s.schemas[n], t.schemas[n]))
    ensures OldNamespaceStep(s, t)(n) == [] <==> (n in s.schemas ==> n in t.schemas || n == "public")
  {
    hide NamespaceOps, NamespacesAgree, NamespaceWellFormed, ListsAll;
    if n in s.schemas && n in t.schemas {
      NamespaceOpsExact(s.schemas[n], t.schemas[n], walk);
    }
  }

  /** For well-formed schemas the differ emits nothing exactly when they agree. */
  lemma NothingExactly(s: SchemaDef, t: SchemaDef, walk: Walk)
    requires WellFormed(s) && WellFormed(t) && Walks(walk, s)
    ensures DiffOps(s, t, walk) == [] <==> SchemasAgree(s, t)
  {
    hide Flat, NamespacesAgree, WellFormed, Walks, TargetNamespaceStep, OldNamespaceStep;
    forall n
      ensures TargetNamespaceStep(s, t, walk)(n) == [] <==>
              (n in t.schemas ==> n in s.schemas && NamespacesAgree(s.schemas[n], t.schemas[n]))
      ensures OldNamespaceStep(s, t)(n) == [] <==> (n in s.schemas ==> n in t.schemas || n == "public")
    {
      NamespaceStepsEmpty(s, t, walk, n);
    }
    FlatEmpty(Sorted(t.schemas.Keys), TargetNamespaceStep(s, t, walk));
    FlatEmpty(Sorted(s.schemas.Keys), OldNamespaceStep(s, t));
  }

  /** The labels of every type that both have are kept, or extended. */
  ghost predicate LabelsExtend(a: NamespaceDef, b: NamespaceDef) {
    forall n :: n in a.types && n in b.types ==> a.types[n].labels <= b.types[n].labels
  }

  lemma TypeWarningEmpty(a: NamespaceDef, b: NamespaceDef, n: string)
    ensures TypeWarningStep(a, b)(n) == [] <==>
            (n in a.types && n in b.types ==> a.types[n].labels <= b.types[n].labels)
  {
  }

  lemma WarningStepsEmpty(s: SchemaDef, t: SchemaDef, ns: string)
    ensures NamespaceWarningStep(s, t)(ns) == [] <==>
            (ns in s.schemas && ns in t.schemas ==> LabelsExtend(s.schemas[ns], t.schemas[ns]))
    ensures PublicWarningStep(s, t)(ns) == [] <==> (ns == "public" && ns in s.schemas ==> ns in t.schemas)
  {
    hide Flat, TypeWarningStep;
    if ns in s.schemas && ns in t.schemas {
      var a, b := s.schemas[ns], t.schemas[ns];
      forall n ensures TypeWarningStep(a, b)(n) == [] <==>
                       (n in a.types && n in b.types ==> a.types[n].labels <= b.types[n].labels)
      {
        TypeWarningEmpty(a, b, n);
      }
      FlatEmpty(Sorted(b.types.Keys), TypeWarningStep(a, b));
    }
  }

  /** It warns about nothing exactly when the labels of every type stay or are extended, and `public`
      stays. */
  lemma NoWarningExactly(s: SchemaDef, t: SchemaDef)
    ensures DiffWarnings(s, t) == [] <==>
            && ("public" in s.schemas ==> "public" in t.schemas)
            && forall ns :: ns in s.schemas && ns in t.schemas ==> LabelsExtend(s.schemas[ns], t.schemas[ns])
  {
    hide Flat, LabelsExtend, NamespaceWarningStep, PublicWarningStep;
    forall ns
      ensures NamespaceWarningStep(s, t)(ns) == [] <==>
              (ns in s.schemas && ns in t.schemas ==> LabelsExtend(s.schemas[ns], t.schemas[ns]))
      ensures PublicWarningStep(s, t)(ns) == [] <==> (ns == "public" && ns in s.schemas ==> ns in t.schemas)
    {
      WarningStepsEmpty(s, t, ns);
    }
    FlatEmpty(Sorted(t.schemas.Keys), NamespaceWarningStep(s, t));
    FlatEmpty(Sorted(s.schemas.Keys), PublicWarningStep(s, t));
  }

  lemma AgreesWithItself(s: SchemaDef)
    ensures SchemasAgree(s, s) && forall ns :: ns in s.schemas ==> LabelsExtend(s.schemas[ns], s.schemas[ns])
  {
  }

  /** Comparing a well-formed schema with itself gives no operations and no warnings. */
  lemma NothingToDo(s: SchemaDef, walk: Walk)
    requires WellFormed(s) && Walks(walk, s)
    ensures DiffOps(s, s, walk) == [] && DiffWarnings(s, s) == []
  {
    hide *;
    NothingExactly(s, s, walk);
    NoWarningExactly(s, s);
    AgreesWithItself(s);
  }

  // ----- what a migration reaches

  /** A common column agrees with the target's, except that its type is not changed where the target
      gives none and its collation changes.  Any other is the target's own, or a column that the target
      does not have under its new name, with the same signature. */
  ghost predicate ColumnReached(a: TableDef, b: TableDef, n: string, z: Column)
    requires n in b.columns
  {
    var y := b.columns[n];
    if n in a.columns then
      && z.name == n
      && (z.isNullable, z.defaultExpr, z.collation) == (y.isNullable, y.defaultExpr, y.collation)
      && (if y.isIdentity then z.isIdentity && z.identityKind == y.identityKind else !z.isIdentity)
      && (y.dataType != "" || a.columns[n].collation == y.collation ==> z.dataType == y.dataType)
    else
      || z == y
      || exists m :: m in a.columns && m !in b.columns && Signature(a.columns[m]) == Signature(y) &&
                     z == a.columns[m].(name := n)
  }

  /** The constraint agrees with the target's: it is the source's, untouched, if that does, and
      otherwise the target's, on its table. */
  ghost predicate ConstraintReached(a: TableDef, b: TableDef, i: string, c: Constraint)
    requires i in b.constraints
  {
    && ConstraintsAgree(c, b.constraints[i])
    && (if i in a.constraints && ConstraintsAgree(a.constraints[i], b.constraints[i]) then c == a.constraints[i]
        else c.(table := "") == b.constraints[i].(table := ""))
  }

  /** Some table of both namespaces has an index of this name that is to go or to change. */
  ghost predicate IndexGivenUp(a: NamespaceDef, b: NamespaceDef, k: string, i: string) {
    && k in a.tables && k in b.tables && i in a.tables[k].indexes
    && (i in b.tables[k].indexes ==> !IndexesAgree(a.tables[k].indexes[i], b.tables[k].indexes[i]))
  }

  /** An index that is there agrees with the target's; one is missing only where an index of its name
      is given up, in emission order by another table. */
  ghost predicate IndexReached(order: Order, a: NamespaceDef, b: NamespaceDef, n: string, u: TableDef, i: string)
    requires n in b.tables && i in b.tables[n].indexes
  {
    if i in u.indexes then IndexesAgree(u.indexes[i], b.tables[n].indexes[i])
    else exists k :: IndexGivenUp(a, b, k, i) && (order.AsEmitted? ==> k != n)
  }

  ghost predicate TableReached(order: Order, a: NamespaceDef, b: NamespaceDef, n: string, u: TableDef)
    requires n in a.tables && n in b.tables
  {
    var x, y := a.tables[n], b.tables[n];
    && u.columns.Keys == y.columns.Keys
    && u.constraints.Keys == y.constraints.Keys
    && u.indexes.Keys <= y.indexes.Keys
    && (forall c :: c in u.columns && c in y.columns ==> ColumnReached(x, y, c, u.columns[c]))
    && (forall i :: i in u.constraints && i in y.constraints ==> ConstraintReached(x, y, i, u.constraints[i]))
    && (forall i :: i in y.indexes ==> IndexReached(order, a, b, n, u, i))
  }

  /** A new table has the target's columns, order, primary key and constraints, and no index. */
  ghost predicate NewTableReached(y: TableDef, u: TableDef) {
    && (u.name, u.order, u.columns, u.primaryKey) == (y.name, y.order, y.columns, y.primaryKey)
    && u.constraints.Keys == y.constraints.Keys && u.indexes == map[]
    && forall i :: i in u.constraints && i in y.constraints ==>
         u.constraints[i].(table := "") == y.constraints[i].(table := "")
  }

  /** The labels are the target's if they can be reached by appending, and stay otherwise. */
  ghost predicate TypesReached(a: NamespaceDef, b: NamespaceDef, r: NamespaceDef) {
    r.types.Keys == b.types.Keys &&
    forall n :: n in r.types && n in b.types ==>
      r.types[n].labels ==
        if n in a.types && !(a.types[n].labels <= b.types[n].labels) then a.types[n].labels else b.types[n].labels
  }

  /** The version is the target's unless one of the two is not given. */
  ghost predicate ExtensionsReached(a: NamespaceDef, b: NamespaceDef, r: NamespaceDef) {
    r.extensions.Keys == b.extensions.Keys &&
    forall n :: n in r.extensions && n in b.extensions ==>
      r.extensions[n].version ==
        if n in a.extensions && (a.extensions[n].version == "" || b.extensions[n].version == "")
        then a.extensions[n].version else b.extensions[n].version
  }

  ghost predicate TablesReached(order: Order, a: NamespaceDef, b: NamespaceDef, r: NamespaceDef) {
    r.tables.Keys == b.tables.Keys &&
    forall n :: n in r.tables && n in b.tables ==>
      if n in a.tables then TableReached(order, a, b, n, r.tables[n]) else NewTableReached(b.tables[n], r.tables[n])
  }

  ghost predicate NamespaceReached(order: Order, a: NamespaceDef, b: NamespaceDef, r: NamespaceDef) {
    && TablesReached(order, a, b, r)
    && TypesReached(a, b, r)
    && r.views == b.views
    && r.sequences == b.sequences
    && ExtensionsReached(a, b, r)
  }

  /** The target's namespaces, as far as they can be reached, and `public` untouched if only the source
      has it. */
  ghost predicate Reached(order: Order, s: SchemaDef, t: SchemaDef, r: SchemaDef) {
    && (forall n :: n in r.schemas <==> n in t.schemas || (n == "public" && n in s.schemas))
    && forall n :: n in r.schemas ==>
         if n in t.schemas
         then NamespaceReached(order, SourceOf(s, n), t.schemas[n], r.schemas[n])
         else n in s.schemas && r.schemas[n] == s.schemas[n]
  }

  lemma ColumnIsReached(a: TableDef, b: TableDef, n: string)
    requires TableWellFormed(a) && n in b.columns
    ensures ColumnReached(a, b, n, AfterColumn(a, b, n))
  {
    if n !in a.columns && exists m :: IsRename(a, b, m, n) {
      var m :| IsRename(a, b, m, n) && AfterColumn(a, b, n) == a.columns[m].(name := n);
    }
  }

  lemma ConstraintIsReached(a: TableDef, b: TableDef, i: string)
    requires i in b.constraints
    ensures ConstraintReached(a, b, i, AfterConstraint(a, b, i))
  {
    if i in a.constraints { ConstraintsAgreeExact(a.constraints[i], b.constraints[i]); }
    hide ConstraintChanged;
  }

  lemma GivenUpExact(a: NamespaceDef, b: NamespaceDef, k: string, i: string)
    ensures IndexDroppedFor(a, b, k, i) <==> IndexGivenUp(a, b, k, i)
  {
  }

  lemma IndexIsReached(order: Order, a: NamespaceDef, b: NamespaceDef, n: string, u: TableDef, i: string)
    requires n in a.tables && n in b.tables && i in b.tables[n].indexes && u.indexes == AfterIndexes(order, a, b, n)
    ensures IndexReached(order, a, b, n, u, i)
  {
    forall k ensures IndexDroppedFor(a, b, k, i) <==> IndexGivenUp(a, b, k, i) { GivenUpExact(a, b, k, i); }
    hide IndexDroppedFor, IndexGivenUp;
    assert i in u.indexes <==> AfterIndex(order, a, b, n, i).Some?;
    LessIrreflexive(n);
    if i !in u.indexes {
      if order.AsPlanned? {
        var k :| IndexDroppedFor(a, b, k, i);
      } else if DroppedAfter(a, b, n, i) {
        var k :| Less(n, k) && IndexDroppedFor(a, b, k, i);
      } else {
        var k :| Less(k, n) && IndexDroppedFor(a, b, k, i);
      }
    } else {
      KeptIndexAgrees(order, a, b, n, i);
    }
  }

  lemma KeptIndexAgrees(order: Order, a: NamespaceDef, b: NamespaceDef, n: string, i: string)
    requires n in a.tables && n in b.tables && i in b.tables[n].indexes && AfterIndex(order, a, b, n, i).Some?
    ensures IndexesAgree(AfterIndex(order, a, b, n, i).value, b.tables[n].indexes[i])
  {
    if order.AsPlanned? && i in a.tables[n].indexes {
      assert !IndexDroppedFor(a, b, n, i);
    }
  }

  lemma TableIsReached(order: Order, a: NamespaceDef, b: NamespaceDef, n: string, u: TableDef)
    requires n in a.tables && n in b.tables && TableWellFormed(a.tables[n]) && TableMigrated(order, a, b, n, u)
    ensures TableReached(order, a, b, n, u)
  {
    hide ColumnReached, ConstraintReached, IndexReached, AfterColumn, AfterConstraint, AfterIndex, TableWellFormed,
      ColumnsWellFormed;
    var x, y := a.tables[n], b.tables[n];
    forall c | c in y.columns ensures ColumnReached(x, y, c, AfterColumn(x, y, c)) { ColumnIsReached(x, y, c); }
    forall i | i in y.constraints ensures ConstraintReached(x, y, i, AfterConstraint(x, y, i)) {
      ConstraintIsReached(x, y, i);
    }
    forall i | i in y.indexes ensures IndexReached(order, a, b, n, u, i) { IndexIsReached(order, a, b, n, u, i); }
  }

  lemma TablesAreReached(order: Order, a: NamespaceDef, b: NamespaceDef, r: NamespaceDef)
    requires NamespaceWellFormed(a) && NamespaceWellFormed(b) && NamespaceMigrated(order, a, b, r)
    ensures TablesReached(order, a, b, r)
  {
    hide TableMigrated, TableReached, TableWellFormed, AfterTypes, AfterViews, AfterSequences, AfterExtensions;
    forall n ensures n in r.tables <==> n in b.tables {
      assert TableDone(order, a, b, n, Get(r.tables, n));
    }
    forall n | n in r.tables && n in b.tables
      ensures if n in a.tables then TableReached(order, a, b, n, r.tables[n])
              else NewTableReached(b.tables[n], r.tables[n])
    {
      assert TableDone(order, a, b, n, Get(r.tables, n));
      if n in a.tables { TableIsReached(order, a, b, n, r.tables[n]); }
    }
  }

  lemma ObjectsAreReached(order: Order, a: NamespaceDef, b: NamespaceDef, r: NamespaceDef)
    requires NamespaceWellFormed(a) && NamespaceWellFormed(b) && NamespaceMigrated(order, a, b, r)
    ensures TypesReached(a, b, r) && ExtensionsReached(a, b, r)
    ensures r.views == b.views && r.sequences == b.sequences
  {
    hide TableDone, TableWellFormed;
    assert forall n :: n in b.views ==> AfterViews(a, b)[n] == b.views[n];
    assert forall n :: n in b.sequences ==> AfterSequences(a, b)[n] == b.sequences[n];
  }

  /** Field by field, what `Migrated` describes: the target, but for what is named here. */
  lemma IsReached(order: Order, s: SchemaDef, t: SchemaDef, r: SchemaDef)
    requires WellFormed(s) && WellFormed(t) && Migrated(order, s, t, r)
    ensures Reached(order, s, t, r)
  {
    hide NamespaceMigrated, NamespaceReached, NamespaceWellFormed, SourceOf;
    forall n ensures n in r.schemas <==> n in t.schemas || (n == "public" && n in s.schemas) {
      assert NamespaceDone(order, s, t, n, Get(r.schemas, n));
    }
    forall n | n in r.schemas
      ensures if n in t.schemas then NamespaceReached(order, SourceOf(s, n), t.schemas[n], r.schemas[n])
              else n in s.schemas && r.schemas[n] == s.schemas[n]
    {
      assert NamespaceDone(order, s, t, n, Get(r.schemas, n));
      if n in t.schemas {
        SourceSameNamed(s, t, n);
        NamespaceIsReached(order, SourceOf(s, n), t.schemas[n], r.schemas[n]);
      }
    }
  }

  lemma NamespaceIsReached(order: Order, a: NamespaceDef, b: NamespaceDef, r: NamespaceDef)
    requires NamespaceWellFormed(a) && NamespaceWellFormed(b) && NamespaceMigrated(order, a, b, r)
    ensures NamespaceReached(order, a, b, r)
  {
    hide NamespaceWellFormed, NamespaceMigrated, TablesReached, TypesReached, ExtensionsReached;
    TablesAreReached(order, a, b, r);
    ObjectsAreReached(order, a, b, r);
  }

  /** So it is after the emitted operations have been applied. */
  lemma DiffReaches(s: SchemaDef, t: SchemaDef, walk: Walk)
    requires WellFormed(s) && WellFormed(t) && Walks(walk, s)
    ensures var r := Apply(DiffOps(s, t, walk), s); r.Ok? && Reached(AsEmitted, s, t, r.value)
  {
    hide *;
    DiffApplies(s, t, walk);
    IsReached(AsEmitted, s, t, Apply(DiffOps(s, t, walk), s).value);
  }

  /** And after any plan that can be carried out. */
  lemma PlanReaches(s: SchemaDef, t: SchemaDef, walk: Walk, plan: seq<Op>, outside: set<ObjectKey>)
    requires WellFormed(s) && WellFormed(t) && Walks(walk, s) && IsPlan(DiffOps(s, t, walk), plan)
    requires Execute(plan, s, outside).Ok?
    ensures Reached(AsPlanned, s, t, Execute(plan, s, outside).value)
  {
    hide *;
    PlanRuns(s, t, walk, plan, outside);
    IsReached(AsPlanned, s, t, Execute(plan, s, outside).value);
  }
}
