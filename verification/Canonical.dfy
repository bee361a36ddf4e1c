/** What canonicalizing a schema leaves as it was and what it changes, field by field. */
module Canonical {
  import opened Catalog
  import opened TableEdits
  import opened Store
  import opened SchemaStore
  import opened Normalize

  // ----- one object

  /** Name, type and default are canonical; the rest is as it was. */
  predicate ColumnCanonical(f: Canon, c: Column, d: Column) {
    && d.name == f.identifier(c.name)
    && d.dataType == f.dataType(c.dataType)
    && d.defaultExpr.Some? == c.defaultExpr.Some?
    && (c.defaultExpr.Some? ==> d.defaultExpr.value == f.defaultExpr(c.defaultExpr.value))
    && (d.isNullable, d.isIdentity, d.identityKind, d.collation) ==
       (c.isNullable, c.isIdentity, c.identityKind, c.collation)
  }

  predicate ConstraintCanonical(f: Canon, c: Constraint, d: Constraint) {
    && d.name == f.identifier(c.name)
    && d.definition == f.constraintDef(c.definition)
    && (d.kind, d.table, d.columns, d.expression) == (c.kind, c.table, c.columns, c.expression)
    && (d.refSchema, d.refTable, d.refColumns, d.onDelete, d.onUpdate) ==
       (c.refSchema, c.refTable, c.refColumns, c.onDelete, c.onUpdate)
  }

  /** One element for each column, in order, named after it, in default order and with nothing else. */
  predicate PlainElements(columns: seq<string>, elements: seq<IndexElem>) {
    && |elements| == |columns|
    && forall k :: 0 <= k < |elements| ==>
         && elements[k].name == columns[k]
         && elements[k].ordering == elements[k].nullsOrdering == "default"
         && elements[k].expr == elements[k].indexColName == elements[k].collation == elements[k].opclass == ""
  }

  /** Name, definition and condition are canonical; elements stay, and if there are none the columns
      become elements; the rest is as it was. */
  predicate IndexCanonical(f: Canon, i: Index, j: Index) {
    && j.name == f.identifier(i.name)
    && j.definition == f.indexText(i.definition)
    && j.whereClause == f.indexText(i.whereClause)
    && (if i.elements != [] then j.elements == i.elements else PlainElements(i.columns, j.elements))
    && (j.table, j.columns, j.unique, j.accessMethod) == (i.table, i.columns, i.unique, i.accessMethod)
    && (j.primary, j.isConstraint, j.concurrent, j.ifNotExists) ==
       (i.primary, i.isConstraint, i.concurrent, i.ifNotExists)
  }

  predicate TypeCanonical(f: Canon, e: EnumType, d: EnumType) {
    d.name == f.identifier(e.name) && d.labels == e.labels
  }

  predicate ViewCanonical(f: Canon, v: View, w: View) {
    w.name == f.identifier(v.name) && w.definition == f.viewText(v.definition) && w.materialized == v.materialized
  }

  predicate SequenceCanonical(f: Canon, q: Sequence, p: Sequence) {
    && p.name == f.identifier(q.name)
    && p.dataType == f.dataType(q.dataType)
    && (p.startValue, p.incrementBy, p.minValue, p.maxValue) == (q.startValue, q.incrementBy, q.minValue, q.maxValue)
    && (p.cacheSize, p.cycle, p.ownedByTable, p.ownedByColumn) ==
       (q.cacheSize, q.cycle, q.ownedByTable, q.ownedByColumn)
  }

  predicate ExtensionCanonical(f: Canon, e: Extension, d: Extension) {
    d.name == f.identifier(e.name) && d.version == e.version
  }

  // ----- tables, namespaces and schemas

  /** The columns keep their places and are found under their canonical names; constraints and indexes
      keep their keys. */
  ghost predicate TableCanonical(f: Canon, t: TableDef, u: TableDef) {
    && (u.schema, u.name, u.primaryKey, u.isPlaceholder) == (t.schema, t.name, t.primaryKey, t.isPlaceholder)
    && |u.order| == |t.order|
    && (forall n :: n in u.columns <==> n in u.order)
    && (forall k :: 0 <= k < |t.order| ==> u.order[k] == f.identifier(t.order[k]))
    && (forall k :: 0 <= k < |t.order| ==>
          && t.order[k] in t.columns && u.order[k] in u.columns
          && ColumnCanonical(f, t.columns[t.order[k]], u.columns[u.order[k]]))
    && u.constraints.Keys == t.constraints.Keys && u.indexes.Keys == t.indexes.Keys
    && (forall n :: n in t.constraints && n in u.constraints ==>
          ConstraintCanonical(f, t.constraints[n], u.constraints[n]))
    && (forall n :: n in t.indexes && n in u.indexes ==> IndexCanonical(f, t.indexes[n], u.indexes[n]))
  }

  ghost predicate ObjectsCanonical(f: Canon, a: NamespaceDef, b: NamespaceDef) {
    && a.types.Keys == b.types.Keys && a.views.Keys == b.views.Keys
    && a.sequences.Keys == b.sequences.Keys && a.extensions.Keys == b.extensions.Keys
    && (forall n :: n in a.types && n in b.types ==> TypeCanonical(f, a.types[n], b.types[n]))
    && (forall n :: n in a.views && n in b.views ==> ViewCanonical(f, a.views[n], b.views[n]))
    && (forall n :: n in a.sequences && n in b.sequences ==> SequenceCanonical(f, a.sequences[n], b.sequences[n]))
    && (forall n :: n in a.extensions && n in b.extensions ==> ExtensionCanonical(f, a.extensions[n], b.extensions[n]))
  }

  ghost predicate NamespaceCanonical(f: Canon, a: NamespaceDef, b: NamespaceDef) {
    && b.name == a.name
    && a.tables.Keys == b.tables.Keys
    && (forall n :: n in a.tables && n in b.tables ==> TableCanonical(f, a.tables[n], b.tables[n]))
    && ObjectsCanonical(f, a, b)
  }

  ghost predicate SchemaCanonical(f: Canon, s: SchemaDef, r: SchemaDef) {
    && s.schemas.Keys == r.schemas.Keys
    && forall n :: n in s.schemas && n in r.schemas ==> NamespaceCanonical(f, s.schemas[n], r.schemas[n])
  }

  /** Every column of the slice is found under its own name, as in every table object. */
  ghost predicate ColumnsFound(t: TableDef) {
    forall n :: n in t.order ==> n in t.columns && t.columns[n].name == n
  }

  ghost predicate AllColumnsFound(s: SchemaDef) {
    forall ns, n :: ns in s.schemas && n in s.schemas[ns].tables ==> ColumnsFound(s.schemas[ns].tables[n])
  }

  lemma ColumnsAreCanonical(f: Canon, t: TableDef)
    requires CanonicalNamesApart(f, t) && ColumnsFound(t)
    ensures var c := InOrder(CanonSequenceOf(f, ColumnSeq(t)));
      && |c.order| == |t.order|
      && (forall n :: n in c.byName <==> n in c.order)
      && (forall k :: 0 <= k < |t.order| ==>
            && c.order[k] == f.identifier(t.order[k]) && c.order[k] in c.byName
            && ColumnCanonical(f, t.columns[t.order[k]], c.byName[c.order[k]]))
  {
    var cols := CanonSequenceOf(f, ColumnSeq(t));
    forall k | 0 <= k < |t.order|
      ensures cols[k].name == f.identifier(t.order[k]) && ColumnCanonical(f, t.columns[t.order[k]], cols[k])
    {
      assert ColumnSeq(t)[k] == t.columns[t.order[k]];
    }
    assert NoDuplicates(NamesIn(cols));
    InOrderEntries(cols);
  }

  lemma IndexIsCanonical(f: Canon, i: Index)
    ensures IndexCanonical(f, i, CanonIndex(f, i))
  {
  }

  lemma LeavesAreCanonical(f: Canon, t: TableDef, u: TableDef)
    requires u.constraints == Mapped(t.constraints, (x: Constraint) => CanonConstraint(f, x))
    requires u.indexes == Mapped(t.indexes, (x: Index) => CanonIndex(f, x))
    ensures u.constraints.Keys == t.constraints.Keys && u.indexes.Keys == t.indexes.Keys
    ensures forall n :: n in t.constraints && n in u.constraints ==>
              ConstraintCanonical(f, t.constraints[n], u.constraints[n])
    ensures forall n :: n in t.indexes && n in u.indexes ==> IndexCanonical(f, t.indexes[n], u.indexes[n])
  {
    hide CanonIndex, IndexCanonical;
    forall n | n in t.indexes ensures IndexCanonical(f, t.indexes[n], u.indexes[n]) {
      IndexIsCanonical(f, t.indexes[n]);
    }
  }

  lemma TableIsCanonical(f: Canon, t: TableDef)
    requires CanonicalNamesApart(f, t) && ColumnsFound(t)
    ensures TableCanonical(f, t, CanonTable(f, t))
  {
    hide InOrder, ColumnCanonical, ConstraintCanonical, IndexCanonical, Mapped;
    ColumnsAreCanonical(f, t);
    LeavesAreCanonical(f, t, CanonTable(f, t));
  }

  lemma ObjectsAreCanonical(f: Canon, ns: NamespaceDef, r: NamespaceDef)
    requires r.types == Mapped(ns.types, (x: EnumType) => CanonType(f, x))
    requires r.views == Mapped(ns.views, (x: View) => CanonView(f, x))
    requires r.sequences == Mapped(ns.sequences, (x: Sequence) => CanonSequence(f, x))
    requires r.extensions == Mapped(ns.extensions, (x: Extension) => CanonExtension(f, x))
    ensures ObjectsCanonical(f, ns, r)
  {
  }

  lemma NamespaceIsCanonical(f: Canon, ns: NamespaceDef)
    requires NamespaceApart(f, ns) && forall n :: n in ns.tables ==> ColumnsFound(ns.tables[n])
    ensures NamespaceCanonical(f, ns, CanonNamespace(f, ns))
  {
    hide CanonTable, TableCanonical, CanonicalNamesApart, ColumnsFound, ObjectsCanonical, Mapped;
    ObjectsAreCanonical(f, ns, CanonNamespace(f, ns));
    forall n | n in ns.tables ensures TableCanonical(f, ns.tables[n], CanonTable(f, ns.tables[n])) {
      TableIsCanonical(f, ns.tables[n]);
    }
  }

  /** Canonicalizing changes exactly the named strings, and gives elements to the indexes that have
      none. */
  lemma SchemaIsCanonical(f: Canon, s: SchemaDef)
    requires SchemaApart(f, s) && AllColumnsFound(s)
    ensures SchemaCanonical(f, s, CanonSchema(f, s))
  {
    hide CanonNamespace, NamespaceCanonical, ColumnsFound, NamespaceApart;
    forall n | n in s.schemas ensures NamespaceCanonical(f, s.schemas[n], CanonNamespace(f, s.schemas[n])) {
      NamespaceIsCanonical(f, s.schemas[n]);
    }
  }

  // ----- indexes from a database and from a file

  /** The indexes are the same, but that the first is given by columns and the second by elements. */
  predicate FilledIn(i: Index, j: Index) {
    i.elements == [] && PlainElements(i.columns, j.elements) && j == i.(elements := j.elements)
  }

  lemma PlainUnique(columns: seq<string>, a: seq<IndexElem>, b: seq<IndexElem>)
    requires PlainElements(columns, a) && PlainElements(columns, b)
    ensures a == b
  {
    forall k | 0 <= k < |a| ensures a[k] == b[k] {
      assert a[k].name == columns[k] == b[k].name;
    }
  }

  /** Both have the same canonical form. */
  lemma FilledInAlike(f: Canon, i: Index, j: Index, x: Index, y: Index)
    requires FilledIn(i, j) && IndexCanonical(f, i, x) && IndexCanonical(f, j, y)
    ensures x == y
  {
    if j.elements == [] {
      assert i.columns == [] && x.elements == [];
    } else {
      PlainUnique(i.columns, x.elements, j.elements);
    }
  }

  ghost predicate TableFilledIn(t: TableDef, u: TableDef) {
    && u == t.(indexes := u.indexes) && u.indexes.Keys == t.indexes.Keys
    && forall n :: n in t.indexes && n in u.indexes ==>
         u.indexes[n] == t.indexes[n] || FilledIn(t.indexes[n], u.indexes[n])
  }

  ghost predicate NamespaceFilledIn(a: NamespaceDef, b: NamespaceDef) {
    && b == a.(tables := b.tables) && b.tables.Keys == a.tables.Keys
    && forall n :: n in a.tables && n in b.tables ==> TableFilledIn(a.tables[n], b.tables[n])
  }

  /** The schemas are the same, but that some indexes of the second are given by elements. */
  ghost predicate SchemaFilledIn(s: SchemaDef, t: SchemaDef) {
    && s.schemas.Keys == t.schemas.Keys
    && forall n :: n in s.schemas && n in t.schemas ==> NamespaceFilledIn(s.schemas[n], t.schemas[n])
  }

  lemma TablesAlike(f: Canon, t: TableDef, u: TableDef)
    requires TableFilledIn(t, u) && CanonicalNamesApart(f, t) && CanonicalNamesApart(f, u)
    ensures CanonTable(f, t) == CanonTable(f, u)
  {
    hide CanonIndex, FilledIn, IndexCanonical, InOrder;
    forall n | n in t.indexes ensures CanonIndex(f, t.indexes[n]) == CanonIndex(f, u.indexes[n]) {
      if t.indexes[n] != u.indexes[n] {
        IndexIsCanonical(f, t.indexes[n]);
        IndexIsCanonical(f, u.indexes[n]);
        FilledInAlike(f, t.indexes[n], u.indexes[n], CanonIndex(f, t.indexes[n]), CanonIndex(f, u.indexes[n]));
      }
    }
    assert ColumnSeq(t) == ColumnSeq(u);
    assert Mapped(t.indexes, (x: Index) => CanonIndex(f, x)) == Mapped(u.indexes, (x: Index) => CanonIndex(f, x));
  }

  lemma NamespacesAlike(f: Canon, a: NamespaceDef, b: NamespaceDef)
    requires NamespaceFilledIn(a, b) && NamespaceApart(f, a) && NamespaceApart(f, b)
    ensures CanonNamespace(f, a) == CanonNamespace(f, b)
  {
    hide CanonTable, TableFilledIn, CanonicalNamesApart, Mapped;
    forall n | n in a.tables ensures CanonTable(f, a.tables[n]) == CanonTable(f, b.tables[n]) {
      TablesAlike(f, a.tables[n], b.tables[n]);
    }
  }

  /** A schema as it is read from a database, with indexes given by columns, and the same schema as it
      is read from a file, with the matching elements, have the same canonical form. */
  lemma DatabaseAndFileAlike(f: Canon, s: SchemaDef, t: SchemaDef)
    requires SchemaFilledIn(s, t) && SchemaApart(f, s) && SchemaApart(f, t)
    ensures CanonSchema(f, s) == CanonSchema(f, t)
  {
    hide CanonNamespace, NamespaceFilledIn, NamespaceApart;
    forall n | n in s.schemas ensures CanonNamespace(f, s.schemas[n]) == CanonNamespace(f, t.schemas[n]) {
      NamespacesAlike(f, s.schemas[n], t.schemas[n]);
    }
  }

  // ----- canonical strings

  ghost predicate LeavesStrings(f: Canon) {
    && (forall x :: f.identifier(x) == x) && (forall x :: f.dataType(x) == x) && (forall x :: f.defaultExpr(x) == x)
    && (forall x :: f.constraintDef(x) == x) && (forall x :: f.indexText(x) == x) && (forall x :: f.viewText(x) == x)
  }

  lemma ColumnsUnchanged(f: Canon, t: TableDef)
    requires LeavesStrings(f) && CanonicalNamesApart(f, t) && TableWellFormed(t)
    ensures InOrder(CanonSequenceOf(f, ColumnSeq(t))) == Columns(t.order, t.columns)
  {
    hide InOrder;
    ColumnsAreCanonical(f, t);
    var c := InOrder(CanonSequenceOf(f, ColumnSeq(t)));
    assert c.order == t.order;
    forall n | n in t.columns ensures n in c.byName && c.byName[n] == t.columns[n] {
      var k :| 0 <= k < |t.order| && t.order[k] == n;
      assert ColumnCanonical(f, t.columns[t.order[k]], c.byName[c.order[k]]);
    }
    assert c.byName == t.columns;
  }

  lemma TableUnchanged(f: Canon, t: TableDef)
    requires LeavesStrings(f) && CanonicalNamesApart(f, t) && TableWellFormed(t)
    ensures TableFilledIn(t, CanonTable(f, t))
  {
    hide InOrder, TableWellFormed, CanonicalNamesApart;
    ColumnsUnchanged(f, t);
    var u := CanonTable(f, t);
    forall n | n in t.indexes ensures u.indexes[n] == t.indexes[n] || FilledIn(t.indexes[n], u.indexes[n]) {
      IndexIsCanonical(f, t.indexes[n]);
    }
    assert u.constraints == t.constraints;
  }

  lemma ObjectsUnchanged(f: Canon, ns: NamespaceDef)
    requires LeavesStrings(f)
    ensures Mapped(ns.types, (x: EnumType) => CanonType(f, x)) == ns.types
    ensures Mapped(ns.views, (x: View) => CanonView(f, x)) == ns.views
    ensures Mapped(ns.sequences, (x: Sequence) => CanonSequence(f, x)) == ns.sequences
    ensures Mapped(ns.extensions, (x: Extension) => CanonExtension(f, x)) == ns.extensions
  {
  }

  lemma NamespaceUnchanged(f: Canon, ns: NamespaceDef)
    requires LeavesStrings(f) && NamespaceApart(f, ns) && NamespaceWellFormed(ns)
    ensures NamespaceFilledIn(ns, CanonNamespace(f, ns))
  {
    hide CanonTable, CanonicalNamesApart, TableFilledIn, TableWellFormed, LeavesStrings, Mapped;
    ObjectsUnchanged(f, ns);
    forall n | n in ns.tables ensures TableFilledIn(ns.tables[n], CanonTable(f, ns.tables[n])) {
      TableUnchanged(f, ns.tables[n]);
    }
  }

  /** Where all strings are canonical already, a schema is left as it is, but for the elements of
      indexes. */
  lemma CanonicalStays(f: Canon, s: SchemaDef)
    requires LeavesStrings(f) && SchemaApart(f, s) && WellFormed(s)
    ensures SchemaFilledIn(s, CanonSchema(f, s))
  {
    hide CanonNamespace, NamespaceApart, NamespaceFilledIn, NamespaceWellFormed, LeavesStrings;
    forall ns | ns in s.schemas ensures NamespaceFilledIn(s.schemas[ns], CanonNamespace(f, s.schemas[ns])) {
      NamespaceUnchanged(f, s.schemas[ns]);
    }
  }

  // ----- schema objects

  /** Every table object finds its columns under their names. */
  lemma TableFinds(t: Table)
    requires t.Valid()
    ensures ColumnsFound(t.Snapshot())
  {
    hide OwnLeaves, OwnColumns;
    var names, cs := NamesOf(t.columns), t.columns;
    SnapshotOrder(t);
    assert forall i :: 0 <= i < |cs| ==> names[i] in t.columnByName && t.columnByName[names[i]] == cs[i];
  }

  lemma NamespaceFinds(ns: Namespace)
    requires ns.Valid()
    ensures forall n :: n in ns.Snapshot().tables ==> ColumnsFound(ns.Snapshot().tables[n])
  {
    hide Table.Valid, Table.Snapshot, ColumnsFound, Namespace.Objects;
    TableNames(ns);
    forall n | n in ns.tables ensures n in ns.Tables() && ColumnsFound(ns.Tables()[n]) {
      TableBelow(ns, n);
      TableFinds(ns.tables[n]);
    }
  }

  /** So does every schema object, so that what is said of its contents above applies to it. */
  lemma SchemaFinds(s: Schema)
    requires s.Valid()
    ensures AllColumnsFound(s.Snapshot())
  {
    hide Namespace.Valid, Namespace.Snapshot, ColumnsFound;
    NamespaceNames(s);
    forall ns, n | ns in s.Snapshot().schemas && n in s.Snapshot().schemas[ns].tables
      ensures ColumnsFound(s.Snapshot().schemas[ns].tables[n])
    {
      NamespaceBelow(s, ns);
      NamespaceFinds(s.schemas[ns]);
    }
  }
}
