/** Canonicalizing a schema in place.  What happens to each string is a parameter; which strings it
    happens to, and in which objects, is modelled. */
module Normalize {
  import opened Catalog
  import opened TableEdits
  import opened Store
  import opened SchemaStore

  /** The canonical forms of identifiers, data types, default expressions, constraint definitions,
      the text of indexes and that of views. */
  datatype Canon = Canon(
    identifier: string -> string,
    dataType: string -> string,
    defaultExpr: string -> string,
    constraintDef: string -> string,
    indexText: string -> string,
    viewText: string -> string)

  // ----- canonical values

  function CanonColumn(f: Canon, c: Column): Column {
    c.(name := f.identifier(c.name), dataType := f.dataType(c.dataType),
       defaultExpr := if c.defaultExpr.Some? then Some(f.defaultExpr(c.defaultExpr.value)) else None)
  }

  function CanonType(f: Canon, e: EnumType): EnumType {
    e.(name := f.identifier(e.name))
  }

  function CanonConstraint(f: Canon, c: Constraint): Constraint {
    c.(name := f.identifier(c.name), definition := f.constraintDef(c.definition))
  }

  function PlainElement(column: string): IndexElem {
    IndexElem(column, "", "", "", "", "default", "default")
  }

  /** Introspection fills in the columns only, parsing the elements: the columns become elements. */
  function CanonIndex(f: Canon, i: Index): Index {
    i.(name := f.identifier(i.name),
       elements :=
         if i.elements == [] then seq(|i.columns|, k requires 0 <= k < |i.columns| => PlainElement(i.columns[k]))
         else i.elements,
       definition := f.indexText(i.definition),
       whereClause := f.indexText(i.whereClause))
  }

  function CanonView(f: Canon, v: View): View {
    v.(name := f.identifier(v.name), definition := f.viewText(v.definition))
  }

  function CanonSequence(f: Canon, q: Sequence): Sequence {
    q.(name := f.identifier(q.name), dataType := f.dataType(q.dataType))
  }

  function CanonExtension(f: Canon, e: Extension): Extension {
    e.(name := f.identifier(e.name))
  }

  ghost function Mapped<V, W>(m: map<string, V>, g: V -> W): map<string, W> {
    map n | n in m :: g(m[n])
  }

  function CanonSequenceOf(f: Canon, cols: seq<Column>): (r: seq<Column>)
    ensures |r| == |cols| && forall i :: 0 <= i < |r| ==> r[i] == CanonColumn(f, cols[i])
  {
    seq(|cols|, i requires 0 <= i < |cols| => CanonColumn(f, cols[i]))
  }

  /** No two columns of the table have the same canonical name. */
  ghost predicate CanonicalNamesApart(f: Canon, t: TableDef) {
    && (forall n :: n in t.order ==> n in t.columns)
    && forall i, j :: 0 <= i < j < |t.order| ==> f.identifier(t.order[i]) != f.identifier(t.order[j])
  }

  ghost function ColumnSeq(t: TableDef): seq<Column>
    requires forall n :: n in t.order ==> n in t.columns
  {
    seq(|t.order|, i requires 0 <= i < |t.order| => t.columns[t.order[i]])
  }

  /** The table's own name and schema are left alone. */
  ghost function CanonTable(f: Canon, t: TableDef): TableDef
    requires CanonicalNamesApart(f, t)
  {
    var c := InOrder(CanonSequenceOf(f, ColumnSeq(t)));
    t.(order := c.order, columns := c.byName,
       constraints := Mapped(t.constraints, (x: Constraint) => CanonConstraint(f, x)),
       indexes := Mapped(t.indexes, (x: Index) => CanonIndex(f, x)))
  }

  ghost predicate NamespaceApart(f: Canon, ns: NamespaceDef) {
    forall n :: n in ns.tables ==> CanonicalNamesApart(f, ns.tables[n])
  }

  ghost function CanonNamespace(f: Canon, ns: NamespaceDef): NamespaceDef
    requires NamespaceApart(f, ns)
  {
    NamespaceDef(ns.name, map n | n in ns.tables :: CanonTable(f, ns.tables[n]),
                 Mapped(ns.types, (x: EnumType) => CanonType(f, x)), Mapped(ns.views, (x: View) => CanonView(f, x)),
                 Mapped(ns.sequences, (x: Sequence) => CanonSequence(f, x)),
                 Mapped(ns.extensions, (x: Extension) => CanonExtension(f, x)))
  }

  ghost predicate SchemaApart(f: Canon, s: SchemaDef) {
    forall k :: k in s.schemas ==> NamespaceApart(f, s.schemas[k])
  }

  ghost function CanonSchema(f: Canon, s: SchemaDef): SchemaDef
    requires SchemaApart(f, s)
  {
    SchemaDef(map k | k in s.schemas :: CanonNamespace(f, s.schemas[k]))
  }

  // ----- the objects of a map

  /** Of the names of `m`, those not in `left` have been mapped. */
  ghost function MappedBut<V>(m: map<string, V>, left: set<string>, g: V -> V): map<string, V> {
    map n | n in m :: if n in left then m[n] else g(m[n])
  }

  lemma MappedEnds<V>(m: map<string, V>, g: V -> V)
    ensures MappedBut(m, m.Keys, g) == m && MappedBut(m, {}, g) == Mapped(m, g)
  {
  }

  method CanonicalizeLeaf<V>(m: map<string, Leaf<V>>, ghost before: map<string, V>, ghost left: set<string>, n: string,
                             g: V -> V)
    requires OwnLeaves(m, m.Values) && n in m && n in left
    requires Contents(m) == MappedBut(before, left, g)
    modifies m[n]
    ensures Contents(m) == MappedBut(before, left - {n}, g)
  {
    assert before.Keys == m.Keys by {
      assert Contents(m).Keys == m.Keys && MappedBut(before, left, g).Keys == before.Keys;
    }
    m[n].value := g(m[n].value);
    forall k | k in m ensures m[k].value == MappedBut(before, left - {n}, g)[k] {
      assert old(Contents(m))[k] == MappedBut(before, left, g)[k];
      assert k != n ==> m[k] != m[n];
    }
  }

  /** Overwrites every object of a map. */
  method CanonicalizeLeaves<V>(m: map<string, Leaf<V>>, g: V -> V)
    requires OwnLeaves(m, m.Values)
    modifies m.Values
    ensures Contents(m) == Mapped(old(Contents(m)), g)
  {
    hide Contents, MappedBut, OwnLeaves, Mapped;
    ghost var before := Contents(m);
    MappedEnds(before, g);
    assert before.Keys == m.Keys by { ContentKeys(m); }
    var left := m.Keys;
    while left != {}
      invariant left <= m.Keys
      invariant Contents(m) == MappedBut(before, left, g)
      decreases |left|
    {
      var n :| n in left;
      CanonicalizeLeaf(m, before, left, n, g);
      left := left - {n};
    }
  }

  lemma ContentKeys<V>(m: map<string, Leaf<V>>)
    ensures Contents(m).Keys == m.Keys
  {
  }

  // ----- the columns of a table

  method CanonicalizeColumn(f: Canon, col: ColumnObject)
    modifies col.Objects()
    ensures col.Snapshot() == CanonColumn(f, old(col.Snapshot()))
    ensures col.defaultExpr == old(col.defaultExpr)
  {
    col.name := f.identifier(col.name);
    col.dataType := f.dataType(col.dataType);
    if col.defaultExpr != null {
      col.defaultExpr.value := f.defaultExpr(col.defaultExpr.value);
    }
  }

  ghost predicate Separate(cs: seq<ColumnObject>)
    reads cs
  {
    forall j, k :: 0 <= j < |cs| && 0 <= k < |cs| && j != k ==>
      cs[j] != cs[k] && (cs[j].defaultExpr != null ==> cs[j].defaultExpr != cs[k].defaultExpr)
  }

  /** The first `i` columns have been canonicalized. */
  ghost predicate Progress(f: Canon, cs: seq<ColumnObject>, cols: seq<Column>, i: nat)
    reads cs, CellsOf(set c | c in cs)
  {
    && |cols| == |cs| && i <= |cs|
    && forall k :: 0 <= k < |cs| ==> cs[k].Snapshot() == if k < i then CanonColumn(f, cols[k]) else cols[k]
  }

  method CanonicalizeNext(f: Canon, cs: seq<ColumnObject>, ghost cols: seq<Column>, i: nat)
    requires i < |cs| && Separate(cs) && Progress(f, cs, cols, i)
    modifies cs[i].Objects()
    ensures Separate(cs) && Progress(f, cs, cols, i + 1)
    ensures cs[i].defaultExpr == old(cs[i].defaultExpr)
  {
    CanonicalizeColumn(f, cs[i]);
  }

  /** The lookup of the first `i` columns. */
  ghost predicate Looked(names: seq<string>, cs: seq<ColumnObject>, m: map<string, ColumnObject>) {
    && |names| <= |cs|
    && (forall k :: 0 <= k < |names| ==> names[k] in m && m[names[k]] == cs[k])
    && (forall n :: n in m ==> n in names)
  }

  lemma LookedNext(names: seq<string>, cs: seq<ColumnObject>, m: map<string, ColumnObject>, n: string)
    requires Looked(names, cs, m) && |names| < |cs| && n !in names
    ensures Looked(names + [n], cs, m[n := cs[|names|]])
  {
  }

  ghost function CanonNames(f: Canon, cols: seq<Column>): (r: seq<string>)
    ensures |r| == |cols| && forall i :: 0 <= i < |r| ==> r[i] == f.identifier(cols[i].name)
  {
    seq(|cols|, i requires 0 <= i < |cols| => f.identifier(cols[i].name))
  }

  /** Overwrites the columns and builds the lookup anew. */
  method CanonicalizeColumns(f: Canon, cs: seq<ColumnObject>) returns (m: map<string, ColumnObject>)
    requires Separate(cs) && NoDuplicates(CanonNames(f, SnapshotSeq(cs)))
    modifies cs, CellsOf(set c | c in cs)
    ensures SnapshotSeq(cs) == CanonSequenceOf(f, old(SnapshotSeq(cs)))
    ensures forall k :: 0 <= k < |cs| ==> cs[k].defaultExpr == old(cs[k].defaultExpr)
    ensures Looked(CanonNames(f, old(SnapshotSeq(cs))), cs, m)
  {
    hide Progress, Separate, Looked, CellsOf;
    ghost var cols := SnapshotSeq(cs);
    ghost var names := CanonNames(f, cols);
    ghost var frame: set<object> := (set c | c in cs) + CellsOf(set c | c in cs);
    InFrame(cs);
    m := map[];
    Begins(f, cs, cols, names);
    for i := 0 to |cs|
      invariant Separate(cs) && Progress(f, cs, cols, i) && Looked(names[..i], cs, m)
      invariant forall k :: 0 <= k < |cs| ==> cs[k].defaultExpr == old(cs[k].defaultExpr)
    {
      assert cs[i].Objects() <= frame by { assert old(cs[i].Objects()) <= frame; }
      CanonicalizeNext(f, cs, cols, i);
      ProgressAt(f, cs, cols, i + 1, i);
      assert names[..i + 1] == names[..i] + [names[i]];
      assert names[i] !in names[..i];
      LookedNext(names[..i], cs, m, names[i]);
      m := m[cs[i].name := cs[i]];
    }
    assert names[..|cs|] == names;
    Ends(f, cs, cols);
  }

  lemma Begins(f: Canon, cs: seq<ColumnObject>, cols: seq<Column>, names: seq<string>)
    requires cols == SnapshotSeq(cs)
    ensures Progress(f, cs, cols, 0) && Looked([], cs, map[])
  {
  }

  lemma Ends(f: Canon, cs: seq<ColumnObject>, cols: seq<Column>)
    requires Progress(f, cs, cols, |cs|)
    ensures SnapshotSeq(cs) == CanonSequenceOf(f, cols)
  {
  }

  lemma ProgressAt(f: Canon, cs: seq<ColumnObject>, cols: seq<Column>, i: nat, k: nat)
    requires Progress(f, cs, cols, i) && k < i
    ensures k < |cs| && cs[k].name == f.identifier(cols[k].name)
  {
  }

  lemma InFrame(cs: seq<ColumnObject>)
    ensures forall i :: 0 <= i < |cs| ==> cs[i].Objects() <= (set c | c in cs) + CellsOf(set c | c in cs)
  {
  }

  // ----- tables

  lemma ColumnsSeparate(t: Table)
    requires t.Valid()
    ensures Separate(t.columns)
  {
    hide OwnLeaves;
    var names, cs := NamesOf(t.columns), t.columns;
    forall j, k | 0 <= j < |cs| && 0 <= k < |cs| && j != k
      ensures cs[j] != cs[k] && (cs[j].defaultExpr != null ==> cs[j].defaultExpr != cs[k].defaultExpr)
    {
      assert names[j] != names[k];
      assert cs[j] in cs && cs[k] in cs;
    }
  }

  lemma SnapshotOrder(t: Table)
    requires t.Valid()
    ensures forall n :: n in t.Snapshot().order ==> n in t.Snapshot().columns
    ensures ColumnSeq(t.Snapshot()) == SnapshotSeq(t.columns) && t.Snapshot().order == NamesOf(t.columns)
  {
    hide OwnLeaves, OwnColumns;
    var names, cs := NamesOf(t.columns), t.columns;
    assert forall i :: 0 <= i < |cs| ==> names[i] in t.columnByName && t.columnByName[names[i]] == cs[i];
  }

  lemma ApartNames(f: Canon, t: Table)
    requires t.Valid() && CanonicalNamesApart(f, t.Snapshot())
    ensures NoDuplicates(CanonNames(f, SnapshotSeq(t.columns)))
  {
    SnapshotOrder(t);
    hide Table.Valid;
    assert forall i :: 0 <= i < |t.columns| ==> t.Snapshot().order[i] == t.columns[i].name;
  }

  /** The objects behind the pointers of a table are of different kinds. */
  lemma KindsApart(t: Table)
    ensures var cells, cs: set<object> := CellsOf(set c | c in t.columns), set c | c in t.columns;
      && (forall n :: n in t.constraints ==> t.constraints[n] !in cells && t.constraints[n] as object !in cs)
      && (forall n :: n in t.indexes ==> t.indexes[n] !in cells && t.indexes[n] as object !in cs)
      && (t.primaryKey != null ==> t.primaryKey !in cells && t.primaryKey as object !in cs)
  {
  }

  lemma AgreesAnew(f: Canon, cs: seq<ColumnObject>, cols: seq<Column>, m: map<string, ColumnObject>)
    requires SnapshotSeq(cs) == CanonSequenceOf(f, cols) && Looked(CanonNames(f, cols), cs, m) && |cols| == |cs|
    requires NoDuplicates(CanonNames(f, cols))
    ensures Agree(NamesOf(cs), cs, m)
  {
    assert NamesOf(cs) == CanonNames(f, cols);
  }

  /** Columns and default expressions lie below the table. */
  lemma ColumnsBelow(t: Table)
    requires t.Valid()
    ensures (set c | c in t.columns) <= t.repr && CellsOf(set c | c in t.columns) <= t.repr
    ensures t !in CellsOf(set c | c in t.columns)
  {
    hide Agree, OwnLeaves;
  }

  method OverwriteColumns(f: Canon, t: Table) returns (m: map<string, ColumnObject>)
    requires t.Valid() && NoDuplicates(CanonNames(f, SnapshotSeq(t.columns)))
    modifies t.repr - {t}
    ensures SnapshotSeq(t.columns) == CanonSequenceOf(f, old(SnapshotSeq(t.columns)))
    ensures Looked(CanonNames(f, old(SnapshotSeq(t.columns))), t.columns, m)
    ensures OwnColumns(t.columns, t.repr)
    ensures Pointee(t.primaryKey) == old(Pointee(t.primaryKey))
    ensures Contents(t.constraints) == old(Contents(t.constraints)) && Contents(t.indexes) == old(Contents(t.indexes))
  {
    hide Agree, NamesOf, OwnLeaves, Separate, Looked, Contents, CanonNames, CellsOf, OwnColumns;
    ColumnsSeparate(t);
    KindsApart(t);
    ColumnsBelow(t);
    m := CanonicalizeColumns(f, t.columns);
    t.OwnColumnsGrow();
    LeavesKept(t.constraints);
    LeavesKept(t.indexes);
  }

  method CanonicalizeTableColumns(f: Canon, t: Table)
    requires t.Valid() && CanonicalNamesApart(f, t.Snapshot())
    modifies t`columnByName, t.repr - {t}
    ensures t.Valid() && t.repr == old(t.repr)
    ensures forall n :: n in old(t.Snapshot()).order ==> n in old(t.Snapshot()).columns
    ensures t.ColumnView() == InOrder(CanonSequenceOf(f, ColumnSeq(old(t.Snapshot()))))
    ensures Pointee(t.primaryKey) == old(Pointee(t.primaryKey))
    ensures Contents(t.constraints) == old(Contents(t.constraints)) && Contents(t.indexes) == old(Contents(t.indexes))
  {
    hide Agree, NamesOf, SnapshotsOf, OwnLeaves, Looked, Contents, InOrder, CanonNames, CanonicalNamesApart,
      OwnColumns, CellsOf;
    SnapshotOrder(t);
    ApartNames(f, t);
    var m := OverwriteColumns(f, t);
    AgreesAnew(f, t.columns, old(SnapshotSeq(t.columns)), m);
    Relook(t, m);
    SliceIsView(t);
  }

  method Relook(t: Table, m: map<string, ColumnObject>)
    requires t in t.repr && OwnColumns(t.columns, t.repr) && (forall c :: c in t.columns ==> c in t.repr)
    requires t.primaryKey != null ==> t.primaryKey in t.repr
    requires OwnLeaves(t.constraints, t.repr) && OwnLeaves(t.indexes, t.repr) && Agree(NamesOf(t.columns), t.columns, m)
    modifies t`columnByName
    ensures t.Valid() && SnapshotSeq(t.columns) == old(SnapshotSeq(t.columns))
    ensures Pointee(t.primaryKey) == old(Pointee(t.primaryKey))
    ensures Contents(t.constraints) == old(Contents(t.constraints)) && Contents(t.indexes) == old(Contents(t.indexes))
  {
    hide Agree, OwnLeaves, Contents, CellsOf;
    t.columnByName := m;
    SequenceKept(t.columns);
    LeavesKept(t.constraints);
    LeavesKept(t.indexes);
  }

  lemma CellsKept(t: Table)
    requires t.Valid()
    ensures forall n :: n in t.columnByName ==> t.columnByName[n] in t.columns
    ensures var cells := CellsOf(set c | c in t.columns);
      forall n :: n in t.columnByName && t.columnByName[n].defaultExpr != null ==>
        t.columnByName[n].defaultExpr in cells
  {
    hide OwnLeaves, OwnColumns;
    LookupInSlice(NamesOf(t.columns), t.columns, t.columnByName);
  }

  lemma LeavesAlone<V>(m: map<string, Leaf<V>>, repr: set<object>)
    requires OwnLeaves(m, repr)
    ensures OwnLeaves(m, m.Values) && forall p :: p in m.Values ==> p in repr
  {
  }

  method CanonicalizeConstraints(f: Canon, t: Table)
    requires t.Valid()
    modifies t.constraints.Values
    ensures t.Valid() && t.repr == old(t.repr)
    ensures t.Snapshot() == old(t.Snapshot()).(constraints :=
      Mapped(old(t.Snapshot()).constraints, (x: Constraint) => CanonConstraint(f, x)))
  {
    hide Agree, NamesOf, SnapshotsOf, OwnLeaves, Contents, CellsOf, OwnColumns, Mapped;
    LeavesAlone(t.constraints, t.repr);
    KindsApart(t);
    CellsKept(t);
    CanonicalizeLeaves(t.constraints, (x: Constraint) => CanonConstraint(f, x));
    t.OwnColumnsGrow();
    SnapshotsKept(t.columnByName);
    LeavesKept(t.indexes);
  }

  method CanonicalizeIndexes(f: Canon, t: Table)
    requires t.Valid()
    modifies t.indexes.Values
    ensures t.Valid() && t.repr == old(t.repr)
    ensures t.Snapshot() ==
      old(t.Snapshot()).(indexes := Mapped(old(t.Snapshot()).indexes, (x: Index) => CanonIndex(f, x)))
  {
    hide Agree, NamesOf, SnapshotsOf, OwnLeaves, Contents, CellsOf, OwnColumns, Mapped;
    LeavesAlone(t.indexes, t.repr);
    KindsApart(t);
    CellsKept(t);
    CanonicalizeLeaves(t.indexes, (x: Index) => CanonIndex(f, x));
    t.OwnColumnsGrow();
    SnapshotsKept(t.columnByName);
    LeavesKept(t.constraints);
  }

  lemma LeavesIn(t: Table)
    requires t.Valid()
    ensures t in t.repr
    ensures forall p :: p in t.constraints.Values ==> p in t.repr
    ensures forall p :: p in t.indexes.Values ==> p in t.repr
  {
  }

  /** Canonicalizes a table in place.  The index map is left as it is, under the old names. */
  method CanonicalizeTable(f: Canon, t: Table)
    requires t.Valid() && CanonicalNamesApart(f, t.Snapshot())
    modifies t.repr
    ensures t.Valid() && t.repr == old(t.repr) && CanonicalNamesApart(f, old(t.Snapshot()))
    ensures t.Snapshot() == CanonTable(f, old(t.Snapshot()))
  {
    hide Table.Valid, CanonicalNamesApart, Mapped, Contents, InOrder;
    LeavesIn(t);
    CanonicalizeTableColumns(f, t);
    LeavesIn(t);
    CanonicalizeConstraints(f, t);
    LeavesIn(t);
    CanonicalizeIndexes(f, t);
  }

  // ----- namespaces

  /** The tables `left` are still to be canonicalized. */
  ghost function TablesBut(f: Canon, tables: map<string, TableDef>, left: set<string>): map<string, TableDef>
    requires forall n :: n in tables ==> CanonicalNamesApart(f, tables[n])
  {
    map n | n in tables :: if n in left then tables[n] else CanonTable(f, tables[n])
  }

  lemma TablesNext(f: Canon, tables: map<string, TableDef>, left: set<string>, n: string)
    requires (forall n :: n in tables ==> CanonicalNamesApart(f, tables[n])) && n in left && n in tables
    ensures TablesBut(f, tables, left)[n] == tables[n]
    ensures TablesBut(f, tables, left - {n}) == TablesBut(f, tables, left)[n := CanonTable(f, tables[n])]
  {
    hide CanonicalNamesApart, CanonTable;
  }

  lemma TablesEnd(f: Canon, ns: NamespaceDef)
    requires NamespaceApart(f, ns)
    ensures TablesBut(f, ns.tables, ns.tables.Keys) == ns.tables
    ensures TablesBut(f, ns.tables, {}) == CanonNamespace(f, ns).tables
  {
    hide CanonicalNamesApart, CanonTable;
  }

  method CanonicalizeOneTable(f: Canon, ns: Namespace, n: string)
    requires ns.Valid() && n in ns.tables && n in ns.Tables() && CanonicalNamesApart(f, ns.Tables()[n])
    modifies ns.repr - {ns}
    ensures ns.Valid() && ns.repr == old(ns.repr)
    ensures ns.Tables() == old(ns.Tables())[n := CanonTable(f, old(ns.Tables())[n])]
    ensures ns.Objects() == old(ns.Objects())
  {
    hide Namespace.Valid, Namespace.Tables, Namespace.Objects, Table.Valid, Table.Snapshot, CanonicalNamesApart,
      CanonTable;
    TableBelow(ns, n);
    CanonicalizeTable(f, ns.tables[n]);
    assert ns.repr == ns.repr + ns.tables[n].repr;
    ns.TableChanged(n);
  }

  method CanonicalizeTables(f: Canon, ns: Namespace)
    requires ns.Valid() && NamespaceApart(f, ns.Snapshot())
    modifies ns.repr - {ns}
    ensures ns.Valid() && ns.repr == old(ns.repr) && NamespaceApart(f, old(ns.Snapshot()))
    ensures ns.Snapshot() == old(ns.Snapshot()).(tables := CanonNamespace(f, old(ns.Snapshot())).tables)
  {
    hide Namespace.Valid, Namespace.Tables, Namespace.Objects, CanonicalNamesApart, CanonTable, TablesBut,
      CanonNamespace;
    ghost var before := ns.Snapshot();
    TablesEnd(f, before);
    TableNames(ns);
    var left := ns.tables.Keys;
    while left != {}
      invariant left <= ns.tables.Keys == before.tables.Keys
      invariant ns.Valid() && ns.repr == old(ns.repr) && ns.Objects() == old(ns.Objects())
      invariant ns.Tables() == TablesBut(f, before.tables, left)
      decreases |left|
    {
      var n :| n in left;
      TablesNext(f, before.tables, left, n);
      TableNames(ns);
      CanonicalizeOneTable(f, ns, n);
      left := left - {n};
    }
  }

  lemma ObjectsBelow(ns: Namespace)
    requires ns.Valid()
    ensures OwnLeaves(ns.types, ns.types.Values) && OwnLeaves(ns.views, ns.views.Values)
    ensures OwnLeaves(ns.sequences, ns.sequences.Values) && OwnLeaves(ns.extensions, ns.extensions.Values)
    ensures ns.Leaves() <= ns.repr && ns in ns.repr && ns !in ns.Leaves()
    ensures forall p :: p in ns.types.Values ==> p in ns.Leaves()
    ensures forall p :: p in ns.views.Values ==> p in ns.Leaves()
    ensures forall p :: p in ns.sequences.Values ==> p in ns.Leaves()
    ensures forall p :: p in ns.extensions.Values ==> p in ns.Leaves()
  {
    hide Table.Valid;
  }

  method CanonicalizeTypesAndViews(f: Canon, ns: Namespace)
    requires OwnLeaves(ns.types, ns.types.Values) && OwnLeaves(ns.views, ns.views.Values)
    modifies ns.types.Values, ns.views.Values
    ensures Contents(ns.types) == Mapped(old(Contents(ns.types)), (x: EnumType) => CanonType(f, x))
    ensures Contents(ns.views) == Mapped(old(Contents(ns.views)), (x: View) => CanonView(f, x))
  {
    hide OwnLeaves, Contents, Mapped;
    CanonicalizeLeaves(ns.types, (x: EnumType) => CanonType(f, x));
    CanonicalizeLeaves(ns.views, (x: View) => CanonView(f, x));
  }

  method CanonicalizeSequencesAndExtensions(f: Canon, ns: Namespace)
    requires OwnLeaves(ns.sequences, ns.sequences.Values) && OwnLeaves(ns.extensions, ns.extensions.Values)
    modifies ns.sequences.Values, ns.extensions.Values
    ensures Contents(ns.sequences) == Mapped(old(Contents(ns.sequences)), (x: Sequence) => CanonSequence(f, x))
    ensures Contents(ns.extensions) == Mapped(old(Contents(ns.extensions)), (x: Extension) => CanonExtension(f, x))
  {
    hide OwnLeaves, Contents, Mapped;
    CanonicalizeLeaves(ns.sequences, (x: Sequence) => CanonSequence(f, x));
    CanonicalizeLeaves(ns.extensions, (x: Extension) => CanonExtension(f, x));
  }

  /** Overwrites the four maps; pointers to different kinds of objects never meet. */
  method CanonicalizeObjects(f: Canon, ns: Namespace)
    requires ns.Valid()
    modifies ns.Leaves()
    ensures Contents(ns.types) == Mapped(old(Contents(ns.types)), (x: EnumType) => CanonType(f, x))
    ensures Contents(ns.views) == Mapped(old(Contents(ns.views)), (x: View) => CanonView(f, x))
    ensures Contents(ns.sequences) == Mapped(old(Contents(ns.sequences)), (x: Sequence) => CanonSequence(f, x))
    ensures Contents(ns.extensions) == Mapped(old(Contents(ns.extensions)), (x: Extension) => CanonExtension(f, x))
  {
    hide Namespace.Valid, Namespace.Leaves, OwnLeaves, Contents, Mapped;
    ObjectsBelow(ns);
    CanonicalizeTypesAndViews(f, ns);
    CanonicalizeSequencesAndExtensions(f, ns);
  }

  method CanonicalizeNamespace(f: Canon, ns: Namespace)
    requires ns.Valid() && NamespaceApart(f, ns.Snapshot())
    modifies ns.repr
    ensures ns.Valid() && ns.repr == old(ns.repr) && NamespaceApart(f, old(ns.Snapshot()))
    ensures ns.Snapshot() == CanonNamespace(f, old(ns.Snapshot()))
  {
    hide Namespace.Valid, Namespace.Tables, Namespace.Snapshot, NamespaceApart, Mapped, Contents;
    ObjectsOf(ns);
    CanonicalizeTables(f, ns);
    ObjectsOf(ns);
    OverwriteObjects(f, ns);
    ObjectsOf(ns);
  }

  method OverwriteObjects(f: Canon, ns: Namespace)
    requires ns.Valid()
    modifies ns.repr
    ensures ns.Valid() && ns.repr == old(ns.repr) && ns.Tables() == old(ns.Tables())
    ensures Contents(ns.types) == Mapped(old(Contents(ns.types)), (x: EnumType) => CanonType(f, x))
    ensures Contents(ns.views) == Mapped(old(Contents(ns.views)), (x: View) => CanonView(f, x))
    ensures Contents(ns.sequences) == Mapped(old(Contents(ns.sequences)), (x: Sequence) => CanonSequence(f, x))
    ensures Contents(ns.extensions) == Mapped(old(Contents(ns.extensions)), (x: Extension) => CanonExtension(f, x))
    ensures ns.name == old(ns.name)
  {
    hide Table.Valid, Table.Snapshot, Table.Exact, Namespace.Leaves, Namespace.OwnObjects, Contents, Mapped;
    ObjectsBelow(ns);
    CanonicalizeObjects(f, ns);
    ns.TablesStay();
  }

  // ----- schemas

  /** The namespaces `left` are still to be canonicalized. */
  ghost function NamespacesBut(f: Canon, m: map<string, NamespaceDef>, left: set<string>): map<string, NamespaceDef>
    requires forall k :: k in m ==> NamespaceApart(f, m[k])
  {
    map k | k in m :: if k in left then m[k] else CanonNamespace(f, m[k])
  }

  lemma NamespacesNext(f: Canon, m: map<string, NamespaceDef>, left: set<string>, k: string)
    requires (forall k :: k in m ==> NamespaceApart(f, m[k])) && k in left && k in m
    ensures NamespacesBut(f, m, left)[k] == m[k]
    ensures NamespacesBut(f, m, left - {k}) == NamespacesBut(f, m, left)[k := CanonNamespace(f, m[k])]
  {
    hide NamespaceApart, CanonNamespace;
  }

  lemma NamespacesEnd(f: Canon, s: SchemaDef)
    requires SchemaApart(f, s)
    ensures NamespacesBut(f, s.schemas, s.schemas.Keys) == s.schemas
    ensures SchemaDef(NamespacesBut(f, s.schemas, {})) == CanonSchema(f, s)
  {
    hide NamespaceApart, CanonNamespace;
  }

  method CanonicalizeOneNamespace(f: Canon, s: Schema, k: string)
    requires s.Valid() && k in s.schemas && k in s.Namespaces() && NamespaceApart(f, s.Namespaces()[k])
    modifies s.repr - {s}
    ensures s.Valid() && s.repr == old(s.repr)
    ensures s.Namespaces() == old(s.Namespaces())[k := CanonNamespace(f, old(s.Namespaces())[k])]
  {
    hide Schema.Valid, Schema.Namespaces, Namespace.Valid, Namespace.Snapshot, NamespaceApart, CanonNamespace;
    NamespaceBelow(s, k);
    CanonicalizeNamespace(f, s.schemas[k]);
    assert s.repr == s.repr + s.schemas[k].repr;
    s.NamespaceChanged(k);
  }

  /** Canonicalizes a schema in place, touching nothing but the objects below it. */
  method CanonicalizeSchema(f: Canon, s: Schema)
    requires s.Valid() && SchemaApart(f, s.Snapshot())
    modifies s.repr - {s}
    ensures s.Valid() && s.repr == old(s.repr) && SchemaApart(f, old(s.Snapshot()))
    ensures s.Snapshot() == CanonSchema(f, old(s.Snapshot()))
  {
    hide Schema.Valid, Schema.Namespaces, NamespaceApart, CanonNamespace, NamespacesBut, CanonSchema;
    ghost var before := s.Snapshot();
    NamespacesEnd(f, before);
    NamespaceNames(s);
    var left := s.schemas.Keys;
    while left != {}
      invariant left <= s.schemas.Keys == before.schemas.Keys
      invariant s.Valid() && s.repr == old(s.repr)
      invariant s.Namespaces() == NamespacesBut(f, before.schemas, left)
      decreases |left|
    {
      var k :| k in left;
      NamespacesNext(f, before.schemas, left, k);
      NamespaceNames(s);
      CanonicalizeOneNamespace(f, s, k);
      left := left - {k};
    }
  }
}
