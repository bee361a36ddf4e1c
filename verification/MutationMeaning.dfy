/** Where an operation has a mutation, the two agree: an operation that applies does what its
    mutation does. */
module MutationMeaning {
  import opened Catalog
  import opened Operations
  import opened Locality
  import opened TableEdits
  import opened Semantics
  import M = MutationSpec
  import C = Confluence

  /** The mutation that the statement of an operation is parsed into. */
  function MutationOf(op: Op): Option<M.Mutation> {
    match op
    case AddColumnOp(s, t, c) => Some(M.AddColumnMutation(s, t, c))
    case DropColumnOp(s, t, c) => Some(M.DropColumnMutation(s, t, c))
    case AlterColumnTypeOp(s, t, c, fromType, toType) => Some(M.AlterColumnTypeMutation(s, t, c, fromType, toType))
    case SetNotNullOp(s, t, c) => Some(M.SetNotNullMutation(s, t, c))
    case DropNotNullOp(s, t, c) => Some(M.DropNotNullMutation(s, t, c))
    case SetDefaultOp(s, t, c, e) => Some(M.SetDefaultMutation(s, t, c, e))
    case DropDefaultOp(s, t, c) => Some(M.DropDefaultMutation(s, t, c))
    case RenameColumnOp(s, t, a, b) => Some(M.RenameColumnMutation(s, t, a, b))
    case CreateIndexOp(s, i) => Some(M.CreateIndexMutation(s, i))
    case AddConstraintOp(s, t, c) => Some(M.AddConstraintMutation(s, t, c))
    case DropConstraintOp(s, t, n) => Some(M.DropConstraintMutation(s, t, n))
    case AddEnumTypeOp(s, n, e) => Some(M.CreateEnumTypeMutation(s, n, e.labels))
    case CreateSchemaOp(s) => Some(M.CreateSchemaMutation(s))
    case _ => None
  }

  predicate ChangesOneTable(op: Op) {
    MutationOf(op).Some? && !op.AddEnumTypeOp? && !op.CreateSchemaOp?
  }

  lemma ListedInOrder(t: TableDef, n: string)
    requires ColumnsWellFormed(Columns(t.order, t.columns))
    ensures n in t.columns <==> n in t.order
  {
  }

  lemma AlterMeaning(op: Op, t: TableDef)
    requires ChangesOneTable(op) && IsAlterColumn(op) && op.column in t.order && EditTable(t, op).Ok?
    ensures M.MutateTable(MutationOf(op).value, t) == M.Merged(EditTable(t, op).value, false)
  {
  }

  lemma ColumnMeaning(op: Op, t: TableDef)
    requires ChangesOneTable(op) && PartOfTable(op) == ColumnPart && !t.isPlaceholder
    requires ColumnsWellFormed(Columns(t.order, t.columns)) && EditTable(t, op).Ok?
    ensures M.MutateTable(MutationOf(op).value, t) == M.Merged(EditTable(t, op).value, false)
  {
    hide ColumnsWellFormed, WithColumn, WithoutColumn, Renamed, AlterColumn, M.ChangeColumn;
    if op.AddColumnOp? || op.DropColumnOp? || op.RenameColumnOp? {
    } else {
      assert op.column in t.columns;
      ListedInOrder(t, op.column);
      AlterMeaning(op, t);
    }
  }

  lemma RestMeaning(op: Op, t: TableDef)
    requires ChangesOneTable(op) && PartOfTable(op) != ColumnPart && EditTable(t, op).Ok?
    ensures M.MutateTable(MutationOf(op).value, t) == M.Merged(EditTable(t, op).value, false)
  {
    if op.CreateIndexOp? && op.index.name in t.indexes {
      assert t.indexes[op.index.name := t.indexes[op.index.name]] == t.indexes;
    }
  }

  lemma TableMeaning(op: Op, t: TableDef)
    requires ChangesOneTable(op) && !t.isPlaceholder
    requires ColumnsWellFormed(Columns(t.order, t.columns)) && EditTable(t, op).Ok?
    ensures M.MutateTable(MutationOf(op).value, t) == M.Merged(EditTable(t, op).value, false)
  {
    hide *;
    if PartOfTable(op) == ColumnPart { ColumnMeaning(op, t); } else { RestMeaning(op, t); }
  }

  lemma MutationTarget(op: Op)
    requires ChangesOneTable(op)
    ensures M.OfTable(MutationOf(op).value) && M.TableName(MutationOf(op).value) == TableOf(op)
    ensures MutationOf(op).value.schema == op.schema
  {
  }

  ghost predicate IsCreated(s: SchemaDef, ns: string, n: string) {
    M.HasTable(s, ns, n) &&
    var t := M.TableAt(s, ns, n);
    !t.isPlaceholder && ColumnsWellFormed(Columns(t.order, t.columns))
  }

  lemma TableStep(op: Op, s: SchemaDef)
    requires ChangesOneTable(op) && PartOf(op) == Tables && M.HasTable(s, op.schema, TableOf(op)) && ApplyOne(op, s).Ok?
    requires !op.AddTableOp? && !op.DropTableOp? && !op.DropIndexOp?
    ensures var t := M.TableAt(s, op.schema, TableOf(op));
      EditTable(t, op).Ok? && ApplyOne(op, s).value == M.Put(s, op.schema, TableOf(op), EditTable(t, op).value)
  {
    hide EditTable;
  }

  /** An operation that applies to a table that has been created does what its mutation does,
      which does not fail. */
  lemma OperationIsMutation(op: Op, s: SchemaDef)
    requires ChangesOneTable(op) && IsCreated(s, op.schema, TableOf(op)) && ApplyOne(op, s).Ok?
    ensures M.Mutate(MutationOf(op).value, s) == M.Applied(ApplyOne(op, s).value, false)
  {
    hide EditTable, M.MutateTable, ColumnsWellFormed, ApplyOne;
    var t := M.TableAt(s, op.schema, TableOf(op));
    TablesOnly(op);
    TableStep(op, s);
    MutationTarget(op);
    TableMeaning(op, t);
  }

  lemma TablesOnly(op: Op)
    requires ChangesOneTable(op)
    ensures PartOf(op) == Tables && !op.AddTableOp? && !op.DropTableOp? && !op.DropIndexOp?
  {
  }

  lemma EnumMeaning(op: Op, s: SchemaDef)
    requires op.AddEnumTypeOp? && ApplyOne(op, s).Ok?
    ensures M.Mutate(MutationOf(op).value, s) == M.Applied(ApplyOne(op, s).value, false)
  {
  }

  lemma SchemaMeaning(op: Op, s: SchemaDef)
    requires op.CreateSchemaOp?
    ensures ApplyOne(op, s).Ok? && M.Mutate(MutationOf(op).value, s) == M.Applied(ApplyOne(op, s).value, false)
  {
    if op.schema in s.schemas {
      assert s.schemas[op.schema := s.schemas[op.schema]] == s.schemas;
    }
  }

  // ----- CREATE TABLE

  function ColumnsInOrder(t: TableDef): seq<Column>
    requires forall n :: n in t.order ==> n in t.columns
  {
    seq(|t.order|, i requires 0 <= i < |t.order| => t.columns[t.order[i]])
  }

  /** `cs` lists the constraints of the map, each once, in some order. */
  ghost predicate Lists(cs: seq<Constraint>, m: map<string, Constraint>) {
    && (forall i :: 0 <= i < |cs| ==> cs[i].name in m && m[cs[i].name] == cs[i])
    && (forall n :: n in m ==> exists i :: 0 <= i < |cs| && cs[i].name == n)
  }

  predicate NamedIn(cs: seq<Constraint>, n: string) {
    exists i :: 0 <= i < |cs| && cs[i].name == n
  }

  lemma NamedInSnoc(cs: seq<Constraint>, n: string)
    requires cs != []
    ensures NamedIn(cs, n) <==> NamedIn(cs[..|cs| - 1], n) || n == cs[|cs| - 1].name
  {
    var init := cs[..|cs| - 1];
    if NamedIn(init, n) {
      var i :| 0 <= i < |init| && init[i].name == n;
      assert cs[i].name == n;
    }
    if NamedIn(cs, n) {
      var i :| 0 <= i < |cs| && cs[i].name == n;
      assert i < |init| ==> init[i].name == n;
    }
  }

  lemma {:induction false} AttachedEntries(cs: seq<Constraint>, table: string, m: map<string, Constraint>)
    requires forall i :: 0 <= i < |cs| ==> cs[i].name in m && m[cs[i].name] == cs[i]
    ensures var r := M.AttachAll(map[], cs, table);
      && (forall n :: n in r <==> NamedIn(cs, n))
      && (forall n :: n in r ==> n in m && r[n] == Attached(m[n], table))
  {
    hide NamedIn;
    if cs != [] {
      AttachedEntries(cs[..|cs| - 1], table, m);
      forall n ensures NamedIn(cs, n) <==> NamedIn(cs[..|cs| - 1], n) || n == cs[|cs| - 1].name {
        NamedInSnoc(cs, n);
      }
    } else {
      forall n ensures !NamedIn(cs, n) { NotNamedInNone(cs, n); }
    }
  }

  lemma NotNamedInNone(cs: seq<Constraint>, n: string)
    requires cs == []
    ensures !NamedIn(cs, n)
  {
  }

  lemma {:induction false} ColumnMapEntries(cols: seq<Column>)
    requires NoDuplicates(M.ColumnNames(cols))
    ensures forall i :: 0 <= i < |cols| ==>
      cols[i].name in C.ColumnMap(cols) && C.ColumnMap(cols)[cols[i].name] == cols[i]
  {
    if cols != [] {
      var init, last := cols[..|cols| - 1], cols[|cols| - 1];
      C.NamesSnoc(cols);
      C.DistinctPrefix(M.ColumnNames(init), last.name);
      ColumnMapEntries(init);
      forall i | 0 <= i < |init| ensures cols[i].name != last.name {
        assert M.ColumnNames(init)[i] == cols[i].name;
      }
    }
  }

  lemma ColumnsListed(t: TableDef)
    requires TableWellFormed(t)
    ensures M.ColumnNames(ColumnsInOrder(t)) == t.order
    ensures C.ColumnMap(ColumnsInOrder(t)) == t.columns
  {
    var cols := ColumnsInOrder(t);
    assert M.ColumnNames(cols) == t.order;
    ColumnMapEntries(cols);
    forall n | n in t.columns ensures n in C.ColumnMap(cols) && C.ColumnMap(cols)[n] == t.columns[n] {
      var i :| 0 <= i < |t.order| && t.order[i] == n;
      assert cols[i].name == n;
    }
    assert C.ColumnMap(cols).Keys == t.columns.Keys;
  }

  lemma AttachedIsCreated(ns: string, n: string, t: TableDef, cs: seq<Constraint>)
    requires TableWellFormed(t) && Lists(cs, t.constraints)
    ensures M.AttachAll(map[], cs, n) == Created(ns, n, t).constraints
  {
    hide Attached;
    AttachedEntries(cs, n, t.constraints);
    assert M.AttachAll(map[], cs, n).Keys == t.constraints.Keys;
  }

  lemma ExtendedEmpty(ns: string, n: string, order: seq<string>, columns: map<string, Column>)
    ensures C.Extended(EmptyTable(ns, n), order, columns) == EmptyTable(ns, n).(order := order, columns := columns)
  {
    var none: map<string, Column> := map[];
    assert none + columns == columns && [] + order == order;
  }

  lemma AppendedIsCreated(ns: string, n: string, t: TableDef)
    requires TableWellFormed(t)
    ensures M.AppendColumns(EmptyTable(ns, n), ColumnsInOrder(t)) ==
      EmptyTable(ns, n).(order := t.order, columns := t.columns)
  {
    hide M.AppendColumns, M.ColumnNames, C.ColumnMap, ColumnsInOrder, TableWellFormed;
    ColumnsListed(t);
    C.AppendedColumns(EmptyTable(ns, n), ColumnsInOrder(t));
    ExtendedEmpty(ns, n, t.order, t.columns);
  }

  /** ADD TABLE creates what CREATE TABLE with its columns in order and its constraints in any
      order makes: everything but the indexes. */
  lemma CreateTableMeaning(ns: string, n: string, t: TableDef, cs: seq<Constraint>)
    requires TableWellFormed(t) && Lists(cs, t.constraints)
    ensures M.NewTable(M.CreateTableMutation(ns, n, ColumnsInOrder(t), t.primaryKey, cs)) == Some(Created(ns, n, t))
  {
    hide TableWellFormed, Lists, M.AppendColumns, M.AttachAll, ColumnsInOrder;
    AttachedIsCreated(ns, n, t, cs);
    AppendedIsCreated(ns, n, t);
  }
}
