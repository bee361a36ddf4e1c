/** What each parsed statement does to the contents of a schema, failures included. */
module MutationSpec {
  import opened Catalog
  import opened TableEdits

  datatype Mutation =
    | CreateSchemaMutation(schema: string)
    | CreateTableMutation(schema: string, name: string, columns: seq<Column>,
                          primaryKey: Option<PrimaryKey>, constraints: seq<Constraint>)
    | AddColumnMutation(schema: string, table: string, col: Column)
    | CreateEnumTypeMutation(schema: string, name: string, labels: seq<string>)
    | CreateIndexMutation(schema: string, index: Index)
    | DropColumnMutation(schema: string, table: string, column: string)
    | AlterColumnTypeMutation(schema: string, table: string, column: string, fromType: string, toType: string)
    | SetNotNullMutation(schema: string, table: string, column: string)
    | DropNotNullMutation(schema: string, table: string, column: string)
    | SetDefaultMutation(schema: string, table: string, column: string, defaultExpr: string)
    | DropDefaultMutation(schema: string, table: string, column: string)
    | RenameColumnMutation(schema: string, table: string, oldName: string, newName: string)
    | AddConstraintMutation(schema: string, table: string, constraint: Constraint)
    | DropConstraintMutation(schema: string, table: string, name: string)

  /** The schema afterwards, and whether the mutation reported an error. */
  datatype Applied = Applied(schema: SchemaDef, failed: bool)

  datatype Merged = Merged(table: TableDef, failed: bool)

  predicate HasTable(s: SchemaDef, ns: string, n: string) {
    ns in s.schemas && n in s.schemas[ns].tables
  }

  function TableAt(s: SchemaDef, ns: string, n: string): TableDef
    requires HasTable(s, ns, n)
  {
    s.schemas[ns].tables[n]
  }

  function Put(s: SchemaDef, ns: string, n: string, t: TableDef): SchemaDef
    requires ns in s.schemas
  {
    SchemaDef(s.schemas[ns := s.schemas[ns].(tables := s.schemas[ns].tables[n := t])])
  }

  // ----- tables

  function TableColumns(t: TableDef): Columns {
    Columns(t.order, t.columns)
  }

  function SetColumns(t: TableDef, c: Columns): TableDef {
    t.(order := c.order, columns := c.byName)
  }

  function AppendColumn(t: TableDef, col: Column): TableDef {
    SetColumns(t, WithColumn(TableColumns(t), col))
  }

  function AppendColumns(t: TableDef, cols: seq<Column>): TableDef {
    if cols == [] then t else AppendColumn(AppendColumns(t, cols[..|cols| - 1]), cols[|cols| - 1])
  }

  /** CREATE TABLE on a placeholder: columns that are already there must have the same type and
      are kept, the others are appended; a mismatch stops the merge half-way. */
  function MergeColumns(t: TableDef, cols: seq<Column>): Merged {
    if cols == [] then Merged(t, false) else
    var before := MergeColumns(t, cols[..|cols| - 1]);
    var col := cols[|cols| - 1];
    if before.failed then before
    else if col.name in before.table.columns then
      Merged(before.table, before.table.columns[col.name].dataType != col.dataType)
    else Merged(AppendColumn(before.table, col), false)
  }

  function AttachAll(m: map<string, Constraint>, cs: seq<Constraint>, table: string): map<string, Constraint> {
    if cs == [] then m else
    var c := cs[|cs| - 1];
    AttachAll(m, cs[..|cs| - 1], table)[c.name := Attached(c, table)]
  }

  function WithMetadata(t: TableDef, primaryKey: Option<PrimaryKey>, constraints: seq<Constraint>): TableDef {
    t.(primaryKey := if primaryKey.Some? then primaryKey else t.primaryKey,
       constraints := AttachAll(t.constraints, constraints, t.name))
  }

  function Placeholder(schema: string, name: string): TableDef {
    EmptyTable(schema, name).(isPlaceholder := true)
  }

  // ----- mutations of a table that is there

  predicate HasColumn(t: TableDef, c: string) {
    c in t.columns && c in t.order
  }

  function ChangeColumn(t: TableDef, c: string, change: Column -> Column): Merged {
    if !HasColumn(t, c) then Merged(t, true)
    else Merged(t.(columns := t.columns[c := change(t.columns[c])]), false)
  }

  function Complete(t: TableDef, columns: seq<Column>, primaryKey: Option<PrimaryKey>,
    constraints: seq<Constraint>): Merged {
    if !t.isPlaceholder then Merged(t, true) else
    var merged := MergeColumns(t, columns);
    if merged.failed then merged
    else Merged(WithMetadata(merged.table.(isPlaceholder := false), primaryKey, constraints), false)
  }

  function EnterIndex(t: TableDef, i: Index): Merged {
    if i.name in t.indexes then Merged(t, !i.ifNotExists) else Merged(WithIndex(t, i), false)
  }

  /** A placeholder has nothing to rename. */
  function RenameColumn(t: TableDef, a: string, b: string): Merged {
    if t.isPlaceholder then Merged(t, false)
    else if !HasColumn(t, a) || b in t.columns then Merged(t, true)
    else Merged(SetColumns(t, Renamed(TableColumns(t), a, b)), false)
  }

  function MutateTable(m: Mutation, t: TableDef): Merged {
    match m
    case CreateTableMutation(_, _, columns, primaryKey, constraints) => Complete(t, columns, primaryKey, constraints)
    case AddColumnMutation(_, _, col) => Merged(AppendColumn(t, col), false)
    case CreateIndexMutation(_, i) => EnterIndex(t, i)
    case DropColumnMutation(_, _, c) =>
      if !HasColumn(t, c) then Merged(t, true)
      else Merged(SetColumns(t, WithoutColumn(TableColumns(t), c)), false)
    case AlterColumnTypeMutation(_, _, c, fromType, toType) =>
      if HasColumn(t, c) && fromType != "" && t.columns[c].dataType != fromType then Merged(t, true)
      else ChangeColumn(t, c, (x: Column) => x.(dataType := toType))
    case SetNotNullMutation(_, _, c) => ChangeColumn(t, c, (x: Column) => x.(isNullable := false))
    case DropNotNullMutation(_, _, c) => ChangeColumn(t, c, (x: Column) => x.(isNullable := true))
    case SetDefaultMutation(_, _, c, e) => ChangeColumn(t, c, (x: Column) => x.(defaultExpr := Some(e)))
    case DropDefaultMutation(_, _, c) => ChangeColumn(t, c, (x: Column) => x.(defaultExpr := None))
    case RenameColumnMutation(_, _, a, b) => RenameColumn(t, a, b)
    case AddConstraintMutation(_, n, c) =>
      Merged(t.(constraints := t.constraints[c.name := Attached(c, n)]), false)
    case DropConstraintMutation(_, _, c) => Merged(t.(constraints := t.constraints - {c}), false)
    case CreateSchemaMutation(_) => Merged(t, true)
    case CreateEnumTypeMutation(_, _, _) => Merged(t, true)
  }

  // ----- mutations of a schema

  predicate OfTable(m: Mutation) {
    !m.CreateSchemaMutation? && !m.CreateEnumTypeMutation?
  }

  function TableName(m: Mutation): string
    requires OfTable(m)
  {
    if m.CreateTableMutation? then m.name
    else if m.CreateIndexMutation? then m.index.table
    else m.table
  }

  /** The mutation creates its namespace where it is missing; the others fail. */
  predicate MakesNamespace(m: Mutation) {
    m.CreateSchemaMutation? || m.CreateTableMutation? || m.AddColumnMutation? || m.CreateEnumTypeMutation? ||
    m.CreateIndexMutation? || m.RenameColumnMutation?
  }

  function CreateEnumType(s: SchemaDef, ns: string, n: string, labels: seq<string>): Applied
    requires ns in s.schemas
  {
    if n in s.schemas[ns].types then Applied(s, true)
    else Applied(SchemaDef(s.schemas[ns := s.schemas[ns].(types := s.schemas[ns].types[n := EnumType(n, labels)])]),
      false)
  }

  /** What a mutation makes of a missing table: CREATE TABLE makes the table, ADD COLUMN and RENAME
      COLUMN a placeholder. */
  function NewTable(m: Mutation): Option<TableDef>
    requires OfTable(m)
  {
    match m
    case CreateTableMutation(ns, n, columns, primaryKey, constraints) =>
      Some(WithMetadata(AppendColumns(EmptyTable(ns, n), columns), primaryKey, constraints))
    case AddColumnMutation(ns, n, col) => Some(AppendColumn(Placeholder(ns, n), col))
    case RenameColumnMutation(ns, n, _, _) => Some(Placeholder(ns, n))
    case _ => None
  }

  /** A mutation of a table, in a schema that has its namespace. */
  function MutateOneTable(m: Mutation, s: SchemaDef): Applied
    requires OfTable(m) && m.schema in s.schemas
  {
    var ns, n := m.schema, TableName(m);
    if HasTable(s, ns, n) then
      var r := MutateTable(m, TableAt(s, ns, n));
      Applied(Put(s, ns, n, r.table), r.failed)
    else
      match NewTable(m)
      case None => Applied(s, true)
      case Some(t) => Applied(Put(s, ns, n, t), false)
  }

  function Mutate(m: Mutation, s: SchemaDef): Applied {
    var r := if MakesNamespace(m) then GetOrCreated(s, m.schema) else s;
    if m.schema !in r.schemas then Applied(r, true)
    else if m.CreateSchemaMutation? then Applied(r, false)
    else if m.CreateEnumTypeMutation? then CreateEnumType(r, m.schema, m.name, m.labels)
    else MutateOneTable(m, r)
  }

  /** The mutations in order; one that fails does not stop the others. */
  datatype Run = Run(schema: SchemaDef, errors: seq<Mutation>)

  function MutateAll(ms: seq<Mutation>, s: SchemaDef): Run {
    if ms == [] then Run(s, []) else
    var before := MutateAll(ms[..|ms| - 1], s);
    var m := ms[|ms| - 1];
    var r := Mutate(m, before.schema);
    Run(r.schema, if r.failed then before.errors + [m] else before.errors)
  }

  lemma MutateAllSnoc(ms: seq<Mutation>, m: Mutation, s: SchemaDef)
    ensures MutateAll(ms + [m], s) ==
      Run(Mutate(m, MutateAll(ms, s).schema).schema,
          if Mutate(m, MutateAll(ms, s).schema).failed then MutateAll(ms, s).errors + [m] else MutateAll(ms, s).errors)
  {
    assert (ms + [m])[..|ms|] == ms;
  }

  function ColumnNames(cols: seq<Column>): (r: seq<string>)
    ensures |r| == |cols| && forall i :: 0 <= i < |r| ==> r[i] == cols[i].name
  {
    seq(|cols|, i requires 0 <= i < |cols| => cols[i].name)
  }

  /** No column is appended under a name that its table has: the code does not check. */
  ghost predicate AddableTo(m: Mutation, t: Option<TableDef>) {
    && (m.AddColumnMutation? && t.Some? ==> m.col.name !in t.value.columns)
    && (m.CreateTableMutation? && t.None? ==> NoDuplicates(ColumnNames(m.columns)))
  }

  ghost predicate Addable(m: Mutation, s: SchemaDef) {
    OfTable(m) ==>
      AddableTo(m, if HasTable(s, m.schema, TableName(m)) then Some(TableAt(s, m.schema, TableName(m))) else None)
  }

  ghost predicate AllAddable(ms: seq<Mutation>, s: SchemaDef) {
    forall i :: 0 <= i < |ms| ==> Addable(ms[i], MutateAll(ms[..i], s).schema)
  }
}
