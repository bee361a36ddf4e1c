/** Without permission to drop, no plan loses an object, whichever of its operations fail. */
module SafeMode {
  import opened Catalog
  import opened Operations
  import opened Names
  import opened Graphs
  import opened Lists
  import opened Dag
  import opened Planner
  import opened PlanTheorems
  import opened DiffSpec
  import opened RenameTheory
  import opened Locality
  import opened TableEdits
  import opened Semantics
  import opened ColumnMigration
  import opened TableMigration
  import opened DiffShape
  import opened TableSteps
  import opened PlannedDiff

  // ----- runs that go on after a failure

  /** Applying operations in order, leaving out those that fail. */
  ghost function ApplyEach(ops: seq<Op>, s: SchemaDef): SchemaDef {
    if ops == [] then s else
    var r := ApplyEach(ops[..|ops| - 1], s);
    match ApplyOne(ops[|ops| - 1], r)
    case Fail => r
    case Ok(x) => x
  }

  // ----- what is kept

  /** `m` is the name that `op` leaves the column `n` of a table under. */
  predicate Follows(op: Op, ns: string, table: string, n: string, m: string) {
    n == m || op == RenameColumnOp(ns, table, n, m)
  }

  predicate Restates(op: Op, ns: string, table: string, n: string) {
    op.AlterColumnCollationOp? && op.schema == ns && op.table == table && op.column == n
  }

  /** The column keeps an identity that it has, and its type unless a change of collation restates it. */
  predicate KeepsColumn(op: Op, ns: string, table: string, n: string, a: Column, b: Column) {
    && (a.isIdentity ==> b.isIdentity)
    && b.dataType == if Restates(op, ns, table, n) then op.dataType else a.dataType
  }

  ghost predicate KeepsColumns(op: Op, ns: string, table: string, a: map<string, Column>, b: map<string, Column>) {
    forall n :: n in a ==>
      exists m :: Follows(op, ns, table, n, m) && m in b && KeepsColumn(op, ns, table, n, a[n], b[m])
  }

  ghost predicate KeepsTable(op: Op, ns: string, a: TableDef, b: TableDef) {
    && a.name == b.name
    && KeepsColumns(op, ns, a.name, a.columns, b.columns)
    && a.constraints.Keys <= b.constraints.Keys
    && a.indexes.Keys <= b.indexes.Keys
  }

  ghost predicate KeepsTables(op: Op, ns: string, a: map<string, TableDef>, b: map<string, TableDef>) {
    forall n :: n in a ==> n in b && KeepsTable(op, ns, a[n], b[n])
  }

  ghost predicate KeepsTypes(a: map<string, EnumType>, b: map<string, EnumType>) {
    forall n :: n in a ==> n in b && a[n].labels <= b[n].labels
  }

  /** Only a view that is to be created again is dropped. */
  ghost predicate KeepsViewNames(op: Op, ns: string, a: map<string, View>, b: map<string, View>) {
    forall n :: n in a ==> n in b || op == DropViewOp(ns, n, true)
  }

  ghost predicate KeepsNamespace(op: Op, ns: string, a: NamespaceDef, b: NamespaceDef) {
    && KeepsTables(op, ns, a.tables, b.tables)
    && KeepsViewNames(op, ns, a.views, b.views)
    && KeepsTypes(a.types, b.types)
    && a.sequences.Keys <= b.sequences.Keys
    && a.extensions.Keys <= b.extensions.Keys
  }

  /** One operation loses nothing: at most it renames a column. */
  ghost predicate KeepsOnce(op: Op, a: SchemaDef, b: SchemaDef) {
    forall ns :: ns in a.schemas ==> ns in b.schemas && KeepsNamespace(op, ns, a.schemas[ns], b.schemas[ns])
  }

  lemma SameColumn(op: Op, ns: string, table: string, n: string, a: Column)
    requires !Restates(op, ns, table, n)
    ensures Follows(op, ns, table, n, n) && KeepsColumn(op, ns, table, n, a, a)
  {
  }

  lemma SameTable(op: Op, ns: string, a: TableDef)
    requires op.AlterColumnCollationOp? ==> op.schema != ns || op.table != a.name
    ensures KeepsTable(op, ns, a, a)
  {
    hide Follows, KeepsColumn;
    forall n | n in a.columns
      ensures Follows(op, ns, a.name, n, n) && KeepsColumn(op, ns, a.name, n, a.columns[n], a.columns[n])
    {
      SameColumn(op, ns, a.name, n, a.columns[n]);
    }
  }

  lemma StaysInNamespace(op: Op, ns: string, a: NamespaceDef)
    requires op.AlterColumnCollationOp? ==> op.schema != ns
    ensures KeepsNamespace(op, ns, a, a)
  {
    forall n | n in a.tables ensures KeepsTable(op, ns, a.tables[n], a.tables[n]) {
      SameTable(op, ns, a.tables[n]);
    }
  }

  // ----- one operation that is not destructive

  lemma ColumnEditKeeps(op: Op, c: Columns)
    requires op.IsColumnOp() && !op.IsDestructive() && EditColumns(c, op).Ok?
    ensures KeepsColumns(op, op.schema, op.table, c.byName, EditColumns(c, op).value.byName)
  {
    var d := EditColumns(c, op).value;
    forall n | n in c.byName
      ensures exists m :: Follows(op, op.schema, op.table, n, m) && m in d.byName &&
                          KeepsColumn(op, op.schema, op.table, n, c.byName[n], d.byName[m])
    {
      if op.RenameColumnOp? && op.oldName == n {
        assert Follows(op, op.schema, op.table, n, op.newName);
      } else {
        assert Follows(op, op.schema, op.table, n, n);
      }
    }
  }

  lemma TableEditKeeps(op: Op, t: TableDef)
    requires !op.IsDestructive() && PartOf(op) == Tables && TableOf(op) == t.name && EditTable(t, op).Ok?
    ensures KeepsTable(op, op.schema, t, EditTable(t, op).value)
  {
    hide EditColumns, KeepsColumns;
    if op.IsColumnOp() {
      ColumnEditKeeps(op, Columns(t.order, t.columns));
    } else {
      SameTable(op, op.schema, t);
    }
  }

  ghost predicate TablesNamed(tables: map<string, TableDef>) {
    forall n :: n in tables ==> tables[n].name == n
  }

  lemma TablesStepKeeps(op: Op, m: map<string, TableDef>)
    requires !op.IsDestructive() && PartOf(op) == Tables && TablesNamed(m)
    requires Step(op, m, TableName(), IsDropIndex(), TableEffect()).Ok?
    ensures var r := Step(op, m, TableName(), IsDropIndex(), TableEffect()).value;
      KeepsTables(op, op.schema, m, r) && TablesNamed(r)
  {
    hide EditTable, KeepsTable, PartOfTable;
    var k := TableOf(op);
    var r := Step(op, m, TableName(), IsDropIndex(), TableEffect()).value;
    assert !op.DropIndexOp? && !op.DropTableOp?;
    if k in m && !op.AddTableOp? {
      TableEditKeeps(op, m[k]);
      assert KeepsTable(op, op.schema, m[k], r[k]);
      assert r[k].name == k by { KeepsName(op, m[k], r[k]); }
    } else {
      assert op.AddTableOp? && k !in m && r == m[k := Created(op.schema, op.name, op.tableDef)];
    }
    forall n | n in m ensures n in r && KeepsTable(op, op.schema, m[n], r[n]) {
      if n != k || op.AddTableOp? { SameTable(op, op.schema, m[n]); }
    }
  }

  lemma KeepsName(op: Op, a: TableDef, b: TableDef)
    requires KeepsTable(op, op.schema, a, b)
    ensures b.name == a.name
  {
  }

  lemma ObjectsStepKeeps(op: Op, ns: NamespaceDef)
    requires !op.IsDestructive() && PartOf(op) != Tables && PartOf(op) != Whole && EditNamespace(ns, op).Ok?
    ensures var r := EditNamespace(ns, op).value;
      && r.tables == ns.tables
      && KeepsViewNames(op, op.schema, ns.views, r.views)
      && KeepsTypes(ns.types, r.types)
      && ns.sequences.Keys <= r.sequences.Keys
      && ns.extensions.Keys <= r.extensions.Keys
  {
  }

  lemma NamespaceStepKeeps(op: Op, ns: NamespaceDef)
    requires !op.IsDestructive() && TablesNamed(ns.tables) && EditNamespace(ns, op).Ok?
    ensures KeepsNamespace(op, op.schema, ns, EditNamespace(ns, op).value)
    ensures TablesNamed(EditNamespace(ns, op).value.tables)
  {
    if PartOf(op) == Tables {
      TablesStepKeeps(op, ns.tables);
    } else if PartOf(op) != Whole {
      hide EditNamespace, KeepsTable;
      StaysInNamespace(op, op.schema, ns);
      ObjectsStepKeeps(op, ns);
    }
  }

  ghost predicate AllTablesNamed(s: SchemaDef) {
    forall ns :: ns in s.schemas ==> TablesNamed(s.schemas[ns].tables)
  }

  lemma OneKeeps(op: Op, s: SchemaDef)
    requires !op.IsDestructive() && AllTablesNamed(s) && ApplyOne(op, s).Ok?
    ensures KeepsOnce(op, s, ApplyOne(op, s).value) && AllTablesNamed(ApplyOne(op, s).value)
  {
    hide EditNamespace, KeepsNamespace, TablesNamed;
    var r := ApplyOne(op, s).value;
    if op.schema in s.schemas {
      if op.CreateSchemaOp? {
        StaysInNamespace(op, op.schema, s.schemas[op.schema]);
      } else {
        NamespaceStepKeeps(op, s.schemas[op.schema]);
      }
    } else {
      NoTablesNamed(op.schema);
    }
    forall ns | ns in s.schemas ensures ns in r.schemas && KeepsNamespace(op, ns, s.schemas[ns], r.schemas[ns]) {
      if ns != op.schema { StaysInNamespace(op, ns, s.schemas[ns]); }
    }
  }

  lemma NoTablesNamed(ns: string)
    ensures TablesNamed(EmptyNamespace(ns).tables)
  {
  }

  // ----- whole runs

  /** The names that a column may have come to have: its own, and those it was renamed to. */
  ghost function Trail(ops: seq<Op>, ns: string, table: string, n: string): set<string> {
    if ops == [] then {n} else
    var before := Trail(ops[..|ops| - 1], ns, table, n);
    var op := ops[|ops| - 1];
    if op.RenameColumnOp? && op.schema == ns && op.table == table && op.oldName in before
    then before + {op.newName} else before
  }

  /** A change of collation has restated the column's type as `dataType`. */
  ghost predicate RestatedTo(ops: seq<Op>, ns: string, table: string, n: string, dataType: string) {
    exists i, m ::
      0 <= i < |ops| && m in Trail(ops, ns, table, n) && Restates(ops[i], ns, table, m) && ops[i].dataType == dataType
  }

  /** The column has the identity that it had, and its type but for changes of collation. */
  ghost predicate SameData(ops: seq<Op>, ns: string, table: string, n: string, a: Column, b: Column) {
    && (a.isIdentity ==> b.isIdentity)
    && (b.dataType == a.dataType || RestatedTo(ops, ns, table, n, b.dataType))
  }

  /** The columns are there under a name of their trails. */
  ghost predicate HasColumns(ops: seq<Op>, ns: string, table: string, a: map<string, Column>, b: map<string, Column>) {
    forall n :: n in a ==>
      exists m :: m in Trail(ops, ns, table, n) && m in b && SameData(ops, ns, table, n, a[n], b[m])
  }

  ghost predicate StillThere(ops: seq<Op>, ns: string, a: TableDef, b: TableDef) {
    && a.name == b.name
    && HasColumns(ops, ns, a.name, a.columns, b.columns)
    && a.constraints.Keys <= b.constraints.Keys
    && a.indexes.Keys <= b.indexes.Keys
  }

  ghost predicate HasNamespace(ops: seq<Op>, ns: string, a: NamespaceDef, b: NamespaceDef) {
    && (forall n :: n in a.tables ==> n in b.tables && StillThere(ops, ns, a.tables[n], b.tables[n]))
    && (forall n :: n in a.views ==> n in b.views || DropViewOp(ns, n, true) in ops)
    && KeepsTypes(a.types, b.types)
    && a.sequences.Keys <= b.sequences.Keys
    && a.extensions.Keys <= b.extensions.Keys
  }

  /** `b` still has all of `a`: namespaces, tables, columns with their types and identities,
      constraint and index names, enum types with their labels in front, sequences, extensions, and
      views but those dropped to be created again. */
  ghost predicate Has(ops: seq<Op>, a: SchemaDef, b: SchemaDef) {
    forall ns :: ns in a.schemas ==> ns in b.schemas && HasNamespace(ops, ns, a.schemas[ns], b.schemas[ns])
  }

  lemma HasColumnsStep(ops: seq<Op>, op: Op, ns: string, table: string, a: map<string, Column>, b: map<string, Column>,
                       c: map<string, Column>)
    requires HasColumns(ops, ns, table, a, b) && KeepsColumns(op, ns, table, b, c)
    ensures HasColumns(ops + [op], ns, table, a, c)
  {
    hide SameData, KeepsColumn, Follows, Trail;
    forall n | n in a
      ensures exists m :: m in Trail(ops + [op], ns, table, n) && m in c &&
                          SameData(ops + [op], ns, table, n, a[n], c[m])
    {
      var k :| k in Trail(ops, ns, table, n) && k in b && SameData(ops, ns, table, n, a[n], b[k]);
      var m :| Follows(op, ns, table, k, m) && m in c && KeepsColumn(op, ns, table, k, b[k], c[m]);
      TrailGrows(ops, op, ns, table, n, k, m);
      SameDataStep(ops, op, ns, table, n, k, a[n], b[k], c[m]);
    }
  }

  lemma TrailGrows(ops: seq<Op>, op: Op, ns: string, table: string, n: string, k: string, m: string)
    requires k in Trail(ops, ns, table, n) && Follows(op, ns, table, k, m)
    ensures m in Trail(ops + [op], ns, table, n)
  {
    assert (ops + [op])[..|ops|] == ops;
  }

  lemma RestatedStays(ops: seq<Op>, op: Op, ns: string, table: string, n: string, dataType: string)
    requires RestatedTo(ops, ns, table, n, dataType)
    ensures RestatedTo(ops + [op], ns, table, n, dataType)
  {
    var more := ops + [op];
    var i, m :| 0 <= i < |ops| && m in Trail(ops, ns, table, n) && Restates(ops[i], ns, table, m) &&
      ops[i].dataType == dataType;
    assert more[..|ops|] == ops && more[i] == ops[i] && m in Trail(more, ns, table, n);
  }

  lemma SameDataStep(ops: seq<Op>, op: Op, ns: string, table: string, n: string, k: string, a: Column, b: Column,
                     c: Column)
    requires SameData(ops, ns, table, n, a, b) && k in Trail(ops, ns, table, n) && KeepsColumn(op, ns, table, k, b, c)
    ensures SameData(ops + [op], ns, table, n, a, c)
  {
    var more := ops + [op];
    if Restates(op, ns, table, k) {
      assert more[..|ops|] == ops && more[|ops|] == op && k in Trail(more, ns, table, n);
    } else if b.dataType != a.dataType {
      RestatedStays(ops, op, ns, table, n, b.dataType);
    }
  }

  lemma HasTableStep(ops: seq<Op>, op: Op, ns: string, a: TableDef, b: TableDef, c: TableDef)
    requires StillThere(ops, ns, a, b) && KeepsTable(op, ns, b, c)
    ensures StillThere(ops + [op], ns, a, c)
  {
    HasColumnsStep(ops, op, ns, a.name, a.columns, b.columns, c.columns);
  }

  lemma HasNamespaceStep(ops: seq<Op>, op: Op, ns: string, a: NamespaceDef, b: NamespaceDef, c: NamespaceDef)
    requires HasNamespace(ops, ns, a, b) && KeepsNamespace(op, ns, b, c)
    ensures HasNamespace(ops + [op], ns, a, c)
  {
    hide StillThere, KeepsTable;
    forall n | n in a.tables ensures n in c.tables && StillThere(ops + [op], ns, a.tables[n], c.tables[n]) {
      HasTableStep(ops, op, ns, a.tables[n], b.tables[n], c.tables[n]);
    }
  }

  lemma HasStep(ops: seq<Op>, op: Op, a: SchemaDef, b: SchemaDef, c: SchemaDef)
    requires Has(ops, a, b) && KeepsOnce(op, b, c)
    ensures Has(ops + [op], a, c)
  {
    hide HasNamespace, KeepsNamespace;
    forall ns | ns in a.schemas ensures ns in c.schemas && HasNamespace(ops + [op], ns, a.schemas[ns], c.schemas[ns]) {
      HasNamespaceStep(ops, op, ns, a.schemas[ns], b.schemas[ns], c.schemas[ns]);
    }
  }

  lemma HasColumnsStays(ops: seq<Op>, op: Op, ns: string, table: string, a: map<string, Column>, b: map<string, Column>)
    requires HasColumns(ops, ns, table, a, b)
    ensures HasColumns(ops + [op], ns, table, a, b)
  {
    hide RestatedTo;
    assert (ops + [op])[..|ops|] == ops;
    forall n | n in a
      ensures exists m :: m in Trail(ops + [op], ns, table, n) && m in b &&
                          SameData(ops + [op], ns, table, n, a[n], b[m])
    {
      var m :| m in Trail(ops, ns, table, n) && m in b && SameData(ops, ns, table, n, a[n], b[m]);
      if RestatedTo(ops, ns, table, n, b[m].dataType) { RestatedStays(ops, op, ns, table, n, b[m].dataType); }
      assert m in Trail(ops + [op], ns, table, n);
    }
  }

  lemma HasStays(ops: seq<Op>, op: Op, a: SchemaDef, b: SchemaDef)
    requires Has(ops, a, b)
    ensures Has(ops + [op], a, b)
  {
    hide HasColumns;
    forall ns, n | ns in a.schemas && n in a.schemas[ns].tables
      ensures StillThere(ops + [op], ns, a.schemas[ns].tables[n], b.schemas[ns].tables[n])
    {
      var x, y := a.schemas[ns].tables[n], b.schemas[ns].tables[n];
      assert HasNamespace(ops, ns, a.schemas[ns], b.schemas[ns]) && StillThere(ops, ns, x, y);
      HasColumnsStays(ops, op, ns, x.name, x.columns, y.columns);
    }
  }

  lemma HasItself(s: SchemaDef)
    ensures Has([], s, s)
  {
    forall ns, n | ns in s.schemas && n in s.schemas[ns].tables
      ensures StillThere([], ns, s.schemas[ns].tables[n], s.schemas[ns].tables[n])
    {
      assert forall c :: c in Trail([], ns, n, c);
    }
  }

  ghost predicate NoneDestructive(ops: seq<Op>) {
    forall i :: 0 <= i < |ops| ==> !ops[i].IsDestructive()
  }

  /** A run of operations that are not destructive loses nothing, in any order and whichever of
      them fail. */
  lemma {:induction false} NothingLost(ops: seq<Op>, s: SchemaDef)
    requires AllTablesNamed(s) && NoneDestructive(ops)
    ensures Has(ops, s, ApplyEach(ops, s)) && AllTablesNamed(ApplyEach(ops, s))
  {
    if ops == [] {
      HasItself(s);
    } else {
      hide Has, AllTablesNamed, KeepsOnce, ApplyOne;
      var init, op := ops[..|ops| - 1], ops[|ops| - 1];
      assert ops == init + [op];
      NothingLost(init, s);
      var r := ApplyEach(init, s);
      if ApplyOne(op, r).Ok? {
        OneKeeps(op, r);
        HasStep(init, op, s, r, ApplyEach(ops, s));
      } else {
        HasStays(init, op, s, r);
      }
    }
  }

  // ----- the differ's plans

  lemma RenameIsOfTable(op: Op)
    requires op.RenameColumnOp?
    ensures OfTable(op.schema, op.table, ColumnPart)(op)
  {
  }

  /** The renames of a plan are those of the differ. */
  lemma PlannedRename(s: SchemaDef, t: SchemaDef, walk: Walk, op: Op)
    requires WellFormed(s) && WellFormed(t) && op in DiffOps(s, t, walk) && op.RenameColumnOp?
    ensures IsCommon(s, t, op.schema, op.table)
    ensures IsRename(s.schemas[op.schema].tables[op.table], t.schemas[op.schema].tables[op.table], op.oldName,
      op.newName)
  {
    hide DiffOps, WellFormed, Filter, OfTable, IsRename;
    var ns, n := op.schema, op.table;
    RenameIsOfTable(op);
    if ns in t.schemas {
      DiffOfAnyTable(s, t, walk, ns, n, ColumnPart);
      RenameOfBlock(SourceOf(s, ns), t.schemas[ns], walk, n, op);
    } else {
      NoOpsOfTable(s, t, walk, ns, n);
    }
  }

  lemma NoOpsOfTable(s: SchemaDef, t: SchemaDef, walk: Walk, ns: string, n: string)
    requires WellFormed(s) && WellFormed(t) && ns !in t.schemas
    ensures Filter(DiffOps(s, t, walk), OfTable(ns, n, ColumnPart)) == []
  {
    hide DiffOps, WellFormed, Filter, PartOf, PartOfTable, TableOf;
    forall op | OfTable(ns, n, ColumnPart)(op) ensures op.schema == ns && PartOf(op) == Tables {
      OfTableIsTables(ns, n, ColumnPart, op);
    }
    SelectInside(DiffOps(s, t, walk), ns, Tables, OfTable(ns, n, ColumnPart));
    SchemaOps(s, t, walk, ns);
    NothingButDrop(s, t, walk, ns);
  }

  lemma {:induction false} RenameOpsGive(schema: string, table: string, pairs: seq<(string, string)>, op: Op)
    requires op in RenameOps(schema, table, pairs)
    ensures op.RenameColumnOp? && (op.oldName, op.newName) in pairs
  {
    var init, last := pairs[..|pairs| - 1], pairs[|pairs| - 1];
    if op in RenameOps(schema, table, init) {
      RenameOpsGive(schema, table, init, op);
    } else {
      assert last == (last.0, last.1);
    }
  }

  lemma RestHasNoRename(schema: string, s: TableDef, t: TableDef, walk: seq<string>, op: Op)
    requires op in TableColumnOps(schema, s, t, walk) && op.RenameColumnOp?
    ensures op in RenameOps(schema, t.name, Renames(s, t))
  {
    EmittedShape(schema, s, t, walk);
    RestPlain(schema, s, t, walk);
    hide TableColumnOps, RestOps, RenameOps, Renames;
  }

  lemma RenameOfBlock(s: NamespaceDef, t: NamespaceDef, walk: Walk, n: string, op: Op)
    requires op in PartBlock(s, t, walk, n, ColumnPart)(n) && op.RenameColumnOp?
    ensures n in s.tables && n in t.tables && IsRename(s.tables[n], t.tables[n], op.oldName, op.newName)
  {
    hide TableColumnOps, TableIndexOps, TableConstraintOps, Renames;
    RestHasNoRename(s.name, s.tables[n], t.tables[n], walk(s.name, n), op);
    RenameOpsGive(s.name, t.tables[n].name, Renames(s.tables[n], t.tables[n]), op);
    RenamesExact(s.tables[n], t.tables[n], op.oldName, op.newName);
  }

  /** The names that the plan may leave a source column under: its own, or its rename target. */
  ghost predicate OwnOrRenamed(s: SchemaDef, t: SchemaDef, ns: string, table: string, n: string, m: string) {
    m == n ||
    (IsCommon(s, t, ns, table) && IsRename(s.schemas[ns].tables[table], t.schemas[ns].tables[table], n, m))
  }

  lemma OwnIsOwn(s: SchemaDef, t: SchemaDef, ns: string, table: string, n: string)
    ensures OwnOrRenamed(s, t, ns, table, n, n)
  {
  }

  lemma NoSecondRename(s: SchemaDef, t: SchemaDef, ns: string, table: string, n: string, a: string, b: string)
    requires OwnOrRenamed(s, t, ns, table, n, a) && IsCommon(s, t, ns, table)
    requires IsRename(s.schemas[ns].tables[table], t.schemas[ns].tables[table], a, b)
    ensures OwnOrRenamed(s, t, ns, table, n, b)
  {
  }

  ghost predicate TrailIsShort(s: SchemaDef, t: SchemaDef, ops: seq<Op>, ns: string, table: string, n: string) {
    forall m :: m in Trail(ops, ns, table, n) ==> OwnOrRenamed(s, t, ns, table, n, m)
  }

  /** If the operation is a rename, it is one the differ matched. */
  ghost predicate AlterMatches(s: SchemaDef, t: SchemaDef, op: Op) {
    op.RenameColumnOp? ==>
      && IsCommon(s, t, op.schema, op.table)
      && IsRename(s.schemas[op.schema].tables[op.table], t.schemas[op.schema].tables[op.table], op.oldName, op.newName)
  }

  /** The column is one of both schemas, its collation changes, and `dataType` is the type that the
      change restates: the target's, if it has one. */
  ghost predicate MayRestate(s: SchemaDef, t: SchemaDef, ns: string, table: string, n: string, dataType: string) {
    && IsCommon(s, t, ns, table)
    && var a, b := s.schemas[ns].tables[table].columns, t.schemas[ns].tables[table].columns;
       && n in a && n in b && a[n].collation != b[n].collation
       && dataType == if b[n].dataType == "" then a[n].dataType else b[n].dataType
  }

  ghost predicate CollationMatches(s: SchemaDef, t: SchemaDef, op: Op) {
    op.AlterColumnCollationOp? ==> MayRestate(s, t, op.schema, op.table, op.column, op.dataType)
  }

  /** The view is there in both schemas, and it changes between a plain and a materialized one. */
  ghost predicate ChangesKind(s: SchemaDef, t: SchemaDef, ns: string, n: string) {
    && ns in s.schemas && ns in t.schemas && n in s.schemas[ns].views && n in t.schemas[ns].views
    && s.schemas[ns].views[n].materialized != t.schemas[ns].views[n].materialized
  }

  lemma CollationOfColumn(schema: string, table: string, x: Column, y: Column, op: Op)
    requires op in ColumnOps(schema, table, x, y) && op.AlterColumnCollationOp?
    ensures op.column == x.name && x.collation != y.collation
    ensures op.dataType == if y.dataType == "" then x.dataType else y.dataType
  {
    assert op in TypeOps(schema, table, x, y) || op in NullOps(schema, table, x, y) ||
      op in DefaultOps(schema, table, x, y) || op in CollationOps(schema, table, x, y) ||
      op in IdentityOps(schema, table, x, y);
  }

  lemma {:induction false} RenamesRename(schema: string, table: string, pairs: seq<(string, string)>, op: Op)
    requires op in RenameOps(schema, table, pairs)
    ensures op.RenameColumnOp?
  {
    if op in RenameOps(schema, table, pairs[..|pairs| - 1]) {
      RenamesRename(schema, table, pairs[..|pairs| - 1], op);
    }
  }

  lemma CollationOfTable(schema: string, s: TableDef, t: TableDef, walk: seq<string>, op: Op)
    requires ColumnsNamed(s.columns) && op in TableColumnOps(schema, s, t, walk) && op.AlterColumnCollationOp?
    ensures op.column in s.columns && op.column in t.columns
    ensures s.columns[op.column].collation != t.columns[op.column].collation
    ensures op.dataType ==
      if t.columns[op.column].dataType == "" then s.columns[op.column].dataType else t.columns[op.column].dataType
  {
    hide Flat, Renames, RenameOps, ColumnOps, TargetOnly, TargetTaken, SourceTaken;
    var pairs := Renames(s, t);
    if op in RenameOps(schema, t.name, pairs) {
      RenamesRename(schema, t.name, pairs, op);
    } else if op in Flat(TargetOnly(s, t), AddStep(schema, t, pairs)) {
      var k := FlatMember(TargetOnly(s, t), AddStep(schema, t, pairs), op);
    } else if op in Flat(walk, DropStep(schema, s, t, pairs)) {
      var k := FlatMember(walk, DropStep(schema, s, t, pairs), op);
    } else {
      var k := FlatMember(t.order, AlterStep(schema, s, t), op);
      CollationOfColumn(schema, t.name, s.columns[k], t.columns[k], op);
    }
  }

  lemma NamedColumns(s: SchemaDef, ns: string, n: string)
    requires WellFormed(s) && ns in s.schemas && n in s.schemas[ns].tables
    ensures ColumnsNamed(s.schemas[ns].tables[n].columns)
  {
    assert TableWellFormed(s.schemas[ns].tables[n]);
  }

  lemma IsOfItsTable(op: Op)
    requires op.IsColumnOp()
    ensures OfTable(op.schema, op.table, ColumnPart)(op)
  {
  }

  lemma ColumnOpOfBlock(s: NamespaceDef, t: NamespaceDef, walk: Walk, n: string, op: Op)
    requires op in PartBlock(s, t, walk, n, ColumnPart)(n)
    ensures n in s.tables && n in t.tables
    ensures op in TableColumnOps(s.name, s.tables[n], t.tables[n], walk(s.name, n))
  {
    hide TableColumnOps, TableIndexOps, TableConstraintOps;
  }

  lemma CollationOfSource(s: SchemaDef, t: SchemaDef, walk: Walk, op: Op)
    requires WellFormed(s) && op.AlterColumnCollationOp? && op.schema in t.schemas
    requires op in PartBlock(SourceOf(s, op.schema), t.schemas[op.schema], walk, op.table, ColumnPart)(op.table)
    ensures CollationMatches(s, t, op)
  {
    var ns, a, b := op.schema, SourceOf(s, op.schema), t.schemas[op.schema];
    hide PartBlock, TableColumnOps, ColumnsNamed, WellFormed;
    ColumnOpOfBlock(a, b, walk, op.table, op);
    NamedColumns(s, ns, op.table);
    CollationOfTable(a.name, a.tables[op.table], b.tables[op.table], walk(a.name, op.table), op);
  }

  lemma ColumnOpIsPlanned(s: SchemaDef, t: SchemaDef, walk: Walk, op: Op)
    requires WellFormed(s) && WellFormed(t) && op in DiffOps(s, t, walk) && op.IsColumnOp()
    ensures op.schema in t.schemas
    ensures op in PartBlock(SourceOf(s, op.schema), t.schemas[op.schema], walk, op.table, ColumnPart)(op.table)
  {
    hide DiffOps, WellFormed, Filter, OfTable, PartBlock, SourceOf;
    var ns, n := op.schema, op.table;
    IsOfItsTable(op);
    FilterMembers(DiffOps(s, t, walk), OfTable(ns, n, ColumnPart), op);
    if ns in t.schemas {
      DiffOfAnyTable(s, t, walk, ns, n, ColumnPart);
    } else {
      NoOpsOfTable(s, t, walk, ns, n);
    }
  }

  /** The changes of collation are those of columns that both schemas have. */
  lemma PlannedCollation(s: SchemaDef, t: SchemaDef, walk: Walk, op: Op)
    requires WellFormed(s) && WellFormed(t) && op in DiffOps(s, t, walk)
    ensures CollationMatches(s, t, op)
  {
    hide DiffOps, WellFormed, PartBlock, SourceOf, MayRestate;
    if op.AlterColumnCollationOp? {
      ColumnOpIsPlanned(s, t, walk, op);
      CollationOfSource(s, t, walk, op);
    }
  }

  lemma RecreatedAt(s: NamespaceDef, t: NamespaceDef, n: string, op: Op)
    requires op in TargetViewStep(s, t)(n) && op.DropViewOp? && op.isRecreate
    ensures op.name == n && n in s.views && n in t.views && s.views[n].materialized != t.views[n].materialized
  {
  }

  lemma OldAreNotRecreated(s: NamespaceDef, t: NamespaceDef, n: string, op: Op)
    requires op in OldViewStep(s, t)(n) && op.DropViewOp?
    ensures !op.isRecreate
  {
  }

  lemma RecreatedOfViews(s: NamespaceDef, t: NamespaceDef, op: Op)
    requires op in ViewsOps(s, t) && op.DropViewOp? && op.isRecreate
    ensures op.name in s.views && op.name in t.views
    ensures s.views[op.name].materialized != t.views[op.name].materialized
  {
    hide Flat, TargetViewStep, OldViewStep;
    if op in Flat(Sorted(t.views.Keys), TargetViewStep(s, t)) {
      var k := FlatMember(Sorted(t.views.Keys), TargetViewStep(s, t), op);
      RecreatedAt(s, t, k, op);
    } else {
      var k := FlatMember(Sorted(s.views.Keys), OldViewStep(s, t), op);
      OldAreNotRecreated(s, t, k, op);
    }
  }

  lemma RecreateIsView(op: Op)
    requires op.DropViewOp?
    ensures InPart(Views)(op) && OfSchema(op.schema)(op) && !op.CreateSchemaOp? && !op.DropSchemaOp?
  {
  }

  lemma ViewsOfSource(s: SchemaDef, t: SchemaDef, walk: Walk, ns: string)
    requires WellFormed(s) && WellFormed(t) && ns in t.schemas
    ensures Filter(Filter(DiffOps(s, t, walk), OfSchema(ns)), InPart(Views)) ==
      ViewsOps(SourceOf(s, ns), t.schemas[ns])
  {
    hide DiffOps, WellFormed, Filter, NamespaceOps, ViewsOps, SameNamed;
    SourceSameNamed(s, t, ns);
    DiffOfNamespace(s, t, walk, ns, Views);
    NamespaceParts(SourceOf(s, ns), t.schemas[ns], walk, Views);
  }

  /** Views that are dropped to be created again change their kind. */
  lemma PlannedRecreation(s: SchemaDef, t: SchemaDef, walk: Walk, op: Op)
    requires WellFormed(s) && WellFormed(t) && op in DiffOps(s, t, walk)
    ensures op.DropViewOp? && op.isRecreate ==> ChangesKind(s, t, op.schema, op.name)
  {
    hide DiffOps, WellFormed, ViewsOps, SourceOf;
    if op.DropViewOp? && op.isRecreate {
      RecreationIsPlanned(s, t, walk, op);
      RecreatedOfViews(SourceOf(s, op.schema), t.schemas[op.schema], op);
      RecreationOfSource(s, op.schema, op.name);
    }
  }

  lemma RecreationOfSource(s: SchemaDef, ns: string, n: string)
    requires n in SourceOf(s, ns).views
    ensures ns in s.schemas && SourceOf(s, ns) == s.schemas[ns]
  {
  }

  lemma RecreationIsPlanned(s: SchemaDef, t: SchemaDef, walk: Walk, op: Op)
    requires WellFormed(s) && WellFormed(t) && op in DiffOps(s, t, walk) && op.DropViewOp?
    ensures op.schema in t.schemas && op in ViewsOps(SourceOf(s, op.schema), t.schemas[op.schema])
  {
    hide DiffOps, WellFormed, Filter, ViewsOps, InPart, OfSchema, TargetNamespaceStep, OldNamespaceStep, SourceOf;
    var ns := op.schema;
    RecreateIsView(op);
    FilterMembers(DiffOps(s, t, walk), OfSchema(ns), op);
    FilterMembers(Filter(DiffOps(s, t, walk), OfSchema(ns)), InPart(Views), op);
    if ns in t.schemas {
      ViewsOfSource(s, t, walk, ns);
    } else {
      SchemaOps(s, t, walk, ns);
      OldNamespaceIsWhole(s, t, walk, ns, op);
    }
  }

  lemma FilterMembers(ops: seq<Op>, p: Op -> bool, op: Op)
    requires op in ops && p(op)
    ensures op in Filter(ops, p)
  {
  }

  lemma OldNamespaceIsWhole(s: SchemaDef, t: SchemaDef, walk: Walk, ns: string, op: Op)
    requires ns !in t.schemas && op in TargetNamespaceStep(s, t, walk)(ns) + OldNamespaceStep(s, t)(ns)
    ensures op.DropSchemaOp?
  {
    hide NamespaceOps;
  }

  /** The operation is a rename, a change of collation or a recreation only where the differ emits one. */
  ghost predicate Matched(s: SchemaDef, t: SchemaDef, op: Op) {
    && AlterMatches(s, t, op) && CollationMatches(s, t, op)
    && (op.DropViewOp? && op.isRecreate ==> ChangesKind(s, t, op.schema, op.name))
  }

  ghost predicate AllMatched(s: SchemaDef, t: SchemaDef, ops: seq<Op>) {
    forall i :: 0 <= i < |ops| ==> Matched(s, t, ops[i])
  }

  lemma TrailStep(s: SchemaDef, t: SchemaDef, ops: seq<Op>, op: Op, ns: string, table: string, n: string)
    requires TrailIsShort(s, t, ops, ns, table, n) && AlterMatches(s, t, op)
    ensures TrailIsShort(s, t, ops + [op], ns, table, n)
  {
    hide OwnOrRenamed, IsCommon, IsRename;
    assert (ops + [op])[..|ops|] == ops;
    if op.RenameColumnOp? && op.schema == ns && op.table == table && op.oldName in Trail(ops, ns, table, n) {
      NoSecondRename(s, t, ns, table, n, op.oldName, op.newName);
    }
  }

  lemma {:induction false} ShortTrail(s: SchemaDef, t: SchemaDef, ops: seq<Op>, ns: string, table: string, n: string)
    requires AllMatched(s, t, ops)
    ensures TrailIsShort(s, t, ops, ns, table, n)
  {
    if ops == [] {
      OwnIsOwn(s, t, ns, table, n);
    } else {
      hide AlterMatches, TrailIsShort, CollationMatches, ChangesKind;
      var init, op := ops[..|ops| - 1], ops[|ops| - 1];
      assert ops == init + [op] && Matched(s, t, op);
      ShortTrail(s, t, init, ns, table, n);
      TrailStep(s, t, init, op, ns, table, n);
    }
  }

  lemma PlanMembers(ops: seq<Op>, plan: seq<Op>, op: Op)
    requires IsPlan(ops, plan) && op in plan
    ensures op in ops
  {
    hide IsPlan;
    var m, n := PlanConserves(ops, plan);
    assert op in multiset(plan) && op in multiset(ops);
  }

  lemma SafePlanMembers(s: SchemaDef, t: SchemaDef, walk: Walk, plan: seq<Op>, op: Op)
    requires WellFormed(s) && WellFormed(t) && IsPlan(Allowed(DiffOps(s, t, walk), false), plan) && op in plan
    ensures !op.IsDestructive() && Matched(s, t, op)
  {
    hide WellFormed, DiffOps, IsPlan, CollationMatches, ChangesKind;
    PlanMembers(Allowed(DiffOps(s, t, walk), false), plan, op);
    PlannedCollation(s, t, walk, op);
    PlannedRecreation(s, t, walk, op);
    if op.RenameColumnOp? { PlannedRename(s, t, walk, op); }
  }

  lemma SafePlanFacts(s: SchemaDef, t: SchemaDef, walk: Walk, plan: seq<Op>)
    requires WellFormed(s) && WellFormed(t) && IsPlan(Allowed(DiffOps(s, t, walk), false), plan)
    ensures NoneDestructive(plan) && AllMatched(s, t, plan)
  {
    hide WellFormed, DiffOps, IsPlan, Matched, Allowed;
    forall i | 0 <= i < |plan| ensures !plan[i].IsDestructive() && Matched(s, t, plan[i]) {
      SafePlanMembers(s, t, walk, plan, plan[i]);
    }
  }

  /** The column is one of the source, and it is a rename target of none. */
  lemma OwnName(s: SchemaDef, t: SchemaDef, ns: string, table: string, n: string, m: string)
    requires OwnOrRenamed(s, t, ns, table, n, m) && IsCommon(s, t, ns, table)
    requires m in s.schemas[ns].tables[table].columns
    ensures m == n
  {
  }

  lemma RestatedMatches(s: SchemaDef, t: SchemaDef, plan: seq<Op>, ns: string, table: string, n: string,
                        dataType: string)
    requires AllMatched(s, t, plan) && RestatedTo(plan, ns, table, n, dataType)
    ensures MayRestate(s, t, ns, table, n, dataType)
  {
    hide IsRename, OwnOrRenamed, ChangesKind, AlterMatches;
    var i, m :| 0 <= i < |plan| && m in Trail(plan, ns, table, n) && Restates(plan[i], ns, table, m) &&
      plan[i].dataType == dataType;
    assert Matched(s, t, plan[i]);
    ShortTrail(s, t, plan, ns, table, n);
    OwnName(s, t, ns, table, n, m);
  }

  lemma RestatementsMatch(s: SchemaDef, t: SchemaDef, plan: seq<Op>)
    requires AllMatched(s, t, plan)
    ensures forall ns, table, n, dataType :: RestatedTo(plan, ns, table, n, dataType) ==>
              MayRestate(s, t, ns, table, n, dataType)
  {
    hide AllMatched, RestatedTo, MayRestate;
    forall ns, table, n, dataType | RestatedTo(plan, ns, table, n, dataType)
      ensures MayRestate(s, t, ns, table, n, dataType)
    {
      RestatedMatches(s, t, plan, ns, table, n, dataType);
    }
  }

  lemma RecreationsMatch(s: SchemaDef, t: SchemaDef, plan: seq<Op>)
    requires AllMatched(s, t, plan)
    ensures forall ns, n :: DropViewOp(ns, n, true) in plan ==> ChangesKind(s, t, ns, n)
  {
    hide AlterMatches, CollationMatches, ChangesKind;
    forall ns, n | DropViewOp(ns, n, true) in plan ensures ChangesKind(s, t, ns, n) {
      var i :| 0 <= i < |plan| && plan[i] == DropViewOp(ns, n, true);
      assert Matched(s, t, plan[i]);
    }
  }

  /** The plan made without permission to drop loses nothing of the source, whichever of its
      operations fail, and leaves every source column under its own name or under the name the
      differ renamed it to.  Types change only where a collation does, to the type that the change
      restates, and views disappear only where they change their kind. */
  lemma SafePlanLosesNothing(s: SchemaDef, t: SchemaDef, walk: Walk, plan: seq<Op>)
    requires WellFormed(s) && WellFormed(t) && IsPlan(Allowed(DiffOps(s, t, walk), false), plan)
    ensures Has(plan, s, ApplyEach(plan, s))
    ensures forall ns, table, n, m :: m in Trail(plan, ns, table, n) ==> OwnOrRenamed(s, t, ns, table, n, m)
    ensures forall ns, table, n, dataType :: RestatedTo(plan, ns, table, n, dataType) ==>
              MayRestate(s, t, ns, table, n, dataType)
    ensures forall ns, n :: DropViewOp(ns, n, true) in plan ==> ChangesKind(s, t, ns, n)
  {
    WellFormedIsNamed(s);
    SafePlanFacts(s, t, walk, plan);
    hide *;
    NothingLost(plan, s);
    ShortTrails(s, t, plan);
    RestatementsMatch(s, t, plan);
    RecreationsMatch(s, t, plan);
  }

  lemma WellFormedIsNamed(s: SchemaDef)
    requires WellFormed(s)
    ensures AllTablesNamed(s)
  {
  }

  lemma ShortTrails(s: SchemaDef, t: SchemaDef, plan: seq<Op>)
    requires AllMatched(s, t, plan)
    ensures forall ns, table, n, m :: m in Trail(plan, ns, table, n) ==> OwnOrRenamed(s, t, ns, table, n, m)
  {
    hide AllMatched, OwnOrRenamed, Trail;
    forall ns, table, n, m | m in Trail(plan, ns, table, n) ensures OwnOrRenamed(s, t, ns, table, n, m) {
      ShortTrail(s, t, plan, ns, table, n);
    }
  }
}
