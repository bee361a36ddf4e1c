/** Which operations count as destructive, told by what they do: exactly those that can take
    something away from a schema they apply to. */
module Destruction {
  import opened Catalog
  import opened Operations
  import opened Lists
  import opened Locality
  import opened TableEdits
  import opened Semantics
  import opened Planner
  import opened SafeMode

  /** The operation applies to the schema and takes something away: an object, the identity of a
      column, or its type other than by a change of collation.  A view that is dropped to be created
      again is not taken away. */
  ghost predicate Loses(op: Op, s: SchemaDef) {
    ApplyOne(op, s).Ok? && !KeepsOnce(op, s, ApplyOne(op, s).value)
  }

  ghost predicate CanLose(op: Op) {
    exists s :: WellFormed(s) && Loses(op, s)
  }

  /** A change from a type to the same type; the differ emits none. */
  predicate Pointless(op: Op) {
    op.AlterColumnTypeOp? && op.fromType == op.toType && op.fromType != ""
  }

  // ----- an operation that is not destructive takes nothing away

  lemma HarmlessKeeps(op: Op, s: SchemaDef)
    requires WellFormed(s) && !op.IsDestructive()
    ensures !Loses(op, s)
  {
    hide WellFormed, KeepsOnce, ApplyOne, Op.IsDestructive;
    if ApplyOne(op, s).Ok? {
      WellFormedIsNamed(s);
      OneKeeps(op, s);
    }
  }

  lemma PointlessColumns(op: Op, c: Columns)
    requires Pointless(op) && EditColumns(c, op).Ok?
    ensures EditColumns(c, op) == Ok(c)
  {
    var col := c.byName[op.column];
    assert AlterColumn(col, op) == Ok(col);
    assert c.byName[op.column := col] == c.byName;
  }

  lemma PointlessTable(op: Op, t: TableDef)
    requires Pointless(op) && EditTable(t, op).Ok?
    ensures EditTable(t, op) == Ok(t)
  {
    hide EditColumns;
    PointlessColumns(op, Columns(t.order, t.columns));
  }

  lemma PointlessKeeps(op: Op, s: SchemaDef)
    requires WellFormed(s) && Pointless(op)
    ensures ApplyOne(op, s).Ok? ==> ApplyOne(op, s).value == s
  {
    hide EditTable, WellFormed;
    if ApplyOne(op, s).Ok? {
      var ns := s.schemas[op.schema];
      var t := ns.tables[op.table];
      PointlessTable(op, t);
      assert ns.tables[op.table := t] == ns.tables;
      assert EditNamespace(ns, op) == Ok(ns);
      assert s.schemas[op.schema := ns] == s.schemas;
    }
  }

  // ----- a destructive one takes something away from some schema

  predicate NamesTable(op: Op) {
    op.IsColumnOp() || op.AddConstraintOp? || op.DropConstraintOp?
  }

  function TableIn(op: Op): string {
    if NamesTable(op) then op.table else if op.DropTableOp? then op.name else "t"
  }

  function ColumnIn(op: Op): Column {
    if op.DropColumnOp? || op.DropIdentityOp? then Column(op.column, "", true, None, true, "", "")
    else if op.AlterColumnTypeOp? then
      Column(op.column, if op.fromType == "" then op.toType + "x" else op.fromType, true, None, false, "", "")
    else Column("c", "", true, None, false, "", "")
  }

  function NameIn(op: Op): string {
    if op.DropConstraintOp? || op.DropIndexOp? || op.DropEnumTypeOp? || op.DropViewOp? || op.DropMaterializedViewOp? ||
       op.DropSequenceOp? || op.DropExtensionOp? then op.name else "n"
  }

  function SampleTable(schema: string, table: string, c: Column, n: string): TableDef {
    TableDef(schema, table, [c.name], map[c.name := c], None,
             map[n := Constraint(n, "unique", "", table, [], "", "", [], "", "", "")],
             map[n := Index(n, table, [], [], false, "", false, false, "", "", false, false)], false)
  }

  /** One table and one object of every other sort, among them what the operation removes. */
  function SampleNamespace(op: Op): NamespaceDef {
    var n := NameIn(op);
    NamespaceDef(op.schema,
                 map[TableIn(op) := SampleTable(op.schema, TableIn(op), ColumnIn(op), n)],
                 map[n := EnumType(n, [])],
                 map[n := View(n, "", op.DropMaterializedViewOp?)],
                 map[n := Sequence(n, "", 0, 0, 0, 0, 0, false, "", "")],
                 map[n := Extension(n, "")])
  }

  function Sample(op: Op): SchemaDef {
    SchemaDef(map[op.schema := SampleNamespace(op)])
  }

  lemma SampleTableWellFormed(schema: string, table: string, c: Column, n: string)
    ensures TableWellFormed(SampleTable(schema, table, c, n))
    ensures SampleTable(schema, table, c, n).schema == schema && SampleTable(schema, table, c, n).name == table
  {
  }

  lemma SampleWellFormed(op: Op)
    ensures WellFormed(Sample(op))
  {
    hide TableWellFormed, SampleTable, NameIn, TableIn, ColumnIn;
    SampleTableWellFormed(op.schema, TableIn(op), ColumnIn(op), NameIn(op));
  }

  lemma ColumnLoses(op: Op)
    requires op.DropColumnOp? || op.DropIdentityOp? || (op.AlterColumnTypeOp? && !Pointless(op))
    ensures var t := SampleTable(op.schema, op.table, ColumnIn(op), NameIn(op));
      EditTable(t, op).Ok? && !KeepsTable(op, op.schema, t, EditTable(t, op).value)
  {
    var c := ColumnIn(op);
    var t := SampleTable(op.schema, op.table, c, NameIn(op));
    var u := EditTable(t, op).value;
    assert c.name in t.columns && t.order[0] == c.name;
    assert op.DropColumnOp? ==> u.columns.Keys == {};
    assert !op.DropColumnOp? ==> u.columns.Keys == {c.name};
    assert forall m :: Follows(op, op.schema, op.table, c.name, m) ==> m == c.name;
    assert op.AlterColumnTypeOp? ==> u.columns[c.name].dataType == op.toType != c.dataType;
  }

  lemma ConstraintLoses(op: Op)
    requires op.DropConstraintOp?
    ensures var t := SampleTable(op.schema, op.table, ColumnIn(op), NameIn(op));
      EditTable(t, op).Ok? && !KeepsTable(op, op.schema, t, EditTable(t, op).value)
  {
    var t := SampleTable(op.schema, op.table, ColumnIn(op), NameIn(op));
    assert op.name in t.constraints && op.name !in EditTable(t, op).value.constraints;
  }

  lemma IndexLoses(op: Op)
    requires op.DropIndexOp?
    ensures var t := SampleTable(op.schema, TableIn(op), ColumnIn(op), NameIn(op));
      EditTable(t, op).Ok? && !KeepsTable(op, op.schema, t, EditTable(t, op).value)
  {
    var t := SampleTable(op.schema, TableIn(op), ColumnIn(op), NameIn(op));
    assert op.name in t.indexes && op.name !in EditTable(t, op).value.indexes;
  }

  /** What a table loses, its schema loses. */
  lemma TableLosesSo(op: Op)
    requires PartOf(op) == Tables && !op.AddTableOp? && !op.DropTableOp? && (NamesTable(op) || op.DropIndexOp?)
    requires var t := SampleNamespace(op).tables[TableIn(op)];
      EditTable(t, op).Ok? && !KeepsTable(op, op.schema, t, EditTable(t, op).value)
    ensures Loses(op, Sample(op))
  {
    hide EditTable, KeepsTable, SampleTable, KeepsViewNames, KeepsTypes;
    var s, ns, n := Sample(op), SampleNamespace(op), TableIn(op);
    var u := EditTable(ns.tables[n], op).value;
    assert TableEffect()(op, Some(ns.tables[n])) == Ok(Some(u));
    assert n in EditNamespace(ns, op).value.tables && EditNamespace(ns, op).value.tables[n] == u;
    assert ApplyOne(op, s).Ok?;
    assert op.schema in s.schemas && ApplyOne(op, s).value.schemas[op.schema] == EditNamespace(ns, op).value;
    assert !KeepsNamespace(op, op.schema, ns, EditNamespace(ns, op).value);
  }

  lemma NamespaceLosesSo(op: Op, r: NamespaceDef)
    requires !op.CreateSchemaOp? && !op.DropSchemaOp?
    requires EditNamespace(SampleNamespace(op), op) == Ok(r)
    requires !KeepsNamespace(op, op.schema, SampleNamespace(op), r)
    ensures Loses(op, Sample(op))
  {
    hide EditNamespace, KeepsNamespace, SampleNamespace;
    var s := Sample(op);
    assert ApplyOne(op, s).Ok? && op.schema in s.schemas && ApplyOne(op, s).value.schemas[op.schema] == r;
  }

  lemma DropTableLoses(op: Op)
    requires op.DropTableOp?
    ensures Loses(op, Sample(op))
  {
    hide SampleTable, KeepsTable, KeepsViewNames, KeepsTypes;
    var ns := SampleNamespace(op);
    var r := ns.(tables := ns.tables - {op.name});
    assert op.name in ns.tables && op.name !in r.tables;
    NamespaceLosesSo(op, r);
  }

  lemma DropTypeLoses(op: Op)
    requires op.DropEnumTypeOp?
    ensures Loses(op, Sample(op))
  {
    hide SampleTable, KeepsTables, KeepsViewNames;
    var ns := SampleNamespace(op);
    var r := ns.(types := ns.types - {op.name});
    assert op.name in ns.types && op.name !in r.types;
    NamespaceLosesSo(op, r);
  }

  lemma DropViewLoses(op: Op)
    requires (op.DropViewOp? && !op.isRecreate) || op.DropMaterializedViewOp?
    ensures Loses(op, Sample(op))
  {
    hide SampleTable, KeepsTables, KeepsTypes, ColumnIn, TableIn;
    var ns := SampleNamespace(op);
    var r := ns.(views := ns.views - {op.name});
    assert op.name in ns.views && op.name !in r.views;
    NamespaceLosesSo(op, r);
  }

  lemma DropSequenceLoses(op: Op)
    requires op.DropSequenceOp?
    ensures Loses(op, Sample(op))
  {
    hide SampleTable, KeepsTables, KeepsViewNames, KeepsTypes;
    var ns := SampleNamespace(op);
    var r := ns.(sequences := ns.sequences - {op.name});
    assert op.name in ns.sequences && op.name !in r.sequences;
    NamespaceLosesSo(op, r);
  }

  lemma DropExtensionLoses(op: Op)
    requires op.DropExtensionOp?
    ensures Loses(op, Sample(op))
  {
    hide SampleTable, KeepsTables, KeepsViewNames, KeepsTypes;
    var ns := SampleNamespace(op);
    var r := ns.(extensions := ns.extensions - {op.name});
    assert op.name in ns.extensions && op.name !in r.extensions;
    NamespaceLosesSo(op, r);
  }

  lemma SchemaLoses(op: Op)
    requires op.DropSchemaOp?
    ensures Loses(op, Sample(op))
  {
    hide SampleNamespace, KeepsNamespace;
    var s := Sample(op);
    assert op.schema in s.schemas && op.schema !in ApplyOne(op, s).value.schemas;
  }

  lemma TablePartLoses(op: Op)
    requires !Pointless(op)
    requires op.DropColumnOp? || op.DropIdentityOp? || op.AlterColumnTypeOp? || op.DropConstraintOp? || op.DropIndexOp?
    ensures Loses(op, Sample(op))
  {
    hide Loses, Sample, SampleTable, EditTable, KeepsTable, ColumnIn, NameIn;
    if op.DropConstraintOp? {
      ConstraintLoses(op);
    } else if op.DropIndexOp? {
      IndexLoses(op);
    } else {
      ColumnLoses(op);
    }
    TableLosesSo(op);
  }

  lemma DestructiveLoses(op: Op)
    requires op.IsDestructive() && !Pointless(op)
    ensures Loses(op, Sample(op))
  {
    hide Loses, Sample;
    match op
    case DropTableOp(_, _) => DropTableLoses(op);
    case DropEnumTypeOp(_, _) => DropTypeLoses(op);
    case DropViewOp(_, _, _) => DropViewLoses(op);
    case DropMaterializedViewOp(_, _) => DropViewLoses(op);
    case DropSequenceOp(_, _) => DropSequenceLoses(op);
    case DropExtensionOp(_, _) => DropExtensionLoses(op);
    case DropSchemaOp(_) => SchemaLoses(op);
    case _ => TablePartLoses(op);
  }

  // ----- both

  /** An operation counts as destructive exactly when there is a schema from which it takes something
      away.  Three choices are part of that: a change of collation may restate the type, a view that
      is dropped to be created again counts as kept, and a change from a type to the same type, which
      takes nothing away, counts as destructive. */
  lemma DestructiveExact(op: Op)
    ensures !Pointless(op) ==> (op.IsDestructive() <==> CanLose(op))
    ensures Pointless(op) ==>
              op.IsDestructive() && forall s :: WellFormed(s) && ApplyOne(op, s).Ok? ==> ApplyOne(op, s).value == s
  {
    hide WellFormed, Loses, ApplyOne, Sample;
    if Pointless(op) {
      forall s | WellFormed(s) ensures ApplyOne(op, s).Ok? ==> ApplyOne(op, s).value == s { PointlessKeeps(op, s); }
    } else if op.IsDestructive() {
      SampleWellFormed(op);
      DestructiveLoses(op);
    } else {
      forall s | WellFormed(s) ensures !Loses(op, s) { HarmlessKeeps(op, s); }
    }
  }

  /** Without permission to drop exactly the operations stay that take nothing away from any schema. */
  lemma AllowedExact(ops: seq<Op>, op: Op)
    requires op in ops && !Pointless(op)
    ensures op in Allowed(ops, false) <==> !CanLose(op)
  {
    hide CanLose, Op.IsDestructive;
    DestructiveExact(op);
    FilterMember(ops, (x: Op) => !x.IsDestructive(), op);
  }

  lemma FilterMember(ops: seq<Op>, p: Op -> bool, op: Op)
    requires op in ops
    ensures op in Filter(ops, p) <==> p(op)
  {
  }

  /** Read off: what alters a column and stays, and what goes. */
  lemma ColumnsExact(op: Op)
    requires op.IsColumnOp() && !Pointless(op)
    ensures CanLose(op) <==> op.DropColumnOp? || op.AlterColumnTypeOp? || op.DropIdentityOp?
  {
    hide CanLose;
    DestructiveExact(op);
  }

  // ----- what the warning about a removed operation tells

  /** Another operation does the same to the same object; of a column or a constraint a warning gives
      table and name in one text. */
  predicate RemovesTheSame(x: Op, y: Op) {
    match x
    case DropColumnOp(s, t, c) => y.DropColumnOp? && y.schema == s && y.table + "." + y.column == t + "." + c
    case AlterColumnTypeOp(s, t, c, _, _) =>
      y.AlterColumnTypeOp? && y.schema == s && y.table + "." + y.column == t + "." + c
    case DropIdentityOp(s, t, c) => y.DropIdentityOp? && y.schema == s && y.table + "." + y.column == t + "." + c
    case DropConstraintOp(s, t, n) => y.DropConstraintOp? && y.schema == s && y.table + "." + y.name == t + "." + n
    case DropViewOp(s, n, _) => y.DropViewOp? && y.schema == s && y.name == n
    case _ => x == y
  }

  /** Kind and key of a destructive operation tell what it does to which object. */
  lemma RemovalTells(x: Op, y: Op)
    requires x.IsDestructive() && y.IsDestructive()
    ensures Removed(x.Kind(), x.Key()) == Removed(y.Kind(), y.Key()) <==> RemovesTheSame(x, y)
  {
  }
}
