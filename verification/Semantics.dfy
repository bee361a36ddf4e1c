/** What each operation does to a schema, as its SQL means it to PostgreSQL, looking at the object it
    creates, changes or removes and at nothing else: it fails when it creates what exists (unless its
    SQL says IF NOT EXISTS), or changes or removes what does not.  Tables and columns that it refers
    to besides are looked at by `Execution.Execute`.  An operation that applies here does what its
    mutation does (module MutationMeaning); the strictness is PostgreSQL's.  A mutation can be laxer:
    ADD CONSTRAINT overwrites and DROP CONSTRAINT ignores what is missing
    (Findings.ReplacementVanishes).

    Five choices differ from PostgreSQL or from the rendered text.  The renderer writes IF EXISTS into
    every DROP by default; here dropping what is missing fails all the same, so that to apply says
    more.  ALTER SEQUENCE sets everything, while its text leaves out OWNED BY and zero values.  Index
    names are per table, as in the repository, where PostgreSQL keeps one name space per schema; DROP
    INDEX names no table and removes the index from whichever table has it.  DROP SCHEMA drops what
    the schema contains, too.  Renaming or dropping a column leaves the indexes and constraints that
    name it to their own operations. */
module Semantics {
  import opened Catalog
  import opened Operations
  import opened Lists
  import opened Locality
  import opened TableEdits

  // ----- columns

  /** An ALTER COLUMN on the column itself. */
  function AlterColumn(c: Column, op: Op): Outcome<Column> {
    match op
    case AlterColumnTypeOp(_, _, _, fromType, toType) =>
      if fromType != "" && c.dataType != fromType then Fail else Ok(c.(dataType := toType))
    case SetNotNullOp(_, _, _) => Ok(c.(isNullable := false))
    case DropNotNullOp(_, _, _) => Ok(c.(isNullable := true))
    case SetDefaultOp(_, _, _, e) => Ok(c.(defaultExpr := Some(e)))
    case DropDefaultOp(_, _, _) => Ok(c.(defaultExpr := None))
    case AlterColumnCollationOp(_, _, _, dataType, _, collation) =>
      Ok(c.(dataType := dataType, collation := collation))
    case AddIdentityOp(_, _, _, kind) =>
      if c.isIdentity then Fail else Ok(c.(isIdentity := true, identityKind := kind))
    case SetIdentityOp(_, _, _, kind) =>
      if c.isIdentity then Ok(c.(identityKind := kind)) else Fail
    case DropIdentityOp(_, _, _) =>
      if c.isIdentity then Ok(c.(isIdentity := false, identityKind := "")) else Fail
    case _ => Fail
  }

  predicate IsAlterColumn(op: Op) {
    op.IsColumnOp() && !op.AddColumnOp? && !op.DropColumnOp? && !op.RenameColumnOp?
  }

  /** A column operation on the columns of its table. */
  function EditColumns(c: Columns, op: Op): Outcome<Columns> {
    match op
    case AddColumnOp(_, _, col) =>
      if col.name in c.byName then Fail else Ok(WithColumn(c, col))
    case DropColumnOp(_, _, n) =>
      if n in c.byName && n in c.order then Ok(WithoutColumn(c, n)) else Fail
    case RenameColumnOp(_, _, a, b) =>
      if a in c.byName && a in c.order && b !in c.byName then Ok(Renamed(c, a, b)) else Fail
    case _ =>
      if IsAlterColumn(op) && op.column in c.byName then
        match AlterColumn(c.byName[op.column], op)
        case Fail => Fail
        case Ok(col) => Ok(c.(byName := c.byName[op.column := col]))
      else Fail
  }

  ghost function RunColumns(ops: seq<Op>, c: Columns): Outcome<Columns> {
    if ops == [] then Ok(c) else
    match RunColumns(ops[..|ops| - 1], c)
    case Fail => Fail
    case Ok(d) => EditColumns(d, ops[|ops| - 1])
  }

  // ----- constraints and indexes of a table

  function NoBroadcast(): Op -> bool { (op: Op) => false }

  function ConstraintName(): Op -> string {
    (op: Op) =>
      if op.AddConstraintOp? then op.constraint.name
      else if op.DropConstraintOp? then op.name else ""
  }

  function ConstraintEffect(): Effect<Constraint> {
    (op: Op, cur: Option<Constraint>) =>
      match op
      case AddConstraintOp(_, table, c) => if cur.Some? then Fail else Ok(Some(Attached(c, table)))
      case DropConstraintOp(_, _, _) => if cur.Some? then Ok(None) else Fail
      case _ => Fail
  }

  function IndexName(): Op -> string {
    (op: Op) =>
      if op.CreateIndexOp? then op.index.name
      else if op.DropIndexOp? then op.name else ""
  }

  /** DROP INDEX names no table: it removes the index from whichever table of the namespace has
      it, and a table without it is not concerned. */
  function IndexEffect(): Effect<Index> {
    (op: Op, cur: Option<Index>) =>
      match op
      case CreateIndexOp(_, i) =>
        if cur.None? then Ok(Some(i)) else if i.ifNotExists then Ok(cur) else Fail
      case DropIndexOp(_, _) => Ok(None)
      case _ => Fail
  }

  // ----- tables

  datatype TablePart = ColumnPart | ConstraintPart | IndexPart | WholeTable

  function PartOfTable(op: Op): TablePart {
    if op.IsColumnOp() then ColumnPart
    else if op.AddConstraintOp? || op.DropConstraintOp? then ConstraintPart
    else if op.CreateIndexOp? || op.DropIndexOp? then IndexPart
    else WholeTable
  }

  /** The table that CREATE TABLE makes: it has no indexes yet. */
  function Created(schema: string, name: string, t: TableDef): TableDef {
    TableDef(schema, name, t.order, t.columns, t.primaryKey,
             map n | n in t.constraints :: Attached(t.constraints[n], name), map[], false)
  }

  ghost function EditTable(t: TableDef, op: Op): Outcome<TableDef> {
    match PartOfTable(op)
    case ColumnPart =>
      (match EditColumns(Columns(t.order, t.columns), op)
       case Fail => Fail
       case Ok(c) => Ok(t.(order := c.order, columns := c.byName)))
    case ConstraintPart =>
      (match Step(op, t.constraints, ConstraintName(), NoBroadcast(), ConstraintEffect())
       case Fail => Fail
       case Ok(m) => Ok(t.(constraints := m)))
    case IndexPart =>
      (match Step(op, t.indexes, IndexName(), NoBroadcast(), IndexEffect())
       case Fail => Fail
       case Ok(m) =>
         if op.CreateIndexOp? && op.index.name !in t.indexes then Ok(WithIndex(t, op.index))
         else Ok(t.(indexes := m)))
    case WholeTable => Fail
  }

  /** The table that an operation names, if it names one. */
  function TableOf(op: Op): string {
    if op.AddTableOp? || op.DropTableOp? then op.name
    else if op.IsColumnOp() || op.AddConstraintOp? || op.DropConstraintOp? then op.table
    else if op.CreateIndexOp? then op.index.table
    else ""
  }

  function TableName(): Op -> string { (op: Op) => TableOf(op) }

  function IsDropIndex(): Op -> bool { (op: Op) => op.DropIndexOp? }

  ghost function TableEffect(): Effect<TableDef> {
    (op: Op, cur: Option<TableDef>) =>
      if op.AddTableOp? then
        if cur.Some? then Fail else Ok(Some(Created(op.schema, op.name, op.tableDef)))
      else if op.DropTableOp? then
        if cur.Some? then Ok(None) else Fail
      else if cur.None? then
        if op.DropIndexOp? then Ok(None) else Fail
      else
        match EditTable(cur.value, op)
        case Fail => Fail
        case Ok(t) => Ok(Some(t))
  }

  // ----- the other objects of a namespace

  function TypeName(): Op -> string {
    (op: Op) => if op.AddEnumTypeOp? || op.DropEnumTypeOp? || op.AddEnumLabelOp? then op.name else ""
  }

  function TypeEffect(): Effect<EnumType> {
    (op: Op, cur: Option<EnumType>) =>
      match op
      case AddEnumTypeOp(_, n, e) => if cur.Some? then Fail else Ok(Some(EnumType(n, e.labels)))
      case DropEnumTypeOp(_, _) => if cur.Some? then Ok(None) else Fail
      case AddEnumLabelOp(_, _, l) =>
        if cur.Some? then Ok(Some(cur.value.(labels := cur.value.labels + [l]))) else Fail
      case _ => Fail
  }

  function ViewName(): Op -> string {
    (op: Op) =>
      if op.CreateViewOp? || op.ReplaceViewOp? || op.CreateMaterializedViewOp? then op.view.name
      else if op.DropViewOp? || op.DropMaterializedViewOp? then op.name else ""
  }

  function ViewEffect(): Effect<View> {
    (op: Op, cur: Option<View>) =>
      match op
      case CreateViewOp(_, v) => if cur.Some? then Fail else Ok(Some(View(v.name, v.definition, false)))
      case CreateMaterializedViewOp(_, v) =>
        if cur.Some? then Fail else Ok(Some(View(v.name, v.definition, true)))
      case ReplaceViewOp(_, v) =>
        if cur.Some? && !cur.value.materialized then Ok(Some(View(v.name, v.definition, false))) else Fail
      case DropViewOp(_, _, _) => if cur.Some? && !cur.value.materialized then Ok(None) else Fail
      case DropMaterializedViewOp(_, _) => if cur.Some? && cur.value.materialized then Ok(None) else Fail
      case _ => Fail
  }

  function SequenceName(): Op -> string {
    (op: Op) =>
      if op.CreateSequenceOp? then op.sequence.name
      else if op.AlterSequenceOp? then op.after.name
      else if op.DropSequenceOp? then op.name else ""
  }

  function SequenceEffect(): Effect<Sequence> {
    (op: Op, cur: Option<Sequence>) =>
      match op
      case CreateSequenceOp(_, q) => if cur.Some? then Fail else Ok(Some(q))
      case AlterSequenceOp(_, _, after) => if cur.Some? then Ok(Some(after)) else Fail
      case DropSequenceOp(_, _) => if cur.Some? then Ok(None) else Fail
      case _ => Fail
  }

  function ExtensionName(): Op -> string {
    (op: Op) =>
      if op.CreateExtensionOp? || op.AlterExtensionUpdateOp? then op.extension.name
      else if op.DropExtensionOp? then op.name else ""
  }

  function ExtensionEffect(): Effect<Extension> {
    (op: Op, cur: Option<Extension>) =>
      match op
      case CreateExtensionOp(_, e) => if cur.Some? then Ok(cur) else Ok(Some(e))
      case AlterExtensionUpdateOp(_, e) =>
        if cur.Some? then Ok(Some(cur.value.(version := e.version))) else Fail
      case DropExtensionOp(_, _) => if cur.Some? then Ok(None) else Fail
      case _ => Fail
  }

  // ----- namespaces and schemas

  datatype Part = Tables | Types | Views | Sequences | Extensions | Whole

  function PartOf(op: Op): Part {
    if op.CreateSchemaOp? || op.DropSchemaOp? then Whole
    else if op.AddEnumTypeOp? || op.DropEnumTypeOp? || op.AddEnumLabelOp? then Types
    else if op.CreateViewOp? || op.DropViewOp? || op.ReplaceViewOp? ||
            op.CreateMaterializedViewOp? || op.DropMaterializedViewOp? then Views
    else if op.CreateSequenceOp? || op.DropSequenceOp? || op.AlterSequenceOp? then Sequences
    else if op.CreateExtensionOp? || op.DropExtensionOp? || op.AlterExtensionUpdateOp? then Extensions
    else Tables
  }

  ghost function EditNamespace(ns: NamespaceDef, op: Op): Outcome<NamespaceDef> {
    match PartOf(op)
    case Tables =>
      (match Step(op, ns.tables, TableName(), IsDropIndex(), TableEffect())
       case Fail => Fail case Ok(m) => Ok(ns.(tables := m)))
    case Types =>
      (match Step(op, ns.types, TypeName(), NoBroadcast(), TypeEffect())
       case Fail => Fail case Ok(m) => Ok(ns.(types := m)))
    case Views =>
      (match Step(op, ns.views, ViewName(), NoBroadcast(), ViewEffect())
       case Fail => Fail case Ok(m) => Ok(ns.(views := m)))
    case Sequences =>
      (match Step(op, ns.sequences, SequenceName(), NoBroadcast(), SequenceEffect())
       case Fail => Fail case Ok(m) => Ok(ns.(sequences := m)))
    case Extensions =>
      (match Step(op, ns.extensions, ExtensionName(), NoBroadcast(), ExtensionEffect())
       case Fail => Fail case Ok(m) => Ok(ns.(extensions := m)))
    case Whole => Fail
  }

  function SchemaName(): Op -> string { (op: Op) => op.schema }

  ghost function NamespaceEffect(): Effect<NamespaceDef> {
    (op: Op, cur: Option<NamespaceDef>) =>
      if op.CreateSchemaOp? then Ok(Some(if cur.Some? then cur.value else EmptyNamespace(op.schema)))
      else if op.DropSchemaOp? then Ok(None)
      else if cur.None? then Fail
      else
        match EditNamespace(cur.value, op)
        case Fail => Fail
        case Ok(ns) => Ok(Some(ns))
  }

  /** Applying one operation to a schema. */
  ghost function ApplyOne(op: Op, s: SchemaDef): Outcome<SchemaDef> {
    match Step(op, s.schemas, SchemaName(), NoBroadcast(), NamespaceEffect())
    case Fail => Fail
    case Ok(m) => Ok(SchemaDef(m))
  }

  /** Applying operations to a schema, in order; the run fails if one of them does. */
  ghost function Apply(ops: seq<Op>, s: SchemaDef): Outcome<SchemaDef> {
    match Run(ops, s.schemas, SchemaName(), NoBroadcast(), NamespaceEffect())
    case Fail => Fail
    case Ok(m) => Ok(SchemaDef(m))
  }

  lemma EffectsTame()
    ensures Tame(NoBroadcast(), NamespaceEffect()) && Tame(IsDropIndex(), TableEffect())
    ensures Tame(NoBroadcast(), TypeEffect()) && Tame(NoBroadcast(), ViewEffect())
    ensures Tame(NoBroadcast(), SequenceEffect()) && Tame(NoBroadcast(), ExtensionEffect())
    ensures Tame(NoBroadcast(), ConstraintEffect()) && Tame(NoBroadcast(), IndexEffect())
  {
  }

  // ----- the parts of a namespace and of a table are independent

  function InPart(part: Part): Op -> bool { (op: Op) => PartOf(op) == part }

  ghost function RunTables(ops: seq<Op>, m: map<string, TableDef>): Outcome<map<string, TableDef>> {
    Run(Filter(ops, InPart(Tables)), m, TableName(), IsDropIndex(), TableEffect())
  }

  ghost function RunTypes(ops: seq<Op>, m: map<string, EnumType>): Outcome<map<string, EnumType>> {
    Run(Filter(ops, InPart(Types)), m, TypeName(), NoBroadcast(), TypeEffect())
  }

  ghost function RunViews(ops: seq<Op>, m: map<string, View>): Outcome<map<string, View>> {
    Run(Filter(ops, InPart(Views)), m, ViewName(), NoBroadcast(), ViewEffect())
  }

  ghost function RunSequences(ops: seq<Op>, m: map<string, Sequence>): Outcome<map<string, Sequence>> {
    Run(Filter(ops, InPart(Sequences)), m, SequenceName(), NoBroadcast(), SequenceEffect())
  }

  ghost function RunExtensions(ops: seq<Op>, m: map<string, Extension>): Outcome<map<string, Extension>> {
    Run(Filter(ops, InPart(Extensions)), m, ExtensionName(), NoBroadcast(), ExtensionEffect())
  }

  /** Five runs side by side. */
  ghost function SideBySide(ops: seq<Op>, a: NamespaceDef): Outcome<Option<NamespaceDef>> {
    var tables, types, views := RunTables(ops, a.tables), RunTypes(ops, a.types), RunViews(ops, a.views);
    var sequences, extensions := RunSequences(ops, a.sequences), RunExtensions(ops, a.extensions);
    if tables.Ok? && types.Ok? && views.Ok? && sequences.Ok? && extensions.Ok? then
      Ok(Some(NamespaceDef(a.name, tables.value, types.value, views.value, sequences.value, extensions.value)))
    else Fail
  }

  ghost predicate Inside(ops: seq<Op>) {
    forall op :: op in ops ==> PartOf(op) != Whole
  }

  /** One more operation of a part, and of the other parts. */
  lemma PartSnoc<V>(init: seq<Op>, op: Op, part: Part, m: map<string, V>, at: Op -> string, all: Op -> bool,
                    effect: Effect<V>)
    ensures Run(Filter(init + [op], InPart(part)), m, at, all, effect) ==
      var before := Run(Filter(init, InPart(part)), m, at, all, effect);
      if PartOf(op) != part then before
      else if before.Fail? then Fail
      else Step(op, before.value, at, all, effect)
  {
    FilterSnoc(init, op, InPart(part));
    var kept := Filter(init, InPart(part));
    assert (kept + [op])[..|kept|] == kept;
  }

  lemma NothingBeside(a: NamespaceDef)
    ensures SideBySide([], a) == Ok(Some(a))
  {
  }

  lemma BesideSnoc(init: seq<Op>, op: Op, a: NamespaceDef)
    requires PartOf(op) != Whole
    ensures SideBySide(init + [op], a) ==
      if SideBySide(init, a).Fail? then Fail else NamespaceEffect()(op, SideBySide(init, a).value)
  {
    hide SideBySide, NamespaceEffect, Step, Filter, Run;
    PartSnoc(init, op, Tables, a.tables, TableName(), IsDropIndex(), TableEffect());
    PartSnoc(init, op, Types, a.types, TypeName(), NoBroadcast(), TypeEffect());
    PartSnoc(init, op, Views, a.views, ViewName(), NoBroadcast(), ViewEffect());
    PartSnoc(init, op, Sequences, a.sequences, SequenceName(), NoBroadcast(), SequenceEffect());
    PartSnoc(init, op, Extensions, a.extensions, ExtensionName(), NoBroadcast(), ExtensionEffect());
    NamespaceStepSplits(init, op, a);
  }

  /** A run inside a namespace is five runs side by side. */
  lemma {:induction false} NamespaceSplits(ops: seq<Op>, a: NamespaceDef)
    requires Inside(ops)
    ensures RunOne(ops, Some(a), NamespaceEffect()) == SideBySide(ops, a)
  {
    hide SideBySide, RunTables, RunTypes, RunViews, RunSequences, RunExtensions, NamespaceEffect;
    if ops == [] {
      NothingBeside(a);
    } else {
      var init, op := ops[..|ops| - 1], ops[|ops| - 1];
      assert op in ops && forall x :: x in init ==> x in ops;
      assert ops == init + [op];
      NamespaceSplits(init, a);
      RunOneSnoc(init, op, Some(a), NamespaceEffect());
      BesideSnoc(init, op, a);
    }
  }

  lemma NamespaceStepSplits(init: seq<Op>, op: Op, a: NamespaceDef)
    requires PartOf(op) != Whole
    requires RunTables(init + [op], a.tables) ==
      var before := RunTables(init, a.tables);
      if PartOf(op) != Tables then before else if before.Fail? then Fail
      else Step(op, before.value, TableName(), IsDropIndex(), TableEffect())
    requires RunTypes(init + [op], a.types) ==
      var before := RunTypes(init, a.types);
      if PartOf(op) != Types then before else if before.Fail? then Fail
      else Step(op, before.value, TypeName(), NoBroadcast(), TypeEffect())
    requires RunViews(init + [op], a.views) ==
      var before := RunViews(init, a.views);
      if PartOf(op) != Views then before else if before.Fail? then Fail
      else Step(op, before.value, ViewName(), NoBroadcast(), ViewEffect())
    requires RunSequences(init + [op], a.sequences) ==
      var before := RunSequences(init, a.sequences);
      if PartOf(op) != Sequences then before else if before.Fail? then Fail
      else Step(op, before.value, SequenceName(), NoBroadcast(), SequenceEffect())
    requires RunExtensions(init + [op], a.extensions) ==
      var before := RunExtensions(init, a.extensions);
      if PartOf(op) != Extensions then before else if before.Fail? then Fail
      else Step(op, before.value, ExtensionName(), NoBroadcast(), ExtensionEffect())
    ensures SideBySide(init + [op], a) ==
      if SideBySide(init, a).Fail? then Fail else NamespaceEffect()(op, SideBySide(init, a).value)
  {
    hide RunTables, RunTypes, RunViews, RunSequences, RunExtensions, Step;
  }

  function InTablePart(part: TablePart): Op -> bool { (op: Op) => PartOfTable(op) == part }

  ghost function RunColumnPart(ops: seq<Op>, t: TableDef): Outcome<Columns> {
    RunColumns(Filter(ops, InTablePart(ColumnPart)), Columns(t.order, t.columns))
  }

  ghost function RunConstraintPart(ops: seq<Op>, t: TableDef): Outcome<map<string, Constraint>> {
    Run(Filter(ops, InTablePart(ConstraintPart)), t.constraints, ConstraintName(), NoBroadcast(), ConstraintEffect())
  }

  ghost function RunIndexPart(ops: seq<Op>, t: TableDef): Outcome<map<string, Index>> {
    Run(Filter(ops, InTablePart(IndexPart)), t.indexes, IndexName(), NoBroadcast(), IndexEffect())
  }

  /** `r` is what three runs side by side make of `t`. */
  ghost predicate TableBecomes(ops: seq<Op>, t: TableDef, r: Outcome<Option<TableDef>>) {
    var columns, constraints, indexes := RunColumnPart(ops, t), RunConstraintPart(ops, t), RunIndexPart(ops, t);
    if columns.Ok? && constraints.Ok? && indexes.Ok? then
      && r.Ok? && r.value.Some?
      && var u := r.value.value;
      && u.schema == t.schema && u.name == t.name && u.isPlaceholder == t.isPlaceholder
      && u.order == columns.value.order && u.columns == columns.value.byName
      && u.constraints == constraints.value && u.indexes == indexes.value
    else r.Fail?
  }

  ghost predicate InsideTable(ops: seq<Op>) {
    forall op :: op in ops ==> PartOfTable(op) != WholeTable
  }

  lemma TablePartSnoc<V>(init: seq<Op>, op: Op, part: TablePart, m: map<string, V>, at: Op -> string,
                         all: Op -> bool, effect: Effect<V>)
    ensures Run(Filter(init + [op], InTablePart(part)), m, at, all, effect) ==
      var before := Run(Filter(init, InTablePart(part)), m, at, all, effect);
      if PartOfTable(op) != part then before
      else if before.Fail? then Fail
      else Step(op, before.value, at, all, effect)
  {
    FilterSnoc(init, op, InTablePart(part));
    var kept := Filter(init, InTablePart(part));
    assert (kept + [op])[..|kept|] == kept;
  }

  lemma ColumnPartSnoc(init: seq<Op>, op: Op, t: TableDef)
    ensures RunColumnPart(init + [op], t) ==
      var before := RunColumnPart(init, t);
      if PartOfTable(op) != ColumnPart then before
      else if before.Fail? then Fail
      else EditColumns(before.value, op)
  {
    FilterSnoc(init, op, InTablePart(ColumnPart));
    var kept := Filter(init, InTablePart(ColumnPart));
    assert (kept + [op])[..|kept|] == kept;
  }

  /** A run inside a table is three runs side by side. */
  lemma {:induction false} TableSplits(ops: seq<Op>, t: TableDef)
    requires InsideTable(ops)
    ensures TableBecomes(ops, t, RunOne(ops, Some(t), TableEffect()))
  {
    if ops == [] {
    } else {
      var init, op := ops[..|ops| - 1], ops[|ops| - 1];
      assert op in ops && forall x :: x in init ==> x in ops;
      assert ops == init + [op];
      TableSplits(init, t);
      RunOneSnoc(init, op, Some(t), TableEffect());
      ColumnPartSnoc(init, op, t);
      TablePartSnoc(init, op, ConstraintPart, t.constraints, ConstraintName(), NoBroadcast(), ConstraintEffect());
      TablePartSnoc(init, op, IndexPart, t.indexes, IndexName(), NoBroadcast(), IndexEffect());
      TableStepBecomes(init, op, t);
    }
  }

  lemma TableStepBecomes(init: seq<Op>, op: Op, t: TableDef)
    requires PartOfTable(op) != WholeTable
    requires TableBecomes(init, t, RunOne(init, Some(t), TableEffect()))
    requires RunOne(init + [op], Some(t), TableEffect()) ==
      if RunOne(init, Some(t), TableEffect()).Fail? then Fail
      else TableEffect()(op, RunOne(init, Some(t), TableEffect()).value)
    requires RunColumnPart(init + [op], t) ==
      if PartOfTable(op) != ColumnPart then RunColumnPart(init, t)
      else if RunColumnPart(init, t).Fail? then Fail
      else EditColumns(RunColumnPart(init, t).value, op)
    requires RunConstraintPart(init + [op], t) ==
      if PartOfTable(op) != ConstraintPart then RunConstraintPart(init, t)
      else if RunConstraintPart(init, t).Fail? then Fail
      else Step(op, RunConstraintPart(init, t).value, ConstraintName(), NoBroadcast(), ConstraintEffect())
    requires RunIndexPart(init + [op], t) ==
      if PartOfTable(op) != IndexPart then RunIndexPart(init, t)
      else if RunIndexPart(init, t).Fail? then Fail
      else Step(op, RunIndexPart(init, t).value, IndexName(), NoBroadcast(), IndexEffect())
    ensures TableBecomes(init + [op], t, RunOne(init + [op], Some(t), TableEffect()))
  {
    hide Filter, Run, RunOne, RunColumnPart, RunConstraintPart, RunIndexPart;
  }
}
