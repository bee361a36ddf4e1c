/** What the differ emits, as functions of the two schemas.  The only freedom left is the order
    in which Go walks the map of a source table's columns, which is the parameter `walk`. */
module DiffSpec {
  import opened Catalog
  import opened Operations
  import opened Names
  import opened Lists

  // ----- columns: comparison

  predicate SameDefault(a: Option<string>, b: Option<string>) {
    if a.None? && b.None? then true
    else if a.None? || b.None? then false
    else a.value == b.value
  }

  /** The properties that rename detection goes by. */
  predicate IsRenameCandidate(a: Column, b: Column) {
    && a.dataType == b.dataType
    && a.isNullable == b.isNullable
    && SameDefault(a.defaultExpr, b.defaultExpr)
    && a.collation == b.collation
  }

  /** The same properties joined into one string for lookup. */
  function Signature(c: Column): string {
    c.dataType + "|" + (if c.isNullable then "true" else "false") + "|" +
    (if c.defaultExpr.Some? then c.defaultExpr.value else "") + "|" + c.collation
  }

  function TypeOps(schema: string, table: string, s: Column, t: Column): seq<Op> {
    if s.dataType != t.dataType
    then [AlterColumnTypeOp(schema, table, s.name, s.dataType, t.dataType)] else []
  }

  function NullOps(schema: string, table: string, s: Column, t: Column): seq<Op> {
    if s.isNullable && !t.isNullable then [SetNotNullOp(schema, table, s.name)]
    else if !s.isNullable && t.isNullable then [DropNotNullOp(schema, table, s.name)]
    else []
  }

  function DefaultOps(schema: string, table: string, s: Column, t: Column): seq<Op> {
    if SameDefault(s.defaultExpr, t.defaultExpr) then []
    else if t.defaultExpr.None? then [DropDefaultOp(schema, table, s.name)]
    else [SetDefaultOp(schema, table, s.name, t.defaultExpr.value)]
  }

  function CollationOps(schema: string, table: string, s: Column, t: Column): seq<Op> {
    if s.collation != t.collation then
      var dataType := if t.dataType == "" then s.dataType else t.dataType;
      [AlterColumnCollationOp(schema, table, s.name, dataType, s.collation, t.collation)]
    else []
  }

  function IdentityOps(schema: string, table: string, s: Column, t: Column): seq<Op> {
    if s.isIdentity == t.isIdentity && s.identityKind == t.identityKind then []
    else if !s.isIdentity && t.isIdentity then [AddIdentityOp(schema, table, s.name, t.identityKind)]
    else if s.isIdentity && t.isIdentity then [SetIdentityOp(schema, table, s.name, t.identityKind)]
    else if s.isIdentity && !t.isIdentity then [DropIdentityOp(schema, table, s.name)]
    else []
  }

  /** The operations for a column that both tables have. */
  function ColumnOps(schema: string, table: string, s: Column, t: Column): seq<Op> {
    TypeOps(schema, table, s, t) + NullOps(schema, table, s, t) + DefaultOps(schema, table, s, t) +
    CollationOps(schema, table, s, t) + IdentityOps(schema, table, s, t)
  }

  // ----- columns: renames, additions, removals

  ghost function SourceOnly(s: TableDef, t: TableDef): seq<string> {
    Sorted(set n | n in s.columns && n !in t.columns)
  }

  ghost function TargetOnly(s: TableDef, t: TableDef): seq<string> {
    Sorted(set n | n in t.columns && n !in s.columns)
  }

  /** The lookup table from signature to target column; a later name replaces an earlier one. */
  function BySignature(t: TableDef, names: seq<string>): (m: map<string, string>)
    requires forall n :: n in names ==> n in t.columns
  {
    if names == [] then map[] else
    var n := names[|names| - 1];
    assert forall k :: k in names[..|names| - 1] ==> k in names;
    BySignature(t, names[..|names| - 1])[Signature(t.columns[n]) := n]
  }

  /** The renames found for a prefix of the source-only names: each takes the target column with
      its signature unless an earlier name has taken it. */
  function Matches(s: TableDef, sources: seq<string>, bySig: map<string, string>): seq<(string, string)>
    requires forall n :: n in sources ==> n in s.columns
  {
    if sources == [] then [] else
    assert forall k :: k in sources[..|sources| - 1] ==> k in sources;
    var before := Matches(s, sources[..|sources| - 1], bySig);
    var n := sources[|sources| - 1];
    var sig := Signature(s.columns[n]);
    if sig in bySig && !TargetTaken(before, bySig[sig]) then before + [(n, bySig[sig])] else before
  }

  predicate TargetTaken(pairs: seq<(string, string)>, t: string) {
    exists i :: 0 <= i < |pairs| && pairs[i].1 == t
  }

  predicate SourceTaken(pairs: seq<(string, string)>, s: string) {
    exists i :: 0 <= i < |pairs| && pairs[i].0 == s
  }

  ghost function Renames(s: TableDef, t: TableDef): seq<(string, string)> {
    Matches(s, SourceOnly(s, t), BySignature(t, TargetOnly(s, t)))
  }

  function RenameOps(schema: string, table: string, pairs: seq<(string, string)>): seq<Op> {
    if pairs == [] then [] else
    var p := pairs[|pairs| - 1];
    RenameOps(schema, table, pairs[..|pairs| - 1]) + [RenameColumnOp(schema, table, p.0, p.1)]
  }

  function AddStep(schema: string, t: TableDef, pairs: seq<(string, string)>): string -> seq<Op> {
    (n: string) =>
      if n in t.columns && !TargetTaken(pairs, n)
      then [AddColumnOp(schema, t.name, t.columns[n])] else []
  }

  function DropStep(schema: string, s: TableDef, t: TableDef, pairs: seq<(string, string)>): string -> seq<Op> {
    (n: string) =>
      if n !in t.columns && !SourceTaken(pairs, n) then [DropColumnOp(schema, s.name, n)] else []
  }

  function AlterStep(schema: string, s: TableDef, t: TableDef): string -> seq<Op> {
    (n: string) =>
      if n in s.columns && n in t.columns then ColumnOps(schema, t.name, s.columns[n], t.columns[n])
      else []
  }

  /** All column operations for a table that both schemas have; `walk` is the order in which the
      source's column map yields its names. */
  ghost function TableColumnOps(schema: string, s: TableDef, t: TableDef, walk: seq<string>): seq<Op> {
    var pairs := Renames(s, t);
    RenameOps(schema, t.name, pairs)
    + Flat(TargetOnly(s, t), AddStep(schema, t, pairs))
    + Flat(walk, DropStep(schema, s, t, pairs))
    + Flat(t.order, AlterStep(schema, s, t))
  }

  // ----- indexes

  predicate SameIndex(a: Index, b: Index) {
    && a.unique == b.unique
    && a.accessMethod == b.accessMethod
    && a.whereClause == b.whereClause
    && a.elements == b.elements
  }

  function NewIndexStep(schema: string, s: TableDef, t: TableDef): string -> seq<Op> {
    (n: string) =>
      if n in t.indexes && n !in s.indexes then [CreateIndexOp(schema, t.indexes[n])] else []
  }

  function OldIndexStep(schema: string, s: TableDef, t: TableDef): string -> seq<Op> {
    (n: string) =>
      if n in s.indexes && n !in t.indexes then [DropIndexOp(schema, n)] else []
  }

  function ChangedIndexStep(schema: string, s: TableDef, t: TableDef): string -> seq<Op> {
    (n: string) =>
      if n in s.indexes && n in t.indexes && !SameIndex(s.indexes[n], t.indexes[n])
      then [DropIndexOp(schema, n), CreateIndexOp(schema, t.indexes[n])] else []
  }

  ghost function TableIndexOps(schema: string, s: TableDef, t: TableDef): seq<Op> {
    Flat(Sorted(t.indexes.Keys), NewIndexStep(schema, s, t))
    + Flat(Sorted(s.indexes.Keys), OldIndexStep(schema, s, t))
    + Flat(Sorted(t.indexes.Keys), ChangedIndexStep(schema, s, t))
  }

  // ----- constraints

  predicate SameConstraintContent(a: Constraint, b: Constraint) {
    && a.kind == b.kind && a.columns == b.columns
    && a.refSchema == b.refSchema && a.refTable == b.refTable && a.refColumns == b.refColumns
    && a.expression == b.expression && a.onDelete == b.onDelete && a.onUpdate == b.onUpdate
  }

  /** Same type and columns, and the same references or expression where the type has them. */
  predicate SameConstraintSemantics(a: Constraint, b: Constraint) {
    && a.kind == b.kind
    && a.columns == b.columns
    && (a.kind == "foreign_key" ==>
          && a.refSchema == b.refSchema && a.refTable == b.refTable
          && a.refColumns == b.refColumns
          && a.onDelete == b.onDelete && a.onUpdate == b.onUpdate)
    && (a.kind == "check" ==> a.expression == b.expression)
  }

  predicate ConstraintChanged(a: Constraint, b: Constraint) {
    !SameConstraintContent(a, b) && !SameConstraintSemantics(a, b)
  }

  function NewConstraintStep(schema: string, s: TableDef, t: TableDef): string -> seq<Op> {
    (n: string) =>
      if n in t.constraints && n !in s.constraints
      then [AddConstraintOp(schema, t.name, t.constraints[n])] else []
  }

  function ChangedConstraintStep(schema: string, s: TableDef, t: TableDef): string -> seq<Op> {
    (n: string) =>
      if n in s.constraints && n in t.constraints && ConstraintChanged(s.constraints[n], t.constraints[n])
      then [DropConstraintOp(schema, s.name, n), AddConstraintOp(schema, t.name, t.constraints[n])] else []
  }

  function OldConstraintStep(schema: string, s: TableDef, t: TableDef): string -> seq<Op> {
    (n: string) =>
      if n in s.constraints && n !in t.constraints then [DropConstraintOp(schema, s.name, n)] else []
  }

  ghost function TableConstraintOps(schema: string, s: TableDef, t: TableDef): seq<Op> {
    Flat(Sorted(t.constraints.Keys), NewConstraintStep(schema, s, t))
    + Flat(Sorted(t.constraints.Keys), ChangedConstraintStep(schema, s, t))
    + Flat(Sorted(s.constraints.Keys), OldConstraintStep(schema, s, t))
  }

  // ----- tables

  /** The order in which the map of a table's columns yields its names, by namespace and table. */
  type Walk = (string, string) -> seq<string>

  function NewTableStep(s: NamespaceDef, t: NamespaceDef): string -> seq<Op> {
    (n: string) =>
      if n in t.tables && n !in s.tables then [AddTableOp(t.name, n, t.tables[n])] else []
  }

  function OldTableStep(s: NamespaceDef, t: NamespaceDef): string -> seq<Op> {
    (n: string) =>
      if n in s.tables && n !in t.tables then [DropTableOp(s.name, n)] else []
  }

  ghost function CommonTableOps(schema: string, s: TableDef, t: TableDef, walk: seq<string>): seq<Op> {
    TableColumnOps(schema, s, t, walk) + TableIndexOps(schema, s, t) + TableConstraintOps(schema, s, t)
  }

  ghost function CommonTableStep(s: NamespaceDef, t: NamespaceDef, walk: Walk): string -> seq<Op> {
    (n: string) =>
      if n in s.tables && n in t.tables
      then CommonTableOps(s.name, s.tables[n], t.tables[n], walk(s.name, n)) else []
  }

  ghost function TablesOps(s: NamespaceDef, t: NamespaceDef, walk: Walk): seq<Op> {
    Flat(Sorted(t.tables.Keys), NewTableStep(s, t))
    + Flat(Sorted(s.tables.Keys), OldTableStep(s, t))
    + Flat(Sorted(t.tables.Keys), CommonTableStep(s, t, walk))
  }

  // ----- enum types

  predicate IsEnumAppend(s: seq<string>, t: seq<string>) {
    |s| < |t| && forall i :: 0 <= i < |s| ==> t[i] == s[i]
  }

  function LabelOps(schema: string, name: string, labels: seq<string>): seq<Op> {
    if labels == [] then [] else
    LabelOps(schema, name, labels[..|labels| - 1]) + [AddEnumLabelOp(schema, name, labels[|labels| - 1])]
  }

  function EnumOps(schema: string, name: string, s: EnumType, t: EnumType): seq<Op> {
    if IsEnumAppend(s.labels, t.labels) then LabelOps(schema, name, t.labels[|s.labels|..]) else []
  }

  /** The type cannot be changed by appending labels, and does change. */
  predicate EnumWarns(s: EnumType, t: EnumType) {
    !IsEnumAppend(s.labels, t.labels) && s.labels != t.labels
  }

  function NewTypeStep(s: NamespaceDef, t: NamespaceDef): string -> seq<Op> {
    (n: string) =>
      if n in t.types && n !in s.types then [AddEnumTypeOp(t.name, n, t.types[n])] else []
  }

  function CommonTypeStep(s: NamespaceDef, t: NamespaceDef): string -> seq<Op> {
    (n: string) =>
      if n in s.types && n in t.types then EnumOps(t.name, n, s.types[n], t.types[n]) else []
  }

  function OldTypeStep(s: NamespaceDef, t: NamespaceDef): string -> seq<Op> {
    (n: string) =>
      if n in s.types && n !in t.types then [DropEnumTypeOp(s.name, n)] else []
  }

  ghost function TypesOps(s: NamespaceDef, t: NamespaceDef): seq<Op> {
    Flat(Sorted(t.types.Keys), NewTypeStep(s, t))
    + Flat(Sorted(t.types.Keys), CommonTypeStep(s, t))
    + Flat(Sorted(s.types.Keys), OldTypeStep(s, t))
  }

  // ----- views

  function CreateView(schema: string, v: View): Op {
    if v.materialized then CreateMaterializedViewOp(schema, v) else CreateViewOp(schema, v)
  }

  function TargetViewStep(s: NamespaceDef, t: NamespaceDef): string -> seq<Op> {
    (n: string) =>
      if n !in t.views then []
      else if n !in s.views then [CreateView(t.name, t.views[n])]
      else if s.views[n].materialized != t.views[n].materialized then
        [if s.views[n].materialized then DropMaterializedViewOp(s.name, n) else DropViewOp(s.name, n, true),
         CreateView(t.name, t.views[n])]
      else if s.views[n].definition != t.views[n].definition then
        if t.views[n].materialized
        then [DropMaterializedViewOp(s.name, n), CreateMaterializedViewOp(t.name, t.views[n])]
        else [ReplaceViewOp(t.name, t.views[n])]
      else []
  }

  function OldViewStep(s: NamespaceDef, t: NamespaceDef): string -> seq<Op> {
    (n: string) =>
      if n in s.views && n !in t.views then
        [if s.views[n].materialized then DropMaterializedViewOp(s.name, n) else DropViewOp(s.name, n, false)]
      else []
  }

  ghost function ViewsOps(s: NamespaceDef, t: NamespaceDef): seq<Op> {
    Flat(Sorted(t.views.Keys), TargetViewStep(s, t)) + Flat(Sorted(s.views.Keys), OldViewStep(s, t))
  }

  // ----- sequences

  predicate SameSequence(a: Sequence, b: Sequence) {
    && a.dataType == b.dataType && a.startValue == b.startValue && a.incrementBy == b.incrementBy
    && a.minValue == b.minValue && a.maxValue == b.maxValue && a.cacheSize == b.cacheSize
    && a.cycle == b.cycle && a.ownedByTable == b.ownedByTable && a.ownedByColumn == b.ownedByColumn
  }

  function TargetSequenceStep(s: NamespaceDef, t: NamespaceDef): string -> seq<Op> {
    (n: string) =>
      if n !in t.sequences then []
      else if n !in s.sequences then [CreateSequenceOp(t.name, t.sequences[n])]
      else if !SameSequence(s.sequences[n], t.sequences[n])
      then [AlterSequenceOp(t.name, s.sequences[n], t.sequences[n])] else []
  }

  function OldSequenceStep(s: NamespaceDef, t: NamespaceDef): string -> seq<Op> {
    (n: string) =>
      if n in s.sequences && n !in t.sequences then [DropSequenceOp(s.name, n)] else []
  }

  ghost function SequencesOps(s: NamespaceDef, t: NamespaceDef): seq<Op> {
    Flat(Sorted(t.sequences.Keys), TargetSequenceStep(s, t))
    + Flat(Sorted(s.sequences.Keys), OldSequenceStep(s, t))
  }

  // ----- extensions

  /** Both versions are known and differ. */
  predicate VersionChanged(a: Extension, b: Extension) {
    a.version != "" && b.version != "" && a.version != b.version
  }

  function TargetExtensionStep(s: NamespaceDef, t: NamespaceDef): string -> seq<Op> {
    (n: string) =>
      if n !in t.extensions then []
      else if n !in s.extensions then [CreateExtensionOp(t.name, t.extensions[n])]
      else if VersionChanged(s.extensions[n], t.extensions[n])
      then [AlterExtensionUpdateOp(t.name, t.extensions[n])] else []
  }

  function OldExtensionStep(s: NamespaceDef, t: NamespaceDef): string -> seq<Op> {
    (n: string) =>
      if n in s.extensions && n !in t.extensions then [DropExtensionOp(s.name, n)] else []
  }

  ghost function ExtensionsOps(s: NamespaceDef, t: NamespaceDef): seq<Op> {
    Flat(Sorted(t.extensions.Keys), TargetExtensionStep(s, t))
    + Flat(Sorted(s.extensions.Keys), OldExtensionStep(s, t))
  }

  // ----- namespaces and schemas

  ghost function NamespaceOps(s: NamespaceDef, t: NamespaceDef, walk: Walk): seq<Op> {
    TablesOps(s, t, walk) + TypesOps(s, t) + ViewsOps(s, t) + SequencesOps(s, t) + ExtensionsOps(s, t)
  }

  ghost function TargetNamespaceStep(s: SchemaDef, t: SchemaDef, walk: Walk): string -> seq<Op> {
    (n: string) =>
      if n !in t.schemas then []
      else if n in s.schemas then NamespaceOps(s.schemas[n], t.schemas[n], walk)
      else [CreateSchemaOp(n)] + NamespaceOps(EmptyNamespace(n), t.schemas[n], walk)
  }

  /** PostgreSQL's `public` namespace is never dropped. */
  function OldNamespaceStep(s: SchemaDef, t: SchemaDef): string -> seq<Op> {
    (n: string) =>
      if n in s.schemas && n !in t.schemas && n != "public" then [DropSchemaOp(n)] else []
  }

  /** The operations that the differ emits. */
  ghost function DiffOps(s: SchemaDef, t: SchemaDef, walk: Walk): seq<Op> {
    Flat(Sorted(t.schemas.Keys), TargetNamespaceStep(s, t, walk))
    + Flat(Sorted(s.schemas.Keys), OldNamespaceStep(s, t))
  }

  // ----- warnings

  datatype Warning = EnumNotAppendOnly(schema: string, name: string) | PublicNotDropped

  function TypeWarningStep(s: NamespaceDef, t: NamespaceDef): string -> seq<Warning> {
    (n: string) =>
      if n in s.types && n in t.types && EnumWarns(s.types[n], t.types[n])
      then [EnumNotAppendOnly(t.name, n)] else []
  }

  ghost function NamespaceWarningStep(s: SchemaDef, t: SchemaDef): string -> seq<Warning> {
    (n: string) =>
      if n in s.schemas && n in t.schemas
      then Flat(Sorted(t.schemas[n].types.Keys), TypeWarningStep(s.schemas[n], t.schemas[n])) else []
  }

  function PublicWarningStep(s: SchemaDef, t: SchemaDef): string -> seq<Warning> {
    (n: string) =>
      if n in s.schemas && n !in t.schemas && n == "public" then [PublicNotDropped] else []
  }

  ghost function DiffWarnings(s: SchemaDef, t: SchemaDef): seq<Warning> {
    Flat(Sorted(t.schemas.Keys), NamespaceWarningStep(s, t))
    + Flat(Sorted(s.schemas.Keys), PublicWarningStep(s, t))
  }

  /** `walk` yields every column of every table exactly once. */
  ghost predicate Walks(walk: Walk, s: SchemaDef) {
    forall ns, n :: ns in s.schemas && n in s.schemas[ns].tables ==>
      ListsAll(walk(ns, n), s.schemas[ns].tables[n].columns.Keys)
  }

  ghost predicate ListsAll(listing: seq<string>, names: set<string>) {
    NoDuplicates(listing) && forall n :: n in listing <==> n in names
  }
}
