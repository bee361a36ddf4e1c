/** Snapshots of a database schema: the values the differ compares and the contents of the
    mutable objects in module Store. */
module Catalog {

  datatype Option<+T> = None | Some(value: T)

  datatype Column = Column(
    name: string,
    dataType: string,
    isNullable: bool,
    defaultExpr: Option<string>,
    isIdentity: bool,
    identityKind: string,
    collation: string)

  datatype PrimaryKey = PrimaryKey(name: string, columns: seq<string>)

  datatype IndexElem = IndexElem(
    name: string,
    expr: string,
    indexColName: string,
    collation: string,
    opclass: string,
    ordering: string,
    nullsOrdering: string)

  datatype Index = Index(
    name: string,
    table: string,
    columns: seq<string>,
    elements: seq<IndexElem>,
    unique: bool,
    accessMethod: string,
    primary: bool,
    isConstraint: bool,
    whereClause: string,
    definition: string,
    concurrent: bool,
    ifNotExists: bool)

  datatype Constraint = Constraint(
    name: string,
    kind: string,
    definition: string,
    table: string,
    columns: seq<string>,
    refSchema: string,
    refTable: string,
    refColumns: seq<string>,
    expression: string,
    onDelete: string,
    onUpdate: string)

  /** `order` lists the column names as the table's column slice does; `columns` is the lookup by
      name. */
  datatype TableDef = TableDef(
    schema: string,
    name: string,
    order: seq<string>,
    columns: map<string, Column>,
    primaryKey: Option<PrimaryKey>,
    constraints: map<string, Constraint>,
    indexes: map<string, Index>,
    isPlaceholder: bool)

  datatype EnumType = EnumType(name: string, labels: seq<string>)

  datatype View = View(name: string, definition: string, materialized: bool)

  datatype Sequence = Sequence(
    name: string,
    dataType: string,
    startValue: int,
    incrementBy: int,
    minValue: int,
    maxValue: int,
    cacheSize: int,
    cycle: bool,
    ownedByTable: string,
    ownedByColumn: string)

  datatype Extension = Extension(name: string, version: string)

  datatype NamespaceDef = NamespaceDef(
    name: string,
    tables: map<string, TableDef>,
    types: map<string, EnumType>,
    views: map<string, View>,
    sequences: map<string, Sequence>,
    extensions: map<string, Extension>)

  datatype SchemaDef = SchemaDef(schemas: map<string, NamespaceDef>)

  function EmptyNamespace(name: string): NamespaceDef {
    NamespaceDef(name, map[], map[], map[], map[], map[])
  }

  function EmptyTable(schema: string, name: string): TableDef {
    TableDef(schema, name, [], map[], None, map[], map[], false)
  }

  // ----- well-formedness: every map key is the name of the object under it

  ghost predicate NoDuplicates(s: seq<string>) {
    forall i, j :: 0 <= i < j < |s| ==> s[i] != s[j]
  }

  ghost predicate ColumnsNamed(columns: map<string, Column>) {
    forall n :: n in columns ==> columns[n].name == n
  }

  ghost predicate TableWellFormed(t: TableDef) {
    && NoDuplicates(t.order)
    && (forall n :: n in t.order <==> n in t.columns)
    && ColumnsNamed(t.columns)
    && (forall n :: n in t.constraints ==> t.constraints[n].name == n)
    && (forall n :: n in t.indexes ==> t.indexes[n].name == n && t.indexes[n].table == t.name)
  }

  ghost predicate NamespaceWellFormed(ns: NamespaceDef) {
    && (forall n :: n in ns.tables ==>
          && ns.tables[n].schema == ns.name
          && ns.tables[n].name == n
          && TableWellFormed(ns.tables[n]))
    && (forall n :: n in ns.types ==> ns.types[n].name == n)
    && (forall n :: n in ns.views ==> ns.views[n].name == n)
    && (forall n :: n in ns.sequences ==> ns.sequences[n].name == n)
    && (forall n :: n in ns.extensions ==> ns.extensions[n].name == n)
  }

  ghost predicate WellFormed(s: SchemaDef) {
    forall n :: n in s.schemas ==> s.schemas[n].name == n && NamespaceWellFormed(s.schemas[n])
  }
}
