/** ALTER TABLE ADD COLUMN before CREATE TABLE: wherever the CREATE TABLE stands among the
    additions, the table ends with the same columns, primary key and constraints. */
module Confluence {
  import opened Catalog
  import opened TableEdits
  import opened MutationSpec

  function Adds(ns: string, n: string, cols: seq<Column>): seq<Mutation> {
    if cols == [] then [] else
    Adds(ns, n, cols[..|cols| - 1]) + [AddColumnMutation(ns, n, cols[|cols| - 1])]
  }

  function ColumnMap(cols: seq<Column>): (m: map<string, Column>)
    ensures forall n :: n in m <==> n in ColumnNames(cols)
  {
    if cols == [] then map[] else
    assert ColumnNames(cols) == ColumnNames(cols[..|cols| - 1]) + [cols[|cols| - 1].name];
    ColumnMap(cols[..|cols| - 1])[cols[|cols| - 1].name := cols[|cols| - 1]]
  }

  lemma ApplyNone(s: SchemaDef)
    ensures MutateAll([], s) == Run(s, [])
  {
  }

  lemma {:induction false} ApplyAllConcat(a: seq<Mutation>, b: seq<Mutation>, s: SchemaDef)
    ensures MutateAll(a + b, s) ==
      var x, y := MutateAll(a, s), MutateAll(b, MutateAll(a, s).schema);
      Run(y.schema, x.errors + y.errors)
  {
    hide Mutate, MutateAll;
    if b == [] {
      assert a + b == a;
      ApplyNone(MutateAll(a, s).schema);
    } else {
      var init, m := b[..|b| - 1], b[|b| - 1];
      assert a + b == (a + init) + [m] && b == init + [m];
      ApplyAllConcat(a, init, s);
      MutateAllSnoc(a + init, m, s);
      MutateAllSnoc(init, m, MutateAll(a, s).schema);
      var x, y := MutateAll(a, s).errors, MutateAll(init, MutateAll(a, s).schema).errors;
      assert (x + y) + [m] == x + (y + [m]);
    }
  }

  lemma NamesSnoc(cols: seq<Column>)
    requires cols != []
    ensures ColumnNames(cols) == ColumnNames(cols[..|cols| - 1]) + [cols[|cols| - 1].name]
  {
    assert cols == cols[..|cols| - 1] + [cols[|cols| - 1]];
  }

  /** The table with more columns. */
  function Extended(t: TableDef, names: seq<string>, columns: map<string, Column>): TableDef {
    t.(order := t.order + names, columns := t.columns + columns)
  }

  lemma ExtendedMore(t: TableDef, names: seq<string>, columns: map<string, Column>, col: Column)
    ensures AppendColumn(Extended(t, names, columns), col) == Extended(t, names + [col.name], columns[col.name := col])
    ensures Extended(t, [], map[]) == t
  {
    assert t.order + names + [col.name] == t.order + (names + [col.name]);
  }

  lemma {:induction false} AppendedColumns(t: TableDef, cols: seq<Column>)
    ensures AppendColumns(t, cols) == Extended(t, ColumnNames(cols), ColumnMap(cols))
  {
    if cols == [] {
      assert ColumnNames(cols) == [];
      ExtendedMore(t, [], map[], Column("", "", false, None, false, "", ""));
    } else {
      hide ColumnNames, Extended, AppendColumn;
      var init, col := cols[..|cols| - 1], cols[|cols| - 1];
      AppendedColumns(t, init);
      NamesSnoc(cols);
      ExtendedMore(t, ColumnNames(init), ColumnMap(init), col);
    }
  }

  ghost predicate Unrelated(t: TableDef, cols: seq<Column>) {
    && NoDuplicates(ColumnNames(cols))
    && forall i :: 0 <= i < |cols| ==> cols[i].name !in t.columns
  }

  lemma DistinctPrefix(names: seq<string>, last: string)
    requires NoDuplicates(names + [last])
    ensures NoDuplicates(names) && last !in names
  {
    var all := names + [last];
    assert forall i :: 0 <= i < |names| ==> all[i] == names[i];
    assert all[|names|] == last;
  }

  lemma UnrelatedPrefix(t: TableDef, cols: seq<Column>)
    requires Unrelated(t, cols) && cols != []
    ensures Unrelated(t, cols[..|cols| - 1])
    ensures cols[|cols| - 1].name !in AppendColumns(t, cols[..|cols| - 1]).columns
  {
    hide ColumnNames, NoDuplicates, AppendColumns, ColumnMap;
    var init, last := cols[..|cols| - 1], cols[|cols| - 1];
    NamesSnoc(cols);
    DistinctPrefix(ColumnNames(init), last.name);
    AppendedColumns(t, init);
  }

  /** New columns are merged into a placeholder as they are appended to a new table. */
  lemma {:induction false} MergeAppends(t: TableDef, cols: seq<Column>)
    requires Unrelated(t, cols)
    ensures MergeColumns(t, cols) == Merged(AppendColumns(t, cols), false)
  {
    if cols != [] {
      UnrelatedPrefix(t, cols);
      hide Unrelated, AppendColumn;
      MergeAppends(t, cols[..|cols| - 1]);
    }
  }

  /** Additions to an existing table. */
  lemma {:induction false} AddsTo(s: SchemaDef, ns: string, n: string, cols: seq<Column>)
    requires HasTable(s, ns, n)
    ensures MutateAll(Adds(ns, n, cols), s) == Run(Put(s, ns, n, AppendColumns(TableAt(s, ns, n), cols)), [])
  {
    if cols == [] {
      PutSame(s, ns, n);
    } else {
      var init, col := cols[..|cols| - 1], cols[|cols| - 1];
      AddsTo(s, ns, n, init);
      MutateAllSnoc(Adds(ns, n, init), AddColumnMutation(ns, n, col), s);
      PutTwice(s, ns, n, AppendColumns(TableAt(s, ns, n), init), AppendColumns(TableAt(s, ns, n), cols));
    }
  }

  lemma PutSame(s: SchemaDef, ns: string, n: string)
    requires HasTable(s, ns, n)
    ensures Put(s, ns, n, TableAt(s, ns, n)) == s
  {
    assert s.schemas[ns].tables[n := TableAt(s, ns, n)] == s.schemas[ns].tables;
    assert s.schemas[ns := s.schemas[ns]] == s.schemas;
  }

  lemma PutTwice(s: SchemaDef, ns: string, n: string, t: TableDef, u: TableDef)
    requires ns in s.schemas
    ensures HasTable(Put(s, ns, n, t), ns, n) && TableAt(Put(s, ns, n, t), ns, n) == t
    ensures Put(Put(s, ns, n, t), ns, n, u) == Put(s, ns, n, u)
    ensures GetOrCreated(Put(s, ns, n, t), ns) == Put(s, ns, n, t)
  {
    assert s.schemas[ns].tables[n := t][n := u] == s.schemas[ns].tables[n := u];
    assert Put(Put(s, ns, n, t), ns, n, u).schemas == Put(s, ns, n, u).schemas;
  }

  /** Additions to a table that is not there yet leave a placeholder. */
  lemma AddsFirst(s: SchemaDef, ns: string, n: string, cols: seq<Column>)
    requires !HasTable(s, ns, n) && cols != []
    ensures MutateAll(Adds(ns, n, cols), s) ==
      Run(Put(GetOrCreated(s, ns), ns, n, AppendColumns(Placeholder(ns, n), cols)), [])
    decreases |cols|
  {
    var init, col := cols[..|cols| - 1], cols[|cols| - 1];
    MutateAllSnoc(Adds(ns, n, init), AddColumnMutation(ns, n, col), s);
    var r := GetOrCreated(s, ns);
    if init == [] {
      assert !HasTable(r, ns, n);
    } else {
      AddsFirst(s, ns, n, init);
      PutTwice(r, ns, n, AppendColumns(Placeholder(ns, n), init), AppendColumns(Placeholder(ns, n), cols));
    }
  }

  // ----- the theorem

  /** The table that results when the CREATE TABLE comes after the first `k` additions: only the
      order of its columns depends on `k`. */
  function Assembled(ns: string, n: string, adds: seq<Column>, columns: seq<Column>, primaryKey: Option<PrimaryKey>,
                     constraints: seq<Constraint>, k: nat): TableDef
    requires k <= |adds|
  {
    TableDef(ns, n, ColumnNames(adds[..k]) + ColumnNames(columns) + ColumnNames(adds[k..]),
             ColumnMap(adds) + ColumnMap(columns), primaryKey, AttachAll(map[], constraints, n), map[], false)
  }

  function Interleaved(ns: string, n: string, adds: seq<Column>, columns: seq<Column>, primaryKey: Option<PrimaryKey>,
                       constraints: seq<Constraint>, k: nat): seq<Mutation>
    requires k <= |adds|
  {
    Adds(ns, n, adds[..k]) + [CreateTableMutation(ns, n, columns, primaryKey, constraints)] + Adds(ns, n, adds[k..])
  }

  /** The table after the first additions and the CREATE TABLE. */
  function CreatedTable(ns: string, n: string, early: seq<Column>, columns: seq<Column>, primaryKey: Option<PrimaryKey>,
                   constraints: seq<Constraint>): TableDef
  {
    WithMetadata(AppendColumns(AppendColumns(EmptyTable(ns, n), early), columns), primaryKey, constraints)
  }

  lemma NotPlaceholder(ns: string, n: string, early: seq<Column>, columns: seq<Column>)
    ensures AppendColumns(AppendColumns(Placeholder(ns, n), early), columns).(isPlaceholder := false) ==
      AppendColumns(AppendColumns(EmptyTable(ns, n), early), columns)
    ensures AppendColumns(Placeholder(ns, n), early).isPlaceholder
  {
    AppendedColumns(Placeholder(ns, n), early);
    AppendedColumns(EmptyTable(ns, n), early);
    AppendedColumns(AppendColumns(Placeholder(ns, n), early), columns);
    AppendedColumns(AppendColumns(EmptyTable(ns, n), early), columns);
  }

  lemma CreateSingle(m: Mutation, s: SchemaDef)
    ensures MutateAll([m], s) == Run(Mutate(m, s).schema, if Mutate(m, s).failed then [m] else [])
  {
    hide Mutate;
    MutateAllSnoc([], m, s);
    assert [] + [m] == [m];
  }

  lemma EarlyAndCreate(s: SchemaDef, ns: string, n: string, early: seq<Column>, columns: seq<Column>,
                       primaryKey: Option<PrimaryKey>, constraints: seq<Constraint>)
    requires !HasTable(s, ns, n) && NoDuplicates(ColumnNames(early + columns))
    ensures MutateAll(Adds(ns, n, early) + [CreateTableMutation(ns, n, columns, primaryKey, constraints)], s) ==
      Run(Put(GetOrCreated(s, ns), ns, n, CreatedTable(ns, n, early, columns, primaryKey, constraints)), [])
  {
    var create := CreateTableMutation(ns, n, columns, primaryKey, constraints);
    var r := GetOrCreated(s, ns);
    ApplyAllConcat(Adds(ns, n, early), [create], s);
    CreateSingle(create, MutateAll(Adds(ns, n, early), s).schema);
    if early == [] {
      assert !HasTable(r, ns, n);
    } else {
      var t := AppendColumns(Placeholder(ns, n), early);
      AddsFirst(s, ns, n, early);
      NotPlaceholder(ns, n, early, columns);
      UnrelatedTo(ns, n, early, columns);
      MergeAppends(t, columns);
      PutTwice(r, ns, n, t, CreatedTable(ns, n, early, columns, primaryKey, constraints));
    }
  }

  lemma UnrelatedTo(ns: string, n: string, early: seq<Column>, columns: seq<Column>)
    requires NoDuplicates(ColumnNames(early + columns))
    ensures Unrelated(AppendColumns(Placeholder(ns, n), early), columns)
  {
    AppendedColumns(Placeholder(ns, n), early);
    var all := ColumnNames(early + columns);
    assert all == ColumnNames(early) + ColumnNames(columns);
    forall i, j | 0 <= i < j < |columns| ensures ColumnNames(columns)[i] != ColumnNames(columns)[j] {
      assert all[|early| + i] != all[|early| + j];
    }
    forall i | 0 <= i < |columns| ensures columns[i].name !in ColumnNames(early) {
      forall j | 0 <= j < |early| ensures ColumnNames(early)[j] != columns[i].name {
        assert all[j] != all[|early| + i];
      }
    }
  }

  lemma {:induction false} ColumnMapConcat(a: seq<Column>, b: seq<Column>)
    ensures ColumnMap(a + b) == ColumnMap(a) + ColumnMap(b)
  {
    if b == [] {
      assert a + b == a;
    } else {
      var init := b[..|b| - 1];
      assert (a + b)[..|a + b| - 1] == a + init;
      ColumnMapConcat(a, init);
    }
  }

  lemma MapsCommute<V>(a: map<string, V>, b: map<string, V>, c: map<string, V>)
    requires b.Keys !! c.Keys
    ensures a + b + c == a + c + b
  {
  }

  lemma DistinctNames(adds: seq<Column>, columns: seq<Column>, k: nat)
    requires k <= |adds| && NoDuplicates(ColumnNames(adds + columns))
    ensures forall c :: c in ColumnNames(columns) ==> c !in ColumnNames(adds[k..])
  {
    var all := ColumnNames(adds + columns);
    forall c | c in ColumnNames(columns) ensures c !in ColumnNames(adds[k..]) {
      var i :| 0 <= i < |columns| && columns[i].name == c;
      forall j | 0 <= j < |adds| - k ensures ColumnNames(adds[k..])[j] != c {
        assert all[k + j] != all[|adds| + i];
      }
    }
  }

  lemma EarlyNamesApart(adds: seq<Column>, columns: seq<Column>, k: nat)
    requires k <= |adds| && NoDuplicates(ColumnNames(adds + columns))
    ensures NoDuplicates(ColumnNames(adds[..k] + columns))
  {
    var all, some := ColumnNames(adds + columns), ColumnNames(adds[..k] + columns);
    forall i, j | 0 <= i < j < |some| ensures some[i] != some[j] {
      assert some[i] == all[if i < k then i else i - k + |adds|] && some[j] == all[if j < k then j else j - k + |adds|];
    }
  }

  lemma SameColumns(adds: seq<Column>, columns: seq<Column>, k: nat)
    requires k <= |adds| && NoDuplicates(ColumnNames(adds + columns))
    ensures ColumnMap(adds[..k]) + ColumnMap(columns) + ColumnMap(adds[k..]) == ColumnMap(adds) + ColumnMap(columns)
  {
    hide ColumnMap, ColumnNames, NoDuplicates;
    assert adds[..k] + adds[k..] == adds;
    ColumnMapConcat(adds[..k], adds[k..]);
    DistinctNames(adds, columns, k);
    MapsCommute(ColumnMap(adds[..k]), ColumnMap(columns), ColumnMap(adds[k..]));
  }

  lemma ExtendedThrice(ns: string, n: string, a: seq<Column>, b: seq<Column>, c: seq<Column>,
                       primaryKey: Option<PrimaryKey>, constraints: seq<Constraint>)
    ensures AppendColumns(CreatedTable(ns, n, a, b, primaryKey, constraints), c) ==
      TableDef(ns, n, ColumnNames(a) + ColumnNames(b) + ColumnNames(c), ColumnMap(a) + ColumnMap(b) + ColumnMap(c),
               primaryKey, AttachAll(map[], constraints, n), map[], false)
  {
    hide ColumnNames, ColumnMap, AppendColumns, AttachAll;
    AppendedColumns(EmptyTable(ns, n), a);
    AppendedColumns(AppendColumns(EmptyTable(ns, n), a), b);
    AppendedColumns(CreatedTable(ns, n, a, b, primaryKey, constraints), c);
    var none: map<string, Column> := map[];
    assert none + ColumnMap(a) == ColumnMap(a);
    assert [] + ColumnNames(a) == ColumnNames(a);
  }

  lemma AssembledIs(ns: string, n: string, adds: seq<Column>, columns: seq<Column>, primaryKey: Option<PrimaryKey>,
                    constraints: seq<Constraint>, k: nat)
    requires k <= |adds| && NoDuplicates(ColumnNames(adds + columns))
    ensures AppendColumns(CreatedTable(ns, n, adds[..k], columns, primaryKey, constraints), adds[k..]) ==
      Assembled(ns, n, adds, columns, primaryKey, constraints, k)
  {
    hide ColumnNames, ColumnMap, AppendColumns, AttachAll, CreatedTable, NoDuplicates;
    ExtendedThrice(ns, n, adds[..k], columns, adds[k..], primaryKey, constraints);
    SameColumns(adds, columns, k);
  }

  /** Wherever the CREATE TABLE stands, nothing fails, and only the order of the columns depends on
      its place: the columns by name, the primary key and the constraints do not, and the table is
      no placeholder in the end. */
  lemma CreateAnywhere(s: SchemaDef, ns: string, n: string, adds: seq<Column>, columns: seq<Column>,
                       primaryKey: Option<PrimaryKey>, constraints: seq<Constraint>, k: nat)
    requires k <= |adds| && !HasTable(s, ns, n) && NoDuplicates(ColumnNames(adds + columns))
    ensures MutateAll(Interleaved(ns, n, adds, columns, primaryKey, constraints, k), s) ==
      Run(Put(GetOrCreated(s, ns), ns, n, Assembled(ns, n, adds, columns, primaryKey, constraints, k)), [])
  {
    var early, late := adds[..k], adds[k..];
    var create := CreateTableMutation(ns, n, columns, primaryKey, constraints);
    var t := CreatedTable(ns, n, early, columns, primaryKey, constraints);
    EarlyNamesApart(adds, columns, k);
    AssembledIs(ns, n, adds, columns, primaryKey, constraints, k);
    hide NoDuplicates, CreatedTable, Assembled, Mutate, AppendColumns;
    EarlyAndCreate(s, ns, n, early, columns, primaryKey, constraints);
    var r := GetOrCreated(s, ns);
    PutTwice(r, ns, n, t, AppendColumns(t, late));
    AddsTo(Put(r, ns, n, t), ns, n, late);
    ApplyAllConcat(Adds(ns, n, early) + [create], Adds(ns, n, late), s);
  }
}
