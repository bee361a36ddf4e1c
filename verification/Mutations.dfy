/** The mutations on the mutable schema: each does to the contents what MutationSpec says. */
module Mutations {
  import opened Catalog
  import opened TableEdits
  import opened Store
  import opened SchemaStore
  import opened MutationSpec

  // ----- columns of a table

  lemma ColumnObjects(t: Table)
    requires t.Valid()
    ensures t.Snapshot().columns.Keys == t.columnByName.Keys
    ensures t.Snapshot().columns == t.ColumnView().byName && t.Snapshot().order == t.ColumnView().order
    ensures forall n :: n in t.columnByName <==> n in t.ColumnView().order
    ensures forall n :: n in t.columnByName ==>
      t.columnByName[n] in t.columns && t.columnByName[n] in t.repr &&
      t.columnByName[n].Snapshot() == t.Snapshot().columns[n]
  {
    LookupInSlice(NamesOf(t.columns), t.columns, t.columnByName);
    forall n | n in t.columnByName ensures n in NamesOf(t.columns) {
    }
    forall n | n in NamesOf(t.columns) ensures n in t.columnByName {
    }
  }

  method AppendOne(t: Table, col: Column)
    requires t.Valid() && col.name !in t.Snapshot().columns
    modifies t`columns, t`columnByName, t`columnIndex, t`repr
    ensures t.Valid() && fresh(t.repr - old(t.repr))
    ensures t.Snapshot() == AppendColumn(old(t.Snapshot()), col)
    ensures old(t.Exact()) ==> t.Exact()
  {
    hide Agree, NamesOf, PlacesOf, SnapshotsOf, OwnColumns, OwnLeaves, Contents, WithColumn;
    ColumnObjects(t);
    var c := NewColumn(col);
    t.AddColumn(c);
    t.RestKept();
  }

  ghost predicate Fresh(t: TableDef, cols: seq<Column>) {
    && NoDuplicates(ColumnNames(cols))
    && forall i :: 0 <= i < |cols| ==> cols[i].name !in t.columns
  }

  lemma {:induction false} AppendedNames(t: TableDef, cols: seq<Column>)
    ensures forall n :: n in AppendColumns(t, cols).columns <==> n in t.columns || n in ColumnNames(cols)
  {
    if cols == [] {
      assert ColumnNames(cols) == [];
    } else {
      var init, last := cols[..|cols| - 1], cols[|cols| - 1];
      AppendedNames(t, init);
      assert ColumnNames(cols) == ColumnNames(init) + [last.name];
    }
  }

  lemma NextIsFresh(t: TableDef, cols: seq<Column>, i: nat)
    requires Fresh(t, cols) && i < |cols|
    ensures cols[i].name !in AppendColumns(t, cols[..i]).columns
    ensures AppendColumns(t, cols[..i + 1]) == AppendColumn(AppendColumns(t, cols[..i]), cols[i])
  {
    AppendedNames(t, cols[..i]);
    forall j | 0 <= j < i ensures ColumnNames(cols[..i])[j] != cols[i].name {
      assert ColumnNames(cols)[j] != ColumnNames(cols)[i];
    }
    assert cols[..i + 1][..i] == cols[..i];
  }

  method AppendMany(t: Table, cols: seq<Column>)
    requires t.Valid() && Fresh(t.Snapshot(), cols)
    modifies t`columns, t`columnByName, t`columnIndex, t`repr
    ensures t.Valid() && fresh(t.repr - old(t.repr))
    ensures t.Snapshot() == AppendColumns(old(t.Snapshot()), cols)
    ensures old(t.Exact()) ==> t.Exact()
  {
    hide Table.Valid, Table.Snapshot, Table.Exact, Fresh, AppendColumn, AppendColumns;
    AppendNone(t.Snapshot(), cols);
    for i := 0 to |cols|
      invariant t.Valid() && fresh(t.repr - old(t.repr))
      invariant t.Snapshot() == AppendColumns(old(t.Snapshot()), cols[..i])
      invariant old(t.Exact()) ==> t.Exact()
    {
      NextIsFresh(old(t.Snapshot()), cols, i);
      AppendOne(t, cols[i]);
    }
    assert cols[..|cols|] == cols;
  }

  lemma AppendNone(t: TableDef, cols: seq<Column>)
    ensures AppendColumns(t, cols[..0]) == t && MergeColumns(t, cols[..0]) == Merged(t, false)
  {
  }

  lemma MergeNext(t: TableDef, cols: seq<Column>, i: nat)
    requires i < |cols|
    ensures MergeColumns(t, cols[..i + 1]) ==
      var before := MergeColumns(t, cols[..i]);
      if before.failed then before
      else if cols[i].name in before.table.columns then
        Merged(before.table, before.table.columns[cols[i].name].dataType != cols[i].dataType)
      else Merged(AppendColumn(before.table, cols[i]), false)
  {
    assert cols[..i + 1][..i] == cols[..i];
  }

  /** A failure stays. */
  lemma {:induction false} MergeStops(t: TableDef, cols: seq<Column>, i: nat)
    requires i <= |cols| && MergeColumns(t, cols[..i]).failed
    ensures MergeColumns(t, cols) == MergeColumns(t, cols[..i])
    decreases |cols| - i
  {
    if i == |cols| {
      assert cols[..i] == cols;
    } else {
      MergeNext(t, cols, i);
      MergeStops(t, cols, i + 1);
    }
  }

  method MergeMany(t: Table, cols: seq<Column>) returns (failed: bool)
    requires t.Valid()
    modifies t`columns, t`columnByName, t`columnIndex, t`repr
    ensures t.Valid() && fresh(t.repr - old(t.repr))
    ensures Merged(t.Snapshot(), failed) == MergeColumns(old(t.Snapshot()), cols)
    ensures old(t.Exact()) ==> t.Exact()
  {
    hide Table.Valid, Table.Snapshot, Table.Exact, AppendColumn, MergeColumns, NamesOf;
    AppendNone(t.Snapshot(), cols);
    for i := 0 to |cols|
      invariant t.Valid() && fresh(t.repr - old(t.repr))
      invariant Merged(t.Snapshot(), false) == MergeColumns(old(t.Snapshot()), cols[..i])
      invariant old(t.Exact()) ==> t.Exact()
    {
      MergeNext(old(t.Snapshot()), cols, i);
      var col := cols[i];
      ColumnObjects(t);
      if col.name in t.columnByName {
        if t.columnByName[col.name].dataType != col.dataType {
          MergeStops(old(t.Snapshot()), cols, i + 1);
          return true;
        }
        continue;
      }
      AppendOne(t, col);
    }
    assert cols[..|cols|] == cols;
    failed := false;
  }

  lemma AttachNext(m: map<string, Constraint>, cs: seq<Constraint>, i: nat, table: string)
    requires i < |cs|
    ensures AttachAll(m, cs[..i + 1], table) == AttachAll(m, cs[..i], table)[cs[i].name := Attached(cs[i], table)]
  {
    assert cs[..i + 1][..i] == cs[..i];
  }

  /** Puts a constraint under its name, whatever was there before. */
  method EnterConstraint(t: Table, c: Constraint)
    requires t.Valid()
    modifies t`constraints, t`repr
    ensures t.Valid() && fresh(t.repr - old(t.repr)) && (old(t.Exact()) ==> t.Exact())
    ensures t.Snapshot() == old(t.Snapshot()).(constraints := old(t.Snapshot()).constraints[c.name := c])
  {
    hide Agree, NamesOf, PlacesOf, SnapshotsOf, OwnLeaves, OwnColumns, Contents;
    var p := new Leaf(c);
    ghost var m, before := t.constraints, t.repr;
    LeavesStay(t.indexes, before, before + {p});
    t.constraints := t.constraints[c.name := p];
    t.repr := t.repr + {p};
    LeafEntered(m, before, c.name, p);
    t.OwnColumnsGrow();
    SnapshotsKept(t.columnByName);
    LeavesKept(m);
    LeavesKept(t.indexes);
  }

  method SetPrimaryKey(t: Table, key: PrimaryKey)
    requires t.Valid()
    modifies t`primaryKey, t`repr
    ensures t.Valid() && fresh(t.repr - old(t.repr)) && (old(t.Exact()) ==> t.Exact())
    ensures t.Snapshot() == old(t.Snapshot()).(primaryKey := Some(key))
  {
    hide Agree, NamesOf, PlacesOf, SnapshotsOf, OwnLeaves, OwnColumns, Contents;
    var p := new Leaf(key);
    LeavesStay(t.constraints, t.repr, t.repr + {p});
    LeavesStay(t.indexes, t.repr, t.repr + {p});
    t.primaryKey := p;
    t.repr := t.repr + {p};
    t.OwnColumnsGrow();
    SnapshotsKept(t.columnByName);
    LeavesKept(t.constraints);
    LeavesKept(t.indexes);
  }

  method ApplyTableMetadata(t: Table, primaryKey: Option<PrimaryKey>, constraints: seq<Constraint>)
    requires t.Valid()
    modifies t`primaryKey, t`constraints, t`repr
    ensures t.Valid() && fresh(t.repr - old(t.repr))
    ensures t.Snapshot() == WithMetadata(old(t.Snapshot()), primaryKey, constraints)
    ensures old(t.Exact()) ==> t.Exact()
  {
    hide Table.Valid, Table.Snapshot, Table.Exact, Attached;
    if primaryKey.Some? {
      SetPrimaryKey(t, primaryKey.value);
    }
    ghost var before := t.Snapshot();
    for i := 0 to |constraints|
      invariant t.Valid() && fresh(t.repr - old(t.repr)) && (old(t.Exact()) ==> t.Exact())
      invariant t.Snapshot() == before.(constraints := AttachAll(before.constraints, constraints[..i], before.name))
    {
      AttachNext(before.constraints, constraints, i, before.name);
      NameInSnapshot(t);
      var c := constraints[i];
      if c.table == "" {
        c := c.(table := t.name);
      }
      assert c == Attached(constraints[i], t.name) by { AttachedIs(constraints[i], t.name); }
      assert c.name == constraints[i].name;
      EnterConstraint(t, c);
    }
    assert constraints[..|constraints|] == constraints;
  }

  lemma NameInSnapshot(t: Table)
    requires t.Valid()
    ensures t in t.repr
    ensures t.Snapshot().name == t.name && t.Snapshot().isPlaceholder == t.isPlaceholder
    ensures t.Snapshot().constraints.Keys == t.constraints.Keys && t.Snapshot().indexes.Keys == t.indexes.Keys
  {
  }

  lemma AttachedIs(c: Constraint, table: string)
    ensures Attached(c, table) == if c.table == "" then c.(table := table) else c
    ensures Attached(c, table).name == c.name
  {
  }

  // ----- single changes

  lemma ExactIndex(t: Table, c: string)
    requires t.Valid() && t.Exact() && c in t.columnByName
    ensures t.Reachable(c) && c in t.columnIndex && t.IndexedAt(c)
  {
    ExactIsReachable(t, c);
    LookupObject(t, c);
  }

  lemma LookupObject(t: Table, c: string)
    requires t.Valid() && c in t.columnByName
    ensures t.columnByName[c].name == c
  {
    var i := PlaceOf(NamesOf(t.columns), t.columns, t.columnByName, c);
  }

  method DropOne(t: Table, c: string) returns (failed: bool)
    requires t.Valid() && t.Exact()
    modifies t`columns, t`columnByName, t`columnIndex
    ensures t.Valid() && t.Exact()
    ensures Merged(t.Snapshot(), failed) == MutateTable(DropColumnMutation("", "", c), old(t.Snapshot()))
    ensures t.repr == old(t.repr)
  {
    hide Agree, NamesOf, PlacesOf, SnapshotsOf, WithoutColumn, OwnColumns, OwnLeaves, Contents;
    ColumnObjects(t);
    if c !in t.columnByName {
      return true;
    }
    ExactIndex(t, c);
    t.RemoveColumn(c);
    t.RestKept();
    failed := false;
  }

  method WriteType(t: Table, c: string, toType: string)
    requires t.Valid() && c in t.columnByName && t.columnByName[c] in t.repr
    modifies t.columnByName[c]
    ensures t.columnByName[c].Snapshot() == old(t.columnByName[c].Snapshot()).(dataType := toType)
    ensures t.OnlyColumn(c) && t.NewCell(c)
  {
    hide Agree, NamesOf, SnapshotsOf, OwnColumns, OwnLeaves;
    t.columnByName[c].dataType := toType;
  }

  method WriteNullable(t: Table, c: string, nullable: bool)
    requires t.Valid() && c in t.columnByName && t.columnByName[c] in t.repr
    modifies t.columnByName[c]
    ensures t.columnByName[c].Snapshot() == old(t.columnByName[c].Snapshot()).(isNullable := nullable)
    ensures t.OnlyColumn(c) && t.NewCell(c)
  {
    hide Agree, NamesOf, SnapshotsOf, OwnColumns, OwnLeaves;
    t.columnByName[c].isNullable := nullable;
  }

  method AlterType(t: Table, c: string, fromType: string, toType: string) returns (failed: bool)
    requires t.Valid()
    modifies t.repr - {t}
    ensures t.Valid() && t.repr == old(t.repr) && (old(t.Exact()) ==> t.Exact())
    ensures Merged(t.Snapshot(), failed) ==
      MutateTable(AlterColumnTypeMutation("", "", c, fromType, toType), old(t.Snapshot()))
  {
    hide Table.Valid, Table.Exact, Table.Snapshot, Table.ColumnView, Table.OnlyColumn, Table.NewCell;
    ColumnObjects(t);
    NameInSnapshot(t);
    if c !in t.columnByName {
      return true;
    }
    if fromType != "" && t.columnByName[c].dataType != fromType {
      return true;
    }
    WriteType(t, c, toType);
    t.ColumnChanged(c);
    failed := false;
  }

  method SetNullable(t: Table, c: string, nullable: bool) returns (failed: bool)
    requires t.Valid()
    modifies t.repr - {t}
    ensures t.Valid() && t.repr == old(t.repr) && (old(t.Exact()) ==> t.Exact())
    ensures Merged(t.Snapshot(), failed) ==
      MutateTable(if nullable then DropNotNullMutation("", "", c) else SetNotNullMutation("", "", c), old(t.Snapshot()))
  {
    hide Table.Valid, Table.Exact, Table.Snapshot, Table.ColumnView, Table.OnlyColumn, Table.NewCell;
    ColumnObjects(t);
    NameInSnapshot(t);
    if c !in t.columnByName {
      return true;
    }
    WriteNullable(t, c, nullable);
    t.ColumnChanged(c);
    failed := false;
  }

  /** Gives a column a new default expression, or none. */
  method PointDefault(t: Table, c: string, e: Option<string>)
    requires t.Valid() && c in t.columnByName && t.columnByName[c] in t.repr
    modifies t`repr, t.columnByName[c]
    ensures t.columnByName[c].Snapshot() == old(t.columnByName[c].Snapshot()).(defaultExpr := e)
    ensures t.OnlyColumn(c) && t.NewCell(c) && t in t.repr && old(t.repr) <= t.repr && fresh(t.repr - old(t.repr))
  {
    hide Agree, NamesOf, SnapshotsOf, OwnColumns, OwnLeaves;
    var p := NewPointer(e);
    t.columnByName[c].defaultExpr := p;
    if p != null {
      t.repr := t.repr + {p};
    }
  }

  method ChangeDefault(t: Table, c: string, e: Option<string>) returns (failed: bool)
    requires t.Valid()
    modifies t`repr, t.repr - {t}
    ensures t.Valid() && fresh(t.repr - old(t.repr)) && (old(t.Exact()) ==> t.Exact())
    ensures Merged(t.Snapshot(), failed) ==
      MutateTable(if e.Some? then SetDefaultMutation("", "", c, e.value) else DropDefaultMutation("", "", c),
        old(t.Snapshot()))
  {
    hide Table.Valid, Table.Exact, Table.Snapshot, Table.ColumnView, Table.OnlyColumn, Table.NewCell;
    ColumnObjects(t);
    NameInSnapshot(t);
    if c !in t.columnByName {
      return true;
    }
    PointDefault(t, c, e);
    t.ColumnChanged(c);
    failed := false;
  }

  method RenameOne(t: Table, a: string, b: string) returns (failed: bool)
    requires t.Valid()
    modifies t`columnByName, t.repr - {t}
    ensures t.Valid() && t.repr == old(t.repr)
    ensures Merged(t.Snapshot(), failed) == MutateTable(RenameColumnMutation("", "", a, b), old(t.Snapshot()))
  {
    hide Agree, NamesOf, PlacesOf, SnapshotsOf, Renamed, OwnColumns, OwnLeaves, Contents;
    ColumnObjects(t);
    if t.isPlaceholder {
      return false;
    }
    if a !in t.columnByName {
      return true;
    }
    if b in t.columnByName {
      return true;
    }
    t.RenameColumn(a, b);
    t.RestKept();
    failed := false;
  }

  method PutIndex(t: Table, i: Index)
    requires t.Valid()
    modifies t`indexes, t`repr
    ensures t.Valid() && fresh(t.repr - old(t.repr)) && (old(t.Exact()) ==> t.Exact())
    ensures t.Snapshot() == old(t.Snapshot()).(indexes := old(t.Snapshot()).indexes[i.name := i])
  {
    hide Agree, NamesOf, PlacesOf, SnapshotsOf, OwnLeaves, OwnColumns, Contents;
    var p := new Leaf(i);
    ghost var m, before := t.indexes, t.repr;
    LeavesStay(t.constraints, before, before + {p});
    t.indexes := t.indexes[i.name := p];
    t.repr := t.repr + {p};
    LeafEntered(m, before, i.name, p);
    t.OwnColumnsGrow();
    SnapshotsKept(t.columnByName);
    LeavesKept(m);
    LeavesKept(t.constraints);
  }

  method EnterOne(t: Table, i: Index) returns (failed: bool)
    requires t.Valid()
    modifies t`indexes, t`primaryKey, t`repr
    ensures t.Valid() && fresh(t.repr - old(t.repr)) && (old(t.Exact()) ==> t.Exact())
    ensures Merged(t.Snapshot(), failed) == MutateTable(CreateIndexMutation("", i), old(t.Snapshot()))
  {
    hide Table.Valid, Table.Snapshot, Table.Exact;
    NameInSnapshot(t);
    if i.ifNotExists {
      if i.name in t.indexes {
        return false;
      }
    }
    if i.name in t.indexes {
      return true;
    }
    if i.primary {
      var columns: seq<string> := [];
      for k := 0 to |i.elements|
        invariant columns == ElementNames(i.elements)[..k]
      {
        columns := columns + [i.elements[k].name];
      }
      assert ElementNames(i.elements)[..|i.elements|] == ElementNames(i.elements);
      SetPrimaryKey(t, PrimaryKey(i.name, columns));
    }
    PutIndex(t, i);
    failed := false;
  }

  method AddConstraintTo(t: Table, n: string, constraint: Constraint)
    requires t.Valid()
    modifies t`constraints, t`repr
    ensures t.Valid() && fresh(t.repr - old(t.repr)) && (old(t.Exact()) ==> t.Exact())
    ensures Merged(t.Snapshot(), false) == MutateTable(AddConstraintMutation("", n, constraint), old(t.Snapshot()))
  {
    hide Table.Valid, Table.Snapshot, Table.Exact;
    var c := constraint;
    if c.table == "" {
      c := c.(table := n);
    }
    EnterConstraint(t, c);
  }

  method DropConstraintFrom(t: Table, n: string)
    requires t.Valid()
    modifies t`constraints
    ensures t.Valid() && t.repr == old(t.repr) && (old(t.Exact()) ==> t.Exact())
    ensures Merged(t.Snapshot(), false) == MutateTable(DropConstraintMutation("", "", n), old(t.Snapshot()))
  {
    hide Agree, NamesOf, PlacesOf, SnapshotsOf, OwnColumns, OwnLeaves, Contents;
    LeafRemoved(t.constraints, t.repr, n);
    t.constraints := t.constraints - {n};
    t.OwnColumnsGrow();
    SnapshotsKept(t.columnByName);
    LeavesKept(t.constraints);
    LeavesKept(t.indexes);
  }

  /** CREATE TABLE for a table that is already there. */
  method CompleteOne(t: Table, columns: seq<Column>, primaryKey: Option<PrimaryKey>, constraints: seq<Constraint>)
    returns (failed: bool)
    requires t.Valid()
    modifies t
    ensures t.Valid() && fresh(t.repr - old(t.repr)) && (old(t.Exact()) ==> t.Exact())
    ensures Merged(t.Snapshot(), failed) == Complete(old(t.Snapshot()), columns, primaryKey, constraints)
  {
    hide Table.Valid, Table.Exact, NamesOf, SnapshotsOf, MergeColumns, WithMetadata, Table.ColumnView;
    if !t.isPlaceholder {
      return true;
    }
    failed := MergeMany(t, columns);
    if failed {
      return;
    }
    FinishPlaceholder(t);
    ApplyTableMetadata(t, primaryKey, constraints);
  }

  method FinishPlaceholder(t: Table)
    requires t.Valid()
    modifies t`isPlaceholder
    ensures t.Valid() && t.repr == old(t.repr) && (old(t.Exact()) ==> t.Exact())
    ensures t.Snapshot() == old(t.Snapshot()).(isPlaceholder := false)
  {
    hide Agree, NamesOf, PlacesOf, SnapshotsOf, OwnColumns, OwnLeaves, Contents;
    t.isPlaceholder := false;
    t.OwnColumnsGrow();
    SnapshotsKept(t.columnByName);
    LeavesKept(t.constraints);
    LeavesKept(t.indexes);
  }

  // ----- any mutation of a table

  /** Applies a mutation to its table.  DROP COLUMN relies on the index map, and a rename leaves it
      stale. */
  method EditOne(t: Table, m: Mutation) returns (failed: bool)
    requires t.Valid() && OfTable(m) && AddableTo(m, Some(t.Snapshot()))
    requires m.DropColumnMutation? ==> t.Exact()
    modifies t, t.repr
    ensures t.Valid() && fresh(t.repr - old(t.repr))
    ensures Merged(t.Snapshot(), failed) == MutateTable(m, old(t.Snapshot()))
    ensures old(t.Exact()) && !m.RenameColumnMutation? ==> t.Exact()
  {
    hide Table.Valid, Table.Exact, Table.Snapshot, NamesOf;
    failed := false;
    match m {
      case CreateTableMutation(_, _, columns, primaryKey, constraints) =>
        failed := CompleteOne(t, columns, primaryKey, constraints);
      case AddColumnMutation(_, _, col) => AppendOne(t, col);
      case CreateIndexMutation(_, i) => failed := EnterOne(t, i);
      case DropColumnMutation(_, _, c) => failed := DropOne(t, c);
      case AlterColumnTypeMutation(_, _, c, fromType, toType) => failed := AlterType(t, c, fromType, toType);
      case SetNotNullMutation(_, _, c) => failed := SetNullable(t, c, false);
      case DropNotNullMutation(_, _, c) => failed := SetNullable(t, c, true);
      case SetDefaultMutation(_, _, c, e) => failed := ChangeDefault(t, c, Some(e));
      case DropDefaultMutation(_, _, c) => failed := ChangeDefault(t, c, None);
      case RenameColumnMutation(_, _, a, b) => failed := RenameOne(t, a, b);
      case AddConstraintMutation(_, n, c) => AddConstraintTo(t, n, c);
      case DropConstraintMutation(_, _, n) => DropConstraintFrom(t, n);
    }
  }

  // ----- inside a namespace and a schema

  method EditIn(ns: Namespace, n: string, m: Mutation) returns (failed: bool)
    requires ns.Valid() && n in ns.tables && OfTable(m) && AddableTo(m, Some(ns.tables[n].Snapshot()))
    requires m.DropColumnMutation? ==> ns.ExactAt(n)
    modifies ns.repr
    ensures ns.Valid() && fresh(ns.repr - old(ns.repr)) && n in old(ns.Snapshot()).tables
    ensures var r := MutateTable(m, old(ns.Snapshot()).tables[n]);
      && failed == r.failed
      && ns.Snapshot() == old(ns.Snapshot()).(tables := old(ns.Snapshot()).tables[n := r.table])
    ensures forall k :: old(ns.ExactAt(k)) && !(m.RenameColumnMutation? && k == n) ==> ns.ExactAt(k)
  {
    hide Namespace.Valid, Namespace.ExactAt, Namespace.Tables, Table.Valid, Table.Exact, Table.Snapshot, MutateTable,
      AddableTo;
    TableBelow(ns, n);
    TableNames(ns);
    var t := ns.tables[n];
    failed := EditOne(t, m);
    ns.repr := ns.repr + t.repr;
    ns.TableChanged(n);
  }

  method EditAt(s: Schema, k: string, n: string, m: Mutation) returns (failed: bool)
    requires s.Valid() && k in s.schemas && n in s.schemas[k].tables && s.schemas[k].Valid()
    requires OfTable(m) && s.schemas[k].tables[n].Valid() && AddableTo(m, Some(s.schemas[k].tables[n].Snapshot()))
    requires m.DropColumnMutation? ==> s.ExactAt(k, n)
    modifies s.repr
    ensures s.Valid() && fresh(s.repr - old(s.repr)) && HasTable(old(s.Snapshot()), k, n)
    ensures var r := MutateTable(m, TableAt(old(s.Snapshot()), k, n));
      && failed == r.failed
      && s.Snapshot() == Put(old(s.Snapshot()), k, n, r.table)
    ensures forall i, j :: old(s.ExactAt(i, j)) && !(m.RenameColumnMutation? && i == k && j == n) ==> s.ExactAt(i, j)
  {
    hide Schema.Valid, Schema.ExactAt, Schema.Namespaces, Namespace.Valid, Namespace.ExactAt, Namespace.Snapshot,
      Table.Valid, Table.Exact, Table.Snapshot, MutateTable, AddableTo;
    NamespaceBelow(s, k);
    NamespaceNames(s);
    var ns := s.schemas[k];
    failed := EditIn(ns, n, m);
    s.repr := s.repr + ns.repr;
    s.NamespaceChanged(k);
  }

  method PutAt(s: Schema, k: string, n: string, t: Table)
    requires s.Valid() && k in s.schemas && s.schemas[k].Valid() && n !in s.schemas[k].tables
    requires t.Valid() && t.repr !! s.repr
    modifies s.repr
    ensures s.Valid() && s.repr == old(s.repr) + t.repr && k in old(s.Snapshot()).schemas
    ensures s.Snapshot() == Put(old(s.Snapshot()), k, n, t.Snapshot())
    ensures old(t.Exact()) ==> forall i, j :: old(s.ExactAt(i, j)) ==> s.ExactAt(i, j)
  {
    hide Schema.Valid, Schema.ExactAt, Schema.Namespaces, Namespace.Valid, Namespace.ExactAt, Namespace.Tables,
      Table.Valid, Table.Exact, Table.Snapshot;
    NamespaceBelow(s, k);
    NamespaceNames(s);
    var ns := s.schemas[k];
    ns.PutTable(n, t);
    s.repr := s.repr + ns.repr;
    s.NamespaceChanged(k);
  }

  /** The table that the mutation makes where there is none. */
  method MakeTable(m: Mutation) returns (t: Table?)
    requires OfTable(m) && AddableTo(m, None)
    ensures t == null <==> NewTable(m).None?
    ensures t != null ==> fresh(t) && fresh(t.repr) && t.Valid() && t.Exact() && t.Snapshot() == NewTable(m).value
  {
    hide Table.Valid, Table.Exact, Table.Snapshot, AppendColumns, AppendColumn, WithMetadata, NoDuplicates, ColumnNames;
    if m.CreateTableMutation? {
      var u := new Table(m.schema, m.name);
      FreshForEmpty(m.schema, m.name, m.columns);
      AppendMany(u, m.columns);
      ApplyTableMetadata(u, m.primaryKey, m.constraints);
      t := u;
    } else if m.AddColumnMutation? {
      var u := new Table(m.schema, m.table);
      MakePlaceholder(u, m.schema, m.table);
      AppendOne(u, m.col);
      t := u;
    } else if m.RenameColumnMutation? {
      var u := new Table(m.schema, m.table);
      MakePlaceholder(u, m.schema, m.table);
      t := u;
    } else {
      t := null;
    }
  }

  lemma FreshForEmpty(ns: string, n: string, cols: seq<Column>)
    requires NoDuplicates(ColumnNames(cols))
    ensures Fresh(EmptyTable(ns, n), cols)
  {
  }

  method MakePlaceholder(t: Table, ghost schema: string, ghost name: string)
    requires t.Valid() && t.Exact() && t.Snapshot() == EmptyTable(schema, name)
    modifies t`isPlaceholder
    ensures t.Valid() && t.Exact() && t.Snapshot() == Placeholder(schema, name) && t.repr == old(t.repr)
  {
    hide Agree, NamesOf, PlacesOf, SnapshotsOf, OwnColumns, OwnLeaves, Contents;
    t.isPlaceholder := true;
    t.OwnColumnsGrow();
    SnapshotsKept(t.columnByName);
    LeavesKept(t.constraints);
    LeavesKept(t.indexes);
  }

  method CreateType(s: Schema, k: string, n: string, labels: seq<string>) returns (failed: bool)
    requires s.Valid() && k in s.schemas
    modifies s.repr
    ensures s.Valid() && fresh(s.repr - old(s.repr)) && k in old(s.Snapshot()).schemas
    ensures Applied(s.Snapshot(), failed) == CreateEnumType(old(s.Snapshot()), k, n, labels)
    ensures forall i, j :: old(s.ExactAt(i, j)) ==> s.ExactAt(i, j)
  {
    hide Schema.Valid, Schema.ExactAt, Schema.Namespaces, Namespace.Valid, Namespace.ExactAt, Namespace.Snapshot;
    NamespaceBelow(s, k);
    NamespaceNames(s);
    var ns := s.schemas[k];
    TypeNames(ns);
    if n in ns.types {
      return true;
    }
    EnterType(ns, n, EnumType(n, labels));
    s.repr := s.repr + ns.repr;
    s.NamespaceChanged(k);
    failed := false;
  }

  lemma TypeNames(ns: Namespace)
    requires ns.Valid()
    ensures ns.Snapshot().types.Keys == ns.types.Keys
  {
  }

  method EnterType(ns: Namespace, n: string, e: EnumType)
    requires ns.Valid()
    modifies ns`types, ns`repr
    ensures ns.Valid() && fresh(ns.repr - old(ns.repr)) && forall k :: old(ns.ExactAt(k)) ==> ns.ExactAt(k)
    ensures ns.Snapshot() == old(ns.Snapshot()).(types := old(ns.Snapshot()).types[n := e])
  {
    hide Table.Valid, Table.Exact, Table.Snapshot, OwnLeaves, Contents, Namespace.Leaves;
    var p := new Leaf(e);
    ghost var m, before := ns.types, ns.repr;
    ns.types := ns.types[n := p];
    ns.repr := ns.repr + {p};
    EnteredType(ns, m, before, n, p);
    ns.TablesStay();
    LeavesKept(m);
    LeavesKept(ns.views);
    LeavesKept(ns.sequences);
    LeavesKept(ns.extensions);
    ns.OneMoreLeaf(p);
  }

  lemma EnteredType(ns: Namespace, m: map<string, Leaf<EnumType>>, before: set<object>, n: string, p: Leaf<EnumType>)
    requires OwnLeaves(m, before) && OwnLeaves(ns.views, before) && OwnLeaves(ns.sequences, before)
    requires OwnLeaves(ns.extensions, before)
    requires p !in before && ns.types == m[n := p] && ns.repr == before + {p}
    ensures ns.OwnObjects() && Contents(ns.types) == Contents(m)[n := p.Snapshot()]
  {
    LeafEntered(m, before, n, p);
  }

  // ----- whole mutations

  /** The mutation renames a column of the table. */
  predicate RenamesIn(m: Mutation, k: string, n: string) {
    m.RenameColumnMutation? && m.schema == k && m.table == n
  }

  method ApplyMutation(s: Schema, m: Mutation) returns (failed: bool)
    requires s.Valid() && Addable(m, s.Snapshot())
    requires m.DropColumnMutation? ==> s.ExactAt(m.schema, m.table)
    modifies s.repr
    ensures s.Valid() && fresh(s.repr - old(s.repr))
    ensures Applied(s.Snapshot(), failed) == Mutate(m, old(s.Snapshot()))
    ensures forall k, n :: old(s.ExactAt(k, n)) && !RenamesIn(m, k, n) ==> s.ExactAt(k, n)
  {
    hide Schema.Valid, Schema.ExactAt, Schema.Snapshot, Namespace.Valid, Namespace.ExactAt, Namespace.Snapshot,
      Table.Valid,
      Table.Exact, Table.Snapshot, MutateTable, NewTable, CreateEnumType, Put;
    NamespaceNames(s);
    if MakesNamespace(m) {
      var ns := s.GetOrCreateNamespace(m.schema);
      AddableStill(m, old(s.Snapshot()));
    }
    NamesInSnapshot(s);
    if m.schema !in s.schemas {
      return true;
    }
    if m.CreateSchemaMutation? {
      return false;
    }
    if m.CreateEnumTypeMutation? {
      failed := CreateType(s, m.schema, m.name, m.labels);
      return;
    }
    failed := ApplyInNamespace(s, m);
  }

  lemma NamesInSnapshot(s: Schema)
    requires s.Valid()
    ensures s.Snapshot().schemas.Keys == s.schemas.Keys
  {
  }

  /** A namespace that is still empty changes nothing about what can be appended. */
  lemma AddableStill(m: Mutation, s: SchemaDef)
    requires Addable(m, s)
    ensures Addable(m, GetOrCreated(s, m.schema))
  {
  }

  lemma TableInSnapshot(s: Schema, k: string, n: string)
    requires s.Valid() && k in s.schemas
    ensures s.schemas[k].Valid() && k in s.Snapshot().schemas
    ensures HasTable(s.Snapshot(), k, n) <==> n in s.schemas[k].tables
    ensures n in s.schemas[k].tables ==>
      s.schemas[k].tables[n].Valid() && TableAt(s.Snapshot(), k, n) == s.schemas[k].tables[n].Snapshot()
  {
    hide Table.Valid, Table.Snapshot;
    NamespaceBelow(s, k);
    TableNames(s.schemas[k]);
    if n in s.schemas[k].tables { TableBelow(s.schemas[k], n); }
  }

  method ApplyInNamespace(s: Schema, m: Mutation) returns (failed: bool)
    requires s.Valid() && OfTable(m) && m.schema in s.schemas && Addable(m, s.Snapshot())
    requires m.DropColumnMutation? ==> s.ExactAt(m.schema, m.table)
    modifies s.repr
    ensures s.Valid() && fresh(s.repr - old(s.repr)) && m.schema in old(s.Snapshot()).schemas
    ensures Applied(s.Snapshot(), failed) == MutateOneTable(m, old(s.Snapshot()))
    ensures forall k, n :: old(s.ExactAt(k, n)) && !RenamesIn(m, k, n) ==> s.ExactAt(k, n)
  {
    hide Schema.Valid, Schema.ExactAt, Schema.Snapshot, Namespace.Valid, Namespace.ExactAt, Namespace.Snapshot,
      Table.Valid,
      Table.Exact, Table.Snapshot, MutateTable, NewTable, Put, AddableTo, HasTable;
    var k, n := m.schema, TableName(m);
    TableInSnapshot(s, k, n);
    if n in s.schemas[k].tables {
      failed := EditAt(s, k, n, m);
    } else {
      var t := MakeTable(m);
      if t == null {
        return true;
      }
      PutAt(s, k, n, t);
      failed := false;
    }
  }

  // ----- lists of mutations

  class MutationApplier {
    var errors: seq<Mutation>

    constructor ()
      ensures errors == []
    {
      errors := [];
    }

    /** One mutation; a failure is recorded. */
    method Step(s: Schema, m: Mutation)
      requires s.Valid() && this !in s.repr && Addable(m, s.Snapshot())
      requires m.DropColumnMutation? ==> s.ExactAt(m.schema, m.table)
      modifies this, s.repr
      ensures s.Valid() && fresh(s.repr - old(s.repr)) && this !in s.repr
      ensures s.Snapshot() == MutationSpec.Mutate(m, old(s.Snapshot())).schema
      ensures errors == old(errors) + if MutationSpec.Mutate(m, old(s.Snapshot())).failed then [m] else []
      ensures forall k, n :: old(s.ExactAt(k, n)) && !RenamesIn(m, k, n) ==> s.ExactAt(k, n)
    {
      hide Schema.Valid, Schema.ExactAt, Schema.Snapshot, MutationSpec.Mutate, Addable;
      var failed := ApplyMutation(s, m);
      if failed {
        errors := errors + [m];
      }
    }

    /** Applies the mutations in order and goes on after a failure.  DROP COLUMN relies on its
        table's index map, which a rename leaves stale. */
    method Apply(s: Schema, mutations: seq<Mutation>) returns (ok: bool)
      requires s.Valid() && s.Exact() && this !in s.repr && AllAddable(mutations, s.Snapshot())
      requires NoStaleDrop(mutations)
      modifies this, s.repr
      ensures s.Valid() && fresh(s.repr - old(s.repr))
      ensures Run(s.Snapshot(), errors) == MutateAll(mutations, old(s.Snapshot()))
      ensures ok <==> errors == []
    {
      hide Schema.Valid, Schema.ExactAt, Schema.Snapshot, MutationSpec.Mutate, Addable, MutateAll;
      errors := [];
      ApplyAllStarts(mutations, s.Snapshot());
      for i := 0 to |mutations|
        invariant s.Valid() && fresh(s.repr - old(s.repr)) && this !in s.repr
        invariant Run(s.Snapshot(), errors) == MutateAll(mutations[..i], old(s.Snapshot()))
        invariant forall k, n :: NotRenamed(mutations, i, k, n) ==> s.ExactAt(k, n)
      {
        ApplyAllNext(mutations, i, old(s.Snapshot()));
        DropsAreFine(mutations, i);
        Step(s, mutations[i]);
        forall k, n ensures NotRenamed(mutations, i + 1, k, n) ==>
          NotRenamed(mutations, i, k, n) && !RenamesIn(mutations[i], k, n) {
        }
      }
      assert mutations[..|mutations|] == mutations;
      ok := |errors| == 0;
    }
  }

  /** None of the first `i` mutations renames a column of the table. */
  ghost predicate NotRenamed(ms: seq<Mutation>, i: nat, k: string, n: string)
    requires i <= |ms|
  {
    forall j :: 0 <= j < i ==> !RenamesIn(ms[j], k, n)
  }

  /** No column is dropped from a table after a column of that table has been renamed. */
  ghost predicate NoStaleDrop(ms: seq<Mutation>) {
    forall i :: 0 <= i < |ms| && ms[i].DropColumnMutation? ==> NotRenamed(ms, i, ms[i].schema, ms[i].table)
  }

  lemma DropsAreFine(ms: seq<Mutation>, i: nat)
    requires NoStaleDrop(ms) && i < |ms|
    ensures ms[i].DropColumnMutation? ==> NotRenamed(ms, i, ms[i].schema, ms[i].table)
  {
  }

  lemma ApplyAllStarts(ms: seq<Mutation>, s: SchemaDef)
    ensures MutateAll(ms[..0], s) == Run(s, [])
  {
  }

  lemma ApplyAllNext(ms: seq<Mutation>, i: nat, s: SchemaDef)
    requires i < |ms|
    ensures MutateAll(ms[..i + 1], s) ==
      var before := MutateAll(ms[..i], s);
      var r := MutationSpec.Mutate(ms[i], before.schema);
      Run(r.schema, before.errors + if r.failed then [ms[i]] else [])
  {
    hide MutationSpec.Mutate;
    MutateAllSnoc(ms[..i], ms[i], s);
    assert ms[..i + 1] == ms[..i] + [ms[i]];
  }
}
