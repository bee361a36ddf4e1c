/** The mutable schema model: tables that keep their columns in three redundant views, and their
    deep copies.  Whatever sits behind a pointer is an object here, down to the default expression
    of a column, because canonicalizing a schema overwrites all of it in place. */
module Store {
  import opened Catalog
  import opened TableEdits

  /** A pointer to something that holds no pointers itself: a constraint, an index, a type, a view,
      a sequence, an extension, a primary key, a default expression. */
  class Leaf<V> {
    var value: V

    constructor (value: V)
      ensures Snapshot() == value
    {
      this.value := value;
    }

    function Snapshot(): V
      reads this
    {
      value
    }

    method Clone() returns (c: Leaf<V>)
      ensures fresh(c) && c.Snapshot() == Snapshot()
    {
      c := new Leaf(value);
    }
  }

  function Pointee<V>(p: Leaf?<V>): Option<V>
    reads p
  {
    if p == null then None else Some(p.Snapshot())
  }

  method ClonePointer<V>(p: Leaf?<V>) returns (c: Leaf?<V>)
    ensures c == null <==> p == null
    ensures c != null ==> fresh(c)
    ensures Pointee(c) == Pointee(p)
  {
    if p == null {
      c := null;
    } else {
      c := p.Clone();
    }
  }

  method NewPointer<V>(v: Option<V>) returns (c: Leaf?<V>)
    ensures c == null <==> v.None?
    ensures c != null ==> fresh(c)
    ensures Pointee(c) == v
  {
    if v.None? {
      c := null;
    } else {
      c := new Leaf(v.value);
    }
  }

  function Contents<V>(m: map<string, Leaf<V>>): map<string, V>
    reads m.Values
  {
    map n | n in m :: m[n].Snapshot()
  }

  /** The objects of a map belong to `repr`, and no two names share one. */
  ghost predicate OwnLeaves<V>(m: map<string, Leaf<V>>, repr: set<object>) {
    && (forall n :: n in m ==> m[n] in repr)
    && (forall a, b :: a in m && b in m && a != b ==> m[a] != m[b])
  }

  lemma LeafEntered<V>(m: map<string, Leaf<V>>, repr: set<object>, n: string, p: Leaf<V>)
    requires OwnLeaves(m, repr) && p !in repr
    ensures OwnLeaves(m[n := p], repr + {p})
    ensures Contents(m[n := p]) == Contents(m)[n := p.Snapshot()]
  {
  }

  lemma LeafRemoved<V>(m: map<string, Leaf<V>>, repr: set<object>, n: string)
    requires OwnLeaves(m, repr)
    ensures OwnLeaves(m - {n}, repr) && Contents(m - {n}) == Contents(m) - {n}
  {
  }

  lemma LeavesStay<V>(m: map<string, Leaf<V>>, repr: set<object>, more: set<object>)
    requires OwnLeaves(m, repr) && repr <= more
    ensures OwnLeaves(m, more)
  {
  }

  twostate lemma LeavesKept<V>(m: map<string, Leaf<V>>)
    requires forall n :: n in m ==> unchanged(m[n])
    ensures Contents(m) == old(Contents(m))
  {
  }

  // ----- columns

  class ColumnObject {
    var name: string
    var dataType: string
    var isNullable: bool
    var defaultExpr: Leaf?<string>
    var isIdentity: bool
    var identityKind: string
    var collation: string

    constructor (c: Column, defaultExpr: Leaf?<string>)
      requires Pointee(defaultExpr) == c.defaultExpr
      ensures Snapshot() == c && this.defaultExpr == defaultExpr
    {
      name, dataType, isNullable, this.defaultExpr := c.name, c.dataType, c.isNullable, defaultExpr;
      isIdentity, identityKind, collation := c.isIdentity, c.identityKind, c.collation;
    }

    /** The column and its default expression. */
    ghost function Objects(): set<object>
      reads this
    {
      if defaultExpr == null then {this} else {this, defaultExpr}
    }

    function Snapshot(): Column
      reads this, defaultExpr
    {
      Column(name, dataType, isNullable, Pointee(defaultExpr), isIdentity, identityKind, collation)
    }

    method Clone() returns (c: ColumnObject)
      ensures fresh(c) && c.Snapshot() == Snapshot()
      ensures c.defaultExpr != null ==> fresh(c.defaultExpr)
    {
      var cell := ClonePointer(defaultExpr);
      c := new ColumnObject(Snapshot(), cell);
    }
  }

  method NewColumn(col: Column) returns (c: ColumnObject)
    ensures fresh(c) && c.Snapshot() == col
    ensures c.defaultExpr != null ==> fresh(c.defaultExpr)
  {
    var cell := NewPointer(col.defaultExpr);
    c := new ColumnObject(col, cell);
  }

  ghost function CellsOf(cs: set<ColumnObject>): set<object>
    reads cs
  {
    set c | c in cs && c.defaultExpr != null :: c.defaultExpr as object
  }

  /** The columns and their default expressions belong to `repr`, and no two columns share one. */
  ghost predicate OwnColumns(cs: seq<ColumnObject>, repr: set<object>)
    reads cs
  {
    && (forall c :: c in cs ==> c in repr && (c.defaultExpr != null ==> c.defaultExpr in repr))
    && (forall c, d :: c in cs && d in cs && c != d && c.defaultExpr != null ==> c.defaultExpr != d.defaultExpr)
  }

  lemma ColumnEntered(cs: seq<ColumnObject>, repr: set<object>, c: ColumnObject, more: set<object>)
    requires OwnColumns(cs, repr) && (c.defaultExpr != null ==> c.defaultExpr !in repr)
    requires repr <= more && c in more && (c.defaultExpr != null ==> c.defaultExpr in more)
    ensures OwnColumns(cs + [c], more)
  {
  }

  // ----- the views of a table's columns

  function NamesOf(cs: seq<ColumnObject>): (r: seq<string>)
    reads cs
    ensures |r| == |cs| && forall i :: 0 <= i < |r| ==> r[i] == cs[i].name
  {
    seq(|cs|, i requires 0 <= i < |cs| reads cs => cs[i].name)
  }

  function SnapshotsOf(m: map<string, ColumnObject>): map<string, Column>
    reads m.Values, CellsOf(m.Values)
  {
    map n | n in m :: m[n].Snapshot()
  }

  /** The slice and the lookup hold the same columns, each under its own name and once. */
  ghost predicate Agree(names: seq<string>, cs: seq<ColumnObject>, m: map<string, ColumnObject>) {
    && |names| == |cs|
    && NoDuplicates(names)
    && (forall i :: 0 <= i < |cs| ==> names[i] in m && m[names[i]] == cs[i])
    && (forall n :: n in m ==> n in names)
  }

  /** The index map gives every name its place in the slice, and has no other name. */
  ghost predicate PlacesOf(names: seq<string>, places: map<string, int>) {
    && (forall i :: 0 <= i < |names| ==> names[i] in places && places[names[i]] == i)
    && (forall n :: n in places ==> n in names)
  }

  lemma AgreeAppended(names: seq<string>, cs: seq<ColumnObject>, m: map<string, ColumnObject>, n: string,
    c: ColumnObject)
    requires Agree(names, cs, m) && n !in m
    ensures Agree(names + [n], cs + [c], m[n := c]) && n !in names
  {
    assert n !in names;
  }

  lemma PlacesAppended(names: seq<string>, places: map<string, int>, n: string)
    requires PlacesOf(names, places) && n !in names
    ensures PlacesOf(names + [n], places[n := |names|])
  {
  }

  ghost function SwapOut<T>(s: seq<T>, i: nat): (r: seq<T>)
    requires i < |s|
    ensures |r| == |s| - 1 && forall j :: 0 <= j < |r| ==> r[j] == s[if j == i then |s| - 1 else j]
  {
    s[i := s[|s| - 1]][..|s| - 1]
  }

  lemma SwappedOut<T>(s: seq<T>, i: nat, r: seq<T>)
    requires i < |s| && |r| == |s| - 1 && forall j :: 0 <= j < |r| ==> r[j] == s[if j == i then |s| - 1 else j]
    ensures r == SwapOut(s, i)
  {
  }

  lemma OwnSwapped(cs: seq<ColumnObject>, repr: set<object>, i: nat)
    requires OwnColumns(cs, repr) && i < |cs|
    ensures OwnColumns(SwapOut(cs, i), repr)
  {
    hide SwapOut;
    var rest := SwapOut(cs, i);
    forall c | c in rest ensures c in cs {
      var j :| 0 <= j < |rest| && rest[j] == c;
    }
  }

  lemma NamesSwapped(cs: seq<ColumnObject>, i: nat)
    requires i < |cs|
    ensures NamesOf(SwapOut(cs, i)) == SwapOut(NamesOf(cs), i)
  {
    hide SwapOut;
    var a, b := NamesOf(SwapOut(cs, i)), SwapOut(NamesOf(cs), i);
    assert |a| == |b| && forall j :: 0 <= j < |a| ==> a[j] == b[j];
  }

  lemma NamesAppended(cs: seq<ColumnObject>, c: ColumnObject)
    ensures NamesOf(cs + [c]) == NamesOf(cs) + [c.name]
  {
  }

  lemma SnapshotsAppended(m: map<string, ColumnObject>, n: string, c: ColumnObject)
    ensures SnapshotsOf(m[n := c]) == SnapshotsOf(m)[n := c.Snapshot()]
  {
  }

  twostate lemma SnapshotsKept(m: map<string, ColumnObject>)
    requires forall n :: n in m ==> unchanged(m[n]) && (m[n].defaultExpr != null ==> unchanged(m[n].defaultExpr))
    ensures SnapshotsOf(m) == old(SnapshotsOf(m))
  {
  }

  lemma SnapshotsAt(m: map<string, ColumnObject>)
    ensures SnapshotsOf(m).Keys == m.Keys && forall n :: n in m ==> SnapshotsOf(m)[n] == m[n].Snapshot()
  {
  }

  lemma SnapshotsRemoved(m: map<string, ColumnObject>, n: string)
    ensures SnapshotsOf(m - {n}) == SnapshotsOf(m) - {n}
  {
  }

  lemma PartsOfAgree(names: seq<string>, cs: seq<ColumnObject>, m: map<string, ColumnObject>)
    requires Agree(names, cs, m)
    ensures |names| == |cs| && NoDuplicates(names)
  {
  }

  lemma SwapOutIsRemoval(names: seq<string>, i: nat)
    requires NoDuplicates(names) && i < |names|
    ensures SwapOut(names, i) == SwapRemove(names, names[i])
  {
    IndexOfUnique(names, i);
  }

  lemma AgreeSwapped(names: seq<string>, cs: seq<ColumnObject>, m: map<string, ColumnObject>, i: nat)
    requires Agree(names, cs, m) && i < |cs|
    ensures Agree(SwapOut(names, i), SwapOut(cs, i), m - {names[i]})
  {
    SwapOutIsRemoval(names, i);
    SwapRemoveExact(names, names[i]);
    hide SwapOut, SwapRemove;
    var rest := SwapOut(names, i);
    assert NoDuplicates(rest) && forall n :: n in rest <==> n in names && n != names[i];
    hide NoDuplicates;
    forall j | 0 <= j < |rest| ensures rest[j] in m - {names[i]} && m[rest[j]] == SwapOut(cs, i)[j] {
      assert rest[j] in rest;
    }
  }

  lemma PlacesSwapped(names: seq<string>, places: map<string, int>, i: nat)
    requires PlacesOf(names, places) && NoDuplicates(names) && i < |names|
    ensures var last := |names| - 1;
      PlacesOf(SwapOut(names, i), if i == last then places - {names[i]} else (places - {names[i]})[names[last] := i])
  {
    var last := |names| - 1;
    var rest := SwapOut(names, i);
    var less := if i == last then places - {names[i]} else (places - {names[i]})[names[last] := i];
    hide SwapOut;
    forall j | 0 <= j < |rest| ensures rest[j] in less && less[rest[j]] == j {
      assert rest[j] == names[if j == i then last else j];
    }
    forall n | n in less ensures n in rest {
      var j :| 0 <= j < |names| && names[j] == n;
      assert j != i;
      assert rest[if j == last then i else j] == n;
    }
  }

  class Table {
    var schema: string
    var name: string
    var columns: seq<ColumnObject>
    var columnByName: map<string, ColumnObject>
    var columnIndex: map<string, int>
    var primaryKey: Leaf?<PrimaryKey>
    var constraints: map<string, Leaf<Constraint>>
    var indexes: map<string, Leaf<Index>>
    var isPlaceholder: bool
    ghost var repr: set<object>

    ghost predicate Valid()
      reads this, repr
    {
      && this in repr
      && (forall c :: c in columns ==> c in repr)
      && OwnColumns(columns, repr)
      && (primaryKey != null ==> primaryKey in repr)
      && OwnLeaves(constraints, repr)
      && OwnLeaves(indexes, repr)
      && Agree(NamesOf(columns), columns, columnByName)
    }

    /** The third view of the columns is right, too. */
    ghost predicate Exact()
      reads this, columns
    {
      PlacesOf(NamesOf(columns), columnIndex)
    }

    function ColumnView(): Columns
      requires Valid()
      reads this, repr
    {
      LookupOwned(NamesOf(columns), columns, columnByName, repr);
      Columns(NamesOf(columns), SnapshotsOf(columnByName))
    }

    function Snapshot(): TableDef
      requires Valid()
      reads this, repr
    {
      TableDef(schema, name, ColumnView().order, ColumnView().byName, Pointee(primaryKey), Contents(constraints),
               Contents(indexes), isPlaceholder)
    }

    constructor (schema: string, name: string)
      ensures Valid() && Exact() && fresh(repr) && Snapshot() == EmptyTable(schema, name)
      ensures this.schema == schema && this.name == name && ColumnView() == Columns([], map[])
    {
      this.schema, this.name := schema, name;
      columns, columnByName, columnIndex := [], map[], map[];
      primaryKey, constraints, indexes, isPlaceholder := null, map[], map[], false;
      repr := {this};
      new;
      assert NamesOf([]) == [];
      assert SnapshotsOf(columnByName) == map[];
    }

    /** Appends a column; the code has no check for a duplicate name. */
    method AddColumn(col: ColumnObject)
      requires Valid() && col.name !in columnByName && (col.defaultExpr != null ==> col.defaultExpr !in repr)
      modifies this`columns, this`columnByName, this`columnIndex, this`repr
      ensures Valid() && repr == old(repr) + col.Objects()
      ensures ColumnView() == WithColumn(old(ColumnView()), col.Snapshot())
      ensures old(Exact()) ==> Exact()
    {
      hide Agree, PlacesOf, NamesOf, OwnColumns, OwnLeaves, SnapshotsOf, CellsOf;
      ghost var names, more := NamesOf(columns), repr + col.Objects();
      AgreeAppended(names, columns, columnByName, col.name, col);
      if Exact() {
        PlacesAppended(names, columnIndex, col.name);
      }
      ColumnEntered(columns, repr, col, more);
      LeavesStay(constraints, repr, more);
      LeavesStay(indexes, repr, more);
      SnapshotsAppended(columnByName, col.name, col);
      NamesAppended(columns, col);
      columnIndex := columnIndex[col.name := |columns|];
      columns := columns + [col];
      columnByName := columnByName[col.name := col];
      repr := more;
      SnapshotsKept(columnByName);
    }

    /** The index map gives the name a place in the slice, if it has it at all. */
    ghost predicate Reachable(n: string)
      reads this
    {
      n in columnIndex ==> 0 <= columnIndex[n] < |columns|
    }

    /** That place, if any, is the column's own. */
    ghost predicate IndexedAt(n: string)
      requires Reachable(n)
      reads this, columns
    {
      n in columnIndex ==> columns[columnIndex[n]].name == n
    }

    /** Removes a column by moving the last one into its place.  A name that the index map does
        not have is left alone, whatever the other views say; a name that it has at the wrong
        place takes another column out of the slice, and the views no longer agree. */
    method RemoveColumn(n: string)
      requires Valid() && Reachable(n)
      modifies this`columns, this`columnByName, this`columnIndex
      ensures Valid() <==> old(IndexedAt(n))
      ensures n !in old(columnIndex) ==>
        columns == old(columns) && columnByName == old(columnByName) && columnIndex == old(columnIndex)
      ensures n in old(columnIndex) && old(IndexedAt(n)) ==>
        n in old(ColumnView()).order && ColumnView() == WithoutColumn(old(ColumnView()), n)
      ensures old(Exact()) ==> Exact()
    {
      hide Agree, PlacesOf, NamesOf, SnapshotsOf, SwapRemove, SwapOut, OwnColumns, OwnLeaves;
      if n !in columnIndex {
        return;
      }
      var idx := columnIndex[n];
      PartsOfAgree(NamesOf(columns), columns, columnByName);
      ghost var names, snapshots, before := NamesOf(columns), SnapshotsOf(columnByName), columns;
      RightPlace(names, columns, columnByName, idx, n);
      SwapOutIsRemoval(names, idx);
      SnapshotsRemoved(columnByName, n);
      if Exact() {
        ExactPlace(names, columnIndex, n);
        PlacesSwapped(names, columnIndex, idx);
      }
      columnByName := columnByName - {n};
      columnIndex := columnIndex - {n};
      var last := |columns| - 1;
      if idx != last {
        columns := columns[idx := columns[last]];
        columnIndex := columnIndex[columns[idx].name := idx];
      }
      columns := columns[..last];
      SwappedOut(before, idx, columns);
      NamesSwapped(before, idx);
      OwnSwapped(before, repr, idx);
      SnapshotsKept(columnByName);
    }

    /** The objects that are not about columns are as they were. */
    twostate lemma RestKept()
      requires old(Valid()) && unchanged(`primaryKey, `constraints, `indexes)
      requires forall o: object :: o in old(repr) && !(o is ColumnObject) && o != this ==> unchanged(o)
      ensures Pointee(primaryKey) == old(Pointee(primaryKey))
      ensures Contents(constraints) == old(Contents(constraints)) && Contents(indexes) == old(Contents(indexes))
    {
      hide Agree, OwnColumns, NamesOf;
    }

    twostate lemma OwnColumnsGrow()
      requires old(Valid()) && unchanged(`columns) && old(repr) <= repr
      requires forall c :: c in columns ==> c.defaultExpr == old(c.defaultExpr)
      ensures OwnColumns(columns, repr) && forall c :: c in columns ==> c in repr
    {
      hide Agree, OwnLeaves, NamesOf;
    }

    lemma OwnedOnes()
      requires Valid()
      ensures forall c :: c in columns ==> c in repr
    {
    }

    twostate lemma OwnColumnsStay()
      requires unchanged(`columns, `repr) && old(OwnColumns(columns, repr))
      requires forall c :: c in columns ==> c.defaultExpr == old(c.defaultExpr)
      ensures OwnColumns(columns, repr)
    {
    }

    /** Renames a column: its name and the lookup change, the index map keeps the old name. */
    method RenameColumn(a: string, b: string)
      requires Valid() && a in columnByName && b !in columnByName
      modifies this`columnByName, columnByName[a]
      ensures columnByName == (old(columnByName) - {a})[b := old(columnByName[a])]
      ensures old(columnByName[a]).name == b
      ensures Valid() && a in old(ColumnView()).order && ColumnView() == Renamed(old(ColumnView()), a, b)
    {
      hide Agree, NamesOf, SnapshotsOf, OwnLeaves, OwnColumns, CellsOf;
      OwnedOnes();
      ghost var names, snapshots, m := NamesOf(columns), SnapshotsOf(columnByName), columnByName;
      ghost var i := PlaceOf(names, columns, m, a);
      AgreeRenamed(names, columns, m, i, b);
      SnapshotsAt(m);
      PartsOfAgree(names, columns, m);
      forall k | k in m && k != a ensures m[k] != m[a] { OneNameEach(names, columns, m, k, a); }
      assert forall j :: 0 <= j < |columns| && j != i ==> names[j] != names[i] && columns[j] != columns[i];
      var col := columnByName[a];
      col.name := b;
      columnByName := columnByName - {a};
      columnByName := columnByName[b := col];
      NamesRenamed(names, columns, i, b);
      SnapshotsRenamed(snapshots, m, a, b);
      OwnColumnsStay();
    }

    /** Sets what is not about columns; the objects must be the table's alone. */
    method SetRest(isPlaceholder: bool, primaryKey: Leaf?<PrimaryKey>, constraints: map<string, Leaf<Constraint>>,
                   indexes: map<string, Leaf<Index>>, ghost repr: set<object>)
      requires Valid() && this.repr <= repr && (primaryKey != null ==> primaryKey in repr)
      requires OwnLeaves(constraints, repr) && OwnLeaves(indexes, repr)
      modifies this`isPlaceholder, this`primaryKey, this`constraints, this`indexes, this`repr
      ensures Valid() && (old(Exact()) ==> Exact()) && ColumnView() == old(ColumnView())
      ensures this.isPlaceholder == isPlaceholder && this.primaryKey == primaryKey
      ensures this.constraints == constraints && this.indexes == indexes && this.repr == repr
    {
      hide Agree, NamesOf, PlacesOf, SnapshotsOf, OwnLeaves;
      this.isPlaceholder := isPlaceholder;
      this.primaryKey := primaryKey;
      this.constraints := constraints;
      this.indexes := indexes;
      this.repr := repr;
      SnapshotsKept(columnByName);
    }

    /** The table's maps are the same, and so are the objects it had, but for itself and `n`. */
    twostate predicate OnlyColumn(n: string)
      reads this, repr
    {
      && n in columnByName
      && unchanged(`schema, `name, `columns, `columnByName, `columnIndex, `primaryKey, `constraints, `indexes,
        `isPlaceholder)
      && (forall o :: o in old(repr) && o != this && o != columnByName[n] ==> o in repr && unchanged(o))
    }

    /** The default expression of column `n` is gone, as it was, or new. */
    twostate predicate NewCell(n: string)
      requires n in columnByName && columnByName == old(columnByName)
      reads this, columnByName[n]
    {
      var p := columnByName[n].defaultExpr;
      && columnByName[n].name == old(columnByName[n].name)
      && (p == null || p == old(columnByName[n].defaultExpr) || (p !in old(repr) && p in repr))
    }

    twostate lemma NamesStay(n: string)
      requires old(Valid()) && OnlyColumn(n) && columnByName[n].name == old(columnByName[n].name)
      ensures NamesOf(columns) == old(NamesOf(columns))
      ensures forall k :: k in columnByName && k != n ==>
        columnByName[k] in columns && columnByName[k] != columnByName[n]
    {
      hide Agree, OwnLeaves;
      forall i | 0 <= i < |columns| ensures columns[i].name == old(columns[i].name) {
        assert columns[i] in columns;
      }
      assert NamesOf(columns) == old(NamesOf(columns));
      forall k | k in columnByName && k != n ensures columnByName[k] in columns && columnByName[k] != columnByName[n] {
        OneNameEach(NamesOf(columns), columns, columnByName, k, n);
      }
    }

    twostate lemma CellsStayOwn(n: string)
      requires old(Valid()) && OnlyColumn(n) && old(repr) <= repr && NewCell(n)
      ensures OwnColumns(columns, repr)
    {
      hide Agree, OwnLeaves, NamesOf;
    }

    twostate lemma RestStays(n: string)
      requires old(Valid()) && OnlyColumn(n) && old(repr) <= repr
      ensures OwnLeaves(constraints, repr) && OwnLeaves(indexes, repr) && (primaryKey != null ==> primaryKey in repr)
      ensures Pointee(primaryKey) == old(Pointee(primaryKey))
      ensures Contents(constraints) == old(Contents(constraints)) && Contents(indexes) == old(Contents(indexes))
    {
      hide Agree, NamesOf, OwnColumns;
    }

    twostate lemma OtherColumnsStay(n: string)
      requires old(Valid()) && OnlyColumn(n) && NamesOf(columns) == old(NamesOf(columns))
      requires forall k :: k in columnByName && k != n ==>
        columnByName[k] in columns && columnByName[k] != columnByName[n]
      ensures SnapshotsOf(columnByName) == old(SnapshotsOf(columnByName))[n := columnByName[n].Snapshot()]
    {
      hide Agree, NamesOf, OwnLeaves;
    }

    /** One column of the table has changed, other than in its name, and perhaps has a new default
        expression. */
    twostate lemma ColumnChanged(n: string)
      requires old(Valid()) && OnlyColumn(n) && this in repr && old(repr) <= repr && NewCell(n)
      ensures Valid() && (old(Exact()) ==> Exact())
      ensures Snapshot() == old(Snapshot()).(columns := old(Snapshot()).columns[n := columnByName[n].Snapshot()])
    {
      hide Agree, NamesOf, SnapshotsOf, OwnLeaves, OwnColumns, PlacesOf, Contents, Pointee;
      NamesStay(n);
      CellsStayOwn(n);
      RestStays(n);
      OtherColumnsStay(n);
    }
  }

  /** A name that is given its own place is removed; one that is given another's leaves that one
      in the lookup only. */
  lemma RightPlace(names: seq<string>, cs: seq<ColumnObject>, m: map<string, ColumnObject>, i: nat, n: string)
    requires Agree(names, cs, m) && i < |cs|
    ensures Agree(SwapOut(names, i), SwapOut(cs, i), m - {n}) <==> names[i] == n
  {
    if names[i] == n {
      AgreeSwapped(names, cs, m, i);
    } else {
      SwapOutIsRemoval(names, i);
      SwapRemoveExact(names, names[i]);
      assert names[i] in m - {n} && names[i] !in SwapOut(names, i);
    }
  }

  lemma ExactPlace(names: seq<string>, places: map<string, int>, n: string)
    requires PlacesOf(names, places) && n in places
    ensures 0 <= places[n] < |names| && names[places[n]] == n
  {
    var i :| 0 <= i < |names| && names[i] == n;
  }

  ghost function PlaceOf(names: seq<string>, cs: seq<ColumnObject>, m: map<string, ColumnObject>, n: string): (i: nat)
    requires Agree(names, cs, m) && n in m
    ensures i < |cs| && |cs| == |names| && names[i] == n && cs[i] == m[n] && IndexOf(names, n) == i
  {
    var i :| 0 <= i < |names| && names[i] == n;
    IndexOfUnique(names, i);
    i
  }

  lemma OneNameEach(names: seq<string>, cs: seq<ColumnObject>, m: map<string, ColumnObject>, a: string, b: string)
    requires Agree(names, cs, m) && a in m && b in m && a != b
    requires forall i :: 0 <= i < |cs| ==> names[i] == cs[i].name
    ensures m[a] in cs && m[a] != m[b]
  {
    var i, j := PlaceOf(names, cs, m, a), PlaceOf(names, cs, m, b);
  }

  lemma LookupInSlice(names: seq<string>, cs: seq<ColumnObject>, m: map<string, ColumnObject>)
    requires Agree(names, cs, m)
    ensures forall n :: n in m ==> m[n] in cs
  {
    forall n | n in m ensures m[n] in cs {
      var i := PlaceOf(names, cs, m, n);
    }
  }

  lemma LookupOwned(names: seq<string>, cs: seq<ColumnObject>, m: map<string, ColumnObject>, repr: set<object>)
    requires Agree(names, cs, m) && OwnColumns(cs, repr)
    ensures forall c :: c in m.Values ==> c in repr
    ensures CellsOf(m.Values) <= repr
  {
    LookupInSlice(names, cs, m);
  }

  lemma AgreeRenamed(names: seq<string>, cs: seq<ColumnObject>, m: map<string, ColumnObject>, i: nat, b: string)
    requires Agree(names, cs, m) && i < |cs| && b !in m
    ensures Agree(names[i := b], cs, (m - {names[i]})[b := cs[i]])
    ensures names[i] in names && b !in names
  {
    var more, changed := names[i := b], (m - {names[i]})[b := cs[i]];
    forall n | n in changed ensures n in more {
      if n == b {
        assert more[i] == b;
      } else {
        var j :| 0 <= j < |names| && names[j] == n;
        assert more[j] == n;
      }
    }
  }

  lemma NamesRenamed(names: seq<string>, cs: seq<ColumnObject>, i: nat, b: string)
    requires i < |cs| == |names|
    requires forall j :: 0 <= j < |cs| ==> cs[j].name == if j == i then b else names[j]
    ensures NamesOf(cs) == names[i := b]
  {
  }

  lemma SnapshotsRenamed(snapshots: map<string, Column>, m: map<string, ColumnObject>, a: string, b: string)
    requires a in m && m.Keys == snapshots.Keys
    requires forall n :: n in m && n != a ==> m[n].Snapshot() == snapshots[n]
    requires m[a].Snapshot() == snapshots[a].(name := b)
    ensures SnapshotsOf((m - {a})[b := m[a]]) == (snapshots - {a})[b := snapshots[a].(name := b)]
  {
  }

  // ----- copies

  function SnapshotSeq(cs: seq<ColumnObject>): (r: seq<Column>)
    reads cs, CellsOf(set c | c in cs)
    ensures |r| == |cs| && forall i :: 0 <= i < |cs| ==> r[i] == cs[i].Snapshot()
  {
    seq(|cs|, i requires 0 <= i < |cs| reads cs, CellsOf(set c | c in cs) => cs[i].Snapshot())
  }

  twostate lemma SequenceKept(cs: seq<ColumnObject>)
    requires forall c :: c in cs ==> unchanged(c) && (c.defaultExpr != null ==> unchanged(c.defaultExpr))
    ensures SnapshotSeq(cs) == old(SnapshotSeq(cs))
  {
    assert forall i :: 0 <= i < |cs| ==> cs[i] in cs;
  }

  function NamesIn(cols: seq<Column>): (r: seq<string>)
    ensures |r| == |cols| && forall i :: 0 <= i < |r| ==> r[i] == cols[i].name
  {
    seq(|cols|, i requires 0 <= i < |cols| => cols[i].name)
  }

  /** Columns added one by one. */
  ghost function InOrder(cols: seq<Column>): Columns {
    if cols == [] then Columns([], map[])
    else WithColumn(InOrder(cols[..|cols| - 1]), cols[|cols| - 1])
  }

  lemma NamesInSnoc(cols: seq<Column>)
    requires cols != [] && NoDuplicates(NamesIn(cols))
    ensures NamesIn(cols) == NamesIn(cols[..|cols| - 1]) + [cols[|cols| - 1].name]
    ensures NoDuplicates(NamesIn(cols[..|cols| - 1])) && cols[|cols| - 1].name !in NamesIn(cols[..|cols| - 1])
  {
    var init, last := cols[..|cols| - 1], cols[|cols| - 1];
    assert NamesIn(cols) == NamesIn(init) + [last.name];
    forall i, j | 0 <= i < j < |init| ensures NamesIn(init)[i] != NamesIn(init)[j] {
      assert NamesIn(cols)[i] != NamesIn(cols)[j];
    }
    forall i | 0 <= i < |init| ensures NamesIn(init)[i] != last.name {
      assert NamesIn(cols)[i] != NamesIn(cols)[|cols| - 1];
    }
  }

  lemma {:induction false} InOrderEntries(cols: seq<Column>)
    requires NoDuplicates(NamesIn(cols))
    ensures InOrder(cols).order == NamesIn(cols)
    ensures forall n :: n in InOrder(cols).byName <==> n in NamesIn(cols)
    ensures forall i :: 0 <= i < |cols| ==> InOrder(cols).byName[NamesIn(cols)[i]] == cols[i]
  {
    hide NoDuplicates;
    if cols != [] {
      var init, last := cols[..|cols| - 1], cols[|cols| - 1];
      NamesInSnoc(cols);
      InOrderEntries(init);
      forall i | 0 <= i < |init| ensures InOrder(cols).byName[NamesIn(cols)[i]] == cols[i] {
        assert NamesIn(cols)[i] == NamesIn(init)[i] && NamesIn(init)[i] in NamesIn(init);
      }
    }
  }

  lemma SameNames(cs: seq<ColumnObject>)
    ensures NamesIn(SnapshotSeq(cs)) == NamesOf(cs)
  {
  }

  /** What the slice says is what the table says. */
  lemma SliceIsView(t: Table)
    requires t.Valid()
    ensures InOrder(SnapshotSeq(t.columns)) == t.ColumnView()
  {
    var names, m, cols := NamesOf(t.columns), t.columnByName, SnapshotSeq(t.columns);
    SameNames(t.columns);
    InOrderEntries(cols);
    assert InOrder(cols).byName.Keys == SnapshotsOf(m).Keys;
    forall n | n in m ensures InOrder(cols).byName[n] == SnapshotsOf(m)[n] {
      var i := PlaceOf(names, t.columns, m, n);
      assert cols[i].name == n;
    }
  }

  lemma InOrderNext(cols: seq<Column>, i: nat)
    requires NoDuplicates(NamesIn(cols)) && i < |cols|
    ensures InOrder(cols[..i + 1]) == WithColumn(InOrder(cols[..i]), cols[i])
    ensures cols[i].name !in InOrder(cols[..i]).byName
  {
    assert cols[..i + 1][..i] == cols[..i];
    var before := NamesIn(cols[..i]);
    assert before == NamesIn(cols)[..i];
    InOrderEntries(cols[..i]);
  }

  /** Appends copies of the given columns. */
  method CopyColumns(cs: seq<ColumnObject>, ct: Table)
    requires NoDuplicates(NamesOf(cs))
    requires ct.Valid() && ct.Exact() && ct.ColumnView() == Columns([], map[])
    modifies ct`columns, ct`columnByName, ct`columnIndex, ct`repr
    ensures ct.Valid() && ct.Exact() && fresh(ct.repr - old(ct.repr))
    ensures ct.ColumnView() == InOrder(old(SnapshotSeq(cs)))
  {
    hide Agree, NamesOf, PlacesOf, SnapshotsOf, WithColumn, InOrder, OwnColumns, OwnLeaves, Table.Exact;
    ghost var cols := SnapshotSeq(cs);
    SameNames(cs);
    StartInOrder(cols);
    for i := 0 to |cs|
      invariant ct.Valid() && ct.Exact() && fresh(ct.repr - old(ct.repr))
      invariant ct.ColumnView() == InOrder(cols[..i])
      invariant forall k :: 0 <= k < |cs| ==> cs[k].Snapshot() == cols[k]
    {
      var clonedCol := cs[i].Clone();
      InOrderNext(cols, i);
      KeysOfView(ct);
      ct.AddColumn(clonedCol);
    }
    assert cols[..|cs|] == cols;
  }

  lemma StartInOrder(cols: seq<Column>)
    ensures InOrder(cols[..0]) == Columns([], map[])
  {
  }

  /** What a copy of `m` holds while the names `left` are still to be copied. */
  ghost function CopyBut<V>(m: map<string, V>, left: set<string>): map<string, V> {
    map n | n in m && n !in left :: m[n]
  }

  lemma CopyNext<V>(m: map<string, V>, left: set<string>, n: string)
    requires n in left && n in m
    ensures n !in CopyBut(m, left)
    ensures CopyBut(m, left - {n}) == CopyBut(m, left)[n := m[n]]
  {
  }

  lemma CopyEnds<V>(m: map<string, V>)
    ensures CopyBut(m, m.Keys) == map[] && CopyBut(m, {}) == m
  {
  }

  lemma ValuesEntered<T>(m: map<string, T>, n: string, v: T)
    requires n !in m
    ensures m[n := v].Values == m.Values + {v}
  {
    forall k | k in m ensures m[k] in m[n := v].Values {
      assert m[n := v][k] == m[k];
    }
    assert m[n := v][n] == v;
  }

  /** Copies of all the objects of a map. */
  method CloneLeaves<V>(m: map<string, Leaf<V>>) returns (c: map<string, Leaf<V>>)
    ensures fresh(c.Values) && OwnLeaves(c, c.Values) && Contents(c) == Contents(m)
  {
    ghost var before := Contents(m);
    CopyEnds(before);
    c := map[];
    var left := m.Keys;
    while left != {}
      invariant left <= m.Keys
      invariant fresh(c.Values) && OwnLeaves(c, c.Values)
      invariant Contents(c) == CopyBut(before, left)
      decreases |left|
    {
      var n :| n in left;
      CopyNext(before, left, n);
      left := left - {n};
      var p := m[n].Clone();
      LeafEntered(c, c.Values, n, p);
      assert n !in Contents(c);
      ValuesEntered(c, n, p);
      c := c[n := p];
    }
  }

  /** A copy built from the slice alone: its three views are right whatever the original's lookup
      and index map say, provided the column names are distinct.  It shares no object with the
      original. */
  method CloneTable(t: Table) returns (ct: Table)
    requires NoDuplicates(NamesOf(t.columns))
    ensures ct.Valid() && ct.Exact() && fresh(ct.repr)
    ensures ct.ColumnView() == InOrder(SnapshotSeq(t.columns))
    ensures ct.schema == t.schema && ct.name == t.name && ct.isPlaceholder == t.isPlaceholder
    ensures Pointee(ct.primaryKey) == Pointee(t.primaryKey)
    ensures Contents(ct.constraints) == Contents(t.constraints) && Contents(ct.indexes) == Contents(t.indexes)
    ensures t.Valid() ==> ct.Snapshot() == t.Snapshot()
  {
    hide Table.Valid, Table.Exact, Table.ColumnView, Table.Snapshot, NamesOf, InOrder, Contents, Pointee;
    ct := new Table(t.schema, t.name);
    ghost var cols := SnapshotSeq(t.columns);
    CopyColumns(t.columns, ct);
    CopyRest(t, ct);
    assert ct.ColumnView() == InOrder(cols);
    SequenceKept(t.columns);
    assert SnapshotSeq(t.columns) == cols;
    if t.Valid() {
      SliceIsView(t);
      SameParts(t, ct);
    }
  }

  lemma SameParts(t: Table, u: Table)
    requires t.Valid() && u.Valid() && t.ColumnView() == u.ColumnView()
    requires t.schema == u.schema && t.name == u.name && t.isPlaceholder == u.isPlaceholder
    requires Pointee(t.primaryKey) == Pointee(u.primaryKey)
    requires Contents(t.constraints) == Contents(u.constraints) && Contents(t.indexes) == Contents(u.indexes)
    ensures t.Snapshot() == u.Snapshot()
  {
  }

  method CopyRest(t: Table, ct: Table)
    requires ct.Valid() && ct.Exact() && t != ct
    modifies ct`isPlaceholder, ct`primaryKey, ct`constraints, ct`indexes, ct`repr
    ensures ct.Valid() && ct.Exact() && fresh(ct.repr - old(ct.repr))
    ensures ct.ColumnView() == old(ct.ColumnView()) && ct.isPlaceholder == t.isPlaceholder
    ensures Pointee(ct.primaryKey) == Pointee(t.primaryKey)
    ensures Contents(ct.constraints) == Contents(t.constraints) && Contents(ct.indexes) == Contents(t.indexes)
  {
    hide Table.Valid, Table.Exact, Table.ColumnView, OwnLeaves, Contents, Pointee;
    var primaryKey := ClonePointer(t.primaryKey);
    var constraints := CloneLeaves(t.constraints);
    var indexes := CloneLeaves(t.indexes);
    ghost var key: set<object> := if primaryKey == null then {} else {primaryKey};
    ghost var repr: set<object> := ct.repr + key + constraints.Values + indexes.Values;
    LeavesStay(constraints, constraints.Values, repr);
    LeavesStay(indexes, indexes.Values, repr);
    ct.SetRest(t.isPlaceholder, primaryKey, constraints, indexes, repr);
  }

  lemma KeysOfView(t: Table)
    requires t.Valid()
    ensures t.ColumnView().byName.Keys == t.columnByName.Keys
  {
  }

  // ----- what a rename does to a later drop

  /** A column that has been renamed is not dropped: the index map does not have its name. */
  method RenameThenDrop(t: Table, a: string, b: string)
    requires t.Valid() && t.Exact() && a in t.columnByName && b !in t.columnByName
    modifies t, t.repr
    ensures t.Valid() && a in old(t.ColumnView()).order
    ensures t.ColumnView() == Renamed(old(t.ColumnView()), a, b)
  {
    hide Agree, PlacesOf, NamesOf, SnapshotsOf, OwnColumns, OwnLeaves, Renamed;
    NotIndexed(t, b);
    OwnedColumn(t, a);
    t.RenameColumn(a, b);
    t.RemoveColumn(b);
  }

  lemma NotIndexed(t: Table, n: string)
    requires t.Valid() && t.Exact() && n !in t.columnByName
    ensures n !in t.columnIndex
  {
  }

  /** Worse, if another column takes over a renamed column's name and is then dropped, the renamed
      column leaves the slice instead, and the views of the table disagree. */
  method RenameTwiceThenDrop(t: Table, a: string, b: string, c: string)
    requires t.Valid() && t.Exact() && a != b && a in t.columnByName && b in t.columnByName && c !in t.columnByName
    modifies t, t.repr
    ensures !t.Valid()
  {
    hide Agree, NamesOf, PlacesOf, SnapshotsOf, Renamed, IndexOf;
    ExactIsReachable(t, b);
    OthersColumn(t, a, b);
    ghost var col := t.columnByName[b];
    t.RenameColumn(b, c);
    t.RenameColumn(a, b);
    assert col.name == c;
    t.RemoveColumn(b);
  }

  lemma OwnedColumn(t: Table, a: string)
    requires t.Valid() && a in t.columnByName
    ensures t.columnByName[a] in t.repr
  {
    LookupInSlice(NamesOf(t.columns), t.columns, t.columnByName);
  }

  lemma OthersColumn(t: Table, a: string, b: string)
    requires t.Valid() && a in t.columnByName && b in t.columnByName && a != b
    ensures t.columnByName[a] != t.columnByName[b] && t.columnByName[a] in t.repr
  {
    LookupInSlice(NamesOf(t.columns), t.columns, t.columnByName);
    OneNameEach(NamesOf(t.columns), t.columns, t.columnByName, a, b);
  }

  lemma ExactIsReachable(t: Table, n: string)
    requires t.Valid() && t.Exact() && n in t.columnByName
    ensures n in t.columnIndex && t.Reachable(n) && t.columns[t.columnIndex[n]] == t.columnByName[n]
  {
    var i := PlaceOf(NamesOf(t.columns), t.columns, t.columnByName, n);
  }
}
