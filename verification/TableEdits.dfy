/** What a schema change does to the contents of one table.  The mutable tables of module Store
    and the operations of a migration are both given their meaning here. */
module TableEdits {
  import opened Catalog

  /** A table's columns: their order, and the lookup by name. */
  datatype Columns = Columns(order: seq<string>, byName: map<string, Column>)

  function IndexOf(s: seq<string>, n: string): (i: nat)
    requires n in s
    ensures i < |s| && s[i] == n
  {
    if s[0] == n then 0 else 1 + IndexOf(s[1..], n)
  }

  /** Removal by moving the last name into the gap. */
  function SwapRemove(s: seq<string>, n: string): (r: seq<string>)
    requires n in s
    ensures |r| == |s| - 1
  {
    var i, last := IndexOf(s, n), |s| - 1;
    s[..last][..i] + (if i == last then [] else [s[last]] + s[i + 1..last])
  }

  function WithColumn(c: Columns, col: Column): Columns {
    Columns(c.order + [col.name], c.byName[col.name := col])
  }

  function WithoutColumn(c: Columns, n: string): Columns
    requires n in c.order
  {
    Columns(SwapRemove(c.order, n), c.byName - {n})
  }

  function Renamed(c: Columns, a: string, b: string): Columns
    requires a in c.order && a in c.byName
  {
    Columns(c.order[IndexOf(c.order, a) := b], (c.byName - {a})[b := c.byName[a].(name := b)])
  }

  /** The order lists every column once, under its own name. */
  ghost predicate ColumnsWellFormed(c: Columns) {
    && NoDuplicates(c.order)
    && (forall n :: n in c.order <==> n in c.byName)
    && ColumnsNamed(c.byName)
  }

  lemma {:induction false} IndexOfUnique(s: seq<string>, i: nat)
    requires NoDuplicates(s) && i < |s|
    ensures IndexOf(s, s[i]) == i
  {
    if i > 0 {
      assert s[1..][i - 1] == s[i];
      IndexOfUnique(s[1..], i - 1);
    }
  }

  /** Swap-removal takes out exactly one name. */
  lemma SwapRemoveExact(s: seq<string>, n: string)
    requires NoDuplicates(s) && n in s
    ensures NoDuplicates(SwapRemove(s, n))
    ensures forall k :: k in SwapRemove(s, n) <==> k in s && k != n
  {
    var i, last := IndexOf(s, n), |s| - 1;
    var r := SwapRemove(s, n);
    assert |r| == last && forall j :: 0 <= j < last ==> r[j] == if j == i then s[last] else s[j];
    forall k | k in s && k != n ensures k in r {
      var j :| 0 <= j < |s| && s[j] == k;
      assert r[if j == last then i else j] == k;
    }
  }

  lemma WithColumnWellFormed(c: Columns, col: Column)
    requires ColumnsWellFormed(c) && col.name !in c.byName
    ensures ColumnsWellFormed(WithColumn(c, col))
  {
  }

  lemma WithoutColumnWellFormed(c: Columns, n: string)
    requires ColumnsWellFormed(c) && n in c.byName
    ensures ColumnsWellFormed(WithoutColumn(c, n))
  {
    SwapRemoveExact(c.order, n);
  }

  lemma RenamedWellFormed(c: Columns, a: string, b: string)
    requires ColumnsWellFormed(c) && a in c.byName && b !in c.byName
    ensures ColumnsWellFormed(Renamed(c, a, b))
  {
    var i := IndexOf(c.order, a);
    var r := c.order[i := b];
    forall k | k in c.order && k != a ensures k in r {
      var j :| 0 <= j < |c.order| && c.order[j] == k;
      assert r[j] == k;
    }
    assert r[i] == b;
  }

  // ----- constraints and indexes

  /** A constraint that does not name its table gets the table it is added to. */
  function Attached(c: Constraint, table: string): Constraint {
    if c.table == "" then c.(table := table) else c
  }

  function ElementNames(elements: seq<IndexElem>): seq<string> {
    seq(|elements|, i requires 0 <= i < |elements| => elements[i].name)
  }

  /** Adding an index; a primary one also becomes the table's primary key. */
  function WithIndex(t: TableDef, i: Index): TableDef {
    var u := t.(indexes := t.indexes[i.name := i]);
    if i.primary then u.(primaryKey := Some(PrimaryKey(i.name, ElementNames(i.elements)))) else u
  }

  // ----- namespaces

  function GetOrCreated(s: SchemaDef, n: string): SchemaDef {
    if n in s.schemas then s else SchemaDef(s.schemas[n := EmptyNamespace(n)])
  }
}
