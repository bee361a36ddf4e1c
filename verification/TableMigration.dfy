/** Running the column operations of a table, in both orders. */
module TableMigration {
  import opened Catalog
  import opened Operations
  import opened Names
  import opened Lists
  import opened DiffSpec
  import opened RenameTheory
  import opened Locality
  import opened TableEdits
  import opened Semantics
  import opened ColumnMigration

  // ----- runs of operations on single columns

  predicate IsPlain(op: Op) {
    op.IsColumnOp() && !op.RenameColumnOp?
  }

  ghost predicate AllPlain(ops: seq<Op>) {
    forall op :: op in ops ==> IsPlain(op)
  }

  ghost function RunMap(ops: seq<Op>, m: map<string, Column>): Outcome<map<string, Column>> {
    Run(ops, m, ColumnName(), NoBroadcast(), ColumnEffect())
  }

  lemma RunColumnsSnoc(ops: seq<Op>, op: Op, c: Columns)
    ensures RunColumns(ops + [op], c) ==
      if RunColumns(ops, c).Fail? then Fail else EditColumns(RunColumns(ops, c).value, op)
  {
    assert (ops + [op])[..|ops|] == ops;
  }

  lemma {:induction false} RunColumnsConcat(a: seq<Op>, b: seq<Op>, c: Columns)
    ensures RunColumns(a + b, c) ==
      if RunColumns(a, c).Fail? then Fail else RunColumns(b, RunColumns(a, c).value)
  {
    if b == [] {
      assert a + b == a;
    } else {
      var init, op := b[..|b| - 1], b[|b| - 1];
      assert a + b == (a + init) + [op] && b == init + [op];
      RunColumnsConcat(a, init, c);
      RunColumnsSnoc(a + init, op, c);
      if RunColumns(a, c).Ok? { RunColumnsSnoc(init, op, RunColumns(a, c).value); }
    }
  }

  lemma PlainEdit(c: Columns, op: Op)
    requires IsPlain(op) && ColumnsWellFormed(c)
    ensures EditColumns(c, op).Ok? <==>
      Step(op, c.byName, ColumnName(), NoBroadcast(), ColumnEffect()).Ok?
    ensures EditColumns(c, op).Ok? ==>
      && Step(op, c.byName, ColumnName(), NoBroadcast(), ColumnEffect()) == Ok(EditColumns(c, op).value.byName)
      && ColumnsWellFormed(EditColumns(c, op).value)
  {
    hide ColumnsWellFormed, WithColumn, WithoutColumn;
    PlainStep(c.byName, op);
    if op.AddColumnOp? {
      if op.col.name !in c.byName {
        WithColumnWellFormed(c, op.col);
        assert WithColumn(c, op.col).byName == c.byName[op.col.name := op.col] by { AddedByName(c, op.col); }
      }
    } else if op.DropColumnOp? {
      assert op.column in c.byName <==> op.column in c.order by { OrderIsKeys(c, op.column); }
      if op.column in c.byName {
        WithoutColumnWellFormed(c, op.column);
        DroppedByName(c, op.column);
      }
    } else {
      assert IsAlterColumn(op);
      if op.column in c.byName && AlterColumn(c.byName[op.column], op).Ok? {
        AlteredWellFormed(c, op);
      }
    }
  }

  lemma PlainStep(m: map<string, Column>, op: Op)
    requires IsPlain(op)
    ensures Step(op, m, ColumnName(), NoBroadcast(), ColumnEffect()) ==
      match ColumnStep(op, Get(m, ColumnName()(op)))
      case Fail => Fail
      case Ok(v) => Ok(Put(m, ColumnName()(op), v))
  {
  }

  lemma AddedByName(c: Columns, col: Column)
    ensures WithColumn(c, col).byName == c.byName[col.name := col]
  {
  }

  lemma OrderIsKeys(c: Columns, n: string)
    requires ColumnsWellFormed(c)
    ensures n in c.byName <==> n in c.order
  {
  }

  lemma DroppedByName(c: Columns, n: string)
    requires n in c.order
    ensures WithoutColumn(c, n).byName == c.byName - {n}
  {
  }

  lemma AlterKeepsName(c: Column, op: Op)
    ensures AlterColumn(c, op).Ok? ==> AlterColumn(c, op).value.name == c.name
  {
  }

  lemma AlteredWellFormed(c: Columns, op: Op)
    requires ColumnsWellFormed(c) && IsAlterColumn(op) && op.column in c.byName
    requires AlterColumn(c.byName[op.column], op).Ok?
    ensures ColumnsWellFormed(c.(byName := c.byName[op.column := AlterColumn(c.byName[op.column], op).value]))
  {
    hide AlterColumn;
    AlterKeepsName(c.byName[op.column], op);
  }

  /** Without renames, the columns by name are a keyed collection like any other. */
  lemma {:induction false} PlainRun(ops: seq<Op>, c: Columns)
    requires AllPlain(ops) && ColumnsWellFormed(c)
    ensures RunColumns(ops, c).Ok? <==> RunMap(ops, c.byName).Ok?
    ensures RunColumns(ops, c).Ok? ==>
      RunMap(ops, c.byName) == Ok(RunColumns(ops, c).value.byName) && ColumnsWellFormed(RunColumns(ops, c).value)
  {
    if ops != [] {
      var init, op := ops[..|ops| - 1], ops[|ops| - 1];
      assert forall x :: x in init ==> x in ops;
      assert op in ops;
      PlainRun(init, c);
      if RunColumns(init, c).Ok? {
        PlainEdit(RunColumns(init, c).value, op);
      }
    }
  }

  /** A run is known once it is known for each name. */
  lemma PlainRunByName(ops: seq<Op>, c: Columns, r: map<string, Column>)
    requires AllPlain(ops) && ColumnsWellFormed(c)
    requires forall n :: RunOne(Filter(ops, AboutColumn(n)), Get(c.byName, n), ColumnEffect()) == Ok(Get(r, n))
    ensures RunColumns(ops, c).Ok? && RunColumns(ops, c).value.byName == r
    ensures ColumnsWellFormed(RunColumns(ops, c).value)
  {
    hide RunOne, Filter;
    var m := c.byName;
    assert Tame(NoBroadcast(), ColumnEffect());
    RunSucceeds(ops, m, ColumnName(), NoBroadcast(), ColumnEffect());
    PlainRun(ops, c);
    var x := RunMap(ops, m).value;
    forall n ensures Get(x, n) == Get(r, n) {
      RunIsLocal(ops, m, ColumnName(), NoBroadcast(), ColumnEffect(), n);
    }
    SameEntries(x, r);
  }

  // ----- renames

  ghost predicate Usable(pairs: seq<(string, string)>, m: map<string, Column>) {
    && (forall i, j :: 0 <= i < j < |pairs| ==> pairs[i].0 != pairs[j].0 && pairs[i].1 != pairs[j].1)
    && (forall i :: 0 <= i < |pairs| ==> pairs[i].0 in m && pairs[i].1 !in m)
  }

  ghost predicate RenamedMap(m: map<string, Column>, pairs: seq<(string, string)>, r: map<string, Column>) {
    && (forall i :: 0 <= i < |pairs| ==>
          pairs[i].0 in m && Get(r, pairs[i].1) == Some(m[pairs[i].0].(name := pairs[i].1)))
    && (forall n :: SourceTaken(pairs, n) && !TargetTaken(pairs, n) ==> n !in r)
    && (forall n :: !SourceTaken(pairs, n) && !TargetTaken(pairs, n) ==> Get(r, n) == Get(m, n))
  }

  lemma {:induction false} RunRenames(schema: string, table: string, pairs: seq<(string, string)>, c: Columns)
    requires ColumnsWellFormed(c) && Usable(pairs, c.byName)
    ensures RunColumns(RenameOps(schema, table, pairs), c).Ok?
    ensures var d := RunColumns(RenameOps(schema, table, pairs), c).value;
      ColumnsWellFormed(d) && RenamedMap(c.byName, pairs, d.byName)
  {
    if pairs == [] {
      assert RunColumns([], c) == Ok(c);
    } else {
      hide Usable, RenamedMap, ColumnsWellFormed, Renamed, RunColumns, EditColumns;
      var init, p := pairs[..|pairs| - 1], pairs[|pairs| - 1];
      assert pairs == init + [p];
      UsablePrefix(init, p, c.byName);
      RunRenames(schema, table, init, c);
      RunColumnsSnoc(RenameOps(schema, table, init), RenameColumnOp(schema, table, p.0, p.1), c);
      var d := RunColumns(RenameOps(schema, table, init), c).value;
      RenameOnce(c.byName, init, p, d);
      EditRename(schema, table, d, p.0, p.1);
    }
  }

  lemma EditRename(schema: string, table: string, d: Columns, a: string, b: string)
    requires ColumnsWellFormed(d) && a in d.byName && b !in d.byName
    ensures a in d.order
    ensures EditColumns(d, RenameColumnOp(schema, table, a, b)) == Ok(Renamed(d, a, b))
  {
  }

  lemma UsablePrefix(init: seq<(string, string)>, p: (string, string), m: map<string, Column>)
    requires Usable(init + [p], m)
    ensures Usable(init, m)
  {
    assert forall i :: 0 <= i < |init| ==> (init + [p])[i] == init[i];
  }

  lemma RenameOnce(m: map<string, Column>, init: seq<(string, string)>, p: (string, string), d: Columns)
    requires Usable(init + [p], m) && RenamedMap(m, init, d.byName) && ColumnsWellFormed(d)
    ensures p.0 in d.byName && p.1 !in d.byName
    ensures ColumnsWellFormed(Renamed(d, p.0, p.1))
    ensures RenamedMap(m, init + [p], Renamed(d, p.0, p.1).byName)
  {
    var pairs := init + [p];
    assert pairs[|init|] == p;
    assert forall i :: 0 <= i < |init| ==> pairs[i] == init[i];
    assert !SourceTaken(init, p.0) && !TargetTaken(init, p.0) && Get(d.byName, p.0) == Get(m, p.0);
    assert !SourceTaken(init, p.1) && !TargetTaken(init, p.1) && Get(d.byName, p.1) == Get(m, p.1);
    assert p.0 in m && p.1 !in m;
    RenamedWellFormed(d, p.0, p.1);
    var r := Renamed(d, p.0, p.1).byName;
    forall n ensures
      && (SourceTaken(pairs, n) <==> SourceTaken(init, n) || n == p.0)
      && (TargetTaken(pairs, n) <==> TargetTaken(init, n) || n == p.1)
    {
      if n == p.0 { assert pairs[|init|].0 == n; }
      if n == p.1 { assert pairs[|init|].1 == n; }
    }
    forall i | 0 <= i < |pairs|
      ensures pairs[i].0 in m && Get(r, pairs[i].1) == Some(m[pairs[i].0].(name := pairs[i].1))
    {
      if i < |init| {
        assert pairs[i].1 != p.1 && pairs[i].1 != p.0;
        assert Get(d.byName, init[i].1).Some?;
      }
    }
  }

  /** The differ's renames can be carried out. */
  lemma {:induction false} MatchesDistinct(s: TableDef, sources: seq<string>, bySig: map<string, string>)
    requires NoDuplicates(sources) && forall n :: n in sources ==> n in s.columns
    ensures forall i :: 0 <= i < |Matches(s, sources, bySig)| ==> Matches(s, sources, bySig)[i].0 in sources
    ensures forall i, j :: 0 <= i < j < |Matches(s, sources, bySig)| ==>
      && Matches(s, sources, bySig)[i].0 != Matches(s, sources, bySig)[j].0
      && Matches(s, sources, bySig)[i].1 != Matches(s, sources, bySig)[j].1
  {
    if sources != [] {
      var init, last := sources[..|sources| - 1], sources[|sources| - 1];
      assert forall n :: n in init ==> n in sources;
      assert last !in init;
      MatchesDistinct(s, init, bySig);
    }
  }

  lemma RenamesUsable(s: TableDef, t: TableDef, m: map<string, Column>)
    requires forall n :: IsSourceOnly(s, t, n) ==> n in m
    requires forall n :: IsTargetOnly(s, t, n) && TargetTaken(Renames(s, t), n) ==> n !in m
    ensures Usable(Renames(s, t), m)
  {
    var pairs := Renames(s, t);
    SortedDistinct(SourceOnly(s, t));
    MatchesDistinct(s, SourceOnly(s, t), BySignature(t, TargetOnly(s, t)));
    forall i | 0 <= i < |pairs| ensures pairs[i].0 in m && pairs[i].1 !in m {
      assert pairs[i] in pairs && pairs[i] == (pairs[i].0, pairs[i].1);
      RenamesExact(s, t, pairs[i].0, pairs[i].1);
      assert TargetTaken(pairs, pairs[i].1);
    }
  }

  // ----- the four groups of operations

  ghost function AddOps(schema: string, s: TableDef, t: TableDef): seq<Op> {
    Flat(TargetOnly(s, t), AddStep(schema, t, Renames(s, t)))
  }

  ghost function DropOps(schema: string, s: TableDef, t: TableDef, walk: seq<string>): seq<Op> {
    Flat(walk, DropStep(schema, s, t, Renames(s, t)))
  }

  ghost function AlterOps(schema: string, s: TableDef, t: TableDef): seq<Op> {
    Flat(t.order, AlterStep(schema, s, t))
  }

  // ----- the operations about one name

  lemma TargetOnlyFacts(s: TableDef, t: TableDef)
    ensures NoDuplicates(TargetOnly(s, t))
    ensures forall n :: n in TargetOnly(s, t) <==> IsTargetOnly(s, t, n)
  {
    SortedDistinct(TargetOnly(s, t));
  }

  lemma AddsAbout(schema: string, s: TableDef, t: TableDef, n: string)
    requires ColumnsNamed(t.columns)
    ensures Filter(AddOps(schema, s, t), AboutColumn(n)) ==
      if IsTargetOnly(s, t, n) && !TargetTaken(Renames(s, t), n)
      then [AddColumnOp(schema, t.name, t.columns[n])] else []
  {
    TargetOnlyFacts(s, t);
    hide Renames, TargetOnly;
    forall k, op | k in TargetOnly(s, t) && op in AddStep(schema, t, Renames(s, t))(k)
      ensures AboutColumn(n)(op) <==> k == n
    {
    }
    FilterFlatOne(TargetOnly(s, t), AddStep(schema, t, Renames(s, t)), AboutColumn(n), n);
  }

  lemma DropsAbout(schema: string, s: TableDef, t: TableDef, walk: seq<string>, n: string)
    requires ListsAll(walk, s.columns.Keys)
    ensures Filter(DropOps(schema, s, t, walk), AboutColumn(n)) ==
      if IsSourceOnly(s, t, n) && !SourceTaken(Renames(s, t), n)
      then [DropColumnOp(schema, s.name, n)] else []
  {
    hide Renames;
    forall k, op | k in walk && op in DropStep(schema, s, t, Renames(s, t))(k)
      ensures AboutColumn(n)(op) <==> k == n
    {
    }
    FilterFlatOne(walk, DropStep(schema, s, t, Renames(s, t)), AboutColumn(n), n);
  }

  lemma ColumnOpsAbout(schema: string, table: string, s: Column, t: Column)
    ensures forall op :: op in ColumnOps(schema, table, s, t) ==>
      IsAlterColumn(op) && op.column == s.name && op.schema == schema && op.table == table
  {
    forall op | op in ColumnOps(schema, table, s, t)
      ensures IsAlterColumn(op) && op.column == s.name && op.schema == schema && op.table == table
    {
      assert op in TypeOps(schema, table, s, t) || op in NullOps(schema, table, s, t) ||
        op in DefaultOps(schema, table, s, t) || op in CollationOps(schema, table, s, t) ||
        op in IdentityOps(schema, table, s, t);
    }
  }

  lemma AltersAbout(schema: string, s: TableDef, t: TableDef, n: string)
    requires TableWellFormed(t) && ColumnsNamed(s.columns)
    ensures Filter(AlterOps(schema, s, t), AboutColumn(n)) ==
      if n in s.columns && n in t.columns then ColumnOps(schema, t.name, s.columns[n], t.columns[n]) else []
  {
    hide ColumnOps;
    forall k, op | k in t.order && op in AlterStep(schema, s, t)(k)
      ensures AboutColumn(n)(op) <==> k == n
    {
      ColumnOpsAbout(schema, t.name, s.columns[k], t.columns[k]);
    }
    FilterFlatOne(t.order, AlterStep(schema, s, t), AboutColumn(n), n);
  }

  lemma AddsPlain(schema: string, s: TableDef, t: TableDef)
    ensures AllPlain(AddOps(schema, s, t))
  {
    hide Renames;
    FlatAll(TargetOnly(s, t), AddStep(schema, t, Renames(s, t)), (op: Op) => IsPlain(op));
  }

  lemma DropsPlain(schema: string, s: TableDef, t: TableDef, walk: seq<string>)
    ensures AllPlain(DropOps(schema, s, t, walk))
  {
    hide Renames;
    FlatAll(walk, DropStep(schema, s, t, Renames(s, t)), (op: Op) => IsPlain(op));
  }

  lemma AltersPlain(schema: string, s: TableDef, t: TableDef)
    ensures AllPlain(AlterOps(schema, s, t))
  {
    hide ColumnOps;
    var plain := (op: Op) => IsPlain(op);
    forall k, op | k in t.order && op in AlterStep(schema, s, t)(k) ensures plain(op) {
      ColumnOpsAbout(schema, t.name, s.columns[k], t.columns[k]);
    }
    FlatAll(t.order, AlterStep(schema, s, t), plain);
  }

  // ----- the result

  /** What becomes of the target's column `n`: an altered common column, a renamed source column
      under its new name, or the target's own. */
  ghost function AfterColumn(s: TableDef, t: TableDef, n: string): Column
    requires n in t.columns
  {
    if n in s.columns then Altered(s.columns[n], t.columns[n])
    else if exists a :: IsRename(s, t, a, n) then
      var a :| IsRename(s, t, a, n);
      s.columns[a].(name := n)
    else t.columns[n]
  }

  ghost function After(s: TableDef, t: TableDef): map<string, Column> {
    map n | n in t.columns :: AfterColumn(s, t, n)
  }

  lemma AfterRename(s: TableDef, t: TableDef, a: string, b: string)
    requires IsRename(s, t, a, b)
    ensures After(s, t)[b] == s.columns[a].(name := b)
  {
    forall c | IsRename(s, t, c, b) ensures c == a { RenamesInjective(s, t, a, b, c, b); }
  }

  /** What the renames leave under each name, when they start from `m`. */
  lemma RenamedEntries(s: TableDef, t: TableDef, m: map<string, Column>, r: map<string, Column>, n: string)
    requires RenamedMap(m, Renames(s, t), r)
    ensures IsSourceOnly(s, t, n) && SourceTaken(Renames(s, t), n) ==> n !in r
    ensures forall a :: IsRename(s, t, a, n) ==> a in m && Get(r, n) == Some(m[a].(name := n))
    ensures !SourceTaken(Renames(s, t), n) && !TargetTaken(Renames(s, t), n) ==> Get(r, n) == Get(m, n)
  {
    var pairs := Renames(s, t);
    RenameTaken(s, t, n);
    forall a | IsRename(s, t, a, n) ensures a in m && Get(r, n) == Some(m[a].(name := n)) {
      RenamesExact(s, t, a, n);
      var i :| 0 <= i < |pairs| && pairs[i] == (a, n);
    }
  }

  lemma NotTaken(s: TableDef, t: TableDef, n: string)
    ensures SourceTaken(Renames(s, t), n) ==> IsSourceOnly(s, t, n)
    ensures TargetTaken(Renames(s, t), n) ==> IsTargetOnly(s, t, n)
  {
    RenameTaken(s, t, n);
  }

  // ----- emission order

  lemma RunNothing(v: Option<Column>)
    ensures RunOne([], v, ColumnEffect()) == Ok(v)
  {
  }

  /** Everything but renames that concerns one name. */
  ghost function OpsAbout(schema: string, s: TableDef, t: TableDef, n: string): seq<Op> {
    if n in s.columns && n in t.columns then ColumnOps(schema, t.name, s.columns[n], t.columns[n])
    else if IsTargetOnly(s, t, n) && !TargetTaken(Renames(s, t), n)
    then [AddColumnOp(schema, t.name, t.columns[n])]
    else if IsSourceOnly(s, t, n) && !SourceTaken(Renames(s, t), n)
    then [DropColumnOp(schema, s.name, n)]
    else []
  }

  lemma RestIsOpsAbout(schema: string, s: TableDef, t: TableDef, walk: seq<string>, n: string)
    requires TableWellFormed(s) && TableWellFormed(t) && ListsAll(walk, s.columns.Keys)
    ensures Filter(AddOps(schema, s, t) + DropOps(schema, s, t, walk) + AlterOps(schema, s, t), AboutColumn(n)) ==
      OpsAbout(schema, s, t, n)
  {
    hide Filter, Flat, ColumnOps, Renames, AboutColumn, AddOps, DropOps, AlterOps;
    AddsAbout(schema, s, t, n);
    DropsAbout(schema, s, t, walk, n);
    AltersAbout(schema, s, t, n);
    FilterThree(AddOps(schema, s, t), DropOps(schema, s, t, walk), AlterOps(schema, s, t), AboutColumn(n));
  }

  lemma FilterThree(a: seq<Op>, b: seq<Op>, c: seq<Op>, p: Op -> bool)
    ensures Filter(a + b + c, p) == Filter(a, p) + Filter(b, p) + Filter(c, p)
  {
    FilterConcat(a + b, c, p);
    FilterConcat(a, b, p);
  }

  /** What a name holds once the renames are done. */
  ghost function Entry(s: TableDef, t: TableDef, n: string): Option<Column> {
    if IsTargetOnly(s, t, n) && TargetTaken(Renames(s, t), n) then Get(After(s, t), n)
    else if IsSourceOnly(s, t, n) && SourceTaken(Renames(s, t), n) then None
    else Get(s.columns, n)
  }

  lemma RenamedEntry(s: TableDef, t: TableDef, v: map<string, Column>, n: string)
    requires RenamedMap(s.columns, Renames(s, t), v)
    ensures Get(v, n) == Entry(s, t, n)
  {
    RenamedEntries(s, t, s.columns, v, n);
    NotTaken(s, t, n);
    RenameTaken(s, t, n);
    hide Renames, RenamedMap, After;
    if TargetTaken(Renames(s, t), n) {
      var a :| IsRename(s, t, a, n);
      AfterRename(s, t, a, n);
    }
  }

  lemma OpsAboutEffect(schema: string, s: TableDef, t: TableDef, n: string)
    ensures RunOne(OpsAbout(schema, s, t, n), Entry(s, t, n), ColumnEffect()) == Ok(Get(After(s, t), n))
  {
    RenameTaken(s, t, n);
    hide Renames, RunOne, ColumnEffect;
    RunNothing(Entry(s, t, n));
    if n in s.columns && n in t.columns {
      ColumnOpsEffect(schema, t.name, s.columns[n], t.columns[n]);
    } else if IsTargetOnly(s, t, n) {
      RunOp(AddColumnOp(schema, t.name, t.columns[n]), None);
    } else if IsSourceOnly(s, t, n) {
      RunOp(DropColumnOp(schema, s.name, n), Some(s.columns[n]));
    }
  }

  lemma AllPlainConcat(a: seq<Op>, b: seq<Op>)
    requires AllPlain(a) && AllPlain(b)
    ensures AllPlain(a + b)
  {
  }

  ghost function RestOps(schema: string, s: TableDef, t: TableDef, walk: seq<string>): seq<Op> {
    AddOps(schema, s, t) + DropOps(schema, s, t, walk) + AlterOps(schema, s, t)
  }

  lemma EmittedShape(schema: string, s: TableDef, t: TableDef, walk: seq<string>)
    ensures TableColumnOps(schema, s, t, walk) ==
      RenameOps(schema, t.name, Renames(s, t)) + RestOps(schema, s, t, walk)
  {
    hide Flat, Renames, RenameOps;
    var r, a, d, l := RenameOps(schema, t.name, Renames(s, t)),
      AddOps(schema, s, t), DropOps(schema, s, t, walk), AlterOps(schema, s, t);
    assert r + a + d + l == r + (a + d + l);
  }

  lemma RestPlain(schema: string, s: TableDef, t: TableDef, walk: seq<string>)
    ensures AllPlain(RestOps(schema, s, t, walk))
  {
    hide Flat, Renames;
    AddsPlain(schema, s, t);
    DropsPlain(schema, s, t, walk);
    AltersPlain(schema, s, t);
    AllPlainConcat(AddOps(schema, s, t), DropOps(schema, s, t, walk));
    AllPlainConcat(AddOps(schema, s, t) + DropOps(schema, s, t, walk), AlterOps(schema, s, t));
  }

  lemma RestRuns(schema: string, s: TableDef, t: TableDef, walk: seq<string>, c: Columns)
    requires TableWellFormed(s) && TableWellFormed(t) && ListsAll(walk, s.columns.Keys)
    requires RenamedMap(s.columns, Renames(s, t), c.byName) && ColumnsWellFormed(c)
    ensures RunColumns(RestOps(schema, s, t, walk), c).Ok?
    ensures RunColumns(RestOps(schema, s, t, walk), c).value.byName == After(s, t)
    ensures ColumnsWellFormed(RunColumns(RestOps(schema, s, t, walk), c).value)
  {
    var rest := RestOps(schema, s, t, walk);
    forall n ensures RunOne(Filter(rest, AboutColumn(n)), Get(c.byName, n), ColumnEffect()) ==
      Ok(Get(After(s, t), n))
    {
      RestIsOpsAbout(schema, s, t, walk, n);
      RenamedEntry(s, t, c.byName, n);
      OpsAboutEffect(schema, s, t, n);
    }
    hide RunColumns, RunOne, RestOps, Filter, ColumnsWellFormed, After;
    RestPlain(schema, s, t, walk);
    PlainRunByName(rest, c, After(s, t));
  }

  /** In emission order every operation applies, and the columns by name end up as `After` says. */
  lemma EmittedColumns(schema: string, s: TableDef, t: TableDef, walk: seq<string>)
    requires TableWellFormed(s) && TableWellFormed(t) && ListsAll(walk, s.columns.Keys)
    ensures RunColumns(TableColumnOps(schema, s, t, walk), Columns(s.order, s.columns)).Ok?
    ensures var c := RunColumns(TableColumnOps(schema, s, t, walk), Columns(s.order, s.columns)).value;
      c.byName == After(s, t) && ColumnsWellFormed(c)
  {
    hide RunColumns, Renames, RestOps, RenameOps, TableColumnOps, RenamedMap, ColumnsWellFormed, After;
    var c0 := Columns(s.order, s.columns);
    TableColumnsWellFormed(s);
    RenamesUsable(s, t, s.columns);
    RunRenames(schema, t.name, Renames(s, t), c0);
    var c1 := RunColumns(RenameOps(schema, t.name, Renames(s, t)), c0).value;
    RestRuns(schema, s, t, walk, c1);
    EmittedShape(schema, s, t, walk);
    RunColumnsConcat(RenameOps(schema, t.name, Renames(s, t)), RestOps(schema, s, t, walk), c0);
  }

  lemma TableColumnsWellFormed(s: TableDef)
    requires TableWellFormed(s)
    ensures ColumnsWellFormed(Columns(s.order, s.columns))
  {
  }
}
