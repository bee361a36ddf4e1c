/** When every operation of the differ finds the tables and columns that it names, in emission
    order. */
module Resolution {
  import opened Catalog
  import opened Operations
  import opened Names
  import opened Lists
  import opened DiffSpec
  import opened Locality
  import opened Semantics
  import opened Execution
  import opened DiffShape
  import opened TableSteps
  import opened SchemaMigration
  import opened Convergence
  import opened PlannedDiff
  import opened EmissionOrder

  // ----- the operations that name other things

  predicate Creating(op: Op) {
    op.AddTableOp? || op.CreateIndexOp? || op.AddConstraintOp?
  }

  predicate AddsIndex(a: TableDef, b: TableDef, i: Index) {
    i.name in b.indexes && b.indexes[i.name] == i && (i.name in a.indexes ==> !SameIndex(a.indexes[i.name], i))
  }

  predicate AddsConstraint(a: TableDef, b: TableDef, c: Constraint) {
    && c.name in b.constraints && b.constraints[c.name] == c
    && (c.name in a.constraints ==> ConstraintChanged(a.constraints[c.name], c))
  }

  /** The operation creates a new table, or an index or a constraint that is new or changed on a
      table that both schemas have. */
  predicate Creates(s: SchemaDef, t: SchemaDef, op: Op) {
    && op.schema in t.schemas
    && var u, v := SourceOf(s, op.schema).tables, t.schemas[op.schema].tables;
       match op
       case AddTableOp(_, n, def) => n !in u && n in v && def == v[n]
       case CreateIndexOp(_, i) => i.table in u && i.table in v && AddsIndex(u[i.table], v[i.table], i)
       case AddConstraintOp(_, n, c) => n in u && n in v && AddsConstraint(u[n], v[n], c)
       case _ => false
  }

  /** Three walks give the operation if and only if one of them gives it at a given name. */
  lemma InThreeWalks(names: seq<string>, f: string -> seq<Op>, g: string -> seq<Op>, others: seq<string>,
                     h: string -> seq<Op>, n: string, op: Op, there: bool)
    requires forall k :: op in f(k) || op in g(k) ==> k == n && there
    requires there ==> n in names && (op in f(n) || op in g(n))
    requires forall k :: op !in h(k)
    ensures (op in Flat(names, f) || op in Flat(others, h) || op in Flat(names, g)) <==> there
  {
    hide Flat;
    if op in Flat(names, f) { var k := FlatMember(names, f, op); }
    if op in Flat(names, g) { var k := FlatMember(names, g, op); }
    if op in Flat(others, h) { var k := FlatMember(others, h, op); }
    if there {
      if op in f(n) { FlatHas(names, f, n, op); } else { FlatHas(names, g, n, op); }
    }
  }

  lemma IndexAtStep(ns: string, a: TableDef, b: TableDef, i: Index, k: string)
    requires IndexesNamed(b)
    ensures var op := CreateIndexOp(ns, i);
      && (op in NewIndexStep(ns, a, b)(k) || op in ChangedIndexStep(ns, a, b)(k) <==>
            k == i.name && AddsIndex(a, b, i))
      && op !in OldIndexStep(ns, a, b)(k)
  {
    hide SameIndex;
  }

  lemma CreatesIndex(ns: string, a: TableDef, b: TableDef, i: Index)
    requires IndexesNamed(b)
    ensures CreateIndexOp(ns, i) in TableIndexOps(ns, a, b) <==> AddsIndex(a, b, i)
  {
    assert AddsIndex(a, b, i) ==> i.name in b.indexes.Keys;
    hide NewIndexStep, OldIndexStep, ChangedIndexStep, Flat, AddsIndex, IndexesNamed;
    var op := CreateIndexOp(ns, i);
    forall k ensures
      && (op in NewIndexStep(ns, a, b)(k) || op in ChangedIndexStep(ns, a, b)(k) <==>
            k == i.name && AddsIndex(a, b, i))
      && op !in OldIndexStep(ns, a, b)(k)
    {
      IndexAtStep(ns, a, b, i, k);
    }
    InThreeWalks(Sorted(b.indexes.Keys), NewIndexStep(ns, a, b), ChangedIndexStep(ns, a, b), Sorted(a.indexes.Keys),
                 OldIndexStep(ns, a, b), i.name, op, AddsIndex(a, b, i));
  }

  lemma ConstraintAtStep(ns: string, a: TableDef, b: TableDef, c: Constraint, k: string)
    requires ConstraintsNamed(b)
    ensures var op := AddConstraintOp(ns, b.name, c);
      && (op in NewConstraintStep(ns, a, b)(k) || op in ChangedConstraintStep(ns, a, b)(k) <==>
            k == c.name && AddsConstraint(a, b, c))
      && op !in OldConstraintStep(ns, a, b)(k)
  {
    hide ConstraintChanged;
  }

  lemma CreatesConstraint(ns: string, a: TableDef, b: TableDef, c: Constraint)
    requires ConstraintsNamed(b)
    ensures AddConstraintOp(ns, b.name, c) in TableConstraintOps(ns, a, b) <==> AddsConstraint(a, b, c)
  {
    assert AddsConstraint(a, b, c) ==> c.name in b.constraints.Keys;
    hide NewConstraintStep, OldConstraintStep, ChangedConstraintStep, Flat, AddsConstraint, ConstraintsNamed;
    var op := AddConstraintOp(ns, b.name, c);
    forall k ensures
      && (op in NewConstraintStep(ns, a, b)(k) || op in ChangedConstraintStep(ns, a, b)(k) <==>
            k == c.name && AddsConstraint(a, b, c))
      && op !in OldConstraintStep(ns, a, b)(k)
    {
      ConstraintAtStep(ns, a, b, c, k);
    }
    InThreeWalks(Sorted(b.constraints.Keys), NewConstraintStep(ns, a, b), ChangedConstraintStep(ns, a, b),
                 Sorted(a.constraints.Keys), OldConstraintStep(ns, a, b), c.name, op, AddsConstraint(a, b, c));
  }

  lemma CreatingPart(ops: seq<Op>, ns: string, n: string, part: TablePart, op: Op)
    requires AllOf(ops, ForTable(ns, n, part)) && op in ops && Creating(op)
    ensures op.schema == ns && TableOf(op) == n
    ensures (part == IndexPart && op.CreateIndexOp?) || (part == ConstraintPart && op.AddConstraintOp?)
      || part == WholeTable
  {
    assert ForTable(ns, n, part)(op);
  }

  lemma TableNames(t: TableDef)
    requires TableWellFormed(t)
    ensures IndexesNamed(t) && ConstraintsNamed(t) && forall i :: i in t.indexes ==> t.indexes[i].table == t.name
  {
  }

  /** What the operations for a common table create. */
  ghost predicate TableCreates(ns: string, a: TableDef, b: TableDef, op: Op) {
    && op.schema == ns && TableOf(op) == b.name
    && (op.CreateIndexOp? ==> AddsIndex(a, b, op.index))
    && (op.AddConstraintOp? ==> AddsConstraint(a, b, op.constraint))
    && !op.AddTableOp?
  }

  lemma NoColumnCreates(ns: string, a: TableDef, b: TableDef, walk: seq<string>, op: Op)
    requires a.name == b.name && Creating(op)
    ensures op !in TableColumnOps(ns, a, b, walk)
  {
    hide *;
    ColumnsHome(ns, a, b, walk);
    if op in TableColumnOps(ns, a, b, walk) {
      CreatingPart(TableColumnOps(ns, a, b, walk), ns, b.name, ColumnPart, op);
    }
  }

  lemma IndexCreating(ns: string, a: TableDef, b: TableDef, op: Op)
    requires a.name == b.name && TableWellFormed(b) && Creating(op)
    ensures op in TableIndexOps(ns, a, b) <==> op.CreateIndexOp? && TableCreates(ns, a, b, op)
  {
    TableNames(b);
    hide TableIndexOps, AllOf, TableWellFormed, AddsConstraint, ForTable, ConstraintsNamed, IndexesNamed, SameIndex;
    if op in TableIndexOps(ns, a, b) {
      IndexesHome(ns, a, b);
      CreatingPart(TableIndexOps(ns, a, b), ns, b.name, IndexPart, op);
    }
    if op.CreateIndexOp? && op.schema == ns { CreatesIndex(ns, a, b, op.index); }
  }

  lemma ConstraintCreating(ns: string, a: TableDef, b: TableDef, op: Op)
    requires a.name == b.name && TableWellFormed(b) && Creating(op)
    ensures op in TableConstraintOps(ns, a, b) <==> op.AddConstraintOp? && TableCreates(ns, a, b, op)
  {
    hide TableConstraintOps, AllOf, TableWellFormed, AddsIndex, AddsConstraint, ForTable, ConstraintsNamed,
      IndexesNamed;
    TableNames(b);
    if op in TableConstraintOps(ns, a, b) {
      ConstraintsHome(ns, a, b);
      CreatingPart(TableConstraintOps(ns, a, b), ns, b.name, ConstraintPart, op);
    }
    if op.AddConstraintOp? && op.schema == ns && op.table == b.name { CreatesConstraint(ns, a, b, op.constraint); }
  }

  lemma TableCreating(ns: string, a: TableDef, b: TableDef, walk: seq<string>, op: Op)
    requires a.name == b.name && TableWellFormed(b) && Creating(op)
    ensures op in CommonTableOps(ns, a, b, walk) <==> TableCreates(ns, a, b, op)
  {
    hide TableColumnOps, TableIndexOps, TableConstraintOps, TableWellFormed, AddsIndex, AddsConstraint;
    NoColumnCreates(ns, a, b, walk, op);
    IndexCreating(ns, a, b, op);
    ConstraintCreating(ns, a, b, op);
  }

  // ----- the same for a namespace and for the whole list

  /** The operation creates the new table `k`. */
  predicate NewCreates(u: NamespaceDef, v: NamespaceDef, k: string, op: Op) {
    k !in u.tables && k in v.tables && op == AddTableOp(v.name, k, v.tables[k])
  }

  lemma NewTableCreates(u: NamespaceDef, v: NamespaceDef, k: string, op: Op)
    requires Creating(op)
    ensures op in NewTableStep(u, v)(k) <==> NewCreates(u, v, k, op)
    ensures op !in OldTableStep(u, v)(k)
  {
  }

  /** The operation is one that the step for table `k` gives. */
  ghost predicate CommonCreates(u: NamespaceDef, v: NamespaceDef, k: string, op: Op) {
    k in u.tables && k in v.tables && TableCreates(u.name, u.tables[k], v.tables[k], op)
  }

  lemma CommonStepCreates(u: NamespaceDef, v: NamespaceDef, walk: Walk, k: string, op: Op)
    requires SameNamed(u, v) && Creating(op)
    ensures op in CommonTableStep(u, v, walk)(k) <==> CommonCreates(u, v, k, op)
  {
    hide SameNamed, CommonTableOps, TableCreates, TableWellFormed;
    if k in u.tables && k in v.tables {
      TablesWellFormed(u, v, k);
      TableCreating(u.name, u.tables[k], v.tables[k], walk(u.name, k), op);
    }
  }

  lemma CreatesAtOwn(u: NamespaceDef, v: NamespaceDef, k: string, op: Op)
    requires SameNamed(u, v) && CommonCreates(u, v, k, op)
    ensures k == TableOf(op)
  {
    hide SameNamed;
    TablesWellFormed(u, v, k);
  }

  ghost predicate NamespaceCreates(u: NamespaceDef, v: NamespaceDef, op: Op) {
    NewCreates(u, v, TableOf(op), op) || CommonCreates(u, v, TableOf(op), op)
  }

  lemma CreatesNoTable(u: NamespaceDef, v: NamespaceDef, k: string, op: Op)
    requires CommonCreates(u, v, k, op)
    ensures !op.AddTableOp? && op.schema == u.name
  {
  }

  lemma NamespaceCreating(u: NamespaceDef, v: NamespaceDef, walk: Walk, op: Op)
    requires SameNamed(u, v) && Creating(op)
    ensures op in TablesOps(u, v, walk) <==> NamespaceCreates(u, v, op)
  {
    var f, g, h, n := NewTableStep(u, v), OldTableStep(u, v), CommonTableStep(u, v, walk), TableOf(op);
    var names, others := Sorted(v.tables.Keys), Sorted(u.tables.Keys);
    assert u.name == v.name;
    assert op.AddTableOp? ==> TableOf(op) == op.name;
    assert CommonCreates(u, v, n, op) ==> n in v.tables;
    hide SameNamed, NewTableStep, OldTableStep, CommonTableStep, Flat, CommonCreates, TableOf;
    forall k ensures op !in g(k) && (op in f(k) <==> NewCreates(u, v, k, op)) { NewTableCreates(u, v, k, op); }
    forall k ensures op in h(k) <==> CommonCreates(u, v, k, op) { CommonStepCreates(u, v, walk, k, op); }
    forall k | CommonCreates(u, v, k, op) ensures k == n && !op.AddTableOp? && op.schema == u.name {
      CreatesAtOwn(u, v, k, op);
      CreatesNoTable(u, v, k, op);
    }
    InThreeWalks(names, f, h, others, g, n, op, NamespaceCreates(u, v, op));
    assert op in TablesOps(u, v, walk) <==> op in Flat(names, f) || op in Flat(others, g) || op in Flat(names, h);
  }

  lemma NamesHere(s: SchemaDef, t: SchemaDef, ns: string, n: string)
    requires WellFormed(s) && WellFormed(t) && ns in t.schemas
    ensures SourceOf(s, ns).name == ns && t.schemas[ns].name == ns
    ensures n in t.schemas[ns].tables ==> t.schemas[ns].tables[n].name == n
  {
    SourceSameNamed(s, t, ns);
    hide TableWellFormed;
  }

  lemma CreatesHere(s: SchemaDef, t: SchemaDef, op: Op)
    requires WellFormed(s) && WellFormed(t) && Creating(op) && op.schema in t.schemas
    ensures Creates(s, t, op) <==> NamespaceCreates(SourceOf(s, op.schema), t.schemas[op.schema], op)
  {
    hide WellFormed, AddsIndex, AddsConstraint, SourceOf;
    NamesHere(s, t, op.schema, TableOf(op));
  }

  lemma CreatingIsTables(op: Op)
    requires Creating(op)
    ensures PartOf(op) == Tables
  {
  }

  lemma MemberOfPart(ops: seq<Op>, op: Op, part: Part)
    requires PartOf(op) == part
    ensures op in ops <==> op in Filter(Filter(ops, OfSchema(op.schema)), InPart(part))
  {
    hide Filter, PartOf;
  }

  lemma NothingThere(s: SchemaDef, t: SchemaDef, walk: Walk, ns: string)
    requires WellFormed(s) && WellFormed(t) && ns !in t.schemas
    ensures Filter(Filter(DiffOps(s, t, walk), OfSchema(ns)), InPart(Tables)) == []
  {
    hide WellFormed, DiffOps, Filter, TargetNamespaceStep, OldNamespaceStep;
    SchemaOps(s, t, walk, ns);
    NothingButDrop(s, t, walk, ns);
  }

  /** What the differ creates. */
  lemma DiffCreates(s: SchemaDef, t: SchemaDef, walk: Walk, op: Op)
    requires WellFormed(s) && WellFormed(t) && Creating(op)
    ensures op in DiffOps(s, t, walk) <==> Creates(s, t, op)
  {
    hide *;
    var ns := op.schema;
    CreatingIsTables(op);
    MemberOfPart(DiffOps(s, t, walk), op, Tables);
    if ns in t.schemas {
      SourceSameNamed(s, t, ns);
      DiffOfTables(s, t, walk, ns);
      NamespaceCreating(SourceOf(s, ns), t.schemas[ns], walk, op);
      CreatesHere(s, t, op);
    } else {
      NothingThere(s, t, walk, ns);
      CreatesInTarget(s, t, op);
    }
  }

  lemma CreatesInTarget(s: SchemaDef, t: SchemaDef, op: Op)
    ensures Creates(s, t, op) ==> op.schema in t.schemas
  {
  }

  // ----- emission order

  /** The columns of every table when the operation's turn comes in emission order: the target's
      for its own table and for those dealt with before, the source's for the others. */
  ghost function AtEmission(s: SchemaDef, t: SchemaDef, op: Op): Lookup {
    (ns: string, n: string) =>
      if (ns, n) == (op.schema, TableOf(op)) || Earlier(s, t, ns, n, op.schema, TableOf(op))
      then ColumnNames(t, ns, n) else ColumnNames(s, ns, n)
  }

  /** Everything that is created finds what it names, in emission order. */
  ghost predicate ResolvesAsEmitted(s: SchemaDef, t: SchemaDef, outside: set<ObjectKey>) {
    forall op :: Creates(s, t, op) ==> Resolves(op, AtEmission(s, t, op), outside)
  }

  /** A table of the target's namespaces ends with the target's columns. */
  lemma ColumnsInTheEnd(order: Order, s: SchemaDef, t: SchemaDef, r: SchemaDef, ns: string, n: string)
    requires Migrated(order, s, t, r) && ns in t.schemas
    ensures ColumnNames(r, ns, n) == ColumnNames(t, ns, n)
  {
    hide NamespaceMigrated;
    assert NamespaceDone(order, s, t, ns, Get(r.schemas, ns));
    SameTables(order, SourceOf(s, ns), t.schemas[ns], r.schemas[ns]);
    if n in r.schemas[ns].tables {
      MigratedColumns(order, SourceOf(s, ns), t.schemas[ns], r.schemas[ns], n);
    }
  }

  lemma CreatingIsMine(op: Op)
    requires Creating(op)
    ensures Mine(op.schema, TableOf(op))(op)
    ensures !op.AddTableOp? ==> Uses(op.schema, TableOf(op))(op)
  {
  }

  lemma MineTouchesNoOther(op: Op, ns: string, n: string)
    requires Creating(op) && (ns, n) != (op.schema, TableOf(op))
    ensures !Touches(ns, n)(op)
  {
  }

  lemma UsesTouchNothing(op: Op, ns: string, n: string)
    requires Creating(op) && !op.AddTableOp?
    ensures !Touches(ns, n)(op)
  {
  }

  /** Nothing touches the table from place `k` on, or nothing did before. */
  lemma TouchesOver(ops: seq<Op>, k: nat, p: Op -> bool, q: Op -> bool)
    requires k < |ops| && AllBefore(ops, p, q) && q(ops[k]) && !p(ops[k])
    ensures forall i :: k <= i < |ops| ==> !p(ops[i])
  {
  }

  lemma TouchesAhead(ops: seq<Op>, k: nat, p: Op -> bool, q: Op -> bool)
    requires k < |ops| && AllBefore(ops, q, p) && q(ops[k])
    ensures forall i :: 0 <= i < k ==> !p(ops[i])
  {
  }

  lemma OwnTableCommon(s: SchemaDef, t: SchemaDef, op: Op)
    requires Creates(s, t, op)
    ensures op.schema in t.schemas
    ensures !op.AddTableOp? ==> IsCommon(s, t, op.schema, TableOf(op))
  {
  }

  /** The columns of a table that a creating operation may look at. */
  lemma EmittedLookup(s: SchemaDef, t: SchemaDef, walk: Walk, k: nat, ns: string, n: string)
    requires WellFormed(s) && WellFormed(t) && Walks(walk, s) && k < |DiffOps(s, t, walk)|
    requires var op := DiffOps(s, t, walk)[k];
      Creating(op) && (op.AddTableOp? ==> (ns, n) != (op.schema, TableOf(op)))
    ensures var op := DiffOps(s, t, walk)[k];
      Apply(DiffOps(s, t, walk)[..k], s).Ok? &&
      ColumnNames(Apply(DiffOps(s, t, walk)[..k], s).value, ns, n) == AtEmission(s, t, op)(ns, n)
  {
    hide WellFormed, Walks, DiffOps, Apply, Migrated, Earlier, Touches, Mine, Uses, Creates, Creating, AllBefore,
      TableOf, ColumnNames, IsCommon;
    var ops := DiffOps(s, t, walk);
    var op := ops[k];
    DiffApplies(s, t, walk);
    PrefixApplies(ops, k, s);
    DiffCreates(s, t, walk, op);
    OwnTableCommon(s, t, op);
    CreatingIsMine(op);
    var mine := (op.schema, TableOf(op));
    if (ns, n) == mine {
      UsesTouchNothing(op, ns, n);
      ColumnsFirst(s, t, walk, ns, n);
      TouchesOver(ops, k, Touches(ns, n), Uses(ns, n));
    } else {
      MineTouchesNoOther(op, ns, n);
      TouchOrder(s, t, walk, ns, n, mine.0, mine.1);
      if Earlier(s, t, ns, n, mine.0, mine.1) {
        TouchesOver(ops, k, Touches(ns, n), Mine(mine.0, mine.1));
      } else {
        TouchesAhead(ops, k, Touches(ns, n), Mine(mine.0, mine.1));
      }
    }
    ColumnsKept(ns, n);
    if (ns, n) == mine || Earlier(s, t, ns, n, mine.0, mine.1) {
      StaysAfter(ops, s, k, Touches(ns, n), ColumnsView(ns, n));
      EarlierInTarget(s, t, ns, n, mine.0, mine.1);
      ColumnsInTheEnd(AsEmitted, s, t, Apply(ops, s).value, ns, n);
    } else {
      StaysBefore(ops, s, k, Touches(ns, n), ColumnsView(ns, n));
    }
  }

  lemma EarlierInTarget(s: SchemaDef, t: SchemaDef, rns: string, rn: string, xns: string, xn: string)
    ensures Earlier(s, t, rns, rn, xns, xn) ==> rns in t.schemas
  {
  }

  /** The tables whose columns the operation looks up. */
  predicate LooksAt(op: Op, ns: string, n: string) {
    match op
    case AddTableOp(ms, m, def) =>
      (ns, n) != (ms, m) && exists i :: i in def.constraints && RefersTo(def.constraints[i], ns, n)
    case AddConstraintOp(ms, m, c) => (ns, n) == (ms, m) || RefersTo(c, ns, n)
    case CreateIndexOp(ms, i) => (ns, n) == (ms, i.table)
    case _ => false
  }

  lemma ConstraintResolvesAlike(c: Constraint, self: ObjectKey, own: set<string>, a: Lookup, b: Lookup,
                                outside: set<ObjectKey>)
    requires forall ns, n :: RefersTo(c, ns, n) && ObjectKey(ns, n, KTable) != self ==> a(ns, n) == b(ns, n)
    ensures ConstraintResolves(c, self, own, a, outside) == ConstraintResolves(c, self, own, b, outside)
  {
    hide SetOf;
    if IsForeignKey(c) {
      var r := ReferencedTable(c);
      assert r == ObjectKey(r.schema, r.name, KTable);
      assert RefersTo(c, r.schema, r.name);
    }
  }

  /** Only tables that the operation looks at matter. */
  lemma ResolvesAlike(op: Op, a: Lookup, b: Lookup, outside: set<ObjectKey>)
    requires Creating(op) && forall ns, n :: LooksAt(op, ns, n) ==> a(ns, n) == b(ns, n)
    ensures Resolves(op, a, outside) == Resolves(op, b, outside)
  {
    hide ConstraintResolves, RefersTo;
    if op.AddTableOp? {
      assert op.Key() == ObjectKey(op.schema, op.name, KTable);
      forall i | i in op.tableDef.constraints
        ensures ConstraintResolves(op.tableDef.constraints[i], op.Key(), op.tableDef.columns.Keys, a, outside) ==
          ConstraintResolves(op.tableDef.constraints[i], op.Key(), op.tableDef.columns.Keys, b, outside)
      {
        forall ns, n | RefersTo(op.tableDef.constraints[i], ns, n) && ObjectKey(ns, n, KTable) != op.Key()
          ensures a(ns, n) == b(ns, n)
        {
          assert LooksAt(op, ns, n);
        }
        ConstraintResolvesAlike(op.tableDef.constraints[i], op.Key(), op.tableDef.columns.Keys, a, b, outside);
      }
    } else if op.AddConstraintOp? {
      assert LooksAt(op, op.schema, op.table);
      forall ns, n | RefersTo(op.constraint, ns, n) ensures a(ns, n) == b(ns, n) {
        assert LooksAt(op, ns, n);
      }
      if a(op.schema, op.table).Some? {
        ConstraintResolvesAlike(op.constraint, ObjectKey(op.schema, op.table, KTable), a(op.schema, op.table).value,
                                a, b, outside);
      }
    } else {
      assert LooksAt(op, op.schema, op.index.table);
    }
  }

  lemma OthersResolve(op: Op, at: Lookup, outside: set<ObjectKey>)
    requires !Creating(op)
    ensures Resolves(op, at, outside)
  {
  }

  lemma NotItself(op: Op, ns: string, n: string)
    requires LooksAt(op, ns, n)
    ensures op.AddTableOp? ==> (ns, n) != (op.schema, TableOf(op))
  {
  }

  lemma ResolvesEmitted(s: SchemaDef, t: SchemaDef, walk: Walk, k: nat, outside: set<ObjectKey>)
    requires WellFormed(s) && WellFormed(t) && Walks(walk, s) && k < |DiffOps(s, t, walk)|
    ensures var ops := DiffOps(s, t, walk);
      ResolvesAt(ops, k, s, outside) <==> (Creating(ops[k]) ==> Resolves(ops[k], AtEmission(s, t, ops[k]), outside))
  {
    hide WellFormed, Walks, DiffOps, Apply, Resolves, Creating, AtEmission, TableOf, ColumnNames, LooksAt;
    var ops := DiffOps(s, t, walk);
    DiffApplies(s, t, walk);
    PrefixApplies(ops, k, s);
    var r := Apply(ops[..k], s).value;
    if Creating(ops[k]) {
      forall ns, n | LooksAt(ops[k], ns, n) ensures ColumnsIn(r)(ns, n) == AtEmission(s, t, ops[k])(ns, n) {
        NotItself(ops[k], ns, n);
        EmittedLookup(s, t, walk, k, ns, n);
      }
      ResolvesAlike(ops[k], ColumnsIn(r), AtEmission(s, t, ops[k]), outside);
    } else {
      OthersResolve(ops[k], ColumnsIn(r), outside);
    }
  }

  /** In emission order all operations find what they name if and only if all that create do. */
  lemma DiffResolves(s: SchemaDef, t: SchemaDef, walk: Walk, outside: set<ObjectKey>)
    requires WellFormed(s) && WellFormed(t) && Walks(walk, s)
    ensures var ops := DiffOps(s, t, walk);
      (forall k: nat :: k < |ops| ==> ResolvesAt(ops, k, s, outside)) <==> ResolvesAsEmitted(s, t, outside)
  {
    hide WellFormed, Walks, DiffOps, Apply, Resolves, AtEmission, ResolvesAt;
    var ops := DiffOps(s, t, walk);
    forall k: nat | k < |ops|
      ensures ResolvesAt(ops, k, s, outside) <==>
        (Creates(s, t, ops[k]) ==> Resolves(ops[k], AtEmission(s, t, ops[k]), outside))
    {
      ResolvesEmitted(s, t, walk, k, outside);
      if Creating(ops[k]) { DiffCreates(s, t, walk, ops[k]); }
    }
    if forall k: nat :: k < |ops| ==> ResolvesAt(ops, k, s, outside) {
      forall op | Creates(s, t, op) ensures Resolves(op, AtEmission(s, t, op), outside) {
        DiffCreates(s, t, walk, op);
        var k :| 0 <= k < |ops| && ops[k] == op;
        assert ResolvesAt(ops, k, s, outside);
      }
    }
  }
}
