/** Carrying out operations that involve other tables and columns than the object they change.
    CREATE INDEX and ADD CONSTRAINT name columns of their table, a foreign key names a table and
    columns of that, and DROP TABLE leaves foreign keys to the table behind.  PostgreSQL refuses them
    while a name is missing or a foreign key is left; module Semantics does not look.  `Execute` is
    `Apply` with that look.

    What is not looked at: the text of expressions, of an index's WHERE, of types and of views; the
    key that a foreign key needs on the other side; the data; and what else depends on an object
    that is dropped. */
module Execution {
  import opened Catalog
  import opened Operations
  import opened Locality
  import opened TableEdits
  import opened Semantics

  // ----- what an operation names

  function SetOf(names: seq<string>): set<string> {
    set n | n in names
  }

  /** The columns that an index names: by its elements, or by its columns if it has none. */
  function IndexColumns(i: Index): set<string> {
    if i.elements == [] then SetOf(i.columns) else SetOf(ElementNames(i.elements)) - {""}
  }

  function PrimaryKeyColumns(t: TableDef): set<string> {
    if t.primaryKey.Some? then SetOf(t.primaryKey.value.columns) else {}
  }

  /** The columns of each table that is there, by namespace and name. */
  type Lookup = (string, string) -> Option<set<string>>

  predicate Has(columns: Option<set<string>>, names: set<string>) {
    columns.Some? && names <= columns.value
  }

  /** The constraint refers to the table by a foreign key. */
  predicate RefersTo(c: Constraint, ns: string, n: string) {
    IsForeignKey(c) && ReferencedTable(c) == ObjectKey(ns, n, KTable)
  }

  /** The constraint names only what is there; `self` is its table, with the columns `own`, and the
      tables `outside` belong to namespaces that are not compared. */
  predicate ConstraintResolves(c: Constraint, self: ObjectKey, own: set<string>, at: Lookup, outside: set<ObjectKey>) {
    && SetOf(c.columns) <= own
    && (IsForeignKey(c) ==>
          var r := ReferencedTable(c);
          if r == self then SetOf(c.refColumns) <= own
          else r in outside || Has(at(r.schema, r.name), SetOf(c.refColumns)))
  }

  predicate Resolves(op: Op, at: Lookup, outside: set<ObjectKey>) {
    match op
    case AddTableOp(ns, n, def) =>
      && PrimaryKeyColumns(def) <= def.columns.Keys
      && forall i :: i in def.constraints ==>
           ConstraintResolves(def.constraints[i], op.Key(), def.columns.Keys, at, outside)
    case AddConstraintOp(ns, n, c) =>
      at(ns, n).Some? && ConstraintResolves(c, ObjectKey(ns, n, KTable), at(ns, n).value, at, outside)
    case CreateIndexOp(ns, i) => Has(at(ns, i.table), IndexColumns(i))
    case _ => true
  }

  // ----- running

  function ColumnNames(s: SchemaDef, ns: string, n: string): Option<set<string>> {
    if ns in s.schemas && n in s.schemas[ns].tables then Some(s.schemas[ns].tables[n].columns.Keys) else None
  }

  function ColumnsIn(s: SchemaDef): Lookup { (ns: string, n: string) => ColumnNames(s, ns, n) }

  function ConstraintAt(s: SchemaDef, ns: string, n: string, i: string): Option<Constraint> {
    if ns in s.schemas && n in s.schemas[ns].tables then Get(s.schemas[ns].tables[n].constraints, i) else None
  }

  /** Constraint `i` of table `xn` is a foreign key to another table `n`. */
  predicate Binds(s: SchemaDef, xns: string, xn: string, i: string, ns: string, n: string) {
    && (xns, xn) != (ns, n)
    && ConstraintAt(s, xns, xn, i).Some? && RefersTo(ConstraintAt(s, xns, xn, i).value, ns, n)
  }

  /** Another table has a foreign key to this one. */
  ghost predicate Bound(s: SchemaDef, ns: string, n: string) {
    exists xns, xn, i :: Binds(s, xns, xn, i, ns, n)
  }

  /** The operation finds what it names, and drops no table that another one refers to. */
  ghost predicate Permitted(op: Op, s: SchemaDef, outside: set<ObjectKey>) {
    Resolves(op, ColumnsIn(s), outside) && (op.DropTableOp? ==> !Bound(s, op.schema, op.name))
  }

  /** Carrying out operations on a schema, in order: each must apply and be permitted. */
  ghost function Execute(ops: seq<Op>, s: SchemaDef, outside: set<ObjectKey>): Outcome<SchemaDef> {
    if ops == [] then Ok(s) else
    match Execute(ops[..|ops| - 1], s, outside)
    case Fail => Fail
    case Ok(r) => if Permitted(ops[|ops| - 1], r, outside) then ApplyOne(ops[|ops| - 1], r) else Fail
  }

  lemma ApplyNothing(s: SchemaDef)
    ensures Apply([], s) == Ok(s)
  {
  }

  lemma ApplySnoc(ops: seq<Op>, op: Op, s: SchemaDef)
    ensures Apply(ops + [op], s) ==
      if Apply(ops, s).Fail? then Fail else ApplyOne(op, Apply(ops, s).value)
  {
    assert (ops + [op])[..|ops|] == ops;
    hide Step, NamespaceEffect;
  }

  /** Operation `k` finds what it names when its turn comes. */
  ghost predicate ResolvesAt(ops: seq<Op>, k: nat, s: SchemaDef, outside: set<ObjectKey>)
    requires k < |ops|
  {
    Apply(ops[..k], s).Ok? ==> Resolves(ops[k], ColumnsIn(Apply(ops[..k], s).value), outside)
  }

  /** A table that operation `k` drops is not referred to when its turn comes. */
  ghost predicate UnboundAt(ops: seq<Op>, k: nat, s: SchemaDef)
    requires k < |ops|
  {
    Apply(ops[..k], s).Ok? && ops[k].DropTableOp? ==> !Bound(Apply(ops[..k], s).value, ops[k].schema, ops[k].name)
  }

  lemma {:induction false} PrefixApplies(ops: seq<Op>, k: nat, s: SchemaDef)
    requires k <= |ops| && Apply(ops, s).Ok?
    ensures Apply(ops[..k], s).Ok?
  {
    hide Apply, ApplyOne;
    if k == |ops| {
      assert ops[..k] == ops;
    } else {
      var init := ops[..|ops| - 1];
      assert ops == init + [ops[|ops| - 1]];
      ApplySnoc(init, ops[|ops| - 1], s);
      PrefixApplies(init, k, s);
      assert init[..k] == ops[..k];
    }
  }

  /** Operations can be carried out if and only if they apply and each is permitted; and then they
      have the effect they have by themselves. */
  lemma {:induction false} ExecuteExact(ops: seq<Op>, s: SchemaDef, outside: set<ObjectKey>)
    ensures Execute(ops, s, outside).Ok? <==>
      Apply(ops, s).Ok? && forall k: nat :: k < |ops| ==> ResolvesAt(ops, k, s, outside) && UnboundAt(ops, k, s)
    ensures Execute(ops, s, outside).Ok? ==> Execute(ops, s, outside) == Apply(ops, s)
  {
    hide Apply, ApplyOne, Resolves, Bound;
    if ops == [] {
      ApplyNothing(s);
    } else {
      var last := |ops| - 1;
      var init := ops[..last];
      assert ops == init + [ops[last]];
      ApplySnoc(init, ops[last], s);
      ExecuteExact(init, s, outside);
      forall k: nat | k < last
        ensures ResolvesAt(ops, k, s, outside) && UnboundAt(ops, k, s) <==>
          ResolvesAt(init, k, s, outside) && UnboundAt(init, k, s)
      {
        assert init[..k] == ops[..k];
      }
      assert ResolvesAt(ops, last, s, outside) && UnboundAt(ops, last, s) <==>
        (Apply(init, s).Ok? ==> Permitted(ops[last], Apply(init, s).value, outside));
    }
  }

  // ----- what stays along a run

  /** Only operations that touch it change what is viewed. */
  ghost predicate Keeps<T(!new)>(touches: Op -> bool, view: SchemaDef -> T) {
    forall op, s :: ApplyOne(op, s).Ok? && !touches(op) ==> view(ApplyOne(op, s).value) == view(s)
  }

  /** As long as no operation touches it, it stays. */
  lemma {:induction false} StaysBefore<T(!new)>(ops: seq<Op>, s: SchemaDef, k: nat, touches: Op -> bool,
                                                view: SchemaDef -> T)
    requires Keeps(touches, view) && k <= |ops| && Apply(ops[..k], s).Ok?
    requires forall i :: 0 <= i < k ==> !touches(ops[i])
    ensures view(Apply(ops[..k], s).value) == view(s)
  {
    hide Apply, ApplyOne;
    if k == 0 {
      ApplyNothing(s);
    } else {
      assert ops[..k] == ops[..k - 1] + [ops[k - 1]];
      ApplySnoc(ops[..k - 1], ops[k - 1], s);
      StaysBefore(ops, s, k - 1, touches, view);
    }
  }

  /** Once the last operation that touches it is behind, it is what it ends as. */
  lemma {:induction false} StaysAfter<T(!new)>(ops: seq<Op>, s: SchemaDef, k: nat, touches: Op -> bool,
                                               view: SchemaDef -> T)
    requires Keeps(touches, view) && k <= |ops| && Apply(ops, s).Ok?
    requires forall i :: k <= i < |ops| ==> !touches(ops[i])
    ensures Apply(ops[..k], s).Ok?
    ensures view(Apply(ops[..k], s).value) == view(Apply(ops, s).value)
    decreases |ops| - k
  {
    hide Apply, ApplyOne;
    PrefixApplies(ops, k, s);
    if k == |ops| {
      assert ops[..k] == ops;
    } else {
      assert ops[..k + 1] == ops[..k] + [ops[k]];
      StaysAfter(ops, s, k + 1, touches, view);
      ApplySnoc(ops[..k], ops[k], s);
    }
  }

  // ----- the columns of a table along a run

  /** The operation makes or removes the table, or one of its columns. */
  function Touches(ns: string, n: string): Op -> bool {
    (op: Op) => op.schema == ns && (op.DropSchemaOp? || ShapesTable(op, n))
  }

  predicate ShapesTable(op: Op, n: string) {
    match op
    case AddTableOp(_, m, _) => m == n
    case DropTableOp(_, m) => m == n
    case AddColumnOp(_, m, _) => m == n
    case DropColumnOp(_, m, _) => m == n
    case RenameColumnOp(_, m, _, _) => m == n
    case _ => false
  }

  /** What an operation in a namespace does to the columns of a table there. */
  lemma TableKeeps(op: Op, t: TableDef)
    requires EditTable(t, op).Ok? && !op.AddColumnOp? && !op.DropColumnOp? && !op.RenameColumnOp?
    ensures EditTable(t, op).value.columns.Keys == t.columns.Keys
  {
    hide Step, AlterColumn;
  }

  lemma NamespaceKeeps(op: Op, ns: NamespaceDef, n: string)
    requires EditNamespace(ns, op).Ok? && !ShapesTable(op, n)
    ensures var r := EditNamespace(ns, op).value;
      && (n in r.tables <==> n in ns.tables)
      && (n in ns.tables ==> r.tables[n].columns.Keys == ns.tables[n].columns.Keys)
  {
    EffectsTame();
    hide EditTable, TypeEffect, ViewEffect, SequenceEffect, ExtensionEffect;
    if PartOf(op) == Tables && n in ns.tables && (op.DropIndexOp? || TableOf(op) == n) {
      if EditTable(ns.tables[n], op).Ok? { TableKeeps(op, ns.tables[n]); }
    }
  }

  lemma NamespaceStep(op: Op, s: SchemaDef, ns: string)
    requires ApplyOne(op, s).Ok?
    ensures var r := ApplyOne(op, s).value;
      if op.schema != ns then Get(r.schemas, ns) == Get(s.schemas, ns)
      else if op.CreateSchemaOp? then
        Get(r.schemas, ns) == Some(if ns in s.schemas then s.schemas[ns] else EmptyNamespace(ns))
      else if op.DropSchemaOp? then Get(r.schemas, ns) == None
      else
        && ns in s.schemas && EditNamespace(s.schemas[ns], op).Ok?
        && Get(r.schemas, ns) == Some(EditNamespace(s.schemas[ns], op).value)
  {
    hide EditNamespace;
  }

  lemma ColumnNamesOf(s: SchemaDef, ns: string, n: string)
    ensures ColumnNames(s, ns, n) ==
      match Get(s.schemas, ns)
      case None => None
      case Some(a) => if n in a.tables then Some(a.tables[n].columns.Keys) else None
  {
  }

  lemma Untouched(op: Op, s: SchemaDef, ns: string, n: string)
    requires ApplyOne(op, s).Ok? && !Touches(ns, n)(op)
    ensures ColumnNames(ApplyOne(op, s).value, ns, n) == ColumnNames(s, ns, n)
  {
    hide ApplyOne, EditNamespace, ColumnNames;
    NamespaceStep(op, s, ns);
    ColumnNamesOf(s, ns, n);
    ColumnNamesOf(ApplyOne(op, s).value, ns, n);
    if op.schema == ns && !op.CreateSchemaOp? { NamespaceKeeps(op, s.schemas[ns], n); }
  }

  function ColumnsView(ns: string, n: string): SchemaDef -> Option<set<string>> {
    (s: SchemaDef) => ColumnNames(s, ns, n)
  }

  lemma ColumnsKept(ns: string, n: string)
    ensures Keeps(Touches(ns, n), ColumnsView(ns, n))
  {
    hide ApplyOne, ColumnNames, Touches;
    forall op, s | ApplyOne(op, s).Ok? && !Touches(ns, n)(op)
      ensures ColumnsView(ns, n)(ApplyOne(op, s).value) == ColumnsView(ns, n)(s)
    {
      Untouched(op, s, ns, n);
    }
  }

  // ----- the constraints of a table along a run

  /** The operation makes or removes the table or its constraint `i`. */
  function TouchesConstraint(ns: string, n: string, i: string): Op -> bool {
    (op: Op) => op.schema == ns && (op.DropSchemaOp? || ShapesConstraint(op, n, i))
  }

  predicate ShapesConstraint(op: Op, n: string, i: string) {
    match op
    case AddTableOp(_, m, _) => m == n
    case DropTableOp(_, m) => m == n
    case AddConstraintOp(_, m, c) => m == n && c.name == i
    case DropConstraintOp(_, m, j) => m == n && j == i
    case _ => false
  }

  lemma TableKeepsConstraint(op: Op, t: TableDef, i: string)
    requires EditTable(t, op).Ok? && !(op.AddConstraintOp? && op.constraint.name == i)
    requires !(op.DropConstraintOp? && op.name == i)
    ensures Get(EditTable(t, op).value.constraints, i) == Get(t.constraints, i)
  {
    hide AlterColumn, EditColumns;
  }

  lemma NamespaceKeepsConstraint(op: Op, ns: NamespaceDef, n: string, i: string)
    requires EditNamespace(ns, op).Ok? && !ShapesConstraint(op, n, i)
    ensures var r := EditNamespace(ns, op).value;
      && (n in r.tables <==> n in ns.tables)
      && (n in ns.tables ==> Get(r.tables[n].constraints, i) == Get(ns.tables[n].constraints, i))
  {
    EffectsTame();
    hide EditTable, TypeEffect, ViewEffect, SequenceEffect, ExtensionEffect;
    if PartOf(op) == Tables && n in ns.tables && (op.DropIndexOp? || TableOf(op) == n) {
      if EditTable(ns.tables[n], op).Ok? { TableKeepsConstraint(op, ns.tables[n], i); }
    }
  }

  lemma ConstraintAtOf(s: SchemaDef, ns: string, n: string, i: string)
    ensures ConstraintAt(s, ns, n, i) ==
      match Get(s.schemas, ns)
      case None => None
      case Some(a) => if n in a.tables then Get(a.tables[n].constraints, i) else None
  {
  }

  function ConstraintView(ns: string, n: string, i: string): SchemaDef -> Option<Constraint> {
    (s: SchemaDef) => ConstraintAt(s, ns, n, i)
  }

  lemma ConstraintKept(ns: string, n: string, i: string)
    ensures Keeps(TouchesConstraint(ns, n, i), ConstraintView(ns, n, i))
  {
    hide ApplyOne, EditNamespace, ConstraintAt;
    forall op, s | ApplyOne(op, s).Ok? && !TouchesConstraint(ns, n, i)(op)
      ensures ConstraintView(ns, n, i)(ApplyOne(op, s).value) == ConstraintView(ns, n, i)(s)
    {
      NamespaceStep(op, s, ns);
      ConstraintAtOf(s, ns, n, i);
      ConstraintAtOf(ApplyOne(op, s).value, ns, n, i);
      if op.schema == ns && !op.CreateSchemaOp? { NamespaceKeepsConstraint(op, s.schemas[ns], n, i); }
    }
  }

  // ----- pre-deploy operations only make tables and columns

  function MakesTable(ns: string, n: string): Op -> bool {
    (op: Op) => op.AddTableOp? && op.schema == ns && op.name == n
  }

  function MakesColumn(ns: string, n: string, x: string): Op -> bool {
    (op: Op) =>
      || (op.AddColumnOp? && op.schema == ns && op.table == n && op.col.name == x)
      || (op.AddTableOp? && op.schema == ns && op.name == n && x in op.tableDef.columns)
  }

  ghost predicate Any(ops: seq<Op>, p: Op -> bool) {
    exists op :: op in ops && p(op)
  }

  lemma PreTable(op: Op, ns: NamespaceDef, n: string)
    requires EditNamespace(ns, op).Ok? && ShapesTable(op, n) && StageOf(op) == PreDeploy
    ensures var r := EditNamespace(ns, op).value;
      && n in r.tables
      && (op.AddTableOp? ==> n !in ns.tables && r.tables[n].columns.Keys == op.tableDef.columns.Keys)
      && (!op.AddTableOp? ==> op.AddColumnOp? && n in ns.tables)
      && (!op.AddTableOp? ==> r.tables[n].columns.Keys == ns.tables[n].columns.Keys + {op.col.name})
  {
    if op.AddTableOp? {
      var made := Created(op.schema, op.name, op.tableDef);
      assert TableEffect()(op, None) == Ok(Some(made));
      assert made.columns == op.tableDef.columns;
    } else {
      assert op.AddColumnOp?;
    }
  }

  lemma PreStep(op: Op, s: SchemaDef, ns: string, n: string)
    requires StageOf(op) == PreDeploy && ApplyOne(op, s).Ok?
    ensures var a, b := ColumnNames(s, ns, n), ColumnNames(ApplyOne(op, s).value, ns, n);
      && (b.Some? <==> a.Some? || MakesTable(ns, n)(op))
      && forall x :: b.Some? && x in b.value <==> (a.Some? && x in a.value) || MakesColumn(ns, n, x)(op)
  {
    assert !op.DropSchemaOp? && !op.DropTableOp? && !op.DropColumnOp? && !op.RenameColumnOp?;
    hide ApplyOne, EditNamespace, ColumnNames, StageOf;
    if Touches(ns, n)(op) {
      NamespaceStep(op, s, ns);
      ColumnNamesOf(s, ns, n);
      ColumnNamesOf(ApplyOne(op, s).value, ns, n);
      PreTable(op, s.schemas[ns], n);
    } else {
      Untouched(op, s, ns, n);
    }
  }

  /** While only pre-deploy operations have run, a table has what it had and what they made. */
  lemma {:induction false} PreColumns(ops: seq<Op>, s: SchemaDef, ns: string, n: string)
    requires (forall op :: op in ops ==> StageOf(op) == PreDeploy) && Apply(ops, s).Ok?
    ensures var a, b := ColumnNames(s, ns, n), ColumnNames(Apply(ops, s).value, ns, n);
      && (b.Some? <==> a.Some? || Any(ops, MakesTable(ns, n)))
      && forall x :: b.Some? && x in b.value <==> (a.Some? && x in a.value) || Any(ops, MakesColumn(ns, n, x))
  {
    hide Apply, ApplyOne, ColumnNames, StageOf, MakesTable, MakesColumn;
    if ops == [] {
      ApplyNothing(s);
    } else {
      var init, op := ops[..|ops| - 1], ops[|ops| - 1];
      assert ops == init + [op];
      assert op in ops && forall x :: x in ops <==> x in init || x == op;
      ApplySnoc(init, op, s);
      PreColumns(init, s, ns, n);
      PreStep(op, Apply(init, s).value, ns, n);
      AnySnoc(init, op, MakesTable(ns, n));
      forall x ensures Any(ops, MakesColumn(ns, n, x)) <==>
        Any(init, MakesColumn(ns, n, x)) || MakesColumn(ns, n, x)(op)
      {
        AnySnoc(init, op, MakesColumn(ns, n, x));
      }
    }
  }

  lemma AnySnoc(init: seq<Op>, op: Op, p: Op -> bool)
    ensures Any(init + [op], p) <==> Any(init, p) || p(op)
  {
    assert forall x :: x in init + [op] <==> x in init || x == op;
    assert op in init + [op];
  }
}
