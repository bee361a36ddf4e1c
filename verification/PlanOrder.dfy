/** What a plan puts before what: the pre-deploy stage of the differ's operations, in which tables,
    columns, indexes and constraints are created. */
module PlanOrder {
  import opened Catalog
  import opened Operations
  import opened Names
  import opened Graphs
  import opened Lists
  import opened Dag
  import opened Planner
  import opened PlanTheorems
  import opened Cycles
  import opened DiffSpec
  import opened Semantics
  import opened Execution
  import opened DiffShape
  import opened TableSteps
  import opened PlannedDiff
  import opened EmissionOrder
  import opened Resolution

  // ----- what an operation waits for, read off the schemas

  predicate IsNew(s: SchemaDef, t: SchemaDef, ns: string, n: string) {
    ns in t.schemas && n in t.schemas[ns].tables && n !in SourceOf(s, ns).tables
  }

  /** A foreign key of the table refers to table `rn` of `rns`. */
  predicate PointsAt(def: TableDef, rns: string, rn: string) {
    exists i :: i in def.constraints && RefersTo(def.constraints[i], rns, rn)
  }

  /** The new table refers to another new table. */
  predicate NeedsNew(s: SchemaDef, t: SchemaDef, ns: string, n: string, rns: string, rn: string) {
    && IsNew(s, t, ns, n) && IsNew(s, t, rns, rn) && (ns, n) != (rns, rn)
    && PointsAt(t.schemas[ns].tables[n], rns, rn)
  }

  /** The table refers to no other new table. */
  ghost predicate Free(s: SchemaDef, t: SchemaDef, ns: string, n: string) {
    forall rns, rn :: !NeedsNew(s, t, ns, n, rns, rn)
  }

  /** Two constraints that are added share their key (the names of table and constraint joined by a
      dot), and the first is on the earlier table. */
  predicate Shadows(other: Op, op: Op) {
    other.AddConstraintOp? && op.AddConstraintOp? && other.Key() == op.Key() && Less(other.table, op.table)
  }

  ghost predicate Shadowed(s: SchemaDef, t: SchemaDef, op: Op) {
    exists other :: Creates(s, t, other) && Shadows(other, op)
  }

  /** The operation depends on another pre-deploy operation. */
  ghost predicate Waits(s: SchemaDef, t: SchemaDef, op: Op) {
    match op
    case AddTableOp(ns, n, _) => !Free(s, t, ns, n)
    case AddConstraintOp(_, _, _) => Shadowed(s, t, op)
    case _ => false
  }

  // ----- the pre-deploy stage

  ghost function Pre(s: SchemaDef, t: SchemaDef, walk: Walk): seq<Op> {
    OpsOfStage(DiffOps(s, t, walk), PreDeploy)
  }

  lemma PreMember(s: SchemaDef, t: SchemaDef, walk: Walk, op: Op)
    ensures op in Pre(s, t, walk) <==> op in DiffOps(s, t, walk) && StageOf(op) == PreDeploy
  {
    hide DiffOps, StageOf;
  }

  lemma PreAt(s: SchemaDef, t: SchemaDef, walk: Walk, u: nat)
    requires u < |Pre(s, t, walk)|
    ensures Pre(s, t, walk)[u] in DiffOps(s, t, walk) && StageOf(Pre(s, t, walk)[u]) == PreDeploy
  {
    hide Pre;
    PreMember(s, t, walk, Pre(s, t, walk)[u]);
  }

  lemma PreBefore(s: SchemaDef, t: SchemaDef, walk: Walk, p: Op -> bool, q: Op -> bool)
    requires AllBefore(DiffOps(s, t, walk), p, q)
    ensures AllBefore(Pre(s, t, walk), p, q)
  {
    hide DiffOps, AllBefore, StageOf, Filter;
    FilterBefore(DiffOps(s, t, walk), (op: Op) => StageOf(op) == PreDeploy, p, q);
  }

  lemma CreatingIsEarly(op: Op)
    requires Creating(op) || op.AddColumnOp?
    ensures StageOf(op) == PreDeploy
  {
  }

  lemma KeyIsTable(op: Op, ns: string, n: string)
    requires StageOf(op) == PreDeploy && op.Key() == ObjectKey(ns, n, KTable)
    ensures op.AddTableOp? && op.schema == ns && op.name == n
  {
  }

  lemma TableKey(op: Op)
    requires op.AddTableOp?
    ensures op.Key() == ObjectKey(op.schema, op.name, KTable)
  {
  }

  lemma CreatesNew(s: SchemaDef, t: SchemaDef, op: Op)
    requires Creates(s, t, op) && op.AddTableOp?
    ensures IsNew(s, t, op.schema, op.name) && op.tableDef == t.schemas[op.schema].tables[op.name]
  {
  }

  lemma NewIsCreated(s: SchemaDef, t: SchemaDef, walk: Walk, ns: string, n: string) returns (u: nat)
    requires WellFormed(s) && WellFormed(t) && IsNew(s, t, ns, n)
    ensures u < |Pre(s, t, walk)| && Pre(s, t, walk)[u] == AddTableOp(ns, n, t.schemas[ns].tables[n])
  {
    var op := AddTableOp(ns, n, t.schemas[ns].tables[n]);
    assert Creates(s, t, op);
    hide WellFormed, DiffOps, Creates, Pre, StageOf;
    CreatingIsEarly(op);
    DiffCreates(s, t, walk, op);
    PreMember(s, t, walk, op);
    u :| 0 <= u < |Pre(s, t, walk)| && Pre(s, t, walk)[u] == op;
  }

  /** No pre-deploy operation has the key of a table that the source has. */
  lemma NoTableKey(s: SchemaDef, t: SchemaDef, walk: Walk, ns: string, n: string)
    requires WellFormed(s) && WellFormed(t) && n in SourceOf(s, ns).tables
    ensures Resolve(Pre(s, t, walk), ObjectKey(ns, n, KTable)).None?
  {
    hide WellFormed, DiffOps, Pre, Creates, StageOf, Op.Key;
    forall i: nat ensures !HasKey(Pre(s, t, walk), ObjectKey(ns, n, KTable), i) {
      if i < |Pre(s, t, walk)| {
        var op := Pre(s, t, walk)[i];
        PreAt(s, t, walk, i);
        if op.Key() == ObjectKey(ns, n, KTable) {
          KeyIsTable(op, ns, n);
          DiffCreates(s, t, walk, op);
          CreatesNew(s, t, op);
        }
      }
    }
  }

  lemma NoDeps(ops: seq<Op>, u: nat)
    requires u < |ops|
    requires forall key :: key in ops[u].DependsOn() ==> Resolve(ops, key).None? || Resolve(ops, key).value == u
    ensures DepsOf(ops, u) == {}
  {
    hide Op.DependsOn, Resolve;
  }

  lemma TableIsDep(op: Op)
    requires op.CreateIndexOp? || op.AddColumnOp?
    ensures op.DependsOn() == {ObjectKey(op.schema, TableOf(op), KTable)}
  {
  }

  /** Columns and indexes of a table of the source wait for nothing. */
  lemma ColumnOrIndexFree(s: SchemaDef, t: SchemaDef, walk: Walk, u: nat)
    requires WellFormed(s) && WellFormed(t) && u < |Pre(s, t, walk)|
    requires var op := Pre(s, t, walk)[u];
      (op.CreateIndexOp? || op.AddColumnOp?) && TableOf(op) in SourceOf(s, op.schema).tables
    ensures DepsOf(Pre(s, t, walk), u) == {}
  {
    hide WellFormed, Pre, Resolve, Op.DependsOn, DepsOf, TableOf;
    var op := Pre(s, t, walk)[u];
    TableIsDep(op);
    NoTableKey(s, t, walk, op.schema, TableOf(op));
    NoDeps(Pre(s, t, walk), u);
  }

  // ----- new tables

  lemma OneOp(s: SchemaDef, t: SchemaDef, walk: Walk, i: nat, j: nat)
    requires WellFormed(s) && WellFormed(t) && i < |Pre(s, t, walk)| && j < |Pre(s, t, walk)|
    requires var ops := Pre(s, t, walk); ops[i].AddTableOp? && ops[j].AddTableOp? && ops[i].Key() == ops[j].Key()
    ensures i == j
  {
    DiffAddsTablesOnce(s, t, walk, true);
    hide WellFormed, DiffOps, OpsOfStage, Op.Key;
    StageTablesOnce(DiffOps(s, t, walk));
    assert TablesAddedOnce(Pre(s, t, walk));
  }

  lemma TableDependsOn(op: Op, rns: string, rn: string)
    requires op.AddTableOp?
    ensures ObjectKey(rns, rn, KTable) in op.DependsOn() <==> PointsAt(op.tableDef, rns, rn)
    ensures forall key :: key in op.DependsOn() ==> key.kind == KTable
  {
  }

  lemma DepOfTable(ops: seq<Op>, u: nat, d: nat)
    requires u < |ops|
    ensures d in DepsOf(ops, u) ==>
      d < |ops| && d != u && ops[d].Key() in ops[u].DependsOn() && Resolve(ops, ops[d].Key()) == Some(d)
    ensures d < |ops| && d != u && ops[d].Key() in ops[u].DependsOn() && Resolve(ops, ops[d].Key()) == Some(d) ==>
      d in DepsOf(ops, u)
  {
    hide Op.Key, Op.DependsOn;
    if d in DepsOf(ops, u) {
      var key :| key in ops[u].DependsOn() && Resolve(ops, key).Some? && Resolve(ops, key).value == d && d != u;
      assert HasKey(ops, key, d);
    }
  }

  lemma ResolvesToTable(s: SchemaDef, t: SchemaDef, walk: Walk, d: nat)
    requires WellFormed(s) && WellFormed(t) && d < |Pre(s, t, walk)| && Pre(s, t, walk)[d].AddTableOp?
    ensures Resolve(Pre(s, t, walk), Pre(s, t, walk)[d].Key()) == Some(d)
  {
    hide WellFormed, Pre, Op.Key, StageOf;
    var ops := Pre(s, t, walk);
    var key := ops[d].Key();
    assert HasKey(ops, key, d);
    var r := Resolve(ops, key).value;
    assert HasKey(ops, key, r);
    PreAt(s, t, walk, r);
    TableKey(ops[d]);
    KeyIsTable(ops[r], ops[d].schema, ops[d].name);
    OneOp(s, t, walk, r, d);
  }

  lemma NeedsIsDep(s: SchemaDef, t: SchemaDef, walk: Walk, u: nat, d: nat)
    requires WellFormed(s) && WellFormed(t) && u < |Pre(s, t, walk)| && d < |Pre(s, t, walk)|
    requires Pre(s, t, walk)[u].AddTableOp? && Pre(s, t, walk)[d].AddTableOp?
    ensures var a, b := Pre(s, t, walk)[u], Pre(s, t, walk)[d];
      d in DepsOf(Pre(s, t, walk), u) <==> NeedsNew(s, t, a.schema, a.name, b.schema, b.name)
  {
    hide WellFormed, DiffOps, Pre, Creates, Resolve, DepsOf, Op.Key, Op.DependsOn, StageOf, IsNew;
    var ops := Pre(s, t, walk);
    PreAt(s, t, walk, u);
    PreAt(s, t, walk, d);
    DiffCreates(s, t, walk, ops[u]);
    DiffCreates(s, t, walk, ops[d]);
    CreatesNew(s, t, ops[u]);
    CreatesNew(s, t, ops[d]);
    TableKey(ops[u]);
    TableKey(ops[d]);
    TableDependsOn(ops[u], ops[d].schema, ops[d].name);
    ResolvesToTable(s, t, walk, d);
    DepOfTable(ops, u, d);
    if ops[u].Key() == ops[d].Key() { OneOp(s, t, walk, u, d); }
  }

  lemma DepIsTable(s: SchemaDef, t: SchemaDef, walk: Walk, u: nat, d: nat)
    requires WellFormed(s) && WellFormed(t) && u < |Pre(s, t, walk)| && Pre(s, t, walk)[u].AddTableOp?
    requires d in DepsOf(Pre(s, t, walk), u)
    ensures d < |Pre(s, t, walk)| && Pre(s, t, walk)[d].AddTableOp?
  {
    hide WellFormed, Pre, Resolve, DepsOf, Op.Key, Op.DependsOn, StageOf;
    var ops := Pre(s, t, walk);
    DepOfTable(ops, u, d);
    var key := ops[d].Key();
    TableDependsOn(ops[u], key.schema, key.name);
    PreAt(s, t, walk, d);
    KeyIsTable(ops[d], key.schema, key.name);
  }

  /** A new table waits exactly for the other new tables it refers to. */
  lemma TableFree(s: SchemaDef, t: SchemaDef, walk: Walk, u: nat)
    requires WellFormed(s) && WellFormed(t) && u < |Pre(s, t, walk)| && Pre(s, t, walk)[u].AddTableOp?
    ensures var op := Pre(s, t, walk)[u];
      DepsOf(Pre(s, t, walk), u) == {} <==> Free(s, t, op.schema, op.name)
  {
    hide WellFormed, Pre, DepsOf, NeedsNew;
    var ops := Pre(s, t, walk);
    var op := ops[u];
    if DepsOf(ops, u) != {} {
      var d :| d in DepsOf(ops, u);
      DepIsTable(s, t, walk, u, d);
      NeedsIsDep(s, t, walk, u, d);
    }
    if !Free(s, t, op.schema, op.name) {
      var rns, rn :| NeedsNew(s, t, op.schema, op.name, rns, rn);
      assert IsNew(s, t, rns, rn) by { NeededIsNew(s, t, op.schema, op.name, rns, rn); }
      var d := NewIsCreated(s, t, walk, rns, rn);
      NeedsIsDep(s, t, walk, u, d);
    }
  }

  lemma NeededIsNew(s: SchemaDef, t: SchemaDef, ns: string, n: string, rns: string, rn: string)
    requires NeedsNew(s, t, ns, n, rns, rn)
    ensures IsNew(s, t, rns, rn) && IsNew(s, t, ns, n)
  {
  }

  // ----- constraints of common tables

  function Same(c: Op): Op -> bool { (op: Op) => op == c }

  lemma FilterShort(ops: seq<Op>, p: Op -> bool)
    requires |ops| <= 1 || (|ops| == 2 && !p(ops[0]))
    ensures |Filter(ops, p)| <= 1
  {
    if |ops| == 2 {
      assert ops == [ops[0]] + [ops[1]];
      FilterConcat([ops[0]], [ops[1]], p);
      FilterNone([ops[0]], p);
    }
  }

  lemma AddIsOfConstraint(ns: string, n: string, c: Constraint)
    ensures OfConstraint(ns, n, c.name)(AddConstraintOp(ns, n, c))
  {
    var op := AddConstraintOp(ns, n, c);
    assert TableOf(op) == n && PartOfTable(op) == ConstraintPart && ConstraintName()(op) == c.name;
  }

  lemma AddedOnce(s: SchemaDef, t: SchemaDef, walk: Walk, op: Op)
    requires WellFormed(s) && WellFormed(t) && Creates(s, t, op) && op.AddConstraintOp?
    ensures |Filter(DiffOps(s, t, walk), Same(op))| <= 1
  {
    OwnTableCommon(s, t, op);
    var ns, n, i := op.schema, op.table, op.constraint.name;
    var a, b := s.schemas[ns].tables[n], t.schemas[ns].tables[n];
    hide WellFormed, DiffOps, Filter, Creates, OfConstraint, ConstraintChanged, OwnConstraintOps, IsCommon;
    AddIsOfConstraint(ns, n, op.constraint);
    DiffOfConstraint(s, t, walk, ns, n, i);
    OwnConstraintShape(ns, a, b, i);
    FilterFilter(DiffOps(s, t, walk), OfConstraint(ns, n, i), Same(op), Same(op));
    FilterShort(OwnConstraintOps(ns, a, b, i), Same(op));
  }

  lemma OneConstraintOp(s: SchemaDef, t: SchemaDef, walk: Walk, i: nat, j: nat)
    requires WellFormed(s) && WellFormed(t) && i < |Pre(s, t, walk)| && j < |Pre(s, t, walk)|
    requires Pre(s, t, walk)[i].AddConstraintOp? && Pre(s, t, walk)[i] == Pre(s, t, walk)[j]
    ensures i == j
  {
    hide WellFormed, DiffOps, Filter, Creates, StageOf, Pre;
    var op := Pre(s, t, walk)[i];
    PreAt(s, t, walk, i);
    DiffCreates(s, t, walk, op);
    AddedOnce(s, t, walk, op);
    PreOnce(s, t, walk, Same(op));
    if i < j {
      TwoSelected(Pre(s, t, walk), Same(op), i, j);
    } else if j < i {
      TwoSelected(Pre(s, t, walk), Same(op), j, i);
    }
  }

  lemma PreOnce(s: SchemaDef, t: SchemaDef, walk: Walk, p: Op -> bool)
    ensures |Filter(Pre(s, t, walk), p)| <= |Filter(DiffOps(s, t, walk), p)|
  {
    hide DiffOps, Filter, StageOf;
    FilterShrinks(DiffOps(s, t, walk), (op: Op) => StageOf(op) == PreDeploy, p);
  }

  lemma SameSuffix(a: string, x: string, y: string)
    requires a + "." + x == a + "." + y
    ensures x == y
  {
    var p, u, w := a + ".", a + "." + x, a + "." + y;
    assert u == w && u[|p|..] == w[|p|..];
    assert u[|p|..] == x && w[|p|..] == y;
  }

  /** Two additions with the same key on the same table are the same. */
  lemma SameAddition(s: SchemaDef, t: SchemaDef, x: Op, y: Op)
    requires Creates(s, t, x) && Creates(s, t, y) && x.AddConstraintOp? && y.AddConstraintOp?
    requires x.Key() == y.Key() && x.table == y.table
    ensures x == y
  {
    hide ConstraintChanged;
    SameSuffix(x.table, x.constraint.name, y.constraint.name);
  }

  lemma ConstraintKeyKind(x: Op, y: Op)
    requires StageOf(x) == PreDeploy && y.AddConstraintOp? && x.Key() == y.Key()
    ensures x.AddConstraintOp? && x.schema == y.schema
  {
  }

  lemma BothCommon(s: SchemaDef, t: SchemaDef, ns: string, a: string, b: string)
    requires IsCommon(s, t, ns, a) && IsCommon(s, t, ns, b)
    ensures Earlier(s, t, ns, a, ns, b) <==> Less(a, b)
  {
  }

  /** Of two additions on different tables of a namespace the earlier table's comes first. */
  lemma AdditionOrder(s: SchemaDef, t: SchemaDef, walk: Walk, i: nat, j: nat)
    requires WellFormed(s) && WellFormed(t) && i < |Pre(s, t, walk)| && j < |Pre(s, t, walk)|
    requires var x, y := Pre(s, t, walk)[i], Pre(s, t, walk)[j];
      x.AddConstraintOp? && y.AddConstraintOp? && x.schema == y.schema && Less(x.table, y.table)
    ensures i < j
  {
    hide WellFormed, DiffOps, Creates, StageOf, Pre, IsCommon, Mine, Earlier;
    var ops := Pre(s, t, walk);
    var ns, a, b := ops[i].schema, ops[i].table, ops[j].table;
    PreAt(s, t, walk, i);
    PreAt(s, t, walk, j);
    DiffCreates(s, t, walk, ops[i]);
    DiffCreates(s, t, walk, ops[j]);
    OwnTableCommon(s, t, ops[i]);
    OwnTableCommon(s, t, ops[j]);
    LessAsymmetric(a, b);
    BothCommon(s, t, ns, a, b);
    CreatingIsMine(ops[i]);
    CreatingIsMine(ops[j]);
    SameNamespaceBefore(s, t, walk, ns, a, b);
    PreBefore(s, t, walk, Mine(ns, a), Mine(ns, b));
  }

  lemma ConstraintDependsOn(op: Op)
    requires op.AddConstraintOp?
    ensures op.DependsOn() == {ObjectKey(op.schema, op.table, KTable), op.Key()}
  {
  }

  lemma TwoDeps(ops: seq<Op>, v: nat, x: ObjectKey, y: ObjectKey)
    requires v < |ops| && ops[v].DependsOn() == {x, y} && Resolve(ops, x).None? && Resolve(ops, y).Some?
    ensures DepsOf(ops, v) == if Resolve(ops, y).value == v then {} else {Resolve(ops, y).value}
  {
    hide Op.DependsOn, Resolve;
    var r := Resolve(ops, y).value;
    forall d ensures d in DepsOf(ops, v) <==> d == r && r != v {
      if d == r && r != v { assert y in ops[v].DependsOn(); }
    }
  }

  lemma ConstraintResolvesTo(s: SchemaDef, t: SchemaDef, walk: Walk, v: nat) returns (r: nat)
    requires WellFormed(s) && WellFormed(t) && v < |Pre(s, t, walk)| && Pre(s, t, walk)[v].AddConstraintOp?
    ensures var ops := Pre(s, t, walk);
      && r <= v && ops[r].AddConstraintOp? && ops[r].Key() == ops[v].Key() && ops[r].schema == ops[v].schema
      && Resolve(ops, ops[v].Key()) == Some(r)
      && DepsOf(ops, v) == (if r == v then {} else {r})
  {
    hide WellFormed, DiffOps, Creates, StageOf, Pre, IsCommon, Resolve, DepsOf, Op.Key, Op.DependsOn;
    var ops := Pre(s, t, walk);
    var op := ops[v];
    PreAt(s, t, walk, v);
    DiffCreates(s, t, walk, op);
    OwnTableCommon(s, t, op);
    InSource(s, t, op.schema, op.table);
    NoTableKey(s, t, walk, op.schema, op.table);
    assert HasKey(ops, op.Key(), v);
    r := Resolve(ops, op.Key()).value;
    assert HasKey(ops, op.Key(), r);
    PreStage(s, t, walk);
    NoDropsFirstMatch(ops, v, r);
    PreAt(s, t, walk, r);
    ConstraintKeyKind(ops[r], op);
    ConstraintDependsOn(op);
    TwoDeps(ops, v, ObjectKey(op.schema, op.table, KTable), op.Key());
  }

  lemma InSource(s: SchemaDef, t: SchemaDef, ns: string, n: string)
    requires IsCommon(s, t, ns, n)
    ensures n in SourceOf(s, ns).tables
  {
  }

  lemma PreStage(s: SchemaDef, t: SchemaDef, walk: Walk)
    ensures OfStage(Pre(s, t, walk), PreDeploy)
  {
    hide DiffOps, StageOf, Pre;
    forall op | op in Pre(s, t, walk) ensures StageOf(op) == PreDeploy { PreMember(s, t, walk, op); }
  }

  /** An addition waits exactly for an earlier one with the same key, which waits for nothing. */
  lemma ConstraintDeps(s: SchemaDef, t: SchemaDef, walk: Walk, v: nat) returns (r: nat)
    requires WellFormed(s) && WellFormed(t) && v < |Pre(s, t, walk)| && Pre(s, t, walk)[v].AddConstraintOp?
    ensures var ops := Pre(s, t, walk);
      && r < |ops| && ops[r].AddConstraintOp? && ops[r].schema == ops[v].schema
      && DepsOf(ops, r) == {}
      && DepsOf(ops, v) == (if r == v then {} else {r})
      && (r != v <==> Shadowed(s, t, ops[v]))
  {
    hide WellFormed, DiffOps, Creates, StageOf, Pre, Resolve, DepsOf, Op.Key, Op.DependsOn;
    var ops := Pre(s, t, walk);
    r := ConstraintResolvesTo(s, t, walk, v);
    var again := ConstraintResolvesTo(s, t, walk, r);
    PreAt(s, t, walk, v);
    PreAt(s, t, walk, r);
    DiffCreates(s, t, walk, ops[v]);
    DiffCreates(s, t, walk, ops[r]);
    if r != v {
      if ops[r].table == ops[v].table {
        SameAddition(s, t, ops[r], ops[v]);
        OneConstraintOp(s, t, walk, r, v);
      }
      LessTotal(ops[r].table, ops[v].table);
      if Less(ops[v].table, ops[r].table) { AdditionOrder(s, t, walk, v, r); }
      assert Shadows(ops[r], ops[v]);
    }
    if Shadowed(s, t, ops[v]) {
      var other :| Creates(s, t, other) && Shadows(other, ops[v]);
      ShadowedFirst(s, t, walk, v, r, other);
    }
  }

  lemma ShadowedFirst(s: SchemaDef, t: SchemaDef, walk: Walk, v: nat, r: nat, other: Op)
    requires WellFormed(s) && WellFormed(t) && v < |Pre(s, t, walk)| && Pre(s, t, walk)[v].AddConstraintOp?
    requires Creates(s, t, other) && Shadows(other, Pre(s, t, walk)[v])
    requires Resolve(Pre(s, t, walk), Pre(s, t, walk)[v].Key()) == Some(r)
    ensures r != v
  {
    hide WellFormed, DiffOps, Creates, StageOf, Pre, Resolve, Op.Key;
    var ops := Pre(s, t, walk);
    CreatingIsEarly(other);
    DiffCreates(s, t, walk, other);
    PreMember(s, t, walk, other);
    var j: nat :| j < |ops| && ops[j] == other;
    ConstraintKeyKind(other, ops[v]);
    AdditionOrder(s, t, walk, j, v);
    PreStage(s, t, walk);
    NoDropsFirstMatch(ops, j, r);
  }

  // ----- places in the sorted stage

  /** Pre-deploy operations that a creating one may have to find: the place of the first against
      that of the second. */
  lemma WaitsIsDeps(s: SchemaDef, t: SchemaDef, walk: Walk, v: nat)
    requires WellFormed(s) && WellFormed(t) && v < |Pre(s, t, walk)| && Creating(Pre(s, t, walk)[v])
    ensures DepsOf(Pre(s, t, walk), v) == {} <==> !Waits(s, t, Pre(s, t, walk)[v])
  {
    hide WellFormed, DiffOps, Creates, StageOf, Pre, DepsOf, Free, Shadowed, TableOf, IsCommon;
    var op := Pre(s, t, walk)[v];
    if op.AddTableOp? {
      TableFree(s, t, walk, v);
    } else if op.AddConstraintOp? {
      var r := ConstraintDeps(s, t, walk, v);
    } else {
      PreAt(s, t, walk, v);
      DiffCreates(s, t, walk, op);
      OwnTableCommon(s, t, op);
      InSource(s, t, op.schema, TableOf(op));
      ColumnOrIndexFree(s, t, walk, v);
    }
  }

  /** `order` is how the list is sorted. */
  ghost predicate Orders(ops: seq<Op>, order: seq<nat>, sorted: seq<Op>) {
    && IsSortOrder(ops, order) && sorted == PickOps(ops, order)
    && Distinct(order) && (forall i: nat :: i < |ops| ==> i in order)
  }

  lemma GetOrder(ops: seq<Op>, sorted: seq<Op>) returns (order: seq<nat>)
    requires IsSorted(ops, sorted)
    ensures Orders(ops, order, sorted) && |order| == |ops| == |sorted|
    ensures forall k :: 0 <= k < |order| ==> order[k] < |ops| && sorted[k] == ops[order[k]]
    ensures Valid(GraphOf(ops)) && |GraphOf(ops).deps| == |ops| && Acyclic(GraphOf(ops))
  {
    hide IsSchedule, GraphOf, Acyclic;
    order := SortedFacts(ops, sorted);
    GraphSize(ops);
  }

  lemma InPrefix(ops: seq<Op>, order: seq<nat>, sorted: seq<Op>, k: nat, m: Op)
    requires Orders(ops, order, sorted) && |order| == |ops| == |sorted| && k < |sorted|
    requires forall i :: 0 <= i < |order| ==> order[i] < |ops| && sorted[i] == ops[order[i]]
    ensures m in sorted[..k] <==> exists u: nat :: u < |ops| && ops[u] == m && Precedes(order, u, order[k])
  {
    hide IsSortOrder, PickOps;
    if m in sorted[..k] {
      var i :| 0 <= i < k && sorted[..k][i] == m;
      assert sorted[i] == m && Precedes(order, order[i], order[k]);
      assert ops[order[i]] == m;
    }
    if exists u: nat :: u < |ops| && ops[u] == m && Precedes(order, u, order[k]) {
      var u: nat :| u < |ops| && ops[u] == m && Precedes(order, u, order[k]);
      var i, j :| 0 <= i < j < |order| && order[i] == u && order[j] == order[k];
      assert j == k;
      assert sorted[..k][i] == m;
    }
  }

  /** Where a root stands against another operation of the stage. */
  lemma RootPlace(ops: seq<Op>, order: seq<nat>, sorted: seq<Op>, u: nat, v: nat)
    requires Orders(ops, order, sorted) && u < |ops| && v < |ops| && u != v
    requires DepsOf(ops, u) == {} || DepsOf(ops, v) == {}
    ensures Precedes(order, u, v) <==> DepsOf(ops, u) == {} && (DepsOf(ops, v) == {} ==> u < v)
  {
    hide DepsOf, GraphOf, Precedes, IsSchedule, PickOps;
    GraphDeps(ops, u);
    GraphDeps(ops, v);
    RootOrder(GraphOf(ops), order, u, v);
  }

  lemma AddColumnHome(op: Op)
    requires op.AddColumnOp?
    ensures OfTable(op.schema, op.table, ColumnPart)(op) && PartOf(op) == Tables
    ensures Touches(op.schema, op.table)(op) && TableOf(op) == op.table && !Creating(op)
  {
  }

  lemma ColumnOpIsPart(op: Op)
    requires op.IsColumnOp()
    ensures OfTable(op.schema, op.table, ColumnPart)(op) && PartOf(op) == Tables
  {
  }

  /** Only columns of tables that both schemas have are changed. */
  lemma ColumnOpIsCommon(s: SchemaDef, t: SchemaDef, walk: Walk, op: Op)
    requires WellFormed(s) && WellFormed(t) && op.IsColumnOp() && op in DiffOps(s, t, walk)
    ensures IsCommon(s, t, op.schema, op.table)
  {
    hide WellFormed, DiffOps, Filter, OfTable, PartBlock, PartOf, SourceOf;
    var ns, n := op.schema, op.table;
    ColumnOpIsPart(op);
    assert op in Filter(DiffOps(s, t, walk), OfTable(ns, n, ColumnPart));
    if ns in t.schemas {
      DiffOfAnyTable(s, t, walk, ns, n, ColumnPart);
      BlockIsCommon(SourceOf(s, ns), t.schemas[ns], walk, n);
      InSourceOf(s, ns, n);
    } else {
      MemberOfPart(DiffOps(s, t, walk), op, Tables);
      NothingThere(s, t, walk, ns);
    }
  }

  lemma DiffAddsColumnTo(s: SchemaDef, t: SchemaDef, walk: Walk, op: Op)
    requires WellFormed(s) && WellFormed(t) && op.AddColumnOp? && op in DiffOps(s, t, walk)
    ensures IsCommon(s, t, op.schema, op.table)
    ensures Touches(op.schema, op.table)(op) && TableOf(op) == op.table && !Creating(op)
  {
    hide WellFormed, DiffOps, IsCommon;
    ColumnOpIsCommon(s, t, walk, op);
  }

  lemma InSourceOf(s: SchemaDef, ns: string, n: string)
    ensures n in SourceOf(s, ns).tables ==> ns in s.schemas && n in s.schemas[ns].tables
  {
  }

  lemma BlockIsCommon(u: NamespaceDef, v: NamespaceDef, walk: Walk, n: string)
    ensures PartBlock(u, v, walk, n, ColumnPart)(n) != [] ==> n in u.tables && n in v.tables
  {
    hide TableColumnOps;
  }

  /** A column that is added to a common table comes before everything that waits, and before what is
      created on its own or on a later table. */
  lemma ColumnPlace(s: SchemaDef, t: SchemaDef, walk: Walk, pre: seq<Op>, k: nat, m: Op)
    requires WellFormed(s) && WellFormed(t) && IsSorted(Pre(s, t, walk), pre) && k < |pre| && Creating(pre[k])
    requires m.AddColumnOp? && m in DiffOps(s, t, walk)
    ensures m in pre[..k] <==>
      var op := pre[k];
      || Waits(s, t, op) || (m.schema, m.table) == (op.schema, TableOf(op))
      || Earlier(s, t, m.schema, m.table, op.schema, TableOf(op))
  {
    hide WellFormed, DiffOps, Creating, StageOf, Pre, DepsOf, Waits, TableOf, IsCommon, Earlier, Precedes, Orders,
      GraphOf, Acyclic, IsSorted, Touches, Mine, Uses, AllBefore;
    var ops := Pre(s, t, walk);
    var order := GetOrder(ops, pre);
    var v, op := order[k], pre[k];
    InPrefix(ops, order, pre, k, m);
    DiffAddsColumnTo(s, t, walk, m);
    CreatingIsEarly(m);
    PreMember(s, t, walk, m);
    WaitsIsDeps(s, t, walk, v);
    forall u: nat | u < |ops| && ops[u] == m
      ensures Precedes(order, u, v) <==>
        || Waits(s, t, op) || (m.schema, m.table) == (op.schema, TableOf(op))
        || Earlier(s, t, m.schema, m.table, op.schema, TableOf(op))
    {
      InSource(s, t, m.schema, m.table);
      ColumnOrIndexFree(s, t, walk, u);
      RootPlace(ops, order, pre, u, v);
      ColumnEmitted(s, t, walk, u, v);
    }
    var u: nat :| u < |ops| && ops[u] == m;
  }

  lemma ColumnEmitted(s: SchemaDef, t: SchemaDef, walk: Walk, u: nat, v: nat)
    requires WellFormed(s) && WellFormed(t) && u < |Pre(s, t, walk)| && v < |Pre(s, t, walk)|
    requires var m, op := Pre(s, t, walk)[u], Pre(s, t, walk)[v]; m.AddColumnOp? && Creating(op)
    ensures var m, op := Pre(s, t, walk)[u], Pre(s, t, walk)[v];
      u < v <==>
        ((m.schema, m.table) == (op.schema, TableOf(op)) ||
         Earlier(s, t, m.schema, m.table, op.schema, TableOf(op)))
  {
    hide WellFormed, DiffOps, StageOf, Pre, TableOf, IsCommon, Earlier, Touches, Mine, Uses, Creates, Creating;
    var ops := Pre(s, t, walk);
    var m, op := ops[u], ops[v];
    PreAt(s, t, walk, u);
    PreAt(s, t, walk, v);
    DiffAddsColumnTo(s, t, walk, m);
    DiffCreates(s, t, walk, op);
    OwnTableCommon(s, t, op);
    CreatingIsMine(op);
    if (m.schema, m.table) == (op.schema, TableOf(op)) {
      if op.AddTableOp? { NewNotCommon(s, t, op); }
      ColumnsFirst(s, t, walk, m.schema, m.table);
      PreBefore(s, t, walk, Touches(m.schema, m.table), Uses(op.schema, TableOf(op)));
    } else {
      TouchOrder(s, t, walk, m.schema, m.table, op.schema, TableOf(op));
      if Earlier(s, t, m.schema, m.table, op.schema, TableOf(op)) {
        PreBefore(s, t, walk, Touches(m.schema, m.table), Mine(op.schema, TableOf(op)));
      } else {
        PreBefore(s, t, walk, Mine(op.schema, TableOf(op)), Touches(m.schema, m.table));
      }
    }
  }

  lemma NewNotCommon(s: SchemaDef, t: SchemaDef, op: Op)
    requires Creates(s, t, op) && op.AddTableOp?
    ensures !IsCommon(s, t, op.schema, TableOf(op))
  {
  }

  /** The new table is created before the constraint `op` is added.  Such an operation waits for
      nothing, unless an earlier one has its key; and in the order of a plan what waits for nothing
      comes first, as it was emitted. */
  ghost predicate CreatedBefore(s: SchemaDef, t: SchemaDef, ns: string, n: string, op: Op)
    requires op.AddConstraintOp?
  {
    if Shadowed(s, t, op) then
      forall rns, rn :: NeedsNew(s, t, ns, n, rns, rn) ==>
        Free(s, t, rns, rn) && Earlier(s, t, rns, rn, op.schema, op.table)
    else Free(s, t, ns, n) && Earlier(s, t, ns, n, op.schema, op.table)
  }

  /** A new table and an addition to a common one are emitted in the order of their turns. */
  lemma TableEmitted(s: SchemaDef, t: SchemaDef, walk: Walk, u: nat, v: nat)
    requires WellFormed(s) && WellFormed(t) && u < |Pre(s, t, walk)| && v < |Pre(s, t, walk)|
    requires var m, op := Pre(s, t, walk)[u], Pre(s, t, walk)[v]; m.AddTableOp? && op.AddConstraintOp?
    ensures var m, op := Pre(s, t, walk)[u], Pre(s, t, walk)[v];
      u < v <==> Earlier(s, t, m.schema, m.name, op.schema, op.table)
  {
    hide WellFormed, DiffOps, StageOf, Pre, IsCommon, Earlier, Touches, Mine, Uses, Creates;
    var ops := Pre(s, t, walk);
    var m, op := ops[u], ops[v];
    PreAt(s, t, walk, u);
    PreAt(s, t, walk, v);
    DiffCreates(s, t, walk, m);
    DiffCreates(s, t, walk, op);
    OwnTableCommon(s, t, op);
    NewNotCommon(s, t, m);
    CreatingIsMine(op);
    TableTouches(m);
    TouchOrder(s, t, walk, m.schema, m.name, op.schema, op.table);
    if Earlier(s, t, m.schema, m.name, op.schema, op.table) {
      PreBefore(s, t, walk, Touches(m.schema, m.name), Mine(op.schema, op.table));
    } else {
      PreBefore(s, t, walk, Mine(op.schema, op.table), Touches(m.schema, m.name));
    }
  }

  lemma TableTouches(op: Op)
    requires op.AddTableOp?
    ensures Touches(op.schema, op.name)(op)
  {
  }

  /** Seen from the addition that shadows another, new tables stand as they do from that one. */
  lemma SameTurn(s: SchemaDef, t: SchemaDef, ns: string, n: string, x: Op, y: Op)
    requires IsNew(s, t, ns, n) && IsCommon(s, t, x.schema, TableOf(x)) && IsCommon(s, t, y.schema, TableOf(y))
    requires x.schema == y.schema
    ensures Earlier(s, t, ns, n, x.schema, TableOf(x)) == Earlier(s, t, ns, n, y.schema, TableOf(y))
  {
    hide TableOf;
  }

  lemma ShadowedPlace(s: SchemaDef, t: SchemaDef, walk: Walk, pre: seq<Op>, order: seq<nat>, u: nat, v: nat, r: nat)
    requires WellFormed(s) && WellFormed(t) && Orders(Pre(s, t, walk), order, pre)
    requires u < |Pre(s, t, walk)| && v < |Pre(s, t, walk)| && r < |Pre(s, t, walk)|
    requires var ops := Pre(s, t, walk);
      && ops[u].AddTableOp? && ops[v].AddConstraintOp? && ops[r].AddConstraintOp? && ops[r].schema == ops[v].schema
      && DepsOf(ops, r) == {} && DepsOf(ops, v) == {r} && DepsOf(ops, u) != {}
    ensures var ops := Pre(s, t, walk);
      Precedes(order, u, v) <==>
      forall rns, rn :: NeedsNew(s, t, ops[u].schema, ops[u].name, rns, rn) ==>
        Free(s, t, rns, rn) && Earlier(s, t, rns, rn, ops[v].schema, ops[v].table)
  {
    hide WellFormed, DiffOps, StageOf, Pre, DepsOf, IsCommon, Earlier, Creates, NeedsNew, Free, Precedes, GraphOf,
      Orders, IsNew;
    var ops := Pre(s, t, walk);
    if r in DepsOf(ops, u) { DepIsTable(s, t, walk, u, r); }
    WaitingPlace(ops, order, pre, u, v, r);
    var ns, n := ops[u].schema, ops[u].name;
    forall d: nat | d in DepsOf(ops, u)
      ensures d < |ops| && ops[d].AddTableOp? && NeedsNew(s, t, ns, n, ops[d].schema, ops[d].name)
      ensures (DepsOf(ops, d) == {} && d < r) <==>
        Free(s, t, ops[d].schema, ops[d].name) &&
        Earlier(s, t, ops[d].schema, ops[d].name, ops[v].schema, ops[v].table)
    {
      DepIsTable(s, t, walk, u, d);
      NeedsIsDep(s, t, walk, u, d);
      NeedsBefore(s, t, walk, d, r, v);
    }
    forall rns, rn | NeedsNew(s, t, ns, n, rns, rn)
      ensures exists d: nat :: d in DepsOf(ops, u) && d < |ops| && ops[d].AddTableOp? &&
                               ops[d].schema == rns && ops[d].name == rn
    {
      NeededIsNew(s, t, ns, n, rns, rn);
      var d := NewIsCreated(s, t, walk, rns, rn);
      NeedsIsDep(s, t, walk, u, d);
    }
  }

  lemma NeedsBefore(s: SchemaDef, t: SchemaDef, walk: Walk, d: nat, r: nat, v: nat)
    requires WellFormed(s) && WellFormed(t)
    requires d < |Pre(s, t, walk)| && r < |Pre(s, t, walk)| && v < |Pre(s, t, walk)|
    requires var ops := Pre(s, t, walk);
      && ops[d].AddTableOp? && ops[v].AddConstraintOp? && ops[r].AddConstraintOp? && ops[r].schema == ops[v].schema
    ensures var ops := Pre(s, t, walk);
      (DepsOf(ops, d) == {} && d < r) <==>
        Free(s, t, ops[d].schema, ops[d].name) &&
        Earlier(s, t, ops[d].schema, ops[d].name, ops[v].schema, ops[v].table)
  {
    hide WellFormed, DiffOps, StageOf, Pre, DepsOf, IsCommon, Earlier, Creates, Free, IsNew;
    var ops := Pre(s, t, walk);
    TableFree(s, t, walk, d);
    TableEmitted(s, t, walk, d, r);
    PreAt(s, t, walk, d);
    PreAt(s, t, walk, r);
    PreAt(s, t, walk, v);
    DiffCreates(s, t, walk, ops[d]);
    DiffCreates(s, t, walk, ops[r]);
    DiffCreates(s, t, walk, ops[v]);
    CreatesNew(s, t, ops[d]);
    OwnTableCommon(s, t, ops[r]);
    OwnTableCommon(s, t, ops[v]);
    SameTurn(s, t, ops[d].schema, ops[d].name, ops[r], ops[v]);
  }

  lemma WaitingPlace(ops: seq<Op>, order: seq<nat>, sorted: seq<Op>, u: nat, v: nat, a: nat)
    requires Orders(ops, order, sorted) && u < |ops| && v < |ops| && a < |ops|
    requires DepsOf(ops, v) == {a} && DepsOf(ops, a) == {} && DepsOf(ops, u) != {} && a !in DepsOf(ops, u)
    ensures Precedes(order, u, v) <==>
      forall d: nat :: d in DepsOf(ops, u) ==> d < |ops| && DepsOf(ops, d) == {} && d < a
  {
    hide DepsOf, GraphOf, Precedes, IsSchedule, PickOps;
    GraphDeps(ops, u);
    GraphDeps(ops, v);
    GraphDeps(ops, a);
    WaitingOrder(GraphOf(ops), order, u, v, a);
    forall d: nat | d < |ops| ensures GraphOf(ops).deps[d] == DepsOf(ops, d) { GraphDeps(ops, d); }
  }

  /** A constraint that is added to a common table comes after the new table it may refer to exactly
      in the case described. */
  lemma TableBeforeConstraint(s: SchemaDef, t: SchemaDef, walk: Walk, pre: seq<Op>, k: nat, ns: string, n: string)
    requires WellFormed(s) && WellFormed(t) && IsSorted(Pre(s, t, walk), pre) && k < |pre|
    requires pre[k].AddConstraintOp? && IsNew(s, t, ns, n)
    ensures AddTableOp(ns, n, t.schemas[ns].tables[n]) in pre[..k] <==> CreatedBefore(s, t, ns, n, pre[k])
  {
    hide WellFormed, DiffOps, StageOf, Pre, DepsOf, IsCommon, Earlier, Creates, NeedsNew, Precedes, GraphOf,
      Orders, IsNew, Shadowed, Acyclic, IsSorted;
    NewInTarget(s, t, ns, n);
    var ops, m := Pre(s, t, walk), AddTableOp(ns, n, t.schemas[ns].tables[n]);
    var order := GetOrder(ops, pre);
    var v := order[k];
    InPrefix(ops, order, pre, k, m);
    var r := ConstraintDeps(s, t, walk, v);
    forall u: nat | u < |ops| && ops[u] == m ensures Precedes(order, u, v) <==> CreatedBefore(s, t, ns, n, pre[k]) {
      TableFree(s, t, walk, u);
      TableEmitted(s, t, walk, u, v);
      if DepsOf(ops, u) != {} && DepsOf(ops, v) != {} {
        ShadowedPlace(s, t, walk, pre, order, u, v, r);
      } else {
        RootPlace(ops, order, pre, u, v);
      }
    }
    var u := NewIsCreated(s, t, walk, ns, n);
  }

  /** A new table comes after the other new tables it refers to. */
  lemma TableBeforeTable(s: SchemaDef, t: SchemaDef, walk: Walk, pre: seq<Op>, k: nat, ns: string, n: string)
    requires WellFormed(s) && WellFormed(t) && IsSorted(Pre(s, t, walk), pre) && k < |pre| && pre[k].AddTableOp?
    requires NeedsNew(s, t, pre[k].schema, pre[k].name, ns, n)
    ensures IsNew(s, t, ns, n) && AddTableOp(ns, n, t.schemas[ns].tables[n]) in pre[..k]
  {
    hide WellFormed, DiffOps, StageOf, Pre, DepsOf, NeedsNew, Precedes, GraphOf, Orders, IsNew, Acyclic, IsSorted;
    NeededIsNew(s, t, pre[k].schema, pre[k].name, ns, n);
    NewInTarget(s, t, ns, n);
    var ops, m := Pre(s, t, walk), AddTableOp(ns, n, t.schemas[ns].tables[n]);
    var order := GetOrder(ops, pre);
    InPrefix(ops, order, pre, k, m);
    var d := NewIsCreated(s, t, walk, ns, n);
    NeedsIsDep(s, t, walk, order[k], d);
    DepFirst(ops, order, pre, k, d);
  }

  lemma NewInTarget(s: SchemaDef, t: SchemaDef, ns: string, n: string)
    requires IsNew(s, t, ns, n)
    ensures ns in t.schemas && n in t.schemas[ns].tables
  {
  }

  lemma DepFirst(ops: seq<Op>, order: seq<nat>, sorted: seq<Op>, k: nat, d: nat)
    requires Orders(ops, order, sorted) && k < |order| && order[k] < |ops| && d in DepsOf(ops, order[k])
    ensures Precedes(order, d, order[k])
  {
    hide DepsOf, GraphOf, IsSchedule, PickOps;
    GraphDeps(ops, order[k]);
    DepInFront(GraphOf(ops), order, k, d);
  }

  lemma DepInFront(g: Graph, q: seq<nat>, k: nat, d: nat)
    requires Valid(g) && IsSchedule(g, q) && k < |q| && q[k] < |g.deps| && d in g.deps[q[k]]
    ensures Precedes(q, d, q[k])
  {
    hide Flows;
    EnqueuedAfterDeps(g, q, k);
    assert d in Elems(q[..k]);
    var i :| 0 <= i < k && q[..k][i] == d;
    assert q[i] == d;
  }
}
