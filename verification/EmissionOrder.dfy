/** Whose operations the differ emits first: the namespaces in ascending order, in each the new
    tables, then the old ones, then the common ones, each kind in ascending order. */
module EmissionOrder {
  import opened Catalog
  import opened Operations
  import opened Names
  import opened Lists
  import opened DiffSpec
  import opened Semantics
  import opened Execution
  import opened DiffShape
  import opened SchemaMigration
  import opened PlannedDiff

  // ----- lists in which one kind comes before another

  /** No `p` comes after a `q`. */
  ghost predicate AllBefore(ops: seq<Op>, p: Op -> bool, q: Op -> bool) {
    forall i, j :: 0 <= i < j < |ops| && q(ops[i]) ==> !p(ops[j])
  }

  lemma BeforeNone(ops: seq<Op>, p: Op -> bool, q: Op -> bool)
    requires !Any(ops, p) || !Any(ops, q)
    ensures AllBefore(ops, p, q)
  {
    forall i, j | 0 <= i < j < |ops| ensures !(q(ops[i]) && p(ops[j])) {
      assert ops[i] in ops && ops[j] in ops;
    }
  }

  lemma BeforeConcat(a: seq<Op>, b: seq<Op>, p: Op -> bool, q: Op -> bool)
    requires AllBefore(a, p, q) && AllBefore(b, p, q) && (!Any(a, q) || !Any(b, p))
    ensures AllBefore(a + b, p, q)
  {
    forall i, j | 0 <= i < j < |a + b| && q((a + b)[i]) ensures !p((a + b)[j]) {
      if i < |a| && |a| <= j {
        assert (a + b)[i] in a && (a + b)[j] in b;
      } else if i >= |a| {
        assert (a + b)[i] == b[i - |a|] && (a + b)[j] == b[j - |a|];
      }
    }
  }

  lemma NoneInFlat(names: seq<string>, f: string -> seq<Op>, p: Op -> bool)
    requires forall n :: n in names ==> !Any(f(n), p)
    ensures !Any(Flat(names, f), p)
  {
    forall op | op in Flat(names, f) ensures !p(op) {
      var n := FlatMember(names, f, op);
    }
  }

  lemma {:induction false} BeforeFlat(names: seq<string>, f: string -> seq<Op>, p: Op -> bool, q: Op -> bool)
    requires forall n :: n in names ==> AllBefore(f(n), p, q)
    requires forall i, j :: 0 <= i < j < |names| ==> !Any(f(names[i]), q) || !Any(f(names[j]), p)
    ensures AllBefore(Flat(names, f), p, q)
  {
    hide AllBefore, Any;
    if names == [] {
      FewBefore([], p, q);
    } else {
      var init, last := names[..|names| - 1], names[|names| - 1];
      BeforeFlat(init, f, p, q);
      if Any(f(last), p) {
        forall n | n in init ensures !Any(f(n), q) {
          var i :| 0 <= i < |init| && init[i] == n;
          assert n == names[i];
        }
        NoneInFlat(init, f, q);
      }
      BeforeConcat(Flat(init, f), f(last), p, q);
    }
  }

  lemma FewBefore(ops: seq<Op>, p: Op -> bool, q: Op -> bool)
    requires |ops| <= 1
    ensures AllBefore(ops, p, q)
  {
  }

  lemma {:induction false} FilterBefore(ops: seq<Op>, keep: Op -> bool, p: Op -> bool, q: Op -> bool)
    requires AllBefore(ops, p, q)
    ensures AllBefore(Filter(ops, keep), p, q)
  {
    if ops != [] {
      var init, x := ops[..|ops| - 1], ops[|ops| - 1];
      assert ops == init + [x];
      FilterBefore(init, keep, p, q);
      FilterSnoc(init, x, keep);
      forall op | op in Filter(init, keep) && p(x) ensures !q(op) {
        var i :| 0 <= i < |init| && init[i] == op;
        assert ops[i] == op;
      }
      FewBefore([x], p, q);
      if keep(x) { BeforeConcat(Filter(init, keep), [x], p, q); }
    }
  }

  /** Only what is selected matters. */
  lemma {:induction false} SelectedBefore(ops: seq<Op>, keep: Op -> bool, p: Op -> bool, q: Op -> bool)
    requires AllBefore(Filter(ops, keep), p, q)
    requires forall op :: p(op) || q(op) ==> keep(op)
    ensures AllBefore(ops, p, q)
  {
    if ops != [] {
      var init, x := ops[..|ops| - 1], ops[|ops| - 1];
      assert ops == init + [x];
      FilterSnoc(init, x, keep);
      var kept := Filter(init, keep);
      assert AllBefore(kept, p, q) by {
        forall i, j | 0 <= i < j < |kept| && q(kept[i]) ensures !p(kept[j]) {
          assert Filter(ops, keep)[i] == kept[i] && Filter(ops, keep)[j] == kept[j];
        }
      }
      SelectedBefore(init, keep, p, q);
      if p(x) {
        assert Filter(ops, keep) == kept + [x];
        forall i | 0 <= i < |kept| ensures !q(kept[i]) {
          assert Filter(ops, keep)[i] == kept[i] && Filter(ops, keep)[|kept|] == x;
        }
        forall op | op in init ensures !q(op) {
          assert q(op) ==> op in kept;
        }
      }
      FewBefore([x], p, q);
      BeforeConcat(init, [x], p, q);
    }
  }

  lemma BeforeWeaker(ops: seq<Op>, p: Op -> bool, q: Op -> bool, p': Op -> bool, q': Op -> bool)
    requires AllBefore(ops, p, q)
    requires forall op :: op in ops ==> (p'(op) ==> p(op)) && (q'(op) ==> q(op))
    ensures AllBefore(ops, p', q')
  {
    forall i, j | 0 <= i < j < |ops| && q'(ops[i]) ensures !p'(ops[j]) {
      assert ops[i] in ops && ops[j] in ops;
    }
  }

  /** The step gives `p` for one name only, and `q` for another. */
  ghost predicate Splits(f: string -> seq<Op>, a: string, b: string, p: Op -> bool, q: Op -> bool) {
    && (forall k :: k != a ==> !Any(f(k), p))
    && (forall k :: k != b ==> !Any(f(k), q))
  }

  lemma SplitBefore(names: seq<string>, f: string -> seq<Op>, a: string, b: string, p: Op -> bool, q: Op -> bool)
    requires StrictlySorted(names) && a != b && Splits(f, a, b, p, q)
    requires Less(a, b) || !Any(f(a), p) || !Any(f(b), q)
    ensures AllBefore(Flat(names, f), p, q)
  {
    hide Flat, AllBefore, Any;
    forall n | n in names ensures AllBefore(f(n), p, q) { BeforeNone(f(n), p, q); }
    forall i, j | 0 <= i < j < |names| ensures !Any(f(names[i]), q) || !Any(f(names[j]), p) {
      if names[i] == b && names[j] == a && Less(a, b) { LessAsymmetric(a, b); }
    }
    BeforeFlat(names, f, p, q);
  }

  // ----- namespaces

  ghost predicate Within(p: Op -> bool, ns: string) {
    forall op :: p(op) ==> op.schema == ns
  }

  lemma StepOfOther(s: SchemaDef, t: SchemaDef, walk: Walk, p: Op -> bool, ns: string, k: string)
    requires WellFormed(s) && WellFormed(t) && Within(p, ns) && k != ns
    ensures !Any(TargetNamespaceStep(s, t, walk)(k), p)
  {
    hide WellFormed, TargetNamespaceStep;
    forall op | op in TargetNamespaceStep(s, t, walk)(k) ensures !p(op) {
      TargetStepHome(s, t, walk, k, op);
    }
  }

  lemma NothingOld(s: SchemaDef, t: SchemaDef, p: Op -> bool, ns: string)
    requires Within(p, ns) && ns in t.schemas
    ensures !Any(Flat(Sorted(s.schemas.Keys), OldNamespaceStep(s, t)), p)
  {
    hide Flat;
    forall n ensures !Any(OldNamespaceStep(s, t)(n), p) {
    }
    NoneInFlat(Sorted(s.schemas.Keys), OldNamespaceStep(s, t), p);
  }

  lemma StepsSplit(s: SchemaDef, t: SchemaDef, walk: Walk, p: Op -> bool, q: Op -> bool, a: string, b: string)
    requires WellFormed(s) && WellFormed(t) && Within(p, a) && Within(q, b)
    ensures Splits(TargetNamespaceStep(s, t, walk), a, b, p, q)
  {
    hide WellFormed, Within, TargetNamespaceStep, Any;
    forall k | k != a ensures !Any(TargetNamespaceStep(s, t, walk)(k), p) { StepOfOther(s, t, walk, p, a, k); }
    forall k | k != b ensures !Any(TargetNamespaceStep(s, t, walk)(k), q) { StepOfOther(s, t, walk, q, b, k); }
  }

  lemma NoStep(s: SchemaDef, t: SchemaDef, walk: Walk, n: string, p: Op -> bool)
    requires n !in t.schemas
    ensures !Any(TargetNamespaceStep(s, t, walk)(n), p)
  {
    hide NamespaceOps;
  }

  lemma DiffIs(s: SchemaDef, t: SchemaDef, walk: Walk)
    ensures DiffOps(s, t, walk) ==
      Flat(Sorted(t.schemas.Keys), TargetNamespaceStep(s, t, walk)) +
      Flat(Sorted(s.schemas.Keys), OldNamespaceStep(s, t))
  {
  }

  /** An earlier namespace of the target comes first, and before all that are dropped. */
  lemma NamespacesBefore(s: SchemaDef, t: SchemaDef, walk: Walk, p: Op -> bool, q: Op -> bool, a: string, b: string)
    requires WellFormed(s) && WellFormed(t) && Within(p, a) && Within(q, b)
    requires a in t.schemas && a != b && (b in t.schemas ==> Less(a, b))
    ensures AllBefore(DiffOps(s, t, walk), p, q)
  {
    hide *;
    var names, f := Sorted(t.schemas.Keys), TargetNamespaceStep(s, t, walk);
    var y := Flat(Sorted(s.schemas.Keys), OldNamespaceStep(s, t));
    DiffIs(s, t, walk);
    NothingOld(s, t, p, a);
    StepsSplit(s, t, walk, p, q, a, b);
    if b !in t.schemas { NoStep(s, t, walk, b, q); }
    SplitBefore(names, f, a, b, p, q);
    BeforeNone(y, p, q);
    BeforeConcat(Flat(names, f), y, p, q);
  }

  // ----- tables of one namespace

  /** What concerns one table, the removal of indexes aside. */
  function Mine(ns: string, n: string): Op -> bool {
    (op: Op) => op.schema == ns && PartOf(op) == Tables && !op.DropIndexOp? && TableOf(op) == n
  }

  /** New tables, then old ones, then common ones. */
  function Phase(u: NamespaceDef, v: NamespaceDef, n: string): nat {
    if n !in u.tables then 0 else if n !in v.tables then 1 else 2
  }

  lemma InsideBefore(s: SchemaDef, t: SchemaDef, walk: Walk, p: Op -> bool, q: Op -> bool, ns: string)
    requires WellFormed(s) && WellFormed(t) && ns in t.schemas
    requires forall op :: p(op) || q(op) ==> op.schema == ns && PartOf(op) == Tables
    requires AllBefore(TablesOps(SourceOf(s, ns), t.schemas[ns], walk), p, q)
    ensures AllBefore(DiffOps(s, t, walk), p, q)
  {
    hide WellFormed, DiffOps, TablesOps, AllBefore, Filter, PartOf;
    DiffOfTables(s, t, walk, ns);
    SelectedBefore(Filter(DiffOps(s, t, walk), OfSchema(ns)), InPart(Tables), p, q);
    SelectedBefore(DiffOps(s, t, walk), OfSchema(ns), p, q);
  }

  lemma NewStepMine(u: NamespaceDef, v: NamespaceDef, k: string, ns: string, n: string)
    requires k != n || Phase(u, v, n) != 0
    ensures !Any(NewTableStep(u, v)(k), Mine(ns, n))
  {
  }

  lemma OldStepMine(u: NamespaceDef, v: NamespaceDef, k: string, ns: string, n: string)
    requires k != n || Phase(u, v, n) != 1
    ensures !Any(OldTableStep(u, v)(k), Mine(ns, n))
  {
  }

  lemma CommonStepMine(u: NamespaceDef, v: NamespaceDef, walk: Walk, k: string, ns: string, n: string)
    requires SameNamed(u, v) && (k != n || Phase(u, v, n) != 2)
    ensures !Any(CommonTableStep(u, v, walk)(k), Mine(ns, n))
  {
    assert Phase(u, v, n) != 2 ==> CommonTableStep(u, v, walk)(n) == [] by { hide CommonTableOps; }
    hide SameNamed, CommonTableStep, PartOf, TableOf, PartOfTable;
    forall op | op in CommonTableStep(u, v, walk)(k) ensures !Mine(ns, n)(op) {
      CommonStepHome(u, v, walk, k);
      assert ChangesTable(v.name, k)(op);
    }
  }

  lemma NoneOfStep(names: seq<string>, f: string -> seq<Op>, a: string, p: Op -> bool)
    requires (forall k :: k != a ==> !Any(f(k), p)) && !Any(f(a), p)
    ensures !Any(Flat(names, f), p)
  {
    NoneInFlat(names, f, p);
  }

  lemma ThreeBefore(x: seq<Op>, y: seq<Op>, z: seq<Op>, p: Op -> bool, q: Op -> bool)
    requires AllBefore(x, p, q) && AllBefore(y, p, q) && AllBefore(z, p, q)
    requires !Any(x, q) || (!Any(y, p) && !Any(z, p))
    requires !Any(y, q) || !Any(z, p)
    ensures AllBefore(x + y + z, p, q)
  {
    hide AllBefore;
    BeforeConcat(x, y, p, q);
    assert !Any(x + y, q) || !Any(z, p) by {
      assert forall op :: op in x + y <==> op in x || op in y;
    }
    BeforeConcat(x + y, z, p, q);
  }

  ghost predicate TableEarlier(u: NamespaceDef, v: NamespaceDef, a: string, b: string) {
    Phase(u, v, a) < Phase(u, v, b) || (Phase(u, v, a) == Phase(u, v, b) && Less(a, b))
  }

  lemma TablesBefore(u: NamespaceDef, v: NamespaceDef, walk: Walk, ns: string, a: string, b: string)
    requires SameNamed(u, v) && a != b && TableEarlier(u, v, a, b)
    ensures AllBefore(TablesOps(u, v, walk), Mine(ns, a), Mine(ns, b))
  {
    var p, q := Mine(ns, a), Mine(ns, b);
    var f, g, h := NewTableStep(u, v), OldTableStep(u, v), CommonTableStep(u, v, walk);
    hide SameNamed, NewTableStep, OldTableStep, CommonTableStep, Mine, AllBefore, Any, Flat, Phase, StrictlySorted;
    forall k, n | k != n || Phase(u, v, n) != 0 ensures !Any(f(k), Mine(ns, n)) { NewStepMine(u, v, k, ns, n); }
    forall k, n | k != n || Phase(u, v, n) != 1 ensures !Any(g(k), Mine(ns, n)) { OldStepMine(u, v, k, ns, n); }
    forall k, n | k != n || Phase(u, v, n) != 2 ensures !Any(h(k), Mine(ns, n)) {
      CommonStepMine(u, v, walk, k, ns, n);
    }
    SplitBefore(Sorted(v.tables.Keys), f, a, b, p, q);
    SplitBefore(Sorted(u.tables.Keys), g, a, b, p, q);
    SplitBefore(Sorted(v.tables.Keys), h, a, b, p, q);
    if Phase(u, v, b) != 0 { NoneOfStep(Sorted(v.tables.Keys), f, b, q); }
    if Phase(u, v, b) != 1 { NoneOfStep(Sorted(u.tables.Keys), g, b, q); }
    if Phase(u, v, a) != 1 { NoneOfStep(Sorted(u.tables.Keys), g, a, p); }
    if Phase(u, v, a) != 2 { NoneOfStep(Sorted(v.tables.Keys), h, a, p); }
    PhaseBound(u, v, a);
    PhaseBound(u, v, b);
    ThreeBefore(Flat(Sorted(v.tables.Keys), f), Flat(Sorted(u.tables.Keys), g), Flat(Sorted(v.tables.Keys), h), p, q);
  }

  lemma PhaseBound(u: NamespaceDef, v: NamespaceDef, n: string)
    ensures Phase(u, v, n) <= 2
  {
  }

  // ----- the whole list

  /** The operations on the table `rn` of `rns` are emitted before those on `xn` of `xns`. */
  ghost predicate Earlier(s: SchemaDef, t: SchemaDef, rns: string, rn: string, xns: string, xn: string) {
    && rns in t.schemas
    && if rns != xns then Less(rns, xns) else TableEarlier(SourceOf(s, rns), t.schemas[rns], rn, xn)
  }

  lemma EarlierTotal(s: SchemaDef, t: SchemaDef, rns: string, rn: string, xns: string, xn: string)
    requires xns in t.schemas && (rns, rn) != (xns, xn)
    ensures rns in t.schemas ==>
      (Earlier(s, t, rns, rn, xns, xn) <==> !Earlier(s, t, xns, xn, rns, rn))
  {
    LessTotal(rns, xns);
    LessTotal(rn, xn);
    if Less(rns, xns) { LessAsymmetric(rns, xns); }
    if Less(xns, rns) { LessAsymmetric(xns, rns); }
    if Less(rn, xn) { LessAsymmetric(rn, xn); }
    if Less(xn, rn) { LessAsymmetric(xn, rn); }
  }

  lemma WholeOps(s: SchemaDef, t: SchemaDef, walk: Walk, ns: string, op: Op)
    requires WellFormed(s) && WellFormed(t) && ns in t.schemas && op in DiffOps(s, t, walk) && op.schema == ns
    ensures op == CreateSchemaOp(ns) || PartOf(op) != Whole
  {
    hide WellFormed, DiffOps, Filter, NamespaceOps, TargetNamespaceStep, OldNamespaceStep, PartOf, SameNamed, AllOf;
    assert op in Filter(DiffOps(s, t, walk), OfSchema(ns));
    SchemaOps(s, t, walk, ns);
    StepsOfTarget(s, t, walk, ns);
    if op !in CreateOps(s, ns) {
      SourceSameNamed(s, t, ns);
      NamespaceHome(SourceOf(s, ns), t.schemas[ns], walk);
      OfNamespaceMember(NamespaceOps(SourceOf(s, ns), t.schemas[ns], walk), t.schemas[ns].name, op);
    }
  }

  lemma OfNamespaceMember(ops: seq<Op>, ns: string, op: Op)
    requires AllOf(ops, OfNamespace(ns)) && op in ops
    ensures PartOf(op) != Whole
  {
    assert OfNamespace(ns)(op);
  }

  /** What concerns one table: its own operations, and the removal of its namespace. */
  function Concerns(ns: string, n: string): Op -> bool {
    (op: Op) => op.schema == ns && (op.DropSchemaOp? || Mine(ns, n)(op))
  }

  lemma ConcernIsMine(s: SchemaDef, t: SchemaDef, walk: Walk, ns: string, n: string, op: Op)
    requires WellFormed(s) && WellFormed(t) && ns in t.schemas && op in DiffOps(s, t, walk) && Concerns(ns, n)(op)
    ensures Mine(ns, n)(op)
  {
    hide WellFormed, DiffOps;
    WholeOps(s, t, walk, ns, op);
  }

  lemma SameNamespaceBefore(s: SchemaDef, t: SchemaDef, walk: Walk, ns: string, a: string, b: string)
    requires WellFormed(s) && WellFormed(t) && ns in t.schemas && a != b && Earlier(s, t, ns, a, ns, b)
    ensures AllBefore(DiffOps(s, t, walk), Mine(ns, a), Mine(ns, b))
  {
    hide WellFormed, DiffOps, TablesOps, AllBefore, SameNamed, TableEarlier, PartOf, TableOf;
    SourceSameNamed(s, t, ns);
    TablesBefore(SourceOf(s, ns), t.schemas[ns], walk, ns, a, b);
    InsideBefore(s, t, walk, Mine(ns, a), Mine(ns, b), ns);
  }

  lemma ConcernsWithin(ns: string, n: string)
    ensures Within(Concerns(ns, n), ns) && Within(Mine(ns, n), ns)
  {
  }

  /** Of two tables one is dealt with before the other. */
  lemma TurnOrder(s: SchemaDef, t: SchemaDef, walk: Walk, rns: string, rn: string, xns: string, xn: string)
    requires WellFormed(s) && WellFormed(t) && xns in t.schemas && (rns, rn) != (xns, xn)
    ensures Earlier(s, t, rns, rn, xns, xn) ==>
      AllBefore(DiffOps(s, t, walk), Concerns(rns, rn), Mine(xns, xn))
    ensures !Earlier(s, t, rns, rn, xns, xn) ==>
      AllBefore(DiffOps(s, t, walk), Mine(xns, xn), Concerns(rns, rn))
  {
    var ops := DiffOps(s, t, walk);
    EarlierTotal(s, t, rns, rn, xns, xn);
    ConcernsWithin(rns, rn);
    ConcernsWithin(xns, xn);
    hide WellFormed, DiffOps, AllBefore, TableEarlier, Concerns, Mine, Within;
    if rns != xns {
      if Earlier(s, t, rns, rn, xns, xn) {
        NamespacesBefore(s, t, walk, Concerns(rns, rn), Mine(xns, xn), rns, xns);
      } else {
        NamespacesBefore(s, t, walk, Mine(xns, xn), Concerns(rns, rn), xns, rns);
      }
    } else {
      forall op | op in ops && Concerns(rns, rn)(op) ensures Mine(rns, rn)(op) {
        ConcernIsMine(s, t, walk, rns, rn, op);
      }
      if Earlier(s, t, rns, rn, xns, xn) {
        SameNamespaceBefore(s, t, walk, rns, rn, xn);
        BeforeWeaker(ops, Mine(rns, rn), Mine(xns, xn), Concerns(rns, rn), Mine(xns, xn));
      } else {
        SameNamespaceBefore(s, t, walk, rns, xn, rn);
        BeforeWeaker(ops, Mine(xns, xn), Mine(rns, rn), Mine(xns, xn), Concerns(rns, rn));
      }
    }
  }

  lemma TouchConcerns(ns: string, n: string, op: Op)
    requires Touches(ns, n)(op)
    ensures Concerns(ns, n)(op)
  {
    if !op.DropSchemaOp? { assert Mine(ns, n)(op); }
  }

  /** So are their columns. */
  lemma TouchOrder(s: SchemaDef, t: SchemaDef, walk: Walk, rns: string, rn: string, xns: string, xn: string)
    requires WellFormed(s) && WellFormed(t) && xns in t.schemas && (rns, rn) != (xns, xn)
    ensures Earlier(s, t, rns, rn, xns, xn) ==>
      AllBefore(DiffOps(s, t, walk), Touches(rns, rn), Mine(xns, xn))
    ensures !Earlier(s, t, rns, rn, xns, xn) ==>
      AllBefore(DiffOps(s, t, walk), Mine(xns, xn), Touches(rns, rn))
  {
    hide WellFormed, DiffOps, AllBefore, Earlier, Touches, Mine, Concerns;
    var ops, p, c, q := DiffOps(s, t, walk), Touches(rns, rn), Concerns(rns, rn), Mine(xns, xn);
    TurnOrder(s, t, walk, rns, rn, xns, xn);
    forall op | p(op) ensures c(op) { TouchConcerns(rns, rn, op); }
    if Earlier(s, t, rns, rn, xns, xn) { BeforeWeaker(ops, c, q, p, q); } else { BeforeWeaker(ops, q, c, q, p); }
  }

  // ----- one table: columns first

  /** New indexes and constraints of a table that both schemas have. */
  function Uses(ns: string, n: string): Op -> bool {
    (op: Op) => Mine(ns, n)(op) && (op.AddConstraintOp? || op.CreateIndexOp?)
  }

  lemma PartsApart(ops: seq<Op>, ns: string, n: string, part: TablePart)
    requires AllOf(ops, ForTable(ns, n, part))
    ensures part == ColumnPart ==> !Any(ops, Uses(ns, n))
    ensures part == IndexPart || part == ConstraintPart ==> !Any(ops, Touches(ns, n))
  {
    forall op | op in ops ensures (part == ColumnPart ==> !Uses(ns, n)(op)) &&
      (part == IndexPart || part == ConstraintPart ==> !Touches(ns, n)(op))
    {
      assert ForTable(ns, n, part)(op);
    }
  }

  lemma OwnOpsBefore(ns: string, a: TableDef, b: TableDef, walk: seq<string>, n: string)
    requires a.name == b.name == n && TableWellFormed(b)
    ensures AllBefore(CommonTableOps(ns, a, b, walk), Touches(ns, n), Uses(ns, n))
  {
    hide TableColumnOps, TableIndexOps, TableConstraintOps, AllOf, ForTable, Touches, Uses, AllBefore, Any;
    var x, y, z := TableColumnOps(ns, a, b, walk), TableIndexOps(ns, a, b), TableConstraintOps(ns, a, b);
    ColumnsHome(ns, a, b, walk);
    IndexesHome(ns, a, b);
    ConstraintsHome(ns, a, b);
    PartsApart(x, ns, n, ColumnPart);
    PartsApart(y, ns, n, IndexPart);
    PartsApart(z, ns, n, ConstraintPart);
    BeforeNone(x, Touches(ns, n), Uses(ns, n));
    BeforeNone(y, Touches(ns, n), Uses(ns, n));
    BeforeNone(z, Touches(ns, n), Uses(ns, n));
    ThreeBefore(x, y, z, Touches(ns, n), Uses(ns, n));
  }

  lemma OwnStepBefore(u: NamespaceDef, v: NamespaceDef, walk: Walk, n: string)
    requires SameNamed(u, v) && n in u.tables && n in v.tables
    ensures AllBefore(CommonTableStep(u, v, walk)(n), Touches(u.name, n), Uses(u.name, n))
  {
    TablesWellFormed(u, v, n);
    hide SameNamed, CommonTableOps, AllBefore, Touches, Uses, TableWellFormed;
    OwnOpsBefore(u.name, u.tables[n], v.tables[n], walk(u.name, n), n);
  }

  lemma AnyWeaker(ops: seq<Op>, p: Op -> bool, p': Op -> bool)
    requires !Any(ops, p) && forall op :: op in ops && p'(op) ==> p(op)
    ensures !Any(ops, p')
  {
  }

  lemma OwnTableBefore(u: NamespaceDef, v: NamespaceDef, walk: Walk, n: string, p: Op -> bool)
    requires SameNamed(u, v) && n in u.tables && n in v.tables
    requires AllBefore(CommonTableStep(u, v, walk)(n), p, Uses(u.name, n))
    requires forall op :: p(op) ==> Mine(u.name, n)(op)
    ensures AllBefore(TablesOps(u, v, walk), p, Uses(u.name, n))
  {
    var q, ns, names := Uses(u.name, n), u.name, Sorted(v.tables.Keys);
    var f, g, h := NewTableStep(u, v), OldTableStep(u, v), CommonTableStep(u, v, walk);
    forall op ensures q(op) ==> Mine(ns, n)(op) {
    }
    assert Phase(u, v, n) == 2;
    hide SameNamed, NewTableStep, OldTableStep, CommonTableStep, Mine, Uses, AllBefore, Any, Flat, Phase;
    forall k ensures !Any(f(k), p) && !Any(f(k), q) && !Any(g(k), p) && !Any(g(k), q) {
      NewStepMine(u, v, k, ns, n);
      OldStepMine(u, v, k, ns, n);
      AnyWeaker(f(k), Mine(ns, n), p);
      AnyWeaker(f(k), Mine(ns, n), q);
      AnyWeaker(g(k), Mine(ns, n), p);
      AnyWeaker(g(k), Mine(ns, n), q);
    }
    forall k | k != n ensures !Any(h(k), p) && !Any(h(k), q) {
      CommonStepMine(u, v, walk, k, ns, n);
      AnyWeaker(h(k), Mine(ns, n), p);
      AnyWeaker(h(k), Mine(ns, n), q);
    }
    NoneInFlat(names, f, p);
    NoneInFlat(names, f, q);
    NoneInFlat(Sorted(u.tables.Keys), g, p);
    NoneInFlat(Sorted(u.tables.Keys), g, q);
    OneStepBefore(names, h, n, p, q);
    BeforeNone(Flat(names, f), p, q);
    BeforeNone(Flat(Sorted(u.tables.Keys), g), p, q);
    ThreeBefore(Flat(names, f), Flat(Sorted(u.tables.Keys), g), Flat(names, h), p, q);
  }

  lemma OneStepBefore(names: seq<string>, f: string -> seq<Op>, n: string, p: Op -> bool, q: Op -> bool)
    requires StrictlySorted(names) && AllBefore(f(n), p, q)
    requires forall k :: k != n ==> !Any(f(k), p) && !Any(f(k), q)
    ensures AllBefore(Flat(names, f), p, q)
  {
    SortedDistinct(names);
    hide StrictlySorted, Flat, AllBefore, Any;
    forall k | k in names ensures AllBefore(f(k), p, q) {
      if k != n { BeforeNone(f(k), p, q); }
    }
    BeforeFlat(names, f, p, q);
  }

  function TouchesMine(ns: string, n: string): Op -> bool {
    (op: Op) => Touches(ns, n)(op) && Mine(ns, n)(op)
  }

  /** A table's columns are dealt with before its new indexes and constraints. */
  lemma ColumnsFirst(s: SchemaDef, t: SchemaDef, walk: Walk, ns: string, n: string)
    requires WellFormed(s) && WellFormed(t) && IsCommon(s, t, ns, n)
    ensures AllBefore(DiffOps(s, t, walk), Touches(ns, n), Uses(ns, n))
  {
    hide WellFormed, DiffOps, AllBefore, SameNamed, TablesOps, CommonTableStep, Touches, Mine;
    var u, v, p, q := SourceOf(s, ns), t.schemas[ns], TouchesMine(ns, n), Uses(ns, n);
    SourceSameNamed(s, t, ns);
    assert u.name == ns by { SourceName(s, t, ns); }
    OwnStepBefore(u, v, walk, n);
    BeforeWeaker(CommonTableStep(u, v, walk)(n), Touches(ns, n), q, p, q);
    OwnTableBefore(u, v, walk, n, p);
    forall op | p(op) || q(op) ensures op.schema == ns && PartOf(op) == Tables { MineInside(ns, n, op); }
    InsideBefore(s, t, walk, p, q, ns);
    forall op | op in DiffOps(s, t, walk) && Touches(ns, n)(op) ensures p(op) {
      TouchConcerns(ns, n, op);
      ConcernIsMine(s, t, walk, ns, n, op);
    }
    BeforeWeaker(DiffOps(s, t, walk), p, q, Touches(ns, n), q);
  }

  lemma MineInside(ns: string, n: string, op: Op)
    requires Mine(ns, n)(op)
    ensures op.schema == ns && PartOf(op) == Tables
  {
  }

  lemma SourceName(s: SchemaDef, t: SchemaDef, ns: string)
    requires WellFormed(s)
    ensures SourceOf(s, ns).name == ns
  {
  }
}
