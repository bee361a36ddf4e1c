/** What the differ's operations make of each table of a namespace. */
module TableSteps {
  import opened Catalog
  import opened Operations
  import opened Names
  import opened Lists
  import opened DiffSpec
  import opened Locality
  import opened TableEdits
  import opened Semantics
  import opened ObjectMigration
  import opened ColumnMigration
  import opened TableMigration
  import opened DiffShape

  // ----- the operations that concern one part of one table

  function AboutTable(n: string): Op -> bool {
    About(TableName(), IsDropIndex(), n)
  }

  function PartOfOne(n: string, part: TablePart): Op -> bool {
    (op: Op) => (op.DropIndexOp? || TableOf(op) == n) && PartOfTable(op) == part
  }

  lemma AboutThenPart(ops: seq<Op>, n: string, part: TablePart)
    ensures Filter(Filter(ops, AboutTable(n)), InTablePart(part)) == Filter(ops, PartOfOne(n, part))
  {
    FilterFilter(ops, AboutTable(n), InTablePart(part), PartOfOne(n, part));
  }

  lemma PartOfHome(ops: seq<Op>, ns: string, k: string, home: TablePart, n: string, part: TablePart)
    requires AllOf(ops, ForTable(ns, k, home))
    ensures Filter(ops, PartOfOne(n, part)) ==
      if home != part then [] else if k == n then ops else Filter(ops, IsDropIndex())
  {
    forall op | op in ops ensures
      PartOfOne(n, part)(op) <==> home == part && (k == n || op.DropIndexOp?)
    {
      assert ForTable(ns, k, home)(op);
    }
    if home != part { FilterNone(ops, PartOfOne(n, part)); }
    else if k == n { FilterAll(ops, PartOfOne(n, part)); }
    else { FilterSame(ops, PartOfOne(n, part), IsDropIndex()); }
  }

  lemma NoDropsOfIndexes(ops: seq<Op>, ns: string, k: string, home: TablePart)
    requires AllOf(ops, ForTable(ns, k, home)) && home != IndexPart
    ensures Filter(ops, IsDropIndex()) == []
  {
    forall op | op in ops ensures !IsDropIndex()(op) {
      assert ForTable(ns, k, home)(op);
    }
    FilterNone(ops, IsDropIndex());
  }

  /** What table `k`'s operations hold for one part of table `n`. */
  ghost function PartBlock(s: NamespaceDef, t: NamespaceDef, walk: Walk, n: string,
    part: TablePart): string -> seq<Op> {
    (k: string) =>
      if k !in s.tables || k !in t.tables then []
      else if part == IndexPart then
        if k == n then TableIndexOps(s.name, s.tables[k], t.tables[k])
        else Filter(TableIndexOps(s.name, s.tables[k], t.tables[k]), IsDropIndex())
      else if k != n || part == WholeTable then []
      else if part == ColumnPart then TableColumnOps(s.name, s.tables[k], t.tables[k], walk(s.name, k))
      else TableConstraintOps(s.name, s.tables[k], t.tables[k])
  }

  lemma OneBlock(part: TablePart, own: bool, a: seq<Op>, b: seq<Op>, drops: seq<Op>, c: seq<Op>,
                 x: seq<Op>, y: seq<Op>, z: seq<Op>)
    requires x == if part == ColumnPart && own then a else []
    requires y == if part != IndexPart then [] else if own then b else drops
    requires z == if part == ConstraintPart && own then c else []
    ensures x + y + z ==
      if part == IndexPart then if own then b else drops
      else if !own || part == WholeTable then []
      else if part == ColumnPart then a else c
  {
  }

  /** What the operations for a common table `k` hold for one part of table `n`. */
  lemma CommonOpsPart(schema: string, s: TableDef, t: TableDef, walk: seq<string>, n: string, part: TablePart)
    requires s.name == t.name && TableWellFormed(t)
    ensures Filter(CommonTableOps(schema, s, t, walk), PartOfOne(n, part)) ==
      if part == IndexPart then
        if t.name == n then TableIndexOps(schema, s, t) else Filter(TableIndexOps(schema, s, t), IsDropIndex())
      else if t.name != n || part == WholeTable then []
      else if part == ColumnPart then TableColumnOps(schema, s, t, walk)
      else TableConstraintOps(schema, s, t)
  {
    var a, b, c := TableColumnOps(schema, s, t, walk), TableIndexOps(schema, s, t), TableConstraintOps(schema, s, t);
    ColumnsHome(schema, s, t, walk);
    IndexesHome(schema, s, t);
    ConstraintsHome(schema, s, t);
    hide AllOf, ForTable, TableColumnOps, TableIndexOps, TableConstraintOps, PartOfOne, IsDropIndex, TableWellFormed,
      Filter;
    FilterThree(a, b, c, PartOfOne(n, part));
    PartOfHome(a, schema, t.name, ColumnPart, n, part);
    PartOfHome(b, schema, t.name, IndexPart, n, part);
    PartOfHome(c, schema, t.name, ConstraintPart, n, part);
    NoDropsOfIndexes(a, schema, t.name, ColumnPart);
    NoDropsOfIndexes(c, schema, t.name, ConstraintPart);
    OneBlock(part, t.name == n, a, b, Filter(b, IsDropIndex()), c, Filter(a, PartOfOne(n, part)),
             Filter(b, PartOfOne(n, part)), Filter(c, PartOfOne(n, part)));
  }

  lemma CommonPart(s: NamespaceDef, t: NamespaceDef, walk: Walk, k: string, n: string, part: TablePart)
    requires SameNamed(s, t)
    ensures Filter(CommonTableStep(s, t, walk)(k), PartOfOne(n, part)) == PartBlock(s, t, walk, n, part)(k)
  {
    hide CommonTableOps, TableColumnOps, TableIndexOps, TableConstraintOps, PartOfOne, IsDropIndex, TableWellFormed;
    if k in s.tables && k in t.tables {
      CommonOpsPart(s.name, s.tables[k], t.tables[k], walk(s.name, k), n, part);
    }
  }

  lemma WholeStepOut(s: NamespaceDef, t: NamespaceDef, k: string, op: Op)
    requires op in NewTableStep(s, t)(k) || op in OldTableStep(s, t)(k)
    ensures PartOfTable(op) == WholeTable && TableOf(op) == k && !op.DropIndexOp?
  {
  }

  lemma WholeStepsOut(s: NamespaceDef, t: NamespaceDef, n: string, part: TablePart)
    requires part != WholeTable
    ensures Filter(Flat(Sorted(t.tables.Keys), NewTableStep(s, t)), PartOfOne(n, part)) == []
    ensures Filter(Flat(Sorted(s.tables.Keys), OldTableStep(s, t)), PartOfOne(n, part)) == []
  {
    hide Flat, NewTableStep, OldTableStep, TableOf, PartOfTable;
    var out := (op: Op) => !PartOfOne(n, part)(op);
    forall k, op | op in NewTableStep(s, t)(k) ensures out(op) {
      WholeStepOut(s, t, k, op);
      assert !PartOfOne(n, part)(op);
    }
    forall k, op | op in OldTableStep(s, t)(k) ensures out(op) {
      WholeStepOut(s, t, k, op);
      assert !PartOfOne(n, part)(op);
    }
    FlatAll(Sorted(t.tables.Keys), NewTableStep(s, t), out);
    FlatAll(Sorted(s.tables.Keys), OldTableStep(s, t), out);
    hide PartOfOne;
    assert forall op :: op in Flat(Sorted(t.tables.Keys), NewTableStep(s, t)) ==> out(op);
    assert forall op :: op in Flat(Sorted(s.tables.Keys), OldTableStep(s, t)) ==> out(op);
    FilterNone(Flat(Sorted(t.tables.Keys), NewTableStep(s, t)), PartOfOne(n, part));
    FilterNone(Flat(Sorted(s.tables.Keys), OldTableStep(s, t)), PartOfOne(n, part));
  }

  lemma LastOfThree(a: seq<Op>, b: seq<Op>, c: seq<Op>, p: Op -> bool, z: seq<Op>)
    requires Filter(a, p) == [] && Filter(b, p) == [] && Filter(c, p) == z
    ensures Filter(a + b + c, p) == z
  {
    FilterThree(a, b, c, p);
  }

  lemma TablesPart(s: NamespaceDef, t: NamespaceDef, walk: Walk, n: string, part: TablePart)
    requires SameNamed(s, t) && part != WholeTable
    ensures Filter(TablesOps(s, t, walk), PartOfOne(n, part)) ==
      Flat(Sorted(t.tables.Keys), PartBlock(s, t, walk, n, part))
  {
    hide Filter, Flat, CommonTableStep, NewTableStep, OldTableStep, PartBlock, PartOfOne, SameNamed;
    forall k ensures Filter(CommonTableStep(s, t, walk)(k), PartOfOne(n, part)) == PartBlock(s, t, walk, n, part)(k) {
      CommonPart(s, t, walk, k, n, part);
    }
    FilterFlat(Sorted(t.tables.Keys), CommonTableStep(s, t, walk), PartBlock(s, t, walk, n, part), PartOfOne(n, part));
    WholeStepsOut(s, t, n, part);
    LastOfThree(Flat(Sorted(t.tables.Keys), NewTableStep(s, t)), Flat(Sorted(s.tables.Keys), OldTableStep(s, t)),
                Flat(Sorted(t.tables.Keys), CommonTableStep(s, t, walk)), PartOfOne(n, part),
                Flat(Sorted(t.tables.Keys), PartBlock(s, t, walk, n, part)));
  }

  lemma OwnBlock(s: NamespaceDef, t: NamespaceDef, walk: Walk, n: string, part: TablePart)
    requires part == ColumnPart || part == ConstraintPart
    ensures forall k :: k != n ==> PartBlock(s, t, walk, n, part)(k) == []
    ensures n !in t.tables ==> PartBlock(s, t, walk, n, part)(n) == []
  {
    hide TableColumnOps, TableIndexOps, TableConstraintOps, Filter;
  }

  /** The part of a common table that no other table's operations concern. */
  lemma OwnPart(s: NamespaceDef, t: NamespaceDef, walk: Walk, n: string, part: TablePart)
    requires SameNamed(s, t) && (part == ColumnPart || part == ConstraintPart)
    ensures Filter(TablesOps(s, t, walk), PartOfOne(n, part)) == PartBlock(s, t, walk, n, part)(n)
  {
    TablesPart(s, t, walk, n, part);
    SortedDistinct(Sorted(t.tables.Keys));
    OwnBlock(s, t, walk, n, part);
    hide Filter, Flat, PartBlock, TablesOps, SameNamed, StrictlySorted;
    FlatOne(Sorted(t.tables.Keys), PartBlock(s, t, walk, n, part), n);
  }

  // ----- constraints

  /** What becomes of the target's constraint `i`: the source's if it has not changed. */
  function AfterConstraint(s: TableDef, t: TableDef, i: string): Constraint
    requires i in t.constraints
  {
    if i in s.constraints && !ConstraintChanged(s.constraints[i], t.constraints[i]) then s.constraints[i]
    else Attached(t.constraints[i], t.name)
  }

  function AfterConstraints(s: TableDef, t: TableDef): map<string, Constraint> {
    map i | i in t.constraints :: AfterConstraint(s, t, i)
  }

  ghost predicate ConstraintsNamed(t: TableDef) {
    forall i :: i in t.constraints ==> t.constraints[i].name == i
  }

  lemma ConstraintsKeyed(schema: string, s: TableDef, t: TableDef)
    requires ConstraintsNamed(t)
    ensures Keyed(NewConstraintStep(schema, s, t), ConstraintName())
    ensures Keyed(ChangedConstraintStep(schema, s, t), ConstraintName())
    ensures Keyed(OldConstraintStep(schema, s, t), ConstraintName())
  {
    hide ConstraintChanged;
    forall n, op | op in NewConstraintStep(schema, s, t)(n) ensures ConstraintName()(op) == n {
    }
    forall n, op | op in ChangedConstraintStep(schema, s, t)(n) ensures ConstraintName()(op) == n {
    }
    forall n, op | op in OldConstraintStep(schema, s, t)(n) ensures ConstraintName()(op) == n {
    }
  }

  ghost function OwnConstraintOps(schema: string, s: TableDef, t: TableDef, i: string): seq<Op> {
    NewConstraintStep(schema, s, t)(i) + ChangedConstraintStep(schema, s, t)(i) + OldConstraintStep(schema, s, t)(i)
  }

  lemma ConstraintsAbout(schema: string, s: TableDef, t: TableDef, i: string)
    requires ConstraintsNamed(t)
    ensures Filter(TableConstraintOps(schema, s, t), About(ConstraintName(), NoBroadcast(), i)) ==
      OwnConstraintOps(schema, s, t, i)
  {
    ConstraintsKeyed(schema, s, t);
    assert i !in t.constraints ==>
      NewConstraintStep(schema, s, t)(i) == [] && ChangedConstraintStep(schema, s, t)(i) == [];
    assert i !in s.constraints ==> OldConstraintStep(schema, s, t)(i) == [];
    hide Keyed, Filter, Flat, About, NewConstraintStep, ChangedConstraintStep, OldConstraintStep, ConstraintsNamed;
    ThreeAbout(t.constraints.Keys, NewConstraintStep(schema, s, t), t.constraints.Keys,
      ChangedConstraintStep(schema, s, t),
               s.constraints.Keys, OldConstraintStep(schema, s, t), ConstraintName(), i);
  }

  lemma OwnConstraintShape(schema: string, s: TableDef, t: TableDef, i: string)
    ensures OwnConstraintOps(schema, s, t, i) ==
      if i in t.constraints && i !in s.constraints then [AddConstraintOp(schema, t.name, t.constraints[i])]
      else if i in t.constraints && ConstraintChanged(s.constraints[i], t.constraints[i])
      then [DropConstraintOp(schema, s.name, i), AddConstraintOp(schema, t.name, t.constraints[i])]
      else if i in s.constraints && i !in t.constraints then [DropConstraintOp(schema, s.name, i)]
      else []
  {
    hide ConstraintChanged;
    var none: seq<Op> := [];
    assert none + none + none == none;
  }

  lemma ConstraintRuns(schema: string, s: TableDef, t: TableDef, i: string)
    ensures RunOne(OwnConstraintOps(schema, s, t, i), Get(s.constraints, i), ConstraintEffect()) ==
      Ok(Get(AfterConstraints(s, t), i))
  {
    OwnConstraintShape(schema, s, t, i);
    hide RunOne, OwnConstraintOps, ConstraintChanged, Attached;
    var drop := DropConstraintOp(schema, s.name, i);
    if i in t.constraints {
      var add := AddConstraintOp(schema, t.name, t.constraints[i]);
      RunTwo(add, add, Get(s.constraints, i), ConstraintEffect());
      RunTwo(drop, add, Get(s.constraints, i), ConstraintEffect());
    } else {
      RunTwo(drop, drop, Get(s.constraints, i), ConstraintEffect());
    }
  }

  lemma ConstraintsRun(schema: string, s: TableDef, t: TableDef)
    requires ConstraintsNamed(t)
    ensures Run(TableConstraintOps(schema, s, t), s.constraints, ConstraintName(), NoBroadcast(), ConstraintEffect()) ==
      Ok(AfterConstraints(s, t))
  {
    EffectsTame();
    hide Run, RunOne, TableConstraintOps, Filter, About, AfterConstraints, OwnConstraintOps, ConstraintEffect,
      ConstraintsNamed;
    forall n ensures
      RunOne(Filter(TableConstraintOps(schema, s, t), About(ConstraintName(), NoBroadcast(), n)), Get(s.constraints, n),
             ConstraintEffect()) == Ok(Get(AfterConstraints(s, t), n))
    {
      ConstraintsAbout(schema, s, t, n);
      ConstraintRuns(schema, s, t, n);
    }
    RunByName(TableConstraintOps(schema, s, t), s.constraints, ConstraintName(), NoBroadcast(), ConstraintEffect(),
              AfterConstraints(s, t));
  }

  lemma SettledConstraint(s: TableDef, t: TableDef, i: string)
    requires i in t.constraints
    ensures !ConstraintChanged(AfterConstraint(s, t, i), t.constraints[i])
  {
  }

  lemma ConstraintStepsSettle(schema: string, s: TableDef, t: TableDef, r: TableDef, n: string)
    requires r.constraints == AfterConstraints(s, t)
    ensures NewConstraintStep(schema, r, t)(n) == []
    ensures ChangedConstraintStep(schema, r, t)(n) == []
    ensures OldConstraintStep(schema, r, t)(n) == []
  {
    hide ConstraintChanged, AfterConstraint;
    if n in t.constraints { SettledConstraint(s, t, n); }
  }

  lemma ConstraintsSettle(schema: string, s: TableDef, t: TableDef, r: TableDef)
    requires r.constraints == AfterConstraints(s, t)
    ensures TableConstraintOps(schema, r, t) == []
  {
    hide Flat, NewConstraintStep, ChangedConstraintStep, OldConstraintStep, AfterConstraints;
    forall n ensures NewConstraintStep(schema, r, t)(n) == [] && ChangedConstraintStep(schema, r, t)(n) == [] &&
      OldConstraintStep(schema, r, t)(n) == []
    {
      ConstraintStepsSettle(schema, s, t, r, n);
    }
    FlatEmpty(Sorted(t.constraints.Keys), NewConstraintStep(schema, r, t));
    FlatEmpty(Sorted(t.constraints.Keys), ChangedConstraintStep(schema, r, t));
    FlatEmpty(Sorted(r.constraints.Keys), OldConstraintStep(schema, r, t));
  }

  // ----- indexes

  /** The operations for a table remove its source index `i`, perhaps to create it anew. */
  predicate DropsIndex(s: TableDef, t: TableDef, i: string) {
    i in s.indexes && (i !in t.indexes || !SameIndex(s.indexes[i], t.indexes[i]))
  }

  /** Table `k` has DROP INDEX `i` among its operations. */
  ghost predicate IndexDroppedFor(s: NamespaceDef, t: NamespaceDef, k: string, i: string) {
    k in s.tables && k in t.tables && DropsIndex(s.tables[k], t.tables[k], i)
  }

  ghost predicate DroppedBefore(s: NamespaceDef, t: NamespaceDef, n: string, i: string) {
    exists k :: Less(k, n) && IndexDroppedFor(s, t, k, i)
  }

  ghost predicate DroppedAfter(s: NamespaceDef, t: NamespaceDef, n: string, i: string) {
    exists k :: Less(n, k) && IndexDroppedFor(s, t, k, i)
  }

  /** Some table's operations drop the index. */
  ghost predicate DroppedAnywhere(s: NamespaceDef, t: NamespaceDef, i: string) {
    exists k :: IndexDroppedFor(s, t, k, i)
  }

  /** Operations run in the order in which they are emitted, or in the order of a plan. */
  datatype Order = AsEmitted | AsPlanned

  /** What becomes of the target's index `i` of table `n`.  DROP INDEX names no table, and in a plan
      all of them come after all CREATE INDEX. */
  ghost function AfterIndex(order: Order, s: NamespaceDef, t: NamespaceDef, n: string, i: string): Option<Index>
    requires n in s.tables && n in t.tables
  {
    if i !in t.tables[n].indexes then None
    else if order.AsPlanned? then
      if DroppedAnywhere(s, t, i) then None
      else if i in s.tables[n].indexes then Some(s.tables[n].indexes[i])
      else Some(t.tables[n].indexes[i])
    else if DroppedAfter(s, t, n, i) then None
    else if i !in s.tables[n].indexes || !SameIndex(s.tables[n].indexes[i], t.tables[n].indexes[i]) then
      Some(t.tables[n].indexes[i])
    else if DroppedBefore(s, t, n, i) then None
    else Some(s.tables[n].indexes[i])
  }

  ghost function AfterIndexes(order: Order, s: NamespaceDef, t: NamespaceDef, n: string): map<string, Index>
    requires n in s.tables && n in t.tables
  {
    map i | i in t.tables[n].indexes && AfterIndex(order, s, t, n, i).Some? :: AfterIndex(order, s, t, n, i).value
  }

  function AboutIndex(i: string): Op -> bool {
    About(IndexName(), NoBroadcast(), i)
  }

  ghost predicate IndexesNamed(t: TableDef) {
    forall i :: i in t.indexes ==> t.indexes[i].name == i
  }

  ghost function OwnIndexOps(schema: string, s: TableDef, t: TableDef, i: string): seq<Op> {
    NewIndexStep(schema, s, t)(i) + OldIndexStep(schema, s, t)(i) + ChangedIndexStep(schema, s, t)(i)
  }

  lemma IndexesKeyed(schema: string, s: TableDef, t: TableDef)
    requires IndexesNamed(t)
    ensures Keyed(NewIndexStep(schema, s, t), IndexName())
    ensures Keyed(OldIndexStep(schema, s, t), IndexName())
    ensures Keyed(ChangedIndexStep(schema, s, t), IndexName())
  {
    hide SameIndex;
    forall n, op | op in NewIndexStep(schema, s, t)(n) ensures IndexName()(op) == n {
    }
    forall n, op | op in OldIndexStep(schema, s, t)(n) ensures IndexName()(op) == n {
    }
    forall n, op | op in ChangedIndexStep(schema, s, t)(n) ensures IndexName()(op) == n {
    }
  }

  lemma IndexesAbout(schema: string, s: TableDef, t: TableDef, i: string)
    requires IndexesNamed(t)
    ensures Filter(TableIndexOps(schema, s, t), AboutIndex(i)) == OwnIndexOps(schema, s, t, i)
  {
    IndexesKeyed(schema, s, t);
    assert i !in t.indexes ==> NewIndexStep(schema, s, t)(i) == [] && ChangedIndexStep(schema, s, t)(i) == [];
    assert i !in s.indexes ==> OldIndexStep(schema, s, t)(i) == [];
    hide Keyed, Filter, Flat, About, NewIndexStep, ChangedIndexStep, OldIndexStep, IndexesNamed;
    ThreeAbout(t.indexes.Keys, NewIndexStep(schema, s, t), s.indexes.Keys, OldIndexStep(schema, s, t),
               t.indexes.Keys, ChangedIndexStep(schema, s, t), IndexName(), i);
  }

  lemma OwnIndexShape(schema: string, s: TableDef, t: TableDef, i: string)
    ensures OwnIndexOps(schema, s, t, i) ==
      (if DropsIndex(s, t, i) then [DropIndexOp(schema, i)] else []) +
      (if i in t.indexes && (i !in s.indexes || DropsIndex(s, t, i)) then [CreateIndexOp(schema, t.indexes[i])] else [])
  {
    hide SameIndex;
  }

  /** What table `k` does about index `i` of table `n`. */
  ghost function IndexBlock(s: NamespaceDef, t: NamespaceDef, n: string, i: string): string -> seq<Op> {
    (k: string) =>
      if k == n && k in s.tables && k in t.tables then OwnIndexOps(s.name, s.tables[k], t.tables[k], i)
      else if IndexDroppedFor(s, t, k, i) then [DropIndexOp(s.name, i)]
      else []
  }

  lemma DropsAmong(a: seq<Op>, b: seq<Op>)
    requires forall op :: op in a ==> op.DropIndexOp?
    requires forall op :: op in b ==> !op.DropIndexOp?
    ensures Filter(a + b, IsDropIndex()) == a
  {
    FilterConcat(a, b, IsDropIndex());
    FilterAll(a, IsDropIndex());
    FilterNone(b, IsDropIndex());
  }

  lemma OtherIndexOps(schema: string, s: TableDef, t: TableDef, i: string)
    requires IndexesNamed(t)
    ensures Filter(Filter(TableIndexOps(schema, s, t), IsDropIndex()), AboutIndex(i)) ==
      if DropsIndex(s, t, i) then [DropIndexOp(schema, i)] else []
  {
    hide TableIndexOps, DropsIndex, OwnIndexOps, AboutIndex, IsDropIndex, Filter;
    FilterSwap(TableIndexOps(schema, s, t), IsDropIndex(), AboutIndex(i));
    IndexesAbout(schema, s, t, i);
    OwnIndexShape(schema, s, t, i);
    DropsAmong(if DropsIndex(s, t, i) then [DropIndexOp(schema, i)] else [],
               if i in t.indexes &&
                 (i !in s.indexes || DropsIndex(s, t, i)) then [CreateIndexOp(schema, t.indexes[i])] else []);
  }

  lemma IndexPartAbout(s: NamespaceDef, t: NamespaceDef, walk: Walk, n: string, i: string, k: string)
    requires SameNamed(s, t)
    ensures Filter(PartBlock(s, t, walk, n, IndexPart)(k), AboutIndex(i)) == IndexBlock(s, t, n, i)(k)
  {
    hide TableIndexOps, OwnIndexOps, AboutIndex, DropsIndex;
    if k in s.tables && k in t.tables {
      IndexesAbout(s.name, s.tables[k], t.tables[k], i);
      OtherIndexOps(s.name, s.tables[k], t.tables[k], i);
    }
  }

  lemma TablesIndexAbout(s: NamespaceDef, t: NamespaceDef, walk: Walk, n: string, i: string)
    requires SameNamed(s, t)
    ensures Filter(Filter(TablesOps(s, t, walk), PartOfOne(n, IndexPart)), AboutIndex(i)) ==
      Flat(Sorted(t.tables.Keys), IndexBlock(s, t, n, i))
  {
    TablesPart(s, t, walk, n, IndexPart);
    hide Filter, Flat, PartBlock, IndexBlock, AboutIndex, SameNamed, TablesOps, PartOfOne;
    forall k ensures Filter(PartBlock(s, t, walk, n, IndexPart)(k), AboutIndex(i)) == IndexBlock(s, t, n, i)(k) {
      IndexPartAbout(s, t, walk, n, i, k);
    }
    FilterFlat(Sorted(t.tables.Keys), PartBlock(s, t, walk, n, IndexPart), IndexBlock(s, t, n, i), AboutIndex(i));
  }

  ghost predicate DroppedAmong(s: NamespaceDef, t: NamespaceDef, names: seq<string>, i: string) {
    exists k :: k in names && IndexDroppedFor(s, t, k, i)
  }

  lemma OtherRuns(s: NamespaceDef, t: NamespaceDef, n: string, i: string, k: string, v: Option<Index>)
    requires k != n
    ensures RunOne(IndexBlock(s, t, n, i)(k), v, IndexEffect()) == Ok(if IndexDroppedFor(s, t, k, i) then None else v)
  {
    hide RunOne, IndexDroppedFor;
    var drop := DropIndexOp(s.name, i);
    RunTwo(drop, drop, v, IndexEffect());
  }

  /** What other tables drop is gone. */
  lemma {:induction false} OthersRun(s: NamespaceDef, t: NamespaceDef, n: string, i: string, names: seq<string>,
                                     v: Option<Index>)
    requires n !in names
    ensures RunOne(Flat(names, IndexBlock(s, t, n, i)), v, IndexEffect()) ==
      Ok(if DroppedAmong(s, t, names, i) then None else v)
  {
    if names != [] {
      hide IndexDroppedFor, IndexBlock, RunOne, IndexEffect;
      var init, last := names[..|names| - 1], names[|names| - 1];
      assert forall k :: k in names <==> k in init || k == last;
      OthersRun(s, t, n, i, init, v);
      RunOneConcat(Flat(init, IndexBlock(s, t, n, i)), IndexBlock(s, t, n, i)(last), v, IndexEffect());
      OtherRuns(s, t, n, i, last, if DroppedAmong(s, t, init, i) then None else v);
    }
  }

  /** The table's own operations on an index that may already be gone. */
  lemma OwnIndexRuns(schema: string, s: TableDef, t: TableDef, i: string, v: Option<Index>)
    requires v == Get(s.indexes, i) || v == None
    ensures RunOne(OwnIndexOps(schema, s, t, i), v, IndexEffect()) ==
      Ok(if i !in t.indexes then None
         else if i !in s.indexes || DropsIndex(s, t, i) then Some(t.indexes[i]) else v)
  {
    OwnIndexShape(schema, s, t, i);
    hide OwnIndexOps, RunOne, SameIndex;
    var drop := DropIndexOp(schema, i);
    if i in t.indexes {
      var create := CreateIndexOp(schema, t.indexes[i]);
      RunTwo(drop, create, v, IndexEffect());
      RunTwo(create, create, v, IndexEffect());
      assert [] + [create] == [create];
    } else {
      RunTwo(drop, drop, v, IndexEffect());
      assert [drop] + [] == [drop];
    }
    var none: seq<Op> := [];
    assert none + none == none;
  }

  lemma SplitAt(names: seq<string>, n: string) returns (a: seq<string>, b: seq<string>)
    requires StrictlySorted(names) && n in names
    ensures names == a + [n] + b
    ensures forall k :: k in a <==> k in names && Less(k, n)
    ensures forall k :: k in b <==> k in names && Less(n, k)
  {
    var p :| 0 <= p < |names| && names[p] == n;
    a, b := names[..p], names[p + 1..];
    forall k | k in names ensures (k in a <==> Less(k, n)) && (k in b <==> Less(n, k)) {
      var q :| 0 <= q < |names| && names[q] == k;
      if q < p { assert a[q] == k; LessAsymmetric(k, n); }
      else if q > p { assert b[q - p - 1] == k; LessAsymmetric(n, k); }
      else { LessIrreflexive(n); }
      if k in a { var j :| 0 <= j < |a| && a[j] == k; assert Less(names[j], n); }
      if k in b { var j :| 0 <= j < |b| && b[j] == k; assert Less(n, names[p + 1 + j]); }
    }
  }

  lemma RunThreeParts<V>(a: seq<Op>, b: seq<Op>, c: seq<Op>, v: Option<V>, v1: Option<V>, v2: Option<V>,
                         v3: Option<V>, effect: Effect<V>)
    requires RunOne(a, v, effect) == Ok(v1) && RunOne(b, v1, effect) == Ok(v2) && RunOne(c, v2, effect) == Ok(v3)
    ensures RunOne(a + b + c, v, effect) == Ok(v3)
  {
    RunOneConcat(a, b, v, effect);
    RunOneConcat(a + b, c, v, effect);
  }

  lemma FlatAround(a: seq<string>, n: string, b: seq<string>, f: string -> seq<Op>)
    ensures Flat(a + [n] + b, f) == Flat(a, f) + f(n) + Flat(b, f)
  {
    assert Flat([n], f) == f(n) by { assert [n][..0] == []; }
    FlatConcat(a + [n], b, f);
    FlatConcat(a, [n], f);
  }

  lemma SplitDrops(s: NamespaceDef, t: NamespaceDef, n: string, i: string) returns (a: seq<string>, b: seq<string>)
    requires n in t.tables
    ensures Sorted(t.tables.Keys) == a + [n] + b && n !in a && n !in b
    ensures DroppedAmong(s, t, a, i) <==> DroppedBefore(s, t, n, i)
    ensures DroppedAmong(s, t, b, i) <==> DroppedAfter(s, t, n, i)
  {
    a, b := SplitAt(Sorted(t.tables.Keys), n);
    LessIrreflexive(n);
    hide DropsIndex, StrictlySorted;
  }

  lemma OwnIndexBlock(s: NamespaceDef, t: NamespaceDef, n: string, i: string)
    requires n in s.tables && n in t.tables
    ensures IndexBlock(s, t, n, i)(n) == OwnIndexOps(s.name, s.tables[n], t.tables[n], i)
  {
    hide OwnIndexOps;
  }

  lemma AroundIndex(s: NamespaceDef, t: NamespaceDef, n: string, i: string)
    requires n in s.tables && n in t.tables
    ensures RunOne(Flat(Sorted(t.tables.Keys), IndexBlock(s, t, n, i)), Get(s.tables[n].indexes, i), IndexEffect()) ==
      Ok(Get(AfterIndexes(AsEmitted, s, t, n), i))
  {
    hide IndexEffect, RunOne, IndexBlock, DroppedAmong, DroppedBefore, DroppedAfter, OwnIndexOps, SameIndex, Flat;
    var f, v := IndexBlock(s, t, n, i), Get(s.tables[n].indexes, i);
    var a, b := SplitDrops(s, t, n, i);
    OwnIndexBlock(s, t, n, i);
    FlatAround(a, n, b, f);
    var v1 := if DroppedAmong(s, t, a, i) then None else v;
    OthersRun(s, t, n, i, a, v);
    OwnIndexRuns(s.name, s.tables[n], t.tables[n], i, v1);
    var v2 := RunOne(f(n), v1, IndexEffect()).value;
    OthersRun(s, t, n, i, b, v2);
    var v3 := if DroppedAmong(s, t, b, i) then None else v2;
    RunThreeParts(Flat(a, f), f(n), Flat(b, f), v, v1, v2, v3, IndexEffect());
  }
}
