/** Which of the differ's operations concern a given object. */
module DiffShape {
  import opened Catalog
  import opened Operations
  import opened Names
  import opened Lists
  import opened DiffSpec
  import opened Locality
  import opened Semantics
  import opened ObjectMigration
  import opened ColumnMigration
  import opened TableMigration

  ghost predicate AllOf(ops: seq<Op>, p: Op -> bool) {
    forall op :: op in ops ==> p(op)
  }

  /** Whatever the name, `f` gives operations that satisfy `p` only. */
  ghost predicate Gives(f: string -> seq<Op>, p: Op -> bool) {
    forall n, op :: op in f(n) ==> p(op)
  }

  lemma AllOfFlat(names: seq<string>, f: string -> seq<Op>, p: Op -> bool)
    requires Gives(f, p)
    ensures AllOf(Flat(names, f), p)
  {
    FlatAll(names, f, p);
  }

  lemma AllOfTwo(a: seq<Op>, b: seq<Op>, p: Op -> bool)
    requires AllOf(a, p) && AllOf(b, p)
    ensures AllOf(a + b, p)
  {
  }

  lemma AllOfThree(a: seq<Op>, b: seq<Op>, c: seq<Op>, p: Op -> bool)
    requires AllOf(a, p) && AllOf(b, p) && AllOf(c, p)
    ensures AllOf(a + b + c, p)
  {
  }

  lemma AllOfWeaker(ops: seq<Op>, p: Op -> bool, q: Op -> bool)
    requires AllOf(ops, p) && forall op :: p(op) ==> q(op)
    ensures AllOf(ops, q)
  {
  }

  /** A part of a namespace, in the namespace `ns`. */
  function InNamespacePart(ns: string, part: Part): Op -> bool {
    (op: Op) => op.schema == ns && PartOf(op) == part
  }

  // ----- where the operations belong

  lemma TypeOpHome(s: NamespaceDef, t: NamespaceDef, n: string, op: Op)
    requires s.name == t.name
    requires op in NewTypeStep(s, t)(n) || op in OldTypeStep(s, t)(n)
    ensures op.schema == t.name && PartOf(op) == Types
  {
  }

  lemma TypeStepsGive(s: NamespaceDef, t: NamespaceDef)
    requires s.name == t.name
    ensures Gives(NewTypeStep(s, t), InNamespacePart(t.name, Types))
    ensures Gives(OldTypeStep(s, t), InNamespacePart(t.name, Types))
  {
    hide NewTypeStep, OldTypeStep, PartOf;
    forall n, op | op in NewTypeStep(s, t)(n) ensures InNamespacePart(t.name, Types)(op) {
      TypeOpHome(s, t, n, op);
    }
    forall n, op | op in OldTypeStep(s, t)(n) ensures InNamespacePart(t.name, Types)(op) {
      TypeOpHome(s, t, n, op);
    }
  }

  lemma CommonTypeGives(s: NamespaceDef, t: NamespaceDef)
    ensures Gives(CommonTypeStep(s, t), InNamespacePart(t.name, Types))
  {
    hide LabelOps;
    forall n, op | op in CommonTypeStep(s, t)(n) ensures InNamespacePart(t.name, Types)(op) {
      LabelName(t.name, n, t.types[n].labels[|s.types[n].labels|..], op);
    }
  }

  lemma TypesHome(s: NamespaceDef, t: NamespaceDef)
    requires s.name == t.name
    ensures AllOf(TypesOps(s, t), InNamespacePart(t.name, Types))
  {
    hide AllOf, Gives, NewTypeStep, CommonTypeStep, OldTypeStep, InNamespacePart, Flat;
    var p := InNamespacePart(t.name, Types);
    TypeStepsGive(s, t);
    CommonTypeGives(s, t);
    AllOfFlat(Sorted(t.types.Keys), NewTypeStep(s, t), p);
    AllOfFlat(Sorted(t.types.Keys), CommonTypeStep(s, t), p);
    AllOfFlat(Sorted(s.types.Keys), OldTypeStep(s, t), p);
    AllOfThree(Flat(Sorted(t.types.Keys), NewTypeStep(s, t)), Flat(Sorted(t.types.Keys), CommonTypeStep(s, t)),
               Flat(Sorted(s.types.Keys), OldTypeStep(s, t)), p);
  }

  lemma ViewOpHome(s: NamespaceDef, t: NamespaceDef, n: string, op: Op)
    requires s.name == t.name
    requires op in TargetViewStep(s, t)(n) || op in OldViewStep(s, t)(n)
    ensures op.schema == t.name && PartOf(op) == Views
  {
  }

  lemma ViewStepsGive(s: NamespaceDef, t: NamespaceDef)
    requires s.name == t.name
    ensures Gives(TargetViewStep(s, t), InNamespacePart(t.name, Views))
    ensures Gives(OldViewStep(s, t), InNamespacePart(t.name, Views))
  {
    hide TargetViewStep, OldViewStep, PartOf;
    forall n, op | op in TargetViewStep(s, t)(n) ensures InNamespacePart(t.name, Views)(op) {
      ViewOpHome(s, t, n, op);
    }
    forall n, op | op in OldViewStep(s, t)(n) ensures InNamespacePart(t.name, Views)(op) {
      ViewOpHome(s, t, n, op);
    }
  }

  lemma ViewsHome(s: NamespaceDef, t: NamespaceDef)
    requires s.name == t.name
    ensures AllOf(ViewsOps(s, t), InNamespacePart(t.name, Views))
  {
    hide AllOf, Gives, TargetViewStep, OldViewStep, InNamespacePart, Flat;
    var p := InNamespacePart(t.name, Views);
    ViewStepsGive(s, t);
    AllOfFlat(Sorted(t.views.Keys), TargetViewStep(s, t), p);
    AllOfFlat(Sorted(s.views.Keys), OldViewStep(s, t), p);
    AllOfTwo(Flat(Sorted(t.views.Keys), TargetViewStep(s, t)), Flat(Sorted(s.views.Keys), OldViewStep(s, t)), p);
  }

  lemma SequenceOpHome(s: NamespaceDef, t: NamespaceDef, n: string, op: Op)
    requires s.name == t.name
    requires op in TargetSequenceStep(s, t)(n) || op in OldSequenceStep(s, t)(n)
    ensures op.schema == t.name && PartOf(op) == Sequences
  {
  }

  lemma SequenceStepsGive(s: NamespaceDef, t: NamespaceDef)
    requires s.name == t.name
    ensures Gives(TargetSequenceStep(s, t), InNamespacePart(t.name, Sequences))
    ensures Gives(OldSequenceStep(s, t), InNamespacePart(t.name, Sequences))
  {
    hide TargetSequenceStep, OldSequenceStep, PartOf;
    forall n, op | op in TargetSequenceStep(s, t)(n) ensures InNamespacePart(t.name, Sequences)(op) {
      SequenceOpHome(s, t, n, op);
    }
    forall n, op | op in OldSequenceStep(s, t)(n) ensures InNamespacePart(t.name, Sequences)(op) {
      SequenceOpHome(s, t, n, op);
    }
  }

  lemma SequencesHome(s: NamespaceDef, t: NamespaceDef)
    requires s.name == t.name
    ensures AllOf(SequencesOps(s, t), InNamespacePart(t.name, Sequences))
  {
    hide AllOf, Gives, TargetSequenceStep, OldSequenceStep, InNamespacePart, Flat;
    var p := InNamespacePart(t.name, Sequences);
    SequenceStepsGive(s, t);
    AllOfFlat(Sorted(t.sequences.Keys), TargetSequenceStep(s, t), p);
    AllOfFlat(Sorted(s.sequences.Keys), OldSequenceStep(s, t), p);
    AllOfTwo(Flat(Sorted(t.sequences.Keys), TargetSequenceStep(s, t)),
             Flat(Sorted(s.sequences.Keys), OldSequenceStep(s, t)), p);
  }

  lemma ExtensionOpHome(s: NamespaceDef, t: NamespaceDef, n: string, op: Op)
    requires s.name == t.name
    requires op in TargetExtensionStep(s, t)(n) || op in OldExtensionStep(s, t)(n)
    ensures op.schema == t.name && PartOf(op) == Extensions
  {
  }

  lemma ExtensionStepsGive(s: NamespaceDef, t: NamespaceDef)
    requires s.name == t.name
    ensures Gives(TargetExtensionStep(s, t), InNamespacePart(t.name, Extensions))
    ensures Gives(OldExtensionStep(s, t), InNamespacePart(t.name, Extensions))
  {
    hide TargetExtensionStep, OldExtensionStep, PartOf;
    forall n, op | op in TargetExtensionStep(s, t)(n) ensures InNamespacePart(t.name, Extensions)(op) {
      ExtensionOpHome(s, t, n, op);
    }
    forall n, op | op in OldExtensionStep(s, t)(n) ensures InNamespacePart(t.name, Extensions)(op) {
      ExtensionOpHome(s, t, n, op);
    }
  }

  lemma ExtensionsHome(s: NamespaceDef, t: NamespaceDef)
    requires s.name == t.name
    ensures AllOf(ExtensionsOps(s, t), InNamespacePart(t.name, Extensions))
  {
    hide AllOf, Gives, TargetExtensionStep, OldExtensionStep, InNamespacePart, Flat;
    var p := InNamespacePart(t.name, Extensions);
    ExtensionStepsGive(s, t);
    AllOfFlat(Sorted(t.extensions.Keys), TargetExtensionStep(s, t), p);
    AllOfFlat(Sorted(s.extensions.Keys), OldExtensionStep(s, t), p);
    AllOfTwo(Flat(Sorted(t.extensions.Keys), TargetExtensionStep(s, t)),
             Flat(Sorted(s.extensions.Keys), OldExtensionStep(s, t)), p);
  }

  // ----- tables

  function ForTable(ns: string, table: string, part: TablePart): Op -> bool {
    (op: Op) => op.schema == ns && PartOfTable(op) == part && PartOf(op) == Tables &&
      (op.DropIndexOp? || TableOf(op) == table)
  }

  /** A column operation belongs to its table. */
  lemma ColumnOpHome(op: Op)
    requires op.IsColumnOp()
    ensures PartOf(op) == Tables && PartOfTable(op) == ColumnPart && TableOf(op) == op.table
  {
  }

  lemma RenamesHome(schema: string, table: string, pairs: seq<(string, string)>)
    ensures AllOf(RenameOps(schema, table, pairs), ForTable(schema, table, ColumnPart))
  {
    hide RenameOps;
    forall op | op in RenameOps(schema, table, pairs) ensures ForTable(schema, table, ColumnPart)(op) {
      RenamesShape(schema, table, pairs, op);
      ColumnOpHome(op);
    }
  }

  lemma {:induction false} RenamesShape(schema: string, table: string, pairs: seq<(string, string)>, op: Op)
    requires op in RenameOps(schema, table, pairs)
    ensures op.RenameColumnOp? && op.schema == schema && op.table == table
  {
    if op in RenameOps(schema, table, pairs[..|pairs| - 1]) {
      RenamesShape(schema, table, pairs[..|pairs| - 1], op);
    }
  }

  lemma ColumnStepHome(schema: string, s: TableDef, t: TableDef, pairs: seq<(string, string)>, n: string, op: Op)
    requires s.name == t.name
    requires op in AddStep(schema, t, pairs)(n) || op in DropStep(schema, s, t, pairs)(n)
    ensures op.schema == schema && PartOf(op) == Tables && PartOfTable(op) == ColumnPart && TableOf(op) == t.name
  {
  }

  lemma ColumnStepsGive(schema: string, s: TableDef, t: TableDef, pairs: seq<(string, string)>)
    requires s.name == t.name
    ensures Gives(AddStep(schema, t, pairs), ForTable(schema, t.name, ColumnPart))
    ensures Gives(DropStep(schema, s, t, pairs), ForTable(schema, t.name, ColumnPart))
  {
    hide AddStep, DropStep, PartOf, PartOfTable, TableOf;
    forall n, op | op in AddStep(schema, t, pairs)(n) ensures ForTable(schema, t.name, ColumnPart)(op) {
      ColumnStepHome(schema, s, t, pairs, n, op);
    }
    forall n, op | op in DropStep(schema, s, t, pairs)(n) ensures ForTable(schema, t.name, ColumnPart)(op) {
      ColumnStepHome(schema, s, t, pairs, n, op);
    }
  }

  lemma AlterGives(schema: string, s: TableDef, t: TableDef)
    ensures Gives(AlterStep(schema, s, t), ForTable(schema, t.name, ColumnPart))
  {
    hide ColumnOps, PartOf, PartOfTable, TableOf;
    forall n, op | op in AlterStep(schema, s, t)(n) ensures ForTable(schema, t.name, ColumnPart)(op) {
      ColumnOpsAbout(schema, t.name, s.columns[n], t.columns[n]);
      ColumnOpHome(op);
    }
  }

  lemma ColumnsHome(schema: string, s: TableDef, t: TableDef, walk: seq<string>)
    requires s.name == t.name
    ensures AllOf(TableColumnOps(schema, s, t, walk), ForTable(schema, t.name, ColumnPart))
  {
    hide AllOf, Gives, AddStep, DropStep, AlterStep, Flat, Renames, RenameOps, TargetOnly, ForTable;
    var p := ForTable(schema, t.name, ColumnPart);
    RenamesHome(schema, t.name, Renames(s, t));
    ColumnStepsGive(schema, s, t, Renames(s, t));
    AlterGives(schema, s, t);
    var a, b, c := Flat(TargetOnly(s, t), AddStep(schema, t, Renames(s, t))),
      Flat(walk, DropStep(schema, s, t, Renames(s, t))), Flat(t.order, AlterStep(schema, s, t));
    AllOfFlat(TargetOnly(s, t), AddStep(schema, t, Renames(s, t)), p);
    AllOfFlat(walk, DropStep(schema, s, t, Renames(s, t)), p);
    AllOfFlat(t.order, AlterStep(schema, s, t), p);
    AllOfThree(RenameOps(schema, t.name, Renames(s, t)), a, b, p);
    AllOfTwo(RenameOps(schema, t.name, Renames(s, t)) + a + b, c, p);
  }

  lemma IndexOpHome(schema: string, s: TableDef, t: TableDef, n: string, op: Op)
    requires s.name == t.name && TableWellFormed(t)
    requires op in NewIndexStep(schema, s, t)(n) || op in OldIndexStep(schema, s, t)(n) ||
      op in ChangedIndexStep(schema, s, t)(n)
    ensures op.schema == schema && PartOf(op) == Tables && PartOfTable(op) == IndexPart &&
      (op.DropIndexOp? || TableOf(op) == t.name)
  {
  }

  lemma IndexStepsGive(schema: string, s: TableDef, t: TableDef)
    requires s.name == t.name && TableWellFormed(t)
    ensures Gives(NewIndexStep(schema, s, t), ForTable(schema, t.name, IndexPart))
    ensures Gives(OldIndexStep(schema, s, t), ForTable(schema, t.name, IndexPart))
    ensures Gives(ChangedIndexStep(schema, s, t), ForTable(schema, t.name, IndexPart))
  {
    hide NewIndexStep, OldIndexStep, ChangedIndexStep, PartOf, PartOfTable, TableOf;
    forall n, op | op in NewIndexStep(schema, s, t)(n) ensures ForTable(schema, t.name, IndexPart)(op) {
      IndexOpHome(schema, s, t, n, op);
    }
    forall n, op | op in OldIndexStep(schema, s, t)(n) ensures ForTable(schema, t.name, IndexPart)(op) {
      IndexOpHome(schema, s, t, n, op);
    }
    forall n, op | op in ChangedIndexStep(schema, s, t)(n) ensures ForTable(schema, t.name, IndexPart)(op) {
      IndexOpHome(schema, s, t, n, op);
    }
  }

  lemma IndexesHome(schema: string, s: TableDef, t: TableDef)
    requires s.name == t.name && TableWellFormed(t)
    ensures AllOf(TableIndexOps(schema, s, t), ForTable(schema, t.name, IndexPart))
  {
    hide AllOf, Gives, NewIndexStep, OldIndexStep, ChangedIndexStep, Flat, ForTable;
    var p := ForTable(schema, t.name, IndexPart);
    IndexStepsGive(schema, s, t);
    AllOfFlat(Sorted(t.indexes.Keys), NewIndexStep(schema, s, t), p);
    AllOfFlat(Sorted(s.indexes.Keys), OldIndexStep(schema, s, t), p);
    AllOfFlat(Sorted(t.indexes.Keys), ChangedIndexStep(schema, s, t), p);
    AllOfThree(Flat(Sorted(t.indexes.Keys), NewIndexStep(schema, s, t)),
               Flat(Sorted(s.indexes.Keys), OldIndexStep(schema, s, t)),
               Flat(Sorted(t.indexes.Keys), ChangedIndexStep(schema, s, t)), p);
  }

  lemma ConstraintOpHome(schema: string, s: TableDef, t: TableDef, n: string, op: Op)
    requires s.name == t.name
    requires op in NewConstraintStep(schema, s, t)(n) || op in ChangedConstraintStep(schema, s, t)(n) ||
      op in OldConstraintStep(schema, s, t)(n)
    ensures op.schema == schema && PartOf(op) == Tables && PartOfTable(op) == ConstraintPart && TableOf(op) == t.name
  {
  }

  lemma ConstraintStepsGive(schema: string, s: TableDef, t: TableDef)
    requires s.name == t.name
    ensures Gives(NewConstraintStep(schema, s, t), ForTable(schema, t.name, ConstraintPart))
    ensures Gives(ChangedConstraintStep(schema, s, t), ForTable(schema, t.name, ConstraintPart))
    ensures Gives(OldConstraintStep(schema, s, t), ForTable(schema, t.name, ConstraintPart))
  {
    hide NewConstraintStep, ChangedConstraintStep, OldConstraintStep, PartOf, PartOfTable, TableOf;
    forall n, op | op in NewConstraintStep(schema, s, t)(n) ensures ForTable(schema, t.name, ConstraintPart)(op) {
      ConstraintOpHome(schema, s, t, n, op);
    }
    forall n, op | op in ChangedConstraintStep(schema, s, t)(n) ensures ForTable(schema, t.name, ConstraintPart)(op) {
      ConstraintOpHome(schema, s, t, n, op);
    }
    forall n, op | op in OldConstraintStep(schema, s, t)(n) ensures ForTable(schema, t.name, ConstraintPart)(op) {
      ConstraintOpHome(schema, s, t, n, op);
    }
  }

  lemma ConstraintsHome(schema: string, s: TableDef, t: TableDef)
    requires s.name == t.name
    ensures AllOf(TableConstraintOps(schema, s, t), ForTable(schema, t.name, ConstraintPart))
  {
    hide AllOf, Gives, NewConstraintStep, ChangedConstraintStep, OldConstraintStep, Flat, ForTable;
    var p := ForTable(schema, t.name, ConstraintPart);
    ConstraintStepsGive(schema, s, t);
    AllOfFlat(Sorted(t.constraints.Keys), NewConstraintStep(schema, s, t), p);
    AllOfFlat(Sorted(t.constraints.Keys), ChangedConstraintStep(schema, s, t), p);
    AllOfFlat(Sorted(s.constraints.Keys), OldConstraintStep(schema, s, t), p);
    AllOfThree(Flat(Sorted(t.constraints.Keys), NewConstraintStep(schema, s, t)),
               Flat(Sorted(t.constraints.Keys), ChangedConstraintStep(schema, s, t)),
               Flat(Sorted(s.constraints.Keys), OldConstraintStep(schema, s, t)), p);
  }

  /** A change to a table that both schemas have. */
  function ChangesTable(ns: string, table: string): Op -> bool {
    (op: Op) => op.schema == ns && PartOf(op) == Tables && PartOfTable(op) != WholeTable &&
      (op.DropIndexOp? || TableOf(op) == table)
  }

  lemma CommonTableHome(schema: string, s: TableDef, t: TableDef, walk: seq<string>)
    requires s.name == t.name && TableWellFormed(t)
    ensures AllOf(CommonTableOps(schema, s, t, walk), ChangesTable(schema, t.name))
  {
    ColumnsHome(schema, s, t, walk);
    IndexesHome(schema, s, t);
    ConstraintsHome(schema, s, t);
    hide TableColumnOps, TableIndexOps, TableConstraintOps, AllOf;
    AllOfWeaker(TableColumnOps(schema, s, t, walk), ForTable(schema, t.name, ColumnPart), ChangesTable(schema, t.name));
    AllOfWeaker(TableIndexOps(schema, s, t), ForTable(schema, t.name, IndexPart), ChangesTable(schema, t.name));
    AllOfWeaker(TableConstraintOps(schema, s, t), ForTable(schema, t.name, ConstraintPart),
      ChangesTable(schema, t.name));
    AllOfThree(TableColumnOps(schema, s, t, walk), TableIndexOps(schema, s, t), TableConstraintOps(schema, s, t),
               ChangesTable(schema, t.name));
  }

  ghost predicate SameNamed(s: NamespaceDef, t: NamespaceDef) {
    && s.name == t.name && NamespaceWellFormed(s) && NamespaceWellFormed(t)
  }

  lemma CommonStepHome(s: NamespaceDef, t: NamespaceDef, walk: Walk, n: string)
    requires SameNamed(s, t)
    ensures AllOf(CommonTableStep(s, t, walk)(n), ChangesTable(t.name, n))
  {
    hide CommonTableOps;
    if n in s.tables && n in t.tables {
      CommonTableHome(s.name, s.tables[n], t.tables[n], walk(s.name, n));
    }
  }

  lemma TableOpHome(s: NamespaceDef, t: NamespaceDef, n: string, op: Op)
    requires s.name == t.name
    requires op in NewTableStep(s, t)(n) || op in OldTableStep(s, t)(n)
    ensures op.schema == t.name && PartOf(op) == Tables
  {
  }

  lemma TableStepsGive(s: NamespaceDef, t: NamespaceDef)
    requires s.name == t.name
    ensures Gives(NewTableStep(s, t), InNamespacePart(t.name, Tables))
    ensures Gives(OldTableStep(s, t), InNamespacePart(t.name, Tables))
  {
    hide NewTableStep, OldTableStep, PartOf;
    forall n, op | op in NewTableStep(s, t)(n) ensures InNamespacePart(t.name, Tables)(op) {
      TableOpHome(s, t, n, op);
    }
    forall n, op | op in OldTableStep(s, t)(n) ensures InNamespacePart(t.name, Tables)(op) {
      TableOpHome(s, t, n, op);
    }
  }

  lemma CommonTableGives(s: NamespaceDef, t: NamespaceDef, walk: Walk)
    requires SameNamed(s, t)
    ensures Gives(CommonTableStep(s, t, walk), InNamespacePart(t.name, Tables))
  {
    hide CommonTableStep, PartOf, PartOfTable, TableOf;
    forall n, op | op in CommonTableStep(s, t, walk)(n) ensures InNamespacePart(t.name, Tables)(op) {
      CommonStepHome(s, t, walk, n);
      assert ChangesTable(t.name, n)(op);
    }
  }

  lemma TablesHome(s: NamespaceDef, t: NamespaceDef, walk: Walk)
    requires SameNamed(s, t)
    ensures AllOf(TablesOps(s, t, walk), InNamespacePart(t.name, Tables))
  {
    hide AllOf, Gives, NewTableStep, OldTableStep, CommonTableStep, Flat, InNamespacePart;
    var p := InNamespacePart(t.name, Tables);
    TableStepsGive(s, t);
    CommonTableGives(s, t, walk);
    AllOfFlat(Sorted(t.tables.Keys), NewTableStep(s, t), p);
    AllOfFlat(Sorted(s.tables.Keys), OldTableStep(s, t), p);
    AllOfFlat(Sorted(t.tables.Keys), CommonTableStep(s, t, walk), p);
    AllOfThree(Flat(Sorted(t.tables.Keys), NewTableStep(s, t)), Flat(Sorted(s.tables.Keys), OldTableStep(s, t)),
               Flat(Sorted(t.tables.Keys), CommonTableStep(s, t, walk)), p);
  }

  // ----- the parts of a namespace's operations

  lemma PartOfBlock(ops: seq<Op>, ns: string, home: Part, part: Part)
    requires AllOf(ops, InNamespacePart(ns, home))
    ensures Filter(ops, InPart(part)) == if part == home then ops else []
  {
    assert forall op :: op in ops ==> InNamespacePart(ns, home)(op);
    if part == home { FilterAll(ops, InPart(part)); } else { FilterNone(ops, InPart(part)); }
  }

  lemma FiveParts(a: seq<Op>, b: seq<Op>, c: seq<Op>, d: seq<Op>, e: seq<Op>, ns: string, part: Part)
    requires AllOf(a, InNamespacePart(ns, Tables)) && AllOf(b, InNamespacePart(ns, Types))
    requires AllOf(c, InNamespacePart(ns, Views)) && AllOf(d, InNamespacePart(ns, Sequences))
    requires AllOf(e, InNamespacePart(ns, Extensions))
    ensures Filter(a + b + c + d + e, InPart(part)) ==
      match part
      case Tables => a case Types => b case Views => c case Sequences => d case Extensions => e case Whole => []
  {
    hide AllOf, InNamespacePart, Filter, PartOf, InPart;
    FilterFive(a, b, c, d, e, InPart(part));
    PartOfBlock(a, ns, Tables, part);
    PartOfBlock(b, ns, Types, part);
    PartOfBlock(c, ns, Views, part);
    PartOfBlock(d, ns, Sequences, part);
    PartOfBlock(e, ns, Extensions, part);
  }

  lemma NamespaceParts(s: NamespaceDef, t: NamespaceDef, walk: Walk, part: Part)
    requires SameNamed(s, t)
    ensures Filter(NamespaceOps(s, t, walk), InPart(part)) ==
      match part
      case Tables => TablesOps(s, t, walk) case Types => TypesOps(s, t) case Views => ViewsOps(s, t)
      case Sequences => SequencesOps(s, t) case Extensions => ExtensionsOps(s, t) case Whole => []
  {
    TablesHome(s, t, walk);
    TypesHome(s, t);
    ViewsHome(s, t);
    SequencesHome(s, t);
    ExtensionsHome(s, t);
    hide TablesOps, TypesOps, ViewsOps, SequencesOps, ExtensionsOps, Filter;
    FiveParts(TablesOps(s, t, walk), TypesOps(s, t), ViewsOps(s, t), SequencesOps(s, t), ExtensionsOps(s, t),
              t.name, part);
  }

  function OfNamespace(ns: string): Op -> bool {
    (op: Op) => op.schema == ns && PartOf(op) != Whole
  }

  lemma PartOfNamespace(ops: seq<Op>, ns: string, part: Part)
    requires part != Whole && AllOf(ops, InNamespacePart(ns, part))
    ensures AllOf(ops, OfNamespace(ns))
  {
    AllOfWeaker(ops, InNamespacePart(ns, part), OfNamespace(ns));
  }

  lemma NamespaceHome(s: NamespaceDef, t: NamespaceDef, walk: Walk)
    requires SameNamed(s, t)
    ensures AllOf(NamespaceOps(s, t, walk), OfNamespace(t.name))
  {
    TablesHome(s, t, walk);
    TypesHome(s, t);
    ViewsHome(s, t);
    SequencesHome(s, t);
    ExtensionsHome(s, t);
    hide TablesOps, TypesOps, ViewsOps, SequencesOps, ExtensionsOps, AllOf, InNamespacePart, OfNamespace;
    var a, b, c, d, e := TablesOps(s, t, walk), TypesOps(s, t), ViewsOps(s, t), SequencesOps(s, t), ExtensionsOps(s, t);
    PartOfNamespace(a, t.name, Tables);
    PartOfNamespace(b, t.name, Types);
    PartOfNamespace(c, t.name, Views);
    PartOfNamespace(d, t.name, Sequences);
    PartOfNamespace(e, t.name, Extensions);
    AllOfThree(a, b, c, OfNamespace(t.name));
    AllOfThree(a + b + c, d, e, OfNamespace(t.name));
  }

  lemma NamespaceInside(ops: seq<Op>, ns: string)
    requires AllOf(ops, OfNamespace(ns))
    ensures Inside(ops)
  {
    assert forall op :: op in ops ==> OfNamespace(ns)(op);
  }

  // ----- the namespaces of the whole list

  function OfSchema(n: string): Op -> bool {
    About(SchemaName(), NoBroadcast(), n)
  }

  /** The source namespace that the target namespace `n` is compared with. */
  function SourceOf(s: SchemaDef, n: string): NamespaceDef {
    if n in s.schemas then s.schemas[n] else EmptyNamespace(n)
  }

  lemma SourceSameNamed(s: SchemaDef, t: SchemaDef, n: string)
    requires WellFormed(s) && WellFormed(t) && n in t.schemas
    ensures SameNamed(SourceOf(s, n), t.schemas[n]) && t.schemas[n].name == n
  {
  }

  lemma TargetStepHome(s: SchemaDef, t: SchemaDef, walk: Walk, n: string, op: Op)
    requires WellFormed(s) && WellFormed(t) && op in TargetNamespaceStep(s, t, walk)(n)
    ensures op.schema == n
  {
    hide NamespaceOps;
    if n in t.schemas && !(n !in s.schemas && op == CreateSchemaOp(n)) {
      SourceSameNamed(s, t, n);
      NamespaceHome(SourceOf(s, n), t.schemas[n], walk);
      assert op in NamespaceOps(SourceOf(s, n), t.schemas[n], walk);
      assert OfNamespace(n)(op);
    }
  }

  lemma OldNamespaceHome(s: SchemaDef, t: SchemaDef, n: string, op: Op)
    requires op in OldNamespaceStep(s, t)(n)
    ensures op.schema == n
  {
  }

  lemma TargetStepGives(s: SchemaDef, t: SchemaDef, walk: Walk, n: string)
    requires WellFormed(s) && WellFormed(t)
    ensures n !in t.schemas ==> TargetNamespaceStep(s, t, walk)(n) == []
    ensures forall k, op :: op in TargetNamespaceStep(s, t, walk)(k) ==> (OfSchema(n)(op) <==> k == n)
  {
    hide NamespaceOps;
    assert n !in t.schemas ==> TargetNamespaceStep(s, t, walk)(n) == [];
    hide TargetNamespaceStep, WellFormed;
    forall k, op | op in TargetNamespaceStep(s, t, walk)(k) ensures OfSchema(n)(op) <==> k == n {
      TargetStepHome(s, t, walk, k, op);
    }
  }

  lemma TargetSchemaOps(s: SchemaDef, t: SchemaDef, walk: Walk, n: string)
    requires WellFormed(s) && WellFormed(t)
    ensures Filter(Flat(Sorted(t.schemas.Keys), TargetNamespaceStep(s, t, walk)), OfSchema(n)) ==
      TargetNamespaceStep(s, t, walk)(n)
  {
    SortedDistinct(Sorted(t.schemas.Keys));
    TargetStepGives(s, t, walk, n);
    hide TargetNamespaceStep, OfSchema, Filter, Flat, WellFormed, StrictlySorted;
    FilterFlatOne(Sorted(t.schemas.Keys), TargetNamespaceStep(s, t, walk), OfSchema(n), n);
  }

  lemma OldSchemaOps(s: SchemaDef, t: SchemaDef, n: string)
    ensures Filter(Flat(Sorted(s.schemas.Keys), OldNamespaceStep(s, t)), OfSchema(n)) == OldNamespaceStep(s, t)(n)
  {
    SortedDistinct(Sorted(s.schemas.Keys));
    assert n !in s.schemas ==> OldNamespaceStep(s, t)(n) == [];
    hide OldNamespaceStep, Filter, Flat, StrictlySorted;
    forall k, op | op in OldNamespaceStep(s, t)(k) ensures OfSchema(n)(op) <==> k == n {
      OldNamespaceHome(s, t, k, op);
    }
    FilterFlatOne(Sorted(s.schemas.Keys), OldNamespaceStep(s, t), OfSchema(n), n);
  }

  /** What the whole list holds for one namespace. */
  lemma SchemaOps(s: SchemaDef, t: SchemaDef, walk: Walk, n: string)
    requires WellFormed(s) && WellFormed(t)
    ensures Filter(DiffOps(s, t, walk), OfSchema(n)) ==
      TargetNamespaceStep(s, t, walk)(n) + OldNamespaceStep(s, t)(n)
  {
    hide TargetNamespaceStep, OldNamespaceStep, Filter, Flat, WellFormed;
    FilterConcat(Flat(Sorted(t.schemas.Keys), TargetNamespaceStep(s, t, walk)),
                 Flat(Sorted(s.schemas.Keys), OldNamespaceStep(s, t)), OfSchema(n));
    TargetSchemaOps(s, t, walk, n);
    OldSchemaOps(s, t, n);
  }
}
