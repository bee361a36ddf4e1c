/** The planned order of a table's column operations: additions and SET DEFAULT first, then
    renames and the other alterations, removals last.  It ends in the same columns. */
module StagedMigration {
  import opened Catalog
  import opened Operations
  import opened Names
  import opened Lists
  import opened DiffSpec
  import opened RenameTheory
  import opened Locality
  import opened TableEdits
  import opened Semantics
  import opened ColumnMigration
  import opened TableMigration

  /** The operations of a list, stage by stage. */
  ghost function Staged(ops: seq<Op>): seq<Op> {
    Filter(ops, InStage(PreDeploy)) + Filter(ops, InStage(Deploy)) + Filter(ops, InStage(PostDeploy))
  }

  // ----- the stages of the column operations

  ghost function EarlyAlters(schema: string, s: TableDef, t: TableDef): seq<Op> {
    Filter(AlterOps(schema, s, t), InStage(PreDeploy))
  }

  ghost function LateAlters(schema: string, s: TableDef, t: TableDef): seq<Op> {
    Filter(AlterOps(schema, s, t), InStage(Deploy))
  }

  lemma {:induction false} RenameHome(schema: string, table: string, pairs: seq<(string, string)>)
    ensures forall op :: op in RenameOps(schema, table, pairs) ==> StageOf(op) == Deploy
  {
    if pairs != [] { RenameHome(schema, table, pairs[..|pairs| - 1]); }
  }

  lemma AddHome(schema: string, s: TableDef, t: TableDef)
    ensures forall op :: op in AddOps(schema, s, t) ==> StageOf(op) == PreDeploy
  {
    hide Renames, TargetOnly;
    FlatAll(TargetOnly(s, t), AddStep(schema, t, Renames(s, t)), InStage(PreDeploy));
    assert forall op :: op in AddOps(schema, s, t) ==> InStage(PreDeploy)(op);
  }

  lemma DropHome(schema: string, s: TableDef, t: TableDef, walk: seq<string>)
    ensures forall op :: op in DropOps(schema, s, t, walk) ==> StageOf(op) == PostDeploy
  {
    hide Renames;
    FlatAll(walk, DropStep(schema, s, t, Renames(s, t)), InStage(PostDeploy));
    assert forall op :: op in DropOps(schema, s, t, walk) ==> InStage(PostDeploy)(op);
  }

  lemma AlterHome(schema: string, s: TableDef, t: TableDef)
    ensures Filter(AlterOps(schema, s, t), InStage(PostDeploy)) == []
  {
    hide ColumnOps, StageOf;
    var early := (op: Op) => StageOf(op) != PostDeploy;
    forall k, op | k in t.order && op in AlterStep(schema, s, t)(k) ensures early(op) {
      ColumnOpsAbout(schema, t.name, s.columns[k], t.columns[k]);
      AlterIsEarly(op);
    }
    FlatAll(t.order, AlterStep(schema, s, t), early);
    assert forall op :: op in AlterOps(schema, s, t) ==> early(op);
    FilterNone(AlterOps(schema, s, t), InStage(PostDeploy));
  }

  lemma AlterIsEarly(op: Op)
    requires IsAlterColumn(op)
    ensures StageOf(op) != PostDeploy
  {
  }

  lemma StagedShape(schema: string, s: TableDef, t: TableDef, walk: seq<string>)
    ensures Staged(TableColumnOps(schema, s, t, walk)) ==
      (AddOps(schema, s, t) + EarlyAlters(schema, s, t)) + RenameOps(schema, t.name, Renames(s, t)) +
      (LateAlters(schema, s, t) + DropOps(schema, s, t, walk))
  {
    var r, a, d, l := RenameOps(schema, t.name, Renames(s, t)),
      AddOps(schema, s, t), DropOps(schema, s, t, walk), AlterOps(schema, s, t);
    EmittedShape(schema, s, t, walk);
    hide Filter, InStage, StageOf, Renames, RenameOps, TableColumnOps, AddOps, DropOps, AlterOps;
    RenameHome(schema, t.name, Renames(s, t));
    AddHome(schema, s, t);
    DropHome(schema, s, t, walk);
    AlterHome(schema, s, t);
    forall stage ensures Filter(r + (a + d + l), InStage(stage)) ==
      (if stage == Deploy then r else []) + ((if stage == PreDeploy then a else []) +
       (if stage == PostDeploy then d else []) + Filter(l, InStage(stage)))
    {
      FilterConcat(r, a + d + l, InStage(stage));
      FilterThree(a, d, l, InStage(stage));
      AllOfStage(r, Deploy, stage);
      AllOfStage(a, PreDeploy, stage);
      AllOfStage(d, PostDeploy, stage);
    }
  }

  // ----- pre-deploy

  /** The columns after pre-deploy. */
  ghost function EarlyColumns(s: TableDef, t: TableDef): map<string, Column> {
    map n | n in s.columns.Keys + t.columns.Keys && (n in s.columns || !TargetTaken(Renames(s, t), n)) ::
      if n in s.columns && n in t.columns then Defaulted(s.columns[n], t.columns[n])
      else if n in s.columns then s.columns[n]
      else t.columns[n]
  }

  lemma StageAbout(ops: seq<Op>, stage: Stage, n: string)
    ensures Filter(Filter(ops, InStage(stage)), AboutColumn(n)) ==
      Filter(Filter(ops, AboutColumn(n)), InStage(stage))
  {
    FilterSwap(ops, InStage(stage), AboutColumn(n));
  }

  ghost function EarlyOpsAbout(schema: string, s: TableDef, t: TableDef, n: string): seq<Op> {
    if n in s.columns && n in t.columns
    then SetDefaultOps(schema, t.name, s.columns[n], t.columns[n])
    else if IsTargetOnly(s, t, n) && !TargetTaken(Renames(s, t), n)
    then [AddColumnOp(schema, t.name, t.columns[n])]
    else []
  }

  lemma NothingEarly()
    ensures Filter<Op>([], InStage(PreDeploy)) == []
  {
  }

  lemma EarlyAbout(schema: string, s: TableDef, t: TableDef, n: string)
    requires TableWellFormed(s) && TableWellFormed(t)
    ensures Filter(AddOps(schema, s, t) + EarlyAlters(schema, s, t), AboutColumn(n)) ==
      EarlyOpsAbout(schema, s, t, n)
  {
    hide Filter, Renames, ColumnOps, SetDefaultOps, AddOps, AlterOps, AboutColumn, InStage, TargetTaken;
    NothingEarly();
    FilterConcat(AddOps(schema, s, t), EarlyAlters(schema, s, t), AboutColumn(n));
    StageAbout(AlterOps(schema, s, t), PreDeploy, n);
    AddsAbout(schema, s, t, n);
    AltersAbout(schema, s, t, n);
    if n in s.columns && n in t.columns {
      ColumnOpsStages(schema, t.name, s.columns[n], t.columns[n]);
    }
  }

  lemma EarlyEffect(schema: string, s: TableDef, t: TableDef, n: string)
    ensures RunOne(EarlyOpsAbout(schema, s, t, n), Get(s.columns, n), ColumnEffect()) ==
      Ok(Get(EarlyColumns(s, t), n))
  {
    NotTaken(s, t, n);
    hide RunOne, ColumnEffect, Renames, SetDefaultOps;
    RunNothing(Get(s.columns, n));
    if n in s.columns && n in t.columns {
      SetDefaultEffectOn(schema, t.name, s.columns[n], t.columns[n]);
    } else if IsTargetOnly(s, t, n) && !TargetTaken(Renames(s, t), n) {
      RunOp(AddColumnOp(schema, t.name, t.columns[n]), None);
    }
  }

  lemma EarlyPlain(schema: string, s: TableDef, t: TableDef)
    ensures AllPlain(AddOps(schema, s, t) + EarlyAlters(schema, s, t))
  {
    AddsPlain(schema, s, t);
    AltersPlain(schema, s, t);
  }

  lemma EarlyRuns(schema: string, s: TableDef, t: TableDef, c: Columns)
    requires TableWellFormed(s) && TableWellFormed(t) && ColumnsWellFormed(c) && c.byName == s.columns
    ensures var ops := AddOps(schema, s, t) + EarlyAlters(schema, s, t);
      && RunColumns(ops, c).Ok?
      && RunColumns(ops, c).value.byName == EarlyColumns(s, t)
      && ColumnsWellFormed(RunColumns(ops, c).value)
  {
    var ops := AddOps(schema, s, t) + EarlyAlters(schema, s, t);
    hide Filter, RunOne, RunColumns, AddOps, EarlyAlters, EarlyColumns, ColumnsWellFormed;
    forall n ensures RunOne(Filter(ops, AboutColumn(n)), Get(c.byName, n), ColumnEffect()) ==
      Ok(Get(EarlyColumns(s, t), n))
    {
      EarlyAbout(schema, s, t, n);
      EarlyEffect(schema, s, t, n);
    }
    EarlyPlain(schema, s, t);
    PlainRunByName(ops, c, EarlyColumns(s, t));
  }

  // ----- deploy and post-deploy

  /** What a name holds after pre-deploy and the renames. */
  ghost function MiddleEntry(s: TableDef, t: TableDef, n: string): Option<Column> {
    if n in s.columns && n in t.columns then Some(Defaulted(s.columns[n], t.columns[n]))
    else if IsTargetOnly(s, t, n) then Get(After(s, t), n)
    else Entry(s, t, n)
  }

  lemma MiddleEntries(s: TableDef, t: TableDef, v: map<string, Column>, n: string)
    requires RenamedMap(EarlyColumns(s, t), Renames(s, t), v)
    ensures Get(v, n) == MiddleEntry(s, t, n)
  {
    RenamedEntries(s, t, EarlyColumns(s, t), v, n);
    NotTaken(s, t, n);
    RenameTaken(s, t, n);
    hide Renames, RenamedMap;
    if TargetTaken(Renames(s, t), n) {
      var a :| IsRename(s, t, a, n);
      AfterRename(s, t, a, n);
    }
  }

  ghost function LateOpsAbout(schema: string, s: TableDef, t: TableDef, n: string): seq<Op> {
    if n in s.columns && n in t.columns
    then Filter(ColumnOps(schema, t.name, s.columns[n], t.columns[n]), InStage(Deploy))
    else if IsSourceOnly(s, t, n) && !SourceTaken(Renames(s, t), n)
    then [DropColumnOp(schema, s.name, n)]
    else []
  }

  lemma LateAbout(schema: string, s: TableDef, t: TableDef, walk: seq<string>, n: string)
    requires TableWellFormed(s) && TableWellFormed(t) && ListsAll(walk, s.columns.Keys)
    ensures Filter(LateAlters(schema, s, t) + DropOps(schema, s, t, walk), AboutColumn(n)) ==
      LateOpsAbout(schema, s, t, n)
  {
    assert Filter<Op>([], InStage(Deploy)) == [];
    hide Filter, Renames, ColumnOps, DropOps, AlterOps, AboutColumn, InStage;
    FilterConcat(LateAlters(schema, s, t), DropOps(schema, s, t, walk), AboutColumn(n));
    StageAbout(AlterOps(schema, s, t), Deploy, n);
    DropsAbout(schema, s, t, walk, n);
    AltersAbout(schema, s, t, n);
  }

  lemma LateEffect(schema: string, s: TableDef, t: TableDef, n: string)
    ensures RunOne(LateOpsAbout(schema, s, t, n), MiddleEntry(s, t, n), ColumnEffect()) ==
      Ok(Get(After(s, t), n))
  {
    NotTaken(s, t, n);
    hide Filter, RunOne, ColumnEffect, Renames, ColumnOps;
    RunNothing(MiddleEntry(s, t, n));
    if n in s.columns && n in t.columns {
      DeployOpsEffect(schema, t.name, s.columns[n], t.columns[n]);
    } else if IsSourceOnly(s, t, n) && !SourceTaken(Renames(s, t), n) {
      RunOp(DropColumnOp(schema, s.name, n), Some(s.columns[n]));
    }
  }

  lemma LatePlain(schema: string, s: TableDef, t: TableDef, walk: seq<string>)
    ensures AllPlain(LateAlters(schema, s, t) + DropOps(schema, s, t, walk))
  {
    DropsPlain(schema, s, t, walk);
    AltersPlain(schema, s, t);
  }

  lemma LateRuns(schema: string, s: TableDef, t: TableDef, walk: seq<string>, c: Columns)
    requires TableWellFormed(s) && TableWellFormed(t) && ListsAll(walk, s.columns.Keys)
    requires ColumnsWellFormed(c) && RenamedMap(EarlyColumns(s, t), Renames(s, t), c.byName)
    ensures var ops := LateAlters(schema, s, t) + DropOps(schema, s, t, walk);
      && RunColumns(ops, c).Ok?
      && RunColumns(ops, c).value.byName == After(s, t)
      && ColumnsWellFormed(RunColumns(ops, c).value)
  {
    var ops := LateAlters(schema, s, t) + DropOps(schema, s, t, walk);
    hide Filter, RunOne, RunColumns, LateAlters, DropOps, RenamedMap, ColumnsWellFormed, After;
    forall n ensures RunOne(Filter(ops, AboutColumn(n)), Get(c.byName, n), ColumnEffect()) ==
      Ok(Get(After(s, t), n))
    {
      MiddleEntries(s, t, c.byName, n);
      LateAbout(schema, s, t, walk, n);
      LateEffect(schema, s, t, n);
    }
    LatePlain(schema, s, t, walk);
    PlainRunByName(ops, c, After(s, t));
  }

  lemma EarlyKeeps(s: TableDef, t: TableDef, n: string)
    ensures IsSourceOnly(s, t, n) ==> n in EarlyColumns(s, t)
    ensures IsTargetOnly(s, t, n) && TargetTaken(Renames(s, t), n) ==> n !in EarlyColumns(s, t)
  {
    hide Renames;
  }

  /** In planned order, too, every operation applies and the columns by name end up as `After`
      says. */
  lemma StagedColumns(schema: string, s: TableDef, t: TableDef, walk: seq<string>)
    requires TableWellFormed(s) && TableWellFormed(t) && ListsAll(walk, s.columns.Keys)
    ensures RunColumns(Staged(TableColumnOps(schema, s, t, walk)), Columns(s.order, s.columns)).Ok?
    ensures var c := RunColumns(Staged(TableColumnOps(schema, s, t, walk)), Columns(s.order, s.columns)).value;
      c.byName == After(s, t) && ColumnsWellFormed(c)
  {
    var pairs := Renames(s, t);
    var a, r, b := AddOps(schema, s, t) + EarlyAlters(schema, s, t), RenameOps(schema, t.name, pairs),
      LateAlters(schema, s, t) + DropOps(schema, s, t, walk);
    hide RunColumns, Renames, RenameOps, TableColumnOps, RenamedMap, ColumnsWellFormed, After, Staged,
      AddOps, EarlyAlters, LateAlters, DropOps, EarlyColumns;
    StagedShape(schema, s, t, walk);
    var c0 := Columns(s.order, s.columns);
    TableColumnsWellFormed(s);
    EarlyRuns(schema, s, t, c0);
    var c1 := RunColumns(a, c0).value;
    forall n ensures (IsSourceOnly(s, t, n) ==> n in c1.byName) &&
      (IsTargetOnly(s, t, n) && TargetTaken(pairs, n) ==> n !in c1.byName)
    {
      EarlyKeeps(s, t, n);
    }
    RenamesUsable(s, t, c1.byName);
    RunRenames(schema, t.name, pairs, c1);
    var c2 := RunColumns(r, c1).value;
    LateRuns(schema, s, t, walk, c2);
    RunColumnsConcat(a, r, c0);
    RunColumnsConcat(a + r, b, c0);
  }

  // ----- when the result is the target

  /** The change of every common column can be expressed. */
  ghost predicate AllExpressible(s: TableDef, t: TableDef) {
    forall n :: n in s.columns && n in t.columns ==> Expressible(s.columns[n], t.columns[n])
  }

  /** Renamed columns agree with their targets in everything but the name. */
  ghost predicate RenamesAgree(s: TableDef, t: TableDef) {
    forall a, b :: IsRename(s, t, a, b) ==> s.columns[a].(name := b) == t.columns[b]
  }

  /** The columns end up exactly as in the target if and only if every change can be expressed and
      renamed columns agree with their targets. */
  lemma MigrationExact(s: TableDef, t: TableDef)
    requires ColumnsNamed(s.columns) && ColumnsNamed(t.columns)
    ensures After(s, t) == t.columns <==> AllExpressible(s, t) && RenamesAgree(s, t)
  {
    if After(s, t) == t.columns {
      forall n | n in s.columns && n in t.columns ensures Expressible(s.columns[n], t.columns[n]) {
        AlteredExact(s.columns[n], t.columns[n]);
        assert After(s, t)[n] == t.columns[n];
      }
      forall a, b | IsRename(s, t, a, b) ensures s.columns[a].(name := b) == t.columns[b] {
        AfterRename(s, t, a, b);
      }
    }
    if AllExpressible(s, t) && RenamesAgree(s, t) {
      forall n | n in t.columns ensures AfterColumn(s, t, n) == t.columns[n] {
        if n in s.columns { AlteredExact(s.columns[n], t.columns[n]); }
      }
      assert After(s, t).Keys == t.columns.Keys;
    }
  }

  /** For columns with readable signatures, and no absent default beside an empty one, renamed
      columns can differ only in their identity. */
  lemma RenamesDifferInIdentityOnly(s: TableDef, t: TableDef, a: string, b: string)
    requires IsRename(s, t, a, b) && Readable(s.columns[a]) && Readable(t.columns[b])
    requires !EmptyDefaultClash(s.columns[a], t.columns[b]) && t.columns[b].name == b
    ensures IsRenameCandidate(s.columns[a], t.columns[b])
    ensures s.columns[a].(name := b) == t.columns[b] <==>
      && s.columns[a].isIdentity == t.columns[b].isIdentity
      && s.columns[a].identityKind == t.columns[b].identityKind
  {
    SignatureRefinesCandidates(s.columns[a], t.columns[b]);
  }
}
