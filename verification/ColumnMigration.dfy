/** The column operations of a table turn the source's columns into the target's, in the order in
    which they are emitted and in the order in which they are planned. */
module ColumnMigration {
  import opened Catalog
  import opened Operations
  import opened Names
  import opened Lists
  import opened DiffSpec
  import opened RenameTheory
  import opened Locality
  import opened TableEdits
  import opened Semantics

  // ----- one column

  /** What the operations for a common column make of it. */
  function Altered(s: Column, t: Column): Column {
    s.(dataType := if s.collation != t.collation && t.dataType == "" then s.dataType else t.dataType,
       isNullable := t.isNullable,
       defaultExpr := t.defaultExpr,
       collation := t.collation,
       isIdentity := t.isIdentity,
       identityKind := if t.isIdentity then t.identityKind
                       else if s.isIdentity then "" else s.identityKind)
  }

  /** The operations can express the change: a collation change needs a type to restate, and a
      column without identity has no identity kind to set. */
  predicate Expressible(s: Column, t: Column) {
    && (s.collation != t.collation && t.dataType == "" ==> s.dataType == "")
    && (!t.isIdentity ==> t.identityKind == if s.isIdentity then "" else s.identityKind)
  }

  lemma AlteredExact(s: Column, t: Column)
    requires s.name == t.name
    ensures Altered(s, t) == t <==> Expressible(s, t)
  {
  }

  // ----- operations on single columns

  function ColumnName(): Op -> string {
    (op: Op) =>
      if op.AddColumnOp? then op.col.name
      else if op.DropColumnOp? || IsAlterColumn(op) then op.column else ""
  }

  function ColumnStep(op: Op, cur: Option<Column>): Outcome<Option<Column>> {
    if op.AddColumnOp? then if cur.Some? then Fail else Ok(Some(op.col))
    else if op.DropColumnOp? then if cur.Some? then Ok(None) else Fail
    else if IsAlterColumn(op) && cur.Some? then
      match AlterColumn(cur.value, op)
      case Fail => Fail
      case Ok(c) => Ok(Some(c))
    else Fail
  }

  function ColumnEffect(): Effect<Column> {
    (op: Op, cur: Option<Column>) => ColumnStep(op, cur)
  }

  function AboutColumn(n: string): Op -> bool {
    About(ColumnName(), NoBroadcast(), n)
  }

  lemma RunOp(op: Op, v: Option<Column>)
    ensures RunOne([], v, ColumnEffect()) == Ok(v)
    ensures RunOne([op], v, ColumnEffect()) == ColumnStep(op, v)
  {
    RunOneSingle(op, v, ColumnEffect());
  }

  /** Each group of operations for a common column, on any column that still has the field that
      the group changes. */
  lemma TypeEffectOn(schema: string, table: string, s: Column, t: Column, c: Column)
    requires c.dataType == s.dataType
    ensures RunOne(TypeOps(schema, table, s, t), Some(c), ColumnEffect()) == Ok(Some(c.(dataType := t.dataType)))
  {
    var op := AlterColumnTypeOp(schema, table, s.name, s.dataType, t.dataType);
    assert AlterColumn(c, op) == Ok(c.(dataType := t.dataType));
    assert s.dataType == t.dataType ==> c.(dataType := t.dataType) == c;
    RunOp(op, Some(c));
  }

  lemma NullEffectOn(schema: string, table: string, s: Column, t: Column, c: Column)
    requires c.isNullable == s.isNullable
    ensures RunOne(NullOps(schema, table, s, t), Some(c), ColumnEffect()) == Ok(Some(c.(isNullable := t.isNullable)))
  {
    var op := if t.isNullable then DropNotNullOp(schema, table, s.name) else SetNotNullOp(schema, table, s.name);
    assert AlterColumn(c, op) == Ok(c.(isNullable := t.isNullable));
    assert s.isNullable == t.isNullable ==> c.(isNullable := t.isNullable) == c;
    RunOp(op, Some(c));
  }

  lemma DefaultEffectOn(schema: string, table: string, s: Column, t: Column, c: Column)
    requires c.defaultExpr == s.defaultExpr
    ensures RunOne(DefaultOps(schema, table, s, t), Some(c), ColumnEffect()) ==
      Ok(Some(c.(defaultExpr := t.defaultExpr)))
  {
    var op := if t.defaultExpr.Some? then SetDefaultOp(schema, table, s.name, t.defaultExpr.value)
              else DropDefaultOp(schema, table, s.name);
    assert AlterColumn(c, op) == Ok(c.(defaultExpr := t.defaultExpr));
    assert s.defaultExpr == t.defaultExpr ==> c.(defaultExpr := t.defaultExpr) == c;
    RunOp(op, Some(c));
  }

  lemma CollationEffectOn(schema: string, table: string, s: Column, t: Column, c: Column)
    requires c.collation == s.collation && c.dataType == t.dataType
    ensures RunOne(CollationOps(schema, table, s, t), Some(c), ColumnEffect()) ==
      Ok(Some(c.(dataType := Altered(s, t).dataType, collation := t.collation)))
  {
    var dataType := if t.dataType == "" then s.dataType else t.dataType;
    var op := AlterColumnCollationOp(schema, table, s.name, dataType, s.collation, t.collation);
    assert AlterColumn(c, op) == Ok(c.(dataType := dataType, collation := t.collation));
    assert s.collation == t.collation ==> c.(dataType := Altered(s, t).dataType, collation := t.collation) == c;
    RunOp(op, Some(c));
  }

  lemma IdentityEffectOn(schema: string, table: string, s: Column, t: Column, c: Column)
    requires c.isIdentity == s.isIdentity && c.identityKind == s.identityKind
    ensures RunOne(IdentityOps(schema, table, s, t), Some(c), ColumnEffect()) ==
      Ok(Some(c.(isIdentity := t.isIdentity, identityKind := Altered(s, t).identityKind)))
  {
    var d := c.(isIdentity := t.isIdentity, identityKind := Altered(s, t).identityKind);
    var op := if !s.isIdentity then AddIdentityOp(schema, table, s.name, t.identityKind)
              else if t.isIdentity then SetIdentityOp(schema, table, s.name, t.identityKind)
              else DropIdentityOp(schema, table, s.name);
    assert s.isIdentity || t.isIdentity ==> AlterColumn(c, op) == Ok(d);
    assert IdentityOps(schema, table, s, t) == [] ==> d == c;
    RunOp(op, Some(c));
  }

  lemma GroupThen(a: seq<Op>, b: seq<Op>, c: Column, d: Column)
    requires RunOne(a, Some(c), ColumnEffect()) == Ok(Some(d))
    ensures RunOne(a + b, Some(c), ColumnEffect()) == RunOne(b, Some(d), ColumnEffect())
  {
    RunOneConcat(a, b, Some(c), ColumnEffect());
  }

  /** In emission order the operations for a common column make it what `Altered` says. */
  lemma ColumnOpsEffect(schema: string, table: string, s: Column, t: Column)
    ensures RunOne(ColumnOps(schema, table, s, t), Some(s), ColumnEffect()) == Ok(Some(Altered(s, t)))
  {
    var a, b, c := TypeOps(schema, table, s, t), NullOps(schema, table, s, t), DefaultOps(schema, table, s, t);
    var d, e := CollationOps(schema, table, s, t), IdentityOps(schema, table, s, t);
    hide TypeOps, NullOps, DefaultOps, CollationOps, IdentityOps, RunOne, ColumnEffect;
    var s1 := s.(dataType := t.dataType);
    var s2 := s1.(isNullable := t.isNullable);
    var s3 := s2.(defaultExpr := t.defaultExpr);
    var s4 := s3.(dataType := Altered(s, t).dataType, collation := t.collation);
    TypeEffectOn(schema, table, s, t, s);
    NullEffectOn(schema, table, s, t, s1);
    DefaultEffectOn(schema, table, s, t, s2);
    CollationEffectOn(schema, table, s, t, s3);
    IdentityEffectOn(schema, table, s, t, s4);
    assert a + b + c + d + e == a + (b + (c + (d + e)));
    GroupThen(a, b + (c + (d + e)), s, s1);
    GroupThen(b, c + (d + e), s1, s2);
    GroupThen(c, d + e, s2, s3);
    GroupThen(d, e, s3, s4);
  }

  function InStage(stage: Stage): Op -> bool {
    (op: Op) => StageOf(op) == stage
  }

  /** The SET DEFAULT among them, if any. */
  function SetDefaultOps(schema: string, table: string, s: Column, t: Column): seq<Op> {
    if !SameDefault(s.defaultExpr, t.defaultExpr) && t.defaultExpr.Some?
    then DefaultOps(schema, table, s, t) else []
  }

  function DropDefaultOps(schema: string, table: string, s: Column, t: Column): seq<Op> {
    if t.defaultExpr.None? then DefaultOps(schema, table, s, t) else []
  }

  lemma FilterSingle(ops: seq<Op>, p: Op -> bool)
    requires |ops| <= 1
    ensures Filter(ops, p) == if ops != [] && p(ops[0]) then ops else []
  {
    if ops != [] {
      assert ops == [] + [ops[0]];
      FilterSnoc([], ops[0], p);
    }
  }

  lemma FilterFive(a: seq<Op>, b: seq<Op>, c: seq<Op>, d: seq<Op>, e: seq<Op>, p: Op -> bool)
    ensures Filter(a + b + c + d + e, p) ==
      Filter(a, p) + Filter(b, p) + Filter(c, p) + Filter(d, p) + Filter(e, p)
  {
    FilterConcat(a + b + c + d, e, p);
    FilterConcat(a + b + c, d, p);
    FilterConcat(a + b, c, p);
    FilterConcat(a, b, p);
  }

  lemma AllOfStage(ops: seq<Op>, home: Stage, stage: Stage)
    requires forall op :: op in ops ==> StageOf(op) == home
    ensures Filter(ops, InStage(stage)) == if stage == home then ops else []
  {
    if stage == home { FilterAll(ops, InStage(stage)); } else { FilterNone(ops, InStage(stage)); }
  }

  lemma GroupHomes(schema: string, table: string, s: Column, t: Column)
    ensures forall op :: op in TypeOps(schema, table, s, t) ==> StageOf(op) == Deploy
    ensures forall op :: op in NullOps(schema, table, s, t) ==> StageOf(op) == Deploy
    ensures forall op :: op in CollationOps(schema, table, s, t) ==> StageOf(op) == Deploy
    ensures forall op :: op in IdentityOps(schema, table, s, t) ==> StageOf(op) == Deploy
    ensures forall op :: op in SetDefaultOps(schema, table, s, t) ==> StageOf(op) == PreDeploy
    ensures forall op :: op in DropDefaultOps(schema, table, s, t) ==> StageOf(op) == Deploy
    ensures DefaultOps(schema, table, s, t) == SetDefaultOps(schema, table, s, t) + DropDefaultOps(schema, table, s, t)
  {
  }

  /** SET DEFAULT is pre-deploy, the rest is deploy. */
  lemma GroupStages(schema: string, table: string, s: Column, t: Column, stage: Stage)
    ensures Filter(TypeOps(schema, table, s, t), InStage(stage)) ==
      if stage == Deploy then TypeOps(schema, table, s, t) else []
    ensures Filter(NullOps(schema, table, s, t), InStage(stage)) ==
      if stage == Deploy then NullOps(schema, table, s, t) else []
    ensures Filter(DefaultOps(schema, table, s, t), InStage(stage)) ==
      (if stage == PreDeploy then SetDefaultOps(schema, table, s, t) else []) +
      (if stage == Deploy then DropDefaultOps(schema, table, s, t) else [])
    ensures Filter(CollationOps(schema, table, s, t), InStage(stage)) ==
      if stage == Deploy then CollationOps(schema, table, s, t) else []
    ensures Filter(IdentityOps(schema, table, s, t), InStage(stage)) ==
      if stage == Deploy then IdentityOps(schema, table, s, t) else []
  {
    hide Filter, InStage, StageOf, TypeOps, NullOps, DefaultOps, CollationOps, IdentityOps, SetDefaultOps,
      DropDefaultOps;
    GroupHomes(schema, table, s, t);
    AllOfStage(TypeOps(schema, table, s, t), Deploy, stage);
    AllOfStage(NullOps(schema, table, s, t), Deploy, stage);
    AllOfStage(CollationOps(schema, table, s, t), Deploy, stage);
    AllOfStage(IdentityOps(schema, table, s, t), Deploy, stage);
    FilterConcat(SetDefaultOps(schema, table, s, t), DropDefaultOps(schema, table, s, t), InStage(stage));
    AllOfStage(SetDefaultOps(schema, table, s, t), PreDeploy, stage);
    AllOfStage(DropDefaultOps(schema, table, s, t), Deploy, stage);
  }

  lemma ColumnOpsStages(schema: string, table: string, s: Column, t: Column)
    ensures Filter(ColumnOps(schema, table, s, t), InStage(PreDeploy)) == SetDefaultOps(schema, table, s, t)
    ensures Filter(ColumnOps(schema, table, s, t), InStage(Deploy)) ==
      TypeOps(schema, table, s, t) + NullOps(schema, table, s, t) + DropDefaultOps(schema, table, s, t) +
      CollationOps(schema, table, s, t) + IdentityOps(schema, table, s, t)
    ensures Filter(ColumnOps(schema, table, s, t), InStage(PostDeploy)) == []
  {
    var a, b, c := TypeOps(schema, table, s, t), NullOps(schema, table, s, t), DefaultOps(schema, table, s, t);
    var d, e := CollationOps(schema, table, s, t), IdentityOps(schema, table, s, t);
    hide TypeOps, NullOps, DefaultOps, CollationOps, IdentityOps, SetDefaultOps, DropDefaultOps, InStage, Filter;
    FilterFive(a, b, c, d, e, InStage(PreDeploy));
    FilterFive(a, b, c, d, e, InStage(Deploy));
    FilterFive(a, b, c, d, e, InStage(PostDeploy));
    GroupStages(schema, table, s, t, PreDeploy);
    GroupStages(schema, table, s, t, Deploy);
    GroupStages(schema, table, s, t, PostDeploy);
  }

  /** The column once its default is set. */
  function Defaulted(s: Column, t: Column): Column {
    if t.defaultExpr.Some? then s.(defaultExpr := t.defaultExpr) else s
  }

  lemma SetDefaultEffectOn(schema: string, table: string, s: Column, t: Column)
    ensures RunOne(SetDefaultOps(schema, table, s, t), Some(s), ColumnEffect()) == Ok(Some(Defaulted(s, t)))
  {
    DefaultEffectOn(schema, table, s, t, s);
    assert s.defaultExpr == t.defaultExpr ==> s.(defaultExpr := t.defaultExpr) == s;
  }

  lemma DropDefaultEffectOn(schema: string, table: string, s: Column, t: Column, c: Column)
    requires c.defaultExpr == Defaulted(s, t).defaultExpr
    ensures RunOne(DropDefaultOps(schema, table, s, t), Some(c), ColumnEffect()) ==
      Ok(Some(c.(defaultExpr := t.defaultExpr)))
  {
    if t.defaultExpr.None? {
      DefaultEffectOn(schema, table, s, t, c);
    } else {
      assert c.(defaultExpr := t.defaultExpr) == c;
    }
  }

  /** The deploy operations for a common column, once its default is set. */
  lemma DeployOpsEffect(schema: string, table: string, s: Column, t: Column)
    ensures RunOne(Filter(ColumnOps(schema, table, s, t), InStage(Deploy)), Some(Defaulted(s, t)), ColumnEffect())
      == Ok(Some(Altered(s, t)))
  {
    ColumnOpsStages(schema, table, s, t);
    var s0 := Defaulted(s, t);
    var a, b, c := TypeOps(schema, table, s, t), NullOps(schema, table, s, t), DropDefaultOps(schema, table, s, t);
    var d, e := CollationOps(schema, table, s, t), IdentityOps(schema, table, s, t);
    hide TypeOps, NullOps, DropDefaultOps, CollationOps, IdentityOps, RunOne, ColumnEffect, Filter;
    var s1 := s0.(dataType := t.dataType);
    var s2 := s1.(isNullable := t.isNullable);
    var s3 := s2.(defaultExpr := t.defaultExpr);
    var s4 := s3.(dataType := Altered(s, t).dataType, collation := t.collation);
    TypeEffectOn(schema, table, s, t, s0);
    NullEffectOn(schema, table, s, t, s1);
    DropDefaultEffectOn(schema, table, s, t, s2);
    CollationEffectOn(schema, table, s, t, s3);
    IdentityEffectOn(schema, table, s, t, s4);
    assert a + b + c + d + e == a + (b + (c + (d + e)));
    GroupThen(a, b + (c + (d + e)), s0, s1);
    GroupThen(b, c + (d + e), s1, s2);
    GroupThen(c, d + e, s2, s3);
    GroupThen(d, e, s3, s4);
  }
}
