/** The differ: loops over sorted names that append operations and warnings, and that stop when
    the context is cancelled.  An uncancelled run emits exactly what module DiffSpec says. */
module Differ {
  import opened Catalog
  import opened Contexts
  import opened Operations
  import opened Names
  import opened Lists
  import opened DiffSpec

  // ----- walking a part of the names

  lemma {:induction false} FilterSorted(names: seq<string>, keep: string -> bool)
    requires StrictlySorted(names)
    ensures StrictlySorted(Filter(names, keep))
  {
    if names != [] {
      var init, last := names[..|names| - 1], names[|names| - 1];
      FilterSorted(init, keep);
      var kept := Filter(init, keep);
      forall i | 0 <= i < |kept| ensures Less(kept[i], last) {
        assert kept[i] in init;
        var j :| 0 <= j < |init| && init[j] == kept[i];
        assert names[j] == kept[i] && names[|init|] == last;
      }
    }
  }

  lemma {:induction false} FlatFilter<T(!new)>(names: seq<string>, keep: string -> bool, f: string -> seq<T>)
    requires forall n :: n in names && !keep(n) ==> f(n) == []
    ensures Flat(Filter(names, keep), f) == Flat(names, f)
  {
    if names != [] {
      var init, last := names[..|names| - 1], names[|names| - 1];
      assert forall n :: n in names <==> n in init || n == last;
      FlatFilter(init, keep, f);
      if keep(last) {
        var kept := Filter(init, keep);
        assert (kept + [last])[..|kept|] == kept;
      }
    }
  }

  /** Names that give nothing can be left out of the walk. */
  lemma WalkWhere<V, T(!new)>(m: map<string, V>, keep: string -> bool, f: string -> seq<T>)
    requires forall n :: n in m && !keep(n) ==> f(n) == []
    ensures Flat(Sorted(KeysWhere(m, keep)), f) == Flat(Sorted(m.Keys), f)
  {
    FilterSorted(Sorted(m.Keys), keep);
    SortedUnique(Filter(Sorted(m.Keys), keep), KeysWhere(m, keep));
    FlatFilter(Sorted(m.Keys), keep, f);
  }

  // ----- comparisons that loop

  method SameStringSlice(a: seq<string>, b: seq<string>) returns (same: bool)
    ensures same <==> a == b
  {
    if |a| != |b| {
      return false;
    }
    for i := 0 to |a|
      invariant forall k :: 0 <= k < i ==> a[k] == b[k]
    {
      if a[i] != b[i] {
        return false;
      }
    }
    return true;
  }

  method ExtendsLabels(source: seq<string>, target: seq<string>) returns (append: bool)
    ensures append <==> IsEnumAppend(source, target)
  {
    if |target| <= |source| {
      return false;
    }
    for i := 0 to |source|
      invariant forall k :: 0 <= k < i ==> target[k] == source[k]
    {
      if target[i] != source[i] {
        return false;
      }
    }
    return true;
  }

  method SameIndexContent(a: Index, b: Index) returns (same: bool)
    ensures same <==> SameIndex(a, b)
  {
    if a.unique != b.unique {
      return false;
    }
    if a.accessMethod != b.accessMethod {
      return false;
    }
    if a.whereClause != b.whereClause {
      return false;
    }
    if |a.elements| != |b.elements| {
      return false;
    }
    for i := 0 to |a.elements|
      invariant forall k :: 0 <= k < i ==> a.elements[k] == b.elements[k]
    {
      if a.elements[i].name != b.elements[i].name {
        return false;
      }
      if a.elements[i].indexColName != b.elements[i].indexColName {
        return false;
      }
      if a.elements[i].collation != b.elements[i].collation {
        return false;
      }
      if a.elements[i].expr != b.elements[i].expr {
        return false;
      }
      if a.elements[i].opclass != b.elements[i].opclass {
        return false;
      }
      if a.elements[i].ordering != b.elements[i].ordering {
        return false;
      }
      if a.elements[i].nullsOrdering != b.elements[i].nullsOrdering {
        return false;
      }
    }
    return true;
  }

  method ColumnSignature(col: Column) returns (b: string)
    ensures b == Signature(col)
  {
    b := col.dataType;
    b := b + "|";
    if col.isNullable {
      b := b + "true";
    } else {
      b := b + "false";
    }
    b := b + "|";
    if col.defaultExpr.Some? {
      b := b + col.defaultExpr.value;
    }
    b := b + "|";
    b := b + col.collation;
    assert col.defaultExpr.None? ==> b == Signature(col) by {
      assert "" + "|" == "|";
      var x := col.dataType + "|" + (if col.isNullable then "true" else "false") + "|";
      assert x + "" == x;
    }
  }

  lemma ColumnOpsJoin(schema: string, table: string, s: Column, t: Column,
                      o0: seq<Op>, o1: seq<Op>, o2: seq<Op>, o3: seq<Op>, o4: seq<Op>)
    requires o1 == o0 + TypeOps(schema, table, s, t) && o2 == o1 + NullOps(schema, table, s, t)
    requires o3 == o2 + DefaultOps(schema, table, s, t)
    requires o4 == o3 + (CollationOps(schema, table, s, t) + IdentityOps(schema, table, s, t))
    ensures o4 == o0 + ColumnOps(schema, table, s, t)
  {
    hide TypeOps, NullOps, DefaultOps, CollationOps, IdentityOps;
  }

  lemma OnlyNames(s: TableDef, t: TableDef)
    ensures Sorted(KeysWhere(s.columns, NotIn(t.columns))) == SourceOnly(s, t)
    ensures Sorted(KeysWhere(t.columns, NotIn(s.columns))) == TargetOnly(s, t)
  {
    assert KeysWhere(s.columns, NotIn(t.columns)) == set n | n in s.columns && n !in t.columns;
    assert KeysWhere(t.columns, NotIn(s.columns)) == set n | n in t.columns && n !in s.columns;
  }

  // ----- what each loop walks and gives

  /** New columns that are no rename targets. */
  function Unmatched(source: TableDef, renamed: set<string>): string -> bool {
    (n: string) => n !in source.columns && n !in renamed
  }

  lemma AddedColumns(schema: string, s: TableDef, t: TableDef, renamed: set<string>, pairs: seq<(string, string)>)
    requires forall n :: n in renamed <==> TargetTaken(pairs, n)
    ensures var f := AddStep(schema, t, pairs);
      && Flat(Sorted(KeysWhere(t.columns, Unmatched(s, renamed))), f) == Flat(TargetOnly(s, t), f)
      && forall n :: n in t.columns && Unmatched(s, renamed)(n) ==> f(n) == [AddColumnOp(schema, t.name, t.columns[n])]
  {
    var f := AddStep(schema, t, pairs);
    var m := map n | n in t.columns && n !in s.columns :: t.columns[n];
    assert m.Keys == set n | n in t.columns && n !in s.columns;
    assert KeysWhere(t.columns, Unmatched(s, renamed)) == KeysWhere(m, Unmatched(s, renamed));
    WalkWhere(m, Unmatched(s, renamed), f);
  }

  lemma AddedIndexes(schema: string, s: TableDef, t: TableDef)
    ensures var f := NewIndexStep(schema, s, t);
      && Flat(Sorted(KeysWhere(t.indexes, NotIn(s.indexes))), f) == Flat(Sorted(t.indexes.Keys), f)
      && forall n :: n in t.indexes && NotIn(s.indexes)(n) ==> f(n) == [CreateIndexOp(schema, t.indexes[n])]
  {
    WalkWhere(t.indexes, NotIn(s.indexes), NewIndexStep(schema, s, t));
  }

  lemma DroppedIndexes(schema: string, s: TableDef, t: TableDef)
    ensures var f := OldIndexStep(schema, s, t);
      && Flat(Sorted(KeysWhere(s.indexes, NotIn(t.indexes))), f) == Flat(Sorted(s.indexes.Keys), f)
      && forall n :: n in s.indexes && NotIn(t.indexes)(n) ==> f(n) == [DropIndexOp(schema, n)]
  {
    WalkWhere(s.indexes, NotIn(t.indexes), OldIndexStep(schema, s, t));
  }

  lemma CommonIndexes(schema: string, s: TableDef, t: TableDef)
    ensures var f := ChangedIndexStep(schema, s, t);
      && Flat(Sorted(KeysWhere(t.indexes, In(s.indexes))), f) == Flat(Sorted(t.indexes.Keys), f)
      && forall n :: n in t.indexes && In(s.indexes)(n) ==>
           n in s.indexes && f(n) == if SameIndex(s.indexes[n], t.indexes[n]) then []
                                     else [DropIndexOp(schema, n), CreateIndexOp(schema, t.indexes[n])]
  {
    hide SameIndex;
    WalkWhere(t.indexes, In(s.indexes), ChangedIndexStep(schema, s, t));
  }

  lemma AddedConstraints(schema: string, s: TableDef, t: TableDef)
    ensures var f := NewConstraintStep(schema, s, t);
      && Flat(Sorted(KeysWhere(t.constraints, NotIn(s.constraints))), f) == Flat(Sorted(t.constraints.Keys), f)
      && forall n :: n in t.constraints && NotIn(s.constraints)(n) ==>
        f(n) == [AddConstraintOp(schema, t.name, t.constraints[n])]
  {
    WalkWhere(t.constraints, NotIn(s.constraints), NewConstraintStep(schema, s, t));
  }

  /** Constraints that both tables have and that differ. */
  function Differing(s: map<string, Constraint>, t: map<string, Constraint>): string -> bool {
    (n: string) => n in s && n in t && !SameConstraintContent(s[n], t[n]) && !SameConstraintSemantics(s[n], t[n])
  }

  lemma ChangedConstraints(schema: string, s: TableDef, t: TableDef)
    ensures var f := ChangedConstraintStep(schema, s, t);
      && Flat(Sorted(KeysWhere(t.constraints, Differing(s.constraints, t.constraints))), f) ==
        Flat(Sorted(t.constraints.Keys), f)
      && forall n :: n in t.constraints && Differing(s.constraints, t.constraints)(n) ==>
        f(n) == [DropConstraintOp(schema, s.name, n), AddConstraintOp(schema, t.name, t.constraints[n])]
  {
    hide SameConstraintContent, SameConstraintSemantics;
    WalkWhere(t.constraints, Differing(s.constraints, t.constraints), ChangedConstraintStep(schema, s, t));
  }

  lemma DroppedConstraints(schema: string, s: TableDef, t: TableDef)
    ensures var f := OldConstraintStep(schema, s, t);
      && Flat(Sorted(KeysWhere(s.constraints, NotIn(t.constraints))), f) == Flat(Sorted(s.constraints.Keys), f)
      && forall n :: n in s.constraints && NotIn(t.constraints)(n) ==> f(n) == [DropConstraintOp(schema, s.name, n)]
  {
    WalkWhere(s.constraints, NotIn(t.constraints), OldConstraintStep(schema, s, t));
  }

  lemma AddedTables(s: NamespaceDef, t: NamespaceDef)
    ensures var f := NewTableStep(s, t);
      && Flat(Sorted(KeysWhere(t.tables, NotIn(s.tables))), f) == Flat(Sorted(t.tables.Keys), f)
      && forall n :: n in t.tables && NotIn(s.tables)(n) ==> f(n) == [AddTableOp(t.name, n, t.tables[n])]
  {
    WalkWhere(t.tables, NotIn(s.tables), NewTableStep(s, t));
  }

  lemma DroppedTables(s: NamespaceDef, t: NamespaceDef)
    ensures var f := OldTableStep(s, t);
      && Flat(Sorted(KeysWhere(s.tables, NotIn(t.tables))), f) == Flat(Sorted(s.tables.Keys), f)
      && forall n :: n in s.tables && NotIn(t.tables)(n) ==> f(n) == [DropTableOp(s.name, n)]
  {
    WalkWhere(s.tables, NotIn(t.tables), OldTableStep(s, t));
  }

  lemma CommonTables(s: NamespaceDef, t: NamespaceDef, walk: Walk)
    ensures var f := CommonTableStep(s, t, walk);
      && Flat(Sorted(KeysWhere(t.tables, In(s.tables))), f) == Flat(Sorted(t.tables.Keys), f)
      && forall n :: n in t.tables && In(s.tables)(n) ==>
           n in s.tables && f(n) == CommonTableOps(s.name, s.tables[n], t.tables[n], walk(s.name, n))
  {
    hide CommonTableOps;
    WalkWhere(t.tables, In(s.tables), CommonTableStep(s, t, walk));
  }

  lemma EveryName<V>(m: map<string, V>)
    ensures KeysWhere(m, Every()) == m.Keys
  {
  }

  lemma NoMatches(schema: string, s: TableDef, t: TableDef, sources: seq<string>, bySig: map<string, string>)
    requires forall n :: n in sources ==> n in s.columns
    ensures Matches(s, sources[..0], bySig) == [] && RenameOps(schema, t.name, []) == []
    ensures forall n :: !SourceTaken([], n) && !TargetTaken([], n)
  {
  }

  lemma MatchesNext(s: TableDef, sources: seq<string>, bySig: map<string, string>, i: nat)
    requires i < |sources| && forall n :: n in sources ==> n in s.columns
    ensures Matches(s, sources[..i + 1], bySig) ==
      var before := Matches(s, sources[..i], bySig);
      var sig := Signature(s.columns[sources[i]]);
      if sig in bySig && !TargetTaken(before, bySig[sig]) then before + [(sources[i], bySig[sig])] else before
  {
    hide Signature;
    assert sources[..i + 1][..i] == sources[..i];
  }

  lemma TakenStep(pairs: seq<(string, string)>, a: string, b: string)
    ensures forall n :: SourceTaken(pairs + [(a, b)], n) <==> SourceTaken(pairs, n) || n == a
    ensures forall n :: TargetTaken(pairs + [(a, b)], n) <==> TargetTaken(pairs, n) || n == b
  {
    var more := pairs + [(a, b)];
    assert more[|pairs|] == (a, b);
    assert forall i :: 0 <= i < |pairs| ==> more[i] == pairs[i];
  }

  lemma RenameOpsStep(schema: string, table: string, pairs: seq<(string, string)>, a: string, b: string)
    ensures RenameOps(schema, table, pairs + [(a, b)]) ==
      RenameOps(schema, table, pairs) + [RenameColumnOp(schema, table, a, b)]
  {
    assert (pairs + [(a, b)])[..|pairs|] == pairs;
  }

  /** `base` is the source namespace, or an empty one where there is none. */
  ghost predicate Reads(source: Option<NamespaceDef>, base: NamespaceDef) {
    source == Some(base) || (source.None? && base == EmptyNamespace(base.name))
  }

  lemma AppendedThree<T>(o: seq<T>, a: seq<T>, b: seq<T>, c: seq<T>)
    ensures o + a + b + c == o + (a + b + c)
  {
  }

  /** A list has grown by what `f` gives for the first `i` names. */
  ghost predicate Holds<T(!new)>(now: seq<T>, before: seq<T>, names: seq<string>, i: nat, f: string -> seq<T>) {
    i <= |names| && now == before + Flat(names[..i], f)
  }

  lemma StartOf<T(!new)>(before: seq<T>, names: seq<string>, f: string -> seq<T>)
    ensures Holds(before, before, names, 0, f)
  {
  }

  lemma Grown<T(!new)>(before: seq<T>, now: seq<T>, names: seq<string>, i: nat, f: string -> seq<T>)
    requires i < |names| && Holds(now, before, names, i, f)
    ensures Holds(now + f(names[i]), before, names, i + 1, f)
    ensures now + [] == now
  {
    FlatStep(names, i, f);
  }

  lemma Finish<T(!new)>(before: seq<T>, now: seq<T>, names: seq<string>, f: string -> seq<T>)
    requires Holds(now, before, names, |names|, f)
    ensures now == before + Flat(names, f)
  {
    assert names[..|names|] == names;
  }

  lemma Twice<T>(s: seq<T>, a: T, b: T)
    ensures s + [a] + [b] == s + [a, b]
  {
  }

  lemma JoinedTwo<T>(o: seq<T>, a: seq<T>, b: seq<T>)
    ensures o + a + b == o + (a + b)
  {
  }

  lemma JoinedFive<T>(o: seq<T>, a: seq<T>, b: seq<T>, c: seq<T>, d: seq<T>, e: seq<T>)
    ensures o + a + b + c + d + e == o + (a + b + c + d + e)
  {
  }

  // ----- nothing to compare with

  lemma NoNames<T(!new)>(f: string -> seq<T>)
    ensures Flat(Sorted({}), f) == []
  {
  }

  lemma NoSourceTables(base: NamespaceDef, t: NamespaceDef, walk: Walk)
    requires base.tables == map[]
    ensures TablesOps(base, t, walk) == Flat(Sorted(t.tables.Keys), NewTableStep(base, t))
  {
    hide CommonTableOps, NewTableStep, OldTableStep;
    assert base.tables.Keys == {};
    NoNames(OldTableStep(base, t));
    FlatEmpty(Sorted(t.tables.Keys), CommonTableStep(base, t, walk));
  }

  lemma NoCommonTypes(base: NamespaceDef, t: NamespaceDef)
    requires base.types == map[]
    ensures Flat(Sorted(t.types.Keys), CommonTypeStep(base, t)) == []
    ensures Flat(Sorted(base.types.Keys), OldTypeStep(base, t)) == []
  {
    hide EnumOps;
    assert base.types.Keys == {};
    NoNames(OldTypeStep(base, t));
    FlatEmpty(Sorted(t.types.Keys), CommonTypeStep(base, t));
  }

  lemma NoSourceTypes(base: NamespaceDef, t: NamespaceDef)
    requires base.types == map[]
    ensures TypesOps(base, t) == Flat(Sorted(t.types.Keys), NewTypeStep(base, t))
  {
    hide NewTypeStep, OldTypeStep, CommonTypeStep, Flat;
    NoCommonTypes(base, t);
  }

  lemma NoSourceWarnings(base: NamespaceDef, t: NamespaceDef)
    requires base.types == map[]
    ensures Flat(Sorted(t.types.Keys), TypeWarningStep(base, t)) == []
  {
    hide EnumWarns;
    FlatEmpty(Sorted(t.types.Keys), TypeWarningStep(base, t));
  }

  lemma NoSourceViews(base: NamespaceDef, t: NamespaceDef)
    requires base.views == map[]
    ensures ViewsOps(base, t) == Flat(Sorted(t.views.Keys), TargetViewStep(base, t))
  {
    hide TargetViewStep, OldViewStep;
    assert base.views.Keys == {};
    NoNames(OldViewStep(base, t));
  }

  lemma NoSourceSequences(base: NamespaceDef, t: NamespaceDef)
    requires base.sequences == map[]
    ensures SequencesOps(base, t) == Flat(Sorted(t.sequences.Keys), TargetSequenceStep(base, t))
  {
    hide TargetSequenceStep, OldSequenceStep;
    assert base.sequences.Keys == {};
    NoNames(OldSequenceStep(base, t));
  }

  lemma NoSourceExtensions(base: NamespaceDef, t: NamespaceDef)
    requires base.extensions == map[]
    ensures ExtensionsOps(base, t) == Flat(Sorted(t.extensions.Keys), TargetExtensionStep(base, t))
  {
    hide TargetExtensionStep, OldExtensionStep;
    assert base.extensions.Keys == {};
    NoNames(OldExtensionStep(base, t));
  }

  // ----- what one name gives

  lemma CommonTypeAt(s: NamespaceDef, t: NamespaceDef, n: string)
    requires n in t.types
    ensures CommonTypeStep(s, t)(n) == if n in s.types then EnumOps(t.name, n, s.types[n], t.types[n]) else []
    ensures TypeWarningStep(s, t)(n) ==
      if n in s.types && EnumWarns(s.types[n], t.types[n]) then [EnumNotAppendOnly(t.name, n)] else []
  {
    hide EnumOps, EnumWarns;
  }

  lemma ColumnsJoined(schema: string, s: TableDef, t: TableDef, walk: seq<string>, o: seq<Op>, now: seq<Op>)
    requires now == o + RenameOps(schema, t.name, Renames(s, t)) +
      Flat(TargetOnly(s, t), AddStep(schema, t, Renames(s, t)))
      + Flat(walk, DropStep(schema, s, t, Renames(s, t))) + Flat(t.order, AlterStep(schema, s, t))
    ensures now == o + TableColumnOps(schema, s, t, walk)
  {
    hide RenameOps, Renames, TargetOnly, Flat;
    var r, a, d, l := RenameOps(schema, t.name, Renames(s, t)),
      Flat(TargetOnly(s, t), AddStep(schema, t, Renames(s, t))),
      Flat(walk, DropStep(schema, s, t, Renames(s, t))), Flat(t.order, AlterStep(schema, s, t));
    assert o + r + a + d + l == o + (r + a + d + l);
  }

  lemma OnlyOwnNames(s: TableDef, t: TableDef)
    ensures forall n :: n in SourceOnly(s, t) ==> n in s.columns
    ensures forall n :: n in TargetOnly(s, t) ==> n in t.columns
  {
  }

  // ----- the state of one run

  class DiffContext {
    const ctx: Context
    const walk: Walk
    var ops: seq<Op>
    var warnings: seq<Warning>

    constructor (ctx: Context, walk: Walk)
      ensures this.ctx == ctx && this.walk == walk && ops == [] && warnings == []
    {
      this.ctx := ctx;
      this.walk := walk;
      ops, warnings := [], [];
    }

    // ----- columns

    method DiffColumn(schema: string, table: string, source: Column, target: Column)
      modifies this`ops
      ensures ops == old(ops) + ColumnOps(schema, table, source, target)
    {
      hide SameDefault;
      if source.dataType != target.dataType {
        ops := ops + [AlterColumnTypeOp(schema, table, source.name, source.dataType, target.dataType)];
      }
      ghost var o1 := ops;
      assert o1 == old(ops) + TypeOps(schema, table, source, target);
      if source.isNullable && !target.isNullable {
        ops := ops + [SetNotNullOp(schema, table, source.name)];
      } else if !source.isNullable && target.isNullable {
        ops := ops + [DropNotNullOp(schema, table, source.name)];
      }
      ghost var o2 := ops;
      assert o2 == o1 + NullOps(schema, table, source, target);
      if !SameDefault(source.defaultExpr, target.defaultExpr) {
        if target.defaultExpr.None? {
          ops := ops + [DropDefaultOp(schema, table, source.name)];
        } else {
          ops := ops + [SetDefaultOp(schema, table, source.name, target.defaultExpr.value)];
        }
      }
      ghost var o3 := ops;
      assert o3 == o2 + DefaultOps(schema, table, source, target);
      DiffCollationAndIdentity(schema, table, source, target);
      ColumnOpsJoin(schema, table, source, target, old(ops), o1, o2, o3, ops);
      hide ColumnOps;
    }

    /** The second half of the comparison. */
    method DiffCollationAndIdentity(schema: string, table: string, source: Column, target: Column)
      modifies this`ops
      ensures ops == old(ops) +
        (CollationOps(schema, table, source, target) + IdentityOps(schema, table, source, target))
    {
      if source.collation != target.collation {
        var dataType := target.dataType;
        if dataType == "" {
          dataType := source.dataType;
        }
        ops := ops + [AlterColumnCollationOp(schema, table, source.name, dataType, source.collation, target.collation)];
      }
      assert ops == old(ops) + CollationOps(schema, table, source, target);
      if source.isIdentity != target.isIdentity || source.identityKind != target.identityKind {
        if !source.isIdentity && target.isIdentity {
          ops := ops + [AddIdentityOp(schema, table, source.name, target.identityKind)];
        } else if source.isIdentity && target.isIdentity {
          ops := ops + [SetIdentityOp(schema, table, source.name, target.identityKind)];
        } else if source.isIdentity && !target.isIdentity {
          ops := ops + [DropIdentityOp(schema, table, source.name)];
        }
      }
      assert ops == old(ops) + CollationOps(schema, table, source, target) + IdentityOps(schema, table, source, target);
    }

    /** The lookup table from signature to target-only column. */
    method TargetBySignature(target: TableDef, names: seq<string>) returns (bySig: map<string, string>)
      requires forall n :: n in names ==> n in target.columns
      ensures bySig == BySignature(target, names)
    {
      bySig := map[];
      for i := 0 to |names|
        invariant bySig == BySignature(target, names[..i])
      {
        assert names[..i + 1][..i] == names[..i];
        var sig := ColumnSignature(target.columns[names[i]]);
        bySig := bySig[sig := names[i]];
      }
      assert names[..|names|] == names;
    }

    method RenameColumns(schema: string, source: TableDef, target: TableDef, sources: seq<string>,
                         bySig: map<string, string>)
      returns (done: bool, renamedSource: set<string>, renamedTarget: set<string>)
      requires forall n :: n in sources ==> n in source.columns
      modifies this`ops, ctx
      ensures old(ctx.Cancelled()) ==> ctx.Cancelled()
      ensures !done ==> ctx.Cancelled()
      ensures done ==>
        && ops == old(ops) + RenameOps(schema, target.name, Matches(source, sources, bySig))
        && (forall n :: n in renamedSource <==> SourceTaken(Matches(source, sources, bySig), n))
        && (forall n :: n in renamedTarget <==> TargetTaken(Matches(source, sources, bySig), n))
    {
      hide Matches, RenameOps, SourceTaken, TargetTaken, Signature;
      NoMatches(schema, source, target, sources, bySig);
      renamedSource, renamedTarget := {}, {};
      for i := 0 to |sources|
        invariant old(ctx.Cancelled()) ==> ctx.Cancelled()
        invariant ops == old(ops) + RenameOps(schema, target.name, Matches(source, sources[..i], bySig))
        invariant forall n :: n in renamedSource <==> SourceTaken(Matches(source, sources[..i], bySig), n)
        invariant forall n :: n in renamedTarget <==> TargetTaken(Matches(source, sources[..i], bySig), n)
      {
        var cancelled := ctx.Err();
        if cancelled {
          return false, renamedSource, renamedTarget;
        }
        MatchesNext(source, sources, bySig, i);
        ghost var before := Matches(source, sources[..i], bySig);
        var srcName := sources[i];
        var sig := ColumnSignature(source.columns[srcName]);
        if sig in bySig && bySig[sig] !in renamedTarget {
          var tgtName := bySig[sig];
          TakenStep(before, srcName, tgtName);
          RenameOpsStep(schema, target.name, before, srcName, tgtName);
          ops := ops + [RenameColumnOp(schema, target.name, srcName, tgtName)];
          renamedSource := renamedSource + {srcName};
          renamedTarget := renamedTarget + {tgtName};
        }
      }
      assert sources[..|sources|] == sources;
      done := true;
    }

    method AddColumns(schema: string, source: TableDef, target: TableDef, renamedTarget: set<string>,
                      ghost pairs: seq<(string, string)>)
      requires forall n :: n in renamedTarget <==> TargetTaken(pairs, n)
      modifies this`ops
      ensures ops == old(ops) + Flat(TargetOnly(source, target), AddStep(schema, target, pairs))
    {
      AddedColumns(schema, source, target, renamedTarget, pairs);
      hide AddStep, Flat, KeysWhere, Unmatched, TargetOnly, TargetTaken, Holds;
      var addColNames := SortedKeysWhere(target.columns, Unmatched(source, renamedTarget));
      ghost var f := AddStep(schema, target, pairs);
      StartOf(ops, addColNames, f);
      for i := 0 to |addColNames|
        invariant Holds(ops, old(ops), addColNames, i, f)
      {
        Grown(old(ops), ops, addColNames, i, f);
        ops := ops + [AddColumnOp(schema, target.name, target.columns[addColNames[i]])];
      }
      Finish(old(ops), ops, addColNames, f);
    }

    method DropColumns(schema: string, source: TableDef, target: TableDef, names: seq<string>,
                       renamedSource: set<string>, ghost pairs: seq<(string, string)>)
      requires forall n :: n in renamedSource <==> SourceTaken(pairs, n)
      modifies this`ops
      ensures ops == old(ops) + Flat(names, DropStep(schema, source, target, pairs))
    {
      hide Holds, Flat;
      ghost var f := DropStep(schema, source, target, pairs);
      StartOf(ops, names, f);
      for i := 0 to |names|
        invariant Holds(ops, old(ops), names, i, f)
      {
        Grown(old(ops), ops, names, i, f);
        if names[i] !in target.columns && names[i] !in renamedSource {
          ops := ops + [DropColumnOp(schema, source.name, names[i])];
        }
      }
      Finish(old(ops), ops, names, f);
    }

    method AlterColumns(schema: string, source: TableDef, target: TableDef)
      modifies this`ops, ctx
      ensures old(ctx.Cancelled()) ==> ctx.Cancelled()
      ensures !ctx.Cancelled() ==> ops == old(ops) + Flat(target.order, AlterStep(schema, source, target))
    {
      ghost var f := AlterStep(schema, source, target);
      hide Flat, ColumnOps, Holds;
      StartOf(ops, target.order, f);
      for i := 0 to |target.order|
        invariant old(ctx.Cancelled()) ==> ctx.Cancelled()
        invariant Holds(ops, old(ops), target.order, i, f)
      {
        var cancelled := ctx.Err();
        if cancelled {
          return;
        }
        Grown(old(ops), ops, target.order, i, f);
        var name := target.order[i];
        if name in source.columns && name in target.columns {
          DiffColumn(schema, target.name, source.columns[name], target.columns[name]);
        }
      }
      Finish(old(ops), ops, target.order, f);
    }

    method DiffTableColumns(schema: string, source: TableDef, target: TableDef, names: seq<string>)
      modifies this`ops, ctx
      ensures old(ctx.Cancelled()) ==> ctx.Cancelled()
      ensures !ctx.Cancelled() ==> ops == old(ops) + TableColumnOps(schema, source, target, names)
    {
      hide Flat, AddStep, DropStep, AlterStep, RenameOps, SourceTaken, TargetTaken, KeysWhere, NotIn, SourceOnly,
        TargetOnly, Matches, BySignature, TableColumnOps, StrictlySorted;
      OnlyNames(source, target);
      OnlyOwnNames(source, target);
      var sourceOnly := SortedKeysWhere(source.columns, NotIn(target.columns));
      var targetOnly := SortedKeysWhere(target.columns, NotIn(source.columns));
      var bySig := TargetBySignature(target, targetOnly);
      ghost var pairs := Renames(source, target);
      var done, renamedSource, renamedTarget := RenameColumns(schema, source, target, sourceOnly, bySig);
      if !done {
        return;
      }
      AddColumns(schema, source, target, renamedTarget, pairs);
      DropColumns(schema, source, target, names, renamedSource, pairs);
      AlterColumns(schema, source, target);
      if !ctx.Cancelled() {
        ColumnsJoined(schema, source, target, names, old(ops), ops);
      }
    }

    // ----- indexes

    method AddIndexes(schema: string, source: TableDef, target: TableDef)
      modifies this`ops
      ensures ops == old(ops) + Flat(Sorted(target.indexes.Keys), NewIndexStep(schema, source, target))
    {
      AddedIndexes(schema, source, target);
      hide NewIndexStep, Flat, KeysWhere, NotIn, StrictlySorted, Holds;
      var addIdx := SortedKeysWhere(target.indexes, NotIn(source.indexes));
      ghost var f := NewIndexStep(schema, source, target);
      StartOf(ops, addIdx, f);
      for i := 0 to |addIdx|
        invariant Holds(ops, old(ops), addIdx, i, f)
      {
        Grown(old(ops), ops, addIdx, i, f);
        var name := addIdx[i];
        ops := ops + [CreateIndexOp(schema, target.indexes[name])];
      }
      Finish(old(ops), ops, addIdx, f);
    }

    method DropIndexes(schema: string, source: TableDef, target: TableDef)
      modifies this`ops
      ensures ops == old(ops) + Flat(Sorted(source.indexes.Keys), OldIndexStep(schema, source, target))
    {
      DroppedIndexes(schema, source, target);
      hide OldIndexStep, Flat, KeysWhere, NotIn, StrictlySorted, Holds;
      var dropIdx := SortedKeysWhere(source.indexes, NotIn(target.indexes));
      ghost var f := OldIndexStep(schema, source, target);
      StartOf(ops, dropIdx, f);
      for i := 0 to |dropIdx|
        invariant Holds(ops, old(ops), dropIdx, i, f)
      {
        Grown(old(ops), ops, dropIdx, i, f);
        var name := dropIdx[i];
        ops := ops + [DropIndexOp(schema, name)];
      }
      Finish(old(ops), ops, dropIdx, f);
    }

    method ReplaceIndexes(schema: string, source: TableDef, target: TableDef)
      modifies this`ops
      ensures ops == old(ops) + Flat(Sorted(target.indexes.Keys), ChangedIndexStep(schema, source, target))
    {
      CommonIndexes(schema, source, target);
      hide ChangedIndexStep, Flat, KeysWhere, StrictlySorted, In, SameIndex, Holds;
      var bothIdx := SortedKeysWhere(target.indexes, In(source.indexes));
      ghost var f := ChangedIndexStep(schema, source, target);
      StartOf(ops, bothIdx, f);
      for i := 0 to |bothIdx|
        invariant Holds(ops, old(ops), bothIdx, i, f)
      {
        Grown(old(ops), ops, bothIdx, i, f);
        var name := bothIdx[i];
        var same := SameIndexContent(source.indexes[name], target.indexes[name]);
        Twice(ops, DropIndexOp(schema, name), CreateIndexOp(schema, target.indexes[name]));
        if !same {
          ops := ops + [DropIndexOp(schema, name)];
          ops := ops + [CreateIndexOp(schema, target.indexes[name])];
        }
      }
      Finish(old(ops), ops, bothIdx, f);
    }

    method DiffTableIndexes(schema: string, source: TableDef, target: TableDef)
      modifies this`ops
      ensures ops == old(ops) + TableIndexOps(schema, source, target)
    {
      hide Flat, NewIndexStep, OldIndexStep, ChangedIndexStep;
      AddIndexes(schema, source, target);
      DropIndexes(schema, source, target);
      ReplaceIndexes(schema, source, target);
      AppendedThree(old(ops), Flat(Sorted(target.indexes.Keys), NewIndexStep(schema, source, target)),
             Flat(Sorted(source.indexes.Keys), OldIndexStep(schema, source, target)),
             Flat(Sorted(target.indexes.Keys), ChangedIndexStep(schema, source, target)));
    }

    // ----- constraints

    method AddConstraints(schema: string, source: TableDef, target: TableDef)
      modifies this`ops
      ensures ops == old(ops) + Flat(Sorted(target.constraints.Keys), NewConstraintStep(schema, source, target))
    {
      AddedConstraints(schema, source, target);
      hide NewConstraintStep, Flat, KeysWhere, NotIn, StrictlySorted, Holds;
      var addNames := SortedKeysWhere(target.constraints, NotIn(source.constraints));
      ghost var f := NewConstraintStep(schema, source, target);
      StartOf(ops, addNames, f);
      for i := 0 to |addNames|
        invariant Holds(ops, old(ops), addNames, i, f)
      {
        Grown(old(ops), ops, addNames, i, f);
        var name := addNames[i];
        ops := ops + [AddConstraintOp(schema, target.name, target.constraints[name])];
      }
      Finish(old(ops), ops, addNames, f);
    }

    method ReplaceConstraints(schema: string, source: TableDef, target: TableDef)
      modifies this`ops
      ensures ops == old(ops) + Flat(Sorted(target.constraints.Keys), ChangedConstraintStep(schema, source, target))
    {
      ChangedConstraints(schema, source, target);
      hide ChangedConstraintStep, Flat, KeysWhere, Differing, StrictlySorted, SameConstraintContent,
        SameConstraintSemantics, Holds;
      var changeNames := SortedKeysWhere(target.constraints, Differing(source.constraints, target.constraints));
      ghost var f := ChangedConstraintStep(schema, source, target);
      StartOf(ops, changeNames, f);
      for i := 0 to |changeNames|
        invariant Holds(ops, old(ops), changeNames, i, f)
      {
        Grown(old(ops), ops, changeNames, i, f);
        var name := changeNames[i];
        Twice(ops, DropConstraintOp(schema, source.name, name),
          AddConstraintOp(schema, target.name, target.constraints[name]));
        ops := ops + [DropConstraintOp(schema, source.name, name)];
        ops := ops + [AddConstraintOp(schema, target.name, target.constraints[name])];
      }
      Finish(old(ops), ops, changeNames, f);
    }

    method DropConstraints(schema: string, source: TableDef, target: TableDef)
      modifies this`ops
      ensures ops == old(ops) + Flat(Sorted(source.constraints.Keys), OldConstraintStep(schema, source, target))
    {
      DroppedConstraints(schema, source, target);
      hide OldConstraintStep, Flat, KeysWhere, NotIn, StrictlySorted, Holds;
      var dropNames := SortedKeysWhere(source.constraints, NotIn(target.constraints));
      ghost var f := OldConstraintStep(schema, source, target);
      StartOf(ops, dropNames, f);
      for i := 0 to |dropNames|
        invariant Holds(ops, old(ops), dropNames, i, f)
      {
        Grown(old(ops), ops, dropNames, i, f);
        var name := dropNames[i];
        ops := ops + [DropConstraintOp(schema, source.name, name)];
      }
      Finish(old(ops), ops, dropNames, f);
    }

    method DiffTableConstraints(schema: string, source: TableDef, target: TableDef)
      modifies this`ops
      ensures ops == old(ops) + TableConstraintOps(schema, source, target)
    {
      hide Flat, NewConstraintStep, ChangedConstraintStep, OldConstraintStep;
      AddConstraints(schema, source, target);
      ReplaceConstraints(schema, source, target);
      DropConstraints(schema, source, target);
      AppendedThree(old(ops), Flat(Sorted(target.constraints.Keys), NewConstraintStep(schema, source, target)),
             Flat(Sorted(target.constraints.Keys), ChangedConstraintStep(schema, source, target)),
             Flat(Sorted(source.constraints.Keys), OldConstraintStep(schema, source, target)));
    }

    // ----- tables

    method AddTables(source: NamespaceDef, target: NamespaceDef) returns (ok: bool)
      modifies this`ops, ctx
      ensures old(ctx.Cancelled()) ==> ctx.Cancelled()
      ensures !ok ==> ctx.Cancelled()
      ensures ok ==> ops == old(ops) + Flat(Sorted(target.tables.Keys), NewTableStep(source, target))
    {
      AddedTables(source, target);
      hide NewTableStep, Flat, KeysWhere, NotIn, StrictlySorted, Holds;
      var addNames := SortedKeysWhere(target.tables, NotIn(source.tables));
      ghost var f := NewTableStep(source, target);
      StartOf(ops, addNames, f);
      for i := 0 to |addNames|
        invariant old(ctx.Cancelled()) ==> ctx.Cancelled()
        invariant Holds(ops, old(ops), addNames, i, f)
      {
        var cancelled := ctx.Err();
        if cancelled {
          return false;
        }
        Grown(old(ops), ops, addNames, i, f);
        var name := addNames[i];
        ops := ops + [AddTableOp(target.name, name, target.tables[name])];
      }
      Finish(old(ops), ops, addNames, f);
      ok := true;
    }

    method DropTables(source: NamespaceDef, target: NamespaceDef) returns (ok: bool)
      modifies this`ops, ctx
      ensures old(ctx.Cancelled()) ==> ctx.Cancelled()
      ensures !ok ==> ctx.Cancelled()
      ensures ok ==> ops == old(ops) + Flat(Sorted(source.tables.Keys), OldTableStep(source, target))
    {
      DroppedTables(source, target);
      hide OldTableStep, Flat, KeysWhere, NotIn, StrictlySorted, Holds;
      var dropNames := SortedKeysWhere(source.tables, NotIn(target.tables));
      ghost var f := OldTableStep(source, target);
      StartOf(ops, dropNames, f);
      for i := 0 to |dropNames|
        invariant old(ctx.Cancelled()) ==> ctx.Cancelled()
        invariant Holds(ops, old(ops), dropNames, i, f)
      {
        var cancelled := ctx.Err();
        if cancelled {
          return false;
        }
        Grown(old(ops), ops, dropNames, i, f);
        var name := dropNames[i];
        ops := ops + [DropTableOp(source.name, name)];
      }
      Finish(old(ops), ops, dropNames, f);
      ok := true;
    }

    method CompareTables(source: NamespaceDef, target: NamespaceDef)
      modifies this`ops, ctx
      ensures old(ctx.Cancelled()) ==> ctx.Cancelled()
      ensures !ctx.Cancelled() ==>
        ops == old(ops) + Flat(Sorted(target.tables.Keys), CommonTableStep(source, target, walk))
    {
      CommonTables(source, target, walk);
      hide CommonTableStep, Flat, KeysWhere, StrictlySorted, CommonTableOps;
      var bothNames := SortedKeysWhere(target.tables, In(source.tables));
      ghost var f := CommonTableStep(source, target, walk);
      assert forall i :: 0 <= i < |bothNames| ==> bothNames[i] in source.tables && bothNames[i] in target.tables;
      CompareEach(source, target, bothNames);
    }

    method CompareEach(source: NamespaceDef, target: NamespaceDef, bothNames: seq<string>)
      requires forall i :: 0 <= i < |bothNames| ==> bothNames[i] in source.tables && bothNames[i] in target.tables
      modifies this`ops, ctx
      ensures old(ctx.Cancelled()) ==> ctx.Cancelled()
      ensures !ctx.Cancelled() ==> ops == old(ops) + Flat(bothNames, CommonTableStep(source, target, walk))
    {
      ghost var f := CommonTableStep(source, target, walk);
      hide Flat, CommonTableOps, Holds;
      StartOf(ops, bothNames, f);
      for i := 0 to |bothNames|
        invariant old(ctx.Cancelled()) ==> ctx.Cancelled()
        invariant !ctx.Cancelled() ==> Holds(ops, old(ops), bothNames, i, f)
      {
        ghost var before := ops;
        var name := bothNames[i];
        DiffTable(source.name, source.tables[name], target.tables[name], walk(source.name, name));
        if !ctx.Cancelled() {
          Grown(old(ops), before, bothNames, i, f);
        }
      }
      if !ctx.Cancelled() {
        Finish(old(ops), ops, bothNames, f);
      }
    }

    method DiffTable(schema: string, source: TableDef, target: TableDef, names: seq<string>)
      modifies this`ops, ctx
      ensures old(ctx.Cancelled()) ==> ctx.Cancelled()
      ensures !ctx.Cancelled() ==> ops == old(ops) + CommonTableOps(schema, source, target, names)
    {
      hide TableColumnOps, TableIndexOps, TableConstraintOps;
      DiffTableColumns(schema, source, target, names);
      DiffTableIndexes(schema, source, target);
      DiffTableConstraints(schema, source, target);
      AppendedThree(old(ops), TableColumnOps(schema, source, target, names), TableIndexOps(schema, source, target),
             TableConstraintOps(schema, source, target));
    }

    /** All of a namespace's tables are new. */
    method AddAllTables(target: NamespaceDef, ghost base: NamespaceDef) returns (ok: bool)
      requires base.tables == map[]
      modifies this`ops, ctx
      ensures old(ctx.Cancelled()) ==> ctx.Cancelled()
      ensures !ok ==> ctx.Cancelled()
      ensures ok ==> ops == old(ops) + Flat(Sorted(target.tables.Keys), NewTableStep(base, target))
    {
      hide Flat, KeysWhere, Every, StrictlySorted, Holds;
      EveryName(target.tables);
      var tableNames := SortedKeysWhere(target.tables, Every());
      ghost var f := NewTableStep(base, target);
      StartOf(ops, tableNames, f);
      for i := 0 to |tableNames|
        invariant old(ctx.Cancelled()) ==> ctx.Cancelled()
        invariant Holds(ops, old(ops), tableNames, i, f)
      {
        var cancelled := ctx.Err();
        if cancelled {
          return false;
        }
        Grown(old(ops), ops, tableNames, i, f);
        var name := tableNames[i];
        ops := ops + [AddTableOp(target.name, name, target.tables[name])];
      }
      Finish(old(ops), ops, tableNames, f);
      ok := true;
    }

    method DiffTables(source: Option<NamespaceDef>, target: NamespaceDef, ghost base: NamespaceDef)
      requires Reads(source, base)
      modifies this`ops, ctx
      ensures old(ctx.Cancelled()) ==> ctx.Cancelled()
      ensures !ctx.Cancelled() ==> ops == old(ops) + TablesOps(base, target, walk)
    {
      hide Flat, NewTableStep, OldTableStep, CommonTableStep, StrictlySorted;
      if source.None? {
        var ok := AddAllTables(target, base);
        if ok {
          NoSourceTables(base, target, walk);
        }
        return;
      }
      var added := AddTables(source.value, target);
      if !added {
        return;
      }
      var dropped := DropTables(source.value, target);
      if !dropped {
        return;
      }
      CompareTables(source.value, target);
      if !ctx.Cancelled() {
        AppendedThree(old(ops), Flat(Sorted(target.tables.Keys), NewTableStep(base, target)),
               Flat(Sorted(base.tables.Keys), OldTableStep(base, target)),
               Flat(Sorted(target.tables.Keys), CommonTableStep(base, target, walk)));
      }
    }

    // ----- enum types

    method AddAllTypes(target: NamespaceDef, ghost base: NamespaceDef) returns (ok: bool)
      requires base.types == map[]
      modifies this`ops, ctx
      ensures old(ctx.Cancelled()) ==> ctx.Cancelled()
      ensures !ok ==> ctx.Cancelled()
      ensures ok ==> ops == old(ops) + Flat(Sorted(target.types.Keys), NewTypeStep(base, target))
    {
      hide Flat, KeysWhere, Every, StrictlySorted, Holds;
      EveryName(target.types);
      var targetTypeNames := SortedKeysWhere(target.types, Every());
      ghost var f := NewTypeStep(base, target);
      StartOf(ops, targetTypeNames, f);
      for i := 0 to |targetTypeNames|
        invariant old(ctx.Cancelled()) ==> ctx.Cancelled()
        invariant Holds(ops, old(ops), targetTypeNames, i, f)
      {
        var cancelled := ctx.Err();
        if cancelled {
          return false;
        }
        Grown(old(ops), ops, targetTypeNames, i, f);
        var name := targetTypeNames[i];
        ops := ops + [AddEnumTypeOp(target.name, name, target.types[name])];
      }
      Finish(old(ops), ops, targetTypeNames, f);
      ok := true;
    }

    method AddTypes(source: NamespaceDef, target: NamespaceDef) returns (ok: bool)
      modifies this`ops, ctx
      ensures old(ctx.Cancelled()) ==> ctx.Cancelled()
      ensures !ok ==> ctx.Cancelled()
      ensures ok ==> ops == old(ops) + Flat(Sorted(target.types.Keys), NewTypeStep(source, target))
    {
      hide Flat, KeysWhere, Every, StrictlySorted, Holds;
      EveryName(target.types);
      var targetTypeNames := SortedKeysWhere(target.types, Every());
      ghost var f := NewTypeStep(source, target);
      StartOf(ops, targetTypeNames, f);
      for i := 0 to |targetTypeNames|
        invariant old(ctx.Cancelled()) ==> ctx.Cancelled()
        invariant Holds(ops, old(ops), targetTypeNames, i, f)
      {
        var cancelled := ctx.Err();
        if cancelled {
          return false;
        }
        Grown(old(ops), ops, targetTypeNames, i, f);
        var name := targetTypeNames[i];
        if name !in source.types {
          ops := ops + [AddEnumTypeOp(target.name, name, target.types[name])];
        }
      }
      Finish(old(ops), ops, targetTypeNames, f);
      ok := true;
    }

    method DiffEnumType(schema: string, name: string, source: EnumType, target: EnumType)
      modifies this`ops, this`warnings
      ensures ops == old(ops) + EnumOps(schema, name, source, target)
      ensures warnings == old(warnings) +
        if EnumWarns(source, target) then [EnumNotAppendOnly(schema, name)] else []
    {
      var append := ExtendsLabels(source.labels, target.labels);
      if append {
        var labels := target.labels[|source.labels|..];
        for i := 0 to |labels|
          invariant ops == old(ops) + LabelOps(schema, name, labels[..i]) && warnings == old(warnings)
        {
          assert labels[..i + 1][..i] == labels[..i];
          ops := ops + [AddEnumLabelOp(schema, name, labels[i])];
        }
        assert labels[..|labels|] == labels;
      } else {
        var same := SameStringSlice(source.labels, target.labels);
        if !same {
          warnings := warnings + [EnumNotAppendOnly(schema, name)];
        }
      }
    }

    method CompareTypes(source: NamespaceDef, target: NamespaceDef) returns (ok: bool)
      modifies this`ops, this`warnings, ctx
      ensures old(ctx.Cancelled()) ==> ctx.Cancelled()
      ensures !ok ==> ctx.Cancelled()
      ensures ok ==> ops == old(ops) + Flat(Sorted(target.types.Keys), CommonTypeStep(source, target))
      ensures ok ==> warnings == old(warnings) + Flat(Sorted(target.types.Keys), TypeWarningStep(source, target))
    {
      hide Flat, KeysWhere, Every, StrictlySorted, EnumOps, EnumWarns, CommonTypeStep, TypeWarningStep, Holds;
      EveryName(target.types);
      var targetTypeNames := SortedKeysWhere(target.types, Every());
      ghost var f, g := CommonTypeStep(source, target), TypeWarningStep(source, target);
      StartOf(ops, targetTypeNames, f);
      StartOf(warnings, targetTypeNames, g);
      for i := 0 to |targetTypeNames|
        invariant old(ctx.Cancelled()) ==> ctx.Cancelled()
        invariant Holds(ops, old(ops), targetTypeNames, i, f)
        invariant Holds(warnings, old(warnings), targetTypeNames, i, g)
      {
        var cancelled := ctx.Err();
        if cancelled {
          return false;
        }
        Grown(old(ops), ops, targetTypeNames, i, f);
        Grown(old(warnings), warnings, targetTypeNames, i, g);
        var name := targetTypeNames[i];
        CommonTypeAt(source, target, name);
        if name in source.types {
          DiffEnumType(target.name, name, source.types[name], target.types[name]);
        }
      }
      Finish(old(ops), ops, targetTypeNames, f);
      Finish(old(warnings), warnings, targetTypeNames, g);
      ok := true;
    }

    method DropTypes(source: NamespaceDef, target: NamespaceDef) returns (ok: bool)
      modifies this`ops, ctx
      ensures old(ctx.Cancelled()) ==> ctx.Cancelled()
      ensures !ok ==> ctx.Cancelled()
      ensures ok ==> ops == old(ops) + Flat(Sorted(source.types.Keys), OldTypeStep(source, target))
    {
      hide Flat, KeysWhere, Every, StrictlySorted, Holds;
      EveryName(source.types);
      var sourceTypeNames := SortedKeysWhere(source.types, Every());
      ghost var f := OldTypeStep(source, target);
      StartOf(ops, sourceTypeNames, f);
      for i := 0 to |sourceTypeNames|
        invariant old(ctx.Cancelled()) ==> ctx.Cancelled()
        invariant Holds(ops, old(ops), sourceTypeNames, i, f)
      {
        var cancelled := ctx.Err();
        if cancelled {
          return false;
        }
        Grown(old(ops), ops, sourceTypeNames, i, f);
        var name := sourceTypeNames[i];
        if name !in target.types {
          ops := ops + [DropEnumTypeOp(source.name, name)];
        }
      }
      Finish(old(ops), ops, sourceTypeNames, f);
      ok := true;
    }

    method DiffTypes(source: Option<NamespaceDef>, target: NamespaceDef, ghost base: NamespaceDef)
      requires Reads(source, base)
      modifies this`ops, this`warnings, ctx
      ensures old(ctx.Cancelled()) ==> ctx.Cancelled()
      ensures !ctx.Cancelled() ==> ops == old(ops) + TypesOps(base, target)
      ensures !ctx.Cancelled() ==>
        warnings == old(warnings) + Flat(Sorted(target.types.Keys), TypeWarningStep(base, target))
    {
      hide Flat, NewTypeStep, OldTypeStep, CommonTypeStep, TypeWarningStep, StrictlySorted;
      if source.None? {
        var ok := AddAllTypes(target, base);
        if ok {
          NoSourceTypes(base, target);
          NoSourceWarnings(base, target);
        }
        return;
      }
      var added := AddTypes(source.value, target);
      if !added {
        return;
      }
      var compared := CompareTypes(source.value, target);
      if !compared {
        return;
      }
      var ok := DropTypes(source.value, target);
      if ok {
        AppendedThree(old(ops), Flat(Sorted(target.types.Keys), NewTypeStep(base, target)),
               Flat(Sorted(target.types.Keys), CommonTypeStep(base, target)),
               Flat(Sorted(base.types.Keys), OldTypeStep(base, target)));
      }
    }

    // ----- views

    method AddAllViews(target: NamespaceDef, ghost base: NamespaceDef) returns (ok: bool)
      requires base.views == map[]
      modifies this`ops, ctx
      ensures old(ctx.Cancelled()) ==> ctx.Cancelled()
      ensures !ok ==> ctx.Cancelled()
      ensures ok ==> ops == old(ops) + Flat(Sorted(target.views.Keys), TargetViewStep(base, target))
    {
      hide Flat, KeysWhere, Every, StrictlySorted, Holds;
      EveryName(target.views);
      var names := SortedKeysWhere(target.views, Every());
      ghost var f := TargetViewStep(base, target);
      StartOf(ops, names, f);
      for i := 0 to |names|
        invariant old(ctx.Cancelled()) ==> ctx.Cancelled()
        invariant Holds(ops, old(ops), names, i, f)
      {
        var cancelled := ctx.Err();
        if cancelled {
          return false;
        }
        Grown(old(ops), ops, names, i, f);
        var name := names[i];
        if target.views[name].materialized {
          ops := ops + [CreateMaterializedViewOp(target.name, target.views[name])];
        } else {
          ops := ops + [CreateViewOp(target.name, target.views[name])];
        }
      }
      Finish(old(ops), ops, names, f);
      ok := true;
    }

    method CompareView(source: NamespaceDef, target: NamespaceDef, name: string)
      requires name in target.views
      modifies this`ops
      ensures ops == old(ops) + TargetViewStep(source, target)(name)
    {
      var tgtView := target.views[name];
      if name !in source.views {
        if tgtView.materialized {
          ops := ops + [CreateMaterializedViewOp(target.name, tgtView)];
        } else {
          ops := ops + [CreateViewOp(target.name, tgtView)];
        }
      } else if source.views[name].materialized != tgtView.materialized {
        if source.views[name].materialized {
          ops := ops + [DropMaterializedViewOp(source.name, name)];
        } else {
          ops := ops + [DropViewOp(source.name, name, true)];
        }
        if tgtView.materialized {
          ops := ops + [CreateMaterializedViewOp(target.name, tgtView)];
        } else {
          ops := ops + [CreateViewOp(target.name, tgtView)];
        }
      } else if source.views[name].definition != tgtView.definition {
        if tgtView.materialized {
          ops := ops + [DropMaterializedViewOp(source.name, name)];
          ops := ops + [CreateMaterializedViewOp(target.name, tgtView)];
        } else {
          ops := ops + [ReplaceViewOp(target.name, tgtView)];
        }
      }
    }

    method CompareViews(source: NamespaceDef, target: NamespaceDef) returns (ok: bool)
      modifies this`ops, ctx
      ensures old(ctx.Cancelled()) ==> ctx.Cancelled()
      ensures !ok ==> ctx.Cancelled()
      ensures ok ==> ops == old(ops) + Flat(Sorted(target.views.Keys), TargetViewStep(source, target))
    {
      hide Flat, KeysWhere, Every, StrictlySorted, TargetViewStep, Holds;
      EveryName(target.views);
      var targetNames := SortedKeysWhere(target.views, Every());
      ghost var f := TargetViewStep(source, target);
      StartOf(ops, targetNames, f);
      for i := 0 to |targetNames|
        invariant old(ctx.Cancelled()) ==> ctx.Cancelled()
        invariant Holds(ops, old(ops), targetNames, i, f)
      {
        var cancelled := ctx.Err();
        if cancelled {
          return false;
        }
        Grown(old(ops), ops, targetNames, i, f);
        var name := targetNames[i];
        CompareView(source, target, name);
      }
      Finish(old(ops), ops, targetNames, f);
      ok := true;
    }

    method DropView(source: NamespaceDef, name: string)
      requires name in source.views
      modifies this`ops
      ensures ops == old(ops) + [if source.views[name].materialized then DropMaterializedViewOp(source.name, name)
                                 else DropViewOp(source.name, name, false)]
    {
      if source.views[name].materialized {
        ops := ops + [DropMaterializedViewOp(source.name, name)];
      } else {
        ops := ops + [DropViewOp(source.name, name, false)];
      }
    }

    method DropOldView(source: NamespaceDef, target: NamespaceDef, name: string)
      requires name in source.views
      modifies this`ops
      ensures ops == old(ops) + OldViewStep(source, target)(name)
    {
      if name !in target.views {
        DropView(source, name);
      }
    }

    method DropViews(source: NamespaceDef, target: NamespaceDef) returns (ok: bool)
      modifies this`ops, ctx
      ensures old(ctx.Cancelled()) ==> ctx.Cancelled()
      ensures !ok ==> ctx.Cancelled()
      ensures ok ==> ops == old(ops) + Flat(Sorted(source.views.Keys), OldViewStep(source, target))
    {
      hide Flat, KeysWhere, Every, StrictlySorted, OldViewStep, Holds;
      EveryName(source.views);
      var sourceNames := SortedKeysWhere(source.views, Every());
      ghost var f := OldViewStep(source, target);
      StartOf(ops, sourceNames, f);
      for i := 0 to |sourceNames|
        invariant old(ctx.Cancelled()) ==> ctx.Cancelled()
        invariant Holds(ops, old(ops), sourceNames, i, f)
      {
        var cancelled := ctx.Err();
        if cancelled {
          return false;
        }
        Grown(old(ops), ops, sourceNames, i, f);
        var name := sourceNames[i];
        DropOldView(source, target, name);
      }
      Finish(old(ops), ops, sourceNames, f);
      ok := true;
    }

    method DiffViews(source: Option<NamespaceDef>, target: NamespaceDef, ghost base: NamespaceDef)
      requires Reads(source, base)
      modifies this`ops, ctx
      ensures old(ctx.Cancelled()) ==> ctx.Cancelled()
      ensures !ctx.Cancelled() ==> ops == old(ops) + ViewsOps(base, target)
    {
      hide Flat, TargetViewStep, OldViewStep, StrictlySorted;
      if source.None? {
        var ok := AddAllViews(target, base);
        if ok {
          NoSourceViews(base, target);
        }
        return;
      }
      var compared := CompareViews(source.value, target);
      if !compared {
        return;
      }
      var ok := DropViews(source.value, target);
      if ok {
        JoinedTwo(old(ops), Flat(Sorted(target.views.Keys), TargetViewStep(base, target)),
                  Flat(Sorted(base.views.Keys), OldViewStep(base, target)));
      }
    }

    // ----- sequences

    method AddAllSequences(target: NamespaceDef, ghost base: NamespaceDef) returns (ok: bool)
      requires base.sequences == map[]
      modifies this`ops, ctx
      ensures old(ctx.Cancelled()) ==> ctx.Cancelled()
      ensures !ok ==> ctx.Cancelled()
      ensures ok ==> ops == old(ops) + Flat(Sorted(target.sequences.Keys), TargetSequenceStep(base, target))
    {
      hide Flat, KeysWhere, Every, StrictlySorted, Holds;
      EveryName(target.sequences);
      var names := SortedKeysWhere(target.sequences, Every());
      ghost var f := TargetSequenceStep(base, target);
      StartOf(ops, names, f);
      for i := 0 to |names|
        invariant old(ctx.Cancelled()) ==> ctx.Cancelled()
        invariant Holds(ops, old(ops), names, i, f)
      {
        var cancelled := ctx.Err();
        if cancelled {
          return false;
        }
        Grown(old(ops), ops, names, i, f);
        var name := names[i];
        ops := ops + [CreateSequenceOp(target.name, target.sequences[name])];
      }
      Finish(old(ops), ops, names, f);
      ok := true;
    }

    method CompareSequence(source: NamespaceDef, target: NamespaceDef, name: string)
      requires name in target.sequences
      modifies this`ops
      ensures ops == old(ops) + TargetSequenceStep(source, target)(name)
    {
      hide SameSequence;
      if name !in source.sequences {
        ops := ops + [CreateSequenceOp(target.name, target.sequences[name])];
      } else if !SameSequence(source.sequences[name], target.sequences[name]) {
        ops := ops + [AlterSequenceOp(target.name, source.sequences[name], target.sequences[name])];
      }
    }

    method CompareSequences(source: NamespaceDef, target: NamespaceDef) returns (ok: bool)
      modifies this`ops, ctx
      ensures old(ctx.Cancelled()) ==> ctx.Cancelled()
      ensures !ok ==> ctx.Cancelled()
      ensures ok ==> ops == old(ops) + Flat(Sorted(target.sequences.Keys), TargetSequenceStep(source, target))
    {
      hide Flat, KeysWhere, Every, StrictlySorted, SameSequence, TargetSequenceStep, Holds;
      EveryName(target.sequences);
      var targetNames := SortedKeysWhere(target.sequences, Every());
      ghost var f := TargetSequenceStep(source, target);
      StartOf(ops, targetNames, f);
      for i := 0 to |targetNames|
        invariant old(ctx.Cancelled()) ==> ctx.Cancelled()
        invariant Holds(ops, old(ops), targetNames, i, f)
      {
        var cancelled := ctx.Err();
        if cancelled {
          return false;
        }
        Grown(old(ops), ops, targetNames, i, f);
        var name := targetNames[i];
        CompareSequence(source, target, name);
      }
      Finish(old(ops), ops, targetNames, f);
      ok := true;
    }

    method DropSequences(source: NamespaceDef, target: NamespaceDef) returns (ok: bool)
      modifies this`ops, ctx
      ensures old(ctx.Cancelled()) ==> ctx.Cancelled()
      ensures !ok ==> ctx.Cancelled()
      ensures ok ==> ops == old(ops) + Flat(Sorted(source.sequences.Keys), OldSequenceStep(source, target))
    {
      hide Flat, KeysWhere, Every, StrictlySorted, Holds;
      EveryName(source.sequences);
      var sourceNames := SortedKeysWhere(source.sequences, Every());
      ghost var f := OldSequenceStep(source, target);
      StartOf(ops, sourceNames, f);
      for i := 0 to |sourceNames|
        invariant old(ctx.Cancelled()) ==> ctx.Cancelled()
        invariant Holds(ops, old(ops), sourceNames, i, f)
      {
        var cancelled := ctx.Err();
        if cancelled {
          return false;
        }
        Grown(old(ops), ops, sourceNames, i, f);
        var name := sourceNames[i];
        if name !in target.sequences {
          ops := ops + [DropSequenceOp(source.name, name)];
        }
      }
      Finish(old(ops), ops, sourceNames, f);
      ok := true;
    }

    method DiffSequences(source: Option<NamespaceDef>, target: NamespaceDef, ghost base: NamespaceDef)
      requires Reads(source, base)
      modifies this`ops, ctx
      ensures old(ctx.Cancelled()) ==> ctx.Cancelled()
      ensures !ctx.Cancelled() ==> ops == old(ops) + SequencesOps(base, target)
    {
      hide Flat, TargetSequenceStep, OldSequenceStep, StrictlySorted;
      if source.None? {
        var ok := AddAllSequences(target, base);
        if ok {
          NoSourceSequences(base, target);
        }
        return;
      }
      var compared := CompareSequences(source.value, target);
      if !compared {
        return;
      }
      var ok := DropSequences(source.value, target);
      if ok {
        JoinedTwo(old(ops), Flat(Sorted(target.sequences.Keys), TargetSequenceStep(base, target)),
                  Flat(Sorted(base.sequences.Keys), OldSequenceStep(base, target)));
      }
    }

    // ----- extensions

    method AddAllExtensions(target: NamespaceDef, ghost base: NamespaceDef) returns (ok: bool)
      requires base.extensions == map[]
      modifies this`ops, ctx
      ensures old(ctx.Cancelled()) ==> ctx.Cancelled()
      ensures !ok ==> ctx.Cancelled()
      ensures ok ==> ops == old(ops) + Flat(Sorted(target.extensions.Keys), TargetExtensionStep(base, target))
    {
      hide Flat, KeysWhere, Every, StrictlySorted, Holds;
      EveryName(target.extensions);
      var names := SortedKeysWhere(target.extensions, Every());
      ghost var f := TargetExtensionStep(base, target);
      StartOf(ops, names, f);
      for i := 0 to |names|
        invariant old(ctx.Cancelled()) ==> ctx.Cancelled()
        invariant Holds(ops, old(ops), names, i, f)
      {
        var cancelled := ctx.Err();
        if cancelled {
          return false;
        }
        Grown(old(ops), ops, names, i, f);
        var name := names[i];
        ops := ops + [CreateExtensionOp(target.name, target.extensions[name])];
      }
      Finish(old(ops), ops, names, f);
      ok := true;
    }

    method CompareExtension(source: NamespaceDef, target: NamespaceDef, name: string)
      requires name in target.extensions
      modifies this`ops
      ensures ops == old(ops) + TargetExtensionStep(source, target)(name)
    {
      if name !in source.extensions {
        ops := ops + [CreateExtensionOp(target.name, target.extensions[name])];
      } else if source.extensions[name].version != "" && target.extensions[name].version != "" &&
                source.extensions[name].version != target.extensions[name].version {
        ops := ops + [AlterExtensionUpdateOp(target.name, target.extensions[name])];
      }
    }

    method CompareExtensions(source: NamespaceDef, target: NamespaceDef) returns (ok: bool)
      modifies this`ops, ctx
      ensures old(ctx.Cancelled()) ==> ctx.Cancelled()
      ensures !ok ==> ctx.Cancelled()
      ensures ok ==> ops == old(ops) + Flat(Sorted(target.extensions.Keys), TargetExtensionStep(source, target))
    {
      hide Flat, KeysWhere, Every, StrictlySorted, TargetExtensionStep, Holds;
      EveryName(target.extensions);
      var targetNames := SortedKeysWhere(target.extensions, Every());
      ghost var f := TargetExtensionStep(source, target);
      StartOf(ops, targetNames, f);
      for i := 0 to |targetNames|
        invariant old(ctx.Cancelled()) ==> ctx.Cancelled()
        invariant Holds(ops, old(ops), targetNames, i, f)
      {
        var cancelled := ctx.Err();
        if cancelled {
          return false;
        }
        Grown(old(ops), ops, targetNames, i, f);
        var name := targetNames[i];
        CompareExtension(source, target, name);
      }
      Finish(old(ops), ops, targetNames, f);
      ok := true;
    }

    method DropExtensions(source: NamespaceDef, target: NamespaceDef) returns (ok: bool)
      modifies this`ops, ctx
      ensures old(ctx.Cancelled()) ==> ctx.Cancelled()
      ensures !ok ==> ctx.Cancelled()
      ensures ok ==> ops == old(ops) + Flat(Sorted(source.extensions.Keys), OldExtensionStep(source, target))
    {
      hide Flat, KeysWhere, Every, StrictlySorted, Holds;
      EveryName(source.extensions);
      var sourceNames := SortedKeysWhere(source.extensions, Every());
      ghost var f := OldExtensionStep(source, target);
      StartOf(ops, sourceNames, f);
      for i := 0 to |sourceNames|
        invariant old(ctx.Cancelled()) ==> ctx.Cancelled()
        invariant Holds(ops, old(ops), sourceNames, i, f)
      {
        var cancelled := ctx.Err();
        if cancelled {
          return false;
        }
        Grown(old(ops), ops, sourceNames, i, f);
        var name := sourceNames[i];
        if name !in target.extensions {
          ops := ops + [DropExtensionOp(source.name, name)];
        }
      }
      Finish(old(ops), ops, sourceNames, f);
      ok := true;
    }

    method DiffExtensions(source: Option<NamespaceDef>, target: NamespaceDef, ghost base: NamespaceDef)
      requires Reads(source, base)
      modifies this`ops, ctx
      ensures old(ctx.Cancelled()) ==> ctx.Cancelled()
      ensures !ctx.Cancelled() ==> ops == old(ops) + ExtensionsOps(base, target)
    {
      hide Flat, TargetExtensionStep, OldExtensionStep, StrictlySorted;
      if source.None? {
        var ok := AddAllExtensions(target, base);
        if ok {
          NoSourceExtensions(base, target);
        }
        return;
      }
      var compared := CompareExtensions(source.value, target);
      if !compared {
        return;
      }
      var ok := DropExtensions(source.value, target);
      if ok {
        JoinedTwo(old(ops), Flat(Sorted(target.extensions.Keys), TargetExtensionStep(base, target)),
                  Flat(Sorted(base.extensions.Keys), OldExtensionStep(base, target)));
      }
    }

    // ----- namespaces and schemas

    method DiffNamespace(source: Option<NamespaceDef>, target: NamespaceDef, ghost base: NamespaceDef)
      requires Reads(source, base)
      modifies this`ops, this`warnings, ctx
      ensures old(ctx.Cancelled()) ==> ctx.Cancelled()
      ensures !ctx.Cancelled() ==> ops == old(ops) + NamespaceOps(base, target, walk)
      ensures !ctx.Cancelled() ==>
        warnings == old(warnings) + Flat(Sorted(target.types.Keys), TypeWarningStep(base, target))
    {
      hide TablesOps, TypesOps, ViewsOps, SequencesOps, ExtensionsOps, TypeWarningStep, Flat, Reads, StrictlySorted;
      DiffTables(source, target, base);
      DiffTypes(source, target, base);
      DiffViews(source, target, base);
      DiffSequences(source, target, base);
      DiffExtensions(source, target, base);
      if !ctx.Cancelled() {
        JoinedFive(old(ops), TablesOps(base, target, walk), TypesOps(base, target), ViewsOps(base, target),
                   SequencesOps(base, target), ExtensionsOps(base, target));
      }
    }

    /** One namespace of the target: compared with the source's, or created. */
    method DiffTargetNamespace(source: SchemaDef, target: SchemaDef, name: string)
      requires name in target.schemas
      modifies this`ops, this`warnings, ctx
      ensures old(ctx.Cancelled()) ==> ctx.Cancelled()
      ensures !ctx.Cancelled() ==> ops == old(ops) + TargetNamespaceStep(source, target, walk)(name)
      ensures !ctx.Cancelled() ==> warnings == old(warnings) + NamespaceWarningStep(source, target)(name)
    {
      hide NamespaceOps, TypeWarningStep, Flat, StrictlySorted;
      if name in source.schemas {
        DiffNamespace(Some(source.schemas[name]), target.schemas[name], source.schemas[name]);
      } else {
        ops := ops + [CreateSchemaOp(name)];
        DiffNamespace(None, target.schemas[name], EmptyNamespace(name));
        NoSourceWarnings(EmptyNamespace(name), target.schemas[name]);
        if !ctx.Cancelled() {
          JoinedTwo(old(ops), [CreateSchemaOp(name)], NamespaceOps(EmptyNamespace(name), target.schemas[name], walk));
        }
      }
    }

    method DiffTargets(source: SchemaDef, target: SchemaDef) returns (ok: bool)
      modifies this`ops, this`warnings, ctx
      ensures old(ctx.Cancelled()) ==> ctx.Cancelled()
      ensures old(ctx.Due()) ==> ctx.Due() && ops == old(ops) && warnings == old(warnings)
      ensures !ok ==> ctx.Cancelled()
      ensures !ctx.Cancelled() ==>
        ops == old(ops) + Flat(Sorted(target.schemas.Keys), TargetNamespaceStep(source, target, walk))
      ensures !ctx.Cancelled() ==>
        warnings == old(warnings) + Flat(Sorted(target.schemas.Keys), NamespaceWarningStep(source, target))
    {
      hide Flat, KeysWhere, Every, StrictlySorted, TargetNamespaceStep, NamespaceWarningStep, Holds;
      EveryName(target.schemas);
      var targetNames := SortedKeysWhere(target.schemas, Every());
      ghost var f, g := TargetNamespaceStep(source, target, walk), NamespaceWarningStep(source, target);
      StartOf(ops, targetNames, f);
      StartOf(warnings, targetNames, g);
      for i := 0 to |targetNames|
        invariant old(ctx.Cancelled()) ==> ctx.Cancelled()
        invariant old(ctx.Due()) ==> ctx.Due() && ops == old(ops) && warnings == old(warnings)
        invariant !ctx.Cancelled() ==> Holds(ops, old(ops), targetNames, i, f)
        invariant !ctx.Cancelled() ==> Holds(warnings, old(warnings), targetNames, i, g)
      {
        var cancelled := ctx.Err();
        if cancelled {
          return false;
        }
        ghost var ops0, warnings0 := ops, warnings;
        DiffTargetNamespace(source, target, targetNames[i]);
        if !ctx.Cancelled() {
          Grown(old(ops), ops0, targetNames, i, f);
          Grown(old(warnings), warnings0, targetNames, i, g);
        }
      }
      if !ctx.Cancelled() {
        Finish(old(ops), ops, targetNames, f);
        Finish(old(warnings), warnings, targetNames, g);
      }
      ok := true;
    }

    /** A namespace that the target does not have is dropped, except `public`. */
    method DropNamespace(source: SchemaDef, target: SchemaDef, name: string)
      requires name in source.schemas
      modifies this`ops, this`warnings
      ensures ops == old(ops) + OldNamespaceStep(source, target)(name)
      ensures warnings == old(warnings) + PublicWarningStep(source, target)(name)
    {
      if name !in target.schemas {
        if name == "public" {
          warnings := warnings + [PublicNotDropped];
          return;
        }
        ops := ops + [DropSchemaOp(name)];
      }
    }

    method DropNamespaces(source: SchemaDef, target: SchemaDef)
      modifies this`ops, this`warnings, ctx
      ensures old(ctx.Cancelled()) ==> ctx.Cancelled()
      ensures old(ctx.Due()) ==> ctx.Due() && ops == old(ops) && warnings == old(warnings)
      ensures !ctx.Cancelled() ==>
        && ops == old(ops) + Flat(Sorted(source.schemas.Keys), OldNamespaceStep(source, target))
        && warnings == old(warnings) + Flat(Sorted(source.schemas.Keys), PublicWarningStep(source, target))
    {
      hide Flat, KeysWhere, Every, StrictlySorted, OldNamespaceStep, PublicWarningStep, Holds;
      EveryName(source.schemas);
      var sourceNames := SortedKeysWhere(source.schemas, Every());
      ghost var f, g := OldNamespaceStep(source, target), PublicWarningStep(source, target);
      StartOf(ops, sourceNames, f);
      StartOf(warnings, sourceNames, g);
      for i := 0 to |sourceNames|
        invariant old(ctx.Cancelled()) ==> ctx.Cancelled()
        invariant old(ctx.Due()) ==> ctx.Due() && ops == old(ops) && warnings == old(warnings)
        invariant Holds(ops, old(ops), sourceNames, i, f)
        invariant Holds(warnings, old(warnings), sourceNames, i, g)
      {
        var cancelled := ctx.Err();
        if cancelled {
          return;
        }
        Grown(old(ops), ops, sourceNames, i, f);
        Grown(old(warnings), warnings, sourceNames, i, g);
        var name := sourceNames[i];
        DropNamespace(source, target, name);
      }
      Finish(old(ops), ops, sourceNames, f);
      Finish(old(warnings), warnings, sourceNames, g);
    }

    method DiffSchemas(source: SchemaDef, target: SchemaDef)
      modifies this`ops, this`warnings, ctx
      ensures old(ctx.Cancelled()) ==> ctx.Cancelled()
      ensures old(ctx.Due()) ==> ctx.Due() && ops == old(ops) && warnings == old(warnings)
      ensures !ctx.Cancelled() ==> ops == old(ops) + DiffOps(source, target, walk)
      ensures !ctx.Cancelled() ==> warnings == old(warnings) + DiffWarnings(source, target)
    {
      hide Flat, TargetNamespaceStep, OldNamespaceStep, NamespaceWarningStep, PublicWarningStep, StrictlySorted;
      var ok := DiffTargets(source, target);
      if !ok {
        return;
      }
      DropNamespaces(source, target);
      if !ctx.Cancelled() {
        JoinedTwo(old(ops), Flat(Sorted(target.schemas.Keys), TargetNamespaceStep(source, target, walk)),
                  Flat(Sorted(source.schemas.Keys), OldNamespaceStep(source, target)));
        JoinedTwo(old(warnings), Flat(Sorted(target.schemas.Keys), NamespaceWarningStep(source, target)),
                  Flat(Sorted(source.schemas.Keys), PublicWarningStep(source, target)));
      }
    }
  }

  /** The differ's entry point: a run that is not cancelled emits exactly the operations and
      warnings of the specification, one whose context is cancelled from the start emits nothing. */
  method Diff(ctx: Context, source: SchemaDef, target: SchemaDef, walk: Walk)
    returns (ops: seq<Op>, warnings: seq<Warning>)
    modifies ctx
    ensures old(ctx.Cancelled()) ==> ctx.Cancelled()
    ensures old(ctx.Due()) ==> ops == [] && warnings == []
    ensures !ctx.Cancelled() ==> ops == DiffOps(source, target, walk) && warnings == DiffWarnings(source, target)
  {
    hide DiffOps, DiffWarnings;
    var c := new DiffContext(ctx, walk);
    c.DiffSchemas(source, target);
    return c.ops, c.warnings;
  }
}
