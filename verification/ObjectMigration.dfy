/** Enum types, views, sequences and extensions: what the differ's operations make of them, and
    that nothing is left to do afterwards. */
module ObjectMigration {
  import opened Catalog
  import opened Operations
  import opened Names
  import opened Lists
  import opened DiffSpec
  import opened Locality
  import opened Semantics

  // ----- keyed runs

  /** What `f` gives for a name is about that name. */
  ghost predicate Keyed(f: string -> seq<Op>, at: Op -> string) {
    forall n, op :: op in f(n) ==> at(op) == n
  }

  /** The operations about a name are those given for it. */
  lemma FlatAbout(names: set<string>, f: string -> seq<Op>, at: Op -> string, n: string)
    requires Keyed(f, at) && (n !in names ==> f(n) == [])
    ensures Filter(Flat(Sorted(names), f), About(at, NoBroadcast(), n)) == f(n)
  {
    SortedDistinct(Sorted(names));
    hide StrictlySorted, Filter, Flat;
    FilterFlatOne(Sorted(names), f, About(at, NoBroadcast(), n), n);
  }

  lemma TwoAbout(a: set<string>, f: string -> seq<Op>, b: set<string>, g: string -> seq<Op>, at: Op -> string,
    n: string)
    requires Keyed(f, at) && (n !in a ==> f(n) == [])
    requires Keyed(g, at) && (n !in b ==> g(n) == [])
    ensures Filter(Flat(Sorted(a), f) + Flat(Sorted(b), g), About(at, NoBroadcast(), n)) == f(n) + g(n)
  {
    hide Filter, Flat, Keyed, About;
    FilterConcat(Flat(Sorted(a), f), Flat(Sorted(b), g), About(at, NoBroadcast(), n));
    FlatAbout(a, f, at, n);
    FlatAbout(b, g, at, n);
  }

  lemma ThreeAbout(a: set<string>, f: string -> seq<Op>, b: set<string>, g: string -> seq<Op>,
                   c: set<string>, h: string -> seq<Op>, at: Op -> string, n: string)
    requires Keyed(f, at) && (n !in a ==> f(n) == [])
    requires Keyed(g, at) && (n !in b ==> g(n) == [])
    requires Keyed(h, at) && (n !in c ==> h(n) == [])
    ensures Filter(Flat(Sorted(a), f) + Flat(Sorted(b), g) + Flat(Sorted(c), h), About(at, NoBroadcast(), n)) ==
      f(n) + g(n) + h(n)
  {
    hide Filter, Flat, Keyed, About;
    FilterConcat(Flat(Sorted(a), f) + Flat(Sorted(b), g), Flat(Sorted(c), h), About(at, NoBroadcast(), n));
    TwoAbout(a, f, b, g, at, n);
    FlatAbout(c, h, at, n);
  }

  /** A run is known once it is known for every name. */
  lemma RunByName<V(!new)>(ops: seq<Op>, m: map<string, V>, at: Op -> string, all: Op -> bool, effect: Effect<V>,
                     r: map<string, V>)
    requires Tame(all, effect)
    requires forall n :: RunOne(Filter(ops, About(at, all, n)), Get(m, n), effect) == Ok(Get(r, n))
    ensures Run(ops, m, at, all, effect) == Ok(r)
  {
    hide RunOne, Filter, About, Run, Tame, Get;
    RunSucceeds(ops, m, at, all, effect);
    var x := Run(ops, m, at, all, effect).value;
    forall n ensures Get(x, n) == Get(r, n) {
      RunIsLocal(ops, m, at, all, effect, n);
    }
    SameEntries(x, r);
  }

  lemma RunTwo<V>(a: Op, b: Op, v: Option<V>, effect: Effect<V>)
    ensures RunOne([a] + [b], v, effect) == RunOne([a, b], v, effect)
    ensures RunOne([a, b], v, effect) == if effect(a, v).Fail? then Fail else effect(b, effect(a, v).value)
    ensures RunOne([a], v, effect) == effect(a, v)
    ensures RunOne([], v, effect) == Ok(v)
  {
    RunOneTwo(a, b, v, effect);
    RunOneSingle(a, v, effect);
    assert [a] + [b] == [a, b];
  }

  // ----- enum types

  function AfterType(s: NamespaceDef, t: NamespaceDef, n: string): EnumType
    requires n in t.types
  {
    if n !in s.types then EnumType(n, t.types[n].labels)
    else if IsEnumAppend(s.types[n].labels, t.types[n].labels) then s.types[n].(labels := t.types[n].labels)
    else s.types[n]
  }

  function AfterTypes(s: NamespaceDef, t: NamespaceDef): map<string, EnumType> {
    map n | n in t.types :: AfterType(s, t, n)
  }

  lemma LabelEffect(schema: string, name: string, text: string, e: EnumType)
    ensures TypeEffect()(AddEnumLabelOp(schema, name, text), Some(e)) == Ok(Some(e.(labels := e.labels + [text])))
  {
  }

  lemma LabelOpsSnoc(schema: string, name: string, labels: seq<string>)
    ensures LabelOps(schema, name, []) == []
    ensures labels != [] ==>
      LabelOps(schema, name, labels) ==
        LabelOps(schema, name, labels[..|labels| - 1]) + [AddEnumLabelOp(schema, name, labels[|labels| - 1])]
  {
  }

  lemma {:induction false} LabelsEffect(schema: string, name: string, labels: seq<string>, e: EnumType)
    ensures RunOne(LabelOps(schema, name, labels), Some(e), TypeEffect()) ==
      Ok(Some(e.(labels := e.labels + labels)))
  {
    hide RunOne, TypeEffect, LabelOps;
    LabelOpsSnoc(schema, name, labels);
    if labels == [] {
      var any := AddEnumLabelOp(schema, name, "");
      RunTwo(any, any, Some(e), TypeEffect());
      assert e.labels + labels == e.labels;
    } else {
      var init, last := labels[..|labels| - 1], labels[|labels| - 1];
      LabelsEffect(schema, name, init, e);
      RunOneSnoc(LabelOps(schema, name, init), AddEnumLabelOp(schema, name, last), Some(e), TypeEffect());
      LabelEffect(schema, name, last, e.(labels := e.labels + init));
      assert e.labels + labels == (e.labels + init) + [last];
    }
  }

  /** The emitted label operations leave the target's labels if those extend the source's, and
      the source's otherwise. */
  lemma EnumOpsEffect(schema: string, name: string, s: EnumType, t: EnumType)
    ensures RunOne(EnumOps(schema, name, s, t), Some(s), TypeEffect()) ==
      Ok(Some(s.(labels := if IsEnumAppend(s.labels, t.labels) then t.labels else s.labels)))
  {
    if IsEnumAppend(s.labels, t.labels) {
      LabelsEffect(schema, name, t.labels[|s.labels|..], s);
      assert t.labels == s.labels + t.labels[|s.labels|..];
    }
  }

  lemma {:induction false} LabelName(schema: string, name: string, labels: seq<string>, op: Op)
    requires op in LabelOps(schema, name, labels)
    ensures op.AddEnumLabelOp? && op.schema == schema && op.name == name
  {
    if op in LabelOps(schema, name, labels[..|labels| - 1]) {
      LabelName(schema, name, labels[..|labels| - 1], op);
    }
  }

  lemma TypesKeyed(s: NamespaceDef, t: NamespaceDef)
    ensures Keyed(NewTypeStep(s, t), TypeName()) && Keyed(OldTypeStep(s, t), TypeName())
    ensures Keyed(CommonTypeStep(s, t), TypeName())
  {
    hide LabelOps;
    forall n, op | op in CommonTypeStep(s, t)(n) ensures TypeName()(op) == n {
      LabelName(t.name, n, t.types[n].labels[|s.types[n].labels|..], op);
    }
  }

  lemma TypesAbout(s: NamespaceDef, t: NamespaceDef, n: string)
    ensures Filter(TypesOps(s, t), About(TypeName(), NoBroadcast(), n)) ==
      NewTypeStep(s, t)(n) + CommonTypeStep(s, t)(n) + OldTypeStep(s, t)(n)
  {
    TypesKeyed(s, t);
    hide EnumOps, Keyed, Filter, Flat, About;
    ThreeAbout(t.types.Keys, NewTypeStep(s, t), t.types.Keys, CommonTypeStep(s, t), s.types.Keys, OldTypeStep(s, t),
               TypeName(), n);
  }

  lemma TypeRuns(s: NamespaceDef, t: NamespaceDef, n: string)
    ensures RunOne(NewTypeStep(s, t)(n) + CommonTypeStep(s, t)(n) + OldTypeStep(s, t)(n), Get(s.types, n), TypeEffect())
      == Ok(Get(AfterTypes(s, t), n))
  {
    hide RunOne, EnumOps;
    var add := AddEnumTypeOp(t.name, n, if n in t.types then t.types[n] else EnumType(n, []));
    RunTwo(add, add, None, TypeEffect());
    var drop := DropEnumTypeOp(s.name, n);
    RunTwo(drop, drop, Get(s.types, n), TypeEffect());
    if n in s.types && n in t.types {
      var ops := EnumOps(t.name, n, s.types[n], t.types[n]);
      assert [] + ops + [] == ops;
      EnumOpsEffect(t.name, n, s.types[n], t.types[n]);
    } else if n in t.types {
      assert [add] + [] + [] == [add];
    } else if n in s.types {
      assert [] + [] + [drop] == [drop];
    } else {
      var none: seq<Op> := [];
      assert none + none + none == none;
    }
  }

  lemma TypesRun(s: NamespaceDef, t: NamespaceDef)
    ensures Run(TypesOps(s, t), s.types, TypeName(), NoBroadcast(), TypeEffect()) == Ok(AfterTypes(s, t))
  {
    EffectsTame();
    hide Run, RunOne, TypesOps, Filter, About, AfterTypes, NewTypeStep, CommonTypeStep, OldTypeStep, TypeEffect;
    forall n ensures RunOne(Filter(TypesOps(s, t), About(TypeName(), NoBroadcast(), n)), Get(s.types, n),
      TypeEffect()) ==
      Ok(Get(AfterTypes(s, t), n))
    {
      TypesAbout(s, t, n);
      TypeRuns(s, t, n);
    }
    RunByName(TypesOps(s, t), s.types, TypeName(), NoBroadcast(), TypeEffect(), AfterTypes(s, t));
  }

  /** No type is left to create, extend or drop. */
  lemma TypesSettle(s: NamespaceDef, t: NamespaceDef, r: NamespaceDef)
    requires r.types == AfterTypes(s, t)
    ensures TypesOps(r, t) == []
  {
    forall n | n in t.types ensures NewTypeStep(r, t)(n) == [] && CommonTypeStep(r, t)(n) == [] {
      assert r.types[n] == AfterType(s, t, n);
    }
    hide Flat, EnumOps;
    FlatEmpty(Sorted(t.types.Keys), NewTypeStep(r, t));
    FlatEmpty(Sorted(t.types.Keys), CommonTypeStep(r, t));
    FlatEmpty(Sorted(r.types.Keys), OldTypeStep(r, t));
  }

  // ----- views

  function AfterViews(s: NamespaceDef, t: NamespaceDef): map<string, View> {
    map n | n in t.views :: if n in s.views && SameView(s.views[n], t.views[n]) then s.views[n] else t.views[n]
  }

  predicate SameView(a: View, b: View) {
    a.materialized == b.materialized && a.definition == b.definition
  }

  ghost predicate ViewsNamed(ns: NamespaceDef) {
    forall n :: n in ns.views ==> ns.views[n].name == n
  }

  lemma ViewsKeyed(s: NamespaceDef, t: NamespaceDef)
    requires ViewsNamed(t)
    ensures Keyed(TargetViewStep(s, t), ViewName()) && Keyed(OldViewStep(s, t), ViewName())
  {
    forall n, op | op in TargetViewStep(s, t)(n) ensures ViewName()(op) == n {
    }
    forall n, op | op in OldViewStep(s, t)(n) ensures ViewName()(op) == n {
    }
  }

  lemma ViewsAbout(s: NamespaceDef, t: NamespaceDef, n: string)
    requires ViewsNamed(t)
    ensures Filter(ViewsOps(s, t), About(ViewName(), NoBroadcast(), n)) ==
      TargetViewStep(s, t)(n) + OldViewStep(s, t)(n)
  {
    ViewsKeyed(s, t);
    assert n !in t.views ==> TargetViewStep(s, t)(n) == [];
    assert n !in s.views ==> OldViewStep(s, t)(n) == [];
    hide Keyed, Filter, Flat, About, TargetViewStep, OldViewStep;
    TwoAbout(t.views.Keys, TargetViewStep(s, t), s.views.Keys, OldViewStep(s, t), ViewName(), n);
  }

  lemma CreateViewEffect(schema: string, v: View)
    ensures ViewEffect()(DiffSpec.CreateView(schema, v), None) == Ok(Some(v))
  {
  }

  lemma DropViewEffect(schema: string, v: View, isRecreate: bool)
    ensures ViewEffect()(if v.materialized then DropMaterializedViewOp(schema, v.name)
                         else DropViewOp(schema, v.name, isRecreate), Some(v)) == Ok(None)
  {
  }

  lemma ViewRuns(s: NamespaceDef, t: NamespaceDef, n: string)
    requires ViewsNamed(s) && ViewsNamed(t)
    ensures RunOne(TargetViewStep(s, t)(n) + OldViewStep(s, t)(n), Get(s.views, n), ViewEffect())
      == Ok(Get(AfterViews(s, t), n))
  {
    hide RunOne;
    if n in t.views {
      var v := t.views[n];
      var create := DiffSpec.CreateView(t.name, v);
      CreateViewEffect(t.name, v);
      RunTwo(create, create, None, ViewEffect());
      assert TargetViewStep(s, t)(n) + OldViewStep(s, t)(n) == TargetViewStep(s, t)(n);
      if n in s.views {
        var u := s.views[n];
        var drop := if u.materialized then DropMaterializedViewOp(s.name, n) else DropViewOp(s.name, n, true);
        DropViewEffect(s.name, u, true);
        RunTwo(drop, create, Some(u), ViewEffect());
        var replace := ReplaceViewOp(t.name, v);
        RunTwo(replace, replace, Some(u), ViewEffect());
      }
    } else if n in s.views {
      var u := s.views[n];
      var drop := if u.materialized then DropMaterializedViewOp(s.name, n) else DropViewOp(s.name, n, false);
      DropViewEffect(s.name, u, false);
      RunTwo(drop, drop, Some(u), ViewEffect());
      assert [] + [drop] == [drop];
    } else {
      var drop := DropViewOp(s.name, n, false);
      RunTwo(drop, drop, None, ViewEffect());
      var none: seq<Op> := [];
      assert none + none == none;
    }
  }

  lemma ViewsRun(s: NamespaceDef, t: NamespaceDef)
    requires ViewsNamed(s) && ViewsNamed(t)
    ensures Run(ViewsOps(s, t), s.views, ViewName(), NoBroadcast(), ViewEffect()) == Ok(AfterViews(s, t))
  {
    EffectsTame();
    hide Run, RunOne, ViewsOps, Filter, About, AfterViews, TargetViewStep, OldViewStep, ViewEffect, ViewsNamed;
    forall n ensures RunOne(Filter(ViewsOps(s, t), About(ViewName(), NoBroadcast(), n)), Get(s.views, n),
      ViewEffect()) ==
      Ok(Get(AfterViews(s, t), n))
    {
      ViewsAbout(s, t, n);
      ViewRuns(s, t, n);
    }
    RunByName(ViewsOps(s, t), s.views, ViewName(), NoBroadcast(), ViewEffect(), AfterViews(s, t));
  }

  lemma ViewsSettle(s: NamespaceDef, t: NamespaceDef, r: NamespaceDef)
    requires r.views == AfterViews(s, t)
    ensures ViewsOps(r, t) == []
  {
    forall n | n in t.views ensures TargetViewStep(r, t)(n) == [] {
      assert SameView(r.views[n], t.views[n]);
    }
    hide Flat;
    FlatEmpty(Sorted(t.views.Keys), TargetViewStep(r, t));
    FlatEmpty(Sorted(r.views.Keys), OldViewStep(r, t));
  }

  // ----- sequences

  function AfterSequences(s: NamespaceDef, t: NamespaceDef): map<string, Sequence> {
    map n | n in t.sequences ::
      if n in s.sequences && SameSequence(s.sequences[n], t.sequences[n]) then s.sequences[n] else t.sequences[n]
  }

  ghost predicate SequencesNamed(ns: NamespaceDef) {
    forall n :: n in ns.sequences ==> ns.sequences[n].name == n
  }

  lemma SequencesKeyed(s: NamespaceDef, t: NamespaceDef)
    requires SequencesNamed(t)
    ensures Keyed(TargetSequenceStep(s, t), SequenceName()) && Keyed(OldSequenceStep(s, t), SequenceName())
  {
    forall n, op | op in TargetSequenceStep(s, t)(n) ensures SequenceName()(op) == n {
    }
    forall n, op | op in OldSequenceStep(s, t)(n) ensures SequenceName()(op) == n {
    }
  }

  lemma SequencesAbout(s: NamespaceDef, t: NamespaceDef, n: string)
    requires SequencesNamed(t)
    ensures Filter(SequencesOps(s, t), About(SequenceName(), NoBroadcast(), n)) ==
      TargetSequenceStep(s, t)(n) + OldSequenceStep(s, t)(n)
  {
    SequencesKeyed(s, t);
    assert n !in t.sequences ==> TargetSequenceStep(s, t)(n) == [];
    assert n !in s.sequences ==> OldSequenceStep(s, t)(n) == [];
    hide Keyed, Filter, Flat, About, TargetSequenceStep, OldSequenceStep;
    TwoAbout(t.sequences.Keys, TargetSequenceStep(s, t), s.sequences.Keys, OldSequenceStep(s, t), SequenceName(), n);
  }

  lemma SequenceRuns(s: NamespaceDef, t: NamespaceDef, n: string)
    ensures RunOne(TargetSequenceStep(s, t)(n) + OldSequenceStep(s, t)(n), Get(s.sequences, n), SequenceEffect())
      == Ok(Get(AfterSequences(s, t), n))
  {
    hide RunOne;
    var drop := DropSequenceOp(s.name, n);
    RunTwo(drop, drop, Get(s.sequences, n), SequenceEffect());
    if n in t.sequences {
      var create := CreateSequenceOp(t.name, t.sequences[n]);
      RunTwo(create, create, None, SequenceEffect());
      assert TargetSequenceStep(s, t)(n) + OldSequenceStep(s, t)(n) == TargetSequenceStep(s, t)(n);
      if n in s.sequences {
        var alter := AlterSequenceOp(t.name, s.sequences[n], t.sequences[n]);
        RunTwo(alter, alter, Some(s.sequences[n]), SequenceEffect());
      }
    } else if n in s.sequences {
      assert [] + [drop] == [drop];
    } else {
      var none: seq<Op> := [];
      assert none + none == none;
    }
  }

  lemma SequencesRun(s: NamespaceDef, t: NamespaceDef)
    requires SequencesNamed(t)
    ensures Run(SequencesOps(s, t), s.sequences, SequenceName(), NoBroadcast(), SequenceEffect()) ==
      Ok(AfterSequences(s, t))
  {
    EffectsTame();
    hide Run, RunOne, SequencesOps, Filter, About, AfterSequences, TargetSequenceStep, OldSequenceStep,
      SequenceEffect, SequencesNamed;
    forall n ensures
      RunOne(Filter(SequencesOps(s, t), About(SequenceName(), NoBroadcast(), n)), Get(s.sequences, n),
        SequenceEffect()) ==
      Ok(Get(AfterSequences(s, t), n))
    {
      SequencesAbout(s, t, n);
      SequenceRuns(s, t, n);
    }
    RunByName(SequencesOps(s, t), s.sequences, SequenceName(), NoBroadcast(), SequenceEffect(), AfterSequences(s, t));
  }

  lemma SequencesSettle(s: NamespaceDef, t: NamespaceDef, r: NamespaceDef)
    requires r.sequences == AfterSequences(s, t)
    ensures SequencesOps(r, t) == []
  {
    forall n | n in t.sequences ensures TargetSequenceStep(r, t)(n) == [] {
      assert SameSequence(r.sequences[n], t.sequences[n]);
    }
    hide Flat;
    FlatEmpty(Sorted(t.sequences.Keys), TargetSequenceStep(r, t));
    FlatEmpty(Sorted(r.sequences.Keys), OldSequenceStep(r, t));
  }

  // ----- extensions

  function AfterExtension(s: NamespaceDef, t: NamespaceDef, n: string): Extension
    requires n in t.extensions
  {
    if n !in s.extensions then t.extensions[n]
    else if VersionChanged(s.extensions[n], t.extensions[n]) then s.extensions[n].(version := t.extensions[n].version)
    else s.extensions[n]
  }

  function AfterExtensions(s: NamespaceDef, t: NamespaceDef): map<string, Extension> {
    map n | n in t.extensions :: AfterExtension(s, t, n)
  }

  ghost predicate ExtensionsNamed(ns: NamespaceDef) {
    forall n :: n in ns.extensions ==> ns.extensions[n].name == n
  }

  lemma ExtensionsKeyed(s: NamespaceDef, t: NamespaceDef)
    requires ExtensionsNamed(t)
    ensures Keyed(TargetExtensionStep(s, t), ExtensionName()) && Keyed(OldExtensionStep(s, t), ExtensionName())
  {
    forall n, op | op in TargetExtensionStep(s, t)(n) ensures ExtensionName()(op) == n {
    }
    forall n, op | op in OldExtensionStep(s, t)(n) ensures ExtensionName()(op) == n {
    }
  }

  lemma ExtensionsAbout(s: NamespaceDef, t: NamespaceDef, n: string)
    requires ExtensionsNamed(t)
    ensures Filter(ExtensionsOps(s, t), About(ExtensionName(), NoBroadcast(), n)) ==
      TargetExtensionStep(s, t)(n) + OldExtensionStep(s, t)(n)
  {
    ExtensionsKeyed(s, t);
    assert n !in t.extensions ==> TargetExtensionStep(s, t)(n) == [];
    assert n !in s.extensions ==> OldExtensionStep(s, t)(n) == [];
    hide Keyed, Filter, Flat, About, TargetExtensionStep, OldExtensionStep;
    TwoAbout(t.extensions.Keys, TargetExtensionStep(s, t), s.extensions.Keys, OldExtensionStep(s, t),
      ExtensionName(), n);
  }

  lemma ExtensionShape(s: NamespaceDef, t: NamespaceDef, n: string)
    ensures TargetExtensionStep(s, t)(n) + OldExtensionStep(s, t)(n) ==
      if n in t.extensions && n !in s.extensions then [CreateExtensionOp(t.name, t.extensions[n])]
      else if n in t.extensions && VersionChanged(s.extensions[n], t.extensions[n])
      then [AlterExtensionUpdateOp(t.name, t.extensions[n])]
      else if n in s.extensions && n !in t.extensions then [DropExtensionOp(s.name, n)]
      else []
  {
    hide VersionChanged;
  }

  lemma ExtensionRuns(s: NamespaceDef, t: NamespaceDef, n: string)
    ensures RunOne(TargetExtensionStep(s, t)(n) + OldExtensionStep(s, t)(n), Get(s.extensions, n), ExtensionEffect())
      == Ok(Get(AfterExtensions(s, t), n))
  {
    hide RunOne, VersionChanged, TargetExtensionStep, OldExtensionStep;
    ExtensionShape(s, t, n);
    var v, drop := Get(s.extensions, n), DropExtensionOp(s.name, n);
    RunTwo(drop, drop, v, ExtensionEffect());
    if n in t.extensions {
      var create, alter := CreateExtensionOp(t.name, t.extensions[n]), AlterExtensionUpdateOp(t.name, t.extensions[n]);
      RunTwo(create, create, v, ExtensionEffect());
      RunTwo(alter, alter, v, ExtensionEffect());
    }
  }

  lemma ExtensionsRun(s: NamespaceDef, t: NamespaceDef)
    requires ExtensionsNamed(t)
    ensures Run(ExtensionsOps(s, t), s.extensions, ExtensionName(), NoBroadcast(), ExtensionEffect()) ==
      Ok(AfterExtensions(s, t))
  {
    EffectsTame();
    hide Run, RunOne, ExtensionsOps, Filter, About, AfterExtensions, TargetExtensionStep, OldExtensionStep,
      ExtensionEffect, ExtensionsNamed;
    forall n ensures
      RunOne(Filter(ExtensionsOps(s, t), About(ExtensionName(), NoBroadcast(), n)), Get(s.extensions, n),
        ExtensionEffect()) ==
      Ok(Get(AfterExtensions(s, t), n))
    {
      ExtensionsAbout(s, t, n);
      ExtensionRuns(s, t, n);
    }
    RunByName(ExtensionsOps(s, t), s.extensions, ExtensionName(), NoBroadcast(), ExtensionEffect(),
      AfterExtensions(s, t));
  }

  lemma ExtensionsSettle(s: NamespaceDef, t: NamespaceDef, r: NamespaceDef)
    requires r.extensions == AfterExtensions(s, t)
    ensures ExtensionsOps(r, t) == []
  {
    forall n | n in t.extensions ensures TargetExtensionStep(r, t)(n) == [] {
      assert r.extensions[n] == AfterExtension(s, t, n);
    }
    hide Flat;
    FlatEmpty(Sorted(t.extensions.Keys), TargetExtensionStep(r, t));
    FlatEmpty(Sorted(r.extensions.Keys), OldExtensionStep(r, t));
  }
}
