/** The whole computation on schema objects: copy, canonicalize, filter, compare, filter, plan. */
module Pipeline {
  import opened Catalog
  import opened Contexts
  import opened Operations
  import opened Graphs
  import opened Lists
  import opened Dag
  import opened Planner
  import opened DiffSpec
  import opened SchemaStore
  import opened Normalize
  import opened Canonical
  import opened Differ
  import Agreement

  /** What the pipeline compares: the selected namespaces of a schema in canonical form. */
  ghost function Compared(f: Canon, s: SchemaDef, schemas: seq<string>): SchemaDef
    requires SchemaApart(f, s)
  {
    Selected(CanonSchema(f, s), schemas)
  }

  method Prepare(f: Canon, s: Schema) returns (c: Schema)
    requires s.Valid() && SchemaApart(f, s.Snapshot())
    ensures s.Valid() && s.Snapshot() == old(s.Snapshot()) && s.repr == old(s.repr)
    ensures c.Valid() && fresh(c) && fresh(c.repr)
    ensures c.Snapshot() == CanonSchema(f, s.Snapshot())
  {
    hide Schema.Valid, Schema.Namespaces, Schema.ExactAt, SchemaApart, CanonSchema;
    c := CloneSchema(s);
    CanonicalizeSchema(f, c);
  }

  lemma NoNamespaces(s: Schema)
    requires s.Valid()
    ensures s.schemas == map[] <==> s.Snapshot() == SchemaDef(map[])
  {
    hide Namespace.Valid, Namespace.Snapshot;
    NamespaceNames(s);
    assert s.schemas == map[] <==> s.schemas.Keys == {};
    assert s.Namespaces() == map[] <==> s.Namespaces().Keys == {};
  }

  /** The two schemas copied, canonicalized and restricted to the selected namespaces. */
  method PrepareBoth(f: Canon, source: Schema, target: Schema, schemas: seq<string>)
    returns (a: Schema, b: Schema, noneSelected: bool)
    requires source.Valid() && target.Valid()
    requires SchemaApart(f, source.Snapshot()) && SchemaApart(f, target.Snapshot())
    ensures source.Valid() && source.Snapshot() == old(source.Snapshot())
    ensures target.Valid() && target.Snapshot() == old(target.Snapshot())
    ensures source.repr == old(source.repr) && target.repr == old(target.repr)
    ensures a.Valid() && b.Valid() && fresh(a.repr) && fresh(b.repr)
    ensures a.Snapshot() == Compared(f, source.Snapshot(), schemas)
    ensures b.Snapshot() == Compared(f, target.Snapshot(), schemas)
    ensures noneSelected <==> schemas != [] && a.Snapshot() == SchemaDef(map[]) && b.Snapshot() == SchemaDef(map[])
  {
    hide Schema.Valid, Schema.Namespaces, Selected, SchemaApart, CanonSchema;
    a := Prepare(f, source);
    b := Prepare(f, target);
    noneSelected := FilterNamespaces(a, b, schemas);
    NoNamespaces(a);
    NoNamespaces(b);
  }

  /** Copies are overwritten with their canonical forms, then compared; the two schemas themselves
      stay as they are.  Without an interruption the computation fails exactly when the plan has a
      dependency cycle.  An interrupted one gives the empty plan and no error exactly when the differ
      had emitted nothing that is allowed; in particular when it is cancelled from the start. */
  method ComputeDiff(ctx: Context, f: Canon, source: Schema, target: Schema, schemas: seq<string>, unsafeDrop: bool,
                     walk: Walk)
    returns (r: SortResult, warnings: seq<Warning>, noneSelected: bool, removals: seq<RemovalWarning>,
             ghost emitted: seq<Op>)
    requires source.Valid() && target.Valid() && ctx !in source.repr && ctx !in target.repr
    requires SchemaApart(f, source.Snapshot()) && SchemaApart(f, target.Snapshot())
    modifies ctx
    ensures source.Valid() && source.Snapshot() == old(source.Snapshot())
    ensures target.Valid() && target.Snapshot() == old(target.Snapshot())
    ensures noneSelected <==>
            && schemas != [] && Compared(f, source.Snapshot(), schemas) == SchemaDef(map[])
            && Compared(f, target.Snapshot(), schemas) == SchemaDef(map[])
    ensures var removed := if unsafeDrop then [] else Filter(emitted, Destructive());
      removals == if removed == [] then [] else [Found(|removed|)] + RemovalsOf(removed) + [UseUnsafeDrop]
    ensures r.Interrupted? ==> ctx.Cancelled()
    ensures ctx.Cancelled() ==> r == if Allowed(emitted, unsafeDrop) == [] then Ordered([]) else Interrupted
    ensures old(ctx.Due()) ==> r == Ordered([]) && emitted == []
    ensures !ctx.Cancelled() ==>
      var s, t := Compared(f, source.Snapshot(), schemas), Compared(f, target.Snapshot(), schemas);
      var ops := Allowed(DiffOps(s, t, walk), unsafeDrop);
      && emitted == DiffOps(s, t, walk)
      && (r.Ordered? <==> Plannable(ops)) && (r.Ordered? ==> IsPlan(ops, r.ops))
      && warnings == DiffWarnings(s, t)
  {
    hide Schema.Valid, Schema.Namespaces, Selected, DiffOps, DiffWarnings, Allowed, IsPlan, Plannable, SchemaApart,
      CanonSchema, Compared, Filter, RemovalsOf;
    var sourceClone, targetClone;
    sourceClone, targetClone, noneSelected := PrepareBoth(f, source, target, schemas);
    var operations;
    operations, warnings := Diff(ctx, sourceClone.Snapshot(), targetClone.Snapshot(), walk);
    var filtered;
    emitted := operations;
    filtered, removals := FilterDestructiveOps(operations, unsafeDrop);
    r := BuildExecutionPlan(ctx, filtered, unsafeDrop);
  }

  /** Under a context that is cancelled from the start, any two schemas give the empty plan and no
      error. */
  method ComputeCancelled(f: Canon, source: Schema, target: Schema, schemas: seq<string>, unsafeDrop: bool, walk: Walk)
    returns (r: SortResult)
    requires source.Valid() && target.Valid()
    requires SchemaApart(f, source.Snapshot()) && SchemaApart(f, target.Snapshot())
    ensures r == Ordered([])
  {
    hide Schema.Valid, Schema.Namespaces, SchemaApart;
    var ctx := new Context(Some(0));
    var warnings, noneSelected, removals;
    ghost var emitted;
    r, warnings, noneSelected, removals, emitted :=
      ComputeDiff(ctx, f, source, target, schemas, unsafeDrop, walk);
  }

  /** Comparing a schema with its copy finds nothing. */
  method DiffWithClone(ctx: Context, s: Schema, walk: Walk) returns (ops: seq<Op>, warnings: seq<Warning>)
    requires s.Valid() && ctx !in s.repr && WellFormed(s.Snapshot()) && Walks(walk, s.Snapshot())
    modifies ctx
    ensures !ctx.Cancelled() ==> ops == [] && warnings == []
  {
    hide Schema.Valid, Schema.Namespaces, Schema.Snapshot, DiffOps, DiffWarnings, WellFormed, Walks;
    var c := CloneSchema(s);
    Agreement.NothingToDo(s.Snapshot(), walk);
    ops, warnings := Diff(ctx, s.Snapshot(), c.Snapshot(), walk);
  }

  /** Nor does comparing a schema as it is read from a database with the same schema as it is read from
      a file, if its canonical form is well-formed. */
  lemma DatabaseMatchesFile(f: Canon, s: SchemaDef, t: SchemaDef, schemas: seq<string>, walk: Walk)
    requires SchemaFilledIn(s, t) && SchemaApart(f, s) && SchemaApart(f, t)
    requires WellFormed(Compared(f, s, schemas)) && Walks(walk, Compared(f, s, schemas))
    ensures DiffOps(Compared(f, s, schemas), Compared(f, t, schemas), walk) == []
    ensures DiffWarnings(Compared(f, s, schemas), Compared(f, t, schemas)) == []
  {
    hide DiffOps, DiffWarnings, CanonSchema, SchemaFilledIn, SchemaApart, WellFormed, Walks, Selected;
    DatabaseAndFileAlike(f, s, t);
    Agreement.NothingToDo(Compared(f, s, schemas), walk);
  }
}
