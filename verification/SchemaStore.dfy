/** Namespaces and schemas as objects: each owns the objects below it, and its snapshot is what
    the differ compares. */
module SchemaStore {
  import opened Catalog
  import opened TableEdits
  import opened Store

  class Namespace {
    var name: string
    var tables: map<string, Table>
    var types: map<string, Leaf<EnumType>>
    var views: map<string, Leaf<View>>
    var sequences: map<string, Leaf<Sequence>>
    var extensions: map<string, Leaf<Extension>>
    ghost var repr: set<object>

    /** The objects that are not tables or below tables. */
    ghost function Leaves(): set<object>
      reads this
    {
      var a: set<object>, b: set<object>, c: set<object>, d: set<object> :=
        types.Values, views.Values, sequences.Values, extensions.Values;
      a + b + c + d
    }

    ghost predicate OwnObjects()
      reads this
    {
      OwnLeaves(types, repr) && OwnLeaves(views, repr) && OwnLeaves(sequences, repr) && OwnLeaves(extensions, repr)
    }

    ghost predicate Valid()
      reads this, repr
    {
      && this in repr
      && OwnObjects()
      && (forall n :: n in tables ==> tables[n] in repr)
      && (forall n :: n in tables ==> tables[n] in tables[n].repr && tables[n].repr <= repr && this !in tables[n].repr)
      && (forall n :: n in tables ==> tables[n].Valid() && tables[n].repr !! Leaves())
      && (forall m, n :: m in tables && n in tables && m != n ==> tables[m].repr !! tables[n].repr)
    }

    /** The index map of the table, if there is one, is right, too. */
    ghost predicate ExactAt(n: string)
      requires Valid()
      reads this, repr
    {
      n in tables ==> tables[n].Exact()
    }

    ghost predicate Exact()
      requires Valid()
      reads this, repr
    {
      forall n :: ExactAt(n)
    }

    function Tables(): map<string, TableDef>
      requires Valid()
      reads this, repr
    {
      map n | n in tables :: tables[n].Snapshot()
    }

    /** Everything but the tables. */
    function Objects(): NamespaceDef
      requires Valid()
      reads this, repr
    {
      NamespaceDef(name, map[], Contents(types), Contents(views), Contents(sequences), Contents(extensions))
    }

    function Snapshot(): NamespaceDef
      requires Valid()
      reads this, repr
    {
      Objects().(tables := Tables())
    }

    constructor (name: string)
      ensures Valid() && fresh(repr) && Snapshot() == EmptyNamespace(name)
      ensures forall n :: ExactAt(n)
    {
      this.name := name;
      tables, types, views, sequences, extensions := map[], map[], map[], map[], map[];
      repr := {this};
      new;
      assert Tables() == map[];
    }

    lemma LeavesBelow()
      requires Valid()
      ensures Leaves() <= repr && this !in Leaves()
    {
      hide Table.Valid;
    }

    twostate predicate SameObjects()
      reads this, Leaves()
    {
      && unchanged(`name, `types, `views, `sequences, `extensions)
      && old(repr) <= repr
      && forall o :: o in Leaves() ==> unchanged(o)
    }

    twostate lemma LeavesSame()
      requires unchanged(`types, `views, `sequences, `extensions)
      ensures Leaves() == old(Leaves())
    {
    }

    /** What is not about tables stays as it was. */
    twostate lemma ObjectsStay()
      requires old(Valid()) && SameObjects()
      ensures OwnObjects() && Leaves() == old(Leaves())
      ensures Valid() ==> Objects() == old(Objects())
    {
      hide Table.Valid;
    }

    /** Enters a table that shares nothing with the namespace. */
    method PutTable(n: string, t: Table)
      requires Valid() && t.Valid() && t.repr !! repr && n !in tables
      modifies this`tables, this`repr
      ensures Valid() && repr == old(repr) + t.repr
      ensures tables == old(tables)[n := t]
      ensures Snapshot() == old(Snapshot()).(tables := old(Tables())[n := t.Snapshot()])
      ensures t.Exact() == old(t.Exact()) && ExactAt(n) == t.Exact()
      ensures forall k :: k != n ==> ExactAt(k) == old(ExactAt(k))
    {
      hide Table.Valid, Table.Snapshot, Table.Exact, OwnObjects, Leaves, Objects;
      Owned(t);
      LeavesBelow();
      tables := tables[n := t];
      repr := repr + t.repr;
      LeavesSame();
      ObjectsStay();
      assert Tables() == old(Tables())[n := t.Snapshot()];
    }

    twostate lemma OtherTables(n: string)
      requires old(Valid()) && unchanged(`tables) && n in tables
      requires OnlyTouched(old(repr), old(tables[n].repr), this)
      ensures forall m :: m in tables && m != n ==> Same(tables[m])
    {
      hide Table.Snapshot, Table.Exact, Agree;
      forall m | m in tables && m != n ensures Same(tables[m]) {
        assert old(tables[m].repr) !! old(tables[n].repr);
        assert tables[m] in old(tables[m].repr) && unchanged(tables[m]);
      }
    }

    twostate lemma LeavesUntouched(n: string)
      requires old(Valid()) && unchanged(`tables, `name, `types, `views, `sequences, `extensions) && n in tables
      requires OnlyTouched(old(repr), old(tables[n].repr), this) && old(repr) <= repr
      ensures SameObjects() && old(Leaves()) <= old(repr) && Leaves() == old(Leaves())
    {
      hide Table.Valid;
      assert old(OwnObjects());
    }

    /** One more type. */
    twostate lemma OneMoreLeaf(new p: Leaf<EnumType>)
      requires unchanged(`views, `sequences, `extensions)
      requires forall n :: n in types ==> types[n] == p || (n in old(types) && types[n] == old(types)[n])
      ensures forall o :: o in Leaves() ==> o == p || o in old(Leaves())
    {
    }

    /** The tables stay as they were when only other objects change, come and go. */
    twostate lemma TablesStay()
      requires old(Valid()) && unchanged(`tables)
      requires forall o :: o in old(repr) && o !in old(Leaves()) && o != this ==> unchanged(o)
      ensures forall n :: n in tables ==> Same(tables[n])
    {
      hide Table.Snapshot, Table.Exact, Agree, OwnColumns, OwnLeaves, Leaves;
      forall n | n in tables ensures Same(tables[n]) {
        assert old(tables[n].repr) !! old(Leaves());
        assert tables[n] in old(tables[n].repr) && unchanged(tables[n]);
      }
    }

    /** One of the tables has changed, and nothing else of the namespace; new objects have come in
        from outside. */
    twostate lemma TableChanged(n: string)
      requires old(Valid()) && unchanged(`tables, `name, `types, `views, `sequences, `extensions) && n in tables &&
        this in repr
      requires tables[n].Valid() && repr == old(repr) + tables[n].repr
      requires this !in tables[n].repr && (tables[n].repr - old(tables[n].repr)) !! old(repr)
      requires OnlyTouched(old(repr), old(tables[n].repr), this)
      ensures Valid() && Tables() == old(Tables())[n := tables[n].Snapshot()] && Objects() == old(Objects())
      ensures ExactAt(n) == tables[n].Exact() && forall k :: k != n ==> ExactAt(k) == old(ExactAt(k))
    {
      hide Table.Valid, Table.Snapshot, Table.Exact, OnlyTouched, OwnObjects, Objects, Leaves;
      Owned(tables[n]);
      OtherTables(n);
      LeavesUntouched(n);
      ObjectsStay();
      assert forall m :: m in tables && m != n ==> Same(tables[m]);
      assert Tables() == old(Tables())[n := tables[n].Snapshot()];
    }
  }

  lemma Owned(t: Table)
    requires t.Valid()
    ensures t in t.repr
  {
  }

  /** A table that nothing has touched. */
  twostate predicate Same(t: Table)
    requires old(t.Valid())
    reads t, t.repr
  {
    && t.repr == old(t.repr) && t.Valid()
    && t.Snapshot() == old(t.Snapshot()) && t.Exact() == old(t.Exact())
  }

  /** Of `all` these objects, none has changed but those in `touched` and their owner. */
  twostate predicate OnlyTouched(all: set<object>, touched: set<object>, owner: object)
    reads all
  {
    forall o :: o in all && o !in touched && o != owner ==> unchanged(o)
  }

  // ----- schemas

  class Schema {
    var schemas: map<string, Namespace>
    ghost var repr: set<object>

    ghost predicate Valid()
      reads this, repr
    {
      && this in repr
      && (forall n :: n in schemas ==> schemas[n] in repr)
      && (forall n :: n in schemas ==>
            schemas[n] in schemas[n].repr && schemas[n].repr <= repr && this !in schemas[n].repr)
      && (forall n :: n in schemas ==> schemas[n].Valid())
      && (forall m, n :: m in schemas && n in schemas && m != n ==> schemas[m].repr !! schemas[n].repr)
    }

    ghost predicate ExactAt(k: string, n: string)
      requires Valid()
      reads this, repr
    {
      k in schemas ==> schemas[k].ExactAt(n)
    }

    ghost predicate Exact()
      requires Valid()
      reads this, repr
    {
      forall k, n :: ExactAt(k, n)
    }

    function Namespaces(): map<string, NamespaceDef>
      requires Valid()
      reads this, repr
    {
      map n | n in schemas :: schemas[n].Snapshot()
    }

    function Snapshot(): SchemaDef
      requires Valid()
      reads this, repr
    {
      SchemaDef(Namespaces())
    }

    constructor ()
      ensures Valid() && Exact() && fresh(repr) && Snapshot() == SchemaDef(map[])
    {
      schemas := map[];
      repr := {this};
      new;
      assert Namespaces() == map[];
    }

    method PutNamespace(n: string, ns: Namespace)
      requires Valid() && ns.Valid() && ns.repr !! repr && n !in schemas
      modifies this`schemas, this`repr
      ensures Valid() && repr == old(repr) + ns.repr
      ensures schemas == old(schemas)[n := ns]
      ensures Namespaces() == old(Namespaces())[n := ns.Snapshot()]
      ensures forall k :: ExactAt(n, k) == old(ns.ExactAt(k))
      ensures forall j, k :: j != n ==> ExactAt(j, k) == old(ExactAt(j, k))
    {
      hide Namespace.Valid, Namespace.Snapshot, Namespace.ExactAt;
      OwnedNamespace(ns);
      schemas := schemas[n := ns];
      repr := repr + ns.repr;
      assert Namespaces() == old(Namespaces())[n := ns.Snapshot()];
    }

    method GetOrCreateNamespace(n: string) returns (ns: Namespace)
      requires Valid()
      modifies this`schemas, this`repr
      ensures Valid() && n in schemas && ns == schemas[n] && fresh(repr - old(repr))
      ensures Snapshot() == GetOrCreated(old(Snapshot()), n)
      ensures n in old(schemas) ==> schemas == old(schemas) && repr == old(repr)
      ensures n !in old(schemas) ==> fresh(ns.repr)
      ensures forall j, k :: old(ExactAt(j, k)) ==> ExactAt(j, k)
    {
      hide Namespace.Valid, Namespace.Snapshot, Namespace.ExactAt;
      if n in schemas {
        return schemas[n];
      }
      ns := new Namespace(n);
      PutNamespace(n, ns);
    }

    twostate lemma OtherNamespaces(n: string)
      requires old(Valid()) && unchanged(`schemas) && n in schemas
      requires OnlyTouched(old(repr), old(schemas[n].repr), this)
      ensures forall m :: m in schemas && m != n ==> SameNamespace(schemas[m])
    {
      hide Namespace.Snapshot, Namespace.Exact, Table.Valid;
      forall m | m in schemas && m != n ensures SameNamespace(schemas[m]) {
        assert old(schemas[m].repr) !! old(schemas[n].repr);
        assert schemas[m] in old(schemas[m].repr) && unchanged(schemas[m]);
      }
    }

    twostate lemma StaysValid(n: string)
      requires old(Valid()) && unchanged(`schemas) && n in schemas && this in repr
      requires schemas[n].Valid() && repr == old(repr) + schemas[n].repr
      requires this !in schemas[n].repr && (schemas[n].repr - old(schemas[n].repr)) !! old(repr)
      requires OnlyTouched(old(repr), old(schemas[n].repr), this)
      ensures Valid() && forall m :: m in schemas && m != n ==> SameNamespace(schemas[m])
    {
      hide Namespace.Valid, Namespace.Snapshot, Namespace.ExactAt;
      OwnedNamespace(schemas[n]);
      OtherNamespaces(n);
      assert forall m :: m in schemas && m != n ==> SameNamespace(schemas[m]);
    }

    /** One of the namespaces has changed, and nothing else of the schema. */
    twostate lemma NamespaceChanged(n: string)
      requires old(Valid()) && unchanged(`schemas) && n in schemas && this in repr
      requires schemas[n].Valid() && repr == old(repr) + schemas[n].repr
      requires this !in schemas[n].repr && (schemas[n].repr - old(schemas[n].repr)) !! old(repr)
      requires OnlyTouched(old(repr), old(schemas[n].repr), this)
      ensures Valid() && Namespaces() == old(Namespaces())[n := schemas[n].Snapshot()]
      ensures forall k :: ExactAt(n, k) == schemas[n].ExactAt(k)
      ensures forall j, k :: j != n ==> ExactAt(j, k) == old(ExactAt(j, k))
    {
      hide Namespace.Valid, Namespace.Snapshot, Namespace.ExactAt, OnlyTouched;
      StaysValid(n);
      assert Namespaces() == old(Namespaces())[n := schemas[n].Snapshot()];
    }
  }

  lemma OwnedNamespace(ns: Namespace)
    requires ns.Valid()
    ensures ns in ns.repr
  {
  }

  twostate predicate SameNamespace(ns: Namespace)
    requires old(ns.Valid())
    reads ns, ns.repr
  {
    && ns.repr == old(ns.repr) && ns.Valid()
    && ns.Snapshot() == old(ns.Snapshot()) && (forall n :: ns.ExactAt(n) == old(ns.ExactAt(n)))
  }

  // ----- copies

  ghost function Restricted<V>(m: map<string, V>, names: set<string>): map<string, V> {
    map n | n in m && n in names :: m[n]
  }

  lemma RestrictedAll<V>(m: map<string, V>)
    ensures Restricted(m, m.Keys) == m
  {
  }

  lemma RestrictedLess<V>(m: map<string, V>, names: set<string>, n: string)
    ensures Restricted(m, names - {n}) == Restricted(m, names) - {n}
  {
  }

  lemma TableIn(ns: Namespace, n: string)
    requires ns.Valid() && n in ns.tables
    ensures NoDuplicates(NamesOf(ns.tables[n].columns)) && ns.tables[n].Valid()
    ensures ns.Tables()[n] == ns.tables[n].Snapshot()
  {
  }

  lemma TableBelow(ns: Namespace, n: string)
    requires ns.Valid() && n in ns.tables
    ensures var t := ns.tables[n];
      t.Valid() && t in t.repr && ns in ns.repr && t.repr <= ns.repr && ns !in t.repr && t in ns.repr
    ensures n in ns.Tables() && ns.Tables()[n] == ns.tables[n].Snapshot() && ns.Snapshot().tables == ns.Tables()
    ensures ns.ExactAt(n) == ns.tables[n].Exact()
  {
    hide Table.Valid, Table.Exact, Table.Snapshot;
  }

  lemma NamespaceBelow(s: Schema, k: string)
    requires s.Valid() && k in s.schemas
    ensures var ns := s.schemas[k];
      ns.Valid() && ns in ns.repr && s in s.repr && ns.repr <= s.repr && s !in ns.repr
    ensures k in s.Namespaces() && s.Namespaces()[k] == s.schemas[k].Snapshot()
    ensures s.Snapshot().schemas == s.Namespaces()
    ensures forall n :: s.ExactAt(k, n) == s.schemas[k].ExactAt(n)
  {
    hide Namespace.Valid, Namespace.ExactAt, Namespace.Snapshot;
  }

  lemma TableNames(ns: Namespace)
    requires ns.Valid()
    ensures ns.Tables().Keys == ns.tables.Keys && ns.Snapshot().tables == ns.Tables()
  {
  }

  /** The copy has the same contents, shares no object with the original, and has its index maps
      right even where the original's are stale. */
  method CloneNamespace(ns: Namespace) returns (c: Namespace)
    requires ns.Valid()
    ensures c.Valid() && c.Exact() && fresh(c.repr)
    ensures c.Snapshot() == ns.Snapshot()
  {
    hide Namespace.Valid, Namespace.Snapshot, Namespace.Tables, Namespace.Exact, Table.Valid, Table.Snapshot,
      Table.Exact,
      NamesOf, Table.ColumnView, CopyBut;
    c := new Namespace(ns.name);
    CopyObjects(c, ns);
    ghost var before := ns.Snapshot();
    TableNames(ns);
    CopyEnds(before.tables);
    var left := ns.tables.Keys;
    while left != {}
      invariant left <= before.tables.Keys
      invariant c.Valid() && c.Exact() && fresh(c.repr)
      invariant c.Snapshot() == before.(tables := CopyBut(before.tables, left))
      decreases |left|
    {
      var n :| n in left;
      CopyNext(before.tables, left, n);
      left := left - {n};
      CopyTable(ns, c, n);
    }
  }

  /** Enters a copy of one of the tables. */
  method CopyTable(ns: Namespace, c: Namespace, n: string)
    requires ns.Valid() && n in ns.Snapshot().tables
    requires c.Valid() && c.Exact() && n !in c.Snapshot().tables
    modifies c`tables, c`repr
    ensures c.Valid() && c.Exact() && fresh(c.repr - old(c.repr))
    ensures c.Snapshot() == old(c.Snapshot()).(tables := old(c.Snapshot()).tables[n := old(ns.Snapshot()).tables[n]])
  {
    hide Namespace.Valid, Namespace.Snapshot, Namespace.Tables, Namespace.ExactAt, Table.Valid, Table.Snapshot,
      Table.Exact,
      NamesOf, Table.ColumnView;
    TableNames(ns);
    TableIn(ns, n);
    TableNames(c);
    var ct := CloneTable(ns.tables[n]);
    c.PutTable(n, ct);
  }

  method SetObjects(c: Namespace, types: map<string, Leaf<EnumType>>, views: map<string, Leaf<View>>,
                    sequences: map<string, Leaf<Sequence>>, extensions: map<string, Leaf<Extension>>)
    requires c.Valid() && c.tables == map[]
    requires OwnLeaves(types, types.Values) && OwnLeaves(views, views.Values)
    requires OwnLeaves(sequences, sequences.Values) && OwnLeaves(extensions, extensions.Values)
    modifies c`types, c`views, c`sequences, c`extensions, c`repr
    ensures c.Valid() && c.Exact() && c.Tables() == map[]
    ensures c.types == types && c.views == views && c.sequences == sequences && c.extensions == extensions
    ensures c.repr == old(c.repr) + c.Leaves()
  {
    hide OwnLeaves;
    c.types, c.views, c.sequences, c.extensions := types, views, sequences, extensions;
    c.repr := c.repr + c.Leaves();
    LeavesStay(types, types.Values, c.repr);
    LeavesStay(views, views.Values, c.repr);
    LeavesStay(sequences, sequences.Values, c.repr);
    LeavesStay(extensions, extensions.Values, c.repr);
  }

  lemma ObjectsOf(ns: Namespace)
    requires ns.Valid()
    ensures ns.Snapshot().(tables := map[]) ==
      NamespaceDef(ns.name, map[], Contents(ns.types), Contents(ns.views), Contents(ns.sequences),
        Contents(ns.extensions))
    ensures ns.Snapshot().tables == ns.Tables()
  {
  }

  method CloneObjects(ns: Namespace)
    returns (types: map<string, Leaf<EnumType>>, views: map<string, Leaf<View>>, sequences: map<string, Leaf<Sequence>>,
             extensions: map<string, Leaf<Extension>>)
    ensures fresh(types.Values) && fresh(views.Values) && fresh(sequences.Values) && fresh(extensions.Values)
    ensures OwnLeaves(types, types.Values) && Contents(types) == Contents(ns.types)
    ensures OwnLeaves(views, views.Values) && Contents(views) == Contents(ns.views)
    ensures OwnLeaves(sequences, sequences.Values) && Contents(sequences) == Contents(ns.sequences)
    ensures OwnLeaves(extensions, extensions.Values) && Contents(extensions) == Contents(ns.extensions)
  {
    hide OwnLeaves, Contents;
    types := CloneLeaves(ns.types);
    views := CloneLeaves(ns.views);
    sequences := CloneLeaves(ns.sequences);
    extensions := CloneLeaves(ns.extensions);
  }

  /** Gives a new namespace copies of everything but the tables. */
  method CopyObjects(c: Namespace, ns: Namespace)
    requires c.Valid() && ns.Valid() && c.Snapshot() == EmptyNamespace(ns.name)
    modifies c`types, c`views, c`sequences, c`extensions, c`repr
    ensures c.Valid() && c.Exact() && fresh(c.repr - old(c.repr))
    ensures c.Snapshot() == old(ns.Snapshot()).(tables := map[])
  {
    hide Namespace.Valid, Namespace.Exact, Namespace.Snapshot, Namespace.Tables, OwnLeaves, Contents;
    NoTables(c);
    ObjectsOf(ns);
    ObjectsOf(c);
    var types, views, sequences, extensions := CloneObjects(ns);
    SetObjects(c, types, views, sequences, extensions);
    ObjectsOf(c);
  }

  lemma NoTables(c: Namespace)
    requires c.Valid() && c.Snapshot().tables == map[]
    ensures c.tables == map[]
  {
    assert c.Tables().Keys == c.tables.Keys;
  }

  lemma NamespaceIn(s: Schema, n: string)
    requires s.Valid() && n in s.schemas
    ensures s.schemas[n].Valid() && s.Namespaces()[n] == s.schemas[n].Snapshot()
  {
    hide Namespace.Valid, Namespace.Snapshot;
  }

  lemma NamespaceNames(s: Schema)
    requires s.Valid()
    ensures s.Namespaces().Keys == s.schemas.Keys && s in s.repr
  {
    hide Namespace.Valid, Namespace.Snapshot;
  }

  /** Enters a copy of one of the namespaces. */
  method CopyNamespace(s: Schema, c: Schema, n: string)
    requires s.Valid() && n in s.Namespaces()
    requires c.Valid() && c.Exact() && n !in c.Namespaces()
    modifies c`schemas, c`repr
    ensures c.Valid() && c.Exact() && fresh(c.repr - old(c.repr))
    ensures c.Namespaces() == old(c.Namespaces())[n := old(s.Namespaces())[n]]
  {
    hide Schema.Valid, Schema.Namespaces, Schema.ExactAt, Namespace.Valid, Namespace.Snapshot, Namespace.ExactAt;
    NamespaceNames(s);
    NamespaceIn(s, n);
    NamespaceNames(c);
    var cn := CloneNamespace(s.schemas[n]);
    c.PutNamespace(n, cn);
  }

  method CloneSchema(s: Schema) returns (c: Schema)
    requires s.Valid()
    ensures c.Valid() && c.Exact() && fresh(c) && fresh(c.repr)
    ensures c.Snapshot() == s.Snapshot()
  {
    hide Schema.Valid, Schema.Namespaces, Schema.Exact, Namespace.Valid, Namespace.Snapshot, Namespace.Exact, CopyBut;
    c := new Schema();
    ghost var before := s.Namespaces();
    NamespaceNames(s);
    CopyEnds(before);
    var left := s.schemas.Keys;
    while left != {}
      invariant left <= before.Keys
      invariant c.Valid() && c.Exact() && fresh(c.repr)
      invariant c.Namespaces() == CopyBut(before, left)
      decreases |left|
    {
      var n :| n in left;
      CopyNext(before, left, n);
      left := left - {n};
      CopyNamespace(s, c, n);
    }
  }

  // ----- filtering by name

  ghost function Selected(s: SchemaDef, names: seq<string>): SchemaDef {
    if names == [] then s else SchemaDef(Restricted(s.schemas, set n | n in names))
  }

  method DeleteNamespace(s: Schema, n: string)
    requires s.Valid()
    modifies s`schemas
    ensures s.Valid() && s.Namespaces() == old(s.Namespaces()) - {n} && s.schemas == old(s.schemas) - {n}
  {
    hide Namespace.Valid, Namespace.Snapshot;
    s.schemas := s.schemas - {n};
    assert s.Namespaces() == old(s.Namespaces()) - {n};
  }

  /** Deletes every namespace that is not listed. */
  method FilterSchema(s: Schema, names: set<string>)
    requires s.Valid()
    modifies s`schemas
    ensures s.Valid() && s.Namespaces() == Restricted(old(s.Namespaces()), names)
  {
    hide Schema.Valid, Schema.Namespaces, Restricted;
    ghost var before := s.Namespaces();
    NamespaceNames(s);
    RestrictedAll(before);
    var left := s.schemas.Keys;
    ghost var kept := left;
    while left != {}
      invariant kept <= before.Keys && left <= kept
      invariant forall n :: n in before ==> (n in kept <==> n in left || n in names)
      invariant s.Valid() && s.Namespaces() == Restricted(before, kept)
      decreases |left|
    {
      var n :| n in left;
      left := left - {n};
      if n !in names {
        DeleteNamespace(s, n);
        RestrictedLess(before, kept, n);
        kept := kept - {n};
      }
    }
    RestrictedSame(before, kept, names);
  }

  lemma RestrictedSame<V>(m: map<string, V>, a: set<string>, b: set<string>)
    requires forall n :: n in m ==> (n in a <==> n in b)
    ensures Restricted(m, a) == Restricted(m, b)
  {
  }

  /** No names select everything; otherwise both schemas keep the listed namespaces only, and an
      empty result is warned about. */
  method FilterNamespaces(source: Schema, target: Schema, names: seq<string>) returns (warned: bool)
    requires source.Valid() && target.Valid() && source.repr !! target.repr
    modifies source`schemas, target`schemas
    ensures source.Valid() && target.Valid()
    ensures source.Snapshot() == Selected(old(source.Snapshot()), names)
    ensures target.Snapshot() == Selected(old(target.Snapshot()), names)
    ensures warned <==> names != [] && source.schemas == map[] && target.schemas == map[]
  {
    hide Schema.Valid, Schema.Namespaces, Restricted;
    if |names| == 0 {
      return false;
    }
    NamespaceNames(source);
    NamespaceNames(target);
    var schemaSet := set n | n in names;
    FilterSchema(source, schemaSet);
    FilterSchema(target, schemaSet);
    warned := |source.schemas| == 0 && |target.schemas| == 0;
  }
}
