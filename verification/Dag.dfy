/** The planner's dependency graph: linked nodes with edges in both directions, an index by
    object key, and Kahn's sort over them. */
module Dag {
  import opened Catalog
  import opened Contexts
  import opened Operations
  import opened Graphs

  // ----- the graph of a list of operations

  ghost predicate HasKey(ops: seq<Op>, key: ObjectKey, i: nat) {
    i < |ops| && ops[i].Key() == key
  }

  /** The positions of the operations with a given key, in order. */
  ghost function KeyPositions(ops: seq<Op>, key: ObjectKey): (r: seq<nat>)
    ensures forall k :: 0 <= k < |r| ==> HasKey(ops, key, r[k])
  {
    var r := Below(|ops|, (i: nat) => HasKey(ops, key, i));
    assert forall k :: 0 <= k < |r| ==> r[k] in r;
    r
  }

  /** The first DROP CONSTRAINT among the matches, or else the first match. */
  ghost function Prefer(ops: seq<Op>, matches: seq<nat>): (r: Option<nat>)
    requires forall k :: 0 <= k < |matches| ==> matches[k] < |ops|
    ensures r.Some? ==> r.value in matches
    ensures r.None? <==> matches == []
  {
    if matches == [] then None
    else if ops[matches[0]].Kind() == DropConstraint then Some(matches[0])
    else
      var later := Prefer(ops, matches[1..]);
      if later.Some? && ops[later.value].Kind() == DropConstraint then later
      else Some(matches[0])
  }

  /** The position that a dependency on `key` resolves to. */
  ghost function Resolve(ops: seq<Op>, key: ObjectKey): (r: Option<nat>)
    ensures r.Some? ==> HasKey(ops, key, r.value)
    ensures r.None? <==> forall i: nat :: !HasKey(ops, key, i)
  {
    assert forall i: nat :: HasKey(ops, key, i) ==> i in KeyPositions(ops, key);
    Prefer(ops, KeyPositions(ops, key))
  }

  /** The operations that operation `i` resolves its dependencies to, itself excluded. */
  ghost function DepsFor(ops: seq<Op>, i: nat, keys: set<ObjectKey>): set<nat> {
    set k | k in keys && Resolve(ops, k).Some? && Resolve(ops, k).value != i ::
      Resolve(ops, k).value
  }

  ghost function DepsOf(ops: seq<Op>, i: nat): set<nat>
    requires i < |ops|
  {
    DepsFor(ops, i, ops[i].DependsOn())
  }

  ghost predicate WaitsFor(ops: seq<Op>, j: nat, i: nat) {
    i < |ops| && j in DepsOf(ops, i)
  }

  /** The operations below `n` that depend on `j`, in input order. */
  ghost function DependentsBelow(ops: seq<Op>, j: nat, n: nat): seq<nat> {
    Below(n, (i: nat) => WaitsFor(ops, j, i))
  }

  /** The graph once the dependencies of the first `n` operations have been added. */
  ghost function GraphBelow(ops: seq<Op>, n: nat): Graph
    requires n <= |ops|
  {
    Graph(seq(|ops|, i requires 0 <= i < |ops| => if i < n then DepsOf(ops, i) else {}),
          seq(|ops|, j requires 0 <= j < |ops| => DependentsBelow(ops, j, n)))
  }

  ghost function GraphOf(ops: seq<Op>): Graph {
    GraphBelow(ops, |ops|)
  }

  lemma GraphBelowValid(ops: seq<Op>, n: nat)
    requires n <= |ops|
    ensures Valid(GraphBelow(ops, n)) && InputOrdered(GraphBelow(ops, n))
  {
    var g := GraphBelow(ops, n);
    forall j: nat | j < |g.deps| ensures InRange(g, g.dependents[j]) {
      var r := DependentsBelow(ops, j, n);
      assert forall i :: 0 <= i < |r| ==> r[i] in r;
    }
  }

  // ----- the operations along an order

  function PickOps(ops: seq<Op>, order: seq<nat>): (r: seq<Op>)
    requires forall k :: 0 <= k < |order| ==> order[k] < |ops|
    ensures |r| == |order|
    ensures forall k :: 0 <= k < |order| ==> r[k] == ops[order[k]]
  {
    seq(|order|, k requires 0 <= k < |order| => ops[order[k]])
  }

  // ----- nodes

  class Node {
    const op: Op
    ghost const id: nat
    var dependencies: seq<Node>
    var dependents: seq<Node>
    var dependencySet: set<Node>

    constructor (op: Op, ghost id: nat)
      ensures this.op == op && this.id == id
      ensures dependencies == [] && dependents == [] && dependencySet == {}
    {
      this.op := op;
      this.id := id;
      dependencies, dependents, dependencySet := [], [], {};
    }
  }

  ghost function Ids(s: seq<Node>): (r: seq<nat>)
    ensures |r| == |s| && forall i :: 0 <= i < |s| ==> r[i] == s[i].id
  {
    seq(|s|, i requires 0 <= i < |s| => s[i].id)
  }

  /** The keys an operation depends on, in the order in which the code lists them. */
  method ListDependencies(op: Op) returns (keys: seq<ObjectKey>)
    ensures Elems(keys) == op.DependsOn()
  {
    keys := [];
    if op.AddTableOp? {
      var cs := op.tableDef.constraints;
      var left := cs.Keys;
      while left != {}
        invariant left <= cs.Keys
        invariant Elems(keys) == set n | n in cs.Keys - left && IsForeignKey(cs[n]) :: ReferencedTable(cs[n])
        decreases |left|
      {
        var n :| n in left;
        ghost var seen := cs.Keys - left;
        left := left - {n};
        assert cs.Keys - left == seen + {n};
        if IsForeignKey(cs[n]) {
          ghost var before := keys;
          keys := keys + [ReferencedTable(cs[n])];
          assert Elems(keys) == Elems(before) + {ReferencedTable(cs[n])};
        }
      }
      assert cs.Keys - left == cs.Keys;
    } else if op.IsColumnOp() {
      keys := [ObjectKey(op.schema, op.table, KTable)];
    } else if op.CreateIndexOp? {
      keys := [ObjectKey(op.schema, op.index.table, KTable)];
    } else if op.AddConstraintOp? {
      keys := [ObjectKey(op.schema, op.table, KTable),
               ObjectKey(op.schema, op.table + "." + op.constraint.name, KConstraint)];
    } else if op.AddEnumLabelOp? {
      keys := [ObjectKey(op.schema, op.name, KType)];
    }
  }

  datatype SortResult = Ordered(ops: seq<Op>) | Interrupted | CycleDetected

  ghost function WithEdge(g: Graph, f: nat, t: nat): Graph
    requires f < |g.deps| && t < |g.dependents|
  {
    Graph(g.deps[f := g.deps[f] + {t}], g.dependents[t := g.dependents[t] + [f]])
  }

  ghost predicate AllIn(s: seq<Node>, nodes: seq<Node>) {
    forall k :: 0 <= k < |s| ==> s[k] in nodes
  }

  lemma IdsConcat(s: seq<Node>, t: seq<Node>)
    ensures Ids(s + t) == Ids(s) + Ids(t)
  {
  }

  lemma WholeSlice<T>(s: seq<T>)
    ensures s[..|s|] == s
  {
  }

  lemma IdsAppend(s: seq<Node>, n: Node)
    ensures Ids(s + [n]) == Ids(s) + [n.id]
  {
  }

  lemma KeyPositionsAppend(ops: seq<Op>, op: Op, key: ObjectKey)
    ensures KeyPositions(ops + [op], key) ==
            KeyPositions(ops, key) + (if op.Key() == key then [|ops|] else [])
  {
    BelowSame(|ops|, (i: nat) => HasKey(ops, key, i), (i: nat) => HasKey(ops + [op], key, i));
  }

  lemma {:induction false} BelowSame(n: nat, p: nat -> bool, q: nat -> bool)
    requires forall i: nat :: i < n ==> p(i) == q(i)
    ensures Below(n, p) == Below(n, q)
  {
    if n > 0 { BelowSame(n - 1, p, q); }
  }

  lemma WithNodeValid(g: Graph)
    requires Graphs.Valid(g)
    ensures Graphs.Valid(Graph(g.deps + [{}], g.dependents + [[]]))
  {
    var h := Graph(g.deps + [{}], g.dependents + [[]]);
    forall j: nat, i: nat | j < |h.deps|
      ensures i in h.dependents[j] <==> i < |h.deps| && j in h.deps[i]
    {
      if j == |g.deps| && i < |g.deps| { assert j !in g.deps[i]; }
    }
    forall j: nat | j < |h.deps|
      ensures Distinct(h.dependents[j]) && InRange(h, h.dependents[j])
    {
      assert j < |g.deps| ==> InRange(g, g.dependents[j]);
    }
  }

  lemma WithEdgeValid(g: Graph, f: nat, t: nat)
    requires Graphs.Valid(g) && f < |g.deps| && t < |g.deps| && t !in g.deps[f]
    ensures Graphs.Valid(WithEdge(g, f, t))
  {
    var h := WithEdge(g, f, t);
    assert f !in g.dependents[t];
    forall j: nat | j < |h.deps|
      ensures Distinct(h.dependents[j]) && InRange(h, h.dependents[j])
    {
      assert Distinct(g.dependents[j]) && InRange(g, g.dependents[j]);
      assert forall k :: 0 <= k < |g.dependents[j]| ==> g.dependents[j][k] in g.dependents[j];
    }
  }

  // ----- the graph object

  class DAG {
    var nodes: seq<Node>
    var byObject: map<ObjectKey, seq<Node>>
    ghost var ops: seq<Op>
    ghost var graph: Graph

    ghost predicate Shape()
      reads this
    {
      && |nodes| == |ops| == |graph.deps| == |graph.dependents|
      && (forall i :: 0 <= i < |nodes| ==> nodes[i].id == i && nodes[i].op == ops[i])
    }

    /** Node `i` carries the edges that the abstract graph gives it. */
    ghost predicate Mirrors(i: nat)
      requires Shape() && i < |nodes|
      reads this, nodes
    {
      && (forall n :: n in nodes[i].dependencies ==> n in nodes)
      && (forall n :: n in nodes[i].dependents ==> n in nodes)
      && Distinct(nodes[i].dependencies)
      && nodes[i].dependencySet == Elems(nodes[i].dependencies)
      && graph.deps[i] == Elems(Ids(nodes[i].dependencies))
      && graph.dependents[i] == Ids(nodes[i].dependents)
    }

    ghost predicate Indexed(key: ObjectKey)
      requires Shape()
      reads this
    {
      var found := if key in byObject then byObject[key] else [];
      && (forall n :: n in found ==> n in nodes)
      && Ids(found) == KeyPositions(ops, key)
    }

    ghost predicate Valid()
      reads this, nodes
    {
      && Shape()
      && Graphs.Valid(graph)
      && (forall i :: 0 <= i < |nodes| ==> Mirrors(i))
      && (forall key :: Indexed(key))
    }

    constructor ()
      ensures Valid() && nodes == [] && ops == []
    {
      nodes, byObject := [], map[];
      ops, graph := [], Graph([], []);
    }

    method AddNode(op: Op) returns (node: Node)
      requires Valid()
      modifies this
      ensures Valid() && fresh(node) && node.op == op
      ensures nodes == old(nodes) + [node] && ops == old(ops) + [op]
      ensures graph == Graph(old(graph).deps + [{}], old(graph).dependents + [[]])
    {
      WithNodeValid(graph);
      node := new Node(op, |nodes|);
      nodes := nodes + [node];
      var key := op.Key();
      ghost var before := byObject;
      var bucket := if key in byObject then byObject[key] else [];
      byObject := byObject[key := bucket + [node]];
      ops := ops + [op];
      graph := Graph(graph.deps + [{}], graph.dependents + [[]]);
      forall k ensures Indexed(k) {
        assert old(Indexed(k));
        KeyPositionsAppend(old(ops), op, k);
        IdsAppend(bucket, node);
      }
      forall i | 0 <= i < |nodes| ensures Mirrors(i) {
        if i < |old(nodes)| {
          assert old(Mirrors(i));
          assert nodes[i] == old(nodes)[i];
        }
      }
    }

    /** Makes `dependent` depend on `dependency`; a repeated edge and a self-edge change nothing. */
    method AddDependency(dependent: Node?, dependency: Node?)
      requires Valid()
      requires dependent != null ==> dependent in nodes
      requires dependency != null ==> dependency in nodes
      modifies this`graph, nodes
      ensures Valid()
      ensures graph ==
        if dependent == null || dependency == null || dependent == dependency ||
           dependency.id in old(graph).deps[dependent.id]
        then old(graph) else WithEdge(old(graph), dependent.id, dependency.id)
    {
      if dependent == null || dependency == null || dependent == dependency {
        return;
      }
      ghost var f, t := dependent.id, dependency.id;
      assert nodes[f] == dependent && nodes[t] == dependency;
      assert Mirrors(f) && Mirrors(t);
      if dependency in dependent.dependencySet {
        assert exists k :: 0 <= k < |dependent.dependencies| && Ids(dependent.dependencies)[k] == t;
        return;
      }
      forall k | 0 <= k < |dependent.dependencies| ensures dependent.dependencies[k].id != t {
        var n := dependent.dependencies[k];
        assert n in nodes && nodes[n.id] == n && n in dependent.dependencySet;
      }
      WithEdgeValid(graph, f, t);
      IdsAppend(dependent.dependencies, dependency);
      IdsAppend(dependency.dependents, dependent);
      dependent.dependencySet := dependent.dependencySet + {dependency};
      dependent.dependencies := dependent.dependencies + [dependency];
      dependency.dependents := dependency.dependents + [dependent];
      graph := WithEdge(graph, f, t);
      forall i | 0 <= i < |nodes| ensures Mirrors(i) {
        assert old(Mirrors(i));
      }
      forall key ensures Indexed(key) {
        assert old(Indexed(key));
      }
    }

    static method Preferred(matches: seq<Node>, ghost ops: seq<Op>) returns (found: Node)
      requires matches != []
      requires forall k :: 0 <= k < |matches| ==>
        matches[k].id < |ops| && ops[matches[k].id] == matches[k].op
      ensures found in matches && Prefer(ops, Ids(matches)) == Some(found.id)
    {
      for k := 0 to |matches|
        invariant forall m :: 0 <= m < k ==> matches[m].op.Kind() != DropConstraint
      {
        if matches[k].op.Kind() == DropConstraint {
          PreferFirstDrop(ops, Ids(matches), k);
          return matches[k];
        }
      }
      PreferNoDrop(ops, Ids(matches));
      return matches[0];
    }

    /** The node that a dependency on `key` resolves to, or null. */
    method FindNodeByObjectKey(key: ObjectKey) returns (found: Node?)
      requires Valid()
      ensures found == null <==> Resolve(ops, key).None?
      ensures found != null ==> found in nodes && found.id == Resolve(ops, key).value
    {
      var matches := if key in byObject then byObject[key] else [];
      assert Indexed(key);
      ghost var positions := KeyPositions(ops, key);
      if |matches| == 0 {
        return null;
      }
      assert forall k :: 0 <= k < |matches| ==> matches[k] in nodes && matches[k].id == positions[k];
      found := Preferred(matches, ops);
    }

    /** Adds the edge for one of the keys the node depends on, if some operation has that key. */
    method AddDependencyOn(node: Node, key: ObjectKey, ghost seen: set<ObjectKey>)
      requires Valid() && node in nodes && graph == GraphWith(ops, node.id, DepsFor(ops, node.id, seen))
      modifies this`graph, nodes
      ensures Valid() && graph == GraphWith(ops, node.id, DepsFor(ops, node.id, seen + {key}))
    {
      GraphWithStep(ops, node.id, seen, key);
      var depNode := FindNodeByObjectKey(key);
      assert nodes[node.id] == node;
      assert depNode != null ==> nodes[depNode.id] == depNode;
      hide Resolve, Mirrors, Indexed, Graphs.Valid, DepsFor;
      if depNode != null {
        AddDependency(node, depNode);
      }
    }

    /** Adds an edge for every key the node's operation depends on. */
    method AddDependencies(node: Node)
      requires Valid() && node in nodes && graph == GraphBelow(ops, node.id)
      modifies this`graph, nodes
      ensures Valid() && graph == GraphBelow(ops, node.id + 1)
    {
      var keys := ListDependencies(node.op);
      ghost var i := node.id;
      assert nodes[i] == node && ops[i] == node.op;
      GraphWithNone(ops, i);
      assert Elems(keys[..0]) == {};
      for k := 0 to |keys|
        invariant Valid() && graph == GraphWith(ops, i, DepsFor(ops, i, Elems(keys[..k])))
      {
        assert Elems(keys[..k + 1]) == Elems(keys[..k]) + {keys[k]};
        AddDependencyOn(node, keys[k], Elems(keys[..k]));
      }
      assert keys[..|keys|] == keys;
      GraphWithAll(ops, i);
    }

    /** `inDegree` holds, for every node, how many of its dependencies are not yet done;
        the nodes in `visited` already count `x` as done. */
    static ghost predicate Counts(nodes: seq<Node>, g: Graph, inDegree: map<Node, int>,
                                  done: set<nat>, x: nat, visited: seq<nat>)
      requires |nodes| == |g.deps|
    {
      forall k :: 0 <= k < |nodes| ==> (
        && nodes[k] in inDegree
        && inDegree[nodes[k]] == |g.deps[k] - (if k in visited then done + {x} else done)|)
    }

    /** The in-degree of every node and the queue of nodes that wait for nothing. */
    method InitialQueue() returns (inDegree: map<Node, int>, queue: seq<Node>)
      requires Valid()
      ensures Counts(nodes, graph, inDegree, {}, 0, [])
      ensures forall k :: 0 <= k < |queue| ==> queue[k] in nodes
      ensures Ids(queue) == Roots(graph, |nodes|)
    {
      inDegree := map[];
      for i := 0 to |nodes|
        invariant forall k :: 0 <= k < i ==> (
          nodes[k] in inDegree && inDegree[nodes[k]] == |graph.deps[k]|)
      {
        assert Mirrors(i);
        DependencyCount(nodes[i].dependencies, nodes);
        inDegree := inDegree[nodes[i] := |nodes[i].dependencies|];
      }
      assert forall s: set<nat> :: s - {} == s;

      queue := [];
      for i := 0 to |nodes|
        invariant forall k :: 0 <= k < |queue| ==> queue[k] in nodes
        invariant Ids(queue) == Roots(graph, i)
      {
        if inDegree[nodes[i]] == 0 {
          IdsAppend(queue, nodes[i]);
          queue := queue + [nodes[i]];
        }
      }
    }

    /** Lowers the in-degree of one dependent of node `x` and queues it if it waits no more. */
    static method VisitDependent(dep: Node, inDegree0: map<Node, int>, queue0: seq<Node>,
                                 ghost nodes: seq<Node>, ghost g: Graph,
                                 ghost base: seq<Node>, ghost more0: seq<Node>,
                                 ghost done: set<nat>, ghost x: nat, ghost m: nat)
      returns (inDegree: map<Node, int>, queue: seq<Node>, ghost more: seq<Node>)
      requires Graphs.Valid(g) && |nodes| == |g.deps| && x < |nodes| && x !in done
      requires m < |g.dependents[x]| && g.dependents[x][m] == dep.id
      requires dep.id < |nodes| && nodes[dep.id] == dep
      requires forall i :: 0 <= i < |nodes| ==> nodes[i].id == i
      requires queue0 == base + more0 && AllIn(more0, nodes)
      requires Ids(more0) == Released(g, done + {x}, g.dependents[x][..m])
      requires Counts(nodes, g, inDegree0, done, x, g.dependents[x][..m])
      ensures queue == base + more && AllIn(more, nodes)
      ensures Ids(more) == Released(g, done + {x}, g.dependents[x][..m + 1])
      ensures Counts(nodes, g, inDegree, done, x, g.dependents[x][..m + 1])
    {
      ghost var waiting := g.dependents[x];
      CountVisited(g, waiting, m, done, x);
      CountDown(nodes, g, inDegree0, done, x, waiting, m);
      inDegree, queue, more := inDegree0[dep := inDegree0[dep] - 1], queue0, more0;
      if inDegree[dep] == 0 {
        IdsAppend(more, dep);
        queue, more := queue + [dep], more + [dep];
      }
    }

    /** Lowers the in-degree of everything that waits for node `x` and queues what waits no more. */
    static method VisitDependents(dependents: seq<Node>, inDegree0: map<Node, int>, queue0: seq<Node>,
                                  ghost nodes: seq<Node>, ghost g: Graph, ghost x: nat, ghost done: set<nat>)
      returns (inDegree: map<Node, int>, queue: seq<Node>)
      requires Graphs.Valid(g) && |nodes| == |g.deps| && x < |nodes| && x !in done
      requires forall i :: 0 <= i < |nodes| ==> nodes[i].id == i
      requires Ids(dependents) == g.dependents[x]
      requires AllIn(dependents, nodes)
      requires Counts(nodes, g, inDegree0, done, 0, [])
      ensures AllIn(queue0, nodes) ==> AllIn(queue, nodes)
      ensures Counts(nodes, g, inDegree, done + {x}, 0, [])
      ensures Ids(queue) == Ids(queue0) + Released(g, done + {x}, g.dependents[x])
    {
      inDegree, queue := inDegree0, queue0;
      ghost var more: seq<Node> := [];
      for m := 0 to |dependents|
        invariant queue == queue0 + more && AllIn(more, nodes)
        invariant Ids(more) == Released(g, done + {x}, g.dependents[x][..m])
        invariant Counts(nodes, g, inDegree, done, x, g.dependents[x][..m])
      {
        var dep := dependents[m];
        assert dep in nodes && Ids(dependents)[m] == dep.id;
        inDegree, queue, more := VisitDependent(dep, inDegree, queue, nodes, g, queue0, more, done, x, m);
      }
      WholeSlice(g.dependents[x]);
      IdsConcat(queue0, more);
      CountedDown(nodes, g, inDegree, done, x);
    }

    static lemma CountDown(nodes: seq<Node>, g: Graph, inDegree: map<Node, int>,
                           done: set<nat>, x: nat, waiting: seq<nat>, m: nat)
      requires |nodes| == |g.deps| && forall i :: 0 <= i < |nodes| ==> nodes[i].id == i
      requires m < |waiting| && waiting[m] < |nodes| && waiting[m] !in waiting[..m]
      requires Counts(nodes, g, inDegree, done, x, waiting[..m])
      requires |g.deps[waiting[m]] - (done + {x})| == |g.deps[waiting[m]] - done| - 1
      ensures nodes[waiting[m]] in inDegree
      ensures var n := nodes[waiting[m]];
        && inDegree[n] - 1 == |g.deps[waiting[m]] - (done + {x})|
        && Counts(nodes, g, inDegree[n := inDegree[n] - 1], done, x, waiting[..m + 1])
    {
      assert waiting[..m + 1] == waiting[..m] + [waiting[m]];
    }

    static lemma CountedDown(nodes: seq<Node>, g: Graph, inDegree: map<Node, int>, done: set<nat>, x: nat)
      requires Graphs.Valid(g) && |nodes| == |g.deps| && x < |nodes|
      requires Counts(nodes, g, inDegree, done, x, g.dependents[x])
      ensures Counts(nodes, g, inDegree, done + {x}, 0, [])
    {
      forall k | 0 <= k < |nodes| && k !in g.dependents[x]
        ensures g.deps[k] - (done + {x}) == g.deps[k] - done
      {
        assert x !in g.deps[k];
      }
    }

    /** What holds before each turn of the sort. */
    static ghost predicate Running(nodes: seq<Node>, ops: seq<Op>, g: Graph,
                                   inDegree: map<Node, int>, queue: seq<Node>, head: nat, result: seq<Op>)
    {
      && |nodes| == |g.deps| == |ops|
      && head <= |queue| <= |nodes|
      && (forall k :: 0 <= k < |queue| ==> queue[k] in nodes)
      && QueueState(g, Ids(queue), head)
      && Counts(nodes, g, inDegree, Elems(Ids(queue)[..head]), 0, [])
      && result == PickOps(ops, Ids(queue)[..head])
    }

    static ghost predicate Finished(ops: seq<Op>, g: Graph, order: seq<nat>, result: seq<Op>) {
      Graphs.Valid(g) && |ops| == |g.deps| && IsSchedule(g, order) && result == PickOps(ops, order)
    }

    static lemma RunFinished(nodes: seq<Node>, ops: seq<Op>, g: Graph,
                             inDegree: map<Node, int>, queue: seq<Node>, result: seq<Op>)
      requires Running(nodes, ops, g, inDegree, queue, |queue|, result)
      ensures Finished(ops, g, Ids(queue), result)
    {
      assert Ids(queue)[..|queue|] == Ids(queue);
    }

    method Start() returns (inDegree: map<Node, int>, queue: seq<Node>)
      requires Valid()
      ensures Valid() && Running(nodes, ops, graph, inDegree, queue, 0, [])
    {
      inDegree, queue := InitialQueue();
      assert Valid();
      QueueStart(graph, Ids(queue));
      assert Elems(Ids(queue)[..0]) == {};
      QueueBounded(graph, Ids(queue), 0);
    }

    /** One turn of the sort. */
    method Visit(inDegree0: map<Node, int>, queue0: seq<Node>, head: nat, result0: seq<Op>)
      returns (inDegree: map<Node, int>, queue: seq<Node>, result: seq<Op>)
      requires Valid() && Running(nodes, ops, graph, inDegree0, queue0, head, result0)
      requires head < |queue0|
      ensures Valid() && Running(nodes, ops, graph, inDegree, queue, head + 1, result)
    {
      ghost var q := Ids(queue0);
      var node := queue0[head];
      ReleasedIsNew(graph, q, head);
      assert Mirrors(node.id);
      inDegree, queue := VisitDependents(node.dependents, inDegree0, queue0,
                                         nodes, graph, node.id, Elems(q[..head]));
      assert Valid();
      VisitNode(graph, q, head, Ids(queue));
      QueueBounded(graph, Ids(queue), head + 1);
      PickOpsVisited(ops, q, Ids(queue), head);
      result := result0 + [node.op];
    }

    /** Polls the context and, unless it is cancelled, takes a turn. */
    method Turn(ctx: Context, inDegree0: map<Node, int>, queue0: seq<Node>, head: nat, result0: seq<Op>)
      returns (err: bool, inDegree: map<Node, int>, queue: seq<Node>, result: seq<Op>)
      requires Valid() && Running(nodes, ops, graph, inDegree0, queue0, head, result0)
      requires head < |queue0|
      modifies ctx
      ensures old(ctx.Cancelled()) ==> ctx.Cancelled()
      ensures err <==> ctx.Cancelled()
      ensures !err ==> Valid() && Running(nodes, ops, graph, inDegree, queue, head + 1, result)
    {
      err := ctx.Err();
      if err {
        inDegree, queue, result := inDegree0, queue0, result0;
      } else {
        assert Valid();
        inDegree, queue, result := Visit(inDegree0, queue0, head, result0);
      }
    }

    /** Visits nodes from the head of the queue until the queue runs dry or `ctx` is cancelled. */
    method Drain(ctx: Context) returns (interrupted: bool, result: seq<Op>, ghost order: seq<nat>)
      requires Valid()
      modifies ctx
      ensures old(ctx.Cancelled()) ==> ctx.Cancelled()
      ensures interrupted ==> ctx.Cancelled()
      ensures !interrupted ==> ctx.Cancelled() == old(ctx.Cancelled())
      ensures !interrupted ==> Finished(ops, graph, order, result)
    {
      var inDegree, queue := Start();
      var head := 0;
      result := [];
      while head < |queue|
        invariant Valid() && Running(nodes, ops, graph, inDegree, queue, head, result)
        invariant ctx.Cancelled() == old(ctx.Cancelled())
        decreases |nodes| - head
      {
        var err;
        err, inDegree, queue, result := Turn(ctx, inDegree, queue, head, result);
        if err {
          return true, result, Ids(queue);
        }
        head := head + 1;
      }
      order := Ids(queue);
      RunFinished(nodes, ops, graph, inDegree, queue, result);
      interrupted := false;
    }

    /** Kahn's sort with a first-in-first-out queue. */
    method GetExecutionOrder(ctx: Context) returns (r: SortResult, ghost order: seq<nat>)
      requires Valid()
      modifies ctx
      ensures old(ctx.Cancelled()) ==> ctx.Cancelled()
      ensures r.Interrupted? ==> ctx.Cancelled()
      ensures !r.Interrupted? ==> ctx.Cancelled() == old(ctx.Cancelled())
      ensures !r.Interrupted? ==> IsSchedule(graph, order) && (r.Ordered? <==> Acyclic(graph))
      ensures r.Ordered? ==> (
        && IsTopologicalOrder(graph, order)
        && |order| == |ops|
        && r.ops == PickOps(ops, order))
    {
      var interrupted, result;
      interrupted, result, order := Drain(ctx);
      if interrupted {
        return Interrupted, order;
      }
      ScheduleFullIffAcyclic(graph, order);
      if |result| != |nodes| {
        return CycleDetected, order;
      }
      return Ordered(result), order;
    }
  }

  // ----- the steps of the sort, on positions

  ghost predicate Queued(g: Graph, q: seq<nat>, head: nat)
    requires Graphs.Valid(g)
  {
    && InRange(g, q) && Distinct(q) && head <= |q|
    && q == Enqueued(g, q, head)
    && (forall k :: 0 <= k < head ==> k < |Enqueued(g, q, k)|)
  }

  /** Exactly the nodes whose dependencies are all visited are in the queue. */
  ghost predicate Ready(g: Graph, q: seq<nat>, done: set<nat>) {
    forall v: nat :: v < |g.deps| ==> (v in q <==> g.deps[v] <= done)
  }

  ghost predicate QueueState(g: Graph, q: seq<nat>, head: nat) {
    && Graphs.Valid(g)
    && Queued(g, q, head)
    && Ready(g, q, Elems(q[..head]))
  }

  lemma QueueStart(g: Graph, q: seq<nat>)
    requires Graphs.Valid(g) && q == Roots(g, |g.deps|)
    ensures QueueState(g, q, 0)
  {
    assert forall i :: 0 <= i < |q| ==> q[i] in q;
    assert q[..0] == [];
  }

  lemma QueueBounded(g: Graph, q: seq<nat>, head: nat)
    requires QueueState(g, q, head)
    ensures |q| <= |g.deps|
  {
    FullOrMissing(|g.deps|, q);
  }

  /** Visiting one dependent lowers its count, to zero exactly when it is released. */
  lemma CountVisited(g: Graph, waiting: seq<nat>, m: nat, done: set<nat>, x: nat)
    requires Graphs.Valid(g) && x < |g.deps| && waiting == g.dependents[x] && m < |waiting|
    requires x !in done
    ensures waiting[m] < |g.deps| && waiting[m] !in waiting[..m]
    ensures |g.deps[waiting[m]] - (done + {x})| == |g.deps[waiting[m]] - done| - 1
    ensures Released(g, done + {x}, waiting[..m + 1]) == Released(g, done + {x}, waiting[..m]) +
      (if |g.deps[waiting[m]] - (done + {x})| == 0 then [waiting[m]] else [])
  {
    var v := waiting[m];
    assert InRange(g, waiting);
    assert v in g.dependents[x];
    assert x in g.deps[v];
    assert g.deps[v] - done == (g.deps[v] - (done + {x})) + {x};
    assert waiting[..m + 1][..m] == waiting[..m];
    if g.deps[v] - (done + {x}) == {} {
      assert g.deps[v] <= done + {x};
    } else {
      assert !(g.deps[v] <= done + {x});
    }
  }

  lemma DistinctConcat<T>(a: seq<T>, b: seq<T>)
    requires Distinct(a) && Distinct(b) && forall i :: 0 <= i < |b| ==> b[i] !in a
    ensures Distinct(a + b)
  {
    forall i, j | 0 <= i < j < |a + b| ensures (a + b)[i] != (a + b)[j] {
      if i < |a| <= j { assert b[j - |a|] !in a; }
    }
  }

  /** What a visit releases was not queued before. */
  lemma ReleasedIsNew(g: Graph, q: seq<nat>, head: nat)
    requires QueueState(g, q, head) && head < |q|
    ensures q[head] !in Elems(q[..head])
    ensures var more := Released(g, Elems(q[..head]) + {q[head]}, g.dependents[q[head]]);
      Distinct(more) && InRange(g, more) && forall i :: 0 <= i < |more| ==> more[i] !in q
  {
    var x, done := q[head], Elems(q[..head]);
    assert Distinct(g.dependents[x]) && InRange(g, g.dependents[x]);
    var more := Released(g, done + {x}, g.dependents[x]);
    forall i | 0 <= i < |more| ensures more[i] < |g.deps| && more[i] !in q {
      assert more[i] in more;
      assert x in g.deps[more[i]];
    }
  }

  lemma StillEnqueued(g: Graph, q: seq<nat>, more: seq<nat>, k: nat)
    requires Graphs.Valid(g) && InRange(g, q) && InRange(g, more) && k <= |q|
    ensures InRange(g, q + more)
    ensures Enqueued(g, q + more, k) == Enqueued(g, q, k)
  {
    assert (q + more)[..k] == q[..k];
    EnqueuedSame(g, q, q + more, k);
  }

  lemma NowEnqueued(g: Graph, q: seq<nat>, head: nat, more: seq<nat>)
    requires Graphs.Valid(g) && InRange(g, q) && InRange(g, more) && head < |q|
    requires q == Enqueued(g, q, head)
    requires more == Released(g, Elems(q[..head + 1]), g.dependents[q[head]])
    ensures InRange(g, q + more) && Enqueued(g, q + more, head + 1) == q + more
  {
    StillEnqueued(g, q, more, head);
    assert (q + more)[..head + 1] == q[..head + 1];
  }

  lemma VisitQueued(g: Graph, q: seq<nat>, head: nat, more: seq<nat>)
    requires Graphs.Valid(g) && Queued(g, q, head) && head < |q|
    requires Distinct(more) && InRange(g, more) && forall i :: 0 <= i < |more| ==> more[i] !in q
    requires more == Released(g, Elems(q[..head + 1]), g.dependents[q[head]])
    ensures Queued(g, q + more, head + 1)
  {
    DistinctConcat(q, more);
    NowEnqueued(g, q, head, more);
    forall k | 0 <= k <= head ensures k < |Enqueued(g, q + more, k)| {
      StillEnqueued(g, q, more, k);
    }
  }

  lemma VisitReady(g: Graph, q: seq<nat>, done: set<nat>, x: nat)
    requires Graphs.Valid(g) && x < |g.deps| && Ready(g, q, done)
    ensures Ready(g, q + Released(g, done + {x}, g.dependents[x]), done + {x})
  {
    var more := Released(g, done + {x}, g.dependents[x]);
    forall v: nat | v < |g.deps| ensures v in q + more <==> g.deps[v] <= done + {x} {
      assert v in q + more <==> v in q || v in more;
      if g.deps[v] <= done + {x} && !(g.deps[v] <= done) {
        assert x in g.deps[v];
      }
    }
  }

  /** One visit: the queue grows by what the visited node releases. */
  lemma VisitNode(g: Graph, q: seq<nat>, head: nat, q': seq<nat>)
    requires QueueState(g, q, head) && head < |q|
    requires q' == q + Released(g, Elems(q[..head]) + {q[head]}, g.dependents[q[head]])
    ensures QueueState(g, q', head + 1)
    ensures Elems(q'[..head + 1]) == Elems(q[..head]) + {q[head]}
  {
    var x, done := q[head], Elems(q[..head]);
    assert q[..head + 1] == q[..head] + [x];
    assert Elems(q[..head + 1]) == done + {x};
    assert q'[..head + 1] == q[..head + 1];
    ReleasedIsNew(g, q, head);
    VisitQueued(g, q, head, Released(g, done + {x}, g.dependents[x]));
    VisitReady(g, q, done, x);
  }

  lemma PickOpsVisited(ops: seq<Op>, before: seq<nat>, after: seq<nat>, head: nat)
    requires head < |before| && before <= after
    requires forall k :: 0 <= k < |before| ==> before[k] < |ops|
    ensures forall k :: 0 <= k <= head ==> after[k] < |ops|
    ensures PickOps(ops, after[..head + 1]) == PickOps(ops, before[..head]) + [ops[before[head]]]
  {
    assert forall k :: 0 <= k <= head ==> after[k] == before[k];
  }

  lemma DependencyCount(s: seq<Node>, nodes: seq<Node>)
    requires Distinct(s) && forall n :: n in s ==> n in nodes
    requires forall i :: 0 <= i < |nodes| ==> nodes[i].id == i
    ensures |Elems(Ids(s))| == |s|
  {
    forall i, j | 0 <= i < j < |s| ensures Ids(s)[i] != Ids(s)[j] {
      assert s[i] in nodes && s[j] in nodes;
    }
    DistinctCount(Ids(s));
  }

  // ----- the steps of building the graph, on positions

  lemma {:induction false} PreferFirstDrop(ops: seq<Op>, matches: seq<nat>, k: nat)
    requires forall m :: 0 <= m < |matches| ==> matches[m] < |ops|
    requires k < |matches| && ops[matches[k]].Kind() == DropConstraint
    requires forall m :: 0 <= m < k ==> ops[matches[m]].Kind() != DropConstraint
    ensures Prefer(ops, matches) == Some(matches[k])
    decreases k
  {
    if k > 0 { PreferFirstDrop(ops, matches[1..], k - 1); }
  }

  lemma {:induction false} PreferNoDrop(ops: seq<Op>, matches: seq<nat>)
    requires forall m :: 0 <= m < |matches| ==> matches[m] < |ops|
    requires matches != []
    requires forall m :: 0 <= m < |matches| ==> ops[matches[m]].Kind() != DropConstraint
    ensures Prefer(ops, matches) == Some(matches[0])
  {
    var later := Prefer(ops, matches[1..]);
    assert later.Some? ==> later.value in matches[1..];
  }

  /** The graph while the dependencies of operation `i` are being added: it has `found` so far. */
  ghost function GraphWith(ops: seq<Op>, i: nat, found: set<nat>): Graph
    requires i < |ops|
  {
    var g := GraphBelow(ops, i);
    Graph(g.deps[i := found],
          seq(|ops|, j requires 0 <= j < |ops| =>
            if j in found then g.dependents[j] + [i] else g.dependents[j]))
  }

  lemma GraphWithNone(ops: seq<Op>, i: nat)
    requires i < |ops|
    ensures GraphBelow(ops, i) == GraphWith(ops, i, DepsFor(ops, i, {}))
  {
    assert DepsFor(ops, i, {}) == {};
    assert GraphBelow(ops, i).deps[i := {}] == GraphBelow(ops, i).deps;
    assert GraphWith(ops, i, {}).dependents == GraphBelow(ops, i).dependents;
  }

  lemma DepsForStep(ops: seq<Op>, i: nat, keys: set<ObjectKey>, key: ObjectKey)
    ensures DepsFor(ops, i, keys + {key}) == DepsFor(ops, i, keys) +
      (if Resolve(ops, key).None? || Resolve(ops, key).value == i then {} else {Resolve(ops, key).value})
  {
  }

  lemma GraphWithEdge(ops: seq<Op>, i: nat, found: set<nat>, j: nat)
    requires i < |ops| && j < |ops| && j !in found
    ensures GraphWith(ops, i, found + {j}) == WithEdge(GraphWith(ops, i, found), i, j)
  {
    var g, h := WithEdge(GraphWith(ops, i, found), i, j), GraphWith(ops, i, found + {j});
    assert g.deps == h.deps;
    assert g.dependents == h.dependents;
  }

  lemma GraphWithStep(ops: seq<Op>, i: nat, keys: set<ObjectKey>, key: ObjectKey)
    requires i < |ops|
    ensures var found := DepsFor(ops, i, keys);
      var r := Resolve(ops, key);
      GraphWith(ops, i, DepsFor(ops, i, keys + {key})) ==
        if r.None? || r.value == i || r.value in found then GraphWith(ops, i, found)
        else WithEdge(GraphWith(ops, i, found), i, r.value)
  {
    var found := DepsFor(ops, i, keys);
    var r := Resolve(ops, key);
    DepsForStep(ops, i, keys, key);
    if r.None? || r.value == i || r.value in found {
      assert DepsFor(ops, i, keys + {key}) == found;
    } else {
      GraphWithEdge(ops, i, found, r.value);
    }
  }

  lemma GraphWithAll(ops: seq<Op>, i: nat)
    requires i < |ops|
    ensures GraphWith(ops, i, DepsOf(ops, i)) == GraphBelow(ops, i + 1)
  {
    var g, h := GraphWith(ops, i, DepsOf(ops, i)), GraphBelow(ops, i + 1);
    assert g.deps == h.deps;
    assert g.dependents == h.dependents;
  }

  // ----- building and sorting

  method BuildDAG(ops: seq<Op>) returns (dag: DAG)
    ensures fresh(dag) && fresh(dag.nodes) && dag.Valid()
    ensures dag.ops == ops && dag.graph == GraphOf(ops)
  {
    dag := new DAG();
    for i := 0 to |ops|
      invariant fresh(dag) && fresh(dag.nodes) && dag.Valid()
      invariant dag.ops == ops[..i]
      invariant dag.graph == Graph(seq(i, _ => {}), seq(i, _ => []))
    {
      var _ := dag.AddNode(ops[i]);
    }
    assert ops[..|ops|] == ops;
    GraphBelowStart(ops);
    var nodes := dag.nodes;
    for i := 0 to |nodes|
      invariant fresh(dag) && fresh(dag.nodes) && dag.Valid() && dag.nodes == nodes
      invariant dag.ops == ops && dag.graph == GraphBelow(ops, i)
    {
      dag.AddDependencies(nodes[i]);
    }
  }

  lemma GraphBelowStart(ops: seq<Op>)
    ensures GraphBelow(ops, 0) == Graph(seq(|ops|, _ => {}), seq(|ops|, _ => []))
  {
    assert GraphBelow(ops, 0).deps == seq(|ops|, _ => {});
    assert GraphBelow(ops, 0).dependents == seq(|ops|, _ => []);
  }

  /** `order` is how TopoSort schedules `ops`. */
  ghost predicate IsSortOrder(ops: seq<Op>, order: seq<nat>) {
    && |order| == |ops|
    && (forall k :: 0 <= k < |order| ==> order[k] < |ops|)
    && Graphs.Valid(GraphOf(ops))
    && IsSchedule(GraphOf(ops), order)
  }

  /** `sorted` is what TopoSort makes of `ops`. */
  ghost predicate IsSorted(ops: seq<Op>, sorted: seq<Op>) {
    exists order :: IsSortOrder(ops, order) && sorted == PickOps(ops, order)
  }

  method TopoSort(ctx: Context, ops: seq<Op>) returns (r: SortResult)
    modifies ctx
    ensures old(ctx.Cancelled()) ==> ctx.Cancelled()
    ensures r.Interrupted? ==> ctx.Cancelled()
    ensures !r.Interrupted? ==> ctx.Cancelled() == old(ctx.Cancelled())
    ensures r.CycleDetected? ==> !Acyclic(GraphOf(ops))
    ensures r.Ordered? ==> Acyclic(GraphOf(ops)) && IsSorted(ops, r.ops)
  {
    hide Acyclic, IsSchedule;
    var dag := BuildDAG(ops);
    ghost var order;
    r, order := dag.GetExecutionOrder(ctx);
    GraphBelowValid(ops, |ops|);
    if r.Ordered? {
      FullOrMissing(|ops|, order);
      assert IsSortOrder(ops, order);
    }
  }
}
