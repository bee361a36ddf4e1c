/** Dependency graphs and the order in which a first-in-first-out Kahn sort visits them.
    Nodes are positions in the list of operations.  Everything here is pure: module Dag
    connects the linked nodes of the planner to these definitions. */
module Graphs {

  /** `deps[i]` are the nodes that node `i` depends on; `dependents[j]` lists, in the order in
      which the edges were added, the nodes that depend on `j`. */
  datatype Graph = Graph(deps: seq<set<nat>>, dependents: seq<seq<nat>>)

  ghost predicate Distinct<T>(s: seq<T>) {
    forall i, j :: 0 <= i < j < |s| ==> s[i] != s[j]
  }

  ghost predicate Ascending(s: seq<nat>) {
    forall i, j :: 0 <= i < j < |s| ==> s[i] < s[j]
  }

  ghost function Elems<T>(s: seq<T>): set<T> {
    set x | x in s
  }

  ghost predicate Valid(g: Graph) {
    && |g.dependents| == |g.deps|
    && (forall i: nat, j: nat :: i < |g.deps| && j in g.deps[i] ==> j < |g.deps|)
    && (forall j: nat, i: nat :: j < |g.deps| ==>
          (i in g.dependents[j] <==> i < |g.deps| && j in g.deps[i]))
    && (forall j :: 0 <= j < |g.deps| ==>
          Distinct(g.dependents[j]) && InRange(g, g.dependents[j]))
  }

  /** The dependents of every node are listed in input order. */
  ghost predicate InputOrdered(g: Graph) {
    forall j :: 0 <= j < |g.dependents| ==> Ascending(g.dependents[j])
  }

  lemma AscendingPlaces(s: seq<nat>, i: nat, j: nat)
    requires Ascending(s) && i < |s| && j < |s| && s[i] < s[j]
    ensures i < j
  {
  }

  // ----- schedules: what a FIFO queue contains

  ghost predicate InRange(g: Graph, q: seq<nat>) {
    forall i :: 0 <= i < |q| ==> q[i] < |g.deps|
  }

  /** The numbers below `n` that satisfy `p`, in ascending order. */
  ghost function Below(n: nat, p: nat -> bool): (r: seq<nat>)
    ensures forall v: nat :: v in r <==> v < n && p(v)
    ensures Ascending(r)
  {
    if n == 0 then [] else
    var rest := Below(n - 1, p);
    assert forall i :: 0 <= i < |rest| ==> rest[i] in rest;
    if p(n - 1) then rest + [n - 1] else rest
  }

  ghost predicate IsRoot(g: Graph, v: nat) {
    v < |g.deps| && g.deps[v] == {}
  }

  /** The nodes below `n` without dependencies, in input order. */
  ghost function Roots(g: Graph, n: nat): seq<nat> {
    Below(n, (v: nat) => IsRoot(g, v))
  }

  /** The candidates, in their order, whose dependencies are all done. */
  ghost function Released(g: Graph, done: set<nat>, candidates: seq<nat>): (r: seq<nat>)
    requires InRange(g, candidates)
    ensures forall v: nat :: v in r <==> v in candidates && g.deps[v] <= done
    ensures Ascending(candidates) ==> Ascending(r)
    ensures Distinct(candidates) ==> Distinct(r)
  {
    if candidates == [] then [] else
    var rest := Released(g, done, candidates[..|candidates| - 1]);
    var v := candidates[|candidates| - 1];
    assert forall w: nat :: w in candidates <==> w in candidates[..|candidates| - 1] || w == v;
    assert forall i :: 0 <= i < |rest| ==> rest[i] in rest;
    if g.deps[v] <= done then rest + [v] else rest
  }

  /** The queue after its first `k` nodes have been visited: the roots, then what each visited
      node released, in the order of the visits. */
  ghost function Enqueued(g: Graph, q: seq<nat>, k: nat): seq<nat>
    requires Valid(g) && InRange(g, q) && k <= |q|
  {
    if k == 0 then Roots(g, |g.deps|)
    else Enqueued(g, q, k - 1) + Released(g, Elems(q[..k]), g.dependents[q[k - 1]])
  }

  /** The queue never runs dry before `q` ends, and `q` is everything that was ever enqueued. */
  ghost predicate Flows(g: Graph, q: seq<nat>)
    requires Valid(g)
  {
    && InRange(g, q)
    && (forall k :: 0 <= k < |q| ==> k < |Enqueued(g, q, k)|)
    && q == Enqueued(g, q, |q|)
  }

  /** `q` is the order in which a FIFO Kahn sort of `g` visits nodes. */
  ghost predicate IsSchedule(g: Graph, q: seq<nat>)
    requires Valid(g)
  {
    Distinct(q) && Flows(g, q)
  }

  // ----- cycles

  ghost predicate IsWalk(g: Graph, p: seq<nat>) {
    && InRange(g, p)
    && (forall i :: 0 <= i < |p| - 1 ==> p[i + 1] in g.deps[p[i]])
  }

  ghost predicate IsCycle(g: Graph, p: seq<nat>) {
    |p| >= 2 && IsWalk(g, p) && p[0] == p[|p| - 1]
  }

  ghost predicate Acyclic(g: Graph) {
    forall p :: !IsCycle(g, p)
  }

  /** Every node occurs once, after everything it depends on. */
  ghost predicate IsTopologicalOrder(g: Graph, q: seq<nat>) {
    && InRange(g, q)
    && Distinct(q)
    && (forall v: nat :: v < |g.deps| ==> v in q)
    && (forall p: nat, d: nat :: p < |q| && d in g.deps[q[p]] ==> d in q[..p])
  }

  // ----- counting

  lemma {:induction false} DistinctCount<T>(s: seq<T>)
    requires Distinct(s)
    ensures |Elems(s)| == |s|
  {
    if s == [] {
      assert Elems(s) == {};
    } else {
      var init, x := s[..|s| - 1], s[|s| - 1];
      DistinctCount(init);
      assert Elems(s) == Elems(init) + {x};
      assert x !in init;
    }
  }

  ghost function Numbers(n: nat): (s: set<nat>)
    ensures |s| == n && forall v: nat :: v in s <==> v < n
  {
    if n == 0 then {} else Numbers(n - 1) + {n - 1}
  }

  lemma SubsetCount<T>(a: set<T>, b: set<T>)
    requires a <= b
    ensures |a| <= |b|
    ensures |a| == |b| ==> a == b
  {
    assert b == a + (b - a);
    assert |b| == |a| + |b - a|;
  }

  /** A duplicate-free list of nodes misses a node exactly when it is short. */
  lemma FullOrMissing(n: nat, q: seq<nat>)
    requires Distinct(q) && forall i :: 0 <= i < |q| ==> q[i] < n
    ensures |q| <= n
    ensures |q| == n <==> forall v: nat :: v < n ==> v in q
  {
    DistinctCount(q);
    assert Elems(q) <= Numbers(n);
    SubsetCount(Elems(q), Numbers(n));
    if forall v: nat :: v < n ==> v in q {
      assert Elems(q) == Numbers(n);
    }
    if |q| == n {
      forall v: nat | v < n ensures v in q { assert v in Numbers(n); assert v in Elems(q); }
    }
  }

  // ----- schedules visit dependencies first, and miss only nodes on or behind a cycle

  lemma {:induction false} EnqueuedPrefix(g: Graph, q: seq<nat>, k: nat, m: nat)
    requires Valid(g) && InRange(g, q) && k <= m <= |q|
    ensures Enqueued(g, q, k) <= Enqueued(g, q, m)
    decreases m
  {
    if k < m { EnqueuedPrefix(g, q, k, m - 1); }
  }

  /** The next node to visit is already in the queue. */
  lemma NextIsQueued(g: Graph, q: seq<nat>, k: nat)
    requires Valid(g) && Flows(g, q) && k < |q|
    ensures k < |Enqueued(g, q, k)| && q[k] == Enqueued(g, q, k)[k]
  {
    EnqueuedPrefix(g, q, k, |q|);
  }

  lemma PrefixElems(q: seq<nat>, a: nat, b: nat)
    requires a <= b <= |q|
    ensures Elems(q[..a]) <= Elems(q[..b])
  {
    forall x | x in q[..a] ensures x in q[..b] {
      var i :| 0 <= i < a && q[..a][i] == x;
      assert q[..b][i] == x;
    }
  }

  lemma ReleasedAfterDeps(g: Graph, q: seq<nat>, k: nat, p: nat)
    requires Valid(g) && InRange(g, q) && 0 < k <= p < |q|
    requires |Enqueued(g, q, k - 1)| <= p < |Enqueued(g, q, k)| && Enqueued(g, q, k) <= q
    ensures g.deps[q[p]] <= Elems(q[..p])
  {
    var r := Released(g, Elems(q[..k]), g.dependents[q[k - 1]]);
    assert r[p - |Enqueued(g, q, k - 1)|] == q[p];
    assert q[p] in r;
    PrefixElems(q, k, p);
  }

  lemma RootHasNoDeps(g: Graph, v: nat, p: nat)
    requires p < |Roots(g, |g.deps|)| && Roots(g, |g.deps|)[p] == v
    ensures v < |g.deps| && g.deps[v] == {}
  {
    assert v in Roots(g, |g.deps|);
    assert IsRoot(g, v);
  }

  /** The visit that enqueues the node at place `p`. */
  lemma {:induction false} EntryStep(g: Graph, q: seq<nat>, k: nat, p: nat) returns (s: nat)
    requires Valid(g) && InRange(g, q) && k <= |q| && p < |Enqueued(g, q, k)|
    ensures s <= k && p < |Enqueued(g, q, s)|
    ensures s > 0 ==> |Enqueued(g, q, s - 1)| <= p
    decreases k
  {
    if k > 0 && p < |Enqueued(g, q, k - 1)| {
      s := EntryStep(g, q, k - 1, p);
    } else {
      s := k;
    }
  }

  /** The dependencies of every scheduled node come before it. */
  lemma EnqueuedAfterDeps(g: Graph, q: seq<nat>, p: nat)
    requires Valid(g) && Flows(g, q) && p < |q|
    ensures g.deps[q[p]] <= Elems(q[..p])
  {
    var s := EntryStep(g, q, |q|, p);
    EnqueuedPrefix(g, q, s, |q|);
    if s == 0 {
      RootHasNoDeps(g, q[p], p);
    } else {
      NextIsQueued(g, q, s - 1);
      ReleasedAfterDeps(g, q, s, p);
    }
  }

  /** A node is scheduled as soon as its dependencies are. */
  lemma {:induction false} ReadyIsScheduled(g: Graph, q: seq<nat>, v: nat, k: nat)
    requires Valid(g) && Flows(g, q) && v < |g.deps| && k <= |q|
    requires g.deps[v] <= Elems(q[..k])
    ensures v in q
    decreases k
  {
    if k == 0 {
      assert q[..0] == [];
      assert v in Roots(g, |g.deps|);
      EnqueuedPrefix(g, q, 0, |q|);
    } else if g.deps[v] <= Elems(q[..k - 1]) {
      ReadyIsScheduled(g, q, v, k - 1);
    } else {
      assert forall d: nat :: d in q[..k] <==> d in q[..k - 1] || d == q[k - 1];
      assert q[k - 1] in g.deps[v];
      assert v in g.dependents[q[k - 1]];
      assert v in Released(g, Elems(q[..k]), g.dependents[q[k - 1]]);
      assert v in Enqueued(g, q, k);
      EnqueuedPrefix(g, q, k, |q|);
    }
  }

  lemma FullScheduleIsTopological(g: Graph, q: seq<nat>)
    requires Valid(g) && IsSchedule(g, q) && |q| == |g.deps|
    ensures IsTopologicalOrder(g, q)
  {
    FullOrMissing(|g.deps|, q);
    forall p: nat, d: nat | p < |q| && d in g.deps[q[p]] ensures d in q[..p] {
      EnqueuedAfterDeps(g, q, p);
      assert d in Elems(q[..p]);
    }
  }

  /** Along a walk, positions in a topological order strictly decrease. */
  lemma {:induction false} WalkDescends(g: Graph, q: seq<nat>, p: seq<nat>, i: nat) returns (at: nat)
    requires IsTopologicalOrder(g, q) && IsWalk(g, p) && i < |p|
    ensures at < |q| && q[at] == p[i]
    ensures i > 0 ==> p[0] in q[at + 1..]
    decreases i
  {
    if i == 0 {
      assert p[0] in q;
      at :| 0 <= at < |q| && q[at] == p[0];
    } else {
      var before := WalkDescends(g, q, p, i - 1);
      assert p[i - 1 + 1] in g.deps[p[i - 1]];
      assert p[i] in q[..before];
      at :| 0 <= at < before && q[at] == p[i];
      assert q[before] in q[at + 1..] by { assert q[at + 1..][before - at - 1] == q[before]; }
      if i > 1 {
        var j :| 0 <= j < |q[before + 1..]| && q[before + 1..][j] == p[0];
        assert q[at + 1..][before + j - at] == p[0];
      }
    }
  }

  lemma TopologicalOrderMeansAcyclic(g: Graph, q: seq<nat>)
    requires IsTopologicalOrder(g, q)
    ensures Acyclic(g)
  {
    forall p ensures !IsCycle(g, p) {
      if IsCycle(g, p) {
        var at := WalkDescends(g, q, p, |p| - 1);
        assert false;
      }
    }
  }

  /** Outside a schedule every node has a dependency outside it, so a walk there never ends. */
  lemma {:induction false} StuckWalk(g: Graph, q: seq<nat>, len: nat) returns (p: seq<nat>)
    requires Valid(g) && IsSchedule(g, q) && |q| < |g.deps| && len > 0
    ensures |p| == len && IsWalk(g, p) && forall v: nat :: v in p ==> v !in q
  {
    if len == 1 {
      FullOrMissing(|g.deps|, q);
      var v: nat :| v < |g.deps| && v !in q;
      p := [v];
    } else {
      var shorter := StuckWalk(g, q, len - 1);
      var last := shorter[|shorter| - 1];
      assert last in shorter;
      assert q[..|q|] == q;
      if g.deps[last] <= Elems(q) {
        ReadyIsScheduled(g, q, last, |q|);
        assert false;
      }
      var next :| next in g.deps[last] && next !in Elems(q);
      p := shorter + [next];
    }
  }

  lemma Pigeonhole(n: nat, p: seq<nat>) returns (i: nat, j: nat)
    requires (forall i :: 0 <= i < |p| ==> p[i] < n) && |p| > n
    ensures i < j < |p| && p[i] == p[j]
  {
    if Distinct(p) {
      FullOrMissing(n, p);
      assert false;
    }
    i, j :| 0 <= i < j < |p| && p[i] == p[j];
  }

  lemma ShortScheduleMeansCycle(g: Graph, q: seq<nat>)
    requires Valid(g) && IsSchedule(g, q) && |q| < |g.deps|
    ensures !Acyclic(g)
  {
    var p := StuckWalk(g, q, |g.deps| + 1);
    var i, j := Pigeonhole(|g.deps|, p);
    var c := p[i..j + 1];
    assert forall k :: 0 <= k < |c| ==> c[k] == p[i + k];
    assert IsCycle(g, c);
  }

  /** A FIFO Kahn sort visits every node if and only if the graph has no cycle. */
  lemma ScheduleFullIffAcyclic(g: Graph, q: seq<nat>)
    requires Valid(g) && IsSchedule(g, q)
    ensures |q| == |g.deps| <==> Acyclic(g)
    ensures |q| == |g.deps| ==> IsTopologicalOrder(g, q)
  {
    FullOrMissing(|g.deps|, q);
    if |q| == |g.deps| {
      FullScheduleIsTopological(g, q);
      TopologicalOrderMeansAcyclic(g, q);
    } else {
      ShortScheduleMeansCycle(g, q);
    }
  }

  // ----- determinism and stability

  lemma ShorterPrefix<T>(q: seq<T>, r: seq<T>, k: nat)
    requires 0 < k <= |q| && k <= |r| && q[..k] == r[..k]
    ensures q[..k - 1] == r[..k - 1] && q[k - 1] == r[k - 1]
  {
    assert q[..k][..k - 1] == q[..k - 1] && r[..k][..k - 1] == r[..k - 1];
    assert q[..k][k - 1] == q[k - 1] && r[..k][k - 1] == r[k - 1];
  }

  lemma LongerPrefix<T>(q: seq<T>, r: seq<T>, k: nat)
    requires 0 < k <= |q| && k <= |r| && q[..k - 1] == r[..k - 1] && q[k - 1] == r[k - 1]
    ensures q[..k] == r[..k]
  {
    assert q[..k] == q[..k - 1] + [q[k - 1]];
    assert r[..k] == r[..k - 1] + [r[k - 1]];
  }

  /** What the first `k` visits enqueue does not depend on what follows them. */
  lemma {:induction false} EnqueuedSame(g: Graph, q: seq<nat>, r: seq<nat>, k: nat)
    requires Valid(g) && InRange(g, q) && InRange(g, r) && k <= |q| && k <= |r|
    requires q[..k] == r[..k]
    ensures Enqueued(g, q, k) == Enqueued(g, r, k)
    decreases k
  {
    if k > 0 {
      ShorterPrefix(q, r, k);
      EnqueuedSame(g, q, r, k - 1);
    }
  }

  lemma {:induction false} SchedulesAgree(g: Graph, q: seq<nat>, r: seq<nat>, k: nat)
    requires Valid(g) && Flows(g, q) && Flows(g, r) && k <= |q| && k <= |r|
    ensures q[..k] == r[..k]
    decreases k
  {
    if k > 0 {
      SchedulesAgree(g, q, r, k - 1);
      EnqueuedSame(g, q, r, k - 1);
      NextIsQueued(g, q, k - 1);
      NextIsQueued(g, r, k - 1);
      LongerPrefix(q, r, k);
    }
  }

  /** The graph determines the order completely. */
  lemma ScheduleUnique(g: Graph, q: seq<nat>, r: seq<nat>)
    requires Valid(g) && IsSchedule(g, q) && IsSchedule(g, r)
    ensures q == r
  {
    var k := if |q| <= |r| then |q| else |r|;
    SchedulesAgree(g, q, r, k);
    EnqueuedSame(g, q, r, k);
    if |q| < |r| {
      NextIsQueued(g, r, k);
    } else if |r| < |q| {
      NextIsQueued(g, q, k);
    }
    assert q[..k] == q && r[..k] == r;
  }

  /** `u` comes somewhere before `v`. */
  ghost predicate Precedes(q: seq<nat>, u: nat, v: nat) {
    exists i, j :: 0 <= i < j < |q| && q[i] == u && q[j] == v
  }

  /** Nodes without dependencies come first, in input order. */
  lemma RootsLead(g: Graph, q: seq<nat>)
    requires Valid(g) && Flows(g, q)
    ensures Roots(g, |g.deps|) <= q
  {
    EnqueuedPrefix(g, q, 0, |q|);
  }

  lemma RootPrecedes(g: Graph, q: seq<nat>, u: nat, v: nat)
    requires Valid(g) && Flows(g, q) && v in q && u < |g.deps|
    requires g.deps[u] == {} && (g.deps[v] == {} ==> u < v) && u != v
    ensures Precedes(q, u, v)
  {
    RootsLead(g, q);
    var roots := Roots(g, |g.deps|);
    assert IsRoot(g, u) && u in roots;
    var i :| 0 <= i < |roots| && roots[i] == u;
    var j :| 0 <= j < |q| && q[j] == v;
    if j < |roots| {
      RootHasNoDeps(g, v, j);
      AscendingPlaces(roots, i, j);
    }
    assert q[i] == u && i < j;
  }

  /** The step that releases a node with dependencies, and the place it gets there. */
  lemma {:induction false} ReleaseStep(g: Graph, q: seq<nat>, v: nat, k: nat) returns (s: nat)
    requires Valid(g) && Flows(g, q) && k <= |q|
    requires v < |g.deps| && g.deps[v] != {} && g.deps[v] <= Elems(q[..k])
    ensures 0 < s <= k && g.deps[v] <= Elems(q[..s]) && !(g.deps[v] <= Elems(q[..s - 1]))
    ensures v in Released(g, Elems(q[..s]), g.dependents[q[s - 1]])
    decreases k
  {
    assert q[..0] == [];
    if k == 0 {
      assert false;
    } else if g.deps[v] <= Elems(q[..k - 1]) {
      s := ReleaseStep(g, q, v, k - 1);
    } else {
      assert forall d: nat :: d in q[..k] <==> d in q[..k - 1] || d == q[k - 1];
      assert q[k - 1] in g.deps[v];
      s := k;
    }
  }

  lemma SameStep(g: Graph, q: seq<nat>, u: nat, v: nat, s: nat, s': nat)
    requires u < |g.deps| && v < |g.deps| && g.deps[u] == g.deps[v]
    requires 0 < s <= |q| && 0 < s' <= |q|
    requires g.deps[u] <= Elems(q[..s]) && !(g.deps[u] <= Elems(q[..s - 1]))
    requires g.deps[v] <= Elems(q[..s']) && !(g.deps[v] <= Elems(q[..s' - 1]))
    ensures s == s'
  {
    PrefixElems(q, s, if s < s' then s' - 1 else s);
    PrefixElems(q, s', if s' < s then s - 1 else s');
  }

  lemma AscendingBlock(q: seq<nat>, before: seq<nat>, block: seq<nat>, u: nat, v: nat)
    requires before + block <= q && Ascending(block) && u in block && v in block && u < v
    ensures Precedes(q, u, v)
  {
    var i :| 0 <= i < |block| && block[i] == u;
    var j :| 0 <= j < |block| && block[j] == v;
    AscendingPlaces(block, i, j);
    assert (before + block)[|before| + i] == u && (before + block)[|before| + j] == v;
    assert q[|before| + i] == u && q[|before| + j] == v;
  }

  lemma ReleasedTogether(g: Graph, q: seq<nat>, u: nat, v: nat, s: nat)
    requires Valid(g) && InputOrdered(g) && Flows(g, q) && 0 < s <= |q| && u < v
    requires u in Released(g, Elems(q[..s]), g.dependents[q[s - 1]])
    requires v in Released(g, Elems(q[..s]), g.dependents[q[s - 1]])
    ensures Precedes(q, u, v)
  {
    EnqueuedPrefix(g, q, s, |q|);
    AscendingBlock(q, Enqueued(g, q, s - 1), Released(g, Elems(q[..s]), g.dependents[q[s - 1]]), u, v);
  }

  /** Operations that wait for the same things keep their input order. */
  lemma EqualDependenciesKeepOrder(g: Graph, q: seq<nat>, u: nat, v: nat)
    requires Valid(g) && InputOrdered(g) && Flows(g, q) && u in q && v in q
    requires u < v && g.deps[u] == g.deps[v]
    ensures Precedes(q, u, v)
  {
    if g.deps[u] == {} {
      RootPrecedes(g, q, u, v);
    } else {
      var at :| 0 <= at < |q| && q[at] == u;
      EnqueuedAfterDeps(g, q, at);
      var s := ReleaseStep(g, q, u, at);
      var s' := ReleaseStep(g, q, v, at);
      SameStep(g, q, u, v, s, s');
      ReleasedTogether(g, q, u, v, s);
    }
  }

  ghost function UpTo(n: nat): (s: seq<nat>)
    ensures |s| == n && forall i :: 0 <= i < n ==> s[i] == i
  {
    seq(n, i => i)
  }

  lemma {:induction false} AllRoots(g: Graph, n: nat)
    requires n <= |g.deps| && forall v: nat :: v < n ==> g.deps[v] == {}
    ensures Roots(g, n) == UpTo(n)
  {
    if n > 0 { AllRoots(g, n - 1); }
  }

  /** Without edges the input order is kept. */
  lemma NoEdgesUnchanged(g: Graph, q: seq<nat>)
    requires Valid(g) && IsSchedule(g, q) && forall v: nat :: v < |g.deps| ==> g.deps[v] == {}
    ensures q == UpTo(|g.deps|)
  {
    AllRoots(g, |g.deps|);
    RootsLead(g, q);
    FullOrMissing(|g.deps|, q);
  }

  // ----- exact precedence

  lemma NotBoth(q: seq<nat>, u: nat, v: nat)
    requires Distinct(q) && Precedes(q, u, v)
    ensures u != v && !Precedes(q, v, u)
  {
    var i, j :| 0 <= i < j < |q| && q[i] == u && q[j] == v;
    forall k, m | 0 <= k < m < |q| ensures !(q[k] == v && q[m] == u) {
    }
  }

  /** A node without dependencies precedes all that have some and those behind it in the input. */
  lemma RootOrder(g: Graph, q: seq<nat>, u: nat, v: nat)
    requires Valid(g) && IsSchedule(g, q) && u in q && v in q && u != v
    requires g.deps[u] == {} || g.deps[v] == {}
    ensures Precedes(q, u, v) <==> g.deps[u] == {} && (g.deps[v] == {} ==> u < v)
  {
    hide Flows, Precedes, Distinct;
    InSchedule(g, q, u);
    InSchedule(g, q, v);
    if g.deps[u] == {} && (g.deps[v] == {} ==> u < v) {
      RootPrecedes(g, q, u, v);
    } else {
      RootPrecedes(g, q, v, u);
      NotBoth(q, v, u);
    }
  }

  lemma InSchedule(g: Graph, q: seq<nat>, v: nat)
    requires Valid(g) && Flows(g, q) && v in q
    ensures v < |g.deps|
  {
  }

  /** What an earlier visit releases comes before what a later one does. */
  lemma ReleasedEarlier(g: Graph, q: seq<nat>, u: nat, v: nat, s: nat, s': nat)
    requires Valid(g) && Flows(g, q) && 0 < s < s' <= |q|
    requires u in Released(g, Elems(q[..s]), g.dependents[q[s - 1]])
    requires v in Released(g, Elems(q[..s']), g.dependents[q[s' - 1]])
    ensures Precedes(q, u, v)
  {
    hide Flows, Enqueued, Released, InRange;
    FlowsAll(g, q);
    EnqueuedStep(g, q, s);
    EnqueuedStep(g, q, s');
    EnqueuedPrefix(g, q, s, s' - 1);
    EnqueuedPrefix(g, q, s', |q|);
    TwoBlocks(q, Enqueued(g, q, s - 1), Released(g, Elems(q[..s]), g.dependents[q[s - 1]]),
              Enqueued(g, q, s' - 1), Released(g, Elems(q[..s']), g.dependents[q[s' - 1]]), u, v);
  }

  lemma FlowsAll(g: Graph, q: seq<nat>)
    requires Valid(g) && Flows(g, q)
    ensures InRange(g, q) && q == Enqueued(g, q, |q|)
  {
  }

  lemma EnqueuedStep(g: Graph, q: seq<nat>, k: nat)
    requires Valid(g) && InRange(g, q) && 0 < k <= |q|
    ensures Enqueued(g, q, k) == Enqueued(g, q, k - 1) + Released(g, Elems(q[..k]), g.dependents[q[k - 1]])
  {
  }

  lemma TwoBlocks(q: seq<nat>, a: seq<nat>, x: seq<nat>, b: seq<nat>, y: seq<nat>, u: nat, v: nat)
    requires a + x <= b && b + y <= q && u in x && v in y
    ensures Precedes(q, u, v)
  {
    var i :| 0 <= i < |x| && x[i] == u;
    var j :| 0 <= j < |y| && y[j] == v;
    assert (a + x)[|a| + i] == u && b[|a| + i] == u && (b + y)[|a| + i] == u;
    assert (b + y)[|b| + j] == v;
    assert q[|a| + i] == u && q[|b| + j] == v;
  }

  /** What comes before a node without dependencies: earlier ones without dependencies. */
  lemma BeforeRoot(g: Graph, q: seq<nat>, a: nat, p: nat, d: nat)
    requires Valid(g) && IsSchedule(g, q) && p < |q| && q[p] == a && g.deps[a] == {} && d in q
    ensures d in q[..p] <==> g.deps[d] == {} && d < a
  {
    assert a in q;
    var i :| 0 <= i < |q| && q[i] == d;
    if d == a {
      assert i == p;
      assert forall k :: 0 <= k < p ==> q[..p][k] == q[k];
    } else {
      RootOrder(g, q, d, a);
      if i < p {
        assert q[..p][i] == d;
        assert Precedes(q, d, a);
      } else {
        assert Precedes(q, a, d);
        NotBoth(q, a, d);
        assert forall k :: 0 <= k < p ==> q[..p][k] == q[k];
      }
    }
  }

  /** `v` waits for the root `a` alone, `u` for others: `u` comes first exactly when all of those do. */
  lemma WaitingOrder(g: Graph, q: seq<nat>, u: nat, v: nat, a: nat)
    requires Valid(g) && IsSchedule(g, q) && u in q && v in q && u < |g.deps| && v < |g.deps|
    requires g.deps[v] == {a} && a < |g.deps| && g.deps[a] == {} && g.deps[u] != {} && a !in g.deps[u]
    ensures Precedes(q, u, v) <==> forall d: nat :: d in g.deps[u] ==> d < |g.deps| && g.deps[d] == {} && d < a
  {
    hide Flows;
    var i :| 0 <= i < |q| && q[i] == u;
    var j :| 0 <= j < |q| && q[j] == v;
    EnqueuedAfterDeps(g, q, i);
    EnqueuedAfterDeps(g, q, j);
    var s := ReleaseStep(g, q, u, i);
    var s' := ReleaseStep(g, q, v, j);
    LastOfDeps(q, s, g.deps[u]);
    LastOfDeps(q, s', g.deps[v]);
    DepsBeforeRoot(g, q, u, a, s' - 1, i);
    if s < s' {
      ReleasedEarlier(g, q, u, v, s, s');
      PrefixElems(q, s, s' - 1);
    } else {
      assert s' < s;
      ReleasedEarlier(g, q, v, u, s', s);
      NotBoth(q, v, u);
      PrefixElems(q, s' - 1, s - 1);
    }
  }

  /** The visit that completes the dependencies is a visit to one of them. */
  lemma LastOfDeps(q: seq<nat>, s: nat, deps: set<nat>)
    requires 0 < s <= |q| && deps <= Elems(q[..s]) && !(deps <= Elems(q[..s - 1]))
    ensures q[s - 1] in deps
  {
    assert forall d: nat :: d in q[..s] <==> d in q[..s - 1] || d == q[s - 1];
  }

  lemma DepsBeforeRoot(g: Graph, q: seq<nat>, u: nat, a: nat, p: nat, i: nat)
    requires Valid(g) && IsSchedule(g, q) && p < |q| && q[p] == a && g.deps[a] == {}
    requires i < |q| && q[i] == u && u < |g.deps| && g.deps[u] <= Elems(q[..i])
    ensures g.deps[u] <= Elems(q[..p]) <==>
      forall d: nat :: d in g.deps[u] ==> d < |g.deps| && g.deps[d] == {} && d < a
  {
    forall d: nat | d in g.deps[u] ensures d in q && (d in q[..p] <==> g.deps[d] == {} && d < a) {
      assert d in q[..i];
      BeforeRoot(g, q, a, p, d);
    }
  }
}
