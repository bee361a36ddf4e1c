/** What a plan is: a permutation of its input in three stages, the same for every order in
    which the constraint maps are walked, stable for operations that wait for the same things,
    and missing exactly when new tables reference each other in a cycle. */
module PlanTheorems {
  import opened Catalog
  import opened Operations
  import opened Graphs
  import opened Lists
  import opened Dag
  import opened Planner

  // ----- one sorted stage

  lemma SortedFacts(ops: seq<Op>, sorted: seq<Op>) returns (order: seq<nat>)
    requires IsSorted(ops, sorted)
    ensures IsSortOrder(ops, order) && sorted == PickOps(ops, order)
    ensures Valid(GraphOf(ops)) && InputOrdered(GraphOf(ops)) && Distinct(order)
    ensures forall i: nat :: i < |ops| ==> i in order
    ensures Acyclic(GraphOf(ops))
  {
    order :| IsSortOrder(ops, order) && sorted == PickOps(ops, order);
    GraphBelowValid(ops, |ops|);
    ScheduleFullIffAcyclic(GraphOf(ops), order);
  }

  /** Sorting leaves no freedom. */
  lemma SortIsUnique(ops: seq<Op>, a: seq<Op>, b: seq<Op>)
    requires IsSorted(ops, a) && IsSorted(ops, b)
    ensures a == b
  {
    var p := SortedFacts(ops, a);
    var q := SortedFacts(ops, b);
    ScheduleUnique(GraphOf(ops), p, q);
  }

  lemma WithoutPlace(order: seq<nat>, n: nat, p: nat)
    requires Distinct(order) && p < |order| && order[p] == n
    requires forall k :: 0 <= k < |order| ==> order[k] <= n
    ensures var rest := order[..p] + order[p + 1..];
      Distinct(rest) && forall k :: 0 <= k < |rest| ==> rest[k] < n
  {
    var rest := order[..p] + order[p + 1..];
    forall k | 0 <= k < |rest| ensures rest[k] == order[if k < p then k else k + 1] {
    }
  }

  /** The operations along a duplicate-free listing of all positions are the operations. */
  lemma {:induction false} PickAll(ops: seq<Op>, order: seq<nat>)
    requires Distinct(order) && |order| == |ops|
    requires forall k :: 0 <= k < |order| ==> order[k] < |ops|
    ensures multiset(PickOps(ops, order)) == multiset(ops)
    decreases |ops|
  {
    hide PickOps;
    if ops != [] {
      var last := |ops| - 1;
      FullOrMissing(|ops|, order);
      assert last in order;
      var p :| 0 <= p < |order| && order[p] == last;
      WithoutPlace(order, last, p);
      var rest := order[..p] + order[p + 1..];
      PickAll(ops[..last], rest);
      PickAround(ops, order, p, rest);
    }
  }

  lemma PickAround(ops: seq<Op>, order: seq<nat>, p: nat, rest: seq<nat>)
    requires ops != [] && p < |order| && order[p] == |ops| - 1
    requires forall k :: 0 <= k < |order| ==> order[k] < |ops|
    requires rest == order[..p] + order[p + 1..]
    requires forall k :: 0 <= k < |rest| ==> rest[k] < |ops| - 1
    ensures multiset(PickOps(ops, order)) ==
      multiset(PickOps(ops[..|ops| - 1], rest)) + multiset{ops[|ops| - 1]}
    ensures multiset(ops) == multiset(ops[..|ops| - 1]) + multiset{ops[|ops| - 1]}
  {
    var init, x := ops[..|ops| - 1], ops[|ops| - 1];
    var picked := PickOps(init, rest);
    assert PickOps(ops, order) == picked[..p] + [x] + picked[p..] by {
      forall k | 0 <= k < |order| && k != p
        ensures PickOps(ops, order)[k] == (picked[..p] + [x] + picked[p..])[k]
      {
        assert order[k] == rest[if k < p then k else k - 1];
      }
    }
    assert picked == picked[..p] + picked[p..];
    assert ops == init + [x];
  }

  lemma SortedConserves(ops: seq<Op>, sorted: seq<Op>)
    requires IsSorted(ops, sorted)
    ensures multiset(sorted) == multiset(ops)
    ensures |sorted| == |ops| && forall op :: op in sorted <==> op in ops
  {
    var order := SortedFacts(ops, sorted);
    PickAll(ops, order);
    assert forall op :: op in sorted <==> op in multiset(sorted);
    assert forall op :: op in ops <==> op in multiset(ops);
  }

  // ----- the whole plan

  lemma StageSplit(ops: seq<Op>)
    ensures multiset(ops) == multiset(OpsOfStage(ops, PreDeploy)) +
      multiset(OpsOfStage(ops, Deploy)) + multiset(OpsOfStage(ops, PostDeploy))
  {
    if ops != [] {
      var init, x := ops[..|ops| - 1], ops[|ops| - 1];
      StageSplit(init);
      assert ops == init + [x];
      match StageOf(x) {
        case PreDeploy => assert OpsOfStage(ops, PreDeploy) == OpsOfStage(init, PreDeploy) + [x];
        case Deploy => assert OpsOfStage(ops, Deploy) == OpsOfStage(init, Deploy) + [x];
        case PostDeploy => assert OpsOfStage(ops, PostDeploy) == OpsOfStage(init, PostDeploy) + [x];
      }
    }
  }

  lemma StageOfSorted(ops: seq<Op>, stage: Stage, sorted: seq<Op>)
    requires IsSorted(OpsOfStage(ops, stage), sorted)
    ensures forall i :: 0 <= i < |sorted| ==> StageOf(sorted[i]) == stage
  {
    SortedConserves(OpsOfStage(ops, stage), sorted);
    forall i | 0 <= i < |sorted| ensures StageOf(sorted[i]) == stage {
      assert sorted[i] in sorted;
    }
  }

  ghost function StageAt(i: nat, m: nat, n: nat): Stage {
    if i < m then PreDeploy else if i < n then Deploy else PostDeploy
  }

  /** A plan is a permutation of its input: pre-deploy, then deploy, then post-deploy. */
  lemma PlanConserves(ops: seq<Op>, plan: seq<Op>) returns (m: nat, n: nat)
    requires IsPlan(ops, plan)
    ensures multiset(plan) == multiset(ops)
    ensures m <= n <= |plan|
    ensures forall i :: 0 <= i < |plan| ==> StageOf(plan[i]) == StageAt(i, m, n)
  {
    hide IsSorted, OpsOfStage, StageOf;
    var pre, mid, post :| IsPlanOf(ops, pre, mid, post) && plan == pre + mid + post;
    StageOfSorted(ops, PreDeploy, pre);
    StageOfSorted(ops, Deploy, mid);
    StageOfSorted(ops, PostDeploy, post);
    SortedConserves(OpsOfStage(ops, PreDeploy), pre);
    SortedConserves(OpsOfStage(ops, Deploy), mid);
    SortedConserves(OpsOfStage(ops, PostDeploy), post);
    StageSplit(ops);
    m, n := |pre|, |pre| + |mid|;
  }

  /** The plan is a function of the list of operations. */
  lemma PlanUnique(ops: seq<Op>, p: seq<Op>, q: seq<Op>)
    requires IsPlan(ops, p) && IsPlan(ops, q)
    ensures p == q
  {
    hide IsSorted;
    var pre, mid, post :| IsPlanOf(ops, pre, mid, post) && p == pre + mid + post;
    var pre', mid', post' :| IsPlanOf(ops, pre', mid', post') && q == pre' + mid' + post';
    SortIsUnique(OpsOfStage(ops, PreDeploy), pre, pre');
    SortIsUnique(OpsOfStage(ops, Deploy), mid, mid');
    SortIsUnique(OpsOfStage(ops, PostDeploy), post, post');
  }

  // ----- stability

  ghost predicate Meets(ops: seq<Op>, p: Op -> bool, i: nat) {
    i < |ops| && p(ops[i])
  }

  ghost function Positions(ops: seq<Op>, n: nat, p: Op -> bool): seq<nat> {
    Below(n, (i: nat) => Meets(ops, p, i))
  }

  lemma PositionsInRange(ops: seq<Op>, n: nat, p: Op -> bool)
    ensures forall k :: 0 <= k < |Positions(ops, n, p)| ==> Positions(ops, n, p)[k] < |ops|
  {
    var r := Positions(ops, n, p);
    forall k | 0 <= k < |r| ensures r[k] < |ops| {
      assert r[k] in r;
      assert Meets(ops, p, r[k]);
    }
  }

  /** Filtering picks the operations at the positions that satisfy the filter. */
  lemma {:induction false} FilterIsPick(ops: seq<Op>, n: nat, p: Op -> bool)
    requires n <= |ops|
    ensures forall k :: 0 <= k < |Positions(ops, n, p)| ==> Positions(ops, n, p)[k] < |ops|
    ensures Filter(ops[..n], p) == PickOps(ops, Positions(ops, n, p))
  {
    hide Filter, PickOps, Positions;
    PositionsInRange(ops, n, p);
    if n > 0 {
      FilterIsPick(ops, n - 1, p);
      FilterStep(ops, n - 1, p);
      PositionsStep(ops, n, p);
      if p(ops[n - 1]) { PickSnoc(ops, Positions(ops, n - 1, p), n - 1); }
    } else {
      NoPositions(ops, p);
    }
  }

  lemma NoPositions(ops: seq<Op>, p: Op -> bool)
    ensures Positions(ops, 0, p) == [] && Filter(ops[..0], p) == [] && PickOps(ops, []) == []
  {
  }

  lemma PositionsStep(ops: seq<Op>, n: nat, p: Op -> bool)
    requires 0 < n <= |ops|
    ensures Positions(ops, n, p) == Positions(ops, n - 1, p) + if p(ops[n - 1]) then [n - 1] else []
  {
    assert Meets(ops, p, n - 1) <==> p(ops[n - 1]);
  }

  ghost predicate AllBelow(s: seq<nat>, n: nat) {
    forall k :: 0 <= k < |s| ==> s[k] < n
  }

  lemma FilterBelow(order: seq<nat>, q: nat -> bool, n: nat)
    requires AllBelow(order, n)
    ensures AllBelow(Filter<nat>(order, q), n)
  {
    var r := Filter<nat>(order, q);
    forall k | 0 <= k < |r| ensures r[k] < n {
      assert r[k] in r;
    }
  }

  /** Filtering a reordering picks the positions that satisfy the filter, in the new order. */
  lemma {:induction false} FilterOfPick(ops: seq<Op>, order: seq<nat>, p: Op -> bool, q: nat -> bool)
    requires AllBelow(order, |ops|)
    requires forall k: nat :: k < |ops| ==> q(k) == p(ops[k])
    ensures AllBelow(Filter<nat>(order, q), |ops|)
    ensures Filter(PickOps(ops, order), p) == PickOps(ops, Filter<nat>(order, q))
  {
    if order == [] {
      assert PickOps(ops, order) == [];
    } else {
      hide Filter, PickOps;
      var init, x := order[..|order| - 1], order[|order| - 1];
      FilterOfPick(ops, init, p, q);
      FilterOfPickStep(ops, init, x, p, q);
      assert order == init + [x];
    }
  }

  lemma FilterOfPickStep(ops: seq<Op>, init: seq<nat>, x: nat, p: Op -> bool, q: nat -> bool)
    requires AllBelow(init, |ops|) && x < |ops| && q(x) == p(ops[x])
    requires AllBelow(Filter<nat>(init, q), |ops|)
    requires Filter(PickOps(ops, init), p) == PickOps(ops, Filter<nat>(init, q))
    ensures AllBelow(init + [x], |ops|) && AllBelow(Filter<nat>(init + [x], q), |ops|)
    ensures Filter(PickOps(ops, init + [x]), p) == PickOps(ops, Filter<nat>(init + [x], q))
  {
    hide PickOps;
    PickSnoc(ops, init, x);
    FilterSnoc(PickOps(ops, init), ops[x], p);
    FilterSnoc<nat>(init, x, q);
    FilterBelow(init + [x], q, |ops|);
    PickSnoc(ops, Filter<nat>(init, q), x);
  }

  lemma PickSnoc(ops: seq<Op>, order: seq<nat>, x: nat)
    requires forall k :: 0 <= k < |order| ==> order[k] < |ops|
    requires x < |ops|
    ensures forall k :: 0 <= k < |order + [x]| ==> (order + [x])[k] < |ops|
    ensures PickOps(ops, order + [x]) == PickOps(ops, order) + [ops[x]]
  {
  }

  /** A filter keeps the order of what it keeps. */
  lemma {:induction false} FilterPrecedes(order: seq<nat>, q: nat -> bool, i: nat, j: nat)
    requires i < j < |Filter<nat>(order, q)|
    ensures Precedes(order, Filter<nat>(order, q)[i], Filter<nat>(order, q)[j])
  {
    var init, x := order[..|order| - 1], order[|order| - 1];
    var kept := Filter<nat>(init, q);
    assert kept[i] in kept;
    if j < |kept| {
      FilterPrecedes(init, q, i, j);
      var a, b :| 0 <= a < b < |init| && init[a] == kept[i] && init[b] == kept[j];
      assert order[a] == kept[i] && order[b] == kept[j];
    } else {
      var a :| 0 <= a < |init| && init[a] == kept[i];
      assert order[a] == kept[i] && order[|init|] == x;
    }
  }

  lemma LastBounds(a: seq<nat>, v: nat)
    requires Ascending(a) && v in a
    ensures v <= a[|a| - 1]
    ensures v in a[..|a| - 1] <==> v < a[|a| - 1]
  {
    var init := a[..|a| - 1];
    assert forall k :: 0 <= k < |init| ==> init[k] == a[k];
    if v in init {
      var i :| 0 <= i < |init| && init[i] == v;
    } else {
      var i :| 0 <= i < |a| && a[i] == v;
    }
  }

  /** Two ascending listings of the same numbers are the same. */
  lemma {:induction false} AscendingUnique(a: seq<nat>, b: seq<nat>)
    requires Ascending(a) && Ascending(b) && |a| == |b|
    requires forall v: nat :: v in a <==> v in b
    ensures a == b
  {
    if a != [] {
      var last := |a| - 1;
      assert a[last] in b && b[last] in a;
      LastBounds(a, b[last]);
      LastBounds(b, a[last]);
      forall v: nat ensures v in a[..last] <==> v in b[..last] {
        if v in a { LastBounds(a, v); LastBounds(b, v); }
      }
      AscendingUnique(a[..last], b[..last]);
    }
  }

  lemma SameSize(a: seq<nat>, b: seq<nat>)
    requires Ascending(a) && Ascending(b) && forall v: nat :: v in a <==> v in b
    ensures |a| == |b|
  {
    DistinctCount(a);
    DistinctCount(b);
    assert Elems(a) == Elems(b);
  }

  /** Operations that depend on the same keys, none of which is the key of one of them, come out
      of a sort in their input order. */
  ghost predicate WaitAlike(ops: seq<Op>, p: Op -> bool) {
    && (forall a, b :: a in ops && b in ops && p(a) && p(b) ==> a.DependsOn() == b.DependsOn())
    && (forall a, b :: a in ops && b in ops && p(a) && p(b) ==> b.Key() !in a.DependsOn())
  }

  lemma AlikeDeps(ops: seq<Op>, p: Op -> bool, u: nat, v: nat)
    requires WaitAlike(ops, p) && u < |ops| && v < |ops| && p(ops[u]) && p(ops[v])
    ensures DepsOf(ops, u) == DepsOf(ops, v)
  {
    assert ops[u] in ops && ops[v] in ops;
    var keys := ops[u].DependsOn();
    forall k | k in keys && Resolve(ops, k).Some?
      ensures Resolve(ops, k).value != u && Resolve(ops, k).value != v
    {
      assert HasKey(ops, k, Resolve(ops, k).value);
    }
  }

  lemma SortIsStable(ops: seq<Op>, sorted: seq<Op>, p: Op -> bool)
    requires IsSorted(ops, sorted) && WaitAlike(ops, p)
    ensures Filter(sorted, p) == Filter(ops, p)
  {
    hide Valid, InputOrdered, IsSortOrder, Acyclic, WaitAlike;
    var order := SortedFacts(ops, sorted);
    OrderInRange(ops, order);
    var q := (i: nat) => Meets(ops, p, i);
    FilterOfPick(ops, order, p, q);
    var kept := Filter<nat>(order, q);
    forall i, j | 0 <= i < j < |kept| ensures kept[i] < kept[j] {
      assert kept[i] in kept && kept[j] in kept;
      FilterPrecedes(order, q, i, j);
      KeptAscends(ops, order, p, kept[i], kept[j]);
    }
    FilterIsPick(ops, |ops|, p);
    assert ops[..|ops|] == ops;
    SameSize(kept, Positions(ops, |ops|, p));
    AscendingUnique(kept, Positions(ops, |ops|, p));
  }

  lemma OrderInRange(ops: seq<Op>, order: seq<nat>)
    requires IsSortOrder(ops, order)
    ensures forall k :: 0 <= k < |order| ==> order[k] < |ops|
  {
  }

  lemma GraphDeps(ops: seq<Op>, i: nat)
    requires i < |ops|
    ensures |GraphOf(ops).deps| == |ops| && GraphOf(ops).deps[i] == DepsOf(ops, i)
  {
  }

  lemma KeptAscends(ops: seq<Op>, order: seq<nat>, p: Op -> bool, u: nat, v: nat)
    requires IsSortOrder(ops, order) && WaitAlike(ops, p) && Distinct(order)
    requires InputOrdered(GraphOf(ops))
    requires u in order && v in order && Meets(ops, p, u) && Meets(ops, p, v) && Precedes(order, u, v)
    ensures u < v
  {
    hide Flows, Valid, InputOrdered, GraphOf, DepsOf, Precedes, WaitAlike, Distinct;
    NotBoth(order, u, v);
    if v < u {
      AlikeDeps(ops, p, u, v);
      GraphDeps(ops, u);
      GraphDeps(ops, v);
      EqualDependenciesKeepOrder(GraphOf(ops), order, v, u);
    }
  }

  // ----- constraints inside one sort

  lemma {:induction false} PreferDrop(ops: seq<Op>, matches: seq<nat>, k: nat)
    requires forall m :: 0 <= m < |matches| ==> matches[m] < |ops|
    requires k < |matches| && ops[matches[k]].Kind() == DropConstraint
    ensures Prefer(ops, matches).Some? && ops[Prefer(ops, matches).value].Kind() == DropConstraint
    decreases k
  {
    if k > 0 { PreferDrop(ops, matches[1..], k - 1); }
  }

  lemma ResolveDrop(ops: seq<Op>, u: nat)
    requires u < |ops| && ops[u].DropConstraintOp?
    ensures var d := Resolve(ops, ops[u].Key());
      d.Some? && d.value < |ops| && ops[d.value].Kind() == DropConstraint && ops[d.value].Key() == ops[u].Key()
  {
    var matches := KeyPositions(ops, ops[u].Key());
    assert HasKey(ops, ops[u].Key(), u) && u in matches;
    var k :| 0 <= k < |matches| && matches[k] == u;
    PreferDrop(ops, matches, k);
  }

  /** Inside one sort, a constraint is dropped before it is added again. */
  lemma DropBeforeAdd(ops: seq<Op>, sorted: seq<Op>, u: nat, b: nat) returns (a: nat)
    requires IsSorted(ops, sorted) && u < |ops| && b < |sorted|
    requires ops[u].DropConstraintOp? && sorted[b].AddConstraintOp? && ops[u].Key() == sorted[b].Key()
    ensures a < b && sorted[a].DropConstraintOp? && sorted[a].Key() == sorted[b].Key()
  {
    hide *;
    AddWaitsForKey(sorted[b]);
    var order := SortedFacts(ops, sorted);
    a := PlacedBefore(ops, sorted, order, u, b);
  }

  lemma AddWaitsForKey(op: Op)
    requires op.AddConstraintOp?
    ensures op.Key() in op.DependsOn()
  {
  }

  lemma PlacedBefore(ops: seq<Op>, sorted: seq<Op>, order: seq<nat>, u: nat, b: nat) returns (a: nat)
    requires IsSortOrder(ops, order) && sorted == PickOps(ops, order) && u < |ops| && b < |sorted|
    requires ops[u].DropConstraintOp? && sorted[b].AddConstraintOp? && ops[u].Key() == sorted[b].Key()
    requires sorted[b].Key() in sorted[b].DependsOn()
    ensures a < b && sorted[a].DropConstraintOp? && sorted[a].Key() == sorted[b].Key()
  {
    hide GraphOf, Acyclic, Op.Key, Op.DependsOn, IsSchedule;
    var v := order[b];
    ResolveDrop(ops, u);
    var d := Resolve(ops, ops[u].Key()).value;
    assert d in DepsOf(ops, v);
    GraphDeps(ops, v);
    ScheduleFullIffAcyclic(GraphOf(ops), order);
    assert d in order[..b];
    a :| 0 <= a < b && order[a] == d;
    DropKind(ops[d]);
  }

  lemma DropKind(op: Op)
    ensures op.Kind() == DropConstraint <==> op.DropConstraintOp?
  {
  }

  // ----- there is a plan

  /** Visiting the queue to its end gives a schedule. */
  lemma {:induction false} QueueRuns(g: Graph, q: seq<nat>, head: nat) returns (order: seq<nat>)
    requires QueueState(g, q, head)
    ensures Valid(g) && IsSchedule(g, order)
    decreases |g.deps| - head
  {
    QueueBounded(g, q, head);
    if head == |q| {
      order := q;
    } else {
      var longer := q + Released(g, Elems(q[..head]) + {q[head]}, g.dependents[q[head]]);
      VisitNode(g, q, head, longer);
      QueueBounded(g, longer, head + 1);
      order := QueueRuns(g, longer, head + 1);
    }
  }

  lemma SortExists(ops: seq<Op>) returns (sorted: seq<Op>)
    requires Acyclic(GraphOf(ops))
    ensures IsSorted(ops, sorted)
  {
    hide Acyclic, GraphOf, QueueState, IsSchedule, PickOps;
    var g := GraphOf(ops);
    GraphSize(ops);
    QueueStart(g, Roots(g, |g.deps|));
    var order := QueueRuns(g, Roots(g, |g.deps|), 0);
    ScheduleFullIffAcyclic(g, order);
    OrderBelow(g, order);
    assert IsSortOrder(ops, order);
    sorted := PickOps(ops, order);
  }

  lemma GraphSize(ops: seq<Op>)
    ensures |GraphOf(ops).deps| == |ops| && Valid(GraphOf(ops))
  {
    GraphBelowValid(ops, |ops|);
  }

  lemma OrderBelow(g: Graph, order: seq<nat>)
    requires Valid(g) && IsSchedule(g, order)
    ensures forall k :: 0 <= k < |order| ==> order[k] < |g.deps|
  {
  }

  /** There is a plan, and by PlanUnique only one, if and only if no stage has a cycle. */
  lemma PlanExists(ops: seq<Op>)
    ensures Plannable(ops) <==> exists plan :: IsPlan(ops, plan)
  {
    hide IsSorted, GraphOf, Acyclic, OpsOfStage;
    if Plannable(ops) {
      var pre := SortExists(OpsOfStage(ops, PreDeploy));
      var mid := SortExists(OpsOfStage(ops, Deploy));
      var post := SortExists(OpsOfStage(ops, PostDeploy));
      assert IsPlanOf(ops, pre, mid, post);
      assert IsPlan(ops, pre + mid + post);
    }
    if exists plan :: IsPlan(ops, plan) {
      var plan :| IsPlan(ops, plan);
      var pre, mid, post :| IsPlanOf(ops, pre, mid, post) && plan == pre + mid + post;
      forall stage ensures Acyclic(GraphOf(OpsOfStage(ops, stage))) {
        var sorted := match stage case PreDeploy => pre case Deploy => mid case PostDeploy => post;
        var order := SortedFacts(OpsOfStage(ops, stage), sorted);
      }
    }
  }
}
