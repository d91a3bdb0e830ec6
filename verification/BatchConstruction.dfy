/** `build_batch_family`: conflict graph, connected components, per-component
    maximal independent sets, and their capped product. */
module BatchConstruction {
  import opened Basics
  import opened Toolchains
  import opened SubsetLists

  datatype Relation = FinalCommute | OrderSensitive | UnknownRelation

  /** `pair_relation.csv`, keyed by unordered pairs; unlisted pairs are unknown. */
  type Relations = map<set<Pass>, Relation>

  type Graph = map<Pass, set<Pass>>

  predicate Commute(relations: Relations, a: Pass, b: Pass) {
    {a, b} in relations && relations[{a, b}] == FinalCommute
  }

  predicate Conflict(relations: Relations, a: Pass, b: Pass) {
    a != b && !Commute(relations, a, b)
  }

  lemma ConflictSymmetric(relations: Relations, a: Pass, b: Pass)
    ensures Conflict(relations, a, b) <==> Conflict(relations, b, a)
  {
    assert {a, b} == {b, a};
  }

  ghost predicate Symmetric(graph: Graph) {
    forall a, b :: a in graph && b in graph[a] ==> b in graph && a in graph[b]
  }

  // ----------------------------------------------------------- conflict graph

  /** `graph` is the conflict graph of the active passes. */
  ghost predicate IsConflictGraph(active: seq<Pass>, relations: Relations, graph: Graph) {
    && graph.Keys == ToSet(active)
    && forall a :: a in graph ==> forall b :: b in graph[a] <==> b in active && Conflict(relations, a, b)
  }

  /** One pass over all pairs; `done(a, b)` says which pairs were looked at. */
  ghost predicate EdgesSoFar(active: seq<Pass>, relations: Relations, graph: Graph, i: int, j: int) {
    && graph.Keys == ToSet(active)
    && forall a: nat, b: nat :: a < |active| && b < |active| ==>
         (active[b] in graph[active[a]] <==> Conflict(relations, active[a], active[b]) && PairDone(a, b, i, j))
  }

  predicate PairDone(a: int, b: int, i: int, j: int) {
    var lo, hi := if a < b then a else b, if a < b then b else a;
    lo < i || (lo == i && hi < j)
  }

  ghost predicate Inside(active: seq<Pass>, graph: Graph) {
    forall a :: a in graph ==> graph[a] <= ToSet(active)
  }

  method BuildConflictGraph(active: seq<Pass>, relations: Relations) returns (graph: Graph)
    requires Distinct(active)
    ensures IsConflictGraph(active, relations, graph)
    // only a relation that is on record as commuting keeps two active passes apart
    ensures forall a, b :: a in active && b in active ==>
              (a in graph && b in graph[a] <==> a != b && ({a, b} in relations ==> relations[{a, b}] != FinalCommute))
  {
    hide EdgesSoFar, Conflict, Commute, PairDone, Distinct;
    graph := map p | p in active :: {};
    NoEdgesYet(active, relations, graph);
    for i := 0 to |active|
      invariant EdgesSoFar(active, relations, graph, i, i + 1) && Inside(active, graph)
      invariant graph.Keys == ToSet(active)
    {
      for j := i + 1 to |active|
        invariant EdgesSoFar(active, relations, graph, i, j) && Inside(active, graph)
        invariant graph.Keys == ToSet(active)
      {
        var a, b := active[i], active[j];
        ghost var before := graph;
        if !Commute(relations, a, b) {
          graph := graph[a := graph[a] + {b}][b := graph[b] + {a}];
        }
        OnePairMore(active, relations, before, graph, i, j);
      }
      NextRow(active, relations, graph, i);
    }
    AllPairsDone(active, relations, graph);
    OnRecord(active, relations, graph);
  }

  lemma OnRecord(active: seq<Pass>, relations: Relations, graph: Graph)
    requires IsConflictGraph(active, relations, graph)
    ensures forall a, b :: a in active && b in active ==>
              (a in graph && b in graph[a] <==> a != b && ({a, b} in relations ==> relations[{a, b}] != FinalCommute))
  {
    forall a | a in active ensures a in graph {
      assert a in ToSet(active);
    }
  }

  lemma NoEdgesYet(active: seq<Pass>, relations: Relations, graph: Graph)
    requires graph == map p | p in active :: {}
    ensures EdgesSoFar(active, relations, graph, 0, 1) && Inside(active, graph) && graph.Keys == ToSet(active)
  {
    forall a: nat, b: nat | a < |active| && b < |active|
      ensures active[b] in graph[active[a]] <==> Conflict(relations, active[a], active[b]) && PairDone(a, b, 0, 1)
    {
      if PairDone(a, b, 0, 1) { assert a == b; }
    }
  }

  lemma NextRow(active: seq<Pass>, relations: Relations, graph: Graph, i: nat)
    requires i < |active| && EdgesSoFar(active, relations, graph, i, |active|)
    ensures EdgesSoFar(active, relations, graph, i + 1, i + 2)
  {
    forall a: nat, b: nat | a < |active| && b < |active|
      ensures active[b] in graph[active[a]] <==>
              Conflict(relations, active[a], active[b]) && PairDone(a, b, i + 1, i + 2)
    {
      assert a == b || (PairDone(a, b, i, |active|) <==> PairDone(a, b, i + 1, i + 2));
    }
  }

  lemma AllPairsDone(active: seq<Pass>, relations: Relations, graph: Graph)
    requires EdgesSoFar(active, relations, graph, |active|, |active| + 1) && Inside(active, graph)
    ensures IsConflictGraph(active, relations, graph)
  {
    forall a, b | a in graph ensures b in graph[a] <==> b in active && Conflict(relations, a, b) {
      assert a in ToSet(active);
      var k :| 0 <= k < |active| && active[k] == a;
      if b in active {
        var l :| 0 <= l < |active| && active[l] == b;
        assert active[l] in graph[active[k]] <==> Conflict(relations, active[k], active[l]);
      } else {
        assert b !in ToSet(active);
      }
    }
  }

  lemma OnePairMore(active: seq<Pass>, relations: Relations, before: Graph, graph: Graph, i: nat, j: nat)
    requires Distinct(active) && i < j < |active| && EdgesSoFar(active, relations, before, i, j)
    requires Inside(active, before)
    requires var a, b := active[i], active[j];
             graph == if Commute(relations, a, b) then before else before[a := before[a] + {b}][b := before[b] + {a}]
    ensures EdgesSoFar(active, relations, graph, i, j + 1) && Inside(active, graph)
  {
    ConflictSymmetric(relations, active[i], active[j]);
    forall a: nat, b: nat | a < |active| && b < |active|
      ensures active[b] in graph[active[a]] <==> Conflict(relations, active[a], active[b]) && PairDone(a, b, i, j + 1)
    {
      assert PairDone(a, b, i, j + 1) <==> PairDone(a, b, i, j) || (a == i && b == j) || (a == j && b == i);
      assert active[a] == active[i] <==> a == i;
      assert active[a] == active[j] <==> a == j;
      assert active[b] == active[i] <==> b == i;
      assert active[b] == active[j] <==> b == j;
    }
    assert graph.Keys == before.Keys;
  }

  // ------------------------------------------------------------- components

  ghost predicate Closed(graph: Graph, s: set<Pass>) {
    forall a, b :: a in s && a in graph && b in graph[a] ==> b in s
  }

  ghost predicate Walk(graph: Graph, w: seq<Pass>) {
    && |w| > 0 && (forall k :: 0 <= k < |w| ==> w[k] in graph)
    && forall k :: 0 <= k < |w| - 1 ==> w[k + 1] in graph[w[k]]
  }

  ghost predicate Reaches(graph: Graph, a: Pass, b: Pass) {
    exists w :: Walk(graph, w) && w[0] == a && w[|w| - 1] == b
  }

  lemma ReachesStep(graph: Graph, a: Pass, b: Pass, c: Pass)
    requires Reaches(graph, a, b) && b in graph && c in graph[b] && c in graph
    ensures Reaches(graph, a, c)
  {
    var w :| Walk(graph, w) && w[0] == a && w[|w| - 1] == b;
    var longer := w + [c];
    assert Walk(graph, longer) && longer[0] == a && longer[|longer| - 1] == c;
  }

  lemma ClosedContainsReached(graph: Graph, s: set<Pass>, a: Pass, b: Pass)
    requires Closed(graph, s) && a in s && Reaches(graph, a, b)
    ensures b in s
  {
    var w :| Walk(graph, w) && w[0] == a && w[|w| - 1] == b;
    var k := 0;
    while k < |w| - 1
      invariant 0 <= k < |w| && w[k] in s
    {
      k := k + 1;
    }
  }

  /** `sorted(s, key=pass_rank.get)`: the ranks are positions in `active`. */
  function InRankOrder(s: set<Pass>, active: seq<Pass>): (r: seq<Pass>)
    ensures forall p :: p in r <==> p in s && p in active
  {
    if active == [] then []
    else
      InRankOrder(s, active[..|active| - 1])
      + if active[|active| - 1] in s then [active[|active| - 1]] else []
  }

  lemma {:induction false} InRankOrderDistinct(s: set<Pass>, active: seq<Pass>)
    requires Distinct(active)
    ensures Distinct(InRankOrder(s, active))
    ensures ToSet(InRankOrder(s, active)) == s * ToSet(active)
  {
    if active != [] {
      DistinctLast(active);
      InRankOrderDistinct(s, active[..|active| - 1]);
    }
  }

  /** Members are listed by ascending rank. */
  lemma {:induction false} InRankOrderAscends(s: set<Pass>, active: seq<Pass>, i: nat, j: nat) returns (a: nat, b: nat)
    requires i < j < |InRankOrder(s, active)|
    ensures a < b < |active| && InRankOrder(s, active)[i] == active[a] && InRankOrder(s, active)[j] == active[b]
  {
    var init, last := active[..|active| - 1], active[|active| - 1];
    if j < |InRankOrder(s, init)| {
      a, b := InRankOrderAscends(s, init, i, j);
    } else {
      assert InRankOrder(s, init)[i] in init;
      a :| 0 <= a < |init| && init[a] == InRankOrder(s, init)[i];
      b := |active| - 1;
    }
  }

  /** The first listed member is the one of least rank. */
  lemma {:induction false} InRankOrderFirst(s: set<Pass>, active: seq<Pass>, i: nat)
    requires i < |active| && active[i] in s && forall k :: 0 <= k < i ==> active[k] !in s
    ensures |InRankOrder(s, active)| > 0 && InRankOrder(s, active)[0] == active[i]
  {
    if i == |active| - 1 {
      NoneInRankOrder(s, active[..i]);
    } else {
      InRankOrderFirst(s, active[..|active| - 1], i);
    }
  }

  lemma {:induction false} NoneInRankOrder(s: set<Pass>, active: seq<Pass>)
    requires forall k :: 0 <= k < |active| ==> active[k] !in s
    ensures InRankOrder(s, active) == []
  {
    if active != [] {
      NoneInRankOrder(s, active[..|active| - 1]);
    }
  }

  /** Components come in the order of their first passes, so sorting them changes nothing. */
  ghost predicate FirstsAscend(active: seq<Pass>, components: seq<seq<Pass>>) {
    forall i, j, a, b ::
      (&& 0 <= i < j < |components| && 0 <= a < |active| && 0 <= b < |active|
       && |components[i]| > 0 && |components[j]| > 0
       && components[i][0] == active[a] && components[j][0] == active[b]) ==> a < b
  }

  /** `_connected_components`. */
  method ConnectedComponents(active: seq<Pass>, graph: Graph) returns (components: seq<seq<Pass>>)
    requires Distinct(active) && graph.Keys == ToSet(active) && Inside(active, graph) && Symmetric(graph)
    ensures PartitionOf(ToSet(active), components) && FirstsAscend(active, components)
    ensures forall c :: c in components ==> IsReachabilityClass(graph, c) && Closed(graph, ToSet(c))
  {
    hide PartitionOf, IsReachabilityClass, Reaches, FirstsAscend, Symmetric, Inside, Distinct, InRankOrder;
    components := [];
    var seen: set<Pass> := {};
    NothingPartitioned(active);
    for i := 0 to |active|
      invariant PartitionOf(seen, components) && FirstsAscend(active, components)
      invariant forall k :: 0 <= k < i ==> active[k] in seen
      invariant forall c :: c in components ==> |c| > 0 && c[0] in active[..i]
      invariant Closed(graph, seen) && seen <= ToSet(active)
      invariant forall c :: c in components ==> IsReachabilityClass(graph, c) && Closed(graph, ToSet(c))
    {
      assert active[..i + 1] == active[..i] + [active[i]];
      if active[i] in seen {
        continue;
      }
      ghost var others := seen;
      assert active[i] in ToSet(active);
      var component;
      seen, component := Explore(active, graph, seen, active[i]);
      var sorted := InRankOrder(component, active);
      InRankOrderDistinct(component, active);
      assert component * ToSet(active) == component;
      InRankOrderFirst(component, active, i);
      ExploreFound(graph, component, active[i], sorted);
      AddToPartition(others, components, sorted);
      OneFirstMore(active, components, sorted, i);
      components := components + [sorted];
    }
    assert seen == ToSet(active);
  }

  lemma NothingPartitioned(active: seq<Pass>)
    ensures PartitionOf({}, []) && FirstsAscend(active, [])
  {
  }

  lemma OneFirstMore(active: seq<Pass>, components: seq<seq<Pass>>, c: seq<Pass>, i: nat)
    requires Distinct(active) && i < |active| && FirstsAscend(active, components) && |c| > 0 && c[0] == active[i]
    requires forall d :: d in components ==> |d| > 0 && d[0] in active[..i]
    ensures FirstsAscend(active, components + [c])
  {
    hide Distinct;
    var longer := components + [c];
    forall k, l, a, b |
      (&& 0 <= k < l < |longer| && 0 <= a < |active| && 0 <= b < |active|
       && |longer[k]| > 0 && |longer[l]| > 0 && longer[k][0] == active[a] && longer[l][0] == active[b])
      ensures a < b
    {
      assert longer[k] == components[k] && components[k] in components;
      if l == |components| {
        PlaceOf(active, components[k][0], a, i);
        SamePlace(active, b, i);
      } else {
        assert longer[l] == components[l];
      }
    }
  }

  /** In a duplicate-free list, an element of a prefix has its place there. */
  lemma PlaceOf(active: seq<Pass>, p: Pass, a: nat, i: nat)
    requires Distinct(active) && a < |active| && i <= |active| && active[a] == p && p in active[..i]
    ensures a < i
  {
    var k :| 0 <= k < i && active[k] == p;
  }

  lemma SamePlace(active: seq<Pass>, a: nat, b: nat)
    requires Distinct(active) && a < |active| && b < |active| && active[a] == active[b]
    ensures a == b
  {
  }

  /** The state of the depth-first search from `start`: what was popped, what is
      on the stack, and that nothing else was marked. */
  ghost predicate Exploring(active: seq<Pass>, graph: Graph, before: set<Pass>, start: Pass,
                            seen: set<Pass>, component: set<Pass>, stack: seq<Pass>) {
    && seen == before + component + ToSet(stack)
    && component !! ToSet(stack) && Distinct(stack) && component + ToSet(stack) !! before
    && start in component + ToSet(stack) && component + ToSet(stack) <= ToSet(active)
    && forall p :: p in component + ToSet(stack) ==> Reaches(graph, start, p)
  }

  lemma Pop(active: seq<Pass>, graph: Graph, before: set<Pass>, start: Pass,
            seen: set<Pass>, component: set<Pass>, stack: seq<Pass>)
    requires Exploring(active, graph, before, start, seen, component, stack) && |stack| > 0
    ensures var current := stack[|stack| - 1];
            && Exploring(active, graph, before, start, seen, component + {current}, stack[..|stack| - 1])
            && ToSet(stack) == ToSet(stack[..|stack| - 1]) + {current}
            && current !in component && current !in before && current in ToSet(active) && Reaches(graph, start, current)
  {
    DistinctLast(stack);
    assert stack[|stack| - 1] in ToSet(stack);
  }

  lemma Push(active: seq<Pass>, graph: Graph, before: set<Pass>, start: Pass,
             seen: set<Pass>, component: set<Pass>, stack: seq<Pass>, p: Pass)
    requires Exploring(active, graph, before, start, seen, component, stack)
    requires p !in seen && p in active && Reaches(graph, start, p)
    ensures Exploring(active, graph, before, start, seen + {p}, component, stack + [p])
    ensures ToSet(stack + [p]) == ToSet(stack) + {p}
  {
    ToSetAppend(stack, p);
    assert p !in ToSet(stack) && p in ToSet(active);
    assert p !in stack;
  }

  /** Depth-first search with an explicit stack, one component at a time. */
  method Explore(active: seq<Pass>, graph: Graph, before: set<Pass>, start: Pass)
    returns (seen: set<Pass>, component: set<Pass>)
    requires Distinct(active) && graph.Keys == ToSet(active) && Inside(active, graph) && Symmetric(graph)
    requires start in graph && start !in before && Closed(graph, before) && before <= ToSet(active)
    ensures seen == before + component && start in component && component !! before
    ensures component <= ToSet(active) && Closed(graph, component) && Closed(graph, seen)
    ensures forall p :: p in component ==> Reaches(graph, start, p)
  {
    hide Reaches, Distinct, ToSet, InRankOrder;
    seen := before + {start};
    var stack := [start];
    component := {};
    StartExploring(active, graph, before, start);
    while stack != []
      invariant Exploring(active, graph, before, start, seen, component, stack)
      invariant forall a, b :: a in component && b in graph[a] ==> b in component + ToSet(stack)
      decreases ToSet(active) - component
    {
      var current := stack[|stack| - 1];
      Pop(active, graph, before, start, seen, component, stack);
      stack := stack[..|stack| - 1];
      component := component + {current};
      var neighbors := InRankOrder(graph[current], active);
      ghost var wanted := component + ToSet(stack);
      for k := 0 to |neighbors|
        invariant Exploring(active, graph, before, start, seen, component, stack)
        invariant wanted <= component + ToSet(stack)
        invariant forall l :: 0 <= l < k ==> neighbors[l] in component + ToSet(stack)
      {
        var neighbor := neighbors[k];
        assert neighbor in neighbors;
        assert neighbor in graph[current] && neighbor in graph && current in graph[neighbor];
        if neighbor !in seen {
          ReachesStep(graph, start, current, neighbor);
          Push(active, graph, before, start, seen, component, stack, neighbor);
          seen := seen + {neighbor};
          stack := stack + [neighbor];
        } else {
          assert neighbor !in before;
        }
      }
      forall b | b in graph[current] ensures b in component + ToSet(stack) {
        assert b in ToSet(active);
        InRankOrderHas(graph[current], active, b);
      }
    }
    EmptyStack<Pass>();
  }

  lemma EmptyStack<T>()
    ensures ToSet<T>([]) == {}
  {
  }

  lemma InRankOrderHas(s: set<Pass>, active: seq<Pass>, p: Pass)
    requires p in s && p in ToSet(active)
    ensures p in InRankOrder(s, active)
  {
  }

  lemma StartExploring(active: seq<Pass>, graph: Graph, before: set<Pass>, start: Pass)
    requires start in graph && start !in before && start in ToSet(active)
    ensures Exploring(active, graph, before, start, before + {start}, {}, [start])
  {
    assert ToSet([start]) == {start};
    assert Walk(graph, [start]);
    assert Reaches(graph, start, start);
  }

  /** A component lists exactly what its first pass reaches. */
  ghost predicate IsReachabilityClass(graph: Graph, component: seq<Pass>) {
    |component| > 0 && forall p :: p in component <==> Reaches(graph, component[0], p)
  }

  lemma ExploreFound(graph: Graph, component: set<Pass>, start: Pass, sorted: seq<Pass>)
    requires Symmetric(graph)
    requires forall p :: p in component ==> Reaches(graph, start, p)
    requires Closed(graph, component) && |sorted| > 0 && ToSet(sorted) == component
    ensures IsReachabilityClass(graph, sorted)
  {
    var first := sorted[0];
    assert first in ToSet(sorted);
    ReachesSymmetric(graph, start, first);
    forall p ensures p in sorted <==> Reaches(graph, first, p) {
      assert p in sorted <==> p in ToSet(sorted);
      if p in component {
        ReachesTransitive(graph, first, start, p);
      }
      if Reaches(graph, first, p) {
        ClosedContainsReached(graph, component, first, p);
      }
    }
  }

  lemma ReachesTransitive(graph: Graph, a: Pass, b: Pass, c: Pass)
    requires Reaches(graph, a, b) && Reaches(graph, b, c)
    ensures Reaches(graph, a, c)
  {
    var v :| Walk(graph, v) && v[0] == a && v[|v| - 1] == b;
    var w :| Walk(graph, w) && w[0] == b && w[|w| - 1] == c;
    var joined := v + w[1..];
    forall k | 0 <= k < |joined| - 1 ensures joined[k + 1] in graph[joined[k]] {
      if k >= |v| - 1 {
        assert joined[k] == w[k - |v| + 1] && joined[k + 1] == w[k - |v| + 2];
      }
    }
    assert Walk(graph, joined);
    assert joined[|joined| - 1] == c;
  }

  lemma {:induction false} ReachesSymmetric(graph: Graph, a: Pass, b: Pass)
    requires Symmetric(graph)
    requires Reaches(graph, a, b)
    ensures Reaches(graph, b, a)
  {
    var w :| Walk(graph, w) && w[0] == a && w[|w| - 1] == b;
    WalkBack(graph, w);
  }

  lemma {:induction false} WalkBack(graph: Graph, w: seq<Pass>)
    requires Symmetric(graph)
    requires Walk(graph, w)
    ensures Reaches(graph, w[|w| - 1], w[0])
  {
    if |w| == 1 {
      assert Walk(graph, w);
    } else {
      var tail := w[1..];
      assert Walk(graph, tail) by {
        forall k | 0 <= k < |tail| - 1 ensures tail[k + 1] in graph[tail[k]] { assert w[k + 2] in graph[w[k + 1]]; }
      }
      WalkBack(graph, tail);
      assert w[1] in graph[w[0]];
      ReachesStep(graph, w[|w| - 1], w[1], w[0]);
    }
  }

  /** Nonempty, duplicate-free, pairwise disjoint lists covering `all`. */
  ghost predicate PartitionOf(all: set<Pass>, components: seq<seq<Pass>>) {
    && (forall c :: c in components ==> |c| > 0 && Distinct(c) && ToSet(c) <= all)
    && (forall p :: p in all ==> exists i :: 0 <= i < |components| && p in components[i])
    && (forall i, j :: 0 <= i < j < |components| ==> ToSet(components[i]) !! ToSet(components[j]))
  }

  lemma AddToPartition(all: set<Pass>, components: seq<seq<Pass>>, c: seq<Pass>)
    requires PartitionOf(all, components) && |c| > 0 && Distinct(c) && ToSet(c) !! all
    ensures PartitionOf(all + ToSet(c), components + [c])
  {
    var more := components + [c];
    forall p | p in all + ToSet(c) ensures exists i :: 0 <= i < |more| && p in more[i] {
      if p in all {
        var i :| 0 <= i < |components| && p in components[i];
        assert p in more[i];
      } else {
        assert p in more[|components|];
      }
    }
    forall i, j | 0 <= i < j < |more| ensures ToSet(more[i]) !! ToSet(more[j]) {
      if j == |components| {
        assert components[i] in components;
      }
    }
  }
}
