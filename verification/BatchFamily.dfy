/** The second half of `build_batch_family`: alternatives per component, their
    product, and what the candidates are in terms of the whole conflict graph. */
module BatchFamily {
  import opened Basics
  import opened Toolchains
  import opened SubsetLists
  import opened BatchConstruction

  // ------------------------------------------------- maximal independent sets

  predicate Independent(graph: Graph, s: set<Pass>) {
    forall a, b :: a in s && b in s && a in graph && a != b ==> b !in graph[a]
  }

  /** Independent, and no independent proper superset inside `universe`. */
  ghost predicate MaximalIndependent(graph: Graph, universe: set<Pass>, s: set<Pass>) {
    && s <= universe && Independent(graph, s)
    && forall t :: s < t <= universe ==> !Independent(graph, t)
  }

  /** Positions of the members, in rank order. */
  function RankList(s: set<Pass>, active: seq<Pass>): seq<nat> {
    if active == [] then []
    else
      RankList(s, active[..|active| - 1]) + if active[|active| - 1] in s then [|active| - 1] else []
  }

  predicate RanksBefore(a: seq<nat>, b: seq<nat>) {
    if b == [] then false
    else if a == [] then true
    else a[0] < b[0] || (a[0] == b[0] && RanksBefore(a[1..], b[1..]))
  }

  /** The sort key: larger sets first, then by ranks. */
  predicate ChoiceBefore(active: seq<Pass>, a: set<Pass>, b: set<Pass>) {
    |a| > |b| || (|a| == |b| && RanksBefore(RankList(a, active), RankList(b, active)))
  }

  lemma {:induction false} RanksOrder(a: seq<nat>, b: seq<nat>, c: seq<nat>)
    ensures RanksBefore(a, b) ==> !RanksBefore(b, a)
    ensures !RanksBefore(a, b) && !RanksBefore(b, c) ==> !RanksBefore(a, c)
  {
    if a != [] && b != [] {
      RanksOrder(a[1..], b[1..], if c == [] then [] else c[1..]);
    }
  }

  /** The first pass by rank that is in one of the sets only is in `a`. */
  ghost predicate FirstDifference(active: seq<Pass>, a: set<Pass>, b: set<Pass>) {
    exists r :: 0 <= r < |active| && active[r] in a && active[r] !in b && AgreeBelow(active, a, b, r)
  }

  ghost predicate AgreeBelow(active: seq<Pass>, a: set<Pass>, b: set<Pass>, r: nat)
    requires r <= |active|
  {
    forall q :: 0 <= q < r ==> (active[q] in a <==> active[q] in b)
  }

  lemma {:induction false} RanksAgreeBelow(active: seq<Pass>, a: set<Pass>, b: set<Pass>, r: nat)
    requires r <= |active| && AgreeBelow(active, a, b, r)
    ensures RankList(a, active[..r]) == RankList(b, active[..r])
  {
    if r > 0 {
      RanksAgreeBelow(active, a, b, r - 1);
      assert active[..r][..r - 1] == active[..r - 1];
    }
  }

  lemma {:induction false} RanksSplit(s: set<Pass>, active: seq<Pass>, r: nat) returns (later: seq<nat>)
    requires r < |active|
    ensures RankList(s, active) == RankList(s, active[..r]) + later
    ensures if active[r] in s then later != [] && later[0] == r else forall k :: k in later ==> k > r
  {
    if r == |active| - 1 {
      later := if active[r] in s then [r] else [];
    } else {
      var init := active[..|active| - 1];
      later := RanksSplit(s, init, r);
      assert init[..r] == active[..r];
      later := later + if active[|active| - 1] in s then [|active| - 1] else [];
    }
  }

  lemma {:induction false} RankListSize(s: set<Pass>, active: seq<Pass>)
    requires Distinct(active)
    ensures |RankList(s, active)| == |s * ToSet(active)|
  {
    hide Distinct, ToSet;
    if active == [] {
      EmptyToSet<Pass>();
      assert s * {} == {};
    } else {
      var init, last := active[..|active| - 1], active[|active| - 1];
      DistinctLast(active);
      RankListSize(s, init);
      LastNotInSet(init, last);
      MeetWithOneMore(s, ToSet(init), last);
    }
  }

  lemma EmptyToSet<T>()
    ensures ToSet<T>([]) == {}
  {
  }

  lemma LastNotInSet<T>(s: seq<T>, x: T)
    ensures x in ToSet(s) <==> x in s
  {
  }

  lemma MeetWithOneMore<T>(s: set<T>, t: set<T>, x: T)
    requires x !in t
    ensures |s * (t + {x})| == |s * t| + if x in s then 1 else 0
  {
    assert s * (t + {x}) == if x in s then s * t + {x} else s * t;
  }

  lemma {:induction false} SharedStart(p: seq<nat>, x: seq<nat>, y: seq<nat>)
    requires x != [] && y != [] && x[0] < y[0]
    ensures RanksBefore(p + x, p + y)
  {
    if p == [] {
      assert p + x == x && p + y == y;
    } else {
      SharedStart(p[1..], x, y);
      assert (p + x)[1..] == p[1..] + x && (p + y)[1..] == p[1..] + y;
    }
  }

  lemma FirstDifferent(active: seq<Pass>, a: set<Pass>, b: set<Pass>) returns (r: nat)
    requires a != b && a <= ToSet(active) && b <= ToSet(active)
    ensures r < |active| && AgreeBelow(active, a, b, r) && (active[r] in a <==> active[r] !in b)
  {
    r := 0;
    while r < |active| && (active[r] in a <==> active[r] in b)
      invariant r <= |active| && AgreeBelow(active, a, b, r)
    {
      r := r + 1;
    }
    if r == |active| {
      SameMembers(active, a, b);
    }
  }

  lemma SameMembers(active: seq<Pass>, a: set<Pass>, b: set<Pass>)
    requires a <= ToSet(active) && b <= ToSet(active) && AgreeBelow(active, a, b, |active|)
    ensures a == b
  {
    forall p ensures p in a <==> p in b {
      if p in ToSet(active) {
        var k :| 0 <= k < |active| && active[k] == p;
      }
    }
  }

  /** Of two sets of one size the one that is not later has the first pass that tells them apart. */
  lemma NotLaterMeans(active: seq<Pass>, a: set<Pass>, b: set<Pass>)
    requires Distinct(active) && a <= ToSet(active) && b <= ToSet(active) && a != b && |a| == |b|
    requires !ChoiceBefore(active, b, a)
    ensures FirstDifference(active, a, b)
  {
    hide RankList, RanksBefore, Distinct;
    var r := FirstDifferent(active, a, b);
    if active[r] in b {
      RanksAgreeBelow(active, a, b, r);
      var x := RanksSplit(b, active, r);
      var y := RanksSplit(a, active, r);
      RankListSize(a, active);
      RankListSize(b, active);
      assert a * ToSet(active) == a && b * ToSet(active) == b;
      assert y[0] in y;
      SharedStart(RankList(a, active[..r]), x, y);
    }
  }

  function SortChoices(active: seq<Pass>, choices: seq<set<Pass>>): seq<set<Pass>> {
    SortBy((a, b) => ChoiceBefore(active, a, b), choices)
  }

  lemma ChoicesOrder(active: seq<Pass>, a: set<Pass>, b: set<Pass>, c: set<Pass>)
    ensures ChoiceBefore(active, a, b) ==> !ChoiceBefore(active, b, a)
    ensures !ChoiceBefore(active, a, b) && !ChoiceBefore(active, b, c) ==> !ChoiceBefore(active, a, c)
  {
    RanksOrder(RankList(a, active), RankList(b, active), RankList(c, active));
  }

  lemma SortChoicesFacts(active: seq<Pass>, choices: seq<set<Pass>>)
    ensures var sorted := SortChoices(active, choices);
            && ToSet(sorted) == ToSet(choices) && (Distinct(choices) ==> Distinct(sorted))
            && (forall i, j :: 0 <= i < j < |sorted| ==> |sorted[i]| >= |sorted[j]|)
            && (Distinct(active) && Distinct(choices) && (forall s :: s in choices ==> s <= ToSet(active)) ==>
                  TiesByRank(active, sorted))
  {
    hide ChoiceBefore;
    var before := (a, b) => ChoiceBefore(active, a, b);
    forall a, b, c
      ensures before(a, b) ==> !before(b, a)
      ensures !before(a, b) && !before(b, c) ==> !before(a, c)
    {
      ChoicesOrder(active, a, b, c);
    }
    SortByContents(before, choices);
    SortBySorted(before, choices);
    var sorted := SortBy(before, choices);
    forall i, j | 0 <= i < j < |sorted| ensures |sorted[i]| >= |sorted[j]| {
      assert !before(sorted[j], sorted[i]);
      if |sorted[j]| > |sorted[i]| { LargerIsBefore(active, sorted[j], sorted[i]); }
    }
    if Distinct(active) && Distinct(choices) && forall s :: s in choices ==> s <= ToSet(active) {
      forall i, j | 0 <= i < j < |sorted| && |sorted[i]| == |sorted[j]|
        ensures FirstDifference(active, sorted[i], sorted[j])
      {
        assert !before(sorted[j], sorted[i]) && sorted[i] in ToSet(sorted) && sorted[j] in ToSet(sorted);
        NotLaterMeans(active, sorted[i], sorted[j]);
      }
    }
  }

  lemma LargerIsBefore(active: seq<Pass>, a: set<Pass>, b: set<Pass>)
    requires |a| > |b|
    ensures ChoiceBefore(active, a, b)
  {
  }

  /** Sets of one size are listed by the first pass that tells them apart. */
  ghost predicate TiesByRank(active: seq<Pass>, sorted: seq<set<Pass>>) {
    forall i, j :: 0 <= i < j < |sorted| && |sorted[i]| == |sorted[j]| ==>
      FirstDifference(active, sorted[i], sorted[j])
  }

  /** `_maximal_independent_sets`: each exactly once, larger sets first. */
  method MaximalIndependentSets(component: seq<Pass>, graph: Graph, active: seq<Pass>) returns (maximal: seq<set<Pass>>)
    requires Distinct(component) && |component| > 0
    ensures Distinct(maximal)
    ensures forall s :: s in maximal <==> MaximalIndependent(graph, ToSet(component), s)
    ensures forall i, j :: 0 <= i < j < |maximal| ==> |maximal[i]| >= |maximal[j]|
    ensures Distinct(active) && ToSet(component) <= ToSet(active) ==> TiesByRank(active, maximal)
  {
    hide Distinct, MaximalIndependent, Subsets, SortChoices, TiesByRank;
    var subsets := Subsets(component);
    SubsetsDistinct(component);
    var independent := SelectIndependent(subsets, graph);
    ListDistinct(component, graph, independent);
    var kept := [];
    EmptyDistinct<set<Pass>>();
    for i := 0 to |independent|
      invariant Distinct(kept) && (forall s :: s in kept ==> s in independent[..i])
      invariant forall s :: s in kept <==> s in independent[..i] && forall t :: t in independent ==> !(s < t)
    {
      var s := independent[i];
      assert independent[..i + 1] == independent[..i] + [s];
      NotAmongEarlier(independent, i);
      if forall t :: t in independent ==> !(s < t) {
        AppendDistinct(kept, s);
        kept := kept + [s];
      }
    }
    assert independent[..|independent|] == independent;
    SortChoicesFacts(active, kept);
    maximal := SortChoices(active, kept);
    forall s ensures s in maximal <==> MaximalIndependent(graph, ToSet(component), s) {
      assert s in ToSet(maximal) <==> s in ToSet(kept);
      KeptExactlyMaximal(component, graph, independent, s);
    }
  }

  ghost predicate IsIndependentChoice(component: seq<Pass>, graph: Graph, s: set<Pass>) {
    s <= ToSet(component) && s != {} && Independent(graph, s)
  }

  /** Nonempty independent sets, by filtering the subsets. */
  method SelectIndependent(subsets: seq<set<Pass>>, graph: Graph) returns (independent: seq<set<Pass>>)
    requires Distinct(subsets)
    ensures Distinct(independent)
    ensures forall s :: s in independent <==> s in subsets && s != {} && Independent(graph, s)
  {
    hide Distinct;
    independent := [];
    EmptyDistinct<set<Pass>>();
    for i := 0 to |subsets|
      invariant Distinct(independent)
      invariant forall s :: s in independent <==> s in subsets[..i] && s != {} && Independent(graph, s)
    {
      var s := subsets[i];
      assert subsets[..i + 1] == subsets[..i] + [s];
      NotAmongEarlier(subsets, i);
      if s != {} && (forall a, b :: a in s && b in s && a in graph && a != b ==> b !in graph[a]) {
        AppendDistinct(independent, s);
        independent := independent + [s];
      }
    }
    assert subsets[..|subsets|] == subsets;
  }

  lemma NotAmongEarlier<T>(s: seq<T>, i: nat)
    requires Distinct(s) && i < |s|
    ensures s[i] !in s[..i]
  {
  }

  lemma ListDistinct(component: seq<Pass>, graph: Graph, independent: seq<set<Pass>>)
    requires Distinct(component)
    requires forall s :: s in independent <==> s in Subsets(component) && s != {} && Independent(graph, s)
    ensures forall s :: s in independent <==> IsIndependentChoice(component, graph, s)
  {
    forall s ensures s in Subsets(component) <==> s <= ToSet(component) { SubsetsContents(component, s); }
  }

  /** Having no larger member in the list of independent sets is maximality. */
  lemma KeptExactlyMaximal(component: seq<Pass>, graph: Graph, independent: seq<set<Pass>>, s: set<Pass>)
    requires |component| > 0
    requires forall t :: t in independent <==> IsIndependentChoice(component, graph, t)
    ensures s in independent && (forall t :: t in independent ==> !(s < t))
            <==> MaximalIndependent(graph, ToSet(component), s)
  {
    if s in independent && (forall t :: t in independent ==> !(s < t)) {
      forall t | s < t <= ToSet(component) ensures !Independent(graph, t) {
        assert t !in independent;
      }
    }
    var single := {component[0]};
    assert component[0] in ToSet(component);
    assert {} < single <= ToSet(component) && Independent(graph, single);
    if MaximalIndependent(graph, ToSet(component), s) {
      assert !(s < single);
      assert s != {};
    }
  }

  lemma {:induction false} IndependentExtends(graph: Graph, universe: set<Pass>, s: set<Pass>) returns (m: set<Pass>)
    requires s <= universe && Independent(graph, s)
    ensures s <= m && MaximalIndependent(graph, universe, m)
    decreases universe - s
  {
    if t :| s < t <= universe && Independent(graph, t) {
      m := IndependentExtends(graph, universe, t);
    } else {
      m := s;
    }
  }

  // ------------------------------------------------------------- the product

  function AppendEach(prefix: seq<set<Pass>>, choices: seq<set<Pass>>): seq<seq<set<Pass>>> {
    if choices == [] then []
    else AppendEach(prefix, choices[..|choices| - 1]) + [prefix + [choices[|choices| - 1]]]
  }

  function AppendAll(prefixes: seq<seq<set<Pass>>>, choices: seq<set<Pass>>): seq<seq<set<Pass>>> {
    if prefixes == [] then []
    else AppendAll(prefixes[..|prefixes| - 1], choices) + AppendEach(prefixes[|prefixes| - 1], choices)
  }

  /** `itertools.product(*lists)`. */
  function Product(lists: seq<seq<set<Pass>>>): seq<seq<set<Pass>>> {
    if lists == [] then [[]] else AppendAll(Product(lists[..|lists| - 1]), lists[|lists| - 1])
  }

  ghost predicate PicksFrom(c: seq<set<Pass>>, lists: seq<seq<set<Pass>>>) {
    |c| == |lists| && forall k :: 0 <= k < |c| ==> c[k] in lists[k]
  }

  lemma {:induction false} AppendEachContents(prefix: seq<set<Pass>>, choices: seq<set<Pass>>, c: seq<set<Pass>>)
    ensures c in AppendEach(prefix, choices) <==> |c| > 0 && c[..|c| - 1] == prefix && c[|c| - 1] in choices
    ensures Distinct(choices) ==> Distinct(AppendEach(prefix, choices))
  {
    if choices != [] {
      var init, last := choices[..|choices| - 1], choices[|choices| - 1];
      AppendEachContents(prefix, init, c);
      AppendEachContents(prefix, init, prefix + [last]);
      assert choices == init + [last];
      assert c == prefix + [last] <==> |c| > 0 && c[..|c| - 1] == prefix && c[|c| - 1] == last;
      if Distinct(choices) {
        DistinctLast(choices);
        assert (prefix + [last])[|prefix|] == last;
        assert prefix + [last] !in AppendEach(prefix, init);
      }
    }
  }

  lemma {:induction false} AppendAllContents(prefixes: seq<seq<set<Pass>>>, choices: seq<set<Pass>>, c: seq<set<Pass>>)
    ensures c in AppendAll(prefixes, choices) <==> |c| > 0 && c[..|c| - 1] in prefixes && c[|c| - 1] in choices
  {
    if prefixes != [] {
      var init, last := prefixes[..|prefixes| - 1], prefixes[|prefixes| - 1];
      AppendAllContents(init, choices, c);
      AppendEachContents(last, choices, c);
      assert prefixes == init + [last];
    }
  }

  lemma {:induction false} AppendAllDistinct(prefixes: seq<seq<set<Pass>>>, choices: seq<set<Pass>>)
    requires Distinct(prefixes) && Distinct(choices)
    ensures Distinct(AppendAll(prefixes, choices))
  {
    if prefixes != [] {
      var init, last := prefixes[..|prefixes| - 1], prefixes[|prefixes| - 1];
      DistinctLast(prefixes);
      AppendAllDistinct(init, choices);
      AppendEachContents(last, choices, []);
      forall c | c in AppendEach(last, choices) ensures c !in AppendAll(init, choices) {
        AppendEachContents(last, choices, c);
        AppendAllContents(init, choices, c);
      }
      DistinctConcat(AppendAll(init, choices), AppendEach(last, choices));
    }
  }

  lemma {:induction false} ProductContents(lists: seq<seq<set<Pass>>>, c: seq<set<Pass>>)
    ensures c in Product(lists) <==> PicksFrom(c, lists)
  {
    if lists != [] {
      var init, last := lists[..|lists| - 1], lists[|lists| - 1];
      AppendAllContents(Product(init), last, c);
      if |c| > 0 {
        ProductContents(init, c[..|c| - 1]);
        assert PicksFrom(c, lists) <==> PicksFrom(c[..|c| - 1], init) && c[|c| - 1] in last by {
          if PicksFrom(c[..|c| - 1], init) && c[|c| - 1] in last {
            forall k | 0 <= k < |c| ensures c[k] in lists[k] {
              if k < |c| - 1 { assert c[..|c| - 1][k] in init[k]; }
            }
          }
          if PicksFrom(c, lists) {
            forall k | 0 <= k < |c| - 1 ensures c[..|c| - 1][k] in init[k] { assert c[k] in lists[k]; }
          }
        }
      }
    }
  }

  lemma {:induction false} AppendEachAt(prefix: seq<set<Pass>>, choices: seq<set<Pass>>)
    ensures |AppendEach(prefix, choices)| == |choices|
    ensures forall k :: 0 <= k < |choices| ==> AppendEach(prefix, choices)[k] == prefix + [choices[k]]
  {
    if choices != [] {
      AppendEachAt(prefix, choices[..|choices| - 1]);
    }
  }

  lemma {:induction false} AppendAllSize(prefixes: seq<seq<set<Pass>>>, choices: seq<set<Pass>>)
    ensures |AppendAll(prefixes, choices)| == |prefixes| * |choices|
  {
    if prefixes != [] {
      AppendAllSize(prefixes[..|prefixes| - 1], choices);
      AppendEachAt(prefixes[|prefixes| - 1], choices);
      OneMore(|prefixes| - 1, |choices|);
    }
  }

  lemma {:induction false} AppendAllAt(prefixes: seq<seq<set<Pass>>>, choices: seq<set<Pass>>, q: nat, r: nat)
    requires q < |prefixes| && r < |choices|
    ensures q * |choices| + r < |AppendAll(prefixes, choices)|
    ensures AppendAll(prefixes, choices)[q * |choices| + r] == prefixes[q] + [choices[r]]
  {
    var init, last := prefixes[..|prefixes| - 1], prefixes[|prefixes| - 1];
    AppendAllSize(init, choices);
    AppendEachAt(last, choices);
    if q < |init| {
      AppendAllAt(init, choices, q, r);
    }
  }

  /** The last component varies fastest: behind choice `q` of the others stand, one after
      the other, its extensions by the alternatives of the last. */
  lemma ProductAt(lists: seq<seq<set<Pass>>>, last: seq<set<Pass>>, q: nat, r: nat)
    requires q < |Product(lists)| && r < |last|
    ensures |Product(lists + [last])| == |Product(lists)| * |last|
    ensures q * |last| + r < |Product(lists + [last])|
    ensures Product(lists + [last])[q * |last| + r] == Product(lists)[q] + [last[r]]
  {
    assert (lists + [last])[..|lists|] == lists;
    AppendAllSize(Product(lists), last);
    AppendAllAt(Product(lists), last, q, r);
  }

  lemma {:induction false} ProductDistinct(lists: seq<seq<set<Pass>>>)
    requires forall l :: l in lists ==> Distinct(l)
    ensures Distinct(Product(lists))
  {
    if lists != [] {
      var init, last := lists[..|lists| - 1], lists[|lists| - 1];
      assert last in lists && forall l :: l in init ==> l in lists;
      ProductDistinct(init);
      AppendAllDistinct(Product(init), last);
    }
  }

  /** `set().union(*choices)`. */
  function Union(choices: seq<set<Pass>>): (u: set<Pass>)
    ensures forall p :: p in u <==> exists k :: 0 <= k < |choices| && p in choices[k]
  {
    if choices == [] then {}
    else
      var u := Union(choices[..|choices| - 1]) + choices[|choices| - 1];
      assert forall p :: p in u <==> exists k :: 0 <= k < |choices| && p in choices[k] by {
        forall p ensures p in u <==> exists k :: 0 <= k < |choices| && p in choices[k] {
          if p in Union(choices[..|choices| - 1]) {
            var k :| 0 <= k < |choices| - 1 && p in choices[..|choices| - 1][k];
            assert p in choices[k];
          }
          if k :| 0 <= k < |choices| && p in choices[k] {
            if k < |choices| - 1 { assert p in choices[..|choices| - 1][k]; }
          }
        }
      }
      u
  }

  // -------------------------------------------- components and the whole graph

  /** Alternatives are exactly the maximal independent sets of their component. */
  ghost predicate AlternativesExact(graph: Graph, components: seq<seq<Pass>>, alternatives: seq<seq<set<Pass>>>) {
    && |alternatives| == |components|
    && forall k :: 0 <= k < |components| ==>
         Distinct(alternatives[k])
         && forall s :: s in alternatives[k] <==> MaximalIndependent(graph, ToSet(components[k]), s)
  }

  /** Alternatives are nonempty independent subsets that together cover their component. */
  ghost predicate AlternativesSound(graph: Graph, components: seq<seq<Pass>>, alternatives: seq<seq<set<Pass>>>) {
    && |alternatives| == |components|
    && forall k :: 0 <= k < |components| ==>
         && (forall s :: s in alternatives[k] ==> s <= ToSet(components[k]) && Independent(graph, s))
         && (forall p :: p in components[k] ==> exists s :: s in alternatives[k] && p in s)
         && alternatives[k] != []
  }

  /** Components of a graph: they partition its passes and no edge leaves one. */
  ghost predicate Splits(graph: Graph, components: seq<seq<Pass>>) {
    && PartitionOf(graph.Keys, components)
    && forall c :: c in components ==> Closed(graph, ToSet(c))
  }

  lemma HomeComponent(graph: Graph, components: seq<seq<Pass>>, p: Pass) returns (k: nat)
    requires Splits(graph, components) && p in graph
    ensures k < |components| && p in components[k]
    ensures forall l :: 0 <= l < |components| && p in components[l] ==> l == k
  {
    k :| 0 <= k < |components| && p in components[k];
    forall l | 0 <= l < |components| && p in components[l] ensures l == k {
      assert p in ToSet(components[l]) && p in ToSet(components[k]);
    }
  }

  /** Choosing independently in every component is independent in the whole graph. */
  lemma UnionIndependent(graph: Graph, components: seq<seq<Pass>>, c: seq<set<Pass>>)
    requires Splits(graph, components) && |c| == |components|
    requires forall k :: 0 <= k < |c| ==> c[k] <= ToSet(components[k]) && Independent(graph, c[k])
    ensures Union(c) <= graph.Keys && Independent(graph, Union(c))
    ensures forall k :: 0 <= k < |c| ==> Union(c) * ToSet(components[k]) == c[k]
  {
    forall p | p in Union(c) ensures p in graph {
      var k :| 0 <= k < |c| && p in c[k];
      assert components[k] in components;
    }
    forall k | 0 <= k < |c| ensures Union(c) * ToSet(components[k]) == c[k] {
      forall p | p in Union(c) && p in ToSet(components[k]) ensures p in c[k] {
        var l :| 0 <= l < |c| && p in c[l];
        var home := HomeComponent(graph, components, p);
      }
    }
    forall a, b | a in Union(c) && b in Union(c) && a in graph && b in graph[a] ensures a == b {
      var k := HomeComponent(graph, components, a);
      assert components[k] in components;
      assert a in ToSet(components[k]) && b in ToSet(components[k]);
      assert a in Union(c) * ToSet(components[k]) && b in Union(c) * ToSet(components[k]);
    }
  }

  /** The union of one maximal choice per component is maximal in the whole graph. */
  lemma UnionMaximal(graph: Graph, components: seq<seq<Pass>>, c: seq<set<Pass>>)
    requires Splits(graph, components) && |c| == |components|
    requires forall k :: 0 <= k < |c| ==> MaximalIndependent(graph, ToSet(components[k]), c[k])
    ensures MaximalIndependent(graph, graph.Keys, Union(c))
    ensures forall k :: 0 <= k < |c| ==> Union(c) * ToSet(components[k]) == c[k]
  {
    UnionIndependent(graph, components, c);
    forall t | Union(c) < t <= graph.Keys ensures !Independent(graph, t) {
      var p :| p in t && p !in Union(c);
      var k := HomeComponent(graph, components, p);
      var part := t * ToSet(components[k]);
      assert p in ToSet(components[k]) && p in part;
      assert c[k] <= Union(c) * ToSet(components[k]) <= part;
      assert p !in c[k];
      assert c[k] < part <= ToSet(components[k]);
      assert !Independent(graph, part);
    }
  }

  /** The slices of a set along the components. */
  function Slices(s: set<Pass>, components: seq<seq<Pass>>): (c: seq<set<Pass>>)
    ensures |c| == |components| && forall k :: 0 <= k < |c| ==> c[k] == s * ToSet(components[k])
  {
    seq(|components|, k requires 0 <= k < |components| => s * ToSet(components[k]))
  }

  /** A maximal independent set of the whole graph is maximal in every component. */
  lemma SlicesMaximal(graph: Graph, components: seq<seq<Pass>>, s: set<Pass>)
    requires Splits(graph, components) && MaximalIndependent(graph, graph.Keys, s)
    ensures forall k :: 0 <= k < |components| ==>
              MaximalIndependent(graph, ToSet(components[k]), Slices(s, components)[k])
    ensures Union(Slices(s, components)) == s
  {
    var c := Slices(s, components);
    forall p ensures p in Union(c) <==> p in s {
      if p in s {
        var k := HomeComponent(graph, components, p);
        assert p in c[k];
      }
    }
    forall k | 0 <= k < |components| ensures MaximalIndependent(graph, ToSet(components[k]), c[k]) {
      assert components[k] in components;
      forall t | c[k] < t <= ToSet(components[k]) ensures !Independent(graph, t) {
        if Independent(graph, t) {
          WidenSlice(graph, components, s, k, t);
        }
      }
    }
  }

  /** Enlarging one slice independently enlarges the whole set independently. */
  lemma WidenSlice(graph: Graph, components: seq<seq<Pass>>, s: set<Pass>, k: nat, t: set<Pass>)
    requires Splits(graph, components) && k < |components| && s <= graph.Keys && Independent(graph, s)
    requires s * ToSet(components[k]) < t <= ToSet(components[k]) && Independent(graph, t)
    ensures s < s + t <= graph.Keys && Independent(graph, s + t)
  {
    assert components[k] in components;
    var p :| p in t && p !in s * ToSet(components[k]);
    assert p !in s;
    forall a, b | a in s + t && b in s + t && a in graph && b in graph[a] ensures a == b {
      var home := HomeComponent(graph, components, a);
      assert components[home] in components;
      assert a in ToSet(components[home]) && b in ToSet(components[home]);
      if home != k {
        var low, high := if home < k then home else k, if home < k then k else home;
        assert ToSet(components[low]) !! ToSet(components[high]);
        assert a in s && b in s;
      } else {
        assert a in t && b in t;
      }
    }
  }

  /** A choice of the product: one maximal set per component, recovered from the union. */
  lemma ChoiceIsMaximal(graph: Graph, components: seq<seq<Pass>>, alternatives: seq<seq<set<Pass>>>, c: seq<set<Pass>>)
    requires Splits(graph, components) && AlternativesExact(graph, components, alternatives)
    requires c in Product(alternatives)
    ensures |c| == |components| && MaximalIndependent(graph, graph.Keys, Union(c))
    ensures forall k :: 0 <= k < |c| ==> c[k] == Union(c) * ToSet(components[k])
  {
    hide Splits, MaximalIndependent, Product, Union;
    ProductContents(alternatives, c);
    UnionMaximal(graph, components, c);
  }

  lemma MaximalIsChoice(graph: Graph, components: seq<seq<Pass>>, alternatives: seq<seq<set<Pass>>>, s: set<Pass>)
    requires Splits(graph, components) && AlternativesExact(graph, components, alternatives)
    requires MaximalIndependent(graph, graph.Keys, s)
    ensures Slices(s, components) in Product(alternatives) && Union(Slices(s, components)) == s
  {
    hide Splits, MaximalIndependent, Product, Union, Slices;
    SlicesMaximal(graph, components, s);
    ProductContents(alternatives, Slices(s, components));
  }

  lemma SameUnionSameChoice(graph: Graph, components: seq<seq<Pass>>, alternatives: seq<seq<set<Pass>>>,
                            c: seq<set<Pass>>, d: seq<set<Pass>>)
    requires Splits(graph, components) && AlternativesExact(graph, components, alternatives)
    requires c in Product(alternatives) && d in Product(alternatives) && Union(c) == Union(d)
    ensures c == d
  {
    hide Splits, AlternativesExact, MaximalIndependent, Product, Union;
    ChoiceIsMaximal(graph, components, alternatives, c);
    ChoiceIsMaximal(graph, components, alternatives, d);
    forall k | 0 <= k < |c| ensures c[k] == d[k] {}
  }

  ghost predicate IsUnionOfChoice(alternatives: seq<seq<set<Pass>>>, s: set<Pass>) {
    exists c :: c in Product(alternatives) && Union(c) == s
  }

  lemma UnionsAreMaximal(graph: Graph, components: seq<seq<Pass>>, alternatives: seq<seq<set<Pass>>>, s: set<Pass>)
    requires Splits(graph, components) && AlternativesExact(graph, components, alternatives)
    ensures MaximalIndependent(graph, graph.Keys, s) <==> IsUnionOfChoice(alternatives, s)
  {
    hide Splits, AlternativesExact, MaximalIndependent, Product, Union, Slices;
    if MaximalIndependent(graph, graph.Keys, s) {
      MaximalIsChoice(graph, components, alternatives, s);
    }
    if c :| c in Product(alternatives) && Union(c) == s {
      ChoiceIsMaximal(graph, components, alternatives, c);
    }
  }

  /** The product over the components is the list of the maximal independent
      sets of the whole graph, each once. */
  lemma ProductIsMaximalIndependentSets(graph: Graph, components: seq<seq<Pass>>, alternatives: seq<seq<set<Pass>>>)
    requires Splits(graph, components) && AlternativesExact(graph, components, alternatives)
    ensures forall s :: MaximalIndependent(graph, graph.Keys, s) <==> IsUnionOfChoice(alternatives, s)
    ensures forall c, d :: c in Product(alternatives) && d in Product(alternatives) && Union(c) == Union(d) ==> c == d
    ensures Distinct(Product(alternatives))
  {
    hide Splits, MaximalIndependent, Product, Union, Slices, Distinct, IsUnionOfChoice;
    forall s ensures MaximalIndependent(graph, graph.Keys, s) <==> IsUnionOfChoice(alternatives, s) {
      UnionsAreMaximal(graph, components, alternatives, s);
    }
    forall c, d | c in Product(alternatives) && d in Product(alternatives) && Union(c) == Union(d) ensures c == d {
      SameUnionSameChoice(graph, components, alternatives, c, d);
    }
    forall l | l in alternatives ensures Distinct(l) {
      var k :| 0 <= k < |alternatives| && alternatives[k] == l;
    }
    ProductDistinct(alternatives);
  }

  // ---------------------------------------------------------------- the family

  datatype Family = Family(
    components: seq<seq<Pass>>, exact: seq<bool>, candidates: seq<set<Pass>>, truncated: bool)

  /** One component's alternatives and whether they are exact. */
  method Alternatives(component: seq<Pass>, graph: Graph, active: seq<Pass>, maxComponentSize: int)
    returns (choices: seq<set<Pass>>, exact: bool)
    requires Distinct(component) && |component| > 0
    ensures exact <==> |component| == 1 || |component| <= maxComponentSize
    ensures exact ==> Distinct(choices) && forall s :: s in choices <==> MaximalIndependent(graph, ToSet(component), s)
    ensures forall s :: s in choices ==> s <= ToSet(component) && Independent(graph, s)
    ensures forall p :: p in component ==> exists s :: s in choices && p in s
    ensures choices != []
  {
    if |component| == 1 {
      choices, exact := [{component[0]}], true;
      SingletonComponent(component, graph);
    } else if |component| <= maxComponentSize {
      choices := MaximalIndependentSets(component, graph, active);
      exact := true;
    } else {
      choices := SplitToSingletons(component, graph);
      exact := false;
    }
    forall p | p in component ensures exists s :: s in choices && p in s {
      assert p in ToSet(component);
      if exact {
        var m := IndependentExtends(graph, ToSet(component), {p});
        assert m in choices && p in m;
      } else {
        assert {p} in choices;
      }
    }
    assert component[0] in component;
    var s :| s in choices && component[0] in s;
  }

  lemma SingletonComponent(component: seq<Pass>, graph: Graph)
    requires |component| == 1
    ensures forall s :: s == {component[0]} <==> MaximalIndependent(graph, ToSet(component), s)
  {
    assert ToSet(component) == {component[0]} by { assert component[0] in component; }
    assert Independent(graph, {component[0]});
    forall s | MaximalIndependent(graph, ToSet(component), s) ensures s == {component[0]} {
      assert !(s < {component[0]});
    }
  }

  method SplitToSingletons(component: seq<Pass>, graph: Graph) returns (choices: seq<set<Pass>>)
    ensures forall p :: p in component ==> {p} in choices
    ensures forall s :: s in choices ==> s <= ToSet(component) && Independent(graph, s)
  {
    choices := [];
    for i := 0 to |component|
      invariant forall p :: p in component[..i] ==> {p} in choices
      invariant forall s :: s in choices ==> s <= ToSet(component) && Independent(graph, s)
    {
      assert component[..i + 1] == component[..i] + [component[i]];
      choices := choices + [{component[i]}];
    }
    assert component[..|component|] == component;
  }

  /** `_candidate_rows`: at most `maxBatchCandidates` members of the product. */
  method CandidateRows(alternatives: seq<seq<set<Pass>>>, maxBatchCandidates: int)
    returns (candidates: seq<set<Pass>>, truncated: bool)
    ensures alternatives == [] ==> candidates == [] && !truncated
    ensures alternatives != [] ==>
              && (truncated <==> |Product(alternatives)| > maxBatchCandidates && Product(alternatives) != [])
              && |candidates| <= |Product(alternatives)|
              && (!truncated ==> |candidates| == |Product(alternatives)|)
              && (truncated ==> |candidates| == if maxBatchCandidates < 0 then 0 else maxBatchCandidates)
              && forall i :: 0 <= i < |candidates| ==> candidates[i] == Union(Product(alternatives)[i])
  {
    candidates, truncated := [], false;
    if alternatives == [] {
      return;
    }
    var product := Product(alternatives);
    for index := 0 to |product|
      invariant |candidates| == index && !truncated
      invariant index > 0 ==> index <= maxBatchCandidates
      invariant forall i :: 0 <= i < index ==> candidates[i] == Union(product[i])
    {
      if index >= maxBatchCandidates {
        truncated := true;
        break;
      }
      candidates := candidates + [Union(product[index])];
    }
  }

  ghost predicate AllExact(family: Family) {
    forall k :: 0 <= k < |family.exact| ==> family.exact[k]
  }

  /** Every pair is on record as commuting. */
  ghost predicate PairwiseCommute(relations: Relations, s: set<Pass>) {
    forall a, b :: a in s && b in s && a != b ==> {a, b} in relations && relations[{a, b}] == FinalCommute
  }

  /** `build_batch_family`. */
  method BuildBatchFamily(active: seq<Pass>, relations: Relations, maxComponentSize: int, maxBatchCandidates: int)
    returns (family: Family, ghost graph: Graph)
    requires Distinct(active)
    ensures IsConflictGraph(active, relations, graph) && Splits(graph, family.components)
    ensures |family.exact| == |family.components|
    ensures forall k :: 0 <= k < |family.exact| ==>
              (family.exact[k] <==> |family.components[k]| == 1 || |family.components[k]| <= maxComponentSize)
    // every candidate is a set of active passes that commute pairwise, whatever was cut
    ensures forall s :: s in family.candidates ==> s <= ToSet(active) && PairwiseCommute(relations, s)
    // nothing is left out unless the product was cut
    ensures !family.truncated ==> forall p :: p in active ==> exists s :: s in family.candidates && p in s
    // with everything exact the candidates are the maximal independent sets, each once;
    // the one exception is the empty set, which nothing is emitted for
    ensures AllExact(family) && !family.truncated ==>
              && Distinct(family.candidates)
              && ((forall s :: s in family.candidates <==> MaximalIndependent(graph, ToSet(active), s)) <==>
                 active != [])
    ensures active == [] ==> family.candidates == [] && !family.truncated
    // limits that are never reached
    ensures maxComponentSize >= |active| ==> AllExact(family)
    ensures AllExact(family) && maxBatchCandidates >= Pow2(|active|) ==> !family.truncated
    // a cut product still fills the limit
    ensures family.truncated ==> |family.candidates| == if maxBatchCandidates < 0 then 0 else maxBatchCandidates
  {
    hide IsConflictGraph, PartitionOf, MaximalIndependent, Independent, IsReachabilityClass, Reaches, FirstsAscend,
         AlternativesExact, AlternativesSound, PairwiseCommute, Splits, Distinct, Product, Union;
    var g := BuildConflictGraph(active, relations);
    graph := g;
    ConflictGraphShape(active, relations, g);
    var components := ConnectedComponents(active, g);
    ComponentsSplit(active, g, components);
    var alternatives, exact := [], [];
    ghost var allExact := true;
    NoAlternatives(g, components);
    for k := 0 to |components|
      invariant |alternatives| == |exact| == k
      invariant AlternativesSound(g, components[..k], alternatives)
      invariant allExact <==> forall l :: 0 <= l < k ==> exact[l]
      invariant allExact ==> AlternativesExact(g, components[..k], alternatives)
      invariant forall l :: 0 <= l < k ==> (exact[l] <==> |components[l]| == 1 || |components[l]| <= maxComponentSize)
    {
      ComponentShape(g, components, k);
      var choices, isExact := Alternatives(components[k], g, active, maxComponentSize);
      OneAlternativeMore(g, components, k, alternatives, choices, isExact);
      ghost var before := exact;
      alternatives, exact := alternatives + [choices], exact + [isExact];
      assert exact[k] == isExact && forall l :: 0 <= l < k ==> exact[l] == before[l];
      allExact := allExact && isExact;
    }
    assert components[..|components|] == components;
    var candidates, truncated := CandidateRows(alternatives, maxBatchCandidates);
    family := Family(components, exact, candidates, truncated);
    NoComponents(active, g, components);
    ComponentsWithin(active, g, components);
    if AllExact(family) && alternatives != [] {
      ProductIsSmall(active, g, components, alternatives);
    }
    if alternatives == [] {
      EmptyFamily(active, components);
      NothingEmitted(g);
    } else {
      CandidatesCommute(active, relations, g, components, alternatives, candidates);
      if !truncated {
        CandidatesCover(active, relations, g, components, alternatives, candidates);
        if AllExact(family) {
          CandidatesExact(active, g, components, alternatives, candidates);
        }
      }
    }
  }

  lemma ConflictGraphShape(active: seq<Pass>, relations: Relations, graph: Graph)
    requires IsConflictGraph(active, relations, graph)
    ensures graph.Keys == ToSet(active) && Inside(active, graph) && Symmetric(graph)
  {
    forall a, b | a in graph && b in graph[a] ensures b in graph && a in graph[b] {
      ConflictSymmetric(relations, a, b);
      assert a in ToSet(active) && b in ToSet(active);
    }
  }

  lemma ComponentsSplit(active: seq<Pass>, graph: Graph, components: seq<seq<Pass>>)
    requires graph.Keys == ToSet(active) && PartitionOf(ToSet(active), components)
    requires forall c :: c in components ==> Closed(graph, ToSet(c))
    ensures Splits(graph, components)
  {
  }

  lemma ComponentShape(graph: Graph, components: seq<seq<Pass>>, k: nat)
    requires Splits(graph, components) && k < |components|
    ensures Distinct(components[k]) && |components[k]| > 0
  {
    assert components[k] in components;
  }

  lemma NoComponents(active: seq<Pass>, graph: Graph, components: seq<seq<Pass>>)
    requires graph.Keys == ToSet(active) && Splits(graph, components)
    ensures components == [] <==> active == []
  {
    if active != [] {
      assert active[0] in ToSet(active);
    }
    if components != [] {
      assert components[0] in components;
      assert components[0][0] in ToSet(components[0]);
      assert components[0][0] in ToSet(active);
    }
  }

  lemma EmptyFamily(active: seq<Pass>, components: seq<seq<Pass>>)
    requires components == [] <==> active == []
    ensures components == [] ==> forall p :: p !in active
  {
  }

  lemma NoAlternatives(graph: Graph, components: seq<seq<Pass>>)
    ensures AlternativesSound(graph, components[..0], []) && AlternativesExact(graph, components[..0], [])
  {
  }

  lemma OneAlternativeMore(graph: Graph, components: seq<seq<Pass>>, k: nat, alternatives: seq<seq<set<Pass>>>,
                           choices: seq<set<Pass>>, exact: bool)
    requires k < |components| && |alternatives| == k && AlternativesSound(graph, components[..k], alternatives)
    requires forall s :: s in choices ==> s <= ToSet(components[k]) && Independent(graph, s)
    requires forall p :: p in components[k] ==> exists s :: s in choices && p in s
    requires choices != []
    requires exact ==>
              Distinct(choices) && forall s :: s in choices <==> MaximalIndependent(graph, ToSet(components[k]), s)
    ensures AlternativesSound(graph, components[..k + 1], alternatives + [choices])
    ensures exact && AlternativesExact(graph, components[..k], alternatives) ==>
              AlternativesExact(graph, components[..k + 1], alternatives + [choices])
  {
    assert components[..k + 1] == components[..k] + [components[k]];
  }

  lemma CandidatesCommute(active: seq<Pass>, relations: Relations, graph: Graph, components: seq<seq<Pass>>,
                          alternatives: seq<seq<set<Pass>>>, candidates: seq<set<Pass>>)
    requires IsConflictGraph(active, relations, graph) && Splits(graph, components)
    requires AlternativesSound(graph, components, alternatives)
    requires |candidates| <= |Product(alternatives)|
    requires forall i :: 0 <= i < |candidates| ==> candidates[i] == Union(Product(alternatives)[i])
    ensures forall s :: s in candidates ==> s <= ToSet(active) && PairwiseCommute(relations, s)
  {
    forall s | s in candidates ensures s <= ToSet(active) && PairwiseCommute(relations, s) {
      var i :| 0 <= i < |candidates| && candidates[i] == s;
      var c := Product(alternatives)[i];
      ProductContents(alternatives, c);
      UnionIndependent(graph, components, c);
      forall a, b | a in s && b in s && a != b ensures Commute(relations, a, b) {
        assert a in graph && b in graph && b !in graph[a];
        assert b in ToSet(active);
      }
    }
  }

  lemma CandidatesCover(active: seq<Pass>, relations: Relations, graph: Graph, components: seq<seq<Pass>>,
                        alternatives: seq<seq<set<Pass>>>, candidates: seq<set<Pass>>)
    requires graph.Keys == ToSet(active) && Splits(graph, components)
    requires AlternativesSound(graph, components, alternatives)
    requires |candidates| == |Product(alternatives)|
    requires forall i :: 0 <= i < |candidates| ==> candidates[i] == Union(Product(alternatives)[i])
    ensures forall p :: p in active ==> exists s :: s in candidates && p in s
  {
    forall p | p in active ensures exists s :: s in candidates && p in s {
      assert p in ToSet(active);
      var i := CoveringChoice(graph, components, alternatives, p);
      assert candidates[i] in candidates;
    }
  }

  lemma CoveringChoice(graph: Graph, components: seq<seq<Pass>>, alternatives: seq<seq<set<Pass>>>, p: Pass)
    returns (i: nat)
    requires p in graph && Splits(graph, components) && AlternativesSound(graph, components, alternatives)
    ensures i < |Product(alternatives)| && p in Union(Product(alternatives)[i])
  {
    hide Product, Union, PicksFrom, Splits, AlternativesSound;
    var k := HomeComponent(graph, components, p);
    var c := ChoiceCovering(graph, components, alternatives, k, p);
    ProductContents(alternatives, c);
    i := PositionOf(Product(alternatives), c);
  }

  lemma PositionOf<T>(s: seq<T>, x: T) returns (i: nat)
    requires x in s
    ensures i < |s| && s[i] == x
  {
    i :| 0 <= i < |s| && s[i] == x;
  }

  /** A choice of alternatives whose member for component `k` holds `p`. */
  lemma ChoiceCovering(graph: Graph, components: seq<seq<Pass>>, alternatives: seq<seq<set<Pass>>>, k: nat, p: Pass)
    returns (c: seq<set<Pass>>)
    requires AlternativesSound(graph, components, alternatives) && k < |components| && p in components[k]
    ensures PicksFrom(c, alternatives) && p in Union(c)
  {
    hide Union, Independent;
    var s :| s in alternatives[k] && p in s;
    c := seq(|alternatives|, l requires 0 <= l < |alternatives| => if l == k then s else alternatives[l][0]);
    assert p in c[k];
  }

  lemma CandidatesExact(active: seq<Pass>, graph: Graph, components: seq<seq<Pass>>,
                        alternatives: seq<seq<set<Pass>>>, candidates: seq<set<Pass>>)
    requires graph.Keys == ToSet(active) && Splits(graph, components)
    requires AlternativesExact(graph, components, alternatives)
    requires |candidates| == |Product(alternatives)|
    requires forall i :: 0 <= i < |candidates| ==> candidates[i] == Union(Product(alternatives)[i])
    ensures Distinct(candidates)
    ensures forall s :: s in candidates <==> MaximalIndependent(graph, ToSet(active), s)
  {
    ProductIsMaximalIndependentSets(graph, components, alternatives);
    var product := Product(alternatives);
    forall i, j | 0 <= i < j < |candidates| ensures candidates[i] != candidates[j] {
      assert product[i] in product && product[j] in product && product[i] != product[j];
    }
    forall s ensures s in candidates <==> MaximalIndependent(graph, ToSet(active), s) {
      if s in candidates {
        var i :| 0 <= i < |candidates| && candidates[i] == s;
        assert product[i] in product;
      }
      if MaximalIndependent(graph, ToSet(active), s) {
        var c :| c in product && Union(c) == s;
        var i :| 0 <= i < |product| && product[i] == c;
        assert candidates[i] == s;
      }
    }
  }

  lemma ComponentsWithin(active: seq<Pass>, graph: Graph, components: seq<seq<Pass>>)
    requires Distinct(active) && graph.Keys == ToSet(active) && Splits(graph, components)
    ensures forall c :: c in components ==> |c| <= |active|
  {
    DistinctSize(active);
    forall c | c in components ensures |c| <= |active| {
      DistinctSize(c);
      forall p | p in ToSet(c) ensures p in ToSet(active) { assert p in graph; }
      SubsetSize(ToSet(c), ToSet(active));
    }
  }

  /** Exact alternatives have no more combinations than there are subsets. */
  lemma ProductIsSmall(active: seq<Pass>, graph: Graph, components: seq<seq<Pass>>, alternatives: seq<seq<set<Pass>>>)
    requires Distinct(active) && graph.Keys == ToSet(active) && Splits(graph, components)
    requires AlternativesExact(graph, components, alternatives)
    ensures |Product(alternatives)| <= Pow2(|active|)
  {
    hide Product, Union, Splits, AlternativesExact, Distinct, Subsets;
    var product := Product(alternatives);
    var unions := seq(|product|, i requires 0 <= i < |product| => Union(product[i]));
    CandidatesExact(active, graph, components, alternatives, unions);
    forall s | s in ToSet(unions) ensures s in ToSet(Subsets(active)) {
      assert MaximalIndependent(graph, ToSet(active), s);
      SubsetsContents(active, s);
    }
    DistinctSize(unions);
    SubsetsDistinct(active);
    DistinctSize(Subsets(active));
    SubsetSize(ToSet(unions), ToSet(Subsets(active)));
  }

  /** Without passes the empty set is the one maximal independent set all the same. */
  lemma NothingEmitted(graph: Graph)
    requires graph.Keys == ToSet([])
    ensures forall s :: MaximalIndependent(graph, ToSet([]), s) <==> s == {}
    ensures MaximalIndependent(graph, ToSet([]), {}) && Distinct<set<Pass>>([])
  {
    assert graph == map[] && ToSet<Pass>([]) == {};
  }
}
