/** How large a complete permutation DAG is: never below the subset lattice,
    and exactly when it equals it. */
module DagCounting {
  import opened Basics
  import opened SubsetLists
  import opened Toolchains
  import opened DagEvidence
  import opened PermutationDags

  /** Total number of passes missing from the listed subsets of `n` passes. */
  function Missing(n: nat, sets: seq<set<Pass>>): int {
    if sets == [] then 0 else Missing(n, sets[..|sets| - 1]) + (n - |sets[|sets| - 1]|)
  }

  lemma {:induction false} MissingConcat(n: nat, a: seq<set<Pass>>, b: seq<set<Pass>>)
    ensures Missing(n, a + b) == Missing(n, a) + Missing(n, b)
  {
    if b == [] {
      assert a + b == a;
    } else {
      MissingConcat(n, a, b[..|b| - 1]);
      assert (a + b)[..|a + b| - 1] == a + b[..|b| - 1];
    }
  }

  lemma {:induction false} MissingOneMore(n: nat, sets: seq<set<Pass>>, p: Pass)
    requires forall t :: t in sets ==> p !in t
    ensures Missing(n + 1, sets) == Missing(n, sets) + |sets|
    ensures Missing(n + 1, With(sets, p)) == Missing(n, sets)
  {
    if sets != [] {
      var init, last := sets[..|sets| - 1], sets[|sets| - 1];
      assert last in sets && forall t :: t in init ==> t in sets;
      MissingOneMore(n, init, p);
      assert |last + {p}| == |last| + 1;
      assert With(sets, p)[..|With(sets, p)| - 1] == With(init, p);
    }
  }

  /** Summed over all subsets of n passes, n * 2^(n-1) passes are missing. */
  lemma {:induction false} MissingFromAllSubsets(items: seq<Pass>)
    requires Distinct(items)
    ensures 2 * Missing(|items|, Subsets(items)) == |items| * Pow2(|items|)
  {
    if items != [] {
      var init, p := items[..|items| - 1], items[|items| - 1];
      DistinctLast(items);
      MissingFromAllSubsets(init);
      var smaller := Subsets(init);
      forall t | t in smaller ensures p !in t { SubsetsContents(init, t); }
      MissingOneMore(|init|, smaller, p);
      MissingConcat(|items|, smaller, With(smaller, p));
      SubsetsDistinct(init);
      DoublePower(|init|, Pow2(|init|));
    }
  }

  lemma DoublePower(n: nat, power: nat)
    ensures 2 * (n * power) + 2 * power == (n + 1) * (2 * power)
  {
  }

  // ------------------------------------------------- a list covering another

  lemma {:induction false} MissingWithout(n: nat, sets: seq<set<Pass>>, i: nat)
    requires i < |sets|
    ensures Missing(n, sets) == Missing(n, sets[..i] + sets[i + 1..]) + (n - |sets[i]|)
  {
    var tail := sets[i + 1..];
    MissingConcat(n, sets[..i], tail);
    MissingConcat(n, sets[..i] + [sets[i]], tail);
    assert sets == sets[..i] + [sets[i]] + tail;
    MissingConcat(n, sets[..i], [sets[i]]);
    assert Missing(n, [sets[i]]) == n - |sets[i]| by { assert [sets[i]][..0] == []; }
  }

  lemma RemoveAt<T>(list: seq<T>, i: nat)
    requires i < |list|
    ensures multiset(list) == multiset(list[..i] + list[i + 1..]) + multiset{list[i]}
    ensures forall t :: t in list && t != list[i] ==> t in list[..i] + list[i + 1..]
  {
    assert list == list[..i] + [list[i]] + list[i + 1..];
  }

  /** What remains of `all` after taking each member of the duplicate-free `part` out once. */
  lemma {:induction false} TakeOut(n: nat, all: seq<set<Pass>>, part: seq<set<Pass>>) returns (rest: seq<set<Pass>>)
    requires Distinct(part) && forall s :: s in part ==> s in all
    ensures multiset(all) == multiset(part) + multiset(rest) && |all| == |part| + |rest|
    ensures Missing(n, all) == Missing(n, part) + Missing(n, rest)
  {
    if part == [] {
      rest := all;
    } else {
      var init, s := part[..|part| - 1], part[|part| - 1];
      DistinctLast(part);
      assert s in part && forall t :: t in init ==> t in part;
      var i :| 0 <= i < |all| && all[i] == s;
      var fewer := all[..i] + all[i + 1..];
      RemoveAt(all, i);
      rest := TakeOut(n, fewer, init);
      MissingWithout(n, all, i);
      RemoveAt(part, |part| - 1);
      assert init + part[|part|..] == init;
    }
  }

  lemma {:induction false} MissingIsZero(n: nat, sets: seq<set<Pass>>)
    requires forall s :: s in sets ==> |s| <= n
    ensures Missing(n, sets) >= 0
    ensures Missing(n, sets) == 0 <==> forall s :: s in sets ==> |s| == n
  {
    if sets != [] {
      var init, last := sets[..|sets| - 1], sets[|sets| - 1];
      assert sets == init + [last];
      assert forall s :: s in sets <==> s in init || s == last;
      MissingIsZero(n, init);
    }
  }

  // ------------------------------------------------------------ the DAG size

  function SubsetList(nodes: seq<DagNode>): seq<set<Pass>> {
    if nodes == [] then [] else SubsetList(nodes[..|nodes| - 1]) + [nodes[|nodes| - 1].subset]
  }

  lemma {:induction false} ClassesAreCounted(nodes: seq<DagNode>, s: set<Pass>)
    ensures |SubsetList(nodes)| == |nodes|
    ensures multiset(SubsetList(nodes))[s] == |Bucket(nodes, s)|
  {
    if nodes != [] {
      ClassesAreCounted(nodes[..|nodes| - 1], s);
    }
  }

  lemma {:induction false} WorkIsMissing(nodes: seq<DagNode>, n: nat)
    requires forall m :: m in nodes ==> m.depth == |m.subset| <= n
    ensures Work(nodes, n, n) == Missing(n, SubsetList(nodes))
  {
    if nodes != [] {
      hide Work, Missing, SubsetList;
      var init, last := nodes[..|nodes| - 1], nodes[|nodes| - 1];
      assert last in nodes && forall m :: m in init ==> m in nodes;
      WorkIsMissing(init, n);
      LastNodeCounts(nodes, n);
    }
  }

  lemma LastNodeCounts(nodes: seq<DagNode>, n: nat)
    requires nodes != [] && nodes[|nodes| - 1].depth == |nodes[|nodes| - 1].subset| <= n
    ensures var (init, last) := (nodes[..|nodes| - 1], nodes[|nodes| - 1]);
            && Work(nodes, n, n) == Work(init, n, n) + (n - last.depth)
            && Missing(n, SubsetList(nodes)) == Missing(n, SubsetList(init)) + (n - last.depth)
  {
    var (init, last) := (nodes[..|nodes| - 1], nodes[|nodes| - 1]);
    assert (SubsetList(init) + [last.subset])[..|SubsetList(init)|] == SubsetList(init);
  }

  lemma {:induction false} SubsetOrigin(nodes: seq<DagNode>, s: set<Pass>) returns (m: DagNode)
    requires s in SubsetList(nodes)
    ensures m in nodes && m.subset == s
  {
    var init, last := nodes[..|nodes| - 1], nodes[|nodes| - 1];
    if s == last.subset {
      m := last;
    } else {
      m := SubsetOrigin(init, s);
    }
  }

  /** Every subset of the passes is visited, whatever the tools answer. */
  lemma {:induction false} EverySubsetHasANode(tc: Toolchain, root: Ir, passes: seq<Pass>, nodes: seq<DagNode>,
                                               s: seq<Pass>)
    requires CompleteEvidence(tc, root, passes, nodes)
    requires Distinct(passes) && Distinct(s) && ToSet(s) <= ToSet(passes)
    ensures |Bucket(nodes, ToSet(s))| > 0
  {
    if s == [] {
      assert nodes[0] in Bucket(nodes, {});
      assert ToSet(s) == {};
    } else {
      var init, p := s[..|s| - 1], s[|s| - 1];
      DistinctLast(s);
      EverySubsetHasANode(tc, root, passes, nodes, init);
      var m := Bucket(nodes, ToSet(init))[0];
      assert m in Bucket(nodes, ToSet(init));
      NodeWellFormed(tc, root, passes, nodes, m);
      DistinctSize(s);
      DistinctSize(init);
      DistinctSize(passes);
      SubsetSize(ToSet(s), ToSet(passes));
      assert p in ToSet(s);
      assert Landed(tc, nodes, m, p);
      var m', out :| m' in nodes && LandedAt(tc, m, p, m', out);
      assert m' in Bucket(nodes, ToSet(s));
    }
  }

  lemma {:induction false} ListOf(s: set<Pass>) returns (order: seq<Pass>)
    ensures Distinct(order) && ToSet(order) == s
  {
    if s == {} {
      order := [];
    } else {
      var p :| p in s;
      var rest := ListOf(s - {p});
      order := rest + [p];
      ToSetAppend(rest, p);
      assert p !in ToSet(rest);
    }
  }

  ghost predicate OneClassEach(passes: seq<Pass>, nodes: seq<DagNode>) {
    forall s :: s <= ToSet(passes) ==> |Bucket(nodes, s)| == 1
  }

  /** As `OneClassEach`, but the full batch may end in several classes. */
  ghost predicate OneClassEachBeforeTheEnd(passes: seq<Pass>, nodes: seq<DagNode>) {
    forall s :: s < ToSet(passes) ==> |Bucket(nodes, s)| == 1
  }

  /** A complete DAG over n passes has at least 2^n nodes and n * 2^(n-1)
      edges. It has exactly 2^n nodes when every subset has one class; it has
      exactly n * 2^(n-1) edges already when every proper subset has one. */
  lemma CompleteDagSize(tc: Toolchain, root: Ir, passes: seq<Pass>, nodes: seq<DagNode>)
    requires Distinct(passes) && CompleteEvidence(tc, root, passes, nodes)
    ensures |nodes| >= Pow2(|passes|)
    ensures |nodes| == Pow2(|passes|) <==> OneClassEach(passes, nodes)
    ensures 2 * Work(nodes, |passes|, |passes|) >= |passes| * Pow2(|passes|)
    ensures 2 * Work(nodes, |passes|, |passes|) == |passes| * Pow2(|passes|) <==>
            OneClassEachBeforeTheEnd(passes, nodes)
  {
    var n := |passes|;
    var rest := NodesBeyondTheLattice(tc, root, passes, nodes);
    MissingFromAllSubsets(passes);
    SubsetsDistinct(passes);
    MissingIsZero(n, rest);
    BeyondTheLattice(passes, nodes, rest);
  }

  /** The subsets of the nodes, minus one node per subset of the passes. */
  lemma NodesBeyondTheLattice(tc: Toolchain, root: Ir, passes: seq<Pass>, nodes: seq<DagNode>)
    returns (rest: seq<set<Pass>>)
    requires Distinct(passes) && CompleteEvidence(tc, root, passes, nodes)
    ensures multiset(SubsetList(nodes)) == multiset(Subsets(passes)) + multiset(rest)
    ensures |nodes| == Pow2(|passes|) + |rest|
    ensures Work(nodes, |passes|, |passes|) == Missing(|passes|, Subsets(passes)) + Missing(|passes|, rest)
    ensures forall s :: s in rest ==> s <= ToSet(passes) && |s| <= |passes|
  {
    var n := |passes|;
    DistinctSize(passes);
    forall m | m in nodes ensures m.depth == |m.subset| <= n && m.subset <= ToSet(passes) {
      NodeWellFormed(tc, root, passes, nodes, m);
      SubsetSize(m.subset, ToSet(passes));
    }
    WorkIsMissing(nodes, n);
    ClassesAreCounted(nodes, {});
    var all := SubsetList(nodes);
    forall s | s in Subsets(passes) ensures s in all {
      SubsetsContents(passes, s);
      var order := ListOf(s);
      EverySubsetHasANode(tc, root, passes, nodes, order);
      ClassesAreCounted(nodes, s);
      assert multiset(all)[s] > 0;
    }
    SubsetsDistinct(passes);
    rest := TakeOut(n, all, Subsets(passes));
    forall s | s in rest ensures s <= ToSet(passes) && |s| <= n {
      assert s in multiset(all);
      var m := SubsetOrigin(nodes, s);
    }
  }

  lemma BeyondTheLattice(passes: seq<Pass>, nodes: seq<DagNode>, rest: seq<set<Pass>>)
    requires Distinct(passes)
    requires multiset(SubsetList(nodes)) == multiset(Subsets(passes)) + multiset(rest)
    requires forall s :: s in rest ==> s <= ToSet(passes) && |s| <= |passes|
    ensures |rest| == 0 <==> OneClassEach(passes, nodes)
    ensures (forall s :: s in rest ==> |s| == |passes|) <==> OneClassEachBeforeTheEnd(passes, nodes)
  {
    forall s | s <= ToSet(passes) ensures |Bucket(nodes, s)| == 1 + multiset(rest)[s] {
      ClassesAreCounted(nodes, s);
      SubsetsContents(passes, s);
      SubsetsDistinct(passes);
      OnceInDistinct(Subsets(passes), s);
    }
    DistinctSize(passes);
    forall s | s <= ToSet(passes) ensures |s| == |passes| <==> s == ToSet(passes) {
      if |s| == |passes| { SubsetOfSameSize(s, ToSet(passes)); }
    }
    forall s ensures s in rest <==> multiset(rest)[s] > 0 {
      assert s in rest <==> s in multiset(rest);
    }
    if |rest| > 0 {
      assert rest[0] in rest;
    }
  }

  lemma {:induction false} OnceInDistinct<T>(list: seq<T>, x: T)
    requires Distinct(list) && x in list
    ensures multiset(list)[x] == 1
  {
    var init, last := list[..|list| - 1], list[|list| - 1];
    DistinctLast(list);
    assert list == init + [last];
    if x in init {
      OnceInDistinct(init, x);
    } else {
      assert x !in multiset(init);
    }
  }
}
