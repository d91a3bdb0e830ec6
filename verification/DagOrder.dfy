/** The order in which a permutation DAG lists its nodes. Layers and final nodes are
    sorted by the text of their ids, and the documentation wants the canonical order
    to come first. */
module DagOrder {
  import opened Basics
  import opened Toolchains
  import opened NodeNames
  import opened DagEvidence
  import opened DagMemory

  /** The first node created at depth `d` follows the canonical order. */
  ghost predicate CanonicalFirst(nodes: seq<DagNode>, passes: seq<Pass>, d: nat)
    requires d <= |passes|
  {
    exists i :: 0 <= i < |nodes| && nodes[i].depth == d && nodes[i].path == passes[..d]
                && forall j :: 0 <= j < i ==> nodes[j].depth < d
  }

  /** Nodes are created depth by depth. */
  ghost predicate Layered(nodes: seq<DagNode>) {
    forall i, j :: 0 <= i < j < |nodes| ==> nodes[i].depth <= nodes[j].depth
  }

  /** How many nodes are less deep than `d`. */
  function Before(nodes: seq<DagNode>, d: nat): (count: nat)
    ensures count <= |nodes|
  {
    if nodes == [] then 0
    else Before(nodes[..|nodes| - 1], d) + if nodes[|nodes| - 1].depth < d then 1 else 0
  }

  lemma {:induction false} BeforeSplits(nodes: seq<DagNode>, d: nat, c: nat)
    requires c <= |nodes|
    requires forall i :: 0 <= i < c ==> nodes[i].depth < d
    requires forall i :: c <= i < |nodes| ==> nodes[i].depth >= d
    ensures Before(nodes, d) == c
  {
    if nodes != [] {
      BeforeSplits(nodes[..|nodes| - 1], d, if c < |nodes| then c else c - 1);
    }
  }

  lemma NameOrderIsStrictWeak()
    ensures StrictWeakOrder((a: DagNode, b: DagNode) => TextBefore(NodeName(a.id), NodeName(b.id)))
  {
    forall a: DagNode, b: DagNode | TextBefore(NodeName(a.id), NodeName(b.id))
      ensures !TextBefore(NodeName(b.id), NodeName(a.id))
    {
      TextAsymmetric(NodeName(a.id), NodeName(b.id));
    }
    forall a: DagNode, b: DagNode, c: DagNode
      | !TextBefore(NodeName(a.id), NodeName(b.id)) && !TextBefore(NodeName(b.id), NodeName(c.id))
      ensures !TextBefore(NodeName(a.id), NodeName(c.id))
    {
      TextNegativelyTransitive(NodeName(a.id), NodeName(b.id), NodeName(c.id));
    }
  }

  /** Sorting by name puts the oldest of short-named nodes first. */
  lemma OldestSortsFirst(nodes: seq<DagNode>, oldest: DagNode)
    requires oldest in nodes && oldest.id < 10000
    requires forall n :: n in nodes ==> n == oldest || oldest.id < n.id < 10000
    ensures |ByName(nodes)| > 0 && ByName(nodes)[0] == oldest
  {
    var before := (a: DagNode, b: DagNode) => TextBefore(NodeName(a.id), NodeName(b.id));
    NameOrderIsStrictWeak();
    SortBySorted(before, nodes);
    SortByContents(before, nodes);
    var sorted := ByName(nodes);
    assert oldest in ToSet(sorted);
    var i :| 0 <= i < |sorted| && sorted[i] == oldest;
    assert sorted[0] in ToSet(sorted);
    if sorted[0] != oldest {
      assert !before(sorted[i], sorted[0]);
      ShortNamesFollowNumbers(oldest.id, sorted[0].id);
    }
  }

  /** A node whose name comes after another one's does not sort first. */
  lemma NotFirst(nodes: seq<DagNode>, late: DagNode, early: DagNode)
    requires late in nodes && early in nodes && TextBefore(NodeName(early.id), NodeName(late.id))
    ensures |ByName(nodes)| > 0 && ByName(nodes)[0] != late
  {
    var before := (a: DagNode, b: DagNode) => TextBefore(NodeName(a.id), NodeName(b.id));
    NameOrderIsStrictWeak();
    SortBySorted(before, nodes);
    ByNameContents(nodes);
    var sorted := ByName(nodes);
    var i :| 0 <= i < |sorted| && sorted[i] == early;
    assert i > 0 ==> !before(sorted[i], sorted[0]);
    if early == late { TextAsymmetric(NodeName(early.id), NodeName(late.id)); }
  }

  // ------------------------------------------------------- the final nodes

  /** The final nodes are the deepest ones, and so the last ones created. */
  lemma FinalsAreLast(tc: Toolchain, root: Ir, passes: seq<Pass>, nodes: seq<DagNode>)
    requires Distinct(passes) && Grown(tc, root, passes, nodes)
    ensures forall n :: n in Finals(nodes, passes) <==> n in nodes && n.depth == |passes|
    ensures forall n :: n in nodes ==> n.depth <= |passes|
  {
    DistinctSize(passes);
    forall n | n in nodes ensures n.depth <= |passes| && (n.subset == ToSet(passes) <==> n.depth == |passes|) {
      var i :| 0 <= i < |nodes| && nodes[i] == n;
      assert WellFormed(tc, passes, nodes[i]);
      SubsetSize(n.subset, ToSet(passes));
      if n.depth == |passes| { SubsetOfSameSize(n.subset, ToSet(passes)); }
    }
  }

  lemma {:induction false} FinalsCount(nodes: seq<DagNode>, passes: seq<Pass>)
    requires forall n :: n in nodes ==> (n.subset == ToSet(passes) <==> n.depth >= |passes|)
    ensures |Finals(nodes, passes)| + Before(nodes, |passes|) == |nodes|
  {
    if nodes != [] {
      var init := nodes[..|nodes| - 1];
      assert nodes[|nodes| - 1] in nodes && forall n :: n in init ==> n in nodes;
      FinalsCount(init, passes);
    }
  }

  /** The node the canonical order founded at the last depth. */
  lemma CanonicalFinal(tc: Toolchain, root: Ir, passes: seq<Pass>, nodes: seq<DagNode>) returns (c: nat)
    requires Distinct(passes) && Grown(tc, root, passes, nodes) && Layered(nodes)
    requires CanonicalFirst(nodes, passes, |passes|)
    ensures c == Before(nodes, |passes|) < |nodes| && nodes[c].path == passes && |Finals(nodes, passes)| == |nodes| - c
    ensures forall i :: 0 <= i < |nodes| ==> (nodes[i] in Finals(nodes, passes) <==> i >= c)
  {
    hide HasOrigin, WellFormed, Finals;
    c :| 0 <= c < |nodes| && nodes[c].depth == |passes| && nodes[c].path == passes[..|passes|]
         && forall j :: 0 <= j < c ==> nodes[j].depth < |passes|;
    assert passes[..|passes|] == passes;
    FinalsAreLast(tc, root, passes, nodes);
    BeforeSplits(nodes, |passes|, c);
    forall i | 0 <= i < |nodes| ensures nodes[i] in Finals(nodes, passes) <==> i >= c {
      assert nodes[i] in nodes;
    }
    forall n | n in nodes ensures n.subset == ToSet(passes) <==> n.depth >= |passes| {
      assert n in Finals(nodes, passes) <==> n.depth == |passes|;
      FinalSubset(nodes, passes, n);
    }
    FinalsCount(nodes, passes);
  }

  lemma FinalSubset(nodes: seq<DagNode>, passes: seq<Pass>, n: DagNode)
    requires n in nodes
    ensures n in Finals(nodes, passes) <==> n.subset == ToSet(passes)
  {
  }

  /** The last pass of a final path is the one its parent lacks, so there are at most
      as many final nodes as others. */
  lemma FinalsHaveParents(tc: Toolchain, root: Ir, passes: seq<Pass>, nodes: seq<DagNode>, stock: Table, table: Table,
                          c: nat)
    requires Grown(tc, root, passes, nodes) && Apart(tc, nodes) && Recorded(tc, nodes, stock, table)
    requires Distinct(passes) && passes != [] && c <= |nodes|
    requires forall i :: c <= i < |nodes| ==> nodes[i].subset == ToSet(passes)
    ensures |nodes| - c <= c
  {
    hide Grown, Apart, Recorded, Distinct;
    var parents: seq<nat> := [];
    for i := c to |nodes|
      invariant |parents| == i - c && forall k :: 0 <= k < |parents| ==> IsParent(nodes, c, parents[k], c + k)
    {
      var j := ParentBeforeFinals(tc, root, passes, nodes, stock, table, c, i);
      parents := parents + [j];
    }
    forall a, b | 0 <= a < b < |parents| ensures parents[a] != parents[b] {
      if parents[a] == parents[b] {
        assert IsParent(nodes, c, parents[a], c + a) && IsParent(nodes, c, parents[b], c + b);
        SiblingsCoincide(tc, root, passes, nodes, stock, table, c, parents[a], c + a, c + b);
      }
    }
    ManyBelow(parents, c);
  }

  ghost predicate IsParent(nodes: seq<DagNode>, c: nat, j: nat, i: nat) {
    j < c <= i < |nodes| && exists p :: p !in nodes[j].subset && nodes[i].path == nodes[j].path + [p]
  }

  lemma ParentBeforeFinals(tc: Toolchain, root: Ir, passes: seq<Pass>, nodes: seq<DagNode>, stock: Table, table: Table,
                           c: nat, i: nat) returns (j: nat)
    requires Grown(tc, root, passes, nodes) && Recorded(tc, nodes, stock, table) && passes != [] && c <= i < |nodes|
    requires forall k :: c <= k < |nodes| ==> nodes[k].subset == ToSet(passes)
    ensures IsParent(nodes, c, j, i)
  {
    hide HasOrigin, Distinct, Supplied;
    assert passes[0] in ToSet(passes);
    assert i > 0;
    var p;
    j, p := Parent(tc, root, passes, nodes, stock, table, i);
    assert p in ToSet(passes);
  }

  lemma SiblingsCoincide(tc: Toolchain, root: Ir, passes: seq<Pass>, nodes: seq<DagNode>, stock: Table, table: Table,
                         c: nat, j: nat, a: nat, b: nat)
    requires Grown(tc, root, passes, nodes) && Apart(tc, nodes) && Recorded(tc, nodes, stock, table)
    requires IsParent(nodes, c, j, a) && IsParent(nodes, c, j, b) && nodes[a].subset == nodes[b].subset
    ensures a == b
  {
    hide HasOrigin, Apart, Recorded, Distinct;
    var p :| p !in nodes[j].subset && nodes[a].path == nodes[j].path + [p];
    var q :| q !in nodes[j].subset && nodes[b].path == nodes[j].path + [q];
    ToSetAppend(nodes[j].path, p);
    ToSetAppend(nodes[j].path, q);
    assert WellFormed(tc, passes, nodes[j]) && WellFormed(tc, passes, nodes[a]) && WellFormed(tc, passes, nodes[b]);
    assert p in nodes[b].subset && q in nodes[a].subset;
    PathsAreUnique(tc, root, passes, nodes, stock, table, a, b);
  }

  lemma ManyBelow(ids: seq<nat>, c: nat)
    requires Distinct(ids) && forall k :: 0 <= k < |ids| ==> ids[k] < c
    ensures |ids| <= c
  {
    DistinctSize(ids);
    var all := seq(c, k => k);
    forall i, j | 0 <= i < j < c ensures all[i] != all[j] {}
    DistinctSize(all);
    forall k | k in ToSet(ids) ensures k in ToSet(all) {
      assert all[k] == k;
    }
    SubsetSize(ToSet(ids), ToSet(all));
  }

  /** With fewer than 10000 nodes before the last depth, the first final node reported
      is the canonical order's exactly when there are at most 10000 nodes in all. */
  lemma FirstFinalIsCanonical(tc: Toolchain, root: Ir, passes: seq<Pass>, nodes: seq<DagNode>, stock: Table,
                              table: Table)
    requires Distinct(passes) && Grown(tc, root, passes, nodes) && Apart(tc, nodes) && Recorded(tc, nodes, stock, table)
    requires Layered(nodes) && CanonicalFirst(nodes, passes, |passes|) && Before(nodes, |passes|) < 10000
    ensures |ByName(Finals(nodes, passes))| > 0
    ensures ByName(Finals(nodes, passes))[0].path == passes <==> |nodes| <= 10000
  {
    hide Grown, Apart, Recorded, Distinct, Layered, CanonicalFirst, ByName, Finals, Before;
    var c := CanonicalFinal(tc, root, passes, nodes);
    var finals := Finals(nodes, passes);
    NumberedNodes(tc, root, passes, nodes);
    if |nodes| <= 10000 {
      forall n | n in finals ensures n == nodes[c] || c < n.id < 10000 {
        FinalSubsetOf(nodes, passes, n);
        var k :| 0 <= k < |nodes| && nodes[k] == n;
      }
      OldestSortsFirst(finals, nodes[c]);
    } else {
      forall i | c <= i < |nodes| ensures nodes[i].subset == ToSet(passes) {
        FinalSubset(nodes, passes, nodes[i]);
      }
      GrowthNeedsPasses(tc, root, passes, nodes, 1);
      FinalsHaveParents(tc, root, passes, nodes, stock, table, c);
      TenThousandBefore(c);
      NotFirst(finals, nodes[c], nodes[10000]);
      var first := ByName(finals)[0];
      ByNameContents(finals);
      assert first in finals;
      FinalSubsetOf(nodes, passes, first);
      var k :| 0 <= k < |nodes| && nodes[k] == first;
      if first.path == passes {
        PathsAreUnique(tc, root, passes, nodes, stock, table, k, c);
      }
    }
  }

  lemma FinalSubsetOf(nodes: seq<DagNode>, passes: seq<Pass>, n: DagNode)
    requires n in Finals(nodes, passes)
    ensures n in nodes
  {
  }

  lemma NumberedNodes(tc: Toolchain, root: Ir, passes: seq<Pass>, nodes: seq<DagNode>)
    requires Grown(tc, root, passes, nodes)
    ensures forall i :: 0 <= i < |nodes| ==> nodes[i].id == i
  {
  }

  lemma GrowthNeedsPasses(tc: Toolchain, root: Ir, passes: seq<Pass>, nodes: seq<DagNode>, i: nat)
    requires Grown(tc, root, passes, nodes) && 0 < i < |nodes|
    ensures passes != []
  {
    var j, p := Origin(tc, root, passes, nodes, i);
    assert p in ToSet(passes);
  }
}
