/** What a finished permutation DAG proves.

    The DAG merges, per subset of passes, the programs reached by any order of
    that subset. `CompleteEvidence` says what a complete run leaves behind, in
    terms of digests, runs and verdicts only; the theorems read it under the
    named hypotheses of `Toolchain`. */
module DagEvidence {
  import opened Basics
  import opened Toolchains
  import opened ValidationRuntimes
  import opened NodeNames

  datatype DagNode = DagNode(
    id: nat, subset: set<Pass>, ir: Ir, digest: Digest, path: seq<Pass>, depth: nat)

  /** `nodes_by_subset[subset]`, in creation order. */
  function Bucket(nodes: seq<DagNode>, subset: set<Pass>): (r: seq<DagNode>)
    ensures forall n :: n in r <==> n in nodes && n.subset == subset
  {
    if nodes == [] then []
    else
      var last := nodes[|nodes| - 1];
      Bucket(nodes[..|nodes| - 1], subset) + if last.subset == subset then [last] else []
  }

  /** `sorted(..., key=lambda node: node.node_id)`. */
  function ByName(nodes: seq<DagNode>): seq<DagNode> {
    SortBy((a: DagNode, b: DagNode) => TextBefore(NodeName(a.id), NodeName(b.id)), nodes)
  }

  lemma ByNameContents(nodes: seq<DagNode>)
    ensures |ByName(nodes)| == |nodes|
    ensures forall n :: n in ByName(nodes) <==> n in nodes
    ensures Distinct(nodes) ==> Distinct(ByName(nodes))
  {
    SortByContents((a: DagNode, b: DagNode) => TextBefore(NodeName(a.id), NodeName(b.id)), nodes);
    forall n ensures n in ByName(nodes) <==> n in nodes {
      assert n in ToSet(ByName(nodes)) <==> n in ToSet(nodes);
    }
  }

  // ------------------------------------------------------------- evidence

  function RootNode(tc: Toolchain, root: Ir): DagNode {
    DagNode(0, {}, root, tc.digest(root), [], 0)
  }

  /** The two programs carry one digest, or were compared and may be folded. */
  ghost predicate Merged(tc: Toolchain, a: Digest, b: Digest) {
    a == b || Compared(tc, {a, b}, Foldable)
  }

  /** Node `n` was made by running pass `p` for node `m`. */
  ghost predicate GrewFrom(tc: Toolchain, m: DagNode, p: Pass, n: DagNode) {
    && p !in m.subset && n.subset == m.subset + {p}
    && n.path == m.path + [p] && n.depth == m.depth + 1
    && RanTo(tc, m.digest, p, n.ir)
  }

  ghost predicate WellFormed(tc: Toolchain, passes: seq<Pass>, n: DagNode) {
    && Distinct(n.path) && ToSet(n.path) == n.subset && n.subset <= ToSet(passes)
    && |n.path| == n.depth == |n.subset| && n.digest == tc.digest(n.ir)
  }

  ghost predicate Grown(tc: Toolchain, root: Ir, passes: seq<Pass>, nodes: seq<DagNode>) {
    && |nodes| > 0 && nodes[0] == RootNode(tc, root)
    && (forall i :: 0 <= i < |nodes| ==> nodes[i].id == i && WellFormed(tc, passes, nodes[i]))
    && (forall i {:trigger HasOrigin(tc, nodes, i)} :: 0 < i < |nodes| ==> HasOrigin(tc, nodes, i))
  }

  ghost predicate HasOrigin(tc: Toolchain, nodes: seq<DagNode>, i: int)
    requires 0 < i < |nodes|
  {
    exists j, p :: 0 <= j < i && GrewFrom(tc, nodes[j], p, nodes[i])
  }

  /** Nodes of one subset were compared and found different. */
  ghost predicate Apart(tc: Toolchain, nodes: seq<DagNode>) {
    forall i, j {:trigger KeptApart(tc, nodes[j], nodes[i])} ::
      0 <= i < j < |nodes| && nodes[i].subset == nodes[j].subset ==> KeptApart(tc, nodes[j], nodes[i])
  }

  ghost predicate KeptApart(tc: Toolchain, a: DagNode, b: DagNode) {
    a.digest != b.digest && Compared(tc, {a.digest, b.digest}, Different)
  }

  /** Running `p` for `n` gave a program that was merged into a node of the larger subset. */
  ghost predicate Landed(tc: Toolchain, nodes: seq<DagNode>, n: DagNode, p: Pass) {
    exists m, out :: m in nodes && LandedAt(tc, n, p, m, out)
  }

  ghost predicate LandedAt(tc: Toolchain, n: DagNode, p: Pass, m: DagNode, out: Ir) {
    m.subset == n.subset + {p} && RanTo(tc, n.digest, p, out) && Merged(tc, tc.digest(out), m.digest)
  }

  ghost predicate ClosedBelow(tc: Toolchain, passes: seq<Pass>, nodes: seq<DagNode>, depth: nat) {
    forall n, p {:trigger Landed(tc, nodes, n, p)} ::
      n in nodes && p in passes && n.depth < depth && p !in n.subset ==> Landed(tc, nodes, n, p)
  }

  ghost predicate CompleteEvidence(tc: Toolchain, root: Ir, passes: seq<Pass>, nodes: seq<DagNode>) {
    Grown(tc, root, passes, nodes) && Apart(tc, nodes) && ClosedBelow(tc, passes, nodes, |passes|)
  }

  function Finals(nodes: seq<DagNode>, passes: seq<Pass>): seq<DagNode> {
    Bucket(nodes, ToSet(passes))
  }

  // ------------------------------------------------- nodes stand for replays

  lemma MergedMeansEquivalent(tc: Toolchain, a: Ir, b: Ir)
    requires tc.Sound() && Merged(tc, tc.digest(a), tc.digest(b))
    ensures tc.Equivalent(a, b)
  {
    if tc.digest(a) != tc.digest(b) {
      ComparedSpeaksForThePair(tc, a, b, Foldable);
    }
  }

  lemma Origin(tc: Toolchain, root: Ir, passes: seq<Pass>, nodes: seq<DagNode>, i: nat)
    returns (j: nat, p: Pass)
    requires Grown(tc, root, passes, nodes) && 0 < i < |nodes|
    ensures j < i && GrewFrom(tc, nodes[j], p, nodes[i])
    ensures nodes[j].digest == tc.digest(nodes[j].ir)
  {
    assert HasOrigin(tc, nodes, i);
    j, p :| 0 <= j < i && GrewFrom(tc, nodes[j], p, nodes[i]);
  }

  /** Every node's representative path replays, up to equivalence, to its program. */
  lemma {:induction false} NodeReplays(tc: Toolchain, root: Ir, passes: seq<Pass>, nodes: seq<DagNode>, i: nat)
    requires tc.Sound() && Grown(tc, root, passes, nodes) && i < |nodes|
    ensures tc.SameOutcome(tc.Replay(nodes[i].path, root), Some(nodes[i].ir))
    decreases i
  {
    if i > 0 {
      var j, p := Origin(tc, root, passes, nodes, i);
      NodeReplays(tc, root, passes, nodes, j);
      tc.ReplayAppend(nodes[j].path, p, root);
      RanToSpeaksForTheSource(tc, nodes[j].ir, p, nodes[i].ir);
      var x := tc.Replay(nodes[j].path, root).value;
      assert tc.SameOutcome(tc.apply(p, x), tc.apply(p, nodes[j].ir));
    }
  }

  /** Nodes of one subset are pairwise inequivalent. */
  lemma SameSubsetInequivalent(tc: Toolchain, root: Ir, passes: seq<Pass>, nodes: seq<DagNode>, i: nat, j: nat)
    requires tc.Sound() && Grown(tc, root, passes, nodes) && Apart(tc, nodes)
    requires i < |nodes| && j < |nodes| && i != j && nodes[i].subset == nodes[j].subset
    ensures !tc.Equivalent(nodes[i].ir, nodes[j].ir)
  {
    var lo, hi := if i < j then i else j, if i < j then j else i;
    assert KeptApart(tc, nodes[hi], nodes[lo]);
    ComparedSpeaksForThePair(tc, nodes[hi].ir, nodes[lo].ir, Different);
  }

  /** The induction behind the certificate: every sequence of k distinct passes
      has a node with that subset whose program is equivalent to its output. */
  lemma {:induction false} EverySequenceHasANode(tc: Toolchain, root: Ir, passes: seq<Pass>,
                                                 nodes: seq<DagNode>, s: seq<Pass>)
    returns (n: DagNode)
    requires tc.Sound() && CompleteEvidence(tc, root, passes, nodes)
    requires Distinct(passes) && Distinct(s) && ToSet(s) <= ToSet(passes)
    ensures n in nodes && n.subset == ToSet(s)
    ensures tc.SameOutcome(tc.Replay(s, root), Some(n.ir))
  {
    if s == [] {
      n := nodes[0];
    } else {
      var init, p := s[..|s| - 1], s[|s| - 1];
      assert s == init + [p];
      DistinctLast(s);
      var m := EverySequenceHasANode(tc, root, passes, nodes, init);
      ShorterThanAll(passes, s);
      n := NodeOneFurther(tc, root, passes, nodes, init, p, m);
    }
  }

  lemma ShorterThanAll(passes: seq<Pass>, s: seq<Pass>)
    requires Distinct(passes) && Distinct(s) && ToSet(s) <= ToSet(passes) && s != []
    ensures var init, p := s[..|s| - 1], s[|s| - 1]; |ToSet(init)| < |passes| && p in passes && p !in ToSet(init)
  {
    DistinctSize(s);
    DistinctSize(passes);
    SubsetSize(ToSet(s), ToSet(passes));
    DistinctLast(s);
    DistinctSize(s[..|s| - 1]);
    assert s[|s| - 1] in ToSet(s);
  }

  lemma NodeOneFurther(tc: Toolchain, root: Ir, passes: seq<Pass>, nodes: seq<DagNode>, init: seq<Pass>, p: Pass,
                       m: DagNode)
    returns (n: DagNode)
    requires tc.Sound() && CompleteEvidence(tc, root, passes, nodes)
    requires m in nodes && |m.subset| < |passes| && p in passes && p !in m.subset
    requires tc.SameOutcome(tc.Replay(init, root), Some(m.ir))
    ensures n in nodes && n.subset == m.subset + {p}
    ensures tc.SameOutcome(tc.Replay(init + [p], root), Some(n.ir))
  {
    var i :| 0 <= i < |nodes| && nodes[i] == m;
    assert Landed(tc, nodes, m, p);
    var out;
    n, out :| n in nodes && LandedAt(tc, m, p, n, out);
    var k :| 0 <= k < |nodes| && nodes[k] == n;
    RanToSpeaksForTheSource(tc, m.ir, p, out);
    MergedMeansEquivalent(tc, out, n.ir);
    tc.ReplayAppend(init, p, root);
    var x := tc.Replay(init, root).value;
    assert tc.SameOutcome(tc.apply(p, x), tc.apply(p, m.ir));
  }

  // -------------------------------------------------------- the certificate

  /** A complete DAG has a single final class exactly when all n! orders give
      equivalent programs. */
  lemma CertificateDecidesFactorialStatement(tc: Toolchain, root: Ir, passes: seq<Pass>, nodes: seq<DagNode>)
    requires tc.Sound() && Distinct(passes) && CompleteEvidence(tc, root, passes, nodes)
    ensures |Finals(nodes, passes)| == 1 <==> tc.AllOrdersEquivalent(root, passes)
    ensures |Finals(nodes, passes)| >= 1
  {
    var finals := Finals(nodes, passes);
    var first := EverySequenceHasANode(tc, root, passes, nodes, passes);
    assert first in finals;
    if |finals| == 1 {
      SingleFinalMeansAgreement(tc, root, passes, nodes);
    } else {
      BucketDistinct(tc, root, passes, nodes, ToSet(passes));
      assert finals[0] in finals && finals[1] in finals && finals[0] != finals[1];
      TwoFinalsDisagree(tc, root, passes, nodes, finals[0], finals[1]);
    }
  }

  lemma SingleFinalMeansAgreement(tc: Toolchain, root: Ir, passes: seq<Pass>, nodes: seq<DagNode>)
    requires tc.Sound() && Distinct(passes) && CompleteEvidence(tc, root, passes, nodes)
    requires |Finals(nodes, passes)| == 1
    ensures tc.AllOrdersEquivalent(root, passes)
  {
    var final := Finals(nodes, passes)[0];
    forall order | Arranges(order, passes)
      ensures tc.SameOutcome(tc.Replay(order, root), Some(final.ir))
    {
      var n := EverySequenceHasANode(tc, root, passes, nodes, order);
      assert n in Finals(nodes, passes);
    }
    assert Arranges(passes, passes);
    tc.AgreementWithCanonicalSuffices(root, passes);
  }

  lemma {:induction false} BucketPrefix(nodes: seq<DagNode>, subset: set<Pass>)
    requires forall i :: 0 <= i < |nodes| ==> nodes[i].id == i
    ensures forall i, j :: 0 <= i < j < |Bucket(nodes, subset)| ==>
              Bucket(nodes, subset)[i].id < Bucket(nodes, subset)[j].id
  {
    if nodes != [] {
      var init := nodes[..|nodes| - 1];
      BucketPrefix(init, subset);
      var r := Bucket(init, subset);
      forall i | 0 <= i < |r| ensures r[i].id < |nodes| - 1 {
        assert r[i] in init;
      }
    }
  }

  lemma BucketDistinct(tc: Toolchain, root: Ir, passes: seq<Pass>, nodes: seq<DagNode>, subset: set<Pass>)
    requires Grown(tc, root, passes, nodes)
    ensures Distinct(Bucket(nodes, subset))
  {
    BucketPrefix(nodes, subset);
  }

  /** Two final nodes are witnessed by two genuine orders with inequivalent results. */
  lemma TwoFinalsDisagree(tc: Toolchain, root: Ir, passes: seq<Pass>, nodes: seq<DagNode>, a: DagNode, b: DagNode)
    requires tc.Sound() && Distinct(passes) && CompleteEvidence(tc, root, passes, nodes)
    requires a in Finals(nodes, passes) && b in Finals(nodes, passes) && a != b
    ensures Arranges(a.path, passes) && Arranges(b.path, passes)
    ensures tc.Replay(a.path, root).Some? && tc.Replay(b.path, root).Some?
    ensures !tc.SameOutcome(tc.Replay(a.path, root), tc.Replay(b.path, root))
    ensures !tc.AllOrdersEquivalent(root, passes)
  {
    var i :| 0 <= i < |nodes| && nodes[i] == a;
    var j :| 0 <= j < |nodes| && nodes[j] == b;
    NodeReplays(tc, root, passes, nodes, i);
    NodeReplays(tc, root, passes, nodes, j);
    SameSubsetInequivalent(tc, root, passes, nodes, i, j);
    assert !tc.SameOutcome(tc.Replay(a.path, root), tc.Replay(b.path, root));
  }
}
