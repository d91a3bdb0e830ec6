/** `validate_batch_with_permutation_dag`: the layered search over subsets that
    stands in for running all n! orders of a batch. */
module PermutationDags {
  import opened Basics
  import opened Toolchains
  import opened ValidationRuntimes
  import opened DagEvidence
  import opened DagMemory
  import opened DagOrder

  datatype Spec = Spec(source: DagNode, pass: Pass)

  datatype Outcome = Outcome(transition: Option<Transition>, cacheHit: bool)

  datatype DagStatus = AllPermutationsSame | Mismatch | Failed | Incomplete

  datatype DagReason = NoReason | MaxNodes | MaxEdges | OptFailed | EquivalenceFailed

  /** The counting and verdict part of `_result_row`. */
  datatype DagRow = DagRow(
    status: DagStatus, complete: bool, hardCertificate: bool, reason: DagReason, budgetExceeded: bool,
    finals: seq<DagNode>, firstMismatchOrder: Option<seq<Pass>>,
    nodes: nat, edges: nat, cacheHits: nat, cacheMisses: nat, hashMerges: nat, structuralMerges: nat)

  // ------------------------------------------------------ transition specs

  function SpecsFrom(n: DagNode, passes: seq<Pass>): seq<Spec> {
    if passes == [] then []
    else
      var p := passes[|passes| - 1];
      SpecsFrom(n, passes[..|passes| - 1]) + if p in n.subset then [] else [Spec(n, p)]
  }

  function LayerSpecs(layer: seq<DagNode>, passes: seq<Pass>): seq<Spec> {
    if layer == [] then []
    else LayerSpecs(layer[..|layer| - 1], passes) + SpecsFrom(layer[|layer| - 1], passes)
  }

  lemma {:induction false} SpecsFromContents(n: DagNode, passes: seq<Pass>, s: Spec)
    ensures s in SpecsFrom(n, passes) <==> s.source == n && s.pass in passes && s.pass !in n.subset
  {
    if passes != [] {
      var init := passes[..|passes| - 1];
      SpecsFromContents(n, init, s);
      assert passes == init + [passes[|passes| - 1]];
    }
  }

  lemma {:induction false} LayerSpecsContents(layer: seq<DagNode>, passes: seq<Pass>, s: Spec)
    ensures s in LayerSpecs(layer, passes) <==> s.source in layer && s.pass in passes && s.pass !in s.source.subset
  {
    if layer != [] {
      var init, last := layer[..|layer| - 1], layer[|layer| - 1];
      LayerSpecsContents(init, passes, s);
      SpecsFromContents(last, passes, s);
      assert layer == init + [last];
    }
  }

  lemma {:induction false} SpecsFromSize(n: DagNode, passes: seq<Pass>)
    requires Distinct(passes)
    ensures |SpecsFrom(n, passes)| + |n.subset * ToSet(passes)| == |passes|
  {
    if passes == [] {
      assert n.subset * ToSet(passes) == {};
    } else {
      var init, p := passes[..|passes| - 1], passes[|passes| - 1];
      DistinctLast(passes);
      SpecsFromSize(n, init);
      if p in n.subset {
        assert n.subset * ToSet(passes) == n.subset * ToSet(init) + {p};
      } else {
        assert n.subset * ToSet(passes) == n.subset * ToSet(init);
      }
    }
  }

  lemma {:induction false} LayerSpecsSize(layer: seq<DagNode>, passes: seq<Pass>, d: nat)
    requires Distinct(passes) && d <= |passes|
    requires forall n :: n in layer ==> n.subset <= ToSet(passes) && |n.subset| == d
    ensures |LayerSpecs(layer, passes)| == |layer| * (|passes| - d)
  {
    hide SpecsFrom, Distinct, ToSet;
    if layer != [] {
      var init, last := layer[..|layer| - 1], layer[|layer| - 1];
      assert last in layer && forall n :: n in init ==> n in layer;
      LayerSpecsSize(init, passes, d);
      SpecsFromSize(last, passes);
      assert last.subset * ToSet(passes) == last.subset;
      OneMore(|init|, |passes| - d);
    }
  }

  /** The first pass tried for a node that followed the canonical order is the next canonical one. */
  lemma {:induction false} FirstSpecOfNode(n: DagNode, passes: seq<Pass>, d: nat)
    requires Distinct(passes) && d < |passes| && n.subset == ToSet(passes[..d])
    ensures |SpecsFrom(n, passes)| > 0 && SpecsFrom(n, passes)[0] == Spec(n, passes[d])
  {
    var init, p := passes[..|passes| - 1], passes[|passes| - 1];
    if d == |passes| - 1 {
      DistinctLast(passes);
      NoSpecsInside(n, init);
    } else {
      assert init[..d] == passes[..d];
      FirstSpecOfNode(n, init, d);
    }
  }

  lemma {:induction false} NoSpecsInside(n: DagNode, passes: seq<Pass>)
    requires ToSet(passes) <= n.subset
    ensures SpecsFrom(n, passes) == []
  {
    if passes != [] {
      var init, p := passes[..|passes| - 1], passes[|passes| - 1];
      assert passes == init + [p] && p in ToSet(passes);
      assert ToSet(init) <= n.subset by {
        forall q | q in ToSet(init) ensures q in n.subset { assert q in ToSet(passes); }
      }
      NoSpecsInside(n, init);
    }
  }

  lemma {:induction false} FirstSpecOfLayer(layer: seq<DagNode>, passes: seq<Pass>, d: nat)
    requires Distinct(passes) && d < |passes| && |layer| > 0 && layer[0].subset == ToSet(passes[..d])
    ensures |LayerSpecs(layer, passes)| > 0 && LayerSpecs(layer, passes)[0] == Spec(layer[0], passes[d])
  {
    FirstSpecOfNode(layer[0], passes, d);
    if |layer| == 1 {
      assert LayerSpecs(layer[..0], passes) == [];
    } else {
      FirstSpecOfLayer(layer[..|layer| - 1], passes, d);
    }
  }

  // ------------------------------------------------------------ layer sizes

  function AtDepth(nodes: seq<DagNode>, d: nat): (r: seq<DagNode>)
    ensures forall n :: n in r <==> n in nodes && n.depth == d
  {
    if nodes == [] then []
    else AtDepth(nodes[..|nodes| - 1], d) + if nodes[|nodes| - 1].depth == d then [nodes[|nodes| - 1]] else []
  }

  /** Transitions tried for the nodes above depth `d`: each node tries the passes it lacks. */
  function Work(nodes: seq<DagNode>, n: nat, d: nat): int {
    if nodes == [] then 0
    else
      Work(nodes[..|nodes| - 1], n, d)
      + if nodes[|nodes| - 1].depth < d then n - nodes[|nodes| - 1].depth else 0
  }

  lemma {:induction false} WorkNextLayer(nodes: seq<DagNode>, n: nat, d: nat)
    ensures Work(nodes, n, d + 1) == Work(nodes, n, d) + |AtDepth(nodes, d)| * (n - d)
  {
    if nodes != [] {
      WorkNextLayer(nodes[..|nodes| - 1], n, d);
      if nodes[|nodes| - 1].depth == d {
        OneMore(|AtDepth(nodes[..|nodes| - 1], d)|, n - d);
      }
    }
  }

  lemma {:induction false} WorkOfExtension(base: seq<DagNode>, nodes: seq<DagNode>, n: nat, d: nat)
    requires base <= nodes && forall i :: |base| <= i < |nodes| ==> nodes[i].depth >= d
    ensures Work(nodes, n, d) == Work(base, n, d)
    decreases |nodes|
  {
    if |nodes| > |base| {
      WorkOfExtension(base, nodes[..|nodes| - 1], n, d);
    } else {
      assert nodes == base;
    }
  }

  predicate HasDigest(bucket: seq<DagNode>, digest: Digest) {
    exists n :: n in bucket && n.digest == digest
  }

  function Hits(outcomes: seq<Outcome>): nat {
    if outcomes == [] then 0
    else Hits(outcomes[..|outcomes| - 1]) + if outcomes[|outcomes| - 1].cacheHit then 1 else 0
  }

  function Failures(outcomes: seq<Outcome>): nat {
    if outcomes == [] then 0
    else Failures(outcomes[..|outcomes| - 1]) + if outcomes[|outcomes| - 1].transition.None? then 1 else 0
  }

  lemma {:induction false} NoFailures(outcomes: seq<Outcome>)
    requires forall i :: 0 <= i < |outcomes| ==> outcomes[i].transition.Some?
    ensures Failures(outcomes) == 0
  {
    if outcomes != [] {
      NoFailures(outcomes[..|outcomes| - 1]);
    }
  }

  function KeyOf(spec: Spec): TransitionKey {
    TransitionKey(spec.source.digest, spec.pass)
  }

  /** An outcome is a hit exactly when its key was known before, or an earlier
      transition of the layer has put it into the table. */
  ghost predicate HitsAreReal(table: Table, specs: seq<Spec>, outcomes: seq<Outcome>) {
    && |outcomes| == |specs|
    && forall i :: 0 <= i < |specs| ==>
         (outcomes[i].cacheHit <==> KeyOf(specs[i]) in table || PutEarlier(specs, outcomes, i, KeyOf(specs[i])))
  }

  ghost predicate PutEarlier(specs: seq<Spec>, outcomes: seq<Outcome>, i: nat, key: TransitionKey)
    requires i <= |specs| == |outcomes|
  {
    exists j :: 0 <= j < i && KeyOf(specs[j]) == key && outcomes[j].transition.Some?
  }

  /** The table after these outcomes holds their keys and nothing else that is new;
      every miss that succeeded has added one. */
  ghost predicate TableCounts(before: Table, table: Table, specs: seq<Spec>, outcomes: seq<Outcome>) {
    && |outcomes| == |specs|
    && (forall k :: k in table <==> k in before || PutEarlier(specs, outcomes, |specs|, k))
    && |table| == |before| + |outcomes| - Hits(outcomes) - Failures(outcomes)
  }

  lemma OneOutcomeMore(before: Table, table: Table, specs: seq<Spec>, outcomes: seq<Outcome>, spec: Spec,
                       result: Option<Transition>, hit: bool)
    requires HitsAreReal(before, specs, outcomes) && TableCounts(before, table, specs, outcomes)
    requires hit <==> KeyOf(spec) in table
    requires hit ==> result.Some?
    ensures HitsAreReal(before, specs + [spec], outcomes + [Outcome(result, hit)])
    ensures TableCounts(before, TableAfter(table, spec, result, hit), specs + [spec], outcomes + [Outcome(result, hit)])
  {
    hide PutEarlier;
    var more, all := specs + [spec], outcomes + [Outcome(result, hit)];
    var n := |specs|;
    forall i, k | 0 <= i <= n ensures PutEarlier(more, all, i, k) <==> PutEarlier(specs, outcomes, i, k) {
      PutEarlierOfPrefix(specs, outcomes, spec, Outcome(result, hit), i, k);
    }
    HitsStayReal(before, specs, outcomes, spec, Outcome(result, hit));
    forall k ensures PutEarlier(more, all, n + 1, k) <==>
                     PutEarlier(specs, outcomes, n, k) || (k == KeyOf(spec) && result.Some?)
    {
      PutLast(specs, outcomes, spec, Outcome(result, hit), k);
    }
    assert all[..n] == outcomes;
  }

  lemma HitsStayReal(before: Table, specs: seq<Spec>, outcomes: seq<Outcome>, spec: Spec, outcome: Outcome)
    requires HitsAreReal(before, specs, outcomes)
    requires outcome.cacheHit <==> KeyOf(spec) in before || PutEarlier(specs, outcomes, |specs|, KeyOf(spec))
    ensures HitsAreReal(before, specs + [spec], outcomes + [outcome])
  {
    hide PutEarlier;
    var more, all := specs + [spec], outcomes + [outcome];
    forall i | 0 <= i < |more|
      ensures all[i].cacheHit <==> KeyOf(more[i]) in before || PutEarlier(more, all, i, KeyOf(more[i]))
    {
      PutEarlierOfPrefix(specs, outcomes, spec, outcome, i, KeyOf(more[i]));
      if i < |specs| {
        assert more[i] == specs[i] && all[i] == outcomes[i];
      }
    }
  }

  lemma PutLast(specs: seq<Spec>, outcomes: seq<Outcome>, spec: Spec, outcome: Outcome, k: TransitionKey)
    requires |specs| == |outcomes|
    ensures PutEarlier(specs + [spec], outcomes + [outcome], |specs| + 1, k) <==>
            PutEarlier(specs, outcomes, |specs|, k) || (k == KeyOf(spec) && outcome.transition.Some?)
  {
    PutEarlierOfPrefix(specs, outcomes, spec, outcome, |specs|, k);
    if k == KeyOf(spec) && outcome.transition.Some? {
      assert KeyOf((specs + [spec])[|specs|]) == k && (outcomes + [outcome])[|specs|].transition.Some?;
    }
  }

  lemma NothingRun(table: Table)
    ensures HitsAreReal(table, [], []) && TableCounts(table, table, [], [])
  {
  }

  lemma MissesCounted(before: Table, table: Table, specs: seq<Spec>, outcomes: seq<Outcome>)
    requires TableCounts(before, table, specs, outcomes)
    ensures |specs| - Hits(outcomes) == |table| - |before| + Failures(outcomes)
  {
  }

  lemma PutEarlierOfPrefix(specs: seq<Spec>, outcomes: seq<Outcome>, spec: Spec, outcome: Outcome, i: nat,
                           k: TransitionKey)
    requires i <= |specs| == |outcomes|
    ensures PutEarlier(specs + [spec], outcomes + [outcome], i, k) <==> PutEarlier(specs, outcomes, i, k)
  {
    if PutEarlier(specs, outcomes, i, k) {
      var j :| 0 <= j < i && KeyOf(specs[j]) == k && outcomes[j].transition.Some?;
      assert KeyOf((specs + [spec])[j]) == k && (outcomes + [outcome])[j].transition.Some?;
    }
    if PutEarlier(specs + [spec], outcomes + [outcome], i, k) {
      var j :| 0 <= j < i && KeyOf((specs + [spec])[j]) == k && (outcomes + [outcome])[j].transition.Some?;
      assert KeyOf(specs[j]) == k && outcomes[j].transition.Some?;
    }
  }

  // ------------------------------------------------------------- the search

  class PermutationDag {
    const tc: Toolchain
    const runtime: ValidationRuntime
    const root: Ir
    const passes: seq<Pass>
    const maxNodes: int
    const maxEdges: int

    /** What the memo table held when the run began. */
    ghost const stock: Table

    var nodes: seq<DagNode>
    var edges: nat
    var cacheHits: nat
    var cacheMisses: nat
    var hashMerges: nat
    var structuralMerges: nat

    constructor (tc: Toolchain, runtime: ValidationRuntime, root: Ir, passes: seq<Pass>, maxNodes: int, maxEdges: int)
      ensures this.tc == tc && this.runtime == runtime && this.root == root && this.passes == passes
      ensures this.maxNodes == maxNodes && this.maxEdges == maxEdges && stock == runtime.transitions
      ensures nodes == [RootNode(tc, root)]
      ensures edges == cacheHits == cacheMisses == hashMerges == structuralMerges == 0
    {
      this.tc, this.runtime, this.root, this.passes := tc, runtime, root, passes;
      this.maxNodes, this.maxEdges := maxNodes, maxEdges;
      stock := runtime.transitions;
      nodes := [RootNode(tc, root)];
      edges, cacheHits, cacheMisses, hashMerges, structuralMerges := 0, 0, 0, 0, 0;
    }

    ghost predicate Valid()
      reads this, runtime
    {
      runtime.Faithful(tc) && Grown(tc, root, passes, nodes) && Apart(tc, nodes) && Remembered()
    }

    /** The table grew out of its stock, and every node holds what the table says. */
    ghost predicate Remembered()
      reads this, runtime
    {
      && Stocked(tc, nodes, passes, stock, runtime.transitions)
      && Recorded(tc, nodes, stock, runtime.transitions)
    }

    /** Every transition so far is accounted for. */
    ghost predicate Balanced()
      reads this
    {
      && edges == hashMerges + structuralMerges + |nodes| - 1
      && edges == cacheHits + cacheMisses
    }

    /** Every miss has put one entry into the table, and nothing else has. */
    ghost predicate MissesArePaid()
      reads this, runtime
    {
      cacheMisses == |runtime.transitions| - |stock|
    }

    ghost predicate WithinBudget()
      reads this
    {
      && (maxNodes >= 0 ==> |nodes| <= maxNodes + 1)
      && (maxEdges >= 0 ==> edges <= maxEdges + 1)
    }

    ghost predicate LayersDone(d: nat)
      reads this
      requires d <= |passes|
    {
      && (forall n :: n in nodes ==> n.depth <= d)
      && ClosedBelow(tc, passes, nodes, d)
      && Balanced() && edges == Work(nodes, |passes|, d)
      && Layered(nodes) && (Before(nodes, d) <= 10000 ==> CanonicalFirst(nodes, passes, d))
    }

    /** Merge the program into a node of its subset, by digest first and by
        comparison second; otherwise it founds a new class. */
    method FindOrCreateNode(spec: Spec, out: Transition) returns (failed: bool)
      requires Valid() && spec.source in nodes && spec.pass in passes && spec.pass !in spec.source.subset
      requires out.digest == tc.digest(out.ir) && RanTo(tc, spec.source.digest, spec.pass, out.ir)
      requires Kept(runtime.transitions, spec, out)
      modifies this`nodes, this`hashMerges, this`structuralMerges, runtime
      ensures Valid() && old(nodes) <= nodes && runtime.transitions == old(runtime.transitions)
      ensures failed ==> !tc.NeverFails()
      ensures failed ==>
                nodes == old(nodes) && hashMerges == old(hashMerges) && structuralMerges == old(structuralMerges)
      ensures !failed ==> Landed(tc, nodes, spec.source, spec.pass)
      // merged by digest if a node of the subset has it, otherwise by comparison
      ensures !failed && nodes == old(nodes) ==>
                if HasDigest(Bucket(nodes, spec.source.subset + {spec.pass}), out.digest)
                then hashMerges == old(hashMerges) + 1 && structuralMerges == old(structuralMerges)
                else hashMerges == old(hashMerges) && structuralMerges == old(structuralMerges) + 1
      ensures nodes != old(nodes) ==>
                && hashMerges == old(hashMerges) && structuralMerges == old(structuralMerges)
                && nodes == old(nodes) + [DagNode(|old(nodes)|, spec.source.subset + {spec.pass}, out.ir, out.digest,
                                                  spec.source.path + [spec.pass], spec.source.depth + 1)]
      ensures Bucket(old(nodes), spec.source.subset + {spec.pass}) == [] ==> nodes != old(nodes)
    {
      hide Grown, Apart, RanTo, Compared, Bucket, GrewFrom, Stocked, Recorded;
      failed := false;
      var newSubset := spec.source.subset + {spec.pass};
      var bucket := Bucket(nodes, newSubset);
      for i := 0 to |bucket|
        invariant Valid() && nodes == old(nodes) && runtime.transitions == old(runtime.transitions)
        invariant hashMerges == old(hashMerges) && structuralMerges == old(structuralMerges)
        invariant forall j :: 0 <= j < i ==> bucket[j].digest != out.digest
      {
        var existing := bucket[i];
        if existing.digest == out.digest {
          assert existing in bucket;
          assert LandedAt(tc, spec.source, spec.pass, existing, out.ir);
          hashMerges := hashMerges + 1;
          return;
        }
      }
      for i := 0 to |bucket|
        invariant Valid() && nodes == old(nodes) && runtime.transitions == old(runtime.transitions)
        invariant hashMerges == old(hashMerges) && structuralMerges == old(structuralMerges)
        invariant forall j :: 0 <= j < |bucket| ==> bucket[j].digest != out.digest
        invariant forall j :: 0 <= j < i ==> Compared(tc, {out.digest, bucket[j].digest}, Different)
      {
        var existing := bucket[i];
        assert existing in bucket;
        NodeWellFormed(tc, root, passes, nodes, existing);
        var verdict := runtime.GetOrComputeEquivalence(tc, out.ir, existing.ir);
        if verdict == CompareFailed {
          failed := true;
          return;
        }
        if verdict == Foldable {
          assert LandedAt(tc, spec.source, spec.pass, existing, out.ir);
          structuralMerges := structuralMerges + 1;
          return;
        }
      }
      var node := DagNode(|nodes|, newSubset, out.ir, out.digest, spec.source.path + [spec.pass],
                          spec.source.depth + 1);
      NewNodeKeepsInvariant(tc, root, passes, nodes, spec, out, node);
      NewNodeRemembered(tc, nodes, passes, stock, runtime.transitions, spec, out, node);
      nodes := nodes + [node];
      assert node in nodes && LandedAt(tc, spec.source, spec.pass, node, out.ir);
    }

    /** Run every selected transition through the memo table. */
    method RunSpecs(specs: seq<Spec>) returns (outcomes: seq<Outcome>)
      requires Valid()
      requires forall i :: 0 <= i < |specs| ==>
                 specs[i].source in nodes && specs[i].pass in passes && specs[i].pass !in specs[i].source.subset
      modifies runtime
      ensures Valid() && |outcomes| == |specs| && OutcomesKept(runtime.transitions, specs, outcomes)
      ensures HitsAreReal(old(runtime.transitions), specs, outcomes)
      ensures |specs| - Hits(outcomes) ==
              |runtime.transitions| - |old(runtime.transitions)| + Failures(outcomes)
      ensures OutcomesOf(tc, specs, outcomes)
      ensures tc.NeverFails() ==> forall i :: 0 <= i < |outcomes| ==> outcomes[i].transition.Some?
    {
      hide Grown, Apart, Stocked, Recorded, RanTo, HitsAreReal, TableCounts, Failures;
      outcomes := [];
      ghost var start := runtime.transitions;
      NothingRun(start);
      for i := 0 to |specs|
        invariant Valid() && |outcomes| == i
        invariant OutcomesKept(runtime.transitions, specs[..i], outcomes)
        invariant tc.NeverFails() ==> forall j :: 0 <= j < i ==> outcomes[j].transition.Some?
        invariant OutcomesOf(tc, specs[..i], outcomes)
        invariant HitsAreReal(start, specs[..i], outcomes)
        invariant TableCounts(start, runtime.transitions, specs[..i], outcomes)
      {
        var source := specs[i].source;
        NodeWellFormed(tc, root, passes, nodes, source);
        ghost var table, before := runtime.transitions, outcomes;
        var result, hit := runtime.GetOrComputeTransition(tc, source.ir, source.digest, specs[i].pass);
        TableKeeps(tc, nodes, passes, stock, table, specs[i], result, hit);
        outcomes := outcomes + [Outcome(result, hit)];
        assert specs[..i + 1] == specs[..i] + [specs[i]];
        OutcomesStayKept(table, specs[..i], before, specs[i], result, hit);
        OneOutcomeMore(start, table, specs[..i], before, specs[i], result, hit);
      }
      assert specs[..|specs|] == specs;
      MissesCounted(start, runtime.transitions, specs, outcomes);
    }

    /** All transitions are run before any of them is merged, and counted in between. */
    method RunTransitions(specs: seq<Spec>) returns (outcomes: seq<Outcome>)
      requires Valid()
      requires forall i :: 0 <= i < |specs| ==>
                 specs[i].source in nodes && specs[i].pass in passes && specs[i].pass !in specs[i].source.subset
      modifies runtime, this`cacheHits, this`cacheMisses
      ensures Valid() && |outcomes| == |specs| && OutcomesKept(runtime.transitions, specs, outcomes)
      ensures cacheHits == old(cacheHits) + Hits(outcomes)
      ensures cacheMisses == old(cacheMisses) + |specs| - Hits(outcomes)
      // a hit is a key the table held before or got from an earlier transition of the layer
      ensures HitsAreReal(old(runtime.transitions), specs, outcomes)
      ensures cacheMisses - old(cacheMisses) ==
              |runtime.transitions| - |old(runtime.transitions)| + Failures(outcomes)
      ensures OutcomesOf(tc, specs, outcomes)
      ensures tc.NeverFails() ==> forall i :: 0 <= i < |outcomes| ==> outcomes[i].transition.Some?
    {
      hide Grown, Apart, Stocked, Recorded, Failures, OutcomesKept, HitsAreReal, OutcomesOf, runtime.Faithful;
      outcomes := RunSpecs(specs);
      CountOutcomes(outcomes);
    }

    method CountOutcomes(outcomes: seq<Outcome>)
      modifies this`cacheHits, this`cacheMisses
      ensures cacheHits == old(cacheHits) + Hits(outcomes)
      ensures cacheMisses == old(cacheMisses) + |outcomes| - Hits(outcomes)
    {
      for i := 0 to |outcomes|
        invariant cacheHits == old(cacheHits) + Hits(outcomes[..i])
        invariant cacheMisses == old(cacheMisses) + i - Hits(outcomes[..i])
      {
        assert outcomes[..i + 1][..i] == outcomes[..i];
        if outcomes[i].cacheHit {
          cacheHits := cacheHits + 1;
        } else {
          cacheMisses := cacheMisses + 1;
        }
      }
      assert outcomes[..|outcomes|] == outcomes;
    }

    method BuildSpecs(layer: seq<DagNode>) returns (specs: seq<Spec>)
      ensures specs == LayerSpecs(layer, passes)
    {
      specs := [];
      for i := 0 to |layer|
        invariant specs == LayerSpecs(layer[..i], passes)
      {
        for j := 0 to |passes|
          invariant specs == LayerSpecs(layer[..i], passes) + SpecsFrom(layer[i], passes[..j])
        {
          assert passes[..j + 1][..j] == passes[..j];
          if passes[j] !in layer[i].subset {
            specs := specs + [Spec(layer[i], passes[j])];
          }
        }
        assert passes[..|passes|] == passes;
        assert layer[..i + 1][..i] == layer[..i];
      }
      assert layer[..|layer|] == layer;
    }

    /** Merge the outcomes of one layer in specification order. */
    method MergeOutcomes(specs: seq<Spec>, outcomes: seq<Outcome>, d: nat)
      returns (stop: Option<(DagStatus, DagReason)>)
      requires Valid() && |outcomes| == |specs| && |nodes| <= maxNodes
      requires forall n :: n in nodes ==> n.depth <= d
      requires forall s :: s in specs ==>
                s.source in nodes && s.source.depth == d && s.pass in passes && s.pass !in s.source.subset
      requires OutcomesOf(tc, specs, outcomes) && OutcomesKept(runtime.transitions, specs, outcomes)
      requires tc.NeverFails() ==> forall i :: 0 <= i < |outcomes| ==> outcomes[i].transition.Some?
      modifies this`nodes, this`hashMerges, this`structuralMerges, runtime
      ensures Valid() && NewLayer(old(nodes), nodes, d) && runtime.transitions == old(runtime.transitions)
      ensures stop.None? ==>
                && Failures(outcomes) == 0 && |nodes| <= maxNodes && AllLanded(tc, nodes, specs)
                && hashMerges + structuralMerges + |nodes| ==
                   old(hashMerges) + old(structuralMerges) + |old(nodes)| + |specs|
                && (|specs| > 0 ==> FirstNewPath(old(nodes), nodes, specs[0]))
      ensures stop.Some? ==>
                && |nodes| <= maxNodes + 1
                && stop.value in {(Failed, OptFailed), (Failed, EquivalenceFailed), (Incomplete, MaxNodes)}
                && (stop.value.0 == Failed ==> !tc.NeverFails())
                && (stop.value.0 == Incomplete ==> |nodes| > maxNodes)
    {
      hide Grown, Apart, Distinct, Landed, AllLanded, WellFormed, RanTo, Compared, Stocked, Recorded, Failures,
           HasDigest, Bucket;
      ghost var base := nodes;
      ghost var merges := hashMerges + structuralMerges;
      NothingLanded(tc, nodes, specs);
      for i := 0 to |specs|
        invariant Valid() && NewLayer(base, nodes, d) && |nodes| <= maxNodes
                  && runtime.transitions == old(runtime.transitions)
        invariant hashMerges + structuralMerges + |nodes| == merges + |base| + i
        invariant AllLanded(tc, nodes, specs[..i])
        invariant forall j :: 0 <= j < i ==> outcomes[j].transition.Some?
        invariant i > 0 ==> FirstNewPath(base, nodes, specs[0])
        invariant i == 0 ==> nodes == base
      {
        var spec := specs[i];
        assert spec in specs;
        if outcomes[i].transition.None? {
          return Some((Failed, OptFailed));
        }
        ghost var before := nodes;
        if i == 0 {
          NoDeeperBucket(tc, root, passes, nodes, d, spec);
        }
        assert spec.source in nodes;
        var failed := FindOrCreateNode(spec, outcomes[i].transition.value);
        if failed {
          return Some((Failed, EquivalenceFailed));
        }
        AllLandedStays(tc, before, nodes, specs[..i], spec);
        assert specs[..i + 1] == specs[..i] + [spec];
        if |nodes| > maxNodes {
          return Some((Incomplete, MaxNodes));
        }
      }
      assert specs[..|specs|] == specs;
      NoFailures(outcomes);
      stop := None;
    }

    /** One depth of the search. None: go on with the next depth. */
    method ExpandLayer(d: nat) returns (stop: Option<(DagStatus, DagReason)>)
      requires Valid() && Distinct(passes) && d < |passes| && LayersDone(d)
      requires |nodes| <= maxNodes && (maxEdges >= 0 ==> edges <= maxEdges)
      modifies this, runtime
      ensures Valid() && WithinBudget() && edges <= Work(nodes, |passes|, |passes|)
      ensures stop.None? && old(MissesArePaid()) ==> MissesArePaid()
      ensures stop.None? ==> LayersDone(d + 1) && |nodes| <= maxNodes && (maxEdges >= 0 ==> edges <= maxEdges)
      ensures stop.Some? ==>
                && stop.value in {(Failed, OptFailed), (Failed, EquivalenceFailed),
                                  (Incomplete, MaxNodes), (Incomplete, MaxEdges)}
                && (stop.value.0 == Failed ==> !tc.NeverFails())
                && (stop.value.1 == MaxNodes ==> |nodes| > maxNodes) && (stop.value.1 == MaxEdges ==> edges > maxEdges)
    {
      hide Grown, Apart, Distinct, Landed, AllLanded, ClosedBelow, CanonicalFirst, LayerSpecs, Work, AtDepth, ByName,
           OutcomesOf, OutcomesKept, FirstNewPath, Stocked, Recorded, Layered, Before, HitsAreReal, Failures, Hits,
           runtime.Faithful;
      ghost var base := nodes;
      var layer := ByName(AtDepth(nodes, d));
      var specs := BuildSpecs(layer);
      LayerMembers(nodes, passes, d);
      assert SpecsOfLayer(base, passes, d, specs);

      var remaining := if maxEdges - edges > 0 then maxEdges - edges else 0;
      var selected := if remaining < |specs| then specs[..remaining] else specs;
      assert forall s :: s in selected ==> s in specs;
      edges := edges + |selected|;
      var outcomes := RunTransitions(selected);
      stop := MergeOutcomes(selected, outcomes, d);
      EdgesWithinWork(tc, root, passes, base, nodes, d);
      if stop.Some? {
        return;
      }
      if |selected| < |specs| {
        edges := edges + 1;
        return Some((Incomplete, MaxEdges));
      }
      assert selected == specs;
      LayerClosed(base, d, specs);
    }

    /** After all transitions of depth `d` landed, the layer is closed. */
    lemma LayerClosed(base: seq<DagNode>, d: nat, specs: seq<Spec>)
      requires Valid() && Grown(tc, root, passes, base) && Distinct(passes) && d < |passes| && NewLayer(base, nodes, d)
      requires forall n :: n in base ==> n.depth <= d
      requires ClosedBelow(tc, passes, base, d) && specs == LayerSpecs(ByName(AtDepth(base, d)), passes)
      requires AllLanded(tc, nodes, specs)
      requires edges == Work(base, |passes|, d) + |specs| && Balanced()
      requires Layered(base) && (Before(base, d) <= 10000 ==> CanonicalFirst(base, passes, d))
      requires |specs| > 0 ==> FirstNewPath(base, nodes, specs[0])
      ensures LayersDone(d + 1)
    {
      hide Grown, Apart, Distinct, Landed, ClosedBelow, CanonicalFirst, SpecsOfLayer, AllLanded, LayerSpecs, WellFormed,
           AtDepth, Work, ByName, Layered, Before, Stocked, Recorded;
      LayerMembers(base, passes, d);
      ClosedOneDeeper(tc, passes, base, nodes, d, specs);
      LayerCount(tc, root, passes, base, d);
      WorkNextLayer(base, |passes|, d);
      WorkOfExtension(base, nodes, |passes|, d + 1);
      LayeredOneDeeper(base, nodes, d);
      if |base| <= 10000 {
        CanonicalSpecFirst(tc, root, passes, base, d);
        CanonicalFirstOneDeeper(base, nodes, passes, d, specs[0]);
      }
    }

    method Row(status: DagStatus, complete: bool, hard: bool, reason: DagReason, budgetExceeded: bool)
      returns (row: DagRow)
      ensures row.status == status && row.complete == complete && row.hardCertificate == hard
      ensures row.reason == reason && row.budgetExceeded == budgetExceeded
      ensures row.finals == ByName(Finals(nodes, passes))
      ensures row.firstMismatchOrder == if |row.finals| > 1 then Some(row.finals[1].path) else None
      ensures row.nodes == |nodes| && row.edges == edges && row.cacheHits == cacheHits && row.cacheMisses == cacheMisses
      ensures row.hashMerges == hashMerges && row.structuralMerges == structuralMerges
    {
      var finals := ByName(Finals(nodes, passes));
      row := DagRow(status, complete, hard, reason, budgetExceeded, finals,
                    if |finals| > 1 then Some(finals[1].path) else None,
                    |nodes|, edges, cacheHits, cacheMisses, hashMerges, structuralMerges);
    }

    method Validate() returns (row: DagRow)
      requires Distinct(passes) && runtime.Faithful(tc)
      requires nodes == [RootNode(tc, root)] && stock == runtime.transitions
      requires edges == cacheHits == cacheMisses == hashMerges == structuralMerges == 0
      modifies this, runtime
      ensures runtime.Faithful(tc) && WithinBudget()
      ensures Grown(tc, root, passes, nodes) && Apart(tc, nodes) && Remembered()
      // in a state where digests decide, nodes are exact replays and the table stays of this state
      ensures forall universe ::
                ToSet(passes) <= universe && DigestsDecide(tc, root, universe)
                  && FromReplays(tc, root, universe, stock) ==>
                NodesReplayExactly(tc, root, nodes) && FromReplays(tc, root, universe, runtime.transitions)
      ensures row.nodes == |nodes| && row.edges == edges && row.finals == ByName(Finals(nodes, passes))
      ensures row.complete ==> CompleteEvidence(tc, root, passes, nodes)
      ensures row.complete <==> row.status in {AllPermutationsSame, Mismatch}
      ensures row.hardCertificate <==> row.status == AllPermutationsSame
      ensures row.budgetExceeded <==> row.status == Incomplete
      // a run gives up only for these reasons
      ensures row.status == Failed ==> !tc.NeverFails()
      ensures row.status == Incomplete ==> row.nodes > maxNodes || row.edges > maxEdges
      ensures row.reason in match row.status {
                              case Incomplete => {MaxNodes, MaxEdges}
                              case Failed => {OptFailed, EquivalenceFailed}
                              case _ => {NoReason}
                            }
      ensures (row.reason == MaxNodes ==> row.nodes > maxNodes) && (row.reason == MaxEdges ==> row.edges > maxEdges)
      // the certificate, and the witness against it
      ensures tc.Sound() && row.complete ==> (row.hardCertificate <==> tc.AllOrdersEquivalent(root, passes))
      ensures tc.Sound() && row.status == Mismatch ==>
                && |row.finals| > 1 && row.firstMismatchOrder == Some(row.finals[1].path)
                && Arranges(row.finals[0].path, passes) && Arranges(row.finals[1].path, passes)
                && !tc.SameOutcome(tc.Replay(row.finals[0].path, root), tc.Replay(row.finals[1].path, root))
      // the order of the report
      ensures row.complete && row.nodes <= 10000 ==> |row.finals| > 0 && row.finals[0].path == passes
      ensures row.complete && row.nodes > 10000 && row.nodes - |row.finals| < 10000 ==>
                |row.finals| > 0 && row.finals[0].path != passes
      ensures row.complete && maxNodes <= 10000 ==> |row.finals| > 0 && row.finals[0].path == passes
      // the accounting
      ensures row.edges <= Work(nodes, |passes|, |passes|)
      ensures row.complete ==>
                && row.edges == row.hashMerges + row.structuralMerges + row.nodes - 1
                && row.edges == row.cacheHits + row.cacheMisses
                && row.cacheMisses == |runtime.transitions| - |stock|
                && row.edges == Work(nodes, |passes|, |passes|)
    {
      hide Grown, Apart, Distinct, CanonicalFirst, ClosedBelow, Stocked, Recorded, DigestsDecide, FromReplays,
           NodesReplayExactly, Work, Layered, Before, Finals, ByName, runtime.Faithful;
      RunStarts();
      ExactRun();
      if |nodes| > maxNodes {
        row := Row(Incomplete, false, false, MaxNodes, true);
        return;
      }
      for d := 0 to |passes|
        invariant Valid() && WithinBudget() && LayersDone(d) && MissesArePaid()
        invariant |nodes| <= maxNodes && (maxEdges >= 0 ==> edges <= maxEdges)
      {
        var stop := ExpandLayer(d);
        if stop.Some? {
          row := Row(stop.value.0, false, false, stop.value.1, stop.value.0 == Incomplete);
          ExactRun();
          return;
        }
      }
      var classes := |Finals(nodes, passes)|;
      if classes == 1 {
        row := Row(AllPermutationsSame, true, true, NoReason, false);
      } else {
        row := Row(Mismatch, true, false, NoReason, false);
      }
      CompleteFacts(row);
      ReportOrder(row);
      ExactRun();
    }

    lemma RunStarts()
      requires Distinct(passes) && runtime.Faithful(tc)
      requires nodes == [RootNode(tc, root)] && stock == runtime.transitions
      requires edges == cacheHits == cacheMisses == hashMerges == structuralMerges == 0
      ensures Valid() && LayersDone(0) && edges <= Work(nodes, |passes|, |passes|)
    {
      assert |nodes| == 1 && nodes[..0] == [];
      assert Work(nodes[..0], |passes|, 0) == 0 && Work(nodes[..0], |passes|, |passes|) == 0;
      assert CanonicalFirst(nodes, passes, 0) by { assert nodes[0].path == passes[..0]; }
    }

    lemma ExactRun()
      requires Valid()
      ensures forall universe ::
                ToSet(passes) <= universe && DigestsDecide(tc, root, universe)
                  && FromReplays(tc, root, universe, stock) ==>
                NodesReplayExactly(tc, root, nodes) && FromReplays(tc, root, universe, runtime.transitions)
    {
      hide Grown, Recorded, Stocked, DigestsDecide, FromReplays, NodesReplayExactly;
      forall universe | ToSet(passes) <= universe && DigestsDecide(tc, root, universe)
        && FromReplays(tc, root, universe, stock)
        ensures NodesReplayExactly(tc, root, nodes) && FromReplays(tc, root, universe, runtime.transitions)
      {
        ExactWhenDigestsDecide(tc, root, passes, universe, nodes, stock, runtime.transitions);
      }
    }

    lemma ReportOrder(row: DagRow)
      requires Valid() && Distinct(passes) && LayersDone(|passes|)
      requires row.finals == ByName(Finals(nodes, passes)) && row.nodes == |nodes|
      ensures row.nodes - |row.finals| < 10000 ==>
                |row.finals| > 0 && (row.finals[0].path == passes <==> row.nodes <= 10000)
      ensures row.nodes <= 10000 ==> |row.finals| > 0
    {
      hide Grown, Apart, Distinct, CanonicalFirst, ClosedBelow, Recorded, Stocked, Layered, Before, Finals, ByName;
      ByNameContents(Finals(nodes, passes));
      FinalsAndOthers(tc, root, passes, nodes);
      if row.nodes <= 10000 {
        var c := CanonicalFinal(tc, root, passes, nodes);
      }
      if row.nodes - |row.finals| < 10000 {
        FirstFinalIsCanonical(tc, root, passes, nodes, stock, runtime.transitions);
      }
    }

    lemma CompleteFacts(row: DagRow)
      requires Valid() && Distinct(passes) && LayersDone(|passes|)
      requires row.finals == ByName(Finals(nodes, passes))
      ensures |row.finals| == |Finals(nodes, passes)|
      ensures tc.Sound() ==> |row.finals| > 0
      ensures tc.Sound() ==> (|row.finals| == 1 <==> tc.AllOrdersEquivalent(root, passes))
      ensures tc.Sound() && |row.finals| > 1 ==>
                && Arranges(row.finals[0].path, passes) && Arranges(row.finals[1].path, passes)
                && !tc.SameOutcome(tc.Replay(row.finals[0].path, root), tc.Replay(row.finals[1].path, root))
    {
      var finals := Finals(nodes, passes);
      BucketDistinct(tc, root, passes, nodes, ToSet(passes));
      SortByContents(
        (a: DagNode, b: DagNode) => NodeNames.TextBefore(NodeNames.NodeName(a.id), NodeNames.NodeName(b.id)), finals);
      assert forall n :: n in row.finals <==> n in ToSet(finals);
      if tc.Sound() {
        CertificateDecidesFactorialStatement(tc, root, passes, nodes);
        if |row.finals| > 1 {
          assert row.finals[0] in row.finals && row.finals[1] in row.finals;
          TwoFinalsDisagree(tc, root, passes, nodes, row.finals[0], row.finals[1]);
        }
      }
    }
  }

  // ------------------------------------------------- facts about one layer

  /** What the transitions of the layer of depth `d` are. */
  ghost predicate SpecsOfLayer(nodes: seq<DagNode>, passes: seq<Pass>, d: nat, specs: seq<Spec>) {
    forall s :: s in specs <==>
      s.source in nodes && s.source.depth == d && s.pass in passes && s.pass !in s.source.subset
  }

  lemma LayerMembers(nodes: seq<DagNode>, passes: seq<Pass>, d: nat)
    ensures SpecsOfLayer(nodes, passes, d, LayerSpecs(ByName(AtDepth(nodes, d)), passes))
  {
    var layer := ByName(AtDepth(nodes, d));
    ByNameContents(AtDepth(nodes, d));
    forall s ensures s in LayerSpecs(layer, passes) <==>
                     s.source in nodes && s.source.depth == d && s.pass in passes && s.pass !in s.source.subset
    {
      LayerSpecsContents(layer, passes, s);
    }
  }

  lemma LayerCount(tc: Toolchain, root: Ir, passes: seq<Pass>, nodes: seq<DagNode>, d: nat)
    requires Grown(tc, root, passes, nodes) && Distinct(passes) && d <= |passes|
    ensures |LayerSpecs(ByName(AtDepth(nodes, d)), passes)| == |AtDepth(nodes, d)| * (|passes| - d)
  {
    var layer := ByName(AtDepth(nodes, d));
    ByNameContents(AtDepth(nodes, d));
    forall n | n in layer ensures n.subset <= ToSet(passes) && |n.subset| == d {
      NodeWellFormed(tc, root, passes, nodes, n);
    }
    LayerSpecsSize(layer, passes, d);
  }

  lemma NodeWellFormed(tc: Toolchain, root: Ir, passes: seq<Pass>, nodes: seq<DagNode>, n: DagNode)
    requires Grown(tc, root, passes, nodes) && n in nodes
    ensures WellFormed(tc, passes, n) && 0 <= n.id < |nodes| && nodes[n.id] == n
    ensures forall k :: 0 <= k < |nodes| && nodes[k] == n ==> n.id == k
  {
    var i :| 0 <= i < |nodes| && nodes[i] == n;
  }

  lemma CanonicalSpecFirst(tc: Toolchain, root: Ir, passes: seq<Pass>, nodes: seq<DagNode>, d: nat)
    requires Grown(tc, root, passes, nodes) && Distinct(passes) && d < |passes|
    requires |nodes| <= 10000 && CanonicalFirst(nodes, passes, d)
    ensures var specs := LayerSpecs(ByName(AtDepth(nodes, d)), passes);
            |specs| > 0 && specs[0].source.path + [specs[0].pass] == passes[..d + 1]
  {
    hide Grown, Distinct, LayerSpecs, AtDepth, ByName;
    var i :| 0 <= i < |nodes| && nodes[i].depth == d && nodes[i].path == passes[..d]
             && forall j :: 0 <= j < i ==> nodes[j].depth < d;
    assert nodes[i] in nodes;
    NodeWellFormed(tc, root, passes, nodes, nodes[i]);
    forall n | n in AtDepth(nodes, d) ensures n == nodes[i] || nodes[i].id < n.id < 10000 {
      NodeWellFormed(tc, root, passes, nodes, n);
      assert forall j :: 0 <= j < i ==> nodes[j] != n;
    }
    OldestSortsFirst(AtDepth(nodes, d), nodes[i]);
    FirstSpecOfLayer(ByName(AtDepth(nodes, d)), passes, d);
    assert passes[..d + 1] == passes[..d] + [passes[d]];
  }

  /** Every successful outcome is in the table. */
  ghost predicate OutcomesKept(table: Table, specs: seq<Spec>, outcomes: seq<Outcome>) {
    && |outcomes| == |specs|
    && forall i :: 0 <= i < |specs| && outcomes[i].transition.Some? ==>
         Kept(table, specs[i], outcomes[i].transition.value)
  }

  ghost predicate Kept(table: Table, spec: Spec, out: Transition) {
    TransitionKey(spec.source.digest, spec.pass) in table && table[TransitionKey(spec.source.digest, spec.pass)] == out
  }

  /** The table after a lookup: a miss that succeeds adds its entry. */
  function TableAfter(table: Table, spec: Spec, result: Option<Transition>, hit: bool): Table {
    if hit || result.None? then table else table[TransitionKey(spec.source.digest, spec.pass) := result.value]
  }

  lemma TableKeeps(tc: Toolchain, nodes: seq<DagNode>, passes: seq<Pass>, stock: Table, table: Table, spec: Spec,
                   result: Option<Transition>, hit: bool)
    requires Stocked(tc, nodes, passes, stock, table) && Recorded(tc, nodes, stock, table)
    requires spec.source in nodes && spec.pass in passes && spec.pass !in spec.source.subset
    requires hit <==> TransitionKey(spec.source.digest, spec.pass) in table
    requires !hit && result.Some? ==> tc.apply(spec.pass, spec.source.ir) == Some(result.value.ir)
    ensures Stocked(tc, nodes, passes, stock, TableAfter(table, spec, result, hit))
    ensures Recorded(tc, nodes, stock, TableAfter(table, spec, result, hit))
  {
    hide Stocked, Recorded;
    if !hit && result.Some? {
      StockedOneMore(tc, nodes, passes, stock, table, spec.source, spec.pass, result.value);
      RecordedInLargerTable(tc, nodes, stock, table, TransitionKey(spec.source.digest, spec.pass), result.value);
    }
  }

  lemma OutcomesStayKept(table: Table, specs: seq<Spec>, outcomes: seq<Outcome>, spec: Spec,
                         result: Option<Transition>, hit: bool)
    requires OutcomesKept(table, specs, outcomes)
    requires hit <==> TransitionKey(spec.source.digest, spec.pass) in table
    requires hit ==> result == Some(table[TransitionKey(spec.source.digest, spec.pass)])
    ensures OutcomesKept(TableAfter(table, spec, result, hit), specs + [spec], outcomes + [Outcome(result, hit)])
  {
    var more, all := specs + [spec], outcomes + [Outcome(result, hit)];
    forall i | 0 <= i < |more| && all[i].transition.Some?
      ensures Kept(TableAfter(table, spec, result, hit), more[i], all[i].transition.value)
    {
      if i < |specs| {
        assert more[i] == specs[i] && all[i] == outcomes[i];
        assert Kept(table, specs[i], outcomes[i].transition.value);
      }
    }
  }

  lemma NewNodeRemembered(tc: Toolchain, nodes: seq<DagNode>, passes: seq<Pass>, stock: Table, table: Table,
                          spec: Spec, out: Transition, node: DagNode)
    requires Stocked(tc, nodes, passes, stock, table) && Recorded(tc, nodes, stock, table) && Kept(table, spec, out)
    requires spec.source in nodes && spec.pass !in spec.source.subset
    requires node.path == spec.source.path + [spec.pass] && node.ir == out.ir
    ensures Stocked(tc, nodes + [node], passes, stock, table) && Recorded(tc, nodes + [node], stock, table)
  {
    hide Stocked, Recorded;
    StockedByMoreNodes(tc, nodes, node, passes, stock, table);
    RecordedOneMore(tc, nodes, passes, stock, table, spec.source, spec.pass, node);
  }

  /** The transitions of a layer are among those the final nodes account for. */
  lemma EdgesWithinWork(tc: Toolchain, root: Ir, passes: seq<Pass>, base: seq<DagNode>, nodes: seq<DagNode>, d: nat)
    requires Grown(tc, root, passes, base) && Grown(tc, root, passes, nodes) && NewLayer(base, nodes, d)
    requires Distinct(passes) && d < |passes|
    ensures Work(base, |passes|, d) + |LayerSpecs(ByName(AtDepth(base, d)), passes)| <= Work(nodes, |passes|, |passes|)
  {
    hide Grown, Work, AtDepth, ByName, LayerSpecs, Distinct;
    LayerCount(tc, root, passes, base, d);
    WorkNextLayer(base, |passes|, d);
    forall n | n in nodes ensures n.depth <= |passes| {
      NodeWellFormed(tc, root, passes, nodes, n);
      NotDeeper(passes, n.subset);
    }
    WorkOfExtension(base, nodes, |passes|, d + 1);
    WorkGrows(nodes, |passes|, d + 1, |passes|);
  }

  lemma NotDeeper(passes: seq<Pass>, subset: set<Pass>)
    requires subset <= ToSet(passes)
    ensures |subset| <= |passes|
  {
    SubsetSize(subset, ToSet(passes));
    DistinctSize(passes);
  }

  lemma {:induction false} WorkGrows(nodes: seq<DagNode>, n: nat, d: nat, e: nat)
    requires d <= e && forall m :: m in nodes ==> m.depth <= n
    ensures Work(nodes, n, d) <= Work(nodes, n, e)
  {
    if nodes != [] {
      assert nodes[|nodes| - 1] in nodes && forall m :: m in nodes[..|nodes| - 1] ==> m in nodes;
      WorkGrows(nodes[..|nodes| - 1], n, d, e);
    }
  }

  /** The nodes that are not final are those before the last depth. */
  lemma FinalsAndOthers(tc: Toolchain, root: Ir, passes: seq<Pass>, nodes: seq<DagNode>)
    requires Distinct(passes) && Grown(tc, root, passes, nodes)
    ensures |Finals(nodes, passes)| + Before(nodes, |passes|) == |nodes|
  {
    hide Grown, Finals, Before;
    FinalsAreLast(tc, root, passes, nodes);
    forall n | n in nodes ensures n.subset == ToSet(passes) <==> n.depth >= |passes| {
      FinalSubset(nodes, passes, n);
    }
    FinalsCount(nodes, passes);
  }

  lemma LayeredOneDeeper(base: seq<DagNode>, nodes: seq<DagNode>, d: nat)
    requires Layered(base) && NewLayer(base, nodes, d) && forall n :: n in base ==> n.depth <= d
    ensures Layered(nodes) && Before(nodes, d + 1) == |base|
  {
    forall i | 0 <= i < |base| ensures nodes[i].depth < d + 1 {
      assert nodes[i] == base[i] && base[i] in base;
    }
    forall i, j | 0 <= i < j < |nodes| ensures nodes[i].depth <= nodes[j].depth {
      if j < |base| { assert base[i].depth <= base[j].depth; }
    }
    BeforeSplits(nodes, d + 1, |base|);
  }

  /** Every successful outcome is a run of its pass on a program with the source's digest. */
  ghost predicate OutcomesOf(tc: Toolchain, specs: seq<Spec>, outcomes: seq<Outcome>) {
    && |outcomes| == |specs|
    && forall i :: 0 <= i < |specs| && outcomes[i].transition.Some? ==>
         OutcomeOf(tc, specs[i], outcomes[i].transition.value)
  }

  ghost predicate OutcomeOf(tc: Toolchain, spec: Spec, out: Transition) {
    out.digest == tc.digest(out.ir) && RanTo(tc, spec.source.digest, spec.pass, out.ir)
  }

  /** `nodes` extends `base` by nodes of depth `d + 1`. */
  ghost predicate NewLayer(base: seq<DagNode>, nodes: seq<DagNode>, d: nat) {
    base <= nodes && forall k :: |base| <= k < |nodes| ==> nodes[k].depth == d + 1
  }

  ghost predicate AllLanded(tc: Toolchain, nodes: seq<DagNode>, specs: seq<Spec>) {
    forall k {:trigger specs[k]} :: 0 <= k < |specs| ==> Landed(tc, nodes, specs[k].source, specs[k].pass)
  }

  /** The first node beyond `base` was made by `spec`. */
  ghost predicate FirstNewPath(base: seq<DagNode>, nodes: seq<DagNode>, spec: Spec) {
    |nodes| > |base| && nodes[|base|].path == spec.source.path + [spec.pass]
  }

  lemma NothingLanded(tc: Toolchain, nodes: seq<DagNode>, specs: seq<Spec>)
    ensures AllLanded(tc, nodes, specs[..0])
  {
  }

  lemma AllLandedStays(tc: Toolchain, before: seq<DagNode>, nodes: seq<DagNode>, specs: seq<Spec>, spec: Spec)
    requires before <= nodes && AllLanded(tc, before, specs) && Landed(tc, nodes, spec.source, spec.pass)
    ensures AllLanded(tc, nodes, specs + [spec])
  {
    var all := specs + [spec];
    forall k {:trigger all[k]} | 0 <= k < |all| ensures Landed(tc, nodes, all[k].source, all[k].pass) {
      if k < |specs| {
        assert all[k] == specs[k];
        LandedStays(tc, before, nodes, specs[k].source, specs[k].pass);
      }
    }
  }

  lemma ClosedOneDeeper(tc: Toolchain, passes: seq<Pass>, base: seq<DagNode>, nodes: seq<DagNode>, d: nat,
                        specs: seq<Spec>)
    requires NewLayer(base, nodes, d) && SpecsOfLayer(base, passes, d, specs) && AllLanded(tc, nodes, specs)
    requires forall n :: n in base ==> n.depth <= d
    requires ClosedBelow(tc, passes, base, d)
    ensures ClosedBelow(tc, passes, nodes, d + 1)
    ensures forall n :: n in nodes ==> n.depth <= d + 1
  {
    forall n | n in nodes ensures n.depth <= d + 1 && (n.depth < d + 1 ==> n in base) {
      var i :| 0 <= i < |nodes| && nodes[i] == n;
      if i < |base| { assert base[i] == n; }
    }
    forall n, p {:trigger Landed(tc, nodes, n, p)} | n in nodes && p in passes && n.depth < d + 1 && p !in n.subset
      ensures Landed(tc, nodes, n, p)
    {
      if n.depth == d {
        assert Spec(n, p) in specs;
        var k :| 0 <= k < |specs| && specs[k] == Spec(n, p);
      } else {
        assert Landed(tc, base, n, p);
        LandedStays(tc, base, nodes, n, p);
      }
    }
  }

  lemma CanonicalFirstOneDeeper(base: seq<DagNode>, nodes: seq<DagNode>, passes: seq<Pass>, d: nat, spec: Spec)
    requires d < |passes| && NewLayer(base, nodes, d) && FirstNewPath(base, nodes, spec)
    requires forall n :: n in base ==> n.depth <= d
    requires spec.source.path + [spec.pass] == passes[..d + 1]
    ensures CanonicalFirst(nodes, passes, d + 1)
  {
    assert nodes[|base|].depth == d + 1;
    forall j | 0 <= j < |base| ensures nodes[j].depth < d + 1 { assert base[j] in base; }
  }

  lemma LandedStays(tc: Toolchain, base: seq<DagNode>, nodes: seq<DagNode>, n: DagNode, p: Pass)
    requires base <= nodes && Landed(tc, base, n, p)
    ensures Landed(tc, nodes, n, p)
  {
    var m, out :| m in base && LandedAt(tc, n, p, m, out);
    assert m in nodes;
  }

  lemma NoDeeperBucket(tc: Toolchain, root: Ir, passes: seq<Pass>, nodes: seq<DagNode>, d: nat, spec: Spec)
    requires Grown(tc, root, passes, nodes) && forall n :: n in nodes ==> n.depth <= d
    requires spec.source in nodes && spec.source.depth == d && spec.pass !in spec.source.subset
    ensures Bucket(nodes, spec.source.subset + {spec.pass}) == []
  {
    var bucket := Bucket(nodes, spec.source.subset + {spec.pass});
    var i :| 0 <= i < |nodes| && nodes[i] == spec.source;
    assert |spec.source.subset + {spec.pass}| == d + 1;
    forall n | n in nodes ensures n.subset != spec.source.subset + {spec.pass} {
      var k :| 0 <= k < |nodes| && nodes[k] == n;
      assert |n.subset| == n.depth;
    }
    assert forall n :: n !in bucket;
  }

  lemma NewNodeKeepsInvariant(tc: Toolchain, root: Ir, passes: seq<Pass>, nodes: seq<DagNode>,
                              spec: Spec, out: Transition, node: DagNode)
    requires Grown(tc, root, passes, nodes) && Apart(tc, nodes)
    requires spec.source in nodes && spec.pass in passes && spec.pass !in spec.source.subset
    requires out.digest == tc.digest(out.ir) && RanTo(tc, spec.source.digest, spec.pass, out.ir)
    requires node == DagNode(|nodes|, spec.source.subset + {spec.pass}, out.ir, out.digest,
                             spec.source.path + [spec.pass], spec.source.depth + 1)
    requires forall m :: m in Bucket(nodes, node.subset) ==>
               m.digest != out.digest && Compared(tc, {out.digest, m.digest}, Different)
    ensures Grown(tc, root, passes, nodes + [node]) && Apart(tc, nodes + [node])
  {
    hide WellFormed, HasOrigin, Bucket, RanTo, Compared, Apart, Grown;
    NewNodeWellFormed(tc, root, passes, nodes, spec, out, node);
    GrownOneMore(tc, root, passes, nodes, node);
    NewNodeApart(tc, nodes, node);
  }

  lemma GrownOneMore(tc: Toolchain, root: Ir, passes: seq<Pass>, nodes: seq<DagNode>, node: DagNode)
    requires Grown(tc, root, passes, nodes) && node.id == |nodes| && WellFormed(tc, passes, node)
    requires HasOrigin(tc, nodes + [node], |nodes|)
    ensures Grown(tc, root, passes, nodes + [node])
  {
    hide WellFormed, HasOrigin;
    var all := nodes + [node];
    assert all[0] == nodes[0];
    forall i | 0 <= i < |all| ensures all[i].id == i && WellFormed(tc, passes, all[i]) {
      if i < |nodes| { assert all[i] == nodes[i]; }
    }
    forall i {:trigger HasOrigin(tc, all, i)} | 0 < i < |all| ensures HasOrigin(tc, all, i) {
      if i < |nodes| {
        OriginStays(tc, root, passes, nodes, node, i);
      }
    }
  }

  lemma NewNodeWellFormed(tc: Toolchain, root: Ir, passes: seq<Pass>, nodes: seq<DagNode>,
                          spec: Spec, out: Transition, node: DagNode)
    requires Grown(tc, root, passes, nodes)
    requires spec.source in nodes && spec.pass in passes && spec.pass !in spec.source.subset
    requires out.digest == tc.digest(out.ir) && RanTo(tc, spec.source.digest, spec.pass, out.ir)
    requires node == DagNode(|nodes|, spec.source.subset + {spec.pass}, out.ir, out.digest,
                             spec.source.path + [spec.pass], spec.source.depth + 1)
    ensures WellFormed(tc, passes, node)
    ensures HasOrigin(tc, nodes + [node], |nodes|)
  {
    var j :| 0 <= j < |nodes| && nodes[j] == spec.source;
    assert WellFormed(tc, passes, nodes[j]);
    ToSetAppend(spec.source.path, spec.pass);
    assert spec.pass !in ToSet(spec.source.path);
    assert spec.pass in ToSet(passes);
    var all := nodes + [node];
    assert all[j] == spec.source && all[|nodes|] == node;
    assert GrewFrom(tc, all[j], spec.pass, all[|nodes|]);
  }

  lemma OriginStays(tc: Toolchain, root: Ir, passes: seq<Pass>, nodes: seq<DagNode>, node: DagNode, i: nat)
    requires Grown(tc, root, passes, nodes) && 0 < i < |nodes|
    ensures HasOrigin(tc, nodes + [node], i)
  {
    var k, p := Origin(tc, root, passes, nodes, i);
    var all := nodes + [node];
    assert all[k] == nodes[k] && all[i] == nodes[i];
    assert GrewFrom(tc, all[k], p, all[i]);
  }

  lemma NewNodeApart(tc: Toolchain, nodes: seq<DagNode>, node: DagNode)
    requires Apart(tc, nodes)
    requires forall m :: m in Bucket(nodes, node.subset) ==>
               m.digest != node.digest && Compared(tc, {node.digest, m.digest}, Different)
    ensures Apart(tc, nodes + [node])
  {
    var all := nodes + [node];
    forall i, k {:trigger KeptApart(tc, all[k], all[i])} | 0 <= i < k < |all| && all[i].subset == all[k].subset
      ensures KeptApart(tc, all[k], all[i])
    {
      if k == |nodes| {
        assert all[i] in Bucket(nodes, node.subset);
      } else {
        assert KeptApart(tc, nodes[k], nodes[i]);
      }
    }
  }
}
