/** `build_coverage_report`: what became of each active pass. */
module Coverage {
  import opened Basics
  import opened Toolchains
  import opened BatchCorrectness
  import opened BatchConstruction
  import opened BatchFamily

  datatype CoverageStatus =
    | CertifiedCovered | HeuristicCovered | UnresolvedConflict | ValidationRejected
    | UnvalidatedCovered | FailedOrUnknown | NotExecutedDueToMaxDepth | Dropped

  function Status(covered: bool, contained: bool, unresolved: bool, classes: set<CorrectnessClass>, terminal: bool)
    : CoverageStatus
  {
    if CertifiedBatch in classes then CertifiedCovered
    else if BoundedBatch in classes then HeuristicCovered
    else if SampledBatch in classes then HeuristicCovered
    else if terminal && (covered || contained) then NotExecutedDueToMaxDepth
    else if unresolved then UnresolvedConflict
    else if covered && classes != {} && classes <= {RejectedBatch, FailedBatch} then ValidationRejected
    else if covered && (classes == {} || classes <= {UnvalidatedBatch, UnknownBatch}) then UnvalidatedCovered
    else if covered then FailedOrUnknown
    else if contained then FailedOrUnknown
    else Dropped
  }

  /** A candidate without a correctness row is unknown. */
  function ClassOf(correctness: map<nat, CorrectnessClass>, batch: nat): CorrectnessClass {
    if batch in correctness then correctness[batch] else UnknownBatch
  }

  // ------------------------------------------------ what the statuses mean

  ghost predicate HasCandidate(p: Pass, family: Family) {
    exists s :: s in family.candidates && p in s
  }

  ghost predicate HasCandidateOf(p: Pass, family: Family, correctness: map<nat, CorrectnessClass>,
                                 c: CorrectnessClass) {
    exists i :: 0 <= i < |family.candidates| && p in family.candidates[i] && ClassOf(correctness, i) == c
  }

  ghost predicate InComponent(p: Pass, family: Family) {
    exists c :: c in family.components && p in c
  }

  ghost predicate InUnresolvedComponent(p: Pass, family: Family)
    requires |family.exact| == |family.components|
  {
    exists k :: 0 <= k < |family.components| && p in family.components[k] && !family.exact[k]
  }

  /** No candidate holding the pass may be executed, with or without permission. */
  ghost predicate NothingToExecute(p: Pass, family: Family, correctness: map<nat, CorrectnessClass>) {
    && !HasCandidateOf(p, family, correctness, CertifiedBatch)
    && !HasCandidateOf(p, family, correctness, BoundedBatch)
    && !HasCandidateOf(p, family, correctness, SampledBatch)
  }

  ghost predicate SomeTurnedDown(p: Pass, family: Family, correctness: map<nat, CorrectnessClass>) {
    HasCandidateOf(p, family, correctness, RejectedBatch) || HasCandidateOf(p, family, correctness, FailedBatch)
  }

  ghost predicate SomeUndecided(p: Pass, family: Family, correctness: map<nat, CorrectnessClass>) {
    HasCandidateOf(p, family, correctness, UnvalidatedBatch) || HasCandidateOf(p, family, correctness, UnknownBatch)
  }

  ghost predicate Means(status: CoverageStatus, p: Pass, family: Family, correctness: map<nat, CorrectnessClass>,
                        terminal: bool)
    requires |family.exact| == |family.components|
  {
    match status
    case CertifiedCovered => HasCandidateOf(p, family, correctness, CertifiedBatch)
    case HeuristicCovered =>
      && !HasCandidateOf(p, family, correctness, CertifiedBatch)
      && (HasCandidateOf(p, family, correctness, BoundedBatch) || HasCandidateOf(p, family, correctness, SampledBatch))
    case NotExecutedDueToMaxDepth =>
      terminal && NothingToExecute(p, family, correctness) && (HasCandidate(p, family) || InComponent(p, family))
    case UnresolvedConflict => !terminal && NothingToExecute(p, family, correctness) && InUnresolvedComponent(p, family)
    case ValidationRejected =>
      && !terminal && NothingToExecute(p, family, correctness) && !InUnresolvedComponent(p, family)
      && SomeTurnedDown(p, family, correctness) && !SomeUndecided(p, family, correctness)
    case UnvalidatedCovered =>
      && !terminal && NothingToExecute(p, family, correctness) && !InUnresolvedComponent(p, family)
      && SomeUndecided(p, family, correctness) && !SomeTurnedDown(p, family, correctness)
    case FailedOrUnknown =>
      && !terminal && NothingToExecute(p, family, correctness) && !InUnresolvedComponent(p, family)
      && (if HasCandidate(p, family)
          then SomeTurnedDown(p, family, correctness) && SomeUndecided(p, family, correctness)
          else InComponent(p, family))
    case Dropped => !HasCandidate(p, family) && !InComponent(p, family)
  }

  /** The meanings exclude each other, so a status with its meaning is the only one. */
  lemma MeaningsAreExclusive(a: CoverageStatus, b: CoverageStatus, p: Pass, family: Family,
                             correctness: map<nat, CorrectnessClass>, terminal: bool)
    requires |family.exact| == |family.components|
    requires Means(a, p, family, correctness, terminal) && Means(b, p, family, correctness, terminal)
    ensures a == b
  {
    hide HasCandidate, HasCandidateOf, InComponent, InUnresolvedComponent;
    CandidatesHaveClasses(p, family, correctness);
    UnresolvedIsComponent(p, family);
  }

  lemma UnresolvedIsComponent(p: Pass, family: Family)
    requires |family.exact| == |family.components|
    ensures InUnresolvedComponent(p, family) ==> InComponent(p, family)
  {
    if InUnresolvedComponent(p, family) {
      var k :| 0 <= k < |family.components| && p in family.components[k] && !family.exact[k];
      assert family.components[k] in family.components;
    }
  }

  lemma CandidatesHaveClasses(p: Pass, family: Family, correctness: map<nat, CorrectnessClass>)
    ensures HasCandidate(p, family) <==>
            || !NothingToExecute(p, family, correctness)
            || SomeTurnedDown(p, family, correctness) || SomeUndecided(p, family, correctness)
  {
    if HasCandidate(p, family) {
      var s :| s in family.candidates && p in s;
      var i :| 0 <= i < |family.candidates| && family.candidates[i] == s;
      var c := ClassOf(correctness, i);
      assert HasCandidateOf(p, family, correctness, c);
    }
  }

  // ------------------------------------------------ the report

  function CoveringBatches(p: Pass, family: Family): set<nat> {
    set i | 0 <= i < |family.candidates| && p in family.candidates[i]
  }

  function CoveringClasses(p: Pass, family: Family, correctness: map<nat, CorrectnessClass>): set<CorrectnessClass> {
    set i | i in CoveringBatches(p, family) :: ClassOf(correctness, i)
  }

  lemma ClassesAreHeld(p: Pass, family: Family, correctness: map<nat, CorrectnessClass>, c: CorrectnessClass)
    ensures c in CoveringClasses(p, family, correctness) <==> HasCandidateOf(p, family, correctness, c)
  {
    if HasCandidateOf(p, family, correctness, c) {
      var i :| 0 <= i < |family.candidates| && p in family.candidates[i] && ClassOf(correctness, i) == c;
      assert i in CoveringBatches(p, family);
    }
  }

  /** Subset tests on classes, class by class. */
  lemma ClassesWithin(classes: set<CorrectnessClass>)
    requires CertifiedBatch !in classes && BoundedBatch !in classes && SampledBatch !in classes
    ensures classes <= {RejectedBatch, FailedBatch} <==> UnvalidatedBatch !in classes && UnknownBatch !in classes
    ensures classes <= {UnvalidatedBatch, UnknownBatch} <==> RejectedBatch !in classes && FailedBatch !in classes
    ensures classes == {} <==>
              UnvalidatedBatch !in classes && UnknownBatch !in classes && RejectedBatch !in classes
                && FailedBatch !in classes
  {
    forall c | c in classes ensures c in {RejectedBatch, FailedBatch, UnvalidatedBatch, UnknownBatch} {
      assert c.CertifiedBatch? || c.BoundedBatch? || c.SampledBatch? || c.RejectedBatch? || c.FailedBatch?
             || c.UnvalidatedBatch? || c.UnknownBatch?;
    }
  }

  lemma StatusMeans(p: Pass, family: Family, correctness: map<nat, CorrectnessClass>, terminal: bool,
                    contained: bool, unresolved: bool, classes: set<CorrectnessClass>)
    requires |family.exact| == |family.components| && classes == CoveringClasses(p, family, correctness)
    requires (contained <==> InComponent(p, family)) && (unresolved <==> InUnresolvedComponent(p, family))
    ensures Means(Status(CoveringBatches(p, family) != {}, contained, unresolved, classes, terminal),
                  p, family, correctness, terminal)
  {
    hide HasCandidate, HasCandidateOf, InComponent, InUnresolvedComponent, CoveringBatches, CoveringClasses;
    forall c ensures c in classes <==> HasCandidateOf(p, family, correctness, c) {
      ClassesAreHeld(p, family, correctness, c);
    }
    if CertifiedBatch !in classes && BoundedBatch !in classes && SampledBatch !in classes { ClassesWithin(classes); }
    CandidatesHaveClasses(p, family, correctness);
    UnresolvedIsComponent(p, family);
    CoveringIsHaving(p, family, correctness);
  }

  lemma CoveringIsHaving(p: Pass, family: Family, correctness: map<nat, CorrectnessClass>)
    ensures CoveringBatches(p, family) != {} <==> HasCandidate(p, family)
    ensures CoveringBatches(p, family) != {} <==> CoveringClasses(p, family, correctness) != {}
  {
    if HasCandidate(p, family) {
      var s :| s in family.candidates && p in s;
      var i :| 0 <= i < |family.candidates| && family.candidates[i] == s;
      assert i in CoveringBatches(p, family);
    }
    if CoveringBatches(p, family) != {} {
      var i :| i in CoveringBatches(p, family);
      assert family.candidates[i] in family.candidates;
      assert ClassOf(correctness, i) in CoveringClasses(p, family, correctness);
    }
  }

  /** One row per active pass, in order. */
  method BuildCoverageReport(active: seq<Pass>, family: Family, correctness: map<nat, CorrectnessClass>, terminal: bool)
    returns (rows: seq<CoverageStatus>)
    requires |family.exact| == |family.components|
    ensures |rows| == |active|
    ensures forall i :: 0 <= i < |active| ==> Means(rows[i], active[i], family, correctness, terminal)
  {
    hide Means;
    rows := [];
    for i := 0 to |active|
      invariant |rows| == i
      invariant forall k :: 0 <= k < i ==> Means(rows[k], active[k], family, correctness, terminal)
    {
      var p := active[i];
      var contained, unresolved := false, false;
      for k := 0 to |family.components|
        invariant contained <==> exists l :: 0 <= l < k && p in family.components[l]
        invariant unresolved <==> exists l :: 0 <= l < k && p in family.components[l] && !family.exact[l]
      {
        if p in family.components[k] {
          contained, unresolved := true, unresolved || !family.exact[k];
        }
      }
      ContainedIn(p, family, contained);
      var classes := CoveringClasses(p, family, correctness);
      StatusMeans(p, family, correctness, terminal, contained, unresolved, classes);
      rows := rows + [Status(CoveringBatches(p, family) != {}, contained, unresolved, classes, terminal)];
    }
  }

  lemma ContainedIn(p: Pass, family: Family, contained: bool)
    requires contained <==> exists l :: 0 <= l < |family.components| && p in family.components[l]
    ensures contained <==> InComponent(p, family)
  {
    if InComponent(p, family) {
      var c :| c in family.components && p in c;
      var k :| 0 <= k < |family.components| && family.components[k] == c;
    }
  }

  /** What the report says about a family as `BuildBatchFamily` leaves it. */
  lemma FamilyReport(active: seq<Pass>, relations: Relations, graph: Graph, family: Family,
                     correctness: map<nat, CorrectnessClass>, terminal: bool, rows: seq<CoverageStatus>)
    requires IsConflictGraph(active, relations, graph) && Splits(graph, family.components)
    requires |family.exact| == |family.components|
    requires !family.truncated ==> forall p :: p in active ==> exists s :: s in family.candidates && p in s
    requires |rows| == |active| && forall i :: 0 <= i < |active| ==>
              Means(rows[i], active[i], family, correctness, terminal)
    // whatever was cut, split or left unvalidated, no active pass is dropped
    ensures Dropped !in rows
    // no status is due to a missing candidate unless the product was cut
    ensures !family.truncated ==> forall i :: 0 <= i < |active| ==> HasCandidate(active[i], family)
    ensures !family.truncated ==> forall i :: 0 <= i < |active| && rows[i] == FailedOrUnknown ==>
              SomeTurnedDown(active[i], family, correctness) && SomeUndecided(active[i], family, correctness)
    // and none is called unresolved unless a component was too large
    ensures AllExact(family) ==> UnresolvedConflict !in rows
  {
    hide IsConflictGraph, Splits, HasCandidateOf;
    forall i | 0 <= i < |active| && !family.truncated ensures HasCandidate(active[i], family) {
      assert active[i] in active;
    }
    forall i | 0 <= i < |rows| ensures rows[i] != Dropped && (AllExact(family) ==> rows[i] != UnresolvedConflict) {
      ActiveInComponent(active, relations, graph, family, active[i]);
    }
  }

  lemma ActiveInComponent(active: seq<Pass>, relations: Relations, graph: Graph, family: Family, p: Pass)
    requires IsConflictGraph(active, relations, graph) && Splits(graph, family.components) && p in active
    ensures InComponent(p, family)
  {
    assert p in ToSet(active);
    var k := HomeComponent(graph, family.components, p);
    assert family.components[k] in family.components;
  }
}
