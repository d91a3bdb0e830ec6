/** What the searches learn about a state: its batches are built, validated one after
    the other on one memo table, classified and reported on
    (`_build_validate_classify`), and `_exact_incomplete_reasons` says whether that
    evidence is complete. */
module StateAnalysis {
  import opened Basics
  import opened Toolchains
  import opened NodeNames
  import opened ValidationRuntimes
  import opened DagMemory
  import opened DagSequences
  import opened SubsetLists
  import opened BatchCorrectness
  import opened BatchConstruction
  import opened BatchFamily
  import opened BatchValidation
  import opened Coverage
  import opened StateGraphs
  import opened PipelineMeaning

  datatype Limits = Limits(
    maxComponentSize: int, maxBatchCandidates: int,
    mode: Mode, maxPermutationFactorial: int, maxValidationSequences: int,
    maxNodes: int, maxEdges: int, samples: int, allowSampled: bool, allowBounded: bool)

  /** The classification of one row. */
  function Classified(limits: Limits, row: ValidationRow): Classification {
    ClassifyValidationStatus(row.status, row.tier, row.hardCertificate, limits.allowSampled, limits.allowBounded)
  }

  /** The batch settles its own question: it may be executed, or its orders differ. */
  predicate Settles(limits: Limits, row: ValidationRow) {
    || IsExactExecutable(Classified(limits, row), row.status)
    || (Classified(limits, row).class_ == RejectedBatch && row.status == Status.Mismatch)
  }

  /** A row that by itself makes the evidence of the state incomplete. */
  predicate Inconclusive(limits: Limits, row: ValidationRow) {
    || row.status == NotValidated || row.tier == PermutationDagIncomplete || row.dagBudgetExceeded
    || !Settles(limits, row)
  }

  /** `_exact_incomplete_reasons`: is there one? */
  predicate IncompleteEvidence(limits: Limits, pairsIncomplete: bool, family: Family, report: seq<CoverageStatus>,
                               rows: seq<ValidationRow>)
    requires |family.exact| == |family.components|
  {
    || pairsIncomplete || family.truncated
    || (exists k :: 0 <= k < |family.exact| && !family.exact[k])
    || Dropped in report
    || (exists i :: 0 <= i < |rows| && Inconclusive(limits, rows[i]))
  }

  /** Limits that `n` active passes never reach. */
  ghost predicate Ample(limits: Limits, n: nat) {
    && limits.maxComponentSize >= n && limits.maxBatchCandidates >= Pow2(n)
    && limits.mode in {Auto, DagMode}
    && forall k {:trigger Suffices(k, limits.maxNodes, limits.maxEdges)} :: 0 <= k <= n ==>
         Suffices(k, limits.maxNodes, limits.maxEdges)
  }

  /** Row `i` is an honest row for candidate `i`, run in rank order. */
  ghost predicate RowOf(tc: Toolchain, input: Ir, active: seq<Pass>, s: set<Pass>, row: ValidationRow) {
    tc.Sound() ==> RowIsHonest(tc, input, InRankOrder(s, active), row)
  }

  function Offered(limits: Limits, active: seq<Pass>, i: nat, s: set<Pass>, row: ValidationRow): Candidate {
    Candidate("B" + NodeName(i)[1..], InRankOrder(s, active), Classified(limits, row), row.status)
  }

  /** Fill a fresh table with the single-pass outputs of the state's input. */
  method SeedProfile(tc: Toolchain, runtime: ValidationRuntime, input: Ir, profile: map<Pass, Ir>)
    requires runtime.Faithful(tc) && ProfileExact(tc, input, profile)
    modifies runtime
    ensures runtime.Faithful(tc)
    ensures forall universe ::
              profile.Keys <= universe && FromReplays(tc, input, universe, old(runtime.transitions)) ==>
              FromReplays(tc, input, universe, runtime.transitions)
  {
    hide FromReplays, runtime.Faithful;
    var left := profile.Keys;
    while left != {}
      invariant left <= profile.Keys && runtime.Faithful(tc)
      invariant forall universe ::
                  profile.Keys <= universe && FromReplays(tc, input, universe, old(runtime.transitions)) ==>
                  FromReplays(tc, input, universe, runtime.transitions)
      decreases |left|
    {
      var p :| p in left;
      ghost var table := runtime.transitions;
      runtime.Seed(tc, input, p, profile[p]);
      forall universe | profile.Keys <= universe && FromReplays(tc, input, universe, old(runtime.transitions))
        ensures FromReplays(tc, input, universe, runtime.transitions)
      {
        SeedsAreReplays(tc, input, universe, table, p, profile[p]);
      }
      left := left - {p};
    }
  }

  /** Validate the candidates, in order, on one table. */
  method ValidateCandidates(tc: Toolchain, runtime: ValidationRuntime, input: Ir, active: seq<Pass>,
                            profile: map<Pass, Ir>, limits: Limits, candidates: seq<set<Pass>>,
                            shuffles: seq<Pass> -> seq<seq<Pass>>)
    returns (rows: seq<ValidationRow>)
    requires Distinct(active) && runtime.Faithful(tc) && ProfileExact(tc, input, profile)
    requires ShufflesOf(shuffles, limits)
    modifies runtime
    ensures runtime.Faithful(tc) && |rows| == |candidates|
    ensures forall i :: 0 <= i < |candidates| ==> RowOf(tc, input, active, candidates[i], rows[i])
    // the table stays a table of this state
    ensures forall universe :: ToSet(active) <= universe && DigestsDecide(tc, input, universe)
                               && FromReplays(tc, input, universe, old(runtime.transitions)) ==>
              FromReplays(tc, input, universe, runtime.transitions)
    // with ample limits and tools that never fail every row is conclusive
    ensures tc.NeverFails() && Ample(limits, |active|) ==>
              forall i :: 0 <= i < |candidates| && InRankOrder(candidates[i], active) != [] ==>
                !Inconclusive(limits, rows[i])
  {
    hide FromReplays, DigestsDecide, RowIsHonest, runtime.Faithful, Distinct, InRankOrder, Ample, Inconclusive,
         Suffices;
    rows := [];
    for i := 0 to |candidates|
      invariant runtime.Faithful(tc) && |rows| == i
      invariant forall k :: 0 <= k < i ==> RowOf(tc, input, active, candidates[k], rows[k])
      invariant forall universe :: ToSet(active) <= universe && DigestsDecide(tc, input, universe)
                                   && FromReplays(tc, input, universe, old(runtime.transitions)) ==>
                  FromReplays(tc, input, universe, runtime.transitions)
      invariant tc.NeverFails() && Ample(limits, |active|) ==>
                  forall k :: 0 <= k < i && InRankOrder(candidates[k], active) != [] ==> !Inconclusive(limits, rows[k])
    {
      var order := InRankOrder(candidates[i], active);
      InRankOrderDistinct(candidates[i], active);
      NoLonger(active, order);
      var row, tested := ValidateOneBatch(
        tc, runtime, Some(input), order, profile, limits.mode, limits.maxPermutationFactorial,
        limits.maxValidationSequences, limits.maxNodes, limits.maxEdges, limits.samples, shuffles(order));
      if tc.NeverFails() && Ample(limits, |active|) && order != [] {
        AmpleIsConclusive(limits, |active|, |order|, row);
      }
      rows := rows + [row];
    }
  }

  lemma AmpleIsConclusive(limits: Limits, n: nat, k: nat, row: ValidationRow)
    requires Ample(limits, n) && k <= n
    requires row.status == Status.AllPermutationsSame <==> row.hardCertificate
    requires && limits.mode in {Auto, DagMode} && Suffices(k, limits.maxNodes, limits.maxEdges) ==>
               && row.status in {Status.AllPermutationsSame, Status.Mismatch} && !row.dagBudgetExceeded
               && row.tier in {ExhaustiveAllPermutations, PermutationDagExact, PermutationDagMismatch}
    ensures !Inconclusive(limits, row)
  {
    hide Suffices, Pow2;
    assert Suffices(k, limits.maxNodes, limits.maxEdges);
  }

  ghost predicate ShufflesOf(shuffles: seq<Pass> -> seq<seq<Pass>>, limits: Limits) {
    forall order {:trigger shuffles(order)} :: Distinct(order) ==>
      |shuffles(order)| >= MaxInt(limits.samples * 20, 100) && forall d :: d in shuffles(order) ==> Arranges(d, order)
  }

  function Offers(limits: Limits, active: seq<Pass>, candidates: seq<set<Pass>>,
                  rows: seq<ValidationRow>): (offers: seq<Candidate>)
    requires |rows| == |candidates|
    ensures |offers| == |candidates|
    ensures forall i :: 0 <= i < |offers| ==> offers[i] == Offered(limits, active, i, candidates[i], rows[i])
  {
    seq(|candidates|, i requires 0 <= i < |candidates| => Offered(limits, active, i, candidates[i], rows[i]))
  }

  ghost predicate Ascends(order: seq<Pass>, active: seq<Pass>) {
    forall i, j :: 0 <= i < j < |order| ==> InOrder(active, order[i], order[j])
  }

  ghost predicate InOrder(active: seq<Pass>, p: Pass, q: Pass) {
    exists a, b :: 0 <= a < b < |active| && active[a] == p && active[b] == q
  }

  /** The batches offered are the candidates, one after the other, each run in rank order
      and classified by its row; their ids tell them apart and keep their order. */
  ghost predicate Presents(offers: seq<Candidate>, limits: Limits, active: seq<Pass>, candidates: seq<set<Pass>>,
                           rows: seq<ValidationRow>)
  {
    && |offers| == |candidates| == |rows|
    && (forall i :: 0 <= i < |offers| ==>
          && ToSet(offers[i].order) == candidates[i] && Distinct(offers[i].order) && Ascends(offers[i].order, active)
          && offers[i].status == rows[i].status && offers[i].correctness == Classified(limits, rows[i]))
    && (forall i, j :: 0 <= i < j < |offers| ==> offers[i].batchId != offers[j].batchId)
    && (forall i, j :: 0 <= i < j < |offers| && j < 10000 ==> TextBefore(offers[i].batchId, offers[j].batchId))
  }

  lemma OffersPresent(limits: Limits, active: seq<Pass>, candidates: seq<set<Pass>>, rows: seq<ValidationRow>)
    requires |rows| == |candidates| && Distinct(active) && forall s :: s in candidates ==> s <= ToSet(active)
    ensures Presents(Offers(limits, active, candidates, rows), limits, active, candidates, rows)
  {
    hide Distinct, InRankOrder, Ascends, NodeName, Classified;
    var offers := Offers(limits, active, candidates, rows);
    forall i | 0 <= i < |offers|
      ensures ToSet(offers[i].order) == candidates[i] && Distinct(offers[i].order) && Ascends(offers[i].order, active)
    {
      assert candidates[i] in candidates;
      InRankOrderDistinct(candidates[i], active);
      assert candidates[i] * ToSet(active) == candidates[i];
      RankOrderAscends(candidates[i], active);
    }
    forall i, j | 0 <= i < j < |offers|
      ensures offers[i].batchId != offers[j].batchId
      ensures j < 10000 ==> TextBefore(offers[i].batchId, offers[j].batchId)
    {
      IdsInOrder(i, j);
    }
  }

  lemma RankOrderAscends(s: set<Pass>, active: seq<Pass>)
    ensures Ascends(InRankOrder(s, active), active)
  {
    var order := InRankOrder(s, active);
    forall i, j | 0 <= i < j < |order| ensures InOrder(active, order[i], order[j]) {
      var a, b := InRankOrderAscends(s, active, i, j);
    }
  }

  lemma IdsInOrder(i: nat, j: nat)
    requires i < j
    ensures "B" + NodeName(i)[1..] != "B" + NodeName(j)[1..]
    ensures j < 10000 ==> TextBefore("B" + NodeName(i)[1..], "B" + NodeName(j)[1..])
  {
    var a, b := NodeName(i)[1..], NodeName(j)[1..];
    assert NodeName(i) == ['N'] + a && NodeName(j) == ['N'] + b;
    if "B" + a == "B" + b {
      assert a == ("B" + a)[1..] && b == ("B" + b)[1..];
      NamesAreUnique(i, j);
    }
    if j < 10000 {
      ShortNamesFollowNumbers(i, j);
      TextAfterSameStart('N', a, b);
      TextAfterSameStart('B', a, b);
    }
  }

  function Classes(limits: Limits, rows: seq<ValidationRow>): map<nat, CorrectnessClass> {
    map i: nat | i < |rows| :: Classified(limits, rows[i]).class_
  }

  /** Some offered batch consists of these passes. */
  ghost predicate IsOffered(analysis: Analysis, s: set<Pass>) {
    exists c :: c in analysis.candidates && ToSet(c.order) == s
  }

  /** With complete evidence the state's question is settled: each maximal independent
      set of active passes is offered as a batch, nothing else is, and a batch may be
      executed exactly when all its orders agree. */
  ghost predicate Settled(tc: Toolchain, input: Ir, active: seq<Pass>, graph: BatchConstruction.Graph,
                          analysis: Analysis) {
    && (active != [] ==> forall s :: IsOffered(analysis, s) <==> MaximalIndependent(graph, ToSet(active), s))
    && forall c :: c in analysis.candidates ==> (Executable(analysis, c) <==> tc.AllOrdersEquivalent(input, c.order))
  }

  /** The profiled passes that are active on `x`: they run and change its digest. */
  function ActiveIn(tc: Toolchain, profiled: seq<Pass>, x: Ir): seq<Pass> {
    if profiled == [] then []
    else
      var p := profiled[|profiled| - 1];
      ActiveIn(tc, profiled[..|profiled| - 1], x)
      + if tc.apply(p, x).Some? && tc.digest(tc.apply(p, x).value) != tc.digest(x) then [p] else []
  }

  /** Pairs are said to commute exactly when both orders agree. */
  ghost predicate RelationsHold(tc: Toolchain, x: Ir, active: seq<Pass>, relations: Relations) {
    forall p, q :: p in active && q in active && p != q ==>
      (Commute(relations, p, q) <==> tc.AllOrdersEquivalent(x, [p, q]))
  }

  /** The analysis is the complete and true account of state `x`: its active passes, all
      pairs of them, and every batch they admit. */
  ghost predicate Genuine(tc: Toolchain, profiled: seq<Pass>, x: Ir, analysis: Analysis) {
    && !analysis.incomplete && analysis.activePasses == |ActiveIn(tc, profiled, x)| && Answered(tc, x, analysis)
    && exists relations, graph :: GenuineBy(tc, profiled, x, analysis, relations, graph)
  }

  ghost predicate GenuineBy(tc: Toolchain, profiled: seq<Pass>, x: Ir, analysis: Analysis, relations: Relations,
                            graph: BatchConstruction.Graph)
  {
    var active := ActiveIn(tc, profiled, x);
    && RelationsHold(tc, x, active, relations) && IsConflictGraph(active, relations, graph)
    && Settled(tc, x, active, graph, analysis)
  }

  /** What the searches may assume about the analysis of a state: no active pass, no
      batch; honest rows behind every batch; with complete evidence, exactly the
      batches all of whose orders agree are executed. */
  ghost predicate Answered(tc: Toolchain, input: Ir, analysis: Analysis) {
    && (analysis.activePasses == 0 ==> analysis.candidates == [])
    && BackedAt(tc, input, analysis.candidates)
    && (!analysis.incomplete ==>
          forall c :: c in analysis.candidates ==>
            (Executable(analysis, c) <==> tc.AllOrdersEquivalent(input, c.order)))
  }

  /** A world whose states are analysed this way meets the hypotheses of the searches. */
  lemma AnalysedWorlds(w: World)
    requires forall x :: Answered(w.tc, x, w.analyse(x))
    ensures Backed(w) && QuietStatesHaveNoBatches(w)
    ensures forall x, c :: !w.analyse(x).incomplete && c in w.analyse(x).candidates ==>
              (Executable(w.analyse(x), c) <==> w.tc.AllOrdersEquivalent(x, c.order))
  {
    hide BackedAt;
    forall x ensures Answered(w.tc, x, w.analyse(x)) {}
  }

  /** `_build_validate_classify`, with the verdict on its evidence. */
  method AnalyseState(tc: Toolchain, input: Ir, active: seq<Pass>, relations: Relations, pairsIncomplete: bool,
                      profile: map<Pass, Ir>, limits: Limits, shuffles: seq<Pass> -> seq<seq<Pass>>)
    returns (analysis: Analysis, report: seq<CoverageStatus>, family: Family, ghost graph: BatchConstruction.Graph,
             ghost rows: seq<ValidationRow>, runtime: ValidationRuntime)
    requires Distinct(active) && profile.Keys <= ToSet(active) && ProfileExact(tc, input, profile)
    requires ShufflesOf(shuffles, limits)
    ensures fresh(runtime) && runtime.Faithful(tc)
    ensures IsConflictGraph(active, relations, graph) && Splits(graph, family.components)
    ensures analysis.activePasses == |active| && (tc.Sound() ==> Answered(tc, input, analysis))
    ensures tc.Sound() && !analysis.incomplete ==> Settled(tc, input, active, graph, analysis)
    // the evidence is complete if the tools never fail and no limit is in the way
    ensures tc.NeverFails() && !pairsIncomplete && Ample(limits, |active|) ==> !analysis.incomplete
    // whatever was cut or failed: the candidates commute, each is offered under its honest row,
    // and what is reported of a pass is right for these candidates and rows
    ensures |family.exact| == |family.components|
    ensures forall s :: s in family.candidates ==> s <= ToSet(active) && PairwiseCommute(relations, s)
    ensures Presents(analysis.candidates, limits, active, family.candidates, rows)
    ensures forall i :: 0 <= i < |rows| ==> RowOf(tc, input, active, family.candidates[i], rows[i])
    ensures |report| == |active| && Dropped !in report
    ensures forall i :: 0 <= i < |active| ==> Means(report[i], active[i], family, Classes(limits, rows), false)
    ensures !analysis.incomplete ==>
              !family.truncated && forall i :: 0 <= i < |report| ==> report[i] in {CertifiedCovered, ValidationRejected}
    // where digests decide, the table the batches shared holds work on this state only
    ensures DigestsDecide(tc, input, ToSet(active)) ==> FromReplays(tc, input, ToSet(active), runtime.transitions)
  {
    hide IsConflictGraph, Splits, PairwiseCommute, MaximalIndependent, FromReplays, DigestsDecide, Means, Distinct,
         RowIsHonest, ShufflesOf, ProfileExact, BackedAt, Settled, Answered, RowOf, InRankOrder, Ample, Inconclusive,
         Pow2, Presents;
    family, graph := BuildBatchFamily(active, relations, limits.maxComponentSize, limits.maxBatchCandidates);
    runtime := new ValidationRuntime();
    EmptyTable(tc, input, ToSet(active));
    SeedProfile(tc, runtime, input, profile);
    var found := ValidateCandidates(tc, runtime, input, active, profile, limits, family.candidates, shuffles);
    rows := found;
    report := BuildCoverageReport(active, family, Classes(limits, found), false);
    FamilyReport(active, relations, graph, family, Classes(limits, rows), false, report);
    analysis := Analysis(IncompleteEvidence(limits, pairsIncomplete, family, report, found), |active|,
                         Offers(limits, active, family.candidates, found));
    OffersPresent(limits, active, family.candidates, rows);
    if tc.NeverFails() && !pairsIncomplete && Ample(limits, |active|) {
      AmpleFacts(limits, |active|);
      CandidatesNotEmpty(active, relations, graph, family);
    }
    if tc.Sound() {
      OffersBacked(tc, input, active, limits, family.candidates, rows);
    }
    if !analysis.incomplete {
      EveryRowSettles(limits, rows);
      CompleteReport(active, limits, family, rows, report);
      if tc.Sound() {
        CompleteSettles(tc, input, active, relations, graph, limits, family, rows, analysis);
      }
    }
    if tc.Sound() {
      AnsweredParts(tc, input, active, graph, analysis);
    }
  }

  lemma EveryRowSettles(limits: Limits, rows: seq<ValidationRow>)
    requires forall i :: 0 <= i < |rows| ==> !Inconclusive(limits, rows[i])
    ensures forall i :: 0 <= i < |rows| ==> Settles(limits, rows[i])
  {
  }

  lemma AmpleFacts(limits: Limits, n: nat)
    requires Ample(limits, n)
    ensures limits.maxComponentSize >= n && limits.maxBatchCandidates >= Pow2(n)
  {
  }

  lemma CandidatesNotEmpty(active: seq<Pass>, relations: Relations, graph: BatchConstruction.Graph, family: Family)
    requires IsConflictGraph(active, relations, graph)
    requires active == [] ==> family.candidates == []
    requires active != [] ==> forall s :: s in family.candidates <==> MaximalIndependent(graph, ToSet(active), s)
    ensures forall s :: s in family.candidates ==> InRankOrder(s, active) != []
  {
    hide IsConflictGraph, MaximalIndependent, InRankOrder;
    forall s | s in family.candidates ensures InRankOrder(s, active) != [] {
      BatchesAreNotEmpty(active, relations, graph, s);
    }
  }

  lemma AnsweredParts(tc: Toolchain, input: Ir, active: seq<Pass>, graph: BatchConstruction.Graph, analysis: Analysis)
    requires |active| == analysis.activePasses && (active == [] ==> analysis.candidates == [])
    requires BackedAt(tc, input, analysis.candidates)
    requires !analysis.incomplete ==> Settled(tc, input, active, graph, analysis)
    ensures Answered(tc, input, analysis)
  {
    hide BackedAt;
  }

  lemma EmptyTable(tc: Toolchain, input: Ir, universe: set<Pass>)
    ensures FromReplays(tc, input, universe, map[])
  {
  }

  lemma OffersBacked(tc: Toolchain, input: Ir, active: seq<Pass>, limits: Limits, candidates: seq<set<Pass>>,
                     rows: seq<ValidationRow>)
    requires tc.Sound() && Distinct(active) && |rows| == |candidates|
    requires forall i :: 0 <= i < |candidates| ==> RowOf(tc, input, active, candidates[i], rows[i])
    ensures BackedAt(tc, input, Offers(limits, active, candidates, rows))
  {
    hide RowIsHonest, InRankOrder, Distinct;
    var offers := Offers(limits, active, candidates, rows);
    forall c | c in offers ensures Distinct(c.order) && exists row :: ClassifiedFrom(tc, input, c, row) {
      var i :| 0 <= i < |offers| && offers[i] == c;
      InRankOrderDistinct(candidates[i], active);
      assert RowOf(tc, input, active, candidates[i], rows[i]);
      assert c.correctness == ClassifyValidationStatus(rows[i].status, rows[i].tier, rows[i].hardCertificate,
                                                       limits.allowSampled, limits.allowBounded);
      assert ClassifiedFrom(tc, input, c, rows[i]);
    }
  }

  /** With complete evidence every row settles, so every pass is certified or rejected. */
  lemma CompleteReport(active: seq<Pass>, limits: Limits, family: Family, rows: seq<ValidationRow>,
                       report: seq<CoverageStatus>)
    requires |rows| == |family.candidates| && |family.exact| == |family.components| && |report| == |active|
    requires forall i :: 0 <= i < |rows| ==> Settles(limits, rows[i])
    requires forall i :: 0 <= i < |active| ==> HasCandidate(active[i], family)
    requires UnresolvedConflict !in report && Dropped !in report
    requires forall i :: 0 <= i < |active| ==> Means(report[i], active[i], family, Classes(limits, rows), false)
    ensures forall i :: 0 <= i < |report| ==> report[i] in {CertifiedCovered, ValidationRejected}
  {
    hide HasCandidate;
    forall i | 0 <= i < |report| ensures report[i] in {CertifiedCovered, ValidationRejected} {
      SettledClasses(active[i], limits, family, rows);
      assert report[i] != UnresolvedConflict && report[i] != Dropped;
    }
  }

  lemma SettledClasses(p: Pass, limits: Limits, family: Family, rows: seq<ValidationRow>)
    requires |rows| == |family.candidates| && forall i :: 0 <= i < |rows| ==> Settles(limits, rows[i])
    ensures var classes := Classes(limits, rows);
            && !HasCandidateOf(p, family, classes, BoundedBatch) && !HasCandidateOf(p, family, classes, SampledBatch)
            && !SomeUndecided(p, family, classes)
  {
    var classes := Classes(limits, rows);
    forall i | 0 <= i < |family.candidates| ensures ClassOf(classes, i) in {CertifiedBatch, RejectedBatch} {
      assert Settles(limits, rows[i]);
    }
  }

  lemma CompleteSettles(tc: Toolchain, input: Ir, active: seq<Pass>, relations: Relations,
                        graph: BatchConstruction.Graph, limits: Limits, family: Family, rows: seq<ValidationRow>,
                        analysis: Analysis)
    requires tc.Sound() && Distinct(active) && |rows| == |family.candidates|
    requires IsConflictGraph(active, relations, graph)
    requires active == [] ==> family.candidates == []
    requires active != [] ==> forall s :: s in family.candidates <==> MaximalIndependent(graph, ToSet(active), s)
    requires forall i :: 0 <= i < |rows| ==>
              Settles(limits, rows[i]) && RowOf(tc, input, active, family.candidates[i], rows[i])
    requires analysis.candidates == Offers(limits, active, family.candidates, rows)
    ensures Settled(tc, input, active, graph, analysis)
  {
    hide RowIsHonest, InRankOrder, MaximalIndependent, IsConflictGraph, Distinct, IsOffered;
    var offers := analysis.candidates;
    forall c | c in offers ensures Executable(analysis, c) <==> tc.AllOrdersEquivalent(input, c.order) {
      var i :| 0 <= i < |offers| && offers[i] == c;
      assert active != [];
      BatchesAreNotEmpty(active, relations, graph, family.candidates[i]);
      RowDecides(tc, input, active, limits, family.candidates[i], rows[i]);
    }
    if active != [] {
      forall s | s in family.candidates ensures s <= ToSet(active) { MaximalWithin(active, graph, s); }
      forall s ensures IsOffered(analysis, s) <==> MaximalIndependent(graph, ToSet(active), s) {
        OfferedSets(active, limits, family.candidates, rows, analysis, s);
      }
    }
  }

  lemma MaximalWithin(active: seq<Pass>, graph: BatchConstruction.Graph, s: set<Pass>)
    requires MaximalIndependent(graph, ToSet(active), s)
    ensures s <= ToSet(active)
  {
  }

  lemma OfferedSets(active: seq<Pass>, limits: Limits, candidates: seq<set<Pass>>, rows: seq<ValidationRow>,
                    analysis: Analysis, s: set<Pass>)
    requires Distinct(active) && |rows| == |candidates|
    requires analysis.candidates == Offers(limits, active, candidates, rows)
    requires forall t :: t in candidates ==> t <= ToSet(active)
    ensures IsOffered(analysis, s) <==> s in candidates
  {
    hide Distinct;
    forall t | t in candidates ensures ToSet(InRankOrder(t, active)) == t {
      InRankOrderDistinct(t, active);
    }
    if IsOffered(analysis, s) {
      var c :| c in analysis.candidates && ToSet(c.order) == s;
      var i :| 0 <= i < |candidates| && analysis.candidates[i] == c;
      assert candidates[i] in candidates;
    }
    if s in candidates {
      var i :| 0 <= i < |candidates| && candidates[i] == s;
      assert analysis.candidates[i] in analysis.candidates;
    }
  }

  /** A maximal independent set of a conflict graph with passes is not empty. */
  lemma BatchesAreNotEmpty(active: seq<Pass>, relations: Relations, graph: BatchConstruction.Graph, s: set<Pass>)
    requires IsConflictGraph(active, relations, graph) && active != [] && MaximalIndependent(graph, ToSet(active), s)
    ensures InRankOrder(s, active) != []
  {
    if s == {} {
      assert active[0] in ToSet(active) && {} < {active[0]} <= ToSet(active);
      assert Independent(graph, {active[0]});
    } else {
      var p :| p in s;
      assert p in ToSet(active);
      assert p in InRankOrder(s, active);
    }
  }

  /** A settling honest row decides whether the batch may be executed. */
  lemma RowDecides(tc: Toolchain, input: Ir, active: seq<Pass>, limits: Limits, s: set<Pass>, row: ValidationRow)
    requires tc.Sound() && Settles(limits, row) && RowOf(tc, input, active, s, row)
    ensures IsExactExecutable(Classified(limits, row), row.status) <==>
            tc.AllOrdersEquivalent(input, InRankOrder(s, active))
  {
  }
}
