# Phasebatch, modelled in Dafny

Phasebatch decides which sets of LLVM passes may be run in any order ("batches"),
then searches the graph of programs those batches lead to. This project models
the decisions and proves what they promise. LLVM is a value of `Toolchain`: a
deterministic `apply(pass, program)`, a digest, a comparison that may fail to
answer, and the equivalence the evidence is about. What is assumed of it is named
and stated where it is used:

- `Sound`: passes respect the equivalence, equal digests imply it, and a
  comparison that answers decides it;
- `HashRespected`: the coarser hash that merges search states is respected by
  passes and by batch construction (a separate hypothesis, about that hash only);
- `QuietStatesHaveNoBatches`: no active pass, no batch;
- `Backed`: the batches offered to a search carry classifications of rows that
  validation could have produced. `StateAnalysis` shows that building, validating
  and classifying a state's batches meets this and the previous hypothesis;
- `Honest`, `ReadsBack`, `Calm`: the worker loads what a file with the signature holds
  and applies what it is asked to; what it writes reads back as the module written;
  processes start and answer. Only the results named after them use these.

| file | component |
|---|---|
| `Basics`, `NodeNames` | lists, stable sorting, the text order of ids |
| `Toolchains` | LLVM from outside |
| `ValidationRuntime` | memo tables of one state's validation |
| `DagEvidence`, `DagMemory`, `DagOrder` | the permutation DAG: what its nodes prove, where their programs come from, in which order they are listed |
| `PermutationDag` | the search that builds it |
| `DagCounting`, `DagSequences`, `DagWitnesses` | its size from below and from above; runs in which expectations fail |
| `SubsetLists`, `InsertionOrders` | combinations, bounded insertion orders |
| `BatchCorrectness`, `BatchValidation` | from evidence to permission, and the validation ladder |
| `BatchConstruction`, `BatchFamily`, `Coverage` | conflict graph, components, maximal independent sets, product, coverage |
| `StateAnalysis` | one state from relations to classified batches, and when its evidence is complete |
| `StateGraphs` | hash-merged states, paths, parent links, the chosen pipeline |
| `ExactSearch`, `RollingWindows`, `RollingSearch`, `FrontierSelection` | the two exact searches and the beam |
| `SearchWitnesses` | worlds on which the searches do not do what one would expect |
| `PipelineMeaning` | what the certificates mean for a reported pipeline |
| `WorkerProtocol`, `WorkerService` | one worker process: what never goes wrong, and what it achieves |
| `WorkerPool`, `PooledUse` | the pool of workers, clients that hold workers through it |
| `HandleModel`, `WorkerShard` | module handles: the operations as functions, and the class that performs them |
| `HandleConservation`, `HandleContents`, `HandleProgress` | who owns which reference, which module a path or result stands for, and that operations succeed |
| `QuoteScanners` | quote-aware scanning of IR text |

Code that updates state is imperative here too: `PermutationDag`,
`ValidationRuntime`, `WorkerShard` and `WorkerPool` are classes, the searches and
scanners are methods with loops; their contracts tie them to functions and
predicates whose laws are lemmas. The worker process is a state machine over
single steps, because its steps interleave.

`dafny verify dfyconfig.toml` checks the project.

## Findings

Properties one would expect of the code that do not hold as such, each with the
condition under which they do:

1. **A DAG node's program need not be the exact replay of its path.** Transitions
   are looked up by digest (`phasebatch/batch_validation_dag.py:200-204`) in a table
   that all batches of one state share, so a node may hold the output of a pass on
   another program of this state with the same digest. `StolenBetweenBatches` is a
   state of sound tools with the active passes a, b and p, of which only a and b
   conflict: validating its two batches [a, p] and [b, p] on one fresh table completes
   and leaves a node that is not the replay of its path. A node is always equivalent
   to the replay (`NodeReplays`). It is exactly the replay in every run of the state if
   no pass tells apart two programs with one digest that are reached from the root
   by duplicate-free sequences without it (`DigestsDecide`, `ExactWhenDigestsDecide`,
   `Validate`); and if some pass does, the two batches that lead there cannot both be
   exact once their runs complete with at most 10000 nodes, as they do with tools that
   never fail, at most six passes and sufficient budgets (`StolenTransition`).
2. **Node and state ids are compared as text** (`phasebatch/batch_validation_dag.py:184-187`).
   Creation order survives if and only if there are at most 10000
   (`NamesFollowCreationExactly`). With fewer than 10000 nodes before the last depth,
   the first final node a complete run reports is the canonical order's if and only
   if there are at most 10000 nodes in all (`DagOrder.FirstFinalIsCanonical`); a node
   budget of at most 10000 suffices (`Validate`), and no larger one does: for each there
   are sound tools on which a complete run of seven passes has 10001 nodes and reports
   another order first (`CanonicalOrderNotFirst`).
3. **The number of DAG edges is n·2^(n-1) exactly when every proper subset has one
   class**; the full batch may end in several. For 2^n nodes every subset must
   have one (`CompleteDagSize`).
4. **With no active pass nothing is emitted**, although the empty set is the one
   maximal independent set of the empty graph. This is the only exception
   (`BuildBatchFamily`).
5. **The fixed-depth search does not count a batch that fails to apply as
   incomplete** (`phasebatch/optimizer.py:1607-1608`), while
   `docs/superpowers/specs/2026-07-11-rolling-exact-mainline-design.md:93-107`
   lists it among the reasons both searches share. The model follows the code. On a
   world whose root has two active passes and one certified batch of both, which does
   not end in time as one pipeline, the search calls itself complete without having
   applied anything (`CompleteWithoutApplying`). A complete
   run has applied every executable batch of every expanded state if and only if all
   of them apply there (`RunExact`), and a certified batch applies if and only if, as
   one pipeline, it ends in time (`CertifiedBatchesApply`).
6. **A rolling search may run for ever.** It ends on every world if and only if
   incompleteness stops it, or there is a window cap, or the state cap is not above
   the window depth: `RunRolling` bounds the windows in these cases, and for every
   other accepted configuration `SearchNeedNotEnd` gives a world of sound tools and
   certified batches on which it never ends, a ring of programs one longer than a
   window. In the worlds of both findings every state has been analysed (`AnalyseState`)
   and its passes, relations, conflict graph and batches are truly its own (`Genuine`). Where executable batches always apply it ends under every configuration.
7. **Handle conservation can be lost.** When a cached path is remembered again with
   the handle it already has, the superfluous reference is released first and the
   entry stamped with the generation afterwards (`phasebatch/opt_backend.py:477-487`).
   If the process had died unnoticed, the release starts a new one, fails quietly,
   and the entry is recorded as current although the new process does not know the
   handle; later loads of that path hit the cache and their applies are refused
   (`ConservationCanFail`). This is the only way it is lost (`RememberKeeps`,
   `StampsTooLateMeansDead`). Nothing ever leaks: a live process never counts more
   than what is held. It counts less by exactly the late stamps of this generation
   for which no reference has been given up in vain since, so conservation holds if
   and only if there are none (`EveryRunConserves`); it can return within the
   generation (`ConservationCanReturn`), and does with a restart.
8. **A reply can be misdirected** if somebody else starts the worker between a
   request's write and its read of the output queue, and the new process guesses
   the id (`ForeignStartCanMisdirect`). The class permits this; no caller in the
   repository does it, since every `start` outside `request`
   (`phasebatch/opt_backend.py:214`, `:273`, `:343`, `:383`) happens inside an
   exclusive checkout, and then it is impossible (`PooledRepliesComeFromTheirProcess`).
   In general it cannot happen if nobody starts the worker meanwhile, or processes
   answer only what they were asked (`RepliesComeFromTheirProcess`). Whatever happens,
   what a process printed is never returned after one of its requests failed
   (`RepliesCarryTheirId`).
9. **Rewriting outside quotes keeps the quoted strings** if and only if the text does
   not end inside a string or nothing is written for an empty segment
   (`RewritingKeepsQuotesExactly`). Both rewrites in the source meet the second half.

## Model

| member | source | states |
|---|---|---|
| Toolchains.Toolchain.ReplayConcat | phasebatch/batcher.py:1005-1025 | running a pipeline in two parts is running it at once, failures included |
| ValidationRuntimes.ValidationRuntime.GetOrComputeTransition | phasebatch/validation_runtime.py:79-114 | a hit returns the stored transition, a miss runs the pass and stores a success only; every entry stays the real output of a program with the key's digest |
| ValidationRuntimes.ValidationRuntime.GetOrComputeEquivalence | phasebatch/validation_runtime.py:138-173 | a known pair is answered from the table, another is compared and stored unless the comparison fails; every stored verdict was really given |
| ValidationRuntimes.ValidationRuntime.Seed | phasebatch/batcher.py:1148-1168 | seeding the table from single-pass profiles keeps it faithful |
| ValidationRuntimes.RanToSpeaksForTheSource | phasebatch/batch_validation_dag.py:435-531 | under `Sound`, a transition stored under a digest has the outcome of running the pass on any program with that digest |
| ValidationRuntimes.ComparedSpeaksForThePair | phasebatch/batch_validation_dag.py:563-588 | under `Sound`, a stored verdict for two digests decides the equivalence of any two programs with them |
| DagEvidence.NodeReplays | phasebatch/batch_validation_dag.py:589-600 | every node's program is equivalent to replaying its representative path |
| DagMemory.ExactWhenDigestsDecide | phasebatch/batch_validation_dag.py:200-204 | where no pass tells apart two programs with one digest reached from the root by duplicate-free sequences without it, every node is exactly the replay of its path, and the table the state's batches share goes on holding work on this state only |
| DagMemory.SeedsAreReplays | phasebatch/batcher.py:1148-1168 | seeding it with the profile of the state's input keeps it so |
| DagWitnesses.StolenTransition | phasebatch/batch_validation_dag.py:435-531 | where some pass does, run on one table the two batches ending in that pass: if both runs complete with at most 10000 nodes, a node of one of them is not the replay of its path; with tools that never fail, at most six passes and sufficient budgets they do complete |
| DagWitnesses.StolenBetweenBatches | phasebatch/batch_validation_dag.py:200-204 | two batches of commuting, active passes of one state with sound tools that never fail: their runs on one fresh table complete, and a node of one of them is not the replay of its path |
| DagMemory.PathsAreUnique | phasebatch/batch_validation_dag.py:550-600 | no two nodes have the same representative path, whatever the tools answer |
| DagEvidence.SameSubsetInequivalent | phasebatch/batch_validation_dag.py:551-600 | two nodes of one subset are never equivalent |
| DagEvidence.EverySequenceHasANode | phasebatch/batch_validation_dag.py:183-408 | in a complete DAG every sequence of distinct passes has a node with that subset and an equivalent program |
| DagEvidence.CertificateDecidesFactorialStatement | phasebatch/batch_validation_dag.py:395-408 | a complete DAG has one final class exactly when all n! orders run and agree |
| DagEvidence.TwoFinalsDisagree | phasebatch/batch_validation_dag.py:626-637 | two final nodes are full permutations with inequivalent results |
| DagOrder.FirstFinalIsCanonical | phasebatch/batch_validation_dag.py:184-207 | with fewer than 10000 nodes before the last depth, the first final node in id order is the canonical order's exactly when there are at most 10000 nodes in all |
| DagOrder.FinalsHaveParents | phasebatch/batch_validation_dag.py:395-408 | there are at most as many final nodes as other nodes |
| DagWitnesses.CanonicalOrderNotFirst | phasebatch/batch_validation_dag.py:184-207 | for every node budget above 10000, a complete run of sound tools on seven passes with 10001 nodes whose first reported order is not the canonical one |
| PermutationDags.PermutationDag.FindOrCreateNode | phasebatch/batch_validation_dag.py:534-600 | a result is merged by digest first and by comparison second and counted accordingly, else founds one new node extending the source's path; it fails only if a comparison fails |
| PermutationDags.PermutationDag.RunTransitions | phasebatch/batch_validation_dag.py:213-245 | one outcome per specification, in order, each held by the table under its key; it is a hit exactly if its key was in the table before or an earlier transition of the layer has put it there; the misses are the new entries and the failures |
| PermutationDags.PermutationDag.MergeOutcomes | phasebatch/batch_validation_dag.py:247-368 | in specification order every outcome lands in a node of the larger subset; merges plus new nodes account for all of them; stops only for a failure or one node above the budget |
| PermutationDags.PermutationDag.ExpandLayer | phasebatch/batch_validation_dag.py:183-393 | a layer that does not stop leaves every node of its depth with all transitions landed, within both budgets |
| PermutationDags.PermutationDag.Validate | phasebatch/batch_validation_dag.py:97-432 | a complete run certifies exactly the factorial statement, a mismatch reports a full permutation with an inequivalent result, failures need failing tools and incompleteness the exceeded budget it names; the canonical order is reported first if the node budget is at most 10000; nodes are exact replays where digests decide; edges = merges + nodes - 1 = hits + misses, the misses of a complete run are the entries it added to the table; never more edges than the passes missing from the nodes, nodes and edges within budget + 1 |
| DagCounting.CompleteDagSize | phasebatch/batch_validation_dag.py:550-600 | at least 2^n nodes and n·2^(n-1) edges, with equality exactly when every subset, respectively every proper subset, has one class |
| DagSequences.DagIsNeverLarger | phasebatch/batch_validation_dag.py:550-600 | no run, complete or not, has more nodes than there are duplicate-free sequences of the passes, and it has as many exactly when each of them has a node of its own |
| DagSequences.LargeBudgetsComplete | phasebatch/batch_validation_dag.py:183-432 | with tools that never fail and budgets no smaller than the number of such sequences, and that times the passes, every run decides |
| DagCounting.EverySubsetHasANode | phasebatch/batch_validation_dag.py:183-207 | every subset of the passes is visited, whatever the tools answer |
| NodeNames.NamesFollowCreationExactly | phasebatch/batch_validation_dag.py:184-187 | sorting ids as text follows creation for all of the first `count` nodes exactly when `count` is at most 10000 |
| NodeNames.NamesAreUnique | phasebatch/batch_validation_dag.py:317-318 | different nodes have different id texts |
| InsertionOrders.BoundedInsertionOrders | phasebatch/batcher.py:867-886 | the first moves by source and target: pairwise distinct permutations, none canonical, exactly min(limit, (n-1)^2) of them, and every order one move away if the limit allows |
| InsertionOrders.MovesCoincideExactly | phasebatch/batcher.py:874-883 | two moves give the same order exactly if they are the same move, both do nothing, or are one adjacent swap seen from both sides |
| BatchValidation.PermutationsContents | phasebatch/batcher.py:793 | the enumerated orders are exactly the permutations of the passes |
| BatchValidation.PermutationsSize | phasebatch/batcher.py:773-793 | there are n! of them |
| BatchValidation.PermutationsDistinct | phasebatch/batcher.py:793 | no permutation is listed twice |
| BatchValidation.ProfileReuseIsInvisible | phasebatch/batcher.py:984-1028 | starting from a profiled first pass changes no order's output |
| BatchValidation.ValidationPlan | phasebatch/batcher.py:763-830 | which tier is chosen; only the exhaustive one may certify, and it lists the other n! - 1 orders, each once; the bounded one has min(limit, (n-1)^2) distinct orders, all one move away from a limit on; the sampled one has as many as asked unless the draws bring no other |
| BatchValidation.SampledOrders | phasebatch/batcher.py:845-864 | distinct non-canonical permutations from the draws, at most the requested number, and fewer only if no attempt brings another |
| BatchValidation.CompareOrders | phasebatch/batcher.py:621-724 | failed exactly if some order or comparison fails, else mismatch exactly if some order differs, else all fold under the label of the tier; the counts and the first differing order; with sound tools, what this says about the outcomes of the orders tested |
| BatchValidation.ValidateByDag | phasebatch/batcher.py:515-538 | the DAG's verdict as a row: honest, decided with sufficient budgets, naming an order that differs from the canonical one, its tested orders the transitions that had to be run |
| BatchValidation.ValidateOneBatch | phasebatch/batcher.py:477-724 | which tiers a mode can lead to; for every class the classifier gives, what it means for outcomes: certified that all permutations agree, rejected that they do not, bounded or sampled that every tested order gives the canonical outcome, failed that tools failed; which orders were tested, among them all one move away if the limit allows; the order a mismatch names differs; partial evidence never certifies; with tools that never fail and sufficient budgets the exact modes decide; where digests decide, the shared table keeps to its state |
| BatchCorrectness.GatesAgree | phasebatch/batch_correctness.py:53-117 | folding, certification and exact execution are one gate; without explicit permission nothing else executes |
| BatchConstruction.BuildConflictGraph | phasebatch/batcher.py:34-45 | an edge between two active passes exactly when their pair is not known to commute |
| BatchConstruction.ConnectedComponents | phasebatch/batcher.py:292-309 | a partition of the active passes into reachability classes, closed under edges, already in order of their first passes |
| BatchConstruction.InRankOrderAscends | phasebatch/batcher.py:354 | the passes of a batch are listed by ascending rank |
| BatchFamily.MaximalIndependentSets | phasebatch/batcher.py:312-331 | exactly the maximal independent sets of the component, each once, largest first, and among those of one size by the first pass that tells them apart |
| BatchFamily.CandidatesExact | phasebatch/batcher.py:334-375 | uncut and with all components exact, the candidate list is the list of maximal independent sets, each once |
| BatchFamily.ProductContents | phasebatch/batcher.py:350-354 | the product is exactly the choices of one alternative per component |
| BatchFamily.ProductAt | phasebatch/batcher.py:350-354 | the last component varies fastest, which says which choices the limit cuts off |
| BatchFamily.ProductIsMaximalIndependentSets | phasebatch/batcher.py:334-375 | unions over the product are exactly the maximal independent sets of the whole graph, each from one choice |
| BatchFamily.CandidateRows | phasebatch/batcher.py:334-375 | the first members of the product up to the limit; truncated exactly when some are left |
| BatchFamily.BuildBatchFamily | phasebatch/batcher.py:22-116 | candidates commute pairwise whatever was cut; uncut they cover every active pass; with all components exact and no cut they are, each once, the maximal independent sets exactly if some pass is active, and nothing is emitted otherwise; limits of n and 2^n are never reached |
| Coverage.BuildCoverageReport | phasebatch/coverage.py:22-76 | one row per active pass, in order, whose status says what it should about the candidates and components that hold the pass and the classes of those candidates |
| Coverage.MeaningsAreExclusive | phasebatch/coverage.py:79-109 | no two statuses can be right for one pass, so these meanings determine the report |
| Coverage.FamilyReport | phasebatch/coverage.py:79-109 | for a constructed family: no active pass is dropped, none lacks a candidate unless the product was cut, none is unresolved unless a component was too large |
| StateAnalysis.ValidateCandidates | phasebatch/batcher.py:134-260 | one honest row per candidate, in order, all on one table that keeps to its state; none inconclusive with tools that never fail and ample limits |
| StateAnalysis.AnalyseState | phasebatch/optimizer.py:2013-2070 | whatever was cut or failed, each candidate is offered in rank order under its own honest row with its own id, none is offered in a quiet state, and the report is right for these candidates and rows; with complete evidence, which tools that never fail and ample limits give, the batches offered are the maximal independent sets of active passes, a batch is executable exactly when all its orders agree, and every active pass is reported certified or rejected; no pass is ever dropped |
| StateAnalysis.AnalysedWorlds | phasebatch/optimizer.py:2272-2319 | a world analysed like this meets the hypotheses of the searches, and with complete evidence executes exactly the batches all of whose orders agree |
| StateGraphs.DiscoverKeepsValid | phasebatch/optimizer.py:1082-1126 | adding a state keeps the index, the parent links and a real route to every state |
| StateGraphs.RelaxKeepsValid | phasebatch/optimizer.py:1148-1166 | shortening a path keeps them too, with no update of descendants: a child stays longer than its parent |
| StateGraphs.KeyMeans | phasebatch/optimizer.py:3658-3664 | what is recorded of a path: its length, the length of its flattened pipeline, its certified batches, its batch ids |
| StateGraphs.BetterMeans | phasebatch/optimizer.py:3667-3676 | a path replaces another exactly if it is shorter, or as short with a shorter pipeline, or as both with ids that come first where they differ |
| StateGraphs.ExtendMonotone | phasebatch/optimizer.py:3658-3676 | extending two paths by one batch keeps their order |
| StateGraphs.BetterNegativelyTransitive | phasebatch/optimizer.py:3667-3676 | "not better" composes, so relaxation never loses the best path |
| StateGraphs.FlattenReplays | phasebatch/optimizer.py:3387-3391 | the flattened pipeline replays to where the batches lead |
| StateGraphs.ChosenPath | phasebatch/optimizer.py:3201-3216 | the walk over parent links ends at the root, is no longer than recorded, and its flattened pipeline replays to a program with the selected state's hash; with fresh links, length, passes, certified batches and ids are those recorded |
| StateGraphs.SelectBest | phasebatch/optimizer.py:3123-3131 | least objective; among those the shortest path, the fewest passes, the most certified batches, the first id |
| ExactSearch.ApplyBatch | phasebatch/optimizer.py:1605-1661 | the child is recorded with a path no worse than this one, or the cap was reached; paths of earlier rounds do not change |
| ExactSearch.ExpandRound | phasebatch/optimizer.py:1564-1662 | after a round that does not stop all states of its length are settled; the cap ends only the current parent's batches; the round is called incomplete only for incomplete evidence or the cap, and whenever evidence was incomplete |
| ExactSearch.SettledMeansLeast | phasebatch/optimizer.py:1561-1668 | if all states below a length are settled, every shorter root path ends in a recorded state whose path is no worse |
| ExactSearch.LeastRoute | phasebatch/optimizer.py:3667-3676 | so for every such path the recorded route to its hash is at most as long, among those of this length has at most as many passes, and among those no later ids |
| ExactSearch.RunExact | phasebatch/optimizer.py:1537-1682 | a complete run records every hash reachable in the rounds with a least route to it, no stale parent link, and has applied every executable batch of every expanded state exactly if all of them apply; the claim needs complete evidence of every expanded state and is withheld only for incomplete evidence or the cap; an incomplete run goes on only if it may and otherwise stops in that round; the selected state has the least objective of all |
| SearchWitnesses.CompleteWithoutApplying | phasebatch/optimizer.py:1605-1608 | a world of sound tools, every state of it analysed, on which the search calls itself complete although the root's one executable batch, of two active passes, was never applied, for all limits |
| FrontierSelection.DominanceMeans | phasebatch/optimizer.py:2922-2937 | no worse by any of the nine criteria and better by one |
| FrontierSelection.DominanceIsStrictPartialOrder | phasebatch/optimizer.py:2922-2937 | dominance is irreflexive, asymmetric and transitive |
| FrontierSelection.ParetoKeptStateIds | phasebatch/optimizer.py:2914-2919 | exactly the undominated rows are kept, and every other row is dominated by a kept one |
| FrontierSelection.SelectDiversityPreservingBeam | phasebatch/optimizer.py:2940-2986 | distinct rows of the input, exactly min(width, rows) of them, the first of least objective; as far as it is wide it holds rows of fewest direct calls, memory operations, branches, and a novel one; the rest has the greatest scores, pool before others |
| FrontierSelection.SelectRollingFrontier | phasebatch/optimizer.py:1408-1434 | exactly min(width, rows) distinct rows, as diverse as that, the rest by score |
| RollingWindows.Record | phasebatch/optimizer.py:1082-1166 | a child is found by hash or added as the one new state, or the cap is reached and nothing changes |
| RollingWindows.ExpandParent | phasebatch/optimizer.py:998-1190 | nothing recorded gets lost; a parent without a recorded obstacle becomes fully expanded, and a fully expanded one has had all its batches applied |
| RollingWindows.ExpandLayer | phasebatch/optimizer.py:985-1208 | all states of the layer have been expanded, each state found is expanded or in the next layer, which holds children of this layer only; no state is expanded twice where the search progresses |
| RollingWindows.ExpandWindow | phasebatch/optimizer.py:954-1208 | the same for all layers of a window, with its boundary; a boundary is left only if there are more states than the window has layers |
| RollingWindows.SplitBoundary | phasebatch/optimizer.py:1242-1260 | exactly the boundary states that are neither quiet nor expanded stay open |
| RollingWindows.Checkpoint | phasebatch/optimizer.py:1301-1320 | exactly min(width, open) open states become roots, one of least objective among them, as diverse as the width allows and otherwise of the greatest scores; all others are recorded as pruned |
| RollingSearch.WindowGrows | phasebatch/optimizer.py:987-992 | a committed window strictly enlarges the fully expanded set |
| RollingSearch.Finish | phasebatch/optimizer.py:1353-1384 | status and the global claim, and the state of least objective among the last roots and closed states, or among all states after a stop |
| RollingSearch.RunRolling | phasebatch/optimizer.py:915-1405 | a complete status means that every expanded state had complete evidence and all its batches applied, an incomplete one has a named cause and goes on if it may; the selected state has the least objective of its candidates; no state is lost in any result that was not broken off inside a window; the windows are bounded where the search progresses, under a window cap, and where the state cap is not above the window depth; on a restless world it does not end |
| RollingSearch.DiscoveredIsReachable | phasebatch/optimizer.py:1358-1373 | with the global claim, the recorded hashes are exactly those reachable from the root by executable batches |
| SearchWitnesses.SearchNeedNotEnd | phasebatch/optimizer.py:1052-1080 | for every accepted configuration outside those cases, a world of sound tools, every state of it analysed, on which the search is still going after any number of windows |
| PipelineMeaning.ExecutableMeansReorderable | phasebatch/optimizer.py:2322-2327 | an executed batch has only agreeing orders where it is executed |
| PipelineMeaning.AnyOrderInsideBatches | phasebatch/batcher.py:596-724 | shuffling the passes inside every batch of a path leads to an equivalent program |
| PipelineMeaning.ReportedPipelineIsReorderable | phasebatch/optimizer.py:3387-3391 | the reported pipeline and every such shuffle of it give equivalent programs |
| PipelineMeaning.CertifiedBatchesApply | phasebatch/optimizer.py:1065-1080 | with tools that always answer alike a certified batch applies exactly if it ends in time as one pipeline, and the search progresses exactly if all do or failures stop it |
| WorkerProtocol.NextKeeps | phasebatch/opt_worker.py:77-233 | every single step keeps the invariant: one living process, queues hold only their own process's output, ids are fresh, failed requests have dead processes |
| WorkerProtocol.RepliesCarryTheirId | phasebatch/opt_worker.py:115-153 | over every interleaving a returned reply carries its request's id and ids are never reused; after a request to a process failed, none is written to it, and whatever is returned was printed by a process started later |
| WorkerProtocol.RepliesComeFromTheirProcess | phasebatch/opt_worker.py:77-113 | it was printed by the process the request was written to, if nobody else starts the worker meanwhile or processes are honest |
| WorkerProtocol.ForeignStartCanMisdirect | phasebatch/opt_worker.py:115-130 | a concrete run of the class in which neither holds and another process's reply is returned |
| WorkerService.AnswerIsReturned | phasebatch/opt_worker.py:115-153 | a request written to a process that prints its answer returns that answer, in whatever order printing, reading and waiting happen |
| WorkerService.EveryRequestIsServed | phasebatch/opt_worker.py:77-153 | any number of requests to a process that answers are all answered by it, in order, under consecutive ids, with at most one start |
| WorkerPools.EveryRunIsValid | phasebatch/opt_worker.py:249-304 | over every run of checkouts, named checkouts, releases and close: no worker is held twice or listed twice, free and held are disjoint, and while open together all workers |
| WorkerPools.WaitingHasAReason | phasebatch/opt_worker.py:267-284 | an open pool refuses a named worker only if it is held, any worker only if all are; a closed pool hands out none and takes none back |
| WorkerPools.FreeWorkersTakeTurns | phasebatch/opt_worker.py:275-290 | over any calls for any worker and releases, the free workers are handed out in the order in which they became free |
| PooledUse.PooledRepliesComeFromTheirProcess | phasebatch/opt_worker.py:245-265 | over every run of any number of clients that use workers through checkouts: one holder per worker, no start during somebody's request, and every returned reply was printed by the process the request was written to |
| WorkerPools.WorkerPool.AcquireWorker | phasebatch/opt_worker.py:267-284 | the worker that has been free longest, or the named one; the others keep their turn |
| WorkerPools.WorkerPool.ReleaseWorker | phasebatch/opt_worker.py:286-290 | the worker is no longer held, and listed again, last, exactly while the pool is open |
| HandleConservation.ServeKeeps | worker/phasebatch_worker.cpp:318-371 | load, apply and retain add one reference, release takes one, nothing else changes a count; a release of a held handle is answered |
| HandleConservation.RequestKeeps | phasebatch/opt_worker.py:115-153 | every exchange keeps the balance of counts, uncovered claims and claims; references in transit survive only with their process; a release is refused only for an uncovered handle or by a new process |
| HandleConservation.RememberKeeps | phasebatch/opt_backend.py:463-512 | remembering a path keeps the balance; it leaves a claim uncovered exactly when a known entry's superfluous reference is given back to a new process, and from a covered state conservation is lost exactly then |
| HandleConservation.StampsTooLateMeansDead | phasebatch/opt_backend.py:477-487 | that situation in terms of what can be seen before the call: known entry, owned reference, dead process, a new one that starts and answers |
| HandleConservation.LoadInputKeeps | phasebatch/opt_backend.py:382-408 | loading an input, hit or miss, keeps the balance |
| HandleConservation.RememberMaterializedKeeps | phasebatch/opt_backend.py:428-461 | so does remembering an output, with rollback when it fails |
| HandleConservation.StepKeeps | phasebatch/opt_backend.py:138-356 | so does every backend operation |
| HandleConservation.EveryRunConserves | phasebatch/opt_backend.py:149-517 | over every run: paths cached once and within capacity, no future stamps; a live process never counts more than the entries and owning results claim, less by exactly what late stamps left uncovered, and equality holds exactly if nothing is uncovered; without silent deaths nothing ever is |
| HandleConservation.LoadedIsMostRecent | phasebatch/opt_backend.py:382-408 | a loaded input is the last, most recently used cache entry, under its current signature |
| HandleConservation.RecentLoadHits | phasebatch/opt_backend.py:382-393 | while the process lives, loading it again sends no request and returns the same handle |
| HandleConservation.OlderHoldNothing | phasebatch/opt_worker.py:77-113 | a new generation owes nothing to older entries and results |
| HandleConservation.ConservationCanFail | phasebatch/opt_backend.py:477-487 | for every capacity, a concrete run after which a current entry names a handle the live process does not know |
| HandleConservation.ConservationCanReturn | phasebatch/opt_backend.py:505-512 | with a cache of one entry, one more load in the same generation makes counts and claims equal again |
| HandleContents.StepMeans | phasebatch/opt_backend.py:138-356 | with an honest worker, every operation: a cached path keeps its module or is the input just read or the output just written; nothing but the output is written; a result handed out is the pipeline applied to the input or parent, and a materialised one is what its output is cached as |
| HandleContents.EveryEntryIsNamed | phasebatch/opt_backend.py:138-512 | over every run: what a path is cached as under a signature was read from it, or computed and written to it, under that signature; every result and every written module was computed by a command of the run |
| HandleContents.CacheIsInvisible | phasebatch/opt_backend.py:382-408 | if what is written reads back, then after any run every entry is what its file is read as, and a pipeline run on an input gives what a fresh load and the pipeline give |
| HandleContents.RememberNames | phasebatch/opt_backend.py:489-508 | remembering a path puts it last and drops only the oldest others, and only when the cache is full |
| HandleProgress.CalmStepSucceeds | phasebatch/opt_backend.py:138-356 | while nothing goes wrong outside and nothing is uncovered, a pipeline on a readable input or a live result hands out a result, a live result is written and cached, and can be given back |
| HandleProgress.CalmRunIsCovered | phasebatch/opt_backend.py:138-512 | after every calm run nothing is uncovered |
| WorkerShards.WorkerShard.RememberSignature | phasebatch/opt_backend.py:463-512 | does to the cache, the results and the process what `HandleModel.Remember` says |
| WorkerShards.WorkerShard.EvictOldest | phasebatch/opt_backend.py:505-508 | drops the oldest entries, as many as exceed the capacity |
| WorkerShards.WorkerShard.LoadPath | phasebatch/opt_backend.py:382-408 | does what `HandleModel.LoadInput` says |
| WorkerShards.WorkerShard.RunOptOnce | phasebatch/opt_backend.py:138-202 | does one `RunOpt` step, keeps the balance, and with an honest worker means it: the result is the pipeline applied to the input as read or as cached under its signature, and only the output is written and cached as that result |
| WorkerShards.WorkerShard.RunOptFromResult | phasebatch/opt_backend.py:235-332 | applies the pipeline to an owned handle of this process, with the same meaning; a stale parent loses its claim |
| WorkerShards.WorkerShard.MaterializeResult | phasebatch/opt_backend.py:204-233 | writes the module of the result and caches its path as that, with a reference of its own |
| WorkerShards.WorkerShard.ReleaseResult | phasebatch/opt_backend.py:334-356 | gives an owned reference back once; a stale result only loses its claim |
| QuoteScanners.RewriteUnquoted | phasebatch/ir_equivalence.py:309-333 | the pieces of the text joined again with the rewrite applied outside quotes |
| QuoteScanners.UnquotedText | phasebatch/ir_equivalence.py:336-358 | exactly the characters a left-to-right reading finds outside quotes |
| QuoteScanners.StripIrComment | phasebatch/ir_equivalence.py:290-306 | the text before the first semicolon outside quotes, all of it if there is none |
| QuoteScanners.BodyLengthMeans | phasebatch/ir_equivalence.py:318-330 | a quoted string ends with its first quotation mark that no backslash escapes, or with the text |
| QuoteScanners.ScannersAgree | phasebatch/ir_equivalence.py:290-358 | segment scanners and comment scanner agree on every single character, for every text |
| QuoteScanners.IdentityRewriting | phasebatch/ir_equivalence.py:309-333 | rewriting nothing changes nothing |
| QuoteScanners.RewritingKeepsQuotes | phasebatch/ir_equivalence.py:309-333 | scanning a text again after a rewrite that brings in no quotation mark finds the same quoted strings in the same order |
| QuoteScanners.RewritingKeepsQuotesExactly | phasebatch/ir_equivalence.py:309-333 | for such rewrites that holds exactly when the text does not end inside a string or nothing is written for an empty segment |

## Left out

- LLVM, `opt`, `llvm-diff`, hashing and IR parsing: a `Toolchain` value with named hypotheses. Tools are deterministic, so failures that come and go are not modelled, except that in a `World` a batch applied as one pipeline may not end in time although its passes run (`completes`).
- Pipelines of a pass: the memo key and the pass registry's pipeline text are functions of the pass name here.
- Digests a worker reports and digests of text files are one digest; runs that mix both kinds are not modelled.
- Threads inside a DAG layer and between validation orders: outcomes are collected in specification order in the source too.
- Files, CSV and Markdown rows, costs, timings, reason texts, leaf reasons, window and event rows: results carry what decisions depend on.
- `classify_batch_correctness` joins rows of two files by batch id; only the decision on one row is modelled.
- Pair relations and profiling: their outcome is a parameter of `AnalyseState`, with one flag for incomplete relations. Which passes are active (`phasebatch/profiler.py:102`, `phasebatch/batcher.py:269-274`) is `ActiveIn` where a true account of a state is asked for (`Genuine`), by the one digest of the model. Validation of a selection of candidates (`_validate_batch_candidates_on_demand`) belongs to the budgeted mode. The shuffles of the sampled tier are a parameter.
- Frontier scores are real numbers from an arbitrary function; their weights promise nothing.
- Budgeted mode, `batch_explorer`, `explorer` and the other copies of connected components repeat these algorithms with weaker claims.
- The order in which open states are listed at a checkpoint does not matter to the model: rows and roots are sorted again. The final sort of components is proved to change nothing.
- State ids use the letter N in the text order; the order is the same for S.
- Record: relaxing a path in a rolling search is claimed to keep links sound, not to find least paths; the source does not promise that there.
- RunRolling: the search is watched for a number of windows, since Dafny accepts no endless loop; that the outcome is None means it is still going.
- FirstFinalIsCanonical: with 10000 or more nodes before the last depth the counts do not decide which final node is first; nothing is claimed there.
- StolenTransition: with failing tools, tight budgets or more than six passes it says nothing about runs that stop early or have more than 10000 nodes, where the two programs need not both be reached.
- Handles: the id line of a module, which a file read back under its own path replaces, does not tell modules apart here; `ReadsBack` is about the rest. A file that changes between its signature and its load is excluded by `Honest`.
- What a request has written counts as written when it is answered; a request lost after writing is not recorded as such.
- EveryRunConserves: an interrupt raised inside an operation, and a file that is missing although the worker reported writing it, are not modelled; both would leave a reference behind.
- `run_opt` retries once after a silent failure; a run that contains the operation twice stands for it. A borrowed parent of `run_opt_from_result` is a `RunOpt` of its path.
- Handed-out results live in a list of the shard and are named by position, not by object identity.
- PooledUse: a client is one `with` block of a checkout, whose thread makes one call at a time.
- The pool's waiting and deadlines: a call that would wait says so and may be made again. `WorkerPool.close` also closes every worker, which is the `Close` step of the process.
- Stderr collection, statistics, restart diagnostics of `WorkerProcess`.
- JSON: a line is malformed or has an optional id; Python's `True == 1` is not told apart.
- `safe_canonical_text`, debug metadata patterns and fingerprints: only the scanners they share.
