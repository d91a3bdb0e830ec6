/** `_validate_one_batch`: the ladder that picks how a batch is validated, runs
    the orders, and writes the row the classifier reads. */
module BatchValidation {
  import opened Basics
  import opened Toolchains
  import opened ValidationRuntimes
  import opened InsertionOrders
  import opened BatchCorrectness
  import opened DagEvidence
  import opened DagMemory
  import opened DagSequences
  import D = PermutationDags

  datatype Mode = Auto | ExhaustiveMode | DagMode | BoundedMode | SampledMode | OtherMode

  datatype IncompleteReason =
    | NoReason | MissingInputOrTool | CanonicalOrderFailed | FactorialExceedsLimit
    | DagNotDispatched | DagStopped | CoversOnlySomeOrders

  datatype ValidationRow = ValidationRow(
    mode: Mode, tier: Tier, status: Status, complete: bool, hardCertificate: bool, reason: IncompleteReason,
    testedOrders: nat, differentCount: nat, firstMismatchOrder: Option<seq<Pass>>, dagBudgetExceeded: bool)

  datatype Plan = Plan(
    tier: Tier, orders: seq<seq<Pass>>, complete: bool, hardCertificate: bool, reason: IncompleteReason)

  // ----------------------------------------------------------- permutations

  function Factorial(n: nat): nat {
    if n == 0 then 1 else n * Factorial(n - 1)
  }

  function Without<T>(s: seq<T>, i: nat): seq<T>
    requires i < |s|
  {
    s[..i] + s[i + 1..]
  }

  function Prefixed<T>(x: T, tails: seq<seq<T>>): seq<seq<T>> {
    if tails == [] then [] else Prefixed(x, tails[..|tails| - 1]) + [[x] + tails[|tails| - 1]]
  }

  /** `itertools.permutations`. */
  function Permutations<T>(s: seq<T>): seq<seq<T>>
    decreases |s|, 1, 0
  {
    if s == [] then [[]] else PermutationsFrom(s, 0)
  }

  /** The permutations whose first element is taken at position `i` or later. */
  function PermutationsFrom<T>(s: seq<T>, i: nat): seq<seq<T>>
    requires i <= |s|
    decreases |s|, 0, |s| - i
  {
    if i == |s| then []
    else Prefixed(s[i], Permutations(Without(s, i))) + PermutationsFrom(s, i + 1)
  }

  lemma {:induction false} PrefixedContents<T>(x: T, tails: seq<seq<T>>, o: seq<T>)
    ensures o in Prefixed(x, tails) <==> |o| > 0 && o[0] == x && o[1..] in tails
    ensures |Prefixed(x, tails)| == |tails|
  {
    if tails != [] {
      var init, last := tails[..|tails| - 1], tails[|tails| - 1];
      PrefixedContents(x, init, o);
      assert tails == init + [last];
      assert ([x] + last)[1..] == last;
      assert o == [x] + last <==> |o| > 0 && o[0] == x && o[1..] == last;
    }
  }

  lemma {:induction false} PermutationsContents<T>(s: seq<T>, o: seq<T>)
    requires Distinct(s)
    ensures o in Permutations(s) <==> Arranges(o, s)
    decreases |s|, 1, 0
  {
    if s == [] {
      if Arranges(o, s) { DistinctSize(o); DistinctSize(s); }
    } else {
      PermutationsFromContents(s, 0, o);
      if Arranges(o, s) {
        ArrangesSize(o, s);
        assert o[0] in ToSet(o);
        assert s[0] in ToSet(s);
      }
    }
  }

  lemma {:induction false} PermutationsFromContents<T>(s: seq<T>, i: nat, o: seq<T>)
    requires Distinct(s) && i <= |s| && |s| > 0
    ensures o in PermutationsFrom(s, i) <==> Arranges(o, s) && |o| > 0 && o[0] in s[i..]
    decreases |s|, 0, |s| - i
  {
    if i < |s| {
      var rest := Without(s, i);
      WithoutContents(s, i);
      PrefixedContents(s[i], Permutations(rest), o);
      if |o| > 0 {
        PermutationsContents(rest, o[1..]);
        if o[0] == s[i] { HeadAndTail(s, i, o); }
      } else {
        PermutationsContents(rest, o);
      }
      PermutationsFromContents(s, i + 1, o);
      assert s[i..] == [s[i]] + s[i + 1..];
    }
  }

  lemma {:induction false} PermutationsSize<T>(s: seq<T>)
    ensures |Permutations(s)| == Factorial(|s|)
    decreases |s|, 1, 0
  {
    if s != [] {
      PermutationsFromSize(s, 0);
    }
  }

  lemma {:induction false} PermutationsFromSize<T>(s: seq<T>, i: nat)
    requires i <= |s| && |s| > 0
    ensures |PermutationsFrom(s, i)| == (|s| - i) * Factorial(|s| - 1)
    decreases |s|, 0, |s| - i
  {
    hide Factorial;
    if i < |s| {
      PrefixedContents(s[i], Permutations(Without(s, i)), []);
      PermutationsSize(Without(s, i));
      PermutationsFromSize(s, i + 1);
      OneMore(|s| - i - 1, Factorial(|s| - 1));
    }
  }

  /** Each of them once. */
  lemma {:induction false} PermutationsDistinct<T>(s: seq<T>)
    requires Distinct(s)
    ensures Distinct(Permutations(s))
    decreases |s|, 1, 0
  {
    if s != [] {
      PermutationsFromDistinct(s, 0);
    }
  }

  lemma {:induction false} PermutationsFromDistinct<T>(s: seq<T>, i: nat)
    requires Distinct(s) && i <= |s| && |s| > 0
    ensures Distinct(PermutationsFrom(s, i))
    decreases |s|, 0, |s| - i
  {
    hide Distinct, Permutations, Prefixed;
    if i == |s| {
      EmptyDistinct<seq<T>>();
    } else {
      var first, later := Prefixed(s[i], Permutations(Without(s, i))), PermutationsFrom(s, i + 1);
      WithoutContents(s, i);
      PermutationsDistinct(Without(s, i));
      PrefixedDistinct(s[i], Permutations(Without(s, i)));
      PermutationsFromDistinct(s, i + 1);
      forall o | o in first ensures o !in later {
        PrefixedContents(s[i], Permutations(Without(s, i)), o);
        PermutationsFromContents(s, i + 1, o);
        NotLater(s, i);
      }
      DistinctConcat(first, later);
    }
  }

  lemma NotLater<T>(s: seq<T>, i: nat)
    requires Distinct(s) && i < |s|
    ensures s[i] !in s[i + 1..]
  {
  }

  lemma {:induction false} PrefixedDistinct<T>(x: T, tails: seq<seq<T>>)
    requires Distinct(tails)
    ensures Distinct(Prefixed(x, tails))
  {
    if tails != [] {
      var init, last := tails[..|tails| - 1], tails[|tails| - 1];
      DistinctLast(tails);
      PrefixedDistinct(x, init);
      PrefixedContents(x, init, [x] + last);
      assert ([x] + last)[1..] == last;
      AppendDistinct(Prefixed(x, init), [x] + last);
    }
  }

  lemma WithoutContents<T>(s: seq<T>, i: nat)
    requires Distinct(s) && i < |s|
    ensures Distinct(Without(s, i)) && ToSet(Without(s, i)) == ToSet(s) - {s[i]}
    ensures |Without(s, i)| == |s| - 1
  {
    var rest := Without(s, i);
    forall x ensures x in rest <==> x in s && x != s[i] {
      if x in s && x != s[i] {
        var k :| 0 <= k < |s| && s[k] == x;
        assert x == rest[if k < i then k else k - 1];
      }
      if x in rest {
        var k :| 0 <= k < |rest| && rest[k] == x;
        assert x == s[if k < i then k else k + 1];
      }
    }
  }

  lemma HeadAndTail<T>(s: seq<T>, i: nat, o: seq<T>)
    requires Distinct(s) && i < |s| && |o| > 0 && o[0] == s[i]
    ensures Arranges(o, s) <==> Arranges(o[1..], Without(s, i))
  {
    WithoutContents(s, i);
    var tail := o[1..];
    assert o == [o[0]] + tail;
    forall x ensures x in o <==> x == o[0] || x in tail {}
    if Arranges(o, s) {
      forall k | 0 <= k < |tail| ensures tail[k] != o[0] { assert o[k + 1] != o[0]; }
      forall a, b | 0 <= a < b < |tail| ensures tail[a] != tail[b] { assert o[a + 1] != o[b + 1]; }
      assert ToSet(tail) == ToSet(s) - {s[i]};
    }
    if Arranges(tail, Without(s, i)) {
      assert o[0] !in ToSet(tail);
      forall a, b | 0 <= a < b < |o| ensures o[a] != o[b] {
        assert o[b] == tail[b - 1];
        if a > 0 { assert o[a] == tail[a - 1]; }
      }
      assert s[i] in ToSet(s);
      forall x ensures x in ToSet(o) <==> x in ToSet(s) {
        assert x in ToSet(tail) <==> x in ToSet(s) - {s[i]};
      }
    }
  }

  // ------------------------------------------------------------ running orders

  /** Every remembered single-pass output is what the pass makes of the input. */
  ghost predicate ProfileExact(tc: Toolchain, input: Ir, profile: map<Pass, Ir>) {
    forall p :: p in profile ==> tc.apply(p, input) == Some(profile[p])
  }

  /** `_run_validation_pipeline`: start from a profiled first pass when allowed. */
  function RunPipeline(tc: Toolchain, input: Ir, order: seq<Pass>, profile: map<Pass, Ir>, reuse: bool): Option<Ir> {
    if reuse && order != [] && order[0] in profile
    then tc.Replay(order[1..], profile[order[0]])
    else tc.Replay(order, input)
  }

  /** Reusing the profile changes no order's output. */
  lemma ProfileReuseIsInvisible(tc: Toolchain, input: Ir, order: seq<Pass>, profile: map<Pass, Ir>, reuse: bool)
    requires ProfileExact(tc, input, profile)
    ensures RunPipeline(tc, input, order, profile, reuse) == tc.Replay(order, input)
  {
    if reuse && order != [] && order[0] in profile {
      assert order == [order[0]] + order[1..];
      tc.ReplayConcat([order[0]], order[1..], input);
      assert [] + [order[0]] == [order[0]];
      tc.ReplayAppend([], order[0], input);
    }
  }

  /** `_compare_validation_results`: equal digests fold without a comparison. */
  function CompareResults(tc: Toolchain, canonical: Ir, candidate: Ir): Verdict {
    if tc.digest(canonical) == tc.digest(candidate) then Foldable else tc.compare(canonical, candidate)
  }

  lemma CompareResultsDecides(tc: Toolchain, a: Ir, b: Ir)
    requires tc.Sound() && CompareResults(tc, a, b) != CompareFailed
    ensures CompareResults(tc, a, b) == Foldable <==> tc.Equivalent(a, b)
  {
    if tc.digest(a) == tc.digest(b) {
      assert tc.Equivalent(a, b);
    }
  }

  // --------------------------------------------------------------- the plan

  predicate ShouldUseDag(mode: Mode, size: nat, maxPermutationFactorial: int) {
    if mode == DagMode then true
    else if mode != Auto then false
    else Factorial(size) > maxPermutationFactorial
  }

  function MaxInt(a: int, b: int): int {
    if a > b then a else b
  }

  /** The orders were drawn, and fewer than asked for only if no attempt brought another. */
  ghost predicate DrawnFrom(draws: seq<seq<Pass>>, canonical: seq<Pass>, samples: int, orders: seq<seq<Pass>>)
    requires |draws| >= MaxInt(samples * 20, 100)
  {
    && (forall o :: o in orders ==> o in draws)
    && (|orders| < samples ==>
          forall k :: 0 <= k < MaxInt(samples * 20, 100) ==> draws[k] == canonical || draws[k] in orders)
  }

  /** `_sampled_orders`: `draws` are the shuffles the seeded generator yields. */
  method SampledOrders(canonical: seq<Pass>, samples: int, draws: seq<seq<Pass>>) returns (orders: seq<seq<Pass>>)
    requires |draws| >= MaxInt(samples * 20, 100) && forall d :: d in draws ==> Arranges(d, canonical)
    ensures Distinct(orders) && |orders| <= MaxInt(samples, 0)
    ensures forall o :: o in orders ==> Arranges(o, canonical) && o != canonical
    // as many as asked for, unless the draws bring nothing else
    ensures DrawnFrom(draws, canonical, samples, orders)
  {
    orders := [];
    if samples <= 0 {
      return;
    }
    var seen := {canonical};
    var attempts := 0;
    while |orders| < samples && attempts < MaxInt(samples * 20, 100)
      invariant 0 <= attempts && |orders| <= samples && seen == {canonical} + ToSet(orders)
      invariant Distinct(orders)
      invariant forall o :: o in orders ==> Arranges(o, canonical) && o != canonical && o in draws
      invariant attempts <= MaxInt(samples * 20, 100)
      invariant forall k :: 0 <= k < attempts ==> draws[k] == canonical || draws[k] in orders
      decreases MaxInt(samples * 20, 100) - attempts
    {
      var order := draws[attempts];
      assert order in draws;
      attempts := attempts + 1;
      if order in seen {
        assert order == canonical || order in ToSet(orders);
        continue;
      }
      seen := seen + {order};
      ToSetAppend(orders, order);
      assert order !in orders by { assert order !in ToSet(orders); }
      orders := orders + [order];
    }
  }

  lemma AllButCanonical(canonical: seq<Pass>, orders: seq<seq<Pass>>)
    requires Distinct(canonical) && (Distinct(Permutations(canonical)) ==> Distinct(orders))
    requires forall o :: o in orders <==> o in Permutations(canonical) && o != canonical
    ensures Distinct(orders) && |orders| == Factorial(|canonical|) - 1
  {
    hide Permutations;
    PermutationsDistinct(canonical);
    PermutationsSize(canonical);
    PermutationsContents(canonical, canonical);
    DistinctSize(orders);
    DistinctSize(Permutations(canonical));
    assert ToSet(orders) == ToSet(Permutations(canonical)) - {canonical};
  }

  lemma DistinctNext<T>(s: seq<T>, i: nat)
    requires Distinct(s) && i < |s|
    ensures s[i] !in s[..i]
  {
  }

  method WithoutCanonical(all: seq<seq<Pass>>, canonical: seq<Pass>) returns (orders: seq<seq<Pass>>)
    ensures forall o :: o in orders <==> o in all && o != canonical
    ensures Distinct(all) ==> Distinct(orders)
  {
    orders := [];
    for i := 0 to |all|
      invariant forall o :: o in orders <==> o in all[..i] && o != canonical
      invariant Distinct(all) ==> Distinct(orders)
    {
      assert all[..i + 1] == all[..i] + [all[i]];
      if all[i] != canonical {
        if Distinct(all) {
          DistinctNext(all, i);
          AppendDistinct(orders, all[i]);
        }
        orders := orders + [all[i]];
      }
    }
    assert all[..|all|] == all;
  }

  /** The mode a plan names: an unknown one counts as automatic. */
  function PlannedMode(mode: Mode): Mode {
    if mode == OtherMode then Auto else mode
  }

  /** `_validation_plan`. Only an exhaustive plan may lead to a certificate, and
      it tests every order other than the canonical one. */
  method ValidationPlan(
    canonical: seq<Pass>, mode: Mode, maxPermutationFactorial: int, maxValidationSequences: int, samples: int,
    draws: seq<seq<Pass>>) returns (plan: Plan)
    requires Distinct(canonical)
    requires forall d :: d in draws ==> Arranges(d, canonical)
    requires |draws| >= MaxInt(samples * 20, 100)
    ensures Distinct(plan.orders) && forall o :: o in plan.orders ==> Arranges(o, canonical) && o != canonical
    ensures plan.tier in {Unvalidated, ExhaustiveAllPermutations, BoundedInsertion, SampledPermutations}
    ensures plan.hardCertificate <==> plan.tier == ExhaustiveAllPermutations
    ensures plan.complete <==> plan.hardCertificate
    ensures plan.reason == match plan.tier {
                             case ExhaustiveAllPermutations => NoReason
                             case Unvalidated => if mode == DagMode then DagNotDispatched else FactorialExceedsLimit
                             case _ => CoversOnlySomeOrders
                           }
    ensures plan.hardCertificate ==>
              && (forall o :: Arranges(o, canonical) && o != canonical ==> o in plan.orders)
              && |plan.orders| == Factorial(|canonical|) - 1
    ensures plan.tier == BoundedInsertion && canonical != [] ==>
              && |plan.orders| == Min(MaxInt(0, maxValidationSequences - 1), (|canonical| - 1) * (|canonical| - 1))
              && (maxValidationSequences > (|canonical| - 1) * (|canonical| - 1) ==>
                    ListsEveryMove(canonical, plan.orders))
    ensures plan.tier == SampledPermutations ==>
              var wanted := MaxInt(0, Min(samples, maxValidationSequences - 1));
              && |draws| >= MaxInt(wanted * 20, 100) && DrawnFrom(draws, canonical, wanted, plan.orders)
              && |plan.orders| <= wanted
    ensures mode == BoundedMode ==> plan.tier == BoundedInsertion
    ensures mode == SampledMode ==> plan.tier == SampledPermutations
    ensures mode in {Auto, OtherMode} ==>
              plan.tier == if Factorial(|canonical|) <= maxPermutationFactorial then ExhaustiveAllPermutations
                else BoundedInsertion
    ensures mode == ExhaustiveMode ==>
              plan.tier == if Factorial(|canonical|) <= maxPermutationFactorial then ExhaustiveAllPermutations
                else Unvalidated
  {
    var count := Factorial(|canonical|);
    var selected := mode;
    if mode in {Auto, OtherMode} {
      selected := if count <= maxPermutationFactorial then ExhaustiveMode else BoundedMode;
    }
    if selected == ExhaustiveMode {
      if count > maxPermutationFactorial {
        return Plan(Unvalidated, [], false, false, FactorialExceedsLimit);
      }
      var orders := WithoutCanonical(Permutations(canonical), canonical);
      forall o ensures o in orders <==> Arranges(o, canonical) && o != canonical {
        PermutationsContents(canonical, o);
      }
      AllButCanonical(canonical, orders);
      return Plan(ExhaustiveAllPermutations, orders, true, true, NoReason);
    }
    if selected == BoundedMode {
      var orders, moves, next := BoundedInsertionOrders(canonical, MaxInt(0, maxValidationSequences - 1));
      return Plan(BoundedInsertion, orders, false, false, CoversOnlySomeOrders);
    }
    if selected == DagMode {
      return Plan(Unvalidated, [], false, false, DagNotDispatched);
    }
    var wanted := MaxInt(0, Min(samples, maxValidationSequences - 1));
    var orders := SampledOrders(canonical, wanted, draws);
    plan := Plan(SampledPermutations, orders, false, false, CoversOnlySomeOrders);
  }

  // --------------------------------------------------------- one batch's row

  /** A row before anything ran, which claims nothing. */
  function BaseRow(mode: Mode, reason: IncompleteReason): (row: ValidationRow)
    ensures forall tc, input, passes :: RowIsHonest(tc, input, passes, row)
  {
    ValidationRow(mode, Unvalidated, NotValidated, false, false, reason, 0, 0, None, false)
  }

  function DagToRow(mode: Mode, row: D.DagRow): ValidationRow {
    ValidationRow(
      mode,
      match row.status
        case AllPermutationsSame => PermutationDagExact
        case Mismatch => PermutationDagMismatch
        case Failed => FailedTier
        case Incomplete => PermutationDagIncomplete,
      match row.status
        case AllPermutationsSame => Status.AllPermutationsSame
        case Mismatch => Status.Mismatch
        case Failed => Status.Failed
        case Incomplete => Status.Incomplete,
      row.complete, row.hardCertificate,
      if row.status == D.DagStatus.Incomplete then DagStopped else NoReason,
      row.cacheMisses,
      if row.status == D.DagStatus.Mismatch && |row.finals| > 1 then |row.finals| - 1 else 0,
      row.firstMismatchOrder, row.budgetExceeded)
  }

  /** What a row may claim about the batch: a certificate is the factorial
      statement, a mismatch is its refutation. */
  ghost predicate RowIsHonest(tc: Toolchain, input: Ir, passes: seq<Pass>, row: ValidationRow) {
    && (ClassifyValidationStatus(row.status, row.tier, row.hardCertificate, true, true).canHardFold ==>
          tc.AllOrdersEquivalent(input, passes))
    && (row.status == Status.Mismatch ==> !tc.AllOrdersEquivalent(input, passes))
  }

  /** A row after the canonical order alone, which claims nothing. */
  function UndecidedRow(mode: Mode, tier: Tier, status: Status, complete: bool, reason: IncompleteReason,
                        exceeded: bool)
    : (row: ValidationRow)
    requires status in {Status.Failed, NotValidated}
    ensures forall tc, input, passes :: RowIsHonest(tc, input, passes, row)
  {
    ValidationRow(mode, tier, status, complete, false, reason, 1, 0, None, exceeded)
  }

  /** The order named by a mismatch is one whose outcome is not the canonical one. */
  ghost predicate NamesMismatch(tc: Toolchain, input: Ir, passes: seq<Pass>, row: ValidationRow) {
    && row.firstMismatchOrder.Some? && Arranges(row.firstMismatchOrder.value, passes) && row.differentCount > 0
    && !tc.SameOutcome(tc.Replay(passes, input), tc.Replay(row.firstMismatchOrder.value, input))
  }

  /** The permutation DAG of the batch, as a validation row. */
  method ValidateByDag(tc: Toolchain, runtime: ValidationRuntime, input: Ir, passes: seq<Pass>, mode: Mode,
                       maxNodes: int, maxEdges: int) returns (row: ValidationRow)
    requires Distinct(passes) && runtime.Faithful(tc)
    modifies runtime
    ensures runtime.Faithful(tc) && row.mode == mode
    ensures tc.Sound() ==> RowIsHonest(tc, input, passes, row)
    ensures row.hardCertificate ==> row.complete && row.tier == PermutationDagExact
    ensures row.status == Status.AllPermutationsSame <==> row.hardCertificate
    ensures forall universe :: ToSet(passes) <= universe && DigestsDecide(tc, input, universe)
                               && FromReplays(tc, input, universe, old(runtime.transitions)) ==>
              FromReplays(tc, input, universe, runtime.transitions)
    ensures row.tier in {PermutationDagExact, PermutationDagMismatch, PermutationDagIncomplete, FailedTier}
    ensures row.status in {Status.AllPermutationsSame, Status.Mismatch, Status.Failed, Status.Incomplete}
    ensures row.status == Status.Failed ==> !tc.NeverFails()
    ensures row.dagBudgetExceeded <==> row.status == Status.Incomplete
    ensures row.tier == PermutationDagIncomplete <==> row.status == Status.Incomplete
    ensures row.tier == PermutationDagMismatch <==> row.status == Status.Mismatch
    ensures tc.NeverFails() && Suffices(|passes|, maxNodes, maxEdges) ==>
              && row.status in {Status.AllPermutationsSame, Status.Mismatch}
              && row.tier in {PermutationDagExact, PermutationDagMismatch}
    ensures tc.Sound() && row.status == Status.Mismatch && maxNodes <= 10000 ==> NamesMismatch(tc, input, passes, row)
    // only transitions that were not remembered count as tested
    ensures row.tier in {PermutationDagExact, PermutationDagMismatch} ==>
              row.testedOrders == |runtime.transitions| - |old(runtime.transitions)|
  {
    hide Grown, Apart, CompleteEvidence, Recorded, Stocked, DigestsDecide, FromReplays, NodesReplayExactly, Finals,
         ByName, D.Work, Suffices, RowIsHonest, NamesMismatch, DagToRow, Arranges;
    var dag := new D.PermutationDag(tc, runtime, input, passes, maxNodes, maxEdges);
    var dagRow := dag.Validate();
    if tc.NeverFails() && Suffices(|passes|, maxNodes, maxEdges) {
      LargeBudgetsComplete(tc, input, passes, dag.nodes, dag.stock, runtime.transitions, dagRow, maxNodes, maxEdges);
    }
    row := DagToRow(mode, dagRow);
    DagRowFields(mode, dagRow);
    if tc.Sound() {
      DagRowTells(tc, input, passes, mode, dagRow);
    }
  }

  lemma DagRowFields(mode: Mode, dagRow: D.DagRow)
    ensures var row := DagToRow(mode, dagRow);
            && row.mode == mode && row.complete == dagRow.complete && row.hardCertificate == dagRow.hardCertificate
            && row.testedOrders == dagRow.cacheMisses && row.dagBudgetExceeded == dagRow.budgetExceeded
            && row.firstMismatchOrder == dagRow.firstMismatchOrder
            && (row.tier, row.status) ==
               match dagRow.status {
                 case AllPermutationsSame => (PermutationDagExact, Status.AllPermutationsSame)
                 case Mismatch => (PermutationDagMismatch, Status.Mismatch)
                 case Failed => (FailedTier, Status.Failed)
                 case Incomplete => (PermutationDagIncomplete, Status.Incomplete)
               }
  {
  }

  lemma DagRowTells(tc: Toolchain, input: Ir, passes: seq<Pass>, mode: Mode, dagRow: D.DagRow)
    requires dagRow.hardCertificate <==> dagRow.status == D.DagStatus.AllPermutationsSame
    requires dagRow.status in {D.DagStatus.AllPermutationsSame, D.DagStatus.Mismatch} ==>
               (dagRow.hardCertificate <==> tc.AllOrdersEquivalent(input, passes))
    requires dagRow.status == D.DagStatus.Mismatch ==>
               && |dagRow.finals| > 1 && dagRow.firstMismatchOrder == Some(dagRow.finals[1].path)
               && Arranges(dagRow.finals[1].path, passes)
               && !tc.SameOutcome(tc.Replay(dagRow.finals[0].path, input), tc.Replay(dagRow.finals[1].path, input))
    ensures RowIsHonest(tc, input, passes, DagToRow(mode, dagRow))
    ensures dagRow.status == D.DagStatus.Mismatch && dagRow.finals[0].path == passes ==>
              NamesMismatch(tc, input, passes, DagToRow(mode, dagRow))
  {
  }

  /** What the class of a row means, in terms of the outcomes of orders. */
  ghost predicate ClassMeans(tc: Toolchain, input: Ir, passes: seq<Pass>, tested: seq<seq<Pass>>, row: ValidationRow) {
    match ClassifyValidationStatus(row.status, row.tier, row.hardCertificate, false, false).class_
    case CertifiedBatch => tc.AllOrdersEquivalent(input, passes)
    case RejectedBatch => !tc.AllOrdersEquivalent(input, passes)
    case FailedBatch => !tc.NeverFails()
    case BoundedBatch =>
      row.tier == BoundedInsertion
      && forall o :: o in tested ==> tc.SameOutcome(tc.Replay(passes, input), tc.Replay(o, input))
    case SampledBatch =>
      row.tier == SampledPermutations
      && forall o :: o in tested ==> tc.SameOutcome(tc.Replay(passes, input), tc.Replay(o, input))
    case UnvalidatedBatch => row.tier in {Unvalidated, PermutationDagIncomplete}
    case UnknownBatch => false
  }

  lemma ClassTells(tc: Toolchain, input: Ir, passes: seq<Pass>, tested: seq<seq<Pass>>, row: ValidationRow)
    requires RowIsHonest(tc, input, passes, row) && (row.status == Status.Failed ==> !tc.NeverFails())
    requires row.status == Status.AllPermutationsSame ==> row.hardCertificate
    requires row.status == BoundedSame ==> row.tier == BoundedInsertion
    requires row.status == SampledSame ==> row.tier == SampledPermutations
    requires row.status in {BoundedSame, SampledSame} ==> RowTells(tc, input, passes, tested, row)
    requires row.status in {Status.Incomplete, NotValidated} ==> row.tier in {Unvalidated, PermutationDagIncomplete}
    requires row.status != UnknownStatus
    ensures ClassMeans(tc, input, passes, tested, row)
  {
  }

  /** The canonical order, and the orders of a plan compared with it. */
  method ValidateByPlan(
    tc: Toolchain, input: Ir, passes: seq<Pass>, profile: map<Pass, Ir>, mode: Mode, effective: Mode,
    maxPermutationFactorial: int, maxValidationSequences: int, samples: int, draws: seq<seq<Pass>>, exceeded: bool)
    returns (row: ValidationRow, ghost tested: seq<seq<Pass>>)
    requires Distinct(passes) && passes != [] && ProfileExact(tc, input, profile)
    requires forall d :: d in draws ==> Arranges(d, passes)
    requires |draws| >= MaxInt(samples * 20, 100)
    ensures row.tier in {Unvalidated, ExhaustiveAllPermutations, BoundedInsertion, SampledPermutations, FailedTier}
    ensures row.status in {Status.AllPermutationsSame, BoundedSame, SampledSame, Status.Mismatch, Status.Failed,
                           NotValidated}
    ensures row.dagBudgetExceeded == exceeded
    ensures row.mode == if row.tier == FailedTier then mode else PlannedMode(effective)
    ensures row.hardCertificate ==> row.complete && row.tier == ExhaustiveAllPermutations
    ensures row.status == Status.AllPermutationsSame <==> row.hardCertificate
    ensures row.status == BoundedSame ==> row.tier == BoundedInsertion
    ensures row.status == SampledSame ==> row.tier == SampledPermutations
    ensures row.status == Status.Mismatch ==> row.tier != FailedTier
    ensures row.status == NotValidated <==> row.tier == Unvalidated
    ensures row.status == Status.Failed ==> !tc.NeverFails()
    ensures row.tier in {BoundedInsertion, SampledPermutations} ==> !row.complete
    ensures effective == BoundedMode ==> row.tier in {BoundedInsertion, FailedTier}
    ensures effective == SampledMode ==> row.tier in {SampledPermutations, FailedTier}
    ensures effective in {Auto, OtherMode, ExhaustiveMode} && Factorial(|passes|) <= maxPermutationFactorial ==>
              row.tier in {ExhaustiveAllPermutations, FailedTier}
    ensures effective == OtherMode && Factorial(|passes|) > maxPermutationFactorial ==>
              row.tier in {BoundedInsertion, FailedTier}
    ensures effective == ExhaustiveMode && Factorial(|passes|) > maxPermutationFactorial ==>
              row.tier in {Unvalidated, FailedTier}
    ensures row.tier in {ExhaustiveAllPermutations, BoundedInsertion, SampledPermutations} ==>
              && Distinct(tested) && (forall o :: o in tested ==> Arranges(o, passes) && o != passes)
              && row.testedOrders == 1 + |tested|
              && (tc.Sound() ==> RowTells(tc, input, passes, tested, row))
              && (row.tier == ExhaustiveAllPermutations ==> row.testedOrders == Factorial(|passes|))
              && (row.tier == BoundedInsertion && maxValidationSequences > (|passes| - 1) * (|passes| - 1) ==>
                    ListsEveryMove(passes, tested))
    ensures tc.Sound() ==> RowIsHonest(tc, input, passes, row) && ClassMeans(tc, input, passes, tested, row)
    ensures tc.Sound() && row.status == Status.Mismatch ==> NamesMismatch(tc, input, passes, row)
    ensures tc.Sound() && row.tier == ExhaustiveAllPermutations && row.status != Status.Failed ==>
              (row.hardCertificate <==> tc.AllOrdersEquivalent(input, passes))
  {
    hide Permutations, RowIsHonest, RowTells, OrderVerdict, AllFold, SomeFails, Differing, DrawnFrom, ListsEveryMove,
         Factorial, ClassMeans, NamesMismatch;
    tested := [];
    var canonical := RunPipeline(tc, input, passes, profile, false);
    if canonical.None? {
      ProfileReuseIsInvisible(tc, input, passes, profile, false);
      if tc.NeverFails() { tc.ReplayNeverFails(passes, input); }
      row := UndecidedRow(mode, FailedTier, Status.Failed, false, CanonicalOrderFailed, exceeded);
      ClassTells(tc, input, passes, tested, row);
      return;
    }
    var plan := ValidationPlan(passes, effective, maxPermutationFactorial, maxValidationSequences, samples, draws);
    if plan.tier == Unvalidated {
      row := UndecidedRow(PlannedMode(effective), Unvalidated, NotValidated, plan.complete, plan.reason, exceeded);
      ClassTells(tc, input, passes, tested, row);
      return;
    }
    ProfileReuseIsInvisible(tc, input, passes, profile, false);
    row := CompareOrders(tc, input, passes, profile, canonical.value, plan, PlannedMode(effective));
    tested := plan.orders;
    if tc.Sound() {
      RowDecides(tc, input, passes, row);
      ClassTells(tc, input, passes, tested, row);
      PlanNamesMismatch(tc, input, passes, canonical.value, tested, row);
    }
    FlagIsNoClaim(tc, input, passes, row, exceeded);
    row := row.(dagBudgetExceeded := exceeded);
  }

  method ValidateOneBatch(
    tc: Toolchain, runtime: ValidationRuntime, input: Option<Ir>, passes: seq<Pass>, profile: map<Pass, Ir>,
    mode: Mode, maxPermutationFactorial: int, maxValidationSequences: int, maxNodes: int, maxEdges: int,
    samples: int, draws: seq<seq<Pass>>) returns (row: ValidationRow, ghost tested: seq<seq<Pass>>)
    requires Distinct(passes) && runtime.Faithful(tc)
    requires input.Some? ==> ProfileExact(tc, input.value, profile)
    requires forall d :: d in draws ==> Arranges(d, passes)
    requires |draws| >= MaxInt(samples * 20, 100)
    modifies runtime
    ensures runtime.Faithful(tc)
    ensures input.Some? && tc.Sound() ==> RowIsHonest(tc, input.value, passes, row)
    ensures row.hardCertificate ==> row.complete && row.tier in {ExhaustiveAllPermutations, PermutationDagExact}
    ensures row.status == Status.AllPermutationsSame <==> row.hardCertificate
    // the table all batches of the state share stays a table of this state
    ensures input.Some? ==>
              forall universe :: ToSet(passes) <= universe && DigestsDecide(tc, input.value, universe)
                                 && FromReplays(tc, input.value, universe, old(runtime.transitions)) ==>
                FromReplays(tc, input.value, universe, runtime.transitions)
    // partial evidence is labelled as such
    ensures row.tier in {BoundedInsertion, SampledPermutations} ==>
              !row.complete && row.status in {BoundedSame, SampledSame, Status.Mismatch, Status.Failed}
    ensures mode in {BoundedMode, SampledMode} || input.None? ==> !row.hardCertificate
    // which tiers a mode can lead to
    ensures input.Some? && passes != [] ==>
              row.tier in match mode {
                            case DagMode =>
                              {PermutationDagExact, PermutationDagMismatch, PermutationDagIncomplete, FailedTier}
                            case BoundedMode => {BoundedInsertion, FailedTier}
                            case SampledMode => {SampledPermutations, FailedTier}
                            case ExhaustiveMode =>
                              if Factorial(|passes|) <= maxPermutationFactorial
                              then {ExhaustiveAllPermutations, FailedTier} else {Unvalidated, FailedTier}
                            case Auto =>
                              if Factorial(|passes|) <= maxPermutationFactorial
                              then {ExhaustiveAllPermutations, FailedTier}
                              else {PermutationDagExact, PermutationDagMismatch, BoundedInsertion, FailedTier}
                            case OtherMode =>
                              if Factorial(|passes|) <= maxPermutationFactorial
                              then {ExhaustiveAllPermutations, FailedTier} else {BoundedInsertion, FailedTier}
                          }
    ensures input.None? || passes == [] ==> row.tier == Unvalidated && row.status == NotValidated
    // what stands in the way of a verdict: failing tools, or a DAG budget
    ensures row.status == Status.Failed ==> !tc.NeverFails()
    ensures row.status == Status.Incomplete ==> mode == DagMode && row.tier == PermutationDagIncomplete
    ensures row.dagBudgetExceeded ==> mode in {Auto, DagMode}
    // the row names the mode asked for, except after a fallback that led to a plan
    ensures row.mode == mode || row.mode == PlannedMode(mode) || (row.mode == BoundedMode && row.dagBudgetExceeded)
    ensures row.tier == FailedTier ==> row.mode == mode
    // which orders a plan has tested, and what its row says about their outcomes
    ensures input.Some? && row.tier in {ExhaustiveAllPermutations, BoundedInsertion, SampledPermutations} ==>
              && Distinct(tested) && (forall o :: o in tested ==> Arranges(o, passes) && o != passes)
              && row.testedOrders == 1 + |tested|
              && (tc.Sound() ==> RowTells(tc, input.value, passes, tested, row))
              && (row.tier == ExhaustiveAllPermutations ==> row.testedOrders == Factorial(|passes|))
              && (row.tier == BoundedInsertion && maxValidationSequences > (|passes| - 1) * (|passes| - 1) ==>
                    ListsEveryMove(passes, tested))
    ensures row.status == BoundedSame ==> row.tier == BoundedInsertion
    ensures row.status == SampledSame ==> row.tier == SampledPermutations
    ensures input.Some? && tc.Sound() ==> ClassMeans(tc, input.value, passes, tested, row)
    // the order a mismatch names, and the work behind a verdict of the DAG
    ensures && input.Some? && tc.Sound() && row.status == Status.Mismatch
            && (row.tier != PermutationDagMismatch || maxNodes <= 10000) ==>
              NamesMismatch(tc, input.value, passes, row)
    ensures row.tier in {PermutationDagExact, PermutationDagMismatch} ==>
              row.testedOrders == |runtime.transitions| - |old(runtime.transitions)|
    // when it does not fail, the exhaustive tier decides the question
    ensures input.Some? && tc.Sound() && row.tier == ExhaustiveAllPermutations && row.status != Status.Failed ==>
              (row.hardCertificate <==> tc.AllOrdersEquivalent(input.value, passes))
    // and so does every row of tools that never fail, with budgets that suffice
    ensures && input.Some? && passes != [] && mode in {Auto, DagMode}
            && tc.NeverFails() && Suffices(|passes|, maxNodes, maxEdges) ==>
              && row.status in {Status.AllPermutationsSame, Status.Mismatch} && !row.dagBudgetExceeded
              && row.tier in {ExhaustiveAllPermutations, PermutationDagExact, PermutationDagMismatch}
  {
    hide DigestsDecide, FromReplays, Suffices, RowIsHonest, RowTells, ListsEveryMove, Factorial, ClassMeans,
         NamesMismatch, Distinct, Arranges, ProfileExact, runtime.Faithful, tc.Sound, tc.NeverFails;
    tested := [];
    if input.None? || passes == [] {
      row := BaseRow(mode, MissingInputOrTool);
      if input.Some? {
        ClassTells(tc, input.value, passes, tested, row);
      }
      return;
    }
    var effective, exceeded := mode, false;
    if ShouldUseDag(mode, |passes|, maxPermutationFactorial) {
      var dagRow := ValidateByDag(tc, runtime, input.value, passes, mode, maxNodes, maxEdges);
      if mode != Auto || dagRow.status != Status.Incomplete {
        if tc.Sound() {
          ClassTells(tc, input.value, passes, tested, dagRow);
        }
        return dagRow, tested;
      }
      effective, exceeded := BoundedMode, true;
    }
    row, tested := ValidateByPlan(tc, input.value, passes, profile, mode, effective, maxPermutationFactorial,
                                  maxValidationSequences, samples, draws, exceeded);
  }

  lemma PlanNamesMismatch(tc: Toolchain, input: Ir, passes: seq<Pass>, canonical: Ir, orders: seq<seq<Pass>>,
                          row: ValidationRow)
    requires RowTells(tc, input, passes, orders, row) && forall o :: o in orders ==> Arranges(o, passes)
    requires var found := Differing(tc, input, canonical, orders);
             row.differentCount == |found| && row.firstMismatchOrder == if found == [] then None else Some(found[0])
    ensures row.status == Status.Mismatch ==> NamesMismatch(tc, input, passes, row)
  {
    hide OrderVerdict, Differing;
  }

  lemma RowDecides(tc: Toolchain, input: Ir, passes: seq<Pass>, row: ValidationRow)
    requires RowIsHonest(tc, input, passes, row) && (row.status == Status.AllPermutationsSame <==> row.hardCertificate)
    requires row.status in {Status.AllPermutationsSame, Status.Mismatch, Status.Failed}
             || row.tier != ExhaustiveAllPermutations
    ensures row.tier == ExhaustiveAllPermutations && row.status != Status.Failed ==>
              (row.hardCertificate <==> tc.AllOrdersEquivalent(input, passes))
  {
  }

  lemma FlagIsNoClaim(tc: Toolchain, input: Ir, passes: seq<Pass>, row: ValidationRow, exceeded: bool)
    ensures RowIsHonest(tc, input, passes, row.(dagBudgetExceeded := exceeded)) <==> RowIsHonest(tc, input, passes, row)
    ensures forall orders :: RowTells(tc, input, passes, orders, row.(dagBudgetExceeded := exceeded)) <==>
                             RowTells(tc, input, passes, orders, row)
    ensures forall orders :: ClassMeans(tc, input, passes, orders, row.(dagBudgetExceeded := exceeded)) <==>
                             ClassMeans(tc, input, passes, orders, row)
    ensures NamesMismatch(tc, input, passes, row.(dagBudgetExceeded := exceeded)) <==>
            NamesMismatch(tc, input, passes, row)
  {
  }

  /** What one more order says about the canonical one. */
  function OrderVerdict(tc: Toolchain, input: Ir, canonical: Ir, order: seq<Pass>): Verdict {
    match tc.Replay(order, input)
    case None => CompareFailed
    case Some(y) => CompareResults(tc, canonical, y)
  }

  ghost predicate AllFold(tc: Toolchain, input: Ir, canonical: Ir, orders: seq<seq<Pass>>) {
    forall o :: o in orders ==> OrderVerdict(tc, input, canonical, o) == Foldable
  }

  ghost predicate SomeFails(tc: Toolchain, input: Ir, canonical: Ir, orders: seq<seq<Pass>>) {
    exists o :: o in orders && OrderVerdict(tc, input, canonical, o) == CompareFailed
  }

  /** The orders found to differ. */
  function Differing(tc: Toolchain, input: Ir, canonical: Ir, orders: seq<seq<Pass>>): (found: seq<seq<Pass>>)
    ensures forall o :: o in found <==> o in orders && OrderVerdict(tc, input, canonical, o) == Different
  {
    if orders == [] then []
    else
      var last := orders[|orders| - 1];
      Differing(tc, input, canonical, orders[..|orders| - 1])
      + if OrderVerdict(tc, input, canonical, last) == Different then [last] else []
  }

  lemma OrderVerdictMeans(tc: Toolchain, input: Ir, passes: seq<Pass>, canonical: Ir, order: seq<Pass>)
    requires tc.Replay(passes, input) == Some(canonical)
    ensures tc.Sound() && OrderVerdict(tc, input, canonical, order) == Foldable ==>
              tc.SameOutcome(tc.Replay(passes, input), tc.Replay(order, input))
    ensures tc.Sound() && OrderVerdict(tc, input, canonical, order) == Different ==>
              !tc.SameOutcome(tc.Replay(passes, input), tc.Replay(order, input))
    ensures tc.NeverFails() ==> OrderVerdict(tc, input, canonical, order) != CompareFailed
  {
    if tc.NeverFails() { tc.ReplayNeverFails(order, input); }
    if tc.Sound() && OrderVerdict(tc, input, canonical, order) != CompareFailed {
      CompareResultsDecides(tc, canonical, tc.Replay(order, input).value);
    }
  }

  /** The loop over the orders of a plan: the counts, and the first order that differs. */
  method RunOrders(tc: Toolchain, input: Ir, profile: map<Pass, Ir>, canonical: Ir, orders: seq<seq<Pass>>)
    returns (failed: bool, different: nat, firstMismatch: Option<seq<Pass>>)
    requires ProfileExact(tc, input, profile)
    ensures failed <==> SomeFails(tc, input, canonical, orders)
    ensures var found := Differing(tc, input, canonical, orders);
            different == |found| && firstMismatch == if found == [] then None else Some(found[0])
  {
    hide OrderVerdict, ProfileExact, Differing, SomeFails;
    failed, different, firstMismatch := false, 0, None;
    NoOrderYet(tc, input, canonical);
    for i := 0 to |orders|
      invariant failed <==> SomeFails(tc, input, canonical, orders[..i])
      invariant var found := Differing(tc, input, canonical, orders[..i]);
                different == |found| && firstMismatch == if found == [] then None else Some(found[0])
    {
      assert orders[..i + 1][..i] == orders[..i];
      OneOrderMore(tc, input, canonical, orders[..i], orders[i]);
      assert orders[..i + 1] == orders[..i] + [orders[i]];
      ProfileReuseIsInvisible(tc, input, orders[i], profile, true);
      OrderVerdictOf(tc, input, canonical, orders[i]);
      var result := RunPipeline(tc, input, orders[i], profile, true);
      if result.None? {
        failed := true;
        continue;
      }
      var verdict := CompareResults(tc, canonical, result.value);
      if verdict == Foldable {
        continue;
      }
      if verdict == CompareFailed {
        failed := true;
        continue;
      }
      different := different + 1;
      if firstMismatch.None? {
        firstMismatch := Some(orders[i]);
      }
    }
    assert orders[..|orders|] == orders;
  }

  lemma NoOrderYet(tc: Toolchain, input: Ir, canonical: Ir)
    ensures !SomeFails(tc, input, canonical, []) && Differing(tc, input, canonical, []) == []
  {
  }

  lemma OneOrderMore(tc: Toolchain, input: Ir, canonical: Ir, orders: seq<seq<Pass>>, order: seq<Pass>)
    ensures SomeFails(tc, input, canonical, orders + [order]) <==>
            SomeFails(tc, input, canonical, orders) || OrderVerdict(tc, input, canonical, order) == CompareFailed
    ensures Differing(tc, input, canonical, orders + [order]) ==
            Differing(tc, input, canonical, orders)
            + if OrderVerdict(tc, input, canonical, order) == Different then [order] else []
  {
    hide OrderVerdict;
    var more := orders + [order];
    assert more[..|more| - 1] == orders && order in more;
    forall o | o in orders ensures o in more {}
  }

  method CompareOrders(
    tc: Toolchain, input: Ir, passes: seq<Pass>, profile: map<Pass, Ir>, canonical: Ir, plan: Plan, mode: Mode)
    returns (row: ValidationRow)
    requires Distinct(passes) && ProfileExact(tc, input, profile) && tc.Replay(passes, input) == Some(canonical)
    requires forall o :: o in plan.orders ==> Arranges(o, passes)
    requires plan.tier in {ExhaustiveAllPermutations, BoundedInsertion, SampledPermutations}
    requires plan.hardCertificate <==> plan.tier == ExhaustiveAllPermutations
    requires plan.complete <==> plan.hardCertificate
    requires plan.hardCertificate ==> forall o :: Arranges(o, passes) && o != passes ==> o in plan.orders
    ensures row.tier == plan.tier && row.complete == plan.complete && row.mode == mode
    ensures row.status in {Status.AllPermutationsSame, BoundedSame, SampledSame, Status.Mismatch, Status.Failed}
    // a failure comes first, then a difference; otherwise all orders fold
    ensures row.status == Status.Failed <==> SomeFails(tc, input, canonical, plan.orders)
    ensures row.status == Status.Mismatch <==>
            && !SomeFails(tc, input, canonical, plan.orders)
            && exists o :: o in plan.orders && OrderVerdict(tc, input, canonical, o) == Different
    ensures row.status in {Status.AllPermutationsSame, BoundedSame, SampledSame} <==>
            AllFold(tc, input, canonical, plan.orders)
    ensures row.status == Status.AllPermutationsSame ==> row.tier == ExhaustiveAllPermutations
    ensures row.status == BoundedSame ==> row.tier == BoundedInsertion
    ensures row.status == SampledSame ==> row.tier == SampledPermutations
    ensures row.status == Status.AllPermutationsSame <==> row.hardCertificate
    // the counts, and the first order that differs
    ensures row.testedOrders == 1 + |plan.orders| && row.reason == plan.reason
    ensures var found := Differing(tc, input, canonical, plan.orders);
            && row.differentCount == |found|
            && row.firstMismatchOrder == if found == [] then None else Some(found[0])
    ensures row.status == Status.Failed ==> !tc.NeverFails()
    ensures tc.Sound() ==> RowTells(tc, input, passes, plan.orders, row) && RowIsHonest(tc, input, passes, row)
  {
    hide OrderVerdict, AllFold, SomeFails, Differing, RowIsHonest, RowTells;
    var orders := plan.orders;
    var failed, different, firstMismatch := RunOrders(tc, input, profile, canonical, orders);
    var status :=
      if failed then Status.Failed
      else if different > 0 then Status.Mismatch
      else if plan.tier == ExhaustiveAllPermutations then Status.AllPermutationsSame
      else if plan.tier == BoundedInsertion then BoundedSame
      else SampledSame;
    ThreeVerdicts(tc, input, canonical, orders);
    row := ValidationRow(mode, plan.tier, status, plan.complete,
                         status == Status.AllPermutationsSame && plan.hardCertificate,
                         plan.reason, 1 + |orders|, different, firstMismatch, false);
    OrdersTell(tc, input, passes, canonical, orders, row);
  }

  /** What a row about these orders says about the outcomes themselves. */
  ghost predicate RowTells(tc: Toolchain, input: Ir, passes: seq<Pass>, orders: seq<seq<Pass>>, row: ValidationRow) {
    && (row.status in {Status.AllPermutationsSame, BoundedSame, SampledSame} ==>
          forall o :: o in orders ==> tc.SameOutcome(tc.Replay(passes, input), tc.Replay(o, input)))
    && (row.status == Status.Mismatch ==>
          && row.firstMismatchOrder.Some? && row.firstMismatchOrder.value in orders
          && !tc.SameOutcome(tc.Replay(passes, input), tc.Replay(row.firstMismatchOrder.value, input)))
    && (tc.NeverFails() && (exists o :: o in orders && !tc.SameOutcome(tc.Replay(passes, input), tc.Replay(o, input)))
        ==> row.status == Status.Mismatch)
    && (row.status == Status.Failed ==> !tc.NeverFails())
  }

  lemma OrdersTell(tc: Toolchain, input: Ir, passes: seq<Pass>, canonical: Ir, orders: seq<seq<Pass>>,
                   row: ValidationRow)
    requires Distinct(passes) && tc.Replay(passes, input) == Some(canonical)
    requires forall o :: o in orders ==> Arranges(o, passes)
    requires row.status == Status.Failed <==> SomeFails(tc, input, canonical, orders)
    requires row.status == Status.Mismatch <==>
             !SomeFails(tc, input, canonical, orders) && Differing(tc, input, canonical, orders) != []
    requires row.status in {Status.AllPermutationsSame, BoundedSame, SampledSame} <==>
             AllFold(tc, input, canonical, orders)
    requires row.status == Status.AllPermutationsSame <==> row.hardCertificate
    requires row.hardCertificate ==> forall o :: Arranges(o, passes) && o != passes ==> o in orders
    requires var found := Differing(tc, input, canonical, orders);
             row.firstMismatchOrder == if found == [] then None else Some(found[0])
    ensures row.status == Status.Failed ==> !tc.NeverFails()
    ensures tc.Sound() ==> RowTells(tc, input, passes, orders, row) && RowIsHonest(tc, input, passes, row)
  {
    hide OrderVerdict, Differing;
    forall o ensures tc.NeverFails() ==> OrderVerdict(tc, input, canonical, o) != CompareFailed {
      OrderVerdictMeans(tc, input, passes, canonical, o);
    }
    if tc.Sound() {
      forall o | o in orders
        ensures OrderVerdict(tc, input, canonical, o) == Foldable ==>
                  tc.SameOutcome(tc.Replay(passes, input), tc.Replay(o, input))
        ensures OrderVerdict(tc, input, canonical, o) == Different ==>
                  !tc.SameOutcome(tc.Replay(passes, input), tc.Replay(o, input))
      {
        OrderVerdictMeans(tc, input, passes, canonical, o);
      }
      if row.status == Status.AllPermutationsSame {
        ExhaustiveFoldIsAgreement(tc, input, passes, canonical, orders);
      }
      var found := Differing(tc, input, canonical, orders);
      if found != [] {
        assert found[0] in found;
        DifferenceRefutes(tc, input, passes, canonical, found[0]);
      }
    }
  }

  lemma OrderVerdictOf(tc: Toolchain, input: Ir, canonical: Ir, order: seq<Pass>)
    ensures OrderVerdict(tc, input, canonical, order) ==
            match tc.Replay(order, input) {
              case None => CompareFailed
              case Some(y) => CompareResults(tc, canonical, y)
            }
  {
  }

  lemma ThreeVerdicts(tc: Toolchain, input: Ir, canonical: Ir, orders: seq<seq<Pass>>)
    ensures AllFold(tc, input, canonical, orders) <==>
            !SomeFails(tc, input, canonical, orders) && Differing(tc, input, canonical, orders) == []
    ensures Differing(tc, input, canonical, orders) != [] ==>
              exists o :: o in orders && OrderVerdict(tc, input, canonical, o) == Different
  {
    hide OrderVerdict;
    var found := Differing(tc, input, canonical, orders);
    if found != [] {
      assert found[0] in found;
    }
    if !SomeFails(tc, input, canonical, orders) && found == [] {
      forall o | o in orders ensures OrderVerdict(tc, input, canonical, o) == Foldable {
        assert o !in found;
      }
    }
  }

  lemma ExhaustiveFoldIsAgreement(tc: Toolchain, input: Ir, passes: seq<Pass>, canonical: Ir, orders: seq<seq<Pass>>)
    requires tc.Sound() && Distinct(passes) && tc.Replay(passes, input) == Some(canonical)
    requires AllFold(tc, input, canonical, orders)
    requires forall o :: Arranges(o, passes) && o != passes ==> o in orders
    ensures tc.AllOrdersEquivalent(input, passes)
  {
    forall o | Arranges(o, passes) ensures tc.SameOutcome(tc.Replay(passes, input), tc.Replay(o, input)) {
      if o != passes {
        OrderVerdictMeans(tc, input, passes, canonical, o);
      }
    }
    tc.AgreementWithCanonicalSuffices(input, passes);
  }

  lemma DifferenceRefutes(tc: Toolchain, input: Ir, passes: seq<Pass>, canonical: Ir, order: seq<Pass>)
    requires tc.Sound() && Distinct(passes) && tc.Replay(passes, input) == Some(canonical)
    requires Arranges(order, passes) && OrderVerdict(tc, input, canonical, order) == Different
    ensures !tc.AllOrdersEquivalent(input, passes)
    ensures !tc.SameOutcome(tc.Replay(passes, input), tc.Replay(order, input))
  {
    OrderVerdictMeans(tc, input, passes, canonical, order);
    assert Arranges(passes, passes);
    assert !tc.SameOutcome(tc.Replay(passes, input), tc.Replay(order, input));
  }
}
