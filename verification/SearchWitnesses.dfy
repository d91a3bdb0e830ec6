/** Worlds on which the searches do what their documentation rules out. The tools of
    these worlds are deterministic, answer always and are sound; the analysis of every
    state is what building, validating and classifying its batches gives. What goes
    wrong is that a certified batch of two passes, run as a single pipeline, never ends
    in time, although its passes do. */
module SearchWitnesses {
  import opened Basics
  import opened Toolchains
  import opened BatchCorrectness
  import opened BatchConstruction
  import opened BatchFamily
  import opened BatchValidation
  import opened DagSequences
  import opened SubsetLists
  import opened StateGraphs
  import opened PipelineMeaning
  import opened RollingWindows
  import opened StateAnalysis
  import FrontierSelection
  import RollingSearch
  import ExactSearch

  const LEFT := Pass("left")
  const RIGHT := Pass("right")
  const STEP := Pass("step")
  const PROFILED := [LEFT, RIGHT, STEP]

  const END := Ir("end")

  function Dots(i: nat): string {
    if i == 0 then "" else Dots(i - 1) + "."
  }

  predicate OnRing(n: nat, x: Ir) {
    |x.text| < n && x.text == Dots(|x.text|)
  }

  function Next(n: nat, x: Ir): Ir {
    if |x.text| + 1 < n then Ir(x.text + ".") else Ir("")
  }

  /** `left` and `right` take every program of the ring to its end. Where there are
      steps, `step` goes around the ring, and from its end back to its first program. */
  function Moved(n: nat, steps: bool, p: Pass, x: Ir): Ir {
    if p == STEP && steps then (if OnRing(n, x) then Next(n, x) else if x == END then Ir("") else x)
    else if p in {LEFT, RIGHT} && OnRing(n, x) then END
    else x
  }

  function Ring(n: nat, steps: bool): Toolchain {
    Toolchain(
      (p: Pass, x: Ir) => Some(Moved(n, steps, p, x)),
      (x: Ir) => Digest(x.text),
      (x: Ir, y: Ir) => if x == y then Foldable else Different,
      (x: Ir) => Meaning(iset{x}))
  }

  lemma {:induction false} DotsCount(i: nat)
    ensures |Dots(i)| == i && Dots(i) != "end" && OnRing(i + 1, Ir(Dots(i)))
  {
    if i > 0 {
      DotsCount(i - 1);
      assert Dots(i)[i - 1] == '.' && "end"[2] == 'd';
    }
  }

  lemma RingEnd(n: nat, x: Ir)
    requires OnRing(n, x)
    ensures x != END
  {
    DotsCount(|x.text|);
  }

  lemma RingMeaning(n: nat, steps: bool, x: Ir, y: Ir)
    ensures Ring(n, steps).Equivalent(x, y) <==> x == y
  {
    assert x in Ring(n, steps).meaning(x).programs;
    assert y in Ring(n, steps).meaning(x).programs <==> x == y;
  }

  lemma RingIsSound(n: nat, steps: bool)
    ensures Ring(n, steps).Sound() && Ring(n, steps).NeverFails()
  {
    hide Moved;
    forall x, y ensures Ring(n, steps).Equivalent(x, y) <==> x == y {
      RingMeaning(n, steps, x, y);
    }
    forall x: Ir, y: Ir | x.text == y.text ensures x == y {
      SameText(x, y);
    }
  }

  lemma SameText(x: Ir, y: Ir)
    requires x.text == y.text
    ensures x == y
  {
    assert x == Ir(x.text) && y == Ir(y.text);
  }

  // ------------------------------------------------ orders of one or two passes

  lemma OneStep(n: nat, steps: bool, p: Pass, x: Ir)
    ensures Ring(n, steps).Replay([p], x) == Some(Moved(n, steps, p, x))
  {
    hide Moved;
    Ring(n, steps).ReplayAppend([], p, x);
    assert [] + [p] == [p];
  }

  lemma TwoSteps(n: nat, steps: bool, p: Pass, q: Pass, x: Ir)
    ensures Ring(n, steps).Replay([p, q], x) == Some(Moved(n, steps, q, Moved(n, steps, p, x)))
  {
    hide Moved;
    OneStep(n, steps, p, x);
    Ring(n, steps).ReplayAppend([p], q, x);
    assert [p] + [q] == [p, q];
  }

  lemma OneOrder(p: Pass, order: seq<Pass>)
    requires Distinct(order) && ToSet(order) == {p}
    ensures order == [p]
  {
    DistinctSize(order);
    assert order[0] in ToSet(order);
  }

  lemma TwoOrders(p: Pass, q: Pass, order: seq<Pass>)
    requires p != q && Distinct(order) && ToSet(order) == {p, q}
    ensures order == [p, q] || order == [q, p]
  {
    DistinctSize(order);
    assert order[0] in ToSet(order) && order[1] in ToSet(order) && order[0] != order[1];
  }

  lemma SinglesAgree(n: nat, steps: bool, p: Pass, x: Ir)
    ensures Ring(n, steps).AllOrdersEquivalent(x, [p])
  {
    OneStep(n, steps, p, x);
    forall order | Arranges(order, [p]) ensures order == [p] {
      assert ToSet([p]) == {p};
      OneOrder(p, order);
    }
  }

  /** Two passes agree in both orders exactly when they lead to the same program. */
  lemma PairsAgree(n: nat, steps: bool, p: Pass, q: Pass, x: Ir)
    requires p != q
    ensures Ring(n, steps).AllOrdersEquivalent(x, [p, q]) <==>
            Moved(n, steps, q, Moved(n, steps, p, x)) == Moved(n, steps, p, Moved(n, steps, q, x))
  {
    hide Moved;
    TwoSteps(n, steps, p, q, x);
    TwoSteps(n, steps, q, p, x);
    RingMeaning(n, steps, Moved(n, steps, q, Moved(n, steps, p, x)), Moved(n, steps, p, Moved(n, steps, q, x)));
    assert ToSet([p, q]) == {p, q} && ToSet([q, p]) == {p, q} && Distinct([p, q]) && Distinct([q, p]);
    forall order | Arranges(order, [p, q]) ensures order == [p, q] || order == [q, p] {
      TwoOrders(p, q, order);
    }
  }

  // ------------------------------------------------ what the states offer

  const RELATIONS: Relations :=
    map[{LEFT, RIGHT} := FinalCommute, {LEFT, STEP} := OrderSensitive, {RIGHT, STEP} := OrderSensitive]

  function ActiveOn(n: nat, steps: bool, x: Ir): seq<Pass> {
    if OnRing(n, x) then (if steps then [LEFT, RIGHT, STEP] else [LEFT, RIGHT])
    else if x == END && steps then [STEP]
    else []
  }

  lemma ActivePasses(n: nat, steps: bool, x: Ir)
    requires n >= 1 && (steps ==> n >= 2)
    ensures ActiveIn(Ring(n, steps), PROFILED, x) == ActiveOn(n, steps, x) && Distinct(ActiveOn(n, steps, x))
    ensures forall p :: p in ActiveOn(n, steps, x) ==> Moved(n, steps, p, x) != x
  {
    ActiveOfThree(n, steps, x);
    if OnRing(n, x) {
      RingEnd(n, x);
      NextOnRing(n, x);
    } else {
      assert x == END ==> Ir("") != x by { assert |"end"| == 3; }
    }
  }

  lemma OneMoreProfiled(tc: Toolchain, profiled: seq<Pass>, p: Pass, x: Ir)
    ensures ActiveIn(tc, profiled + [p], x) ==
            ActiveIn(tc, profiled, x)
            + if tc.apply(p, x).Some? && tc.digest(tc.apply(p, x).value) != tc.digest(x) then [p] else []
    ensures ActiveIn(tc, [], x) == []
  {
    assert (profiled + [p])[..|profiled|] == profiled;
  }

  lemma ActiveOfThree(n: nat, steps: bool, x: Ir)
    ensures ActiveIn(Ring(n, steps), PROFILED, x) ==
            (if Moved(n, steps, LEFT, x) != x then [LEFT] else [])
            + (if Moved(n, steps, RIGHT, x) != x then [RIGHT] else [])
            + (if Moved(n, steps, STEP, x) != x then [STEP] else [])
  {
    hide Moved;
    var tc := Ring(n, steps);
    OneMoreProfiled(tc, [], LEFT, x);
    OneMoreProfiled(tc, [LEFT], RIGHT, x);
    OneMoreProfiled(tc, [LEFT, RIGHT], STEP, x);
    assert [] + [LEFT] == [LEFT] && [LEFT] + [RIGHT] == [LEFT, RIGHT] && [LEFT, RIGHT] + [STEP] == PROFILED;
    forall p ensures tc.digest(Moved(n, steps, p, x)) != tc.digest(x) <==> Moved(n, steps, p, x) != x {
      if Moved(n, steps, p, x).text == x.text { SameText(Moved(n, steps, p, x), x); }
    }
  }

  lemma RelationsAreTrue(n: nat, steps: bool, x: Ir)
    requires n >= 1 && (steps ==> n >= 2)
    ensures RelationsHold(Ring(n, steps), x, ActiveOn(n, steps, x), RELATIONS)
  {
    var active := ActiveOn(n, steps, x);
    DotsCount(0);
    assert !OnRing(n, END) by { DotsCount(3); }
    forall p, q | p in active && q in active && p != q
      ensures Commute(RELATIONS, p, q) <==> Ring(n, steps).AllOrdersEquivalent(x, [p, q])
    {
      PairsAgree(n, steps, p, q, x);
      PairRelation(p, q);
      if OnRing(n, x) { RingPair(n, steps, p, q, x); }
    }
  }

  lemma PairRelation(p: Pass, q: Pass)
    requires p in PROFILED && q in PROFILED && p != q
    ensures Commute(RELATIONS, p, q) <==> STEP !in {p, q}
  {
    if STEP !in {p, q} { assert {p, q} == {LEFT, RIGHT}; }
    assert {LEFT, RIGHT} != {LEFT, STEP} && {LEFT, RIGHT} != {RIGHT, STEP} && {LEFT, STEP} != {RIGHT, STEP};
    if STEP in {p, q} { assert {p, q} == {LEFT, STEP} || {p, q} == {RIGHT, STEP}; }
  }

  lemma RingPair(n: nat, steps: bool, p: Pass, q: Pass, x: Ir)
    requires OnRing(n, x) && p in PROFILED && q in PROFILED && p != q && (STEP in {p, q} ==> steps)
    requires n >= 1 && !OnRing(n, END)
    ensures Moved(n, steps, q, Moved(n, steps, p, x)) == Moved(n, steps, p, Moved(n, steps, q, x)) <==> STEP !in {p, q}
  {
    NextOnRing(n, x);
    assert Ir("") != END by { assert |"end"| == 3; }
  }

  lemma NextOnRing(n: nat, x: Ir)
    requires OnRing(n, x) && n >= 1
    ensures OnRing(n, Next(n, x)) && (n >= 2 ==> Next(n, x) != x)
  {
    if |x.text| + 1 < n {
      assert Dots(|x.text| + 1) == Dots(|x.text|) + ".";
    }
  }

  /** The batches of a ring program are `left` with `right`, and `step` alone. */
  lemma RingBatches(steps: bool, graph: BatchConstruction.Graph, s: set<Pass>)
    requires IsConflictGraph(if steps then [LEFT, RIGHT, STEP] else [LEFT, RIGHT], RELATIONS, graph)
    ensures var active := if steps then [LEFT, RIGHT, STEP] else [LEFT, RIGHT];
            MaximalIndependent(graph, ToSet(active), s) <==> s == {LEFT, RIGHT} || (steps && s == {STEP})
  {
    var active := if steps then [LEFT, RIGHT, STEP] else [LEFT, RIGHT];
    assert ToSet(active) == if steps then {LEFT, RIGHT, STEP} else {LEFT, RIGHT};
    forall p, q | p in active && q in active && p != q ensures q in graph[p] <==> STEP in {p, q} {
      PairRelation(p, q);
      assert p in ToSet(active);
    }
    assert graph.Keys == ToSet(active);
    RingSubsets(steps, graph, s);
  }

  lemma RingSubsets(steps: bool, graph: BatchConstruction.Graph, s: set<Pass>)
    requires graph.Keys == if steps then {LEFT, RIGHT, STEP} else {LEFT, RIGHT}
    requires forall p, q :: p in graph && q in graph && p != q ==> (q in graph[p] <==> STEP in {p, q})
    ensures MaximalIndependent(graph, graph.Keys, s) <==> s == {LEFT, RIGHT} || (steps && s == {STEP})
  {
    if MaximalIndependent(graph, graph.Keys, s) {
      OnlyTheseBatches(steps, graph, s);
    }
    TheseAreBatches(steps, graph);
  }

  lemma OnlyTheseBatches(steps: bool, graph: BatchConstruction.Graph, s: set<Pass>)
    requires graph.Keys == if steps then {LEFT, RIGHT, STEP} else {LEFT, RIGHT}
    requires forall p, q :: p in graph && q in graph && p != q ==> (q in graph[p] <==> STEP in {p, q})
    requires MaximalIndependent(graph, graph.Keys, s)
    ensures s == {LEFT, RIGHT} || (steps && s == {STEP})
  {
    if STEP in s {
      forall p | p in s ensures p == STEP {}
      assert s == {STEP};
    } else {
      assert s <= {LEFT, RIGHT} && Independent(graph, {LEFT, RIGHT});
      assert !(s < {LEFT, RIGHT});
    }
  }

  lemma TheseAreBatches(steps: bool, graph: BatchConstruction.Graph)
    requires graph.Keys == if steps then {LEFT, RIGHT, STEP} else {LEFT, RIGHT}
    requires forall p, q :: p in graph && q in graph && p != q ==> (q in graph[p] <==> STEP in {p, q})
    ensures MaximalIndependent(graph, graph.Keys, {LEFT, RIGHT})
    ensures steps ==> MaximalIndependent(graph, graph.Keys, {STEP})
  {
    forall t | {LEFT, RIGHT} < t <= graph.Keys ensures !Independent(graph, t) {
      var p :| p in t && p !in {LEFT, RIGHT};
      assert p == STEP && LEFT in t;
    }
    if steps {
      forall t | {STEP} < t <= graph.Keys ensures !Independent(graph, t) {
        var p :| p in t && p !in {STEP};
        assert STEP in t;
      }
    }
  }

  // ------------------------------------------------ analysing the states

  /** Limits that three active passes never reach; every batch goes to the permutation
      DAG, which runs one pass at a time. */
  const LIMITS := Limits(3, 8, DagMode, 0, 0, 16, 48, 0, false, false)

  lemma LimitsAreAmple(k: nat)
    requires k <= 3
    ensures Ample(LIMITS, k)
  {
    assert FallingSum(0, 0) == 1 && FallingSum(1, 1) == 2 && FallingSum(2, 2) == 5 && FallingSum(3, 3) == 16;
    assert Pow2(0) == 1 && Pow2(1) == 2 && Pow2(2) == 4 && Pow2(3) == 8;
  }

  /** Build, validate and classify the batches of one state. */
  method Analysed(n: nat, steps: bool, x: Ir) returns (analysis: Analysis)
    requires n >= 1 && (steps ==> n >= 2)
    ensures Genuine(Ring(n, steps), PROFILED, x, analysis)
  {
    hide Genuine, RelationsHold, Answered, Settled, IsConflictGraph, Splits, Ample;
    var tc, active := Ring(n, steps), ActiveOn(n, steps, x);
    RingIsSound(n, steps);
    ActivePasses(n, steps, x);
    RelationsAreTrue(n, steps, x);
    LimitsAreAmple(|active|);
    var shuffles := (order: seq<Pass>) => seq(100, _ => order);
    ShufflesArrange(shuffles);
    var profile := map p | p in active :: Moved(n, steps, p, x);
    var report, family, runtime;
    ghost var graph, rows;
    analysis, report, family, graph, rows, runtime :=
      AnalyseState(tc, x, active, RELATIONS, false, profile, LIMITS, shuffles);
    MakesGenuine(tc, x, analysis, RELATIONS, graph);
  }

  lemma ShufflesArrange(shuffles: seq<Pass> -> seq<seq<Pass>>)
    requires forall order :: shuffles(order) == seq(100, _ => order)
    ensures ShufflesOf(shuffles, LIMITS)
  {
  }

  lemma MakesGenuine(tc: Toolchain, x: Ir, analysis: Analysis, relations: Relations, graph: BatchConstruction.Graph)
    requires !analysis.incomplete && analysis.activePasses == |ActiveIn(tc, PROFILED, x)| && Answered(tc, x, analysis)
    requires RelationsHold(tc, x, ActiveIn(tc, PROFILED, x), relations)
    requires IsConflictGraph(ActiveIn(tc, PROFILED, x), relations, graph)
    requires Settled(tc, x, ActiveIn(tc, PROFILED, x), graph, analysis)
    ensures Genuine(tc, PROFILED, x, analysis)
  {
    hide RelationsHold, Answered, Settled, IsConflictGraph;
    assert GenuineBy(tc, PROFILED, x, analysis, relations, graph);
  }

  const QUIET := Analysis(false, 0, [])

  lemma QuietIsGenuine(n: nat, steps: bool, x: Ir)
    requires n >= 1 && (steps ==> n >= 2) && ActiveOn(n, steps, x) == []
    ensures Genuine(Ring(n, steps), PROFILED, x, QUIET)
  {
    hide Genuine, IsConflictGraph;
    ActivePasses(n, steps, x);
    EmptyGraph();
    MakesGenuine(Ring(n, steps), x, QUIET, RELATIONS, map[]);
  }

  lemma EmptyGraph()
    ensures IsConflictGraph([], RELATIONS, map[])
  {
    assert ToSet<Pass>([]) == {};
  }

  /** A world on these tools, each of whose states was analysed. */
  ghost predicate IsRingWorld(n: nat, steps: bool, w: World) {
    && w.tc == Ring(n, steps)
    && (forall x :: Genuine(w.tc, PROFILED, x, w.analyse(x)))
    && (forall x :: w.stateHash(x) == Digest(x.text))
    && (forall order, x :: w.completes(order, x) <==> |order| < 2)
  }

  ghost predicate IsDots(t: string, n: nat) {
    exists k: nat :: k < n && t == Dots(k)
  }

  lemma MoreDots(n: nat)
    ensures forall t :: IsDots(t, n + 1) <==> IsDots(t, n) || t == Dots(n)
  {
    forall t | IsDots(t, n + 1) ensures IsDots(t, n) || t == Dots(n) {
      var k: nat :| k < n + 1 && t == Dots(k);
    }
  }

  /** Analyse the programs of the ring and its end; all others are quiet. */
  method RingWorld(n: nat, steps: bool) returns (w: World)
    requires n >= 1 && (steps ==> n >= 2)
    ensures IsRingWorld(n, steps, w)
  {
    hide Genuine, ActiveOn, OnRing;
    var last := Analysed(n, steps, END);
    var table: map<string, Analysis> := map["end" := last];
    for i := 0 to n
      invariant forall t :: t in table <==> t == "end" || IsDots(t, i)
      invariant forall t :: t in table ==> Genuine(Ring(n, steps), PROFILED, Ir(t), table[t])
    {
      var analysis := Analysed(n, steps, Ir(Dots(i)));
      table := table[Dots(i) := analysis];
      MoreDots(i);
    }
    var answers := table;
    w := World(Ring(n, steps), (x: Ir) => if x.text in answers then answers[x.text] else QUIET,
               (x: Ir) => Digest(x.text), _ => 0, (order: seq<Pass>, _) => |order| < 2);
    forall x ensures Genuine(w.tc, PROFILED, x, w.analyse(x)) {
      if x.text in answers {
        SameText(x, Ir(x.text));
      } else {
        OffTheRing(n, steps, x, answers.Keys);
        QuietIsGenuine(n, steps, x);
      }
    }
  }

  lemma OffTheRing(n: nat, steps: bool, x: Ir, listed: set<string>)
    requires x.text !in listed && forall t :: t in listed <==> t == "end" || IsDots(t, n)
    ensures ActiveOn(n, steps, x) == []
  {
    assert x == END ==> x.text == "end";
  }

  // ------------------------------------------------ what such a world does

  lemma RingWorldIsSound(n: nat, steps: bool, w: World)
    requires IsRingWorld(n, steps, w)
    ensures w.tc.Sound() && w.tc.NeverFails() && Backed(w) && HashRespected(w) && QuietStatesHaveNoBatches(w)
  {
    hide Answered, Moved;
    RingIsSound(n, steps);
    forall x ensures Answered(w.tc, x, w.analyse(x)) {
      assert Genuine(w.tc, PROFILED, x, w.analyse(x));
    }
    AnalysedWorlds(w);
    forall x: Ir, y: Ir | w.stateHash(x) == w.stateHash(y) ensures x == y { SameText(x, y); }
  }

  /** The two kinds of batches, and what becomes of them. */
  lemma BatchOfRing(n: nat, steps: bool, w: World, x: Ir, c: Candidate)
    requires IsRingWorld(n, steps, w) && OnRing(n, x) && n >= 1 && (steps ==> n >= 2) && Executable(w.analyse(x), c)
    ensures || (|c.order| == 2 && w.Run(c.order, x).None?)
            || (steps && c.order == [STEP] && w.Run(c.order, x) == Some(Next(n, x)))
  {
    hide IsRingWorld, Moved;
    var graph := GraphOf(n, steps, w, x);
    OfferedOrder(n, steps, w, x, graph, c);
    if c.order == [STEP] {
      StepRuns(n, steps, w, x);
    } else {
      PairStalls(n, steps, w, x, c.order);
    }
  }

  lemma StepRuns(n: nat, steps: bool, w: World, x: Ir)
    requires IsRingWorld(n, steps, w) && OnRing(n, x) && steps
    ensures w.Run([STEP], x) == Some(Next(n, x))
  {
    OneStep(n, steps, STEP, x);
  }

  lemma PairStalls(n: nat, steps: bool, w: World, x: Ir, order: seq<Pass>)
    requires IsRingWorld(n, steps, w) && |order| >= 2
    ensures w.Run(order, x).None?
  {
  }

  lemma GraphOf(n: nat, steps: bool, w: World, x: Ir) returns (graph: BatchConstruction.Graph)
    requires IsRingWorld(n, steps, w) && OnRing(n, x) && n >= 1 && (steps ==> n >= 2)
    ensures Settled(w.tc, x, ActiveOn(n, steps, x), graph, w.analyse(x))
    ensures forall s :: MaximalIndependent(graph, ToSet(ActiveOn(n, steps, x)), s) <==>
                        s == {LEFT, RIGHT} || (steps && s == {STEP})
  {
    hide Settled, IsConflictGraph, RelationsHold, Answered, MaximalIndependent, Moved;
    ActivePasses(n, steps, x);
    var active := ActiveOn(n, steps, x);
    assert Genuine(w.tc, PROFILED, x, w.analyse(x));
    var relations;
    relations, graph :| GenuineBy(w.tc, PROFILED, x, w.analyse(x), relations, graph);
    RelationsAreTrue(n, steps, x);
    SameGraph(w.tc, x, active, relations, RELATIONS, graph);
    forall s ensures MaximalIndependent(graph, ToSet(active), s) <==> s == {LEFT, RIGHT} || (steps && s == {STEP}) {
      RingBatches(steps, graph, s);
    }
  }

  /** Relations that hold agree, and so do their conflict graphs. */
  lemma SameGraph(tc: Toolchain, x: Ir, active: seq<Pass>, a: Relations, b: Relations, graph: BatchConstruction.Graph)
    requires RelationsHold(tc, x, active, a) && RelationsHold(tc, x, active, b) && IsConflictGraph(active, a, graph)
    ensures IsConflictGraph(active, b, graph)
  {
    forall p | p in graph ensures forall q :: q in graph[p] <==> q in active && Conflict(b, p, q) {
      assert p in ToSet(active);
    }
  }

  lemma OfferedOrder(n: nat, steps: bool, w: World, x: Ir, graph: BatchConstruction.Graph, c: Candidate)
    requires IsRingWorld(n, steps, w) && OnRing(n, x) && Settled(w.tc, x, ActiveOn(n, steps, x), graph, w.analyse(x))
    requires forall s :: MaximalIndependent(graph, ToSet(ActiveOn(n, steps, x)), s) <==>
                         s == {LEFT, RIGHT} || (steps && s == {STEP})
    requires c in w.analyse(x).candidates
    ensures c.order == [LEFT, RIGHT] || c.order == [RIGHT, LEFT] || (steps && c.order == [STEP])
  {
    hide MaximalIndependent, Moved;
    assert Genuine(w.tc, PROFILED, x, w.analyse(x));
    assert IsOffered(w.analyse(x), ToSet(c.order));
    assert Distinct(c.order);
    if ToSet(c.order) == {STEP} {
      OneOrder(STEP, c.order);
    } else {
      TwoOrders(LEFT, RIGHT, c.order);
    }
  }

  /** The batch of two is there, and may be executed. */
  lemma PairIsOffered(n: nat, steps: bool, w: World, x: Ir) returns (c: Candidate)
    requires IsRingWorld(n, steps, w) && OnRing(n, x) && n >= 1 && (steps ==> n >= 2)
    ensures Executable(w.analyse(x), c) && |c.order| == 2
  {
    hide IsRingWorld, Moved, MaximalIndependent;
    var graph := GraphOf(n, steps, w, x);
    c := OfferFor(n, steps, w, x, graph, {LEFT, RIGHT});
    OfferedOrder(n, steps, w, x, graph, c);
    DotsCount(3);
    PairsAgree(n, steps, LEFT, RIGHT, x);
    PairsAgree(n, steps, RIGHT, LEFT, x);
    LeftRightAgree(n, steps, x);
    WorldTools(n, steps, w);
  }

  lemma WorldTools(n: nat, steps: bool, w: World)
    requires IsRingWorld(n, steps, w)
    ensures w.tc == Ring(n, steps)
  {
  }

  lemma LeftRightAgree(n: nat, steps: bool, x: Ir)
    requires OnRing(n, x)
    ensures Moved(n, steps, RIGHT, Moved(n, steps, LEFT, x)) == Moved(n, steps, LEFT, Moved(n, steps, RIGHT, x))
  {
  }

  lemma OfferFor(n: nat, steps: bool, w: World, x: Ir, graph: BatchConstruction.Graph, s: set<Pass>)
    returns (c: Candidate)
    requires Settled(w.tc, x, ActiveOn(n, steps, x), graph, w.analyse(x)) && OnRing(n, x)
    requires MaximalIndependent(graph, ToSet(ActiveOn(n, steps, x)), s)
    ensures c in w.analyse(x).candidates && ToSet(c.order) == s
    ensures c.order != [] && w.tc.AllOrdersEquivalent(x, c.order) ==> Executable(w.analyse(x), c)
  {
    hide MaximalIndependent;
    assert IsOffered(w.analyse(x), s);
    c :| c in w.analyse(x).candidates && ToSet(c.order) == s;
  }

  /** With steps, the other batch leads around the ring, and nothing else moves. */
  lemma Circles(n: nat, w: World, x: Ir)
    requires IsRingWorld(n, true, w) && OnRing(n, x) && n >= 2
    ensures RollingSearch.Circling(w, x, Digest(Next(n, x).text))
  {
    hide IsRingWorld, Moved, Executable, MaximalIndependent;
    var pair := PairIsOffered(n, true, w, x);
    BatchOfRing(n, true, w, x, pair);
    var graph := GraphOf(n, true, w, x);
    var step := OfferFor(n, true, w, x, graph, {STEP});
    OfferedOrder(n, true, w, x, graph, step);
    assert STEP in ToSet(step.order);
    SinglesAgree(n, true, STEP, x);
    WorldTools(n, true, w);
    StepRuns(n, true, w, x);
    WorldHash(n, true, w, Next(n, x));
    assert Moves(w, x, step, Digest(Next(n, x).text));
    forall c, h | Moves(w, x, c, h) ensures h == Digest(Next(n, x).text) {
      BatchOfRing(n, true, w, x, c);
    }
    ActiveCount(n, true, w, x);
  }

  lemma WorldHash(n: nat, steps: bool, w: World, x: Ir)
    requires IsRingWorld(n, steps, w)
    ensures w.stateHash(x) == Digest(x.text)
  {
  }

  lemma ActiveCount(n: nat, steps: bool, w: World, x: Ir)
    requires IsRingWorld(n, steps, w) && OnRing(n, x) && n >= 1 && (steps ==> n >= 2)
    ensures w.analyse(x).activePasses > 0
  {
    hide Moved;
    ActivePasses(n, steps, x);
    assert Genuine(w.tc, PROFILED, x, w.analyse(x));
  }

  /** For every accepted configuration that does not make the search end on every world
      there is a world of sound tools, with every state truly analysed and every batch
      certified, on which it never ends. */
  method SearchNeedNotEnd(cfg: Config, score: (StateGraphs.Graph, nat) -> FrontierSelection.FrontierRow, budget: nat)
    returns (w: World, root: Ir, outcome: Option<RollingSearch.RollingResult>)
    requires cfg.Accepted() && !cfg.AlwaysEnds()
    ensures w.tc.Sound() && w.tc.NeverFails() && Backed(w) && HashRespected(w) && QuietStatesHaveNoBatches(w)
    ensures forall x :: Genuine(w.tc, PROFILED, x, w.analyse(x))
    ensures RollingSearch.IsRestless(w, root, cfg) && outcome.None?
  {
    var n := cfg.windowDepth + 1;
    w := RingWorld(n, true);
    root := Ir("");
    RingWorldIsSound(n, true, w);
    RingIsRestless(cfg, w);
    outcome := RollingSearch.RunRolling(w, root, cfg, score, budget);
  }

  lemma RingIsRestless(cfg: Config, w: World)
    requires cfg.Accepted() && !cfg.AlwaysEnds() && IsRingWorld(cfg.windowDepth + 1, true, w)
    ensures RollingSearch.IsRestless(w, Ir(""), cfg)
  {
    hide IsRingWorld, RollingSearch.Circling;
    var n := cfg.windowDepth + 1;
    var ring := seq(n, i requires 0 <= i < n => Digest(Dots(i)));
    forall i, j | 0 <= i < j < n ensures ring[i] != ring[j] {
      DotsCount(i);
      DotsCount(j);
    }
    WorldHash(n, true, w, Ir(""));
    forall i: nat, x {:trigger RollingSearch.StandsAt(w, ring, i, x)} | RollingSearch.StandsAt(w, ring, i, x)
      ensures RollingSearch.Circling(w, x, ring[RollingSearch.Spot(n, i, 1)])
    {
      WorldHash(n, true, w, x);
      RingWalk(n, i, x);
      Circles(n, w, x);
    }
    assert RollingSearch.Restless(w, Ir(""), cfg, ring);
  }

  lemma RingWalk(n: nat, i: nat, x: Ir)
    requires i < n && n > 1 && x.text == Dots(i)
    ensures OnRing(n, x) && Next(n, x).text == Dots(RollingSearch.Spot(n, i, 1))
  {
    DotsCount(i);
  }

  /** The fixed-depth search calls itself complete although the one executable batch
      of the root was never applied, whatever the limits and the permission to go on. */
  method CompleteWithoutApplying(maxRounds: nat, maxStates: int, failOnIncomplete: bool)
    returns (w: World, g: StateGraphs.Graph, status: ExactSearch.ExactStatus)
    requires maxRounds >= 1 && maxStates > 1
    ensures w.tc.Sound() && w.tc.NeverFails() && Backed(w) && HashRespected(w) && QuietStatesHaveNoBatches(w)
    ensures forall x :: Genuine(w.tc, PROFILED, x, w.analyse(x))
    ensures status == ExactSearch.ExactComplete && |g.states| == 1
    ensures exists c :: Executable(w.analyse(g.states[0]), c) && !HasChild(w, g, 0, c)
    ensures !ExactSearch.AllApplied(w, g, maxRounds)
  {
    w := RingWorld(1, false);
    RingWorldIsSound(1, false, w);
    var selected;
    g, status, selected := ExactSearch.RunExact(w, Ir(""), maxRounds, maxStates, failOnIncomplete);
    NothingMoves(w, g);
    NothingIncomplete(w, g);
    ghost var c := PairIsOffered(1, false, w, Ir(""));
    BatchOfRing(1, false, w, Ir(""), c);
    assert Executable(w.analyse(g.states[0]), c) && !HasChild(w, g, 0, c);
  }

  lemma NobodyMoves(w: World, x: Ir, c: Candidate, h: Digest)
    requires IsRingWorld(1, false, w)
    ensures !Moves(w, x, c, h)
  {
    hide Moved;
    if Executable(w.analyse(x), c) {
      if OnRing(1, x) {
        BatchOfRing(1, false, w, x, c);
      } else {
        NothingOffered(w, x);
      }
    }
  }

  lemma NothingOffered(w: World, x: Ir)
    requires IsRingWorld(1, false, w) && !OnRing(1, x)
    ensures w.analyse(x).candidates == []
  {
    hide Moved, Settled;
    ActivePasses(1, false, x);
    assert Genuine(w.tc, PROFILED, x, w.analyse(x));
  }

  lemma LinkMoves(w: World, root: Ir, g: StateGraphs.Graph, j: nat) returns (x: Ir, c: Candidate, h: Digest)
    requires Valid(w, root, g) && 0 < j < |g.states|
    ensures Moves(w, x, c, h)
  {
    assert LinkHolds(w, g, j);
    x, c, h := g.states[g.parents[j].parent], g.parents[j].batch, w.stateHash(g.states[j]);
  }

  /** Where no batch moves, the root stays alone. */
  lemma NothingMoves(w: World, g: StateGraphs.Graph)
    requires IsRingWorld(1, false, w) && Valid(w, Ir(""), g)
    ensures |g.states| == 1 && g.states[0] == Ir("") && g.info[0].length == 0
  {
    hide IsRingWorld;
    if |g.states| > 1 {
      var x, c, h := LinkMoves(w, Ir(""), g, 1);
      NobodyMoves(w, x, c, h);
    }
  }

  lemma NothingIncomplete(w: World, g: StateGraphs.Graph)
    requires IsRingWorld(1, false, w)
    ensures forall i :: 0 <= i < |g.states| ==> !w.analyse(g.states[i]).incomplete
  {
    forall i | 0 <= i < |g.states| ensures !w.analyse(g.states[i]).incomplete {
      assert Genuine(w.tc, PROFILED, g.states[i], w.analyse(g.states[i]));
    }
  }
}
