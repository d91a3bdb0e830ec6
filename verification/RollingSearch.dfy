/** `_run_rolling_exact`: windows until the state graph is closed or something stops
    the search, the claim of global completeness, and when the search ends. */
module RollingSearch {
  import opened Basics
  import opened BatchCorrectness
  import opened Toolchains
  import opened NodeNames
  import opened StateGraphs
  import opened FrontierSelection
  import opened RollingWindows

  // -------------------------------------------------------------- the run

  datatype RollingStatus = RollingComplete | RollingIncomplete | RollingIncompleteContinued

  datatype RollingResult = RollingResult(
    s: Rolling, roots: seq<nat>, windowsCompleted: nat, stoppedIncomplete: bool,
    status: RollingStatus, globalSearchComplete: bool, selected: nat)

  /** What holds between two windows: no recorded state is lost sight of, and the
      next roots have not been expanded. */
  ghost predicate BetweenWindows(w: World, root: Ir, cfg: Config, s: Rolling, roots: seq<nat>, windows: nat) {
    && Sane(w, root, cfg, s) && Logged(w, cfg, s) && Accounted(w, s, ToSet(roots))
    && roots != [] && (forall i :: i in roots ==> i < |s.g.states| && i !in s.fullyExpanded)
    && (Progresses(w, cfg) ==> |s.fullyExpanded| >= windows)
    && (cfg.maxWindows > 0 ==> windows < cfg.maxWindows)
  }

  lemma FirstWindow(w: World, root: Ir, cfg: Config, s: Rolling)
    requires s == Rolling(InitialGraph(w, root), {}, {}, {}, false, false, [])
    ensures BetweenWindows(w, root, cfg, s, [0], 0)
  {
    InitialValid(w, root);
    ValidIsIndexed(w, root, s.g);
    assert ToSet(s.expansions) == {} && 0 in ToSet([0]);
    forall i | 0 <= i < |s.g.states| ensures Placed(w, s, ToSet([0]), i) {}
  }

  /** Fully expanded states are states, so the cap bounds how many windows can commit. */
  lemma ExpandedWithinBound(w: World, root: Ir, cfg: Config, s: Rolling)
    requires Sane(w, root, cfg, s)
    ensures |s.fullyExpanded| <= cfg.StateBound()
  {
    forall i | i in s.fullyExpanded ensures i in Below(|s.g.states|) { assert Finished(w, s.g, i); }
    SubsetSize(s.fullyExpanded, Below(|s.g.states|));
  }

  /** Where the search progresses, a committed window fully expands its roots, none
      of which was expanded before. */
  lemma WindowGrows(w: World, cfg: Config, s: Rolling, s': Rolling, roots: seq<nat>)
    requires Logged(w, cfg, s') && Progresses(w, cfg)
    requires roots != [] && (forall i :: i in roots ==> i !in s.fullyExpanded)
    requires s.fullyExpanded <= s'.fullyExpanded && ToSet(roots) <= ToSet(s'.expansions)
    ensures |s'.fullyExpanded| >= |s.fullyExpanded| + 1
  {
    assert roots[0] in roots && roots[0] in ToSet(roots);
    assert s.fullyExpanded + {roots[0]} <= s'.fullyExpanded;
    SubsetSize(s.fullyExpanded + {roots[0]}, s'.fullyExpanded);
  }

  lemma GrowthOrNot(w: World, cfg: Config, s: Rolling, s': Rolling, roots: seq<nat>)
    requires Logged(w, cfg, s') && roots != [] && (forall i :: i in roots ==> i !in s.fullyExpanded)
    requires s.fullyExpanded <= s'.fullyExpanded && ToSet(roots) <= ToSet(s'.expansions)
    ensures Progresses(w, cfg) ==> |s'.fullyExpanded| >= |s.fullyExpanded| + 1
  {
    if Progresses(w, cfg) {
      WindowGrows(w, cfg, s, s', roots);
    }
  }

  /** The states the final choice ranges over. */
  ghost function FinalCandidates(r: RollingResult): set<nat> {
    set i: nat | i < |r.s.g.states| && (r.stoppedIncomplete || i in r.roots || i in r.s.closed)
  }

  ghost predicate IsBestCandidate(w: World, r: RollingResult)
    requires |r.s.g.info| == |r.s.g.states|
  {
    IsChosen(w, r.s.g, FinalCandidates(r), r.selected)
  }

  method Finish(w: World, root: Ir, cfg: Config, s: Rolling, roots: seq<nat>, windows: nat, stopped: bool)
    returns (r: RollingResult)
    requires Sane(w, root, cfg, s) && roots != [] && forall i :: i in roots ==> i < |s.g.states|
    ensures r.s == s && r.roots == roots && r.windowsCompleted == windows && r.stoppedIncomplete == stopped
    ensures r.globalSearchComplete <==> s.pruned == {} && !stopped && !s.incomplete
    ensures r.status == RollingComplete <==> !stopped && !s.incomplete
    ensures r.status == RollingIncompleteContinued <==> s.continued
    ensures IsBestCandidate(w, r)
  {
    hide Blamed, Valid, Finished, IsChosen;
    var candidates: seq<nat> := [];
    for i := 0 to |s.g.states|
      invariant forall j: nat :: j in candidates <==> j < i && (stopped || j in roots || j in s.closed)
    {
      if stopped || i in roots || i in s.closed {
        candidates := candidates + [i];
      }
    }
    assert roots[0] in roots && roots[0] in candidates;
    var selected := SelectBest(w, s.g, candidates);
    var status :=
      if !stopped && !s.incomplete then RollingComplete
      else if s.continued then RollingIncompleteContinued
      else RollingIncomplete;
    r := RollingResult(s, roots, windows, stopped, status, s.pruned == {} && !stopped && !s.incomplete, selected);
    assert FinalCandidates(r) == ToSet(candidates);
  }

  /** What a finished run guarantees. */
  ghost predicate ResultHolds(w: World, root: Ir, cfg: Config, r: RollingResult) {
    && Sane(w, root, cfg, r.s)
    && (Progresses(w, cfg) ==> Distinct(r.s.expansions))
    && (r.globalSearchComplete <==> r.s.pruned == {} && r.status == RollingComplete)
    && (r.status == RollingIncompleteContinued ==> !cfg.failOnIncomplete)
    && (r.status == RollingComplete ==> !r.stoppedIncomplete)
    // no recorded state is lost sight of, unless a window was broken off
    && (!r.stoppedIncomplete ==> Accounted(w, r.s, {}))
    && (WindowsUsedUp(cfg, r) ==> Accounted(w, r.s, ToSet(r.roots)))
    && (r.status == RollingComplete ==>
          forall i :: i in r.s.expansions ==>
            i < |r.s.g.states| && !w.analyse(r.s.g.states[i]).incomplete && Finished(w, r.s.g, i))
    && (r.status != RollingComplete ==>
          Blamed(w, cfg, r.s.g) || (cfg.maxWindows > 0 && r.windowsCompleted >= cfg.maxWindows))
    // it has gone on after incompleteness unless it may not, or only the caps were in the way
    && (r.status == RollingIncomplete ==>
          cfg.failOnIncomplete || |r.s.g.states| >= cfg.maxStates || WindowsUsedUp(cfg, r))
    && (r.globalSearchComplete ==> forall i :: 0 <= i < |r.s.g.states| ==> Finished(w, r.s.g, i))
    && IsBestCandidate(w, r)
  }

  predicate WindowsUsedUp(cfg: Config, r: RollingResult) {
    r.stoppedIncomplete && cfg.maxWindows > 0 && r.windowsCompleted >= cfg.maxWindows
  }

  lemma StoppedResult(w: World, root: Ir, cfg: Config, r: RollingResult)
    requires Sane(w, root, cfg, r.s) && (Progresses(w, cfg) ==> Distinct(r.s.expansions))
    requires r.stoppedIncomplete && !r.globalSearchComplete && r.status != RollingComplete && IsBestCandidate(w, r)
    requires r.status == RollingIncompleteContinued <==> r.s.continued
    requires r.s.incomplete || WindowsUsedUp(cfg, r)
    requires WindowsUsedUp(cfg, r) ==> Accounted(w, r.s, ToSet(r.roots))
    ensures ResultHolds(w, root, cfg, r)
  {
  }

  lemma ClosedResult(w: World, root: Ir, cfg: Config, r: RollingResult)
    requires QuietStatesHaveNoBatches(w) && Sane(w, root, cfg, r.s) && Logged(w, cfg, r.s) && Accounted(w, r.s, {})
    requires !r.stoppedIncomplete && (r.globalSearchComplete <==> r.s.pruned == {} && !r.s.incomplete)
    requires (r.status == RollingComplete <==> !r.s.incomplete) && IsBestCandidate(w, r)
    requires r.status == RollingIncompleteContinued <==> r.s.continued
    ensures ResultHolds(w, root, cfg, r)
  {
    hide Blamed, Valid, Indexed, IsBestCandidate;
    if r.status == RollingComplete {
      forall i | i in r.s.expansions ensures i in r.s.fullyExpanded { assert i in ToSet(r.s.expansions); }
    }
    if r.globalSearchComplete {
      forall i | 0 <= i < |r.s.g.states| ensures Finished(w, r.s.g, i) {
        assert Placed(w, r.s, {}, i);
        if i in r.s.expansions {
          assert i in ToSet(r.s.expansions);
        } else {
          NothingToApply(w, r.s.g, i);
        }
      }
    }
  }

  lemma RootsStay(s: Rolling, s': Rolling, roots: seq<nat>)
    requires Grows(s, s') && forall i :: i in roots ==> i < |s.g.states|
    ensures forall i :: i in roots ==> i < |s'.g.states|
  {
  }

  /** `_run_rolling_exact`, watched for at most `budget` windows: None means that
      the search is still going. */
  method RunRolling(w: World, root: Ir, cfg: Config, score: (Graph, nat) -> FrontierRow, budget: nat)
    returns (outcome: Option<RollingResult>)
    requires cfg.Accepted() && QuietStatesHaveNoBatches(w)
    ensures outcome.Some? ==> ResultHolds(w, root, cfg, outcome.value)
    // it ends within this many windows
    ensures Progresses(w, cfg) && budget > cfg.StateBound() ==> outcome.Some?
    ensures cfg.maxWindows > 0 && budget >= cfg.maxWindows ==> outcome.Some?
    ensures cfg.StateBound() <= cfg.windowDepth && budget >= 1 ==> outcome.Some?
    ensures cfg.AlwaysEnds() && budget > cfg.StateBound() + cfg.maxWindows ==> outcome.Some?
    // and on a restless world it does not
    ensures IsRestless(w, root, cfg) ==> outcome.None?
  {
    hide IsDiverseFrontier, RowsOf, IsChosen, Blamed, Valid, Finished, Accounted, Logged, Progresses, Sane, Distinct,
         Capped, IsBestCandidate, Trail, QuietStatesHaveNoBatches, ResultHolds, IsRestless, BetweenWindows, OneState;
    var s := Rolling(InitialGraph(w, root), {}, {}, {}, false, false, []);
    var roots, windows := [0], 0;
    FirstWindow(w, root, cfg, s);
    SingleRoot(0);
    while windows < budget
      invariant 0 <= windows <= budget && BetweenWindows(w, root, cfg, s, roots, windows)
      invariant IsRestless(w, root, cfg) ==> OneState(roots)
      invariant windows > 0 ==> cfg.StateBound() > cfg.windowDepth
      decreases budget - windows
    {
      ghost var before, oldRoots := s, roots;
      BetweenFacts(w, root, cfg, s, roots, windows);
      var boundary, stop, open;
      ghost var layers;
      s, boundary, stop, layers := ExpandWindow(w, root, cfg, s, roots);
      RestlessNeverStops(w, root, cfg, s, stop);
      RootsStay(before, s, roots);
      if stop {
        var r := Finish(w, root, cfg, s, roots, windows, true);
        StoppedResult(w, root, cfg, r);
        return Some(r);
      }
      ghost var expanded := s;
      s, open := SplitBoundary(w, root, cfg, s, boundary);
      RestlessStaysOpen(w, root, cfg, expanded, roots, boundary, layers, open);
      if open == [] {
        NothingOpen(open);
        var r := Finish(w, root, cfg, s, roots, windows + 1, false);
        ClosedResult(w, root, cfg, r);
        return Some(r);
      }
      DeeperThanWindow(w, root, cfg, expanded, boundary, open);
      s, roots := Checkpoint(w, root, cfg, s, score, open);
      SelectedOneState(open, roots);
      windows := windows + 1;
      if cfg.maxWindows > 0 && windows >= cfg.maxWindows {
        RestlessHasNoWindowCap(w, root, cfg);
        LogFacts(w, cfg, s);
        var r := Finish(w, root, cfg, s, roots, windows, true);
        StoppedResult(w, root, cfg, r);
        return Some(r);
      }
      NextWindow(w, root, cfg, before, s, oldRoots, roots, open, windows);
    }
    BetweenFacts(w, root, cfg, s, roots, windows);
    ExpandedWithinBound(w, root, cfg, s);
    StoppingProgresses(w, cfg);
    outcome := None;
  }

  lemma StoppingProgresses(w: World, cfg: Config)
    ensures cfg.failOnIncomplete ==> Progresses(w, cfg)
  {
  }

  lemma BetweenFacts(w: World, root: Ir, cfg: Config, s: Rolling, roots: seq<nat>, windows: nat)
    requires BetweenWindows(w, root, cfg, s, roots, windows)
    ensures Sane(w, root, cfg, s) && Logged(w, cfg, s) && Accounted(w, s, ToSet(roots))
    ensures roots != [] && (forall i :: i in roots ==> i < |s.g.states| && i !in s.fullyExpanded)
    ensures Progresses(w, cfg) ==> |s.fullyExpanded| >= windows
    ensures cfg.maxWindows > 0 ==> windows < cfg.maxWindows
  {
  }

  /** A committed window leaves the search between two windows again. */
  lemma NextWindow(w: World, root: Ir, cfg: Config, before: Rolling, s: Rolling, oldRoots: seq<nat>, roots: seq<nat>,
                   open: seq<nat>, windows: nat)
    requires windows >= 1 && BetweenWindows(w, root, cfg, before, oldRoots, windows - 1)
    requires Sane(w, root, cfg, s) && Logged(w, cfg, s) && Accounted(w, s, ToSet(roots)) && roots != []
    requires forall i :: i in roots ==> i in open
    requires forall i :: i in open ==> i < |s.g.states| && i !in s.fullyExpanded
    requires before.fullyExpanded <= s.fullyExpanded && ToSet(oldRoots) <= ToSet(s.expansions)
    requires cfg.maxWindows > 0 ==> windows < cfg.maxWindows
    ensures BetweenWindows(w, root, cfg, s, roots, windows)
  {
    hide Sane, Logged, Accounted, Progresses;
    GrowthOrNot(w, cfg, before, s, oldRoots);
  }

  lemma NothingOpen(open: seq<nat>)
    requires open == []
    ensures ToSet(open) == {}
  {
  }

  /** A window leaves open states only if the cap allows more states than it has layers. */
  lemma DeeperThanWindow(w: World, root: Ir, cfg: Config, s: Rolling, boundary: seq<nat>, open: seq<nat>)
    requires Sane(w, root, cfg, s) && open != [] && forall i :: i in open ==> i in boundary
    requires boundary != [] ==> |s.g.states| > cfg.windowDepth
    ensures cfg.StateBound() > cfg.windowDepth
  {
    assert open[0] in open;
  }

  // ------------------------------------------------- searches without end

  ghost predicate OneState(ids: seq<nat>) {
    forall i, j :: i in ids && j in ids ==> i == j
  }

  lemma SingleRoot(i: nat)
    ensures OneState([i])
  {
  }

  lemma SelectedOneState(open: seq<nat>, selected: seq<nat>)
    requires forall i :: i in selected ==> i in open
    ensures OneState(open) ==> OneState(selected)
  {
  }

  /** The program has one batch that keeps failing, and every other batch leads to hash `h`. */
  ghost predicate Circling(w: World, x: Ir, h: Digest) {
    && w.analyse(x).activePasses > 0
    && (exists c :: Executable(w.analyse(x), c) && w.Run(c.order, x).None?)
    && (exists c :: Moves(w, x, c, h))
    && forall c, h' :: Moves(w, x, c, h') ==> h' == h
  }

  /** The place `j` steps on from place `i` of a ring of `n`. */
  function Spot(n: nat, i: nat, j: nat): nat
    requires i < n && j < n
  {
    if i + j < n then i + j else i + j - n
  }

  ghost predicate StandsAt(w: World, ring: seq<Digest>, i: nat, x: Ir) {
    i < |ring| && w.stateHash(x) == ring[i]
  }

  /** A ring of programs that is longer than a window is deep and fits under the state
      cap, where nothing stops the search. */
  ghost predicate Restless(w: World, root: Ir, cfg: Config, ring: seq<Digest>) {
    && !cfg.failOnIncomplete && cfg.maxWindows == 0 && 1 <= cfg.windowDepth < |ring| <= cfg.maxStates
    && Distinct(ring) && ring[0] == w.stateHash(root)
    && forall i: nat, x {:trigger StandsAt(w, ring, i, x)} :: StandsAt(w, ring, i, x) ==>
         Circling(w, x, ring[Spot(|ring|, i, 1)])
  }

  ghost predicate IsRestless(w: World, root: Ir, cfg: Config) {
    exists ring :: Restless(w, root, cfg, ring)
  }

  lemma RestlessConfig(w: World, root: Ir, cfg: Config, ring: seq<Digest>)
    requires Restless(w, root, cfg, ring)
    ensures !cfg.AlwaysEnds() && 1 <= cfg.windowDepth < |ring| <= cfg.maxStates && Distinct(ring)
  {
  }

  lemma {:induction false} StatesStayInside(w: World, root: Ir, cfg: Config, g: Graph, ring: seq<Digest>, j: nat)
    returns (i: nat)
    requires Valid(w, root, g) && Restless(w, root, cfg, ring) && j < |g.states|
    ensures i < |ring| && w.stateHash(g.states[j]) == ring[i]
    decreases g.info[j].length
  {
    hide Circling;
    if j == 0 {
      i := 0;
    } else {
      assert LinkHolds(w, g, j);
      var edge := g.parents[j];
      var p := StatesStayInside(w, root, cfg, g, ring, edge.parent);
      CirclesOn(w, root, cfg, ring, g.states[edge.parent], p);
      OnlyMove(w, g.states[edge.parent], edge.batch, w.stateHash(g.states[j]), ring[Spot(|ring|, p, 1)]);
      i := Spot(|ring|, p, 1);
    }
  }

  lemma OnlyMove(w: World, x: Ir, c: Candidate, h: Digest, only: Digest)
    requires Circling(w, x, only) && Moves(w, x, c, h)
    ensures h == only
  {
  }

  lemma CirclingIsUnfinished(w: World, g: Graph, i: nat, h: Digest)
    requires i < |g.states| && Circling(w, g.states[i], h)
    ensures !Finished(w, g, i) && !Quiet(w, g, i)
  {
    var c :| Executable(w.analyse(g.states[i]), c) && w.Run(c.order, g.states[i]).None?;
    assert !HasChild(w, g, i, c);
  }

  /** A restless search never needs a state above the cap. */
  lemma RoomForNewState(w: World, root: Ir, cfg: Config, g: Graph, ring: seq<Digest>, i: nat, c: Candidate)
    requires Valid(w, root, g) && Restless(w, root, cfg, ring)
    ensures !Capped(w, cfg, g, i, c)
  {
    hide Restless, Circling, Distinct;
    if i < |g.states| && Executable(w.analyse(g.states[i]), c) && w.Run(c.order, g.states[i]).Some? {
      var y := w.Run(c.order, g.states[i]).value;
      MoveOf(w, g, i, c, y);
      RingHolds(w, root, cfg, g, ring, i, c, w.stateHash(y));
      RestlessConfig(w, root, cfg, ring);
      if w.stateHash(y) !in g.byHash {
        KnownWithin(w, root, cfg, g, ring, w.stateHash(y));
      }
    }
  }

  lemma RingHolds(w: World, root: Ir, cfg: Config, g: Graph, ring: seq<Digest>, i: nat, c: Candidate, h: Digest)
    requires Valid(w, root, g) && Restless(w, root, cfg, ring) && i < |g.states| && Moves(w, g.states[i], c, h)
    ensures h in ring
  {
    hide Valid, Circling, Moves;
    var p := StatesStayInside(w, root, cfg, g, ring, i);
    CirclesOn(w, root, cfg, ring, g.states[i], p);
    OnlyMove(w, g.states[i], c, h, ring[Spot(|ring|, p, 1)]);
  }

  /** The recorded states and one new hash are distinct members of the ring. */
  lemma KnownWithin(w: World, root: Ir, cfg: Config, g: Graph, ring: seq<Digest>, h: Digest)
    requires Valid(w, root, g) && Restless(w, root, cfg, ring) && h in ring && h !in g.byHash
    ensures |g.states| < |ring|
  {
    hide Restless;
    var known := seq(|g.states|, k requires 0 <= k < |g.states| => w.stateHash(g.states[k]));
    DistinctSize(known);
    DistinctSize(ring);
    forall d | d in known ensures d in ring && d != h {
      var k :| 0 <= k < |known| && known[k] == d;
      var i := StatesStayInside(w, root, cfg, g, ring, k);
    }
    SubsetSize(ToSet(known) + {h}, ToSet(ring));
  }

  lemma RestlessNeverStops(w: World, root: Ir, cfg: Config, s: Rolling, stop: bool)
    requires Sane(w, root, cfg, s)
    requires stop ==> cfg.failOnIncomplete || exists i, c :: Capped(w, cfg, s.g, i, c)
    ensures stop ==> !IsRestless(w, root, cfg)
  {
    hide Restless, Capped, Valid;
    if IsRestless(w, root, cfg) {
      var ring :| Restless(w, root, cfg, ring);
      RestlessConfig(w, root, cfg, ring);
      forall i, c ensures !Capped(w, cfg, s.g, i, c) {
        RoomForNewState(w, root, cfg, s.g, ring, i, c);
      }
    }
  }

  lemma RestlessHasNoWindowCap(w: World, root: Ir, cfg: Config)
    requires cfg.maxWindows > 0
    ensures !IsRestless(w, root, cfg)
  {
  }

  /** All states of a layer stand `j` places on from the window's one root. */
  ghost predicate LayerAt(w: World, g: Graph, layer: seq<nat>, ring: seq<Digest>, p: nat, j: nat) {
    && p < |ring| && j < |ring|
    && forall a :: a in layer ==> a < |g.states| && w.stateHash(g.states[a]) == ring[Spot(|ring|, p, j)]
  }

  lemma OnePlaceOn(n: nat, p: nat, j: nat)
    requires p < n && j + 1 < n
    ensures Spot(n, Spot(n, p, j), 1) == Spot(n, p, j + 1)
    ensures forall i :: 0 <= i <= j ==> Spot(n, p, i) != Spot(n, p, j + 1)
  {
  }

  lemma {:induction false} MetStandBefore(w: World, g: Graph, layers: seq<seq<nat>>, ring: seq<Digest>, p: nat,
                                          k: nat, a: nat)
      returns (i: nat)
    requires k <= |layers| && k <= |ring| && a in Met(layers, k)
    requires forall j :: 0 <= j < k ==> LayerAt(w, g, layers[j], ring, p, j)
    ensures i < k && p < |ring| && a < |g.states| && w.stateHash(g.states[a]) == ring[Spot(|ring|, p, i)]
  {
    if a in ToSet(layers[k - 1]) {
      i := k - 1;
      assert LayerAt(w, g, layers[i], ring, p, i);
    } else {
      i := MetStandBefore(w, g, layers, ring, p, k - 1, a);
    }
  }

  /** In a restless world every layer leads to the next place of the ring. */
  lemma {:induction false} RingLayer(w: World, root: Ir, cfg: Config, s: Rolling, ring: seq<Digest>,
                                     layers: seq<seq<nat>>, p: nat, j: nat)
    requires Sane(w, root, cfg, s) && Restless(w, root, cfg, ring) && Trail(w, s, layers)
    requires j < |layers| && j < |ring| && layers[0] != [] && LayerAt(w, s.g, layers[0], ring, p, 0)
    ensures layers[j] != [] && LayerAt(w, s.g, layers[j], ring, p, j)
    ensures forall i :: 0 <= i < j ==> LayerAt(w, s.g, layers[i], ring, p, i)
  {
    hide Sane, Restless, Trail, LayerAt;
    if j > 0 {
      RingLayer(w, root, cfg, s, ring, layers, p, j - 1);
      LedAt(w, s, layers, j - 1);
      NextPlace(w, root, cfg, s, ring, layers, p, j - 1);
    }
  }

  lemma LedAt(w: World, s: Rolling, layers: seq<seq<nat>>, j: nat)
    requires Trail(w, s, layers) && j + 1 < |layers|
    ensures Led(w, s, layers, j)
  {
  }

  lemma NextPlace(w: World, root: Ir, cfg: Config, s: Rolling, ring: seq<Digest>, layers: seq<seq<nat>>, p: nat, j: nat)
    requires Sane(w, root, cfg, s) && Restless(w, root, cfg, ring) && j + 1 < |layers| && j + 1 < |ring|
    requires Led(w, s, layers, j) && layers[j] != []
    requires forall i :: 0 <= i <= j ==> LayerAt(w, s.g, layers[i], ring, p, i)
    ensures layers[j + 1] != [] && LayerAt(w, s.g, layers[j + 1], ring, p, j + 1)
  {
    hide Sane, Restless, Handled, Met, Circling;
    assert LayerAt(w, s.g, layers[j], ring, p, j);
    OnePlaceOn(|ring|, p, j);
    var here, there := Spot(|ring|, p, j), Spot(|ring|, p, j + 1);
    forall b | b in layers[j + 1] ensures b < |s.g.states| && w.stateHash(s.g.states[b]) == ring[there] {
      var a :| a in layers[j] && IsChild(w, s.g, a, b);
      var c :| Moves(w, s.g.states[a], c, w.stateHash(s.g.states[b]));
      CirclesOn(w, root, cfg, ring, s.g.states[a], here);
      OnlyMove(w, s.g.states[a], c, w.stateHash(s.g.states[b]), ring[there]);
    }
    assert layers[j][0] in layers[j];
    LeadsOn(w, root, cfg, s, ring, layers, p, j, layers[j][0]);
  }

  lemma CirclesOn(w: World, root: Ir, cfg: Config, ring: seq<Digest>, x: Ir, i: nat)
    requires Restless(w, root, cfg, ring) && StandsAt(w, ring, i, x)
    ensures Circling(w, x, ring[Spot(|ring|, i, 1)])
  {
  }

  lemma UnfinishedIsNotExpanded(w: World, root: Ir, cfg: Config, s: Rolling, i: nat)
    requires Sane(w, root, cfg, s) && !Finished(w, s.g, i)
    ensures i !in s.fullyExpanded
  {
  }

  lemma SaneGraph(w: World, root: Ir, cfg: Config, s: Rolling)
    requires Sane(w, root, cfg, s)
    ensures Indexed(w, s.g) && Valid(w, root, s.g)
  {
  }

  /** A state of the layer leads to a state of the next one. */
  lemma LeadsOn(w: World, root: Ir, cfg: Config, s: Rolling, ring: seq<Digest>, layers: seq<seq<nat>>, p: nat, j: nat,
                a: nat)
    requires Sane(w, root, cfg, s) && Restless(w, root, cfg, ring) && j + 1 < |layers| && j + 1 < |ring|
    requires Handled(w, s, Met(layers, j), Met(layers, j + 1), layers[j + 1], layers[j]) && a in layers[j]
    requires forall i :: 0 <= i <= j ==> LayerAt(w, s.g, layers[i], ring, p, i)
    ensures layers[j + 1] != []
  {
    hide Sane, Restless, Met, Circling, Distinct, Indexed, Valid, Finished, Quiet;
    RestlessConfig(w, root, cfg, ring);
    SaneGraph(w, root, cfg, s);
    assert LayerAt(w, s.g, layers[j], ring, p, j);
    var here, there := Spot(|ring|, p, j), Spot(|ring|, p, j + 1);
    OnePlaceOn(|ring|, p, j);
    CirclesOn(w, root, cfg, ring, s.g.states[a], here);
    CirclingIsUnfinished(w, s.g, a, ring[there]);
    UnfinishedIsNotExpanded(w, root, cfg, s, a);
    NotMetBefore(w, s.g, ring, layers, p, j, a);
    assert Pursued(w, s, Met(layers, j + 1), layers[j + 1], a);
    var b := FollowedChild(w, s, layers, j, a, ring[there]);
    CirclesOn(w, root, cfg, ring, s.g.states[b], there);
    CirclingIsUnfinished(w, s.g, b, ring[Spot(|ring|, there, 1)]);
    UnfinishedIsNotExpanded(w, root, cfg, s, b);
    NotMetBefore(w, s.g, ring, layers, p, j + 1, b);
    assert b in layers[j + 1];
  }

  lemma NotMetBefore(w: World, g: Graph, ring: seq<Digest>, layers: seq<seq<nat>>, p: nat, j: nat, a: nat)
    requires Distinct(ring) && p < |ring| && j < |ring| && j <= |layers|
    requires a < |g.states| && w.stateHash(g.states[a]) == ring[Spot(|ring|, p, j)]
    requires forall i :: 0 <= i < j ==> LayerAt(w, g, layers[i], ring, p, i)
    ensures a !in Met(layers, j)
  {
    hide Met, LayerAt, Distinct;
    if a in Met(layers, j) {
      var i := MetStandBefore(w, g, layers, ring, p, j, a);
      DifferentPlaces(ring, Spot(|ring|, p, i), Spot(|ring|, p, j));
    }
  }

  lemma DifferentPlaces(ring: seq<Digest>, i: nat, j: nat)
    requires Distinct(ring) && i < |ring| && j < |ring| && i != j
    ensures ring[i] != ring[j]
  {
  }

  lemma FollowedChild(w: World, s: Rolling, layers: seq<seq<nat>>, j: nat, a: nat, h: Digest) returns (b: nat)
    requires j + 1 < |layers| && Indexed(w, s.g) && Pursued(w, s, Met(layers, j + 1), layers[j + 1], a)
    requires Circling(w, s.g.states[a], h)
    ensures b < |s.g.states| && w.stateHash(s.g.states[b]) == h
    ensures b in layers[j + 1] || b in s.fullyExpanded || b in Met(layers, j + 1)
  {
    hide Met;
    var c :| Moves(w, s.g.states[a], c, h);
    assert Followed(w, s, Met(layers, j + 1), layers[j + 1], a, c);
    b := s.g.byHash[h];
  }

  lemma RestlessStaysOpen(w: World, root: Ir, cfg: Config, s: Rolling, roots: seq<nat>, boundary: seq<nat>,
                          layers: seq<seq<nat>>, open: seq<nat>)
    requires Sane(w, root, cfg, s) && 1 <= |layers| <= cfg.windowDepth + 1 && Trail(w, s, layers)
    requires boundary == layers[|layers| - 1] && forall i :: i in layers[0] <==> i in roots
    requires roots != [] && forall i :: i in roots ==> i < |s.g.states|
    requires IsRestless(w, root, cfg) ==> OneState(roots)
    requires forall i :: i in open <==> i in boundary && !Quiet(w, s.g, i) && i !in s.fullyExpanded
    ensures IsRestless(w, root, cfg) ==> open != [] && OneState(open)
  {
    hide Sane, Restless, Trail, Finished, Quiet, Circling, Distinct, Indexed, Valid;
    if IsRestless(w, root, cfg) {
      var ring :| Restless(w, root, cfg, ring);
      RestlessConfig(w, root, cfg, ring);
      SaneGraph(w, root, cfg, s);
      assert roots[0] in roots && roots[0] in layers[0];
      var p := StatesStayInside(w, root, cfg, s.g, ring, roots[0]);
      var last := |layers| - 1;
      RingLayer(w, root, cfg, s, ring, layers, p, last);
      var there := Spot(|ring|, p, last);
      forall i | i in boundary ensures i in open && i < |s.g.states| && w.stateHash(s.g.states[i]) == ring[there] {
        CirclesOn(w, root, cfg, ring, s.g.states[i], there);
        CirclingIsUnfinished(w, s.g, i, ring[Spot(|ring|, there, 1)]);
        UnfinishedIsNotExpanded(w, root, cfg, s, i);
      }
      assert boundary[0] in boundary;
      SameHashSameState(w, s.g, open, ring[there]);
    }
  }

  lemma SameHashSameState(w: World, g: Graph, ids: seq<nat>, h: Digest)
    requires Indexed(w, g) && forall i :: i in ids ==> i < |g.states| && w.stateHash(g.states[i]) == h
    ensures OneState(ids)
  {
    forall i, j | i in ids && j in ids ensures i == j {
      assert g.byHash[w.stateHash(g.states[i])] == i && g.byHash[w.stateHash(g.states[j])] == j;
    }
  }

  // --------------------------------------------------- global completeness

  ghost predicate Reachable(w: World, root: Ir, h: Digest) {
    exists path :: OutcomeHash(w, RunPath(w, root, path)) == Some(h)
  }

  lemma {:induction false} PathsAreRecorded(w: World, root: Ir, g: Graph, path: seq<Candidate>)
    requires Valid(w, root, g) && HashRespected(w) && forall i :: 0 <= i < |g.states| ==> Finished(w, g, i)
    ensures RunPath(w, root, path).Some? ==> w.stateHash(RunPath(w, root, path).value) in g.byHash
  {
    ValidIsIndexed(w, root, g);
    if path != [] && RunPath(w, root, path).Some? {
      var init, c := path[..|path| - 1], path[|path| - 1];
      PathsAreRecorded(w, root, g, init);
      var x := RunPath(w, root, init).value;
      var i := g.byHash[w.stateHash(x)];
      assert Finished(w, g, i) && HasChild(w, g, i, c);
      OrdersRespectHash(w, c.order, x, g.states[i]);
    }
  }

  /** When the global claim is made, the recorded hashes are exactly the hashes
      reachable from the root by executable batches. */
  lemma DiscoveredIsReachable(w: World, root: Ir, cfg: Config, r: RollingResult, h: Digest)
    requires ResultHolds(w, root, cfg, r) && r.globalSearchComplete && HashRespected(w)
    ensures h in r.s.g.byHash <==> Reachable(w, root, h)
  {
    hide IsBestCandidate, Accounted;
    var g := r.s.g;
    if h in g.byHash {
      assert RouteExists(w, g, g.byHash[h]);
      var path :| IsRoute(w, g, g.byHash[h], path);
      assert OutcomeHash(w, RunPath(w, root, path)) == Some(h);
    }
    if Reachable(w, root, h) {
      var path :| OutcomeHash(w, RunPath(w, root, path)) == Some(h);
      PathsAreRecorded(w, root, g, path);
    }
  }
}
