/** `_run_exact`: breadth-first search to a fixed number of rounds. */
module ExactSearch {
  import opened Basics
  import opened Toolchains
  import opened StateGraphs

  datatype ExactStatus = ExactComplete | ExactIncomplete | ExactIncompleteContinued

  /** Every batch of state `i` leads to a recorded state whose path is no worse
      than going through `i`. */
  ghost predicate Settled(w: World, g: Graph, i: nat)
    requires |g.info| == |g.states|
  {
    i < |g.states| && forall c, h :: Moves(w, g.states[i], c, h) ==> SettledBy(g, i, c, h)
  }

  ghost predicate SettledBy(g: Graph, i: nat, c: Candidate, h: Digest)
    requires i < |g.info|
  {
    h in g.byHash && g.byHash[h] < |g.info| && !Better(Extend(g.info[i], c), g.info[g.byHash[h]])
  }

  /** The search stands in round `r`: all states of path length `r` form the
      frontier, those of length `r + 1` found so far form `next`. */
  ghost predicate InRound(w: World, root: Ir, g: Graph, r: nat, frontier: seq<nat>, next: seq<nat>) {
    && Indexed(w, g) && Valid(w, root, g) && Fresh(g)
    && (forall j :: 0 <= j < |g.info| ==> g.info[j].length <= r + 1)
    && (forall j :: j in frontier <==> 0 <= j < |g.info| && g.info[j].length == r)
    && (forall j :: j in next <==> 0 <= j < |g.info| && g.info[j].length == r + 1)
  }

  /** From `g` to `g'` states were added and paths of length above `r` improved. */
  ghost predicate Improves(g: Graph, g': Graph, r: nat) {
    && |g.info| == |g.states| && |g'.info| == |g'.states|
    && g.states <= g'.states
    && (forall h :: h in g.byHash ==> h in g'.byHash && g'.byHash[h] == g.byHash[h])
    && (forall j :: 0 <= j < |g.info| ==> !Better(g.info[j], g'.info[j]))
    && (forall j :: 0 <= j < |g.info| && g.info[j].length <= r ==> g'.info[j] == g.info[j])
    && (forall j :: 0 <= j < |g'.info| && g'.info[j].length <= r ==> j < |g.info| && g.info[j] == g'.info[j])
  }

  lemma ImprovesTransitive(g: Graph, h: Graph, k: Graph, r: nat)
    requires Improves(g, h, r) && Improves(h, k, r)
    ensures Improves(g, k, r)
  {
    forall j | 0 <= j < |g.info| ensures !Better(g.info[j], k.info[j]) {
      BetterNegativelyTransitive(g.info[j], h.info[j], k.info[j]);
    }
  }

  lemma BetterIrreflexive(a: PathInfo)
    ensures !Better(a, a)
  {
    BatchesIrreflexive(a.batches);
  }

  lemma BetterAsymmetric(a: PathInfo, b: PathInfo)
    requires Better(a, b)
    ensures !Better(b, a)
  {
    if !Better(b, a) {
    } else {
      BatchesAsymmetric(a.batches, b.batches);
    }
  }

  lemma {:induction false} BatchesAsymmetric(a: seq<string>, b: seq<string>)
    ensures BatchesBefore(a, b) ==> !BatchesBefore(b, a)
  {
    if a != [] && b != [] {
      if NodeNames.TextBefore(a[0], b[0]) { NodeNames.TextAsymmetric(a[0], b[0]); }
      if NodeNames.TextBefore(b[0], a[0]) { NodeNames.TextAsymmetric(b[0], a[0]); }
      BatchesAsymmetric(a[1..], b[1..]);
    }
  }

  /** Expanded states of length at most `r` stay settled while paths above `r` improve. */
  lemma SettledStays(w: World, g: Graph, g': Graph, r: nat, i: nat)
    requires Improves(g, g', r) && Indexed(w, g) && Indexed(w, g') && Settled(w, g, i) && g.info[i].length <= r
    ensures Settled(w, g', i)
  {
    forall c, h | Moves(w, g'.states[i], c, h) ensures SettledBy(g', i, c, h) {
      assert SettledBy(g, i, c, h);
      BetterNegativelyTransitive(Extend(g.info[i], c), g.info[g.byHash[h]], g'.info[g'.byHash[h]]);
    }
  }

  /** One batch applied: the child is recorded with a path no worse than this one. */
  method ApplyBatch(w: World, root: Ir, g: Graph, r: nat, ghost frontier: seq<nat>, next: seq<nat>,
                    parent: nat, c: Candidate, maxStates: int)
    returns (g': Graph, next': seq<nat>, capped: bool)
    requires InRound(w, root, g, r, frontier, next) && parent in frontier
    requires Executable(w.analyse(g.states[parent]), c)
    ensures InRound(w, root, g', r, frontier, next') && Improves(g, g', r)
    ensures capped ==> g' == g && |g.states| >= maxStates
    ensures !capped ==> forall h :: Moves(w, g.states[parent], c, h) ==> SettledBy(g', parent, c, h)
    ensures |g'.states| <= |g.states| || |g'.states| <= maxStates
  {
    hide Valid, Better, Moves, Executable, Discover, Relax;
    g', next', capped := g, next, false;
    ImprovesItself(g, r);
    var result := w.Run(c.order, g.states[parent]);
    if result.None? {
      NoMove(w, g.states[parent], c);
      return;
    }
    var child := result.value;
    var hash := w.stateHash(child);
    AMove(w, g.states[parent], c, child);
    if hash in g.byHash {
      g' := Relax(g, g.byHash[hash], Extend(g.info[parent], c), Edge(parent, c));
      RelaxInRound(w, root, g, g', r, frontier, next, parent, c, g.byHash[hash]);
    } else {
      if |g.states| >= maxStates {
        capped := true;
        return;
      }
      g' := Discover(w, g, child, Extend(g.info[parent], c), Edge(parent, c));
      next' := next + [|g.states|];
      DiscoverInRound(w, root, g, g', r, frontier, next, parent, c, child);
    }
  }

  lemma ImprovesItself(g: Graph, r: nat)
    requires |g.info| == |g.states|
    ensures Improves(g, g, r)
  {
    forall j | 0 <= j < |g.info| ensures !Better(g.info[j], g.info[j]) { BetterIrreflexive(g.info[j]); }
  }

  lemma NoMove(w: World, x: Ir, c: Candidate)
    requires w.Run(c.order, x).None?
    ensures forall h :: !Moves(w, x, c, h)
  {
  }

  lemma AMove(w: World, x: Ir, c: Candidate, y: Ir)
    requires w.Run(c.order, x) == Some(y) && Executable(w.analyse(x), c)
    ensures forall h :: Moves(w, x, c, h) <==> h == w.stateHash(y)
  {
  }

  lemma RelaxInRound(w: World, root: Ir, g: Graph, g': Graph, r: nat, frontier: seq<nat>, next: seq<nat>,
                     parent: nat, c: Candidate, child: nat)
    requires InRound(w, root, g, r, frontier, next) && parent in frontier && child < |g.states|
    requires Moves(w, g.states[parent], c, w.stateHash(g.states[child]))
    requires g' == Relax(g, child, Extend(g.info[parent], c), Edge(parent, c))
    ensures InRound(w, root, g', r, frontier, next) && Improves(g, g', r)
    ensures SettledBy(g', parent, c, w.stateHash(g.states[child])) && |g'.states| == |g.states|
  {
    RelaxKeepsValid(w, root, g, parent, c, child);
    var info := Extend(g.info[parent], c);
    RelaxImproves(g, g', child, info, Edge(parent, c), r);
    if child != 0 && Better(info, g.info[child]) {
      assert g.info[child].length == r + 1;
      RelaxFresh(w, root, g, g', r, parent, c, child);
      BetterIrreflexive(info);
    }
  }

  lemma RelaxImproves(g: Graph, g': Graph, child: nat, info: PathInfo, edge: Edge, r: nat)
    requires |g.info| == |g.states| && child < |g.info| && info.length == r + 1
    requires g' == Relax(g, child, info, edge)
    ensures Improves(g, g', r)
  {
    forall j | 0 <= j < |g.info| ensures !Better(g.info[j], g'.info[j]) {
      BetterIrreflexive(g.info[j]);
      if Better(info, g.info[child]) { BetterAsymmetric(info, g.info[child]); }
    }
  }

  /** Nobody's parent is a state of length above `r`, so no link goes stale. */
  lemma RelaxFresh(w: World, root: Ir, g: Graph, g': Graph, r: nat, parent: nat, c: Candidate, child: nat)
    requires Fresh(g) && |g.info| == |g.states| && parent < |g.info| && 0 < child < |g.info|
    requires forall j :: 0 <= j < |g.info| ==> g.info[j].length <= r + 1
    requires g.info[parent].length == r && g.info[child].length == r + 1
    requires g' == g.(info := g.info[child := Extend(g.info[parent], c)],
                      parents := g.parents[child := Edge(parent, c)])
    ensures Fresh(g')
  {
  }

  lemma DiscoverInRound(w: World, root: Ir, g: Graph, g': Graph, r: nat, frontier: seq<nat>, next: seq<nat>,
                        parent: nat, c: Candidate, child: Ir)
    requires InRound(w, root, g, r, frontier, next) && parent in frontier
    requires Moves(w, g.states[parent], c, w.stateHash(child)) && w.stateHash(child) !in g.byHash
    requires g' == Discover(w, g, child, Extend(g.info[parent], c), Edge(parent, c))
    ensures InRound(w, root, g', r, frontier, next + [|g.states|]) && Improves(g, g', r)
    ensures SettledBy(g', parent, c, w.stateHash(child)) && |g'.states| == |g.states| + 1
  {
    hide Valid, Fresh, Better, Extend, Moves;
    DiscoverKeepsValid(w, root, g, parent, c, child);
    BetterIrreflexive(Extend(g.info[parent], c));
    ExtendLonger(g.info[parent], c);
    DiscoverImproves(w, g, g', r, child, Extend(g.info[parent], c), Edge(parent, c));
    DiscoverFresh(w, g, g', parent, c, child);
    var next' := next + [|g.states|];
    forall j ensures j in next' <==> 0 <= j < |g'.info| && g'.info[j].length == r + 1 {
      assert j in next' <==> j in next || j == |g.states|;
    }
  }

  lemma ExtendLonger(info: PathInfo, c: Candidate)
    ensures Extend(info, c).length == info.length + 1
  {
  }

  lemma DiscoverImproves(w: World, g: Graph, g': Graph, r: nat, child: Ir, info: PathInfo, edge: Edge)
    requires Indexed(w, g) && info.length == r + 1 && g' == Discover(w, g, child, info, edge)
    requires w.stateHash(child) !in g.byHash
    ensures Improves(g, g', r)
  {
    hide Better;
    forall j | 0 <= j < |g.info| ensures !Better(g.info[j], g'.info[j]) { BetterIrreflexive(g.info[j]); }
  }

  lemma DiscoverFresh(w: World, g: Graph, g': Graph, parent: nat, c: Candidate, child: Ir)
    requires Fresh(g) && |g.info| == |g.states| && parent < |g.info|
    requires g' == Discover(w, g, child, Extend(g.info[parent], c), Edge(parent, c))
    ensures Fresh(g')
  {
    hide Extend;
    forall j | j in g'.parents
      ensures j < |g'.info| && g'.parents[j].parent < |g'.info|
              && g'.info[j] == Extend(g'.info[g'.parents[j].parent], g'.parents[j].batch)
    {
      if j == |g.states| {
        assert g'.parents[j] == Edge(parent, c);
      } else {
        assert j in g.parents;
      }
    }
  }

  function IncompleteAt(w: World, g: Graph, i: nat): bool
    requires i < |g.states|
  {
    w.analyse(g.states[i]).incomplete
  }

  /** All batches of one frontier state. */
  method ExpandParent(w: World, root: Ir, g: Graph, r: nat, ghost frontier: seq<nat>, next: seq<nat>,
                      parent: nat, maxStates: int)
    returns (g': Graph, next': seq<nat>, capped: bool)
    requires InRound(w, root, g, r, frontier, next) && parent in frontier
    ensures InRound(w, root, g', r, frontier, next') && Improves(g, g', r)
    ensures !capped ==> Settled(w, g', parent)
    ensures capped ==> |g'.states| >= maxStates
    ensures |g'.states| <= |g.states| || |g'.states| <= maxStates
  {
    hide InRound, Indexed, Moves, Executable, SettledBy, Improves, BatchesSettled;
    g', next', capped := g, next, false;
    RoundShape(w, root, g, r, frontier, next, parent);
    ImprovesItself(g, r);
    var candidates := w.analyse(g.states[parent]).candidates;
    NoBatchesYet(w, g, parent, g.states[parent]);
    for k := 0 to |candidates|
      invariant InRound(w, root, g', r, frontier, next') && Improves(g, g', r)
      invariant BatchesSettled(w, g', parent, g.states[parent], candidates[..k])
      invariant |g'.states| <= |g.states| || |g'.states| <= maxStates
    {
      var c := candidates[k];
      ghost var before := g';
      RoundShape(w, root, g', r, frontier, next', parent);
      ImprovesShape(g, g', r, parent);
      if Executable(w.analyse(g.states[parent]), c) {
        g', next', capped := ApplyBatch(w, root, g', r, frontier, next', parent, c, maxStates);
        ImprovesTransitive(g, before, g', r);
        if capped {
          return;
        }
        RoundShape(w, root, g', r, frontier, next', parent);
        EarlierBatchesStay(w, before, g', r, parent, g.states[parent], candidates[..k]);
      } else {
        OnlyExecutableMoves(w, g.states[parent], c);
      }
      OneBatchMore(w, g', parent, g.states[parent], candidates[..k], c);
      assert candidates[..k + 1] == candidates[..k] + [c];
    }
    assert candidates[..|candidates|] == candidates;
    RoundShape(w, root, g', r, frontier, next', parent);
    ImprovesShape(g, g', r, parent);
    AllBatchesSettled(w, g', parent, candidates);
  }

  lemma RoundShape(w: World, root: Ir, g: Graph, r: nat, frontier: seq<nat>, next: seq<nat>, i: nat)
    requires InRound(w, root, g, r, frontier, next) && i in frontier
    ensures |g.info| == |g.states| && i < |g.states| && g.info[i].length == r
    ensures forall h :: h in g.byHash ==> g.byHash[h] < |g.info|
  {
  }

  lemma NoBatchesYet(w: World, g: Graph, i: nat, x: Ir)
    requires i < |g.info|
    ensures BatchesSettled(w, g, i, x, [])
  {
  }

  lemma OneBatchMore(w: World, g: Graph, i: nat, x: Ir, batches: seq<Candidate>, c: Candidate)
    requires BatchesSettled(w, g, i, x, batches) && forall h :: Moves(w, x, c, h) ==> SettledBy(g, i, c, h)
    ensures BatchesSettled(w, g, i, x, batches + [c])
  {
  }

  lemma AllBatchesSettled(w: World, g: Graph, i: nat, candidates: seq<Candidate>)
    requires |g.info| == |g.states| && i < |g.states| && candidates == w.analyse(g.states[i]).candidates
    requires BatchesSettled(w, g, i, g.states[i], candidates)
    ensures Settled(w, g, i)
  {
    hide SettledBy, Moves;
    forall c, h | Moves(w, g.states[i], c, h) ensures SettledBy(g, i, c, h) {
      OnlyListedMoves(w, g.states[i], c, h);
    }
  }

  /** These batches of program `x`, which is state `i`, are settled. */
  ghost predicate BatchesSettled(w: World, g: Graph, i: nat, x: Ir, batches: seq<Candidate>) {
    i < |g.info| && forall c, h :: c in batches && Moves(w, x, c, h) ==> SettledBy(g, i, c, h)
  }

  lemma EarlierBatchesStay(w: World, g: Graph, g': Graph, r: nat, i: nat, x: Ir, batches: seq<Candidate>)
    requires Improves(g, g', r) && i < |g.info| && g.info[i].length <= r && BatchesSettled(w, g, i, x, batches)
    requires forall h :: h in g'.byHash ==> g'.byHash[h] < |g'.info|
    ensures BatchesSettled(w, g', i, x, batches)
  {
    hide SettledBy, Moves;
    forall c, h | c in batches && Moves(w, x, c, h) ensures SettledBy(g', i, c, h) {
      SettledByStays(g, g', r, i, c, h);
    }
  }

  lemma SettledByStays(g: Graph, g': Graph, r: nat, i: nat, c: Candidate, h: Digest)
    requires Improves(g, g', r) && i < |g.info| && g.info[i].length <= r && SettledBy(g, i, c, h)
    requires forall h :: h in g'.byHash ==> g'.byHash[h] < |g'.info|
    ensures SettledBy(g', i, c, h)
  {
    BetterNegativelyTransitive(Extend(g.info[i], c), g.info[g.byHash[h]], g'.info[g'.byHash[h]]);
  }

  lemma OnlyExecutableMoves(w: World, x: Ir, c: Candidate)
    requires !Executable(w.analyse(x), c)
    ensures forall h :: !Moves(w, x, c, h)
  {
  }

  lemma OnlyListedMoves(w: World, x: Ir, c: Candidate, h: Digest)
    requires Moves(w, x, c, h)
    ensures c in w.analyse(x).candidates
  {
  }

  // ------------------------------------------------------------- the search

  /** All states with paths shorter than `r` are settled. */
  ghost predicate SettledBelow(w: World, g: Graph, r: nat)
    requires |g.info| == |g.states|
  {
    forall i {:trigger Settled(w, g, i)} :: 0 <= i < |g.states| && g.info[i].length < r ==> Settled(w, g, i)
  }

  method ExpandRound(w: World, root: Ir, g: Graph, r: nat, frontier: seq<nat>, maxStates: int, failOnIncomplete: bool)
    returns (g': Graph, next: seq<nat>, stop: bool, incomplete: bool)
    requires QuietStatesHaveNoBatches(w) && InRound(w, root, g, r, frontier, []) && SettledBelow(w, g, r)
    ensures InRound(w, root, g', r, frontier, next)
    ensures !stop ==> SettledBelow(w, g', r + 1)
    ensures stop ==> incomplete
    ensures failOnIncomplete && incomplete ==> stop
    ensures |g'.states| <= |g.states| || |g'.states| <= maxStates
    // incompleteness has exactly these sources; a batch that fails to apply is not one
    ensures incomplete ==>
              (exists i :: i in frontier && i < |g.states| && IncompleteAt(w, g, i)) || |g'.states| >= maxStates
    ensures !incomplete ==> forall i :: i in frontier ==> i < |g.states| && !IncompleteAt(w, g, i)
    ensures Improves(g, g', r)
  {
    hide Valid, Fresh, Improves, Settled, Better, SettledBelow;
    g', next, stop, incomplete := g, [], false, false;
    ImprovesItself(g, r);
    for k := 0 to |frontier|
      invariant InRound(w, root, g', r, frontier, next) && Improves(g, g', r) && SettledBelow(w, g', r)
      invariant !stop ==> forall l :: 0 <= l < k ==> Settled(w, g', frontier[l])
      invariant stop ==> incomplete
      invariant failOnIncomplete && incomplete ==> stop
      invariant |g'.states| <= |g.states| || |g'.states| <= maxStates
      invariant incomplete ==>
                  (exists i :: i in frontier && i < |g.states| && IncompleteAt(w, g, i)) || |g'.states| >= maxStates
      invariant !incomplete ==> forall l :: 0 <= l < k ==> frontier[l] < |g.states| && !IncompleteAt(w, g, frontier[l])
    {
      var parent := frontier[k];
      assert parent in frontier;
      ImprovesShape(g, g', r, parent);
      var analysis := w.analyse(g'.states[parent]);
      if analysis.incomplete {
        incomplete := true;
        assert IncompleteAt(w, g, parent);
        if failOnIncomplete {
          stop := true;
          return;
        }
      }
      if analysis.activePasses == 0 {
        QuietIsSettled(w, g', parent);
        continue;
      }
      ghost var before := g';
      var capped;
      g', next, capped := ExpandParent(w, root, g', r, frontier, next, parent, maxStates);
      ImprovesTransitive(g, before, g', r);
      BelowSettledStays(w, before, g', r);
      if capped {
        // the remaining parents of the round still have their turn
        stop, incomplete := true, true;
      } else if !stop {
        RoundSettledStays(w, root, before, g', r, frontier, k);
      }
    }
    if !stop {
      RoundDone(w, g', r, frontier);
    }
  }

  lemma ImprovesShape(g: Graph, g': Graph, r: nat, i: nat)
    requires Improves(g, g', r) && i < |g.states|
    ensures i < |g'.states| && g'.states[i] == g.states[i]
  {
  }

  lemma QuietIsSettled(w: World, g: Graph, i: nat)
    requires QuietStatesHaveNoBatches(w) && |g.info| == |g.states| && i < |g.states|
    requires w.analyse(g.states[i]).activePasses == 0
    ensures Settled(w, g, i)
  {
  }

  lemma RoundSettledStays(w: World, root: Ir, g: Graph, g': Graph, r: nat, frontier: seq<nat>, k: nat)
    requires Improves(g, g', r) && Indexed(w, g) && Indexed(w, g') && SettledBelow(w, g, r) && k <= |frontier|
    requires forall i :: i in frontier ==> i < |g.info| && g.info[i].length <= r
    requires forall l :: 0 <= l < k ==> Settled(w, g, frontier[l])
    ensures forall l :: 0 <= l < k ==> Settled(w, g', frontier[l])
  {
    forall l | 0 <= l < k ensures Settled(w, g', frontier[l]) {
      assert frontier[l] in frontier;
      SettledStays(w, g, g', r, frontier[l]);
    }
  }

  lemma BelowSettledStays(w: World, g: Graph, g': Graph, r: nat)
    requires Improves(g, g', r) && Indexed(w, g) && Indexed(w, g') && SettledBelow(w, g, r)
    ensures SettledBelow(w, g', r) && |g.states| <= |g'.states|
  {
    forall i {:trigger Settled(w, g', i)} | 0 <= i < |g'.states| && g'.info[i].length < r ensures Settled(w, g', i) {
      SettledStays(w, g, g', r, i);
    }
  }

  lemma RoundDone(w: World, g: Graph, r: nat, frontier: seq<nat>)
    requires |g.info| == |g.states| && SettledBelow(w, g, r)
    requires forall l :: 0 <= l < |frontier| ==> Settled(w, g, frontier[l])
    requires forall j :: j in frontier <==> 0 <= j < |g.info| && g.info[j].length == r
    ensures SettledBelow(w, g, r + 1)
  {
    forall i {:trigger Settled(w, g, i)} | 0 <= i < |g.states| && g.info[i].length < r + 1 ensures Settled(w, g, i) {
      if g.info[i].length == r {
        assert i in frontier;
      }
    }
  }

  /** Every root path of at most `rounds` batches ends in a recorded state, and what is
      recorded there are length, passes, certified batches and ids of a route to the
      same hash that this path does not beat. */
  ghost predicate PathsLeast(w: World, root: Ir, g: Graph, rounds: nat) {
    forall path :: |path| <= rounds && RunPath(w, root, path).Some? ==>
      exists route :: RouteRecorded(w, root, g, path, route)
  }

  ghost predicate RouteRecorded(w: World, root: Ir, g: Graph, path: seq<Candidate>, route: seq<Candidate>) {
    && RunPath(w, root, path).Some?
    && var h := w.stateHash(RunPath(w, root, path).value);
       && OutcomeHash(w, RunPath(w, root, route)) == Some(h)
       && h in g.byHash && g.byHash[h] < |g.info|
       && g.info[g.byHash[h]] == PathInfo(|route|, |Flatten(route)|, |CertifiedOf(route)|, Ids(route))
       && NoBetter(path, route)
  }

  ghost predicate PathRecorded(w: World, root: Ir, g: Graph, path: seq<Candidate>)
    requires RunPath(w, root, path).Some?
  {
    var h := w.stateHash(RunPath(w, root, path).value);
    h in g.byHash && g.byHash[h] < |g.info| && !Better(Key(path), g.info[g.byHash[h]])
  }

  /** If all states below a length are settled, the recorded routes are least. */
  lemma LeastRoute(w: World, root: Ir, g: Graph, rounds: nat, path: seq<Candidate>) returns (route: seq<Candidate>)
    requires HashRespected(w) && Valid(w, root, g) && SettledBelow(w, g, rounds)
    requires |path| <= rounds && RunPath(w, root, path).Some?
    ensures RouteRecorded(w, root, g, path, route)
  {
    hide Better, NoBetter, SettledBelow;
    SettledMeansLeast(w, root, g, rounds, path);
    var i := g.byHash[w.stateHash(RunPath(w, root, path).value)];
    assert RouteExists(w, g, i);
    route :| IsRoute(w, g, i, route);
    KeyMeans(route);
    BetterMeans(path, route);
  }

  lemma {:induction false} SettledMeansLeast(w: World, root: Ir, g: Graph, rounds: nat, path: seq<Candidate>)
    requires HashRespected(w) && Valid(w, root, g) && SettledBelow(w, g, rounds)
    requires |path| <= rounds && RunPath(w, root, path).Some?
    ensures PathRecorded(w, root, g, path)
  {
    if path == [] {
      BetterIrreflexive(RootInfo);
    } else {
      var init, c := path[..|path| - 1], path[|path| - 1];
      assert path == init + [c];
      SettledMeansLeast(w, root, g, rounds, init);
      var x := RunPath(w, root, init).value;
      var i := g.byHash[w.stateHash(x)];
      OrdersRespectHash(w, c.order, x, g.states[i]);
      var h := w.stateHash(RunPath(w, root, path).value);
      assert Moves(w, g.states[i], c, h);
      assert Settled(w, g, i);
      assert SettledBy(g, i, c, h);
      KeyBatches(init);
      RecordedBatches(w, root, g, i);
      KeyAppend(init, c);
      ExtendMonotone(Key(init), g.info[i], c);
      BetterNegativelyTransitive(Key(path), Extend(g.info[i], c), g.info[g.byHash[h]]);
    }
  }

  lemma RecordedBatches(w: World, root: Ir, g: Graph, i: nat)
    requires Valid(w, root, g) && i < |g.states|
    ensures |g.info[i].batches| == g.info[i].length
  {
    assert RouteExists(w, g, i);
    var path :| IsRoute(w, g, i, path);
    KeyBatches(path);
  }

  /** All states with paths shorter than `r` had complete evidence. */
  ghost predicate CompleteBelow(w: World, g: Graph, r: nat) {
    forall i :: 0 <= i < |g.info| && g.info[i].length < r ==> i < |g.states| && !IncompleteAt(w, g, i)
  }

  ghost predicate LengthsWithin(g: Graph, n: nat) {
    forall j :: 0 <= j < |g.info| ==> g.info[j].length <= n
  }

  ghost predicate SomeIncomplete(w: World, g: Graph) {
    exists i :: 0 <= i < |g.states| && IncompleteAt(w, g, i)
  }

  lemma EvidenceAfterRound(w: World, root: Ir, g: Graph, g': Graph, r: nat, frontier: seq<nat>, incomplete: bool,
                           maxStates: int)
    requires InRound(w, root, g, r, frontier, []) && Improves(g, g', r)
    requires incomplete ==>
              (exists i :: i in frontier && i < |g.states| && IncompleteAt(w, g, i)) || |g'.states| >= maxStates
    requires !incomplete ==> forall i :: i in frontier ==> i < |g.states| && !IncompleteAt(w, g, i)
    ensures CompleteBelow(w, g, r) ==> CompleteBelow(w, g', r)
    ensures !incomplete && CompleteBelow(w, g, r) ==> CompleteBelow(w, g', r + 1)
    ensures SomeIncomplete(w, g) ==> SomeIncomplete(w, g')
    ensures |g.states| >= maxStates ==> |g'.states| >= maxStates
    ensures incomplete ==> SomeIncomplete(w, g') || |g'.states| >= maxStates
  {
    hide Valid, Fresh, Better;
    if SomeIncomplete(w, g) {
      var i :| 0 <= i < |g.states| && IncompleteAt(w, g, i);
      assert IncompleteAt(w, g', i);
    }
    if incomplete && |g'.states| < maxStates {
      var i :| i in frontier && i < |g.states| && IncompleteAt(w, g, i);
      assert IncompleteAt(w, g', i);
    }
    if CompleteBelow(w, g, r) {
      forall i | 0 <= i < |g'.info| && g'.info[i].length < r ensures i < |g'.states| && !IncompleteAt(w, g', i) {
        assert g'.states[i] == g.states[i];
      }
    }
    if !incomplete && CompleteBelow(w, g, r) {
      forall i | 0 <= i < |g'.info| && g'.info[i].length < r + 1 ensures i < |g'.states| && !IncompleteAt(w, g', i) {
        if g.info[i].length == r { assert i in frontier; }
        assert g'.states[i] == g.states[i];
      }
    }
  }

  /** Every executable batch of every expanded state led to a recorded state. */
  ghost predicate AllApplied(w: World, g: Graph, rounds: nat) {
    forall i, c ::
      0 <= i < |g.info| && g.info[i].length < rounds && i < |g.states| && Executable(w.analyse(g.states[i]), c) ==>
      HasChild(w, g, i, c)
  }

  /** Every executable batch of every expanded state can be applied there. */
  ghost predicate AllApply(w: World, g: Graph, rounds: nat) {
    forall i, c ::
      0 <= i < |g.info| && g.info[i].length < rounds && i < |g.states| && Executable(w.analyse(g.states[i]), c) ==>
      w.Run(c.order, g.states[i]).Some?
  }

  lemma SettledAppliesWhatApplies(w: World, g: Graph, rounds: nat)
    requires |g.info| == |g.states| && SettledBelow(w, g, rounds)
    ensures AllApplied(w, g, rounds) <==> AllApply(w, g, rounds)
  {
    if AllApply(w, g, rounds) {
      forall i, c | 0 <= i < |g.info| && g.info[i].length < rounds && Executable(w.analyse(g.states[i]), c)
        ensures HasChild(w, g, i, c)
      {
        var y := w.Run(c.order, g.states[i]).value;
        assert Settled(w, g, i) && Moves(w, g.states[i], c, w.stateHash(y));
        assert SettledBy(g, i, c, w.stateHash(y));
      }
    }
    if AllApplied(w, g, rounds) {
      forall i, c | 0 <= i < |g.info| && g.info[i].length < rounds && Executable(w.analyse(g.states[i]), c)
        ensures w.Run(c.order, g.states[i]).Some?
      {
        assert HasChild(w, g, i, c);
      }
    }
  }

  /** `_run_exact`. */
  method RunExact(w: World, root: Ir, maxRounds: nat, maxStates: int, failOnIncomplete: bool)
    returns (g: Graph, status: ExactStatus, selected: nat)
    requires QuietStatesHaveNoBatches(w)
    ensures Valid(w, root, g) && Fresh(g)
    ensures LengthsWithin(g, maxRounds)
    ensures |g.states| <= if maxStates > 1 then maxStates else 1
    ensures status == ExactComplete && HashRespected(w) ==> PathsLeast(w, root, g, maxRounds)
    // batches that fail to apply are passed over, so the claim covers the rest
    ensures status == ExactComplete ==> (AllApplied(w, g, maxRounds) <==> AllApply(w, g, maxRounds))
    // the claim is made exactly when all expanded states had complete evidence and the cap did not interfere
    ensures status == ExactComplete ==> CompleteBelow(w, g, maxRounds)
    ensures status != ExactComplete ==> SomeIncomplete(w, g) || |g.states| >= maxStates
    ensures IsChosen(w, g, Below(|g.states|), selected)
    // the search goes on after incomplete evidence only if it may; else it stops in that round
    ensures status == ExactIncompleteContinued <==> status != ExactComplete && !failOnIncomplete
    ensures status == ExactIncomplete ==>
              exists r :: 0 <= r < maxRounds && CompleteBelow(w, g, r) && LengthsWithin(g, r + 1)
  {
    hide Valid, Fresh, SettledBelow, IsChosen, Improves, Better, AllApplied, AllApply, PathsLeast, HashRespected,
         CompleteBelow, SomeIncomplete, LengthsWithin, InRound;
    g := InitialGraph(w, root);
    InitialInRound(w, root);
    var frontier, incomplete, stop := [0], false, false;
    var round := 0;
    while round < maxRounds && !stop
      invariant 0 <= round <= maxRounds && Indexed(w, g)
      invariant !stop ==> InRound(w, root, g, round, frontier, []) && SettledBelow(w, g, round)
      invariant Valid(w, root, g) && Fresh(g)
      invariant LengthsWithin(g, round)
      invariant |g.states| <= 1 || |g.states| <= maxStates
      invariant stop ==> incomplete
      invariant failOnIncomplete && incomplete ==> stop
      invariant failOnIncomplete && stop ==> 0 < round && CompleteBelow(w, g, round - 1)
      invariant !incomplete ==> CompleteBelow(w, g, round)
      invariant incomplete ==> SomeIncomplete(w, g) || |g.states| >= maxStates
      decreases maxRounds - round, !stop
    {
      var inRound;
      ghost var before, oldFrontier := g, frontier;
      g, frontier, stop, inRound := ExpandRound(w, root, g, round, frontier, maxStates, failOnIncomplete);
      EvidenceAfterRound(w, root, before, g, round, oldFrontier, inRound, maxStates);
      incomplete := incomplete || inRound;
      NextRoundStarts(w, root, g, round, frontier);
      round := round + 1;
    }
    status :=
      if !incomplete then ExactComplete
      else if !failOnIncomplete then ExactIncompleteContinued
      else ExactIncomplete;
    if status == ExactComplete {
      CompleteClaims(w, root, g, maxRounds);
    }
    if status == ExactIncomplete {
      assert CompleteBelow(w, g, round - 1) && LengthsWithin(g, round);
    }
    LongerBound(g, round, maxRounds);
    selected := SelectBestState(w, g);
  }

  lemma LongerBound(g: Graph, m: nat, n: nat)
    requires m <= n && LengthsWithin(g, m)
    ensures LengthsWithin(g, n)
  {
  }

  lemma CompleteClaims(w: World, root: Ir, g: Graph, rounds: nat)
    requires Valid(w, root, g) && SettledBelow(w, g, rounds)
    ensures HashRespected(w) ==> PathsLeast(w, root, g, rounds)
    ensures AllApplied(w, g, rounds) <==> AllApply(w, g, rounds)
  {
    hide Valid, SettledBelow, HashRespected, AllApplied, AllApply, RouteRecorded;
    assert |g.info| == |g.states| by { ValidShape(w, root, g); }
    SettledAppliesWhatApplies(w, g, rounds);
    if HashRespected(w) {
      forall path | |path| <= rounds && RunPath(w, root, path).Some?
        ensures exists route :: RouteRecorded(w, root, g, path, route)
      {
        var route := LeastRoute(w, root, g, rounds, path);
      }
    }
  }

  lemma ValidShape(w: World, root: Ir, g: Graph)
    requires Valid(w, root, g)
    ensures |g.info| == |g.states| > 0
  {
  }

  /** `_select_best_state`, over all recorded states. */
  method SelectBestState(w: World, g: Graph) returns (selected: nat)
    requires |g.info| == |g.states| > 0
    ensures IsChosen(w, g, Below(|g.states|), selected)
  {
    hide IsChosen;
    var all: seq<nat> := seq(|g.states|, i => i);
    forall i: nat ensures i in ToSet(all) <==> i in Below(|g.states|) {
      if i < |g.states| { assert all[i] == i; }
    }
    assert ToSet(all) == Below(|g.states|);
    selected := SelectBest(w, g, all);
  }

  lemma InitialInRound(w: World, root: Ir)
    ensures var g := InitialGraph(w, root);
            && InRound(w, root, g, 0, [0], []) && SettledBelow(w, g, 0)
            && Indexed(w, g) && Valid(w, root, g) && Fresh(g)
            && LengthsWithin(g, 0) && CompleteBelow(w, g, 0) && |g.states| == 1
  {
    InitialValid(w, root);
  }

  lemma NextRoundStarts(w: World, root: Ir, g: Graph, r: nat, next: seq<nat>)
    requires exists frontier :: InRound(w, root, g, r, frontier, next)
    ensures InRound(w, root, g, r + 1, next, []) && Indexed(w, g) && Valid(w, root, g) && Fresh(g)
    ensures LengthsWithin(g, r + 1)
  {
  }
}
