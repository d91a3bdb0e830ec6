/** One window of `_run_rolling_exact`: complete expansion for a few layers, and the
    bounded frontier it leaves for the next window. */
module RollingWindows {
  import opened Basics
  import opened BatchCorrectness
  import opened Toolchains
  import opened NodeNames
  import opened StateGraphs
  import opened FrontierSelection

  datatype Config = Config(
    windowDepth: nat, frontierWidth: nat, maxWindows: nat, maxStates: int, failOnIncomplete: bool)
  {
    /** What the optimizer rejects at its entry. */
    predicate Accepted() {
      windowDepth >= 1 && frontierWidth >= 1
    }

    function StateBound(): nat {
      if maxStates > 1 then maxStates else 1
    }

    /** The configurations under which the search ends on every world. */
    predicate AlwaysEnds() {
      failOnIncomplete || maxWindows > 0 || StateBound() <= windowDepth
    }
  }

  /** The variables of the search. `incomplete` says that some incompleteness
      reason was recorded; `expansions` are the expansion events, in order. */
  datatype Rolling = Rolling(
    g: Graph, fullyExpanded: set<nat>, closed: set<nat>, pruned: set<nat>,
    incomplete: bool, continued: bool, expansions: seq<nat>)

  /** Every executable batch of state `i` was applied. */
  ghost predicate Finished(w: World, g: Graph, i: nat) {
    i < |g.states| && forall c :: Executable(w.analyse(g.states[i]), c) ==> HasChild(w, g, i, c)
  }

  ghost predicate Quiet(w: World, g: Graph, i: nat) {
    i < |g.states| && w.analyse(g.states[i]).activePasses == 0
  }

  /** What the search may call incomplete: evidence that is not complete, an
      executable batch that fails to apply, or the state cap. */
  ghost predicate Blamed(w: World, cfg: Config, g: Graph) {
    |g.states| >= cfg.maxStates || exists i :: 0 <= i < |g.states| && Blocked(w, g.states[i])
  }

  ghost predicate Blocked(w: World, x: Ir) {
    w.analyse(x).incomplete || exists c :: Executable(w.analyse(x), c) && w.Run(c.order, x).None?
  }

  lemma BlameStays(w: World, cfg: Config, g: Graph, g': Graph)
    requires Blamed(w, cfg, g) && g.states <= g'.states
    ensures Blamed(w, cfg, g')
  {
    if |g.states| < cfg.maxStates {
      var i :| 0 <= i < |g.states| && Blocked(w, g.states[i]);
      assert Blocked(w, g'.states[i]);
    }
  }

  lemma CapBlamed(w: World, cfg: Config, g: Graph)
    requires |g.states| >= cfg.maxStates
    ensures Blamed(w, cfg, g)
  {
  }

  lemma FailedBatchBlamed(w: World, cfg: Config, g: Graph, parent: nat, c: Candidate)
    requires parent < |g.states| && Executable(w.analyse(g.states[parent]), c)
    requires w.Run(c.order, g.states[parent]).None?
    ensures Blamed(w, cfg, g)
  {
    assert Blocked(w, g.states[parent]);
  }

  lemma IncompleteBlamed(w: World, cfg: Config, g: Graph, parent: nat)
    requires parent < |g.states| && w.analyse(g.states[parent]).incomplete
    ensures Blamed(w, cfg, g)
  {
    assert Blocked(w, g.states[parent]);
  }

  ghost predicate Sane(w: World, root: Ir, cfg: Config, s: Rolling) {
    && (s.incomplete ==> Blamed(w, cfg, s.g)) && (s.continued ==> s.incomplete && !cfg.failOnIncomplete)
    && (s.incomplete ==> s.continued || cfg.failOnIncomplete || |s.g.states| >= cfg.maxStates)
    && Indexed(w, s.g) && Valid(w, root, s.g) && |s.g.states| <= cfg.StateBound()
    && (forall i :: i in s.fullyExpanded ==> Finished(w, s.g, i))
    && (!s.incomplete ==> forall i :: i in s.fullyExpanded ==> i < |s.g.states| && !w.analyse(s.g.states[i]).incomplete)
    && (forall i :: i in s.closed ==> i < |s.g.states|)
    && (forall i :: i in s.pruned ==> i < |s.g.states|)
    && (forall i :: i in s.expansions ==> i < |s.g.states|)
  }

  /** Nothing is lost from `s` to `s'`. */
  ghost predicate Grows(s: Rolling, s': Rolling) {
    && s.g.states <= s'.g.states
    && (forall h :: h in s.g.byHash ==> h in s'.g.byHash && s'.g.byHash[h] == s.g.byHash[h])
    && s.fullyExpanded <= s'.fullyExpanded && s.closed <= s'.closed && s.pruned == s'.pruned
    && s.expansions <= s'.expansions
    && (s.incomplete ==> s'.incomplete) && (s.continued ==> s'.continued)
  }

  lemma GrowsTransitive(a: Rolling, b: Rolling, c: Rolling)
    requires Grows(a, b) && Grows(b, c)
    ensures Grows(a, c)
  {
  }

  lemma FinishedStays(w: World, g: Graph, g': Graph, i: nat)
    requires Finished(w, g, i) && g.states <= g'.states
    requires forall h :: h in g.byHash ==> h in g'.byHash
    ensures Finished(w, g', i)
  {
    forall c | Executable(w.analyse(g'.states[i]), c) ensures HasChild(w, g', i, c) {
      assert HasChild(w, g, i, c);
    }
  }

  ghost predicate AllBatchesApply(w: World) {
    forall x, c :: Executable(w.analyse(x), c) ==> w.Run(c.order, x).Some?
  }

  /** Either incompleteness stops the search, or executable batches never fail. */
  ghost predicate Progresses(w: World, cfg: Config) {
    cfg.failOnIncomplete || AllBatchesApply(w)
  }

  /** The expansion events against the fully expanded set: a state counts as fully
      expanded only after its event; where nothing was incomplete, or where the
      search progresses, every event has fully expanded its state, and then no
      state has two events. */
  ghost predicate Logged(w: World, cfg: Config, s: Rolling) {
    && s.fullyExpanded <= ToSet(s.expansions)
    && (Progresses(w, cfg) || !s.incomplete ==> ToSet(s.expansions) <= s.fullyExpanded)
    && (Progresses(w, cfg) ==> Distinct(s.expansions))
  }

  /** No state gets lost: each was expanded or pruned, is still to be looked at,
      or has no active pass. */
  ghost predicate Accounted(w: World, s: Rolling, open: set<nat>) {
    forall i {:trigger Placed(w, s, open, i)} :: 0 <= i < |s.g.states| ==> Placed(w, s, open, i)
  }

  ghost predicate Placed(w: World, s: Rolling, open: set<nat>, i: nat) {
    i in s.expansions || i in s.pruned || i in open || Quiet(w, s.g, i)
  }

  lemma StillAccounted(w: World, s: Rolling, s': Rolling, open: set<nat>, open': set<nat>)
    requires Accounted(w, s, open)
    requires s.g.states <= s'.g.states && s.pruned <= s'.pruned && s.expansions <= s'.expansions
    requires forall i :: i in open ==> i in open' || i in s'.expansions || i in s'.pruned || Quiet(w, s'.g, i)
    requires forall i :: |s.g.states| <= i < |s'.g.states| ==> i in open'
    ensures Accounted(w, s', open')
  {
    forall i | 0 <= i < |s'.g.states| ensures Placed(w, s', open', i) {
      if i < |s.g.states| {
        assert Placed(w, s, open, i);
      }
    }
  }

  // ------------------------------------------------------------ one batch

  /** No state was added, or the single state `id`. */
  predicate OnlyNew(s: Rolling, s': Rolling, id: nat) {
    |s'.g.states| <= |s.g.states| || (|s'.g.states| == |s.g.states| + 1 && id == |s.g.states|)
  }

  /** Record a child: a known state is relaxed, a new one is discovered. */
  method Record(w: World, root: Ir, cfg: Config, s: Rolling, parent: nat, c: Candidate, child: Ir)
    returns (s': Rolling, id: nat, capped: bool)
    requires Sane(w, root, cfg, s) && parent < |s.g.states| && Executable(w.analyse(s.g.states[parent]), c)
    requires w.Run(c.order, s.g.states[parent]) == Some(child)
    ensures Sane(w, root, cfg, s') && Grows(s, s')
    ensures s' == s.(g := s'.g, incomplete := s'.incomplete)
    ensures capped ==>
              s' == s.(incomplete := true) && |s.g.states| >= cfg.maxStates && w.stateHash(child) !in s.g.byHash
    ensures !capped ==>
              && s'.incomplete == s.incomplete
              && w.stateHash(child) in s'.g.byHash && s'.g.byHash[w.stateHash(child)] == id && id < |s'.g.states|
              && OnlyNew(s, s', id)
  {
    hide Blamed, Valid, Executable, Better;
    var hash := w.stateHash(child);
    var info, edge := Extend(s.g.info[parent], c), Edge(parent, c);
    MoveOf(w, s.g, parent, c, child);
    if hash in s.g.byHash {
      id, capped := s.g.byHash[hash], false;
      RelaxKeepsValid(w, root, s.g, parent, c, id);
      s' := s.(g := Relax(s.g, id, info, edge));
      KeepsSane(w, root, cfg, s, s');
    } else if |s.g.states| >= cfg.maxStates {
      CapBlamed(w, cfg, s.g);
      s', id, capped := s.(incomplete := true), 0, true;
    } else {
      DiscoverKeepsValid(w, root, s.g, parent, c, child);
      id, capped := |s.g.states|, false;
      s' := s.(g := Discover(w, s.g, child, info, edge));
      KeepsSane(w, root, cfg, s, s');
    }
  }

  lemma MoveOf(w: World, g: Graph, parent: nat, c: Candidate, child: Ir)
    requires parent < |g.states| && Executable(w.analyse(g.states[parent]), c)
    requires w.Run(c.order, g.states[parent]) == Some(child)
    ensures Moves(w, g.states[parent], c, w.stateHash(child))
  {
  }

  lemma KeepsSane(w: World, root: Ir, cfg: Config, s: Rolling, s': Rolling)
    requires Sane(w, root, cfg, s) && s' == s.(g := s'.g) && Valid(w, root, s'.g)
    requires s.g.states <= s'.g.states && |s'.g.states| <= cfg.StateBound()
    requires forall h :: h in s.g.byHash ==> h in s'.g.byHash && s'.g.byHash[h] == s.g.byHash[h]
    ensures Sane(w, root, cfg, s') && Grows(s, s')
  {
    forall i | i in s'.fullyExpanded ensures Finished(w, s'.g, i) {
      FinishedStays(w, s.g, s'.g, i);
    }
    ValidIsIndexed(w, root, s'.g);
    if s.incomplete { BlameStays(w, cfg, s.g, s'.g); }
  }

  lemma ValidIsIndexed(w: World, root: Ir, g: Graph)
    requires Valid(w, root, g)
    ensures Indexed(w, g)
  {
  }

  /** Where the child of an applied batch ends up. */
  ghost predicate Followed(w: World, s: Rolling, seen: set<nat>, next: seq<nat>, i: nat, c: Candidate)
    requires i < |s.g.states|
  {
    && HasChild(w, s.g, i, c)
    && var id := s.g.byHash[w.stateHash(w.Run(c.order, s.g.states[i]).value)];
       id in next || id in s.fullyExpanded || id in seen
  }

  /** All batches of state `i` that apply were followed. */
  ghost predicate Pursued(w: World, s: Rolling, seen: set<nat>, next: seq<nat>, i: nat) {
    && i < |s.g.states|
    && forall c :: Executable(w.analyse(s.g.states[i]), c) ==>
         w.Run(c.order, s.g.states[i]).None? || Followed(w, s, seen, next, i, c)
  }

  /** A batch takes state `a` to state `b`. */
  ghost predicate IsChild(w: World, g: Graph, a: nat, b: nat) {
    a < |g.states| && b < |g.states| && exists c :: Moves(w, g.states[a], c, w.stateHash(g.states[b]))
  }

  /** From `next` to `next'` only unseen children of `parent` were added. */
  ghost predicate OnlyChildren(w: World, g: Graph, seen: set<nat>, next: seq<nat>, next': seq<nat>, parent: nat) {
    forall b :: b in next' ==> b in next || (b !in seen && IsChild(w, g, parent, b))
  }

  lemma ChildStays(w: World, g: Graph, g': Graph, a: nat, b: nat)
    requires g.states <= g'.states && IsChild(w, g, a, b)
    ensures IsChild(w, g', a, b)
  {
  }

  lemma ChildrenStay(w: World, s: Rolling, s': Rolling, seen: set<nat>, next: seq<nat>, between: seq<nat>,
                     next': seq<nat>, parent: nat)
    requires Grows(s, s') && OnlyChildren(w, s.g, seen, next, between, parent)
    requires OnlyChildren(w, s'.g, seen, between, next', parent)
    ensures OnlyChildren(w, s'.g, seen, next, next', parent)
  {
    forall b | b in next' && b !in next ensures b !in seen && IsChild(w, s'.g, parent, b) {
      if b in between { ChildStays(w, s.g, s'.g, parent, b); }
    }
  }

  lemma RecordedIsChild(w: World, g: Graph, parent: nat, c: Candidate, child: Ir, id: nat)
    requires Indexed(w, g) && parent < |g.states| && Executable(w.analyse(g.states[parent]), c)
    requires w.Run(c.order, g.states[parent]) == Some(child)
    requires w.stateHash(child) in g.byHash && g.byHash[w.stateHash(child)] == id && id < |g.states|
    ensures IsChild(w, g, parent, id)
  {
    assert Moves(w, g.states[parent], c, w.stateHash(g.states[id]));
  }

  /** The state cap is reached and this batch leads to a new state. */
  ghost predicate Capped(w: World, cfg: Config, g: Graph, parent: nat, c: Candidate) {
    && parent < |g.states| && |g.states| >= cfg.maxStates && Executable(w.analyse(g.states[parent]), c)
    && match w.Run(c.order, g.states[parent])
       case None => false
       case Some(y) => w.stateHash(y) !in g.byHash
  }

  method ApplyBatch(w: World, root: Ir, cfg: Config, s: Rolling, seen: set<nat>, next: seq<nat>, parent: nat,
                    c: Candidate, ghost rest: set<nat>)
    returns (s': Rolling, next': seq<nat>, stop: bool, applied: bool)
    requires Sane(w, root, cfg, s) && parent < |s.g.states| && Executable(w.analyse(s.g.states[parent]), c)
    requires s.fullyExpanded + seen <= ToSet(s.expansions)
    requires Accounted(w, s, rest + ToSet(next)) && forall i :: i in next ==> i < |s.g.states|
    ensures Sane(w, root, cfg, s') && Grows(s, s') && s'.fullyExpanded == s.fullyExpanded
            && s'.expansions == s.expansions
    ensures next <= next' && forall i :: i in next' ==> i < |s'.g.states|
    ensures OnlyChildren(w, s'.g, seen, next, next', parent)
    ensures Accounted(w, s', rest + ToSet(next'))
    ensures applied ==> Followed(w, s', seen, next', parent, c) && s'.incomplete == s.incomplete
    ensures !applied ==> s'.incomplete
    ensures stop ==> !applied && (cfg.failOnIncomplete || Capped(w, cfg, s'.g, parent, c))
    ensures !stop && Progresses(w, cfg) ==> applied
    ensures !applied && !stop ==> w.Run(c.order, s.g.states[parent]).None?
  {
    hide Blamed, Valid, Better, Executable, Finished, Indexed, Quiet, Accounted, IsChild;
    next', stop, applied := next, false, false;
    var result := w.Run(c.order, s.g.states[parent]);
    if result.None? {
      s' := s.(incomplete := true, continued := s.continued || !cfg.failOnIncomplete);
      FailedBatchBlamed(w, cfg, s.g, parent, c);
      StillAccounted(w, s, s', rest + ToSet(next), rest + ToSet(next));
      stop := cfg.failOnIncomplete;
      return;
    }
    var id, capped;
    s', id, capped := Record(w, root, cfg, s, parent, c, result.value);
    if capped {
      stop := true;
      StillAccounted(w, s, s', rest + ToSet(next), rest + ToSet(next));
      return;
    }
    applied := true;
    if id in s'.fullyExpanded || id in seen {
      assert id in s.expansions && id < |s.g.states|;
      s' := s'.(closed := s'.closed + {id});
    } else if id !in next' {
      RecordedIsChild(w, s'.g, parent, c, result.value, id);
      next' := next' + [id];
    }
    StillAccounted(w, s, s', rest + ToSet(next), rest + ToSet(next'));
  }

  // ----------------------------------------------------------- one parent

  method ApplyBatches(w: World, root: Ir, cfg: Config, s: Rolling, seen: set<nat>, next: seq<nat>, parent: nat,
                      ghost rest: set<nat>)
    returns (s': Rolling, next': seq<nat>, stop: bool, complete: bool)
    requires Sane(w, root, cfg, s) && parent < |s.g.states|
    requires s.fullyExpanded + seen <= ToSet(s.expansions)
    requires Accounted(w, s, rest + ToSet(next)) && forall i :: i in next ==> i < |s.g.states|
    ensures Sane(w, root, cfg, s') && Grows(s, s') && s'.fullyExpanded == s.fullyExpanded
            && s'.expansions == s.expansions
    ensures next <= next' && forall i :: i in next' ==> i < |s'.g.states|
    ensures OnlyChildren(w, s'.g, seen, next, next', parent)
    ensures Accounted(w, s', rest + ToSet(next'))
    ensures complete && !stop ==> Finished(w, s'.g, parent) && s'.incomplete == s.incomplete
    ensures !stop ==> Pursued(w, s', seen, next', parent)
    ensures stop ==> s'.incomplete && (cfg.failOnIncomplete || exists c :: Capped(w, cfg, s'.g, parent, c))
    ensures !complete ==> s'.incomplete && (Progresses(w, cfg) ==> stop)
  {
    hide Blamed, Valid, Better, Indexed, Quiet, Accounted, Followed, Sane, Finished, IsChild, OnlyChildren;
    NoChildren(w, s.g, seen, next, parent);
    s', next', stop, complete := s, next, false, true;
    var candidates := w.analyse(s.g.states[parent]).candidates;
    for k := 0 to |candidates|
      invariant Sane(w, root, cfg, s') && Grows(s, s') && s'.fullyExpanded == s.fullyExpanded
                && s'.expansions == s.expansions
      invariant (forall i :: i in next' ==> i < |s'.g.states|) && next <= next'
      invariant OnlyChildren(w, s'.g, seen, next, next', parent)
      invariant Accounted(w, s', rest + ToSet(next'))
      invariant !complete ==> s'.incomplete && !Progresses(w, cfg)
      invariant complete ==> s'.incomplete == s.incomplete
      invariant forall l :: 0 <= l < k && Executable(w.analyse(s.g.states[parent]), candidates[l]) ==>
                  (|| (!complete && w.Run(candidates[l].order, s.g.states[parent]).None?)
                   || Followed(w, s', seen, next', parent, candidates[l]))
    {
      var c := candidates[k];
      if !Executable(w.analyse(s.g.states[parent]), c) {
        continue;
      }
      ghost var before, beforeNext := s', next';
      var applied;
      s', next', stop, applied := ApplyBatch(w, root, cfg, s', seen, next', parent, c, rest);
      GrowsTransitive(s, before, s');
      ChildrenStay(w, before, s', seen, next, beforeNext, next', parent);
      if !applied {
        complete := false;
      }
      if stop {
        return;
      }
      forall l | 0 <= l < k && Executable(w.analyse(s.g.states[parent]), candidates[l])
                 && Followed(w, before, seen, beforeNext, parent, candidates[l])
        ensures Followed(w, s', seen, next', parent, candidates[l])
      {
        FollowedStays(w, before, s', seen, beforeNext, next', parent, candidates[l]);
      }
    }
    AllFollowed(w, s, s', seen, next', parent, candidates, complete);
  }

  lemma NoChildren(w: World, g: Graph, seen: set<nat>, next: seq<nat>, parent: nat)
    ensures OnlyChildren(w, g, seen, next, next, parent)
  {
  }

  lemma FollowedStays(w: World, s: Rolling, s': Rolling, seen: set<nat>, next: seq<nat>, next': seq<nat>, i: nat,
                      c: Candidate)
    requires i < |s.g.states| && Grows(s, s') && next <= next' && Followed(w, s, seen, next, i, c)
    ensures Followed(w, s', seen, next', i, c)
  {
  }

  lemma AllFollowed(w: World, s: Rolling, s': Rolling, seen: set<nat>, next: seq<nat>, parent: nat,
                    candidates: seq<Candidate>, complete: bool)
    requires parent < |s.g.states| && Grows(s, s') && candidates == w.analyse(s.g.states[parent]).candidates
    requires forall l :: 0 <= l < |candidates| && Executable(w.analyse(s.g.states[parent]), candidates[l]) ==>
               (|| (!complete && w.Run(candidates[l].order, s.g.states[parent]).None?)
                || Followed(w, s', seen, next, parent, candidates[l]))
    ensures complete ==> Finished(w, s'.g, parent)
    ensures Pursued(w, s', seen, next, parent)
  {
    forall c | Executable(w.analyse(s.g.states[parent]), c)
      ensures (|| (!complete && w.Run(c.order, s.g.states[parent]).None?)
               || Followed(w, s', seen, next, parent, c))
    {
      var l :| 0 <= l < |candidates| && candidates[l] == c;
    }
    if complete {
      forall c | Executable(w.analyse(s'.g.states[parent]), c) ensures HasChild(w, s'.g, parent, c) {
        assert Followed(w, s', seen, next, parent, c);
      }
    }
  }

  /** Build, validate and classify the batches of a state, then apply them. */
  method ExpandParent(w: World, root: Ir, cfg: Config, s: Rolling, seen: set<nat>, next: seq<nat>, parent: nat,
                      ghost rest: set<nat>)
    returns (s': Rolling, next': seq<nat>, stop: bool)
    requires QuietStatesHaveNoBatches(w) && Sane(w, root, cfg, s) && parent < |s.g.states|
    requires s.fullyExpanded + seen <= ToSet(s.expansions)
    requires Accounted(w, s, rest + ToSet(next)) && forall i :: i in next ==> i < |s.g.states|
    ensures Sane(w, root, cfg, s') && Grows(s, s') && s'.expansions == s.expansions
    ensures s'.fullyExpanded <= s.fullyExpanded + {parent}
    ensures next <= next' && forall i :: i in next' ==> i < |s'.g.states|
    ensures OnlyChildren(w, s'.g, seen, next, next', parent)
    ensures Accounted(w, s', rest + ToSet(next'))
    ensures !stop && (Progresses(w, cfg) || !s'.incomplete) ==> parent in s'.fullyExpanded
    ensures stop ==> s'.incomplete && (cfg.failOnIncomplete || exists c :: Capped(w, cfg, s'.g, parent, c))
    ensures !stop ==> parent in s'.fullyExpanded || Pursued(w, s', seen, next', parent)
  {
    hide Blamed, Valid, Better, Indexed, Pursued, Accounted, Executable, Quiet, Sane, Finished, OnlyChildren;
    s', next', stop := s, next, false;
    NoChildren(w, s.g, seen, next, parent);
    var analysis := w.analyse(s.g.states[parent]);
    if analysis.incomplete {
      s' := s'.(incomplete := true, continued := s.continued || !cfg.failOnIncomplete);
      EvidenceIncomplete(w, root, cfg, s, s', parent);
      StillAccounted(w, s, s', rest + ToSet(next), rest + ToSet(next));
      if cfg.failOnIncomplete {
        return s', next', true;
      }
    }
    NothingToApply(w, s'.g, parent);
    ghost var before := s';
    if analysis.activePasses == 0 || !exists c :: c in analysis.candidates && Executable(analysis, c) {
      s' := s'.(fullyExpanded := s'.fullyExpanded + {parent}, closed := s'.closed + {parent});
      MarkExpanded(w, root, cfg, before, s', parent);
      GrowsTransitive(s, before, s');
      StillAccounted(w, before, s', rest + ToSet(next), rest + ToSet(next));
      return;
    }
    var complete;
    s', next', stop, complete := ApplyBatches(w, root, cfg, s', seen, next, parent, rest);
    GrowsTransitive(s, before, s');
    if !stop && complete {
      ghost var applied := s';
      s' := s'.(fullyExpanded := s'.fullyExpanded + {parent});
      MarkExpanded(w, root, cfg, applied, s', parent);
      GrowsTransitive(s, applied, s');
      StillAccounted(w, applied, s', rest + ToSet(next'), rest + ToSet(next'));
    }
  }

  lemma EvidenceIncomplete(w: World, root: Ir, cfg: Config, s: Rolling, s': Rolling, parent: nat)
    requires Sane(w, root, cfg, s) && parent < |s.g.states| && w.analyse(s.g.states[parent]).incomplete
    requires s' == s.(incomplete := true, continued := s.continued || !cfg.failOnIncomplete)
    ensures Sane(w, root, cfg, s') && Grows(s, s')
  {
    hide Valid, Indexed, Finished, Blamed;
    IncompleteBlamed(w, cfg, s.g, parent);
  }

  lemma MarkExpanded(w: World, root: Ir, cfg: Config, s: Rolling, s': Rolling, parent: nat)
    requires Sane(w, root, cfg, s) && Finished(w, s.g, parent) && parent < |s.g.states|
    requires !s.incomplete ==> !w.analyse(s.g.states[parent]).incomplete
    requires s' == s.(fullyExpanded := s.fullyExpanded + {parent}, closed := s'.closed)
    requires s'.closed == s.closed || s'.closed == s.closed + {parent}
    ensures Sane(w, root, cfg, s') && Grows(s, s')
  {
    hide Valid, Indexed, Finished, Blamed;
  }

  lemma NothingToApply(w: World, g: Graph, i: nat)
    requires QuietStatesHaveNoBatches(w) && i < |g.states|
    ensures w.analyse(g.states[i]).activePasses == 0 ==> forall c :: !Executable(w.analyse(g.states[i]), c)
    ensures (forall c :: c in w.analyse(g.states[i]).candidates ==> !Executable(w.analyse(g.states[i]), c)) ==>
              forall c :: !Executable(w.analyse(g.states[i]), c)
    ensures (forall c :: !Executable(w.analyse(g.states[i]), c)) ==> Finished(w, g, i)
  {
  }

  // ------------------------------------------------------------ one layer

  method ExpandLayer(w: World, root: Ir, cfg: Config, s: Rolling, seen: set<nat>, layer: seq<nat>)
    returns (s': Rolling, seen': set<nat>, next: seq<nat>, stop: bool)
    requires QuietStatesHaveNoBatches(w) && Sane(w, root, cfg, s) && Logged(w, cfg, s)
    requires seen <= ToSet(s.expansions) && Accounted(w, s, ToSet(layer))
    requires forall i :: i in layer ==> i < |s.g.states|
    ensures Sane(w, root, cfg, s') && Grows(s, s')
    ensures stop ==> s'.incomplete && (cfg.failOnIncomplete || exists i, c :: Capped(w, cfg, s'.g, i, c))
    ensures Progresses(w, cfg) ==> Distinct(s'.expansions)
    ensures !stop ==>
              && Logged(w, cfg, s') && Accounted(w, s', ToSet(next)) && (forall i :: i in next ==> i < |s'.g.states|)
              && seen' <= ToSet(s'.expansions) && ToSet(layer) <= ToSet(s'.expansions)
    ensures !stop ==>
              && seen <= seen' <= seen + ToSet(layer)
              && Handled(w, s', seen, seen', next, layer) && ChildrenOf(w, s'.g, layer, next)
    // to lead on, a layer needs a new parent and one more unseen state
    ensures !stop && next != [] ==> |seen'| >= |seen| + 1 && |s'.g.states| >= |seen| + 2
  {
    hide Blamed, Valid, Better, Indexed, Pursued, Accounted, Finished, Capped, Distinct, Logged, Progresses, ToSet,
         Sane, LayerLeads, OnlyChildren;
    s', seen', next, stop := s, seen, [], false;
    LayerStarts(w, s, layer);
    NothingLeads(w, s, seen, layer);
    LogFacts(w, cfg, s);
    for k := 0 to |layer|
      invariant Sane(w, root, cfg, s') && Grows(s, s') && Logged(w, cfg, s')
      invariant Accounted(w, s', ToSet(layer[k..]) + ToSet(next)) && (forall i :: i in next ==> i < |s'.g.states|)
      invariant seen' <= ToSet(s'.expansions) && ToSet(layer[..k]) <= ToSet(s'.expansions)
      invariant LayerLeads(w, s', seen, seen', next, layer, k)
    {
      var parent := layer[k];
      assert parent in layer;
      OneLess(layer, k);
      LogFacts(w, cfg, s');
      ghost var before, beforeNext, beforeSeen := s', next, seen';
      if parent in seen' || parent in s'.fullyExpanded {
        if parent !in seen' {
          s' := s'.(closed := s'.closed + {parent});
        }
        SkipParent(w, root, cfg, before, s', layer, k, next);
        SkippedLeads(w, before, s', seen, seen', next, layer, k);
      } else {
        seen' := seen' + {parent};
        s' := s'.(expansions := s'.expansions + [parent]);
        LogOnce(w, root, cfg, before, s', layer, k, next);
        ghost var logged := s';
        s', next, stop := ExpandParent(w, root, cfg, s', seen', next, parent, ToSet(layer[k + 1..]));
        GrowsTransitive(s, logged, s');
        if stop {
          return;
        }
        ExpandedOnce(w, cfg, before, s', parent);
        GrowsTransitive(before, logged, s');
        ExpandedLeads(w, root, cfg, before, s', seen, beforeSeen, seen', beforeNext, next, layer, k);
      }
      GrowsTransitive(s, before, s');
    }
    LogFacts(w, cfg, s');
    LayerEnds(layer, next);
    AllLeads(w, s', seen, seen', next, layer);
  }

  /** What the first `k` parents of a layer lead to. */
  ghost predicate LayerLeads(w: World, s: Rolling, seen: set<nat>, seen': set<nat>, next: seq<nat>, layer: seq<nat>,
                             k: nat) {
    && k <= |layer| && seen <= seen' <= seen + ToSet(layer[..k])
    && Handled(w, s, seen, seen', next, layer[..k]) && ChildrenOf(w, s.g, layer[..k], next)
    && (next != [] ==> |seen'| >= |seen| + 1 && |s.g.states| >= |seen| + 2)
  }

  lemma AllLeads(w: World, s: Rolling, seen: set<nat>, seen': set<nat>, next: seq<nat>, layer: seq<nat>)
    requires LayerLeads(w, s, seen, seen', next, layer, |layer|)
    ensures seen <= seen' <= seen + ToSet(layer)
    ensures Handled(w, s, seen, seen', next, layer) && ChildrenOf(w, s.g, layer, next)
    ensures next != [] ==> |seen'| >= |seen| + 1 && |s.g.states| >= |seen| + 2
  {
    hide Handled, ChildrenOf;
    assert layer[..|layer|] == layer;
  }

  lemma SkippedLeads(w: World, s: Rolling, s': Rolling, seen: set<nat>, seen': set<nat>, next: seq<nat>,
                     layer: seq<nat>, k: nat)
    requires LayerLeads(w, s, seen, seen', next, layer, k) && k < |layer| && Grows(s, s')
    requires layer[k] in seen' || layer[k] in s'.fullyExpanded
    ensures LayerLeads(w, s', seen, seen', next, layer, k + 1)
  {
    hide Handled, ChildrenOf, Pursued;
    assert layer[..k + 1] == layer[..k] + [layer[k]];
    OneMoreHandled(w, s, s', seen, seen', seen', next, next, layer, k);
    SameChildren(w, s, s', layer, k, next);
  }

  lemma ExpandedLeads(w: World, root: Ir, cfg: Config, s: Rolling, s': Rolling, seen: set<nat>, between: set<nat>,
                      seen': set<nat>, next: seq<nat>, next': seq<nat>, layer: seq<nat>, k: nat)
    requires LayerLeads(w, s, seen, between, next, layer, k) && k < |layer| && Grows(s, s') && Sane(w, root, cfg, s')
    requires layer[k] !in between && seen' == between + {layer[k]} && seen' <= ToSet(s'.expansions)
    requires next <= next' && OnlyChildren(w, s'.g, seen', next, next', layer[k])
    requires forall i :: i in next' ==> i < |s'.g.states|
    requires layer[k] in s'.fullyExpanded || Pursued(w, s', seen', next', layer[k])
    ensures LayerLeads(w, s', seen, seen', next', layer, k + 1)
  {
    hide Handled, ChildrenOf, Pursued, Sane, OnlyChildren;
    assert layer[..k + 1] == layer[..k] + [layer[k]];
    OneMoreSeen(w, root, cfg, s', seen, between, seen', next, next', layer[k]);
    MoreChildren(w, s, s', layer, k, seen', next, next');
    OneMoreHandled(w, s, s', seen, between, seen', next, next', layer, k);
  }

  /** Each state of the layer is fully expanded, was seen before it, or was pursued. */
  ghost predicate Handled(w: World, s: Rolling, seen: set<nat>, seen': set<nat>, next: seq<nat>, layer: seq<nat>) {
    forall a :: a in layer ==> a in s.fullyExpanded || a in seen || Pursued(w, s, seen', next, a)
  }

  ghost predicate ChildrenOf(w: World, g: Graph, layer: seq<nat>, next: seq<nat>) {
    forall b :: b in next ==> exists a :: a in layer && IsChild(w, g, a, b)
  }

  lemma NothingLeads(w: World, s: Rolling, seen: set<nat>, layer: seq<nat>)
    ensures LayerLeads(w, s, seen, seen, [], layer, 0)
  {
  }

  lemma OneMoreHandled(w: World, s: Rolling, s': Rolling, seen: set<nat>, between: set<nat>, seen': set<nat>,
                       next: seq<nat>, next': seq<nat>, layer: seq<nat>, k: nat)
    requires k < |layer| && Grows(s, s') && next <= next' && between <= seen' && between <= seen + ToSet(layer[..k])
    requires Handled(w, s, seen, between, next, layer[..k])
    requires layer[k] in between || layer[k] in s'.fullyExpanded || Pursued(w, s', seen', next', layer[k])
    ensures Handled(w, s', seen, seen', next', layer[..k + 1])
  {
    hide Pursued;
    assert layer[..k + 1] == layer[..k] + [layer[k]];
    forall a | a in layer[..k + 1] ensures a in s'.fullyExpanded || a in seen || Pursued(w, s', seen', next', a) {
      if a in layer[..k] {
        PursuedStays(w, s, s', between, seen', next, next', a);
      }
    }
  }

  lemma MoreChildren(w: World, s: Rolling, s': Rolling, layer: seq<nat>, k: nat, seen: set<nat>, next: seq<nat>,
                     next': seq<nat>)
    requires k < |layer| && Grows(s, s') && ChildrenOf(w, s.g, layer[..k], next)
    requires OnlyChildren(w, s'.g, seen, next, next', layer[k])
    ensures ChildrenOf(w, s'.g, layer[..k + 1], next')
  {
    hide IsChild;
    assert layer[..k + 1] == layer[..k] + [layer[k]];
    forall b | b in next' ensures exists a :: a in layer[..k + 1] && IsChild(w, s'.g, a, b) {
      if b in next {
        var a :| a in layer[..k] && IsChild(w, s.g, a, b);
        ChildStays(w, s.g, s'.g, a, b);
        assert a in layer[..k + 1];
      } else {
        assert layer[k] in layer[..k + 1];
      }
    }
  }

  lemma SameChildren(w: World, s: Rolling, s': Rolling, layer: seq<nat>, k: nat, next: seq<nat>)
    requires k < |layer| && Grows(s, s') && ChildrenOf(w, s.g, layer[..k], next)
    ensures ChildrenOf(w, s'.g, layer[..k + 1], next)
  {
    hide IsChild;
    NoChildren(w, s'.g, {}, next, layer[k]);
    MoreChildren(w, s, s', layer, k, {}, next, next);
  }

  /** An expanded parent is one more state seen; a state it adds is yet another. */
  lemma OneMoreSeen(w: World, root: Ir, cfg: Config, s: Rolling, seen: set<nat>, between: set<nat>, seen': set<nat>,
                    next: seq<nat>, next': seq<nat>, parent: nat)
    requires Sane(w, root, cfg, s) && seen <= between && seen' == between + {parent} && parent !in between
    requires seen' <= ToSet(s.expansions) && OnlyChildren(w, s.g, seen', next, next', parent)
    requires next != [] ==> |s.g.states| >= |seen| + 2
    requires forall i :: i in next' ==> i < |s.g.states|
    ensures |seen'| >= |seen| + 1 && (next' != [] ==> |s.g.states| >= |seen| + 2)
  {
    hide Valid, Indexed, Finished, Blamed, IsChild;
    SubsetSize(seen, between);
    if next == [] && next' != [] {
      var b := next'[0];
      assert b in next' && b !in seen';
      forall i | i in seen' + {b} ensures i in Below(|s.g.states|) {
        if i in seen' { assert i in ToSet(s.expansions); }
      }
      SubsetSize(seen' + {b}, Below(|s.g.states|));
    }
  }

  lemma LayerStarts(w: World, s: Rolling, layer: seq<nat>)
    requires Accounted(w, s, ToSet(layer))
    ensures Accounted(w, s, ToSet(layer[0..]) + ToSet([])) && ToSet(layer[..0]) == {}
  {
    assert layer[0..] == layer;
    assert ToSet(layer) + ToSet([]) == ToSet(layer);
  }

  lemma LayerEnds(layer: seq<nat>, next: seq<nat>)
    ensures ToSet(layer[|layer|..]) + ToSet(next) == ToSet(next) && ToSet(layer[..|layer|]) == ToSet(layer)
  {
    assert layer[|layer|..] == [] && layer[..|layer|] == layer;
  }

  lemma LogFacts(w: World, cfg: Config, s: Rolling)
    requires Logged(w, cfg, s)
    ensures s.fullyExpanded <= ToSet(s.expansions) && (Progresses(w, cfg) ==> Distinct(s.expansions))
  {
  }

  lemma OneLess(layer: seq<nat>, k: nat)
    requires k < |layer|
    ensures ToSet(layer[k..]) == ToSet(layer[k + 1..]) + {layer[k]}
    ensures ToSet(layer[..k + 1]) == ToSet(layer[..k]) + {layer[k]}
  {
    assert layer[k..] == [layer[k]] + layer[k + 1..];
    assert layer[..k + 1] == layer[..k] + [layer[k]];
  }

  /** A state that was seen in this window, or expanded in an earlier one, is passed over. */
  lemma SkipParent(w: World, root: Ir, cfg: Config, s: Rolling, s': Rolling, layer: seq<nat>, k: nat, next: seq<nat>)
    requires Sane(w, root, cfg, s) && Logged(w, cfg, s) && k < |layer| && layer[k] < |s.g.states|
    requires layer[k] in ToSet(s.expansions)
    requires s' == s || s' == s.(closed := s.closed + {layer[k]})
    requires Accounted(w, s, ToSet(layer[k..]) + ToSet(next))
    ensures Sane(w, root, cfg, s') && Grows(s, s') && Logged(w, cfg, s') && layer[k] in ToSet(s'.expansions)
    ensures Accounted(w, s', ToSet(layer[k + 1..]) + ToSet(next))
  {
    hide Blamed, Valid, Indexed, Accounted, Finished, Logged, Quiet;
    OneLess(layer, k);
    StillAccounted(w, s, s', ToSet(layer[k..]) + ToSet(next), ToSet(layer[k + 1..]) + ToSet(next));
    assert Logged(w, cfg, s') by { SameLog(w, cfg, s, s'); }
  }

  lemma SameLog(w: World, cfg: Config, s: Rolling, s': Rolling)
    requires Logged(w, cfg, s) && s'.expansions == s.expansions && s'.fullyExpanded == s.fullyExpanded
    requires s.incomplete ==> s'.incomplete
    ensures Logged(w, cfg, s')
  {
  }

  lemma PursuedStays(w: World, s: Rolling, s': Rolling, seen: set<nat>, seen': set<nat>, next: seq<nat>,
                     next': seq<nat>, i: nat)
    requires Grows(s, s') && seen <= seen' && forall b :: b in next ==> b in next'
    ensures Pursued(w, s, seen, next, i) ==> Pursued(w, s', seen', next', i)
  {
    if Pursued(w, s, seen, next, i) {
      forall c | Executable(w.analyse(s'.g.states[i]), c) && w.Run(c.order, s'.g.states[i]).Some?
        ensures Followed(w, s', seen', next', i, c)
      {
        assert Followed(w, s, seen, next, i, c);
      }
    }
  }

  lemma LogOnce(w: World, root: Ir, cfg: Config, s: Rolling, s': Rolling, layer: seq<nat>, k: nat, next: seq<nat>)
    requires Sane(w, root, cfg, s) && Logged(w, cfg, s) && k < |layer| && layer[k] < |s.g.states|
    requires layer[k] !in s.fullyExpanded
    requires s' == s.(expansions := s.expansions + [layer[k]])
    requires Accounted(w, s, ToSet(layer[k..]) + ToSet(next))
    ensures Sane(w, root, cfg, s') && Grows(s, s') && Accounted(w, s', ToSet(layer[k + 1..]) + ToSet(next))
    ensures ToSet(s'.expansions) == ToSet(s.expansions) + {layer[k]}
    ensures Progresses(w, cfg) ==> Distinct(s'.expansions)
  {
    hide Blamed, Valid, Indexed, Accounted, Finished, Quiet;
    OneLess(layer, k);
    ToSetAppend(s.expansions, layer[k]);
    StillAccounted(w, s, s', ToSet(layer[k..]) + ToSet(next), ToSet(layer[k + 1..]) + ToSet(next));
    assert Progresses(w, cfg) ==> layer[k] !in ToSet(s.expansions);
  }

  lemma ExpandedOnce(w: World, cfg: Config, s: Rolling, s': Rolling, parent: nat)
    requires Logged(w, cfg, s) && parent !in s.fullyExpanded && (s.incomplete ==> s'.incomplete)
    requires s'.expansions == s.expansions + [parent]
    requires s.fullyExpanded <= s'.fullyExpanded <= s.fullyExpanded + {parent}
    requires Progresses(w, cfg) || !s'.incomplete ==> parent in s'.fullyExpanded
    ensures Logged(w, cfg, s')
  {
    ToSetAppend(s.expansions, parent);
    assert Progresses(w, cfg) ==> parent !in ToSet(s.expansions);
  }

  // ------------------------------------------------------------ one window

  /** `sorted(ids)`: by id text. */
  function SortIds(ids: seq<nat>): seq<nat> {
    SortBy((a: nat, b: nat) => TextBefore(NodeName(a), NodeName(b)), ids)
  }

  lemma SortIdsContents(ids: seq<nat>)
    ensures ToSet(SortIds(ids)) == ToSet(ids) && |SortIds(ids)| == |ids|
    ensures forall i :: i in SortIds(ids) <==> i in ids
  {
    SortByContents((a: nat, b: nat) => TextBefore(NodeName(a), NodeName(b)), ids);
    forall i ensures i in SortIds(ids) <==> i in ids {
      assert i in ToSet(SortIds(ids)) <==> i in ToSet(ids);
    }
  }

  /** All layers of one window; `boundary` is what the last layer leads to. */
  method ExpandWindow(w: World, root: Ir, cfg: Config, s: Rolling, roots: seq<nat>)
    returns (s': Rolling, boundary: seq<nat>, stop: bool, ghost layers: seq<seq<nat>>)
    requires cfg.Accepted() && QuietStatesHaveNoBatches(w) && Sane(w, root, cfg, s) && Logged(w, cfg, s)
    requires Accounted(w, s, ToSet(roots)) && roots != [] && forall i :: i in roots ==> i < |s.g.states|
    ensures Sane(w, root, cfg, s') && Grows(s, s')
    ensures stop ==> s'.incomplete && (cfg.failOnIncomplete || exists i, c :: Capped(w, cfg, s'.g, i, c))
    ensures Progresses(w, cfg) ==> Distinct(s'.expansions)
    ensures !stop ==>
              && Logged(w, cfg, s') && Accounted(w, s', ToSet(boundary))
              && (forall i :: i in boundary ==> i < |s'.g.states|)
              && ToSet(roots) <= ToSet(s'.expansions)
    // how the window got from its roots to its boundary
    ensures !stop ==>
              && 1 <= |layers| <= cfg.windowDepth + 1 && Trail(w, s', layers) && boundary == layers[|layers| - 1]
              && (|layers| <= cfg.windowDepth ==> boundary == []) && (forall i :: i in layers[0] <==> i in roots)
    ensures !stop && boundary != [] ==> |s'.g.states| > cfg.windowDepth
  {
    hide Blamed, Valid, Better, Indexed, Pursued, Accounted, Finished, Capped, Distinct, SortIds, Sane, Logged,
         Progresses, Handled, ChildrenOf, Trail, Met;
    s', stop := s, false;
    boundary := SortIds(roots);
    layers := [boundary];
    SortIdsContents(roots);
    NonemptyGraph(w, root, cfg, s);
    TrailStarts(w, s, boundary);
    var seen: set<nat> := {};
    var depth := 0;
    LogFacts(w, cfg, s);
    while depth < cfg.windowDepth && boundary != []
      invariant 0 <= depth <= cfg.windowDepth
      invariant Sane(w, root, cfg, s') && Grows(s, s') && Logged(w, cfg, s') && Accounted(w, s', ToSet(boundary))
      invariant forall i :: i in boundary ==> i < |s'.g.states|
      invariant seen <= ToSet(s'.expansions) && (depth > 0 ==> ToSet(roots) <= ToSet(s'.expansions))
      invariant |layers| == depth + 1 && boundary == layers[depth] && (forall i :: i in layers[0] <==> i in roots)
      invariant Trail(w, s', layers) && seen <= Met(layers, depth)
      invariant depth == 0 ==> boundary != []
      invariant boundary != [] ==> |seen| >= depth && |s'.g.states| >= depth + 1
      decreases cfg.windowDepth - depth
    {
      ghost var before, beforeSeen := s', seen;
      var next;
      s', seen, next, stop := ExpandLayer(w, root, cfg, s', seen, boundary);
      GrowsTransitive(s, before, s');
      if stop {
        return;
      }
      if depth > 0 { EventsStay(before, s'); }
      SortIdsContents(next);
      OneLayerMore(w, before, s', layers, beforeSeen, seen, next, SortIds(next));
      boundary := SortIds(next);
      layers := layers + [boundary];
      depth := depth + 1;
    }
    LogFacts(w, cfg, s');
  }

  lemma NonemptyGraph(w: World, root: Ir, cfg: Config, s: Rolling)
    requires Sane(w, root, cfg, s)
    ensures |s.g.states| >= 1
  {
  }

  /** The states of the first `k` layers. */
  function Met(layers: seq<seq<nat>>, k: nat): set<nat>
    requires k <= |layers|
  {
    if k == 0 then {} else Met(layers, k - 1) + ToSet(layers[k - 1])
  }

  /** Each layer's states are fully expanded, met before, or pursued into the next
      layer, and the next layer holds children of this one only. */
  ghost predicate Trail(w: World, s: Rolling, layers: seq<seq<nat>>) {
    && |layers| >= 1
    && forall j {:trigger Led(w, s, layers, j)} :: 0 <= j < |layers| - 1 ==> Led(w, s, layers, j)
  }

  ghost predicate Led(w: World, s: Rolling, layers: seq<seq<nat>>, j: nat)
    requires j + 1 < |layers|
  {
    && Handled(w, s, Met(layers, j), Met(layers, j + 1), layers[j + 1], layers[j])
    && ChildrenOf(w, s.g, layers[j], layers[j + 1])
  }

  lemma TrailStarts(w: World, s: Rolling, first: seq<nat>)
    ensures Trail(w, s, [first]) && Met([first], 0) == {}
  {
  }

  lemma {:induction false} MetOfPrefix(layers: seq<seq<nat>>, more: seq<nat>, k: nat)
    requires k <= |layers|
    ensures Met(layers + [more], k) == Met(layers, k)
  {
    if k > 0 {
      MetOfPrefix(layers, more, k - 1);
    }
  }

  lemma LedStays(w: World, s: Rolling, s': Rolling, layers: seq<seq<nat>>, more: seq<nat>, j: nat)
    requires Grows(s, s') && j + 1 < |layers| && Led(w, s, layers, j)
    ensures Led(w, s', layers + [more], j)
  {
    hide Handled, ChildrenOf, Met;
    MetOfPrefix(layers, more, j);
    MetOfPrefix(layers, more, j + 1);
    HandledStays(w, s, s', Met(layers, j), Met(layers, j), Met(layers, j + 1), Met(layers, j + 1),
                 layers[j + 1], layers[j + 1], layers[j]);
    ChildrenOfStays(w, s, s', layers[j], layers[j + 1], layers[j + 1]);
  }

  lemma HandledStays(w: World, s: Rolling, s': Rolling, seen: set<nat>, wider: set<nat>, seen': set<nat>,
                     wider': set<nat>, next: seq<nat>, same: seq<nat>, layer: seq<nat>)
    requires Grows(s, s') && seen <= wider && seen' <= wider' && forall i :: i in next <==> i in same
    requires Handled(w, s, seen, seen', next, layer)
    ensures Handled(w, s', wider, wider', same, layer)
  {
    hide Pursued;
    forall a | a in layer ensures a in s'.fullyExpanded || a in wider || Pursued(w, s', wider', same, a) {
      PursuedStays(w, s, s', seen', wider', next, same, a);
    }
  }

  lemma ChildrenOfStays(w: World, s: Rolling, s': Rolling, layer: seq<nat>, next: seq<nat>, same: seq<nat>)
    requires Grows(s, s') && ChildrenOf(w, s.g, layer, next) && forall i :: i in next <==> i in same
    ensures ChildrenOf(w, s'.g, layer, same)
  {
    hide IsChild;
    forall b | b in same ensures exists a :: a in layer && IsChild(w, s'.g, a, b) {
      var a :| a in layer && IsChild(w, s.g, a, b);
      ChildStays(w, s.g, s'.g, a, b);
    }
  }

  lemma LastMet(layers: seq<seq<nat>>, k: nat)
    requires k < |layers|
    ensures Met(layers, k + 1) == Met(layers, k) + ToSet(layers[k])
  {
  }

  lemma LastLed(w: World, s: Rolling, layers: seq<seq<nat>>, j: nat, seen: set<nat>, seen': set<nat>, next: seq<nat>)
    requires j + 1 < |layers| && seen <= Met(layers, j) && seen' <= Met(layers, j + 1)
    requires forall i :: i in next <==> i in layers[j + 1]
    requires Handled(w, s, seen, seen', next, layers[j]) && ChildrenOf(w, s.g, layers[j], next)
    ensures Led(w, s, layers, j)
  {
    hide Handled, ChildrenOf, Met;
    HandledStays(w, s, s, seen, Met(layers, j), seen', Met(layers, j + 1), next, layers[j + 1], layers[j]);
    ChildrenOfStays(w, s, s, layers[j], next, layers[j + 1]);
  }

  lemma OneLayerMore(w: World, s: Rolling, s': Rolling, layers: seq<seq<nat>>, seen: set<nat>, seen': set<nat>,
                     next: seq<nat>, sorted: seq<nat>)
    requires Trail(w, s, layers) && Grows(s, s') && seen <= Met(layers, |layers| - 1)
    requires seen' <= seen + ToSet(layers[|layers| - 1]) && forall i :: i in sorted <==> i in next
    requires Handled(w, s', seen, seen', next, layers[|layers| - 1]) && ChildrenOf(w, s'.g, layers[|layers| - 1], next)
    ensures Trail(w, s', layers + [sorted]) && seen' <= Met(layers + [sorted], |layers|)
  {
    hide Handled, ChildrenOf, Met, Led, Grows;
    var longer, last := layers + [sorted], |layers| - 1;
    MetOfPrefix(layers, sorted, last);
    LastMet(longer, last);
    LastLed(w, s', longer, last, seen, seen', next);
    forall j {:trigger Led(w, s', longer, j)} | 0 <= j < |longer| - 1 ensures Led(w, s', longer, j) {
      if j < last {
        assert Led(w, s, layers, j);
        LedStays(w, s, s', layers, sorted, j);
      }
    }
  }

  lemma EventsStay(s: Rolling, s': Rolling)
    requires Grows(s, s')
    ensures ToSet(s.expansions) <= ToSet(s'.expansions)
  {
  }

  // -------------------------------------------------------- the checkpoint

  /** Boundary states that are neither quiet nor expanded stay open. */
  method SplitBoundary(w: World, root: Ir, cfg: Config, s: Rolling, boundary: seq<nat>)
    returns (s': Rolling, open: seq<nat>)
    requires Sane(w, root, cfg, s) && Logged(w, cfg, s)
    requires Accounted(w, s, ToSet(boundary)) && forall i :: i in boundary ==> i < |s.g.states|
    ensures Sane(w, root, cfg, s') && Logged(w, cfg, s') && Grows(s, s') && s' == s.(closed := s'.closed)
    ensures Distinct(open) && forall i :: i in open <==> i in boundary && !Quiet(w, s.g, i) && i !in s.fullyExpanded
    ensures Accounted(w, s', ToSet(open))
  {
    hide Blamed, Valid, Indexed, Accounted, Distinct, Finished, Logged, Progresses;
    s', open := s, [];
    EmptyDistinct<nat>();
    for k := 0 to |boundary|
      invariant s' == s.(closed := s'.closed) && s.closed <= s'.closed
      invariant forall i :: i in s'.closed ==> i < |s.g.states|
      invariant Distinct(open)
      invariant forall i :: i in open <==> i in boundary[..k] && !Quiet(w, s.g, i) && i !in s.fullyExpanded
    {
      var id := boundary[k];
      assert id in boundary && boundary[..k + 1] == boundary[..k] + [id];
      if w.analyse(s.g.states[id]).activePasses == 0 || id in s.fullyExpanded {
        s' := s'.(closed := s'.closed + {id});
      } else if id !in open {
        AppendDistinct(open, id);
        open := open + [id];
      }
    }
    assert boundary[..|boundary|] == boundary;
    LogFacts(w, cfg, s);
    SameLog(w, cfg, s, s');
    StillAccounted(w, s, s', ToSet(boundary), ToSet(open));
  }

  /** The frontier row of a state: scores from outside, identity and objective from the graph. */
  function RowOf(w: World, g: Graph, score: (Graph, nat) -> FrontierRow, i: nat): FrontierRow
    requires i < |g.states|
  {
    score(g, i).(id := NodeName(i), objectiveValue := w.objective(g.states[i]), paretoKept := false)
  }

  function RowsOf(w: World, g: Graph, score: (Graph, nat) -> FrontierRow, ids: seq<nat>): (rows: seq<FrontierRow>)
    requires forall i :: i in ids ==> i < |g.states|
    ensures |rows| == |ids| && forall k :: 0 <= k < |ids| ==> ids[k] in ids && rows[k] == RowOf(w, g, score, ids[k])
  {
    assert forall k :: 0 <= k < |ids| ==> ids[k] in ids;
    seq(|ids|, k requires 0 <= k < |ids| && ids[k] in ids => RowOf(w, g, score, ids[k]))
  }

  /** Rows least by each measure and a novel one, as far as there is room, and up to five
      such rows apart the greatest scores. */
  ghost predicate IsDiverseFrontier(open: seq<FrontierRow>, kept: seq<FrontierRow>, width: int) {
    Diverse(open, kept, width) && exists b: nat :: b <= 5 && FilledByScore(open, kept, b)
  }

  /** Keep a bounded frontier; the rest of the open states counts as pruned. The
      order in which open states are listed does not matter: the beam sorts its
      rows and the next window sorts its roots. */
  method Checkpoint(w: World, root: Ir, cfg: Config, s: Rolling, score: (Graph, nat) -> FrontierRow, open: seq<nat>)
    returns (s': Rolling, selected: seq<nat>)
    requires cfg.Accepted() && Sane(w, root, cfg, s) && Logged(w, cfg, s) && open != [] && Distinct(open)
    requires Accounted(w, s, ToSet(open)) && forall i :: i in open ==> i < |s.g.states|
    ensures Sane(w, root, cfg, s') && Logged(w, cfg, s')
            && s' == s.(pruned := s.pruned + (ToSet(open) - ToSet(selected)))
    ensures Distinct(selected) && selected != [] && (forall i :: i in selected ==> i in open)
    ensures |selected| == Min(cfg.frontierWidth, |open|)
    ensures exists best :: best in selected && forall i :: i in open ==>
              w.objective(s.g.states[best]) <= w.objective(s.g.states[i])
    // the roots are as diverse as their number allows, and the rest of them has the greatest scores
    ensures IsDiverseFrontier(RowsOf(w, s.g, score, open), RowsOf(w, s.g, score, selected), cfg.frontierWidth)
    ensures Accounted(w, s', ToSet(selected))
  {
    hide Blamed, Valid, Indexed, Accounted, Finished, DistinctIds, Distinct, Logged, RowOf, Diverse, FilledByScore;
    var rows := ScoreRows(w, s.g, score, open);
    var kept := SelectRollingFrontier(rows, cfg.frontierWidth);
    selected := IdsOf(w, s.g, score, open, rows, kept);
    s' := s.(pruned := s.pruned + (ToSet(open) - ToSet(selected)));
    PrunedSane(w, root, cfg, s, s', open);
    SelectedFacts(w, s.g, score, open, rows, kept, selected);
    assert rows == RowsOf(w, s.g, score, open) && kept == RowsOf(w, s.g, score, selected);
    SameLog(w, cfg, s, s');
    StillAccounted(w, s, s', ToSet(open), ToSet(selected));
  }

  method ScoreRows(w: World, g: Graph, score: (Graph, nat) -> FrontierRow, open: seq<nat>)
    returns (rows: seq<FrontierRow>)
    requires Distinct(open) && forall i :: i in open ==> i < |g.states|
    ensures DistinctIds(rows) && (forall r :: r in rows ==> !r.paretoKept) && |rows| == |open|
    ensures forall k :: 0 <= k < |open| ==> open[k] < |g.states| && rows[k] == RowOf(w, g, score, open[k])
  {
    hide DistinctIds, Distinct, RowOf;
    rows := [];
    for k := 0 to |open|
      invariant |rows| == k
      invariant forall l :: 0 <= l < k ==> open[l] < |g.states| && rows[l] == RowOf(w, g, score, open[l])
    {
      assert open[k] in open;
      rows := rows + [RowOf(w, g, score, open[k])];
    }
    RowsHaveDistinctIds(w, g, score, open, rows);
  }

  method IdsOf(w: World, g: Graph, score: (Graph, nat) -> FrontierRow, open: seq<nat>, rows: seq<FrontierRow>,
               kept: seq<FrontierRow>)
    returns (selected: seq<nat>)
    requires |rows| == |open| && forall r :: r in kept ==> r in rows
    requires forall k :: 0 <= k < |open| ==> open[k] < |g.states| && rows[k] == RowOf(w, g, score, open[k])
    ensures |selected| == |kept|
    ensures forall l :: 0 <= l < |kept| ==>
              selected[l] in open && selected[l] < |g.states| && kept[l] == RowOf(w, g, score, selected[l])
  {
    hide RowOf;
    selected := [];
    for k := 0 to |kept|
      invariant |selected| == k
      invariant forall l :: 0 <= l < k ==>
                  selected[l] in open && selected[l] < |g.states| && kept[l] == RowOf(w, g, score, selected[l])
    {
      assert kept[k] in rows;
      var at :| 0 <= at < |rows| && rows[at] == kept[k];
      assert open[at] in open;
      selected := selected + [open[at]];
    }
  }

  lemma RowsHaveDistinctIds(w: World, g: Graph, score: (Graph, nat) -> FrontierRow, open: seq<nat>,
                            rows: seq<FrontierRow>)
    requires Distinct(open) && |rows| == |open| && forall i :: i in open ==> i < |g.states|
    requires forall k :: 0 <= k < |open| ==> open[k] < |g.states| && rows[k] == RowOf(w, g, score, open[k])
    ensures DistinctIds(rows) && forall r :: r in rows ==> !r.paretoKept
  {
    forall i, j | 0 <= i < j < |rows| ensures rows[i].id != rows[j].id {
      if NodeName(open[i]) == NodeName(open[j]) { NamesAreUnique(open[i], open[j]); }
    }
  }

  lemma PrunedSane(w: World, root: Ir, cfg: Config, s: Rolling, s': Rolling, open: seq<nat>)
    requires Sane(w, root, cfg, s) && s' == s.(pruned := s'.pruned) && s'.pruned <= s.pruned + ToSet(open)
    requires forall i :: i in open ==> i < |s.g.states|
    ensures Sane(w, root, cfg, s')
  {
  }

  lemma SelectedFacts(w: World, g: Graph, score: (Graph, nat) -> FrontierRow, open: seq<nat>, rows: seq<FrontierRow>,
                      kept: seq<FrontierRow>, selected: seq<nat>)
    requires |rows| == |open| && |selected| == |kept| && Distinct(kept)
    requires forall k :: 0 <= k < |open| ==> open[k] < |g.states| && rows[k] == RowOf(w, g, score, open[k])
    requires forall l :: 0 <= l < |kept| ==>
               selected[l] in open && selected[l] < |g.states| && kept[l] == RowOf(w, g, score, selected[l])
    requires exists best :: best in kept && forall r :: r in rows ==> best.objectiveValue <= r.objectiveValue
    ensures Distinct(selected) && selected != [] && forall i :: i in selected ==> i in open
    ensures exists best :: best in selected && best < |g.states| &&
              forall i :: i in open ==> i < |g.states| && w.objective(g.states[best]) <= w.objective(g.states[i])
  {
    hide RowOf;
    SelectedDistinct(w, g, score, kept, selected);
    var bestRow :| bestRow in kept && forall r :: r in rows ==> bestRow.objectiveValue <= r.objectiveValue;
    var l :| 0 <= l < |kept| && kept[l] == bestRow;
    LeastOfOpen(w, g, score, open, rows, selected[l]);
    assert selected[l] in selected;
  }

  lemma SelectedDistinct(w: World, g: Graph, score: (Graph, nat) -> FrontierRow, kept: seq<FrontierRow>,
                         selected: seq<nat>)
    requires |selected| == |kept| && Distinct(kept)
    requires forall l :: 0 <= l < |kept| ==>
               selected[l] < |g.states| && kept[l] == RowOf(w, g, score, selected[l])
    ensures Distinct(selected)
  {
    hide RowOf;
    forall i, j | 0 <= i < j < |selected| ensures selected[i] != selected[j] {
      assert kept[i] != kept[j];
    }
  }

  lemma LeastOfOpen(w: World, g: Graph, score: (Graph, nat) -> FrontierRow, open: seq<nat>, rows: seq<FrontierRow>,
                    best: nat)
    requires |rows| == |open| && best < |g.states|
    requires forall k :: 0 <= k < |open| ==> open[k] < |g.states| && rows[k] == RowOf(w, g, score, open[k])
    requires forall r :: r in rows ==> RowOf(w, g, score, best).objectiveValue <= r.objectiveValue
    ensures forall i :: i in open ==> i < |g.states| && w.objective(g.states[best]) <= w.objective(g.states[i])
  {
    forall i | i in open ensures i < |g.states| && w.objective(g.states[best]) <= w.objective(g.states[i]) {
      var k :| 0 <= k < |open| && open[k] == i;
      assert rows[k] in rows;
    }
  }
}
