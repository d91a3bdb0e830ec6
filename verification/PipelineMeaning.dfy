/** What the certificates buy: inside every batch of a searched path the passes may
    be run in any order, and the whole pipeline still means the same. */
module PipelineMeaning {
  import opened Basics
  import opened Toolchains
  import opened BatchCorrectness
  import opened BatchValidation
  import opened StateGraphs
  import RollingWindows

  /** In every state the batches offered carry classifications of honest validation rows. */
  ghost predicate Backed(w: World) {
    forall x :: BackedAt(w.tc, x, w.analyse(x).candidates)
  }

  ghost predicate BackedAt(tc: Toolchain, x: Ir, offers: seq<Candidate>) {
    forall c :: c in offers ==> Distinct(c.order) && exists row :: ClassifiedFrom(tc, x, c, row)
  }

  ghost predicate ClassifiedFrom(tc: Toolchain, x: Ir, c: Candidate, row: ValidationRow) {
    && RowIsHonest(tc, x, c.order, row) && c.status == row.status
    && exists sampled, bounded ::
         c.correctness == ClassifyValidationStatus(row.status, row.tier, row.hardCertificate, sampled, bounded)
  }

  /** Only batches whose orders all agree are executed. */
  lemma ExecutableMeansReorderable(w: World, x: Ir, c: Candidate)
    requires Backed(w) && Executable(w.analyse(x), c)
    ensures Distinct(c.order) && w.tc.AllOrdersEquivalent(x, c.order)
  {
    assert BackedAt(w.tc, x, w.analyse(x).candidates);
    var row :| ClassifiedFrom(w.tc, x, c, row);
  }

  lemma {:induction false} OrdersRespectMeaning(tc: Toolchain, order: seq<Pass>, x: Ir, y: Ir)
    requires tc.PassesRespectMeaning() && tc.Equivalent(x, y)
    ensures tc.SameOutcome(tc.Replay(order, x), tc.Replay(order, y))
  {
    if order != [] {
      OrdersRespectMeaning(tc, order[..|order| - 1], x, y);
    }
  }

  function Concat(orders: seq<seq<Pass>>): seq<Pass> {
    if orders == [] then [] else Concat(orders[..|orders| - 1]) + orders[|orders| - 1]
  }

  ghost predicate Rearranges(orders: seq<seq<Pass>>, path: seq<Candidate>) {
    |orders| == |path| && forall k :: 0 <= k < |path| ==> Arranges(orders[k], path[k].order)
  }

  /** Shuffling the passes inside each batch of a path leads to an equivalent program. */
  lemma {:induction false} AnyOrderInsideBatches(w: World, root: Ir, path: seq<Candidate>, orders: seq<seq<Pass>>)
    requires w.tc.PassesRespectMeaning() && Backed(w)
    requires RunPath(w, root, path).Some? && Rearranges(orders, path)
    ensures w.tc.SameOutcome(w.tc.Replay(Concat(orders), root), RunPath(w, root, path))
  {
    if path != [] {
      var init, c, o := path[..|path| - 1], path[|path| - 1], orders[|path| - 1];
      var before := Concat(orders[..|path| - 1]);
      AnyOrderInsideBatches(w, root, init, orders[..|path| - 1]);
      var x := RunPath(w, root, init).value;
      var y := w.tc.Replay(before, root).value;
      w.tc.ReplayConcat(before, o, root);
      OrdersRespectMeaning(w.tc, o, y, x);
      ExecutableMeansReorderable(w, x, c);
      assert Arranges(o, c.order) && Arranges(c.order, c.order);
    }
  }

  /** The pipeline phasebatch reports, and every shuffle of it inside its batches,
      take the root to equivalent programs. */
  lemma ReportedPipelineIsReorderable(w: World, root: Ir, path: seq<Candidate>, orders: seq<seq<Pass>>)
    requires w.tc.PassesRespectMeaning() && Backed(w)
    requires RunPath(w, root, path).Some? && Rearranges(orders, path)
    ensures w.tc.Replay(Flatten(path), root).Some?
    ensures w.tc.SameOutcome(w.tc.Replay(Concat(orders), root), w.tc.Replay(Flatten(path), root))
  {
    FlattenReplays(w, root, path);
    AnyOrderInsideBatches(w, root, path, orders);
  }

  /** A certified batch ran, pass by pass or as a whole, when it was validated. With
      tools that always answer alike only one thing is left to hold up a search: a
      batch that, applied as one pipeline, does not end in time. */
  lemma CertifiedBatchesApply(w: World, cfg: RollingWindows.Config)
    requires Backed(w)
    ensures forall x, c :: Executable(w.analyse(x), c) ==> (w.Run(c.order, x).Some? <==> w.completes(c.order, x))
    ensures RollingWindows.Progresses(w, cfg) <==>
              cfg.failOnIncomplete || forall x, c :: Executable(w.analyse(x), c) ==> w.completes(c.order, x)
  {
    forall x, c | Executable(w.analyse(x), c) ensures w.Run(c.order, x).Some? <==> w.completes(c.order, x) {
      ExecutableMeansReorderable(w, x, c);
      assert Arranges(c.order, c.order);
    }
  }
}
