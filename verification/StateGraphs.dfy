/** The state graph both exact searches grow: states merged by canonical hash,
    the best known path to each, and the parent links the final pipeline is
    read from. */
module StateGraphs {
  import opened Basics
  import opened Toolchains
  import opened BatchCorrectness
  import opened NodeNames

  datatype Candidate = Candidate(batchId: string, order: seq<Pass>, correctness: Classification, status: Status)

  /** What building, validating and classifying the batches of a state reports. */
  datatype Analysis = Analysis(incomplete: bool, activePasses: nat, candidates: seq<Candidate>)

  /** `completes` says whether running a whole batch at once ends in time. What
      validation saw was shorter: single passes come from the profile, and the
      permutation DAG runs one pass at a time. */
  datatype World = World(
    tc: Toolchain, analyse: Ir -> Analysis, stateHash: Ir -> Digest, objective: Ir -> int,
    completes: (seq<Pass>, Ir) -> bool)
  {
    /** Apply a batch to a program, as one pipeline. */
    function Run(order: seq<Pass>, x: Ir): (y: Option<Ir>)
      ensures y.Some? ==> y == tc.Replay(order, x)
    {
      if completes(order, x) then tc.Replay(order, x) else None
    }
  }

  /** Batches an exact search applies; a candidate without passes is skipped. */
  predicate Executable(a: Analysis, c: Candidate) {
    c in a.candidates && IsExactExecutable(c.correctness, c.status) && c.order != []
  }

  /** Batch construction emits nothing when no pass is active. */
  ghost predicate QuietStatesHaveNoBatches(w: World) {
    forall x :: w.analyse(x).activePasses == 0 ==> w.analyse(x).candidates == []
  }

  /** The search merges by `canonical_hash`, which is coarser than the digest the
      validation uses. This hypothesis is about that hash only: states it merges
      are offered the same batches, passes keep them merged, and a batch ends in
      time on both or on neither. */
  ghost predicate HashRespected(w: World) {
    && (forall x, y :: w.stateHash(x) == w.stateHash(y) ==> w.analyse(x) == w.analyse(y))
    && (forall p, x, y :: w.stateHash(x) == w.stateHash(y) ==>
          OutcomeHash(w, w.tc.apply(p, x)) == OutcomeHash(w, w.tc.apply(p, y)))
    && (forall order, x, y :: w.stateHash(x) == w.stateHash(y) ==> w.completes(order, x) == w.completes(order, y))
  }

  function OutcomeHash(w: World, o: Option<Ir>): Option<Digest> {
    match o
    case None => None
    case Some(x) => Some(w.stateHash(x))
  }

  lemma {:induction false} ReplaysRespectHash(w: World, order: seq<Pass>, x: Ir, y: Ir)
    requires HashRespected(w) && w.stateHash(x) == w.stateHash(y)
    ensures OutcomeHash(w, w.tc.Replay(order, x)) == OutcomeHash(w, w.tc.Replay(order, y))
  {
    if order != [] {
      ReplaysRespectHash(w, order[..|order| - 1], x, y);
    }
  }

  lemma OrdersRespectHash(w: World, order: seq<Pass>, x: Ir, y: Ir)
    requires HashRespected(w) && w.stateHash(x) == w.stateHash(y)
    ensures OutcomeHash(w, w.Run(order, x)) == OutcomeHash(w, w.Run(order, y))
  {
    ReplaysRespectHash(w, order, x, y);
  }

  // ------------------------------------------------------------ paths

  /** Run a list of batches, each executable where it is applied. */
  function RunPath(w: World, root: Ir, path: seq<Candidate>): Option<Ir> {
    if path == [] then Some(root)
    else
      match RunPath(w, root, path[..|path| - 1])
      case None => None
      case Some(x) =>
        var c := path[|path| - 1];
        if Executable(w.analyse(x), c) then w.Run(c.order, x) else None
  }

  lemma RunPathAppend(w: World, root: Ir, path: seq<Candidate>, c: Candidate)
    ensures RunPath(w, root, path + [c]) ==
            match RunPath(w, root, path) {
              case None => None
              case Some(x) => if Executable(w.analyse(x), c) then w.Run(c.order, x) else None
            }
  {
    assert (path + [c])[..|path + [c]| - 1] == path;
  }

  datatype PathInfo = PathInfo(length: nat, invocations: nat, certifiedSteps: nat, batches: seq<string>)

  const RootInfo := PathInfo(0, 0, 0, [])

  /** `_extend_path_info`. */
  function Extend(info: PathInfo, c: Candidate): PathInfo {
    PathInfo(info.length + 1, info.invocations + |c.order|,
             info.certifiedSteps + (if c.correctness.class_ == CertifiedBatch then 1 else 0),
             info.batches + [c.batchId])
  }

  function Key(path: seq<Candidate>): (info: PathInfo)
    ensures info.length == |path|
  {
    if path == [] then RootInfo else Extend(Key(path[..|path| - 1]), path[|path| - 1])
  }

  /** The passes a path runs, its certified batches, and their ids: what its key counts. */
  function Flatten(path: seq<Candidate>): seq<Pass> {
    if path == [] then [] else Flatten(path[..|path| - 1]) + path[|path| - 1].order
  }

  function CertifiedOf(path: seq<Candidate>): seq<Candidate> {
    if path == [] then []
    else
      var c := path[|path| - 1];
      CertifiedOf(path[..|path| - 1]) + if c.correctness.class_ == CertifiedBatch then [c] else []
  }

  function Ids(path: seq<Candidate>): seq<string> {
    seq(|path|, i requires 0 <= i < |path| => path[i].batchId)
  }

  lemma {:induction false} KeyMeans(path: seq<Candidate>)
    ensures Key(path) == PathInfo(|path|, |Flatten(path)|, |CertifiedOf(path)|, Ids(path))
  {
    if path != [] {
      KeyMeans(path[..|path| - 1]);
      assert Ids(path) == Ids(path[..|path| - 1]) + [path[|path| - 1].batchId];
    }
  }

  lemma KeyAppend(path: seq<Candidate>, c: Candidate)
    ensures Key(path + [c]) == Extend(Key(path), c)
  {
    assert (path + [c])[..|path + [c]| - 1] == path;
  }

  /** Python's `<` on tuples of strings. */
  predicate BatchesBefore(a: seq<string>, b: seq<string>) {
    if b == [] then false
    else if a == [] then true
    else TextBefore(a[0], b[0]) || (a[0] == b[0] && BatchesBefore(a[1..], b[1..]))
  }

  /** The first ids in which the lists differ decide. */
  ghost predicate IdsBefore(a: seq<string>, b: seq<string>) {
    exists k :: 0 <= k < |a| && k < |b| && a[..k] == b[..k] && TextBefore(a[k], b[k])
  }

  lemma {:induction false} BatchesBeforeMeans(a: seq<string>, b: seq<string>)
    requires |a| == |b|
    ensures BatchesBefore(a, b) <==> IdsBefore(a, b)
  {
    if a != [] {
      BatchesBeforeMeans(a[1..], b[1..]);
      if IdsBefore(a, b) {
        var k :| 0 <= k < |a| && k < |b| && a[..k] == b[..k] && TextBefore(a[k], b[k]);
        if k > 0 {
          assert a[0] == a[..k][0] == b[..k][0] == b[0];
          assert a[1..][..k - 1] == a[..k][1..] && b[1..][..k - 1] == b[..k][1..];
          assert TextBefore(a[1..][k - 1], b[1..][k - 1]);
        }
      }
      if a[0] == b[0] && IdsBefore(a[1..], b[1..]) {
        var k :| 0 <= k < |a[1..]| && a[1..][..k] == b[1..][..k] && TextBefore(a[1..][k], b[1..][k]);
        assert a[..k + 1] == [a[0]] + a[1..][..k] && b[..k + 1] == [b[0]] + b[1..][..k];
        assert TextBefore(a[k + 1], b[k + 1]);
      }
      if TextBefore(a[0], b[0]) {
        assert a[..0] == b[..0];
      }
    }
  }

  /** Nothing is said for the path against the route: the route is shorter, or as
      short with fewer passes, or as both with ids that do not come later. */
  ghost predicate NoBetter(path: seq<Candidate>, route: seq<Candidate>) {
    && |route| <= |path|
    && (|route| == |path| ==> |Flatten(route)| <= |Flatten(path)|)
    && (|route| == |path| && |Flatten(route)| == |Flatten(path)| ==> !IdsBefore(Ids(path), Ids(route)))
  }

  lemma BetterMeans(path: seq<Candidate>, route: seq<Candidate>)
    ensures Better(Key(path), Key(route)) <==> !NoBetter(path, route)
  {
    KeyMeans(path);
    KeyMeans(route);
    if |path| == |route| {
      BatchesBeforeMeans(Ids(path), Ids(route));
    }
  }

  /** `_path_is_better`: length, then pass count, then batch sequence. */
  predicate Better(a: PathInfo, b: PathInfo) {
    || a.length < b.length
    || (a.length == b.length && a.invocations < b.invocations)
    || (a.length == b.length && a.invocations == b.invocations && BatchesBefore(a.batches, b.batches))
  }

  lemma {:induction false} TextTotal(a: string, b: string)
    ensures a == b || TextBefore(a, b) || TextBefore(b, a)
  {
    if a != "" && b != "" && a[0] == b[0] {
      TextTotal(a[1..], b[1..]);
      assert a == [a[0]] + a[1..] && b == [b[0]] + b[1..];
    }
  }

  lemma {:induction false} BatchesNegativelyTransitive(a: seq<string>, b: seq<string>, c: seq<string>)
    requires !BatchesBefore(a, b) && !BatchesBefore(b, c)
    ensures !BatchesBefore(a, c)
  {
    if a != [] && b != [] && c != [] {
      TextNegativelyTransitive(a[0], b[0], c[0]);
      TextTotal(a[0], b[0]);
      TextTotal(b[0], c[0]);
      if a[0] == c[0] {
        if a[0] == b[0] {
          BatchesNegativelyTransitive(a[1..], b[1..], c[1..]);
        }
      }
    }
  }

  lemma BetterNegativelyTransitive(a: PathInfo, b: PathInfo, c: PathInfo)
    requires !Better(a, b) && !Better(b, c)
    ensures !Better(a, c)
  {
    if a.length == b.length == c.length && a.invocations == b.invocations == c.invocations {
      BatchesNegativelyTransitive(a.batches, b.batches, c.batches);
    }
  }

  lemma {:induction false} BatchesIrreflexive(a: seq<string>)
    ensures !BatchesBefore(a, a)
  {
    if a != [] {
      if TextBefore(a[0], a[0]) { TextAsymmetric(a[0], a[0]); }
      BatchesIrreflexive(a[1..]);
    }
  }

  lemma {:induction false} SharedEndDropped(a: seq<string>, b: seq<string>, x: string)
    requires |a| == |b| && BatchesBefore(a + [x], b + [x])
    ensures BatchesBefore(a, b)
  {
    if a == [] {
      assert a + [x] == [x] && b + [x] == [x];
      BatchesIrreflexive([x]);
    } else {
      assert (a + [x])[1..] == a[1..] + [x] && (b + [x])[1..] == b[1..] + [x];
      if !TextBefore(a[0], b[0]) {
        SharedEndDropped(a[1..], b[1..], x);
      }
    }
  }

  /** Extending two paths by one batch keeps their order. */
  lemma ExtendMonotone(a: PathInfo, b: PathInfo, c: Candidate)
    requires |a.batches| == a.length && |b.batches| == b.length && !Better(a, b)
    ensures !Better(Extend(a, c), Extend(b, c))
  {
    if a.length == b.length && a.invocations == b.invocations
      && BatchesBefore(a.batches + [c.batchId], b.batches + [c.batchId]) {
      SharedEndDropped(a.batches, b.batches, c.batchId);
    }
  }

  lemma {:induction false} KeyBatches(path: seq<Candidate>)
    ensures |Key(path).batches| == Key(path).length
  {
    if path != [] {
      KeyBatches(path[..|path| - 1]);
    }
  }

  // ------------------------------------------------------------ the graph

  datatype Edge = Edge(parent: nat, batch: Candidate)

  /** State ids are positions in `states`; 0 is the root. */
  datatype Graph = Graph(
    states: seq<Ir>, byHash: map<Digest, nat>, info: seq<PathInfo>, parents: map<nat, Edge>)

  function InitialGraph(w: World, root: Ir): Graph {
    Graph([root], map[w.stateHash(root) := 0], [RootInfo], map[])
  }

  /** The batch takes `x` to a program with hash `h`. */
  ghost predicate Moves(w: World, x: Ir, c: Candidate, h: Digest) {
    Executable(w.analyse(x), c) && OutcomeHash(w, w.Run(c.order, x)) == Some(h)
  }

  /** The batch applies to state `i` and its result is a recorded state. */
  ghost predicate HasChild(w: World, g: Graph, i: nat, c: Candidate)
    requires i < |g.states|
  {
    match w.Run(c.order, g.states[i])
    case None => false
    case Some(y) => w.stateHash(y) in g.byHash
  }

  ghost predicate Indexed(w: World, g: Graph) {
    && |g.info| == |g.states| > 0
    && (forall i :: 0 <= i < |g.states| ==>
          w.stateHash(g.states[i]) in g.byHash && g.byHash[w.stateHash(g.states[i])] == i)
    && (forall h :: h in g.byHash ==> g.byHash[h] < |g.states| && w.stateHash(g.states[g.byHash[h]]) == h)
  }

  /** The parent link of `j` is a real batch transition, and however paths were
      shortened since, the recorded length of `j` stays above its parent's. */
  ghost predicate LinkHolds(w: World, g: Graph, j: nat)
    requires |g.info| == |g.states|
  {
    && 0 < j < |g.states| && j in g.parents && g.parents[j].parent < |g.states|
    && Moves(w, g.states[g.parents[j].parent], g.parents[j].batch, w.stateHash(g.states[j]))
    && g.info[j].length >= g.info[g.parents[j].parent].length + 1
  }

  /** The recorded path of `j` is the key of a real path from the root. */
  ghost predicate RouteExists(w: World, g: Graph, j: nat)
    requires |g.info| == |g.states| > 0 && j < |g.states|
  {
    exists path :: IsRoute(w, g, j, path)
  }

  ghost predicate IsRoute(w: World, g: Graph, j: nat, path: seq<Candidate>)
    requires |g.info| == |g.states| > 0 && j < |g.states|
  {
    && Key(path) == g.info[j]
    && (HashRespected(w) ==> OutcomeHash(w, RunPath(w, g.states[0], path)) == Some(w.stateHash(g.states[j])))
  }

  ghost predicate Valid(w: World, root: Ir, g: Graph) {
    && Indexed(w, g) && g.states[0] == root && g.info[0] == RootInfo && 0 !in g.parents
    && (forall j {:trigger LinkHolds(w, g, j)} :: 0 < j < |g.states| ==> LinkHolds(w, g, j))
    && (forall j {:trigger RouteExists(w, g, j)} :: 0 <= j < |g.states| ==> RouteExists(w, g, j))
  }

  /** Parent links are never stale: a path is its parent's path plus one batch. */
  ghost predicate Fresh(g: Graph) {
    forall j :: j in g.parents ==>
      j < |g.info| && g.parents[j].parent < |g.info|
        && g.info[j] == Extend(g.info[g.parents[j].parent], g.parents[j].batch)
  }

  /** A new state, with its first path. */
  function Discover(w: World, g: Graph, child: Ir, info: PathInfo, edge: Edge): Graph {
    Graph(g.states + [child], g.byHash[w.stateHash(child) := |g.states|], g.info + [info],
      g.parents[|g.states| := edge])
  }

  /** A known state: replace its path only by a better one; the root keeps its own. */
  function Relax(g: Graph, child: nat, info: PathInfo, edge: Edge): Graph
    requires child < |g.info|
  {
    if child != 0 && Better(info, g.info[child])
    then g.(info := g.info[child := info], parents := g.parents[child := edge])
    else g
  }

  lemma InitialValid(w: World, root: Ir)
    ensures Valid(w, root, InitialGraph(w, root))
  {
    var g := InitialGraph(w, root);
    assert IsRoute(w, g, 0, []);
    assert RouteExists(w, g, 0);
  }

  /** Following an edge extends a route of the parent to one of the child. */
  lemma RouteAlongEdge(w: World, root: Ir, g: Graph, parent: nat, c: Candidate, h: Digest)
    returns (path: seq<Candidate>)
    requires Valid(w, root, g) && parent < |g.states| && Moves(w, g.states[parent], c, h)
    ensures Key(path) == Extend(g.info[parent], c)
    ensures HashRespected(w) ==> OutcomeHash(w, RunPath(w, root, path)) == Some(h)
  {
    assert RouteExists(w, g, parent);
    var before :| IsRoute(w, g, parent, before);
    path := before + [c];
    KeyAppend(before, c);
    RunPathAppend(w, root, before, c);
    if HashRespected(w) {
      var x := RunPath(w, root, before).value;
      OrdersRespectHash(w, c.order, x, g.states[parent]);
    }
  }

  lemma DiscoverKeepsValid(w: World, root: Ir, g: Graph, parent: nat, c: Candidate, child: Ir)
    requires Valid(w, root, g) && parent < |g.states|
    requires Moves(w, g.states[parent], c, w.stateHash(child)) && w.stateHash(child) !in g.byHash
    ensures Valid(w, root, Discover(w, g, child, Extend(g.info[parent], c), Edge(parent, c)))
  {
    var g' := Discover(w, g, child, Extend(g.info[parent], c), Edge(parent, c));
    var n := |g.states|;
    assert Indexed(w, g') by {
      forall i | 0 <= i < |g'.states|
        ensures w.stateHash(g'.states[i]) in g'.byHash && g'.byHash[w.stateHash(g'.states[i])] == i
      {
        if i < n { assert g'.states[i] == g.states[i]; }
      }
    }
    forall j {:trigger LinkHolds(w, g', j)} | 0 < j < |g'.states| ensures LinkHolds(w, g', j) {
      if j < n { assert LinkHolds(w, g, j); }
    }
    var path := RouteAlongEdge(w, root, g, parent, c, w.stateHash(child));
    forall j {:trigger RouteExists(w, g', j)} | 0 <= j < |g'.states| ensures RouteExists(w, g', j) {
      if j < n {
        assert RouteExists(w, g, j);
        var old_ :| IsRoute(w, g, j, old_);
        assert IsRoute(w, g', j, old_);
      } else {
        assert IsRoute(w, g', j, path);
      }
    }
  }

  lemma RelaxKeepsValid(w: World, root: Ir, g: Graph, parent: nat, c: Candidate, child: nat)
    requires Valid(w, root, g) && parent < |g.states| && child < |g.states|
    requires Moves(w, g.states[parent], c, w.stateHash(g.states[child]))
    ensures Valid(w, root, Relax(g, child, Extend(g.info[parent], c), Edge(parent, c)))
  {
    var info := Extend(g.info[parent], c);
    var g' := Relax(g, child, info, Edge(parent, c));
    if child != 0 && Better(info, g.info[child]) {
      forall j {:trigger LinkHolds(w, g', j)} | 0 < j < |g'.states| ensures LinkHolds(w, g', j) {
        assert LinkHolds(w, g, j);
      }
      var path := RouteAlongEdge(w, root, g, parent, c, w.stateHash(g.states[child]));
      forall j {:trigger RouteExists(w, g', j)} | 0 <= j < |g'.states| ensures RouteExists(w, g', j) {
        if j == child {
          assert IsRoute(w, g', j, path);
        } else {
          assert RouteExists(w, g, j);
          var old_ :| IsRoute(w, g, j, old_);
          assert IsRoute(w, g', j, old_);
        }
      }
    }
  }

  // ----------------------------------------------------- the chosen pipeline

  lemma {:induction false} FlattenReplays(w: World, root: Ir, path: seq<Candidate>)
    requires RunPath(w, root, path).Some?
    ensures w.tc.Replay(Flatten(path), root) == RunPath(w, root, path)
  {
    if path != [] {
      var init, c := path[..|path| - 1], path[|path| - 1];
      FlattenReplays(w, root, init);
      w.tc.ReplayConcat(Flatten(init), c.order, root);
    }
  }

  /** A path from `x`, run over hash-merged states, ends with hash `h`. */
  lemma {:induction false} RunFromTwin(w: World, x: Ir, y: Ir, path: seq<Candidate>)
    requires HashRespected(w) && w.stateHash(x) == w.stateHash(y)
    ensures OutcomeHash(w, RunPath(w, x, path)) == OutcomeHash(w, RunPath(w, y, path))
  {
    if path != [] {
      var init, c := path[..|path| - 1], path[|path| - 1];
      RunFromTwin(w, x, y, init);
      if RunPath(w, x, init).Some? {
        OrdersRespectHash(w, c.order, RunPath(w, x, init).value, RunPath(w, y, init).value);
      }
    }
  }

  lemma {:induction false} RunPathCons(w: World, x: Ir, c: Candidate, path: seq<Candidate>)
    requires Executable(w.analyse(x), c) && w.Run(c.order, x).Some?
    ensures RunPath(w, x, [c] + path) == RunPath(w, w.Run(c.order, x).value, path)
  {
    if path == [] {
      assert [c] + path == [] + [c];
      RunPathAppend(w, x, [], c);
    } else {
      var init, last := path[..|path| - 1], path[|path| - 1];
      RunPathCons(w, x, c, init);
      assert [c] + path == ([c] + init) + [last];
      RunPathAppend(w, x, [c] + init, last);
    }
  }

  /** The path info after the batches of `rows`, starting from `info`. */
  function ExtendAll(info: PathInfo, rows: seq<Candidate>): PathInfo {
    if rows == [] then info else Extend(ExtendAll(info, rows[..|rows| - 1]), rows[|rows| - 1])
  }

  lemma {:induction false} ExtendAllCons(info: PathInfo, c: Candidate, rows: seq<Candidate>)
    ensures ExtendAll(info, [c] + rows) == ExtendAll(Extend(info, c), rows)
  {
    if rows == [] {
      assert [c] + rows == [c];
      assert [c][..0] == [];
    } else {
      ExtendAllCons(info, c, rows[..|rows| - 1]);
      assert ([c] + rows)[..|rows|] == [c] + rows[..|rows| - 1];
    }
  }

  lemma {:induction false} KeyIsExtendAll(rows: seq<Candidate>)
    ensures Key(rows) == ExtendAll(RootInfo, rows)
  {
    if rows != [] {
      KeyIsExtendAll(rows[..|rows| - 1]);
    }
  }

  lemma EveryStateHasAParent(w: World, root: Ir, g: Graph)
    requires Valid(w, root, g)
    ensures forall j :: 0 < j < |g.states| ==> j in g.parents
  {
    forall j | 0 < j < |g.states| ensures j in g.parents { assert LinkHolds(w, g, j); }
  }

  /** `_chosen_path_rows`: walk the parent links from the selected state. The walk
      ends at the root, and the flattened pipeline replays to the selected state. */
  method ChosenPath(w: World, root: Ir, g: Graph, selected: nat) returns (rows: seq<Candidate>)
    requires Valid(w, root, g) && selected < |g.states|
    ensures |rows| <= g.info[selected].length
    ensures Fresh(g) ==> g.info[selected] == PathInfo(|rows|, |Flatten(rows)|, |CertifiedOf(rows)|, Ids(rows))
    ensures HashRespected(w) ==>
              && OutcomeHash(w, RunPath(w, root, rows)) == Some(w.stateHash(g.states[selected]))
              && OutcomeHash(w, w.tc.Replay(Flatten(rows), root)) == Some(w.stateHash(g.states[selected]))
  {
    rows := [];
    EveryStateHasAParent(w, root, g);
    var current: nat := selected;
    while current != 0 && current in g.parents
      invariant current < |g.states|
      invariant |rows| + g.info[current].length <= g.info[selected].length
      invariant HashRespected(w) ==>
                  OutcomeHash(w, RunPath(w, g.states[current], rows)) == Some(w.stateHash(g.states[selected]))
      invariant Fresh(g) ==> ExtendAll(g.info[current], rows) == g.info[selected]
      decreases g.info[current].length
    {
      assert LinkHolds(w, g, current);
      var edge := g.parents[current];
      if HashRespected(w) {
        var y := w.Run(edge.batch.order, g.states[edge.parent]).value;
        RunPathCons(w, g.states[edge.parent], edge.batch, rows);
        RunFromTwin(w, y, g.states[current], rows);
      }
      ExtendAllCons(g.info[edge.parent], edge.batch, rows);
      rows := [edge.batch] + rows;
      current := edge.parent;
    }
    KeyIsExtendAll(rows);
    KeyMeans(rows);
    if HashRespected(w) {
      FlattenReplays(w, root, rows);
    }
  }

  // ------------------------------------------------------------- selection

  function CertifiedRatio(info: PathInfo): real {
    if info.length == 0 then 1.0 else info.certifiedSteps as real / info.length as real
  }

  /** `_state_selection_key`, compared: smaller objective, shorter path, fewer
      passes, higher certified ratio, smaller id text. */
  predicate SelectedBefore(w: World, g: Graph, a: nat, b: nat)
    requires |g.info| == |g.states| && a < |g.states| && b < |g.states|
  {
    var (oa, ob) := (w.objective(g.states[a]), w.objective(g.states[b]));
    var (ia, ib) := (g.info[a], g.info[b]);
    || oa < ob
    || (oa == ob && ia.length < ib.length)
    || (oa == ob && ia.length == ib.length && ia.invocations < ib.invocations)
    || (oa == ob && ia.length == ib.length && ia.invocations == ib.invocations
        && CertifiedRatio(ia) > CertifiedRatio(ib))
    || (oa == ob && ia.length == ib.length && ia.invocations == ib.invocations
        && CertifiedRatio(ia) == CertifiedRatio(ib)
        && TextBefore(NodeName(a), NodeName(b)))
  }

  lemma SelectedNegativelyTransitive(w: World, g: Graph, a: nat, b: nat, c: nat)
    requires |g.info| == |g.states| && a < |g.states| && b < |g.states| && c < |g.states|
    requires !SelectedBefore(w, g, a, b) && !SelectedBefore(w, g, b, c)
    ensures !SelectedBefore(w, g, a, c)
  {
    if !TextBefore(NodeName(a), NodeName(b)) && !TextBefore(NodeName(b), NodeName(c)) {
      TextNegativelyTransitive(NodeName(a), NodeName(b), NodeName(c));
    }
  }

  /** The state of least objective; among those, of the shortest path; among those, with
      the fewest passes; then with the most certified batches; then of the first id. */
  ghost predicate IsChosen(w: World, g: Graph, among: set<nat>, best: nat)
    requires |g.info| == |g.states| && forall i :: i in among ==> i < |g.states|
  {
    && best in among
    && var (objective, path) := (w.objective(g.states[best]), g.info[best]);
       forall i :: i in among ==>
         && objective <= w.objective(g.states[i])
         && (objective == w.objective(g.states[i]) ==> path.length <= g.info[i].length)
         && (objective == w.objective(g.states[i]) && path.length == g.info[i].length ==>
               && path.invocations <= g.info[i].invocations
               && (path.invocations == g.info[i].invocations && path.length > 0 ==>
                     path.certifiedSteps >= g.info[i].certifiedSteps)
               && (path.invocations == g.info[i].invocations && path.certifiedSteps == g.info[i].certifiedSteps ==>
                     i == best || TextBefore(NodeName(best), NodeName(i))))
  }

  lemma NothingBeforeIsChosen(w: World, g: Graph, among: set<nat>, best: nat)
    requires |g.info| == |g.states| && best in among && forall i :: i in among ==> i < |g.states|
    requires forall i :: i in among ==> !SelectedBefore(w, g, i, best)
    ensures IsChosen(w, g, among, best)
  {
    forall i | i in among && i != best ensures TextBefore(NodeName(i), NodeName(best))
                                               || TextBefore(NodeName(best), NodeName(i))
    {
      if NodeName(i) == NodeName(best) { NamesAreUnique(i, best); }
      TextTotal(NodeName(i), NodeName(best));
    }
    forall i | i in among && g.info[i].length == g.info[best].length > 0
      ensures CertifiedRatio(g.info[i]) > CertifiedRatio(g.info[best]) <==>
              g.info[i].certifiedSteps > g.info[best].certifiedSteps
    {
      RatiosAsSteps(g.info[i].certifiedSteps, g.info[best].certifiedSteps, g.info[best].length);
    }
  }

  lemma RatiosAsSteps(a: nat, b: nat, length: nat)
    requires length > 0
    ensures a as real / length as real > b as real / length as real <==> a > b
  {
  }

  /** `min(candidates, key=_state_selection_key)`. */
  method SelectBest(w: World, g: Graph, candidates: seq<nat>) returns (best: nat)
    requires |g.info| == |g.states| && candidates != [] && forall i :: i in candidates ==> i < |g.states|
    ensures IsChosen(w, g, ToSet(candidates), best)
  {
    hide SelectedBefore, IsChosen;
    best := candidates[0];
    assert best in candidates;
    SelectedIrreflexive(w, g, best);
    for k := 1 to |candidates|
      invariant best in candidates && best < |g.states|
      invariant forall l :: 0 <= l < k ==> candidates[l] < |g.states| && !SelectedBefore(w, g, candidates[l], best)
    {
      var next := candidates[k];
      assert next in candidates;
      SelectedIrreflexive(w, g, next);
      if SelectedBefore(w, g, next, best) {
        SelectedAsymmetric(w, g, next, best);
        forall l | 0 <= l < k ensures !SelectedBefore(w, g, candidates[l], next) {
          SelectedNegativelyTransitive(w, g, candidates[l], best, next);
        }
        best := next;
      }
    }
    NothingBeforeIsChosen(w, g, ToSet(candidates), best);
  }

  lemma SelectedAsymmetric(w: World, g: Graph, a: nat, b: nat)
    requires |g.info| == |g.states| && a < |g.states| && b < |g.states| && SelectedBefore(w, g, a, b)
    ensures !SelectedBefore(w, g, b, a)
  {
    if TextBefore(NodeName(a), NodeName(b)) { TextAsymmetric(NodeName(a), NodeName(b)); }
  }

  lemma SelectedIrreflexive(w: World, g: Graph, a: nat)
    requires |g.info| == |g.states| && a < |g.states|
    ensures !SelectedBefore(w, g, a, a)
  {
    if TextBefore(NodeName(a), NodeName(a)) { TextAsymmetric(NodeName(a), NodeName(a)); }
  }
}
