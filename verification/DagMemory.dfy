/** Where the programs of a permutation DAG come from. Transitions are looked up by
    digest in a memo table that all batches of one state share, so a node may hold
    the output of a pass on another program with the same digest. */
module DagMemory {
  import opened Basics
  import opened Toolchains
  import opened ValidationRuntimes
  import opened DagEvidence

  type Table = map<TransitionKey, Transition>

  // ------------------------------------------------------ where entries come from

  /** Running the pass of the key for node `m` itself gave `out`. */
  ghost predicate MadeFrom(tc: Toolchain, m: DagNode, k: TransitionKey, out: Ir) {
    m.digest == k.source && k.pass !in m.subset && tc.apply(k.pass, m.ir) == Some(out)
  }

  /** The entry was there before the run, or was made from one of these nodes. */
  ghost predicate Supplied(tc: Toolchain, nodes: seq<DagNode>, stock: Table, k: TransitionKey, out: Ir) {
    || (k in stock && stock[k].ir == out)
    || exists m :: m in nodes && MadeFrom(tc, m, k, out)
  }

  ghost predicate Stocked(tc: Toolchain, nodes: seq<DagNode>, passes: seq<Pass>, stock: Table, table: Table) {
    && (forall k :: k in stock ==> k in table && table[k] == stock[k])
    && (forall k :: k in table ==> Supplied(tc, nodes, stock, k, table[k].ir))
    && (forall k :: k in table && k !in stock ==> k.pass in passes)
  }

  /** Node `n` holds what the table says about the digest of `m` and pass `p`. */
  ghost predicate Recalled(table: Table, m: DagNode, p: Pass, n: DagNode) {
    && p !in m.subset && n.path == m.path + [p]
    && TransitionKey(m.digest, p) in table && table[TransitionKey(m.digest, p)].ir == n.ir
  }

  ghost predicate RecordedFrom(tc: Toolchain, nodes: seq<DagNode>, stock: Table, table: Table, i: nat, j: nat, p: Pass)
    requires i < |nodes|
  {
    && j < i && Recalled(table, nodes[j], p, nodes[i])
    && Supplied(tc, nodes[..i], stock, TransitionKey(nodes[j].digest, p), nodes[i].ir)
  }

  ghost predicate RecordedAt(tc: Toolchain, nodes: seq<DagNode>, stock: Table, table: Table, i: nat)
    requires i < |nodes|
  {
    exists j, p :: RecordedFrom(tc, nodes, stock, table, i, j, p)
  }

  ghost predicate Recorded(tc: Toolchain, nodes: seq<DagNode>, stock: Table, table: Table) {
    forall i {:trigger RecordedAt(tc, nodes, stock, table, i)} :: 0 < i < |nodes| ==>
      RecordedAt(tc, nodes, stock, table, i)
  }

  // ------------------------------------------------------ keeping track

  lemma SuppliedStays(tc: Toolchain, nodes: seq<DagNode>, more: seq<DagNode>, stock: Table, k: TransitionKey, out: Ir)
    requires Supplied(tc, nodes, stock, k, out) && forall n :: n in nodes ==> n in more
    ensures Supplied(tc, more, stock, k, out)
  {
    if exists m :: m in nodes && MadeFrom(tc, m, k, out) {
      var m :| m in nodes && MadeFrom(tc, m, k, out);
      assert m in more;
    }
  }

  lemma StockedByMoreNodes(tc: Toolchain, nodes: seq<DagNode>, node: DagNode, passes: seq<Pass>, stock: Table,
                           table: Table)
    requires Stocked(tc, nodes, passes, stock, table)
    ensures Stocked(tc, nodes + [node], passes, stock, table)
  {
    hide Supplied;
    forall k | k in table ensures Supplied(tc, nodes + [node], stock, k, table[k].ir) {
      SuppliedStays(tc, nodes, nodes + [node], stock, k, table[k].ir);
    }
  }

  /** A pass run for a node adds an entry. */
  lemma StockedOneMore(tc: Toolchain, nodes: seq<DagNode>, passes: seq<Pass>, stock: Table, table: Table,
                       n: DagNode, p: Pass, t: Transition)
    requires Stocked(tc, nodes, passes, stock, table) && n in nodes && p in passes && p !in n.subset
    requires tc.apply(p, n.ir) == Some(t.ir) && TransitionKey(n.digest, p) !in table
    ensures Stocked(tc, nodes, passes, stock, table[TransitionKey(n.digest, p) := t])
  {
    var k := TransitionKey(n.digest, p);
    assert MadeFrom(tc, n, k, t.ir);
  }

  lemma RecordedInLargerTable(tc: Toolchain, nodes: seq<DagNode>, stock: Table, table: Table, k: TransitionKey,
                              t: Transition)
    requires Recorded(tc, nodes, stock, table) && k !in table
    ensures Recorded(tc, nodes, stock, table[k := t])
  {
    hide Supplied;
    forall i {:trigger RecordedAt(tc, nodes, stock, table[k := t], i)} | 0 < i < |nodes|
      ensures RecordedAt(tc, nodes, stock, table[k := t], i)
    {
      assert RecordedAt(tc, nodes, stock, table, i);
      var j, p :| RecordedFrom(tc, nodes, stock, table, i, j, p);
      assert RecordedFrom(tc, nodes, stock, table[k := t], i, j, p);
    }
  }

  lemma RecordedOneMore(tc: Toolchain, nodes: seq<DagNode>, passes: seq<Pass>, stock: Table, table: Table, m: DagNode,
                        p: Pass, node: DagNode)
    requires Recorded(tc, nodes, stock, table) && Stocked(tc, nodes, passes, stock, table)
    requires m in nodes && Recalled(table, m, p, node)
    ensures Recorded(tc, nodes + [node], stock, table)
  {
    hide Supplied, Recalled;
    var all := nodes + [node];
    forall i {:trigger RecordedAt(tc, all, stock, table, i)} | 0 < i < |all|
      ensures RecordedAt(tc, all, stock, table, i)
    {
      if i < |nodes| {
        assert RecordedAt(tc, nodes, stock, table, i);
        var j, q :| RecordedFrom(tc, nodes, stock, table, i, j, q);
        assert all[..i] == nodes[..i];
        assert RecordedFrom(tc, all, stock, table, i, j, q);
      } else {
        var j :| 0 <= j < |nodes| && nodes[j] == m;
        assert all[..i] == nodes;
        RecalledIsSupplied(tc, nodes, passes, stock, table, m, p, node);
        assert RecordedFrom(tc, all, stock, table, i, j, p);
      }
    }
  }

  lemma RecalledIsSupplied(tc: Toolchain, nodes: seq<DagNode>, passes: seq<Pass>, stock: Table, table: Table,
                           m: DagNode, p: Pass, node: DagNode)
    requires Stocked(tc, nodes, passes, stock, table) && Recalled(table, m, p, node)
    ensures Supplied(tc, nodes, stock, TransitionKey(m.digest, p), node.ir)
  {
  }

  // ------------------------------------------------------ exact replays

  ghost predicate NodesReplayExactly(tc: Toolchain, root: Ir, nodes: seq<DagNode>) {
    forall n :: n in nodes ==> tc.Replay(n.path, root) == Some(n.ir)
  }

  /** A duplicate-free sequence over `universe` without `p`. */
  ghost predicate Lacks(universe: set<Pass>, s: seq<Pass>, p: Pass) {
    Distinct(s) && ToSet(s) <= universe && p !in s
  }

  /** Sequences `s` and `t` take the root to programs with one digest that pass `p` tells apart. */
  ghost predicate ToldApart(tc: Toolchain, root: Ir, s: seq<Pass>, t: seq<Pass>, p: Pass) {
    && tc.Replay(s, root).Some? && tc.Replay(t, root).Some?
    && tc.digest(tc.Replay(s, root).value) == tc.digest(tc.Replay(t, root).value)
    && tc.apply(p, tc.Replay(s, root).value).Some?
    && tc.apply(p, tc.Replay(t, root).value) != tc.apply(p, tc.Replay(s, root).value)
  }

  /** On programs reached from the root by duplicate-free sequences, a pass not yet
      used cannot tell programs with one digest apart, not even textually. */
  ghost predicate DigestsDecide(tc: Toolchain, root: Ir, universe: set<Pass>) {
    forall s, t, p :: p in universe && Lacks(universe, s, p) && Lacks(universe, t, p) ==> !ToldApart(tc, root, s, t, p)
  }

  /** The entry is the output of its pass on a program reached by `s`. */
  ghost predicate ReplayedInto(tc: Toolchain, root: Ir, s: seq<Pass>, k: TransitionKey, out: Ir) {
    && tc.Replay(s, root).Some? && tc.digest(tc.Replay(s, root).value) == k.source
    && tc.apply(k.pass, tc.Replay(s, root).value) == Some(out)
  }

  /** The entries were computed in this state, on programs reached from its root. */
  ghost predicate FromReplays(tc: Toolchain, root: Ir, universe: set<Pass>, table: Table) {
    forall k {:trigger Remembers(tc, root, universe, table, k)} :: k in table ==>
      Remembers(tc, root, universe, table, k)
  }

  ghost predicate Remembers(tc: Toolchain, root: Ir, universe: set<Pass>, table: Table, k: TransitionKey) {
    && k in table
    && k.pass in universe
    && exists s :: Lacks(universe, s, k.pass) && ReplayedInto(tc, root, s, k, table[k].ir)
  }

  /** The table of a state starts with the single-pass outputs of its input. */
  lemma SeedsAreReplays(tc: Toolchain, root: Ir, universe: set<Pass>, table: Table, p: Pass, out: Ir)
    requires FromReplays(tc, root, universe, table) && p in universe && tc.apply(p, root) == Some(out)
    ensures FromReplays(tc, root, universe, table[TransitionKey(tc.digest(root), p) := Transition(out, tc.digest(out))])
  {
    var k := TransitionKey(tc.digest(root), p);
    var table' := table[k := Transition(out, tc.digest(out))];
    assert Lacks(universe, [], p) && ReplayedInto(tc, root, [], k, out);
    forall l {:trigger Remembers(tc, root, universe, table', l)} | l in table'
      ensures Remembers(tc, root, universe, table', l)
    {
      if l != k {
        assert Remembers(tc, root, universe, table, l);
      }
    }
  }

  /** The parent of a node, the pass between them, and what the table knew about it. */
  lemma Parent(tc: Toolchain, root: Ir, passes: seq<Pass>, nodes: seq<DagNode>, stock: Table, table: Table, i: nat)
    returns (j: nat, p: Pass)
    requires Grown(tc, root, passes, nodes) && Recorded(tc, nodes, stock, table) && 0 < i < |nodes|
    ensures RecordedFrom(tc, nodes, stock, table, i, j, p) && p in passes
    ensures nodes[j].digest == tc.digest(nodes[j].ir) && WellFormed(tc, passes, nodes[j])
  {
    assert RecordedAt(tc, nodes, stock, table, i);
    j, p :| RecordedFrom(tc, nodes, stock, table, i, j, p);
    assert nodes[i].path[|nodes[i].path| - 1] == p;
    assert p in ToSet(nodes[i].path);
  }

  lemma PathLacks(tc: Toolchain, passes: seq<Pass>, universe: set<Pass>, m: DagNode, p: Pass)
    requires WellFormed(tc, passes, m) && ToSet(passes) <= universe && p !in m.subset
    ensures Lacks(universe, m.path, p)
  {
    assert p in m.path <==> p in ToSet(m.path);
  }

  /** If digests decide, every node of a run on entries of this state is exactly the
      replay of its path. */
  lemma {:induction false} NodeReplaysExactly(tc: Toolchain, root: Ir, passes: seq<Pass>, universe: set<Pass>,
                                              nodes: seq<DagNode>, stock: Table, table: Table, i: nat)
    requires Grown(tc, root, passes, nodes) && Recorded(tc, nodes, stock, table) && ToSet(passes) <= universe
    requires DigestsDecide(tc, root, universe) && FromReplays(tc, root, universe, stock) && i < |nodes|
    ensures tc.Replay(nodes[i].path, root) == Some(nodes[i].ir)
    decreases i
  {
    hide WellFormed, HasOrigin, Lacks, Supplied, FromReplays, DigestsDecide, Recorded;
    if i > 0 {
      var j, p := Parent(tc, root, passes, nodes, stock, table, i);
      NodeReplaysExactly(tc, root, passes, universe, nodes, stock, table, j);
      tc.ReplayAppend(nodes[j].path, p, root);
      var k := TransitionKey(nodes[j].digest, p);
      assert p in ToSet(passes);
      var s := SuppliedBy(tc, root, passes, universe, nodes, stock, table, i, k, nodes[i].ir);
      PathLacks(tc, passes, universe, nodes[j], p);
      DecidedFor(tc, root, universe, s, nodes[j].path, p);
    }
  }

  lemma DecidedFor(tc: Toolchain, root: Ir, universe: set<Pass>, s: seq<Pass>, t: seq<Pass>, p: Pass)
    requires DigestsDecide(tc, root, universe) && p in universe && Lacks(universe, s, p) && Lacks(universe, t, p)
    ensures !ToldApart(tc, root, s, t, p)
  {
  }

  /** Some duplicate-free sequence accounts for what the table supplied. */
  lemma {:induction false} SuppliedBy(tc: Toolchain, root: Ir, passes: seq<Pass>, universe: set<Pass>,
                                      nodes: seq<DagNode>, stock: Table, table: Table, i: nat,
                                      k: TransitionKey, out: Ir)
    returns (s: seq<Pass>)
    requires Grown(tc, root, passes, nodes) && Recorded(tc, nodes, stock, table) && ToSet(passes) <= universe
    requires DigestsDecide(tc, root, universe) && FromReplays(tc, root, universe, stock) && 0 < i < |nodes|
    requires Supplied(tc, nodes[..i], stock, k, out) && k.pass in universe
    ensures Lacks(universe, s, k.pass) && ReplayedInto(tc, root, s, k, out)
    decreases i, 0
  {
    if k in stock && stock[k].ir == out {
      assert Remembers(tc, root, universe, stock, k);
      s :| Lacks(universe, s, k.pass) && ReplayedInto(tc, root, s, k, stock[k].ir);
    } else {
      var m :| m in nodes[..i] && MadeFrom(tc, m, k, out);
      var a :| 0 <= a < i && nodes[a] == m;
      NodeReplaysExactly(tc, root, passes, universe, nodes, stock, table, a);
      PathLacks(tc, passes, universe, m, k.pass);
      s := m.path;
    }
  }

  /** With digests that decide, every node of the run is the exact replay of its path,
      and what the run leaves in the table comes from this state again. */
  lemma ExactWhenDigestsDecide(tc: Toolchain, root: Ir, passes: seq<Pass>, universe: set<Pass>, nodes: seq<DagNode>,
                               stock: Table, table: Table)
    requires Grown(tc, root, passes, nodes) && Recorded(tc, nodes, stock, table)
    requires Stocked(tc, nodes, passes, stock, table)
    requires ToSet(passes) <= universe && DigestsDecide(tc, root, universe) && FromReplays(tc, root, universe, stock)
    ensures NodesReplayExactly(tc, root, nodes) && FromReplays(tc, root, universe, table)
  {
    hide HasOrigin, DigestsDecide, Lacks;
    forall n | n in nodes ensures tc.Replay(n.path, root) == Some(n.ir) {
      var i :| 0 <= i < |nodes| && nodes[i] == n;
      NodeReplaysExactly(tc, root, passes, universe, nodes, stock, table, i);
    }
    forall k {:trigger Remembers(tc, root, universe, table, k)} | k in table
      ensures Remembers(tc, root, universe, table, k)
    {
      if k in stock {
        assert Remembers(tc, root, universe, stock, k);
      } else {
        assert Supplied(tc, nodes, stock, k, table[k].ir);
        var m :| m in nodes && MadeFrom(tc, m, k, table[k].ir);
        PathLacks(tc, passes, universe, m, k.pass);
        assert k.pass in ToSet(passes);
        assert ReplayedInto(tc, root, m.path, k, table[k].ir);
      }
    }
  }

  /** Where all nodes are exact, the table holds the output of the last pass of each. */
  lemma ExactEntry(tc: Toolchain, root: Ir, passes: seq<Pass>, nodes: seq<DagNode>, stock: Table, table: Table,
                   n: DagNode, s: seq<Pass>, p: Pass)
    requires Grown(tc, root, passes, nodes) && Recorded(tc, nodes, stock, table) && NodesReplayExactly(tc, root, nodes)
    requires n in nodes && n.path == s + [p]
    ensures tc.Replay(s, root).Some?
    ensures var k := TransitionKey(tc.digest(tc.Replay(s, root).value), p);
            k in table && tc.apply(p, tc.Replay(s, root).value) == Some(table[k].ir)
  {
    hide HasOrigin;
    var i :| 0 <= i < |nodes| && nodes[i] == n;
    var j, q := Parent(tc, root, passes, nodes, stock, table, i);
    assert n.path[|n.path| - 1] == p && n.path[..|n.path| - 1] == s;
    assert (nodes[j].path + [q])[..|nodes[j].path|] == nodes[j].path;
    assert nodes[j] in nodes && nodes[j].path == s && q == p;
    tc.ReplayAppend(s, p, root);
  }

  /** Two runs that share a table and reach both programs cannot both be exact. */
  lemma OneIsNotExact(tc: Toolchain, root: Ir, s: seq<Pass>, t: seq<Pass>, p: Pass,
                      passesA: seq<Pass>, nodesA: seq<DagNode>, stockA: Table, tableA: Table, a: DagNode,
                      passesB: seq<Pass>, nodesB: seq<DagNode>, stockB: Table, tableB: Table, b: DagNode)
    requires ToldApart(tc, root, s, t, p)
    requires Grown(tc, root, passesA, nodesA) && Recorded(tc, nodesA, stockA, tableA) && a in nodesA
    requires a.path == s + [p]
    requires Grown(tc, root, passesB, nodesB) && Recorded(tc, nodesB, stockB, tableB) && b in nodesB
    requires b.path == t + [p]
    requires forall k :: k in tableA ==> k in tableB && tableB[k] == tableA[k]
    ensures !NodesReplayExactly(tc, root, nodesA) || !NodesReplayExactly(tc, root, nodesB)
  {
    hide Grown, Recorded, NodesReplayExactly;
    if NodesReplayExactly(tc, root, nodesA) && NodesReplayExactly(tc, root, nodesB) {
      ExactEntry(tc, root, passesA, nodesA, stockA, tableA, a, s, p);
      ExactEntry(tc, root, passesB, nodesB, stockB, tableB, b, t, p);
    }
  }

  // ------------------------------------------------------ paths name nodes

  /** Nodes of one subset have different digests, so no two nodes share a path. */
  lemma {:induction false} PathsAreUnique(tc: Toolchain, root: Ir, passes: seq<Pass>, nodes: seq<DagNode>,
                                          stock: Table, table: Table, a: nat, b: nat)
    requires Grown(tc, root, passes, nodes) && Apart(tc, nodes) && Recorded(tc, nodes, stock, table)
    requires a < |nodes| && b < |nodes| && nodes[a].path == nodes[b].path
    ensures a == b
    decreases a
  {
    hide HasOrigin, Supplied, Compared, Recorded, Distinct;
    if a == 0 || b == 0 {
      if a > 0 { var i, p := Parent(tc, root, passes, nodes, stock, table, a); }
      if b > 0 { var j, q := Parent(tc, root, passes, nodes, stock, table, b); }
    } else {
      var i, p := Parent(tc, root, passes, nodes, stock, table, a);
      var j, q := Parent(tc, root, passes, nodes, stock, table, b);
      SameInit(nodes[i].path, p, nodes[j].path, q);
      PathsAreUnique(tc, root, passes, nodes, stock, table, i, j);
      assert nodes[a].ir == nodes[b].ir;
      assert a < b ==> KeptApart(tc, nodes[b], nodes[a]);
      assert b < a ==> KeptApart(tc, nodes[a], nodes[b]);
    }
  }

  lemma SameInit<T>(s: seq<T>, x: T, t: seq<T>, y: T)
    requires s + [x] == t + [y]
    ensures s == t && x == y
  {
    assert |s| == |t|;
    assert (s + [x])[|s|] == x && (t + [y])[|t|] == y;
    assert (s + [x])[..|s|] == s && (t + [y])[..|t|] == t;
  }
}
