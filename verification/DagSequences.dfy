/** How large a permutation DAG can get: one node for every duplicate-free sequence
    of passes, and no more. */
module DagSequences {
  import opened Basics
  import opened Toolchains
  import opened DagEvidence
  import opened DagMemory
  import opened PermutationDags

  // ------------------------------------------------ duplicate-free sequences

  /** The sequence extended by each item it lacks. */
  function ByOne<T(==)>(s: seq<T>, items: seq<T>): seq<seq<T>> {
    if items == [] then []
    else
      var x := items[|items| - 1];
      ByOne(s, items[..|items| - 1]) + if x in s then [] else [s + [x]]
  }

  function Extended<T(==)>(list: seq<seq<T>>, items: seq<T>): seq<seq<T>> {
    if list == [] then [] else Extended(list[..|list| - 1], items) + ByOne(list[|list| - 1], items)
  }

  /** The duplicate-free sequences of `d` items. */
  function Sequences<T(==)>(items: seq<T>, d: nat): seq<seq<T>> {
    if d == 0 then [[]] else Extended(Sequences(items, d - 1), items)
  }

  /** Those of at most `d` items. */
  function UpTo<T(==)>(items: seq<T>, d: nat): seq<seq<T>> {
    if d == 0 then Sequences(items, 0) else UpTo(items, d - 1) + Sequences(items, d)
  }

  /** n * (n-1) * ..., `d` factors. */
  function Falling(n: nat, d: nat): int {
    if d == 0 then 1 else Falling(n, d - 1) * (n - (d - 1))
  }

  function FallingSum(n: nat, d: nat): int {
    if d == 0 then 1 else FallingSum(n, d - 1) + Falling(n, d)
  }

  ghost predicate IsSequence<T>(items: seq<T>, d: nat, s: seq<T>) {
    |s| == d && Distinct(s) && ToSet(s) <= ToSet(items)
  }

  lemma LastOf<T>(s: seq<T>, x: T, t: seq<T>)
    ensures t == s + [x] <==> |t| > 0 && t[..|t| - 1] == s && t[|t| - 1] == x
  {
    if |t| > 0 { assert t == t[..|t| - 1] + [t[|t| - 1]]; }
  }

  lemma {:induction false} ByOneContents<T>(s: seq<T>, items: seq<T>, t: seq<T>)
    ensures t in ByOne(s, items) <==> |t| > 0 && t[..|t| - 1] == s && t[|t| - 1] in items && t[|t| - 1] !in s
  {
    if items != [] {
      var init, x := items[..|items| - 1], items[|items| - 1];
      ByOneContents(s, init, t);
      LastOf(s, x, t);
      assert items == init + [x];
    }
  }

  lemma {:induction false} ByOneDistinct<T>(s: seq<T>, items: seq<T>)
    requires Distinct(items)
    ensures Distinct(ByOne(s, items))
    ensures |ByOne(s, items)| + |ToSet(s) * ToSet(items)| == |items|
  {
    if items == [] {
      assert ToSet(s) * ToSet(items) == {};
    } else {
      var init, x := items[..|items| - 1], items[|items| - 1];
      DistinctLast(items);
      ByOneDistinct(s, init);
      if x in s {
        assert ToSet(s) * ToSet(items) == ToSet(s) * ToSet(init) + {x};
      } else {
        assert ToSet(s) * ToSet(items) == ToSet(s) * ToSet(init);
        ByOneContents(s, init, s + [x]);
        DistinctConcat(ByOne(s, init), [s + [x]]);
      }
    }
  }

  lemma {:induction false} ExtendedContents<T>(list: seq<seq<T>>, items: seq<T>, t: seq<T>)
    ensures t in Extended(list, items) <==>
            |t| > 0 && t[..|t| - 1] in list && t[|t| - 1] in items && t[|t| - 1] !in t[..|t| - 1]
  {
    if list != [] {
      var init, s := list[..|list| - 1], list[|list| - 1];
      ExtendedContents(init, items, t);
      ByOneContents(s, items, t);
      assert list == init + [s];
    }
  }

  lemma {:induction false} ExtendedDistinct<T>(list: seq<seq<T>>, items: seq<T>, k: nat)
    requires Distinct(items) && Distinct(list) && forall s :: s in list ==> IsSequence(items, k, s)
    ensures Distinct(Extended(list, items)) && |Extended(list, items)| == |list| * (|items| - k)
  {
    hide Distinct, ByOne;
    if list == [] {
      EmptyDistinct<seq<T>>();
    } else {
      var init, s := list[..|list| - 1], list[|list| - 1];
      DistinctLast(list);
      assert s in list && forall t :: t in init ==> t in list;
      ExtendedDistinct(init, items, k);
      ByOneDistinct(s, items);
      assert ToSet(s) * ToSet(items) == ToSet(s);
      DistinctSize(s);
      OneMore(|init|, |items| - k);
      forall t | t in Extended(init, items) ensures t !in ByOne(s, items) {
        ExtendedContents(init, items, t);
        ByOneContents(s, items, t);
      }
      DistinctConcat(Extended(init, items), ByOne(s, items));
    }
  }

  lemma {:induction false} SequencesContents<T>(items: seq<T>, d: nat, s: seq<T>)
    ensures s in Sequences(items, d) <==> IsSequence(items, d, s)
  {
    hide IsSequence, Extended;
    EmptySequence(items, d, s);
    if d > 0 {
      var k: nat := d - 1;
      ExtendedContents(Sequences(items, k), items, s);
      if s != [] {
        SequencesContents(items, k, s[..|s| - 1]);
        SequenceSplits(items, d, s);
      }
    }
  }

  lemma EmptySequence<T>(items: seq<T>, d: nat, s: seq<T>)
    ensures d == 0 ==> (s in Sequences(items, d) <==> IsSequence(items, d, s))
    ensures d > 0 && s == [] ==> !IsSequence(items, d, s)
  {
    assert s in [[]] <==> s == [];
  }

  lemma SequenceSplits<T>(items: seq<T>, d: nat, s: seq<T>)
    requires s != [] && d > 0
    ensures IsSequence(items, d, s) <==>
            IsSequence(items, d - 1, s[..|s| - 1]) && s[|s| - 1] in items && s[|s| - 1] !in s[..|s| - 1]
  {
    var init, x := s[..|s| - 1], s[|s| - 1];
    assert s == init + [x];
    ToSetAppend(init, x);
    if Distinct(s) {
      DistinctLast(s);
    } else if Distinct(init) && x !in init {
      DistinctConcat(init, [x]);
    }
    assert x in items <==> x in ToSet(items);
  }

  lemma {:induction false} SequencesCount<T>(items: seq<T>, d: nat)
    requires Distinct(items) && d <= |items|
    ensures Distinct(Sequences(items, d)) && |Sequences(items, d)| == Falling(|items|, d)
  {
    hide Distinct, IsSequence, Extended;
    if d == 0 {
      SingleDistinct<seq<T>>([]);
    } else {
      var k: nat := d - 1;
      var shorter := Sequences(items, k);
      SequencesCount(items, k);
      forall s | s in shorter ensures IsSequence(items, k, s) {
        SequencesContents(items, k, s);
      }
      ExtendedDistinct(shorter, items, k);
    }
  }

  lemma {:induction false} UpToContents<T>(items: seq<T>, d: nat, s: seq<T>)
    ensures s in UpTo(items, d) <==> |s| <= d && IsSequence(items, |s|, s)
  {
    SequencesContents(items, d, s);
    if d > 0 {
      UpToContents(items, d - 1, s);
    }
  }

  lemma {:induction false} UpToCount<T>(items: seq<T>, d: nat)
    requires Distinct(items) && d <= |items|
    ensures Distinct(UpTo(items, d)) && |UpTo(items, d)| == FallingSum(|items|, d)
  {
    hide Distinct, IsSequence, Sequences;
    SequencesCount(items, d);
    if d > 0 {
      UpToCount(items, d - 1);
      forall s | s in UpTo(items, d - 1) ensures s !in Sequences(items, d) {
        UpToContents(items, d - 1, s);
        SequencesContents(items, d, s);
        if s in Sequences(items, d) { LengthOf(items, d, s); }
      }
      DistinctConcat(UpTo(items, d - 1), Sequences(items, d));
    }
  }

  lemma LengthOf<T>(items: seq<T>, d: nat, s: seq<T>)
    requires IsSequence(items, d, s)
    ensures |s| == d
  {
  }

  // ------------------------------------------------ the paths of a DAG

  function Paths(nodes: seq<DagNode>): seq<seq<Pass>> {
    seq(|nodes|, i requires 0 <= i < |nodes| => nodes[i].path)
  }

  lemma PathsAreSequences(tc: Toolchain, root: Ir, passes: seq<Pass>, nodes: seq<DagNode>, stock: Table, table: Table)
    requires Distinct(passes) && Grown(tc, root, passes, nodes) && Apart(tc, nodes) && Recorded(tc, nodes, stock, table)
    ensures Distinct(Paths(nodes)) && forall s :: s in Paths(nodes) ==> s in UpTo(passes, |passes|)
  {
    hide Apart, Recorded, Grown, Distinct, UpTo;
    forall a, b | 0 <= a < b < |nodes| ensures Paths(nodes)[a] != Paths(nodes)[b] {
      if nodes[a].path == nodes[b].path {
        PathsAreUnique(tc, root, passes, nodes, stock, table, a, b);
      }
    }
    DistinctFromPairs(Paths(nodes));
    forall s | s in Paths(nodes) ensures s in UpTo(passes, |passes|) {
      var i :| 0 <= i < |nodes| && Paths(nodes)[i] == s;
      PathIsSequence(tc, root, passes, nodes, i);
    }
  }

  lemma DistinctFromPairs<T>(s: seq<T>)
    requires forall i, j :: 0 <= i < j < |s| ==> s[i] != s[j]
    ensures Distinct(s)
  {
  }

  lemma PathIsSequence(tc: Toolchain, root: Ir, passes: seq<Pass>, nodes: seq<DagNode>, i: nat)
    requires Grown(tc, root, passes, nodes) && i < |nodes|
    ensures nodes[i].path in UpTo(passes, |passes|)
  {
    hide HasOrigin, Distinct, UpTo;
    assert WellFormed(tc, passes, nodes[i]);
    UpToContents(passes, |passes|, nodes[i].path);
    NotDeeper(passes, ToSet(nodes[i].path));
  }

  /** No run has more nodes than there are duplicate-free sequences, and it has as many
      exactly when every such sequence has a node of its own. */
  lemma DagIsNeverLarger(tc: Toolchain, root: Ir, passes: seq<Pass>, nodes: seq<DagNode>, stock: Table, table: Table)
    requires Distinct(passes) && Grown(tc, root, passes, nodes) && Apart(tc, nodes) && Recorded(tc, nodes, stock, table)
    ensures |nodes| <= FallingSum(|passes|, |passes|)
    ensures |nodes| == FallingSum(|passes|, |passes|) <==>
            forall s :: Distinct(s) && ToSet(s) <= ToSet(passes) ==> s in Paths(nodes)
  {
    hide Grown, Apart, Recorded, Distinct, UpTo;
    PathsAreSequences(tc, root, passes, nodes, stock, table);
    var all, paths := UpTo(passes, |passes|), Paths(nodes);
    UpToCount(passes, |passes|);
    DistinctSize(all);
    DistinctSize(paths);
    SubsetSize(ToSet(paths), ToSet(all));
    if |paths| == |all| { SubsetOfSameSize(ToSet(paths), ToSet(all)); }
    forall s ensures s in all <==> Distinct(s) && ToSet(s) <= ToSet(passes) {
      UpToContents(passes, |passes|, s);
      if Distinct(s) && ToSet(s) <= ToSet(passes) {
        NoLonger(passes, s);
      }
    }
    forall s ensures (s in all <==> s in ToSet(all)) && (s in paths <==> s in ToSet(paths)) {}
    if forall s :: Distinct(s) && ToSet(s) <= ToSet(passes) ==> s in paths {
      assert ToSet(all) <= ToSet(paths);
      assert ToSet(all) == ToSet(paths);
    }
  }

  lemma NoLonger<T>(items: seq<T>, s: seq<T>)
    requires Distinct(s) && ToSet(s) <= ToSet(items)
    ensures |s| <= |items|
  {
    DistinctSize(s);
    DistinctSize(items);
    SubsetSize(ToSet(s), ToSet(items));
  }

  lemma {:induction false} WorkBound(nodes: seq<DagNode>, n: nat, d: nat)
    requires forall m :: m in nodes ==> m.depth <= n
    ensures Work(nodes, n, d) <= |nodes| * n
  {
    if nodes != [] {
      assert nodes[|nodes| - 1] in nodes && forall m :: m in nodes[..|nodes| - 1] ==> m in nodes;
      WorkBound(nodes[..|nodes| - 1], n, d);
      OneMore(|nodes| - 1, n);
    }
  }

  /** Budgets no run on `n` passes can exceed. */
  predicate Suffices(n: nat, maxNodes: int, maxEdges: int) {
    maxNodes >= FallingSum(n, n) && maxEdges >= FallingSum(n, n) * n
  }

  /** No run is larger than this. */
  lemma WithinBounds(tc: Toolchain, root: Ir, passes: seq<Pass>, nodes: seq<DagNode>, stock: Table, table: Table)
    requires Distinct(passes) && Grown(tc, root, passes, nodes) && Apart(tc, nodes) && Recorded(tc, nodes, stock, table)
    ensures |nodes| <= FallingSum(|passes|, |passes|)
    ensures Work(nodes, |passes|, |passes|) <= |nodes| * |passes| <= FallingSum(|passes|, |passes|) * |passes|
  {
    hide Apart, Recorded, HasOrigin, FallingSum;
    DagIsNeverLarger(tc, root, passes, nodes, stock, table);
    forall m | m in nodes ensures m.depth <= |passes| {
      NodeWellFormed(tc, root, passes, nodes, m);
      NotDeeper(passes, m.subset);
    }
    WorkBound(nodes, |passes|, |passes|);
    TimesGrows(|nodes|, FallingSum(|passes|, |passes|), |passes|);
  }

  lemma TimesGrows(a: int, b: int, n: nat)
    requires a <= b
    ensures a * n <= b * n
  {
  }

  /** With tools that never fail and budgets that suffice, every run is complete. */
  lemma LargeBudgetsComplete(tc: Toolchain, root: Ir, passes: seq<Pass>, nodes: seq<DagNode>, stock: Table,
                             table: Table, row: DagRow, maxNodes: int, maxEdges: int)
    requires Distinct(passes) && Grown(tc, root, passes, nodes) && Apart(tc, nodes) && Recorded(tc, nodes, stock, table)
    requires tc.NeverFails() && Suffices(|passes|, maxNodes, maxEdges)
    requires row.nodes == |nodes| && row.edges <= Work(nodes, |passes|, |passes|)
    requires row.status != Failed && (row.status == Incomplete ==> row.nodes > maxNodes || row.edges > maxEdges)
    ensures row.status in {AllPermutationsSame, Mismatch} && row.nodes <= FallingSum(|passes|, |passes|)
  {
    hide Grown, Apart, Recorded, FallingSum;
    WithinBounds(tc, root, passes, nodes, stock, table);
  }

  /** Up to six passes there are fewer than 10000 sequences. */
  lemma SixPasses(n: nat)
    requires n <= 6
    ensures FallingSum(n, n) <= 1957
  {
    if n < 6 {
      SmallFalling(n);
    } else {
      assert Falling(6, 6) == 720 && FallingSum(6, 5) == 1237;
    }
  }

  lemma SmallFalling(n: nat)
    requires n <= 5
    ensures FallingSum(n, n) <= 326
  {
    assert FallingSum(0, 0) == 1 && FallingSum(1, 1) == 2 && FallingSum(2, 2) == 5 && FallingSum(3, 3) == 16;
    assert FallingSum(4, 4) == 65 && FallingSum(5, 5) == 326;
  }
}
