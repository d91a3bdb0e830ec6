/** Real runs of the permutation DAG in which what one would expect of it fails. */
module DagWitnesses {
  import opened Basics
  import opened Toolchains
  import opened ValidationRuntimes
  import opened NodeNames
  import opened DagEvidence
  import opened DagMemory
  import opened DagOrder
  import opened PermutationDags
  import opened DagSequences

  // ---------------------------------------------------- stolen transitions

  /** Batches that share a memo table and end in the two programs a pass tells apart
      although their digests agree: if both runs complete and the canonical order was
      reported first in both, the node of one of them is not the replay of its path.
      With tools that never fail, batches of at most six passes, and budgets that
      suffice for them, both runs do complete. */
  method StolenTransition(tc: Toolchain, runtime: ValidationRuntime, root: Ir, s: seq<Pass>, t: seq<Pass>, p: Pass,
                          maxNodes: int, maxEdges: int)
    returns (rowS: DagRow, rowT: DagRow, ghost nodesS: seq<DagNode>, ghost nodesT: seq<DagNode>)
    requires Distinct(s + [p]) && Distinct(t + [p]) && ToldApart(tc, root, s, t, p) && runtime.Faithful(tc)
    modifies runtime
    ensures rowS.nodes == |nodesS| && rowT.nodes == |nodesT|
    ensures Grown(tc, root, s + [p], nodesS) && Grown(tc, root, t + [p], nodesT)
    ensures rowS.complete && rowT.complete && rowS.nodes <= 10000 && rowT.nodes <= 10000 ==>
              !NodesReplayExactly(tc, root, nodesS) || !NodesReplayExactly(tc, root, nodesT)
    ensures && tc.NeverFails() && |s| < 6 && |t| < 6
            && Suffices(|s| + 1, maxNodes, maxEdges) && Suffices(|t| + 1, maxNodes, maxEdges) ==>
              && rowS.complete && rowT.complete
              && (!NodesReplayExactly(tc, root, nodesS) || !NodesReplayExactly(tc, root, nodesT))
  {
    hide Grown, Apart, Recorded, Stocked, Distinct, NodesReplayExactly, DigestsDecide, FromReplays, Finals, ByName,
         Work, ToldApart, CompleteEvidence, Suffices, FallingSum, Arranges, runtime.Faithful;
    var first := new PermutationDag(tc, runtime, root, s + [p], maxNodes, maxEdges);
    rowS := first.Validate();
    nodesS := first.nodes;
    ghost var table := runtime.transitions;
    if tc.NeverFails() && |s| < 6 && Suffices(|s| + 1, maxNodes, maxEdges) {
      LargeBudgetsComplete(tc, root, s + [p], nodesS, first.stock, table, rowS, maxNodes, maxEdges);
      SixPasses(|s| + 1);
    }
    var second := new PermutationDag(tc, runtime, root, t + [p], maxNodes, maxEdges);
    rowT := second.Validate();
    nodesT := second.nodes;
    if tc.NeverFails() && |t| < 6 && Suffices(|t| + 1, maxNodes, maxEdges) {
      LargeBudgetsComplete(tc, root, t + [p], nodesT, table, runtime.transitions, rowT, maxNodes, maxEdges);
      SixPasses(|t| + 1);
    }
    if rowS.complete && rowT.complete && rowS.nodes <= 10000 && rowT.nodes <= 10000 {
      ghost var a := ReportedNode(tc, root, s + [p], nodesS, rowS);
      ghost var b := ReportedNode(tc, root, t + [p], nodesT, rowT);
      StockStays(tc, nodesT, t + [p], table, runtime.transitions);
      OneIsNotExact(tc, root, s, t, p, s + [p], nodesS, first.stock, table, a,
                    t + [p], nodesT, table, runtime.transitions, b);
    }
  }

  lemma StockStays(tc: Toolchain, nodes: seq<DagNode>, passes: seq<Pass>, stock: Table, table: Table)
    requires Stocked(tc, nodes, passes, stock, table)
    ensures forall k :: k in stock ==> k in table && table[k] == stock[k]
  {
  }

  lemma ReportedNode(tc: Toolchain, root: Ir, passes: seq<Pass>, nodes: seq<DagNode>, row: DagRow) returns (n: DagNode)
    requires Distinct(passes) && Grown(tc, root, passes, nodes) && row.finals == ByName(Finals(nodes, passes))
    requires |row.finals| > 0 && row.finals[0].path == passes
    ensures n in nodes && n.path == passes
  {
    n := row.finals[0];
    ByNameContents(Finals(nodes, passes));
    FinalSubsetOf(nodes, passes, n);
  }

  const A := Pass("a")
  const B := Pass("b")
  const P := Pass("p")

  /** Passes `a` and `b` take the root to two programs with one digest, and `p` keeps
      their texts apart; with each of them `p` commutes, with each other they do not. */
  function ShadowStep(p: Pass, x: Ir): Ir {
    if p == A then
      Ir(if x.text == "" then "a" else if x.text in {"a", "b"} then "2" else if x.text == "p" then "ap" else "z")
    else if p == B then
      Ir(if x.text == "" then "b" else if x.text in {"a", "b"} then "1" else if x.text == "p" then "bp" else "z")
    else if p == P then
      Ir(if x.text == "" then "p" else if x.text == "a" then "ap" else if x.text == "b" then "bp" else "z")
    else x
  }

  function Class(text: string): string {
    if text == "b" then "a" else if text == "bp" then "ap" else text
  }

  function Shadowed(): Toolchain {
    Toolchain((p: Pass, x: Ir) => Some(ShadowStep(p, x)), (x: Ir) => Digest(Class(x.text)),
              (x: Ir, y: Ir) => if Class(x.text) == Class(y.text) then Foldable else Different,
              (x: Ir) => Meaning(iset{Ir(Class(x.text))}))
  }

  lemma SameClass(x: Ir, y: Ir)
    ensures Shadowed().Equivalent(x, y) <==> Class(x.text) == Class(y.text)
  {
    assert Ir(Class(x.text)) in Shadowed().meaning(x).programs;
    assert Ir(Class(x.text)) in Shadowed().meaning(y).programs <==> Class(x.text) == Class(y.text);
  }

  lemma ShadowedIsSound()
    ensures Shadowed().Sound() && Shadowed().NeverFails()
  {
    hide ShadowStep, Class;
    var tc := Shadowed();
    forall x, y ensures tc.Equivalent(x, y) <==> Class(x.text) == Class(y.text) {
      SameClass(x, y);
    }
    forall p, x, y | tc.Equivalent(x, y) ensures tc.SameOutcome(tc.apply(p, x), tc.apply(p, y)) {
      StepsRespectClass(p, x, y);
      SameClass(ShadowStep(p, x), ShadowStep(p, y));
    }
  }

  lemma StepsRespectClass(p: Pass, x: Ir, y: Ir)
    requires Class(x.text) == Class(y.text)
    ensures Class(ShadowStep(p, x).text) == Class(ShadowStep(p, y).text)
  {
  }

  lemma TwoSteps(first: Pass, second: Pass, x: Ir)
    ensures Shadowed().Replay([first], x) == Some(ShadowStep(first, x))
    ensures Shadowed().Replay([first, second], x) == Some(ShadowStep(second, ShadowStep(first, x)))
  {
    Shadowed().ReplayAppend([], first, x);
    Shadowed().ReplayAppend([first], second, x);
    assert [] + [first] == [first] && [first] + [second] == [first, second];
  }

  lemma TwoOrders(p: Pass, q: Pass, order: seq<Pass>)
    requires p != q && Arranges(order, [p, q])
    ensures order == [p, q] || order == [q, p]
  {
    assert Distinct([p, q]);
    ArrangesSize(order, [p, q]);
    assert p in [p, q] && q in [p, q] && p in ToSet(order) && q in ToSet(order);
    assert order[0] in ToSet([p, q]) && order[1] in ToSet([p, q]) && order[0] != order[1];
  }

  /** Whether two of the passes commute at the root. */
  lemma PairCommutes(p: Pass, q: Pass)
    requires p != q
    ensures var root := Ir("");
            Shadowed().AllOrdersEquivalent(root, [p, q]) <==>
            Class(ShadowStep(q, ShadowStep(p, root)).text) == Class(ShadowStep(p, ShadowStep(q, root)).text)
  {
    hide ShadowStep, Class;
    var root := Ir("");
    TwoSteps(p, q, root);
    TwoSteps(q, p, root);
    SameClass(ShadowStep(q, ShadowStep(p, root)), ShadowStep(p, ShadowStep(q, root)));
    forall order | Arranges(order, [p, q]) ensures order == [p, q] || order == [q, p] {
      TwoOrders(p, q, order);
    }
    assert Arranges([p, q], [p, q]) && Arranges([q, p], [p, q]);
  }

  lemma ShadowFacts()
    ensures forall p :: p in {A, B, P} ==> Shadowed().digest(ShadowStep(p, Ir(""))) != Shadowed().digest(Ir(""))
    ensures Shadowed().AllOrdersEquivalent(Ir(""), [A, P]) && Shadowed().AllOrdersEquivalent(Ir(""), [B, P])
    ensures !Shadowed().AllOrdersEquivalent(Ir(""), [A, B])
    ensures ToldApart(Shadowed(), Ir(""), [A], [B], P)
  {
    assert "1" != "2" by { assert "1"[0] != "2"[0]; }
    assert |"ap"| == 2 && "ap"[0] != "bp"[0] && |"a"| == |"b"| == |"p"| == 1;
    assert "a"[0] != "b"[0] && "p"[0] != "a"[0] && "p"[0] != "b"[0];
    PairCommutes(A, P);
    PairCommutes(B, P);
    PairCommutes(A, B);
    TwoSteps(A, P, Ir(""));
    TwoSteps(B, P, Ir(""));
  }

  /** A state that offers `[a, p]` and `[b, p]`, as its three active passes commute except
      `a` with `b`. Validating both on one fresh table leaves a node that is not the
      replay of its path. */
  method StolenBetweenBatches(maxNodes: int, maxEdges: int)
    returns (rowA: DagRow, rowB: DagRow, ghost nodesA: seq<DagNode>, ghost nodesB: seq<DagNode>)
    requires Suffices(2, maxNodes, maxEdges)
    ensures Shadowed().Sound() && Shadowed().NeverFails()
    ensures forall p :: p in {A, B, P} ==> Shadowed().digest(ShadowStep(p, Ir(""))) != Shadowed().digest(Ir(""))
    ensures Shadowed().AllOrdersEquivalent(Ir(""), [A, P]) && Shadowed().AllOrdersEquivalent(Ir(""), [B, P])
    ensures !Shadowed().AllOrdersEquivalent(Ir(""), [A, B])
    ensures Grown(Shadowed(), Ir(""), [A, P], nodesA) && Grown(Shadowed(), Ir(""), [B, P], nodesB)
    ensures rowA.complete && rowB.complete
    ensures !NodesReplayExactly(Shadowed(), Ir(""), nodesA) || !NodesReplayExactly(Shadowed(), Ir(""), nodesB)
  {
    hide Grown, NodesReplayExactly, ToldApart, ShadowStep, Class, Suffices;
    ShadowedIsSound();
    ShadowFacts();
    var runtime := new ValidationRuntime();
    assert [A] + [P] == [A, P] && [B] + [P] == [B, P];
    rowA, rowB, nodesA, nodesB := StolenTransition(Shadowed(), runtime, Ir(""), [A], [B], P, maxNodes, maxEdges);
  }

  // ------------------------------------------------- the order of the report

  const SEVEN := [Pass("a"), Pass("b"), Pass("c"), Pass("d"), Pass("e"), Pass("f"), Pass("g")]

  /** A pass writes its name at the end of the program. */
  function Text(s: seq<Pass>): string {
    if s == [] then "" else Text(s[..|s| - 1]) + s[|s| - 1].name
  }

  function Texts(list: seq<seq<Pass>>): (texts: seq<string>)
    ensures |texts| == |list| && forall i :: 0 <= i < |list| ==> texts[i] == Text(list[i])
  {
    seq(|list|, i requires 0 <= i < |list| => Text(list[i]))
  }

  /** Programs of seven letters and more are all alike, except those that are kept. */
  function Shortened(kept: set<string>, text: string): Ir {
    Ir(if |text| < 7 || text in kept then text else "-")
  }

  /** Programs are told apart by their text; nothing is merged before the seventh pass. */
  function Writing(kept: set<string>): Toolchain {
    Toolchain((p: Pass, x: Ir) => Some(Shortened(kept, x.text + p.name)), (x: Ir) => Digest(x.text),
              (x: Ir, y: Ir) => if x == y then Foldable else Different, (x: Ir) => Meaning(iset{x}))
  }

  lemma WritingMeaning(kept: set<string>, x: Ir, y: Ir)
    ensures Writing(kept).Equivalent(x, y) <==> x == y
  {
    assert x in Writing(kept).meaning(x).programs;
    assert y in Writing(kept).meaning(x).programs <==> x == y;
  }

  lemma WritingIsSound(kept: set<string>)
    ensures Writing(kept).Sound() && Writing(kept).NeverFails()
  {
    forall x, y ensures Writing(kept).Equivalent(x, y) <==> x == y {
      WritingMeaning(kept, x, y);
    }
    forall x: Ir, y: Ir | x.text == y.text ensures x == y {
      assert x == Ir(x.text) && y == Ir(y.text);
    }
  }

  ghost predicate OneLetterNames(s: seq<Pass>) {
    forall p :: p in s ==> |p.name| == 1
  }

  /** With names of one letter, the text tells the sequence. */
  lemma {:induction false} TextTellsSequence(s: seq<Pass>, t: seq<Pass>)
    requires OneLetterNames(s) && OneLetterNames(t)
    ensures Text(s) == Text(t) ==> s == t
  {
    hide Text, OneLetterNames;
    TextLength(s);
    TextLength(t);
    if s != [] && t != [] && Text(s) == Text(t) {
      var a, b := s[..|s| - 1], t[..|t| - 1];
      LastLetter(s);
      LastLetter(t);
      TextTellsSequence(a, b);
      assert s == a + [s[|s| - 1]] && t == b + [t[|t| - 1]];
    }
  }

  lemma LastLetter(s: seq<Pass>)
    requires s != [] && OneLetterNames(s)
    ensures var k := |s| - 1;
            |Text(s)| == |s| && Text(s)[..k] == Text(s[..k]) && s[k] == Pass([Text(s)[k]]) && OneLetterNames(s[..k])
  {
    var k := |s| - 1;
    assert s[k] in s && forall p :: p in s[..k] ==> p in s;
    TextLength(s[..k]);
    assert s[k].name == [s[k].name[0]];
    assert s[k] == Pass(s[k].name);
  }

  lemma {:induction false} TextLength(s: seq<Pass>)
    requires OneLetterNames(s)
    ensures |Text(s)| == |s|
  {
    if s != [] {
      assert s[|s| - 1] in s && forall p :: p in s[..|s| - 1] ==> p in s;
      TextLength(s[..|s| - 1]);
    }
  }

  lemma TextsDistinct(list: seq<seq<Pass>>)
    requires Distinct(list) && forall s :: s in list ==> OneLetterNames(s)
    ensures Distinct(Texts(list))
  {
    hide OneLetterNames, Text;
    forall i, j | 0 <= i < j < |list| ensures Texts(list)[i] != Texts(list)[j] {
      assert list[i] in list && list[j] in list;
      TextTellsSequence(list[i], list[j]);
    }
  }

  lemma SevenPasses()
    ensures Distinct(SEVEN) && |SEVEN| == 7 && OneLetterNames(SEVEN) && Pass("-") !in SEVEN
  {
    assert forall i :: 0 <= i < 7 ==> SEVEN[i].name == ["abcdefg"[i]];
    forall i, j | 0 <= i < j < 7 ensures SEVEN[i] != SEVEN[j] {
      assert SEVEN[i].name[0] == "abcdefg"[i] && SEVEN[j].name[0] == "abcdefg"[j];
    }
    forall i | 0 <= i < 7 ensures SEVEN[i] != Pass("-") {
      assert SEVEN[i].name[0] == "abcdefg"[i] && "-"[0] == '-';
    }
  }

  lemma SevenSums()
    ensures Falling(7, 7) == 5040 && FallingSum(7, 6) == 8660
  {
    assert Falling(7, 0) == 1 && Falling(7, 1) == 7 && Falling(7, 2) == 42 && Falling(7, 3) == 210;
    assert Falling(7, 4) == 840 && Falling(7, 5) == 2520 && Falling(7, 6) == 5040 && Falling(7, 7) == 5040;
    assert FallingSum(7, 3) == 260;
  }

  lemma SequenceLetters(s: seq<Pass>)
    requires ToSet(s) <= ToSet(SEVEN)
    ensures OneLetterNames(s) && Text(s) != "-"
  {
    SevenPasses();
    forall p | p in s ensures p in SEVEN {
      assert p in ToSet(s);
    }
    TextLength(s);
    if s != [] { LastLetter(s); }
  }

  /** Where a sequence of at most seven of the passes leads. */
  lemma {:induction false} WritingReplay(kept: set<string>, s: seq<Pass>)
    requires OneLetterNames(s) && |s| <= 7
    ensures Writing(kept).Replay(s, Ir("")) == Some(Shortened(kept, Text(s)))
  {
    if s != [] {
      LastLetter(s);
      TextLength(s[..|s| - 1]);
      WritingReplay(kept, s[..|s| - 1]);
    }
  }

  /** The programs the runs can reach: all short texts, the kept ones, and the dash. */
  function Reached(kept: seq<string>): seq<string> {
    Texts(UpTo(SEVEN, 6)) + kept + ["-"]
  }

  /** The first 1340 of the 5040 orders are kept. */
  function Kept(): (kept: seq<string>) {
    KeptFew();
    Texts(Sequences(SEVEN, 7)[..1340])
  }

  lemma KeptFew()
    ensures |Sequences(SEVEN, 7)| == 5040
  {
    SevenPasses();
    SevenSums();
    SequencesCount(SEVEN, 7);
  }

  lemma KeptFacts()
    ensures |Kept()| == 1340 && Distinct(Kept())
    ensures forall t :: t in Kept() ==> exists s :: IsSequence(SEVEN, 7, s) && t == Text(s)
    ensures exists s :: IsSequence(SEVEN, 7, s) && Text(s) !in Kept()
  {
    hide Sequences, IsSequence, Distinct, Text, OneLetterNames;
    KeptFew();
    SevenPasses();
    SequencesCount(SEVEN, 7);
    var all := Sequences(SEVEN, 7);
    forall s | s in all ensures IsSequence(SEVEN, 7, s) && OneLetterNames(s) {
      FullSequence(s);
    }
    TextsDistinct(all);
    KeptPart(all);
    assert all[1340] in all && Texts(all)[1340] == Text(all[1340]);
    forall t | t in Kept() ensures exists s :: IsSequence(SEVEN, 7, s) && t == Text(s) {
      var i :| 0 <= i < 1340 && Kept()[i] == t;
      assert all[i] in all && t == Text(all[i]);
    }
  }

  lemma FullSequence(s: seq<Pass>)
    requires s in Sequences(SEVEN, 7)
    ensures IsSequence(SEVEN, 7, s) && OneLetterNames(s)
  {
    hide Sequences;
    SequencesContents(SEVEN, 7, s);
    SequenceLetters(s);
  }

  lemma KeptPart(all: seq<seq<Pass>>)
    requires all == Sequences(SEVEN, 7) && |all| == 5040 && Distinct(Texts(all))
    ensures |Kept()| == 1340 && Distinct(Kept()) && Texts(all)[1340] !in Kept()
    ensures forall i :: 0 <= i < 1340 ==> Kept()[i] == Text(all[i])
  {
    hide Sequences, Text;
    forall i | 0 <= i < 1340 ensures Kept()[i] == Texts(all)[i] {}
  }

  lemma ReachedFacts()
    ensures Distinct(Reached(Kept())) && |Reached(Kept())| == 10001
  {
    hide Distinct, UpTo, Text, Kept, IsSequence;
    SevenPasses();
    SevenSums();
    KeptFacts();
    var short := UpTo(SEVEN, 6);
    UpToCount(SEVEN, 6);
    forall s | s in short ensures OneLetterNames(s) && |Text(s)| < 7 && Text(s) != "-" {
      ShortText(s);
    }
    TextsDistinct(short);
    forall t | t in Texts(short) ensures t !in Kept() && t != "-" {
      ShortIsNotKept(short, t);
    }
    DistinctConcat(Texts(short), Kept());
    forall t | t in Texts(short) + Kept() ensures t !in ["-"] {
      if t in Kept() { KeptIsLong(t); }
    }
    SingleDistinct("-");
    DistinctConcat(Texts(short) + Kept(), ["-"]);
  }

  lemma ShortText(s: seq<Pass>)
    requires s in UpTo(SEVEN, 6)
    ensures OneLetterNames(s) && |Text(s)| < 7 && Text(s) != "-"
  {
    hide UpTo;
    UpToContents(SEVEN, 6, s);
    SequenceLetters(s);
    TextLength(s);
  }

  lemma KeptIsLong(t: string)
    requires t in Kept()
    ensures |t| == 7
  {
    hide Kept, Text;
    KeptFacts();
    var s :| IsSequence(SEVEN, 7, s) && t == Text(s);
    SequenceLetters(s);
    TextLength(s);
  }

  lemma ShortIsNotKept(short: seq<seq<Pass>>, t: string)
    requires t in Texts(short) && forall s :: s in short ==> |Text(s)| < 7 && Text(s) != "-"
    ensures t !in Kept() && t != "-"
  {
    hide Kept, Text;
    var i :| 0 <= i < |short| && Texts(short)[i] == t;
    assert short[i] in short;
    if t in Kept() { KeptIsLong(t); }
  }

  // ------------------------------------------------- the nodes of such a run

  function Programs(nodes: seq<DagNode>): (texts: seq<string>)
    ensures |texts| == |nodes| && forall i :: 0 <= i < |nodes| ==> texts[i] == nodes[i].ir.text
  {
    seq(|nodes|, i requires 0 <= i < |nodes| => nodes[i].ir.text)
  }

  lemma NodeText(kept: set<string>, nodes: seq<DagNode>, i: nat)
    requires Grown(Writing(kept), Ir(""), SEVEN, nodes) && i < |nodes|
    ensures Distinct(nodes[i].path) && ToSet(nodes[i].path) <= ToSet(SEVEN) && |nodes[i].path| <= 7
    ensures nodes[i].ir == Shortened(kept, Text(nodes[i].path)) && nodes[i].subset == ToSet(nodes[i].path)
    ensures nodes[i].digest == Digest(nodes[i].ir.text)
  {
    hide Text, HasOrigin, Distinct, Shortened;
    WritingIsSound(kept);
    SevenPasses();
    assert WellFormed(Writing(kept), SEVEN, nodes[i]);
    NoLonger(SEVEN, nodes[i].path);
    SequenceLetters(nodes[i].path);
    NodeReplays(Writing(kept), Ir(""), SEVEN, nodes, i);
    WritingReplay(kept, nodes[i].path);
    WritingMeaning(kept, Shortened(kept, Text(nodes[i].path)), nodes[i].ir);
  }

  /** No two nodes hold the same program. */
  lemma ProgramsDistinct(kept: set<string>, nodes: seq<DagNode>, stock: Table, table: Table)
    requires Grown(Writing(kept), Ir(""), SEVEN, nodes) && Apart(Writing(kept), nodes)
    requires Recorded(Writing(kept), nodes, stock, table) && forall t :: t in kept ==> |t| == 7
    ensures Distinct(Programs(nodes))
  {
    hide Grown, Apart, Recorded, Text, Distinct, Shortened;
    forall i, j | 0 <= i < j < |nodes| ensures Programs(nodes)[i] != Programs(nodes)[j] {
      ProgramsDiffer(kept, nodes, stock, table, i, j);
    }
    DistinctFromPairs(Programs(nodes));
  }

  lemma ProgramsDiffer(kept: set<string>, nodes: seq<DagNode>, stock: Table, table: Table, i: nat, j: nat)
    requires Grown(Writing(kept), Ir(""), SEVEN, nodes) && Apart(Writing(kept), nodes)
    requires Recorded(Writing(kept), nodes, stock, table) && forall t :: t in kept ==> |t| == 7
    requires i < j < |nodes|
    ensures nodes[i].ir.text != nodes[j].ir.text
  {
    hide Grown, Recorded, Text, Distinct, Compared;
    var s, t := nodes[i].path, nodes[j].path;
    NodeText(kept, nodes, i);
    NodeText(kept, nodes, j);
    SequenceLetters(s);
    SequenceLetters(t);
    TextLength(s);
    TextLength(t);
    if |s| < 7 && |t| < 7 {
      TextTellsSequence(s, t);
      if s == t { PathsAreUnique(Writing(kept), Ir(""), SEVEN, nodes, stock, table, i, j); }
    } else if |s| == 7 && |t| == 7 {
      SameSubset(s, t);
      assert KeptApart(Writing(kept), nodes[j], nodes[i]);
    }
  }

  lemma SameSubset(s: seq<Pass>, t: seq<Pass>)
    requires Distinct(s) && Distinct(t) && |s| == |t| == 7 && ToSet(s) <= ToSet(SEVEN) && ToSet(t) <= ToSet(SEVEN)
    ensures ToSet(s) == ToSet(t) == ToSet(SEVEN)
  {
    SevenPasses();
    DistinctSize(s);
    DistinctSize(t);
    DistinctSize(SEVEN);
    SubsetOfSameSize(ToSet(s), ToSet(SEVEN));
    SubsetOfSameSize(ToSet(t), ToSet(SEVEN));
  }

  lemma ProgramIsReached(nodes: seq<DagNode>, i: nat)
    requires Grown(Writing(ToSet(Kept())), Ir(""), SEVEN, nodes) && i < |nodes|
    ensures nodes[i].ir.text in Reached(Kept())
  {
    hide Grown, Text, Kept, UpTo;
    var s := nodes[i].path;
    NodeText(ToSet(Kept()), nodes, i);
    SequenceLetters(s);
    TextLength(s);
    if |s| < 7 {
      UpToContents(SEVEN, 6, s);
      TextListed(UpTo(SEVEN, 6), s);
    }
    InThreeParts(Texts(UpTo(SEVEN, 6)), Kept(), ["-"], nodes[i].ir.text);
  }

  lemma TextListed(list: seq<seq<Pass>>, s: seq<Pass>)
    requires s in list
    ensures Text(s) in Texts(list)
  {
    var i :| 0 <= i < |list| && list[i] == s;
    assert Texts(list)[i] == Text(s);
  }

  lemma InThreeParts<T>(a: seq<T>, b: seq<T>, c: seq<T>, x: T)
    ensures x in a + b + c <==> x in a || x in b || x in c
  {
  }

  /** No run on these tools has more than 10001 nodes. */
  lemma AtMostReached(nodes: seq<DagNode>, stock: Table, table: Table)
    requires var tc := Writing(ToSet(Kept()));
             Grown(tc, Ir(""), SEVEN, nodes) && Apart(tc, nodes) && Recorded(tc, nodes, stock, table)
    ensures |nodes| <= 10001 && Distinct(Programs(nodes)) && ToSet(Programs(nodes)) <= ToSet(Reached(Kept()))
  {
    hide Grown, Apart, Recorded, Kept, Reached, Distinct;
    forall t | t in ToSet(Kept()) ensures |t| == 7 { KeptIsLong(t); }
    ProgramsDistinct(ToSet(Kept()), nodes, stock, table);
    forall t | t in ToSet(Programs(nodes)) ensures t in ToSet(Reached(Kept())) {
      var i :| 0 <= i < |nodes| && Programs(nodes)[i] == t;
      ProgramIsReached(nodes, i);
    }
    ReachedFacts();
    DistinctSize(Programs(nodes));
    DistinctSize(Reached(Kept()));
    SubsetSize(ToSet(Programs(nodes)), ToSet(Reached(Kept())));
  }

  /** A complete run has a node for wherever a sequence leads. */
  lemma LandingNode(kept: set<string>, nodes: seq<DagNode>, s: seq<Pass>) returns (n: DagNode)
    requires CompleteEvidence(Writing(kept), Ir(""), SEVEN, nodes)
    requires Distinct(s) && ToSet(s) <= ToSet(SEVEN)
    ensures n in nodes && n.subset == ToSet(s) && n.ir == Shortened(kept, Text(s))
  {
    hide Apart, Grown, ClosedBelow, Distinct, Text, Shortened;
    WritingIsSound(kept);
    SevenPasses();
    n := EverySequenceHasANode(Writing(kept), Ir(""), SEVEN, nodes, s);
    NoLonger(SEVEN, s);
    SequenceLetters(s);
    WritingReplay(kept, s);
    WritingMeaning(kept, Shortened(kept, Text(s)), n.ir);
  }

  lemma AllReached(nodes: seq<DagNode>)
    requires CompleteEvidence(Writing(ToSet(Kept())), Ir(""), SEVEN, nodes)
    ensures ToSet(Reached(Kept())) <= ToSet(Programs(nodes)) && |Finals(nodes, SEVEN)| >= 2
  {
    hide CompleteEvidence, Kept, Reached, Text, Distinct, Finals, IsSequence;
    KeptFacts();
    var dashed :| IsSequence(SEVEN, 7, dashed) && Text(dashed) !in Kept();
    var last := LandedFinal(nodes, dashed);
    forall t | t in ToSet(Reached(Kept())) ensures t in ToSet(Programs(nodes)) {
      ReachedHasNode(nodes, t, last);
    }
    var k := Kept()[0];
    assert k in Kept();
    var s :| IsSequence(SEVEN, 7, s) && k == Text(s);
    var first := LandedFinal(nodes, s);
    KeptIsLong(k);
    TwoMembers(Finals(nodes, SEVEN), first, last);
  }

  lemma TwoMembers<T>(s: seq<T>, x: T, y: T)
    requires x in s && y in s && x != y
    ensures |s| >= 2
  {
  }

  lemma LandedFinal(nodes: seq<DagNode>, s: seq<Pass>) returns (n: DagNode)
    requires CompleteEvidence(Writing(ToSet(Kept())), Ir(""), SEVEN, nodes) && IsSequence(SEVEN, 7, s)
    ensures n in nodes && n in Finals(nodes, SEVEN)
    ensures n.ir.text == if Text(s) in Kept() then Text(s) else "-"
  {
    hide CompleteEvidence, Kept, Text, Finals;
    n := LandingNode(ToSet(Kept()), nodes, s);
    SameSubset(s, s);
    FinalSubset(nodes, SEVEN, n);
    SequenceLetters(s);
    TextLength(s);
  }

  lemma ReachedHasNode(nodes: seq<DagNode>, t: string, last: DagNode)
    requires CompleteEvidence(Writing(ToSet(Kept())), Ir(""), SEVEN, nodes) && t in Reached(Kept())
    requires last in nodes && last.ir.text == "-"
    ensures t in ToSet(Programs(nodes))
  {
    hide CompleteEvidence, Kept, Text, UpTo, Finals;
    InThreeParts(Texts(UpTo(SEVEN, 6)), Kept(), ["-"], t);
    var n := last;
    if t in Texts(UpTo(SEVEN, 6)) {
      var short := UpTo(SEVEN, 6);
      var i :| 0 <= i < |short| && Texts(short)[i] == t;
      assert short[i] in short;
      ShortText(short[i]);
      UpToContents(SEVEN, 6, short[i]);
      n := LandingNode(ToSet(Kept()), nodes, short[i]);
    } else if t in Kept() {
      KeptFacts();
      var s :| IsSequence(SEVEN, 7, s) && t == Text(s);
      n := LandedFinal(nodes, s);
    }
    ProgramListed(nodes, n);
  }

  lemma ProgramListed(nodes: seq<DagNode>, n: DagNode)
    requires n in nodes
    ensures n.ir.text in ToSet(Programs(nodes))
  {
    var i :| 0 <= i < |nodes| && nodes[i] == n;
    assert Programs(nodes)[i] == n.ir.text;
  }

  lemma ExactlyReached(nodes: seq<DagNode>, stock: Table, table: Table)
    requires CompleteEvidence(Writing(ToSet(Kept())), Ir(""), SEVEN, nodes)
    requires Recorded(Writing(ToSet(Kept())), nodes, stock, table)
    ensures |nodes| == 10001 && |Finals(nodes, SEVEN)| >= 2
  {
    hide Grown, Apart, ClosedBelow, Recorded, Kept, Reached, Distinct, Finals;
    AtMostReached(nodes, stock, table);
    AllReached(nodes);
    ReachedFacts();
    DistinctSize(Programs(nodes));
    DistinctSize(Reached(Kept()));
    SubsetSize(ToSet(Reached(Kept())), ToSet(Programs(nodes)));
  }

  /** For every node budget above 10000 there are sound tools on which a complete run of
      seven passes has 10001 nodes and does not report the canonical order first. */
  method CanonicalOrderNotFirst(maxNodes: int, maxEdges: int) returns (tc: Toolchain, row: DagRow)
    requires maxNodes > 10000 && maxEdges >= 70007
    ensures tc.Sound() && tc.NeverFails()
    ensures row.complete && row.nodes == 10001
    ensures |row.finals| > 0 && row.finals[0].path != SEVEN
  {
    hide Grown, Apart, Recorded, Stocked, Distinct, CompleteEvidence, DigestsDecide, FromReplays, Finals, ByName, Kept;
    tc := Writing(ToSet(Kept()));
    WritingIsSound(ToSet(Kept()));
    SevenPasses();
    var runtime := new ValidationRuntime();
    var dag := new PermutationDag(tc, runtime, Ir(""), SEVEN, maxNodes, maxEdges);
    row := dag.Validate();
    AtMostReached(dag.nodes, dag.stock, runtime.transitions);
    WithinBounds(tc, Ir(""), SEVEN, dag.nodes, dag.stock, runtime.transitions);
    ExactlyReached(dag.nodes, dag.stock, runtime.transitions);
    ByNameContents(Finals(dag.nodes, SEVEN));
  }
}
