/** Which open states survive a checkpoint: Pareto dominance over the frontier
    scores and the diversity-preserving beam. */
module FrontierSelection {
  import opened Basics
  import opened NodeNames

  datatype FrontierRow = FrontierRow(
    id: string,
    objectiveScore: real, directCallScore: real, memoryScore: real, branchScore: real,
    futurePotentialScore: real, evidenceQualityScore: real, noveltyScore: real,
    costScore: real, riskPenalty: real,
    finalStateScore: real, objectiveValue: int, directCalls: int, memoryOps: int, branches: int,
    signature: string, paretoKept: bool)

  // -------------------------------------------------------------- dominance

  /** `_dominates`: seven scores to maximise, two to minimise. */
  predicate Dominates(a: FrontierRow, b: FrontierRow) {
    && a.objectiveScore >= b.objectiveScore && a.directCallScore >= b.directCallScore
    && a.memoryScore >= b.memoryScore && a.branchScore >= b.branchScore
    && a.futurePotentialScore >= b.futurePotentialScore && a.evidenceQualityScore >= b.evidenceQualityScore
    && a.noveltyScore >= b.noveltyScore
    && a.costScore <= b.costScore && a.riskPenalty <= b.riskPenalty
    && (|| a.objectiveScore > b.objectiveScore || a.directCallScore > b.directCallScore
        || a.memoryScore > b.memoryScore || a.branchScore > b.branchScore
        || a.futurePotentialScore > b.futurePotentialScore || a.evidenceQualityScore > b.evidenceQualityScore
        || a.noveltyScore > b.noveltyScore
        || a.costScore < b.costScore || a.riskPenalty < b.riskPenalty)
  }

  /** The criteria, each turned so that more is better. */
  function Criteria(r: FrontierRow): seq<real> {
    [r.objectiveScore, r.directCallScore, r.memoryScore, r.branchScore, r.futurePotentialScore,
     r.evidenceQualityScore, r.noveltyScore, -r.costScore, -r.riskPenalty]
  }

  /** No worse by any criterion, and better by one. */
  lemma DominanceMeans(a: FrontierRow, b: FrontierRow)
    ensures Dominates(a, b) <==>
            && (forall k :: 0 <= k < 9 ==> Criteria(a)[k] >= Criteria(b)[k])
            && exists k :: 0 <= k < 9 && Criteria(a)[k] > Criteria(b)[k]
  {
    var ca, cb := Criteria(a), Criteria(b);
    if Dominates(a, b) {
      assert ca[0] > cb[0] || ca[1] > cb[1] || ca[2] > cb[2] || ca[3] > cb[3] || ca[4] > cb[4] || ca[5] > cb[5]
             || ca[6] > cb[6] || ca[7] > cb[7] || ca[8] > cb[8];
    }
    if forall k :: 0 <= k < 9 ==> ca[k] >= cb[k] {
      assert ca[0] >= cb[0] && ca[1] >= cb[1] && ca[2] >= cb[2] && ca[3] >= cb[3] && ca[4] >= cb[4];
      assert ca[5] >= cb[5] && ca[6] >= cb[6] && ca[7] >= cb[7] && ca[8] >= cb[8];
    }
  }

  lemma DominanceIsStrictPartialOrder(a: FrontierRow, b: FrontierRow, c: FrontierRow)
    ensures !Dominates(a, a)
    ensures Dominates(a, b) ==> !Dominates(b, a)
    ensures Dominates(a, b) && Dominates(b, c) ==> Dominates(a, c)
  {
  }

  ghost predicate Undominated(row: FrontierRow, rows: seq<FrontierRow>) {
    forall other :: other in rows ==> !Dominates(other, row)
  }

  /** Climbing from dominator to dominator ends at an undominated row. */
  lemma {:induction false} DominatedByAnUndominated(rows: seq<FrontierRow>, row: FrontierRow) returns (top: FrontierRow)
    requires row in rows && !Undominated(row, rows)
    ensures top in rows && Undominated(top, rows) && Dominates(top, row)
    decreases |set r | r in rows && Dominates(r, row)|
  {
    hide Dominates;
    var next :| next in rows && Dominates(next, row);
    if Undominated(next, rows) {
      top := next;
    } else {
      var above := set r | r in rows && Dominates(r, next);
      var aboveRow := set r | r in rows && Dominates(r, row);
      forall r | r in above ensures r in aboveRow {
        DominanceIsStrictPartialOrder(r, next, row);
      }
      DominanceIsStrictPartialOrder(next, next, next);
      assert above <= aboveRow - {next};
      SubsetSize(above, aboveRow - {next});
      top := DominatedByAnUndominated(rows, next);
      DominanceIsStrictPartialOrder(top, next, row);
    }
  }

  method Beaten(rows: seq<FrontierRow>, i: nat) returns (beaten: bool)
    requires i < |rows|
    ensures beaten <==> !Undominated(rows[i], rows)
  {
    hide Dominates;
    beaten := false;
    DominanceIsStrictPartialOrder(rows[i], rows[i], rows[i]);
    for j := 0 to |rows|
      invariant beaten <==> exists k :: 0 <= k < j && Dominates(rows[k], rows[i])
    {
      if j != i && Dominates(rows[j], rows[i]) {
        beaten := true;
      }
    }
  }

  /** States are told apart by their ids. */
  ghost predicate DistinctIds(rows: seq<FrontierRow>) {
    forall i, j :: 0 <= i < j < |rows| ==> rows[i].id != rows[j].id
  }

  lemma DistinctIdsOfPart(rows: seq<FrontierRow>, part: seq<FrontierRow>)
    requires DistinctIds(rows) && Distinct(part) && forall r :: r in part ==> r in rows
    ensures DistinctIds(part)
  {
    forall i, j | 0 <= i < j < |part| ensures part[i].id != part[j].id {
      assert part[i] in rows && part[j] in rows && part[i] != part[j];
    }
  }

  /** `_pareto_kept_state_ids`. */
  method ParetoKeptStateIds(rows: seq<FrontierRow>) returns (kept: set<string>)
    requires DistinctIds(rows)
    ensures forall row :: row in rows ==> (row.id in kept <==> Undominated(row, rows))
    ensures forall row :: row in rows && row.id !in kept ==>
              exists top :: top in rows && top.id in kept && Dominates(top, row)
    ensures rows != [] ==> kept != {}
  {
    hide Dominates;
    kept := {};
    for i := 0 to |rows|
      invariant forall k :: 0 <= k < i ==> (rows[k].id in kept <==> Undominated(rows[k], rows))
      invariant forall id :: id in kept ==> exists k :: 0 <= k < i && rows[k].id == id
    {
      var beaten := Beaten(rows, i);
      if !beaten {
        kept := kept + {rows[i].id};
      }
    }
    KeptCoversRows(rows, kept);
  }

  lemma KeptCoversRows(rows: seq<FrontierRow>, kept: set<string>)
    requires forall k :: 0 <= k < |rows| ==> (rows[k].id in kept <==> Undominated(rows[k], rows))
    ensures forall row :: row in rows ==> (row.id in kept <==> Undominated(row, rows))
    ensures forall row :: row in rows && row.id !in kept ==>
              exists top :: top in rows && top.id in kept && Dominates(top, row)
    ensures rows != [] ==> kept != {}
  {
    hide Dominates, Undominated;
    forall row | row in rows && row.id !in kept
      ensures exists top :: top in rows && top.id in kept && Dominates(top, row)
    {
      var top := DominatedByAnUndominated(rows, row);
    }
    if rows != [] {
      assert rows[0] in rows;
    }
  }

  // ------------------------------------------------------------------- beam

  predicate ByScore(a: FrontierRow, b: FrontierRow) {
    a.finalStateScore > b.finalStateScore || (a.finalStateScore == b.finalStateScore && TextBefore(a.id, b.id))
  }

  predicate ByNovelty(a: FrontierRow, b: FrontierRow) {
    a.noveltyScore > b.noveltyScore || (a.noveltyScore == b.noveltyScore && ByScore(a, b))
  }

  predicate ByObjective(a: FrontierRow, b: FrontierRow) {
    a.objectiveValue < b.objectiveValue || (a.objectiveValue == b.objectiveValue && TextBefore(a.id, b.id))
  }

  predicate ByDirectCalls(a: FrontierRow, b: FrontierRow) {
    a.directCalls < b.directCalls || (a.directCalls == b.directCalls && ByScore(a, b))
  }

  predicate ByMemory(a: FrontierRow, b: FrontierRow) {
    a.memoryOps < b.memoryOps || (a.memoryOps == b.memoryOps && ByScore(a, b))
  }

  predicate ByBranches(a: FrontierRow, b: FrontierRow) {
    a.branches < b.branches || (a.branches == b.branches && ByScore(a, b))
  }

  lemma ByScoreIsStrictWeak()
    ensures StrictWeakOrder(ByScore)
  {
    forall a, b | ByScore(a, b) ensures !ByScore(b, a) {
      if TextBefore(a.id, b.id) { TextAsymmetric(a.id, b.id); }
    }
    forall a, b, c | !ByScore(a, b) && !ByScore(b, c) ensures !ByScore(a, c) {
      if !TextBefore(a.id, b.id) && !TextBefore(b.id, c.id) { TextNegativelyTransitive(a.id, b.id, c.id); }
    }
  }

  /** A field first and the score second is an order of rows, too. */
  lemma ByFieldIsStrictWeak(before: (FrontierRow, FrontierRow) -> bool, field: FrontierRow -> real)
    requires forall a, b :: before(a, b) <==> field(a) < field(b) || (field(a) == field(b) && ByScore(a, b))
    ensures StrictWeakOrder(before)
  {
    hide ByScore;
    ByScoreIsStrictWeak();
    forall a, b | before(a, b) ensures !before(b, a) {
      assert ByScore(a, b) ==> !ByScore(b, a);
    }
    forall a, b, c | !before(a, b) && !before(b, c) ensures !before(a, c) {
      assert !ByScore(a, b) && !ByScore(b, c) ==> !ByScore(a, c);
    }
  }

  lemma ByObjectiveIsStrictWeak()
    ensures StrictWeakOrder(ByObjective)
  {
    forall a, b | ByObjective(a, b) ensures !ByObjective(b, a) {
      if TextBefore(a.id, b.id) { TextAsymmetric(a.id, b.id); }
    }
    forall a, b, c | !ByObjective(a, b) && !ByObjective(b, c) ensures !ByObjective(a, c) {
      if !TextBefore(a.id, b.id) && !TextBefore(b.id, c.id) { TextNegativelyTransitive(a.id, b.id, c.id); }
    }
  }

  lemma SortedSame(before: (FrontierRow, FrontierRow) -> bool, pool: seq<FrontierRow>)
    ensures forall r :: r in SortBy(before, pool) <==> r in pool
  {
    SortByContents(before, pool);
    forall r ensures r in SortBy(before, pool) <==> r in pool {
      assert r in ToSet(SortBy(before, pool)) <==> r in ToSet(pool);
    }
  }

  predicate FieldVaries(rows: seq<FrontierRow>, field: FrontierRow -> int) {
    exists r, t :: r in rows && t in rows && field(r) != field(t)
  }

  /** Not added because it is there, or because its signature is. */
  ghost predicate Passed(r: FrontierRow, result: seq<FrontierRow>, distinctSignature: bool) {
    r in result || (distinctSignature && exists t :: t in result && t.signature == r.signature)
  }

  /** All rows before `t` have been passed. */
  ghost predicate InTurn(ordered: seq<FrontierRow>, t: FrontierRow, result: seq<FrontierRow>, distinctSignature: bool) {
    exists p :: 0 <= p < |ordered| && ordered[p] == t
                && forall k :: 0 <= k < p ==> Passed(ordered[k], result, distinctSignature)
  }

  lemma InTurnStays(ordered: seq<FrontierRow>, t: FrontierRow, result: seq<FrontierRow>, row: FrontierRow,
                    distinctSignature: bool)
    requires InTurn(ordered, t, result, distinctSignature)
    ensures InTurn(ordered, t, result + [row], distinctSignature)
  {
    var p :| 0 <= p < |ordered| && ordered[p] == t
             && forall k :: 0 <= k < p ==> Passed(ordered[k], result, distinctSignature);
    forall k | 0 <= k < p ensures Passed(ordered[k], result + [row], distinctSignature) {
      PassedStays(ordered[k], result, row, distinctSignature);
    }
  }

  lemma PassedStays(r: FrontierRow, result: seq<FrontierRow>, row: FrontierRow, distinctSignature: bool)
    requires Passed(r, result, distinctSignature)
    ensures Passed(r, result + [row], distinctSignature)
  {
    if r !in result {
      var t :| t in result && t.signature == r.signature;
      assert t in result + [row];
    }
  }

  /** Rows were added in turn, and the rest is missing only for want of room. */
  ghost predicate Added(selected: seq<FrontierRow>, result: seq<FrontierRow>, ordered: seq<FrontierRow>, width: int,
                        count: int, distinctSignature: bool)
  {
    && selected <= result
    && (forall t :: t in result[|selected|..] ==> t in ordered && InTurn(ordered, t, result, distinctSignature))
    && |result| <= |selected| + (if count < 0 then 0 else count)
    && (|result| - |selected| < count && (|result| == |selected| || |result| < width) ==>
          forall r :: r in ordered ==> Passed(r, result, distinctSignature))
  }

  /** `add_rows`: append up to `count` unselected rows, stopping at the width. */
  method AddRows(selected: seq<FrontierRow>, ordered: seq<FrontierRow>, width: int, count: int, distinctSignature: bool)
    returns (result: seq<FrontierRow>)
    requires Distinct(selected)
    ensures Distinct(result) && Added(selected, result, ordered, width, count, distinctSignature)
  {
    hide Distinct, InTurn, Passed;
    result := selected;
    if count <= 0 {
      return;
    }
    var added := 0;
    var used := set r | r in selected :: r.signature;
    for i := 0 to |ordered|
      invariant selected <= result && Distinct(result) && |result| == |selected| + added && 0 <= added < count
      invariant used == set r | r in result :: r.signature
      invariant forall t :: t in result[|selected|..] ==> t in ordered && InTurn(ordered, t, result, distinctSignature)
      invariant forall k :: 0 <= k < i ==> Passed(ordered[k], result, distinctSignature)
      invariant added > 0 ==> |result| < width
    {
      var row := ordered[i];
      if row in result || (distinctSignature && row.signature in used) {
        IsPassed(row, result, distinctSignature);
        continue;
      }
      AppendDistinct(result, row);
      RowIsAdded(selected, result, ordered, i, distinctSignature);
      result := result + [row];
      used := used + {row.signature};
      added := added + 1;
      if |result| >= width || added >= count {
        break;
      }
    }
  }

  lemma IsPassed(row: FrontierRow, result: seq<FrontierRow>, distinctSignature: bool)
    requires row in result || (distinctSignature && row.signature in set r | r in result :: r.signature)
    ensures Passed(row, result, distinctSignature)
  {
  }

  lemma RowIsAdded(selected: seq<FrontierRow>, result: seq<FrontierRow>, ordered: seq<FrontierRow>, i: nat,
                   distinctSignature: bool)
    requires selected <= result && i < |ordered|
    requires forall t :: t in result[|selected|..] ==> t in ordered && InTurn(ordered, t, result, distinctSignature)
    requires forall k :: 0 <= k < i ==> Passed(ordered[k], result, distinctSignature)
    ensures var more := result + [ordered[i]];
            && (forall t :: t in more[|selected|..] ==> t in ordered && InTurn(ordered, t, more, distinctSignature))
            && (forall k :: 0 <= k <= i ==> Passed(ordered[k], more, distinctSignature))
  {
    hide Passed;
    var row, more := ordered[i], result + [ordered[i]];
    assert more[|selected|..] == result[|selected|..] + [row];
    forall k | 0 <= k <= i ensures Passed(ordered[k], more, distinctSignature) {
      if k < i {
        PassedStays(ordered[k], result, row, distinctSignature);
      } else {
        LastIsPassed(result, row, distinctSignature);
      }
    }
    forall t | t in more[|selected|..] ensures t in ordered && InTurn(ordered, t, more, distinctSignature) {
      if t in result[|selected|..] { InTurnStays(ordered, t, result, row, distinctSignature); }
    }
  }

  lemma LastIsPassed(result: seq<FrontierRow>, row: FrontierRow, distinctSignature: bool)
    ensures Passed(row, result + [row], distinctSignature)
  {
  }

  /** Among sorted rows, no row that is left out comes before one that was added. */
  lemma AddedComeFirst(before: (FrontierRow, FrontierRow) -> bool, pool: seq<FrontierRow>, selected: seq<FrontierRow>,
                       result: seq<FrontierRow>, width: int, count: int, t: FrontierRow, r: FrontierRow)
    requires StrictWeakOrder(before) && Added(selected, result, SortBy(before, pool), width, count, false)
    requires t in result[|selected|..] && r in pool && r !in result
    ensures t in pool && !before(r, t)
  {
    hide StrictWeakOrder;
    var ordered := SortBy(before, pool);
    SortedSame(before, pool);
    SortBySorted(before, pool);
    var p :| 0 <= p < |ordered| && ordered[p] == t && forall k :: 0 <= k < p ==> Passed(ordered[k], result, false);
    var q :| 0 <= q < |ordered| && ordered[q] == r;
    assert !Passed(ordered[q], result, false);
    assert q != p by { assert t in result; }
  }

  /** Rows that may be picked from first: the Pareto rows, or all rows when none is marked. */
  function Pool(rows: seq<FrontierRow>): (pool: seq<FrontierRow>)
    ensures rows != [] ==> pool != []
    ensures forall r :: r in pool ==> r in rows
    ensures (forall r :: r in rows ==> !r.paretoKept) ==> pool == rows
    ensures forall r :: r in rows && r.paretoKept ==> r in pool
  {
    var pareto := Marked(rows, true);
    assert pareto != [] ==> pareto[0] in pareto;
    if pareto == [] then rows else pareto
  }

  function Marked(rows: seq<FrontierRow>, kept: bool): (r: seq<FrontierRow>)
    ensures forall row :: row in r <==> row in rows && row.paretoKept == kept
  {
    if rows == [] then []
    else Marked(rows[..|rows| - 1], kept) + if rows[|rows| - 1].paretoKept == kept then [rows[|rows| - 1]] else []
  }

  /** Some row among `chosen` is least by this field in the whole pool. */
  ghost predicate HoldsLeast(pool: seq<FrontierRow>, chosen: seq<FrontierRow>, field: FrontierRow -> real) {
    pool != [] ==> exists t :: t in chosen && t in pool && forall r :: r in pool ==> field(t) <= field(r)
  }

  const OBJECTIVE := (r: FrontierRow) => r.objectiveValue as real
  const DIRECT_CALLS := (r: FrontierRow) => r.directCalls as real
  const MEMORY := (r: FrontierRow) => r.memoryOps as real
  const BRANCHES := (r: FrontierRow) => r.branches as real
  const DULLNESS := (r: FrontierRow) => -r.noveltyScore

  /** A first row of the sorted pool that is not selected yet gives the selection a least one. */
  lemma BucketHoldsLeast(before: (FrontierRow, FrontierRow) -> bool, field: FrontierRow -> real,
                         pool: seq<FrontierRow>, selected: seq<FrontierRow>, result: seq<FrontierRow>, width: int)
    requires StrictWeakOrder(before) && forall a, b :: field(a) < field(b) ==> before(a, b)
    requires Added(selected, result, SortBy(before, pool), width, 1, false)
    ensures HoldsLeast(pool, result, field)
  {
    hide StrictWeakOrder;
    if pool != [] {
      var least := LeastRow(pool, field);
      if least !in result {
        SortedSame(before, pool);
        assert !Passed(least, result, false);
        var t := result[|selected|];
        assert t in result[|selected|..];
        AddedComeFirst(before, pool, selected, result, width, 1, t, least);
        forall r | r in pool ensures field(t) <= field(r) {}
      }
    }
  }

  lemma {:induction false} LeastRow(pool: seq<FrontierRow>, field: FrontierRow -> real) returns (t: FrontierRow)
    requires pool != []
    ensures t in pool && forall r :: r in pool ==> field(t) <= field(r)
  {
    var init, last := pool[..|pool| - 1], pool[|pool| - 1];
    t := last;
    if init != [] {
      var least := LeastRow(init, field);
      if field(least) < field(last) { t := least; }
    }
    assert pool == init + [last];
  }

  lemma SameFieldHoldsLeast(pool: seq<FrontierRow>, chosen: seq<FrontierRow>, field: FrontierRow -> real)
    requires pool != [] ==> exists t :: t in chosen && t in pool
    requires forall r, t :: r in pool && t in pool ==> field(r) == field(t)
    ensures HoldsLeast(pool, chosen, field)
  {
  }

  /** A row is new if no chosen row has its signature; some chosen row is as new as that. */
  ghost predicate HoldsNovel(pool: seq<FrontierRow>, chosen: seq<FrontierRow>) {
    forall r :: r in pool ==>
      exists t :: t in chosen && (t.signature == r.signature || t.noveltyScore >= r.noveltyScore)
  }

  /** What the beam is for: it keeps a row of least objective, one of fewest direct
      calls, memory operations and branches, and a novel one, as far as it is wide. */
  ghost predicate Diverse(pool: seq<FrontierRow>, chosen: seq<FrontierRow>, width: int) {
    && (width >= 1 ==> HoldsLeast(pool, chosen, OBJECTIVE))
    && (width >= 2 ==> HoldsLeast(pool, chosen, DIRECT_CALLS))
    && (width >= 3 ==> HoldsLeast(pool, chosen, MEMORY))
    && (width >= 4 ==> HoldsLeast(pool, chosen, BRANCHES))
    && (width >= 5 ==> HoldsNovel(pool, chosen))
  }

  function Cut(rows: seq<FrontierRow>, width: nat): seq<FrontierRow> {
    if |rows| <= width then rows else rows[..width]
  }

  lemma EarlierInCut(part: seq<FrontierRow>, all: seq<FrontierRow>, width: nat)
    requires part <= all && |part| <= width
    ensures forall t :: t in part ==> t in Cut(all, width)
  {
    forall t | t in part ensures t in Cut(all, width) {
      var k :| 0 <= k < |part| && part[k] == t;
      assert Cut(all, width)[k] == t;
    }
  }

  lemma MoreHoldsLeast(pool: seq<FrontierRow>, part: seq<FrontierRow>, all: seq<FrontierRow>,
                       field: FrontierRow -> real)
    requires HoldsLeast(pool, part, field) && forall t :: t in part ==> t in all
    ensures HoldsLeast(pool, all, field)
  {
  }

  lemma MoreIsDiverse(pool: seq<FrontierRow>, part: seq<FrontierRow>, all: seq<FrontierRow>, width: int)
    requires Diverse(pool, part, width) && forall t :: t in part ==> t in all
    ensures Diverse(pool, all, width)
  {
    hide HoldsLeast;
    if width >= 1 { MoreHoldsLeast(pool, part, all, OBJECTIVE); }
    if width >= 2 { MoreHoldsLeast(pool, part, all, DIRECT_CALLS); }
    if width >= 3 { MoreHoldsLeast(pool, part, all, MEMORY); }
    if width >= 4 { MoreHoldsLeast(pool, part, all, BRANCHES); }
  }

  /** One bucket: if the field varies in the pool, the first unselected row by it is added. */
  method PickBucket(pool: seq<FrontierRow>, selected: seq<FrontierRow>, ordered: seq<FrontierRow>, varies: bool,
                    ghost before: (FrontierRow, FrontierRow) -> bool, ghost field: FrontierRow -> real, width: int)
    returns (result: seq<FrontierRow>)
    requires Distinct(selected) && (forall r :: r in selected ==> r in pool) && (pool != [] ==> selected != [])
    requires StrictWeakOrder(before) && ordered == SortBy(before, pool)
    requires forall a, b :: field(a) < field(b) ==> before(a, b)
    requires varies <==> exists r, t :: r in pool && t in pool && field(r) != field(t)
    ensures Distinct(result) && selected <= result && |result| <= |selected| + 1
    ensures (forall r :: r in result ==> r in pool) && HoldsLeast(pool, result, field)
  {
    hide Distinct, SortBy, StrictWeakOrder, InTurn, HoldsLeast;
    result := selected;
    if varies {
      result := AddRows(selected, ordered, width, 1, false);
      SortedSame(before, pool);
      BucketHoldsLeast(before, field, pool, selected, result, width);
      AddedAreListed(selected, result, ordered, width, 1, false);
    } else {
      if pool != [] { assert selected[0] in selected; }
      SameFieldHoldsLeast(pool, selected, field);
    }
  }

  lemma AddedAreListed(selected: seq<FrontierRow>, result: seq<FrontierRow>, ordered: seq<FrontierRow>, width: int,
                       count: int, distinctSignature: bool)
    requires Added(selected, result, ordered, width, count, distinctSignature)
    ensures forall r :: r in result ==> r in selected || r in ordered
  {
    hide InTurn, Passed;
    assert result == selected + result[|selected|..];
  }

  lemma BeforesRespectFields()
    ensures StrictWeakOrder(ByObjective) && StrictWeakOrder(ByNovelty) && StrictWeakOrder(ByDirectCalls)
    ensures StrictWeakOrder(ByMemory) && StrictWeakOrder(ByBranches) && StrictWeakOrder(ByScore)
  {
    hide ByScore;
    ByScoreIsStrictWeak();
    ByObjectiveIsStrictWeak();
    ByFieldIsStrictWeak(ByNovelty, DULLNESS);
    ByFieldIsStrictWeak(ByDirectCalls, DIRECT_CALLS);
    ByFieldIsStrictWeak(ByMemory, MEMORY);
    ByFieldIsStrictWeak(ByBranches, BRANCHES);
  }

  /** One row per bucket, the least objective first. */
  method PickBuckets(pool: seq<FrontierRow>, width: int) returns (selected: seq<FrontierRow>)
    requires width >= 1
    ensures Distinct(selected) && |selected| <= 5 && forall r :: r in selected ==> r in pool
    ensures pool != [] ==> |selected| > 0 && forall r :: r in pool ==> !ByObjective(r, selected[0])
    ensures Diverse(pool, Cut(selected, width), width)
  {
    hide Distinct, SortBy, StrictWeakOrder, ByScore, InTurn, Passed, HoldsLeast, HoldsNovel, Cut;
    BeforesRespectFields();
    EmptyDistinct<FrontierRow>();
    var objective := AddRows([], SortBy(ByObjective, pool), width, 1, false);
    FirstBucket(pool, objective, width);
    var directCalls := PickBucket(
      pool, objective, SortBy(ByDirectCalls, pool), FieldVaries(pool, (r: FrontierRow) => r.directCalls),
      ByDirectCalls, DIRECT_CALLS, width);
    var memory := PickBucket(
      pool, directCalls, SortBy(ByMemory, pool), FieldVaries(pool, (r: FrontierRow) => r.memoryOps),
      ByMemory, MEMORY, width);
    var branches := PickBucket(
      pool, memory, SortBy(ByBranches, pool), FieldVaries(pool, (r: FrontierRow) => r.branches),
      ByBranches, BRANCHES, width);
    selected := branches;
    if |selected| < width {
      selected := AddRows(branches, SortBy(ByNovelty, pool), width, 1, true);
      SortedSame(ByNovelty, pool);
      AddedAreListed(branches, selected, SortBy(ByNovelty, pool), width, 1, true);
      NovelBucket(pool, branches, selected, width);
    }
    BucketsAreDiverse(pool, objective, directCalls, memory, branches, selected, width);
  }

  lemma FirstBucket(pool: seq<FrontierRow>, result: seq<FrontierRow>, width: int)
    requires Added([], result, SortBy(ByObjective, pool), width, 1, false) && StrictWeakOrder(ByObjective)
    ensures |result| <= 1 && (forall r :: r in result ==> r in pool) && HoldsLeast(pool, result, OBJECTIVE)
    ensures pool != [] ==> |result| == 1 && forall r :: r in pool ==> !ByObjective(r, result[0])
  {
    hide StrictWeakOrder;
    SortedSame(ByObjective, pool);
    BucketHoldsLeast(ByObjective, OBJECTIVE, pool, [], result, width);
    if pool != [] {
      forall r | r in pool ensures !ByObjective(r, result[0]) {
        if r !in result {
          AddedComeFirst(ByObjective, pool, [], result, width, 1, result[0], r);
        } else {
          ByObjectiveIsStrictWeak();
          assert ByObjective(r, r) ==> !ByObjective(r, r) by { NotBeforeItself(ByObjective, r); }
        }
      }
    }
  }

  lemma NotBeforeItself(before: (FrontierRow, FrontierRow) -> bool, r: FrontierRow)
    requires StrictWeakOrder(before)
    ensures !before(r, r)
  {
  }

  lemma NovelBucket(pool: seq<FrontierRow>, selected: seq<FrontierRow>, result: seq<FrontierRow>, width: int)
    requires Added(selected, result, SortBy(ByNovelty, pool), width, 1, true) && StrictWeakOrder(ByNovelty)
    ensures HoldsNovel(pool, result)
  {
    hide StrictWeakOrder, ByScore;
    SortedSame(ByNovelty, pool);
    SortBySorted(ByNovelty, pool);
    var ordered := SortBy(ByNovelty, pool);
    forall r | r in pool
      ensures exists t :: t in result && (t.signature == r.signature || t.noveltyScore >= r.noveltyScore)
    {
      if !Passed(r, result, true) {
        var t := result[|selected|];
        assert t in result[|selected|..];
        var p :| 0 <= p < |ordered| && ordered[p] == t && forall k :: 0 <= k < p ==> Passed(ordered[k], result, true);
        var q :| 0 <= q < |ordered| && ordered[q] == r;
        assert q > p by { assert t in result; }
        assert !ByNovelty(r, t);
      }
    }
  }

  lemma BucketsAreDiverse(pool: seq<FrontierRow>, objective: seq<FrontierRow>, directCalls: seq<FrontierRow>,
                          memory: seq<FrontierRow>, branches: seq<FrontierRow>, selected: seq<FrontierRow>, width: nat)
    requires objective <= directCalls <= memory <= branches <= selected
    requires |objective| <= 1 && |directCalls| <= 2 && |memory| <= 3 && |branches| <= 4 && |selected| <= 5
    requires HoldsLeast(pool, objective, OBJECTIVE) && HoldsLeast(pool, directCalls, DIRECT_CALLS)
    requires HoldsLeast(pool, memory, MEMORY) && HoldsLeast(pool, branches, BRANCHES)
    requires |branches| < width ==> HoldsNovel(pool, selected)
    ensures Diverse(pool, Cut(selected, width), width)
  {
    hide HoldsLeast, HoldsNovel;
    var cut := Cut(selected, width);
    if width >= 1 { EarlierInCut(objective, selected, width); MoreHoldsLeast(pool, objective, cut, OBJECTIVE); }
    if width >= 2 { EarlierInCut(directCalls, selected, width); MoreHoldsLeast(pool, directCalls, cut, DIRECT_CALLS); }
    if width >= 3 { EarlierInCut(memory, selected, width); MoreHoldsLeast(pool, memory, cut, MEMORY); }
    if width >= 4 { EarlierInCut(branches, selected, width); MoreHoldsLeast(pool, branches, cut, BRANCHES); }
  }

  /** Behind the first `b` rows, nobody with a greater score was left out: first from the
      pool and, when that is used up, from the other rows. Ties go to the smaller id. */
  ghost predicate FilledByScore(rows: seq<FrontierRow>, beam: seq<FrontierRow>, b: nat) {
    b <= |beam| && forall t, r :: t in beam[b..] && r in rows && r !in beam ==>
      && (r in Pool(rows) ==> t in Pool(rows))
      && ((t in Pool(rows) && r !in Pool(rows))
          || t.finalStateScore > r.finalStateScore
          || (t.finalStateScore == r.finalStateScore && !TextBefore(r.id, t.id)))
  }

  lemma FillTells(rows: seq<FrontierRow>, buckets: seq<FrontierRow>, filled: seq<FrontierRow>,
                  selected: seq<FrontierRow>, width: nat)
    requires Added(buckets, filled, SortBy(ByScore, Pool(rows)), width, width - |buckets|, false)
    requires Added(filled, selected, SortBy(ByScore, Marked(rows, false)), width, width - |filled|, false)
    ensures |selected| < width ==> forall r :: r in rows ==> r in selected
    ensures FilledByScore(rows, Cut(selected, width), if |buckets| <= width then |buckets| else width)
  {
    hide SortBy, StrictWeakOrder, InTurn, Passed, ByScore, Pool, Marked, Added, FilledByScore;
    var pool, rest := Pool(rows), Marked(rows, false);
    PoolAndRest(rows);
    ByScoreIsStrictWeak();
    FillsUp(pool, buckets, filled, width);
    FillsUp(rest, filled, selected, width);
    if |buckets| <= width {
      forall t, r | t in selected[|buckets|..] && r in rows && r !in selected
        ensures (r in pool ==> t in pool) && ((t in pool && r !in pool) || !ByScore(r, t))
      {
        FillStep(pool, rest, buckets, filled, selected, width, t, r);
      }
      FilledInOrder(rows, selected, |buckets|);
    } else {
      FilledInOrder(rows, selected[..width], width);
    }
  }

  lemma FillsUp(pool: seq<FrontierRow>, part: seq<FrontierRow>, result: seq<FrontierRow>, width: nat)
    requires Added(part, result, SortBy(ByScore, pool), width, width - |part|, false)
    ensures part <= result && (|part| <= width ==> |result| <= width) && (|part| >= width ==> result == part)
    ensures |result| < width ==> forall r :: r in pool ==> r in result
  {
    hide SortBy, InTurn, ByScore;
    SortedSame(ByScore, pool);
  }

  lemma FilledInOrder(rows: seq<FrontierRow>, beam: seq<FrontierRow>, b: nat)
    requires b <= |beam|
    requires forall t, r :: t in beam[b..] && r in rows && r !in beam ==>
               && (r in Pool(rows) ==> t in Pool(rows))
               && ((t in Pool(rows) && r !in Pool(rows)) || !ByScore(r, t))
    ensures FilledByScore(rows, beam, b)
  {
    hide Pool;
    ScoresOfBefore();
  }

  lemma FillStep(pool: seq<FrontierRow>, rest: seq<FrontierRow>, buckets: seq<FrontierRow>, filled: seq<FrontierRow>,
                 selected: seq<FrontierRow>, width: nat, t: FrontierRow, r: FrontierRow)
    requires StrictWeakOrder(ByScore)
    requires Added(buckets, filled, SortBy(ByScore, pool), width, width - |buckets|, false)
    requires Added(filled, selected, SortBy(ByScore, rest), width, width - |filled|, false)
    requires |filled| < width ==> forall r :: r in pool ==> r in filled
    requires |buckets| <= width && t in selected[|buckets|..] && r !in selected && (r in pool || r in rest)
    ensures (r in pool ==> t in pool) && ((t in pool && r !in pool) || !ByScore(r, t))
  {
    hide SortBy, StrictWeakOrder, InTurn, Passed, ByScore;
    SortedSame(ByScore, pool);
    assert r !in filled by { assert selected == filled + selected[|filled|..]; }
    assert selected[|buckets|..] == filled[|buckets|..] + selected[|filled|..];
    if t in filled[|buckets|..] {
      assert t in pool;
      if r in pool {
        AddedComeFirst(ByScore, pool, buckets, filled, width, width - |buckets|, t, r);
      }
    } else {
      assert |filled| < width;
      AddedComeFirst(ByScore, rest, filled, selected, width, width - |filled|, t, r);
    }
  }

  lemma ScoresOfBefore()
    ensures forall r, t :: !ByScore(r, t) <==>
              t.finalStateScore > r.finalStateScore
              || (t.finalStateScore == r.finalStateScore && !TextBefore(r.id, t.id))
  {
  }

  /** `_select_diversity_preserving_beam`. */
  method SelectDiversityPreservingBeam(rows: seq<FrontierRow>, width: int) returns (beam: seq<FrontierRow>)
    requires DistinctIds(rows)
    ensures DistinctIds(beam) && Distinct(beam) && forall r :: r in beam ==> r in rows
    ensures width >= 0 ==> |beam| == Min(width, |rows|)
    ensures width < 0 ==> beam == []
    ensures width >= 1 && rows != [] ==>
              |beam| > 0 && beam[0] in Pool(rows) &&
              forall r :: r in Pool(rows) ==> beam[0].objectiveValue <= r.objectiveValue
    ensures Diverse(Pool(rows), beam, width)
    ensures exists b: nat :: b <= 5 && FilledByScore(rows, beam, b)
  {
    hide Distinct, DistinctIds, Marked, Pool, SortBy, ByScore, Diverse, FilledByScore, Added;
    EmptyDistinct<FrontierRow>();
    DistinctIdsMeansDistinct(rows);
    if width <= 0 {
      DistinctIdsOfPart(rows, []);
      NothingFilled(rows, width);
      return [];
    }
    var pool := Pool(rows);
    var rest := Marked(rows, false);
    PoolAndRest(rows);
    SortedSame(ByScore, pool);
    SortedSame(ByScore, rest);
    var buckets := PickBuckets(pool, width);
    var filled := AddRows(buckets, SortBy(ByScore, pool), width, width - |buckets|, false);
    var selected := AddRows(filled, SortBy(ByScore, rest), width, width - |filled|, false);
    AddedAreListed(buckets, filled, SortBy(ByScore, pool), width, width - |buckets|, false);
    AddedAreListed(filled, selected, SortBy(ByScore, rest), width, width - |filled|, false);
    AddedPrefix(buckets, filled, SortBy(ByScore, pool), width, width - |buckets|);
    AddedPrefix(filled, selected, SortBy(ByScore, rest), width, width - |filled|);
    FillTells(rows, buckets, filled, selected, width);
    BeamSize(rows, selected, width);
    beam := Cut(selected, width);
    CutsNest(buckets, selected, width);
    MoreIsDiverse(pool, Cut(buckets, width), beam, width);
    DistinctIdsOfPart(rows, beam);
  }

  lemma NothingFilled(rows: seq<FrontierRow>, width: int)
    requires width <= 0
    ensures FilledByScore(rows, [], 0) && Diverse(Pool(rows), [], width)
  {
  }

  lemma AddedPrefix(selected: seq<FrontierRow>, result: seq<FrontierRow>, ordered: seq<FrontierRow>, width: int,
                    count: int)
    requires Added(selected, result, ordered, width, count, false)
    ensures selected <= result
  {
  }

  lemma CutsNest(part: seq<FrontierRow>, all: seq<FrontierRow>, width: nat)
    requires part <= all
    ensures forall t :: t in Cut(part, width) ==> t in Cut(all, width)
  {
    EarlierInCut(Cut(part, width), all, width);
  }

  lemma DistinctIdsMeansDistinct(rows: seq<FrontierRow>)
    requires DistinctIds(rows)
    ensures Distinct(rows)
  {
  }

  lemma PoolAndRest(rows: seq<FrontierRow>)
    ensures forall r :: r in rows <==> r in Pool(rows) || r in Marked(rows, false)
    ensures rows != [] ==> Pool(rows) != []
  {
  }

  lemma BeamSize(rows: seq<FrontierRow>, selected: seq<FrontierRow>, width: nat)
    requires Distinct(rows) && Distinct(selected) && forall r :: r in selected ==> r in rows
    requires |selected| < width ==> forall r :: r in rows ==> r in selected
    ensures Min(|selected|, width) == Min(width, |rows|)
    ensures |selected| > width ==> Distinct(selected[..width])
  {
    DistinctSize(rows);
    DistinctSize(selected);
    SubsetSize(ToSet(selected), ToSet(rows));
    if |selected| < width {
      SubsetSize(ToSet(rows), ToSet(selected));
    }
  }

  lemma AllIsDiverse(rows: seq<FrontierRow>, width: int)
    ensures Diverse(rows, rows, width)
  {
    if rows != [] {
      var a := LeastRow(rows, OBJECTIVE);
      var b := LeastRow(rows, DIRECT_CALLS);
      var c := LeastRow(rows, MEMORY);
      var d := LeastRow(rows, BRANCHES);
    }
  }

  /** `_select_rolling_frontier`: rows come unmarked, so the pool is everything. */
  method SelectRollingFrontier(rows: seq<FrontierRow>, frontierWidth: int) returns (kept: seq<FrontierRow>)
    requires DistinctIds(rows) && forall r :: r in rows ==> !r.paretoKept
    ensures DistinctIds(kept) && Distinct(kept) && forall r :: r in kept ==> r in rows
    ensures frontierWidth >= 0 ==> |kept| == Min(frontierWidth, |rows|)
    ensures frontierWidth >= 1 && rows != [] ==>
              exists best :: best in kept && forall r :: r in rows ==> best.objectiveValue <= r.objectiveValue
    ensures Diverse(rows, kept, frontierWidth)
    ensures exists b: nat :: b <= 5 && FilledByScore(rows, kept, b)
  {
    hide Diverse, HoldsLeast, HoldsNovel;
    if |rows| <= frontierWidth {
      kept := rows;
      AllIsDiverse(rows, frontierWidth);
      assert FilledByScore(rows, kept, 0);
      if rows != [] {
        var best := LeastRow(rows, OBJECTIVE);
      }
    } else {
      kept := SelectDiversityPreservingBeam(rows, frontierWidth);
      assert Pool(rows) == rows;
      if frontierWidth >= 1 {
        assert kept[0] in kept;
      }
    }
  }
}
