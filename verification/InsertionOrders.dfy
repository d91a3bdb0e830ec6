/** `_bounded_insertion_orders`: the orders one single-element move away from
    the canonical one, the evidence used when n! orders are too many. */
module InsertionOrders {
  import opened Basics

  /** Take element `i` out and insert it at position `j` of the rest. */
  function Move<T>(s: seq<T>, i: nat, j: nat): seq<T>
    requires i < |s| && j < |s|
  {
    var rest := s[..i] + s[i + 1..];
    rest[..j] + [s[i]] + rest[j..]
  }

  /** Moves that neither do nothing nor repeat an earlier adjacent swap. */
  predicate Fresh(i: int, j: int) {
    j != i && j != i - 1
  }

  lemma MoveAt<T>(s: seq<T>, i: nat, j: nat, k: nat)
    requires i < |s| && j < |s| && k < |s|
    ensures |Move(s, i, j)| == |s|
    ensures Move(s, i, j)[k] ==
            if k == j then s[i] else if i <= k < j then s[k + 1] else if j < k <= i then s[k - 1] else s[k]
  {
  }

  lemma MoveNowhere<T>(s: seq<T>, i: nat)
    requires i < |s|
    ensures Move(s, i, i) == s
  {
    forall k | 0 <= k < |s| ensures Move(s, i, i)[k] == s[k] { MoveAt(s, i, i, k); }
  }

  lemma AdjacentMovesCoincide<T>(s: seq<T>, i: nat)
    requires 0 < i < |s|
    ensures Move(s, i, i - 1) == Move(s, i - 1, i)
  {
    var back, forth := Move(s, i, i - 1), Move(s, i - 1, i);
    forall k | 0 <= k < |s| ensures |back| == |forth| == |s| && back[k] == forth[k] {
      MoveAt(s, i, i - 1, k);
      MoveAt(s, i - 1, i, k);
    }
  }

  /** A move disturbs exactly the positions between its two ends. */
  lemma MoveDisturbs<T>(s: seq<T>, i: nat, j: nat, k: nat)
    requires Distinct(s) && i < |s| && j < |s| && i != j && k < |s|
    ensures |Move(s, i, j)| == |s|
    ensures Move(s, i, j)[k] == s[k] <==> (k < i && k < j) || (k > i && k > j)
  {
    MoveAt(s, i, j, k);
  }

  lemma FreshMovesDiffer<T>(s: seq<T>, i: nat, j: nat, i': nat, j': nat)
    requires Distinct(s) && i < |s| && j < |s| && i' < |s| && j' < |s|
    requires Fresh(i, j) && Fresh(i', j') && Move(s, i, j) == Move(s, i', j')
    ensures i == i' && j == j'
  {
    MoveDisturbs(s, i, j, i);
    MoveDisturbs(s, i, j, j);
    MoveDisturbs(s, i', j', i);
    MoveDisturbs(s, i', j', j);
    MoveDisturbs(s, i, j, i');
    MoveDisturbs(s, i, j, j');
    MoveDisturbs(s, i', j', i');
    MoveDisturbs(s, i', j', j');
    if i < j {
      MoveAt(s, i, j, i);
      MoveAt(s, i', j', i);
    } else {
      MoveAt(s, i, j, j);
      MoveAt(s, i', j', j);
    }
  }

  /** An adjacent swap, told as a move to the right. */
  function Normal(i: nat, j: nat): (nat, nat) {
    if j == i - 1 then (j, i) else (i, j)
  }

  lemma NormalMove<T>(s: seq<T>, i: nat, j: nat)
    requires i < |s| && j < |s| && i != j
    ensures var (a, b) := Normal(i, j); a < |s| && b < |s| && Fresh(a, b) && Move(s, a, b) == Move(s, i, j)
  {
    if j == i - 1 { AdjacentMovesCoincide(s, i); }
  }

  /** Two moves of a duplicate-free list give the same list exactly when they are the
      same move, both do nothing, or both swap the same two neighbours. */
  lemma MovesCoincideExactly<T>(s: seq<T>, i: nat, j: nat, i': nat, j': nat)
    requires Distinct(s) && i < |s| && j < |s| && i' < |s| && j' < |s|
    ensures Move(s, i, j) == Move(s, i', j') <==>
            || (i == i' && j == j')
            || (i == j && i' == j')
            || (i == j' && j == i' && (j == i + 1 || i == j + 1))
  {
    hide Move, Distinct;
    if i == j { MoveNowhere(s, i); } else { NormalMove(s, i, j); }
    if i' == j' { MoveNowhere(s, i'); } else { NormalMove(s, i', j'); }
    if i == j && i' != j' {
      MoveDisturbs(s, i', j', i');
    } else if i != j && i' == j' {
      MoveDisturbs(s, i, j, i);
    } else if i != j && Move(s, i, j) == Move(s, i', j') {
      FreshMovesDiffer(s, Normal(i, j).0, Normal(i, j).1, Normal(i', j').0, Normal(i', j').1);
    }
  }

  lemma MoveArranges<T>(s: seq<T>, i: nat, j: nat)
    requires Distinct(s) && i < |s| && j < |s|
    ensures Arranges(Move(s, i, j), s)
  {
    var m := Move(s, i, j);
    var rest := s[..i] + s[i + 1..];
    assert s == s[..i] + [s[i]] + s[i + 1..];
    assert rest == rest[..j] + rest[j..];
    assert multiset(m) == multiset(rest) + multiset{s[i]} == multiset(s);
    SameContents(m, s);
    DistinctSize(m);
    DistinctSize(s);
  }

  /** Fresh moves whose source index is below `i`. */
  function FreshBefore(n: nat, i: nat): int {
    if i == 0 then 0 else FreshBefore(n, i - 1) + if i == 1 then n - 1 else n - 2
  }

  lemma {:induction false} FreshBeforeClosedForm(n: nat, i: nat)
    requires 1 <= i
    ensures FreshBefore(n, i) == (n - 1) + (i - 1) * (n - 2)
  {
    if i > 1 {
      FreshBeforeClosedForm(n, i - 1);
      assert (i - 1) * (n - 2) == (i - 2) * (n - 2) + (n - 2);
    } else {
      assert FreshBefore(n, 0) == 0;
    }
  }

  lemma AllFreshMoves(n: nat)
    requires n >= 1
    ensures FreshBefore(n, n) == (n - 1) * (n - 1)
  {
    FreshBeforeClosedForm(n, n);
    assert (n - 1) * (n - 2) + (n - 1) == (n - 1) * (n - 1);
  }

  /** Fresh moves of source `i` with target below `j`. */
  function FreshInRow(i: int, j: int): int {
    j - (if i < j then 1 else 0) - (if 0 <= i - 1 < j then 1 else 0)
  }

  predicate Earlier(i: int, j: int, i': int, j': int) {
    i < i' || (i == i' && j < j')
  }

  /** `orders` lists the fresh moves generated before (i, j), as `moves` witnesses. */
  ghost predicate Generated<T>(s: seq<T>, i: int, j: int, moves: seq<(nat, nat)>, orders: seq<seq<T>>) {
    && |orders| == |moves|
    && (forall k :: 0 <= k < |moves| ==>
          && moves[k].0 < |s| && moves[k].1 < |s| && Fresh(moves[k].0, moves[k].1)
          && Earlier(moves[k].0, moves[k].1, i, j)
          && orders[k] == Move(s, moves[k].0, moves[k].1))
    && (forall a: nat, b: nat :: a < |s| && b < |s| && Fresh(a, b) && Earlier(a, b, i, j) ==> (a, b) in moves)
    && (forall k, l :: 0 <= k < l < |moves| ==> Earlier(moves[k].0, moves[k].1, moves[l].0, moves[l].1))
  }

  lemma GeneratedOrdersDistinct<T>(s: seq<T>, i: int, j: int, moves: seq<(nat, nat)>, orders: seq<seq<T>>)
    requires Distinct(s) && Generated(s, i, j, moves, orders)
    ensures Distinct(orders)
    ensures forall o :: o in orders ==> Arranges(o, s) && o != s && OneMoveAway(s, o)
  {
    forall a, b | 0 <= a < b < |orders| ensures orders[a] != orders[b] {
      if orders[a] == orders[b] {
        FreshMovesDiffer(s, moves[a].0, moves[a].1, moves[b].0, moves[b].1);
      }
    }
    forall o | o in orders ensures Arranges(o, s) && o != s && OneMoveAway(s, o) {
      var k :| 0 <= k < |orders| && orders[k] == o;
      MoveArranges(s, moves[k].0, moves[k].1);
      MoveDisturbs(s, moves[k].0, moves[k].1, moves[k].0);
    }
  }

  ghost predicate OneMoveAway<T>(s: seq<T>, order: seq<T>) {
    exists i: nat, j: nat :: i < |s| && j < |s| && order == Move(s, i, j)
  }

  ghost predicate ListsEveryMove<T>(s: seq<T>, orders: seq<seq<T>>) {
    forall i: nat, j: nat :: i < |s| && j < |s| && Move(s, i, j) != s ==> Move(s, i, j) in orders
  }

  /** Whether the move (i, j) was generated already is decided by `Fresh`. */
  lemma SeenExactlyIfNotFresh<T>(s: seq<T>, i: nat, j: nat, moves: seq<(nat, nat)>, orders: seq<seq<T>>)
    requires Distinct(s) && i < |s| && j < |s| && Generated(s, i, j, moves, orders)
    ensures Move(s, i, j) == s || Move(s, i, j) in orders <==> !Fresh(i, j)
  {
    if j == i {
      MoveNowhere(s, i);
    } else if j == i - 1 {
      AdjacentMovesCoincide(s, i);
      assert (j, i) in moves;
      var k :| 0 <= k < |moves| && moves[k] == (j, i);
      assert orders[k] == Move(s, j, i);
    } else {
      MoveDisturbs(s, i, j, i);
      if Move(s, i, j) in orders {
        var k :| 0 <= k < |orders| && orders[k] == Move(s, i, j);
        FreshMovesDiffer(s, i, j, moves[k].0, moves[k].1);
      }
    }
  }

  lemma GeneratedNext<T>(s: seq<T>, i: nat, j: nat, moves: seq<(nat, nat)>, orders: seq<seq<T>>)
    requires i < |s| && j < |s| && Generated(s, i, j, moves, orders)
    ensures !Fresh(i, j) ==> Generated(s, i, j + 1, moves, orders)
    ensures Fresh(i, j) ==> Generated(s, i, j + 1, moves + [(i, j)], orders + [Move(s, i, j)])
  {
    forall a: nat, b: nat | a < |s| && b < |s| && Fresh(a, b) && Earlier(a, b, i, j + 1)
      ensures (a, b) in moves || (a, b) == (i, j)
    {
      assert Earlier(a, b, i, j) || (a == i && b == j);
    }
  }

  method BoundedInsertionOrders<T(==)>(canonical: seq<T>, limit: int)
    returns (orders: seq<seq<T>>, ghost moves: seq<(nat, nat)>, ghost next: (nat, nat))
    requires Distinct(canonical)
    ensures Distinct(orders)
    ensures forall o :: o in orders ==> Arranges(o, canonical) && o != canonical && OneMoveAway(canonical, o)
    ensures limit >= 0 && |canonical| >= 1 ==> |orders| == Min(limit, (|canonical| - 1) * (|canonical| - 1))
    ensures limit < 0 || |canonical| == 0 ==> orders == []
    // the first ones, by source and then by target
    ensures Generated(canonical, next.0, next.1, moves, orders)
    // all of them, if the limit allows
    ensures limit >= (|canonical| - 1) * (|canonical| - 1) ==> ListsEveryMove(canonical, orders)
  {
    hide Generated, Distinct, Arranges, OneMoveAway, Move, ListsEveryMove, Fresh, FreshInRow, FreshBefore;
    orders, moves, next := [], [], (0, 0);
    NothingGenerated(canonical);
    if limit <= 0 {
      SquareNonNegative(|canonical| - 1);
      GeneratedOrdersDistinct(canonical, 0, 0, [], []);
      if |canonical| <= 1 { NoMoves(canonical); }
      return;
    }
    var n := |canonical|;
    RowStarts(n, 0);
    var seen := {canonical};
    for i := 0 to n
      invariant Generated(canonical, i, 0, moves, orders)
      invariant seen == {canonical} + ToSet(orders)
      invariant |orders| == FreshBefore(n, i) && |orders| < limit
    {
      var rest := canonical[..i] + canonical[i + 1..];
      RowStarts(n, i);
      for j := 0 to n
        invariant Generated(canonical, i, j, moves, orders)
        invariant seen == {canonical} + ToSet(orders)
        invariant |orders| == FreshBefore(n, i) + FreshInRow(i, j) && |orders| < limit
      {
        var order := rest[..j] + [canonical[i]] + rest[j..];
        MoveBody(canonical, i, j);
        SeenExactlyIfNotFresh(canonical, i, j, moves, orders);
        GeneratedNext(canonical, i, j, moves, orders);
        FreshInRowNext(i, j);
        assert order in seen <==> order == canonical || order in orders;
        if order in seen {
          continue;
        }
        seen := seen + {order};
        ToSetAppend(orders, order);
        orders := orders + [order];
        moves := moves + [(i, j)];
        if |orders| >= limit {
          next := (i, j + 1);
          LimitReached(canonical, i, j + 1, moves, orders, limit);
          return;
        }
      }
      RowDone(canonical, i, moves, orders);
      RowCount(n, i, n);
    }
    next := (n, 0);
    AllRowsDone(canonical, moves, orders);
  }

  lemma LimitReached<T>(s: seq<T>, i: nat, j: nat, moves: seq<(nat, nat)>, orders: seq<seq<T>>, limit: nat)
    requires Distinct(s) && i < |s| && j <= |s| && Generated(s, i, j, moves, orders) && |orders| == limit
    requires |orders| == FreshBefore(|s|, i) + FreshInRow(i, j)
    ensures Distinct(orders)
    ensures forall o :: o in orders ==> Arranges(o, s) && o != s && OneMoveAway(s, o)
    ensures |orders| == Min(limit, (|s| - 1) * (|s| - 1))
    ensures limit >= (|s| - 1) * (|s| - 1) ==> ListsEveryMove(s, orders)
  {
    hide Generated, Distinct, Arranges, OneMoveAway, Move, ListsEveryMove, Fresh, FreshInRow, FreshBefore;
    GeneratedOrdersDistinct(s, i, j, moves, orders);
    FreshCountBound(|s|, i, j);
    if limit >= (|s| - 1) * (|s| - 1) {
      AllGenerated(s, i, j, moves, orders);
    }
  }

  lemma AllRowsDone<T>(s: seq<T>, moves: seq<(nat, nat)>, orders: seq<seq<T>>)
    requires Distinct(s) && Generated(s, |s|, 0, moves, orders) && |orders| == FreshBefore(|s|, |s|)
    ensures Distinct(orders)
    ensures forall o :: o in orders ==> Arranges(o, s) && o != s && OneMoveAway(s, o)
    ensures |s| >= 1 ==> |orders| == (|s| - 1) * (|s| - 1)
    ensures |s| == 0 ==> orders == []
    ensures ListsEveryMove(s, orders)
  {
    hide Generated, Distinct, Arranges, OneMoveAway, Move, ListsEveryMove;
    GeneratedOrdersDistinct(s, |s|, 0, moves, orders);
    if |s| >= 1 {
      AllFreshMoves(|s|);
      EveryMoveListed(s, |s|, 0, moves, orders);
    } else {
      NoMoves(s);
    }
  }

  lemma NoMoves<T>(s: seq<T>)
    requires |s| <= 1
    ensures |s| == 1 ==> (|s| - 1) * (|s| - 1) == 0
    ensures ListsEveryMove(s, [])
  {
    if |s| == 1 { MoveNowhere(s, 0); }
  }

  /** Where every fresh move is earlier than (i, j), every order one move away is listed. */
  lemma EveryMoveListed<T>(s: seq<T>, i: nat, j: nat, moves: seq<(nat, nat)>, orders: seq<seq<T>>)
    requires Generated(s, i, j, moves, orders)
    requires forall a: nat, b: nat :: a < |s| && b < |s| && Fresh(a, b) ==> Earlier(a, b, i, j)
    ensures ListsEveryMove(s, orders)
  {
    forall a: nat, b: nat | a < |s| && b < |s| && Move(s, a, b) != s ensures Move(s, a, b) in orders {
      if a == b {
        MoveNowhere(s, a);
      } else {
        NormalMove(s, a, b);
        var move := Normal(a, b);
        assert Earlier(move.0, move.1, i, j);
        var k :| 0 <= k < |moves| && moves[k] == (move.0, move.1);
        assert orders[k] == Move(s, a, b);
      }
    }
  }

  /** A list that has reached the full count lacks no move. */
  lemma AllGenerated<T>(s: seq<T>, i: nat, j: nat, moves: seq<(nat, nat)>, orders: seq<seq<T>>)
    requires Generated(s, i, j, moves, orders) && i < |s| && j <= |s|
    requires FreshBefore(|s|, i) + FreshInRow(i, j) >= (|s| - 1) * (|s| - 1)
    ensures ListsEveryMove(s, orders)
  {
    hide Generated, FreshBefore;
    forall a: nat, b: nat | a < |s| && b < |s| && Fresh(a, b) ensures Earlier(a, b, i, j) {
      if !Earlier(a, b, i, j) {
        LaterMoveCounts(|s|, i, j, a, b);
      }
    }
    EveryMoveListed(s, i, j, moves, orders);
  }

  /** A fresh move that is not earlier than (i, j) is not counted there. */
  lemma LaterMoveCounts(n: nat, i: nat, j: nat, a: nat, b: nat)
    requires i < n && j <= n && a < n && b < n && Fresh(a, b) && !Earlier(a, b, i, j)
    ensures FreshBefore(n, i) + FreshInRow(i, j) < (n - 1) * (n - 1)
  {
    hide FreshBefore;
    FreshCountBound(n, a, b + 1);
    if a > i {
      RowCount(n, i, j);
      FreshBeforeGrows(n, i + 1, a);
    }
  }

  lemma RowCount(n: nat, i: nat, j: nat)
    requires i < n && j <= n
    ensures FreshBefore(n, i) + FreshInRow(i, j) <= FreshBefore(n, i + 1)
    ensures j == n ==> FreshBefore(n, i) + FreshInRow(i, j) == FreshBefore(n, i + 1)
  {
  }

  lemma RowStarts(n: nat, i: nat)
    ensures FreshInRow(i, 0) == 0 && FreshBefore(n, 0) == 0
  {
  }

  lemma FreshInRowNext(i: nat, j: nat)
    ensures FreshInRow(i, j + 1) == FreshInRow(i, j) + if Fresh(i, j) then 1 else 0
  {
  }

  lemma {:induction false} FreshBeforeGrows(n: nat, i: nat, k: nat)
    requires 1 <= i <= k <= n
    ensures FreshBefore(n, i) <= FreshBefore(n, k)
  {
    if i < k {
      FreshBeforeGrows(n, i, k - 1);
    }
  }

  lemma MoveBody<T>(s: seq<T>, i: nat, j: nat)
    requires i < |s| && j < |s|
    ensures var rest := s[..i] + s[i + 1..]; Move(s, i, j) == rest[..j] + [s[i]] + rest[j..]
  {
  }

  lemma SquareNonNegative(k: int)
    ensures k * k >= 0
  {
  }

  lemma NothingGenerated<T>(s: seq<T>)
    ensures Generated(s, 0, 0, [], [])
  {
  }

  lemma RowDone<T>(s: seq<T>, i: nat, moves: seq<(nat, nat)>, orders: seq<seq<T>>)
    requires i < |s| && Generated(s, i, |s|, moves, orders)
    ensures Generated(s, i + 1, 0, moves, orders)
  {
  }

  lemma FreshCountBound(n: nat, i: nat, j: nat)
    requires i < n && j <= n
    ensures FreshBefore(n, i) + FreshInRow(i, j) <= (n - 1) * (n - 1)
  {
    assert FreshInRow(i, j) <= if i == 0 then n - 1 else n - 2;
    FreshBeforeGrows(n, i + 1, n);
    AllFreshMoves(n);
  }
}
