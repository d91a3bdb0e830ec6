/** Vocabulary shared by every component: options, duplicate-free lists, and a
    stable sort by a strict order, which is what Python's `sorted` does. */
module Basics {

  datatype Option<+T> = None | Some(value: T)

  ghost predicate Distinct<T>(s: seq<T>) {
    forall i, j :: 0 <= i < j < |s| ==> s[i] != s[j]
  }

  function ToSet<T>(s: seq<T>): set<T> {
    set x | x in s
  }

  /** `order` lists exactly the elements of the duplicate-free list `items`. */
  ghost predicate Arranges<T>(order: seq<T>, items: seq<T>) {
    Distinct(order) && ToSet(order) == ToSet(items)
  }

  lemma ToSetAppend<T>(s: seq<T>, x: T)
    ensures ToSet(s + [x]) == ToSet(s) + {x}
  {
    forall y ensures y in ToSet(s + [x]) <==> y in ToSet(s) + {x} {
      assert y in s + [x] <==> y in s || y == x;
    }
  }

  lemma {:induction false} DistinctSize<T>(s: seq<T>)
    ensures |ToSet(s)| <= |s|
    ensures Distinct(s) <==> |ToSet(s)| == |s|
  {
    if s == [] {
      assert ToSet(s) == {};
    } else {
      var init, last := s[..|s| - 1], s[|s| - 1];
      assert s == init + [last];
      ToSetAppend(init, last);
      DistinctSize(init);
      if last in init {
        assert ToSet(s) == ToSet(init);
        var i :| 0 <= i < |init| && init[i] == last;
        assert s[i] == s[|s| - 1];
      } else {
        assert Distinct(init) <==> Distinct(s) by {
          forall i | 0 <= i < |init| ensures s[i] != last { assert s[i] == init[i]; assert init[i] in init; }
          forall i, j | 0 <= i < j < |init| ensures s[i] == init[i] && s[j] == init[j] {}
          if Distinct(s) {
            forall i, j | 0 <= i < j < |init| ensures init[i] != init[j] { assert s[i] != s[j]; }
          }
        }
      }
    }
  }

  lemma DistinctLast<T>(s: seq<T>)
    requires Distinct(s) && |s| > 0
    ensures Distinct(s[..|s| - 1]) && s[|s| - 1] !in s[..|s| - 1]
    ensures ToSet(s) == ToSet(s[..|s| - 1]) + {s[|s| - 1]}
  {
    forall j | 0 <= j < |s| - 1 ensures s[j] != s[|s| - 1] {}
    ToSetAppend(s[..|s| - 1], s[|s| - 1]);
    assert s == s[..|s| - 1] + [s[|s| - 1]];
  }

  lemma EmptyDistinct<T>()
    ensures Distinct<T>([])
  {
  }

  lemma SingleDistinct<T>(x: T)
    ensures Distinct([x])
  {
  }

  lemma AppendDistinct<T>(s: seq<T>, x: T)
    requires Distinct(s) && x !in s
    ensures Distinct(s + [x])
  {
  }

  lemma DistinctConcat<T>(a: seq<T>, b: seq<T>)
    requires Distinct(a) && Distinct(b) && forall x :: x in a ==> x !in b
    ensures Distinct(a + b)
  {
    forall i, j | 0 <= i < j < |a + b| ensures (a + b)[i] != (a + b)[j] {
      if i < |a| && j >= |a| {
        assert (a + b)[i] in a && (a + b)[j] in b;
      }
    }
  }

  lemma ArrangesSize<T>(order: seq<T>, items: seq<T>)
    requires Distinct(items) && Arranges(order, items)
    ensures |order| == |items|
  {
    DistinctSize(order);
    DistinctSize(items);
  }

  lemma SubsetSize<T>(a: set<T>, b: set<T>)
    requires a <= b
    ensures |a| <= |b|
  {
    assert b == a + (b - a);
  }

  lemma SubsetOfSameSize<T>(a: set<T>, b: set<T>)
    requires a <= b && |a| >= |b|
    ensures a == b
  {
    assert b == a + (b - a);
    assert |b - a| == 0;
  }

  function Below(n: nat): (ids: set<nat>)
    ensures |ids| == n && forall i :: i in ids <==> 0 <= i < n
  {
    if n == 0 then {} else Below(n - 1) + {n - 1}
  }

  // ------------------------------------------------------------- arithmetic

  function Min(a: int, b: int): int {
    if a < b then a else b
  }

  lemma OneMore(k: int, c: int)
    ensures (k + 1) * c == k * c + c
  {
  }

  // ---------------------------------------------------------------- sorting

  ghost predicate StrictWeakOrder<T(!new)>(before: (T, T) -> bool) {
    && (forall a, b :: before(a, b) ==> !before(b, a))
    && (forall a, b, c :: !before(a, b) && !before(b, c) ==> !before(a, c))
  }

  ghost predicate SortedBy<T>(before: (T, T) -> bool, s: seq<T>) {
    forall i, j :: 0 <= i < j < |s| ==> !before(s[j], s[i])
  }

  /** Put `x` behind every element it is not strictly before. */
  function Insert<T>(before: (T, T) -> bool, x: T, s: seq<T>): seq<T> {
    if s == [] || before(x, s[0]) then [x] + s else [s[0]] + Insert(before, x, s[1..])
  }

  function SortBy<T>(before: (T, T) -> bool, s: seq<T>): seq<T> {
    if s == [] then [] else Insert(before, s[|s| - 1], SortBy(before, s[..|s| - 1]))
  }

  lemma {:induction false} InsertContents<T>(before: (T, T) -> bool, x: T, s: seq<T>)
    ensures multiset(Insert(before, x, s)) == multiset(s) + multiset{x}
  {
    if s == [] || before(x, s[0]) {
    } else {
      InsertContents(before, x, s[1..]);
      assert s == [s[0]] + s[1..];
    }
  }

  lemma SortByContents<T>(before: (T, T) -> bool, s: seq<T>)
    ensures multiset(SortBy(before, s)) == multiset(s)
    ensures |SortBy(before, s)| == |s|
    ensures ToSet(SortBy(before, s)) == ToSet(s)
    ensures Distinct(s) ==> Distinct(SortBy(before, s))
  {
    hide SortBy, Distinct;
    SortByMultiset(before, s);
    SameContents(SortBy(before, s), s);
    DistinctSize(s);
    DistinctSize(SortBy(before, s));
  }

  lemma {:induction false} SortByMultiset<T>(before: (T, T) -> bool, s: seq<T>)
    ensures multiset(SortBy(before, s)) == multiset(s)
  {
    if s != [] {
      SortByMultiset(before, s[..|s| - 1]);
      InsertContents(before, s[|s| - 1], SortBy(before, s[..|s| - 1]));
      assert s == s[..|s| - 1] + [s[|s| - 1]];
    }
  }

  lemma SameContents<T>(a: seq<T>, b: seq<T>)
    requires multiset(a) == multiset(b)
    ensures |a| == |b| && ToSet(a) == ToSet(b)
  {
    assert |a| == |multiset(a)| && |b| == |multiset(b)|;
    forall x ensures x in a <==> x in b {
      assert x in multiset(a) <==> x in a;
      assert x in multiset(b) <==> x in b;
    }
  }

  lemma {:induction false} InsertSorted<T(!new)>(before: (T, T) -> bool, x: T, s: seq<T>)
    requires StrictWeakOrder(before) && SortedBy(before, s)
    ensures SortedBy(before, Insert(before, x, s))
  {
    if s == [] {
    } else if before(x, s[0]) {
      forall j | 0 <= j < |s| ensures !before(s[j], x) {
        assert !before(s[0], x);
        if j > 0 { assert !before(s[j], s[0]); }
      }
    } else {
      InsertSorted(before, x, s[1..]);
      var rest := Insert(before, x, s[1..]);
      InsertContents(before, x, s[1..]);
      forall j | 0 <= j < |rest| ensures !before(rest[j], s[0]) {
        assert rest[j] in multiset(s[1..]) + multiset{x};
        if rest[j] != x {
          assert rest[j] in s[1..];
          var k :| 0 <= k < |s[1..]| && s[1..][k] == rest[j];
          assert s[k + 1] == rest[j];
        }
      }
    }
  }

  lemma {:induction false} SortBySorted<T(!new)>(before: (T, T) -> bool, s: seq<T>)
    requires StrictWeakOrder(before)
    ensures SortedBy(before, SortBy(before, s))
  {
    if s != [] {
      SortBySorted(before, s[..|s| - 1]);
      InsertSorted(before, s[|s| - 1], SortBy(before, s[..|s| - 1]));
    }
  }
}
