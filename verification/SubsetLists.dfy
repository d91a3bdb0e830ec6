/** The subsets of a duplicate-free list, each listed once. */
module SubsetLists {
  import opened Basics

  function Pow2(n: nat): nat {
    if n == 0 then 1 else 2 * Pow2(n - 1)
  }

  function With<T>(sets: seq<set<T>>, p: T): seq<set<T>> {
    if sets == [] then [] else With(sets[..|sets| - 1], p) + [sets[|sets| - 1] + {p}]
  }

  /** All subsets of the listed items, each once. */
  function Subsets<T>(items: seq<T>): seq<set<T>> {
    if items == [] then [{}]
    else
      var smaller := Subsets(items[..|items| - 1]);
      smaller + With(smaller, items[|items| - 1])
  }

  lemma {:induction false} WithContents<T>(sets: seq<set<T>>, p: T, s: set<T>)
    requires forall t :: t in sets ==> p !in t
    ensures |With(sets, p)| == |sets|
    ensures s in With(sets, p) <==> p in s && s - {p} in sets
  {
    if sets != [] {
      var init, last := sets[..|sets| - 1], sets[|sets| - 1];
      assert sets == init + [last] && last in sets && forall t :: t in init ==> t in sets;
      WithContents(init, p, s);
      assert s == last + {p} <==> p in s && s - {p} == last;
    }
  }

  lemma {:induction false} WithDistinct<T>(sets: seq<set<T>>, p: T)
    requires Distinct(sets) && forall t :: t in sets ==> p !in t
    ensures Distinct(With(sets, p))
  {
    if sets != [] {
      var init, last := sets[..|sets| - 1], sets[|sets| - 1];
      assert last in sets && forall t :: t in init ==> t in sets;
      DistinctLast(sets);
      WithDistinct(init, p);
      WithContents(init, p, last + {p});
      assert (last + {p}) - {p} == last;
    }
  }

  lemma {:induction false} SubsetsContents<T>(items: seq<T>, s: set<T>)
    requires Distinct(items)
    ensures s in Subsets(items) <==> s <= ToSet(items)
  {
    if items == [] {
      assert s <= ToSet(items) <==> s == {};
    } else {
      var init, p := items[..|items| - 1], items[|items| - 1];
      DistinctLast(items);
      SubsetsContents(init, s);
      SubsetsContents(init, s - {p});
      forall t | t in Subsets(init) ensures p !in t { SubsetsContents(init, t); }
      WithContents(Subsets(init), p, s);
      assert s <= ToSet(items) <==> s - {p} <= ToSet(init);
      if p !in s { assert s - {p} == s; }
    }
  }

  lemma {:induction false} SubsetsDistinct<T>(items: seq<T>)
    requires Distinct(items)
    ensures Distinct(Subsets(items)) && |Subsets(items)| == Pow2(|items|)
  {
    if items != [] {
      var init, p := items[..|items| - 1], items[|items| - 1];
      DistinctLast(items);
      SubsetsDistinct(init);
      var smaller := Subsets(init);
      forall t | t in smaller ensures p !in t { SubsetsContents(init, t); }
      WithDistinct(smaller, p);
      WithContents(smaller, p, {});
      forall t | t in With(smaller, p) ensures t !in smaller { WithContents(smaller, p, t); }
      DistinctConcat(smaller, With(smaller, p));
    }
  }
}
