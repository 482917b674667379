/** Stable sorting by an integer key, as Python's `sorted` does it. */
module Sorting {

  function InsertBy<T>(sorted: seq<T>, x: T, key: T -> int): seq<T> {
    if sorted == [] then [x]
    else
      var last := sorted[|sorted| - 1];
      if key(last) <= key(x) then sorted + [x] else InsertBy(sorted[..|sorted| - 1], x, key) + [last]
  }

  function SortBy<T>(xs: seq<T>, key: T -> int): seq<T> {
    if xs == [] then [] else InsertBy(SortBy(xs[..|xs| - 1], key), xs[|xs| - 1], key)
  }

  predicate Ascending<T>(xs: seq<T>, key: T -> int) {
    forall i, j :: 0 <= i < j < |xs| ==> key(xs[i]) <= key(xs[j])
  }

  lemma {:induction false} InsertKeeps<T>(sorted: seq<T>, x: T, key: T -> int)
    ensures multiset(InsertBy(sorted, x, key)) == multiset(sorted) + multiset{x}
    ensures |InsertBy(sorted, x, key)| == |sorted| + 1
  {
    if sorted != [] {
      assert sorted == sorted[..|sorted| - 1] + [sorted[|sorted| - 1]];
      InsertKeeps(sorted[..|sorted| - 1], x, key);
    }
  }

  lemma AppendAscends<T>(xs: seq<T>, x: T, key: T -> int)
    requires Ascending(xs, key) && forall y :: y in xs ==> key(y) <= key(x)
    ensures Ascending(xs + [x], key)
  {
  }

  lemma LastIsMost<T>(xs: seq<T>, key: T -> int)
    requires Ascending(xs, key) && xs != []
    ensures Ascending(xs[..|xs| - 1], key) && forall y :: y in xs ==> key(y) <= key(xs[|xs| - 1])
  {
  }

  lemma {:induction false} InsertAscends<T>(sorted: seq<T>, x: T, key: T -> int)
    requires Ascending(sorted, key)
    ensures Ascending(InsertBy(sorted, x, key), key)
  {
    if sorted != [] {
      var front, last := sorted[..|sorted| - 1], sorted[|sorted| - 1];
      LastIsMost(sorted, key);
      InsertAscends(front, x, key);
      InsertKeeps(front, x, key);
      hide Ascending;
      if key(last) <= key(x) {
        AppendAscends(sorted, x, key);
      } else {
        forall y | y in InsertBy(front, x, key) ensures key(y) <= key(last) {
          assert y in multiset(front) + multiset{x};
        }
        AppendAscends(InsertBy(front, x, key), last, key);
      }
    }
  }

  /** Sorting permutes and puts in order. */
  lemma {:induction false} SortSorts<T>(xs: seq<T>, key: T -> int)
    ensures multiset(SortBy(xs, key)) == multiset(xs) && |SortBy(xs, key)| == |xs|
    ensures Ascending(SortBy(xs, key), key)
  {
    if xs != [] {
      var front, last := xs[..|xs| - 1], xs[|xs| - 1];
      assert xs == front + [last];
      SortSorts(front, key);
      InsertKeeps(SortBy(front, key), last, key);
      InsertAscends(SortBy(front, key), last, key);
    }
  }

  /** What is in order already stays as it is. */
  lemma {:induction false} SortedIsFixed<T>(xs: seq<T>, key: T -> int)
    requires Ascending(xs, key)
    ensures SortBy(xs, key) == xs
  {
    if xs != [] {
      SortedIsFixed(xs[..|xs| - 1], key);
    }
  }

  lemma SameMembers<T>(xs: seq<T>, ys: seq<T>)
    requires multiset(xs) == multiset(ys)
    ensures forall x :: x in xs <==> x in ys
  {
    assert forall x :: x in xs <==> x in multiset(xs);
    assert forall x :: x in ys <==> x in multiset(ys);
  }
}
