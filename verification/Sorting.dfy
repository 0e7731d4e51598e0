/** Strictly sorted sequences under a total order, for the places where the tools sort. */
module Sorting {

  ghost predicate TotalOrder<T(!new)>(less: (T, T) -> bool) {
    && (forall a, b :: a == b || less(a, b) || less(b, a))
    && (forall a :: !less(a, a))
    && (forall a, b, c :: less(a, b) && less(b, c) ==> less(a, c))
  }

  ghost predicate Sorted<T>(xs: seq<T>, less: (T, T) -> bool) {
    forall i, j :: 0 <= i < j < |xs| ==> less(xs[i], xs[j])
  }

  function Insert<T>(x: T, xs: seq<T>, less: (T, T) -> bool): seq<T> {
    if xs == [] then [x]
    else if less(x, xs[0]) then [x] + xs
    else [xs[0]] + Insert(x, xs[1..], less)
  }

  lemma {:induction false} InsertElements<T(!new)>(x: T, xs: seq<T>, less: (T, T) -> bool)
    ensures multiset(Insert(x, xs, less)) == multiset(xs) + multiset{x}
    ensures forall y :: y in Insert(x, xs, less) <==> y == x || y in xs
  {
    if xs != [] && !less(x, xs[0]) {
      InsertElements(x, xs[1..], less);
      assert xs == [xs[0]] + xs[1..];
    }
  }

  lemma {:induction false} InsertSorted<T(!new)>(x: T, xs: seq<T>, less: (T, T) -> bool)
    requires TotalOrder(less) && Sorted(xs, less) && x !in xs
    ensures Sorted(Insert(x, xs, less), less)
  {
    if xs != [] && !less(x, xs[0]) {
      InsertSorted(x, xs[1..], less);
      InsertElements(x, xs[1..], less);
      var tail := Insert(x, xs[1..], less);
      assert less(xs[0], x);
      forall y | y in tail ensures less(xs[0], y) {
        if y != x {
          var k :| 0 <= k < |xs[1..]| && xs[1..][k] == y;
          assert xs[k + 1] == y;
        }
      }
      var all := [xs[0]] + tail;
      forall i, j | 0 <= i < j < |all| ensures less(all[i], all[j]) {
        if i == 0 {
          assert all[j] == tail[j - 1] && tail[j - 1] in tail;
        }
      }
    }
  }

  /** A strictly sorted sequence is determined by its elements. */
  lemma {:induction false} SortedUnique<T(!new)>(xs: seq<T>, ys: seq<T>, less: (T, T) -> bool)
    requires TotalOrder(less) && Sorted(xs, less) && Sorted(ys, less)
    requires forall x :: x in xs <==> x in ys
    ensures xs == ys
  {
    if xs == [] {
      assert forall k :: 0 <= k < |ys| ==> ys[k] in xs;
    } else {
      assert xs[0] in ys;
      var k :| 0 <= k < |ys| && ys[k] == xs[0];
      assert ys[0] in xs;
      assert k == 0 || less(ys[0], xs[0]);
      SortedHeads(xs, ys[0], less);
      forall x ensures x in xs[1..] <==> x in ys[1..] {
        TailElements(xs, x, less);
        TailElements(ys, x, less);
      }
      SortedUnique(xs[1..], ys[1..], less);
    }
  }

  lemma SortedHeads<T(!new)>(xs: seq<T>, y: T, less: (T, T) -> bool)
    requires TotalOrder(less) && Sorted(xs, less) && y in xs
    ensures y == xs[0] || less(xs[0], y)
  {
    var k :| 0 <= k < |xs| && xs[k] == y;
  }

  lemma TailElements<T(!new)>(xs: seq<T>, x: T, less: (T, T) -> bool)
    requires TotalOrder(less) && Sorted(xs, less) && xs != []
    ensures x in xs[1..] <==> x in xs && x != xs[0]
  {
    assert xs == [xs[0]] + xs[1..];
    if x in xs[1..] {
      var k :| 0 <= k < |xs[1..]| && xs[1..][k] == x;
      assert less(xs[0], xs[k + 1]);
    }
  }

  /** `sorted` on a set. */
  method SortSet<T(==, !new)>(values: set<T>, less: (T, T) -> bool) returns (xs: seq<T>)
    requires TotalOrder(less)
    ensures Sorted(xs, less) && forall x :: x in xs <==> x in values
  {
    xs := [];
    var rest := values;
    while rest != {}
      invariant rest <= values && Sorted(xs, less) && forall x :: x in xs <==> x in values - rest
      decreases |rest|
    {
      var x :| x in rest;
      InsertSorted(x, xs, less);
      InsertElements(x, xs, less);
      xs := Insert(x, xs, less);
      rest := rest - {x};
    }
  }
}
