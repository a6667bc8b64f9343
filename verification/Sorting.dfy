// sorted(xs, key=...): stable insertion by an order on the keys.

module Sorting {

  ghost predicate Preorder<T(!new)>(leq: (T, T) -> bool) {
    && (forall a, b :: leq(a, b) || leq(b, a))
    && (forall a, b, c :: leq(a, b) && leq(b, c) ==> leq(a, c))
  }

  ghost predicate TotalOrder<T(!new)>(leq: (T, T) -> bool) {
    Preorder(leq) && forall a, b :: leq(a, b) && leq(b, a) ==> a == b
  }

  ghost predicate InOrder<T>(leq: (T, T) -> bool, xs: seq<T>) {
    forall i, j :: 0 <= i < j < |xs| ==> leq(xs[i], xs[j])
  }

  function Insert<T>(leq: (T, T) -> bool, xs: seq<T>, x: T): seq<T> {
    if xs == [] || leq(xs[|xs| - 1], x) then xs + [x]
    else Insert(leq, xs[..|xs| - 1], x) + [xs[|xs| - 1]]
  }

  function Sorted<T>(leq: (T, T) -> bool, xs: seq<T>): seq<T> {
    if xs == [] then [] else Insert(leq, Sorted(leq, xs[..|xs| - 1]), xs[|xs| - 1])
  }

  lemma InOrderAppend<T(!new)>(leq: (T, T) -> bool, xs: seq<T>, x: T)
    requires Preorder(leq) && InOrder(leq, xs)
    requires xs != [] ==> leq(xs[|xs| - 1], x)
    ensures InOrder(leq, xs + [x])
  {
    forall i | 0 <= i < |xs| ensures leq(xs[i], x) {
      assert leq(xs[i], xs[|xs| - 1]);
    }
  }

  lemma {:induction false} InsertSorts<T(!new)>(leq: (T, T) -> bool, xs: seq<T>, x: T)
    requires Preorder(leq) && InOrder(leq, xs)
    ensures InOrder(leq, Insert(leq, xs, x))
    ensures multiset(Insert(leq, xs, x)) == multiset(xs) + multiset{x}
    ensures var r := Insert(leq, xs, x);
            r != [] && (r[|r| - 1] == x || (xs != [] && r[|r| - 1] == xs[|xs| - 1]))
  {
    var n := |xs| - 1;
    if xs == [] || leq(xs[n], x) {
      InOrderAppend(leq, xs, x);
    } else {
      var front := xs[..n];
      assert n > 0 ==> leq(xs[n - 1], xs[n]);
      assert leq(x, xs[n]);
      InOrderFront(leq, xs);
      InsertSorts(leq, front, x);
      hide InOrder, Preorder;
      assert xs == front + [xs[n]];
      InOrderAppend(leq, Insert(leq, front, x), xs[n]);
    }
  }

  lemma InOrderFront<T(!new)>(leq: (T, T) -> bool, xs: seq<T>)
    requires xs != [] && InOrder(leq, xs)
    ensures InOrder(leq, xs[..|xs| - 1])
  {
  }

  lemma LastOut<T>(xs: seq<T>)
    requires xs != []
    ensures multiset(xs) == multiset(xs[..|xs| - 1]) + multiset{xs[|xs| - 1]}
  {
    assert xs == xs[..|xs| - 1] + [xs[|xs| - 1]];
  }

  lemma {:induction false} SortedSorts<T(!new)>(leq: (T, T) -> bool, xs: seq<T>)
    requires Preorder(leq)
    ensures InOrder(leq, Sorted(leq, xs))
    ensures multiset(Sorted(leq, xs)) == multiset(xs)
  {
    if xs != [] {
      var n := |xs| - 1;
      SortedSorts(leq, xs[..n]);
      InsertSorts(leq, Sorted(leq, xs[..n]), xs[n]);
      LastOut(xs);
    }
  }

  lemma FirstIsLeast<T(!new)>(leq: (T, T) -> bool, xs: seq<T>, x: T)
    requires TotalOrder(leq) && InOrder(leq, xs) && x in multiset(xs)
    ensures xs != [] && leq(xs[0], x)
  {
    var i :| 0 <= i < |xs| && xs[i] == x;
  }

  // The key decides the order completely: two sorted lists of the same items are equal.
  lemma {:induction false} OrderUnique<T(!new)>(leq: (T, T) -> bool, xs: seq<T>, ys: seq<T>)
    requires TotalOrder(leq) && InOrder(leq, xs) && InOrder(leq, ys)
    requires multiset(xs) == multiset(ys)
    ensures xs == ys
  {
    assert |multiset(xs)| == |xs| && |multiset(ys)| == |ys|;
    if xs != [] {
      assert xs[0] in multiset(xs) && ys[0] in multiset(ys);
      FirstIsLeast(leq, ys, xs[0]);
      FirstIsLeast(leq, xs, ys[0]);
      assert xs == [xs[0]] + xs[1..] && ys == [ys[0]] + ys[1..];
      Cancel(multiset(xs[1..]), multiset(ys[1..]), xs[0]);
      OrderUnique(leq, xs[1..], ys[1..]);
    }
  }

  lemma Cancel<T>(a: multiset<T>, b: multiset<T>, x: T)
    ensures multiset{x} + a == multiset{x} + b <==> a == b
    ensures a + multiset{x} == b + multiset{x} <==> a == b
  {
    if a != b {
      var y :| y in a + b && a[y] != b[y];
      assert (multiset{x} + a)[y] != (multiset{x} + b)[y];
      assert (a + multiset{x})[y] != (b + multiset{x})[y];
    }
  }

  // Sorting forgets the order of its input and nothing else.
  lemma SortedForgetsOrder<T(!new)>(leq: (T, T) -> bool, xs: seq<T>, ys: seq<T>)
    requires TotalOrder(leq)
    ensures Sorted(leq, xs) == Sorted(leq, ys) <==> multiset(xs) == multiset(ys)
  {
    SortedSorts(leq, xs);
    SortedSorts(leq, ys);
    if multiset(xs) == multiset(ys) { OrderUnique(leq, Sorted(leq, xs), Sorted(leq, ys)); }
  }
}
