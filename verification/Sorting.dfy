// A stable sort, for the places where the program sorts by a key.
module Sorting {
  function Insert<T>(leq: (T, T) -> bool, x: T, ys: seq<T>): seq<T> {
    if ys == [] then [x]
    else if leq(x, ys[0]) then [x] + ys
    else [ys[0]] + Insert(leq, x, ys[1..])
  }

  // Elements with equal keys keep their order.
  function Sort<T>(leq: (T, T) -> bool, xs: seq<T>): seq<T> {
    if xs == [] then [] else Insert(leq, xs[0], Sort(leq, xs[1..]))
  }

  ghost predicate Sorted<T(!new)>(leq: (T, T) -> bool, xs: seq<T>) {
    forall i, j :: 0 <= i < j < |xs| ==> leq(xs[i], xs[j])
  }

  ghost predicate Order<T(!new)>(leq: (T, T) -> bool) {
    && (forall x, y :: leq(x, y) || leq(y, x))
    && (forall x, y, z :: leq(x, y) && leq(y, z) ==> leq(x, z))
  }

  lemma {:induction false} InsertBag<T>(leq: (T, T) -> bool, x: T, ys: seq<T>)
    ensures multiset(Insert(leq, x, ys)) == multiset{x} + multiset(ys)
    decreases |ys|
  {
    if ys != [] {
      assert ys == [ys[0]] + ys[1..];
      InsertBag(leq, x, ys[1..]);
    }
  }

  lemma {:induction false} InsertSorted<T(!new)>(leq: (T, T) -> bool, x: T, ys: seq<T>)
    requires Order(leq) && Sorted(leq, ys)
    ensures Sorted(leq, Insert(leq, x, ys))
    ensures forall y :: y in Insert(leq, x, ys) ==> y == x || y in ys
    decreases |ys|
  {
    if ys != [] {
      InsertSorted(leq, x, ys[1..]);
      var r := Insert(leq, x, ys[1..]);
      forall n | 0 <= n < |r| && !leq(x, ys[0]) ensures leq(ys[0], r[n]) {
        assert r[n] in r;
        if r[n] != x {
          var i :| 0 <= i < |ys| - 1 && ys[1..][i] == r[n];
          assert ys[i + 1] == r[n];
        }
      }
    }
  }

  // The result is sorted and holds the same elements.
  lemma {:induction false} SortSorts<T(!new)>(leq: (T, T) -> bool, xs: seq<T>)
    requires Order(leq)
    ensures Sorted(leq, Sort(leq, xs)) && multiset(Sort(leq, xs)) == multiset(xs)
    decreases |xs|
  {
    if xs != [] {
      assert xs == [xs[0]] + xs[1..];
      SortSorts(leq, xs[1..]);
      InsertSorted(leq, xs[0], Sort(leq, xs[1..]));
      InsertBag(leq, xs[0], Sort(leq, xs[1..]));
    }
  }

  lemma {:induction false} SortSorted<T(!new)>(leq: (T, T) -> bool, xs: seq<T>)
    requires Sorted(leq, xs)
    ensures Sort(leq, xs) == xs
    decreases |xs|
  {
    if xs != [] {
      SortSorted(leq, xs[1..]);
    }
  }

  // Sorted, and what leq does not tell apart is in the order given by before.
  ghost predicate InOrder<T(!new)>(leq: (T, T) -> bool, before: (T, T) -> bool, xs: seq<T>) {
    forall i, j :: 0 <= i < j < |xs| ==> leq(xs[i], xs[j]) && (leq(xs[j], xs[i]) ==> before(xs[i], xs[j]))
  }

  lemma {:induction false} InsertStable<T(!new)>(leq: (T, T) -> bool, before: (T, T) -> bool, x: T, ys: seq<T>)
    requires Order(leq) && InOrder(leq, before, ys) && forall y :: y in ys ==> before(x, y)
    ensures InOrder(leq, before, Insert(leq, x, ys))
    ensures forall y :: y in Insert(leq, x, ys) ==> y == x || y in ys
    decreases |ys|
  {
    if ys != [] {
      InsertStable(leq, before, x, ys[1..]);
      var r := Insert(leq, x, ys[1..]);
      forall n | 0 <= n < |r| && !leq(x, ys[0])
        ensures leq(ys[0], r[n]) && (leq(r[n], ys[0]) ==> before(ys[0], r[n]))
      {
        assert r[n] in r;
        if r[n] != x {
          var i :| 0 <= i < |ys| - 1 && ys[1..][i] == r[n];
          assert ys[i + 1] == r[n];
        }
      }
    }
  }

  // The sort is stable: any order of the input remains where keys are equal.
  lemma {:induction false} SortStable<T(!new)>(leq: (T, T) -> bool, before: (T, T) -> bool, xs: seq<T>)
    requires Order(leq) && forall i, j :: 0 <= i < j < |xs| ==> before(xs[i], xs[j])
    ensures InOrder(leq, before, Sort(leq, xs))
    ensures forall x :: x in Sort(leq, xs) ==> x in xs
    decreases |xs|
  {
    if xs != [] {
      var rest := xs[1..];
      assert forall i :: 0 <= i < |rest| ==> rest[i] == xs[i + 1];
      SortStable(leq, before, rest);
      forall y | y in Sort(leq, rest) ensures before(xs[0], y) {
        var i :| 0 <= i < |rest| && rest[i] == y;
        assert xs[i + 1] == y;
      }
      InsertStable(leq, before, xs[0], Sort(leq, rest));
    }
  }

  lemma SameElements<T>(xs: seq<T>, ys: seq<T>)
    requires multiset(xs) == multiset(ys)
    ensures |xs| == |ys| && forall x :: x in xs <==> x in ys
  {
    assert |xs| == |multiset(xs)| == |multiset(ys)| == |ys|;
    assert forall x :: x in xs <==> x in multiset(xs);
    assert forall y :: y in ys <==> y in multiset(ys);
  }

  // Taking one element out of each keeps them equal up to order.
  lemma TakeOut<T>(xs: seq<T>, ys: seq<T>, j: nat)
    requires multiset(xs) == multiset(ys) && xs != [] && j < |ys| && ys[j] == xs[0]
    ensures multiset(xs[1..]) == multiset(ys[..j] + ys[j + 1..])
    ensures xs == [xs[0]] + xs[1..] && ys == ys[..j] + [xs[0]] + ys[j + 1..]
  {
    assert xs == [xs[0]] + xs[1..];
    assert ys == ys[..j] + [xs[0]] + ys[j + 1..];
    assert multiset(xs) == multiset{xs[0]} + multiset(xs[1..]);
    assert multiset(ys) == multiset{xs[0]} + multiset(ys[..j] + ys[j + 1..]);
    assert multiset(xs[1..]) == multiset(xs) - multiset{xs[0]};
  }
}
