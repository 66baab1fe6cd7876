/** Sorting by a total order: the result does not depend on the order of the input. */
module Sorting {

  /** `le` orders the elements of `xs` totally. */
  ghost predicate Orders<T(!new)>(le: (T, T) -> bool, xs: seq<T>) {
    && (forall x, y :: x in xs && y in xs ==> le(x, y) || le(y, x))
    && (forall x, y :: x in xs && y in xs && le(x, y) && le(y, x) ==> x == y)
    && (forall x, y, z :: x in xs && y in xs && z in xs && le(x, y) && le(y, z) ==> le(x, z))
  }

  predicate IsSorted<T>(le: (T, T) -> bool, xs: seq<T>) {
    forall i, j :: 0 <= i < j < |xs| ==> le(xs[i], xs[j])
  }

  function Insert<T>(le: (T, T) -> bool, x: T, xs: seq<T>): seq<T> {
    if xs == [] then [x]
    else if le(x, xs[0]) then [x] + xs
    else [xs[0]] + Insert(le, x, xs[1..])
  }

  function Sort<T>(le: (T, T) -> bool, xs: seq<T>): seq<T> {
    if xs == [] then [] else Insert(le, xs[0], Sort(le, xs[1..]))
  }

  lemma {:induction false} PrependSorted<T>(le: (T, T) -> bool, first: T, xs: seq<T>)
    requires IsSorted(le, xs) && forall x :: x in xs ==> le(first, x)
    ensures IsSorted(le, [first] + xs)
  {
  }

  lemma {:induction false} HeadIsLeast<T(!new)>(le: (T, T) -> bool, xs: seq<T>, x: T)
    requires Orders(le, xs) && IsSorted(le, xs) && x in xs
    ensures le(xs[0], x)
  {
    var i :| 0 <= i < |xs| && xs[i] == x;
    assert le(x, x) || le(x, x);
  }

  lemma {:induction false} InsertSorted<T(!new)>(le: (T, T) -> bool, x: T, xs: seq<T>)
    requires Orders(le, [x] + xs) && IsSorted(le, xs)
    ensures IsSorted(le, Insert(le, x, xs)) && multiset(Insert(le, x, xs)) == multiset(xs) + multiset{x}
    decreases |xs|
  {
    if xs != [] {
      var first, rest := xs[0], xs[1..];
      assert xs == [first] + rest;
      SubOrders(le, [x] + xs, xs);
      if le(x, first) {
        forall y | y in xs ensures le(x, y) {
          HeadIsLeast(le, xs, y);
          assert x in [x] + xs && y in [x] + xs && first in [x] + xs;
        }
        PrependSorted(le, x, xs);
      } else {
        SubOrders(le, [x] + xs, [x] + rest);
        InsertSorted(le, x, rest);
        var inserted := Insert(le, x, rest);
        forall y | y in inserted ensures le(first, y) {
          assert y in multiset(inserted);
          assert x in [x] + xs && first in [x] + xs;
          if y in rest {
            HeadIsLeast(le, xs, y);
          }
        }
        PrependSorted(le, first, inserted);
      }
    }
  }

  lemma {:induction false} SubOrders<T(!new)>(le: (T, T) -> bool, xs: seq<T>, ys: seq<T>)
    requires Orders(le, xs) && forall y :: y in ys ==> y in xs
    ensures Orders(le, ys)
  {
  }

  lemma {:induction false} SortSorts<T(!new)>(le: (T, T) -> bool, xs: seq<T>)
    requires Orders(le, xs)
    ensures IsSorted(le, Sort(le, xs)) && multiset(Sort(le, xs)) == multiset(xs)
    decreases |xs|
  {
    if xs != [] {
      assert xs == [xs[0]] + xs[1..];
      SubOrders(le, xs, xs[1..]);
      SortSorts(le, xs[1..]);
      forall y | y in [xs[0]] + Sort(le, xs[1..]) ensures y in xs {
        assert y == xs[0] || y in multiset(Sort(le, xs[1..]));
      }
      SubOrders(le, xs, [xs[0]] + Sort(le, xs[1..]));
      InsertSorted(le, xs[0], Sort(le, xs[1..]));
    }
  }

  lemma {:induction false} SameLeast<T(!new)>(le: (T, T) -> bool, a: seq<T>, b: seq<T>)
    requires Orders(le, a) && IsSorted(le, a) && IsSorted(le, b) && multiset(a) == multiset(b)
    requires a != [] && b != []
    ensures a[0] == b[0]
  {
    assert a[0] in multiset(b) && b[0] in multiset(a);
    SameElements(a, b);
    SubOrders(le, a, b);
    HeadIsLeast(le, a, b[0]);
    HeadIsLeast(le, b, a[0]);
  }

  lemma SameElements<T>(a: seq<T>, b: seq<T>)
    requires multiset(a) == multiset(b)
    ensures |a| == |b| && forall x :: x in a <==> x in b
  {
    assert |a| == |multiset(a)| == |multiset(b)| == |b|;
    assert forall x :: x in a <==> x in multiset(a);
    assert forall x :: x in b <==> x in multiset(b);
  }

  lemma DropSameHead<T>(a: seq<T>, b: seq<T>)
    requires a != [] && b != [] && a[0] == b[0] && multiset(a) == multiset(b)
    ensures multiset(a[1..]) == multiset(b[1..])
  {
    assert a == [a[0]] + a[1..] && b == [b[0]] + b[1..];
    assert multiset(a[1..]) == multiset(a) - multiset{a[0]};
    assert multiset(b[1..]) == multiset(b) - multiset{b[0]};
  }

  lemma {:induction false} SortedIsUnique<T(!new)>(le: (T, T) -> bool, a: seq<T>, b: seq<T>)
    requires Orders(le, a) && IsSorted(le, a) && IsSorted(le, b) && multiset(a) == multiset(b)
    ensures a == b
    decreases |a|
  {
    SameElements(a, b);
    if a != [] {
      SameLeast(le, a, b);
      DropSameHead(a, b);
      SubOrders(le, a, a[1..]);
      SortedIsUnique(le, a[1..], b[1..]);
      assert a == [a[0]] + a[1..] && b == [b[0]] + b[1..];
    }
  }

  /** Sorting any rearrangement gives the same list, and only rearrangements do. */
  lemma {:induction false} SortIsCanonical<T(!new)>(le: (T, T) -> bool, a: seq<T>, b: seq<T>)
    requires Orders(le, a) && Orders(le, b)
    ensures Sort(le, a) == Sort(le, b) <==> multiset(a) == multiset(b)
  {
    SortSorts(le, a);
    SortSorts(le, b);
    if multiset(a) == multiset(b) {
      forall y | y in Sort(le, a) ensures y in a {
        assert y in multiset(Sort(le, a));
      }
      SubOrders(le, a, Sort(le, a));
      SortedIsUnique(le, Sort(le, a), Sort(le, b));
    }
  }
}
