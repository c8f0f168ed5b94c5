/** Stable insertion sort, standing for the runtime's stable sort. */
module Sorting {
  function Insert<T>(le: (T, T) -> bool, x: T, xs: seq<T>): (r: seq<T>)
    ensures |r| == |xs| + 1 && multiset(r) == multiset(xs) + multiset{x}
  {
    if xs == [] || le(x, xs[0]) then [x] + xs
    else assert xs == [xs[0]] + xs[1..]; [xs[0]] + Insert(le, x, xs[1..])
  }

  function Sort<T>(le: (T, T) -> bool, xs: seq<T>): (r: seq<T>)
    ensures |r| == |xs| && multiset(r) == multiset(xs)
  {
    if xs == [] then []
    else assert xs == [xs[0]] + xs[1..]; Insert(le, xs[0], Sort(le, xs[1..]))
  }

  lemma InsertMembers<T>(le: (T, T) -> bool, x: T, xs: seq<T>)
    ensures forall y :: y in Insert(le, x, xs) <==> y == x || y in xs
  {
    forall y
      ensures y in Insert(le, x, xs) <==> y == x || y in xs
    {
      assert y in Insert(le, x, xs) <==> y in multiset(Insert(le, x, xs));
    }
  }

  lemma SortMembers<T>(le: (T, T) -> bool, xs: seq<T>)
    ensures forall y :: y in Sort(le, xs) <==> y in xs
  {
    forall y
      ensures y in Sort(le, xs) <==> y in xs
    {
      assert y in Sort(le, xs) <==> y in multiset(Sort(le, xs));
    }
  }
}
