/**
 Sorting by an arbitrary order, shared by the canonical JSON printer (object keys), the form
 resolver (form ids) and the audit verifier (rows by timestamp and id).

 The orders may be partial on ties, so uniqueness only asks that no two different elements of
 the sequence tie.
 */
module Sorting {

  ghost predicate TotalPreorder<T(!new)>(le: (T, T) -> bool) {
    && (forall a, b :: le(a, b) || le(b, a))
    && (forall a, b, c :: le(a, b) && le(b, c) ==> le(a, c))
  }

  /** No two different elements of `xs` tie. */
  ghost predicate TieFree<T>(le: (T, T) -> bool, xs: seq<T>) {
    forall a, b :: a in xs && b in xs && le(a, b) && le(b, a) ==> a == b
  }

  ghost predicate Sorted<T>(le: (T, T) -> bool, xs: seq<T>) {
    forall i, j :: 0 <= i < j < |xs| ==> le(xs[i], xs[j])
  }

  function Insert<T>(le: (T, T) -> bool, x: T, xs: seq<T>): (r: seq<T>)
    ensures multiset(r) == multiset(xs) + multiset{x}
  {
    if xs == [] || le(x, xs[0]) then
      [x] + xs
    else
      assert xs == [xs[0]] + xs[1..];
      [xs[0]] + Insert(le, x, xs[1..])
  }

  function Sort<T>(le: (T, T) -> bool, xs: seq<T>): (r: seq<T>)
    ensures multiset(r) == multiset(xs)
  {
    if xs == [] then
      []
    else
      assert xs == [xs[0]] + xs[1..];
      Insert(le, xs[0], Sort(le, xs[1..]))
  }

  lemma {:induction false} InsertSorted<T(!new)>(le: (T, T) -> bool, x: T, xs: seq<T>)
    requires TotalPreorder(le) && Sorted(le, xs)
    ensures Sorted(le, Insert(le, x, xs))
  {
    if xs == [] || le(x, xs[0]) {
    } else {
      var rest := Insert(le, x, xs[1..]);
      InsertSorted(le, x, xs[1..]);
      forall y | y in rest
        ensures le(xs[0], y)
      {
        assert y in multiset(rest);
        assert y == x || y in xs[1..];
      }
    }
  }

  lemma {:induction false} SortSorted<T(!new)>(le: (T, T) -> bool, xs: seq<T>)
    requires TotalPreorder(le)
    ensures Sorted(le, Sort(le, xs))
  {
    if xs == [] {
    } else {
      SortSorted(le, xs[1..]);
      InsertSorted(le, xs[0], Sort(le, xs[1..]));
    }
  }

  /** A permutation has the same elements. */
  lemma SameElements<T>(xs: seq<T>, ys: seq<T>)
    requires multiset(xs) == multiset(ys)
    ensures |xs| == |ys|
    ensures forall x :: x in xs <==> x in ys
  {
    assert |multiset(xs)| == |xs| && |multiset(ys)| == |ys|;
    forall x
      ensures x in xs <==> x in ys
    {
      assert x in xs <==> x in multiset(xs);
      assert x in ys <==> x in multiset(ys);
    }
  }

  lemma Tail<T>(xs: seq<T>)
    requires xs != []
    ensures multiset(xs[1..]) == multiset(xs) - multiset{xs[0]}
  {
    assert xs == [xs[0]] + xs[1..];
  }

  lemma SameHead<T>(le: (T, T) -> bool, xs: seq<T>, ys: seq<T>)
    requires TieFree(le, xs) && Sorted(le, xs) && Sorted(le, ys)
    requires multiset(xs) == multiset(ys) && xs != [] && ys != []
    ensures xs[0] == ys[0]
  {
    assert xs[0] in multiset(ys) && ys[0] in multiset(xs);
    var i :| 0 <= i < |ys| && ys[i] == xs[0];
    var j :| 0 <= j < |xs| && xs[j] == ys[0];
    if i != 0 && j != 0 {
      assert le(ys[0], xs[0]) && le(xs[0], ys[0]);
    }
  }

  /** Without ties there is one sorted arrangement of a bag of elements. */
  lemma {:induction false} SortedUnique<T>(le: (T, T) -> bool, xs: seq<T>, ys: seq<T>)
    requires TieFree(le, xs) && Sorted(le, xs) && Sorted(le, ys)
    requires multiset(xs) == multiset(ys)
    ensures xs == ys
  {
    if xs == [] || ys == [] {
      assert |multiset(xs)| == |xs| && |multiset(ys)| == |ys|;
    } else {
      SameHead(le, xs, ys);
      Tail(xs);
      Tail(ys);
      SortedUnique(le, xs[1..], ys[1..]);
      assert xs == [xs[0]] + xs[1..] && ys == [ys[0]] + ys[1..];
    }
  }

  /** Hence sorting is determined by its output being a sorted permutation. */
  lemma SortIs<T(!new)>(le: (T, T) -> bool, xs: seq<T>, sorted: seq<T>)
    requires TotalPreorder(le) && TieFree(le, xs)
    requires Sorted(le, sorted) && multiset(sorted) == multiset(xs)
    ensures Sort(le, xs) == sorted
  {
    SortSorted(le, xs);
    SameElements(xs, sorted);
    SortedUnique(le, sorted, Sort(le, xs));
  }
}
