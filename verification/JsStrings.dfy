/**
 JavaScript strings: sequences of UTF-16 code units, compared code unit by code unit, which is
 the order of `Array.prototype.sort` without a comparator.
 */
module JsStrings {
  import Sorting

  type CodeUnit = c: int | 0 <= c < 0x1_0000

  type JsString = seq<CodeUnit>

  /** The string a literal of the program text denotes; the literals here are ASCII. */
  function Text(s: string): (r: JsString)
    ensures |r| == |s|
    ensures forall i :: 0 <= i < |s| && s[i] < 128 as char ==> r[i] == s[i] as int
  {
    seq(|s|, i requires 0 <= i < |s| => if s[i] < 128 as char then s[i] as int else 0xFFFD)
  }

  lemma TextConcat(a: string, b: string)
    ensures Text(a + b) == Text(a) + Text(b)
  {
  }

  lemma Assoc(a: JsString, b: JsString, c: JsString)
    ensures a + b + c == a + (b + c)
  {
  }

  predicate Le(a: JsString, b: JsString) {
    a == [] || (b != [] && (a[0] < b[0] || (a[0] == b[0] && Le(a[1..], b[1..]))))
  }

  lemma {:induction false} LeTotal(a: JsString, b: JsString)
    ensures Le(a, b) || Le(b, a)
  {
    if a != [] && b != [] {
      LeTotal(a[1..], b[1..]);
    }
  }

  lemma {:induction false} LeAntisymmetric(a: JsString, b: JsString)
    requires Le(a, b) && Le(b, a)
    ensures a == b
  {
    if a != [] && b != [] {
      LeAntisymmetric(a[1..], b[1..]);
      assert a == [a[0]] + a[1..] && b == [b[0]] + b[1..];
    }
  }

  lemma {:induction false} LeTransitive(a: JsString, b: JsString, c: JsString)
    requires Le(a, b) && Le(b, c)
    ensures Le(a, c)
  {
    if a != [] && a[0] == b[0] && b[0] == c[0] {
      LeTransitive(a[1..], b[1..], c[1..]);
    }
  }

  lemma LeIsTotalOrder()
    ensures Sorting.TotalPreorder(Le)
    ensures forall a: JsString, b: JsString :: Le(a, b) && Le(b, a) ==> a == b
  {
    forall a: JsString, b: JsString
      ensures Le(a, b) || Le(b, a)
      ensures Le(a, b) && Le(b, a) ==> a == b
    {
      LeTotal(a, b);
      if Le(a, b) && Le(b, a) {
        LeAntisymmetric(a, b);
      }
    }
    forall a: JsString, b: JsString, c: JsString | Le(a, b) && Le(b, c)
      ensures Le(a, c)
    {
      LeTransitive(a, b, c);
    }
  }

  /** `xs.sort()` for an array of strings. */
  function Sort(xs: seq<JsString>): (r: seq<JsString>)
    ensures multiset(r) == multiset(xs)
    ensures forall x :: x in r <==> x in xs
  {
    var r := Sorting.Sort(Le, xs);
    Sorting.SameElements(xs, r);
    r
  }

  /** Any sorted permutation is what `sort` returns. */
  lemma SortIs(xs: seq<JsString>, sorted: seq<JsString>)
    requires Sorting.Sorted(Le, sorted) && multiset(sorted) == multiset(xs)
    ensures Sort(xs) == sorted
  {
    LeIsTotalOrder();
    Sorting.SortIs(Le, xs, sorted);
  }

  lemma SortSorted(xs: seq<JsString>)
    ensures Sorting.Sorted(Le, Sort(xs))
  {
    LeIsTotalOrder();
    Sorting.SortSorted(Le, xs);
  }

  ghost predicate Distinct(xs: seq<JsString>) {
    forall i, j :: 0 <= i < j < |xs| ==> xs[i] != xs[j]
  }

  lemma {:induction false} DistinctCount(xs: seq<JsString>)
    ensures Distinct(xs) <==> forall x :: multiset(xs)[x] <= 1
  {
    if xs == [] {
    } else {
      var rest := xs[1..];
      assert xs == [xs[0]] + rest;
      DistinctCount(rest);
      assert forall x :: multiset(xs)[x] == multiset(rest)[x] + (if x == xs[0] then 1 else 0);
      if Distinct(xs) {
        assert Distinct(rest);
        assert xs[0] !in rest;
        assert multiset(rest)[xs[0]] == 0;
      }
    }
  }

  lemma DistinctPermutation(xs: seq<JsString>, ys: seq<JsString>)
    requires multiset(xs) == multiset(ys) && Distinct(xs)
    ensures Distinct(ys)
  {
    DistinctCount(xs);
    DistinctCount(ys);
  }

  lemma SameDistinct(xs: seq<JsString>, ys: seq<JsString>)
    requires Distinct(xs) && Distinct(ys) && forall k :: k in xs <==> k in ys
    ensures multiset(xs) == multiset(ys)
  {
    DistinctCount(xs);
    DistinctCount(ys);
    forall k
      ensures multiset(xs)[k] == multiset(ys)[k]
    {
      assert k in xs <==> k in multiset(xs);
      assert k in ys <==> k in multiset(ys);
    }
  }
}
