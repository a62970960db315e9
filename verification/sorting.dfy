/** `list.sort()` on a list of `str`: Python orders strings by code points, character by
    character, and a proper prefix comes first. The model sorts by insertion; as a sorted
    permutation is unique, any correct sort gives the same list. */
module Sorting {

  /** `a <= b` on Python strings. */
  predicate LessEq(a: string, b: string)
    decreases |a|
  {
    a == [] || (b != [] && (a[0] < b[0] || (a[0] == b[0] && LessEq(a[1..], b[1..]))))
  }

  /** Each element is at most the next. */
  predicate Sorted(xs: seq<string>)
    decreases |xs|
  {
    |xs| <= 1 || (LessEq(xs[0], xs[1]) && Sorted(xs[1..]))
  }

  /** Inserts `x` before the first element it is at most. */
  function Insert(x: string, xs: seq<string>): (r: seq<string>)
    requires Sorted(xs)
    ensures Sorted(r)
    ensures multiset(r) == multiset(xs) + multiset{x}
    ensures |r| == |xs| + 1
    ensures r[0] == x || (xs != [] && r[0] == xs[0])
  {
    if xs == [] then [x]
    else if LessEq(x, xs[0]) then
      assert ([x] + xs)[1..] == xs;
      [x] + xs
    else
      LessEqTotal(x, xs[0]);
      var rest := Insert(x, xs[1..]);
      assert ([xs[0]] + rest)[1..] == rest;
      assert xs == [xs[0]] + xs[1..];
      [xs[0]] + rest
  }

  /** `sorted(xs)`. */
  function Sort(xs: seq<string>): (r: seq<string>)
    ensures Sorted(r)
    ensures multiset(r) == multiset(xs)
    ensures |r| == |xs|
  {
    if xs == [] then []
    else
      assert xs == [xs[0]] + xs[1..];
      Insert(xs[0], Sort(xs[1..]))
  }

  // ---------------------------------------------------------------- the order

  lemma {:induction false} LessEqReflexive(a: string)
    ensures LessEq(a, a)
    decreases |a|
  {
    if a != [] { LessEqReflexive(a[1..]); }
  }

  lemma {:induction false} LessEqTotal(a: string, b: string)
    ensures LessEq(a, b) || LessEq(b, a)
    decreases |a|
  {
    if a != [] && b != [] && a[0] == b[0] { LessEqTotal(a[1..], b[1..]); }
  }

  lemma {:induction false} LessEqAntisymmetric(a: string, b: string)
    requires LessEq(a, b) && LessEq(b, a)
    ensures a == b
    decreases |a|
  {
    if a != [] {
      LessEqAntisymmetric(a[1..], b[1..]);
      assert a == [a[0]] + a[1..] && b == [b[0]] + b[1..];
    }
  }

  lemma {:induction false} LessEqTransitive(a: string, b: string, c: string)
    requires LessEq(a, b) && LessEq(b, c)
    ensures LessEq(a, c)
    decreases |a|
  {
    if a != [] && a[0] == b[0] && b[0] == c[0] {
      LessEqTransitive(a[1..], b[1..], c[1..]);
    }
  }

  /** A string is at most every string it is a prefix of. */
  lemma {:induction false} PrefixFirst(a: string, t: string)
    ensures LessEq(a, a + t)
    decreases |a|
  {
    if a != [] {
      assert (a + t)[1..] == a[1..] + t;
      PrefixFirst(a[1..], t);
    }
  }

  // ---------------------------------------------------------------- sorted lists

  /** The first element of a sorted list is at most every element. */
  lemma {:induction false} SortedFirstLeast(xs: seq<string>, y: string)
    requires Sorted(xs) && y in xs
    ensures LessEq(xs[0], y)
    decreases |xs|
  {
    if xs[0] == y {
      LessEqReflexive(y);
    } else {
      assert y in xs[1..] by { assert xs == [xs[0]] + xs[1..]; }
      SortedFirstLeast(xs[1..], y);
      LessEqTransitive(xs[0], xs[1], y);
    }
  }

  /** Sorting has one answer: two sorted lists with the same elements are equal. */
  lemma {:induction false} SortedUnique(a: seq<string>, b: seq<string>)
    requires Sorted(a) && Sorted(b) && multiset(a) == multiset(b)
    ensures a == b
    decreases |a|
  {
    assert |a| == |multiset(a)| == |b|;
    if a != [] {
      assert a[0] in multiset(b) && b[0] in multiset(a);
      SortedFirstLeast(a, b[0]);
      SortedFirstLeast(b, a[0]);
      LessEqAntisymmetric(a[0], b[0]);
      SameTails(a, b);
      SortedUnique(a[1..], b[1..]);
      assert a == [a[0]] + a[1..] && b == [b[0]] + b[1..];
    }
  }

  /** Lists with the same elements and the same head have tails with the same elements. */
  lemma SameTails(a: seq<string>, b: seq<string>)
    requires a != [] && b != [] && a[0] == b[0] && multiset(a) == multiset(b)
    ensures multiset(a[1..]) == multiset(b[1..])
  {
    assert a == [a[0]] + a[1..] && b == [b[0]] + b[1..];
    assert multiset(a) == multiset{a[0]} + multiset(a[1..]);
    assert multiset(b) == multiset{b[0]} + multiset(b[1..]);
    assert multiset(a[1..]) == multiset(a) - multiset{a[0]};
    assert multiset(b[1..]) == multiset(b) - multiset{b[0]};
  }

  /** `Sort` is the sorted permutation, whatever algorithm produced it. */
  lemma SortIsSorted(xs: seq<string>, ys: seq<string>)
    requires Sorted(ys) && multiset(ys) == multiset(xs)
    ensures Sort(xs) == ys
  {
    SortedUnique(Sort(xs), ys);
  }

  /** Sorting a sorted list leaves it as it is. */
  lemma SortSorted(xs: seq<string>)
    requires Sorted(xs)
    ensures Sort(xs) == xs
  {
    SortedUnique(Sort(xs), xs);
  }

  /** Two strings in ascending order. */
  lemma SortPair(a: string, b: string)
    requires LessEq(a, b)
    ensures Sort([b, a]) == [a, b]
  {
    assert [a, b][1..] == [b];
    assert multiset([b, a]) == multiset([a, b]);
    SortIsSorted([b, a], [a, b]);
  }
}
