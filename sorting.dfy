/** Python's `sorted` on a list of strings: code-point lexicographic order.
    Two lists sort to the same list exactly when they hold the same strings
    the same number of times. */
module Sorting {

  /** `a <= b` on Python strings. */
  predicate LexLe(a: string, b: string)
    decreases |a|
  {
    a == [] || (b != [] && (a[0] < b[0] || (a[0] == b[0] && LexLe(a[1..], b[1..]))))
  }

  lemma {:induction false} LexLeTotal(a: string, b: string)
    ensures LexLe(a, b) || LexLe(b, a)
    decreases |a|
  {
    if a != [] && b != [] && a[0] == b[0] {
      LexLeTotal(a[1..], b[1..]);
    }
  }

  lemma {:induction false} LexLeReflexive(a: string)
    ensures LexLe(a, a)
    decreases |a|
  {
    if a != [] { LexLeReflexive(a[1..]); }
  }

  lemma {:induction false} LexLeAntisymmetric(a: string, b: string)
    requires LexLe(a, b) && LexLe(b, a)
    ensures a == b
    decreases |a|
  {
    if a != [] {
      LexLeAntisymmetric(a[1..], b[1..]);
      assert a == [a[0]] + a[1..];
      assert b == [b[0]] + b[1..];
    }
  }

  lemma {:induction false} LexLeTransitive(a: string, b: string, c: string)
    requires LexLe(a, b) && LexLe(b, c)
    ensures LexLe(a, c)
    decreases |a|
  {
    if a != [] && a[0] == b[0] && b[0] == c[0] {
      LexLeTransitive(a[1..], b[1..], c[1..]);
    }
  }

  predicate SortedStrings(xs: seq<string>) {
    forall i, j :: 0 <= i < j < |xs| ==> LexLe(xs[i], xs[j])
  }

  /** Insertion of one string into a sorted list. */
  function Insert(x: string, xs: seq<string>): (r: seq<string>)
    requires SortedStrings(xs)
    ensures SortedStrings(r)
    ensures multiset(r) == multiset(xs) + multiset{x}
    ensures |r| == |xs| + 1
    ensures r != [] && (r[0] == x || (xs != [] && r[0] == xs[0]))
  {
    if xs == [] then [x]
    else if LexLe(x, xs[0]) then
      InsertFirstSorted(x, xs);
      [x] + xs
    else
      LexLeTotal(x, xs[0]);
      var rest := Insert(x, xs[1..]);
      assert xs == [xs[0]] + xs[1..];
      InsertBehindSorted(x, xs, rest);
      [xs[0]] + rest
  }

  lemma InsertFirstSorted(x: string, xs: seq<string>)
    requires SortedStrings(xs) && xs != [] && LexLe(x, xs[0])
    ensures SortedStrings([x] + xs)
  {
    var r := [x] + xs;
    forall i, j | 0 <= i < j < |r| ensures LexLe(r[i], r[j]) {
      if i == 0 {
        if j > 1 { LexLeTransitive(x, xs[0], xs[j - 1]); }
      } else {
        assert r[i] == xs[i - 1] && r[j] == xs[j - 1];
      }
    }
  }

  lemma InsertBehindSorted(x: string, xs: seq<string>, rest: seq<string>)
    requires SortedStrings(xs) && xs != [] && LexLe(xs[0], x)
    requires SortedStrings(rest) && rest != [] && (rest[0] == x || (|xs| > 1 && rest[0] == xs[1]))
    requires multiset(rest) == multiset(xs[1..]) + multiset{x}
    ensures SortedStrings([xs[0]] + rest)
  {
    var r := [xs[0]] + rest;
    assert LexLe(xs[0], rest[0]);
    forall i, j | 0 <= i < j < |r| ensures LexLe(r[i], r[j]) {
      if i == 0 {
        if j > 1 { LexLeTransitive(xs[0], rest[0], rest[j - 1]); }
      } else {
        assert r[i] == rest[i - 1] && r[j] == rest[j - 1];
      }
    }
  }

  /** `sorted(xs)`. */
  function Sort(xs: seq<string>): (r: seq<string>)
    ensures SortedStrings(r)
    ensures multiset(r) == multiset(xs)
  {
    if xs == [] then []
    else
      assert xs == [xs[0]] + xs[1..];
      Insert(xs[0], Sort(xs[1..]))
  }

  /** The first of a sorted list is no greater than anything in it. */
  lemma SortedFirstLeast(a: seq<string>, x: string)
    requires SortedStrings(a) && x in multiset(a)
    ensures LexLe(a[0], x)
  {
    var k :| 0 <= k < |a| && a[k] == x;
    if k == 0 { LexLeReflexive(x); }
  }

  /** Two non-empty sorted lists of the same strings start alike. */
  lemma SortedSameFirst(a: seq<string>, b: seq<string>)
    requires SortedStrings(a) && SortedStrings(b) && a != [] && b != []
    requires multiset(a) == multiset(b)
    ensures a[0] == b[0]
  {
    assert a[0] in multiset(a) && b[0] in multiset(b);
    SortedFirstLeast(b, a[0]);
    SortedFirstLeast(a, b[0]);
    LexLeAntisymmetric(a[0], b[0]);
  }

  /** Removing the first of a list removes one occurrence of it. */
  lemma MultisetTail(a: seq<string>)
    requires a != []
    ensures multiset(a[1..]) == multiset(a) - multiset{a[0]}
  {
    assert a == [a[0]] + a[1..];
  }

  /** Two sorted lists of the same strings are the same list. */
  lemma {:induction false} SortedUnique(a: seq<string>, b: seq<string>)
    requires SortedStrings(a) && SortedStrings(b)
    requires multiset(a) == multiset(b)
    ensures a == b
    decreases |a|
  {
    assert |a| == |multiset(a)| == |b|;
    if a != [] {
      SortedSameFirst(a, b);
      MultisetTail(a);
      MultisetTail(b);
      assert SortedStrings(a[1..]) && SortedStrings(b[1..]);
      SortedUnique(a[1..], b[1..]);
      assert a == [a[0]] + a[1..] && b == [b[0]] + b[1..];
    }
  }

  /** `sorted(a) == sorted(b)` exactly when `a` and `b` are permutations of
      each other. */
  lemma SortEqualIff(a: seq<string>, b: seq<string>)
    ensures Sort(a) == Sort(b) <==> multiset(a) == multiset(b)
  {
    if multiset(a) == multiset(b) {
      SortedUnique(Sort(a), Sort(b));
    }
  }
}
