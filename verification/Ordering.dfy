/** Orders and the stable sort behind every `sort_by` of the source. */
module Ordering {

  /** Lexicographic order on strings (code points, hence also UTF-8 bytes). */
  predicate StringLess(a: string, b: string)
  {
    b != [] && (a == [] || a[0] < b[0] || (a[0] == b[0] && StringLess(a[1..], b[1..])))
  }

  lemma {:induction false} StringLessAsymmetric(a: string, b: string)
    requires StringLess(a, b)
    ensures !StringLess(b, a)
  {
    if a != [] && a[0] == b[0] {
      StringLessAsymmetric(a[1..], b[1..]);
    }
  }

  lemma {:induction false} StringLessTotal(a: string, b: string)
    ensures a == b || StringLess(a, b) || StringLess(b, a)
  {
    if a != [] && b != [] && a[0] == b[0] {
      StringLessTotal(a[1..], b[1..]);
      assert a == [a[0]] + a[1..] && b == [b[0]] + b[1..];
    }
  }

  lemma {:induction false} StringLessTransitive(a: string, b: string, c: string)
    requires StringLess(a, b) && StringLess(b, c)
    ensures StringLess(a, c)
  {
    if a != [] && a[0] == b[0] == c[0] {
      StringLessTransitive(a[1..], b[1..], c[1..]);
    }
  }

  /** The first difference decides, and a proper prefix comes first. */
  lemma {:induction false} StringLessExactly(a: string, b: string)
    ensures StringLess(a, b) <==> exists k :: 0 <= k <= |a| && k < |b| && a[..k] == b[..k] && (k == |a| || a[k] < b[k])
  {
    if a == [] || b == [] || a[0] != b[0] {
      if b != [] && (a == [] || a[0] < b[0]) {
        assert a[..0] == b[..0];
      }
    } else {
      StringLessExactly(a[1..], b[1..]);
      if StringLess(a, b) {
        var k :| 0 <= k <= |a[1..]| && k < |b[1..]| && a[1..][..k] == b[1..][..k] && (k == |a[1..]| || a[1..][k] < b[1..][k]);
        assert a[..k + 1] == [a[0]] + a[1..][..k] && b[..k + 1] == [b[0]] + b[1..][..k];
      }
      if exists k :: 0 <= k <= |a| && k < |b| && a[..k] == b[..k] && (k == |a| || a[k] < b[k]) {
        var k :| 0 <= k <= |a| && k < |b| && a[..k] == b[..k] && (k == |a| || a[k] < b[k]);
        assert k > 0;
        assert a[1..][..k - 1] == a[..k][1..] && b[1..][..k - 1] == b[..k][1..];
      }
    }
  }

  ghost predicate StrictlySorted<T>(less: (T, T) -> bool, s: seq<T>)
  {
    forall i, j :: 0 <= i < j < |s| ==> less(s[i], s[j])
  }

  ghost predicate Asymmetric<T(!new)>(less: (T, T) -> bool)
  {
    forall a, b :: less(a, b) ==> !less(b, a)
  }

  ghost predicate Transitive<T(!new)>(less: (T, T) -> bool)
  {
    forall a, b, c :: less(a, b) && less(b, c) ==> less(a, c)
  }

  /** Any two different elements of `s` are ordered one way or the other. */
  ghost predicate Comparable<T>(less: (T, T) -> bool, s: seq<T>)
  {
    forall i, j :: 0 <= i < j < |s| ==> less(s[i], s[j]) || less(s[j], s[i])
  }

  /** Inserts `x` behind every element that is not greater than it. */
  function Insert<T>(less: (T, T) -> bool, s: seq<T>, x: T): (r: seq<T>)
    ensures multiset(r) == multiset(s) + multiset{x}
  {
    if s == [] || !less(x, s[|s| - 1]) then
      s + [x]
    else
      assert s == s[..|s| - 1] + [s[|s| - 1]];
      Insert(less, s[..|s| - 1], x) + [s[|s| - 1]]
  }

  /** Stable sort, the specification of `sort_by` and `sort_by_key`. */
  function Sort<T>(less: (T, T) -> bool, s: seq<T>): (r: seq<T>)
    ensures multiset(r) == multiset(s)
  {
    if s == [] then
      []
    else
      assert s == s[..|s| - 1] + [s[|s| - 1]];
      Insert(less, Sort(less, s[..|s| - 1]), s[|s| - 1])
  }

  lemma SameElements<T>(a: seq<T>, b: seq<T>)
    requires multiset(a) == multiset(b)
    ensures |a| == |b|
    ensures forall x :: x in a <==> x in b
  {
    assert |multiset(a)| == |a| && |multiset(b)| == |b|;
    forall x
      ensures x in a <==> x in b
    {
      assert x in a <==> x in multiset(a);
      assert x in b <==> x in multiset(b);
    }
  }

  lemma {:induction false} InsertKeepsOrder<T(!new)>(less: (T, T) -> bool, s: seq<T>, x: T)
    requires Asymmetric(less) && Transitive(less)
    requires StrictlySorted(less, s)
    requires forall i :: 0 <= i < |s| ==> less(s[i], x) || less(x, s[i])
    ensures StrictlySorted(less, Insert(less, s, x))
  {
    if s != [] && less(x, s[|s| - 1]) {
      var front, last := s[..|s| - 1], s[|s| - 1];
      InsertKeepsOrder(less, front, x);
      var r := Insert(less, front, x);
      assert multiset(r) == multiset(front + [x]);
      SameElements(r, front + [x]);
      forall i | 0 <= i < |r|
        ensures less(r[i], last)
      {
        assert r[i] in front + [x];
      }
    }
  }

  /** Sorting orders any sequence whose elements are pairwise comparable. */
  lemma {:induction false} SortOrders<T(!new)>(less: (T, T) -> bool, s: seq<T>)
    requires Asymmetric(less) && Transitive(less)
    requires Comparable(less, s)
    ensures StrictlySorted(less, Sort(less, s))
  {
    if s != [] {
      var front, last := s[..|s| - 1], s[|s| - 1];
      SortOrders(less, front);
      var r := Sort(less, front);
      SameElements(r, front);
      forall i | 0 <= i < |r|
        ensures less(r[i], last) || less(last, r[i])
      {
        assert r[i] in front;
      }
      InsertKeepsOrder(less, r, last);
    }
  }

  /** A strictly sorted sequence is determined by the set of its elements. */
  lemma {:induction false} SortedUnique<T(!new)>(less: (T, T) -> bool, a: seq<T>, b: seq<T>)
    requires Asymmetric(less)
    requires StrictlySorted(less, a) && StrictlySorted(less, b)
    requires forall x :: x in a <==> x in b
    ensures a == b
  {
    assert |b| > 0 ==> b[0] in a;
    if a != [] {
      assert a[0] in b;
      assert a[0] == b[0];
      forall x
        ensures x in a[1..] <==> x in b[1..]
      {
        assert x in a[1..] <==> x in a && x != a[0];
        assert x in b[1..] <==> x in b && x != b[0];
      }
      SortedUnique(less, a[1..], b[1..]);
      assert a == [a[0]] + a[1..] && b == [b[0]] + b[1..];
    }
  }

  /** Sorting forgets the order its input came in. */
  lemma SortIgnoresInputOrder<T(!new)>(less: (T, T) -> bool, a: seq<T>, b: seq<T>)
    requires Asymmetric(less) && Transitive(less)
    requires multiset(a) == multiset(b)
    requires Comparable(less, a) && Comparable(less, b)
    ensures Sort(less, a) == Sort(less, b)
  {
    SortOrders(less, a);
    SortOrders(less, b);
    SameElements(Sort(less, a), Sort(less, b));
    SortedUnique(less, Sort(less, a), Sort(less, b));
  }

  /** Sorting a sorted sequence changes nothing. */
  lemma {:induction false} SortIdempotent<T(!new)>(less: (T, T) -> bool, s: seq<T>)
    requires Asymmetric(less) && StrictlySorted(less, s)
    ensures Sort(less, s) == s
  {
    if s != [] {
      var front, last := s[..|s| - 1], s[|s| - 1];
      SortIdempotent(less, front);
      assert s == front + [last];
      assert front != [] ==> less(front[|front| - 1], last) && !less(last, front[|front| - 1]);
      assert Insert(less, front, last) == front + [last];
    }
  }

  /** `Vec::dedup`: drops every element equal to the one just kept before it. */
  function Dedup<T(==, !new)>(s: seq<T>): (r: seq<T>)
    ensures forall x :: x in r <==> x in s
    ensures s != [] ==> r != [] && r[|r| - 1] == s[|s| - 1]
    ensures |r| <= |s|
  {
    if s == [] then
      []
    else
      var front := Dedup(s[..|s| - 1]);
      assert s == s[..|s| - 1] + [s[|s| - 1]];
      if front != [] && front[|front| - 1] == s[|s| - 1] then front else front + [s[|s| - 1]]
  }
}
