/**
 Generic sequence operations the chart code relies on: the array `filter`
 and `map` of the timeline, the `min`/`max` reductions of d3, and the
 first-occurrence de-duplication performed by a JavaScript `Set`.
 */
module Seqs {

  /** The elements of `s` that satisfy `p`, in their original order. */
  function Filter<T(==)>(p: T -> bool, s: seq<T>): (r: seq<T>)
    ensures |r| <= |s|
    ensures forall x :: x in r ==> x in s && p(x)
    ensures forall x :: x in s && p(x) ==> x in r
  {
    if |s| == 0 then []
    else if p(s[0]) then [s[0]] + Filter(p, s[1..])
    else Filter(p, s[1..])
  }

  /** Filtering keeps every copy of an element that passes and no copy of one that fails. */
  lemma {:induction false} FilterCount<T>(p: T -> bool, s: seq<T>, x: T)
    ensures multiset(Filter(p, s))[x] == if p(x) then multiset(s)[x] else 0
    decreases |s|
  {
    if |s| > 0 {
      FilterCount(p, s[1..], x);
      assert s == [s[0]] + s[1..];
    }
  }

  /** `f` applied to every element of `s`. */
  function Map<T, U>(f: T -> U, s: seq<T>): seq<U>
  {
    seq(|s|, i requires 0 <= i < |s| => f(s[i]))
  }

  /** `a` is obtained from `b` by deleting some elements and keeping the order of the rest. */
  predicate IsSubsequence<T(==)>(a: seq<T>, b: seq<T>)
    decreases |b|
  {
    || |a| == 0
    || (|b| > 0 && ((a[0] == b[0] && IsSubsequence(a[1..], b[1..])) || IsSubsequence(a, b[1..])))
  }

  lemma {:induction false} SubsequenceReflexive<T>(s: seq<T>)
    ensures IsSubsequence(s, s)
    decreases |s|
  {
    if |s| > 0 {
      SubsequenceReflexive(s[1..]);
    }
  }

  lemma {:induction false} SubsequenceTransitive<T>(a: seq<T>, b: seq<T>, c: seq<T>)
    requires IsSubsequence(a, b) && IsSubsequence(b, c)
    ensures IsSubsequence(a, c)
    decreases |c|
  {
    if |a| == 0 {
    } else if IsSubsequence(b, c[1..]) {
      SubsequenceTransitive(a, b, c[1..]);
    } else {
      assert b[0] == c[0] && IsSubsequence(b[1..], c[1..]);
      if a[0] == b[0] && IsSubsequence(a[1..], b[1..]) {
        SubsequenceTransitive(a[1..], b[1..], c[1..]);
      } else {
        SubsequenceTransitive(a, b[1..], c[1..]);
      }
    }
  }

  /** Filtering keeps the survivors in their original order. */
  lemma {:induction false} FilterIsSubsequence<T>(p: T -> bool, s: seq<T>)
    ensures IsSubsequence(Filter(p, s), s)
    decreases |s|
  {
    if |s| > 0 {
      FilterIsSubsequence(p, s[1..]);
      if p(s[0]) {
        assert ([s[0]] + Filter(p, s[1..]))[1..] == Filter(p, s[1..]);
      }
    }
  }

  /** A filter that every element passes removes nothing. */
  lemma {:induction false} FilterKeepsAll<T>(p: T -> bool, s: seq<T>)
    requires forall i :: 0 <= i < |s| ==> p(s[i])
    ensures Filter(p, s) == s
    decreases |s|
  {
    if |s| > 0 {
      FilterKeepsAll(p, s[1..]);
      assert [s[0]] + s[1..] == s;
    }
  }

  lemma MapTail<T, U>(f: T -> U, s: seq<T>)
    requires |s| > 0
    ensures Map(f, s) == [f(s[0])] + Map(f, s[1..])
  {
  }

  /** Mapping an order-preserving selection gives an order-preserving selection of the image. */
  lemma {:induction false} MapPreservesSubsequence<T, U>(f: T -> U, a: seq<T>, b: seq<T>)
    requires IsSubsequence(a, b)
    ensures IsSubsequence(Map(f, a), Map(f, b))
    decreases |b|
  {
    if |a| > 0 {
      MapTail(f, b);
      MapTail(f, a);
      if a[0] == b[0] && IsSubsequence(a[1..], b[1..]) {
        MapPreservesSubsequence(f, a[1..], b[1..]);
      } else {
        MapPreservesSubsequence(f, a, b[1..]);
      }
    }
  }

  /** When `f` never changes whether `p` holds, filtering and mapping commute. */
  lemma {:induction false} FilterMapCommute<T, U>(p: T -> bool, q: U -> bool, f: T -> U, s: seq<T>)
    requires forall i :: 0 <= i < |s| ==> q(f(s[i])) == p(s[i])
    ensures Filter(q, Map(f, s)) == Map(f, Filter(p, s))
    decreases |s|
  {
    if |s| > 0 {
      MapTail(f, s);
      FilterMapCommute(p, q, f, s[1..]);
      if p(s[0]) {
        MapTail(f, [s[0]] + Filter(p, s[1..]));
        assert ([s[0]] + Filter(p, s[1..]))[1..] == Filter(p, s[1..]);
      }
    }
  }

  /** Filtering by `p` and then by `q` is filtering once by their conjunction. */
  lemma {:induction false} FilterFilter<T>(p: T -> bool, q: T -> bool, both: T -> bool, s: seq<T>)
    requires forall x :: both(x) == (p(x) && q(x))
    ensures Filter(q, Filter(p, s)) == Filter(both, s)
    decreases |s|
  {
    if |s| > 0 {
      FilterFilter(p, q, both, s[1..]);
      if p(s[0]) {
        assert ([s[0]] + Filter(p, s[1..]))[1..] == Filter(p, s[1..]);
      }
    }
  }

  /** The least element; d3's `min` over a non-empty list of numbers. */
  function Min(xs: seq<int>): (m: int)
    requires |xs| > 0
    ensures m in xs
    ensures forall x :: x in xs ==> m <= x
  {
    if |xs| == 1 then xs[0]
    else
      var rest := Min(xs[1..]);
      assert xs == [xs[0]] + xs[1..];
      if xs[0] <= rest then xs[0] else rest
  }

  /** The greatest element; d3's `max` over a non-empty list of numbers. */
  function Max(xs: seq<int>): (m: int)
    requires |xs| > 0
    ensures m in xs
    ensures forall x :: x in xs ==> x <= m
  {
    if |xs| == 1 then xs[0]
    else
      var rest := Max(xs[1..]);
      assert xs == [xs[0]] + xs[1..];
      if xs[0] >= rest then xs[0] else rest
  }

  predicate NoDuplicates<T(==)>(s: seq<T>)
  {
    forall i, j :: 0 <= i < j < |s| ==> s[i] != s[j]
  }

  /** The position of the first occurrence of `x` in `s`. */
  function FirstIndex<T(==)>(s: seq<T>, x: T): (k: nat)
    requires x in s
    ensures k < |s| && s[k] == x && x !in s[..k]
  {
    if s[0] == x then 0
    else
      var k := FirstIndex(s[1..], x);
      assert s[..k + 1] == [s[0]] + s[1..][..k];
      k + 1
  }

  /**
   The distinct elements of `s` in order of first occurrence: the iteration
   order of a JavaScript `Set` built from `s`.
   */
  function Distinct<T(==)>(s: seq<T>): seq<T>
  {
    if |s| == 0 then []
    else
      var init := s[..|s| - 1];
      Distinct(init) + (if s[|s| - 1] in init then [] else [s[|s| - 1]])
  }

  /** The first occurrence of an element of a prefix is the same in the whole sequence. */
  lemma FirstIndexInPrefix<T>(s: seq<T>, n: nat, x: T)
    requires n <= |s| && x in s[..n]
    ensures FirstIndex(s, x) == FirstIndex(s[..n], x)
  {
    var k := FirstIndex(s[..n], x);
    assert s[..k] == s[..n][..k];
    assert forall i :: 0 <= i < k ==> s[i] != x;
    var k' := FirstIndex(s, x);
    assert forall i :: 0 <= i < k' ==> s[i] != x;
  }

  /**
   `Distinct(s)` lists every element of `s` exactly once, ordered by where
   each element first occurs in `s`.
   */
  lemma {:induction false} DistinctSpec<T>(s: seq<T>)
    ensures NoDuplicates(Distinct(s))
    ensures forall x :: x in Distinct(s) ==> x in s
    ensures forall x :: x in s ==> x in Distinct(s)
    ensures forall i, j :: 0 <= i < j < |Distinct(s)| ==>
              FirstIndex(s, Distinct(s)[i]) < FirstIndex(s, Distinct(s)[j])
    decreases |s|
  {
    if |s| > 0 {
      var init := s[..|s| - 1];
      var last := s[|s| - 1];
      assert s == init + [last];
      DistinctSpec(init);
      var d := Distinct(init);
      var r := Distinct(s);
      assert s[..|init|] == init;
      forall x | x in d
        ensures FirstIndex(s, x) < |init|
      {
        FirstIndexInPrefix(s, |init|, x);
      }
      if last !in init {
        assert r == d + [last];
        assert FirstIndex(s, last) == |init|;
        forall i, j | 0 <= i < j < |r|
          ensures FirstIndex(s, r[i]) < FirstIndex(s, r[j])
        {
          assert r[i] == d[i];
          if j < |d| {
            assert r[j] == d[j];
            FirstIndexInPrefix(s, |init|, d[i]);
            FirstIndexInPrefix(s, |init|, d[j]);
          }
        }
      } else {
        assert r == d;
        forall i, j | 0 <= i < j < |r|
          ensures FirstIndex(s, r[i]) < FirstIndex(s, r[j])
        {
          FirstIndexInPrefix(s, |init|, d[i]);
          FirstIndexInPrefix(s, |init|, d[j]);
        }
      }
    }
  }
}
