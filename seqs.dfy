/**
 * `Array.prototype.filter` over sequences, with the facts the dashboard needs
 * about it: it keeps exactly the elements that pass, as often as they occur,
 * in their original order.
 */
module Seqs {

  /** The elements of `s` that satisfy `p`, in the order they occur in `s`. */
  function Filter<T>(s: seq<T>, p: T -> bool): (r: seq<T>)
    ensures |r| <= |s|
    ensures forall x :: x in r ==> x in s && p(x)
    decreases |s|
  {
    if s == [] then []
    else
      var last := s[|s| - 1];
      Filter(s[..|s| - 1], p) + (if p(last) then [last] else [])
  }

  /** `a` is `b` with some elements left out and the rest kept in order. */
  predicate IsSubsequence<T(==)>(a: seq<T>, b: seq<T>)
    decreases |b|
  {
    if b == [] then a == []
    else
      (a != [] && a[|a| - 1] == b[|b| - 1] && IsSubsequence(a[..|a| - 1], b[..|b| - 1]))
      || IsSubsequence(a, b[..|b| - 1])
  }

  /** Filtering one more element at the end filters the prefix and then that element. */
  lemma FilterSnoc<T>(s: seq<T>, x: T, p: T -> bool)
    ensures Filter(s + [x], p) == Filter(s, p) + (if p(x) then [x] else [])
  {
    assert (s + [x])[..|s + [x]| - 1] == s;
  }

  /** An element occurs in the filtered sequence as often as in `s` if it passes, and not at all otherwise. */
  lemma {:induction false} FilterCount<T>(s: seq<T>, p: T -> bool, x: T)
    ensures multiset(Filter(s, p))[x] == if p(x) then multiset(s)[x] else 0
    decreases |s|
  {
    if s != [] {
      var s' := s[..|s| - 1];
      var last := s[|s| - 1];
      assert s == s' + [last];
      FilterCount(s', p, x);
    }
  }

  /** Filtering keeps the survivors in their original relative order. */
  lemma {:induction false} FilterIsSubsequence<T>(s: seq<T>, p: T -> bool)
    ensures IsSubsequence(Filter(s, p), s)
    decreases |s|
  {
    if s != [] {
      var s' := s[..|s| - 1];
      var last := s[|s| - 1];
      var r := Filter(s, p);
      FilterIsSubsequence(s', p);
      if p(last) {
        assert r[..|r| - 1] == Filter(s', p);
      } else {
        assert r == Filter(s', p);
      }
    }
  }

  /** When every element passes, filtering changes nothing. */
  lemma {:induction false} FilterAllPass<T>(s: seq<T>, p: T -> bool)
    requires forall i :: 0 <= i < |s| ==> p(s[i])
    ensures Filter(s, p) == s
    decreases |s|
  {
    if s != [] {
      FilterAllPass(s[..|s| - 1], p);
      assert s[..|s| - 1] + [s[|s| - 1]] == s;
    }
  }

  /** A subsequence never holds an element more often than the sequence it is taken from. */
  lemma {:induction false} SubsequenceCount<T>(a: seq<T>, b: seq<T>)
    requires IsSubsequence(a, b)
    ensures multiset(a) <= multiset(b)
    decreases |b|
  {
    if b != [] {
      var b' := b[..|b| - 1];
      assert b == b' + [b[|b| - 1]];
      if a != [] && a[|a| - 1] == b[|b| - 1] && IsSubsequence(a[..|a| - 1], b') {
        SubsequenceCount(a[..|a| - 1], b');
        assert a == a[..|a| - 1] + [a[|a| - 1]];
      } else {
        SubsequenceCount(a, b');
      }
    }
  }

  /**
   * `Filter` is the only answer: an order-preserving selection from `s` that holds
   * every passing element as often as `s` does, and nothing else, is `Filter(s, p)`.
   */
  lemma {:induction false} FilterUnique<T>(s: seq<T>, p: T -> bool, r: seq<T>)
    requires IsSubsequence(r, s)
    requires forall x :: multiset(r)[x] == if p(x) then multiset(s)[x] else 0
    ensures r == Filter(s, p)
    decreases |s|
  {
    if s != [] {
      var s' := s[..|s| - 1];
      var last := s[|s| - 1];
      assert s == s' + [last];
      if r != [] && r[|r| - 1] == last && IsSubsequence(r[..|r| - 1], s') {
        var r' := r[..|r| - 1];
        assert r == r' + [last];
        assert multiset(r)[last] > 0;
        forall x ensures multiset(r')[x] == if p(x) then multiset(s')[x] else 0 {
          assert multiset(r) == multiset(r') + multiset{last};
          assert multiset(s) == multiset(s') + multiset{last};
        }
        FilterUnique(s', p, r');
      } else {
        SubsequenceCount(r, s');
        assert multiset(s) == multiset(s') + multiset{last};
        assert !p(last);
        forall x ensures multiset(r)[x] == if p(x) then multiset(s')[x] else 0 {
          if x != last {
            assert multiset(s)[x] == multiset(s')[x];
          }
        }
        FilterUnique(s', p, r);
      }
    }
  }

  /** Two predicates that agree on every element of `s` filter it alike. */
  lemma {:induction false} FilterAgree<T>(s: seq<T>, p: T -> bool, q: T -> bool)
    requires forall i :: 0 <= i < |s| ==> p(s[i]) == q(s[i])
    ensures Filter(s, p) == Filter(s, q)
    decreases |s|
  {
    if s != [] {
      FilterAgree(s[..|s| - 1], p, q);
    }
  }
}
