/**
 This module defines the two list operations the importer's stream pipelines are
 built from, `Filter` and `Map`, both keeping encounter order, together with the
 laws used to reason about pipelines that chain them.

 Both are defined by recursion on the LAST element, so a loop that appends to an
 accumulator follows the definition step by step.
 */
module Sequences {

  /** The elements of `s` that satisfy `p`, in their original order (`stream().filter(p).collect(toList())`). */
  function Filter<T(==)>(p: T -> bool, s: seq<T>): (r: seq<T>)
    ensures |r| <= |s|
    ensures forall x :: x in r ==> x in s && p(x)
    ensures forall x :: x in s && p(x) ==> x in r
  {
    if s == [] then []
    else
      assert s == s[..|s| - 1] + [s[|s| - 1]];
      Filter(p, s[..|s| - 1]) + (if p(s[|s| - 1]) then [s[|s| - 1]] else [])
  }

  /** `f` applied to every element of `s`, in order (`stream().map(f).collect(toList())`). */
  function Map<T, U>(f: T -> U, s: seq<T>): (r: seq<U>)
    ensures |r| == |s|
    ensures forall i :: 0 <= i < |s| ==> r[i] == f(s[i])
  {
    if s == [] then [] else Map(f, s[..|s| - 1]) + [f(s[|s| - 1])]
  }

  /** Filtering distributes over concatenation. */
  lemma {:induction false} FilterAppend<T>(p: T -> bool, a: seq<T>, b: seq<T>)
    ensures Filter(p, a + b) == Filter(p, a) + Filter(p, b)
    decreases |b|
  {
    if b != [] {
      var b', last := b[..|b| - 1], b[|b| - 1];
      assert (a + b)[..|a + b| - 1] == a + b';
      assert (a + b)[|a + b| - 1] == last;
      FilterAppend(p, a, b');
    } else {
      assert a + b == a;
    }
  }

  /** Mapping distributes over concatenation. */
  lemma MapAppend<T, U>(f: T -> U, a: seq<T>, b: seq<T>)
    ensures Map(f, a + b) == Map(f, a) + Map(f, b)
  {
  }

  /**
   Two filters in a row keep exactly what one filter by the conjunction keeps,
   in the same order.
   */
  lemma {:induction false} FilterFilter<T>(p: T -> bool, q: T -> bool, pq: T -> bool, s: seq<T>)
    requires forall x :: pq(x) == (p(x) && q(x))
    ensures Filter(q, Filter(p, s)) == Filter(pq, s)
  {
    if s != [] {
      var init, last := s[..|s| - 1], s[|s| - 1];
      FilterFilter(p, q, pq, init);
      var tail := if p(last) then [last] else [];
      FilterAppend(q, Filter(p, init), tail);
      assert Filter(q, tail) == (if pq(last) then [last] else []) by {
        if p(last) {
          assert tail[..0] == [];
        }
      }
    }
  }

  /**
   Filtering by a predicate that looks only at `f(x)` and then mapping by `f`
   gives the same list as mapping first and filtering the images.
   */
  lemma {:induction false} MapFilter<T, U>(f: T -> U, p: T -> bool, q: U -> bool, s: seq<T>)
    requires forall x :: p(x) == q(f(x))
    ensures Map(f, Filter(p, s)) == Filter(q, Map(f, s))
  {
    if s != [] {
      var init, last := s[..|s| - 1], s[|s| - 1];
      MapFilter(f, p, q, init);
      var tail := if p(last) then [last] else [];
      MapAppend(f, Filter(p, init), tail);
      assert Map(f, s)[..|s| - 1] == Map(f, init);
    }
  }

  /**
   Every occurrence of an element that passes the filter survives it, and no
   other element does: the filter neither drops nor merges duplicates.
   */
  lemma {:induction false} FilterCount<T>(p: T -> bool, s: seq<T>, x: T)
    ensures multiset(Filter(p, s))[x] == if p(x) then multiset(s)[x] else 0
  {
    if s != [] {
      var init, last := s[..|s| - 1], s[|s| - 1];
      FilterCount(p, init, x);
      assert s == init + [last];
      assert multiset(s) == multiset(init) + multiset{last};
    }
  }

  /** A filter that no element passes yields the empty list. */
  lemma {:induction false} FilterNone<T>(p: T -> bool, s: seq<T>)
    requires forall x :: x in s ==> !p(x)
    ensures Filter(p, s) == []
  {
    if s != [] {
      assert s[|s| - 1] in s;
      FilterNone(p, s[..|s| - 1]);
    }
  }

}
