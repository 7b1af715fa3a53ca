/** Sequence helpers: the list comprehension with a condition (`[x for x in s if p(x)]`) that the
    scraper and the views use, and the positions it keeps. */
module Seqs {

  /** `[x for x in s if p(x)]`: the elements of `s` that satisfy `p`, in their original order. */
  function Filter<T>(p: T -> bool, s: seq<T>): (r: seq<T>)
    ensures |r| <= |s|
    ensures forall k :: 0 <= k < |r| ==> p(r[k])
  {
    if s == [] then []
    else Filter(p, s[..|s| - 1]) + (if p(s[|s| - 1]) then [s[|s| - 1]] else [])
  }

  /** The comprehension keeps exactly the elements that satisfy `p`. */
  lemma {:induction false} FilterMembers<T>(p: T -> bool, s: seq<T>)
    ensures forall x :: x in Filter(p, s) <==> x in s && p(x)
  {
    if s != [] {
      var init, last := s[..|s| - 1], s[|s| - 1];
      FilterMembers(p, init);
      assert s == init + [last];
    }
  }

  /** The positions `i` of `s` with `p(s[i])`, in increasing order. */
  function IndicesWhere<T>(p: T -> bool, s: seq<T>): (r: seq<nat>)
    ensures forall k :: 0 <= k < |r| ==> r[k] < |s| && p(s[r[k]])
    ensures forall k, l :: 0 <= k < l < |r| ==> r[k] < r[l]
    ensures forall i :: 0 <= i < |s| && p(s[i]) ==> i in r
  {
    if s == [] then []
    else
      var init := s[..|s| - 1];
      IndicesWhere(p, init) + (if p(s[|s| - 1]) then [|s| - 1] else [])
  }

  lemma {:induction false} FilterConcat<T>(p: T -> bool, a: seq<T>, b: seq<T>)
    ensures Filter(p, a + b) == Filter(p, a) + Filter(p, b)
  {
    if b == [] {
      assert a + b == a;
    } else {
      var init := b[..|b| - 1];
      assert (a + b)[..|a + b| - 1] == a + init;
      FilterConcat(p, a, init);
    }
  }

  /** When no element satisfies `p`, the comprehension is empty; when all do, it is the input. */
  lemma {:induction false} FilterNoneOrAll<T>(p: T -> bool, s: seq<T>)
    ensures (forall k :: 0 <= k < |s| ==> !p(s[k])) ==> Filter(p, s) == []
    ensures (forall k :: 0 <= k < |s| ==> p(s[k])) ==> Filter(p, s) == s
  {
    if s != [] {
      var init := s[..|s| - 1];
      FilterNoneOrAll(p, init);
      assert s == init + [s[|s| - 1]];
    }
  }

  /** Splitting by a predicate and its complement loses and duplicates nothing. */
  lemma {:induction false} FilterSplit<T>(p: T -> bool, q: T -> bool, s: seq<T>)
    requires forall x :: q(x) == !p(x)
    ensures multiset(Filter(p, s)) + multiset(Filter(q, s)) == multiset(s)
    ensures |Filter(p, s)| + |Filter(q, s)| == |s|
  {
    if s != [] {
      var init, last := s[..|s| - 1], s[|s| - 1];
      FilterSplit(p, q, init);
      assert s == init + [last];
      assert multiset(s) == multiset(init) + multiset{last};
      if p(last) {
        assert !q(last);
        assert Filter(p, s) == Filter(p, init) + [last];
        assert Filter(q, s) == Filter(q, init);
      } else {
        assert q(last);
        assert Filter(p, s) == Filter(p, init);
        assert Filter(q, s) == Filter(q, init) + [last];
      }
    }
  }
}
