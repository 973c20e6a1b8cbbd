/** Sequence helpers shared by the models: filtering, first-occurrence
    deduplication, subsequences and sums. */
module Seqs {

  /** The elements of `s` that satisfy `p`, in their order in `s`. */
  function Filter<T>(s: seq<T>, p: T -> bool): (r: seq<T>)
    ensures |r| <= |s|
    ensures forall i :: 0 <= i < |r| ==> p(r[i])
  {
    if s == [] then []
    else Filter(s[..|s| - 1], p) + (if p(s[|s| - 1]) then [s[|s| - 1]] else [])
  }

  /** Filter keeps exactly the elements that satisfy `p`. */
  lemma {:induction false} FilterMembers<T>(s: seq<T>, p: T -> bool)
    ensures forall x :: x in Filter(s, p) <==> x in s && p(x)
  {
    if s != [] {
      var init := s[..|s| - 1];
      FilterMembers(init, p);
      assert s == init + [s[|s| - 1]];
    }
  }

  lemma {:induction false} FilterAppend<T>(a: seq<T>, b: seq<T>, p: T -> bool)
    ensures Filter(a + b, p) == Filter(a, p) + Filter(b, p)
    decreases |b|
  {
    if b == [] {
      assert a + b == a;
    } else {
      assert (a + b)[..|a + b| - 1] == a + b[..|b| - 1];
      FilterAppend(a, b[..|b| - 1], p);
    }
  }

  /** `r` can be obtained from `s` by deleting elements. */
  predicate IsSubsequence<T(==)>(r: seq<T>, s: seq<T>)
    decreases |s|
  {
    if r == [] then true
    else if s == [] then false
    else if r[|r| - 1] == s[|s| - 1] then IsSubsequence(r[..|r| - 1], s[..|s| - 1])
    else IsSubsequence(r, s[..|s| - 1])
  }

  lemma {:induction false} FilterIsSubsequence<T>(s: seq<T>, p: T -> bool)
    ensures IsSubsequence(Filter(s, p), s)
    decreases |s|
  {
    if s != [] {
      var init := s[..|s| - 1];
      FilterIsSubsequence(init, p);
      if p(s[|s| - 1]) {
        var r := Filter(s, p);
        assert r == Filter(init, p) + [s[|s| - 1]];
        assert r[|r| - 1] == s[|s| - 1] && r[..|r| - 1] == Filter(init, p);
        assert IsSubsequence(r[..|r| - 1], s[..|s| - 1]);
      } else {
        assert Filter(s, p) == Filter(init, p) + [];
        assert Filter(init, p) + [] == Filter(init, p);
        SubsequenceOfInit(Filter(init, p), s);
      }
    }
  }

  /** A subsequence of all but the last element of `s` is a subsequence of `s`. */
  lemma {:induction false} SubsequenceOfInit<T>(r: seq<T>, s: seq<T>)
    requires s != [] && IsSubsequence(r, s[..|s| - 1])
    ensures IsSubsequence(r, s)
    decreases |r| + |s|, 1
  {
    if r != [] && r[|r| - 1] == s[|s| - 1] {
      SubsequenceDropLast(r, s[..|s| - 1]);
    }
  }

  lemma {:induction false} SubsequenceDropLast<T>(r: seq<T>, s: seq<T>)
    requires r != [] && IsSubsequence(r, s)
    ensures IsSubsequence(r[..|r| - 1], s)
    decreases |r| + |s|, 0
  {
    if r[|r| - 1] == s[|s| - 1] {
      SubsequenceOfInit(r[..|r| - 1], s);
    } else {
      SubsequenceDropLast(r, s[..|s| - 1]);
      SubsequenceOfInit(r[..|r| - 1], s);
    }
  }

  predicate NoDuplicates<T(==)>(s: seq<T>) {
    forall i, j :: 0 <= i < j < |s| ==> s[i] != s[j]
  }

  /** The first occurrence of every element of `s`, in the order of `s`:
      the specification of the order-preserving dedup loops. */
  function FirstOccurrences<T(==)>(s: seq<T>): (r: seq<T>)
    ensures forall i :: 0 <= i < |r| ==> r[i] in s
    ensures NoDuplicates(r)
    ensures |r| <= |s|
  {
    if s == [] then []
    else
      var u := FirstOccurrences(s[..|s| - 1]);
      if s[|s| - 1] in u then u else u + [s[|s| - 1]]
  }

  /** Deduplication drops no element and adds none. */
  lemma {:induction false} FirstOccurrencesMembers<T>(s: seq<T>)
    ensures forall x :: x in FirstOccurrences(s) <==> x in s
  {
    if s != [] {
      var init := s[..|s| - 1];
      FirstOccurrencesMembers(init);
      assert s == init + [s[|s| - 1]];
    }
  }

  /** Index of the first occurrence of `x` in `s`. */
  function FirstIndex<T(==)>(s: seq<T>, x: T): (k: nat)
    requires x in s
    ensures k < |s| && s[k] == x && x !in s[..k]
  {
    if x in s[..|s| - 1] then FirstIndex(s[..|s| - 1], x) else |s| - 1
  }

  /** The elements of FirstOccurrences(s) appear in the order in which they
      first occur in `s`. */
  lemma {:induction false} FirstOccurrencesOrder<T>(s: seq<T>, i: nat, j: nat)
    requires i < j < |FirstOccurrences(s)|
    ensures FirstIndex(s, FirstOccurrences(s)[i]) < FirstIndex(s, FirstOccurrences(s)[j])
    decreases |s|
  {
    var init := s[..|s| - 1];
    var u := FirstOccurrences(init);
    var r := FirstOccurrences(s);
    assert init + [s[|s| - 1]] == s;
    if s[|s| - 1] in u {
      FirstIndexOfInit(s, r[i]);
      FirstIndexOfInit(s, r[j]);
      FirstOccurrencesOrder(init, i, j);
    } else if j < |u| {
      FirstIndexOfInit(s, r[i]);
      FirstIndexOfInit(s, r[j]);
      FirstOccurrencesOrder(init, i, j);
    } else {
      FirstOccurrencesMembers(init);
      assert r[i] == u[i] && r[i] in init;
      FirstIndexOfInit(s, r[i]);
    }
  }

  lemma FirstIndexOfInit<T>(s: seq<T>, x: T)
    requires s != [] && x in s[..|s| - 1]
    ensures FirstIndex(s, x) == FirstIndex(s[..|s| - 1], x)
  {
  }

  /** A sequence without duplicates is its own first-occurrence list. */
  lemma {:induction false} FirstOccurrencesOfDistinct<T>(s: seq<T>)
    requires NoDuplicates(s)
    ensures FirstOccurrences(s) == s
    decreases |s|
  {
    if s != [] {
      var init := s[..|s| - 1];
      FirstOccurrencesOfDistinct(init);
      forall k | 0 <= k < |init| ensures init[k] != s[|s| - 1] {
        assert init[k] == s[k];
      }
      assert init + [s[|s| - 1]] == s;
    }
  }

  /** Deduplicating twice is deduplicating once. */
  lemma FirstOccurrencesIdempotent<T>(s: seq<T>)
    ensures FirstOccurrences(FirstOccurrences(s)) == FirstOccurrences(s)
  {
    FirstOccurrencesOfDistinct(FirstOccurrences(s));
  }

  /** Sum of `f` over the elements of `s`. */
  function SumOf<T>(s: seq<T>, f: T -> int): int {
    if s == [] then 0 else SumOf(s[..|s| - 1], f) + f(s[|s| - 1])
  }

  lemma {:induction false} SumOfAppend<T>(a: seq<T>, b: seq<T>, f: T -> int)
    ensures SumOf(a + b, f) == SumOf(a, f) + SumOf(b, f)
    decreases |b|
  {
    if b == [] {
      assert a + b == a;
    } else {
      assert (a + b)[..|a + b| - 1] == a + b[..|b| - 1];
      SumOfAppend(a, b[..|b| - 1], f);
    }
  }

  /** Concatenation of the sequences `f(x)` over the elements `x` of `s`. */
  function FlatMap<T, U>(s: seq<T>, f: T -> seq<U>): seq<U> {
    if s == [] then [] else FlatMap(s[..|s| - 1], f) + f(s[|s| - 1])
  }

  lemma {:induction false} FlatMapAppend<T, U>(a: seq<T>, b: seq<T>, f: T -> seq<U>)
    ensures FlatMap(a + b, f) == FlatMap(a, f) + FlatMap(b, f)
    decreases |b|
  {
    if b == [] {
      assert a + b == a;
    } else {
      assert (a + b)[..|a + b| - 1] == a + b[..|b| - 1];
      FlatMapAppend(a, b[..|b| - 1], f);
    }
  }

  /** Filtering commutes with reordering: permuted inputs give permuted outputs. */
  lemma {:induction false} FilterPermutation<T>(a: seq<T>, b: seq<T>, p: T -> bool)
    requires multiset(a) == multiset(b)
    ensures multiset(Filter(a, p)) == multiset(Filter(b, p))
    decreases |a|
  {
    if a != [] {
      var k := RemoveAt(a, b);
      FilterPermutation(a[..|a| - 1], b[..k] + b[k + 1..], p);
      FilterSplit(b[..k], b[k], b[k + 1..], p);
      assert b == b[..k] + [b[k]] + b[k + 1..];
    }
  }

  lemma FilterSplit<T>(pre: seq<T>, x: T, post: seq<T>, p: T -> bool)
    ensures multiset(Filter(pre + [x] + post, p))
         == multiset(Filter(pre + post, p)) + multiset(if p(x) then [x] else [])
  {
    assert (pre + [x])[..|pre + [x]| - 1] == pre;
    FilterAppend(pre + [x], post, p);
    FilterAppend(pre, post, p);
  }

  /** Sums do not depend on the order of the summands. */
  lemma {:induction false} SumOfPermutation<T>(a: seq<T>, b: seq<T>, f: T -> int)
    requires multiset(a) == multiset(b)
    ensures SumOf(a, f) == SumOf(b, f)
    decreases |a|
  {
    if a != [] {
      var x := a[|a| - 1];
      var k := RemoveAt(a, b);
      var b' := b[..k] + b[k + 1..];
      SumOfPermutation(a[..|a| - 1], b', f);
      assert b == b[..k] + ([x] + b[k + 1..]);
      SumOfAppend(b[..k], [x] + b[k + 1..], f);
      SumOfAppend([x], b[k + 1..], f);
      SumOfAppend(b[..k], b[k + 1..], f);
      assert SumOf([x], f) == SumOf([], f) + f(x);
    }
  }

  /** The position in `b` of the last element of `a`, where `b` is a
      permutation of `a`; removing it leaves a permutation of the rest of `a`. */
  lemma RemoveAt<T>(a: seq<T>, b: seq<T>) returns (k: nat)
    requires a != [] && multiset(a) == multiset(b)
    ensures k < |b| && b[k] == a[|a| - 1]
    ensures multiset(a[..|a| - 1]) == multiset(b[..k] + b[k + 1..])
  {
    var x := a[|a| - 1];
    assert a == a[..|a| - 1] + [x];
    assert multiset(a) == multiset(a[..|a| - 1]) + multiset{x};
    assert x in multiset(b);
    k :| 0 <= k < |b| && b[k] == x;
    assert b == b[..k] + [x] + b[k + 1..];
    assert multiset(b) == multiset(b[..k]) + multiset{x} + multiset(b[k + 1..]);
    assert multiset(b[..k] + b[k + 1..]) == multiset(b[..k]) + multiset(b[k + 1..]);
    assert multiset(a[..|a| - 1]) == multiset(a) - multiset{x};
  }

  function Map<T, U>(s: seq<T>, f: T -> U): (r: seq<U>)
    ensures |r| == |s| && forall i :: 0 <= i < |s| ==> r[i] == f(s[i])
  {
    seq(|s|, i requires 0 <= i < |s| => f(s[i]))
  }

  function Min(a: int, b: int): int { if a <= b then a else b }

  /** `xs` and `ys` have the same length and `p` holds position by position. */
  predicate Pairwise<A, B>(xs: seq<A>, ys: seq<B>, p: (A, B) -> bool) {
    |xs| == |ys| && forall k :: 0 <= k < |xs| ==> p(xs[k], ys[k])
  }

  lemma PairwiseSnoc<A, B>(xs: seq<A>, ys: seq<B>, x: A, y: B, p: (A, B) -> bool)
    requires Pairwise(xs, ys, p) && p(x, y)
    ensures Pairwise(xs + [x], ys + [y], p)
  {
    forall k | 0 <= k < |xs| + 1 ensures p((xs + [x])[k], (ys + [y])[k]) {
      if k < |xs| {
        assert (xs + [x])[k] == xs[k] && (ys + [y])[k] == ys[k];
      }
    }
  }
}
