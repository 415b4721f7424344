/** Generic facts about sequences used by the differ and the roster. */
module Sequences {

  /** No element occurs twice. */
  ghost predicate Distinct<T>(s: seq<T>)
  {
    forall i, j :: 0 <= i < j < |s| ==> s[i] != s[j]
  }

  lemma AppendAssociative<T>(a: seq<T>, b: seq<T>, c: seq<T>)
    ensures a + (b + c) == a + b + c
  {
  }

  /** `a` can be obtained from `b` by deleting elements, keeping the order of the rest. */
  ghost predicate IsSubsequence<T>(a: seq<T>, b: seq<T>)
    decreases |b|
  {
    if b == [] then a == []
    else (a != [] && a[0] == b[0] && IsSubsequence(a[1..], b[1..])) || IsSubsequence(a, b[1..])
  }

  lemma {:induction false} SubsequenceOfItself<T>(s: seq<T>)
    ensures IsSubsequence(s, s)
  {
    if s != [] {
      SubsequenceOfItself(s[1..]);
    }
  }

  /** Keeping the head of `b` on top of a subsequence of its tail. */
  lemma SubsequenceCons<T>(x: T, a: seq<T>, b: seq<T>)
    requires IsSubsequence(a, b)
    ensures IsSubsequence([x] + a, [x] + b)
  {
    assert ([x] + a)[1..] == a;
    assert ([x] + b)[1..] == b;
  }

  /** A subsequence of `b` with one element deleted is a subsequence of `b`. */
  lemma {:induction false} SubsequenceOfRemoval<T>(a: seq<T>, b: seq<T>, j: nat)
    requires j < |b| && IsSubsequence(a, b[..j] + b[j + 1..])
    ensures IsSubsequence(a, b)
  {
    var c := b[..j] + b[j + 1..];
    if j == 0 {
      assert c == b[1..];
    } else {
      assert c[0] == b[0];
      assert c[1..] == b[1..][..j - 1] + b[1..][j..];
      if a != [] && a[0] == c[0] && IsSubsequence(a[1..], c[1..]) {
        SubsequenceOfRemoval(a[1..], b[1..], j - 1);
      } else {
        SubsequenceOfRemoval(a, b[1..], j - 1);
      }
    }
  }

  /** Every element of a subsequence is an element of the whole, at least as often. */
  lemma {:induction false} SubsequenceElements<T>(a: seq<T>, b: seq<T>)
    requires IsSubsequence(a, b)
    ensures multiset(a) <= multiset(b)
    decreases |b|
  {
    if b != [] {
      assert b == [b[0]] + b[1..];
      if a != [] && a[0] == b[0] && IsSubsequence(a[1..], b[1..]) {
        SubsequenceElements(a[1..], b[1..]);
        assert a == [a[0]] + a[1..];
      } else {
        SubsequenceElements(a, b[1..]);
      }
    }
  }

  /** Deleting the element at `j` removes exactly one occurrence of it. */
  lemma MultisetOfRemoval<T>(s: seq<T>, j: nat)
    requires j < |s|
    ensures multiset(s[..j] + s[j + 1..]) == multiset(s) - multiset{s[j]}
  {
    assert s == s[..j] + [s[j]] + s[j + 1..];
  }

  /** In a sequence without repetitions every value occurs at most once. */
  lemma {:induction false} DistinctOccursOnce<T>(s: seq<T>, x: T)
    requires Distinct(s)
    ensures multiset(s)[x] <= 1
  {
    if s != [] {
      assert s == [s[0]] + s[1..];
      DistinctOccursOnce(s[1..], x);
      if s[0] == x {
        assert x !in s[1..];
      }
    }
  }
}
