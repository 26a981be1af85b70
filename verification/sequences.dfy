/** Order-preserving selection from a sequence. */
module Sequences {

  /** `xs` is obtained from `ys` by deleting elements, keeping the rest in order. */
  predicate IsSubsequence<T(==)>(xs: seq<T>, ys: seq<T>)
    decreases |ys|
  {
    if |ys| == 0 then |xs| == 0
    else (|xs| > 0 && xs[0] == ys[0] && IsSubsequence(xs[1..], ys[1..]))
         || IsSubsequence(xs, ys[1..])
  }

  /** Every ordered pair of positions of `s` is related by `rel`. */
  ghost predicate Pairwise<T>(rel: (T, T) -> bool, s: seq<T>) {
    forall i, j :: 0 <= i < j < |s| ==> rel(s[i], s[j])
  }

  /** Moving one element across the seam of a concatenation. */
  lemma AppendShift<T>(a: seq<T>, x: T, b: seq<T>)
    ensures a + ([x] + b) == (a + [x]) + b
  {
  }

  lemma {:induction false} EmptyIsSubsequence<T>(ys: seq<T>)
    ensures IsSubsequence([], ys)
    decreases |ys|
  {
    if |ys| > 0 {
      EmptyIsSubsequence(ys[1..]);
    }
  }

  lemma {:induction false} SubsequenceMembers<T>(xs: seq<T>, ys: seq<T>)
    requires IsSubsequence(xs, ys)
    ensures forall x :: x in xs ==> x in ys
    decreases |ys|
  {
    if |ys| > 0 {
      if |xs| > 0 && xs[0] == ys[0] && IsSubsequence(xs[1..], ys[1..]) {
        SubsequenceMembers(xs[1..], ys[1..]);
        forall x | x in xs ensures x in ys {
          if x != xs[0] {
            assert x in xs[1..];
          }
        }
      } else {
        SubsequenceMembers(xs, ys[1..]);
      }
    }
  }

  /** A relation that holds between every earlier and later element of `ys`
      holds in the same way in every subsequence of `ys`. */
  lemma {:induction false} SubsequencePairwise<T>(rel: (T, T) -> bool, xs: seq<T>, ys: seq<T>)
    requires IsSubsequence(xs, ys)
    requires Pairwise(rel, ys)
    ensures Pairwise(rel, xs)
    decreases |ys|
  {
    if |ys| > 0 {
      assert Pairwise(rel, ys[1..]) by {
        forall i, j | 0 <= i < j < |ys[1..]| ensures rel(ys[1..][i], ys[1..][j]) {
          assert ys[1..][i] == ys[i + 1] && ys[1..][j] == ys[j + 1];
        }
      }
      if |xs| > 0 && xs[0] == ys[0] && IsSubsequence(xs[1..], ys[1..]) {
        SubsequencePairwise(rel, xs[1..], ys[1..]);
        SubsequenceMembers(xs[1..], ys[1..]);
        forall i, j | 0 <= i < j < |xs| ensures rel(xs[i], xs[j]) {
          if i == 0 {
            assert xs[j] == xs[1..][j - 1];
            assert xs[j] in ys[1..];
            var k :| 0 <= k < |ys[1..]| && ys[1..][k] == xs[j];
            assert ys[k + 1] == xs[j];
          } else {
            assert xs[i] == xs[1..][i - 1] && xs[j] == xs[1..][j - 1];
          }
        }
      } else {
        SubsequencePairwise(rel, xs, ys[1..]);
      }
    }
  }
}
