/** Taking one element out of a sequence. */
module Permutations {

  function Without<T>(xs: seq<T>, j: nat): seq<T>
    requires j < |xs|
  {
    xs[..j] + xs[j + 1..]
  }

  lemma WithoutAt<T>(xs: seq<T>, j: nat, k: nat)
    requires j < |xs| && k < |Without(xs, j)|
    ensures Without(xs, j)[k] == xs[if k < j then k else k + 1]
  {}

  lemma CutOut<T>(xs: seq<T>, j: nat)
    requires j < |xs|
    ensures xs == xs[..j] + [xs[j]] + xs[j + 1..]
  {}

  lemma WithoutMultiset<T>(xs: seq<T>, j: nat)
    requires j < |xs|
    ensures multiset(Without(xs, j)) == multiset(xs) - multiset{xs[j]}
  {
    CutOut(xs, j);
  }

  /** In a permutation, the last element of `xs` is somewhere in `ys`, and what is left is again
      a permutation. */
  lemma MatchLast<T>(xs: seq<T>, ys: seq<T>) returns (j: nat)
    requires xs != [] && multiset(xs) == multiset(ys)
    ensures j < |ys| && ys[j] == xs[|xs| - 1]
    ensures multiset(xs[..|xs| - 1]) == multiset(Without(ys, j))
  {
    var n := |xs| - 1;
    assert xs[n] in multiset(xs);
    j :| 0 <= j < |ys| && ys[j] == xs[n];
    WithoutMultiset(xs, n);
    WithoutMultiset(ys, j);
    assert Without(xs, n) == xs[..n];
  }
}
