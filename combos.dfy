/** k-element combinations of a sequence, in the order Python's itertools.combinations
    yields them. Each combination is kept as the multiset of its elements: a sorted tuple,
    the key the source builds with `tuple(sorted(combo))`, is exactly a canonical form of
    that multiset. */
module Combos {

  /** Prefix `x` to every combination in `cs`. */
  function AddToEach<T>(x: T, cs: seq<multiset<T>>): (r: seq<multiset<T>>)
    ensures |r| == |cs|
    ensures forall i :: 0 <= i < |r| ==> r[i] == multiset{x} + cs[i]
  {
    if cs == [] then [] else [multiset{x} + cs[0]] + AddToEach(x, cs[1..])
  }

  /** The k-combinations of `s`: those containing `s[0]` first, then those that do not. */
  function Combinations<T>(s: seq<T>, k: nat): seq<multiset<T>>
    decreases |s|
  {
    if k == 0 then [multiset{}]
    else if s == [] then []
    else AddToEach(s[0], Combinations(s[1..], k - 1)) + Combinations(s[1..], k)
  }

  /** Every combination has k elements drawn from `s`. */
  lemma {:induction false} CombinationShape<T>(s: seq<T>, k: nat)
    ensures forall i :: 0 <= i < |Combinations(s, k)| ==>
      |Combinations(s, k)[i]| == k && Combinations(s, k)[i] <= multiset(s)
    decreases |s|
  {
    if k > 0 && s != [] {
      var tail := s[1..];
      CombinationShape(tail, k - 1);
      CombinationShape(tail, k);
      assert s == [s[0]] + tail;
      ShapeStep(s[0], tail, k, Combinations(tail, k - 1), Combinations(tail, k));
    }
  }

  /** The shape of `AddToEach(x, with) + without` from the shapes of its two parts. */
  lemma ShapeStep<T>(x: T, tail: seq<T>, k: nat, with: seq<multiset<T>>, without: seq<multiset<T>>)
    requires k > 0
    requires forall i :: 0 <= i < |with| ==> |with[i]| == k - 1 && with[i] <= multiset(tail)
    requires forall i :: 0 <= i < |without| ==> |without[i]| == k && without[i] <= multiset(tail)
    ensures forall i :: 0 <= i < |AddToEach(x, with) + without| ==>
      |(AddToEach(x, with) + without)[i]| == k && (AddToEach(x, with) + without)[i] <= multiset([x] + tail)
  {
    var m := multiset(tail);
    assert multiset([x] + tail) == multiset{x} + m;
    AddToEachShape(x, with, k - 1, m);
    forall i | 0 <= i < |without| ensures without[i] <= multiset{x} + m {
      SubGrow(without[i], x, m);
    }
    ConcatShape(AddToEach(x, with), without, k, multiset{x} + m);
  }

  lemma AddToEachShape<T>(x: T, cs: seq<multiset<T>>, k: nat, m: multiset<T>)
    requires forall i :: 0 <= i < |cs| ==> |cs[i]| == k && cs[i] <= m
    ensures forall i :: 0 <= i < |cs| ==> |AddToEach(x, cs)[i]| == k + 1 && AddToEach(x, cs)[i] <= multiset{x} + m
  {
    forall i | 0 <= i < |cs| ensures AddToEach(x, cs)[i] <= multiset{x} + m {
      AddKeepsSub(x, cs[i], m);
    }
  }

  lemma ConcatShape<T>(a: seq<multiset<T>>, b: seq<multiset<T>>, k: nat, m: multiset<T>)
    requires forall i :: 0 <= i < |a| ==> |a[i]| == k && a[i] <= m
    requires forall i :: 0 <= i < |b| ==> |b[i]| == k && b[i] <= m
    ensures forall i :: 0 <= i < |a + b| ==> |(a + b)[i]| == k && (a + b)[i] <= m
  {
  }

  lemma AddKeepsSub<T>(x: T, m: multiset<T>, n: multiset<T>)
    requires m <= n
    ensures multiset{x} + m <= multiset{x} + n
  {
  }

  lemma SubGrow<T>(m: multiset<T>, x: T, n: multiset<T>)
    requires m <= n
    ensures m <= multiset{x} + n
  {
  }

  /** Number of k-subsets of an n-set. */
  function Binomial(n: nat, k: nat): nat
  {
    if k == 0 then 1 else if n == 0 then 0 else Binomial(n - 1, k - 1) + Binomial(n - 1, k)
  }

  /** `combinations(s, k)` yields C(|s|, k) tuples; in particular none when k > |s|. */
  lemma {:induction false} CombinationCount<T>(s: seq<T>, k: nat)
    ensures |Combinations(s, k)| == Binomial(|s|, k)
    decreases |s|
  {
    if k > 0 && s != [] {
      CombinationCount(s[1..], k - 1);
      CombinationCount(s[1..], k);
    }
  }

  lemma {:induction false} BinomialAbove(n: nat, k: nat)
    requires k > n
    ensures Binomial(n, k) == 0
  {
    if n > 0 {
      BinomialAbove(n - 1, k - 1);
      BinomialAbove(n - 1, k);
    }
  }
}
