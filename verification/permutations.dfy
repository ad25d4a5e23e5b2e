/** Index permutations of 0..n-1, as sequences. */
module Permutations {

  /** `s` lists every index of 0..|s|-1 exactly once. */
  ghost predicate IsPermutation(s: seq<int>) {
    && (forall k :: 0 <= k < |s| ==> 0 <= s[k] < |s|)
    && (forall i, j :: 0 <= i < j < |s| ==> s[i] != s[j])
  }

  /** The indices 0..n-1 as a set. */
  ghost function Below(n: nat): set<int> {
    if n == 0 then {} else Below(n - 1) + {n - 1}
  }

  /** The members of `Below(n)` are exactly 0..n-1. */
  lemma {:induction false} BelowMembers(n: nat, x: int)
    ensures x in Below(n) <==> 0 <= x < n
  {
    if n > 0 {
      BelowMembers(n - 1, x);
    }
  }

  /** There are n indices below n. */
  lemma {:induction false} BelowSize(n: nat)
    ensures |Below(n)| == n
  {
    if n > 0 {
      BelowSize(n - 1);
      BelowMembers(n - 1, n - 1);
    }
  }

  /** The entries of the first m positions of s, as a set. */
  ghost function Image(s: seq<int>, m: nat): (r: set<int>)
    requires m <= |s|
    ensures forall x :: x in r <==> exists k :: 0 <= k < m && s[k] == x
  {
    set k | 0 <= k < m :: s[k]
  }

  /** Distinct entries make an image as large as the prefix. */
  lemma {:induction false} ImageSize(s: seq<int>, m: nat)
    requires m <= |s|
    requires forall i, j :: 0 <= i < j < |s| ==> s[i] != s[j]
    ensures |Image(s, m)| == m
  {
    if m > 0 {
      ImageSize(s, m - 1);
      assert Image(s, m) == Image(s, m - 1) + {s[m - 1]};
      assert s[m - 1] !in Image(s, m - 1);
    }
  }

  /** A subset as large as its superset is the superset. */
  lemma SubsetSameSize(a: set<int>, b: set<int>)
    requires a <= b && |a| == |b|
    ensures a == b
  {
    assert b == a + (b - a);
    assert |b - a| == 0;
    assert b <= a;
  }

  /** Pigeonhole: a permutation of 0..n-1 lists every index of 0..n-1. */
  lemma Covers(s: seq<int>, x: int)
    requires IsPermutation(s) && 0 <= x < |s|
    ensures exists k :: 0 <= k < |s| && s[k] == x
  {
    ImageSize(s, |s|);
    BelowSize(|s|);
    forall y | y in Image(s, |s|)
      ensures y in Below(|s|)
    {
      BelowMembers(|s|, y);
    }
    BelowMembers(|s|, x);
    SubsetSameSize(Image(s, |s|), Below(|s|));
    assert x in Image(s, |s|);
  }

  /** `order[ks[j]]` for every j: `order` read through the positions `ks`. */
  function MapThrough(order: seq<int>, ks: seq<int>): (r: seq<int>)
    requires forall j :: 0 <= j < |ks| ==> 0 <= ks[j] < |order|
    ensures |r| == |ks|
  {
    seq(|ks|, j requires 0 <= j < |ks| => order[ks[j]])
  }
}
