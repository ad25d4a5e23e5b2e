/** The filtering step of the derivative rewrite: after a pattern lookup has
    replaced each coordinate by a nonzero index or -1, keep the matched
    positions, in order, as (nonzero, row, col) triplets. */
module Filter {

  /** The positions p < k at which the lookup matched (found[p] != -1),
      collected left to right. */
  function KeptBelow(found: seq<int>, k: nat): seq<int>
    requires k <= |found|
  {
    if k == 0 then []
    else KeptBelow(found, k - 1) + (if found[k - 1] != -1 then [k - 1] else [])
  }

  /** The collected positions are exactly the matched positions below k,
      strictly ascending. */
  lemma {:induction false} KeptBelowFacts(found: seq<int>, k: nat)
    requires k <= |found|
    ensures |KeptBelow(found, k)| <= k
    ensures forall i :: 0 <= i < |KeptBelow(found, k)| ==>
              0 <= KeptBelow(found, k)[i] < k && found[KeptBelow(found, k)[i]] != -1
    ensures forall i, j :: 0 <= i < j < |KeptBelow(found, k)| ==> KeptBelow(found, k)[i] < KeptBelow(found, k)[j]
    ensures forall p :: 0 <= p < k && found[p] != -1 ==> p in KeptBelow(found, k)
  {
    if k > 0 {
      KeptBelowFacts(found, k - 1);
      var prev := KeptBelow(found, k - 1);
      assert KeptBelow(found, k) == prev + (if found[k - 1] != -1 then [k - 1] else []);
      forall p | 0 <= p < k && found[p] != -1
        ensures p in KeptBelow(found, k)
      {
        if p < k - 1 {
          assert p in prev;
        }
      }
    }
  }

  /** The positions, ascending, at which the lookup matched. */
  function Kept(found: seq<int>): (ks: seq<int>)
    ensures |ks| <= |found|
    ensures forall i :: 0 <= i < |ks| ==> 0 <= ks[i] < |found| && found[ks[i]] != -1
    ensures forall i, j :: 0 <= i < j < |ks| ==> ks[i] < ks[j]
    ensures forall p :: 0 <= p < |found| && found[p] != -1 ==> p in ks
  {
    KeptBelowFacts(found, |found|);
    KeptBelow(found, |found|)
  }

  /** The filtering loop: walk the positions in order and, wherever the lookup
      matched, append the matched nonzero and the position's row and column. */
  method FilterTriplets(found: seq<int>, rowAt: seq<int>, colAt: seq<int>)
    returns (inz: seq<int>, rows: seq<int>, cols: seq<int>)
    requires |rowAt| == |found| && |colAt| == |found|
    ensures |inz| == |Kept(found)| && |rows| == |inz| && |cols| == |inz|
    ensures forall i :: 0 <= i < |inz| ==> inz[i] == found[Kept(found)[i]] && inz[i] != -1
    ensures forall i :: 0 <= i < |inz| ==> rows[i] == rowAt[Kept(found)[i]] && cols[i] == colAt[Kept(found)[i]]
  {
    inz, rows, cols := [], [], [];
    ghost var ks: seq<int> := [];
    var k := 0;
    while k < |found|
      invariant 0 <= k <= |found|
      invariant ks == KeptBelow(found, k)
      invariant |inz| == |ks| && |rows| == |ks| && |cols| == |ks|
      invariant forall i :: 0 <= i < |ks| ==> 0 <= ks[i] < k && found[ks[i]] != -1
      invariant forall i :: 0 <= i < |ks| ==> inz[i] == found[ks[i]] && rows[i] == rowAt[ks[i]] && cols[i] == colAt[ks[i]]
    {
      if found[k] != -1 {
        inz, rows, cols := inz + [found[k]], rows + [rowAt[k]], cols + [colAt[k]];
        ks := ks + [k];
      }
      k := k + 1;
    }
  }
}
