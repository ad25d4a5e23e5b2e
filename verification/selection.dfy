/** The two index kernels of the nonzero-selection node, over any element
    type: the gather (output k reads source a[k]) used by value and forward
    evaluation and by forward sparsity propagation, and the accumulate-and-
    clear scatter used by adjoint evaluation and backward sparsity
    propagation. Also the facts that tie them together. */
module Selection {

  /** Every entry of the table `a` is a valid index into a buffer of length `n`. */
  predicate InRange(a: seq<int>, n: int) {
    forall k :: 0 <= k < |a| ==> 0 <= a[k] < n
  }

  /** Reference definition of a gather: entry k is `src[a[k]]`. */
  function Gathered<T>(a: seq<int>, src: seq<T>): (r: seq<T>)
    requires InRange(a, |src|)
    ensures |r| == |a|
  {
    seq(|a|, k requires 0 <= k < |a| => src[a[k]])
  }

  /** Reference definition of what a scatter leaves in sensitivity slot `p`:
      starting from `init`, combine with `plus`, in ascending k < m, every
      seed entry `w[k]` whose target `a[k]` is `p`. */
  function FoldTargets<T>(plus: (T, T) -> T, a: seq<int>, w: seq<T>, p: int, m: nat, init: T): T
    requires m <= |a| && m <= |w|
  {
    if m == 0 then init
    else
      var acc := FoldTargets(plus, a, w, p, m - 1, init);
      if a[m - 1] == p then plus(acc, w[m - 1]) else acc
  }

  /** Numeric accumulation. */
  function Add(x: real, y: real): real { x + y }

  /** Sparsity accumulation: OR of dependency bits. */
  function Or(x: bool, y: bool): bool { x || y }

  /** The gather loop `dst[k] = src[a[k]]` for k < |a|, writing in place into
      `dst`; slots past the table are left alone. */
  method Gather<T>(a: seq<int>, src: seq<T>, dst: seq<T>) returns (dst': seq<T>)
    requires InRange(a, |src|) && |a| <= |dst|
    ensures |dst'| == |dst|
    ensures forall k :: 0 <= k < |a| ==> dst'[k] == src[a[k]]
    ensures forall k :: |a| <= k < |dst| ==> dst'[k] == dst[k]
  {
    dst' := dst;
    var k := 0;
    while k < |a|
      invariant 0 <= k <= |a| && |dst'| == |dst|
      invariant forall j :: 0 <= j < k ==> dst'[j] == src[a[j]]
      invariant forall j :: k <= j < |dst| ==> dst'[j] == dst[j]
    {
      dst' := dst'[k := src[a[k]]];
      k := k + 1;
    }
  }

  /** The scatter loop: for k = 0, 1, ..., `sens[a[k]] := plus(sens[a[k]], seed[k])`
      and then `seed[k] := zero`. Every seed entry the table covers is consumed,
      and each sensitivity slot receives, in ascending k, exactly the seeds that
      target it. */
  method AccumulateAndClear<T>(a: seq<int>, seed: seq<T>, sens: seq<T>, plus: (T, T) -> T, zero: T)
    returns (seed': seq<T>, sens': seq<T>)
    requires |a| <= |seed| && InRange(a, |sens|)
    ensures |seed'| == |seed| && |sens'| == |sens|
    ensures forall k :: 0 <= k < |a| ==> seed'[k] == zero
    ensures forall k :: |a| <= k < |seed| ==> seed'[k] == seed[k]
    ensures forall p :: 0 <= p < |sens| ==> sens'[p] == FoldTargets(plus, a, seed, p, |a|, sens[p])
  {
    seed', sens' := seed, sens;
    var k := 0;
    while k < |a|
      invariant 0 <= k <= |a| && |seed'| == |seed| && |sens'| == |sens|
      invariant forall j :: 0 <= j < k ==> seed'[j] == zero
      invariant forall j :: k <= j < |seed| ==> seed'[j] == seed[j]
      invariant forall p :: 0 <= p < |sens| ==> sens'[p] == FoldTargets(plus, a, seed, p, k, sens[p])
    {
      sens' := sens'[a[k] := plus(sens'[a[k]], seed'[k])];
      seed' := seed'[k := zero];
      k := k + 1;
    }
  }

  /** A slot that no table entry below m targets keeps its initial value. */
  lemma {:induction false} UntargetedUnchanged<T>(plus: (T, T) -> T, a: seq<int>, w: seq<T>, p: int, m: nat, init: T)
    requires m <= |a| && m <= |w|
    requires forall k :: 0 <= k < m ==> a[k] != p
    ensures FoldTargets(plus, a, w, p, m, init) == init
  {
    if m > 0 {
      UntargetedUnchanged(plus, a, w, p, m - 1, init);
    }
  }

  // ---------------------------------------------------------------------
  // Numeric scatter: the increment and the duality with the gather.

  /** Sum, in ascending k < m, of the seeds that target slot p. */
  function TargetSum(a: seq<int>, w: seq<real>, p: int, m: nat): real
    requires m <= |a| && m <= |w|
  {
    FoldTargets(Add, a, w, p, m, 0.0)
  }

  /** The increment the adjoint loop adds to a sensitivity buffer of length n. */
  function AdjointIncrement(a: seq<int>, w: seq<real>, n: nat): (r: seq<real>)
    requires |a| <= |w|
    ensures |r| == n
  {
    seq(n, p => TargetSum(a, w, p, |a|))
  }

  /** Accumulating onto `s` is adding the target sum to `s`: the numeric
      scatter leaves `sens[p] + TargetSum(...)` in each slot. */
  lemma {:induction false} FoldAddShift(a: seq<int>, w: seq<real>, p: int, m: nat, s: real)
    requires m <= |a| && m <= |w|
    ensures FoldTargets(Add, a, w, p, m, s) == s + TargetSum(a, w, p, m)
  {
    if m > 0 {
      FoldAddShift(a, w, p, m - 1, s);
    }
  }

  /** Inner product of the first m entries. */
  function DotUpTo(x: seq<real>, y: seq<real>, m: nat): real
    requires m <= |x| && m <= |y|
  {
    if m == 0 then 0.0 else DotUpTo(x, y, m - 1) + x[m - 1] * y[m - 1]
  }

  /** Inner product of two buffers of equal length. */
  function Dot(x: seq<real>, y: seq<real>): real
    requires |x| == |y|
  {
    DotUpTo(x, y, |x|)
  }

  /** Adding c to one slot of s adds c times the matching entry of u to the
      inner product. */
  lemma {:induction false} DotUpdate(s: seq<real>, u: seq<real>, q: int, c: real, m: nat)
    requires |s| == |u| && 0 <= q < |s| && m <= |s|
    ensures DotUpTo(s[q := s[q] + c], u, m) == DotUpTo(s, u, m) + (if q < m then c * u[q] else 0.0)
  {
    if m > 0 {
      DotUpdate(s, u, q, c, m - 1);
      if q == m - 1 {
        assert (s[q] + c) * u[q] == s[q] * u[q] + c * u[q];
      }
    }
  }

  /** The first m table entries contribute to the adjoint increment exactly
      what they contribute to the forward inner product. */
  lemma {:induction false} DualityUpTo(a: seq<int>, w: seq<real>, u: seq<real>, m: nat)
    requires |w| == |a| && InRange(a, |u|) && m <= |a|
    ensures DotUpTo(w, Gathered(a, u), m) == Dot(seq(|u|, p => TargetSum(a, w, p, m)), u)
  {
    var s := seq(|u|, p => TargetSum(a, w, p, m));
    if m == 0 {
      ZeroDot(s, u, |u|);
    } else {
      DualityUpTo(a, w, u, m - 1);
      var s0 := seq(|u|, p => TargetSum(a, w, p, m - 1));
      var q := a[m - 1];
      assert s == s0[q := s0[q] + w[m - 1]];
      DotUpdate(s0, u, q, w[m - 1], |u|);
    }
  }

  /** The inner product with an all-zero buffer is zero. */
  lemma {:induction false} ZeroDot(s: seq<real>, u: seq<real>, m: nat)
    requires |s| == |u| && m <= |s|
    requires forall p :: 0 <= p < |s| ==> s[p] == 0.0
    ensures DotUpTo(s, u, m) == 0.0
  {
    if m > 0 {
      ZeroDot(s, u, m - 1);
    }
  }

  /** Adjoint-forward duality: the adjoint increment is the exact transpose
      of the gather, duplicate targets being summed:
      <w, gather(u)> == <adjointIncrement(w), u>. */
  lemma Duality(a: seq<int>, w: seq<real>, u: seq<real>)
    requires |w| == |a| && InRange(a, |u|)
    ensures Dot(w, Gathered(a, u)) == Dot(AdjointIncrement(a, w, |u|), u)
  {
    DualityUpTo(a, w, u, |a|);
  }

  // ---------------------------------------------------------------------
  // Dependency bits: the boolean shadow of the numeric scatter.

  /** A bit is set in what backward propagation ORs into slot p, starting
      from `s`, iff it was set already or some output bit whose table entry
      targets p is set. */
  lemma {:induction false} BackwardBitIff(a: seq<int>, w: seq<bool>, p: int, m: nat, s: bool)
    requires m <= |a| && m <= |w|
    ensures FoldTargets(Or, a, w, p, m, s) <==> s || exists k :: 0 <= k < m && a[k] == p && w[k]
  {
    if m > 0 {
      BackwardBitIff(a, w, p, m - 1, s);
      if a[m - 1] == p && w[m - 1] {
        assert 0 <= m - 1 < m && a[m - 1] == p && w[m - 1];
      }
    }
  }

  /** A nonzero target sum needs a nonzero seed targeting the slot. */
  lemma {:induction false} TargetSumSupport(a: seq<int>, w: seq<real>, p: int, m: nat)
    requires m <= |a| && m <= |w|
    requires TargetSum(a, w, p, m) != 0.0
    ensures exists k :: 0 <= k < m && a[k] == p && w[k] != 0.0
  {
    if m > 0 && TargetSum(a, w, p, m - 1) != 0.0 {
      TargetSumSupport(a, w, p, m - 1);
    }
  }

  /** Backward sparsity propagation over-approximates the adjoint pass: when
      the output bits mark every nonzero adjoint seed, every slot the adjoint
      pass makes nonzero is marked too. */
  lemma AdjointMarked(a: seq<int>, w: seq<real>, bits: seq<bool>, p: int)
    requires |w| == |a| && |bits| == |a|
    requires forall k :: 0 <= k < |a| && w[k] != 0.0 ==> bits[k]
    requires TargetSum(a, w, p, |a|) != 0.0
    ensures FoldTargets(Or, a, bits, p, |a|, false)
  {
    TargetSumSupport(a, w, p, |a|);
    BackwardBitIff(a, bits, p, |a|, false);
  }

  /** Forward sparsity propagation over-approximates the forward pass: when
      the input bits mark every nonzero input entry, every nonzero output
      entry is marked. */
  lemma ForwardMarked(a: seq<int>, u: seq<real>, bits: seq<bool>, k: int)
    requires |bits| == |u| && InRange(a, |u|) && 0 <= k < |a|
    requires forall i :: 0 <= i < |u| && u[i] != 0.0 ==> bits[i]
    requires Gathered(a, u)[k] != 0.0
    ensures Gathered(a, bits)[k]
  {
  }
}
