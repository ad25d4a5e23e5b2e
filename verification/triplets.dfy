/** Building a compressed-row pattern from a list of (row, col) triplets: the
    nonzeros are stored row by row, columns ascending within a row, so the
    triplets are sorted by their row-major key. */
module Triplets {
  import opened Sparsity
  import opened Permutations
  import opened CountingSort

  /** Row-major key of position (r, c) in a matrix with `ncols` columns: the
      order in which compressed-row storage lists its nonzeros. */
  function RowMajor(r: int, c: int, ncols: nat): int { Linear(c, r, ncols) }

  /** An in-matrix position has a key in 0..nrows*ncols-1. */
  lemma RowMajorBound(r: int, c: int, nrows: nat, ncols: nat)
    requires 0 <= r < nrows && 0 <= c < ncols
    ensures 0 <= RowMajor(r, c, ncols) < nrows * ncols
  {
    MulStep(nrows - r, ncols);
    assert nrows * ncols == r * ncols + (nrows - r) * ncols;
    assert r * ncols >= 0;
  }

  /** Every triplet lies inside an nrows-by-ncols matrix. */
  ghost predicate InMatrix(rows: seq<int>, cols: seq<int>, nrows: nat, ncols: nat)
    requires |rows| == |cols|
  {
    forall k :: 0 <= k < |rows| ==> 0 <= rows[k] < nrows && 0 <= cols[k] < ncols
  }

  /** No position is listed twice. */
  ghost predicate DistinctPositions(rows: seq<int>, cols: seq<int>)
    requires |rows| == |cols|
  {
    forall i, j :: 0 <= i < j < |rows| ==> rows[i] != rows[j] || cols[i] != cols[j]
  }

  /** The pattern lists its nonzeros in strictly increasing row-major order:
      the canonical order of compressed-row storage. */
  ghost predicate Canonical(p: Pattern) {
    && p.Shaped()
    && forall i, j :: 0 <= i < j < p.Size() ==>
         RowMajor(p.row[i], p.col[i], p.ncols) < RowMajor(p.row[j], p.col[j], p.ncols)
  }

  /** The row-major key of every triplet. */
  function Keys(rows: seq<int>, cols: seq<int>, ncols: nat): (keys: seq<int>)
    requires |rows| == |cols|
    ensures |keys| == |rows|
  {
    seq(|rows|, k requires 0 <= k < |rows| => RowMajor(rows[k], cols[k], ncols))
  }

  /** Distinct in-matrix positions have distinct keys. */
  lemma KeysDistinct(rows: seq<int>, cols: seq<int>, nrows: nat, ncols: nat, i: int, j: int)
    requires |rows| == |cols| && InMatrix(rows, cols, nrows, ncols) && DistinctPositions(rows, cols)
    requires 0 <= i < j < |rows|
    ensures Keys(rows, cols, ncols)[i] != Keys(rows, cols, ncols)[j]
  {
    if Keys(rows, cols, ncols)[i] == Keys(rows, cols, ncols)[j] {
      LinearInjective(cols[i], rows[i], cols[j], rows[j], ncols);
      assert false;
    }
  }

  /** Pattern construction from triplets: the pattern lists the given
      positions in row-major order, and `perm` says which triplet each of
      its nonzeros came from. */
  method SortTriplets(nrows: nat, ncols: nat, rows: seq<int>, cols: seq<int>) returns (p: Pattern, perm: seq<int>)
    requires |rows| == |cols| && InMatrix(rows, cols, nrows, ncols) && DistinctPositions(rows, cols)
    ensures |perm| == |rows| && IsPermutation(perm)
    ensures p == Pattern(nrows, ncols, MapThrough(rows, perm), MapThrough(cols, perm))
    ensures Canonical(p)
  {
    var keys := Keys(rows, cols, ncols);
    forall k | 0 <= k < |keys|
      ensures 0 <= keys[k] < nrows * ncols
    {
      RowMajorBound(rows[k], cols[k], nrows, ncols);
    }
    perm := StableOrder(keys, nrows * ncols);
    p := Pattern(nrows, ncols, MapThrough(rows, perm), MapThrough(cols, perm));
    forall i, j | 0 <= i < j < p.Size()
      ensures RowMajor(p.row[i], p.col[i], p.ncols) < RowMajor(p.row[j], p.col[j], p.ncols)
    {
      if perm[i] < perm[j] {
        KeysDistinct(rows, cols, nrows, ncols, perm[i], perm[j]);
      } else {
        KeysDistinct(rows, cols, nrows, ncols, perm[j], perm[i]);
      }
    }
  }
}
