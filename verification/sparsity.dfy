/** Sparsity patterns: which (row, col) positions of a matrix are structurally
    nonzero, each carrying a dense 0-based nonzero index. */
module Sparsity {

  /** Nonzero `k` sits at row `row[k]` and column `col[k]`. */
  datatype Pattern = Pattern(nrows: nat, ncols: nat, row: seq<int>, col: seq<int>)
  {
    /** Number of structural nonzeros. */
    function Size(): nat { |row| }

    /** Rows and columns are listed for every nonzero. */
    predicate Shaped() { |row| == |col| }

    /** The pattern's invariant: coordinates lie inside the matrix and no
        position is listed twice. */
    ghost predicate Valid() {
      && Shaped()
      && (forall k :: 0 <= k < |row| ==> 0 <= row[k] < nrows && 0 <= col[k] < ncols)
      && (forall i, j :: 0 <= i < j < |row| ==> Linear(row[i], col[i], nrows) != Linear(row[j], col[j], nrows))
    }
  }

  /** Column-major linear coordinate of position (r, c) in a matrix with
      `nrows` rows: the key the source uses to match entries between patterns. */
  function Linear(r: int, c: int, nrows: nat): int { r + c * nrows }

  /** Linear coordinate of nonzero `k` of `p`. */
  function CoordOf(p: Pattern, k: int): int
    requires p.Shaped() && 0 <= k < p.Size()
  {
    Linear(p.row[k], p.col[k], p.nrows)
  }

  /** The linear coordinate identifies the position: two in-range positions
      with the same coordinate are the same position. */
  lemma LinearInjective(r: int, c: int, r': int, c': int, nrows: nat)
    requires 0 <= r < nrows && 0 <= r' < nrows
    requires Linear(r, c, nrows) == Linear(r', c', nrows)
    ensures r == r' && c == c'
  {
    if c < c' {
      MulStep(c' - c, nrows);
    } else if c' < c {
      MulStep(c - c', nrows);
    }
  }

  /** A positive multiple of `n` is at least `n`. */
  lemma MulStep(d: int, n: nat)
    requires d >= 1
    ensures d * n >= n
  {
    assert d * n == (d - 1) * n + n;
  }

  /** Pattern lookup: the nonzero index of linear coordinate `c` in `p`, or
      -1 when `c` is not a structural nonzero of `p`. The first match is
      returned; in a valid pattern there is at most one. */
  function Lookup(p: Pattern, c: int): (r: int)
    requires p.Shaped()
    ensures r == -1 || (0 <= r < p.Size() && CoordOf(p, r) == c)
    ensures r == -1 <==> forall k :: 0 <= k < p.Size() ==> CoordOf(p, k) != c
    ensures r != -1 ==> forall k :: 0 <= k < r ==> CoordOf(p, k) != c
  {
    LookupFrom(p, c, 0)
  }

  /** Search for `c` among the nonzeros `from..` of `p`. */
  function LookupFrom(p: Pattern, c: int, from: nat): (r: int)
    requires p.Shaped() && from <= p.Size()
    ensures r == -1 || (from <= r < p.Size() && CoordOf(p, r) == c)
    ensures r == -1 <==> forall k :: from <= k < p.Size() ==> CoordOf(p, k) != c
    ensures r != -1 ==> forall k :: from <= k < r ==> CoordOf(p, k) != c
    decreases p.Size() - from
  {
    if from == p.Size() then -1
    else if CoordOf(p, from) == c then from
    else LookupFrom(p, c, from + 1)
  }

  /** In a valid pattern, looking up the coordinate of nonzero `k` finds `k`. */
  lemma LookupOwnCoordinate(p: Pattern, k: int)
    requires p.Valid() && 0 <= k < p.Size()
    ensures Lookup(p, CoordOf(p, k)) == k
  {
    var r := Lookup(p, CoordOf(p, k));
    assert r != -1;
  }

  /** The batch query of a pattern: each coordinate is replaced by its
      nonzero index, or by -1 when absent. */
  function LookupAll(p: Pattern, cs: seq<int>): (r: seq<int>)
    requires p.Shaped()
    ensures |r| == |cs|
    ensures forall k :: 0 <= k < |cs| ==> r[k] == Lookup(p, cs[k])
  {
    seq(|cs|, k requires 0 <= k < |cs| => Lookup(p, cs[k]))
  }
}
