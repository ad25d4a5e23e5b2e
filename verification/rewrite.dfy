/** The index work of the symbolic derivative rewrite of a selection node:
    the output's value and forward derivatives become new, possibly smaller,
    selection nodes restricted to the entries that are actually present;
    each adjoint derivative becomes a mapping node contributing to the
    dependency's adjoint. */
module Rewrite {
  import opened Options
  import opened Sparsity
  import opened Selection
  import opened Permutations
  import opened CountingSort
  import opened Filter
  import opened NonzeroSelect
  import opened Triplets

  /** `order` visits the table sorted by source nonzero, stably. */
  ghost predicate SortsBySource(order: seq<int>, a: seq<int>) {
    && |order| == |a|
    && IsPermutation(order)
    && (forall i, j :: 0 <= i < j < |order| ==> a[order[i]] <= a[order[j]])
    && (forall i, j :: 0 <= i < j < |order| && a[order[i]] == a[order[j]] ==> order[i] < order[j])
  }

  /** `src` lists, each once, the output nonzeros whose source coordinate
      (in the dependency pattern D) is present in S, ordered by source
      nonzero and, for equal sources, by output nonzero. */
  ghost predicate SourceOrderedSurvivors(src: seq<int>, a: seq<int>, D: Pattern, S: Pattern)
    requires D.Shaped() && S.Shaped() && InRange(a, D.Size())
  {
    && IndicesBelow(src, |a|)
    && SourceSorted(src, a)
    && (forall o :: 0 <= o < |a| ==> (o in src <==> Lookup(S, CoordOf(D, a[o])) != -1))
  }

  /** `src` lists, each once and in any order, the output nonzeros whose
      source coordinate (in the dependency pattern D) is present in S. */
  ghost predicate SurvivorSet(src: seq<int>, a: seq<int>, D: Pattern, S: Pattern)
    requires D.Shaped() && S.Shaped() && InRange(a, D.Size())
  {
    && IndicesBelow(src, |a|)
    && (forall i, j :: 0 <= i < j < |src| ==> src[i] != src[j])
    && (forall o :: 0 <= o < |a| ==> (o in src <==> Lookup(S, CoordOf(D, a[o])) != -1))
  }

  /** The survivors listed in row-major order of their output positions:
      the order of the compressed-row pattern built from their triplets. */
  ghost predicate RowMajorSurvivors(src: seq<int>, a: seq<int>, O: Pattern, D: Pattern, S: Pattern)
    requires O.Shaped() && D.Shaped() && S.Shaped() && InRange(a, D.Size()) && |a| == O.Size()
  {
    && SurvivorSet(src, a, D, S)
    && forall i, j :: 0 <= i < j < |src| ==>
         RowMajor(O.row[src[i]], O.col[src[i]], O.ncols) < RowMajor(O.row[src[j]], O.col[src[j]], O.ncols)
  }

  /** Every entry of `src` is an index below n. */
  ghost predicate IndicesBelow(src: seq<int>, n: int) {
    forall j :: 0 <= j < |src| ==> 0 <= src[j] < n
  }

  /** `src` is ordered by source nonzero, ties by output nonzero. */
  ghost predicate SourceSorted(src: seq<int>, a: seq<int>)
    requires IndicesBelow(src, |a|)
  {
    forall i, j :: 0 <= i < j < |src| ==> a[src[i]] < a[src[j]] || (a[src[i]] == a[src[j]] && src[i] < src[j])
  }

  /** `src` lists, ascending, the output nonzeros of O whose own coordinate is
      present in S. */
  ghost predicate OutputOrderedSurvivors(src: seq<int>, O: Pattern, S: Pattern)
    requires O.Shaped() && S.Shaped()
  {
    && (forall j :: 0 <= j < |src| ==> 0 <= src[j] < O.Size())
    && (forall i, j :: 0 <= i < j < |src| ==> src[i] < src[j])
    && (forall o :: 0 <= o < O.Size() ==> (o in src <==> Lookup(S, CoordOf(O, o)) != -1))
  }

  /** The empty pattern of a matrix shaped like O. */
  function EmptyLike(O: Pattern): Pattern {
    Pattern(O.nrows, O.ncols, [], [])
  }

  /** The node a rewrite should build from survivors `src` of the selection
      (O, D, a) against `dep` (pattern S): a selection from `dep` whose
      nonzeros sit at the survivors' output positions and read the nonzero of
      S at each survivor's source coordinate; the zero matrix when nothing
      survives. */
  function RestrictedSelect(O: Pattern, D: Pattern, a: seq<int>, dep: MX, src: seq<int>): MX
    requires O.Shaped() && D.Shaped() && dep.sp.Shaped() && InRange(a, D.Size()) && |a| == O.Size()
    requires forall j :: 0 <= j < |src| ==> 0 <= src[j] < |a|
  {
    if src == [] then Zeros(EmptyLike(O))
    else
      GetNonzeros(Pattern(O.nrows, O.ncols, seq(|src|, j requires 0 <= j < |src| => O.row[src[j]]),
                                            seq(|src|, j requires 0 <= j < |src| => O.col[src[j]])),
                  [dep],
                  seq(|src|, j requires 0 <= j < |src| => Lookup(dep.sp, CoordOf(D, a[src[j]]))),
                  [])
  }

  /** The adjoint contribution a rewrite should build from survivors `src`
      of the selection (O, D, a) against the adjoint seed: a mapping over the
      input's shape whose triplets sit at the survivors' source positions,
      fed (when the seed is given) by the seed nonzeros at the survivors'
      output coordinates. */
  function AdjointTerm(I: Pattern, O: Pattern, D: Pattern, a: seq<int>, seed: Option<MX>, src: seq<int>): MX
    requires O.Shaped() && D.Shaped() && InRange(a, D.Size()) && |a| == O.Size()
    requires seed.Some? ==> seed.value.sp.Shaped()
    requires forall j :: 0 <= j < |src| ==> 0 <= src[j] < |a|
  {
    var onz := if seed.Some? then seq(|src|, j requires 0 <= j < |src| => Lookup(seed.value.sp, CoordOf(O, src[j]))) else [];
    Mapping(Pattern(I.nrows, I.ncols, seq(|src|, j requires 0 <= j < |src| => D.row[a[src[j]]]),
                                      seq(|src|, j requires 0 <= j < |src| => D.col[a[src[j]]])),
            seed, onz, onz)
  }

  /** An initialised node with a valid output pattern and a shaped input pattern. */
  ghost predicate ShapedNode(e: MX) {
    Initialized(e) && e.sp.Valid() && e.deps[0].sp.Shaped()
  }

  /** After the lookup of the source coordinates in sorted order, the kept
      positions, mapped back through the sort, are the source-ordered
      survivors. */
  lemma SourceSurvivorsOfKept(a: seq<int>, D: Pattern, S: Pattern, order: seq<int>, found: seq<int>)
    requires D.Shaped() && S.Shaped() && InRange(a, D.Size())
    requires SortsBySource(order, a) && |found| == |a|
    requires forall k :: 0 <= k < |a| ==> found[k] == Lookup(S, CoordOf(D, a[order[k]]))
    ensures SourceOrderedSurvivors(MapThrough(order, Kept(found)), a, D, S)
  {
    var ks := Kept(found);
    var src := MapThrough(order, ks);
    assert forall j :: 0 <= j < |src| ==> 0 <= src[j] < |a|;
    forall i, j | 0 <= i < j < |src|
      ensures a[src[i]] < a[src[j]] || (a[src[i]] == a[src[j]] && src[i] < src[j])
    {
      SortedPair(a, order, ks[i], ks[j]);
    }
    SurvivorsIff(a, D, S, order, found);
    assert IndicesBelow(src, |a|);
    assert SourceSorted(src, a);
    assert forall o :: 0 <= o < |a| ==> (o in src <==> Lookup(S, CoordOf(D, a[o])) != -1);
    assert SourceOrderedSurvivors(src, a, D, S);
  }

  /** The survivors are exactly the output nonzeros whose source coordinate is present. */
  lemma SurvivorsIff(a: seq<int>, D: Pattern, S: Pattern, order: seq<int>, found: seq<int>)
    requires D.Shaped() && S.Shaped() && InRange(a, D.Size())
    requires SortsBySource(order, a) && |found| == |a|
    requires forall k :: 0 <= k < |a| ==> found[k] == Lookup(S, CoordOf(D, a[order[k]]))
    ensures forall o :: 0 <= o < |a| ==> (o in MapThrough(order, Kept(found)) <==> Lookup(S, CoordOf(D, a[o])) != -1)
  {
    forall o | 0 <= o < |a|
      ensures o in MapThrough(order, Kept(found)) <==> Lookup(S, CoordOf(D, a[o])) != -1
    {
      SurvivorIff(a, D, S, order, found, o);
    }
  }

  /** Two sorted positions visit their sources in order, ties by output. */
  lemma SortedPair(a: seq<int>, order: seq<int>, p: int, q: int)
    requires SortsBySource(order, a) && 0 <= p < q < |order|
    ensures a[order[p]] < a[order[q]] || (a[order[p]] == a[order[q]] && order[p] < order[q])
  {
  }

  /** One output nonzero survives iff its source coordinate is present. */
  lemma SurvivorIff(a: seq<int>, D: Pattern, S: Pattern, order: seq<int>, found: seq<int>, o: int)
    requires D.Shaped() && S.Shaped() && InRange(a, D.Size())
    requires SortsBySource(order, a) && |found| == |a| && 0 <= o < |a|
    requires forall k :: 0 <= k < |a| ==> found[k] == Lookup(S, CoordOf(D, a[order[k]]))
    ensures o in MapThrough(order, Kept(found)) <==> Lookup(S, CoordOf(D, a[o])) != -1
  {
    var ks := Kept(found);
    var src := MapThrough(order, ks);
    Covers(order, o);
    var k :| 0 <= k < |a| && order[k] == o;
    if Lookup(S, CoordOf(D, a[o])) != -1 {
      assert k in ks;
      var j :| 0 <= j < |ks| && ks[j] == k;
      assert src[j] == o;
    }
    if o in src {
      var j :| 0 <= j < |src| && src[j] == o;
      assert order[ks[j]] == order[k];
    }
  }

  /** After the lookup of the output coordinates in output order, the kept
      positions are the output-ordered survivors. */
  lemma OutputSurvivorsOfKept(O: Pattern, S: Pattern, found: seq<int>)
    requires O.Shaped() && S.Shaped() && |found| == O.Size()
    requires forall k :: 0 <= k < |found| ==> found[k] == Lookup(S, CoordOf(O, k))
    ensures OutputOrderedSurvivors(Kept(found), O, S)
  {
  }

  /** Triplets listed survivor by survivor: the nonzero of `dep` matched at
      the survivor's source coordinate, and the survivor's output position. */
  ghost predicate SourceTriplets(O: Pattern, D: Pattern, a: seq<int>, S: Pattern, src: seq<int>,
                                 inz: seq<int>, rows: seq<int>, cols: seq<int>)
    requires O.Shaped() && D.Shaped() && S.Shaped() && InRange(a, D.Size()) && |a| == O.Size()
    requires forall j :: 0 <= j < |src| ==> 0 <= src[j] < |a|
  {
    && |inz| == |src| && |rows| == |src| && |cols| == |src|
    && forall j :: 0 <= j < |src| ==>
         inz[j] == Lookup(S, CoordOf(D, a[src[j]])) && rows[j] == O.row[src[j]] && cols[j] == O.col[src[j]]
  }

  /** Value or forward filtering against pattern S: look up the source
      coordinate of every table entry, in source order, and keep the
      matches as (nonzero, row, col) triplets at the output positions. */
  method SelectSurvivors(e: MX, order: seq<int>, S: Pattern)
    returns (inz: seq<int>, rows: seq<int>, cols: seq<int>, src: seq<int>)
    requires ShapedNode(e) && S.Shaped()
    requires SortsBySource(order, e.assigns)
    ensures SourceOrderedSurvivors(src, e.assigns, e.deps[0].sp, S)
    ensures |src| <= |e.assigns|
    ensures SourceTriplets(e.sp, e.deps[0].sp, e.assigns, S, src, inz, rows, cols)
  {
    var a, O, D, rt := e.assigns, e.sp, e.deps[0].sp, e.runtime;
    var n := |rt|;
    assert forall k :: 0 <= k < n ==> rt[k] == (a[k], k);
    // el_known: the source coordinate of each entry, in source order.
    var elKnown := seq(n, k requires 0 <= k < n => CoordOf(D, rt[order[k]].0));
    var found := LookupAll(S, elKnown);
    var rowAt := seq(n, k requires 0 <= k < n => O.row[rt[order[k]].1]);
    var colAt := seq(n, k requires 0 <= k < n => O.col[rt[order[k]].1]);
    inz, rows, cols := FilterTriplets(found, rowAt, colAt);
    src := MapThrough(order, Kept(found));
    SourceSurvivorsOfKept(a, D, S, order, found);
  }

  /** The node built from the triplets is the restricted selection. */
  lemma BuiltSelectIsRestricted(O: Pattern, D: Pattern, a: seq<int>, dep: MX, src: seq<int>,
                                inz: seq<int>, rows: seq<int>, cols: seq<int>)
    requires O.Shaped() && D.Shaped() && dep.sp.Shaped() && InRange(a, D.Size()) && |a| == O.Size()
    requires forall j :: 0 <= j < |src| ==> 0 <= src[j] < |a|
    requires SourceTriplets(O, D, a, dep.sp, src, inz, rows, cols)
    ensures var sp := Pattern(O.nrows, O.ncols, rows, cols);
            (if |inz| > 0 then Assign(Create(sp), Some(dep), inz).value else Zeros(sp))
            == RestrictedSelect(O, D, a, dep, src)
  {
    if |inz| > 0 {
      assert rows == seq(|src|, j requires 0 <= j < |src| => O.row[src[j]]);
      assert cols == seq(|src|, j requires 0 <= j < |src| => O.col[src[j]]);
      assert inz == seq(|src|, j requires 0 <= j < |src| => Lookup(dep.sp, CoordOf(D, a[src[j]])));
    }
  }

  /** Distinct output nonzeros of a valid pattern sit at distinct in-matrix
      positions, so their triplets are a legal pattern description. */
  lemma SurvivorPositions(O: Pattern, src: seq<int>, rows: seq<int>, cols: seq<int>)
    requires O.Valid() && IndicesBelow(src, O.Size())
    requires forall i, j :: 0 <= i < j < |src| ==> src[i] != src[j]
    requires |rows| == |src| && |cols| == |src|
    requires forall j :: 0 <= j < |src| ==> rows[j] == O.row[src[j]] && cols[j] == O.col[src[j]]
    ensures InMatrix(rows, cols, O.nrows, O.ncols) && DistinctPositions(rows, cols)
  {
    forall i, j | 0 <= i < j < |rows|
      ensures rows[i] != rows[j] || cols[i] != cols[j]
    {
      if src[i] < src[j] {
        assert CoordOf(O, src[i]) != CoordOf(O, src[j]);
      } else {
        assert CoordOf(O, src[j]) != CoordOf(O, src[i]);
      }
    }
  }

  /** Reordering the source-ordered survivors by a permutation keeps the
      same survivors, each once. */
  lemma PermutedSurvivors(a: seq<int>, D: Pattern, S: Pattern, src: seq<int>, perm: seq<int>)
    requires D.Shaped() && S.Shaped() && InRange(a, D.Size())
    requires SourceOrderedSurvivors(src, a, D, S)
    requires |perm| == |src| && IsPermutation(perm)
    ensures SurvivorSet(MapThrough(src, perm), a, D, S)
  {
    var r := MapThrough(src, perm);
    forall i, j | 0 <= i < j < |r|
      ensures r[i] != r[j]
    {
      assert perm[i] != perm[j];
    }
    forall o | 0 <= o < |a| && o in src
      ensures o in r
    {
      var k :| 0 <= k < |src| && src[k] == o;
      Covers(perm, k);
      var m :| 0 <= m < |perm| && perm[m] == k;
      assert r[m] == o;
    }
  }

  /** Value or forward rewrite against `dep`: filter against its pattern in
      source order, build the compressed-row pattern of the survivors'
      output positions, carry each survivor's matched nonzero to the place
      its triplet takes in that pattern, and build a selection from `dep`;
      the zero matrix when none survive. */
  method RewriteSelection(e: MX, order: seq<int>, dep: MX) returns (t: MX, src: seq<int>)
    requires ShapedNode(e) && dep.sp.Shaped()
    requires SortsBySource(order, e.assigns)
    ensures RowMajorSurvivors(src, e.assigns, e.sp, e.deps[0].sp, dep.sp)
    ensures |src| <= |e.assigns|
    ensures t == RestrictedSelect(e.sp, e.deps[0].sp, e.assigns, dep, src)
    ensures Canonical(t.sp)
  {
    var O, D, a := e.sp, e.deps[0].sp, e.assigns;
    var inz, rows, cols, bySource := SelectSurvivors(e, order, dep.sp);
    SurvivorPositions(O, bySource, rows, cols);
    var sp, perm := SortTriplets(O.nrows, O.ncols, rows, cols);
    src := MapThrough(bySource, perm);
    var inz' := MapThrough(inz, perm);
    PermutedSurvivors(a, D, dep.sp, bySource, perm);
    assert SourceTriplets(O, D, a, dep.sp, src, inz', sp.row, sp.col);
    BuiltSelectIsRestricted(O, D, a, dep, src, inz', sp.row, sp.col);
    if |inz'| > 0 {
      t := Assign(Create(sp), Some(dep), inz').value;
    } else {
      t := Zeros(sp);
    }
  }

  /** The node the source builds for the value or a forward direction from
      the source-ordered survivors `src`: the pattern is the compressed-row
      pattern of their output positions (`perm` says which survivor each of
      its nonzeros came from), but the list of matched nonzeros is passed
      in source order, so nonzero j reads the match of the j-th survivor in
      source order instead of the match of the survivor placed at j. */
  function AsWrittenSelect(O: Pattern, D: Pattern, a: seq<int>, dep: MX, src: seq<int>, perm: seq<int>): (r: MX)
    requires O.Shaped() && D.Shaped() && dep.sp.Shaped() && InRange(a, D.Size()) && |a| == O.Size()
    requires IndicesBelow(src, |a|) && |perm| == |src| && IndicesBelow(perm, |src|)
    ensures src == [] ==> r == Zeros(EmptyLike(O))
    ensures src != [] ==> r.GetNonzeros? && r.deps == [dep] && r.sp.Shaped() && r.sp.Size() == |src| && |r.assigns| == |src|
    ensures src != [] ==> forall j :: 0 <= j < |src| ==>
              && r.sp.row[j] == O.row[src[perm[j]]] && r.sp.col[j] == O.col[src[perm[j]]]
              && r.assigns[j] == Lookup(dep.sp, CoordOf(D, a[src[j]]))
  {
    if src == [] then Zeros(EmptyLike(O))
    else
      GetNonzeros(RestrictedSelect(O, D, a, dep, MapThrough(src, perm)).sp, [dep],
                  RestrictedSelect(O, D, a, dep, src).assigns, [])
  }

  /** When the pattern builder keeps the triplet order, the as-written
      node is the restricted selection: the mismatch needs a reordering. */
  lemma AsWrittenKeepsOrder(O: Pattern, D: Pattern, a: seq<int>, dep: MX, src: seq<int>, perm: seq<int>)
    requires O.Shaped() && D.Shaped() && dep.sp.Shaped() && InRange(a, D.Size()) && |a| == O.Size()
    requires IndicesBelow(src, |a|) && |perm| == |src|
    requires forall j :: 0 <= j < |perm| ==> perm[j] == j
    ensures AsWrittenSelect(O, D, a, dep, src, perm) == RestrictedSelect(O, D, a, dep, src)
  {
    assert MapThrough(src, perm) == src;
  }

  /** The two-row column pattern. */
  function Column2(): Pattern { Pattern(2, 1, [0, 1], [0, 0]) }

  /** The column pattern is valid, and each of its nonzeros looks up to itself. */
  lemma Column2Lookups(C: Pattern)
    requires C == Column2()
    ensures C.Valid()
    ensures Lookup(C, CoordOf(C, 0)) == 0 && Lookup(C, CoordOf(C, 1)) == 1
  {
    LookupOwnCoordinate(C, 0);
    LookupOwnCoordinate(C, 1);
  }

  /** The swap's survivor list, outputs 1 then 0, is ordered by source. */
  lemma SwapSorted(src: seq<int>)
    requires src == [1, 0]
    ensures IndicesBelow(src, |src|) && SourceSorted(src, src)
  {
    forall i, j | 0 <= i < j < |src| ensures src[src[i]] < src[src[j]] {
      assert i == 0 && j == 1;
    }
  }

  /** Both outputs of the swap find their source in the full column. */
  lemma SwapMembership(C: Pattern)
    requires C == Column2()
    ensures forall o :: 0 <= o < 2 ==> (o in [1, 0] <==> Lookup(C, CoordOf(C, [1, 0][o])) != -1)
  {
    Column2Lookups(C);
    var a := [1, 0];
    assert Lookup(C, CoordOf(C, a[0])) == 1;
    assert Lookup(C, CoordOf(C, a[1])) == 0;
    forall o | 0 <= o < |a| ensures o in a <==> Lookup(C, CoordOf(C, a[o])) != -1 {
      if o == 0 { assert a[1] == o; } else { assert a[0] == o; }
    }
  }

  /** In the swap, the survivors in source order are outputs 1 then 0. */
  lemma SwapSurvivors(C: Pattern)
    requires C == Column2()
    ensures SourceOrderedSurvivors([1, 0], [1, 0], C, C)
  {
    SwapSorted([1, 0]);
    SwapMembership(C);
  }

  /** Building the compressed-row pattern of the swap's triplets (rows 1
      then 0 of the column) must take the second triplet first. */
  lemma SwapPermutation(perm: seq<int>)
    requires |perm| == 2 && IsPermutation(perm)
    requires Canonical(Pattern(2, 1, MapThrough([1, 0], perm), MapThrough([0, 0], perm)))
    ensures perm == [1, 0]
  {
    var p := Pattern(2, 1, MapThrough([1, 0], perm), MapThrough([0, 0], perm));
    assert RowMajor(p.row[0], p.col[0], 1) < RowMajor(p.row[1], p.col[1], 1);
    assert p.row[0] < p.row[1];
    assert p.row[0] == [1, 0][perm[0]];
  }

  /** The swap restricted to its survivors listed in row-major order (the
      corrected pairing) is the swap itself. */
  lemma SwapRowMajorSelect(C: Pattern, a: seq<int>, src: seq<int>, dep: MX)
    requires C == Column2() && a == [1, 0] && src == [0, 1] && dep.sp == C
    ensures RestrictedSelect(C, C, a, dep, src) == GetNonzeros(C, [dep], a, [])
  {
    Column2Lookups(C);
    assert Lookup(C, CoordOf(C, a[0])) == 1;
    assert Lookup(C, CoordOf(C, a[1])) == 0;
    var r := RestrictedSelect(C, C, a, dep, src);
    assert r.sp.row == C.row && r.sp.col == C.col;
    assert r.assigns == a;
  }

  /** Listed in source order (the list the source passes), the same
      survivors read the sources unswapped. */
  lemma SwapSourceOrderAssigns(C: Pattern, a: seq<int>, dep: MX)
    requires C == Column2() && a == [1, 0] && dep.sp == C
    ensures RestrictedSelect(C, C, a, dep, a).assigns == [0, 1]
  {
    Column2Lookups(C);
    assert Lookup(C, CoordOf(C, a[0])) == 1;
    assert Lookup(C, CoordOf(C, a[1])) == 0;
  }

  /** With the permutation the pattern builder must use, the as-written node
      of the swap reads the sources unswapped. */
  lemma SwapAsWritten(C: Pattern, a: seq<int>, dep: MX, perm: seq<int>)
    requires C == Column2() && a == [1, 0] && dep.sp == C && perm == [1, 0]
    ensures AsWrittenSelect(C, C, a, dep, a, perm) == GetNonzeros(C, [dep], [0, 1], [])
  {
    assert MapThrough(a, perm) == [0, 1];
    SwapRowMajorSelect(C, a, [0, 1], dep);
    SwapSourceOrderAssigns(C, a, dep);
  }

  /** A node swapping the two entries of a column (`a` = [1, 0]), rewritten
      against an input that has every nonzero, where both outputs survive and
      are listed in source order as `a` itself (SwapSurvivors). The pattern is
      built in row-major order either way, but the as-written node keeps the
      source indices in source order: it selects the entries unswapped, so it
      evaluates differently from the node it replaces, while the corrected
      node, which reorders the source indices with the pattern, keeps the swap. */
  lemma SwapMisPaired(C: Pattern, a: seq<int>, dep: MX, perm: seq<int>, x0: real, x1: real)
    requires C == Column2() && a == [1, 0] && dep.sp == C && x0 != x1
    requires |perm| == 2 && IsPermutation(perm)
    requires Canonical(Pattern(2, 1, MapThrough(a, perm), MapThrough([0, 0], perm)))
    ensures perm == [1, 0]
    ensures AsWrittenSelect(C, C, a, dep, a, perm) == GetNonzeros(C, [dep], [0, 1], [])
    ensures RestrictedSelect(C, C, a, dep, MapThrough(a, perm)) == GetNonzeros(C, [dep], a, [])
    ensures Gathered([0, 1], [x0, x1]) != Gathered(a, [x0, x1])
  {
    SwapPermutation(perm);
    SwapAsWritten(C, a, dep, perm);
    assert MapThrough(a, perm) == [0, 1];
    SwapRowMajorSelect(C, a, [0, 1], dep);
    assert Gathered([0, 1], [x0, x1])[0] == x0;
  }

  /** Adjoint filtering against the seed pattern S: look up the output
      coordinate of every table entry, in output order, and keep the
      matches as triplets at the source positions. */
  method AdjointSurvivors(e: MX, S: Pattern)
    returns (onz: seq<int>, rows: seq<int>, cols: seq<int>, src: seq<int>)
    requires ShapedNode(e) && S.Shaped()
    ensures OutputOrderedSurvivors(src, e.sp, S)
    ensures |onz| == |src| && |rows| == |src| && |cols| == |src|
    ensures forall j :: 0 <= j < |src| ==>
              && onz[j] == Lookup(S, CoordOf(e.sp, src[j]))
              && rows[j] == e.deps[0].sp.row[e.assigns[src[j]]]
              && cols[j] == e.deps[0].sp.col[e.assigns[src[j]]]
  {
    var a, O, D, rt := e.assigns, e.sp, e.deps[0].sp, e.runtime;
    var n := |rt|;
    assert forall k :: 0 <= k < n ==> rt[k] == (a[k], k);
    // el_wanted: the output coordinate of each entry, in output order.
    var elWanted := seq(n, k requires 0 <= k < n => CoordOf(O, rt[k].1));
    var found := LookupAll(S, elWanted);
    var rowAt := seq(n, k requires 0 <= k < n => D.row[rt[k].0]);
    var colAt := seq(n, k requires 0 <= k < n => D.col[rt[k].0]);
    onz, rows, cols := FilterTriplets(found, rowAt, colAt);
    src := Kept(found);
    OutputSurvivorsOfKept(O, S, found);
  }

  /** Adjoint rewrite against `seed`: a mapping over the input's shape, fed
      by the seed's surviving nonzeros when the output is present. */
  method RewriteAdjoint(e: MX, I: Pattern, seed: MX, outputPresent: bool) returns (t: MX, src: seq<int>)
    requires ShapedNode(e) && seed.sp.Shaped()
    ensures outputPresent ==> OutputOrderedSurvivors(src, e.sp, seed.sp)
    ensures !outputPresent ==> src == []
    ensures forall j :: 0 <= j < |src| ==> 0 <= src[j] < |e.assigns|
    ensures t == AdjointTerm(I, e.sp, e.deps[0].sp, e.assigns, if outputPresent then Some(seed) else None, src)
  {
    var onz, rows, cols := [], [], [];
    src := [];
    if outputPresent {
      onz, rows, cols, src := AdjointSurvivors(e, seed.sp);
    }
    var s := Mapping(Pattern(I.nrows, I.ncols, rows, cols), None, [], []);
    if outputPresent {
      s := s.(seed := Some(seed), inz := onz, outz := onz);
    }
    t := s;
    ghost var a, D := e.assigns, e.deps[0].sp;
    assert rows == seq(|src|, j requires 0 <= j < |src| => D.row[a[src[j]]]);
    assert cols == seq(|src|, j requires 0 <= j < |src| => D.col[a[src[j]]]);
    if outputPresent {
      assert onz == seq(|src|, j requires 0 <= j < |src| => Lookup(seed.sp, CoordOf(e.sp, src[j])));
    }
  }

  /** The forward half of `evaluateMX` for a present input: every forward
      seed is rewritten into a selection of its own survivors. */
  method RewriteForward(e: MX, order: seq<int>, fwdSeed: seq<Option<MX>>)
    returns (fwdSens: seq<Option<MX>>, fwdSrc: seq<seq<int>>)
    requires ShapedNode(e) && SortsBySource(order, e.assigns)
    requires forall d :: 0 <= d < |fwdSeed| ==> fwdSeed[d].Some? && fwdSeed[d].value.sp.Shaped()
    ensures |fwdSens| == |fwdSeed| && |fwdSrc| == |fwdSeed|
    ensures forall d :: 0 <= d < |fwdSeed| ==>
              && RowMajorSurvivors(fwdSrc[d], e.assigns, e.sp, e.deps[0].sp, fwdSeed[d].value.sp)
              && |fwdSrc[d]| <= |e.assigns|
              && fwdSens[d] == Some(RestrictedSelect(e.sp, e.deps[0].sp, e.assigns, fwdSeed[d].value, fwdSrc[d]))
              && Canonical(fwdSens[d].value.sp)
  {
    var a, O, D := e.assigns, e.sp, e.deps[0].sp;
    fwdSens, fwdSrc := [], [];
    var d := 0;
    while d < |fwdSeed|
      invariant 0 <= d <= |fwdSeed| && |fwdSens| == d && |fwdSrc| == d
      invariant forall j :: 0 <= j < d ==>
                  && RowMajorSurvivors(fwdSrc[j], a, O, D, fwdSeed[j].value.sp)
                  && |fwdSrc[j]| <= |a|
                  && fwdSens[j] == Some(RestrictedSelect(O, D, a, fwdSeed[j].value, fwdSrc[j]))
                  && Canonical(fwdSens[j].value.sp)
    {
      var t, src := RewriteSelection(e, order, fwdSeed[d].value);
      fwdSens := fwdSens + [Some(t)];
      fwdSrc := fwdSrc + [src];
      d := d + 1;
    }
  }

  /** `evaluateMX`: the symbolic derivative rewrite of an initialised node.
      `input` is the dependency's expression (None when absent); the value is
      rebuilt unless `outputGiven`; `fwdSeed[d]` and `adjSeed[d]` are the
      seeds of each forward and adjoint direction. Results that the source
      leaves unassigned are None. The ghost survivor lists say which output
      nonzeros each new node keeps. */
  method EvaluateMX(e: MX, input: Option<MX>, outputPresent: bool, outputGiven: bool,
                    fwdSeed: seq<Option<MX>>, adjSeed: seq<Option<MX>>)
    returns (value: Option<MX>, fwdSens: seq<Option<MX>>, adjContrib: seq<Option<MX>>, adjSeed': seq<Option<MX>>,
             ghost valueSrc: seq<int>, ghost fwdSrc: seq<seq<int>>, ghost adjSrc: seq<seq<int>>)
    requires ShapedNode(e)
    requires input.Some? ==> input.value.sp.Shaped()
    requires outputPresent && input.Some? ==>
               forall d :: 0 <= d < |fwdSeed| ==> fwdSeed[d].Some? && fwdSeed[d].value.sp.Shaped()
    requires input.Some? ==>
               forall d :: 0 <= d < |adjSeed| ==> (outputPresent ==> adjSeed[d].Some?) && (adjSeed[d].Some? ==> adjSeed[d].value.sp.Shaped())
    // the nondifferentiated output
    ensures value.Some? <==> outputPresent && !outputGiven
    ensures value.Some? && input.None? ==> value.value == Zeros(EmptyLike(e.sp))
    ensures value.Some? && input.Some? ==>
              && RowMajorSurvivors(valueSrc, e.assigns, e.sp, e.deps[0].sp, input.value.sp)
              && |valueSrc| <= |e.assigns|
              && value.value == RestrictedSelect(e.sp, e.deps[0].sp, e.assigns, input.value, valueSrc)
              && Canonical(value.value.sp)
    // the forward sensitivities
    ensures |fwdSens| == |fwdSeed| && |fwdSrc| == |fwdSeed|
    ensures forall d :: 0 <= d < |fwdSeed| ==> (fwdSens[d].Some? <==> outputPresent)
    ensures outputPresent && input.None? ==> forall d :: 0 <= d < |fwdSeed| ==> fwdSens[d] == Some(Zeros(EmptyLike(e.sp)))
    ensures outputPresent && input.Some? ==> forall d :: 0 <= d < |fwdSeed| ==>
              && RowMajorSurvivors(fwdSrc[d], e.assigns, e.sp, e.deps[0].sp, fwdSeed[d].value.sp)
              && |fwdSrc[d]| <= |e.assigns|
              && fwdSens[d] == Some(RestrictedSelect(e.sp, e.deps[0].sp, e.assigns, fwdSeed[d].value, fwdSrc[d]))
              && Canonical(fwdSens[d].value.sp)
    // the adjoint sensitivities
    ensures |adjContrib| == |adjSeed| && |adjSrc| == |adjSeed|
    ensures forall d :: 0 <= d < |adjSeed| ==> (adjContrib[d].Some? <==> input.Some?)
    ensures input.Some? ==> forall d :: 0 <= d < |adjSeed| ==>
              && (outputPresent ==> OutputOrderedSurvivors(adjSrc[d], e.sp, adjSeed[d].value.sp))
              && (!outputPresent ==> adjSrc[d] == [])
              && (forall j :: 0 <= j < |adjSrc[d]| ==> 0 <= adjSrc[d][j] < |e.assigns|)
              && adjContrib[d] == Some(AdjointTerm(input.value.sp, e.sp, e.deps[0].sp, e.assigns,
                                                   if outputPresent then adjSeed[d] else None, adjSrc[d]))
    // the adjoint seeds are always consumed
    ensures |adjSeed'| == |adjSeed| && forall d :: 0 <= d < |adjSeed| ==> adjSeed'[d] == None
  {
    var a, O, D := e.assigns, e.sp, e.deps[0].sp;
    var n := |e.runtime|;
    var nfwd, nadj := |fwdSeed|, |adjSeed|;
    valueSrc := [];
    fwdSrc := seq(nfwd, _ => []);
    adjSrc := seq(nadj, _ => []);
    value := None;
    fwdSens := seq(nfwd, _ => None);
    adjContrib := seq(nadj, _ => None);

    if outputPresent {
      if input.None? {
        if !outputGiven {
          value := Some(Zeros(EmptyLike(O)));
        }
        fwdSens := seq(nfwd, _ => Some(Zeros(EmptyLike(O))));
      } else {
        // Regroup the runtime table by source nonzero.
        var keys := seq(n, k requires 0 <= k < n => e.runtime[k].0);
        assert keys == a;
        var order := StableOrder(keys, D.Size());
        if !outputGiven {
          var t;
          t, valueSrc := RewriteSelection(e, order, input.value);
          value := Some(t);
        }
        fwdSens, fwdSrc := RewriteForward(e, order, fwdSeed);
      }
    }

    adjSeed' := adjSeed;
    var d := 0;
    while d < nadj
      invariant 0 <= d <= nadj && |adjContrib| == nadj && |adjSrc| == nadj && |adjSeed'| == nadj
      invariant forall j :: 0 <= j < d ==> adjSeed'[j] == None
      invariant forall j :: d <= j < nadj ==> adjContrib[j] == None
      invariant input.None? ==> forall j :: 0 <= j < nadj ==> adjContrib[j] == None
      invariant input.Some? ==> forall j :: 0 <= j < d ==>
                  && (outputPresent ==> OutputOrderedSurvivors(adjSrc[j], O, adjSeed[j].value.sp))
                  && (!outputPresent ==> adjSrc[j] == [])
                  && (forall i :: 0 <= i < |adjSrc[j]| ==> 0 <= adjSrc[j][i] < |a|)
                  && adjContrib[j] == Some(AdjointTerm(input.value.sp, O, D, a,
                                                       if outputPresent then adjSeed[j] else None, adjSrc[j]))
    {
      if input.Some? {
        var seed := if outputPresent then adjSeed[d].value else Zeros(EmptyLike(O));
        var t, src := RewriteAdjoint(e, input.value.sp, seed, outputPresent);
        adjContrib := adjContrib[d := Some(t)];
        adjSrc := adjSrc[d := src];
      }
      adjSeed' := adjSeed'[d := None];
      d := d + 1;
    }
  }

  // ---------------------------------------------------------------------
  // What the rewritten nodes compute

  /** A seed of pattern S holding values `sv`, read as a buffer over the
      dependency's pattern D: each D-nonzero whose coordinate S holds takes
      S's value there, every other D-nonzero is a structural zero. */
  function Embed(D: Pattern, S: Pattern, sv: seq<real>): (r: seq<real>)
    requires D.Shaped() && S.Shaped() && |sv| == S.Size()
    ensures |r| == D.Size()
  {
    seq(D.Size(), i requires 0 <= i < D.Size() =>
      var l := Lookup(S, CoordOf(D, i)); if l == -1 then 0.0 else sv[l])
  }

  /** A pattern read through itself is the buffer itself. */
  lemma EmbedSelf(D: Pattern, x: seq<real>)
    requires D.Valid() && |x| == D.Size()
    ensures Embed(D, D, x) == x
  {
    forall i | 0 <= i < D.Size()
      ensures Embed(D, D, x)[i] == x[i]
    {
      LookupOwnCoordinate(D, i);
    }
  }

  /** The rewrite restricts correctly: the rewritten selection, applied to
      the seed's own values, gives at each survivor exactly what the
      original node gives on the seed read over the dependency's pattern;
      and every output nonzero the rewrite drops is zero there. */
  lemma RewriteRestricts(O: Pattern, D: Pattern, a: seq<int>, dep: MX, src: seq<int>, sv: seq<real>)
    requires O.Shaped() && D.Shaped() && dep.sp.Shaped() && InRange(a, D.Size()) && |a| == O.Size()
    requires SurvivorSet(src, a, D, dep.sp) && |sv| == dep.sp.Size()
    ensures src != [] ==> RestrictedSelect(O, D, a, dep, src).GetNonzeros?
    ensures src != [] ==> InRange(RestrictedSelect(O, D, a, dep, src).assigns, |sv|)
    ensures src != [] ==> forall j :: 0 <= j < |src| ==>
              Gathered(RestrictedSelect(O, D, a, dep, src).assigns, sv)[j] == Gathered(a, Embed(D, dep.sp, sv))[src[j]]
    ensures forall o :: 0 <= o < |a| && o !in src ==> Gathered(a, Embed(D, dep.sp, sv))[o] == 0.0
  {
    if src != [] {
      var t := RestrictedSelect(O, D, a, dep, src);
      forall j | 0 <= j < |src|
        ensures 0 <= t.assigns[j] < |sv|
      {
        assert src[j] in src;
      }
    }
  }

  /** When the dependency's expression is supplied with the dependency's own
      pattern, every output nonzero survives the value rewrite, and the
      rewritten node reads each one from the same source entry as before. */
  lemma ValueRewriteKeepsAll(O: Pattern, D: Pattern, a: seq<int>, dep: MX, src: seq<int>, x: seq<real>)
    requires O.Shaped() && D.Valid() && dep.sp == D && InRange(a, D.Size()) && |a| == O.Size()
    requires SurvivorSet(src, a, D, D) && |x| == D.Size() && src != []
    ensures forall o :: 0 <= o < |a| ==> o in src
    ensures forall j :: 0 <= j < |src| ==>
              Gathered(RestrictedSelect(O, D, a, dep, src).assigns, x)[j] == Gathered(a, x)[src[j]]
  {
    forall o | 0 <= o < |a|
      ensures o in src
    {
      LookupOwnCoordinate(D, a[o]);
    }
    RewriteRestricts(O, D, a, dep, src, x);
    EmbedSelf(D, x);
  }
}
