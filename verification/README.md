# Nonzero selection node of CasADi's MX graph

CasADi builds symbolic expressions as a graph of MX nodes. Each matrix in that graph is stored sparsely: a sparsity pattern lists the structurally nonzero (row, column) positions, and a data buffer holds one value per nonzero.

The `GetNonzeros` node selects nonzeros of its single dependency. Output nonzero `k` takes the value of source nonzero `assigns[k]`. Entries may repeat and may appear in any order.

This project models that node in Dafny and proves what each operation computes:

- **construction**: the constructor, `assign` and `init`. `init` builds the runtime table of (source, output) pairs;
- **numeric evaluation** in three modes:
  - value: gather;
  - forward derivatives: gather;
  - adjoint derivatives: scatter-add in ascending output order, then clear the seed;
- **sparsity propagation** on dependency bits, forwards and backwards;
- **the symbolic derivative rewrite `evaluateMX`**. It regroups the runtime table by source nonzero with a stable counting sort. It then looks up coordinates in another pattern and keeps the matches as triplets. It sorts the triplets into a compressed-row (row-major) pattern, and from those it builds the nodes below. For the value and forward nodes, the model uses the corrected pairing described under "## Findings" (the source's own pairing is `Rewrite.AsWrittenSelect`):
  - a restricted selection node for the value and each forward direction;
  - a mapping node for each adjoint direction;
- **the queries** `mapping`, `getDepInd`, `isIdentity` and `simplifyMe`;
- **the loops emitted by `generateOperation`**.

Modules:

| module | file | contents |
|---|---|---|
| `Options` | `options.dfy` | `Option`, `Result` |
| `Sparsity` | `sparsity.dfy` | patterns, column-major coordinate, pattern lookup |
| `Selection` | `selection.dfy` | gather and accumulate-and-clear loops, with their fold specification; forward/adjoint duality; backward-bit characterisation |
| `Permutations` | `permutations.dfy` | permutations, and the pigeonhole fact that a permutation covers every index |
| `CountingSort` | `countingsort.dfy` | the three-pass counting sort of the runtime table |
| `Filter` | `filter.dfy` | keeping matched positions as triplets |
| `Triplets` | `triplets.dfy` | building a compressed-row pattern from triplets: row-major keys, sorting |
| `NonzeroSelect` | `getnonzeros.dfy` | the node: construction, numeric evaluation, sparsity propagation, queries, generated code |
| `Rewrite` | `rewrite.dfy` | `evaluateMX` and what the rewritten nodes compute |
| `Scenarios` | `scenarios.dfy` | concrete instances |

Values are modelled as `real`. The sparsity word `bvec_t` is modelled per bit as `bool`; every operation on it is bitwise, so one bit is exact. A buffer that may be null is an `Option<seq<T>>`, and an abort is a `Result` error.

## Model

| member | source | states |
|---|---|---|
| Sparsity.LinearInjective | symbolic/mx/getnonzeros.cpp:206 | the column-major coordinate `row + col*nrows` identifies an in-matrix position: equal coordinates imply equal row and column |
| Sparsity.Lookup | symbolic/mx/getnonzeros.cpp:245 | the pattern query returns the index of a nonzero at that coordinate, or -1 exactly when the pattern has no nonzero there; the first such nonzero is returned. The in-place batch query at lines 245, 262 and 285 applies it to each coordinate (`Sparsity.LookupAll`) |
| Sparsity.LookupOwnCoordinate | symbolic/mx/getnonzeros.cpp:235 | in a valid pattern (no duplicate positions), looking up the coordinate of nonzero k finds k, so a pattern queried against itself matches every nonzero |
| Selection.Gather | symbolic/mx/getnonzeros.cpp:63-65 | the gather loop writes `src[assigns[k]]` into slot k of the destination for every k, and leaves slots beyond the table untouched |
| Selection.AccumulateAndClear | symbolic/mx/getnonzeros.cpp:80-83 | after the loop, each seed entry of the table is zero, and each sensitivity slot p is its old value combined, in ascending k, with every seed whose entry targets p |
| Selection.UntargetedUnchanged | symbolic/mx/getnonzeros.cpp:80-83 | a slot that no table entry targets keeps its value |
| Selection.FoldAddShift | symbolic/mx/getnonzeros.cpp:81 | numeric accumulation onto s equals s plus the sum of the seeds targeting the slot |
| Selection.DualityUpTo | symbolic/mx/getnonzeros.cpp:63-65 | inductive step of the duality: the inner product of a seed with the gathered vector, over the first m outputs, equals the inner product of the partial scatter with the source |
| Selection.Duality | symbolic/mx/getnonzeros.cpp:78-85 | the adjoint mode is the transpose of the forward mode: `<w, gather(u)> = <scatter(w), u>` for every seed w and source u |
| Selection.BackwardBitIff | symbolic/mx/getnonzeros.cpp:103 | OR-accumulation leaves a bit set iff it was set or some output bit targeting it was set |
| Selection.TargetSumSupport | symbolic/mx/getnonzeros.cpp:81 | a nonzero adjoint increment at p comes from some nonzero seed whose entry targets p |
| Selection.AdjointMarked | symbolic/mx/getnonzeros.cpp:99-106 | backward sparsity over-approximates the adjoint: a source that receives a nonzero adjoint contribution is marked by the backward pass whenever the nonzero seeds are marked |
| Selection.ForwardMarked | symbolic/mx/getnonzeros.cpp:101 | forward sparsity over-approximates the value: a nonzero output reads a marked source bit whenever nonzero sources are marked |
| NonzeroSelect.Create | symbolic/mx/getnonzeros.cpp:36-39 | a new node has the given pattern, no dependency, and one zero table entry per output nonzero |
| NonzeroSelect.AddDependency | symbolic/mx/getnonzeros.cpp:143-144 | after registration the node is a dependency; an existing dependency is not added twice, and a new one is appended without disturbing the others |
| NonzeroSelect.Assign | symbolic/mx/getnonzeros.cpp:136-150 | an empty list changes nothing; otherwise a null dependency or a list whose length differs from the output nonzero count aborts, a non-null dependency with one entry per output nonzero always succeeds, and success stores exactly the list, registers the dependency (not twice) and keeps the pattern and runtime table |
| NonzeroSelect.CreateAssignBuilds | symbolic/mx/getnonzeros.cpp:136-150 | creating a node and assigning it a full in-range list from one dependency yields a well-formed node selecting exactly that list |
| NonzeroSelect.Init | symbolic/mx/getnonzeros.cpp:152-165 | init succeeds iff the node has exactly one dependency; on success the runtime table is `(assigns[k], k)` for every k, and nothing else changes |
| NonzeroSelect.RuntimeTableInverts | symbolic/mx/getnonzeros.cpp:162-164 | the pair (i, o) is in the runtime table iff output o reads source i, and each output appears once, at its own position |
| NonzeroSelect.BuiltInitialises | symbolic/mx/getnonzeros.cpp:156-164 | a well-formed node initialises into an initialised node |
| NonzeroSelect.ApplyGather | symbolic/mx/getnonzeros.cpp:62-66 | the value pass gathers when both buffers are present and leaves the output untouched when either is null |
| NonzeroSelect.ApplyScatter | symbolic/mx/getnonzeros.cpp:79-84 | the adjoint pass accumulates and clears when both buffers are present and changes nothing when either is null |
| NonzeroSelect.EvaluateGen | symbolic/mx/getnonzeros.cpp:53-86 | evaluation in all modes: the value and each forward direction are gathered or skipped; each adjoint direction's sensitivity gains the ascending-order sum of the seeds targeting each slot, and its seed is zeroed; sensitivities without a seed direction are untouched |
| NonzeroSelect.AdjointEffect | symbolic/mx/getnonzeros.cpp:78-85 | each sensitivity slot ends at its old value plus the adjoint increment, and untargeted slots are unchanged |
| NonzeroSelect.PropagateSparsity | symbolic/mx/getnonzeros.cpp:88-108 | forward: each output bit copies the bit of the source it reads, and the input is unchanged; backward: each source bit is OR-ed with the output bits that read it, and the output bits are cleared; a null buffer skips both |
| NonzeroSelect.BackwardMarks | symbolic/mx/getnonzeros.cpp:102-105 | after backward propagation a source bit is set iff it was set or some output reading it had its bit set |
| NonzeroSelect.MappingOf | symbolic/mx/getnonzeros.cpp:380-394 | with one dependency and input 0, the result has the node's shape and stores, at each output nonzero's position, the source nonzero it reads, and nothing elsewhere; otherwise it aborts |
| NonzeroSelect.DepIndNamesDependency | symbolic/mx/getnonzeros.cpp:396-399 | every output nonzero is attributed to dependency 0, the node's one dependency, and reads inside it |
| NonzeroSelect.IsIdentity | symbolic/mx/getnonzeros.cpp:401-413 | true iff the node has its dependency's pattern and output nonzero k reads source nonzero k for every k |
| NonzeroSelect.IdentityEvaluatesToInput | symbolic/mx/getnonzeros.cpp:401-413 | an identity node evaluates to its input unchanged |
| NonzeroSelect.SimplifyMe | symbolic/mx/getnonzeros.cpp:434-440 | an identity node is replaced by its dependency, and any other node is kept |
| NonzeroSelect.CodegenLoop | symbolic/mx/getnonzeros.cpp:417-431 | the emitted loops (clear the result, then `res[second] += arg[first]` per pair) leave each result entry equal to the in-order sum of the arguments paired with it |
| NonzeroSelect.SumOverOwnPosition | symbolic/mx/getnonzeros.cpp:162-164 | over the runtime table, each output's sum has exactly one term: the value at its own position |
| NonzeroSelect.GenerateOperation | symbolic/mx/getnonzeros.cpp:415-432 | the generated code of an initialised node computes exactly the value gather of numeric evaluation |
| CountingSort.CountKeys | symbolic/mx/getnonzeros.cpp:211-214 | the counting pass stores in slot v+1 the number of table entries reading source v |
| CountingSort.GroupStarts | symbolic/mx/getnonzeros.cpp:216-219 | after the cumulative sum, slot v holds the number of entries reading a source below v |
| CountingSort.Place | symbolic/mx/getnonzeros.cpp:222-226 | the placing pass puts each entry j at its slot: the entries with a smaller source, plus the earlier entries with the same source |
| CountingSort.SlotOrder | symbolic/mx/getnonzeros.cpp:225 | the slot order is lexicographic by (source, entry index) |
| CountingSort.SlotsSorted | symbolic/mx/getnonzeros.cpp:209-226 | placing every entry at its slot yields a permutation sorted by source that is stable for equal sources |
| CountingSort.StableOrder | symbolic/mx/getnonzeros.cpp:209-226 | the resorted order is a permutation of the table positions, nondecreasing in source nonzero, and keeps output order among equal sources |
| Filter.KeptBelowFacts | symbolic/mx/getnonzeros.cpp:248-254 | the positions the filter loop has collected before position k are exactly the matched positions below k, strictly ascending |
| Filter.Kept | symbolic/mx/getnonzeros.cpp:248-254 | the kept positions are exactly those whose lookup matched, strictly ascending, and at most as many as the positions |
| Filter.FilterTriplets | symbolic/mx/getnonzeros.cpp:265-271 | the filter loop emits, for the i-th kept position in order, its matched nonzero (never -1) and that position's row and column |
| Triplets.RowMajorBound | symbolic/mx/getnonzeros.cpp:309 | an in-matrix position has a row-major key in 0..nrows*ncols-1, the key range of the triplet sort |
| Triplets.KeysDistinct | symbolic/mx/getnonzeros.cpp:309 | distinct in-matrix positions have distinct row-major keys |
| Triplets.SortTriplets | symbolic/mx/getnonzeros.cpp:309 | building a pattern from triplets at distinct in-matrix positions reorders them by a permutation into a compressed-row pattern: strictly increasing row-major keys, holding exactly the given positions |
| Rewrite.SurvivorIff | symbolic/mx/getnonzeros.cpp:229-254 | an output nonzero survives the source-ordered filter iff the looked-up pattern holds its source coordinate |
| Rewrite.SurvivorsIff | symbolic/mx/getnonzeros.cpp:229-254 | the same, for all outputs at once |
| Rewrite.SortedPair | symbolic/mx/getnonzeros.cpp:222-226 | two positions of the resorted order visit their sources in order, ties by output |
| Rewrite.SourceSurvivorsOfKept | symbolic/mx/getnonzeros.cpp:229-254 | the kept positions, mapped back through the sort, list each surviving output once, ordered by source and then output |
| Rewrite.OutputSurvivorsOfKept | symbolic/mx/getnonzeros.cpp:204-207 | for the adjoint, the kept positions are the outputs whose own coordinate the seed holds, ascending |
| Rewrite.SelectSurvivors | symbolic/mx/getnonzeros.cpp:229-254 | value/forward filtering yields one triplet per survivor, in source order: the matched nonzero at the survivor's source coordinate, and the survivor's output row and column; at most one per table entry |
| Rewrite.SurvivorPositions | symbolic/mx/getnonzeros.cpp:248-254 | distinct surviving outputs of a valid pattern give triplets at distinct in-matrix positions, as the pattern builder needs |
| Rewrite.PermutedSurvivors | symbolic/mx/getnonzeros.cpp:309-316 | reordering the source-ordered survivors by the pattern builder's permutation keeps every survivor exactly once |
| Rewrite.BuiltSelectIsRestricted | symbolic/mx/getnonzeros.cpp:311-319 | building from triplets whose matched nonzeros are listed in the same order as the pattern's positions gives the restricted selection over those survivors, or the zero matrix with an empty pattern when nothing survived |
| Rewrite.RewriteSelection | symbolic/mx/getnonzeros.cpp:301-346 | the rewritten value or forward sensitivity is built on the compressed-row pattern of the survivors' positions, each output reading the nonzero matched for that same position, so it is the selection restricted to every survivor, each once in row-major order, or the zero matrix when none survive |
| Rewrite.RewriteForward | symbolic/mx/getnonzeros.cpp:324-346 | every forward direction is rewritten into a restricted selection over its own survivors, on a compressed-row pattern |
| Rewrite.AdjointSurvivors | symbolic/mx/getnonzeros.cpp:281-295 | adjoint filtering yields, in output order, one triplet per output whose coordinate the seed holds: the seed's nonzero there, and the source position of that output |
| Rewrite.RewriteAdjoint | symbolic/mx/getnonzeros.cpp:349-371 | each adjoint contribution is a mapping over the input's shape at the survivors' source positions, fed by the seed's surviving nonzeros when the output exists |
| Rewrite.EvaluateMX | symbolic/mx/getnonzeros.cpp:167-378 | the rewrite: the value is rebuilt iff the output exists and is not given; a missing input gives zero matrices; otherwise the value and each forward direction are restricted selections over their survivors in row-major order on a compressed-row pattern (never more than the table entries), each adjoint contribution is a mapping over its survivors, and every adjoint seed is cleared |
| Rewrite.EmbedSelf | symbolic/mx/getnonzeros.cpp:245 | a pattern's values read through its own lookup are unchanged |
| Rewrite.RewriteRestricts | symbolic/mx/getnonzeros.cpp:244-254 | for survivors listed each once in any order, the restricted selection, evaluated on a seed's own nonzeros, agrees at every survivor with the original node evaluated on the seed laid over the dependency's pattern; every dropped output is zero there, including when nothing survives |
| Rewrite.ValueRewriteKeepsAll | symbolic/mx/getnonzeros.cpp:242-255 | when the input has the dependency's pattern, every output survives, and the rewritten node reads the same source nonzero for each |
| Rewrite.AsWrittenSelect | symbolic/mx/getnonzeros.cpp:309-319 | the node the source builds: the compressed-row pattern places survivor `src[perm[j]]` at nonzero j, but nonzero j reads the match of the j-th survivor in source order `src[j]`; a new node with the input as its only dependency, or the zero matrix when nothing survived |
| Rewrite.AsWrittenKeepsOrder | symbolic/mx/getnonzeros.cpp:309-319 | when the pattern builder keeps the triplet order, the as-written node is the restricted selection over the survivors, so the mismatch arises only from the reordering |
| Rewrite.SwapSurvivors | symbolic/mx/getnonzeros.cpp:229-254 | in a node swapping the two entries of a column, against an input with every nonzero, both outputs survive, listed in source order as outputs 1 then 0 |
| Rewrite.SwapPermutation | symbolic/mx/getnonzeros.cpp:309 | the compressed-row pattern of that swap's triplets takes the second triplet first |
| Rewrite.SwapMisPaired | symbolic/mx/getnonzeros.cpp:309-319 | for that swap, the node as written reads the sources unswapped and so evaluates differently from the node it replaces, while the corrected pairing keeps the swap |
| Scenarios.FourEntryScenario | symbolic/mx/getnonzeros.cpp:63-83 | the table [2,0,2,3] gathers [x0,x1,x2,x3] to [x2,x0,x2,x3], scatters the seed [p,q,r,s] into a zero sensitivity as [q,0,p+r,s], and zeroes the seed |
| Scenarios.DuplicateTargetScenario | symbolic/mx/getnonzeros.cpp:80-83 | two outputs reading one source: both get its value, and the adjoint sums both seeds into it |

## Left out

- `printPart` and `clone` are text output and object copying, and state no property.
- The `evaluateD`/`evaluateSX` dispatch: both instantiate the same template. Values are modelled as `real` rather than as doubles or symbolic scalars, so floating-point rounding is not modelled. The summation order of the adjoint loop is kept exactly by `Selection.FoldTargets`.
- `bvec_t` is modelled as one `bool` per nonzero rather than a 64-bit word, because every operation on it acts on each bit separately.
- `casadi_assert(input.size()==1)` is enforced by the types: each operation takes exactly one input buffer or expression.
- The number of forward directions in numeric evaluation is `|fwdSens|`, as in the source; the model requires a seed for each of those directions.
- `getNZInplace`, `sp_triplet`, `addDependency`, `MXNode::init` and the `Mapping` node are not part of this model:
  - `getNZInplace` is modelled as a first-match search over the pattern's nonzeros, with the column-major coordinate.
  - `sp_triplet` is modelled by what its callers rely on: it builds the compressed-row pattern of the triplets, listing them by increasing row-major position, and reports the reordering as a permutation (`Triplets.SortTriplets`). Its sorting algorithm is not modelled.
  - `addDependency` follows the comment at its call site: add the node unless it is already a dependency. `NonzeroSelect.AddDependency` compares nodes by value, since `MX` is a datatype without node identity: two separately created equal nodes (two `Zeros(sp)`, say) count as one dependency, where the source would add both.
  - A `Mapping` node is recorded by its pattern and the arguments of its single `assign` call. The unused `a_inz` result of `sp_triplet` at line 359 is not modelled.
- `*adjSens[d][0] += s` is modelled by returning the contribution `s`, because the sum of MX expressions is outside this model.
- `Rewrite.RewriteRestricts` and `Rewrite.ValueRewriteKeepsAll` relate the rewritten nodes to numeric evaluation only for the value and forward cases. The adjoint mapping node has no numeric semantics here.
- Triplets.SortTriplets: requires the triplets to sit at distinct in-matrix positions, which is all the rewrite ever passes (`Rewrite.SurvivorPositions`); duplicate or out-of-range triplets are not modelled.
- Rewrite.EvaluateMX and Rewrite.RewriteForward: their value and forward nodes use the corrected pairing of "## Findings" (each nonzero reads the match of the survivor placed there); the node the source builds at lines 309-319 and 333-343 is `Rewrite.AsWrittenSelect`. `Rewrite.EvaluateMX` also inherits the abstraction of the adjoint mapping node from `Rewrite.RewriteAdjoint`.
- Rewrite.RewriteAdjoint: the mapping node's pattern is recorded by its triplet lists; the reordering `sp_triplet` applies to it at line 359, and the pairing of `a_onz` with that order, are not modelled.
- Sparsity.Linear and Sparsity.CoordOf: the coordinate `row + col*nrows` is a 32-bit `int` in the source (lines 206 and 235) and wraps when `nrows*ncols` exceeds 2^31-1; the model's coordinates are unbounded, so matrices that large are not modelled.
- Aliasing between buffers is not modelled: buffers are separate values.
- `generateOperation` writes C text. The model states what the emitted loops compute (`NonzeroSelect.CodegenLoop`) and leaves out the text and the constant-table registration (`gen.getConstant`).
- The other repository files (the CVODES and SUNDIALS interfaces, the monodromy example) are callers and are not modelled.

## Findings

| source | as written | input that shows it | evidently intended | confidence | as-written member | corrected member |
|---|---|---|---|---|---|---|
| symbolic/mx/getnonzeros.cpp:309-319 | the new node's pattern comes from `sp_triplet(r_row, r_col)`, which lists positions in row-major order, but `assign` receives `r_inz` in the order the triplets were collected (by source nonzero); the same holds for `f_inz[d]` at lines 333-340 | a 2-by-1 column with `assigns = [1, 0]` (a swap), rewritten against an input with both nonzeros: the triplets are collected as rows 1 then 0, the pattern lists rows 0 then 1, and the node reads sources [0, 1] instead of [1, 0] | reorder `r_inz` (and `f_inz[d]`) by the same permutation that `sp_triplet` applies to the triplets | not executed; the code of `sp_triplet` is not part of this model, so this relies on its compressed-row output being sorted | Rewrite.AsWrittenSelect, Rewrite.SwapMisPaired | Rewrite.RewriteSelection |
