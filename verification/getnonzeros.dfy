/** The nonzero-selection node: output nonzero k reads source nonzero
    assigns[k] of the node's single dependency. */
module NonzeroSelect {
  import opened Options
  import opened Sparsity
  import opened Selection

  /** Expression-graph nodes, as far as the selection node needs them. */
  datatype MX =
      /** Any other node kind (a symbolic input, an operation result). */
    | Symbol(id: nat, sp: Pattern)
      /** A structurally empty matrix of the given pattern. */
    | Zeros(sp: Pattern)
      /** The selection node: its pattern, dependencies, index table, and the
          runtime table of (source, output) pairs built by `Init`. */
    | GetNonzeros(sp: Pattern, deps: seq<MX>, assigns: seq<int>, runtime: seq<(int, int)>)
      /** An accumulating mapping node as created for an adjoint contribution,
          recorded by its pattern and the arguments of its one `assign` call
          (`seed` is None when that call is not made). */
    | Mapping(sp: Pattern, seed: Option<MX>, inz: seq<int>, outz: seq<int>)

  /** Why building a node aborted. */
  datatype Error =
    | NullDependency    // `assign` given a null dependency
    | SizeMismatch      // index list length differs from the output nonzero count
    | DependencyCount   // the node does not have exactly one dependency
    | BadInput          // `mapping` asked about an input other than 0

  /** The node has exactly one dependency and one in-range entry per output nonzero. */
  ghost predicate Built(e: MX) {
    && e.GetNonzeros?
    && |e.deps| == 1
    && |e.assigns| == e.sp.Size()
    && InRange(e.assigns, e.deps[0].sp.Size())
  }

  /** The runtime table pairs each output nonzero with the source it reads. */
  function RuntimeTable(a: seq<int>): (t: seq<(int, int)>)
    ensures |t| == |a|
  {
    seq(|a|, k requires 0 <= k < |a| => (a[k], k))
  }

  /** A built node after `Init`. */
  ghost predicate Initialized(e: MX) {
    Built(e) && e.runtime == RuntimeTable(e.assigns)
  }

  // ---------------------------------------------------------------------
  // Construction

  /** A fresh node of pattern `sp`: no dependency yet, one zero entry per
      output nonzero. */
  function Create(sp: Pattern): (e: MX)
    ensures e.GetNonzeros? && e.sp == sp && e.deps == [] && e.runtime == []
    ensures |e.assigns| == sp.Size() && forall k :: 0 <= k < |e.assigns| ==> e.assigns[k] == 0
  {
    GetNonzeros(sp, [], seq(sp.Size(), _ => 0), [])
  }

  /** Dependency registration: `d` is added unless it is already a dependency. */
  function AddDependency(deps: seq<MX>, d: MX): (r: seq<MX>)
    ensures d in r
    ensures d in deps ==> r == deps
    ensures d !in deps ==> |r| == |deps| + 1 && r[..|deps|] == deps
  {
    if d in deps then deps else deps + [d]
  }

  /** Record the mapping `inz` from dependency `d`. An empty list changes
      nothing; otherwise `d` must be non-null and `inz` must have one entry per
      output nonzero, and the node then selects `inz` from `d`. */
  function Assign(e: MX, d: Option<MX>, inz: seq<int>): (r: Result<MX, Error>)
    requires e.GetNonzeros?
    ensures inz == [] ==> r == Ok(e)
    ensures inz != [] && d.None? ==> r == Err(NullDependency)
    ensures inz != [] && d.Some? && |inz| != e.sp.Size() ==> r == Err(SizeMismatch)
    ensures inz != [] && d.Some? && |inz| == e.sp.Size() ==> r.Ok?
    ensures r.Ok? && inz != [] ==> r.value.GetNonzeros? && r.value.assigns == inz && r.value.sp == e.sp
                                    && d.Some? && r.value.deps == AddDependency(e.deps, d.value)
                                    && d.value in r.value.deps && r.value.runtime == e.runtime
  {
    if inz == [] then Ok(e)
    else if d.None? then Err(NullDependency)
    else if |inz| != e.sp.Size() then Err(SizeMismatch)
    else Ok(e.(deps := AddDependency(e.deps, d.value), assigns := inz))
  }

  /** Creating a node and assigning it one in-range entry per output nonzero
      from a single dependency yields a built node selecting exactly `inz`. */
  lemma CreateAssignBuilds(sp: Pattern, d: MX, inz: seq<int>)
    requires |inz| == sp.Size() && inz != []
    requires InRange(inz, d.sp.Size())
    ensures Assign(Create(sp), Some(d), inz).Ok?
    ensures var e := Assign(Create(sp), Some(d), inz).value;
            Built(e) && e.deps == [d] && e.assigns == inz && e.sp == sp
  {
  }

  /** `init`: with exactly one dependency, build the runtime table of
      (source, output) pairs in output order; otherwise abort. */
  method Init(e: MX) returns (r: Result<MX, Error>)
    requires e.GetNonzeros?
    ensures r.Ok? <==> |e.deps| == 1
    ensures r.Err? ==> r.error == DependencyCount
    ensures r.Ok? ==> r.value == e.(runtime := RuntimeTable(e.assigns))
  {
    if |e.deps| != 1 {
      return Err(DependencyCount);
    }
    var table: seq<(int, int)> := [];
    var onz := 0;
    while onz < |e.assigns|
      invariant 0 <= onz <= |e.assigns|
      invariant table == RuntimeTable(e.assigns[..onz])
    {
      table := table + [(e.assigns[onz], onz)];
      onz := onz + 1;
    }
    assert e.assigns[..onz] == e.assigns;
    r := Ok(e.(runtime := table));
  }

  /** The runtime table inverts the index table: source i is paired with
      output o exactly when output o reads source i, and each output appears
      once, at its own position. */
  lemma RuntimeTableInverts(a: seq<int>, i: int, o: int)
    ensures (i, o) in RuntimeTable(a) <==> 0 <= o < |a| && a[o] == i
    ensures 0 <= o < |a| ==> RuntimeTable(a)[o].1 == o
  {
    if 0 <= o < |a| && a[o] == i {
      assert RuntimeTable(a)[o] == (i, o);
    }
  }

  /** A built node initialises successfully into an initialised node. */
  lemma BuiltInitialises(e: MX)
    requires Built(e)
    ensures Initialized(e.(runtime := RuntimeTable(e.assigns)))
  {
  }

  // ---------------------------------------------------------------------
  // Numeric evaluation and sparsity propagation

  /** When a gather writes, the table reads inside the source and fills the
      whole output buffer. */
  predicate GatherFits<T>(a: seq<int>, src: Option<seq<T>>, dst: Option<seq<T>>) {
    src.Some? && dst.Some? ==> InRange(a, |src.value|) && |dst.value| == |a|
  }

  /** When a scatter writes, the seed buffer matches the table and the table
      writes inside the sensitivity buffer. */
  predicate ScatterFits<T>(a: seq<int>, seed: Option<seq<T>>, sens: Option<seq<T>>) {
    seed.Some? && sens.Some? ==> |seed.value| == |a| && InRange(a, |sens.value|)
  }

  /** Reference result of a gather on optional buffers: skipped when either is absent. */
  function GatherResult<T>(a: seq<int>, src: Option<seq<T>>, dst: Option<seq<T>>): Option<seq<T>>
    requires GatherFits(a, src, dst)
  {
    if src.Some? && dst.Some? then Some(Gathered(a, src.value)) else dst
  }

  /** Reference sensitivity buffer after a scatter on optional buffers. */
  function ScatterSens<T>(a: seq<int>, seed: Option<seq<T>>, sens: Option<seq<T>>, plus: (T, T) -> T): Option<seq<T>>
    requires ScatterFits(a, seed, sens)
  {
    if seed.Some? && sens.Some? then
      Some(seq(|sens.value|, p requires 0 <= p < |sens.value| => FoldTargets(plus, a, seed.value, p, |a|, sens.value[p])))
    else sens
  }

  /** Reference seed buffer after a scatter on optional buffers: consumed
      (all zero) when the scatter runs. */
  function ScatterSeed<T>(a: seq<int>, seed: Option<seq<T>>, sens: Option<seq<T>>, zero: T): Option<seq<T>>
    requires ScatterFits(a, seed, sens)
  {
    if seed.Some? && sens.Some? then Some(seq(|a|, _ => zero)) else seed
  }

  /** One value or forward pass on a buffer pair that may be absent. */
  method ApplyGather<T>(a: seq<int>, src: Option<seq<T>>, dst: Option<seq<T>>) returns (dst': Option<seq<T>>)
    requires GatherFits(a, src, dst)
    ensures dst' == GatherResult(a, src, dst)
  {
    dst' := dst;
    if src.Some? && dst.Some? {
      var out := Gather(a, src.value, dst.value);
      assert out == Gathered(a, src.value);
      dst' := Some(out);
    }
  }

  /** One adjoint or backward pass on a buffer pair that may be absent. */
  method ApplyScatter<T>(a: seq<int>, seed: Option<seq<T>>, sens: Option<seq<T>>, plus: (T, T) -> T, zero: T)
    returns (seed': Option<seq<T>>, sens': Option<seq<T>>)
    requires ScatterFits(a, seed, sens)
    ensures seed' == ScatterSeed(a, seed, sens, zero)
    ensures sens' == ScatterSens(a, seed, sens, plus)
  {
    seed', sens' := seed, sens;
    if seed.Some? && sens.Some? {
      var s, t := AccumulateAndClear(a, seed.value, sens.value, plus, zero);
      assert s == ScatterSeed(a, seed, sens, zero).value;
      assert t == ScatterSens(a, seed, sens, plus).value;
      seed', sens' := Some(s), Some(t);
    }
  }

  /** Numeric evaluation of the node in all three modes. The value and each
      forward direction d < |fwdSens| gather when both their buffers are
      present; each adjoint direction d < |adjSeed| accumulates its seed into
      its sensitivity, in ascending output order, and zeroes the seed. */
  method EvaluateGen(a: seq<int>, input: Option<seq<real>>, output: Option<seq<real>>,
                     fwdSeed: seq<Option<seq<real>>>, fwdSens: seq<Option<seq<real>>>,
                     adjSeed: seq<Option<seq<real>>>, adjSens: seq<Option<seq<real>>>)
    returns (output': Option<seq<real>>, fwdSens': seq<Option<seq<real>>>,
             adjSeed': seq<Option<seq<real>>>, adjSens': seq<Option<seq<real>>>)
    requires |fwdSens| <= |fwdSeed| && |adjSeed| <= |adjSens|
    requires GatherFits(a, input, output)
    requires forall d :: 0 <= d < |fwdSens| ==> GatherFits(a, fwdSeed[d], fwdSens[d])
    requires forall d :: 0 <= d < |adjSeed| ==> ScatterFits(a, adjSeed[d], adjSens[d])
    ensures output' == GatherResult(a, input, output)
    ensures |fwdSens'| == |fwdSens|
    ensures forall d :: 0 <= d < |fwdSens| ==> fwdSens'[d] == GatherResult(a, fwdSeed[d], fwdSens[d])
    ensures |adjSeed'| == |adjSeed| && |adjSens'| == |adjSens|
    ensures forall d :: 0 <= d < |adjSeed| ==> adjSeed'[d] == ScatterSeed(a, adjSeed[d], adjSens[d], 0.0)
    ensures forall d :: 0 <= d < |adjSeed| ==> adjSens'[d] == ScatterSens(a, adjSeed[d], adjSens[d], Add)
    ensures forall d :: |adjSeed| <= d < |adjSens| ==> adjSens'[d] == adjSens[d]
  {
    output' := ApplyGather(a, input, output);
    fwdSens' := fwdSens;
    var d := 0;
    while d < |fwdSens|
      invariant 0 <= d <= |fwdSens| && |fwdSens'| == |fwdSens|
      invariant forall j :: 0 <= j < d ==> fwdSens'[j] == GatherResult(a, fwdSeed[j], fwdSens[j])
      invariant forall j :: d <= j < |fwdSens| ==> fwdSens'[j] == fwdSens[j]
    {
      var out := ApplyGather(a, fwdSeed[d], fwdSens[d]);
      fwdSens' := fwdSens'[d := out];
      d := d + 1;
    }
    adjSeed', adjSens' := adjSeed, adjSens;
    d := 0;
    while d < |adjSeed|
      invariant 0 <= d <= |adjSeed| && |adjSeed'| == |adjSeed| && |adjSens'| == |adjSens|
      invariant forall j :: 0 <= j < d ==> adjSeed'[j] == ScatterSeed(a, adjSeed[j], adjSens[j], 0.0)
      invariant forall j :: 0 <= j < d ==> adjSens'[j] == ScatterSens(a, adjSeed[j], adjSens[j], Add)
      invariant forall j :: d <= j < |adjSeed| ==> adjSeed'[j] == adjSeed[j]
      invariant forall j :: d <= j < |adjSens| ==> adjSens'[j] == adjSens[j]
    {
      var seed, sens := ApplyScatter(a, adjSeed[d], adjSens[d], Add, 0.0);
      adjSeed', adjSens' := adjSeed'[d := seed], adjSens'[d := sens];
      d := d + 1;
    }
  }

  /** What the adjoint pass does to a sensitivity buffer: each slot gains the
      sum of the seeds that target it, and untargeted slots keep their value. */
  lemma AdjointEffect(a: seq<int>, seed: seq<real>, sens: seq<real>, p: int)
    requires |seed| == |a| && InRange(a, |sens|) && 0 <= p < |sens|
    ensures ScatterSens(a, Some(seed), Some(sens), Add).value[p] == sens[p] + AdjointIncrement(a, seed, |sens|)[p]
    ensures (forall k :: 0 <= k < |a| ==> a[k] != p) ==> ScatterSens(a, Some(seed), Some(sens), Add).value[p] == sens[p]
  {
    FoldAddShift(a, seed, p, |a|, sens[p]);
    if forall k :: 0 <= k < |a| ==> a[k] != p {
      UntargetedUnchanged(Add, a, seed, p, |a|, 0.0);
    }
  }

  /** Sparsity propagation on dependency bits. Forward: each output bit copies
      the bit of the source it reads. Backward: each source bit is OR-ed with
      the output bits that read it, and the output bits are cleared. Nothing
      changes when either buffer is absent. */
  method PropagateSparsity(a: seq<int>, input: Option<seq<bool>>, output: Option<seq<bool>>, fwd: bool)
    returns (input': Option<seq<bool>>, output': Option<seq<bool>>)
    requires input.Some? && output.Some? ==> InRange(a, |input.value|) && |output.value| == |a|
    ensures fwd ==> input' == input && output' == GatherResult(a, input, output)
    ensures !fwd ==> input' == ScatterSens(a, output, input, Or) && output' == ScatterSeed(a, output, input, false)
  {
    input', output' := input, output;
    if fwd {
      output' := ApplyGather(a, input, output);
    } else {
      output', input' := ApplyScatter(a, output, input, Or, false);
    }
  }

  /** Backward propagation marks source p iff it was marked or some output
      bit reading p was set. */
  lemma BackwardMarks(a: seq<int>, input: seq<bool>, output: seq<bool>, p: int)
    requires InRange(a, |input|) && |output| == |a| && 0 <= p < |input|
    ensures ScatterSens(a, Some(output), Some(input), Or).value[p]
            <==> input[p] || exists k :: 0 <= k < |a| && a[k] == p && output[k]
  {
    BackwardBitIff(a, output, p, |a|, input[p]);
  }

  // ---------------------------------------------------------------------
  // Queries

  /** An integer matrix given by its dimensions and its stored entries. */
  datatype IntMatrix = IntMatrix(nrows: nat, ncols: nat, entries: map<(int, int), int>)

  /** `mapping(iind)`: the matrix of the node's shape storing, at the position
      of each output nonzero, the source nonzero it reads. Only input 0 of a
      node with one dependency can be asked for. */
  method MappingOf(e: MX, iind: int) returns (r: Result<IntMatrix, Error>)
    requires e.GetNonzeros? && e.sp.Valid() && |e.assigns| == e.sp.Size()
    ensures r.Ok? <==> |e.deps| == 1 && iind == 0
    ensures |e.deps| != 1 ==> r == Err(DependencyCount)
    ensures |e.deps| == 1 && iind != 0 ==> r == Err(BadInput)
    ensures r.Ok? ==> r.value.nrows == e.sp.nrows && r.value.ncols == e.sp.ncols
    ensures r.Ok? ==> forall k :: 0 <= k < |e.assigns| ==>
              (e.sp.row[k], e.sp.col[k]) in r.value.entries && r.value.entries[(e.sp.row[k], e.sp.col[k])] == e.assigns[k]
    ensures r.Ok? ==> forall rc :: rc in r.value.entries ==>
              exists k :: 0 <= k < |e.assigns| && rc == (e.sp.row[k], e.sp.col[k])
  {
    if |e.deps| != 1 {
      return Err(DependencyCount);
    }
    if iind != 0 {
      return Err(BadInput);
    }
    var sp := e.sp;
    var m: map<(int, int), int> := map[];
    var k := 0;
    while k < |e.assigns|
      invariant 0 <= k <= |e.assigns|
      invariant forall j :: 0 <= j < k ==> (sp.row[j], sp.col[j]) in m && m[(sp.row[j], sp.col[j])] == e.assigns[j]
      invariant forall rc :: rc in m ==> exists j :: 0 <= j < k && rc == (sp.row[j], sp.col[j])
    {
      forall j | 0 <= j < k
        ensures (sp.row[j], sp.col[j]) != (sp.row[k], sp.col[k])
      {
        assert Linear(sp.row[j], sp.col[j], sp.nrows) != Linear(sp.row[k], sp.col[k], sp.nrows);
      }
      m := m[(sp.row[k], sp.col[k]) := e.assigns[k]];
      k := k + 1;
    }
    r := Ok(IntMatrix(sp.nrows, sp.ncols, m));
  }

  /** `getDepInd`: the dependency each output nonzero reads from, always 0. */
  function DepInd(e: MX): (r: seq<int>)
    ensures |r| == e.sp.Size()
  {
    seq(e.sp.Size(), _ => 0)
  }

  /** In a built node, every output nonzero names its one dependency. */
  lemma DepIndNamesDependency(e: MX, k: int)
    requires Built(e) && 0 <= k < e.sp.Size()
    ensures DepInd(e)[k] == 0 && e.deps[DepInd(e)[k]] == e.deps[0]
    ensures e.assigns[k] < e.deps[DepInd(e)[k]].sp.Size()
  {
  }

  /** The node selects its dependency unchanged: same pattern, and output
      nonzero k reads source nonzero k. */
  ghost predicate Identity(e: MX)
    requires e.GetNonzeros? && |e.deps| >= 1
  {
    e.sp == e.deps[0].sp && forall k :: 0 <= k < |e.assigns| ==> e.assigns[k] == k
  }

  /** `isIdentity`: compare the patterns, then check the table entry by entry. */
  method IsIdentity(e: MX) returns (b: bool)
    requires e.GetNonzeros? && |e.deps| >= 1
    ensures b <==> Identity(e)
  {
    if e.sp != e.deps[0].sp {
      return false;
    }
    var k := 0;
    while k < |e.assigns|
      invariant 0 <= k <= |e.assigns|
      invariant forall j :: 0 <= j < k ==> e.assigns[j] == j
    {
      if e.assigns[k] != k {
        return false;
      }
      k := k + 1;
    }
    return true;
  }

  /** An identity node evaluates to its input unchanged. */
  lemma IdentityEvaluatesToInput(e: MX, x: seq<real>)
    requires Built(e) && Identity(e) && |x| == e.deps[0].sp.Size()
    ensures Gathered(e.assigns, x) == x
  {
  }

  /** `simplifyMe`: an identity node is replaced by its dependency; any other
      node is kept. */
  method SimplifyMe(e: MX) returns (ex: MX)
    requires e.GetNonzeros? && |e.deps| >= 1
    ensures Identity(e) ==> ex == e.deps[0]
    ensures !Identity(e) ==> ex == e
  {
    ex := e;
    var id := IsIdentity(e);
    if id {
      ex := e.deps[0];
    }
  }

  // ---------------------------------------------------------------------
  // Generated code

  /** The loops of the generated code: zero `nout` result entries, then for
      each runtime pair i, `res[second] += arg[first]`. Each result entry is
      the sum, in pair order, of the arguments paired with it. */
  method CodegenLoop(runtime: seq<(int, int)>, nout: nat, arg: seq<real>) returns (res: seq<real>)
    requires forall i :: 0 <= i < |runtime| ==> 0 <= runtime[i].0 < |arg| && 0 <= runtime[i].1 < nout
    ensures |res| == nout
    ensures forall o :: 0 <= o < nout ==>
              res[o] == TargetSum(Seconds(runtime), ReadArgs(runtime, arg), o, |runtime|)
  {
    res := seq(nout, _ => 0.0);
    var i := 0;
    while i < |runtime|
      invariant 0 <= i <= |runtime| && |res| == nout
      invariant forall o :: 0 <= o < nout ==> res[o] == TargetSum(Seconds(runtime), ReadArgs(runtime, arg), o, i)
    {
      res := res[runtime[i].1 := res[runtime[i].1] + arg[runtime[i].0]];
      i := i + 1;
    }
  }

  /** The output index of every runtime pair. */
  function Seconds(runtime: seq<(int, int)>): (r: seq<int>)
    ensures |r| == |runtime|
  {
    seq(|runtime|, i requires 0 <= i < |runtime| => runtime[i].1)
  }

  /** The argument entry every runtime pair reads. */
  function ReadArgs(runtime: seq<(int, int)>, arg: seq<real>): (r: seq<real>)
    requires forall i :: 0 <= i < |runtime| ==> 0 <= runtime[i].0 < |arg|
    ensures |r| == |runtime|
  {
    seq(|runtime|, i requires 0 <= i < |runtime| => arg[runtime[i].0])
  }

  /** Summing over the pairs of the runtime table, whose outputs are 0..n-1 in
      order, picks out exactly the one value paired with each output. */
  lemma {:induction false} SumOverOwnPosition(a: seq<int>, vals: seq<real>, o: int, m: nat)
    requires |vals| == |a| && m <= |a| && 0 <= o < |a|
    ensures TargetSum(Seconds(RuntimeTable(a)), vals, o, m) == if o < m then vals[o] else 0.0
  {
    if m > 0 {
      SumOverOwnPosition(a, vals, o, m - 1);
    }
  }

  /** `generateOperation`: the emitted code of an initialised node computes
      exactly what value evaluation computes. */
  method GenerateOperation(e: MX, arg: seq<real>) returns (res: seq<real>)
    requires Initialized(e) && |arg| == e.deps[0].sp.Size()
    ensures res == Gathered(e.assigns, arg)
  {
    res := CodegenLoop(e.runtime, e.sp.Size(), arg);
    forall o | 0 <= o < |res|
      ensures res[o] == arg[e.assigns[o]]
    {
      SumOverOwnPosition(e.assigns, ReadArgs(e.runtime, arg), o, |e.assigns|);
    }
  }
}
