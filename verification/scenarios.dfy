/** Concrete instances of the selection node's behaviour. */
module Scenarios {
  import opened Options
  import opened Selection
  import opened NonzeroSelect

  /** Source nonzeros [x0, x1, x2, x3] selected by the table [2, 0, 2, 3]:
      the value is [x2, x0, x2, x3]; an adjoint seed [p, q, r, s] adds
      [q, 0, p + r, s] to the source's sensitivity, and the scatter leaves
      that sum in a zero sensitivity buffer and zeroes the seed. */
  lemma FourEntryScenario(x0: real, x1: real, x2: real, x3: real, p: real, q: real, r: real, s: real)
    ensures Gathered([2, 0, 2, 3], [x0, x1, x2, x3]) == [x2, x0, x2, x3]
    ensures AdjointIncrement([2, 0, 2, 3], [p, q, r, s], 4) == [q, 0.0, p + r, s]
    ensures ScatterSens([2, 0, 2, 3], Some([p, q, r, s]), Some([0.0, 0.0, 0.0, 0.0]), Add) == Some([q, 0.0, p + r, s])
    ensures ScatterSeed([2, 0, 2, 3], Some([p, q, r, s]), Some([0.0, 0.0, 0.0, 0.0]), 0.0) == Some([0.0, 0.0, 0.0, 0.0])
  {
    var a, w := [2, 0, 2, 3], [p, q, r, s];
    forall t | 0 <= t < 4
      ensures TargetSum(a, w, t, 4) == [q, 0.0, p + r, s][t]
    {
      assert FoldTargets(Add, a, w, t, 0, 0.0) == 0.0;
      assert FoldTargets(Add, a, w, t, 1, 0.0) == if t == 2 then p else 0.0;
      assert FoldTargets(Add, a, w, t, 2, 0.0) == if t == 2 then p else if t == 0 then q else 0.0;
      assert FoldTargets(Add, a, w, t, 3, 0.0) == if t == 2 then p + r else if t == 0 then q else 0.0;
    }
    var z := [0.0, 0.0, 0.0, 0.0];
    var sens := ScatterSens(a, Some(w), Some(z), Add).value;
    assert sens == [q, 0.0, p + r, s] by {
      forall t | 0 <= t < 4 ensures sens[t] == [q, 0.0, p + r, s][t] {
        assert sens[t] == TargetSum(a, w, t, 4);
      }
    }
    assert ScatterSeed(a, Some(w), Some(z), 0.0).value == z;
  }

  /** Two outputs reading the same source: each output gets the source value,
      and the adjoint sums both seeds into it. */
  lemma DuplicateTargetScenario(v: real, p: real, q: real)
    ensures Gathered([0, 0], [v]) == [v, v]
    ensures AdjointIncrement([0, 0], [p, q], 1) == [p + q]
  {
    assert FoldTargets(Add, [0, 0], [p, q], 0, 1, 0.0) == p;
    assert TargetSum([0, 0], [p, q], 0, 2) == p + q;
  }
}
