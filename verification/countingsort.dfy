/** The stable counting sort that regroups the runtime table of a selection
    node by source nonzero: count the entries per source index, take the
    cumulative sum to get each group's first slot, then place the entries in
    table order. */
module CountingSort {
  import opened Permutations

  /** Number of k < m with keys[k] == v. */
  function CountEq(keys: seq<int>, v: int, m: nat): (c: nat)
    requires m <= |keys|
    ensures c <= m
  {
    if m == 0 then 0 else CountEq(keys, v, m - 1) + (if keys[m - 1] == v then 1 else 0)
  }

  /** Number of k < m with keys[k] < v. */
  function CountBelow(keys: seq<int>, v: int, m: nat): (c: nat)
    requires m <= |keys|
    ensures c <= m
  {
    if m == 0 then 0 else CountBelow(keys, v, m - 1) + (if keys[m - 1] < v then 1 else 0)
  }

  /** The keys below v + 1 are the keys below v and the keys equal to v:
      the step of the cumulative sum. */
  lemma {:induction false} BelowStep(keys: seq<int>, v: int, m: nat)
    requires m <= |keys|
    ensures CountBelow(keys, v + 1, m) == CountBelow(keys, v, m) + CountEq(keys, v, m)
  {
    if m > 0 {
      BelowStep(keys, v, m - 1);
    }
  }

  /** With non-negative keys nothing is below 0: the cumulative sum starts at 0. */
  lemma {:induction false} BelowZero(keys: seq<int>, m: nat)
    requires m <= |keys|
    requires forall k :: 0 <= k < |keys| ==> keys[k] >= 0
    ensures CountBelow(keys, 0, m) == 0
  {
    if m > 0 {
      BelowZero(keys, m - 1);
    }
  }

  /** CountBelow grows with the bound. */
  lemma {:induction false} BelowMonotone(keys: seq<int>, v: int, w: int, m: nat)
    requires m <= |keys| && v <= w
    ensures CountBelow(keys, v, m) <= CountBelow(keys, w, m)
  {
    if m > 0 {
      BelowMonotone(keys, v, w, m - 1);
    }
  }

  /** CountEq grows with the prefix. */
  lemma {:induction false} EqMonotone(keys: seq<int>, v: int, i: nat, j: nat)
    requires i <= j <= |keys|
    ensures CountEq(keys, v, i) <= CountEq(keys, v, j)
  {
    if i < j {
      EqMonotone(keys, v, i, j - 1);
    }
  }

  /** The slot the counting sort gives entry j: the number of entries with a
      smaller key plus the number of earlier entries with the same key. */
  ghost function Slot(keys: seq<int>, j: int): (s: nat)
    requires 0 <= j < |keys|
    ensures s < |keys|
  {
    SlotBound(keys, j);
    CountBelow(keys, keys[j], |keys|) + CountEq(keys, keys[j], j)
  }

  /** Entry j's slot lies inside its key's group, which ends before |keys|. */
  lemma SlotBound(keys: seq<int>, j: int)
    requires 0 <= j < |keys|
    ensures CountBelow(keys, keys[j], |keys|) + CountEq(keys, keys[j], j) < CountBelow(keys, keys[j] + 1, |keys|)
    ensures CountBelow(keys, keys[j] + 1, |keys|) <= |keys|
  {
    var v := keys[j];
    EqMonotone(keys, v, j + 1, |keys|);
    BelowStep(keys, v, |keys|);
  }

  /** Slots respect the key order, and table order among equal keys. */
  lemma SlotOrder(keys: seq<int>, i: int, j: int)
    requires 0 <= i < |keys| && 0 <= j < |keys|
    requires keys[i] < keys[j] || (keys[i] == keys[j] && i < j)
    ensures Slot(keys, i) < Slot(keys, j)
  {
    if keys[i] < keys[j] {
      SlotBound(keys, i);
      BelowMonotone(keys, keys[i] + 1, keys[j], |keys|);
    } else {
      EqMonotone(keys, keys[i], i + 1, j);
    }
  }

  /** Every slot is taken by exactly one entry: Slot is a bijection of
      0..|keys|-1, so a table that places each entry at its slot is its
      inverse. */
  lemma SlotInverse(keys: seq<int>, order: seq<int>)
    requires |order| == |keys|
    requires forall j :: 0 <= j < |keys| ==> order[Slot(keys, j)] == j
    ensures forall p :: 0 <= p < |order| ==> 0 <= order[p] < |keys| && Slot(keys, order[p]) == p
  {
    var slots := seq(|keys|, j requires 0 <= j < |keys| => Slot(keys, j));
    forall i, j | 0 <= i < j < |slots|
      ensures slots[i] != slots[j]
    {
      if keys[i] <= keys[j] {
        SlotOrder(keys, i, j);
      } else {
        SlotOrder(keys, j, i);
      }
    }
    forall p | 0 <= p < |order|
      ensures 0 <= order[p] < |keys| && Slot(keys, order[p]) == p
    {
      Covers(slots, p);
    }
  }

  /** Pass 1: count[v + 1] is the number of entries whose key is v. */
  method CountKeys(keys: seq<int>, nin: nat) returns (count: seq<int>)
    requires forall k :: 0 <= k < |keys| ==> 0 <= keys[k] < nin
    ensures |count| == nin + 1 && count[0] == 0
    ensures forall v :: 0 <= v < nin ==> count[v + 1] == CountEq(keys, v, |keys|)
  {
    count := seq(nin + 1, _ => 0);
    var k := 0;
    while k < |keys|
      invariant 0 <= k <= |keys| && |count| == nin + 1
      invariant count[0] == 0
      invariant forall v :: 0 <= v < nin ==> count[v + 1] == CountEq(keys, v, k)
    {
      count := count[keys[k] + 1 := count[keys[k] + 1] + 1];
      k := k + 1;
    }
  }

  /** Pass 2, the cumulative sum: count[v] becomes the first slot of group v,
      the number of entries with a smaller key. */
  method GroupStarts(keys: seq<int>, nin: nat, count0: seq<int>) returns (count: seq<int>)
    requires forall k :: 0 <= k < |keys| ==> 0 <= keys[k] < nin
    requires |count0| == nin + 1 && count0[0] == 0
    requires forall v :: 0 <= v < nin ==> count0[v + 1] == CountEq(keys, v, |keys|)
    ensures |count| == nin + 1
    ensures forall v :: 0 <= v <= nin ==> count[v] == CountBelow(keys, v, |keys|)
  {
    var n := |keys|;
    BelowZero(keys, n);
    count := count0;
    var i := 0;
    while i < nin
      invariant 0 <= i <= nin && |count| == nin + 1
      invariant forall v :: 0 <= v <= i ==> count[v] == CountBelow(keys, v, n)
      invariant forall v :: i <= v < nin ==> count[v + 1] == CountEq(keys, v, n)
    {
      BelowStep(keys, i, n);
      count := count[i + 1 := count[i + 1] + count[i]];
      i := i + 1;
    }
  }

  /** Pass 3: place each entry, in table order, at the next free slot of its
      key's group. */
  method Place(keys: seq<int>, nin: nat, count0: seq<int>) returns (order: seq<int>)
    requires forall k :: 0 <= k < |keys| ==> 0 <= keys[k] < nin
    requires |count0| == nin + 1
    requires forall v :: 0 <= v < nin ==> count0[v] == CountBelow(keys, v, |keys|)
    ensures |order| == |keys|
    ensures forall j :: 0 <= j < |keys| ==> order[Slot(keys, j)] == j
  {
    var n := |keys|;
    var count := count0;
    order := seq(n, _ => 0);
    var k := 0;
    while k < n
      invariant 0 <= k <= n && |count| == nin + 1 && |order| == n
      invariant forall v :: 0 <= v < nin ==> count[v] == CountBelow(keys, v, n) + CountEq(keys, v, k)
      invariant forall j :: 0 <= j < k ==> order[Slot(keys, j)] == j
    {
      forall j | 0 <= j < k
        ensures Slot(keys, j) != Slot(keys, k)
      {
        if keys[j] <= keys[k] {
          SlotOrder(keys, j, k);
        } else {
          SlotOrder(keys, k, j);
        }
      }
      var v := keys[k];
      assert count[v] == Slot(keys, k);
      order := order[count[v] := k];
      count := count[v := count[v] + 1];
      k := k + 1;
    }
  }

  /** The inverse of the slot map lists the keys in nondecreasing order,
      equal keys in table order. */
  lemma SlotsSorted(keys: seq<int>, order: seq<int>)
    requires |order| == |keys|
    requires forall j :: 0 <= j < |keys| ==> order[Slot(keys, j)] == j
    ensures IsPermutation(order)
    ensures forall i, j :: 0 <= i < j < |order| ==> keys[order[i]] <= keys[order[j]]
    ensures forall i, j :: 0 <= i < j < |order| && keys[order[i]] == keys[order[j]] ==> order[i] < order[j]
  {
    SlotInverse(keys, order);
    forall i, j | 0 <= i < j < |order|
      ensures keys[order[i]] < keys[order[j]] || (keys[order[i]] == keys[order[j]] && order[i] < order[j])
    {
      var a, b := order[i], order[j];
      if keys[b] < keys[a] || (keys[a] == keys[b] && b < a) {
        SlotOrder(keys, b, a);
      }
    }
  }

  /** The stable counting sort of `keys` (each below `nin`): `order[s]` is the
      table position placed in slot s. The slots visit the keys in
      nondecreasing order, equal keys in their table order, and every
      position exactly once. */
  method StableOrder(keys: seq<int>, nin: nat) returns (order: seq<int>)
    requires forall k :: 0 <= k < |keys| ==> 0 <= keys[k] < nin
    ensures |order| == |keys|
    ensures forall j :: 0 <= j < |keys| ==> order[Slot(keys, j)] == j
    ensures IsPermutation(order)
    ensures forall i, j :: 0 <= i < j < |order| ==> keys[order[i]] <= keys[order[j]]
    ensures forall i, j :: 0 <= i < j < |order| && keys[order[i]] == keys[order[j]] ==> order[i] < order[j]
  {
    var count := CountKeys(keys, nin);
    count := GroupStarts(keys, nin, count);
    order := Place(keys, nin, count);
    SlotsSorted(keys, order);
  }
}
