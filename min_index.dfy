// The index of the smallest element of a vector, in four versions: two
// while loops (prusti/ex2_min_index_loop.rs, cleaned/flux/min_index.rs) and
// two reductions with a step closure (src/ex2_min_index_loop.rs,
// src/ex3_min_index_iter.rs). All of them pick the first index of a
// minimum, because the step only moves on a strictly smaller element.

module MinIndexSpec {

  /** `r` is the first index of a least element among the first `n`. */
  predicate FirstMinOf(s: seq<int>, n: nat, r: nat)
    requires n <= |s|
  {
    && r < n
    && (forall i :: 0 <= i < n ==> s[r] <= s[i])
    && (forall i :: 0 <= i < r ==> s[i] > s[r])
  }

  /** There is only one first index of a minimum. */
  lemma FirstMinUnique(s: seq<int>, n: nat, r1: nat, r2: nat)
    requires n <= |s| && FirstMinOf(s, n, r1) && FirstMinOf(s, n, r2)
    ensures r1 == r2
  {
    assert s[r1] == s[r2];
    assert !(r1 < r2) && !(r2 < r1);
  }

  /** One step of the scan: move to `i` only on a strictly smaller
      element. */
  function MinStep(s: seq<int>, i: nat, acc: nat): (r: nat)
    requires i < |s| && acc < |s|
    ensures r == i || r == acc
  {
    if s[i] < s[acc] then i else acc
  }

  /** The scan keeps the first index of a minimum of the prefix it has
      seen. */
  lemma MinStepExtends(s: seq<int>, i: nat, acc: nat)
    requires i < |s| && FirstMinOf(s, i, acc)
    ensures FirstMinOf(s, i + 1, MinStep(s, i, acc))
  {
  }

  /** The vector the tests use. */
  const TestVector: seq<int> := [11, 30, 2, 12, 41, 10, 15, 32, 1, 99]

  /** Its first minimum is at index 8. */
  lemma TestVectorFirstMin()
    ensures FirstMinOf(TestVector, |TestVector|, 8)
  {
  }
}

/** prusti/ex2_min_index_loop.rs */
module MinIndexPrusti {
  import opened MinIndexSpec

  /** `min_index`: a non-empty vector's first index of a minimum. */
  method MinIndex(vec: seq<int>) returns (r: nat)
    requires |vec| > 0
    ensures r < |vec|
    ensures FirstMinOf(vec, |vec|, r)
  {
    var res := 0;
    var sz := |vec|;
    var i := 0;
    while i < sz
      invariant i <= sz && res < sz
      invariant i > 0 ==> FirstMinOf(vec, i, res)
      invariant i == 0 ==> res == 0
    {
      res := if vec[i] < vec[res] then i else res;
      i := i + 1;
    }
    r := res;
  }
}

/** cleaned/flux/min_index.rs */
module MinIndexFlux {
  import opened MinIndexSpec

  /** `min_index`: a non-empty vector's first index of a minimum. */
  method MinIndex(vec: seq<int>) returns (r: nat)
    requires |vec| > 0
    ensures r < |vec|
    ensures FirstMinOf(vec, |vec|, r)
  {
    var sz := |vec|;
    var res: nat := 0;
    var i: nat := 0;
    while i < sz
      invariant i <= sz && res < sz
      invariant i > 0 ==> FirstMinOf(vec, i, res)
      invariant i == 0 ==> res == 0
    {
      res := if vec[i] < vec[res] then i else res;
      i := i + 1;
    }
    r := res;
  }
}

/** The reductions of src/ex2_min_index_loop.rs and src/ex3_min_index_iter.rs,
    over a step `f` that may ask something of the accumulator; `inv` is
    what the accumulator keeps, which makes every step allowed. */
module Reductions {

  ghost predicate Closed<A(!new), B>(vec: seq<B>, f: (nat, A, B) --> A, inv: A -> bool) {
    forall i: nat, a: A :: i < |vec| && inv(a) ==> f.requires(i, a, vec[i]) && inv(f(i, a, vec[i]))
  }

  /** `f` applied at `0 .. n - 1` in order, starting from `acc`. */
  ghost function ReduceTo<A(!new), B>(acc: A, vec: seq<B>, f: (nat, A, B) --> A, inv: A -> bool, n: nat): (r: A)
    requires n <= |vec| && inv(acc) && Closed(vec, f, inv)
    ensures inv(r)
    decreases n
  {
    if n == 0 then acc else f(n - 1, ReduceTo(acc, vec, f, inv, n - 1), vec[n - 1])
  }
}

/** src/ex2_min_index_loop.rs */
module MinIndexLoop {
  import opened MinIndexSpec
  import opened Reductions

  /** `w_reduce`: a while loop applying `f` to each index in order. */
  method WReduce<A(!new), B>(acc: A, vec: seq<B>, f: (nat, A, B) --> A, ghost inv: A -> bool) returns (res: A)
    requires inv(acc) && Closed(vec, f, inv)
    ensures res == ReduceTo(acc, vec, f, inv, |vec|)
  {
    res := acc;
    var sz := |vec|;
    var i := 0;
    while i < sz
      invariant i <= sz
      invariant res == ReduceTo(acc, vec, f, inv, i)
    {
      res := f(i, res, vec[i]);
      i := i + 1;
    }
  }

  /** The `step` closure over `vec`. */
  function StepOf(vec: seq<int>): (nat, nat, int) --> nat {
    (i: nat, acc: nat, val: int) requires acc < |vec| => if val < vec[acc] then i else acc
  }

  /** What the accumulator keeps: an index of `vec`, or 0. */
  function InRange(vec: seq<int>): nat -> bool {
    acc => acc == 0 || acc < |vec|
  }

  /** The reduction of `step` is the first index of a minimum of the
      prefix. */
  lemma {:induction false} ReduceStepIsFirstMin(vec: seq<int>, n: nat)
    requires 0 < n <= |vec|
    ensures Closed(vec, StepOf(vec), InRange(vec))
    ensures FirstMinOf(vec, n, ReduceTo(0, vec, StepOf(vec), InRange(vec), n))
  {
    if n > 1 {
      ReduceStepIsFirstMin(vec, n - 1);
      var acc := ReduceTo(0, vec, StepOf(vec), InRange(vec), n - 1);
      assert StepOf(vec)(n - 1, acc, vec[n - 1]) == MinStep(vec, n - 1, acc);
      MinStepExtends(vec, n - 1, acc);
    }
  }

  /** `min_index`: the first index of a minimum; 0 for an empty vector. */
  method MinIndex(vec: seq<int>) returns (r: nat)
    ensures |vec| == 0 ==> r == 0
    ensures |vec| > 0 ==> FirstMinOf(vec, |vec|, r)
  {
    var step := StepOf(vec);
    assert Closed(vec, step, InRange(vec));
    r := WReduce(0, vec, step, InRange(vec));
    if |vec| > 0 {
      ReduceStepIsFirstMin(vec, |vec|);
    }
  }

  /** `test`: the test vector gives 8. */
  lemma TestGivesEight()
    ensures Closed(TestVector, StepOf(TestVector), InRange(TestVector))
    ensures ReduceTo(0, TestVector, StepOf(TestVector), InRange(TestVector), 10) == 8
  {
    ReduceStepIsFirstMin(TestVector, 10);
    TestVectorFirstMin();
    FirstMinUnique(TestVector, 10, ReduceTo(0, TestVector, StepOf(TestVector), InRange(TestVector), 10), 8);
  }
}

/** src/ex3_min_index_iter.rs */
module MinIndexIter {
  import opened MinIndexSpec
  import opened Reductions
  import MinIndexLoop

  /** `reduce`: a for loop over `enumerate`, applying `f` to each index in
      order. */
  method Reduce<A(!new), B>(acc: A, vec: seq<B>, f: (nat, A, B) --> A, ghost inv: A -> bool) returns (res: A)
    requires inv(acc) && Closed(vec, f, inv)
    ensures res == ReduceTo(acc, vec, f, inv, |vec|)
  {
    res := acc;
    for i := 0 to |vec|
      invariant res == ReduceTo(acc, vec, f, inv, i)
    {
      var val := vec[i];
      res := f(i, res, val);
    }
  }

  /** `min_index`: the first index of a minimum; 0 for an empty vector. */
  method MinIndex(vec: seq<int>) returns (r: nat)
    ensures |vec| == 0 ==> r == 0
    ensures |vec| > 0 ==> FirstMinOf(vec, |vec|, r)
  {
    var step := MinIndexLoop.StepOf(vec);
    assert Closed(vec, step, MinIndexLoop.InRange(vec));
    r := Reduce(0, vec, step, MinIndexLoop.InRange(vec));
    if |vec| > 0 {
      MinIndexLoop.ReduceStepIsFirstMin(vec, |vec|);
    }
  }
}
