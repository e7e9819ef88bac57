// The maximum of a vector as a fold of a step function over its indices
// (src/arraymax.rs).

module ArrayMaximum {

  /** The result of folding `f` over the indices `0 .. n - 1` in order,
      starting from `b`. */
  function FoldTo<T(!new)>(a: seq<int>, b: T, f: (seq<int>, nat, T) --> T, n: nat): T
    requires n <= |a|
    requires forall i: nat, x: T :: i < |a| ==> f.requires(a, i, x)
    decreases n
  {
    if n == 0 then b else f(a, n - 1, FoldTo(a, b, f, n - 1))
  }

  /** `fold`: applies `f` to each index of `a` in order, threading the
      result. */
  method Fold<T(!new)>(a: seq<int>, b: T, f: (seq<int>, nat, T) --> T) returns (res: T)
    requires forall i: nat, x: T :: i < |a| ==> f.requires(a, i, x)
    ensures res == FoldTo(a, b, f, |a|)
  {
    var n := |a|;
    var i := 0;
    res := b;
    while i < n
      invariant i <= n
      invariant res == FoldTo(a, b, f, i)
    {
      res := f(a, i, res);
      i := i + 1;
    }
  }

  /** `step`: the larger of `arr[i]` and `cur`. */
  function Step(arr: seq<int>, i: nat, cur: int): (r: int)
    requires i < |arr|
    ensures r >= arr[i] && r >= cur
    ensures r == arr[i] || r == cur
  {
    if arr[i] > cur then arr[i] else cur
  }

  /** After `n` steps from 0 the running value is at least 0 and every
      element seen so far, and it is 0 or one of them. */
  lemma {:induction false} FoldStepIsMax(a: seq<int>, n: nat)
    requires n <= |a|
    ensures var m := FoldTo(a, 0, Step, n);
      && m >= 0
      && (forall i :: 0 <= i < n ==> m >= a[i])
      && (m == 0 || exists i :: 0 <= i < n && a[i] == m)
  {
    if n > 0 {
      FoldStepIsMax(a, n - 1);
      var prev := FoldTo(a, 0, Step, n - 1);
      if prev != 0 && Step(a, n - 1, prev) == prev {
        var i :| 0 <= i < n - 1 && a[i] == prev;
      }
    }
  }

  /** `arraymax`: the fold of `step` from 0. */
  method ArrayMax(a: seq<int>) returns (m: int)
    ensures m == FoldTo(a, 0, Step, |a|)
    ensures m >= 0 && forall i :: 0 <= i < |a| ==> m >= a[i]
    ensures m == 0 || m in a
    ensures |a| == 0 ==> m == 0
  {
    m := Fold(a, 0, Step);
    FoldStepIsMax(a, |a|);
  }

  /** The maximum of `[10, 20, 15]` is 20. */
  lemma ArrayMaxExample()
    ensures FoldTo([10, 20, 15], 0, Step, 3) == 20
  {
    var a := [10, 20, 15];
    assert FoldTo(a, 0, Step, 1) == 10;
    assert FoldTo(a, 0, Step, 2) == 20;
  }
}
