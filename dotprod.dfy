// The dot product of two vectors of equal length (prusti/dotprod.rs).
// Overflow checks are off in the benchmark runs, so sums are unbounded.

module DotProd {

  /** The sum of `v1[i] * v2[i]`, added from index 0 on. */
  function Dot(v1: seq<int>, v2: seq<int>): int
    requires |v1| == |v2|
    decreases |v1|
  {
    if |v1| == 0 then 0
    else Dot(v1[..|v1| - 1], v2[..|v2| - 1]) + v1[|v1| - 1] * v2[|v2| - 1]
  }

  /** The dot product does not depend on the order of its arguments. */
  lemma {:induction false} DotCommutes(v1: seq<int>, v2: seq<int>)
    requires |v1| == |v2|
    ensures Dot(v1, v2) == Dot(v2, v1)
    decreases |v1|
  {
    if |v1| > 0 {
      DotCommutes(v1[..|v1| - 1], v2[..|v2| - 1]);
      assert v1[|v1| - 1] * v2[|v2| - 1] == v2[|v2| - 1] * v1[|v1| - 1];
    }
  }

  /** Appending one pair of entries adds their product. */
  lemma {:induction false} DotAppend(v1: seq<int>, v2: seq<int>, x: int, y: int)
    requires |v1| == |v2|
    ensures Dot(v1 + [x], v2 + [y]) == Dot(v1, v2) + x * y
  {
    assert (v1 + [x])[..|v1|] == v1 && (v2 + [y])[..|v2|] == v2;
  }

  /** Any vector against a vector of zeros gives 0. */
  lemma {:induction false} DotZeros(v1: seq<int>, v2: seq<int>)
    requires |v1| == |v2| && forall i :: 0 <= i < |v2| ==> v2[i] == 0
    ensures Dot(v1, v2) == 0
    decreases |v1|
  {
    if |v1| > 0 {
      DotZeros(v1[..|v1| - 1], v2[..|v2| - 1]);
    }
  }

  /** `dotprod`: the loop reads only indices below the length and returns
      the dot product; empty vectors give 0. */
  method DotProd(v1: seq<int>, v2: seq<int>) returns (sum: int)
    requires |v1| == |v2|
    ensures sum == Dot(v1, v2)
    ensures |v1| == 0 ==> sum == 0
  {
    var n := |v1|;
    sum := 0;
    var i := 0;
    while i < n
      invariant i <= n
      invariant sum == Dot(v1[..i], v2[..i])
    {
      var x1 := v1[i];
      var x2 := v2[i];
      DotAppend(v1[..i], v2[..i], x1, x2);
      assert v1[..i + 1] == v1[..i] + [x1] && v2[..i + 1] == v2[..i] + [x2];
      sum := sum + x1 * x2;
      i := i + 1;
    }
    assert v1[..n] == v1 && v2[..n] == v2;
  }
}
