// What one round of integer k-means computes, shared by the vector-of-vectors
// version (prusti/kmeans/kmeans.rs) and the matrix version
// (prusti/kmeans_2d.rs): each point joins its nearest center, and each new
// center is the sum of its points divided by their count.

module KMeansSpec {
  import opened RustInts

  /** Every row has `cols` entries. */
  predicate Rect(rows: seq<seq<int>>, cols: nat) {
    forall i :: 0 <= i < |rows| ==> |rows[i]| == cols
  }

  function Zeros(n: nat): (z: seq<int>)
    ensures |z| == n && forall i :: 0 <= i < n ==> z[i] == 0
  {
    seq(n, _ => 0)
  }

  /** Entry-wise sum of two points. */
  function VecAdd(x: seq<int>, y: seq<int>): (r: seq<int>)
    requires |x| == |y|
    ensures |r| == |x| && forall i :: 0 <= i < |x| ==> r[i] == x[i] + y[i]
  {
    seq(|x|, i requires 0 <= i < |x| => x[i] + y[i])
  }

  /** Squared Euclidean distance, summed from the first coordinate on. */
  function SqDist(x: seq<int>, y: seq<int>): int
    requires |x| == |y|
    decreases |x|
  {
    if |x| == 0 then 0
    else
      var d := x[|x| - 1] - y[|y| - 1];
      SqDist(x[..|x| - 1], y[..|y| - 1]) + d * d
  }

  lemma SquareFacts(d: int)
    ensures d * d >= 0 && (d * d == 0 <==> d == 0)
  {
    if d > 0 {
      assert d * d >= d;
    } else if d < 0 {
      assert d * d == (-d) * (-d) >= -d;
    }
  }

  /** The distance is never negative, and it is 0 exactly between equal
      points. */
  lemma {:induction false} SqDistZeroIffEqual(x: seq<int>, y: seq<int>)
    requires |x| == |y|
    ensures SqDist(x, y) >= 0
    ensures SqDist(x, y) == 0 <==> x == y
    decreases |x|
  {
    if |x| > 0 {
      var n := |x| - 1;
      SqDistZeroIffEqual(x[..n], y[..n]);
      SquareFacts(x[n] - y[n]);
      assert x == x[..n] + [x[n]] && y == y[..n] + [y[n]];
    }
  }

  /** The distance is symmetric. */
  lemma {:induction false} SqDistSymmetric(x: seq<int>, y: seq<int>)
    requires |x| == |y|
    ensures SqDist(x, y) == SqDist(y, x)
    decreases |x|
  {
    if |x| > 0 {
      var n := |x| - 1;
      SqDistSymmetric(x[..n], y[..n]);
      assert (x[n] - y[n]) * (x[n] - y[n]) == (y[n] - x[n]) * (y[n] - x[n]);
    }
  }

  /** The nearest-center scan from state (`i`, `res`, `min`): a center
      strictly closer than `min` becomes the answer. */
  function NearestLoop(p: seq<int>, cs: seq<seq<int>>, i: nat, res: nat, min: int): (r: nat)
    requires Rect(cs, |p|) && res < |cs|
    ensures r < |cs|
    decreases |cs| - i
  {
    if i >= |cs| then res
    else
      var d := SqDist(cs[i], p);
      if d < min then NearestLoop(p, cs, i + 1, i, d)
      else NearestLoop(p, cs, i + 1, res, min)
  }

  /** The center a point joins: the scan from `res = 0`, `min = i32::MAX`. */
  function NearestOf(p: seq<int>, cs: seq<seq<int>>): (r: nat)
    requires |cs| > 0 && Rect(cs, |p|)
    ensures r < |cs|
  {
    NearestLoop(p, cs, 0, 0, I32_MAX)
  }

  /** The scan from `i` on: when no remaining center is closer than `min`
      it keeps `res`; otherwise it ends on the first remaining center of
      least distance. */
  lemma {:induction false} NearestLoopMeaning(p: seq<int>, cs: seq<seq<int>>, i: nat, res: nat, min: int)
    requires Rect(cs, |p|) && res < |cs|
    ensures var r := NearestLoop(p, cs, i, res, min);
      && ((forall j :: i <= j < |cs| ==> SqDist(cs[j], p) >= min) ==> r == res)
      && ((exists j :: i <= j < |cs| && SqDist(cs[j], p) < min) ==>
          && i <= r && SqDist(cs[r], p) < min
          && (forall j :: i <= j < |cs| ==> SqDist(cs[r], p) <= SqDist(cs[j], p))
          && (forall j :: i <= j < r ==> SqDist(cs[j], p) > SqDist(cs[r], p)))
    decreases |cs| - i
  {
    if i < |cs| {
      var d := SqDist(cs[i], p);
      if d < min {
        NearestLoopMeaning(p, cs, i + 1, i, d);
      } else {
        NearestLoopMeaning(p, cs, i + 1, res, min);
      }
    }
  }

  /** A point joins the first center of least distance when that distance is
      below `i32::MAX`, and center 0 otherwise. */
  lemma NearestIsFirstClosest(p: seq<int>, cs: seq<seq<int>>)
    requires |cs| > 0 && Rect(cs, |p|)
    ensures var r := NearestOf(p, cs);
      && ((forall j :: 0 <= j < |cs| ==> SqDist(cs[j], p) >= I32_MAX) ==> r == 0)
      && ((exists j :: 0 <= j < |cs| && SqDist(cs[j], p) < I32_MAX) ==>
          && SqDist(cs[r], p) < I32_MAX
          && (forall j :: 0 <= j < |cs| ==> SqDist(cs[r], p) <= SqDist(cs[j], p))
          && (forall j :: 0 <= j < r ==> SqDist(cs[j], p) > SqDist(cs[r], p)))
  {
    NearestLoopMeaning(p, cs, 0, 0, I32_MAX);
  }

  /** The sum of the points that join center `j`. */
  function ClusterSum(ps: seq<seq<int>>, cs: seq<seq<int>>, n: nat, j: nat): (r: seq<int>)
    requires |cs| > 0 && Rect(cs, n) && Rect(ps, n)
    ensures |r| == n
    decreases |ps|
  {
    if |ps| == 0 then Zeros(n)
    else
      var s := ClusterSum(ps[..|ps| - 1], cs, n, j);
      if NearestOf(ps[|ps| - 1], cs) == j then VecAdd(s, ps[|ps| - 1]) else s
  }

  /** How many points join center `j`. */
  function ClusterCount(ps: seq<seq<int>>, cs: seq<seq<int>>, n: nat, j: nat): nat
    requires |cs| > 0 && Rect(cs, n) && Rect(ps, n)
    decreases |ps|
  {
    if |ps| == 0 then 0
    else
      var c := ClusterCount(ps[..|ps| - 1], cs, n, j);
      if NearestOf(ps[|ps| - 1], cs) == j then c + 1 else c
  }

  /** The counts of the first `k` centers added up. */
  function CountsUpTo(ps: seq<seq<int>>, cs: seq<seq<int>>, n: nat, k: nat): nat
    requires |cs| > 0 && Rect(cs, n) && Rect(ps, n)
  {
    if k == 0 then 0 else CountsUpTo(ps, cs, n, k - 1) + ClusterCount(ps, cs, n, k - 1)
  }

  lemma {:induction false} CountsUpToStep(ps: seq<seq<int>>, cs: seq<seq<int>>, n: nat, k: nat)
    requires |cs| > 0 && Rect(cs, n) && Rect(ps, n) && |ps| > 0
    ensures CountsUpTo(ps, cs, n, k) ==
      CountsUpTo(ps[..|ps| - 1], cs, n, k) + (if NearestOf(ps[|ps| - 1], cs) < k then 1 else 0)
  {
    if k > 0 {
      CountsUpToStep(ps, cs, n, k - 1);
    }
  }

  /** Every point joins exactly one center: the counts add up to the number
      of points. */
  lemma {:induction false} CountsCoverPoints(ps: seq<seq<int>>, cs: seq<seq<int>>, n: nat)
    requires |cs| > 0 && Rect(cs, n) && Rect(ps, n)
    ensures CountsUpTo(ps, cs, n, |cs|) == |ps|
    decreases |ps|
  {
    if |ps| == 0 {
      ZeroCounts(ps, cs, n, |cs|);
    } else {
      CountsUpToStep(ps, cs, n, |cs|);
      CountsCoverPoints(ps[..|ps| - 1], cs, n);
    }
  }

  lemma {:induction false} ZeroCounts(ps: seq<seq<int>>, cs: seq<seq<int>>, n: nat, k: nat)
    requires |cs| > 0 && Rect(cs, n) && Rect(ps, n) && |ps| == 0
    ensures CountsUpTo(ps, cs, n, k) == 0
  {
    if k > 0 {
      ZeroCounts(ps, cs, n, k - 1);
    }
  }

  /** `x` divided entry-wise by `n as i32` (`i32_div`, truncating); dividing
      an entry by zero panics. */
  function Normalized(x: seq<int>, n: nat): (r: Outcome<seq<int>>)
    ensures r.Panic? <==> |x| > 0 && AsI32(n) == 0
    ensures r.Done? ==> |r.value| == |x|
  {
    if |x| > 0 && AsI32(n) == 0 then Panic
    else Done(seq(|x|, i requires 0 <= i < |x| => TruncDiv(x[i], AsI32(n))))
  }

  /** One round: center `j` becomes the sum of its points divided by their
      count. It panics when points have coordinates and some center gets no
      points (or a count whose `i32` cast is 0). */
  ghost function Step(n: nat, cs: seq<seq<int>>, ps: seq<seq<int>>): (r: Outcome<seq<seq<int>>>)
    requires |cs| > 0 && Rect(cs, n) && Rect(ps, n)
    ensures r.Done? ==> |r.value| == |cs| && Rect(r.value, n)
  {
    if n > 0 && exists j :: 0 <= j < |cs| && AsI32(ClusterCount(ps, cs, n, j)) == 0 then Panic
    else Done(seq(|cs|, j requires 0 <= j < |cs| =>
      Normalized(ClusterSum(ps, cs, n, j), ClusterCount(ps, cs, n, j)).value))
  }

  /** `t` rounds from `cs`; a panic ends the run. */
  ghost function Iterate(n: nat, cs: seq<seq<int>>, ps: seq<seq<int>>, t: nat): (r: Outcome<seq<seq<int>>>)
    requires |cs| > 0 && Rect(cs, n) && Rect(ps, n)
    ensures r.Done? ==> |r.value| == |cs| && Rect(r.value, n)
    decreases t
  {
    if t == 0 then Done(cs)
    else
      match Step(n, cs, ps)
      case Panic => Panic
      case Done(next) => Iterate(n, next, ps, t - 1)
  }

  /** One more round is one more step after the last round. */
  lemma {:induction false} IterateOneMore(n: nat, cs: seq<seq<int>>, ps: seq<seq<int>>, t: nat)
    requires |cs| > 0 && Rect(cs, n) && Rect(ps, n)
    ensures Iterate(n, cs, ps, t + 1) ==
      match Iterate(n, cs, ps, t)
      case Panic => Panic
      case Done(last) => Step(n, last, ps)
    decreases t
  {
    if t > 0 {
      match Step(n, cs, ps)
      case Panic =>
      case Done(next) => IterateOneMore(n, next, ps, t - 1);
    }
  }

  /** Once a run has panicked, longer runs panic too. */
  lemma {:induction false} IteratePanicStays(n: nat, cs: seq<seq<int>>, ps: seq<seq<int>>, t: nat, more: nat)
    requires |cs| > 0 && Rect(cs, n) && Rect(ps, n)
    requires Iterate(n, cs, ps, t).Panic?
    ensures Iterate(n, cs, ps, t + more).Panic?
    decreases more
  {
    if more > 0 {
      IteratePanicStays(n, cs, ps, t, more - 1);
      IterateOneMore(n, cs, ps, t + more - 1);
    }
  }
}
