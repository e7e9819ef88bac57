// Integer k-means over vectors of vectors (prusti/kmeans/kmeans.rs): the
// vector wrappers, the point arithmetic that updates points in place, and
// the rounds that reassign points and recompute centers, each proved to
// compute what KMeansSpec defines.

module KMeans {
  import opened RustInts
  import opened KMeansSpec

  /** `VecWrapperUSize`: the cluster sizes. */
  class VecWrapperUSize {
    var v: seq<nat>

    constructor(v0: seq<nat>)
      ensures v == v0
    {
      v := v0;
    }

    function Len(): nat
      reads this
    {
      |v|
    }

    function Lookup(index: nat): nat
      reads this
      requires index < |v|
    {
      v[index]
    }

    /** A write through `index_mut`: only entry `index` changes. */
    method Store(index: nat, value: nat)
      modifies this
      requires index < |v|
      ensures v == old(v)[index := value]
    {
      v := v[index := value];
    }
  }

  /** `VecWrapperI32`: one point or center. */
  class VecWrapperI32 {
    var v: seq<int>

    constructor(v0: seq<int>)
      ensures v == v0
    {
      v := v0;
    }

    function Len(): nat
      reads this
    {
      |v|
    }

    function Lookup(index: nat): int
      reads this
      requires index < |v|
    {
      v[index]
    }

    /** `store` and writes through `index_mut`: only entry `index` changes. */
    method Store(index: nat, value: int)
      modifies this
      requires index < |v|
      ensures v == old(v)[index := value]
    {
      v := v[index := value];
    }
  }

  /** `VecWrapperVecI32`: a list of points, each held by value. */
  class VecWrapperVecI32 {
    var v: seq<seq<int>>

    /** `new`: the empty list. */
    constructor()
      ensures v == []
    {
      v := [];
    }

    function Len(): nat
      reads this
    {
      |v|
    }

    function Get(index: nat): seq<int>
      reads this
      requires index < |v|
    {
      v[index]
    }

    method Push(value: seq<int>)
      modifies this
      ensures v == old(v) + [value]
    {
      v := v + [value];
    }

    /** A point updated through `index_mut` and written back: only point
        `index` changes. */
    method StoreRow(index: nat, value: seq<int>)
      modifies this
      requires index < |v|
      ensures v == old(v)[index := value]
    {
      v := v[index := value];
    }
  }

  /** `from_elem_n_i32`: `n` copies of `elem`. */
  method FromElemNI32(elem: int, n: nat) returns (w: VecWrapperI32)
    ensures fresh(w)
    ensures |w.v| == n && forall i :: 0 <= i < n ==> w.v[i] == elem
  {
    var vec: seq<int> := [];
    var i := 0;
    while i < n
      invariant i <= n && |vec| == i
      invariant forall j :: 0 <= j < i ==> vec[j] == elem
    {
      vec := vec + [elem];
      i := i + 1;
    }
    w := new VecWrapperI32(vec);
  }

  /** `from_elem_n_usize`: `n` copies of `elem`. */
  method FromElemNUSize(elem: nat, n: nat) returns (w: VecWrapperUSize)
    ensures fresh(w)
    ensures |w.v| == n && forall i :: 0 <= i < n ==> w.v[i] == elem
  {
    var vec: seq<nat> := [];
    var i := 0;
    while i < n
      invariant i <= n && |vec| == i
      invariant forall j :: 0 <= j < i ==> vec[j] == elem
    {
      vec := vec + [elem];
      i := i + 1;
    }
    w := new VecWrapperUSize(vec);
  }

  /** `dist`: the squared distance between two points of equal length. */
  method Dist(x: seq<int>, y: seq<int>) returns (res: int)
    requires |x| == |y|
    ensures res == SqDist(x, y)
  {
    res := 0;
    var i := 0;
    while i < |x|
      invariant i <= |x|
      invariant res == SqDist(x[..i], y[..i])
    {
      var di := x[i] - y[i];
      res := res + di * di;
      i := i + 1;
      assert x[..i][..i - 1] == x[..i - 1] && y[..i][..i - 1] == y[..i - 1];
    }
    assert x[..i] == x && y[..i] == y;
  }

  /** `add`: adds `y` into `x` entry by entry and returns 0. */
  method Add(x: VecWrapperI32, y: seq<int>) returns (r: int)
    modifies x
    requires |x.v| == |y|
    ensures r == 0
    ensures x.v == VecAdd(old(x.v), y)
  {
    ghost var x0 := x.v;
    var i := 0;
    var n := x.Len();
    while i < n
      invariant i <= n && |x.v| == n
      invariant forall j :: 0 <= j < i ==> x.v[j] == x0[j] + y[j]
      invariant forall j :: i <= j < n ==> x.v[j] == x0[j]
    {
      var xi := x.Lookup(i);
      var yi := y[i];
      x.Store(i, xi + yi);
      i := i + 1;
    }
    r := 0;
  }

  /** `normal`: divides every entry of `x` by `n as i32`, truncating, and
      returns 0; dividing an entry by zero panics. */
  method Normal(x: VecWrapperI32, n: nat) returns (r: Outcome<int>)
    modifies x
    ensures r.Done? <==> Normalized(old(x.v), n).Done?
    ensures r.Done? ==> r.value == 0 && x.v == Normalized(old(x.v), n).value
  {
    ghost var x0 := x.v;
    var i := 0;
    while i < x.Len()
      invariant i <= |x.v| == |x0|
      invariant forall j :: 0 <= j < i ==> AsI32(n) != 0 && x.v[j] == TruncDiv(x0[j], AsI32(n))
      invariant forall j :: i <= j < |x.v| ==> x.v[j] == x0[j]
    {
      var xi := x.Lookup(i);
      var d := AsI32(n);
      if d == 0 {
        return Panic;
      }
      x.Store(i, TruncDiv(xi, d));
      i := i + 1;
    }
    if i > 0 {
      assert AsI32(n) != 0 && x.v[0] == TruncDiv(x0[0], AsI32(n));
    }
    r := Done(0);
  }

  /** `init_centers(n, k)`: `k` zero points of length `n`. */
  method InitCenters(n: nat, k: nat) returns (res: VecWrapperVecI32)
    requires k > 0
    ensures fresh(res)
    ensures |res.v| == k && forall i :: 0 <= i < k ==> res.v[i] == Zeros(n)
  {
    res := new VecWrapperVecI32();
    var i := 0;
    var zero := 0;
    while i < k
      invariant i <= k && |res.v| == i
      invariant forall j :: 0 <= j < i ==> res.v[j] == Zeros(n)
    {
      var center := FromElemNI32(zero, n);
      res.Push(center.v);
      i := i + 1;
    }
  }

  /** `nearest`: the center the point joins (see `NearestIsFirstClosest`). */
  method Nearest(p: seq<int>, cs: VecWrapperVecI32) returns (res: nat)
    requires |cs.v| > 0 && Rect(cs.v, |p|)
    ensures res < |cs.v|
    ensures res == NearestOf(p, cs.v)
  {
    var k := cs.Len();
    res := 0;
    var min := I32_MAX;
    var i := 0;
    while i < k
      invariant i <= k && res < k
      invariant NearestLoop(p, cs.v, i, res, min) == NearestOf(p, cs.v)
    {
      var ci := cs.Get(i);
      var di := Dist(ci, p);
      if di < min {
        res := i;
        min := di;
      }
      i := i + 1;
    }
  }

  /** `normalize_centers`: divides center `i` by `weights[i]` for every
      center; it panics on the first division by zero. */
  method NormalizeCenters(n: nat, cs: VecWrapperVecI32, weights: VecWrapperUSize) returns (r: Outcome<int>)
    modifies cs
    requires |cs.v| <= |weights.v|
    ensures r.Done? <==> forall i :: 0 <= i < |old(cs.v)| ==> Normalized(old(cs.v)[i], weights.v[i]).Done?
    ensures r.Done? ==> r.value == 0 && |cs.v| == |old(cs.v)|
    ensures r.Done? ==> forall i :: 0 <= i < |cs.v| ==> cs.v[i] == Normalized(old(cs.v)[i], weights.v[i]).value
  {
    ghost var c0 := cs.v;
    var k := cs.Len();
    var i := 0;
    while i < k
      invariant i <= k == |cs.v| == |c0|
      invariant forall j :: 0 <= j < i ==> Normalized(c0[j], weights.v[j]).Done?
      invariant forall j :: 0 <= j < i ==> cs.v[j] == Normalized(c0[j], weights.v[j]).value
      invariant forall j :: i <= j < k ==> cs.v[j] == c0[j]
    {
      var row := new VecWrapperI32(cs.Get(i));
      var o := Normal(row, weights.Lookup(i));
      if o.Panic? {
        return Panic;
      }
      cs.StoreRow(i, row.v);
      i := i + 1;
    }
    r := Done(0);
  }

  /** `kmeans_step`: one round, exactly as `Step` defines it. */
  method KMeansStep(n: nat, cs: VecWrapperVecI32, ps: VecWrapperVecI32) returns (r: Outcome<VecWrapperVecI32>)
    requires |cs.v| > 0 && Rect(cs.v, n) && Rect(ps.v, n)
    ensures r.Done? <==> Step(n, cs.v, ps.v).Done?
    ensures r.Done? ==> fresh(r.value) && r.value.v == Step(n, cs.v, ps.v).value
  {
    var k := cs.Len();
    var resPoints := InitCenters(n, k);
    var resSize := FromElemNUSize(0, k);
    var i := 0;
    while i < ps.Len()
      invariant i <= |ps.v|
      invariant fresh(resPoints) && fresh(resSize)
      invariant |resPoints.v| == k && |resSize.v| == k
      invariant forall j :: 0 <= j < k ==> resPoints.v[j] == ClusterSum(ps.v[..i], cs.v, n, j)
      invariant forall j :: 0 <= j < k ==> resSize.v[j] == ClusterCount(ps.v[..i], cs.v, n, j)
    {
      var p := ps.Get(i);
      assert ps.v[..i + 1][..i] == ps.v[..i] && ps.v[..i + 1][i] == p;
      var j := Nearest(p, cs);
      var row := new VecWrapperI32(resPoints.Get(j));
      var _ := Add(row, p);
      resPoints.StoreRow(j, row.v);
      resSize.Store(j, resSize.Lookup(j) + 1);
      i := i + 1;
    }
    assert ps.v[..i] == ps.v;
    var o := NormalizeCenters(n, resPoints, resSize);
    if o.Panic? {
      return Panic;
    }
    ghost var step := Step(n, cs.v, ps.v);
    assert step.Done? && |step.value| == |resPoints.v|;
    assert forall j :: 0 <= j < k ==> resPoints.v[j] == step.value[j];
    r := Done(resPoints);
  }

  /** `kmeans`: `max(iters, 0)` rounds from `cs`. */
  method KMeans(n: nat, cs: VecWrapperVecI32, ps: VecWrapperVecI32, iters: int) returns (r: Outcome<VecWrapperVecI32>)
    requires |cs.v| > 0 && Rect(cs.v, n) && Rect(ps.v, n)
    ensures r.Done? <==> Iterate(n, cs.v, ps.v, if iters > 0 then iters else 0).Done?
    ensures r.Done? ==> r.value.v == Iterate(n, cs.v, ps.v, if iters > 0 then iters else 0).value
  {
    var i := 0;
    var res := cs;
    while i < iters
      invariant 0 <= i <= (if iters > 0 then iters else 0)
      invariant Iterate(n, cs.v, ps.v, i) == Done(res.v)
    {
      IterateOneMore(n, cs.v, ps.v, i);
      var o := KMeansStep(n, res, ps);
      if o.Panic? {
        IteratePanicStays(n, cs.v, ps.v, i + 1, iters - i - 1);
        return Panic;
      }
      res := o.value;
      i := i + 1;
    }
    r := Done(res);
  }
}
