// Integer k-means over a row-major matrix (prusti/kmeans_2d.rs): centers and
// points are rows of an `RMatI32` that is updated cell by cell, and the
// rounds recurse instead of looping. Each operation is proved to compute
// what KMeansSpec defines.

module KMeans2d {
  import opened RustInts
  import opened KMeansSpec
  import KMeans

  /** The cells `RMatI32::new(rows, cols, elem)` holds. */
  function Grid(rows: nat, cols: nat, elem: int): (g: seq<seq<int>>)
    ensures |g| == rows && Rect(g, cols)
    ensures forall i, j :: 0 <= i < rows && 0 <= j < cols ==> g[i][j] == elem
  {
    seq(rows, _ => seq(cols, _ => elem))
  }

  /** `cols()`: the length of the first row, or 0 without rows. */
  function ColsOf(inner: seq<seq<int>>): nat {
    if |inner| > 0 then |inner[0]| else 0
  }

  /** What the trusted contract of `RMatI32::new` promises about the matrix
      it returns. */
  predicate NewContractAsWritten(rows: nat, cols: nat, inner: seq<seq<int>>) {
    ColsOf(inner) == cols && |inner| == rows
  }

  /** Without rows, `cols()` is 0 whatever `cols` was asked for, so the
      trusted contract of `new` promises a column count it does not have. */
  lemma NewContractFailsWithoutRows()
    ensures !NewContractAsWritten(0, 3, Grid(0, 3, 0))
    ensures ColsOf(Grid(0, 3, 0)) == 0
  {
  }

  /** `RMatI32`: a matrix kept as a list of rows. */
  class RMatI32 {
    var inner: seq<seq<int>>

    /** Every row as long as the first: what `new` builds and `set` keeps. */
    predicate Valid()
      reads this
    {
      Rect(inner, ColsOf(inner))
    }

    function Rows(): nat
      reads this
    {
      |inner|
    }

    function Cols(): nat
      reads this
    {
      ColsOf(inner)
    }

    /** `new(rows, cols, elem)`: `rows` rows of `cols` copies of `elem`; with
        no rows the matrix reports 0 columns. */
    constructor New(rows: nat, cols: nat, elem: int)
      ensures inner == Grid(rows, cols, elem)
      ensures Valid() && Rows() == rows
      ensures Cols() == (if rows > 0 then cols else 0)
    {
      var m: seq<seq<int>> := [];
      var i := 0;
      while i < rows
        invariant i <= rows && |m| == i
        invariant forall k :: 0 <= k < i ==> m[k] == seq(cols, _ => elem)
      {
        var r: seq<int> := [];
        var j := 0;
        while j < cols
          invariant j <= cols && |r| == j
          invariant forall l :: 0 <= l < j ==> r[l] == elem
        {
          r := r + [elem];
          j := j + 1;
        }
        m := m + [r];
        i := i + 1;
      }
      inner := m;
    }

    function Get(i: nat, j: nat): int
      reads this
      requires Valid() && i < Rows() && j < Cols()
    {
      inner[i][j]
    }

    /** `set`: only cell `(i, j)` changes, so the shape stays. */
    method Set(i: nat, j: nat, value: int)
      modifies this
      requires Valid() && i < Rows() && j < Cols()
      ensures inner == old(inner)[i := old(inner)[i][j := value]]
      ensures Valid() && Rows() == old(Rows()) && Cols() == old(Cols())
    {
      inner := inner[i := inner[i][j := value]];
    }

    /** `get_row`: a copy of row `i`, `cols()` long. */
    function GetRow(i: nat): (r: seq<int>)
      reads this
      requires Valid() && i < Rows()
      ensures |r| == Cols()
    {
      inner[i]
    }
  }

  /** `add_to_row`: adds `y` into row `row` cell by cell. */
  method AddToRow(x: RMatI32, row: nat, y: seq<int>)
    modifies x
    requires x.Valid() && x.Cols() == |y| && row < x.Rows()
    ensures x.inner == old(x.inner)[row := VecAdd(old(x.inner)[row], y)]
    ensures x.Valid() && x.Rows() == old(x.Rows()) && x.Cols() == old(x.Cols())
  {
    ghost var m0 := x.inner;
    var i := 0;
    while i < x.Cols()
      invariant i <= x.Cols() == |y|
      invariant x.Valid() && x.Rows() == |m0|
      invariant forall r :: 0 <= r < |m0| && r != row ==> x.inner[r] == m0[r]
      invariant forall c :: 0 <= c < i ==> x.inner[row][c] == m0[row][c] + y[c]
      invariant forall c :: i <= c < |y| ==> x.inner[row][c] == m0[row][c]
    {
      var xi := x.Get(row, i);
      var yi := y[i];
      x.Set(row, i, xi + yi);
      i := i + 1;
    }
    assert |x.inner[row]| == |y|;
    assert x.inner[row] == VecAdd(m0[row], y);
    assert x.inner == m0[row := VecAdd(m0[row], y)];
  }

  /** `normalize_row`: divides every cell of row `row` by `n as i32`,
      truncating; dividing a cell by zero panics. */
  method NormalizeRow(x: RMatI32, row: nat, n: nat) returns (r: Outcome<()>)
    modifies x
    requires x.Valid() && row < x.Rows()
    ensures r.Done? <==> Normalized(old(x.inner)[row], n).Done?
    ensures r.Done? ==> x.inner == old(x.inner)[row := Normalized(old(x.inner)[row], n).value]
    ensures r.Done? ==> x.Valid() && x.Rows() == old(x.Rows()) && x.Cols() == old(x.Cols())
  {
    ghost var m0 := x.inner;
    var i := 0;
    while i < x.Cols()
      invariant i <= x.Cols() == |m0[row]|
      invariant x.Valid() && x.Rows() == |m0|
      invariant forall r :: 0 <= r < |m0| && r != row ==> x.inner[r] == m0[r]
      invariant forall c :: 0 <= c < i ==> AsI32(n) != 0 && x.inner[row][c] == TruncDiv(m0[row][c], AsI32(n))
      invariant forall c :: i <= c < |m0[row]| ==> x.inner[row][c] == m0[row][c]
    {
      var xi := x.Get(row, i);
      var d := AsI32(n);
      if d == 0 {
        return Panic;
      }
      x.Set(row, i, TruncDiv(xi, d));
      i := i + 1;
    }
    if i > 0 {
      assert AsI32(n) != 0 && x.inner[row][0] == TruncDiv(m0[row][0], AsI32(n));
    }
    assert |x.inner[row]| == |m0[row]|;
    assert x.inner[row] == Normalized(m0[row], n).value;
    assert x.inner == m0[row := Normalized(m0[row], n).value];
    r := Done(());
  }

  /** `init_centers(n, k)`: a `k` by `n` matrix of zeros. */
  method InitCenters(n: nat, k: nat) returns (res: RMatI32)
    requires k > 0
    ensures fresh(res)
    ensures res.Valid() && res.Rows() == k && res.Cols() == n
    ensures forall i :: 0 <= i < k ==> res.inner[i] == Zeros(n)
  {
    res := new RMatI32.New(k, n, 0);
  }

  /** `nearest`: the center row the point joins (see
      `KMeansSpec.NearestIsFirstClosest`). */
  method Nearest(p: seq<int>, cs: RMatI32) returns (res: nat)
    requires cs.Valid() && cs.Rows() > 0 && cs.Cols() == |p|
    ensures res < cs.Rows()
    ensures res == NearestOf(p, cs.inner)
  {
    var k := cs.Rows();
    res := 0;
    var min := I32_MAX;
    var i := 0;
    while i < k
      invariant i <= k && res < k
      invariant NearestLoop(p, cs.inner, i, res, min) == NearestOf(p, cs.inner)
    {
      var ci := cs.GetRow(i);
      var di := KMeans.Dist(ci, p);
      if di < min {
        res := i;
        min := di;
      }
      i := i + 1;
    }
  }

  /** `normalize_centers`: divides row `i` by `weights[i]` for every row; it
      panics on the first division by zero. */
  method NormalizeCenters(cs: RMatI32, weights: KMeans.VecWrapperUSize) returns (r: Outcome<()>)
    modifies cs
    requires cs.Valid() && cs.Rows() == |weights.v|
    ensures r.Done? <==> forall i :: 0 <= i < |old(cs.inner)| ==> Normalized(old(cs.inner)[i], weights.v[i]).Done?
    ensures r.Done? ==> cs.Valid() && cs.Rows() == old(cs.Rows()) && cs.Cols() == old(cs.Cols())
    ensures r.Done? ==> forall i :: 0 <= i < |cs.inner| ==> cs.inner[i] == Normalized(old(cs.inner)[i], weights.v[i]).value
  {
    ghost var m0 := cs.inner;
    var k := cs.Rows();
    var i := 0;
    while i < k
      invariant i <= k == cs.Rows() == |m0|
      invariant cs.Valid() && cs.Cols() == ColsOf(m0)
      invariant forall j :: 0 <= j < i ==> Normalized(m0[j], weights.v[j]).Done?
      invariant forall j :: 0 <= j < i ==> cs.inner[j] == Normalized(m0[j], weights.v[j]).value
      invariant forall j :: i <= j < k ==> cs.inner[j] == m0[j]
    {
      var o := NormalizeRow(cs, i, weights.Lookup(i));
      if o.Panic? {
        return Panic;
      }
      i := i + 1;
    }
    r := Done(());
  }

  /** The shape `kmeans_step` and `kmeans` require: as many points as
      centers, at least one center, and `n` columns in both. */
  predicate Shaped(n: nat, cs: RMatI32, ps: RMatI32)
    reads cs, ps
  {
    && cs.Valid() && ps.Valid()
    && cs.Rows() == ps.Rows() && ps.Cols() == n && cs.Cols() == n && cs.Rows() > 0
  }

  /** `kmeans_step`: one round, exactly as `Step` defines it, keeping the
      shape. */
  method KMeansStep(n: nat, cs: RMatI32, ps: RMatI32) returns (r: Outcome<RMatI32>)
    requires Shaped(n, cs, ps)
    ensures r.Done? <==> Step(n, cs.inner, ps.inner).Done?
    ensures r.Done? ==> fresh(r.value) && r.value.inner == Step(n, cs.inner, ps.inner).value
    ensures r.Done? ==> Shaped(n, r.value, ps)
  {
    var k := cs.Rows();
    var resPoints := InitCenters(n, k);
    var resSize := KMeans.FromElemNUSize(0, k);
    var i := 0;
    while i < ps.Rows()
      invariant i <= ps.Rows()
      invariant fresh(resPoints) && fresh(resSize)
      invariant resPoints.Valid() && resPoints.Rows() == k && resPoints.Cols() == n && |resSize.v| == k
      invariant forall j :: 0 <= j < k ==> resPoints.inner[j] == ClusterSum(ps.inner[..i], cs.inner, n, j)
      invariant forall j :: 0 <= j < k ==> resSize.v[j] == ClusterCount(ps.inner[..i], cs.inner, n, j)
    {
      var p := ps.GetRow(i);
      assert ps.inner[..i + 1][..i] == ps.inner[..i] && ps.inner[..i + 1][i] == p;
      var j := Nearest(p, cs);
      AddToRow(resPoints, j, p);
      resSize.Store(j, resSize.Lookup(j) + 1);
      i := i + 1;
    }
    assert ps.inner[..i] == ps.inner;
    var o := NormalizeCenters(resPoints, resSize);
    if o.Panic? {
      return Panic;
    }
    ghost var step := Step(n, cs.inner, ps.inner);
    assert step.Done? && |step.value| == |resPoints.inner|;
    assert forall j :: 0 <= j < k ==> resPoints.inner[j] == step.value[j];
    r := Done(resPoints);
  }

  /** `kmeans_inner(i, …)`: `iters - i` more rounds (none when `i >= iters`),
      keeping the shape. */
  method KMeansInner(i: int, n: nat, cs: RMatI32, ps: RMatI32, iters: int) returns (r: Outcome<RMatI32>)
    requires Shaped(n, cs, ps)
    ensures r.Done? <==> Iterate(n, cs.inner, ps.inner, if i < iters then iters - i else 0).Done?
    ensures r.Done? ==> r.value.inner == Iterate(n, cs.inner, ps.inner, if i < iters then iters - i else 0).value
    ensures r.Done? ==> Shaped(n, r.value, ps)
    decreases iters - i
  {
    if i < iters {
      var o := KMeansStep(n, cs, ps);
      if o.Panic? {
        return Panic;
      }
      r := KMeansInner(i + 1, n, o.value, ps, iters);
    } else {
      r := Done(cs);
    }
  }

  /** `kmeans`: `max(iters, 0)` rounds from `cs`. */
  method KMeansRun(n: nat, cs: RMatI32, ps: RMatI32, iters: int) returns (r: Outcome<RMatI32>)
    requires Shaped(n, cs, ps)
    ensures r.Done? <==> Iterate(n, cs.inner, ps.inner, if iters > 0 then iters else 0).Done?
    ensures r.Done? ==> r.value.inner == Iterate(n, cs.inner, ps.inner, if iters > 0 then iters else 0).value
    ensures r.Done? ==> Shaped(n, r.value, ps)
  {
    r := KMeansInner(0, n, cs, ps, iters);
  }
}
