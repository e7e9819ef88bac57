// The integer pivot helpers of the simplex method (prusti/simplex.rs): scans
// over a read-only `m` by `n` tableau whose row 0 is the objective and whose
// last column is the right-hand side.

module Simplex {
  import opened RustInts

  datatype Option<T> = None | Some(value: T)

  /** `arr2` has `m` rows of `n` entries each. */
  predicate IsMatrix(arr2: seq<seq<int>>, m: nat, n: nat) {
    |arr2| == m && forall i :: 0 <= i < m ==> |arr2[i]| == n
  }

  /** `incr`: one more than a non-negative value is positive. */
  function Incr(x: int): (r: int)
    requires 0 <= x
    ensures 0 < r
  {
    x + 1
  }

  /** Step 1: some objective coefficient among the columns `1 .. n - 2` is
      negative. */
  method IsNeg(arr2: seq<seq<int>>, m: nat, n: nat) returns (r: bool)
    requires 0 < m && 0 < n && IsMatrix(arr2, m, n)
    ensures r <==> exists j :: 1 <= j < n - 1 && arr2[0][j] < 0
  {
    var j := 1;
    while j < n - 1
      invariant 1 <= j
      invariant forall k :: 1 <= k < j && k < n - 1 ==> arr2[0][k] >= 0
    {
      if arr2[0][j] < 0 {
        return true;
      }
      j := j + 1;
    }
    return false;
  }

  /** Column `j` is negative in every row. */
  ghost predicate NegativeColumn(arr2: seq<seq<int>>, m: nat, n: nat, j: nat)
    requires IsMatrix(arr2, m, n) && j < n
  {
    forall i :: 0 <= i < m ==> arr2[i][j] < 0
  }

  /** Step 2: the problem is unbounded when some column among `1 .. n - 2`
      is negative in every row. */
  method Unb1(m: nat, n: nat, arr2: seq<seq<int>>) returns (r: bool)
    requires 0 < m && 0 < n && IsMatrix(arr2, m, n)
    ensures r <==> exists j :: 1 <= j < n - 1 && NegativeColumn(arr2, m, n, j)
  {
    var i := 0;
    var j := 1;
    while j < n - 1
      invariant 1 <= j && i == 0
      invariant forall k :: 1 <= k < j && k < n - 1 ==> !NegativeColumn(arr2, m, n, k)
      decreases n - j
    {
      if arr2[0][j] < 0 {
        i := i + 1;
        while true
          invariant 1 <= i <= m && 1 <= j < n - 1
          invariant forall k :: 0 <= k < i ==> arr2[k][j] < 0
          decreases m - i
        {
          if i < m {
            if arr2[i][j] < 0 {
              i := i + 1;
            } else {
              i := 0;
              j := j + 1;
              break;
            }
          } else {
            assert NegativeColumn(arr2, m, n, j);
            return true;
          }
        }
      } else {
        i := 0;
        j := j + 1;
      }
    }
    return false;
  }

  /** Step 3: the entering column, the first column among `1 .. n - 2` with
      the smallest objective coefficient. */
  method EnterVar(m: nat, n: nat, arr2: seq<seq<int>>) returns (r: nat)
    requires 0 < m && 2 < n && IsMatrix(arr2, m, n)
    ensures 0 < r && r + 1 < n
    ensures forall j :: 1 <= j < n - 1 ==> arr2[0][r] <= arr2[0][j]
    ensures forall j :: 1 <= j < r ==> arr2[0][j] > arr2[0][r]
  {
    var c := arr2[0][1];
    var j := 1;
    var j' := 2;
    while j' < n - 1
      invariant 0 < j && j + 1 < n && j < j' <= n - 1
      invariant c == arr2[0][j]
      invariant forall k :: 1 <= k < j' ==> c <= arr2[0][k]
      invariant forall k :: 1 <= k < j ==> arr2[0][k] > c
    {
      var c' := arr2[0][j'];
      if c' < c {
        j := j';
        c := c';
      }
      j' := j' + 1;
    }
    r := j;
  }

  /** The ratio the departing row is chosen by: the right-hand side over a
      positive coefficient of column `j`, truncated toward zero. */
  function Ratio(arr2: seq<seq<int>>, m: nat, n: nat, j: nat, i: nat): int
    requires IsMatrix(arr2, m, n) && 0 < n && j < n && i < m && arr2[i][j] > 0
  {
    TruncDiv(arr2[i][n - 1], arr2[i][j])
  }

  /** Row `i` competes for departure: the starting row `i0`, or a later row
      with a positive coefficient in column `j`. */
  predicate Candidate(arr2: seq<seq<int>>, m: nat, n: nat, j: nat, i0: nat, i: nat)
    requires IsMatrix(arr2, m, n) && j < n
  {
    i == i0 || (i0 < i < m && arr2[i][j] > 0)
  }

  /** A candidate's ratio; the starting row comes with `r0`. */
  function CandidateRatio(arr2: seq<seq<int>>, m: nat, n: nat, j: nat, i0: nat, r0: int, i: nat): int
    requires IsMatrix(arr2, m, n) && 0 < n && j < n && i < m && Candidate(arr2, m, n, j, i0, i)
  {
    if i == i0 then r0 else Ratio(arr2, m, n, j, i)
  }

  /** Step 4: the departing row, the first candidate of smallest ratio. */
  method DepartVar(m: nat, n: nat, arr2: seq<seq<int>>, j: nat, i0: nat, r0: int) returns (r: nat)
    requires 0 < m && 0 < n && IsMatrix(arr2, m, n) && 0 < j < n && 0 < i0 < m
    ensures 0 < r < m && Candidate(arr2, m, n, j, i0, r)
    ensures forall k :: i0 <= k < m && Candidate(arr2, m, n, j, i0, k) ==>
      CandidateRatio(arr2, m, n, j, i0, r0, r) <= CandidateRatio(arr2, m, n, j, i0, r0, k)
    ensures forall k :: i0 <= k < r && Candidate(arr2, m, n, j, i0, k) ==>
      CandidateRatio(arr2, m, n, j, i0, r0, k) > CandidateRatio(arr2, m, n, j, i0, r0, r)
  {
    var i := i0;
    var ratio := r0;
    var i' := i + 1;
    while i' < m
      invariant 0 < i < m && i < i' <= m && Candidate(arr2, m, n, j, i0, i)
      invariant ratio == CandidateRatio(arr2, m, n, j, i0, r0, i)
      invariant forall k :: i0 <= k < i' && Candidate(arr2, m, n, j, i0, k) ==>
        ratio <= CandidateRatio(arr2, m, n, j, i0, r0, k)
      invariant forall k :: i0 <= k < i && Candidate(arr2, m, n, j, i0, k) ==>
        CandidateRatio(arr2, m, n, j, i0, r0, k) > ratio
    {
      var c' := arr2[i'][j];
      if 0 < c' {
        var r' := TruncDiv(arr2[i'][n - 1], c');
        if r' < ratio {
          i := i';
          ratio := r';
        }
        i' := i' + 1;
      } else {
        i' := i' + 1;
      }
    }
    r := i;
  }

  /** The initial departing row: the first row from 1 on with a positive
      coefficient in column `j`. When there is none the source aborts through
      `die`; that outcome is `None` here. */
  method InitRatioI(m: nat, n: nat, arr2: seq<seq<int>>, j: nat) returns (r: Option<nat>)
    requires 0 < m && 0 < n && IsMatrix(arr2, m, n) && 0 < j < n
    ensures r.Some? <==> exists i :: 1 <= i < m && arr2[i][j] > 0
    ensures r.Some? ==>
      0 < r.value < m && arr2[r.value][j] > 0 && forall i :: 1 <= i < r.value ==> arr2[i][j] <= 0
  {
    var i := 1;
    while i < m
      invariant 1 <= i
      invariant forall k :: 1 <= k < i && k < m ==> arr2[k][j] <= 0
    {
      var c := arr2[i][j];
      if 0 < c {
        return Some(i);
      }
      i := i + 1;
    }
    return None;
  }
}
