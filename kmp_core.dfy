// The Knuth-Morris-Pratt failure table and search loop shared by the three
// ports (prusti/kmp.rs, prusti/ex4_kmp/ex4_kmp.rs, src/ex4_kmp.rs), written
// as functions over the loop state. Each port's loops are proved to compute
// these functions.

module KmpCore {

  datatype Option<T> = None | Some(value: T)

  /** `p[..k]` is also a suffix of `p[..n]`. */
  predicate IsBorder<T(==)>(p: seq<T>, n: nat, k: nat)
    requires k <= n <= |p|
  {
    p[..k] == p[n - k..n]
  }

  /** `k` is the longest proper border of `p[..n]`. */
  ghost predicate MaxBorder<T>(p: seq<T>, n: nat, k: nat)
    requires k <= n <= |p|
  {
    k < n && IsBorder(p, n, k) && forall b :: k < b < n ==> !IsBorder(p, n, b)
  }

  /** `p` occurs in `target` starting at `k`. */
  predicate OccursAt<T(==)>(p: seq<T>, target: seq<T>, k: nat) {
    k + |p| <= |target| && target[k..k + |p|] == p
  }

  // ---------------------------------------------------------------------------
  // The failure table

  /** What the table loop keeps: `j < i`, and no entry exceeds its index. */
  predicate TableInv<T>(p: seq<T>, t: seq<nat>, i: nat, j: nat) {
    1 <= i <= |p| && j < i && |t| == |p| && forall x :: 0 <= x < |t| ==> t[x] <= x
  }

  /** The table loop from state (`t`, `i`, `j`): on a match `t[i] := j + 1`,
      on a mismatch at `j == 0` `t[i] := 0`, otherwise fall back to `t[j - 1]`. */
  function TableLoop<T(==)>(p: seq<T>, t: seq<nat>, i: nat, j: nat): (r: seq<nat>)
    requires TableInv(p, t, i, j)
    ensures |r| == |p| && forall x :: 0 <= x < |r| ==> r[x] <= x
    decreases |p| - i, j
  {
    if i >= |p| then t
    else if p[i] == p[j] then TableLoop(p, t[i := j + 1], i + 1, j + 1)
    else if j == 0 then TableLoop(p, t[i := 0], i + 1, j)
    else TableLoop(p, t, i, t[j - 1])
  }

  function Zeros(n: nat): (z: seq<nat>)
    ensures |z| == n && forall x :: 0 <= x < n ==> z[x] == 0
  {
    seq(n, _ => 0)
  }

  /** The table of a non-empty pattern: the loop from all zeros, `i = 1`, `j = 0`. */
  function Table<T(==)>(p: seq<T>): (t: seq<nat>)
    requires |p| > 0
    ensures |t| == |p| && t[0] == 0
    ensures forall x :: 0 <= x < |t| ==> t[x] <= x < |p|
  {
    TableLoop(p, Zeros(|p|), 1, 0)
  }

  lemma BorderOfBorder<T>(p: seq<T>, n: nat, j: nat, b: nat)
    requires b <= j <= n <= |p| && IsBorder(p, n, j) && IsBorder(p, n, b)
    ensures IsBorder(p, j, b)
  {
    assert p[j - b..j] == p[n - j..n][j - b..];
  }

  lemma ExtendBorder<T>(p: seq<T>, i: nat, j: nat)
    requires j < i < |p| && IsBorder(p, i, j) && p[i] == p[j]
    ensures IsBorder(p, i + 1, j + 1)
  {
    assert p[..j + 1] == p[..j] + [p[j]];
    assert p[i - j..i + 1] == p[i - j..i] + [p[i]];
  }

  lemma ShrinkBorder<T>(p: seq<T>, i: nat, b: nat)
    requires 0 < b <= i < |p| && IsBorder(p, i + 1, b)
    ensures IsBorder(p, i, b - 1) && p[b - 1] == p[i]
  {
    assert p[..b - 1] == p[..b][..b - 1];
    assert p[i + 1 - b..i] == p[i + 1 - b..i + 1][..b - 1];
    assert p[..b][b - 1] == p[i + 1 - b..i + 1][b - 1];
  }

  /** The invariant behind the table's correctness: entries below `i` are
      longest proper borders, `j` is a border of `p[..i]`, and no border of
      `p[..i]` longer than `j` extends by `p[i]`. */
  ghost predicate TableMaxInv<T>(p: seq<T>, t: seq<nat>, i: nat, j: nat)
    requires TableInv(p, t, i, j)
  {
    && (forall x :: 0 <= x < i ==> MaxBorder(p, x + 1, t[x]))
    && IsBorder(p, i, j)
    && (i < |p| ==> forall b :: j < b < i && IsBorder(p, i, b) ==> p[b] != p[i])
  }

  /** Entry `i` computed from a border `j` that nothing longer beats is the
      longest proper border of `p[..i + 1]`. */
  lemma NewEntryMax<T>(p: seq<T>, t: seq<nat>, i: nat, j: nat, entry: nat)
    requires TableInv(p, t, i, j) && TableMaxInv(p, t, i, j) && i < |p|
    requires (p[i] == p[j] && entry == j + 1) || (p[i] != p[j] && j == 0 && entry == 0)
    ensures MaxBorder(p, i + 1, entry)
  {
    if p[i] == p[j] {
      ExtendBorder(p, i, j);
    }
    var n := i + 1;
    forall b | entry < b < n
      ensures !IsBorder(p, n, b)
    {
      if IsBorder(p, n, b) {
        ShrinkBorder(p, i, b);
      }
    }
  }

  lemma {:induction false} TableLoopMax<T>(p: seq<T>, t: seq<nat>, i: nat, j: nat)
    requires TableInv(p, t, i, j) && TableMaxInv(p, t, i, j)
    ensures forall x :: 0 <= x < |p| ==> MaxBorder(p, x + 1, TableLoop(p, t, i, j)[x])
    decreases |p| - i, j
  {
    if i >= |p| {
    } else if p[i] == p[j] || j == 0 {
      var entry := if p[i] == p[j] then j + 1 else 0;
      NewEntryMax(p, t, i, j, entry);
      var t' := t[i := entry];
      assert TableMaxInv(p, t', i + 1, entry) by {
        assert forall x :: 0 <= x < i ==> t'[x] == t[x];
      }
      TableLoopMax(p, t', i + 1, entry);
    } else {
      var k := t[j - 1];
      assert MaxBorder(p, j, k);
      assert IsBorder(p, i, k) by {
        BorderOfBorder(p, j, j, k);
        assert p[j - k..j] == p[..j][j - k..];
        assert p[i - k..i] == p[i - j..i][j - k..];
      }
      forall b | k < b < i && IsBorder(p, i, b)
        ensures p[b] != p[i]
      {
        if b < j {
          BorderOfBorder(p, i, j, b);
        }
      }
      TableLoopMax(p, t, i, k);
    }
  }

  /** Every entry of the table is the length of the longest proper border of
      the pattern's prefix ending there. */
  lemma TableIsFailureFunction<T>(p: seq<T>)
    requires |p| > 0
    ensures forall x :: 0 <= x < |p| ==> MaxBorder(p, x + 1, Table(p)[x])
  {
    assert IsBorder(p, 1, 0);
    TableLoopMax(p, Zeros(|p|), 1, 0);
  }

  // ---------------------------------------------------------------------------
  // The search loop as the three ports write it

  predicate SearchInv<T>(p: seq<T>, target: seq<T>, t: seq<nat>, t_i: nat, p_i: nat, result_idx: nat) {
    |p| > 0 && |t| == |p| && (forall x :: 0 <= x < |t| ==> t[x] <= x)
    && p_i < |p| && t_i <= |target| && result_idx <= t_i
  }

  /** The search loop from state (`t_i`, `p_i`, `result_idx`): a match
      records `t_i` when `result_idx` is 0 and advances both indices; a
      mismatch falls back in the pattern, advances in the target and clears
      `result_idx`. `Some` is the value returned on a full match. */
  function SearchLoop<T(==)>(p: seq<T>, target: seq<T>, t: seq<nat>, t_i: nat, p_i: nat, result_idx: nat): (r: Option<nat>)
    requires SearchInv(p, target, t, t_i, p_i, result_idx)
    ensures r.Some? ==> r.value < |target|
    decreases |target| - t_i
  {
    if !(t_i < |target| && p_i < |p|) then None
    else if target[t_i] == p[p_i] then
      var result_idx' := if result_idx == 0 then t_i else result_idx;
      if p_i + 1 >= |p| then Some(result_idx')
      else SearchLoop(p, target, t, t_i + 1, p_i + 1, result_idx')
    else
      var p_i' := if p_i == 0 then 0 else t[p_i - 1];
      SearchLoop(p, target, t, t_i + 1, p_i', 0)
  }

  /** The search of the ports, from all indices 0. */
  function Search<T(==)>(p: seq<T>, target: seq<T>): (r: Option<nat>)
    requires |p| > 0
    ensures r.Some? ==> r.value < |target|
  {
    SearchLoop(p, target, Table(p), 0, 0, 0)
  }

  // ---------------------------------------------------------------------------
  // The search as Knuth-Morris-Pratt intends it

  predicate KmpInv<T>(p: seq<T>, target: seq<T>, t: seq<nat>, t_i: nat, p_i: nat) {
    |p| > 0 && |t| == |p| && (forall x :: 0 <= x < |t| ==> t[x] <= x)
    && p_i < |p| && p_i <= t_i <= |target|
  }

  /** On a mismatch after a partial match only the pattern index falls back;
      the target index stays until the pattern index is 0. A full match
      ending at `t_i` starts at `t_i + 1 - |p|`. */
  function KmpLoop<T(==)>(p: seq<T>, target: seq<T>, t: seq<nat>, t_i: nat, p_i: nat): (r: Option<nat>)
    requires KmpInv(p, target, t, t_i, p_i)
    ensures r.Some? ==> r.value + |p| <= |target|
    decreases |target| - t_i, p_i
  {
    if t_i >= |target| then None
    else if target[t_i] == p[p_i] then
      if p_i + 1 == |p| then Some(t_i + 1 - |p|)
      else KmpLoop(p, target, t, t_i + 1, p_i + 1)
    else if p_i == 0 then KmpLoop(p, target, t, t_i + 1, 0)
    else KmpLoop(p, target, t, t_i, t[p_i - 1])
  }

  function KmpSearch<T(==)>(p: seq<T>, target: seq<T>): (r: Option<nat>)
    requires |p| > 0
  {
    KmpLoop(p, target, Table(p), 0, 0)
  }

  /** A partial match that cannot be extended by `target[t_i]` and falls back
      to the table entry skips no occurrence. */
  lemma FallbackSkipsNothing<T>(p: seq<T>, target: seq<T>, t: seq<nat>, t_i: nat, p_i: nat, k: nat)
    requires KmpInv(p, target, t, t_i, p_i) && t_i < |target| && target[t_i] != p[p_i]
    requires forall x :: 0 <= x < |p| ==> MaxBorder(p, x + 1, t[x])
    requires target[t_i - p_i..t_i] == p[..p_i]
    requires t_i - p_i <= k && (if p_i == 0 then k <= t_i else k < t_i - t[p_i - 1])
    ensures !OccursAt(p, target, k)
  {
    if OccursAt(p, target, k) {
      if k != t_i - p_i {
        var b := t_i - k;
        assert p[..b] == target[k..t_i] by {
          assert target[k..t_i] == target[k..k + |p|][..b];
        }
        assert target[k..t_i] == p[..p_i][p_i - b..] by {
          assert target[k..t_i] == target[t_i - p_i..t_i][p_i - b..];
        }
        assert IsBorder(p, p_i, b) by {
          assert p[p_i - b..p_i] == p[..p_i][p_i - b..];
        }
      }
    }
  }

  /** The loop returns the first occurrence of the pattern, and `None` only
      when there is none. */
  lemma {:induction false} KmpLoopCorrect<T>(p: seq<T>, target: seq<T>, t: seq<nat>, t_i: nat, p_i: nat)
    requires KmpInv(p, target, t, t_i, p_i)
    requires forall x :: 0 <= x < |p| ==> MaxBorder(p, x + 1, t[x])
    requires target[t_i - p_i..t_i] == p[..p_i]
    requires forall k :: 0 <= k < t_i - p_i ==> !OccursAt(p, target, k)
    ensures KmpLoop(p, target, t, t_i, p_i).Some? ==>
      OccursAt(p, target, KmpLoop(p, target, t, t_i, p_i).value)
      && forall k :: 0 <= k < KmpLoop(p, target, t, t_i, p_i).value ==> !OccursAt(p, target, k)
    ensures KmpLoop(p, target, t, t_i, p_i).None? ==> forall k :: !OccursAt(p, target, k)
    decreases |target| - t_i, p_i
  {
    if t_i >= |target| {
    } else if target[t_i] == p[p_i] {
      assert target[t_i - p_i..t_i + 1] == p[..p_i + 1] by {
        assert target[t_i - p_i..t_i + 1] == target[t_i - p_i..t_i] + [target[t_i]];
        assert p[..p_i + 1] == p[..p_i] + [p[p_i]];
      }
      if p_i + 1 < |p| {
        KmpLoopCorrect(p, target, t, t_i + 1, p_i + 1);
      }
    } else if p_i == 0 {
      forall k | 0 <= k < t_i + 1
        ensures !OccursAt(p, target, k)
      {
        if k >= t_i - p_i {
          FallbackSkipsNothing(p, target, t, t_i, p_i, k);
        }
      }
      KmpLoopCorrect(p, target, t, t_i + 1, 0);
    } else {
      var b := t[p_i - 1];
      assert MaxBorder(p, p_i, b);
      forall k | 0 <= k < t_i - b
        ensures !OccursAt(p, target, k)
      {
        if k >= t_i - p_i {
          FallbackSkipsNothing(p, target, t, t_i, p_i, k);
        }
      }
      assert target[t_i - b..t_i] == p[..b] by {
        assert target[t_i - b..t_i] == target[t_i - p_i..t_i][p_i - b..];
        assert p[p_i - b..p_i] == p[..p_i][p_i - b..];
      }
      KmpLoopCorrect(p, target, t, t_i, b);
    }
  }

  /** Knuth-Morris-Pratt finds the first occurrence, or reports that there is none. */
  lemma KmpSearchCorrect<T>(p: seq<T>, target: seq<T>)
    requires |p| > 0
    ensures KmpSearch(p, target).Some? ==>
      OccursAt(p, target, KmpSearch(p, target).value)
      && forall k :: 0 <= k < KmpSearch(p, target).value ==> !OccursAt(p, target, k)
    ensures KmpSearch(p, target).None? ==> forall k :: !OccursAt(p, target, k)
  {
    TableIsFailureFunction(p);
    KmpLoopCorrect(p, target, Table(p), 0, 0);
  }

  // ---------------------------------------------------------------------------
  // Inputs on which the ports' search and the intended search differ

  /** A mismatch after a fallback still advances the target index, and the
      start index uses 0 as "unset": a false match is reported past a real
      mismatch. */
  lemma SearchReportsFalseMatch()
    ensures Search("aab", "aaxab") == Some(3)
    ensures forall k :: !OccursAt("aab", "aaxab", k)
    ensures KmpSearch("aab", "aaxab") == None
  {
    KmpSearchCorrect("aab", "aaxab");
    assert Table("aab") == [0, 1, 0];
  }

  /** An occurrence that starts inside a failed partial match is skipped. */
  lemma SearchMissesOccurrence()
    ensures Search("aab", "aaab") == None
    ensures OccursAt("aab", "aaab", 1)
    ensures KmpSearch("aab", "aaab") == Some(1)
  {
    assert Table("aab") == [0, 1, 0];
    assert "aaab"[1..4] == "aab";
  }

  /** A match at index 0 leaves the start "unset", so the next matching
      index is reported instead. */
  lemma SearchMisreportsStartZero()
    ensures Search("ab", "ab") == Some(1)
    ensures KmpSearch("ab", "ab") == Some(0)
  {
    assert Table("ab") == [0, 0];
  }
}
