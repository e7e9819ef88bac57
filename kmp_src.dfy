// The plain Rust Knuth-Morris-Pratt (src/ex4_kmp.rs): a generic table, a
// search over characters returning an `i32`, and the `search` wrapper.

module KmpSrc {
  import opened KmpCore
  import opened RustInts

  const I32_LIMIT: nat := 0x8000_0000

  /** `kmp_table`: `m - 1` underflows on an empty pattern, so the pattern is
      non-empty; the table starts as `m` zeros and is written in place. */
  method KmpTable<T(==)>(p: seq<T>) returns (t: seq<nat>)
    requires |p| > 0
    ensures t == Table(p)
    ensures |t| == |p| && t[0] == 0
  {
    var m := |p|;
    t := seq(m, _ => 0);
    assert t == Zeros(m);
    var i: nat := 1;
    var j: nat := 0;
    while i <= m - 1
      invariant TableInv(p, t, i, j)
      invariant TableLoop(p, t, i, j) == Table(p)
      invariant t[0] == 0
      decreases m - i, j
    {
      if p[i] == p[j] {
        t := t[i := j + 1];
        i := i + 1;
        j := j + 1;
      } else if j == 0 {
        t := t[i := 0];
        i := i + 1;
      } else {
        j := t[j - 1];
      }
    }
  }

  /** `kmp_search`: the index the search loop reports, cast to `i32`, or -1.
      Both strings must be non-empty (`target_len - 1` and the table's
      `m - 1` underflow otherwise). While the target is shorter than 2^31 the
      cast is exact and a reported index lies inside the target. */
  method KmpSearch(pattern: seq<char>, target: seq<char>) returns (r: int)
    requires |pattern| > 0 && |target| > 0
    ensures |target| <= I32_LIMIT ==>
      r == match Search(pattern, target) case Some(k) => k case None => -1
    ensures |target| <= I32_LIMIT ==> -1 <= r < |target|
  {
    var t_i: nat := 0;
    var p_i: nat := 0;
    var target_len := |target|;
    var result_idx: int := 0;
    ghost var start: nat := 0;

    var t := KmpTable(pattern);
    var pattern_len := |pattern|;

    while t_i <= target_len - 1 && p_i <= pattern_len - 1
      invariant SearchInv(pattern, target, t, t_i, p_i, start)
      invariant t == Table(pattern)
      invariant target_len <= I32_LIMIT ==> result_idx == start
      invariant SearchLoop(pattern, target, t, t_i, p_i, start) == Search(pattern, target)
      decreases target_len - t_i
    {
      if target[t_i] == pattern[p_i] {
        if result_idx == 0 {
          result_idx := AsI32(t_i);
        }
        if start == 0 {
          start := t_i;
        }
        t_i := t_i + 1;
        p_i := p_i + 1;
        if p_i >= pattern_len {
          return result_idx;
        }
      } else {
        if p_i == 0 {
          p_i := 0;
        } else {
          p_i := t[p_i - 1];
        }
        t_i := t_i + 1;
        result_idx := 0;
        start := 0;
      }
    }
    r := -1;
  }

  /** `search`: `kmp_search`'s result, passed on unchanged. */
  method SearchStr(pat: seq<char>, str: seq<char>) returns (res: int)
    requires |pat| > 0 && |str| > 0
    ensures |str| <= I32_LIMIT ==>
      res == match Search(pat, str) case Some(k) => k case None => -1
  {
    res := KmpSearch(pat, str);
  }

  /** The example call in the driver: "bro" is reported at 8 in
      "thequickbrownfox", which is where it occurs. */
  lemma SearchBroExample()
    ensures Search("bro", "thequickbrownfox") == Some(8)
    ensures OccursAt("bro", "thequickbrownfox", 8)
  {
    assert Table("bro") == [0, 0, 0];
    assert "thequickbrownfox"[8..11] == "bro";
  }

  /** The search as Knuth-Morris-Pratt intends it: on a mismatch after a
      partial match only the pattern index falls back, and a full match
      ending at `t_i` starts at `t_i + 1 - |pattern|`. It returns the start of
      the first occurrence, or -1 when there is none. */
  method KmpSearchFirst(pattern: seq<char>, target: seq<char>) returns (r: int)
    requires |pattern| > 0
    ensures -1 <= r
    ensures r >= 0 ==> OccursAt(pattern, target, r) && forall k :: 0 <= k < r ==> !OccursAt(pattern, target, k)
    ensures r == -1 <==> forall k :: !OccursAt(pattern, target, k)
  {
    KmpSearchCorrect(pattern, target);
    var t := KmpTable(pattern);
    var t_i: nat := 0;
    var p_i: nat := 0;
    while t_i < |target|
      invariant KmpInv(pattern, target, t, t_i, p_i)
      invariant t == Table(pattern)
      invariant KmpLoop(pattern, target, t, t_i, p_i) == KmpCore.KmpSearch(pattern, target)
      decreases |target| - t_i, p_i
    {
      if target[t_i] == pattern[p_i] {
        if p_i + 1 == |pattern| {
          return t_i + 1 - |pattern|;
        }
        t_i := t_i + 1;
        p_i := p_i + 1;
      } else if p_i == 0 {
        t_i := t_i + 1;
      } else {
        p_i := t[p_i - 1];
      }
    }
    r := -1;
  }
}
