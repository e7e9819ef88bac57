// The Prusti port of Knuth-Morris-Pratt (prusti/kmp.rs): a table filled
// through a vector wrapper, and a search returning an index or the target's
// length.

module KmpPrusti {
  import opened KmpCore

  /** `VecWrapperFull`: a vector of `usize` behind a wrapper with trusted
      accessors. */
  class VecWrapperFull {
    var v: seq<nat>

    constructor (v0: seq<nat>)
      ensures v == v0
    {
      v := v0;
    }

    function Len(): (n: nat)
      reads this
      ensures n == |v|
    {
      |v|
    }

    function Lookup(i: nat): (r: nat)
      reads this
      requires i < Len()
      ensures r in v
    {
      v[i]
    }

    /** The store `self.v[index] = value`, with the frame "every other entry
        keeps its value". */
    method Store(index: nat, value: nat)
      modifies this
      requires index < Len()
      ensures Len() == old(Len()) && Lookup(index) == value
      ensures forall i :: 0 <= i < Len() && i != index ==> Lookup(i) == old(Lookup(i))
      ensures v == old(v)[index := value]
    {
      v := v[index := value];
    }

    /** `n` copies of `elem`, pushed one at a time. */
    static method FromElemN(elem: nat, n: nat) returns (w: VecWrapperFull)
      ensures fresh(w)
      ensures w.Len() == n && forall i :: 0 <= i < n ==> w.Lookup(i) == elem
    {
      var vec: seq<nat> := [];
      var i := 0;
      while i < n
        invariant i <= n && |vec| == i && forall k :: 0 <= k < i ==> vec[k] == elem
      {
        vec := vec + [elem];
        i := i + 1;
      }
      w := new VecWrapperFull(vec);
    }
  }

  /** The store postcondition as written in the source: the entries other
      than `index` must become strictly smaller. */
  predicate StoreContractAsWritten(before: seq<nat>, after: seq<nat>, index: nat, value: nat)
    requires index < |before|
  {
    && |after| == |before|
    && (forall i :: 0 <= i < |after| && i != index ==> after[i] < before[i])
    && after[index] == value
  }

  /** The store's own body does not meet that postcondition once the vector
      has a second entry. */
  lemma StoreBodyBreaksContract(before: seq<nat>, index: nat, value: nat)
    requires index < |before| && |before| >= 2
    ensures !StoreContractAsWritten(before, before[index := value], index, value)
  {
    var other := if index == 0 then 1 else 0;
    assert before[index := value][other] == before[other];
  }

  /** No store whatsoever meets it on the all-zero table `kmp_table` starts
      from, so the table loop's first store cannot be verified against it. */
  lemma StoreContractUnsatisfiableOnZeros(before: seq<nat>, after: seq<nat>, index: nat, value: nat)
    requires index < |before| && |before| >= 2
    requires forall i :: 0 <= i < |before| ==> before[i] == 0
    ensures !StoreContractAsWritten(before, after, index, value)
  {
    var other := if index == 0 then 1 else 0;
    assert before[other] == 0;
  }

  /** `kmp_table`: the failure table of a non-empty pattern. */
  method KmpTable(p: seq<char>) returns (t: VecWrapperFull)
    requires |p| > 0
    ensures t.v == Table(p)
    ensures t.Len() == |p| && forall x :: 0 <= x < t.Len() ==> t.Lookup(x) < |p|
  {
    var m := |p|;
    t := VecWrapperFull.FromElemN(0, m);
    assert t.v == Zeros(m) by {
      assert forall x :: 0 <= x < m ==> t.v[x] == t.Lookup(x) == 0;
    }
    var i: nat := 1;
    var j: nat := 0;
    while i < m
      invariant TableInv(p, t.v, i, j)
      invariant forall x :: 0 <= x < t.Len() ==> t.Lookup(x) < i
      invariant forall x :: i <= x < t.Len() ==> t.Lookup(x) == 0
      invariant TableLoop(p, t.v, i, j) == Table(p)
      decreases m - i, j
    {
      if p[i] == p[j] {
        t.Store(i, j + 1);
        i := i + 1;
        j := j + 1;
      } else if j == 0 {
        var zero := 0;
        t.Store(i, zero);
        i := i + 1;
      } else {
        j := t.Lookup(j - 1);
      }
    }
  }

  /** `kmp_search`: the index the search loop reports on a full match, or
      the target's length when the loop runs out. */
  method KmpSearch(pattern: seq<char>, target: seq<char>) returns (r: nat)
    requires |pattern| > 0 && |target| > 0 && |target| >= |pattern|
    ensures r == match Search(pattern, target) case Some(k) => k case None => |target|
    ensures r <= |target|
  {
    var t_i: nat := 0;
    var p_i: nat := 0;
    var target_len := |target|;
    var pattern_len := |pattern|;
    var result_idx: nat := 0;

    var t := KmpTable(pattern);

    while t_i < target_len && p_i < pattern_len
      invariant SearchInv(pattern, target, t.v, t_i, p_i, result_idx)
      invariant forall x :: 0 <= x < t.Len() ==> t.Lookup(x) < pattern_len
      invariant SearchLoop(pattern, target, t.v, t_i, p_i, result_idx) == Search(pattern, target)
      decreases target_len - t_i
    {
      if target[t_i] == pattern[p_i] {
        if result_idx == 0 {
          result_idx := t_i;
        }
        t_i := t_i + 1;
        p_i := p_i + 1;
        if p_i >= pattern_len {
          return result_idx;
        }
      } else {
        if p_i == 0 {
          p_i := 0;
        } else {
          p_i := t.Lookup(p_i - 1);
        }
        t_i := t_i + 1;
        result_idx := 0;
      }
    }
    r := target_len;
  }
}
