// The second Prusti port of Knuth-Morris-Pratt (prusti/ex4_kmp/ex4_kmp.rs):
// the table behind `VecWrapperUSize`, and a search returning an option.

module KmpEx4 {
  import opened KmpCore

  /** `VecWrapperUSize`: a vector of `usize` behind a wrapper. */
  class VecWrapperUSize {
    var v: seq<nat>

    /** `init_vec_wrapper_usize`: `len` zeros. */
    constructor Init(len: nat)
      ensures Len() == len && forall x :: 0 <= x < Len() ==> Lookup(x) == 0
    {
      v := seq(len, _ => 0);
    }

    function Len(): (n: nat)
      reads this
      ensures n == |v|
    {
      |v|
    }

    function Lookup(index: nat): (r: nat)
      reads this
      requires index < Len()
      ensures r in v
    {
      v[index]
    }

    /** `store`: the length is kept, `index` holds `value`, every other entry
        keeps its value. */
    method Store(index: nat, value: nat)
      modifies this
      requires index < Len()
      ensures Len() == old(Len()) && Lookup(index) == value
      ensures forall i :: 0 <= i < Len() && i != index ==> Lookup(i) == old(Lookup(i))
    {
      v := v[index := value];
    }
  }

  datatype TrustedOption = Some(val: nat) | None
  {
    predicate IsNone() {
      match this
      case Some(_) => false
      case None => true
    }

    predicate IsSome() {
      !IsNone()
    }

    function Peek(): (r: nat)
      requires IsSome()
      ensures this == TrustedOption.Some(r)
    {
      match this
      case Some(val) => val
    }
  }

  /** The two tests of an option are each other's negation, and `Peek`
      undoes `Some`. */
  lemma TrustedOptionTests(o: TrustedOption)
    ensures o.IsSome() <==> o.Some?
    ensures o.IsNone() <==> o == TrustedOption.None
    ensures o.IsSome() ==> TrustedOption.Some(o.Peek()) == o
  {
  }

  /** `kmp_table`: the failure table of a non-empty pattern; every entry is
      at most the pattern's length. */
  method KmpTable(p: seq<char>) returns (t: VecWrapperUSize)
    requires |p| > 0
    ensures t.v == Table(p)
    ensures t.Len() == |p| && forall x :: 0 <= x < t.Len() ==> t.Lookup(x) <= |p|
  {
    var m := |p|;
    t := new VecWrapperUSize.Init(m);
    assert t.v == Zeros(m) by {
      assert forall x :: 0 <= x < m ==> t.v[x] == t.Lookup(x) == 0;
    }
    var i: nat := 1;
    var j: nat := 0;
    while i < m
      invariant forall x :: 0 <= x < t.Len() ==> t.Lookup(x) <= i
      invariant j <= i && i <= |p| && m == t.Len() && t.Len() == |p|
      invariant TableInv(p, t.v, i, j)
      invariant TableLoop(p, t.v, i, j) == Table(p)
      decreases m - i, j
    {
      if p[i] == p[j] {
        ghost var before := t.v;
        t.Store(i, j + 1);
        assert t.v == before[i := j + 1] by {
          assert forall x :: 0 <= x < |t.v| ==> t.v[x] == t.Lookup(x);
        }
        i := i + 1;
        j := j + 1;
      } else if j == 0 {
        var zero := 0;
        ghost var before := t.v;
        t.Store(i, zero);
        assert t.v == before[i := zero] by {
          assert forall x :: 0 <= x < |t.v| ==> t.v[x] == t.Lookup(x);
        }
        i := i + 1;
      } else {
        j := t.Lookup(j - 1);
      }
    }
  }

  /** `kmp_search`: `Some` of the index the search loop reports on a full
      match, which lies inside the target, or `None` when the loop runs out. */
  method KmpSearch(pattern: seq<char>, target: seq<char>) returns (r: TrustedOption)
    requires |pattern| > 0 && |target| > 0 && |target| >= |pattern|
    ensures r == match Search(pattern, target) case Some(k) => TrustedOption.Some(k) case None => TrustedOption.None
    ensures r.IsSome() ==> r.Peek() < |target|
  {
    var t_i: nat := 0;
    var p_i: nat := 0;
    var target_len := |target|;
    var pattern_len := |pattern|;
    var result_idx: nat := 0;

    var t := KmpTable(pattern);

    while t_i <= target_len - 1 && p_i <= pattern_len - 1
      invariant SearchInv(pattern, target, t.v, t_i, p_i, result_idx)
      invariant forall x :: 0 <= x < t.Len() ==> t.Lookup(x) <= target_len
      invariant SearchLoop(pattern, target, t.v, t_i, p_i, result_idx) == Search(pattern, target)
      decreases target_len - t_i
    {
      if target[t_i] == pattern[p_i] {
        if result_idx == 0 {
          result_idx := t_i;
        }
        t_i := t_i + 1;
        p_i := p_i + 1;
        if p_i >= pattern_len {
          return TrustedOption.Some(result_idx);
        }
      } else {
        if p_i == 0 {
          p_i := 0;
        } else {
          p_i := t.Lookup(p_i - 1);
        }
        t_i := t_i + 1;
        result_idx := 0;
      }
    }
    r := TrustedOption.None;
  }
}
