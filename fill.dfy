// Filling a vector with ascending values and checking them twice, once by
// index and once by popping (prusti/ex1_fill/ex1_fill.rs).

module Fill {
  import opened RustInts

  /** `VecWrapperI32`: a growable vector of `i32`. */
  class VecWrapperI32 {
    var v: seq<int>

    /** `new`: the empty vector. */
    constructor()
      ensures v == []
    {
      v := [];
    }

    function Len(): nat
      reads this
    {
      |v|
    }

    function Lookup(i: nat): int
      reads this
      requires i < |v|
    {
      v[i]
    }

    /** `push`: `x` goes last and the earlier entries stay. */
    method Push(x: int)
      modifies this
      ensures v == old(v) + [x]
    {
      v := v + [x];
    }

    /** `get`: the entry `lookup` names. */
    method Get(i: nat) returns (r: int)
      requires i < |v|
      ensures r == Lookup(i)
    {
      r := v[i];
    }

    /** `is_empty`. */
    function IsEmpty(): (r: bool)
      reads this
      ensures r <==> Len() == 0
    {
      |v| == 0
    }

    /** `pop`: removes and returns the last entry; the rest stays. */
    method Pop() returns (r: int)
      modifies this
      requires |v| > 0
      ensures v == old(v)[..|old(v)| - 1]
      ensures r == old(v)[|old(v)| - 1]
    {
      r := v[|v| - 1];
      v := v[..|v| - 1];
    }
  }

  /** `toss`: always true, so the fill loop stops only at its bound. */
  function Toss(): bool {
    true
  }

  /** The values `lo, lo + 1, …, hi - 1` (none when `hi <= lo`). */
  function Ascending(lo: int, hi: int): (s: seq<int>)
    ensures |s| == (if hi > lo then hi - lo else 0)
    ensures forall i :: 0 <= i < |s| ==> s[i] == lo + i
  {
    seq(if hi > lo then hi - lo else 0, i => lo + i)
  }

  /** `test(val)`: pushes `val, val + 1, …` while below `i32::MAX - 1`,
      asserts by index that every entry is at least `val`, then pops
      everything, asserting the same of each popped value. The model
      returns what was pushed and what was popped: the pushes ascend from
      `val`, the pops come in reverse order, and the vector ends empty. */
  method Test(val: int) returns (filled: seq<int>, popped: seq<int>)
    requires I32_MIN <= val <= I32_MAX
    ensures filled == Ascending(val, I32_MAX - 1)
    ensures |popped| == |filled|
    ensures forall j :: 0 <= j < |popped| ==> popped[j] == filled[|filled| - 1 - j]
    ensures forall j :: 0 <= j < |popped| ==> val <= popped[j]
  {
    var vec := new VecWrapperI32();
    var k := val;
    while Toss() && k < I32_MAX - 1
      invariant val <= k && (k <= I32_MAX - 1 || k == val)
      invariant vec.v == Ascending(val, k)
      invariant forall i :: 0 <= i < vec.Len() ==> val <= vec.Lookup(i)
      decreases I32_MAX - 1 - k
    {
      vec.Push(k);
      k := k + 1;
    }
    filled := vec.v;

    var i := 0;
    while i < vec.Len()
      invariant i <= vec.Len() && vec.v == filled
    {
      var x := vec.Get(i);
      assert val <= x;
      i := i + 1;
    }

    popped := [];
    while !vec.IsEmpty()
      invariant |vec.v| + |popped| == |filled| && vec.v == filled[..|vec.v|]
      invariant forall j :: 0 <= j < |popped| ==> popped[j] == filled[|filled| - 1 - j]
      invariant forall i :: 0 <= i < vec.Len() ==> val <= vec.Lookup(i)
      invariant forall j :: 0 <= j < |popped| ==> val <= popped[j]
      decreases |vec.v|
    {
      var x := vec.Pop();
      assert val <= x;
      popped := popped + [x];
    }
  }
}
