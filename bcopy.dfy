// Copying one vector into another through a generic wrapper
// (prusti/bcopy.rs).

module BCopy {

  /** `VecWrapper<T>`: a vector whose entries are written in place. */
  class VecWrapper<T> {
    var v: seq<T>

    constructor(v0: seq<T>)
      ensures v == v0
    {
      v := v0;
    }

    /** `from_elem_n`: `n` copies of `elem`. */
    static method FromElemN(elem: T, n: nat) returns (w: VecWrapper<T>)
      ensures fresh(w)
      ensures |w.v| == n && forall i :: 0 <= i < n ==> w.v[i] == elem
    {
      var vec: seq<T> := [];
      var i := 0;
      while i < n
        invariant i <= n && |vec| == i
        invariant forall j :: 0 <= j < i ==> vec[j] == elem
      {
        vec := vec + [elem];
        i := i + 1;
      }
      w := new VecWrapper(vec);
    }

    function Len(): nat
      reads this
    {
      |v|
    }

    function Lookup(index: nat): T
      reads this
      requires index < |v|
    {
      v[index]
    }

    /** `set`: only entry `index` changes, so the length stays. */
    method Set(index: nat, value: T)
      modifies this
      requires index < |v|
      ensures v == old(v)[index := value]
    {
      v := v[index := value];
    }
  }

  /** `bcopy_aux`: copies `src` into the equally long `dst`, entry by
      entry. The two are distinct, as Rust's borrows guarantee. */
  method BCopyAux(src: VecWrapper<int>, dst: VecWrapper<int>)
    modifies dst
    requires src != dst && |src.v| == |dst.v|
    ensures dst.v == src.v
  {
    var i := 0;
    var n := src.Len();
    while i < n
      invariant i <= n == |dst.v|
      invariant forall j :: 0 <= j < i ==> dst.v[j] == src.v[j]
    {
      dst.Set(i, src.Lookup(i));
      i := i + 1;
    }
  }

  /** `bcopy`: a fresh vector with the contents of `src`. */
  method BCopy(src: VecWrapper<int>) returns (dst: VecWrapper<int>)
    ensures fresh(dst) && dst.v == src.v
  {
    var sz := src.Len();
    dst := VecWrapper<int>.FromElemN(0, sz);
    BCopyAux(src, dst);
  }
}
