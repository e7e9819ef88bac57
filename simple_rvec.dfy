// Writing through a mutable reference chosen by a flag
// (lr/src/ex5_simple_rvec.rs).

module SimpleRVec {

  /** `test1`: writes 12 into slot 0 when `b` holds and into slot 1
      otherwise, leaves every other slot and the length alone, and returns
      0. */
  method Test1(vec: array<int>, b: bool) returns (r: int)
    modifies vec
    requires vec.Length >= 2
    ensures r == 0
    ensures b ==> vec[0] == 12
    ensures !b ==> vec[1] == 12
    ensures forall i :: 0 <= i < vec.Length && i != (if b then 0 else 1) ==> vec[i] == old(vec[i])
  {
    var slot := if b then 0 else 1;
    vec[slot] := 12;
    r := 0;
  }
}
