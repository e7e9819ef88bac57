// The contracts the sandbox's proofs assume of Rust's `Vec`
// (wave/prusti/src/tcb/verifier/spec.rs), given a concrete body here:
// a vector is its contents plus a capacity that never drops below the length.

module VerifierSpec {

  class Vec<T> {
    var elems: seq<T>
    var capacity: nat

    ghost predicate Valid()
      reads this
    {
      |elems| <= capacity
    }

    function Len(): nat
      reads this
    {
      |elems|
    }

    /** `Vec::new`: no elements and no capacity. */
    constructor ()
      ensures Valid()
      ensures Len() == 0 && capacity == 0
    {
      elems := [];
      capacity := 0;
    }

    /** `push` grows the length by one and never shrinks the capacity. */
    method Push(value: T)
      requires Valid()
      modifies this
      ensures Valid()
      ensures Len() == old(Len()) + 1
      ensures capacity >= old(capacity)
      ensures elems == old(elems) + [value]
    {
      elems := elems + [value];
      if capacity < |elems| {
        capacity := |elems|;
      }
    }

    /** `clear` empties the vector. */
    method Clear()
      requires Valid()
      modifies this
      ensures Valid()
      ensures Len() == 0
      ensures capacity == old(capacity)
    {
      elems := [];
    }

    /** `reserve_exact` keeps the contents and makes room for `additional` more. */
    method ReserveExact(additional: nat)
      requires Valid()
      modifies this
      ensures Valid()
      ensures elems == old(elems)
      ensures capacity >= old(Len()) + additional
      ensures capacity >= old(capacity)
    {
      if capacity < |elems| + additional {
        capacity := |elems| + additional;
      }
    }
  }
}
