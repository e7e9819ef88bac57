// Constants, errors and value types shared by the sandbox boundary
// (wave/prusti/src/types.rs).

module SandboxTypes {

  /** Size of the sandbox's linear memory, just below 4 GiB. */
  const LINEAR_MEM_SIZE: nat := 4294965096
  const TWO_POWER_20: nat := 1024 * 1024
  const PATH_MAX: nat := 4096

  const U32_LIMIT: nat := 0x1_0000_0000
  const USIZE_LIMIT: nat := 0x1_0000_0000_0000_0000

  type u8 = x: int | 0 <= x < 0x100
  type u16 = x: int | 0 <= x < 0x1_0000
  type u32 = x: int | 0 <= x < 0x1_0000_0000
  type u64 = x: int | 0 <= x < 0x1_0000_0000_0000_0000
  type usize = x: int | 0 <= x < 0x1_0000_0000_0000_0000

  /** A sandbox pointer is an untrusted 32-bit offset into linear memory. */
  type SboxPtr = u32
  type HostPtr = nat

  lemma LinearMemFitsU32()
    ensures LINEAR_MEM_SIZE < U32_LIMIT && PATH_MAX < LINEAR_MEM_SIZE
  {
  }

  datatype RuntimeError = Success | Efault | Eoverflow | Eloop | Enotcapable | Enametoolong

  /** RuntimeResult<T>; the failure members make `:-` behave as the
      `unwrap_result!` macro: an `Err` is handed back to the caller unchanged,
      an `Ok` is unwrapped. */
  datatype Result<T> = Ok(value: T) | Err(error: RuntimeError) {
    predicate IsFailure() {
      Err?
    }

    function PropagateFailure<U>(): (r: Result<U>)
      requires Err?
      ensures r.Err? && r.error == error
    {
      Err(error)
    }

    function Extract(): T
      requires Ok?
    {
      value
    }
  }

  datatype Option<T> = None | Some(value: T)

  /** An I/O vector as the sandbox supplies it: offset and length in linear memory. */
  datatype WasmIoVec = WasmIoVec(iov_base: u32, iov_len: u32)

  /** An I/O vector in host terms: a host address and a length. */
  datatype NativeIoVec = NativeIoVec(iov_base: HostPtr, iov_len: usize)

  /** Wrapper around the vector of sandbox I/O vectors (`WasmIoVecs`). */
  class WasmIoVecs {
    var iovs: seq<WasmIoVec>

    constructor ()
      ensures iovs == []
    {
      iovs := [];
    }

    function Len(): nat
      reads this
    {
      |iovs|
    }

    function Lookup(index: nat): (r: WasmIoVec)
      reads this
      requires index < Len()
      ensures r in iovs
    {
      iovs[index]
    }

    /** Append-only: the new value goes last and earlier entries stay. */
    method Push(value: WasmIoVec)
      modifies this
      ensures Len() == old(Len()) + 1
      ensures Lookup(old(Len())) == value
      ensures forall i :: 0 <= i < old(Len()) ==> Lookup(i) == old(Lookup(i))
    {
      iovs := iovs + [value];
    }
  }

  /** Wrapper around the vector of host I/O vectors (`NativeIoVecs`). */
  class NativeIoVecs {
    var iovs: seq<NativeIoVec>

    constructor ()
      ensures iovs == []
    {
      iovs := [];
    }

    function Len(): nat
      reads this
    {
      |iovs|
    }

    function Lookup(index: nat): (r: NativeIoVec)
      reads this
      requires index < Len()
      ensures r in iovs
    {
      iovs[index]
    }

    method Push(value: NativeIoVec)
      modifies this
      ensures Len() == old(Len()) + 1
      ensures Lookup(old(Len())) == value
      ensures forall i :: 0 <= i < old(Len()) ==> Lookup(i) == old(Lookup(i))
    {
      iovs := iovs + [value];
    }
  }

  /** A validated host file descriptor. */
  datatype HostFd = HostFd(raw: usize) {
    function ToRaw(): usize {
      raw
    }

    static function FromRaw(w: usize): (fd: HostFd)
      ensures fd.ToRaw() == w
    {
      HostFd(w)
    }
  }
}
