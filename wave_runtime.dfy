// The sandbox context and the operations that move bytes across the sandbox
// boundary (wave/flux/src/runtime.rs, wave/flux/src/tcb/sbox_mem.rs,
// wave/prusti/src/tcb/sbox_mem.rs, wave/prusti/src/tcb/verifier/spec.rs).

module Runtime {
  import opened SandboxTypes
  import opened Path

  // ---------------------------------------------------------------------------
  // Little-endian byte order (`from_le_bytes`, `to_le_bytes`)

  function Pow256(n: nat): (r: nat)
    ensures r >= 1
  {
    if n == 0 then 1 else 256 * Pow256(n - 1)
  }

  /** The value of `bytes` read least significant byte first. */
  function FromLeBytes(bytes: seq<u8>): (v: nat)
    ensures v < Pow256(|bytes|)
  {
    if bytes == [] then 0 else bytes[0] + 256 * FromLeBytes(bytes[1..])
  }

  /** The `width` low bytes of `v`, least significant first. */
  function ToLeBytes(v: nat, width: nat): (bytes: seq<u8>)
    ensures |bytes| == width
  {
    if width == 0 then [] else [v % 256] + ToLeBytes(v / 256, width - 1)
  }

  lemma {:induction false} FromToLeBytes(v: nat, width: nat)
    requires v < Pow256(width)
    ensures FromLeBytes(ToLeBytes(v, width)) == v
  {
    if width > 0 {
      FromToLeBytes(v / 256, width - 1);
      assert ToLeBytes(v, width)[1..] == ToLeBytes(v / 256, width - 1);
    }
  }

  lemma {:induction false} ToFromLeBytes(bytes: seq<u8>)
    ensures ToLeBytes(FromLeBytes(bytes), |bytes|) == bytes
  {
    if bytes != [] {
      var v := FromLeBytes(bytes);
      assert v % 256 == bytes[0] && v / 256 == FromLeBytes(bytes[1..]);
      ToFromLeBytes(bytes[1..]);
    }
  }

  lemma Pow256Widths()
    ensures Pow256(2) == 0x1_0000 && Pow256(4) == 0x1_0000_0000
    ensures Pow256(8) == 0x1_0000_0000_0000_0000
  {
    assert Pow256(4) == 256 * 256 * Pow256(2);
    assert Pow256(8) == 256 * 256 * 256 * 256 * Pow256(4);
  }

  /** `m` with `bytes` written over it from offset `at`. */
  function Splice(m: seq<u8>, at: nat, bytes: seq<u8>): seq<u8>
    requires at + |bytes| <= |m|
  {
    m[..at] + bytes + m[at + |bytes|..]
  }

  /** Writing then reading the same range gives back what was written, and
      every byte outside the range keeps its value. */
  lemma SpliceReadBack(m: seq<u8>, at: nat, bytes: seq<u8>)
    requires at + |bytes| <= |m|
    ensures |Splice(m, at, bytes)| == |m|
    ensures Splice(m, at, bytes)[at..at + |bytes|] == bytes
    ensures forall i :: 0 <= i < |m| && !(at <= i < at + |bytes|) ==> Splice(m, at, bytes)[i] == m[i]
  {
  }

  /** usize addition as a release build performs it: modulo 2^64. */
  function WrappingAddUsize(a: usize, b: usize): (r: usize)
    ensures r == (a + b) % USIZE_LIMIT
  {
    if a + b < USIZE_LIMIT then a + b else a + b - USIZE_LIMIT
  }

  // ---------------------------------------------------------------------------
  // The sandbox context

  class VmCtx {
    /** Host address of linear memory (`raw_ptr(mem)`, uninterpreted). */
    var raw: HostPtr
    var mem: array<u8>
    var memlen: usize
    var arg_buffer: seq<u8>
    var env_buffer: seq<u8>
    var envc: usize
    var argc: usize

    /** `ctx_safe`; `valid_linmem(raw)` is an uninterpreted host fact and is
        not part of it here. */
    predicate CtxSafe()
      reads this
    {
      memlen == LINEAR_MEM_SIZE
      && argc < 1024 && envc < 1024
      && |arg_buffer| < TWO_POWER_20 && |env_buffer| < TWO_POWER_20
    }

    /** `ctx_safe`, plus the allocation fact that linear memory holds `memlen` bytes. */
    ghost predicate Valid()
      reads this
    {
      CtxSafe() && mem.Length == memlen
    }

    /** `in_lin_mem`. */
    function InLinMem(ptr: SboxPtr): (r: bool)
      reads this
      requires Valid()
      ensures r <==> ptr < LINEAR_MEM_SIZE
    {
      ptr >= 0 && ptr < memlen
    }

    /** `in_lin_mem_usize`. */
    function InLinMemUsize(ptr: usize): (r: bool)
      reads this
      requires Valid()
      ensures r <==> ptr < LINEAR_MEM_SIZE
    {
      ptr >= 0 && ptr < memlen
    }

    /** `fits_in_lin_mem`: the sum is first formed in usize, where it cannot
        wrap, and only then in u32, where the pre-check keeps it in range. */
    function FitsInLinMem(buf: SboxPtr, cnt: u32): (r: bool)
      reads this
      requires Valid()
      ensures r <==> buf + cnt < LINEAR_MEM_SIZE
    {
      var total_size: usize := buf + cnt;
      if total_size >= memlen then false
      else InLinMem(buf) && InLinMem(cnt) && buf <= (buf + cnt) as u32
    }

    /** `fits_in_lin_mem_usize`: both sums wrap modulo 2^64; the two
        membership tests rule out a wrapped sum. */
    function FitsInLinMemUsize(buf: usize, cnt: usize): (r: bool)
      reads this
      requires Valid()
      ensures r <==> buf + cnt < LINEAR_MEM_SIZE
    {
      var total_size := WrappingAddUsize(buf, cnt);
      if total_size >= memlen then false
      else InLinMemUsize(buf) && InLinMemUsize(cnt) && buf <= WrappingAddUsize(buf, cnt)
    }

    /** `memcpy_from_sandbox`. The source's body is a stub; the copy below is
        the `copy_nonoverlapping` its commented-out body describes. */
    method MemcpyFromSandbox(dst: array<u8>, src: SboxPtr, n: u32)
      requires Valid()
      requires dst.Length == n && src + n < LINEAR_MEM_SIZE
      requires dst != mem
      modifies dst
      ensures dst[..] == mem[src..src + n]
    {
      forall i | 0 <= i < n {
        dst[i] := mem[src + i];
      }
    }

    /** `memcpy_to_sandbox`. The source's body is a stub; the copy below is
        the `copy_nonoverlapping` its commented-out body describes. */
    method MemcpyToSandbox(dst: SboxPtr, src: seq<u8>, n: u32)
      requires Valid()
      requires dst + n < LINEAR_MEM_SIZE && n <= |src|
      modifies mem
      ensures Valid()
      ensures mem[..] == Splice(old(mem[..]), dst, src[..n])
    {
      forall i | 0 <= i < n {
        mem[dst + i] := src[i];
      }
      assert mem[..] == Splice(old(mem[..]), dst, src[..n]);
    }

    /** `copy_buf_from_sandbox`: a fresh buffer of exactly `n` bytes. */
    method CopyBufFromSandbox(src: SboxPtr, n: u32) returns (host_buffer: array<u8>)
      requires Valid()
      requires src + n < LINEAR_MEM_SIZE
      ensures fresh(host_buffer)
      ensures host_buffer[..] == mem[src..src + n]
    {
      host_buffer := new u8[n](_ => 0);
      MemcpyFromSandbox(host_buffer, src, n);
    }

    /** `copy_buf_to_sandbox`: Efault, changing nothing, unless the source
        holds `n` bytes and the destination range fits. */
    method CopyBufToSandbox(dst: SboxPtr, src: seq<u8>, n: u32) returns (r: Result<u32>)
      requires Valid()
      modifies mem
      ensures Valid()
      ensures r.Ok? <==> n <= |src| && dst + n < LINEAR_MEM_SIZE
      ensures r.Err? ==> r.error == Efault && mem[..] == old(mem[..])
      ensures r.Ok? ==> r.value == 0 && mem[..] == Splice(old(mem[..]), dst, src[..n])
    {
      if |src| < n || !FitsInLinMem(dst, n) {
        return Err(Efault);
      }
      MemcpyToSandbox(dst, src, n);
      return Ok(0);
    }

    /** `copy_arg_buffer_to_sandbox`: the whole argument buffer, which must be
        exactly `n` bytes long. */
    method CopyArgBufferToSandbox(dst: SboxPtr, n: u32) returns (r: Result<()>)
      requires Valid()
      modifies mem
      ensures Valid()
      ensures r.Ok? <==> |arg_buffer| == n && dst + n < LINEAR_MEM_SIZE
      ensures r.Err? ==> r.error == Efault && mem[..] == old(mem[..])
      ensures r.Ok? ==> mem[..] == Splice(old(mem[..]), dst, arg_buffer)
    {
      var arg_buffer := this.arg_buffer;
      if |arg_buffer| != n || !FitsInLinMem(dst, n) {
        return Err(Efault);
      }
      MemcpyToSandbox(dst, arg_buffer, n);
      assert arg_buffer[..n] == arg_buffer;
      return Ok(());
    }

    /** `copy_environ_buffer_to_sandbox`: as above for the environment buffer. */
    method CopyEnvironBufferToSandbox(dst: SboxPtr, n: u32) returns (r: Result<int>)
      requires Valid()
      modifies mem
      ensures Valid()
      ensures r.Ok? <==> |env_buffer| == n && dst + n < LINEAR_MEM_SIZE
      ensures r.Err? ==> r.error == Efault && mem[..] == old(mem[..])
      ensures r.Ok? ==> r.value == 0 && mem[..] == Splice(old(mem[..]), dst, env_buffer)
    {
      var env_buffer := this.env_buffer;
      if |env_buffer| != n || !FitsInLinMem(dst, n) {
        return Err(Efault);
      }
      MemcpyToSandbox(dst, env_buffer, n);
      assert env_buffer[..n] == env_buffer;
      return Ok(0);
    }

    /** `translate_path`: copy the path out of the sandbox and hand it to the
        resolver (`resolve_path`, not part of this model), whose safety
        promise carries over to the result. */
    method TranslatePath(
      resolve: (seq<u8>, bool, HostFd) -> Result<HostPath>,
      path: SboxPtr, path_len: u32, should_follow: bool, dirfd: HostFd)
      returns (r: Result<HostPath>)
      requires Valid()
      requires ResolverSafe(resolve)
      ensures path + path_len >= LINEAR_MEM_SIZE ==> r == Err(Eoverflow)
      ensures path + path_len < LINEAR_MEM_SIZE ==>
        r == resolve(mem[path..path + path_len], should_follow, dirfd)
      ensures r.Ok? ==> HostPathSafe(r.value, should_follow)
    {
      if !FitsInLinMem(path, path_len) {
        return Err(Eoverflow);
      }
      var host_buffer := CopyBufFromSandbox(path, path_len);
      r := resolve(host_buffer[..], should_follow, dirfd);
    }

    /** `read_u16`. */
    function ReadU16(start: usize): (r: u16)
      reads this, mem
      requires Valid() && start + 2 < LINEAR_MEM_SIZE
      ensures r == FromLeBytes(mem[start..start + 2])
    {
      Pow256Widths();
      assert mem[start..start + 2] == [mem[start], mem[start + 1]];
      FromLeBytes([mem[start], mem[start + 1]])
    }

    /** `read_u32`. */
    function ReadU32(start: usize): (r: u32)
      reads this, mem
      requires Valid() && start + 4 < LINEAR_MEM_SIZE
      ensures r == FromLeBytes(mem[start..start + 4])
    {
      Pow256Widths();
      assert mem[start..start + 4] == [mem[start], mem[start + 1], mem[start + 2], mem[start + 3]];
      FromLeBytes([mem[start], mem[start + 1], mem[start + 2], mem[start + 3]])
    }

    /** `read_u64`. */
    function ReadU64(start: usize): (r: u64)
      reads this, mem
      requires Valid() && start + 8 < LINEAR_MEM_SIZE
      ensures r == FromLeBytes(mem[start..start + 8])
    {
      Pow256Widths();
      assert mem[start..start + 8] == [mem[start], mem[start + 1], mem[start + 2], mem[start + 3],
                                       mem[start + 4], mem[start + 5], mem[start + 6], mem[start + 7]];
      FromLeBytes([mem[start], mem[start + 1], mem[start + 2], mem[start + 3],
                   mem[start + 4], mem[start + 5], mem[start + 6], mem[start + 7]])
    }

    /** `read_u32_pair`: Eoverflow unless all eight bytes lie in linear memory. */
    function ReadU32Pair(start: usize): (r: Result<(u32, u32)>)
      reads this, mem
      requires Valid()
      ensures r.Ok? <==> start + 8 < LINEAR_MEM_SIZE
      ensures r.Err? ==> r.error == Eoverflow
      ensures r.Ok? ==>
        r.value.0 == FromLeBytes(mem[start..start + 4])
        && r.value.1 == FromLeBytes(mem[start + 4..start + 8])
    {
      if !FitsInLinMemUsize(start, 8) then Err(Eoverflow)
      else Ok((ReadU32(start), ReadU32(start + 4)))
    }

    /** `write_u8`: one byte changes. */
    method WriteU8(offset: usize, v: u8)
      requires Valid() && offset + 1 < LINEAR_MEM_SIZE
      modifies mem
      ensures Valid()
      ensures mem[..] == old(mem[..])[offset := v]
    {
      mem[offset] := v;
    }

    /** `translate_iov`: rebase the sandbox offset onto the host address of
        linear memory; no bounds check, never fails. */
    function TranslateIov(iov: WasmIoVec): (r: NativeIoVec)
      reads this
      requires Valid()
      ensures r.iov_base == raw + iov.iov_base && r.iov_len == iov.iov_len
      ensures r.iov_base >= raw
    {
      NativeIoVec(raw + iov.iov_base, iov.iov_len)
    }

    /** `translate_iovs`: every vector translated, in order. */
    method TranslateIovs(iovs: seq<WasmIoVec>) returns (native_iovs: NativeIoVecs)
      requires Valid()
      ensures fresh(native_iovs)
      ensures native_iovs.Len() == |iovs|
      ensures forall i :: 0 <= i < |iovs| ==> native_iovs.Lookup(i) == TranslateIov(iovs[i])
    {
      var idx := 0;
      native_iovs := new NativeIoVecs();
      var iovcnt := |iovs|;
      while idx < iovcnt
        invariant 0 <= idx <= iovcnt
        invariant native_iovs.Len() == idx
        invariant forall i :: 0 <= i < idx ==> native_iovs.Lookup(i) == TranslateIov(iovs[i])
      {
        var iov := iovs[idx];
        var native_iov := TranslateIov(iov);
        native_iovs.Push(native_iov);
        idx := idx + 1;
      }
    }
  }

  /** Eight bytes laid out as two little-endian u32 values read back as that pair. */
  lemma ReadU32PairRoundTrip(ctx: VmCtx, start: usize, x1: u32, x2: u32)
    requires ctx.Valid() && start + 8 < LINEAR_MEM_SIZE
    requires ctx.mem[start..start + 8] == ToLeBytes(x1, 4) + ToLeBytes(x2, 4)
    ensures ctx.ReadU32Pair(start) == Ok((x1, x2))
  {
    Pow256Widths();
    FromToLeBytes(x1, 4);
    FromToLeBytes(x2, 4);
    assert ctx.mem[start..start + 4] == ctx.mem[start..start + 8][..4];
    assert ctx.mem[start + 4..start + 8] == ctx.mem[start..start + 8][4..];
  }

  /** Copying bytes into the sandbox and copying the same range back out
      returns the bytes copied in. */
  lemma CopyRoundTrip(before: seq<u8>, after: seq<u8>, dst: nat, src: seq<u8>, n: nat)
    requires n <= |src| && dst + n <= |before|
    requires after == Splice(before, dst, src[..n])
    ensures after[dst..dst + n] == src[..n]
  {
    SpliceReadBack(before, dst, src[..n]);
  }
}
