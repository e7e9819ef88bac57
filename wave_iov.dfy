// Reading an array of I/O vectors out of linear memory (wave/flux/src/iov.rs).

module Iov {
  import opened SandboxTypes
  import opened Runtime

  /** Where entry `i` starts: `iovs + i * 8` in u32 arithmetic, where both the
      product and the sum wrap modulo 2^32. */
  function EntryStart(iovs: u32, i: u32): (start: u32)
    ensures start == (iovs + 8 * i) % U32_LIMIT
  {
    (iovs + (i * 8) % U32_LIMIT) % U32_LIMIT
  }

  /** One loop iteration: the (ptr, len) pair read at the entry's address,
      rejected with Efault unless that buffer lies in linear memory; a read
      out of bounds is passed on as it is. */
  function ParseEntry(ctx: VmCtx, iovs: u32, i: u32): (r: Result<WasmIoVec>)
    reads ctx, ctx.mem
    requires ctx.Valid()
    ensures var pair := ctx.ReadU32Pair(EntryStart(iovs, i));
      && (pair.Err? ==> r == Err(Eoverflow))
      && (pair.Ok? ==> (r.Ok? <==> pair.value.0 + pair.value.1 < LINEAR_MEM_SIZE))
      && (pair.Ok? && r.Err? ==> r.error == Efault)
      && (r.Ok? ==> pair == Ok((r.value.iov_base, r.value.iov_len)))
  {
    var pair :- ctx.ReadU32Pair(EntryStart(iovs, i));
    var (ptr, len) := pair;
    if !ctx.FitsInLinMem(ptr, len) then Err(Efault) else Ok(WasmIoVec(ptr, len))
  }

  /** `parse_iovs`: all `iovcnt` entries in order, or the error of the first
      entry that fails, with nothing of the entries read so far. */
  method ParseIovs(ctx: VmCtx, iovs: u32, iovcnt: u32) returns (r: Result<seq<WasmIoVec>>)
    requires ctx.Valid()
    ensures r.Ok? <==> forall i: u32 :: i < iovcnt ==> ParseEntry(ctx, iovs, i).Ok?
    ensures r.Ok? ==>
      |r.value| == iovcnt
      && forall i: u32 :: i < iovcnt ==> r.value[i] == ParseEntry(ctx, iovs, i).value
    ensures r.Ok? ==>
      forall k :: 0 <= k < |r.value| ==> r.value[k].iov_base + r.value[k].iov_len < LINEAR_MEM_SIZE
    ensures r.Err? ==>
      exists i: u32 :: i < iovcnt && ParseEntry(ctx, iovs, i) == Err(r.error)
        && forall j: u32 :: j < i ==> ParseEntry(ctx, iovs, j).Ok?
  {
    var i: u32 := 0;
    var wasm_iovs: seq<WasmIoVec> := [];
    while i < iovcnt
      invariant i <= iovcnt && |wasm_iovs| == i
      invariant forall j: u32 :: j < i ==> ParseEntry(ctx, iovs, j).Ok? && wasm_iovs[j] == ParseEntry(ctx, iovs, j).value
    {
      var start := EntryStart(iovs, i);
      var v := ctx.ReadU32Pair(start);
      if v.Err? {
        assert ParseEntry(ctx, iovs, i) == Err(v.error);
        return Err(v.error);
      }
      var (ptr, len) := v.value;
      if !ctx.FitsInLinMem(ptr, len) {
        assert ParseEntry(ctx, iovs, i) == Err(Efault);
        return Err(Efault);
      }
      wasm_iovs := wasm_iovs + [WasmIoVec(ptr, len)];
      i := i + 1;
    }
    r := Ok(wasm_iovs);
    forall k | 0 <= k < |wasm_iovs|
      ensures wasm_iovs[k].iov_base + wasm_iovs[k].iov_len < LINEAR_MEM_SIZE
    {
      var j: u32 := k;
      assert wasm_iovs[j] == ParseEntry(ctx, iovs, j).value;
    }
  }
}
