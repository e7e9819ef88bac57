# flux-examples in Dafny

This project models the core of a collection of small Rust verification
benchmarks:

- the sandbox boundary of a WASI runtime (`wave/`). It covers the linear-memory
  bounds checks, the byte copies across the boundary, little-endian reads,
  I/O-vector parsing and translation, and the path-component bookkeeping that
  keeps a resolved path inside the sandbox;
- the array benchmarks:
  - a union-find over vectors (`PartitionVec`);
  - three ports of Knuth-Morris-Pratt search;
  - binary search and in-place heap sort;
  - the integer simplex pivot helpers;
  - two integer k-means variants;
  - `bcopy`, `dotprod`, `arraymax`;
  - four `min_index` variants;
  - the fill/pop test and the two-index write test;
- `count_lines.py`, the line classifier behind the benchmark statistics.

Each source file becomes one Dafny module, in the source's own form:

- State the source updates in place is a `class` whose methods carry
  `modifies` clauses: the vector wrappers, `VmCtx`, `FOwnedComponents`,
  `PartitionVec` and `RMatI32`.
- In-place array algorithms work on an `array` (heap sort, the two-index
  write).
- Loops stay `while`/`for` loops. Each is proved against a specification
  function whose own properties are proved as lemmas.

Shared pieces:

- `RustInts`: the `as i32` cast, truncating division and panics as an
  explicit `Outcome`.
- `KMeansSpec`: what a k-means round computes.
- `KmpCore`: the failure table and the two search loops, as written and as
  intended.

## Model

| member | source | states |
|---|---|---|
| SandboxTypes.LinearMemFitsU32 | wave/prusti/src/types.rs:4-8 | `LINEAR_MEM_SIZE` is below 2^32 and above `PATH_MAX` |
| SandboxTypes.Result.PropagateFailure | wave/prusti/src/types.rs:86-96 | `unwrap_result!` hands an `Err` back to the caller with the same error |
| SandboxTypes.WasmIoVecs.constructor | wave/prusti/src/types.rs:48-51 | `new` is empty |
| SandboxTypes.WasmIoVecs.Lookup | wave/prusti/src/types.rs:55-59 | lookup needs `index < len` and returns an element of the vector |
| SandboxTypes.WasmIoVecs.Push | wave/prusti/src/tcb/sbox_mem.rs:60-68 | the length grows by one, `value` is last, and earlier entries are unchanged |
| SandboxTypes.NativeIoVecs.constructor | wave/prusti/src/types.rs:72-75 | `new` is empty |
| SandboxTypes.NativeIoVecs.Lookup | wave/prusti/src/types.rs:79-83 | lookup needs `index < len` and returns an element of the vector |
| SandboxTypes.NativeIoVecs.Push | wave/prusti/src/tcb/sbox_mem.rs:71-79 | append-only frame: the length grows by one, `value` is last, earlier entries are kept |
| SandboxTypes.HostFd.FromRaw | wave/prusti/src/types.rs:139-147 | `from_raw(w).to_raw() == w` |
| VerifierSpec.Vec.constructor | wave/prusti/src/tcb/verifier/spec.rs:25-27 | `Vec::new` has length 0 and capacity 0 |
| VerifierSpec.Vec.Push | wave/prusti/src/tcb/verifier/spec.rs:32-34 | the length grows by one, the capacity never shrinks, and the value is appended |
| VerifierSpec.Vec.Clear | wave/prusti/src/tcb/verifier/spec.rs:36-37 | the length becomes 0 |
| VerifierSpec.Vec.ReserveExact | wave/prusti/src/tcb/verifier/spec.rs:42-44 | the contents are kept and the capacity is at least the old length plus `additional` |
| Runtime.FromToLeBytes | wave/flux/src/runtime.rs:154-184 | little-endian decoding inverts encoding for every value that fits the width |
| Runtime.ToFromLeBytes | wave/flux/src/runtime.rs:154-184 | encoding inverts decoding for every byte string |
| Runtime.Pow256Widths | wave/flux/src/runtime.rs:154-184 | 2, 4 and 8 bytes span exactly the `u16`, `u32` and `u64` ranges |
| Runtime.SpliceReadBack | wave/flux/src/tcb/sbox_mem.rs:54-62 | after a write into memory, the written range reads back as the bytes written and no other byte changes |
| Runtime.WrappingAddUsize | wave/flux/src/runtime.rs:72 | usize addition wraps modulo 2^64 |
| Runtime.VmCtx.InLinMem | wave/flux/src/runtime.rs:50-54 | true exactly when `ptr < LINEAR_MEM_SIZE` |
| Runtime.VmCtx.InLinMemUsize | wave/flux/src/runtime.rs:56-59 | true exactly when `ptr < LINEAR_MEM_SIZE` |
| Runtime.VmCtx.FitsInLinMem | wave/flux/src/runtime.rs:43-68 | true exactly when `buf + cnt < LINEAR_MEM_SIZE` over the integers; the widened pre-check keeps the later `u32` sum in range |
| Runtime.VmCtx.FitsInLinMemUsize | wave/flux/src/runtime.rs:70-79 | true exactly when `buf + cnt < LINEAR_MEM_SIZE`, even though both sums wrap modulo 2^64 |
| Runtime.VmCtx.MemcpyFromSandbox | wave/flux/src/tcb/sbox_mem.rs:15-29 | needs `src + n < LINEAR_MEM_SIZE` and a destination of length `n`; fills it with `mem[src..src+n]` |
| Runtime.VmCtx.MemcpyToSandbox | wave/flux/src/tcb/sbox_mem.rs:49-63 | needs `dst + n < LINEAR_MEM_SIZE` and `n <= src.len()`; writes `src[..n]` at `dst` and nothing else, and keeps `ctx_safe` |
| Runtime.VmCtx.CopyBufFromSandbox | wave/flux/src/runtime.rs:82-90 | a fresh buffer of exactly `n` bytes equal to `mem[src..src+n]` |
| Runtime.VmCtx.CopyBufToSandbox | wave/flux/src/runtime.rs:92-103 | `Efault` with memory untouched unless `src` holds `n` bytes and the range fits; otherwise `Ok(0)`, with `src[..n]` at `dst` and every other byte kept |
| Runtime.VmCtx.CopyArgBufferToSandbox | wave/flux/src/runtime.rs:105-114 | `Efault` with memory untouched unless the argument buffer is exactly `n` bytes and fits; otherwise it lands at `dst` |
| Runtime.VmCtx.CopyEnvironBufferToSandbox | wave/flux/src/runtime.rs:116-129 | as above for the environment buffer, returning `Ok(0)` |
| Runtime.VmCtx.TranslatePath | wave/flux/src/runtime.rs:131-145 | `Eoverflow` before any copy when the path does not fit; otherwise the resolver's answer on exactly the path bytes, and an `Ok` path satisfies `HostPathSafe(should_follow)` |
| Runtime.VmCtx.ReadU16 | wave/flux/src/runtime.rs:154-158 | the little-endian value of `mem[start..start+2]` |
| Runtime.VmCtx.ReadU32 | wave/flux/src/runtime.rs:160-169 | the little-endian value of `mem[start..start+4]` |
| Runtime.VmCtx.ReadU64 | wave/flux/src/runtime.rs:171-184 | the little-endian value of `mem[start..start+8]` |
| Runtime.VmCtx.ReadU32Pair | wave/flux/src/runtime.rs:186-195 | `Eoverflow` exactly when the 8 bytes do not fit; otherwise the two little-endian words at `start` and `start + 4` |
| Runtime.VmCtx.WriteU8 | wave/flux/src/runtime.rs:198-201 | exactly one byte changes, to `v` |
| Runtime.VmCtx.TranslateIov | wave/flux/src/tcb/sbox_mem.rs:5-12 | total and unchecked: `iov_base = raw + iov.iov_base`, `iov_len = iov.iov_len` (also wave/prusti/src/tcb/sbox_mem.rs:7-20) |
| Runtime.VmCtx.TranslateIovs | wave/flux/src/runtime.rs:235-247 | the same length as the input, with entry `i` equal to `translate_iov(iovs[i])`, in order |
| Runtime.ReadU32PairRoundTrip | wave/flux/src/runtime.rs:188-195 | two words laid out little-endian read back as the same pair |
| Runtime.CopyRoundTrip | wave/flux/src/runtime.rs:92-103 | bytes copied into the sandbox read back unchanged from the same range |
| Iov.EntryStart | wave/flux/src/iov.rs:7 | entry `i` starts at `(iovs + 8*i) mod 2^32` |
| Iov.ParseEntry | wave/flux/src/iov.rs:9-19 | a read error becomes `Eoverflow`; otherwise `Ok` exactly when the pair fits in linear memory (else `Efault`), and it is the pair read |
| Iov.ParseIovs | wave/flux/src/iov.rs:3-26 | `Ok` exactly when every entry parses; the result has `iovcnt` entries, in order, each fitting in linear memory; otherwise the error of the first failing entry, with nothing partial returned |
| Path.DepthScanMeaning | wave/flux/src/tcb/path.rs:117-144 | a non-negative scan result means no `RootDir` and every prefix depth is non-negative, and it then equals #Normal − #ParentDir; a negative result is `DEPTH_ERR` or −1 |
| Path.DepthExamples | wave/flux/src/tcb/path.rs:125-134 | `a/../b` has depth 1, a leading `..` gives −1, and a root component gives `DEPTH_ERR` |
| Path.FOwnedComponents.constructor | wave/flux/src/tcb/path.rs:55-61 | size 0, ns_prefix 0, depth 0, not relative |
| Path.FOwnedComponents.Push | wave/flux/src/tcb/path.rs:63-68 | appends the component; size grows by one and ns_prefix is kept |
| Path.FOwnedComponents.Unparse | wave/flux/src/tcb/path.rs:70-75 | `None` exactly when serialisation fails; otherwise the path satisfies `HostPathOc` of this sequence |
| Path.UnparseSafe | wave/flux/src/tcb/path.rs:31-39 | a sequence that stays inside the sandbox and satisfies `LastSymLink(b)` unparses to a `HostPathSafe(b)` path |
| Path.IsRelative | wave/flux/src/tcb/path.rs:104-110 | on a non-empty sequence, true exactly when component 0 is not the root |
| Path.InsideIsRelative | wave/flux/src/tcb/path.rs:104-144 | a sequence with non-negative depth starts with a component other than the root |
| Path.MinDepth | wave/flux/src/tcb/path.rs:117-144 | the loop returns the sequence's depth index |
| Path.FreshComponents | wave/flux/src/tcb/path.rs:164-170 | a fresh empty sequence: size 0, ns_prefix 0, depth 0 |
| Path.ReadLinkAtH | wave/flux/src/tcb/path.rs:146-156 | `None` exactly when the host says `out_path` is not a link; otherwise a fresh sequence holding the link's components, with `ns_prefix` set to its size (not the source's refinement, see Left out) |
| Path.MaybeExpandComponent | wave/flux/src/tcb/path.rs:181-196 | on a link: `out_path` is unchanged, `num_symlinks` grows by one, and the link is returned; otherwise `comp` is appended, the count is unchanged and the result is `None`; `NoSymLinks` holds in both cases |
| PartitionVecs.Metadata.New | prusti/partition_vec.rs:36-44 | parent and link are the index, rank is 0 |
| PartitionVecs.Metadata.SetParent | prusti/partition_vec.rs:53-58 | only the parent changes |
| PartitionVecs.Metadata.SetLink | prusti/partition_vec.rs:67-72 | only the link changes |
| PartitionVecs.Metadata.SetRank | prusti/partition_vec.rs:81-86 | only the rank changes |
| PartitionVecs.ParentPowReachesRoot | prusti/partition_vec.rs:673-690 | following parents long enough ends at the root, which is its own parent |
| PartitionVecs.RootOfParent | prusti/partition_vec.rs:673-690 | an element and its parent have the same root |
| PartitionVecs.SelfLinkCycle | prusti/partition_vec.rs:605-611 | an element linked to itself is alone on its link cycle |
| PartitionVecs.UnionMerges | prusti/partition_vec.rs:409-438 | the corrected union keeps the forest acyclic and sends exactly the members of the two sets to one root |
| PartitionVecs.VecWrapperMetadata.Store | prusti/partition_vec.rs:158-167 | the length is kept, `index` holds `value`, and every other slot is unchanged |
| PartitionVecs.PartitionVec.constructor | prusti/partition_vec.rs:351-358 | both vectors empty, invariant established |
| PartitionVecs.PartitionVec.Find | prusti/partition_vec.rs:673-690 | an in-bounds index that is its own parent: the root of the element's tree |
| PartitionVecs.PartitionVec.FindFinal | prusti/partition_vec.rs:701-715 | the loop returns the same root as `find` |
| PartitionVecs.PartitionVec.SameSet | prusti/partition_vec.rs:468-475 | true exactly when both elements have the same root |
| PartitionVecs.PartitionVec.OtherSets | prusti/partition_vec.rs:505-512 | the negation of `same_set` |
| PartitionVecs.PartitionVec.IsSingleton | prusti/partition_vec.rs:605-611 | true exactly when the link cycle through `index` is `index` alone |
| PartitionVecs.PartitionVec.LenOfSet | prusti/partition_vec.rs:642-658 | the length of the link cycle through `index`; it is 1 exactly when the element is a singleton |
| PartitionVecs.PartitionVec.MakeSingleton | prusti/partition_vec.rs:549-578 | only `meta[index] := Metadata::new(index)` persists; the element is then a singleton and its own root |
| PartitionVecs.PartitionVec.Union | prusti/partition_vec.rs:402-438 | as written: the invariants hold and `meta` is unchanged |
| PartitionVecs.PartitionVec.LinkAndHang | prusti/partition_vec.rs:417-437 | the stores of the corrected union: the link cycles are spliced and the lower-ranked root is hung |
| PartitionVecs.PartitionVec.UnionStored | prusti/partition_vec.rs:409-438 | the corrected union: afterwards the two elements are in one set, and exactly the members of their two sets share the new root |
| PartitionVecs.UnionExample | prusti/partition_vec.rs:402-438 | on three singletons, 0 and 2 start in different sets (where the union as written leaves them); the union with its stores kept links 0 to 2 and 2 back to 0 |
| KmpCore.Table | src/ex4_kmp.rs:3-21 | a table of the pattern's length with `t[0] == 0` and `t[x] <= x` |
| KmpCore.TableIsFailureFunction | src/ex4_kmp.rs:8-18 | every entry is the length of the longest proper border of its prefix |
| KmpCore.Search | src/ex4_kmp.rs:34-54 | the search loop as written; a reported index is below the target length |
| KmpCore.KmpSearchCorrect | src/ex4_kmp.rs:23-55 | the corrected search returns the first occurrence, and `None` only when there is none |
| KmpCore.SearchReportsFalseMatch | src/ex4_kmp.rs:44-52 | the loop as written reports a match of "aab" at 3 in "aaxab", where there is none |
| KmpCore.SearchMissesOccurrence | src/ex4_kmp.rs:44-52 | the loop as written finds no "aab" in "aaab", which holds it at 1 |
| KmpCore.SearchMisreportsStartZero | src/ex4_kmp.rs:36-38 | the loop as written reports "ab" in "ab" at 1 instead of 0 |
| KmpPrusti.VecWrapperFull.Len | prusti/kmp.rs:13-17 | the length of the vector |
| KmpPrusti.VecWrapperFull.Store | prusti/kmp.rs:26-33 | the length is kept, `index` holds `value`, and every other entry is unchanged (`==`) |
| KmpPrusti.VecWrapperFull.FromElemN | prusti/kmp.rs:35-47 | `n` copies of `elem` |
| KmpPrusti.StoreBodyBreaksContract | prusti/kmp.rs:29 | with two or more entries, the store's own body breaks its `<` frame |
| KmpPrusti.StoreContractUnsatisfiableOnZeros | prusti/kmp.rs:29 | on the all-zero table no store can meet the `<` frame |
| KmpPrusti.KmpTable | prusti/kmp.rs:51-77 | a non-empty pattern's failure table: the pattern's length, every entry below it |
| KmpPrusti.KmpSearch | prusti/kmp.rs:79-115 | the index the search loop reports, or `target.len()` when no full match completes |
| KmpEx4.VecWrapperUSize.Init | prusti/ex4_kmp/ex4_kmp.rs:88-94 | `len` zeros |
| KmpEx4.VecWrapperUSize.Store | prusti/ex4_kmp/ex4_kmp.rs:47-56 | the length is kept, `index` holds `value`, and every other entry is unchanged |
| KmpEx4.TrustedOption.Peek | prusti/ex4_kmp/ex4_kmp.rs:78-85 | needs `is_some`, and returns the value held |
| KmpEx4.TrustedOptionTests | prusti/ex4_kmp/ex4_kmp.rs:64-85 | `is_some` is `Some`, `is_none` is `None`, and `peek` gives back the value |
| KmpEx4.KmpTable | prusti/ex4_kmp/ex4_kmp.rs:96-126 | the failure table: the pattern's length, every entry at most it |
| KmpEx4.KmpSearch | prusti/ex4_kmp/ex4_kmp.rs:128-167 | `Some` of the index the loop reports (below the target length), or `None` when no full match completes |
| KmpSrc.KmpTable | src/ex4_kmp.rs:3-21 | the failure table, with `t[0] == 0` |
| KmpSrc.KmpSearch | src/ex4_kmp.rs:23-55 | the index the search loop reports as an `i32`, or −1 |
| KmpSrc.SearchStr | src/ex4_kmp.rs:57-61 | `kmp_search`'s result, unchanged |
| KmpSrc.SearchBroExample | src/main.rs:55 | "bro" is reported at 8 in "thequickbrownfox", where it does occur |
| KmpSrc.KmpSearchFirst | src/ex4_kmp.rs:23-55 | the corrected loop: the first occurrence, or −1 exactly when there is none |
| BSearch.BinarySearch | prusti/bsearch/bsearch.rs:25-53 | either the length or an index holding `k`; the length when `k` is absent; on a sorted vector an index exactly when `k` is present |
| HeapSort.RootIsMax | lr/src/heapsort.rs:32-54 | the root of a heap is its largest element |
| HeapSort.Swap | lr/src/heapsort.rs:26 | `vec.swap`: the two entries trade places |
| HeapSort.ShiftDown | lr/src/heapsort.rs:32-54 | returns 0, permutes only `[start, end]`, and turns a heap with a hole at `start` into a heap |
| HeapSort.HeapSort | lr/src/heapsort.rs:8-30 | returns 0, and the vector ends ascending and a permutation of the input |
| Simplex.Incr | prusti/simplex.rs:10-14 | a positive result for a non-negative input |
| Simplex.IsNeg | prusti/simplex.rs:34-45 | true exactly when some objective coefficient in columns `1..n-1` is negative |
| Simplex.Unb1 | prusti/simplex.rs:50-79 | true exactly when some column in `1..n-1` is negative in every row |
| Simplex.EnterVar | prusti/simplex.rs:85-103 | `0 < r` and `r + 1 < n`: the first column of least objective coefficient |
| Simplex.DepartVar | prusti/simplex.rs:112-133 | `0 < r < m`: the first candidate row of least ratio |
| Simplex.InitRatioI | prusti/simplex.rs:138-162 | the first row from 1 on with a positive coefficient; `None` (the source's `die`) exactly when there is none |
| RustInts.AsI32 | prusti/kmeans/kmeans.rs:188-191 | `as i32` on a `usize`: in the i32 range, the identity up to `i32::MAX`, and 0 exactly on multiples of 2^32 |
| RustInts.TruncDiv | prusti/kmeans/kmeans.rs:188-191 | division truncating toward zero: the quotient brackets the dividend |
| KMeansSpec.VecAdd | prusti/kmeans/kmeans.rs:237-251 | entry `i` is `x[i] + y[i]` |
| KMeansSpec.SqDistZeroIffEqual | prusti/kmeans/kmeans.rs:222-234 | the distance is non-negative, and 0 exactly between equal points |
| KMeansSpec.SqDistSymmetric | prusti/kmeans/kmeans.rs:222-234 | the distance is symmetric |
| KMeansSpec.NearestIsFirstClosest | prusti/kmeans/kmeans.rs:286-309 | the first center of least distance when that distance is below `i32::MAX`, and 0 otherwise |
| KMeansSpec.CountsCoverPoints | prusti/kmeans/kmeans.rs:326-345 | every point joins exactly one center: the cluster counts add up to the number of points |
| KMeansSpec.Normalized | prusti/kmeans/kmeans.rs:254-266 | panics exactly when there are entries and `n as i32` is 0; otherwise the same length |
| KMeansSpec.IterateOneMore | prusti/kmeans/kmeans.rs:349-357 | one more round is one more step after the last round |
| KMeansSpec.IteratePanicStays | prusti/kmeans/kmeans.rs:349-357 | once a run panics, every longer run panics |
| KMeans.VecWrapperUSize.Store | prusti/kmeans/kmeans.rs:25-38 | a write through `index_mut`: only that entry changes |
| KMeans.VecWrapperI32.Store | prusti/kmeans/kmeans.rs:63-73 | only entry `index` changes |
| KMeans.VecWrapperVecI32.constructor | prusti/kmeans/kmeans.rs:119-123 | the empty list |
| KMeans.VecWrapperVecI32.Push | prusti/kmeans/kmeans.rs:154-164 | the point is appended |
| KMeans.VecWrapperVecI32.StoreRow | prusti/kmeans/kmeans.rs:165-179 | a point updated through `index_mut`: only that point changes |
| KMeans.FromElemNI32 | prusti/kmeans/kmeans.rs:193-204 | `n` copies of `elem` |
| KMeans.FromElemNUSize | prusti/kmeans/kmeans.rs:206-217 | `n` copies of `elem` |
| KMeans.Dist | prusti/kmeans/kmeans.rs:221-234 | the squared distance `SqDist` |
| KMeans.Add | prusti/kmeans/kmeans.rs:236-251 | returns 0, and `x` becomes the entry-wise sum |
| KMeans.Normal | prusti/kmeans/kmeans.rs:253-266 | panics exactly when `Normalized` does; otherwise returns 0 and every entry is divided by `n as i32`, truncating |
| KMeans.InitCenters | prusti/kmeans/kmeans.rs:268-283 | `k` zero points of length `n` |
| KMeans.Nearest | prusti/kmeans/kmeans.rs:285-309 | an index below `cs.len()`, the center `NearestOf` picks |
| KMeans.NormalizeCenters | prusti/kmeans/kmeans.rs:311-322 | succeeds exactly when every center can be divided by its weight, and then every center is divided |
| KMeans.KMeansStep | prusti/kmeans/kmeans.rs:324-345 | one round: panics exactly when `Step` does; otherwise the fresh centers are `Step`'s |
| KMeans.KMeans | prusti/kmeans/kmeans.rs:347-357 | exactly `max(iters, 0)` rounds, with a panic ending the run |
| KMeans2d.Grid | prusti/kmeans_2d.rs:83-94 | `rows` rows of `cols` copies of `elem` |
| KMeans2d.NewContractFailsWithoutRows | prusti/kmeans_2d.rs:82 | with 0 rows the trusted `cols() == cols` fails, because `cols()` is 0 |
| KMeans2d.RMatI32.New | prusti/kmeans_2d.rs:81-110 | the grid, with `rows()` equal to `rows`, and `cols()` equal to `cols` when `rows > 0` (0 otherwise) |
| KMeans2d.RMatI32.Set | prusti/kmeans_2d.rs:119-127 | only entry `(i, j)` changes, and rows and cols are kept |
| KMeans2d.RMatI32.GetRow | prusti/kmeans_2d.rs:143-147 | a row of `cols()` entries |
| KMeans2d.AddToRow | prusti/kmeans_2d.rs:202-220 | row `row` becomes its sum with `y` and nothing else changes; the dimensions are kept |
| KMeans2d.NormalizeRow | prusti/kmeans_2d.rs:222-238 | panics exactly when `Normalized` does; otherwise row `row` is divided and the dimensions are kept |
| KMeans2d.InitCenters | prusti/kmeans_2d.rs:240-246 | `k` rows and `n` cols, all zero |
| KMeans2d.Nearest | prusti/kmeans_2d.rs:248-270 | an index below `cs.rows()`, the center `NearestOf` picks |
| KMeans2d.NormalizeCenters | prusti/kmeans_2d.rs:272-288 | needs `rows == weights.len()`; succeeds exactly when every row can be divided by its weight, keeping the dimensions |
| KMeans2d.KMeansStep | prusti/kmeans_2d.rs:301-332 | one round exactly as `Step`, keeping the rows and `n` cols |
| KMeans2d.KMeansInner | prusti/kmeans_2d.rs:346-360 | `iters - i` rounds (none when `i >= iters`), keeping the dimensions |
| KMeans2d.KMeansRun | prusti/kmeans_2d.rs:334-344 | `max(iters, 0)` rounds from the given centers |
| BCopy.VecWrapper.FromElemN | prusti/bcopy.rs:10-21 | `n` copies of `elem` |
| BCopy.VecWrapper.Set | prusti/bcopy.rs:36-41 | only entry `index` changes, and the length is kept |
| BCopy.BCopyAux | prusti/bcopy.rs:44-57 | with equal lengths, `dst` ends equal to `src` |
| BCopy.BCopy | prusti/bcopy.rs:59-66 | a fresh vector with the same contents as `src` |
| DotProd.DotCommutes | prusti/dotprod.rs:25-38 | the dot product is symmetric |
| DotProd.DotAppend | prusti/dotprod.rs:25-38 | one more coordinate adds its product |
| DotProd.DotZeros | prusti/dotprod.rs:25-38 | a zero vector gives 0 |
| DotProd.DotProd | prusti/dotprod.rs:25-38 | needs equal lengths; the sum of `v1[i] * v2[i]`, and 0 on empty vectors |
| ArrayMaximum.Fold | src/arraymax.rs:11-20 | the loop applies `f` to indices `0..n-1` in order, from `b` |
| ArrayMaximum.Step | src/arraymax.rs:22-25 | the larger of `arr[i]` and `cur` |
| ArrayMaximum.FoldStepIsMax | src/arraymax.rs:22-29 | folding `step` from 0 gives a value at least 0 and at least every element, which is 0 or an element |
| ArrayMaximum.ArrayMax | src/arraymax.rs:27-29 | at least 0 and every element, equal to 0 or some element; 0 on an empty array |
| ArrayMaximum.ArrayMaxExample | src/arraymax.rs:35-43 | `[10, 20, 15]` gives 20 |
| MinIndexSpec.FirstMinUnique | prusti/ex2_min_index_loop.rs:26-57 | the first minimal index is unique |
| MinIndexSpec.MinStepExtends | src/ex2_min_index_loop.rs:19-25 | one more step keeps the first minimal index |
| MinIndexSpec.TestVectorFirstMin | src/ex2_min_index_loop.rs:31-34 | 8 is the first minimal index of the test vector |
| MinIndexPrusti.MinIndex | prusti/ex2_min_index_loop.rs:26-57 | needs a non-empty vector; an index below the length, minimal, and the first one |
| MinIndexFlux.MinIndex | cleaned/flux/min_index.rs:8-20 | needs a non-empty vector; an index below the length, minimal, and the first one |
| Reductions.ReduceTo | src/ex2_min_index_loop.rs:3-15 | a fold whose step keeps the invariant `inv` ends in a value satisfying `inv` |
| MinIndexLoop.WReduce | src/ex2_min_index_loop.rs:3-15 | the loop applies `f` to indices `0..sz-1` in order, from `acc` |
| MinIndexLoop.ReduceStepIsFirstMin | src/ex2_min_index_loop.rs:18-28 | reducing with `step` from 0 keeps the accumulator in range and gives the first minimal index |
| MinIndexLoop.MinIndex | src/ex2_min_index_loop.rs:18-29 | the first minimal index; 0 on an empty vector |
| MinIndexLoop.TestGivesEight | src/ex2_min_index_loop.rs:31-34 | the test vector yields 8 |
| MinIndexIter.Reduce | src/ex3_min_index_iter.rs:1-9 | the `for` loop applies `f(i, res, vec[i])` for `i = 0..len-1` in order |
| MinIndexIter.MinIndex | src/ex3_min_index_iter.rs:11-22 | the first minimal index; 0 on an empty vector |
| Fill.VecWrapperI32.constructor | prusti/ex1_fill/ex1_fill.rs:10-14 | the empty vector |
| Fill.VecWrapperI32.Push | prusti/ex1_fill/ex1_fill.rs:22-28 | `x` is appended and earlier entries stay |
| Fill.VecWrapperI32.Get | prusti/ex1_fill/ex1_fill.rs:37-42 | `get(i) == lookup(i)` |
| Fill.VecWrapperI32.IsEmpty | prusti/ex1_fill/ex1_fill.rs:44-48 | true exactly when the length is 0 |
| Fill.VecWrapperI32.Pop | prusti/ex1_fill/ex1_fill.rs:50-57 | needs a non-empty vector; removes and returns the last entry and keeps the rest |
| Fill.Ascending | prusti/ex1_fill/ex1_fill.rs:69-74 | the values `lo, lo+1, …, hi-1` |
| Fill.Test | prusti/ex1_fill/ex1_fill.rs:64-92 | pushes `val, val+1, …, i32::MAX - 2` and pops them back in reverse order; every value popped is at least `val` |
| SimpleRVec.Test1 | lr/src/ex5_simple_rvec.rs:9-19 | needs length ≥ 2; returns 0, writes 12 at 0 when `b` and at 1 otherwise, and changes nothing else |
| CountLines.Slice | count_lines.py:22-31 | Python slicing: at most `hi - lo` characters |
| CountLines.ContainsMeaning | count_lines.py:34-35 | the substring test holds exactly when the text occurs at some position |
| CountLines.LStripMeaning | count_lines.py:61-62 | leading whitespace is removed, and exactly that |
| CountLines.RStripMeaning | count_lines.py:61-62 | trailing whitespace is removed, and exactly that |
| CountLines.PreambleByPrefix | count_lines.py:6-19 | whether a line is preamble depends only on its first 14 characters |
| CountLines.PrustiAnnotationMeaning | count_lines.py:22-31 | the slice tests hold exactly when the text from index 2 starts with `pure`, `trusted`, `ensures` or `requires` |
| CountLines.SlashLineRaises | count_lines.py:63-66 | as written, a line that is just "/" raises `IndexError`; the fixed test counts it as a code line |
| CountLines.StepAgreesElsewhere | count_lines.py:59-115 | on every other line, the fixed step is the step as written |
| CountLines.SkippedLineChangesNothing | count_lines.py:63-66 | blank lines, `//` comments, `pub fn main() {}` and preamble lines change no counter and no flag |
| CountLines.ContractAttributeCounts | count_lines.py:67-78 | a contract attribute adds one contract line, and one function contract only when it opens a block |
| CountLines.OtherAttributeChangesNothing | count_lines.py:67-68 | a `#` line that is no annotation changes nothing |
| CountLines.CodeLineCounts | count_lines.py:112-115 | a plain code line adds one line and closes the open contract and invariant blocks |
| CountLines.RunAppend | count_lines.py:59-115 | running two pieces of a file is running the first, then the second |
| CountLines.InvariantBlockCountsOnce | count_lines.py:97-110 | consecutive one-line `body_invariant!` lines count as one loop invariant, and each adds an invariant line |
| CountLines.CountFile | count_lines.py:38-116 | with the fixed `//` test: the loop's counters are the state machine's after every line; `RunAsWrittenMeaning` says where this differs from the code as written |
| CountLines.RunAsWrittenMeaning | count_lines.py:59-115 | `count_file` as written raises `IndexError` exactly when some line strips to `/`; on every other file it ends in the state of the fixed run |
| CountLines.TotalAppend | count_lines.py:131-132 | summing the counts key-wise splits over concatenation |
| CountLines.SumCounts | count_lines.py:124-134 | the loop returns the key-wise sum of every file's counts |

## Left out

- `resolve_path`, the path-resolution driver, is not part of this model. `TranslatePath` takes it as a parameter and relies only on its safety promise (`ResolverSafe`).
- `readlinkat` and the component parser/serialiser of `owned_components` become function parameters. `get_components`, with `PathBuf::components`, is left out.
- `raw_ptr` and `valid_linmem` are host facts with no body. `raw` is a plain field that `TranslateIov` uses; `valid_linmem` is not part of `CtxSafe`. `HostPtr` is an unbounded `nat`, so `raw + iov_base` never wraps.
- Runtime.VmCtx.MemcpyFromSandbox, Runtime.VmCtx.MemcpyToSandbox: the source's bodies are stubs. The model gives them the copy that their commented-out `copy_nonoverlapping` describes, so each promises more than the stub does.
- Runtime.VmCtx.Valid adds one allocation fact to `ctx_safe`: linear memory holds `memlen` bytes.
- `get_homedir`, the file-descriptor map, the net list and `NetEndpoint`/`WasiProto` hold data with no behaviour here.
- PartitionVecs.PartitionVec.Find does not perform the source's path compression. Its writes go to copies returned by `lookup`, so it changes nothing.
- `find`, `len_of_set` and the link-cycle walk of `make_singleton` have no termination argument in the source. The model keeps a ghost `height` field, which `PartitionVecs.PartitionVec.Find` and `PartitionVecs.PartitionVec.FindFinal` use as their measure. `PartitionVecs.PartitionVec.LenOfSet` and `PartitionVecs.PartitionVec.MakeSingleton` take a ghost cycle length `k`, which callers provide.
- PartitionVecs.PartitionVec.MakeSingleton does not model the walk round the old link cycle. That walk writes only copies, so only the final `store` persists.
- `Metadata::eq`, the data accessors and the commented-out `partition_vec!` macro are left out.
- KmpSrc.KmpSearch: its result is stated only for targets of at most 2^31 characters. Beyond that the `as i32` cast of the index wraps.
- Simplex.InitRatioI: `die` never returns (its contract is `false`), so the model returns `None` instead.
- Integer overflow is not modelled: the benchmarks run with overflow checks off. This covers the sums and products of `dist`, `dotprod` and `add`, the `x + 1` of `incr` at `i32::MAX` (where `Simplex.Incr`'s positive result would fail), the `i32` counters of `fill`, and `i32::MIN / -1` in `i32_div`. `as i32` casts and the wrap of `iovs + i * 8` are modelled.
- When a k-means operation panics, its state is left unspecified. KMeans.Normal, KMeans.NormalizeCenters, KMeans2d.NormalizeRow and KMeans2d.NormalizeCenters say nothing about the vector after a panic.
- `index_mut` and `get_mut` are modelled as read, modify and write back. The k-means wrappers hold points by value, so aliasing between rows is not modelled. `clone`, `get_clone`, `equal`, `vec_wrappers_eq` and `i32_max` are left out; `i32_max` is the constant `I32_MAX`.
- `foo` in prusti/kmeans_2d.rs is `unimplemented!` and is left out.
- The floating-point benchmarks (the fft files and src/kmeans.rs) and lr/src/bug/mat-bug-00.rs are left out, since they work on `f32`.
- src/ex1_fill.rs and prusti/ex1_fill.rs are left out. The first is driven by a random `toss` and printing; the second repeats prusti/ex1_fill/ex1_fill.rs without its assertions.
- Fill.Toss is always `true`. The fill loop therefore runs to its bound.
- `RVec` in lr/src/ex5_simple_rvec.rs is a fixed-size `array`, since the test never changes the length.
- Path.ReadLinkAtH: the source's assumed signature (wave/flux/src/tcb/path.rs:150) puts `ns_prefix == size` on the indices of the input `out_path`, which the function cannot establish. The model does not state that clause. It sets the returned sequence's `ns_prefix` to its size, so it promises `NoSymLinks` of the result, which the source does not.
- Path.MaybeExpandComponent: the source assumes its `&mut NoSymLinks` signature, and `ns_prefix` is only a refinement index there. The model keeps `ns_prefix` as a field and raises it by one when the host reports that `comp` is not a link. The source has no such step; the model uses it to prove `NoSymLinks` afterwards.
- CountLines.CountFile: it models `count_file` with the fixed `//` test, so a line that strips to `/` is counted as code instead of raising `IndexError`. `CountLines.RunAsWrittenMeaning` relates it to the code as written.
- `count_lines.py` reading files and expanding the glob are left out. `CountFile` takes the lines, and `SumCounts` takes the per-file counts.
- `line_number` in `count_file` is never read and is left out.
- `str.strip` is modelled on the ASCII characters it removes: the whitespace characters and the separators `\x1c`-`\x1f`. Non-ASCII whitespace such as U+0085 and U+00A0 is not handled.
- `get_stats.py`, `src/main.rs` (other than the `search("bro", …)` value), `src/lib.rs`, kani-vecdeque and prusti/vec_test.rs are left out.

## Findings

| source | as written | input that shows it | evidently intended | confidence | as-written member | corrected member |
|---|---|---|---|---|---|---|
| src/ex4_kmp.rs:34-52 (also prusti/kmp.rs:89-112, prusti/ex4_kmp/ex4_kmp.rs:128-167) | On a mismatch the search advances `t_i` even after a fallback, and it resets `result_idx` to 0. A match at index 0 also leaves `result_idx` "unset". | "aab" in "aaxab" reports 3 but does not occur. "aab" in "aaab" occurs at 1 but is not found. "ab" in "ab" reports 1. | the index of the first occurrence, or the sentinel when there is none | not executed | KmpCore.SearchReportsFalseMatch | KmpCore.KmpSearchCorrect |
| prusti/kmp.rs:29 | the `store` frame says other entries become `<` their old values | any store on a vector of two or more entries, and every store on the all-zero table | other entries unchanged (`==`) | not executed | KmpPrusti.StoreContractUnsatisfiableOnZeros | KmpPrusti.VecWrapperFull.Store |
| prusti/partition_vec.rs:418-436 | `union` calls `set_link`/`set_parent`/`set_rank` on copies returned by `lookup`, so the union is a no-op | `union(0, 2)` on three singletons leaves 0 and 2 in different sets | splice the link cycles and hang the lower-ranked root, stored back into `meta` | not executed | PartitionVecs.PartitionVec.Union | PartitionVecs.PartitionVec.UnionStored |
| prusti/kmeans_2d.rs:82 | the trusted `new` promises `cols() == cols`, but `cols()` is 0 when there are no rows | `RMatI32::new(0, 3, 0)` | `cols() == cols` only when `rows > 0` | not executed | KMeans2d.NewContractFailsWithoutRows | KMeans2d.RMatI32.New |
| count_lines.py:64 | `stripped[0] != "/" or stripped[1] != "/"` reads index 1 of a one-character line | a line holding just `/` raises `IndexError` | a lone `/` is not a comment and counts as a code line | not executed | CountLines.SlashLineRaises | CountLines.StepAgreesElsewhere |
