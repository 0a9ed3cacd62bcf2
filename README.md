# Streamed vector addition

This project models the core of `vector_stream.c`, a CUDA program that adds
two input vectors of length `inputLength` element by element. The host splits
the vectors into waves of `SEG_SIZE * NUM_STREAMS = 2048 * 4` elements (the two
constants are declared at vector_stream.c:3-4 and modelled as
`Geometry.SEG_SIZE` and `Geometry.NUM_STREAMS`). For
each wave it issues work to four streams. Stream `k` copies segment `k` of both
inputs into its own device buffers `A_k` and `B_k`. It then launches the
`vecAdd` kernel (`SEG_SIZE / 256` blocks of 256 threads) into its buffer `C_k`
and copies `C_k` back to segment `k` of the host output.

The model has five modules:

- `Arith`: small multiplication and division facts that the index arithmetic
  needs.
- `Geometry`: the constants, the thread index of a launch, the wave offsets
  the host loop visits, and the host segments the streams load and store.
- `Kernel`: the `vecAdd` thread as a method on arrays. A block and a whole
  launch run its threads one after another.
- `Schedule`: the ghost trace of the operations the loop issues, and the
  proof that each stream receives its operations in wave order, and within a
  wave as load, add, store.
- `Pipeline`: the per-stream device buffers (`Slot`), the asynchronous copies,
  the three phases of a wave, one wave, and the wave loop.

Each stream runs its own operations in issue order. The streams share no
device buffer. No host element lies in the segments of two different
(wave, stream) pairs (`Geometry.SegmentOwner`), so even streams that run out
of step across waves never write the same output element. The inputs are only
read. Running the issued operations one after another in program order
therefore gives the state the streams reach once they have all drained.
`Pipeline.StreamLoop` is that sequential run. Its contract says the output
holds the element-wise sum and the inputs are not written. Its ghost `trace`
is the issue sequence at phase level: one Load stands for the stream's two
operand copies, one Compute for its launch and one Store for its copy back.
`Schedule.LoopIssueOrdered` shows this trace to be in per-stream order.

## Model

| member | source | states |
|---|---|---|
| Geometry.ThreadIndex | vector_stream.c:17 | The index `blockIdx.x * blockDim.x + threadIdx.x` of a thread lies in its own block's range `[blockIdx * blockDim, (blockIdx + 1) * blockDim)`. |
| Geometry.ThreadIndexUnique | vector_stream.c:17 | A thread of a `gridDim` x `blockDim` launch computes an index below `gridDim * blockDim`. The index equals `i` exactly when the thread is block `i / blockDim`, thread `i % blockDim`, so no two threads share an index. |
| Geometry.LaunchCoversIndex | vector_stream.c:17 | Every index below `gridDim * blockDim` is computed by the thread `(i / blockDim, i % blockDim)` of the launch. |
| Geometry.SegmentLaunchSize | vector_stream.c:89-92 | The launch `<<<SEG_SIZE/256, 256>>>`, that is `GRID_DIM` blocks of `BLOCK_DIM` threads, has exactly `SEG_SIZE` threads, so together with the two lemmas above it covers `[0, SEG_SIZE)` exactly once. |
| Geometry.OffsetsFrom | vector_stream.c:76 | The loop counter's values from `i` on are `i + m * stride`, each below `n`, and the loop stops at the first value not below `n`. |
| Geometry.WaveOffsets | vector_stream.c:76 | The wave offsets are `0, stride, 2 * stride, ...`, each below `n`, and the next multiple reaches `n`. |
| Geometry.WaveOffsetsUnique | vector_stream.c:76 | These two properties determine the offset sequence completely. |
| Geometry.WaveOffsetsIncreasing | vector_stream.c:76 | The wave offsets are strictly increasing multiples of the stride. |
| Geometry.WaveCount | vector_stream.c:76 | The loop runs `ceil(n / stride)` waves, and exactly `n / stride` when the stride divides `n`. |
| Geometry.WaveOffsetsNext | vector_stream.c:76 | Raising the bound by one stride from a multiple of the stride appends exactly one wave, at the old bound. |
| Geometry.WaveIndexInRange | vector_stream.c:76 | Every host index `j < n` falls in a visited wave, wave `j / stride`. |
| Geometry.SegmentStart | vector_stream.c:79-98 | Stream `k`'s segment of the wave at `off` starts at `off + k * SEG_SIZE`, no earlier than the wave, and for `k < NUM_STREAMS` ends within the wave. |
| Geometry.InSegment | vector_stream.c:79-98 | A host index in the segment of one of the four streams lies inside that wave's range `[off, off + SEG_SIZE * NUM_STREAMS)`. |
| Geometry.SegmentsDisjoint | vector_stream.c:79-98 | Within a wave, the host ranges of two different streams are disjoint. |
| Geometry.SegmentInWave | vector_stream.c:79-98 | The segment of each of the four streams lies inside its wave's range `[off, off + SEG_SIZE * NUM_STREAMS)`. |
| Geometry.SegmentOwner | vector_stream.c:79-98 | Host index `j` lies in the segment of stream `k` of wave `m` if and only if `m == j / 8192` and `k == (j % 8192) / 2048`. |
| Geometry.SegmentsCoverOnce | vector_stream.c:76-98 | Every host index below `n` lies in the segment of exactly one stream in exactly one visited wave. |
| Geometry.InBoundsIffMultiple | vector_stream.c:76-98 | Every load and store stays below `n` if and only if `n` is a multiple of `SEG_SIZE * NUM_STREAMS`. |
| Geometry.MultipleInBounds | vector_stream.c:76-98 | For a multiple of the wave stride, every segment of every visited wave ends by `n`. |
| Geometry.TailOutOfBounds | vector_stream.c:76-98 | Otherwise the last stream of the last wave reads and writes past `n`. |
| Geometry.LastWave | vector_stream.c:76 | When the stride does not divide `n`, wave `n / stride` is visited and ends past `n`. |
| Kernel.VecAddThread | vector_stream.c:15-22 | The thread writes `out[i] := in1[i] + in2[i]` for its own index `i` only when `i < len`. Every other element of `out` keeps its value. |
| Kernel.RunBlock | vector_stream.c:15-22 | The threads of one block together write the sum to the indices of that block below `len`, and nothing else. |
| Kernel.LaunchVecAdd | vector_stream.c:89-92 | A launch writes the sum to exactly the indices below both `len` and the thread count, and leaves the rest of `out` unchanged. |
| Schedule.WaveOps | vector_stream.c:79-98 | One wave issues `3 * w` phase-level operations, all at that wave's offset and each to one of the `w` streams. A Load stands for the stream's two operand copies. |
| Schedule.Issued | vector_stream.c:76-99 | The loop over the visited wave offsets issues `3 * w` phase-level operations per wave, where a Load stands for two copies. |
| Schedule.IssuedSnoc | vector_stream.c:76-99 | Issuing one more wave appends that wave's operations to the trace. |
| Schedule.WaveOpsContents | vector_stream.c:79-98 | One wave issues `3 * NUM_STREAMS` phase-level operations: one Load (the two operand copies), one add and one store to each stream, and nothing else. |
| Schedule.WaveOpAt | vector_stream.c:79-98 | Within a wave, all loads come first, then all launches, then all stores, in stream order. |
| Schedule.WaveOpsOrdered | vector_stream.c:79-98 | Within one wave, each stream receives load before add before store. |
| Schedule.IssuedOps | vector_stream.c:76-99 | Every issued operation belongs to a visited wave and to one of the streams. |
| Schedule.IssuedComplete | vector_stream.c:76-99 | Every visited wave issues its load, add and store to every stream. |
| Schedule.IssuedStreamOrdered | vector_stream.c:76-99 | With increasing wave offsets, each stream receives its operations in wave order, and within a wave as load, add, store. |
| Schedule.ProgramOrderIsIssueOrder | vector_stream.c:76-99 | If one operation precedes another on the same stream in program order (earlier wave, or same wave and earlier phase), it is issued first. |
| Schedule.ComputeBeforeReload | vector_stream.c:76-99 | Stream `k`'s add of wave `m` and its load of wave `m + 1` are both issued, and the add, which reads `A_k` and `B_k`, comes before the load that overwrites them. |
| Schedule.StoreBeforeRecompute | vector_stream.c:76-99 | Stream `k`'s store of wave `m` and its add of wave `m + 1` are both issued, and the store, which reads `C_k`, comes before the add that overwrites it. |
| Schedule.LoopIssueOrdered | vector_stream.c:76-99 | The trace of the whole loop is in per-stream order. |
| Schedule.LoopIssueNext | vector_stream.c:76-99 | One more iteration from a multiple of the stride issues exactly one more wave's operations. |
| Pipeline.BuffersApart | vector_stream.c:59-70 | The distinct `cudaMalloc` calls for the stream buffers, together with the host allocations at vector_stream.c:41-43, make the operand buffers, the result buffers and the host vectors pairwise apart. |
| Pipeline.WaveSums | vector_stream.c:79-98 | Once a wave's segments are loaded, added and stored, every host index of the wave holds the sum of the inputs. |
| Pipeline.CopyAsync | vector_stream.c:79-98 | The copy writes exactly the `count` destination elements from `dstOff` on with the source elements from `srcOff` on. The rest of the destination is unchanged. |
| Pipeline.LoadStream | vector_stream.c:79-80 | One stream's two host-to-device copies fill its operand buffers with its segment of both inputs. |
| Pipeline.LoadPhase | vector_stream.c:79-86 | Every stream's operand buffers hold its segment of both inputs, and the loads are issued to streams 0 to 3 in order. |
| Pipeline.ComputePhase | vector_stream.c:89-92 | Every stream's result buffer holds the element-wise sum of its operand buffers, and the launches are issued to streams 0 to 3 in order. |
| Pipeline.StorePhase | vector_stream.c:95-98 | Each stream's result buffer is copied to its host segment, the output outside the wave is unchanged, and the stores are issued in stream order. |
| Pipeline.Wave | vector_stream.c:77-98 | After one wave, the output holds the sum on the wave's range and is unchanged elsewhere. The wave issues exactly its loads, launches and stores. |
| Pipeline.StreamLoop | vector_stream.c:76-99 | After the loop, `hostOutput[j] == hostInput1[j] + hostInput2[j]` for every `j < inputLength` and the inputs are unchanged. The ghost trace is the issue sequence over all visited waves. |

## Left out

- Reading the inputs and arguments, creating the streams, allocating host and device memory, and the `wbCheck` early return on a failed allocation (vector_stream.c:38-73) are not modelled. The model takes the buffers as already allocated and pairwise distinct, which is `Pipeline.Separate`.
- The unused `deviceOutput` allocation (vector_stream.c:72) and the `free` calls (vector_stream.c:105-107) are not modelled.
- Logging, timing, the `printf` at vector_stream.c:78 and `wbSolution` at vector_stream.c:103 are I/O and are not modelled.
- Pipeline.StreamLoop: the postcondition describes the state after all streams have drained. The program calls `wbSolution` with no `cudaDeviceSynchronize` or stream synchronisation after the loop. That the copies have finished at that point is an assumption of the model, not a proved fact.
- Pipeline.StreamLoop: requires `inputLength` to be a multiple of `SEG_SIZE * NUM_STREAMS`. The program has no such check. For other lengths the last wave reads and writes past the end of the host vectors, as `Geometry.TailOutOfBounds` states. That behaviour is undefined, so it is not modelled.
- Pipeline.StreamLoop: the return codes of `cudaMemcpyAsync` and of the kernel launches (vector_stream.c:79-86, 89-92, 95-98) are never checked by the program. A failed copy or launch would leave its destination stale. The model assumes every call succeeds.
- Pipeline.StreamLoop: requires both inputs and the output to have length `inputLength`. The program passes the same `&inputLength` to both `wbImport` calls (vector_stream.c:41-42), so `inputLength` is the length of the second input and the length of the first input is never compared with it. A shorter first input is not modelled.
- Schedule.WaveOps: the trace is kept at phase level. The program makes 16 calls per wave (two host-to-device copies, one launch and one copy back per stream, vector_stream.c:79-98), and the trace records 12. A stream's two operand copies are issued back to back, before its launch, so they are one Load. `Pipeline.LoadStream` performs both copies.
- Overlap of the streams with each other and with the host, and timing, are not modelled. Issued operations run one after another in program order. That this matches every interleaving that respects per-stream order follows from the per-stream ordering and disjointness lemmas. The commutation itself is not proved as a theorem.
- Elements are unbounded integers, not `float`. Rounding, NaN and overflow of the sum are not modelled.
- Copy sizes are counted in elements rather than bytes (`SEG_SIZE * sizeof(float)`).
- The 32-bit `int` loop counter and thread index are modelled as unbounded naturals. Wrap-around for lengths near `INT_MAX` is not modelled.
- The kernel's threads run one after another. They are independent, since each writes only its own index, so any parallel schedule gives the same result. GPU memory semantics are not modelled.
