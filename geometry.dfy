/** Index arithmetic of the streamed vector addition: the launch grid of the
    addition kernel, the wave offsets visited by the host loop, and the host
    segments that each stream loads and stores within a wave.

    The launch-grid and wave-offset lemmas are stated for any grid, block
    size and stride; the segment lemmas for the constants of the pipeline. */
module Geometry {
  import Arith

  /** Threads per block of every kernel launch. */
  const BLOCK_DIM: nat := 256
  /** Elements per segment, and the length of every device buffer. */
  const SEG_SIZE: nat := 256 * 8
  /** Number of streams, each owning one segment of every wave. */
  const NUM_STREAMS: nat := 4
  /** Blocks per kernel launch. */
  const GRID_DIM: nat := SEG_SIZE / BLOCK_DIM
  /** Host elements consumed by one wave. */
  const WAVE_STRIDE: nat := SEG_SIZE * NUM_STREAMS

  // ---------------------------------------------------------------------
  // The launch grid

  /** The global index a thread computes from its block and thread coordinates. */
  function ThreadIndex(blockIdx: nat, blockDim: nat, threadIdx: nat): (r: nat)
    ensures threadIdx < blockDim ==> blockIdx * blockDim <= r < (blockIdx + 1) * blockDim
  {
    blockIdx * blockDim + threadIdx
  }

  /** A thread of a `gridDim` x `blockDim` launch gets an index below
      `gridDim * blockDim`, and it is the only thread that gets that index. */
  lemma ThreadIndexUnique(gridDim: nat, blockDim: nat, blockIdx: nat, threadIdx: nat, i: int)
    requires blockIdx < gridDim && threadIdx < blockDim
    ensures ThreadIndex(blockIdx, blockDim, threadIdx) < gridDim * blockDim
    ensures ThreadIndex(blockIdx, blockDim, threadIdx) == i <==> blockIdx == i / blockDim && threadIdx == i % blockDim
  {
    Arith.MulMonoLe(blockIdx + 1, gridDim, blockDim);
    if ThreadIndex(blockIdx, blockDim, threadIdx) == i {
      Arith.DivModUnique(i, blockDim, blockIdx, threadIdx);
    }
  }

  /** Every index below `gridDim * blockDim` is computed by some thread of the launch. */
  lemma LaunchCoversIndex(gridDim: nat, blockDim: nat, i: nat)
    requires i < gridDim * blockDim
    ensures blockDim > 0 && i / blockDim < gridDim
    ensures ThreadIndex(i / blockDim, blockDim, i % blockDim) == i
  {
    if gridDim <= i / blockDim {
      Arith.MulMonoLe(gridDim, i / blockDim, blockDim);
    }
  }

  /** The `vecAdd` launch in the wave loop, `SEG_SIZE / 256` blocks of 256 threads, has
      exactly as many threads as a segment has elements. */
  lemma SegmentLaunchSize()
    ensures GRID_DIM * BLOCK_DIM == SEG_SIZE
  {
  }

  // ---------------------------------------------------------------------
  // Wave offsets

  /** The values the host loop counter takes from `i` on while `i < n`, stepping by `stride`. */
  function OffsetsFrom(i: nat, n: int, stride: nat): (offs: seq<nat>)
    requires stride > 0
    ensures forall m :: 0 <= m < |offs| ==> offs[m] == i + m * stride && offs[m] < n
    ensures i + |offs| * stride >= n
    decreases n - i
  {
    if i >= n then [] else [i] + OffsetsFrom(i + stride, n, stride)
  }

  /** The wave offsets of the host loop over `n` elements: `0, stride, 2 * stride, ...`,
      each below `n`, ending with the first multiple of `stride` that is not. */
  function WaveOffsets(n: int, stride: nat): (offs: seq<nat>)
    requires stride > 0
    ensures forall m :: 0 <= m < |offs| ==> offs[m] == m * stride && offs[m] < n
    ensures |offs| * stride >= n
  {
    OffsetsFrom(0, n, stride)
  }

  /** The two properties of `WaveOffsets` determine it: any sequence of the
      multiples of `stride` below `n` that stops at the first one reaching `n` is it. */
  lemma WaveOffsetsUnique(offs: seq<nat>, n: int, stride: nat)
    requires stride > 0
    requires forall m :: 0 <= m < |offs| ==> offs[m] == m * stride && offs[m] < n
    requires |offs| * stride >= n
    ensures offs == WaveOffsets(n, stride)
  {
    var waves := WaveOffsets(n, stride);
    if |waves| > 0 {
      assert waves[|waves| - 1] < n;
      Arith.MulMonoLt(|waves| - 1, |offs|, stride);
    }
    if |offs| > 0 {
      assert offs[|offs| - 1] < n;
      Arith.MulMonoLt(|offs| - 1, |waves|, stride);
    }
  }

  /** The wave offsets are strictly increasing multiples of `stride`. */
  lemma WaveOffsetsIncreasing(n: int, stride: nat)
    requires stride > 0
    ensures forall x, y :: 0 <= x < y < |WaveOffsets(n, stride)| ==> WaveOffsets(n, stride)[x] < WaveOffsets(n, stride)[y]
    ensures forall x :: 0 <= x < |WaveOffsets(n, stride)| ==> WaveOffsets(n, stride)[x] % stride == 0
  {
    var offs := WaveOffsets(n, stride);
    forall x, y | 0 <= x < y < |offs|
      ensures offs[x] < offs[y]
    {
      Arith.MulMonoLt(x, y, stride);
    }
    forall x | 0 <= x < |offs|
      ensures offs[x] % stride == 0
    {
      Arith.DivModUnique(offs[x], stride, x, 0);
    }
  }

  /** The loop runs `ceil(n / stride)` waves; for a multiple of `stride`, exactly `n / stride`. */
  lemma WaveCount(n: nat, stride: nat)
    requires stride > 0
    ensures |WaveOffsets(n, stride)| == (n + stride - 1) / stride
    ensures n % stride == 0 ==> |WaveOffsets(n, stride)| == n / stride
  {
    var c := |WaveOffsets(n, stride)|;
    if c > 0 {
      assert WaveOffsets(n, stride)[c - 1] == (c - 1) * stride < n;
    }
    Arith.DivModUnique(n + stride - 1, stride, c, n + stride - 1 - c * stride);
    if n % stride == 0 {
      Arith.DivModUnique(n, stride, n / stride, 0);
      Arith.DivModUnique(n + stride - 1, stride, n / stride, stride - 1);
    }
  }

  /** Advancing the loop bound by one stride from a multiple of `stride`
      adds exactly one wave, at the old bound. */
  lemma WaveOffsetsNext(i: nat, stride: nat)
    requires stride > 0 && i % stride == 0
    ensures WaveOffsets(i + stride, stride) == WaveOffsets(i, stride) + [i]
    ensures (i + stride) % stride == 0
  {
    var offs := WaveOffsets(i, stride) + [i];
    var q := |WaveOffsets(i, stride)|;
    WaveCount(i, stride);
    assert i == q * stride;
    assert |offs| * stride == i + stride;
    WaveOffsetsUnique(offs, i + stride, stride);
    Arith.DivModUnique(i + stride, stride, q + 1, 0);
  }

  /** Every host index below `n` falls in a wave the loop visits: wave `j / stride`. */
  lemma WaveIndexInRange(n: int, stride: nat, j: nat)
    requires stride > 0 && j < n
    ensures j / stride < |WaveOffsets(n, stride)|
  {
    Arith.MulMonoLt(j / stride, |WaveOffsets(n, stride)|, stride);
  }

  // ---------------------------------------------------------------------
  // Segments within a wave

  /** First host index of the segment that stream `k` handles in the wave at `off`. */
  function SegmentStart(off: nat, k: nat): (r: nat)
    ensures off <= r
    ensures k < NUM_STREAMS ==> r + SEG_SIZE <= off + WAVE_STRIDE
  {
    off + k * SEG_SIZE
  }

  /** Host index `j` lies in the segment of stream `k` in the wave at `off`. */
  predicate InSegment(j: int, off: nat, k: nat): (b: bool)
    ensures b && k < NUM_STREAMS ==> off <= j < off + WAVE_STRIDE
  {
    SegmentStart(off, k) <= j < SegmentStart(off, k) + SEG_SIZE
  }

  /** Within one wave, the host ranges of two different streams do not overlap. */
  lemma SegmentsDisjoint(off: nat, k1: nat, k2: nat, j: int)
    requires k1 != k2
    ensures !(InSegment(j, off, k1) && InSegment(j, off, k2))
  {
    if k1 < k2 {
      Arith.MulMonoLe(k1 + 1, k2, SEG_SIZE);
    } else {
      Arith.MulMonoLe(k2 + 1, k1, SEG_SIZE);
    }
  }

  /** The segment of each of the `NUM_STREAMS` streams stays inside its wave's
      range `[off, off + WAVE_STRIDE)`. */
  lemma SegmentInWave(off: nat, k: nat)
    requires k < NUM_STREAMS
    ensures off <= SegmentStart(off, k) && SegmentStart(off, k) + SEG_SIZE <= off + WAVE_STRIDE
  {
    Arith.MulMonoLe(k + 1, NUM_STREAMS, SEG_SIZE);
  }

  /** A host index lies in exactly one segment of one wave: the segment of
      stream `(j % WAVE_STRIDE) / SEG_SIZE` in wave `j / WAVE_STRIDE`. */
  lemma SegmentOwner(j: nat, m: nat, k: nat)
    requires k < NUM_STREAMS
    ensures InSegment(j, m * WAVE_STRIDE, k) <==> m == j / WAVE_STRIDE && k == j % WAVE_STRIDE / SEG_SIZE
  {
    if InSegment(j, m * WAVE_STRIDE, k) {
      var t := j - m * WAVE_STRIDE - k * SEG_SIZE;
      SegmentInWave(m * WAVE_STRIDE, k);
      Arith.DivModUnique(j, WAVE_STRIDE, m, k * SEG_SIZE + t);
      Arith.DivModUnique(k * SEG_SIZE + t, SEG_SIZE, k, t);
    }
  }

  /** The segments of the waves the loop visits cover every host index below
      `n` exactly once (whether or not `n` is a multiple of `WAVE_STRIDE`). */
  lemma SegmentsCoverOnce(n: nat, j: nat)
    requires j < n
    ensures j / WAVE_STRIDE < |WaveOffsets(n, WAVE_STRIDE)| && j % WAVE_STRIDE / SEG_SIZE < NUM_STREAMS
    ensures InSegment(j, WaveOffsets(n, WAVE_STRIDE)[j / WAVE_STRIDE], j % WAVE_STRIDE / SEG_SIZE)
    ensures forall m, k :: 0 <= m < |WaveOffsets(n, WAVE_STRIDE)| && 0 <= k < NUM_STREAMS &&
                           InSegment(j, WaveOffsets(n, WAVE_STRIDE)[m], k) ==>
              m == j / WAVE_STRIDE && k == j % WAVE_STRIDE / SEG_SIZE
  {
    var offs := WaveOffsets(n, WAVE_STRIDE);
    var m0, k0 := j / WAVE_STRIDE, j % WAVE_STRIDE / SEG_SIZE;
    WaveIndexInRange(n, WAVE_STRIDE, j);
    Arith.DivLt(j % WAVE_STRIDE, SEG_SIZE, NUM_STREAMS);
    SegmentOwner(j, m0, k0);
    assert offs[m0] == m0 * WAVE_STRIDE;
    forall m, k | 0 <= m < |offs| && 0 <= k < NUM_STREAMS && InSegment(j, offs[m], k)
      ensures m == m0 && k == k0
    {
      assert offs[m] == m * WAVE_STRIDE;
      SegmentOwner(j, m, k);
    }
  }

  // ---------------------------------------------------------------------
  // Bounds of the host accesses

  /** Every load and store the loop issues over `n` host elements stays below `n`. */
  ghost predicate AccessesInBounds(n: int)
  {
    var offs := WaveOffsets(n, WAVE_STRIDE);
    forall m, k :: 0 <= m < |offs| && 0 <= k < NUM_STREAMS ==> SegmentStart(offs[m], k) + SEG_SIZE <= n
  }

  /** The host accesses stay in bounds exactly when `n` is a multiple of
      `WAVE_STRIDE`; otherwise the last wave reads and writes past `n`. */
  lemma InBoundsIffMultiple(n: nat)
    ensures AccessesInBounds(n) <==> n % WAVE_STRIDE == 0
  {
    if n % WAVE_STRIDE == 0 {
      MultipleInBounds(n);
    } else {
      TailOutOfBounds(n);
    }
  }

  /** For a multiple of `WAVE_STRIDE`, every wave's segments end by `n`. */
  lemma MultipleInBounds(n: nat)
    requires n % WAVE_STRIDE == 0
    ensures AccessesInBounds(n)
  {
    var offs := WaveOffsets(n, WAVE_STRIDE);
    var q := n / WAVE_STRIDE;
    assert n == q * WAVE_STRIDE;
    forall m, k | 0 <= m < |offs| && 0 <= k < NUM_STREAMS
      ensures SegmentStart(offs[m], k) + SEG_SIZE <= n
    {
      assert m * WAVE_STRIDE == offs[m] < n == q * WAVE_STRIDE;
      Arith.MulMonoLt(m, q, WAVE_STRIDE);
      Arith.MulMonoLe(m + 1, q, WAVE_STRIDE);
      assert offs[m] + WAVE_STRIDE == (m + 1) * WAVE_STRIDE;
      SegmentInWave(offs[m], k);
    }
  }

  /** Otherwise the last stream of the last wave runs past `n`. */
  lemma TailOutOfBounds(n: nat)
    requires n % WAVE_STRIDE != 0
    ensures !AccessesInBounds(n)
  {
    var offs := WaveOffsets(n, WAVE_STRIDE);
    var q := n / WAVE_STRIDE;
    LastWave(n, WAVE_STRIDE);
    assert SegmentStart(offs[q], NUM_STREAMS - 1) + SEG_SIZE == offs[q] + WAVE_STRIDE;
  }

  /** When `stride` does not divide `n`, the wave at `n / stride` is visited
      and reaches past `n`. */
  lemma LastWave(n: nat, stride: nat)
    requires stride > 0 && n % stride != 0
    ensures n / stride < |WaveOffsets(n, stride)|
    ensures n < WaveOffsets(n, stride)[n / stride] + stride
  {
    var offs := WaveOffsets(n, stride);
    var q, r := n / stride, n % stride;
    assert n == q * stride + r;
    Arith.MulMonoLt(q, |offs|, stride);
    assert offs[q] == q * stride;
  }
}
