/** The addition kernel and its launch over a grid of thread blocks. */
module Kernel {
  import Arith
  import Geometry

  /** One thread of the kernel: the thread at `(blockIdx, threadIdx)` computes
      its global index `i` and, when `i < len`, writes `out[i] := in1[i] + in2[i]`.
      It touches no other element. */
  method VecAddThread(in1: array<int>, in2: array<int>, out: array<int>, len: int,
                      blockIdx: nat, blockDim: nat, threadIdx: nat)
    requires out != in1 && out != in2
    requires Geometry.ThreadIndex(blockIdx, blockDim, threadIdx) < len ==>
               Geometry.ThreadIndex(blockIdx, blockDim, threadIdx) < in1.Length &&
               Geometry.ThreadIndex(blockIdx, blockDim, threadIdx) < in2.Length &&
               Geometry.ThreadIndex(blockIdx, blockDim, threadIdx) < out.Length
    modifies out
    ensures forall j :: 0 <= j < out.Length ==>
              out[j] == if j == Geometry.ThreadIndex(blockIdx, blockDim, threadIdx) && j < len
                        then in1[j] + in2[j] else old(out[j])
  {
    var i := Geometry.ThreadIndex(blockIdx, blockDim, threadIdx);
    if i < len {
      out[i] := in1[i] + in2[i];
    }
  }

  /** The number of leading elements a launch writes: those below both `len`
      and the thread count of the first `gridDim` blocks. */
  function Extent(gridDim: nat, blockDim: nat, len: int): nat
  {
    if len < 0 then 0 else if len < gridDim * blockDim then len else gridDim * blockDim
  }

  /** One block of a launch: its `blockDim` threads cover the indices
      `[blockIdx * blockDim, (blockIdx + 1) * blockDim)`; those below `len`
      receive the sum, every other element of `out` is left as it was. */
  method RunBlock(in1: array<int>, in2: array<int>, out: array<int>, len: int, blockIdx: nat, blockDim: nat)
    requires out != in1 && out != in2
    requires Extent(blockIdx + 1, blockDim, len) <= in1.Length
    requires Extent(blockIdx + 1, blockDim, len) <= in2.Length
    requires Extent(blockIdx + 1, blockDim, len) <= out.Length
    modifies out
    ensures forall j :: 0 <= j < out.Length ==>
              out[j] == if blockIdx * blockDim <= j < blockIdx * blockDim + blockDim && j < len
                        then in1[j] + in2[j] else old(out[j])
  {
    var base := blockIdx * blockDim;
    var t := 0;
    while t < blockDim
      invariant 0 <= t <= blockDim
      invariant forall j :: 0 <= j < out.Length ==>
                  out[j] == if base <= j < base + t && j < len then in1[j] + in2[j] else old(out[j])
    {
      VecAddThread(in1, in2, out, len, blockIdx, blockDim, t);
      t := t + 1;
    }
  }

  /** A launch of `gridDim` blocks of `blockDim` threads. The threads are
      independent, so running them one after another gives the result of any
      parallel schedule: every index below both `len` and `gridDim * blockDim`
      receives the sum, and every other element of `out` is left as it was. */
  method LaunchVecAdd(gridDim: nat, blockDim: nat, in1: array<int>, in2: array<int>, out: array<int>, len: int)
    requires out != in1 && out != in2
    requires Extent(gridDim, blockDim, len) <= in1.Length
    requires Extent(gridDim, blockDim, len) <= in2.Length
    requires Extent(gridDim, blockDim, len) <= out.Length
    modifies out
    ensures forall j :: 0 <= j < out.Length ==>
              out[j] == if j < len && j < gridDim * blockDim then in1[j] + in2[j] else old(out[j])
  {
    var b := 0;
    while b < gridDim
      invariant 0 <= b <= gridDim
      invariant forall j :: 0 <= j < out.Length ==>
                  out[j] == if j < len && j < b * blockDim then in1[j] + in2[j] else old(out[j])
    {
      Arith.MulMonoLe(b + 1, gridDim, blockDim);
      RunBlock(in1, in2, out, len, b, blockDim);
      b := b + 1;
    }
  }
}
