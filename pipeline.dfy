/** The streamed vector addition on the host side: per-stream device
    buffers, the asynchronous copies between host and device, and the loop
    that issues one wave of copy / add / copy-back work per iteration.

    Each stream runs its own operations in issue order, and the streams share
    no device buffer. No host element lies in the segments of two different
    (wave, stream) pairs (`Geometry.SegmentOwner`), so streams that run out of
    step across waves still never touch the same output element, and the
    inputs are only read. Running the issued operations one after another in
    program order therefore gives the state the streams reach once all of
    them have drained. */
module Pipeline {
  import Arith
  import Geometry
  import Kernel
  import Schedule

  /** The private device buffers of one stream: the two operand segments and
      the result segment, each `SEG_SIZE` elements long. */
  datatype Slot = Slot(a: array<int>, b: array<int>, c: array<int>)
  {
    predicate Valid()
    {
      a.Length == Geometry.SEG_SIZE && b.Length == Geometry.SEG_SIZE && c.Length == Geometry.SEG_SIZE &&
      a != b && a != c && b != c
    }

    /** None of this stream's buffers is `x`. */
    predicate Excludes(x: array<int>)
    {
      a != x && b != x && c != x
    }

    /** This stream and `other` share no buffer. */
    predicate SeparateFrom(other: Slot)
    {
      other.Excludes(a) && other.Excludes(b) && other.Excludes(c)
    }
  }

  /** The stream buffers are all distinct and each is `SEG_SIZE` long. */
  predicate Owned(slots: seq<Slot>)
  {
    (forall k :: 0 <= k < |slots| ==> slots[k].Valid()) &&
    (forall k1, k2 :: 0 <= k1 < |slots| && 0 <= k2 < |slots| && k1 != k2 ==> slots[k1].SeparateFrom(slots[k2]))
  }

  /** No stream buffer is `x`. */
  predicate Outside(slots: seq<Slot>, x: array<int>)
  {
    forall k :: 0 <= k < |slots| ==> slots[k].Excludes(x)
  }

  /** Every buffer is a distinct allocation: each stream owns its three device
      buffers, no device buffer is a host vector, and the host output is not
      an input. */
  predicate Separate(slots: seq<Slot>, hostInput1: array<int>, hostInput2: array<int>, hostOutput: array<int>)
  {
    hostOutput != hostInput1 && hostOutput != hostInput2 &&
    Owned(slots) && Outside(slots, hostInput1) && Outside(slots, hostInput2) && Outside(slots, hostOutput)
  }

  /** The operand buffers `a` and `b` of every stream. */
  ghost function OperandBuffers(slots: seq<Slot>): set<object>
  {
    (set k | 0 <= k < |slots| :: slots[k].a) + (set k | 0 <= k < |slots| :: slots[k].b)
  }

  /** The result buffers `c` of every stream. */
  ghost function ResultBuffers(slots: seq<Slot>): set<object>
  {
    set k | 0 <= k < |slots| :: slots[k].c
  }

  /** All device buffers of all streams. */
  ghost function DeviceBuffers(slots: seq<Slot>): set<object>
  {
    OperandBuffers(slots) + ResultBuffers(slots)
  }

  /** Operand buffers, result buffers and host vectors are pairwise apart. */
  lemma BuffersApart(slots: seq<Slot>, hostInput1: array<int>, hostInput2: array<int>, hostOutput: array<int>)
    requires Separate(slots, hostInput1, hostInput2, hostOutput)
    ensures OperandBuffers(slots) !! ResultBuffers(slots)
    ensures hostInput1 !in DeviceBuffers(slots) && hostInput2 !in DeviceBuffers(slots) && hostOutput !in DeviceBuffers(slots)
  {
    forall o | o in OperandBuffers(slots)
      ensures o !in ResultBuffers(slots)
    {
      var k1 :| 0 <= k1 < |slots| && (o == slots[k1].a || o == slots[k1].b);
      forall k2 | 0 <= k2 < |slots|
        ensures o != slots[k2].c
      {
        if k1 != k2 {
          assert slots[k2].SeparateFrom(slots[k1]);
        }
      }
    }
  }

  /** Stream `k`'s operand buffers hold its host segment of the wave at `i`,
      starting at `Geometry.SegmentStart(i, k)`, of the two inputs. */
  ghost predicate Loaded(slots: seq<Slot>, hostInput1: array<int>, hostInput2: array<int>, i: nat)
    reads OperandBuffers(slots), hostInput1, hostInput2
  {
    forall k, t :: 0 <= k < |slots| && 0 <= t < Geometry.SEG_SIZE ==>
      t < slots[k].a.Length && t < slots[k].b.Length &&
      Geometry.SegmentStart(i, k) + t < hostInput1.Length && Geometry.SegmentStart(i, k) + t < hostInput2.Length &&
      slots[k].a[t] == hostInput1[Geometry.SegmentStart(i, k) + t] &&
      slots[k].b[t] == hostInput2[Geometry.SegmentStart(i, k) + t]
  }

  /** Every stream's result buffer holds the element-wise sum of its operand buffers. */
  ghost predicate Summed(slots: seq<Slot>)
    reads DeviceBuffers(slots)
  {
    forall k, t :: 0 <= k < |slots| && 0 <= t < Geometry.SEG_SIZE ==>
      t < slots[k].a.Length && t < slots[k].b.Length && t < slots[k].c.Length &&
      slots[k].c[t] == slots[k].a[t] + slots[k].b[t]
  }

  /** Stream `k`'s host output segment of the wave at `i` holds its result
      buffer, for every stream `k`. The segment starts at
      `Geometry.SegmentStart(i, k)`, written out here as `i + k * SEG_SIZE`. */
  ghost predicate Stored(hostOutput: array<int>, slots: seq<Slot>, i: nat)
    reads hostOutput, ResultBuffers(slots)
  {
    forall k, t :: 0 <= k < |slots| && 0 <= t < Geometry.SEG_SIZE ==>
      t < slots[k].c.Length && i + k * Geometry.SEG_SIZE + t < hostOutput.Length &&
      hostOutput[i + k * Geometry.SEG_SIZE + t] == slots[k].c[t]
  }

  /** Loads, launches and stores together put the sum of the inputs into the
      wave's range of the output. */
  lemma WaveSums(hostInput1: array<int>, hostInput2: array<int>, hostOutput: array<int>, slots: seq<Slot>, i: nat)
    requires |slots| == Geometry.NUM_STREAMS && Owned(slots)
    requires i + Geometry.WAVE_STRIDE <= hostInput1.Length && i + Geometry.WAVE_STRIDE <= hostInput2.Length
    requires i + Geometry.WAVE_STRIDE <= hostOutput.Length
    requires Loaded(slots, hostInput1, hostInput2, i) && Summed(slots) && Stored(hostOutput, slots, i)
    ensures forall j :: i <= j < i + Geometry.WAVE_STRIDE ==> hostOutput[j] == hostInput1[j] + hostInput2[j]
  {
    forall j | i <= j < i + Geometry.WAVE_STRIDE
      ensures hostOutput[j] == hostInput1[j] + hostInput2[j]
    {
      var k, t := (j - i) / Geometry.SEG_SIZE, (j - i) % Geometry.SEG_SIZE;
      Arith.DivLt(j - i, Geometry.SEG_SIZE, Geometry.NUM_STREAMS);
      assert j == i + k * Geometry.SEG_SIZE + t;
      assert slots[k].Valid();
      assert hostOutput[j] == slots[k].c[t] == slots[k].a[t] + slots[k].b[t];
    }
  }

  /** An asynchronous copy of `count` elements from `src[srcOff ..]` to
      `dst[dstOff ..]`, host to device or device to host. It writes exactly
      the destination range and nothing else. */
  method CopyAsync(dst: array<int>, dstOff: nat, src: array<int>, srcOff: nat, count: nat)
    requires dst != src
    requires dstOff + count <= dst.Length && srcOff + count <= src.Length
    modifies dst
    ensures forall j :: dstOff <= j < dstOff + count ==> dst[j] == src[srcOff + (j - dstOff)]
    ensures forall j :: 0 <= j < dst.Length && (j < dstOff || dstOff + count <= j) ==> dst[j] == old(dst[j])
  {
    forall j | dstOff <= j < dstOff + count {
      dst[j] := src[srcOff + (j - dstOff)];
    }
  }

  /** The two host-to-device copies issued to one stream: its operand
      buffers receive the `SEG_SIZE` input elements from `off` on. */
  method LoadStream(hostInput1: array<int>, hostInput2: array<int>, slot: Slot, off: nat)
    requires slot.Valid() && slot.Excludes(hostInput1) && slot.Excludes(hostInput2)
    requires off + Geometry.SEG_SIZE <= hostInput1.Length && off + Geometry.SEG_SIZE <= hostInput2.Length
    modifies slot.a, slot.b
    ensures forall t :: 0 <= t < Geometry.SEG_SIZE ==> slot.a[t] == hostInput1[off + t] && slot.b[t] == hostInput2[off + t]
  {
    CopyAsync(slot.a, 0, hostInput1, off, Geometry.SEG_SIZE);
    CopyAsync(slot.b, 0, hostInput2, off, Geometry.SEG_SIZE);
  }

  /** The loads of the wave at `i`: stream `k` copies the host segment
      `[i + k * SEG_SIZE, i + (k + 1) * SEG_SIZE)` of both inputs into its
      operand buffers. */
  method LoadPhase(hostInput1: array<int>, hostInput2: array<int>, slots: seq<Slot>, i: nat)
    returns (ghost ops: seq<Schedule.Op>)
    requires |slots| == Geometry.NUM_STREAMS && Owned(slots)
    requires Outside(slots, hostInput1) && Outside(slots, hostInput2)
    requires i + Geometry.WAVE_STRIDE <= hostInput1.Length && i + Geometry.WAVE_STRIDE <= hostInput2.Length
    modifies OperandBuffers(slots)
    ensures Loaded(slots, hostInput1, hostInput2, i)
    ensures ops == Schedule.PhaseOps(Schedule.Load, i, Geometry.NUM_STREAMS)
  {
    var S, W := Geometry.SEG_SIZE, Geometry.NUM_STREAMS;
    ops := [];
    for k := 0 to W
      invariant forall k', t :: 0 <= k' < k && 0 <= t < S ==>
                  slots[k'].a[t] == hostInput1[Geometry.SegmentStart(i, k') + t] &&
                  slots[k'].b[t] == hostInput2[Geometry.SegmentStart(i, k') + t]
      invariant ops == Schedule.PhaseOps(Schedule.Load, i, W)[..k]
    {
      assert slots[k].a in OperandBuffers(slots) && slots[k].b in OperandBuffers(slots);
      LoadStream(hostInput1, hostInput2, slots[k], Geometry.SegmentStart(i, k));
      ops := ops + [Schedule.Op(Schedule.Load, k, i)];
    }
    forall k | 0 <= k < W
      ensures Geometry.SegmentStart(i, k) + S <= hostInput1.Length && Geometry.SegmentStart(i, k) + S <= hostInput2.Length
    {
      Geometry.SegmentInWave(i, k);
    }
  }

  /** The launches of a wave: one launch of `SEG_SIZE / 256` blocks of 256
      threads per stream, adding its operand buffers into its result buffer. */
  method ComputePhase(slots: seq<Slot>, ghost i: nat) returns (ghost ops: seq<Schedule.Op>)
    requires |slots| == Geometry.NUM_STREAMS && Owned(slots)
    modifies ResultBuffers(slots)
    ensures Summed(slots)
    ensures ops == Schedule.PhaseOps(Schedule.Compute, i, Geometry.NUM_STREAMS)
  {
    var S, W := Geometry.SEG_SIZE, Geometry.NUM_STREAMS;
    ops := [];
    for k := 0 to W
      invariant forall k', t :: 0 <= k' < k && 0 <= t < S ==> slots[k'].c[t] == slots[k'].a[t] + slots[k'].b[t]
      invariant ops == Schedule.PhaseOps(Schedule.Compute, i, W)[..k]
    {
      assert slots[k].c in ResultBuffers(slots);
      Kernel.LaunchVecAdd(Geometry.GRID_DIM, Geometry.BLOCK_DIM, slots[k].a, slots[k].b, slots[k].c, S);
      ops := ops + [Schedule.Op(Schedule.Compute, k, i)];
    }
  }

  /** The stores of the wave at `i`: stream `k` copies its result buffer back
      to its host segment, which starts at `Geometry.SegmentStart(i, k)`. */
  method StorePhase(hostOutput: array<int>, slots: seq<Slot>, i: nat) returns (ghost ops: seq<Schedule.Op>)
    requires |slots| == Geometry.NUM_STREAMS && Owned(slots) && Outside(slots, hostOutput)
    requires i + Geometry.WAVE_STRIDE <= hostOutput.Length
    modifies hostOutput
    ensures Stored(hostOutput, slots, i)
    ensures forall j :: 0 <= j < hostOutput.Length && (j < i || i + Geometry.WAVE_STRIDE <= j) ==> hostOutput[j] == old(hostOutput[j])
    ensures ops == Schedule.PhaseOps(Schedule.Store, i, Geometry.NUM_STREAMS)
  {
    var S, W := Geometry.SEG_SIZE, Geometry.NUM_STREAMS;
    ops := [];
    for k := 0 to W
      invariant forall k', t :: 0 <= k' < k && 0 <= t < S ==> hostOutput[i + k' * S + t] == slots[k'].c[t]
      invariant forall j :: 0 <= j < hostOutput.Length && (j < i || i + W * S <= j) ==> hostOutput[j] == old(hostOutput[j])
      invariant ops == Schedule.PhaseOps(Schedule.Store, i, W)[..k]
    {
      label copy:
      CopyAsync(hostOutput, i + k * S, slots[k].c, 0, S);
      forall k', t | 0 <= k' <= k && 0 <= t < S
        ensures hostOutput[i + k' * S + t] == slots[k'].c[t]
      {
        assert slots[k'].Excludes(hostOutput);
        if k' < k {
          assert i + k' * S + t < i + k * S;
          assert hostOutput[i + k' * S + t] == old@copy(hostOutput[i + k' * S + t]);
        }
      }
      ops := ops + [Schedule.Op(Schedule.Store, k, i)];
    }
  }

  /** One wave at host offset `i`: all loads, then all launches, then all
      stores. Afterwards the wave's range of the output holds the sums, the
      rest of the output is as it was, and `ops` lists the operations in
      issue order. */
  method Wave(hostInput1: array<int>, hostInput2: array<int>, hostOutput: array<int>, slots: seq<Slot>, i: nat)
    returns (ghost ops: seq<Schedule.Op>)
    requires |slots| == Geometry.NUM_STREAMS
    requires Separate(slots, hostInput1, hostInput2, hostOutput)
    requires i + Geometry.WAVE_STRIDE <= hostInput1.Length && i + Geometry.WAVE_STRIDE <= hostInput2.Length
    requires i + Geometry.WAVE_STRIDE <= hostOutput.Length
    modifies hostOutput, DeviceBuffers(slots)
    ensures forall j :: 0 <= j < hostOutput.Length ==>
              hostOutput[j] == if i <= j < i + Geometry.WAVE_STRIDE then hostInput1[j] + hostInput2[j] else old(hostOutput[j])
    ensures ops == Schedule.WaveOps(i, Geometry.NUM_STREAMS)
  {
    BuffersApart(slots, hostInput1, hostInput2, hostOutput);
    var loads := LoadPhase(hostInput1, hostInput2, slots, i);
    var launches := ComputePhase(slots, i);
    var stores := StorePhase(hostOutput, slots, i);
    ops := loads + launches + stores;
    WaveSums(hostInput1, hostInput2, hostOutput, slots, i);
  }

  /** The wave loop: `i` runs over the wave offsets `0, WAVE_STRIDE, 2 * WAVE_STRIDE, ...`
      below `inputLength`, issuing one wave per offset.

      The loop reads and writes only host elements below `inputLength` when
      `inputLength` is a multiple of `SEG_SIZE * NUM_STREAMS`
      (`Geometry.InBoundsIffMultiple`). Afterwards every output element is the
      sum of the inputs, the inputs are as they were, and the ghost `trace`
      records every operation in issue order, which is a per-stream order. */
  method StreamLoop(hostInput1: array<int>, hostInput2: array<int>, hostOutput: array<int>, inputLength: int,
                    slots: seq<Slot>)
    returns (ghost trace: seq<Schedule.Op>)
    requires |slots| == Geometry.NUM_STREAMS
    requires Separate(slots, hostInput1, hostInput2, hostOutput)
    requires hostInput1.Length == inputLength && hostInput2.Length == inputLength && hostOutput.Length == inputLength
    requires inputLength % Geometry.WAVE_STRIDE == 0
    modifies hostOutput, DeviceBuffers(slots)
    ensures forall j :: 0 <= j < inputLength ==> hostOutput[j] == hostInput1[j] + hostInput2[j]
    ensures unchanged(hostInput1, hostInput2)
    ensures trace == Schedule.Issued(Geometry.WaveOffsets(inputLength, Geometry.WAVE_STRIDE), Geometry.NUM_STREAMS)
  {
    BuffersApart(slots, hostInput1, hostInput2, hostOutput);
    var i: nat := 0;
    trace := [];
    while i < inputLength
      invariant i <= inputLength && i % Geometry.WAVE_STRIDE == 0
      invariant trace == Schedule.Issued(Geometry.WaveOffsets(i, Geometry.WAVE_STRIDE), Geometry.NUM_STREAMS)
      invariant forall j :: 0 <= j < i ==> hostOutput[j] == hostInput1[j] + hostInput2[j]
    {
      Arith.MultipleStep(i, inputLength, Geometry.WAVE_STRIDE);
      ghost var ops := Wave(hostInput1, hostInput2, hostOutput, slots, i);
      Schedule.LoopIssueNext(i, Geometry.WAVE_STRIDE, Geometry.NUM_STREAMS);
      trace := trace + ops;
      i := i + Geometry.WAVE_STRIDE;
    }
  }
}
