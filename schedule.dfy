/** The order in which the host loop issues work to the streams.

    Each wave issues a Load (both operand copies) to every stream, then a
    Compute (the kernel launch) to every stream, then a Store (the copy back)
    to every stream. A stream runs its own operations in issue order, so what
    matters for correctness is the order of the operations of each single
    stream; operations of different streams are unordered. */
module Schedule {
  import Geometry

  datatype Phase = Load | Compute | Store

  /** Position of a phase within one wave of one stream. */
  function Rank(p: Phase): nat
  {
    match p
    case Load => 0
    case Compute => 1
    case Store => 2
  }

  /** One issued operation: a phase, the stream it is issued to, and the wave offset. */
  datatype Op = Op(phase: Phase, stream: nat, offset: nat)

  /** The operations of one phase of the wave at `off`, issued to streams `0 .. w - 1`. */
  function PhaseOps(phase: Phase, off: nat, w: nat): seq<Op>
  {
    seq(w, k requires 0 <= k => Op(phase, k, off))
  }

  /** The operations one wave issues: all loads, then all launches, then all stores. */
  function WaveOps(off: nat, w: nat): (r: seq<Op>)
    ensures |r| == 3 * w
    ensures forall x :: 0 <= x < |r| ==> r[x].offset == off && r[x].stream < w
  {
    PhaseOps(Load, off, w) + PhaseOps(Compute, off, w) + PhaseOps(Store, off, w)
  }

  /** The operations the loop issues over the waves at `offs`, in issue order. */
  function Issued(offs: seq<nat>, w: nat): (r: seq<Op>)
    ensures |r| == |offs| * (3 * w)
  {
    if offs == [] then [] else Issued(offs[..|offs| - 1], w) + WaveOps(offs[|offs| - 1], w)
  }

  /** Issuing one more wave appends that wave's operations. */
  lemma IssuedSnoc(offs: seq<nat>, off: nat, w: nat)
    ensures Issued(offs + [off], w) == Issued(offs, w) + WaveOps(off, w)
  {
    assert (offs + [off])[..|offs|] == offs;
  }

  /** `a` belongs before `b` on a stream: an earlier wave, or an earlier phase of the same wave. */
  predicate Precedes(a: Op, b: Op)
  {
    a.offset < b.offset || (a.offset == b.offset && Rank(a.phase) < Rank(b.phase))
  }

  /** Every stream receives its operations in wave order, and within a wave as Load, Compute, Store. */
  ghost predicate StreamOrdered(trace: seq<Op>)
  {
    forall x, y :: 0 <= x < y < |trace| && trace[x].stream == trace[y].stream ==> Precedes(trace[x], trace[y])
  }

  ghost predicate Increasing(offs: seq<nat>)
  {
    forall x, y :: 0 <= x < y < |offs| ==> offs[x] < offs[y]
  }

  /** One wave issues exactly one Load, one Compute and one Store to each of the `w` streams. */
  lemma WaveOpsContents(off: nat, w: nat, op: Op)
    ensures |WaveOps(off, w)| == 3 * w
    ensures op in WaveOps(off, w) <==> op.offset == off && op.stream < w
  {
    var ops := WaveOps(off, w);
    if op.offset == off && op.stream < w {
      var x := Rank(op.phase) * w + op.stream;
      assert ops[x] == op;
    }
  }

  /** The first `w` positions of a wave are the Loads, the next `w` the launches, the last `w` the Stores. */
  lemma WaveOpAt(off: nat, w: nat, x: nat)
    requires x < 3 * w
    ensures WaveOps(off, w)[x] == if x < w then Op(Load, x, off)
                                  else if x < 2 * w then Op(Compute, x - w, off)
                                  else Op(Store, x - 2 * w, off)
  {
  }

  /** Within one wave each stream gets Load before Compute before Store. */
  lemma WaveOpsOrdered(off: nat, w: nat)
    ensures StreamOrdered(WaveOps(off, w))
  {
    var ops := WaveOps(off, w);
    forall x, y | 0 <= x < y < |ops| && ops[x].stream == ops[y].stream
      ensures Precedes(ops[x], ops[y])
    {
      WaveOpAt(off, w, x);
      WaveOpAt(off, w, y);
    }
  }

  /** Every issued operation belongs to one of the waves at `offs` and to one of the `w` streams. */
  lemma {:induction false} IssuedOps(offs: seq<nat>, w: nat, x: nat)
    requires x < |Issued(offs, w)|
    ensures Issued(offs, w)[x].offset in offs && Issued(offs, w)[x].stream < w
  {
    var init := offs[..|offs| - 1];
    var last := offs[|offs| - 1];
    var prev := Issued(init, w);
    if x < |prev| {
      IssuedOps(init, w, x);
      assert prev[x].offset in offs;
    } else {
      WaveOpsContents(last, w, Issued(offs, w)[x]);
      assert Issued(offs, w)[x] == WaveOps(last, w)[x - |prev|];
    }
  }

  /** Every wave at `offs` issues its Load, Compute and Store to every one of the `w` streams. */
  lemma {:induction false} IssuedComplete(offs: seq<nat>, w: nat, m: nat, k: nat, phase: Phase)
    requires m < |offs| && k < w
    ensures Op(phase, k, offs[m]) in Issued(offs, w)
  {
    var init := offs[..|offs| - 1];
    if m < |init| {
      IssuedComplete(init, w, m, k, phase);
    } else {
      WaveOpsContents(offs[m], w, Op(phase, k, offs[m]));
    }
  }

  /** With increasing wave offsets, the issue order is a per-stream order:
      each stream receives its waves in turn, each as Load, Compute, Store. */
  lemma {:induction false} IssuedStreamOrdered(offs: seq<nat>, w: nat)
    requires Increasing(offs)
    ensures StreamOrdered(Issued(offs, w))
  {
    if offs != [] {
      var init := offs[..|offs| - 1];
      var last := offs[|offs| - 1];
      var prev := Issued(init, w);
      var wave := WaveOps(last, w);
      var trace := Issued(offs, w);
      assert trace == prev + wave;
      IssuedStreamOrdered(init, w);
      WaveOpsOrdered(last, w);
      forall x, y | 0 <= x < y < |trace| && trace[x].stream == trace[y].stream
        ensures Precedes(trace[x], trace[y])
      {
        if y < |prev| {
          assert trace[x] == prev[x] && trace[y] == prev[y];
        } else if |prev| <= x {
          assert trace[x] == wave[x - |prev|] && trace[y] == wave[y - |prev|];
        } else {
          IssuedOps(init, w, x);
          assert trace[x] == prev[x];
          WaveOpsContents(last, w, trace[y]);
          assert trace[y] == wave[y - |prev|];
        }
      }
    }
  }

  /** Because a stream runs in issue order, an operation that precedes another
      on the same stream was issued, and so runs, first. */
  lemma ProgramOrderIsIssueOrder(offs: seq<nat>, w: nat, x: nat, y: nat)
    requires Increasing(offs)
    requires x < |Issued(offs, w)| && y < |Issued(offs, w)|
    requires Issued(offs, w)[x].stream == Issued(offs, w)[y].stream
    requires Precedes(Issued(offs, w)[x], Issued(offs, w)[y])
    ensures x < y
  {
    IssuedStreamOrdered(offs, w);
  }

  /** Stream `k`'s Compute of wave `m` reads `A_k` and `B_k`; it is issued,
      and so runs, before the Load of wave `m + 1` that overwrites them. */
  lemma ComputeBeforeReload(offs: seq<nat>, w: nat, m: nat, k: nat)
    requires Increasing(offs) && m + 1 < |offs| && k < w
    ensures Op(Compute, k, offs[m]) in Issued(offs, w) && Op(Load, k, offs[m + 1]) in Issued(offs, w)
    ensures forall x, y ::
              (0 <= x < |Issued(offs, w)| && 0 <= y < |Issued(offs, w)| &&
               Issued(offs, w)[x] == Op(Compute, k, offs[m]) && Issued(offs, w)[y] == Op(Load, k, offs[m + 1])) ==> x < y
  {
    IssuedComplete(offs, w, m, k, Compute);
    IssuedComplete(offs, w, m + 1, k, Load);
    IssuedStreamOrdered(offs, w);
    assert offs[m] < offs[m + 1];
  }

  /** Stream `k`'s Store of wave `m` reads `C_k`; it is issued, and so runs,
      before the Compute of wave `m + 1` that overwrites it. */
  lemma StoreBeforeRecompute(offs: seq<nat>, w: nat, m: nat, k: nat)
    requires Increasing(offs) && m + 1 < |offs| && k < w
    ensures Op(Store, k, offs[m]) in Issued(offs, w) && Op(Compute, k, offs[m + 1]) in Issued(offs, w)
    ensures forall x, y ::
              (0 <= x < |Issued(offs, w)| && 0 <= y < |Issued(offs, w)| &&
               Issued(offs, w)[x] == Op(Store, k, offs[m]) && Issued(offs, w)[y] == Op(Compute, k, offs[m + 1])) ==> x < y
  {
    IssuedComplete(offs, w, m, k, Store);
    IssuedComplete(offs, w, m + 1, k, Compute);
    IssuedStreamOrdered(offs, w);
    assert offs[m] < offs[m + 1];
  }

  /** The operations the wave loop issues over `n` host elements, whose waves
      are at `Geometry.WaveOffsets(n, stride)`, reach every stream in per-stream order. */
  lemma LoopIssueOrdered(n: int, stride: nat, w: nat)
    requires stride > 0
    ensures StreamOrdered(Issued(Geometry.WaveOffsets(n, stride), w))
  {
    Geometry.WaveOffsetsIncreasing(n, stride);
    IssuedStreamOrdered(Geometry.WaveOffsets(n, stride), w);
  }

  /** One more iteration of the wave loop at the multiple `i` of `stride` issues
      exactly one more wave, at `i`. */
  lemma LoopIssueNext(i: nat, stride: nat, w: nat)
    requires stride > 0 && i % stride == 0
    ensures (i + stride) % stride == 0
    ensures Issued(Geometry.WaveOffsets(i + stride, stride), w) == Issued(Geometry.WaveOffsets(i, stride), w) + WaveOps(i, w)
  {
    Geometry.WaveOffsetsNext(i, stride);
    IssuedSnoc(Geometry.WaveOffsets(i, stride), i, w);
  }
}
