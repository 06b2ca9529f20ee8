/** The host side of the two reduction kernels over 2^20 floats: group
    counts, local reservations, the partial-sum buffers and their
    read-back, the profiling of each launch, and the closed-form reference
    sum.  The kernels are not modelled: each rewrites its partial-sum
    buffer arbitrarily.  The floating-point summation of the partials and
    the tolerance check are left out. */
module Reduction {
  import opened Bits
  import opened Status
  import opened Launch
  import opened Buffers
  import opened Profiling
  import opened Checks

  const ArraySize: nat := 1048576
  const FloatBytes: nat := 4
  const ScalarKernel: string := "reduction_scalar"
  const VectorKernel: string := "reduction_vector"

  /** 0 + 1 + ... + (n-1). */
  function SumBelow(n: nat): nat
  {
    if n == 0 then 0 else SumBelow(n - 1) + (n - 1)
  }

  /** Gauss's formula. */
  lemma {:induction false} SumBelowClosed(n: nat)
    ensures 2 * SumBelow(n) == n * (n - 1)
  {
    if n > 0 {
      SumBelowClosed(n - 1);
      assert n * (n - 1) == (n - 1) * (n - 2) + 2 * (n - 1);
    }
  }

  /** The reference `ARRAY_SIZE/2*(ARRAY_SIZE-1)` is the sum of the input
      data[i] = i; for an even size the halving is exact. */
  lemma ReferenceSum(n: nat)
    requires n % 2 == 0
    ensures n / 2 * (n - 1) == SumBelow(n)
  {
    SumBelowClosed(n);
    assert n == 2 * (n / 2);
  }

  /** `ARRAY_SIZE / local_size`. */
  function NumGroups(local: nat): nat
    requires local >= 1
  {
    ArraySize / local
  }

  /** Dividing the work-item count by four and then by the group size gives
      a quarter of the group count. */
  lemma VectorGroups(local: nat)
    requires local >= 1
    ensures (ArraySize / 4) / local == NumGroups(local) / 4
  {
    DivDiv(ArraySize, 4, local);
    DivDiv(ArraySize, local, 4);
  }

  /** The work-items cover every element exactly when the unrounded group
      size divides the array size. */
  lemma Coverage(local: nat)
    requires local >= 1
    ensures NumGroups(local) * local == ArraySize <==> ArraySize % local == 0
  {
    if ArraySize % local == 0 {
      ExactQuotient(ArraySize, local);
    }
    if NumGroups(local) * local == ArraySize {
      ExactDivision(ArraySize, local, NumGroups(local));
    }
  }

  /** The vector kernel's launch is accepted exactly when the group size
      divides a quarter of the array, and then the scalar one is too. */
  lemma VectorRangeImpliesScalar(local: nat)
    requires local >= 1 && (ArraySize / 4) % local == 0
    ensures ArraySize % local == 0
  {
    DividesTransitive(ArraySize, ArraySize / 4, local);
  }

  /** The host array behind `vector_sum_buffer` as written: num_groups/4
      floats, while the buffer copies num_groups of them. */
  function VectorHostAsWritten(numGroups: nat): (r: seq<int>)
    ensures |r| == numGroups / 4
  {
    seq(numGroups / 4, i => 0)
  }

  /** As written, creating `vector_sum_buffer` reads past the end of its
      host array for every group size the program can run with. */
  lemma VectorSumOverRead(local: nat)
    requires 1 <= local <= ArraySize
    ensures |VectorHostAsWritten(NumGroups(local))| < NumGroups(local)
  {
    DivUnique(ArraySize, local, ArraySize / local, ArraySize % local);
  }

  /** The host array behind `vector_sum_buffer` sized like the buffer. */
  function VectorHost(numGroups: nat): (r: seq<int>)
    ensures |r| == numGroups
    ensures forall i :: 0 <= i < numGroups ==> r[i] == 0
  {
    seq(numGroups, i => 0)
  }

  function ScalarLaunch(local: nat, data: nat, partials: nat): (l: Launch)
    ensures AllBound(l, 3) && l.global == ArraySize && l.local == local
    ensures l.args[1] == LocalArg(local * FloatBytes)
  {
    Launch(ScalarKernel, ArraySize, local, map[0 := BufferArg(data), 1 := LocalArg(local * FloatBytes), 2 := BufferArg(partials)])
  }

  function VectorLaunch(local: nat, data: nat, partials: nat): (l: Launch)
    ensures AllBound(l, 3) && l.global == ArraySize / 4 && l.local == local
    ensures l.args[1] == LocalArg(local * 4 * FloatBytes)
  {
    Launch(VectorKernel, ArraySize / 4, local, map[0 := BufferArg(data), 1 := LocalArg(local * 4 * FloatBytes), 2 := BufferArg(partials)])
  }

  /** What the host observes: the two launches, the partial sums read
      back and each kernel's elapsed time. */
  datatype Run = Run(launches: seq<Launch>, scalarPartials: seq<int>, vectorPartials: seq<int>, elapsed: seq<nat>)

  /** The three buffers: the input, copied from data[i] = i, and the two
      partial-sum buffers of num_groups floats each.  Only the last
      creation's code is checked; the partial-sum buffers have the same
      size, so they fail together. */
  method CreateBuffers(numGroups: nat) returns (r: Result<(Store, nat, nat, nat)>)
    ensures r.Ok? <==> numGroups > 0
    ensures r.Fail? ==> r.code == InvalidBufferSize
    ensures r.Ok? ==> var (s, data, scalar, vector) := r.value;
      Valid(s) && data in s.objs && scalar in s.objs && vector in s.objs
      && Contents(s, data) == Range(ArraySize)
      && s.objs[scalar].count == numGroups && s.objs[vector].count == numGroups
  {
    EmptyValid();
    var dataBuffer := CopyFromHost(Empty, Range(ArraySize), ArraySize, FloatBytes).value;
    var s := dataBuffer.store;
    var scalarBuffer := CopyFromHost(s, seq(numGroups, i => 0), numGroups, FloatBytes);
    if scalarBuffer.Fail? {
      return Fail(InvalidBufferSize);
    }
    s := scalarBuffer.value.store;
    var vectorBuffer := CopyFromHost(s, VectorHost(numGroups), numGroups, FloatBytes).value;
    assert Contents(vectorBuffer.store, scalarBuffer.value.id) == Contents(s, scalarBuffer.value.id);
    r := Ok((vectorBuffer.store, dataBuffer.id, scalarBuffer.value.id, vectorBuffer.id));
  }

  /** A kernel leaves `out` in its output buffer and the host reads back
      the first `count` elements. */
  method KernelPass(s: Store, buffer: nat, out: seq<int>, count: nat) returns (s': Store, back: seq<int>)
    requires Valid(s) && buffer in s.objs && |out| == s.objs[buffer].count && count <= |out|
    ensures Valid(s') && s'.objs == s.objs
    ensures back == out[..count]
  {
    s' := Write(s, buffer, 0, out).value;
    back := Read(s', buffer, 0, count).value;
    assert Contents(s', buffer) == out;
  }

  /** The program with the device's maximum work-group size as the local
      size.  `scalarOut` and `vectorOut` are what the kernels leave in
      their partial-sum buffers; `starts` and `ends` are the profiling
      counters of the two launches. */
  method ReductionHost(local: nat, scalarOut: seq<int>, vectorOut: seq<int>, starts: seq<nat>, ends: seq<nat>)
    returns (r: Result<Run>)
    requires local >= 1
    requires |scalarOut| == NumGroups(local) && |vectorOut| == NumGroups(local)
    requires |starts| == 2 && |ends| == 2
    requires forall k :: 0 <= k < 2 ==> starts[k] < Word64 && ends[k] < Word64
    ensures r.Ok? <==> (ArraySize / 4) % local == 0
    ensures r.Fail? ==> r.code == InvalidBufferSize || r.code == InvalidWorkGroupSize || r.code == InvalidGlobalWorkSize
    ensures r.Ok? ==> NumGroups(local) * local == ArraySize
    ensures r.Ok? ==> (|r.value.launches| == 2
      && r.value.launches[0].kernel == ScalarKernel && r.value.launches[0].global == ArraySize
      && r.value.launches[1].kernel == VectorKernel && r.value.launches[1].global == ArraySize / 4
      && r.value.launches[1].global / local == NumGroups(local) / 4)
    ensures r.Ok? ==> r.value.scalarPartials == scalarOut && r.value.vectorPartials == vectorOut[..NumGroups(local) / 4]
    ensures r.Ok? ==> r.value.elapsed == [Elapsed(starts[0], ends[0]), Elapsed(starts[1], ends[1])]
  {
    var numGroups := ArraySize / local;
    if (ArraySize / 4) % local == 0 {
      VectorRangeImpliesScalar(local);
    }
    var buffers := CreateBuffers(numGroups);
    if buffers.Fail? {
      return Fail(buffers.code);
    }
    var (s, data, scalar, vector) := buffers.value;

    var scalarLaunch := ScalarLaunch(local, data, scalar);
    var code := CheckRange(ArraySize, local, local);
    if code != Success {
      return Fail(code);
    }
    var scalarPartials;
    s, scalarPartials := KernelPass(s, scalar, scalarOut, numGroups);
    var first := Elapsed(starts[0], ends[0]);

    var vectorLaunch := VectorLaunch(local, data, vector);
    code := CheckRange(ArraySize / 4, local, local);
    if code != Success {
      return Fail(code);
    }
    var vectorPartials;
    s, vectorPartials := KernelPass(s, vector, vectorOut, numGroups / 4);
    var second := Elapsed(starts[1], ends[1]);
    Coverage(local);
    VectorGroups(local);
    r := Ok(Run([scalarLaunch, vectorLaunch], scalarPartials[..], vectorPartials, [first, second]));
  }

  /** The size the program uses is a power of two, even, and its reference
      value is the sum of its input. */
  lemma ExampleReference()
    ensures ArraySize / 2 * (ArraySize - 1) == SumBelow(ArraySize)
  {
    ReferenceSum(ArraySize);
  }
}
