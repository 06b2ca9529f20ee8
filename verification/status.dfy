/** Status codes returned by the compute API (`cl_int`, a 32-bit signed
    integer), the outcome type the model uses for calls that can fail, and
    the `err = f(); err |= g(); ... if (err < 0) exit(1);` idiom with which
    the examples check several calls at once. */
module Status {
  import opened Bits

  // Codes as the OpenCL 1.1 header defines them.
  const Success: int := 0
  /** The execution status CL_COMPLETE shares the value of CL_SUCCESS. */
  const Complete: int := 0
  const DeviceNotFound: int := -1
  const ProfilingInfoNotAvailable: int := -7
  const MemCopyOverlap: int := -8
  const MisalignedSubBufferOffset: int := -13
  const ExecStatusErrorForEventsInWaitList: int := -14
  const InvalidValue: int := -30
  const InvalidMemObject: int := -38
  const InvalidKernelName: int := -46
  const InvalidEventWaitList: int := -57
  const InvalidEvent: int := -58
  const InvalidWorkGroupSize: int := -54
  const InvalidOperation: int := -59
  const InvalidBufferSize: int := -61
  const InvalidGlobalWorkSize: int := -63

  /** The outcome of a call: a value, or the negative code the API returned. */
  datatype Result<T> = Ok(value: T) | Fail(code: int)

  /** x fits in a `cl_int`. */
  predicate IsClInt(x: int)
  {
    -0x8000_0000 <= x < 0x8000_0000
  }

  /** Two's-complement bit pattern of a `cl_int`. */
  function ToBits(x: int): (u: nat)
    requires IsClInt(x)
    ensures u < 0x1_0000_0000
    ensures x < 0 <==> u >= 0x8000_0000
  {
    if x >= 0 then x else x + 0x1_0000_0000
  }

  /** The `cl_int` a 32-bit pattern denotes. */
  function FromBits(u: nat): (x: int)
    requires u < 0x1_0000_0000
    ensures IsClInt(x)
    ensures x < 0 <==> u >= 0x8000_0000
    ensures ToBits(x) == u
  {
    if u < 0x8000_0000 then u else u - 0x1_0000_0000
  }

  /** `a | b` on two `cl_int` values. */
  function OrCode(a: int, b: int): int
    requires IsClInt(a) && IsClInt(b)
  {
    Pow2Word();
    BitOrTopBit(31, ToBits(a), ToBits(b));
    FromBits(BitOr(ToBits(a), ToBits(b)))
  }

  /** The combined code is negative exactly when one of the two is, and zero
      exactly when both are. */
  lemma OrCodeSign(a: int, b: int)
    requires IsClInt(a) && IsClInt(b)
    ensures BitOr(ToBits(a), ToBits(b)) < 0x1_0000_0000
    ensures OrCode(a, b) < 0 <==> a < 0 || b < 0
    ensures OrCode(a, b) == 0 <==> a == 0 && b == 0
  {
    Pow2Word();
    BitOrTopBit(31, ToBits(a), ToBits(b));
    BitOrZero(ToBits(a), ToBits(b));
  }

  /** The value of `err` after `err = codes[0]; err |= codes[1]; ...`. */
  function CombineCodes(codes: seq<int>): (err: int)
    requires |codes| >= 1
    requires forall i :: 0 <= i < |codes| ==> IsClInt(codes[i])
    ensures IsClInt(err)
    ensures err < 0 <==> exists i :: 0 <= i < |codes| && codes[i] < 0
    ensures err == 0 <==> forall i :: 0 <= i < |codes| ==> codes[i] == 0
  {
    if |codes| == 1 then codes[0]
    else
      var prefix := CombineCodes(codes[..|codes| - 1]);
      var last := codes[|codes| - 1];
      OrCodeSign(prefix, last);
      assert forall i :: 0 <= i < |codes| - 1 ==> codes[..|codes| - 1][i] == codes[i];
      OrCode(prefix, last)
  }

  /** The examples abort after a combined check exactly when one of the
      combined calls failed. */
  predicate CombinedCheckAborts(codes: seq<int>)
    requires |codes| >= 1
    requires forall i :: 0 <= i < |codes| ==> IsClInt(codes[i])
  {
    CombineCodes(codes) < 0
  }
}
