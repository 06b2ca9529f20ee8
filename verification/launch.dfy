/** Launch configurations shared by the kernel-launching examples: the
    record of one `clEnqueueNDRangeKernel` call with the argument values
    its kernel sees, the power-of-two rounding of work-group sizes, and the
    work-size rules of section 5.8 of the OpenCL 1.1 specification. */
module Launch {
  import opened Bits
  import opened Status

  /** A value bound with `clSetKernelArg`: a buffer object, a local-memory
      reservation (size in bytes, NULL pointer), a scalar, or a character
      array copied by value. */
  datatype ArgValue = BufferArg(buffer: nat) | LocalArg(bytes: nat) | ScalarArg(value: int) | CharsArg(chars: string)

  /** One kernel launch: the kernel, its one-dimensional global and local
      sizes, and the argument binding in force when it was enqueued. */
  datatype Launch = Launch(kernel: string, global: nat, local: nat, args: map<nat, ArgValue>)

  /** Every argument position below `arity` was bound before the launch. */
  predicate AllBound(l: Launch, arity: nat)
  {
    forall i :: 0 <= i < arity ==> i in l.args
  }

  /** `(int)pow(2, trunc(log2(n)))`: the largest power of two not above n.
      A reported size of 0 gives 0 (`log2(0)` is minus infinity). */
  function FloorPow2(n: nat): (r: nat)
    ensures n == 0 <==> r == 0
    ensures n >= 1 ==> IsPow2(r) && r <= n < 2 * r
  {
    if n < 2 then n
    else
      var h := FloorPow2(n / 2);
      assert (2 * h) / 2 == h && (2 * h) % 2 == 0;
      2 * h
  }

  /** No other power of two lies in the window FloorPow2 picks from. */
  lemma {:induction false} FloorPow2Unique(n: nat, p: nat)
    requires n >= 1 && IsPow2(p) && p <= n < 2 * p
    ensures p == FloorPow2(n)
  {
    if p > 1 {
      FloorPow2Unique(n / 2, p / 2);
    }
  }

  /** A power of two is its own rounding. */
  lemma FloorPow2OfPow2(p: nat)
    requires IsPow2(p)
    ensures FloorPow2(p) == p
  {
    FloorPow2Unique(p, p);
  }

  /** The checks `clEnqueueNDRangeKernel` makes on a one-dimensional range
      with an explicit local size (section 5.8 of the OpenCL 1.1
      specification): a nonzero global size, and a nonzero local size that
      divides it and does not exceed the kernel's work-group limit. */
  function CheckRange(global: nat, local: nat, maxLocal: nat): (code: int)
    ensures code == Success <==> global > 0 && local > 0 && global % local == 0 && local <= maxLocal
    ensures code != Success ==> code == InvalidGlobalWorkSize || code == InvalidWorkGroupSize
    ensures global == 0 ==> code == InvalidGlobalWorkSize
  {
    if global == 0 then InvalidGlobalWorkSize
    else if local == 0 || global % local != 0 || local > maxLocal then InvalidWorkGroupSize
    else Success
  }

  /** An accepted range splits into global/local whole work-groups. */
  lemma RangeSplitsIntoGroups(global: nat, local: nat, maxLocal: nat)
    requires CheckRange(global, local, maxLocal) == Success
    ensures (global / local) * local == global
  {
  }
}
