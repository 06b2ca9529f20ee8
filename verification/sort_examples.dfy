/** The two eight-element sorts run as single tasks: the host fills a
    buffer, the kernel sorts it in place, and the host reads it back and
    checks the order.  The kernels are not part of the model; their effect
    is an arbitrary eight-element rewrite passed in as a parameter. */
module SortExamples {
  import opened Status
  import opened Buffers
  import opened Checks
  import opened Shuffle
  import Launch

  const Ascending: int := 0
  const Descending: int := -1

  /** The bitonic example's input. */
  const BsortInput: seq<int> := [3, 5, 4, 6, 0, 7, 2, 1]

  /** The single-work-item task with the data buffer as argument 0 and the
      sort direction as argument 1. */
  function SortTask(kernel: string, buffer: nat, dir: int): (l: Launch.Launch)
    ensures Launch.AllBound(l, 2) && l.kernel == kernel && l.global == 1 && l.local == 1
    ensures l.args[0] == Launch.BufferArg(buffer) && l.args[1] == Launch.ScalarArg(dir)
  {
    Launch.Launch(kernel, 1, 1, map[0 := Launch.BufferArg(buffer), 1 := Launch.ScalarArg(dir)])
  }

  /** bsort8: the direction argument is ASCENDING, so the check passes
      exactly when the output is in ascending order; a kernel that sorts
      its input yields 0..7.  `task` is the enqueued task with its two
      bound arguments. */
  method Bsort8(kernel: string, kernelOut: seq<int>) returns (task: Launch.Launch, output: seq<int>, check: int)
    requires |kernelOut| == 8
    ensures Launch.AllBound(task, 2) && task.kernel == kernel && task.global == 1 && task.local == 1
    ensures task.args[0].BufferArg? && task.args[1] == Launch.ScalarArg(Ascending)
    ensures output == kernelOut
    ensures check == 1 <==> SortedUp(output)
    ensures check == 0 || check == 1
    ensures multiset(kernelOut) == multiset(BsortInput) && SortedUp(kernelOut) ==> output == Range(8) && check == 1
  {
    var buffer, _, out := KernelRoundTrip(BsortInput, kernelOut, 4);
    var dir := Ascending;
    task := SortTask(kernel, buffer, dir);
    output := out;
    check := CheckDirection(output, dir);
    if multiset(kernelOut) == multiset(BsortInput) {
      BsortInputIsRange();
      SortedPermutationIsIdentity(output);
    }
  }

  /** The bitonic input holds each of 0..7 once. */
  lemma BsortInputIsRange()
    ensures multiset(BsortInput) == multiset(Range(8))
  {
    assert Range(8) == [0, 1, 2, 3, 4, 5, 6, 7];
    SameEight();
  }

  lemma SameEight()
    ensures multiset([3, 5, 4, 6, 0, 7, 2, 1]) == multiset([0, 1, 2, 3, 4, 5, 6, 7])
  {
    InputHoldsEight();
    RangeHoldsEight();
  }

  lemma InputHoldsEight()
    ensures multiset([3, 5, 4, 6, 0, 7, 2, 1]) == multiset{0, 1, 2, 3, 4, 5, 6, 7}
  {
  }

  lemma RangeHoldsEight()
    ensures multiset([0, 1, 2, 3, 4, 5, 6, 7]) == multiset{0, 1, 2, 3, 4, 5, 6, 7}
  {
  }

  /** radix_sort8: the host shuffles 0..7 with one roll per step, the
      kernel sorts, and the check passes exactly when the output is 0..7,
      which for a rearrangement of the input is the same as being sorted. */
  method RadixSort8(rolls: seq<nat>, kernelOut: seq<int>) returns (input: seq<int>, output: seq<int>, check: int)
    requires |rolls| == 7 && |kernelOut| == 8
    ensures input == ShuffleFrom(Range(8), 0, rolls) && IsPermutationOfRange(input)
    ensures output == kernelOut
    ensures check == 1 <==> output == Range(8)
    ensures multiset(kernelOut) == multiset(input) ==> (check == 1 <==> SortedUp(output))
  {
    input := ShuffleRange(8, rolls);
    var _, _, out := KernelRoundTrip(input, kernelOut, 2);
    output := out;
    check := CheckIdentity(output);
    if multiset(kernelOut) == multiset(input) {
      SortedPermutationIsIdentity(output);
    }
  }
}
