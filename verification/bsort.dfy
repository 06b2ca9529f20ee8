/** The host side of the bitonic sort of 2^20 floats: the work-group size,
    the launch schedule of the five sort kernels, and the arguments each
    launch sees.  The kernels themselves are not modelled; the final
    sortedness check is `Checks.CheckDirection`. */
module Bsort {
  import opened Bits
  import opened Launch
  import opened Status

  const NumFloats: nat := 1048576
  /** Ascending is 0, descending is -1. */
  const Direction: int := 0
  /** The one data buffer every kernel reads and writes. */
  const DataBuffer: nat := 0

  const InitKernel: string := "bsort_init"
  const Stage0Kernel: string := "bsort_stage_0"
  const StageNKernel: string := "bsort_stage_n"
  const MergeKernel: string := "bsort_merge"
  const MergeLastKernel: string := "bsort_merge_last"

  /** The sizes the host settles on.  `reserved` is the rounded work-group
      size before clamping, which sizes the local-memory arguments. */
  datatype Config = Config(global: nat, local: nat, reserved: nat, numStages: nat, direction: int)

  /** Arguments 0 and 1 of every kernel: the data buffer and a local
      reservation of eight floats per work-item. */
  function Base(reserved: nat): map<nat, ArgValue>
  {
    map[0 := BufferArg(DataBuffer), 1 := LocalArg(8 * reserved * 4)]
  }

  function InitLaunch(c: Config): Launch
  {
    Launch(InitKernel, c.global, c.local, Base(c.reserved))
  }

  function StageNLaunch(c: Config, stage: int, highStage: int): Launch
  {
    Launch(StageNKernel, c.global, c.local, Base(c.reserved)[2 := ScalarArg(stage)][3 := ScalarArg(highStage)])
  }

  function Stage0Launch(c: Config, highStage: int): Launch
  {
    Launch(Stage0Kernel, c.global, c.local, Base(c.reserved)[2 := ScalarArg(highStage)])
  }

  function MergeLaunch(c: Config, stage: int): Launch
  {
    Launch(MergeKernel, c.global, c.local, Base(c.reserved)[2 := ScalarArg(stage)][3 := ScalarArg(c.direction)])
  }

  function MergeLastLaunch(c: Config): Launch
  {
    Launch(MergeLastKernel, c.global, c.local, Base(c.reserved)[2 := ScalarArg(c.direction)])
  }

  /** stage_n launches for stage = s, s/2, ..., 2 within one high stage. */
  function StageNRuns(c: Config, s: nat, highStage: int): seq<Launch>
    decreases s
  {
    if s > 1 then [StageNLaunch(c, s, highStage)] + StageNRuns(c, s / 2, highStage) else []
  }

  /** For high_stage = h, 2h, ... below the stage count: the stage_n runs
      followed by one stage_0 launch. */
  function HighStages(c: Config, h: nat): seq<Launch>
    requires h >= 1
    decreases c.numStages - h
  {
    if h < c.numStages then StageNRuns(c, h, h) + [Stage0Launch(c, h)] + HighStages(c, 2 * h) else []
  }

  /** merge launches for stage = s, s/2, ..., 2. */
  function Merges(c: Config, s: nat): seq<Launch>
    decreases s
  {
    if s > 1 then [MergeLaunch(c, s)] + Merges(c, s / 2) else []
  }

  /** The complete launch sequence of the program, in queue order. */
  function Schedule(c: Config): seq<Launch>
  {
    [InitLaunch(c)] + HighStages(c, 2) + Merges(c, c.numStages) + [MergeLastLaunch(c)]
  }

  /** The sizes the program computes from the kernel's reported maximum
      work-group size. */
  function ConfigFor(maxWorkGroup: nat): (c: Config)
    requires maxWorkGroup >= 1
    ensures IsPow2(c.reserved) && c.reserved <= maxWorkGroup < 2 * c.reserved
    ensures c.global == NumFloats / 8
    ensures c.local == if c.reserved <= c.global then c.reserved else c.global
    ensures 1 <= c.local <= c.global && c.local <= maxWorkGroup
    ensures c.numStages * c.local == c.global
    ensures IsPow2(c.numStages)
  {
    var reserved := FloorPow2(maxWorkGroup);
    var global := NumFloats / 8;
    var local := if global < reserved then global else reserved;
    GlobalIsPow2();
    Pow2Divides(local, global);
    ExactQuotient(global, local);
    Config(global, local, reserved, global / local, Direction)
  }

  /** 2^17 work-items, eight floats each. */
  lemma GlobalIsPow2()
    ensures IsPow2(NumFloats / 8)
  {
    Pow2Add(8, 9);
    Pow2Add(4, 4);
    Pow2Add(4, 5);
    assert Pow2(4) == 16;
    assert Pow2(5) == 32;
    IsPow2OfPow2(17);
  }

  /** Keys of an argument map all lie below `arity`, and positions 0 and 1
      hold the shared buffer and reservation. */
  predicate BaseBound(m: map<nat, ArgValue>, reserved: nat, arity: nat)
  {
    (forall k :: k in m ==> k < arity)
    && 0 in m && m[0] == BufferArg(DataBuffer)
    && 1 in m && m[1] == LocalArg(8 * reserved * 4)
  }

  /** A four-argument binding is determined by its scalars at 2 and 3. */
  lemma Bound4(m: map<nat, ArgValue>, reserved: nat, a: int, b: int)
    requires BaseBound(m, reserved, 4)
    requires 2 in m && m[2] == ScalarArg(a) && 3 in m && m[3] == ScalarArg(b)
    ensures m == Base(reserved)[2 := ScalarArg(a)][3 := ScalarArg(b)]
  {
    var n := Base(reserved)[2 := ScalarArg(a)][3 := ScalarArg(b)];
    assert forall k :: k in m <==> k in n;
  }

  /** A three-argument binding is determined by its scalar at 2. */
  lemma Bound3(m: map<nat, ArgValue>, reserved: nat, a: int)
    requires BaseBound(m, reserved, 3)
    requires 2 in m && m[2] == ScalarArg(a)
    ensures m == Base(reserved)[2 := ScalarArg(a)]
  {
    var n := Base(reserved)[2 := ScalarArg(a)];
    assert forall k :: k in m <==> k in n;
  }

  /** The inner loop of one high stage: stage_n is launched with
      stage = highStage, highStage/2, ..., 2, argument 2 re-set before each
      launch and argument 3 already holding highStage. */
  method RunStageN(c: Config, highStage: nat, stageN: map<nat, ArgValue>, before: seq<Launch>)
    returns (stageN': map<nat, ArgValue>, launches: seq<Launch>)
    requires BaseBound(stageN, c.reserved, 4) && 3 in stageN && stageN[3] == ScalarArg(highStage)
    ensures launches == before + StageNRuns(c, highStage, highStage)
    ensures BaseBound(stageN', c.reserved, 4)
  {
    stageN', launches := stageN, before;
    var stage: nat := highStage;
    while stage > 1
      invariant launches + StageNRuns(c, stage, highStage) == before + StageNRuns(c, highStage, highStage)
      invariant BaseBound(stageN', c.reserved, 4) && 3 in stageN' && stageN'[3] == ScalarArg(highStage)
    {
      stageN' := stageN'[2 := ScalarArg(stage)];
      Bound4(stageN', c.reserved, stage, highStage);
      launches := launches + [Launch(StageNKernel, c.global, c.local, stageN')];
      stage := stage / 2;
    }
  }

  /** The outer loop: high_stage = 2, 4, ... while below the stage count,
      setting both kernels' high-stage argument, running the inner loop and
      then one stage_0 launch. */
  method RunHighStages(c: Config, stage0: map<nat, ArgValue>, stageN: map<nat, ArgValue>, before: seq<Launch>)
    returns (launches: seq<Launch>)
    requires BaseBound(stage0, c.reserved, 3) && BaseBound(stageN, c.reserved, 4)
    ensures launches == before + HighStages(c, 2)
  {
    var stage0', stageN' := stage0, stageN;
    launches := before;
    var highStage: nat := 2;
    while highStage < c.numStages
      invariant highStage >= 2
      invariant launches + HighStages(c, highStage) == before + HighStages(c, 2)
      invariant BaseBound(stage0', c.reserved, 3) && BaseBound(stageN', c.reserved, 4)
      decreases c.numStages - highStage
    {
      stage0' := stage0'[2 := ScalarArg(highStage)];
      stageN' := stageN'[3 := ScalarArg(highStage)];
      stageN', launches := RunStageN(c, highStage, stageN', launches);
      Bound3(stage0', c.reserved, highStage);
      launches := launches + [Launch(Stage0Kernel, c.global, c.local, stage0')];
      highStage := highStage * 2;
    }
  }

  /** The merge loop: stage = numStages, numStages/2, ..., 2, with the
      direction already bound at argument 3. */
  method RunMerges(c: Config, merge: map<nat, ArgValue>, before: seq<Launch>) returns (launches: seq<Launch>)
    requires BaseBound(merge, c.reserved, 4) && 3 in merge && merge[3] == ScalarArg(c.direction)
    ensures launches == before + Merges(c, c.numStages)
  {
    var merge' := merge;
    launches := before;
    var stage: nat := c.numStages;
    while stage > 1
      invariant launches + Merges(c, stage) == before + Merges(c, c.numStages)
      invariant BaseBound(merge', c.reserved, 4) && 3 in merge' && merge'[3] == ScalarArg(c.direction)
    {
      merge' := merge'[2 := ScalarArg(stage)];
      Bound4(merge', c.reserved, stage, c.direction);
      launches := launches + [Launch(MergeKernel, c.global, c.local, merge')];
      stage := stage / 2;
    }
  }

  /** The host program from the work-group query to the last enqueue.  Each
      kernel's argument binding is kept as a map that `clSetKernelArg`
      updates, and each enqueue records the binding in force. */
  method BsortHost(maxWorkGroup: nat) returns (c: Config, launches: seq<Launch>)
    requires maxWorkGroup >= 1
    ensures c == ConfigFor(maxWorkGroup)
    ensures launches == Schedule(c)
  {
    var localSize := FloorPow2(maxWorkGroup);
    var reserved := localSize;
    // Arguments 0 and 1 of all five kernels.
    var init, stage0, stageN, merge, mergeLast := Base(reserved), Base(reserved), Base(reserved), Base(reserved), Base(reserved);
    var globalSize := NumFloats / 8;
    if globalSize < localSize {
      localSize := globalSize;
    }
    var numStages := globalSize / localSize;
    c := Config(globalSize, localSize, reserved, numStages, Direction);
    assert c == ConfigFor(maxWorkGroup);
    launches := [Launch(InitKernel, globalSize, localSize, init)];
    launches := RunHighStages(c, stage0, stageN, launches);
    var direction := Direction;
    merge := merge[3 := ScalarArg(direction)];
    mergeLast := mergeLast[2 := ScalarArg(direction)];
    launches := RunMerges(c, merge, launches);
    Bound3(mergeLast, reserved, direction);
    launches := launches + [Launch(MergeLastKernel, globalSize, localSize, mergeLast)];
  }

  // ---------------------------------------------------------------------
  // Properties of the schedule

  /** How many argument positions each kernel reads. */
  function Arity(kernel: string): nat
  {
    if kernel == InitKernel then 2
    else if kernel == Stage0Kernel || kernel == MergeLastKernel then 3
    else 4
  }

  /** A launch of the program: every argument its kernel reads is bound,
      and it uses the program's global and local sizes. */
  predicate WellFormed(c: Config, l: Launch)
  {
    AllBound(l, Arity(l.kernel)) && l.global == c.global && l.local == c.local
  }

  /** Within one high stage, the i-th stage_n launch sees stage = h / 2^i,
      and there are log2 h of them. */
  lemma {:induction false} StageNRunsShape(c: Config, s: nat, h: int)
    ensures forall i :: 0 <= i < |StageNRuns(c, s, h)| ==> StageNRuns(c, s, h)[i] == StageNLaunch(c, s / Pow2(i), h)
    ensures s >= 1 ==> |StageNRuns(c, s, h)| == Log2(s)
    decreases s
  {
    if s > 1 {
      var rest := StageNRuns(c, s / 2, h);
      var all := StageNRuns(c, s, h);
      assert all == [StageNLaunch(c, s, h)] + rest;
      StageNRunsShape(c, s / 2, h);
      forall i | 1 <= i < |all|
        ensures all[i] == StageNLaunch(c, s / Pow2(i), h)
      {
        assert all[i] == rest[i - 1];
        HalfThenDivide(s, i - 1);
      }
    }
  }

  /** The merge launches see stage = numStages / 2^i, log2 numStages of
      them. */
  lemma {:induction false} MergesShape(c: Config, s: nat)
    ensures forall i :: 0 <= i < |Merges(c, s)| ==> Merges(c, s)[i] == MergeLaunch(c, s / Pow2(i))
    ensures s >= 1 ==> |Merges(c, s)| == Log2(s)
    decreases s
  {
    if s > 1 {
      var rest := Merges(c, s / 2);
      var all := Merges(c, s);
      assert all == [MergeLaunch(c, s)] + rest;
      MergesShape(c, s / 2);
      forall i | 1 <= i < |all|
        ensures all[i] == MergeLaunch(c, s / Pow2(i))
      {
        assert all[i] == rest[i - 1];
        HalfThenDivide(s, i - 1);
      }
    }
  }

  /** Every stage_n launch of a high stage is well formed. */
  lemma StageNRunsWellFormed(c: Config, s: nat, h: int)
    ensures forall l :: l in StageNRuns(c, s, h) ==> WellFormed(c, l)
  {
    StageNRunsShape(c, s, h);
  }

  /** Every merge launch is well formed. */
  lemma MergesWellFormed(c: Config, s: nat)
    ensures forall l :: l in Merges(c, s) ==> WellFormed(c, l)
  {
    MergesShape(c, s);
  }

  /** Every launch of the high-stage phase is well formed. */
  lemma {:induction false} HighStagesWellFormed(c: Config, h: nat)
    requires h >= 1
    ensures forall l :: l in HighStages(c, h) ==> WellFormed(c, l)
    decreases c.numStages - h
  {
    if h < c.numStages {
      StageNRunsWellFormed(c, h, h);
      HighStagesWellFormed(c, 2 * h);
    }
  }

  /** Each kernel has every argument position it reads bound before each
      of its launches, and all launches share the program's sizes. */
  lemma ScheduleWellFormed(c: Config)
    ensures forall l :: l in Schedule(c) ==> WellFormed(c, l)
  {
    HighStagesWellFormed(c, 2);
    MergesWellFormed(c, c.numStages);
  }

  /** The schedule begins with the initial sort and ends with the last
      merge, and the merge phase has one launch per halving of the stage
      count. */
  lemma ScheduleEnds(c: Config)
    requires c.numStages >= 1
    ensures Schedule(c)[0] == InitLaunch(c)
    ensures Schedule(c)[|Schedule(c)| - 1] == MergeLastLaunch(c)
    ensures |Schedule(c)| == 2 + |HighStages(c, 2)| + Log2(c.numStages)
  {
    MergesShape(c, c.numStages);
  }

  /** With the sizes the program computes, every enqueue passes the
      work-size checks of the launch call. */
  lemma ScheduleRangesAccepted(maxWorkGroup: nat)
    requires maxWorkGroup >= 1
    ensures forall l :: l in Schedule(ConfigFor(maxWorkGroup)) ==>
      CheckRange(l.global, l.local, maxWorkGroup) == Success
  {
    var c := ConfigFor(maxWorkGroup);
    ScheduleWellFormed(c);
    assert c.global % c.local == 0 by {
      DivUnique(c.global, c.local, c.numStages, 0);
    }
  }
}
