/** The host side of the 65536-point FFT: work-group size, points per
    group, global size, the stage loop and the optional scaling pass, and
    the arguments each launch sees.  The kernels and the floating-point
    error estimate are not modelled. */
module Fft {
  import opened Bits
  import opened Launch
  import opened Status

  const NumPoints: nat := 65536
  /** 1 for the forward transform, -1 for the inverse. */
  const Direction: int := 1
  /** Each point is a real and an imaginary float: 8 bytes. */
  const PointBytes: nat := 8
  const DataBuffer: nat := 0

  const InitKernel: string := "fft_init"
  const StageKernel: string := "fft_stage"
  const ScaleKernel: string := "fft_scale"

  /** `local_mem_size / (2 * sizeof(float))`, capped at the point count:
      the most points that fit both in local memory and in the input. */
  function PointsPerGroup(localMem: nat, numPoints: nat): (ppg: nat)
    ensures ppg <= numPoints && ppg * PointBytes <= localMem
    ensures ppg == numPoints || ppg == localMem / PointBytes
  {
    var fit := localMem / PointBytes;
    if fit > numPoints then numPoints else fit
  }

  /** The sizes the program settles on. */
  datatype Plan = Plan(local: nat, pointsPerGroup: nat, global: nat, localMem: nat)

  /** The plan computed from the kernel's work-group limit and the device's
      local memory, which must hold at least one point (the program divides
      by the points per group). */
  function PlanFor(maxWorkGroup: nat, localMem: nat): (p: Plan)
    requires maxWorkGroup >= 1 && localMem >= PointBytes
    ensures p.local == FloorPow2(maxWorkGroup) && p.localMem == localMem
    ensures 1 <= p.pointsPerGroup <= NumPoints
    ensures p.global == (NumPoints / p.pointsPerGroup) * p.local
    ensures NumPoints / p.pointsPerGroup >= 1
    ensures CheckRange(p.global, p.local, maxWorkGroup) == Success
  {
    var local := FloorPow2(maxWorkGroup);
    var ppg := PointsPerGroup(localMem, NumPoints);
    var groups := NumPoints / ppg;
    ExactDivision(groups * local, local, groups);
    MulAtLeast(groups, local);
    Plan(local, ppg, groups * local, localMem)
  }

  /** `for(stage = start; stage <= limit; stage <<= 1)`: the stage values
      in order. */
  function Stages(start: nat, limit: nat): (r: seq<nat>)
    requires start >= 1
    ensures r != [] ==> r[0] == start
    ensures forall i :: 0 < i < |r| ==> r[i] == 2 * r[i - 1]
    ensures forall i :: 0 <= i < |r| ==> start <= r[i] <= limit
    decreases limit + 1 - start
  {
    if start > limit then [] else [start] + Stages(2 * start, limit)
  }

  /** The stage loop visits exactly the powers of two from 2 up to the
      limit. */
  lemma StagesArePowers(limit: nat, s: nat)
    ensures s in Stages(2, limit) <==> IsPow2(s) && 2 <= s <= limit
  {
    assert IsPow2(2);
    if s in Stages(2, limit) {
      StagesFromPower(2, limit, s);
    }
    if IsPow2(s) && 2 <= s <= limit {
      PowerInStages(2, limit, s);
    }
  }

  /** Starting from a power of two, every visited stage is one. */
  lemma {:induction false} StagesFromPower(start: nat, limit: nat, s: nat)
    requires start >= 1 && IsPow2(start) && s in Stages(start, limit)
    ensures IsPow2(s)
    decreases limit + 1 - start
  {
    if s != start {
      assert (2 * start) / 2 == start;
      StagesFromPower(2 * start, limit, s);
    }
  }

  /** Every power of two between a power-of-two start and the limit is
      visited. */
  lemma {:induction false} PowerInStages(start: nat, limit: nat, s: nat)
    requires start >= 1 && IsPow2(start) && IsPow2(s) && start <= s <= limit
    ensures s in Stages(start, limit)
    decreases limit + 1 - start
  {
    if s != start {
      Pow2Divides(start, s);
      var q := s / start;
      assert q != 1 && q >= 1;
      assert s == q * start;
      MulLe(2, q, start);
      assert (2 * start) / 2 == start;
      PowerInStages(2 * start, limit, s);
    }
  }

  function InitArgs(p: Plan, direction: int): map<nat, ArgValue>
  {
    map[0 := BufferArg(DataBuffer), 1 := LocalArg(p.localMem), 2 := ScalarArg(p.pointsPerGroup),
        3 := ScalarArg(NumPoints), 4 := ScalarArg(direction)]
  }

  /** The stage kernel's arguments bound once before the stage loop: all
      but the stage value, which the loop binds before each launch. */
  function StageFixedArgs(p: Plan, direction: int): map<nat, ArgValue>
  {
    map[0 := BufferArg(DataBuffer), 2 := ScalarArg(p.pointsPerGroup), 3 := ScalarArg(direction)]
  }

  function StageArgs(p: Plan, stage: nat, direction: int): map<nat, ArgValue>
  {
    map[0 := BufferArg(DataBuffer), 1 := ScalarArg(stage), 2 := ScalarArg(p.pointsPerGroup), 3 := ScalarArg(direction)]
  }

  function ScaleArgs(p: Plan): map<nat, ArgValue>
  {
    map[0 := BufferArg(DataBuffer), 1 := ScalarArg(p.pointsPerGroup), 2 := ScalarArg(NumPoints)]
  }

  /** One stage launch per stage value. */
  function StageLaunches(p: Plan, stages: seq<nat>, direction: int): (r: seq<Launch>)
    ensures |r| == |stages|
    ensures forall i :: 0 <= i < |r| ==> r[i] == Launch(StageKernel, p.global, p.local, StageArgs(p, stages[i], direction))
  {
    seq(|stages|, i requires 0 <= i < |stages| => Launch(StageKernel, p.global, p.local, StageArgs(p, stages[i], direction)))
  }

  /** Launches of a stage list split at its first stage. */
  lemma StageLaunchesCons(p: Plan, stage: nat, rest: seq<nat>, direction: int)
    ensures StageLaunches(p, [stage] + rest, direction)
      == [Launch(StageKernel, p.global, p.local, StageArgs(p, stage, direction))] + StageLaunches(p, rest, direction)
  {
  }

  /** The launch sequence of the program, in queue order. */
  function Schedule(p: Plan, direction: int): seq<Launch>
    requires p.pointsPerGroup >= 1
  {
    [Launch(InitKernel, p.global, p.local, InitArgs(p, direction))]
    + (if NumPoints > p.pointsPerGroup then StageLaunches(p, Stages(2, NumPoints / p.pointsPerGroup), direction) else [])
    + (if direction < 0 then [Launch(ScaleKernel, p.global, p.local, ScaleArgs(p))] else [])
  }

  /** The stage loop: stage = 2, 4, ... up to the limit, argument 1 re-set
      before each launch.  The stage never exceeds twice the limit, so the
      32-bit shift does not wrap. */
  method RunStages(p: Plan, args: map<nat, ArgValue>, direction: int, before: seq<Launch>) returns (launches: seq<Launch>)
    requires p.pointsPerGroup >= 1
    requires args == StageFixedArgs(p, direction)
    ensures launches == before + StageLaunches(p, Stages(2, NumPoints / p.pointsPerGroup), direction)
  {
    var limit := NumPoints / p.pointsPerGroup;
    var args' := args;
    launches := before;
    var stage: nat := 2;
    ghost var last: nat := 0;
    while stage <= limit
      invariant stage >= 1
      invariant args' == args || args' == StageArgs(p, last, direction)
      invariant launches + StageLaunches(p, Stages(stage, limit), direction)
        == before + StageLaunches(p, Stages(2, limit), direction)
      decreases limit + 1 - stage
    {
      args' := args'[1 := ScalarArg(stage)];
      assert args' == StageArgs(p, stage, direction);
      last := stage;
      var l := Launch(StageKernel, p.global, p.local, args');
      StageLaunchesCons(p, stage, Stages(2 * stage, limit), direction);
      launches := launches + [l];
      stage := stage * 2;
    }
  }

  /** The host program from the work-group query to the last enqueue. */
  method FftHost(maxWorkGroup: nat, localMem: nat, direction: int) returns (p: Plan, launches: seq<Launch>)
    requires maxWorkGroup >= 1 && localMem >= PointBytes
    ensures p == PlanFor(maxWorkGroup, localMem)
    ensures launches == Schedule(p, direction)
  {
    var localSize := FloorPow2(maxWorkGroup);
    var numPoints := NumPoints;
    var pointsPerGroup := localMem / PointBytes;
    if pointsPerGroup > numPoints {
      pointsPerGroup := numPoints;
    }
    var init := InitArgs(Plan(localSize, pointsPerGroup, 0, localMem), direction);
    var globalSize := (numPoints / pointsPerGroup) * localSize;
    p := Plan(localSize, pointsPerGroup, globalSize, localMem);
    launches := [Launch(InitKernel, globalSize, localSize, init)];
    if numPoints > pointsPerGroup {
      var stageArgs := map[0 := BufferArg(DataBuffer), 2 := ScalarArg(pointsPerGroup), 3 := ScalarArg(direction)];
      launches := RunStages(p, stageArgs, direction, launches);
    }
    if direction < 0 {
      launches := launches + [Launch(ScaleKernel, globalSize, localSize, ScaleArgs(p))];
    }
  }

  // ---------------------------------------------------------------------
  // Properties of the schedule

  /** How many argument positions each kernel reads. */
  function Arity(kernel: string): nat
  {
    if kernel == InitKernel then 5 else if kernel == StageKernel then 4 else 3
  }

  /** Every launch has all its kernel's arguments bound and passes the
      work-size checks; the stage launches carry the stage values in
      order. */
  lemma ScheduleWellFormed(maxWorkGroup: nat, localMem: nat, direction: int)
    requires maxWorkGroup >= 1 && localMem >= PointBytes
    ensures var p := PlanFor(maxWorkGroup, localMem);
      forall l :: l in Schedule(p, direction) ==>
        AllBound(l, Arity(l.kernel)) && CheckRange(l.global, l.local, maxWorkGroup) == Success
  {
    var p := PlanFor(maxWorkGroup, localMem);
    var st := Stages(2, NumPoints / p.pointsPerGroup);
    forall l | l in StageLaunches(p, st, direction)
      ensures AllBound(l, Arity(l.kernel))
    {
      var i :| 0 <= i < |st| && l == StageLaunches(p, st, direction)[i];
    }
  }

  /** The init launch reserves all of the device's local memory and sees
      the points per group, the point count and the direction. */
  lemma InitLaunchArgs(maxWorkGroup: nat, localMem: nat, direction: int)
    requires maxWorkGroup >= 1 && localMem >= PointBytes
    ensures var p := PlanFor(maxWorkGroup, localMem);
      var l := Schedule(p, direction)[0];
      l.kernel == InitKernel && l.args[1] == LocalArg(localMem)
      && l.args[2] == ScalarArg(p.pointsPerGroup) && l.args[3] == ScalarArg(NumPoints)
      && l.args[4] == ScalarArg(direction)
  {
  }

  /** The scaling pass runs exactly for the inverse transform, and always
      last. */
  lemma ScaleIffInverse(p: Plan, direction: int)
    requires p.pointsPerGroup >= 1
    ensures (exists i :: 0 <= i < |Schedule(p, direction)| && Schedule(p, direction)[i].kernel == ScaleKernel) <==> direction < 0
    ensures direction < 0 ==> Schedule(p, direction)[|Schedule(p, direction)| - 1].kernel == ScaleKernel
  {
    var s := Schedule(p, direction);
    var stages := if NumPoints > p.pointsPerGroup then StageLaunches(p, Stages(2, NumPoints / p.pointsPerGroup), direction) else [];
    if direction >= 0 {
      assert s == [s[0]] + stages;
      forall i | 0 <= i < |s|
        ensures s[i].kernel != ScaleKernel
      {
        if i > 0 {
          assert s[i] == stages[i - 1];
        }
      }
    } else {
      assert s[|s| - 1].kernel == ScaleKernel;
    }
  }

  /** The stage launches of the schedule, empty when the guard fails. */
  function StagePart(p: Plan, direction: int): seq<Launch>
    requires p.pointsPerGroup >= 1
  {
    if NumPoints > p.pointsPerGroup then StageLaunches(p, Stages(2, NumPoints / p.pointsPerGroup), direction) else []
  }

  /** A stage-kernel launch of the schedule is one of its stage part. */
  lemma StageMember(p: Plan, direction: int, l: Launch)
    requires p.pointsPerGroup >= 1
    ensures l in Schedule(p, direction) && l.kernel == StageKernel <==> l in StagePart(p, direction)
  {
    var stages := StagePart(p, direction);
    var sched := Schedule(p, direction);
    var tail := if direction < 0 then [Launch(ScaleKernel, p.global, p.local, ScaleArgs(p))] else [];
    assert sched == [sched[0]] + stages + tail;
    if l in stages {
      var i :| 0 <= i < |stages| && stages[i] == l;
    }
  }

  /** The stage values the stage part carries are the visited stages. */
  lemma StagePartValues(p: Plan, direction: int, s: nat)
    requires 1 <= p.pointsPerGroup <= NumPoints
    ensures (exists l :: l in StagePart(p, direction) && 1 in l.args && l.args[1] == ScalarArg(s))
      <==> s in Stages(2, NumPoints / p.pointsPerGroup)
  {
    var limit := NumPoints / p.pointsPerGroup;
    var st := Stages(2, limit);
    if !(NumPoints > p.pointsPerGroup) {
      assert limit == 1;
    }
    var stages := StagePart(p, direction);
    assert stages == StageLaunches(p, st, direction);
    if s in st {
      var i :| 0 <= i < |st| && st[i] == s;
      assert stages[i] in stages;
    }
    if exists l :: l in stages && 1 in l.args && l.args[1] == ScalarArg(s) {
      var l :| l in stages && 1 in l.args && l.args[1] == ScalarArg(s);
      var k :| 0 <= k < |stages| && stages[k] == l;
      assert l.args[1] == ScalarArg(st[k]);
    }
  }

  /** The stage launches see stage = 2, 4, ... : exactly the powers of two
      up to the number of groups; with one group there are none, so the
      program's guard only skips an empty loop. */
  lemma StageValues(p: Plan, direction: int, s: nat)
    requires 1 <= p.pointsPerGroup <= NumPoints
    ensures (exists l :: l in Schedule(p, direction) && l.kernel == StageKernel && 1 in l.args && l.args[1] == ScalarArg(s))
      <==> IsPow2(s) && 2 <= s <= NumPoints / p.pointsPerGroup
  {
    var limit := NumPoints / p.pointsPerGroup;
    var inSched := exists l :: l in Schedule(p, direction) && l.kernel == StageKernel && 1 in l.args && l.args[1] == ScalarArg(s);
    var inPart := exists l :: l in StagePart(p, direction) && 1 in l.args && l.args[1] == ScalarArg(s);
    assert inSched <==> inPart by {
      if inPart {
        var l :| l in StagePart(p, direction) && 1 in l.args && l.args[1] == ScalarArg(s);
        StageMember(p, direction, l);
      }
      if inSched {
        var l :| l in Schedule(p, direction) && l.kernel == StageKernel && 1 in l.args && l.args[1] == ScalarArg(s);
        StageMember(p, direction, l);
      }
    }
    StagePartValues(p, direction, s);
    StagesArePowers(limit, s);
  }
}
