/** Profiling arithmetic of the timing examples: command timestamps are
    64-bit unsigned nanosecond counters (`cl_ulong`), elapsed times are
    their differences, and averages use integer division.

    Two loops are modelled.  `profile_read` times a blocking map of the
    data buffer 2000 times, unmapping it after each query; `profile_items`
    times 2000 kernel launches, finishing the queue before each query.  The
    timestamps the device reports, and the codes the enqueue calls return,
    are inputs: one record per iteration. */
module Profiling {
  import opened Bits
  import opened Status
  import Events
  import Launch

  /** `time_end - time_start` on `cl_ulong`: wraps when the end precedes
      the start. */
  function Elapsed(start: nat, end: nat): (d: nat)
    requires start < Word64 && end < Word64
    ensures d < Word64
    ensures start <= end ==> d == end - start
    ensures end < start ==> d == end + Word64 - start
  {
    (end - start) % Word64
  }

  /** Both timestamps a loop reads fit in a `cl_ulong`. */
  predicate Stamped(t: Events.Times)
  {
    t.started < Word64 && t.ended < Word64
  }

  /** The value `time_end - time_start` a loop adds for one command. */
  function Duration(t: Events.Times): nat
    requires Stamped(t)
  {
    Elapsed(t.started, t.ended)
  }

  /** The values `time_end - time_start` a loop adds, one per command,
      each wrapped as `cl_ulong` subtraction wraps. */
  function Durations(ts: seq<Events.Times>): (ds: seq<nat>)
    requires forall i :: 0 <= i < |ts| ==> Stamped(ts[i])
    ensures |ds| == |ts|
    ensures forall i :: 0 <= i < |ts| ==> ds[i] < Word64
    ensures forall i :: 0 <= i < |ts| && ts[i].started <= ts[i].ended ==> ds[i] == ts[i].ended - ts[i].started
  {
    seq(|ts|, i requires 0 <= i < |ts| => Duration(ts[i]))
  }

  /** Sum of naturals, added from the front as the loops add them. */
  function Sum(ds: seq<nat>): nat
  {
    if |ds| == 0 then 0 else Sum(ds[..|ds| - 1]) + ds[|ds| - 1]
  }

  /** The loops end either in `exit(1)` after a failed call, whose code is
      kept, or in the printed average of the accumulated total. */
  datatype Outcome = Exit(code: int) | Report(total: nat, average: nat)

  /** Adding to a wrapped total gives the wrapped exact sum. */
  lemma AddWraps(total: nat, exact: nat, d: nat)
    requires total == exact % Word64
    ensures (total + d) % Word64 == (exact + d) % Word64
  {
    var q := exact / Word64;
    assert exact == q * Word64 + total;
    var s, r := (total + d) / Word64, (total + d) % Word64;
    assert total + d == s * Word64 + r;
    assert exact + d == (q + s) * Word64 + r;
    DivUnique(exact + d, Word64, q + s, r);
  }

  /** One more term of a running total: the accumulator `total += d` keeps
      the wrapped sum of the prefix read so far. */
  lemma Accumulate(ds: seq<nat>, i: nat, total: nat)
    requires i < |ds| && total == Sum(ds[..i]) % Word64
    ensures (total + ds[i]) % Word64 == Sum(ds[..i + 1]) % Word64
  {
    assert ds[..i + 1][..i] == ds[..i];
    AddWraps(total, Sum(ds[..i]), ds[i]);
  }

  /** n terms between lo and hi sum to between n*lo and n*hi. */
  lemma {:induction false} SumBounds(ds: seq<nat>, lo: nat, hi: nat)
    requires forall i :: 0 <= i < |ds| ==> lo <= ds[i] <= hi
    ensures |ds| * lo <= Sum(ds) <= |ds| * hi
  {
    if |ds| > 0 {
      var t := ds[..|ds| - 1];
      SumBounds(t, lo, hi);
      assert (|ds| - 1) * lo + lo == |ds| * lo;
      assert (|ds| - 1) * hi + hi == |ds| * hi;
    }
  }

  /** When no term exceeds hi and n*hi stays below 2^64 the total never
      wraps, and the integer average of n durations lies between the
      smallest and the largest bound. */
  lemma AverageWithin(ds: seq<nat>, lo: nat, hi: nat)
    requires |ds| >= 1 && |ds| * hi < Word64
    requires forall i :: 0 <= i < |ds| ==> lo <= ds[i] <= hi
    ensures Sum(ds) % Word64 == Sum(ds)
    ensures lo <= Sum(ds) / |ds| <= hi
  {
    SumBounds(ds, lo, hi);
    DivUnique(Sum(ds), Word64, 0, Sum(ds));
    DivBetween(Sum(ds), |ds|, lo, hi);
  }

  /** A quotient by n of something between n*lo and n*hi lies between lo
      and hi. */
  lemma DivBetween(x: nat, n: nat, lo: nat, hi: nat)
    requires n >= 1 && n * lo <= x <= n * hi
    ensures lo <= x / n <= hi
  {
    var q, r := x / n, x % n;
    assert x == q * n + r;
    assert n * (q + 1) == q * n + n;
    LtMulCancel(lo, q + 1, n, 0);
    assert n * (hi + 1) == n * hi + n;
    LtMulCancel(q, hi + 1, n, r);
  }

  /** The duration of a command whose stamps are in order is the plain
      difference, bounded by its end stamp; `Events.Profile` reports stamps
      in this order for every completed command. */
  lemma OrderedDuration(t: Events.Times)
    requires Stamped(t) && t.queued <= t.submitted <= t.started <= t.ended
    ensures Duration(t) == t.ended - t.started <= t.ended
  {
  }

  // ---------------------------------------------------------------------
  // profile_read: timing a blocking map

  /** NUM_BYTES, the size of the data buffer. */
  const ReadBytes: nat := 131072
  /** NUM_ITERATIONS of both timing loops. */
  const Iterations: nat := 2000
  /** The kernel's second argument: the buffer size in 16-byte vectors. */
  const ReadVectors: nat := ReadBytes / 16

  /** The task each iteration enqueues: a single work-item with the data
      buffer as argument 0 and the vector count as argument 1. */
  function ReadTask(kernel: string, buffer: nat): (l: Launch.Launch)
    ensures Launch.AllBound(l, 2) && l.kernel == kernel
    ensures l.global == 1 && l.local == 1
    ensures l.args[0] == Launch.BufferArg(buffer)
    ensures l.args[1] == Launch.ScalarArg(ReadVectors) && ReadVectors * 16 == ReadBytes
  {
    Launch.Launch(kernel, 1, 1, map[0 := Launch.BufferArg(buffer), 1 := Launch.ScalarArg(ReadVectors)])
  }

  /** What one iteration of the map loop gets back: the codes of the task,
      map and unmap enqueues, and the timestamps of the map command. */
  datatype MapRound = MapRound(taskCode: int, mapCode: int, unmapCode: int, times: Events.Times)

  predicate MapRoundOk(r: MapRound)
  {
    r.taskCode >= 0 && r.mapCode >= 0 && r.unmapCode >= 0
  }

  /** The code of the first call of a round that failed. */
  function MapRoundCode(r: MapRound): (code: int)
    requires !MapRoundOk(r)
    ensures code < 0
    ensures code == r.taskCode || (r.taskCode >= 0 && code == r.mapCode)
      || (r.taskCode >= 0 && r.mapCode >= 0 && code == r.unmapCode)
  {
    if r.taskCode < 0 then r.taskCode else if r.mapCode < 0 then r.mapCode else r.unmapCode
  }

  /** Index of the first round with a failed call, or the number of
      rounds when none failed. */
  function FirstMapFailure(rounds: seq<MapRound>): (k: nat)
    ensures k <= |rounds|
    ensures forall j :: 0 <= j < k ==> MapRoundOk(rounds[j])
    ensures k < |rounds| ==> !MapRoundOk(rounds[k])
  {
    if |rounds| == 0 || !MapRoundOk(rounds[0]) then 0 else 1 + FirstMapFailure(rounds[1..])
  }

  /** The timestamps the map loop reads, one pair per round. */
  function MapTimes(rounds: seq<MapRound>): seq<Events.Times>
  {
    seq(|rounds|, i requires 0 <= i < |rounds| => rounds[i].times)
  }

  /** The map loop with PROFILE_READ undefined.  Each iteration enqueues
      the task, maps the buffer with a blocking call that hands back a new
      profiling event, adds the map's duration, and unmaps.  `mapped` counts
      the mappings outstanding when the loop ends, and `refs` holds the
      reference count of every event the maps created, after the single
      `clReleaseEvent` at the end. */
  method ProfileRead(kernel: string, buffer: nat, rounds: seq<MapRound>)
    returns (outcome: Outcome, mapped: nat, refs: seq<nat>, tasks: seq<Launch.Launch>)
    requires |rounds| == Iterations
    requires forall i :: 0 <= i < |rounds| ==> Stamped(rounds[i].times)
    ensures forall j :: 0 <= j < |tasks| ==> tasks[j] == ReadTask(kernel, buffer)
    ensures outcome.Report? ==> |tasks| == Iterations
    ensures outcome.Exit? ==> |tasks| == FirstMapFailure(rounds) + 1
    ensures mapped <= 1
    ensures outcome.Report? <==> forall i :: 0 <= i < |rounds| ==> MapRoundOk(rounds[i])
    ensures outcome.Report? ==>
      outcome.total == Sum(Durations(MapTimes(rounds))) % Word64 && outcome.average == outcome.total / Iterations
    ensures outcome.Report? ==> mapped == 0
    ensures outcome.Report? ==>
      (|refs| == Iterations && refs[Iterations - 1] == 0
       && forall j :: 0 <= j < Iterations - 1 ==> refs[j] == 1)
    ensures outcome.Exit? ==>
      var k := FirstMapFailure(rounds);
      k < |rounds| && outcome.code == MapRoundCode(rounds[k])
      && (mapped == 1 <==> rounds[k].taskCode >= 0 && rounds[k].mapCode >= 0)
      && |refs| == k + mapped && forall j :: 0 <= j < |refs| ==> refs[j] == 1
  {
    var ds := Durations(MapTimes(rounds));
    var total: nat := 0;
    mapped := 0;
    refs := [];
    tasks := [];
    var i := 0;
    while i < |rounds|
      invariant 0 <= i <= |rounds|
      invariant |tasks| == i && forall j :: 0 <= j < i ==> tasks[j] == ReadTask(kernel, buffer)
      invariant forall j :: 0 <= j < i ==> MapRoundOk(rounds[j])
      invariant mapped == 0
      invariant total == Sum(ds[..i]) % Word64
      invariant |refs| == i && forall j :: 0 <= j < i ==> refs[j] == 1
    {
      var r := rounds[i];
      tasks := tasks + [ReadTask(kernel, buffer)];
      if r.taskCode < 0 || r.mapCode < 0 {
        assert FirstMapFailure(rounds) == i;
        outcome := Exit(if r.taskCode < 0 then r.taskCode else r.mapCode);
        return;
      }
      // The map is blocking: its command has completed when the two
      // profiling queries read its timestamps.
      mapped := 1;
      refs := refs + [1];
      Accumulate(ds, i, total);
      total := (total + Duration(r.times)) % Word64;
      if r.unmapCode < 0 {
        assert FirstMapFailure(rounds) == i;
        outcome := Exit(r.unmapCode);
        return;
      }
      mapped := 0;
      i := i + 1;
    }
    assert ds[..|rounds|] == ds;
    refs := refs[|refs| - 1 := 0];
    outcome := Report(total, total / Iterations);
  }

  // ---------------------------------------------------------------------
  // profile_items: timing kernel launches

  /** NUM_INTS, the number of ints in the data buffer. */
  const ItemInts: nat := 4096
  /** NUM_ITEMS, the global size of every launch. */
  const ItemCount: nat := 512

  /** The launch each iteration enqueues: 512 work-items with the local
      size left to the implementation (a NULL local size, written 0), the
      data buffer as argument 0 and the int count as argument 1. */
  function ItemsLaunch(kernel: string, buffer: nat): (l: Launch.Launch)
    ensures Launch.AllBound(l, 2) && l.kernel == kernel
    ensures l.global == ItemCount && l.local == 0
    ensures l.args[0] == Launch.BufferArg(buffer) && l.args[1] == Launch.ScalarArg(ItemInts)
  {
    Launch.Launch(kernel, ItemCount, 0, map[0 := Launch.BufferArg(buffer), 1 := Launch.ScalarArg(ItemInts)])
  }

  /** What one iteration of the launch loop gets back: the code of the
      kernel enqueue and the timestamps of the launched command. */
  datatype LaunchRound = LaunchRound(code: int, times: Events.Times)

  /** Index of the first failed launch, or the number of rounds. */
  function FirstLaunchFailure(rounds: seq<LaunchRound>): (k: nat)
    ensures k <= |rounds|
    ensures forall j :: 0 <= j < k ==> rounds[j].code >= 0
    ensures k < |rounds| ==> rounds[k].code < 0
  {
    if |rounds| == 0 || rounds[0].code < 0 then 0 else 1 + FirstLaunchFailure(rounds[1..])
  }

  /** The timestamps of the launches, one pair per round. */
  function LaunchTimes(rounds: seq<LaunchRound>): seq<Events.Times>
  {
    seq(|rounds|, i requires 0 <= i < |rounds| => rounds[i].times)
  }

  /** The launch loop with the enqueue's code stored in `err` and checked:
      the first failed launch exits with its code; otherwise every launch
      is finished and timed, and only the last event is released. */
  method ProfileItems(kernel: string, buffer: nat, rounds: seq<LaunchRound>)
    returns (outcome: Outcome, refs: seq<nat>, launches: seq<Launch.Launch>)
    requires |rounds| == Iterations
    requires forall i :: 0 <= i < |rounds| ==> Stamped(rounds[i].times)
    ensures forall j :: 0 <= j < |launches| ==> launches[j] == ItemsLaunch(kernel, buffer)
    ensures outcome.Report? ==> |launches| == Iterations
    ensures outcome.Exit? ==> |launches| == FirstLaunchFailure(rounds) + 1
    ensures outcome.Report? <==> forall i :: 0 <= i < |rounds| ==> rounds[i].code >= 0
    ensures outcome.Report? ==>
      outcome.total == Sum(Durations(LaunchTimes(rounds))) % Word64 && outcome.average == outcome.total / Iterations
    ensures outcome.Report? ==>
      (|refs| == Iterations && refs[Iterations - 1] == 0
       && forall j :: 0 <= j < Iterations - 1 ==> refs[j] == 1)
    ensures outcome.Exit? ==>
      var k := FirstLaunchFailure(rounds);
      k < |rounds| && outcome.code == rounds[k].code
      && |refs| == k && forall j :: 0 <= j < k ==> refs[j] == 1
  {
    var ds := Durations(LaunchTimes(rounds));
    var total: nat := 0;
    refs := [];
    launches := [];
    var i := 0;
    while i < |rounds|
      invariant 0 <= i <= |rounds|
      invariant |launches| == i && forall j :: 0 <= j < i ==> launches[j] == ItemsLaunch(kernel, buffer)
      invariant forall j :: 0 <= j < i ==> rounds[j].code >= 0
      invariant total == Sum(ds[..i]) % Word64
      invariant |refs| == i && forall j :: 0 <= j < i ==> refs[j] == 1
    {
      launches := launches + [ItemsLaunch(kernel, buffer)];
      var err := rounds[i].code;
      if err < 0 {
        assert FirstLaunchFailure(rounds) == i;
        outcome := Exit(err);
        return;
      }
      refs := refs + [1];
      // clFinish: the launch has completed when its stamps are read.
      Accumulate(ds, i, total);
      total := (total + Duration(rounds[i].times)) % Word64;
      i := i + 1;
    }
    assert ds[..|rounds|] == ds;
    refs := refs[|refs| - 1 := 0];
    outcome := Report(total, total / Iterations);
  }

  /** The stamps the queries of iteration i read when the enqueue's code is
      dropped: a failed launch creates no event, so `prof_event` still names
      the latest successful launch, and before any launch succeeded the
      never-initialised `time_start` and `time_end` (here `init`) are left
      as they were. */
  function StaleRead(rounds: seq<LaunchRound>, i: nat, init: Events.Times): (t: Events.Times)
    requires i < |rounds|
    ensures rounds[i].code >= 0 ==> t == rounds[i].times
    decreases i
  {
    if rounds[i].code >= 0 then rounds[i].times
    else if i == 0 then init
    else StaleRead(rounds, i - 1, init)
  }

  /** The durations the loop adds as written, one per iteration. */
  function CountedAsWritten(rounds: seq<LaunchRound>, init: Events.Times): (ds: seq<nat>)
    requires Stamped(init) && forall i :: 0 <= i < |rounds| ==> Stamped(rounds[i].times)
    ensures |ds| == |rounds|
    ensures forall i :: 0 <= i < |rounds| ==> Stamped(StaleRead(rounds, i, init))
    ensures forall i :: 0 <= i < |rounds| ==> ds[i] == Duration(StaleRead(rounds, i, init))
  {
    forall i | 0 <= i < |rounds|
      ensures Stamped(StaleRead(rounds, i, init))
    {
      StaleStamped(rounds, i, init);
    }
    seq(|rounds|, i requires 0 <= i < |rounds| => Duration(StaleRead(rounds, i, init)))
  }

  /** The stale stamps are those of some launch, or the initial ones, so
      they fit in a `cl_ulong` too. */
  lemma {:induction false} StaleStamped(rounds: seq<LaunchRound>, i: nat, init: Events.Times)
    requires i < |rounds|
    requires Stamped(init) && forall j :: 0 <= j < |rounds| ==> Stamped(rounds[j].times)
    ensures Stamped(StaleRead(rounds, i, init))
    decreases i
  {
    if rounds[i].code < 0 && i > 0 {
      StaleStamped(rounds, i - 1, init);
    }
  }

  /** Number of successful launches among the rounds. */
  function Successes(rounds: seq<LaunchRound>): (n: nat)
    ensures n <= |rounds|
    ensures n == |rounds| <==> forall i :: 0 <= i < |rounds| ==> rounds[i].code >= 0
  {
    if |rounds| == 0 then 0
    else Successes(rounds[..|rounds| - 1]) + (if rounds[|rounds| - 1].code >= 0 then 1 else 0)
  }

  /** The launch loop as written: the enqueue's result is discarded, and
      the `err < 0` test reads the code of the queue creation, which
      already passed.  No launch failure aborts the loop, and a failed
      launch is timed with the stamps of the event before it. */
  method ProfileItemsAsWritten(kernel: string, buffer: nat, queueCode: int, rounds: seq<LaunchRound>, init: Events.Times)
    returns (outcome: Outcome, refs: seq<nat>, launches: seq<Launch.Launch>)
    requires queueCode >= 0
    requires |rounds| == Iterations
    requires Stamped(init) && forall i :: 0 <= i < |rounds| ==> Stamped(rounds[i].times)
    ensures |launches| == Iterations && forall j :: 0 <= j < Iterations ==> launches[j] == ItemsLaunch(kernel, buffer)
    ensures outcome.Report?
    ensures outcome.total == Sum(CountedAsWritten(rounds, init)) % Word64
    ensures outcome.average == outcome.total / Iterations
    ensures |refs| == Successes(rounds)
    ensures |refs| > 0 ==> refs[|refs| - 1] == 0 && forall j :: 0 <= j < |refs| - 1 ==> refs[j] == 1
  {
    var ds := CountedAsWritten(rounds, init);
    var err := queueCode;
    var total: nat := 0;
    var last := init;
    refs := [];
    launches := [];
    var i := 0;
    while i < |rounds|
      invariant 0 <= i <= |rounds|
      invariant |launches| == i && forall j :: 0 <= j < i ==> launches[j] == ItemsLaunch(kernel, buffer)
      invariant total == Sum(ds[..i]) % Word64
      invariant refs == Ones(Successes(rounds[..i]))
      invariant last == if i == 0 then init else StaleRead(rounds, i - 1, init)
      invariant Stamped(last)
    {
      launches := launches + [ItemsLaunch(kernel, buffer)];
      SuccessesStep(rounds, i);
      StaleStep(rounds, i, init, last);
      refs := if rounds[i].code >= 0 then refs + [1] else refs;
      last := if rounds[i].code >= 0 then rounds[i].times else last;
      // The `err < 0` test after the enqueue reads the queue's code, which
      // is not negative here, so it never exits.
      assert err >= 0;
      total := AddDuration(ds, i, total, last);
      i := i + 1;
    }
    assert ds[..|rounds|] == ds;
    assert rounds[..|rounds|] == rounds;
    if |refs| > 0 {
      refs := refs[|refs| - 1 := 0];
    }
    outcome := Report(total, total / Iterations);
  }

  /** n references still held, one per event. */
  function Ones(n: nat): (s: seq<nat>)
    ensures |s| == n && forall j :: 0 <= j < n ==> s[j] == 1
  {
    seq(n, _ => 1)
  }

  /** `total += time_end - time_start` for the command stamped t, the
      i-th term of the durations ds. */
  function AddDuration(ds: seq<nat>, i: nat, total: nat, t: Events.Times): (r: nat)
    requires i < |ds| && total == Sum(ds[..i]) % Word64 && Stamped(t) && ds[i] == Duration(t)
    ensures r == Sum(ds[..i + 1]) % Word64
  {
    Accumulate(ds, i, total);
    (total + Duration(t)) % Word64
  }

  /** The stamps read in iteration i: those of launch i when it
      succeeded, else the ones read before. */
  lemma StaleStep(rounds: seq<LaunchRound>, i: nat, init: Events.Times, last: Events.Times)
    requires i < |rounds|
    requires last == if i == 0 then init else StaleRead(rounds, i - 1, init)
    ensures StaleRead(rounds, i, init) == if rounds[i].code >= 0 then rounds[i].times else last
  {
  }

  /** Counting the successes of one more round. */
  lemma SuccessesStep(rounds: seq<LaunchRound>, i: nat)
    requires i < |rounds|
    ensures Successes(rounds[..i + 1]) == Successes(rounds[..i]) + (if rounds[i].code >= 0 then 1 else 0)
  {
    assert rounds[..i + 1][..i] == rounds[..i];
  }

  /** A run in which the second launch fails: the loop as written still
      adds a duration for it, that of the first launch, whereas the checked
      loop exits with the launch's code. */
  lemma FailedLaunchStillTimed()
    ensures var t := Events.Times(0, 0, 10, 15);
      var rounds := seq(Iterations, i => if i == 1 then LaunchRound(InvalidWorkGroupSize, t) else LaunchRound(Success, t));
      rounds[1].code < 0
      && CountedAsWritten(rounds, Events.Times(0, 0, 0, 0))[1] == 5
      && FirstLaunchFailure(rounds) == 1
  {
    var t := Events.Times(0, 0, 10, 15);
    var rounds := seq(Iterations, i => if i == 1 then LaunchRound(InvalidWorkGroupSize, t) else LaunchRound(Success, t));
    assert rounds[0].code >= 0 && rounds[1].code < 0;
    assert StaleRead(rounds, 1, Events.Times(0, 0, 0, 0)) == t;
  }
}
