/** The three event programs: a user event gating a kernel and a
    non-blocking read on an out-of-order queue, a user event gating a task
    on an in-order queue, and a read whose completion callback checks the
    data.  Each program's host calls are replayed on the event model; what
    the device does afterwards is an arbitrary run of steps. */
module EventExamples {
  import opened Status
  import opened Events
  import opened Checks

  // ---------------------------------------------------------------------
  // User event, kernel and read on an out-of-order queue

  const UserId: nat := 0
  const TaskId: nat := 1
  const ReadId: nat := 2
  /** The `data` pointer handed to the read callback. */
  const DataPtr: nat := 1
  /** The host array before the read: 0.0, 1.0, 2.0, 3.0. */
  const OldData: seq<int> := [0, 1, 2, 3]

  /** What the host array holds: the buffer contents once the read has
      completed, the initial values before. */
  function HostData(q: Queue, bufferOut: seq<int>): (d: seq<int>)
    requires ReadId < |q.events|
    ensures d == bufferOut || d == OldData
    ensures q.events[ReadId].exec.Done? ==> d == bufferOut
    ensures !q.events[ReadId].exec.Done? ==> d == OldData
  {
    if q.events[ReadId].exec.Done? then bufferOut else OldData
  }

  /** The host calls up to the prompt: a user event, the kernel waiting
      on it, the read waiting on the kernel, and the callback on the read. */
  function UserEventSetup(): (q: Queue)
    ensures Valid(q) && q.outOfOrder && |q.events| == 3
    ensures q.events[UserId] == Event(User, [], Submitted, 1, [])
    ensures q.events[TaskId].kind == Command("user_event") && q.events[TaskId].waits == [UserId]
    ensures q.events[ReadId].kind == Command("read") && q.events[ReadId].waits == [TaskId]
    ensures q.events[TaskId].exec == Queued && q.events[ReadId].exec == Queued
    ensures q.callbacks == [Callback(ReadId, DataPtr)] && q.fired == []
  {
    NewQueueValid(true, false);
    var q1 := CreateUserEvent(NewQueue(true, false)).0;
    var q2 := Enqueue(q1, "user_event", [UserId], true).value.0;
    var q3 := Enqueue(q2, "read", [TaskId], true).value.0;
    SetCallback(q3, ReadId, DataPtr).value
  }

  /** The shape the program's calls give the queue: the user event, the
      kernel waiting on it, the read waiting on the kernel, and one
      callback on the read. */
  predicate Chain(q: Queue)
  {
    |q.events| == 3 && q.events[UserId].kind.User?
    && q.events[TaskId].kind.Command? && q.events[TaskId].waits == [UserId]
    && q.events[ReadId].kind.Command? && q.events[ReadId].waits == [TaskId]
    && q.callbacks == [Callback(ReadId, DataPtr)]
  }

  /** The device's steps keep the shape and leave the user event alone. */
  lemma ChainKept(q: Queue, steps: seq<Step>)
    requires Chain(q)
    ensures Chain(RunAll(q, steps))
    ensures RunAll(q, steps).events[UserId] == q.events[UserId]
  {
    var r := RunAll(q, steps);
    assert r.events[TaskId].kind == q.events[TaskId].kind;
    assert r.events[ReadId].kind == q.events[ReadId].kind;
  }

  /** Before the user event is set, whatever the device does: the kernel
      and the read have not terminated, the callback has not been called,
      and the host array still holds its initial values. */
  lemma BeforeStatus(steps: seq<Step>, bufferOut: seq<int>)
    ensures var q := RunAll(UserEventSetup(), steps);
      q.events[UserId].exec == Submitted
      && !Terminated(q.events[TaskId].exec) && !Terminated(q.events[ReadId].exec)
      && q.fired == [] && HostData(q, bufferOut) == [0, 1, 2, 3]
  {
    var q0 := UserEventSetup();
    ChainKept(q0, steps);
    UnsetBlocksRead(RunAll(q0, steps));
  }

  /** The gating argument on one state: an unset user event keeps the
      kernel, and with it the read and the callback, from completing. */
  lemma UnsetBlocksRead(q: Queue)
    requires Valid(q) && Chain(q) && q.events[UserId].exec == Submitted
    ensures !Terminated(q.events[TaskId].exec) && !Terminated(q.events[ReadId].exec) && q.fired == []
  {
    assert q.events[TaskId].waits[0] == UserId;
    Pending(q, TaskId);
    assert q.events[ReadId].waits[0] == TaskId;
    Pending(q, ReadId);
    NoneFired(q);
  }

  /** Setting the unset user event to `CL_SUCCESS` is accepted and keeps
      the shape. */
  lemma SetStatusOnChain(q: Queue)
    requires Valid(q) && Chain(q) && q.events[UserId].exec == Submitted
    ensures SetUserStatus(q, UserId, Success).Ok?
    ensures var q1 := SetUserStatus(q, UserId, Success).value;
      Valid(q1) && Chain(q1) && q1.events[UserId].exec == Done
  {
  }

  /** The state after the prompt: the device ran `pre`, the host set the
      user event to `CL_SUCCESS`, and the device ran `post`. */
  function AfterStatus(pre: seq<Step>, post: seq<Step>): (q: Queue)
    ensures Valid(q) && Chain(q) && q.events[UserId].exec == Done
  {
    var q0 := RunAll(UserEventSetup(), pre);
    BeforeStatus(pre, []);
    ChainKept(UserEventSetup(), pre);
    SetStatusOnChain(q0);
    var q1 := SetUserStatus(q0, UserId, Success).value;
    ChainKept(q1, post);
    RunAll(q1, post)
  }

  /** After the status is set: the read starts only once the kernel has
      completed and ended; the callback is called only once the read has
      completed, at most once, and then sees the buffer contents. */
  lemma OrderAfterStatus(pre: seq<Step>, post: seq<Step>, bufferOut: seq<int>)
    ensures var q := AfterStatus(pre, post);
      (Started(q.events[ReadId].exec) ==>
        q.events[TaskId].exec.Done? && EndedBeforeStart(q.events[TaskId], q.events[ReadId]))
      && (0 in q.fired ==> q.events[ReadId].exec.Done? && HostData(q, bufferOut) == bufferOut)
      && multiset(q.fired)[0] <= 1
  {
    var q := AfterStatus(pre, post);
    SetChainOrdered(q);
    CalledAtMostOnce(q, [], 0);
  }

  /** The ordering argument on one state: with the user event complete,
      nothing in the chain can fail, and wait lists order the rest. */
  lemma SetChainOrdered(q: Queue)
    requires Valid(q) && Chain(q) && q.events[UserId].exec == Done
    ensures Started(q.events[ReadId].exec) ==>
      q.events[TaskId].exec.Done? && EndedBeforeStart(q.events[TaskId], q.events[ReadId])
    ensures 0 in q.fired ==> q.events[ReadId].exec.Done?
  {
    assert !q.events[TaskId].exec.Failed? by {
      assert q.events[TaskId].waits[0] == UserId;
    }
    assert !q.events[ReadId].exec.Failed? by {
      assert q.events[ReadId].waits[0] == TaskId;
    }
    assert q.events[ReadId].waits[0] == TaskId;
  }

  /** The order of steps that completes the program: the kernel is
      submitted, runs and completes, then the read does, and the callback
      is called. */
  const Completion: seq<Step> :=
    [Step(TaskId, 1), Step(TaskId, 1), Step(TaskId, 1), Step(ReadId, 1), Step(ReadId, 1), Step(ReadId, 1)]

  lemma CompletionRuns()
    ensures var q := AfterStatus([], Completion);
      q.events[TaskId].exec == Done && q.events[ReadId].exec == Done && q.fired == [0]
  {
    var q0 := UserEventSetup();
    SetStatusOnChain(q0);
    var q1 := SetUserStatus(q0, UserId, Success).value;
    assert AfterStatus([], Completion) == RunAll(q1, Completion);
    assert q1.events[TaskId].exec == Queued && q1.events[ReadId].exec == Queued && q1.fired == [];
    ChainCompletes(q1);
  }

  /** From the state right after the status is set, the completion steps
      run the kernel and then the read to completion. */
  lemma ChainCompletes(q1: Queue)
    requires Chain(q1) && q1.events[UserId].exec == Done
    requires q1.events[TaskId].exec == Queued && q1.events[ReadId].exec == Queued && q1.fired == []
    ensures var q := RunAll(q1, Completion);
      q.events[TaskId].exec == Done && q.events[ReadId].exec == Done && q.fired == [0]
  {
    var t, r := Step(TaskId, 1), Step(ReadId, 1);
    var xs, ys := [t, t, t], [r, r, r];
    assert Completion == xs + ys;
    RunAppend(q1, xs, ys);
    KernelPhase(q1);
    ReadPhase(RunAll(q1, xs));
  }

  /** Three kernel steps: the kernel completes, nothing is called yet. */
  lemma KernelPhase(q1: Queue)
    requires Chain(q1) && q1.events[UserId].exec == Done
    requires q1.events[TaskId].exec == Queued && q1.events[ReadId].exec == Queued && q1.fired == []
    ensures var q := RunAll(q1, [Step(TaskId, 1), Step(TaskId, 1), Step(TaskId, 1)]);
      Chain(q) && q.events[TaskId].exec == Done && q.events[ReadId].exec == Queued && q.fired == []
  {
    var t := Step(TaskId, 1);
    TrySubmits(q1, TaskId, 1);
    var q2 := Try(q1, t);
    TryStarts(q2, TaskId, 1);
    var q3 := Try(q2, t);
    TryCompletes(q3, TaskId, 1);
    assert RegisteredOn(q3.callbacks, TaskId) == [] by {
      assert RegisteredOn(q3.callbacks[..0], TaskId) == [];
    }
    RunThree(q1, t, t, t);
  }

  /** Three read steps after the kernel: the read completes and its
      callback is called. */
  lemma ReadPhase(q4: Queue)
    requires Chain(q4) && q4.events[TaskId].exec == Done && q4.events[ReadId].exec == Queued && q4.fired == []
    ensures var q := RunAll(q4, [Step(ReadId, 1), Step(ReadId, 1), Step(ReadId, 1)]);
      q.events[TaskId].exec == Done && q.events[ReadId].exec == Done && q.fired == [0]
  {
    var r := Step(ReadId, 1);
    TrySubmits(q4, ReadId, 1);
    var q5 := Try(q4, r);
    TryStarts(q5, ReadId, 1);
    var q6 := Try(q5, r);
    TryCompletes(q6, ReadId, 1);
    assert RegisteredOn(q6.callbacks, ReadId) == [0] by {
      assert RegisteredOn(q6.callbacks[..0], ReadId) == [];
    }
    RunThree(q4, r, r, r);
  }

  /** Three steps in a row. */
  lemma RunThree(q: Queue, a: Step, b: Step, c: Step)
    ensures RunAll(q, [a, b, c]) == Try(Try(Try(q, a), b), c)
  {
    assert [a, b, c][1..] == [b, c];
    assert [b, c][1..] == [c];
    assert [c][1..] == [];
    var q1 := Try(q, a);
    var q2 := Try(q1, b);
    var q3 := Try(q2, c);
    assert RunAll(q3, []) == q3;
    assert RunAll(q2, [c]) == RunAll(q3, []);
    assert RunAll(q1, [b, c]) == RunAll(q2, [c]);
    assert RunAll(q, [a, b, c]) == RunAll(q1, [b, c]);
  }

  /** A run split in two is the second part run after the first. */
  lemma {:induction false} RunAppend(q: Queue, xs: seq<Step>, ys: seq<Step>)
    ensures RunAll(q, xs + ys) == RunAll(RunAll(q, xs), ys)
    decreases |xs|
  {
    if |xs| > 0 {
      assert (xs + ys)[1..] == xs[1..] + ys;
      RunAppend(Try(q, xs[0]), xs[1..], ys);
    } else {
      assert xs + ys == ys;
    }
  }

  // ---------------------------------------------------------------------
  // User event and task on an in-order queue

  /** The C++ program's calls: a user event, a task whose wait list is
      exactly that event, and a callback on the task's event. */
  function TaskSetup(): (q: Queue)
    ensures Valid(q) && !q.outOfOrder && |q.events| == 2
    ensures q.events[UserId] == Event(User, [], Submitted, 1, [])
    ensures q.events[TaskId].kind == Command("blank") && q.events[TaskId].waits == [UserId]
    ensures q.events[TaskId].exec == Queued
    ensures q.callbacks == [Callback(TaskId, 0)] && q.fired == []
  {
    NewQueueValid(false, false);
    var q1 := CreateUserEvent(NewQueue(false, false)).0;
    var q2 := Enqueue(q1, "blank", [UserId], true).value.0;
    SetCallback(q2, TaskId, 0).value
  }

  /** Without `setStatus` the task never completes and the message is
      never printed, whatever the device does. */
  lemma NeverWithoutStatus(steps: seq<Step>)
    ensures var q := RunAll(TaskSetup(), steps);
      !Terminated(q.events[TaskId].exec) && q.fired == []
  {
    var q0 := TaskSetup();
    var q := RunAll(q0, steps);
    assert q.events[UserId] == q0.events[UserId];
    UnsetBlocksTask(q);
  }

  lemma UnsetBlocksTask(q: Queue)
    requires Valid(q) && |q.events| == 2 && q.events[UserId].exec == Submitted
    requires q.events[TaskId].kind.Command? && q.events[TaskId].waits == [UserId]
    requires q.callbacks == [Callback(TaskId, 0)]
    ensures !Terminated(q.events[TaskId].exec) && q.fired == []
  {
    assert q.events[TaskId].waits[0] == UserId;
    Pending(q, TaskId);
    NoneFired(q);
  }

  /** With `setStatus(CL_COMPLETE)` the task can run to completion, and
      the message is then printed exactly once. */
  lemma WithStatusCompletes()
    ensures var q1 := SetUserStatus(TaskSetup(), UserId, Complete);
      q1.Ok? && RunAll(q1.value, [Step(TaskId, 1), Step(TaskId, 1), Step(TaskId, 1)]).fired == [0]
  {
    var q1 := SetUserStatus(TaskSetup(), UserId, Complete).value;
    TaskCompletes(q1);
  }

  /** From the state right after `setStatus`, three steps run the task to
      completion and call the callback. */
  lemma TaskCompletes(q1: Queue)
    requires |q1.events| == 2 && q1.events[UserId].kind.User? && q1.events[UserId].exec == Done
    requires q1.events[TaskId].kind.Command? && q1.events[TaskId].waits == [UserId]
    requires q1.events[TaskId].exec == Queued
    requires q1.callbacks == [Callback(TaskId, 0)] && q1.fired == []
    ensures RunAll(q1, [Step(TaskId, 1), Step(TaskId, 1), Step(TaskId, 1)]).fired == [0]
  {
    var st := Step(TaskId, 1);
    TrySubmits(q1, TaskId, 1);
    var q2 := Try(q1, st);
    TryStarts(q2, TaskId, 1);
    var q3 := Try(q2, st);
    TryCompletes(q3, TaskId, 1);
    assert RegisteredOn(q3.callbacks, TaskId) == [0] by {
      assert RegisteredOn(q3.callbacks[..0], TaskId) == [];
    }
    RunThree(q1, st, st, st);
  }

  // ---------------------------------------------------------------------
  // Completion callback that checks the data

  /** Number of ints in the program's array, initialised to 0..99. */
  const DataCount: nat := 100

  /** A task without an event, then a non-blocking read whose event
      carries the callback with `data` as its user pointer, on an in-order
      queue. */
  function CallbackSetup(): (q: Queue)
    ensures Valid(q) && !q.outOfOrder && |q.events| == 2
    ensures q.events[0].kind == Command("blank") && q.events[0].waits == [] && q.events[0].refs == 0
    ensures q.events[1].kind == Command("read") && q.events[1].waits == [] && q.events[1].refs == 1
    ensures q.callbacks == [Callback(1, DataPtr)] && q.fired == []
  {
    NewQueueValid(false, false);
    var q1 := Enqueue(NewQueue(false, false), "blank", [], false).value.0;
    var q2 := Enqueue(q1, "read", [], true).value.0;
    SetCallback(q2, 1, DataPtr).value
  }

  /** The array the callback reads: the buffer contents once the read has
      completed, the initial 0..99 before. */
  function ArrayData(q: Queue, bufferOut: seq<int>): (d: seq<int>)
    requires 1 < |q.events|
    ensures q.events[1].exec.Done? ==> d == bufferOut
    ensures !q.events[1].exec.Done? ==> d == Range(DataCount)
  {
    if q.events[1].exec.Done? then bufferOut else Range(DataCount)
  }

  /** Whenever the callback has been called, the task and then the read
      have completed, in that order, so the callback's check sees what the
      kernel left in the buffer. */
  lemma CallbackSeesKernelOutput(steps: seq<Step>, bufferOut: seq<int>)
    ensures var q := RunAll(CallbackSetup(), steps);
      0 in q.fired ==>
        q.events[0].exec.Done? && q.events[1].exec.Done?
        && EndedBeforeStart(q.events[0], q.events[1])
        && ArrayData(q, bufferOut) == bufferOut
  {
    var q0 := CallbackSetup();
    var q := RunAll(q0, steps);
    InOrderReadAfterTask(q);
  }

  /** The ordering argument on one state: neither command can fail, and
      the in-order queue starts the read only after the task. */
  lemma InOrderReadAfterTask(q: Queue)
    requires Valid(q) && !q.outOfOrder && |q.events| == 2
    requires q.events[0].kind.Command? && q.events[0].waits == []
    requires q.events[1].kind.Command? && q.events[1].waits == []
    requires q.callbacks == [Callback(1, DataPtr)]
    ensures 0 in q.fired ==> q.events[1].exec.Done?
    ensures Started(q.events[1].exec) ==>
      q.events[0].exec.Done? && EndedBeforeStart(q.events[0], q.events[1])
  {
    assert !q.events[0].exec.Failed? && !q.events[1].exec.Failed?;
  }

  /** The program from the callback's point of view: if it has been
      called after the device ran `steps`, `checkData` reports the data
      accurate exactly when the kernel doubled every element. */
  method CallbackCheck(steps: seq<Step>, bufferOut: seq<int>) returns (called: bool, accurate: bool)
    requires |bufferOut| == DataCount
    ensures called <==> 0 in RunAll(CallbackSetup(), steps).fired
    ensures called ==> (accurate <==> forall i :: 0 <= i < DataCount ==> bufferOut[i] == 2 * i)
    ensures !called ==> !accurate
  {
    var q := RunAll(CallbackSetup(), steps);
    called := 0 in q.fired;
    accurate := false;
    if called {
      CallbackSeesKernelOutput(steps, bufferOut);
      var stop;
      accurate, stop := CheckData(ArrayData(q, bufferOut));
    }
  }
}
