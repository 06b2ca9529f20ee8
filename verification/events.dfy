/** Events, user events, wait lists and completion callbacks on one
    command queue (sections 5.9 and 5.10 of the OpenCL 1.1 specification),
    as a sequential state machine.  The host's API calls are functions
    from state to state; the device's progress is a separate step,
    `Advance`, that moves one command one stage further when its wait list
    and, on an in-order queue, the commands before it allow.  Callback
    threads and real timing are left out: a callback "fires" when its
    index is appended to the log of fired callbacks, and the device clock
    advances by an arbitrary amount on each step. */
module Events {
  import opened Status

  /** Execution status of an event (`CL_QUEUED` .. `CL_COMPLETE`, or a
      negative code). */
  datatype Exec = Queued | Submitted | Running | Done | Failed(code: int)

  /** A user event, or a command enqueued on the queue. */
  datatype Kind = User | Command(name: string)

  /** One event: what it stands for, the events it waits on, its status,
      the application's reference count, and the device-clock stamps
      recorded at each stage (queued, submitted, started, ended). */
  datatype Event = Event(kind: Kind, waits: seq<nat>, exec: Exec, refs: nat, stamps: seq<nat>)

  /** A `CL_COMPLETE` callback registered on an event, with the user data
      pointer it receives. */
  datatype Callback = Callback(event: nat, userData: nat)

  /** The queue and the events of its context.  `fired` lists the
      callbacks called so far, by index into `callbacks`, in call order. */
  datatype Queue = Queue(outOfOrder: bool, profiling: bool, events: seq<Event>,
                         callbacks: seq<Callback>, fired: seq<nat>, now: nat)

  /** A new queue with no events. */
  function NewQueue(outOfOrder: bool, profiling: bool): (q: Queue)
    ensures q.events == [] && q.callbacks == [] && q.fired == []
    ensures q.outOfOrder == outOfOrder && q.profiling == profiling
  {
    Queue(outOfOrder, profiling, [], [], [], 0)
  }

  predicate Terminated(x: Exec)
  {
    x.Done? || x.Failed?
  }

  /** How far a command has come: 0 queued .. 3 complete. */
  function Stage(x: Exec): nat
  {
    match x
    case Queued => 0
    case Submitted => 1
    case Running => 2
    case Done => 3
    case Failed(_) => 3
  }

  /** Started or finished successfully. */
  predicate Started(x: Exec)
  {
    x.Running? || x.Done?
  }

  predicate NoDup(s: seq<nat>)
  {
    forall i, j :: 0 <= i < j < |s| ==> s[i] != s[j]
  }

  predicate Ascending(s: seq<nat>)
  {
    forall i, j :: 0 <= i <= j < |s| ==> s[i] <= s[j]
  }

  // ---------------------------------------------------------------------
  // The invariant

  /** Wait lists refer to events created earlier. */
  predicate WaitsEarlier(q: Queue)
  {
    forall e, k :: 0 <= e < |q.events| && 0 <= k < |q.events[e].waits| ==> q.events[e].waits[k] < e
  }

  /** User events are never queued or running and carry no stamps; a
      command has one stamp per stage reached, in clock order, none in the
      future. */
  predicate StampsWellFormed(q: Queue)
  {
    forall e :: 0 <= e < |q.events| ==>
      var ev := q.events[e];
      (ev.kind.User? ==> !ev.exec.Queued? && !ev.exec.Running? && ev.stamps == [])
      && (ev.kind.Command? ==>
            1 <= |ev.stamps| <= 4 && Ascending(ev.stamps) && ev.stamps[|ev.stamps| - 1] <= q.now
            && (!ev.exec.Failed? ==> |ev.stamps| == Stage(ev.exec) + 1))
  }

  /** The end stamp of a command that completed. */
  function EndStamp(ev: Event): nat
    requires |ev.stamps| == 4
  {
    ev.stamps[3]
  }

  /** Command a ended at or before command b started. */
  predicate EndedBeforeStart(a: Event, b: Event)
  {
    |a.stamps| == 4 && |b.stamps| >= 3 && EndStamp(a) <= b.stamps[2]
  }

  /** A command that has started had every event of its wait list
      complete, and every command among them had ended before it started. */
  predicate WaitsHonoured(q: Queue)
    requires StampsWellFormed(q)
  {
    forall e, k :: (0 <= e < |q.events| && 0 <= k < |q.events[e].waits|
      && q.events[e].kind.Command? && Started(q.events[e].exec) && q.events[e].waits[k] < |q.events|) ==>
        var w := q.events[q.events[e].waits[k]];
        w.exec.Done? && (w.kind.Command? ==> EndStamp(w) <= q.events[e].stamps[2])
  }

  /** On an in-order queue a command starts only after every earlier
      command has terminated, and after the earlier ones that completed
      have ended. */
  predicate InOrderHonoured(q: Queue)
    requires StampsWellFormed(q)
  {
    !q.outOfOrder ==>
      forall d, e :: (0 <= d < e < |q.events| && q.events[d].kind.Command? && q.events[e].kind.Command?
        && Started(q.events[e].exec)) ==>
          Terminated(q.events[d].exec) && (q.events[d].exec.Done? ==> EndStamp(q.events[d]) <= q.events[e].stamps[2])
  }

  /** A callback has been called exactly when its event has terminated,
      and never twice. */
  predicate CallbacksHonoured(q: Queue)
  {
    (forall c :: 0 <= c < |q.callbacks| ==> q.callbacks[c].event < |q.events|)
    && (forall i :: 0 <= i < |q.fired| ==> q.fired[i] < |q.callbacks|)
    && NoDup(q.fired)
    && (forall c :: 0 <= c < |q.callbacks| ==> (c in q.fired <==> Terminated(q.events[q.callbacks[c].event].exec)))
  }

  /** A command fails only because an event it waited on failed. */
  predicate FailuresExplained(q: Queue)
  {
    forall e :: 0 <= e < |q.events| && q.events[e].kind.Command? && q.events[e].exec.Failed? ==>
      exists k :: 0 <= k < |q.events[e].waits| && q.events[e].waits[k] < |q.events|
        && q.events[q.events[e].waits[k]].exec.Failed?
  }

  predicate Valid(q: Queue)
  {
    WaitsEarlier(q) && StampsWellFormed(q) && WaitsHonoured(q) && InOrderHonoured(q) && CallbacksHonoured(q)
    && FailuresExplained(q)
  }

  lemma NewQueueValid(outOfOrder: bool, profiling: bool)
    ensures Valid(NewQueue(outOfOrder, profiling))
  {
  }

  // ---------------------------------------------------------------------
  // Callbacks

  /** The callbacks registered on event e, in registration order. */
  function RegisteredOn(cbs: seq<Callback>, e: nat): (r: seq<nat>)
    ensures forall c :: c in r <==> 0 <= c < |cbs| && cbs[c].event == e
    ensures forall i :: 0 <= i < |r| ==> r[i] < |cbs|
    ensures forall i, j :: 0 <= i < j < |r| ==> r[i] < r[j]
  {
    if |cbs| == 0 then []
    else
      var prefix := RegisteredOn(cbs[..|cbs| - 1], e);
      prefix + (if cbs[|cbs| - 1].event == e then [|cbs| - 1] else [])
  }

  /** Event e has just terminated: every callback registered on it is
      called, in registration order. */
  function Fire(q: Queue, e: nat): (r: Queue)
    ensures r == q.(fired := q.fired + RegisteredOn(q.callbacks, e))
  {
    q.(fired := q.fired + RegisteredOn(q.callbacks, e))
  }

  /** Terminating an event that had not terminated and firing its
      callbacks keeps the callback log exact and free of repeats. */
  lemma FireHonours(q: Queue, e: nat, ev: Event)
    requires CallbacksHonoured(q) && e < |q.events|
    requires !Terminated(q.events[e].exec) && Terminated(ev.exec)
    ensures CallbacksHonoured(Fire(q.(events := q.events[e := ev]), e))
  {
    var q' := Fire(q.(events := q.events[e := ev]), e);
    var added := RegisteredOn(q.callbacks, e);
    assert forall c :: c in added ==> c !in q.fired;
    forall i, j | 0 <= i < j < |q'.fired|
      ensures q'.fired[i] != q'.fired[j]
    {
      if i < |q.fired| <= j {
        assert q'.fired[i] in q.fired;
        assert q'.fired[j] in added;
      }
    }
  }

  // ---------------------------------------------------------------------
  // Host calls

  /** `clCreateUserEvent`: a new event in state `CL_SUBMITTED`. */
  function CreateUserEvent(q: Queue): (r: (Queue, nat))
    ensures r.1 == |q.events| && r.0.events == q.events + [Event(User, [], Submitted, 1, [])]
    ensures r.0.callbacks == q.callbacks && r.0.fired == q.fired && r.0.outOfOrder == q.outOfOrder
    ensures r.0.profiling == q.profiling && r.0.now == q.now
    ensures Valid(q) ==> Valid(r.0)
  {
    (q.(events := q.events + [Event(User, [], Submitted, 1, [])]), |q.events|)
  }

  /** Enqueueing a command with a wait list: every event in the list must
      exist.  The command is queued now; the application holds a
      reference to its event only when it asked for one. */
  function Enqueue(q: Queue, name: string, waits: seq<nat>, returnsEvent: bool): (r: Result<(Queue, nat)>)
    ensures r.Fail? <==> exists k :: 0 <= k < |waits| && waits[k] >= |q.events|
    ensures r.Fail? ==> r.code == InvalidEventWaitList
    ensures r.Ok? ==> (r.value.1 == |q.events|
      && r.value.0 == q.(events := q.events + [Event(Command(name), waits, Queued, if returnsEvent then 1 else 0, [q.now])]))
    ensures r.Ok? && Valid(q) ==> Valid(r.value.0)
  {
    if exists k :: 0 <= k < |waits| && waits[k] >= |q.events| then Fail(InvalidEventWaitList)
    else
      var ev := Event(Command(name), waits, Queued, if returnsEvent then 1 else 0, [q.now]);
      var q' := q.(events := q.events + [ev]);
      EnqueueValid(q, ev);
      Ok((q', |q.events|))
  }

  lemma EnqueueValid(q: Queue, ev: Event)
    requires ev.kind.Command? && ev.exec == Queued && ev.stamps == [q.now]
    requires forall k :: 0 <= k < |ev.waits| ==> ev.waits[k] < |q.events|
    ensures Valid(q) ==> Valid(q.(events := q.events + [ev]))
  {
    if Valid(q) {
      var q' := q.(events := q.events + [ev]);
      EnqueueStamps(q, ev);
      EnqueueWaits(q, ev);
      EnqueueCallbacks(q, ev);
      EnqueueFailures(q, ev);
    }
  }

  lemma EnqueueStamps(q: Queue, ev: Event)
    requires ev.kind.Command? && ev.exec == Queued && ev.stamps == [q.now]
    requires StampsWellFormed(q)
    ensures StampsWellFormed(q.(events := q.events + [ev]))
  {
    var q' := q.(events := q.events + [ev]);
    assert forall e :: 0 <= e < |q.events| ==> q'.events[e] == q.events[e];
  }

  lemma EnqueueWaits(q: Queue, ev: Event)
    requires ev.kind.Command? && ev.exec == Queued && ev.stamps == [q.now]
    requires forall k :: 0 <= k < |ev.waits| ==> ev.waits[k] < |q.events|
    requires WaitsEarlier(q) && StampsWellFormed(q) && WaitsHonoured(q) && InOrderHonoured(q)
    requires StampsWellFormed(q.(events := q.events + [ev]))
    ensures WaitsEarlier(q.(events := q.events + [ev]))
    ensures WaitsHonoured(q.(events := q.events + [ev]))
    ensures InOrderHonoured(q.(events := q.events + [ev]))
  {
    var q' := q.(events := q.events + [ev]);
    assert forall e :: 0 <= e < |q.events| ==> q'.events[e] == q.events[e];
  }

  lemma EnqueueCallbacks(q: Queue, ev: Event)
    requires CallbacksHonoured(q)
    ensures CallbacksHonoured(q.(events := q.events + [ev]))
  {
    var q' := q.(events := q.events + [ev]);
    forall c | 0 <= c < |q'.callbacks|
      ensures c in q'.fired <==> Terminated(q'.events[q'.callbacks[c].event].exec)
    {
      assert q'.events[q.callbacks[c].event] == q.events[q.callbacks[c].event];
    }
  }

  lemma EnqueueFailures(q: Queue, ev: Event)
    requires ev.kind.Command? && ev.exec == Queued
    requires FailuresExplained(q)
    ensures FailuresExplained(q.(events := q.events + [ev]))
  {
    var q' := q.(events := q.events + [ev]);
    forall e | 0 <= e < |q'.events| && q'.events[e].kind.Command? && q'.events[e].exec.Failed?
      ensures exists k :: (0 <= k < |q'.events[e].waits| && q'.events[e].waits[k] < |q'.events|
        && q'.events[q'.events[e].waits[k]].exec.Failed?)
    {
      assert q'.events[e] == q.events[e];
      var k :| 0 <= k < |q.events[e].waits| && q.events[e].waits[k] < |q.events|
        && q.events[q.events[e].waits[k]].exec.Failed?;
      assert q'.events[q'.events[e].waits[k]] == q.events[q.events[e].waits[k]];
    }
  }

  /** `clSetUserEventStatus`: only once, only on a user event, and only to
      `CL_COMPLETE` or a negative code.  Callbacks on the event fire. */
  function SetUserStatus(q: Queue, e: nat, status: int): (r: Result<Queue>)
    ensures e >= |q.events| || !q.events[e].kind.User? ==> r == Fail(InvalidEvent)
    ensures r.Ok? <==> e < |q.events| && q.events[e].kind.User? && status <= 0 && q.events[e].exec.Submitted?
    ensures r.Ok? ==> r.value.events == q.events[e := q.events[e].(exec := if status == Complete then Done else Failed(status))]
    ensures r.Ok? ==> r.value.fired == q.fired + RegisteredOn(q.callbacks, e)
    ensures r.Ok? ==> r.value.callbacks == q.callbacks && r.value.now == q.now && r.value.outOfOrder == q.outOfOrder
    ensures r.Ok? && Valid(q) ==> Valid(r.value)
  {
    if e >= |q.events| || !q.events[e].kind.User? then Fail(InvalidEvent)
    else if status > 0 then Fail(InvalidValue)
    else if !q.events[e].exec.Submitted? then Fail(InvalidOperation)
    else
      var ev := q.events[e].(exec := if status == Complete then Done else Failed(status));
      var r := Fire(q.(events := q.events[e := ev]), e);
      SetUserStatusValid(q, e, ev);
      Ok(r)
  }

  lemma SetUserStatusValid(q: Queue, e: nat, ev: Event)
    requires e < |q.events| && q.events[e].kind.User? && q.events[e].exec.Submitted?
    requires ev == q.events[e].(exec := ev.exec) && Terminated(ev.exec)
    ensures Valid(q) ==> Valid(Fire(q.(events := q.events[e := ev]), e))
  {
    if Valid(q) {
      FireHonours(q, e, ev);
    }
  }

  /** `clSetEventCallback` for `CL_COMPLETE`: on an event that has already
      terminated the callback is called at once. */
  function SetCallback(q: Queue, e: nat, userData: nat): (r: Result<Queue>)
    ensures r.Fail? <==> e >= |q.events|
    ensures r.Fail? ==> r.code == InvalidEvent
    ensures r.Ok? ==> r.value.events == q.events && r.value.callbacks == q.callbacks + [Callback(e, userData)]
    ensures r.Ok? ==> r.value.fired == q.fired + (if Terminated(q.events[e].exec) then [|q.callbacks|] else [])
    ensures r.Ok? && Valid(q) ==> Valid(r.value)
  {
    if e >= |q.events| then Fail(InvalidEvent)
    else
      var q' := q.(callbacks := q.callbacks + [Callback(e, userData)],
                   fired := q.fired + (if Terminated(q.events[e].exec) then [|q.callbacks|] else []));
      SetCallbackValid(q, q', e);
      Ok(q')
  }

  lemma SetCallbackValid(q: Queue, q': Queue, e: nat)
    requires e < |q.events|
    requires q' == q.(callbacks := q'.callbacks, fired := q'.fired)
    requires |q'.callbacks| == |q.callbacks| + 1 && q'.callbacks[..|q.callbacks|] == q.callbacks
    requires q'.callbacks[|q.callbacks|].event == e
    requires q'.fired == q.fired + (if Terminated(q.events[e].exec) then [|q.callbacks|] else [])
    ensures Valid(q) ==> Valid(q')
  {
    if Valid(q) {
      SameEvents(q, q');
      SetCallbackHonours(q, q', e);
    }
  }

  lemma SetCallbackHonours(q: Queue, q': Queue, e: nat)
    requires e < |q.events| && CallbacksHonoured(q) && q'.events == q.events
    requires |q'.callbacks| == |q.callbacks| + 1 && q'.callbacks[..|q.callbacks|] == q.callbacks
    requires q'.callbacks[|q.callbacks|].event == e
    requires q'.fired == q.fired + (if Terminated(q.events[e].exec) then [|q.callbacks|] else [])
    ensures CallbacksHonoured(q')
  {
    var n := |q.callbacks|;
    assert forall c :: 0 <= c < n ==> q'.callbacks[c] == q.callbacks[c];
    assert n !in q.fired;
    assert NoDup(q'.fired) by {
      forall i, j | 0 <= i < j < |q'.fired|
        ensures q'.fired[i] != q'.fired[j]
      {
        if j >= |q.fired| {
          assert q'.fired[i] in q.fired;
        }
      }
    }
    forall c | 0 <= c < |q'.callbacks|
      ensures c in q'.fired <==> Terminated(q'.events[q'.callbacks[c].event].exec)
    {
      if c < n {
        assert c in q'.fired <==> c in q.fired;
      }
    }
  }

  /** The invariant's event part depends only on the events, the clock
      and the queue's mode. */
  lemma SameEvents(q: Queue, q': Queue)
    requires q'.events == q.events && q'.now == q.now && q'.outOfOrder == q.outOfOrder
    ensures WaitsEarlier(q) == WaitsEarlier(q') && StampsWellFormed(q) == StampsWellFormed(q')
    ensures FailuresExplained(q) == FailuresExplained(q')
    ensures StampsWellFormed(q) ==> WaitsHonoured(q) == WaitsHonoured(q') && InOrderHonoured(q) == InOrderHonoured(q')
  {
  }

  /** `clReleaseEvent`: drops one application reference.  The event and
      the command behind it go on as before. */
  function Release(q: Queue, e: nat): (r: Result<Queue>)
    ensures r.Fail? <==> e >= |q.events| || q.events[e].refs == 0
    ensures r.Fail? ==> r.code == InvalidEvent
    ensures r.Ok? ==> |r.value.events| == |q.events| && r.value.events[e].refs == q.events[e].refs - 1
    ensures r.Ok? ==> forall i :: 0 <= i < |q.events| ==>
      r.value.events[i] == q.events[i].(refs := r.value.events[i].refs)
    ensures r.Ok? ==> forall i :: 0 <= i < |q.events| && i != e ==> r.value.events[i] == q.events[i]
    ensures r.Ok? ==> r.value.callbacks == q.callbacks && r.value.fired == q.fired && r.value.now == q.now
    ensures r.Ok? && Valid(q) ==> Valid(r.value)
  {
    if e >= |q.events| || q.events[e].refs == 0 then Fail(InvalidEvent)
    else Ok(q.(events := q.events[e := q.events[e].(refs := q.events[e].refs - 1)]))
  }

  // ---------------------------------------------------------------------
  // Profiling

  datatype Times = Times(queued: nat, submitted: nat, started: nat, ended: nat)

  /** `clGetEventProfilingInfo`: available for a command that completed
      on a queue created with profiling enabled. */
  function Profile(q: Queue, e: nat): (r: Result<Times>)
    requires Valid(q)
    ensures e >= |q.events| ==> r == Fail(InvalidEvent)
    ensures r.Ok? <==> e < |q.events| && q.profiling && q.events[e].kind.Command? && q.events[e].exec.Done?
    ensures r.Fail? && e < |q.events| ==> r.code == ProfilingInfoNotAvailable
    ensures r.Ok? ==> r.value.queued <= r.value.submitted <= r.value.started <= r.value.ended <= q.now
    ensures r.Ok? ==> r.value.queued == q.events[e].stamps[0] && r.value.ended == EndStamp(q.events[e])
  {
    if e >= |q.events| then Fail(InvalidEvent)
    else if !q.profiling || !q.events[e].kind.Command? || !q.events[e].exec.Done? then Fail(ProfilingInfoNotAvailable)
    else
      var st := q.events[e].stamps;
      assert |st| == 4;
      Ok(Times(st[0], st[1], st[2], st[3]))
  }

  // ---------------------------------------------------------------------
  // Device progress

  /** Every event e waits on has terminated. */
  predicate WaitsSettled(q: Queue, e: nat)
    requires e < |q.events|
  {
    forall k :: 0 <= k < |q.events[e].waits| ==>
      q.events[e].waits[k] < |q.events| && Terminated(q.events[q.events[e].waits[k]].exec)
  }

  /** Every event e waits on has completed successfully. */
  predicate WaitsDone(q: Queue, e: nat)
    requires e < |q.events|
  {
    forall k :: 0 <= k < |q.events[e].waits| ==>
      q.events[e].waits[k] < |q.events| && q.events[q.events[e].waits[k]].exec.Done?
  }

  /** On an in-order queue, every earlier command has terminated. */
  predicate EarlierSettled(q: Queue, e: nat)
    requires e < |q.events|
  {
    q.outOfOrder || forall d :: 0 <= d < e && q.events[d].kind.Command? ==> Terminated(q.events[d].exec)
  }

  /** The device may move command e on: it has not terminated, and if it
      is about to start, its wait list and the queue order allow it. */
  predicate Enabled(q: Queue, e: nat)
  {
    e < |q.events| && q.events[e].kind.Command? && !Terminated(q.events[e].exec)
    && (q.events[e].exec.Submitted? ==> WaitsSettled(q, e) && EarlierSettled(q, e))
  }

  /** Command e one stage further at time t.  A command whose wait list
      holds a failed event does not run: it terminates with
      `CL_EXEC_STATUS_ERROR_FOR_EVENTS_IN_WAIT_LIST`. */
  function Moved(q: Queue, e: nat, t: nat): Event
    requires e < |q.events|
  {
    var ev := q.events[e];
    match ev.exec
    case Queued => ev.(exec := Submitted, stamps := ev.stamps + [t])
    case Submitted =>
      if WaitsDone(q, e) then ev.(exec := Running, stamps := ev.stamps + [t])
      else ev.(exec := Failed(ExecStatusErrorForEventsInWaitList))
    case Running => ev.(exec := Done, stamps := ev.stamps + [t])
    case _ => ev
  }

  /** The state after the step; callbacks fire when e terminates. */
  function Next(q: Queue, e: nat, dt: nat): Queue
    requires e < |q.events|
  {
    var ev := Moved(q, e, q.now + dt);
    var q1 := q.(events := q.events[e := ev], now := q.now + dt);
    if Terminated(ev.exec) then Fire(q1, e) else q1
  }

  /** One device step: the clock moves on by dt and command e moves one
      stage.  A step the device cannot take is refused. */
  function Advance(q: Queue, e: nat, dt: nat): (r: Result<Queue>)
    ensures r.Fail? <==> !Enabled(q, e)
    ensures r.Fail? ==> r.code == InvalidOperation
    ensures r.Ok? ==> (|r.value.events| == |q.events| && r.value.now == q.now + dt
      && r.value.callbacks == q.callbacks && r.value.outOfOrder == q.outOfOrder && r.value.profiling == q.profiling)
    ensures r.Ok? ==> Stage(r.value.events[e].exec) > Stage(q.events[e].exec)
    ensures r.Ok? ==> (r.value.events[e].kind == q.events[e].kind && r.value.events[e].waits == q.events[e].waits
      && r.value.events[e].refs == q.events[e].refs)
    ensures r.Ok? ==> r.value.events[e] == Moved(q, e, q.now + dt)
    ensures r.Ok? ==> forall d :: 0 <= d < |q.events| && d != e ==> r.value.events[d] == q.events[d]
    ensures r.Ok? && q.events[e].exec.Submitted? ==>
      (r.value.events[e].exec.Running? <==> WaitsDone(q, e))
    ensures r.Ok? ==> (r.value.fired ==
      q.fired + (if Terminated(r.value.events[e].exec) then RegisteredOn(q.callbacks, e) else []))
    ensures r.Ok? && Valid(q) ==> Valid(r.value)
  {
    if !Enabled(q, e) then Fail(InvalidOperation)
    else
      AdvanceValid(q, e, dt);
      Ok(Next(q, e, dt))
  }

  lemma AdvanceValid(q: Queue, e: nat, dt: nat)
    requires Enabled(q, e)
    ensures Valid(q) ==> Valid(Next(q, e, dt))
  {
    if Valid(q) {
      NextStamps(q, e, dt);
      NextWaits(q, e, dt);
      NextOrder(q, e, dt);
      NextFailures(q, e, dt);
      NextCallbacks(q, e, dt);
    }
  }

  /** What the step changes: event e, the clock, and the callback log. */
  lemma NextShape(q: Queue, e: nat, dt: nat)
    requires e < |q.events|
    ensures Next(q, e, dt).events == q.events[e := Moved(q, e, q.now + dt)]
    ensures Next(q, e, dt).now == q.now + dt && Next(q, e, dt).outOfOrder == q.outOfOrder
    ensures Next(q, e, dt).callbacks == q.callbacks
  {
  }

  lemma NextCallbacks(q: Queue, e: nat, dt: nat)
    requires Enabled(q, e) && CallbacksHonoured(q)
    ensures CallbacksHonoured(Next(q, e, dt))
  {
    var t := q.now + dt;
    var ev := Moved(q, e, t);
    var q1 := q.(events := q.events[e := ev], now := t);
    if Terminated(ev.exec) {
      FireHonours(q.(now := t), e, ev);
      assert q.(now := t).(events := q.events[e := ev]) == q1;
      assert Next(q, e, dt) == Fire(q1, e);
    } else {
      StillRunningHonours(q, e, ev, t);
      assert Next(q, e, dt) == q1;
    }
  }

  /** A step that does not terminate its command calls no callback. */
  lemma StillRunningHonours(q: Queue, e: nat, ev: Event, t: nat)
    requires e < |q.events| && CallbacksHonoured(q)
    requires !Terminated(q.events[e].exec) && !Terminated(ev.exec)
    ensures CallbacksHonoured(q.(events := q.events[e := ev], now := t))
  {
    var q1 := q.(events := q.events[e := ev], now := t);
    forall c | 0 <= c < |q.callbacks|
      ensures c in q1.fired <==> Terminated(q1.events[q1.callbacks[c].event].exec)
    {
      var x := q.callbacks[c].event;
      assert Terminated(q1.events[x].exec) == Terminated(q.events[x].exec);
    }
  }

  /** The stamps of the command that moved: one more, at time t, when it
      reached a new stage normally. */
  lemma MovedStamps(q: Queue, e: nat, t: nat)
    requires Enabled(q, e) && Valid(q) && t >= q.now
    ensures var ev := Moved(q, e, t);
      1 <= |ev.stamps| <= 4 && Ascending(ev.stamps) && ev.stamps[|ev.stamps| - 1] <= t
      && (!ev.exec.Failed? ==> |ev.stamps| == Stage(ev.exec) + 1)
  {
    var old_ := q.events[e].stamps;
    assert old_[|old_| - 1] <= q.now;
    assert forall i :: 0 <= i < |old_| ==> old_[i] <= old_[|old_| - 1];
  }

  lemma NextStamps(q: Queue, e: nat, dt: nat)
    requires Enabled(q, e) && Valid(q)
    ensures StampsWellFormed(Next(q, e, dt))
  {
    NextShape(q, e, dt);
    MovedStamps(q, e, q.now + dt);
  }

  lemma NextWaits(q: Queue, e: nat, dt: nat)
    requires Enabled(q, e) && Valid(q)
    requires StampsWellFormed(Next(q, e, dt))
    ensures WaitsHonoured(Next(q, e, dt))
  {
    NextShape(q, e, dt);
    var q' := Next(q, e, dt);
    forall f, k | (0 <= f < |q'.events| && 0 <= k < |q'.events[f].waits|
      && q'.events[f].kind.Command? && Started(q'.events[f].exec) && q'.events[f].waits[k] < |q'.events|)
      ensures var w := q'.events[q'.events[f].waits[k]];
        w.exec.Done? && (w.kind.Command? ==> EndStamp(w) <= q'.events[f].stamps[2])
    {
      var w := q.events[f].waits[k];
      assert w < f;
      if f == e && q.events[e].exec.Submitted? {
        assert q.events[w].exec.Done?;
        assert q.events[w].kind.Command? ==> EndStamp(q.events[w]) <= q.now;
      } else {
        assert Started(q.events[f].exec);
        assert q.events[w].exec.Done?;
      }
      assert w != e;
      assert q'.events[w] == q.events[w];
    }
  }

  lemma NextOrder(q: Queue, e: nat, dt: nat)
    requires Enabled(q, e) && Valid(q)
    requires StampsWellFormed(Next(q, e, dt))
    ensures InOrderHonoured(Next(q, e, dt))
  {
    NextShape(q, e, dt);
    var q' := Next(q, e, dt);
    if !q.outOfOrder {
      forall d, f | (0 <= d < f < |q'.events| && q'.events[d].kind.Command? && q'.events[f].kind.Command?
        && Started(q'.events[f].exec))
        ensures Terminated(q'.events[d].exec)
          && (q'.events[d].exec.Done? ==> EndStamp(q'.events[d]) <= q'.events[f].stamps[2])
      {
        if f == e && q.events[e].exec.Submitted? {
          assert Terminated(q.events[d].exec);
          assert q.events[d].exec.Done? ==> EndStamp(q.events[d]) <= q.now;
        } else {
          assert Started(q.events[f].exec);
          assert Terminated(q.events[d].exec);
        }
        assert d != e;
        assert q'.events[d] == q.events[d];
      }
    }
  }

  lemma NextFailures(q: Queue, e: nat, dt: nat)
    requires Enabled(q, e) && Valid(q)
    ensures FailuresExplained(Next(q, e, dt))
  {
    NextShape(q, e, dt);
    var q' := Next(q, e, dt);
    forall f | 0 <= f < |q'.events| && q'.events[f].kind.Command? && q'.events[f].exec.Failed?
      ensures exists k :: (0 <= k < |q'.events[f].waits| && q'.events[f].waits[k] < |q'.events|
        && q'.events[q'.events[f].waits[k]].exec.Failed?)
    {
      if f == e {
        assert !WaitsDone(q, e) && WaitsSettled(q, e);
        var k :| 0 <= k < |q.events[e].waits| && !q.events[q.events[e].waits[k]].exec.Done?;
        assert q'.events[q'.events[f].waits[k]].exec.Failed?;
      } else {
        var k :| 0 <= k < |q.events[f].waits| && q.events[f].waits[k] < |q.events|
          && q.events[q.events[f].waits[k]].exec.Failed?;
        assert q.events[f].waits[k] != e;
        assert q'.events[q'.events[f].waits[k]].exec.Failed?;
      }
    }
  }

  // ---------------------------------------------------------------------
  // Runs

  /** A device step: which command moves, and how far the clock goes. */
  datatype Step = Step(event: nat, dt: nat)

  /** One step, or no change if the device cannot take it. */
  function Try(q: Queue, st: Step): (r: Queue)
    ensures |r.events| == |q.events| && r.callbacks == q.callbacks && r.now >= q.now
    ensures r.outOfOrder == q.outOfOrder && r.profiling == q.profiling
    ensures forall i :: 0 <= i < |q.events| ==>
      r.events[i].kind == q.events[i].kind && r.events[i].waits == q.events[i].waits
      && r.events[i].refs == q.events[i].refs
    ensures forall i :: 0 <= i < |q.events| && (q.events[i].kind.User? || Terminated(q.events[i].exec)) ==>
      r.events[i] == q.events[i]
    ensures |r.fired| >= |q.fired| && r.fired[..|q.fired|] == q.fired
    ensures Valid(q) ==> Valid(r)
  {
    var a := Advance(q, st.event, st.dt);
    if a.Ok? then a.value else q
  }

  /** A queued command is always submitted by its next step. */
  lemma TrySubmits(q: Queue, e: nat, dt: nat)
    requires e < |q.events| && q.events[e].kind.Command? && q.events[e].exec.Queued?
    ensures var r := Try(q, Step(e, dt));
      r.events == q.events[e := q.events[e].(exec := Submitted, stamps := q.events[e].stamps + [q.now + dt])]
      && r.fired == q.fired
  {
  }

  /** A submitted command whose wait list completed, and which the queue
      order allows, starts running. */
  lemma TryStarts(q: Queue, e: nat, dt: nat)
    requires e < |q.events| && q.events[e].kind.Command? && q.events[e].exec.Submitted?
    requires WaitsDone(q, e) && EarlierSettled(q, e)
    ensures var r := Try(q, Step(e, dt));
      r.events == q.events[e := q.events[e].(exec := Running, stamps := q.events[e].stamps + [q.now + dt])]
      && r.fired == q.fired
  {
  }

  /** A running command completes, and its callbacks are called. */
  lemma TryCompletes(q: Queue, e: nat, dt: nat)
    requires e < |q.events| && q.events[e].kind.Command? && q.events[e].exec.Running?
    ensures var r := Try(q, Step(e, dt));
      r.events == q.events[e := q.events[e].(exec := Done, stamps := q.events[e].stamps + [q.now + dt])]
      && r.fired == q.fired + RegisteredOn(q.callbacks, e)
  {
  }

  /** The device takes the steps in order, skipping any it cannot take. */
  function RunAll(q: Queue, steps: seq<Step>): (r: Queue)
    decreases |steps|
    ensures |r.events| == |q.events| && r.callbacks == q.callbacks && r.now >= q.now
    ensures r.outOfOrder == q.outOfOrder && r.profiling == q.profiling
    ensures forall i :: 0 <= i < |q.events| ==>
      r.events[i].kind == q.events[i].kind && r.events[i].waits == q.events[i].waits
      && r.events[i].refs == q.events[i].refs
    ensures forall i :: 0 <= i < |q.events| && (q.events[i].kind.User? || Terminated(q.events[i].exec)) ==>
      r.events[i] == q.events[i]
    ensures |r.fired| >= |q.fired| && r.fired[..|q.fired|] == q.fired
    ensures Valid(q) ==> Valid(r)
  {
    if |steps| == 0 then q
    else
      var q1 := Try(q, steps[0]);
      var r := RunAll(q1, steps[1..]);
      assert r.fired[..|q.fired|] == r.fired[..|q1.fired|][..|q.fired|];
      r
  }

  /** A command none of whose waits failed, but some of whose waits has
      not completed, has neither started nor terminated, so none of its
      callbacks has been called. */
  lemma Pending(q: Queue, e: nat)
    requires Valid(q) && e < |q.events| && q.events[e].kind.Command?
    requires forall k :: 0 <= k < |q.events[e].waits| ==> !q.events[q.events[e].waits[k]].exec.Failed?
    requires exists k :: 0 <= k < |q.events[e].waits| && !q.events[q.events[e].waits[k]].exec.Done?
    ensures !Started(q.events[e].exec) && !Terminated(q.events[e].exec)
    ensures forall c :: 0 <= c < |q.callbacks| && q.callbacks[c].event == e ==> c !in q.fired
  {
    var k :| 0 <= k < |q.events[e].waits| && !q.events[q.events[e].waits[k]].exec.Done?;
    assert q.events[e].waits[k] < e;
  }

  /** When none of the registered callbacks has been called, the log is
      empty. */
  lemma NoneFired(q: Queue)
    requires CallbacksHonoured(q)
    requires forall c :: 0 <= c < |q.callbacks| ==> c !in q.fired
    ensures q.fired == []
  {
    HeadIn(q.fired);
  }

  lemma HeadIn(s: seq<nat>)
    ensures |s| > 0 ==> s[0] in s
  {
  }

  /** A sequence without repeats holds each value at most once. */
  lemma {:induction false} NoDupCount(s: seq<nat>, c: nat)
    requires NoDup(s)
    ensures multiset(s)[c] <= 1
  {
    if |s| > 0 {
      var t := s[1..];
      assert s == [s[0]] + t;
      assert NoDup(t) by {
        forall i, j | 0 <= i < j < |t|
          ensures t[i] != t[j]
        {
          assert t[i] == s[i + 1] && t[j] == s[j + 1];
        }
      }
      NoDupCount(t, c);
      if s[0] == c {
        assert c !in t by {
          forall i | 0 <= i < |t|
            ensures t[i] != c
          {
            assert t[i] == s[i + 1];
          }
        }
      }
    }
  }

  /** In every valid state each callback has been called at most once,
      and once called it stays called whatever the device does next. */
  lemma CalledAtMostOnce(q: Queue, steps: seq<Step>, c: nat)
    requires Valid(q)
    ensures multiset(q.fired)[c] <= 1
    ensures c in q.fired ==> c in RunAll(q, steps).fired && multiset(RunAll(q, steps).fired)[c] <= 1
  {
    NoDupCount(q.fired, c);
    var r := RunAll(q, steps);
    NoDupCount(r.fired, c);
    if c in q.fired {
      var i :| 0 <= i < |q.fired| && q.fired[i] == c;
      assert r.fired[i] == c;
    }
  }

  // ---------------------------------------------------------------------
  // Releasing an event

  /** q with event e's reference count set to n. */
  function WithRefs(q: Queue, e: nat, n: nat): (r: Queue)
    requires e < |q.events|
    ensures |r.events| == |q.events| && r.events[e].refs == n
    ensures forall i :: 0 <= i < |q.events| ==> r.events[i] == q.events[i].(refs := r.events[i].refs)
  {
    q.(events := q.events[e := q.events[e].(refs := n)])
  }

  /** Whether the device may move a command does not depend on
      reference counts. */
  lemma EnabledIgnoresRefs(q: Queue, e: nat, n: nat, x: nat)
    requires e < |q.events|
    ensures Enabled(WithRefs(q, e, n), x) == Enabled(q, x)
  {
    var q' := WithRefs(q, e, n);
    if x < |q.events| {
      assert WaitsSettled(q', x) == WaitsSettled(q, x);
      assert EarlierSettled(q', x) == EarlierSettled(q, x);
    }
  }

  lemma NextIgnoresRefs(q: Queue, e: nat, n: nat, x: nat, dt: nat)
    requires e < |q.events| && x < |q.events|
    ensures Next(WithRefs(q, e, n), x, dt) == WithRefs(Next(q, x, dt), e, n)
  {
    var q' := WithRefs(q, e, n);
    assert WaitsDone(q', x) == WaitsDone(q, x);
    var t := q.now + dt;
    assert Moved(q', x, t) == if x == e then Moved(q, x, t).(refs := n) else Moved(q, x, t);
    NextShape(q, x, dt);
    NextShape(q', x, dt);
  }

  /** The device's step does not look at reference counts. */
  lemma AdvanceIgnoresRefs(q: Queue, e: nat, n: nat, x: nat, dt: nat)
    requires e < |q.events|
    ensures Advance(WithRefs(q, e, n), x, dt).Ok? == Advance(q, x, dt).Ok?
    ensures Advance(q, x, dt).Ok? ==>
      e < |Advance(q, x, dt).value.events|
      && Advance(WithRefs(q, e, n), x, dt).value == WithRefs(Advance(q, x, dt).value, e, n)
  {
    EnabledIgnoresRefs(q, e, n, x);
    if Enabled(q, x) {
      NextIgnoresRefs(q, e, n, x, dt);
    }
  }

  /** Releasing an event does not cancel or alter anything the device
      does afterwards: every run ends in the same state apart from that
      one reference count. */
  lemma {:induction false} ReleaseDoesNotCancel(q: Queue, e: nat, n: nat, steps: seq<Step>)
    requires e < |q.events|
    ensures RunAll(WithRefs(q, e, n), steps) == WithRefs(RunAll(q, steps), e, n)
    decreases |steps|
  {
    if |steps| > 0 {
      var x, dt := steps[0].event, steps[0].dt;
      AdvanceIgnoresRefs(q, e, n, x, dt);
      var a := Advance(q, x, dt);
      var next := if a.Ok? then a.value else q;
      ReleaseDoesNotCancel(next, e, n, steps[1..]);
    }
  }
}
