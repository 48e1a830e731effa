/** The asynchronous stdin pump as a step system. Any number of caller threads run write() and close(),
    one pump thread drains the queue into the pipe. Each locked region is one step; `Event.set`,
    `Event.wait` and the pipe write are steps of their own, so every interleaving is covered. */
module StdinPump {
  import opened Sequences

  type Data = seq<byte>
  type Tid = nat

  const MAX_PENDING_BYTES: nat := 1048576

  /** Where the pump stands: before `wake.wait()`, before the popping region, inside the pipe write,
      about to record a broken pipe, before the region that parks or exits, or gone. */
  datatype Pump = Waiting | Popping | Writing(data: Data) | Breaking(data: Data) | Checking | Exited

  /** `setters` are the callers that have left their locked region and not yet called `wake.set()`.
      `accepted` and `delivered` record history; `acceptedAtExit` is what had been accepted when the
      pump exited by itself. */
  datatype State = State(
    queue: seq<Data>, pending: int, overflow: bool, broken: bool, closing: bool, wake: bool,
    pump: Pump, setters: set<Tid>,
    accepted: seq<Data>, delivered: seq<Data>, acceptedAtExit: Option<seq<Data>>)

  datatype Step =
    | Write(tid: Tid, data: Data)
    | Close(tid: Tid)
    | Set(tid: Tid)
    | Wake
    | Pop
    | Deliver
    | Fail
    | Break
    | Check

  const Init := State([], 0, false, false, false, false, Waiting, {}, [], [], None)

  predicate Enabled(s: State, step: Step) {
    match step
    case Write(t, _) => t !in s.setters
    case Close(t) => t !in s.setters
    case Set(t) => t in s.setters
    case Wake => s.pump.Waiting? && s.wake
    case Pop => s.pump.Popping?
    case Deliver => s.pump.Writing?
    case Fail => s.pump.Writing?
    case Break => s.pump.Breaking?
    case Check => s.pump.Checking?
  }

  function Next(s: State, step: Step): State
    requires Enabled(s, step)
  {
    match step
    case Write(t, data) =>
      if s.broken || s.overflow then s
      else if s.pending + |data| > MAX_PENDING_BYTES then s.(overflow := true)
      else s.(queue := s.queue + [data], pending := s.pending + |data|,
              accepted := s.accepted + [data], setters := s.setters + {t})
    case Close(t) => s.(closing := true, setters := s.setters + {t})
    case Set(t) => s.(wake := true, setters := s.setters - {t})
    case Wake => s.(pump := Popping)
    case Pop =>
      if s.queue == [] then s.(pump := Checking)
      else s.(queue := s.queue[1..], pending := s.pending - |s.queue[0]|, pump := Writing(s.queue[0]))
    case Deliver => s.(delivered := s.delivered + [s.pump.data], pump := Popping)
    case Fail => s.(pump := Breaking(s.pump.data))
    case Break => s.(broken := true, queue := [], pending := 0, pump := Exited)
    case Check =>
      if s.queue != [] then s.(pump := Waiting)
      else if s.closing then s.(pump := Exited, acceptedAtExit := Some(s.accepted))
      else s.(wake := false, pump := Waiting)
  }

  /** `steps` is a run from `s` to `end`. */
  ghost predicate Run(s: State, steps: seq<Step>, end: State)
    decreases steps
  {
    if steps == [] then s == end
    else Enabled(s, steps[0]) && Run(Next(s, steps[0]), steps[1..], end)
  }

  ghost predicate Reachable(s: State) {
    exists steps :: Run(Init, steps, s)
  }

  // --- the invariant ---

  function Total(queue: seq<Data>): nat {
    if queue == [] then 0 else |queue[0]| + Total(queue[1..])
  }

  lemma {:induction false} TotalSnoc(queue: seq<Data>, d: Data)
    ensures Total(queue + [d]) == Total(queue) + |d|
  {
    if queue != [] {
      assert (queue + [d])[1..] == queue[1..] + [d];
      TotalSnoc(queue[1..], d);
    }
  }

  function InFlight(p: Pump): seq<Data> {
    if p.Writing? || p.Breaking? then [p.data] else []
  }

  /** Nothing accepted is lost, reordered or duplicated while the pipe holds. */
  ghost predicate Conserved(s: State) {
    && (!s.broken ==> s.accepted == s.delivered + InFlight(s.pump) + s.queue)
    && (s.broken ==> s.delivered <= s.accepted && s.queue == [] && s.pump.Exited?)
  }

  ghost predicate Accounted(s: State) {
    s.pending == Total(s.queue) <= MAX_PENDING_BYTES
  }

  /** The event is cleared only on the way to parking, and a parked pump with work to do has a
      caller on its way to the event. */
  ghost predicate Awake(s: State) {
    && (!s.wake ==> s.pump.Waiting? || s.pump.Exited?)
    && (s.pump.Waiting? && !s.wake && (s.queue != [] || s.closing) ==> s.setters != {})
  }

  ghost predicate LeftProperly(s: State) {
    && (s.pump.Exited? <==> s.broken || s.acceptedAtExit.Some?)
    && (s.acceptedAtExit.Some? ==> !s.broken && s.closing && s.delivered == s.acceptedAtExit.value)
  }

  ghost predicate Inv(s: State) {
    Conserved(s) && Accounted(s) && Awake(s) && LeftProperly(s)
  }

  lemma Regroup<T>(a: seq<T>, b: seq<T>, c: seq<T>)
    ensures a + b + c == a + (b + c)
  {
  }

  lemma WriteConserves(s: State, t: Tid, data: Data)
    requires Conserved(s) && Enabled(s, Write(t, data))
    ensures Conserved(Next(s, Write(t, data)))
  {
    if !s.broken {
      Regroup(s.delivered + InFlight(s.pump), s.queue, [data]);
    }
  }

  lemma PopConserves(s: State)
    requires Conserved(s) && Enabled(s, Pop)
    ensures Conserved(Next(s, Pop))
  {
    if s.queue != [] {
      Regroup(s.delivered, [s.queue[0]], s.queue[1..]);
      assert [s.queue[0]] + s.queue[1..] == s.queue;
    }
  }

  lemma BreakConserves(s: State)
    requires Conserved(s) && Enabled(s, Break)
    ensures Conserved(Next(s, Break))
  {
    Regroup(s.delivered, InFlight(s.pump), s.queue);
    assert s.delivered <= s.delivered + (InFlight(s.pump) + s.queue);
  }

  lemma StepConserves(s: State, step: Step)
    requires Conserved(s) && Enabled(s, step)
    ensures Conserved(Next(s, step))
  {
    match step
    case Write(t, data) => WriteConserves(s, t, data);
    case Pop => PopConserves(s);
    case Break => BreakConserves(s);
    case Deliver => assert s.delivered + [s.pump.data] + [] == s.delivered + [s.pump.data];
    case _ =>
  }

  lemma StepAccounts(s: State, step: Step)
    requires Accounted(s) && Enabled(s, step)
    ensures Accounted(Next(s, step))
  {
    if step.Write? {
      TotalSnoc(s.queue, step.data);
    }
  }

  lemma StepInv(s: State, step: Step)
    requires Inv(s) && Enabled(s, step)
    ensures Inv(Next(s, step))
  {
    StepConserves(s, step);
    StepAccounts(s, step);
  }

  lemma {:induction false} RunInv(s: State, steps: seq<Step>, end: State)
    requires Inv(s) && Run(s, steps, end)
    ensures Inv(end)
    decreases steps
  {
    if steps != [] {
      StepInv(s, steps[0]);
      RunInv(Next(s, steps[0]), steps[1..], end);
    }
  }

  lemma ReachableInv(s: State)
    requires Reachable(s)
    ensures Inv(s)
  {
    var steps :| Run(Init, steps, s);
    RunInv(Init, steps, s);
  }

  // --- what every run keeps ---

  /** While the pipe is not broken, delivered, in-flight and queued data are the accepted writes, in
      order, and the backlog count is exact and bounded. */
  lemma Conservation(s: State)
    requires Reachable(s)
    ensures !s.broken ==> s.delivered + InFlight(s.pump) + s.queue == s.accepted
    ensures s.delivered <= s.accepted
    ensures s.pending == Total(s.queue) <= MAX_PENDING_BYTES
  {
    ReachableInv(s);
    if !s.broken {
      assert s.delivered + (InFlight(s.pump) + s.queue) == s.accepted;
    }
  }

  /** A pump parked on a cleared event with work to do still has a caller about to set it. */
  lemma NoLostWakeup(s: State)
    requires Reachable(s) && s.pump.Waiting? && (s.queue != [] || s.closing)
    ensures s.wake || s.setters != {}
  {
    ReachableInv(s);
  }

  /** A pump that exited without a broken pipe has delivered everything accepted up to its exit, in
      order. What was accepted later sits in the queue. */
  lemma ExitDelivers(s: State)
    requires Reachable(s) && s.pump.Exited? && !s.broken
    ensures s.acceptedAtExit == Some(s.delivered)
    ensures s.accepted == s.delivered + s.queue
  {
    ReachableInv(s);
  }

  // --- what is accepted, from the calls alone ---

  /** A write that does not fit behind what is queued, on a pipe that holds. */
  predicate Overruns(s: State, step: Step) {
    step.Write? && !s.broken && Total(s.queue) + |step.data| > 1048576
  }

  /** Some write of the run overran the cap. */
  ghost predicate SomeOverruns(s: State, steps: seq<Step>, end: State)
    requires Run(s, steps, end)
    decreases steps
  {
    steps != [] && (Overruns(s, steps[0]) || SomeOverruns(Next(s, steps[0]), steps[1..], end))
  }

  /** The data of the writes of a run, in order, up to the first that overran the cap, on a pipe that held. */
  ghost function WrittenUpTo(s: State, steps: seq<Step>, end: State): seq<Data>
    requires Run(s, steps, end)
    decreases steps
  {
    if steps == [] || Overruns(s, steps[0]) then []
    else
      (if steps[0].Write? && !s.broken then [steps[0].data] else [])
      + WrittenUpTo(Next(s, steps[0]), steps[1..], end)
  }

  lemma WriteTakes(s: State, step: Step)
    requires Accounted(s) && Enabled(s, step)
    ensures var t := Next(s, step);
            (t.overflow <==> s.overflow || Overruns(s, step))
            && t.accepted == s.accepted
               + if step.Write? && !s.broken && !s.overflow && !Overruns(s, step) then [step.data] else []
  {
  }

  /** The overflow flag tells exactly that some write overran the cap. */
  lemma {:induction false} OverflowTells(s: State, steps: seq<Step>, end: State)
    requires Inv(s) && Run(s, steps, end)
    ensures end.overflow <==> s.overflow || SomeOverruns(s, steps, end)
    decreases steps
  {
    if steps != [] {
      StepInv(s, steps[0]);
      WriteTakes(s, steps[0]);
      OverflowTells(Next(s, steps[0]), steps[1..], end);
    }
  }

  lemma {:induction false} OverflowStops(s: State, steps: seq<Step>, end: State)
    requires Inv(s) && Run(s, steps, end) && s.overflow
    ensures end.overflow && end.accepted == s.accepted
    decreases steps
  {
    if steps != [] {
      StepInv(s, steps[0]);
      WriteTakes(s, steps[0]);
      OverflowStops(Next(s, steps[0]), steps[1..], end);
    }
  }

  /** What a run accepts are exactly the writes in front of the first that overran the cap: behind a refused write
      nothing is accepted any more, so what the child reads never has a hole. */
  lemma {:induction false} AcceptsUpToOverflow(s: State, steps: seq<Step>, end: State)
    requires Inv(s) && Run(s, steps, end) && !s.overflow
    ensures end.accepted == s.accepted + WrittenUpTo(s, steps, end)
    decreases steps
  {
    if steps != [] {
      var step, t := steps[0], Next(s, steps[0]);
      StepInv(s, step);
      WriteTakes(s, step);
      if t.overflow {
        OverflowStops(t, steps[1..], end);
      } else {
        AcceptsUpToOverflow(t, steps[1..], end);
        Regroup(s.accepted, if step.Write? && !s.broken then [step.data] else [], WrittenUpTo(t, steps[1..], end));
      }
    }
  }

  // --- progress ---

  /** Steps that belong to a call already begun, or to the pump: no new call is needed for them. */
  predicate Internal(step: Step) {
    !step.Write? && !step.Close?
  }

  function PumpRank(s: State): nat {
    match s.pump
    case Waiting => if s.wake then 3 else 0
    case Popping => 2
    case Writing(_) => 3
    case Breaking(_) => 1
    case Checking => if s.queue != [] then 4 else 1
    case Exited => 0
  }

  function Work(s: State): nat {
    4 * |s.setters| + 3 * |s.queue| + PumpRank(s)
  }

  /** Every internal step uses up work, so without new calls the system comes to rest. */
  lemma InternalStepsEnd(s: State, step: Step)
    requires Inv(s) && Internal(step) && Enabled(s, step)
    ensures Work(Next(s, step)) < Work(s)
  {
    if step.Set? {
      assert |s.setters - {step.tid}| == |s.setters| - 1;
    }
  }

  ghost predicate AtRest(s: State) {
    forall step :: Internal(step) ==> !Enabled(s, step)
  }

  /** At rest, every accepted write has been delivered, unless the pipe broke or the pump had already
      exited; and after a close() the pump has exited. */
  lemma RestMeansDone(s: State)
    requires Reachable(s) && AtRest(s)
    ensures s.pump.Exited? || (s.pump.Waiting? && s.delivered == s.accepted && s.queue == [])
    ensures s.closing ==> s.pump.Exited?
  {
    ReachableInv(s);
    if s.setters != {} {
      var t :| t in s.setters;
      assert Enabled(s, Set(t));
    }
    assert !Enabled(s, Wake) && !Enabled(s, Pop) && !Enabled(s, Deliver) && !Enabled(s, Break) && !Enabled(s, Check);
  }

  /** A run to rest exists from every reachable state, and it makes no new calls. */
  lemma {:induction false} DrainExists(s: State) returns (steps: seq<Step>, end: State)
    requires Inv(s)
    ensures Run(s, steps, end) && AtRest(end) && (forall step :: step in steps ==> Internal(step))
    decreases Work(s)
  {
    if step :| Internal(step) && Enabled(s, step) {
      InternalStepsEnd(s, step);
      StepInv(s, step);
      var rest, last := DrainExists(Next(s, step));
      steps, end := [step] + rest, last;
      assert steps[1..] == rest;
    } else {
      steps, end := [], s;
    }
  }

  // --- after the exit ---

  lemma {:induction false} ExitedIsFinal(s: State, steps: seq<Step>, end: State)
    requires Run(s, steps, end) && s.pump.Exited?
    ensures end.pump.Exited? && end.delivered == s.delivered
    decreases steps
  {
    if steps != [] {
      ExitedIsFinal(Next(s, steps[0]), steps[1..], end);
    }
  }

  /** A write that comes after a clean exit and fits the cap is accepted and never delivered. */
  lemma LateWriteIsNeverDelivered(s: State, t: Tid, data: Data, steps: seq<Step>, end: State)
    requires Reachable(s) && s.acceptedAtExit.Some? && t !in s.setters
    requires !s.overflow && s.pending + |data| <= MAX_PENDING_BYTES
    requires Run(Next(s, Write(t, data)), steps, end)
    ensures Next(s, Write(t, data)).accepted == s.accepted + [data]
    ensures |end.delivered| < |Next(s, Write(t, data)).accepted| && end.pump.Exited?
  {
    ReachableInv(s);
    ExitedIsFinal(Next(s, Write(t, data)), steps, end);
  }

  lemma StepKeepsAccepted(s: State, step: Step)
    requires Enabled(s, step)
    ensures s.accepted <= Next(s, step).accepted
    ensures !s.pump.Exited? && s.acceptedAtExit.None? && Next(s, step).acceptedAtExit.Some? ==>
              Next(s, step).acceptedAtExit.value == s.accepted
    ensures s.pump.Exited? ==> Next(s, step).acceptedAtExit == s.acceptedAtExit
  {
  }

  /** What is accepted before the pump exits is among what its exit accounts for. */
  lemma {:induction false} AcceptedBeforeExit(s: State, steps: seq<Step>, end: State)
    requires Inv(s) && Run(s, steps, end) && !s.pump.Exited?
    ensures s.accepted <= end.accepted
    ensures end.acceptedAtExit.Some? ==> s.accepted <= end.acceptedAtExit.value
    decreases steps
  {
    if steps != [] {
      var t := Next(s, steps[0]);
      StepKeepsAccepted(s, steps[0]);
      StepInv(s, steps[0]);
      if t.pump.Exited? {
        AfterExit(t, steps[1..], end);
      } else {
        AcceptedBeforeExit(t, steps[1..], end);
      }
    }
  }

  lemma {:induction false} AfterExit(s: State, steps: seq<Step>, end: State)
    requires Run(s, steps, end) && s.pump.Exited?
    ensures s.accepted <= end.accepted && end.acceptedAtExit == s.acceptedAtExit
    decreases steps
  {
    if steps != [] {
      StepKeepsAccepted(s, steps[0]);
      AfterExit(Next(s, steps[0]), steps[1..], end);
    }
  }

  lemma {:induction false} RunAppend(s: State, a: seq<Step>, mid: State, b: seq<Step>, end: State)
    requires Run(s, a, mid) && Run(mid, b, end)
    ensures Run(s, a + b, end)
    decreases a
  {
    if a == [] {
      assert a + b == b;
    } else {
      assert (a + b)[1..] == a[1..] + b;
      RunAppend(Next(s, a[0]), a[1..], mid, b, end);
    }
  }

  lemma StaysReachable(s: State, steps: seq<Step>, end: State)
    requires Reachable(s) && Run(s, steps, end)
    ensures Reachable(end)
  {
    var before :| Run(Init, before, s);
    RunAppend(Init, before, s, steps, end);
  }

  /** A write that write() accepts is delivered, by any run that comes to rest with the pipe whole, exactly if the pump
      had not exited when it came; and then right behind everything accepted before it. */
  lemma AcceptedIsDelivered(s: State, t: Tid, data: Data, steps: seq<Step>, end: State)
    requires Reachable(s) && Enabled(s, Write(t, data))
    requires !s.broken && !s.overflow && s.pending + |data| <= MAX_PENDING_BYTES
    requires Run(Next(s, Write(t, data)), steps, end) && AtRest(end) && !end.broken
    ensures s.accepted + [data] <= end.delivered <==> !s.pump.Exited?
    ensures |end.delivered| > |s.accepted| <==> !s.pump.Exited?
  {
    var n := Next(s, Write(t, data));
    assert Run(s, [Write(t, data)], n) by {
      assert [Write(t, data)][1..] == [];
    }
    StaysReachable(s, [Write(t, data)], n);
    StaysReachable(n, steps, end);
    RestMeansDone(end);
    ReachableInv(s);
    ReachableInv(n);
    ReachableInv(end);
    if s.pump.Exited? {
      LateWriteIsNeverDelivered(s, t, data, steps, end);
    } else {
      AcceptedBeforeExit(n, steps, end);
    }
  }

  /** A run to the exit: close an empty writer, and its pump wakes, finds nothing, and leaves. After it a write is
      accepted and stays. */
  lemma ExitIsReached(t: Tid, data: Data) returns (s: State)
    requires |data| <= MAX_PENDING_BYTES
    ensures Reachable(s) && s.pump.Exited? && !s.broken && s.acceptedAtExit == Some([])
    ensures Enabled(s, Write(t, data)) && Next(s, Write(t, data)).accepted == [data]
  {
    var s1 := Next(Init, Close(t));
    var s2 := Next(s1, Set(t));
    var s3 := Next(s2, Wake);
    var s4 := Next(s3, Pop);
    s := Next(s4, Check);
    var last := [Check];
    assert last[1..] == [] && Run(s4, last, s);
    var steps4 := [Pop] + last;
    assert steps4[1..] == last && Run(s3, steps4, s);
    var steps3 := [Wake] + steps4;
    assert steps3[1..] == steps4 && Run(s2, steps3, s);
    var steps2 := [Set(t)] + steps3;
    assert steps2[1..] == steps3 && Run(s1, steps2, s);
    var steps := [Close(t)] + steps2;
    assert steps[1..] == steps2 && Run(Init, steps, s);
  }

  // --- the writer object ---

  /** The writer's fields, with its locked regions as methods. Each is one step of the system above; the ghost fields
      say where the threads stand. */
  class StdinWriter {
    var queue: seq<Data>
    var pending: int
    var overflow: bool
    var broken: bool
    var closing: bool
    var wake: bool
    ghost var pump: Pump
    ghost var setters: set<Tid>
    ghost var accepted: seq<Data>
    ghost var delivered: seq<Data>
    ghost var acceptedAtExit: Option<seq<Data>>

    constructor ()
      ensures View() == Init
    {
      queue, pending, overflow, broken, closing, wake := [], 0, false, false, false, false;
      pump, setters, accepted, delivered, acceptedAtExit := Waiting, {}, [], [], None;
    }

    ghost function View(): State
      reads this
    {
      State(queue, pending, overflow, broken, closing, wake, pump, setters, accepted, delivered, acceptedAtExit)
    }

    /** The locked part of write(); `toWake` tells whether the caller goes on to the event. */
    method Enqueue(ghost tid: Tid, data: Data) returns (toWake: bool)
      requires Enabled(View(), Write(tid, data))
      modifies this
      ensures View() == Next(old(View()), Write(tid, data))
      ensures toWake == (tid in setters)
    {
      if broken || overflow {
        return false;
      }
      if pending + |data| > MAX_PENDING_BYTES {
        overflow := true;
        return false;
      }
      queue := queue + [data];
      pending := pending + |data|;
      accepted, setters := accepted + [data], setters + {tid};
      toWake := true;
    }

    method StartClosing(ghost tid: Tid)
      requires Enabled(View(), Close(tid))
      modifies this`closing, this`setters
      ensures View() == Next(old(View()), Close(tid))
    {
      closing := true;
      setters := setters + {tid};
    }

    method SetWake(ghost tid: Tid)
      requires Enabled(View(), Set(tid))
      modifies this`wake, this`setters
      ensures View() == Next(old(View()), Set(tid))
    {
      wake := true;
      setters := setters - {tid};
    }

    /** The pump takes the oldest data, or learns that there is none. */
    method PopOldest() returns (data: Option<Data>)
      requires Enabled(View(), Pop)
      modifies this`queue, this`pending, this`pump
      ensures View() == Next(old(View()), Pop)
      ensures pump == if data.Some? then Writing(data.value) else Checking
    {
      if queue == [] {
        pump := Checking;
        return None;
      }
      data := Some(queue[0]);
      queue := queue[1..];
      pending := pending - |data.value|;
      pump := Writing(data.value);
    }

    /** The pipe died: the backlog goes and the pump exits. */
    method DropBacklog()
      requires Enabled(View(), Break)
      modifies this`broken, this`queue, this`pending, this`pump
      ensures View() == Next(old(View()), Break)
    {
      broken := true;
      queue := [];
      pending := 0;
      pump := Exited;
    }

    /** The pump exits, parks, or goes round again. */
    method ParkOrExit() returns (exit: bool)
      requires Enabled(View(), Check)
      modifies this`wake, this`pump, this`acceptedAtExit
      ensures View() == Next(old(View()), Check) && exit == pump.Exited?
    {
      exit := false;
      pump := Waiting;
      if queue == [] {
        if closing {
          pump, acceptedAtExit := Exited, Some(accepted);
          return true;
        }
        wake := false;
      }
    }
  }
}
