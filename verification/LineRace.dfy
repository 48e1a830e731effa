/** One serial port from its open to its close, and who is on its line. A call looks at the registries under the session
    lock, leaves that lock, and only then goes to the line: under the I/O lock of the reader it saw, or under no lock
    if it saw none. What it saw may be out of date by then. */
module LineRace {
  type Tid = nat
  type Rid = nat

  /** What the registries say about the port: nothing, a background reader, or a transfer or monitor. */
  datatype Owner = Nobody | Attached(reader: Rid) | Exchange(tid: Tid)

  datatype Kind = Write | Read | Reset

  /** Who can be on the line: a call, the drain of a reader, a transfer or monitor from its begin to its end. */
  datatype User = Call(tid: Tid) | Drain(reader: Rid) | Whole(tid: Tid)

  /** `calls` are the calls that have passed their gate, with what they saw there; `living` are the reader threads. An
      I/O lock is held exactly by a user that is on the line under it. */
  datatype State = State(
    open: bool, owner: Owner, living: set<Rid>, stopping: set<Rid>, nextId: Rid, calls: map<Tid, Owner>,
    onLine: set<User>)

  datatype Step =
    | Pass(tid: Tid, kind: Kind)
    | Enter(tid: Tid)
    | Leave(tid: Tid)
    | Attach
    | BeginDrain(reader: Rid)
    | EndDrain(reader: Rid)
    | Stop
    | Ends(reader: Rid)
    | Detach
    | Begin(tid: Tid)
    | Finish(tid: Tid)
    | Close

  const Opened := State(true, Nobody, {}, {}, 0, map[], {})

  /** The lock a user goes to the line with. */
  function LockOf(s: State, u: User): Owner {
    match u
    case Call(t) => if t in s.calls then s.calls[t] else Nobody
    case Drain(r) => Attached(r)
    case Whole(_) => Nobody
  }

  predicate Free(s: State, lock: Owner) {
    lock.Attached? ==> forall u <- s.onLine :: LockOf(s, u) != lock
  }

  /** A write is refused beside a transfer or monitor, a read beside any owner; a reset is never refused. */
  predicate Admitted(owner: Owner, kind: Kind) {
    match kind
    case Write => !owner.Exchange?
    case Read => owner.Nobody?
    case Reset => true
  }

  /** A call takes the lock of the reader it sees, and no other. */
  function Seen(owner: Owner): Owner {
    if owner.Attached? then owner else Nobody
  }

  predicate Enabled(s: State, step: Step) {
    match step
    case Pass(t, kind) => s.open && t !in s.calls && Admitted(s.owner, kind)
    case Enter(t) => t in s.calls && Call(t) !in s.onLine && Free(s, s.calls[t])
    case Leave(t) => Call(t) in s.onLine
    case Attach => s.open && s.owner.Nobody?
    case BeginDrain(r) => r in s.living && r !in s.stopping && Free(s, Attached(r))
    case EndDrain(r) => Drain(r) in s.onLine
    case Stop => s.owner.Attached?
    case Ends(r) => r in s.living && Drain(r) !in s.onLine
    case Detach => s.owner.Attached? && s.owner.reader !in s.living
    case Begin(t) => s.open && s.owner.Nobody? && Whole(t) !in s.onLine
    case Finish(t) => Whole(t) in s.onLine
    case Close => s.open
  }

  function Next(s: State, step: Step): State {
    match step
    case Pass(t, _) => s.(calls := s.calls[t := Seen(s.owner)])
    case Enter(t) => s.(onLine := s.onLine + {Call(t)})
    case Leave(t) => s.(onLine := s.onLine - {Call(t)}, calls := s.calls - {t})
    case Attach => s.(owner := Attached(s.nextId), living := s.living + {s.nextId}, nextId := s.nextId + 1)
    case BeginDrain(r) => s.(onLine := s.onLine + {Drain(r)})
    case EndDrain(r) => s.(onLine := s.onLine - {Drain(r)})
    case Stop => if s.owner.Attached? then s.(stopping := s.stopping + {s.owner.reader}) else s
    case Ends(r) => s.(living := s.living - {r})
    case Detach => s.(owner := Nobody)
    case Begin(t) => s.(owner := Exchange(t), onLine := s.onLine + {Whole(t)})
    case Finish(t) => s.(owner := if s.owner == Exchange(t) then Nobody else s.owner, onLine := s.onLine - {Whole(t)})
    case Close => s.(open := false, owner := Nobody)
  }

  ghost predicate Run(s: State, steps: seq<Step>, end: State)
    decreases steps
  {
    if steps == [] then s == end
    else Enabled(s, steps[0]) && Run(Next(s, steps[0]), steps[1..], end)
  }

  ghost predicate Reachable(s: State) {
    exists steps :: Run(Opened, steps, s)
  }

  // --- what every run keeps ---

  /** An I/O lock is held by one user at a time. */
  predicate LocksExclusive(s: State) {
    forall u <- s.onLine, v <- s.onLine :: LockOf(s, u).Attached? && LockOf(s, u) == LockOf(s, v) ==> u == v
  }

  /** Calls and readers known to the port carry numbers already handed out. */
  predicate Numbered(s: State) {
    (forall r <- s.living :: r < s.nextId)
    && (forall t <- s.calls :: !s.calls[t].Exchange? && (s.calls[t].Attached? ==> s.calls[t].reader < s.nextId))
    && (s.owner.Attached? ==> s.owner.reader < s.nextId)
  }

  /** While the port is open, a living reader is the attached one, and a transfer or monitor on the line is registered,
      and conversely. */
  predicate OwnerTells(s: State) {
    (s.owner != Nobody ==> s.open)
    && (s.open ==> forall r <- s.living :: s.owner == Attached(r))
    && (s.open ==> forall u <- s.onLine :: u.Whole? ==> s.owner == Exchange(u.tid))
    && (s.owner.Exchange? ==> Whole(s.owner.tid) in s.onLine)
  }

  /** There is one reader thread or one transfer or monitor, not both, even behind a close. */
  predicate OneBackground(s: State) {
    (forall r <- s.living, q <- s.living :: r == q)
    && (forall u <- s.onLine, v <- s.onLine :: u.Whole? && v.Whole? ==> u == v)
    && (forall u <- s.onLine :: u.Whole? ==> s.living == {})
  }

  predicate OnLineIsKnown(s: State) {
    forall u <- s.onLine :: (u.Call? ==> u.tid in s.calls) && (u.Drain? ==> u.reader in s.living)
  }

  predicate Inv(s: State) {
    LocksExclusive(s) && Numbered(s) && OwnerTells(s) && OneBackground(s) && OnLineIsKnown(s)
  }

  lemma StepLocks(s: State, step: Step)
    requires Inv(s) && Enabled(s, step)
    ensures LocksExclusive(Next(s, step))
  {
  }

  lemma StepInv(s: State, step: Step)
    requires Inv(s) && Enabled(s, step)
    ensures Inv(Next(s, step))
  {
    StepLocks(s, step);
    hide LocksExclusive;
  }

  lemma {:induction false} RunInv(s: State, steps: seq<Step>, end: State)
    requires Inv(s) && Run(s, steps, end)
    ensures Inv(end)
    decreases steps
  {
    if steps != [] {
      StepInv(s, steps[0]);
      RunInv(Next(s, steps[0]), steps[1..], end);
    }
  }

  // --- one at a time ---

  predicate OneAtATime(s: State) {
    forall u <- s.onLine, v <- s.onLine :: u == v
  }

  /** A call under way saw the owner the port still has. */
  predicate UpToDate(s: State, t: Tid)
    requires t in s.calls
  {
    s.calls[t] == s.owner
  }

  predicate AllUpToDate(s: State) {
    forall t <- s.calls :: UpToDate(s, t)
  }

  lemma UpToDateIsExclusive(s: State)
    requires Inv(s) && s.owner != Nobody && AllUpToDate(s)
    ensures OneAtATime(s)
  {
    forall u <- s.onLine, v <- s.onLine ensures u == v {
      if s.owner.Attached? {
        assert LockOf(s, u) == s.owner && LockOf(s, v) == s.owner;
      } else {
        assert u == Whole(s.owner.tid) && v == u;
      }
    }
  }

  /** The owner stays, and no reset is let in beside a transfer or monitor. */
  predicate Keeps(s: State, step: Step) {
    Next(s, step).owner == s.owner && (step.Pass? && step.kind.Reset? ==> !s.owner.Exchange?)
  }

  ghost predicate KeepingRun(s: State, steps: seq<Step>, end: State)
    decreases steps
  {
    if steps == [] then s == end
    else Enabled(s, steps[0]) && Keeps(s, steps[0]) && KeepingRun(Next(s, steps[0]), steps[1..], end)
  }

  lemma {:induction false} KeepingRunIsExclusive(s: State, steps: seq<Step>, end: State)
    requires Inv(s) && s.owner != Nobody && AllUpToDate(s) && KeepingRun(s, steps, end)
    ensures Inv(end) && end.owner == s.owner && AllUpToDate(end) && OneAtATime(end)
    decreases steps
  {
    if steps == [] {
      UpToDateIsExclusive(s);
    } else {
      StepInv(s, steps[0]);
      KeepingRunIsExclusive(Next(s, steps[0]), steps[1..], end);
    }
  }

  /** Passed its gate when nobody owned the port, or under an owner that has been replaced since. */
  predicate Early(s: State, u: User) {
    u.Call? && u.tid in s.calls && (s.calls[u.tid].Nobody? || !UpToDate(s, u.tid))
  }

  /** Whenever two are on the line at once, one of them passed its gate too early to share a lock with the other. */
  lemma OverlapNeedsEarlyCall(s: State, u: User, v: User)
    requires Reachable(s) && u in s.onLine && v in s.onLine && u != v
    ensures Early(s, u) || Early(s, v)
  {
    ReachableInv(s);
  }

  lemma ReachableInv(s: State)
    requires Reachable(s)
    ensures Inv(s)
  {
    var steps :| Run(Opened, steps, s);
    RunInv(Opened, steps, s);
  }

  /** What a gate lets in, by who uses the port: a read only where there is neither reader nor transfer nor monitor, a
      write exactly beside no transfer or monitor, a reset always. */
  lemma GateTells(s: State, t: Tid)
    requires Reachable(s) && s.open && t !in s.calls
    ensures Enabled(s, Pass(t, Read)) <==> s.owner == Nobody
    ensures Enabled(s, Pass(t, Read)) ==> s.living == {} && forall u <- s.onLine :: u.Call?
    ensures Enabled(s, Pass(t, Write)) <==> forall u <- s.onLine :: !u.Whole?
    ensures Enabled(s, Pass(t, Reset))
  {
    ReachableInv(s);
  }

  // --- and when not ---

  lemma FreshTid(calls: map<Tid, Owner>) returns (t: Tid)
    ensures t !in calls
  {
    t := Above(calls.Keys);
  }

  lemma {:induction false} Above(ts: set<Tid>) returns (bound: Tid)
    ensures forall t <- ts :: t < bound
    decreases |ts|
  {
    if ts == {} {
      bound := 0;
    } else {
      var t :| t in ts;
      var rest := Above(ts - {t});
      bound := if rest <= t then t + 1 else rest;
      assert forall q <- ts :: q == t || q in ts - {t};
    }
  }

  /** A call that is not up to date is on the line, or can go there, or another such call holds its lock there. */
  lemma EarlyCallOnLine(s: State, t: Tid) returns (steps: seq<Step>, end: State, u: User)
    requires Inv(s) && s.owner != Nobody && t in s.calls && !UpToDate(s, t)
    ensures KeepingRun(s, steps, end) && Inv(end) && end.owner == s.owner
    ensures u in end.onLine && u.Call? && LockOf(end, u) != s.owner
  {
    steps, end, u := [], s, Call(t);
    if Call(t) !in s.onLine {
      if Free(s, s.calls[t]) {
        steps, end := [Enter(t)], Next(s, Enter(t));
        assert steps[1..] == [];
        StepInv(s, Enter(t));
      } else {
        u :| u in s.onLine && LockOf(s, u) == s.calls[t];
      }
    }
  }

  /** With a call like that, a second user of the line is there already, or the next call finds the way free. */
  lemma EarlyCallOverlaps(s: State, t: Tid) returns (steps: seq<Step>, end: State)
    requires Inv(s) && s.owner != Nobody && t in s.calls && !UpToDate(s, t)
    ensures KeepingRun(s, steps, end) && !OneAtATime(end)
  {
    var u;
    steps, end, u := EarlyCallOnLine(s, t);
    assert s.owner.Exchange? ==> Whole(s.owner.tid) in end.onLine;
    if s.owner.Attached? && OneAtATime(end) {
      var n := FreshTid(end.calls);
      var more := [Pass(n, Write), Enter(n)];
      var mid := Next(end, Pass(n, Write));
      assert Call(n) !in end.onLine;
      assert LockOf(mid, u) == LockOf(end, u);
      assert forall v <- mid.onLine :: v == u;
      assert more[1..] == [Enter(n)] && more[1..][1..] == [];
      var last := Next(mid, Enter(n));
      assert KeepingRun(end, more, last);
      KeepingRunAppend(s, steps, end, more, last);
      assert u in last.onLine && Call(n) in last.onLine;
      steps, end := steps + more, last;
    }
  }

  lemma {:induction false} KeepingRunAppend(s: State, a: seq<Step>, mid: State, b: seq<Step>, end: State)
    requires KeepingRun(s, a, mid) && KeepingRun(mid, b, end)
    ensures KeepingRun(s, a + b, end)
    decreases a
  {
    if a == [] {
      assert a + b == b;
    } else {
      assert (a + b)[1..] == a[1..] + b;
      KeepingRunAppend(Next(s, a[0]), a[1..], mid, b, end);
    }
  }

  /** While an owner stays, its port is used by one at a time, in whatever run, exactly if no call is under way that
      passed its gate before it. */
  lemma ExclusiveExactly(s: State)
    requires Reachable(s) && s.owner != Nobody
    ensures AllUpToDate(s) <==> forall steps, end :: KeepingRun(s, steps, end) ==> OneAtATime(end)
  {
    hide KeepingRun, OneAtATime;
    ReachableInv(s);
    if AllUpToDate(s) {
      forall steps, end | KeepingRun(s, steps, end) ensures OneAtATime(end) {
        KeepingRunIsExclusive(s, steps, end);
      }
    } else {
      var t :| t in s.calls && !UpToDate(s, t);
      var steps, end := EarlyCallOverlaps(s, t);
      assert !(KeepingRun(s, steps, end) ==> OneAtATime(end));
    }
  }

  // --- one run of each kind ---

  /** The states a list of steps leads through, each of them enabled. */
  lemma {:induction false} Walk(s: State, steps: seq<Step>, states: seq<State>)
    requires |states| == |steps| + 1 && states[0] == s
    requires forall i :: 0 <= i < |steps| ==> Enabled(states[i], steps[i]) && Next(states[i], steps[i]) == states[i + 1]
    ensures Run(s, steps, states[|steps|])
    decreases steps
  {
    if steps != [] {
      Walk(states[1], steps[1..], states[1..]);
    }
  }

  lemma Joined(a: seq<Step>, mid: State, b: seq<Step>, end: State)
    requires Run(Opened, a, mid) && Run(mid, b, end)
    ensures Reachable(end)
  {
    RunAppend(Opened, a, mid, b, end);
  }

  lemma {:induction false} RunAppend(s: State, a: seq<Step>, mid: State, b: seq<Step>, end: State)
    requires Run(s, a, mid) && Run(mid, b, end)
    ensures Run(s, a + b, end)
    decreases a
  {
    if a == [] {
      assert a + b == b;
    } else {
      assert (a + b)[1..] == a[1..] + b;
      RunAppend(Next(s, a[0]), a[1..], mid, b, end);
    }
  }

  /** A write or a read passes its gate while there is no reader; one is attached, and its drain meets the call. */
  lemma EarlyCallMeetsDrain(kind: Kind) returns (s: State)
    ensures Reachable(s) && s.owner == Attached(0) && s.onLine == {Call(1), Drain(0)} && LockOf(s, Call(1)) == Nobody
  {
    var s1 := Next(Opened, Pass(1, kind));
    var s2 := Next(s1, Attach);
    var s3 := Next(s2, Enter(1));
    s := Next(s3, BeginDrain(0));
    Walk(Opened, [Pass(1, kind), Attach, Enter(1), BeginDrain(0)], [Opened, s1, s2, s3, s]);
  }

  /** A write has seen reader 0, and that reader has been told to stop and has ended. */
  const STALE := State(true, Attached(0), {}, {0}, 1, map[1 := Attached(0)], {})

  lemma StaleIsReached() returns (steps: seq<Step>)
    ensures Run(Opened, steps, STALE)
  {
    var s1 := Next(Opened, Attach);
    var s2 := Next(s1, Pass(1, Write));
    var s3 := Next(s2, Stop);
    steps := [Attach, Pass(1, Write), Stop, Ends(0)];
    Walk(Opened, steps, [Opened, s1, s2, s3, STALE]);
  }

  /** A write sees reader 0; that reader is stopped and another attached to the port. The write goes out under the old
      lock while the new reader drains under its own. */
  lemma StaleLockMeetsDrain() returns (s: State)
    ensures Reachable(s) && s.owner == Attached(1) && s.onLine == {Call(1), Drain(1)}
    ensures LockOf(s, Call(1)) == Attached(0)
  {
    var before := StaleIsReached();
    var s1 := Next(STALE, Detach);
    var s2 := Next(s1, Attach);
    var s3 := Next(s2, Enter(1));
    s := Next(s3, BeginDrain(1));
    var more := [Detach, Attach, Enter(1), BeginDrain(1)];
    Walk(STALE, more, [STALE, s1, s2, s3, s]);
    Joined(before, STALE, more, s);
  }

  /** A call passes its gate, a transfer or monitor begins, and they meet. */
  lemma EarlyCallMeetsExchange(kind: Kind) returns (s: State)
    ensures Reachable(s) && s.owner == Exchange(2) && s.onLine == {Call(1), Whole(2)} && LockOf(s, Call(1)) == Nobody
  {
    var s1 := Next(Opened, Pass(1, kind));
    var s2 := Next(s1, Begin(2));
    s := Next(s2, Enter(1));
    Walk(Opened, [Pass(1, kind), Begin(2), Enter(1)], [Opened, s1, s2, s]);
  }
}
