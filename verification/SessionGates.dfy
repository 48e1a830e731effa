/** The session's registries and the gates in front of them. Every locked region is one step; transfers and monitors
    run between two of them, readers between start and stop. The claim is about ports: whoever reads a port, be it a
    background reader, a file transfer or a monitor, reads it alone, through any closing and reopening of names. */
module SessionGates {
  import opened Sequences

  type Name = string
  type Port = nat
  type Rid = nat

  const SERIAL := "serial"

  /** A transfer or a monitor between its two locked regions, with the transport it was given. */
  datatype Op = Op(id: nat, name: Name, port: Port, transfer: bool)

  /** The session's own fields, and beside them what is running: the operations in flight, each living reader thread
      with its port, and under which name each port was ever opened. */
  datatype World = World(
    transports: map<Name, Port>, kinds: map<Name, string>, serialBase: map<Name, Port>, readers: map<Name, Rid>,
    transfers: set<Name>, monitors: set<Name>, inFlight: set<Op>, live: map<Rid, Port>,
    openedAs: map<Port, Name>, nextId: nat)

  datatype Event =
    | Open(name: Name, kind: string, limit: Option<nat>)
    | Begin(name: Name, transfer: bool)
    | End(op: Op)
    | ReaderStart(name: Name)
    | ReaderStop(name: Name, ended: bool)
    | ReaderEnds(rid: Rid)
    | Close(name: Name, only: Option<string>, ended: bool)
    | CloseAll(died: set<Rid>)

  datatype Outcome =
    | Granted
    | AlreadyOpen | LimitReached | NotOpen | WrongKind
    | HasReader | NoReader | InTransfer | InMonitor | StillRunning

  predicate Owned(w: World, n: Name) {
    n in w.readers || n in w.transfers || n in w.monitors
  }

  /** Which of its checks stops a call, in the order the call makes them. */
  function Gate(w: World, e: Event): Outcome {
    match e
    case Open(n, _, limit) =>
      if n in w.transports then AlreadyOpen
      else if limit.Some? && |w.transports| >= limit.value then LimitReached
      else Granted
    case Begin(n, true) =>
      if n in w.readers then HasReader
      else if n !in w.transports then NotOpen
      else if n in w.transfers then InTransfer
      else if n in w.monitors then InMonitor
      else Granted
    case Begin(n, false) =>
      if n in w.readers then HasReader
      else if n in w.transfers then InTransfer
      else if n in w.monitors then InMonitor
      else if n !in w.transports then NotOpen
      else Granted
    case ReaderStart(n) =>
      if n !in w.serialBase then NotOpen
      else if n in w.readers then HasReader
      else if n in w.transfers then InTransfer
      else if n in w.monitors then InMonitor
      else Granted
    case ReaderStop(n, ended) =>
      if n !in w.readers then NoReader
      else if !ended && w.readers[n] in w.live then StillRunning
      else Granted
    case Close(n, kind, _) =>
      if n !in w.transports then NotOpen
      else if kind.Some? && (n !in w.kinds || w.kinds[n] != kind.value) then WrongKind
      else Granted
    case End(op) => if op in w.inFlight then Granted else NotOpen
    case ReaderEnds(rid) => if rid in w.live then Granted else NoReader
    case CloseAll(_) => Granted
  }

  function Next(w: World, e: Event): World {
    if Gate(w, e) != Granted then w
    else
      match e
      case Open(n, kind, _) =>
        w.(transports := w.transports[n := w.nextId], kinds := w.kinds[n := kind], nextId := w.nextId + 1,
           openedAs := w.openedAs[w.nextId := n],
           serialBase := if kind == SERIAL then w.serialBase[n := w.nextId] else w.serialBase)
      case Begin(n, transfer) =>
        w.(transfers := if transfer then w.transfers + {n} else w.transfers,
           monitors := if transfer then w.monitors else w.monitors + {n},
           inFlight := w.inFlight + {Op(w.nextId, n, w.transports[n], transfer)}, nextId := w.nextId + 1)
      case End(op) =>
        w.(transfers := if op.transfer then w.transfers - {op.name} else w.transfers,
           monitors := if op.transfer then w.monitors else w.monitors - {op.name}, inFlight := w.inFlight - {op})
      case ReaderStart(n) =>
        w.(readers := w.readers[n := w.nextId], live := w.live[w.nextId := w.serialBase[n]], nextId := w.nextId + 1)
      case ReaderStop(n, _) => w.(readers := w.readers - {n}, live := w.live - {w.readers[n]})
      case ReaderEnds(rid) => w.(live := w.live - {rid})
      case Close(n, _, ended) =>
        w.(transports := w.transports - {n}, kinds := w.kinds - {n}, serialBase := w.serialBase - {n},
           readers := w.readers - {n},
           live := if n in w.readers && ended then w.live - {w.readers[n]} else w.live)
      case CloseAll(ended) =>
        w.(transports := map[], kinds := map[], serialBase := map[], readers := map[], live := w.live - ended)
  }

  // --- what every step keeps ---

  /** The registries describe the same set of names. */
  predicate InStep(w: World) {
    w.kinds.Keys == w.transports.Keys
    && (forall n <- w.transports :: n in w.serialBase <==> w.kinds[n] == SERIAL)
    && (forall n <- w.serialBase :: n in w.transports && w.serialBase[n] == w.transports[n])
    && (forall n <- w.readers :: n in w.serialBase)
  }

  /** The three kinds of owner never share a name, and no name has two operations in flight. */
  predicate OneOwner(w: World) {
    w.readers.Keys !! w.transfers && w.readers.Keys !! w.monitors && w.transfers !! w.monitors
    && (forall op <- w.inFlight :: op.name in if op.transfer then w.transfers else w.monitors)
    && (forall a <- w.inFlight, b <- w.inFlight :: a.name == b.name ==> a == b)
  }

  predicate Running(w: World, n: Name) {
    exists op <- w.inFlight :: op.name == n
  }

  /** Every gated name has its operation: a gate never stays shut behind one that has ended. */
  predicate NoStaleGate(w: World) {
    forall n <- w.transfers + w.monitors :: Running(w, n)
  }

  /** Numbers are never handed out twice. */
  predicate Numbered(w: World) {
    (forall p <- w.openedAs :: p < w.nextId)
    && (forall op <- w.inFlight :: op.id < w.nextId)
    && (forall r <- w.live :: r < w.nextId)
  }

  /** Whoever reads a port that is still registered does so under the one name it was opened by. */
  predicate PortsKnown(w: World) {
    (forall n <- w.transports :: w.transports[n] in w.openedAs && w.openedAs[w.transports[n]] == n)
    && (forall op <- w.inFlight :: op.port in w.openedAs && w.openedAs[op.port] == op.name)
    && (forall r <- w.live :: w.live[r] in w.openedAs && ReadsAsRegistered(w, r, w.openedAs[w.live[r]]))
  }

  predicate ReadsAsRegistered(w: World, r: Rid, n: Name)
    requires r in w.live
  {
    n in w.transports && w.transports[n] == w.live[r] ==> n in w.readers && w.readers[n] == r
  }

  /** No port is read by two at once. */
  predicate Exclusive(w: World) {
    (forall r <- w.live, q <- w.live :: w.live[r] == w.live[q] ==> r == q)
    && (forall a <- w.inFlight, b <- w.inFlight :: a.port == b.port ==> a == b)
    && (forall r <- w.live, op <- w.inFlight :: w.live[r] != op.port)
  }

  predicate Idle(w: World, p: Port) {
    (forall r <- w.live :: w.live[r] != p) && forall op <- w.inFlight :: op.port != p
  }

  predicate Inv(w: World) {
    InStep(w) && OneOwner(w) && NoStaleGate(w) && Numbered(w) && PortsKnown(w) && Exclusive(w)
  }

  const EMPTY: World := World(map[], map[], map[], map[], {}, {}, {}, map[], map[], 0)

  lemma StepInv(w: World, e: Event)
    requires Inv(w)
    ensures Inv(Next(w, e))
  {
    StepRegistries(w, e);
    StepNumbers(w, e);
    StepOwner(w, e);
    StepGates(w, e);
    StepPorts(w, e);
    StepExclusive(w, e);
  }

  lemma StepRegistries(w: World, e: Event)
    requires InStep(w)
    ensures InStep(Next(w, e))
  {
  }

  lemma StepNumbers(w: World, e: Event)
    requires Numbered(w)
    ensures Numbered(Next(w, e))
  {
  }

  lemma StepOwner(w: World, e: Event)
    requires OneOwner(w)
    ensures OneOwner(Next(w, e))
  {
  }

  lemma StepGates(w: World, e: Event)
    requires NoStaleGate(w) && OneOwner(w)
    ensures NoStaleGate(Next(w, e))
  {
    var v := Next(w, e);
    forall n <- v.transfers + v.monitors ensures Running(v, n) {
      StillRuns(w, e, n);
    }
  }

  lemma StillRuns(w: World, e: Event, n: Name)
    requires OneOwner(w) && (n in w.transfers || n in w.monitors ==> Running(w, n))
    requires n in Next(w, e).transfers || n in Next(w, e).monitors
    ensures Running(Next(w, e), n)
  {
    if Running(w, n) {
      var op :| op in w.inFlight && op.name == n;
      assert op in Next(w, e).inFlight;
    } else {
      assert Op(w.nextId, n, w.transports[n], e.transfer) in Next(w, e).inFlight;
    }
  }

  lemma StepPorts(w: World, e: Event)
    requires InStep(w) && OneOwner(w) && Numbered(w) && PortsKnown(w)
    ensures PortsKnown(Next(w, e))
  {
    match e
    case Open(_, _, _) => OpenPorts(w, e);
    case Begin(_, _) => OwnerPorts(w, e);
    case ReaderStart(_) => OwnerPorts(w, e);
    case _ => LeavingPorts(w, e);
  }

  lemma OpenPorts(w: World, e: Event)
    requires e.Open? && Numbered(w) && PortsKnown(w)
    ensures PortsKnown(Next(w, e))
  {
  }

  lemma OwnerPorts(w: World, e: Event)
    requires (e.Begin? || e.ReaderStart?) && InStep(w) && Numbered(w) && PortsKnown(w)
    ensures PortsKnown(Next(w, e))
  {
  }

  lemma LeavingPorts(w: World, e: Event)
    requires !e.Open? && !e.Begin? && !e.ReaderStart? && PortsKnown(w)
    ensures PortsKnown(Next(w, e))
  {
  }

  /** The port of a name nobody owns has nobody reading it. */
  lemma UnownedIsIdle(w: World, n: Name)
    requires OneOwner(w) && PortsKnown(w) && n in w.transports && !Owned(w, n)
    ensures Idle(w, w.transports[n])
  {
  }

  lemma StepExclusive(w: World, e: Event)
    requires Inv(w)
    ensures Exclusive(Next(w, e))
  {
    if (e.Begin? || e.ReaderStart?) && Gate(w, e) == Granted {
      UnownedIsIdle(w, e.name);
      JoiningIdle(w, Next(w, e), w.transports[e.name]);
    } else {
      LeavingExclusive(w, Next(w, e));
    }
  }

  /** One more owner, on an idle port. */
  lemma JoiningIdle(w: World, v: World, p: Port)
    requires Exclusive(w) && Idle(w, p) && w.nextId !in w.live
    requires (exists n, t :: v.inFlight == w.inFlight + {Op(w.nextId, n, p, t)} && v.live == w.live)
             || (v.inFlight == w.inFlight && v.live == w.live[w.nextId := p])
    ensures Exclusive(v)
  {
  }

  lemma LeavingExclusive(w: World, v: World)
    requires Exclusive(w) && v.inFlight <= w.inFlight && v.live.Items <= w.live.Items
    ensures Exclusive(v)
  {
    assert forall r <- v.live :: (r, v.live[r]) in v.live.Items;
  }

  predicate Reachable(w: World, events: seq<Event>) {
    w == RunFrom(EMPTY, events)
  }

  function RunFrom(w: World, events: seq<Event>): World
    decreases |events|
  {
    if events == [] then w else RunFrom(Next(w, events[0]), events[1..])
  }

  lemma {:induction false} RunInv(w: World, events: seq<Event>)
    requires Inv(w)
    ensures Inv(RunFrom(w, events))
    decreases |events|
  {
    if events != [] {
      StepInv(w, events[0]);
      RunInv(Next(w, events[0]), events[1..]);
    }
  }

  lemma ReachableInv(w: World, events: seq<Event>)
    requires Reachable(w, events)
    ensures Inv(w)
  {
    RunInv(EMPTY, events);
  }

  /** However the limit changes from open to open, no run has more open transports than the largest limit in force. */
  lemma {:induction false} NeverOverLimit(w: World, events: seq<Event>, limit: nat)
    requires |w.transports| <= limit && forall i :: 0 <= i < |events| && events[i].Open? ==> Limited(events[i], limit)
    ensures |RunFrom(w, events).transports| <= limit
    decreases |events|
  {
    if events != [] {
      StepWithinLimit(w, events[0], limit);
      NeverOverLimit(Next(w, events[0]), events[1..], limit);
    }
  }

  predicate Limited(e: Event, limit: nat) {
    e.Open? && e.limit.Some? && e.limit.value <= limit
  }

  /** A granted open is within the limit read for it. */
  lemma OpenWithinLimit(w: World, e: Event)
    requires e.Open? && e.limit.Some? && Gate(w, e) == Granted
    ensures |Next(w, e).transports| <= e.limit.value
  {
    OneMore(w.transports.Keys, e.name);
    assert Next(w, e).transports.Keys == w.transports.Keys + {e.name};
  }

  lemma OneMore<T>(s: set<T>, x: T)
    ensures |s + {x}| <= |s| + 1
  {
  }

  lemma StepWithinLimit(w: World, e: Event, limit: nat)
    requires |w.transports| <= limit && (e.Open? ==> Limited(e, limit))
    ensures |Next(w, e).transports| <= limit
  {
    var v := Next(w, e);
    if e.Close? {
      Fewer(v.transports.Keys, w.transports.Keys);
    } else if e.Open? && Gate(w, e) == Granted {
      assert v.transports.Keys == w.transports.Keys + {e.name};
    }
  }

  lemma Fewer<T>(a: set<T>, b: set<T>)
    requires a <= b
    ensures |a| <= |b|
  {
    assert b == a + (b - a);
  }

  // --- direct reads and writes ---

  function ReadGate(w: World, n: Name): Outcome {
    if n in w.readers then HasReader
    else if n in w.transfers then InTransfer
    else if n in w.monitors then InMonitor
    else if n !in w.transports then NotOpen
    else if n !in w.kinds || w.kinds[n] != SERIAL then WrongKind
    else Granted
  }

  function WriteGate(w: World, n: Name): Outcome {
    if n !in w.transports then NotOpen
    else if n !in w.kinds || w.kinds[n] != SERIAL then WrongKind
    else if n in w.transfers then InTransfer
    else if n in w.monitors then InMonitor
    else Granted
  }

  /** A direct read is admitted exactly to an open serial port that nobody else is reading or about to read. */
  lemma ReadIsAdmittedAlone(w: World, events: seq<Event>, n: Name)
    requires Reachable(w, events)
    ensures ReadGate(w, n) == Granted <==> n in w.serialBase && !Owned(w, n)
    ensures ReadGate(w, n) == Granted ==> Idle(w, w.transports[n])
  {
    ReachableInv(w, events);
    if ReadGate(w, n) == Granted {
      UnownedIsIdle(w, n);
    }
  }

  /** A direct write is admitted only where no transfer or monitor is using the port; a reader may be. */
  lemma WriteIsAdmittedOutsideExchanges(w: World, events: seq<Event>, n: Name)
    requires Reachable(w, events)
    ensures WriteGate(w, n) == Granted ==> forall op <- w.inFlight :: op.port != w.transports[n]
    ensures WriteGate(w, n) == Granted <==> n in w.serialBase && n !in w.transfers && n !in w.monitors
  {
    ReachableInv(w, events);
  }

  // --- what is admitted, and what that changes ---

  /** A refusal names a reason that holds. */
  predicate Reason(w: World, n: Name, isOpen: bool, why: Outcome) {
    match why
    case NotOpen => !isOpen
    case HasReader => n in w.readers
    case InTransfer => n in w.transfers
    case InMonitor => n in w.monitors
    case _ => false
  }

  /** One more operation, on the port the name stands for, and with it the name is owned. */
  predicate Joined(w: World, v: World, op: Op) {
    op !in w.inFlight && v.inFlight == w.inFlight + {op} && v.transports == w.transports && v.readers == w.readers
    && op.name in w.transports && op.port == w.transports[op.name]
    && v.transfers == (if op.transfer then w.transfers + {op.name} else w.transfers)
    && v.monitors == (if op.transfer then w.monitors else w.monitors + {op.name})
  }

  /** A transfer or a monitor is admitted exactly to an open name that nobody owns, and then it is the one new operation
      in flight; otherwise nothing changes. */
  lemma BeginIsAdmittedAlone(w: World, events: seq<Event>, n: Name, transfer: bool)
    requires Reachable(w, events)
    ensures var e := Begin(n, transfer);
            (Gate(w, e) == Granted <==> n in w.transports && !Owned(w, n))
            && (Gate(w, e) == Granted ==> Joined(w, Next(w, e), Op(w.nextId, n, w.transports[n], transfer)))
            && (Gate(w, e) != Granted ==>
                  Next(w, e) == w && Reason(w, n, n in w.transports, Gate(w, e)))
  {
    ReachableInv(w, events);
  }

  /** A reader is attached exactly to an open serial name that nobody owns, and then one new thread reads its port. */
  lemma ReaderIsAdmittedAlone(w: World, events: seq<Event>, n: Name)
    requires Reachable(w, events)
    ensures var e := ReaderStart(n);
            (Gate(w, e) == Granted <==> n in w.serialBase && !Owned(w, n))
            && (Gate(w, e) == Granted ==>
                  var v := Next(w, e);
                  w.nextId !in w.live && v.readers == w.readers[n := w.nextId]
                  && n in w.transports && v.live == w.live[w.nextId := w.transports[n]] && v.transports == w.transports
                  && v.transfers == w.transfers && v.monitors == w.monitors && v.inFlight == w.inFlight)
            && (Gate(w, e) != Granted ==> Next(w, e) == w && Reason(w, n, n in w.serialBase, Gate(w, e)))
  {
    ReachableInv(w, events);
  }

  /** One more name, of that kind, on a port never used before; nothing else is touched. */
  predicate Opened(w: World, v: World, n: Name, kind: string) {
    v.transports.Keys == w.transports.Keys + {n} && v.transports[n] !in w.openedAs
    && v.kinds == w.kinds[n := kind] && (n in v.serialBase <==> kind == "serial")
    && (forall m <- w.transports :: v.transports[m] == w.transports[m])
    && v.readers == w.readers && v.transfers == w.transfers && v.monitors == w.monitors
    && v.inFlight == w.inFlight && v.live == w.live
  }

  lemma OpenAdds(w: World, n: Name, kind: string, limit: Option<nat>)
    requires InStep(w) && Numbered(w) && Gate(w, Open(n, kind, limit)) == Granted
    ensures Opened(w, Next(w, Open(n, kind, limit)), n, kind)
  {
  }

  /** A transport is opened exactly under a free name with the limit not yet reached; otherwise nothing changes. */
  lemma OpenIsAdmittedBelowLimit(w: World, events: seq<Event>, n: Name, kind: string, limit: Option<nat>)
    requires Reachable(w, events)
    ensures var e := Open(n, kind, limit);
            (Gate(w, e) == Granted <==> n !in w.transports && (limit.Some? ==> |w.transports| < limit.value))
            && (Gate(w, e) == Granted ==> Opened(w, Next(w, e), n, kind))
            && (Gate(w, e) != Granted ==>
                  Next(w, e) == w && Gate(w, e) == if n in w.transports then AlreadyOpen else LimitReached)
  {
    ReachableInv(w, events);
    hide Opened, InStep, Numbered, OneOwner, NoStaleGate, PortsKnown, Exclusive;
    if Gate(w, Open(n, kind, limit)) == Granted {
      OpenAdds(w, n, kind, limit);
    }
  }

  /** The name is free and without a reader, every other name is as before, and operations in flight go on; of the
      reader threads at most the name's own has ended. */
  predicate Freed(w: World, v: World, n: Name, ended: bool) {
    v.transports == w.transports - {n} && v.kinds == w.kinds - {n} && v.readers == w.readers - {n}
    && v.serialBase == w.serialBase - {n}
    && v.transfers == w.transfers && v.monitors == w.monitors && v.inFlight == w.inFlight
    && (forall r <- v.live :: r in w.live)
    && (forall r <- w.live :: r in v.live <==> !(ended && n in w.readers && w.readers[n] == r))
  }

  lemma CloseFrees(w: World, n: Name, only: Option<string>, ended: bool)
    requires Gate(w, Close(n, only, ended)) == Granted
    ensures Freed(w, Next(w, Close(n, only, ended)), n, ended)
  {
  }

  /** A transport is closed exactly if it is open and, where a kind is asked for, of that kind; otherwise nothing
      changes. */
  lemma CloseFreesTheName(w: World, n: Name, only: Option<string>, ended: bool)
    ensures var e, v := Close(n, only, ended), Next(w, Close(n, only, ended));
            (Gate(w, e) == Granted <==> n in w.transports && (only.Some? ==> n in w.kinds && w.kinds[n] == only.value))
            && (Gate(w, e) == Granted ==> Freed(w, v, n, ended))
            && (Gate(w, e) != Granted ==>
                  v == w && Gate(w, e) == if n in w.transports then WrongKind else NotOpen)
  {
    hide Freed;
    if Gate(w, Close(n, only, ended)) == Granted {
      CloseFrees(w, n, only, ended);
    }
  }

  /** The end of an operation leaves its name to nobody; the stop of a reader does, exactly if its thread has ended. */
  lemma EndsFreeTheName(w: World, events: seq<Event>, op: Op, n: Name, ended: bool)
    requires Reachable(w, events)
    ensures op in w.inFlight ==>
              var v := Next(w, End(op));
              v.inFlight == w.inFlight - {op} && !Owned(v, op.name)
              && (forall m :: m != op.name ==> (Owned(v, m) <==> Owned(w, m))) && v.transports == w.transports
    ensures var e := ReaderStop(n, ended);
            (Gate(w, e) == Granted <==> n in w.readers && (ended || w.readers[n] !in w.live))
            && (Gate(w, e) == Granted ==>
                  var v := Next(w, e);
                  !Owned(v, n) && w.readers[n] !in v.live && v.transports == w.transports
                  && (forall m :: m != n ==> (Owned(v, m) <==> Owned(w, m))))
            && (Gate(w, e) != Granted ==> Next(w, e) == w)
  {
    ReachableInv(w, events);
  }

  /** Closing the session frees every name; transfers and monitors in flight stay gated until they end. */
  lemma CloseAllFrees(w: World, died: set<Rid>)
    ensures var v := Next(w, CloseAll(died));
            v.transports == map[] && v.kinds == map[] && v.serialBase == map[] && v.readers == map[]
            && v.transfers == w.transfers && v.monitors == w.monitors && v.inFlight == w.inFlight
            && v.live == w.live - died
  {
  }

  /** While a name's operation is in flight the name stays gated, whatever is closed or reopened meanwhile. */
  lemma {:induction false} GatedUntilEnd(w: World, events: seq<Event>, op: Op)
    requires Inv(w) && op in w.inFlight && End(op) !in events
    ensures var v := RunFrom(w, events); op in v.inFlight && Owned(v, op.name) && op.name !in v.readers
    decreases |events|
  {
    if events != [] {
      StaysGated(w, events[0], op);
      StepInv(w, events[0]);
      GatedUntilEnd(Next(w, events[0]), events[1..], op);
    } else {
      StaysGated(w, ReaderEnds(0), op);
    }
  }

  lemma StaysGated(w: World, e: Event, op: Op)
    requires OneOwner(w) && op in w.inFlight && e != End(op)
    ensures Owned(w, op.name) && op.name !in w.readers && op in Next(w, e).inFlight
  {
  }

  // --- the session object ---

  class Session {
    var transports: map<Name, Port>
    var kinds: map<Name, string>
    var serialBase: map<Name, Port>
    var readers: map<Name, Rid>
    var transfers: set<Name>
    var monitors: set<Name>
    var nextId: nat
    ghost var inFlight: set<Op>
    ghost var live: map<Rid, Port>
    ghost var openedAs: map<Port, Name>

    constructor ()
      ensures View() == EMPTY
    {
      transports, kinds, serialBase, readers := map[], map[], map[], map[];
      transfers, monitors, inFlight, live, openedAs, nextId := {}, {}, {}, map[], map[], 0;
    }

    ghost function View(): World
      reads this
    {
      World(transports, kinds, serialBase, readers, transfers, monitors, inFlight, live, openedAs, nextId)
    }

    /** Opening under the lock: name, limit, insert. */
    method OpenTransport(name: Name, kind: string, limit: Option<nat>) returns (r: Outcome)
      modifies this
      ensures r == Gate(old(View()), Open(name, kind, limit))
      ensures View() == Next(old(View()), Open(name, kind, limit))
    {
      if name in transports {
        return AlreadyOpen;
      }
      if limit.Some? && |transports| >= limit.value {
        return LimitReached;
      }
      Register(name, kind);
      r := Granted;
    }

    /** The new transport enters every registry; a serial one is also a line to read. */
    method Register(name: Name, kind: string)
      requires name !in transports
      modifies this
      ensures View() == Next(old(View()), Open(name, kind, None))
    {
      var port := nextId;
      nextId := nextId + 1;
      transports := transports[name := port];
      openedAs := openedAs[port := name];
      kinds := kinds[name := kind];
      if kind == SERIAL {
        serialBase := serialBase[name := port];
      }
    }

    /** The gate of a put or a get. */
    method BeginTransfer(name: Name) returns (r: Outcome, op: Option<Op>)
      modifies this
      ensures r == Gate(old(View()), Begin(name, true)) && View() == Next(old(View()), Begin(name, true))
      ensures op.Some? <==> r == Granted
      ensures op.Some? ==> op.value in inFlight && op.value.name == name && op.value.transfer == true
                           && name in old(transports) && op.value.port == old(transports)[name]
    {
      op := None;
      if name in readers {
        return HasReader, None;
      }
      if name !in transports {
        return NotOpen, None;
      }
      if name in transfers {
        return InTransfer, None;
      }
      if name in monitors {
        return InMonitor, None;
      }
      transfers := transfers + {name};
      op := Some(Op(nextId, name, transports[name], true));
      inFlight := inFlight + {op.value};
      nextId := nextId + 1;
      r := Granted;
    }

    method BeginMonitor(name: Name) returns (r: Outcome, op: Option<Op>)
      modifies this
      ensures r == Gate(old(View()), Begin(name, false)) && View() == Next(old(View()), Begin(name, false))
      ensures op.Some? <==> r == Granted
      ensures op.Some? ==> op.value in inFlight && op.value.name == name && op.value.transfer == false
                           && name in old(transports) && op.value.port == old(transports)[name]
    {
      op := None;
      if name in readers {
        return HasReader, None;
      }
      if name in transfers {
        return InTransfer, None;
      }
      if name in monitors {
        return InMonitor, None;
      }
      if name !in transports {
        return NotOpen, None;
      }
      monitors := monitors + {name};
      op := Some(Op(nextId, name, transports[name], false));
      inFlight := inFlight + {op.value};
      nextId := nextId + 1;
      r := Granted;
    }

    /** The locked part of the `finally` block. */
    method Finish(op: Op)
      requires op in inFlight
      modifies this
      ensures View() == Next(old(View()), End(op))
    {
      if op.transfer {
        transfers := transfers - {op.name};
      } else {
        monitors := monitors - {op.name};
      }
      inFlight := inFlight - {op};
    }

    method StartReader(name: Name) returns (r: Outcome)
      modifies this
      ensures r == Gate(old(View()), ReaderStart(name)) && View() == Next(old(View()), ReaderStart(name))
    {
      if name !in serialBase {
        return NotOpen;
      }
      if name in readers {
        return HasReader;
      }
      if name in transfers {
        return InTransfer;
      }
      if name in monitors {
        return InMonitor;
      }
      readers := readers[name := nextId];
      live := live[nextId := serialBase[name]];
      nextId := nextId + 1;
      r := Granted;
    }

    /** `ended` is what joining the thread reports: a reader still draining keeps its registration. */
    method StopReader(name: Name, ended: bool) returns (r: Outcome)
      requires (name in readers ==> (!ended ==> readers[name] in live))
      modifies this
      ensures r == Gate(old(View()), ReaderStop(name, ended))
      ensures View() == Next(old(View()), ReaderStop(name, ended))
    {
      if name !in readers {
        return NoReader;
      }
      if !ended {
        return StillRunning;
      }
      live := live - {readers[name]};
      readers := readers - {name};
      r := Granted;
    }

    /** Closing one transport of a given kind. */
    method CloseTyped(name: Name, kind: string, ended: bool) returns (r: Outcome)
      modifies this
      ensures r == Gate(old(View()), Close(name, Some(kind), ended))
      ensures View() == Next(old(View()), Close(name, Some(kind), ended))
    {
      if name !in transports {
        return NotOpen;
      }
      if name !in kinds || kinds[name] != kind {
        return WrongKind;
      }
      Forget(name, ended);
      r := Granted;
    }

    /** Closing one transport of whatever kind. */
    method CloseTransport(name: Name, ended: bool) returns (r: Outcome)
      modifies this
      ensures r == Gate(old(View()), Close(name, None, ended))
      ensures View() == Next(old(View()), Close(name, None, ended))
    {
      if name !in transports {
        return NotOpen;
      }
      Forget(name, ended);
      r := Granted;
    }

    /** Frees the name; its reader goes with it, even one that is still draining. */
    method Forget(name: Name, ended: bool)
      requires name in transports
      modifies this
      ensures View() == Next(old(View()), Close(name, None, ended))
    {
      assert Next(View(), Close(name, None, ended)) == View().(
        transports := transports - {name}, kinds := kinds - {name}, serialBase := serialBase - {name},
        readers := readers - {name}, live := if name in readers && ended then live - {readers[name]} else live);
      hide Next, Gate;
      if name in readers {
        if ended {
          live := live - {readers[name]};
        }
      }
      readers := readers - {name};
      transports := transports - {name};
      kinds := kinds - {name};
      serialBase := serialBase - {name};
    }

    method CloseEverything(ghost ended: set<Rid>)
      modifies this
      ensures View() == Next(old(View()), CloseAll(ended))
    {
      assert Next(View(), CloseAll(ended)) == View().(
        transports := map[], kinds := map[], serialBase := map[], readers := map[], live := live - ended);
      hide Next, Gate;
      transports, kinds, serialBase, readers := map[], map[], map[], map[];
      live := live - ended;
    }
  }
}
