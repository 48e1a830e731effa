/** The locks of a session, its background readers and its journal as a step system. Any number of
    callers and readers interleave one lock operation at a time. The locks are taken in one order,
    so no set of threads can wait for each other in a circle. */
module LockOrder {

  type Tid = nat
  type Rid = nat

  /** The session lock, each reader's I/O lock and buffer lock, the rate limiter's lock, the
      journal's lock and the sidecar file lock inside it. */
  datatype Lock = Session | Io(reader: Rid) | Limiter | Buffer(reader: Rid) | Journal | Sidecar

  datatype Action =
    | Acquire(lock: Lock)
    | Release(lock: Lock)
    | Spawn(reader: Rid)     // start the reader thread
    | Raise(reader: Rid)     // set its stop event
    | Join(reader: Rid)      // wait, without a timeout, until it has ended
    | CheckStop(reader: Rid) // under the I/O lock: leave the loop when the stop event is set
    | Die(reader: Rid)       // the reader thread returns after a dead port

  datatype Thread = Caller(tid: Tid) | Reader(rid: Rid)

  datatype Proc = Proc(held: set<Lock>, todo: seq<Action>)

  /** `known` are the readers some call has been or will be starting: each call that starts one starts a new one. */
  datatype State = State(threads: map<Thread, Proc>, stopped: set<Rid>, known: set<Rid>)

  // --- the programs ---

  const JOURNALED := [Acquire(Journal), Acquire(Sidecar), Release(Sidecar), Release(Journal)]

  const TRANSFER := [Acquire(Limiter), Release(Limiter)] + JOURNALED

  function Journals(n: nat): seq<Action> {
    if n == 0 then [] else JOURNALED + Journals(n - 1)
  }

  function Look(r: Rid): seq<Action> {
    [Acquire(Buffer(r)), Release(Buffer(r))]
  }

  function Looks(rs: seq<Rid>): seq<Action> {
    if rs == [] then [] else Look(rs[0]) + Looks(rs[1..])
  }

  /** `stop()`: raise the event, journal each failure to poll the port or to cancel its read, and join. */
  function StopReader(r: Rid, failures: nat): seq<Action> {
    [Raise(r)] + Journals(failures) + [Join(r)]
  }

  function StopAll(rs: seq<(Rid, nat)>): seq<Action> {
    if rs == [] then [] else StopReader(rs[0].0, rs[0].1) + Look(rs[0].0) + JOURNALED + StopAll(rs[1..])
  }

  datatype Call =
    | ThroughReader(r: Rid)   // a write or a reset on a connection with a reader
    | Direct                  // the same, or a read, if the gate saw no reader
    | Refused
    | DeadPort(r: Rid)
    | Tail(r: Rid)
    | ReadUntil(r: Rid, polls: nat)
    | Status(rs: seq<Rid>)
    | ReaderStart(r: Rid)
    | ReaderStop(r: Rid, failures: nat)
    | CloseTyped(r: Rid, failures: nat)
    | CloseTransport(r: Rid, failures: nat)
    | CloseSession(stops: seq<(Rid, nat)>)

  function Script(c: Call): seq<Action> {
    match c
    case ThroughReader(r) => [Acquire(Session), Release(Session), Acquire(Io(r))] + TRANSFER + [Release(Io(r))]
    case Direct => [Acquire(Session), Release(Session)] + TRANSFER
    case Refused => [Acquire(Session)] + JOURNALED + [Release(Session)]
    case DeadPort(r) =>
      [Acquire(Session), Release(Session), Acquire(Io(r)), Acquire(Limiter), Release(Limiter), Release(Io(r))]
      + JOURNALED
    case Tail(r) => [Acquire(Session), Release(Session)] + Look(r)
    case ReadUntil(r, polls) => [Acquire(Session), Release(Session)] + Looks(seq(polls, _ => r))
    case Status(rs) => [Acquire(Session)] + Looks(rs) + [Release(Session)]
    case ReaderStart(r) => [Acquire(Session)] + JOURNALED + [Spawn(r), Release(Session)] + Look(r)
    case ReaderStop(r, f) => [Acquire(Session)] + StopReader(r, f) + Look(r) + [Release(Session)] + JOURNALED
    case CloseTyped(r, f) =>
      [Acquire(Session)] + StopReader(r, f) + Look(r) + JOURNALED + JOURNALED + [Release(Session)]
    case CloseTransport(r, f) =>
      [Acquire(Session)] + StopReader(r, f) + Look(r) + JOURNALED + [Release(Session)] + JOURNALED
    case CloseSession(rs) =>
      [Acquire(Session), Release(Session)] + StopAll(rs) + JOURNALED + [Acquire(Journal), Release(Journal)]
  }

  /** One turn of a reader's loop: nothing waiting, a failing poll, a drain, or a drain that finds the port dead. */
  datatype Turn = Idle | PollFailed | Drain | DrainDead

  function TurnScript(r: Rid, t: Turn): seq<Action> {
    match t
    case Idle => []
    case PollFailed => JOURNALED
    case Drain => [Acquire(Io(r)), CheckStop(r)] + JOURNALED + [Release(Io(r))] + Look(r)
    case DrainDead => [Acquire(Io(r)), CheckStop(r)] + JOURNALED + [Release(Io(r)), Die(r)]
  }

  // --- the steps ---

  datatype Step =
    | Begin(tid: Tid, script: seq<Action>)
    | Act(thread: Thread)
    | Loop(rid: Rid, turn: Turn)

  predicate Free(s: State, l: Lock) {
    forall th :: th in s.threads ==> l !in s.threads[th].held
  }

  predicate CanAct(s: State, th: Thread)
    requires th in s.threads && s.threads[th].todo != []
  {
    match s.threads[th].todo[0]
    case Acquire(l) => Free(s, l)
    case Join(r) => Reader(r) !in s.threads
    case _ => true
  }

  /** Callers begin the session's own calls only; `Begin` carries a script so that a wrong one can be
      examined too. */
  predicate Enabled(s: State, step: Step) {
    match step
    case Begin(t, script) => Caller(t) !in s.threads && Started(script) !! s.known
    case Act(th) => th in s.threads && s.threads[th].todo != [] && CanAct(s, th)
    case Loop(r, _) => Reader(r) in s.threads && s.threads[Reader(r)].todo == []
  }

  /** The readers a program starts. */
  function Started(todo: seq<Action>): set<Rid> {
    set a | a in todo && a.Spawn? :: a.reader
  }

  function Finish(s: State, th: Thread, p: Proc): State {
    if th.Caller? && p.todo == [] then s.(threads := s.threads - {th}) else s.(threads := s.threads[th := p])
  }

  function Next(s: State, step: Step): State
    requires Enabled(s, step)
  {
    match step
    case Begin(t, script) => Finish(s.(known := s.known + Started(script)), Caller(t), Proc({}, script))
    case Loop(r, turn) =>
      if r in s.stopped then s.(threads := s.threads - {Reader(r)})
      else s.(threads := s.threads[Reader(r) := Proc(s.threads[Reader(r)].held, TurnScript(r, turn))])
    case Act(th) =>
      var p := s.threads[th];
      var rest := p.todo[1..];
      match p.todo[0]
      case Acquire(l) => Finish(s, th, Proc(p.held + {l}, rest))
      case Release(l) => Finish(s, th, Proc(p.held - {l}, rest))
      case Spawn(r) =>
        var t := if Reader(r) in s.threads then s else s.(threads := s.threads[Reader(r) := Proc({}, [])]);
        Finish(t, th, Proc(p.held, rest))
      case Raise(r) => Finish(s.(stopped := s.stopped + {r}), th, Proc(p.held, rest))
      case Join(_) => Finish(s, th, Proc(p.held, rest))
      case CheckStop(r) => Finish(s, th, Proc(p.held, if r in s.stopped then [Release(Io(r))] else rest))
      case Die(_) => s.(threads := s.threads - {th})
  }

  const Init := State(map[], {}, {})

  ghost predicate Legal(step: Step) {
    step.Begin? ==> exists c :: step.script == Script(c)
  }

  ghost predicate Run(s: State, steps: seq<Step>, end: State)
    decreases steps
  {
    if steps == [] then s == end
    else Enabled(s, steps[0]) && Run(Next(s, steps[0]), steps[1..], end)
  }

  ghost predicate Reachable(s: State) {
    exists steps :: (forall i :: 0 <= i < |steps| ==> Legal(steps[i])) && Run(Init, steps, s)
  }

  // --- the order ---

  const JOIN_RANK := 1

  function Rank(l: Lock): nat {
    match l
    case Session => 0
    case Io(_) => 2
    case Limiter => 3
    case Buffer(_) => 3
    case Journal => 3
    case Sidecar => 4
  }

  predicate Below(held: set<Lock>, rank: nat) {
    forall l :: l in held ==> Rank(l) < rank
  }

  /** A lock is taken above all that are held, and the sidecar inside the journal's lock. */
  predicate MayTake(held: set<Lock>, l: Lock) {
    Below(held, Rank(l)) && (l == Sidecar ==> Journal in held)
  }

  /** From these locks on, the program takes locks and joins in rising rank and ends with none held; the sidecar is
      taken inside the journal's lock and a reader is started inside the session's. */
  predicate Ordered(held: set<Lock>, todo: seq<Action>)
    decreases todo
  {
    if todo == [] then held == {}
    else
      match todo[0]
      case Acquire(l) => MayTake(held, l) && Ordered(held + {l}, todo[1..])
      case Release(l) => l in held && Ordered(held - {l}, todo[1..])
      case Join(_) => Below(held, JOIN_RANK) && Ordered(held, todo[1..])
      case CheckStop(r) => held == {Io(r)} && Ordered(held, todo[1..])
      case Spawn(_) => Session in held && Ordered(held, todo[1..])
      case Die(_) => held == {} && |todo| == 1
      case _ => Ordered(held, todo[1..])
  }

  /** What a reader thread may do: only locks above the join rank, and nothing to another thread. */
  predicate ReaderOnly(r: Rid, todo: seq<Action>) {
    forall a :: a in todo ==>
      match a
      case Acquire(l) => Rank(l) > JOIN_RANK
      case Release(_) => true
      case CheckStop(q) => q == r
      case Die(q) => q == r
      case _ => false
  }

  predicate CallerOnly(todo: seq<Action>) {
    forall a :: a in todo ==> !a.CheckStop? && !a.Die?
  }

  /** Programs compose: what is ordered from `held` down to `mid` followed by what is ordered from
      there. `Prefix` is `Ordered` with any end. */
  predicate Prefix(held: set<Lock>, todo: seq<Action>, mid: set<Lock>)
    decreases todo
  {
    if todo == [] then held == mid
    else
      match todo[0]
      case Acquire(l) => MayTake(held, l) && Prefix(held + {l}, todo[1..], mid)
      case Release(l) => l in held && Prefix(held - {l}, todo[1..], mid)
      case Join(_) => Below(held, JOIN_RANK) && Prefix(held, todo[1..], mid)
      case Spawn(_) => Session in held && Prefix(held, todo[1..], mid)
      case Raise(_) => Prefix(held, todo[1..], mid)
      case _ => false
  }

  lemma {:induction false} PrefixAppend(held: set<Lock>, a: seq<Action>, mid: set<Lock>, b: seq<Action>, end: set<Lock>)
    requires Prefix(held, a, mid) && Prefix(mid, b, end)
    ensures Prefix(held, a + b, end)
    decreases a
  {
    if a == [] {
      assert a + b == b;
    } else {
      assert (a + b)[1..] == a[1..] + b;
      match a[0]
      case Acquire(l) => PrefixAppend(held + {l}, a[1..], mid, b, end);
      case Release(l) => PrefixAppend(held - {l}, a[1..], mid, b, end);
      case Join(_) => PrefixAppend(held, a[1..], mid, b, end);
      case Spawn(_) => PrefixAppend(held, a[1..], mid, b, end);
      case Raise(_) => PrefixAppend(held, a[1..], mid, b, end);
    }
  }

  lemma {:induction false} PrefixIsOrdered(held: set<Lock>, todo: seq<Action>)
    requires Prefix(held, todo, {})
    ensures Ordered(held, todo) && CallerOnly(todo)
    decreases todo
  {
    if todo != [] {
      assert todo == [todo[0]] + todo[1..];
      match todo[0]
      case Acquire(l) => PrefixIsOrdered(held + {l}, todo[1..]);
      case Release(l) => PrefixIsOrdered(held - {l}, todo[1..]);
      case Join(_) => PrefixIsOrdered(held, todo[1..]);
      case Spawn(_) => PrefixIsOrdered(held, todo[1..]);
      case Raise(_) => PrefixIsOrdered(held, todo[1..]);
    }
  }

  /** Take `l` and give it back, under locks that rank below it. */
  lemma PairPrefix(held: set<Lock>, l: Lock)
    requires MayTake(held, l)
    ensures Prefix(held, [Acquire(l), Release(l)], held)
  {
    var rest := [Acquire(l), Release(l)][1..];
    assert rest == [Release(l)] && rest[1..] == [];
    assert held + {l} - {l} == held;
  }

  lemma JournaledPrefix(held: set<Lock>)
    requires Below(held, 3)
    ensures Prefix(held, JOURNALED, held)
  {
    var inner := held + {Journal};
    PairPrefix(inner, Sidecar);
    var last := [Release(Journal)];
    assert last[1..] == [];
    assert inner - {Journal} == held;
    assert Prefix(inner, last, held);
    PrefixAppend(inner, [Acquire(Sidecar), Release(Sidecar)], inner, last, held);
    assert JOURNALED[1..] == [Acquire(Sidecar), Release(Sidecar)] + last;
  }

  lemma TransferPrefix(held: set<Lock>)
    requires Below(held, 3)
    ensures Prefix(held, TRANSFER, held)
  {
    PairPrefix(held, Limiter);
    JournaledPrefix(held);
    PrefixAppend(held, [Acquire(Limiter), Release(Limiter)], held, JOURNALED, held);
  }

  lemma {:induction false} JournalsPrefix(held: set<Lock>, n: nat)
    requires Below(held, 3)
    ensures Prefix(held, Journals(n), held)
  {
    if n > 0 {
      JournaledPrefix(held);
      JournalsPrefix(held, n - 1);
      PrefixAppend(held, JOURNALED, held, Journals(n - 1), held);
    }
  }

  lemma {:induction false} LooksPrefix(held: set<Lock>, rs: seq<Rid>)
    requires Below(held, 3)
    ensures Prefix(held, Looks(rs), held)
  {
    if rs != [] {
      PairPrefix(held, Buffer(rs[0]));
      LooksPrefix(held, rs[1..]);
      PrefixAppend(held, Look(rs[0]), held, Looks(rs[1..]), held);
    }
  }

  lemma StopPrefix(held: set<Lock>, r: Rid, f: nat)
    requires Below(held, JOIN_RANK)
    ensures Prefix(held, StopReader(r, f), held)
  {
    var mid := Journals(f);
    JournalsPrefix(held, f);
    assert [Join(r)][1..] == [] && Prefix(held, [Join(r)], held);
    PrefixAppend(held, mid, held, [Join(r)], held);
    assert StopReader(r, f)[1..] == mid + [Join(r)];
  }

  lemma {:induction false} StopAllPrefix(rs: seq<(Rid, nat)>)
    ensures Prefix({}, StopAll(rs), {})
  {
    if rs != [] {
      var (r, f) := rs[0];
      StopPrefix({}, r, f);
      PairPrefix({}, Buffer(r));
      JournaledPrefix({});
      StopAllPrefix(rs[1..]);
      PrefixAppend({}, StopReader(r, f), {}, Look(r), {});
      PrefixAppend({}, StopReader(r, f) + Look(r), {}, JOURNALED, {});
      PrefixAppend({}, StopReader(r, f) + Look(r) + JOURNALED, {}, StopAll(rs[1..]), {});
    }
  }

  /** A body that keeps the session lock, wrapped in that lock. */
  lemma UnderSession(body: seq<Action>, s: seq<Action>)
    requires Prefix({Session}, body, {Session}) && s == [Acquire(Session)] + body + [Release(Session)]
    ensures Prefix({}, s, {})
  {
    var last := [Release(Session)];
    assert last[1..] == [] && {Session} - {Session} == {};
    assert Prefix({Session}, last, {});
    PrefixAppend({Session}, body, {Session}, last, {});
    assert s[1..] == body + last;
    assert {} + {Session} == {Session};
  }

  lemma Then(a: seq<Action>, b: seq<Action>, s: seq<Action>)
    requires Prefix({}, a, {}) && Prefix({}, b, {}) && s == a + b
    ensures Prefix({}, s, {})
  {
    PrefixAppend({}, a, {}, b, {});
  }

  lemma UnderIo(r: Rid, body: seq<Action>, s: seq<Action>)
    requires Prefix({Io(r)}, body, {Io(r)}) && s == [Acquire(Io(r))] + body + [Release(Io(r))]
    ensures Prefix({}, s, {})
  {
    var last := [Release(Io(r))];
    assert last[1..] == [] && {Io(r)} - {Io(r)} == {};
    assert Prefix({Io(r)}, last, {});
    PrefixAppend({Io(r)}, body, {Io(r)}, last, {});
    assert s[1..] == body + last;
    assert {} + {Io(r)} == {Io(r)};
  }

  const GATE := [Acquire(Session), Release(Session)]

  lemma IoScripts(c: Call)
    requires c.ThroughReader? || c.Direct? || c.DeadPort?
    ensures Prefix({}, Script(c), {})
  {
    PairPrefix({}, Session);
    match c
    case Direct =>
      TransferPrefix({});
      Then(GATE, TRANSFER, Script(c));
    case ThroughReader(r) =>
      TransferPrefix({Io(r)});
      var s := [Acquire(Io(r))] + TRANSFER + [Release(Io(r))];
      UnderIo(r, TRANSFER, s);
      Then(GATE, s, Script(c));
    case DeadPort(r) => DeadPortScript(r);
  }

  lemma DeadPortScript(r: Rid)
    ensures Prefix({}, Script(DeadPort(r)), {})
  {
    PairPrefix({}, Session);
    PairPrefix({Io(r)}, Limiter);
    JournaledPrefix({});
    var s := [Acquire(Io(r))] + [Acquire(Limiter), Release(Limiter)] + [Release(Io(r))];
    UnderIo(r, [Acquire(Limiter), Release(Limiter)], s);
    Then(GATE, s, GATE + s);
    Then(GATE + s, JOURNALED, Script(DeadPort(r)));
  }

  lemma BufferScripts(c: Call)
    requires c.Refused? || c.Tail? || c.ReadUntil? || c.Status?
    ensures Prefix({}, Script(c), {})
  {
    PairPrefix({}, Session);
    match c
    case Refused =>
      JournaledPrefix({Session});
      UnderSession(JOURNALED, Script(c));
    case Tail(r) =>
      PairPrefix({}, Buffer(r));
      Then(GATE, Look(r), Script(c));
    case ReadUntil(r, polls) =>
      LooksPrefix({}, seq(polls, _ => r));
      Then(GATE, Looks(seq(polls, _ => r)), Script(c));
    case Status(rs) =>
      LooksPrefix({Session}, rs);
      UnderSession(Looks(rs), Script(c));
  }

  lemma ReaderStartScript(r: Rid)
    ensures Prefix({}, Script(ReaderStart(r)), {})
  {
    JournaledPrefix({Session});
    assert [Spawn(r)][1..] == [] && Prefix({Session}, [Spawn(r)], {Session});
    PrefixAppend({Session}, JOURNALED, {Session}, [Spawn(r)], {Session});
    var s := [Acquire(Session)] + (JOURNALED + [Spawn(r)]) + [Release(Session)];
    UnderSession(JOURNALED + [Spawn(r)], s);
    PairPrefix({}, Buffer(r));
    Then(s, Look(r), Script(ReaderStart(r)));
  }

  lemma ReaderStopScript(r: Rid, f: nat)
    ensures Prefix({}, Script(ReaderStop(r, f)), {})
  {
    var body := StopAndLook(r, f);
    var s := [Acquire(Session)] + body + [Release(Session)];
    UnderSession(body, s);
    JournaledPrefix({});
    Then(s, JOURNALED, Script(ReaderStop(r, f)));
  }

  lemma StopAndJournal(r: Rid, f: nat) returns (body: seq<Action>)
    ensures body == StopReader(r, f) + Look(r) + JOURNALED && Prefix({Session}, body, {Session})
  {
    body := StopAndLook(r, f);
    JournaledPrefix({Session});
    PrefixAppend({Session}, body, {Session}, JOURNALED, {Session});
    body := body + JOURNALED;
  }

  lemma CloseTypedScript(r: Rid, f: nat)
    ensures Prefix({}, Script(CloseTyped(r, f)), {})
  {
    var body := StopAndJournal(r, f);
    JournaledPrefix({Session});
    PrefixAppend({Session}, body, {Session}, JOURNALED, {Session});
    UnderSession(body + JOURNALED, Script(CloseTyped(r, f)));
  }

  lemma CloseTransportScript(r: Rid, f: nat)
    ensures Prefix({}, Script(CloseTransport(r, f)), {})
  {
    var body := StopAndJournal(r, f);
    var s := [Acquire(Session)] + body + [Release(Session)];
    UnderSession(body, s);
    JournaledPrefix({});
    Then(s, JOURNALED, Script(CloseTransport(r, f)));
  }

  lemma CloseSessionScript(stops: seq<(Rid, nat)>)
    ensures Prefix({}, Script(CloseSession(stops)), {})
  {
    PairPrefix({}, Session);
    JournaledPrefix({});
    StopAllPrefix(stops);
    PairPrefix({}, Journal);
    var s := GATE + StopAll(stops);
    Then(GATE, StopAll(stops), s);
    Then(s, JOURNALED, s + JOURNALED);
    Then(s + JOURNALED, [Acquire(Journal), Release(Journal)], Script(CloseSession(stops)));
  }

  /** Every operation of the session follows the order. */
  lemma ScriptOrdered(c: Call)
    ensures Ordered({}, Script(c)) && CallerOnly(Script(c))
  {
    match c {
      case CloseSession(stops) => CloseSessionScript(stops);
      case CloseTyped(r, f) => CloseTypedScript(r, f);
      case CloseTransport(r, f) => CloseTransportScript(r, f);
      case ReaderStart(r) => ReaderStartScript(r);
      case ReaderStop(r, f) => ReaderStopScript(r, f);
      case ThroughReader(_) => IoScripts(c);
      case Direct => IoScripts(c);
      case DeadPort(_) => IoScripts(c);
      case _ => BufferScripts(c);
    }
    PrefixIsOrdered({}, Script(c));
  }

  lemma StopAndLook(r: Rid, f: nat) returns (body: seq<Action>)
    ensures body == StopReader(r, f) + Look(r) && Prefix({Session}, body, {Session})
  {
    StopPrefix({Session}, r, f);
    PairPrefix({Session}, Buffer(r));
    body := StopReader(r, f) + Look(r);
    PrefixAppend({Session}, StopReader(r, f), {Session}, Look(r), {Session});
  }

  lemma {:induction false} PrefixThenOrdered(held: set<Lock>, a: seq<Action>, mid: set<Lock>, b: seq<Action>)
    requires Prefix(held, a, mid) && Ordered(mid, b)
    ensures Ordered(held, a + b)
    decreases a
  {
    if a == [] {
      assert a + b == b;
    } else {
      assert (a + b)[1..] == a[1..] + b;
      match a[0]
      case Acquire(l) => PrefixThenOrdered(held + {l}, a[1..], mid, b);
      case Release(l) => PrefixThenOrdered(held - {l}, a[1..], mid, b);
      case Join(_) => PrefixThenOrdered(held, a[1..], mid, b);
      case Spawn(_) => PrefixThenOrdered(held, a[1..], mid, b);
      case Raise(_) => PrefixThenOrdered(held, a[1..], mid, b);
    }
  }

  /** A reader's turn follows the order too, and never touches the session lock. */
  lemma TurnOrdered(r: Rid, t: Turn)
    ensures Ordered({}, TurnScript(r, t)) && ReaderOnly(r, TurnScript(r, t))
  {
    var io := {Io(r)};
    var s := TurnScript(r, t);
    match t
    case Idle =>
    case PollFailed =>
      JournaledPrefix({});
      PrefixIsOrdered({}, s);
    case Drain =>
      PairPrefix({}, Buffer(r));
      PrefixIsOrdered({}, Look(r));
      DrainTail(r, s, Look(r));
    case DrainDead =>
      assert [Die(r)][1..] == [];
      DrainTail(r, s, [Die(r)]);
  }

  lemma DrainTail(r: Rid, s: seq<Action>, tail: seq<Action>)
    requires s == [Acquire(Io(r)), CheckStop(r)] + JOURNALED + [Release(Io(r))] + tail
    requires Ordered({}, tail) && ReaderOnly(r, tail)
    ensures Ordered({}, s) && ReaderOnly(r, s)
  {
    var io := {Io(r)};
    var last := [Release(Io(r))] + tail;
    assert last[1..] == tail && io - {Io(r)} == {};
    assert Ordered(io, last);
    JournaledPrefix(io);
    PrefixThenOrdered(io, JOURNALED, io, last);
    assert s[1..][1..] == JOURNALED + last;
    assert {} + {Io(r)} == io;
    assert Ordered(io, s[1..]);
  }

  // --- what is done under which lock ---

  /** From `k` to `i` the lock taken at `k` is kept. */
  predicate Kept(s: seq<Action>, l: Lock, k: nat, i: nat)
    requires k < i < |s|
  {
    s[k] == Acquire(l) && forall j :: k < j < i ==> s[j] != Release(l)
  }

  /** `x` is done, and only under `l`. */
  predicate Within(s: seq<Action>, l: Lock, x: Action) {
    x in s && forall i :: 0 <= i < |s| && s[i] == x ==> exists k: nat :: k < i && Kept(s, l, k, i)
  }

  lemma Bracket(pre: seq<Action>, l: Lock, mid: seq<Action>, post: seq<Action>, x: Action)
    requires x in mid && x !in pre && x !in post && x != Acquire(l) && Release(l) !in mid
    ensures Within(pre + [Acquire(l)] + mid + post, l, x)
  {
    var s, at := pre + [Acquire(l)] + mid + post, |pre| + 1;
    assert (forall j :: 0 <= j < |pre| ==> s[j] == pre[j]) && s[|pre|] == Acquire(l);
    assert forall j :: 0 <= j < |mid| ==> s[at + j] == mid[j];
    assert forall j :: 0 <= j < |post| ==> s[at + |mid| + j] == post[j];
    forall i | 0 <= i < |s| && s[i] == x ensures exists k: nat :: k < i && Kept(s, l, k, i) {
      assert |pre| < i < at + |mid|;
      forall j | |pre| < j < i ensures s[j] != Release(l) {
        assert s[j] == mid[j - at];
      }
      assert Kept(s, l, |pre|, i);
    }
    assert x in s;
  }

  /** What each call does on behalf of the session, and the lock it does it under. */
  ghost predicate Protected(c: Call, s: seq<Action>) {
    && s != [] && s[0] == Acquire(Session)
    && match c
       case ThroughReader(r) => Within(s, Io(r), Acquire(Limiter)) && Within(s, Io(r), Acquire(Sidecar))
       case Direct => Acquire(Limiter) in s && Acquire(Sidecar) in s && forall r :: Acquire(Io(r)) !in s
       case Refused => Within(s, Session, Acquire(Sidecar))
       case DeadPort(r) => Within(s, Io(r), Acquire(Limiter)) && Acquire(Sidecar) in s
       case Tail(r) => Acquire(Buffer(r)) in s
       case ReadUntil(r, polls) => polls > 0 ==> Acquire(Buffer(r)) in s
       case Status(rs) => forall r <- rs :: Within(s, Session, Acquire(Buffer(r)))
       case ReaderStart(r) => Within(s, Session, Spawn(r)) && Within(s, Session, Acquire(Sidecar))
       case ReaderStop(r, _) => Within(s, Session, Raise(r)) && Within(s, Session, Join(r)) && Acquire(Sidecar) in s
       case CloseTyped(r, _) =>
         Within(s, Session, Raise(r)) && Within(s, Session, Join(r)) && Within(s, Session, Acquire(Sidecar))
       case CloseTransport(r, _) => Within(s, Session, Raise(r)) && Within(s, Session, Join(r)) && Acquire(Sidecar) in s
       case CloseSession(stops) =>
         Acquire(Sidecar) in s && forall stop <- stops :: Raise(stop.0) in s && Join(stop.0) in s
  }

  lemma TransferHas()
    ensures forall a :: a in GATE <==> a == Acquire(Session) || a == Release(Session)
    ensures forall a :: a in JOURNALED <==>
                        (a.Acquire? || a.Release?) && (a.lock == Journal || a.lock == Sidecar)
    ensures forall a :: a in TRANSFER <==> a == Acquire(Limiter) || a == Release(Limiter) || a in JOURNALED
  {
    assert forall a :: a in JOURNALED <==>
                       a == Acquire(Journal) || a == Acquire(Sidecar) || a == Release(Sidecar) || a == Release(Journal);
  }

  lemma ThroughReaderProtected(r: Rid)
    ensures Protected(ThroughReader(r), Script(ThroughReader(r)))
  {
    hide Within;
    TransferHas();
    Bracket(GATE, Io(r), TRANSFER, [Release(Io(r))], Acquire(Limiter));
    Bracket(GATE, Io(r), TRANSFER, [Release(Io(r))], Acquire(Sidecar));
    assert Script(ThroughReader(r)) == GATE + [Acquire(Io(r))] + TRANSFER + [Release(Io(r))];
  }

  lemma DeadPortProtected(r: Rid)
    ensures Protected(DeadPort(r), Script(DeadPort(r)))
  {
    hide Within;
    TransferHas();
    var mid, post := [Acquire(Limiter), Release(Limiter)], [Release(Io(r))] + JOURNALED;
    Bracket(GATE, Io(r), mid, post, Acquire(Limiter));
    var s := GATE + [Acquire(Io(r))] + mid + post;
    assert s == Script(DeadPort(r));
    assert Acquire(Sidecar) in post;
  }

  lemma StopHas(r: Rid, f: nat)
    ensures Raise(r) in StopReader(r, f) && Join(r) in StopReader(r, f) && Release(Session) !in StopReader(r, f)
    ensures forall a :: a in StopReader(r, f) && a.Acquire? ==> a in JOURNALED
  {
    TransferHas();
    JournalsOnly(f);
  }

  lemma StopProtected(r: Rid, after: seq<Action>, post: seq<Action>, f: nat)
    requires Release(Session) !in after && forall a :: a in after + post ==> a.Acquire? || a.Release?
    ensures var s := [Acquire(Session)] + (StopReader(r, f) + after) + post;
            Within(s, Session, Raise(r)) && Within(s, Session, Join(r)) && s[0] == Acquire(Session)
            && (Acquire(Sidecar) in after && Acquire(Sidecar) !in post ==> Within(s, Session, Acquire(Sidecar)))
            && (Acquire(Sidecar) in post ==> Acquire(Sidecar) in s)
  {
    hide Within;
    var mid := StopReader(r, f) + after;
    StopHas(r, f);
    hide StopReader;
    assert forall a :: a in after || a in post ==> a in after + post;
    assert [] + [Acquire(Session)] + mid + post == [Acquire(Session)] + mid + post;
    Bracket([], Session, mid, post, Raise(r));
    Bracket([], Session, mid, post, Join(r));
    if Acquire(Sidecar) in after && Acquire(Sidecar) !in post {
      Bracket([], Session, mid, post, Acquire(Sidecar));
    }
  }

  lemma ReaderStopProtected(r: Rid, f: nat)
    ensures Protected(ReaderStop(r, f), Script(ReaderStop(r, f)))
  {
    hide StopReader, Within;
    var post := [Release(Session)] + JOURNALED;
    assert Script(ReaderStop(r, f)) == [Acquire(Session)] + (StopReader(r, f) + Look(r)) + post;
    hide Script;
    LookHas(r, [], post);
    assert Look(r) + [] == Look(r);
    StopProtected(r, Look(r), post, f);
  }

  lemma CloseTypedProtected(r: Rid, f: nat)
    ensures Protected(CloseTyped(r, f), Script(CloseTyped(r, f)))
  {
    hide StopReader, Within;
    var after := Look(r) + (JOURNALED + JOURNALED);
    assert Script(CloseTyped(r, f)) == [Acquire(Session)] + (StopReader(r, f) + after) + [Release(Session)];
    hide Script, Look;
    LookHas(r, JOURNALED + JOURNALED, [Release(Session)]);
    StopProtected(r, after, [Release(Session)], f);
  }

  lemma CloseTransportProtected(r: Rid, f: nat)
    ensures Protected(CloseTransport(r, f), Script(CloseTransport(r, f)))
  {
    hide StopReader, Within;
    var after, post := Look(r) + JOURNALED, [Release(Session)] + JOURNALED;
    assert Script(CloseTransport(r, f)) == [Acquire(Session)] + (StopReader(r, f) + after) + post;
    hide Script, Look;
    LookHas(r, JOURNALED, post);
    StopProtected(r, after, post, f);
  }

  lemma LookHas(r: Rid, journaled: seq<Action>, post: seq<Action>)
    requires forall a <- journaled :: a in JOURNALED
    requires forall a <- post :: a in JOURNALED || a == Release(Session)
    ensures var after := Look(r) + journaled;
            Release(Session) !in after && (forall a :: a in after + post ==> a.Acquire? || a.Release?)
    ensures Acquire(Sidecar) in JOURNALED
    ensures Acquire(Sidecar) in journaled ==> Acquire(Sidecar) in Look(r) + journaled
  {
    TransferHas();
  }

  lemma {:induction false} StopAllHas(rs: seq<(Rid, nat)>)
    ensures forall p <- rs :: Raise(p.0) in StopAll(rs) && Join(p.0) in StopAll(rs)
  {
    if rs != [] {
      StopHas(rs[0].0, rs[0].1);
      StopAllHas(rs[1..]);
      assert forall p <- rs :: p == rs[0] || p in rs[1..];
    }
  }

  lemma {:induction false} LooksHas(rs: seq<Rid>)
    ensures forall r <- rs :: Acquire(Buffer(r)) in Looks(rs)
    ensures Release(Session) !in Looks(rs)
  {
    if rs != [] {
      LooksHas(rs[1..]);
      assert forall r <- rs :: r == rs[0] || r in rs[1..];
    }
  }

  /** Every call does its part under the lock meant for it. */
  lemma ScriptProtected(c: Call)
    ensures Protected(c, Script(c))
  {
    hide Protected, Script;
    match c {
      case ThroughReader(r) => ThroughReaderProtected(r);
      case DeadPort(r) => DeadPortProtected(r);
      case ReaderStop(r, f) => ReaderStopProtected(r, f);
      case CloseTyped(r, f) => CloseTypedProtected(r, f);
      case CloseTransport(r, f) => CloseTransportProtected(r, f);
      case ReaderStart(r) => ReaderStartProtected(r);
      case Status(rs) => StatusProtected(rs);
      case _ => OthersProtected(c);
    }
  }

  lemma OthersProtected(c: Call)
    requires c.Direct? || c.Refused? || c.Tail? || c.ReadUntil? || c.CloseSession?
    ensures Protected(c, Script(c))
  {
    hide Within;
    match c {
      case Refused => RefusedProtected();
      case CloseSession(stops) =>
        StopAllHas(stops);
        hide StopAll;
      case ReadUntil(r, polls) =>
        LooksHas(seq(polls, _ => r));
        assert polls > 0 ==> seq(polls, _ => r)[0] == r;
      case _ =>
    }
  }

  lemma RefusedProtected()
    ensures Protected(Refused, Script(Refused))
  {
    hide Within;
    TransferHas();
    Bracket([], Session, JOURNALED, [Release(Session)], Acquire(Sidecar));
    assert [] + [Acquire(Session)] == [Acquire(Session)];
  }

  lemma ReaderStartProtected(r: Rid)
    ensures Protected(ReaderStart(r), Script(ReaderStart(r)))
  {
    var mid, post := JOURNALED + [Spawn(r)], [Release(Session)] + Look(r);
    var s := [] + [Acquire(Session)] + mid + post;
    assert Script(ReaderStart(r)) == s;
    hide Within, Script;
    SpawnBracket(r, post);
  }

  lemma SpawnBracket(r: Rid, post: seq<Action>)
    requires Spawn(r) !in post && Acquire(Sidecar) !in post
    ensures var s := [] + [Acquire(Session)] + (JOURNALED + [Spawn(r)]) + post;
            Within(s, Session, Spawn(r)) && Within(s, Session, Acquire(Sidecar))
  {
    hide Within;
    TransferHas();
    Bracket([], Session, JOURNALED + [Spawn(r)], post, Spawn(r));
    Bracket([], Session, JOURNALED + [Spawn(r)], post, Acquire(Sidecar));
  }

  lemma StatusProtected(rs: seq<Rid>)
    ensures Protected(Status(rs), Script(Status(rs)))
  {
    hide Within, Looks;
    LooksHas(rs);
    forall r <- rs ensures Within(Script(Status(rs)), Session, Acquire(Buffer(r))) {
      Bracket([], Session, Looks(rs), [Release(Session)], Acquire(Buffer(r)));
      assert [] + [Acquire(Session)] + Looks(rs) + [Release(Session)] == Script(Status(rs));
    }
  }

  lemma DrainProtected(r: Rid, post: seq<Action>)
    requires forall a :: a in post ==> a != CheckStop(r) && a != Acquire(Sidecar)
    ensures UnderIoLock([Acquire(Io(r)), CheckStop(r)] + JOURNALED + post, r)
  {
    hide Within;
    TransferHas();
    var mid := [CheckStop(r)] + JOURNALED;
    Bracket([], Io(r), mid, post, CheckStop(r));
    Bracket([], Io(r), mid, post, Acquire(Sidecar));
    assert [Acquire(Io(r)), CheckStop(r)] + JOURNALED + post == [] + [Acquire(Io(r))] + mid + post;
  }

  /** A drain looks at the stop event and journals under its I/O lock, and buffers the bytes or ends the thread. */
  lemma TurnProtected(r: Rid, t: Turn)
    ensures var s := TurnScript(r, t);
            match t
            case Idle => s == []
            case PollFailed => Acquire(Sidecar) in s && Acquire(Io(r)) !in s
            case Drain => Acquire(Buffer(r)) in s && UnderIoLock(s, r)
            case DrainDead => Die(r) in s && UnderIoLock(s, r)
  {
    hide UnderIoLock;
    if t.Drain? || t.DrainDead? {
      var post := [Release(Io(r))] + if t.Drain? then Look(r) else [Die(r)];
      DrainProtected(r, post);
      assert TurnScript(r, t) == [Acquire(Io(r)), CheckStop(r)] + JOURNALED + post;
    }
  }

  predicate UnderIoLock(s: seq<Action>, r: Rid) {
    Within(s, Io(r), CheckStop(r)) && Within(s, Io(r), Acquire(Sidecar))
  }

  // --- the invariant ---

  ghost predicate Inv(s: State) {
    && (forall th :: th in s.threads ==> Ordered(s.threads[th].held, s.threads[th].todo))
    && (forall r :: Reader(r) in s.threads ==> ReaderOnly(r, s.threads[Reader(r)].todo))
    && (forall t :: Caller(t) in s.threads ==> CallerOnly(s.threads[Caller(t)].todo) && s.threads[Caller(t)].todo != [])
    && (forall a, b :: a in s.threads && b in s.threads && a != b ==> s.threads[a].held !! s.threads[b].held)
  }

  lemma RestOnly(r: Rid, todo: seq<Action>)
    requires todo != []
    ensures ReaderOnly(r, todo) ==> ReaderOnly(r, todo[1..])
    ensures CallerOnly(todo) ==> CallerOnly(todo[1..])
  {
    assert forall a :: a in todo[1..] ==> a in todo;
  }

  /** One thread moves to a proper new point of its program; everybody else stays put. */
  lemma MoveInv(s: State, th: Thread, p: Proc)
    requires Inv(s) && th in s.threads && Ordered(p.held, p.todo)
    requires th.Reader? ==> ReaderOnly(th.rid, p.todo)
    requires th.Caller? ==> CallerOnly(p.todo)
    requires forall g :: g in s.threads && g != th ==> s.threads[g].held !! p.held
    ensures Inv(Finish(s, th, p))
  {
  }

  lemma SpawnInv(s: State, r: Rid)
    requires Inv(s) && Reader(r) !in s.threads
    ensures Inv(s.(threads := s.threads[Reader(r) := Proc({}, [])]))
  {
  }

  lemma ActInv(s: State, th: Thread)
    requires Inv(s) && Enabled(s, Act(th))
    ensures Inv(Next(s, Act(th)))
  {
    var p := s.threads[th];
    var rest := p.todo[1..];
    RestOnly(if th.Reader? then th.rid else 0, p.todo);
    assert p.todo[0] in p.todo;
    match p.todo[0] {
      case Acquire(l) => MoveInv(s, th, Proc(p.held + {l}, rest));
      case Release(l) => MoveInv(s, th, Proc(p.held - {l}, rest));
      case Join(_) => MoveInv(s, th, Proc(p.held, rest));
      case Raise(r) =>
        var t := s.(stopped := s.stopped + {r});
        assert Inv(t);
        MoveInv(t, th, Proc(p.held, rest));
      case Spawn(r) =>
        if Reader(r) in s.threads {
          MoveInv(s, th, Proc(p.held, rest));
        } else {
          SpawnInv(s, r);
          MoveInv(s.(threads := s.threads[Reader(r) := Proc({}, [])]), th, Proc(p.held, rest));
        }
      case CheckStop(r) =>
        assert [Release(Io(r))][1..] == [] && p.held - {Io(r)} == {};
        MoveInv(s, th, Proc(p.held, if r in s.stopped then [Release(Io(r))] else rest));
      case Die(_) =>
    }
  }

  lemma StepInv(s: State, step: Step)
    requires Inv(s) && Enabled(s, step) && Legal(step)
    ensures Inv(Next(s, step))
  {
    match step
    case Act(th) => ActInv(s, th);
    case Begin(t, script) =>
      var c :| script == Script(c);
      ScriptOrdered(c);
    case Loop(r, turn) => TurnOrdered(r, turn);
  }

  lemma {:induction false} RunInv(s: State, steps: seq<Step>, end: State)
    requires Inv(s) && Run(s, steps, end) && forall i :: 0 <= i < |steps| ==> Legal(steps[i])
    ensures Inv(end)
    decreases steps
  {
    if steps != [] {
      StepInv(s, steps[0]);
      var rest := steps[1..];
      assert forall i :: 0 <= i < |rest| ==> rest[i] == steps[i + 1];
      RunInv(Next(s, steps[0]), rest, end);
    }
  }

  lemma ReachableInv(s: State)
    requires Reachable(s)
    ensures Inv(s)
  {
    var steps :| (forall i :: 0 <= i < |steps| ==> Legal(steps[i])) && Run(Init, steps, s);
    RunInv(Init, steps, s);
  }

  // --- no circular wait ---

  predicate Blocked(s: State, th: Thread) {
    th in s.threads && s.threads[th].todo != [] && !CanAct(s, th)
  }

  /** `other` keeps the blocked thread `th` waiting: it holds the lock, or it is the thread joined on. */
  predicate WaitsFor(s: State, th: Thread, other: Thread)
    requires Blocked(s, th)
  {
    && other in s.threads
    && match s.threads[th].todo[0]
       case Acquire(l) => l in s.threads[other].held
       case Join(r) => other == Reader(r)
       case _ => false
  }

  function WaitRank(s: State, th: Thread): nat
    requires Blocked(s, th)
  {
    match s.threads[th].todo[0]
    case Acquire(l) => Rank(l)
    case _ => JOIN_RANK
  }

  lemma SomeoneHolds(s: State, th: Thread) returns (other: Thread)
    requires Blocked(s, th)
    ensures WaitsFor(s, th, other)
  {
    match s.threads[th].todo[0]
    case Acquire(l) => other :| other in s.threads && l in s.threads[other].held;
    case Join(r) => other := Reader(r);
  }

  /** Waiting leads strictly upwards in the order. */
  lemma WaitGoesUp(s: State, th: Thread, other: Thread)
    requires Inv(s) && Blocked(s, th) && Blocked(s, other) && WaitsFor(s, th, other)
    ensures WaitRank(s, th) < WaitRank(s, other) <= 4
  {
    var a := s.threads[other].todo[0];
    assert a in s.threads[other].todo;
    match s.threads[th].todo[0]
    case Acquire(l) => assert l in s.threads[other].held;
    case Join(r) => assert ReaderOnly(r, s.threads[other].todo);
  }

  /** Among any blocked threads at least one waits for a thread outside that group. No circle of
      waiting threads exists, whatever callers, readers and joins are involved. */
  lemma {:induction false} NoCircularWaitFrom(s: State, group: set<Thread>, th: Thread) returns (a: Thread, b: Thread)
    requires Inv(s) && th in group && forall g :: g in group ==> Blocked(s, g)
    ensures a in group && WaitsFor(s, a, b) && b !in group
    decreases 5 - WaitRank(s, th)
  {
    var other := SomeoneHolds(s, th);
    if other in group {
      WaitGoesUp(s, th, other);
      a, b := NoCircularWaitFrom(s, group, other);
    } else {
      a, b := th, other;
    }
  }

  lemma NoCircularWait(s: State, group: set<Thread>)
    requires Reachable(s) && group != {} && forall g :: g in group ==> Blocked(s, g)
    ensures exists a, b :: a in group && WaitsFor(s, a, b) && b !in group
  {
    ReachableInv(s);
    var th :| th in group;
    var a, b := NoCircularWaitFrom(s, group, th);
  }

  // --- progress ---

  /** Every join in the program is behind its own stop, or waits for a reader told to stop already. */
  predicate Raised(stopped: set<Rid>, todo: seq<Action>)
    decreases todo
  {
    if todo == [] then true
    else
      match todo[0]
      case Join(r) => r in stopped && Raised(stopped, todo[1..])
      case Raise(r) => Raised(stopped + {r}, todo[1..])
      case _ => Raised(stopped, todo[1..])
  }

  lemma {:induction false} RaisedMore(stopped: set<Rid>, more: set<Rid>, todo: seq<Action>)
    requires Raised(stopped, todo) && stopped <= more
    ensures Raised(more, todo)
    decreases todo
  {
    if todo != [] {
      match todo[0]
      case Raise(r) => RaisedMore(stopped + {r}, more + {r}, todo[1..]);
      case _ => RaisedMore(stopped, more, todo[1..]);
    }
  }

  lemma {:induction false} RaisedAppend(stopped: set<Rid>, a: seq<Action>, b: seq<Action>)
    requires Raised(stopped, a) && Raised(stopped, b)
    ensures Raised(stopped, a + b)
    decreases a
  {
    if a == [] {
      assert a + b == b;
    } else {
      assert (a + b)[1..] == a[1..] + b;
      match a[0]
      case Raise(r) =>
        RaisedMore(stopped, stopped + {r}, b);
        RaisedAppend(stopped + {r}, a[1..], b);
      case _ => RaisedAppend(stopped, a[1..], b);
    }
  }

  predicate NoJoin(todo: seq<Action>) {
    forall a :: a in todo ==> !a.Join?
  }

  lemma {:induction false} NoJoinRaised(stopped: set<Rid>, todo: seq<Action>)
    requires NoJoin(todo)
    ensures Raised(stopped, todo)
    decreases todo
  {
    if todo != [] {
      assert forall a :: a in todo[1..] ==> a in todo;
      match todo[0]
      case Raise(r) => NoJoinRaised(stopped + {r}, todo[1..]);
      case _ => NoJoinRaised(stopped, todo[1..]);
    }
  }

  lemma {:induction false} JournalsOnly(n: nat)
    ensures forall a :: a in Journals(n) ==> a in JOURNALED && (a.Acquire? || a.Release?)
  {
    if n > 0 {
      JournalsOnly(n - 1);
    }
  }

  lemma StopRaised(r: Rid, f: nat)
    ensures Raised({}, StopReader(r, f))
  {
    var mid := Journals(f);
    JournalsOnly(f);
    NoJoinRaised({r}, mid);
    assert [Join(r)][1..] == [] && Raised({r}, [Join(r)]);
    RaisedAppend({r}, mid, [Join(r)]);
    assert StopReader(r, f)[1..] == mid + [Join(r)] && {} + {r} == {r};
  }

  /** A stop between programs without joins. */
  lemma StopBetween(before: seq<Action>, r: Rid, f: nat, after: seq<Action>, s: seq<Action>)
    requires NoJoin(before) && NoJoin(after) && s == before + StopReader(r, f) + after
    ensures Raised({}, s)
  {
    NoJoinRaised({}, before);
    NoJoinRaised({}, after);
    StopRaised(r, f);
    RaisedAppend({}, before, StopReader(r, f));
    RaisedAppend({}, before + StopReader(r, f), after);
  }

  lemma Regroup<T>(a: seq<T>, b: seq<T>, c: seq<T>, d: seq<T>)
    ensures a + b + c + d == a + ((b + c) + d)
  {
  }

  lemma {:induction false} StopAllRaised(rs: seq<(Rid, nat)>)
    ensures Raised({}, StopAll(rs))
  {
    if rs != [] {
      var stop, after := StopReader(rs[0].0, rs[0].1), Look(rs[0].0) + JOURNALED;
      StopRaised(rs[0].0, rs[0].1);
      NoJoinRaised({}, after);
      StopAllRaised(rs[1..]);
      RaisedAppend({}, after, StopAll(rs[1..]));
      RaisedAppend({}, stop, after + StopAll(rs[1..]));
      Regroup(stop, Look(rs[0].0), JOURNALED, StopAll(rs[1..]));
    }
  }

  lemma {:induction false} LooksOnly(rs: seq<Rid>)
    ensures forall a :: a in Looks(rs) ==> a.Acquire? || a.Release?
  {
    if rs != [] {
      LooksOnly(rs[1..]);
    }
  }

  lemma CloseRaised(c: Call)
    requires c.ReaderStop? || c.CloseTyped? || c.CloseTransport?
    ensures Raised({}, Script(c))
  {
    var after := match c
      case ReaderStop(r, f) => Look(r) + [Release(Session)] + JOURNALED
      case CloseTyped(r, f) => Look(r) + JOURNALED + JOURNALED + [Release(Session)]
      case CloseTransport(r, f) => Look(r) + JOURNALED + [Release(Session)] + JOURNALED;
    assert Script(c) == [Acquire(Session)] + StopReader(c.r, c.failures) + after;
    StopBetween([Acquire(Session)], c.r, c.failures, after, Script(c));
  }

  lemma CloseSessionRaised(rs: seq<(Rid, nat)>)
    ensures Raised({}, Script(CloseSession(rs)))
  {
    var last := JOURNALED + [Acquire(Journal), Release(Journal)];
    NoJoinRaised({}, GATE);
    NoJoinRaised({}, last);
    StopAllRaised(rs);
    RaisedAppend({}, GATE, StopAll(rs));
    RaisedAppend({}, GATE + StopAll(rs), last);
    assert Script(CloseSession(rs)) == GATE + StopAll(rs) + last;
  }

  lemma OtherRaised(c: Call)
    requires !c.ReaderStop? && !c.CloseTyped? && !c.CloseTransport? && !c.CloseSession?
    ensures Raised({}, Script(c))
  {
    match c {
      case Status(rs) => LooksOnly(rs);
      case ReadUntil(r, polls) => LooksOnly(seq(polls, _ => r));
      case _ =>
    }
    NoJoinRaised({}, Script(c));
  }

  lemma ScriptRaised(c: Call)
    ensures Raised({}, Script(c))
  {
    match c
    case CloseSession(rs) => CloseSessionRaised(rs);
    case ReaderStop(_, _) => CloseRaised(c);
    case CloseTyped(_, _) => CloseRaised(c);
    case CloseTransport(_, _) => CloseRaised(c);
    case _ => OtherRaised(c);
  }

  /** Whoever waits for a reader to end waits for one that has been told to. */
  ghost predicate JoinsRaised(s: State) {
    forall th :: th in s.threads ==> Raised(s.stopped, s.threads[th].todo)
  }

  lemma StepRaised(s: State, step: Step)
    requires JoinsRaised(s) && Enabled(s, step) && Legal(step)
    ensures JoinsRaised(Next(s, step))
  {
    match step
    case Begin(t, script) =>
      var c :| script == Script(c);
      ScriptRaised(c);
      RaisedMore({}, s.stopped, script);
    case Loop(r, turn) =>
      NoJoinRaised(s.stopped, TurnScript(r, turn));
    case Act(th) =>
      var a := s.threads[th].todo[0];
      if a.Raise? {
        forall g | g in s.threads ensures Raised(s.stopped + {a.reader}, s.threads[g].todo) {
          RaisedMore(s.stopped, s.stopped + {a.reader}, s.threads[g].todo);
        }
      } else if a.CheckStop? {
        NoJoinRaised(s.stopped, [Release(Io(a.reader))]);
      }
  }

  lemma {:induction false} RunRaised(s: State, steps: seq<Step>, end: State)
    requires JoinsRaised(s) && Run(s, steps, end) && forall i :: 0 <= i < |steps| ==> Legal(steps[i])
    ensures JoinsRaised(end)
    decreases steps
  {
    if steps != [] {
      StepRaised(s, steps[0]);
      var rest := steps[1..];
      assert forall i :: 0 <= i < |rest| ==> rest[i] == steps[i + 1];
      RunRaised(Next(s, steps[0]), rest, end);
    }
  }

  /** As long as some call is unfinished, or some reader in the middle of a turn, a thread can take the next step of its
      program, or a reader that has been told to stop can end. An idle reader's polling does not count. */
  lemma NoDeadlock(s: State, busy: Thread) returns (step: Step)
    requires Reachable(s) && busy in s.threads && (busy.Caller? || s.threads[busy].todo != [])
    ensures Enabled(s, step)
    ensures step.Act? || (step.Loop? && step.rid in s.stopped && Reader(step.rid) !in Next(s, step).threads)
  {
    ReachableInv(s);
    var steps :| (forall i :: 0 <= i < |steps| ==> Legal(steps[i])) && Run(Init, steps, s);
    RunRaised(Init, steps, s);
    step := Act(busy);
    if Blocked(s, busy) {
      var blocked := set g | g in s.threads && Blocked(s, g);
      var a, b := NoCircularWaitFrom(s, blocked, busy);
      step := if s.threads[b].todo == [] then Loop(b.rid, Idle) else Act(b);
    }
  }

  /** Whoever waits for the session lock holds no I/O lock. */
  lemma NoSessionWaitUnderIo(s: State, th: Thread, r: Rid)
    requires Reachable(s) && th in s.threads && s.threads[th].todo != []
    requires s.threads[th].todo[0] == Acquire(Session)
    ensures Io(r) !in s.threads[th].held
  {
    ReachableInv(s);
  }

  lemma LockIsExclusive(s: State, a: Thread, b: Thread, l: Lock)
    requires Reachable(s) && a in s.threads && b in s.threads
    requires l in s.threads[a].held && l in s.threads[b].held
    ensures a == b
  {
    ReachableInv(s);
  }

  /** A reader told to stop only gets closer to its end: its own steps shorten its turn, one that has not yet looked at
      the event does nothing more in that turn, and at the end of the turn it leaves. So a join waits for finitely many
      steps of it. */
  lemma StoppedReaderLeaves(s: State, r: Rid, step: Step)
    requires Reachable(s) && Enabled(s, step) && Legal(step) && Reader(r) in s.threads && r in s.stopped
    requires step == Act(Reader(r)) || (step.Loop? && step.rid == r)
    ensures var t := Next(s, step);
            Reader(r) !in t.threads || |t.threads[Reader(r)].todo| < |s.threads[Reader(r)].todo|
    ensures var t, before := Next(s, step), s.threads[Reader(r)].todo;
            before != [] && before[0].CheckStop? ==>
              Reader(r) in t.threads && forall a <- t.threads[Reader(r)].todo :: a.Release?
  {
    ReachableInv(s);
    if step.Act? {
      var p := s.threads[Reader(r)];
      assert p.todo[0] in p.todo;
      if p.todo[0].CheckStop? {
        assert Io(r) in p.held && Ordered(p.held, p.todo[1..]);
        assert p.todo[1..] != [];
      }
    }
  }

  // --- the order matters ---

  /** A write that takes the session lock inside the I/O lock. */
  function InvertedWrite(r: Rid): seq<Action> {
    [Acquire(Io(r)), Acquire(Session), Release(Session), Release(Io(r))]
  }

  /** Caller 2 takes the I/O lock first, the reader starts a drain, caller 1 stops the reader under the
      session lock; then caller 2 asks for the session lock. */
  const ORDER: seq<Step> := [
    Begin(1, STOP), Begin(2, InvertedWrite(0)), Act(Caller(2)), Loop(0, Drain), Act(Caller(1)), Act(Caller(1))]

  const STOP := Script(ReaderStop(0, 0))

  /** The state after the first `k` of these steps, from one idle reader on. */
  function After(k: nat): State
    requires k <= 6
  {
    var reader := Proc({}, if k < 4 then [] else TurnScript(0, Drain));
    var stopper := if k < 5 then Proc({}, STOP) else Proc({Session}, if k == 5 then STOP[1..] else STOP[1..][1..]);
    var writer := if k < 3 then Proc({}, InvertedWrite(0)) else Proc({Io(0)}, InvertedWrite(0)[1..]);
    State(
      if k == 0 then map[Reader(0) := reader]
      else if k == 1 then map[Reader(0) := reader, Caller(1) := stopper]
      else map[Reader(0) := reader, Caller(1) := stopper, Caller(2) := writer],
      if k < 6 then {} else {0}, {0})
  }

  lemma StopScript()
    ensures |STOP| > 3 && STOP[0] == Acquire(Session) && STOP[1] == Raise(0) && STOP[2] == Join(0)
  {
  }

  lemma OrderStep(k: nat)
    requires k < 6
    ensures Enabled(After(k), ORDER[k]) && Next(After(k), ORDER[k]) == After(k + 1)
  {
    hide Started, TurnScript, Script;
    StopScript();
    assert {} + {Io(0)} == {Io(0)} && {} + {Session} == {Session};
    assert STOP[1..][0] == Raise(0) && |InvertedWrite(0)[1..]| == 3;
    StartsNone();
    var t, end := Next(After(k), ORDER[k]), After(k + 1);
    assert t.threads.Keys == end.threads.Keys;
    forall th | th in t.threads ensures t.threads[th] == end.threads[th] {}
    assert t.threads == end.threads;
    assert t.stopped == end.stopped && t.known == end.known;
  }

  lemma StartsNone()
    ensures Started(STOP) == {} && Started(InvertedWrite(0)) == {}
  {
  }

  lemma {:induction false} OrderRuns(k: nat)
    requires k <= 6
    ensures Run(After(k), ORDER[k..], After(6))
    decreases 6 - k
  {
    if k < 6 {
      OrderStep(k);
      OrderRuns(k + 1);
      assert ORDER[k..][1..] == ORDER[k + 1..];
    }
  }

  /** With that write, a stop and a drain, three threads wait for each other in a circle. */
  lemma InvertedOrderDeadlocks()
    ensures Run(After(0), ORDER, After(6))
    ensures After(0) == State(map[Reader(0) := Proc({}, [])], {}, {0})
    ensures forall step :: step in ORDER ==> Legal(step) || step == Begin(2, InvertedWrite(0))
    ensures After(6).threads.Keys == {Caller(1), Caller(2), Reader(0)}
    ensures Blocked(After(6), Caller(1)) && WaitsFor(After(6), Caller(1), Reader(0))
    ensures Blocked(After(6), Reader(0)) && WaitsFor(After(6), Reader(0), Caller(2))
    ensures Blocked(After(6), Caller(2)) && WaitsFor(After(6), Caller(2), Caller(1))
  {
    OrderRuns(0);
    assert ORDER[0..] == ORDER;
    StopScript();
    var end := After(6);
    assert Io(0) in end.threads[Caller(2)].held && Session in end.threads[Caller(1)].held;
    assert Legal(Begin(1, STOP));
  }
}
