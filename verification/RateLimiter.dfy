/** The fixed-window rate limiter, measured against any interval of the window's length rather than its own windows. */
module RateLimiter {
  import opened Sequences

  datatype Window = Window(start: Option<real>, used: nat)

  const FRESH: Window := Window(None, 0)

  /** One call at time `now`: the window it falls into with the call counted, and whether the call may go ahead. */
  function Called(w: Window, now: real, maxCalls: int, per: real): (Window, bool) {
    var current := if w.start.None? || now - w.start.value >= per then Window(Some(now), 0) else w;
    (current.(used := current.used + 1), current.used + 1 <= maxCalls)
  }

  class Limiter {
    const maxCalls: int
    const per: real
    var windowStart: Option<real>
    var used: nat

    constructor (maxCalls: int, per: real)
      ensures this.maxCalls == maxCalls && this.per == per && State() == FRESH
    {
      this.maxCalls, this.per := maxCalls, per;
      windowStart, used := None, 0;
    }

    function State(): Window
      reads this
    {
      Window(windowStart, used)
    }

    method Acquire(now: real) returns (ok: bool)
      modifies this
      ensures (State(), ok) == Called(old(State()), now, maxCalls, per)
    {
      if windowStart == None || now - windowStart.value >= per {
        windowStart := Some(now);
        used := 0;
      }
      used := used + 1;
      ok := used <= maxCalls;
    }
  }

  // --- whole runs ---

  predicate Ordered(times: seq<real>) {
    forall i, j :: 0 <= i < j < |times| ==> times[i] <= times[j]
  }

  /** The times of the calls that were let through. */
  function Granted(w: Window, times: seq<real>, maxCalls: int, per: real): seq<real>
    decreases |times|
  {
    if times == [] then []
    else
      var (next, ok) := Called(w, times[0], maxCalls, per);
      (if ok then [times[0]] else []) + Granted(next, times[1..], maxCalls, per)
  }

  /** How many of `times` lie in the interval from `a` to `b`, the end included or not. */
  function Count(times: seq<real>, a: real, b: real, closed: bool): nat {
    if times == [] then 0
    else (if Inside(times[0], a, b, closed) then 1 else 0) + Count(times[1..], a, b, closed)
  }

  predicate Inside(t: real, a: real, b: real, closed: bool) {
    a <= t && (t < b || (closed && t == b))
  }

  lemma {:induction false} CountAppend(s: seq<real>, t: seq<real>, a: real, b: real, closed: bool)
    ensures Count(s + t, a, b, closed) == Count(s, a, b, closed) + Count(t, a, b, closed)
  {
    if s == [] {
      assert s + t == t;
    } else {
      assert (s + t)[1..] == s[1..] + t;
      CountAppend(s[1..], t, a, b, closed);
    }
  }

  function Min(a: int, b: int): int {
    if a < b then a else b
  }

  /** How many calls an interval of window length may hold. */
  function Most(maxCalls: int, closed: bool): int {
    if maxCalls < 1 then 0 else if closed then 2 * maxCalls else 2 * maxCalls - 1
  }

  /** How many calls may already count towards the interval from `a`, by where the current window starts:
      a window that began before `a` has spent its first call outside the interval. */
  function Budget(start: real, granted: int, a: real, maxCalls: int, per: real, closed: bool): int {
    if maxCalls < 1 then 0
    else if start < a then granted - 1
    else if start == a then (if closed then granted else maxCalls - 1 + granted)
    else if start < a + per then maxCalls - 1 + granted
    else if start == a + per && closed then maxCalls + granted
    else Most(maxCalls, closed)
  }

  predicate Within(w: Window, last: real, c: nat, a: real, maxCalls: int, per: real, closed: bool) {
    match w.start
    case None => c == 0
    case Some(start) =>
      w.used >= 1 && start <= last < start + per && (c > 0 ==> last >= a)
      && c <= Budget(start, Min(w.used, maxCalls), a, maxCalls, per, closed)
  }

  lemma CallWithin(w: Window, last: real, now: real, c: nat, a: real, maxCalls: int, per: real, closed: bool)
    requires per > 0.0 && Within(w, last, c, a, maxCalls, per, closed) && (w.start.Some? ==> last <= now)
    ensures var (next, ok) := Called(w, now, maxCalls, per);
            Within(next, now, c + if ok && Inside(now, a, a + per, closed) then 1 else 0, a, maxCalls, per, closed)
  {
  }

  lemma {:induction false} RunWithin(
      w: Window, last: real, times: seq<real>, c: nat, a: real, maxCalls: int, per: real, closed: bool)
    requires per > 0.0 && Ordered(times) && (times != [] && w.start.Some? ==> last <= times[0])
    requires Within(w, last, c, a, maxCalls, per, closed)
    ensures c + Count(Granted(w, times, maxCalls, per), a, a + per, closed) <= Most(maxCalls, closed)
    decreases |times|
  {
    if times != [] {
      var (next, ok) := Called(w, times[0], maxCalls, per);
      var c' := c + if ok && Inside(times[0], a, a + per, closed) then 1 else 0;
      CallWithin(w, last, times[0], c, a, maxCalls, per, closed);
      RunWithin(next, times[0], times[1..], c', a, maxCalls, per, closed);
      var one, later := [times[0]], Granted(next, times[1..], maxCalls, per);
      assert (one + later)[1..] == later && [] + later == later;
    }
  }

  /** Whatever the calls: no interval of window length holds more than twice the limit, and one less than that
      if its end does not belong to it. */
  lemma IntervalBound(times: seq<real>, a: real, maxCalls: int, per: real, closed: bool)
    requires per > 0.0 && Ordered(times)
    ensures Count(Granted(FRESH, times, maxCalls, per), a, a + per, closed) <= Most(maxCalls, closed)
  {
    RunWithin(FRESH, 0.0, times, 0, a, maxCalls, per, closed);
  }

  // --- the bound is attained ---

  function Repeat(t: real, n: nat): seq<real> {
    if n == 0 then [] else [t] + Repeat(t, n - 1)
  }

  lemma {:induction false} RepeatOrdered(s: seq<real>, t: real, n: nat)
    requires Ordered(s) && forall i :: 0 <= i < |s| ==> s[i] <= t
    ensures Ordered(s + Repeat(t, n)) && forall i :: 0 <= i < |s + Repeat(t, n)| ==> (s + Repeat(t, n))[i] <= t
    decreases n
  {
    if n == 0 {
      assert s + Repeat(t, n) == s;
    } else {
      RepeatOrdered(s + [t], t, n - 1);
      assert s + [t] + Repeat(t, n - 1) == s + Repeat(t, n);
    }
  }

  lemma {:induction false} CountRepeat(t: real, n: nat, a: real, b: real, closed: bool)
    ensures Count(Repeat(t, n), a, b, closed) == if Inside(t, a, b, closed) then n else 0
  {
    if n > 0 {
      assert ([t] + Repeat(t, n - 1))[1..] == Repeat(t, n - 1);
      CountRepeat(t, n - 1, a, b, closed);
    }
  }

  lemma GrantedStep(w: Window, t: real, rest: seq<real>, maxCalls: int, per: real)
    requires Called(w, t, maxCalls, per).1
    ensures Granted(w, [t] + rest, maxCalls, per) == [t] + Granted(Called(w, t, maxCalls, per).0, rest, maxCalls, per)
  {
    assert ([t] + rest)[1..] == rest;
  }

  /** A burst inside an open window that still has room for all of it goes through whole. */
  lemma {:induction false} BurstGranted(
      start: real, used: nat, t: real, n: nat, rest: seq<real>, maxCalls: int, per: real)
    requires used + n <= maxCalls && t - start < per
    ensures Granted(Window(Some(start), used), Repeat(t, n) + rest, maxCalls, per)
            == Repeat(t, n) + Granted(Window(Some(start), used + n), rest, maxCalls, per)
    decreases n
  {
    var w, later := Window(Some(start), used), Granted(Window(Some(start), used + n), rest, maxCalls, per);
    if n == 0 {
      assert Repeat(t, n) + rest == rest && Repeat(t, n) + later == later;
    } else {
      assert Repeat(t, n) + rest == [t] + (Repeat(t, n - 1) + rest);
      GrantedStep(w, t, Repeat(t, n - 1) + rest, maxCalls, per);
      BurstGranted(start, used + 1, t, n - 1, rest, maxCalls, per);
      assert [t] + (Repeat(t, n - 1) + later) == Repeat(t, n) + later;
    }
  }

  /** A burst that opens a window. */
  lemma {:induction false} BurstOpens(w: Window, t: real, n: nat, rest: seq<real>, maxCalls: int, per: real)
    requires 1 <= n <= maxCalls && per > 0.0 && (w.start.None? || t - w.start.value >= per)
    ensures Granted(w, Repeat(t, n) + rest, maxCalls, per)
            == Repeat(t, n) + Granted(Window(Some(t), n), rest, maxCalls, per)
  {
    var one, more := [t], Repeat(t, n - 1);
    assert Repeat(t, n) == one + more && Repeat(t, n) + rest == one + (more + rest);
    GrantedStep(w, t, more + rest, maxCalls, per);
    BurstGranted(t, 1, t, n - 1, rest, maxCalls, per);
    var later := Granted(Window(Some(t), n), rest, maxCalls, per);
    assert one + (more + later) == Repeat(t, n) + later;
  }

  /** One call opens a window, the rest of it comes just before its end, and the next window starts full. */
  function Straddle(maxCalls: nat, per: real): seq<real>
    requires maxCalls >= 1
  {
    [0.0] + Repeat(per / 2.0, maxCalls - 1) + Repeat(per, maxCalls)
  }

  lemma StraddleGranted(maxCalls: nat, per: real)
    requires maxCalls >= 1 && per > 0.0
    ensures Ordered(Straddle(maxCalls, per))
    ensures Granted(FRESH, Straddle(maxCalls, per), maxCalls, per) == Straddle(maxCalls, per)
  {
    var first, late, next := [0.0], Repeat(per / 2.0, maxCalls - 1), Repeat(per, maxCalls);
    RepeatOrdered(first, per / 2.0, maxCalls - 1);
    RepeatOrdered(first + late, per, maxCalls);
    assert next + [] == next && first + late + next == first + (late + next);
    hide Repeat, Ordered;
    GrantedStep(FRESH, 0.0, late + next, maxCalls, per);
    BurstGranted(0.0, 1, per / 2.0, maxCalls - 1, next, maxCalls, per);
    BurstOpens(Window(Some(0.0), maxCalls), per, maxCalls, [], maxCalls, per);
  }

  lemma HalfOpenAttained(maxCalls: nat, per: real)
    requires maxCalls >= 1 && per > 0.0
    ensures Ordered(Straddle(maxCalls, per))
    ensures Count(Granted(FRESH, Straddle(maxCalls, per), maxCalls, per), per / 2.0, per / 2.0 + per, false)
            == 2 * maxCalls - 1
  {
    var a := per / 2.0;
    StraddleGranted(maxCalls, per);
    CountAppend([0.0] + Repeat(a, maxCalls - 1), Repeat(per, maxCalls), a, a + per, false);
    CountAppend([0.0], Repeat(a, maxCalls - 1), a, a + per, false);
    CountRepeat(a, maxCalls - 1, a, a + per, false);
    CountRepeat(per, maxCalls, a, a + per, false);
  }

  /** The accepted calls of a run in the half-open interval of window length from `a` on. */
  function AcceptedFrom(times: seq<real>, a: real, maxCalls: nat, per: real): nat {
    Count(Granted(FRESH, times, maxCalls, per), a, a + per, false)
  }

  ghost predicate KeepsLimit(maxCalls: nat, per: real) {
    forall times, a | Ordered(times) :: AcceptedFrom(times, a, maxCalls, per) <= maxCalls
  }

  /** "At most the limit in any interval of window length" holds of all runs exactly for limits up to one. */
  lemma KeepsLimitExactly(maxCalls: nat, per: real)
    requires per > 0.0
    ensures KeepsLimit(maxCalls, per) <==> maxCalls <= 1
  {
    if maxCalls <= 1 {
      forall times, a | Ordered(times) ensures AcceptedFrom(times, a, maxCalls, per) <= maxCalls {
        IntervalBound(times, a, maxCalls, per, false);
      }
    } else {
      HalfOpenAttained(maxCalls, per);
      assert AcceptedFrom(Straddle(maxCalls, per), per / 2.0, maxCalls, per) > maxCalls;
    }
  }

  lemma ClosedAttained(maxCalls: nat, per: real) returns (times: seq<real>)
    requires maxCalls >= 1 && per > 0.0
    ensures Ordered(times)
    ensures Count(Granted(FRESH, times, maxCalls, per), 0.0, per, true) == 2 * maxCalls
  {
    var first, next := Repeat(0.0, maxCalls), Repeat(per, maxCalls);
    times := first + (next + []);
    assert Granted(Window(Some(per), maxCalls), [], maxCalls, per) == [] && Count([], 0.0, per, true) == 0;
    hide Repeat, Granted, Count, Ordered;
    BurstOpens(FRESH, 0.0, maxCalls, next + [], maxCalls, per);
    BurstOpens(Window(Some(0.0), maxCalls), per, maxCalls, [], maxCalls, per);
    CountAppend(first, next + [], 0.0, per, true);
    CountAppend(next, [], 0.0, per, true);
    CountRepeat(0.0, maxCalls, 0.0, per, true);
    CountRepeat(per, maxCalls, 0.0, per, true);
    RepeatOrdered([], 0.0, maxCalls);
    assert [] + first == first;
    RepeatOrdered(first, per, maxCalls);
    assert times == first + next;
  }

  // --- refusals ---

  /** The window after a run of calls. */
  function After(w: Window, times: seq<real>, maxCalls: int, per: real): Window
    decreases |times|
  {
    if times == [] then w else After(Called(w, times[0], maxCalls, per).0, times[1..], maxCalls, per)
  }

  predicate AtMost(times: seq<real>, b: real) {
    forall i :: 0 <= i < |times| ==> times[i] <= b
  }

  lemma {:induction false} CountNone(times: seq<real>, a: real, b: real)
    requires forall i :: 0 <= i < |times| ==> times[i] < a
    ensures Count(times, a, b, true) == 0
  {
    if times != [] {
      CountNone(times[1..], a, b);
    }
  }

  /** What the current window has let through so far: `granted` in front of it, `b` behind everything. */
  predicate Holds(w: Window, last: real, granted: seq<real>, b: real, maxCalls: nat, per: real) {
    AtMost(granted, last)
    && match w.start
       case None => w.used == 0 && granted == []
       case Some(start) => start <= last < start + per && Count(granted, start, b, true) == Min(w.used, maxCalls)
  }

  lemma CallHolds(w: Window, last: real, granted: seq<real>, now: real, b: real, maxCalls: nat, per: real)
    requires per > 0.0 && Holds(w, last, granted, b, maxCalls, per) && (w.start.Some? ==> last <= now) && now <= b
    ensures var (next, ok) := Called(w, now, maxCalls, per);
            Holds(next, now, granted + if ok then [now] else [], b, maxCalls, per)
  {
    var (next, ok) := Called(w, now, maxCalls, per);
    var one := if ok then [now] else [];
    if next.start != w.start {
      CountNone(granted, now, b);
    }
    CountAppend(granted, one, next.start.value, b, true);
    assert Count(one, next.start.value, b, true) == |one|;
  }

  /** The calls counted by the current window, and only they, were let through since its start, up to the limit. */
  lemma {:induction false} WindowIsGranted(
      w: Window, last: real, times: seq<real>, granted: seq<real>, b: real, maxCalls: nat, per: real)
    requires per > 0.0 && Ordered(times) && AtMost(times, b)
    requires (times != [] && w.start.Some? ==> last <= times[0]) && Holds(w, last, granted, b, maxCalls, per)
    ensures var end, all := After(w, times, maxCalls, per), granted + Granted(w, times, maxCalls, per);
            end.start.Some? ==> Count(all, end.start.value, b, true) == Min(end.used, maxCalls)
    decreases |times|
  {
    if times == [] {
      assert granted + [] == granted;
    } else {
      var (next, ok) := Called(w, times[0], maxCalls, per);
      var one, later := if ok then [times[0]] else [], Granted(next, times[1..], maxCalls, per);
      CallHolds(w, last, granted, times[0], b, maxCalls, per);
      WindowIsGranted(next, times[0], times[1..], granted + one, b, maxCalls, per);
      assert granted + one + later == granted + (one + later);
    }
  }

  /** At any time, no more than the limit has been let through since the current window's start. */
  lemma WindowBound(times: seq<real>, b: real, maxCalls: nat, per: real)
    requires per > 0.0 && Ordered(times) && AtMost(times, b) && times != []
    ensures var end := After(FRESH, times, maxCalls, per);
            end.start.Some? && Count(Granted(FRESH, times, maxCalls, per), end.start.value, b, true) <= maxCalls
  {
    WindowIsGranted(FRESH, times[0], times, [], b, maxCalls, per);
    assert [] + Granted(FRESH, times, maxCalls, per) == Granted(FRESH, times, maxCalls, per);
    Started(FRESH, times, maxCalls, per);
  }

  lemma {:induction false} Started(w: Window, times: seq<real>, maxCalls: nat, per: real)
    requires w.start.Some? || times != []
    ensures After(w, times, maxCalls, per).start.Some?
    decreases |times|
  {
    if times != [] {
      Started(Called(w, times[0], maxCalls, per).0, times[1..], maxCalls, per);
    }
  }

  /** No call is refused for nothing: less than one window before it, exactly the whole limit was let through. */
  lemma RefusalIsEarned(times: seq<real>, now: real, maxCalls: nat, per: real)
    requires per > 0.0 && Ordered(times) && AtMost(times, now)
    requires !Called(After(FRESH, times, maxCalls, per), now, maxCalls, per).1
    ensures maxCalls == 0
            || exists a :: now - per < a && Count(Granted(FRESH, times, maxCalls, per), a, now, true) == maxCalls
  {
    var end := After(FRESH, times, maxCalls, per);
    WindowIsGranted(FRESH, if times == [] then now else times[0], times, [], now, maxCalls, per);
    assert [] + Granted(FRESH, times, maxCalls, per) == Granted(FRESH, times, maxCalls, per);
    if maxCalls > 0 {
      assert Count(Granted(FRESH, times, maxCalls, per), end.start.value, now, true) == maxCalls;
    }
  }
}
