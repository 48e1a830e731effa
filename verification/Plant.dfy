/** The closed loop of a first-order plant and a controller, over exact reals: what is logged, where the output can go,
    and when it counts as settled. The factor exp(-dt/T) is a number `decay` between 0 and 1. */
module Plant {
  import opened Sequences

  const SLACK: real := 0.000000001

  datatype Change = Change(at: real, ambient: real)

  /** One run's parameters; `changes` in the order the loop goes through them. */
  datatype Spec = Spec(
    gain: real, decay: real, ambient: real, y0: real, dt: real, uMin: real, uMax: real, setpoint: real,
    changes: seq<Change>)

  /** What the controller hands back at one step. */
  datatype Reply = Number(value: real) | NotANumber | Crash

  datatype Row = Row(t: real, setpoint: real, y: real, u: real)

  datatype End = Done | CrashedAt(k: nat) | NotANumberAt(k: nat)

  /** What a task file is checked for before a run. */
  predicate Valid(s: Spec) {
    0.0 < s.decay < 1.0 && s.gain > 0.0 && s.dt > 0.0 && s.uMin < s.uMax
    && forall i, j :: 0 <= i < j < |s.changes| ==> s.changes[i].at <= s.changes[j].at
  }

  // --- one step ---

  function Target(s: Spec, u: real, ambient: real): real {
    ambient + s.gain * u
  }

  function Step(y: real, target: real, decay: real): real {
    target + (y - target) * decay
  }

  function Times(a: real, b: real): real {
    a * b
  }

  lemma Shrinks(x: real, d: real)
    requires 0.0 < d < 1.0
    ensures x > 0.0 ==> 0.0 < Times(x, d) < x
    ensures x < 0.0 ==> x < Times(x, d) < 0.0
  {
    if x > 0.0 {
      assert x * (1.0 - d) > 0.0;
    } else if x < 0.0 {
      assert (-x) * (1.0 - d) > 0.0 && (-x) * d > 0.0;
    }
  }

  /** One step never reaches its target from afar and never passes it, however long it is. */
  lemma StepApproaches(y: real, target: real, decay: real)
    requires 0.0 < decay < 1.0
    ensures y < target ==> y < Step(y, target, decay) < target
    ensures y > target ==> target < Step(y, target, decay) < y
    ensures y == target ==> Step(y, target, decay) == target
  {
    Shrinks(y - target, decay);
    assert Step(y, target, decay) == target + Times(y - target, decay);
  }

  function Pow(d: real, n: nat): real {
    if n == 0 then 1.0 else d * Pow(d, n - 1)
  }

  function Hold(y: real, target: real, decay: real, n: nat): real {
    if n == 0 then y else Step(Hold(y, target, decay, n - 1), target, decay)
  }

  /** Splitting a step multiplies the decays and leads to the same place. */
  lemma StepSplits(y: real, target: real, d: real, e: real)
    ensures Step(Step(y, target, d), target, e) == Step(y, target, d * e)
  {
    assert (y - target) * d * e == (y - target) * (d * e);
  }

  lemma {:induction false} HoldIsOneLongStep(y: real, target: real, decay: real, n: nat)
    ensures Hold(y, target, decay, n) == Step(y, target, Pow(decay, n))
  {
    if n > 0 {
      HoldIsOneLongStep(y, target, decay, n - 1);
      StepSplits(y, target, Pow(decay, n - 1), decay);
    }
  }

  // --- the loop ---

  predicate Due(c: Change, t: real) {
    t >= c.at - SLACK
  }

  /** The ambient of the last change that is due, looked up afresh. */
  function AmbientAt(s: Spec, t: real): real {
    LastDue(s.changes, t, s.ambient)
  }

  function LastDue(changes: seq<Change>, t: real, ambient: real): real {
    if changes == [] then ambient
    else if Due(changes[|changes| - 1], t) then changes[|changes| - 1].ambient
    else LastDue(changes[..|changes| - 1], t, ambient)
  }

  lemma {:induction false} DuePrefix(changes: seq<Change>, n: nat, t: real, ambient: real)
    requires n <= |changes|
    requires forall i :: 0 <= i < n ==> Due(changes[i], t)
    requires forall i :: n <= i < |changes| ==> !Due(changes[i], t)
    ensures LastDue(changes, t, ambient) == if n == 0 then ambient else changes[n - 1].ambient
  {
    if n < |changes| {
      DuePrefix(changes[..|changes| - 1], n, t, ambient);
    }
  }

  function Clamp(s: Spec, raw: real): (u: real)
    ensures s.uMin <= s.uMax ==> s.uMin <= u <= s.uMax
    ensures s.uMin <= raw <= s.uMax ==> u == raw
    ensures s.uMin <= s.uMax ==> (raw < s.uMin ==> u == s.uMin) && (raw > s.uMax ==> u == s.uMax)
  {
    var low := if raw < s.uMin then s.uMin else raw;
    if low > s.uMax then s.uMax else low
  }

  /** The ambient is the run's own before the first change is due, and then that of the last change due, a nanosecond
      early at most. */
  lemma AmbientTells(s: Spec, t: real, n: nat)
    requires Valid(s) && n <= |s.changes|
    requires forall i :: 0 <= i < n ==> t >= s.changes[i].at - 0.000000001
    requires n < |s.changes| ==> t < s.changes[n].at - 0.000000001
    ensures AmbientAt(s, t) == if n == 0 then s.ambient else s.changes[n - 1].ambient
  {
    DuePrefix(s.changes, n, t, s.ambient);
  }

  /** Under one control and one ambient the output rests exactly where the ambient is shifted by gain times control. */
  lemma Equilibrium(s: Spec, u: real, ambient: real, y: real)
    requires Valid(s)
    ensures Step(y, Target(s, u, ambient), s.decay) == y <==> y == ambient + s.gain * u
  {
    StepApproaches(y, Target(s, u, ambient), s.decay);
  }

  /** Sample k is taken at k * dt, its control is the clamped reply, and its output follows from the sample before it
      under the ambient that was due then. */
  predicate Follows(s: Spec, rows: seq<Row>, replies: seq<Reply>, k: nat)
    requires |rows| <= |replies| && k < |rows|
  {
    rows[k].t == k as real * s.dt && rows[k].setpoint == s.setpoint
    && replies[k].Number? && rows[k].u == Clamp(s, replies[k].value)
    && rows[k].y == if k == 0 then s.y0 else After(s, rows[k - 1])
  }

  function After(s: Spec, row: Row): real {
    Step(row.y, Target(s, row.u, AmbientAt(s, row.t)), s.decay)
  }

  predicate Logged(s: Spec, rows: seq<Row>, replies: seq<Reply>) {
    |rows| <= |replies| && forall k :: 0 <= k < |rows| ==> Follows(s, rows, replies, k)
  }

  /** What a logged row says: the sample's time, the setpoint, the reply moved to the nearer limit, and an output that
      starts at `y0` and goes towards ambient plus gain times control. */
  lemma LoggedTells(s: Spec, rows: seq<Row>, replies: seq<Reply>, k: nat)
    requires Valid(s) && Logged(s, rows, replies) && k < |rows|
    ensures rows[k].t == k as real * s.dt && rows[k].setpoint == s.setpoint && replies[k].Number?
    ensures rows[k].u == var raw := replies[k].value;
                         if raw < s.uMin then s.uMin else if raw > s.uMax then s.uMax else raw
    ensures rows[k].y == if k == 0 then s.y0
                         else Step(rows[k - 1].y, AmbientAt(s, rows[k - 1].t) + s.gain * rows[k - 1].u, s.decay)
  {
    assert Follows(s, rows, replies, k);
  }

  lemma LoggedExtends(s: Spec, rows: seq<Row>, row: Row, replies: seq<Reply>)
    requires Logged(s, rows, replies) && |rows| < |replies| && Follows(s, rows + [row], replies, |rows|)
    ensures Logged(s, rows + [row], replies)
  {
    forall k | 0 <= k < |rows| + 1 ensures Follows(s, rows + [row], replies, k) {
      assert k < |rows| ==> Follows(s, rows, replies, k);
    }
  }

  /** Runs one sample per reply; the first reply that is no number ends the run. */
  method RunClosedLoop(s: Spec, replies: seq<Reply>) returns (rows: seq<Row>, end: End)
    requires Valid(s)
    ensures Logged(s, rows, replies)
    ensures end.Done? ==> |rows| == |replies|
    ensures !end.Done? ==>
              |rows| < |replies| && !replies[|rows|].Number?
              && end == if replies[|rows|].Crash? then CrashedAt(|rows|) else NotANumberAt(|rows|)
  {
    var y, ambient := s.y0, s.ambient;
    var ei: nat := 0;
    rows := [];
    var k := 0;
    while k < |replies|
      invariant k <= |replies| && |rows| == k && Logged(s, rows, replies)
      invariant y == if k == 0 then s.y0 else After(s, rows[k - 1])
      invariant ei <= |s.changes| && ambient == if ei == 0 then s.ambient else s.changes[ei - 1].ambient
      invariant forall i :: 0 <= i < ei ==> Due(s.changes[i], k as real * s.dt)
    {
      var t := k as real * s.dt;
      while ei < |s.changes| && Due(s.changes[ei], t)
        invariant ei <= |s.changes| && ambient == if ei == 0 then s.ambient else s.changes[ei - 1].ambient
        invariant forall i :: 0 <= i < ei ==> Due(s.changes[i], t)
      {
        ambient := s.changes[ei].ambient;
        ei := ei + 1;
      }
      DuePrefix(s.changes, ei, t, s.ambient);
      match replies[k] {
        case Crash => return rows, CrashedAt(k);
        case NotANumber => return rows, NotANumberAt(k);
        case Number(raw) =>
          var u := Clamp(s, raw);
          ghost var before := rows;
          rows := rows + [Row(t, s.setpoint, y, u)];
          LoggedExtends(s, before, rows[k], replies);
          y := Step(y, Target(s, u, ambient), s.decay);
      }
      k := k + 1;
      assert k as real * s.dt == t + s.dt;
    }
    end := Done;
  }

  // --- where the output can go ---

  predicate Bounds(s: Spec, low: real, high: real) {
    low <= s.y0 <= high && Reaches(s, s.ambient, low, high)
    && forall i :: 0 <= i < |s.changes| ==> Reaches(s, s.changes[i].ambient, low, high)
  }

  predicate Reaches(s: Spec, ambient: real, low: real, high: real) {
    low <= Target(s, s.uMin, ambient) && Target(s, s.uMax, ambient) <= high
  }

  lemma {:induction false} AmbientBounds(s: Spec, changes: seq<Change>, t: real, low: real, high: real)
    requires Reaches(s, s.ambient, low, high)
    requires forall i :: 0 <= i < |changes| ==> Reaches(s, changes[i].ambient, low, high)
    ensures Reaches(s, LastDue(changes, t, s.ambient), low, high)
  {
    if changes != [] {
      AmbientBounds(s, changes[..|changes| - 1], t, low, high);
    }
  }

  lemma TargetBounds(s: Spec, u: real, ambient: real, low: real, high: real)
    requires s.gain > 0.0 && s.uMin <= u <= s.uMax && Reaches(s, ambient, low, high)
    ensures low <= Target(s, u, ambient) <= high
  {
    assert s.gain * (u - s.uMin) >= 0.0 && s.gain * (s.uMax - u) >= 0.0;
  }

  lemma StepBounds(y: real, target: real, decay: real, low: real, high: real)
    requires 0.0 < decay < 1.0 && low <= y <= high && low <= target <= high
    ensures low <= Step(y, target, decay) <= high
  {
    StepApproaches(y, target, decay);
  }

  lemma AfterBounds(s: Spec, row: Row, low: real, high: real)
    requires Valid(s) && Bounds(s, low, high) && low <= row.y <= high && s.uMin <= row.u <= s.uMax
    ensures low <= After(s, row) <= high
  {
    var ambient := AmbientAt(s, row.t);
    AmbientBounds(s, s.changes, row.t, low, high);
    TargetBounds(s, row.u, ambient, low, high);
    StepBounds(row.y, Target(s, row.u, ambient), s.decay, low, high);
  }

  /** Whatever the controller does, the output stays between the start and the farthest targets its limits can set,
      under all ambients the run can have. */
  lemma {:induction false} StaysInHull(s: Spec, rows: seq<Row>, replies: seq<Reply>, low: real, high: real, k: nat)
    requires Valid(s) && Bounds(s, low, high) && Logged(s, rows, replies) && k < |rows|
    ensures low <= rows[k].y <= high && s.uMin <= rows[k].u <= s.uMax
    decreases k
  {
    assert Follows(s, rows, replies, k);
    if k > 0 {
      StaysInHull(s, rows, replies, low, high, k - 1);
      AfterBounds(s, rows[k - 1], low, high);
    }
  }

  // --- metrics ---

  function Abs(x: real): real {
    if x < 0.0 then -x else x
  }

  predicate InBand(r: Row, setpoint: real, band: real) {
    Abs(r.y - setpoint) <= band
  }

  /** The earliest sample time from which on the output stays in the band; none if there is no such sample. */
  method SettleTime(rows: seq<Row>, setpoint: real, band: real) returns (r: Option<real>)
    requires rows != []
    ensures r.None? <==> !InBand(rows[|rows| - 1], setpoint, band)
    ensures r.Some? ==> exists j :: SettledFrom(rows, setpoint, band, j) && r.value == rows[j].t
  {
    var j: int := |rows| - 1;
    while j >= 0 && Abs(rows[j].y - setpoint) <= band
      invariant -1 <= j < |rows|
      invariant forall k :: j < k < |rows| ==> InBand(rows[k], setpoint, band)
    {
      j := j - 1;
    }
    if j + 1 < |rows| {
      assert SettledFrom(rows, setpoint, band, j + 1);
      r := Some(rows[j + 1].t);
    } else {
      r := None;
    }
  }

  predicate SettledFrom(rows: seq<Row>, setpoint: real, band: real, j: int) {
    0 <= j < |rows| && (forall k :: j <= k < |rows| ==> InBand(rows[k], setpoint, band))
    && (j > 0 ==> !InBand(rows[j - 1], setpoint, band))
  }

  /** The band is closed: its edges belong to it. */
  lemma BandTells(r: Row, setpoint: real, band: real)
    ensures InBand(r, setpoint, band) <==> setpoint - band <= r.y <= setpoint + band
  {
  }

  /** No earlier sample would do. */
  lemma SettledOnce(rows: seq<Row>, setpoint: real, band: real, j: int, i: nat)
    requires SettledFrom(rows, setpoint, band, j) && i < j
    ensures !forall k :: i <= k < |rows| ==> InBand(rows[k], setpoint, band)
  {
    assert !InBand(rows[j - 1], setpoint, band);
  }

  const OVERDRIVEN := Spec(1.0, 0.5, 0.0, 0.0, 1.0, 0.0, 4.0, 1.0, [])
  const PUSHES := [Number(2.0), Number(4.0), Number(4.0)]

  /** "Never settled" does not mean that the band was never entered: the loop itself logs a run that enters it at
      its second sample and leaves it at its third. */
  method EnteredButNeverSettled() returns (rows: seq<Row>, end: End, settled: Option<real>)
    ensures Valid(OVERDRIVEN) && Logged(OVERDRIVEN, rows, PUSHES) && end == Done && |rows| == 3
    ensures InBand(rows[1], OVERDRIVEN.setpoint, 0.5) && settled == None
  {
    rows, end := RunClosedLoop(OVERDRIVEN, PUSHES);
    assert PUSHES[0].Number? && PUSHES[1].Number? && PUSHES[2].Number?;
    assert Follows(OVERDRIVEN, rows, PUSHES, 0) && Follows(OVERDRIVEN, rows, PUSHES, 1)
           && Follows(OVERDRIVEN, rows, PUSHES, 2);
    assert rows[0].u == 2.0 && rows[1].y == 1.0 && rows[1].u == 4.0 && rows[2].y == 2.5;
    settled := SettleTime(rows, OVERDRIVEN.setpoint, 0.5);
  }

  function Signed(r: Row, up: bool): real {
    if up then r.y else -r.y
  }

  function Peak(rows: seq<Row>, up: bool): real
    requires rows != []
  {
    var y := Signed(rows[0], up);
    if |rows| == 1 then y else if Peak(rows[1..], up) > y then Peak(rows[1..], up) else y
  }

  /** Overshoot in percent of the travel from start to setpoint, as the loop over the samples finds it. */
  method Overshoot(rows: seq<Row>, setpoint: real, y0: real) returns (pct: real)
    requires rows != []
    ensures pct == Excess(rows, setpoint, y0)
  {
    var span := Abs(setpoint - y0);
    if span <= 0.000000000001 {
      return 0.0;
    }
    var up := setpoint >= y0;
    var i, peak := |rows| - 1, Signed(rows[|rows| - 1], up);
    assert rows[i..] == [rows[i]];
    while i > 0
      invariant 0 <= i < |rows| && peak == Peak(rows[i..], up)
    {
      i := i - 1;
      assert rows[i..][1..] == rows[i + 1..];
      var y := Signed(rows[i], up);
      peak := if peak > y then peak else y;
    }
    assert rows[0..] == rows;
    var dev := if up then peak - setpoint else setpoint + peak;
    pct := dev / span * 100.0;
    pct := if pct < 0.0 then 0.0 else pct;
  }

  function Percent(x: real, span: real): real
    requires span > 0.0
  {
    x / span * 100.0
  }

  /** The extreme sample's way past the setpoint in percent of the travel, if it is past it and there is a travel. */
  function Excess(rows: seq<Row>, setpoint: real, y0: real): real
    requires rows != []
  {
    var span, up := Abs(setpoint - y0), setpoint >= y0;
    if span <= 0.000000000001 then 0.0
    else
      var pct := Percent(Peak(rows, up) + if up then -setpoint else setpoint, span);
      if pct < 0.0 then 0.0 else pct
  }

  lemma {:induction false} PeakIsMost(rows: seq<Row>, up: bool, limit: real)
    requires rows != []
    ensures Peak(rows, up) <= limit <==> forall k :: 0 <= k < |rows| ==> Signed(rows[k], up) <= limit
  {
    if |rows| > 1 {
      PeakIsMost(rows[1..], up, limit);
      assert forall k :: 0 < k < |rows| ==> rows[k] == rows[1..][k - 1];
    }
  }

  /** The percentage stays within an allowance exactly if every sample stays that close beyond the setpoint. */
  lemma OvershootWithin(rows: seq<Row>, setpoint: real, y0: real, allowed: real)
    requires rows != [] && allowed >= 0.0 && Abs(setpoint - y0) > 0.000000000001
    ensures Excess(rows, setpoint, y0) >= 0.0
    ensures Excess(rows, setpoint, y0) <= allowed <==>
            forall k :: 0 <= k < |rows| ==> Beyond(rows[k], setpoint, setpoint >= y0) <= Room(setpoint, y0, allowed)
  {
    var up := setpoint >= y0;
    var sign := if up then -setpoint else setpoint;
    Scaled(Peak(rows, up) + sign, Abs(setpoint - y0), allowed);
    PeakIsMost(rows, up, Room(setpoint, y0, allowed) - sign);
    forall k | 0 <= k < |rows| ensures Beyond(rows[k], setpoint, up) == Signed(rows[k], up) + sign {
    }
  }

  /** The allowance as a distance. */
  function Room(setpoint: real, y0: real, allowed: real): real {
    Portion(allowed, Abs(setpoint - y0))
  }

  function Portion(allowed: real, span: real): real {
    allowed / 100.0 * span
  }

  /** How far a sample lies past the setpoint in the direction of travel. */
  function Beyond(r: Row, setpoint: real, up: bool): real {
    if up then r.y - setpoint else setpoint - r.y
  }

  lemma Scaled(x: real, span: real, allowed: real)
    requires span > 0.0
    ensures Percent(x, span) <= allowed <==> x <= Portion(allowed, span)
  {
    var q := x / span;
    assert q * span == x;
    if q <= allowed / 100.0 {
      assert (allowed / 100.0 - q) * span >= 0.0;
    } else {
      assert (q - allowed / 100.0) * span > 0.0;
    }
  }
}
