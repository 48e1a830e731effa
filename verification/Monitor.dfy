/** The bounded capture window of a serial monitor: it reads until the first stop condition and searches each new chunk
    together with just enough of what came before. */
module Monitor {
  import opened Sequences

  const CHUNK_SIZE: nat := 4096

  /** A serial port: what will still arrive, of which some part may be waiting now. `asked` counts the reads, and `dead`
      tells that one of them has failed. */
  class Port {
    var incoming: seq<byte>
    ghost var asked: nat
    ghost var dead: bool

    constructor (incoming: seq<byte>)
      ensures this.incoming == incoming && asked == 0 && !dead
    {
      this.incoming, asked, dead := incoming, 0, false;
    }

    /** Up to `n` bytes, none if none have arrived yet; nothing at all from a port that has died. */
    method Read(n: nat) returns (chunk: Option<seq<byte>>)
      requires n >= 1
      modifies this
      ensures asked == old(asked) + 1
      ensures chunk.None? ==> dead && incoming == old(incoming)
      ensures chunk.Some? ==> dead == old(dead) && chunk.value + incoming == old(incoming) && |chunk.value| <= n
    {
      asked := asked + 1;
      var dies: bool :| true;
      if dies {
        dead := true;
        return None;
      }
      var k :| 0 <= k <= n && k <= |incoming|;
      chunk, incoming := Some(incoming[..k]), incoming[k..];
    }
  }

  /** One turn of the loop: the clock at its start and behind its read, and the driver's count of waiting bytes,
      where it has one. */
  datatype Turn = Turn(now: real, after: real, waiting: Option<nat>)

  datatype Stop = MaxBytes | MaxSeconds | Quiet | Pattern | Failed

  function Min(a: nat, b: nat): nat {
    if a < b then a else b
  }

  predicate Shows(buf: seq<byte>, needle: Option<seq<byte>>) {
    needle.Some? && Contains(buf, needle.value)
  }

  /** Looking behind the last place where the needle could still have ended in the old part finds it if it is there. */
  lemma SearchNewPart(before: seq<byte>, chunk: seq<byte>, needle: seq<byte>)
    requires needle != [] && !Shows(before, Some(needle))
    ensures var from := if |before| < |needle| then 0 else |before| - |needle| + 1;
            FindFrom(before + chunk, needle, from) != -1 <==> Shows(before + chunk, Some(needle))
  {
    var from := if |before| < |needle| then 0 else |before| - |needle| + 1;
    var r := Find(before + chunk, needle);
    if 0 <= r < from {
      AtExtend(before, chunk, needle, r);
    }
  }

  /** When the last data came: at the window's start if there has been none. `fed` are the turns that brought data. */
  function LastData(turns: seq<Turn>, start: real, fed: seq<nat>): real
    requires FedBefore(fed, |turns|)
  {
    if fed == [] then start else turns[fed[|fed| - 1]].after
  }

  function Before(fed: seq<nat>, i: nat): (r: seq<nat>)
    ensures r <= fed
  {
    if fed == [] || fed[|fed| - 1] < i then fed else Before(fed[..|fed| - 1], i)
  }

  /** No data has come for the quiet time when turn `i` begins. */
  predicate QuietAt(turns: seq<Turn>, start: real, fed: seq<nat>, quiet: Option<real>, i: nat)
    requires i < |turns| && FedBefore(fed, |turns|)
  {
    quiet.Some? && turns[i].now - LastData(turns, start, Before(fed, i)) >= quiet.value
  }

  /** The turns in which the port is read: all but those that know that nothing is waiting. */
  function Polls(turns: seq<Turn>): nat {
    if turns == [] then 0
    else Polls(turns[..|turns| - 1]) + if turns[|turns| - 1].waiting == Some(0) then 0 else 1
  }

  lemma PollsSnoc(turns: seq<Turn>, n: nat)
    requires n < |turns|
    ensures Polls(turns[..n + 1]) == Polls(turns[..n]) + if turns[n].waiting == Some(0) then 0 else 1
  {
    assert turns[..n + 1][..n] == turns[..n];
  }

  predicate FedBefore(fed: seq<nat>, n: nat) {
    forall k :: 0 <= k < |fed| ==> fed[k] < n
  }

  /** The first `n` turns were in time and not quiet. */
  predicate Busy(turns: seq<Turn>, start: real, maxSeconds: real, fed: seq<nat>, quiet: Option<real>, n: nat)
    requires n <= |turns| && FedBefore(fed, |turns|)
  {
    forall i :: 0 <= i < n ==> turns[i].now < start + maxSeconds && !QuietAt(turns, start, fed, quiet, i)
  }

  lemma QuietNow(turns: seq<Turn>, start: real, fed: seq<nat>, quiet: Option<real>, n: nat)
    requires n < |turns| && FedBefore(fed, n)
    ensures QuietAt(turns, start, fed, quiet, n)
            <==> quiet.Some? && turns[n].now - LastData(turns, start, fed) >= quiet.value
  {
  }

  lemma BusyNext(turns: seq<Turn>, start: real, maxSeconds: real, fed: seq<nat>, quiet: Option<real>, n: nat)
    requires n < |turns| && FedBefore(fed, n) && Busy(turns, start, maxSeconds, fed, quiet, n)
    requires turns[n].now < start + maxSeconds && !QuietAt(turns, start, fed, quiet, n)
    ensures Busy(turns, start, maxSeconds, fed, quiet, n + 1)
    ensures Busy(turns, start, maxSeconds, fed + [n], quiet, n + 1)
    ensures LastData(turns, start, fed + [n]) == turns[n].after
  {
    forall i: nat | i <= n ensures QuietAt(turns, start, fed + [n], quiet, i) == QuietAt(turns, start, fed, quiet, i) {
      assert (fed + [n])[..|fed|] == fed;
      assert Before(fed + [n], i) == Before(fed, i);
    }
  }

  lemma ShowsNothing(buf: seq<byte>)
    ensures !Shows(buf, None)
  {
  }

  lemma Begins(turns: seq<Turn>, start: real, maxSeconds: real, quiet: Option<real>, needle: Option<seq<byte>>)
    requires needle.Some? ==> needle.value != []
    ensures Busy(turns, start, maxSeconds, [], quiet, 0) && Polls(turns[..0]) == 0
    ensures LastData(turns, start, []) == start && !Shows([], needle)
  {
  }

  /** The window, over at most as many turns as are given. What was captured is exactly what was taken from the
      port, within the bound; the pattern stopped it if and only if the capture shows it, and then the capture
      without its last chunk did not. The first `full` turns were in time, not quiet, and read the port unless nothing
      was waiting; the turn behind them, if one was begun, is what stopped the window. */
  method Window(port: Port, turns: seq<Turn>, start: real, maxBytes: nat, maxSeconds: real, quiet: Option<real>,
                needle: Option<seq<byte>>)
    returns (buf: seq<byte>, stop: Stop, ghost earlier: nat, ghost full: nat, ghost fed: seq<nat>)
    requires maxBytes >= 1 && (needle.Some? ==> needle.value != []) && !port.dead
    modifies port
    ensures buf + port.incoming == old(port.incoming) && |buf| <= maxBytes
    ensures stop == Pattern <==> Shows(buf, needle)
    ensures stop == Pattern ==> earlier < |buf| <= earlier + CHUNK_SIZE && !Shows(buf[..earlier], needle)
    ensures full <= |turns| && port.asked == old(port.asked) + Polls(turns[..full])
    ensures FedBefore(fed, full) && (fed == [] <==> buf == []) && Busy(turns, start, maxSeconds, fed, quiet, full)
    ensures stop == Failed <==> port.dead
    ensures stop == MaxBytes ==> full < |turns| && |buf| == maxBytes
    ensures stop == MaxSeconds ==>
              full == |turns| || (|buf| < maxBytes && turns[full].now >= start + maxSeconds)
    ensures stop == Quiet ==>
              full < |turns| && |buf| < maxBytes && turns[full].now < start + maxSeconds
              && QuietAt(turns, start, fed, quiet, full)
  {
    hide Busy, QuietAt, LastData, Before, Polls, Shows, FindFrom;
    buf, stop, earlier, full, fed := [], MaxSeconds, 0, 0, [];
    Begins(turns, start, maxSeconds, quiet, needle);
    var lastData := start;
    var i := 0;
    while i < |turns|
      invariant i <= |turns| && full == i && buf + port.incoming == old(port.incoming) && |buf| <= maxBytes
      invariant !Shows(buf, needle) && !port.dead && port.asked == old(port.asked) + Polls(turns[..i])
      invariant FedBefore(fed, i) && (fed == [] <==> buf == []) && Busy(turns, start, maxSeconds, fed, quiet, i)
      invariant lastData == LastData(turns, start, fed)
    {
      var turn := turns[i];
      PollsSnoc(turns, i);
      QuietNow(turns, start, fed, quiet, i);
      if |buf| >= maxBytes {
        stop := MaxBytes;
        return;
      }
      if turn.now >= start + maxSeconds {
        stop := MaxSeconds;
        return;
      }
      if quiet.Some? && turn.now - lastData >= quiet.value {
        stop := Quiet;
        return;
      }
      BusyNext(turns, start, maxSeconds, fed, quiet, i);
      i, full := i + 1, full + 1;
      var remaining := maxBytes - |buf|;
      if turn.waiting != Some(0) {
        var size := Min(CHUNK_SIZE, remaining);
        var chunk := port.Read(if turn.waiting.Some? then Min(turn.waiting.value, size) else size);
        if chunk.None? {
          stop := Failed;
          return;
        }
        var before := buf;
        buf := before + chunk.value;
        if chunk.value != [] {
          lastData, fed := turn.after, fed + [i - 1];
          if needle.None? {
            ShowsNothing(buf);
          } else {
            SearchNewPart(before, chunk.value, needle.value);
            var from := if |before| < |needle.value| then 0 else |before| - |needle.value| + 1;
            if FindFrom(buf, needle.value, from) != -1 {
              assert buf[..|before|] == before;
              stop, earlier := Pattern, |before|;
              return;
            }
          }
        } else {
          assert buf == before;
        }
      }
    }
  }
}
