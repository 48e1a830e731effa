/** Replays a recorded session from its journal: one transport per connection name, reads joined into a stream,
    writes checked against the recording. */
module Replay {
  import opened Sequences
  import opened ReplText
  import opened Journal

  const NEWLINE: byte := 10

  datatype Direction = Reads | Writes

  function ConnOf(r: Rec): string {
    if r.Event? && "conn" in r.fields then r.fields["conn"] else ""
  }

  predicate Carries(r: Rec, d: Direction) {
    r.Event? && match d case Reads => r.kind == "read" || r.kind == "read_line" case Writes => r.kind == "write"
  }

  /** The bytes of an event, or nothing when its hex is missing or unreadable. */
  function EventBytes(r: Rec): Option<seq<byte>> {
    if r.Event? && "data_hex" in r.fields then FromHex(r.fields["data_hex"]) else None
  }

  function Joined(a: Option<seq<byte>>, b: Option<seq<byte>>): Option<seq<byte>> {
    if a.Some? && b.Some? then Some(a.value + b.value) else None
  }

  /** One connection's recorded bytes in one direction; nothing when an event of it is corrupt. */
  function Recorded(events: File, conn: string, d: Direction): Option<seq<byte>> {
    if events == [] then Some([])
    else
      var before, r := Recorded(events[..|events| - 1], conn, d), events[|events| - 1];
      if ConnOf(r) == conn && Carries(r, d) then Joined(before, EventBytes(r)) else before
  }

  lemma RecordedSnoc(events: File, r: Rec, conn: string, d: Direction)
    ensures Recorded(events + [r], conn, d)
            == if ConnOf(r) == conn && Carries(r, d) then Joined(Recorded(events, conn, d), EventBytes(r))
               else Recorded(events, conn, d)
  {
    assert (events + [r])[..|events|] == events;
  }

  predicate Readable(events: File, conn: string) {
    Recorded(events, conn, Reads).Some? && Recorded(events, conn, Writes).Some?
  }

  lemma {:induction false} ReadablePrefix(events: File, n: nat, conn: string)
    requires n <= |events| && Readable(events, conn)
    ensures Readable(events[..n], conn)
    decreases |events| - n
  {
    if n == |events| {
      assert events[..n] == events;
    } else {
      ReadablePrefix(events, n + 1, conn);
      assert events[..n + 1] == events[..n] + [events[n]];
      RecordedSnoc(events[..n], events[n], conn, Reads);
      RecordedSnoc(events[..n], events[n], conn, Writes);
    }
  }

  /** An event that moves bytes over a connection; without a name it belongs to the unnamed one. */
  predicate Concerns(r: Rec, conn: string) {
    r.Event? && r.kind in ["read", "read_line", "write"]
    && if "conn" in r.fields then r.fields["conn"] == conn else conn == ""
  }

  predicate Legible(r: Rec) {
    r.Event? && "data_hex" in r.fields && FromHex(r.fields["data_hex"]).Some?
  }

  /** A connection can be replayed exactly if each of its events holds its bytes as hex. */
  lemma {:induction false} ReadableExactly(events: File, conn: string)
    ensures Readable(events, conn) <==> forall r <- events :: Concerns(r, conn) ==> Legible(r)
    decreases |events|
  {
    if events != [] {
      var less, last := events[..|events| - 1], events[|events| - 1];
      ReadableExactly(less, conn);
      assert events == less + [last];
      RecordedSnoc(less, last, conn, Reads);
      RecordedSnoc(less, last, conn, Writes);
      hide Recorded, FromHex;
      assert Concerns(last, conn) <==> ConnOf(last) == conn && (Carries(last, Reads) || Carries(last, Writes));
      assert Readable(events, conn) <==> Readable(less, conn) && (Concerns(last, conn) ==> Legible(last));
      assert forall r :: r in events <==> r in less || r == last;
    }
  }

  class ReplayTransport {
    const strict: bool
    const conn: string
    const readStream: seq<byte>
    const writeStream: seq<byte>
    var rpos: nat
    var wpos: nat
    var closed: bool

    constructor (strict: bool, conn: string, readStream: seq<byte>, writeStream: seq<byte>)
      ensures this.strict == strict && this.conn == conn
      ensures this.readStream == readStream && this.writeStream == writeStream
      ensures Fresh()
    {
      this.strict, this.conn, this.readStream, this.writeStream := strict, conn, readStream, writeStream;
      rpos, wpos, closed := 0, 0, false;
    }

    ghost predicate Fresh()
      reads this
    {
      rpos == 0 && wpos == 0 && !closed
    }

    ghost predicate Valid()
      reads this
    {
      rpos <= |readStream|
    }

    /** Any read returns the next bytes of the stream, whatever its size argument. */
    method Read(size: int) returns (chunk: seq<byte>)
      requires Valid()
      modifies this`rpos
      ensures Valid() && rpos == old(rpos) + |chunk| && chunk == readStream[old(rpos)..rpos]
      ensures size >= 0 ==> |chunk| == if old(rpos) + size <= |readStream| then size else |readStream| - old(rpos)
    {
      chunk := Slice(readStream, rpos, rpos + size);
      rpos := rpos + |chunk|;
    }

    /** The next bytes up to and including a newline, at most `maxLen` of them. */
    method ReadLine(maxLen: int) returns (chunk: seq<byte>)
      requires Valid()
      modifies this`rpos
      ensures Valid() && rpos == old(rpos) + |chunk| && chunk == readStream[old(rpos)..rpos]
      ensures maxLen >= 0 ==> |chunk| <= maxLen && NEWLINE !in chunk[..if |chunk| > 0 then |chunk| - 1 else 0]
      ensures maxLen >= 0 && |chunk| < maxLen && (chunk == [] || chunk[|chunk| - 1] != NEWLINE) ==> rpos == |readStream|
    {
      var window := Slice(readStream, rpos, rpos + maxLen);
      var k := Find(window, [NEWLINE]);
      var stop := if k == -1 then rpos + maxLen else rpos + k + 1;
      chunk := Slice(readStream, rpos, stop);
      ghost var upto := if k == -1 then |window| else k;
      forall i | 0 <= i < upto ensures window[i] != NEWLINE {
        assert window[i..i + 1] == [window[i]];
        assert !At(window, [NEWLINE], i);
      }
      if maxLen >= 0 {
        assert chunk == window[..if k == -1 then |window| else k + 1];
        if k != -1 {
          assert window[k..k + 1][0] == window[k];
        }
      }
      rpos := rpos + |chunk|;
    }

    /** A strict write must continue the recording; a refused one leaves the position alone. */
    method Write(data: seq<byte>) returns (ok: bool)
      modifies this`wpos
      ensures ok == (!strict || Slice(writeStream, old(wpos), old(wpos) + |data|) == data)
      ensures wpos == if ok then old(wpos) + |data| else old(wpos)
    {
      if strict {
        var recorded := Slice(writeStream, wpos, wpos + |data|);
        if data != recorded {
          return false;
        }
      }
      wpos := wpos + |data|;
      ok := true;
    }

    /** The first strict close refuses a recording that was not replayed to its end. */
    method Close() returns (ok: bool)
      modifies this`closed
      ensures closed && ok == (old(closed) || !strict || wpos >= |writeStream|)
    {
      if closed {
        return true;
      }
      closed := true;
      ok := !(strict && wpos < |writeStream|);
    }
  }

  /** Writes in any slicing, then close: no mismatch exactly when they are the recorded bytes. */
  method ReplayWrites(t: ReplayTransport, writes: seq<seq<byte>>) returns (ok: bool)
    requires t.strict && t.wpos == 0 && !t.closed
    modifies t`wpos, t`closed
    ensures ok <==> Flatten(writes) == t.writeStream
  {
    var i := 0;
    while i < |writes|
      invariant 0 <= i <= |writes| && !t.closed
      invariant t.wpos <= |t.writeStream| && Flatten(writes[..i]) == t.writeStream[..t.wpos]
    {
      assert writes[..i + 1] == writes[..i] + [writes[i]];
      FlattenSnoc(writes[..i], writes[i]);
      FlattenAppend(writes[..i + 1], writes[i + 1..]);
      assert writes == writes[..i + 1] + writes[i + 1..];
      ghost var before := t.wpos;
      ghost var next := t.writeStream[..before] + writes[i];
      assert Flatten(writes)[..|next|] == next;
      var accepted := t.Write(writes[i]);
      if !accepted {
        MismatchShows(t.writeStream, before, writes[i]);
        return false;
      }
      assert t.writeStream[..t.wpos] == next;
      i := i + 1;
    }
    assert writes[..i] == writes;
    ok := t.Close();
  }

  lemma MismatchShows(stream: seq<byte>, pos: nat, data: seq<byte>)
    requires pos <= |stream| && Slice(stream, pos, pos + |data|) != data
    ensures pos + |data| > |stream| || stream[..pos + |data|] != stream[..pos] + data
  {
    if pos + |data| <= |stream| {
      assert stream[..pos + |data|][pos..] == stream[pos..pos + |data|];
      assert (stream[..pos] + data)[pos..] == data;
    }
  }

  /** Builds the transport of one connection; fails on a corrupt event of it. */
  method BuildTransport(events: File, strict: bool, conn: string) returns (t: Option<ReplayTransport>)
    ensures t.Some? <==> Readable(events, conn)
    ensures t.Some? ==> fresh(t.value) && t.value.Fresh() && t.value.strict == strict && t.value.conn == conn
                        && Recorded(events, conn, Reads) == Some(t.value.readStream)
                        && Recorded(events, conn, Writes) == Some(t.value.writeStream)
  {
    var got: seq<byte>, sent: seq<byte> := [], [];
    var i := 0;
    while i < |events|
      invariant 0 <= i <= |events|
      invariant Recorded(events[..i], conn, Reads) == Some(got)
      invariant Recorded(events[..i], conn, Writes) == Some(sent)
    {
      var e := events[i];
      assert events[..i + 1] == events[..i] + [e];
      RecordedSnoc(events[..i], e, conn, Reads);
      RecordedSnoc(events[..i], e, conn, Writes);
      if ConnOf(e) == conn && (Carries(e, Reads) || Carries(e, Writes)) {
        var data := EventBytes(e);
        if data.None? {
          if Readable(events, conn) {
            ReadablePrefix(events, i + 1, conn);
          }
          return None;
        }
        if Carries(e, Reads) {
          got := got + data.value;
        } else {
          sent := sent + data.value;
        }
      }
      i := i + 1;
    }
    assert events[..i] == events;
    var made := new ReplayTransport(strict, conn, got, sent);
    t := Some(made);
  }

  // --- a whole session ---

  /** The events of one connection, in order. */
  function GroupOf(events: File, conn: string): File {
    if events == [] then []
    else
      GroupOf(events[..|events| - 1], conn)
      + (if ConnOf(events[|events| - 1]) == conn then [events[|events| - 1]] else [])
  }

  lemma GroupSnoc(events: File, r: Rec, conn: string)
    ensures GroupOf(events + [r], conn) == GroupOf(events, conn) + (if ConnOf(r) == conn then [r] else [])
  {
    assert (events + [r])[..|events|] == events;
  }

  /** The connections in the order of their first event. */
  function OrderOf(events: File): seq<string> {
    if events == [] then []
    else
      var before, conn := OrderOf(events[..|events| - 1]), ConnOf(events[|events| - 1]);
      if conn in before then before else before + [conn]
  }

  lemma OrderSnoc(events: File, r: Rec)
    ensures OrderOf(events + [r])
            == if ConnOf(r) in OrderOf(events) then OrderOf(events) else OrderOf(events) + [ConnOf(r)]
  {
    assert (events + [r])[..|events|] == events;
  }

  /** Filtering a connection's own group again, or the whole journal, gives the same recording. */
  lemma {:induction false} GroupingIsFiltering(events: File, conn: string, d: Direction)
    ensures Recorded(GroupOf(events, conn), conn, d) == Recorded(events, conn, d)
    decreases |events|
  {
    if events != [] {
      var less, r := events[..|events| - 1], events[|events| - 1];
      GroupingIsFiltering(less, conn, d);
      if ConnOf(r) == conn {
        RecordedSnoc(GroupOf(less, conn), r, conn, d);
      } else {
        assert GroupOf(less, conn) + [] == GroupOf(less, conn);
      }
    }
  }

  /** The names in the order are exactly the connections that have events, each once. */
  lemma {:induction false} OrderIsExact(events: File)
    ensures forall c :: c in OrderOf(events) <==> exists i :: 0 <= i < |events| && ConnOf(events[i]) == c
    ensures forall i, j :: 0 <= i < j < |OrderOf(events)| ==> OrderOf(events)[i] != OrderOf(events)[j]
    decreases |events|
  {
    if events != [] {
      var n := |events| - 1;
      var less := events[..n];
      OrderIsExact(less);
      forall c ensures c in OrderOf(events) <==> exists i :: 0 <= i < |events| && ConnOf(events[i]) == c {
        if c in OrderOf(less) {
          var i :| 0 <= i < n && ConnOf(less[i]) == c;
          assert ConnOf(events[i]) == c;
        }
        if i :| 0 <= i < |events| && ConnOf(events[i]) == c {
          if i < n { assert ConnOf(less[i]) == c; }
        }
      }
    }
  }

  /** A fresh transport that replays exactly one connection's recording. */
  ghost predicate Replays(t: ReplayTransport, events: File, conn: string, strict: bool)
    reads t
  {
    && t.Fresh() && t.strict == strict && t.conn == conn
    && Recorded(events, conn, Reads) == Some(t.readStream)
    && Recorded(events, conn, Writes) == Some(t.writeStream)
  }

  datatype Session = Session(order: seq<string>, conns: map<string, ReplayTransport>)

  ghost predicate Grouped(events: File, groups: map<string, File>, order: seq<string>) {
    order == OrderOf(events) && (forall c :: c in groups <==> c in order)
    && forall c :: GroupOf(events, c) == if c in groups then groups[c] else []
  }

  /** One event goes to the end of its connection's group. */
  method AddEvent(ghost seen: File, e: Rec, groups: map<string, File>, order: seq<string>)
    returns (groups': map<string, File>, order': seq<string>)
    requires Grouped(seen, groups, order)
    ensures Grouped(seen + [e], groups', order')
  {
    groups', order' := groups, order;
    var conn := ConnOf(e);
    if conn !in groups {
      groups' := groups[conn := []];
      order' := order + [conn];
    }
    groups' := groups'[conn := groups'[conn] + [e]];
    OrderSnoc(seen, e);
    forall c ensures GroupOf(seen + [e], c) == if c in groups' then groups'[c] else [] {
      GroupSnoc(seen, e, c);
    }
  }

  method GroupEvents(events: File) returns (groups: map<string, File>, order: seq<string>)
    ensures order == OrderOf(events)
    ensures forall c :: c in order ==> c in groups && groups[c] == GroupOf(events, c)
  {
    groups, order := map[], [];
    var i := 0;
    while i < |events|
      invariant 0 <= i <= |events| && Grouped(events[..i], groups, order)
    {
      assert events[..i + 1] == events[..i] + [events[i]];
      groups, order := AddEvent(events[..i], events[i], groups, order);
      i := i + 1;
    }
    assert events[..i] == events;
  }

  /** Groups the journal by connection first, then builds one transport per group. */
  method BuildSession(events: File, strict: bool) returns (s: Option<Session>)
    ensures s.Some? <==> forall c :: c in OrderOf(events) ==> Readable(events, c)
    ensures s.Some? ==> s.value.order == OrderOf(events) && s.value.conns.Keys == set c | c in OrderOf(events)
    ensures s.Some? ==> forall c :: c in s.value.conns ==>
                          fresh(s.value.conns[c]) && Replays(s.value.conns[c], events, c, strict)
  {
    var groups, order := GroupEvents(events);
    var conns: map<string, ReplayTransport> := map[];
    var k := 0;
    while k < |order|
      invariant 0 <= k <= |order|
      invariant conns.Keys == set c | c in order[..k]
      invariant forall c :: c in conns ==> fresh(conns[c]) && Replays(conns[c], events, c, strict)
    {
      var conn := order[k];
      GroupingIsFiltering(events, conn, Reads);
      GroupingIsFiltering(events, conn, Writes);
      var t := BuildTransport(groups[conn], strict, conn);
      if t.None? {
        assert conn in OrderOf(events);
        return None;
      }
      assert order[..k + 1] == order[..k] + [conn];
      conns := conns[conn := t.value];
      k := k + 1;
    }
    assert order[..k] == order;
    assert forall c :: c in OrderOf(events) ==> c in conns;
    s := Some(Session(order, conns));
  }

  // --- record, then replay ---

  /** One transport operation of a live session, as its hook journals it. */
  datatype Op = Op(conn: string, kind: string, data: seq<byte>)

  function Payload(op: Op): map<string, string> {
    map["data_hex" := HexOf(op.data), "bytes" := Decimal(|op.data|)]["conn" := op.conn]
  }

  predicate Moves(op: Op, conn: string, d: Direction) {
    op.conn == conn
    && match d case Reads => op.kind == "read" || op.kind == "read_line" case Writes => op.kind == "write"
  }

  /** The bytes that really went over one connection in one direction. */
  function Moved(ops: seq<Op>, conn: string, d: Direction): seq<byte> {
    if ops == [] then []
    else Moved(ops[..|ops| - 1], conn, d) + (if Moves(ops[|ops| - 1], conn, d) then ops[|ops| - 1].data else [])
  }

  /** Which operations move which bytes: a read of either kind in, a write out, on its own connection only. */
  lemma MovedTells(ops: seq<Op>, conn: string, kind: string, data: seq<byte>, other: string, d: Direction)
    ensures var more := ops + [Op(conn, kind, data)];
            && (kind == "read" || kind == "read_line" ==> Moved(more, conn, Reads) == Moved(ops, conn, Reads) + data)
            && (kind == "write" ==> Moved(more, conn, Writes) == Moved(ops, conn, Writes) + data)
            && (kind != "write" ==> Moved(more, conn, Writes) == Moved(ops, conn, Writes))
            && (kind != "read" && kind != "read_line" ==> Moved(more, conn, Reads) == Moved(ops, conn, Reads))
            && (other != conn ==> Moved(more, other, d) == Moved(ops, other, d))
  {
    assert (ops + [Op(conn, kind, data)])[..|ops|] == ops;
  }

  /** What the hook of an operation journals besides its kind: connection, hex bytes and their number. */
  lemma PayloadTells(op: Op)
    ensures var p := Payload(op);
            p.Keys == {"conn", "data_hex", "bytes"} && p["conn"] == op.conn
            && FromHex(p["data_hex"]) == Some(op.data) && ParseDecimal(p["bytes"]) == Some(|op.data|)
  {
    assert |"data_hex"| == 8 && |"bytes"| == 5 && |"conn"| == 4;
    HexRoundTrip(op.data);
    DecimalRoundTrip(|op.data|);
  }

  function Recording(ops: seq<Op>, writer: nat): File {
    if ops == [] then []
    else Recording(ops[..|ops| - 1], writer)
         + Lines(writer, |ops| - 1, ops[|ops| - 1].kind, Payload(ops[|ops| - 1]))
  }

  lemma PayloadIsClean(op: Op)
    ensures Payload(op).Keys * RESERVED_KEYS == {} && Payload(op) - RESERVED_KEYS == Payload(op)
  {
    assert Payload(op).Keys == {"data_hex", "bytes", "conn"};
    assert "ts"[0] == 't' && "seq"[0] == 's' && "actor"[0] == 'a' && "kind"[0] == 'k';
  }

  /** A journal of an interleaved session holds, for each connection, exactly that connection's bytes. */
  lemma {:induction false} RecordingIsFaithful(ops: seq<Op>, writer: nat, conn: string, d: Direction)
    ensures |Recording(ops, writer)| == |ops|
    ensures Recorded(Recording(ops, writer), conn, d) == Some(Moved(ops, conn, d))
    decreases |ops|
  {
    if ops != [] {
      var less, op := ops[..|ops| - 1], ops[|ops| - 1];
      RecordingIsFaithful(less, writer, conn, d);
      PayloadIsClean(op);
      HexRoundTrip(op.data);
      var r := Event(writer, |ops|, op.kind, Payload(op));
      assert |"data_hex"| == 8 && |"bytes"| == 5 && |"conn"| == 4;
      assert ConnOf(r) == op.conn && EventBytes(r) == Some(op.data);
      assert Recording(ops, writer) == Recording(less, writer) + [r];
      RecordedSnoc(Recording(less, writer), r, conn, d);
      assert Moved(less, conn, d) + [] == Moved(less, conn, d);
    }
  }

  lemma {:induction false} RecordingConns(ops: seq<Op>, writer: nat, i: nat)
    requires i < |ops|
    ensures |Recording(ops, writer)| == |ops| && ConnOf(Recording(ops, writer)[i]) == ops[i].conn
    decreases |ops|
  {
    var less, op := ops[..|ops| - 1], ops[|ops| - 1];
    PayloadIsClean(op);
    if less != [] {
      RecordingConns(less, writer, if i < |less| then i else 0);
    }
  }

  /** Reading back an unpruned recording gives every connection of the session its own bytes. */
  lemma RecordingReplays(ops: seq<Op>, writer: nat)
    ensures forall c :: Recorded(Recording(ops, writer), c, Reads) == Some(Moved(ops, c, Reads))
                        && Recorded(Recording(ops, writer), c, Writes) == Some(Moved(ops, c, Writes))
    ensures forall op :: op in ops ==> op.conn in OrderOf(Recording(ops, writer))
  {
    forall c ensures Recorded(Recording(ops, writer), c, Reads) == Some(Moved(ops, c, Reads))
                     && Recorded(Recording(ops, writer), c, Writes) == Some(Moved(ops, c, Writes)) {
      RecordingIsFaithful(ops, writer, c, Reads);
      RecordingIsFaithful(ops, writer, c, Writes);
    }
    var h := Recording(ops, writer);
    OrderIsExact(h);
    forall op | op in ops ensures op.conn in OrderOf(h) {
      var i :| 0 <= i < |ops| && ops[i] == op;
      RecordingConns(ops, writer, i);
      assert ConnOf(h[i]) == op.conn;
    }
  }

  /** The hook of one operation: the connection name is stamped last and one event is appended. */
  method JournalOp(journal: JsonlJournal, op: Op)
    requires journal.Valid() && !journal.closed
    modifies journal`number, journal.disk
    ensures journal.Valid() && journal.number == old(journal.number) + 1
    ensures journal.disk.history
            == old(journal.disk.history) + Lines(journal.id, old(journal.number), op.kind, Payload(op))
  {
    PayloadIsClean(op);
    var _ := journal.Call(op.kind, Payload(op));
  }

  lemma RecordingStep(ops: seq<Op>, i: nat, writer: nat)
    requires i < |ops|
    ensures Recording(ops[..i + 1], writer)
            == Recording(ops[..i], writer) + Lines(writer, i, ops[i].kind, Payload(ops[i]))
  {
    assert ops[..i + 1][..i] == ops[..i];
  }

  /** Journals the operations of a live session on a fresh path. */
  method Record(journal: JsonlJournal, ops: seq<Op>)
    requires journal.Valid() && !journal.closed && journal.number == 0 && journal.disk.history == []
    modifies journal`number, journal.disk
    ensures journal.Valid() && journal.disk.history == Recording(ops, journal.id)
  {
    var i := 0;
    while i < |ops|
      invariant 0 <= i <= |ops| && journal.Valid() && !journal.closed && journal.number == i
      invariant journal.disk.history == Recording(ops[..i], journal.id)
    {
      RecordingStep(ops, i, journal.id);
      JournalOp(journal, ops[i]);
      i := i + 1;
    }
    assert ops[..i] == ops;
  }

  /** The chain read returns everything as long as the history is below the archive's guaranteed size. */
  method ReadBack(disk: Disk, ghost maxBytes: int, ghost maxFiles: int) returns (events: File)
    requires KeepsHistory(disk.chain, disk.history, disk.lineSize, maxBytes, maxFiles)
    ensures Size(disk.history, disk.lineSize) < Kept(maxFiles) * maxBytes ==> events == disk.history
  {
    events := ReadChain(disk, maxBytes, maxFiles);
    ghost var k: nat, lost: nat :| Holds(disk.chain, disk.history, k, lost, disk.lineSize, maxBytes, maxFiles)
                                   && events == disk.history[lost..];
    NothingLostYet(disk.chain, disk.history, k, lost, disk.lineSize, maxBytes, maxFiles);
  }

  lemma NothingLostYet(c: Chain, history: File, k: nat, lost: nat, lineSize: Rec -> nat, maxBytes: int, maxFiles: int)
    requires Holds(c, history, k, lost, lineSize, maxBytes, maxFiles)
    ensures Size(history, lineSize) < Kept(maxFiles) * maxBytes ==> lost == 0
  {
    if lost > 0 {
      LossIsOld(c, history, k, lost, lineSize, maxBytes, maxFiles);
      SizeAppend(history[..lost], history[lost..], lineSize);
      assert history[..lost] + history[lost..] == history;
    }
  }

  /** A live session's operations, on any connections and in any interleaving, are journaled on a fresh path; the
      chain is read back and replayed. If the rotation has dropped nothing, which is certain below
      `max_files * max_bytes` bytes, every connection replays its own reads and accepts its own writes. */
  method RecordThenReplay(journal: JsonlJournal, ops: seq<Op>) returns (events: File, s: Option<Session>)
    requires journal.Valid() && !journal.closed && journal.number == 0 && journal.disk.history == []
    modifies journal`number, journal.disk
    ensures journal.disk.history == Recording(ops, journal.id)
    ensures Size(journal.disk.history, journal.disk.lineSize) < Kept(journal.maxFiles) * journal.maxBytes ==>
              events == journal.disk.history
    ensures events == journal.disk.history ==> s.Some? && forall op :: op in ops ==> op.conn in s.value.conns
    ensures events == journal.disk.history ==>
              forall c :: c in s.value.conns ==>
                s.value.conns[c].Fresh() && s.value.conns[c].strict
                && s.value.conns[c].readStream == Moved(ops, c, Reads)
                && s.value.conns[c].writeStream == Moved(ops, c, Writes)
  {
    Record(journal, ops);
    events := ReadBack(journal.disk, journal.maxBytes, journal.maxFiles);
    s := BuildSession(events, true);
    RecordingReplays(ops, journal.id);
  }

  // --- many writers on one path ---

  /** The operations of a run, without who journaled them. */
  function OpsOf(ops: seq<(nat, Op)>): (r: seq<Op>)
    ensures |r| == |ops| && forall i :: 0 <= i < |r| ==> r[i] == ops[i].1
  {
    seq(|ops|, i requires 0 <= i < |ops| => ops[i].1)
  }

  predicate HasConn(h: File, conn: string) {
    exists i :: 0 <= i < |h| && ConnOf(h[i]) == conn
  }

  /** Whoever journals an operation, exactly its own connection gains exactly its bytes. */
  lemma HookAppends(h: File, writer: nat, number: nat, op: Op, conn: string, d: Direction)
    ensures var lines := Lines(writer, number, op.kind, Payload(op));
            Recorded(h + lines, conn, d)
            == Joined(Recorded(h, conn, d), Some(if Moves(op, conn, d) then op.data else []))
            && HasConn(h + lines, op.conn)
  {
    PayloadIsClean(op);
    HexRoundTrip(op.data);
    var r := Event(writer, number + 1, op.kind, Payload(op));
    assert |"data_hex"| == 8 && |"bytes"| == 5 && |"conn"| == 4;
    assert ConnOf(r) == op.conn && EventBytes(r) == Some(op.data);
    assert Lines(writer, number, op.kind, Payload(op)) == [r];
    RecordedSnoc(h, r, conn, d);
    assert (h + [r])[|h|] == r;
    if Recorded(h, conn, d).Some? {
      assert Recorded(h, conn, d).value + [] == Recorded(h, conn, d).value;
    }
  }

  ghost predicate HoldsRun(h: File, ops: seq<(nat, Op)>) {
    (forall c, d :: Recorded(h, c, d) == Some(Moved(OpsOf(ops), c, d)))
    && forall i :: 0 <= i < |ops| ==> HasConn(h, ops[i].1.conn)
  }

  lemma HoldsRunSnoc(h: File, ops: seq<(nat, Op)>, op: (nat, Op), writer: nat, number: nat)
    requires HoldsRun(h, ops)
    ensures HoldsRun(h + Lines(writer, number, op.1.kind, Payload(op.1)), ops + [op])
  {
    var after, more := h + Lines(writer, number, op.1.kind, Payload(op.1)), ops + [op];
    forall c, d ensures Recorded(after, c, d) == Some(Moved(OpsOf(more), c, d)) {
      HookAppends(h, writer, number, op.1, c, d);
      assert OpsOf(more)[..|ops|] == OpsOf(ops) && OpsOf(more)[|ops|] == op.1;
    }
    forall i | 0 <= i < |more| ensures HasConn(after, more[i].1.conn) {
      if i < |ops| {
        var j :| 0 <= j < |h| && ConnOf(h[j]) == ops[i].1.conn;
        assert after[j] == h[j];
      } else {
        HookAppends(h, writer, number, op.1, op.1.conn, Reads);
      }
    }
  }

  /** Nobody has closed. */
  ghost predicate AllOpen(journals: seq<JsonlJournal>)
    reads journals
  {
    forall i :: 0 <= i < |journals| ==> !journals[i].closed
  }

  /** The hook of one operation, through one of many writers. */
  method JournalThrough(disk: Disk, journals: seq<JsonlJournal>, ghost maxBytes: int, ghost maxFiles: int,
                        ghost before: seq<(nat, Op)>, next: (nat, Op))
    requires Writers(disk, journals, maxBytes, maxFiles) && next.0 < |journals| && HoldsRun(disk.history, before)
    requires AllOpen(journals)
    modifies disk, journals
    ensures Writers(disk, journals, maxBytes, maxFiles) && HoldsRun(disk.history, before + [next]) && AllOpen(journals)
  {
    HoldsRunSnoc(disk.history, before, next, journals[next.0].id, journals[next.0].number);
    var _ := CallOne(disk, journals, maxBytes, maxFiles, next.0, next.1.kind, Payload(next.1));
  }

  /** Journals the operations of any interleaving of sessions, each through its own writer on one fresh path. */
  method RecordMany(disk: Disk, journals: seq<JsonlJournal>, ghost maxBytes: int, ghost maxFiles: int,
                    ops: seq<(nat, Op)>)
    requires Writers(disk, journals, maxBytes, maxFiles) && AllOpen(journals) && disk.history == []
    requires forall i :: 0 <= i < |ops| ==> ops[i].0 < |journals|
    modifies disk, journals
    ensures Writers(disk, journals, maxBytes, maxFiles) && HoldsRun(disk.history, ops)
  {
    var n := 0;
    while n < |ops|
      invariant n <= |ops| && Writers(disk, journals, maxBytes, maxFiles) && HoldsRun(disk.history, ops[..n])
      invariant AllOpen(journals)
    {
      assert ops[..n + 1] == ops[..n] + [ops[n]];
      JournalThrough(disk, journals, maxBytes, maxFiles, ops[..n], ops[n]);
      n := n + 1;
    }
    assert ops[..n] == ops;
  }

  /** One connection of a journal that holds a run: its reads return what it read, and writes in any slicing are
      accepted exactly if they are what it wrote. */
  method ReplayConn(events: File, ghost ops: seq<(nat, Op)>, conn: string, writes: seq<seq<byte>>, size: nat)
    returns (accepted: Option<bool>, chunk: seq<byte>)
    ensures HoldsRun(events, ops) && HasConn(events, conn) ==>
              accepted == Some(Flatten(writes) == Moved(OpsOf(ops), conn, Writes))
              && chunk == Head(Moved(OpsOf(ops), conn, Reads), size)
  {
    var s := BuildSession(events, true);
    OrderIsExact(events);
    if s.None? || conn !in s.value.conns {
      return None, [];
    }
    var t := s.value.conns[conn];
    chunk := t.Read(size);
    var ok := ReplayWrites(t, writes);
    accepted := Some(ok);
  }

  /** The whole way: sessions journal any interleaving of operations on one path, the chain is read back, and one
      connection is replayed, whoever else used the path meanwhile. It holds while rotation has dropped nothing,
      which is certain below `max_files * max_bytes` bytes. */
  method RecordManyThenReplay(disk: Disk, journals: seq<JsonlJournal>, ghost maxBytes: int, ghost maxFiles: int,
                              ops: seq<(nat, Op)>, conn: string, writes: seq<seq<byte>>, size: nat)
    returns (events: File, accepted: Option<bool>, chunk: seq<byte>)
    requires Writers(disk, journals, maxBytes, maxFiles) && AllOpen(journals) && disk.history == []
    requires forall i :: 0 <= i < |ops| ==> ops[i].0 < |journals|
    modifies disk, journals
    ensures Size(disk.history, disk.lineSize) < Kept(maxFiles) * maxBytes ==> events == disk.history
    ensures events == disk.history && (exists i :: 0 <= i < |ops| && ops[i].1.conn == conn) ==>
              accepted == Some(Flatten(writes) == Moved(OpsOf(ops), conn, Writes))
              && chunk == Head(Moved(OpsOf(ops), conn, Reads), size)
  {
    RecordMany(disk, journals, maxBytes, maxFiles, ops);
    events := ReadBack(disk, maxBytes, maxFiles);
    accepted, chunk := ReplayConn(events, ops, conn, writes, size);
  }
}
