/** The background reader's bounded drop-oldest buffer: a deque of chunks and an offset into the first one. It
    refines a window that moves along the received stream; expect-style reads and eviction move the window's start. */
module SerialReader {
  import opened Sequences

  // --- the window on the stream ---

  /** A completed expect-style read: the slice of the received stream it returned, and its pattern. */
  datatype Match = Match(start: nat, end: nat, pattern: seq<byte>)

  /** The completed reads, newest last. */
  datatype Log = NoReads | Then(before: Log, last: Match)

  /** All bytes ever received, where the unconsumed window and the first retained chunk start, how many bytes eviction
      has skipped, and the reads. */
  datatype Stream = Stream(received: seq<byte>, start: nat, base: nat, dropped: nat, log: Log)

  /** A read leaves the first retained chunk as it is, or moves its start to a chunk that reaches into what it took. */
  datatype Event = Arrive(data: seq<byte>) | Drop(n: nat) | Expect(pattern: seq<byte>, base: nat)

  const Empty := Stream([], 0, 0, 0, NoReads)

  function Unread(s: Stream): seq<byte>
    requires s.start <= |s.received|
  {
    s.received[s.start..]
  }

  predicate Can(s: Stream, e: Event) {
    s.base <= s.start <= |s.received| &&
    match e
    case Arrive(_) => true
    case Drop(n) => n <= |Unread(s)|
    case Expect(pattern, base) =>
      pattern != [] && Contains(Unread(s), pattern)
      && (base == s.base || s.start <= base <= s.start + Find(Unread(s), pattern) + |pattern|)
  }

  function Next(s: Stream, e: Event): Stream
    requires Can(s, e)
  {
    match e
    case Arrive(data) => s.(received := s.received + data)
    case Drop(n) => s.(start := s.start + n, base := if n == 0 then s.base else s.start + n, dropped := s.dropped + n)
    case Expect(pattern, base) =>
      var end := s.start + Find(Unread(s), pattern) + |pattern|;
      s.(start := end, base := base, log := Then(s.log, Match(s.start, end, pattern)))
  }

  ghost predicate Run(s: Stream, events: seq<Event>, end: Stream)
    decreases events
  {
    if events == [] then s == end
    else Can(s, events[0]) && Run(Next(s, events[0]), events[1..], end)
  }

  /** The lengths of the gaps in front of the first read and between consecutive ones. */
  function Gaps(log: Log): int {
    match log
    case NoReads => 0
    case Then(before, last) => Gaps(before) + last.start - LastEnd(before)
  }

  function LastEnd(log: Log): nat {
    match log
    case NoReads => 0
    case Then(_, last) => last.end
  }

  ghost predicate IsMatch(m: Match, received: seq<byte>) {
    && m.pattern != [] && m.start + |m.pattern| <= m.end <= |received|
    && Find(received[m.start..], m.pattern) == m.end - |m.pattern| - m.start
  }

  /** In order, disjoint, and each ending at the first occurrence of its pattern since its start. */
  ghost predicate Expected(log: Log, received: seq<byte>) {
    match log
    case NoReads => true
    case Then(before, last) => Expected(before, received) && IsMatch(last, received) && LastEnd(before) <= last.start
  }

  /** Every byte in front of the window was returned by a read or dropped, the gaps between the reads are the dropped
      bytes, and what was consumed of the first retained chunk was returned. */
  ghost predicate Accounted(s: Stream) {
    && s.base <= s.start <= |s.received|
    && Expected(s.log, s.received) && LastEnd(s.log) <= s.start
    && Gaps(s.log) + (s.start - LastEnd(s.log)) == s.dropped
    && Covered(s)
  }

  lemma {:induction false} ExpectedExtends(log: Log, received: seq<byte>, more: seq<byte>)
    requires Expected(log, received)
    ensures Expected(log, received + more)
  {
    match log
    case NoReads =>
    case Then(before, last) =>
      ExpectedExtends(before, received, more);
      FindExtend(received[last.start..], more, last.pattern);
      assert (received + more)[last.start..] == received[last.start..] + more;
  }

  lemma NextAccounted(s: Stream, e: Event)
    requires Accounted(s) && Can(s, e)
    ensures Accounted(Next(s, e))
  {
    match e
    case Arrive(data) => ExpectedExtends(s.log, s.received, data);
    case Drop(n) => NothingFrom(s.log, s.received, s.start + n);
    case Expect(pattern, base) =>
      assert At(Unread(s), pattern, Find(Unread(s), pattern));
      if base >= s.start {
        NothingFrom(s.log, s.received, base);
      }
  }

  /** Over every interleaving of arrivals, evictions and expect-style reads. */
  lemma {:induction false} RunAccounted(s: Stream, events: seq<Event>, end: Stream)
    requires Accounted(s) && Run(s, events, end)
    ensures Accounted(end)
    decreases events
  {
    if events != [] {
      NextAccounted(s, events[0]);
      RunAccounted(Next(s, events[0]), events[1..], end);
    }
  }

  predicate InLog(m: Match, log: Log) {
    log.Then? && (log.last == m || InLog(m, log.before))
  }

  /** Every read is a slice of the received stream cut at the first occurrence of its pattern, and it ends before
      any later read starts. */
  lemma {:induction false} ReadsAreDisjoint(log: Log, received: seq<byte>, m: Match)
    requires Expected(log, received) && InLog(m, log)
    ensures IsMatch(m, received) && m.end <= LastEnd(log) <= |received|
    ensures m != log.last ==> m.end <= log.last.start
  {
    if m != log.last {
      ReadsAreDisjoint(log.before, received, m);
    }
  }

  // --- what the reads have taken ---

  /** All bytes the reads returned. */
  function Returned(log: Log): int {
    match log
    case NoReads => 0
    case Then(before, last) => Returned(before) + last.end - last.start
  }

  /** Those of them at or behind a position. */
  function ReturnedFrom(log: Log, base: int): int {
    match log
    case NoReads => 0
    case Then(before, last) =>
      ReturnedFrom(before, base)
      + if last.end <= base then 0 else last.end - (if last.start < base then base else last.start)
  }

  /** Of the bytes in front of the window, those not dropped were returned. */
  lemma {:induction false} ReturnedOrDropped(log: Log, received: seq<byte>)
    requires Expected(log, received)
    ensures Returned(log) + Gaps(log) == LastEnd(log)
  {
    if log.Then? {
      ReturnedOrDropped(log.before, received);
    }
  }

  /** Nothing was returned behind the last read's end. */
  lemma {:induction false} NothingFrom(log: Log, received: seq<byte>, base: int)
    requires Expected(log, received) && LastEnd(log) <= base
    ensures ReturnedFrom(log, base) == 0
  {
    if log.Then? {
      NothingFrom(log.before, received, base);
    }
  }

  /** Everything returned lies behind a position exactly when every read starts there or later. */
  lemma {:induction false} AllReturnedFrom(log: Log, received: seq<byte>, base: int)
    requires Expected(log, received)
    ensures ReturnedFrom(log, base) <= Returned(log)
    ensures ReturnedFrom(log, base) == Returned(log) <==> forall m | InLog(m, log) :: m.start >= base
  {
    if log.Then? {
      AllReturnedFrom(log.before, received, base);
      assert InLog(log.last, log);
      assert forall m | InLog(m, log.before) :: InLog(m, log);
    }
  }

  /** The consumed bytes of the first retained chunk were all returned by reads. */
  ghost predicate Covered(s: Stream) {
    ReturnedFrom(s.log, s.base) == s.start - s.base
  }

  /** `lost` misses, of the bytes evicted or consumed, those that reads returned in front of the first retained
      chunk, so it misses nothing exactly when every read so far starts in that chunk. */
  ghost predicate Misses(s: Stream, lost: int) {
    s.dropped + Returned(s.log) == s.start
    && s.start - lost == Returned(s.log) - ReturnedFrom(s.log, s.base)
    && (lost == s.start <==> forall m | InLog(m, s.log) :: m.start >= s.base)
  }

  lemma WhatTailMisses(s: Stream)
    requires Accounted(s)
    ensures Misses(s, s.dropped + s.start - s.base)
  {
    ReturnedOrDropped(s.log, s.received);
    AllReturnedFrom(s.log, s.received, s.base);
  }

  lemma DropNothing(s: Stream)
    requires s.base <= s.start <= |s.received|
    ensures Can(s, Drop(0)) && Next(s, Drop(0)) == s
  {
  }

  lemma DropAgain(s: Stream, n: nat, m: nat)
    requires Can(s, Drop(n)) && Can(Next(s, Drop(n)), Drop(m))
    ensures Can(s, Drop(n + m)) && Next(Next(s, Drop(n)), Drop(m)) == Next(s, Drop(n + m))
  {
  }

  // --- the chunks ---

  function Total(chunks: seq<seq<byte>>): nat {
    |Flatten(chunks)|
  }

  function Window(chunks: seq<seq<byte>>, consumed: nat): seq<byte>
    requires consumed <= Total(chunks)
  {
    Flatten(chunks)[consumed..]
  }

  lemma WindowAdvance(chunks: seq<seq<byte>>, consumed: nat, n: nat)
    requires consumed + n <= Total(chunks)
    ensures Window(chunks, consumed + n) == Window(chunks, consumed)[n..]
  {
  }

  lemma WindowAppend(chunks: seq<seq<byte>>, consumed: nat, data: seq<byte>)
    requires consumed <= Total(chunks)
    ensures Total(chunks + [data]) == Total(chunks) + |data|
    ensures Window(chunks + [data], consumed) == Window(chunks, consumed) + data
  {
    FlattenSnoc(chunks, data);
  }

  lemma DropTwice<T>(s: seq<T>, a: nat, b: nat)
    requires a + b <= |s|
    ensures s[a..][b..] == s[a + b..]
  {
  }

  /** A partly consumed first chunk still has an unread byte; without chunks nothing is consumed. */
  predicate Shaped(chunks: seq<seq<byte>>, consumed: nat, chunkSize: int) {
    && (forall i :: 0 <= i < |chunks| ==> 0 < |chunks[i]| <= chunkSize)
    && (if chunks == [] then consumed == 0 else consumed < |chunks[0]|)
  }

  lemma FirstFits(chunks: seq<seq<byte>>)
    ensures chunks != [] ==> |chunks[0]| <= Total(chunks)
    ensures |chunks| == 1 ==> |chunks[0]| == Total(chunks)
  {
    if |chunks| == 1 {
      assert Flatten(chunks[1..]) == [];
    }
  }

  /** Taking the first chunk out leaves a well-shaped rest and moves the window behind that chunk. */
  lemma PopFirst(chunks: seq<seq<byte>>, consumed: nat, chunkSize: int)
    requires chunks != [] && Shaped(chunks, consumed, chunkSize)
    ensures Shaped(chunks[1..], 0, chunkSize)
    ensures Total(chunks) == |chunks[0]| + Total(chunks[1..])
    ensures Window(chunks[1..], 0) == Window(chunks, consumed)[|chunks[0]| - consumed..]
    ensures |chunks| == 1 ==> Total(chunks) == |chunks[0]|
  {
    FirstFits(chunks);
    assert Window(chunks[1..], 0) == Flatten(chunks[1..]);
  }

  class SerialReader {
    const maxBytes: int
    const chunkSize: int
    var chunks: seq<seq<byte>>
    var bytes: int
    var dropped: int
    var consumed: nat
    ghost var stream: Stream

    constructor (maxBytes: int, chunkSize: int)
      requires 0 < chunkSize <= maxBytes
      ensures Valid() && stream == Empty
      ensures this.maxBytes == maxBytes && this.chunkSize == chunkSize
    {
      this.maxBytes, this.chunkSize := maxBytes, chunkSize;
      chunks, bytes, dropped, consumed := [], 0, 0, 0;
      stream := Empty;
    }

    /** The buffer holds exactly the unread end of the received stream. */
    ghost predicate Refines()
      reads this
    {
      && 0 < chunkSize <= maxBytes && Shaped(chunks, consumed, chunkSize)
      && bytes == Total(chunks) && consumed <= Total(chunks)
      && stream.start <= |stream.received| && Window(chunks, consumed) == Unread(stream)
      && dropped == stream.dropped && stream.base + consumed == stream.start
    }

    ghost predicate Valid()
      reads this
    {
      Refines() && bytes <= maxBytes
    }

    /** The thread's append: the new chunk comes in, and the oldest `k` chunks go, as few as the bound allows;
        the `n` unread bytes in them are dropped. */
    method Append(data: seq<byte>) returns (ghost k: nat, ghost n: nat)
      requires Valid() && 0 < |data| <= chunkSize
      modifies this
      ensures Valid() && Can(Next(old(stream), Arrive(data)), Drop(n))
      ensures stream == Next(Next(old(stream), Arrive(data)), Drop(n))
      ensures k <= |old(chunks)| && chunks == (old(chunks) + [data])[k..]
      ensures k > 0 ==> Total((old(chunks) + [data])[k - 1..]) > maxBytes
      ensures if k > 0 then consumed == 0 else consumed == old(consumed) && n == 0
    {
      WindowAppend(chunks, consumed, data);
      chunks := chunks + [data];
      bytes := bytes + |data|;
      assert (stream.received + data)[stream.start..] == Unread(stream) + data;
      stream := Next(stream, Arrive(data));
      k, n := Evict();
    }

    /** Drops whole oldest chunks until the bound holds. */
    method Evict() returns (ghost k: nat, ghost n: nat)
      requires Refines() && chunks != []
      modifies this`chunks, this`bytes, this`dropped, this`consumed, this`stream
      ensures Valid() && Can(old(stream), Drop(n)) && stream == Next(old(stream), Drop(n))
      ensures k < |old(chunks)| && chunks == old(chunks)[k..]
      ensures k > 0 ==> Total(old(chunks)[k - 1..]) > maxBytes
      ensures if k > 0 then consumed == 0 else consumed == old(consumed) && n == 0
    {
      ghost var all, before := chunks, stream;
      k, n := 0, 0;
      DropNothing(stream);
      hide *;
      while bytes > maxBytes && chunks != []
        invariant Refines() && k < |all| && chunks == all[k..] && chunks != []
        invariant k > 0 ==> Total(all[k - 1..]) > maxBytes
        invariant if k > 0 then consumed == 0 else consumed == old(consumed) && n == 0
        invariant Can(before, Drop(n)) && stream == Next(before, Drop(n))
        decreases |chunks|
      {
        ghost var m := DropOldest();
        DropTwice(all, k, 1);
        DropAgain(before, n, m);
        k, n := k + 1, n + m;
      }
      WithinBound();
    }

    lemma WithinBound()
      requires Refines() && bytes <= maxBytes
      ensures Valid()
    {
    }

    /** One turn of the eviction loop. */
    method DropOldest() returns (ghost n: nat)
      requires Refines() && bytes > maxBytes && chunks != []
      modifies this`chunks, this`bytes, this`dropped, this`consumed, this`stream
      ensures Refines() && Can(old(stream), Drop(n)) && stream == Next(old(stream), Drop(n))
      ensures chunks == old(chunks)[1..] && chunks != [] && consumed == 0 && Total(old(chunks)) > maxBytes
    {
      var oldest := chunks[0];
      PopFirst(chunks, consumed, chunkSize);
      n := |oldest| - consumed;
      DropTwice(stream.received, stream.start, n);
      chunks := chunks[1..];
      var live := |oldest| - consumed;
      dropped := dropped + (if live > 0 then live else 0);
      bytes := bytes - |oldest|;
      consumed := 0;
      stream := Next(stream, Drop(n));
    }

    /** The live unconsumed content, chunk by chunk. */
    method Snapshot() returns (buf: seq<byte>)
      requires Valid()
      ensures buf == Unread(stream)
    {
      if chunks == [] {
        return [];
      }
      var first := true;
      buf := [];
      var i := 0;
      while i < |chunks|
        invariant 0 <= i <= |chunks| && (first <==> i == 0)
        invariant !first ==> consumed <= Total(chunks[..i]) && buf == Window(chunks[..i], consumed)
        invariant first ==> buf == []
      {
        assert chunks[..i + 1] == chunks[..i] + [chunks[i]];
        FlattenSnoc(chunks[..i], chunks[i]);
        if first {
          buf := buf + chunks[i][consumed..];
          first := false;
        } else {
          buf := buf + chunks[i];
        }
        i := i + 1;
      }
      assert chunks[..i] == chunks;
    }

    /** Removes the first bytes of the window: a partly consumed chunk stays, a used-up one goes. */
    method Consume(nbytes: nat)
      requires 0 < chunkSize && Shaped(chunks, consumed, chunkSize) && bytes == Total(chunks)
      requires consumed + nbytes <= bytes
      modifies this`chunks, this`bytes, this`consumed
      ensures Shaped(chunks, consumed, chunkSize) && bytes == Total(chunks) && consumed <= bytes <= old(bytes)
      ensures Window(chunks, consumed) == Window(old(chunks), old(consumed))[nbytes..]
      ensures consumed == old(consumed) + nbytes || consumed <= nbytes
    {
      ghost var w := Window(chunks, consumed);
      var take := nbytes;
      while take > 0 && chunks != []
        invariant Shaped(chunks, consumed, chunkSize) && bytes == Total(chunks) && bytes <= old(bytes)
        invariant 0 <= take <= nbytes <= |w| && take <= bytes - consumed
        invariant Window(chunks, consumed) == w[nbytes - take..]
        invariant consumed == old(consumed) + (nbytes - take) || consumed <= nbytes - take
        decreases take
      {
        var left := ConsumeFirst(take);
        DropTwice(w, nbytes - take, take - left);
        take := left;
      }
    }

    /** One turn of the consumption loop; returns how much is left to take from the chunks behind the first. */
    method ConsumeFirst(take: nat) returns (left: nat)
      requires 0 < chunkSize && Shaped(chunks, consumed, chunkSize) && bytes == Total(chunks)
      requires chunks != [] && 0 < take <= bytes - consumed
      modifies this`chunks, this`bytes, this`consumed
      ensures Shaped(chunks, consumed, chunkSize) && bytes == Total(chunks) && bytes <= old(bytes)
      ensures left < take && left <= bytes - consumed
      ensures Window(chunks, consumed) == Window(old(chunks), old(consumed))[take - left..]
      ensures if left == 0 && chunks == old(chunks) then consumed == old(consumed) + take else consumed == 0
    {
      var avail := |chunks[0]| - consumed;
      PopFirst(chunks, consumed, chunkSize);
      if take < avail {
        WindowAdvance(chunks, consumed, take);
        consumed := consumed + take;
        return 0;
      }
      left := take - avail;
      PopChunk();
    }

    /** Removes the first chunk, used up to its end. */
    method PopChunk()
      requires 0 < chunkSize && Shaped(chunks, consumed, chunkSize) && bytes == Total(chunks) && chunks != []
      modifies this`chunks, this`bytes, this`consumed
      ensures chunks == old(chunks)[1..] && consumed == 0 && bytes == old(bytes) - |old(chunks)[0]|
      ensures Shaped(chunks, consumed, chunkSize) && bytes == Total(chunks)
    {
      PopFirst(chunks, consumed, chunkSize);
      var chunk := chunks[0];
      chunks := chunks[1..];
      bytes := bytes - |chunk|;
      consumed := 0;
    }

    /** One locked look of an expect-style read: on a match it returns everything up to the end of the pattern's first
        occurrence and moves the window behind it; without one nothing changes. */
    method Attempt(pattern: seq<byte>) returns (found: bool, data: seq<byte>)
      requires Valid() && pattern != []
      modifies this`chunks, this`bytes, this`consumed, this`stream
      ensures Valid()
      ensures found <==> Contains(Unread(old(stream)), pattern)
      ensures found ==> Can(old(stream), Expect(pattern, stream.base))
                        && stream == Next(old(stream), Expect(pattern, stream.base))
                        && data == stream.received[old(stream).start..stream.start]
      ensures !found ==> stream == old(stream) && data == Unread(stream)
                         && chunks == old(chunks) && consumed == old(consumed)
    {
      var buf := Snapshot();
      var pos := Find(buf, pattern);
      if pos < 0 {
        return false, buf;
      }
      var end := pos + |pattern|;
      Consume(end);
      DropTwice(stream.received, stream.start, end);
      stream := Next(stream, Expect(pattern, stream.start + end - consumed));
      found, data := true, buf[..end];
    }

    /** Looks for the pattern again and again; between two looks the thread appends what arrives. The list of arrivals
        ends where the deadline, a dead port or the stop ends the loop. Success is one expect-style read at the end of
        a run; giving up returns the whole unread window of the last look. */
    method ReadUntil(pattern: seq<byte>, arrivals: seq<seq<seq<byte>>>)
      returns (found: bool, data: seq<byte>, ghost events: seq<Event>)
      requires Valid() && pattern != []
      requires forall i, j :: 0 <= i < |arrivals| && 0 <= j < |arrivals[i]| ==> 0 < |arrivals[i][j]| <= chunkSize
      modifies this
      ensures Valid() && Run(old(stream), events, stream)
      ensures found ==> stream.log.Then? && stream.log.last.pattern == pattern && stream.log.last.end == stream.start
                        && stream.log.last.start <= stream.start <= |stream.received|
                        && data == stream.received[stream.log.last.start..stream.start]
      ensures !found ==> data == Unread(stream) && !Contains(data, pattern)
    {
      events := [];
      var i := 0;
      while true
        invariant 0 <= i <= |arrivals| && Valid() && Run(old(stream), events, stream)
        decreases |arrivals| - i
      {
        ghost var mid := stream;
        found, data := Attempt(pattern);
        if found {
          RunSnoc(old(stream), events, mid, Expect(pattern, stream.base));
          events := events + [Expect(pattern, stream.base)];
          return;
        }
        if i == |arrivals| {
          return;
        }
        ghost var more := AppendAll(arrivals[i]);
        RunAppend(old(stream), events, mid, more, stream);
        events := events + more;
        i := i + 1;
      }
    }

    method AppendAll(batch: seq<seq<byte>>) returns (ghost events: seq<Event>)
      requires Valid() && forall i :: 0 <= i < |batch| ==> 0 < |batch[i]| <= chunkSize
      modifies this
      ensures Valid() && Run(old(stream), events, stream)
    {
      events := [];
      var i := 0;
      while i < |batch|
        invariant 0 <= i <= |batch| && Valid() && Run(old(stream), events, stream)
      {
        ghost var s := stream;
        ghost var _, n := Append(batch[i]);
        RunSnoc(old(stream), events, s, Arrive(batch[i]));
        RunSnoc(old(stream), events + [Arrive(batch[i])], Next(s, Arrive(batch[i])), Drop(n));
        events := events + [Arrive(batch[i])] + [Drop(n)];
        i := i + 1;
      }
    }

    /** The newest bytes, without consuming them. Promised with them is the number of bytes evicted or consumed,
        which is the start of the window. After any run, which accounts for the stream, `lost` is that number
        exactly when every read so far starts in the first retained chunk; otherwise it misses what reads returned
        in front of that chunk. */
    method Tail(size: nat) returns (newest: seq<byte>, lost: int)
      requires Valid() && size >= 1
      ensures newest == if |Unread(stream)| <= size then Unread(stream) else stream.received[|stream.received| - size..]
      ensures lost == stream.dropped + stream.start - stream.base
      ensures Accounted(stream) ==> Misses(stream, lost)
    {
      if Accounted(stream) {
        WhatTailMisses(stream);
      }
      var buf := Snapshot();
      newest := Slice(buf, -(size as int), |buf|);
      lost := if chunks != [] then dropped + consumed else dropped;
    }
  }

  lemma RunSnoc(s: Stream, events: seq<Event>, mid: Stream, e: Event)
    requires Run(s, events, mid) && Can(mid, e)
    ensures Run(s, events + [e], Next(mid, e))
    decreases events
  {
    RunAppend(s, events, mid, [e], Next(mid, e));
  }

  lemma {:induction false} RunAppend(s: Stream, a: seq<Event>, mid: Stream, b: seq<Event>, end: Stream)
    requires Run(s, a, mid) && Run(mid, b, end)
    ensures Run(s, a + b, end)
    decreases a
  {
    if a == [] {
      assert a + b == b;
    } else {
      assert (a + b)[1..] == a[1..] + b;
      RunAppend(Next(s, a[0]), a[1..], mid, b, end);
    }
  }

  const Two := Stream([7, 8], 0, 0, 0, NoReads)

  lemma TwoTaken()
    ensures Can(Two, Expect([8], 2)) && Next(Two, Expect([8], 2)).start == 2
  {
    var s: seq<byte>, p: seq<byte> := [7, 8], [8];
    assert s[0..1] == [7] && s[1..2] == p;
    assert !At(s, p, 0) && At(s, p, 1);
    assert Unread(Two) == s;
  }

  method HoldingTwo() returns (r: SerialReader)
    ensures fresh(r) && r.Valid() && r.stream == Two
  {
    r := new SerialReader(4, 2);
    ghost var k, n := r.Append([7, 8]);
    assert [] + [7, 8] == [7, 8];
  }

  /** Two bytes taken by a match use up their chunk, and the tail then counts nothing as lost. */
  method TailUnderstates() returns (taken: seq<byte>, lost: int)
    ensures taken == [7, 8] && lost == 0
  {
    TwoTaken();
    var r := HoldingTwo();
    var found;
    found, taken := r.Attempt([8]);
    assert Unread(r.stream) == [];
    FirstFits(r.chunks);
    var newest;
    newest, lost := r.Tail(4);
  }
}
