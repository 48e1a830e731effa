/** The JSONL journal: sequence-numbered records appended under one lock by any number of writers, rotation of
    the full live file into numbered parts, and the chain read that puts the parts back together. */
module Journal {
  import opened Sequences

  /** One line. `writer` tells the writer objects apart. */
  datatype Rec =
    | Event(writer: nat, number: nat, kind: string, fields: map<string, string>)
    | Conflict(writer: nat, number: nat, requestedKind: string, keys: set<string>)

  type File = seq<Rec>

  const RESERVED_KEYS := {"ts", "seq", "actor", "kind"}

  /** The live file and the numbered parts `.1`, `.2`, ... */
  datatype Chain = Chain(live: Option<File>, parts: map<int, File>)

  function Size(f: File, lineSize: Rec -> nat): nat {
    if f == [] then 0 else lineSize(f[0]) + Size(f[1..], lineSize)
  }

  function Live(c: Chain): File {
    match c.live
    case Some(f) => f
    case None => []
  }

  /** Parts `k` down to 1, oldest first. */
  function Archive(parts: map<int, File>, k: nat): File
    requires forall i :: 1 <= i <= k ==> i in parts
  {
    if k == 0 then [] else parts[k] + Archive(parts, k - 1)
  }

  /** At least one part is always kept: the rename to `.1` happens for every bound. */
  function Kept(maxFiles: int): nat {
    if maxFiles >= 1 then maxFiles else 1
  }

  ghost predicate PartsAre(parts: map<int, File>, k: nat) {
    forall i :: i in parts <==> 1 <= i <= k
  }

  // --- rotation, as a function on chains ---

  function Rotated(c: Chain, maxFiles: int): Chain
    requires c.live.Some?
  {
    Chain(None, Shifted(c.parts, maxFiles)[1 := c.live.value])
  }

  /** A write: a live file below the size bound grows, a full one becomes part .1 and the lines start the next. */
  ghost predicate Wrote(c: Chain, d: Chain, lines: File, lineSize: Rec -> nat, maxBytes: int, maxFiles: int)
    requires c.live.Some?
  {
    if Size(Live(c), lineSize) < maxBytes then d == Chain(Some(Live(c) + lines), c.parts)
    else d == Chain(Some(lines), Rotated(c, maxFiles).parts)
  }

  /** Every part one number up; the one that would pass the bound is gone. */
  function Shifted(parts: map<int, File>, maxFiles: int): map<int, File> {
    ShiftDown(parts - {maxFiles}, maxFiles - 1)
  }

  /** The renames of one rotation, highest number first, so that no part is overwritten. */
  function ShiftDown(parts: map<int, File>, i: int): map<int, File>
    decreases i
  {
    if i <= 0 then parts else ShiftDown(Rename(parts, i), i - 1)
  }

  function Rename(parts: map<int, File>, i: int): map<int, File> {
    if i in parts then parts[i + 1 := parts[i]] - {i} else parts
  }

  /** Where part `.j` comes from after the renames from `i` down. */
  lemma {:induction false} ShiftDownAt(parts: map<int, File>, i: int, j: int)
    requires i >= 0 && i + 1 !in parts
    ensures var after := ShiftDown(parts, i);
            var source := if 2 <= j <= i + 1 then j - 1 else j;
            if j == 1 then j !in after
            else (j in after <==> source in parts) && (j in after ==> after[j] == parts[source])
    decreases i
  {
    if i > 0 {
      ShiftDownAt(Rename(parts, i), i - 1, j);
    }
  }

  lemma {:induction false} ShiftedArchive(parts: map<int, File>, next: map<int, File>, live: File, j: nat)
    requires forall i {:trigger parts[i]} :: 1 <= i <= j ==> i in parts && i + 1 in next && next[i + 1] == parts[i]
    requires forall i :: 1 <= i <= j ==> i in parts
    requires forall i :: 1 <= i <= j + 1 ==> i in next
    requires next[1] == live
    ensures Archive(next, j + 1) == Archive(parts, j) + live
  {
    if j > 0 {
      assert next[j + 1] == parts[j];
      ShiftedArchive(parts, next, live, j - 1);
    }
  }

  lemma {:induction false} SizeAppend(a: File, b: File, lineSize: Rec -> nat)
    ensures Size(a + b, lineSize) == Size(a, lineSize) + Size(b, lineSize)
  {
    if a == [] {
      assert a + b == b;
    } else {
      assert (a + b)[1..] == a[1..] + b;
      SizeAppend(a[1..], b, lineSize);
    }
  }

  /** A file is as long as its lines together. */
  lemma SizeSnoc(f: File, r: Rec, lineSize: Rec -> nat)
    ensures Size([], lineSize) == 0 && Size(f + [r], lineSize) == Size(f, lineSize) + lineSize(r)
  {
    SizeAppend(f, [r], lineSize);
    assert Size([r], lineSize) == lineSize(r);
  }

  // --- what every run keeps ---

  /** A record at position `i` that reports a key conflict stands directly behind its event. */
  ghost predicate FollowsItsEvent(f: File, i: nat)
    requires i < |f|
  {
    f[i].Conflict? ==>
      i > 0 && f[i - 1].Event? && f[i - 1].writer == f[i].writer
      && f[i - 1].number + 1 == f[i].number && f[i - 1].kind == f[i].requestedKind
  }

  ghost predicate WholeEvents(f: File) {
    forall i :: 0 <= i < |f| ==> FollowsItsEvent(f, i)
  }

  lemma WholeAppend(a: File, b: File)
    requires WholeEvents(a) && WholeEvents(b)
    ensures WholeEvents(a + b)
  {
    forall i | 0 <= i < |a + b| ensures FollowsItsEvent(a + b, i) {
      if i < |a| {
        assert FollowsItsEvent(a, i);
      } else {
        assert FollowsItsEvent(b, i - |a|);
      }
    }
  }

  /** The chain against the history of everything ever appended: the parts are exactly .1 to .k within the
      bound, they and the live file are the newest records without the first `lost`, and a loss means
      the archive is full of parts that had reached the size bound. */
  ghost predicate Holds(c: Chain, history: File, k: nat, lost: nat, lineSize: Rec -> nat, maxBytes: int, maxFiles: int)
  {
    && PartsAre(c.parts, k) && k <= Kept(maxFiles)
    && lost <= |history| && Archive(c.parts, k) + Live(c) == history[lost..]
    && (lost > 0 ==> k == Kept(maxFiles))
    && (forall i :: 1 <= i <= k ==> Size(c.parts[i], lineSize) >= maxBytes && WholeEvents(c.parts[i]))
    && WholeEvents(Live(c))
  }

  ghost predicate KeepsHistory(c: Chain, history: File, lineSize: Rec -> nat, maxBytes: int, maxFiles: int) {
    exists k: nat, lost: nat :: Holds(c, history, k, lost, lineSize, maxBytes, maxFiles)
  }

  /** The parts after a rotation: `m` parts moved up by one and the live file became `.1`. */
  lemma RotatedParts(c: Chain, k: nat, m: nat, maxFiles: int)
    requires c.live.Some? && PartsAre(c.parts, k) && k <= Kept(maxFiles)
    requires m == if k < Kept(maxFiles) then k else k - 1
    ensures var next := Rotated(c, maxFiles).parts;
            && PartsAre(next, m + 1) && next[1] == c.live.value
            && (forall i {:trigger c.parts[i]} :: 1 <= i <= m ==>
                  i in c.parts && i + 1 in next && next[i + 1] == c.parts[i])
  {
    var kept := c.parts - {maxFiles};
    var next := Rotated(c, maxFiles).parts;
    if maxFiles >= 1 {
      forall i {:trigger c.parts[i]} | 1 <= i <= m ensures i in c.parts && i + 1 in next && next[i + 1] == c.parts[i] {
        ShiftDownAt(kept, maxFiles - 1, i + 1);
      }
      forall j ensures j in next <==> 1 <= j <= m + 1 {
        ShiftDownAt(kept, maxFiles - 1, j);
      }
    } else {
      assert kept == c.parts;
    }
  }

  lemma DropOldest(oldest: File, rest: File, live: File, history: File, lost: nat)
    requires lost <= |history| && oldest + rest + live == history[lost..]
    ensures lost + |oldest| <= |history| && history[lost + |oldest|..] == rest + live
  {
    assert oldest + rest + live == oldest + (rest + live);
    assert history[lost + |oldest|..] == history[lost..][|oldest|..];
  }

  /** The parts after a rotation read as the history without the dropped part. */
  lemma RotatedReads(c: Chain, history: File, k: nat, m: nat, lost: nat, maxFiles: int)
    requires c.live.Some? && PartsAre(c.parts, k) && k <= Kept(maxFiles) && lost <= |history|
    requires Archive(c.parts, k) + Live(c) == history[lost..]
    requires m == if k < Kept(maxFiles) then k else k - 1
    ensures var next, at := Rotated(c, maxFiles).parts, lost + if m < k then |c.parts[k]| else 0;
            PartsAre(next, m + 1) && at <= |history| && Archive(next, m + 1) == history[at..]
  {
    hide Rotated;
    RotatedParts(c, k, m, maxFiles);
    ShiftedArchive(c.parts, Rotated(c, maxFiles).parts, c.live.value, m);
    if m < k {
      DropOldest(c.parts[k], Archive(c.parts, m), Live(c), history, lost);
    }
  }

  /** Rotation drops at most the oldest part of a full archive and keeps everything else in order. */
  lemma RotateHolds(c: Chain, history: File, k: nat, m: nat, lost: nat, lineSize: Rec -> nat,
                    maxBytes: int, maxFiles: int)
    requires Holds(c, history, k, lost, lineSize, maxBytes, maxFiles)
    requires c.live.Some? && Size(c.live.value, lineSize) >= maxBytes
    requires m == if k < Kept(maxFiles) then k else k - 1
    ensures m < k ==> k in c.parts
    ensures Holds(Rotated(c, maxFiles), history, m + 1, lost + (if m < k then |c.parts[k]| else 0), lineSize,
                  maxBytes, maxFiles)
  {
    assert WholeEvents([]);
    hide Size, WholeEvents, Archive, Shifted;
    var next := Rotated(c, maxFiles).parts;
    RotatedParts(c, k, m, maxFiles);
    RotatedReads(c, history, k, m, lost, maxFiles);
    forall i | 1 <= i <= m + 1 ensures Size(next[i], lineSize) >= maxBytes && WholeEvents(next[i]) {
      if i > 1 { assert next[i] == c.parts[i - 1]; }
    }
    assert Archive(next, m + 1) + [] == Archive(next, m + 1);
  }

  lemma RotationKeeps(c: Chain, history: File, lineSize: Rec -> nat, maxBytes: int, maxFiles: int)
    requires KeepsHistory(c, history, lineSize, maxBytes, maxFiles)
    requires c.live.Some? && Size(c.live.value, lineSize) >= maxBytes
    ensures KeepsHistory(Rotated(c, maxFiles), history, lineSize, maxBytes, maxFiles)
  {
    var k: nat, lost: nat :| Holds(c, history, k, lost, lineSize, maxBytes, maxFiles);
    RotateHolds(c, history, k, if k < Kept(maxFiles) then k else k - 1, lost, lineSize, maxBytes, maxFiles);
  }

  lemma ProbeKeeps(c: Chain, history: File, lineSize: Rec -> nat, maxBytes: int, maxFiles: int)
    requires KeepsHistory(c, history, lineSize, maxBytes, maxFiles)
    ensures KeepsHistory(c.(live := Some(Live(c))), history, lineSize, maxBytes, maxFiles)
  {
    var k: nat, lost: nat :| Holds(c, history, k, lost, lineSize, maxBytes, maxFiles);
    assert Holds(c.(live := Some(Live(c))), history, k, lost, lineSize, maxBytes, maxFiles);
  }

  lemma AppendKeeps(c: Chain, history: File, lines: File, lineSize: Rec -> nat, maxBytes: int, maxFiles: int)
    requires KeepsHistory(c, history, lineSize, maxBytes, maxFiles) && WholeEvents(lines)
    ensures KeepsHistory(c.(live := Some(Live(c) + lines)), history + lines, lineSize, maxBytes, maxFiles)
  {
    var k: nat, lost: nat :| Holds(c, history, k, lost, lineSize, maxBytes, maxFiles);
    var d := c.(live := Some(Live(c) + lines));
    assert (history + lines)[lost..] == history[lost..] + lines;
    assert Archive(c.parts, k) + (Live(c) + lines) == (Archive(c.parts, k) + Live(c)) + lines;
    WholeAppend(Live(c), lines);
    assert Holds(d, history + lines, k, lost, lineSize, maxBytes, maxFiles);
  }

  lemma {:induction false} ArchiveSize(parts: map<int, File>, k: nat, lineSize: Rec -> nat, maxBytes: int)
    requires forall i :: 1 <= i <= k ==> i in parts && Size(parts[i], lineSize) >= maxBytes
    ensures Size(Archive(parts, k), lineSize) >= k * maxBytes
  {
    if k > 0 {
      ArchiveSize(parts, k - 1, lineSize, maxBytes);
      var rest := Archive(parts, k - 1);
      assert Archive(parts, k) == parts[k] + rest;
      hide Archive, Size;
      SizeAppend(parts[k], rest, lineSize);
      OneMore(k, maxBytes);
    }
  }

  lemma OneMore(k: int, n: int)
    ensures (k - 1) * n + n == k * n
  {
  }

  /** Whatever was lost is older than the last `max_files * max_bytes` bytes of the history. */
  lemma LossIsOld(c: Chain, history: File, k: nat, lost: nat, lineSize: Rec -> nat, maxBytes: int, maxFiles: int)
    requires Holds(c, history, k, lost, lineSize, maxBytes, maxFiles) && lost > 0
    ensures Size(history[lost..], lineSize) >= Kept(maxFiles) * maxBytes
  {
    ArchiveSize(c.parts, k, lineSize, maxBytes);
    SizeAppend(Archive(c.parts, k), Live(c), lineSize);
  }

  lemma {:induction false} ArchiveWhole(parts: map<int, File>, k: nat, live: File)
    requires forall i :: 1 <= i <= k ==> i in parts && WholeEvents(parts[i])
    requires WholeEvents(live)
    ensures WholeEvents(Archive(parts, k) + live)
  {
    if k == 0 {
      assert [] + live == live;
    } else {
      ArchiveWhole(parts, k - 1, live);
      var rest := Archive(parts, k - 1) + live;
      assert Archive(parts, k) + live == parts[k] + rest;
      WholeAppend(parts[k], rest);
    }
  }

  /** A loss never separates a conflict record from its event: what is still there is whole. */
  lemma RetainedIsWhole(c: Chain, history: File, k: nat, lost: nat, lineSize: Rec -> nat, maxBytes: int, maxFiles: int)
    requires Holds(c, history, k, lost, lineSize, maxBytes, maxFiles)
    ensures WholeEvents(history[lost..])
  {
    ArchiveWhole(c.parts, k, Live(c));
  }

  // --- numbering ---

  /** The sequence numbers one writer has put into a history, in order. */
  function NumbersOf(h: File, writer: nat): seq<nat> {
    if h == [] then []
    else NumbersOf(h[..|h| - 1], writer) + (if h[|h| - 1].writer == writer then [h[|h| - 1].number] else [])
  }

  function OneTo(n: nat): (s: seq<nat>)
    ensures |s| == n && forall i :: 0 <= i < n ==> s[i] == i + 1
  {
    seq(n, i requires 0 <= i => i + 1)
  }

  lemma NumbersSnoc(h: File, r: Rec, writer: nat)
    ensures NumbersOf(h + [r], writer) == NumbersOf(h, writer) + (if r.writer == writer then [r.number] else [])
  {
    assert (h + [r])[..|h|] == h;
  }

  /** The lines of one call: the event, and the conflict record if reserved keys were in the payload. */
  function Lines(writer: nat, number: nat, kind: string, data: map<string, string>): File {
    var conflicts := data.Keys * RESERVED_KEYS;
    [Event(writer, number + 1, kind, data - RESERVED_KEYS)]
    + (if conflicts != {} then [Conflict(writer, number + 2, kind, conflicts)] else [])
  }

  predicate Reserved(key: string) {
    key == "ts" || key == "seq" || key == "actor" || key == "kind"
  }

  predicate HasReserved(data: map<string, string>) {
    exists k <- data :: Reserved(k)
  }

  /** The fields are the entries of the payload that do not use a reserved key, each with its value. */
  ghost predicate Unreserved(fields: map<string, string>, data: map<string, string>) {
    forall k :: (k in fields <==> k in data && !Reserved(k)) && (k in fields ==> fields[k] == data[k])
  }

  /** What one call writes, from its payload alone: one event with the unreserved entries, and directly behind it a
      record of the conflict exactly if some key is reserved, with exactly those keys. */
  lemma LinesTell(writer: nat, number: nat, kind: string, data: map<string, string>)
    ensures var lines := Lines(writer, number, kind, data);
            |lines| == (if HasReserved(data) then 2 else 1)
            && lines[0].Event? && lines[0].writer == writer && lines[0].number == number + 1
            && lines[0].kind == kind && Unreserved(lines[0].fields, data)
            && (HasReserved(data) ==>
                  lines[1].Conflict? && lines[1].writer == writer && lines[1].number == number + 2
                  && lines[1].requestedKind == kind
                  && forall k :: k in lines[1].keys <==> k in data && Reserved(k))
  {
    var conflicts := data.Keys * RESERVED_KEYS;
    assert forall k :: k in conflicts <==> k in data && Reserved(k);
    assert HasReserved(data) <==> conflicts != {};
  }

  function Conflicts(h: File): nat {
    if h == [] then 0 else Conflicts(h[..|h| - 1]) + if h[|h| - 1].Conflict? then 1 else 0
  }

  lemma ConflictsSnoc(h: File, r: Rec)
    ensures Conflicts(h + [r]) == Conflicts(h) + if r.Conflict? then 1 else 0
  {
    assert (h + [r])[..|h|] == h;
  }

  /** One call leaves one conflict record, or none. */
  lemma LinesConflicts(h: File, writer: nat, number: nat, kind: string, data: map<string, string>)
    ensures Conflicts(h + Lines(writer, number, kind, data)) == Conflicts(h) + if HasReserved(data) then 1 else 0
  {
    var lines := Lines(writer, number, kind, data);
    LinesTell(writer, number, kind, data);
    hide Lines, Conflicts;
    ConflictsSnoc(h, lines[0]);
    if |lines| == 1 {
      assert h + lines == h + [lines[0]];
    } else {
      ConflictsSnoc(h + [lines[0]], lines[1]);
      assert h + lines == h + [lines[0]] + [lines[1]];
    }
  }

  lemma LinesNumbered(h: File, writer: nat, number: nat, kind: string, data: map<string, string>, other: nat)
    requires NumbersOf(h, writer) == OneTo(number)
    ensures var lines := Lines(writer, number, kind, data);
            && WholeEvents(lines)
            && NumbersOf(h + lines, writer) == OneTo(number + |lines|)
            && (other != writer ==> NumbersOf(h + lines, other) == NumbersOf(h, other))
  {
    var lines := Lines(writer, number, kind, data);
    LinesShape(writer, number, kind, data);
    hide NumbersOf, OneTo, Lines, WholeEvents;
    NextNumber(h, lines[0], writer, number, other);
    if |lines| == 1 {
      assert h + lines == h + [lines[0]];
    } else {
      assert h + lines == h + [lines[0]] + [lines[1]];
      NextNumber(h + [lines[0]], lines[1], writer, number + 1, other);
    }
  }

  lemma LinesShape(writer: nat, number: nat, kind: string, data: map<string, string>)
    ensures var lines := Lines(writer, number, kind, data);
            1 <= |lines| <= 2 && WholeEvents(lines)
            && forall i :: 0 <= i < |lines| ==> lines[i].writer == writer && lines[i].number == number + 1 + i
  {
  }

  lemma NextNumber(h: File, r: Rec, writer: nat, number: nat, other: nat)
    requires NumbersOf(h, writer) == OneTo(number) && r.writer == writer && r.number == number + 1
    ensures NumbersOf(h + [r], writer) == OneTo(number + 1)
    ensures other != writer ==> NumbersOf(h + [r], other) == NumbersOf(h, other)
  {
    NumbersSnoc(h, r, writer);
    NumbersSnoc(h, r, other);
    hide NumbersOf;
    assert OneTo(number + 1) == OneTo(number) + [number + 1];
  }

  lemma CallNumbers(h: File, writer: nat, number: nat, kind: string, data: map<string, string>)
    requires NumbersOf(h, writer) == OneTo(number)
    ensures var lines := Lines(writer, number, kind, data);
            && WholeEvents(lines) && NumbersOf(h + lines, writer) == OneTo(number + |lines|)
            && forall w :: w != writer ==> NumbersOf(h + lines, w) == NumbersOf(h, w)
  {
    forall w {
      LinesNumbered(h, writer, number, kind, data, w);
    }
  }

  lemma {:induction false} NumbersAppend(a: File, b: File, writer: nat)
    ensures NumbersOf(a + b, writer) == NumbersOf(a, writer) + NumbersOf(b, writer)
    decreases |b|
  {
    if b == [] {
      assert a + b == a;
    } else {
      var last := b[|b| - 1];
      var less := b[..|b| - 1];
      assert b == less + [last] && a + b == (a + less) + [last];
      NumbersSnoc(a + less, last, writer);
      NumbersAppend(a, less, writer);
    }
  }

  /** What is retained of one writer is consecutive and ends with its newest number. */
  lemma RetainedNumbers(history: File, lost: nat, writer: nat, n: nat)
    requires lost <= |history| && NumbersOf(history, writer) == OneTo(n)
    ensures var r := NumbersOf(history[lost..], writer);
            |r| <= n && forall i :: 0 <= i < |r| ==> r[i] == n - |r| + i + 1
  {
    assert history == history[..lost] + history[lost..];
    NumbersAppend(history[..lost], history[lost..], writer);
    var a, r := NumbersOf(history[..lost], writer), NumbersOf(history[lost..], writer);
    assert |a| + |r| == n;
    forall i | 0 <= i < |r| ensures r[i] == n - |r| + i + 1 {
      assert (a + r)[|a| + i] == r[i];
    }
  }

  // --- the shared files and the writers ---

  /** The files of one journal path, shared by all its writers. `history` is everything ever appended. */
  class Disk {
    var chain: Chain
    ghost var history: File
    const lineSize: Rec -> nat

    constructor (lineSize: Rec -> nat)
      ensures chain == Chain(None, map[]) && history == [] && this.lineSize == lineSize
    {
      this.lineSize := lineSize;
      chain, history := Chain(None, map[]), [];
    }
  }

  method ShiftParts(before: map<int, File>, maxFiles: int) returns (parts: map<int, File>)
    ensures parts == Shifted(before, maxFiles)
  {
    parts := before;
    if maxFiles in parts {
      parts := parts - {maxFiles};
    }
    assert parts == before - {maxFiles};
    var i := maxFiles - 1;
    while i > 0
      invariant ShiftDown(parts, i) == Shifted(before, maxFiles)
    {
      if i in parts {
        parts := parts[i + 1 := parts[i]] - {i};
      }
      i := i - 1;
    }
  }

  class JsonlJournal {
    const disk: Disk
    const id: nat
    const maxBytes: int
    const maxFiles: int
    var number: nat
    var closed: bool

    ghost predicate Valid()
      reads this, disk
    {
      && KeepsHistory(disk.chain, disk.history, disk.lineSize, maxBytes, maxFiles)
      && disk.chain.live.Some?
      && NumbersOf(disk.history, id) == OneTo(number)
    }

    /** A new writer on an empty or already used path; its probe creates the live file. */
    constructor (disk: Disk, id: nat, maxBytes: int, maxFiles: int)
      requires KeepsHistory(disk.chain, disk.history, disk.lineSize, maxBytes, maxFiles)
      requires NumbersOf(disk.history, id) == []
      modifies disk`chain
      ensures Valid() && !closed && number == 0
      ensures this.disk == disk && this.id == id && this.maxBytes == maxBytes && this.maxFiles == maxFiles
      ensures disk.chain == old(disk.chain).(live := Some(Live(old(disk.chain))))
    {
      this.disk, this.id, this.maxBytes, this.maxFiles := disk, id, maxBytes, maxFiles;
      number, closed := 0, false;
      new;
      ProbeKeeps(disk.chain, disk.history, disk.lineSize, maxBytes, maxFiles);
      disk.chain := disk.chain.(live := Some(Live(disk.chain)));
    }

    /** One journal call. The event and its conflict record are appended back to back, the writer's
        numbers stay 1, 2, 3, ..., no other writer's change, and the chain keeps the history. */
    method Call(kind: string, data: map<string, string>) returns (ok: bool)
      requires Valid()
      modifies this`number, disk
      ensures Valid() && ok == !old(closed)
      ensures !ok ==> disk.history == old(disk.history) && disk.chain == old(disk.chain) && number == old(number)
      ensures ok ==> disk.history == old(disk.history) + Lines(id, old(number), kind, data)
                     && number == old(number) + if HasReserved(data) then 2 else 1
      ensures ok ==> Wrote(old(disk.chain), disk.chain, Lines(id, old(number), kind, data), disk.lineSize, maxBytes,
                           maxFiles)
      ensures forall w :: w != id ==> NumbersOf(disk.history, w) == NumbersOf(old(disk.history), w)
    {
      hide KeepsHistory, NumbersOf, OneTo, WholeEvents, Lines, Wrote;
      if closed {
        return false;
      }
      CallNumbers(disk.history, id, number, kind, data);
      LinesTell(id, number, kind, data);
      number := number + 1;
      var lines, conflict := Compose(kind, data);
      WriteLines(lines);
      number := number + (if conflict then 1 else 0);
      ok := true;
    }

    /** The lines of one call, with the number the event has been given. */
    method Compose(kind: string, data: map<string, string>) returns (lines: File, conflict: bool)
      requires number >= 1
      ensures lines == Lines(id, number - 1, kind, data) && |lines| == if conflict then 2 else 1
    {
      var conflicts := data.Keys * RESERVED_KEYS;
      lines, conflict := [Event(id, number, kind, data - RESERVED_KEYS)], conflicts != {};
      if conflict {
        lines := lines + [Conflict(id, number + 1, kind, conflicts)];
      }
    }

    /** Rejects further calls; no handle is held between writes. */
    method Close()
      modifies this`closed
      ensures closed
    {
      closed := true;
    }

    /** What happens under the sidecar lock: rotate if full, then append. */
    method WriteLines(lines: File)
      requires KeepsHistory(disk.chain, disk.history, disk.lineSize, maxBytes, maxFiles) && disk.chain.live.Some?
      requires WholeEvents(lines)
      modifies disk`chain, disk`history
      ensures KeepsHistory(disk.chain, disk.history, disk.lineSize, maxBytes, maxFiles) && disk.chain.live.Some?
      ensures disk.history == old(disk.history) + lines
      ensures Wrote(old(disk.chain), disk.chain, lines, disk.lineSize, maxBytes, maxFiles)
    {
      hide KeepsHistory, WholeEvents, Size, Shifted;
      RotateIfFull();
      assert [] + lines == lines;
      AppendKeeps(disk.chain, disk.history, lines, disk.lineSize, maxBytes, maxFiles);
      disk.chain := disk.chain.(live := Some(Live(disk.chain) + lines));
      disk.history := disk.history + lines;
    }

    /** Shifts the parts when the live file has reached the size bound. */
    method RotateIfFull()
      requires KeepsHistory(disk.chain, disk.history, disk.lineSize, maxBytes, maxFiles) && disk.chain.live.Some?
      modifies disk`chain
      ensures KeepsHistory(disk.chain, disk.history, disk.lineSize, maxBytes, maxFiles)
      ensures disk.chain == if Size(Live(old(disk.chain)), disk.lineSize) < maxBytes then old(disk.chain)
                            else Rotated(old(disk.chain), maxFiles)
    {
      var live := disk.chain.live.value;
      if Size(live, disk.lineSize) < maxBytes {
        return;
      }
      RotationKeeps(disk.chain, disk.history, disk.lineSize, maxBytes, maxFiles);
      var parts := ShiftParts(disk.chain.parts, maxFiles);
      disk.chain := Chain(None, parts[1 := live]);
    }
  }

  // --- reading the chain ---

  /** The files of the chain, oldest part first: parts are looked up from .1 on until one is missing. */
  method ChainFiles(c: Chain) returns (files: seq<File>)
    ensures forall k: nat :: PartsAre(c.parts, k) ==> Flatten(files) == Archive(c.parts, k) + Live(c)
  {
    var found: seq<File> := [];
    var idx := 1;
    ghost var unseen := set i | i in c.parts && i >= 1;
    while idx in c.parts
      invariant idx >= 1 && forall i :: 1 <= i < idx ==> i in c.parts
      invariant unseen == set i | i in c.parts && i >= idx
      invariant Flatten(found) == Archive(c.parts, idx - 1)
      decreases unseen
    {
      found := [c.parts[idx]] + found;
      assert found[1..] + [] == found[1..];
      unseen := unseen - {idx};
      idx := idx + 1;
    }
    forall k: nat | PartsAre(c.parts, k) ensures k == idx - 1 {
      assert idx !in c.parts && (idx > 1 ==> idx - 1 in c.parts);
    }
    files := found;
    if c.live.Some? {
      FlattenSnoc(found, c.live.value);
      files := files + [c.live.value];
    }
  }

  /** The chain read: a contiguous, newest suffix of the history, in order. */
  method ReadChain(disk: Disk, ghost maxBytes: int, ghost maxFiles: int) returns (events: File)
    requires KeepsHistory(disk.chain, disk.history, disk.lineSize, maxBytes, maxFiles)
    ensures exists k: nat, lost: nat :: Holds(disk.chain, disk.history, k, lost, disk.lineSize, maxBytes, maxFiles)
                                        && events == disk.history[lost..]
  {
    var files := ChainFiles(disk.chain);
    ghost var k: nat, lost: nat :| Holds(disk.chain, disk.history, k, lost, disk.lineSize, maxBytes, maxFiles);
    events := [];
    var n := 0;
    while n < |files|
      invariant 0 <= n <= |files| && events == Flatten(files[..n])
    {
      assert files[..n + 1] == files[..n] + [files[n]];
      FlattenSnoc(files[..n], files[n]);
      events := events + files[n];
      n := n + 1;
    }
    assert files[..n] == files;
  }

  // --- many writers ---

  /** Writers on one path with the same limits, open or closed, each with its own numbering. */
  ghost predicate Writers(disk: Disk, journals: seq<JsonlJournal>, maxBytes: int, maxFiles: int)
    reads disk, journals
  {
    KeepsHistory(disk.chain, disk.history, disk.lineSize, maxBytes, maxFiles)
    && (forall i :: 0 <= i < |journals| ==> SameDisk(journals[i], disk, maxBytes, maxFiles))
    && forall i, j :: 0 <= i < j < |journals| ==> journals[i].id != journals[j].id
  }

  ghost predicate SameDisk(journal: JsonlJournal, disk: Disk, maxBytes: int, maxFiles: int)
    reads journal, disk
  {
    journal.disk == disk && journal.maxBytes == maxBytes && journal.maxFiles == maxFiles && journal.Valid()
  }

  /** One call of one of them; a closed one writes nothing. */
  method CallOne(disk: Disk, journals: seq<JsonlJournal>, ghost maxBytes: int, ghost maxFiles: int, w: nat,
                 kind: string, data: map<string, string>) returns (ok: bool)
    requires w < |journals| && Writers(disk, journals, maxBytes, maxFiles)
    modifies journals[w], disk
    ensures Writers(disk, journals, maxBytes, maxFiles) && ok == !journals[w].closed
    ensures journals[w].closed == old(journals[w].closed)
    ensures disk.history
            == old(disk.history) + if ok then Lines(journals[w].id, old(journals[w].number), kind, data) else []
  {
    ok := journals[w].Call(kind, data);
    forall i | 0 <= i < |journals| ensures SameDisk(journals[i], disk, maxBytes, maxFiles) {
      if i != w {
        assert journals[i].id != journals[w].id && journals[i] != journals[w];
      }
    }
  }

  /** What a writer is used for: one call, or its end. */
  datatype Use = Say(kind: string, data: map<string, string>) | Shut

  /** The writer of use `n` has been closed by an earlier use. */
  ghost predicate ShutBefore(uses: seq<(nat, Use)>, n: nat)
    requires n < |uses|
  {
    exists m :: 0 <= m < n && uses[m] == (uses[n].0, Shut)
  }

  /** One use of one of them. */
  method UseOne(disk: Disk, journals: seq<JsonlJournal>, ghost maxBytes: int, ghost maxFiles: int, w: nat, use: Use)
    returns (ok: bool)
    requires w < |journals| && Writers(disk, journals, maxBytes, maxFiles)
    modifies journals[w], disk
    ensures Writers(disk, journals, maxBytes, maxFiles)
    ensures journals[w].closed == (old(journals[w].closed) || use.Shut?) && (use.Say? ==> ok == !journals[w].closed)
    ensures disk.history == old(disk.history) + if use.Say? && ok then
              Lines(journals[w].id, old(journals[w].number), use.kind, use.data) else []
    ensures Conflicts(disk.history)
            == Conflicts(old(disk.history)) + if use.Say? && ok && HasReserved(use.data) then 1 else 0
    ensures forall i :: 0 <= i < |journals| && i != w ==> journals[i].closed == old(journals[i].closed)
  {
    ghost var h := disk.history;
    assert h + [] == h;
    if use.Say? {
      LinesConflicts(h, journals[w].id, journals[w].number, use.kind, use.data);
    }
    match use
    case Say(kind, data) => ok := CallOne(disk, journals, maxBytes, maxFiles, w, kind, data);
    case Shut =>
      journals[w].Close();
      ok := true;
      assert forall i :: 0 <= i < |journals| ==> SameDisk(journals[i], disk, maxBytes, maxFiles);
  }

  /** How many accepted calls used a reserved key. */
  function WithReserved(uses: seq<(nat, Use)>, accepted: seq<bool>): nat
    requires |accepted| <= |uses|
    decreases |accepted|
  {
    if accepted == [] then 0
    else
      var n := |accepted| - 1;
      WithReserved(uses, accepted[..n])
      + if accepted[n] && uses[n].1.Say? && HasReserved(uses[n].1.data) then 1 else 0
  }

  /** A loop over them: exactly the calls of writers not yet closed are accepted. */
  method UseAll(disk: Disk, journals: seq<JsonlJournal>, ghost maxBytes: int, ghost maxFiles: int,
                uses: seq<(nat, Use)>) returns (accepted: seq<bool>)
    requires Writers(disk, journals, maxBytes, maxFiles)
    requires forall i :: 0 <= i < |uses| ==> uses[i].0 < |journals|
    modifies disk, journals
    ensures Writers(disk, journals, maxBytes, maxFiles) && old(disk.history) <= disk.history
    ensures |accepted| == |uses|
    ensures Conflicts(disk.history) == Conflicts(old(disk.history)) + WithReserved(uses, accepted)
    ensures forall i :: 0 <= i < |uses| && uses[i].1.Say? ==>
              (accepted[i] <==> !old(journals[uses[i].0].closed) && !ShutBefore(uses, i))
  {
    hide Writers;
    var n := 0;
    accepted := [];
    while n < |uses|
      invariant n <= |uses| && Writers(disk, journals, maxBytes, maxFiles) && old(disk.history) <= disk.history
      invariant |accepted| == n
      invariant Conflicts(disk.history) == Conflicts(old(disk.history)) + WithReserved(uses, accepted)
      invariant forall i :: 0 <= i < |journals| ==>
                  (journals[i].closed <==> old(journals[i].closed) || (i, Shut) in uses[..n])
      invariant forall i :: 0 <= i < n && uses[i].1.Say? ==>
                  (accepted[i] <==> !old(journals[uses[i].0].closed) && !ShutBefore(uses, i))
    {
      ShutSoFar(uses, n);
      var ok := UseOne(disk, journals, maxBytes, maxFiles, uses[n].0, uses[n].1);
      assert (accepted + [ok])[..n] == accepted;
      accepted := accepted + [ok];
      n := n + 1;
    }
  }

  lemma ShutSoFar(uses: seq<(nat, Use)>, n: nat)
    requires n < |uses|
    ensures ShutBefore(uses, n) <==> (uses[n].0, Shut) in uses[..n]
    ensures uses[..n + 1] == uses[..n] + [uses[n]]
  {
  }

  /** For any interleaving of calls and closes of any writers, the chain read afterwards is a contiguous newest suffix
      of everything ever written, each writer's numbers in that history are 1, 2, 3, ..., and exactly the calls of
      writers not yet closed were accepted. */
  method Interleaved(disk: Disk, journals: seq<JsonlJournal>, ghost maxBytes: int, ghost maxFiles: int,
                     uses: seq<(nat, Use)>) returns (events: File, accepted: seq<bool>)
    requires Writers(disk, journals, maxBytes, maxFiles)
    requires forall i :: 0 <= i < |uses| ==> uses[i].0 < |journals|
    modifies disk, journals
    ensures Writers(disk, journals, maxBytes, maxFiles) && old(disk.history) <= disk.history
    ensures forall i :: 0 <= i < |journals| ==> NumbersOf(disk.history, journals[i].id) == OneTo(journals[i].number)
    ensures |accepted| == |uses|
    ensures Conflicts(disk.history) == Conflicts(old(disk.history)) + WithReserved(uses, accepted)
    ensures forall i :: 0 <= i < |uses| && uses[i].1.Say? ==>
              (accepted[i] <==> !old(journals[uses[i].0].closed) && !ShutBefore(uses, i))
    ensures exists k: nat, lost: nat :: Holds(disk.chain, disk.history, k, lost, disk.lineSize, maxBytes, maxFiles)
                                        && events == disk.history[lost..]
  {
    hide Holds;
    accepted := UseAll(disk, journals, maxBytes, maxFiles, uses);
    events := ReadChain(disk, maxBytes, maxFiles);
    assert forall i :: 0 <= i < |journals| ==> SameDisk(journals[i], disk, maxBytes, maxFiles);
  }
}
