/** The anti-cheat anchor: retained output as a text and a list of stamped chunks that must stay position-consistent,
    and the verdict whether a waited string was printed before the stimulus asked for it. */
module AntiCheat {
  import opened Sequences

  datatype Chunk = Chunk(stamp: real, text: string)

  /** What a reader of the log sees at one moment. */
  datatype View = View(text: string, chunks: seq<Chunk>)

  const MAX_SERIAL_TEXT: nat := 1048576
  const MARKER := "\n[ironharness: serial output truncated at 1048576 bytes - further output discarded]\n"

  function TextOf(chunks: seq<Chunk>): string {
    if chunks == [] then "" else chunks[0].text + TextOf(chunks[1..])
  }

  ghost predicate Nondecreasing(chunks: seq<Chunk>) {
    forall i, j :: 0 <= i <= j < |chunks| ==> chunks[i].stamp <= chunks[j].stamp
  }

  ghost predicate Consistent(v: View) {
    v.text == TextOf(v.chunks) && Nondecreasing(v.chunks)
  }

  /** The stamp of the chunk that holds a position of the text. */
  function StampAt(chunks: seq<Chunk>, pos: nat): Option<real> {
    if chunks == [] then None
    else if pos < |chunks[0].text| then Some(chunks[0].stamp)
    else StampAt(chunks[1..], pos - |chunks[0].text|)
  }

  /** Length of the text stamped strictly before a moment. */
  function EarlierLength(chunks: seq<Chunk>, since: real): nat {
    if chunks == [] || chunks[0].stamp >= since then 0
    else |chunks[0].text| + EarlierLength(chunks[1..], since)
  }

  function Verdict(v: View, needle: string, since: Option<real>): Option<real> {
    var pos := Find(v.text, needle);
    if pos < 0 || since.None? then None
    else
      match StampAt(v.chunks, pos)
      case Some(stamp) => if stamp >= since.value then Some(stamp) else None
      case None => None
  }

  lemma {:induction false} TextAppend(a: seq<Chunk>, b: seq<Chunk>)
    ensures TextOf(a + b) == TextOf(a) + TextOf(b)
  {
    if a == [] {
      assert a + b == b;
    } else {
      assert (a + b)[1..] == a[1..] + b;
      TextAppend(a[1..], b);
    }
  }

  lemma TextSnoc(a: seq<Chunk>, c: Chunk)
    ensures TextOf(a + [c]) == TextOf(a) + c.text
  {
    TextAppend(a, [c]);
    assert TextOf([c]) == c.text;
  }

  /** A stamp found once stays, whatever is appended behind it. */
  lemma {:induction false} StampAppend(a: seq<Chunk>, b: seq<Chunk>, pos: nat)
    ensures StampAt(a + b, pos) == if pos < |TextOf(a)| then StampAt(a, pos) else StampAt(b, pos - |TextOf(a)|)
    ensures pos < |TextOf(a)| ==> StampAt(a, pos).Some?
  {
    if a == [] {
      assert a + b == b;
    } else {
      assert (a + b)[1..] == a[1..] + b;
      if pos >= |a[0].text| {
        StampAppend(a[1..], b, pos - |a[0].text|);
      }
    }
  }

  /** Maps the first occurrence back to its chunk by adding up chunk lengths. */
  method FirstOccurrenceStamp(v: View, needle: string, since: Option<real>) returns (r: Option<real>)
    ensures r == Verdict(v, needle, since)
  {
    var pos := Find(v.text, needle);
    if pos < 0 {
      return None;
    }
    var seen := 0;
    var hit: Option<real> := None;
    var i := 0;
    while i < |v.chunks|
      invariant 0 <= i <= |v.chunks| && 0 <= seen <= pos && hit == None
      invariant StampAt(v.chunks, pos) == StampAt(v.chunks[i..], pos - seen)
    {
      seen := seen + |v.chunks[i].text|;
      if pos < seen {
        hit := Some(v.chunks[i].stamp);
        break;
      }
      assert v.chunks[i..][1..] == v.chunks[i + 1..];
      i := i + 1;
    }
    if hit.None? || since.None? {
      return None;
    }
    r := if hit.value >= since.value then hit else None;
  }

  /** A position carries a stamp at or after `since` exactly when it lies behind the earlier text. */
  lemma {:induction false} StampVersusEarlier(chunks: seq<Chunk>, pos: nat, since: real)
    requires Nondecreasing(chunks) && pos < |TextOf(chunks)|
    ensures StampAt(chunks, pos).Some?
    ensures StampAt(chunks, pos).value >= since <==> pos >= EarlierLength(chunks, since)
  {
    var rest := chunks[1..];
    if pos < |chunks[0].text| {
    } else {
      assert forall i, j :: 0 <= i <= j < |rest| ==> rest[i] == chunks[i + 1] && rest[j] == chunks[j + 1];
      StampVersusEarlier(rest, pos - |chunks[0].text|, since);
      if chunks[0].stamp >= since {
        StampNotBefore(rest, pos - |chunks[0].text|, since);
      }
    }
  }

  lemma {:induction false} StampNotBefore(chunks: seq<Chunk>, pos: nat, since: real)
    requires forall i :: 0 <= i < |chunks| ==> chunks[i].stamp >= since
    ensures StampAt(chunks, pos).Some? ==> StampAt(chunks, pos).value >= since
  {
    if chunks != [] && pos >= |chunks[0].text| {
      StampNotBefore(chunks[1..], pos - |chunks[0].text|, since);
    }
  }

  /** The verdict credits an answer exactly when a trigger was recorded and the first occurrence starts at or
      behind the end of everything stamped strictly before it. */
  lemma VerdictExact(v: View, needle: string, since: Option<real>)
    requires Consistent(v)
    ensures Verdict(v, needle, since).Some? <==>
              since.Some? && 0 <= Find(v.text, needle) < |v.text|
              && Find(v.text, needle) >= EarlierLength(v.chunks, since.value)
  {
    var pos := Find(v.text, needle);
    if 0 <= pos < |v.text| && since.Some? {
      StampVersusEarlier(v.chunks, pos, since.value);
    } else if pos == |v.text| {
      StampAppend(v.chunks, [], pos);
      assert v.chunks + [] == v.chunks;
    }
  }

  /** The stamp of a verdict is that of the chunk in which the first occurrence begins. */
  lemma {:induction false} StampIsOfChunk(chunks: seq<Chunk>, pos: nat) returns (i: nat)
    requires StampAt(chunks, pos).Some?
    ensures i < |chunks| && chunks[i].stamp == StampAt(chunks, pos).value
    ensures |TextOf(chunks[..i])| <= pos < |TextOf(chunks[..i])| + |chunks[i].text|
  {
    if pos < |chunks[0].text| {
      i := 0;
    } else {
      var j := StampIsOfChunk(chunks[1..], pos - |chunks[0].text|);
      i := j + 1;
      assert chunks[..i] == [chunks[0]] + chunks[1..][..j];
    }
  }

  lemma VerdictIsStamp(v: View, needle: string, since: Option<real>) returns (i: nat)
    requires Verdict(v, needle, since).Some?
    ensures since.Some? && i < |v.chunks| && Verdict(v, needle, since) == Some(v.chunks[i].stamp)
    ensures v.chunks[i].stamp >= since.value
    ensures |TextOf(v.chunks[..i])| <= Find(v.text, needle) < |TextOf(v.chunks[..i])| + |v.chunks[i].text|
  {
    i := StampIsOfChunk(v.chunks, Find(v.text, needle));
  }

  /** `later` shows the same log after more output. */
  ghost predicate Grown(v: View, later: View) {
    Consistent(v) && Consistent(later) && v.chunks <= later.chunks
  }

  lemma GrownText(v: View, later: View)
    requires Grown(v, later)
    ensures later.text == v.text + TextOf(later.chunks[|v.chunks|..])
  {
    TextAppend(v.chunks, later.chunks[|v.chunks|..]);
    assert later.chunks == v.chunks + later.chunks[|v.chunks|..];
  }

  /** Once the needle is in the log, no later output changes the verdict. */
  lemma VerdictStable(v: View, later: View, needle: string, since: Option<real>)
    requires Grown(v, later) && needle != "" && Contains(v.text, needle)
    ensures Contains(later.text, needle) && Verdict(later, needle, since) == Verdict(v, needle, since)
  {
    var more := later.chunks[|v.chunks|..];
    GrownText(v, later);
    FindExtend(v.text, TextOf(more), needle);
    StampAppend(v.chunks, more, Find(v.text, needle));
    assert later.chunks == v.chunks + more;
  }

  // --- the log of a child process, capped with a one-shot marker ---

  class Box {
    var text: string
    var chunks: seq<Chunk>
    var dropped: bool

    constructor ()
      ensures Valid(0.0) && text == "" && !dropped
    {
      text, chunks, dropped := "", [], false;
    }

    function Shown(): View
      reads this
    {
      View(text, chunks)
    }

    ghost predicate Valid(now: real)
      reads this
    {
      && Consistent(Shown())
      && (forall i :: 0 <= i < |chunks| ==> chunks[i].stamp <= now)
      && |text| <= MAX_SERIAL_TEXT + (if dropped then |MARKER| else 0)
    }

    /** Retains the chunk, or the marker once in place of the first chunk that would cross the cap, or
        nothing any more. */
    method Append(chunk: string, ghost before: real, now: real)
      requires Valid(before) && before <= now
      modifies this
      ensures Valid(now) && Grown(old(Shown()), Shown())
      ensures old(dropped) ==> Shown() == old(Shown()) && dropped
      ensures !old(dropped) && |old(text)| + |chunk| <= MAX_SERIAL_TEXT ==>
                chunks == old(chunks) + [Chunk(now, chunk)] && !dropped
      ensures !old(dropped) && |old(text)| + |chunk| > MAX_SERIAL_TEXT ==>
                chunks == old(chunks) + [Chunk(now, MARKER)] && dropped
    {
      if dropped {
        return;
      }
      if |text| + |chunk| > MAX_SERIAL_TEXT {
        dropped := true;
        TextSnoc(chunks, Chunk(now, MARKER));
        chunks := chunks + [Chunk(now, MARKER)];
        text := text + MARKER;
        return;
      }
      TextSnoc(chunks, Chunk(now, chunk));
      chunks := chunks + [Chunk(now, chunk)];
      text := text + chunk;
    }
  }

  // --- the log of a live board: capped, and cut behind the staging echo ---

  /** The chunks behind a position, the first of them cut there. */
  function DropFront(chunks: seq<Chunk>, pos: nat): seq<Chunk> {
    if chunks == [] then []
    else if |chunks[0].text| > pos then [Chunk(chunks[0].stamp, chunks[0].text[pos..])] + chunks[1..]
    else DropFront(chunks[1..], pos - |chunks[0].text|)
  }

  /** Cutting keeps the text behind the cut and the stamp of every surviving position. */
  lemma {:induction false} DropFrontKeeps(chunks: seq<Chunk>, pos: nat, p: nat)
    requires pos <= |TextOf(chunks)|
    ensures TextOf(DropFront(chunks, pos)) == TextOf(chunks)[pos..]
    ensures StampAt(DropFront(chunks, pos), p) == StampAt(chunks, pos + p)
  {
    if chunks != [] {
      if |chunks[0].text| > pos {
        assert DropFront(chunks, pos)[1..] == chunks[1..];
      } else {
        DropFrontKeeps(chunks[1..], pos - |chunks[0].text|, p);
      }
    }
  }

  /** What survives a cut are the stamps of the last chunks, in order. */
  lemma {:induction false} DropFrontStamps(chunks: seq<Chunk>, pos: nat) returns (k: nat)
    ensures k + |DropFront(chunks, pos)| == |chunks|
    ensures forall i :: 0 <= i < |DropFront(chunks, pos)| ==> DropFront(chunks, pos)[i].stamp == chunks[k + i].stamp
  {
    if chunks == [] {
      k := 0;
    } else if |chunks[0].text| > pos {
      k := 0;
    } else {
      var less := DropFrontStamps(chunks[1..], pos - |chunks[0].text|);
      k := less + 1;
    }
  }

  /** How far the truncation loop is: nothing is kept up to `pos`, everything behind it. */
  predicate CutSoFar(chunks: seq<Chunk>, pos: nat, i: nat, seen: nat, kept: seq<Chunk>)
    requires i <= |chunks|
  {
    if seen <= pos then kept == [] && DropFront(chunks, pos) == DropFront(chunks[i..], pos - seen)
    else DropFront(chunks, pos) == kept + chunks[i..]
  }

  /** What one turn keeps of its chunk. */
  function Surviving(chunk: Chunk, pos: nat, seen: nat): seq<Chunk> {
    if seen + |chunk.text| <= pos then []
    else [Chunk(chunk.stamp, chunk.text[if pos > seen then pos - seen else 0..])]
  }

  lemma CutStep(chunks: seq<Chunk>, pos: nat, i: nat, seen: nat, kept: seq<Chunk>)
    requires i < |chunks| && CutSoFar(chunks, pos, i, seen, kept)
    ensures CutSoFar(chunks, pos, i + 1, seen + |chunks[i].text|, kept + Surviving(chunks[i], pos, seen))
  {
    var chunk, rest := chunks[i], chunks[i + 1..];
    assert chunks[i..] == [chunk] + rest && chunks[i..][1..] == rest;
    if seen > pos {
      assert Surviving(chunk, pos, seen) == [chunk];
      assert kept + ([chunk] + rest) == (kept + [chunk]) + rest;
    } else if seen + |chunk.text| > pos {
      assert [] + Surviving(chunk, pos, seen) == Surviving(chunk, pos, seen);
    } else {
      assert kept + [] == kept;
    }
  }

  lemma CutEnds(chunks: seq<Chunk>, pos: nat, seen: nat, kept: seq<Chunk>)
    requires CutSoFar(chunks, pos, |chunks|, seen, kept)
    ensures kept == DropFront(chunks, pos)
  {
    assert chunks[|chunks|..] == [] && kept + [] == kept;
  }

  /** The truncation loop: chunk ends are added up, and whatever ends behind `pos` is kept from there. */
  method CutChunks(chunks: seq<Chunk>, pos: nat) returns (kept: seq<Chunk>)
    ensures kept == DropFront(chunks, pos)
  {
    kept := [];
    var seen := 0;
    var i := 0;
    assert chunks[0..] == chunks;
    assert CutSoFar(chunks, pos, i, seen, kept);
    hide CutSoFar, DropFront;
    while i < |chunks|
      invariant 0 <= i <= |chunks| && seen >= 0 && CutSoFar(chunks, pos, i, seen, kept)
    {
      CutStep(chunks, pos, i, seen, kept);
      var end := seen + |chunks[i].text|;
      assert kept + [] == kept;
      if end > pos {
        var cut := if pos - seen > 0 then pos - seen else 0;
        kept := kept + [Chunk(chunks[i].stamp, chunks[i].text[cut..])];
      }
      seen := end;
      i := i + 1;
    }
    CutEnds(chunks, pos, seen, kept);
  }

  class ReplLog {
    var text: string
    var chunks: seq<Chunk>
    var truncated: bool

    constructor ()
      ensures Valid(0.0) && text == ""
    {
      text, chunks, truncated := "", [], false;
    }

    function Shown(): View
      reads this
    {
      View(text, chunks)
    }

    ghost predicate Valid(now: real)
      reads this
    {
      Consistent(Shown()) && forall c :: c in chunks ==> c.stamp <= now
    }

    /** One drained read: retained below the cap; at the cap only the marker is, once. */
    method Ingest(chunk: string, ghost before: real, now: real)
      requires Valid(before) && before <= now
      modifies this
      ensures Valid(now) && Grown(old(Shown()), Shown())
      ensures |old(text)| < MAX_SERIAL_TEXT ==>
                chunks == old(chunks) + [Chunk(now, chunk)] && truncated == old(truncated)
      ensures |old(text)| >= MAX_SERIAL_TEXT ==>
                truncated && chunks == if old(truncated) then old(chunks) else old(chunks) + [Chunk(now, MARKER)]
    {
      if |text| >= MAX_SERIAL_TEXT {
        if !truncated {
          truncated := true;
          TextSnoc(chunks, Chunk(now, MARKER));
          chunks := chunks + [Chunk(now, MARKER)];
          text := text + MARKER;
        }
        return;
      }
      TextSnoc(chunks, Chunk(now, chunk));
      chunks := chunks + [Chunk(now, chunk)];
      text := text + chunk;
    }

    /** Drops everything before a position from text and chunks together. */
    method Truncate(pos: int, ghost now: real)
      requires Valid(now) && pos <= |text|
      modifies this`text, this`chunks
      ensures Valid(now)
      ensures pos <= 0 ==> Shown() == old(Shown())
      ensures pos > 0 ==> text == old(text)[pos..] && chunks == DropFront(old(chunks), pos)
      ensures pos > 0 ==> forall p: nat :: StampAt(chunks, p) == StampAt(old(chunks), pos + p)
    {
      if pos <= 0 {
        return;
      }
      ghost var all := chunks;
      var kept := CutChunks(chunks, pos);
      text := text[pos..];
      chunks := kept;
      forall p: nat ensures StampAt(chunks, p) == StampAt(all, pos + p) {
        DropFrontKeeps(all, pos, p);
      }
      DropFrontKeeps(all, pos, 0);
      var k := DropFrontStamps(all, pos);
      forall c | c in chunks ensures c.stamp <= now {
        var i :| 0 <= i < |chunks| && chunks[i] == c;
        assert all[k + i] in all;
      }
    }
  }

  // --- waiting for an answer ---

  /** One turn of the wait loop looks at the log twice: for the stamp, then for the bare needle. The reader
      thread may add output in between. */
  datatype Look = Look(first: View, second: View)

  datatype Waited = Credited(at: nat) | Uncredited(at: nat) | GaveUp

  /** Every look shows the log of the look before it, perhaps with more output, and `final` the log of the last one. */
  ghost predicate Growing(looks: seq<Look>, final: View) {
    forall i :: 0 <= i < |looks| ==>
      Grown(looks[i].first, looks[i].second) && Grown(looks[i].second, final)
      && forall j :: i < j < |looks| ==> Grown(looks[i].second, looks[j].first)
  }

  predicate Condemned(v: View, needle: string, since: Option<real>) {
    Contains(v.text, needle) && Verdict(v, needle, since).None?
  }

  /** A genuine answer that arrived between the two looks of one turn. */
  predicate Overlooked(look: Look, needle: string, since: Option<real>) {
    !Contains(look.first.text, needle) && Contains(look.second.text, needle)
    && Verdict(look.second, needle, since).Some?
  }

  lemma LookOutcome(look: Look, final: View, needle: string, since: Option<real>)
    requires Grown(look.first, look.second) && Grown(look.second, final) && needle != ""
    ensures Verdict(look.first, needle, since).Some? ==> Verdict(final, needle, since).Some?
    ensures Verdict(look.first, needle, since).None? && Contains(look.second.text, needle) ==>
              (Verdict(final, needle, since).Some? <==> Overlooked(look, needle, since))
  {
    assert look.first.chunks <= final.chunks;
    if Contains(look.first.text, needle) {
      VerdictStable(look.first, final, needle, since);
    }
    if Contains(look.second.text, needle) {
      VerdictStable(look.second, final, needle, since);
    }
  }

  /** Some look shows the needle, and the first one to do so showed it from its start. */
  ghost predicate SeenInTime(looks: seq<Look>, needle: string) {
    exists i :: 0 <= i < |looks| && Contains(looks[i].first.text, needle)
                && forall j :: 0 <= j < i ==> !Contains(looks[j].second.text, needle)
  }

  /** Waits through the looks the run allows: until the deadline, or the exit of the program. A credited answer stays
      credited by the canonical verdict on any later log. An answer that verdict clears is credited exactly when it was
      seen in time; otherwise it came between two looks of one turn, or behind the last look. */
  method WaitForAnswer(looks: seq<Look>, needle: string, since: Option<real>, ghost final: View) returns (r: Waited)
    requires Growing(looks, final) && needle != ""
    ensures r.Credited? ==> r.at < |looks| && Verdict(final, needle, since).Some?
    ensures r.Uncredited? ==> r.at < |looks| && Contains(final.text, needle)
                              && (Condemned(final, needle, since) <==> !Overlooked(looks[r.at], needle, since))
    ensures r.GaveUp? ==> forall i :: 0 <= i < |looks| ==> !Contains(looks[i].second.text, needle)
    ensures r.Credited? <==> Verdict(final, needle, since).Some? && SeenInTime(looks, needle)
  {
    var i := 0;
    while i < |looks|
      invariant 0 <= i <= |looks|
      invariant forall j :: 0 <= j < i ==> !Contains(looks[j].second.text, needle)
    {
      LookOutcome(looks[i], final, needle, since);
      var stamp := FirstOccurrenceStamp(looks[i].first, needle, since);
      if stamp.Some? {
        assert Contains(looks[i].first.text, needle);
        return Credited(i);
      }
      if Contains(looks[i].second.text, needle) {
        VerdictStable(looks[i].second, final, needle, since);
        if Verdict(final, needle, since).Some? {
          NotInTime(looks, final, needle, since, i);
        }
        return Uncredited(i);
      }
      i := i + 1;
    }
    NeverShown(looks, needle);
    r := GaveUp;
  }

  /** A cleared needle that turn `i` shows only with its second look was not seen in time. */
  lemma NotInTime(looks: seq<Look>, final: View, needle: string, since: Option<real>, i: nat)
    requires Growing(looks, final) && needle != "" && i < |looks| && Verdict(final, needle, since).Some?
    requires Verdict(looks[i].first, needle, since).None? && Contains(looks[i].second.text, needle)
    requires forall j :: 0 <= j < i ==> !Contains(looks[j].second.text, needle)
    ensures !SeenInTime(looks, needle)
  {
    assert looks[i].first.chunks <= final.chunks;
    if Contains(looks[i].first.text, needle) {
      VerdictStable(looks[i].first, final, needle, since);
    }
    forall j | 0 <= j < i ensures !Contains(looks[j].first.text, needle) {
      ShownStaysShown(looks[j].first, looks[j].second, needle);
    }
  }

  lemma ShownStaysShown(v: View, later: View, needle: string)
    requires Grown(v, later)
    ensures Contains(v.text, needle) ==> Contains(later.text, needle)
  {
    GrownText(v, later);
    if Contains(v.text, needle) {
      FindExtend(v.text, TextOf(later.chunks[|v.chunks|..]), needle);
    }
  }

  lemma NeverShown(looks: seq<Look>, needle: string)
    requires forall j :: 0 <= j < |looks| ==> !Contains(looks[j].second.text, needle)
    requires forall j :: 0 <= j < |looks| ==> Grown(looks[j].first, looks[j].second)
    ensures !SeenInTime(looks, needle)
  {
    forall j | 0 <= j < |looks| ensures !Contains(looks[j].first.text, needle) {
      ShownStaysShown(looks[j].first, looks[j].second, needle);
    }
  }

  datatype Outcome = Clean | PrePrinted(needle: string) | NothingWaited

  function FirstCondemned(waited: seq<(string, Option<real>)>, v: View): Option<string> {
    if waited == [] then None
    else if Condemned(v, waited[0].0, waited[0].1) then Some(waited[0].0)
    else FirstCondemned(waited[1..], v)
  }

  function FirstShown(needles: seq<string>, v: View): Option<string> {
    if needles == [] then None
    else if Contains(v.text, needles[0]) then Some(needles[0])
    else FirstShown(needles[1..], v)
  }

  /** The canonical verdict over the settled log: replay every reached wait, then the zero-waits rule for a firmware
      that exited without one credited answer. */
  function Judge(waited: seq<(string, Option<real>)>, waitSteps: seq<string>, waitsDone: nat, eof: bool, v: View)
    : Outcome
  {
    match FirstCondemned(waited, v)
    case Some(needle) => PrePrinted(needle)
    case None =>
      if eof && waitsDone == 0 && waitSteps != [] then
        match FirstShown(waitSteps, v)
        case Some(needle) => PrePrinted(needle)
        case None => NothingWaited
      else Clean
  }

  lemma {:induction false} FirstCondemnedExact(waited: seq<(string, Option<real>)>, v: View)
    ensures FirstCondemned(waited, v).None? <==>
              forall w :: w in waited ==> !Condemned(v, w.0, w.1)
  {
    if waited != [] {
      FirstCondemnedExact(waited[1..], v);
      assert waited == [waited[0]] + waited[1..];
    }
  }

  /** For all inputs: a run is clean exactly when no waited needle is condemned and the program has not exited before
      every wait without one credited answer. Later output changes that only by showing a needle not shown before. */
  lemma JudgeExact(waited: seq<(string, Option<real>)>, waitSteps: seq<string>, waitsDone: nat, eof: bool, v: View)
    ensures Judge(waited, waitSteps, waitsDone, eof, v) == Clean <==>
              (forall w :: w in waited ==> !Condemned(v, w.0, w.1)) && !(eof && waitsDone == 0 && waitSteps != [])
  {
    FirstCondemnedExact(waited, v);
  }

  lemma {:induction false} FirstCondemnedIsFirst(waited: seq<(string, Option<real>)>, v: View) returns (i: nat)
    requires FirstCondemned(waited, v).Some?
    ensures i < |waited| && FirstCondemned(waited, v) == Some(waited[i].0) && Condemned(v, waited[i].0, waited[i].1)
    ensures forall j :: 0 <= j < i ==> !Condemned(v, waited[j].0, waited[j].1)
  {
    if Condemned(v, waited[0].0, waited[0].1) {
      i := 0;
    } else {
      var j := FirstCondemnedIsFirst(waited[1..], v);
      i := j + 1;
    }
  }

  lemma {:induction false} FirstShownIsFirst(needles: seq<string>, v: View) returns (i: nat)
    requires FirstShown(needles, v).Some?
    ensures i < |needles| && FirstShown(needles, v) == Some(needles[i]) && Contains(v.text, needles[i])
    ensures forall j :: 0 <= j < i ==> !Contains(v.text, needles[j])
  {
    if Contains(v.text, needles[0]) {
      i := 0;
    } else {
      var j := FirstShownIsFirst(needles[1..], v);
      i := j + 1;
    }
  }

  /** The verdict on a condemned run names the first condemned wait; one on a program that exited without a credited
      answer names the first wait step whose needle the log shows, or says that nothing was waited for. */
  lemma JudgeNames(waited: seq<(string, Option<real>)>, waitSteps: seq<string>, waitsDone: nat, eof: bool, v: View)
    returns (i: nat)
    ensures var verdict := Judge(waited, waitSteps, waitsDone, eof, v);
            if exists w <- waited :: Condemned(v, w.0, w.1) then
              i < |waited| && verdict == PrePrinted(waited[i].0) && Condemned(v, waited[i].0, waited[i].1)
              && forall j :: 0 <= j < i ==> !Condemned(v, waited[j].0, waited[j].1)
            else if !(eof && waitsDone == 0 && waitSteps != []) then verdict == Clean
            else if exists n <- waitSteps :: Contains(v.text, n) then
              i < |waitSteps| && verdict == PrePrinted(waitSteps[i]) && Contains(v.text, waitSteps[i])
              && forall j :: 0 <= j < i ==> !Contains(v.text, waitSteps[j])
            else verdict == NothingWaited
  {
    i := 0;
    FirstCondemnedExact(waited, v);
    FirstShownExact(waitSteps, v);
    if FirstCondemned(waited, v).Some? {
      i := FirstCondemnedIsFirst(waited, v);
    } else if FirstShown(waitSteps, v).Some? {
      i := FirstShownIsFirst(waitSteps, v);
    }
  }

  lemma JudgeStable(waited: seq<(string, Option<real>)>, waitSteps: seq<string>, waitsDone: nat, eof: bool,
                    v: View, later: View)
    requires Grown(v, later) && forall w :: w in waited ==> w.0 != "" && Contains(v.text, w.0)
    ensures Judge(waited, waitSteps, waitsDone, eof, later) == Clean <==>
              Judge(waited, waitSteps, waitsDone, eof, v) == Clean
  {
    JudgeExact(waited, waitSteps, waitsDone, eof, v);
    JudgeExact(waited, waitSteps, waitsDone, eof, later);
    forall w | w in waited ensures Condemned(later, w.0, w.1) <==> Condemned(v, w.0, w.1) {
      VerdictStable(v, later, w.0, w.1);
    }
  }

  // --- the waits of a whole run ---

  /** One wait step of the stimulus as the run reached it: its needle, the trigger before it, and its looks. */
  datatype Wait = Wait(needle: string, since: Option<real>, looks: seq<Look>)

  ghost predicate Waitable(waits: seq<Wait>, final: View) {
    forall i :: 0 <= i < |waits| ==> waits[i].needle != "" && Growing(waits[i].looks, final)
  }

  function Recorded(waits: seq<Wait>): (r: seq<(string, Option<real>)>)
    ensures |r| == |waits| && forall i :: 0 <= i < |r| ==> r[i] == (waits[i].needle, waits[i].since)
  {
    seq(|waits|, i requires 0 <= i < |waits| => (waits[i].needle, waits[i].since))
  }

  /** The needle's answer is genuine and was seen in time. */
  ghost predicate Earned(w: Wait, final: View) {
    Verdict(final, w.needle, w.since).Some? && SeenInTime(w.looks, w.needle)
  }

  /** How many waits from the first on are earned before one is not. */
  ghost function EarnedFirst(waits: seq<Wait>, final: View): (n: nat)
    ensures n <= |waits|
  {
    if waits == [] || !Earned(waits[0], final) then 0 else 1 + EarnedFirst(waits[1..], final)
  }

  lemma {:induction false} EarnedStops(waits: seq<Wait>, final: View, n: nat)
    requires n <= |waits| && (forall i :: 0 <= i < n ==> Earned(waits[i], final))
    requires n == |waits| || !Earned(waits[n], final)
    ensures EarnedFirst(waits, final) == n
  {
    if n > 0 {
      EarnedStops(waits[1..], final, n - 1);
    }
  }

  /** The waits a run gets to: those earned, and the one behind them. */
  ghost function Reached(waits: seq<Wait>, final: View): seq<Wait> {
    var n := EarnedFirst(waits, final);
    if n < |waits| then waits[..n + 1] else waits
  }

  /** The waits of the stimulus: each is recorded before it is waited for, and the first without a credited answer
      ends the stimulus. */
  method RunWaits(waits: seq<Wait>, ghost final: View) returns (waited: seq<(string, Option<real>)>, waitsDone: nat)
    requires Waitable(waits, final)
    ensures waitsDone == EarnedFirst(waits, final) && waited == Recorded(Reached(waits, final))
  {
    waited, waitsDone := [], 0;
    while waitsDone < |waits|
      invariant waitsDone <= |waits| && waited == Recorded(waits[..waitsDone])
      invariant forall i :: 0 <= i < waitsDone ==> Earned(waits[i], final)
    {
      var w := waits[waitsDone];
      waited := waited + [(w.needle, w.since)];
      assert waited == Recorded(waits[..waitsDone + 1]);
      var r := WaitForAnswer(w.looks, w.needle, w.since, final);
      if !r.Credited? {
        EarnedStops(waits, final, waitsDone);
        return;
      }
      waitsDone := waitsDone + 1;
    }
    EarnedStops(waits, final, waitsDone);
    assert waits[..waitsDone] == waits;
  }

  ghost predicate Honest(waits: seq<Wait>, final: View) {
    forall i :: 0 <= i < |waits| ==> !Condemned(final, waits[i].needle, waits[i].since)
  }

  /** A whole run, judged on its final log. It is clean exactly when no wait it got to is condemned and it is not a
      program that has exited before its first wait was earned. So a run whose final log condemns none of its waits
      is convicted exactly in the second case, and then as pre-printed exactly when the log shows the needle of some
      wait step. */
  method JudgeRun(waits: seq<Wait>, waitSteps: seq<string>, eof: bool, final: View) returns (verdict: Outcome)
    requires Waitable(waits, final)
    ensures verdict == Clean <==>
              Honest(Reached(waits, final), final) && !(eof && waitSteps != [] && EarnedFirst(waits, final) == 0)
    ensures Honest(waits, final) ==>
              (verdict != Clean <==> eof && waitSteps != [] && (waits == [] || !Earned(waits[0], final)))
    ensures Honest(waits, final) ==>
              (verdict.PrePrinted? <==> verdict != Clean && exists n <- waitSteps :: Contains(final.text, n))
  {
    var waited, waitsDone := RunWaits(waits, final);
    verdict := Judge(waited, waitSteps, waitsDone, eof, final);
    JudgeExact(waited, waitSteps, waitsDone, eof, final);
    FirstCondemnedExact(waited, final);
    FirstShownExact(waitSteps, final);
    ghost var reached := Reached(waits, final);
    assert (forall w <- waited :: !Condemned(final, w.0, w.1)) <==> Honest(reached, final) by {
      assert forall i :: 0 <= i < |reached| ==>
        waited[i] in waited && waited[i] == (reached[i].needle, reached[i].since);
    }
    assert Honest(waits, final) ==> Honest(reached, final);
  }

  lemma {:induction false} FirstShownExact(needles: seq<string>, v: View)
    ensures FirstShown(needles, v).None? <==> forall n <- needles :: !Contains(v.text, n)
  {
    if needles != [] {
      FirstShownExact(needles[1..], v);
      assert needles == [needles[0]] + needles[1..];
    }
  }

  const EMPTY_LOG := View("", [])
  const ANSWERED := View("ok", [Chunk(2.0, "ok")])

  lemma AnsweredIsHonest()
    ensures Consistent(EMPTY_LOG) && Consistent(ANSWERED) && Grown(EMPTY_LOG, ANSWERED)
    ensures !Contains(EMPTY_LOG.text, "ok") && Contains(ANSWERED.text, "ok")
    ensures Verdict(ANSWERED, "ok", Some(1.0)) == Some(2.0)
  {
    assert "ok"[0..2] == "ok" && At("ok", "ok", 0);
    assert ANSWERED.chunks[1..] == [] && StampAt(ANSWERED.chunks, 0) == Some(2.0);
  }

  /** Two ways to convict an honest program, both with the answer stamped behind its trigger: it arrives between the two
      looks of a turn, or it arrives with the program's exit behind the last look. */
  method HonestAnswersConvicted() returns (between: Outcome, behind: Outcome)
    ensures between.PrePrinted? && behind.PrePrinted?
  {
    AnsweredIsHonest();
    var steps := ["ok"];
    assert steps[0] == "ok";
    var looks := [Look(EMPTY_LOG, ANSWERED)];
    between := JudgeRun([Wait("ok", Some(1.0), looks)], steps, true, ANSWERED);
    looks := [Look(EMPTY_LOG, EMPTY_LOG)];
    behind := JudgeRun([Wait("ok", Some(1.0), looks)], steps, true, ANSWERED);
  }
}
