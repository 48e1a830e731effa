/** File transfer over the raw REPL: a response parser that cuts answers at their terminators out of
    a persistent buffer, one framed exec on top of it, and the chunked put and get loops. The
    link delivers the board's answers in pieces of its own choosing. */
module RawRepl {
  import opened Sequences
  import opened ReplText
  import opened ReplBoard

  const RAW_BANNER := "raw REPL"
  const MAX_STREAM_BUF: nat := 256 * 1024
  const READ_SIZE: nat := 256
  const ENTER_BUDGET: real := 20.0
  const ENTER_ATTEMPT: real := 5.0

  /** How far a put or a get came: not into raw mode, not behind the open, or behind it. */
  datatype Stage = Outside | Entered | Opened

  datatype Failure =
    | TimedOut
    | Overflowed
    | BoardError(text: string)
    | UnexpectedAnswer(out: string)
    | BadHex

  datatype Result<+T> = Ok(value: T) | Err(error: Failure)

  /** What one stripped answer to a read command says. */
  datatype ReadAnswer = Last | Chunk(data: seq<byte>) | Unreadable(error: Failure)

  function ReadAnswerOf(out: string): ReadAnswer {
    if out == "" || out == "b''" then Last
    else if !(|out| >= 2 && out[..2] == "b'" && out[|out| - 1] == '\'') then Unreadable(UnexpectedAnswer(out))
    else
      match FromHex(Slice(out, 2, -1))
      case None => Unreadable(BadHex)
      case Some(data) => Chunk(data)
  }

  // --- text helpers of the driver ---

  function StripLeft(s: string): string {
    if s == "" || !IsBlank(s[0]) then s else StripLeft(s[1..])
  }

  function StripRight(s: string): string {
    if s == "" || !IsBlank(s[|s| - 1]) then s else StripRight(s[..|s| - 1])
  }

  function Strip(s: string): string {
    StripRight(StripLeft(s))
  }

  lemma {:induction false} StripLeftTells(s: string) returns (blanks: string)
    ensures s == blanks + StripLeft(s) && forall b :: b in blanks ==> IsBlank(b)
    ensures StripLeft(s) != "" ==> !IsBlank(StripLeft(s)[0])
  {
    hide IsBlank;
    if s == "" || !IsBlank(s[0]) {
      blanks := "";
      assert s == "" + s;
    } else {
      var more := StripLeftTells(s[1..]);
      blanks := [s[0]] + more;
      assert s == [s[0]] + (more + StripLeft(s[1..])) == blanks + StripLeft(s[1..]);
    }
  }

  lemma {:induction false} StripRightTells(s: string) returns (blanks: string)
    ensures s == StripRight(s) + blanks && forall b :: b in blanks ==> IsBlank(b)
    ensures StripRight(s) != "" ==> !IsBlank(StripRight(s)[|StripRight(s)| - 1])
  {
    hide IsBlank;
    if s == "" || !IsBlank(s[|s| - 1]) {
      blanks := "";
    } else {
      var more := StripRightTells(s[..|s| - 1]);
      blanks := more + [s[|s| - 1]];
      assert s == s[..|s| - 1] + [s[|s| - 1]];
    }
  }

  /** A text is stripped of the blanks at both ends, and of nothing else. */
  lemma StripTells(s: string) returns (left: string, right: string)
    ensures s == left + Strip(s) + right && forall b :: b in left + right ==> IsBlank(b)
    ensures var t := Strip(s); t != "" ==> !IsBlank(t[0]) && !IsBlank(t[|t| - 1])
  {
    hide IsBlank;
    left := StripLeftTells(s);
    right := StripRightTells(StripLeft(s));
    assert StripLeft(s) == Strip(s) + right;
  }

  lemma {:induction false} StripRightKeeps(s: string, c: char, blanks: string)
    requires !IsBlank(c) && forall b :: b in blanks ==> IsBlank(b)
    ensures StripRight(s + [c] + blanks) == s + [c]
    decreases blanks
  {
    var w := s + [c] + blanks;
    if blanks == "" {
      assert w == s + [c];
    } else {
      var less := blanks[..|blanks| - 1];
      assert w[..|w| - 1] == s + [c] + less;
      assert w[|w| - 1] == blanks[|blanks| - 1];
      assert forall b :: b in less ==> b in blanks;
      StripRightKeeps(s, c, less);
    }
  }

  /** What a successful chunk read prints, as the driver sees it after stripping. */
  lemma StripPrinted(piece: seq<byte>)
    ensures Strip(Printed(piece)) == "b'" + HexOf(piece) + "'"
  {
    var s := Printed(piece);
    assert s[0] == 'b';
    assert StripLeft(s) == s;
    var head := "b'" + HexOf(piece);
    assert s == head + ['\''] + "\r\n";
    StripRightKeeps(head, '\'', "\r\n");
  }

  lemma StripErrors()
    ensures Strip("") == ""
    ensures Strip(ENOSPC) == TRACEBACK + "OSError: [Errno 28] ENOSPC"
    ensures Strip(ENOENT) == TRACEBACK + "OSError: [Errno 2] ENOENT"
  {
    assert ENOSPC[0] == 'T' && ENOENT[0] == 'T';
    var a := TRACEBACK + "OSError: [Errno 28] ENOSP";
    assert ENOSPC == a + ['C'] + "\r\n";
    StripRightKeeps(a, 'C', "\r\n");
    var b := TRACEBACK + "OSError: [Errno 2] ENOEN";
    assert ENOENT == b + ['T'] + "\r\n";
    StripRightKeeps(b, 'T', "\r\n");
  }

  // --- the frame, cut by cut ---

  /** What is left of `s` after cutting it behind the first `term`. */
  function Rest(s: string, term: string): string
    requires Contains(s, term)
  {
    s[Find(s, term) + |term|..]
  }

  function Piece(s: string, term: string): string
    requires Contains(s, term)
  {
    s[..Find(s, term)]
  }

  /** The three cuts of an exec recover the output and the error text and leave nothing over. */
  lemma FrameCuts(r: Reply)
    requires CTRL_D !in r.printed && CTRL_D !in r.error
    ensures var s := Frame(r); var d := [CTRL_D];
            && Contains(s, d) && Piece(s, d) == "OK" + r.printed
            && Contains(Rest(s, d), d) && Piece(Rest(s, d), d) == r.error
            && Rest(Rest(s, d), d) == ">" && Contains(">", ">") && Piece(">", ">") == "" && Rest(">", ">") == ""
  {
    var s, d := Frame(r), [CTRL_D];
    var tail := r.error + d + ">";
    assert s == ("OK" + r.printed) + d + tail;
    FindSingle("OK" + r.printed, CTRL_D, tail);
    assert s[..|"OK" + r.printed|] == "OK" + r.printed;
    assert s[|"OK" + r.printed| + 1..] == tail;
    FindSingle(r.error, CTRL_D, ">");
    assert tail[|r.error| + 1..] == ">";
    assert tail[..|r.error|] == r.error;
    FindSingle("", '>', "");
    assert "" + ">" + "" == ">";
  }

  /** The three cuts of an exec yield the marked output and the error text, and nothing is left over. */
  predicate CutsRecover(r: Reply) {
    var s, d := Frame(r), [CTRL_D];
    Contains(s, d) && Piece(s, d) == "OK" + r.printed
    && Contains(Rest(s, d), d) && Piece(Rest(s, d), d) == r.error
    && Contains(Rest(Rest(s, d), d), ">") && Rest(Rest(Rest(s, d), d), ">") == ""
  }

  /** A Ctrl+D ends a piece where it stands. */
  lemma CutIsShort(s: string, head: string)
    requires CTRL_D in head && head <= s
    ensures Contains(s, [CTRL_D]) && Piece(s, [CTRL_D]) != head
  {
    var i :| 0 <= i < |head| && head[i] == CTRL_D;
    assert s[i..i + 1] == [CTRL_D];
    assert At(s, [CTRL_D], i);
  }

  /** The cuts recover a reply exactly if neither its output nor its error text holds a Ctrl+D. */
  lemma CutsRecoverExactly(r: Reply)
    ensures CutsRecover(r) <==> CTRL_D !in r.printed && CTRL_D !in r.error
  {
    var d := [CTRL_D];
    var s, tail := Frame(r), r.error + d + ">";
    assert s == ("OK" + r.printed) + d + tail;
    if CTRL_D in r.printed {
      CutIsShort(s, "OK" + r.printed);
    } else {
      FindSingle("OK" + r.printed, CTRL_D, tail);
      assert Rest(s, d) == tail;
      if CTRL_D in r.error {
        CutIsShort(tail, r.error);
      } else {
        FrameCuts(r);
      }
    }
  }

  // --- answers out of step ---

  /** What the three cuts of an exec find at the front of a stream, and what they leave. */
  datatype Answer = Answer(out: string, err: string, left: string)

  function Unmarked(text: string): string {
    if |text| >= 2 && text[..2] == "OK" then text[2..] else text
  }

  function AnswerIn(s: string): Option<Answer> {
    if !Contains(s, [CTRL_D]) then None
    else
      var behindOut := Rest(s, [CTRL_D]);
      if !Contains(behindOut, [CTRL_D]) then None
      else
        var behindErr := Rest(behindOut, [CTRL_D]);
        if !Contains(behindErr, ">") then None
        else Some(Answer(Unmarked(Piece(s, [CTRL_D])), Piece(behindOut, [CTRL_D]), Rest(behindErr, ">")))
  }

  /** A frame is cut off whole; text without Ctrl+D in front of it only falls into its output. */
  lemma FrameBehind(noise: string, r: Reply, tail: string)
    requires CTRL_D !in noise && CTRL_D !in r.printed && CTRL_D !in r.error
    ensures AnswerIn(noise + Frame(r) + tail) == Some(Answer(Unmarked(noise + "OK" + r.printed), r.error, tail))
  {
    var d := [CTRL_D];
    var out, behind := noise + "OK" + r.printed, r.error + d + (">" + tail);
    var s := noise + Frame(r) + tail;
    assert s == out + d + behind;
    FindSingle(out, CTRL_D, behind);
    DropPrefix(s, out + d, behind);
    assert s[..|out|] == out;
    FindSingle(r.error, CTRL_D, ">" + tail);
    DropPrefix(behind, r.error + d, ">" + tail);
    assert behind[..|r.error|] == r.error;
    FindSingle("", '>', tail);
    assert "" + ['>'] + tail == ">" + tail;
  }

  /** Unread text is in step with the frames to come exactly if it holds no Ctrl+D. */
  lemma InStepExactly(unread: string)
    ensures CTRL_D !in unread <==>
              forall r: Reply | CTRL_D !in r.printed && CTRL_D !in r.error ::
                AnswerIn(unread + Frame(r)) == Some(Answer(Unmarked(unread + "OK" + r.printed), r.error, ""))
  {
    if CTRL_D !in unread {
      forall r: Reply | CTRL_D !in r.printed && CTRL_D !in r.error
        ensures AnswerIn(unread + Frame(r)) == Some(Answer(Unmarked(unread + "OK" + r.printed), r.error, ""))
      {
        FrameBehind(unread, r, "");
        assert unread + Frame(r) + "" == unread + Frame(r);
      }
    } else {
      var r := Reply("", "");
      var s := unread + Frame(r);
      CutIsShorter(unread, Frame(r));
      assert AnswerIn(s).Some? ==> |AnswerIn(s).value.out| < |unread|;
      assert |Unmarked(unread + "OK" + r.printed)| >= |unread|;
    }
  }

  lemma CutIsShorter(s: string, more: string)
    requires CTRL_D in s
    ensures Contains(s + more, [CTRL_D]) && |Piece(s + more, [CTRL_D])| < |s|
  {
    var i :| 0 <= i < |s| && s[i] == CTRL_D;
    assert s[i..i + 1] == [CTRL_D];
    assert At(s, [CTRL_D], i);
    FindExtend(s, more, [CTRL_D]);
  }

  /** A whole answer that is unread comes first, whatever follows it. */
  lemma AnswerExtends(s: string, more: string)
    requires AnswerIn(s).Some?
    ensures var a := AnswerIn(s).value; AnswerIn(s + more) == Some(Answer(a.out, a.err, a.left + more))
  {
    var d := [CTRL_D];
    var behind := Rest(s, d);
    PieceExtends(s, more, d);
    PieceExtends(behind, more, d);
    PieceExtends(Rest(behind, d), more, ">");
    hide Contains, Rest, Piece;
  }

  lemma PieceExtends(s: string, more: string, term: string)
    requires Contains(s, term)
    ensures Contains(s + more, term) && Piece(s + more, term) == Piece(s, term)
    ensures Rest(s + more, term) == Rest(s, term) + more
  {
    FindExtend(s, more, term);
  }

  /** One answer behind, the import leaves its own frame unread, behind text that is in step. */
  lemma BehindTheImport(unread: string)
    requires OneBehind(unread)
    ensures var a, quiet := AnswerIn(unread).value, Reply("", "");
            |a.left| <= |unread|
            && AnswerIn(a.left + Frame(quiet)) == Some(Answer(Unmarked(a.left + "OK"), "", ""))
  {
    var a, quiet := AnswerIn(unread).value, Reply("", "");
    var k := LeftBehindPrompt(unread);
    FrameBehind(a.left, quiet, "");
    assert a.left + Frame(quiet) + "" == a.left + Frame(quiet);
    assert a.left + "OK" + "" == a.left + "OK";
  }

  /** What the driver makes of an answer. */
  function ResultOf(a: Answer): Result<string> {
    if Strip(a.err) == "" then Ok(a.out) else Err(BoardError(Strip(a.err)))
  }

  predicate GaveUp<T>(r: Result<T>) {
    r == Err(TimedOut) || r == Err(Overflowed)
  }

  /** One whole answer is unread, with no error in it, and then nothing with a Ctrl+D: the driver is one answer
      behind. */
  predicate OneBehind(unread: string) {
    var a := AnswerIn(unread);
    a.Some? && Strip(a.value.err) == "" && CTRL_D !in a.value.left
  }

  /** If the import finds an answer without an error, it leaves nothing unread. */
  predicate Heals(unread: string) {
    var a := AnswerIn(unread + Frame(Reply("", "")));
    a.Some? && Strip(a.value.err) == "" ==> a.value.left == ""
  }

  /** The last of what is unread is a whole frame. */
  ghost predicate FrameAtEnd(s: string) {
    exists x: string, r: Reply :: s == x + Frame(r)
  }

  lemma InStepHeals(unread: string)
    requires CTRL_D !in unread
    ensures Heals(unread)
  {
    FrameBehind(unread, Reply("", ""), "");
    assert unread + Frame(Reply("", "")) + "" == unread + Frame(Reply("", ""));
  }

  /** If the import does not heal the lag, its own frame stays unread. */
  lemma NotHealed(unread: string)
    requires !Heals(unread)
    ensures FrameAtEnd(AnswerIn(unread + Frame(Reply("", ""))).value.left)
  {
    var f := Frame(Reply("", ""));
    var s := unread + f;
    var k := LeftBehindPrompt(s);
    if k <= |unread| {
      assert s[k..] == unread[k..] + f;
    }
  }

  lemma CutBefore(s: string, c: char, at: nat) returns (k: nat)
    requires at < |s| && s[at] == c
    ensures Contains(s, [c]) && k <= at + 1 && Rest(s, [c]) == s[k..]
  {
    assert s[at..at + 1] == [c];
    assert At(s, [c], at);
    k := Find(s, [c]) + 1;
  }

  /** With a whole frame at the end, the next answer is whole already, and the next frame stays unread: once behind, the
      driver stays behind. */
  lemma StaysBehind(s: string, next: Reply)
    requires FrameAtEnd(s)
    ensures s != "" && AnswerIn(s).Some? && FrameAtEnd(AnswerIn(s).value.left + Frame(next))
  {
    var x: string, r: Reply :| s == x + Frame(r);
    var out, err := |x| + 2 + |r.printed|, |x| + 3 + |r.printed| + |r.error|;
    assert s[out] == CTRL_D && s[err] == CTRL_D && s[err + 1] == '>';
    var i := CutBefore(s, CTRL_D, out);
    assert s[i..][err - i] == CTRL_D;
    var j := CutBefore(s[i..], CTRL_D, err - i);
    assert s[i..][j..] == s[i + j..] && s[i + j..][err + 1 - i - j] == '>';
    var _ := CutBefore(s[i + j..], '>', err + 1 - i - j);
  }

  lemma FrameAnswers(r: Reply, tail: string)
    requires CTRL_D !in r.printed && CTRL_D !in r.error
    ensures AnswerIn(Frame(r) + tail) == Some(Answer(r.printed, r.error, tail))
  {
    hide Contains, Find;
    FrameBehind("", r, tail);
    assert "" + Frame(r) == Frame(r) && "" + "OK" + r.printed == "OK" + r.printed;
    assert ("OK" + r.printed)[2..] == r.printed;
  }

  lemma RestIsSuffix(s: string, term: string) returns (k: nat)
    requires Contains(s, term)
    ensures |term| <= k <= |s| && s[k - |term|..k] == term && Rest(s, term) == s[k..]
  {
    k := Find(s, term) + |term|;
  }

  lemma RestIsShorter(s: string, term: string)
    requires Contains(s, term)
    ensures |Rest(s, term)| + |term| <= |s|
    ensures forall c :: c in Rest(s, term) ==> c in s
  {
  }

  /** What an exec leaves is what stands behind some prompt character. */
  lemma LeftBehindPrompt(s: string) returns (k: nat)
    requires AnswerIn(s).Some?
    ensures 1 <= k <= |s| && s[k - 1] == '>' && AnswerIn(s).value.left == s[k..]
  {
    hide Contains, Rest, Piece;
    var i := RestIsSuffix(s, [CTRL_D]);
    var j := RestIsSuffix(s[i..], [CTRL_D]);
    assert s[i..][j..] == s[i + j..];
    var m := RestIsSuffix(s[i + j..], ">");
    k := i + j + m;
    assert s[i + j..][m - 1..m][0] == s[k - 1] && s[i + j..][m..] == s[k..];
  }

  function Repeat(f: string, n: nat): string {
    if n == 0 then "" else f + Repeat(f, n - 1)
  }

  /** A prompt character at its end, and none before. */
  predicate OnePrompt(f: string) {
    f != "" && f[|f| - 1] == '>' && forall i :: 0 <= i < |f| - 1 ==> f[i] != '>'
  }

  /** Among frames with one prompt each, behind a prompt stand whole frames. */
  lemma {:induction false} PromptEndsFrame(f: string, n: nat, i: nat) returns (m: nat)
    requires OnePrompt(f)
    requires i < |Repeat(f, n)| && Repeat(f, n)[i] == '>'
    ensures Repeat(f, n)[i + 1..] == Repeat(f, m)
  {
    var rest := Repeat(f, n - 1);
    if i < |f| {
      m := n - 1;
      assert (f + rest)[i + 1..] == rest;
    } else {
      m := PromptEndsFrame(f, n - 1, i - |f|);
      assert (f + rest)[i + 1..] == rest[i - |f| + 1..];
    }
  }

  /** Each exec on a lagging answer stream eats into the lag. */
  lemma LagShrinks(lag: string, f: string, n: nat) returns (less: string, m: nat)
    requires OnePrompt(f)
    requires AnswerIn(lag + Repeat(f, n)).Some? && lag != ""
    ensures AnswerIn(lag + Repeat(f, n)).value.left == less + Repeat(f, m) && |less| < |lag|
  {
    var s := lag + Repeat(f, n);
    var k := LeftBehindPrompt(s);
    if k <= |lag| {
      less, m := lag[k..], n;
      assert s[k..] == lag[k..] + Repeat(f, n);
    } else {
      var i := k - 1 - |lag|;
      m := PromptEndsFrame(f, n, i);
      less := "";
      assert s[k..] == Repeat(f, n)[i + 1..] == less + Repeat(f, m);
    }
  }

  /** How much of the file behind the open handle is still unread. */
  function Unread(b: Board): nat {
    if b.handle.File? && !b.handle.writing && b.handle.path in b.files && b.handle.pos <= |b.files[b.handle.path]|
    then |b.files[b.handle.path]| - b.handle.pos
    else 0
  }

  /** The answer a further read command gets behind what is still unread. */
  function NextAnswer(b: Board, chunk: nat, backlog: string): Option<Answer> {
    AnswerIn(backlog + Frame(Run(b, ReadChunk(chunk)).1))
  }

  lemma InStepAnswer(b: Board, chunk: nat)
    ensures var reply := Run(b, ReadChunk(chunk)).1;
            NextAnswer(b, chunk, "") == Some(Answer(reply.printed, reply.error, ""))
  {
    var reply := Run(b, ReadChunk(chunk)).1;
    FrameAnswers(reply, "");
    assert Frame(reply) + "" == "" + Frame(reply);
  }

  /** The answer lets the read loop go on. */
  predicate Continues(a: Option<Answer>) {
    a.Some? && Strip(a.value.err) == "" && ReadAnswerOf(Strip(a.value.out)) != Last
  }

  /** A frame without prompt characters in its texts ends with the only one it has. */
  lemma FrameOnePrompt(r: Reply)
    requires '>' !in r.printed && '>' !in r.error
    ensures OnePrompt(Frame(r))
  {
    var s, body := Frame(r), "OK" + r.printed + [CTRL_D] + r.error + [CTRL_D];
    assert s == body + ">";
    forall i | 0 <= i < |s| - 1 ensures s[i] != '>' {
      assert s[i] == body[i];
    }
  }

  /** With nothing left to read, the board answers every further read command with one and the same frame, and that
      frame ends the read loop. */
  lemma NothingUnread(b: Board, chunk: nat, tail: string)
    requires chunk >= 1 && Unread(b) == 0
    ensures var (after, reply) := Run(b, ReadChunk(chunk));
            after == b && OnePrompt(Frame(reply)) && !Continues(AnswerIn(Frame(reply) + tail))
  {
    hide AnswerIn, Strip, ReadAnswerOf, Frame, OnePrompt;
    var (after, reply) := Run(b, ReadChunk(chunk));
    AnswerParses([]);
    StripBadHandle();
    assert HexOf([]) == "";
    assert '>' !in Printed([]);
    FrameOnePrompt(reply);
    FrameAnswers(reply, tail);
  }

  lemma StripBadHandle()
    ensures Strip(EBADF) != "" && '>' !in EBADF
  {
    assert EBADF[0] == 'T';
    assert '>' !in TRACEBACK;
    var head := TRACEBACK + "OSError: [Errno 9] EBAD";
    assert EBADF == head + ['F'] + "\r\n";
    StripRightKeeps(head, 'F', "\r\n");
  }

  /** Behind an empty answer, the first read is answered by it: the end of the file. */
  lemma EmptyAnswerFirst(b: Board, chunk: nat)
    ensures var a := NextAnswer(b, chunk, Frame(Reply("", "")));
            a == Some(Answer("", "", Frame(Run(b, ReadChunk(chunk)).1)))
            && Strip("") == "" && ReadAnswerOf("") == Last
  {
    FrameAnswers(Reply("", ""), Frame(Run(b, ReadChunk(chunk)).1));
    StripErrors();
  }

  lemma FrameLength(r: Reply)
    ensures |Frame(r)| == 5 + |r.printed| + |r.error|
  {
  }

  lemma ReadFrameFits(b: Board, chunk: nat)
    requires b.handle.File? && !b.handle.writing && b.handle.path in b.files
    requires AnswerFitsBehind(chunk, |b.files[b.handle.path]|)
    ensures Run(b, ReadChunk(chunk)).1.error == ""
    ensures |Frame(Run(b, ReadChunk(chunk)).1)| + 5 <= MAX_STREAM_BUF && |Frame(Reply("", ""))| == 5
  {
    AnswerParses(Take(b.files[b.handle.path], b.handle.pos, chunk));
    FrameLength(Reply("", ""));
  }

  /** The next piece continues what has been read, and only at the end of the file it is empty. */
  lemma ReadSoFar(file: seq<byte>, pos: nat, chunk: nat, parts: seq<seq<byte>>)
    requires pos <= |file| && chunk >= 1 && Flatten(parts) == file[..pos]
    ensures var piece := Take(file, pos, chunk);
            pos + |piece| <= |file| && Flatten(parts + [piece]) == file[..pos + |piece|]
            && (piece == [] ==> Flatten(parts) == file)
  {
    var piece := Take(file, pos, chunk);
    FlattenSnoc(parts, piece);
    assert file[..pos] + piece == file[..pos + |piece|];
    assert file[..|file|] == file;
  }

  lemma ReadAdvances(b: Board, chunk: nat)
    requires chunk >= 1 && Unread(b) > 0
    ensures Unread(Run(b, ReadChunk(chunk)).0) < Unread(b)
  {
  }

  /** The state of the read loop when the answers are out of step: nothing is known until the file is read out; from
      then on the unread answers are a lag, then equal frames. */
  predicate Lagging(b: Board, chunk: nat, backlog: string, lag: string, n: nat) {
    Unread(b) == 0 ==> backlog == lag + Repeat(Frame(Run(b, ReadChunk(chunk)).1), n)
  }

  /** Once the file is read out, a turn that goes on must have had a lag, and leaves a smaller one. */
  lemma LagProgresses(b: Board, chunk: nat, lag: string, f: string, n: nat) returns (less: string, m: nat)
    requires chunk >= 1 && Unread(b) == 0 && f == Frame(Run(b, ReadChunk(chunk)).1)
    requires Continues(AnswerIn(lag + Repeat(f, n + 1)))
    ensures AnswerIn(lag + Repeat(f, n + 1)).value.left == less + Repeat(f, m) && |less| < |lag|
  {
    NothingUnread(b, chunk, Repeat(f, n));
    assert "" + Repeat(f, n + 1) == f + Repeat(f, n);
    less, m := LagShrinks(lag, f, n + 1);
  }

  /** A turn that brings a chunk leaves less to read, or less lag. */
  lemma TurnProgresses(b: Board, chunk: nat, backlog: string, lag: string, n: nat) returns (less: string, m: nat)
    requires chunk >= 1 && Lagging(b, chunk, backlog, lag, n) && Continues(NextAnswer(b, chunk, backlog))
    ensures var after := Run(b, ReadChunk(chunk)).0;
            Lagging(after, chunk, NextAnswer(b, chunk, backlog).value.left, less, m)
            && (Unread(after) < Unread(b) || (Unread(after) == Unread(b) && |less| < |lag|))
  {
    hide AnswerIn, Strip;
    var f := Frame(Run(b, ReadChunk(chunk)).1);
    if Unread(b) > 0 {
      ReadAdvances(b, chunk);
      less, m := NextAnswer(b, chunk, backlog).value.left, 0;
      assert less + "" == less;
    } else {
      RepeatSnoc(f, n);
      assert lag + Repeat(f, n) + f == lag + Repeat(f, n + 1);
      NothingUnread(b, chunk, "");
      less, m := LagProgresses(b, chunk, lag, f, n);
    }
  }

  lemma {:induction false} RepeatSnoc(f: string, n: nat)
    ensures Repeat(f, n) + f == Repeat(f, n + 1)
  {
    if n == 0 {
      assert "" + f == f + "";
    } else {
      RepeatSnoc(f, n - 1);
      assert f + Repeat(f, n - 1) + f == f + (Repeat(f, n - 1) + f);
    }
  }

  // --- the link ---

  /** The serial link with the board at its far end. `pending` is what the board has said and
      nobody has read; a `patient` link never lets a deadline pass while something is pending. */
  class Link {
    var board: Board
    var pending: string
    ghost var sent: string
    const patient: bool

    constructor (board: Board, pending: string, patient: bool)
      ensures this.board == board && this.pending == pending && this.patient == patient && sent == ""
    {
      this.board, this.pending, this.patient, sent := board, pending, patient, "";
    }

    method Write(data: string)
      modifies this
      ensures board == Receive(old(board), data).0
      ensures pending == old(pending) + Receive(old(board), data).1
      ensures sent == old(sent) + data
    {
      var (b, out) := Receive(board, data);
      board, pending, sent := b, pending + out, sent + data;
    }

    /** Any non-empty prefix of what is pending, up to `size`. */
    method Read(size: nat) returns (data: string)
      requires size > 0
      modifies this`pending
      ensures data + pending == old(pending) && |data| <= size
      ensures old(pending) != "" ==> data != ""
    {
      if pending == "" {
        return "";
      }
      var k :| 1 <= k <= size && k <= |pending|;
      data, pending := pending[..k], pending[k..];
    }

    /** Has the deadline passed? A silent board always runs into it. */
    method Expired() returns (late: bool)
      ensures pending == "" ==> late
      ensures patient && pending != "" ==> !late
    {
      if pending == "" {
        late := true;
      } else if patient {
        late := false;
      } else {
        late :| true;
      }
    }
  }

  class Stream {
    const link: Link
    var buf: string

    constructor (link: Link)
      ensures this.link == link && buf == ""
    {
      this.link := link;
      buf := "";
    }

    ghost function Backlog(): string
      reads this, link
    {
      buf + link.pending
    }

    /** Bytes before the next terminator, which is consumed. The pieces depend only on buffer and
        pending bytes together, not on how the link splits them. */
    method Until(term: string) returns (r: Result<string>)
      requires term != ""
      modifies this`buf, link`pending
      ensures r.Ok? ==> Contains(old(Backlog()), term)
                        && r.value == Piece(old(Backlog()), term) && Backlog() == Rest(old(Backlog()), term)
      ensures r.Err? ==> Backlog() == old(Backlog()) && (r.error == TimedOut || r.error == Overflowed)
      ensures r == Err(Overflowed) ==> |old(Backlog())| > MAX_STREAM_BUF
      ensures link.patient && r == Err(TimedOut) ==> !Contains(old(Backlog()), term)
    {
      ghost var all := Backlog();
      while !Contains(buf, term)
        invariant Backlog() == all
        decreases |link.pending|
      {
        var late := link.Expired();
        if late {
          assert link.patient ==> buf == all;
          return Err(TimedOut);
        }
        var data := link.Read(READ_SIZE);
        buf := buf + data;
        if |buf| > MAX_STREAM_BUF {
          return Err(Overflowed);
        }
      }
      FindExtend(buf, link.pending, term);
      var idx := Find(buf, term);
      ghost var b := buf;
      r := Ok(buf[..idx]);
      buf := buf[idx + |term|..];
      assert all[idx + |term|..] == b[idx + |term|..] + link.pending;
    }
  }

  class MpRepl {
    const link: Link
    const chunk: nat
    const stream: Stream

    constructor (link: Link, chunk: nat)
      requires chunk >= 1
      ensures Valid() && this.link == link && this.chunk == chunk
      ensures fresh(stream) && stream.buf == ""
    {
      this.link, this.chunk := link, chunk;
      stream := new Stream(link);
    }

    ghost predicate Valid() {
      stream.link == link && chunk >= 1
    }

    /** In raw mode at the prompt, with nothing left unread. */
    ghost predicate Ready()
      reads link, stream, stream.link
    {
      link.board.raw && link.board.line == "" && stream.Backlog() == ""
    }

    /** What is unread holds no Ctrl+D, so the next answer cut is that of the next command. */
    ghost predicate InStep()
      reads stream, stream.link
    {
      CTRL_D !in stream.Backlog()
    }

    /** What is unread ends with a whole frame: the driver is behind, and stays so. */
    ghost predicate Behind()
      reads stream, stream.link
    {
      FrameAtEnd(stream.Backlog())
    }

    /** The three writes of an attempt: leave raw mode, interrupt, enter. */
    method Dance()
      requires Valid()
      modifies link
      ensures link.board == old(link.board).(raw := true, line := "")
      ensures link.sent == old(link.sent) + ['\U{02}', '\U{03}', '\U{03}', '\U{01}']
      ensures stream.Backlog() == old(stream.Backlog()) + Greeting(old(link.board))
    {
      hide Receive;
      ghost var b, before := link.board, link.pending;
      GreetingAnswer(b);
      link.Write([CTRL_B]);
      link.Write([CTRL_C, CTRL_C]);
      link.Write([CTRL_A]);
      assert link.pending == before + (b.hello + b.interrupted + b.interrupted + RAW_GREETING);
    }

    /** One attempt at the raw prompt from any board state: the dance, the banner, the prompt. */
    method Attempt() returns (r: Result<()>)
      requires Valid()
      modifies link, stream`buf
      ensures link.board == old(link.board).(raw := true, line := "")
      ensures link.sent == old(link.sent) + ['\U{02}', '\U{03}', '\U{03}', '\U{01}']
      ensures r.Ok? ==> stream.Backlog() == Leftover(old(link.board), old(stream.Backlog()))
      ensures r.Ok? ==> (Ready() <==> CleanStart(old(link.board), old(stream.Backlog())))
      ensures r.Ok? ==> |stream.Backlog()| + 9 <= |old(stream.Backlog())| + |Greeting(old(link.board))|
      ensures r.Err? ==> GaveUp(r)
      ensures r.Err? && Quiet(old(link.board), old(stream.Backlog())) ==> Quiet(link.board, stream.Backlog())
      ensures link.patient && |old(stream.Backlog())| + |Greeting(old(link.board))| <= MAX_STREAM_BUF ==> r.Ok?
    {
      hide Receive, Contains, Piece, Rest, QuietWords;
      ghost var b, junk := link.board, stream.Backlog();
      Dance();
      ghost var all := stream.Backlog();
      assert all == junk + Greeting(b) == Noise(b, junk) + RAW_GREETING;
      GreetingCuts(Noise(b, junk));
      RestIsShorter(all, RAW_BANNER);
      RestIsShorter(Rest(all, RAW_BANNER), ">");
      if Quiet(b, junk) {
        UncutStaysQuiet(b, junk);
        CutStaysQuiet(b, junk);
        SameLeftover(b, link.board, all);
        SameLeftover(b, link.board, Rest(all, RAW_BANNER));
      }
      hide Leftover, Noise, CleanNoise, Greeting;
      var banner := stream.Until(RAW_BANNER);
      if banner.Err? {
        return Err(banner.error);
      }
      var prompt := stream.Until(">");
      if prompt.Err? {
        return Err(prompt.error);
      }
      r := Ok(());
    }

    /** The attempts, one after a timed-out other, until 20 seconds are used up: four at most. What a first attempt
        leaves is known exactly; stale greetings of timed-out attempts put nothing out of step unless they hold a
        Ctrl+D. */
    method Enter() returns (r: Result<()>, ghost attempts: nat, ghost spent: real)
      requires Valid()
      modifies link, stream`buf
      ensures link.board == old(link.board).(raw := true, line := "") && 1 <= attempts <= 4
      ensures link.sent == old(link.sent) + Repeat([CTRL_B, CTRL_C, CTRL_C, CTRL_A], attempts)
      ensures r.Err? ==> GaveUp(r) && (r.error == TimedOut ==> spent >= 20.0)
      ensures r.Ok? && attempts == 1 ==> stream.Backlog() == Leftover(old(link.board), old(stream.Backlog()))
      ensures r.Ok? && Quiet(old(link.board), old(stream.Backlog())) ==> InStep()
      ensures r.Ok? && EndsInStep(old(link.board), old(stream.Backlog()), attempts) ==> Heals(stream.Backlog())
      ensures link.patient && |old(stream.Backlog())| + |Greeting(old(link.board))| <= MAX_STREAM_BUF ==>
                r.Ok? && attempts == 1
                && |stream.Backlog()| + 9 <= |old(stream.Backlog())| + |Greeting(old(link.board))|
    {
      hide Leftover, QuietWords, Heals, Greeting, Noise;
      ghost var b, junk := link.board, stream.Backlog();
      ghost var sent := link.sent;
      var elapsed := 0.0;
      attempts, spent := 0, 0.0;
      while true
        invariant Quiet(b, junk) ==> Quiet(link.board, stream.Backlog())
        invariant if attempts == 0 then link.board == b && stream.Backlog() == junk
                  else link.board == b.(raw := true, line := "")
                       && !(link.patient && |junk| + |Greeting(b)| <= MAX_STREAM_BUF)
        invariant link.sent == sent + Repeat([CTRL_B, CTRL_C, CTRL_C, CTRL_A], attempts)
        invariant (ENTER_ATTEMPT + 1.0) * attempts as real <= elapsed
        invariant attempts == 0 || elapsed < ENTER_BUDGET + 1.0
        decreases ENTER_BUDGET - elapsed
      {
        r := Attempt();
        RepeatSnoc([CTRL_B, CTRL_C, CTRL_C, CTRL_A], attempts);
        attempts := attempts + 1;
        if InStep() {
          InStepHeals(stream.Backlog());
        }
        if r.Ok? || r.error != TimedOut {
          return;
        }
        var late: real := *;
        elapsed := elapsed + ENTER_ATTEMPT + if late > 0.0 then late else 0.0;
        spent := elapsed;
        if elapsed >= ENTER_BUDGET {
          return;
        }
        elapsed := elapsed + 1.0;
      }
    }

    /** Back to the normal prompt. */
    method Exit()
      requires Valid()
      modifies link
      ensures link.board == old(link.board).(raw := false, line := "")
      ensures link.sent == old(link.sent) + [CTRL_B]
      ensures stream.Backlog() == old(stream.Backlog()) + old(link.board).hello
    {
      ExitAnswer(link.board);
      link.Write([CTRL_B]);
    }

    /** Runs one command, whatever is still unread. The board always ends up where that command takes it; the driver
        gets the first answer in what is unread and the board's reply together, or gives up early. */
    method ExecBehind(c: Command) returns (r: Result<string>)
      requires Valid() && link.board.raw && link.board.line == ""
      modifies link, stream`buf
      ensures link.board == Run(old(link.board), c).0 && link.sent == old(link.sent) + Render(c) + ['\U{04}']
      ensures var unread := old(stream.Backlog()) + Frame(Run(old(link.board), c).1);
              var a := AnswerIn(unread);
              (!GaveUp(r) ==> a.Some? && r == ResultOf(a.value) && stream.Backlog() == a.value.left)
              && (link.patient && a.Some? && |unread| <= MAX_STREAM_BUF ==> !GaveUp(r))
    {
      hide AnswerIn, Strip, Frame, Run, Receive;
      ghost var backlog, reply := stream.Backlog(), Run(link.board, c).1;
      ReceiveCommand(link.board, c);
      link.Write(Render(c) + [CTRL_D]);
      assert stream.Backlog() == backlog + Frame(reply);
      var answer := ReadAnswer();
      if answer.Err? {
        return Err(answer.error);
      }
      var error := Strip(answer.value.1);
      if error != "" {
        return Err(BoardError(error));
      }
      r := Ok(answer.value.0);
    }

    /** Runs one command. In step, the driver gets exactly the board's reply and has nothing left to read; behind a
        whole unread answer it gets that one, and the reply stays unread; or it gives up early. */
    method Exec(c: Command) returns (r: Result<string>)
      requires Valid() && link.board.raw && link.board.line == ""
      modifies link, stream`buf
      ensures link.board == Run(old(link.board), c).0 && link.sent == old(link.sent) + Render(c) + [CTRL_D]
      ensures old(InStep()) && !GaveUp(r) ==>
                var reply := Run(old(link.board), c).1;
                Ready() && (r.Ok? <==> Strip(reply.error) == "")
                && (r.Err? ==> r.error == BoardError(Strip(reply.error)))
                && (r.Ok? && old(stream.Backlog()) == "" ==> r.value == reply.printed)
      ensures !GaveUp(r) && AnswerIn(old(stream.Backlog())).Some? ==>
                var a := AnswerIn(old(stream.Backlog())).value;
                r == ResultOf(a) && stream.Backlog() == a.left + Frame(Run(old(link.board), c).1)
      ensures old(Behind()) && !GaveUp(r) ==> Behind()
      ensures (link.patient && (old(InStep()) || AnswerIn(old(stream.Backlog())).Some?)
               && |old(stream.Backlog())| + |Frame(Run(old(link.board), c).1)| <= MAX_STREAM_BUF) ==> !GaveUp(r)
    {
      hide AnswerIn, Strip, Frame, FrameAtEnd;
      ghost var backlog, reply := stream.Backlog(), Run(link.board, c).1;
      if FrameAtEnd(backlog) {
        StaysBehind(backlog, reply);
      }
      if AnswerIn(backlog).Some? {
        AnswerExtends(backlog, Frame(reply));
      }
      if InStep() {
        FrameBehind(backlog, reply, "");
        assert backlog + Frame(reply) + "" == backlog + Frame(reply);
        assert backlog == "" ==> (backlog + "OK" + reply.printed)[2..] == reply.printed;
      }
      r := ExecBehind(c);
    }

    /** The three cuts of an answer: the output behind its mark, the error text, the prompt. */
    method ReadAnswer() returns (r: Result<(string, string)>)
      requires Valid()
      modifies stream`buf, link`pending
      ensures r.Ok? ==> AnswerIn(old(stream.Backlog())) == Some(Answer(r.value.0, r.value.1, stream.Backlog()))
      ensures r.Err? ==> r.error == TimedOut || r.error == Overflowed
      ensures link.patient && AnswerIn(old(stream.Backlog())).Some? && |old(stream.Backlog())| <= MAX_STREAM_BUF ==>
                r.Ok?
    {
      var out := stream.Until([CTRL_D]);
      if out.Err? {
        return Err(out.error);
      }
      var err := stream.Until([CTRL_D]);
      if err.Err? {
        return Err(err.error);
      }
      var prompt := stream.Until(">");
      if prompt.Err? {
        return Err(prompt.error);
      }
      var text := out.value;
      if |text| >= 2 && text[..2] == "OK" {
        text := text[2..];
      }
      r := Ok((text, err.value));
    }

    /** The chunked writes through the open handle, one exec each. */
    method WriteLoop(data: seq<byte>, ghost path: string) returns (r: Result<()>)
      requires Valid() && link.board.raw && link.board.line == ""
      requires link.board.handle == File(path, true, 0) && path in link.board.files && link.board.files[path] == []
      modifies link, stream`buf
      ensures link.board.raw && link.board.line == "" && SameSettings(old(link.board), link.board)
      ensures link.board.files - {path} == old(link.board).files - {path}
      ensures link.board.handle.File? && link.board.handle.path == path
      ensures old(Ready()) || Fits(data, old(link.board)) ==>
                Partial(old(link.board).files, link.board.files, path, data)
      ensures (old(Ready()) || Fits(data, old(link.board))) && r.Ok? ==>
                link.board.files == old(link.board).files[path := data]
      ensures old(Ready()) && r.Ok? ==> Ready() && Fits(data, link.board)
      ensures old(Behind()) && r.Ok? ==> Behind()
      ensures old(Ready()) && link.patient && r.Err? ==>
                !Fits(data, link.board) && r.error == BoardError(NO_SPACE) && Ready()
    {
      hide FrameAtEnd, AnswerIn, Frame, Run, Strip;
      StripErrors();
      ghost var b, ready, behind := link.board, Ready(), Behind();
      assert b.files == b.files[path := data[..0]];
      var i := 0;
      while i < |data|
        invariant 0 <= i
        invariant link.board.raw && link.board.line == "" && SameSettings(b, link.board)
        invariant link.board.files - {path} == b.files - {path}
        invariant link.board.handle.File? && link.board.handle.path == path
        invariant ready ==> Ready()
        invariant behind ==> Behind()
        invariant ready || Fits(data, b) ==> WrittenUpTo(b, link.board, path, data, Upto(i, |data|))
        decreases |data| - i
      {
        var n := Upto(i + chunk, |data|);
        var piece := data[i..n];
        WriteTouchesOne(link.board, piece);
        if ready || Fits(data, b) {
          WriteStep(b, link.board, path, data, i, n);
        }
        var done := Exec(WriteHex(piece));
        if done.Err? {
          return Err(done.error);
        }
        i := i + chunk;
      }
      assert data[..|data|] == data;
      r := Ok(());
    }

    /** The chunked writes and the closing exec. */
    method WriteChunks(data: seq<byte>, ghost path: string) returns (r: Result<()>)
      requires Valid() && link.board.raw && link.board.line == ""
      requires link.board.handle == File(path, true, 0) && path in link.board.files && link.board.files[path] == []
      modifies link, stream`buf
      ensures link.board.raw && link.board.line == "" && SameSettings(old(link.board), link.board)
      ensures link.board.files - {path} == old(link.board).files - {path}
      ensures old(Ready()) || Fits(data, old(link.board)) ==>
                Partial(old(link.board).files, link.board.files, path, data)
      ensures (old(Ready()) || Fits(data, old(link.board))) && r.Ok? ==>
                link.board.files == old(link.board).files[path := data]
      ensures r.Ok? ==> link.board.handle == NoFile
      ensures old(Ready()) && r.Ok? ==> Ready() && Fits(data, link.board)
      ensures old(Behind()) && r.Ok? ==> Behind()
      ensures old(Ready()) && link.patient && r.Err? ==>
                !Fits(data, link.board) && r.error == BoardError(NO_SPACE) && Ready()
    {
      hide FrameAtEnd, AnswerIn, Partial;
      StripErrors();
      r := WriteLoop(data, path);
      if r.Ok? {
        var closed := Exec(CloseFile);
        if closed.Err? {
          r := Err(closed.error);
        }
      }
    }

    method ExecQuietly(c: Command) returns (r: Result<()>)
      requires Valid() && link.board.raw && link.board.line == ""
      modifies link, stream`buf
      ensures link.board == Run(old(link.board), c).0 && link.sent == old(link.sent) + Render(c) + [CTRL_D]
      ensures old(InStep()) && !GaveUp(r) ==>
                var reply := Run(old(link.board), c).1;
                Ready() && (r.Ok? <==> Strip(reply.error) == "")
                && (r.Err? ==> r.error == BoardError(Strip(reply.error)))
      ensures !GaveUp(r) && AnswerIn(old(stream.Backlog())).Some? ==>
                var a := AnswerIn(old(stream.Backlog())).value;
                (r.Ok? <==> Strip(a.err) == "") && stream.Backlog() == a.left + Frame(Run(old(link.board), c).1)
      ensures old(Behind()) && !GaveUp(r) ==> Behind()
      ensures (link.patient && (old(InStep()) || AnswerIn(old(stream.Backlog())).Some?)
               && |old(stream.Backlog())| + |Frame(Run(old(link.board), c).1)| <= MAX_STREAM_BUF) ==> !GaveUp(r)
    {
      hide AnswerIn, Strip, Frame, Run, FrameAtEnd;
      var out := Exec(c);
      r := if out.Ok? then Ok(()) else Err(out.error);
    }

    /** The import, whose output nobody looks at: it takes what is unread with it, or the driver stays behind. */
    method FirstExec() returns (r: Result<()>)
      requires Valid() && link.board.raw && link.board.line == ""
      modifies link, stream`buf
      ensures link.board == old(link.board) && link.sent == old(link.sent) + Render(Import) + [CTRL_D]
      ensures r.Ok? ==> if Heals(old(stream.Backlog())) then Ready() else Behind()
      ensures old(InStep()) && link.patient && |old(stream.Backlog())| + 5 <= MAX_STREAM_BUF ==> r.Ok?
      ensures old(OneBehind(stream.Backlog())) && link.patient && |old(stream.Backlog())| + 5 <= MAX_STREAM_BUF ==>
                r.Ok? && stream.Backlog() == AnswerIn(old(stream.Backlog())).value.left + Frame(Reply("", ""))
    {
      hide AnswerIn, Strip, Frame, FrameAtEnd;
      StripErrors();
      FrameLength(Reply("", ""));
      ghost var unread := stream.Backlog();
      if InStep() {
        FrameBehind(unread, Reply("", ""), "");
        assert unread + Frame(Reply("", "")) + "" == unread + Frame(Reply("", ""));
      }
      if AnswerIn(unread).Some? {
        AnswerExtends(unread, Frame(Reply("", "")));
      }
      if !Heals(unread) {
        NotHealed(unread);
      }
      var out := ExecBehind(Import);
      r := if out.Ok? then Ok(()) else Err(out.error);
    }

    /** The import and the open handle. */
    method Prepare(path: string, writing: bool) returns (r: Result<()>)
      requires Valid() && link.board.raw && link.board.line == ""
      modifies link, stream`buf
      ensures link.board.raw && link.board.line == "" && SameSettings(old(link.board), link.board)
      ensures r.Err? ==> link.board.files == old(link.board).files
                         || (writing && link.board.files == old(link.board).files[path := []])
      ensures r.Ok? && (writing || path in old(link.board).files) ==>
                link.board == Run(old(link.board), OpenFile(path, writing)).0
      ensures !writing ==> link.board.files == old(link.board).files
      ensures r.Err? ==> OnlyOpened(old(link.sent), link.sent, path, writing)
      ensures r.Ok? ==>
                if Heals(old(stream.Backlog())) then Ready() && (writing || path in old(link.board).files) else Behind()
      ensures old(InStep()) && link.patient && |old(stream.Backlog())| + 5 <= MAX_STREAM_BUF ==>
                (r.Ok? <==> writing || path in old(link.board).files) && (r.Err? ==> r.error == BoardError(NO_ENTRY))
      ensures (old(OneBehind(stream.Backlog())) && link.patient && |old(stream.Backlog())| + 10 <= MAX_STREAM_BUF
               && (writing || path in old(link.board).files)) ==>
                r.Ok? && stream.Backlog() == Frame(Reply("", ""))
    {
      hide AnswerIn, Strip, Heals, FrameAtEnd;
      StripErrors();
      ghost var unread := stream.Backlog();
      if OneBehind(unread) {
        BehindTheImport(unread);
      }
      if InStep() {
        InStepHeals(unread);
      }
      r := FirstExec();
      if r.Ok? {
        r := ExecQuietly(OpenFile(path, writing));
      }
    }

    /** What a put does in raw mode: open, write, close, and a last attempt to close if the writes fail. The board runs
        every command in turn, so with room for the data a success needs no answers in step. */
    method StoreFile(data: seq<byte>, path: string) returns (done: Result<()>, ghost wasOpen: bool)
      requires Valid() && link.board.raw && link.board.line == ""
      modifies link, stream`buf
      ensures link.board.raw && link.board.line == "" && SameSettings(old(link.board), link.board)
      ensures link.board.files - {path} == old(link.board).files - {path}
      ensures Heals(old(stream.Backlog())) || Fits(data, old(link.board)) ==>
                link.board.files == old(link.board).files
                || Partial(old(link.board).files, link.board.files, path, data)
      ensures (Heals(old(stream.Backlog())) || Fits(data, old(link.board))) && done.Ok? ==>
                link.board.handle == NoFile && link.board.files == old(link.board).files[path := data]
      ensures done.Ok? ==> if Heals(old(stream.Backlog())) then Ready() else Behind()
      ensures (done.Ok? ==> wasOpen) && (wasOpen ==> link.board.handle == NoFile)
      ensures !wasOpen ==> OnlyOpened(old(link.sent), link.sent, path, true)
      ensures old(InStep()) && link.patient && |old(stream.Backlog())| + 5 <= MAX_STREAM_BUF ==>
                wasOpen && (done.Ok? <==> Fits(data, old(link.board)))
                && (done.Err? ==> done.error == BoardError(NO_SPACE))
    {
      hide AnswerIn, Strip, Frame, Heals, FrameAtEnd;
      if InStep() {
        InStepHeals(stream.Backlog());
      }
      ghost var files := link.board.files;
      done := Prepare(path, true);
      wasOpen := done.Ok?;
      assert files[path := []] - {path} == files - {path};
      if done.Ok? {
        assert files[path := data[..0]] == files[path := []];
        done := WriteChunks(data, path);
        forall k | 0 <= k <= |data| ensures files[path := []][path := data[..k]] == files[path := data[..k]] {}
        if done.Err? {
          var _ := ExecQuietly(CloseFile);
        }
      } else {
        assert data[..0] == [];
      }
    }

    /** Overwrites `path` on the board with `data`; reports the byte count. On every link, however it splits or delays
        the answers, success means the file holds exactly `data`, and a failure leaves the old file or a prefix of
        `data`, after any start if the data fits, and whether or not it fits if the entry ends in step. No other file
        is ever touched. */
    method PutFile(data: seq<byte>, path: string) returns (r: Result<nat>, ghost attempts: nat, ghost stage: Stage)
      requires Valid()
      modifies link, stream`buf
      ensures SameSettings(old(link.board), link.board) && link.board.line == ""
      ensures Leaves(stage, path, true, attempts, old(link.sent), link.sent, link.board)
      ensures (r.Ok? ==> stage == Opened) && (stage == Outside ==> GaveUp(r))
      ensures link.board.files - {path} == old(link.board).files - {path}
      ensures EndsInStep(old(link.board), old(stream.Backlog()), attempts) || Fits(data, old(link.board)) ==>
                link.board.files == old(link.board).files
                || Partial(old(link.board).files, link.board.files, path, data)
      ensures (EndsInStep(old(link.board), old(stream.Backlog()), attempts) || Fits(data, old(link.board))) && r.Ok? ==>
                r.value == |data| && link.board.files == old(link.board).files[path := data]
                && link.board.handle == NoFile
      ensures EndsInStep(old(link.board), old(stream.Backlog()), attempts) && r.Ok? ==>
                stream.buf == "" && link.pending == link.board.hello
      ensures attempts == 1 && r.Ok? ==>
                (stream.Backlog() == link.board.hello <==> Heals(Leftover(old(link.board), old(stream.Backlog()))))
      ensures QuickStart(old(link.board), old(stream.Backlog())) && link.patient ==>
                attempts == 1 && stage == Opened && (r.Ok? <==> Fits(data, old(link.board)))
                && (r.Err? ==> r.error == BoardError(NO_SPACE))
    {
      hide Leftover, QuietWords, Heals, FrameAtEnd, Repeat, Greeting, Noise, Frame;
      var done;
      ghost var spent;
      done, attempts, spent := Enter();
      if done.Err? {
        return Err(done.error), attempts, Outside;
      }
      ghost var entered := link.sent;
      if InStep() {
        InStepHeals(stream.Backlog());
      }
      ghost var wasOpen;
      done, wasOpen := StoreFile(data, path);
      stage := if wasOpen then Opened else Entered;
      if Behind() {
        StaysBehind(stream.Backlog(), Reply("", ""));
      }
      Exit();
      assert stream.buf == "" ==> stream.Backlog() == link.pending;
      r := if done.Ok? then Ok(|data|) else Err(done.error);
    }

    /** One turn of the read loop. In step, it yields the next piece of the file, which is empty only at its end; out of
        step, whatever the cuts find. */
    method ReadOne(ghost path: string, ghost pos: nat) returns (next: ReadAnswer)
      requires Valid() && link.board.raw && link.board.line == ""
      modifies link, stream`buf
      ensures link.board == Run(old(link.board), ReadChunk(chunk)).0
      ensures link.sent == old(link.sent) + Render(ReadChunk(chunk)) + [CTRL_D]
      ensures !next.Unreadable? ==>
                var a := NextAnswer(old(link.board), chunk, old(stream.Backlog()));
                a.Some? && Strip(a.value.err) == "" && next == ReadAnswerOf(Strip(a.value.out))
                && stream.Backlog() == a.value.left
      ensures old(Behind()) && !next.Unreadable? ==> Behind()
      ensures old(OpensBehind()) && link.patient ==>
                next == Last && stream.Backlog() == Frame(Run(old(link.board), ReadChunk(chunk)).1)
      ensures old(Reading(path, pos)) && !next.Unreadable? ==>
                var piece := Take(link.board.files[path], pos, chunk);
                Reading(path, pos + |piece|) && next == if piece == [] then Last else Chunk(piece)
      ensures old(Reading(path, pos)) && link.patient && AnswerFits(chunk, |link.board.files[path]|) ==>
                !next.Unreadable?
    {
      hide AnswerIn, Strip, Frame, ReadAnswerOf, FrameAtEnd;
      StripErrors();
      if Behind() {
        StaysBehind(stream.Backlog(), Run(link.board, ReadChunk(chunk)).1);
        AnswerExtends(stream.Backlog(), Frame(Run(link.board, ReadChunk(chunk)).1));
      }
      if OpensBehind() {
        EmptyAnswerFirst(link.board, chunk);
        ReadFrameFits(link.board, chunk);
      }
      if Reading(path, pos) {
        AnswerParses(Take(link.board.files[path], pos, chunk));
        InStepAnswer(link.board, chunk);
      }
      var answer := ExecBehind(ReadChunk(chunk));
      next := if answer.Err? then Unreadable(answer.error) else ReadAnswerOf(Strip(answer.value));
    }

    /** In step, at a position of the open file. */
    ghost predicate Reading(path: string, pos: nat)
      reads link, stream, stream.link
    {
      Ready() && path in link.board.files && pos <= |link.board.files[path]|
      && link.board.handle == File(path, false, pos)
    }

    /** The file is open for reading, and the answer to the open is what is unread. */
    ghost predicate OpensBehind()
      reads link, stream, stream.link
    {
      stream.Backlog() == Frame(Reply("", "")) && link.board.handle.File? && !link.board.handle.writing
      && link.board.handle.path in link.board.files
      && AnswerFitsBehind(chunk, |link.board.files[link.board.handle.path]|)
    }

    /** The read loop. It ends whatever the answers are: because the rest of the file shrinks, and then because the
        answers catch up. */
    method ReadLoop(ghost path: string) returns (r: Result<seq<byte>>)
      requires Valid() && link.board.raw && link.board.line == ""
      modifies link, stream`buf
      ensures link.board.raw && link.board.line == "" && SameSettings(old(link.board), link.board)
      ensures link.board.files == old(link.board).files
      ensures old(Reading(path, 0)) && r.Ok? ==> Ready() && r.value == link.board.files[path]
      ensures old(Reading(path, 0)) && link.patient && AnswerFits(chunk, |link.board.files[path]|) ==> r.Ok?
      ensures old(Behind()) && r.Ok? ==> Behind()
      ensures old(OpensBehind()) && link.patient ==>
                r == Ok([]) && stream.Backlog() == Frame(Run(old(link.board), ReadChunk(chunk)).1)
    {
      hide AnswerIn, Strip, Frame, ReadAnswerOf, NextAnswer, AnswerFits, AnswerFitsBehind, FrameAtEnd;
      ghost var b, inStep, behind, trailing := link.board, Reading(path, 0), OpensBehind(), Behind();
      var parts: seq<seq<byte>> := [];
      ghost var pos: nat, lag: string, n: nat := 0, stream.Backlog(), 0;
      assert lag + "" == lag;
      assert Lagging(link.board, chunk, stream.Backlog(), lag, n);
      hide Lagging, Unread;
      while true
        invariant link.board.raw && link.board.line == "" && SameSettings(b, link.board) && link.board.files == b.files
        invariant inStep ==> Reading(path, pos) && Flatten(parts) == b.files[path][..pos]
        invariant Lagging(link.board, chunk, stream.Backlog(), lag, n)
        invariant trailing ==> Behind()
        invariant behind && link.patient ==> parts == [] && link.board == b && OpensBehind()
        decreases Unread(link.board), |lag|
      {
        ghost var before, backlog := link.board, stream.Backlog();
        if inStep {
          ReadSoFar(b.files[path], pos, chunk, parts);
        }
        var next := ReadOne(path, pos);
        match next {
          case Last => return Ok(Flatten(parts));
          case Unreadable(error) => return Err(error);
          case Chunk(data) =>
            lag, n := TurnProgresses(before, chunk, backlog, lag, n);
            parts := parts + [data];
            pos := pos + |data|;
        }
      }
    }

    /** The chunked reads up to end of file, and the closing exec. */
    method ReadChunks(ghost path: string) returns (r: Result<seq<byte>>)
      requires Valid() && link.board.raw && link.board.line == ""
      modifies link, stream`buf
      ensures link.board.raw && link.board.line == "" && SameSettings(old(link.board), link.board)
      ensures link.board.files == old(link.board).files
      ensures old(Reading(path, 0)) && r.Ok? ==> Ready() && r.value == link.board.files[path]
      ensures old(Reading(path, 0)) && link.patient && AnswerFits(chunk, |link.board.files[path]|) ==> r.Ok?
      ensures r.Ok? ==> link.board.handle == NoFile
      ensures old(Behind()) && r.Ok? ==> Behind()
      ensures old(OpensBehind()) && link.patient ==> r == Ok([])
    {
      hide AnswerIn, Strip, Frame, FrameAtEnd;
      StripErrors();
      ghost var behind, reply := OpensBehind(), Run(link.board, ReadChunk(chunk)).1;
      if behind {
        FrameAnswers(reply, "");
        assert Frame(reply) + "" == Frame(reply);
        ReadFrameFits(link.board, chunk);
      }
      FrameLength(Reply("", ""));
      r := ReadLoop(path);
      if r.Ok? {
        var closed := Exec(CloseFile);
        if closed.Err? {
          return Err(closed.error);
        }
      }
    }

    /** Reads `path` from the board. On every link, if the entry ends in step, success returns exactly the file; after
        any start the call ends and leaves the files alone. One answer behind, it reports an empty file. */
    method GetFile(path: string) returns (r: Result<seq<byte>>, ghost attempts: nat, ghost stage: Stage)
      requires Valid()
      modifies link, stream`buf
      ensures SameSettings(old(link.board), link.board) && link.board.line == ""
      ensures Leaves(stage, path, false, attempts, old(link.sent), link.sent, link.board)
      ensures (r.Ok? ==> stage == Opened) && (stage == Outside ==> GaveUp(r))
      ensures link.board.files == old(link.board).files
      ensures EndsInStep(old(link.board), old(stream.Backlog()), attempts) && r.Ok? ==>
                path in link.board.files && r.value == link.board.files[path] && stream.Backlog() == link.board.hello
      ensures attempts == 1 && r.Ok? ==>
                (stream.Backlog() == link.board.hello <==> Heals(Leftover(old(link.board), old(stream.Backlog()))))
      ensures (QuickStart(old(link.board), old(stream.Backlog())) && link.patient
               && (path in link.board.files ==> AnswerFits(chunk, |link.board.files[path]|))) ==>
                stage != Outside && (r.Ok? <==> path in link.board.files)
                && (r.Err? ==> r.error == BoardError(NO_ENTRY))
      ensures (StartsBehind(old(link.board), old(stream.Backlog())) && link.patient
               && path in link.board.files && AnswerFitsBehind(chunk, |link.board.files[path]|)) ==> r == Ok([])
    {
      hide Leftover, QuietWords, AnswerIn, Frame, Strip, OneBehind, Heals, FrameAtEnd;
      var ready;
      ghost var spent;
      ready, attempts, spent := Enter();
      if ready.Err? {
        return Err(ready.error), attempts, Outside;
      }
      if InStep() {
        InStepHeals(stream.Backlog());
      }
      ready := Prepare(path, false);
      if ready.Err? {
        Exit();
        return Err(ready.error), attempts, Entered;
      }
      stage := Opened;
      r := ReadChunks(path);
      if r.Err? {
        var _ := ExecQuietly(CloseFile);
      }
      if Behind() {
        StaysBehind(stream.Backlog(), Reply("", ""));
      }
      Exit();
    }
  }

  /** A put and a following get through two fresh drivers on one link. Whenever both succeed and the entries end in
      step, as they do after a quiet start, the bytes come back unchanged, on any link; the put alone needs that only if
      the data does not fit. On a patient link they succeed exactly when the board has room. */
  method PutThenGet(link: Link, data: seq<byte>, path: string, putChunk: nat, getChunk: nat)
    returns (put: Result<nat>, back: Result<seq<byte>>, ghost putAttempts: nat, ghost getAttempts: nat)
    requires putChunk >= 1 && getChunk >= 1
    modifies link
    ensures (EndsInStep(old(link.board), old(link.pending), putAttempts) || Fits(data, old(link.board))) && put.Ok? ==>
              put.value == |data| && link.board.files == old(link.board).files[path := data]
    ensures EndsInStep(old(link.board), old(link.pending), putAttempts)
            && EndsInStep(old(link.board), old(link.board).hello, getAttempts) && back.Ok? ==>
              put.Ok? && back.value == data
    ensures Quiet(old(link.board), old(link.pending)) && back.Ok? ==> put.Ok? && back.value == data
    ensures (link.patient && QuickStart(old(link.board), old(link.pending))
             && QuickStart(old(link.board), old(link.board).hello) && AnswerFits(getChunk, |data|)) ==>
              (back.Ok? <==> Fits(data, old(link.board)))
  {
    hide Leftover, QuietWords, Heals, EndsInStep;
    ghost var b, junk := link.board, link.pending;
    QuietEndsInStep(b, junk);
    QuietEndsInStep(b, b.hello);
    if QuietWords(b) {
      HelloIsQuiet(b);
    }
    var writer := new MpRepl(link, putChunk);
    assert writer.stream.Backlog() == link.pending;
    ghost var putStage, getStage;
    put, putAttempts, putStage := writer.PutFile(data, path);
    if put.Err? {
      return put, Err(put.error), putAttempts, 0;
    }
    var reader := new MpRepl(link, getChunk);
    assert reader.stream.Backlog() == link.pending;
    SameLeftover(b, link.board, b.hello);
    back, getAttempts, getStage := reader.GetFile(path);
  }

  /** Nothing but the import was sent, or the import and the open. */
  ghost predicate OnlyOpened(before: string, after: string, path: string, writing: bool) {
    var head := before + Render(Import) + [CTRL_D];
    after == head || after == head + Render(OpenFile(path, writing)) + [CTRL_D]
  }

  /** What a call leaves behind, whatever its result: outside raw mode nothing has been sent but entry attempts;
      otherwise the last thing sent is the way back to the normal prompt, and behind a successful open the file is
      closed. */
  ghost predicate Leaves(stage: Stage, path: string, writing: bool, attempts: nat, before: string, after: string,
                         b: Board)
  {
    var entered := before + Repeat([CTRL_B, CTRL_C, CTRL_C, CTRL_A], attempts);
    match stage
    case Outside => after == entered
    case Entered => !b.raw && exists mid :: OnlyOpened(entered, mid, path, writing) && after == mid + [CTRL_B]
    case Opened => !b.raw && b.handle == NoFile && exists mid :: after == mid + [CTRL_B]
  }

  /** Noise in front of the greeting that looks like the raw-mode banner is harmless unless a prompt character follows
      it there. */
  predicate CleanNoise(noise: string) {
    Contains(noise, RAW_BANNER) ==> '>' !in Rest(noise, RAW_BANNER)
  }

  /** Everything in front of the greeting of one entry attempt. */
  function Noise(b: Board, junk: string): string {
    junk + b.hello + b.interrupted + b.interrupted
  }

  predicate CleanStart(b: Board, junk: string) {
    CleanNoise(Noise(b, junk))
  }

  /** What a first attempt that succeeds leaves unread: what stands behind the first banner and the first prompt
      character behind that. */
  function Leftover(b: Board, junk: string): string {
    GreetingCuts(Noise(b, junk));
    Rest(Rest(Noise(b, junk) + RAW_GREETING, RAW_BANNER), ">")
  }

  predicate QuietWords(b: Board) {
    CTRL_D !in b.hello && CTRL_D !in b.interrupted
  }

  /** No attempt leaves a Ctrl+D unread, neither the first nor a later one. */
  predicate Quiet(b: Board, junk: string) {
    QuietWords(b) && CTRL_D !in Leftover(b, junk)
  }

  /** What it takes to be in step behind the import after so many attempts. What a first attempt leaves is known. */
  predicate EndsInStep(b: Board, junk: string, attempts: nat) {
    if attempts == 1 then Heals(Leftover(b, junk)) else Quiet(b, junk)
  }

  lemma NoiseGrows(b: Board, junk: string)
    ensures Noise(b, junk + Greeting(b)) == Noise(b, junk) + RAW_GREETING + Noise(b, "")
  {
    var more := b.hello + b.interrupted + b.interrupted;
    assert junk + Greeting(b) == Noise(b, junk) + RAW_GREETING;
    assert Noise(b, "") == more;
    assert Noise(b, Noise(b, junk) + RAW_GREETING) == Noise(b, junk) + RAW_GREETING + more;
  }

  /** An attempt that has cut nothing leaves a greeting more to read. */
  lemma LeftoverGrows(b: Board, junk: string)
    ensures Leftover(b, junk + Greeting(b)) == Leftover(b, junk) + (Noise(b, "") + RAW_GREETING)
  {
    var s, more := Noise(b, junk) + RAW_GREETING, Noise(b, "") + RAW_GREETING;
    GreetingCuts(Noise(b, junk));
    NoiseGrows(b, junk);
    hide Contains, Rest, Noise, Greeting;
    assert Noise(b, junk + Greeting(b)) + RAW_GREETING == s + more;
    PieceExtends(s, more, RAW_BANNER);
    PieceExtends(Rest(s, RAW_BANNER), more, ">");
  }

  lemma WordsOf(b: Board)
    ensures CTRL_D !in RAW_GREETING
    ensures QuietWords(b) <==> CTRL_D !in Noise(b, "") + RAW_GREETING
  {
    var s := Noise(b, "") + RAW_GREETING;
    assert CTRL_D !in RAW_GREETING;
    assert CTRL_D in b.hello || CTRL_D in b.interrupted ==> CTRL_D in Noise(b, "");
  }

  /** A start is quiet exactly if a second attempt, behind a first that has cut nothing, ends in step. */
  lemma QuietExactly(b: Board, junk: string)
    ensures Quiet(b, junk) <==> CTRL_D !in Leftover(b, junk + Greeting(b))
  {
    LeftoverGrows(b, junk);
    WordsOf(b);
  }

  lemma NoiseSplits(b: Board, junk: string)
    ensures Noise(b, junk) + RAW_GREETING == junk + (Noise(b, "") + RAW_GREETING)
  {
    assert Noise(b, "") == b.hello + b.interrupted + b.interrupted;
    assert Noise(b, junk) == junk + Noise(b, "");
  }

  /** So every further attempt finds the start as quiet as before, whether the one before has cut nothing ... */
  lemma UncutStaysQuiet(b: Board, junk: string)
    requires Quiet(b, junk)
    ensures Quiet(b, junk + Greeting(b))
  {
    LeftoverGrows(b, junk);
    WordsOf(b);
    hide Leftover, Noise, Greeting;
  }

  /** ... or the banner only. */
  lemma CutStaysQuiet(b: Board, junk: string)
    requires Quiet(b, junk)
    ensures Contains(Noise(b, junk) + RAW_GREETING, RAW_BANNER)
    ensures Quiet(b, Rest(Noise(b, junk) + RAW_GREETING, RAW_BANNER))
  {
    GreetingCuts(Noise(b, junk));
    WordsOf(b);
    var left := Rest(Noise(b, junk) + RAW_GREETING, RAW_BANNER);
    var more := Noise(b, "") + RAW_GREETING;
    GreetingCuts(Noise(b, left));
    NoiseSplits(b, left);
    hide Contains, Rest, Noise, QuietWords;
    var k := RestIsSuffix(left + more, RAW_BANNER);
    QuietBehindPrompt(left, more, k);
  }

  /** If the text behind the first prompt character holds no Ctrl+D, neither does the text behind any later one. */
  lemma QuietBehindPrompt(left: string, more: string, k: nat)
    requires Contains(left, ">") && CTRL_D !in Rest(left, ">") && CTRL_D !in more
    requires k <= |left + more| && Contains((left + more)[k..], ">")
    ensures CTRL_D !in Rest((left + more)[k..], ">")
  {
    var s := left + more;
    var p := FirstPrompt(left);
    var m := FirstPrompt(s[k..]);
    assert s[k + m] == s[k..][m] == '>';
    assert k + m >= p;
    assert s[k..][m + 1..] == s[k + m + 1..];
    forall i | k + m + 1 <= i < |s| ensures s[i] != CTRL_D {
      if i < |left| {
        assert s[i] == left[p + 1..][i - p - 1];
      } else {
        assert s[i] == more[i - |left|];
      }
    }
  }

  lemma FirstPrompt(s: string) returns (p: nat)
    requires Contains(s, ">")
    ensures p < |s| && s[p] == '>' && Rest(s, ">") == s[p + 1..] && forall i :: 0 <= i < p ==> s[i] != '>'
  {
    p := Find(s, ">");
    assert s[p..p + 1] == ">";
    forall i | 0 <= i < p ensures s[i] != '>' {
      assert !At(s, ">", i);
      assert s[i..i + 1] != ">";
      assert s[i..i + 1] == [s[i]];
    }
  }

  lemma SameLeftover(a: Board, b: Board, junk: string)
    requires SameSettings(a, b)
    ensures Noise(a, junk) == Noise(b, junk) && Leftover(a, junk) == Leftover(b, junk)
    ensures Greeting(a) == Greeting(b) && QuietWords(a) == QuietWords(b)
    ensures forall n :: EndsInStep(a, junk, n) == EndsInStep(b, junk, n)
  {
  }

  lemma QuietEndsInStep(b: Board, junk: string)
    ensures Quiet(b, junk) ==> forall n :: EndsInStep(b, junk, n)
    ensures CTRL_D !in Leftover(b, junk) ==> EndsInStep(b, junk, 1)
  {
    if CTRL_D !in Leftover(b, junk) {
      InStepHeals(Leftover(b, junk));
    }
  }

  /** Behind a fresh hello a board with quiet words is quiet. */
  lemma HelloIsQuiet(b: Board)
    requires QuietWords(b)
    ensures Quiet(b, b.hello)
  {
    WordsOf(b);
    GreetingCuts(Noise(b, b.hello));
    NoiseSplits(b, b.hello);
    var s := Noise(b, b.hello) + RAW_GREETING;
    assert CTRL_D !in s;
    RestIsShorter(s, RAW_BANNER);
    RestIsShorter(Rest(s, RAW_BANNER), ">");
    hide Contains, Rest, Noise;
  }

  /** Everything the board says during one entry attempt. */
  function Greeting(b: Board): string {
    b.hello + b.interrupted + b.interrupted + RAW_GREETING
  }

  lemma GreetingAnswer(b: Board)
    ensures Receive(b, [CTRL_B]) == (b.(raw := false, line := ""), b.hello)
    ensures Receive(b.(raw := false, line := ""), [CTRL_C, CTRL_C])
            == (b.(raw := false, line := ""), b.interrupted + b.interrupted)
    ensures Receive(b.(raw := false, line := ""), [CTRL_A]) == (b.(raw := true, line := ""), RAW_GREETING)
  {
    ExitAnswer(b);
    var cooked := b.(raw := false, line := "");
    assert [CTRL_C, CTRL_C][1..] == [CTRL_C] && [CTRL_C][1..] == "";
    assert Receive(cooked, [CTRL_C]) == (cooked, b.interrupted + "");
    assert b.interrupted + "" == b.interrupted;
    assert RAW_GREETING + "" == RAW_GREETING;
  }

  lemma ExitAnswer(b: Board)
    ensures Receive(b, [CTRL_B]) == (b.(raw := false, line := ""), b.hello)
  {
    assert b.hello + "" == b.hello;
  }

  const AFTER_BANNER := "; CTRL-B to exit\r\n"

  lemma CutsBehindQuietNoise(noise: string)
    requires !Contains(noise, RAW_BANNER)
    ensures Contains(noise + RAW_GREETING, RAW_BANNER) && Rest(noise + RAW_GREETING, RAW_BANNER) == AFTER_BANNER + ">"
    ensures Contains(AFTER_BANNER + ">", ">") && Rest(AFTER_BANNER + ">", ">") == ""
  {
    var after := AFTER_BANNER + ">";
    var s := noise + RAW_GREETING;
    assert s == noise + RAW_BANNER + after;
    FindAfterPrefix(noise, RAW_BANNER, after);
    assert s[|noise| + |RAW_BANNER|..] == after;
    assert after == AFTER_BANNER + ['>'] + "";
    FindSingle(AFTER_BANNER, '>', "");
  }

  lemma CutsBehindFalseBanner(noise: string)
    requires Contains(noise, RAW_BANNER)
    ensures Contains(noise + RAW_GREETING, RAW_BANNER)
    ensures Rest(noise + RAW_GREETING, RAW_BANNER) == Rest(noise, RAW_BANNER) + RAW_GREETING
  {
    FindExtend(noise, RAW_GREETING, RAW_BANNER);
  }

  lemma PromptEndsGreeting(left: string)
    requires '>' !in left
    ensures Contains(left + RAW_GREETING, ">") && Rest(left + RAW_GREETING, ">") == ""
  {
    var before := left + (RAW_BANNER + AFTER_BANNER);
    assert left + RAW_GREETING == before + ['>'] + "";
    FindSingle(before, '>', "");
  }

  /** A banner and a prompt are found behind any noise, and they end the greeting exactly if the noise is clean. */
  lemma GreetingCuts(noise: string)
    ensures var s := noise + RAW_GREETING;
            && Contains(s, RAW_BANNER) && Contains(Rest(s, RAW_BANNER), ">")
            && (Rest(Rest(s, RAW_BANNER), ">") == "" <==> CleanNoise(noise))
  {
    if Contains(noise, RAW_BANNER) {
      CutsBehindFalseBanner(noise);
      var left := Rest(noise, RAW_BANNER);
      if '>' in left {
        PromptInside(left, RAW_GREETING);
      } else {
        PromptEndsGreeting(left);
      }
    } else {
      CutsBehindQuietNoise(noise);
    }
  }

  /** A prompt character in the noise is taken for the prompt and leaves the greeting unread. */
  lemma PromptInside(left: string, more: string)
    requires '>' in left && more != ""
    ensures Contains(left + more, ">") && Rest(left + more, ">") != ""
  {
    var i :| 0 <= i < |left| && left[i] == '>';
    assert left[i..i + 1] == ">";
    assert At(left, ">", i);
    FindExtend(left, more, ">");
  }

  /** A banner, a prompt and a frame left over from before. */
  const STALE := RAW_BANNER + ">" + Frame(Reply("", ""))

  lemma StaleIsLeft(b: Board)
    ensures var s := Noise(b, STALE) + RAW_GREETING;
            && Contains(s, RAW_BANNER) && Contains(Rest(s, RAW_BANNER), ">")
            && Rest(Rest(s, RAW_BANNER), ">") == Frame(Reply("", "")) + (Noise(b, "") + RAW_GREETING)
  {
    var frame, noise := Frame(Reply("", "")), Noise(b, "");
    var left := frame + (noise + RAW_GREETING);
    StaleNoise(b);
    BannerFirst(">" + left);
    PromptFirst(left);
    hide Contains, Rest, Frame, Noise;
    assert "" + RAW_BANNER + (">" + frame + noise) + RAW_GREETING == "" + RAW_BANNER + (">" + left);
  }

  lemma PromptFirst(rest: string)
    ensures var s := ">" + rest; Contains(s, ">") && Rest(s, ">") == rest
  {
    var s := ">" + rest;
    assert s == "" + ['>'] + rest;
    FindSingle("", '>', rest);
    assert s[1..] == rest;
  }

  lemma StaleNoise(b: Board)
    ensures Noise(b, STALE) == "" + RAW_BANNER + (">" + Frame(Reply("", "")) + Noise(b, ""))
  {
    assert Noise(b, STALE) == STALE + Noise(b, "");
  }

  lemma BannerFirst(rest: string)
    ensures var s := "" + RAW_BANNER + rest; Contains(s, RAW_BANNER) && Rest(s, RAW_BANNER) == rest
  {
    FindAfterPrefix("", RAW_BANNER, rest);
    assert ("" + RAW_BANNER + rest)[|RAW_BANNER|..] == rest;
  }

  /** Such a start leaves the driver one answer behind. */
  lemma StaleIsBehind(b: Board)
    requires QuietWords(b)
    ensures OneBehind(Leftover(b, STALE))
  {
    StaleIsLeft(b);
    WordsOf(b);
    StripErrors();
    FrameAnswers(Reply("", ""), Noise(b, "") + RAW_GREETING);
  }

  /** So on a patient link a get succeeds with no data at all, whatever the file holds. */
  method StaleFrameEndsGet(link: Link, path: string, chunk: nat) returns (r: Result<seq<byte>>)
    requires chunk >= 1 && link.patient && link.pending == STALE && path in link.board.files
    requires QuietWords(link.board) && |STALE| + |Greeting(link.board)| < MAX_STREAM_BUF
    requires AnswerFitsBehind(chunk, |link.board.files[path]|)
    modifies link
    ensures r == Ok([]) && link.board.files == old(link.board).files
  {
    hide Leftover;
    StaleIsBehind(link.board);
    var reader := new MpRepl(link, chunk);
    assert reader.stream.Backlog() == STALE;
    ghost var attempts, stage;
    r, attempts, stage := reader.GetFile(path);
  }

  /** A printed chunk parses back to the chunk; only the empty one reads as end of file. */
  lemma AnswerParses(piece: seq<byte>)
    ensures |Frame(Reply(Printed(piece), ""))| == 10 + 2 * |piece|
    ensures ReadAnswerOf(Strip(Printed(piece))) == if piece == [] then Last else Chunk(piece)
  {
    hide Strip, FromHex;
    StripPrinted(piece);
    HexRoundTrip(piece);
    var out := "b'" + HexOf(piece) + "'";
    assert Slice(out, 2, -1) == HexOf(piece);
  }

  /** Every other answer: the end of the file is exactly the empty one, a quoted text is the bytes its hex says, and
      what is not quoted is reported as it came. */
  lemma AnswerTells(out: string)
    ensures ReadAnswerOf(out) == Last <==> out == "" || out == "b''"
    ensures forall text :: out == "b'" + text + "'" && text != "" ==>
              ReadAnswerOf(out) == if FromHex(text).Some? then Chunk(FromHex(text).value) else Unreadable(BadHex)
    ensures ReadAnswerOf(out) == Unreadable(UnexpectedAnswer(out)) <==>
            out != "" && !("b'" <= out && out[|out| - 1] == '\'')
  {
    forall text | out == "b'" + text + "'" ensures text == Slice(out, 2, -1) {
    }
  }

  /** A write changes at most the file behind the open handle. */
  lemma WriteTouchesOne(b: Board, piece: seq<byte>)
    requires b.handle.File?
    ensures var after := Run(b, WriteHex(piece)).0;
            && after.files - {b.handle.path} == b.files - {b.handle.path}
            && after.handle.File? && after.handle.path == b.handle.path
            && SameSettings(b, after) && after.raw == b.raw && after.line == b.line
  {
  }

  const NO_SPACE := TRACEBACK + "OSError: [Errno 28] ENOSPC"
  const NO_ENTRY := TRACEBACK + "OSError: [Errno 2] ENOENT"

  predicate SameSettings(a: Board, b: Board) {
    a.room == b.room && a.hello == b.hello && a.interrupted == b.interrupted
  }

  function Upto(n: nat, len: nat): nat {
    if n <= len then n else len
  }

  /** The board can store the data: an empty file needs no write at all. */
  predicate Fits(data: seq<byte>, b: Board) {
    |data| <= b.room || data == []
  }

  /** `files` with the first bytes of `data` as the content of `path`. */
  ghost predicate Partial(files: map<string, seq<byte>>, now: map<string, seq<byte>>, path: string, data: seq<byte>) {
    exists k :: 0 <= k <= |data| && now == files[path := data[..k]]
  }

  /** The greeting fits the response cap, and a first attempt that cuts it ends in step ... */
  predicate QuickStart(b: Board, junk: string) {
    CTRL_D !in Leftover(b, junk) && |junk| + |Greeting(b)| <= MAX_STREAM_BUF
  }

  /** ... or one answer behind. */
  predicate StartsBehind(b: Board, junk: string) {
    OneBehind(Leftover(b, junk)) && |junk| + |Greeting(b)| < MAX_STREAM_BUF
  }

  /** The hex answer to the longest chunk of a file of this length fits the response cap. */
  predicate AnswerFits(chunk: nat, len: nat) {
    2 * Upto(chunk, len) + 10 <= MAX_STREAM_BUF
  }

  /** So does that answer together with an empty one. */
  predicate AnswerFitsBehind(chunk: nat, len: nat) {
    2 * Upto(chunk, len) + 15 <= MAX_STREAM_BUF
  }

  ghost predicate WrittenUpTo(b: Board, now: Board, path: string, data: seq<byte>, n: nat)
    requires n <= |data|
  {
    && now.files == b.files[path := data[..n]]
    && now.handle == File(path, true, n)
    && (n == 0 || n <= b.room)
  }

  /** One chunk write extends the written prefix, or fails for lack of room. */
  lemma WriteStep(b: Board, now: Board, path: string, data: seq<byte>, i: nat, n: nat)
    requires i < n <= |data| && SameSettings(b, now) && WrittenUpTo(b, now, path, data, i)
    ensures var (after, reply) := Run(now, WriteHex(data[i..n]));
            && (if n <= b.room then WrittenUpTo(b, after, path, data, n) && reply == Reply("", "")
                else after == now && reply == Reply("", ENOSPC))
            && |Frame(reply)| <= MAX_STREAM_BUF
  {
    assert Overwrite(data[..i], i, data[i..n]) == data[..n];
    assert b.files[path := data[..i]][path := data[..n]] == b.files[path := data[..n]];
  }
}
