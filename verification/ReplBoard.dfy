/** A MicroPython board behind a raw REPL, one received character at a time: mode switching,
    line collection, and the five commands of ReplText run over a small file system. */
module ReplBoard {
  import opened Sequences
  import opened ReplText

  const CTRL_A := '\U{01}'
  const CTRL_B := '\U{02}'
  const CTRL_C := '\U{03}'
  const CTRL_D := '\U{04}'

  const RAW_GREETING := "raw REPL; CTRL-B to exit\r\n>"

  const TRACEBACK := "Traceback (most recent call last):\r\n"
  const ENOENT := TRACEBACK + "OSError: [Errno 2] ENOENT\r\n"
  const ENOSPC := TRACEBACK + "OSError: [Errno 28] ENOSPC\r\n"
  const EBADF := TRACEBACK + "OSError: [Errno 9] EBADF\r\n"
  const SYNTAX := TRACEBACK + "SyntaxError: invalid syntax\r\n"

  lemma TracebackClean(text: string)
    requires CTRL_D !in text
    ensures CTRL_D !in TRACEBACK + text
  {
    assert CTRL_D !in TRACEBACK;
  }

  lemma ErrorTextsClean()
    ensures CTRL_D !in ENOENT && CTRL_D !in ENOSPC && CTRL_D !in EBADF && CTRL_D !in SYNTAX
  {
    TracebackClean("OSError: [Errno 2] ENOENT\r\n");
    TracebackClean("OSError: [Errno 28] ENOSPC\r\n");
    TracebackClean("OSError: [Errno 9] EBADF\r\n");
    TracebackClean("SyntaxError: invalid syntax\r\n");
  }

  datatype Handle = NoFile | File(path: string, writing: bool, pos: nat)

  /** `hello` is what the board prints on Ctrl+B and `interrupted` what it prints on Ctrl+C
      outside raw mode; `room` is the largest file it can store. */
  datatype Board = Board(
    raw: bool, line: string, files: map<string, seq<byte>>, handle: Handle,
    room: nat, hello: string, interrupted: string)

  datatype Reply = Reply(printed: string, error: string)

  /** The raw-REPL answer: acceptance mark, output, Ctrl+D, error text, Ctrl+D, prompt. */
  function Frame(r: Reply): string {
    "OK" + r.printed + [CTRL_D] + r.error + [CTRL_D] + ">"
  }

  function Overwrite(file: seq<byte>, pos: nat, piece: seq<byte>): seq<byte>
    requires pos <= |file|
  {
    file[..pos] + piece + (if pos + |piece| < |file| then file[pos + |piece|..] else [])
  }

  function Take(file: seq<byte>, pos: nat, n: nat): seq<byte> {
    if pos >= |file| then []
    else if pos + n <= |file| then file[pos..pos + n]
    else file[pos..]
  }

  function Printed(piece: seq<byte>): string {
    "b'" + HexOf(piece) + "'\r\n"
  }

  /** One command's effect and reply. A reply never contains Ctrl+D. */
  function Run(b: Board, c: Command): (res: (Board, Reply))
    ensures res.0.raw == b.raw && res.0.line == b.line && res.0.room == b.room
    ensures res.0.hello == b.hello && res.0.interrupted == b.interrupted
    ensures CTRL_D !in res.1.printed && CTRL_D !in res.1.error
  {
    ErrorTextsClean();
    match c
    case Import => (b, Reply("", ""))
    case CloseFile => (b.(handle := NoFile), Reply("", ""))
    case OpenFile(path, writing) =>
      if writing then (b.(files := b.files[path := []], handle := File(path, true, 0)), Reply("", ""))
      else if path in b.files then (b.(handle := File(path, false, 0)), Reply("", ""))
      else (b.(handle := NoFile), Reply("", ENOENT))
    case WriteHex(data) =>
      if b.handle.File? && b.handle.writing && b.handle.path in b.files && b.handle.pos <= |b.files[b.handle.path]| then
        var file := Overwrite(b.files[b.handle.path], b.handle.pos, data);
        if |file| > b.room then (b, Reply("", ENOSPC))
        else (b.(files := b.files[b.handle.path := file],
                 handle := b.handle.(pos := b.handle.pos + |data|)), Reply("", ""))
      else (b, Reply("", EBADF))
    case ReadChunk(n) =>
      if b.handle.File? && !b.handle.writing && b.handle.path in b.files then
        var piece := Take(b.files[b.handle.path], b.handle.pos, n);
        (b.(handle := b.handle.(pos := b.handle.pos + |piece|)), Reply(Printed(piece), ""))
      else (b, Reply("", EBADF))
  }

  function RunLine(b: Board): (Board, Reply) {
    match Parse(b.line)
    case Some(c) => Run(b.(line := ""), c)
    case None => (b.(line := ""), Reply("", if b.line == "" then "" else SYNTAX))
  }

  function OnChar(b: Board, c: char): (Board, string) {
    if c == CTRL_B then (b.(raw := false, line := ""), b.hello)
    else if !b.raw then
      if c == CTRL_A then (b.(raw := true, line := ""), RAW_GREETING)
      else if c == CTRL_C then (b.(line := ""), b.interrupted)
      else (b.(line := b.line + [c]), "")
    else if c == CTRL_D then
      var (after, reply) := RunLine(b);
      (after, Frame(reply))
    else (b.(line := b.line + [c]), "")
  }

  function Receive(b: Board, s: string): (Board, string)
    decreases s
  {
    if s == "" then (b, "")
    else
      var (b1, out1) := OnChar(b, s[0]);
      var (b2, out2) := Receive(b1, s[1..]);
      (b2, out1 + out2)
  }

  lemma {:induction false} ReceiveText(b: Board, t: string, rest: string)
    requires b.raw && forall c :: c in t ==> !Control(c)
    ensures Receive(b, t + rest) == Receive(b.(line := b.line + t), rest)
    decreases t
  {
    if t == "" {
      assert t + rest == rest && b.line + t == b.line;
    } else {
      assert t[0] in t;
      assert (t + rest)[1..] == t[1..] + rest;
      var b1 := b.(line := b.line + [t[0]]);
      assert OnChar(b, t[0]) == (b1, "");
      ReceiveText(b1, t[1..], rest);
      assert b1.line + t[1..] == b.line + t;
      var r := Receive(b1, t[1..] + rest);
      assert "" + r.1 == r.1;
    }
  }

  /** A rendered command line followed by Ctrl+D makes a board in raw mode run exactly that command
      and answer with exactly one frame. */
  lemma ReceiveCommand(b: Board, c: Command)
    requires b.raw && b.line == ""
    ensures Receive(b, Render(c) + [CTRL_D]) == (Run(b, c).0, Frame(Run(b, c).1))
  {
    var line := Render(c);
    RenderPrintable(c);
    ReceiveText(b, line, [CTRL_D]);
    var full := b.(line := b.line + line);
    assert full.line == line;
    ParseRender(c);
    assert full.(line := "") == b;
    var (after, out) := OnChar(full, CTRL_D);
    assert [CTRL_D][1..] == "";
    assert Receive(after, "") == (after, "");
    assert out + "" == out;
  }
}
