/** The text of the five command lines the file transfer sends to the board, and the board's
    reading of them. A path travels as a quoted literal, a chunk size in decimal, and file bytes
    in hex, so no line ever contains a control character. */
module ReplText {
  import opened Sequences

  datatype Command =
    | Import
    | OpenFile(path: string, writing: bool)
    | WriteHex(data: seq<byte>)
    | ReadChunk(n: nat)
    | CloseFile

  const IMPORT := "import binascii"
  const CLOSE := "f.close()"
  const OPEN_HEAD := "f = open("
  const OPEN_WB := ", 'wb')"
  const OPEN_RB := ", 'rb')"
  const WRITE_HEAD := "f.write(binascii.unhexlify('"
  const WRITE_TAIL := "'))"
  const READ_HEAD := "print(binascii.hexlify(f.read("
  const READ_TAIL := ")))"

  function Render(c: Command): string {
    match c
    case Import => IMPORT
    case OpenFile(path, writing) => OPEN_HEAD + Repr(path) + (if writing then OPEN_WB else OPEN_RB)
    case WriteHex(data) => WRITE_HEAD + HexOf(data) + WRITE_TAIL
    case ReadChunk(n) => READ_HEAD + Decimal(n) + READ_TAIL
    case CloseFile => CLOSE
  }

  function Parse(line: string): Option<Command> {
    if line == IMPORT then Some(Import)
    else if line == CLOSE then Some(CloseFile)
    else if Middle(line, WRITE_HEAD, WRITE_TAIL).Some? then
      (match FromHex(Middle(line, WRITE_HEAD, WRITE_TAIL).value)
       case Some(data) => Some(WriteHex(data))
       case None => None)
    else if Middle(line, READ_HEAD, READ_TAIL).Some? then
      (match ParseDecimal(Middle(line, READ_HEAD, READ_TAIL).value)
       case Some(n) => Some(ReadChunk(n))
       case None => None)
    else if Middle(line, OPEN_HEAD, OPEN_WB).Some? then
      (match ParseRepr(Middle(line, OPEN_HEAD, OPEN_WB).value)
       case Some(path) => Some(OpenFile(path, true))
       case None => None)
    else if Middle(line, OPEN_HEAD, OPEN_RB).Some? then
      (match ParseRepr(Middle(line, OPEN_HEAD, OPEN_RB).value)
       case Some(path) => Some(OpenFile(path, false))
       case None => None)
    else None
  }

  /** What stands between a fixed head and a fixed tail. */
  function Middle(s: string, head: string, tail: string): Option<string> {
    if |s| >= |head| + |tail| && s[..|head|] == head && s[|s| - |tail|..] == tail
    then Some(s[|head|..|s| - |tail|])
    else None
  }

  lemma MiddleOf(head: string, mid: string, tail: string)
    ensures Middle(head + mid + tail, head, tail) == Some(mid)
  {
    var s := head + mid + tail;
    assert s[..|head|] == head;
    assert s[|s| - |tail|..] == tail;
    assert s[|head|..|s| - |tail|] == mid;
  }

  // --- hex ---

  function HexDigit(n: nat): (c: char)
    requires n < 16
    ensures DigitValue(c) == n && '0' <= c <= 'f'
  {
    if n < 10 then ('0' as int + n) as char else ('a' as int + n - 10) as char
  }

  function DigitValue(c: char): (v: int)
    ensures -1 <= v < 16
  {
    if '0' <= c <= '9' then c as int - '0' as int
    else if 'a' <= c <= 'f' then c as int - 'a' as int + 10
    else if 'A' <= c <= 'F' then c as int - 'A' as int + 10
    else -1
  }

  function HexOf(data: seq<byte>): (s: string)
    ensures |s| == 2 * |data|
    ensures forall c :: c in s ==> DigitValue(c) >= 0 && '0' <= c <= 'f'
  {
    if data == [] then ""
    else [HexDigit(data[0] / 16), HexDigit(data[0] % 16)] + HexOf(data[1..])
  }

  /** `bytes.fromhex`: blanks may stand between the digit pairs. */
  function FromHex(s: string): Option<seq<byte>> {
    if s == "" then Some([])
    else if IsSpace(s[0]) then FromHex(s[1..])
    else if |s| < 2 || DigitValue(s[0]) < 0 || DigitValue(s[1]) < 0 then None
    else
      match FromHex(s[2..])
      case Some(rest) => Some([(16 * DigitValue(s[0]) + DigitValue(s[1])) as byte] + rest)
      case None => None
  }

  predicate IsSpace(c: char) {
    c == ' ' || 9 <= c as int <= 13
  }

  /** What a text is stripped of: four more control characters. */
  predicate IsBlank(c: char) {
    IsSpace(c) || 28 <= c as int <= 31
  }

  /** Without blanks a text is hex exactly if it is digit pairs, and then every pair is its byte, high digit first. */
  lemma {:induction false} FromHexTells(s: string)
    requires forall c :: c in s ==> !IsSpace(c)
    ensures FromHex(s).Some? <==> |s| % 2 == 0 && forall c :: c in s ==> DigitValue(c) >= 0
    ensures FromHex(s).Some? ==>
              var data := FromHex(s).value;
              2 * |data| == |s|
              && forall i :: 0 <= i < |data| ==> data[i] == 16 * DigitValue(s[2 * i]) + DigitValue(s[2 * i + 1])
  {
    if |s| >= 2 {
      assert s[0] in s && s[1] in s;
      assert s == s[..2] + s[2..];
      FromHexTells(s[2..]);
    } else if |s| == 1 {
      assert s[0] in s;
    }
  }

  /** Hex texts behind each other read as their bytes behind each other, and a blank reads as none. */
  lemma {:induction false} FromHexAppend(a: string, b: string)
    requires FromHex(a).Some?
    ensures FromHex(a + b) == HexJoined(FromHex(a).value, FromHex(b))
  {
    hide DigitValue, IsSpace;
    if a == "" {
      assert a + b == b;
      assert FromHex(b).Some? ==> [] + FromHex(b).value == FromHex(b).value;
    } else if IsSpace(a[0]) {
      assert (a + b)[1..] == a[1..] + b;
      FromHexAppend(a[1..], b);
    } else {
      FromHexPair(a);
      FromHexPair(a + b);
      assert (a + b)[2..] == a[2..] + b;
      FromHexAppend(a[2..], b);
      hide FromHex;
      HexJoinedMore([(16 * DigitValue(a[0]) + DigitValue(a[1])) as byte], FromHex(a[2..]).value, FromHex(b));
    }
  }

  lemma FromHexPair(s: string)
    requires |s| >= 2 && !IsSpace(s[0]) && DigitValue(s[0]) >= 0 && DigitValue(s[1]) >= 0
    ensures FromHex(s) == HexJoined([(16 * DigitValue(s[0]) + DigitValue(s[1])) as byte], FromHex(s[2..]))
  {
  }

  function HexJoined(before: seq<byte>, later: Option<seq<byte>>): Option<seq<byte>> {
    match later
    case Some(data) => Some(before + data)
    case None => None
  }

  lemma HexJoinedMore(first: seq<byte>, before: seq<byte>, later: Option<seq<byte>>)
    ensures HexJoined(first + before, later) == HexJoined(first, HexJoined(before, later))
  {
    if later.Some? {
      assert first + (before + later.value) == first + before + later.value;
    }
  }

  lemma FromHexBlank(c: char)
    ensures FromHex([c]) == Some([]) <==> c == ' ' || 9 <= c as int <= 13
  {
  }

  lemma HexPair(b: byte, rest: string, data: seq<byte>)
    requires FromHex(rest) == Some(data)
    ensures FromHex([HexDigit(b / 16), HexDigit(b % 16)] + rest) == Some([b] + data)
  {
    var s := [HexDigit(b / 16), HexDigit(b % 16)] + rest;
    assert s[2..] == rest;
  }

  lemma {:induction false} HexRoundTrip(data: seq<byte>)
    ensures FromHex(HexOf(data)) == Some(data)
  {
    if data != [] {
      HexRoundTrip(data[1..]);
      HexPair(data[0], HexOf(data[1..]), data[1..]);
      assert data == [data[0]] + data[1..];
    }
  }

  // --- decimal ---

  function Decimal(n: nat): (s: string)
    ensures s != "" && forall c :: c in s ==> '0' <= c <= '9'
  {
    if n < 10 then [('0' as int + n) as char]
    else Decimal(n / 10) + [('0' as int + n % 10) as char]
  }

  function ParseDecimal(s: string): Option<nat> {
    if s == "" || !('0' <= s[|s| - 1] <= '9') then None
    else
      var d := s[|s| - 1] as int - '0' as int;
      if |s| == 1 then Some(d)
      else
        match ParseDecimal(s[..|s| - 1])
        case Some(n) => Some(10 * n + d)
        case None => None
  }

  lemma {:induction false} DecimalRoundTrip(n: nat)
    ensures ParseDecimal(Decimal(n)) == Some(n)
  {
    if n >= 10 {
      var s := Decimal(n);
      assert s[..|s| - 1] == Decimal(n / 10);
      DecimalRoundTrip(n / 10);
    }
  }

  // --- quoted path ---

  /** The quote character of a string literal: single, unless only that one occurs inside. */
  function QuoteOf(path: string): char {
    if '\'' in path && '"' !in path then '"' else '\''
  }

  predicate NeedsHex(c: char) {
    c < ' ' || 0x7f <= c as int <= 0xa0 || c as int == 0xad
  }

  function EscapeChar(c: char, q: char): string {
    if c == q || c == '\\' then ['\\', c]
    else if c == '\n' then ['\\', 'n']
    else if c == '\r' then ['\\', 'r']
    else if c == '\t' then ['\\', 't']
    else if NeedsHex(c) then ['\\', 'x', HexDigit(c as int / 16), HexDigit(c as int % 16)]
    else [c]
  }

  function Escape(path: string, q: char): string {
    if path == "" then "" else EscapeChar(path[0], q) + Escape(path[1..], q)
  }

  function Repr(path: string): string {
    var q := QuoteOf(path);
    [q] + Escape(path, q) + [q]
  }

  /** Reads a literal up to its closing quote, which must end the text. */
  function Unescape(s: string, q: char): Option<string> {
    if s == "" then None
    else if s[0] == q then (if |s| == 1 then Some("") else None)
    else if s[0] != '\\' then Prepend(s[0], Unescape(s[1..], q))
    else if |s| < 2 then None
    else if s[1] in ['\\', '\'', '"'] then Prepend(s[1], Unescape(s[2..], q))
    else if s[1] == 'n' then Prepend('\n', Unescape(s[2..], q))
    else if s[1] == 'r' then Prepend('\r', Unescape(s[2..], q))
    else if s[1] == 't' then Prepend('\t', Unescape(s[2..], q))
    else if s[1] == 'x' && |s| >= 4 && DigitValue(s[2]) >= 0 && DigitValue(s[3]) >= 0 then
      Prepend((16 * DigitValue(s[2]) + DigitValue(s[3])) as char, Unescape(s[4..], q))
    else None
  }

  function Prepend(c: char, rest: Option<string>): Option<string> {
    match rest
    case Some(t) => Some([c] + t)
    case None => None
  }

  function ParseRepr(s: string): Option<string> {
    if |s| >= 2 && s[0] in ['\'', '"'] then Unescape(s[1..], s[0]) else None
  }

  lemma HexEscape(c: char, rest: string, q: char)
    requires (q == '\'' || q == '"') && NeedsHex(c)
    ensures Unescape(['\\', 'x', HexDigit(c as int / 16), HexDigit(c as int % 16)] + rest, q)
            == Prepend(c, Unescape(rest, q))
  {
    var e := ['\\', 'x', HexDigit(c as int / 16), HexDigit(c as int % 16)];
    assert (e + rest)[4..] == rest;
  }

  lemma UnescapeChar(c: char, rest: string, q: char)
    requires q == '\'' || q == '"'
    ensures Unescape(EscapeChar(c, q) + rest, q) == Prepend(c, Unescape(rest, q))
  {
    var e := EscapeChar(c, q);
    DropPrefix(e + rest, e, rest);
    if |e| == 4 {
      HexEscape(c, rest, q);
    }
  }

  lemma {:induction false} UnescapeEscape(path: string, q: char)
    requires q == '\'' || q == '"'
    ensures Unescape(Escape(path, q) + [q], q) == Some(path)
  {
    if path != "" {
      var rest := Escape(path[1..], q) + [q];
      assert Escape(path, q) + [q] == EscapeChar(path[0], q) + rest;
      UnescapeEscape(path[1..], q);
      UnescapeChar(path[0], rest, q);
      assert path == [path[0]] + path[1..];
    }
  }

  lemma ReprRoundTrip(path: string)
    ensures ParseRepr(Repr(path)) == Some(path)
  {
    var q := QuoteOf(path);
    UnescapeEscape(path, q);
    assert Repr(path)[1..] == Escape(path, q) + [q];
  }

  // --- whole lines ---

  predicate Control(c: char) {
    c < ' '
  }

  lemma {:induction false} EscapePrintable(path: string, q: char)
    requires !Control(q)
    ensures forall c :: c in Escape(path, q) ==> !Control(c)
  {
    if path != "" {
      EscapePrintable(path[1..], q);
    }
  }

  lemma AroundPrintable(head: string, mid: string, tail: string)
    requires forall ch :: ch in head || ch in mid || ch in tail ==> !Control(ch)
    ensures forall ch :: ch in head + mid + tail ==> !Control(ch)
  {
  }

  lemma OpenPrintable(path: string, writing: bool)
    ensures forall ch :: ch in Render(OpenFile(path, writing)) ==> !Control(ch)
  {
    EscapePrintable(path, QuoteOf(path));
    AroundPrintable(OPEN_HEAD, Repr(path), if writing then OPEN_WB else OPEN_RB);
  }

  lemma WritePrintable(data: seq<byte>)
    ensures forall ch :: ch in Render(WriteHex(data)) ==> !Control(ch)
  {
    AroundPrintable(WRITE_HEAD, HexOf(data), WRITE_TAIL);
  }

  lemma ReadPrintable(n: nat)
    ensures forall ch :: ch in Render(ReadChunk(n)) ==> !Control(ch)
  {
    AroundPrintable(READ_HEAD, Decimal(n), READ_TAIL);
  }

  /** No command line contains a control character, whatever the path, so the Ctrl+D that ends a
      line is the first one the board sees. */
  lemma RenderPrintable(c: Command)
    ensures Render(c) != "" && forall ch :: ch in Render(c) ==> !Control(ch)
  {
    match c
    case OpenFile(path, writing) => OpenPrintable(path, writing);
    case WriteHex(data) => WritePrintable(data);
    case ReadChunk(n) => ReadPrintable(n);
    case Import =>
    case CloseFile =>
  }

  lemma PlainChar(c: char, q: char)
    requires c != q && c != '\\' && !NeedsHex(c)
    ensures EscapeChar(c, q) == [c]
  {
  }

  /** A path of ordinary characters travels between single quotes as it is. */
  lemma {:induction false} PlainEscape(path: string, q: char)
    requires forall c :: c in path ==> c != q && c != '\\' && !NeedsHex(c)
    ensures Escape(path, q) == path
  {
    hide NeedsHex, EscapeChar;
    if path != "" {
      assert path[0] in path && forall c :: c in path[1..] ==> c in path;
      PlainChar(path[0], q);
      PlainEscape(path[1..], q);
      assert path == [path[0]] + path[1..];
    }
  }

  /** The command lines as the board is sent them. */
  lemma OpenTexts(path: string)
    requires forall c :: c in path ==> c != '\'' && c != '\\' && !NeedsHex(c)
    ensures Render(OpenFile(path, true)) == "f = open('" + path + "', 'wb')"
    ensures Render(OpenFile(path, false)) == "f = open('" + path + "', 'rb')"
  {
    PlainEscape(path, '\'');
    hide Escape;
    assert "f = open(" + (['\''] + path + ['\'']) + ", 'wb')" == "f = open('" + path + "', 'wb')";
    assert "f = open(" + (['\''] + path + ['\'']) + ", 'rb')" == "f = open('" + path + "', 'rb')";
  }

  lemma OtherTexts()
    ensures Render(Import) == "import binascii" && Render(CloseFile) == "f.close()"
    ensures Render(WriteHex([1, 254])) == "f.write(binascii.unhexlify('" + "01fe" + "'))"
    ensures Render(ReadChunk(256)) == "print(binascii.hexlify(f.read(" + "256" + ")))"
    ensures Repr("it's") == "\"it's\""
  {
    HexExample();
    DecimalExample();
    hide HexOf, Decimal;
    PlainEscape("it's", '"');
    hide Escape;
    assert '\'' in "it's" by {
      assert "it's"[2] == '\'';
    }
  }

  lemma HexExample()
    ensures HexOf([1, 254]) == "01fe"
  {
    var s: seq<byte> := [1, 254];
    assert s[1..] == [254] && s[1..][1..] == [];
  }

  lemma DecimalExample()
    ensures Decimal(256) == "256"
  {
    assert Decimal(2) == "2" && Decimal(25) == "25";
  }

  lemma NoMiddle(s: string, head: string, tail: string, i: nat)
    requires i < |head| && i < |s| && s[i] != head[i]
    ensures Middle(s, head, tail) == None
  {
    if |s| >= |head| {
      assert s[..|head|][i] != head[i];
    }
  }

  lemma ParseWrite(data: seq<byte>)
    ensures Parse(Render(WriteHex(data))) == Some(WriteHex(data))
  {
    MiddleOf(WRITE_HEAD, HexOf(data), WRITE_TAIL);
    HexRoundTrip(data);
    assert Render(WriteHex(data))[2] == 'w';
  }

  lemma ParseRead(n: nat)
    ensures Parse(Render(ReadChunk(n))) == Some(ReadChunk(n))
  {
    var s := Render(ReadChunk(n));
    assert s[0] == 'p';
    NoMiddle(s, WRITE_HEAD, WRITE_TAIL, 0);
    MiddleOf(READ_HEAD, Decimal(n), READ_TAIL);
    DecimalRoundTrip(n);
  }

  lemma ParseOpen(path: string, writing: bool)
    ensures Parse(Render(OpenFile(path, writing))) == Some(OpenFile(path, writing))
  {
    var tail := if writing then OPEN_WB else OPEN_RB;
    var s := OPEN_HEAD + Repr(path) + tail;
    assert s == Render(OpenFile(path, writing));
    assert s[0] == 'f' && s[1] == ' ';
    NoMiddle(s, WRITE_HEAD, WRITE_TAIL, 1);
    NoMiddle(s, READ_HEAD, READ_TAIL, 0);
    MiddleOf(OPEN_HEAD, Repr(path), tail);
    ReprRoundTrip(path);
    if !writing {
      assert s[|s| - 4] == 'r';
      assert s[|s| - |OPEN_WB|..][|OPEN_WB| - 4] == 'r' != OPEN_WB[|OPEN_WB| - 4];
      assert Middle(s, OPEN_HEAD, OPEN_WB) == None;
    }
  }

  /** The board reads back exactly the command that was sent. */
  lemma ParseRender(c: Command)
    ensures Parse(Render(c)) == Some(c)
  {
    match c
    case Import =>
    case CloseFile =>
    case WriteHex(data) => ParseWrite(data);
    case ReadChunk(n) => ParseRead(n);
    case OpenFile(path, writing) => ParseOpen(path, writing);
  }
}
