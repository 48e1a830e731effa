/** The telnet filter in front of a simulator's terminal: strips IAC commands, negotiations and subnegotiations (RFC
    854, RFC 855) from a stream that arrives in chunks. */
module Telnet {
  import opened Sequences

  const IAC: byte := 0xFF
  const SE: byte := 0xF0
  const SB: byte := 0xFA

  // --- the protocol as an automaton, one byte at a time ---

  /** Inside data, behind an IAC, behind a negotiation verb, inside a subnegotiation, behind an IAC inside one. */
  datatype Mode = Data | Command | Option_ | Sub | SubCommand

  predicate IsVerb(b: byte) {
    0xFB <= b <= 0xFE
  }

  /** The codes of RFC 854: WILL, WONT, DO and DONT are the verbs of a negotiation. */
  lemma Rfc854Codes(b: byte)
    ensures IsVerb(b) <==> b == 251 || b == 252 || b == 253 || b == 254
    ensures IAC == 255 && SB == 250 && SE == 240
  {
  }

  /** Behind an IAC, an IAC is a data byte, SB begins a subnegotiation, a verb takes one option, and anything else is a
      whole command; inside a subnegotiation only IAC SE ends it. */
  lemma Rfc854Steps(b: byte)
    ensures Step(Data, b) == if b == 255 then (Command, []) else (Data, [b])
    ensures Step(Command, b) == if b == 255 then (Data, [255]) else if b == 250 then (Sub, [])
                                else if 251 <= b <= 254 then (Option_, []) else (Data, [])
    ensures Step(Option_, b) == (Data, [])
    ensures Step(Sub, b) == (if b == 255 then SubCommand else Sub, [])
    ensures Step(SubCommand, b) == (if b == 240 then Data else Sub, [])
  {
  }

  function Step(m: Mode, b: byte): (Mode, seq<byte>) {
    match m
    case Data => if b == IAC then (Command, []) else (Data, [b])
    case Command =>
      if IsVerb(b) then (Option_, [])
      else if b == SB then (Sub, [])
      else if b == IAC then (Data, [IAC])
      else (Data, [])
    case Option_ => (Data, [])
    case Sub => if b == IAC then (SubCommand, []) else (Sub, [])
    case SubCommand => if b == SE then (Data, []) else (Sub, [])
  }

  function Filter(m: Mode, s: seq<byte>): (Mode, seq<byte>)
    decreases s
  {
    if s == [] then (m, [])
    else
      var (m1, out1) := Step(m, s[0]);
      var (m2, out2) := Filter(m1, s[1..]);
      (m2, out1 + out2)
  }

  /** Filtering in pieces is filtering the whole. */
  lemma {:induction false} FilterAppend(m: Mode, a: seq<byte>, b: seq<byte>)
    ensures var (m1, out1) := Filter(m, a);
            var (m2, out2) := Filter(m1, b);
            Filter(m, a + b) == (m2, out1 + out2)
    decreases a
  {
    if a == [] {
      assert a + b == b;
      assert [] + Filter(m, b).1 == Filter(m, b).1;
    } else {
      assert (a + b)[1..] == a[1..] + b;
      var (m1, out1) := Step(m, a[0]);
      FilterAppend(m1, a[1..], b);
      var (m2, out2) := Filter(m1, a[1..]);
      assert out1 + (out2 + Filter(m2, b).1) == (out1 + out2) + Filter(m2, b).1;
    }
  }

  // --- the filter ---

  class TelnetFilter {
    var buf: seq<byte>
    var iac: bool
    var sub: bool

    constructor ()
      ensures Valid() && State() == Data
    {
      buf, iac, sub := [], false, false;
    }

    /** At most one byte waits for its successor: an IAC inside a subnegotiation, or a verb behind an IAC. */
    ghost predicate Valid()
      reads this
    {
      && !(iac && sub)
      && |buf| <= 1
      && (buf != [] ==> (sub && buf[0] == IAC) || (iac && IsVerb(buf[0])))
    }

    ghost function State(): Mode
      reads this
    {
      if sub then (if buf == [] then Sub else SubCommand)
      else if iac then (if buf == [] then Command else Option_)
      else Data
    }

    /** One chunk: the output and the state left behind are those of the automaton. */
    method Feed(data: seq<byte>) returns (out: seq<byte>)
      requires Valid()
      modifies this
      ensures Valid() && (State(), out) == Filter(old(State()), data)
    {
      hide Filter;
      ghost var start := State();
      WaitingByte(buf, iac, sub, data);
      buf := buf + data;
      out := [];
      var i := 0;
      var n := |buf|;
      assert buf[0..] == buf;
      while i < n
        invariant 0 <= i <= n == |buf| && !(iac && sub)
        invariant Joined(out, Filter(Plain(iac, sub), buf[i..])) == Filter(start, data)
      {
        var b := buf[i];
        ghost var m := Plain(iac, sub);
        FilterAt(m, buf, i, out);
        assert out + [] == out;
        if i + 1 < n {
          FilterAt(Step(m, b).0, buf, i + 1, out + Step(m, b).1);
        }
        if sub {
          if b == IAC {
            if i + 1 >= n {
              break;
            }
            if buf[i + 1] == SE {
              sub := false;
            }
            i := i + 2;
          } else {
            i := i + 1;
          }
        } else if iac {
          if IsVerb(b) {
            if i + 1 >= n {
              break;
            }
            i := i + 2;
            iac := false;
          } else if b == SB {
            sub := true;
            i := i + 1;
            iac := false;
          } else if b == IAC {
            out := out + [IAC];
            i := i + 1;
            iac := false;
          } else {
            i := i + 1;
            iac := false;
          }
        } else if b == IAC {
          iac := true;
          i := i + 1;
        } else {
          out := out + [b];
          i := i + 1;
        }
      }
      assert i < n ==> buf[i..] == [buf[i]];
      buf := buf[i..];
      assert out + [] == out;
      FilterShort(Plain(iac, sub), buf);
    }

    /** A whole stream in any chunking. */
    method FeedAll(chunks: seq<seq<byte>>) returns (out: seq<byte>)
      requires Valid()
      modifies this
      ensures Valid() && (State(), out) == Filter(old(State()), Flatten(chunks))
    {
      out := [];
      var i := 0;
      while i < |chunks|
        invariant 0 <= i <= |chunks| && Valid()
        invariant (State(), out) == Filter(old(State()), Flatten(chunks[..i]))
      {
        assert chunks[..i + 1] == chunks[..i] + [chunks[i]];
        FlattenSnoc(chunks[..i], chunks[i]);
        FilterAppend(old(State()), Flatten(chunks[..i]), chunks[i]);
        var more := Feed(chunks[i]);
        out := out + more;
        i := i + 1;
      }
      assert chunks[..i] == chunks;
    }
  }

  /** The automaton state without a waiting byte. */
  function Plain(iac: bool, sub: bool): Mode {
    if sub then Sub else if iac then Command else Data
  }

  function Joined(out: seq<byte>, r: (Mode, seq<byte>)): (Mode, seq<byte>) {
    (r.0, out + r.1)
  }

  lemma FilterShort(m: Mode, s: seq<byte>)
    requires |s| <= 1
    ensures Filter(m, s) == if s == [] then (m, []) else Step(m, s[0])
  {
    if s != [] {
      assert Step(m, s[0]).1 + [] == Step(m, s[0]).1;
    }
  }

  lemma FilterAt(m: Mode, s: seq<byte>, i: nat, out: seq<byte>)
    requires i < |s|
    ensures Joined(out, Filter(m, s[i..])) == Joined(out + Step(m, s[i]).1, Filter(Step(m, s[i]).0, s[i + 1..]))
  {
    assert s[i..][1..] == s[i + 1..];
    var (m1, out1) := Step(m, s[i]);
    var rest := Filter(m1, s[i + 1..]);
    assert out + (out1 + rest.1) == (out + out1) + rest.1;
  }

  lemma WaitingByte(buf: seq<byte>, iac: bool, sub: bool, data: seq<byte>)
    requires !(iac && sub) && |buf| <= 1
    requires buf != [] ==> (sub && buf[0] == IAC) || (iac && IsVerb(buf[0]))
    ensures Joined([], Filter(Plain(iac, sub), buf + data))
            == Filter(if buf == [] then Plain(iac, sub) else if sub then SubCommand else Option_, data)
  {
    if buf == [] {
      assert buf + data == data;
    } else {
      assert (buf + data)[1..] == data;
    }
    assert [] + Filter(Plain(iac, sub), buf + data).1 == Filter(Plain(iac, sub), buf + data).1;
    var waiting := if sub then SubCommand else Option_;
    assert [] + Filter(waiting, data).1 == Filter(waiting, data).1;
  }

  // --- what a telnet server sends ---

  /** A data byte, a negotiation with its option, a command without argument, a subnegotiation. */
  datatype Item =
    | Byte(b: byte)
    | Negotiate(verb: byte, option: byte)
    | Simple(command: byte)
    | Subnegotiate(content: seq<byte>)

  predicate WellFormed(it: Item) {
    match it
    case Negotiate(verb, _) => IsVerb(verb)
    case Simple(c) => !IsVerb(c) && c != SB && c != IAC
    case _ => true
  }

  /** 0xFF bytes of data are sent twice. */
  function Doubled(s: seq<byte>): seq<byte> {
    if s == [] then [] else (if s[0] == IAC then [IAC, IAC] else [s[0]]) + Doubled(s[1..])
  }

  function Wire(it: Item): seq<byte> {
    match it
    case Byte(b) => Doubled([b])
    case Negotiate(verb, option) => [IAC, verb, option]
    case Simple(c) => [IAC, c]
    case Subnegotiate(content) => [IAC, SB] + Doubled(content) + [IAC, SE]
  }

  function WireAll(items: seq<Item>): seq<byte> {
    if items == [] then [] else Wire(items[0]) + WireAll(items[1..])
  }

  function Payload(items: seq<Item>): seq<byte> {
    if items == [] then [] else (if items[0].Byte? then [items[0].b] else []) + Payload(items[1..])
  }

  lemma FilterTwo(m: Mode, a: byte, b: byte)
    ensures Filter(m, [a, b]) == (Step(Step(m, a).0, b).0, Step(m, a).1 + Step(Step(m, a).0, b).1)
  {
    assert [a, b][1..] == [b] && [b][1..] == [];
    var (m1, out1) := Step(m, a);
    var (m2, out2) := Step(m1, b);
    assert Filter(m2, []) == (m2, []) && out2 + [] == out2;
    assert Filter(m1, [b]) == (m2, out2);
  }

  lemma {:induction false} InsideSubnegotiation(content: seq<byte>)
    ensures Filter(Sub, Doubled(content)) == (Sub, [])
  {
    var none: seq<byte> := [];
    assert none + none == none;
    if content != [] {
      InsideSubnegotiation(content[1..]);
      if content[0] == IAC {
        FilterTwo(Sub, IAC, IAC);
        FilterAppend(Sub, [IAC, IAC], Doubled(content[1..]));
      } else {
        assert Doubled(content)[1..] == Doubled(content[1..]);
        assert Step(Sub, content[0]) == (Sub, []);
        var later := Filter(Sub, Doubled(content[1..]));
        assert Filter(Sub, Doubled(content)) == (later.0, [] + later.1);
      }
    }
  }

  lemma ByteFiltered(b: byte)
    ensures Filter(Data, Doubled([b])) == (Data, [b])
  {
    var none: seq<byte>, one: seq<byte> := [], [b];
    assert one[1..] == none && Doubled(none) == none;
    if b == IAC {
      FilterTwo(Data, IAC, IAC);
      assert Doubled(one) == [IAC, IAC] && none + [IAC] == [IAC];
    } else {
      assert Doubled(one) == one && one + none == one;
    }
  }

  /** Every complete item leaves the filter in data mode and passes on exactly its data byte. */
  lemma ItemFiltered(it: Item)
    requires WellFormed(it)
    ensures Filter(Data, Wire(it)) == (Data, if it.Byte? then [it.b] else [])
  {
    var none: seq<byte> := [];
    assert none + none == none;
    match it
    case Byte(b) =>
      ByteFiltered(b);
    case Simple(c) =>
      FilterTwo(Data, IAC, c);
      assert Step(Data, IAC) == (Command, []) && Step(Command, c) == (Data, []);
      assert Wire(it) == [IAC, c];
    case Negotiate(verb, option) =>
      FilterTwo(Data, IAC, verb);
      FilterAppend(Data, [IAC, verb], [option]);
      assert [option][1..] == [] && [IAC, verb] + [option] == Wire(it);
    case Subnegotiate(content) =>
      FilterTwo(Data, IAC, SB);
      InsideSubnegotiation(content);
      FilterAppend(Data, [IAC, SB], Doubled(content));
      FilterTwo(Sub, IAC, SE);
      FilterAppend(Data, [IAC, SB] + Doubled(content), [IAC, SE]);
  }

  /** Data doubled on the wire, with any complete commands between its bytes, comes out unchanged. */
  lemma {:induction false} RoundTrip(items: seq<Item>)
    requires forall i :: 0 <= i < |items| ==> WellFormed(items[i])
    ensures Filter(Data, WireAll(items)) == (Data, Payload(items))
  {
    if items != [] {
      ItemFiltered(items[0]);
      RoundTrip(items[1..]);
      FilterAppend(Data, Wire(items[0]), WireAll(items[1..]));
    }
  }

  /** However the wire bytes are cut into chunks, the filter returns the data. */
  method FilterItems(items: seq<Item>, chunks: seq<seq<byte>>) returns (out: seq<byte>)
    requires forall i :: 0 <= i < |items| ==> WellFormed(items[i])
    requires Flatten(chunks) == WireAll(items)
    ensures out == Payload(items)
  {
    RoundTrip(items);
    var filter := new TelnetFilter();
    out := filter.FeedAll(chunks);
  }
}
