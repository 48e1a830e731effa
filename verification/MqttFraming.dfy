/** MQTT 3.1.1 framing, three times over: the encoder both sides share, the broker's blocking reader, and the device's
    incremental reader that works on a growing buffer (sections 2.2.3, 3.3 and 3.8 of MQTT Version 3.1.1). */
module MqttFraming {
  import opened Sequences

  const MAX_REMAINING: nat := 268435455
  const DISCONNECT: nat := 14

  datatype Packet = Packet(typeFlags: byte, body: seq<byte>)

  // --- Remaining Length ---

  function Varint(n: nat): (s: seq<byte>)
    ensures s != []
  {
    if n < 128 then [n] else [n % 128 + 128] + Varint(n / 128)
  }

  function Pow128(k: nat): nat {
    if k == 0 then 1 else 128 * Pow128(k - 1)
  }

  /** The encoding is as short as the number allows: k groups of seven bits are needed and used. */
  lemma {:induction false} VarintShortest(n: nat)
    ensures n < Pow128(|Varint(n)|)
    ensures |Varint(n)| > 1 ==> n >= Pow128(|Varint(n)| - 1)
  {
    if n >= 128 {
      VarintShortest(n / 128);
      var k := |Varint(n / 128)|;
      assert Pow128(k + 1) == 128 * Pow128(k);
      if k > 1 {
        assert Pow128(k) == 128 * Pow128(k - 1);
      }
    } else {
      assert Pow128(1) == 128 * Pow128(0);
    }
  }

  datatype Length = Length(value: nat, used: nat) | Incomplete | TooLong

  /** Reads at most `groups` groups from the front of `s`. */
  function ParseVarint(s: seq<byte>, groups: nat): (r: Length)
    ensures r.Length? ==> 1 <= r.used <= |s| && r.used <= groups
    decreases groups
  {
    if groups == 0 then TooLong
    else if s == [] then Incomplete
    else if s[0] < 128 then Length(s[0], 1)
    else
      match ParseVarint(s[1..], groups - 1)
      case Length(n, used) => Length(s[0] - 128 + 128 * n, used + 1)
      case other => other
  }

  lemma {:induction false} VarintParses(n: nat, rest: seq<byte>, groups: nat)
    ensures ParseVarint(Varint(n) + rest, groups)
            == if |Varint(n)| <= groups then Length(n, |Varint(n)|) else TooLong
    decreases groups
  {
    if groups > 0 && n >= 128 {
      assert (Varint(n) + rest)[1..] == Varint(n / 128) + rest;
      VarintParses(n / 128, rest, groups - 1);
    }
  }

  /** The examples of section 2.2.3: 64 takes one byte, 321 takes two, the least significant group first. */
  lemma VarintExamples()
    ensures Varint(64) == [64] && Varint(321) == [193, 2]
    ensures Varint(127) == [0x7F] && Varint(128) == [0x80, 0x01] && Varint(16383) == [0xFF, 0x7F]
  {
    assert Varint(321 / 128) == [2] && Varint(128 / 128) == [1] && Varint(16383 / 128) == [0x7F];
  }

  /** What is complete stays as it is when more arrives. */
  lemma {:induction false} ParseVarintExtends(s: seq<byte>, more: seq<byte>, groups: nat, groups': nat)
    requires ParseVarint(s, groups).Length? && groups' >= groups
    ensures ParseVarint(s + more, groups') == ParseVarint(s, groups)
    decreases groups
  {
    if s[0] >= 128 {
      assert (s + more)[1..] == s[1..] + more;
      ParseVarintExtends(s[1..], more, groups - 1, groups' - 1);
    }
  }

  lemma FourGroups()
    ensures Pow128(4) == MAX_REMAINING + 1
  {
    assert Pow128(1) == 128 && Pow128(2) == 16384 && Pow128(3) == 2097152;
  }

  /** Four groups are enough exactly for the lengths the standard allows. */
  lemma FitsFourGroups(n: nat)
    ensures |Varint(n)| <= 4 <==> n <= MAX_REMAINING
  {
    FourGroups();
    VarintShortest(n);
    if |Varint(n)| <= 4 {
      PowGrows(|Varint(n)|, 4);
    } else {
      PowGrows(4, |Varint(n)| - 1);
    }
  }

  lemma {:induction false} PowGrows(a: nat, b: nat)
    requires a <= b
    ensures Pow128(a) <= Pow128(b)
    decreases b
  {
    if a < b {
      PowGrows(a, b - 1);
    }
  }

  // --- whole packets ---

  function Encode(p: Packet): seq<byte> {
    [p.typeFlags] + Varint(|p.body|) + p.body
  }

  function EncodeAll(ps: seq<Packet>): seq<byte> {
    if ps == [] then [] else Encode(ps[0]) + EncodeAll(ps[1..])
  }

  /** The encoder's loop: seven bits at a time, least significant group first. */
  method EncodePacket(typeFlags: byte, body: seq<byte>) returns (out: seq<byte>)
    ensures out == Encode(Packet(typeFlags, body))
  {
    var length: nat := |body|;
    var varint: seq<byte> := [];
    while true
      invariant varint + Varint(length) == Varint(|body|)
      decreases length
    {
      var b := length % 128;
      ghost var n: nat := length;
      length := length / 128;
      if length > 0 {
        b := b + 128;
      }
      assert Varint(n) == [b] + (if length > 0 then Varint(length) else []);
      assert varint + Varint(n) == varint + [b] + (if length > 0 then Varint(length) else []);
      varint := varint + [b];
      if length == 0 {
        break;
      }
    }
    out := [typeFlags] + varint + body;
  }

  datatype Taken = Taken(packet: Packet, rest: seq<byte>) | More | Invalid

  /** The packet at the front of a byte stream, with a bound on the length groups. */
  function Take(s: seq<byte>, groups: nat): (t: Taken)
    ensures t.Taken? ==> |t.rest| < |s|
  {
    if s == [] then More
    else
      match ParseVarint(s[1..], groups)
      case Incomplete => More
      case TooLong => Invalid
      case Length(n, used) =>
        if |s| < 1 + used + n then More
        else Taken(Packet(s[0], s[1 + used..1 + used + n]), s[1 + used + n..])
  }

  /** An encoded packet is taken back whole, and nothing behind it is touched, exactly if its length fits. */
  lemma TakeEncoded(p: Packet, rest: seq<byte>, groups: nat)
    ensures Take(Encode(p) + rest, groups)
            == if |Varint(|p.body|)| <= groups then Taken(p, rest) else Invalid
  {
    var v := Varint(|p.body|);
    var s := Encode(p) + rest;
    assert s[1..] == v + (p.body + rest);
    VarintParses(|p.body|, p.body + rest, groups);
    var head := [p.typeFlags] + v;
    DropPrefix(s, head + p.body, rest);
    DropPrefix(head + p.body, head, p.body);
    assert s[|head|..|head| + |p.body|] == (head + p.body)[|head|..];
  }

  lemma TakeExtends(s: seq<byte>, more: seq<byte>, groups: nat, groups': nat)
    requires Take(s, groups).Taken? && groups' >= groups
    ensures Take(s + more, groups') == Taken(Take(s, groups).packet, Take(s, groups).rest + more)
  {
    assert (s + more)[1..] == s[1..] + more;
    ParseVarintExtends(s[1..], more, groups, groups');
    var used, n := ParseVarint(s[1..], groups).used, ParseVarint(s[1..], groups).value;
    assert (s + more)[1 + used..1 + used + n] == s[1 + used..1 + used + n];
    assert (s + more)[1 + used + n..] == s[1 + used + n..] + more;
  }

  // --- the broker's reader ---

  /** A connected socket: everything the peer is still going to send, after which it disconnects. */
  class Socket {
    var incoming: seq<byte>

    constructor (incoming: seq<byte>)
      ensures this.incoming == incoming
    {
      this.incoming := incoming;
    }

    /** Some non-empty part of what is coming, at most `n` bytes; nothing only at the end. */
    method Recv(n: nat) returns (chunk: seq<byte>)
      requires n > 0
      modifies this
      ensures chunk + incoming == old(incoming) && |chunk| <= n
      ensures old(incoming) != [] ==> chunk != []
    {
      if incoming == [] {
        return [];
      }
      var k :| 1 <= k <= n && k <= |incoming|;
      chunk, incoming := incoming[..k], incoming[k..];
    }
  }

  method ReadExact(sock: Socket, n: nat) returns (r: Option<seq<byte>>)
    modifies sock
    ensures r.Some? <==> n <= |old(sock.incoming)|
    ensures r.Some? ==> r.value == old(sock.incoming)[..n] && sock.incoming == old(sock.incoming)[n..]
  {
    var buf: seq<byte> := [];
    while |buf| < n
      invariant |buf| <= n && buf + sock.incoming == old(sock.incoming)
      decreases n - |buf|
    {
      var chunk := sock.Recv(n - |buf|);
      if chunk == [] {
        assert sock.incoming == [] && buf == old(sock.incoming);
        return None;
      }
      buf := buf + chunk;
    }
    assert buf == old(sock.incoming)[..n] && sock.incoming == old(sock.incoming)[n..];
    r := Some(buf);
  }

  method ReadByte(sock: Socket) returns (r: Option<byte>)
    modifies sock
    ensures r.None? <==> old(sock.incoming) == []
    ensures r.Some? ==> old(sock.incoming) == [r.value] + sock.incoming
  {
    var one := ReadExact(sock, 1);
    r := if one.None? then None else Some(one.value[0]);
  }

  method ReadVarint(sock: Socket) returns (r: Length)
    modifies sock
    ensures r == ParseVarint(old(sock.incoming), 4)
    ensures r.Length? ==> sock.incoming == old(sock.incoming)[r.used..]
  {
    var multiplier: nat, value: nat := 1, 0;
    var i: nat := 0;
    ghost var s := sock.incoming;
    while i < 4
      invariant i <= 4 && i <= |s| && sock.incoming == s[i..]
      invariant ParseVarint(s, 4) == Shift(value, multiplier, i, ParseVarint(s[i..], 4 - i))
    {
      var next := ReadByte(sock);
      if next.None? {
        return Incomplete;
      }
      var b := next.value;
      assert s[i..][1..] == s[i + 1..] == sock.incoming && s[i..][0] == b;
      ShiftStep(value, multiplier, i, s[i..], 4 - i);
      value := value + Group(b, multiplier);
      if b < 128 {
        return Length(value, i + 1);
      }
      multiplier := multiplier * 128;
      i := i + 1;
    }
    r := TooLong;
  }

  /** The weight of one group: its low seven bits, scaled. */
  function Group(b: byte, multiplier: nat): nat {
    (b % 128) * multiplier
  }

  /** The value of groups already read joined with a result for the groups behind them. */
  function Shift(value: nat, multiplier: nat, i: nat, r: Length): Length {
    match r
    case Length(n, used) => Length(value + multiplier * n, used + i)
    case other => other
  }

  /** One turn of the decoding loop, for either reader. */
  lemma ShiftStep(value: nat, multiplier: nat, i: nat, s: seq<byte>, groups: nat)
    requires s != [] && groups > 0
    ensures Shift(value, multiplier, i, ParseVarint(s, groups))
            == (if s[0] < 128 then Length(value + Group(s[0], multiplier), i + 1)
                else Shift(value + Group(s[0], multiplier), multiplier * 128, i + 1, ParseVarint(s[1..], groups - 1)))
  {
    var later := ParseVarint(s[1..], groups - 1);
    if s[0] >= 128 && later.Length? {
      var n := later.value;
      assert s[0] % 128 == s[0] - 128;
      assert multiplier * (s[0] - 128 + 128 * n) == (s[0] - 128) * multiplier + multiplier * 128 * n;
    }
  }

  datatype End = Closed | BadLength | Disconnected

  /** What the broker makes of a stream: its packets up to a DISCONNECT, an invalid length, or the end. */
  function Served(s: seq<byte>): (r: (seq<Packet>, End))
    decreases |s|
  {
    match Take(s, 4)
    case More => ([], Closed)
    case Invalid => ([], BadLength)
    case Taken(p, rest) =>
      if p.typeFlags / 16 == DISCONNECT then ([p], Disconnected)
      else ([p] + Served(rest).0, Served(rest).1)
  }

  /** One round of the broker's serve loop: type byte, length, body. */
  method ReceivePacket(sock: Socket) returns (r: Taken)
    modifies sock
    ensures r == Take(old(sock.incoming), 4)
    ensures r.Taken? ==> r.rest == sock.incoming
  {
    ghost var s := sock.incoming;
    var first := ReadByte(sock);
    if first.None? {
      return More;
    }
    assert sock.incoming == s[1..];
    var length := ReadVarint(sock);
    if length == TooLong {
      return Invalid;
    }
    if length == Incomplete {
      return More;
    }
    ghost var i := 1 + length.used;
    assert sock.incoming == s[1..][length.used..] == s[i..];
    var body: seq<byte> := [];
    if length.value > 0 {
      var bytes := ReadExact(sock, length.value);
      if bytes.None? {
        return More;
      }
      body := bytes.value;
      assert s[i..][..length.value] == s[i..i + length.value];
      assert s[i..][length.value..] == s[i + length.value..];
    } else {
      assert s[i..i + 0] == [];
    }
    r := Taken(Packet(first.value, body), sock.incoming);
  }

  /** Packets already served in front of what is still to come. */
  function Then(packets: seq<Packet>, later: (seq<Packet>, End)): (seq<Packet>, End) {
    (packets + later.0, later.1)
  }

  lemma ServeRound(packets: seq<Packet>, s: seq<byte>)
    ensures var t := Take(s, 4);
            Then(packets, Served(s))
            == if t.More? then (packets, Closed)
               else if t.Invalid? then (packets, BadLength)
               else if t.packet.typeFlags / 16 == DISCONNECT then (packets + [t.packet], Disconnected)
               else Then(packets + [t.packet], Served(t.rest))
  {
    var t := Take(s, 4);
    assert packets + [] == packets;
    if t.Taken? {
      assert packets + ([t.packet] + Served(t.rest).0) == packets + [t.packet] + Served(t.rest).0;
    }
  }

  /** The read side of the broker's serve loop. */
  method Serve(sock: Socket) returns (packets: seq<Packet>, end: End)
    modifies sock
    ensures (packets, end) == Served(old(sock.incoming))
  {
    packets := [];
    ghost var all := Served(sock.incoming);
    assert packets + all.0 == all.0;
    while true
      invariant Served(old(sock.incoming)) == Then(packets, Served(sock.incoming))
      decreases |sock.incoming|
    {
      ServeRound(packets, sock.incoming);
      var t := ReceivePacket(sock);
      match t {
        case More =>
          return packets, Closed;
        case Invalid =>
          return packets, BadLength;
        case Taken(p, _) =>
          packets := packets + [p];
          if p.typeFlags / 16 == DISCONNECT {
            return packets, Disconnected;
          }
      }
    }
  }

  /** The packets a peer sends up to its first DISCONNECT. */
  function UpToDisconnect(ps: seq<Packet>): seq<Packet> {
    if ps == [] then []
    else if ps[0].typeFlags / 16 == DISCONNECT then [ps[0]]
    else [ps[0]] + UpToDisconnect(ps[1..])
  }

  predicate Disconnects(ps: seq<Packet>) {
    exists i :: 0 <= i < |ps| && ps[i].typeFlags / 16 == DISCONNECT
  }

  /** Encoded packets of legal length are served back as sent, over any splitting of the stream. */
  lemma {:induction false} ServeRoundTrip(ps: seq<Packet>)
    requires forall i :: 0 <= i < |ps| ==> |ps[i].body| <= MAX_REMAINING
    ensures Served(EncodeAll(ps)) == (UpToDisconnect(ps), if Disconnects(ps) then Disconnected else Closed)
  {
    if ps != [] {
      FitsFourGroups(|ps[0].body|);
      TakeEncoded(ps[0], EncodeAll(ps[1..]), 4);
      ServeRoundTrip(ps[1..]);
      assert Disconnects(ps[1..]) ==> Disconnects(ps) by {
        if Disconnects(ps[1..]) {
          var i :| 0 <= i < |ps[1..]| && ps[1..][i].typeFlags / 16 == DISCONNECT;
          assert ps[i + 1] == ps[1..][i];
        }
      }
      assert Disconnects(ps) && ps[0].typeFlags / 16 != DISCONNECT ==> Disconnects(ps[1..]) by {
        if Disconnects(ps) && ps[0].typeFlags / 16 != DISCONNECT {
          var i :| 0 <= i < |ps| && ps[i].typeFlags / 16 == DISCONNECT;
          assert ps[i] == ps[1..][i - 1];
        }
      }
    }
  }

  /** On the wire: a PINGREQ in front of a DISCONNECT is served, the DISCONNECT ends the session, and what follows is
      left alone (sections 3.12 and 3.14). */
  lemma DisconnectEnds(rest: seq<byte>)
    ensures Served([0xC0, 0, 0xE0, 0] + rest) == ([Packet(0xC0, []), Packet(0xE0, [])], Disconnected)
  {
    var bye := [0xE0, 0] + rest;
    TakeShort(0xE0, rest);
    TakeShort(0xC0, bye);
    assert [0xC0, 0, 0xE0, 0] + rest == [0xC0, 0] + bye;
    hide Take;
    assert Served(bye) == ([Packet(0xE0, [])], Disconnected);
    assert [Packet(0xC0, [])] + [Packet(0xE0, [])] == [Packet(0xC0, []), Packet(0xE0, [])];
  }

  lemma TakeShort(typeFlags: byte, rest: seq<byte>)
    ensures Take([typeFlags, 0] + rest, 4) == Taken(Packet(typeFlags, []), rest)
  {
    var p := Packet(typeFlags, []);
    assert Encode(p) == [typeFlags, 0];
    TakeEncoded(p, rest, 4);
  }

  /** A packet the encoder can build but the standard does not allow is refused by the broker. */
  lemma OversizeRefused(p: Packet, rest: seq<byte>)
    ensures Served(Encode(p) + rest) == ([], BadLength) <==> |p.body| > MAX_REMAINING
  {
    FitsFourGroups(|p.body|);
    TakeEncoded(p, rest, 4);
  }

  // --- the device's reader ---

  class Device {
    const sock: Socket
    var buf: seq<byte>

    constructor (sock: Socket)
      ensures this.sock == sock && buf == []
    {
      this.sock := sock;
      buf := [];
    }

    ghost function Stream(): seq<byte>
      reads this, sock
    {
      buf + sock.incoming
    }

    /** One whole packet from the stream, or nothing when the polls run out. The stream loses exactly that
        packet; with as many polls as bytes are coming, a packet that is there is found. */
    method ReadPacket(polls: nat) returns (r: Option<Packet>)
      modifies this, sock
      ensures r.Some? ==> Take(old(Stream()), |old(Stream())|) == Taken(r.value, Stream())
      ensures r.None? ==> Stream() == old(Stream())
      ensures polls >= |old(sock.incoming)| && Take(old(Stream()), |old(Stream())|).Taken? ==> r.Some?
    {
      ghost var all := Stream();
      var left := polls;
      while true
        invariant Stream() == all && 0 <= left <= polls
        invariant polls >= |old(sock.incoming)| ==> left >= |sock.incoming|
        decreases left
      {
        var length := BufferedLength();
        assert buf + sock.incoming == all;
        if length.Length? && |buf| >= 1 + length.used + length.value {
          TakeExtends(buf, sock.incoming, |buf|, |all|);
          ghost var b := buf;
          var i, n := 1 + length.used, length.value;
          r := Some(Packet(buf[0], buf[i..i + n]));
          buf := buf[i + n..];
          return;
        }
        if left == 0 {
          if polls >= |old(sock.incoming)| {
            assert buf == all;
          }
          return None;
        }
        var data := sock.Recv(256);
        left := left - 1;
        buf := buf + data;
      }
    }

    /** The varint loop over the buffer: no bound on the groups but the buffer itself. */
    method BufferedLength() returns (r: Length)
      ensures buf == [] ==> r == Incomplete
      ensures buf != [] ==> (r.Length? <==> ParseVarint(buf[1..], |buf|).Length?)
                            && (r.Length? ==> r == ParseVarint(buf[1..], |buf|))
    {
      var i: nat, mult: nat, n: nat := 1, 1, 0;
      while i < |buf|
        invariant 1 <= i && (buf != [] ==> i <= |buf|) && n >= 0 && mult >= 1
        invariant buf != [] ==>
          ParseVarint(buf[1..], |buf|) == Shift(n, mult, i - 1, ParseVarint(buf[i..], |buf| - (i - 1)))
      {
        var b := buf[i];
        assert buf[i..][1..] == buf[i + 1..];
        ShiftStep(n, mult, i - 1, buf[i..], |buf| - (i - 1));
        n := n + Group(b, mult);
        mult := mult * 128;
        i := i + 1;
        if b < 128 {
          return Length(n, i - 1);
        }
      }
      r := Incomplete;
    }
  }

  /** The device reads back every packet it is sent, whatever its length, one per call and in order. */
  lemma DeviceRoundTrip(ps: seq<Packet>, rest: seq<byte>)
    requires ps != []
    ensures var s := EncodeAll(ps) + rest;
            Take(s, |s|) == Taken(ps[0], EncodeAll(ps[1..]) + rest)
  {
    var tail := EncodeAll(ps[1..]) + rest;
    assert EncodeAll(ps) + rest == Encode(ps[0]) + tail;
    TakeEncoded(ps[0], tail, |Encode(ps[0]) + tail|);
  }

  /** Over any splitting: as many reads as packets were sent give exactly those packets. */
  method DeviceReadsAll(device: Device, ps: seq<Packet>) returns (got: seq<Packet>)
    requires device.Stream() == EncodeAll(ps)
    modifies device, device.sock
    ensures got == ps && device.Stream() == []
  {
    hide Take, Encode;
    got := [];
    while |got| < |ps|
      invariant |got| <= |ps| && got == ps[..|got|] && device.Stream() == EncodeAll(ps[|got|..])
    {
      var k := |got|;
      DeviceRoundTrip(ps[k..], []);
      assert EncodeAll(ps[k..]) + [] == EncodeAll(ps[k..]);
      assert ps[k..][1..] == ps[k + 1..] && EncodeAll(ps[k + 1..]) + [] == EncodeAll(ps[k + 1..]);
      var p := device.ReadPacket(|device.sock.incoming|);
      got := got + [p.value];
    }
  }
}
