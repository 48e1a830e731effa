/** The simulated broker behind the framing: PUBLISH and SUBSCRIBE bodies, the retained store, and who is sent what
    (sections 3.3 and 3.8 of MQTT Version 3.1.1). One handler runs at a time here; RetainedRace interleaves them. */
module MqttBroker {
  import opened Sequences
  import opened Topics
  import opened MqttFraming

  const PUBLISH_FLAGS: byte := 3 * 16
  const PUBACK_FLAGS: byte := 4 * 16
  const SUBACK_FLAGS: byte := 9 * 16

  // --- bodies ---

  /** Big-endian value of however many bytes there are. */
  function BigEndian(s: seq<byte>): nat {
    if s == [] then 0 else BigEndian(s[..|s| - 1]) * 256 + s[|s| - 1]
  }

  lemma BigEndianPair(hi: byte, lo: byte)
    ensures BigEndian([hi, lo]) == hi * 256 + lo
  {
    var pair: seq<byte>, one: seq<byte> := [hi, lo], [hi];
    assert pair[..1] == one && one[..0] == [];
    assert BigEndian(one) == hi;
  }

  lemma BigEndianShort(s: seq<byte>)
    requires |s| <= 2
    ensures BigEndian(s) <= 65535
  {
    if |s| == 2 {
      assert s == [s[0], s[1]];
      BigEndianPair(s[0], s[1]);
    }
  }

  /** A length-prefixed string; none where two bytes cannot hold the length. */
  function Prefixed(t: Text): Option<seq<byte>> {
    if |t| > 65535 then None else Some([|t| / 256, |t| % 256] + t)
  }

  /** The length a prefix announces, the text behind it, cut short where the bytes end, and what follows the text. */
  function Announced(s: seq<byte>): (n: nat)
    ensures n <= 65535
  {
    BigEndianShort(Head(s, 2));
    BigEndian(Head(s, 2))
  }

  function TextOf(s: seq<byte>): (t: Text)
    ensures |t| <= 65535
  {
    Head(Beyond(s, 2), Announced(s))
  }

  function AfterText(s: seq<byte>): seq<byte> {
    Beyond(s, 2 + Announced(s))
  }

  lemma PrefixedReads(t: Text, after: seq<byte>)
    requires |t| <= 65535
    ensures TextOf(Prefixed(t).value + after) == t && AfterText(Prefixed(t).value + after) == after
  {
    var prefix: seq<byte> := [|t| / 256, |t| % 256];
    var s := Prefixed(t).value + after;
    assert Head(s, 2) == prefix;
    BigEndianPair(|t| / 256, |t| % 256);
    assert s == prefix + (t + after);
    assert Beyond(s, 2) == t + after;
  }

  function PublishBody(topic: Text, payload: seq<byte>): Option<seq<byte>> {
    match Prefixed(topic)
    case None => None
    case Some(t) => Some(t + payload)
  }

  datatype Publish = Publish(topic: Text, payload: seq<byte>, qos: nat, retain: bool, packetId: seq<byte>)

  /** A PUBLISH body read under its header flags; none if the topic is not UTF-8. */
  function ParsePublish(flags: byte, body: seq<byte>): (r: Option<Publish>)
    ensures r.Some? ==> |r.value.topic| <= 65535 && Utf8(r.value.topic)
  {
    if !Utf8(TextOf(body)) then None else Some(ReadUnder(flags, TextOf(body), AfterText(body)))
  }

  function ReadUnder(flags: byte, topic: Text, rest: seq<byte>): Publish {
    var qos := flags / 2 % 4;
    if qos == 1 then Publish(topic, Beyond(rest, 2), qos, flags % 2 == 1, Head(rest, 2))
    else Publish(topic, rest, qos, flags % 2 == 1, [])
  }

  function Flags(acked: bool, retain: bool): byte {
    (if acked then 2 else 0) + (if retain then 1 else 0)
  }

  lemma ReadsUnderFlags(topic: Text, packetId: seq<byte>, payload: seq<byte>, retain: bool)
    requires packetId == [] || |packetId| == 2
    ensures ReadUnder(Flags(packetId != [], retain), topic, packetId + payload)
            == Publish(topic, payload, if packetId == [] then 0 else 1, retain, packetId)
  {
    var rest := packetId + payload;
    if packetId == [] {
      assert rest == payload;
    } else {
      assert Head(rest, 2) == packetId && Beyond(rest, 2) == payload;
    }
  }

  /** What a publisher encodes is what the broker reads, with and without a packet identifier. */
  lemma PublishRoundTrip(topic: Text, packetId: seq<byte>, payload: seq<byte>, retain: bool)
    requires |topic| <= 65535 && Utf8(topic) && (packetId == [] || |packetId| == 2)
    ensures ParsePublish(Flags(packetId != [], retain), PublishBody(topic, packetId + payload).value)
            == Some(Publish(topic, payload, if packetId == [] then 0 else 1, retain, packetId))
  {
    PrefixedReads(topic, packetId + payload);
    ReadsUnderFlags(topic, packetId, payload, retain);
  }

  /** The filters of a SUBSCRIBE body behind its packet identifier; none if one of them is not UTF-8. */
  function Filters(s: seq<byte>): (r: Option<seq<Text>>)
    decreases |s|
  {
    if s == [] then Some([])
    else if !Utf8(TextOf(s)) then None
    else
      match Filters(Beyond(AfterText(s), 1))
      case None => None
      case Some(fs) => Some([TextOf(s)] + fs)
  }

  /** Filters already read joined with those still to come. */
  function Prepend(filters: seq<Text>, later: Option<seq<Text>>): Option<seq<Text>> {
    match later
    case None => None
    case Some(fs) => Some(filters + fs)
  }

  /** The broker's loop over a SUBSCRIBE body, which advances by at least three bytes a turn. */
  method ParseFilters(body: seq<byte>) returns (r: Option<seq<Text>>)
    ensures r == Filters(Beyond(body, 2))
  {
    var filters: seq<Text> := [];
    var pos: nat := 2;
    assert forall fs: seq<Text> :: filters + fs == fs;
    while pos < |body|
      invariant Filters(Beyond(body, 2)) == Prepend(filters, Filters(Beyond(body, pos)))
      decreases |body| - pos
    {
      ghost var s := Beyond(body, pos);
      var tlen := BigEndian(Head(Beyond(body, pos), 2));
      assert Beyond(body, pos + 2) == Beyond(s, 2);
      var pattern := Head(Beyond(body, pos + 2), tlen);
      if !Utf8(pattern) {
        return None;
      }
      pos := pos + 2 + tlen + 1;
      assert Beyond(AfterText(s), 1) == Beyond(body, pos);
      PrependStep(filters, pattern, Filters(Beyond(body, pos)));
      filters := filters + [pattern];
    }
    assert filters + [] == filters;
    r := Some(filters);
  }

  lemma PrependStep(filters: seq<Text>, pattern: Text, later: Option<seq<Text>>)
    ensures Prepend(filters, Prepend([pattern], later)) == Prepend(filters + [pattern], later)
  {
    if later.Some? {
      assert filters + ([pattern] + later.value) == filters + [pattern] + later.value;
    }
  }

  predicate Subscribable(filters: seq<Text>) {
    forall i :: 0 <= i < |filters| ==> |filters[i]| <= 65535 && Utf8(filters[i])
  }

  /** What a client sends after the packet identifier: each filter with the quality of service it asks for. */
  function FilterBytes(filters: seq<Text>, qos: byte): seq<byte>
    requires Subscribable(filters)
  {
    if filters == [] then []
    else Prefixed(filters[0]).value + ([qos] + FilterBytes(filters[1..], qos))
  }

  lemma FilterReads(t: Text, qos: byte, later: seq<byte>)
    requires |t| <= 65535 && Utf8(t)
    ensures Filters(Prefixed(t).value + ([qos] + later)) == Prepend([t], Filters(later))
  {
    PrefixedReads(t, [qos] + later);
    assert Beyond([qos] + later, 1) == later;
  }

  lemma {:induction false} SubscribeRoundTrip(filters: seq<Text>, qos: byte)
    requires Subscribable(filters)
    ensures Filters(FilterBytes(filters, qos)) == Some(filters)
  {
    if filters != [] {
      hide Filters, Utf8;
      SubscribeRoundTrip(filters[1..], qos);
      FilterReads(filters[0], qos, FilterBytes(filters[1..], qos));
      assert [filters[0]] + filters[1..] == filters;
    }
  }

  // --- the retained store ---

  datatype Kept = Kept(topic: Text, payload: seq<byte>)

  predicate Distinct(d: seq<Kept>) {
    forall i, j :: 0 <= i < j < |d| ==> d[i].topic != d[j].topic
  }

  function Lookup(d: seq<Kept>, topic: Text): Option<seq<byte>> {
    if d == [] then None
    else if d[0].topic == topic then Some(d[0].payload)
    else Lookup(d[1..], topic)
  }

  /** Dictionary assignment: a known key keeps its place, a new one goes last. */
  function Assign(d: seq<Kept>, topic: Text, payload: seq<byte>): seq<Kept> {
    if d == [] then [Kept(topic, payload)]
    else if d[0].topic == topic then [Kept(topic, payload)] + d[1..]
    else [d[0]] + Assign(d[1..], topic, payload)
  }

  function Remove(d: seq<Kept>, topic: Text): seq<Kept> {
    if d == [] then []
    else if d[0].topic == topic then d[1..]
    else [d[0]] + Remove(d[1..], topic)
  }

  /** What a publish leaves in the store: a payload replaces, an empty one removes, QoS 2 and unretained ones do
      nothing. */
  function Retained(d: seq<Kept>, p: Publish): seq<Kept> {
    if p.qos > 1 || !p.retain then d
    else if p.payload != [] then Assign(d, p.topic, p.payload)
    else Remove(d, p.topic)
  }

  lemma {:induction false} LookupIn(d: seq<Kept>, topic: Text)
    ensures Lookup(d, topic) == None <==> forall i :: 0 <= i < |d| ==> d[i].topic != topic
    ensures Lookup(d, topic) != None ==> exists i :: 0 <= i < |d| && d[i] == Kept(topic, Lookup(d, topic).value)
  {
    if d != [] {
      LookupIn(d[1..], topic);
      assert d[0].topic != topic && Lookup(d[1..], topic) != None ==> Lookup(d, topic) != None;
      if d[0].topic != topic && Lookup(d[1..], topic) != None {
        var i :| 0 <= i < |d[1..]| && d[1..][i] == Kept(topic, Lookup(d[1..], topic).value);
        assert d[i + 1] == d[1..][i];
      } else if d[0].topic != topic {
        assert forall i :: 0 < i < |d| ==> d[i] == d[1..][i - 1];
      }
    }
  }

  lemma {:induction false} AssignEffect(d: seq<Kept>, topic: Text, payload: seq<byte>, other: Text)
    requires Distinct(d)
    ensures Distinct(Assign(d, topic, payload))
    ensures Lookup(Assign(d, topic, payload), other) == if other == topic then Some(payload) else Lookup(d, other)
  {
    if d != [] && d[0].topic != topic {
      AssignEffect(d[1..], topic, payload, other);
      AssignEffect(d[1..], topic, payload, d[0].topic);
      LookupIn(d[1..], d[0].topic);
      LookupIn(Assign(d[1..], topic, payload), d[0].topic);
    }
  }

  lemma {:induction false} RemoveEffect(d: seq<Kept>, topic: Text, other: Text)
    requires Distinct(d)
    ensures Distinct(Remove(d, topic))
    ensures Lookup(Remove(d, topic), other) == if other == topic then None else Lookup(d, other)
  {
    if d != [] {
      LookupIn(d[1..], d[0].topic);
      if d[0].topic != topic {
        RemoveEffect(d[1..], topic, other);
        RemoveEffect(d[1..], topic, d[0].topic);
        LookupIn(Remove(d[1..], topic), d[0].topic);
      }
    }
  }

  /** The store after a whole history of publishes. */
  function StoreAfter(history: seq<Publish>): seq<Kept> {
    if history == [] then []
    else Retained(StoreAfter(history[..|history| - 1]), history[|history| - 1])
  }

  /** The payload of the last retained publish on a topic, from what has been published alone. */
  function LastRetained(history: seq<Publish>, topic: Text): Option<seq<byte>> {
    if history == [] then None
    else
      var p := history[|history| - 1];
      if p.topic == topic && p.retain && p.qos <= 1 then (if p.payload == [] then None else Some(p.payload))
      else LastRetained(history[..|history| - 1], topic)
  }

  lemma {:induction false} StoreIsLastRetained(history: seq<Publish>, topic: Text)
    ensures Distinct(StoreAfter(history))
    ensures Lookup(StoreAfter(history), topic) == LastRetained(history, topic)
  {
    if history != [] {
      var p := history[|history| - 1];
      StoreIsLastRetained(history[..|history| - 1], topic);
      var d := StoreAfter(history[..|history| - 1]);
      AssignEffect(d, p.topic, p.payload, topic);
      RemoveEffect(d, p.topic, topic);
    }
  }

  // --- who is sent what ---

  predicate AnyMatches(filters: seq<Text>, topic: Text) {
    exists i :: 0 <= i < |filters| && Matches(filters[i], topic)
  }

  method MatchesAny(filters: seq<Text>, topic: Text) returns (r: bool)
    ensures r == AnyMatches(filters, topic)
  {
    for i := 0 to |filters|
      invariant forall j :: 0 <= j < i ==> !Matches(filters[j], topic)
    {
      var m := TopicMatches(filters[i], topic);
      if m {
        return true;
      }
    }
    r := false;
  }

  /** The packets a new subscription brings from the store, in the store's order. */
  function Deliveries(d: seq<Kept>, filters: seq<Text>): seq<Packet>
    requires Sendable(d)
  {
    if d == [] then []
    else (if AnyMatches(filters, d[0].topic) then [Delivery(d[0])] else []) + Deliveries(d[1..], filters)
  }

  function Delivery(k: Kept): Packet
    requires |k.topic| <= 65535
  {
    Packet(PUBLISH_FLAGS, PublishBody(k.topic, k.payload).value)
  }

  predicate Sendable(d: seq<Kept>) {
    forall i :: 0 <= i < |d| ==> |d[i].topic| <= 65535 && Utf8(d[i].topic)
  }

  /** A delivered packet, read under its own flags, is the store's entry at QoS 0 with a clear RETAIN flag. */
  lemma DeliveryReads(k: Kept)
    requires |k.topic| <= 65535 && Utf8(k.topic)
    ensures Delivery(k).typeFlags / 16 == 3
    ensures ParsePublish(Delivery(k).typeFlags % 16, Delivery(k).body)
            == Some(Publish(k.topic, k.payload, 0, false, []))
  {
    PublishRoundTrip(k.topic, [], k.payload, false);
    assert [] + k.payload == k.payload;
  }

  /** The deliveries on one topic, in order. */
  function PayloadsOn(ps: seq<Packet>, topic: Text): seq<seq<byte>> {
    if ps == [] then []
    else
      var later := PayloadsOn(ps[1..], topic);
      match ParsePublish(ps[0].typeFlags % 16, ps[0].body)
      case Some(p) => if p.topic == topic then [p.payload] + later else later
      case None => later
  }

  lemma PayloadsStep(k: Kept, later: seq<Packet>, topic: Text)
    requires |k.topic| <= 65535 && Utf8(k.topic)
    ensures PayloadsOn([Delivery(k)] + later, topic)
            == (if k.topic == topic then [k.payload] else []) + PayloadsOn(later, topic)
  {
    DeliveryReads(k);
    assert ([Delivery(k)] + later)[1..] == later;
  }

  /** Every matching retained topic is delivered exactly once with its payload, and no other. */
  lemma {:induction false} EachOnce(d: seq<Kept>, filters: seq<Text>, topic: Text)
    requires Sendable(d) && Distinct(d)
    ensures PayloadsOn(Deliveries(d, filters), topic)
            == if AnyMatches(filters, topic) && Lookup(d, topic) != None then [Lookup(d, topic).value] else []
  {
    if d != [] {
      EachOnce(d[1..], filters, topic);
      LookupIn(d[1..], d[0].topic);
      var later := Deliveries(d[1..], filters);
      if AnyMatches(filters, d[0].topic) {
        PayloadsStep(d[0], later, topic);
      } else {
        assert [] + later == later;
      }
    }
  }

  /** Everything a new subscription brings from the store reads as an ordinary publish: its RETAIN flag is clear. */
  lemma {:induction false} DeliveredUnretained(d: seq<Kept>, filters: seq<Text>, p: Packet)
    requires Sendable(d) && p in Deliveries(d, filters)
    ensures var m := ParsePublish(p.typeFlags % 16, p.body);
            m.Some? && !m.value.retain && Lookup(d, m.value.topic) != None
  {
    DeliveryReads(d[0]);
    if p != Delivery(d[0]) || !AnyMatches(filters, d[0].topic) {
      DeliveredUnretained(d[1..], filters, p);
    }
  }

  lemma {:induction false} RetainedSendable(d: seq<Kept>, p: Publish)
    requires Sendable(d) && |p.topic| <= 65535 && Utf8(p.topic)
    ensures Sendable(Retained(d, p))
  {
    if d != [] {
      RetainedSendable(d[1..], p);
      if p.qos <= 1 && p.retain {
        var r := Retained(d[1..], p);
        assert Retained(d, p) == d[1..] || Retained(d, p) == [d[0]] + r
               || Retained(d, p) == [Kept(p.topic, p.payload)] + d[1..];
      }
    }
  }

  class Client {
    var subscriptions: seq<Text>
    var sent: seq<Packet>

    constructor ()
      ensures subscriptions == [] && sent == []
    {
      subscriptions, sent := [], [];
    }
  }

  class Broker {
    var retained: seq<Kept>
    var clients: seq<Client>

    constructor ()
      ensures retained == [] && clients == [] && Valid()
    {
      retained, clients := [], [];
    }

    predicate Valid()
      reads this
    {
      Sendable(retained) && Distinct(retained) && forall i, j :: 0 <= i < j < |clients| ==> clients[i] != clients[j]
    }

    /** A publish reaches every other client that subscribed to its topic, once, whatever it did to the store. */
    method Broadcast(topic: Text, payload: seq<byte>, exclude: Client)
      requires Valid() && |topic| <= 65535
      modifies clients
      ensures forall c <- clients :: c.subscriptions == old(c.subscriptions)
      ensures forall c <- clients ::
                c.sent == old(c.sent) + Broadcasted(topic, payload, c == exclude, old(c.subscriptions))
    {
      var n := 0;
      while n < |clients|
        invariant n <= |clients|
        invariant forall c <- clients :: c.subscriptions == old(c.subscriptions)
        invariant forall i :: n <= i < |clients| ==> clients[i].sent == old(clients[i].sent)
        invariant forall i :: 0 <= i < n ==>
          clients[i].sent == old(clients[i].sent)
            + Broadcasted(topic, payload, clients[i] == exclude, old(clients[i].subscriptions))
      {
        var client := clients[n];
        if client != exclude {
          var wanted := MatchesAny(client.subscriptions, topic);
          if wanted {
            client.sent := client.sent + [Packet(PUBLISH_FLAGS, PublishBody(topic, payload).value)];
          }
        }
        n := n + 1;
      }
    }

    method KeepRetained(p: Publish)
      requires Valid() && p.qos <= 1 && |p.topic| <= 65535 && Utf8(p.topic)
      modifies this`retained
      ensures Valid() && retained == Retained(old(retained), p)
    {
      RetainedSendable(retained, p);
      StoreStaysDistinct(retained, p);
      if p.retain {
        retained := if p.payload != [] then Assign(retained, p.topic, p.payload) else Remove(retained, p.topic);
      }
    }

    /** False where the source raises, which ends the connection; nothing has changed then. */
    method HandlePublish(client: Client, flags: byte, body: seq<byte>) returns (ok: bool)
      requires Valid() && client in clients
      modifies this`retained, clients
      ensures Valid() && clients == old(clients)
      ensures ok <==> ParsePublish(flags, body).Some?
      ensures forall c <- clients :: c.subscriptions == old(c.subscriptions)
      ensures !ok ==> retained == old(retained) && forall c <- clients :: c.sent == old(c.sent)
      ensures ok ==> retained == Retained(old(retained), ParsePublish(flags, body).value)
      ensures ok ==> forall c <- clients :: c.sent == old(c.sent)
                       + SentFor(ParsePublish(flags, body).value, c == client, old(c.subscriptions))
    {
      var parsed := ParsePublish(flags, body);
      if parsed.None? {
        return false;
      }
      ok := true;
      var p := parsed.value;
      if p.qos == 1 {
        client.sent := client.sent + [Packet(PUBACK_FLAGS, p.packetId)];
      } else if p.qos != 0 {
        return;
      }
      KeepRetained(p);
      Broadcast(p.topic, p.payload, client);
    }

    /** False where the source raises: then not even the subscriptions have changed. */
    method HandleSubscribe(client: Client, body: seq<byte>) returns (ok: bool)
      requires Valid()
      modifies client
      ensures ok <==> Filters(Beyond(body, 2)).Some?
      ensures !ok ==> client.subscriptions == old(client.subscriptions) && client.sent == old(client.sent)
      ensures ok ==> var filters := Filters(Beyond(body, 2)).value;
                client.subscriptions == old(client.subscriptions) + filters
                && client.sent == old(client.sent)
                   + [Packet(SUBACK_FLAGS, Head(body, 2) + seq(|filters|, _ => 0))] + Deliveries(retained, filters)
    {
      var parsed := ParseFilters(body);
      if parsed.None? {
        return false;
      }
      var filters := parsed.value;
      client.subscriptions := client.subscriptions + filters;
      client.sent := client.sent + [Packet(SUBACK_FLAGS, Head(body, 2) + seq(|filters|, _ => 0))];
      SendRetained(client, filters);
      ok := true;
    }

    method SendRetained(client: Client, filters: seq<Text>)
      requires Valid()
      modifies client`sent
      ensures client.sent == old(client.sent) + Deliveries(retained, filters)
    {
      var i := 0;
      assert client.sent + Deliveries(retained[i..], filters) == client.sent + Deliveries(retained, filters);
      while i < |retained|
        invariant i <= |retained|
        invariant client.sent + Deliveries(retained[i..], filters) == old(client.sent) + Deliveries(retained, filters)
      {
        var k := retained[i];
        assert retained[i..][1..] == retained[i + 1..];
        var wanted := MatchesAny(filters, k.topic);
        if wanted {
          assert client.sent + ([Delivery(k)] + Deliveries(retained[i + 1..], filters))
              == client.sent + [Delivery(k)] + Deliveries(retained[i + 1..], filters);
          client.sent := client.sent + [Packet(PUBLISH_FLAGS, PublishBody(k.topic, k.payload).value)];
        }
        i := i + 1;
      }
    }
  }

  /** Everything one publish sends to one client. */
  function SentFor(p: Publish, own: bool, subscriptions: seq<Text>): seq<Packet>
    requires |p.topic| <= 65535
  {
    if p.qos > 1 then []
    else (if own && p.qos == 1 then [Packet(PUBACK_FLAGS, p.packetId)] else [])
         + Broadcasted(p.topic, p.payload, own, subscriptions)
  }

  function Broadcasted(topic: Text, payload: seq<byte>, own: bool, subscriptions: seq<Text>): seq<Packet>
    requires |topic| <= 65535
  {
    if !own && AnyMatches(subscriptions, topic) then [Delivery(Kept(topic, payload))] else []
  }

  /** On the wire: a publisher at QoS 1 is sent a PUBACK with its packet identifier and never its own message; every
      other client gets a PUBLISH at QoS 0 with topic and payload, exactly if one of its filters matches; a publish at
      QoS 2 sends nothing. */
  lemma SentTells(p: Publish, own: bool, subscriptions: seq<Text>)
    requires |p.topic| <= 65535
    ensures own ==> SentFor(p, own, subscriptions) == if p.qos == 1 then [Packet(0x40, p.packetId)] else []
    ensures !own ==> SentFor(p, own, subscriptions)
                     == if p.qos <= 1 && AnyMatches(subscriptions, p.topic)
                        then [Packet(0x30, [|p.topic| / 256, |p.topic| % 256] + p.topic + p.payload)] else []
    ensures SUBACK_FLAGS == 0x90
  {
  }

  /** The low bits of a PUBLISH type byte: RETAIN, two bits of QoS (section 3.3.1), and DUP, which nobody reads. */
  lemma FlagBits(flags: byte, topic: Text, rest: seq<byte>)
    ensures var p := ReadUnder(flags, topic, rest);
            p.topic == topic && (p.retain <==> flags % 2 == 1) && p.qos == flags % 8 / 2
            && (if p.qos == 1 then p.packetId + p.payload == rest && |p.packetId| == (if |rest| < 2 then |rest| else 2)
                else p.packetId == [] && p.payload == rest)
  {
  }

  lemma StoreStaysDistinct(d: seq<Kept>, p: Publish)
    requires Distinct(d)
    ensures Distinct(Retained(d, p))
  {
    AssignEffect(d, p.topic, p.payload, p.topic);
    RemoveEffect(d, p.topic, p.topic);
  }

  /** From one device to another: what a publisher encodes is served by the broker as that message, and what the broker
      sends a matching subscriber is one packet from which the subscriber's reader recovers topic and payload. */
  lemma PublishReachesSubscriber(topic: Text, payload: seq<byte>, subscriptions: seq<Text>, rest: seq<byte>)
    requires Utf8(topic) && |topic| <= 65535 && 2 + |topic| + |payload| <= MAX_REMAINING
    requires AnyMatches(subscriptions, topic)
    ensures var sent := Packet(PUBLISH_FLAGS, PublishBody(topic, payload).value);
            var message := Publish(topic, payload, 0, false, []);
            Take(Encode(sent) + rest, 4) == Taken(sent, rest)
            && ParsePublish(PUBLISH_FLAGS % 16, sent.body) == Some(message)
            && SentFor(message, false, subscriptions) == [sent]
            && Take(Encode(sent) + rest, |Encode(sent) + rest|) == Taken(sent, rest)
  {
    var sent := Packet(PUBLISH_FLAGS, PublishBody(topic, payload).value);
    FitsFourGroups(|sent.body|);
    TakeEncoded(sent, rest, 4);
    TakeEncoded(sent, rest, |Encode(sent) + rest|);
    DeliveryReads(Kept(topic, payload));
  }
}
