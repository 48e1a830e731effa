/** Publishing and subscribing in different client threads. The broker's lock covers only the store and the client
    list; sends and subscription lists are outside it. The order of the two halves of each handler (store before
    broadcast, subscribe before snapshot) is what keeps a retained message from falling between them. */
module RetainedRace {
  import opened Sequences
  import opened Topics
  import opened MqttBroker

  type ClientId = nat

  datatype PubPhase = Waiting | Ignored | Stored(at: nat) | Sending(at: nat, left: set<ClientId>)
  datatype PubOp = PubOp(from: ClientId, message: Publish, phase: PubPhase)

  datatype SubPhase = Idle | Extended | Snapped(upTo: nat)
  datatype SubOp = SubOp(client: ClientId, filters: seq<Text>, phase: SubPhase)

  /** `history` is every publish below QoS 2 in the order its store step ran; `live` says which publish was broadcast to
      whom. A QoS 2 publish ends where it begins. */
  datatype State = State(
    history: seq<Publish>, connected: set<ClientId>, gone: set<ClientId>, subscribed: set<(ClientId, Text)>,
    live: set<(nat, ClientId)>, pubs: seq<PubOp>, subs: seq<SubOp>)

  datatype Move =
    | Connect(c: ClientId)
    | Leave(c: ClientId)
    | Store(p: nat)
    | PickTargets(p: nat)
    | SendTo(p: nat, c: ClientId)
    | Extend(s: nat)
    | Snapshot(s: nat)

  predicate Wanted(subscribed: set<(ClientId, Text)>, c: ClientId, topic: Text) {
    exists e <- subscribed :: e.0 == c && Matches(e.1, topic)
  }

  predicate Enabled(s: State, m: Move) {
    match m
    case Connect(c) => c !in s.connected && c !in s.gone
    case Leave(c) => c in s.connected
    case Store(p) => p < |s.pubs| && s.pubs[p].phase.Waiting?
    case PickTargets(p) => p < |s.pubs| && s.pubs[p].phase.Stored?
    case SendTo(p, c) => p < |s.pubs| && s.pubs[p].phase.Sending? && c in s.pubs[p].phase.left
    case Extend(k) => k < |s.subs| && s.subs[k].phase.Idle? && s.subs[k].client in s.connected
    case Snapshot(k) => k < |s.subs| && s.subs[k].phase.Extended?
  }

  function Step(s: State, m: Move): State
    requires Enabled(s, m)
  {
    match m
    case Connect(c) => s.(connected := s.connected + {c})
    case Leave(c) => s.(connected := s.connected - {c}, gone := s.gone + {c})
    case Store(p) =>
      if s.pubs[p].message.qos > 1 then s.(pubs := s.pubs[p := s.pubs[p].(phase := Ignored)])
      else s.(history := s.history + [s.pubs[p].message], pubs := s.pubs[p := s.pubs[p].(phase := Stored(|s.history|))])
    case PickTargets(p) =>
      s.(pubs := s.pubs[p := s.pubs[p].(phase := Sending(s.pubs[p].phase.at, s.connected - {s.pubs[p].from}))])
    case SendTo(p, c) =>
      s.(live := if Wanted(s.subscribed, c, s.pubs[p].message.topic) then s.live + {(p, c)} else s.live,
         pubs := s.pubs[p := s.pubs[p].(phase := Sending(s.pubs[p].phase.at, s.pubs[p].phase.left - {c}))])
    case Extend(k) =>
      s.(subscribed := s.subscribed + (set f <- s.subs[k].filters :: (s.subs[k].client, f)),
         subs := s.subs[k := s.subs[k].(phase := Extended)])
    case Snapshot(k) => s.(subs := s.subs[k := s.subs[k].(phase := Snapped(|s.history|))])
  }

  predicate Initial(s: State) {
    s.history == [] && s.connected == {} && s.gone == {} && s.subscribed == {} && s.live == {}
    && (forall i :: 0 <= i < |s.pubs| ==> s.pubs[i].phase.Waiting?)
    && (forall k :: 0 <= k < |s.subs| ==> s.subs[k].phase.Idle?)
  }

  predicate CanRun(s: State, moves: seq<Move>)
    decreases |moves|, 0
  {
    moves == [] || (CanRun(s, moves[..|moves| - 1])
                    && Enabled(Run(s, moves[..|moves| - 1]), moves[|moves| - 1]))
  }

  function Run(s: State, moves: seq<Move>): State
    requires CanRun(s, moves)
    decreases |moves|, 1
  {
    if moves == [] then s else Step(Run(s, moves[..|moves| - 1]), moves[|moves| - 1])
  }

  // --- the invariant ---

  predicate Kept(phase: PubPhase) {
    phase.Stored? || phase.Sending?
  }

  predicate StoredInHistory(s: State) {
    forall p :: 0 <= p < |s.pubs| && Kept(s.pubs[p].phase) ==>
      s.pubs[p].message.qos <= 1 && s.pubs[p].phase.at < |s.history|
      && s.history[s.pubs[p].phase.at] == s.pubs[p].message
  }

  predicate ListedSince(s: State) {
    forall k :: 0 <= k < |s.subs| && !s.subs[k].phase.Idle? ==>
      (s.subs[k].client in s.connected || s.subs[k].client in s.gone)
      && (forall f <- s.subs[k].filters :: (s.subs[k].client, f) in s.subscribed)
      && (s.subs[k].phase.Snapped? ==> s.subs[k].phase.upTo <= |s.history|)
  }

  /** Publish `p` is past client `c` of subscription `k` and has not sent to it. */
  predicate PassedOver(s: State, p: nat, k: nat)
    requires p < |s.pubs| && k < |s.subs|
  {
    var op, c := s.pubs[p], s.subs[k].client;
    op.phase.Sending? && c !in op.phase.left && c != op.from && c in s.connected && (p, c) !in s.live
    && AnyMatches(s.subs[k].filters, op.message.topic)
  }

  predicate CaughtBySnapshot(s: State) {
    forall p, k :: 0 <= p < |s.pubs| && 0 <= k < |s.subs| && PassedOver(s, p, k) && s.subs[k].phase.Snapped? ==>
      s.pubs[p].phase.at < s.subs[k].phase.upTo
  }

  predicate Inv(s: State) {
    StoredInHistory(s) && ListedSince(s) && CaughtBySnapshot(s)
  }

  lemma StepInv(s: State, m: Move)
    requires Inv(s) && Enabled(s, m)
    ensures Inv(Step(s, m))
  {
    var t := Step(s, m);
    assert StoredInHistory(t);
    assert ListedSince(t);
    forall p, k | 0 <= p < |t.pubs| && 0 <= k < |t.subs| && PassedOver(t, p, k) && t.subs[k].phase.Snapped?
      ensures t.pubs[p].phase.at < t.subs[k].phase.upTo
    {
      StepCaught(s, m, p, k);
    }
  }

  lemma ListedIsWanted(s: State, k: nat, topic: Text)
    requires ListedSince(s) && k < |s.subs| && AnyMatches(s.subs[k].filters, topic)
    ensures !s.subs[k].phase.Idle? ==> Wanted(s.subscribed, s.subs[k].client, topic)
  {
    var i :| 0 <= i < |s.subs[k].filters| && Matches(s.subs[k].filters[i], topic);
    if !s.subs[k].phase.Idle? {
      assert (s.subs[k].client, s.subs[k].filters[i]) in s.subscribed;
    }
  }

  lemma StepCaught(s: State, m: Move, p: nat, k: nat)
    requires Inv(s) && Enabled(s, m)
    requires p < |s.pubs| && k < |s.subs| && PassedOver(Step(s, m), p, k) && Step(s, m).subs[k].phase.Snapped?
    ensures Step(s, m).pubs[p].phase.at < Step(s, m).subs[k].phase.upTo
  {
    if m.SendTo? && m.p == p && m.c == s.subs[k].client {
      ListedIsWanted(s, k, s.pubs[p].message.topic);
    } else if m == Snapshot(k) {
      assert s.pubs[p].phase.at < |s.history|;
    } else if !m.PickTargets? && !m.Connect? {
      assert PassedOver(s, p, k);
    }
  }

  lemma {:induction false} RunInv(s: State, moves: seq<Move>)
    requires Inv(s) && CanRun(s, moves)
    ensures Inv(Run(s, moves))
    decreases |moves|
  {
    if moves != [] {
      var less := moves[..|moves| - 1];
      RunInv(s, less);
      StepInv(Run(s, less), moves[|moves| - 1]);
    }
  }

  /** A publish that has been sent to all its targets, and a subscription of another client that has its snapshot. */
  predicate BothDone(s: State, p: nat, k: nat) {
    p < |s.pubs| && k < |s.subs| && s.pubs[p].phase.Sending? && s.pubs[p].phase.left == {}
    && s.subs[k].phase.Snapped? && s.subs[k].client in s.connected && s.subs[k].client != s.pubs[p].from
    && AnyMatches(s.subs[k].filters, s.pubs[p].message.topic)
  }

  /** In every run: a client that is still there, whose finished subscription matches the topic of a finished publish
      by someone else, either was sent that publish or took its snapshot after the store had it. */
  lemma NothingFallsBetween(s: State, moves: seq<Move>, p: nat, k: nat)
    requires Initial(s) && CanRun(s, moves) && BothDone(Run(s, moves), p, k)
    ensures var e := Run(s, moves);
            e.pubs[p].message.qos <= 1
            && ((p, e.subs[k].client) in e.live
                || (e.pubs[p].phase.at < e.subs[k].phase.upTo <= |e.history|
                    && e.history[e.pubs[p].phase.at] == e.pubs[p].message))
  {
    RunInv(s, moves);
    var e := Run(s, moves);
    if (p, e.subs[k].client) !in e.live {
      assert PassedOver(e, p, k);
    }
  }

  /** What such a snapshot holds for the topic: the payload of that publish or of one stored after it. */
  lemma {:induction false} SnapshotIsNotOlder(history: seq<Publish>, at: nat) returns (j: nat)
    requires at < |history| && history[at].retain && history[at].qos <= 1
    ensures at <= j < |history| && history[j].topic == history[at].topic && history[j].retain && history[j].qos <= 1
    ensures Lookup(StoreAfter(history), history[at].topic)
            == if history[j].payload == [] then None else Some(history[j].payload)
  {
    var topic, n := history[at].topic, |history| - 1;
    StoreIsLastRetained(history, topic);
    if history[n].topic == topic && history[n].retain && history[n].qos <= 1 {
      return n;
    }
    j := SnapshotIsNotOlder(history[..n], at);
    StoreIsLastRetained(history[..n], topic);
  }

  /** What the snapshot of a finished subscription held for a topic. */
  function InSnapshot(s: State, k: nat, topic: Text): Option<seq<byte>>
    requires k < |s.subs| && s.subs[k].phase.Snapped? && s.subs[k].phase.upTo <= |s.history|
  {
    Lookup(StoreAfter(s.history[..s.subs[k].phase.upTo]), topic)
  }

  /** Both together, for a retained publish: it is sent live, or the snapshot holds its payload, or that of a retained
      publish on the topic stored after it. */
  lemma RetainedIsNotMissed(s: State, moves: seq<Move>, p: nat, k: nat) returns (j: nat)
    requires Initial(s) && CanRun(s, moves) && BothDone(Run(s, moves), p, k) && Run(s, moves).pubs[p].message.retain
    ensures var e := Run(s, moves);
            (p, e.subs[k].client) in e.live
            || (e.pubs[p].phase.at <= j < e.subs[k].phase.upTo <= |e.history|
                && e.history[j].topic == e.pubs[p].message.topic && e.history[j].retain
                && InSnapshot(e, k, e.pubs[p].message.topic)
                   == if e.history[j].payload == [] then None else Some(e.history[j].payload))
  {
    RunInv(s, moves);
    NothingFallsBetween(s, moves, p, k);
    var e := Run(s, moves);
    j := 0;
    if (p, e.subs[k].client) !in e.live {
      j := SnapshotIsNotOlder(e.history[..e.subs[k].phase.upTo], e.pubs[p].phase.at);
    }
  }

  // --- when it arrives twice ---

  predicate Precedes(moves: seq<Move>, a: Move, b: Move) {
    exists i, j :: 0 <= i < j < |moves| && moves[i] == a && moves[j] == b
  }

  lemma PrecedesSnoc(moves: seq<Move>, m: Move, a: Move, b: Move)
    ensures Precedes(moves + [m], a, b) <==> Precedes(moves, a, b) || (a in moves && m == b)
  {
    var n := |moves|;
    if Precedes(moves + [m], a, b) {
      var i, j :| 0 <= i < j < n + 1 && (moves + [m])[i] == a && (moves + [m])[j] == b;
      assert moves[i] == a && (j < n ==> moves[j] == b);
    }
    if Precedes(moves, a, b) {
      var i, j :| 0 <= i < j < n && moves[i] == a && moves[j] == b;
      assert (moves + [m])[i] == a && (moves + [m])[j] == b;
    }
    if a in moves && m == b {
      var i :| 0 <= i < n && moves[i] == a;
      assert (moves + [m])[i] == a && (moves + [m])[n] == b;
    }
  }

  lemma PrecedesBoth(moves: seq<Move>, a: Move, b: Move)
    ensures Precedes(moves, a, b) ==> a in moves && b in moves
  {
  }

  /** The operations keep their texts, clients and number. */
  predicate SameOps(s: State, t: State) {
    |s.pubs| == |t.pubs| && |s.subs| == |t.subs|
    && (forall p :: 0 <= p < |s.pubs| ==> s.pubs[p].message == t.pubs[p].message && s.pubs[p].from == t.pubs[p].from)
    && (forall k :: 0 <= k < |s.subs| ==>
          s.subs[k].client == t.subs[k].client && s.subs[k].filters == t.subs[k].filters)
  }

  lemma {:induction false} RunSameOps(s: State, moves: seq<Move>)
    requires CanRun(s, moves)
    ensures SameOps(s, Run(s, moves))
    decreases |moves|
  {
    if moves != [] {
      RunSameOps(s, moves[..|moves| - 1]);
    }
  }

  /** The phases tell which moves have been made. */
  predicate Tells(e: State, moves: seq<Move>, p: nat, k: nat) {
    p < |e.pubs| && k < |e.subs| && (e.pubs[p].phase.Waiting? <==> Store(p) !in moves)
    && (e.subs[k].phase.Idle? <==> Extend(k) !in moves) && (e.subs[k].phase.Snapped? <==> Snapshot(k) in moves)
  }

  lemma TellsStep(e: State, less: seq<Move>, m: Move, p: nat, k: nat)
    requires Enabled(e, m) && Tells(e, less, p, k)
    ensures Tells(Step(e, m), less + [m], p, k)
  {
  }

  lemma {:induction false} PhasesTell(s: State, moves: seq<Move>, p: nat, k: nat)
    requires Initial(s) && CanRun(s, moves) && p < |s.pubs| && k < |s.subs|
    ensures Tells(Run(s, moves), moves, p, k)
    decreases |moves|
  {
    if moves != [] {
      var less, m := moves[..|moves| - 1], moves[|moves| - 1];
      PhasesTell(s, less, p, k);
      TellsStep(Run(s, less), less, m, p, k);
      assert moves == less + [m];
    }
  }

  predicate Reflects(e: State, moves: seq<Move>, p: nat, k: nat)
    requires p < |e.pubs| && k < |e.subs|
  {
    Kept(e.pubs[p].phase) && e.subs[k].phase.Snapped? ==>
      (e.pubs[p].phase.at < e.subs[k].phase.upTo <==> Precedes(moves, Store(p), Snapshot(k)))
  }

  lemma ReflectsStep(e: State, less: seq<Move>, m: Move, p: nat, k: nat)
    requires Inv(e) && Enabled(e, m) && p < |e.pubs| && k < |e.subs| && Reflects(e, less, p, k)
    requires (e.pubs[p].phase.Waiting? <==> Store(p) !in less) && (e.subs[k].phase.Snapped? <==> Snapshot(k) in less)
    ensures Reflects(Step(e, m), less + [m], p, k)
  {
    PrecedesSnoc(less, m, Store(p), Snapshot(k));
    PrecedesBoth(less, Store(p), Snapshot(k));
  }

  /** A snapshot has a publish in its history exactly if the store step came first. */
  lemma {:induction false} SnapshotHasIt(s: State, moves: seq<Move>, p: nat, k: nat)
    requires Initial(s) && CanRun(s, moves) && p < |s.pubs| && k < |s.subs|
    ensures var e := Run(s, moves); |e.pubs| == |s.pubs| && |e.subs| == |s.subs| && Reflects(e, moves, p, k)
    decreases |moves|
  {
    if moves != [] {
      var less, m := moves[..|moves| - 1], moves[|moves| - 1];
      SnapshotHasIt(s, less, p, k);
      PhasesTell(s, less, p, k);
      RunInv(s, less);
      ReflectsStep(Run(s, less), less, m, p, k);
      assert moves == less + [m];
    }
  }

  /** Some matching subscription of the client was extended before the publish was sent to it. */
  predicate SubscribedBefore(s: State, moves: seq<Move>, p: nat, c: ClientId)
    requires p < |s.pubs|
  {
    exists k :: 0 <= k < |s.subs| && s.subs[k].client == c && AnyMatches(s.subs[k].filters, s.pubs[p].message.topic)
                && Precedes(moves, Extend(k), SendTo(p, c))
  }

  /** A client's subscription list is exactly what its extended subscriptions brought. */
  lemma {:induction false} ListTells(s: State, moves: seq<Move>, c: ClientId, f: Text)
    requires Initial(s) && CanRun(s, moves)
    ensures (c, f) in Run(s, moves).subscribed <==>
              exists k :: 0 <= k < |s.subs| && s.subs[k].client == c && f in s.subs[k].filters && Extend(k) in moves
    decreases |moves|
  {
    if moves != [] {
      var less, m := moves[..|moves| - 1], moves[|moves| - 1];
      ListTells(s, less, c, f);
      RunSameOps(s, less);
      assert moves == less + [m];
      if m.Extend? {
        assert Extend(m.s) in moves;
      }
    }
  }

  /** Some matching subscription of the client has been extended. */
  predicate AlreadyListed(s: State, moves: seq<Move>, c: ClientId, topic: Text) {
    exists k :: 0 <= k < |s.subs| && s.subs[k].client == c && AnyMatches(s.subs[k].filters, topic) && Extend(k) in moves
  }

  lemma WantedTells(s: State, moves: seq<Move>, c: ClientId, topic: Text)
    requires Initial(s) && CanRun(s, moves)
    ensures Wanted(Run(s, moves).subscribed, c, topic) <==> AlreadyListed(s, moves, c, topic)
  {
    var subscribed := Run(s, moves).subscribed;
    if Wanted(subscribed, c, topic) {
      var e :| e in subscribed && e.0 == c && Matches(e.1, topic);
      ListTells(s, moves, c, e.1);
      var k :| 0 <= k < |s.subs| && s.subs[k].client == c && e.1 in s.subs[k].filters && Extend(k) in moves;
      assert AnyMatches(s.subs[k].filters, topic);
    }
    if k :| 0 <= k < |s.subs| && s.subs[k].client == c && AnyMatches(s.subs[k].filters, topic) && Extend(k) in moves {
      var i :| 0 <= i < |s.subs[k].filters| && Matches(s.subs[k].filters[i], topic);
      ListTells(s, moves, c, s.subs[k].filters[i]);
      assert (c, s.subs[k].filters[i]) in subscribed;
    }
  }

  lemma SubscribedStep(s: State, less: seq<Move>, m: Move, p: nat, c: ClientId)
    requires p < |s.pubs|
    ensures SubscribedBefore(s, less + [m], p, c) <==>
              SubscribedBefore(s, less, p, c)
              || (m == SendTo(p, c) && AlreadyListed(s, less, c, s.pubs[p].message.topic))
  {
    forall k | 0 <= k < |s.subs|
      ensures Precedes(less + [m], Extend(k), SendTo(p, c))
              <==> Precedes(less, Extend(k), SendTo(p, c)) || (Extend(k) in less && m == SendTo(p, c)) {
      PrecedesSnoc(less, m, Extend(k), SendTo(p, c));
    }
  }

  lemma LiveStep(e: State, m: Move, p: nat, c: ClientId)
    requires Enabled(e, m) && p < |e.pubs|
    ensures (p, c) in Step(e, m).live <==>
              (p, c) in e.live || (m == SendTo(p, c) && Wanted(e.subscribed, c, e.pubs[p].message.topic))
  {
  }

  /** A publish is sent live exactly to the clients that had subscribed when their turn came. */
  lemma {:induction false} LiveTells(s: State, moves: seq<Move>, p: nat, c: ClientId)
    requires Initial(s) && CanRun(s, moves) && p < |s.pubs|
    ensures (p, c) in Run(s, moves).live <==> SubscribedBefore(s, moves, p, c)
    decreases |moves|
  {
    if moves != [] {
      var less, m := moves[..|moves| - 1], moves[|moves| - 1];
      LiveTells(s, less, p, c);
      RunSameOps(s, less);
      WantedTells(s, less, c, s.pubs[p].message.topic);
      SubscribedStep(s, less, m, p, c);
      LiveStep(Run(s, less), m, p, c);
      assert moves == less + [m];
    }
  }

  /** Who is there: whoever has connected and not left. */
  lemma {:induction false} ConnectedTells(s: State, moves: seq<Move>, c: ClientId)
    requires Initial(s) && CanRun(s, moves)
    ensures c in Run(s, moves).connected <==> Connect(c) in moves && Leave(c) !in moves
    ensures c in Run(s, moves).gone <==> Leave(c) in moves
    decreases |moves|
  {
    if moves != [] {
      var less := moves[..|moves| - 1];
      ConnectedTells(s, less, c);
      assert moves == less + [moves[|moves| - 1]];
    }
  }

  /** There when the targets of publish `p` were picked, and not its publisher. */
  predicate Targeted(s: State, moves: seq<Move>, p: nat, c: ClientId)
    requires p < |s.pubs|
  {
    c != s.pubs[p].from && Precedes(moves, Connect(c), PickTargets(p)) && !Precedes(moves, Leave(c), PickTargets(p))
  }

  lemma TargetedStep(s: State, less: seq<Move>, m: Move, p: nat, c: ClientId)
    requires p < |s.pubs| && (m == PickTargets(p) ==> PickTargets(p) !in less)
    ensures Targeted(s, less + [m], p, c)
            <==> if m == PickTargets(p) then c != s.pubs[p].from && Connect(c) in less && Leave(c) !in less
                 else Targeted(s, less, p, c)
  {
    PrecedesSnoc(less, m, Connect(c), PickTargets(p));
    PrecedesSnoc(less, m, Leave(c), PickTargets(p));
    PrecedesBoth(less, Connect(c), PickTargets(p));
    PrecedesBoth(less, Leave(c), PickTargets(p));
  }

  /** A broadcast goes exactly to the other clients that were there when it picked its targets: each of them has been
      sent to or is still to come. */
  lemma {:induction false} TargetsTell(s: State, moves: seq<Move>, p: nat, c: ClientId)
    requires Initial(s) && CanRun(s, moves) && p < |s.pubs|
    ensures SameOps(s, Run(s, moves)) && (Run(s, moves).pubs[p].phase.Sending? <==> PickTargets(p) in moves)
    ensures SendTo(p, c) in moves || (PickTargets(p) in moves && c in Run(s, moves).pubs[p].phase.left)
            <==> Targeted(s, moves, p, c)
    decreases |moves|
  {
    RunSameOps(s, moves);
    if moves == [] {
      PrecedesBoth(moves, Connect(c), PickTargets(p));
    } else {
      var less, m := moves[..|moves| - 1], moves[|moves| - 1];
      assert moves == less + [m];
      TargetsTell(s, less, p, c);
      ConnectedTells(s, less, c);
      TargetedStep(s, less, m, p, c);
      PrecedesBoth(less, Connect(c), PickTargets(p));
      hide Precedes, Targeted;
    }
  }

  /** Nobody is sent their own message. */
  lemma NeverOwn(s: State, moves: seq<Move>, p: nat, c: ClientId)
    requires Initial(s) && CanRun(s, moves) && p < |s.pubs| && (p, c) in Run(s, moves).live
    ensures Targeted(s, moves, p, c) && c != s.pubs[p].from
  {
    LiveTells(s, moves, p, c);
    TargetsTell(s, moves, p, c);
    assert SendTo(p, c) in moves by {
      var k :| 0 <= k < |s.subs| && Precedes(moves, Extend(k), SendTo(p, c));
      PrecedesBoth(moves, Extend(k), SendTo(p, c));
    }
  }

  /** A message that the store keeps, or removes its topic for. */
  predicate Stores(m: Publish, topic: Text) {
    m.retain && m.qos <= 1 && m.topic == topic
  }

  /** Publish `p` is what the snapshot of subscription `k` holds for its topic, and what it sends for it. */
  predicate InSnapshotOf(e: State, p: nat, k: nat)
    requires p < |e.pubs| && k < |e.subs|
  {
    var op, sub := e.pubs[p], e.subs[k];
    Kept(op.phase) && sub.phase.Snapped? && op.phase.at < sub.phase.upTo <= |e.history|
    && op.message.retain && op.message.payload != [] && AnyMatches(sub.filters, op.message.topic)
    && forall j :: op.phase.at < j < sub.phase.upTo ==> !Stores(e.history[j], op.message.topic)
  }

  /** `p` can be kept, its store comes before the snapshot, and no other publish is kept for its topic in between. */
  predicate LastStored(s: State, moves: seq<Move>, p: nat, k: nat)
    requires p < |s.pubs| && k < |s.subs|
  {
    var m := s.pubs[p].message;
    m.retain && m.payload != [] && AnyMatches(s.subs[k].filters, m.topic) && Precedes(moves, Store(p), Snapshot(k))
    && forall q :: 0 <= q < |s.pubs| && q != p && Stores(s.pubs[q].message, m.topic) ==>
         !(Precedes(moves, Store(p), Store(q)) && Precedes(moves, Store(q), Snapshot(k)))
  }

  /** What has been stored, in the order of the store steps. */
  predicate OrderTells(e: State, moves: seq<Move>, p: nat, q: nat)
    requires p < |e.pubs| && q < |e.pubs|
  {
    Kept(e.pubs[p].phase) && Kept(e.pubs[q].phase) && p != q ==>
      (e.pubs[p].phase.at < e.pubs[q].phase.at <==> Precedes(moves, Store(p), Store(q)))
  }

  predicate Placed(e: State, j: nat) {
    exists q :: 0 <= q < |e.pubs| && Kept(e.pubs[q].phase) && e.pubs[q].phase.at == j
  }

  predicate AllPlaced(e: State) {
    forall j :: 0 <= j < |e.history| ==> Placed(e, j)
  }

  lemma PlacedStep(e: State, m: Move)
    requires AllPlaced(e) && Enabled(e, m)
    ensures AllPlaced(Step(e, m))
  {
    var t := Step(e, m);
    forall j | 0 <= j < |t.history| ensures Placed(t, j) {
      if j < |e.history| {
        assert Placed(e, j);
        var q :| 0 <= q < |e.pubs| && Kept(e.pubs[q].phase) && e.pubs[q].phase.at == j;
        assert Kept(t.pubs[q].phase) && t.pubs[q].phase.at == j;
      } else {
        assert Kept(t.pubs[m.p].phase) && t.pubs[m.p].phase.at == j;
      }
    }
  }

  lemma {:induction false} HistoryIsPlaced(s: State, moves: seq<Move>)
    requires Initial(s) && CanRun(s, moves)
    ensures AllPlaced(Run(s, moves))
    decreases |moves|
  {
    if moves != [] {
      HistoryIsPlaced(s, moves[..|moves| - 1]);
      PlacedStep(Run(s, moves[..|moves| - 1]), moves[|moves| - 1]);
    }
  }

  lemma OrderStep(e: State, less: seq<Move>, m: Move, p: nat, q: nat)
    requires Inv(e) && Enabled(e, m) && p < |e.pubs| && q < |e.pubs| && OrderTells(e, less, p, q)
    requires (e.pubs[p].phase.Waiting? <==> Store(p) !in less) && (e.pubs[q].phase.Waiting? <==> Store(q) !in less)
    ensures OrderTells(Step(e, m), less + [m], p, q)
  {
    PrecedesSnoc(less, m, Store(p), Store(q));
    PrecedesBoth(less, Store(p), Store(q));
  }

  lemma StoredTells(e: State, less: seq<Move>, m: Move, p: nat)
    requires Enabled(e, m) && p < |e.pubs| && (e.pubs[p].phase.Waiting? <==> Store(p) !in less)
    ensures Step(e, m).pubs[p].phase.Waiting? <==> Store(p) !in less + [m]
  {
  }

  lemma {:induction false} StoreOrder(s: State, moves: seq<Move>, p: nat, q: nat)
    requires Initial(s) && CanRun(s, moves) && p < |s.pubs| && q < |s.pubs|
    ensures var e := Run(s, moves);
            |e.pubs| == |s.pubs| && OrderTells(e, moves, p, q)
            && (e.pubs[p].phase.Waiting? <==> Store(p) !in moves) && (e.pubs[q].phase.Waiting? <==> Store(q) !in moves)
    decreases |moves|
  {
    if moves != [] {
      var less, m := moves[..|moves| - 1], moves[|moves| - 1];
      StoreOrder(s, less, p, q);
      RunInv(s, less);
      OrderStep(Run(s, less), less, m, p, q);
      StoredTells(Run(s, less), less, m, p);
      StoredTells(Run(s, less), less, m, q);
      assert moves == less + [m];
    }
  }

  /** A publish whose store step is done is kept, unless it is of QoS 2. */
  lemma {:induction false} KeptUnlessQos2(s: State, moves: seq<Move>, p: nat)
    requires Initial(s) && CanRun(s, moves) && p < |s.pubs|
    ensures var e := Run(s, moves);
            |e.pubs| == |s.pubs| && (e.pubs[p].phase.Ignored? ==> s.pubs[p].message.qos > 1)
    decreases |moves|
  {
    if moves != [] {
      KeptUnlessQos2(s, moves[..|moves| - 1], p);
      RunSameOps(s, moves[..|moves| - 1]);
    }
  }

  /** What a snapshot holds is told by the order of the steps alone. */
  lemma SnapshotTells(s: State, moves: seq<Move>, p: nat, k: nat)
    requires Initial(s) && CanRun(s, moves) && p < |s.pubs| && k < |s.subs|
    requires SameOps(s, Run(s, moves)) && Kept(Run(s, moves).pubs[p].phase)
    ensures InSnapshotOf(Run(s, moves), p, k) <==> LastStored(s, moves, p, k)
  {
    var e, topic := Run(s, moves), s.pubs[p].message.topic;
    RunInv(s, moves);
    RunSameOps(s, moves);
    SnapshotHasIt(s, moves, p, k);
    PhasesTell(s, moves, p, k);
    PrecedesBoth(moves, Store(p), Snapshot(k));
    if InSnapshotOf(e, p, k) {
      forall q | 0 <= q < |s.pubs| && q != p && Stores(s.pubs[q].message, topic)
        ensures !(Precedes(moves, Store(p), Store(q)) && Precedes(moves, Store(q), Snapshot(k))) {
        NotBetween(s, moves, p, q, k);
      }
    }
    if LastStored(s, moves, p, k) {
      forall j | e.pubs[p].phase.at < j < e.subs[k].phase.upTo ensures !Stores(e.history[j], topic) {
        NoneAt(s, moves, p, k, j);
      }
    }
  }

  lemma NotBetween(s: State, moves: seq<Move>, p: nat, q: nat, k: nat)
    requires Initial(s) && CanRun(s, moves) && p < |s.pubs| && q < |s.pubs| && k < |s.subs| && q != p
    requires SameOps(s, Run(s, moves)) && Kept(Run(s, moves).pubs[p].phase)
    requires InSnapshotOf(Run(s, moves), p, k) && Stores(s.pubs[q].message, s.pubs[p].message.topic)
    ensures !(Precedes(moves, Store(p), Store(q)) && Precedes(moves, Store(q), Snapshot(k)))
  {
    RunInv(s, moves);
    StoreOrder(s, moves, p, q);
    SnapshotHasIt(s, moves, q, k);
    KeptUnlessQos2(s, moves, q);
    PrecedesBoth(moves, Store(p), Store(q));
  }

  lemma NoneAt(s: State, moves: seq<Move>, p: nat, k: nat, j: nat)
    requires Initial(s) && CanRun(s, moves) && p < |s.pubs| && k < |s.subs|
    requires SameOps(s, Run(s, moves)) && LastStored(s, moves, p, k) && j < |Run(s, moves).history|
    requires var e := Run(s, moves);
             Kept(e.pubs[p].phase) && e.subs[k].phase.Snapped? && e.pubs[p].phase.at < j < e.subs[k].phase.upTo
    ensures !Stores(Run(s, moves).history[j], s.pubs[p].message.topic)
  {
    var e := Run(s, moves);
    RunInv(s, moves);
    HistoryIsPlaced(s, moves);
    assert Placed(e, j);
    var q :| 0 <= q < |e.pubs| && Kept(e.pubs[q].phase) && e.pubs[q].phase.at == j;
    StoreOrder(s, moves, p, q);
    SnapshotHasIt(s, moves, q, k);
  }

  /** Then the store the snapshot was taken from holds its payload. */
  lemma SnapshotHolds(e: State, p: nat, k: nat)
    requires Inv(e) && p < |e.pubs| && k < |e.subs| && InSnapshotOf(e, p, k)
    ensures InSnapshot(e, k, e.pubs[p].message.topic) == Some(e.pubs[p].message.payload)
  {
    var history, at := e.history[..e.subs[k].phase.upTo], e.pubs[p].phase.at;
    var j := SnapshotIsNotOlder(history, at);
    assert Stores(history[j], e.pubs[p].message.topic);
    assert history[j] == e.history[j];
  }

  /** Over all runs: a publish is both sent live to a client and sent to it again from the snapshot of one of its
      subscriptions exactly if some matching subscription of the client was listed before the live send, its own
      store step came before the snapshot, it is retained with a payload, and nothing else was stored for its topic
      in between. */
  lemma ArrivesTwice(s: State, moves: seq<Move>, p: nat, k: nat)
    requires Initial(s) && CanRun(s, moves) && p < |s.pubs| && k < |s.subs|
    ensures SameOps(s, Run(s, moves))
    ensures var e, c := Run(s, moves), s.subs[k].client;
            (p, c) in e.live && InSnapshotOf(e, p, k)
            <==> SubscribedBefore(s, moves, p, c) && LastStored(s, moves, p, k)
    ensures var e := Run(s, moves);
            InSnapshotOf(e, p, k) ==>
              InSnapshot(e, k, s.pubs[p].message.topic) == Some(s.pubs[p].message.payload)
  {
    RunSameOps(s, moves);
    RunInv(s, moves);
    var e, c := Run(s, moves), s.subs[k].client;
    LiveTells(s, moves, p, c);
    LiveIsSending(s, moves, p, c);
    if Kept(e.pubs[p].phase) {
      SnapshotTells(s, moves, p, k);
    }
    if InSnapshotOf(e, p, k) {
      SnapshotHolds(e, p, k);
    }
  }

  lemma {:induction false} LiveIsSending(s: State, moves: seq<Move>, p: nat, c: ClientId)
    requires Initial(s) && CanRun(s, moves) && p < |s.pubs|
    ensures var e := Run(s, moves); |e.pubs| == |s.pubs| && ((p, c) in e.live ==> e.pubs[p].phase.Sending?)
    decreases |moves|
  {
    if moves != [] {
      LiveIsSending(s, moves[..|moves| - 1], p, c);
    }
  }

  const TWICE := [Connect(1), Extend(0), Store(0), PickTargets(0), SendTo(0, 1), Snapshot(0)]

  /** The states of that run, for one publisher and one subscriber. */
  function TwiceAt(n: nat, message: Publish, filter: Text): State
    requires n <= 6
  {
    var pub := if n < 3 then Waiting else if n == 3 then Stored(0) else Sending(0, if n == 4 then {1} else {});
    var sub := if n < 2 then Idle else if n < 6 then Extended else Snapped(1);
    State(if n < 3 then [] else [message], if n < 1 then {} else {1}, {}, if n < 2 then {} else {(1, filter)},
          if n < 5 then {} else {(0, 1)}, [PubOp(0, message, pub)], [SubOp(1, [filter], sub)])
  }

  lemma TwiceStep(n: nat, message: Publish, filter: Text)
    requires n < 6 && Matches(filter, message.topic) && message.qos <= 1
    ensures Enabled(TwiceAt(n, message, filter), TWICE[n])
    ensures Step(TwiceAt(n, message, filter), TWICE[n]) == TwiceAt(n + 1, message, filter)
  {
    var s := TwiceAt(n, message, filter);
    assert n == 1 ==> (set f <- s.subs[0].filters :: (s.subs[0].client, f)) == {(1, filter)} by {
      assert s.subs[0].filters[0] == filter;
    }
    assert n == 4 ==> Wanted(s.subscribed, 1, message.topic) by {
      assert n == 4 ==> (1, filter) in s.subscribed;
    }
    var t, end := Step(s, TWICE[n]), TwiceAt(n + 1, message, filter);
    assert t.connected == end.connected && t.subscribed == end.subscribed && t.live == end.live;
    assert n == 3 || n == 4 ==> t.pubs[0].phase.left == end.pubs[0].phase.left;
    assert t.pubs == end.pubs && t.subs == end.subs && t.history == end.history;
  }

  lemma {:induction false} TwiceRuns(n: nat, message: Publish, filter: Text)
    requires n <= 6 && Matches(filter, message.topic) && message.qos <= 1
    ensures CanRun(TwiceAt(0, message, filter), TWICE[..n])
    ensures Run(TwiceAt(0, message, filter), TWICE[..n]) == TwiceAt(n, message, filter)
  {
    if n > 0 {
      TwiceRuns(n - 1, message, filter);
      TwiceStep(n - 1, message, filter);
      assert TWICE[..n][..n - 1] == TWICE[..n - 1];
    }
  }

  /** The shortest such run: a retained payload arrives live and again from the snapshot, which holds it. */
  lemma MayArriveTwice(message: Publish, filter: Text)
    requires Matches(filter, message.topic) && message.qos <= 1 && message.retain && message.payload != []
    ensures var s := State([], {}, {}, {}, {}, [PubOp(0, message, Waiting)], [SubOp(1, [filter], Idle)]);
            Initial(s) && CanRun(s, TWICE) && BothDone(Run(s, TWICE), 0, 0)
            && (0, 1) in Run(s, TWICE).live && Run(s, TWICE).subs[0].phase.upTo <= |Run(s, TWICE).history|
            && InSnapshot(Run(s, TWICE), 0, message.topic) == Some(message.payload)
  {
    TwiceRuns(6, message, filter);
    assert TWICE[..6] == TWICE;
    assert AnyMatches([filter], message.topic) by {
      assert Matches([filter][0], message.topic);
    }
    var one := [message];
    StoreIsLastRetained(one, message.topic);
    assert one[..1] == one;
  }
}
