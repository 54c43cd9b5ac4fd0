/**
 Chat delivery end to end. On reliable links without dedup expiry, in a network of at most 17 nodes,
 a message that a node has launched, directly or by broadcast, ends up stored at its receiver with
 the original text, and its acknowledgement is processed by the sender, however the deliveries of
 message and acknowledgement, and all other traffic, are scheduled.
 */
module ChatDelivery {
  import opened Common
  import opened Messages
  import opened Gossip
  import opened Network
  import opened Coverage
  import opened Chat
  import opened ChatRuns

  // ---------- the network's own view of a run ----------

  /** The receiver of copy `i` answers it with an acknowledgement. */
  ghost predicate Replies(w: ChatWorld, s: System, i: nat)
    requires i < |s.net.flight|
  {
    ReactionTo(w.net, s.net, i).processed && s.net.flight[i].env.payload.message.Chat? && Reply(w, s, i).ack.Some?
  }

  /** The network events that one event of the chat system amounts to. */
  ghost function NetOf(w: ChatWorld, s: System, e: ChatEvent): seq<Event>
    requires Can(w, s, e)
  {
    match e
    case Try(n, nonce, up) =>
      (match Attempted(w, s, n, nonce, up)
       case Launched(m, targets) => [Originate(n, m, targets)]
       case _ => [])
    case Publish(n, m, targets) => [Originate(n, m, targets)]
    case Network(x) =>
      if x.Deliver? && Replies(w, s, x.i)
      then [x, AckFlood(w, s, x.i)]
      else [x]
    case _ => []
  }

  /** The flood of the acknowledgement that answers copy `i`. */
  ghost function AckFlood(w: ChatWorld, s: System, i: nat): Event
    requires i < |s.net.flight| && s.net.flight[i].env.payload.message.Chat? && Reply(w, s, i).ack.Some?
  {
    Originate(s.net.flight[i].to, Reply(w, s, i).ack.value, PeersOf(w.net, s.net.flight[i].to))
  }

  lemma ExecOne(w: World, s: State, e: Event)
    requires Enabled(w, s, e)
    ensures Valid(w, s, [e]) && Exec(w, s, [e]) == Apply(w, s, e)
  {
    assert [e][..0] == [];
  }

  lemma ExecTwo(w: World, s: State, e: Event, f: Event)
    requires Enabled(w, s, e) && Enabled(w, Apply(w, s, e), f)
    ensures Valid(w, s, [e, f]) && Exec(w, s, [e, f]) == Apply(w, Apply(w, s, e), f)
  {
    ExecOne(w, s, e);
    assert [e, f][..1] == [e];
  }

  lemma AckFloodEnabled(w: ChatWorld, s: System, i: nat)
    requires Sane(w) && SysInv(w, s) && i < |s.net.flight| && s.net.flight[i].env.payload.message.Chat?
    requires Reply(w, s, i).ack.Some?
    ensures Enabled(w.net, AfterDelivery(w.net, s.net, i), AckFlood(w, s, i))
  {
    var t := s.(tables := s.tables[s.net.flight[i].to := Reply(w, s, i).table]);
    AckIsGood(w, s, t, i);
  }

  /** Each event moves the network exactly by its network events. */
  lemma NetOfStep(w: ChatWorld, s: System, e: ChatEvent)
    requires Sane(w) && SysInv(w, s) && Can(w, s, e)
    ensures Valid(w.net, s.net, NetOf(w, s, e)) && Exec(w.net, s.net, NetOf(w, s, e)) == Do(w, s, e).net
  {
    match e
    case Try(n, nonce, up) =>
      if Attempted(w, s, n, nonce, up).Launched? {
        LaunchIsGood(w, s, e);
        ExecOne(w.net, s.net, NetOf(w, s, e)[0]);
      }
    case Publish(n, m, targets) => ExecOne(w.net, s.net, Originate(n, m, targets));
    case Network(x) =>
      if x.Deliver? && Replies(w, s, x.i) {
        AckFloodEnabled(w, s, x.i);
        ExecTwo(w.net, s.net, x, AckFlood(w, s, x.i));
      } else {
        ExecOne(w.net, s.net, x);
      }
    case _ =>
  }

  /** All the network events of a run, in order. */
  ghost function Trace(w: ChatWorld, evs: seq<ChatEvent>): seq<Event>
    requires Possible(w, evs)
    decreases |evs|
  {
    if evs == [] then []
    else Trace(w, evs[..|evs| - 1]) + NetOf(w, After(w, evs[..|evs| - 1]), evs[|evs| - 1])
  }

  lemma {:induction false} TraceIsRun(w: ChatWorld, evs: seq<ChatEvent>)
    requires Sane(w) && Possible(w, evs)
    ensures Valid(w.net, Start(), Trace(w, evs)) && Exec(w.net, Start(), Trace(w, evs)) == After(w, evs).net
    decreases |evs|
  {
    if evs != [] {
      var init, e := evs[..|evs| - 1], evs[|evs| - 1];
      TraceIsRun(w, init);
      SysInvHolds(w, init);
      NetOfStep(w, After(w, init), e);
      ExecAppend(w.net, Start(), Trace(w, init), NetOf(w, After(w, init), e));
    }
  }

  /** What an event did to the network is in the trace of every longer run. */
  lemma {:induction false} TraceGrows(w: ChatWorld, evs: seq<ChatEvent>, k: nat)
    requires Possible(w, evs) && k <= |evs|
    ensures Possible(w, evs[..k]) && Trace(w, evs[..k]) <= Trace(w, evs)
    decreases |evs|
  {
    if k == |evs| {
      assert evs[..k] == evs;
    } else {
      var init := evs[..|evs| - 1];
      assert init[..k] == evs[..k];
      TraceGrows(w, init, k);
    }
  }

  // ---------- reliability ----------

  /** No copy is lost, and no cleanup forgets anything. */
  ghost predicate Reliable(w: ChatWorld, evs: seq<ChatEvent>)
    requires Possible(w, evs)
    decreases |evs|
  {
    evs == [] ||
    var init, e := evs[..|evs| - 1], evs[|evs| - 1];
    && Reliable(w, init)
    && (e.Network? ==> !e.e.Lose?)
    && (e.Network? && e.e.Cleanup? ==>
          var net := After(w, init).net;
          Expire(SeenAt(net, e.e.node), net.now) == SeenAt(net, e.e.node))
  }

  /** The first network event of a reliable step is harmless, and the second, if any, starts a flood. */
  lemma ReliableStep(w: ChatWorld, s: System, e: ChatEvent, id: Bytes)
    requires Can(w, s, e) && (e.Network? ==> !e.e.Lose?)
    requires e.Network? && e.e.Cleanup? ==> Expire(SeenAt(s.net, e.e.node), s.net.now) == SeenAt(s.net, e.e.node)
    ensures var xs := NetOf(w, s, e);
            && (|xs| > 0 ==> Harmless(w.net, s.net, xs[0], id, ForCoverage))
            && (forall j :: 1 <= j < |xs| ==> xs[j].Originate?)
  {
  }

  lemma {:induction false} ReliableIsHarmless(w: ChatWorld, evs: seq<ChatEvent>, id: Bytes)
    requires Sane(w) && Possible(w, evs) && Reliable(w, evs)
    ensures Valid(w.net, Start(), Trace(w, evs)) && AllHarmless(w.net, Start(), Trace(w, evs), id, ForCoverage)
    decreases |evs|
  {
    TraceIsRun(w, evs);
    if evs != [] {
      var init, e := evs[..|evs| - 1], evs[|evs| - 1];
      var tr, more := Trace(w, init), NetOf(w, After(w, init), e);
      TraceIsRun(w, init);
      ReliableIsHarmless(w, init, id);
      ReliableStep(w, After(w, init), e, id);
      forall k | 0 <= k < |tr + more|
        ensures HarmlessStep(w.net, Start(), tr + more, id, ForCoverage, k)
      {
        ValidPrefix(w.net, Start(), tr + more, k);
        if k < |tr| {
          HarmlessAt(w.net, Start(), tr, id, ForCoverage, k);
          assert (tr + more)[..k] == tr[..k];
        } else if k == |tr| {
          assert (tr + more)[..k] == tr;
        }
      }
    }
  }

  // ---------- what a processed chat message and a processed acknowledgement leave behind ----------

  /** In the trace, `r` floods an acknowledgement of letter `id` to `s`. */
  ghost predicate AckFlooded(w: ChatWorld, trace: seq<Event>, r: NodeId, s: NodeId, id: Bytes, j: nat) {
    && j < |trace| && trace[j].Originate? && trace[j].origin == r && trace[j].targets == PeersOf(w.net, r)
    && trace[j].msg.message.ChatAck? && trace[j].msg.message.ackerId == r
    && trace[j].msg.message.targetId == s && trace[j].msg.message.ackedId == id
  }

  /** A node that processed a chat message addressed to it has stored the letter and flooded an acknowledgement. */
  ghost predicate Answered(w: ChatWorld, s: System, trace: seq<Event>, p: Processing) {
    var m := p.env.payload.message;
    m.Chat? && m.receiverId == p.node ==>
      m.msgId in Tab(s, p.node) && exists j :: AckFlooded(w, trace, p.node, m.senderId, m.msgId, j)
  }

  lemma AnsweredGrows(w: ChatWorld, s: System, t: System, tr: seq<Event>, more: seq<Event>, p: Processing)
    requires Grows(s, t) && tr <= more && Answered(w, s, tr, p)
    ensures Answered(w, t, more, p)
  {
    var m := p.env.payload.message;
    if m.Chat? && m.receiverId == p.node {
      var j :| AckFlooded(w, tr, p.node, m.senderId, m.msgId, j);
      assert AckFlooded(w, more, p.node, m.senderId, m.msgId, j);
    }
  }

  lemma {:induction false} AllAnswered(w: ChatWorld, evs: seq<ChatEvent>, p: Processing)
    requires Sane(w) && Possible(w, evs) && p in After(w, evs).net.log
    ensures Answered(w, After(w, evs), Trace(w, evs), p)
    decreases |evs|
  {
    assert evs != [];
    var init, e := evs[..|evs| - 1], evs[|evs| - 1];
    var s, t := After(w, init), After(w, evs);
    SysInvHolds(w, init);
    SysInvStep(w, s, e);
    if p in s.net.log {
      AllAnswered(w, init, p);
      AnsweredGrows(w, s, t, Trace(w, init), Trace(w, evs), p);
    } else {
      NewlyAnswered(w, s, e, Trace(w, init), p);
    }
  }

  lemma StepLog(w: World, s: State, e: Event)
    ensures !e.Deliver? ==> Step(w, s, e).log == s.log
  {
  }

  lemma LogGrowsOnlyByDelivery(w: ChatWorld, s: System, e: ChatEvent, p: Processing)
    requires Can(w, s, e) && p in Do(w, s, e).net.log && p !in s.net.log
    ensures e.Network? && e.e.Deliver? && ReactionTo(w.net, s.net, e.e.i).processed
    ensures var c := s.net.flight[e.e.i]; p == Processing(c.to, c.from, c.env, s.net.now)
  {
    match e
    case Try(n, nonce, up) =>
      if Attempted(w, s, n, nonce, up).Launched? { StepLog(w.net, s.net, NetOf(w, s, e)[0]); }
    case Publish(n, m, targets) => StepLog(w.net, s.net, Originate(n, m, targets));
    case Network(x) =>
      if x.Deliver? { LogOfDelivery(w, s, x.i); } else { StepLog(w.net, s.net, x); }
    case _ =>
  }

  lemma LogOfDelivery(w: ChatWorld, s: System, i: nat)
    requires i < |s.net.flight|
    ensures DeliverTo(w, s, i).net.log == AfterDelivery(w.net, s.net, i).log
  {
    if Replies(w, s, i) { StepLog(w.net, AfterDelivery(w.net, s.net, i), AckFlood(w, s, i)); }
  }

  lemma NewlyAnswered(w: ChatWorld, s: System, e: ChatEvent, tr: seq<Event>, p: Processing)
    requires Sane(w) && SysInv(w, s) && Can(w, s, e) && p in Do(w, s, e).net.log && p !in s.net.log
    ensures Answered(w, Do(w, s, e), tr + NetOf(w, s, e), p)
  {
    LogGrowsOnlyByDelivery(w, s, e, p);
    var i := e.e.i;
    var m := p.env.payload.message;
    if m.Chat? && m.receiverId == p.node {
      var t := s.(tables := s.tables[p.node := Reply(w, s, i).table]);
      ReplyGood(w, s, t, i);
      AckIsGood(w, s, t, i);
      var more := tr + NetOf(w, s, e);
      assert more[|tr| + 1] == AckFlood(w, s, i);
      assert AckFlooded(w, more, p.node, m.senderId, m.msgId, |tr| + 1);
    }
  }

  /** `id`'s sender has processed an acknowledgement of it. */
  ghost predicate AckProcessed(s: System, id: Bytes) {
    id in s.letters &&
    exists p :: p in s.net.log && p.node == s.letters[id].sender
                && p.env.payload.message.ChatAck? && p.env.payload.message.ackedId == id
                && p.env.payload.message.targetId == p.node
  }

  /** Once acknowledged, the sender's row says delivered, or sent if the sender loop marks it late. */
  lemma {:induction false} AckedStatus(w: ChatWorld, evs: seq<ChatEvent>, id: Bytes)
    requires Sane(w) && Possible(w, evs) && AckProcessed(After(w, evs), id)
    ensures var s := After(w, evs);
            var n := s.letters[id].sender;
            id in Tab(s, n) ==> Tab(s, n)[id].status == Delivered || Tab(s, n)[id].status == Sent
    decreases |evs|
  {
    var t := After(w, evs);
    var n := t.letters[id].sender;
    var p :| p in t.net.log && p.node == n && p.env.payload.message.ChatAck?
             && p.env.payload.message.ackedId == id && p.env.payload.message.targetId == n;
    assert evs != [];
    var init, e := evs[..|evs| - 1], evs[|evs| - 1];
    var s := After(w, init);
    SysInvHolds(w, init);
    SysInvStep(w, s, e);
    if p in s.net.log {
      assert GoodEnv(w, s, p.env);
      AckedStatus(w, init, id);
      if id in Tab(s, n) { RowStep(w, s, e, n, id); } else { NoLateRow(w, s, e, n, id); }
    } else {
      AckMarksDelivered(w, s, e, p);
    }
  }

  /** The processing of an acknowledgement marks the row delivered. */
  lemma AckMarksDelivered(w: ChatWorld, s: System, e: ChatEvent, p: Processing)
    requires Can(w, s, e) && p in Do(w, s, e).net.log && p !in s.net.log
    requires p.env.payload.message.ChatAck? && p.env.payload.message.targetId == p.node
    ensures var id, t := p.env.payload.message.ackedId, Do(w, s, e);
            id in Tab(t, p.node) ==> Tab(t, p.node)[id].status == Delivered
  {
    LogGrowsOnlyByDelivery(w, s, e, p);
    TableAfterDelivery(w, s, e.e.i, p.node);
  }

  /** A letter that exists gets no new row at its sender by anything but a delivery. */
  lemma NoLateRow(w: ChatWorld, s: System, e: ChatEvent, n: NodeId, id: Bytes)
    requires Sane(w) && SysInv(w, s) && Can(w, s, e) && id in s.letters && id !in Tab(s, n)
    ensures id in Tab(Do(w, s, e), n) ==> Tab(Do(w, s, e), n)[id].status == Delivered
  {
    if e.Network? && e.e.Deliver? { TableAfterDelivery(w, s, e.e.i, n); }
  }

  // ---------- delivery ----------

  /** The processing the coverage theorem promises carries the very message that was flooded. */
  lemma CarriesMessage(w: ChatWorld, s: System, m: Signed, p: Processing)
    requires DigestsDistinguish(w.net.crypto) && SysInv(w, s)
    requires p in s.net.log && m.nodeId in w.net.peers && Id(w.net, p.env) == w.net.crypto.digest(m)
    ensures p.env.payload.message == m.message
  {
    assert GoodEnv(w, s, p.env);
  }

  /** A flood that is over, at every node or at the nodes it was sent to: `v` has processed the message. */
  lemma FloodReached(w: ChatWorld, evs: seq<ChatEvent>, j: nat, v: NodeId, k: nat) returns (p: Processing)
    requires Sane(w) && |w.net.peers| <= DEFAULT_TTL + 1 && DigestsDistinguish(w.net.crypto)
    requires Possible(w, evs) && Reliable(w, evs) && After(w, evs).net.flight == []
    requires j < |Trace(w, evs)| && Trace(w, evs)[j].Originate? && v != Trace(w, evs)[j].origin
    requires v in Trace(w, evs)[j].targets
          || (Trace(w, evs)[j].targets == PeersOf(w.net, Trace(w, evs)[j].origin) && Walk(w.net, Trace(w, evs)[j].origin, v, k))
    ensures p in After(w, evs).net.log && p.node == v
    ensures p.env.payload.message == Trace(w, evs)[j].msg.message
  {
    var tr := Trace(w, evs);
    var id := w.net.crypto.digest(tr[j].msg);
    TraceIsRun(w, evs);
    SysInvHolds(w, evs);
    ReliableIsHarmless(w, evs, id);
    ValidPrefix(w.net, Start(), tr, j);
    if v in tr[j].targets {
      HarmlessForLess(w.net, Start(), tr, id, ForTargets);
      SentMeansProcessed(w.net, tr, j, v);
    } else {
      FloodCoversNetwork(w.net, tr, j, v, k);
    }
    p :| p in After(w, evs).net.log && p.node == v && Id(w.net, p.env) == id;
    CarriesMessage(w, After(w, evs), tr[j].msg, p);
  }

  /** Step `j` of the run launches letter `id`: its sender's loop takes it up and some link accepts it. */
  ghost predicate LaunchedAt(w: ChatWorld, evs: seq<ChatEvent>, j: nat, id: Bytes)
    requires Possible(w, evs)
  {
    && j < |evs| && evs[j].Try? && Possible(w, evs[..j]) && Can(w, After(w, evs[..j]), evs[j])
    && JobAt(After(w, evs[..j]), evs[j].n).rows[0].0 == id
    && Attempted(w, After(w, evs[..j]), evs[j].n, evs[j].nonce, evs[j].up).Launched?
  }

  /** The network events of step `j` stand in the trace where the trace before it ended. */
  lemma StepInTrace(w: ChatWorld, evs: seq<ChatEvent>, j: nat)
    requires Possible(w, evs) && j < |evs| && Possible(w, evs[..j]) && Can(w, After(w, evs[..j]), evs[j])
    ensures Trace(w, evs[..j]) + NetOf(w, After(w, evs[..j]), evs[j]) <= Trace(w, evs)
  {
    TraceGrows(w, evs, j + 1);
    TraceUpTo(w, evs, j);
  }

  lemma TraceUpTo(w: ChatWorld, evs: seq<ChatEvent>, j: nat)
    requires j < |evs| && Possible(w, evs[..j + 1])
    ensures Possible(w, evs[..j]) && Can(w, After(w, evs[..j]), evs[j])
    ensures Trace(w, evs[..j + 1]) == Trace(w, evs[..j]) + NetOf(w, After(w, evs[..j]), evs[j])
  {
    assert evs[..j + 1][..j] == evs[..j];
  }

  /** A flood of letter `id`, to its receiver alone or to every peer of its sender. */
  ghost predicate FloodsLetter(w: ChatWorld, e: Event, l: Letter, id: Bytes) {
    && e.Originate? && e.origin == l.sender
    && e.msg.message.Chat? && e.msg.message.senderId == l.sender
    && e.msg.message.receiverId == l.receiver && e.msg.message.msgId == id
    && (l.receiver in e.targets || e.targets == PeersOf(w.net, l.sender))
  }

  lemma LaunchFloods(w: ChatWorld, s: System, e: ChatEvent, id: Bytes)
    requires Sane(w) && SysInv(w, s) && e.Try? && Can(w, s, e) && JobAt(s, e.n).rows[0].0 == id
    requires Attempted(w, s, e.n, e.nonce, e.up).Launched?
    requires forall q :: q in PeersOf(w.net, e.n) ==> q in e.up
    ensures id in s.letters && |NetOf(w, s, e)| == 1 && FloodsLetter(w, NetOf(w, s, e)[0], s.letters[id], id)
  {
    LaunchIsGood(w, s, e);
    assert JobGood(w, s, e.n);
    ReachedAll(PeersOf(w.net, e.n), e.up);
  }

  /** The launch is in the trace, to the receiver itself if it is a peer, else to every peer. */
  lemma LaunchInTrace(w: ChatWorld, evs: seq<ChatEvent>, j: nat, id: Bytes) returns (i: nat)
    requires Sane(w) && Possible(w, evs) && LaunchedAt(w, evs, j, id)
    requires forall q :: q in PeersOf(w.net, evs[j].n) ==> q in evs[j].up
    ensures id in After(w, evs).letters
    ensures var l := After(w, evs).letters[id];
            var tr := Trace(w, evs);
            i < |tr| && FloodsLetter(w, tr[i], l, id)
  {
    SysInvHolds(w, evs[..j]);
    LaunchFloods(w, After(w, evs[..j]), evs[j], id);
    i := |Trace(w, evs[..j])|;
    StepInTrace(w, evs, j);
    LettersKept(w, evs, j, id);
  }

  lemma {:induction false} ReachedAll(peers: seq<NodeId>, up: set<NodeId>)
    requires forall q :: q in peers ==> q in up
    ensures Reached(peers, up) == peers
  {
    if peers != [] { ReachedAll(peers[1..], up); }
  }

  lemma {:induction false} LettersKept(w: ChatWorld, evs: seq<ChatEvent>, k: nat, id: Bytes)
    requires Sane(w) && Possible(w, evs) && k <= |evs| && Possible(w, evs[..k])
    requires id in After(w, evs[..k]).letters
    ensures id in After(w, evs).letters && After(w, evs).letters[id] == After(w, evs[..k]).letters[id]
    decreases |evs|
  {
    if k == |evs| {
      assert evs[..k] == evs;
    } else {
      var init := evs[..|evs| - 1];
      assert init[..k] == evs[..k];
      LettersKept(w, init, k, id);
      SysInvHolds(w, init);
      SysInvStep(w, After(w, init), evs[|evs| - 1]);
    }
  }

  /**
   End-to-end delivery. In every reliable run of a network of at most 17 nodes in which sender and
   receiver can reach each other, once a letter has been launched with all the sender's links up and
   no copy is left in flight, the receiver's table holds it with the original text and the sender
   has processed an acknowledgement of it.
   */
  lemma ChatDelivered(w: ChatWorld, evs: seq<ChatEvent>, j: nat, id: Bytes, there: nat, back: nat)
    requires Sane(w) && |w.net.peers| <= DEFAULT_TTL + 1 && DigestsDistinguish(w.net.crypto)
    requires Possible(w, evs) && Reliable(w, evs) && After(w, evs).net.flight == []
    requires LaunchedAt(w, evs, j, id) && (forall q :: q in PeersOf(w.net, evs[j].n) ==> q in evs[j].up)
    requires id in After(w, evs).letters
    requires var l := After(w, evs).letters[id];
             && l.sender != l.receiver && Walk(w.net, l.sender, l.receiver, there) && Walk(w.net, l.receiver, l.sender, back)
    ensures var s := After(w, evs);
            var l := s.letters[id];
            && id in Tab(s, l.receiver) && Tab(s, l.receiver)[id].content == l.content
            && Tab(s, l.receiver)[id].status == Delivered
            && AckProcessed(s, id)
  {
    var s := After(w, evs);
    var l := s.letters[id];
    var i := LaunchInTrace(w, evs, j, id);
    var p := FloodReached(w, evs, i, l.receiver, there);
    AllAnswered(w, evs, p);
    var a :| AckFlooded(w, Trace(w, evs), l.receiver, l.sender, id, a);
    var q := FloodReached(w, evs, a, l.sender, back);
    SysInvHolds(w, evs);
    assert GoodRow(w, s, l.receiver, id);
  }
}
