/**
 Chat between many nodes, as a state machine over the gossip network: users submit messages, each
 node's sender loop loads pending rows, tries them one at a time and marks them in a separate step,
 while the gossip task of the same node delivers messages and acknowledgements in between. Copies
 may be lost, duplicated by retries, and arrive in any order.
 */
module ChatRuns {
  import opened Common
  import opened Messages
  import opened Gossip
  import opened Network
  import opened Coverage
  import opened Chat

  datatype ChatWorld = ChatWorld(net: World, suite: Suite)

  /** What a user asked to be sent, recorded when it is submitted. */
  datatype Letter = Letter(sender: NodeId, receiver: NodeId, content: Bytes)

  /** Where a node's sender loop stands: between passes, or with these rows of its batch to go. */
  datatype Job = Idle | Batch(rows: seq<(Bytes, Row)>) | Marking(id: Bytes, rest: seq<(Bytes, Row)>)

  datatype System = System(
    net: State,
    tables: map<NodeId, Table>,
    jobs: map<NodeId, Job>,
    letters: map<Bytes, Letter>,
    wired: set<Bytes>)             // ids of messages ever put on the wire

  datatype ChatEvent =
    | Submit(n: NodeId, id: Bytes, to: NodeId, content: Bytes)
    | Load(n: NodeId, batch: seq<(Bytes, Row)>)
    | Try(n: NodeId, nonce: nat, up: set<NodeId>)
    | Mark(n: NodeId)
    | Publish(n: NodeId, m: Signed, targets: seq<NodeId>)
    | Network(e: Event)

  function Tab(s: System, n: NodeId): Table { if n in s.tables then s.tables[n] else map[] }

  function JobAt(s: System, n: NodeId): Job { if n in s.jobs then s.jobs[n] else Idle }

  function KeyAt(w: ChatWorld, n: NodeId): Key {
    match w.net.crypto.keyOf(n)
    case Some(k) => k
    case None => ""
  }

  function Begin(): System { System(Start(), map[], map[], map[], {}) }

  /** What the head of a node's batch comes to, under the links that are up. */
  function Attempted(w: ChatWorld, s: System, n: NodeId, nonce: nat, up: set<NodeId>): Attempt
    requires JobAt(s, n).Batch? && JobAt(s, n).rows != []
  {
    var (id, row) := JobAt(s, n).rows[0];
    TrySend(w.net.crypto, w.suite, n, KeyAt(w, n), PeersOf(w.net, n), up, id, row, nonce, s.net.now)
  }

  ghost predicate Can(w: ChatWorld, s: System, e: ChatEvent) {
    match e
    case Submit(n, id, _, _) => n in w.net.peers && id !in s.letters      // fresh uuid
    case Load(n, batch) => n in w.net.peers && JobAt(s, n).Idle? && Enumerates(batch, Pending(Tab(s, n)))
    case Try(n, _, _) => n in w.net.peers && JobAt(s, n).Batch? && JobAt(s, n).rows != []
    case Mark(n) => n in w.net.peers && JobAt(s, n).Marking?
    case Publish(n, m, targets) =>
      Enabled(w.net, s.net, Originate(n, m, targets)) && (m.message.NodeAnnouncement? || m.message.RepoAnnouncement?)
    case Network(x) => Enabled(w.net, s.net, x) && !x.Originate? && !x.Inject?
  }

  function Resume(rest: seq<(Bytes, Row)>): Job { if rest == [] then Idle else Batch(rest) }

  /** A network event, if it can happen. */
  function Step(w: World, s: State, e: Event): State { if Enabled(w, s, e) then Apply(w, s, e) else s }

  /** What the receiving node does with a processed chat message. */
  function Reply(w: ChatWorld, s: System, i: nat): Incoming
    requires i < |s.net.flight| && s.net.flight[i].env.payload.message.Chat?
  {
    var c := s.net.flight[i];
    OnChat(w.net.crypto, w.suite, c.to, KeyAt(w, c.to), Tab(s, c.to), c.env.payload.message, s.net.now)
  }

  function DeliverTo(w: ChatWorld, s: System, i: nat): System
    requires i < |s.net.flight|
  {
    var c := s.net.flight[i];
    var net := Step(w.net, s.net, Deliver(i));
    if !ReactionTo(w.net, s.net, i).processed then s.(net := net)
    else match c.env.payload.message
      case Chat(_, _, _, _) =>
        var r := Reply(w, s, i);
        s.(tables := s.tables[c.to := r.table],
           net := if r.ack.Some? then Step(w.net, net, Originate(c.to, r.ack.value, PeersOf(w.net, c.to))) else net)
      case ChatAck(_, _, _, _, _) =>
        s.(tables := s.tables[c.to := OnAck(c.to, Tab(s, c.to), c.env.payload.message)], net := net)
      case _ => s.(net := net)
  }

  ghost function Do(w: ChatWorld, s: System, e: ChatEvent): System
    requires Can(w, s, e)
  {
    match e
    case Submit(n, id, to, content) =>
      s.(tables := s.tables[n := Tab(s, n)[id := Row(n, to, content, w.suite.clock(s.net.now), Sending)]],
         letters := s.letters[id := Letter(n, to, content)])
    case Load(n, batch) => s.(jobs := s.jobs[n := Resume(batch)])
    case Try(n, nonce, up) =>
      var (id, row) := JobAt(s, n).rows[0];
      var rest := JobAt(s, n).rows[1..];
      (match Attempted(w, s, n, nonce, up)
       case Invalid =>
         s.(tables := s.tables[n := UpdateStatus(Tab(s, n), id, Failed)], jobs := s.jobs[n := Resume(rest)])
       case Unsent => s.(jobs := s.jobs[n := Resume(rest)])
       case Launched(m, targets) =>
         s.(net := Step(w.net, s.net, Originate(n, m, targets)), jobs := s.jobs[n := Marking(id, rest)],
            wired := s.wired + {id}))
    case Mark(n) =>
      var Marking(id, rest) := JobAt(s, n);
      s.(tables := s.tables[n := UpdateStatus(Tab(s, n), id, Sent)], jobs := s.jobs[n := Resume(rest)])
    case Publish(n, m, targets) => s.(net := Step(w.net, s.net, Originate(n, m, targets)))
    case Network(x) => if x.Deliver? then DeliverTo(w, s, x.i) else s.(net := Step(w.net, s.net, x))
  }

  ghost predicate Possible(w: ChatWorld, evs: seq<ChatEvent>)
    decreases |evs|, 0
  {
    evs == [] || (Possible(w, evs[..|evs| - 1]) && Can(w, After(w, evs[..|evs| - 1]), evs[|evs| - 1]))
  }

  /** The system after `evs`. */
  ghost function After(w: ChatWorld, evs: seq<ChatEvent>): System
    requires Possible(w, evs)
    decreases |evs|, 1
  {
    if evs == [] then Begin() else Do(w, After(w, evs[..|evs| - 1]), evs[|evs| - 1])
  }

  // ---------- invariants ----------

  ghost predicate Sane(w: ChatWorld) {
    && Closed(w.net) && SuiteLaws(w.net.crypto, w.suite)
    && forall n :: n in w.net.peers ==> w.net.crypto.keyOf(n).Some?
  }

  /** A message in the network says only what is true: of a letter, or of a letter that has been stored. */
  ghost predicate GoodEnv(w: ChatWorld, s: System, env: Envelope) {
    env.payload.nodeId in w.net.peers &&
    match env.payload.message
    case Chat(a, b, id, ct) =>
      && id in s.letters && s.letters[id].sender == a && s.letters[id].receiver == b
      && id in s.wired && w.net.crypto.keyOf(b).Some?
      && exists r :: ct == w.suite.encrypt(KeyAt(w, b), s.letters[id].content, r)
    case ChatAck(b, a, id, _, _) =>
      && id in s.letters && s.letters[id].sender == a && s.letters[id].receiver == b
      && id in Tab(s, b) && b in w.net.peers
    case _ => true
  }

  ghost predicate NetGood(w: ChatWorld, s: System) {
    && (forall c :: c in s.net.flight ==> GoodEnv(w, s, c.env) && c.to in w.net.peers)
    && (forall p :: p in s.net.log ==> GoodEnv(w, s, p.env) && p.node in w.net.peers)
  }

  /** The statuses a row may have, given where it is and what became of the letter. */
  ghost predicate StatusFits(w: ChatWorld, s: System, n: NodeId, id: Bytes, status: Status)
    requires id in s.letters
  {
    var l := s.letters[id];
    && (n == l.sender || (n == l.receiver && status == Delivered))
    && (n == l.sender && status == Delivered ==> id in Tab(s, l.receiver))
    && (status == Failed ==> !w.suite.validId(l.receiver))
    && (status == Sent || status == Delivered ==> w.suite.validId(l.receiver))
  }

  ghost predicate GoodRow(w: ChatWorld, s: System, n: NodeId, id: Bytes) {
    id in Tab(s, n) ==>
      && id in s.letters
      && Tab(s, n)[id].sender == s.letters[id].sender && Tab(s, n)[id].receiver == s.letters[id].receiver
      && Tab(s, n)[id].content == s.letters[id].content
      && StatusFits(w, s, n, id, Tab(s, n)[id].status)
  }

  ghost predicate RowsGood(w: ChatWorld, s: System) {
    forall n, id :: GoodRow(w, s, n, id)
  }

  ghost predicate BatchGood(s: System, n: NodeId, rows: seq<(Bytes, Row)>) {
    forall i :: 0 <= i < |rows| ==>
      && rows[i].0 in s.letters && s.letters[rows[i].0].sender == n
      && s.letters[rows[i].0].receiver == rows[i].1.receiver && s.letters[rows[i].0].content == rows[i].1.content
  }

  ghost predicate JobGood(w: ChatWorld, s: System, n: NodeId) {
    match JobAt(s, n)
    case Idle => true
    case Batch(rows) => BatchGood(s, n, rows)
    case Marking(id, rest) =>
      BatchGood(s, n, rest) && id in s.letters && s.letters[id].sender == n && w.suite.validId(s.letters[id].receiver)
  }

  ghost predicate WiredGood(w: ChatWorld, s: System) {
    forall id :: id in s.wired ==> id in s.letters && w.suite.validId(s.letters[id].receiver)
  }

  ghost predicate SysInv(w: ChatWorld, s: System) {
    NetGood(w, s) && RowsGood(w, s) && (forall n :: JobGood(w, s, n)) && WiredGood(w, s)
  }

  /** Letters are never changed and stored rows never deleted. */
  ghost predicate Grows(s: System, t: System) {
    && (forall id :: id in s.letters ==> id in t.letters && t.letters[id] == s.letters[id])
    && (forall n, id :: id in Tab(s, n) ==> id in Tab(t, n))
    && s.wired <= t.wired
  }

  lemma GoodEnvGrows(w: ChatWorld, s: System, t: System, env: Envelope)
    requires Grows(s, t) && GoodEnv(w, s, env)
    ensures GoodEnv(w, t, env)
  {
  }

  lemma JobGoodGrows(w: ChatWorld, s: System, t: System, n: NodeId)
    requires Grows(s, t) && JobGood(w, s, n) && JobAt(t, n) == JobAt(s, n)
    ensures JobGood(w, t, n)
  {
  }

  /** What a step must establish beyond growth, when it leaves the network alone. */
  lemma NetGoodGrows(w: ChatWorld, s: System, t: System)
    requires Grows(s, t) && NetGood(w, s) && t.net.flight == s.net.flight && t.net.log == s.net.log
    ensures NetGood(w, t)
  {
    forall c | c in t.net.flight ensures GoodEnv(w, t, c.env) && c.to in w.net.peers {
      GoodEnvGrows(w, s, t, c.env);
    }
    forall p | p in t.net.log ensures GoodEnv(w, t, p.env) && p.node in w.net.peers {
      GoodEnvGrows(w, s, t, p.env);
    }
  }

  // ---------- table changes ----------

  /** Setting one row's status keeps every row good, if the new status fits. */
  lemma StatusChange(w: ChatWorld, s: System, t: System, n: NodeId, id: Bytes, status: Status)
    requires RowsGood(w, s) && t.letters == s.letters && s.wired <= t.wired
    requires t.tables == s.tables[n := UpdateStatus(Tab(s, n), id, status)]
    requires id in Tab(s, n) && id in s.letters ==> StatusFits(w, s, n, id, status)
    ensures Grows(s, t) && RowsGood(w, t)
  {
    assert GoodRow(w, s, n, id);
    forall m, x
      ensures GoodRow(w, t, m, x)
    {
      assert GoodRow(w, s, m, x);
    }
  }

  lemma Insertion(w: ChatWorld, s: System, t: System, n: NodeId, id: Bytes, row: Row)
    requires RowsGood(w, s) && id !in Tab(s, n)
    requires t.tables == s.tables[n := Tab(s, n)[id := row]]
    requires Grows(s.(tables := map[]), t)
    requires id in t.letters && row.sender == t.letters[id].sender && row.receiver == t.letters[id].receiver
    requires row.content == t.letters[id].content
    requires StatusFits(w, t, n, id, row.status)
    ensures Grows(s, t) && RowsGood(w, t)
  {
    forall x | x in s.letters ensures x in t.letters && t.letters[x] == s.letters[x] {
      assert x in s.(tables := map[]).letters;
    }
    forall m, x
      ensures GoodRow(w, t, m, x)
    {
      assert GoodRow(w, s, m, x);
    }
  }

  // ---------- each event ----------

  lemma SubmitKeeps(w: ChatWorld, s: System, e: ChatEvent)
    requires Sane(w) && SysInv(w, s) && e.Submit? && Can(w, s, e)
    ensures SysInv(w, Do(w, s, e)) && Grows(s, Do(w, s, e))
  {
    var t := Do(w, s, e);
    assert GoodRow(w, s, e.n, e.id);
    Insertion(w, s, t, e.n, e.id, Row(e.n, e.to, e.content, w.suite.clock(s.net.now), Sending));
    NetGoodGrows(w, s, t);
    forall n ensures JobGood(w, t, n) { JobGoodGrows(w, s, t, n); }
  }

  lemma LoadKeeps(w: ChatWorld, s: System, e: ChatEvent)
    requires Sane(w) && SysInv(w, s) && e.Load? && Can(w, s, e)
    ensures SysInv(w, Do(w, s, e)) && Grows(s, Do(w, s, e))
  {
    var t := Do(w, s, e);
    RowsSame(w, s, t);
    NetGoodGrows(w, s, t);
    forall n ensures JobGood(w, t, n) {
      if n != e.n {
        JobGoodGrows(w, s, t, n);
      } else {
        forall i | 0 <= i < |e.batch|
          ensures && e.batch[i].0 in s.letters && s.letters[e.batch[i].0].sender == n
                  && s.letters[e.batch[i].0].receiver == e.batch[i].1.receiver
                  && s.letters[e.batch[i].0].content == e.batch[i].1.content
        {
          assert GoodRow(w, s, n, e.batch[i].0);
        }
        assert BatchGood(t, n, e.batch);
      }
    }
  }

  lemma RowsSame(w: ChatWorld, s: System, t: System)
    requires RowsGood(w, s) && t.tables == s.tables && t.letters == s.letters && s.wired <= t.wired
    ensures RowsGood(w, t) && Grows(s, t)
  {
    forall n, id ensures GoodRow(w, t, n, id) { assert GoodRow(w, s, n, id); }
  }

  lemma MarkKeeps(w: ChatWorld, s: System, e: ChatEvent)
    requires Sane(w) && SysInv(w, s) && e.Mark? && Can(w, s, e)
    ensures SysInv(w, Do(w, s, e)) && Grows(s, Do(w, s, e))
  {
    var t := Do(w, s, e);
    assert JobGood(w, s, e.n);
    StatusChange(w, s, t, e.n, JobAt(s, e.n).id, Sent);
    NetGoodGrows(w, s, t);
    forall n ensures JobGood(w, t, n) {
      if n != e.n { JobGoodGrows(w, s, t, n); }
    }
  }

  lemma TryUnsentKeeps(w: ChatWorld, s: System, e: ChatEvent)
    requires Sane(w) && SysInv(w, s) && e.Try? && Can(w, s, e) && !Attempted(w, s, e.n, e.nonce, e.up).Launched?
    ensures SysInv(w, Do(w, s, e)) && Grows(s, Do(w, s, e))
  {
    var t := Do(w, s, e);
    assert JobGood(w, s, e.n);
    if Attempted(w, s, e.n, e.nonce, e.up).Invalid? {
      StatusChange(w, s, t, e.n, JobAt(s, e.n).rows[0].0, Failed);
    } else {
      RowsSame(w, s, t);
    }
    NetGoodGrows(w, s, t);
    forall n ensures JobGood(w, t, n) {
      if n != e.n { JobGoodGrows(w, s, t, n); }
    }
  }

  /** A launched chat message is one the network accepts as the node's own, and it is a good one. */
  lemma LaunchIsGood(w: ChatWorld, s: System, e: ChatEvent)
    requires Sane(w) && SysInv(w, s) && e.Try? && Can(w, s, e) && Attempted(w, s, e.n, e.nonce, e.up).Launched?
    ensures var a := Attempted(w, s, e.n, e.nonce, e.up);
            && Enabled(w.net, s.net, Originate(e.n, a.msg, a.targets))
            && GoodEnv(w, s.(wired := s.wired + {JobAt(s, e.n).rows[0].0}), Envelope(a.msg, DEFAULT_TTL))
            && a.msg.message.Chat? && a.msg.message.msgId == JobAt(s, e.n).rows[0].0
            && w.suite.validId(s.letters[JobAt(s, e.n).rows[0].0].receiver)
  {
    var a := Attempted(w, s, e.n, e.nonce, e.up);
    var (id, row) := JobAt(s, e.n).rows[0];
    assert JobGood(w, s, e.n);
    MadeIsAccepted(w.net.crypto, w.suite, e.n, KeyAt(w, e.n), a.msg.message, s.net.now);
    assert a.msg.message.ciphertext == w.suite.encrypt(KeyAt(w, row.receiver), s.letters[id].content, e.nonce);
  }

  lemma OriginateGood(w: ChatWorld, s: System, t: System, n: NodeId, m: Signed, targets: seq<NodeId>)
    requires Sane(w) && NetGood(w, s) && Grows(s, t)
    requires Enabled(w.net, s.net, Originate(n, m, targets)) && GoodEnv(w, s, Envelope(m, DEFAULT_TTL))
    requires t.net == Apply(w.net, s.net, Originate(n, m, targets))
    ensures NetGood(w, t)
  {
    var env := Envelope(m, DEFAULT_TTL);
    forall c | c in t.net.flight ensures GoodEnv(w, t, c.env) && c.to in w.net.peers {
      if c !in s.net.flight { assert c in CopiesTo(n, targets, env) && c.env == env && c.to in targets; }
      GoodEnvGrows(w, s, t, c.env);
    }
    forall p | p in t.net.log ensures GoodEnv(w, t, p.env) && p.node in w.net.peers {
      GoodEnvGrows(w, s, t, p.env);
    }
  }

  lemma TryLaunchKeeps(w: ChatWorld, s: System, e: ChatEvent)
    requires Sane(w) && SysInv(w, s) && e.Try? && Can(w, s, e) && Attempted(w, s, e.n, e.nonce, e.up).Launched?
    ensures SysInv(w, Do(w, s, e)) && Grows(s, Do(w, s, e))
  {
    var t := Do(w, s, e);
    var a := Attempted(w, s, e.n, e.nonce, e.up);
    LaunchIsGood(w, s, e);
    RowsSame(w, s, t);
    var mid := s.(wired := t.wired);
    RowsSame(w, s, mid);
    NetGoodGrows(w, s, mid);
    OriginateGood(w, mid, t, e.n, a.msg, a.targets);
    assert JobGood(w, s, e.n);
    forall n ensures JobGood(w, t, n) {
      if n != e.n { JobGoodGrows(w, s, t, n); }
    }
  }

  lemma PublishKeeps(w: ChatWorld, s: System, e: ChatEvent)
    requires Sane(w) && SysInv(w, s) && e.Publish? && Can(w, s, e)
    ensures SysInv(w, Do(w, s, e)) && Grows(s, Do(w, s, e))
  {
    var t := Do(w, s, e);
    RowsSame(w, s, t);
    OriginateGood(w, s, t, e.n, e.m, e.targets);
    forall n ensures JobGood(w, t, n) { JobGoodGrows(w, s, t, n); }
  }

  /** Delivering a copy keeps the network good, whatever the tables have grown to. */
  lemma DeliveredGood(w: ChatWorld, s: System, t: System, i: nat)
    requires Sane(w) && NetGood(w, s) && Grows(s, t) && i < |s.net.flight|
    requires t.net == AfterDelivery(w.net, s.net, i)
    ensures NetGood(w, t)
  {
    assert s.net.flight[i] in s.net.flight;
    forall c | c in t.net.flight ensures GoodEnv(w, t, c.env) && c.to in w.net.peers {
      FlightAfterDelivery(w.net, s.net, i, c);
      if c in s.net.flight {
        GoodEnvGrows(w, s, t, c.env);
      } else {
        SentOn(w.net, s.net, i, c);
        GoodEnvGrows(w, s, t, s.net.flight[i].env);
      }
    }
    LogAfterDelivery(w.net, s.net, i);
    forall p | p in t.net.log ensures GoodEnv(w, t, p.env) && p.node in w.net.peers {
      GoodEnvGrows(w, s, t, p.env);
    }
  }

  lemma QuietNetKeeps(w: ChatWorld, s: System, e: ChatEvent)
    requires Sane(w) && SysInv(w, s) && e.Network? && !e.e.Deliver? && Can(w, s, e)
    ensures SysInv(w, Do(w, s, e)) && Grows(s, Do(w, s, e))
  {
    var t := Do(w, s, e);
    RowsSame(w, s, t);
    forall c | c in t.net.flight ensures GoodEnv(w, t, c.env) && c.to in w.net.peers {
      if e.e.Lose? { RemoveKeeps(s.net.flight, e.e.i, c); }
      GoodEnvGrows(w, s, t, c.env);
    }
    forall p | p in t.net.log ensures GoodEnv(w, t, p.env) && p.node in w.net.peers {
      GoodEnvGrows(w, s, t, p.env);
    }
    forall n ensures JobGood(w, t, n) { JobGoodGrows(w, s, t, n); }
  }

  /** The receiver's table after a chat message: the letter is stored there. */
  lemma ReplyGood(w: ChatWorld, s: System, t: System, i: nat)
    requires Sane(w) && SysInv(w, s) && i < |s.net.flight| && s.net.flight[i].env.payload.message.Chat?
    requires t.letters == s.letters && t.wired == s.wired && t.tables == s.tables[s.net.flight[i].to := Reply(w, s, i).table]
    ensures Grows(s, t) && RowsGood(w, t)
    ensures var c := s.net.flight[i];
            Reply(w, s, i).ack.Some? <==> c.to == c.env.payload.message.receiverId
    ensures Reply(w, s, i).ack.Some? ==> s.net.flight[i].env.payload.message.msgId in Tab(t, s.net.flight[i].to)
  {
    var c := s.net.flight[i];
    var m := c.env.payload.message;
    assert c in s.net.flight && GoodEnv(w, s, c.env);
    if c.to == m.receiverId {
      var r :| m.ciphertext == w.suite.encrypt(KeyAt(w, c.to), s.letters[m.msgId].content, r);
      assert w.suite.decrypt(KeyAt(w, c.to), m.ciphertext) == Some(s.letters[m.msgId].content);
      if m.msgId in Tab(s, c.to) {
        RowsAgree(w, s, t);
      } else {
        Insertion(w, s, t, c.to, m.msgId,
                  Row(m.senderId, c.to, s.letters[m.msgId].content, w.suite.clock(s.net.now), Delivered));
      }
    } else {
      RowsAgree(w, s, t);
    }
  }

  lemma RowsAgree(w: ChatWorld, s: System, t: System)
    requires RowsGood(w, s) && t.letters == s.letters && s.wired <= t.wired && (forall n :: Tab(t, n) == Tab(s, n))
    ensures RowsGood(w, t) && Grows(s, t)
  {
    forall n, id ensures GoodRow(w, t, n, id) { assert GoodRow(w, s, n, id); }
  }

  /** The acknowledgement is one the network accepts, and it tells the truth. */
  lemma AckIsGood(w: ChatWorld, s: System, t: System, i: nat)
    requires Sane(w) && SysInv(w, s) && i < |s.net.flight| && s.net.flight[i].env.payload.message.Chat?
    requires t.letters == s.letters && t.wired == s.wired && t.tables == s.tables[s.net.flight[i].to := Reply(w, s, i).table]
    requires Reply(w, s, i).ack.Some?
    ensures var c := s.net.flight[i];
            var ack := Reply(w, s, i).ack.value;
            && c.to in w.net.peers && ack.nodeId == c.to && Accepts(w.net.crypto, ack)
            && GoodEnv(w, t, Envelope(ack, DEFAULT_TTL))
            && ack.message.ChatAck? && ack.message.ackerId == c.to
            && ack.message.targetId == c.env.payload.message.senderId
            && ack.message.ackedId == c.env.payload.message.msgId
  {
    var c := s.net.flight[i];
    ReplyGood(w, s, t, i);
    assert c in s.net.flight && GoodEnv(w, s, c.env);
    var ack := Reply(w, s, i).ack.value;
    MadeIsAccepted(w.net.crypto, w.suite, c.to, KeyAt(w, c.to), ack.message, s.net.now);
  }

  lemma JobsKept(w: ChatWorld, s: System, t: System)
    requires Grows(s, t) && (forall n :: JobGood(w, s, n)) && t.jobs == s.jobs
    ensures forall n :: JobGood(w, t, n)
  {
    forall n ensures JobGood(w, t, n) { JobGoodGrows(w, s, t, n); }
  }

  /** The state between the delivery of a chat message and the flood of its acknowledgement. */
  lemma ChatStored(w: ChatWorld, s: System, mid: System, i: nat)
    requires Sane(w) && SysInv(w, s) && i < |s.net.flight|
    requires ReactionTo(w.net, s.net, i).processed && s.net.flight[i].env.payload.message.Chat?
    requires mid == s.(tables := s.tables[s.net.flight[i].to := Reply(w, s, i).table], net := AfterDelivery(w.net, s.net, i))
    ensures SysInv(w, mid) && Grows(s, mid)
  {
    ReplyGood(w, s, mid, i);
    DeliveredGood(w, s, mid, i);
    JobsKept(w, s, mid);
  }

  lemma DeliverChatKeeps(w: ChatWorld, s: System, e: ChatEvent)
    requires Sane(w) && SysInv(w, s) && e.Network? && e.e.Deliver? && Can(w, s, e)
    requires ReactionTo(w.net, s.net, e.e.i).processed && s.net.flight[e.e.i].env.payload.message.Chat?
    ensures SysInv(w, Do(w, s, e)) && Grows(s, Do(w, s, e))
  {
    var t, i := Do(w, s, e), e.e.i;
    var mid := t.(net := AfterDelivery(w.net, s.net, i));
    ChatStored(w, s, mid, i);
    if Reply(w, s, i).ack.Some? {
      AckIsGood(w, s, mid, i);
      AckFloodKeeps(w, mid, t, s.net.flight[i].to, Reply(w, s, i).ack.value);
    } else {
      assert t == mid;
    }
  }

  /** Flooding a good message of one's own changes nothing else. */
  lemma AckFloodKeeps(w: ChatWorld, s: System, t: System, n: NodeId, m: Signed)
    requires Sane(w) && SysInv(w, s) && n in w.net.peers && m.nodeId == n && Accepts(w.net.crypto, m)
    requires GoodEnv(w, s, Envelope(m, DEFAULT_TTL))
    requires t == s.(net := Step(w.net, s.net, Originate(n, m, PeersOf(w.net, n))))
    ensures SysInv(w, t) && Grows(s, t)
  {
    RowsSame(w, s, t);
    OriginateGood(w, s, t, n, m, PeersOf(w.net, n));
    JobsKept(w, s, t);
  }

  lemma DeliverAckKeeps(w: ChatWorld, s: System, e: ChatEvent)
    requires Sane(w) && SysInv(w, s) && e.Network? && e.e.Deliver? && Can(w, s, e)
    requires ReactionTo(w.net, s.net, e.e.i).processed && s.net.flight[e.e.i].env.payload.message.ChatAck?
    ensures SysInv(w, Do(w, s, e)) && Grows(s, Do(w, s, e))
  {
    var t, c := Do(w, s, e), s.net.flight[e.e.i];
    var m := c.env.payload.message;
    assert c in s.net.flight && GoodEnv(w, s, c.env);
    if m.targetId == c.to {
      StatusChange(w, s, t, c.to, m.ackedId, Delivered);
    } else {
      RowsAgree(w, s, t);
    }
    DeliveredGood(w, s, t, e.e.i);
    forall n ensures JobGood(w, t, n) { JobGoodGrows(w, s, t, n); }
  }

  lemma DeliverOtherKeeps(w: ChatWorld, s: System, e: ChatEvent)
    requires Sane(w) && SysInv(w, s) && e.Network? && e.e.Deliver? && Can(w, s, e)
    requires var m := s.net.flight[e.e.i].env.payload.message;
             ReactionTo(w.net, s.net, e.e.i).processed ==> !m.Chat? && !m.ChatAck?
    ensures SysInv(w, Do(w, s, e)) && Grows(s, Do(w, s, e))
  {
    var t := Do(w, s, e);
    RowsSame(w, s, t);
    DeliveredGood(w, s, t, e.e.i);
    forall n ensures JobGood(w, t, n) { JobGoodGrows(w, s, t, n); }
  }

  lemma SysInvStep(w: ChatWorld, s: System, e: ChatEvent)
    requires Sane(w) && SysInv(w, s) && Can(w, s, e)
    ensures SysInv(w, Do(w, s, e)) && Grows(s, Do(w, s, e))
  {
    match e
    case Submit(_, _, _, _) => SubmitKeeps(w, s, e);
    case Load(_, _) => LoadKeeps(w, s, e);
    case Try(n, nonce, up) =>
      if Attempted(w, s, n, nonce, up).Launched? { TryLaunchKeeps(w, s, e); } else { TryUnsentKeeps(w, s, e); }
    case Mark(_) => MarkKeeps(w, s, e);
    case Publish(_, _, _) => PublishKeeps(w, s, e);
    case Network(x) =>
      if !x.Deliver? { QuietNetKeeps(w, s, e); }
      else if ReactionTo(w.net, s.net, x.i).processed && s.net.flight[x.i].env.payload.message.Chat? { DeliverChatKeeps(w, s, e); }
      else if ReactionTo(w.net, s.net, x.i).processed && s.net.flight[x.i].env.payload.message.ChatAck? { DeliverAckKeeps(w, s, e); }
      else { DeliverOtherKeeps(w, s, e); }
  }

  lemma {:induction false} SysInvHolds(w: ChatWorld, evs: seq<ChatEvent>)
    requires Sane(w) && Possible(w, evs)
    ensures SysInv(w, After(w, evs))
    decreases |evs|
  {
    if evs != [] {
      SysInvHolds(w, evs[..|evs| - 1]);
      SysInvStep(w, After(w, evs[..|evs| - 1]), evs[|evs| - 1]);
    }
  }

  // ---------- safety ----------

  /** How a row's status may change in one step. */
  predicate StatusMove(old_: Status, new_: Status) {
    match old_
    case Sending => true
    case Sent => new_ == Sent || new_ == Delivered
    case Delivered => new_ == Delivered || new_ == Sent
    case Failed => new_ == Failed
  }

  lemma UpdateMove(w: ChatWorld, s: System, n: NodeId, id: Bytes, status: Status)
    requires RowsGood(w, s) && id in s.letters
    requires status == Sent || status == Delivered ==> w.suite.validId(s.letters[id].receiver)
    requires status == Failed ==> !w.suite.validId(s.letters[id].receiver)
    requires status != Sending && id in Tab(s, n)
    ensures StatusMove(Tab(s, n)[id].status, status)
  {
    assert GoodRow(w, s, n, id);
  }

  /** One step of the system never deletes a row, changes only its status, and moves that only as `StatusMove` allows. */
  lemma RowStep(w: ChatWorld, s: System, e: ChatEvent, n: NodeId, id: Bytes)
    requires Sane(w) && SysInv(w, s) && Can(w, s, e) && id in Tab(s, n)
    ensures var t := Do(w, s, e);
            && id in Tab(t, n)
            && Tab(t, n)[id] == Tab(s, n)[id].(status := Tab(t, n)[id].status)
            && StatusMove(Tab(s, n)[id].status, Tab(t, n)[id].status)
  {
    match e
    case Try(m, nonce, up) => RowStepTry(w, s, e, n, id);
    case Mark(m) =>
      assert JobGood(w, s, m);
      if m == n && JobAt(s, m).id == id { UpdateMove(w, s, n, id, Sent); }
    case Network(x) => RowStepNetwork(w, s, e, n, id);
    case _ => assert GoodRow(w, s, n, id);
  }

  /** The tables after a delivery. */
  lemma TableAfterDelivery(w: ChatWorld, s: System, i: nat, n: NodeId)
    requires i < |s.net.flight|
    ensures var c := s.net.flight[i];
            var m := c.env.payload.message;
            Tab(DeliverTo(w, s, i), n) ==
              if n != c.to || !ReactionTo(w.net, s.net, i).processed then Tab(s, n)
              else if m.Chat? then Reply(w, s, i).table
              else if m.ChatAck? then OnAck(n, Tab(s, n), m)
              else Tab(s, n)
  {
  }

  /** The row is there after the step, with at most its status moved. */
  ghost predicate RowMoved(s: System, t: System, n: NodeId, id: Bytes) {
    && id in Tab(s, n) && id in Tab(t, n)
    && Tab(t, n)[id] == Tab(s, n)[id].(status := Tab(t, n)[id].status)
    && StatusMove(Tab(s, n)[id].status, Tab(t, n)[id].status)
  }

  lemma RowStepTry(w: ChatWorld, s: System, e: ChatEvent, n: NodeId, id: Bytes)
    requires Sane(w) && SysInv(w, s) && Can(w, s, e) && e.Try? && id in Tab(s, n)
    ensures RowMoved(s, Do(w, s, e), n, id)
  {
    var Try(m, nonce, up) := e;
    assert JobGood(w, s, m);
    if Attempted(w, s, m, nonce, up).Invalid? && m == n && JobAt(s, m).rows[0].0 == id { UpdateMove(w, s, n, id, Failed); }
  }

  lemma RowStepNetwork(w: ChatWorld, s: System, e: ChatEvent, n: NodeId, id: Bytes)
    requires Sane(w) && SysInv(w, s) && Can(w, s, e) && e.Network? && id in Tab(s, n)
    ensures RowMoved(s, Do(w, s, e), n, id)
  {
    if e.e.Deliver? {
      var c := s.net.flight[e.e.i];
      assert c in s.net.flight && GoodEnv(w, s, c.env);
      TableAfterDelivery(w, s, e.e.i, n);
      var m := c.env.payload.message;
      if m.ChatAck? && c.to == n && m.targetId == n && m.ackedId == id { UpdateMove(w, s, n, id, Delivered); }
    }
  }

  /** `e` has node `n` process an acknowledgement of `id` that is addressed to it. */
  ghost predicate Acks(w: ChatWorld, s: System, e: ChatEvent, n: NodeId, id: Bytes)
    requires Can(w, s, e)
  {
    e.Network? && e.e.Deliver? &&
    var c := s.net.flight[e.e.i];
    var m := c.env.payload.message;
    ReactionTo(w.net, s.net, e.e.i).processed && c.to == n && m.ChatAck? && m.targetId == n && m.ackedId == id
  }

  /** `e` is the sender loop's mark of `id` at `n`, a step of its own after the send. */
  predicate Marks(s: System, e: ChatEvent, n: NodeId, id: Bytes) {
    e == Mark(n) && JobAt(s, n).Marking? && JobAt(s, n).id == id
  }

  /** A row is delivered after a step exactly if the step acknowledges it, or it was and the step does not mark it sent. */
  lemma DeliveredStep(w: ChatWorld, s: System, e: ChatEvent, n: NodeId, id: Bytes)
    requires Sane(w) && SysInv(w, s) && Can(w, s, e) && id in Tab(s, n)
    ensures id in Tab(Do(w, s, e), n)
    ensures Tab(Do(w, s, e), n)[id].status == Delivered
       <==> Acks(w, s, e, n, id) || (Tab(s, n)[id].status == Delivered && !Marks(s, e, n, id))
    ensures Tab(s, n)[id].status == Delivered ==> (Tab(Do(w, s, e), n)[id].status == Sent <==> Marks(s, e, n, id))
  {
    match e
    case Try(m, nonce, up) => DeliveredTry(w, s, e, n, id);
    case Network(x) =>
      if x.Deliver? { TableAfterDelivery(w, s, x.i, n); }
    case _ => assert GoodRow(w, s, n, id);
  }

  lemma DeliveredTry(w: ChatWorld, s: System, e: ChatEvent, n: NodeId, id: Bytes)
    requires Sane(w) && SysInv(w, s) && Can(w, s, e) && e.Try? && id in Tab(s, n)
    ensures id in Tab(Do(w, s, e), n)
    ensures Tab(Do(w, s, e), n)[id].status == Delivered <==> Tab(s, n)[id].status == Delivered
    ensures Tab(Do(w, s, e), n)[id].status == Sent <==> Tab(s, n)[id].status == Sent
  {
    RowStepTry(w, s, e, n, id);
    assert GoodRow(w, s, n, id) && JobGood(w, s, e.n);
  }

  /** A sequence of statuses a row may go through. */
  ghost predicate Reaches(old_: Status, new_: Status) {
    && (old_ == Failed ==> new_ == Failed)
    && (new_ == Sending ==> old_ == Sending)
    && (old_ == Sent || old_ == Delivered ==> new_ == Sent || new_ == Delivered)
  }

  /**
   Over whole runs: a row, once there, stays, with its addresses, text and time; a failed row stays
   failed, no row returns to sending, and a row that was sent or delivered is sent or delivered for good.
   */
  lemma {:induction false} RowsOverRuns(w: ChatWorld, evs: seq<ChatEvent>, k: nat, n: NodeId, id: Bytes)
    requires Sane(w) && Possible(w, evs) && k <= |evs|
    requires Possible(w, evs[..k]) && id in Tab(After(w, evs[..k]), n)
    ensures var old_, new_ := Tab(After(w, evs[..k]), n), Tab(After(w, evs), n);
            && id in new_ && new_[id] == old_[id].(status := new_[id].status)
            && Reaches(old_[id].status, new_[id].status)
    decreases |evs|
  {
    if k == |evs| {
      assert evs[..k] == evs;
    } else {
      var init := evs[..|evs| - 1];
      assert init[..k] == evs[..k];
      RowsOverRuns(w, init, k, n, id);
      SysInvHolds(w, init);
      RowStep(w, After(w, init), evs[|evs| - 1], n, id);
    }
  }

  /**
   In every run, with retries, losses and duplicates: a row at any node is a submitted letter, at its
   sender or receiver, with the original text; if the sender's says delivered, the receiver has
   stored the letter; if it says failed, no message with this id was ever put on the wire.
   */
  lemma ChatSafety(w: ChatWorld, evs: seq<ChatEvent>, n: NodeId, id: Bytes)
    requires Sane(w) && Possible(w, evs) && id in Tab(After(w, evs), n)
    ensures var s := After(w, evs);
            && id in s.letters
            && var l, row := s.letters[id], Tab(s, n)[id];
            && (n == l.sender || (n == l.receiver && row.status == Delivered))
            && row.sender == l.sender && row.receiver == l.receiver && row.content == l.content
            && (n == l.sender && row.status == Delivered ==>
                  id in Tab(s, l.receiver) && Tab(s, l.receiver)[id].content == l.content)
            && (row.status == Failed ==> id !in s.wired)
    ensures var s := After(w, evs);
            forall c :: c in s.net.flight && c.env.payload.message.Chat? ==> c.env.payload.message.msgId in s.wired
  {
    SysInvHolds(w, evs);
    var s := After(w, evs);
    assert GoodRow(w, s, n, id);
    assert GoodRow(w, s, s.letters[id].receiver, id);
    forall c | c in s.net.flight && c.env.payload.message.Chat?
      ensures c.env.payload.message.msgId in s.wired
    {
      assert GoodEnv(w, s, c.env);
    }
  }
}
