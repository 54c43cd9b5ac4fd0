/**
 The gossip service of one node (src/gossip/service.rs): the handler of incoming data, the periodic
 broadcaster and the cleanup of the dedup map. What it does with a message is `Gossip.Receive`, the
 function the network model steps by.
 */
module GossipServiceModule {
  import opened Common
  import opened Printer
  import opened Messages
  import opened Hashing
  import opened Gossip
  import opened Chat
  import opened Storage
  import opened Reconcile
  import opened Reconciliation

  /** The sends that links which are up take. */
  function Posted(sends: seq<(NodeId, Envelope)>, up: set<NodeId>): seq<(NodeId, Envelope)> {
    if sends == [] then []
    else if sends[0].0 in up then [sends[0]] + Posted(sends[1..], up)
    else Posted(sends[1..], up)
  }

  lemma {:induction false} PostedAppend(xs: seq<(NodeId, Envelope)>, x: (NodeId, Envelope), up: set<NodeId>)
    ensures Posted(xs + [x], up) == Posted(xs, up) + (if x.0 in up then [x] else [])
  {
    if xs == [] {
      assert xs + [x] == [x];
    } else {
      assert (xs + [x])[1..] == xs[1..] + [x];
      PostedAppend(xs[1..], x, up);
    }
  }

  lemma {:induction false} ForwardAppend(peers: seq<NodeId>, q: NodeId, from: NodeId, env: Envelope)
    ensures Forward(peers + [q], from, env) == Forward(peers, from, env) + (if q == from then [] else [(q, env)])
  {
    if peers == [] {
      assert peers + [q] == [q];
    } else {
      assert (peers + [q])[1..] == peers[1..] + [q];
      ForwardAppend(peers[1..], q, from, env);
    }
  }

  /** One peer further in the forwarding loop. */
  lemma PostedForwardStep(peers: seq<NodeId>, i: nat, from: NodeId, env: Envelope, up: set<NodeId>)
    requires i < |peers|
    ensures Posted(Forward(peers[..i + 1], from, env), up)
         == Posted(Forward(peers[..i], from, env), up) + (if peers[i] != from && peers[i] in up then [(peers[i], env)] else [])
  {
    assert peers[..i + 1] == peers[..i] + [peers[i]];
    ForwardAppend(peers[..i], peers[i], from, env);
    if peers[i] != from {
      PostedAppend(Forward(peers[..i], from, env), (peers[i], env), up);
    } else {
      assert Forward(peers[..i + 1], from, env) == Forward(peers[..i], from, env);
    }
  }

  /** The acknowledgement mail that processing a message causes. */
  function AckMail(c: Crypto, x: Suite, me: NodeId, key: Key, t: Table, peers: seq<NodeId>, up: set<NodeId>,
                   m: GossipMessage, now: int): seq<(NodeId, Envelope)> {
    if m.Chat? then
      match OnChat(c, x, me, key, t, m, now).ack
      case Some(ack) => Posts(Reached(peers, up), Envelope(ack, DEFAULT_TTL))
      case None => []
    else []
  }

  function RowsAfter(c: Crypto, x: Suite, me: NodeId, key: Key, t: Table, m: GossipMessage, now: int): Table {
    match m
    case Chat(_, _, _, _) => OnChat(c, x, me, key, t, m, now).table
    case ChatAck(_, _, _, _, _) => OnAck(me, t, m)
    case _ => t
  }

  function DiskAfter(heads: Heads, d: Disk, m: GossipMessage, now: int): Disk {
    match m
    case RepoAnnouncement(_, repos) => ReconcileAll(heads, d, repos, now)
    case _ => d
  }

  /** A row of the table `nodes`; the addresses are JSON text. */
  datatype NodeRow = NodeRow(alias: Bytes, addresses: Bytes, nodeType: int, version: int, createdAt: I64, updatedAt: I64)

  /** The node table after a message: an announcement replaces the node's row, creation time included. */
  function NodesAfter(nodes: map<NodeId, NodeRow>, m: GossipMessage, at: I64): map<NodeId, NodeRow> {
    match m
    case NodeAnnouncement(node, version, alias, nodeType, addresses) =>
      nodes[node := NodeRow(alias, Print(Strings(addresses)), if nodeType.Normal? then 0 else 1, version, at, at)]
    case _ => nodes
  }

  class GossipService {
    const hash: Bytes -> Bytes
    const parseEnvelope: Bytes -> Option<Envelope>
    const parseSigned: Bytes -> Option<Signed>
    const heads: Heads
    const store: Store
    const chat: ChatService                   // also holds the node's identity and its connections
    var seen: map<Bytes, int>
    var nodes: map<NodeId, NodeRow>           // table `nodes`

    constructor (hash: Bytes -> Bytes, parseEnvelope: Bytes -> Option<Envelope>, parseSigned: Bytes -> Option<Signed>,
                 heads: Heads, store: Store, chat: ChatService)
      ensures this.hash == hash && this.parseEnvelope == parseEnvelope && this.parseSigned == parseSigned
      ensures this.heads == heads && this.store == store && this.chat == chat
      ensures seen == map[] && nodes == map[]
    {
      this.hash, this.parseEnvelope, this.parseSigned := hash, parseEnvelope, parseSigned;
      this.heads, this.store, this.chat := heads, store, chat;
      seen, nodes := map[], map[];
    }

    /** What the data parses to: an envelope, or a bare signed message with the default ttl. */
    function Parse(data: Bytes): (r: Option<Envelope>)
      ensures forall env :: r == Some(env) <==>
                parseEnvelope(data) == Some(env)
                || (parseEnvelope(data).None? && parseSigned(data) == Some(env.payload) && env.ttl == 16)
    {
      match parseEnvelope(data)
      case Some(env) => Some(env)
      case None =>
        match parseSigned(data)
        case Some(m) => Some(Envelope(m, DEFAULT_TTL))
        case None => None
    }

    /** The checks of signature and payload sender, in the order of the source. */
    method Verify(m: Signed, id: Bytes) returns (ok: bool)
      requires id == chat.crypto.digest(m)
      ensures ok <==> Accepts(chat.crypto, m)
    {
      var kp := chat.crypto.keyOf(m.nodeId);
      if kp.Some? {
        var sigBytes := SignatureBytes(chat.crypto, m);
        if |sigBytes| != 64 { return false; }
        if !chat.crypto.verify(kp.value, id, sigBytes) { return false; }
      }
      if m.nodeId != Sender(m.message) { return false; }
      return true;
    }

    /** Deduplication, which comes first and records the id whatever follows, then verification. */
    method Admit(signed: Signed, now: int) returns (ok: bool)
      requires DigestsHash(chat.crypto, hash)
      modifies this`seen
      ensures var id := chat.crypto.digest(signed);
              && (ok <==> id !in old(seen) && Accepts(chat.crypto, signed))
              && seen == if id in old(seen) then old(seen) else old(seen)[id := now]
    {
      var id := SelfHash(hash, signed);
      assert id == chat.crypto.digest(signed);
      if id in seen { return false; }
      seen := seen[id := now];
      ok := Verify(signed, id);
    }

    /** Dispatch on the kind of message. */
    method Process(m: GossipMessage, now: int)
      modifies this`nodes, chat`rows, chat`outbox, store
      ensures store.Value() == DiskAfter(heads, old(store.Value()), m, now)
      ensures chat.rows == RowsAfter(chat.crypto, chat.suite, chat.me, chat.key, old(chat.rows), m, now)
      ensures chat.outbox == old(chat.outbox) + AckMail(chat.crypto, chat.suite, chat.me, chat.key, old(chat.rows),
                          chat.peers, chat.up, m, now)
      ensures nodes == NodesAfter(old(nodes), m, chat.suite.clock(now))
    {
      match m
      case NodeAnnouncement(_, _, _, _, _) => SaveNodeInfo(m, now);
      case RepoAnnouncement(_, repos) => HandleRepoAnnouncement(heads, store, repos, now);
      case Chat(_, _, _, _) => chat.ProcessIncomingChat(m, now);
      case ChatAck(_, _, _, _, _) => chat.ProcessAck(m);
    }

    /** Delete the node's row, if there is one, and insert the announced one. */
    method SaveNodeInfo(m: GossipMessage, now: int)
      requires m.NodeAnnouncement?
      modifies this`nodes
      ensures nodes == NodesAfter(old(nodes), m, chat.suite.clock(now))
    {
      var at := chat.suite.clock(now);
      nodes := nodes - {m.node};
      var nodeTypeInt := if m.nodeType.Normal? then 0 else 1;
      nodes := nodes[m.node := NodeRow(m.alias, Print(Strings(m.addresses)), nodeTypeInt, m.version, at, at)];
    }

    /** The forwarding loop. */
    method ForwardToPeers(from: NodeId, env: Envelope)
      modifies chat`outbox
      ensures chat.outbox == old(chat.outbox) + Posted(Forward(chat.peers, from, env), chat.up)
    {
      ghost var before := chat.outbox;
      for i := 0 to |chat.peers|
        invariant chat.outbox == before + Posted(Forward(chat.peers[..i], from, env), chat.up)
      {
        PostedForwardStep(chat.peers, i, from, env, chat.up);
        if chat.peers[i] == from { continue; }
        var ok := chat.SendGossipMessage(chat.peers[i], env);
      }
      assert chat.peers[..|chat.peers|] == chat.peers;
    }

    /** `handle_incoming`. */
    method HandleIncoming(from: NodeId, data: Bytes, now: int)
      requires DigestsHash(chat.crypto, hash)
      modifies this`seen, this`nodes, chat`rows, chat`outbox, store
      ensures Parse(data).None? ==>
                seen == old(seen) && nodes == old(nodes) && store.Value() == old(store.Value())
                && chat.rows == old(chat.rows) && chat.outbox == old(chat.outbox)
      ensures Parse(data).Some? ==>
                var m := Parse(data).value.payload.message;
                var r := Receive(chat.crypto, chat.peers, old(seen), from, Parse(data).value, now);
                && seen == r.seen
                && store.Value() == (if r.processed then DiskAfter(heads, old(store.Value()), m, now) else old(store.Value()))
                && chat.rows == (if r.processed
                     then RowsAfter(chat.crypto, chat.suite, chat.me, chat.key, old(chat.rows), m, now) else old(chat.rows))
                && chat.outbox == old(chat.outbox)
                     + (if r.processed
                        then AckMail(chat.crypto, chat.suite, chat.me, chat.key, old(chat.rows),
                          chat.peers, chat.up, m, now) else [])
                     + Posted(r.sends, chat.up)
                && nodes == (if r.processed then NodesAfter(old(nodes), m, chat.suite.clock(now)) else old(nodes))
    {
      var parsed := Parse(data);
      if parsed.None? { return; }
      var signed, ttl := parsed.value.payload, parsed.value.ttl;
      var admitted := Admit(signed, now);
      if !admitted { return; }
      ProcessAndForward(from, Envelope(signed, ttl), now);
    }

    /** What follows a successful verification. */
    method ProcessAndForward(from: NodeId, env: Envelope, now: int)
      modifies this`nodes, chat`rows, chat`outbox, store
      ensures var m := env.payload.message;
              && store.Value() == DiskAfter(heads, old(store.Value()), m, now)
              && chat.rows == RowsAfter(chat.crypto, chat.suite, chat.me, chat.key, old(chat.rows), m, now)
              && nodes == NodesAfter(old(nodes), m, chat.suite.clock(now))
      ensures chat.outbox == old(chat.outbox)
                + AckMail(chat.crypto, chat.suite, chat.me, chat.key, old(chat.rows),
                          chat.peers, chat.up, env.payload.message, now)
                + Posted(if env.ttl > 0 then Forward(chat.peers, from, env.(ttl := env.ttl - 1)) else [], chat.up)
    {
      Process(env.payload.message, now);
      if env.ttl > 0 {
        ForwardToPeers(from, env.(ttl := env.ttl - 1));
      }
    }

    /** The body of the cleanup task. */
    method CleanupSeen(now: int)
      modifies this`seen
      ensures seen == Expire(old(seen), now)
      ensures forall id :: id in seen ==> now - seen[id] < DEDUP_WINDOW
    {
      seen := map id | id in seen && seen[id] + DEDUP_WINDOW > now :: seen[id];
    }

    /** `new_repo_sign_message`: paths and bundles cleared, then hashed with an empty signature and signed. */
    method NewRepoSignMessage(all: seq<Repo>, now: int) returns (m: Signed)
      ensures m == MakeSigned(chat.crypto, chat.suite, chat.me, chat.key, RepoAnnouncement(chat.me, AnnouncedAll(all)), now)
    {
      var cleared: seq<Repo> := [];
      for i := 0 to |all|
        invariant |cleared| == i && forall j :: 0 <= j < i ==> cleared[j] == Announced(all[j])
      {
        cleared := cleared + [all[i].(path := "", bundle := "")];
      }
      assert cleared == AnnouncedAll(all);
      m := Signed(chat.me, RepoAnnouncement(chat.me, cleared), chat.suite.clock(now), "");
      m := m.(signature := chat.suite.sign(chat.key, chat.crypto.digest(m)));
    }

    /** One round of the broadcaster: an announcement of the node, and one of its repositories if there are any. */
    method BroadcastTick(self_: GossipMessage, now: int) returns (ghost announced: seq<Repo>)
      requires self_.NodeAnnouncement? && self_.node == chat.me
      modifies chat`outbox
      ensures Honest(announced) && (announced == [] <==> store.repos == map[])
      ensures forall r :: r in announced ==>
                r.path == "" && exists s :: LoadRepo(store.Value(), r.repoId) == Some(s) && r == s.(path := "", bundle := "")
      ensures forall id :: id in store.repos ==> exists r :: r in announced && r.repoId == id
      ensures chat.outbox == old(chat.outbox)
                + Posts(Reached(chat.peers, chat.up),
                        Envelope(MakeSigned(chat.crypto, chat.suite, chat.me, chat.key, self_, now), DEFAULT_TTL))
                + (if announced == [] then [] else
                   Posts(Reached(chat.peers, chat.up),
                         Envelope(MakeSigned(chat.crypto, chat.suite, chat.me, chat.key,
                                             RepoAnnouncement(chat.me, announced), now), DEFAULT_TTL)))
    {
      var any := chat.Broadcast(Envelope(MakeSigned(chat.crypto, chat.suite, chat.me, chat.key, self_, now), DEFAULT_TTL));
      var all := store.ListRepos();
      announced := AnnouncedAll(all);
      OwnAnnouncementsAreHonest(all);
      AnnouncesNothingIfEmpty(store.Value(), all);
      forall r | r in announced
        ensures r.path == "" && exists s :: LoadRepo(store.Value(), r.repoId) == Some(s) && r == s.(path := "", bundle := "")
      {
        AnnouncesOnlyStored(store.Value(), all, r);
      }
      forall id | id in store.repos
        ensures exists r :: r in announced && r.repoId == id
      {
        AnnouncesAllStored(store.Value(), all, id);
      }
      if |all| != 0 {
        var m := NewRepoSignMessage(all, now);
        any := chat.Broadcast(Envelope(m, DEFAULT_TTL));
      }
    }
  }

  /** The announcement of a full listing leaves no repository out. */
  lemma AnnouncesAllStored(d: Disk, all: seq<Repo>, id: Bytes)
    requires id in d.repos
    requires forall x :: x in d.repos ==> exists i :: 0 <= i < |all| && all[i].repoId == x
    ensures exists r :: r in AnnouncedAll(all) && r.repoId == id
  {
    var i :| 0 <= i < |all| && all[i].repoId == id;
    assert AnnouncedAll(all)[i] in AnnouncedAll(all);
  }

  /** The announcement of a listing has only stored repositories, with path and bundle cleared. */
  lemma AnnouncesOnlyStored(d: Disk, all: seq<Repo>, r: Repo)
    requires forall i :: 0 <= i < |all| ==> LoadRepo(d, all[i].repoId) == Some(all[i])
    requires r in AnnouncedAll(all)
    ensures r.path == "" && exists s :: LoadRepo(d, r.repoId) == Some(s) && r == s.(path := "", bundle := "")
  {
    var i :| 0 <= i < |all| && AnnouncedAll(all)[i] == r;
    assert LoadRepo(d, r.repoId) == Some(all[i]) && r == all[i].(path := "", bundle := "");
  }

  lemma AnnouncesNothingIfEmpty(d: Disk, all: seq<Repo>)
    requires forall i :: 0 <= i < |all| ==> LoadRepo(d, all[i].repoId) == Some(all[i])
    requires forall x :: x in d.repos ==> exists i :: 0 <= i < |all| && all[i].repoId == x
    ensures AnnouncedAll(all) == [] <==> d.repos == map[]
  {
    if all != [] {
      assert all[0].repoId in d.repos;
    } else {
      forall id ensures id !in d.repos {}
    }
  }
}
