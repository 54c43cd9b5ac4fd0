/**
 Gossip messages, their JSON form, and the signed preimage (src/gossip/message.rs, src/repo/repo.rs).

 `refs` is a hash map, so serializing a message lists its entries in an order nothing fixes.
 `orders` gives that order, one enumeration per repository; every statement holds for all of them.
 */
module Messages {
  import opened Common
  import opened Json

  datatype NodeType = Normal | Relay

  datatype P2PDescription = P2PDescription(
    creator: Bytes, name: Bytes, description: Bytes, language: Bytes, latestCommitAt: I64, size: U64)

  datatype Repo = Repo(
    repoId: Bytes, refs: map<Bytes, Bytes>, desc: P2PDescription, path: Bytes, isExternal: bool, bundle: Bytes)

  datatype GossipMessage =
    | NodeAnnouncement(node: NodeId, version: U8, alias: Bytes, nodeType: NodeType, addresses: seq<Bytes>)
    | RepoAnnouncement(owner: NodeId, repos: seq<Repo>)
    | Chat(senderId: NodeId, receiverId: NodeId, msgId: Bytes, ciphertext: seq<U8>)
    | ChatAck(ackerId: NodeId, targetId: NodeId, ackedId: Bytes, ackedAt: I64, ackSignature: Bytes)

  datatype Signed = Signed(nodeId: NodeId, message: GossipMessage, timestamp: I64, signature: Bytes)

  datatype Envelope = Envelope(payload: Signed, ttl: U8)

  const DEFAULT_TTL: U8 := 16

  function Sender(m: GossipMessage): NodeId {
    match m
    case NodeAnnouncement(node, _, _, _, _) => node
    case RepoAnnouncement(owner, _) => owner
    case Chat(sender, _, _, _) => sender
    case ChatAck(acker, _, _, _, _) => acker
  }

  // ---------- JSON form ----------

  type Order = seq<(Bytes, Bytes)>

  ghost predicate OrdersFor(m: GossipMessage, orders: seq<Order>) {
    m.RepoAnnouncement? ==>
      |orders| == |m.repos| && forall i :: 0 <= i < |orders| ==> Enumerates(orders[i], m.repos[i].refs)
  }

  function Strings(xs: seq<Bytes>): Value { Arr(seq(|xs|, i requires 0 <= i < |xs| => Str(xs[i]))) }

  function Octets(xs: seq<U8>): Value { Arr(seq(|xs|, i requires 0 <= i < |xs| => Num(xs[i]))) }

  function RefsJson(order: Order): Value {
    Obj(seq(|order|, i requires 0 <= i < |order| => (order[i].0, Str(order[i].1))))
  }

  function DescJson(d: P2PDescription): Value {
    Obj([("creator", Str(d.creator)), ("name", Str(d.name)), ("description", Str(d.description)),
         ("language", Str(d.language)), ("latest_commit_at", Num(d.latestCommitAt)), ("size", Num(d.size))])
  }

  function RepoJson(r: Repo, order: Order): Value {
    Obj([("repo_id", Str(r.repoId)), ("refs", RefsJson(order)), ("p2p_description", DescJson(r.desc)),
         ("path", Str(r.path)), ("is_external", Bool(r.isExternal)), ("bundle", Str(r.bundle))])
  }

  function ReposJson(repos: seq<Repo>, orders: seq<Order>): Value
    requires |repos| == |orders|
  {
    Arr(seq(|repos|, i requires 0 <= i < |repos| => RepoJson(repos[i], orders[i])))
  }

  function NodeTypeName(t: NodeType): Bytes { if t.Normal? then "Normal" else "Relay" }

  function Tag(m: GossipMessage): Bytes {
    match m
    case NodeAnnouncement(_, _, _, _, _) => "NodeAnnouncement"
    case RepoAnnouncement(_, _) => "RepoAnnouncement"
    case Chat(_, _, _, _) => "Chat"
    case ChatAck(_, _, _, _, _) => "ChatAck"
  }

  function BodyJson(m: GossipMessage, orders: seq<Order>): Value
    requires OrdersFor(m, orders)
  {
    match m
    case NodeAnnouncement(node, version, alias, nodeType, addresses) =>
      Obj([("node_id", Str(node)), ("version", Num(version)), ("alias", Str(alias)),
           ("node_type", Str(NodeTypeName(nodeType))), ("addresses", Strings(addresses))])
    case RepoAnnouncement(owner, repos) =>
      Obj([("node_id", Str(owner)), ("repos", ReposJson(repos, orders))])
    case Chat(sender, receiver, id, ciphertext) =>
      Obj([("sender_id", Str(sender)), ("receiver_id", Str(receiver)), ("msg_id", Str(id)),
           ("ciphertext", Octets(ciphertext))])
    case ChatAck(acker, target, id, at, signature) =>
      Obj([("sender_id", Str(acker)), ("target_id", Str(target)), ("msg_id", Str(id)),
           ("timestamp", Num(at)), ("signature", Str(signature))])
  }

  /** An enum serializes as one object entry: the variant's name and its fields. */
  function ToJson(m: GossipMessage, orders: seq<Order>): Value
    requires OrdersFor(m, orders)
  {
    Obj([(Tag(m), BodyJson(m, orders))])
  }

  // ---------- the JSON form is well formed ----------

  lemma DescWellFormed(d: P2PDescription)
    ensures WellFormed(DescJson(d))
  {
    assert "name"[0] != "size"[0];
  }

  lemma RepoWellFormed(r: Repo, order: Order)
    requires Enumerates(order, r.refs)
    ensures WellFormed(RepoJson(r, order))
  {
    DescWellFormed(r.desc);
    assert WellFormed(RefsJson(order));
    assert "refs"[0] != "path"[0];
  }

  lemma BodyWellFormed(m: GossipMessage, orders: seq<Order>)
    requires OrdersFor(m, orders)
    ensures WellFormed(BodyJson(m, orders))
  {
    match m
    case NodeAnnouncement(_, _, _, _, addresses) =>
      assert WellFormed(Strings(addresses));
      assert "node_type"[0] != "addresses"[0];
    case RepoAnnouncement(_, repos) =>
      forall i | 0 <= i < |repos| ensures WellFormed(RepoJson(repos[i], orders[i])) {
        RepoWellFormed(repos[i], orders[i]);
      }
      assert WellFormed(ReposJson(repos, orders));
    case Chat(_, _, _, ciphertext) =>
      assert WellFormed(Octets(ciphertext));
    case ChatAck(_, _, _, _, _) =>
      assert "sender_id"[0] != "target_id"[0];
      assert "sender_id"[1] != "signature"[1];
      assert "target_id"[0] != "timestamp"[0] || "target_id"[1] != "timestamp"[1];
      assert "target_id"[0] != "signature"[0];
      assert "timestamp"[0] != "signature"[0];
  }

  lemma JsonWellFormed(m: GossipMessage, orders: seq<Order>)
    requires OrdersFor(m, orders)
    ensures WellFormed(ToJson(m, orders))
  {
    BodyWellFormed(m, orders);
  }

  // ---------- the JSON form determines the message, whatever the order ----------

  lemma FieldEquiv(xs: seq<Entry>, ys: seq<Entry>, i: nat)
    requires Equiv(Obj(xs), Obj(ys)) && i < |xs| && i < |ys| && xs[i].0 == ys[i].0
    ensures Equiv(xs[i].1, ys[i].1)
  {
  }

  lemma StringsInjective(xs: seq<Bytes>, ys: seq<Bytes>)
    requires Equiv(Strings(xs), Strings(ys))
    ensures xs == ys
  {
    forall i | 0 <= i < |xs| ensures xs[i] == ys[i] {
      assert Equiv(Strings(xs).items[i], Strings(ys).items[i]);
    }
  }

  lemma OctetsInjective(xs: seq<U8>, ys: seq<U8>)
    requires Equiv(Octets(xs), Octets(ys))
    ensures xs == ys
  {
    forall i | 0 <= i < |xs| ensures xs[i] == ys[i] {
      assert Equiv(Octets(xs).items[i], Octets(ys).items[i]);
    }
  }

  lemma RefsKeys(order: Order, refs: map<Bytes, Bytes>)
    requires Enumerates(order, refs)
    ensures Keys(RefsJson(order).entries) == refs.Keys
  {
    var es := RefsJson(order).entries;
    forall k ensures k in Keys(es) <==> k in refs {
      if k in Keys(es) {
        var i := KeyIndex(es, k);
        assert order[i].0 == k;
      }
      if k in refs {
        var i :| 0 <= i < |order| && order[i].0 == k;
        assert es[i] in es;
      }
    }
  }

  lemma EqualRefs(o1: Order, r1: map<Bytes, Bytes>, o2: Order, r2: map<Bytes, Bytes>)
    requires Enumerates(o1, r1) && Enumerates(o2, r2) && Equiv(RefsJson(o1), RefsJson(o2))
    ensures r1 == r2
  {
    RefsKeys(o1, r1);
    RefsKeys(o2, r2);
    var xs, ys := RefsJson(o1).entries, RefsJson(o2).entries;
    forall k | k in r1
      ensures r1[k] == r2[k]
    {
      var i := KeyIndex(xs, k);
      var j := KeyIndex(ys, k);
      assert Equiv(xs[i].1, ys[j].1);
      assert o1[i].0 == k && o2[j].0 == k;
    }
  }

  /** Two reference maps have equivalent JSON exactly when they are equal. */
  lemma RefsInjective(o1: Order, r1: map<Bytes, Bytes>, o2: Order, r2: map<Bytes, Bytes>)
    requires Enumerates(o1, r1) && Enumerates(o2, r2)
    ensures Equiv(RefsJson(o1), RefsJson(o2)) <==> r1 == r2
  {
    if r1 == r2 {
      RefsKeys(o1, r1);
      RefsKeys(o2, r2);
      var xs, ys := RefsJson(o1).entries, RefsJson(o2).entries;
      forall i, j | 0 <= i < |xs| && 0 <= j < |ys| && xs[i].0 == ys[j].0
        ensures Equiv(xs[i].1, ys[j].1)
      {
        assert o1[i].0 == o2[j].0;
      }
    }
    if Equiv(RefsJson(o1), RefsJson(o2)) {
      EqualRefs(o1, r1, o2, r2);
    }
  }

  lemma DescInjective(d: P2PDescription, e: P2PDescription)
    requires Equiv(DescJson(d), DescJson(e))
    ensures d == e
  {
    var xs, ys := DescJson(d).entries, DescJson(e).entries;
    FieldEquiv(xs, ys, 0);
    FieldEquiv(xs, ys, 1);
    FieldEquiv(xs, ys, 2);
    FieldEquiv(xs, ys, 3);
    FieldEquiv(xs, ys, 4);
    FieldEquiv(xs, ys, 5);
  }

  lemma RepoInjective(r: Repo, o1: Order, s: Repo, o2: Order)
    requires Enumerates(o1, r.refs) && Enumerates(o2, s.refs)
    requires Equiv(RepoJson(r, o1), RepoJson(s, o2))
    ensures r == s
  {
    var xs, ys := RepoJson(r, o1).entries, RepoJson(s, o2).entries;
    FieldEquiv(xs, ys, 0);
    FieldEquiv(xs, ys, 1);
    FieldEquiv(xs, ys, 2);
    FieldEquiv(xs, ys, 3);
    FieldEquiv(xs, ys, 4);
    FieldEquiv(xs, ys, 5);
    RefsInjective(o1, r.refs, o2, s.refs);
    DescInjective(r.desc, s.desc);
  }

  lemma BodyInjective(m: GossipMessage, o1: seq<Order>, n: GossipMessage, o2: seq<Order>)
    requires OrdersFor(m, o1) && OrdersFor(n, o2) && Tag(m) == Tag(n)
    requires Equiv(BodyJson(m, o1), BodyJson(n, o2))
    ensures m == n
  {
    TagInjective(m, n);
    match m
    case NodeAnnouncement(_, _, _, _, _) => NodeBodyInjective(m, o1, n, o2);
    case RepoAnnouncement(_, _) => RepoBodyInjective(m, o1, n, o2);
    case Chat(_, _, _, _) => ChatBodyInjective(m, o1, n, o2);
    case ChatAck(_, _, _, _, _) => AckBodyInjective(m, o1, n, o2);
  }

  lemma NodeBodyInjective(m: GossipMessage, o1: seq<Order>, n: GossipMessage, o2: seq<Order>)
    requires m.NodeAnnouncement? && n.NodeAnnouncement?
    requires Equiv(BodyJson(m, o1), BodyJson(n, o2))
    ensures m == n
  {
    var xs, ys := BodyJson(m, o1).entries, BodyJson(n, o2).entries;
    FieldEquiv(xs, ys, 0);
    FieldEquiv(xs, ys, 1);
    FieldEquiv(xs, ys, 2);
    FieldEquiv(xs, ys, 3);
    FieldEquiv(xs, ys, 4);
    StringsInjective(m.addresses, n.addresses);
    assert "Normal"[0] != "Relay"[0];
  }

  lemma RepoBodyInjective(m: GossipMessage, o1: seq<Order>, n: GossipMessage, o2: seq<Order>)
    requires m.RepoAnnouncement? && n.RepoAnnouncement? && OrdersFor(m, o1) && OrdersFor(n, o2)
    requires Equiv(BodyJson(m, o1), BodyJson(n, o2))
    ensures m == n
  {
    var xs, ys := BodyJson(m, o1).entries, BodyJson(n, o2).entries;
    FieldEquiv(xs, ys, 0);
    FieldEquiv(xs, ys, 1);
    forall i | 0 <= i < |m.repos| ensures m.repos[i] == n.repos[i] {
      assert Equiv(ReposJson(m.repos, o1).items[i], ReposJson(n.repos, o2).items[i]);
      RepoInjective(m.repos[i], o1[i], n.repos[i], o2[i]);
    }
  }

  lemma ChatBodyInjective(m: GossipMessage, o1: seq<Order>, n: GossipMessage, o2: seq<Order>)
    requires m.Chat? && n.Chat? && Equiv(BodyJson(m, o1), BodyJson(n, o2))
    ensures m == n
  {
    var xs, ys := BodyJson(m, o1).entries, BodyJson(n, o2).entries;
    FieldEquiv(xs, ys, 0);
    FieldEquiv(xs, ys, 1);
    FieldEquiv(xs, ys, 2);
    FieldEquiv(xs, ys, 3);
    OctetsInjective(m.ciphertext, n.ciphertext);
  }

  lemma AckBodyInjective(m: GossipMessage, o1: seq<Order>, n: GossipMessage, o2: seq<Order>)
    requires m.ChatAck? && n.ChatAck? && Equiv(BodyJson(m, o1), BodyJson(n, o2))
    ensures m == n
  {
    var xs, ys := BodyJson(m, o1).entries, BodyJson(n, o2).entries;
    FieldEquiv(xs, ys, 0);
    FieldEquiv(xs, ys, 1);
    FieldEquiv(xs, ys, 2);
    FieldEquiv(xs, ys, 3);
    FieldEquiv(xs, ys, 4);
  }

  lemma TagInjective(m: GossipMessage, n: GossipMessage)
    requires Tag(m) == Tag(n)
    ensures m.NodeAnnouncement? <==> n.NodeAnnouncement?
    ensures m.RepoAnnouncement? <==> n.RepoAnnouncement?
    ensures m.Chat? <==> n.Chat?
    ensures m.ChatAck? <==> n.ChatAck?
  {
    assert "NodeAnnouncement"[0] != "RepoAnnouncement"[0];
  }

  /** Up to key order, the JSON of two messages agrees exactly when the messages are equal. */
  lemma JsonFaithful(m: GossipMessage, o1: seq<Order>, n: GossipMessage, o2: seq<Order>)
    requires OrdersFor(m, o1) && OrdersFor(n, o2)
    ensures Equiv(ToJson(m, o1), ToJson(n, o2)) <==> m == n
  {
    if Equiv(ToJson(m, o1), ToJson(n, o2)) {
      var xs, ys := ToJson(m, o1).entries, ToJson(n, o2).entries;
      assert xs[0] in xs && Tag(m) in Keys(xs);
      var j := KeyIndex(ys, Tag(m));
      FieldEquiv(xs, ys, 0);
      BodyInjective(m, o1, n, o2);
    }
    if m == n {
      JsonOrderIndependent(m, o1, o2);
    }
  }

  lemma EquivReflexive(v: Value)
    requires WellFormed(v)
    ensures Equiv(v, v)
  {
    SameFormImpliesEquiv(v, v);
  }

  /** Replacing the values of an object one for one by equivalent ones gives an equivalent object. */
  lemma EquivFieldwise(xs: seq<Entry>, ys: seq<Entry>)
    requires UniqueKeys(xs) && |xs| == |ys|
    requires forall i :: 0 <= i < |xs| ==> xs[i].0 == ys[i].0 && Equiv(xs[i].1, ys[i].1)
    ensures Equiv(Obj(xs), Obj(ys))
  {
    forall k ensures k in Keys(xs) <==> k in Keys(ys) {
      if k in Keys(xs) { var i := KeyIndex(xs, k); assert ys[i] in ys; }
      if k in Keys(ys) { var i := KeyIndex(ys, k); assert xs[i] in xs; }
    }
    forall i, j | 0 <= i < |xs| && 0 <= j < |ys| && xs[i].0 == ys[j].0
      ensures Equiv(xs[i].1, ys[j].1)
    {
      assert i == j;
    }
  }

  lemma RepoOrderIndependent(r: Repo, o1: Order, o2: Order)
    requires Enumerates(o1, r.refs) && Enumerates(o2, r.refs)
    ensures Equiv(RepoJson(r, o1), RepoJson(r, o2))
  {
    RepoWellFormed(r, o1);
    DescWellFormed(r.desc);
    EquivReflexive(DescJson(r.desc));
    RefsInjective(o1, r.refs, o2, r.refs);
    EquivFieldwise(RepoJson(r, o1).entries, RepoJson(r, o2).entries);
  }

  lemma JsonOrderIndependent(m: GossipMessage, o1: seq<Order>, o2: seq<Order>)
    requires OrdersFor(m, o1) && OrdersFor(m, o2)
    ensures Equiv(ToJson(m, o1), ToJson(m, o2))
  {
    BodyWellFormed(m, o1);
    if m.RepoAnnouncement? {
      forall i | 0 <= i < |m.repos| ensures Equiv(RepoJson(m.repos[i], o1[i]), RepoJson(m.repos[i], o2[i])) {
        RepoOrderIndependent(m.repos[i], o1[i], o2[i]);
      }
      assert Equiv(ReposJson(m.repos, o1), ReposJson(m.repos, o2));
      EquivFieldwise(BodyJson(m, o1).entries, BodyJson(m, o2).entries);
    } else {
      EquivReflexive(BodyJson(m, o1));
    }
    EquivFieldwise(ToJson(m, o1).entries, ToJson(m, o2).entries);
  }
}
