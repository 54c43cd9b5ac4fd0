/**
 What the JSON of a message says, field by field and under the names the program uses. It is said of the
 canonical form, so of what is hashed, through lookups along paths.
 */
module Fields {
  import opened Common
  import opened Json
  import opened Messages

  ghost predicate Says(v: Value, path: seq<Step>, u: Value) { Lookup(v, path) == Some(u) }

  ghost predicate SaysStrings(v: Value, path: seq<Step>, xs: seq<Bytes>) {
    exists u :: Says(v, path, u) && IsStrings(u, xs)
  }

  predicate IsStrings(u: Value, xs: seq<Bytes>) {
    u.Arr? && |u.items| == |xs| && forall i :: 0 <= i < |xs| ==> u.items[i] == Str(xs[i])
  }

  ghost predicate SaysOctets(v: Value, path: seq<Step>, xs: seq<U8>) {
    exists u :: Says(v, path, u) && IsOctets(u, xs)
  }

  predicate IsOctets(u: Value, xs: seq<U8>) {
    u.Arr? && |u.items| == |xs| && forall i :: 0 <= i < |xs| ==> u.items[i] == Num(xs[i])
  }

  /** The refs object: a string under each name, and nothing else. */
  ghost predicate SaysRefs(v: Value, path: seq<Step>, refs: map<Bytes, Bytes>) {
    forall name :: Lookup(v, path + [Field(name)]) == if name in refs then Some(Str(refs[name])) else None
  }

  ghost predicate SaysDesc(v: Value, path: seq<Step>, d: P2PDescription) {
    && Says(v, path + [Field("creator")], Str(d.creator)) && Says(v, path + [Field("name")], Str(d.name))
    && Says(v, path + [Field("description")], Str(d.description)) && Says(v, path + [Field("language")], Str(d.language))
    && Says(v, path + [Field("latest_commit_at")], Num(d.latestCommitAt)) && Says(v, path + [Field("size")], Num(d.size))
  }

  ghost predicate SaysRepo(v: Value, path: seq<Step>, r: Repo) {
    && Says(v, path + [Field("repo_id")], Str(r.repoId)) && Says(v, path + [Field("path")], Str(r.path))
    && Says(v, path + [Field("is_external")], Bool(r.isExternal)) && Says(v, path + [Field("bundle")], Str(r.bundle))
    && SaysRefs(v, path + [Field("refs")], r.refs) && SaysDesc(v, path + [Field("p2p_description")], r.desc)
  }

  /** The repositories in order, and no more. */
  ghost predicate SaysRepos(v: Value, path: seq<Step>, repos: seq<Repo>) {
    && (forall i :: 0 <= i < |repos| ==> SaysRepo(v, path + [Index(i)], repos[i]))
    && Lookup(v, path + [Index(|repos|)]) == None
  }

  ghost predicate SaysMessage(v: Value, m: GossipMessage) {
    match m
    case NodeAnnouncement(node, version, alias, nodeType, addresses) =>
      var t := [Field("NodeAnnouncement")];
      && Says(v, t + [Field("node_id")], Str(node)) && Says(v, t + [Field("version")], Num(version))
      && Says(v, t + [Field("alias")], Str(alias))
      && Says(v, t + [Field("node_type")], Str(if nodeType.Normal? then "Normal" else "Relay"))
      && SaysStrings(v, t + [Field("addresses")], addresses)
    case RepoAnnouncement(owner, repos) =>
      var t := [Field("RepoAnnouncement")];
      Says(v, t + [Field("node_id")], Str(owner)) && SaysRepos(v, t + [Field("repos")], repos)
    case Chat(sender, receiver, id, ciphertext) =>
      var t := [Field("Chat")];
      && Says(v, t + [Field("sender_id")], Str(sender)) && Says(v, t + [Field("receiver_id")], Str(receiver))
      && Says(v, t + [Field("msg_id")], Str(id)) && SaysOctets(v, t + [Field("ciphertext")], ciphertext)
    case ChatAck(acker, target, id, at, signature) =>
      var t := [Field("ChatAck")];
      && Says(v, t + [Field("sender_id")], Str(acker)) && Says(v, t + [Field("target_id")], Str(target))
      && Says(v, t + [Field("msg_id")], Str(id)) && Says(v, t + [Field("timestamp")], Num(at))
      && Says(v, t + [Field("signature")], Str(signature))
  }

  // ---------- lookups ----------

  lemma {:induction false} LookupOn(v: Value, p: seq<Step>, q: seq<Step>)
    ensures Lookup(v, p + q) == (match Lookup(v, p) case Some(u) => Lookup(u, q) case None => None)
    decreases |p|
  {
    if p == [] {
      assert p + q == q;
    } else {
      assert (p + q)[0] == p[0] && (p + q)[1..] == p[1..] + q;
      match (v, p[0])
      case (Obj(es), Field(k)) => if Get(es, k).Some? { LookupOn(Get(es, k).value, p[1..], q); }
      case (Arr(xs), Index(i)) => if i < |xs| { LookupOn(xs[i], p[1..], q); }
      case _ =>
    }
  }

  lemma LookupOne(v: Value, s: Step)
    ensures Lookup(v, [s]) ==
      match (v, s)
      case (Obj(es), Field(k)) => Get(es, k)
      case (Arr(xs), Index(i)) => if i < |xs| then Some(xs[i]) else None
      case _ => None
  {
    assert [s][1..] == [];
  }

  /** The `i`th entry of an object found along `path`. */
  lemma FieldOf(v: Value, path: seq<Step>, es: seq<Entry>, i: nat)
    requires Says(v, path, Obj(es)) && UniqueKeys(es) && i < |es|
    ensures Says(v, path + [Field(es[i].0)], es[i].1)
  {
    LookupOn(v, path, [Field(es[i].0)]);
    LookupOne(Obj(es), Field(es[i].0));
    var r := Get(es, es[i].0);
    var j :| 0 <= j < |es| && es[j] == (es[i].0, r.value);
  }

  lemma NoField(v: Value, path: seq<Step>, es: seq<Entry>, k: Bytes)
    requires Says(v, path, Obj(es)) && k !in Keys(es)
    ensures Lookup(v, path + [Field(k)]) == None
  {
    LookupOn(v, path, [Field(k)]);
    LookupOne(Obj(es), Field(k));
    GetKeys(es, k);
  }

  lemma ItemOf(v: Value, path: seq<Step>, xs: seq<Value>, i: nat)
    requires Says(v, path, Arr(xs))
    ensures Lookup(v, path + [Index(i)]) == if i < |xs| then Some(xs[i]) else None
  {
    LookupOn(v, path, [Index(i)]);
    LookupOne(Arr(xs), Index(i));
  }

  // ---------- the message as it is built ----------

  lemma RefsSaid(v: Value, path: seq<Step>, order: Order, refs: map<Bytes, Bytes>)
    requires Says(v, path, RefsJson(order)) && Enumerates(order, refs)
    ensures SaysRefs(v, path, refs)
  {
    var es := RefsJson(order).entries;
    RefsKeys(order, refs);
    assert UniqueKeys(es);
    forall name ensures Lookup(v, path + [Field(name)]) == if name in refs then Some(Str(refs[name])) else None {
      if name in refs {
        var i := KeyIndex(es, name);
        assert order[i].0 == name;
        FieldOf(v, path, es, i);
      } else {
        NoField(v, path, es, name);
      }
    }
  }

  lemma DescSaid(v: Value, path: seq<Step>, d: P2PDescription)
    requires Says(v, path, DescJson(d))
    ensures SaysDesc(v, path, d)
  {
    var es := DescJson(d).entries;
    DescWellFormed(d);
    FieldOf(v, path, es, 0);
    FieldOf(v, path, es, 1);
    FieldOf(v, path, es, 2);
    FieldOf(v, path, es, 3);
    FieldOf(v, path, es, 4);
    FieldOf(v, path, es, 5);
  }

  lemma RepoSaid(v: Value, path: seq<Step>, r: Repo, order: Order)
    requires Says(v, path, RepoJson(r, order)) && Enumerates(order, r.refs)
    ensures SaysRepo(v, path, r)
  {
    var es := RepoJson(r, order).entries;
    RepoWellFormed(r, order);
    FieldOf(v, path, es, 0);
    FieldOf(v, path, es, 1);
    FieldOf(v, path, es, 2);
    FieldOf(v, path, es, 3);
    FieldOf(v, path, es, 4);
    FieldOf(v, path, es, 5);
    RefsSaid(v, path + [Field("refs")], order, r.refs);
    DescSaid(v, path + [Field("p2p_description")], r.desc);
  }

  lemma ReposSaid(v: Value, path: seq<Step>, repos: seq<Repo>, orders: seq<Order>)
    requires |orders| == |repos| && forall i :: 0 <= i < |orders| ==> Enumerates(orders[i], repos[i].refs)
    requires Says(v, path, ReposJson(repos, orders))
    ensures SaysRepos(v, path, repos)
  {
    var xs := ReposJson(repos, orders).items;
    forall i | 0 <= i < |repos| ensures SaysRepo(v, path + [Index(i)], repos[i]) {
      ItemOf(v, path, xs, i);
      RepoSaid(v, path + [Index(i)], repos[i], orders[i]);
    }
    ItemOf(v, path, xs, |repos|);
  }

  /** The body of a message stands under its kind. */
  lemma BodySaid(m: GossipMessage, orders: seq<Order>)
    requires OrdersFor(m, orders)
    ensures Says(ToJson(m, orders), [Field(Tag(m))], BodyJson(m, orders)) && UniqueKeys(BodyJson(m, orders).entries)
  {
    BodyWellFormed(m, orders);
    var es := [(Tag(m), BodyJson(m, orders))];
    assert es[0].0 == Tag(m);
    FieldOf(Obj(es), [], es, 0);
    assert [] + [Field(Tag(m))] == [Field(Tag(m))];
  }

  lemma NodeSaid(m: GossipMessage, orders: seq<Order>)
    requires m.NodeAnnouncement?
    ensures SaysMessage(ToJson(m, orders), m)
  {
    var v, t, es := ToJson(m, orders), [Field("NodeAnnouncement")], BodyJson(m, orders).entries;
    BodySaid(m, orders);
    FieldOf(v, t, es, 0);
    FieldOf(v, t, es, 1);
    FieldOf(v, t, es, 2);
    FieldOf(v, t, es, 3);
    FieldOf(v, t, es, 4);
    assert IsStrings(Strings(m.addresses), m.addresses);
  }

  lemma RepoAnnouncementSaid(m: GossipMessage, orders: seq<Order>)
    requires m.RepoAnnouncement? && OrdersFor(m, orders)
    ensures SaysMessage(ToJson(m, orders), m)
  {
    var v, t, es := ToJson(m, orders), [Field("RepoAnnouncement")], BodyJson(m, orders).entries;
    BodySaid(m, orders);
    FieldOf(v, t, es, 0);
    FieldOf(v, t, es, 1);
    ReposSaid(v, t + [Field("repos")], m.repos, orders);
  }

  lemma ChatSaid(m: GossipMessage, orders: seq<Order>)
    requires m.Chat?
    ensures SaysMessage(ToJson(m, orders), m)
  {
    var v, t, es := ToJson(m, orders), [Field("Chat")], BodyJson(m, orders).entries;
    BodySaid(m, orders);
    FieldOf(v, t, es, 0);
    FieldOf(v, t, es, 1);
    FieldOf(v, t, es, 2);
    FieldOf(v, t, es, 3);
    assert IsOctets(Octets(m.ciphertext), m.ciphertext);
  }

  lemma AckSaid(m: GossipMessage, orders: seq<Order>)
    requires m.ChatAck?
    ensures SaysMessage(ToJson(m, orders), m)
  {
    var v, t, es := ToJson(m, orders), [Field("ChatAck")], BodyJson(m, orders).entries;
    BodySaid(m, orders);
    FieldOf(v, t, es, 0);
    FieldOf(v, t, es, 1);
    FieldOf(v, t, es, 2);
    FieldOf(v, t, es, 3);
    FieldOf(v, t, es, 4);
  }

  /** The JSON of a message says the message. */
  lemma JsonSays(m: GossipMessage, orders: seq<Order>)
    requires OrdersFor(m, orders)
    ensures SaysMessage(ToJson(m, orders), m)
  {
    match m
    case NodeAnnouncement(_, _, _, _, _) => NodeSaid(m, orders);
    case RepoAnnouncement(_, _) => RepoAnnouncementSaid(m, orders);
    case Chat(_, _, _, _) => ChatSaid(m, orders);
    case ChatAck(_, _, _, _, _) => AckSaid(m, orders);
  }

  // ---------- and in canonical form ----------

  lemma SameSaid(v: Value, path: seq<Step>, u: Value)
    requires WellFormed(v) && Says(v, path, u) && Canonicalize(u) == u
    ensures Says(Canonicalize(v), path, u)
  {
    CanonicalizeKeepsPaths(v, path);
  }

  lemma StringsCanonical(u: Value, xs: seq<Bytes>)
    requires IsStrings(u, xs)
    ensures Canonicalize(u) == u
  {
    assert Canonicalize(u).items == u.items;
  }

  lemma OctetsCanonical(u: Value, xs: seq<U8>)
    requires IsOctets(u, xs)
    ensures Canonicalize(u) == u
  {
    assert Canonicalize(u).items == u.items;
  }

  lemma DescKept(v: Value, path: seq<Step>, d: P2PDescription)
    requires WellFormed(v) && SaysDesc(v, path, d)
    ensures SaysDesc(Canonicalize(v), path, d)
  {
    SameSaid(v, path + [Field("creator")], Str(d.creator));
    SameSaid(v, path + [Field("name")], Str(d.name));
    SameSaid(v, path + [Field("description")], Str(d.description));
    SameSaid(v, path + [Field("language")], Str(d.language));
    SameSaid(v, path + [Field("latest_commit_at")], Num(d.latestCommitAt));
    SameSaid(v, path + [Field("size")], Num(d.size));
  }

  lemma RefsKept(v: Value, path: seq<Step>, refs: map<Bytes, Bytes>)
    requires WellFormed(v) && SaysRefs(v, path, refs)
    ensures SaysRefs(Canonicalize(v), path, refs)
  {
    forall name ensures Lookup(Canonicalize(v), path + [Field(name)]) == if name in refs then Some(Str(refs[name])) else None {
      assert Lookup(v, path + [Field(name)]) == if name in refs then Some(Str(refs[name])) else None;
      CanonicalizeKeepsPaths(v, path + [Field(name)]);
    }
  }

  lemma RepoKept(v: Value, path: seq<Step>, r: Repo)
    requires WellFormed(v) && SaysRepo(v, path, r)
    ensures SaysRepo(Canonicalize(v), path, r)
  {
    SameSaid(v, path + [Field("repo_id")], Str(r.repoId));
    SameSaid(v, path + [Field("path")], Str(r.path));
    SameSaid(v, path + [Field("is_external")], Bool(r.isExternal));
    SameSaid(v, path + [Field("bundle")], Str(r.bundle));
    RefsKept(v, path + [Field("refs")], r.refs);
    DescKept(v, path + [Field("p2p_description")], r.desc);
  }

  lemma ReposKept(v: Value, path: seq<Step>, repos: seq<Repo>)
    requires WellFormed(v) && SaysRepos(v, path, repos)
    ensures SaysRepos(Canonicalize(v), path, repos)
  {
    forall i | 0 <= i < |repos| ensures SaysRepo(Canonicalize(v), path + [Index(i)], repos[i]) {
      RepoKept(v, path + [Index(i)], repos[i]);
    }
    CanonicalizeKeepsPaths(v, path + [Index(|repos|)]);
  }

  lemma StringsKept(v: Value, path: seq<Step>, xs: seq<Bytes>)
    requires WellFormed(v) && SaysStrings(v, path, xs)
    ensures SaysStrings(Canonicalize(v), path, xs)
  {
    var u :| Says(v, path, u) && IsStrings(u, xs);
    StringsCanonical(u, xs);
    SameSaid(v, path, u);
  }

  lemma OctetsKept(v: Value, path: seq<Step>, xs: seq<U8>)
    requires WellFormed(v) && SaysOctets(v, path, xs)
    ensures SaysOctets(Canonicalize(v), path, xs)
  {
    var u :| Says(v, path, u) && IsOctets(u, xs);
    OctetsCanonical(u, xs);
    SameSaid(v, path, u);
  }

  lemma MessageKept(v: Value, m: GossipMessage)
    requires WellFormed(v) && SaysMessage(v, m)
    ensures SaysMessage(Canonicalize(v), m)
  {
    match m
    case NodeAnnouncement(node, version, alias, nodeType, addresses) =>
      var t := [Field("NodeAnnouncement")];
      SameSaid(v, t + [Field("node_id")], Str(node));
      SameSaid(v, t + [Field("version")], Num(version));
      SameSaid(v, t + [Field("alias")], Str(alias));
      SameSaid(v, t + [Field("node_type")], Str(if nodeType.Normal? then "Normal" else "Relay"));
      StringsKept(v, t + [Field("addresses")], addresses);
    case RepoAnnouncement(owner, repos) =>
      var t := [Field("RepoAnnouncement")];
      SameSaid(v, t + [Field("node_id")], Str(owner));
      ReposKept(v, t + [Field("repos")], repos);
    case Chat(sender, receiver, id, ciphertext) =>
      var t := [Field("Chat")];
      SameSaid(v, t + [Field("sender_id")], Str(sender));
      SameSaid(v, t + [Field("receiver_id")], Str(receiver));
      SameSaid(v, t + [Field("msg_id")], Str(id));
      OctetsKept(v, t + [Field("ciphertext")], ciphertext);
    case ChatAck(acker, target, id, at, signature) =>
      var t := [Field("ChatAck")];
      SameSaid(v, t + [Field("sender_id")], Str(acker));
      SameSaid(v, t + [Field("target_id")], Str(target));
      SameSaid(v, t + [Field("msg_id")], Str(id));
      SameSaid(v, t + [Field("timestamp")], Num(at));
      SameSaid(v, t + [Field("signature")], Str(signature));
  }

  /** The canonical JSON that is hashed says the message, field by field. */
  lemma CanonicalSays(m: GossipMessage, orders: seq<Order>)
    requires OrdersFor(m, orders)
    ensures SaysMessage(Canonicalize(ToJson(m, orders)), m)
  {
    JsonWellFormed(m, orders);
    JsonSays(m, orders);
    MessageKept(ToJson(m, orders), m);
  }
}
