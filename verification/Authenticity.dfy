/**
 Authenticity against arbitrary injected traffic. Anyone may inject any copy at any time, under one
 constraint, the unforgeability of signatures: a signature that checks under a key is of a digest
 the holder of that key has signed.
 */
module Authenticity {
  import opened Common
  import opened Messages
  import opened Gossip
  import opened Network

  /** The network, and what each key has signed. */
  datatype Audit = Audit(net: State, signed: set<(Key, Signed)>)

  datatype Action = Sign(m: Signed) | Net(e: Event)

  /** The signature on `m`, if it checks, is one that the key's holder made for this digest. */
  ghost predicate Backed(c: Crypto, signed: set<(Key, Signed)>, m: Signed) {
    (c.keyOf(m.nodeId).Some? && SignedUnder(c, c.keyOf(m.nodeId).value, m)) ==>
      (exists m0 :: (c.keyOf(m.nodeId).value, m0) in signed && c.digest(m0) == c.digest(m))
  }

  ghost predicate Possible(w: World, a: Audit, x: Action) {
    match x
    case Sign(m) => w.crypto.keyOf(m.nodeId).Some?
    case Net(e) =>
      && Enabled(w, a.net, e)
      && (e.Inject? ==> Backed(w.crypto, a.signed, e.copy.env.payload))
      && (e.Originate? ==> Backed(w.crypto, a.signed, e.msg))
  }

  ghost function Act(w: World, a: Audit, x: Action): Audit
    requires Possible(w, a, x)
  {
    match x
    case Sign(m) => a.(signed := a.signed + {(w.crypto.keyOf(m.nodeId).value, m)})
    case Net(e) => a.(net := Apply(w, a.net, e))
  }

  ghost predicate ValidActs(w: World, xs: seq<Action>)
    decreases |xs|, 0
  {
    xs == [] || (ValidActs(w, xs[..|xs| - 1]) && Possible(w, Acts(w, xs[..|xs| - 1]), xs[|xs| - 1]))
  }

  /** The state after `xs`, from a network nothing has happened in. */
  ghost function Acts(w: World, xs: seq<Action>): Audit
    requires ValidActs(w, xs)
    decreases |xs|, 1
  {
    if xs == [] then Audit(Start(), {}) else Act(w, Acts(w, xs[..|xs| - 1]), xs[|xs| - 1])
  }

  ghost predicate AuditInv(w: World, a: Audit) {
    && (forall c :: c in a.net.flight ==> Backed(w.crypto, a.signed, c.env.payload))
    && (forall p :: p in a.net.log ==> Accepts(w.crypto, p.env.payload) && Backed(w.crypto, a.signed, p.env.payload))
    && (forall k, m :: (k, m) in a.signed ==> w.crypto.keyOf(m.nodeId) == Some(k))
  }

  lemma BackedGrows(c: Crypto, signed: set<(Key, Signed)>, more: set<(Key, Signed)>, m: Signed)
    requires signed <= more && Backed(c, signed, m)
    ensures Backed(c, more, m)
  {
    if c.keyOf(m.nodeId).Some? && SignedUnder(c, c.keyOf(m.nodeId).value, m) {
      var m0 :| (c.keyOf(m.nodeId).value, m0) in signed && c.digest(m0) == c.digest(m);
      assert (c.keyOf(m.nodeId).value, m0) in more;
    }
  }

  lemma NetStepBacked(w: World, a: Audit, e: Event, c: Copy)
    requires AuditInv(w, a) && Possible(w, a, Net(e)) && c in Apply(w, a.net, e).flight
    ensures Backed(w.crypto, a.signed, c.env.payload)
  {
    var s := a.net;
    match e
    case Originate(_, m, targets) =>
      if c !in s.flight { assert c in CopiesTo(e.origin, targets, Envelope(m, DEFAULT_TTL)); }
    case Deliver(i) =>
      FlightAfterDelivery(w, s, i, c);
      if c !in s.flight {
        SentOn(w, s, i, c);
        assert s.flight[i] in s.flight;
      }
    case Lose(i) => RemoveKeeps(s.flight, i, c);
    case _ =>
  }

  lemma AuditStep(w: World, a: Audit, x: Action)
    requires AuditInv(w, a) && Possible(w, a, x)
    ensures AuditInv(w, Act(w, a, x))
  {
    var b := Act(w, a, x);
    match x
    case Sign(m) =>
      forall c | c in b.net.flight ensures Backed(w.crypto, b.signed, c.env.payload) {
        BackedGrows(w.crypto, a.signed, b.signed, c.env.payload);
      }
      forall p | p in b.net.log ensures Backed(w.crypto, b.signed, p.env.payload) {
        BackedGrows(w.crypto, a.signed, b.signed, p.env.payload);
      }
    case Net(e) =>
      forall c | c in b.net.flight ensures Backed(w.crypto, b.signed, c.env.payload) {
        NetStepBacked(w, a, e, c);
      }
      if e.Deliver? { assert a.net.flight[e.i] in a.net.flight; }
  }

  lemma {:induction false} AuditInvHolds(w: World, xs: seq<Action>)
    requires ValidActs(w, xs)
    ensures AuditInv(w, Acts(w, xs))
    decreases |xs|
  {
    if xs != [] {
      AuditInvHolds(w, xs[..|xs| - 1]);
      AuditStep(w, Acts(w, xs[..|xs| - 1]), xs[|xs| - 1]);
    }
  }

  /** The key of the named signer signed exactly this signer, content and time, and the content names the signer. */
  ghost predicate Genuine(w: World, a: Audit, m: Signed) {
    && Sender(m.message) == m.nodeId && w.crypto.keyOf(m.nodeId).Some?
    && exists m0 :: (w.crypto.keyOf(m.nodeId).value, m0) in a.signed
                    && m0.nodeId == m.nodeId && m0.message == m.message && m0.timestamp == m.timestamp
  }

  lemma BackedIsGenuine(w: World, a: Audit, m: Signed)
    requires DigestsDistinguish(w.crypto) && AuditInv(w, a)
    requires w.crypto.keyOf(m.nodeId).Some? && Accepts(w.crypto, m) && Backed(w.crypto, a.signed, m)
    ensures Genuine(w, a, m)
  {
    var k := w.crypto.keyOf(m.nodeId).value;
    var m0 :| (k, m0) in a.signed && w.crypto.digest(m0) == w.crypto.digest(m);
    assert w.crypto.keyOf(m0.nodeId) == Some(k);
  }

  /**
   In every run against arbitrary injected traffic, what any node has processed under a decodable
   node id is exactly what the holder of that key signed, although ttl and signature travel unhashed.
   */
  lemma ProcessedIsGenuine(w: World, xs: seq<Action>, p: Processing)
    requires DigestsDistinguish(w.crypto) && ValidActs(w, xs)
    requires p in Acts(w, xs).net.log && w.crypto.keyOf(p.env.payload.nodeId).Some?
    ensures Genuine(w, Acts(w, xs), p.env.payload)
  {
    AuditInvHolds(w, xs);
    BackedIsGenuine(w, Acts(w, xs), p.env.payload);
  }

  /** The same for what a node sends on: a delivery that causes any send is of a genuine message. */
  lemma ForwardedIsGenuine(w: World, xs: seq<Action>, i: nat)
    requires DigestsDistinguish(w.crypto) && ValidActs(w, xs)
    requires i < |Acts(w, xs).net.flight| && ReactionTo(w, Acts(w, xs).net, i).sends != []
    requires w.crypto.keyOf(Acts(w, xs).net.flight[i].env.payload.nodeId).Some?
    ensures Genuine(w, Acts(w, xs), Acts(w, xs).net.flight[i].env.payload)
  {
    AuditInvHolds(w, xs);
    var a := Acts(w, xs);
    assert a.net.flight[i] in a.net.flight;
    BackedIsGenuine(w, a, a.net.flight[i].env.payload);
  }

  /**
   The other half: an id that decodes to no key protects nobody. Whatever message names such an id as
   its signer and sender, with no signature ever made, one injected copy of it is processed.
   */
  lemma UndecodableIdIsOpen(w: World, m: Signed, v: NodeId, x: NodeId, t: U8) returns (xs: seq<Action>)
    requires w.crypto.keyOf(m.nodeId).None? && Sender(m.message) == m.nodeId
    ensures ValidActs(w, xs) && Acts(w, xs).signed == {}
    ensures Processing(v, x, Envelope(m, t), 0) in Acts(w, xs).net.log
  {
    var c := Copy(x, v, Envelope(m, t));
    MoreActs(w, [], Net(Inject(c)));
    var a := Acts(w, [] + [Net(Inject(c))]);
    assert a.net.flight == [c] && a.signed == {};
    MoreActs(w, [] + [Net(Inject(c))], Net(Deliver(0)));
    LogAfterInjection(w, a.net, c);
    xs := [] + [Net(Inject(c))] + [Net(Deliver(0))];
  }

  lemma MoreActs(w: World, xs: seq<Action>, x: Action)
    requires ValidActs(w, xs) && Possible(w, Acts(w, xs), x)
    ensures ValidActs(w, xs + [x]) && Acts(w, xs + [x]) == Act(w, Acts(w, xs), x)
  {
    assert (xs + [x])[..|xs + [x]| - 1] == xs;
  }

  lemma LogAfterInjection(w: World, s: State, c: Copy)
    requires s.flight == [c] && s.seen == map[] && w.crypto.keyOf(c.env.payload.nodeId).None?
    requires Sender(c.env.payload.message) == c.env.payload.nodeId
    ensures Processing(c.to, c.from, c.env, s.now) in AfterDelivery(w, s, 0).log
  {
    assert AfterDelivery(w, s, 0).log[|s.log|] == Processing(c.to, c.from, c.env, s.now);
  }
}
