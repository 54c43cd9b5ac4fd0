/**
 Flood coverage. On reliable links, without dedup expiry, a message flooded from `o` through a
 network of at most DEFAULT_TTL + 1 nodes is processed by every node reachable from `o`, however
 deliveries are scheduled, although copies that come by a long way carry a small ttl.
 */
module Coverage {
  import opened Common
  import opened Messages
  import opened Gossip
  import opened Network

  // ---------- the graph ----------

  /** A walk of `k` links from `a` to `b`. */
  ghost predicate Walk(w: World, a: NodeId, b: NodeId, k: nat)
    decreases k
  {
    if k == 0 then a == b
    else exists r :: Walk(w, a, r, k - 1) && b in PeersOf(w, r)
  }

  ghost predicate Closed(w: World) {
    forall n, q :: n in w.peers && q in w.peers[n] ==> q in w.peers
  }

  /** Only `o` can start a flood of the message with this id. */
  ghost predicate OriginIs(w: World, id: Bytes, o: NodeId) {
    forall m: Signed :: w.crypto.digest(m) == id ==> m.nodeId == o
  }

  lemma SignerIsOrigin(w: World, m: Signed)
    requires DigestsDistinguish(w.crypto)
    ensures OriginIs(w, w.crypto.digest(m), m.nodeId)
  {
  }

  // ---------- the invariant ----------

  predicate Has(s: State, id: Bytes, n: NodeId) { id in SeenAt(s, n) }

  ghost predicate HandledAt(w: World, s: State, id: Bytes, n: NodeId, t: int) {
    exists p :: p in s.log && p.node == n && Id(w, p.env) == id && p.env.ttl == t
  }

  ghost predicate Awaits(w: World, s: State, id: Bytes, q: NodeId) {
    exists c :: c in s.flight && c.to == q && Id(w, c.env) == id
  }

  ghost predicate Owed(w: World, s: State, id: Bytes, q: NodeId) {
    Has(s, id, q) || Awaits(w, s, id, q)
  }

  /**
   Where a copy at `to` with this ttl can come from: a node that handled one hop more or, with a full
   ttl, the origin or a stranger that `to` would not have sent to anyway.
   */
  ghost predicate Source(w: World, s: State, id: Bytes, o: NodeId, from: NodeId, to: NodeId, t: int) {
    || (from in w.peers && HandledAt(w, s, id, from, t + 1))
    || (t >= DEFAULT_TTL && (from == o || from !in PeersOf(w, to)))
  }

  ghost predicate Sourced(w: World, s: State, id: Bytes, o: NodeId) {
    && (forall c :: c in s.flight && Id(w, c.env) == id && c.to in w.peers ==>
          Accepts(w.crypto, c.env.payload) && Source(w, s, id, o, c.from, c.to, c.env.ttl))
    && (forall p :: p in s.log && Id(w, p.env) == id && p.node in w.peers ==>
          Source(w, s, id, o, p.from, p.node, p.env.ttl))
  }

  ghost predicate Recorded(w: World, s: State, id: Bytes) {
    && (forall p :: p in s.log && Id(w, p.env) == id ==> Has(s, id, p.node))
    && (forall n :: n in w.peers && Has(s, id, n) ==> exists t :: HandledAt(w, s, id, n, t))
    && (forall n, t, u :: HandledAt(w, s, id, n, t) && HandledAt(w, s, id, n, u) ==> t == u)
  }

  ghost predicate Spread(w: World, s: State, id: Bytes) {
    forall p, q :: p in s.log && Id(w, p.env) == id && p.env.ttl > 0 && q in PeersOf(w, p.node) && q != p.from
      ==> Owed(w, s, id, q)
  }

  ghost predicate FloodInv(w: World, s: State, id: Bytes, o: NodeId) {
    Sourced(w, s, id, o) && Recorded(w, s, id) && Spread(w, s, id)
  }

  /** Every peer of the origin has the message or will get it. */
  ghost predicate Launched(w: World, s: State, id: Bytes, o: NodeId) {
    forall q :: q in PeersOf(w, o) ==> Owed(w, s, id, q)
  }

  /**
   An injected copy that does no harm to coverage: it goes nowhere in the network, or it is accepted,
   carries a full ttl, and does not claim to come from a peer of its receiver other than the signer.
   */
  predicate Benign(w: World, c: Copy) {
    c.to in w.peers ==>
      && Accepts(w.crypto, c.env.payload) && c.env.ttl >= DEFAULT_TTL
      && (c.from in PeersOf(w, c.to) ==> c.from == c.env.payload.nodeId)
  }

  /** What a run is to be harmless for: the cost of a flood, its reaching a node it is sent to, or its covering the network. */
  datatype Purpose = ForCost | ForTargets | ForCoverage

  /**
   No node forgets that it has seen the message; for more than the cost no copy of it is lost and
   none is forged; and for coverage injected copies of it are benign.
   */
  predicate Harmless(w: World, s: State, e: Event, id: Bytes, why: Purpose) {
    match e
    case Cleanup(n) => Has(s, id, n) ==> id in Expire(SeenAt(s, n), s.now)
    case Lose(i) => !why.ForCost? && i < |s.flight| ==> Id(w, s.flight[i].env) != id
    case Inject(c) =>
      && (!why.ForCost? && Id(w, c.env) == id && c.to in w.peers ==> Accepts(w.crypto, c.env.payload))
      && (why.ForCoverage? && Id(w, c.env) == id ==> Benign(w, c))
    case _ => true
  }

  // ---------- one step keeps the invariant ----------

  lemma HandledKept(w: World, s: State, s': State, id: Bytes, n: NodeId, t: int)
    requires s.log <= s'.log && HandledAt(w, s, id, n, t)
    ensures HandledAt(w, s', id, n, t)
  {
    var p :| p in s.log && p.node == n && Id(w, p.env) == id && p.env.ttl == t;
    assert p in s'.log;
  }

  lemma SourceKept(w: World, s: State, s': State, id: Bytes, o: NodeId, from: NodeId, to: NodeId, t: int)
    requires s.log <= s'.log && Source(w, s, id, o, from, to, t)
    ensures Source(w, s', id, o, from, to, t)
  {
    if from in w.peers && HandledAt(w, s, id, from, t + 1) { HandledKept(w, s, s', id, from, t + 1); }
  }

  lemma OwedAfterDelivery(w: World, s: State, i: nat, id: Bytes, q: NodeId)
    requires i < |s.flight| && Owed(w, s, id, q)
    ensures Owed(w, AfterDelivery(w, s, i), id, q)
  {
    var s' := AfterDelivery(w, s, i);
    if !Has(s, id, q) {
      var c :| c in s.flight && c.to == q && Id(w, c.env) == id;
      if c == s.flight[i] {
        assert Has(s', id, q);
      } else {
        FlightAfterDelivery(w, s, i, c);
        assert c in s'.flight;
      }
    }
  }

  lemma LogAfterDelivery(w: World, s: State, i: nat)
    requires i < |s.flight|
    ensures s.log <= AfterDelivery(w, s, i).log
    ensures var d := s.flight[i];
            forall p :: p in AfterDelivery(w, s, i).log ==>
              p in s.log || (ReactionTo(w, s, i).processed && p == Processing(d.to, d.from, d.env, s.now))
    ensures var d := s.flight[i];
            ReactionTo(w, s, i).processed ==> Processing(d.to, d.from, d.env, s.now) in AfterDelivery(w, s, i).log
  {
  }

  lemma SourcedAfterDelivery(w: World, s: State, i: nat, id: Bytes, o: NodeId)
    requires Closed(w) && i < |s.flight| && Sourced(w, s, id, o)
    ensures Sourced(w, AfterDelivery(w, s, i), id, o)
  {
    var s', d := AfterDelivery(w, s, i), s.flight[i];
    LogAfterDelivery(w, s, i);
    forall p | p in s'.log && Id(w, p.env) == id && p.node in w.peers
      ensures Source(w, s', id, o, p.from, p.node, p.env.ttl)
    {
      SourceKept(w, s, s', id, o, p.from, p.node, p.env.ttl);
    }
    forall c | c in s'.flight && Id(w, c.env) == id && c.to in w.peers
      ensures Accepts(w.crypto, c.env.payload) && Source(w, s', id, o, c.from, c.to, c.env.ttl)
    {
      FlightAfterDelivery(w, s, i, c);
      if c in s.flight {
        SourceKept(w, s, s', id, o, c.from, c.to, c.env.ttl);
      } else {
        SentOn(w, s, i, c);
        var p := Processing(d.to, d.from, d.env, s.now);
        assert p in s'.log && p.node == c.from && Id(w, p.env) == id && p.env.ttl == c.env.ttl + 1;
        assert HandledAt(w, s', id, c.from, c.env.ttl + 1);
      }
    }
  }

  lemma HandledAfterDelivery(w: World, s: State, i: nat, id: Bytes, n: NodeId, t: int)
    requires i < |s.flight| && HandledAt(w, AfterDelivery(w, s, i), id, n, t)
    ensures var d := s.flight[i];
            HandledAt(w, s, id, n, t) || (!Has(s, id, n) && n == d.to && t == d.env.ttl && Id(w, d.env) == id)
  {
    LogAfterDelivery(w, s, i);
    var p :| p in AfterDelivery(w, s, i).log && p.node == n && Id(w, p.env) == id && p.env.ttl == t;
    if p in s.log { assert HandledAt(w, s, id, n, t); }
  }

  lemma RecordedAfterDelivery(w: World, s: State, i: nat, id: Bytes, o: NodeId)
    requires i < |s.flight| && Recorded(w, s, id) && Sourced(w, s, id, o)
    ensures Recorded(w, AfterDelivery(w, s, i), id)
  {
    var s', d := AfterDelivery(w, s, i), s.flight[i];
    LogAfterDelivery(w, s, i);
    forall n | n in w.peers && Has(s', id, n)
      ensures exists t :: HandledAt(w, s', id, n, t)
    {
      if Has(s, id, n) {
        var t :| HandledAt(w, s, id, n, t);
        HandledKept(w, s, s', id, n, t);
      } else {
        assert n == d.to && Id(w, d.env) == id;
        assert d in s.flight;
        assert Processing(d.to, d.from, d.env, s.now) in s'.log;
        assert HandledAt(w, s', id, n, d.env.ttl);
      }
    }
    forall n, t, u | HandledAt(w, s', id, n, t) && HandledAt(w, s', id, n, u)
      ensures t == u
    {
      HandledAfterDelivery(w, s, i, id, n, t);
      HandledAfterDelivery(w, s, i, id, n, u);
    }
  }

  lemma SpreadAfterDelivery(w: World, s: State, i: nat, id: Bytes)
    requires i < |s.flight| && Spread(w, s, id)
    ensures Spread(w, AfterDelivery(w, s, i), id)
  {
    var s', d := AfterDelivery(w, s, i), s.flight[i];
    LogAfterDelivery(w, s, i);
    forall p, q | p in s'.log && Id(w, p.env) == id && p.env.ttl > 0 && q in PeersOf(w, p.node) && q != p.from
      ensures Owed(w, s', id, q)
    {
      if p in s.log {
        OwedAfterDelivery(w, s, i, id, q);
      } else {
        SentToAll(w, s, i, q);
        var c := Copy(d.to, q, d.env.(ttl := d.env.ttl - 1));
        assert c in s'.flight && c.to == q && Id(w, c.env) == id;
      }
    }
  }

  /** A state that differs from `s` only in what does not concern the message. */
  ghost predicate SameFor(w: World, s: State, s': State, id: Bytes) {
    && s'.log == s.log
    && (forall n :: Has(s, id, n) <==> Has(s', id, n))
    && (forall c: Copy :: Id(w, c.env) == id ==> (c in s.flight <==> c in s'.flight))
  }

  lemma SameForKeeps(w: World, s: State, s': State, id: Bytes, o: NodeId)
    requires SameFor(w, s, s', id) && FloodInv(w, s, id, o)
    ensures FloodInv(w, s', id, o)
  {
    HandledSame(w, s, s', id);
    forall q | Owed(w, s, id, q) ensures Owed(w, s', id, q) {
      OwedSame(w, s, s', id, q);
    }
  }

  lemma HandledSame(w: World, s: State, s': State, id: Bytes)
    requires s'.log == s.log
    ensures forall n, t :: HandledAt(w, s, id, n, t) <==> HandledAt(w, s', id, n, t)
  {
  }

  lemma OwedSame(w: World, s: State, s': State, id: Bytes, q: NodeId)
    requires SameFor(w, s, s', id) && Owed(w, s, id, q)
    ensures Owed(w, s', id, q)
  {
    if !Has(s, id, q) {
      var c :| c in s.flight && c.to == q && Id(w, c.env) == id;
      assert c in s'.flight;
    }
  }

  lemma OriginateSourced(w: World, s: State, e: Event, id: Bytes, o: NodeId)
    requires Closed(w) && OriginIs(w, id, o) && Sourced(w, s, id, o) && e.Originate? && Enabled(w, s, e)
    ensures Sourced(w, Apply(w, s, e), id, o)
  {
    var s' := Apply(w, s, e);
    HandledSame(w, s, s', id);
    forall c | c in s'.flight && Id(w, c.env) == id && c.to in w.peers
      ensures Accepts(w.crypto, c.env.payload) && Source(w, s', id, o, c.from, c.to, c.env.ttl)
    {
      if c !in s.flight {
        assert c in CopiesTo(e.origin, e.targets, Envelope(e.msg, DEFAULT_TTL));
        assert c.env == Envelope(e.msg, DEFAULT_TTL) && c.from == e.origin && c.to in e.targets;
      }
    }
  }

  lemma OriginateKeeps(w: World, s: State, e: Event, id: Bytes, o: NodeId)
    requires Closed(w) && OriginIs(w, id, o) && FloodInv(w, s, id, o) && e.Originate? && Enabled(w, s, e)
    ensures FloodInv(w, Apply(w, s, e), id, o)
  {
    var s' := Apply(w, s, e);
    OriginateSourced(w, s, e, id, o);
    HandledSame(w, s, s', id);
    assert forall n :: Has(s', id, n) ==> Has(s, id, n);
    forall q | Owed(w, s, id, q) ensures Owed(w, s', id, q) {
      OwedAfterOriginate(w, s, e, id, q);
    }
  }

  lemma OwedAfterOriginate(w: World, s: State, e: Event, id: Bytes, q: NodeId)
    requires e.Originate? && Enabled(w, s, e)
    ensures Owed(w, s, id, q) ==> Owed(w, Apply(w, s, e), id, q)
    ensures w.crypto.digest(e.msg) == id && q in e.targets ==> Owed(w, Apply(w, s, e), id, q)
  {
    var s' := Apply(w, s, e);
    var env := Envelope(e.msg, DEFAULT_TTL);
    if Awaits(w, s, id, q) {
      var c :| c in s.flight && c.to == q && Id(w, c.env) == id;
      assert c in s'.flight;
    }
    if w.crypto.digest(e.msg) == id && q in e.targets {
      var j :| 0 <= j < |e.targets| && e.targets[j] == q;
      assert CopiesTo(e.origin, e.targets, env)[j] == Copy(e.origin, q, env);
      assert Copy(e.origin, q, env) in s'.flight;
    }
  }

  lemma QuietStep(w: World, s: State, e: Event, id: Bytes)
    requires Enabled(w, s, e) && Harmless(w, s, e, id, ForTargets) && !e.Originate? && !e.Deliver?
    requires e.Inject? ==> Id(w, e.copy.env) != id
    ensures SameFor(w, s, Apply(w, s, e), id)
  {
    if e.Lose? {
      forall c: Copy | Id(w, c.env) == id
        ensures c in s.flight <==> c in Apply(w, s, e).flight
      {
        RemoveKeeps(s.flight, e.i, c);
      }
    }
  }

  lemma InjectKeeps(w: World, s: State, c: Copy, id: Bytes, o: NodeId)
    requires Closed(w) && OriginIs(w, id, o) && FloodInv(w, s, id, o)
    requires Harmless(w, s, Inject(c), id, ForCoverage) && Id(w, c.env) == id
    ensures FloodInv(w, Apply(w, s, Inject(c)), id, o)
  {
    var s' := Apply(w, s, Inject(c));
    HandledSame(w, s, s', id);
    assert forall n :: Has(s', id, n) <==> Has(s, id, n);
    forall q | Owed(w, s, id, q) ensures Owed(w, s', id, q) { OwedAfterInject(w, s, c, id, q); }
  }

  lemma OwedAfterInject(w: World, s: State, c: Copy, id: Bytes, q: NodeId)
    requires Owed(w, s, id, q)
    ensures Owed(w, Apply(w, s, Inject(c)), id, q)
  {
    if Awaits(w, s, id, q) {
      var x :| x in s.flight && x.to == q && Id(w, x.env) == id;
      assert x in Apply(w, s, Inject(c)).flight;
    }
  }

  lemma FloodInvStep(w: World, s: State, e: Event, id: Bytes, o: NodeId)
    requires Closed(w) && OriginIs(w, id, o) && FloodInv(w, s, id, o)
    requires Enabled(w, s, e) && Harmless(w, s, e, id, ForCoverage)
    ensures FloodInv(w, Apply(w, s, e), id, o)
  {
    match e
    case Originate(_, _, _) => OriginateKeeps(w, s, e, id, o);
    case Deliver(i) =>
      SourcedAfterDelivery(w, s, i, id, o);
      RecordedAfterDelivery(w, s, i, id, o);
      SpreadAfterDelivery(w, s, i, id);
    case Inject(c) =>
      if Id(w, c.env) == id {
        InjectKeeps(w, s, c, id, o);
      } else {
        QuietStep(w, s, e, id);
        SameForKeeps(w, s, Apply(w, s, e), id, o);
      }
    case _ =>
      QuietStep(w, s, e, id);
      SameForKeeps(w, s, Apply(w, s, e), id, o);
  }

  /** What a node was owed it still is after any harmless step. */
  lemma OwedStep(w: World, s: State, e: Event, id: Bytes, q: NodeId)
    requires Enabled(w, s, e) && Harmless(w, s, e, id, ForTargets) && Owed(w, s, id, q)
    ensures Owed(w, Apply(w, s, e), id, q)
  {
    match e
    case Originate(_, _, _) => OwedAfterOriginate(w, s, e, id, q);
    case Deliver(i) => OwedAfterDelivery(w, s, i, id, q);
    case Inject(c) => OwedAfterInject(w, s, c, id, q);
    case _ =>
      QuietStep(w, s, e, id);
      OwedSame(w, s, Apply(w, s, e), id, q);
  }

  // ---------- counting: a message that dies of ttl 0 has visited every node ----------

  ghost predicate HandledAbove(w: World, s: State, id: Bytes, n: NodeId, t: int) {
    exists u :: t <= u && HandledAt(w, s, id, n, u)
  }

  /** 17 - t different nodes of the network that handled the message with ttl at least `t`. */
  ghost predicate IsChain(w: World, s: State, id: Bytes, t: int, ns: set<NodeId>) {
    |ns| == DEFAULT_TTL + 1 - t && forall x :: x in ns ==> x in w.peers && HandledAbove(w, s, id, x, t)
  }

  /** A copy handled with ttl `t` has a chain of 17 - t different nodes behind it. */
  lemma {:induction false} Chain(w: World, s: State, id: Bytes, o: NodeId, n: NodeId, t: int)
    requires FloodInv(w, s, id, o) && n in w.peers && HandledAt(w, s, id, n, t) && 0 <= t <= DEFAULT_TTL
    ensures exists ns :: IsChain(w, s, id, t, ns)
    decreases DEFAULT_TTL - t
  {
    if t == DEFAULT_TTL {
      assert HandledAbove(w, s, id, n, t);
      assert IsChain(w, s, id, t, {n});
    } else {
      var p :| p in s.log && p.node == n && Id(w, p.env) == id && p.env.ttl == t;
      assert HandledAt(w, s, id, p.from, t + 1);
      Chain(w, s, id, o, p.from, t + 1);
      var rest :| IsChain(w, s, id, t + 1, rest);
      ExtendChain(w, s, id, rest, n, t);
    }
  }

  lemma ExtendChain(w: World, s: State, id: Bytes, rest: set<NodeId>, n: NodeId, t: int)
    requires Recorded(w, s, id) && n in w.peers && HandledAt(w, s, id, n, t) && IsChain(w, s, id, t + 1, rest)
    ensures IsChain(w, s, id, t, rest + {n})
  {
    assert forall u :: HandledAt(w, s, id, n, u) ==> u == t;
    assert !HandledAbove(w, s, id, n, t + 1);
    forall x | x in rest + {n}
      ensures HandledAbove(w, s, id, x, t)
    {
      if x in rest {
        var u :| t + 1 <= u && HandledAt(w, s, id, x, u);
      }
    }
  }

  lemma SubsetOfEqualSize<T>(a: set<T>, b: set<T>)
    requires a <= b && |b| <= |a|
    ensures a == b
  {
    assert b == a + (b - a);
    assert |b| == |a| + |b - a|;
  }

  /** In a network of at most 17 nodes, a copy handled with ttl 0 was handled everywhere. */
  lemma DeadCopyVisitedAll(w: World, s: State, id: Bytes, o: NodeId, n: NodeId, v: NodeId)
    requires FloodInv(w, s, id, o) && |w.peers| <= DEFAULT_TTL + 1
    requires n in w.peers && HandledAt(w, s, id, n, 0) && v in w.peers
    ensures Has(s, id, v)
  {
    Chain(w, s, id, o, n, 0);
    var ns :| IsChain(w, s, id, 0, ns);
    forall x | x in ns ensures x in w.peers && Has(s, id, x) {
      var u :| 0 <= u && HandledAt(w, s, id, x, u);
    }
    assert |w.peers.Keys| == |w.peers|;
    SubsetOfEqualSize(ns, w.peers.Keys);
  }

  // ---------- coverage ----------

  lemma {:induction false} SettledCovers(w: World, s: State, id: Bytes, o: NodeId, v: NodeId, k: nat)
    requires Closed(w) && |w.peers| <= DEFAULT_TTL + 1 && o in w.peers
    requires FloodInv(w, s, id, o) && Launched(w, s, id, o)
    requires forall c :: c in s.flight ==> Id(w, c.env) != id
    requires Walk(w, o, v, k)
    ensures v in w.peers && (v != o ==> Has(s, id, v))
    decreases k
  {
    if k > 0 {
      var r :| Walk(w, o, r, k - 1) && v in PeersOf(w, r);
      SettledCovers(w, s, id, o, r, k - 1);
      NextCovered(w, s, id, o, r, v);
    }
  }

  /** One link further. */
  lemma NextCovered(w: World, s: State, id: Bytes, o: NodeId, r: NodeId, v: NodeId)
    requires Closed(w) && |w.peers| <= DEFAULT_TTL + 1
    requires FloodInv(w, s, id, o) && Launched(w, s, id, o)
    requires forall c :: c in s.flight ==> Id(w, c.env) != id
    requires r in w.peers && (r != o ==> Has(s, id, r)) && v in PeersOf(w, r)
    ensures v in w.peers && (v != o ==> Has(s, id, v))
  {
    if r == o {
      assert Owed(w, s, id, v);
    } else {
      var t :| HandledAt(w, s, id, r, t);
      if t > 0 {
        var p :| p in s.log && p.node == r && Id(w, p.env) == id && p.env.ttl == t;
        if v == p.from {
          assert Source(w, s, id, o, v, r, t);
        } else {
          assert Owed(w, s, id, v);
        }
      } else {
        DeadCopyVisitedAll(w, s, id, o, r, v);
      }
    }
  }

  ghost predicate HarmlessStep(w: World, s: State, evs: seq<Event>, id: Bytes, why: Purpose, k: nat)
    requires k < |evs|
  {
    Valid(w, s, evs[..k]) && Harmless(w, Exec(w, s, evs[..k]), evs[k], id, why)
  }

  /** Every event of a run is harmless to the message. */
  ghost predicate AllHarmless(w: World, s: State, evs: seq<Event>, id: Bytes, why: Purpose)
    requires Valid(w, s, evs)
  {
    forall k :: 0 <= k < |evs| ==> HarmlessStep(w, s, evs, id, why, k)
  }

  lemma HarmlessAt(w: World, s: State, evs: seq<Event>, id: Bytes, why: Purpose, k: nat)
    requires Valid(w, s, evs) && AllHarmless(w, s, evs, id, why) && k < |evs|
    ensures Valid(w, s, evs[..k]) && Enabled(w, Exec(w, s, evs[..k]), evs[k])
    ensures Harmless(w, Exec(w, s, evs[..k]), evs[k], id, why)
  {
    assert HarmlessStep(w, s, evs, id, why, k);
    ValidPrefix(w, s, evs, k);
  }

  lemma HarmlessInit(w: World, s: State, evs: seq<Event>, id: Bytes, why: Purpose)
    requires evs != [] && Valid(w, s, evs) && AllHarmless(w, s, evs, id, why)
    ensures AllHarmless(w, s, evs[..|evs| - 1], id, why)
  {
    var init := evs[..|evs| - 1];
    forall k | 0 <= k < |init| ensures HarmlessStep(w, s, init, id, why, k) {
      HarmlessAt(w, s, evs, id, why, k);
      assert init[..k] == evs[..k];
    }
  }

  /** A run that is harmless for coverage is so for every purpose. */
  lemma HarmlessForLess(w: World, s: State, evs: seq<Event>, id: Bytes, why: Purpose)
    requires Valid(w, s, evs) && AllHarmless(w, s, evs, id, ForCoverage)
    ensures AllHarmless(w, s, evs, id, why)
  {
    forall k | 0 <= k < |evs| ensures HarmlessStep(w, s, evs, id, why, k) {
      HarmlessAt(w, s, evs, id, ForCoverage, k);
    }
  }

  lemma {:induction false} FloodInvHolds(w: World, evs: seq<Event>, id: Bytes, o: NodeId, k: nat)
    requires Closed(w) && OriginIs(w, id, o)
    requires Valid(w, Start(), evs) && AllHarmless(w, Start(), evs, id, ForCoverage) && k <= |evs|
    ensures Valid(w, Start(), evs[..k]) && FloodInv(w, Exec(w, Start(), evs[..k]), id, o)
    decreases k
  {
    ValidPrefix(w, Start(), evs, k);
    if k == 0 {
      StartInv(w, id, o);
    } else {
      FloodInvHolds(w, evs, id, o, k - 1);
      HarmlessAt(w, Start(), evs, id, ForCoverage, k - 1);
      ValidPrefix(w, Start(), evs, k - 1);
      FloodInvStep(w, Exec(w, Start(), evs[..k - 1]), evs[k - 1], id, o);
    }
  }

  lemma StartInv(w: World, id: Bytes, o: NodeId)
    ensures FloodInv(w, Start(), id, o)
  {
  }

  lemma OwedNext(w: World, evs: seq<Event>, id: Bytes, q: NodeId, k: nat)
    requires Valid(w, Start(), evs) && AllHarmless(w, Start(), evs, id, ForTargets) && k < |evs|
    requires Valid(w, Start(), evs[..k]) && Owed(w, Exec(w, Start(), evs[..k]), id, q)
    ensures Valid(w, Start(), evs[..k + 1]) && Owed(w, Exec(w, Start(), evs[..k + 1]), id, q)
  {
    HarmlessAt(w, Start(), evs, id, ForTargets, k);
    ValidPrefix(w, Start(), evs, k);
    OwedStep(w, Exec(w, Start(), evs[..k]), evs[k], id, q);
  }

  lemma OwedAtLaunch(w: World, evs: seq<Event>, id: Bytes, j: nat, q: NodeId)
    requires Valid(w, Start(), evs) && j < |evs|
    requires evs[j].Originate? && w.crypto.digest(evs[j].msg) == id && q in evs[j].targets
    ensures Valid(w, Start(), evs[..j + 1]) && Owed(w, Exec(w, Start(), evs[..j + 1]), id, q)
  {
    ValidPrefix(w, Start(), evs, j);
    OwedAfterOriginate(w, Exec(w, Start(), evs[..j]), evs[j], id, q);
  }

  /** Once sent to, a node is owed the message for the rest of the run. */
  lemma {:induction false} OwedSinceLaunch(w: World, evs: seq<Event>, id: Bytes, j: nat, q: NodeId, k: nat)
    requires Valid(w, Start(), evs) && AllHarmless(w, Start(), evs, id, ForTargets) && j < k <= |evs|
    requires evs[j].Originate? && w.crypto.digest(evs[j].msg) == id && q in evs[j].targets
    ensures Valid(w, Start(), evs[..k]) && Owed(w, Exec(w, Start(), evs[..k]), id, q)
    decreases k
  {
    if k == j + 1 {
      OwedAtLaunch(w, evs, id, j, q);
    } else {
      OwedSinceLaunch(w, evs, id, j, q, k - 1);
      OwedNext(w, evs, id, q, k - 1);
    }
  }

  /** A node processed the message: it passed dedup and verification there. */
  ghost predicate Processed(w: World, s: State, id: Bytes, n: NodeId) {
    exists p :: p in s.log && p.node == n && Id(w, p.env) == id
  }

  /** Copies of the message on their way to nodes of the network are accepted, and such a node that has it handled it. */
  ghost predicate Taken(w: World, s: State, id: Bytes) {
    && (forall c :: c in s.flight && Id(w, c.env) == id && c.to in w.peers ==> Accepts(w.crypto, c.env.payload))
    && (forall n :: n in w.peers && Has(s, id, n) ==> Processed(w, s, id, n))
  }

  lemma ProcessedKept(w: World, s: State, s': State, id: Bytes, n: NodeId)
    requires s.log <= s'.log && Processed(w, s, id, n)
    ensures Processed(w, s', id, n)
  {
    var p :| p in s.log && p.node == n && Id(w, p.env) == id;
    assert p in s'.log;
  }

  lemma TakenAfterDelivery(w: World, s: State, i: nat, id: Bytes)
    requires i < |s.flight| && Taken(w, s, id)
    ensures Taken(w, AfterDelivery(w, s, i), id)
  {
    var s', d := AfterDelivery(w, s, i), s.flight[i];
    LogAfterDelivery(w, s, i);
    forall c | c in s'.flight && Id(w, c.env) == id && c.to in w.peers ensures Accepts(w.crypto, c.env.payload) {
      FlightAfterDelivery(w, s, i, c);
      if c !in s.flight { SentOn(w, s, i, c); }
    }
    forall n | n in w.peers && Has(s', id, n) ensures Processed(w, s', id, n) {
      if Has(s, id, n) {
        ProcessedKept(w, s, s', id, n);
      } else {
        assert d in s.flight && n == d.to;
        assert Processing(d.to, d.from, d.env, s.now) in s'.log;
      }
    }
  }

  lemma TakenStep(w: World, s: State, e: Event, id: Bytes)
    requires Taken(w, s, id) && Enabled(w, s, e) && Harmless(w, s, e, id, ForTargets)
    ensures Taken(w, Apply(w, s, e), id)
  {
    match e
    case Deliver(i) => TakenAfterDelivery(w, s, i, id);
    case _ =>
      var s' := Apply(w, s, e);
      forall c | c in s'.flight && Id(w, c.env) == id && c.to in w.peers ensures Accepts(w.crypto, c.env.payload) {
        NewCopyTaken(w, s, e, id, c);
      }
      forall n | n in w.peers && Has(s', id, n) ensures Processed(w, s', id, n) {
        assert Has(s, id, n);
        ProcessedKept(w, s, s', id, n);
      }
  }

  lemma NewCopyTaken(w: World, s: State, e: Event, id: Bytes, c: Copy)
    requires Taken(w, s, id) && Enabled(w, s, e) && Harmless(w, s, e, id, ForTargets) && !e.Deliver?
    requires c in Apply(w, s, e).flight && Id(w, c.env) == id && c.to in w.peers
    ensures Accepts(w.crypto, c.env.payload)
  {
    if c !in s.flight {
      match e
      case Originate(o, m, targets) => assert c in CopiesTo(o, targets, Envelope(m, DEFAULT_TTL));
      case Lose(i) => RemoveKeeps(s.flight, i, c);
      case _ =>
    }
  }

  lemma {:induction false} TakenHolds(w: World, evs: seq<Event>, id: Bytes, k: nat)
    requires Valid(w, Start(), evs) && AllHarmless(w, Start(), evs, id, ForTargets) && k <= |evs|
    ensures Valid(w, Start(), evs[..k]) && Taken(w, Exec(w, Start(), evs[..k]), id)
    decreases k
  {
    ValidPrefix(w, Start(), evs, k);
    if k > 0 {
      TakenHolds(w, evs, id, k - 1);
      TakenNext(w, evs, id, k - 1);
    }
  }

  lemma TakenNext(w: World, evs: seq<Event>, id: Bytes, k: nat)
    requires Valid(w, Start(), evs) && AllHarmless(w, Start(), evs, id, ForTargets) && k < |evs|
    requires Valid(w, Start(), evs[..k]) && Taken(w, Exec(w, Start(), evs[..k]), id)
    ensures Valid(w, Start(), evs[..k + 1]) && Taken(w, Exec(w, Start(), evs[..k + 1]), id)
  {
    HarmlessAt(w, Start(), evs, id, ForTargets, k);
    ValidPrefix(w, Start(), evs, k);
    TakenStep(w, Exec(w, Start(), evs[..k]), evs[k], id);
  }

  /**
   A node of the network that the message was sent to has processed it once no copy is in flight, in
   networks of any size and among accepted injected copies of any ttl and in any name.
   */
  lemma SentMeansProcessed(w: World, evs: seq<Event>, j: nat, q: NodeId)
    requires Valid(w, Start(), evs) && j < |evs| && evs[j].Originate?
    requires AllHarmless(w, Start(), evs, w.crypto.digest(evs[j].msg), ForTargets)
    requires forall c :: c in Exec(w, Start(), evs).flight ==> Id(w, c.env) != w.crypto.digest(evs[j].msg)
    requires q in evs[j].targets && q in w.peers
    ensures Processed(w, Exec(w, Start(), evs), w.crypto.digest(evs[j].msg), q)
  {
    var id := w.crypto.digest(evs[j].msg);
    assert evs[..|evs|] == evs;
    TakenHolds(w, evs, id, |evs|);
    OwedSinceLaunch(w, evs, id, j, q, |evs|);
  }

  /**
   Coverage under every schedule. Whatever else happens in the network, injected copies of the very
   message included as long as they are benign, in every run that ends with no copy of the message in
   flight, every node reachable from the origin has processed it.
   */
  lemma FloodCoversNetwork(w: World, evs: seq<Event>, j: nat, v: NodeId, k: nat)
    requires Closed(w) && |w.peers| <= DEFAULT_TTL + 1 && DigestsDistinguish(w.crypto)
    requires Valid(w, Start(), evs) && j < |evs| && evs[j].Originate?
    requires evs[j].targets == PeersOf(w, evs[j].origin)
    requires AllHarmless(w, Start(), evs, w.crypto.digest(evs[j].msg), ForCoverage)
    requires forall c :: c in Exec(w, Start(), evs).flight ==> Id(w, c.env) != w.crypto.digest(evs[j].msg)
    requires Walk(w, evs[j].origin, v, k) && v != evs[j].origin
    ensures Processed(w, Exec(w, Start(), evs), w.crypto.digest(evs[j].msg), v)
  {
    var m, o := evs[j].msg, evs[j].origin;
    var id, s := w.crypto.digest(m), Exec(w, Start(), evs);
    assert evs[..|evs|] == evs;
    ValidPrefix(w, Start(), evs, j);
    SignerIsOrigin(w, m);
    FloodInvHolds(w, evs, id, o, |evs|);
    HarmlessForLess(w, Start(), evs, id, ForTargets);
    forall q | q in PeersOf(w, o) ensures Owed(w, s, id, q) {
      OwedSinceLaunch(w, evs, id, j, q, |evs|);
    }
    SettledCovers(w, s, id, o, v, k);
    var t :| HandledAt(w, s, id, v, t);
  }
}
