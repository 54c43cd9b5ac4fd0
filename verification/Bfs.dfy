/**
 How far and how fast a flood travels. Under any schedule, ttl + hops = DEFAULT_TTL + 1 for every
 copy, so nobody beyond that distance processes the message. Under lock-step delivery the flood
 is a breadth-first search: round `k` reaches exactly the nodes at distance `k`.
 */
module Bfs {
  import opened Common
  import opened Messages
  import opened Gossip
  import opened Network
  import opened Coverage

  const RADIUS := DEFAULT_TTL + 1

  // ---------- ttl + hops, under every schedule ----------

  ghost predicate Hopped(w: World, o: NodeId, n: NodeId, env: Envelope) {
    env.ttl <= DEFAULT_TTL && Walk(w, o, n, RADIUS - env.ttl)
  }

  ghost predicate HopInv(w: World, s: State, id: Bytes, o: NodeId) {
    && (forall c :: c in s.flight && Id(w, c.env) == id ==> Hopped(w, o, c.to, c.env))
    && (forall p :: p in s.log && Id(w, p.env) == id ==> Hopped(w, o, p.node, p.env))
  }

  lemma WalkOne(w: World, o: NodeId, q: NodeId)
    requires q in PeersOf(w, o)
    ensures Walk(w, o, q, 1)
  {
    assert Walk(w, o, o, 0);
  }

  lemma HopStep(w: World, s: State, e: Event, id: Bytes, o: NodeId)
    requires OriginIs(w, id, o) && HopInv(w, s, id, o) && Enabled(w, s, e)
    requires e.Inject? ==> Id(w, e.copy.env) != id
    ensures HopInv(w, Apply(w, s, e), id, o)
  {
    var s' := Apply(w, s, e);
    forall c | c in s'.flight && Id(w, c.env) == id
      ensures Hopped(w, o, c.to, c.env)
    {
      match e
      case Originate(_, m, targets) =>
        if c !in s.flight {
          assert c in CopiesTo(e.origin, targets, Envelope(m, DEFAULT_TTL));
          WalkOne(w, o, c.to);
        }
      case Deliver(i) =>
        FlightAfterDelivery(w, s, i, c);
        if c !in s.flight {
          SentOn(w, s, i, c);
          assert s.flight[i] in s.flight;
          assert Walk(w, o, s.flight[i].to, RADIUS - c.env.ttl - 1);
        }
      case Lose(i) => RemoveKeeps(s.flight, i, c);
      case _ =>
    }
    if e.Deliver? {
      assert s.flight[e.i] in s.flight;
    }
  }

  lemma {:induction false} HopInvHolds(w: World, evs: seq<Event>, id: Bytes, o: NodeId)
    requires OriginIs(w, id, o) && Valid(w, Start(), evs)
    requires forall e :: e in evs && e.Inject? ==> Id(w, e.copy.env) != id
    ensures HopInv(w, Exec(w, Start(), evs), id, o)
    decreases |evs|
  {
    if evs != [] {
      var init := evs[..|evs| - 1];
      HopInvHolds(w, init, id, o);
      HopStep(w, Exec(w, Start(), init), evs[|evs| - 1], id, o);
    }
  }

  /**
   In every run with genuine copies only, even with losses and dedup expiry, whoever processes the
   message is at the end of a walk from the origin whose length and the ttl add up to 17.
   */
  lemma TtlPlusHops(w: World, evs: seq<Event>, m: Signed, p: Processing)
    requires DigestsDistinguish(w.crypto)
    requires Valid(w, Start(), evs)
    requires forall e :: e in evs && e.Inject? ==> Id(w, e.copy.env) != w.crypto.digest(m)
    requires p in Exec(w, Start(), evs).log && Id(w, p.env) == w.crypto.digest(m)
    ensures 0 < RADIUS - p.env.ttl <= RADIUS && Walk(w, m.nodeId, p.node, RADIUS - p.env.ttl)
  {
    SignerIsOrigin(w, m);
    HopInvHolds(w, evs, w.crypto.digest(m), m.nodeId);
  }

  // ---------- the same for all traffic ----------

  /** `e` puts `c` into the network: as a copy of a new flood, or as an injected one. */
  predicate EntersBy(e: Event, c: Copy) {
    match e
    case Originate(o, m, targets) => c.from == o && c.to in targets && c.env == Envelope(m, DEFAULT_TTL)
    case Inject(x) => c == x
    case _ => false
  }

  /** At `n`, `env` has come as many hops from the receiver of `c` as it has lost ttl. */
  ghost predicate HopsOn(w: World, c: Copy, n: NodeId, env: Envelope) {
    && c.env.payload == env.payload && env.ttl <= c.env.ttl && Walk(w, c.to, n, c.env.ttl - env.ttl)
  }

  ghost predicate Entered(w: World, evs: seq<Event>, n: NodeId, env: Envelope) {
    exists e, c :: e in evs && EntersBy(e, c) && HopsOn(w, c, n, env)
  }

  ghost predicate AllEntered(w: World, s: State, evs: seq<Event>) {
    && (forall c :: c in s.flight ==> Entered(w, evs, c.to, c.env))
    && (forall p :: p in s.log ==> Entered(w, evs, p.node, p.env))
  }

  lemma EnteredLater(w: World, evs: seq<Event>, e: Event, n: NodeId, env: Envelope)
    requires Entered(w, evs, n, env)
    ensures Entered(w, evs + [e], n, env)
  {
    var x, c :| x in evs && EntersBy(x, c) && HopsOn(w, c, n, env);
    assert x in evs + [e];
  }

  lemma EnteredNow(w: World, evs: seq<Event>, e: Event, c: Copy)
    requires EntersBy(e, c)
    ensures Entered(w, evs + [e], c.to, c.env)
  {
    assert e in evs + [e] && HopsOn(w, c, c.to, c.env);
  }

  lemma EnteredOn(w: World, evs: seq<Event>, d: Copy, c: Copy)
    requires Entered(w, evs, d.to, d.env) && c.to in PeersOf(w, d.to) && d.env.ttl > 0
    requires c.env == d.env.(ttl := d.env.ttl - 1)
    ensures Entered(w, evs, c.to, c.env)
  {
    var e, x :| e in evs && EntersBy(e, x) && HopsOn(w, x, d.to, d.env);
    assert HopsOn(w, x, c.to, c.env);
  }

  lemma EntryStep(w: World, s: State, evs: seq<Event>, e: Event)
    requires AllEntered(w, s, evs) && Enabled(w, s, e)
    ensures AllEntered(w, Apply(w, s, e), evs + [e])
  {
    var u := Apply(w, s, e);
    forall c | c in u.flight ensures Entered(w, evs + [e], c.to, c.env) {
      CopyEntered(w, s, evs, e, c);
    }
    forall p | p in u.log ensures Entered(w, evs + [e], p.node, p.env) {
      if p !in s.log {
        LogAfterDelivery(w, s, e.i);
        assert s.flight[e.i] in s.flight;
      }
      EnteredLater(w, evs, e, p.node, p.env);
    }
  }

  lemma CopyEntered(w: World, s: State, evs: seq<Event>, e: Event, c: Copy)
    requires AllEntered(w, s, evs) && Enabled(w, s, e) && c in Apply(w, s, e).flight
    ensures Entered(w, evs + [e], c.to, c.env)
  {
    if c in s.flight {
      EnteredLater(w, evs, e, c.to, c.env);
    } else {
      match e
      case Originate(o, m, targets) =>
        assert c in CopiesTo(o, targets, Envelope(m, DEFAULT_TTL));
        EnteredNow(w, evs, e, c);
      case Inject(x) => EnteredNow(w, evs, e, c);
      case Deliver(i) =>
        FlightAfterDelivery(w, s, i, c);
        SentOn(w, s, i, c);
        assert s.flight[i] in s.flight;
        EnteredOn(w, evs, s.flight[i], c);
        EnteredLater(w, evs, e, c.to, c.env);
      case Lose(i) => RemoveKeeps(s.flight, i, c);
      case _ =>
    }
  }

  lemma {:induction false} AllEnteredHolds(w: World, evs: seq<Event>)
    requires Valid(w, Start(), evs)
    ensures AllEntered(w, Exec(w, Start(), evs), evs)
    decreases |evs|
  {
    if evs != [] {
      var init, e := evs[..|evs| - 1], evs[|evs| - 1];
      AllEnteredHolds(w, init);
      EntryStep(w, Exec(w, Start(), init), init, e);
      assert init + [e] == evs;
    }
  }

  /**
   In every run whatsoever, losses, dedup expiry and injected copies with any ttl included: whatever a
   node processes entered the network as some copy, by a flood or by injection, and its ttl is that
   copy's less the length of a walk from that copy's receiver.
   */
  lemma HopsFromEntry(w: World, evs: seq<Event>, p: Processing) returns (e: Event, c: Copy)
    requires Valid(w, Start(), evs) && p in Exec(w, Start(), evs).log
    ensures e in evs && EntersBy(e, c) && HopsOn(w, c, p.node, p.env)
  {
    AllEnteredHolds(w, evs);
    assert Entered(w, evs, p.node, p.env);
    e, c :| e in evs && EntersBy(e, c) && HopsOn(w, c, p.node, p.env);
  }

  // ---------- lock-step delivery ----------

  /** `evs` delivers, in any order, exactly the copies that are in flight in `s`. */
  ghost predicate IsRound(w: World, s: State, evs: seq<Event>) {
    && Valid(w, s, evs) && |evs| == |s.flight|
    && forall j :: 0 <= j < |evs| ==> evs[j].Deliver? && evs[j].i < |s.flight| - j
  }

  ghost predicate LockStep(w: World, s: State, rounds: seq<seq<Event>>)
    decreases |rounds|, 0
  {
    rounds == [] ||
    (LockStep(w, s, rounds[..|rounds| - 1])
     && IsRound(w, AfterRounds(w, s, rounds[..|rounds| - 1]), rounds[|rounds| - 1]))
  }

  ghost function AfterRounds(w: World, s: State, rounds: seq<seq<Event>>): State
    requires LockStep(w, s, rounds)
    decreases |rounds|, 1
  {
    if rounds == [] then s
    else Exec(w, AfterRounds(w, s, rounds[..|rounds| - 1]), rounds[|rounds| - 1])
  }

  /** `u` is reached from `s` after `j` deliveries of a round whose copies of the message have ttl `t`. */
  ghost predicate RoundInv(w: World, s: State, u: State, id: Bytes, t: int, j: nat)
    requires j <= |s.flight|
  {
    var n := |s.flight| - j;
    && |u.flight| >= n
    && (forall i :: 0 <= i < n ==> u.flight[i] in s.flight)
    && (forall c :: c in s.flight && Id(w, c.env) == id ==> c in u.flight[..n] || Has(u, id, c.to))
    && (forall i :: n <= i < |u.flight| && Id(w, u.flight[i].env) == id ==> u.flight[i].env.ttl == t - 1)
    && (forall p :: p in u.log && Id(w, p.env) == id ==> p in s.log || p.env.ttl == t)
  }

  ghost predicate AllAtTtl(w: World, s: State, id: Bytes, t: int) {
    forall c :: c in s.flight && Id(w, c.env) == id ==> c.env.ttl == t
  }

  lemma TakeOfRemove(xs: seq<Copy>, more: seq<Copy>, i: nat, n: nat)
    requires i < n <= |xs|
    ensures (Remove(xs, i) + more)[..n - 1] == Remove(xs[..n], i)
  {
  }

  lemma RoundStep(w: World, s: State, u: State, id: Bytes, t: int, j: nat, i: nat)
    requires j < |s.flight| && RoundInv(w, s, u, id, t, j) && AllAtTtl(w, s, id, t) && i < |s.flight| - j
    ensures RoundInv(w, s, AfterDelivery(w, u, i), id, t, j + 1)
  {
    var n := |s.flight| - j;
    var u', d := AfterDelivery(w, u, i), u.flight[i];
    assert d in s.flight;
    TakeOfRemove(u.flight, CopiesOf(d.to, ReactionTo(w, u, i).sends), i, n);
    forall c | c in s.flight && Id(w, c.env) == id
      ensures c in u'.flight[..n - 1] || Has(u', id, c.to)
    {
      if !Has(u, id, c.to) && c != d {
        RemoveKeeps(u.flight[..n], i, c);
      }
    }
    forall k | 0 <= k < n - 1
      ensures u'.flight[k] in s.flight
    {
      assert u'.flight[k] == u'.flight[..n - 1][k];
      RemoveKeeps(u.flight[..n], i, u'.flight[k]);
    }
    forall k | n - 1 <= k < |u'.flight| && Id(w, u'.flight[k].env) == id
      ensures u'.flight[k].env.ttl == t - 1
    {
      if k < |u.flight| - 1 {
        assert u'.flight[k] == u.flight[k + 1];
      } else {
        var c := u'.flight[k];
        assert c == CopiesOf(d.to, ReactionTo(w, u, i).sends)[k - (|u.flight| - 1)];
        SentOn(w, u, i, c);
      }
    }
  }

  lemma RoundPrefix(w: World, s: State, evs: seq<Event>, j: nat)
    requires IsRound(w, s, evs) && j < |evs|
    ensures evs[j].Deliver? && evs[j].i < |s.flight| - j && Valid(w, s, evs[..j]) && Valid(w, s, evs[..j + 1])
    ensures evs[j].i < |Exec(w, s, evs[..j]).flight|
            && Exec(w, s, evs[..j + 1]) == AfterDelivery(w, Exec(w, s, evs[..j]), evs[j].i)
  {
    ValidPrefix(w, s, evs, j);
  }

  lemma {:induction false} RoundInvHolds(w: World, s: State, evs: seq<Event>, id: Bytes, t: int, j: nat)
    requires IsRound(w, s, evs) && AllAtTtl(w, s, id, t) && j <= |evs|
    ensures Valid(w, s, evs[..j]) && RoundInv(w, s, Exec(w, s, evs[..j]), id, t, j)
    decreases j
  {
    if j > 0 {
      RoundPrefix(w, s, evs, j - 1);
      RoundInvHolds(w, s, evs, id, t, j - 1);
      RoundStep(w, s, Exec(w, s, evs[..j - 1]), id, t, j - 1, evs[j - 1].i);
    }
  }

  /** A whole round: every copy of the message arrives, and what is then in flight is one hop older. */
  lemma RoundEffect(w: World, s: State, evs: seq<Event>, id: Bytes, t: int)
    requires IsRound(w, s, evs) && AllAtTtl(w, s, id, t)
    ensures var u := Exec(w, s, evs);
            && AllAtTtl(w, u, id, t - 1)
            && (forall q :: Owed(w, s, id, q) && !Has(s, id, q) ==> Has(u, id, q))
            && (forall p :: p in u.log && Id(w, p.env) == id ==> p in s.log || p.env.ttl == t)
  {
    assert evs[..|evs|] == evs;
    RoundInvHolds(w, s, evs, id, t, |evs|);
    var u := Exec(w, s, evs);
    assert u.flight[..0] == [];
    forall q | Owed(w, s, id, q) && !Has(s, id, q)
      ensures Has(u, id, q)
    {
      var c :| c in s.flight && c.to == q && Id(w, c.env) == id;
    }
  }

  /** Deliveries keep the flood invariant, the hop count, and what nodes have. */
  ghost predicate Steady(w: World, s: State, id: Bytes, o: NodeId) {
    FloodInv(w, s, id, o) && HopInv(w, s, id, o) && Launched(w, s, id, o)
  }

  lemma {:induction false} DeliveriesKeep(w: World, s: State, evs: seq<Event>, id: Bytes, o: NodeId)
    requires Closed(w) && OriginIs(w, id, o) && Valid(w, s, evs) && Steady(w, s, id, o)
    requires forall e :: e in evs ==> e.Deliver?
    ensures Steady(w, Exec(w, s, evs), id, o)
    ensures forall n :: Has(s, id, n) ==> Has(Exec(w, s, evs), id, n)
    decreases |evs|
  {
    if evs != [] {
      var init, e := evs[..|evs| - 1], evs[|evs| - 1];
      DeliveriesKeep(w, s, init, id, o);
      var u := Exec(w, s, init);
      FloodInvStep(w, u, e, id, o);
      HopStep(w, u, e, id, o);
      forall q | q in PeersOf(w, o) ensures Owed(w, Apply(w, u, e), id, q) {
        OwedAfterDelivery(w, u, e.i, id, q);
      }
    }
  }

  /** After round `k` of a lock-step flood. */
  ghost predicate BfsInv(w: World, s: State, id: Bytes, o: NodeId, k: nat) {
    && Steady(w, s, id, o)
    && AllAtTtl(w, s, id, DEFAULT_TTL - k)
    && (forall p :: p in s.log && Id(w, p.env) == id ==> p.env.ttl >= RADIUS - k)
    && (forall n, d: nat :: d <= k && Walk(w, o, n, d) && n != o ==> Has(s, id, n))
  }

  /** The next ring is on its way: a node one link further is owed the message. */
  lemma NextRingOwed(w: World, s: State, id: Bytes, o: NodeId, k: nat, n: NodeId)
    requires BfsInv(w, s, id, o, k) && k < RADIUS && Walk(w, o, n, k + 1) && n != o
    ensures Owed(w, s, id, n)
  {
    var r :| Walk(w, o, r, k) && n in PeersOf(w, r);
    if r != o {
      assert Has(s, id, r);
      var t :| HandledAt(w, s, id, r, t);
      var p :| p in s.log && p.node == r && Id(w, p.env) == id && p.env.ttl == t;
      if n == p.from {
        assert Source(w, s, id, o, n, r, t);
      }
    }
  }

  lemma BfsRound(w: World, s: State, evs: seq<Event>, id: Bytes, o: NodeId, k: nat)
    requires Closed(w) && OriginIs(w, id, o) && BfsInv(w, s, id, o, k) && k < RADIUS && IsRound(w, s, evs)
    ensures BfsInv(w, Exec(w, s, evs), id, o, k + 1)
  {
    var u := Exec(w, s, evs);
    assert forall e :: e in evs ==> e.Deliver?;
    DeliveriesKeep(w, s, evs, id, o);
    RoundEffect(w, s, evs, id, DEFAULT_TTL - k);
    forall n, d: nat | d <= k + 1 && Walk(w, o, n, d) && n != o
      ensures Has(u, id, n)
    {
      if d == k + 1 {
        NextRingOwed(w, s, id, o, k, n);
      }
    }
  }

  /** A state the message has not touched. */
  ghost predicate Untouched(w: World, s: State, id: Bytes) {
    && (forall c :: c in s.flight ==> Id(w, c.env) != id)
    && (forall p :: p in s.log ==> Id(w, p.env) != id)
    && (forall n :: !Has(s, id, n))
  }

  lemma BfsStart(w: World, s: State, e: Event, id: Bytes, o: NodeId)
    requires Closed(w) && OriginIs(w, id, o) && Untouched(w, s, id)
    requires e.Originate? && e.origin == o && e.targets == PeersOf(w, o) && Enabled(w, s, e)
    requires w.crypto.digest(e.msg) == id
    ensures BfsInv(w, Apply(w, s, e), id, o, 0)
  {
    var u := Apply(w, s, e);
    FloodInvStep(w, s, e, id, o);
    HopStep(w, s, e, id, o);
    forall q | q in PeersOf(w, o) ensures Owed(w, u, id, q) {
      OwedAfterOriginate(w, s, e, id, q);
    }
    forall c | c in u.flight && Id(w, c.env) == id ensures c.env.ttl == DEFAULT_TTL {
      assert c in CopiesTo(o, e.targets, Envelope(e.msg, DEFAULT_TTL));
    }
  }

  lemma {:induction false} BfsInvHolds(w: World, s: State, rounds: seq<seq<Event>>, id: Bytes, o: NodeId)
    requires Closed(w) && OriginIs(w, id, o) && BfsInv(w, s, id, o, 0)
    requires LockStep(w, s, rounds) && |rounds| <= RADIUS
    ensures BfsInv(w, AfterRounds(w, s, rounds), id, o, |rounds|)
    decreases |rounds|
  {
    if rounds != [] {
      var init := rounds[..|rounds| - 1];
      BfsInvHolds(w, s, init, id, o);
      BfsRound(w, AfterRounds(w, s, init), rounds[|rounds| - 1], id, o, |init|);
    }
  }

  /** `n` is at distance exactly `k` from `o`. */
  ghost predicate IsDistance(w: World, o: NodeId, n: NodeId, k: nat) {
    Walk(w, o, n, k) && forall d: nat :: d < k ==> !Walk(w, o, n, d)
  }

  /** `n` is within `k` links of `o`. */
  ghost predicate InBall(w: World, o: NodeId, n: NodeId, k: int) {
    exists d: nat :: d <= k && Walk(w, o, n, d)
  }

  lemma RingOfBalls(w: World, o: NodeId, n: NodeId, k: nat)
    ensures IsDistance(w, o, n, k) <==> InBall(w, o, n, k) && !InBall(w, o, n, k - 1)
  {
    if InBall(w, o, n, k) && !InBall(w, o, n, k - 1) {
      var d: nat :| d <= k && Walk(w, o, n, d);
    }
  }

  lemma WalkEndsInside(w: World, o: NodeId, n: NodeId, k: nat)
    requires Closed(w) && Walk(w, o, n, k) && n != o
    ensures n in w.peers
  {
    var r :| Walk(w, o, r, k - 1) && n in PeersOf(w, r);
  }

  lemma BallReached(w: World, s: State, id: Bytes, o: NodeId, k: nat, d: nat, n: NodeId)
    requires Closed(w) && BfsInv(w, s, id, o, k) && n != o && d <= k && Walk(w, o, n, d)
    ensures Processed(w, s, id, n)
  {
    WalkEndsInside(w, o, n, d);
    assert Has(s, id, n);
    var t :| HandledAt(w, s, id, n, t);
    var p :| p in s.log && p.node == n && Id(w, p.env) == id && p.env.ttl == t;
  }

  lemma BallBound(w: World, s: State, id: Bytes, o: NodeId, k: nat, n: NodeId)
    requires BfsInv(w, s, id, o, k) && Processed(w, s, id, n)
    ensures InBall(w, o, n, k)
  {
    var p :| p in s.log && p.node == n && Id(w, p.env) == id;
    assert Hopped(w, o, n, p.env);
    assert RADIUS - p.env.ttl <= k;
  }

  /** After round `k`, the nodes other than the origin that processed the message form the ball of radius `k`. */
  lemma BallAfterRounds(w: World, s: State, id: Bytes, o: NodeId, k: nat, n: NodeId)
    requires Closed(w) && BfsInv(w, s, id, o, k) && n != o
    ensures Processed(w, s, id, n) <==> InBall(w, o, n, k)
  {
    if Processed(w, s, id, n) {
      BallBound(w, s, id, o, k, n);
    }
    if d: nat :| d <= k && Walk(w, o, n, d) {
      BallReached(w, s, id, o, k, d, n);
    }
  }

  lemma BallOfRounds(w: World, s: State, rounds: seq<seq<Event>>, id: Bytes, o: NodeId, n: NodeId)
    requires Closed(w) && OriginIs(w, id, o) && BfsInv(w, s, id, o, 0)
    requires LockStep(w, s, rounds) && |rounds| <= RADIUS && n != o
    ensures Processed(w, AfterRounds(w, s, rounds), id, n) <==> InBall(w, o, n, |rounds|)
  {
    BfsInvHolds(w, s, rounds, id, o);
    BallAfterRounds(w, AfterRounds(w, s, rounds), id, o, |rounds|, n);
  }

  /**
   Breadth-first refinement. Flood a message from `o` in a state it has not touched, then deliver
   in rounds, each round in any order. The nodes other than `o` that first process it in round `k`
   are exactly those at distance `k`, for every `k` up to the radius 17.
   */
  lemma LockStepIsBfs(w: World, s: State, e: Event, rounds: seq<seq<Event>>, n: NodeId)
    requires Closed(w) && DigestsDistinguish(w.crypto)
    requires Enabled(w, s, e) && e.Originate? && e.targets == PeersOf(w, e.origin)
    requires Untouched(w, s, w.crypto.digest(e.msg))
    requires LockStep(w, Apply(w, s, e), rounds) && 1 <= |rounds| <= RADIUS && n != e.origin
    ensures var id, before := w.crypto.digest(e.msg), AfterRounds(w, Apply(w, s, e), rounds[..|rounds| - 1]);
            Processed(w, AfterRounds(w, Apply(w, s, e), rounds), id, n) && !Processed(w, before, id, n)
            <==> IsDistance(w, e.origin, n, |rounds|)
  {
    var id, o, k := w.crypto.digest(e.msg), e.origin, |rounds|;
    var u := Apply(w, s, e);
    SignerIsOrigin(w, e.msg);
    BfsStart(w, s, e, id, o);
    BallOfRounds(w, u, rounds, id, o, n);
    BallOfRounds(w, u, rounds[..k - 1], id, o, n);
    RingOfBalls(w, o, n, k);
  }
}
