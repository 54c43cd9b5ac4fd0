/**
 Which replays coverage survives, exactly. An accepted copy of a message that does not name a peer of its
 receiver other than the signer starts a second flood of the message with the ttl it carries. With a full
 ttl that does no harm. With any smaller one there is a network of at most 17 nodes where the second flood
 runs ahead of the first and dies before the end.
 */
module Replays {
  import opened Common
  import opened Messages
  import opened Gossip
  import opened Network
  import opened Coverage
  import opened Injection

  // ---------- a line of nodes ----------

  /** Node `k` of the line that starts at `o`. */
  function Node(o: NodeId, k: nat): (n: NodeId)
    ensures |n| == |o| + k
  {
    o + seq(k, i => 'n')
  }

  lemma NodesDiffer(o: NodeId, j: nat, k: nat)
    ensures Node(o, j) == Node(o, k) <==> j == k
  {
  }

  function Links(o: NodeId, last: nat, k: nat): seq<NodeId> {
    if k == 0 then [Node(o, 1)]
    else if k < last then [Node(o, k - 1), Node(o, k + 1)]
    else [Node(o, k - 1)]
  }

  /** The links of the first `k` nodes. */
  function LinkMap(o: NodeId, last: nat, k: nat): map<NodeId, seq<NodeId>> {
    if k == 0 then map[] else LinkMap(o, last, k - 1)[Node(o, k - 1) := Links(o, last, k - 1)]
  }

  /** Nodes 0 to `last`, each linked to the next. */
  function LongLine(c: Crypto, o: NodeId, last: nat): World {
    World(LinkMap(o, last, last + 1), c)
  }

  lemma {:induction false} LinkMapAt(o: NodeId, last: nat, k: nat, n: NodeId)
    ensures n in LinkMap(o, last, k) <==> exists j: nat :: j < k && n == Node(o, j)
    ensures forall j: nat :: j < k && n == Node(o, j) ==> LinkMap(o, last, k)[n] == Links(o, last, j)
    decreases k
  {
    if k > 0 {
      LinkMapAt(o, last, k - 1, n);
      if n == Node(o, k - 1) {
        forall j: nat | j < k && n == Node(o, j) ensures j == k - 1 { NodesDiffer(o, j, k - 1); }
      }
    }
  }

  lemma {:induction false} LinkMapSize(o: NodeId, last: nat, k: nat)
    ensures |LinkMap(o, last, k)| == k
  {
    if k > 0 {
      LinkMapSize(o, last, k - 1);
      LinkMapAt(o, last, k - 1, Node(o, k - 1));
      forall j: nat | j < k - 1 ensures Node(o, j) != Node(o, k - 1) { NodesDiffer(o, j, k - 1); }
    }
  }

  lemma LineNode(c: Crypto, o: NodeId, last: nat, k: nat)
    requires k <= last
    ensures Node(o, k) in LongLine(c, o, last).peers && PeersOf(LongLine(c, o, last), Node(o, k)) == Links(o, last, k)
  {
    LinkMapAt(o, last, last + 1, Node(o, k));
  }

  lemma LineClosed(c: Crypto, o: NodeId, last: nat)
    requires last > 0
    ensures Closed(LongLine(c, o, last)) && |LongLine(c, o, last).peers| == last + 1
  {
    var w := LongLine(c, o, last);
    LinkMapSize(o, last, last + 1);
    forall n, q | n in w.peers && q in w.peers[n] ensures q in w.peers {
      LinkMapAt(o, last, last + 1, n);
      var j: nat :| j < last + 1 && n == Node(o, j);
      LinkMapAt(o, last, last + 1, q);
    }
  }

  lemma {:induction false} LineWalk(c: Crypto, o: NodeId, last: nat, k: nat)
    requires k <= last
    ensures Walk(LongLine(c, o, last), o, Node(o, k), k)
  {
    if k == 0 {
      assert Node(o, 0) == o;
    } else {
      LineWalk(c, o, last, k - 1);
      LineNode(c, o, last, k - 1);
      assert Node(o, k) in Links(o, last, k - 1);
    }
  }

  // ---------- the second flood runs ahead ----------

  /** The origin's own copy, which arrives last. */
  function Late(o: NodeId, m: Signed): Copy { Copy(o, Node(o, 1), Envelope(m, DEFAULT_TTL)) }

  /** The copy of the second flood on its way to node `k`. */
  function Runner(o: NodeId, m: Signed, t: U8, k: nat): Copy
    requires 1 <= k <= t
  {
    Copy(Node(o, k - 1), Node(o, k), Envelope(m, t - k))
  }

  function InFlight(o: NodeId, m: Signed, t: U8, k: nat): seq<Copy>
    requires k >= 1
  {
    if k <= t then [Late(o, m), Runner(o, m, t, k)] else [Late(o, m)]
  }

  /** The second flood has been at the nodes before `k`. */
  ghost predicate Ahead(w: World, s: State, o: NodeId, m: Signed, t: U8, k: nat)
    requires k >= 1
  {
    && s.flight == InFlight(o, m, t, k)
    && (forall j: nat :: j < k ==> Has(s, w.crypto.digest(m), Node(o, j)))
    && (forall j: nat :: k <= j <= t + 1 ==> !Has(s, w.crypto.digest(m), Node(o, j)))
    && (forall p :: p in s.log ==> p.node != Node(o, t + 1))
  }

  lemma HasAfter(w: World, s: State, m: Signed, i: nat, n: NodeId)
    requires i < |s.flight| && s.flight[i].env.payload == m
    ensures Has(AfterDelivery(w, s, i), w.crypto.digest(m), n) <==> Has(s, w.crypto.digest(m), n) || n == s.flight[i].to
  {
  }

  /** Node `k` sends on to the next node only. */
  lemma OnwardOnly(o: NodeId, last: nat, k: nat, env: Envelope)
    requires 1 <= k < last
    ensures Forward(Links(o, last, k), Node(o, k - 1), env) == [(Node(o, k + 1), env)]
  {
    var a, b := Node(o, k - 1), Node(o, k + 1);
    NodesDiffer(o, k - 1, k + 1);
    assert [a, b][1..] == [b] && [b][1..] == [];
  }

  lemma RunnerFlight(c: Crypto, o: NodeId, last: nat, s: State, m: Signed, t: U8, k: nat)
    requires 1 <= k <= t < last && Accepts(c, m)
    requires s.flight == InFlight(o, m, t, k) && !Has(s, c.digest(m), Node(o, k))
    ensures AfterDelivery(LongLine(c, o, last), s, 1).flight == InFlight(o, m, t, k + 1)
  {
    LineNode(c, o, last, k);
    if k < t {
      OnwardOnly(o, last, k, Envelope(m, t - k - 1));
    }
  }

  lemma RunnerStep(c: Crypto, o: NodeId, last: nat, s: State, m: Signed, t: U8, k: nat)
    requires 1 <= k <= t < last && Accepts(c, m) && Ahead(LongLine(c, o, last), s, o, m, t, k)
    ensures Ahead(LongLine(c, o, last), AfterDelivery(LongLine(c, o, last), s, 1), o, m, t, k + 1)
  {
    var w := LongLine(c, o, last);
    var s' := AfterDelivery(w, s, 1);
    RunnerFlight(c, o, last, s, m, t, k);
    forall j: nat | j < k + 1 ensures Has(s', c.digest(m), Node(o, j)) { HasAfter(w, s, m, 1, Node(o, j)); }
    forall j: nat | k + 1 <= j <= t + 1 ensures !Has(s', c.digest(m), Node(o, j)) {
      HasAfter(w, s, m, 1, Node(o, j));
      NodesDiffer(o, j, k);
    }
    NodesDiffer(o, k, t + 1);
    LogAfterDelivery(w, s, 1);
  }

  /** The events of a run: the flood, one injected copy, and deliveries. */
  ghost predicate OneInjection(evs: seq<Event>, m: Signed, targets: seq<NodeId>, c: Copy) {
    && Originate(m.nodeId, m, targets) in evs
    && forall e :: e in evs ==> e == Originate(m.nodeId, m, targets) || e == Inject(c) || e.Deliver?
  }

  /** Originate, inject the replay at the origin itself, and deliver it. */
  lemma ReplayAtOrigin(c: Crypto, last: nat, m: Signed, x: NodeId, t: U8) returns (evs: seq<Event>, s: State)
    requires 1 <= t < last && Accepts(c, m) && x != Node(m.nodeId, 1)
    ensures var o := m.nodeId;
            && Reaches(LongLine(c, o, last), evs, s) && Ahead(LongLine(c, o, last), s, o, m, t, 1)
            && OneInjection(evs, m, [Node(o, 1)], Copy(x, o, Envelope(m, t)))
  {
    var o := m.nodeId;
    var w, replay, go := LongLine(c, o, last), Copy(x, o, Envelope(m, t)), Originate(o, m, [Node(o, 1)]);
    assert Node(o, 0) == o;
    LineNode(c, o, last, 0);
    evs, s := [], Start();
    More(w, evs, s, go);
    evs, s := evs + [go], Apply(w, s, go);
    assert s.flight == [Late(o, m)];
    More(w, evs, s, Inject(replay));
    evs, s := evs + [Inject(replay)], Apply(w, s, Inject(replay));
    assert s.flight == [Late(o, m), replay];
    More(w, evs, s, Deliver(1));
    ReplayTaken(c, last, s, m, x, t);
    evs, s := evs + [Deliver(1)], AfterDelivery(w, s, 1);
    assert evs[0] == go;
  }

  lemma ReplayTaken(c: Crypto, last: nat, s: State, m: Signed, x: NodeId, t: U8)
    requires 1 <= t < last && Accepts(c, m) && x != Node(m.nodeId, 1)
    requires s.flight == [Late(m.nodeId, m), Copy(x, m.nodeId, Envelope(m, t))] && s.seen == map[] && s.log == []
    ensures Ahead(LongLine(c, m.nodeId, last), AfterDelivery(LongLine(c, m.nodeId, last), s, 1), m.nodeId, m, t, 1)
  {
    var o := m.nodeId;
    var w := LongLine(c, o, last);
    assert Node(o, 0) == o;
    LineNode(c, o, last, 0);
    assert [Node(o, 1)][1..] == [];
    assert Forward([Node(o, 1)], x, Envelope(m, t - 1)) == [(Node(o, 1), Envelope(m, t - 1))];
    forall j: nat ensures Has(AfterDelivery(w, s, 1), c.digest(m), Node(o, j)) <==> j == 0 {
      HasAfter(w, s, m, 1, Node(o, j));
      NodesDiffer(o, j, 0);
    }
    NodesDiffer(o, 0, t + 1);
  }

  lemma {:induction false} RunAhead(c: Crypto, last: nat, m: Signed, x: NodeId, t: U8, k: nat) returns (evs: seq<Event>, s: State)
    requires 1 <= t < last && Accepts(c, m) && x != Node(m.nodeId, 1) && 1 <= k <= t + 1
    ensures var o := m.nodeId;
            && Reaches(LongLine(c, o, last), evs, s) && Ahead(LongLine(c, o, last), s, o, m, t, k)
            && OneInjection(evs, m, [Node(o, 1)], Copy(x, o, Envelope(m, t)))
    decreases k
  {
    if k == 1 {
      evs, s := ReplayAtOrigin(c, last, m, x, t);
    } else {
      evs, s := RunAhead(c, last, m, x, t, k - 1);
      var w := LongLine(c, m.nodeId, last);
      RunnerStep(c, m.nodeId, last, s, m, t, k - 1);
      More(w, evs, s, Deliver(1));
      MoreDeliveries(evs, m, [Node(m.nodeId, 1)], Copy(x, m.nodeId, Envelope(m, t)), Deliver(1));
      evs, s := evs + [Deliver(1)], AfterDelivery(w, s, 1);
    }
  }

  lemma MoreDeliveries(evs: seq<Event>, m: Signed, targets: seq<NodeId>, c: Copy, e: Event)
    requires OneInjection(evs, m, targets, c) && e.Deliver?
    ensures OneInjection(evs + [e], m, targets, c)
  {
  }

  /**
   For every ttl from 1 up and every stranger: on a line longer than the ttl, one replay of the message,
   addressed to its own origin and delivered first, keeps it from node `t + 1`, with nothing left in flight.
   */
  lemma StrangerDefeatsCoverage(c: Crypto, last: nat, m: Signed, x: NodeId, t: U8) returns (evs: seq<Event>)
    requires 1 <= t < last && Accepts(c, m) && x != Node(m.nodeId, 1)
    ensures var o := m.nodeId;
            && Closed(LongLine(c, o, last)) && |LongLine(c, o, last).peers| == last + 1
            && Walk(LongLine(c, o, last), o, Node(o, t + 1), t + 1)
            && OneInjection(evs, m, [Node(o, 1)], Copy(x, o, Envelope(m, t)))
            && Missed(LongLine(c, o, last), evs, m, Node(o, t + 1))
  {
    var o := m.nodeId;
    var w := LongLine(c, o, last);
    LineClosed(c, o, last);
    LineWalk(c, o, last, t + 1);
    evs := StrangerRun(c, last, m, x, t);
  }

  lemma StrangerRun(c: Crypto, last: nat, m: Signed, x: NodeId, t: U8) returns (evs: seq<Event>)
    requires 1 <= t < last && Accepts(c, m) && x != Node(m.nodeId, 1)
    ensures OneInjection(evs, m, [Node(m.nodeId, 1)], Copy(x, m.nodeId, Envelope(m, t)))
    ensures Missed(LongLine(c, m.nodeId, last), evs, m, Node(m.nodeId, t + 1))
  {
    var o := m.nodeId;
    var w := LongLine(c, o, last);
    var s;
    evs, s := RunAhead(c, last, m, x, t, t + 1);
    More(w, evs, s, Deliver(0));
    MoreDeliveries(evs, m, [Node(o, 1)], Copy(x, o, Envelope(m, t)), Deliver(0));
    LateDropped(c, last, s, m, t);
    evs := evs + [Deliver(0)];
    assert Node(o, 0) == o;
    LineNode(c, o, last, 0);
  }

  lemma LateDropped(c: Crypto, last: nat, s: State, m: Signed, t: U8)
    requires t >= 1 && Ahead(LongLine(c, m.nodeId, last), s, m.nodeId, m, t, t + 1)
    ensures AfterDelivery(LongLine(c, m.nodeId, last), s, 0).flight == []
    ensures AfterDelivery(LongLine(c, m.nodeId, last), s, 0).log == s.log
  {
    assert Has(s, c.digest(m), Node(m.nodeId, 1));
  }

  // ---------- exactly ----------

  /** An accepted copy with this ttl, in the name of no peer of its receiver other than the signer. */
  predicate OutsideCopy(w: World, c: Copy, t: U8) {
    && Accepts(w.crypto, c.env.payload) && c.env.ttl == t
    && (c.from in PeersOf(w, c.to) ==> c.from == c.env.payload.nodeId)
  }

  ghost predicate TolerableStep(w: World, evs: seq<Event>, id: Bytes, t: U8, k: nat)
    requires k < |evs|
  {
    HarmlessStep(w, Start(), evs, id, ForCoverage, k)
    || (evs[k].Inject? && OutsideCopy(w, evs[k].copy, t) && Valid(w, Start(), evs[..k]))
  }

  /** A run of a small network that floods `m`, drains, and is harmless but for outside copies with ttl `t`. */
  ghost predicate Scenario(c: Crypto, m: Signed, t: U8, w: World, evs: seq<Event>) {
    && w.crypto == c && Closed(w) && |w.peers| <= DEFAULT_TTL + 1 && Valid(w, Start(), evs)
    && Originate(m.nodeId, m, PeersOf(w, m.nodeId)) in evs
    && (forall k :: 0 <= k < |evs| ==> TolerableStep(w, evs, c.digest(m), t, k))
    && (forall x :: x in Exec(w, Start(), evs).flight ==> Id(w, x.env) != c.digest(m))
  }

  /** Every node that can be reached from the origin has processed the message. */
  ghost predicate Covered(w: World, evs: seq<Event>, m: Signed)
    requires Valid(w, Start(), evs)
  {
    forall v, k: nat :: Walk(w, m.nodeId, v, k) && v != m.nodeId ==> Processed(w, Exec(w, Start(), evs), w.crypto.digest(m), v)
  }

  /** Outside copies with ttl `t`, any number of them, never keep the message from anybody. */
  ghost predicate OutsideTolerated(c: Crypto, m: Signed, t: U8) {
    forall w, evs :: Scenario(c, m, t, w, evs) ==> Covered(w, evs, m)
  }

  lemma FullTtlTolerated(c: Crypto, m: Signed, t: U8, w: World, evs: seq<Event>)
    requires DigestsDistinguish(c) && t >= DEFAULT_TTL && Scenario(c, m, t, w, evs)
    ensures Covered(w, evs, m)
  {
    forall k | 0 <= k < |evs| ensures HarmlessStep(w, Start(), evs, c.digest(m), ForCoverage, k) {
      assert TolerableStep(w, evs, c.digest(m), t, k);
    }
    var j :| 0 <= j < |evs| && evs[j] == Originate(m.nodeId, m, PeersOf(w, m.nodeId));
    forall v, k: nat | Walk(w, m.nodeId, v, k) && v != m.nodeId
      ensures Processed(w, Exec(w, Start(), evs), c.digest(m), v)
    {
      FloodCoversNetwork(w, evs, j, v, k);
    }
  }

  lemma OneInjectionTolerable(w: World, evs: seq<Event>, m: Signed, targets: seq<NodeId>, c: Copy, t: U8)
    requires Valid(w, Start(), evs) && OneInjection(evs, m, targets, c) && OutsideCopy(w, c, t)
    ensures forall k :: 0 <= k < |evs| ==> TolerableStep(w, evs, w.crypto.digest(m), t, k)
  {
    forall k | 0 <= k < |evs| ensures TolerableStep(w, evs, w.crypto.digest(m), t, k) {
      ValidPrefix(w, Start(), evs, k);
      assert evs[k] in evs;
    }
  }

  /** A run that misses a node, with one outside copy of ttl `t` injected. */
  lemma MissedHarms(w: World, evs: seq<Event>, m: Signed, targets: seq<NodeId>, c: Copy, t: U8, v: NodeId, k: nat)
    requires Closed(w) && |w.peers| <= DEFAULT_TTL + 1 && Missed(w, evs, m, v)
    requires OneInjection(evs, m, targets, c) && OutsideCopy(w, c, t)
    requires Walk(w, m.nodeId, v, k) && v != m.nodeId
    ensures !OutsideTolerated(w.crypto, m, t)
  {
    OneInjectionTolerable(w, evs, m, targets, c, t);
    assert Scenario(w.crypto, m, t, w, evs);
    assert !Covered(w, evs, m);
  }

  lemma SmallTtlHarms(c: Crypto, m: Signed, t: U8)
    requires Accepts(c, m) && 1 <= t < DEFAULT_TTL
    ensures !OutsideTolerated(c, m, t)
  {
    var o := m.nodeId;
    var last: nat := t + 1;
    var x, w := Node(o, last + 1), LongLine(c, o, last);
    NodesDiffer(o, last + 1, 1);
    var evs := StrangerDefeatsCoverage(c, last, m, x, t);
    assert Node(o, 0) == o;
    LineNode(c, o, last, 0);
    NodesDiffer(o, t + 1, 0);
    MissedHarms(w, evs, m, [Node(o, 1)], Copy(x, o, Envelope(m, t)), t, Node(o, t + 1), t + 1);
  }

  lemma SpentTtlHarms(c: Crypto, m: Signed)
    requires Accepts(c, m)
    ensures !OutsideTolerated(c, m, 0)
  {
    var o := m.nodeId;
    var v, u, f := Node(o, 1), Node(o, 2), Node(o, 3);
    var w := Line(c, o, v, u);
    var evs := ReplayDefeatsCoverage(c, m, v, u, f, 0);
    SpentRun(m, v, f);
    assert PeersOf(w, v) == [o, u];
    MissedHarms(w, evs, m, [v], Copy(f, v, Envelope(m, 0)), 0, u, 2);
  }

  lemma SpentRun(m: Signed, v: NodeId, f: NodeId)
    ensures OneInjection(ReplayRun(m, v, f, 0), m, [v], Copy(f, v, Envelope(m, 0)))
  {
    var evs := ReplayRun(m, v, f, 0);
    assert evs[0] == Originate(m.nodeId, m, [v]);
  }

  /**
   Coverage survives outside copies with ttl `t`, in every closed network of at most 17 nodes and every
   run, if and only if `t` is a full ttl.
   */
  lemma OutsideExactly(c: Crypto, m: Signed, t: U8)
    requires DigestsDistinguish(c) && Accepts(c, m)
    ensures OutsideTolerated(c, m, t) <==> t >= DEFAULT_TTL
  {
    if t >= DEFAULT_TTL {
      forall w, evs | Scenario(c, m, t, w, evs) ensures Covered(w, evs, m) { FullTtlTolerated(c, m, t, w, evs); }
    } else if t == 0 {
      SpentTtlHarms(c, m);
    } else {
      SmallTtlHarms(c, m, t);
    }
  }
}
