/**
 The flood dies out. Even if dedup entries expire at any moment, each delivery lowers a weight,
 so the number of copies of a message is bounded by a geometric series. Without expiry, a flood costs at
 most one send per link of the origin and one per link of every node that handles it.
 */
module Termination {
  import opened Common
  import opened Messages
  import opened Network
  import opened Coverage

  // ---------- with expiry at any moment ----------

  /** No node has more than `d` peers. */
  ghost predicate DegreeAtMost(w: World, d: nat) {
    forall n :: n in w.peers ==> |w.peers[n]| <= d
  }

  /** The deliveries a copy can still cause, itself included: 1 + d + ... + d^t. */
  function Weight(d: nat, t: nat): nat {
    if t == 0 then 1 else 1 + d * Weight(d, t - 1)
  }

  function Power(d: nat, t: nat): nat {
    if t == 0 then 1 else d * Power(d, t - 1)
  }

  lemma {:induction false} WeightIsGeometric(d: nat, t: nat)
    ensures (d - 1) * Weight(d, t) == Power(d, t + 1) - 1
  {
    if t > 0 {
      WeightIsGeometric(d, t - 1);
      var x := Weight(d, t - 1);
      assert (d - 1) * (1 + d * x) == (d - 1) + d * ((d - 1) * x) by {
        assert (d - 1) * (d * x) == d * ((d - 1) * x);
      }
      assert Power(d, t + 1) == d * Power(d, t);
      assert d * ((d - 1) * x) == d * (Power(d, t) - 1) == d * Power(d, t) - d;
    } else {
      assert Power(d, 1) == d * Power(d, 0);
    }
  }

  function Load(d: nat, flight: seq<Copy>): nat {
    if flight == [] then 0 else Weight(d, flight[0].env.ttl) + Load(d, flight[1..])
  }

  lemma {:induction false} LoadAppend(d: nat, xs: seq<Copy>, ys: seq<Copy>)
    ensures Load(d, xs + ys) == Load(d, xs) + Load(d, ys)
  {
    if xs == [] {
      assert xs + ys == ys;
    } else {
      assert (xs + ys)[1..] == xs[1..] + ys;
      LoadAppend(d, xs[1..], ys);
    }
  }

  lemma LoadRemove(d: nat, xs: seq<Copy>, i: nat)
    requires i < |xs|
    ensures Load(d, xs) == Load(d, Remove(xs, i)) + Weight(d, xs[i].env.ttl)
  {
    assert xs == xs[..i] + ([xs[i]] + xs[i + 1..]);
    LoadAppend(d, xs[..i], [xs[i]] + xs[i + 1..]);
    LoadAppend(d, [xs[i]], xs[i + 1..]);
    LoadAppend(d, xs[..i], xs[i + 1..]);
  }

  /** Copies that all carry ttl `t` weigh their number times the weight of one. */
  lemma {:induction false} LoadUniform(d: nat, xs: seq<Copy>, t: nat, k: nat)
    requires (forall c :: c in xs ==> c.env.ttl == t) && |xs| <= k
    ensures Load(d, xs) <= k * Weight(d, t)
  {
    if xs == [] {
      assert 0 <= k * Weight(d, t);
    } else {
      assert xs[0] in xs;
      LoadUniform(d, xs[1..], t, k - 1);
      assert k * Weight(d, t) == Weight(d, t) + (k - 1) * Weight(d, t);
    }
  }

  /** What a receiver sends on weighs less than the copy it got. */
  lemma SendsWeighLess(w: World, s: State, i: nat, d: nat)
    requires DegreeAtMost(w, d) && i < |s.flight|
    ensures Load(d, CopiesOf(s.flight[i].to, ReactionTo(w, s, i).sends)) < Weight(d, s.flight[i].env.ttl)
  {
    var c, sends := s.flight[i], ReactionTo(w, s, i).sends;
    var copies := CopiesOf(c.to, sends);
    if sends == [] {
      assert copies == [];
    } else {
      forall x | x in copies ensures x.env.ttl == c.env.ttl - 1 { SentOn(w, s, i, x); }
      LoadUniform(d, copies, c.env.ttl - 1, d);
    }
  }

  lemma DeliveryLowersLoad(w: World, s: State, i: nat, d: nat)
    requires DegreeAtMost(w, d) && i < |s.flight|
    ensures Load(d, AfterDelivery(w, s, i).flight) < Load(d, s.flight)
  {
    SendsWeighLess(w, s, i, d);
    LoadRemove(d, s.flight, i);
    LoadAppend(d, Remove(s.flight, i), CopiesOf(s.flight[i].to, ReactionTo(w, s, i).sends));
  }

  function Deliveries(evs: seq<Event>): nat {
    if evs == [] then 0
    else Deliveries(evs[..|evs| - 1]) + (if evs[|evs| - 1].Deliver? then 1 else 0)
  }

  /** Without new messages, deliveries are paid for by the weight in flight, whatever expires or is lost. */
  lemma {:induction false} DeliveriesBounded(w: World, s: State, evs: seq<Event>, d: nat)
    requires DegreeAtMost(w, d) && Valid(w, s, evs)
    requires forall e :: e in evs ==> !e.Originate? && !e.Inject?
    ensures Deliveries(evs) + Load(d, Exec(w, s, evs).flight) <= Load(d, s.flight)
    decreases |evs|
  {
    if evs != [] {
      var init, e := evs[..|evs| - 1], evs[|evs| - 1];
      DeliveriesBounded(w, s, init, d);
      var u := Exec(w, s, init);
      if e.Deliver? { DeliveryLowersLoad(w, u, e.i, d); }
      if e.Lose? { LoadRemove(d, u.flight, e.i); }
    }
  }

  // ---------- one message in arbitrary runs ----------

  /** The copies of the message with this id. */
  function Of(w: World, id: Bytes, xs: seq<Copy>): seq<Copy> {
    if xs == [] then []
    else if Id(w, xs[0].env) == id then [xs[0]] + Of(w, id, xs[1..])
    else Of(w, id, xs[1..])
  }

  lemma {:induction false} OfAppend(w: World, id: Bytes, xs: seq<Copy>, ys: seq<Copy>)
    ensures Of(w, id, xs + ys) == Of(w, id, xs) + Of(w, id, ys)
  {
    if xs == [] {
      assert xs + ys == ys;
    } else {
      assert (xs + ys)[1..] == xs[1..] + ys;
      OfAppend(w, id, xs[1..], ys);
    }
  }

  lemma {:induction false} OfUniform(w: World, id: Bytes, xs: seq<Copy>, m: Bytes)
    requires forall c :: c in xs ==> Id(w, c.env) == m
    ensures Of(w, id, xs) == if m == id then xs else []
  {
    if xs != [] {
      assert xs[0] in xs;
      OfUniform(w, id, xs[1..], m);
    }
  }

  lemma OfRemove(w: World, id: Bytes, xs: seq<Copy>, i: nat, d: nat)
    requires i < |xs|
    ensures var hit := Id(w, xs[i].env) == id;
            && |Of(w, id, xs)| == |Of(w, id, Remove(xs, i))| + (if hit then 1 else 0)
            && Load(d, Of(w, id, xs)) == Load(d, Of(w, id, Remove(xs, i))) + (if hit then Weight(d, xs[i].env.ttl) else 0)
  {
    var front, mid, back := Of(w, id, xs[..i]), Of(w, id, [xs[i]]), Of(w, id, xs[i + 1..]);
    assert xs == xs[..i] + ([xs[i]] + xs[i + 1..]);
    OfAppend(w, id, xs[..i], [xs[i]] + xs[i + 1..]);
    OfAppend(w, id, [xs[i]], xs[i + 1..]);
    OfAppend(w, id, xs[..i], xs[i + 1..]);
    assert [xs[i]][1..] == [];
    LoadAppend(d, front, mid + back);
    LoadAppend(d, mid, back);
    LoadAppend(d, front, back);
  }

  /** The copies of the message that `e` sends: by the origin, or by a receiver. */
  function SentBy(w: World, u: State, e: Event, id: Bytes): nat
    requires Enabled(w, u, e)
  {
    match e
    case Originate(_, m, targets) => if w.crypto.digest(m) == id then |targets| else 0
    case Deliver(i) => if Id(w, u.flight[i].env) == id then |ReactionTo(w, u, i).sends| else 0
    case _ => 0
  }

  /** A copy of the message that `e` takes out of flight, delivered or lost. */
  function SpentBy(w: World, u: State, e: Event, id: Bytes): nat
    requires Enabled(w, u, e)
  {
    match e
    case Deliver(i) => if Id(w, u.flight[i].env) == id then 1 else 0
    case Lose(i) => if Id(w, u.flight[i].env) == id then 1 else 0
    case _ => 0
  }

  function InjectedBy(w: World, e: Event, id: Bytes): nat {
    if e.Inject? && Id(w, e.copy.env) == id then 1 else 0
  }

  /** The copies of one message sent during a run. */
  function Sends(w: World, s: State, evs: seq<Event>, id: Bytes): nat
    requires Valid(w, s, evs)
    decreases |evs|
  {
    if evs == [] then 0
    else
      var init, e := evs[..|evs| - 1], evs[|evs| - 1];
      Sends(w, s, init, id) + SentBy(w, Exec(w, s, init), e, id)
  }

  /** The copies of one message delivered or lost during a run. */
  function Spent(w: World, s: State, evs: seq<Event>, id: Bytes): nat
    requires Valid(w, s, evs)
    decreases |evs|
  {
    if evs == [] then 0
    else
      var init, e := evs[..|evs| - 1], evs[|evs| - 1];
      Spent(w, s, init, id) + SpentBy(w, Exec(w, s, init), e, id)
  }

  function Injected(w: World, evs: seq<Event>, id: Bytes): nat {
    if evs == [] then 0 else Injected(w, evs[..|evs| - 1], id) + InjectedBy(w, evs[|evs| - 1], id)
  }

  /** What an event may cost: a full subtree for every copy it puts into the network. */
  function CostOf(w: World, e: Event, id: Bytes, d: nat): nat {
    match e
    case Originate(_, m, targets) => if w.crypto.digest(m) == id then |targets| * Weight(d, DEFAULT_TTL) else 0
    case Inject(c) => if Id(w, c.env) == id then Weight(d, c.env.ttl) else 0
    case _ => 0
  }

  function Cost(w: World, evs: seq<Event>, id: Bytes, d: nat): nat {
    if evs == [] then 0 else Cost(w, evs[..|evs| - 1], id, d) + CostOf(w, evs[|evs| - 1], id, d)
  }

  ghost predicate Balanced(w: World, u: State, v: State, e: Event, id: Bytes, d: nat)
    requires Enabled(w, u, e)
  {
    && |Of(w, id, v.flight)| + SpentBy(w, u, e, id) == |Of(w, id, u.flight)| + SentBy(w, u, e, id) + InjectedBy(w, e, id)
    && SpentBy(w, u, e, id) + Load(d, Of(w, id, v.flight)) <= Load(d, Of(w, id, u.flight)) + CostOf(w, e, id, d)
  }

  lemma OriginateBalance(w: World, u: State, e: Event, id: Bytes, d: nat)
    requires Enabled(w, u, e) && e.Originate?
    ensures Balanced(w, u, Apply(w, u, e), e, id, d)
  {
    var copies := CopiesTo(e.origin, e.targets, Envelope(e.msg, DEFAULT_TTL));
    OfAppend(w, id, u.flight, copies);
    OfUniform(w, id, copies, w.crypto.digest(e.msg));
    LoadAppend(d, Of(w, id, u.flight), Of(w, id, copies));
    LoadUniform(d, copies, DEFAULT_TTL, |e.targets|);
  }

  lemma DeliverBalance(w: World, u: State, e: Event, id: Bytes, d: nat)
    requires DegreeAtMost(w, d) && Enabled(w, u, e) && e.Deliver?
    ensures Balanced(w, u, Apply(w, u, e), e, id, d)
  {
    var c, sends := u.flight[e.i], ReactionTo(w, u, e.i).sends;
    var copies := CopiesOf(c.to, sends);
    forall x | x in copies ensures Id(w, x.env) == Id(w, c.env) { SentOn(w, u, e.i, x); }
    OfRemove(w, id, u.flight, e.i, d);
    OfAppend(w, id, Remove(u.flight, e.i), copies);
    OfUniform(w, id, copies, Id(w, c.env));
    LoadAppend(d, Of(w, id, Remove(u.flight, e.i)), Of(w, id, copies));
    SendsWeighLess(w, u, e.i, d);
  }

  lemma InjectBalance(w: World, u: State, e: Event, id: Bytes, d: nat)
    requires Enabled(w, u, e) && e.Inject?
    ensures Balanced(w, u, Apply(w, u, e), e, id, d)
  {
    OfAppend(w, id, u.flight, [e.copy]);
    assert [e.copy][1..] == [];
    LoadAppend(d, Of(w, id, u.flight), Of(w, id, [e.copy]));
  }

  lemma StepBalance(w: World, u: State, e: Event, id: Bytes, d: nat)
    requires DegreeAtMost(w, d) && Enabled(w, u, e)
    ensures Balanced(w, u, Apply(w, u, e), e, id, d)
  {
    match e
    case Originate(_, _, _) => OriginateBalance(w, u, e, id, d);
    case Deliver(_) => DeliverBalance(w, u, e, id, d);
    case Lose(i) => OfRemove(w, id, u.flight, i, d);
    case Inject(_) => InjectBalance(w, u, e, id, d);
    case _ =>
  }

  /** Every copy that was ever sent or injected has been delivered or lost, or is in flight. */
  lemma {:induction false} CopiesConserved(w: World, s: State, evs: seq<Event>, id: Bytes)
    requires Valid(w, s, evs)
    ensures |Of(w, id, s.flight)| + Sends(w, s, evs, id) + Injected(w, evs, id)
         == Spent(w, s, evs, id) + |Of(w, id, Exec(w, s, evs).flight)|
    decreases |evs|
  {
    if evs != [] {
      var init, e := evs[..|evs| - 1], evs[|evs| - 1];
      CopiesConserved(w, s, init, id);
      var d := DegreeBound(w);
      StepBalance(w, Exec(w, s, init), e, id, d);
    }
  }

  /** Some bound on the degrees: a network is finite. */
  lemma DegreeBound(w: World) returns (d: nat)
    ensures DegreeAtMost(w, d)
  {
    d := MaxDegree(w, w.peers.Keys);
  }

  lemma {:induction false} MaxDegree(w: World, ns: set<NodeId>) returns (d: nat)
    requires ns <= w.peers.Keys
    ensures forall n :: n in ns ==> |w.peers[n]| <= d
    decreases ns
  {
    d := 0;
    if ns != {} {
      var n :| n in ns;
      var rest := MaxDegree(w, ns - {n});
      d := if |w.peers[n]| > rest then |w.peers[n]| else rest;
      forall x | x in ns ensures |w.peers[x]| <= d {
        assert x == n || x in ns - {n};
      }
    }
  }

  lemma {:induction false} WeightPaid(w: World, s: State, evs: seq<Event>, id: Bytes, d: nat)
    requires DegreeAtMost(w, d) && Valid(w, s, evs)
    ensures Spent(w, s, evs, id) + Load(d, Of(w, id, Exec(w, s, evs).flight))
         <= Load(d, Of(w, id, s.flight)) + Cost(w, evs, id, d)
    decreases |evs|
  {
    if evs != [] {
      var init, e := evs[..|evs| - 1], evs[|evs| - 1];
      WeightPaid(w, s, init, id, d);
      StepBalance(w, Exec(w, s, init), e, id, d);
    }
  }

  lemma {:induction false} LoadAtLeastCount(d: nat, xs: seq<Copy>)
    ensures |xs| <= Load(d, xs)
  {
    if xs != [] { LoadAtLeastCount(d, xs[1..]); }
  }

  /**
   The flood of one message dies out in every run, among all other traffic, with losses, and even if
   dedup never helps: its copies sent and injected, which are those delivered, lost and in flight, number
   at most 1 + d + ... + d^t for each copy that entered the network with ttl `t`.
   */
  lemma FloodDiesOut(w: World, s: State, evs: seq<Event>, id: Bytes, d: nat)
    requires DegreeAtMost(w, d) && Valid(w, s, evs) && Of(w, id, s.flight) == []
    ensures Sends(w, s, evs, id) + Injected(w, evs, id) == Spent(w, s, evs, id) + |Of(w, id, Exec(w, s, evs).flight)|
    ensures Sends(w, s, evs, id) + Injected(w, evs, id) <= Cost(w, evs, id, d)
  {
    CopiesConserved(w, s, evs, id);
    WeightPaid(w, s, evs, id, d);
    LoadAtLeastCount(d, Of(w, id, Exec(w, s, evs).flight));
  }

  lemma {:induction false} CostOfFlood(w: World, evs: seq<Event>, id: Bytes, d: nat)
    requires forall e :: e in evs && e.Inject? ==> Id(w, e.copy.env) != id
    ensures Cost(w, evs, id, d) == OwnSends(w, evs, id) * Weight(d, DEFAULT_TTL)
    decreases |evs|
  {
    if evs != [] {
      var init, e := evs[..|evs| - 1], evs[|evs| - 1];
      CostOfFlood(w, init, id, d);
      var a, b, x: int := OwnSends(w, init, id), OwnSends(w, evs, id) - OwnSends(w, init, id), Weight(d, DEFAULT_TTL);
      assert (a + b) * x == a * x + b * x;
    }
  }

  /** A single flood, without injected copies of it, costs at most d + d^2 + ... + d^17 sends. */
  lemma OneFloodCost(w: World, s: State, evs: seq<Event>, id: Bytes, d: nat)
    requires DegreeAtMost(w, d) && Valid(w, s, evs) && Of(w, id, s.flight) == []
    requires OwnSends(w, evs, id) <= d && forall e :: e in evs && e.Inject? ==> Id(w, e.copy.env) != id
    ensures Sends(w, s, evs, id) <= d * Weight(d, DEFAULT_TTL)
    ensures (d - 1) * (d * Weight(d, DEFAULT_TTL)) == Power(d, DEFAULT_TTL + 2) - d
  {
    FloodDiesOut(w, s, evs, id, d);
    CostOfFlood(w, evs, id, d);
    BoundIsGeometric(d, DEFAULT_TTL);
    TimesMonotone(OwnSends(w, evs, id), d, Weight(d, DEFAULT_TTL));
  }

  lemma TimesMonotone(a: nat, b: nat, x: nat)
    requires a <= b
    ensures a * x <= b * x
  {
    assert 0 <= (b - a) * x;
  }

  lemma BoundIsGeometric(d: nat, t: nat)
    ensures (d - 1) * (d * Weight(d, t)) == Power(d, t + 2) - d
  {
    WeightIsGeometric(d, t);
    Swap(d - 1, d, Weight(d, t));
    assert Power(d, t + 2) == d * Power(d, t + 1);
    LessOne(d, Power(d, t + 1));
  }

  lemma Swap(a: int, b: int, x: int)
    ensures a * (b * x) == b * (a * x)
  {
  }

  lemma LessOne(d: int, y: int)
    ensures d * (y - 1) == d * y - d
  {
  }

  // ---------- without expiry ----------

  /** The sum of the degrees of the nodes that have the message. */
  function DegreesOf(w: World, s: State, id: Bytes, nodes: seq<NodeId>): nat {
    if nodes == [] then 0
    else (if Has(s, id, nodes[0]) then |PeersOf(w, nodes[0])| else 0) + DegreesOf(w, s, id, nodes[1..])
  }

  function AllDegrees(w: World, nodes: seq<NodeId>): nat {
    if nodes == [] then 0 else |PeersOf(w, nodes[0])| + AllDegrees(w, nodes[1..])
  }

  lemma {:induction false} DegreesBound(w: World, s: State, id: Bytes, nodes: seq<NodeId>)
    ensures DegreesOf(w, s, id, nodes) <= AllDegrees(w, nodes)
  {
    if nodes != [] { DegreesBound(w, s, id, nodes[1..]); }
  }

  lemma {:induction false} DegreesMonotone(w: World, s: State, u: State, id: Bytes, nodes: seq<NodeId>)
    requires forall n :: Has(s, id, n) ==> Has(u, id, n)
    ensures DegreesOf(w, s, id, nodes) <= DegreesOf(w, u, id, nodes)
  {
    if nodes != [] { DegreesMonotone(w, s, u, id, nodes[1..]); }
  }

  lemma {:induction false} DegreesGrow(w: World, s: State, u: State, id: Bytes, nodes: seq<NodeId>, n: NodeId)
    requires (forall x :: Has(s, id, x) ==> Has(u, id, x)) && n in nodes && !Has(s, id, n) && Has(u, id, n)
    ensures DegreesOf(w, s, id, nodes) + |PeersOf(w, n)| <= DegreesOf(w, u, id, nodes)
  {
    if nodes[0] == n {
      DegreesMonotone(w, s, u, id, nodes[1..]);
    } else {
      DegreesGrow(w, s, u, id, nodes[1..], n);
    }
  }

  lemma SendsStep(w: World, u: State, e: Event, id: Bytes, nodes: seq<NodeId>)
    requires Enabled(w, u, e) && Harmless(w, u, e, id, ForCost)
    requires forall n :: n in w.peers ==> n in nodes
    ensures (forall n :: Has(u, id, n) ==> Has(Apply(w, u, e), id, n))
    ensures e.Deliver? && Id(w, u.flight[e.i].env) == id ==>
              DegreesOf(w, u, id, nodes) + |ReactionTo(w, u, e.i).sends| <= DegreesOf(w, Apply(w, u, e), id, nodes)
  {
    var v := Apply(w, u, e);
    if e.Deliver? && Id(w, u.flight[e.i].env) == id {
      var c := u.flight[e.i];
      if ReactionTo(w, u, e.i).sends != [] && c.to in w.peers {
        assert !Has(u, id, c.to) && Has(v, id, c.to);
        DegreesGrow(w, u, v, id, nodes, c.to);
      } else {
        DegreesMonotone(w, u, v, id, nodes);
      }
    }
  }

  function OwnSendsOf(w: World, e: Event, id: Bytes): nat {
    if e.Originate? && w.crypto.digest(e.msg) == id then |e.targets| else 0
  }

  /** The origin's own sends. */
  function OwnSends(w: World, evs: seq<Event>, id: Bytes): nat {
    if evs == [] then 0
    else OwnSends(w, evs[..|evs| - 1], id) + OwnSendsOf(w, evs[|evs| - 1], id)
  }

  lemma {:induction false} SendsPaid(w: World, s: State, evs: seq<Event>, id: Bytes, nodes: seq<NodeId>)
    requires Valid(w, s, evs) && AllHarmless(w, s, evs, id, ForCost)
    requires forall n :: n in w.peers ==> n in nodes
    ensures Sends(w, s, evs, id) + DegreesOf(w, s, id, nodes)
         <= OwnSends(w, evs, id) + DegreesOf(w, Exec(w, s, evs), id, nodes)
    decreases |evs|
  {
    if evs != [] {
      var init, e := evs[..|evs| - 1], evs[|evs| - 1];
      HarmlessInit(w, s, evs, id, ForCost);
      SendsPaid(w, s, init, id, nodes);
      HarmlessAt(w, s, evs, id, ForCost, |init|);
      StepPaid(w, Exec(w, s, init), e, id, nodes);
    }
  }

  /** What one event sends is paid for by the origin or by the degree of a node that has just got the message. */
  lemma StepPaid(w: World, u: State, e: Event, id: Bytes, nodes: seq<NodeId>)
    requires Enabled(w, u, e) && Harmless(w, u, e, id, ForCost)
    requires forall n :: n in w.peers ==> n in nodes
    ensures SentBy(w, u, e, id) + DegreesOf(w, u, id, nodes)
         <= OwnSendsOf(w, e, id) + DegreesOf(w, Apply(w, u, e), id, nodes)
  {
    SendsStep(w, u, e, id, nodes);
    DegreesMonotone(w, u, Apply(w, u, e), id, nodes);
  }

  /**
   As long as no node forgets the message, whatever is lost or injected, all the copies of it sent in
   a run number at most what its origin sent plus the sum of all degrees.
   */
  lemma FloodCost(w: World, s: State, evs: seq<Event>, id: Bytes, nodes: seq<NodeId>)
    requires Valid(w, s, evs) && AllHarmless(w, s, evs, id, ForCost)
    requires forall n :: n in w.peers ==> n in nodes
    ensures Sends(w, s, evs, id) <= OwnSends(w, evs, id) + AllDegrees(w, nodes)
  {
    SendsPaid(w, s, evs, id, nodes);
    DegreesBound(w, Exec(w, s, evs), id, nodes);
  }
}
