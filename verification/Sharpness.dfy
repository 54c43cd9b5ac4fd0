/**
 The bound of flood coverage is exact: in networks of more than DEFAULT_TTL + 1 nodes, with reliable
 links and no dedup expiry, a flood can end without reaching a node that is well within its radius. The message
 runs a lap through the origin, which processes its own message, then down a line until its ttl is
 used up; the copies that would have gone further on arrive late and are duplicates.
 */
module Sharpness {
  import opened Common
  import opened Messages
  import opened Gossip
  import opened Network
  import opened Coverage

  /** The node the message does not get to. */
  const MISSED := DEFAULT_TTL + 1

  // ---------- the network: a triangle 0, 1, 2 and a line 0, 3, 4, ..., last ----------

  function Name(k: nat): (n: NodeId)
    ensures |n| == k + 1
  {
    seq(k + 1, i => 'n')
  }

  function Links(last: nat, k: nat): seq<NodeId> {
    if k == 0 then [Name(1), Name(2), Name(3)]
    else if k == 1 then [Name(0), Name(2)]
    else if k == 2 then [Name(1), Name(0)]
    else if k == 3 then [Name(0), Name(4)]
    else if k < last then [Name(k - 1), Name(k + 1)]
    else [Name(k - 1)]
  }

  function Names(k: nat): set<NodeId> {
    if k == 0 then {} else Names(k - 1) + {Name(k - 1)}
  }

  lemma {:induction false} NamesHas(k: nat, n: NodeId)
    ensures n in Names(k) <==> 1 <= |n| <= k && n == Name(|n| - 1)
  {
    if k > 0 { NamesHas(k - 1, n); }
  }

  lemma {:induction false} NamesCount(k: nat)
    ensures |Names(k)| == k
  {
    if k > 0 {
      NamesCount(k - 1);
      NamesHas(k - 1, Name(k - 1));
    }
  }

  function Lap(c: Crypto, last: nat): World {
    World(map n | n in Names(last + 1) :: if n == "" then [] else Links(last, |n| - 1), c)
  }

  ghost predicate Mutual(w: World, n: NodeId, q: NodeId) {
    q in PeersOf(w, n) ==> n in PeersOf(w, q)
  }

  ghost predicate Symmetric(w: World) {
    forall n, q :: Mutual(w, n, q)
  }

  lemma LapNode(c: Crypto, last: nat, k: nat)
    requires MISSED <= last && k <= last && MISSED <= last
    ensures Name(k) in Lap(c, last).peers && PeersOf(Lap(c, last), Name(k)) == Links(last, k)
  {
    NamesHas(last + 1, Name(k));
  }

  lemma LapNodes(c: Crypto, last: nat, n: NodeId)
    requires MISSED <= last && n in Lap(c, last).peers
    ensures 1 <= |n| <= last + 1 && n == Name(|n| - 1) && Lap(c, last).peers[n] == Links(last, |n| - 1)
  {
    NamesHas(last + 1, n);
  }

  lemma LapSize(c: Crypto, last: nat)
    ensures |Lap(c, last).peers| == last + 1
  {
    NamesCount(last + 1);
    assert Lap(c, last).peers.Keys == Names(last + 1);
  }

  /** Every link leads to a node that links back. */
  lemma LinksMutual(last: nat, k: nat, q: NodeId)
    requires MISSED <= last && k <= last && q in Links(last, k)
    ensures 1 <= |q| <= last + 1 && q == Name(|q| - 1) && Name(k) in Links(last, |q| - 1)
  {
  }

  lemma LapLink(c: Crypto, last: nat, n: NodeId, q: NodeId)
    requires MISSED <= last && q in PeersOf(Lap(c, last), n)
    ensures q in Lap(c, last).peers && n in PeersOf(Lap(c, last), q)
  {
    LapNodes(c, last, n);
    LinksMutual(last, |n| - 1, q);
    LapNode(c, last, |q| - 1);
  }

  lemma LapIsNetwork(c: Crypto, last: nat)
    requires MISSED <= last
    ensures |Lap(c, last).peers| == last + 1 && Closed(Lap(c, last)) && Symmetric(Lap(c, last))
  {
    LapSize(c, last);
    forall n, q | n in Lap(c, last).peers && q in Lap(c, last).peers[n] ensures q in Lap(c, last).peers {
      LapLink(c, last, n, q);
    }
    forall n, q ensures Mutual(Lap(c, last), n, q) {
      if q in PeersOf(Lap(c, last), n) { LapLink(c, last, n, q); }
    }
  }

  lemma WalkOn(w: World, a: NodeId, r: NodeId, b: NodeId, k: nat)
    requires Walk(w, a, r, k) && b in PeersOf(w, r)
    ensures Walk(w, a, b, k + 1)
  {
  }

  /** The last node is a short walk from the origin. */
  lemma {:induction false} LineWalk(c: Crypto, last: nat, k: nat)
    requires 3 <= k <= last && MISSED <= last
    ensures Walk(Lap(c, last), Name(0), Name(k), k - 2)
  {
    var before := if k == 3 then 0 else k - 1;
    LapNode(c, last, before);
    assert Name(k) in Links(last, before);
    if k > 3 { LineWalk(c, last, k - 1); }
    WalkOn(Lap(c, last), Name(0), Name(before), Name(k), k - 3);
  }

  // ---------- the schedule ----------

  /** These copies are in flight, these nodes have the message, and the last node has processed nothing. */
  ghost predicate Stage(w: World, s: State, id: Bytes, flight: seq<Copy>, have: set<nat>) {
    && s.flight == flight
    && (forall j: nat :: j <= MISSED ==> (Has(s, id, Name(j)) <==> j in have))
    && (forall p :: p in s.log ==> p.node != Name(MISSED))
  }

  /** What node `j` sends on of a copy that is new to it. */
  function Onward(last: nat, j: nat, c: Copy): seq<Copy> {
    if c.env.ttl == 0 then []
    else CopiesOf(Name(j), Forward(Links(last, j), c.from, c.env.(ttl := c.env.ttl - 1)))
  }

  lemma Hop(c: Crypto, last: nat, s: State, m: Signed, flight: seq<Copy>, have: set<nat>, i: nat, j: nat)
    requires MISSED <= last && Stage(Lap(c, last), s, c.digest(m), flight, have) && Accepts(c, m)
    requires i < |flight| && j < MISSED && flight[i].to == Name(j) && flight[i].env.payload == m
    ensures Stage(Lap(c, last), AfterDelivery(Lap(c, last), s, i), c.digest(m),
                  if j in have then Remove(flight, i) else Remove(flight, i) + Onward(last, j, flight[i]), have + {j})
  {
    var s' := AfterDelivery(Lap(c, last), s, i);
    forall k: nat | k <= MISSED
      ensures Has(s', c.digest(m), Name(k)) <==> k in have + {j}
    {
      HasAfterHop(Lap(c, last), s, m, i, j, k);
    }
    HopFlight(c, last, s, m, i, j);
    LogAfterDelivery(Lap(c, last), s, i);
  }

  lemma HasAfterHop(w: World, s: State, m: Signed, i: nat, j: nat, k: nat)
    requires i < |s.flight| && s.flight[i].to == Name(j) && s.flight[i].env.payload == m
    ensures Has(AfterDelivery(w, s, i), w.crypto.digest(m), Name(k)) <==> Has(s, w.crypto.digest(m), Name(k)) || k == j
  {
    assert Name(k) == Name(j) <==> k == j;
  }

  lemma HopFlight(c: Crypto, last: nat, s: State, m: Signed, i: nat, j: nat)
    requires MISSED <= last && Accepts(c, m)
    requires i < |s.flight| && j < MISSED && s.flight[i].to == Name(j) && s.flight[i].env.payload == m
    ensures AfterDelivery(Lap(c, last), s, i).flight
         == if Has(s, c.digest(m), Name(j)) then Remove(s.flight, i) else Remove(s.flight, i) + Onward(last, j, s.flight[i])
  {
    LapNode(c, last, j);
    if Has(s, c.digest(m), Name(j)) {
      assert AfterDelivery(Lap(c, last), s, i).flight == Remove(s.flight, i) + [];
    }
  }

  /** A run that starts with the flood and then only delivers, up to a stage. */
  ghost predicate RunTo(c: Crypto, last: nat, m: Signed, evs: seq<Event>, flight: seq<Copy>, have: set<nat>) {
    && evs != [] && evs[0] == Originate(Name(0), m, Links(last, 0)) && Valid(Lap(c, last), Start(), evs)
    && (forall k :: 1 <= k < |evs| ==> evs[k].Deliver?)
    && Stage(Lap(c, last), Exec(Lap(c, last), Start(), evs), c.digest(m), flight, have)
  }

  /** One delivery more. */
  lemma Go(c: Crypto, last: nat, m: Signed, evs: seq<Event>, flight: seq<Copy>, have: set<nat>, i: nat, j: nat,
           flight': seq<Copy>, have': set<nat>) returns (more: seq<Event>)
    requires MISSED <= last && RunTo(c, last, m, evs, flight, have) && Accepts(c, m)
    requires i < |flight| && j < MISSED && flight[i].to == Name(j) && flight[i].env.payload == m
    requires flight' == if j in have then Remove(flight, i) else Remove(flight, i) + Onward(last, j, flight[i])
    requires have' == have + {j}
    ensures RunTo(c, last, m, more, flight', have')
  {
    more := evs + [Deliver(i)];
    assert more[..|more| - 1] == evs;
    Hop(c, last, Exec(Lap(c, last), Start(), evs), m, flight, have, i, j);
  }

  /** The copies that arrive late. */
  function Late(m: Signed): seq<Copy> {
    [Copy(Name(0), Name(2), Envelope(m, DEFAULT_TTL)),
     Copy(Name(0), Name(3), Envelope(m, DEFAULT_TTL)),
     Copy(Name(0), Name(1), Envelope(m, DEFAULT_TTL - 3))]
  }

  /** The copy that runs ahead, on its way to node `k` of the line. */
  function Runner(m: Signed, k: nat): Copy
    requires 3 <= k < MISSED
  {
    Copy(if k == 3 then Name(0) else Name(k - 1), Name(k), Envelope(m, MISSED - 1 - k))
  }

  function Below(k: nat): (r: set<nat>)
    ensures forall j: nat :: j in r <==> j < k
  {
    if k == 0 then {} else Below(k - 1) + {k - 1}
  }

  lemma ForwardTwo(a: NodeId, b: NodeId, from: NodeId, env: Envelope)
    requires a != b
    ensures from == a ==> Forward([a, b], from, env) == [(b, env)]
    ensures from == b ==> Forward([a, b], from, env) == [(a, env)]
  {
    assert [a, b][1..] == [b] && [b][1..] == [];
  }

  // The copies of the first lap: to node 1, to node 2, and back to the origin.
  function First(m: Signed): Copy { Copy(Name(0), Name(1), Envelope(m, DEFAULT_TTL)) }
  function Second(m: Signed): Copy { Copy(Name(1), Name(2), Envelope(m, DEFAULT_TTL - 1)) }
  function Third(m: Signed): Copy { Copy(Name(2), Name(0), Envelope(m, DEFAULT_TTL - 2)) }

  lemma Departure(c: Crypto, last: nat, m: Signed) returns (evs: seq<Event>)
    requires MISSED <= last && Accepts(c, m) && m.nodeId == Name(0)
    ensures RunTo(c, last, m, evs, [First(m), Late(m)[0], Late(m)[1]], {})
  {
    LapNode(c, last, 0);
    evs := [Originate(Name(0), m, Links(last, 0))];
    assert evs[..0] == [];
    assert Start().flight + CopiesTo(Name(0), Links(last, 0), Envelope(m, DEFAULT_TTL)) == [First(m), Late(m)[0], Late(m)[1]];
  }

  lemma OneForwards(last: nat, m: Signed)
    requires MISSED <= last
    ensures Onward(last, 1, First(m)) == [Second(m)]
  {
    ForwardTwo(Name(0), Name(2), Name(0), Second(m).env);
  }

  lemma ToNodeOne(c: Crypto, last: nat, m: Signed) returns (evs: seq<Event>)
    requires MISSED <= last && Accepts(c, m) && m.nodeId == Name(0)
    ensures RunTo(c, last, m, evs, [Late(m)[0], Late(m)[1], Second(m)], {1})
  {
    evs := Departure(c, last, m);
    var f := [First(m), Late(m)[0], Late(m)[1]];
    OneForwards(last, m);
    evs := Go(c, last, m, evs, f, {}, 0, 1, [Late(m)[0], Late(m)[1], Second(m)], {1});
  }

  lemma ToNodeTwo(c: Crypto, last: nat, m: Signed) returns (evs: seq<Event>)
    requires MISSED <= last && Accepts(c, m) && m.nodeId == Name(0)
    ensures RunTo(c, last, m, evs, [Late(m)[0], Late(m)[1], Third(m)], {1, 2})
  {
    evs := ToNodeOne(c, last, m);
    var f := [Late(m)[0], Late(m)[1], Second(m)];
    ForwardTwo(Name(1), Name(0), Name(1), Third(m).env);
    assert Onward(last, 2, f[2]) == [Third(m)];
    evs := Go(c, last, m, evs, f, {1}, 2, 2, [Late(m)[0], Late(m)[1], Third(m)], {1, 2});
  }

  /** Round the triangle, back through the origin. */
  lemma FirstLap(c: Crypto, last: nat, m: Signed) returns (evs: seq<Event>)
    requires MISSED <= last && Accepts(c, m) && m.nodeId == Name(0)
    ensures RunTo(c, last, m, evs, Late(m) + [Runner(m, 3)], Below(3))
  {
    evs := ToNodeTwo(c, last, m);
    var f := [Late(m)[0], Late(m)[1], Third(m)];
    OriginForwards(last, m);
    assert Remove(f, 2) + Onward(last, 0, f[2]) == Late(m) + [Runner(m, 3)];
    evs := Go(c, last, m, evs, f, {1, 2}, 2, 0, Late(m) + [Runner(m, 3)], Below(3));
  }

  lemma OriginForwards(last: nat, m: Signed)
    requires MISSED <= last
    ensures Onward(last, 0, Third(m)) == [Late(m)[2], Runner(m, 3)]
  {
    var env := Envelope(m, DEFAULT_TTL - 3);
    var links := Links(last, 0);
    assert links[1..] == [Name(2), Name(3)] && links[1..][1..] == [Name(3)] && links[1..][1..][1..] == [];
    assert Forward([Name(3)], Name(2), env) == [(Name(3), env)];
    assert Forward(links[1..], Name(2), env) == [(Name(3), env)];
    assert Forward(links, Name(2), env) == [(Name(1), env), (Name(3), env)];
  }

  /** Down the line to node `k`. */
  lemma {:induction false} DownTheLine(c: Crypto, last: nat, m: Signed, k: nat) returns (evs: seq<Event>)
    requires MISSED <= last && Accepts(c, m) && m.nodeId == Name(0) && 3 <= k <= MISSED
    ensures RunTo(c, last, m, evs, Running(m, k), Below(k))
    decreases k
  {
    if k == 3 {
      evs := FirstLap(c, last, m);
    } else {
      evs := DownTheLine(c, last, m, k - 1);
      RunnerOn(last, m, k - 1);
      evs := Go(c, last, m, evs, Running(m, k - 1), Below(k - 1), 3, k - 1, Running(m, k), Below(k));
    }
  }

  /** What is in flight when the runner is on its way to node `k`, if it has the ttl to get there. */
  function Running(m: Signed, k: nat): seq<Copy>
    requires k >= 3
  {
    if k < MISSED then Late(m) + [Runner(m, k)] else Late(m)
  }

  lemma RunnerOn(last: nat, m: Signed, k: nat)
    requires 3 <= k < MISSED <= last
    ensures Remove(Running(m, k), 3) + Onward(last, k, Running(m, k)[3]) == Running(m, k + 1)
  {
    if k + 1 < MISSED {
      ForwardTwo(Links(last, k)[0], Name(k + 1), Runner(m, k).from, Envelope(m, MISSED - 2 - k));
      assert Onward(last, k, Runner(m, k)) == [Runner(m, k + 1)];
    }
  }

  lemma RemoveFirst(f: seq<Copy>)
    requires f != []
    ensures Remove(f, 0) == f[1..]
  {
  }

  /** The late copies arrive where the message has been: nothing comes of them. */
  lemma Duplicate(c: Crypto, last: nat, m: Signed, evs: seq<Event>, f: seq<Copy>, j: nat) returns (more: seq<Event>)
    requires MISSED <= last && RunTo(c, last, m, evs, f, Below(MISSED)) && Accepts(c, m)
    requires f != [] && j < MISSED && f[0].to == Name(j) && f[0].env.payload == m
    ensures RunTo(c, last, m, more, f[1..], Below(MISSED))
  {
    assert Below(MISSED) + {j} == Below(MISSED);
    RemoveFirst(f);
    more := Go(c, last, m, evs, f, Below(MISSED), 0, j, f[1..], Below(MISSED));
  }

  lemma Drained(c: Crypto, last: nat, m: Signed) returns (evs: seq<Event>)
    requires MISSED <= last && Accepts(c, m) && m.nodeId == Name(0)
    ensures RunTo(c, last, m, evs, [], Below(MISSED))
  {
    evs := DownTheLine(c, last, m, MISSED);
    evs := Duplicate(c, last, m, evs, Late(m), 2);
    evs := Duplicate(c, last, m, evs, Late(m)[1..], 3);
    evs := Duplicate(c, last, m, evs, Late(m)[1..][1..], 1);
    assert Late(m)[1..][1..][1..] == [];
  }

  lemma RunIsHarmless(c: Crypto, last: nat, m: Signed, evs: seq<Event>, flight: seq<Copy>, have: set<nat>)
    requires RunTo(c, last, m, evs, flight, have)
    ensures AllHarmless(Lap(c, last), Start(), evs, c.digest(m), ForCoverage)
  {
    forall k: nat | k < |evs| ensures HarmlessStep(Lap(c, last), Start(), evs, c.digest(m), ForCoverage, k) {
      ValidPrefix(Lap(c, last), Start(), evs, k);
    }
  }

  lemma NearWalk(c: Crypto, last: nat) returns (hops: nat)
    requires MISSED <= last
    ensures hops == 15 && Walk(Lap(c, last), Name(0), Name(MISSED), hops)
  {
    var k: nat :| k == MISSED;
    LineWalk(c, last, k);
    hops := k - 2;
  }

  lemma MissingRun(c: Crypto, last: nat, m: Signed) returns (evs: seq<Event>)
    requires MISSED <= last && Accepts(c, m) && m.nodeId == Name(0)
    ensures Valid(Lap(c, last), Start(), evs) && AllHarmless(Lap(c, last), Start(), evs, c.digest(m), ForCoverage)
    ensures evs != [] && evs[0] == Originate(Name(0), m, PeersOf(Lap(c, last), Name(0)))
    ensures Exec(Lap(c, last), Start(), evs).flight == []
    ensures !Processed(Lap(c, last), Exec(Lap(c, last), Start(), evs), c.digest(m), Name(MISSED))
  {
    evs := Drained(c, last, m);
    LapNode(c, last, 0);
    RunIsHarmless(c, last, m, evs, [], Below(MISSED));
  }

  /**
   For every size above 17 there is a network, symmetric and otherwise as `Coverage.FloodCoversNetwork`
   wants it, where the flood of any message that node 0 has validly signed can end, with nothing lost
   or forgotten, without a node 15 links away ever processing it.
   */
  lemma LargerNetworksCanMiss(c: Crypto, last: nat, m: Signed) returns (evs: seq<Event>, hops: nat)
    requires MISSED <= last && Accepts(c, m) && m.nodeId == Name(0)
    ensures |Lap(c, last).peers| == last + 1 && Closed(Lap(c, last)) && Symmetric(Lap(c, last))
    ensures Valid(Lap(c, last), Start(), evs) && AllHarmless(Lap(c, last), Start(), evs, c.digest(m), ForCoverage)
    ensures evs != [] && evs[0] == Originate(Name(0), m, PeersOf(Lap(c, last), Name(0)))
    ensures Exec(Lap(c, last), Start(), evs).flight == []
    ensures hops == 15 && Walk(Lap(c, last), Name(0), Name(MISSED), hops)
    ensures !Processed(Lap(c, last), Exec(Lap(c, last), Start(), evs), c.digest(m), Name(MISSED))
  {
    LapIsNetwork(c, last);
    hops := NearWalk(c, last);
    evs := MissingRun(c, last, m);
  }
}
