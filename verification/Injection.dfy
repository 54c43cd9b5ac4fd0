/**
 What injected copies can do to coverage. Deduplication comes before verification, and the ttl and
 the sender of a copy are neither hashed nor signed. So a forged copy makes its receiver ignore the
 genuine message, and a replay of the genuine message with a spent ttl, or in the name of a peer, can
 keep the message from nodes behind its receiver. What replays in nobody's or the signer's name do, ttl
 by ttl, is the subject of `Replays`.
 */
module Injection {
  import opened Common
  import opened Messages
  import opened Gossip
  import opened Network
  import opened Coverage

  /** A node that has seen an id does not process it again as long as its dedup map is not cleaned up. */
  lemma {:induction false} SeenBlocks(w: World, s: State, evs: seq<Event>, id: Bytes, v: NodeId, p: Processing)
    requires Valid(w, s, evs) && Has(s, id, v) && Cleanup(v) !in evs
    ensures Has(Exec(w, s, evs), id, v)
    ensures p in Exec(w, s, evs).log && p.node == v && Id(w, p.env) == id ==> p in s.log
    decreases |evs|
  {
    if evs != [] {
      var init := evs[..|evs| - 1];
      SeenBlocks(w, s, init, id, v, p);
      SeenBlocksStep(w, Exec(w, s, init), evs[|evs| - 1], id, v, p);
    }
  }

  lemma SeenBlocksStep(w: World, s: State, e: Event, id: Bytes, v: NodeId, p: Processing)
    requires Enabled(w, s, e) && Has(s, id, v) && e != Cleanup(v)
    ensures Has(Apply(w, s, e), id, v)
    ensures p in Apply(w, s, e).log && p.node == v && Id(w, p.env) == id ==> p in s.log
  {
    if e.Deliver? { LogAfterDelivery(w, s, e.i); }
  }

  /** A forged copy, delivered first, blocks the genuine message at its receiver for the rest of the run. */
  lemma ForgeryBlocks(w: World, s: State, i: nat, evs: seq<Event>, p: Processing)
    requires i < |s.flight| && !Accepts(w.crypto, s.flight[i].env.payload)
    requires Valid(w, AfterDelivery(w, s, i), evs) && Cleanup(s.flight[i].to) !in evs
    requires p in Exec(w, AfterDelivery(w, s, i), evs).log
    requires p.node == s.flight[i].to && Id(w, p.env) == Id(w, s.flight[i].env)
    ensures p in s.log
  {
    var id, v := Id(w, s.flight[i].env), s.flight[i].to;
    assert Has(AfterDelivery(w, s, i), id, v);
    SeenBlocks(w, AfterDelivery(w, s, i), evs, id, v, p);
  }

  // ---------- runs in which coverage fails ----------

  ghost predicate Reaches(w: World, evs: seq<Event>, s: State) {
    Valid(w, Start(), evs) && Exec(w, Start(), evs) == s
  }

  lemma More(w: World, evs: seq<Event>, s: State, e: Event)
    requires Reaches(w, evs, s) && Enabled(w, s, e)
    ensures Reaches(w, evs + [e], Apply(w, s, e))
  {
    assert (evs + [e])[..|evs + [e]| - 1] == evs;
  }

  /** Node `o` linked to `v`, and `v` to `u`. */
  function Line(c: Crypto, o: NodeId, v: NodeId, u: NodeId): World {
    World(map[o := [v], v := [o, u], u := [v]], c)
  }

  /** A closed network of three nodes in which `v` is one link and `u` two links from `o`. */
  ghost predicate ThreeNodes(w: World, o: NodeId, v: NodeId, u: NodeId) {
    Closed(w) && |w.peers| == 3 && Walk(w, o, v, 1) && Walk(w, o, u, 2)
  }

  lemma LineIsNetwork(c: Crypto, o: NodeId, v: NodeId, u: NodeId)
    requires o != v && v != u && o != u
    ensures ThreeNodes(Line(c, o, v, u), o, v, u)
  {
    var w := Line(c, o, v, u);
    assert w.peers.Keys == {o, v, u};
    assert Walk(w, o, o, 0) && v in PeersOf(w, o);
    assert Walk(w, o, v, 1) && u in PeersOf(w, v);
  }

  /** Coverage of the flood that `o` starts with `m` fails at `q`: all copies have drained and it has not processed it. */
  ghost predicate Missed(w: World, evs: seq<Event>, m: Signed, q: NodeId) {
    && Valid(w, Start(), evs) && Exec(w, Start(), evs).flight == []
    && Originate(m.nodeId, m, PeersOf(w, m.nodeId)) in evs
    && !Processed(w, Exec(w, Start(), evs), w.crypto.digest(m), q)
  }

  /** One forged copy, from anybody and with any ttl, defeats the flood at the peer it is sent to. */
  lemma ForgeryDefeatsCoverage(c: Crypto, m: Signed, forged: Signed, v: NodeId, u: NodeId, x: NodeId, t: U8)
    returns (evs: seq<Event>)
    requires m.nodeId != v && v != u && m.nodeId != u
    requires Accepts(c, m) && !Accepts(c, forged) && c.digest(forged) == c.digest(m)
    ensures var w := Line(c, m.nodeId, v, u);
            ThreeNodes(w, m.nodeId, v, u) && Missed(w, evs, m, v) && Missed(w, evs, m, u)
    ensures evs == [Inject(Copy(x, v, Envelope(forged, t))), Deliver(0), Originate(m.nodeId, m, [v]), Deliver(0)]
  {
    var w, o := Line(c, m.nodeId, v, u), m.nodeId;
    evs := ForgeryRun(c, m, forged, v, u, x, t);
    LineIsNetwork(c, o, v, u);
  }

  lemma ForgeryRun(c: Crypto, m: Signed, forged: Signed, v: NodeId, u: NodeId, x: NodeId, t: U8) returns (evs: seq<Event>)
    requires m.nodeId != v && v != u && m.nodeId != u
    requires Accepts(c, m) && !Accepts(c, forged) && c.digest(forged) == c.digest(m)
    ensures var w := Line(c, m.nodeId, v, u);
            Missed(w, evs, m, v) && Missed(w, evs, m, u)
    ensures evs == [Inject(Copy(x, v, Envelope(forged, t))), Deliver(0), Originate(m.nodeId, m, [v]), Deliver(0)]
  {
    var w, o := Line(c, m.nodeId, v, u), m.nodeId;
    var fake, own := Copy(x, v, Envelope(forged, t)), Copy(o, v, Envelope(m, DEFAULT_TTL));
    evs := [];
    var s := Start();
    More(w, evs, s, Inject(fake));
    evs, s := evs + [Inject(fake)], Apply(w, s, Inject(fake));
    assert s.flight == [fake];
    More(w, evs, s, Deliver(0));
    evs, s := evs + [Deliver(0)], AfterDelivery(w, s, 0);
    assert s.flight == [] && s.log == [] && Has(s, c.digest(m), v);
    var go := Originate(o, m, [v]);
    More(w, evs, s, go);
    evs, s := evs + [go], Apply(w, s, go);
    assert s.flight == [own] && s.log == [] && Has(s, c.digest(m), v);
    More(w, evs, s, Deliver(0));
    evs, s := evs + [Deliver(0)], AfterDelivery(w, s, 0);
    assert s.flight == [] && s.log == [];
    assert evs[2] == go;
  }

  function ReplayRun(m: Signed, v: NodeId, f: NodeId, t: U8): seq<Event> {
    var arrives := [Originate(m.nodeId, m, [v]), Inject(Copy(f, v, Envelope(m, t))), Deliver(1)];
    if t == 0 then arrives + [Deliver(0)] else arrives + [Deliver(0)] + [Deliver(0)]
  }

  /**
   One replay of the genuine message, delivered first at `v`, with a spent ttl or in the name of `u`,
   keeps the message from `u`, which only `v` links to the origin.
   */
  lemma ReplayDefeatsCoverage(c: Crypto, m: Signed, v: NodeId, u: NodeId, f: NodeId, t: U8) returns (evs: seq<Event>)
    requires m.nodeId != v && v != u && m.nodeId != u && Accepts(c, m)
    requires t == 0 || f == u
    ensures ThreeNodes(Line(c, m.nodeId, v, u), m.nodeId, v, u) && Missed(Line(c, m.nodeId, v, u), evs, m, u)
    ensures evs == ReplayRun(m, v, f, t)
  {
    var s;
    LineIsNetwork(c, m.nodeId, v, u);
    evs, s := ReplayDrains(c, m, v, u, f, t);
    assert evs[0] == Originate(m.nodeId, m, [v]);
  }

  lemma ReplayDrains(c: Crypto, m: Signed, v: NodeId, u: NodeId, f: NodeId, t: U8) returns (evs: seq<Event>, s: State)
    requires m.nodeId != v && v != u && m.nodeId != u && Accepts(c, m)
    requires t == 0 || f == u
    ensures evs == ReplayRun(m, v, f, t)
    ensures Reaches(Line(c, m.nodeId, v, u), evs, s) && s.flight == [] && forall p :: p in s.log ==> p.node != u
  {
    evs, s := ReplayArrives(c, m, v, u, f, t);
    evs, s := GenuineIgnored(c, m, v, u, f, t, evs, s);
    assert s.log[0].node == v;
    if t > 0 {
      evs, s := BackAtOrigin(Line(c, m.nodeId, v, u), m, v, u, t - 1, evs, s);
    }
  }

  lemma BackAtOrigin(w: World, m: Signed, v: NodeId, u: NodeId, t: U8, evs: seq<Event>, s: State)
    returns (more: seq<Event>, s': State)
    requires PeersOf(w, m.nodeId) == [v] && s.flight == [Copy(v, m.nodeId, Envelope(m, t))] && Reaches(w, evs, s)
    requires m.nodeId != u && forall p :: p in s.log ==> p.node != u
    ensures more == evs + [Deliver(0)] && Reaches(w, more, s')
    ensures s'.flight == [] && forall p :: p in s'.log ==> p.node != u
  {
    More(w, evs, s, Deliver(0));
    OriginKeeps(w, s, m, v, t);
    more, s' := evs + [Deliver(0)], AfterDelivery(w, s, 0);
  }

  /** The origin's own copy comes second at `v`, and is a duplicate. */
  lemma GenuineIgnored(c: Crypto, m: Signed, v: NodeId, u: NodeId, f: NodeId, t: U8, evs: seq<Event>, s: State)
    returns (more: seq<Event>, s': State)
    requires m.nodeId != v && v != u && m.nodeId != u && Accepts(c, m)
    requires Reaches(Line(c, m.nodeId, v, u), evs, s)
    requires s.flight == [Copy(m.nodeId, v, Envelope(m, DEFAULT_TTL))] + (if t == 0 then [] else [Copy(v, m.nodeId, Envelope(m, t - 1))])
    requires s.log == [Processing(v, f, Envelope(m, t), 0)] && SeenAt(s, v) == map[c.digest(m) := 0]
    ensures more == evs + [Deliver(0)] && Reaches(Line(c, m.nodeId, v, u), more, s')
    ensures s'.flight == if t == 0 then [] else [Copy(v, m.nodeId, Envelope(m, t - 1))]
    ensures s'.log == s.log
  {
    More(Line(c, m.nodeId, v, u), evs, s, Deliver(0));
    more, s' := evs + [Deliver(0)], AfterDelivery(Line(c, m.nodeId, v, u), s, 0);
  }

  /** Up to the delivery of the replay: the origin's copy is still in flight, and `v` has sent nothing to `u`. */
  lemma ReplayArrives(c: Crypto, m: Signed, v: NodeId, u: NodeId, f: NodeId, t: U8) returns (evs: seq<Event>, s: State)
    requires m.nodeId != v && v != u && m.nodeId != u && Accepts(c, m)
    requires t == 0 || f == u
    ensures var w, o := Line(c, m.nodeId, v, u), m.nodeId;
            && Reaches(w, evs, s)
            && evs == [Originate(o, m, [v]), Inject(Copy(f, v, Envelope(m, t))), Deliver(1)]
            && s.flight == [Copy(o, v, Envelope(m, DEFAULT_TTL))] + (if t == 0 then [] else [Copy(v, o, Envelope(m, t - 1))])
            && s.log == [Processing(v, f, Envelope(m, t), 0)] && s.now == 0
            && SeenAt(s, v) == map[c.digest(m) := 0] && SeenAt(s, o) == map[]
  {
    var w, o := Line(c, m.nodeId, v, u), m.nodeId;
    var own, replay := Copy(o, v, Envelope(m, DEFAULT_TTL)), Copy(f, v, Envelope(m, t));
    var go := Originate(o, m, [v]);
    evs, s := [], Start();
    More(w, evs, s, go);
    evs, s := evs + [go], Apply(w, s, go);
    assert s.flight == [own];
    More(w, evs, s, Inject(replay));
    evs, s := evs + [Inject(replay)], Apply(w, s, Inject(replay));
    assert s.flight == [own, replay];
    More(w, evs, s, Deliver(1));
    if t > 0 { ForwardsToOrigin(o, u, Envelope(m, t - 1)); }
    evs, s := evs + [Deliver(1)], AfterDelivery(w, s, 1);
  }

  lemma ForwardsToOrigin(o: NodeId, u: NodeId, env: Envelope)
    requires o != u
    ensures Forward([o, u], u, env) == [(o, env)]
  {
    assert [o, u][1..] == [u] && [u][1..] == [];
  }

  /** The origin processes its own message and has nobody else to send it to. */
  lemma OriginKeeps(w: World, s: State, m: Signed, v: NodeId, t: U8)
    requires PeersOf(w, m.nodeId) == [v] && s.flight == [Copy(v, m.nodeId, Envelope(m, t))]
    ensures AfterDelivery(w, s, 0).flight == []
    ensures forall p :: p in AfterDelivery(w, s, 0).log ==> p in s.log || p.node == m.nodeId
  {
    assert t > 0 ==> Forward([v], v, Envelope(m, t - 1)) == [] by { assert [v][1..] == []; }
  }
}
