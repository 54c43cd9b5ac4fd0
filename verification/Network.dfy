/**
 A network of gossiping nodes as a state machine. Copies in flight are listed in no meaningful
 order: a delivery takes any one of them. Every copy may also be lost, dedup entries may be
 cleaned up at any time, and copies may be injected from outside.
 */
module Network {
  import opened Common
  import opened Messages
  import opened Gossip

  datatype World = World(peers: map<NodeId, seq<NodeId>>, crypto: Crypto)

  function PeersOf(w: World, n: NodeId): seq<NodeId> {
    if n in w.peers then w.peers[n] else []
  }

  datatype Copy = Copy(from: NodeId, to: NodeId, env: Envelope)

  /** A message that passed dedup and verification at a node. */
  datatype Processing = Processing(node: NodeId, from: NodeId, env: Envelope, time: int)

  datatype State = State(
    now: int, seen: map<NodeId, map<Bytes, int>>, flight: seq<Copy>, log: seq<Processing>)

  datatype Event =
    | Originate(origin: NodeId, msg: Signed, targets: seq<NodeId>)
    | Deliver(i: nat)
    | Lose(i: nat)
    | Cleanup(node: NodeId)
    | Inject(copy: Copy)
    | Tick(elapsed: nat)

  function Id(w: World, env: Envelope): Bytes { w.crypto.digest(env.payload) }

  function SeenAt(s: State, n: NodeId): map<Bytes, int> {
    if n in s.seen then s.seen[n] else map[]
  }

  function Start(): State { State(0, map[], [], []) }

  function CopiesTo(origin: NodeId, targets: seq<NodeId>, env: Envelope): seq<Copy> {
    seq(|targets|, i requires 0 <= i < |targets| => Copy(origin, targets[i], env))
  }

  function CopiesOf(from: NodeId, sends: seq<(NodeId, Envelope)>): seq<Copy> {
    seq(|sends|, i requires 0 <= i < |sends| => Copy(from, sends[i].0, sends[i].1))
  }

  function Remove<T>(s: seq<T>, i: nat): seq<T>
    requires i < |s|
  {
    s[..i] + s[i + 1..]
  }

  predicate Enabled(w: World, s: State, e: Event) {
    match e
    case Originate(o, m, targets) =>
      // a node starts a flood with a message it signed itself, at its peers
      && o in w.peers && m.nodeId == o && Accepts(w.crypto, m)
      && forall q :: q in targets ==> q in PeersOf(w, o)
    case Deliver(i) => i < |s.flight|
    case Lose(i) => i < |s.flight|
    case Cleanup(_) => true
    case Inject(_) => true
    case Tick(_) => true
  }

  /** What the receiver of copy `i` does. */
  function ReactionTo(w: World, s: State, i: nat): Reaction
    requires i < |s.flight|
  {
    var c := s.flight[i];
    Receive(w.crypto, PeersOf(w, c.to), SeenAt(s, c.to), c.from, c.env, s.now)
  }

  function AfterDelivery(w: World, s: State, i: nat): State
    requires i < |s.flight|
  {
    var c := s.flight[i];
    var r := ReactionTo(w, s, i);
    State(
      s.now,
      s.seen[c.to := r.seen],
      Remove(s.flight, i) + CopiesOf(c.to, r.sends),
      if r.processed then s.log + [Processing(c.to, c.from, c.env, s.now)] else s.log)
  }

  function Apply(w: World, s: State, e: Event): State
    requires Enabled(w, s, e)
  {
    match e
    case Originate(o, m, targets) =>
      s.(flight := s.flight + CopiesTo(o, targets, Envelope(m, DEFAULT_TTL)))
    case Deliver(i) => AfterDelivery(w, s, i)
    case Lose(i) => s.(flight := Remove(s.flight, i))
    case Cleanup(n) => s.(seen := s.seen[n := Expire(SeenAt(s, n), s.now)])
    case Inject(c) => s.(flight := s.flight + [c])
    case Tick(dt) => s.(now := s.now + dt)
  }

  /** `evs` can happen one after the other from `s`. */
  predicate Valid(w: World, s: State, evs: seq<Event>)
    decreases |evs|, 0
  {
    evs == [] ||
    (Valid(w, s, evs[..|evs| - 1]) && Enabled(w, Exec(w, s, evs[..|evs| - 1]), evs[|evs| - 1]))
  }

  /** The state after `evs`. */
  function Exec(w: World, s: State, evs: seq<Event>): State
    requires Valid(w, s, evs)
    decreases |evs|, 1
  {
    if evs == [] then s
    else Apply(w, Exec(w, s, evs[..|evs| - 1]), evs[|evs| - 1])
  }

  lemma {:induction false} ValidPrefix(w: World, s: State, evs: seq<Event>, k: nat)
    requires Valid(w, s, evs) && k <= |evs|
    ensures Valid(w, s, evs[..k])
    ensures k < |evs| ==> Enabled(w, Exec(w, s, evs[..k]), evs[k]) && Valid(w, s, evs[..k + 1])
                          && Exec(w, s, evs[..k + 1]) == Apply(w, Exec(w, s, evs[..k]), evs[k])
    decreases |evs|
  {
    if k == |evs| {
      assert evs[..k] == evs;
    } else if k == |evs| - 1 {
      assert evs[..k + 1] == evs;
    } else {
      var p := evs[..|evs| - 1];
      ValidPrefix(w, s, p, k);
      assert p[..k] == evs[..k] && p[..k + 1] == evs[..k + 1];
    }
  }

  lemma {:induction false} ExecAppend(w: World, s: State, xs: seq<Event>, ys: seq<Event>)
    requires Valid(w, s, xs)
    ensures Valid(w, s, xs + ys) <==> Valid(w, Exec(w, s, xs), ys)
    ensures Valid(w, s, xs + ys) ==> Exec(w, s, xs + ys) == Exec(w, Exec(w, s, xs), ys)
    decreases |ys|
  {
    if ys == [] {
      assert xs + ys == xs;
    } else {
      var all, init := xs + ys, ys[..|ys| - 1];
      ExecAppend(w, s, xs, init);
      assert all[..|all| - 1] == xs + init;
      assert all[|all| - 1] == ys[|ys| - 1];
    }
  }

  // ---------- facts about one delivery ----------

  lemma RemoveKeeps<T>(s: seq<T>, i: nat, c: T)
    requires i < |s|
    ensures c in Remove(s, i) ==> c in s
    ensures c in s && c != s[i] ==> c in Remove(s, i)
  {
    if c in s && c != s[i] {
      var j :| 0 <= j < |s| && s[j] == c;
      assert if j < i then Remove(s, i)[j] == c else Remove(s, i)[j - 1] == c;
    }
  }

  /** The copies in flight after a delivery: the others, and what the receiver sent. */
  lemma FlightAfterDelivery(w: World, s: State, i: nat, c: Copy)
    requires i < |s.flight|
    ensures c in AfterDelivery(w, s, i).flight ==> c in s.flight || c in CopiesOf(s.flight[i].to, ReactionTo(w, s, i).sends)
    ensures c in s.flight && c != s.flight[i] ==> c in AfterDelivery(w, s, i).flight
  {
    RemoveKeeps(s.flight, i, c);
  }

  /** A copy sent on: from the receiver, to another peer, with the ttl lowered. */
  lemma SentOn(w: World, s: State, i: nat, c: Copy)
    requires i < |s.flight| && c in CopiesOf(s.flight[i].to, ReactionTo(w, s, i).sends)
    ensures var d := s.flight[i];
            && ReactionTo(w, s, i).processed && d.env.ttl > 0
            && c.from == d.to && c.env == d.env.(ttl := d.env.ttl - 1)
            && c.to in PeersOf(w, d.to) && c.to != d.from
  {
    var d, sends := s.flight[i], ReactionTo(w, s, i).sends;
    var j :| 0 <= j < |sends| && c == CopiesOf(d.to, sends)[j];
    assert (c.to, c.env) == sends[j];
    ForwardTargets(PeersOf(w, d.to), d.from, d.env.(ttl := d.env.ttl - 1), c.to, c.env);
  }

  /** A processed message with ttl left is sent to every peer but the sender. */
  lemma SentToAll(w: World, s: State, i: nat, q: NodeId)
    requires i < |s.flight| && ReactionTo(w, s, i).processed && s.flight[i].env.ttl > 0
    requires q in PeersOf(w, s.flight[i].to) && q != s.flight[i].from
    ensures var d := s.flight[i];
            Copy(d.to, q, d.env.(ttl := d.env.ttl - 1)) in AfterDelivery(w, s, i).flight
  {
    var d := s.flight[i];
    var sends := ReactionTo(w, s, i).sends;
    ForwardTargets(PeersOf(w, d.to), d.from, d.env.(ttl := d.env.ttl - 1), q, d.env.(ttl := d.env.ttl - 1));
    var j :| 0 <= j < |sends| && sends[j] == (q, d.env.(ttl := d.env.ttl - 1));
    assert CopiesOf(d.to, sends)[j] == Copy(d.to, q, d.env.(ttl := d.env.ttl - 1));
  }
}
