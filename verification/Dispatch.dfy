/**
 What the gossip handler does with a processed message, without the functions it is specified by: for
 chat messages and acknowledgements it takes the step that the chat runs take, an announcement leaves the
 disk settled, and a node announcement leaves its row.
 */
module Dispatch {
  import opened Common
  import opened Printer
  import opened Reader
  import opened Fields
  import opened Messages
  import opened Gossip
  import opened Network
  import opened ChatRuns
  import opened ChatDelivery
  import opened SenderRuns
  import opened Storage
  import opened Reconcile
  import opened Reconciliation
  import opened GossipServiceModule

  // ---------- chat ----------

  /** The chat table after the handler is the receiver's table after the delivery in the runs. */
  lemma HandlerTable(w: ChatWorld, s: System, i: nat)
    requires i < |s.net.flight| && ReactionTo(w.net, s.net, i).processed
    ensures var c := s.net.flight[i];
            RowsAfter(w.net.crypto, w.suite, c.to, KeyAt(w, c.to), Tab(s, c.to), c.env.payload.message, s.net.now)
            == Tab(DeliverTo(w, s, i), c.to)
  {
    TableAfterDelivery(w, s, i, s.net.flight[i].to);
  }

  lemma {:induction false} PostedAll(sends: seq<(NodeId, Envelope)>, up: set<NodeId>)
    requires forall i :: 0 <= i < |sends| ==> sends[i].0 in up
    ensures Posted(sends, up) == sends
  {
    if sends != [] { PostedAll(sends[1..], up); }
  }

  lemma ForwardedUp(peers: seq<NodeId>, from: NodeId, env: Envelope, up: set<NodeId>)
    requires forall q :: q in peers ==> q in up
    ensures Posted(Forward(peers, from, env), up) == Forward(peers, from, env)
  {
    var sends := Forward(peers, from, env);
    forall i | 0 <= i < |sends| ensures sends[i].0 in up {
      ForwardTargets(peers, from, env, sends[i].0, sends[i].1);
      assert (sends[i].0, sends[i].1) in sends;
    }
    PostedAll(sends, up);
  }

  lemma CopiesOfBoth(n: NodeId, xs: seq<(NodeId, Envelope)>, ys: seq<(NodeId, Envelope)>)
    ensures CopiesOf(n, xs + ys) == CopiesOf(n, xs) + CopiesOf(n, ys)
  {
  }

  /** The acknowledgement mail of the handler, over links that are up, is the flood of the runs. */
  lemma AckMailIsFlood(w: ChatWorld, s: System, i: nat, up: set<NodeId>)
    requires i < |s.net.flight| && Replies(w, s, i)
    requires forall q :: q in PeersOf(w.net, s.net.flight[i].to) ==> q in up
    ensures var c := s.net.flight[i];
            var peers := PeersOf(w.net, c.to);
            CopiesOf(c.to, AckMail(w.net.crypto, w.suite, c.to, KeyAt(w, c.to), Tab(s, c.to), peers, up, c.env.payload.message, s.net.now))
            == CopiesTo(c.to, peers, Envelope(Reply(w, s, i).ack.value, DEFAULT_TTL))
  {
    var c := s.net.flight[i];
    ReachedAll(PeersOf(w.net, c.to), up);
    PostsAreCopies(c.to, PeersOf(w.net, c.to), Envelope(Reply(w, s, i).ack.value, DEFAULT_TTL));
  }

  /** What the handler sends, acknowledgement and forwarded copies together. */
  function HandlerMail(w: ChatWorld, s: System, i: nat, up: set<NodeId>): seq<(NodeId, Envelope)>
    requires i < |s.net.flight|
  {
    var c := s.net.flight[i];
    AckMail(w.net.crypto, w.suite, c.to, KeyAt(w, c.to), Tab(s, c.to), PeersOf(w.net, c.to), up, c.env.payload.message, s.net.now)
    + Posted(ReactionTo(w.net, s.net, i).sends, up)
  }

  lemma SendsUp(w: ChatWorld, s: System, i: nat, up: set<NodeId>)
    requires i < |s.net.flight| && forall q :: q in PeersOf(w.net, s.net.flight[i].to) ==> q in up
    ensures Posted(ReactionTo(w.net, s.net, i).sends, up) == ReactionTo(w.net, s.net, i).sends
  {
    var c := s.net.flight[i];
    if ReactionTo(w.net, s.net, i).sends != [] {
      ForwardedUp(PeersOf(w.net, c.to), c.from, c.env.(ttl := c.env.ttl - 1), up);
    }
  }

  /**
   With all links up, the copies the handler sends are, as a multiset, those the delivery in the runs adds
   to what is in flight besides the delivered copy.
   */
  lemma HandlerFlight(w: ChatWorld, s: System, i: nat, up: set<NodeId>)
    requires Sane(w) && SysInv(w, s) && i < |s.net.flight| && ReactionTo(w.net, s.net, i).processed
    requires forall q :: q in PeersOf(w.net, s.net.flight[i].to) ==> q in up
    ensures multiset(DeliverTo(w, s, i).net.flight)
         == multiset(Remove(s.net.flight, i)) + multiset(CopiesOf(s.net.flight[i].to, HandlerMail(w, s, i, up)))
  {
    var n := s.net.flight[i].to;
    var m := s.net.flight[i].env.payload.message;
    var sends := ReactionTo(w.net, s.net, i).sends;
    var ack := AckMail(w.net.crypto, w.suite, n, KeyAt(w, n), Tab(s, n), PeersOf(w.net, n), up, m, s.net.now);
    SendsUp(w, s, i, up);
    CopiesOfBoth(n, ack, sends);
    FlightOfStep(w, s, i, up);
  }

  lemma FlightOfStep(w: ChatWorld, s: System, i: nat, up: set<NodeId>)
    requires Sane(w) && SysInv(w, s) && i < |s.net.flight| && ReactionTo(w.net, s.net, i).processed
    requires forall q :: q in PeersOf(w.net, s.net.flight[i].to) ==> q in up
    ensures var n := s.net.flight[i].to;
            var ack := AckMail(w.net.crypto, w.suite, n, KeyAt(w, n), Tab(s, n), PeersOf(w.net, n), up,
                               s.net.flight[i].env.payload.message, s.net.now);
            DeliverTo(w, s, i).net.flight
            == Remove(s.net.flight, i) + CopiesOf(n, ReactionTo(w.net, s.net, i).sends) + CopiesOf(n, ack)
  {
    if Replies(w, s, i) {
      AckFloodEnabled(w, s, i);
      AckMailIsFlood(w, s, i, up);
    } else {
      NoReplyNoMail(w, s, i, up);
    }
  }

  lemma NoReplyNoMail(w: ChatWorld, s: System, i: nat, up: set<NodeId>)
    requires i < |s.net.flight| && ReactionTo(w.net, s.net, i).processed && !Replies(w, s, i)
    ensures var n := s.net.flight[i].to;
            && AckMail(w.net.crypto, w.suite, n, KeyAt(w, n), Tab(s, n), PeersOf(w.net, n), up,
                       s.net.flight[i].env.payload.message, s.net.now) == []
            && DeliverTo(w, s, i).net.flight == AfterDelivery(w.net, s.net, i).flight + []
  {
  }

  // ---------- announcements ----------

  /** An announcement settles the disk, as exactly as `SettledExactly` says, and no other message touches it. */
  lemma HandlerDisk(heads: Heads, d: Disk, m: GossipMessage, now: int)
    ensures !m.RepoAnnouncement? ==> DiskAfter(heads, d, m, now) == d
    ensures m.RepoAnnouncement? && NoOrphans(d) && Honest(m.repos) ==>
              forall i: nat :: i < |m.repos| ==>
                (Settled(heads, DiskAfter(heads, d, m, now), m.repos[i]) <==> !BundleLost(heads, d, m.repos, i))
  {
    if m.RepoAnnouncement? && NoOrphans(d) && Honest(m.repos) {
      forall i: nat | i < |m.repos|
        ensures Settled(heads, DiskAfter(heads, d, m, now), m.repos[i]) <==> !BundleLost(heads, d, m.repos, i)
      {
        SettledExactly(heads, d, m.repos, now, i);
      }
    }
  }

  /** A repository that was absent loads after the handler as it was announced, but for its external flag. */
  lemma HandlerStores(heads: Heads, d: Disk, m: GossipMessage, now: int, i: nat)
    requires m.RepoAnnouncement? && NoOrphans(d) && Honest(m.repos) && i < |m.repos| && m.repos[i].repoId !in d.repos
    ensures LoadRepo(DiskAfter(heads, d, m, now), m.repos[i].repoId) == Some(m.repos[i].(isExternal := true))
  {
    AbsentIsStored(heads, d, m.repos, now, i);
  }

  /** After a node announcement the node's row has the announced values and the time; every other row is as before. */
  lemma HandlerNodes(nodes: map<NodeId, NodeRow>, m: GossipMessage, at: I64)
    ensures !m.NodeAnnouncement? ==> NodesAfter(nodes, m, at) == nodes
    ensures m.NodeAnnouncement? ==>
              var u := NodesAfter(nodes, m, at);
              && u.Keys == nodes.Keys + {m.node} && (forall n :: n in nodes && n != m.node ==> u[n] == nodes[n])
              && NodeRowSays(u[m.node], m, at)
  {
    if m.NodeAnnouncement? {
      PrintedIsRead(Strings(m.addresses), "");
      assert Print(Strings(m.addresses)) + "" == Print(Strings(m.addresses));
    }
  }

  ghost predicate NodeRowSays(row: NodeRow, m: GossipMessage, at: I64)
    requires m.NodeAnnouncement?
  {
    && row.alias == m.alias && row.version == m.version && row.createdAt == at && row.updatedAt == at
    && (row.nodeType == 0 <==> m.nodeType.Normal?) && (row.nodeType == 1 <==> m.nodeType.Relay?)
    && exists v :: ReadValue(row.addresses) == Got(v, "") && IsStrings(v, m.addresses)
  }
}
