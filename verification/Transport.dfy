/**
 Frames between two connected nodes (src/transport/quic.rs): a prefix says whether a stream carries
 a gossip message or bundle data, and the receiver routes it by that prefix. Opening connections is
 not part of this model.
 */
module Transport {
  import opened Common

  const READ_BUF_SIZE := 1024 * 1024
  const GOSSIP_PREFIX: Bytes := "GOSSIP:"
  const DATA_PREFIX: Bytes := "DATA:"

  predicate StartsWith(s: Bytes, p: Bytes) { |p| <= |s| && s[..|p|] == p }

  datatype Routed = ToData(payload: Bytes) | ToGossip(payload: Bytes) | Dropped

  /** Where a received stream goes, given which of the two receivers is registered. */
  function Route(frame: Bytes, dataUp: bool, gossipUp: bool): Routed {
    if |frame| > READ_BUF_SIZE then Dropped            // the bounded read fails
    else if StartsWith(frame, DATA_PREFIX) && dataUp then ToData(frame[|DATA_PREFIX|..])
    else if !gossipUp then Dropped
    else if StartsWith(frame, GOSSIP_PREFIX) then ToGossip(frame[|GOSSIP_PREFIX|..])
    else ToGossip(frame)
  }

  lemma PrefixStripped(p: Bytes, payload: Bytes)
    ensures StartsWith(p + payload, p) && (p + payload)[|p|..] == payload
  {
  }

  lemma OtherPrefix(s: Bytes, p: Bytes)
    requires s != [] && p != []
    ensures s[0] != p[0] ==> !StartsWith(s, p)
  {
    if StartsWith(s, p) { assert s[..|p|][0] == s[0]; }
  }

  /**
   Routing, completely. Of a stream of at most 1 MiB, the data receiver gets what follows `DATA:`, if it is
   registered; else the gossip receiver, if it is registered, gets what follows `GOSSIP:`, or all of it.
   */
  lemma RoutingExactly(frame: Bytes, dataUp: bool, gossipUp: bool, p: Bytes)
    ensures Route(frame, dataUp, gossipUp) == ToData(p)
       <==> |frame| <= 1_048_576 && dataUp && frame == "DATA:" + p
    ensures Route(frame, dataUp, gossipUp) == ToGossip(p)
       <==> |frame| <= 1_048_576 && gossipUp && !(dataUp && "DATA:" <= frame)
            && (frame == "GOSSIP:" + p || (p == frame && !("GOSSIP:" <= frame)))
  {
    PrefixSplit(frame, "DATA:", p);
    PrefixSplit(frame, "GOSSIP:", p);
  }

  lemma PrefixSplit(frame: Bytes, prefix: Bytes, p: Bytes)
    ensures StartsWith(frame, prefix) <==> prefix <= frame
    ensures StartsWith(frame, prefix) ==> (frame == prefix + p <==> frame[|prefix|..] == p)
    ensures frame == prefix + p ==> prefix <= frame
  {
    if StartsWith(frame, prefix) { assert frame == frame[..|prefix|] + frame[|prefix|..]; }
  }

  /** With both receivers registered, exactly the framed data of bounded length reaches the data receiver. */
  lemma DataRouting(frame: Bytes, payload: Bytes)
    ensures Route(frame, true, true) == ToData(payload)
       <==> frame == DATA_PREFIX + payload && |frame| <= READ_BUF_SIZE
  {
    PrefixStripped(DATA_PREFIX, payload);
    if StartsWith(frame, DATA_PREFIX) {
      assert frame == frame[..|DATA_PREFIX|] + frame[|DATA_PREFIX|..];
    }
  }

  /** A framed gossip message of bounded length reaches the gossip receiver unchanged, whether or not data is accepted. */
  lemma GossipRouting(payload: Bytes, dataUp: bool)
    requires |GOSSIP_PREFIX| + |payload| <= READ_BUF_SIZE
    ensures Route(GOSSIP_PREFIX + payload, dataUp, true) == ToGossip(payload)
  {
    PrefixStripped(GOSSIP_PREFIX, payload);
    assert (GOSSIP_PREFIX + payload)[0] == 'G' && DATA_PREFIX[0] == 'D';
    OtherPrefix(GOSSIP_PREFIX + payload, DATA_PREFIX);
  }

  /** Without a data receiver, bundle data goes to gossip with its prefix still on. */
  lemma UnclaimedDataGoesToGossip(payload: Bytes)
    requires |DATA_PREFIX| + |payload| <= READ_BUF_SIZE
    ensures Route(DATA_PREFIX + payload, false, true) == ToGossip(DATA_PREFIX + payload)
  {
    assert (DATA_PREFIX + payload)[0] == 'D' && GOSSIP_PREFIX[0] == 'G';
    OtherPrefix(DATA_PREFIX + payload, GOSSIP_PREFIX);
  }

  type Queue = seq<(NodeId, Bytes)>

  /** The connections, each with the number of streams it will still take: none once it is closed or broken. */
  type Connections = map<NodeId, nat>

  function Room(cs: Connections, peer: NodeId): nat {
    if peer in cs then cs[peer] else 0
  }

  /** After `n` attempts to open a stream to `peer`. */
  function Used(cs: Connections, peer: NodeId, n: nat): Connections {
    if peer in cs then cs[peer := if cs[peer] > n then cs[peer] - n else 0] else cs
  }

  /** The part of a queue that a connection takes before it breaks. */
  function Taken(frames: Queue, room: nat): Queue {
    if |frames| <= room then frames else frames[..room]
  }

  /** Of a connection's room, every attempt uses one stream while there is one; other connections keep theirs. */
  lemma RoomLeft(cs: Connections, peer: NodeId, n: nat, other: NodeId)
    ensures Room(Used(cs, peer, n), other) ==
              if other != peer then Room(cs, other) else if n <= Room(cs, peer) then Room(cs, peer) - n else 0
    ensures Used(cs, peer, n).Keys == cs.Keys
  {
  }

  class ConnectionManager {
    var connections: Connections
    var gossipUp: bool                      // a gossip receiver is registered
    var dataUp: bool                        // a data receiver is registered
    var gossipQueue: Queue
    var dataQueue: Queue
    var wire: Queue                         // streams written to peers, in order

    constructor ()
      ensures connections == map[] && !gossipUp && !dataUp
      ensures gossipQueue == [] && dataQueue == [] && wire == []
    {
      connections, gossipUp, dataUp := map[], false, false;
      gossipQueue, dataQueue, wire := [], [], [];
    }

    method RegisterGossipSender()
      modifies this`gossipUp
      ensures gossipUp
    {
      gossipUp := true;
    }

    method RegisterDataSender()
      modifies this`dataUp
      ensures dataUp
    {
      dataUp := true;
    }

    /** The connected peers, each once. */
    method ListPeers() returns (peers: seq<NodeId>)
      ensures forall p :: p in peers <==> p in connections
      ensures forall i, j :: 0 <= i < j < |peers| ==> peers[i] != peers[j]
    {
      peers := [];
      var left := connections.Keys;
      while left != {}
        invariant left <= connections.Keys
        invariant forall p :: p in peers <==> p in connections && p !in left
        invariant forall i, j :: 0 <= i < j < |peers| ==> peers[i] != peers[j]
        decreases left
      {
        var p :| p in left;
        peers := peers + [p];
        left := left - {p};
      }
    }

    /** Drop the closed connections and no others. */
    method CleanupConnections()
      modifies this`connections
      ensures connections == map p | p in old(connections) && old(connections)[p] > 0 :: old(connections)[p]
    {
      var dead: seq<NodeId> := [];
      var left := connections.Keys;
      while left != {}
        invariant left <= connections.Keys
        invariant forall p :: p in dead <==> p in connections && p !in left && connections[p] == 0
        decreases left
      {
        var p :| p in left;
        if connections[p] == 0 { dead := dead + [p]; }
        left := left - {p};
      }
      for i := 0 to |dead|
        invariant connections == map p | p in old(connections) && p !in dead[..i] :: old(connections)[p]
      {
        connections := connections - {dead[i]};
      }
      assert dead[..|dead|] == dead;
    }

    method SendMessage(peer: NodeId, message: Bytes) returns (ok: bool)
      modifies this`wire, this`connections
      ensures ok <==> Room(old(connections), peer) > 0
      ensures connections == Used(old(connections), peer, 1)
      ensures wire == if ok then old(wire) + [(peer, message)] else old(wire)
    {
      ok := peer in connections && connections[peer] > 0;
      if ok {
        connections := connections[peer := connections[peer] - 1];
        wire := wire + [(peer, message)];
      }
    }

    method SendGossipMessage(peer: NodeId, message: Bytes) returns (ok: bool)
      modifies this`wire, this`connections
      ensures ok <==> Room(old(connections), peer) > 0
      ensures connections == Used(old(connections), peer, 1)
      ensures wire == if ok then old(wire) + [(peer, GOSSIP_PREFIX + message)] else old(wire)
    {
      var prefixed: Bytes := "";
      prefixed := prefixed + GOSSIP_PREFIX;
      prefixed := prefixed + message;
      assert prefixed == GOSSIP_PREFIX + message;
      ok := SendMessage(peer, prefixed);
    }

    method SendDataMessage(peer: NodeId, message: Bytes) returns (ok: bool)
      modifies this`wire, this`connections
      ensures ok <==> Room(old(connections), peer) > 0
      ensures connections == Used(old(connections), peer, 1)
      ensures wire == if ok then old(wire) + [(peer, DATA_PREFIX + message)] else old(wire)
    {
      var prefixed: Bytes := "";
      prefixed := prefixed + DATA_PREFIX;
      prefixed := prefixed + message;
      assert prefixed == DATA_PREFIX + message;
      ok := SendMessage(peer, prefixed);
    }

    /** The receive loop's body, for one stream from `peer`. */
    method HandleStream(peer: NodeId, bytes: Bytes)
      modifies this`gossipQueue, this`dataQueue
      ensures match Route(bytes, dataUp, gossipUp)
              case ToData(p) => dataQueue == old(dataQueue) + [(peer, p)] && gossipQueue == old(gossipQueue)
              case ToGossip(p) => gossipQueue == old(gossipQueue) + [(peer, p)] && dataQueue == old(dataQueue)
              case Dropped => dataQueue == old(dataQueue) && gossipQueue == old(gossipQueue)
    {
      if |bytes| > READ_BUF_SIZE { return; }
      var isDataTransfer := StartsWith(bytes, DATA_PREFIX);
      if isDataTransfer {
        var payload := bytes[|DATA_PREFIX|..];
        if dataUp {
          dataQueue := dataQueue + [(peer, payload)];
          return;
        }
      }
      var payload := if StartsWith(bytes, GOSSIP_PREFIX) then bytes[|GOSSIP_PREFIX|..] else bytes;
      if gossipUp {
        gossipQueue := gossipQueue + [(peer, payload)];
      }
    }
  }
}
