/**
 What one node does with one incoming gossip message (src/gossip/service.rs): deduplicate, verify,
 process, forward. Cryptography is a record of functions; the laws a theorem needs of them are
 stated where it needs them.
 */
module Gossip {
  import opened Common
  import opened Messages
  import opened Hashing

  type Key = Bytes

  datatype Crypto = Crypto(
    digest: Signed -> Bytes,                  // hex of `self_hash`
    keyOf: NodeId -> Option<Key>,             // `NodeId::to_keypair`
    decodeHex: Bytes -> Option<seq<U8>>,      // `hex::decode`
    verify: (Key, Bytes, seq<U8>) -> bool)    // signature check of a digest

  /** Digests are a hash of the preimage. */
  ghost predicate DigestsHash(c: Crypto, hash: Bytes -> Bytes) {
    forall m :: c.digest(m) == hash(PreimageOf(m))
  }

  /** Equal digests mean equal signer, content and timestamp. */
  ghost predicate DigestsDistinguish(c: Crypto) {
    forall m, n :: c.digest(m) == c.digest(n)
      ==> m.nodeId == n.nodeId && m.message == n.message && m.timestamp == n.timestamp
  }

  lemma InjectiveHashDistinguishes(c: Crypto, hash: Bytes -> Bytes)
    requires DigestsHash(c, hash) && Injective(hash)
    ensures DigestsDistinguish(c)
  {
    forall m, n | c.digest(m) == c.digest(n)
      ensures m.nodeId == n.nodeId && m.message == n.message && m.timestamp == n.timestamp
    {
      DigestUnambiguous(hash, m, n);
    }
  }

  function SignatureBytes(c: Crypto, m: Signed): seq<U8> {
    match c.decodeHex(m.signature)
    case Some(bytes) => bytes
    case None => []
  }

  /** `m` carries a signature of its digest that checks under `k`. */
  predicate SignedUnder(c: Crypto, k: Key, m: Signed) {
    |SignatureBytes(c, m)| == 64 && c.verify(k, c.digest(m), SignatureBytes(c, m))
  }

  /** A node id that decodes to no key skips the signature check, as in the source. */
  predicate Accepts(c: Crypto, m: Signed) {
    && (c.keyOf(m.nodeId).Some? ==> SignedUnder(c, c.keyOf(m.nodeId).value, m))
    && m.nodeId == Sender(m.message)
  }

  /**
   A message is acceptable exactly if its signer is whom it names as sender, and its signature is the hex of
   64 bytes that check, unless the signer's id has no key.
   */
  lemma AcceptsExactly(c: Crypto, m: Signed)
    ensures Accepts(c, m) <==>
              && (match m.message
                  case NodeAnnouncement(node, _, _, _, _) => m.nodeId == node
                  case RepoAnnouncement(owner, _) => m.nodeId == owner
                  case Chat(sender, _, _, _) => m.nodeId == sender
                  case ChatAck(acker, _, _, _, _) => m.nodeId == acker)
              && forall k :: c.keyOf(m.nodeId) == Some(k) ==>
                   exists s: seq<U8> :: c.decodeHex(m.signature) == Some(s) && |s| == 64 && c.verify(k, c.digest(m), s)
  {
    assert c.decodeHex(m.signature).Some? ==> c.decodeHex(m.signature) == Some(SignatureBytes(c, m));
  }

  /** The copies a node sends on: one to every peer but the one it got the message from. */
  function Forward(peers: seq<NodeId>, from: NodeId, env: Envelope): (sends: seq<(NodeId, Envelope)>)
    ensures |sends| <= |peers|
  {
    if peers == [] then []
    else (if peers[0] == from then [] else [(peers[0], env)]) + Forward(peers[1..], from, env)
  }

  lemma {:induction false} ForwardTargets(peers: seq<NodeId>, from: NodeId, env: Envelope, q: NodeId, e: Envelope)
    ensures (q, e) in Forward(peers, from, env) <==> q in peers && q != from && e == env
  {
    if peers != [] {
      ForwardTargets(peers[1..], from, env, q, e);
      assert q in peers <==> q == peers[0] || q in peers[1..];
    }
  }

  datatype Reaction = Reaction(seen: map<Bytes, int>, processed: bool, sends: seq<(NodeId, Envelope)>)

  function Receive(c: Crypto, peers: seq<NodeId>, seen: map<Bytes, int>, from: NodeId, env: Envelope, now: int): Reaction {
    var id := c.digest(env.payload);
    if id in seen then Reaction(seen, false, [])
    else
      var marked := seen[id := now];
      if !Accepts(c, env.payload) then Reaction(marked, false, [])
      else Reaction(marked, true, if env.ttl > 0 then Forward(peers, from, env.(ttl := env.ttl - 1)) else [])
  }

  /** Five minutes, in nanoseconds. */
  const DEDUP_WINDOW := 300_000_000_000

  /** The cleanup of the dedup map. */
  function Expire(seen: map<Bytes, int>, now: int): map<Bytes, int> {
    map id | id in seen && seen[id] + DEDUP_WINDOW > now :: seen[id]
  }

  /** An entry stays, as it is, exactly while it is younger than 300 seconds. */
  lemma ExpiredExactly(seen: map<Bytes, int>, now: int, id: Bytes)
    ensures id in Expire(seen, now) <==> id in seen && now - seen[id] < 300 * 1_000_000_000
    ensures id in Expire(seen, now) ==> Expire(seen, now)[id] == seen[id]
  {
  }
}
