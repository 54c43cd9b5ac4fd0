/**
 Chat on one node: the message table, the sender loop, and what is done with an incoming message
 or acknowledgement (src/chat/service.rs, src/storage/chat_message.rs).
 */
module Chat {
  import opened Common
  import opened Messages
  import opened Gossip

  datatype Status = Sending | Sent | Delivered | Failed

  datatype Row = Row(sender: NodeId, receiver: NodeId, content: Bytes, createdAt: int, status: Status)

  type Table = map<Bytes, Row>

  /** The keys of this node's peers in the protocol, beyond what checking a signature takes. */
  datatype Suite = Suite(
    sign: (Key, Bytes) -> Bytes,                // hex signature of a digest with a node's own key
    encrypt: (Key, Bytes, nat) -> seq<U8>,      // to a public key, with fresh randomness
    decrypt: (Key, seq<U8>) -> Option<Bytes>,   // with the private half of a key, to UTF-8 text
    validId: NodeId -> bool,                    // `NodeId::from_string` succeeds
    clock: int -> I64)                          // wall-clock seconds

  /** Hex of 64 bytes that check as a signature of the digest under the key. */
  predicate IsSignature(c: Crypto, k: Key, digest: Bytes, text: Bytes) {
    match c.decodeHex(text)
    case Some(bytes) => |bytes| == 64 && c.verify(k, digest, bytes)
    case None => false
  }

  ghost predicate SuiteLaws(c: Crypto, x: Suite) {
    && (forall k, d :: IsSignature(c, k, d, x.sign(k, d)))
    && (forall k, text, r :: x.decrypt(k, x.encrypt(k, text, r)) == Some(text))
    && (forall n :: c.keyOf(n).Some? ==> x.validId(n))
    && (forall m: Signed, s :: c.digest(m.(signature := s)) == c.digest(m))
  }

  // ---------- the table ----------

  function UpdateStatus(t: Table, id: Bytes, status: Status): Table {
    if id in t then t[id := t[id].(status := status)] else t
  }

  function Pending(t: Table): Table {
    map id | id in t && t[id].status == Sending :: t[id]
  }

  // ---------- messages a node makes ----------

  /** Build the message with an empty signature, sign its digest, put the signature in. */
  function MakeSigned(c: Crypto, x: Suite, me: NodeId, key: Key, m: GossipMessage, now: int): Signed {
    var blank := Signed(me, m, x.clock(now), "");
    blank.(signature := x.sign(key, c.digest(blank)))
  }

  lemma MadeIsAccepted(c: Crypto, x: Suite, me: NodeId, key: Key, m: GossipMessage, now: int)
    requires SuiteLaws(c, x) && Sender(m) == me && c.keyOf(me) == Some(key)
    ensures Accepts(c, MakeSigned(c, x, me, key, m, now))
  {
    var blank := Signed(me, m, x.clock(now), "");
    assert IsSignature(c, key, c.digest(blank), x.sign(key, c.digest(blank)));
    assert c.digest(blank.(signature := x.sign(key, c.digest(blank)))) == c.digest(blank);
  }

  // ---------- sending ----------

  /** The peers whose link takes the message. */
  function Reached(peers: seq<NodeId>, up: set<NodeId>): (r: seq<NodeId>)
    ensures forall q :: q in r <==> q in peers && q in up
  {
    if peers == [] then []
    else if peers[0] in up then [peers[0]] + Reached(peers[1..], up)
    else Reached(peers[1..], up)
  }

  /** Who gets the message, or `None` when the attempt fails: the receiver alone if it is a peer, else all peers. */
  function Targets(peers: seq<NodeId>, receiver: NodeId, up: set<NodeId>): Option<seq<NodeId>> {
    if peers == [] then None
    else if receiver in peers then if receiver in up then Some([receiver]) else None
    else if Reached(peers, up) == [] then None
    else Some(Reached(peers, up))
  }

  datatype Attempt = Invalid | Unsent | Launched(msg: Signed, targets: seq<NodeId>)

  /** One try at one pending row. */
  function TrySend(c: Crypto, x: Suite, me: NodeId, key: Key, peers: seq<NodeId>, up: set<NodeId>,
                   id: Bytes, row: Row, nonce: nat, now: int): Attempt {
    if !x.validId(row.receiver) then Invalid
    else match c.keyOf(row.receiver)
      case None => Unsent
      case Some(pk) =>
        match Targets(peers, row.receiver, up)
        case None => Unsent
        case Some(targets) =>
          Launched(MakeSigned(c, x, me, key, Chat(me, row.receiver, id, x.encrypt(pk, row.content, nonce)), now), targets)
  }

  // ---------- receiving ----------

  datatype Incoming = Incoming(table: Table, ack: Option<Signed>)

  function OnChat(c: Crypto, x: Suite, me: NodeId, key: Key, t: Table, m: GossipMessage, now: int): Incoming
    requires m.Chat?
  {
    if m.receiverId != me then Incoming(t, None)
    else match x.decrypt(key, m.ciphertext)
      case None => Incoming(t, None)
      case Some(text) =>
        var stored := if m.msgId in t then t else t[m.msgId := Row(m.senderId, me, text, x.clock(now), Delivered)];
        Incoming(stored, Some(MakeSigned(c, x, me, key, ChatAck(me, m.senderId, m.msgId, x.clock(now), ""), now)))
  }

  function OnAck(me: NodeId, t: Table, m: GossipMessage): Table
    requires m.ChatAck?
  {
    if m.targetId != me then t else UpdateStatus(t, m.ackedId, Delivered)
  }

  /** A letter that is stored says who sent it, its text, and when it came; one that is there stays. */
  lemma StoredByValue(c: Crypto, x: Suite, me: NodeId, key: Key, t: Table, m: GossipMessage, now: int)
    requires m.Chat? && m.receiverId == me && x.decrypt(key, m.ciphertext).Some?
    ensures var u := OnChat(c, x, me, key, t, m, now).table;
            && u.Keys == t.Keys + {m.msgId} && (forall id :: id in t ==> u[id] == t[id])
            && (m.msgId !in t ==>
                  && u[m.msgId].sender == m.senderId && u[m.msgId].receiver == me
                  && Some(u[m.msgId].content) == x.decrypt(key, m.ciphertext)
                  && u[m.msgId].createdAt == x.clock(now) && u[m.msgId].status == Delivered)
  {
  }

  /** A letter for this node that decrypts is answered to its sender, for its id, at this time; no other message is. */
  lemma AnswerByValue(c: Crypto, x: Suite, me: NodeId, key: Key, t: Table, m: GossipMessage, now: int)
    requires m.Chat?
    ensures var ack := OnChat(c, x, me, key, t, m, now).ack;
            && (ack.Some? <==> m.receiverId == me && x.decrypt(key, m.ciphertext).Some?)
            && (ack.Some? ==>
                  && ack.value.nodeId == me && ack.value.timestamp == x.clock(now)
                  && ack.value.message == ChatAck(me, m.senderId, m.msgId, x.clock(now), "")
                  && ack.value.signature == x.sign(key, c.digest(ack.value.(signature := ""))))
    ensures OnChat(c, x, me, key, t, m, now).ack.None? ==> OnChat(c, x, me, key, t, m, now).table == t
  {
    assert OnChat(c, x, me, key, t, m, now).ack.Some? ==>
      OnChat(c, x, me, key, t, m, now).ack.value.(signature := "")
      == Signed(me, ChatAck(me, m.senderId, m.msgId, x.clock(now), ""), x.clock(now), "");
  }

  // ---------- the service ----------

  /** Copies of `env` to each target, as the outbox records them. */
  function Posts(targets: seq<NodeId>, env: Envelope): seq<(NodeId, Envelope)> {
    if targets == [] then [] else [(targets[0], env)] + Posts(targets[1..], env)
  }

  lemma {:induction false} ReachedAppend(peers: seq<NodeId>, q: NodeId, up: set<NodeId>)
    ensures Reached(peers + [q], up) == Reached(peers, up) + (if q in up then [q] else [])
  {
    if peers == [] {
      assert peers + [q] == [q];
    } else {
      assert (peers + [q])[1..] == peers[1..] + [q];
      ReachedAppend(peers[1..], q, up);
    }
  }

  lemma {:induction false} PostsAppend(xs: seq<NodeId>, ys: seq<NodeId>, env: Envelope)
    ensures Posts(xs + ys, env) == Posts(xs, env) + Posts(ys, env)
  {
    if xs == [] {
      assert xs + ys == ys;
    } else {
      assert (xs + ys)[1..] == xs[1..] + ys;
      PostsAppend(xs[1..], ys, env);
    }
  }

  lemma ReachesSome(peers: seq<NodeId>, up: set<NodeId>)
    ensures Reached(peers, up) != [] <==> exists j :: 0 <= j < |peers| && peers[j] in up
  {
    if Reached(peers, up) != [] {
      assert Reached(peers, up)[0] in Reached(peers, up);
    }
    if j :| 0 <= j < |peers| && peers[j] in up {
      assert peers[j] in Reached(peers, up);
    }
  }

  /** What a broadcast has sent after its first `i` peers. */
  function MailTo(peers: seq<NodeId>, i: nat, up: set<NodeId>, env: Envelope): seq<(NodeId, Envelope)>
    requires i <= |peers|
  {
    if i == 0 then []
    else MailTo(peers, i - 1, up, env) + (if peers[i - 1] in up then [(peers[i - 1], env)] else [])
  }

  lemma {:induction false} MailToIsPosts(peers: seq<NodeId>, i: nat, up: set<NodeId>, env: Envelope)
    requires i <= |peers|
    ensures MailTo(peers, i, up, env) == Posts(Reached(peers[..i], up), env)
  {
    if i > 0 {
      MailToIsPosts(peers, i - 1, up, env);
      assert peers[..i] == peers[..i - 1] + [peers[i - 1]];
      PostsNext(peers[..i - 1], peers[i - 1], up, env);
    }
  }

  lemma PostsNext(peers: seq<NodeId>, q: NodeId, up: set<NodeId>, env: Envelope)
    ensures Posts(Reached(peers + [q], up), env) == Posts(Reached(peers, up), env) + (if q in up then [(q, env)] else [])
  {
    ReachedAppend(peers, q, up);
    var last := if q in up then [q] else [];
    PostsAppend(Reached(peers, up), last, env);
  }

  /** The table and the mail after one pass of the sender over the rows it loaded. */
  datatype Pass = Pass(table: Table, mail: seq<(NodeId, Envelope)>)

  function SenderPass(c: Crypto, x: Suite, me: NodeId, key: Key, peers: seq<NodeId>, up: set<NodeId>,
                      t: Table, batch: seq<(Bytes, Row)>, i: nat, nonce: nat, now: int): Pass
    requires i <= |batch|
    decreases i
  {
    if i == 0 then Pass(t, [])
    else
      var before := SenderPass(c, x, me, key, peers, up, t, batch, i - 1, nonce, now);
      Tried(before, batch[i - 1].0, TrySend(c, x, me, key, peers, up, batch[i - 1].0, batch[i - 1].1, nonce + i - 1, now))
  }

  /** What one try leaves behind. */
  function Tried(pass: Pass, id: Bytes, attempt: Attempt): Pass {
    match attempt
    case Invalid => Pass(UpdateStatus(pass.table, id, Failed), pass.mail)
    case Unsent => pass
    case Launched(m, targets) =>
      Pass(UpdateStatus(pass.table, id, Sent), pass.mail + Posts(targets, Envelope(m, DEFAULT_TTL)))
  }

  /** Mail sent earlier stays in front. */
  lemma TriedAfter(pass: Pass, earlier: seq<(NodeId, Envelope)>, id: Bytes, attempt: Attempt)
    ensures Tried(Pass(pass.table, earlier + pass.mail), id, attempt)
         == Pass(Tried(pass, id, attempt).table, earlier + Tried(pass, id, attempt).mail)
  {
  }

  class ChatService {
    const crypto: Crypto
    const suite: Suite
    const me: NodeId
    const key: Key
    var peers: seq<NodeId>                       // connected peers
    var up: set<NodeId>                          // peers whose link accepts a send
    var rows: Table                              // table `chat_messages`
    var outbox: seq<(NodeId, Envelope)>          // what has been sent, in order

    constructor (crypto: Crypto, suite: Suite, me: NodeId, key: Key)
      ensures this.crypto == crypto && this.suite == suite && this.me == me && this.key == key
      ensures peers == [] && up == {} && rows == map[] && outbox == []
    {
      this.crypto, this.suite, this.me, this.key := crypto, suite, me, key;
      peers, up, rows, outbox := [], {}, map[], [];
    }

    /** Insert a row; the primary key refuses an id that is present. */
    method SaveMessage(id: Bytes, row: Row) returns (ok: bool)
      modifies this`rows
      ensures ok <==> id !in old(rows)
      ensures rows == if ok then old(rows)[id := row] else old(rows)
    {
      ok := id !in rows;
      if ok { rows := rows[id := row]; }
    }

    method UpdateMessageStatus(id: Bytes, status: Status)
      modifies this`rows
      ensures rows == UpdateStatus(old(rows), id, status)
    {
      if id in rows {
        rows := rows[id := rows[id].(status := status)];
      }
    }

    method SendGossipMessage(peer: NodeId, env: Envelope) returns (ok: bool)
      modifies this`outbox
      ensures ok <==> peer in up
      ensures outbox == if ok then old(outbox) + [(peer, env)] else old(outbox)
    {
      ok := peer in up;
      if ok { outbox := outbox + [(peer, env)]; }
    }

    /** `try_send_pending_msg`, once the receiver's id has parsed. */
    method TrySendPendingMsg(id: Bytes, row: Row, nonce: nat, now: int) returns (ok: bool)
      requires suite.validId(row.receiver)
      modifies this`outbox
      ensures match TrySend(crypto, suite, me, key, peers, up, id, row, nonce, now)
              case Launched(m, targets) => ok && outbox == old(outbox) + Posts(targets, Envelope(m, DEFAULT_TTL))
              case _ => !ok && outbox == old(outbox)
    {
      var pk := crypto.keyOf(row.receiver);
      if pk.None? { return false; }
      var m := MakeSigned(crypto, suite, me, key, Chat(me, row.receiver, id, suite.encrypt(pk.value, row.content, nonce)), now);
      var env := Envelope(m, DEFAULT_TTL);
      if |peers| == 0 { return false; }
      if row.receiver in peers {
        ok := SendGossipMessage(row.receiver, env);
        assert Posts([row.receiver], env) == [(row.receiver, env)];
      } else {
        ok := Broadcast(env);
      }
    }

    /** Send to every peer; succeed if at least one send does. */
    method Broadcast(env: Envelope) returns (atLeastOneSuccess: bool)
      modifies this`outbox
      ensures atLeastOneSuccess <==> Reached(peers, up) != []
      ensures outbox == old(outbox) + Posts(Reached(peers, up), env)
    {
      atLeastOneSuccess := false;
      ghost var before := outbox;
      for i := 0 to |peers|
        invariant outbox == before + MailTo(peers, i, up, env)
        invariant atLeastOneSuccess <==> exists j :: 0 <= j < i && peers[j] in up
      {
        var ok := SendGossipMessage(peers[i], env);
        if ok { atLeastOneSuccess := true; }
      }
      MailToIsPosts(peers, |peers|, up, env);
      assert peers[..|peers|] == peers;
      ReachesSome(peers, up);
    }

    /** One iteration over the pending rows. */
    method ProcessOne(id: Bytes, row: Row, nonce: nat, now: int)
      modifies this`rows, this`outbox
      ensures Pass(rows, outbox)
           == Tried(Pass(old(rows), old(outbox)), id, TrySend(crypto, suite, me, key, peers, up, id, row, nonce, now))
    {
      if !suite.validId(row.receiver) {
        UpdateMessageStatus(id, Failed);
      } else {
        var ok := TrySendPendingMsg(id, row, nonce, now);
        if ok {
          UpdateMessageStatus(id, Sent);
        }
      }
    }

    /** `process_pending_messages`: load the rows to send, then try each. */
    method ProcessPendingMessages(nonce: nat, now: int) returns (ghost batch: seq<(Bytes, Row)>)
      modifies this`rows, this`outbox
      ensures Enumerates(batch, Pending(old(rows)))
      ensures var pass := SenderPass(crypto, suite, me, key, peers, up, old(rows), batch, |batch|, nonce, now);
              rows == pass.table && outbox == old(outbox) + pass.mail
    {
      var pendingMsgs := LoadPending();
      batch := pendingMsgs;
      ProcessBatch(pendingMsgs, nonce, now);
    }

    method ProcessBatch(pendingMsgs: seq<(Bytes, Row)>, nonce: nat, now: int)
      modifies this`rows, this`outbox
      ensures var pass := SenderPass(crypto, suite, me, key, peers, up, old(rows), pendingMsgs, |pendingMsgs|, nonce, now);
              rows == pass.table && outbox == old(outbox) + pass.mail
    {
      ghost var mail := outbox;
      ghost var pass := Pass(rows, []);
      for i := 0 to |pendingMsgs|
        invariant pass == SenderPass(crypto, suite, me, key, peers, up, old(rows), pendingMsgs, i, nonce, now)
        invariant rows == pass.table && outbox == mail + pass.mail
      {
        ghost var attempt := TrySend(crypto, suite, me, key, peers, up, pendingMsgs[i].0, pendingMsgs[i].1, nonce + i, now);
        TriedAfter(pass, mail, pendingMsgs[i].0, attempt);
        ProcessOne(pendingMsgs[i].0, pendingMsgs[i].1, nonce + i, now);
        pass := Tried(pass, pendingMsgs[i].0, attempt);
      }
    }

    /** The rows with status Sending, in the order the database returns them. */
    method LoadPending() returns (batch: seq<(Bytes, Row)>)
      ensures Enumerates(batch, Pending(rows))
    {
      batch := [];
      var pending := Pending(rows);
      var left := pending.Keys;
      while left != {}
        invariant left <= pending.Keys
        invariant forall i :: 0 <= i < |batch| ==>
                    batch[i].0 in pending && batch[i].0 !in left && batch[i].1 == pending[batch[i].0]
        invariant forall i, j :: 0 <= i < j < |batch| ==> batch[i].0 != batch[j].0
        invariant forall k :: k in pending && k !in left ==> exists i :: 0 <= i < |batch| && batch[i].0 == k
        decreases left
      {
        var k :| k in left;
        ghost var before := batch;
        batch := batch + [(k, pending[k])];
        left := left - {k};
        assert batch[|before|].0 == k;
        assert forall i :: 0 <= i < |before| ==> batch[i] == before[i];
      }
    }

    method ProcessIncomingChat(m: GossipMessage, now: int)
      requires m.Chat?
      modifies this`rows, this`outbox
      ensures var r := OnChat(crypto, suite, me, key, old(rows), m, now);
              && rows == r.table
              && outbox == old(outbox)
                   + (if r.ack.Some? then Posts(Reached(peers, up), Envelope(r.ack.value, DEFAULT_TTL)) else [])
    {
      if m.receiverId != me { return; }
      var plain := suite.decrypt(key, m.ciphertext);
      if plain.None? { return; }
      if m.msgId !in rows {
        var saved := SaveMessage(m.msgId, Row(m.senderId, me, plain.value, suite.clock(now), Delivered));
      }
      var ack := MakeSigned(crypto, suite, me, key, ChatAck(me, m.senderId, m.msgId, suite.clock(now), ""), now);
      var any := Broadcast(Envelope(ack, DEFAULT_TTL));
    }

    method ProcessAck(m: GossipMessage)
      requires m.ChatAck?
      modifies this`rows
      ensures rows == OnAck(me, old(rows), m)
    {
      if m.targetId != me { return; }
      UpdateMessageStatus(m.ackedId, Delivered);
    }
  }
}
