/**
 The status of a sent letter, exactly. The sender loop marks a row sent in a step of its own after the
 send, so an acknowledgement can come in between, and the mark then takes the row from delivered back
 to sent, where it stays. A row says delivered exactly if some acknowledgement was processed after
 which no mark came.
 */
module ChatStatus {
  import opened Common
  import opened Messages
  import opened Gossip
  import opened Network
  import opened Chat
  import opened ChatRuns
  import opened ChatDelivery

  ghost predicate AcksAt(w: ChatWorld, evs: seq<ChatEvent>, n: NodeId, id: Bytes, k: nat) {
    k < |evs| && Possible(w, evs[..k]) && Can(w, After(w, evs[..k]), evs[k]) && Acks(w, After(w, evs[..k]), evs[k], n, id)
  }

  ghost predicate MarksAt(w: ChatWorld, evs: seq<ChatEvent>, n: NodeId, id: Bytes, k: nat) {
    k < |evs| && Possible(w, evs[..k]) && Marks(After(w, evs[..k]), evs[k], n, id)
  }

  /** Step `j` processes an acknowledgement of `id` at `n`, and no later step marks the row. */
  ghost predicate AckStands(w: ChatWorld, evs: seq<ChatEvent>, n: NodeId, id: Bytes, j: nat) {
    AcksAt(w, evs, n, id, j) && forall k: nat :: j < k ==> !MarksAt(w, evs, n, id, k)
  }

  ghost predicate Acknowledged(w: ChatWorld, evs: seq<ChatEvent>, n: NodeId, id: Bytes) {
    exists j: nat :: AckStands(w, evs, n, id, j)
  }

  lemma AtPrefix(w: ChatWorld, evs: seq<ChatEvent>, n: NodeId, id: Bytes, k: nat)
    requires evs != [] && k < |evs| - 1
    ensures AcksAt(w, evs, n, id, k) <==> AcksAt(w, evs[..|evs| - 1], n, id, k)
    ensures MarksAt(w, evs, n, id, k) <==> MarksAt(w, evs[..|evs| - 1], n, id, k)
  {
    assert evs[..|evs| - 1][..k] == evs[..k];
  }

  /** One step further: the last step acknowledges, or an earlier acknowledgement stands and the last step does not mark. */
  lemma AcknowledgedStep(w: ChatWorld, evs: seq<ChatEvent>, n: NodeId, id: Bytes)
    requires evs != [] && Possible(w, evs)
    ensures var last := |evs| - 1;
            Acknowledged(w, evs, n, id)
            <==> AcksAt(w, evs, n, id, last) || (Acknowledged(w, evs[..last], n, id) && !MarksAt(w, evs, n, id, last))
  {
    var last := |evs| - 1;
    if AcksAt(w, evs, n, id, last) { assert AckStands(w, evs, n, id, last); }
    if Acknowledged(w, evs[..last], n, id) && !MarksAt(w, evs, n, id, last) {
      var j: nat :| AckStands(w, evs[..last], n, id, j);
      StandsOn(w, evs, n, id, j);
    }
    if Acknowledged(w, evs, n, id) && !AcksAt(w, evs, n, id, last) {
      var j: nat :| AckStands(w, evs, n, id, j);
      StoodBefore(w, evs, n, id, j);
    }
  }

  lemma StandsOn(w: ChatWorld, evs: seq<ChatEvent>, n: NodeId, id: Bytes, j: nat)
    requires evs != [] && AckStands(w, evs[..|evs| - 1], n, id, j) && !MarksAt(w, evs, n, id, |evs| - 1)
    ensures AckStands(w, evs, n, id, j)
  {
    AtPrefix(w, evs, n, id, j);
    forall k: nat | j < k ensures !MarksAt(w, evs, n, id, k) {
      if k < |evs| - 1 { AtPrefix(w, evs, n, id, k); }
    }
  }

  lemma StoodBefore(w: ChatWorld, evs: seq<ChatEvent>, n: NodeId, id: Bytes, j: nat)
    requires evs != [] && AckStands(w, evs, n, id, j) && j != |evs| - 1
    ensures AckStands(w, evs[..|evs| - 1], n, id, j) && !MarksAt(w, evs, n, id, |evs| - 1)
  {
    var init := evs[..|evs| - 1];
    AtPrefix(w, evs, n, id, j);
    forall k: nat | j < k ensures !MarksAt(w, init, n, id, k) {
      if k < |evs| - 1 { AtPrefix(w, evs, n, id, k); }
    }
  }

  // ---------- the sender's row ----------

  /** A letter has a row at its sender. */
  ghost predicate SenderRows(s: System) {
    forall id :: id in s.letters ==> id in Tab(s, s.letters[id].sender)
  }

  lemma SenderRowsStep(w: ChatWorld, s: System, e: ChatEvent)
    requires Sane(w) && SysInv(w, s) && Can(w, s, e) && SenderRows(s)
    ensures SenderRows(Do(w, s, e))
  {
    SysInvStep(w, s, e);
    forall id | id in Do(w, s, e).letters ensures id in Tab(Do(w, s, e), Do(w, s, e).letters[id].sender) {
      LetterOrigin(w, s, e, id);
    }
  }

  /** A letter is as before, or this step submits it. */
  lemma LetterOrigin(w: ChatWorld, s: System, e: ChatEvent, id: Bytes)
    requires Can(w, s, e) && id in Do(w, s, e).letters
    ensures (id in s.letters && Do(w, s, e).letters[id] == s.letters[id])
         || (id !in s.letters && e.Submit? && e.id == id && Do(w, s, e).letters[id].sender == e.n
             && id in Tab(Do(w, s, e), e.n) && Tab(Do(w, s, e), e.n)[id].status == Sending)
  {
  }

  lemma {:induction false} SenderRowsHold(w: ChatWorld, evs: seq<ChatEvent>)
    requires Sane(w) && Possible(w, evs)
    ensures SenderRows(After(w, evs))
    decreases |evs|
  {
    if evs != [] {
      var init := evs[..|evs| - 1];
      SenderRowsHold(w, init);
      SysInvHolds(w, init);
      SenderRowsStep(w, After(w, init), evs[|evs| - 1]);
    }
  }

  /** Nobody acknowledges a letter that has not been submitted. */
  lemma AckNeedsLetter(w: ChatWorld, s: System, e: ChatEvent, n: NodeId, id: Bytes)
    requires SysInv(w, s) && Can(w, s, e) && Acks(w, s, e, n, id)
    ensures id in s.letters
  {
    assert s.net.flight[e.e.i] in s.net.flight;
    assert GoodEnv(w, s, s.net.flight[e.e.i].env);
  }

  lemma NoEarlyAck(w: ChatWorld, evs: seq<ChatEvent>, n: NodeId, id: Bytes)
    requires Sane(w) && Possible(w, evs) && id !in After(w, evs).letters
    ensures !Acknowledged(w, evs, n, id)
  {
    if j: nat :| AckStands(w, evs, n, id, j) {
      SysInvHolds(w, evs[..j]);
      AckNeedsLetter(w, After(w, evs[..j]), evs[j], n, id);
      LettersKept(w, evs, j, id);
      assert false;
    }
  }

  /** Exactly: the sender's row of a letter says delivered if and only if some acknowledgement stands. */
  lemma {:induction false} DeliveredExactly(w: ChatWorld, evs: seq<ChatEvent>, id: Bytes)
    requires Sane(w) && Possible(w, evs) && id in After(w, evs).letters
    ensures var s := After(w, evs);
            var n := s.letters[id].sender;
            id in Tab(s, n) && (Tab(s, n)[id].status == Delivered <==> Acknowledged(w, evs, n, id))
    decreases |evs|
  {
    var init, e := evs[..|evs| - 1], evs[|evs| - 1];
    var s, n := After(w, init), After(w, evs).letters[id].sender;
    SenderRowsHold(w, evs);
    SysInvHolds(w, init);
    AcknowledgedStep(w, evs, n, id);
    LetterOrigin(w, s, e, id);
    if id in s.letters {
      DeliveredExactly(w, init, id);
      DeliveredStep(w, s, e, n, id);
    } else {
      NoEarlyAck(w, init, n, id);
    }
  }

  /** Once an acknowledgement has been processed, the sender's row says delivered if one stands, and else sent. */
  lemma AckedStatusExactly(w: ChatWorld, evs: seq<ChatEvent>, id: Bytes)
    requires Sane(w) && Possible(w, evs) && AckProcessed(After(w, evs), id)
    ensures var s := After(w, evs);
            var n := s.letters[id].sender;
            id in Tab(s, n) && Tab(s, n)[id].status == (if Acknowledged(w, evs, n, id) then Delivered else Sent)
  {
    DeliveredExactly(w, evs, id);
    AckedStatus(w, evs, id);
  }

  // ---------- acknowledgements by others ----------

  /**
   Nothing compares the acknowledger with the receiver. In any state, an acknowledgement that anybody has
   validly signed, put in flight to a node that has not seen it, makes that node's row delivered, and
   changes no other node's table: the receiver need not have stored anything.
   */
  lemma AnybodysAckDelivers(w: ChatWorld, s: System, n: NodeId, id: Bytes, m: Signed, from: NodeId, t: U8)
    requires id in Tab(s, n) && Accepts(w.net.crypto, m) && w.net.crypto.digest(m) !in SeenAt(s.net, n)
    requires m.message.ChatAck? && m.message.targetId == n && m.message.ackedId == id
    ensures var injected := s.(net := Apply(w.net, s.net, Inject(Copy(from, n, Envelope(m, t)))));
            var after := DeliverTo(w, injected, |s.net.flight|);
            && id in Tab(after, n) && Tab(after, n)[id].status == Delivered
            && forall q :: q != n ==> Tab(after, q) == Tab(s, q)
  {
    var c := Copy(from, n, Envelope(m, t));
    var injected := s.(net := Apply(w.net, s.net, Inject(c)));
    assert injected.net.flight[|s.net.flight|] == c;
    TableAfterDelivery(w, injected, |s.net.flight|, n);
    forall q | q != n ensures Tab(DeliverTo(w, injected, |s.net.flight|), q) == Tab(s, q) {
      TableAfterDelivery(w, injected, |s.net.flight|, q);
    }
  }

  /** Every delivered row of a node's own letters is stored at its receiver. */
  ghost predicate DeliveredIsStored(s: System) {
    forall n, id :: id in Tab(s, n) && Tab(s, n)[id].sender == n && Tab(s, n)[id].status == Delivered
      ==> id in Tab(s, Tab(s, n)[id].receiver)
  }

  /**
   Delivered keeps meaning stored over an acknowledgement exactly if the receiver named in the row has
   stored the letter, as it has when the acknowledger is that receiver and signs only what it stored.
   */
  lemma AckKeepsMeaning(w: ChatWorld, s: System, i: nat, n: NodeId, id: Bytes)
    requires DeliveredIsStored(s) && i < |s.net.flight| && ReactionTo(w.net, s.net, i).processed && s.net.flight[i].to == n
    requires var m := s.net.flight[i].env.payload.message;
             m.ChatAck? && m.targetId == n && m.ackedId == id
    requires id in Tab(s, n) && Tab(s, n)[id].sender == n
    ensures DeliveredIsStored(DeliverTo(w, s, i)) <==> id in Tab(s, Tab(s, n)[id].receiver)
  {
    var u := DeliverTo(w, s, i);
    forall q ensures Tab(u, q) == if q == n then UpdateStatus(Tab(s, n), id, Delivered) else Tab(s, q) {
      TableAfterDelivery(w, s, i, q);
    }
    assert id in Tab(u, n) && Tab(u, n)[id].sender == n && Tab(u, n)[id].status == Delivered;
  }

  // ---------- a run that ends in sent although the acknowledgement was processed ----------

  ghost predicate RunsTo(w: ChatWorld, evs: seq<ChatEvent>, s: System) {
    Possible(w, evs) && After(w, evs) == s
  }

  lemma More(w: ChatWorld, evs: seq<ChatEvent>, s: System, e: ChatEvent)
    requires RunsTo(w, evs, s) && Can(w, s, e)
    ensures RunsTo(w, evs + [e], Do(w, s, e))
  {
    assert (evs + [e])[..|evs + [e]| - 1] == evs;
  }

  /** Two nodes, linked to each other. */
  ghost predicate Pair(w: ChatWorld, a: NodeId, b: NodeId) {
    Sane(w) && a != b && w.net.peers == map[a := [b], b := [a]]
  }

  lemma PairPeers(w: ChatWorld, a: NodeId, b: NodeId)
    requires Pair(w, a, b)
    ensures PeersOf(w.net, a) == [b] && PeersOf(w.net, b) == [a]
    ensures w.net.crypto.keyOf(a).Some? && w.net.crypto.keyOf(b).Some?
  {
    var m := map[a := [b], b := [a]];
    assert a in m && b in m && m[a] == [b] && m[b] == [a];
    assert a in w.net.peers && b in w.net.peers;
  }

  function NewRow(w: ChatWorld, a: NodeId, b: NodeId, text: Bytes): Row {
    Row(a, b, text, w.suite.clock(0), Sending)
  }

  /** Submitted and loaded. */
  function Loaded(w: ChatWorld, a: NodeId, b: NodeId, id: Bytes, text: Bytes): System {
    System(Start(), map[a := map[id := NewRow(w, a, b, text)]], map[a := Batch([(id, NewRow(w, a, b, text))])],
           map[id := Letter(a, b, text)], {})
  }

  lemma RunToLoaded(w: ChatWorld, a: NodeId, b: NodeId, id: Bytes, text: Bytes) returns (evs: seq<ChatEvent>)
    requires Pair(w, a, b)
    ensures evs == [Submit(a, id, b, text), Load(a, [(id, NewRow(w, a, b, text))])]
    ensures RunsTo(w, evs, Loaded(w, a, b, id, text))
  {
    var row := NewRow(w, a, b, text);
    assert RunsTo(w, [], Begin());
    More(w, [], Begin(), Submit(a, id, b, text));
    var s := Do(w, Begin(), Submit(a, id, b, text));
    assert Tab(s, a) == map[id := row];
    var batch := [(id, row)];
    assert batch[0].0 == id;
    assert Enumerates(batch, Pending(Tab(s, a)));
    More(w, [] + [Submit(a, id, b, text)], s, Load(a, batch));
    evs := [] + [Submit(a, id, b, text)] + [Load(a, batch)];
    assert Do(w, s, Load(a, batch)) == Loaded(w, a, b, id, text);
  }

  /** The sender's loop has launched the letter and stands before the mark. */
  ghost predicate OnItsWay(w: ChatWorld, s: System, a: NodeId, b: NodeId, id: Bytes, m: Signed) {
    && s.net == Start().(flight := [Copy(a, b, Envelope(m, DEFAULT_TTL))])
    && m.nodeId == a && m.message.Chat? && m.message.receiverId == b && m.message.senderId == a && m.message.msgId == id
    && Accepts(w.net.crypto, m) && w.suite.decrypt(KeyAt(w, b), m.message.ciphertext).Some?
    && JobAt(s, a) == Marking(id, []) && id in Tab(s, a) && b !in s.tables
    && id in s.letters && s.letters[id].sender == a
  }

  lemma LaunchStep(w: ChatWorld, a: NodeId, b: NodeId, id: Bytes, text: Bytes, nonce: nat) returns (m: Signed)
    requires Pair(w, a, b)
    ensures var s, e := Loaded(w, a, b, id, text), Try(a, nonce, {b});
            Can(w, s, e) && OnItsWay(w, Do(w, s, e), a, b, id, m)
  {
    var s := Loaded(w, a, b, id, text);
    PairPeers(w, a, b);
    var attempt := Attempted(w, s, a, nonce, {b});
    m := attempt.msg;
    MadeIsAccepted(w.net.crypto, w.suite, a, KeyAt(w, a), m.message, 0);
    assert attempt.targets == [b];
    assert CopiesTo(a, [b], Envelope(m, DEFAULT_TTL)) == [Copy(a, b, Envelope(m, DEFAULT_TTL))];
  }

  /** The receiver has stored the letter, and its acknowledgement is in flight. */
  ghost predicate Answering(w: ChatWorld, s: System, a: NodeId, b: NodeId, id: Bytes, m: Signed) {
    && s.net.flight == [Copy(b, a, Envelope(m, DEFAULT_TTL))] && SeenAt(s.net, a) == map[]
    && Accepts(w.net.crypto, m) && m.message.ChatAck? && m.message.targetId == a && m.message.ackedId == id
    && JobAt(s, a) == Marking(id, []) && id in Tab(s, a)
    && id in s.letters && s.letters[id].sender == a
  }

  lemma AnswerStep(w: ChatWorld, s: System, a: NodeId, b: NodeId, id: Bytes, m: Signed) returns (ack: Signed)
    requires Pair(w, a, b) && OnItsWay(w, s, a, b, id, m)
    ensures Can(w, s, Network(Deliver(0))) && Answering(w, Do(w, s, Network(Deliver(0))), a, b, id, ack)
  {
    PairPeers(w, a, b);
    ForwardsNothing(a, Envelope(m, DEFAULT_TTL - 1));
    ack := Reply(w, s, 0).ack.value;
    MadeIsAccepted(w.net.crypto, w.suite, b, KeyAt(w, b), ack.message, 0);
    assert AfterDelivery(w.net, s.net, 0).flight == [];
    assert CopiesTo(b, [a], Envelope(ack, DEFAULT_TTL)) == [Copy(b, a, Envelope(ack, DEFAULT_TTL))];
  }

  lemma ForwardsNothing(q: NodeId, env: Envelope)
    ensures Forward([q], q, env) == []
  {
    assert [q][1..] == [];
  }

  /** The acknowledgement has been processed, and the mark is still to come. */
  ghost predicate Acked(s: System, a: NodeId, id: Bytes) {
    && s.net.flight == [] && AckProcessed(s, id) && s.letters[id].sender == a
    && JobAt(s, a) == Marking(id, []) && id in Tab(s, a) && Tab(s, a)[id].status == Delivered
  }

  lemma AckStep(w: ChatWorld, s: System, a: NodeId, b: NodeId, id: Bytes, m: Signed)
    requires Pair(w, a, b) && Answering(w, s, a, b, id, m)
    ensures Can(w, s, Network(Deliver(0))) && Acked(Do(w, s, Network(Deliver(0))), a, id)
  {
    var t := Do(w, s, Network(Deliver(0)));
    PairPeers(w, a, b);
    ForwardsNothing(b, Envelope(m, DEFAULT_TTL - 1));
    var p := Processing(a, b, Envelope(m, DEFAULT_TTL), s.net.now);
    assert t.net.log[|s.net.log|] == p;
  }

  /**
   A delivered row can go back to sent, whatever the cryptography, the text and the id: between two
   linked nodes, submit, load, launch, deliver the letter, deliver its acknowledgement, mark. Nothing
   is in flight at the end, and the acknowledgement has been processed.
   */
  lemma LateMarkUndoesDelivered(w: ChatWorld, a: NodeId, b: NodeId, id: Bytes, text: Bytes, nonce: nat)
    returns (evs: seq<ChatEvent>, before: System)
    requires Pair(w, a, b)
    ensures evs == [Submit(a, id, b, text), Load(a, [(id, NewRow(w, a, b, text))]), Try(a, nonce, {b}),
                    Network(Deliver(0)), Network(Deliver(0))]
    ensures RunsTo(w, evs, before) && Acked(before, a, id)
    ensures RunsTo(w, evs + [Mark(a)], Do(w, before, Mark(a)))
    ensures Tab(Do(w, before, Mark(a)), a)[id].status == Sent && AckProcessed(Do(w, before, Mark(a)), id)
  {
    var m;
    evs, before, m := RunToLaunched(w, a, b, id, text, nonce);
    evs, before := RunToAcked(w, evs, before, a, b, id, m);
    More(w, evs, before, Mark(a));
    MarkStep(w, before, a, id);
  }

  lemma RunToLaunched(w: ChatWorld, a: NodeId, b: NodeId, id: Bytes, text: Bytes, nonce: nat)
    returns (evs: seq<ChatEvent>, s: System, m: Signed)
    requires Pair(w, a, b)
    ensures evs == [Submit(a, id, b, text), Load(a, [(id, NewRow(w, a, b, text))]), Try(a, nonce, {b})]
    ensures RunsTo(w, evs, s) && OnItsWay(w, s, a, b, id, m)
  {
    m := LaunchStep(w, a, b, id, text, nonce);
    evs := RunToLoaded(w, a, b, id, text);
    More(w, evs, Loaded(w, a, b, id, text), Try(a, nonce, {b}));
    evs, s := evs + [Try(a, nonce, {b})], Do(w, Loaded(w, a, b, id, text), Try(a, nonce, {b}));
  }

  lemma RunToAcked(w: ChatWorld, evs: seq<ChatEvent>, s: System, a: NodeId, b: NodeId, id: Bytes, m: Signed)
    returns (more: seq<ChatEvent>, t: System)
    requires Pair(w, a, b) && RunsTo(w, evs, s) && OnItsWay(w, s, a, b, id, m)
    ensures more == evs + [Network(Deliver(0))] + [Network(Deliver(0))]
    ensures RunsTo(w, more, t) && Acked(t, a, id) && Can(w, t, Mark(a))
  {
    var ack := AnswerStep(w, s, a, b, id, m);
    More(w, evs, s, Network(Deliver(0)));
    t := Do(w, s, Network(Deliver(0)));
    AckStep(w, t, a, b, id, ack);
    More(w, evs + [Network(Deliver(0))], t, Network(Deliver(0)));
    more, t := evs + [Network(Deliver(0))] + [Network(Deliver(0))], Do(w, t, Network(Deliver(0)));
  }

  lemma MarkStep(w: ChatWorld, s: System, a: NodeId, id: Bytes)
    requires Acked(s, a, id) && Can(w, s, Mark(a))
    ensures Tab(Do(w, s, Mark(a)), a)[id].status == Sent && AckProcessed(Do(w, s, Mark(a)), id)
  {
    var p :| p in s.net.log && p.node == a && p.env.payload.message.ChatAck?
             && p.env.payload.message.ackedId == id && p.env.payload.message.targetId == p.node;
    assert p in Do(w, s, Mark(a)).net.log;
  }
}
