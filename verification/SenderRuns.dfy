/**
 What one pass of the chat sender does to the table and puts on the wire, row by row and in terms of the
 receiver's id, its key and the links; and that each try in a pass is a step of the chat runs.
 */
module SenderRuns {
  import opened Common
  import opened Messages
  import opened Gossip
  import opened Network
  import opened Chat
  import opened ChatRuns

  /** The rows of a batch: each once, as they stand in the table, and all to be sent. */
  ghost predicate PendingBatch(t: Table, batch: seq<(Bytes, Row)>) {
    && (forall i, j :: 0 <= i < j < |batch| ==> batch[i].0 != batch[j].0)
    && (forall i :: 0 <= i < |batch| ==> batch[i].0 in t && t[batch[i].0] == batch[i].1 && batch[i].1.status == Sending)
  }

  /** Some link takes a message for this receiver: its own if it is a peer, else any peer's. */
  ghost predicate Takes(peers: seq<NodeId>, up: set<NodeId>, receiver: NodeId) {
    if receiver in peers then receiver in up else exists q :: q in peers && q in up
  }

  /** The status a pending row ends with. */
  ghost function Outcome(c: Crypto, x: Suite, peers: seq<NodeId>, up: set<NodeId>, receiver: NodeId): Status {
    if !x.validId(receiver) then Failed
    else if c.keyOf(receiver).Some? && Takes(peers, up, receiver) then Sent
    else Sending
  }

  /** The nodes a message for this receiver goes to. */
  predicate GoesTo(peers: seq<NodeId>, up: set<NodeId>, receiver: NodeId, q: NodeId) {
    q in up && q in peers && (receiver in peers ==> q == receiver)
  }

  lemma TargetsTake(peers: seq<NodeId>, receiver: NodeId, up: set<NodeId>)
    ensures Targets(peers, receiver, up).Some? <==> Takes(peers, up, receiver)
    ensures Targets(peers, receiver, up).Some? ==>
              forall q :: q in Targets(peers, receiver, up).value <==> GoesTo(peers, up, receiver, q)
  {
    ReachesSome(peers, up);
    if receiver !in peers && Reached(peers, up) != [] {
      assert Reached(peers, up)[0] in Reached(peers, up);
    }
  }

  /** One try, by its outcome. */
  lemma TryByValue(c: Crypto, x: Suite, me: NodeId, key: Key, peers: seq<NodeId>, up: set<NodeId>, id: Bytes, row: Row,
                   nonce: nat, now: int)
    ensures var a, o := TrySend(c, x, me, key, peers, up, id, row, nonce, now), Outcome(c, x, peers, up, row.receiver);
            (a.Invalid? <==> o == Failed) && (a.Unsent? <==> o == Sending) && (a.Launched? <==> o == Sent)
    ensures var a := TrySend(c, x, me, key, peers, up, id, row, nonce, now);
            a.Launched? ==>
              (IsLetter(c, x, me, id, row, a.msg, nonce, now)
               && forall q :: q in a.targets <==> GoesTo(peers, up, row.receiver, q))
  {
    TargetsTake(peers, row.receiver, up);
  }

  /** The message a row is sent as: signed by this node, for the receiver, with the text encrypted to the receiver's key. */
  ghost predicate IsLetter(c: Crypto, x: Suite, me: NodeId, id: Bytes, row: Row, m: Signed, nonce: nat, now: int) {
    && c.keyOf(row.receiver).Some? && m.nodeId == me && m.timestamp == x.clock(now)
    && m.message == GossipMessage.Chat(me, row.receiver, id, x.encrypt(c.keyOf(row.receiver).value, row.content, nonce))
  }

  // ---------- the table after a pass ----------

  /** After the first `i` rows of the batch: these have their outcome, and nothing else has changed. */
  ghost predicate Passed(c: Crypto, x: Suite, peers: seq<NodeId>, up: set<NodeId>, t: Table, batch: seq<(Bytes, Row)>, i: nat,
                         u: Table)
    requires i <= |batch|
  {
    && u.Keys == t.Keys
    && (forall j :: 0 <= j < i ==> HasOutcome(c, x, peers, up, u, batch[j].0, batch[j].1))
    && (forall id :: id in t && id !in Front(batch, i) ==> u[id] == t[id])
  }

  ghost predicate HasOutcome(c: Crypto, x: Suite, peers: seq<NodeId>, up: set<NodeId>, u: Table, id: Bytes, row: Row) {
    id in u && u[id] == row.(status := Outcome(c, x, peers, up, row.receiver))
  }

  /** The ids of the first `i` rows. */
  ghost function Front(batch: seq<(Bytes, Row)>, i: nat): set<Bytes>
    requires i <= |batch|
  {
    if i == 0 then {} else Front(batch, i - 1) + {batch[i - 1].0}
  }

  lemma {:induction false} FrontIds(batch: seq<(Bytes, Row)>, i: nat, id: Bytes)
    requires i <= |batch|
    ensures id in Front(batch, i) <==> exists j :: 0 <= j < i && batch[j].0 == id
  {
    if i > 0 {
      FrontIds(batch, i - 1, id);
      assert id == batch[i - 1].0 ==> exists j :: 0 <= j < i && batch[j].0 == id;
    }
  }

  lemma PassStep(c: Crypto, x: Suite, me: NodeId, key: Key, peers: seq<NodeId>, up: set<NodeId>, t: Table,
                 batch: seq<(Bytes, Row)>, i: nat, pass: Pass, nonce: nat, now: int)
    requires i < |batch| && PendingBatch(t, batch) && Passed(c, x, peers, up, t, batch, i, pass.table)
    ensures Passed(c, x, peers, up, t, batch, i + 1,
                   Tried(pass, batch[i].0, TrySend(c, x, me, key, peers, up, batch[i].0, batch[i].1, nonce, now)).table)
  {
    var (id, row) := batch[i];
    TryByValue(c, x, me, key, peers, up, id, row, nonce, now);
    FrontIds(batch, i, id);
    assert pass.table[id] == row;
    forall j | 0 <= j < i ensures batch[j].0 != id {}
  }

  /**
   A pass over the pending rows. A row in the batch ends failed exactly if its receiver's id is invalid, and
   sent exactly if that is valid, decodes to a key, and some link takes the message; else it stays to be sent.
   All other columns and rows are as before.
   */
  lemma {:induction false} PassByValue(c: Crypto, x: Suite, me: NodeId, key: Key, peers: seq<NodeId>, up: set<NodeId>, t: Table,
                                       batch: seq<(Bytes, Row)>, i: nat, nonce: nat, now: int)
    requires i <= |batch| && PendingBatch(t, batch)
    ensures Passed(c, x, peers, up, t, batch, i, SenderPass(c, x, me, key, peers, up, t, batch, i, nonce, now).table)
    decreases i
  {
    if i > 0 {
      PassByValue(c, x, me, key, peers, up, t, batch, i - 1, nonce, now);
      PassNext(c, x, me, key, peers, up, t, batch, i - 1, nonce, now);
    } else {
      assert SenderPass(c, x, me, key, peers, up, t, batch, i, nonce, now).table == t;
      PassStart(c, x, peers, up, t, batch);
    }
  }

  lemma PassStart(c: Crypto, x: Suite, peers: seq<NodeId>, up: set<NodeId>, t: Table, batch: seq<(Bytes, Row)>)
    ensures Passed(c, x, peers, up, t, batch, 0, t)
  {
  }

  lemma PassNext(c: Crypto, x: Suite, me: NodeId, key: Key, peers: seq<NodeId>, up: set<NodeId>, t: Table,
                 batch: seq<(Bytes, Row)>, i: nat, nonce: nat, now: int)
    requires i < |batch| && PendingBatch(t, batch)
    requires Passed(c, x, peers, up, t, batch, i, SenderPass(c, x, me, key, peers, up, t, batch, i, nonce, now).table)
    ensures Passed(c, x, peers, up, t, batch, i + 1, SenderPass(c, x, me, key, peers, up, t, batch, i + 1, nonce, now).table)
  {
    PassStep(c, x, me, key, peers, up, t, batch, i, SenderPass(c, x, me, key, peers, up, t, batch, i, nonce, now), nonce + i, now);
  }

  /** What the service loads is a batch of rows to be sent, and misses none. */
  lemma LoadedIsPending(t: Table, batch: seq<(Bytes, Row)>)
    requires Enumerates(batch, Pending(t))
    ensures PendingBatch(t, batch)
    ensures forall id :: id in t && t[id].status == Sending ==> exists j :: 0 <= j < |batch| && batch[j].0 == id
  {
    forall id | id in t && t[id].status == Sending
      ensures exists j :: 0 <= j < |batch| && batch[j].0 == id
    {
      assert id in Pending(t);
      assert exists j :: 0 <= j < |batch| && batch[j] == (id, t[id]);
    }
  }

  /** For the whole table, after a pass over what was loaded: what became of each of its rows. */
  lemma RowAfterPass(c: Crypto, x: Suite, me: NodeId, key: Key, peers: seq<NodeId>, up: set<NodeId>, t: Table,
                     batch: seq<(Bytes, Row)>, nonce: nat, now: int, id: Bytes)
    requires Enumerates(batch, Pending(t)) && id in t
    ensures var u := SenderPass(c, x, me, key, peers, up, t, batch, |batch|, nonce, now).table;
            && u.Keys == t.Keys
            && u[id] == if t[id].status == Sending then t[id].(status := Outcome(c, x, peers, up, t[id].receiver)) else t[id]
  {
    LoadedIsPending(t, batch);
    PassByValue(c, x, me, key, peers, up, t, batch, |batch|, nonce, now);
    if t[id].status != Sending {
      FrontIds(batch, |batch|, id);
    } else {
      var j :| 0 <= j < |batch| && batch[j].0 == id;
      assert HasOutcome(c, x, peers, up, SenderPass(c, x, me, key, peers, up, t, batch, |batch|, nonce, now).table, batch[j].0, batch[j].1);
    }
  }

  // ---------- the mail of a pass ----------

  lemma {:induction false} PostsTo(targets: seq<NodeId>, env: Envelope, q: NodeId, e: Envelope)
    ensures (q, e) in Posts(targets, env) <==> q in targets && e == env
  {
    if targets != [] {
      PostsTo(targets[1..], env, q, e);
      assert q in targets <==> q == targets[0] || q in targets[1..];
    }
  }

  /** `e` to `q` is what row `j` of the batch puts on the wire. */
  ghost predicate MailOf(c: Crypto, x: Suite, me: NodeId, peers: seq<NodeId>, up: set<NodeId>, batch: seq<(Bytes, Row)>, j: nat,
                         nonce: nat, now: int, q: NodeId, e: Envelope)
    requires j < |batch|
  {
    var (id, row) := batch[j];
    && Outcome(c, x, peers, up, row.receiver) == Sent && GoesTo(peers, up, row.receiver, q)
    && e.ttl == 16 && IsLetter(c, x, me, id, row, e.payload, nonce + j, now)
  }

  /** Every copy a pass sends is a letter of some row that ends sent, to a node it goes to. */
  lemma {:induction false} MailIsLetters(c: Crypto, x: Suite, me: NodeId, key: Key, peers: seq<NodeId>, up: set<NodeId>, t: Table,
                                         batch: seq<(Bytes, Row)>, i: nat, nonce: nat, now: int, q: NodeId, e: Envelope)
    requires i <= |batch| && (q, e) in SenderPass(c, x, me, key, peers, up, t, batch, i, nonce, now).mail
    ensures exists j :: 0 <= j < i && MailOf(c, x, me, peers, up, batch, j, nonce, now, q, e)
    decreases i
  {
    var before := SenderPass(c, x, me, key, peers, up, t, batch, i - 1, nonce, now);
    var (id, row) := batch[i - 1];
    if (q, e) in before.mail {
      MailIsLetters(c, x, me, key, peers, up, t, batch, i - 1, nonce, now, q, e);
    } else {
      var a := TrySend(c, x, me, key, peers, up, id, row, nonce + i - 1, now);
      TryByValue(c, x, me, key, peers, up, id, row, nonce + i - 1, now);
      PostsTo(a.targets, Envelope(a.msg, DEFAULT_TTL), q, e);
      assert MailOf(c, x, me, peers, up, batch, i - 1, nonce, now, q, e);
    }
  }

  /** And every row that ends sent has its letter sent to every node it goes to. */
  lemma {:induction false} LettersAreMailed(c: Crypto, x: Suite, me: NodeId, key: Key, peers: seq<NodeId>, up: set<NodeId>, t: Table,
                                            batch: seq<(Bytes, Row)>, i: nat, nonce: nat, now: int, j: nat, q: NodeId)
    returns (e: Envelope)
    requires j < i <= |batch| && Outcome(c, x, peers, up, batch[j].1.receiver) == Sent && GoesTo(peers, up, batch[j].1.receiver, q)
    ensures (q, e) in SenderPass(c, x, me, key, peers, up, t, batch, i, nonce, now).mail
    ensures MailOf(c, x, me, peers, up, batch, j, nonce, now, q, e)
    decreases i
  {
    if j < i - 1 {
      e := LettersAreMailed(c, x, me, key, peers, up, t, batch, i - 1, nonce, now, j, q);
      MailKept(c, x, me, key, peers, up, t, batch, i - 1, nonce, now, (q, e));
    } else {
      e := LastMailed(c, x, me, key, peers, up, t, batch, nonce, now, j, q);
    }
  }

  lemma MailKept(c: Crypto, x: Suite, me: NodeId, key: Key, peers: seq<NodeId>, up: set<NodeId>, t: Table,
                 batch: seq<(Bytes, Row)>, i: nat, nonce: nat, now: int, mail: (NodeId, Envelope))
    requires i < |batch| && mail in SenderPass(c, x, me, key, peers, up, t, batch, i, nonce, now).mail
    ensures mail in SenderPass(c, x, me, key, peers, up, t, batch, i + 1, nonce, now).mail
  {
  }

  lemma LastMailed(c: Crypto, x: Suite, me: NodeId, key: Key, peers: seq<NodeId>, up: set<NodeId>, t: Table,
                   batch: seq<(Bytes, Row)>, nonce: nat, now: int, j: nat, q: NodeId)
    returns (e: Envelope)
    requires j < |batch| && Outcome(c, x, peers, up, batch[j].1.receiver) == Sent && GoesTo(peers, up, batch[j].1.receiver, q)
    ensures (q, e) in SenderPass(c, x, me, key, peers, up, t, batch, j + 1, nonce, now).mail
    ensures MailOf(c, x, me, peers, up, batch, j, nonce, now, q, e)
  {
    e := LetterMailed(c, x, me, key, peers, up, SenderPass(c, x, me, key, peers, up, t, batch, j, nonce, now), batch, nonce, now, j, q);
  }

  lemma LetterMailed(c: Crypto, x: Suite, me: NodeId, key: Key, peers: seq<NodeId>, up: set<NodeId>, pass: Pass,
                     batch: seq<(Bytes, Row)>, nonce: nat, now: int, j: nat, q: NodeId)
    returns (e: Envelope)
    requires j < |batch| && Outcome(c, x, peers, up, batch[j].1.receiver) == Sent && GoesTo(peers, up, batch[j].1.receiver, q)
    ensures (q, e) in Tried(pass, batch[j].0, TrySend(c, x, me, key, peers, up, batch[j].0, batch[j].1, nonce + j, now)).mail
    ensures MailOf(c, x, me, peers, up, batch, j, nonce, now, q, e)
  {
    var (id, row) := batch[j];
    var a := TrySend(c, x, me, key, peers, up, id, row, nonce + j, now);
    TryByValue(c, x, me, key, peers, up, id, row, nonce + j, now);
    e := Envelope(a.msg, DEFAULT_TTL);
    PostsTo(a.targets, e, q, e);
  }

  // ---------- a try is a step of the runs ----------

  lemma {:induction false} PostsAreCopies(n: NodeId, targets: seq<NodeId>, env: Envelope)
    ensures |Posts(targets, env)| == |targets|
    ensures CopiesOf(n, Posts(targets, env)) == CopiesTo(n, targets, env)
  {
    if targets != [] {
      PostsAreCopies(n, targets[1..], env);
      var a, b := CopiesOf(n, Posts(targets, env)), CopiesTo(n, targets, env);
      assert a == [a[0]] + CopiesOf(n, Posts(targets[1..], env));
      assert b == [b[0]] + CopiesTo(n, targets[1..], env);
    }
  }

  /** What a try leaves behind, and then the mark if the message was launched. */
  ghost function AfterTry(w: ChatWorld, s: System, n: NodeId, nonce: nat, up: set<NodeId>): System
    requires Can(w, s, Try(n, nonce, up))
  {
    Marked(w, Do(w, s, Try(n, nonce, up)), n)
  }

  ghost function Marked(w: ChatWorld, t: System, n: NodeId): System {
    if Can(w, t, Mark(n)) then Do(w, t, Mark(n)) else t
  }

  lemma UnlaunchedTry(w: ChatWorld, s: System, n: NodeId, nonce: nat, up: set<NodeId>)
    requires Can(w, s, Try(n, nonce, up)) && !Attempted(w, s, n, nonce, up).Launched?
    ensures var t, tried := Do(w, s, Try(n, nonce, up)), Tried(Pass(Tab(s, n), []), JobAt(s, n).rows[0].0, Attempted(w, s, n, nonce, up));
            && Marked(w, t, n) == t && Tab(t, n) == tried.table
            && t.net.flight == s.net.flight && tried.mail == []
  {
  }

  lemma LaunchedTry(w: ChatWorld, s: System, n: NodeId, nonce: nat, up: set<NodeId>)
    requires Sane(w) && SysInv(w, s) && Can(w, s, Try(n, nonce, up)) && Attempted(w, s, n, nonce, up).Launched?
    ensures var t, a := Do(w, s, Try(n, nonce, up)), Attempted(w, s, n, nonce, up);
            && Tab(t, n) == Tab(s, n) && JobAt(t, n).Marking? && JobAt(t, n).id == JobAt(s, n).rows[0].0
            && t.net.flight == s.net.flight + CopiesTo(n, a.targets, Envelope(a.msg, DEFAULT_TTL))
  {
    LaunchIsGood(w, s, Try(n, nonce, up));
  }

  lemma MarkSends(w: ChatWorld, t: System, n: NodeId)
    requires n in w.net.peers && JobAt(t, n).Marking?
    ensures Tab(Marked(w, t, n), n) == UpdateStatus(Tab(t, n), JobAt(t, n).id, Sent) && Marked(w, t, n).net == t.net
  {
  }

  /** One try of the service is one `Try`, and a `Mark` if it was launched, of the runs: the same table, the same copies. */
  lemma TriedIsTry(w: ChatWorld, s: System, n: NodeId, nonce: nat, up: set<NodeId>)
    requires Sane(w) && SysInv(w, s) && Can(w, s, Try(n, nonce, up))
    ensures var tried := Tried(Pass(Tab(s, n), []), JobAt(s, n).rows[0].0, Attempted(w, s, n, nonce, up));
            && Tab(AfterTry(w, s, n, nonce, up), n) == tried.table
            && AfterTry(w, s, n, nonce, up).net.flight == s.net.flight + CopiesOf(n, tried.mail)
  {
    var a := Attempted(w, s, n, nonce, up);
    if a.Launched? {
      LaunchedTry(w, s, n, nonce, up);
      MarkSends(w, Do(w, s, Try(n, nonce, up)), n);
      PostsAreCopies(n, a.targets, Envelope(a.msg, DEFAULT_TTL));
    } else {
      UnlaunchedTry(w, s, n, nonce, up);
      assert CopiesOf(n, []) == [];
    }
  }
}
