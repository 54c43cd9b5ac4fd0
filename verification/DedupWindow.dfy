/** How often a node can process one message: dedup entries live at least five minutes. */
module DedupWindow {
  import opened Common
  import opened Gossip
  import opened Network

  /** The dedup map remembers the last processing, or it is five minutes old. */
  ghost predicate Remembered(w: World, s: State, p: Processing) {
    var id := Id(w, p.env);
    if id in SeenAt(s, p.node) then p.time <= SeenAt(s, p.node)[id]
    else p.time + DEDUP_WINDOW <= s.now
  }

  ghost predicate WindowInv(w: World, s: State) {
    && (forall p :: p in s.log ==> Remembered(w, s, p))
    && (forall i, j :: 0 <= i < j < |s.log| && SameMessage(w, s.log[i], s.log[j])
          ==> s.log[i].time + DEDUP_WINDOW <= s.log[j].time)
  }

  ghost predicate SameMessage(w: World, p: Processing, q: Processing) {
    p.node == q.node && Id(w, p.env) == Id(w, q.env)
  }

  ghost predicate ClockInv(s: State) {
    forall n, id :: id in SeenAt(s, n) ==> SeenAt(s, n)[id] <= s.now
  }

  lemma RememberedStep(w: World, s: State, e: Event, p: Processing)
    requires ClockInv(s) && Remembered(w, s, p) && Enabled(w, s, e)
    ensures Remembered(w, Apply(w, s, e), p)
  {
  }

  lemma WindowStep(w: World, s: State, e: Event)
    requires ClockInv(s) && WindowInv(w, s) && Enabled(w, s, e)
    ensures ClockInv(Apply(w, s, e)) && WindowInv(w, Apply(w, s, e))
  {
    var u := Apply(w, s, e);
    forall n, id | id in SeenAt(u, n)
      ensures SeenAt(u, n)[id] <= u.now
    {
      if id in SeenAt(s, n) { assert SeenAt(s, n)[id] <= s.now; }
    }
    forall p | p in u.log
      ensures Remembered(w, u, p)
    {
      if p in s.log { RememberedStep(w, s, e, p); }
    }
    forall i, j | 0 <= i < j < |u.log| && SameMessage(w, u.log[i], u.log[j])
      ensures u.log[i].time + DEDUP_WINDOW <= u.log[j].time
    {
      assert u.log[i] == s.log[i];
      if j < |s.log| {
        assert u.log[j] == s.log[j];
      } else {
        assert Remembered(w, s, s.log[i]);
      }
    }
  }

  lemma {:induction false} WindowInvHolds(w: World, evs: seq<Event>)
    requires Valid(w, Start(), evs)
    ensures ClockInv(Exec(w, Start(), evs)) && WindowInv(w, Exec(w, Start(), evs))
    decreases |evs|
  {
    if evs != [] {
      var init := evs[..|evs| - 1];
      WindowInvHolds(w, init);
      WindowStep(w, Exec(w, Start(), init), evs[|evs| - 1]);
    }
  }

  /**
   In every run, with deliveries, cleanups, losses and injected copies in any order, two
   processings of one message at one node are at least five minutes apart.
   */
  lemma ProcessingsFarApart(w: World, evs: seq<Event>, i: nat, j: nat)
    requires Valid(w, Start(), evs)
    requires i < j < |Exec(w, Start(), evs).log|
    requires SameMessage(w, Exec(w, Start(), evs).log[i], Exec(w, Start(), evs).log[j])
    ensures Exec(w, Start(), evs).log[i].time + DEDUP_WINDOW <= Exec(w, Start(), evs).log[j].time
  {
    WindowInvHolds(w, evs);
  }

  // ---------- forgetting ----------

  /** Duplicates do not renew an entry: whatever happens, it stays as it is or goes. */
  lemma EntryStep(w: World, s: State, e: Event, n: NodeId, id: Bytes)
    requires Enabled(w, s, e) && id in SeenAt(s, n) && id in SeenAt(Apply(w, s, e), n)
    ensures SeenAt(Apply(w, s, e), n)[id] == SeenAt(s, n)[id]
  {
  }

  /** At some point after `s` in the run `evs`, node `n` does not remember `id`. */
  ghost predicate Forgotten(w: World, s: State, evs: seq<Event>, n: NodeId, id: Bytes)
    requires Valid(w, s, evs)
  {
    exists k: nat :: k <= |evs| && ForgottenAt(w, s, evs, k, n, id)
  }

  ghost predicate ForgottenAt(w: World, s: State, evs: seq<Event>, k: nat, n: NodeId, id: Bytes)
    requires k <= |evs|
  {
    Valid(w, s, evs[..k]) && id !in SeenAt(Exec(w, s, evs[..k]), n)
  }

  lemma {:induction false} EntryStands(w: World, s: State, evs: seq<Event>, n: NodeId, id: Bytes)
    requires Valid(w, s, evs) && id in SeenAt(s, n) && !Forgotten(w, s, evs, n, id)
    ensures id in SeenAt(Exec(w, s, evs), n) && SeenAt(Exec(w, s, evs), n)[id] == SeenAt(s, n)[id]
    decreases |evs|
  {
    if evs != [] {
      var init := evs[..|evs| - 1];
      forall k: nat | k <= |init| ensures !ForgottenAt(w, s, init, k, n, id) {
        assert init[..k] == evs[..k];
        assert !ForgottenAt(w, s, evs, k, n, id);
      }
      EntryStands(w, s, init, n, id);
      assert evs[..|evs|] == evs && !ForgottenAt(w, s, evs, |evs|, n, id);
      EntryStep(w, Exec(w, s, init), evs[|evs| - 1], n, id);
    }
  }

  /**
   However many copies keep coming, a node forgets a message at the latest with the first cleanup five
   minutes after it recorded the message.
   */
  lemma ForgottenInTime(w: World, s: State, evs: seq<Event>, n: NodeId, id: Bytes)
    requires Valid(w, s, evs) && id in SeenAt(s, n)
    requires evs != [] && evs[|evs| - 1] == Cleanup(n) && Exec(w, s, evs).now >= SeenAt(s, n)[id] + 300 * 1_000_000_000
    ensures Forgotten(w, s, evs, n, id)
  {
    if !Forgotten(w, s, evs, n, id) {
      EntryStands(w, s, evs, n, id);
      assert false;
    }
  }
}
