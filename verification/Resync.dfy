/**
 Resynchronization reaches a fixed point. Suppose the owner's refs stay X, announcements carry X and
 its bundle's heads are X. Whatever an external repository's state, one announcement, and one full
 transfer if the sync loop then asks for it, lead to a state that further announcements leave alone
 and in which the sync loop asks for nothing. If the bundle's heads are something else, no such state
 is ever reached. The same is proved of a round that starts from the owner's own disk.
 */
module Resync {
  import opened Common
  import opened Messages
  import opened Storage
  import opened Paths
  import opened Bundle
  import opened BundleRuns
  import opened Reconcile
  import opened Reconciliation

  /** The repository is external, its effective refs are the announced ones, and the sync loop does not want it. */
  ghost predicate InSync(heads: Heads, d: Disk, r: Repo) {
    && r.repoId in d.repos && d.repos[r.repoId].isExternal
    && EffectiveRefs(heads, d, r.repoId) == r.refs
    && !Wanted(d, r.repoId) && OwnBundle(d, r.repoId)
  }

  /** Honest announcements that say the same refs as `r` whenever they name it. */
  ghost predicate Consistent(r: Repo, anns: seq<(seq<Repo>, int)>) {
    forall k :: 0 <= k < |anns| ==> Agrees(r, anns[k].0)
  }

  ghost predicate Agrees(r: Repo, repos: seq<Repo>) {
    forall i :: 0 <= i < |repos| ==> repos[i].bundle == "" && (repos[i].repoId == r.repoId ==> repos[i].refs == r.refs)
  }

  lemma UntouchedInSync(heads: Heads, d: Disk, e: Disk, r: Repo)
    requires InSync(heads, d, r) && Untouched(d, e, r.repoId) && OwnBundle(e, r.repoId)
    ensures InSync(heads, e, r)
  {
    UntouchedKeepsRefs(heads, d, e, r.repoId);
  }

  lemma UntouchedTransitive(d: Disk, e: Disk, f: Disk, id: Bytes)
    requires Untouched(d, e, id) && Untouched(e, f, id)
    ensures Untouched(d, f, id)
  {
  }

  lemma {:induction false} AnnouncementKeepsSync(heads: Heads, d: Disk, r: Repo, repos: seq<Repo>, now: int)
    requires InSync(heads, d, r) && Agrees(r, repos)
    ensures InSync(heads, ReconcileAll(heads, d, repos, now), r)
    ensures Untouched(d, ReconcileAll(heads, d, repos, now), r.repoId)
    decreases |repos|
  {
    if repos != [] {
      var n := |repos| - 1;
      AnnouncementKeepsSync(heads, d, r, repos[..n], now);
      var e := ReconcileAll(heads, d, repos[..n], now);
      if repos[n].repoId != r.repoId {
        OthersUntouched(heads, e, repos[n], now, r.repoId);
        OwnBundleKept(heads, e, repos[n], now, r.repoId);
        UntouchedInSync(heads, e, ReconcileRepo(heads, e, repos[n], now), r);
        UntouchedTransitive(d, e, ReconcileRepo(heads, e, repos[n], now), r.repoId);
      }
    }
  }

  /** In sync is a fixed point: no number of consistent announcements changes anything about the repository. */
  lemma {:induction false} SyncIsStable(heads: Heads, d: Disk, r: Repo, anns: seq<(seq<Repo>, int)>)
    requires InSync(heads, d, r) && Consistent(r, anns)
    ensures InSync(heads, ReconcileMany(heads, d, anns), r)
    ensures Untouched(d, ReconcileMany(heads, d, anns), r.repoId)
    decreases |anns|
  {
    if anns != [] {
      var n := |anns| - 1;
      SyncIsStable(heads, d, r, anns[..n]);
      var e := ReconcileMany(heads, d, anns[..n]);
      AnnouncementKeepsSync(heads, e, r, anns[n].0, anns[n].1);
      UntouchedTransitive(d, e, ReconcileAll(heads, e, anns[n].0, anns[n].1), r.repoId);
    }
  }

  /** A state of the receiver, and an announcement with a repository that is not the receiver's own and shares no file. */
  ghost predicate Announces(d: Disk, repos: seq<Repo>, i: nat) {
    && NoOrphans(d) && Honest(repos) && i < |repos| && OwnBundle(d, repos[i].repoId)
    && (repos[i].repoId in d.repos ==> d.repos[repos[i].repoId].isExternal)
  }

  /** After one honest announcement the repository is in sync, or wanted by the sync loop. */
  lemma AnnouncedIsSyncedOrWanted(heads: Heads, d: Disk, repos: seq<Repo>, now: int, i: nat)
    requires Announces(d, repos, i)
    ensures var e := ReconcileAll(heads, d, repos, now);
            && repos[i].repoId in e.repos && e.repos[repos[i].repoId].isExternal
            && EffectiveRefs(heads, e, repos[i].repoId) == repos[i].refs
            && (InSync(heads, e, repos[i]) <==> !Wanted(e, repos[i].repoId))
  {
    AnnouncementAdopted(heads, d, repos, now, i);
    AnnouncementKeepsOwn(heads, d, repos, now, repos[i].repoId);
  }

  /** No repository but `id` names the file that `path` leads to. */
  ghost predicate PathFree(d: Disk, id: Bytes, path: Bytes) {
    forall j :: j in d.repos && j != id && d.repos[j].bundle != "" ==> Resolve(d.repos[j].bundle) != Resolve(path)
  }

  /** An honest announcement gives no other repository a bundle field. */
  lemma {:induction false} BundlesFree(heads: Heads, d: Disk, repos: seq<Repo>, now: int, id: Bytes, path: Bytes)
    requires Honest(repos) && PathFree(d, id, path)
    ensures PathFree(ReconcileAll(heads, d, repos, now), id, path)
    decreases |repos|
  {
    if repos != [] {
      HonestPrefix(repos);
      BundlesFree(heads, d, repos[..|repos| - 1], now, id, path);
    }
  }

  lemma PathNotEmpty(dir: Bytes, from: NodeId, repo: Bytes)
    ensures PathOf(dir, from, repo) != ""
  {
    var name := LastPart(repo) + ".bundle";
    assert |name| > 0;
  }

  // ---------- one transfer ----------

  /** A bundle received into a wanted repository: its refs are now the bundle's, or the table's if git cannot read it. */
  lemma ReceivedLeaves(heads: Heads, d: Disk, u: Disk, id: Bytes, path: Bytes, b: seq<U8>, now: int)
    requires Wanted(d, id) && path != "" && PathFree(d, id, path) && Received(d, u, id, path, b, now)
    ensures id in u.repos && u.repos[id].isExternal && !Wanted(u, id) && OwnBundle(u, id)
    ensures EffectiveRefs(heads, u, id) == if heads(b).Some? then heads(b).value else EffectiveRefs(heads, d, id)
  {
    forall j ensures !ShareBundle(u, id, j) {
      assert j in d.repos && j != id ==> u.repos[j] == d.repos[j];
    }
  }

  lemma ReceivedKeepsNoOrphans(d: Disk, u: Disk, id: Bytes, path: Bytes, b: seq<U8>, now: int)
    requires NoOrphans(d) && id in d.repos && Received(d, u, id, path, b, now)
    ensures NoOrphans(u)
  {
  }

  /** The bundle's heads are the announced refs, or git cannot read them and the table counts. */
  predicate BundleAgrees(heads: Heads, b: seq<U8>, r: Repo) {
    heads(b).Some? ==> heads(b).value == r.refs
  }

  lemma ReceivedSyncs(heads: Heads, e: Disk, u: Disk, r: Repo, path: Bytes, b: seq<U8>, now: int)
    requires Wanted(e, r.repoId) && EffectiveRefs(heads, e, r.repoId) == r.refs
    requires path != "" && PathFree(e, r.repoId, path) && Received(e, u, r.repoId, path, b, now)
    ensures InSync(heads, u, r) <==> BundleAgrees(heads, b, r)
  {
    ReceivedLeaves(heads, e, u, r.repoId, path, b, now);
  }

  /**
   What a round does to the receiver's disk: the announcement and, if the sync loop then wants the
   repository, `b` received at a path of its own.
   */
  ghost predicate Resynced(heads: Heads, d: Disk, repos: seq<Repo>, i: nat, path: Bytes, b: seq<U8>, now: int, u: Disk)
    requires i < |repos|
  {
    var e := ReconcileAll(heads, d, repos, now);
    if Wanted(e, repos[i].repoId)
    then path != "" && PathFree(e, repos[i].repoId, path) && Received(e, u, repos[i].repoId, path, b, now)
    else u == e
  }

  /** Announce, request and transfer end in sync exactly when no transfer was wanted or the bundle agrees. */
  lemma ResyncSyncs(heads: Heads, d: Disk, repos: seq<Repo>, i: nat, path: Bytes, b: seq<U8>, now: int, u: Disk)
    requires Announces(d, repos, i) && Resynced(heads, d, repos, i, path, b, now, u)
    ensures InSync(heads, u, repos[i])
       <==> !Wanted(ReconcileAll(heads, d, repos, now), repos[i].repoId) || BundleAgrees(heads, b, repos[i])
  {
    AnnouncedIsSyncedOrWanted(heads, d, repos, now, i);
    if Wanted(ReconcileAll(heads, d, repos, now), repos[i].repoId) {
      ReceivedSyncs(heads, ReconcileAll(heads, d, repos, now), u, repos[i], path, b, now);
    }
  }

  /**
   When the bundle's heads are readable but not the announced refs, resynchronization never ends: the
   next announcement of the same refs, at any later time, throws the received bundle away and has the
   sync loop ask for it again.
   */
  lemma DisagreementNeverSettles(heads: Heads, d: Disk, repos: seq<Repo>, i: nat, path: Bytes, b: seq<U8>, now: int, u: Disk,
                                 again: seq<Repo>, k: nat, later: int)
    requires Announces(d, repos, i) && Resynced(heads, d, repos, i, path, b, now, u)
    requires Wanted(ReconcileAll(heads, d, repos, now), repos[i].repoId) && !BundleAgrees(heads, b, repos[i])
    requires Honest(again) && k < |again| && again[k].repoId == repos[i].repoId && again[k].refs == repos[i].refs
    ensures Wanted(ReconcileAll(heads, u, again, later), repos[i].repoId)
  {
    var e, id := ReconcileAll(heads, d, repos, now), repos[i].repoId;
    AnnouncementKeepsNoOrphans(heads, d, repos, now);
    ReceivedLeaves(heads, e, u, id, path, b, now);
    ReceivedKeepsNoOrphans(e, u, id, path, b, now);
    AnnouncementAdopted(heads, u, again, later, k);
  }

  /**
   The fixed point: from any state of an external (or unknown) repository, one honest announcement and,
   if wanted, one received bundle that agrees with it; after that no consistent announcements, however
   many, change anything about the repository, and the sync loop does not ask for it.
   */
  lemma ResyncReachesFixedPoint(heads: Heads, d: Disk, repos: seq<Repo>, i: nat, path: Bytes, b: seq<U8>, now: int, u: Disk,
                                anns: seq<(seq<Repo>, int)>)
    requires Announces(d, repos, i) && Resynced(heads, d, repos, i, path, b, now, u)
    requires BundleAgrees(heads, b, repos[i]) && Consistent(repos[i], anns)
    ensures Untouched(u, ReconcileMany(heads, u, anns), repos[i].repoId) && InSync(heads, ReconcileMany(heads, u, anns), repos[i])
  {
    ResyncSyncs(heads, d, repos, i, path, b, now, u);
    SyncIsStable(heads, u, repos[i], anns);
  }
}
