/**
 The states a node can get into. Starting from an empty disk, under honest announcements and whatever
 streams arrive from connected peers, no refs row is orphaned, no two repositories name one bundle
 file, and the path of a new bundle is free, provided that repository ids have plain and different
 last parts. What `Reconciliation` and `Rounds` ask of the disk therefore holds.
 */
module Reachable {
  import opened Common
  import opened Messages
  import opened Paths
  import opened Storage
  import opened Bundle
  import opened BundleRuns
  import opened BundleFiles
  import opened Reconcile
  import opened Reconciliation
  import opened Resync
  import opened Rounds

  datatype Happening =
    | Announced(repos: seq<Repo>, at: int)
    | Arrived(s: Stream)
    | Added(r: Repo, at: int)
    | Refreshed(id: Bytes, current: map<Bytes, Bytes>, at: int)
    | Deleted(id: Bytes)

  function Happens(heads: Heads, rc: Receiver, d: Disk, h: Happening): Disk {
    match h
    case Announced(repos, at) => ReconcileAll(heads, d, repos, at)
    case Arrived(s) => OnStream(rc, d, s)
    case Added(r, at) => SaveRepo(d, r, at)
    case Refreshed(id, current, at) => DoOp(d, Refresh(id, current), at)
    case Deleted(id) => DeleteRepo(d, id)
  }

  function After(heads: Heads, rc: Receiver, d: Disk, hs: seq<Happening>): Disk
    decreases |hs|
  {
    if hs == [] then d else Happens(heads, rc, After(heads, rc, d, hs[..|hs| - 1]), hs[|hs| - 1])
  }

  function EmptyDisk(): Disk { Disk(map[], map[], map[]) }

  /** The ids in use have plain last parts, and different ones. */
  ghost predicate DistinctNames(ids: set<Bytes>) {
    && (forall i :: i in ids ==> PlainRepo(i))
    && (forall i, j :: i in ids && j in ids && LastPart(i) == LastPart(j) ==> i == j)
  }

  /** Announcements are honest and use these ids, peers have plain ids, and a repository added here has no bundle. */
  ghost predicate Fair(ids: set<Bytes>, h: Happening) {
    match h
    case Announced(repos, _) => Honest(repos) && forall i :: 0 <= i < |repos| ==> repos[i].repoId in ids
    case Arrived(s) => PlainPeer(s.from)
    case Added(r, _) => r.repoId in ids && r.bundle == ""
    case _ => true
  }

  /** The bundle field of `id` is empty or names the path for `id` from some peer. */
  ghost predicate Named(dir: Bytes, ids: set<Bytes>, d: Disk, id: Bytes) {
    id in d.repos ==>
      && id in ids
      && (d.repos[id].bundle == "" || exists from :: PlainPeer(from) && d.repos[id].bundle == PathOf(dir, from, id))
  }

  ghost predicate Inv(dir: Bytes, ids: set<Bytes>, d: Disk) {
    NoOrphans(d) && forall id :: Named(dir, ids, d, id)
  }

  // ---------- the invariant is kept ----------

  lemma ReconcileKeepsNamed(heads: Heads, dir: Bytes, ids: set<Bytes>, d: Disk, r: Repo, now: int)
    requires Inv(dir, ids, d) && r.bundle == "" && r.repoId in ids
    ensures Inv(dir, ids, ReconcileRepo(heads, d, r, now))
  {
    ReconcileKeepsNoOrphans(heads, d, r, now);
    forall id ensures Named(dir, ids, ReconcileRepo(heads, d, r, now), id) {
      assert Named(dir, ids, d, id);
    }
  }

  lemma {:induction false} AnnouncementKeepsNamed(heads: Heads, dir: Bytes, ids: set<Bytes>, d: Disk, repos: seq<Repo>, now: int)
    requires Inv(dir, ids, d) && Honest(repos) && forall i :: 0 <= i < |repos| ==> repos[i].repoId in ids
    ensures Inv(dir, ids, ReconcileAll(heads, d, repos, now))
    decreases |repos|
  {
    if repos != [] {
      var n := |repos| - 1;
      HonestPrefix(repos);
      AnnouncementKeepsNamed(heads, dir, ids, d, repos[..n], now);
      ReconcileKeepsNamed(heads, dir, ids, ReconcileAll(heads, d, repos[..n], now), repos[n], now);
    }
  }

  lemma StreamKeepsNamed(rc: Receiver, ids: set<Bytes>, d: Disk, s: Stream)
    requires Inv(rc.dir, ids, d) && PlainPeer(s.from)
    ensures Inv(rc.dir, ids, OnStream(rc, d, s))
  {
    var e := OnStream(rc, d, s);
    forall id ensures Named(rc.dir, ids, e, id) {
      assert Named(rc.dir, ids, d, id);
      StreamsTouchBundlesOnly(rc, d, s, id);
    }
    StreamsTouchBundlesOnly(rc, d, s, "");
  }

  lemma RowKeepsNamed(dir: Bytes, ids: set<Bytes>, d: Disk, e: Disk)
    requires Inv(dir, ids, d) && NoOrphans(e)
    requires forall id :: id in e.repos ==> (id in d.repos && e.repos[id] == d.repos[id]) || (id in ids && e.repos[id].bundle == "")
    ensures Inv(dir, ids, e)
  {
    forall id ensures Named(dir, ids, e, id) { assert Named(dir, ids, d, id); }
  }

  lemma HappeningKeepsInv(heads: Heads, rc: Receiver, ids: set<Bytes>, d: Disk, h: Happening)
    requires Inv(rc.dir, ids, d) && Fair(ids, h)
    ensures Inv(rc.dir, ids, Happens(heads, rc, d, h))
  {
    match h
    case Announced(repos, at) => AnnouncementKeepsNamed(heads, rc.dir, ids, d, repos, at);
    case Arrived(s) => StreamKeepsNamed(rc, ids, d, s);
    case _ => RowKeepsNamed(rc.dir, ids, d, Happens(heads, rc, d, h));
  }

  lemma {:induction false} InvHolds(heads: Heads, rc: Receiver, ids: set<Bytes>, hs: seq<Happening>)
    requires forall i :: 0 <= i < |hs| ==> Fair(ids, hs[i])
    ensures Inv(rc.dir, ids, After(heads, rc, EmptyDisk(), hs))
    decreases |hs|
  {
    if hs != [] {
      InvHolds(heads, rc, ids, hs[..|hs| - 1]);
      HappeningKeepsInv(heads, rc, ids, After(heads, rc, EmptyDisk(), hs[..|hs| - 1]), hs[|hs| - 1]);
    }
  }

  // ---------- what it means ----------

  lemma NamedApart(dir: Bytes, ids: set<Bytes>, d: Disk, i: Bytes, j: Bytes)
    requires DistinctNames(ids) && Named(dir, ids, d, i) && Named(dir, ids, d, j)
    ensures !ShareBundle(d, i, j)
  {
    if i != j && i in d.repos && j in d.repos && d.repos[i].bundle != "" && d.repos[j].bundle != "" {
      var f :| PlainPeer(f) && d.repos[i].bundle == PathOf(dir, f, i);
      var g :| PlainPeer(g) && d.repos[j].bundle == PathOf(dir, g, j);
      SameFileExactly(dir, f, i, g, j);
    }
  }

  lemma NamedLeavesFree(dir: Bytes, ids: set<Bytes>, d: Disk, id: Bytes, owner: NodeId, j: Bytes)
    requires DistinctNames(ids) && Named(dir, ids, d, j) && id in ids && PlainPeer(owner)
    ensures j in d.repos && j != id && d.repos[j].bundle != "" ==> Resolve(d.repos[j].bundle) != Resolve(PathOf(dir, owner, id))
  {
    if j in d.repos && j != id && d.repos[j].bundle != "" {
      var g :| PlainPeer(g) && d.repos[j].bundle == PathOf(dir, g, j);
      SameFileExactly(dir, g, j, owner, id);
    }
  }

  /** In every reachable state no refs row is orphaned, bundle files are distinct, and paths of new bundles are free. */
  lemma ReachableIsSound(heads: Heads, rc: Receiver, ids: set<Bytes>, hs: seq<Happening>, id: Bytes, owner: NodeId)
    requires DistinctNames(ids) && id in ids && PlainPeer(owner) && forall i :: 0 <= i < |hs| ==> Fair(ids, hs[i])
    ensures var d := After(heads, rc, EmptyDisk(), hs);
            NoOrphans(d) && DistinctBundles(d) && PathFree(d, id, PathOf(rc.dir, owner, id))
  {
    InvHolds(heads, rc, ids, hs);
    var d := After(heads, rc, EmptyDisk(), hs);
    forall i ensures OwnBundle(d, i) {
      forall j ensures !ShareBundle(d, i, j) { NamedApart(rc.dir, ids, d, i, j); }
    }
    forall j | j in d.repos && j != id && d.repos[j].bundle != ""
      ensures Resolve(d.repos[j].bundle) != Resolve(PathOf(rc.dir, owner, id))
    {
      NamedLeavesFree(rc.dir, ids, d, id, owner, j);
    }
  }

  /** In every reachable state an honest announcement is adopted in all its repositories, and a repetition changes nothing. */
  lemma ReachableAdopts(heads: Heads, rc: Receiver, ids: set<Bytes>, hs: seq<Happening>, repos: seq<Repo>, now: int, later: int,
                        i: nat)
    requires DistinctNames(ids) && (forall k :: 0 <= k < |hs| ==> Fair(ids, hs[k])) && Fair(ids, Announced(repos, now))
    requires i < |repos|
    ensures var d := After(heads, rc, EmptyDisk(), hs);
            var e := ReconcileAll(heads, d, repos, now);
            Adopted(heads, d, e, repos[i]) && ReconcileAll(heads, e, repos, later) == e
  {
    var d := After(heads, rc, EmptyDisk(), hs);
    var owner :| owner == "z" && PlainPeer(owner);
    ReachableIsSound(heads, rc, ids, hs, repos[i].repoId, owner);
    assert OwnBundle(d, repos[i].repoId);
    AnnouncementAdopted(heads, d, repos, now, i);
    forall k | 0 <= k < |repos| ensures !BundleLost(heads, d, repos, k) {
      assert OwnBundle(d, repos[k].repoId);
      OwnNeverLost(heads, d, repos, k);
    }
    AnnouncementIdempotent(heads, d, repos, now, later);
  }

  /** And a round with an owner whose bundle agrees with its announcement reaches the fixed point. */
  lemma ReachableRound(heads: Heads, validId: NodeId -> bool, rc: Receiver, me: NodeId, ids: set<Bytes>, hs: seq<Happening>,
                       o: Owner, repos: seq<Repo>, i: nat, b: seq<U8>, now: int, anns: seq<(seq<Repo>, int)>)
    requires DistinctNames(ids) && (forall k :: 0 <= k < |hs| ==> Fair(ids, hs[k])) && Fair(ids, Announced(repos, now))
    requires i < |repos| && PlainPeer(o.id)
    requires var d, id := After(heads, rc, EmptyDisk(), hs), repos[i].repoId;
             && Decodes(rc.decode) && |id| <= MAX_NAMED_ID && Serves(o, me, id, b) && validId(o.id)
             && (if id in d.repos then d.repos[id].isExternal && d.repos[id].creator == o.id else repos[i].desc.creator == o.id)
    requires BundleAgrees(heads, b, repos[i]) && Consistent(repos[i], anns)
    ensures var d := After(heads, rc, EmptyDisk(), hs);
            var u := AfterRound(heads, validId, rc, me, d, o, repos, i, now);
            Untouched(u, ReconcileMany(heads, u, anns), repos[i].repoId) && InSync(heads, ReconcileMany(heads, u, anns), repos[i])
  {
    var d := After(heads, rc, EmptyDisk(), hs);
    ReachableIsSound(heads, rc, ids, hs, repos[i].repoId, o.id);
    assert OwnBundle(d, repos[i].repoId);
    var u := AfterRound(heads, validId, rc, me, d, o, repos, i, now);
    RoundReachesFixedPoint(heads, validId, rc, me, d, o, repos, i, b, now, u, anns);
  }
}
