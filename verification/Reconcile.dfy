/**
 Reconciling the disk with announcements and with git: the RepoAnnouncement branch of the gossip
 handler (src/gossip/service.rs), the bundle sync loop (src/bundle/bundle_sync.rs) and the refs
 check of local repositories (src/repo/repo_sync.rs). Reading the heads of a bundle file is an
 abstract function of its bytes.
 */
module Reconcile {
  import opened Common
  import opened Messages
  import opened Storage
  import opened Paths

  /** `git bundle list-heads`: the refs in a bundle, or nothing if git cannot read it. */
  type Heads = seq<U8> -> Option<map<Bytes, Bytes>>

  /** `extract_bundle_refs`: fails when the file is missing or unreadable. */
  function BundleRefs(heads: Heads, files: Files, path: Bytes): Option<map<Bytes, Bytes>> {
    if Resolve(path) in files then heads(files[Resolve(path)]) else None
  }

  /** What the node takes a stored repository's refs to be: its bundle's, or failing that the table's. */
  function EffectiveRefs(heads: Heads, d: Disk, id: Bytes): map<Bytes, Bytes>
    requires id in d.repos
  {
    var bundle := d.repos[id].bundle;
    if bundle == "" then LoadRefs(d.refs, id)
    else match BundleRefs(heads, d.files, bundle)
      case Some(refs) => refs
      case None => LoadRefs(d.refs, id)
  }

  /** An announced repository against the disk. */
  function ReconcileRepo(heads: Heads, d: Disk, r: Repo, now: int): Disk {
    if r.repoId !in d.repos then SaveRepo(d, r.(isExternal := true), now)
    else if !d.repos[r.repoId].isExternal then d
    else if EffectiveRefs(heads, d, r.repoId) == r.refs then d
    else
      Disk(
        d.repos[r.repoId := d.repos[r.repoId].(bundle := "", updatedAt := now)],
        SaveRefs(DeleteRefs(d.refs, r.repoId), r.repoId, r.refs, now),
        if d.repos[r.repoId].bundle == "" then d.files else d.files - {Resolve(d.repos[r.repoId].bundle)})
  }

  function ReconcileAll(heads: Heads, d: Disk, repos: seq<Repo>, now: int): Disk
    decreases |repos|
  {
    if repos == [] then d
    else ReconcileRepo(heads, ReconcileAll(heads, d, repos[..|repos| - 1], now), repos[|repos| - 1], now)
  }

  // ---------- the handlers ----------

  method LocalRefs(heads: Heads, st: Store, r: Repo, id: Bytes) returns (refs: map<Bytes, Bytes>)
    requires LoadRepo(st.Value(), id) == Some(r)
    ensures refs == EffectiveRefs(heads, st.Value(), id)
  {
    if r.bundle != "" {
      match BundleRefs(heads, st.files, r.bundle)
      case Some(found) => refs := found;
      case None => refs := st.LoadRefsForRepo(id);
    } else {
      refs := st.LoadRefsForRepo(id);
    }
  }

  method HandleRepo(heads: Heads, st: Store, repo: Repo, now: int)
    modifies st
    ensures st.Value() == ReconcileRepo(heads, old(st.Value()), repo, now)
  {
    var found := st.LoadRepoFromDb(repo.repoId);
    if found.None? {
      st.SaveRepoToDb(repo.(isExternal := true), now);
      return;
    }
    var local := found.value;
    if !local.isExternal { return; }
    var localRefs := LocalRefs(heads, st, local, repo.repoId);
    if localRefs == repo.refs { return; }
    ReplaceRefs(st, local.bundle, repo, now);
  }

  /** New refs: the old bundle goes, and the refs table takes what was announced. */
  method ReplaceRefs(st: Store, bundle: Bytes, repo: Repo, now: int)
    requires repo.repoId in st.repos
    modifies st
    ensures st.repos == old(st.repos)[repo.repoId := old(st.repos)[repo.repoId].(bundle := "", updatedAt := now)]
    ensures st.refs == SaveRefs(DeleteRefs(old(st.refs), repo.repoId), repo.repoId, repo.refs, now)
    ensures st.files == if bundle == "" then old(st.files) else old(st.files) - {Resolve(bundle)}
  {
    if bundle != "" {
      st.files := st.files - {Resolve(bundle)};
    }
    st.DeleteRefsForRepo(repo.repoId);
    st.BatchSaveRefs(repo.repoId, repo.refs, now);
    st.UpdateRepoBundle(repo.repoId, "", now);
  }

  method HandleRepoAnnouncement(heads: Heads, st: Store, repos: seq<Repo>, now: int)
    modifies st
    ensures st.Value() == ReconcileAll(heads, old(st.Value()), repos, now)
  {
    for i := 0 to |repos|
      invariant st.Value() == ReconcileAll(heads, old(st.Value()), repos[..i], now)
    {
      assert repos[..i + 1][..i] == repos[..i];
      HandleRepo(heads, st, repos[i], now);
    }
    assert repos[..|repos|] == repos;
  }

  /** The repositories the sync loop asks their creators for. */
  predicate Wanted(d: Disk, id: Bytes) {
    id in d.repos && d.repos[id].isExternal && d.repos[id].bundle == ""
  }

  /** One tick of the sync loop: a request to the creator of each wanted repository whose creator id parses. */
  method SyncTick(validId: NodeId -> bool, st: Store) returns (requests: seq<(NodeId, Bytes)>)
    ensures forall q :: q in requests <==>
              && q.1 in st.repos && st.repos[q.1].isExternal && st.repos[q.1].bundle == ""
              && validId(q.0) && st.repos[q.1].creator == q.0
  {
    requests := [];
    var all := st.ListRepos();
    for i := 0 to |all|
      invariant forall q :: q in requests <==>
                  exists j :: 0 <= j < i && q == (all[j].desc.creator, all[j].repoId)
                              && all[j].isExternal && all[j].bundle == "" && validId(q.0)
    {
      if all[i].isExternal && all[i].bundle == "" {
        if validId(all[i].desc.creator) {
          requests := requests + [(all[i].desc.creator, all[i].repoId)];
        }
      }
    }
    forall q: (NodeId, Bytes) | Wanted(st.Value(), q.1) && validId(q.0) && st.repos[q.1].creator == q.0
      ensures q in requests
    {
      var j :| 0 <= j < |all| && all[j].repoId == q.1;
    }
  }

  /** What git says about a local repository; nothing about an external one. */
  function GitRefs(readRefs: Bytes -> Option<map<Bytes, Bytes>>, repos: map<Bytes, RepoRow>, id: Bytes): map<Bytes, Bytes> {
    if id in repos && !repos[id].isExternal
    then match readRefs(repos[id].path) case Some(refs) => refs case None => map[]
    else map[]
  }

  /** Repository `id` has been refreshed from git if it is in `done`, and else not. */
  ghost predicate RefreshedAt(readRefs: Bytes -> Option<map<Bytes, Bytes>>, repos: map<Bytes, RepoRow>,
                              before: RefRows, rows: RefRows, done: set<Bytes>, id: Bytes) {
    LoadRefs(rows, id) == if id in done then LoadRefs(before, id) + GitRefs(readRefs, repos, id) else LoadRefs(before, id)
  }

  lemma RefreshedStep(readRefs: Bytes -> Option<map<Bytes, Bytes>>, repos: map<Bytes, RepoRow>,
                      before: RefRows, rows: RefRows, rows': RefRows, done: set<Bytes>, id: Bytes, x: Bytes)
    requires RefreshedAt(readRefs, repos, before, rows, done, x) && id !in done
    requires OthersSame(rows, rows', id) && LoadRefs(rows', id) == LoadRefs(rows, id) + GitRefs(readRefs, repos, id)
    ensures RefreshedAt(readRefs, repos, before, rows', done + {id}, x)
  {
    if x != id { LoadOther(rows, rows', id, x); }
  }

  /** One tick of the refs check: only local repositories are refreshed, from what git says. */
  method RefsTick(readRefs: Bytes -> Option<map<Bytes, Bytes>>, st: Store, now: int)
    modifies st`refs
    ensures forall id :: RefreshedAt(readRefs, st.repos, old(st.refs), st.refs, st.repos.Keys, id)
  {
    var all := st.ListRepos();
    ghost var done: set<Bytes> := {};
    for i := 0 to |all|
      invariant forall id :: id in done <==> exists j :: 0 <= j < i && all[j].repoId == id
      invariant forall id :: RefreshedAt(readRefs, st.repos, old(st.refs), st.refs, done, id)
      invariant forall j :: 0 <= j < |all| ==> Listed(st.repos, all[j])
    {
      RefsTickOne(readRefs, st, all[i], now, old(st.refs), done);
      done := done + {all[i].repoId};
    }
    assert forall j :: 0 <= j < |all| ==> Listed(st.repos, all[j]);
    assert done == st.repos.Keys;
  }

  ghost predicate Listed(repos: map<Bytes, RepoRow>, r: Repo) {
    r.repoId in repos && r.path == repos[r.repoId].path && r.isExternal == repos[r.repoId].isExternal
  }

  method RefsTickOne(readRefs: Bytes -> Option<map<Bytes, Bytes>>, st: Store, repo: Repo, now: int,
                     ghost before: RefRows, ghost done: set<Bytes>)
    requires Listed(st.repos, repo) && repo.repoId !in done
    requires forall id :: RefreshedAt(readRefs, st.repos, before, st.refs, done, id)
    modifies st`refs
    ensures forall id :: RefreshedAt(readRefs, st.repos, before, st.refs, done + {repo.repoId}, id)
  {
    if !repo.isExternal {
      CheckAndUpdateRepoRefs(readRefs, st, repo, now);
    }
    forall id ensures RefreshedAt(readRefs, st.repos, before, st.refs, done + {repo.repoId}, id) {
      RefreshedStep(readRefs, st.repos, before, old(st.refs), st.refs, done, repo.repoId, id);
    }
  }

  method CheckAndUpdateRepoRefs(readRefs: Bytes -> Option<map<Bytes, Bytes>>, st: Store, repo: Repo, now: int)
    modifies st`refs
    ensures OthersSame(old(st.refs), st.refs, repo.repoId)
    ensures LoadRefs(st.refs, repo.repoId)
         == LoadRefs(old(st.refs), repo.repoId)
            + (match readRefs(repo.path) case Some(current) => current case None => map[])
  {
    var current := readRefs(repo.path);
    if current.None? { return; }
    var changed := st.HasRefsChanged(repo.repoId, current.value);
    if changed {
      SaveOverrides(st.refs, repo.repoId, current.value, now);
      st.BatchSaveRefs(repo.repoId, current.value, now);
    } else {
      OverrideAbsorbs(current.value, current.value);
    }
  }

  /** An external repository's refs are left alone by the check, and so are all if git cannot read a local one. */
  lemma NotRefreshed(readRefs: Bytes -> Option<map<Bytes, Bytes>>, repos: map<Bytes, RepoRow>,
                     before: RefRows, rows: RefRows, done: set<Bytes>, id: Bytes)
    requires RefreshedAt(readRefs, repos, before, rows, done, id)
    requires id !in repos || repos[id].isExternal || readRefs(repos[id].path).None?
    ensures LoadRefs(rows, id) == LoadRefs(before, id)
  {
    assert LoadRefs(before, id) + map[] == LoadRefs(before, id);
  }

  /** After a refs check the table holds what git says exactly when git dropped no stored ref. */
  lemma RefreshExact(readRefs: Bytes -> Option<map<Bytes, Bytes>>, repos: map<Bytes, RepoRow>,
                     before: RefRows, rows: RefRows, done: set<Bytes>, id: Bytes)
    requires RefreshedAt(readRefs, repos, before, rows, done, id)
    requires id in done && id in repos && !repos[id].isExternal && readRefs(repos[id].path).Some?
    ensures var current := readRefs(repos[id].path).value;
            LoadRefs(rows, id) == current <==> NamesOf(before, id) <= current.Keys
  {
    OverrideAbsorbs(LoadRefs(before, id), readRefs(repos[id].path).value);
    assert LoadRefs(before, id).Keys == NamesOf(before, id);
  }
}
