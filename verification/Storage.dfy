/**
 A node's disk: the tables `repos` and `refs` (src/storage/repo_model.rs, src/storage/ref_model.rs)
 and the bundle files. Tables are maps keyed by primary key.
 */
module Storage {
  import opened Common
  import opened Messages
  import opened Paths

  datatype RefRow = RefRow(commit: Bytes, createdAt: int, updatedAt: int)

  type RefKey = (Bytes, Bytes)                     // repo id, ref name

  type RefRows = map<RefKey, RefRow>

  datatype RepoRow = RepoRow(
    name: Bytes, creator: Bytes, description: Bytes, language: Bytes, path: Bytes, bundle: Bytes,
    isExternal: bool, size: I64, latestCommitAt: I64, createdAt: int, updatedAt: int)

  type Files = map<File, seq<U8>>

  datatype Disk = Disk(repos: map<Bytes, RepoRow>, refs: RefRows, files: Files)

  // ---------- refs ----------

  function NamesOf(rows: RefRows, repo: Bytes): set<Bytes> {
    set k | k in rows && k.0 == repo :: k.1
  }

  function LoadRefs(rows: RefRows, repo: Bytes): map<Bytes, Bytes> {
    map name | name in NamesOf(rows, repo) :: rows[(repo, name)].commit
  }

  function BatchKeys(repo: Bytes, refs: map<Bytes, Bytes>): (r: set<RefKey>)
    ensures forall k :: k in r <==> k.0 == repo && k.1 in refs
  {
    set name | name in refs :: (repo, name)
  }

  /** All rows of a batch at once; rows of other refs and other repositories stay as they are. */
  function SaveRefs(rows: RefRows, repo: Bytes, refs: map<Bytes, Bytes>, now: int): RefRows {
    map k | k in rows.Keys + BatchKeys(repo, refs) ::
      if k.0 == repo && k.1 in refs then RefRow(refs[k.1], if k in rows then rows[k].createdAt else now, now)
      else rows[k]
  }

  function DeleteRefs(rows: RefRows, repo: Bytes): RefRows {
    map k | k in rows && k.0 != repo :: rows[k]
  }

  /** Rows of other repositories are the same before and after. */
  ghost predicate OthersSame(rows: RefRows, rows': RefRows, repo: Bytes) {
    forall k: RefKey :: k.0 != repo ==> (k in rows' <==> k in rows) && (k in rows ==> rows'[k] == rows[k])
  }

  /** Saving overrides what was stored, ref by ref, and touches no other repository. */
  lemma SaveOverrides(rows: RefRows, repo: Bytes, refs: map<Bytes, Bytes>, now: int)
    ensures LoadRefs(SaveRefs(rows, repo, refs, now), repo) == LoadRefs(rows, repo) + refs
    ensures OthersSame(rows, SaveRefs(rows, repo, refs, now), repo)
  {
    var saved := SaveRefs(rows, repo, refs, now);
    forall name
      ensures name in NamesOf(saved, repo) <==> name in NamesOf(rows, repo) || name in refs
    {
      assert (repo, name) in saved <==> (repo, name) in rows || name in refs;
      assert name in NamesOf(saved, repo) <==> (repo, name) in saved;
      assert name in NamesOf(rows, repo) <==> (repo, name) in rows;
    }
    assert LoadRefs(saved, repo).Keys == NamesOf(rows, repo) + refs.Keys;
  }

  /** All rows but the one with key `k` are the same before and after. */
  ghost predicate OnlyRow(rows: RefRows, rows': RefRows, k: RefKey) {
    forall x: RefKey :: x != k ==> (x in rows' <==> x in rows) && (x in rows ==> rows'[x] == rows[x])
  }

  /** One row put in: the refs loaded for its repository are overridden at its name. */
  lemma RowPut(rows: RefRows, rows': RefRows, repo: Bytes, name: Bytes)
    requires (repo, name) in rows'
    requires OnlyRow(rows, rows', (repo, name))
    ensures LoadRefs(rows', repo) == LoadRefs(rows, repo)[name := rows'[(repo, name)].commit]
  {
    forall x ensures x in NamesOf(rows', repo) <==> x == name || x in NamesOf(rows, repo) {
      assert x in NamesOf(rows', repo) <==> (repo, x) in rows';
      assert x in NamesOf(rows, repo) <==> (repo, x) in rows;
    }
  }

  /** Of a batch, the rows with names in `done` have been saved, and all others are as they were. */
  ghost predicate PartSaved(rows: RefRows, rows': RefRows, repo: Bytes, batch: map<Bytes, Bytes>, done: set<Bytes>, now: int) {
    forall k: RefKey ::
      if k.0 == repo && k.1 in batch && k.1 in done
      then k in rows' && rows'[k] == RefRow(batch[k.1], if k in rows then rows[k].createdAt else now, now)
      else (k in rows' <==> k in rows) && (k in rows ==> rows'[k] == rows[k])
  }

  lemma PartSavedStep(rows: RefRows, a: RefRows, b: RefRows, repo: Bytes, batch: map<Bytes, Bytes>, done: set<Bytes>,
                      name: Bytes, now: int)
    requires PartSaved(rows, a, repo, batch, done, now) && name in batch && name !in done
    requires OnlyRow(a, b, (repo, name)) && (repo, name) in b
    requires b[(repo, name)] == RefRow(batch[name], if (repo, name) in a then a[(repo, name)].createdAt else now, now)
    ensures PartSaved(rows, b, repo, batch, done + {name}, now)
  {
  }

  lemma AllSaved(rows: RefRows, rows': RefRows, repo: Bytes, batch: map<Bytes, Bytes>, done: set<Bytes>, now: int)
    requires PartSaved(rows, rows', repo, batch, done, now) && batch.Keys <= done
    ensures rows' == SaveRefs(rows, repo, batch, now)
  {
    var saved := SaveRefs(rows, repo, batch, now);
    forall k: RefKey ensures k in rows' <==> k in saved {
      if k.0 == repo && k.1 in batch { assert k in saved; }
    }
  }

  lemma DeleteClears(rows: RefRows, repo: Bytes)
    ensures LoadRefs(DeleteRefs(rows, repo), repo) == map[]
    ensures OthersSame(rows, DeleteRefs(rows, repo), repo)
  {
    assert NamesOf(DeleteRefs(rows, repo), repo) == {};
  }

  /** What is loaded for a repository depends on its own rows only. */
  lemma LoadOther(rows: RefRows, rows': RefRows, repo: Bytes, other: Bytes)
    requires OthersSame(rows, rows', repo) && other != repo
    ensures LoadRefs(rows', other) == LoadRefs(rows, other)
  {
    forall name ensures name in NamesOf(rows', other) <==> name in NamesOf(rows, other) {
      assert (other, name) in rows' <==> (other, name) in rows;
      assert name in NamesOf(rows', other) <==> (other, name) in rows';
      assert name in NamesOf(rows, other) <==> (other, name) in rows;
    }
  }

  // ---------- repos ----------

  /** The cast `size as i64`. */
  function AsI64(u: U64): I64 { if u < 0x8000_0000_0000_0000 then u else u - 0x1_0000_0000_0000_0000 }

  /** The cast `size as u64`. */
  function AsU64(i: I64): U64 { if i < 0 then i + 0x1_0000_0000_0000_0000 else i }

  function RowOf(r: Repo, createdAt: int, now: int): RepoRow {
    RepoRow(r.desc.name, r.desc.creator, r.desc.description, r.desc.language, r.path, r.bundle,
            r.isExternal, AsI64(r.desc.size), r.desc.latestCommitAt, createdAt, now)
  }

  function RepoOf(id: Bytes, row: RepoRow, refs: map<Bytes, Bytes>): Repo {
    Repo(id, refs,
         P2PDescription(row.creator, row.name, row.description, row.language, row.latestCommitAt, AsU64(row.size)),
         row.path, row.isExternal, row.bundle)
  }

  function SaveRepo(d: Disk, r: Repo, now: int): Disk {
    d.(repos := d.repos[r.repoId := RowOf(r, if r.repoId in d.repos then d.repos[r.repoId].createdAt else now, now)],
       refs := SaveRefs(d.refs, r.repoId, r.refs, now))
  }

  function LoadRepo(d: Disk, id: Bytes): Option<Repo> {
    if id in d.repos then Some(RepoOf(id, d.repos[id], LoadRefs(d.refs, id))) else None
  }

  function DeleteRepo(d: Disk, id: Bytes): Disk {
    d.(repos := d.repos - {id}, refs := DeleteRefs(d.refs, id))
  }

  function UpdateBundle(d: Disk, id: Bytes, path: Bytes, now: int): Disk {
    if id in d.repos then d.(repos := d.repos[id := d.repos[id].(bundle := path, updatedAt := now)]) else d
  }

  lemma OverrideAbsorbs(stored: map<Bytes, Bytes>, given: map<Bytes, Bytes>)
    ensures stored + given == given <==> stored.Keys <= given.Keys
  {
    assert (stored + given).Keys == stored.Keys + given.Keys;
    if stored + given == given { assert stored.Keys <= (stored + given).Keys; }
  }

  lemma SizeSurvives(u: U64)
    ensures AsU64(AsI64(u)) == u
  {
  }

  /** The casts keep the number modulo 2 to the 64, and everything that fits as it is. */
  lemma CastByValue(u: U64)
    ensures AsI64(u) == u || AsI64(u) == u - 0x1_0000_0000_0000_0000
    ensures u < 0x8000_0000_0000_0000 <==> AsI64(u) == u
  {
  }

  /** A bundle update sets bundle field and update time of a row that is there, and nothing else. */
  lemma BundleSet(d: Disk, id: Bytes, path: Bytes, now: int)
    ensures var e := UpdateBundle(d, id, path, now);
            && e.refs == d.refs && e.files == d.files && e.repos.Keys == d.repos.Keys
            && (forall x :: x in d.repos && x != id ==> e.repos[x] == d.repos[x])
            && (id in d.repos ==> e.repos[id].bundle == path && e.repos[id].updatedAt == now
                                  && e.repos[id].(bundle := d.repos[id].bundle, updatedAt := d.repos[id].updatedAt) == d.repos[id])
  {
  }

  /**
   A saved row, column by column. A present row keeps its creation time, a new one has both times equal to
   now. No other row and no file changes.
   */
  lemma SavedRow(d: Disk, r: Repo, now: int)
    ensures var e := SaveRepo(d, r, now);
            && r.repoId in e.repos
            && var row := e.repos[r.repoId];
            && row.name == r.desc.name && row.creator == r.desc.creator && row.description == r.desc.description
            && row.language == r.desc.language && row.path == r.path && row.bundle == r.bundle
            && row.isExternal == r.isExternal && row.latestCommitAt == r.desc.latestCommitAt
            && (row.size == r.desc.size || row.size == r.desc.size - 0x1_0000_0000_0000_0000)
            && row.createdAt == (if r.repoId in d.repos then d.repos[r.repoId].createdAt else now) && row.updatedAt == now
    ensures var e := SaveRepo(d, r, now);
            && e.files == d.files && e.repos.Keys == d.repos.Keys + {r.repoId}
            && forall id :: id in d.repos && id != r.repoId ==> e.repos[id] == d.repos[id]
  {
    CastByValue(r.desc.size);
  }

  /** The rows of a saved batch: the commit, the creation time a present row had, and now for the rest. */
  lemma SavedRefs(rows: RefRows, repo: Bytes, refs: map<Bytes, Bytes>, now: int, name: Bytes)
    requires name in refs
    ensures var saved := SaveRefs(rows, repo, refs, now);
            && (repo, name) in saved && saved[(repo, name)].commit == refs[name] && saved[(repo, name)].updatedAt == now
            && saved[(repo, name)].createdAt == if (repo, name) in rows then rows[(repo, name)].createdAt else now
  {
  }

  /** Saving and loading back gives the repository exactly when no other ref name was stored for it. */
  lemma LoadAfterSave(d: Disk, r: Repo, now: int)
    ensures LoadRepo(SaveRepo(d, r, now), r.repoId) == Some(r) <==> NamesOf(d.refs, r.repoId) <= r.refs.Keys
  {
    var e, stored := SaveRepo(d, r, now), LoadRefs(d.refs, r.repoId);
    SaveOverrides(d.refs, r.repoId, r.refs, now);
    OverrideAbsorbs(stored, r.refs);
    assert stored.Keys == NamesOf(d.refs, r.repoId);
    assert LoadRepo(e, r.repoId) == Some(RepoOf(r.repoId, e.repos[r.repoId], stored + r.refs));
    SizeSurvives(r.desc.size);
    assert RepoOf(r.repoId, e.repos[r.repoId], r.refs) == r;
  }

  lemma SaveLeavesOthers(d: Disk, r: Repo, now: int, other: Bytes)
    requires other != r.repoId
    ensures LoadRepo(SaveRepo(d, r, now), other) == LoadRepo(d, other)
  {
    SaveOverrides(d.refs, r.repoId, r.refs, now);
    LoadOther(d.refs, SaveRepo(d, r, now).refs, r.repoId, other);
  }

  lemma LoadAfterDelete(d: Disk, id: Bytes)
    ensures LoadRepo(DeleteRepo(d, id), id) == None && LoadRefs(DeleteRepo(d, id).refs, id) == map[]
  {
    DeleteClears(d.refs, id);
  }

  lemma DeleteLeavesOthers(d: Disk, id: Bytes, other: Bytes)
    requires other != id
    ensures LoadRepo(DeleteRepo(d, id), other) == LoadRepo(d, other)
  {
    DeleteClears(d.refs, id);
    LoadOther(d.refs, DeleteRefs(d.refs, id), id, other);
  }

  // ---------- runs of table operations ----------

  /** No refs row belongs to a repository that is not in the table. */
  ghost predicate NoOrphans(d: Disk) {
    forall k :: k in d.refs ==> k.0 in d.repos
  }

  datatype Op =
    | Save(r: Repo)
    | Bundle(id: Bytes, path: Bytes)
    | Delete(id: Bytes)
    | PutRefs(id: Bytes, refs: map<Bytes, Bytes>)         // `save_ref`, `batch_save_refs` on their own
    | DropRefs(id: Bytes)                                 // `delete_refs_for_repo` on its own
    | Refresh(id: Bytes, current: map<Bytes, Bytes>)      // repo sync: new refs of a repository it listed

  function DoOp(d: Disk, op: Op, now: int): Disk {
    match op
    case Save(r) => SaveRepo(d, r, now)
    case Bundle(id, path) => UpdateBundle(d, id, path, now)
    case Delete(id) => DeleteRepo(d, id)
    case PutRefs(id, refs) => d.(refs := SaveRefs(d.refs, id, refs, now))
    case DropRefs(id) => d.(refs := DeleteRefs(d.refs, id))
    case Refresh(id, current) =>
      if id in d.repos && LoadRefs(d.refs, id) != current then d.(refs := SaveRefs(d.refs, id, current, now)) else d
  }

  function DoOps(d: Disk, ops: seq<(Op, int)>): Disk
    decreases |ops|
  {
    if ops == [] then d else DoOps(DoOp(d, ops[0].0, ops[0].1), ops[1..])
  }

  /** The operation stores refs of a repository that is not in the table. */
  predicate MakesOrphans(d: Disk, op: Op) {
    op.PutRefs? && op.refs != map[] && op.id !in d.repos
  }

  /** Exactly such an operation orphans refs rows. */
  lemma OrphansExactly(d: Disk, op: Op, now: int)
    requires NoOrphans(d)
    ensures NoOrphans(DoOp(d, op, now)) <==> !MakesOrphans(d, op)
  {
    if MakesOrphans(d, op) {
      var name :| name in op.refs;
      assert (op.id, name) in DoOp(d, op, now).refs;
    }
  }

  /** No operation of the run stores refs of a repository that is not in the table at that point. */
  ghost predicate NoneMakesOrphans(d: Disk, ops: seq<(Op, int)>)
    decreases |ops|
  {
    ops == [] || (!MakesOrphans(d, ops[0].0) && NoneMakesOrphans(DoOp(d, ops[0].0, ops[0].1), ops[1..]))
  }

  /** Every state of the run is free of orphans. */
  ghost predicate NeverOrphans(d: Disk, ops: seq<(Op, int)>)
    decreases |ops|
  {
    NoOrphans(d) && (ops == [] || NeverOrphans(DoOp(d, ops[0].0, ops[0].1), ops[1..]))
  }

  /** A run stays free of orphans exactly if no operation in it stores refs of an absent repository. */
  lemma {:induction false} NoOrphansOverRuns(d: Disk, ops: seq<(Op, int)>)
    requires NoOrphans(d)
    ensures NeverOrphans(d, ops) <==> NoneMakesOrphans(d, ops)
    decreases |ops|
  {
    if ops != [] {
      OrphansExactly(d, ops[0].0, ops[0].1);
      if !MakesOrphans(d, ops[0].0) { NoOrphansOverRuns(DoOp(d, ops[0].0, ops[0].1), ops[1..]); }
    }
  }

  /** The refs a run of table operations leaves for a repository: its saves override one another, a deletion starts over. */
  ghost function Replay(stored: map<Bytes, Bytes>, present: bool, id: Bytes, ops: seq<(Op, int)>): map<Bytes, Bytes>
    decreases |ops|
  {
    if ops == [] then stored
    else match ops[0].0
      case Save(r) => if r.repoId == id then Replay(stored + r.refs, true, id, ops[1..]) else Replay(stored, present, id, ops[1..])
      case Delete(x) => if x == id then Replay(map[], false, id, ops[1..]) else Replay(stored, present, id, ops[1..])
      case PutRefs(x, refs) => Replay(if x == id then stored + refs else stored, present, id, ops[1..])
      case DropRefs(x) => Replay(if x == id then map[] else stored, present, id, ops[1..])
      case Refresh(x, current) => if x == id && present then Replay(stored + current, present, id, ops[1..]) else Replay(stored, present, id, ops[1..])
      case Bundle(_, _) => Replay(stored, present, id, ops[1..])
  }

  lemma OpReplays(d: Disk, id: Bytes, op: Op, now: int)
    ensures var e := DoOp(d, op, now);
            LoadRefs(e.refs, id) ==
              match op
              case Save(r) => if r.repoId == id then LoadRefs(d.refs, id) + r.refs else LoadRefs(d.refs, id)
              case Delete(x) => if x == id then map[] else LoadRefs(d.refs, id)
              case PutRefs(x, refs) => if x == id then LoadRefs(d.refs, id) + refs else LoadRefs(d.refs, id)
              case DropRefs(x) => if x == id then map[] else LoadRefs(d.refs, id)
              case Refresh(x, current) => if x == id && id in d.repos then LoadRefs(d.refs, id) + current else LoadRefs(d.refs, id)
              case Bundle(_, _) => LoadRefs(d.refs, id)
  {
    var e := DoOp(d, op, now);
    match op
    case Save(r) =>
      SaveOverrides(d.refs, r.repoId, r.refs, now);
      if r.repoId != id { LoadOther(d.refs, e.refs, r.repoId, id); }
    case Delete(x) =>
      DeleteClears(d.refs, x);
      if x != id { LoadOther(d.refs, e.refs, x, id); }
    case PutRefs(x, refs) =>
      SaveOverrides(d.refs, x, refs, now);
      if x != id { LoadOther(d.refs, e.refs, x, id); }
    case DropRefs(x) =>
      DeleteClears(d.refs, x);
      if x != id { LoadOther(d.refs, e.refs, x, id); }
    case Refresh(x, current) =>
      if x in d.repos && LoadRefs(d.refs, x) != current {
        SaveOverrides(d.refs, x, current, now);
        if x != id { LoadOther(d.refs, e.refs, x, id); }
      } else {
        OverrideAbsorbs(current, current);
      }
    case Bundle(_, _) =>
  }

  lemma {:induction false} RunsReplay(d: Disk, id: Bytes, ops: seq<(Op, int)>)
    ensures LoadRefs(DoOps(d, ops).refs, id) == Replay(LoadRefs(d.refs, id), id in d.repos, id, ops)
    decreases |ops|
  {
    if ops != [] {
      OpReplays(d, id, ops[0].0, ops[0].1);
      RunsReplay(DoOp(d, ops[0].0, ops[0].1), id, ops[1..]);
    }
  }

  // ---------- the tables as the program changes them ----------

  class Store {
    var repos: map<Bytes, RepoRow>
    var refs: RefRows
    var files: Files

    function Value(): Disk
      reads this
    {
      Disk(repos, refs, files)
    }

    constructor ()
      ensures Value() == Disk(map[], map[], map[])
    {
      repos, refs, files := map[], map[], map[];
    }

    /** The repository's refs are overridden at one name, a present row keeps its creation time, and no other row changes. */
    method SaveRef(repo: Bytes, name: Bytes, commit: Bytes, now: int)
      modifies this`refs
      ensures LoadRefs(refs, repo) == LoadRefs(old(refs), repo)[name := commit]
      ensures (repo, name) in refs
      ensures refs[(repo, name)] == RefRow(commit, if (repo, name) in old(refs) then old(refs)[(repo, name)].createdAt else now, now)
      ensures OnlyRow(old(refs), refs, (repo, name))
    {
      ghost var before := refs;
      if (repo, name) in refs {
        refs := refs[(repo, name) := refs[(repo, name)].(commit := commit, updatedAt := now)];
      } else {
        refs := refs[(repo, name) := RefRow(commit, now, now)];
      }
      RowPut(before, refs, repo, name);
    }

    /** Row by row, in whatever order the hash map yields its entries. */
    method BatchSaveRefs(repo: Bytes, batch: map<Bytes, Bytes>, now: int)
      modifies this`refs
      ensures refs == SaveRefs(old(refs), repo, batch, now)
    {
      ghost var rows, done: set<Bytes> := refs, {};
      var left := batch.Keys;
      while left != {}
        invariant left <= batch.Keys && done == batch.Keys - left
        invariant PartSaved(rows, refs, repo, batch, done, now)
        decreases left
      {
        var name :| name in left;
        ghost var before := refs;
        if (repo, name) in refs {
          refs := refs[(repo, name) := refs[(repo, name)].(commit := batch[name], updatedAt := now)];
        } else {
          refs := refs[(repo, name) := RefRow(batch[name], now, now)];
        }
        PartSavedStep(rows, before, refs, repo, batch, done, name, now);
        left, done := left - {name}, done + {name};
      }
      AllSaved(rows, refs, repo, batch, done, now);
    }

    /** The rows of one repository, in the order the database returns them. */
    method RowsOf(repo: Bytes) returns (rows: seq<(Bytes, Bytes)>)
      ensures Enumerates(rows, LoadRefs(refs, repo))
    {
      rows := [];
      var loaded := LoadRefs(refs, repo);
      var left := loaded.Keys;
      while left != {}
        invariant left <= loaded.Keys
        invariant forall i :: 0 <= i < |rows| ==> rows[i].0 in loaded && rows[i].0 !in left && rows[i].1 == loaded[rows[i].0]
        invariant forall i, j :: 0 <= i < j < |rows| ==> rows[i].0 != rows[j].0
        invariant forall k :: k in loaded && k !in left ==> exists i :: 0 <= i < |rows| && rows[i].0 == k
        decreases left
      {
        var k :| k in left;
        ghost var before := rows;
        rows := rows + [(k, loaded[k])];
        left := left - {k};
        assert rows[|before|].0 == k;
        assert forall i :: 0 <= i < |before| ==> rows[i] == before[i];
      }
    }

    method LoadRefsForRepo(repo: Bytes) returns (r: map<Bytes, Bytes>)
      ensures r == LoadRefs(refs, repo)
    {
      var rows := RowsOf(repo);
      r := map[];
      for i := 0 to |rows|
        invariant forall k :: k in r <==> exists j :: 0 <= j < i && rows[j].0 == k
        invariant forall j :: 0 <= j < i ==> r[rows[j].0] == rows[j].1
      {
        r := r[rows[i].0 := rows[i].1];
      }
      EnumerationDetermines(rows, r, LoadRefs(refs, repo));
    }

    method DeleteRefsForRepo(repo: Bytes)
      modifies this`refs
      ensures refs == DeleteRefs(old(refs), repo)
    {
      refs := map k | k in refs && k.0 != repo :: refs[k];
    }

    /** Compare counts, then scan the stored rows only: exact, because ref names are unique. */
    method HasRefsChanged(repo: Bytes, given: map<Bytes, Bytes>) returns (changed: bool)
      ensures changed <==> LoadRefs(refs, repo) != given
    {
      var rows := RowsOf(repo);
      ghost var loaded := LoadRefs(refs, repo);
      EnumerationSize(rows, loaded);
      if |rows| != |given| {
        return true;
      }
      for i := 0 to |rows|
        invariant forall j :: 0 <= j < i ==> rows[j].0 in given && given[rows[j].0] == rows[j].1
      {
        if rows[i].0 in given {
          if given[rows[i].0] != rows[i].1 { return true; }
        } else {
          return true;
        }
      }
      SubmapOfEqualSize(loaded, given);
      return false;
    }

    method SaveRepoToDb(r: Repo, now: int)
      modifies this
      ensures Value() == SaveRepo(old(Value()), r, now)
    {
      if r.repoId in repos {
        repos := repos[r.repoId := RowOf(r, repos[r.repoId].createdAt, now)];
      } else {
        repos := repos[r.repoId := RowOf(r, now, now)];
      }
      BatchSaveRefs(r.repoId, r.refs, now);
    }

    method LoadRepoFromDb(id: Bytes) returns (r: Option<Repo>)
      ensures r == LoadRepo(Value(), id)
    {
      if id !in repos { return None; }
      var loaded := LoadRefsForRepo(id);
      r := Some(RepoOf(id, repos[id], loaded));
    }

    method DeleteRepoFromDb(id: Bytes)
      modifies this
      ensures Value() == DeleteRepo(old(Value()), id)
    {
      repos := repos - {id};
      DeleteRefsForRepo(id);
    }

    method UpdateRepoBundle(id: Bytes, path: Bytes, now: int)
      modifies this`repos
      ensures Value() == UpdateBundle(old(Value()), id, path, now)
    {
      if id in repos {
        repos := repos[id := repos[id].(bundle := path, updatedAt := now)];
      }
    }

    method ListRepos() returns (all: seq<Repo>)
      ensures forall i :: 0 <= i < |all| ==> LoadRepo(Value(), all[i].repoId) == Some(all[i])
      ensures forall i, j :: 0 <= i < j < |all| ==> all[i].repoId != all[j].repoId
      ensures forall id :: id in repos ==> exists i :: 0 <= i < |all| && all[i].repoId == id
    {
      all := [];
      var left := repos.Keys;
      while left != {}
        invariant left <= repos.Keys
        invariant forall i :: 0 <= i < |all| ==> all[i].repoId !in left && LoadRepo(Value(), all[i].repoId) == Some(all[i])
        invariant forall i, j :: 0 <= i < j < |all| ==> all[i].repoId != all[j].repoId
        invariant forall id :: id in repos && id !in left ==> exists i :: 0 <= i < |all| && all[i].repoId == id
        decreases left
      {
        var id :| id in left;
        var loaded := LoadRefsForRepo(id);
        ghost var before := all;
        all := all + [RepoOf(id, repos[id], loaded)];
        left := left - {id};
        assert all[|before|].repoId == id;
        assert forall i :: 0 <= i < |before| ==> all[i] == before[i];
      }
    }
  }

  lemma {:induction false} EnumerationSize<K, V>(es: seq<(K, V)>, m: map<K, V>)
    requires Enumerates(es, m)
    ensures |es| == |m|
    decreases |es|
  {
    if es == [] {
      assert forall k :: k !in m;
      assert m == map[];
    } else {
      EnumerationInit(es, m);
      var k := es[|es| - 1].0;
      assert m.Keys == (m - {k}).Keys + {k};
      EnumerationSize(es[..|es| - 1], m - {k});
    }
  }

  lemma EnumerationInit<K, V>(es: seq<(K, V)>, m: map<K, V>)
    requires Enumerates(es, m) && es != []
    ensures es[|es| - 1].0 in m && Enumerates(es[..|es| - 1], m - {es[|es| - 1].0})
  {
    var n := |es| - 1;
    forall x | x in m - {es[n].0}
      ensures exists i :: 0 <= i < n && es[..n][i].0 == x
    {
      var i :| 0 <= i < |es| && es[i].0 == x;
      assert es[..n][i].0 == x;
    }
  }

  lemma SubmapOfEqualSize<K, V>(a: map<K, V>, b: map<K, V>)
    requires |a| == |b| && forall k :: k in a ==> k in b && b[k] == a[k]
    ensures a == b
  {
    assert a.Keys <= b.Keys;
    assert b.Keys == a.Keys + (b.Keys - a.Keys);
    assert |b.Keys| == |a.Keys| + |b.Keys - a.Keys|;
    assert b.Keys - a.Keys == {};
  }
}
