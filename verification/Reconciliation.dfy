/** What announcements do to the disk: over one announcement, repeated ones, and whole sequences. */
module Reconciliation {
  import opened Common
  import opened Messages
  import opened Storage
  import opened Paths
  import opened Reconcile

  /** The bundle fields of two repositories lead to one file. */
  predicate ShareBundle(d: Disk, i: Bytes, j: Bytes) {
    && i != j && i in d.repos && j in d.repos && d.repos[i].bundle != "" && d.repos[j].bundle != ""
    && Resolve(d.repos[i].bundle) == Resolve(d.repos[j].bundle)
  }

  /** No other repository names the bundle file of `id`. */
  ghost predicate OwnBundle(d: Disk, id: Bytes) {
    forall j :: !ShareBundle(d, id, j)
  }

  /** No two repositories name the same bundle file. */
  ghost predicate DistinctBundles(d: Disk) {
    forall id :: OwnBundle(d, id)
  }

  /** How `new_repo_sign_message` prepares each repository: path and bundle are cleared. */
  function Announced(r: Repo): Repo { r.(path := "", bundle := "") }

  function AnnouncedAll(all: seq<Repo>): seq<Repo> {
    seq(|all|, i requires 0 <= i < |all| => Announced(all[i]))
  }

  /** An announcement as a node makes it from its table: ids are unique, bundle fields empty. */
  ghost predicate Honest(repos: seq<Repo>) {
    && (forall i, j :: 0 <= i < j < |repos| ==> repos[i].repoId != repos[j].repoId)
    && (forall i :: 0 <= i < |repos| ==> repos[i].bundle == "")
  }

  lemma OwnAnnouncementsAreHonest(all: seq<Repo>)
    requires forall i, j :: 0 <= i < j < |all| ==> all[i].repoId != all[j].repoId
    ensures Honest(AnnouncedAll(all))
  {
  }

  /** The disk agrees with an announced repository, or has it as its own. */
  ghost predicate Settled(heads: Heads, d: Disk, r: Repo) {
    && r.repoId in d.repos
    && (d.repos[r.repoId].isExternal ==> EffectiveRefs(heads, d, r.repoId) == r.refs)
  }

  /** The refs rows of repository `id` are the same. */
  ghost predicate OwnSame(rows: RefRows, rows': RefRows, id: Bytes) {
    forall k: RefKey :: k.0 == id ==> (k in rows' <==> k in rows) && (k in rows ==> rows'[k] == rows[k])
  }

  ghost predicate FileSame(files: Files, files': Files, f: File) {
    (f in files' <==> f in files) && (f in files ==> files'[f] == files[f])
  }

  /** The row of repository `id` and its refs rows are as they were. */
  ghost predicate RowSame(d: Disk, e: Disk, id: Bytes) {
    id in d.repos && id in e.repos && e.repos[id] == d.repos[id] && OwnSame(d.refs, e.refs, id)
  }

  /** Everything about repository `id` is as it was: its row, its refs, and the file its bundle field names. */
  ghost predicate Untouched(d: Disk, e: Disk, id: Bytes) {
    RowSame(d, e, id) && (d.repos[id].bundle != "" ==> FileSame(d.files, e.files, Resolve(d.repos[id].bundle)))
  }

  lemma SameOwnRows(rows: RefRows, rows': RefRows, id: Bytes)
    requires OwnSame(rows, rows', id)
    ensures LoadRefs(rows', id) == LoadRefs(rows, id)
  {
    forall name ensures name in NamesOf(rows', id) <==> name in NamesOf(rows, id) {
      assert (id, name) in rows' <==> (id, name) in rows;
      assert name in NamesOf(rows', id) <==> (id, name) in rows';
      assert name in NamesOf(rows, id) <==> (id, name) in rows;
    }
  }

  lemma OwnOfOthers(a: RefRows, b: RefRows, c: RefRows, repo: Bytes, id: Bytes)
    requires OthersSame(a, b, repo) && OthersSame(b, c, repo) && id != repo
    ensures OwnSame(a, b, id) && OwnSame(a, c, id)
  {
  }

  /** Reconciling one repository changes no refs row of another. */
  lemma ReconcileOthersRows(heads: Heads, d: Disk, r: Repo, now: int, id: Bytes)
    requires id != r.repoId
    ensures OwnSame(d.refs, ReconcileRepo(heads, d, r, now).refs, id)
  {
    if r.repoId !in d.repos {
      SaveOverrides(d.refs, r.repoId, r.refs, now);
      OwnOfOthers(d.refs, d.refs, SaveRefs(d.refs, r.repoId, r.refs, now), r.repoId, id);
    } else {
      DeleteClears(d.refs, r.repoId);
      SaveOverrides(DeleteRefs(d.refs, r.repoId), r.repoId, r.refs, now);
      OwnOfOthers(d.refs, DeleteRefs(d.refs, r.repoId),
                  SaveRefs(DeleteRefs(d.refs, r.repoId), r.repoId, r.refs, now), r.repoId, id);
    }
  }

  lemma UntouchedKeepsRefs(heads: Heads, d: Disk, e: Disk, id: Bytes)
    requires Untouched(d, e, id)
    ensures EffectiveRefs(heads, e, id) == EffectiveRefs(heads, d, id)
  {
    SameOwnRows(d.refs, e.refs, id);
  }

  /** Reconciling one repository changes no other's row or refs. */
  lemma OthersKept(heads: Heads, d: Disk, r: Repo, now: int, id: Bytes)
    requires id != r.repoId
    ensures id in d.repos ==> RowSame(d, ReconcileRepo(heads, d, r, now), id)
    ensures id !in d.repos ==> id !in ReconcileRepo(heads, d, r, now).repos
  {
    ReconcileOthersRows(heads, d, r, now, id);
  }

  /** Nor its bundle file, if that is its own. */
  lemma OthersUntouched(heads: Heads, d: Disk, r: Repo, now: int, id: Bytes)
    requires OwnBundle(d, id) && id in d.repos && id != r.repoId
    ensures Untouched(d, ReconcileRepo(heads, d, r, now), id)
  {
    ReconcileOthersRows(heads, d, r, now, id);
    assert !ShareBundle(d, id, r.repoId);
  }

  lemma OwnBundleKept(heads: Heads, d: Disk, r: Repo, now: int, id: Bytes)
    requires OwnBundle(d, id) && r.bundle == ""
    ensures OwnBundle(ReconcileRepo(heads, d, r, now), id)
  {
    forall j ensures !ShareBundle(ReconcileRepo(heads, d, r, now), id, j) {
      assert !ShareBundle(d, id, j);
    }
  }

  lemma {:induction false} AnnouncementKeepsOwn(heads: Heads, d: Disk, repos: seq<Repo>, now: int, id: Bytes)
    requires OwnBundle(d, id) && Honest(repos)
    ensures OwnBundle(ReconcileAll(heads, d, repos, now), id)
    decreases |repos|
  {
    if repos != [] {
      var init, r := repos[..|repos| - 1], repos[|repos| - 1];
      AnnouncementKeepsOwn(heads, d, init, now, id);
      OwnBundleKept(heads, ReconcileAll(heads, d, init, now), r, now, id);
    }
  }

  lemma ReconcileKeepsNoOrphans(heads: Heads, d: Disk, r: Repo, now: int)
    requires NoOrphans(d)
    ensures NoOrphans(ReconcileRepo(heads, d, r, now))
  {
  }

  lemma {:induction false} AnnouncementKeepsNoOrphans(heads: Heads, d: Disk, repos: seq<Repo>, now: int)
    requires NoOrphans(d)
    ensures NoOrphans(ReconcileAll(heads, d, repos, now))
    decreases |repos|
  {
    if repos != [] {
      var init, r := repos[..|repos| - 1], repos[|repos| - 1];
      AnnouncementKeepsNoOrphans(heads, d, init, now);
      ReconcileKeepsNoOrphans(heads, ReconcileAll(heads, d, init, now), r, now);
    }
  }

  lemma NoOwnRows(d: Disk, id: Bytes)
    requires NoOrphans(d) && id !in d.repos
    ensures LoadRefs(d.refs, id) == map[]
  {
    assert NamesOf(d.refs, id) == {};
  }

  /** Clearing a repository's refs and saving new ones leaves the new ones. */
  lemma ReplacedRefs(rows: RefRows, id: Bytes, refs: map<Bytes, Bytes>, now: int)
    ensures LoadRefs(SaveRefs(DeleteRefs(rows, id), id, refs, now), id) == refs
  {
    DeleteClears(rows, id);
    SaveOverrides(DeleteRefs(rows, id), id, refs, now);
    assert map[] + refs == refs;
  }

  /** One honest repository, reconciled: settled, and if its refs had differed, waiting for a new bundle. */
  lemma ReconcileSettles(heads: Heads, d: Disk, r: Repo, now: int)
    requires NoOrphans(d) && r.bundle == ""
    ensures var e := ReconcileRepo(heads, d, r, now);
            && Settled(heads, e, r)
            && (r.repoId in d.repos && d.repos[r.repoId].isExternal && EffectiveRefs(heads, d, r.repoId) != r.refs
                ==> e.repos[r.repoId].bundle == "")
  {
    if r.repoId !in d.repos {
      NoOwnRows(d, r.repoId);
      SaveOverrides(d.refs, r.repoId, r.refs, now);
      assert map[] + r.refs == r.refs;
    } else if d.repos[r.repoId].isExternal && EffectiveRefs(heads, d, r.repoId) != r.refs {
      ReplacedRefs(d.refs, r.repoId, r.refs, now);
    }
  }

  /** What an announcement leaves of one repository in it, against the disk before. */
  ghost predicate Adopted(heads: Heads, d: Disk, e: Disk, r: Repo) {
    && Settled(heads, e, r)
    && (r.repoId in d.repos ==> e.repos[r.repoId].isExternal == d.repos[r.repoId].isExternal)
    && (r.repoId !in d.repos ==> e.repos[r.repoId].isExternal)
    && (r.repoId in d.repos && d.repos[r.repoId].isExternal && EffectiveRefs(heads, d, r.repoId) != r.refs
        ==> e.repos[r.repoId].bundle == "")
  }

  /** The part of an announcement after position `k` does not name `id`. */
  ghost predicate UnnamedFrom(repos: seq<Repo>, k: nat, id: Bytes) {
    forall j :: k <= j < |repos| ==> repos[j].repoId != id
  }

  /** From any point of an announcement on, the repositories that it does not name any more keep their rows and refs. */
  lemma {:induction false} UnnamedKept(heads: Heads, d: Disk, repos: seq<Repo>, now: int, k: nat, id: Bytes)
    requires k <= |repos| && UnnamedFrom(repos, k, id)
    ensures var a, e := ReconcileAll(heads, d, repos[..k], now), ReconcileAll(heads, d, repos, now);
            if id in a.repos then RowSame(a, e, id) else id !in e.repos
    decreases |repos|
  {
    if k == |repos| {
      assert repos[..k] == repos;
    } else {
      var init := repos[..|repos| - 1];
      assert init[..k] == repos[..k];
      UnnamedKept(heads, d, init, now, k, id);
      OthersKept(heads, ReconcileAll(heads, d, init, now), repos[|repos| - 1], now, id);
    }
  }

  /** A repository an announcement does not name is untouched by it, its bundle file included if that is its own. */
  lemma {:induction false} UnnamedUntouched(heads: Heads, d: Disk, repos: seq<Repo>, now: int, id: Bytes)
    requires OwnBundle(d, id) && Honest(repos) && UnnamedFrom(repos, 0, id)
    ensures id in d.repos ==> Untouched(d, ReconcileAll(heads, d, repos, now), id)
    ensures id !in d.repos ==> id !in ReconcileAll(heads, d, repos, now).repos
    decreases |repos|
  {
    if repos != [] {
      var init, r := repos[..|repos| - 1], repos[|repos| - 1];
      UnnamedUntouched(heads, d, init, now, id);
      AnnouncementKeepsOwn(heads, d, init, now, id);
      var e := ReconcileAll(heads, d, init, now);
      OthersKept(heads, e, r, now, id);
      if id in d.repos { OthersUntouched(heads, e, r, now, id); }
    }
  }

  // ---------- when announcements are adopted, exactly ----------

  /** Reconciling `r` would remove file `f`, whose heads are `x`. */
  predicate Hit(d: Disk, f: File, x: map<Bytes, Bytes>, r: Repo) {
    && r.repoId in d.repos && d.repos[r.repoId].isExternal
    && d.repos[r.repoId].bundle != "" && Resolve(d.repos[r.repoId].bundle) == f && r.refs != x
  }

  ghost predicate Spared(d: Disk, f: File, x: map<Bytes, Bytes>, repos: seq<Repo>) {
    forall j :: 0 <= j < |repos| ==> !Hit(d, f, x, repos[j])
  }

  /** Announcements bring no files. */
  lemma {:induction false} FilesShrink(heads: Heads, d: Disk, repos: seq<Repo>, now: int, k: nat, f: File)
    requires k <= |repos|
    ensures var a, e := ReconcileAll(heads, d, repos[..k], now), ReconcileAll(heads, d, repos, now);
            f in e.files ==> f in a.files && e.files[f] == a.files[f]
    decreases |repos|
  {
    if k == |repos| {
      assert repos[..k] == repos;
    } else {
      assert repos[..|repos| - 1][..k] == repos[..k];
      FilesShrink(heads, d, repos[..|repos| - 1], now, k, f);
    }
  }

  /** A file that git can read outlasts an announcement exactly if no repository in it hits the file. */
  lemma {:induction false} FileStands(heads: Heads, d: Disk, repos: seq<Repo>, now: int, f: File, x: map<Bytes, Bytes>)
    requires Honest(repos) && f in d.files && heads(d.files[f]) == Some(x)
    ensures f in ReconcileAll(heads, d, repos, now).files <==> Spared(d, f, x, repos)
    ensures f in ReconcileAll(heads, d, repos, now).files ==> ReconcileAll(heads, d, repos, now).files[f] == d.files[f]
    decreases |repos|
  {
    if repos != [] {
      var n := |repos| - 1;
      HonestPrefix(repos);
      FileStands(heads, d, repos[..n], now, f, x);
      assert UnnamedFrom(repos[..n], 0, repos[n].repoId);
      UnnamedKept(heads, d, repos[..n], now, 0, repos[n].repoId);
      assert repos[..n][..0] == [];
      SparedStep(d, f, x, repos);
      FileStandsStep(heads, d, ReconcileAll(heads, d, repos[..n], now), repos[n], now, f, x);
    }
  }

  lemma SparedStep(d: Disk, f: File, x: map<Bytes, Bytes>, repos: seq<Repo>)
    requires repos != []
    ensures Spared(d, f, x, repos) <==> Spared(d, f, x, repos[..|repos| - 1]) && !Hit(d, f, x, repos[|repos| - 1])
  {
  }

  lemma FileStandsStep(heads: Heads, d: Disk, a: Disk, r: Repo, now: int, f: File, x: map<Bytes, Bytes>)
    requires if r.repoId in d.repos then RowSame(d, a, r.repoId) else r.repoId !in a.repos
    requires f in d.files && heads(d.files[f]) == Some(x) && (f in a.files ==> a.files[f] == d.files[f])
    ensures f in ReconcileRepo(heads, a, r, now).files <==> f in a.files && !Hit(d, f, x, r)
    ensures f in ReconcileRepo(heads, a, r, now).files ==> ReconcileRepo(heads, a, r, now).files[f] == d.files[f]
  {
  }

  /**
   Repository `i` is up to date only by its bundle, not by the table, and the bundle file is shared: a
   later repository in the announcement has the file removed.
   */
  ghost predicate BundleLost(heads: Heads, d: Disk, repos: seq<Repo>, i: nat)
    requires i < |repos|
  {
    var r := repos[i];
    && r.repoId in d.repos && d.repos[r.repoId].isExternal && d.repos[r.repoId].bundle != ""
    && var f := Resolve(d.repos[r.repoId].bundle);
    && f in d.files && heads(d.files[f]) == Some(r.refs) && LoadRefs(d.refs, r.repoId) != r.refs
    && Spared(d, f, r.refs, repos[..i]) && !Spared(d, f, r.refs, repos)
  }

  /** After an honest announcement, a repository in it is settled exactly if it has not lost its bundle that way. */
  lemma SettledExactly(heads: Heads, d: Disk, repos: seq<Repo>, now: int, i: nat)
    requires NoOrphans(d) && Honest(repos) && i < |repos|
    ensures Settled(heads, ReconcileAll(heads, d, repos, now), repos[i]) <==> !BundleLost(heads, d, repos, i)
  {
    var r, id := repos[i], repos[i].repoId;
    var a, c, e := ReconcileAll(heads, d, repos[..i], now), ReconcileAll(heads, d, repos[..i + 1], now), ReconcileAll(heads, d, repos, now);
    ReconcileAt(heads, d, repos, now, i);
    AnnouncementKeepsNoOrphans(heads, d, repos[..i], now);
    ReconcileSettles(heads, a, r, now);
    UnnamedKept(heads, d, repos, now, i + 1, id);
    FilesShrink(heads, d, repos, now, i, if id in d.repos then Resolve(d.repos[id].bundle) else []);
    if id in d.repos && d.repos[id].isExternal && d.repos[id].bundle != "" {
      FileInBetween(heads, d, repos, now, i);
      SettledByFile(heads, d, a, e, repos, i);
      if EffectiveRefs(heads, a, id) != r.refs { SettledByTable(heads, c, e, r); }
    } else {
      SettledByTable(heads, c, e, r);
    }
  }

  /** The step of an announcement at position `i`, from the row it finds there. */
  lemma ReconcileAt(heads: Heads, d: Disk, repos: seq<Repo>, now: int, i: nat)
    requires Honest(repos) && i < |repos|
    ensures var a, id := ReconcileAll(heads, d, repos[..i], now), repos[i].repoId;
            && ReconcileAll(heads, d, repos[..i + 1], now) == ReconcileRepo(heads, a, repos[i], now)
            && UnnamedFrom(repos, i + 1, id)
            && if id in d.repos then RowSame(d, a, id) else id !in a.repos
  {
    HonestPart(repos, i);
    ReconcileNext(heads, d, repos, now, i);
    UnnamedKept(heads, d, repos[..i], now, 0, repos[i].repoId);
    assert repos[..i][..0] == [];
  }

  lemma ReconcileNext(heads: Heads, d: Disk, repos: seq<Repo>, now: int, i: nat)
    requires i < |repos|
    ensures ReconcileAll(heads, d, repos[..i + 1], now) == ReconcileRepo(heads, ReconcileAll(heads, d, repos[..i], now), repos[i], now)
  {
    assert repos[..i + 1][..i] == repos[..i];
  }

  /** Settled by the table alone, the repository stays so while its row and refs do. */
  lemma SettledByTable(heads: Heads, c: Disk, e: Disk, r: Repo)
    requires Settled(heads, c, r) && RowSame(c, e, r.repoId)
    requires c.repos[r.repoId].isExternal ==> c.repos[r.repoId].bundle == ""
    ensures Settled(heads, e, r)
  {
    SameOwnRows(c.refs, e.refs, r.repoId);
  }

  /** The bundle file of repository `i` when its turn comes, and at the end. */
  lemma FileInBetween(heads: Heads, d: Disk, repos: seq<Repo>, now: int, i: nat)
    requires Honest(repos) && i < |repos| && repos[i].repoId in d.repos
    ensures var f := Resolve(d.repos[repos[i].repoId].bundle);
            var a, e := ReconcileAll(heads, d, repos[..i], now), ReconcileAll(heads, d, repos, now);
            && (f in a.files ==> f in d.files && a.files[f] == d.files[f])
            && (f in e.files ==> f in a.files && e.files[f] == a.files[f])
            && (f in d.files && heads(d.files[f]).Some? ==>
                  var x := heads(d.files[f]).value;
                  (f in a.files <==> Spared(d, f, x, repos[..i])) && (f in e.files <==> Spared(d, f, x, repos)))
  {
    var f := Resolve(d.repos[repos[i].repoId].bundle);
    FilesShrink(heads, d, repos[..i], now, 0, f);
    assert repos[..i][..0] == [];
    FilesShrink(heads, d, repos, now, i, f);
    if f in d.files && heads(d.files[f]).Some? {
      var x := heads(d.files[f]).value;
      FileStands(heads, d, repos[..i], now, f, x);
      FileStands(heads, d, repos, now, f, x);
    }
  }

  /** What the bundle file means for a repository that has one, before its turn and at the end. */
  lemma SettledByFile(heads: Heads, d: Disk, a: Disk, e: Disk, repos: seq<Repo>, i: nat)
    requires i < |repos|
    requires var id := repos[i].repoId;
             && RowSame(d, a, id) && d.repos[id].isExternal && d.repos[id].bundle != ""
             && var f := Resolve(d.repos[id].bundle);
             && (f in a.files ==> f in d.files && a.files[f] == d.files[f])
             && (f in e.files ==> f in a.files && e.files[f] == a.files[f])
             && (f in d.files && heads(d.files[f]).Some? ==>
                   var x := heads(d.files[f]).value;
                   (f in a.files <==> Spared(d, f, x, repos[..i])) && (f in e.files <==> Spared(d, f, x, repos)))
    ensures EffectiveRefs(heads, a, repos[i].repoId) != repos[i].refs ==> !BundleLost(heads, d, repos, i)
    ensures EffectiveRefs(heads, a, repos[i].repoId) == repos[i].refs && RowSame(a, e, repos[i].repoId) ==>
              (Settled(heads, e, repos[i]) <==> !BundleLost(heads, d, repos, i))
  {
    var id := repos[i].repoId;
    SameOwnRows(d.refs, a.refs, id);
    if RowSame(a, e, id) { SameOwnRows(a.refs, e.refs, id); }
  }

  /** A repository whose bundle file is its own never loses it that way. */
  lemma OwnNeverLost(heads: Heads, d: Disk, repos: seq<Repo>, i: nat)
    requires Honest(repos) && i < |repos| && OwnBundle(d, repos[i].repoId)
    ensures !BundleLost(heads, d, repos, i)
  {
    var r := repos[i];
    if r.repoId in d.repos {
      var f := Resolve(d.repos[r.repoId].bundle);
      forall j | 0 <= j < |repos| && d.repos[r.repoId].bundle != "" ensures !Hit(d, f, r.refs, repos[j]) {
        if j != i { assert !ShareBundle(d, r.repoId, repos[j].repoId); }
      }
    }
  }

  /** With a shared bundle file it can happen: announcing the two together leaves the first one unsettled. */
  lemma SharedBundleUnsettles(heads: Heads, d: Disk, a: Repo, b: Repo, now: int)
    requires NoOrphans(d) && Honest([a, b]) && ShareBundle(d, a.repoId, b.repoId)
    requires d.repos[a.repoId].isExternal && d.repos[b.repoId].isExternal
    requires var f := Resolve(d.repos[a.repoId].bundle);
             f in d.files && heads(d.files[f]) == Some(a.refs)
    requires LoadRefs(d.refs, a.repoId) != a.refs && b.refs != a.refs
    ensures !Settled(heads, ReconcileAll(heads, d, [a, b], now), a)
  {
    var repos := [a, b];
    var f := Resolve(d.repos[a.repoId].bundle);
    assert repos[0] == a && repos[1] == b && Hit(d, f, a.refs, repos[1]);
    assert repos[..0] == [];
    SettledExactly(heads, d, repos, now, 0);
  }

  /**
   After an honest announcement, every repository in it that is not the node's own has effective refs
   equal to the announced ones; if an external one's had differed, its bundle field is now empty.
   */
  lemma AnnouncementAdopted(heads: Heads, d: Disk, repos: seq<Repo>, now: int, i: nat)
    requires NoOrphans(d) && Honest(repos) && i < |repos| && OwnBundle(d, repos[i].repoId)
    ensures Adopted(heads, d, ReconcileAll(heads, d, repos, now), repos[i])
  {
    var r, id := repos[i], repos[i].repoId;
    var a, e := ReconcileAll(heads, d, repos[..i], now), ReconcileAll(heads, d, repos, now);
    SettledExactly(heads, d, repos, now, i);
    OwnNeverLost(heads, d, repos, i);
    ReconcileAt(heads, d, repos, now, i);
    UnnamedKept(heads, d, repos, now, i + 1, id);
    HonestPart(repos, i);
    UnnamedUntouched(heads, d, repos[..i], now, id);
    if id in d.repos { UntouchedKeepsRefs(heads, d, a, id); }
  }

  lemma HonestPart(repos: seq<Repo>, i: nat)
    requires Honest(repos) && i < |repos|
    ensures Honest(repos[..i]) && UnnamedFrom(repos[..i], 0, repos[i].repoId) && UnnamedFrom(repos, i + 1, repos[i].repoId)
  {
  }

  lemma HonestPrefix(repos: seq<Repo>)
    requires Honest(repos) && repos != []
    ensures var n := |repos| - 1;
            Honest(repos[..n]) && forall i :: 0 <= i < n ==> repos[..n][i].repoId != repos[n].repoId
  {
  }

  ghost predicate AllSettled(heads: Heads, d: Disk, repos: seq<Repo>) {
    forall i :: 0 <= i < |repos| ==> Settled(heads, d, repos[i])
  }

  lemma AllSettledNext(heads: Heads, d: Disk, repos: seq<Repo>, k: nat)
    requires k < |repos|
    ensures AllSettled(heads, d, repos[..k + 1]) <==> AllSettled(heads, d, repos[..k]) && Settled(heads, d, repos[k])
  {
    var init, more := repos[..k], repos[..k + 1];
    assert more == init + [repos[k]];
    if AllSettled(heads, d, more) {
      assert Settled(heads, d, more[k]);
      forall i | 0 <= i < k ensures Settled(heads, d, init[i]) { assert Settled(heads, d, more[i]); }
    }
    if AllSettled(heads, d, init) && Settled(heads, d, repos[k]) {
      forall i | 0 <= i < k + 1 ensures Settled(heads, d, more[i]) {
        if i < k { assert Settled(heads, d, init[i]); }
      }
    }
  }

  /** A settled disk is left exactly as it is. */
  lemma {:induction false} SettledStays(heads: Heads, d: Disk, repos: seq<Repo>, now: int)
    requires AllSettled(heads, d, repos)
    ensures ReconcileAll(heads, d, repos, now) == d
    decreases |repos|
  {
    if repos != [] {
      assert repos[..|repos|] == repos;
      AllSettledNext(heads, d, repos, |repos| - 1);
      SettledStays(heads, d, repos[..|repos| - 1], now);
    }
  }

  /** Exactly a settled disk is left as it is: an announcement changes something about the first unsettled repository. */
  lemma StableIffSettled(heads: Heads, d: Disk, repos: seq<Repo>, now: int)
    requires Honest(repos)
    ensures ReconcileAll(heads, d, repos, now) == d <==> AllSettled(heads, d, repos)
  {
    if AllSettled(heads, d, repos) {
      SettledStays(heads, d, repos, now);
    } else {
      var k := FirstUnsettled(heads, d, repos);
      SettledStays(heads, d, repos[..k], now);
      if ReconcileAll(heads, d, repos, now) == d { SettledNext(heads, d, repos, now, k); }
    }
  }

  lemma {:induction false} FirstUnsettled(heads: Heads, d: Disk, repos: seq<Repo>) returns (k: nat)
    requires !AllSettled(heads, d, repos)
    ensures k < |repos| && !Settled(heads, d, repos[k]) && AllSettled(heads, d, repos[..k])
    decreases |repos|
  {
    var n := |repos| - 1;
    assert repos[..|repos|] == repos;
    if AllSettled(heads, d, repos[..n]) {
      AllSettledNext(heads, d, repos, n);
      k := n;
    } else {
      k := FirstUnsettled(heads, d, repos[..n]);
      assert repos[..n][..k] == repos[..k];
    }
  }

  lemma SettledNext(heads: Heads, d: Disk, repos: seq<Repo>, now: int, k: nat)
    requires Honest(repos) && k < |repos| && ReconcileAll(heads, d, repos, now) == d && ReconcileAll(heads, d, repos[..k], now) == d
    ensures Settled(heads, d, repos[k])
  {
    ReconcileAt(heads, d, repos, now, k);
    UnnamedKept(heads, d, repos, now, k + 1, repos[k].repoId);
    ChangedIfUnsettled(heads, d, repos[k], now);
  }

  lemma ChangedIfUnsettled(heads: Heads, d: Disk, r: Repo, now: int)
    requires RowSame(ReconcileRepo(heads, d, r, now), d, r.repoId)
    ensures Settled(heads, d, r)
  {
    var c := ReconcileRepo(heads, d, r, now);
    if d.repos[r.repoId].isExternal && EffectiveRefs(heads, d, r.repoId) != r.refs {
      ReplacedRefs(d.refs, r.repoId, r.refs, now);
      SameOwnRows(c.refs, d.refs, r.repoId);
    }
  }

  /** Processing an honest announcement again, at any later time, changes nothing exactly if no bundle was lost by it. */
  lemma AnnouncementIdempotent(heads: Heads, d: Disk, repos: seq<Repo>, now: int, later: int)
    requires NoOrphans(d) && Honest(repos)
    ensures var e := ReconcileAll(heads, d, repos, now);
            ReconcileAll(heads, e, repos, later) == e <==> forall i :: 0 <= i < |repos| ==> !BundleLost(heads, d, repos, i)
  {
    var e := ReconcileAll(heads, d, repos, now);
    StableIffSettled(heads, e, repos, later);
    forall i | 0 <= i < |repos| ensures Settled(heads, e, repos[i]) <==> !BundleLost(heads, d, repos, i) {
      SettledExactly(heads, d, repos, now, i);
    }
  }

  // ---------- arbitrary announcements ----------

  /** Any announcements, from anybody, one after the other. */
  function ReconcileMany(heads: Heads, d: Disk, anns: seq<(seq<Repo>, int)>): Disk
    decreases |anns|
  {
    if anns == [] then d
    else ReconcileAll(heads, ReconcileMany(heads, d, anns[..|anns| - 1]), anns[|anns| - 1].0, anns[|anns| - 1].1)
  }

  /** Present rows stay, with their external flag, and a local one stays with its fields and refs. */
  ghost predicate Protected(d: Disk, e: Disk, id: Bytes) {
    id in d.repos ==>
      && id in e.repos && e.repos[id].isExternal == d.repos[id].isExternal
      && (!d.repos[id].isExternal ==>
            e.repos[id] == d.repos[id] && OwnSame(d.refs, e.refs, id))
  }

  lemma ProtectedStep(heads: Heads, d: Disk, r: Repo, now: int, id: Bytes)
    ensures Protected(d, ReconcileRepo(heads, d, r, now), id)
  {
    if id != r.repoId { ReconcileOthersRows(heads, d, r, now, id); }
  }

  lemma {:induction false} ProtectedAll(heads: Heads, d: Disk, repos: seq<Repo>, now: int, id: Bytes)
    ensures Protected(d, ReconcileAll(heads, d, repos, now), id)
    decreases |repos|
  {
    if repos != [] {
      var init := repos[..|repos| - 1];
      ProtectedAll(heads, d, init, now, id);
      ProtectedStep(heads, ReconcileAll(heads, d, init, now), repos[|repos| - 1], now, id);
    }
  }

  /** Over any sequence of announcements, honest or not, local repositories keep every field and ref. */
  lemma {:induction false} LocalUntouchedByGossip(heads: Heads, d: Disk, anns: seq<(seq<Repo>, int)>, id: Bytes)
    ensures Protected(d, ReconcileMany(heads, d, anns), id)
    decreases |anns|
  {
    if anns != [] {
      var init := anns[..|anns| - 1];
      LocalUntouchedByGossip(heads, d, init, id);
      ProtectedAll(heads, ReconcileMany(heads, d, init), anns[|anns| - 1].0, anns[|anns| - 1].1, id);
    }
  }

  // ---------- files under arbitrary announcements ----------

  /** Reconciling `r` removes the file `f`. */
  predicate Removes(heads: Heads, d: Disk, r: Repo, f: File) {
    && r.repoId in d.repos && d.repos[r.repoId].isExternal
    && d.repos[r.repoId].bundle != "" && Resolve(d.repos[r.repoId].bundle) == f
    && EffectiveRefs(heads, d, r.repoId) != r.refs
  }

  /** One announced repository removes exactly that file, and changes no other. */
  lemma RemovedExactly(heads: Heads, d: Disk, r: Repo, now: int, f: File)
    requires f in d.files
    ensures f in ReconcileRepo(heads, d, r, now).files <==> !Removes(heads, d, r, f)
    ensures f in ReconcileRepo(heads, d, r, now).files ==> ReconcileRepo(heads, d, r, now).files[f] == d.files[f]
  {
  }

  /** No bundle field of an external repository leads to `f`. */
  ghost predicate Unnamed(d: Disk, f: File) {
    forall id :: id in d.repos && d.repos[id].isExternal && d.repos[id].bundle != "" ==> Resolve(d.repos[id].bundle) != f
  }

  /** No bundle field in the announcement leads to `f`. */
  ghost predicate NotAnnounced(repos: seq<Repo>, f: File) {
    forall i :: 0 <= i < |repos| && repos[i].bundle != "" ==> Resolve(repos[i].bundle) != f
  }

  lemma {:induction false} FileKept(heads: Heads, d: Disk, repos: seq<Repo>, now: int, f: File)
    requires Unnamed(d, f) && NotAnnounced(repos, f)
    ensures Unnamed(ReconcileAll(heads, d, repos, now), f) && FileSame(d.files, ReconcileAll(heads, d, repos, now).files, f)
    decreases |repos|
  {
    if repos != [] {
      var n := |repos| - 1;
      FileKept(heads, d, repos[..n], now, f);
      FileKeptStep(heads, ReconcileAll(heads, d, repos[..n], now), repos[n], now, f);
    }
  }

  lemma FileKeptStep(heads: Heads, d: Disk, r: Repo, now: int, f: File)
    requires Unnamed(d, f) && (r.bundle != "" ==> Resolve(r.bundle) != f)
    ensures Unnamed(ReconcileRepo(heads, d, r, now), f) && FileSame(d.files, ReconcileRepo(heads, d, r, now).files, f)
  {
  }

  /**
   A file survives any sequence of announcements, honest or not, if neither a stored external repository
   nor an announced one names it.
   */
  lemma {:induction false} FileSurvives(heads: Heads, d: Disk, anns: seq<(seq<Repo>, int)>, f: File)
    requires Unnamed(d, f) && forall k :: 0 <= k < |anns| ==> NotAnnounced(anns[k].0, f)
    ensures Unnamed(ReconcileMany(heads, d, anns), f) && FileSame(d.files, ReconcileMany(heads, d, anns).files, f)
    decreases |anns|
  {
    if anns != [] {
      var n := |anns| - 1;
      FileSurvives(heads, d, anns[..n], f);
      FileKept(heads, ReconcileMany(heads, d, anns[..n]), anns[n].0, anns[n].1, f);
    }
  }

  /**
   Else it may not. The announced bundle field of a new repository is stored as it is, and the file it
   leads to, whosever it is, goes with the next announcement of other refs.
   */
  lemma AnnouncedPathRemoves(heads: Heads, d: Disk, r: Repo, now: int, s: Repo, later: int)
    requires NoOrphans(d) && r.repoId !in d.repos && s.repoId == r.repoId && r.bundle != "" && Resolve(r.bundle) in d.files
    requires var x := heads(d.files[Resolve(r.bundle)]);
             s.refs != if x.Some? then x.value else r.refs
    ensures Resolve(r.bundle) !in ReconcileMany(heads, d, [([r], now), ([s], later)]).files
  {
    var f := Resolve(r.bundle);
    var a := ReconcileRepo(heads, d, r, now);
    NoOwnRows(d, r.repoId);
    SaveOverrides(d.refs, r.repoId, r.refs, now);
    assert map[] + r.refs == r.refs;
    assert Removes(heads, a, s, f);
    RemovedExactly(heads, a, s, later, f);
    OneByOne(heads, d, r, now, s, later);
  }

  lemma OneByOne(heads: Heads, d: Disk, r: Repo, now: int, s: Repo, later: int)
    ensures ReconcileMany(heads, d, [([r], now), ([s], later)])
         == ReconcileRepo(heads, ReconcileRepo(heads, d, r, now), s, later)
  {
    var first, anns := [([r], now)], [([r], now), ([s], later)];
    assert anns[..|anns| - 1] == first && first[..|first| - 1] == [];
    AllOfOne(heads, d, r, now);
    assert ReconcileMany(heads, d, []) == d;
    assert ReconcileMany(heads, d, first) == ReconcileRepo(heads, d, r, now);
    AllOfOne(heads, ReconcileRepo(heads, d, r, now), s, later);
  }

  lemma AllOfOne(heads: Heads, d: Disk, r: Repo, now: int)
    ensures ReconcileAll(heads, d, [r], now) == ReconcileRepo(heads, d, r, now)
  {
    assert [r][..0] == [];
    assert ReconcileAll(heads, d, [], now) == d;
  }

  // ---------- every column ----------

  /** What an announcement may do to a stored row: nothing, or clear the bundle field and set the update time. */
  ghost predicate RowCleared(d: Disk, e: Disk, id: Bytes, now: int) {
    && id in d.repos && id in e.repos
    && (e.repos[id] == d.repos[id] || e.repos[id] == d.repos[id].(bundle := "", updatedAt := now))
  }

  lemma ReconcileClears(heads: Heads, d: Disk, r: Repo, now: int, id: Bytes)
    requires id in d.repos
    ensures RowCleared(d, ReconcileRepo(heads, d, r, now), id, now)
  {
  }

  lemma {:induction false} AnnouncementClears(heads: Heads, d: Disk, repos: seq<Repo>, now: int, id: Bytes)
    requires id in d.repos
    ensures RowCleared(d, ReconcileAll(heads, d, repos, now), id, now)
    decreases |repos|
  {
    if repos != [] {
      var n := |repos| - 1;
      AnnouncementClears(heads, d, repos[..n], now, id);
      ReconcileClears(heads, ReconcileAll(heads, d, repos[..n], now), repos[n], now, id);
    }
  }

  /** A stored repository loads after any announcement as before, apart from refs and bundle. */
  lemma StoredLoadsAsBefore(heads: Heads, d: Disk, repos: seq<Repo>, now: int, id: Bytes)
    requires id in d.repos
    ensures var e := ReconcileAll(heads, d, repos, now);
            && LoadRepo(e, id).Some?
            && var was, is_ := LoadRepo(d, id).value, LoadRepo(e, id).value;
            && is_ == was.(refs := is_.refs, bundle := is_.bundle)
            && (is_.bundle == was.bundle || is_.bundle == "")
            && e.repos[id].createdAt == d.repos[id].createdAt
  {
    AnnouncementClears(heads, d, repos, now, id);
  }

  /** An absent repository loads after an honest announcement as it was announced, but for its external flag. */
  lemma AbsentIsStored(heads: Heads, d: Disk, repos: seq<Repo>, now: int, i: nat)
    requires NoOrphans(d) && Honest(repos) && i < |repos| && repos[i].repoId !in d.repos
    ensures var e := ReconcileAll(heads, d, repos, now);
            && LoadRepo(e, repos[i].repoId) == Some(repos[i].(isExternal := true))
            && e.repos[repos[i].repoId].createdAt == now && e.repos[repos[i].repoId].updatedAt == now
  {
    var r, id := repos[i], repos[i].repoId;
    var a, c, e := ReconcileAll(heads, d, repos[..i], now), ReconcileAll(heads, d, repos[..i + 1], now), ReconcileAll(heads, d, repos, now);
    ReconcileAt(heads, d, repos, now, i);
    AnnouncementKeepsNoOrphans(heads, d, repos[..i], now);
    NewIsStored(heads, a, r, now);
    UnnamedKept(heads, d, repos, now, i + 1, id);
    SameRowLoads(c, e, id);
  }

  lemma NewIsStored(heads: Heads, d: Disk, r: Repo, now: int)
    requires NoOrphans(d) && r.repoId !in d.repos
    ensures var e := ReconcileRepo(heads, d, r, now);
            && LoadRepo(e, r.repoId) == Some(r.(isExternal := true))
            && e.repos[r.repoId].createdAt == now && e.repos[r.repoId].updatedAt == now
  {
    NoOwnRows(d, r.repoId);
    assert NamesOf(d.refs, r.repoId) == LoadRefs(d.refs, r.repoId).Keys == {};
    LoadAfterSave(d, r.(isExternal := true), now);
  }

  lemma SameRowLoads(c: Disk, e: Disk, id: Bytes)
    requires RowSame(c, e, id)
    ensures LoadRepo(e, id) == LoadRepo(c, id)
  {
    SameOwnRows(c.refs, e.refs, id);
  }
}
