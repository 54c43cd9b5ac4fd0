/**
 A whole round between two nodes: an announcement, the sync loop's request to the creator, the owner's
 answer packed from its own disk and sent frame by frame, and its reception. Where the frames get
 through, the round is what `Resync` is about.
 */
module Rounds {
  import opened Common
  import opened Json
  import opened Printer
  import opened Messages
  import opened Paths
  import opened Storage
  import opened Transport
  import opened Bundle
  import opened BundleRuns
  import opened Reconcile
  import opened Reconciliation
  import opened Resync

  /** The owner: how it receives, its disk, and the room its connection to the requester has. */
  datatype Owner = Owner(id: NodeId, rc: Receiver, disk: Disk, room: nat)

  /** The sync loop asks `owner` for repository `id`: what `Reconcile.SyncTick` puts in its list. */
  predicate Asked(validId: NodeId -> bool, e: Disk, owner: NodeId, id: Bytes) {
    Wanted(e, id) && validId(owner) && e.repos[id].creator == owner
  }

  /** What the owner's connection takes of its answer to a received stream. */
  function AnswerSent(o: Owner, me: NodeId, bytes: Bytes): Queue {
    Taken(AnswerTo(Meaning(o.rc, bytes), o.rc.pack, o.disk, me), o.room)
  }

  /** The receiver's disk after the round. */
  function AfterRound(heads: Heads, validId: NodeId -> bool, rc: Receiver, me: NodeId, d: Disk, o: Owner, repos: seq<Repo>,
                      i: nat, now: int): Disk
    requires i < |repos|
  {
    var e, id := ReconcileAll(heads, d, repos, now), repos[i].repoId;
    if Asked(validId, e, o.id, id) then OnStreams(rc, e, Arriving(o.id, AnswerSent(o, me, Frame(Request(id))), now)) else e
  }

  // ---------- frames whose length depends on names only ----------

  /** A length of repository ids for which a whole transfer is sure to fit. */
  const MAX_NAMED_ID := 87000

  lemma RequestFrameFits(repo: Bytes)
    requires |repo| <= MAX_REPO_ID
    ensures |Frame(Request(repo))| <= READ_BUF_SIZE
  {
    RepoOnlyLength("Request", repo);
  }

  lemma SizeDigits(x: U64)
    ensures |Print(Num(x))| <= 20
  {
    TwentyDigits(20);
    DigitsOf(x, 20, Tens(20));
  }

  lemma TwentyDigits(k: nat)
    requires k == 20
    ensures Tens(k) >= 0x1_0000_0000_0000_0000
  {
    TensSum(10, 10);
    assert Tens(10) == 10000000000 by { TensSum(5, 5); assert Tens(5) == 100000; }
  }

  lemma {:induction false} TensSum(a: nat, b: nat)
    ensures Tens(a + b) == Tens(a) * Tens(b)
  {
    if a > 0 {
      TensSum(a - 1, b);
      TenTimes(Tens(a - 1), Tens(b));
    }
  }

  lemma TenTimes(x: nat, y: nat)
    ensures 10 * (x * y) == (10 * x) * y
  {
  }

  lemma NameLength(name: Bytes)
    ensures |PrintEntry(("file_name", Str(name)))| <= 14 + 6 * |name|
  {
    StrEntryLength("file_name", name);
  }

  lemma SizeLength(x: U64)
    ensures |PrintEntry(("total_size", Num(x)))| <= 33
  {
    EntryLength("total_size", Num(x));
    SizeDigits(x);
  }

  lemma BeginEntriesFit(repo: Bytes, name: Bytes, size: U64)
    requires |repo| <= MAX_NAMED_ID && |name| <= |repo| + 7
    ensures |PrintEntries(FieldsJson(Begin(repo, name, size)).1)| <= READ_BUF_SIZE - 17
  {
    RepoIdLength(repo);
    NameLength(name);
    SizeLength(size);
    ThreeEntries(("repo_id", Str(repo)), ("file_name", Str(name)), ("total_size", Num(size)));
  }

  lemma BeginFrameFits(repo: Bytes, name: Bytes, size: U64)
    requires |repo| <= MAX_NAMED_ID && |name| <= |repo| + 7
    ensures |Frame(Begin(repo, name, size))| <= READ_BUF_SIZE
  {
    BeginEntriesFit(repo, name, size);
    PlainLength("Start");
    TaggedLength("Start", FieldsJson(Begin(repo, name, size)).1);
  }

  lemma {:induction false} LastPartShort(s: Bytes)
    ensures |LastPart(s)| <= |s|
  {
    if s != [] && ':' in s && ':' in s[1..] { LastPartShort(s[1..]); }
  }

  /** The name under which an owner sends a bundle. */
  function BundleName(id: Bytes): Bytes { BaseName(LastPart(id) + ".bundle") }

  lemma {:induction false} BaseNameShort(s: Bytes)
    ensures |BaseName(s)| <= |s|
  {
    if s != [] && '/' in s && '/' in s[1..] { BaseNameShort(s[1..]); }
  }

  lemma NamedTransferReadable(rc: Receiver, id: Bytes, b: seq<U8>)
    requires Decodes(rc.decode) && |id| <= MAX_NAMED_ID && ChunkCount(b) <= 0x1_0000_0000
    ensures Readable(rc, id, BundleName(id), b)
  {
    LastPartShort(id);
    BaseNameShort(LastPart(id) + ".bundle");
    BeginFrameFits(id, BundleName(id), |b|);
  }

  // ---------- the round ----------

  /** The owner has the repository as its own, packs it to `b`, and has room for the whole answer. */
  ghost predicate Serves(o: Owner, me: NodeId, id: Bytes, b: seq<U8>) {
    && Decodes(o.rc.decode) && Answer(o.rc.pack, o.disk, id) == Some(b) && ChunkCount(b) <= 0x1_0000_0000
    && |TransferFrames(me, id, BundleName(id), b)| <= o.room
  }

  lemma WholeAnswerSent(o: Owner, me: NodeId, id: Bytes, b: seq<U8>)
    requires Serves(o, me, id, b) && |id| <= MAX_NAMED_ID
    ensures AnswerSent(o, me, Frame(Request(id))) == TransferFrames(me, id, BundleName(id), b)
  {
    RequestFrameFits(id);
    FrameMeans(o.rc, Request(id));
  }

  lemma AnswerReceived(rc: Receiver, e: Disk, o: Owner, me: NodeId, id: Bytes, b: seq<U8>, now: int, u: Disk)
    requires Decodes(rc.decode) && Serves(o, me, id, b) && |id| <= MAX_NAMED_ID
    requires u == OnStreams(rc, e, Arriving(o.id, AnswerSent(o, me, Frame(Request(id))), now))
    ensures Received(e, u, id, PathOf(rc.dir, o.id, id), b, now)
  {
    WholeAnswerSent(o, me, id, b);
    NamedTransferReadable(rc, id, b);
    TransferDelivers(rc, e, o.id, me, id, BundleName(id), b, now);
  }

  /** What the round needs of the receiver and the owner; the creator is whom the announcement or the stored row names. */
  ghost predicate RoundPossible(heads: Heads, validId: NodeId -> bool, rc: Receiver, me: NodeId, d: Disk, o: Owner,
                                repos: seq<Repo>, i: nat, b: seq<U8>, now: int)
    requires i < |repos|
  {
    var id := repos[i].repoId;
    && Decodes(rc.decode) && |id| <= MAX_NAMED_ID && Serves(o, me, id, b) && PathFree(d, id, PathOf(rc.dir, o.id, id))
    && validId(o.id) && (if id in d.repos then d.repos[id].creator else repos[i].desc.creator) == o.id
  }

  lemma CreatorKept(heads: Heads, d: Disk, repos: seq<Repo>, i: nat, now: int)
    requires Honest(repos) && i < |repos|
    ensures var id, e := repos[i].repoId, ReconcileAll(heads, d, repos, now);
            id in e.repos && e.repos[id].creator == (if id in d.repos then d.repos[id].creator else repos[i].desc.creator)
  {
    ReconcileAt(heads, d, repos, now, i);
    UnnamedKept(heads, d, repos, now, i + 1, repos[i].repoId);
  }

  /** A round is a resynchronization from the owner's own bundle. */
  lemma RoundIsResync(heads: Heads, validId: NodeId -> bool, rc: Receiver, me: NodeId, d: Disk, o: Owner, repos: seq<Repo>, i: nat,
                      b: seq<U8>, now: int, u: Disk)
    requires Announces(d, repos, i) && RoundPossible(heads, validId, rc, me, d, o, repos, i, b, now)
    requires u == AfterRound(heads, validId, rc, me, d, o, repos, i, now)
    ensures Resynced(heads, d, repos, i, PathOf(rc.dir, o.id, repos[i].repoId), b, now, u)
  {
    var e, id := ReconcileAll(heads, d, repos, now), repos[i].repoId;
    CreatorKept(heads, d, repos, i, now);
    PathNotEmpty(rc.dir, o.id, id);
    BundlesFree(heads, d, repos, now, id, PathOf(rc.dir, o.id, id));
    if Wanted(e, id) { AnswerReceived(rc, e, o, me, id, b, now, u); }
  }

  /** After one round with an owner whose bundle agrees with its announcement, nothing more ever happens to the repository. */
  lemma RoundReachesFixedPoint(heads: Heads, validId: NodeId -> bool, rc: Receiver, me: NodeId, d: Disk, o: Owner,
                               repos: seq<Repo>, i: nat, b: seq<U8>, now: int, u: Disk, anns: seq<(seq<Repo>, int)>)
    requires Announces(d, repos, i) && RoundPossible(heads, validId, rc, me, d, o, repos, i, b, now)
    requires u == AfterRound(heads, validId, rc, me, d, o, repos, i, now)
    requires BundleAgrees(heads, b, repos[i]) && Consistent(repos[i], anns)
    ensures Untouched(u, ReconcileMany(heads, u, anns), repos[i].repoId) && InSync(heads, ReconcileMany(heads, u, anns), repos[i])
  {
    RoundIsResync(heads, validId, rc, me, d, o, repos, i, b, now, u);
    ResyncReachesFixedPoint(heads, d, repos, i, PathOf(rc.dir, o.id, repos[i].repoId), b, now, u, anns);
  }

  // ---------- tags ----------

  predicate IsTag(name: Bytes) { StartsWith(name, "refs/tags/") }

  /** Bundles pack branches only: no head that git lists in one is a tag. */
  predicate NoTags(heads: Heads, b: seq<U8>) {
    heads(b).Some? ==> forall name :: name in heads(b).value ==> !IsTag(name)
  }

  /** A repository with a tag never comes to rest: after every round the next announcement has its bundle fetched again. */
  lemma TagsNeverSettle(heads: Heads, validId: NodeId -> bool, rc: Receiver, me: NodeId, d: Disk, o: Owner, repos: seq<Repo>, i: nat,
                        b: seq<U8>, now: int, u: Disk, tag: Bytes, again: seq<Repo>, k: nat, later: int)
    requires Announces(d, repos, i) && RoundPossible(heads, validId, rc, me, d, o, repos, i, b, now)
    requires u == AfterRound(heads, validId, rc, me, d, o, repos, i, now)
    requires Wanted(ReconcileAll(heads, d, repos, now), repos[i].repoId)
    requires IsTag(tag) && tag in repos[i].refs && NoTags(heads, b) && heads(b).Some?
    requires Honest(again) && k < |again| && again[k].repoId == repos[i].repoId && again[k].refs == repos[i].refs
    ensures Wanted(ReconcileAll(heads, u, again, later), repos[i].repoId)
  {
    RoundIsResync(heads, validId, rc, me, d, o, repos, i, b, now, u);
    DisagreementNeverSettles(heads, d, repos, i, PathOf(rc.dir, o.id, repos[i].repoId), b, now, u, again, k, later);
  }
}
