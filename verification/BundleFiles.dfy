/**
 Which file a bundle goes to. Repository ids come from peers and only the part after the last colon
 names the file, unchecked: ids that share it share the file, and one with `../` in it leads into
 another peer's directory. With plain names, files of different peers or names are different.
 */
module BundleFiles {
  import opened Common
  import opened Paths
  import opened Storage
  import opened Bundle
  import opened BundleRuns

  /** The last part of a peer's id is one proper name, as for all ids that `NodeId::from_string` takes. */
  predicate PlainPeer(from: NodeId) { Plain(LastPart(from)) }

  predicate PlainRepo(repo: Bytes) { '/' !in LastPart(repo) }

  lemma FileOfPlain(dir: Bytes, from: NodeId, repo: Bytes)
    requires PlainPeer(from) && PlainRepo(repo)
    ensures FileOf(dir, from, repo) == Resolve(dir) + [LastPart(from)] + [LastPart(repo) + ".bundle"]
  {
    BundleNamePlain(LastPart(repo));
    ResolveJoinPlain(dir, LastPart(from));
    ResolveJoinPlain(Join(dir, LastPart(from)), LastPart(repo) + ".bundle");
  }

  lemma BundleNamePlain(name: Bytes)
    requires '/' !in name
    ensures Plain(name + ".bundle")
  {
    assert |name + ".bundle"| >= 7;
  }

  lemma SuffixInjective(a: Bytes, b: Bytes)
    ensures a + ".bundle" == b + ".bundle" <==> a == b
  {
    if a + ".bundle" == b + ".bundle" {
      assert |a| == |b|;
      assert a == (a + ".bundle")[..|a|] == (b + ".bundle")[..|b|] == b;
    }
  }

  /** For plain names: one file, and one path, exactly if the last parts of both peer and repository agree. */
  lemma SameFileExactly(dir: Bytes, f: NodeId, r: Bytes, g: NodeId, q: Bytes)
    requires PlainPeer(f) && PlainPeer(g) && PlainRepo(r) && PlainRepo(q)
    ensures FileOf(dir, f, r) == FileOf(dir, g, q) <==> LastPart(f) == LastPart(g) && LastPart(r) == LastPart(q)
    ensures PathOf(dir, f, r) == PathOf(dir, g, q) <==> LastPart(f) == LastPart(g) && LastPart(r) == LastPart(q)
  {
    FileOfPlain(dir, f, r);
    FileOfPlain(dir, g, q);
    SuffixInjective(LastPart(r), LastPart(q));
    var n := |Resolve(dir)|;
    if FileOf(dir, f, r) == FileOf(dir, g, q) {
      assert FileOf(dir, f, r)[n] == LastPart(f) && FileOf(dir, g, q)[n] == LastPart(g);
      assert FileOf(dir, f, r)[n + 1] == LastPart(r) + ".bundle" && FileOf(dir, g, q)[n + 1] == LastPart(q) + ".bundle";
    }
  }

  // ---------- collisions ----------

  lemma {:induction false} LastPartOf(p: Bytes, x: Bytes)
    requires ':' !in x
    ensures LastPart(p + ":" + x) == x
    decreases |p|
  {
    var s := p + ":" + x;
    if p == "" {
      assert s == [':'] + x && s[1..] == x;
    } else {
      assert s[1..] == p[1..] + ":" + x;
      assert s[1..][|p| - 1] == ':' && ':' in s;
      LastPartOf(p[1..], x);
    }
  }

  /** Two ids that end alike: a start of one empties the other's file. */
  lemma StartHitsNamesake(r: Receiver, d: Disk, s: Stream, p: Bytes, q: Bytes, x: Bytes)
    requires ':' !in x
    requires Meaning(r, s.bytes).Some? && Meaning(r, s.bytes).value.Begin? && Meaning(r, s.bytes).value.repoId == p + ":" + x
    ensures PathOf(r.dir, s.from, p + ":" + x) == PathOf(r.dir, s.from, q + ":" + x)
    ensures Started(OnStream(r, d, s), FileOf(r.dir, s.from, q + ":" + x))
  {
    LastPartOf(p, x);
    LastPartOf(q, x);
    BeginStarts(r, d, s, p + ":" + x);
  }

  // ---------- traversal ----------

  function Climbing(peer: Bytes, x: Bytes): Bytes { "did:repo:../" + peer + "/" + x }

  lemma ClimbingLastPart(peer: Bytes, x: Bytes)
    requires ':' !in peer && ':' !in x
    ensures LastPart(Climbing(peer, x)) == "../" + peer + "/" + x
  {
    assert Climbing(peer, x) == "did:repo" + ":" + ("../" + peer + "/" + x);
    LastPartOf("did:repo", "../" + peer + "/" + x);
  }

  /** From a directory one level down, the climbing path leads to the neighbour's file. */
  lemma ClimbingFollowed(at: File, here: Bytes, peer: Bytes, name: Bytes)
    requires Plain(peer) && Plain(name)
    ensures Follow(at + [here], "", "../" + peer + "/" + name) == at + [peer] + [name]
  {
    var rest := peer + "/" + name;
    assert "../" + peer + "/" + name == ".." + "/" + rest;
    FollowAppend(at + [here], "", "..", rest);
    FollowName(at + [here], "", "..");
    assert "" + ".." == ".." && (at + [here])[..|at|] == at;
    FollowAppend(at, "", peer, name);
    FollowName(at, "", peer);
    assert "" + peer == peer;
    FollowName(at + [peer], "", name);
    assert "" + name == name;
  }

  /** A peer's repository id that climbs out of the peer's directory names the file of another peer's repository. */
  lemma ClimbingSharesFile(dir: Bytes, here: Bytes, peer: Bytes, x: Bytes)
    requires Plain(here) && Plain(peer) && ':' !in here && ':' !in peer && ':' !in x && '/' !in x
    ensures FileOf(dir, "did:key:" + here, Climbing(peer, x)) == FileOf(dir, "did:key:" + peer, "did:repo:" + x)
  {
    LastPartOfIds(here, x);
    LastPartOfIds(peer, x);
    FileOfPlain(dir, "did:key:" + peer, "did:repo:" + x);
    ClimbingLastPart(peer, x);
    ClimbingResolved(dir, here, peer, x);
  }

  lemma LastPartOfIds(peer: Bytes, x: Bytes)
    requires ':' !in peer && ':' !in x
    ensures LastPart("did:key:" + peer) == peer && LastPart("did:repo:" + x) == x
  {
    LastPartOf("did:key", peer);
    LastPartOf("did:repo", x);
    assert "did:key:" + peer == "did:key" + ":" + peer && "did:repo:" + x == "did:repo" + ":" + x;
  }

  lemma ClimbingResolved(dir: Bytes, here: Bytes, peer: Bytes, x: Bytes)
    requires Plain(here) && Plain(peer) && '/' !in x
    ensures Resolve(Join(Join(dir, here), "../" + peer + "/" + x + ".bundle")) == Resolve(dir) + [peer] + [x + ".bundle"]
  {
    var name := x + ".bundle";
    BundleNamePlain(x);
    assert "../" + peer + "/" + x + ".bundle" == "../" + peer + "/" + name;
    ResolveJoinPlain(dir, here);
    ResolveJoin(Join(dir, here), "../" + peer + "/" + name);
    ClimbingFollowed(Resolve(dir), here, peer, name);
  }

  /** So a start with such an id, from any connected peer, empties that file, and is no undisturbing stream for it. */
  lemma ClimbingDisturbs(r: Receiver, d: Disk, here: Bytes, peer: Bytes, x: Bytes, b: seq<U8>, s: Stream)
    requires Plain(here) && Plain(peer) && ':' !in here && ':' !in peer && ':' !in x && '/' !in x
    requires s.from == "did:key:" + here
    requires Meaning(r, s.bytes).Some? && Meaning(r, s.bytes).value.Begin? && Meaning(r, s.bytes).value.repoId == Climbing(peer, x)
    ensures var victim := FileOf(r.dir, "did:key:" + peer, "did:repo:" + x);
            Started(OnStream(r, d, s), victim) && !Undisturbing(r, victim, b, s)
  {
    ClimbingSharesFile(r.dir, here, peer, x);
    BeginStarts(r, d, s, Climbing(peer, x));
  }

  /** A chunk with such an id is written into that file. */
  lemma ClimbingChunkWrites(r: Receiver, d: Disk, here: Bytes, peer: Bytes, x: Bytes, s: Stream, victim: File)
    requires Plain(here) && Plain(peer) && ':' !in here && ':' !in peer && ':' !in x && '/' !in x
    requires s.from == "did:key:" + here && victim == FileOf(r.dir, "did:key:" + peer, "did:repo:" + x)
    requires Meaning(r, s.bytes).Some? && Meaning(r, s.bytes).value.Chunk? && Meaning(r, s.bytes).value.repoId == Climbing(peer, x)
    ensures Written(d, OnStream(r, d, s), victim, Meaning(r, s.bytes).value)
  {
    ClimbingSharesFile(r.dir, here, peer, x);
    ChunkWrites(r, d, s, victim);
  }

  /** The data of a chunk message has been written to `f` at the chunk's place. */
  ghost predicate Written(d: Disk, e: Disk, f: File, m: BundleMsg)
    requires m.Chunk?
  {
    f in e.files && e.files[f] == WriteAt(if f in d.files then d.files[f] else [], m.idx * CHUNK, m.data)
  }

  lemma ChunkWrites(r: Receiver, d: Disk, s: Stream, f: File)
    requires Meaning(r, s.bytes).Some? && Meaning(r, s.bytes).value.Chunk?
    requires FileOf(r.dir, s.from, Meaning(r, s.bytes).value.repoId) == f
    ensures Written(d, OnStream(r, d, s), f, Meaning(r, s.bytes).value)
  {
  }

  /**
   With plain names on both sides, streams of other peers or for other names disturb no transfer: what
   `BundleRuns.BundleReassembled` asks of the streams in between comes down to names.
   */
  lemma OthersDoNotDisturb(r: Receiver, from: NodeId, repo: Bytes, b: seq<U8>, s: Stream)
    requires PlainPeer(from) && PlainRepo(repo) && PlainPeer(s.from)
    requires Meaning(r, s.bytes).Some? ==> PlainRepo(Meaning(r, s.bytes).value.repoId)
    requires Meaning(r, s.bytes).Some? ==>
               LastPart(s.from) != LastPart(from) || LastPart(Meaning(r, s.bytes).value.repoId) != LastPart(repo)
    ensures Undisturbing(r, FileOf(r.dir, from, repo), b, s)
  {
    if Meaning(r, s.bytes).Some? {
      var m := Meaning(r, s.bytes).value;
      SameFileExactly(r.dir, s.from, m.repoId, from, repo);
      PackElsewhere(r.dir, from, repo, m.repoId);
    }
  }

  /** An owner's own packed bundle lies one level above all received ones. */
  lemma PackElsewhere(dir: Bytes, from: NodeId, repo: Bytes, packed: Bytes)
    requires PlainPeer(from) && PlainRepo(repo) && PlainRepo(packed)
    ensures Resolve(PackPath(dir, packed)) != FileOf(dir, from, repo)
  {
    FileOfPlain(dir, from, repo);
    BundleNamePlain(LastPart(packed));
    ResolveJoinPlain(dir, LastPart(packed) + ".bundle");
    assert |Resolve(PackPath(dir, packed))| == |Resolve(dir)| + 1;
  }

  // ---------- what streams change in the tables ----------

  /** A stream changes at most the bundle field and update time of one repository, and only as a done message for it. */
  lemma StreamsTouchBundlesOnly(r: Receiver, d: Disk, s: Stream, id: Bytes)
    ensures OnStream(r, d, s).refs == d.refs && OnStream(r, d, s).repos.Keys == d.repos.Keys
    ensures id in d.repos ==>
              var e := OnStream(r, d, s);
              if Meaning(r, s.bytes) == Some(Done(id)) && FileOf(r.dir, s.from, id) in d.files
              then e.repos[id] == d.repos[id].(bundle := PathOf(r.dir, s.from, id), updatedAt := s.now)
              else e.repos[id] == d.repos[id]
  {
    if Meaning(r, s.bytes).Some? {
      MessagesTouchBundlesOnly(r.pack, d, r.dir, s.from, Meaning(r, s.bytes).value, s.now, id);
    }
  }

  lemma MessagesTouchBundlesOnly(pack: Packer, d: Disk, dir: Bytes, from: NodeId, m: BundleMsg, now: int, id: Bytes)
    ensures OnMsg(pack, d, dir, from, m, now).refs == d.refs && OnMsg(pack, d, dir, from, m, now).repos.Keys == d.repos.Keys
    ensures id in d.repos ==>
              var e := OnMsg(pack, d, dir, from, m, now);
              if m == Done(id) && FileOf(dir, from, id) in d.files
              then e.repos[id] == d.repos[id].(bundle := PathOf(dir, from, id), updatedAt := now)
              else e.repos[id] == d.repos[id]
  {
  }

  /** That includes local repositories: any peer's start and done for one set its bundle field. */
  lemma DoneSetsLocalBundle(r: Receiver, d: Disk, start: Stream, done: Stream, id: Bytes)
    requires id in d.repos && !d.repos[id].isExternal && start.from == done.from
    requires Meaning(r, start.bytes).Some? && Meaning(r, start.bytes).value.Begin? && Meaning(r, start.bytes).value.repoId == id
    requires Meaning(r, done.bytes) == Some(Done(id))
    ensures var e := OnStream(r, OnStream(r, d, start), done);
            e.repos[id] == d.repos[id].(bundle := PathOf(r.dir, done.from, id), updatedAt := done.now) && e.refs == d.refs
  {
    BeginStarts(r, d, start, id);
  }
}
