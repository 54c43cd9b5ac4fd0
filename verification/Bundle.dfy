/**
 Bundle transfer (src/bundle/transfer.rs, src/util/mod.rs): a sender that cuts a file into 64 KiB
 chunks, and a receiver that seeks and writes them into a file of its own.
 */
module Bundle {
  import opened Common
  import opened Json
  import opened Printer
  import opened Messages
  import opened Storage
  import opened Paths
  import opened Transport

  const CHUNK := 64 * 1024

  datatype BundleMsg =
    | Request(repoId: Bytes)
    | Begin(repoId: Bytes, fileName: Bytes, totalSize: U64)      // `Start`
    | Chunk(repoId: Bytes, idx: U32, data: seq<U8>)
    | Done(repoId: Bytes)

  // ---------- encoding ----------

  function FieldsJson(m: BundleMsg): (Bytes, seq<Entry>) {
    match m
    case Request(repo) => ("Request", [("repo_id", Str(repo))])
    case Begin(repo, name, size) => ("Start", [("repo_id", Str(repo)), ("file_name", Str(name)), ("total_size", Num(size))])
    case Chunk(repo, idx, data) => ("Chunk", [("repo_id", Str(repo)), ("chunk_idx", Num(idx)), ("data", Octets(data))])
    case Done(repo) => ("Done", [("repo_id", Str(repo))])
  }

  function Encode(m: BundleMsg): Bytes {
    Print(Obj([(FieldsJson(m).0, Obj(FieldsJson(m).1))]))
  }

  lemma OctetsExact(xs: seq<U8>, ys: seq<U8>)
    requires Octets(xs) == Octets(ys)
    ensures xs == ys
  {
    forall i | 0 <= i < |xs| ensures xs[i] == ys[i] {
      assert Octets(xs).items[i] == Octets(ys).items[i];
    }
  }

  lemma TagsDiffer(m: BundleMsg, n: BundleMsg)
    requires FieldsJson(m).0 == FieldsJson(n).0
    ensures (m.Request? <==> n.Request?) && (m.Begin? <==> n.Begin?) && (m.Chunk? <==> n.Chunk?) && (m.Done? <==> n.Done?)
  {
    assert FieldsJson(m).0[0] == FieldsJson(n).0[0];
  }

  lemma EncodeInjective(m: BundleMsg, n: BundleMsg)
    requires Encode(m) == Encode(n)
    ensures m == n
  {
    var (t, xs) := FieldsJson(m);
    var (u, ys) := FieldsJson(n);
    PrintInjective(Obj([(t, Obj(xs))]), Obj([(u, Obj(ys))]));
    assert [(t, Obj(xs))][0] == [(u, Obj(ys))][0];
    TagsDiffer(m, n);
    assert xs[0] == ys[0];
    if m.Begin? { assert xs[1] == ys[1] && xs[2] == ys[2]; }
    if m.Chunk? {
      assert xs[1] == ys[1] && xs[2] == ys[2];
      OctetsExact(m.data, n.data);
    }
  }

  type Decoder = Bytes -> Option<BundleMsg>

  /** `serde_json::from_slice` reads back what `to_vec` wrote. */
  ghost predicate Decodes(decode: Decoder) {
    forall m :: decode(Encode(m)) == Some(m)
  }

  ghost function Inverse(b: Bytes): (r: Option<BundleMsg>)
    ensures r.Some? ==> Encode(r.value) == b
    ensures r.None? ==> forall m :: Encode(m) != b
  {
    if m :| Encode(m) == b then Some(m) else None
  }

  lemma InverseDecodes(m: BundleMsg)
    ensures Inverse(Encode(m)) == Some(m)
  {
    EncodeInjective(Inverse(Encode(m)).value, m);
  }

  /** Such a decoder exists, because the encoding is injective. */
  lemma DecoderExists()
    ensures exists decode :: Decodes(decode)
  {
    var decode: Decoder := b => Inverse(b);
    forall m ensures decode(Encode(m)) == Some(m) {
      InverseDecodes(m);
    }
    assert Decodes(decode);
  }

  // ---------- names and files ----------

  /** The part after the last colon: `get_repo_id_last_part` and `get_node_id_last_part`. */
  function LastPart(s: Bytes): (r: Bytes)
    ensures ':' !in r
    ensures ':' !in s ==> r == s
    ensures ':' in s ==> exists p :: s == p + ":" + r
  {
    if s == [] || ':' !in s then s
    else if ':' in s[1..] then
      var r := LastPart(s[1..]);
      var p :| s[1..] == p + ":" + r;
      assert s == ([s[0]] + p) + ":" + r;
      r
    else
      assert s[0] == ':' && s == [] + ":" + s[1..];
      s[1..]
  }

  /** Where a receiver keeps the bundle of `repo` that peer `from` sends. */
  function PathOf(dir: Bytes, from: NodeId, repo: Bytes): Bytes {
    Join(Join(dir, LastPart(from)), LastPart(repo) + ".bundle")
  }

  /** The file that path leads to. */
  function FileOf(dir: Bytes, from: NodeId, repo: Bytes): File { Resolve(PathOf(dir, from, repo)) }

  /** Where an owner writes the bundle it packs for a request. */
  function PackPath(dir: Bytes, repo: Bytes): Bytes {
    Join(dir, LastPart(repo) + ".bundle")
  }

  function Zeros(n: nat): (r: seq<U8>)
    ensures |r| == n
  {
    seq(n, i => 0)
  }

  /** Seek to `off` and write `d`: a gap before it reads as zeros, nothing is truncated. */
  function WriteAt(f: seq<U8>, off: nat, d: seq<U8>): seq<U8> {
    if d == [] then f
    else
      var g := if |f| < off then f + Zeros(off - |f|) else f;
      g[..off] + d + (if |g| > off + |d| then g[off + |d|..] else [])
  }

  // ---------- the sender ----------

  /** `slice::chunks`: how many, and which bytes. */
  function ChunkCount(b: seq<U8>): nat { (|b| + CHUNK - 1) / CHUNK }

  function ChunkEnd(b: seq<U8>, k: nat): nat { if (k + 1) * CHUNK < |b| then (k + 1) * CHUNK else |b| }

  function ChunkOf(b: seq<U8>, k: nat): seq<U8>
    requires k < ChunkCount(b)
  {
    b[k * CHUNK..ChunkEnd(b, k)]
  }

  /** The index is cast to 32 bits. */
  function ChunkMsg(repo: Bytes, b: seq<U8>, k: nat): BundleMsg
    requires k < ChunkCount(b)
  {
    Chunk(repo, k % 0x1_0000_0000, ChunkOf(b, k))
  }

  function Frame(m: BundleMsg): Bytes { DATA_PREFIX + Encode(m) }

  /** The first `n` chunk frames of a transfer to `target`. */
  function ChunkFrames(target: NodeId, repo: Bytes, b: seq<U8>, n: nat): Queue
    requires n <= ChunkCount(b)
  {
    if n == 0 then [] else ChunkFrames(target, repo, b, n - 1) + [(target, Frame(ChunkMsg(repo, b, n - 1)))]
  }

  /** Everything a transfer of `b` writes. */
  function TransferFrames(target: NodeId, repo: Bytes, fileName: Bytes, b: seq<U8>): Queue
    requires |b| < 0x1_0000_0000_0000_0000
  {
    [(target, Frame(Begin(repo, fileName, |b|)))]
    + ChunkFrames(target, repo, b, ChunkCount(b))
    + [(target, Frame(Done(repo)))]
  }

  lemma {:induction false} ChunkFramesAt(target: NodeId, repo: Bytes, b: seq<U8>, n: nat, k: nat)
    requires k < n <= ChunkCount(b)
    ensures |ChunkFrames(target, repo, b, n)| == n
    ensures ChunkFrames(target, repo, b, n)[k] == (target, Frame(ChunkMsg(repo, b, k)))
    decreases n
  {
    if k < n - 1 {
      ChunkFramesAt(target, repo, b, n - 1, k);
    } else {
      ChunkFramesCount(target, repo, b, n - 1);
    }
  }

  lemma {:induction false} ChunkFramesCount(target: NodeId, repo: Bytes, b: seq<U8>, n: nat)
    requires n <= ChunkCount(b)
    ensures |ChunkFrames(target, repo, b, n)| == n
  {
    if n > 0 { ChunkFramesCount(target, repo, b, n - 1); }
  }

  /** The frames one by one: start, chunks, done. */
  lemma TransferFramesAt(target: NodeId, repo: Bytes, fileName: Bytes, b: seq<U8>)
    requires |b| < 0x1_0000_0000_0000_0000
    ensures var frames, n := TransferFrames(target, repo, fileName, b), ChunkCount(b);
            && |frames| == n + 2 && frames[0] == (target, Frame(Begin(repo, fileName, |b|)))
            && frames[n + 1] == (target, Frame(Done(repo)))
            && forall k: nat :: k < n ==> frames[k + 1] == (target, Frame(ChunkMsg(repo, b, k)))
  {
    var n := ChunkCount(b);
    ChunkFramesCount(target, repo, b, n);
    forall k: nat | k < n
      ensures TransferFrames(target, repo, fileName, b)[k + 1] == (target, Frame(ChunkMsg(repo, b, k)))
    {
      ChunkFramesAt(target, repo, b, n, k);
    }
  }

  // ---------- the receiver ----------

  function OnBegin(d: Disk, dir: Bytes, from: NodeId, repo: Bytes): Disk {
    d.(files := d.files[FileOf(dir, from, repo) := []])
  }

  function OnChunk(d: Disk, dir: Bytes, from: NodeId, repo: Bytes, idx: U32, data: seq<U8>): Disk {
    var file := FileOf(dir, from, repo);
    d.(files := d.files[file := WriteAt(if file in d.files then d.files[file] else [], idx * CHUNK, data)])
  }

  function OnDone(d: Disk, dir: Bytes, from: NodeId, repo: Bytes, now: int): Disk {
    if FileOf(dir, from, repo) in d.files then UpdateBundle(d, repo, PathOf(dir, from, repo), now) else d
  }

  /** What git packs from a repository's path, if it can. */
  type Packer = Bytes -> Option<seq<U8>>

  /** A request is answered only for a local repository that git can pack; the bundle is written out first. */
  function Answer(pack: Packer, d: Disk, repo: Bytes): Option<seq<U8>> {
    if repo in d.repos && !d.repos[repo].isExternal then pack(d.repos[repo].path) else None
  }

  function OnRequest(pack: Packer, d: Disk, dir: Bytes, repo: Bytes): Disk {
    match Answer(pack, d, repo)
    case Some(b) => d.(files := d.files[Resolve(PackPath(dir, repo)) := b])
    case None => d
  }

  /** The transfer a request sets off. */
  function AnswerFrames(pack: Packer, d: Disk, from: NodeId, repo: Bytes): Queue {
    match Answer(pack, d, repo)
    case Some(b) => if |b| < 0x1_0000_0000_0000_0000 then TransferFrames(from, repo, BaseName(LastPart(repo) + ".bundle"), b) else []
    case None => []
  }

  /**
   A request, completely. It is answered for a local repository that git packs: the pack file then holds
   exactly the bytes of the bundle, and the frames are a transfer of those bytes under the file's own name.
   Nothing else changes; and nothing at all, and no frame, if it is not answered.
   */
  lemma RequestByValue(pack: Packer, d: Disk, dir: Bytes, from: NodeId, repo: Bytes)
    ensures var e, f := OnRequest(pack, d, dir, repo), Resolve(Join(dir, LastPart(repo) + ".bundle"));
            && e.repos == d.repos && e.refs == d.refs
            && (if repo in d.repos && !d.repos[repo].isExternal && pack(d.repos[repo].path).Some? then
                  var b := pack(d.repos[repo].path).value;
                  && f in e.files && e.files[f] == b
                  && (forall g :: g != f ==> (g in e.files <==> g in d.files) && (g in d.files ==> e.files[g] == d.files[g]))
                  && (|b| < 0x1_0000_0000_0000_0000 ==>
                        AnswerFrames(pack, d, from, repo) == TransferFrames(from, repo, BaseName(LastPart(repo) + ".bundle"), b))
                else e == d && AnswerFrames(pack, d, from, repo) == [])
  {
  }

  /** The bytes of the first `n` chunks. */
  function Joined(b: seq<U8>, n: nat): seq<U8>
    requires n <= ChunkCount(b)
  {
    if n == 0 then [] else Joined(b, n - 1) + ChunkOf(b, n - 1)
  }

  lemma {:induction false} JoinedIsFront(b: seq<U8>, n: nat)
    requires n <= ChunkCount(b)
    ensures Joined(b, n) == b[..if n * 65536 < |b| then n * 65536 else |b|]
    decreases n
  {
    if n > 0 {
      JoinedIsFront(b, n - 1);
      var from, to := (n - 1) * 65536, ChunkEnd(b, n - 1);
      assert b[..to] == b[..from] + b[from..to];
    }
  }

  /** The chunks of a bundle, by value: all of 65536 bytes but the last, which has at least one, and together the bundle. */
  lemma ChunksAreBundle(b: seq<U8>)
    ensures Joined(b, ChunkCount(b)) == b
    ensures forall k: nat :: k < ChunkCount(b) ==> 0 < |ChunkOf(b, k)| <= 65536 && (k + 1 < ChunkCount(b) ==> |ChunkOf(b, k)| == 65536)
  {
    JoinedIsFront(b, ChunkCount(b));
    assert b[..|b|] == b;
  }

  /** What a received message sends back, to whom it came from. */
  function AnswerTo(m: Option<BundleMsg>, pack: Packer, d: Disk, from: NodeId): Queue {
    match m
    case Some(Request(repo)) => AnswerFrames(pack, d, from, repo)
    case _ => []
  }

  /** Only requests are answered. */
  lemma OnlyRequestsAnswered(m: Option<BundleMsg>, pack: Packer, d: Disk, from: NodeId)
    ensures AnswerTo(m, pack, d, from) == if m.Some? && m.value.Request? then AnswerFrames(pack, d, from, m.value.repoId) else []
  {
  }

  function OnMsg(pack: Packer, d: Disk, dir: Bytes, from: NodeId, m: BundleMsg, now: int): Disk {
    match m
    case Request(repo) => OnRequest(pack, d, dir, repo)
    case Begin(repo, _, _) => OnBegin(d, dir, from, repo)
    case Chunk(repo, idx, data) => OnChunk(d, dir, from, repo, idx, data)
    case Done(repo) => OnDone(d, dir, from, repo, now)
  }

  /** The first `k` frames have gone out over a connection that had room for them. */
  ghost predicate SentSoFar(wire: Queue, now_: Connections, target: NodeId, frames: Queue, k: nat, before: Queue, cs: Connections) {
    && k <= |frames| && k <= Room(cs, target)
    && wire == before + frames[..k] && now_ == Used(cs, target, k)
  }

  class BundleTransferManager {
    const dir: Bytes
    const decode: Decoder
    const pack: Packer
    const manager: ConnectionManager
    const store: Store

    constructor (dir: Bytes, decode: Decoder, pack: Packer, manager: ConnectionManager, store: Store)
      ensures this.dir == dir && this.decode == decode && this.pack == pack
      ensures this.manager == manager && this.store == store
    {
      this.dir, this.decode, this.pack, this.manager, this.store := dir, decode, pack, manager, store;
    }

    /** Send a file to a peer, or fail at the first frame that its connection does not take. */
    method SendBundle(target: NodeId, repo: Bytes, fileName: Bytes, b: seq<U8>) returns (ok: bool)
      requires |b| < 0x1_0000_0000_0000_0000
      modifies manager`wire, manager`connections
      ensures var frames, room := TransferFrames(target, repo, fileName, b), Room(old(manager.connections), target);
              && (ok <==> |frames| <= room)
              && manager.wire == old(manager.wire) + Taken(frames, room)
              && manager.connections == Used(old(manager.connections), target, |frames|)
    {
      ghost var frames := TransferFrames(target, repo, fileName, b);
      ghost var before, cs := manager.wire, manager.connections;
      TransferFramesAt(target, repo, fileName, b);
      ok := SendNext(target, Begin(repo, fileName, |b|), frames, 0, before, cs);
      if !ok { return; }
      for k := 0 to ChunkCount(b)
        invariant SentSoFar(manager.wire, manager.connections, target, frames, k + 1, before, cs)
      {
        ok := SendNext(target, ChunkMsg(repo, b, k), frames, k + 1, before, cs);
        if !ok { return; }
      }
      ok := SendNext(target, Done(repo), frames, |frames| - 1, before, cs);
    }

    /** The next frame of a transfer. */
    method SendNext(target: NodeId, m: BundleMsg, ghost frames: Queue, ghost k: nat, ghost before: Queue, ghost cs: Connections)
      returns (ok: bool)
      requires k < |frames| && frames[k] == (target, Frame(m))
      requires SentSoFar(manager.wire, manager.connections, target, frames, k, before, cs)
      modifies manager`wire, manager`connections
      ensures ok ==> SentSoFar(manager.wire, manager.connections, target, frames, k + 1, before, cs)
      ensures !ok ==> Room(cs, target) < |frames| && manager.wire == before + Taken(frames, Room(cs, target))
                      && manager.connections == Used(cs, target, |frames|)
    {
      ok := manager.SendDataMessage(target, Encode(m));
      assert frames[..k + 1] == frames[..k] + [frames[k]];
    }

    method HandleBundleStart(from: NodeId, repo: Bytes)
      modifies store`files
      ensures store.Value() == OnBegin(old(store.Value()), dir, from, repo)
    {
      store.files := store.files[FileOf(dir, from, repo) := []];
    }

    method HandleBundleChunk(from: NodeId, repo: Bytes, idx: U32, data: seq<U8>)
      modifies store`files
      ensures store.Value() == OnChunk(old(store.Value()), dir, from, repo, idx, data)
    {
      var file := FileOf(dir, from, repo);
      if file !in store.files {
        store.files := store.files[file := []];
      }
      var offset := idx * CHUNK;
      store.files := store.files[file := WriteAt(store.files[file], offset, data)];
    }

    method HandleBundleDone(from: NodeId, repo: Bytes, now: int)
      modifies store`repos
      ensures store.Value() == OnDone(old(store.Value()), dir, from, repo, now)
    {
      if FileOf(dir, from, repo) in store.files {
        store.UpdateRepoBundle(repo, PathOf(dir, from, repo), now);
      }
    }

    method HandleBundleRequest(from: NodeId, repo: Bytes)
      modifies store`files, manager`wire, manager`connections
      ensures store.Value() == OnRequest(pack, old(store.Value()), dir, repo)
      ensures var frames := AnswerFrames(pack, old(store.Value()), from, repo);
              && manager.wire == old(manager.wire) + Taken(frames, Room(old(manager.connections), from))
              && manager.connections == Used(old(manager.connections), from, |frames|)
    {
      var found := store.LoadRepoFromDb(repo);
      if found.None? || found.value.isExternal { return; }
      var packed := pack(found.value.path);
      if packed.None? { return; }
      store.files := store.files[Resolve(PackPath(dir, repo)) := packed.value];
      if |packed.value| < 0x1_0000_0000_0000_0000 {
        BaseNameJoin(dir, LastPart(repo) + ".bundle");
        var ok := SendBundle(from, repo, BaseName(PackPath(dir, repo)), packed.value);
      }
    }

    method HandleBundleMessage(from: NodeId, payload: Bytes, now: int)
      modifies store, manager`wire, manager`connections
      ensures store.Value() ==
                match decode(payload)
                case Some(m) => OnMsg(pack, old(store.Value()), dir, from, m, now)
                case None => old(store.Value())
      ensures var frames := AnswerTo(decode(payload), pack, old(store.Value()), from);
              && manager.wire == old(manager.wire) + Taken(frames, Room(old(manager.connections), from))
              && manager.connections == Used(old(manager.connections), from, |frames|)
    {
      var msg := decode(payload);
      if msg.None? { return; }
      match msg.value
      case Request(repo) => HandleBundleRequest(from, repo);
      case Begin(repo, _, _) => HandleBundleStart(from, repo);
      case Chunk(repo, idx, data) => HandleBundleChunk(from, repo, idx, data);
      case Done(repo) => HandleBundleDone(from, repo, now);
    }
  }
}
