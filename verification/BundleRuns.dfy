/**
 Bundle transfer end to end. Whatever else arrives in between, the chunk frames of a transfer, in
 any order and with repeats, leave the receiver's file byte for byte equal to the bundle; and every
 chunk frame fits the receiver's bounded read.
 */
module BundleRuns {
  import opened Common
  import opened Json
  import opened Printer
  import opened Messages
  import opened Storage
  import opened Paths
  import opened Transport
  import opened Bundle

  // ---------- writing at an offset ----------

  lemma WriteAtBytes(f: seq<U8>, off: nat, d: seq<U8>, i: nat)
    ensures d != [] ==> |WriteAt(f, off, d)| == if |f| > off + |d| then |f| else off + |d|
    ensures d == [] ==> WriteAt(f, off, d) == f
    ensures off <= i < off + |d| ==> WriteAt(f, off, d)[i] == d[i - off]
    ensures d != [] && |f| <= i < off ==> WriteAt(f, off, d)[i] == 0
    ensures i < |f| && !(off <= i < off + |d|) ==> i < |WriteAt(f, off, d)| && WriteAt(f, off, d)[i] == f[i]
  {
  }

  // ---------- what a stream means to the receiver ----------

  /** What a receiver is configured with; its data receiver is registered. */
  datatype Receiver = Receiver(decode: Decoder, gossipUp: bool, pack: Packer, dir: Bytes)

  datatype Stream = Stream(from: NodeId, bytes: Bytes, now: int)

  /** The bundle message a stream carries, if it reaches the bundle receiver and parses. */
  function Meaning(r: Receiver, bytes: Bytes): Option<BundleMsg> {
    match Route(bytes, true, r.gossipUp)
    case ToData(payload) => r.decode(payload)
    case _ => None
  }

  function OnStream(r: Receiver, d: Disk, s: Stream): Disk {
    match Meaning(r, s.bytes)
    case Some(m) => OnMsg(r.pack, d, r.dir, s.from, m, s.now)
    case None => d
  }

  function OnStreams(r: Receiver, d: Disk, ss: seq<Stream>): Disk
    decreases |ss|
  {
    if ss == [] then d else OnStream(r, OnStreams(r, d, ss[..|ss| - 1]), ss[|ss| - 1])
  }

  /** A frame that fits the bounded read carries its message. */
  lemma FrameMeans(r: Receiver, m: BundleMsg)
    requires Decodes(r.decode) && |Frame(m)| <= READ_BUF_SIZE
    ensures Meaning(r, Frame(m)) == Some(m)
  {
    PrefixStripped(DATA_PREFIX, Encode(m));
  }

  /** The receive loop and the bundle handler together do to the disk what the stream means. */
  method ReceiveStream(btm: BundleTransferManager, s: Stream)
    requires btm.manager.dataUp && btm.manager.dataQueue == []
    modifies btm.manager, btm.store
    ensures btm.store.Value()
         == OnStream(Receiver(btm.decode, old(btm.manager.gossipUp), btm.pack, btm.dir), old(btm.store.Value()), s)
  {
    btm.manager.HandleStream(s.from, s.bytes);
    if btm.manager.dataQueue != [] {
      var (from, payload) := btm.manager.dataQueue[0];
      btm.manager.dataQueue := btm.manager.dataQueue[1..];
      btm.HandleBundleMessage(from, payload, s.now);
    }
  }

  // ---------- chunk frames fit ----------

  /** A length of repository ids for which every chunk frame is sure to fit. */
  const MAX_REPO_ID := 131061

  lemma {:induction false} DigitsOf(n: nat, k: nat, bound: nat)
    requires n < bound && bound == Tens(k) && k > 0
    ensures |PrintNat(n)| <= k
    decreases k
  {
    if k == 1 {
      assert Tens(1) == 10 * Tens(0);
    } else if n >= 10 {
      DigitsOf(n / 10, k - 1, Tens(k - 1));
    }
  }

  function Tens(k: nat): nat { if k == 0 then 1 else 10 * Tens(k - 1) }

  lemma OctetDigits(x: U8)
    ensures |Print(Num(x))| <= 3
  {
    assert Tens(3) == 1000 by { assert Tens(1) == 10; assert Tens(2) == 100; }
    DigitsOf(x, 3, 1000);
  }

  lemma IndexDigits(x: U32)
    ensures |Print(Num(x))| <= 10
  {
    assert Tens(2) == 100 by { assert Tens(1) == 10; }
    assert Tens(4) == 10000 by { assert Tens(3) == 1000; }
    assert Tens(6) == 1000000 by { assert Tens(5) == 100000; }
    assert Tens(8) == 100000000 by { assert Tens(7) == 10000000; }
    assert Tens(10) == 10000000000 by { assert Tens(9) == 1000000000; }
    DigitsOf(x, 10, 10000000000);
  }

  lemma {:induction false} PrintedOctets(items: seq<Value>)
    requires forall i :: 0 <= i < |items| ==> items[i].Num? && 0 <= items[i].n < 256
    ensures |PrintItems(items)| <= 4 * |items|
    decreases |items|
  {
    if items != [] {
      OctetDigits(items[0].n);
      PrintedOctets(items[1..]);
    }
  }

  lemma {:induction false} EscapedLength(s: Bytes)
    ensures |Escape(s)| <= 6 * |s|
  {
    if s != [] { EscapedLength(s[1..]); }
  }

  lemma ThreeEntries(a: Entry, b: Entry, c: Entry)
    ensures |PrintEntries([a, b, c])| == |PrintEntry(a)| + |PrintEntry(b)| + |PrintEntry(c)| + 2
  {
    assert [a, b, c][1..] == [b, c] && [b, c][1..] == [c];
    assert PrintEntries([c]) == PrintEntry(c);
    assert PrintEntries([b, c]) == PrintEntry(b) + ("," + PrintEntries([c]));
    assert PrintEntries([a, b, c]) == PrintEntry(a) + ("," + PrintEntries([b, c]));
  }

  lemma PlainLength(s: Bytes)
    requires forall c :: c in s ==> ' ' <= c && c != '\"' && c != '\\'
    ensures |PrintStr(s)| == |s| + 2
  {
    if s != [] {
      assert s[0] in s && forall c :: c in s[1..] ==> c in s;
      PlainLength(s[1..]);
      assert |PrintStr(s[1..])| == |Escape(s[1..])| + 2;
    }
  }

  lemma EntryLength(name: Bytes, v: Value)
    requires forall c :: c in name ==> ' ' <= c && c != '\"' && c != '\\'
    ensures |PrintEntry((name, v))| == |name| + 3 + |Print(v)|
  {
    PlainLength(name);
  }

  /** A printed entry with a plain name and a string for its value. */
  lemma StrEntryLength(name: Bytes, s: Bytes)
    requires forall c :: c in name ==> ' ' <= c && c != '\"' && c != '\\'
    ensures |PrintEntry((name, Str(s)))| <= |name| + 5 + 6 * |s|
  {
    EntryLength(name, Str(s));
    EscapedLength(s);
  }

  lemma RepoIdLength(repo: Bytes)
    ensures |PrintEntry(("repo_id", Str(repo)))| <= 12 + 6 * |repo|
  {
    StrEntryLength("repo_id", repo);
  }

  lemma IndexLength(idx: U32)
    ensures |PrintEntry(("chunk_idx", Num(idx)))| <= 22
  {
    EntryLength("chunk_idx", Num(idx));
    IndexDigits(idx);
  }

  lemma DataLength(data: seq<U8>)
    ensures |PrintEntry(("data", Octets(data)))| <= 9 + 4 * |data|
  {
    EntryLength("data", Octets(data));
    PrintedOctets(Octets(data).items);
  }

  /** Every chunk frame fits the receiver's read buffer, whatever the bytes, for repository ids of up to 131061 bytes. */
  lemma ChunkFrameFits(repo: Bytes, idx: U32, data: seq<U8>)
    requires |data| <= CHUNK && |repo| <= MAX_REPO_ID
    ensures |Frame(Chunk(repo, idx, data))| <= READ_BUF_SIZE
  {
    ChunkEntriesFit(repo, idx, data);
    PlainLength("Chunk");
    TaggedLength("Chunk", FieldsJson(Chunk(repo, idx, data)).1);
  }

  lemma ChunkEntriesFit(repo: Bytes, idx: U32, data: seq<U8>)
    requires |data| <= CHUNK && |repo| <= MAX_REPO_ID
    ensures |PrintEntries(FieldsJson(Chunk(repo, idx, data)).1)| <= READ_BUF_SIZE - 17
  {
    RepoIdLength(repo);
    IndexLength(idx);
    DataLength(data);
    ThreeEntries(("repo_id", Str(repo)), ("chunk_idx", Num(idx)), ("data", Octets(data)));
  }

  /** So does every frame that ends a transfer. */
  lemma DoneFrameFits(repo: Bytes)
    requires |repo| <= MAX_REPO_ID
    ensures |Frame(Done(repo))| <= READ_BUF_SIZE
  {
    RepoOnlyLength("Done", repo);
  }

  /** A message that has a repository id for its only field. */
  lemma RepoOnlyLength(tag: Bytes, repo: Bytes)
    requires |repo| <= MAX_REPO_ID && |tag| <= 10
    requires forall c :: c in tag ==> ' ' <= c && c != '\"' && c != '\\'
    ensures |Print(Obj([(tag, Obj([("repo_id", Str(repo))]))]))| <= READ_BUF_SIZE - 5
  {
    var e := ("repo_id", Str(repo));
    RepoIdLength(repo);
    PlainLength(tag);
    OneEntry(e);
    TaggedLength(tag, [e]);
  }

  lemma OneEntry(a: Entry)
    ensures PrintEntries([a]) == PrintEntry(a)
  {
  }

  lemma TaggedLength(tag: Bytes, xs: seq<Entry>)
    ensures |Print(Obj([(tag, Obj(xs))]))| == |PrintStr(tag)| + |PrintEntries(xs)| + 5
  {
    var e := (tag, Obj(xs));
    assert |Print(Obj(xs))| == |PrintEntries(xs)| + 2;
    assert PrintEntries([e]) == PrintEntry(e);
  }

  // ---------- reassembly ----------

  /** The file a message starts over or writes to. */
  function Target(dir: Bytes, from: NodeId, m: BundleMsg): Option<File> {
    match m
    case Begin(repo, _, _) => Some(FileOf(dir, from, repo))
    case Chunk(repo, _, _) => Some(FileOf(dir, from, repo))
    case Request(repo) => Some(Resolve(PackPath(dir, repo)))
    case Done(_) => None
  }

  /** `m`, from `from`, is the chunk of `b` with its index, for the file at `file`. */
  predicate IsChunk(dir: Bytes, file: File, b: seq<U8>, from: NodeId, m: BundleMsg) {
    && m.Chunk? && FileOf(dir, from, m.repoId) == file
    && m.idx < ChunkCount(b) && m.data == ChunkOf(b, m.idx)
  }

  /** A stream that writes nothing to `file`, unless it is a chunk of `b`. */
  predicate Undisturbing(r: Receiver, file: File, b: seq<U8>, s: Stream) {
    match Meaning(r, s.bytes)
    case Some(m) => Target(r.dir, s.from, m) == Some(file) ==> IsChunk(r.dir, file, b, s.from, m)
    case None => true
  }

  /** The chunks of `b` that a stream brings: one or none. */
  function Brings(r: Receiver, file: File, b: seq<U8>, s: Stream): set<nat> {
    match Meaning(r, s.bytes)
    case Some(m) => if IsChunk(r.dir, file, b, s.from, m) then {m.idx} else {}
    case None => {}
  }

  function Got(r: Receiver, file: File, b: seq<U8>, ss: seq<Stream>): set<nat>
    decreases |ss|
  {
    if ss == [] then {} else Got(r, file, b, ss[..|ss| - 1]) + Brings(r, file, b, ss[|ss| - 1])
  }

  /** The file holds part of `b`: no longer than it, and right wherever a chunk in `got` reaches. */
  ghost predicate Partial(files: Files, file: File, b: seq<U8>, got: set<nat>) {
    && file in files && |files[file]| <= |b|
    && forall i: nat :: i < |b| && i / CHUNK in got ==> i < |files[file]| && files[file][i] == b[i]
  }

  lemma ChunkRange(b: seq<U8>, k: nat, i: nat)
    requires k < ChunkCount(b) && i < |b|
    ensures i / CHUNK == k <==> k * CHUNK <= i < k * CHUNK + |ChunkOf(b, k)|
    ensures i / CHUNK == k ==> ChunkOf(b, k)[i - k * CHUNK] == b[i]
  {
  }

  lemma ChunkNonempty(b: seq<U8>, k: nat)
    requires k < ChunkCount(b)
    ensures b != [] && ChunkOf(b, k) != [] && k * CHUNK + |ChunkOf(b, k)| <= |b|
  {
  }

  lemma ChunkWritten(files: Files, file: File, b: seq<U8>, got: set<nat>, k: nat)
    requires Partial(files, file, b, got) && k < ChunkCount(b)
    ensures Partial(files[file := WriteAt(files[file], k * CHUNK, ChunkOf(b, k))], file, b, got + {k})
  {
    var f := files[file];
    var g := WriteAt(f, k * CHUNK, ChunkOf(b, k));
    ChunkNonempty(b, k);
    WriteAtBytes(f, k * CHUNK, ChunkOf(b, k), 0);
    forall i: nat | i < |b| && i / CHUNK in got + {k}
      ensures i < |g| && g[i] == b[i]
    {
      ChunkRange(b, k, i);
      WriteAtBytes(f, k * CHUNK, ChunkOf(b, k), i);
    }
  }

  lemma StreamKeepsPartial(r: Receiver, file: File, b: seq<U8>, d: Disk, s: Stream, got: set<nat>)
    requires Partial(d.files, file, b, got) && Undisturbing(r, file, b, s)
    ensures Partial(OnStream(r, d, s).files, file, b, got + Brings(r, file, b, s))
  {
    match Meaning(r, s.bytes)
    case Some(m) =>
      if IsChunk(r.dir, file, b, s.from, m) {
        ChunkWritten(d.files, file, b, got, m.idx);
      } else {
        assert got + {} == got;
      }
    case None => assert got + {} == got;
  }

  lemma {:induction false} StreamsKeepPartial(r: Receiver, file: File, b: seq<U8>, d: Disk, ss: seq<Stream>)
    requires Partial(d.files, file, b, {})
    requires forall i :: 0 <= i < |ss| ==> Undisturbing(r, file, b, ss[i])
    ensures Partial(OnStreams(r, d, ss).files, file, b, Got(r, file, b, ss))
    decreases |ss|
  {
    if ss != [] {
      var n := |ss| - 1;
      StreamsKeepPartial(r, file, b, d, ss[..n]);
      StreamKeepsPartial(r, file, b, OnStreams(r, d, ss[..n]), ss[n], Got(r, file, b, ss[..n]));
    }
  }

  lemma {:induction false} GotContains(r: Receiver, file: File, b: seq<U8>, ss: seq<Stream>, i: nat)
    requires i < |ss|
    ensures Brings(r, file, b, ss[i]) <= Got(r, file, b, ss)
    decreases |ss|
  {
    if i < |ss| - 1 {
      GotContains(r, file, b, ss[..|ss| - 1], i);
    }
  }

  /** A file with every chunk is the bundle. */
  lemma PartialComplete(files: Files, file: File, b: seq<U8>, got: set<nat>)
    requires Partial(files, file, b, got) && forall k: nat :: k < ChunkCount(b) ==> k in got
    ensures files[file] == b
  {
    forall i: nat | i < |b|
      ensures i < |files[file]| && files[file][i] == b[i]
    {
      var k: nat := i / CHUNK;
      assert k < ChunkCount(b) && k in got;
    }
    if b != [] {
      var last: nat := |b| - 1;
      var k: nat := last / CHUNK;
      assert k < ChunkCount(b) && k in got;
      assert last < |files[file]|;
    }
  }

  /** A frame of the sender's that carries chunk `k`, for a receiver that keeps `repo` from `from` at `file`. */
  lemma ChunkFrameBrings(r: Receiver, file: File, b: seq<U8>, from: NodeId, repo: Bytes, k: nat, now: int)
    requires Decodes(r.decode) && |repo| <= MAX_REPO_ID && FileOf(r.dir, from, repo) == file
    requires k < ChunkCount(b) <= 0x1_0000_0000
    ensures var s := Stream(from, Frame(ChunkMsg(repo, b, k)), now);
            Undisturbing(r, file, b, s) && Brings(r, file, b, s) == {k}
  {
    ChunkFrameFits(repo, k, ChunkOf(b, k));
    FrameMeans(r, ChunkMsg(repo, b, k));
  }

  ghost predicate SentIn(from: NodeId, frame: Bytes, ss: seq<Stream>) {
    exists i :: 0 <= i < |ss| && ss[i].from == from && ss[i].bytes == frame
  }

  /** Every chunk frame of the sender is among the streams. */
  ghost predicate AllSent(from: NodeId, repo: Bytes, b: seq<U8>, ss: seq<Stream>) {
    forall k: nat :: k < ChunkCount(b) ==> SentIn(from, Frame(ChunkMsg(repo, b, k)), ss)
  }

  lemma AllSentIsGot(r: Receiver, from: NodeId, repo: Bytes, b: seq<U8>, ss: seq<Stream>, k: nat)
    requires Decodes(r.decode) && |repo| <= MAX_REPO_ID && ChunkCount(b) <= 0x1_0000_0000
    requires AllSent(from, repo, b, ss) && k < ChunkCount(b)
    ensures k in Got(r, FileOf(r.dir, from, repo), b, ss)
  {
    var file := FileOf(r.dir, from, repo);
    assert SentIn(from, Frame(ChunkMsg(repo, b, k)), ss);
    var i :| 0 <= i < |ss| && ss[i].from == from && ss[i].bytes == Frame(ChunkMsg(repo, b, k));
    ChunkFrameBrings(r, file, b, from, repo, k, ss[i].now);
    GotContains(r, file, b, ss, i);
  }

  /** The file has been started and is empty. */
  ghost predicate Started(d: Disk, file: File) {
    file in d.files && d.files[file] == []
  }

  lemma BeginStarts(r: Receiver, d: Disk, start: Stream, repo: Bytes)
    requires Meaning(r, start.bytes).Some? && Meaning(r, start.bytes).value.Begin?
    requires Meaning(r, start.bytes).value.repoId == repo
    ensures Started(OnStream(r, d, start), FileOf(r.dir, start.from, repo))
  {
  }

  /**
   Reassembly. Once the file has been started, whatever it held before, receive streams of which each
   either writes elsewhere or is a chunk of `b`, in any order and with repeats. When every chunk
   frame of the sender has arrived, the file equals `b`.
   */
  lemma BundleReassembled(r: Receiver, d: Disk, from: NodeId, repo: Bytes, b: seq<U8>, ss: seq<Stream>)
    requires Decodes(r.decode) && |repo| <= MAX_REPO_ID && ChunkCount(b) <= 0x1_0000_0000
    requires Started(d, FileOf(r.dir, from, repo)) && AllSent(from, repo, b, ss)
    requires forall i :: 0 <= i < |ss| ==> Undisturbing(r, FileOf(r.dir, from, repo), b, ss[i])
    ensures var file, e := FileOf(r.dir, from, repo), OnStreams(r, d, ss);
            file in e.files && e.files[file] == b
  {
    var file := FileOf(r.dir, from, repo);
    StreamsKeepPartial(r, file, b, d, ss);
    forall k: nat | k < ChunkCount(b) ensures k in Got(r, file, b, ss) {
      AllSentIsGot(r, from, repo, b, ss, k);
    }
    PartialComplete(OnStreams(r, d, ss).files, file, b, Got(r, file, b, ss));
  }

  // ---------- the sender's own frames are such a transfer ----------

  /** What a receiver gets of a transfer, in order. */
  function Arriving(from: NodeId, frames: Queue, now: int): seq<Stream> {
    seq(|frames|, i requires 0 <= i < |frames| => Stream(from, frames[i].1, now))
  }

  /** `b` is in the file `path` leads to, the bundle field of `repo` names it, and the tables are otherwise as before. */
  ghost predicate Received(d: Disk, e: Disk, repo: Bytes, path: Bytes, b: seq<U8>, now: int) {
    && Resolve(path) in e.files && e.files[Resolve(path)] == b
    && e.repos == UpdateBundle(d, repo, path, now).repos && e.refs == d.refs
  }

  /** A transfer that the receiver can read: a decoder, and names and sizes that keep every frame within the bounded read. */
  ghost predicate Readable(r: Receiver, repo: Bytes, name: Bytes, b: seq<U8>) {
    && Decodes(r.decode) && |repo| <= MAX_REPO_ID && ChunkCount(b) <= 0x1_0000_0000
    && |Frame(Begin(repo, name, |b|))| <= READ_BUF_SIZE
  }

  /** The streams of a transfer mean a start, chunks of `b`, and a done. */
  ghost predicate IsTransfer(r: Receiver, from: NodeId, repo: Bytes, b: seq<U8>, start: Stream, chunks: seq<Stream>, done: Stream) {
    && start.from == from && Meaning(r, start.bytes).Some? && Meaning(r, start.bytes).value.Begin?
    && Meaning(r, start.bytes).value.repoId == repo
    && done.from == from && Meaning(r, done.bytes) == Some(Done(repo))
    && AllSent(from, repo, b, chunks)
    && (forall i :: 0 <= i < |chunks| ==> Undisturbing(r, FileOf(r.dir, from, repo), b, chunks[i]))
    && (forall i :: 0 <= i < |chunks| ==> Meaning(r, chunks[i].bytes).Some? && Meaning(r, chunks[i].bytes).value.Chunk?)
  }

  /** Framing and routing: the frames of a readable transfer arrive as what they are. */
  lemma FramesArrive(r: Receiver, from: NodeId, target: NodeId, repo: Bytes, name: Bytes, b: seq<U8>, now: int)
    returns (start: Stream, chunks: seq<Stream>, done: Stream)
    requires Readable(r, repo, name, b)
    ensures Arriving(from, TransferFrames(target, repo, name, b), now) == [start] + chunks + [done]
    ensures IsTransfer(r, from, repo, b, start, chunks, done) && done.now == now
  {
    start, done := Stream(from, Frame(Begin(repo, name, |b|)), now), Stream(from, Frame(Done(repo)), now);
    chunks := Arriving(from, ChunkFrames(target, repo, b, ChunkCount(b)), now);
    ArrivingSplit(from, (target, Frame(Begin(repo, name, |b|))), ChunkFrames(target, repo, b, ChunkCount(b)),
                  (target, Frame(Done(repo))), now);
    FrameMeans(r, Begin(repo, name, |b|));
    DoneFrameMeans(r, repo);
    ChunksArrive(r, from, target, repo, b, now);
  }

  lemma ArrivingSplit(from: NodeId, first: (NodeId, Bytes), frames: Queue, last: (NodeId, Bytes), now: int)
    ensures Arriving(from, [first] + frames + [last], now)
         == [Stream(from, first.1, now)] + Arriving(from, frames, now) + [Stream(from, last.1, now)]
  {
  }

  lemma DoneFrameMeans(r: Receiver, repo: Bytes)
    requires Decodes(r.decode) && |repo| <= MAX_REPO_ID
    ensures Meaning(r, Frame(Done(repo))) == Some(Done(repo))
  {
    DoneFrameFits(repo);
    FrameMeans(r, Done(repo));
  }

  /** Reassembly: streams that mean a transfer leave the file, the bundle field set, and nothing else in the tables changed. */
  lemma TransferReceived(r: Receiver, d: Disk, from: NodeId, repo: Bytes, b: seq<U8>, start: Stream, chunks: seq<Stream>, done: Stream)
    requires Decodes(r.decode) && |repo| <= MAX_REPO_ID && ChunkCount(b) <= 0x1_0000_0000
    requires IsTransfer(r, from, repo, b, start, chunks, done)
    ensures Received(d, OnStreams(r, d, [start] + chunks + [done]), repo, PathOf(r.dir, from, repo), b, done.now)
  {
    StreamsSplit(r, d, start, chunks, done);
    BeginStarts(r, d, start, repo);
    var e := OnStream(r, d, start);
    BundleReassembled(r, e, from, repo, b, chunks);
    ChunksKeepTables(r, e, chunks);
    DoneCloses(r, d, OnStreams(r, e, chunks), repo, b, done);
  }

  /** A done message for a complete file. */
  lemma DoneCloses(r: Receiver, d: Disk, e: Disk, repo: Bytes, b: seq<U8>, done: Stream)
    requires Meaning(r, done.bytes) == Some(Done(repo)) && e.repos == d.repos && e.refs == d.refs
    requires FileOf(r.dir, done.from, repo) in e.files && e.files[FileOf(r.dir, done.from, repo)] == b
    ensures Received(d, OnStream(r, e, done), repo, PathOf(r.dir, done.from, repo), b, done.now)
  {
  }

  /**
   Sender to receiver. The frames a connected sender writes for `b`, received in order, leave the
   receiver with the file and with the repository's bundle field set to it.
   */
  lemma TransferDelivers(r: Receiver, d: Disk, from: NodeId, target: NodeId, repo: Bytes, name: Bytes, b: seq<U8>, now: int)
    requires Readable(r, repo, name, b)
    ensures var e := OnStreams(r, d, Arriving(from, TransferFrames(target, repo, name, b), now));
            Received(d, e, repo, PathOf(r.dir, from, repo), b, now)
  {
    var start, chunks, done := FramesArrive(r, from, target, repo, name, b, now);
    TransferReceived(r, d, from, repo, b, start, chunks, done);
  }

  /** The sender's chunk frames, in order, are what reassembly asks for. */
  lemma ChunksArrive(r: Receiver, from: NodeId, target: NodeId, repo: Bytes, b: seq<U8>, now: int)
    requires Decodes(r.decode) && |repo| <= MAX_REPO_ID && ChunkCount(b) <= 0x1_0000_0000
    ensures var chunks := Arriving(from, ChunkFrames(target, repo, b, ChunkCount(b)), now);
            && AllSent(from, repo, b, chunks)
            && (forall i :: 0 <= i < |chunks| ==> Undisturbing(r, FileOf(r.dir, from, repo), b, chunks[i]))
            && (forall i :: 0 <= i < |chunks| ==> Meaning(r, chunks[i].bytes).Some? && Meaning(r, chunks[i].bytes).value.Chunk?)
  {
    var n := ChunkCount(b);
    var chunks := Arriving(from, ChunkFrames(target, repo, b, n), now);
    ChunkFramesCount(target, repo, b, n);
    forall k: nat | k < n
      ensures chunks[k] == Stream(from, Frame(ChunkMsg(repo, b, k)), now)
    {
      ChunkFramesAt(target, repo, b, n, k);
    }
    forall k: nat | k < n ensures SentIn(from, Frame(ChunkMsg(repo, b, k)), chunks) {
      assert chunks[k].bytes == Frame(ChunkMsg(repo, b, k));
    }
    forall k: nat | k < n
      ensures Undisturbing(r, FileOf(r.dir, from, repo), b, chunks[k])
      ensures Meaning(r, chunks[k].bytes).Some? && Meaning(r, chunks[k].bytes).value.Chunk?
    {
      ChunkFrameMeans(r, from, repo, b, k, now);
    }
  }

  lemma ChunkFrameMeans(r: Receiver, from: NodeId, repo: Bytes, b: seq<U8>, k: nat, now: int)
    requires Decodes(r.decode) && |repo| <= MAX_REPO_ID && k < ChunkCount(b) <= 0x1_0000_0000
    ensures var s := Stream(from, Frame(ChunkMsg(repo, b, k)), now);
            && Undisturbing(r, FileOf(r.dir, from, repo), b, s)
            && Meaning(r, s.bytes).Some? && Meaning(r, s.bytes).value.Chunk?
  {
    ChunkFrameBrings(r, FileOf(r.dir, from, repo), b, from, repo, k, now);
    ChunkFrameFits(repo, k, ChunkOf(b, k));
    FrameMeans(r, ChunkMsg(repo, b, k));
  }

  lemma {:induction false} StreamsFront(r: Receiver, d: Disk, start: Stream, ss: seq<Stream>)
    ensures OnStreams(r, d, [start] + ss) == OnStreams(r, OnStream(r, d, start), ss)
    decreases |ss|
  {
    if ss == [] {
      assert [start] + ss == [start] && [start][..0] == [];
      assert OnStreams(r, d, []) == d;
    } else {
      var all, n := [start] + ss, |ss| - 1;
      assert all[..|all| - 1] == [start] + ss[..n] && all[|all| - 1] == ss[n];
      StreamsFront(r, d, start, ss[..n]);
    }
  }

  lemma StreamsSplit(r: Receiver, d: Disk, start: Stream, ss: seq<Stream>, done: Stream)
    ensures OnStreams(r, d, [start] + ss + [done]) == OnStream(r, OnStreams(r, OnStream(r, d, start), ss), done)
  {
    var all := [start] + ss + [done];
    assert all[..|all| - 1] == [start] + ss && all[|all| - 1] == done;
    StreamsFront(r, d, start, ss);
  }

  lemma {:induction false} ChunksKeepTables(r: Receiver, d: Disk, ss: seq<Stream>)
    requires forall i :: 0 <= i < |ss| ==> Meaning(r, ss[i].bytes).Some? && Meaning(r, ss[i].bytes).value.Chunk?
    ensures OnStreams(r, d, ss).repos == d.repos && OnStreams(r, d, ss).refs == d.refs
    decreases |ss|
  {
    if ss != [] { ChunksKeepTables(r, d, ss[..|ss| - 1]); }
  }
}
