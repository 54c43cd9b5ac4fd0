/** The byte string a message is hashed and signed over, and the hash itself (src/gossip/message.rs). */
module Hashing {
  import opened Common
  import opened Json
  import opened Printer
  import opened Scanner
  import opened Reader
  import opened Messages

  /** The `k` low bytes of `x`, lowest first. */
  function LittleEndian(k: nat, x: nat): (r: Bytes)
    ensures |r| == k
  {
    if k == 0 then [] else [(x % 256) as char] + LittleEndian(k - 1, x / 256)
  }

  /** `i64::to_le_bytes`: two's complement, eight bytes. */
  function TimestampBytes(t: I64): (r: Bytes)
    ensures |r| == 8
  {
    LittleEndian(8, if t < 0 then t + 0x1_0000_0000_0000_0000 else t)
  }

  function Pow256(k: nat): (r: nat)
    ensures r > 0
  {
    if k == 0 then 1 else 256 * Pow256(k - 1)
  }

  /** The number a row of bytes stands for, lowest first: the sum of byte `i` times 256 to the `i`. */
  function ByteSum(bs: Bytes): nat {
    if bs == [] then 0 else bs[0] as nat + 256 * ByteSum(bs[1..])
  }

  lemma {:induction false} LittleEndianSum(k: nat, x: nat)
    requires Fits(k, x)
    ensures ByteSum(LittleEndian(k, x)) == x
    ensures forall i :: 0 <= i < k ==> LittleEndian(k, x)[i] as nat < 256
  {
    if k > 0 {
      LittleEndianSum(k - 1, x / 256);
      var bs := LittleEndian(k, x);
      assert bs[1..] == LittleEndian(k - 1, x / 256);
      forall i | 0 <= i < k ensures bs[i] as nat < 256 {
        if i > 0 { assert bs[i] == bs[1..][i - 1]; }
      }
    }
  }

  /** Byte `i` is the `i`th digit to the base 256. */
  lemma {:induction false} LittleEndianByte(k: nat, x: nat, i: nat)
    requires i < k
    ensures LittleEndian(k, x)[i] as nat == x / Pow256(i) % 256
  {
    if i > 0 {
      LittleEndianByte(k - 1, x / 256, i - 1);
      DivTwice(x, Pow256(i - 1));
    }
  }

  lemma DivTwice(x: nat, p: nat)
    requires p > 0
    ensures x / 256 / p == x / (256 * p)
  {
    var q, r := x / 256, x % 256;
    var a, b := q / p, q % p;
    assert x == 256 * (p * a + b) + r;
    assert 256 * (p * a + b) == (256 * p) * a + 256 * b;
    assert 0 <= 256 * b + r < 256 * p;
    DivisionIs(x, 256 * p, a, 256 * b + r);
  }

  lemma DivisionIs(x: int, d: int, q: int, r: int)
    requires d > 0 && x == d * q + r && 0 <= r < d
    ensures x / d == q
  {
    var e := x / d;
    assert x == d * e + x % d && 0 <= x % d < d;
    if e < q { TimesNext(d, e, q); }
    if q < e { TimesNext(d, q, e); }
  }

  lemma {:induction false} TimesNext(d: int, a: int, b: int)
    requires d > 0 && a < b
    ensures d * a + d <= d * b
    decreases b - a
  {
    assert d * b == d * (b - 1) + d;
    if a + 1 < b { TimesNext(d, a, b - 1); }
  }

  /** A timestamp modulo 2 to the 64. */
  function Unsigned(t: I64): nat { if t < 0 then t + 0x1_0000_0000_0000_0000 else t }

  /** The eight bytes of a timestamp by their values: byte `i` counts 256 to the `i`. */
  lemma TimestampByValue(t: I64)
    ensures ByteSum(TimestampBytes(t)) == Unsigned(t)
    ensures forall i :: 0 <= i < 8 ==> TimestampBytes(t)[i] as nat == Unsigned(t) / Pow256(i) % 256
  {
    FitsEight(Unsigned(t));
    LittleEndianSum(8, Unsigned(t));
    forall i | 0 <= i < 8 ensures TimestampBytes(t)[i] as nat == Unsigned(t) / Pow256(i) % 256 {
      LittleEndianByte(8, Unsigned(t), i);
    }
  }

  predicate Fits(k: nat, x: nat) { if k == 0 then x == 0 else Fits(k - 1, x / 256) }

  lemma {:induction false} LittleEndianInjective(k: nat, x: nat, y: nat)
    requires Fits(k, x) && Fits(k, y) && LittleEndian(k, x) == LittleEndian(k, y)
    ensures x == y
  {
    if k > 0 {
      var p, q := LittleEndian(k, x), LittleEndian(k, y);
      assert p[0] == q[0] && p[1..] == q[1..];
      LittleEndianInjective(k - 1, x / 256, y / 256);
    }
  }

  lemma FitsEight(x: nat)
    requires x < 0x1_0000_0000_0000_0000
    ensures Fits(8, x)
  {
    assert x / 256 < 0x100_0000_0000_0000;
    assert x / 256 / 256 < 0x1_0000_0000_0000;
    assert x / 256 / 256 / 256 < 0x100_0000_0000;
    assert x / 256 / 256 / 256 / 256 < 0x1_0000_0000;
    FitsFour(x / 256 / 256 / 256 / 256);
    assert Fits(6, x / 256 / 256);
  }

  lemma FitsFour(x: nat)
    requires x < 0x1_0000_0000
    ensures Fits(4, x)
  {
    assert x / 256 / 256 < 0x1_0000;
    assert Fits(2, x / 256 / 256);
  }

  lemma TimestampInjective(s: I64, t: I64)
    requires TimestampBytes(s) == TimestampBytes(t)
    ensures s == t
  {
    var x: nat := if s < 0 then s + 0x1_0000_0000_0000_0000 else s;
    var y: nat := if t < 0 then t + 0x1_0000_0000_0000_0000 else t;
    FitsEight(x);
    FitsEight(y);
    LittleEndianInjective(8, x, y);
  }

  function MessageBytes(m: GossipMessage, orders: seq<Order>): Bytes
    requires OrdersFor(m, orders)
  {
    Print(Canonicalize(ToJson(m, orders)))
  }

  /** Everything the hash covers: not the signature, and no ttl. */
  function Preimage(m: Signed, orders: seq<Order>): Bytes
    requires OrdersFor(m.message, orders)
  {
    m.nodeId + MessageBytes(m.message, orders) + TimestampBytes(m.timestamp)
  }

  /** Message bytes are those of an object whose only key is the message's kind. */
  lemma MessageBytesFront(m: GossipMessage, orders: seq<Order>)
    requires OrdersFor(m, orders)
    ensures Canonicalize(ToJson(m, orders)).Obj? && ObjectFront(MessageBytes(m, orders))
  {
    CanonicalizeOne(Tag(m), BodyJson(m, orders));
    TagCapital(m);
    TaggedFront(Tag(m), Canonicalize(BodyJson(m, orders)));
  }

  lemma CanonicalizeOne(tag: Bytes, v: Value)
    ensures Canonicalize(Obj([(tag, v)])) == Obj([(tag, Canonicalize(v))])
  {
    assert [(tag, v)][1..] == [];
    assert SortByKey([(tag, v)]) == [(tag, v)];
    assert CanonicalEntries([(tag, v)]) == [(tag, Canonicalize(v))];
  }

  lemma TagCapital(m: GossipMessage)
    ensures Tag(m) != [] && 'A' <= Tag(m)[0] <= 'Z'
  {
  }

  lemma CapitalFront(tag: Bytes)
    requires tag != [] && 'A' <= tag[0] <= 'Z'
    ensures |PrintStr(tag)| >= 2 && PrintStr(tag)[0] == '\"' && PrintStr(tag)[1] == tag[0]
  {
    assert EscapeChar(tag[0]) == [tag[0]];
    assert Escape(tag)[0] == tag[0];
  }

  lemma TaggedFront(tag: Bytes, v: Value)
    requires tag != [] && 'A' <= tag[0] <= 'Z'
    ensures ObjectFront(Print(Obj([(tag, v)])))
  {
    CapitalFront(tag);
    EntryText(tag, v);
    WrappedFront(PrintStr(tag), ":" + Print(v));
  }

  lemma EntryText(tag: Bytes, v: Value)
    ensures PrintEntries([(tag, v)]) == PrintStr(tag) + (":" + Print(v))
  {
    var e := (tag, v);
    assert PrintEntries([e]) == PrintEntry(e);
  }

  lemma WrappedFront(p: Bytes, rest: Bytes)
    requires |p| >= 2 && p[0] == '\"' && 'A' <= p[1] <= 'Z'
    ensures ObjectFront("{" + (p + rest) + "}")
  {
  }

  /** The printed canonical form agrees exactly when the messages do. */
  lemma MessageBytesFaithful(m: GossipMessage, o1: seq<Order>, n: GossipMessage, o2: seq<Order>)
    requires OrdersFor(m, o1) && OrdersFor(n, o2)
    ensures MessageBytes(m, o1) == MessageBytes(n, o2) <==> m == n
  {
    var a, b := ToJson(m, o1), ToJson(n, o2);
    JsonWellFormed(m, o1);
    JsonWellFormed(n, o2);
    CanonicalFormIsComplete(a, b);
    JsonFaithful(m, o1, n, o2);
    if MessageBytes(m, o1) == MessageBytes(n, o2) {
      PrintInjective(Canonicalize(a), Canonicalize(b));
    }
  }

  /** One of two texts that end alike is a suffix of the other. */
  lemma LongerEnd(a: Bytes, x: Bytes, b: Bytes, y: Bytes)
    requires a + x == b + y && |a| <= |b|
    ensures a <= b && x == b[|a|..] + y
  {
    assert a == (a + x)[..|a|] == (b + y)[..|a|] == b[..|a|];
    assert x == (a + x)[|a|..] == (b + y)[|a|..] == b[|a|..] + y;
  }

  /** Ids before message bytes can be told apart from them, whatever characters they have. */
  lemma SplitIds(a: Bytes, m: GossipMessage, o1: seq<Order>, b: Bytes, n: GossipMessage, o2: seq<Order>)
    requires OrdersFor(m, o1) && OrdersFor(n, o2) && |a| <= |b|
    requires a + MessageBytes(m, o1) == b + MessageBytes(n, o2)
    ensures a == b && MessageBytes(m, o1) == MessageBytes(n, o2)
  {
    LongerEnd(a, MessageBytes(m, o1), b, MessageBytes(n, o2));
    MessageBytesFront(m, o1);
    MessageBytesFront(n, o2);
    NoProperSuffix(Canonicalize(ToJson(m, o1)), Canonicalize(ToJson(n, o2)), b[|a|..]);
    assert b == a + b[|a|..];
  }

  lemma CutTail(u: Bytes, s: Bytes, v: Bytes, t: Bytes)
    requires u + s == v + t && |s| == |t|
    ensures u == v && s == t
  {
    assert u == (u + s)[..|u|] == (v + t)[..|v|] == v;
    assert s == (u + s)[|u|..] == (v + t)[|v|..] == t;
  }

  /** The preimage is unambiguous, and it does not depend on hash map order or the signature. */
  lemma PreimageUnambiguous(m: Signed, o1: seq<Order>, n: Signed, o2: seq<Order>)
    requires OrdersFor(m.message, o1) && OrdersFor(n.message, o2)
    ensures Preimage(m, o1) == Preimage(n, o2)
       <==> m.nodeId == n.nodeId && m.message == n.message && m.timestamp == n.timestamp
  {
    MessageBytesFaithful(m.message, o1, n.message, o2);
    if Preimage(m, o1) == Preimage(n, o2) {
      CutTail(m.nodeId + MessageBytes(m.message, o1), TimestampBytes(m.timestamp),
              n.nodeId + MessageBytes(n.message, o2), TimestampBytes(n.timestamp));
      if |m.nodeId| <= |n.nodeId| {
        SplitIds(m.nodeId, m.message, o1, n.nodeId, n.message, o2);
      } else {
        SplitIds(n.nodeId, n.message, o2, m.nodeId, m.message, o1);
      }
      TimestampInjective(m.timestamp, n.timestamp);
    }
  }

  /**
   The preimage read from the front: the signer's id, JSON text of the canonical message, and eight bytes
   that add up to the timestamp.
   */
  lemma PreimageReads(m: Signed, orders: seq<Order>)
    requires OrdersFor(m.message, orders)
    ensures var p := Preimage(m, orders);
            && m.nodeId <= p
            && ReadValue(p[|m.nodeId|..]) == Got(Canonicalize(ToJson(m.message, orders)), TimestampBytes(m.timestamp))
            && |TimestampBytes(m.timestamp)| == 8 && ByteSum(TimestampBytes(m.timestamp)) == Unsigned(m.timestamp)
  {
    var v, ts := Canonicalize(ToJson(m.message, orders)), TimestampBytes(m.timestamp);
    MessageBytesFront(m.message, orders);
    PrintedIsRead(v, ts);
    AfterId(m.nodeId, Print(v), ts);
    TimestampByValue(m.timestamp);
  }

  lemma AfterId(a: Bytes, x: Bytes, s: Bytes)
    ensures a <= a + x + s && (a + x + s)[|a|..] == x + s
  {
    assert a + x + s == a + (x + s);
  }

  // ---------- the hash ----------

  ghost predicate OrdersOf(repos: seq<Repo>, orders: seq<Order>) {
    |orders| == |repos| && forall i :: 0 <= i < |orders| ==> Enumerates(orders[i], repos[i].refs)
  }

  lemma {:induction false} RepoOrdersExist(repos: seq<Repo>)
    ensures exists orders :: OrdersOf(repos, orders)
  {
    if repos == [] {
      assert OrdersOf(repos, []);
    } else {
      RepoOrdersExist(repos[1..]);
      var rest :| OrdersOf(repos[1..], rest);
      EnumerationExists(repos[0].refs);
      var first: Order :| Enumerates(first, repos[0].refs);
      OrdersExtend(repos, first, rest);
    }
  }

  lemma OrdersExtend(repos: seq<Repo>, first: Order, rest: seq<Order>)
    requires repos != [] && Enumerates(first, repos[0].refs) && OrdersOf(repos[1..], rest)
    ensures OrdersOf(repos, [first] + rest)
  {
    var orders := [first] + rest;
    assert forall i :: 0 < i < |orders| ==> orders[i] == rest[i - 1] && repos[i] == repos[1..][i - 1];
  }

  lemma OrdersExist(m: GossipMessage)
    ensures exists orders :: OrdersFor(m, orders)
  {
    if m.RepoAnnouncement? {
      RepoOrdersExist(m.repos);
      var orders :| OrdersOf(m.repos, orders);
      assert OrdersFor(m, orders);
    } else {
      assert OrdersFor(m, []);
    }
  }

  ghost function SomeOrders(m: GossipMessage): (orders: seq<Order>)
    ensures OrdersFor(m, orders)
  {
    OrdersExist(m);
    var orders :| OrdersFor(m, orders);
    orders
  }

  /** The preimage, for one order of the hash maps: by `PreimageStable` it is the same for all. */
  ghost function PreimageOf(m: Signed): Bytes {
    Preimage(m, SomeOrders(m.message))
  }

  lemma PreimageStable(m: Signed, orders: seq<Order>)
    requires OrdersFor(m.message, orders)
    ensures Preimage(m, orders) == PreimageOf(m)
  {
    MessageBytesFaithful(m.message, orders, m.message, SomeOrders(m.message));
    assert MessageBytes(m.message, orders) == MessageBytes(m.message, SomeOrders(m.message));
  }

  /** One order in which the hash map happens to be iterated. */
  method IterateRefs(refs: map<Bytes, Bytes>) returns (order: Order)
    ensures Enumerates(order, refs)
  {
    order := [];
    var left := refs.Keys;
    while left != {}
      invariant left <= refs.Keys
      invariant forall i :: 0 <= i < |order| ==> order[i].0 in refs && order[i].0 !in left && order[i].1 == refs[order[i].0]
      invariant forall i, j :: 0 <= i < j < |order| ==> order[i].0 != order[j].0
      invariant forall k :: k in refs && k !in left ==> exists i :: 0 <= i < |order| && order[i].0 == k
      decreases left
    {
      var k :| k in left;
      ghost var before := order;
      order := order + [(k, refs[k])];
      left := left - {k};
      assert order[|before|].0 == k;
      assert forall i :: 0 <= i < |before| ==> order[i] == before[i];
    }
  }

  method IterateAllRefs(m: GossipMessage) returns (orders: seq<Order>)
    ensures OrdersFor(m, orders)
  {
    orders := [];
    if m.RepoAnnouncement? {
      for i := 0 to |m.repos|
        invariant |orders| == i
        invariant forall j :: 0 <= j < i ==> Enumerates(orders[j], m.repos[j].refs)
      {
        var order := IterateRefs(m.repos[i].refs);
        orders := orders + [order];
      }
    }
  }

  /** `self_hash`: the result is the same whatever order the hash maps are iterated in. */
  method SelfHash(hash: Bytes -> Bytes, m: Signed) returns (digest: Bytes)
    ensures digest == hash(PreimageOf(m))
  {
    var orders := IterateAllRefs(m.message);
    JsonWellFormed(m.message, orders);
    var canonical := CanonicalizeValue(ToJson(m.message, orders));
    var hasher: Bytes := "";
    hasher := hasher + m.nodeId;
    hasher := hasher + Print(canonical);
    hasher := hasher + TimestampBytes(m.timestamp);
    assert hasher == Preimage(m, orders);
    PreimageStable(m, orders);
    digest := hash(hasher);
  }

  ghost predicate Injective(hash: Bytes -> Bytes) {
    forall x, y :: hash(x) == hash(y) ==> x == y
  }

  /** Under a collision-free hash, equal digests mean equal signer, content and timestamp. */
  lemma DigestUnambiguous(hash: Bytes -> Bytes, m: Signed, n: Signed)
    requires Injective(hash)
    ensures hash(PreimageOf(m)) == hash(PreimageOf(n))
       <==> m.nodeId == n.nodeId && m.message == n.message && m.timestamp == n.timestamp
  {
    PreimageUnambiguous(m, SomeOrders(m.message), n, SomeOrders(n.message));
  }
}
