/**
 JSON values as the message layer sees them, and the recursive key sort that gives a message
 its canonical form (src/gossip/message.rs).

 An object is the list of its entries in the order the map yields them, so both backings of
 `serde_json::Map` (sorted and insertion-ordered) are covered.
 */
module Json {
  import opened Common

  datatype Value =
    | Null
    | Bool(b: bool)
    | Num(n: int)
    | Str(s: Bytes)
    | Arr(items: seq<Value>)
    | Obj(entries: seq<(Bytes, Value)>)

  type Entry = (Bytes, Value)

  // ---------- keys and their order ----------

  /** The order of Rust strings: bytewise lexicographic. */
  predicate Leq(a: Bytes, b: Bytes) {
    a == [] || (b != [] && (a[0] < b[0] || (a[0] == b[0] && Leq(a[1..], b[1..]))))
  }

  lemma {:induction false} LeqTotal(a: Bytes, b: Bytes)
    ensures Leq(a, b) || Leq(b, a)
  {
    if a != [] && b != [] && a[0] == b[0] {
      LeqTotal(a[1..], b[1..]);
    }
  }

  lemma {:induction false} LeqTransitive(a: Bytes, b: Bytes, c: Bytes)
    requires Leq(a, b) && Leq(b, c)
    ensures Leq(a, c)
  {
    if a != [] && a[0] == b[0] && b[0] == c[0] {
      LeqTransitive(a[1..], b[1..], c[1..]);
    }
  }

  lemma {:induction false} LeqAntisymmetric(a: Bytes, b: Bytes)
    requires Leq(a, b) && Leq(b, a)
    ensures a == b
  {
    if a != [] {
      LeqAntisymmetric(a[1..], b[1..]);
      assert a == [a[0]] + a[1..] == [b[0]] + b[1..] == b;
    }
  }

  /** By position: `a` is in front if it is a prefix of `b`, or has the smaller byte where they first differ. */
  lemma {:induction false} LeqIsBytewise(a: Bytes, b: Bytes)
    ensures Leq(a, b) <==> a <= b || exists k: nat :: Differ(a, b, k) && a[k] < b[k]
    decreases |a|
  {
    if a != [] && b != [] {
      LeqIsBytewise(a[1..], b[1..]);
      if a[0] == b[0] {
        assert a <= b <==> a[1..] <= b[1..];
        if k: nat :| Differ(a, b, k) && a[k] < b[k] {
          DifferTail(a, b, k);
          assert Differ(a[1..], b[1..], k - 1);
        }
        if k: nat :| Differ(a[1..], b[1..], k) && a[1..][k] < b[1..][k] {
          DifferHead(a, b, k);
          assert Differ(a, b, k + 1);
        }
      } else {
        assert Differ(a, b, 0);
        if k: nat :| Differ(a, b, k) && a[k] < b[k] { DifferFirst(a, b, k); }
      }
    }
  }

  /** The first position where two byte strings differ. */
  ghost predicate Differ(a: Bytes, b: Bytes, k: nat) {
    k < |a| && k < |b| && a[k] != b[k] && forall i :: 0 <= i < k ==> a[i] == b[i]
  }

  lemma DifferTail(a: Bytes, b: Bytes, k: nat)
    requires Differ(a, b, k) && a[0] == b[0]
    ensures k > 0 && Differ(a[1..], b[1..], k - 1)
  {
    forall i | 0 <= i < k - 1 ensures a[1..][i] == b[1..][i] { assert a[i + 1] == b[i + 1]; }
  }

  lemma DifferFirst(a: Bytes, b: Bytes, k: nat)
    requires a != [] && b != [] && a[0] != b[0] && Differ(a, b, k)
    ensures k == 0
  {
  }

  lemma DifferHead(a: Bytes, b: Bytes, k: nat)
    requires a != [] && b != [] && a[0] == b[0] && Differ(a[1..], b[1..], k)
    ensures Differ(a, b, k + 1)
  {
    forall i | 0 < i < k + 1 ensures a[i] == b[i] { assert a[1..][i - 1] == b[1..][i - 1]; }
  }

  ghost predicate UniqueKeys(es: seq<Entry>) {
    forall i, j :: 0 <= i < j < |es| ==> es[i].0 != es[j].0
  }

  ghost predicate Sorted(es: seq<Entry>) {
    forall i, j :: 0 <= i < j < |es| ==> Leq(es[i].0, es[j].0)
  }

  ghost function Keys(es: seq<Entry>): set<Bytes> {
    set e | e in es :: e.0
  }

  /** Object keys are unique at every depth: what `serde_json::Map` guarantees. */
  ghost predicate WellFormed(v: Value) {
    match v
    case Arr(items) => forall i :: 0 <= i < |items| ==> WellFormed(items[i])
    case Obj(es) => UniqueKeys(es) && forall i :: 0 <= i < |es| ==> WellFormed(es[i].1)
    case _ => true
  }

  // ---------- canonicalization ----------

  function Insert(e: Entry, es: seq<Entry>): (r: seq<Entry>)
    ensures multiset(r) == multiset(es) + multiset{e}
  {
    if es == [] then [e]
    else if Leq(e.0, es[0].0) then [e] + es
    else
      var t := Insert(e, es[1..]);
      assert es == [es[0]] + es[1..];
      [es[0]] + t
  }

  /** The stable sort of an object's entries by key. */
  function SortByKey(es: seq<Entry>): (r: seq<Entry>)
    ensures multiset(r) == multiset(es)
  {
    if es == [] then []
    else
      assert es == [es[0]] + es[1..];
      Insert(es[0], SortByKey(es[1..]))
  }

  lemma SameElements(xs: seq<Entry>, ys: seq<Entry>)
    requires multiset(xs) == multiset(ys)
    ensures |xs| == |ys|
    ensures forall e :: e in xs <==> e in ys
  {
    assert |multiset(xs)| == |multiset(ys)|;
    forall e
      ensures e in xs <==> e in ys
    {
      assert e in xs <==> e in multiset(xs);
    }
  }

  lemma SortKeepsEntries(es: seq<Entry>)
    ensures |SortByKey(es)| == |es|
    ensures forall e :: e in SortByKey(es) <==> e in es
  {
    SameElements(SortByKey(es), es);
  }

  function Canonicalize(v: Value): Value
    decreases v
  {
    match v
    case Obj(es) =>
      var sorted := SortByKey(es);
      SortKeepsEntries(es);
      Obj(seq(|sorted|, i requires 0 <= i < |sorted| =>
        assert sorted[i] in es;
        (sorted[i].0, Canonicalize(sorted[i].1))))
    case Arr(items) =>
      Arr(seq(|items|, i requires 0 <= i < |items| => Canonicalize(items[i])))
    case _ => v
  }

  lemma {:induction false} InsertSorted(e: Entry, es: seq<Entry>)
    requires Sorted(es)
    ensures Sorted(Insert(e, es))
  {
    if es != [] {
      if Leq(e.0, es[0].0) {
        forall j | 0 < j < |es|
          ensures Leq(e.0, es[j].0)
        {
          LeqTransitive(e.0, es[0].0, es[j].0);
        }
      } else {
        InsertSorted(e, es[1..]);
        LeqTotal(e.0, es[0].0);
        var t := Insert(e, es[1..]);
        forall j | 0 <= j < |t|
          ensures Leq(es[0].0, t[j].0)
        {
          assert t[j] in multiset(t);
          assert t[j] == e || t[j] in es[1..];
        }
      }
    }
  }

  lemma {:induction false} SortByKeySorted(es: seq<Entry>)
    ensures Sorted(SortByKey(es))
  {
    if es != [] {
      SortByKeySorted(es[1..]);
      InsertSorted(es[0], SortByKey(es[1..]));
    }
  }

  lemma TwiceInMultiset<T>(s: seq<T>, i: nat, j: nat)
    requires i < j < |s| && s[i] == s[j]
    ensures multiset(s)[s[i]] >= 2
  {
    assert s == s[..j] + [s[j]] + s[j + 1..];
    assert s[i] in s[..j];
    assert s[i] in multiset(s[..j]);
  }

  lemma OnceInMultiset(es: seq<Entry>, i: nat)
    requires i < |es| && UniqueKeys(es)
    ensures multiset(es)[es[i]] == 1
  {
    assert es == es[..i] + [es[i]] + es[i + 1..];
    assert es[i] !in es[..i] && es[i] !in es[i + 1..];
    assert es[i] !in multiset(es[..i]) && es[i] !in multiset(es[i + 1..]);
  }

  lemma UniqueFromMultiset(es: seq<Entry>, fs: seq<Entry>)
    requires UniqueKeys(es) && multiset(es) == multiset(fs)
    ensures UniqueKeys(fs)
  {
    forall i, j | 0 <= i < j < |fs|
      ensures fs[i].0 != fs[j].0
    {
      assert fs[i] in multiset(es) && fs[j] in multiset(es);
      var a :| 0 <= a < |es| && es[a] == fs[i];
      var b :| 0 <= b < |es| && es[b] == fs[j];
      if fs[i].0 == fs[j].0 {
        OnceInMultiset(es, a);
        TwiceInMultiset(fs, i, j);
      }
    }
  }

  /** `c` has the keys of `es` in order, each with the canonical form of its value. */
  ghost predicate IsForm(es: seq<Entry>, c: seq<Entry>) {
    && |c| == |es| && Sorted(c) && UniqueKeys(c)
    && (forall i :: 0 <= i < |es| ==> (es[i].0, Canonicalize(es[i].1)) in c)
    && (forall j :: 0 <= j < |c| ==> exists i :: 0 <= i < |es| && c[j] == (es[i].0, Canonicalize(es[i].1)))
  }

  function CanonicalEntries(es: seq<Entry>): (c: seq<Entry>)
    ensures Canonicalize(Obj(es)) == Obj(c)
  {
    Canonicalize(Obj(es)).entries
  }

  lemma EntryInForm(es: seq<Entry>, i: nat)
    requires i < |es|
    ensures (es[i].0, Canonicalize(es[i].1)) in CanonicalEntries(es)
  {
    SortKeepsEntries(es);
    assert es[i] in SortByKey(es);
    var j :| 0 <= j < |es| && SortByKey(es)[j] == es[i];
    assert CanonicalEntries(es)[j] == (es[i].0, Canonicalize(es[i].1));
  }

  lemma FormEntryFrom(es: seq<Entry>, j: nat)
    requires j < |CanonicalEntries(es)|
    ensures exists i :: 0 <= i < |es| && CanonicalEntries(es)[j] == (es[i].0, Canonicalize(es[i].1))
  {
    SortKeepsEntries(es);
    assert SortByKey(es)[j] in es;
    var i :| 0 <= i < |es| && es[i] == SortByKey(es)[j];
  }

  /** What canonicalization does to an object. */
  lemma ObjectForm(es: seq<Entry>)
    requires UniqueKeys(es)
    ensures IsForm(es, CanonicalEntries(es))
  {
    var s := SortByKey(es);
    var c := CanonicalEntries(es);
    SortByKeySorted(es);
    SortKeepsEntries(es);
    UniqueFromMultiset(es, s);
    forall i | 0 <= i < |es|
      ensures (es[i].0, Canonicalize(es[i].1)) in c
    {
      EntryInForm(es, i);
    }
    forall j | 0 <= j < |c|
      ensures exists i :: 0 <= i < |es| && c[j] == (es[i].0, Canonicalize(es[i].1))
    {
      FormEntryFrom(es, j);
    }
  }

  // ---------- equality up to object key order ----------

  /** Equal up to the order of object keys, at every depth. */
  ghost predicate Equiv(a: Value, b: Value)
    decreases a
  {
    match a
    case Arr(xs) =>
      && b.Arr? && |xs| == |b.items|
      && forall i :: 0 <= i < |xs| ==> Equiv(xs[i], b.items[i])
    case Obj(xs) =>
      && b.Obj? && Keys(xs) == Keys(b.entries)
      && forall i, j :: 0 <= i < |xs| && 0 <= j < |b.entries| && xs[i].0 == b.entries[j].0
                        ==> Equiv(xs[i].1, b.entries[j].1)
    case _ => a == b
  }

  /** A strictly sorted list of entries is determined by the set of its entries. */
  lemma {:induction false} SortedDetermined(xs: seq<Entry>, ys: seq<Entry>)
    requires Sorted(xs) && Sorted(ys) && UniqueKeys(xs) && UniqueKeys(ys)
    requires forall e :: e in xs <==> e in ys
    ensures xs == ys
  {
    if xs != [] { assert xs[0] in ys; }
    if ys != [] { assert ys[0] in xs; }
    if xs != [] && ys != [] {
      var i :| 0 <= i < |ys| && ys[i] == xs[0];
      var j :| 0 <= j < |xs| && xs[j] == ys[0];
      if i != 0 {
        assert j != 0;
        assert Leq(xs[0].0, xs[j].0) && Leq(ys[0].0, ys[i].0);
        LeqAntisymmetric(xs[0].0, ys[0].0);
        assert false;
      }
      forall e
        ensures e in xs[1..] <==> e in ys[1..]
      {
        if e in xs[1..] {
          var k :| 1 <= k < |xs| && xs[k] == e;
          assert e in ys && e.0 != xs[0].0;
        }
        if e in ys[1..] {
          var k :| 1 <= k < |ys| && ys[k] == e;
          assert e in xs && e.0 != ys[0].0;
        }
      }
      SortedDetermined(xs[1..], ys[1..]);
      assert xs == [xs[0]] + xs[1..] && ys == [ys[0]] + ys[1..];
    }
  }

  lemma KeyIndex(es: seq<Entry>, k: Bytes) returns (i: nat)
    requires k in Keys(es)
    ensures i < |es| && es[i].0 == k
  {
    var e :| e in es && e.0 == k;
    i :| 0 <= i < |es| && es[i] == e;
  }

  lemma ObjectsSameForm(xs: seq<Entry>, ys: seq<Entry>, cx: seq<Entry>, cy: seq<Entry>)
    requires IsForm(xs, cx) && IsForm(ys, cy) && Keys(xs) == Keys(ys)
    requires forall i, j :: 0 <= i < |xs| && 0 <= j < |ys| && xs[i].0 == ys[j].0
                            ==> Canonicalize(xs[i].1) == Canonicalize(ys[j].1)
    ensures cx == cy
  {
    FormSubset(xs, ys, cx, cy);
    FormSubset(ys, xs, cy, cx);
    SortedDetermined(cx, cy);
  }

  lemma FormSubset(xs: seq<Entry>, ys: seq<Entry>, cx: seq<Entry>, cy: seq<Entry>)
    requires IsForm(xs, cx) && IsForm(ys, cy) && Keys(xs) <= Keys(ys)
    requires forall i, j :: 0 <= i < |xs| && 0 <= j < |ys| && xs[i].0 == ys[j].0
                            ==> Canonicalize(xs[i].1) == Canonicalize(ys[j].1)
    ensures forall e :: e in cx ==> e in cy
  {
    forall e | e in cx
      ensures e in cy
    {
      var t :| 0 <= t < |cx| && cx[t] == e;
      var i :| 0 <= i < |xs| && cx[t] == (xs[i].0, Canonicalize(xs[i].1));
      assert xs[i] in xs;
      var j := KeyIndex(ys, xs[i].0);
      assert e == (ys[j].0, Canonicalize(ys[j].1));
    }
  }

  /** The keys of a form are the keys of the object. */
  lemma FormKeys(xs: seq<Entry>, c: seq<Entry>)
    requires IsForm(xs, c)
    ensures Keys(xs) == Keys(c)
  {
    forall k
      ensures k in Keys(xs) <==> k in Keys(c)
    {
      if k in Keys(xs) {
        var i := KeyIndex(xs, k);
        assert (xs[i].0, Canonicalize(xs[i].1)) in c;
      }
      if k in Keys(c) {
        var j := KeyIndex(c, k);
        var i :| 0 <= i < |xs| && c[j] == (xs[i].0, Canonicalize(xs[i].1));
        assert xs[i] in xs;
      }
    }
  }

  /** In a form, the value under a key of the object is the canonical form of the object's. */
  lemma FormValue(xs: seq<Entry>, c: seq<Entry>, i: nat, j: nat)
    requires IsForm(xs, c) && i < |xs| && j < |c| && xs[i].0 == c[j].0
    ensures c[j].1 == Canonicalize(xs[i].1)
  {
    assert (xs[i].0, Canonicalize(xs[i].1)) in c;
    var t :| 0 <= t < |c| && c[t] == (xs[i].0, Canonicalize(xs[i].1));
    assert t == j;
  }

  lemma {:induction false} EquivImpliesSameForm(a: Value, b: Value)
    requires WellFormed(a) && WellFormed(b) && Equiv(a, b)
    ensures Canonicalize(a) == Canonicalize(b)
    decreases a
  {
    match a
    case Arr(xs) =>
      var ys := b.items;
      forall i | 0 <= i < |xs| ensures Canonicalize(xs[i]) == Canonicalize(ys[i]) {
        EquivImpliesSameForm(xs[i], ys[i]);
      }
      assert Canonicalize(a).items == Canonicalize(b).items;
    case Obj(xs) =>
      var ys := b.entries;
      ObjectForm(xs);
      ObjectForm(ys);
      forall i, j | 0 <= i < |xs| && 0 <= j < |ys| && xs[i].0 == ys[j].0
        ensures Canonicalize(xs[i].1) == Canonicalize(ys[j].1)
      {
        EquivImpliesSameForm(xs[i].1, ys[j].1);
      }
      ObjectsSameForm(xs, ys, CanonicalEntries(xs), CanonicalEntries(ys));
    case _ =>
  }

  lemma {:induction false} SameFormImpliesEquiv(a: Value, b: Value)
    requires WellFormed(a) && WellFormed(b) && Canonicalize(a) == Canonicalize(b)
    ensures Equiv(a, b)
    decreases a
  {
    match a
    case Arr(xs) =>
      var ys := b.items;
      forall i | 0 <= i < |xs| ensures Equiv(xs[i], ys[i]) {
        assert Canonicalize(a).items[i] == Canonicalize(b).items[i];
        SameFormImpliesEquiv(xs[i], ys[i]);
      }
    case Obj(xs) =>
      var ys := b.entries;
      var c := CanonicalEntries(xs);
      assert c == CanonicalEntries(ys);
      ObjectForm(xs);
      ObjectForm(ys);
      FormKeys(xs, c);
      FormKeys(ys, c);
      forall i, j | 0 <= i < |xs| && 0 <= j < |ys| && xs[i].0 == ys[j].0
        ensures Equiv(xs[i].1, ys[j].1)
      {
        assert xs[i] in xs;
        var t := KeyIndex(c, xs[i].0);
        FormValue(xs, c, i, t);
        FormValue(ys, c, j, t);
        SameFormImpliesEquiv(xs[i].1, ys[j].1);
      }
    case _ =>
  }

  /** The canonical form is a complete invariant of equality up to key order. */
  lemma CanonicalFormIsComplete(a: Value, b: Value)
    requires WellFormed(a) && WellFormed(b)
    ensures Canonicalize(a) == Canonicalize(b) <==> Equiv(a, b)
  {
    if Equiv(a, b) { EquivImpliesSameForm(a, b); }
    if Canonicalize(a) == Canonicalize(b) { SameFormImpliesEquiv(a, b); }
  }

  /** Canonicalization changes nothing but key order, and keeps keys unique. */
  lemma {:induction false} CanonicalizeKeepsMeaning(v: Value)
    requires WellFormed(v)
    ensures WellFormed(Canonicalize(v)) && Equiv(v, Canonicalize(v))
  {
    match v
    case Arr(xs) =>
      forall i | 0 <= i < |xs| ensures WellFormed(Canonicalize(v).items[i]) && Equiv(xs[i], Canonicalize(v).items[i]) {
        CanonicalizeKeepsMeaning(xs[i]);
      }
    case Obj(xs) =>
      var c := CanonicalEntries(xs);
      ObjectForm(xs);
      FormKeys(xs, c);
      forall i | 0 <= i < |xs| ensures WellFormed(Canonicalize(xs[i].1)) && Equiv(xs[i].1, Canonicalize(xs[i].1)) {
        CanonicalizeKeepsMeaning(xs[i].1);
      }
      forall i, j | 0 <= i < |xs| && 0 <= j < |c| && xs[i].0 == c[j].0
        ensures Equiv(xs[i].1, c[j].1)
      {
        FormValue(xs, c, i, j);
      }
      forall j | 0 <= j < |c|
        ensures WellFormed(c[j].1)
      {
        var i :| 0 <= i < |xs| && c[j] == (xs[i].0, Canonicalize(xs[i].1));
      }
    case _ =>
  }

  lemma CanonicalizeIdempotent(v: Value)
    requires WellFormed(v)
    ensures Canonicalize(Canonicalize(v)) == Canonicalize(v)
  {
    CanonicalizeKeepsMeaning(v);
    CanonicalFormIsComplete(v, Canonicalize(v));
  }

  // ---------- the imperative key sort ----------

  /** `serde_json::Map::insert`: replace the value of a present key, else add the entry. */
  function MapInsert(es: seq<Entry>, k: Bytes, v: Value): seq<Entry> {
    if es == [] then [(k, v)]
    else if es[0].0 == k then [(k, v)] + es[1..]
    else [es[0]] + MapInsert(es[1..], k, v)
  }

  lemma {:induction false} MapInsertNew(es: seq<Entry>, k: Bytes, v: Value)
    requires forall i :: 0 <= i < |es| ==> es[i].0 != k
    ensures MapInsert(es, k, v) == es + [(k, v)]
  {
    if es != [] {
      MapInsertNew(es[1..], k, v);
      assert es + [(k, v)] == [es[0]] + (es[1..] + [(k, v)]);
    }
  }

  /** The sorted entries: the object's own, each key once. */
  lemma SortedEntries(es: seq<Entry>)
    requires UniqueKeys(es)
    ensures UniqueKeys(SortByKey(es)) && forall e :: e in SortByKey(es) <==> e in es
  {
    SortKeepsEntries(es);
    UniqueFromMultiset(es, SortByKey(es));
  }

  /** `c` holds the first entries of `es`, their values canonicalized. */
  ghost predicate CanonicalPrefix(es: seq<Entry>, c: seq<Entry>) {
    |c| <= |es| && forall j :: 0 <= j < |c| ==> c[j] == (es[j].0, Canonicalize(es[j].1))
  }

  lemma InsertNext(es: seq<Entry>, c: seq<Entry>)
    requires UniqueKeys(es) && CanonicalPrefix(es, c) && |c| < |es|
    ensures var next := MapInsert(c, es[|c|].0, Canonicalize(es[|c|].1));
            CanonicalPrefix(es, next) && |next| == |c| + 1
  {
    MapInsertNew(c, es[|c|].0, Canonicalize(es[|c|].1));
  }

  method CanonicalizeValue(value: Value) returns (r: Value)
    requires WellFormed(value)
    ensures r == Canonicalize(value)
    decreases value, 1
  {
    match value
    case Obj(map_) => r := CanonicalizeObject(map_);
    case Arr(vec) => r := CanonicalizeArray(vec);
    case _ => r := value;
  }

  method CanonicalizeObject(map_: seq<Entry>) returns (r: Value)
    requires WellFormed(Obj(map_))
    ensures r == Canonicalize(Obj(map_))
    decreases Obj(map_), 0
  {
    var entries := SortByKey(map_);
    SortedEntries(map_);
    var newMap: seq<Entry> := [];
    for i := 0 to |entries|
      invariant |newMap| == i && CanonicalPrefix(entries, newMap)
    {
      assert entries[i] in map_;
      var v := CanonicalizeValue(entries[i].1);
      InsertNext(entries, newMap);
      newMap := MapInsert(newMap, entries[i].0, v);
    }
    r := Obj(newMap);
    assert newMap == CanonicalEntries(map_);
  }

  method CanonicalizeArray(vec: seq<Value>) returns (r: Value)
    requires WellFormed(Arr(vec))
    ensures r == Canonicalize(Arr(vec))
    decreases Arr(vec), 0
  {
    var out: seq<Value> := [];
    for i := 0 to |vec|
      invariant |out| == i
      invariant forall j :: 0 <= j < i ==> out[j] == Canonicalize(vec[j])
    {
      var v := CanonicalizeValue(vec[i]);
      out := out + [v];
    }
    r := Arr(out);
    assert out == Canonicalize(Arr(vec)).items;
  }

  // ---------- paths ----------

  datatype Step = Field(key: Bytes) | Index(i: nat)

  /** The value under key `k` of an object. */
  ghost function Get(es: seq<Entry>, k: Bytes): (r: Option<Value>)
    ensures r.Some? ==> exists i :: 0 <= i < |es| && es[i] == (k, r.value)
    ensures r.None? ==> forall i :: 0 <= i < |es| ==> es[i].0 != k
  {
    if es == [] then None
    else if es[0].0 == k then Some(es[0].1)
    else
      var r := Get(es[1..], k);
      assert r.None? ==> forall i :: 1 <= i < |es| ==> es[i] == es[1..][i - 1];
      r
  }

  /** The value found along a path of object keys and array indexes. */
  ghost function Lookup(v: Value, path: seq<Step>): Option<Value>
    decreases |path|
  {
    if path == [] then Some(v)
    else match (v, path[0])
      case (Obj(es), Field(k)) =>
        (match Get(es, k)
         case Some(u) => Lookup(u, path[1..])
         case None => None)
      case (Arr(xs), Index(i)) => if i < |xs| then Lookup(xs[i], path[1..]) else None
      case _ => None
  }

  lemma GetKeys(es: seq<Entry>, k: Bytes)
    ensures Get(es, k).Some? <==> k in Keys(es)
  {
    if k in Keys(es) {
      var i := KeyIndex(es, k);
    }
  }

  lemma FormGet(es: seq<Entry>, c: seq<Entry>, k: Bytes)
    requires IsForm(es, c)
    ensures Get(c, k) == (match Get(es, k) case Some(u) => Some(Canonicalize(u)) case None => None)
  {
    FormKeys(es, c);
    GetKeys(es, k);
    GetKeys(c, k);
    if k in Keys(es) {
      var i :| 0 <= i < |es| && es[i] == (k, Get(es, k).value);
      var j :| 0 <= j < |c| && c[j] == (k, Get(c, k).value);
      FormValue(es, c, i, j);
    }
  }

  /** Along every path, the canonical form holds the canonical form of what the value holds. */
  lemma {:induction false} CanonicalizeKeepsPaths(v: Value, path: seq<Step>)
    requires WellFormed(v)
    ensures Lookup(Canonicalize(v), path)
         == (match Lookup(v, path) case Some(u) => Some(Canonicalize(u)) case None => None)
    decreases |path|
  {
    if path != [] {
      match (v, path[0])
      case (Obj(es), Field(k)) =>
        ObjectForm(es);
        FormGet(es, CanonicalEntries(es), k);
        if Get(es, k).Some? {
          CanonicalizeKeepsPaths(Get(es, k).value, path[1..]);
        }
      case (Arr(xs), Index(i)) =>
        if i < |xs| { CanonicalizeKeepsPaths(xs[i], path[1..]); }
      case _ =>
    }
  }
}
