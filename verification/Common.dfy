/** Types shared by every part of the model. */
module Common {

  datatype Option<+T> = None | Some(value: T)

  /** A string stands for its UTF-8 encoding, one character a byte. */
  type Bytes = string

  type NodeId = string

  type U8 = x: int | 0 <= x < 0x100 witness 0
  type U32 = x: int | 0 <= x < 0x1_0000_0000 witness 0
  type U64 = x: int | 0 <= x < 0x1_0000_0000_0000_0000 witness 0
  type I64 = x: int | -0x8000_0000_0000_0000 <= x < 0x8000_0000_0000_0000 witness 0

  /** `es` lists the entries of `m`, each once: one order in which a hash map may be iterated. */
  ghost predicate Enumerates<K, V>(es: seq<(K, V)>, m: map<K, V>) {
    && (forall i :: 0 <= i < |es| ==> es[i].0 in m && es[i].1 == m[es[i].0])
    && (forall i, j :: 0 <= i < j < |es| ==> es[i].0 != es[j].0)
    && (forall k :: k in m ==> exists i :: 0 <= i < |es| && es[i].0 == k)
  }

  /** An enumeration of a map without `k` extends to one of the whole map. */
  lemma ExtendEnumeration<K(!new), V(!new)>(tail: seq<(K, V)>, m: map<K, V>, k: K)
    requires k in m && Enumerates(tail, m - {k})
    ensures Enumerates([(k, m[k])] + tail, m)
  {
    var es := [(k, m[k])] + tail;
    forall x | x in m
      ensures exists i :: 0 <= i < |es| && es[i].0 == x
    {
      if x == k {
        assert es[0].0 == x;
      } else {
        assert x in m - {k};
        var i :| 0 <= i < |tail| && tail[i].0 == x;
        assert es[i + 1].0 == x;
      }
    }
  }

  /** Every finite map can be enumerated. */
  lemma {:induction false} EnumerationExists<K(!new), V(!new)>(m: map<K, V>)
    ensures exists es: seq<(K, V)> :: Enumerates(es, m)
    decreases |m|
  {
    if m == map[] {
      assert Enumerates([], m);
    } else {
      var k :| k in m;
      assert m.Keys == (m - {k}).Keys + {k};
      EnumerationExists(m - {k});
      var tail: seq<(K, V)> :| Enumerates(tail, m - {k});
      ExtendEnumeration(tail, m, k);
    }
  }

  /** Two maps with a common enumeration are the same map. */
  lemma EnumerationDetermines<K, V>(es: seq<(K, V)>, m1: map<K, V>, m2: map<K, V>)
    requires Enumerates(es, m1) && Enumerates(es, m2)
    ensures m1 == m2
  {
    assert m1.Keys == m2.Keys;
  }

  lemma Regroup(p: Bytes, q: Bytes, r: Bytes, s: Bytes)
    ensures (p + q) + r + s == p + (q + r + s)
  {
  }
}
