/**
 The laws that theorems ask of the abstract cryptography can all be met at once, so none of those
 theorems is about nothing. The witness is of course no cryptography: its ciphertext is the text.
 */
module Laws {
  import opened Common
  import opened Messages
  import opened Hashing
  import opened Gossip
  import opened Chat
  import opened Network
  import opened ChatRuns
  import opened ChatStatus

  /** Three octets for each character. */
  function Octets3(text: Bytes): seq<U8> {
    if text == [] then []
    else [text[0] as int / 65536, text[0] as int / 256 % 256, text[0] as int % 256] + Octets3(text[1..])
  }

  function Text3(octets: seq<U8>): Bytes {
    if |octets| < 3 then []
    else
      var n: int := octets[0] as int * 65536 + octets[1] as int * 256 + octets[2];
      [CharAt(n)] + Text3(octets[3..])
  }

  function CharAt(n: int): char {
    if 0 <= n < 0xD800 || 0xE000 <= n < 0x11_0000 then n as char else 'x'
  }

  lemma CharRestored(c: char)
    ensures var n := c as int;
            CharAt(n / 65536 * 65536 + n / 256 % 256 * 256 + n % 256) == c
  {
    var n := c as int;
    assert n / 65536 == n / 256 / 256;
  }

  lemma {:induction false} TextRestored(text: Bytes)
    ensures Text3(Octets3(text)) == text
  {
    if text != [] {
      OctetsFront(text);
      CharRestored(text[0]);
      TextRestored(text[1..]);
      assert text == [text[0]] + text[1..];
    }
  }

  lemma OctetsFront(text: Bytes)
    requires text != []
    ensures var o, n := Octets3(text), text[0] as int;
            |o| >= 3 && o[0] == n / 65536 && o[1] == n / 256 % 256 && o[2] == n % 256 && o[3..] == Octets3(text[1..])
  {
  }

  ghost function SomeCrypto(): Crypto {
    Crypto(m => PreimageOf(m), n => Some(n), s => Some(seq(64, i => 0)), (k, d, s) => true)
  }

  function SomeSuite(): Suite {
    Suite((k, d) => "", (k, text, r) => Octets3(text), (k, octets) => Some(Text3(octets)), n => true, now => 0)
  }

  /** An injective hash, signatures that check, decryption that undoes encryption, and keys for plain ids only. */
  lemma LawsCanHold()
    ensures exists c: Crypto, x: Suite, hash: Bytes -> Bytes ::
              Injective(hash) && DigestsHash(c, hash) && DigestsDistinguish(c) && SuiteLaws(c, x)
              && forall n :: c.keyOf(n).Some?
  {
    var c, x, hash := SomeCrypto(), SomeSuite(), (b: Bytes) => b;
    assert Injective(hash) && DigestsHash(c, hash);
    InjectiveHashDistinguishes(c, hash);
    SuiteLawful();
    assert SuiteLaws(c, x);
  }

  lemma SuiteLawful()
    ensures SuiteLaws(SomeCrypto(), SomeSuite())
  {
    var c, x := SomeCrypto(), SomeSuite();
    forall k: Key, text, r ensures x.decrypt(k, x.encrypt(k, text, r)) == Some(text) {
      TextRestored(text);
    }
    forall m: Signed, s ensures c.digest(m.(signature := s)) == c.digest(m) {
      PreimageStable(m, SomeOrders(m.message));
    }
  }

  /** So there are chat worlds, for instance of two linked nodes: what the chat theorems say is about something. */
  lemma PairExists()
    ensures exists w, a, b :: Pair(w, a, b) && DigestsDistinguish(w.net.crypto)
  {
    var a, b := "a", "b";
    var w := ChatWorld(World(map[a := [b], b := [a]], SomeCrypto()), SomeSuite());
    assert a != b by { assert a[0] != b[0]; }
    SuiteLawful();
    InjectiveHashDistinguishes(w.net.crypto, (x: Bytes) => x);
    assert Pair(w, a, b);
  }
}
