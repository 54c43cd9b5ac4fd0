/**
 The compact JSON printer (`serde_json::to_vec`) on the values the program serializes, and the
 proof that it is injective: every printed value can be read off the front of a byte string in
 one way only. String escapes are those of section 7 of RFC 8259 that the printer emits.
 */
module Printer {
  import opened Common
  import opened Json

  // ---------- numbers ----------

  function Digit(d: nat): char
    requires d < 10
  {
    '0' + (d as char)
  }

  predicate IsDigit(c: char) { '0' <= c <= '9' }

  function PrintNat(n: nat): (r: Bytes)
    ensures r != [] && forall i :: 0 <= i < |r| ==> IsDigit(r[i])
  {
    if n < 10 then [Digit(n)] else PrintNat(n / 10) + [Digit(n % 10)]
  }

  function PrintInt(n: int): Bytes {
    if n < 0 then "-" + PrintNat(-n) else PrintNat(n)
  }

  lemma {:induction false} PrintNatInjective(m: nat, n: nat)
    requires PrintNat(m) == PrintNat(n)
    ensures m == n
    decreases m
  {
    var p, q := PrintNat(m), PrintNat(n);
    assert p[|p| - 1] == Digit(m % 10) && q[|q| - 1] == Digit(n % 10);
    if m >= 10 && n >= 10 {
      assert PrintNat(m / 10) == p[..|p| - 1] == q[..|q| - 1] == PrintNat(n / 10);
      PrintNatInjective(m / 10, n / 10);
    }
  }

  /** A byte string that cannot continue a number. */
  predicate Stops(s: Bytes) { s == [] || !IsDigit(s[0]) }

  /** The number of digits at the front of `s`. */
  function LeadingDigits(s: Bytes): nat {
    if Stops(s) then 0 else 1 + LeadingDigits(s[1..])
  }

  lemma {:induction false} LeadingDigitsOf(p: Bytes, s: Bytes)
    requires (forall i :: 0 <= i < |p| ==> IsDigit(p[i])) && Stops(s)
    ensures LeadingDigits(p + s) == |p|
  {
    if p != [] {
      assert (p + s)[1..] == p[1..] + s;
      LeadingDigitsOf(p[1..], s);
    } else {
      assert p + s == s;
    }
  }

  lemma PrintNatPrefix(m: nat, n: nat, s: Bytes, t: Bytes)
    requires PrintNat(m) + s == PrintNat(n) + t && Stops(s) && Stops(t)
    ensures m == n && s == t
  {
    var p, q := PrintNat(m), PrintNat(n);
    LeadingDigitsOf(p, s);
    LeadingDigitsOf(q, t);
    assert p == (p + s)[..|p|] == (q + t)[..|q|] == q;
    assert s == (p + s)[|p|..] == (q + t)[|q|..] == t;
    PrintNatInjective(m, n);
  }

  lemma PrintIntSign(n: int, s: Bytes)
    ensures (PrintInt(n) + s)[0] == '-' <==> n < 0
    ensures n < 0 ==> (PrintInt(n) + s)[1..] == PrintNat(-n) + s
  {
    if n < 0 {
      assert PrintInt(n) + s == "-" + (PrintNat(-n) + s);
    } else {
      assert IsDigit(PrintNat(n)[0]);
    }
  }

  lemma PrintIntPrefix(m: int, n: int, s: Bytes, t: Bytes)
    requires PrintInt(m) + s == PrintInt(n) + t && Stops(s) && Stops(t)
    ensures m == n && s == t
  {
    PrintIntSign(m, s);
    PrintIntSign(n, t);
    if m < 0 {
      PrintNatPrefix(-m, -n, s, t);
    } else {
      PrintNatPrefix(m, n, s, t);
    }
  }

  // ---------- strings ----------

  function Hex(d: nat): char
    requires d < 16
  {
    if d < 10 then '0' + (d as char) else 'a' + ((d - 10) as char)
  }

  function EscapeChar(c: char): (r: Bytes)
    ensures r != []
  {
    if c == '\"' then "\\\""
    else if c == '\\' then "\\\\"
    else if c == 8 as char then "\\b"
    else if c == '\t' then "\\t"
    else if c == '\n' then "\\n"
    else if c == 12 as char then "\\f"
    else if c == '\r' then "\\r"
    else if c < ' ' then "\\u00" + [Hex(c as int / 16), Hex(c as int % 16)]
    else [c]
  }

  function Escape(s: Bytes): Bytes {
    if s == [] then [] else EscapeChar(s[0]) + Escape(s[1..])
  }

  function PrintStr(s: Bytes): Bytes { "\"" + Escape(s) + "\"" }

  lemma EscapeCharPrefix(c: char, d: char, s: Bytes, t: Bytes)
    requires EscapeChar(c) + s == EscapeChar(d) + t
    ensures c == d && s == t
  {
    var p, q := EscapeChar(c), EscapeChar(d);
    assert (p + s)[0] == p[0] && (q + t)[0] == q[0];
    if |p| > 1 && |q| > 1 {
      assert (p + s)[1] == p[1] && (q + t)[1] == q[1];
      if |p| == 6 {
        assert (p + s)[4] == p[4] && (q + t)[4] == q[4];
        assert (p + s)[5] == p[5] && (q + t)[5] == q[5];
        assert c as int / 16 == d as int / 16 && c as int % 16 == d as int % 16;
      }
    }
    assert c == d;
    assert s == (p + s)[|p|..] == t;
  }

  lemma EscapeFront(a: Bytes, s: Bytes)
    ensures Escape(a) + "\"" + s != []
    ensures (Escape(a) + "\"" + s)[0] == '\"' <==> a == []
    ensures a == [] ==> (Escape(a) + "\"" + s)[1..] == s
    ensures a != [] ==> Escape(a) + "\"" + s == EscapeChar(a[0]) + (Escape(a[1..]) + "\"" + s)
  {
    if a != [] {
      assert EscapeChar(a[0])[0] != '\"';
      Regroup(EscapeChar(a[0]), Escape(a[1..]), "\"", s);
    }
  }

  lemma {:induction false} EscapePrefix(a: Bytes, b: Bytes, s: Bytes, t: Bytes)
    requires Escape(a) + "\"" + s == Escape(b) + "\"" + t
    ensures a == b && s == t
    decreases |a|
  {
    EscapeFront(a, s);
    EscapeFront(b, t);
    if a != [] {
      EscapeCharPrefix(a[0], b[0], Escape(a[1..]) + "\"" + s, Escape(b[1..]) + "\"" + t);
      EscapePrefix(a[1..], b[1..], s, t);
      assert a == [a[0]] + a[1..] && b == [b[0]] + b[1..];
    }
  }

  lemma PrintStrPrefix(a: Bytes, b: Bytes, s: Bytes, t: Bytes)
    requires PrintStr(a) + s == PrintStr(b) + t
    ensures a == b && s == t
  {
    Unwrap("\"", Escape(a), "\"", s);
    Unwrap("\"", Escape(b), "\"", t);
    EscapePrefix(a, b, s, t);
  }

  // ---------- values ----------

  function Print(v: Value): (r: Bytes)
    ensures r != []
    decreases v, 1
  {
    match v
    case Null => "null"
    case Bool(b) => if b then "true" else "false"
    case Num(n) => PrintInt(n)
    case Str(s) => PrintStr(s)
    case Arr(items) => "[" + PrintItems(items) + "]"
    case Obj(entries) => "{" + PrintEntries(entries) + "}"
  }

  function PrintItems(items: seq<Value>): Bytes
    decreases items, 0
  {
    if items == [] then ""
    else Print(items[0]) + (if |items| == 1 then "" else "," + PrintItems(items[1..]))
  }

  function PrintEntry(e: Entry): Bytes
    decreases e, 2
  {
    PrintStr(e.0) + ":" + Print(e.1)
  }

  function PrintEntries(entries: seq<Entry>): Bytes
    decreases entries, 0
  {
    if entries == [] then ""
    else
      PrintEntry(entries[0]) + (if |entries| == 1 then "" else "," + PrintEntries(entries[1..]))
  }

  // ---------- injectivity ----------

  /** What may follow a printed value inside a document. */
  predicate Ends(s: Bytes) { s == [] || s[0] in ",]}" }

  datatype Kind = KNull | KBool | KNum | KStr | KArr | KObj | KNone

  function KindOf(v: Value): Kind {
    match v
    case Null => KNull
    case Bool(_) => KBool
    case Num(_) => KNum
    case Str(_) => KStr
    case Arr(_) => KArr
    case Obj(_) => KObj
  }

  /** The kind of the value that a character starts. */
  function KindAt(c: char): Kind {
    if c == 'n' then KNull
    else if c == 't' || c == 'f' then KBool
    else if c == '-' || IsDigit(c) then KNum
    else if c == '\"' then KStr
    else if c == '[' then KArr
    else if c == '{' then KObj
    else KNone
  }

  lemma PrintFront(v: Value, s: Bytes)
    ensures (Print(v) + s)[0] == Print(v)[0]
    ensures KindAt(Print(v)[0]) == KindOf(v)
  {
  }

  /** The text after the first printed item of a nonempty array. */
  ghost function AfterItem(xs: seq<Value>, s: Bytes): Bytes
    requires xs != []
  {
    if |xs| == 1 then "]" + s else "," + (PrintItems(xs[1..]) + "]" + s)
  }

  lemma ItemsFront(xs: seq<Value>, s: Bytes)
    ensures (PrintItems(xs) + "]" + s)[0] == ']' <==> xs == []
    ensures xs == [] ==> (PrintItems(xs) + "]" + s)[1..] == s
    ensures xs != [] ==> PrintItems(xs) + "]" + s == Print(xs[0]) + AfterItem(xs, s)
  {
    if xs != [] {
      PrintFront(xs[0], AfterItem(xs, s));
      ItemsSplit(xs, s);
    }
  }

  lemma ItemsSplit(xs: seq<Value>, s: Bytes)
    requires xs != []
    ensures PrintItems(xs) + "]" + s == Print(xs[0]) + AfterItem(xs, s)
  {
    if |xs| == 1 {
      assert PrintItems(xs) == Print(xs[0]);
      assert Print(xs[0]) + "]" + s == Print(xs[0]) + ("]" + s);
    } else {
      var rest := PrintItems(xs[1..]);
      assert PrintItems(xs) == Print(xs[0]) + ("," + rest);
      Regroup(Print(xs[0]), "," + rest, "]", s);
      Regroup(",", rest, "]", s);
    }
  }

  ghost function AfterEntry(xs: seq<Entry>, s: Bytes): Bytes
    requires xs != []
  {
    if |xs| == 1 then "}" + s else "," + (PrintEntries(xs[1..]) + "}" + s)
  }

  lemma EntryFront(e: Entry, s: Bytes)
    ensures PrintEntry(e) + s == PrintStr(e.0) + (":" + (Print(e.1) + s))
    ensures (PrintEntry(e) + s)[0] == '\"'
  {
    Regroup(PrintStr(e.0), ":", Print(e.1), s);
    Regroup("", ":", Print(e.1), s);
    assert PrintStr(e.0)[0] == '\"';
  }

  /** What the text after the first item tells: whether there are more items, and what follows. */
  lemma AfterItemParts(xs: seq<Value>, s: Bytes)
    requires xs != []
    ensures Ends(AfterItem(xs, s)) && (AfterItem(xs, s)[0] == ']' <==> |xs| == 1)
    ensures AfterItem(xs, s)[1..] == if |xs| == 1 then s else PrintItems(xs[1..]) + "]" + s
  {
  }

  lemma AfterEntryParts(xs: seq<Entry>, s: Bytes)
    requires xs != []
    ensures Ends(AfterEntry(xs, s)) && (AfterEntry(xs, s)[0] == '}' <==> |xs| == 1)
    ensures AfterEntry(xs, s)[1..] == if |xs| == 1 then s else PrintEntries(xs[1..]) + "}" + s
  {
  }

  lemma EntriesFront(xs: seq<Entry>, s: Bytes)
    ensures (PrintEntries(xs) + "}" + s)[0] == '}' <==> xs == []
    ensures xs == [] ==> (PrintEntries(xs) + "}" + s)[1..] == s
    ensures xs != [] ==> PrintEntries(xs) + "}" + s == PrintEntry(xs[0]) + AfterEntry(xs, s)
  {
    if xs != [] {
      EntriesSplit(xs, s);
      EntryFront(xs[0], AfterEntry(xs, s));
    }
  }

  lemma EntriesSplit(xs: seq<Entry>, s: Bytes)
    requires xs != []
    ensures PrintEntries(xs) + "}" + s == PrintEntry(xs[0]) + AfterEntry(xs, s)
  {
    if |xs| == 1 {
      assert PrintEntries(xs) == PrintEntry(xs[0]);
      assert PrintEntry(xs[0]) + "}" + s == PrintEntry(xs[0]) + ("}" + s);
    } else {
      var rest := PrintEntries(xs[1..]);
      assert PrintEntries(xs) == PrintEntry(xs[0]) + ("," + rest);
      Regroup(PrintEntry(xs[0]), "," + rest, "}", s);
      Regroup(",", rest, "}", s);
    }
  }

  /** Reading a value off the front of a text succeeds in at most one way. */
  lemma {:induction false} PrintPrefix(a: Value, b: Value, s: Bytes, t: Bytes)
    requires Print(a) + s == Print(b) + t && Ends(s) && Ends(t)
    ensures a == b && s == t
    decreases a, 1
  {
    PrintFront(a, s);
    PrintFront(b, t);
    assert KindOf(a) == KindOf(b);
    match a
    case Null => SamePrefix("null", s, t);
    case Bool(x) => SamePrefix(Print(a), s, t);
    case Num(n) => PrintIntPrefix(n, b.n, s, t);
    case Str(x) => PrintStrPrefix(x, b.s, s, t);
    case Arr(xs) =>
      Unwrap("[", PrintItems(xs), "]", s);
      Unwrap("[", PrintItems(b.items), "]", t);
      ItemsPrefix(xs, b.items, s, t);
    case Obj(xs) =>
      Unwrap("{", PrintEntries(xs), "}", s);
      Unwrap("{", PrintEntries(b.entries), "}", t);
      EntriesPrefix(xs, b.entries, s, t);
  }

  lemma SamePrefix(p: Bytes, s: Bytes, t: Bytes)
    requires p + s == p + t
    ensures s == t
  {
    assert s == (p + s)[|p|..] == (p + t)[|p|..] == t;
  }

  lemma Unwrap(o: Bytes, p: Bytes, c: Bytes, s: Bytes)
    requires |o| == 1
    ensures (o + p + c + s)[1..] == p + c + s
  {
    Regroup(o, p, c, s);
  }

  lemma AfterItemEnds(xs: seq<Value>, s: Bytes)
    requires xs != []
    ensures Ends(AfterItem(xs, s))
  {
    AfterItemParts(xs, s);
  }

  /** Equal texts after the first element: both lists end there, or the rest of both is printed alike. */
  lemma AfterItemEqual(xs: seq<Value>, ys: seq<Value>, s: Bytes, t: Bytes)
    requires xs != [] && ys != [] && AfterItem(xs, s) == AfterItem(ys, t)
    ensures |xs| == 1 <==> |ys| == 1
    ensures |xs| == 1 ==> s == t
    ensures |xs| > 1 ==> PrintItems(xs[1..]) + "]" + s == PrintItems(ys[1..]) + "]" + t
  {
    AfterItemParts(xs, s);
    AfterItemParts(ys, t);
  }

  /** Equal texts of two lists: both are empty, or the first elements are printed in front alike. */
  lemma ItemsFrontEqual(xs: seq<Value>, ys: seq<Value>, s: Bytes, t: Bytes)
    requires PrintItems(xs) + "]" + s == PrintItems(ys) + "]" + t
    ensures xs == [] <==> ys == []
    ensures xs == [] ==> s == t
    ensures xs != [] ==> Print(xs[0]) + AfterItem(xs, s) == Print(ys[0]) + AfterItem(ys, t)
  {
    ItemsFront(xs, s);
    ItemsFront(ys, t);
  }

  lemma {:induction false} ItemsPrefix(xs: seq<Value>, ys: seq<Value>, s: Bytes, t: Bytes)
    requires PrintItems(xs) + "]" + s == PrintItems(ys) + "]" + t
    ensures xs == ys && s == t
    decreases xs, 1
  {
    ItemsFrontEqual(xs, ys, s, t);
    if xs != [] {
      AfterItemEnds(xs, s);
      AfterItemEnds(ys, t);
      PrintPrefix(xs[0], ys[0], AfterItem(xs, s), AfterItem(ys, t));
      AfterItemEqual(xs, ys, s, t);
      if |xs| > 1 {
        ItemsPrefixMore(xs, ys, s, t);
      } else {
        assert xs == [xs[0]] && ys == [ys[0]];
      }
    }
  }

  lemma {:induction false} ItemsPrefixMore(xs: seq<Value>, ys: seq<Value>, s: Bytes, t: Bytes)
    requires |xs| > 1 && |ys| > 1 && xs[0] == ys[0]
    requires PrintItems(xs[1..]) + "]" + s == PrintItems(ys[1..]) + "]" + t
    ensures xs == ys && s == t
    decreases xs, 0
  {
    ItemsPrefix(xs[1..], ys[1..], s, t);
    assert xs == [xs[0]] + xs[1..] && ys == [ys[0]] + ys[1..];
  }

  lemma AfterEntryEnds(xs: seq<Entry>, s: Bytes)
    requires xs != []
    ensures Ends(AfterEntry(xs, s))
  {
    AfterEntryParts(xs, s);
  }

  /** Equal texts after the first element: both lists end there, or the rest of both is printed alike. */
  lemma AfterEntryEqual(xs: seq<Entry>, ys: seq<Entry>, s: Bytes, t: Bytes)
    requires xs != [] && ys != [] && AfterEntry(xs, s) == AfterEntry(ys, t)
    ensures |xs| == 1 <==> |ys| == 1
    ensures |xs| == 1 ==> s == t
    ensures |xs| > 1 ==> PrintEntries(xs[1..]) + "}" + s == PrintEntries(ys[1..]) + "}" + t
  {
    AfterEntryParts(xs, s);
    AfterEntryParts(ys, t);
  }

  /** Equal texts of two lists: both are empty, or the first elements are printed in front alike. */
  lemma EntriesFrontEqual(xs: seq<Entry>, ys: seq<Entry>, s: Bytes, t: Bytes)
    requires PrintEntries(xs) + "}" + s == PrintEntries(ys) + "}" + t
    ensures xs == [] <==> ys == []
    ensures xs == [] ==> s == t
    ensures xs != [] ==> PrintEntry(xs[0]) + AfterEntry(xs, s) == PrintEntry(ys[0]) + AfterEntry(ys, t)
  {
    EntriesFront(xs, s);
    EntriesFront(ys, t);
  }

  lemma {:induction false} EntriesPrefix(xs: seq<Entry>, ys: seq<Entry>, s: Bytes, t: Bytes)
    requires PrintEntries(xs) + "}" + s == PrintEntries(ys) + "}" + t
    ensures xs == ys && s == t
    decreases xs, 1
  {
    EntriesFrontEqual(xs, ys, s, t);
    if xs != [] {
      AfterEntryEnds(xs, s);
      AfterEntryEnds(ys, t);
      EntryPrefix(xs[0], ys[0], AfterEntry(xs, s), AfterEntry(ys, t));
      AfterEntryEqual(xs, ys, s, t);
      if |xs| > 1 {
        EntriesPrefixMore(xs, ys, s, t);
      } else {
        assert xs == [xs[0]] && ys == [ys[0]];
      }
    }
  }

  lemma {:induction false} EntriesPrefixMore(xs: seq<Entry>, ys: seq<Entry>, s: Bytes, t: Bytes)
    requires |xs| > 1 && |ys| > 1 && xs[0] == ys[0]
    requires PrintEntries(xs[1..]) + "}" + s == PrintEntries(ys[1..]) + "}" + t
    ensures xs == ys && s == t
    decreases xs, 0
  {
    EntriesPrefix(xs[1..], ys[1..], s, t);
    assert xs == [xs[0]] + xs[1..] && ys == [ys[0]] + ys[1..];
  }

  lemma {:induction false} EntryPrefix(e: Entry, f: Entry, s: Bytes, t: Bytes)
    requires PrintEntry(e) + s == PrintEntry(f) + t && Ends(s) && Ends(t)
    ensures e == f && s == t
    decreases e, 2
  {
    EntryFront(e, s);
    EntryFront(f, t);
    PrintStrPrefix(e.0, f.0, ":" + (Print(e.1) + s), ":" + (Print(f.1) + t));
    assert Print(e.1) + s == (":" + (Print(e.1) + s))[1..] == (":" + (Print(f.1) + t))[1..] == Print(f.1) + t;
    PrintPrefix(e.1, f.1, s, t);
  }

  lemma PrintInjective(a: Value, b: Value)
    requires Print(a) == Print(b)
    ensures a == b
  {
    assert Print(a) + [] == Print(a) && Print(b) + [] == Print(b);
    PrintPrefix(a, b, [], []);
  }
}
