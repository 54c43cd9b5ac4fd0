/**
 A reader of compact JSON, by the grammar of RFC 8259: digits count by their decimal value and escapes
 mean what the table in section 7 says. It reads back every printed value, so the printer writes JSON
 and not just some injective text.
 */
module Reader {
  import opened Common
  import opened Json
  import opened Printer

  datatype Reading<T> = Got(value: T, rest: Bytes) | Wrong

  // ---------- numbers ----------

  function DigitValue(c: char): int { c as int - '0' as int }

  /** The decimal value of a row of digits. */
  function Decimal(ds: Bytes): int {
    if ds == [] then 0 else 10 * Decimal(ds[..|ds| - 1]) + DigitValue(ds[|ds| - 1])
  }

  function ReadNum(t: Bytes): (r: Reading<int>)
    ensures r.Got? ==> |r.rest| < |t|
  {
    var negative := t != [] && t[0] == '-';
    var body := if negative then t[1..] else t;
    var n := LeadingDigits(body);
    if n == 0 || n > |body| then Wrong
    else Got(if negative then -Decimal(body[..n]) else Decimal(body[..n]), body[n..])
  }

  lemma {:induction false} DecimalOfPrint(n: nat)
    ensures Decimal(PrintNat(n)) == n
    decreases n
  {
    var p := PrintNat(n);
    if n >= 10 {
      assert p[..|p| - 1] == PrintNat(n / 10) && p[|p| - 1] == Digit(n % 10);
      DecimalOfPrint(n / 10);
    } else {
      assert p[..|p| - 1] == [];
    }
  }

  lemma ReadNatPrinted(n: nat, s: Bytes)
    requires Stops(s)
    ensures LeadingDigits(PrintNat(n) + s) == |PrintNat(n)|
    ensures (PrintNat(n) + s)[..|PrintNat(n)|] == PrintNat(n) && (PrintNat(n) + s)[|PrintNat(n)|..] == s
  {
    LeadingDigitsOf(PrintNat(n), s);
  }

  lemma ReadNumPrinted(n: int, s: Bytes)
    requires Stops(s)
    ensures ReadNum(PrintInt(n) + s) == Got(n, s)
  {
    var k: nat := if n < 0 then -n else n;
    PrintIntSign(n, s);
    ReadNatPrinted(k, s);
    DecimalOfPrint(k);
  }

  // ---------- strings ----------

  /** The value of a hexadecimal digit, or -1. */
  function HexValue(c: char): int {
    if '0' <= c <= '9' then c as int - '0' as int
    else if 'a' <= c <= 'f' then c as int - 'a' as int + 10
    else if 'A' <= c <= 'F' then c as int - 'A' as int + 10
    else -1
  }

  /** The character a short escape stands for. */
  function ShortEscape(c: char): Option<char> {
    if c == '\"' || c == '\\' || c == '/' then Some(c)
    else if c == 'b' then Some(8 as char)
    else if c == 'f' then Some(12 as char)
    else if c == 'n' then Some(10 as char)
    else if c == 'r' then Some(13 as char)
    else if c == 't' then Some(9 as char)
    else None
  }

  /** The ASCII character of four hexadecimal digits; text beyond ASCII is printed as it is. */
  function LongEscape(t: Bytes): Option<char>
    requires |t| == 4
  {
    var a, b := HexValue(t[2]), HexValue(t[3]);
    if HexValue(t[0]) == 0 && HexValue(t[1]) == 0 && 0 <= a < 8 && 0 <= b then Some((16 * a + b) as char) else None
  }

  /** One character of a string, escaped or not. */
  function ReadChar(t: Bytes): (r: Reading<char>)
    ensures r.Got? ==> |r.rest| < |t|
  {
    if t == [] || t[0] == '\"' || t[0] < ' ' then Wrong
    else if t[0] != '\\' then Got(t[0], t[1..])
    else if |t| >= 2 && ShortEscape(t[1]).Some? then Got(ShortEscape(t[1]).value, t[2..])
    else if |t| >= 6 && t[1] == 'u' && LongEscape(t[2..6]).Some? then Got(LongEscape(t[2..6]).value, t[6..])
    else Wrong
  }

  /** The rest of a string, after its opening quote. */
  function ReadChars(t: Bytes): (r: Reading<Bytes>)
    ensures r.Got? ==> |r.rest| < |t|
    decreases |t|
  {
    if t != [] && t[0] == '\"' then Got([], t[1..])
    else match ReadChar(t)
      case Wrong => Wrong
      case Got(c, more) =>
        match ReadChars(more)
        case Wrong => Wrong
        case Got(s, rest) => Got([c] + s, rest)
  }

  lemma HexRead(d: nat)
    requires d < 16
    ensures HexValue(Hex(d)) == d
  {
  }

  lemma ReadCharPrinted(c: char, s: Bytes)
    ensures ReadChar(EscapeChar(c) + s) == Got(c, s)
    ensures (EscapeChar(c) + s)[0] != '\"'
  {
    var p := EscapeChar(c);
    assert (p + s)[|p|..] == s;
    if |p| == 6 {
      assert (p + s)[2..6] == p[2..6];
      HexRead(c as int / 16);
      HexRead(c as int % 16);
      assert p[2..6] == ['0', '0', Hex(c as int / 16), Hex(c as int % 16)];
    }
  }

  lemma {:induction false} ReadCharsPrinted(t: Bytes, s: Bytes)
    ensures ReadChars(Escape(t) + "\"" + s) == Got(t, s)
    decreases |t|
  {
    if t == [] {
      assert Escape(t) + "\"" + s == "\"" + s;
    } else {
      var more := Escape(t[1..]) + "\"" + s;
      Regroup(EscapeChar(t[0]), Escape(t[1..]), "\"", s);
      ReadCharPrinted(t[0], more);
      ReadCharsPrinted(t[1..], s);
      assert [t[0]] + t[1..] == t;
    }
  }

  function ReadStr(t: Bytes): (r: Reading<Bytes>)
    ensures r.Got? ==> |r.rest| < |t|
  {
    if t != [] && t[0] == '\"' then ReadChars(t[1..]) else Wrong
  }

  lemma ReadStrPrinted(t: Bytes, s: Bytes)
    ensures ReadStr(PrintStr(t) + s) == Got(t, s)
  {
    Unwrap("\"", Escape(t), "\"", s);
    ReadCharsPrinted(t, s);
  }

  // ---------- values ----------

  function ReadWord(t: Bytes, word: Bytes, v: Value): (r: Reading<Value>)
    requires word != []
    ensures r.Got? ==> |r.rest| < |t|
  {
    if word <= t then Got(v, t[|word|..]) else Wrong
  }

  function ReadValue(t: Bytes): (r: Reading<Value>)
    ensures r.Got? ==> |r.rest| < |t|
    decreases |t|, 0
  {
    if t == [] then Wrong
    else if t[0] == 'n' then ReadWord(t, "null", Null)
    else if t[0] == 't' then ReadWord(t, "true", Bool(true))
    else if t[0] == 'f' then ReadWord(t, "false", Bool(false))
    else if t[0] == '\"' then
      match ReadStr(t)
      case Got(s, rest) => Got(Str(s), rest)
      case Wrong => Wrong
    else if t[0] == '[' then
      if |t| > 1 && t[1] == ']' then Got(Arr([]), t[2..])
      else match ReadItems(t[1..])
        case Got(items, rest) => Got(Arr(items), rest)
        case Wrong => Wrong
    else if t[0] == '{' then
      if |t| > 1 && t[1] == '}' then Got(Obj([]), t[2..])
      else match ReadEntries(t[1..])
        case Got(entries, rest) => Got(Obj(entries), rest)
        case Wrong => Wrong
    else
      match ReadNum(t)
      case Got(n, rest) => Got(Num(n), rest)
      case Wrong => Wrong
  }

  /** One or more items, with the bracket that closes them. */
  function ReadItems(t: Bytes): (r: Reading<seq<Value>>)
    ensures r.Got? ==> |r.rest| < |t|
    decreases |t|, 1
  {
    match ReadValue(t)
    case Wrong => Wrong
    case Got(v, more) =>
      if more == [] then Wrong
      else if more[0] == ']' then Got([v], more[1..])
      else if more[0] != ',' then Wrong
      else match ReadItems(more[1..])
        case Wrong => Wrong
        case Got(items, rest) => Got([v] + items, rest)
  }

  function ReadEntry(t: Bytes): (r: Reading<Entry>)
    ensures r.Got? ==> |r.rest| < |t|
    decreases |t|, 1
  {
    match ReadStr(t)
    case Wrong => Wrong
    case Got(k, more) =>
      if more == [] || more[0] != ':' then Wrong
      else match ReadValue(more[1..])
        case Wrong => Wrong
        case Got(v, rest) => Got((k, v), rest)
  }

  /** One or more entries, with the brace that closes them. */
  function ReadEntries(t: Bytes): (r: Reading<seq<Entry>>)
    ensures r.Got? ==> |r.rest| < |t|
    decreases |t|, 2
  {
    match ReadEntry(t)
    case Wrong => Wrong
    case Got(e, more) =>
      if more == [] then Wrong
      else if more[0] == '}' then Got([e], more[1..])
      else if more[0] != ',' then Wrong
      else match ReadEntries(more[1..])
        case Wrong => Wrong
        case Got(entries, rest) => Got([e] + entries, rest)
  }

  // ---------- what is printed is read ----------

  lemma WordRead(word: Bytes, s: Bytes, v: Value)
    requires word != []
    ensures ReadWord(word + s, word, v) == Got(v, s)
  {
    assert (word + s)[|word|..] == s;
  }

  lemma NumRead(n: int, s: Bytes)
    requires Stops(s)
    ensures ReadValue(PrintInt(n) + s) == Got(Num(n), s)
  {
    ReadNumPrinted(n, s);
    PrintFront(Num(n), s);
  }

  lemma StrRead(x: Bytes, s: Bytes)
    ensures ReadValue(PrintStr(x) + s) == Got(Str(x), s)
  {
    ReadStrPrinted(x, s);
    PrintFront(Str(x), s);
  }

  /** Every value is read back, with whatever follows it; only after a number that must not be a digit. */
  lemma {:induction false} PrintedIsRead(v: Value, s: Bytes)
    requires v.Num? ==> Stops(s)
    ensures ReadValue(Print(v) + s) == Got(v, s)
    decreases v, 1
  {
    match v
    case Null => WordRead("null", s, v);
    case Bool(b) => WordRead(Print(v), s, v);
    case Num(n) => NumRead(n, s);
    case Str(x) => StrRead(x, s);
    case Arr(items) =>
      if items != [] { ItemsRead(items, s); }
      ArrRead(items, s);
    case Obj(entries) =>
      if entries != [] { EntriesRead(entries, s); }
      ObjRead(entries, s);
  }

  lemma ArrRead(items: seq<Value>, s: Bytes)
    requires items != [] ==> ReadItems(PrintItems(items) + "]" + s) == Got(items, s)
    ensures ReadValue(Print(Arr(items)) + s) == Got(Arr(items), s)
  {
    ItemsFront(items, s);
    ArrText(items, s);
  }

  lemma ObjRead(entries: seq<Entry>, s: Bytes)
    requires entries != [] ==> ReadEntries(PrintEntries(entries) + "}" + s) == Got(entries, s)
    ensures ReadValue(Print(Obj(entries)) + s) == Got(Obj(entries), s)
  {
    EntriesFront(entries, s);
    ObjText(entries, s);
  }

  lemma ArrText(items: seq<Value>, s: Bytes)
    ensures var t := Print(Arr(items)) + s;
            && t[0] == '[' && t[1..] == PrintItems(items) + "]" + s && |t| > 1 && t[1] == t[1..][0] && t[2..] == t[1..][1..]
  {
    Unwrap("[", PrintItems(items), "]", s);
  }

  lemma ObjText(entries: seq<Entry>, s: Bytes)
    ensures var t := Print(Obj(entries)) + s;
            && t[0] == '{' && t[1..] == PrintEntries(entries) + "}" + s && |t| > 1 && t[1] == t[1..][0] && t[2..] == t[1..][1..]
  {
    Unwrap("{", PrintEntries(entries), "}", s);
  }

  /** Reading items one at a time. */
  lemma ItemsNext(t: Bytes, v: Value, more: Bytes, items: seq<Value>, rest: Bytes)
    requires ReadValue(t) == Got(v, more) && more != []
    ensures more[0] == ']' ==> ReadItems(t) == Got([v], more[1..])
    ensures more[0] == ',' && ReadItems(more[1..]) == Got(items, rest) ==> ReadItems(t) == Got([v] + items, rest)
  {
  }

  lemma EntriesNext(t: Bytes, e: Entry, more: Bytes, entries: seq<Entry>, rest: Bytes)
    requires ReadEntry(t) == Got(e, more) && more != []
    ensures more[0] == '}' ==> ReadEntries(t) == Got([e], more[1..])
    ensures more[0] == ',' && ReadEntries(more[1..]) == Got(entries, rest) ==> ReadEntries(t) == Got([e] + entries, rest)
  {
  }

  lemma {:induction false} FirstItemRead(items: seq<Value>, s: Bytes)
    requires items != []
    ensures ReadValue(PrintItems(items) + "]" + s) == Got(items[0], AfterItem(items, s))
    decreases items, 0
  {
    ItemsFront(items, s);
    AfterItemStops(items, s);
    PrintedIsRead(items[0], AfterItem(items, s));
  }

  lemma {:induction false} ItemsRead(items: seq<Value>, s: Bytes)
    requires items != []
    ensures ReadItems(PrintItems(items) + "]" + s) == Got(items, s)
    decreases items, 1
  {
    var rest := items[1..];
    assert items == [items[0]] + rest;
    FirstItemRead(items, s);
    AfterItemStops(items, s);
    if rest != [] { ItemsRead(rest, s); } else { assert items == [items[0]]; }
    ItemsNext(PrintItems(items) + "]" + s, items[0], AfterItem(items, s), rest, s);
  }

  lemma AfterItemStops(items: seq<Value>, s: Bytes)
    requires items != []
    ensures var t := AfterItem(items, s);
            && t != [] && Stops(t) && t[0] == (if |items| == 1 then ']' else ',')
            && t[1..] == if |items| == 1 then s else PrintItems(items[1..]) + "]" + s
  {
    AfterItemParts(items, s);
  }

  lemma AfterEntryStops(entries: seq<Entry>, s: Bytes)
    requires entries != []
    ensures var t := AfterEntry(entries, s);
            && t != [] && Stops(t) && t[0] == (if |entries| == 1 then '}' else ',')
            && t[1..] == if |entries| == 1 then s else PrintEntries(entries[1..]) + "}" + s
  {
    AfterEntryParts(entries, s);
  }

  lemma {:induction false} EntryRead(e: Entry, s: Bytes)
    requires Stops(s)
    ensures ReadEntry(PrintEntry(e) + s) == Got(e, s)
    decreases e, 2
  {
    EntryFront(e, s);
    ReadStrPrinted(e.0, ":" + (Print(e.1) + s));
    assert (":" + (Print(e.1) + s))[1..] == Print(e.1) + s;
    PrintedIsRead(e.1, s);
  }

  lemma {:induction false} FirstEntryRead(entries: seq<Entry>, s: Bytes)
    requires entries != []
    ensures ReadEntry(PrintEntries(entries) + "}" + s) == Got(entries[0], AfterEntry(entries, s))
    decreases entries, 0
  {
    EntriesFront(entries, s);
    AfterEntryStops(entries, s);
    EntryRead(entries[0], AfterEntry(entries, s));
  }

  lemma {:induction false} EntriesRead(entries: seq<Entry>, s: Bytes)
    requires entries != []
    ensures ReadEntries(PrintEntries(entries) + "}" + s) == Got(entries, s)
    decreases entries, 1
  {
    var rest := entries[1..];
    assert entries == [entries[0]] + rest;
    FirstEntryRead(entries, s);
    AfterEntryStops(entries, s);
    if rest != [] { EntriesRead(rest, s); } else { assert entries == [entries[0]]; }
    EntriesNext(PrintEntries(entries) + "}" + s, entries[0], AfterEntry(entries, s), rest, s);
  }
}
