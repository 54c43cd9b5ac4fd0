/**
 Where a printed value can end. A scanner keeps the nesting depth and whether it is inside a string;
 after a string only `:`, `,`, `]` or `}` may follow. It accepts every printed value and is back at the
 depth it started from. Hence no printed object is a proper suffix of another one: a suffix that starts
 between tokens leaves a bracket over, and one that starts inside a string ends that string at its own
 first quote, with a letter after it.
 */
module Scanner {
  import opened Common
  import opened Json
  import opened Printer

  datatype Mode = Out | In | Esc | Closed

  datatype Scan = At(depth: nat, mode: Mode) | Bad

  function Structure(d: nat, c: char): Scan {
    if c == '\"' then At(d, In)
    else if c == '{' || c == '[' then At(d + 1, Out)
    else if c == '}' || c == ']' then if d == 0 then Bad else At(d - 1, Out)
    else At(d, Out)
  }

  function Step(s: Scan, c: char): Scan {
    match s
    case Bad => Bad
    case At(d, In) => if c == '\"' then At(d, Closed) else if c == '\\' then At(d, Esc) else s
    case At(d, Esc) => At(d, In)
    case At(d, Closed) => if c == ':' || c == ',' || c == ']' || c == '}' then Structure(d, c) else Bad
    case At(d, Out) => Structure(d, c)
  }

  function Run(s: Scan, t: Bytes): Scan
    decreases |t|
  {
    if t == [] then s else Run(Step(s, t[0]), t[1..])
  }

  lemma {:induction false} RunAppend(s: Scan, a: Bytes, b: Bytes)
    ensures Run(s, a + b) == Run(Run(s, a), b)
    decreases |a|
  {
    if a == [] {
      assert a + b == b;
    } else {
      assert (a + b)[0] == a[0] && (a + b)[1..] == a[1..] + b;
      RunAppend(Step(s, a[0]), a[1..], b);
    }
  }

  lemma RunOne(s: Scan, c: char)
    ensures Run(s, [c]) == Step(s, c)
  {
    assert [c][1..] == [];
  }

  lemma {:induction false} RunBad(t: Bytes)
    ensures Run(Bad, t) == Bad
  {
    if t != [] { RunBad(t[1..]); }
  }

  /** A text that scans scans the same `k` levels deeper. */
  lemma {:induction false} RunDeeper(d: nat, m: Mode, k: nat, t: Bytes)
    requires Run(At(d, m), t) != Bad
    ensures var end := Run(At(d, m), t);
            Run(At(d + k, m), t) == At(end.depth + k, end.mode)
    decreases |t|
  {
    if t != [] {
      var next := Step(At(d, m), t[0]);
      if next == Bad { RunBad(t[1..]); }
      assert next != Bad;
      RunDeeper(next.depth, next.mode, k, t[1..]);
    }
  }

  // ---------- printed values scan ----------

  /** The scan of a whole value that started at depth `d`. */
  predicate Done(d: nat, s: Scan) { s == At(d, Out) || s == At(d, Closed) }

  predicate Bare(c: char) { c != '\"' && c != '{' && c != '}' && c != '[' && c != ']' }

  lemma {:induction false} BareRun(d: nat, t: Bytes)
    requires forall i :: 0 <= i < |t| ==> Bare(t[i])
    ensures Run(At(d, Out), t) == At(d, Out)
  {
    if t != [] { BareRun(d, t[1..]); }
  }

  lemma EscapeCharRun(d: nat, c: char)
    ensures Run(At(d, In), EscapeChar(c)) == At(d, In)
  {
    var p := EscapeChar(c);
    if |p| == 1 {
      RunOne(At(d, In), c);
      assert p == [c];
    } else {
      var rest := p[2..];
      assert p == [p[0]] + ([p[1]] + rest);
      RunAppend(At(d, In), [p[0]], [p[1]] + rest);
      RunOne(At(d, In), p[0]);
      RunAppend(At(d, Esc), [p[1]], rest);
      RunOne(At(d, Esc), p[1]);
      QuietRun(d, rest);
    }
  }

  /** Characters inside a string that neither end it nor escape. */
  lemma {:induction false} QuietRun(d: nat, t: Bytes)
    requires forall i :: 0 <= i < |t| ==> t[i] != '\"' && t[i] != '\\'
    ensures Run(At(d, In), t) == At(d, In)
  {
    if t != [] { QuietRun(d, t[1..]); }
  }

  lemma {:induction false} EscapeRun(d: nat, s: Bytes)
    ensures Run(At(d, In), Escape(s)) == At(d, In)
  {
    if s != [] {
      EscapeCharRun(d, s[0]);
      RunAppend(At(d, In), EscapeChar(s[0]), Escape(s[1..]));
      EscapeRun(d, s[1..]);
    }
  }

  lemma StrRun(d: nat, s: Bytes)
    ensures Run(At(d, Out), PrintStr(s)) == At(d, Closed)
  {
    assert PrintStr(s) == ['\"'] + (Escape(s) + ['\"']);
    RunAppend(At(d, Out), ['\"'], Escape(s) + ['\"']);
    RunOne(At(d, Out), '\"');
    RunAppend(At(d, In), Escape(s), ['\"']);
    EscapeRun(d, s);
    RunOne(At(d, In), '\"');
  }

  /** After a whole value, a comma or colon goes on at the same depth. */
  lemma AfterDone(d: nat, s: Scan, c: char, t: Bytes)
    requires Done(d, s) && (c == ',' || c == ':')
    ensures Run(s, [c] + t) == Run(At(d, Out), t)
  {
    RunAppend(s, [c], t);
    RunOne(s, c);
  }

  lemma BracketRun(d: nat, open: char, body: Bytes, close: char)
    requires (open == '{' && close == '}') || (open == '[' && close == ']')
    requires Done(d + 1, Run(At(d + 1, Out), body))
    ensures Run(At(d, Out), [open] + body + [close]) == At(d, Out)
  {
    assert [open] + body + [close] == [open] + (body + [close]);
    RunAppend(At(d, Out), [open], body + [close]);
    RunOne(At(d, Out), open);
    RunAppend(At(d + 1, Out), body, [close]);
    RunOne(Run(At(d + 1, Out), body), close);
  }

  lemma {:induction false} ValueRun(d: nat, v: Value)
    ensures Done(d, Run(At(d, Out), Print(v)))
    ensures v.Obj? ==> Run(At(d, Out), Print(v)) == At(d, Out)
    decreases v, 1
  {
    match v
    case Str(s) => StrRun(d, s);
    case Arr(items) =>
      ItemsRun(d + 1, items);
      assert Print(v) == ['['] + PrintItems(items) + [']'];
      BracketRun(d, '[', PrintItems(items), ']');
    case Obj(entries) =>
      EntriesRun(d + 1, entries);
      assert Print(v) == ['{'] + PrintEntries(entries) + ['}'];
      BracketRun(d, '{', PrintEntries(entries), '}');
    case Num(n) => BareRun(d, PrintInt(n));
    case _ => BareRun(d, Print(v));
  }

  lemma {:induction false} ItemsRun(d: nat, items: seq<Value>)
    ensures Done(d, Run(At(d, Out), PrintItems(items)))
    decreases items, 0
  {
    if items != [] {
      ValueRun(d, items[0]);
      if |items| > 1 {
        var rest := PrintItems(items[1..]);
        ItemsRun(d, items[1..]);
        assert PrintItems(items) == Print(items[0]) + ([','] + rest);
        RunAppend(At(d, Out), Print(items[0]), [','] + rest);
        AfterDone(d, Run(At(d, Out), Print(items[0])), ',', rest);
      } else {
        assert PrintItems(items) == Print(items[0]);
      }
    }
  }

  lemma {:induction false} EntryRun(d: nat, e: Entry)
    ensures Done(d, Run(At(d, Out), PrintEntry(e)))
    decreases e, 2
  {
    StrRun(d, e.0);
    ValueRun(d, e.1);
    assert PrintEntry(e) == PrintStr(e.0) + ([':'] + Print(e.1));
    RunAppend(At(d, Out), PrintStr(e.0), [':'] + Print(e.1));
    AfterDone(d, At(d, Closed), ':', Print(e.1));
  }

  lemma {:induction false} EntriesRun(d: nat, entries: seq<Entry>)
    ensures Done(d, Run(At(d, Out), PrintEntries(entries)))
    decreases entries, 0
  {
    if entries != [] {
      EntryRun(d, entries[0]);
      if |entries| > 1 {
        var rest := PrintEntries(entries[1..]);
        EntriesRun(d, entries[1..]);
        assert PrintEntries(entries) == PrintEntry(entries[0]) + ([','] + rest);
        RunAppend(At(d, Out), PrintEntry(entries[0]), [','] + rest);
        AfterDone(d, Run(At(d, Out), PrintEntry(entries[0])), ',', rest);
      } else {
        assert PrintEntries(entries) == PrintEntry(entries[0]);
      }
    }
  }

  // ---------- suffixes ----------

  /** The front of an object with a key that starts with a letter or the like. */
  predicate ObjectFront(t: Bytes) {
    |t| >= 3 && t[0] == '{' && t[1] == '\"' && t[2] != ':' && t[2] != ',' && t[2] != ']' && t[2] != '}'
  }

  /** From inside a string, an object's text goes wrong at its third character. */
  lemma InsideGoesWrong(d: nat, m: Mode, t: Bytes)
    requires ObjectFront(t) && (m == In || m == Esc || m == Closed)
    ensures Run(At(d, m), t) == Bad
  {
    var s0 := At(d, m);
    var s1 := Step(s0, t[0]);
    var s2 := Step(s1, t[1]);
    var s3 := Step(s2, t[2]);
    assert Run(s0, t) == Run(s1, t[1..]);
    assert t[1..][0] == t[1] && t[1..][1..] == t[2..];
    assert Run(s1, t[1..]) == Run(s2, t[2..]);
    assert t[2..][0] == t[2] && t[2..][1..] == t[3..];
    assert Run(s2, t[2..]) == Run(s3, t[3..]);
    RunBad(t[3..]);
  }

  /** Inside an object, before its last character, the depth is at least one. */
  lemma InsideIsDeep(entries: seq<Entry>, r: Bytes, t: Bytes)
    requires PrintEntries(entries) + ['}'] == r + t && t != []
    ensures var s := Run(At(1, Out), r);
            s != Bad && s.depth >= 1
  {
    var body := PrintEntries(entries);
    assert |r| <= |body|;
    assert r == (r + t)[..|r|] == (body + ['}'])[..|r|] == body[..|r|];
    var rest := body[|r|..];
    assert body == r + rest;
    EntriesRun(0, entries);
    RunAppend(At(0, Out), r, rest);
    if Run(At(0, Out), r) == Bad { RunBad(rest); }
    RunDeeper(0, Out, 1, r);
  }

  /** No printed object is a proper suffix of another. */
  lemma NoProperSuffix(a: Value, b: Value, r: Bytes)
    requires a.Obj? && b.Obj? && ObjectFront(Print(b)) && Print(a) == r + Print(b)
    ensures r == []
  {
    if r != [] {
      var t := Print(b);
      ValueRun(0, a);
      assert Print(a) == ['{'] + (PrintEntries(a.entries) + ['}']);
      assert r[0] == (r + t)[0] == '{' && r == ['{'] + r[1..];
      assert PrintEntries(a.entries) + ['}'] == Print(a)[1..] == (r + t)[1..] == r[1..] + t;
      InsideIsDeep(a.entries, r[1..], t);
      RunAppend(At(0, Out), r, t);
      var s := Run(At(0, Out), r);
      assert s == Run(At(1, Out), r[1..]);
      if s.mode == Out {
        ValueRun(0, b);
        RunDeeper(0, Out, s.depth, t);
      } else {
        InsideGoesWrong(s.depth, s.mode, t);
      }
    }
  }
}
