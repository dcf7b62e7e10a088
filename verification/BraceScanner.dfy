/** Finding JSON objects in a model's answer: a one-pass scanner for balanced braces that knows about
strings, against the grammar of RFC 8259. */
module BraceScanner {

  import opened Options

  // ---------------------------------------------------------------- the scanner

  /** Where the scanner is: the nesting depth, the text of the block it is in, whether it is inside a
  string and after a backslash, and the blocks it has found. */
  datatype Scan = Scan(depth: nat, block: string, inString: bool, escaped: bool, found: seq<string>)

  const START := Scan(0, "", false, false, [])

  function Next(s: Scan, c: char): Scan {
    var block := if s.depth > 0 then s.block + [c] else "";
    if s.inString then
      if s.escaped then s.(block := block, escaped := false)
      else if c == '\\' then s.(block := block, escaped := true)
      else if c == '"' then s.(block := block, inString := false)
      else s.(block := block)
    else if c == '"' then s.(block := block, inString := true)
    else if c == '{' then s.(depth := s.depth + 1, block := if s.depth == 0 then "{" else block)
    else if c == '}' && s.depth == 1 then s.(depth := 0, block := "", found := s.found + [block])
    else if c == '}' && s.depth > 1 then s.(depth := s.depth - 1, block := block)
    else s.(block := block)
  }

  function Scanned(s: Scan, text: string): Scan
    decreases text
  {
    if text == "" then s else Scanned(Next(s, text[0]), text[1..])
  }

  lemma {:induction false} ScannedInTwo(s: Scan, a: string, b: string)
    ensures Scanned(s, a + b) == Scanned(Scanned(s, a), b)
    decreases a
  {
    if a == "" {
      assert a + b == b;
    } else {
      assert (a + b)[0] == a[0] && (a + b)[1..] == a[1..] + b;
      ScannedInTwo(Next(s, a[0]), a[1..], b);
    }
  }

  function Candidates(text: string): seq<string> {
    Scanned(START, text).found
  }

  lemma ScannedOnce(s: Scan, text: string, i: nat)
    requires i < |text|
    ensures Scanned(s, text[i..]) == Scanned(Next(s, text[i]), text[i + 1..])
  {
    assert text[i..][0] == text[i] && text[i..][1..] == text[i + 1..];
  }

  /** The loop of `_try_recover_dict`. */
  method FindCandidates(text: string) returns (candidates: seq<string>)
    ensures candidates == Candidates(text)
  {
    candidates := [];
    var depth := 0;
    var start: Option<nat> := None;
    var inString, escaped := false, false;
    ghost var s := START;
    for i := 0 to |text|
      invariant Scanned(s, text[i..]) == Scanned(START, text)
      invariant s.depth == depth && s.inString == inString && s.escaped == escaped && s.found == candidates
      invariant start.Some? <==> depth > 0
      invariant start.Some? ==> start.value <= i && s.block == text[start.value..i]
      invariant start.None? ==> s.block == ""
    {
      hide Scanned;
      ScannedOnce(s, text, i);
      assert start.Some? ==> text[start.value..i + 1] == text[start.value..i] + [text[i]];
      s := Next(s, text[i]);
      var c := text[i];
      if inString {
        if escaped {
          escaped := false;
        } else if c == '\\' {
          escaped := true;
        } else if c == '"' {
          inString := false;
        }
        continue;
      }
      if c == '"' {
        inString := true;
        continue;
      }
      if c == '{' {
        if depth == 0 {
          start := Some(i);
        }
        depth := depth + 1;
      } else if c == '}' {
        if depth == 0 {
          continue;
        }
        depth := depth - 1;
        if depth == 0 && start.Some? {
          candidates := candidates + [text[start.value..i + 1]];
          start := None;
        }
      }
    }
  }

  // ---------------------------------------------------------------- printed JSON

  /** A character of a string, section 7: as it is, after a backslash, or as four hexadecimal digits. */
  datatype Unit = Raw(c: char) | Escape(c: char) | Hex(a: char, b: char, c: char, d: char)

  /** Any value, with its white space wherever section 2 allows it. */
  datatype Json =
    | Bare(text: string)
    | Quoted(units: seq<Unit>)
    | Array(pad: string, elements: seq<Element>)
    | Object(pad: string, members: seq<Member>)

  datatype Element = Element(before: string, value: Json, after: string)

  datatype Member = Member(before: string, key: seq<Unit>, colon: string, value: Json, after: string)

  predicate ValidUnit(u: Unit) {
    match u
    case Raw(c) => c != '"' && c != '\\' && c >= ' '
    case Escape(c) => c in "\"\\/bfnrt"
    case Hex(a, b, c, d) => IsHex(a) && IsHex(b) && IsHex(c) && IsHex(d)
  }

  predicate IsHex(c: char) {
    '0' <= c <= '9' || 'a' <= c <= 'f' || 'A' <= c <= 'F'
  }

  /** Free of quotes and braces: white space, numbers, the three literals, brackets, commas, colons. */
  predicate Plain(t: string) {
    forall i :: 0 <= i < |t| ==> t[i] != '"' && t[i] != '{' && t[i] != '}'
  }

  predicate ValidText(units: seq<Unit>) {
    forall i :: 0 <= i < |units| ==> ValidUnit(units[i])
  }

  predicate Valid(v: Json) {
    match v
    case Bare(t) => Plain(t)
    case Quoted(units) => ValidText(units)
    case Array(pad, es) => Plain(pad) && forall e :: e in es ==> Plain(e.before) && Valid(e.value) && Plain(e.after)
    case Object(pad, ms) =>
      Plain(pad) && forall m :: m in ms ==>
        Plain(m.before) && ValidText(m.key) && Plain(m.colon) && Valid(m.value) && Plain(m.after)
  }

  function PrintUnit(u: Unit): string {
    match u
    case Raw(c) => [c]
    case Escape(c) => ['\\', c]
    case Hex(a, b, c, d) => ['\\', 'u', a, b, c, d]
  }

  function PrintUnits(units: seq<Unit>): string {
    if units == [] then "" else PrintUnit(units[0]) + PrintUnits(units[1..])
  }

  function PrintText(units: seq<Unit>): string {
    "\"" + PrintUnits(units) + "\""
  }

  /** The printed value; `colon` holds the colon and the white space around it. */
  function Print(v: Json): string {
    match v
    case Bare(t) => t
    case Quoted(units) => PrintText(units)
    case Array(pad, es) => "[" + (pad + PrintElements(es)) + "]"
    case Object(pad, ms) => "{" + (pad + PrintMembers(ms)) + "}"
  }

  function PrintElements(es: seq<Element>): string {
    if es == [] then ""
    else es[0].before + Print(es[0].value) + es[0].after + (if |es| > 1 then "," else "") + PrintElements(es[1..])
  }

  function PrintMembers(ms: seq<Member>): string {
    if ms == [] then ""
    else ms[0].before + PrintText(ms[0].key) + ms[0].colon + Print(ms[0].value) + ms[0].after
         + (if |ms| > 1 then "," else "") + PrintMembers(ms[1..])
  }

  // ---------------------------------------------------------------- what the scanner makes of it

  function Longer(s: Scan, p: string): Scan {
    s.(block := s.block + p)
  }

  lemma LongerTwice(s: Scan, a: string, b: string)
    ensures Longer(Longer(s, a), b) == Longer(s, a + b)
  {
    assert s.block + a + b == s.block + (a + b);
  }

  lemma OneScanned(s: Scan, c: char)
    ensures Scanned(s, [c]) == Next(s, c)
  {
    assert [c][1..] == "";
  }

  /** Within a block, and within a string of it or not. */
  predicate Within(s: Scan, inString: bool) {
    s.depth > 0 && s.inString == inString && !s.escaped
  }

  /** From there, the scanner passes over `p`. */
  ghost predicate PassesIn(p: string, inString: bool) {
    forall s: Scan :: Within(s, inString) ==> Scanned(s, p) == Longer(s, p)
  }

  ghost predicate Passes(p: string) {
    PassesIn(p, false)
  }

  lemma InTwo(a: string, b: string, inString: bool)
    requires PassesIn(a, inString) && PassesIn(b, inString)
    ensures PassesIn(a + b, inString)
  {
    hide Scanned;
    forall s: Scan | Within(s, inString) ensures Scanned(s, a + b) == Longer(s, a + b) {
      ScannedInTwo(s, a, b);
      LongerTwice(s, a, b);
      assert Within(Longer(s, a), inString);
    }
  }

  lemma PassesInTwo(a: string, b: string)
    requires Passes(a) && Passes(b)
    ensures Passes(a + b)
  {
    InTwo(a, b, false);
  }

  lemma EmptyPasses(inString: bool)
    ensures PassesIn("", inString)
  {
    assert forall s: Scan :: s.block + "" == s.block;
  }

  lemma CharPasses(c: char, inString: bool)
    requires c != '"' && if inString then c != '\\' else c != '{' && c != '}'
    ensures PassesIn([c], inString)
  {
    forall s: Scan | Within(s, inString) ensures Scanned(s, [c]) == Longer(s, [c]) {
      OneScanned(s, c);
    }
  }

  lemma {:induction false} CharsPass(p: string, inString: bool)
    requires forall i :: 0 <= i < |p| ==> p[i] != '"' && if inString then p[i] != '\\' else p[i] != '{' && p[i] != '}'
    ensures PassesIn(p, inString)
  {
    hide PassesIn;
    if p == "" {
      EmptyPasses(inString);
    } else {
      CharPasses(p[0], inString);
      CharsPass(p[1..], inString);
      InTwo([p[0]], p[1..], inString);
      assert [p[0]] + p[1..] == p;
    }
  }

  lemma PlainPasses(p: string)
    requires Plain(p)
    ensures Passes(p)
  {
    CharsPass(p, false);
  }

  /** A backslash takes the next character with it. */
  lemma PairPasses(c: char)
    ensures PassesIn(['\\', c], true)
  {
    forall s: Scan | Within(s, true) ensures Scanned(s, ['\\', c]) == Longer(s, ['\\', c]) {
      assert ['\\', c] == ['\\'] + [c];
      ScannedInTwo(s, ['\\'], [c]);
      OneScanned(s, '\\');
      OneScanned(Next(s, '\\'), c);
    }
  }

  lemma UnitPasses(u: Unit)
    requires ValidUnit(u)
    ensures PassesIn(PrintUnit(u), true)
  {
    hide PassesIn;
    match u
    case Raw(c) => CharPasses(c, true);
    case Escape(c) => PairPasses(c);
    case Hex(a, b, c, d) =>
      PairPasses('u');
      CharsPass([a, b, c, d], true);
      InTwo(['\\', 'u'], [a, b, c, d], true);
      assert ['\\', 'u'] + [a, b, c, d] == PrintUnit(u);
  }

  lemma {:induction false} UnitsPass(units: seq<Unit>)
    requires ValidText(units)
    ensures PassesIn(PrintUnits(units), true)
  {
    hide PassesIn;
    if units == [] {
      EmptyPasses(true);
    } else {
      UnitPasses(units[0]);
      UnitsPass(units[1..]);
      InTwo(PrintUnit(units[0]), PrintUnits(units[1..]), true);
    }
  }

  /** What is passed over in another mode is passed over whole, between what enters and what leaves it. */
  lemma AroundScanned(s: Scan, open: char, p: string, close: char)
    requires PassesIn(p, Next(s, open).inString) && Within(Next(s, open), Next(s, open).inString)
    ensures Scanned(s, [open] + p + [close]) == Next(Longer(Next(s, open), p), close)
  {
    hide Next, Longer;
    ScannedInTwo(s, [open] + p, [close]);
    ScannedInTwo(s, [open], p);
    OneScanned(s, open);
    OneScanned(Longer(Next(s, open), p), close);
  }

  lemma TextPasses(units: seq<Unit>)
    requires ValidText(units)
    ensures Passes(PrintText(units))
  {
    hide Scanned;
    var p := PrintUnits(units);
    UnitsPass(units);
    forall s: Scan | Within(s, false) ensures Scanned(s, PrintText(units)) == Longer(s, PrintText(units)) {
      AroundScanned(s, '"', p, '"');
      assert "\"" + p + "\"" == ['"'] + p + ['"'];
      assert s.block + ['"'] + p + ['"'] == s.block + (['"'] + p + ['"']);
    }
  }

  lemma BracesPass(p: string)
    requires Passes(p)
    ensures Passes("{" + p + "}")
  {
    hide Scanned;
    forall s: Scan | Within(s, false) ensures Scanned(s, "{" + p + "}") == Longer(s, "{" + p + "}") {
      AroundScanned(s, '{', p, '}');
      assert "{" + p + "}" == ['{'] + p + ['}'];
      assert s.block + ['{'] + p + ['}'] == s.block + (['{'] + p + ['}']);
    }
  }

  /** Every value, to any depth. */
  lemma {:induction false} ValuePasses(v: Json)
    requires Valid(v)
    ensures Passes(Print(v))
    decreases v
  {
    match v
    case Bare(t) => PlainPasses(t);
    case Quoted(units) => TextPasses(units);
    case Array(pad, es) =>
      PlainPasses("[");
      PlainPasses("]");
      PlainPasses(pad);
      ElementsPass(es);
      PassesInTwo(pad, PrintElements(es));
      PassesInTwo("[", pad + PrintElements(es));
      PassesInTwo("[" + (pad + PrintElements(es)), "]");
    case Object(pad, ms) =>
      MembersPass(pad, ms);
      BracesPass(pad + PrintMembers(ms));
  }

  lemma MembersPass(pad: string, ms: seq<Member>)
    requires Plain(pad)
    requires forall m :: m in ms ==>
             Plain(m.before) && ValidText(m.key) && Plain(m.colon) && Valid(m.value) && Plain(m.after)
    ensures Passes(pad + PrintMembers(ms))
    decreases ms, 1
  {
    PlainPasses(pad);
    AllMembersPass(ms);
    PassesInTwo(pad, PrintMembers(ms));
  }

  lemma {:induction false} AllMembersPass(ms: seq<Member>)
    requires forall m :: m in ms ==>
             Plain(m.before) && ValidText(m.key) && Plain(m.colon) && Valid(m.value) && Plain(m.after)
    ensures Passes(PrintMembers(ms))
    decreases ms, 0
  {
    hide Passes, Plain;
    if ms == [] {
      NothingPasses();
    } else {
      var m := ms[0];
      var comma := if |ms| > 1 then "," else "";
      PlainPasses(m.before);
      TextPasses(m.key);
      PlainPasses(m.colon);
      ValuePasses(m.value);
      PlainPasses(m.after);
      CommaPasses(comma);
      AllMembersPass(ms[1..]);
      PassesInTwo(m.before, PrintText(m.key));
      PassesInTwo(m.before + PrintText(m.key), m.colon);
      PassesInTwo(m.before + PrintText(m.key) + m.colon, Print(m.value));
      PassesInTwo(m.before + PrintText(m.key) + m.colon + Print(m.value), m.after);
      PassesInTwo(m.before + PrintText(m.key) + m.colon + Print(m.value) + m.after, comma);
      PassesInTwo(m.before + PrintText(m.key) + m.colon + Print(m.value) + m.after + comma, PrintMembers(ms[1..]));
    }
  }

  lemma {:induction false} ElementsPass(es: seq<Element>)
    requires forall e :: e in es ==> Plain(e.before) && Valid(e.value) && Plain(e.after)
    ensures Passes(PrintElements(es))
    decreases es
  {
    hide Passes, Plain;
    if es == [] {
      NothingPasses();
    } else {
      var e := es[0];
      var comma := if |es| > 1 then "," else "";
      PlainPasses(e.before);
      ValuePasses(e.value);
      PlainPasses(e.after);
      CommaPasses(comma);
      ElementsPass(es[1..]);
      PassesInTwo(e.before, Print(e.value));
      PassesInTwo(e.before + Print(e.value), e.after);
      PassesInTwo(e.before + Print(e.value) + e.after, comma);
      PassesInTwo(e.before + Print(e.value) + e.after + comma, PrintElements(es[1..]));
    }
  }

  lemma NothingPasses()
    ensures Passes("")
  {
    PlainPasses("");
  }

  lemma CommaPasses(comma: string)
    requires comma == "," || comma == ""
    ensures Passes(comma)
  {
    PlainPasses(comma);
  }

  // ---------------------------------------------------------------- print, then scan

  /** Text between objects: no quotes and no opening braces. */
  predicate Filler(t: string) {
    forall i :: 0 <= i < |t| ==> t[i] != '"' && t[i] != '{'
  }

  predicate Outside(s: Scan) {
    s.depth == 0 && s.block == "" && !s.inString && !s.escaped
  }

  lemma {:induction false} FillerScanned(s: Scan, t: string)
    requires Outside(s) && Filler(t)
    ensures Scanned(s, t) == s
    decreases t
  {
    if t != "" {
      FillerScanned(s, t[1..]);
    }
  }

  lemma ObjectScanned(s: Scan, v: Json)
    requires Outside(s) && v.Object? && Valid(v)
    ensures Scanned(s, Print(v)) == s.(found := s.found + [Print(v)])
  {
    hide Scanned, PrintMembers;
    var p := v.pad + PrintMembers(v.members);
    MembersPass(v.pad, v.members);
    AroundScanned(s, '{', p, '}');
    assert "{" + p + "}" == ['{'] + p + ['}'];
  }

  /** The objects printed one after the other, each after some filler. */
  function Printed(objects: seq<(string, Json)>): string {
    if objects == [] then "" else objects[0].0 + Print(objects[0].1) + Printed(objects[1..])
  }

  function Blocks(objects: seq<(string, Json)>): seq<string> {
    seq(|objects|, i requires 0 <= i < |objects| => Print(objects[i].1))
  }

  lemma {:induction false} PrintThenScanFrom(s: Scan, objects: seq<(string, Json)>)
    requires Outside(s)
    requires forall o :: o in objects ==> Filler(o.0) && o.1.Object? && Valid(o.1)
    ensures Scanned(s, Printed(objects)) == s.(found := s.found + Blocks(objects))
    decreases objects
  {
    if objects == [] {
      assert s.found + Blocks(objects) == s.found;
    } else {
      var o := objects[0];
      var s' := s.(found := s.found + [Print(o.1)]);
      ScannedInTwo(s, o.0 + Print(o.1), Printed(objects[1..]));
      ScannedInTwo(s, o.0, Print(o.1));
      FillerScanned(s, o.0);
      ObjectScanned(s, o.1);
      PrintThenScanFrom(s', objects[1..]);
      assert s.found + Blocks(objects) == s'.found + Blocks(objects[1..]);
    }
  }

  /** Print, then scan: for any sequence of JSON objects, nested as deep and spelled as one likes, the
  candidates are exactly the printed objects, in order. */
  lemma PrintThenScan(objects: seq<(string, Json)>, tail: string)
    requires forall o :: o in objects ==> Filler(o.0) && o.1.Object? && Valid(o.1)
    requires Filler(tail)
    ensures Candidates(Printed(objects) + tail) == Blocks(objects)
  {
    ScannedInTwo(START, Printed(objects), tail);
    PrintThenScanFrom(START, objects);
    var s := START.(found := [] + Blocks(objects));
    FillerScanned(s, tail);
  }

  // ---------------------------------------------------------------- quotes in the prose

  /** Prose before an object may hold quotes, but no opening brace. */
  predicate Prose(t: string) {
    '{' !in t
  }

  lemma {:induction false} ProseScanned(s: Scan, t: string)
    requires s.depth == 0 && s.block == "" && Prose(t) && (s.escaped ==> s.inString)
    ensures var s' := Scanned(s, t);
            s'.depth == 0 && s'.block == "" && s'.found == s.found && (s'.escaped ==> s'.inString)
    decreases t
  {
    if t != "" {
      ProseScanned(Next(s, t[0]), t[1..]);
    }
  }

  /** A block is never longer than the text it was found in. */
  lemma {:induction false} BlocksAreShort(s: Scan, t: string, n: nat)
    requires |s.block| <= n
    ensures forall b :: b in Scanned(s, t).found ==> b in s.found || |b| <= n + |t|
    decreases t
  {
    if t != "" {
      BlocksAreShort(Next(s, t[0]), t[1..], n + 1);
    }
  }

  /** What follows the closing quote of a JSON string whose opening quote stands just before `t`: the
  first quote that no backslash takes with it. */
  function AfterString(t: string): (r: Option<string>)
    ensures r.Some? ==> |r.value| < |t|
  {
    if t == "" then None
    else if t[0] == '"' then Some(t[1..])
    else if t[0] == '\\' then (if |t| == 1 then None else AfterString(t[2..]))
    else AfterString(t[1..])
  }

  /** Every quote of the text opens a JSON string that closes in it, or closes one. */
  predicate QuotesPairUp(t: string)
    decreases |t|
  {
    if t == "" then true
    else if t[0] != '"' then QuotesPairUp(t[1..])
    else
      var rest := AfterString(t[1..]);
      rest.Some? && QuotesPairUp(rest.value)
  }

  function Quotes(t: string): nat {
    if t == "" then 0 else Quotes(t[1..]) + if t[0] == '"' then 1 else 0
  }

  /** Without a backslash it is enough to count. */
  lemma {:induction false} PairUpIffEven(t: string)
    requires '\\' !in t
    ensures QuotesPairUp(t) <==> Quotes(t) % 2 == 0
    decreases |t|
  {
    if t != "" {
      if t[0] == '"' {
        NextQuote(t[1..]);
        var rest := AfterString(t[1..]);
        if rest.Some? {
          PairUpIffEven(rest.value);
        }
      } else {
        PairUpIffEven(t[1..]);
      }
    }
  }

  lemma {:induction false} NextQuote(t: string)
    requires '\\' !in t
    ensures var rest := AfterString(t);
            if rest.None? then Quotes(t) == 0 else Quotes(t) == Quotes(rest.value) + 1 && '\\' !in rest.value
  {
    if t != "" && t[0] != '"' {
      NextQuote(t[1..]);
    }
  }

  /** A printed string closes at its own closing quote. */
  lemma {:induction false} PrintedStringCloses(units: seq<Unit>, rest: string)
    requires ValidText(units)
    ensures AfterString(PrintUnits(units) + "\"" + rest) == Some(rest)
  {
    if units == [] {
      assert "" + "\"" + rest == "\"" + rest && ("\"" + rest)[1..] == rest;
    } else {
      var p, q := PrintUnit(units[0]), PrintUnits(units[1..]) + "\"" + rest;
      assert PrintUnits(units) + "\"" + rest == p + q;
      UnitIsPassed(units[0], q);
      PrintedStringCloses(units[1..], rest);
    }
  }

  lemma UnitIsPassed(u: Unit, q: string)
    requires ValidUnit(u)
    ensures AfterString(PrintUnit(u) + q) == AfterString(q)
  {
    var t := PrintUnit(u) + q;
    match u
    case Raw(c) => assert t[1..] == q;
    case Escape(c) => assert t[2..] == q;
    case Hex(a, b, c, d) =>
      assert t[2..] == [a, b, c, d] + q;
      DigitsArePassed([a, b, c, d], q);
  }

  lemma {:induction false} DigitsArePassed(ds: string, q: string)
    requires forall i :: 0 <= i < |ds| ==> IsHex(ds[i])
    ensures AfterString(ds + q) == AfterString(q)
  {
    if ds == "" {
      assert ds + q == q;
    } else {
      assert (ds + q)[0] == ds[0] && (ds + q)[1..] == ds[1..] + q;
      DigitsArePassed(ds[1..], q);
    }
  }

  /** The scanner leaves a string where the string closes, and is left in it if it does not. */
  lemma {:induction false} StringScanned(s: Scan, t: string)
    requires s.depth == 0 && s.block == "" && s.inString && !s.escaped
    ensures var rest := AfterString(t);
            if rest.Some? then Scanned(s, t) == Scanned(s.(inString := false), rest.value) else Scanned(s, t).inString
    decreases |t|
  {
    if t != "" && t[0] == '\\' {
      if |t| == 1 {
        assert t[1..] == "";
      } else {
        var e := Next(s, t[0]);
        assert t[1..][0] == t[1] && t[1..][1..] == t[2..];
        assert Scanned(s, t) == Scanned(Next(e, t[1]), t[2..]) && Next(e, t[1]) == s;
        StringScanned(s, t[2..]);
      }
    } else if t != "" && t[0] != '"' {
      StringScanned(s, t[1..]);
    }
  }

  /** The scanner is outside strings after the prose exactly when its quotes pair up. */
  lemma {:induction false} PairUpScanned(s: Scan, t: string)
    requires Outside(s) && Prose(t)
    ensures QuotesPairUp(t) <==> !Scanned(s, t).inString
    decreases |t|
  {
    if t != "" {
      if t[0] == '"' {
        StringScanned(Next(s, t[0]), t[1..]);
        var rest := AfterString(t[1..]);
        if rest.Some? {
          AfterIsSuffix(t[1..]);
          PairUpScanned(s, rest.value);
        }
      } else {
        PairUpScanned(s, t[1..]);
      }
    }
  }

  lemma {:induction false} AfterIsSuffix(t: string)
    ensures AfterString(t).Some? ==> forall c :: c in AfterString(t).value ==> c in t
    decreases |t|
  {
    if t != "" && t[0] == '\\' && |t| > 1 {
      AfterIsSuffix(t[2..]);
    } else if t != "" && t[0] != '"' && t[0] != '\\' {
      AfterIsSuffix(t[1..]);
    }
  }

  /** The object after such prose is found exactly when the quotes of the prose pair up as JSON strings
  would. */
  lemma QuotesDecide(prose: string, v: Json)
    requires Prose(prose) && v.Object? && Valid(v)
    ensures Candidates(prose + Print(v)) == [Print(v)] <==> QuotesPairUp(prose)
  {
    var s := Scanned(START, prose);
    ScannedInTwo(START, prose, Print(v));
    ProseScanned(START, prose);
    PairUpScanned(START, prose);
    hide QuotesPairUp;
    if s.inString {
      hide Scanned;
      var p := Print(v);
      assert p == ['{'] + p[1..];
      ScannedInTwo(s, ['{'], p[1..]);
      OneScanned(s, '{');
      BlocksAreShort(Next(s, '{'), p[1..], 0);
      assert p !in Scanned(s, p).found && p in [p];
    } else {
      ObjectScanned(s, v);
    }
  }

  /** One stray quotation mark hides the object. */
  lemma StrayQuoteHides(v: Json)
    requires v.Object? && Valid(v)
    ensures Candidates("\"" + Print(v)) != [Print(v)]
    ensures Candidates("\"{}") == []
  {
    assert !QuotesPairUp("\"") by {
      assert "\""[1..] == "";
    }
    QuotesDecide("\"", v);
    var t := "\"{}";
    assert t[1..] == "{}" && "{}"[1..] == "}" && "}"[1..] == "";
    var s := Next(START, '"');
    assert Scanned(START, t) == Scanned(s, "{}") && Scanned(s, "{}") == Scanned(Next(s, '{'), "}");
    assert Scanned(Next(s, '{'), "}") == Scanned(Next(Next(s, '{'), '}'), "");
  }
}
