/** Characters, whitespace and substring search as the planner uses them.

Text is a sequence of Unicode scalar values that is already in composed form, so the
composition step of `normalize_source_text` is the identity here and only its line-ending
part is modelled. */
module SourceText {

  import opened Options

  /** The characters that `str.isspace` and `str.strip` treat as whitespace. */
  predicate IsSpace(c: char) {
    || '\U{0009}' <= c <= '\U{000D}'
    || '\U{001C}' <= c <= '\U{0020}'
    || c == '\U{0085}' || c == '\U{00A0}' || c == '\U{1680}'
    || '\U{2000}' <= c <= '\U{200A}'
    || c == '\U{2028}' || c == '\U{2029}' || c == '\U{202F}' || c == '\U{205F}' || c == '\U{3000}'
  }

  /** The same characters one by one. */
  lemma SpacesAre(c: char)
    ensures IsSpace(c) <==>
            c in {'\t', '\n', '\U{000B}', '\U{000C}', '\r', '\U{001C}', '\U{001D}', '\U{001E}', '\U{001F}', ' ',
                  '\U{0085}', '\U{00A0}', '\U{1680}', '\U{2000}', '\U{2001}', '\U{2002}', '\U{2003}', '\U{2004}',
                  '\U{2005}', '\U{2006}', '\U{2007}', '\U{2008}', '\U{2009}', '\U{200A}', '\U{2028}', '\U{2029}',
                  '\U{202F}', '\U{205F}', '\U{3000}'}
  {
  }

  /** `not s.strip()` */
  predicate Blank(s: string) {
    forall i :: 0 <= i < |s| ==> IsSpace(s[i])
  }

  // ---------------------------------------------------------------- substring search

  predicate OccursAt(hay: string, needle: string, i: int) {
    0 <= i && i + |needle| <= |hay| && hay[i..i + |needle|] == needle
  }

  ghost predicate Occurs(hay: string, needle: string) {
    exists i :: OccursAt(hay, needle, i)
  }

  /** The position `i` is the one and only occurrence, overlapping ones counted. */
  ghost predicate OnlyAt(hay: string, needle: string, i: int) {
    OccursAt(hay, needle, i) && forall j :: OccursAt(hay, needle, j) ==> j == i
  }

  /** `hay.find(needle, from)` */
  function Find(hay: string, needle: string, from: nat): (r: Option<nat>)
    ensures r.None? ==> forall i :: from <= i ==> !OccursAt(hay, needle, i)
    ensures r.Some? ==> from <= r.value && OccursAt(hay, needle, r.value)
    ensures r.Some? ==> forall i :: from <= i < r.value ==> !OccursAt(hay, needle, i)
    decreases |hay| - from
  {
    if from + |needle| > |hay| then None
    else if hay[from..from + |needle|] == needle then Some(from)
    else Find(hay, needle, from + 1)
  }

  // ---------------------------------------------------------------- normalisation

  /** The line-ending part of `normalize_source_text`. */
  function Normalize(s: string): (r: string)
    ensures '\r' !in r
    ensures |r| <= |s|
    ensures s != [] ==> r != []
  {
    if s == [] then []
    else if s[0] == '\r' then
      ['\n'] + (if |s| > 1 && s[1] == '\n' then Normalize(s[2..]) else Normalize(s[1..]))
    else [s[0]] + Normalize(s[1..])
  }

  lemma {:induction false} NormalizeFixes(s: string)
    requires '\r' !in s
    ensures Normalize(s) == s
  {
    if s != [] {
      NormalizeFixes(s[1..]);
    }
  }

  datatype Ending = LF | CR | CRLF

  function Mark(e: Ending): string {
    match e case LF => "\n" case CR => "\r" case CRLF => "\r\n"
  }

  /** Lines, each with its ending. A lone CR is not followed by an empty line that ends in LF: together they
  would read as one ending. */
  predicate AreLines(lines: seq<(string, Ending)>) {
    && (forall i :: 0 <= i < |lines| ==> '\r' !in lines[i].0 && '\n' !in lines[i].0)
    && forall i :: 0 < i < |lines| && lines[i - 1].1.CR? ==> lines[i] != ("", LF)
  }

  function Text(lines: seq<(string, Ending)>, rest: string): string {
    if lines == [] then rest else lines[0].0 + Mark(lines[0].1) + Text(lines[1..], rest)
  }

  function WithLF(lines: seq<(string, Ending)>): seq<(string, Ending)> {
    seq(|lines|, i requires 0 <= i < |lines| => (lines[i].0, LF))
  }

  lemma {:induction false} NormalizeOver(line: string, rest: string)
    requires '\r' !in line
    ensures Normalize(line + rest) == line + Normalize(rest)
  {
    if line == "" {
      assert line + rest == rest;
    } else {
      assert (line + rest)[0] == line[0] && (line + rest)[1..] == line[1..] + rest;
      NormalizeOver(line[1..], rest);
    }
  }

  lemma NormalizeMark(e: Ending, rest: string)
    requires e.CR? ==> rest == "" || rest[0] != '\n'
    ensures Normalize(Mark(e) + rest) == "\n" + Normalize(rest)
  {
    var s := Mark(e) + rest;
    assert e.CRLF? ==> s[1] == '\n' && s[2..] == rest;
    assert !e.CRLF? ==> s[1..] == rest;
  }

  lemma TextStarts(lines: seq<(string, Ending)>, rest: string)
    requires AreLines(lines) && (lines == [] ==> rest == "" || rest[0] != '\n')
    requires lines != [] ==> lines[0] != ("", LF)
    ensures Text(lines, rest) == "" || Text(lines, rest)[0] != '\n'
  {
  }

  /** Whatever its line endings, mixed or not, a text normalises to the same lines with LF. */
  lemma {:induction false} EndingsNormalize(lines: seq<(string, Ending)>, rest: string)
    requires AreLines(lines) && '\r' !in rest
    requires lines != [] && lines[|lines| - 1].1.CR? ==> rest == "" || rest[0] != '\n'
    ensures Normalize(Text(lines, rest)) == Text(WithLF(lines), rest)
    decreases |lines|
  {
    if lines == [] {
      NormalizeFixes(rest);
    } else {
      hide Text, Normalize, Mark, WithLF;
      var line, e, tail := lines[0].0, lines[0].1, lines[1..];
      var more := Text(tail, rest);
      assert tail != [] ==> tail[|tail| - 1] == lines[|lines| - 1];
      if e.CR? {
        TextStarts(tail, rest);
      }
      TextFirst(lines, rest);
      NormalizeOver(line, Mark(e) + more);
      NormalizeMark(e, more);
      EndingsNormalize(tail, rest);
    }
  }

  lemma TextFirst(lines: seq<(string, Ending)>, rest: string)
    requires lines != []
    ensures Text(lines, rest) == lines[0].0 + (Mark(lines[0].1) + Text(lines[1..], rest))
    ensures Text(WithLF(lines), rest) == lines[0].0 + ("\n" + Text(WithLF(lines[1..]), rest))
  {
    assert WithLF(lines)[1..] == WithLF(lines[1..]);
    var line, m, more := lines[0].0, Mark(lines[0].1), Text(lines[1..], rest);
    assert line + m + more == line + (m + more);
    var after := Text(WithLF(lines[1..]), rest);
    assert line + "\n" + after == line + ("\n" + after);
  }

  /** Normalising twice is normalising once, so coordinates in normalised text are stable. */
  lemma NormalizeIdempotent(s: string)
    ensures Normalize(Normalize(s)) == Normalize(s)
  {
    NormalizeFixes(Normalize(s));
  }

  /** Any slice of a normalised text is its own normal form: writing an episode file and
  reading it back gives the slice. */
  lemma SliceIsNormal(text: string, lo: nat, hi: nat)
    requires '\r' !in text && lo <= hi <= |text|
    ensures Normalize(text[lo..hi]) == text[lo..hi]
  {
    NormalizeFixes(text[lo..hi]);
  }

  // ---------------------------------------------------------------- folding

  /** Full-width or ideographic punctuation to its half-width form; whitespace to one space. */
  function FoldChar(c: char): char {
    if c == '\U{3002}' || c == '\U{FF0E}' then '.'
    else if c == '\U{FF0C}' then ','
    else if c == '\U{FF01}' then '!'
    else if c == '\U{FF1F}' then '?'
    else if c == '\U{FF1A}' then ':'
    else if c == '\U{FF1B}' then ';'
    else if c == '\U{FF08}' then '('
    else if c == '\U{FF09}' then ')'
    else if c == '\U{FF5E}' then '~'
    else if IsSpace(c) then ' '
    else c
  }

  predicate Both(a: char, b: char, forms: set<char>) {
    a in forms && b in forms
  }

  /** Forms of one punctuation mark: half-width, full-width, ideographic. */
  predicate SameMark(a: char, b: char) {
    || Both(a, b, {'.', '\U{3002}', '\U{FF0E}'}) || Both(a, b, {',', '\U{FF0C}'}) || Both(a, b, {'!', '\U{FF01}'})
    || Both(a, b, {'?', '\U{FF1F}'}) || Both(a, b, {':', '\U{FF1A}'}) || Both(a, b, {';', '\U{FF1B}'})
    || Both(a, b, {'(', '\U{FF08}'}) || Both(a, b, {')', '\U{FF09}'}) || Both(a, b, {'~', '\U{FF5E}'})
  }

  predicate AlikeChars(a: char, b: char) {
    a == b || (IsSpace(a) && IsSpace(b)) || SameMark(a, b)
  }

  /** Alike character by character: equal, both whitespace, or forms of one mark. */
  predicate Alike(a: string, b: string) {
    |a| == |b| && forall i :: 0 <= i < |a| ==> AlikeChars(a[i], b[i])
  }

  /** Folding makes equal exactly what is alike. */
  lemma FoldCharIff(a: char, b: char)
    ensures FoldChar(a) == FoldChar(b) <==> AlikeChars(a, b)
  {
    hide FoldChar, SameMark, IsSpace;
    MarksFold(a, b);
    SpacesFold(a);
    SpacesFold(b);
    FoldedAlike(a, b);
  }

  lemma MarksFold(a: char, b: char)
    ensures SameMark(a, b) ==> FoldChar(a) == FoldChar(b)
  {
  }

  lemma SpacesFold(a: char)
    ensures IsSpace(a) <==> FoldChar(a) == ' '
  {
  }

  lemma FoldedAlike(a: char, b: char)
    ensures FoldChar(a) == FoldChar(b) && !IsSpace(a) && !IsSpace(b) ==> a == b || SameMark(a, b)
  {
    hide IsSpace;
  }

  function Fold(text: string): string {
    seq(|text|, i requires 0 <= i < |text| => FoldChar(text[i]))
  }

  /** `_fold_for_match`: one output character per input character. */
  method FoldForMatch(text: string) returns (out: string)
    ensures out == Fold(text) && |out| == |text|
  {
    out := [];
    for i := 0 to |text|
      invariant |out| == i
      invariant forall k :: 0 <= k < i ==> out[k] == FoldChar(text[k])
    {
      out := out + [FoldChar(text[i])];
    }
  }

  /** Folding keeps every exact match, at the same position. */
  lemma FoldKeepsMatches(hay: string, needle: string, i: int)
    requires OccursAt(hay, needle, i)
    ensures OccursAt(Fold(hay), Fold(needle), i)
  {
    var fh, fn := Fold(hay), Fold(needle);
    forall k | 0 <= k < |needle| ensures fh[i..i + |needle|][k] == fn[k] {
      assert hay[i..i + |needle|][k] == needle[k];
    }
  }

  /** A text is found in the folded text where something alike stands. */
  predicate AlikeAt(hay: string, needle: string, i: int) {
    0 <= i && i + |needle| <= |hay| && Alike(hay[i..i + |needle|], needle)
  }

  lemma FoldIff(hay: string, needle: string, i: int)
    ensures OccursAt(Fold(hay), Fold(needle), i) <==> AlikeAt(hay, needle, i)
  {
    hide FoldChar, AlikeChars;
    if 0 <= i && i + |needle| <= |hay| {
      forall k | 0 <= k < |needle|
        ensures Fold(hay)[i..i + |needle|][k] == Fold(needle)[k] <==> AlikeChars(hay[i..i + |needle|][k], needle[k])
      {
        FoldCharIff(hay[i + k], needle[k]);
      }
    }
  }

  /** Folding is idempotent: a folded text contains nothing left to fold. */
  lemma FoldIdempotent(text: string)
    ensures Fold(Fold(text)) == Fold(text)
  {
  }
}
