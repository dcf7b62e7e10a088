/** How a model's proposed cut points become offsets: exact, folded, then fuzzy search,
followed by the mechanical checks on uniqueness, order and coverage. */
module AnchorResolution {
  import opened Options
  import opened SourceText

  /** The schema forces at least two characters in an anchor and at least one episode. */
  type Anchor = s: string | |s| >= 2 witness "ab"

  datatype Draft = Draft(title: string, hook: string, endAnchor: Anchor)

  type Drafts = ds: seq<Draft> | |ds| >= 1 witness [Draft("t", "h", "ab")]

  /** The similarity ratio of `difflib`: any function into the unit interval. */
  type Ratio = f: (string, string) -> real | forall a, b :: 0.0 <= f(a, b) <= 1.0
    witness (a: string, b: string) => 0.0

  const THRESHOLD: real := 0.78

  // ---------------------------------------------------------------- all occurrences

  predicate Increasing(s: seq<nat>) {
    forall i, j :: 0 <= i < j < |s| ==> s[i] < s[j]
  }

  /** `_find_all_overlapping`: exactly the occurrences, in order, overlapping ones included. */
  method FindAllOverlapping(hay: string, needle: string) returns (starts: seq<nat>)
    ensures needle == [] ==> starts == []
    ensures needle != [] ==> forall i :: OccursAt(hay, needle, i) <==> i in starts
    ensures Increasing(starts)
  {
    starts := [];
    if needle == [] {
      return;
    }
    var found := Find(hay, needle, 0);
    var from := 0;
    while found.Some?
      invariant found == Find(hay, needle, from)
      invariant forall k :: 0 <= k < |starts| ==> starts[k] < from
      invariant forall i :: 0 <= i < from ==> (OccursAt(hay, needle, i) <==> i in starts)
      invariant Increasing(starts)
      decreases |hay| - from
    {
      starts := starts + [found.value];
      from := found.value + 1;
      found := Find(hay, needle, from);
    }
  }

  // ---------------------------------------------------------------- fuzzy recovery

  function MinLength(anchor: string): nat {
    if 4 * |anchor| / 5 < 2 then 2 else 4 * |anchor| / 5
  }

  function MaxLength(window: string, anchor: string): nat {
    if |window| < 6 * |anchor| / 5 + 1 then |window| else 6 * |anchor| / 5 + 1
  }

  /** A substring the fuzzy search may return: length within a fifth of the anchor's. */
  predicate Candidate(window: string, anchor: string, start: int, length: int) {
    MinLength(anchor) <= length <= MaxLength(window, anchor) && 0 <= start && start + length <= |window|
  }

  function Score(window: string, anchor: string, ratio: Ratio, start: int, length: int): real
    requires Candidate(window, anchor, start, length)
  {
    ratio(anchor, window[start..start + length])
  }

  /** The order of the full scan: shorter candidates first, then leftmost. */
  predicate Earlier(s: int, l: int, s': int, l': int) {
    l < l' || (l == l' && s < s')
  }

  /** The first of the candidates with the highest score in a full scan. */
  ghost predicate BestMatch(window: string, anchor: string, ratio: Ratio, start: int, length: int) {
    && Candidate(window, anchor, start, length)
    && forall s, l :: Candidate(window, anchor, s, l) ==>
         && Score(window, anchor, ratio, s, l) <= Score(window, anchor, ratio, start, length)
         && (Earlier(s, l, start, length) ==>
               Score(window, anchor, ratio, s, l) < Score(window, anchor, ratio, start, length))
  }

  datatype Match = Match(start: nat, length: nat, score: real)

  /** `_fuzzy_recover_anchor`, with its early exit on a perfect score: the result is still the
  first best candidate of a full scan, and nothing is returned only if no candidate reaches
  the threshold. */
  method FuzzyRecover(window: string, anchor: Anchor, ratio: Ratio) returns (r: Option<Match>)
    ensures r.Some? ==> BestMatch(window, anchor, ratio, r.value.start, r.value.length)
                        && r.value.score == Score(window, anchor, ratio, r.value.start, r.value.length)
                        && r.value.score >= THRESHOLD
    ensures r.None? ==> forall s, l :: Candidate(window, anchor, s, l) ==>
            Score(window, anchor, ratio, s, l) < THRESHOLD
  {
    if window == [] {
      return None;
    }
    var best: Option<Match> := None;
    var length := MinLength(anchor);
    while length <= MaxLength(window, anchor)
      invariant MinLength(anchor) <= length
      invariant BestSoFar(window, anchor, ratio, best, 0, length)
      decreases MaxLength(window, anchor) + 1 - length
    {
      var start := 0;
      while start + length <= |window|
        invariant start <= |window| - length + 1
        invariant BestSoFar(window, anchor, ratio, best, start, length)
        decreases |window| - start
      {
        assert Candidate(window, anchor, start, length);
        var score := ratio(anchor, window[start..start + length]);
        assert score == Score(window, anchor, ratio, start, length);
        BestSoFarStep(window, anchor, ratio, best, start, length);
        if best.None? || score > best.value.score {
          best := Some(Match(start, length, score));
          if score == 1.0 {
            return best;
          }
        }
        start := start + 1;
      }
      length := length + 1;
    }
    if best.Some? && best.value.score >= THRESHOLD {
      return best;
    }
    return None;
  }

  /** `best` is the first best among the candidates scanned before `(start, length)`. */
  ghost predicate BestSoFar(window: string, anchor: string, ratio: Ratio, best: Option<Match>, start: int,
                            length: int) {
    && (best.None? ==> forall s, l :: Candidate(window, anchor, s, l) ==> !Earlier(s, l, start, length))
    && (best.Some? ==>
          var m := best.value;
          && Candidate(window, anchor, m.start, m.length)
          && m.score == Score(window, anchor, ratio, m.start, m.length)
          && m.score < 1.0
          && Earlier(m.start, m.length, start, length)
          && forall s, l :: Candidate(window, anchor, s, l) && Earlier(s, l, start, length) ==>
               && Score(window, anchor, ratio, s, l) <= m.score
               && (Earlier(s, l, m.start, m.length) ==> Score(window, anchor, ratio, s, l) < m.score))
  }

  /** One more candidate scanned; a perfect score ends the scan. */
  lemma BestSoFarStep(window: string, anchor: string, ratio: Ratio, best: Option<Match>, start: int, length: int)
    requires Candidate(window, anchor, start, length)
    requires BestSoFar(window, anchor, ratio, best, start, length)
    ensures var score := Score(window, anchor, ratio, start, length);
            var better := best.None? || score > best.value.score;
            && (better && score == 1.0 ==> BestMatch(window, anchor, ratio, start, length))
            && (better && score != 1.0 ==>
                  BestSoFar(window, anchor, ratio, Some(Match(start, length, score)), start + 1, length))
            && (!better ==> BestSoFar(window, anchor, ratio, best, start + 1, length))
  {
    assert forall s, l :: Earlier(s, l, start + 1, length) ==>
           Earlier(s, l, start, length) || (s == start && l == length);
  }

  lemma BestMatchUnique(window: string, anchor: string, ratio: Ratio, s: int, l: int, s': int, l': int)
    requires BestMatch(window, anchor, ratio, s, l) && BestMatch(window, anchor, ratio, s', l')
    ensures s == s' && l == l'
  {
    assert Earlier(s, l, s', l') || Earlier(s', l', s, l) || (s == s' && l == l');
  }

  // ---------------------------------------------------------------- where an anchor ends

  ghost function UniqueEnd(hay: string, needle: string): (r: Option<nat>)
    ensures r.Some? <==> exists i :: OnlyAt(hay, needle, i)
    ensures forall i :: OnlyAt(hay, needle, i) ==> r == Some(i + |needle|)
  {
    if exists i :: OnlyAt(hay, needle, i) then
      var i :| OnlyAt(hay, needle, i);
      Some(i + |needle|)
    else None
  }

  ghost predicate Recoverable(window: string, anchor: string, ratio: Ratio, s: int, l: int) {
    BestMatch(window, anchor, ratio, s, l) && Score(window, anchor, ratio, s, l) >= THRESHOLD
  }

  /** The offset just after the anchor, if one of the three tiers locates it uniquely. A tier
  is consulted only if the tiers before it find no occurrence at all. */
  ghost function EndOf(window: string, anchor: Anchor, ratio: Ratio): (r: Option<nat>)
    ensures r.Some? ==> 0 < r.value <= |window|
  {
    var normal := Normalize(anchor);
    if Occurs(window, anchor) then UniqueEnd(window, anchor)
    else if Occurs(Fold(window), Fold(normal)) then UniqueEnd(Fold(window), Fold(normal))
    else if exists s, l :: Recoverable(window, anchor, ratio, s, l) then
      var s, l :| Recoverable(window, anchor, ratio, s, l);
      if OnlyAt(window, window[s..s + l], s) then Some(s + l) else None
    else None
  }

  datatype Sighting =
    | At(end: nat)
    | Missing
    | Ambiguous(count: nat, folded: bool)
    | AmbiguousRecovery(count: nat)

  /** The list of occurrences decides whether there is one and where it ends. */
  lemma StartsDecide(hay: string, needle: string, starts: seq<nat>)
    requires needle != [] && Increasing(starts)
    requires forall i :: OccursAt(hay, needle, i) <==> i in starts
    ensures Occurs(hay, needle) <==> starts != []
    ensures UniqueEnd(hay, needle) == if |starts| == 1 then Some(starts[0] + |needle|) else None
  {
    if starts != [] {
      assert OccursAt(hay, needle, starts[0]);
      if |starts| == 1 {
        assert OnlyAt(hay, needle, starts[0]);
      } else {
        assert OccursAt(hay, needle, starts[1]) && starts[0] != starts[1];
        assert forall i :: !OnlyAt(hay, needle, i);
      }
    }
  }

  function Places(hay: string, needle: string): set<int> {
    set i | 0 <= i <= |hay| && OccursAt(hay, needle, i)
  }

  lemma {:induction false} SetOfIncreasing(starts: seq<nat>, s: set<int>)
    requires Increasing(starts) && forall i :: i in s <==> i in starts
    ensures |s| == |starts|
  {
    if starts != [] {
      var init, last := starts[..|starts| - 1], starts[|starts| - 1];
      assert starts == init + [last];
      SetOfIncreasing(init, s - {last as int});
    } else {
      assert forall i :: i in s ==> i in starts;
      assert s == {};
    }
  }

  lemma StartsCount(hay: string, needle: string, starts: seq<nat>)
    requires Increasing(starts) && forall i :: OccursAt(hay, needle, i) <==> i in starts
    ensures |Places(hay, needle)| == |starts|
  {
    SetOfIncreasing(starts, Places(hay, needle));
  }

  lemma RecoveredDecides(window: string, anchor: Anchor, ratio: Ratio, s: int, l: int)
    requires Recoverable(window, anchor, ratio, s, l)
    requires !Occurs(window, anchor) && !Occurs(Fold(window), Fold(Normalize(anchor)))
    ensures OccursAt(window, window[s..s + l], s)
    ensures EndOf(window, anchor, ratio)
         == if UniqueEnd(window, window[s..s + l]).Some? then Some(s + l) else None
  {
    assert 0 <= s && 0 <= l && s + l <= |window|;
    hide BestMatch, Candidate, Score, Fold, Normalize;
    forall s', l' | Recoverable(window, anchor, ratio, s', l') ensures s' == s && l' == l {
      BestMatchUnique(window, anchor, ratio, s', l', s, l);
    }
    var recovered := window[s..s + l];
    assert OccursAt(window, recovered, s);
    assert forall i :: OnlyAt(window, recovered, i) ==> i == s;
  }

  /** The tier cascade inside the loop of `_resolve_boundaries`. */
  method LocateAnchor(window: string, foldedWindow: string, anchor: Anchor, ratio: Ratio) returns (r: Sighting)
    requires foldedWindow == Fold(window)
    ensures EndOf(window, anchor, ratio) == if r.At? then Some(r.end) else None
    ensures r.Missing? ==> !Occurs(window, anchor) && !Occurs(Fold(window), Fold(Normalize(anchor)))
    ensures r.Ambiguous? && !r.folded ==> r.count == |Places(window, anchor)| > 1
    ensures r.Ambiguous? && r.folded ==>
              !Occurs(window, anchor) && r.count == |Places(Fold(window), Fold(Normalize(anchor)))| > 1
  {
    hide OccursAt, OnlyAt, UniqueEnd, Occurs, Normalize, Fold, Places;
    var matchLength := |anchor|;
    var starts := FindAllOverlapping(window, anchor);
    StartsDecide(window, anchor, starts);
    StartsCount(window, anchor, starts);
    var folded := false;
    if starts == [] {
      var normal := Normalize(anchor);
      var foldedAnchor := FoldForMatch(normal);
      starts := FindAllOverlapping(foldedWindow, foldedAnchor);
      StartsDecide(foldedWindow, foldedAnchor, starts);
      StartsCount(foldedWindow, foldedAnchor, starts);
      if starts != [] {
        folded := true;
        matchLength := |normal|;
      }
    }
    if starts == [] {
      r := RecoverAnchor(window, anchor, ratio);
    } else if |starts| > 1 {
      r := Ambiguous(|starts|, folded);
    } else {
      r := At(starts[0] + matchLength);
    }
  }

  /** The third tier: the recovered substring must itself occur only once. */
  method RecoverAnchor(window: string, anchor: Anchor, ratio: Ratio) returns (r: Sighting)
    requires !Occurs(window, anchor) && !Occurs(Fold(window), Fold(Normalize(anchor)))
    ensures EndOf(window, anchor, ratio) == if r.At? then Some(r.end) else None
    ensures !r.Ambiguous?
  {
    hide OccursAt, OnlyAt, UniqueEnd, Occurs, Normalize, Fold;
    var fuzzy := FuzzyRecover(window, anchor, ratio);
    if fuzzy.None? {
      return Missing;
    }
    var m := fuzzy.value;
    var recovered := window[m.start..m.start + m.length];
    RecoveredDecides(window, anchor, ratio, m.start, m.length);
    var again := FindAllOverlapping(window, recovered);
    StartsDecide(window, recovered, again);
    return if |again| == 1 then At(m.start + m.length) else AmbiguousRecovery(|again|);
  }

  // ---------------------------------------------------------------- boundaries of a batch

  datatype Reason =
    | NotLocated(index: nat, sighting: Sighting)
    | NotAdvancing(index: nat)
    | TailLeft

  datatype Resolution = Resolved(ends: seq<nat>) | Rejected(reasons: seq<Reason>)

  /** Where each draft's anchor ends, if it is located. */
  ghost function Where(window: string, drafts: seq<Draft>, ratio: Ratio): (r: seq<Option<nat>>)
    ensures |r| == |drafts|
    ensures forall i :: 0 <= i < |drafts| ==> r[i] == EndOf(window, drafts[i].endAnchor, ratio)
    ensures forall i :: 0 <= i < |drafts| && r[i].Some? ==> 0 < r[i].value <= |window|
  {
    seq(|drafts|, i requires 0 <= i < |drafts| => EndOf(window, drafts[i].endAnchor, ratio))
  }

  /** Every anchor located, the ends strictly advancing, and for a closed range nothing but
  whitespace after the last one. */
  predicate Acceptable(window: string, found: seq<Option<nat>>, cover: bool)
    requires |found| > 0
  {
    && (forall i :: 0 <= i < |found| ==> found[i].Some? && found[i].value <= |window|)
    && (forall i, j :: 0 <= i < j < |found| ==> found[i].value < found[j].value)
    && (cover ==> Blank(window[found[|found| - 1].value..]))
  }

  /** The located ends, the last one moved to the end of the window over a blank tail. */
  function Boundaries(window: string, found: seq<Option<nat>>, snap: bool): seq<nat>
    requires |found| > 0 && Acceptable(window, found, false)
  {
    var raw := seq(|found|, i requires 0 <= i < |found| => found[i].value);
    if snap && Blank(window[raw[|raw| - 1]..]) then raw[|raw| - 1 := |window|] else raw
  }

  /** The drafts among the first `n` whose anchor cannot be located. */
  function Unlocated(found: seq<Option<nat>>, n: nat): set<nat>
    requires n <= |found|
  {
    set i: nat | i < n && found[i].None?
  }

  function Named(reasons: seq<Reason>): set<nat> {
    if reasons == [] then {}
    else Named(reasons[..|reasons| - 1]) + if reasons[|reasons| - 1].NotLocated? then {reasons[|reasons| - 1].index}
        else {}
  }

  lemma NamedOneMore(reasons: seq<Reason>, r: Reason)
    ensures Named(reasons + [r]) == Named(reasons) + if r.NotLocated? then {r.index} else {}
  {
    assert (reasons + [r])[..|reasons|] == reasons;
  }

  /** Two neighbouring drafts whose located ends do not advance. */
  predicate Stuck(found: seq<Option<nat>>, i: int) {
    && 0 < i < |found|
    && found[i - 1].Some? && found[i].Some?
    && found[i].value <= found[i - 1].value
  }

  /** What the reasons and ends so far say about the first `n` drafts. */
  ghost predicate Surveyed(found: seq<Option<nat>>, reasons: seq<Reason>, ends: seq<nat>, n: nat) {
    && n <= |found|
    && Named(reasons) == Unlocated(found, n)
    && (reasons == [] ==> LocatedPrefix(found, ends, n))
    && (reasons != [] ==> exists i :: 0 <= i < n && (found[i].None? || Stuck(found, i)))
    && forall i: nat :: NotAdvancing(i) in reasons <==> i < n && FirstStuck(found, i)
  }

  /** Draft `i` is the first fault: all before are located and advance, and it does not advance. */
  predicate FirstStuck(found: seq<Option<nat>>, i: int) {
    Stuck(found, i) && forall j :: 0 <= j < i ==> found[j].Some? && !Stuck(found, j)
  }

  lemma SurveyedMiss(found: seq<Option<nat>>, reasons: seq<Reason>, ends: seq<nat>, n: nat, sighting: Sighting)
    requires Surveyed(found, reasons, ends, n) && n < |found| && found[n].None?
    ensures Surveyed(found, reasons + [NotLocated(n, sighting)], ends, n + 1)
  {
    NamedOneMore(reasons, NotLocated(n, sighting));
  }

  lemma SurveyedStuck(found: seq<Option<nat>>, ends: seq<nat>, n: nat)
    requires Surveyed(found, [], ends, n) && n < |found| && found[n].Some?
    requires 0 < found[n].value <= LastOr0(ends)
    ensures Surveyed(found, [NotAdvancing(n)], ends, n + 1)
  {
    NamedOneMore([], NotAdvancing(n));
    assert [] + [NotAdvancing(n)] == [NotAdvancing(n)];
    assert Stuck(found, n);
  }

  lemma SurveyedHit(found: seq<Option<nat>>, reasons: seq<Reason>, ends: seq<nat>, n: nat, end: nat)
    requires Surveyed(found, reasons, ends, n) && n < |found| && found[n] == Some(end)
    requires reasons == [] ==> end > LastOr0(ends)
    ensures Surveyed(found, reasons, ends + [end], n + 1)
  {
    assert Unlocated(found, n + 1) == Unlocated(found, n);
  }

  /** The loop of `_resolve_boundaries`: order is checked only until the first fault. */
  method LocateAll(window: string, drafts: Drafts, ratio: Ratio) returns (reasons: seq<Reason>, ends: seq<nat>)
    ensures Surveyed(Where(window, drafts, ratio), reasons, ends, |drafts|)
  {
    hide EndOf, Surveyed;
    ghost var found := Where(window, drafts, ratio);
    reasons, ends := [], [];
    var pos := 0;
    var orderingValid := true;
    var foldedWindow := FoldForMatch(window);
    NothingSurveyed(found);
    for idx := 0 to |drafts|
      invariant orderingValid <==> reasons == []
      invariant orderingValid ==> pos == LastOr0(ends)
      invariant Surveyed(found, reasons, ends, idx)
    {
      var sighting := LocateAnchor(window, foldedWindow, drafts[idx].endAnchor, ratio);
      assert found[idx] == if sighting.At? then Some(sighting.end) else None;
      if !sighting.At? {
        SurveyedMiss(found, reasons, ends, idx, sighting);
        reasons := reasons + [NotLocated(idx, sighting)];
        orderingValid := false;
      } else if orderingValid && sighting.end <= pos {
        SurveyedStuck(found, ends, idx);
        assert reasons + [NotAdvancing(idx)] == [NotAdvancing(idx)];
        reasons := reasons + [NotAdvancing(idx)];
        orderingValid := false;
      } else {
        SurveyedHit(found, reasons, ends, idx, sighting.end);
        ends := ends + [sighting.end];
        pos := sighting.end;
      }
    }
  }

  lemma NothingSurveyed(found: seq<Option<nat>>)
    ensures Surveyed(found, [], [], 0)
  {
  }

  /** `_resolve_boundaries`: accepted exactly when the batch is acceptable; a refusal for anchors
  names exactly the drafts whose anchor cannot be located. */
  method ResolveBoundaries(window: string, drafts: Drafts, cover: bool, snapTail: bool, ratio: Ratio)
    returns (r: Resolution)
    ensures r == Resolve(window, drafts, cover, snapTail, ratio)
            || (r.Rejected? && Resolve(window, drafts, cover, snapTail, ratio).Rejected?)
    ensures r.Rejected? ==> r.reasons != [] && Named(r.reasons) == Unlocated(Where(window, drafts, ratio), |drafts|)
    ensures r.Rejected? ==>
              forall i: nat :: NotAdvancing(i) in r.reasons <==> FirstStuck(Where(window, drafts, ratio), i)
  {
    hide EndOf, Blank, Acceptable, Boundaries, Unlocated;
    var reasons, ends := LocateAll(window, drafts, ratio);
    ghost var found := Where(window, drafts, ratio);
    if reasons != [] {
      FaultyIsUnacceptable(window, found, reasons, cover);
      return Rejected(reasons);
    }
    r := CloseBatch(window, found, ends, cover, snapTail);
  }

  lemma FaultyIsUnacceptable(window: string, found: seq<Option<nat>>, reasons: seq<Reason>, cover: bool)
    requires |found| > 0 && exists i :: 0 <= i < |found| && (found[i].None? || Stuck(found, i))
    ensures !Acceptable(window, found, cover)
  {
    var i :| 0 <= i < |found| && (found[i].None? || Stuck(found, i));
  }

  lemma LocatedAre(window: string, found: seq<Option<nat>>, located: seq<nat>)
    requires |found| > 0 && LocatedPrefix(found, located, |found|)
    requires forall i :: 0 <= i < |located| ==> located[i] <= |window|
    ensures Acceptable(window, found, false)
    ensures Acceptable(window, found, true) <==> Blank(window[located[|located| - 1]..])
    ensures forall snap :: Boundaries(window, found, snap) ==
                           if snap && Blank(window[located[|located| - 1]..]) then located[|located| - 1 := |window|]
                           else located
    ensures Unlocated(found, |found|) == {}
  {
    hide Blank;
    assert located == seq(|found|, i requires 0 <= i < |found| => found[i].value);
  }

  /** The last checks of `_resolve_boundaries`, on located and advancing ends. */
  method CloseBatch(window: string, ghost found: seq<Option<nat>>, located: seq<nat>, cover: bool, snapTail: bool)
    returns (r: Resolution)
    requires |found| > 0 && LocatedPrefix(found, located, |found|)
    requires forall i :: 0 <= i < |located| ==> located[i] <= |window|
    ensures r.Resolved? <==> Acceptable(window, found, cover)
    ensures r.Resolved? ==> r.ends == Boundaries(window, found, cover || snapTail)
    ensures r.Rejected? ==> r.reasons == [TailLeft] && Named(r.reasons) == Unlocated(found, |found|)
  {
    assert Named([]) == {} && Blank("") && window[|window|..] == "";
    LocatedAre(window, found, located);
    hide Blank, Named, Acceptable, Boundaries, Unlocated;
    var ends := located;
    if (cover || snapTail) && ends[|ends| - 1] < |window| && Blank(window[ends[|ends| - 1]..]) {
      ends := ends[|ends| - 1 := |window|];
    }
    if cover && ends[|ends| - 1] < |window| {
      NamedOneMore([], TailLeft);
      assert [TailLeft] == [] + [TailLeft];
      return Rejected([TailLeft]);
    }
    return Resolved(ends);
  }

  /** What a batch resolves to. */
  ghost function Resolve(window: string, drafts: Drafts, cover: bool, snapTail: bool, ratio: Ratio): Resolution {
    var found := Where(window, drafts, ratio);
    if Acceptable(window, found, cover) then Resolved(Boundaries(window, found, cover || snapTail)) else Rejected([])
  }

  predicate LocatedPrefix(found: seq<Option<nat>>, ends: seq<nat>, n: int)
    requires 0 <= n <= |found|
  {
    && |ends| == n
    && (forall i :: 0 <= i < n ==> found[i] == Some(ends[i]))
    && Increasing(ends)
  }

  function LastOr0(ends: seq<nat>): nat {
    if ends == [] then 0 else ends[|ends| - 1]
  }

  // ---------------------------------------------------------------- what resolution guarantees

  /** Cuts of a window: positive, strictly increasing, within it. */
  predicate Cuts(ends: seq<nat>, size: nat) {
    |ends| > 0 && ends[0] > 0 && Increasing(ends) && ends[|ends| - 1] <= size
  }

  /** An accepted end is where its draft's anchor ends; one that is to be moved lies at the end of the
  window instead, if nothing but whitespace is in between. */
  predicate EndsAt(window: string, anchorEnd: Option<nat>, end: nat, moves: bool) {
    && anchorEnd.Some? && anchorEnd.value <= |window|
    && end == if moves && Blank(window[anchorEnd.value..]) then |window| else anchorEnd.value
  }

  /** Resolved boundaries are cuts, one for each draft; each is where that draft's anchor ends
  except a last one moved over a blank tail; a closed window is used up. */
  lemma ResolvedAreCuts(window: string, drafts: Drafts, cover: bool, snapTail: bool, ratio: Ratio)
    requires Resolve(window, drafts, cover, snapTail, ratio).Resolved?
    ensures var ends := Resolve(window, drafts, cover, snapTail, ratio).ends;
            && |ends| == |drafts| && Cuts(ends, |window|)
            && (forall i :: 0 <= i < |ends| ==>
                  EndsAt(window, EndOf(window, drafts[i].endAnchor, ratio), ends[i],
                         (cover || snapTail) && i == |ends| - 1))
            && (cover ==> ends[|ends| - 1] == |window|)
            && (snapTail ==> ends[|ends| - 1] == |window| || !Blank(window[ends[|ends| - 1]..]))
  {
    hide EndOf;
    var found := Where(window, drafts, ratio);
    assert found[0].value > 0;
    var ends := Boundaries(window, found, cover || snapTail);
    assert forall i :: 0 <= i < |found| - 1 ==> ends[i] == found[i].value;
  }

  /** An anchor copied verbatim that occurs once is located right where it stands, whatever the
  similarity function says; one that occurs twice, even overlapping, is refused. */
  lemma ExactAnchor(window: string, anchor: Anchor, ratio: Ratio, i: int)
    requires OccursAt(window, anchor, i)
    ensures EndOf(window, anchor, ratio) == if OnlyAt(window, anchor, i) then Some(i + |anchor|) else None
  {
    assert Occurs(window, anchor);
    if !OnlyAt(window, anchor, i) {
      var j :| OccursAt(window, anchor, j) && j != i;
      assert forall k :: !OnlyAt(window, anchor, k);
    }
  }

  /** An anchor that differs from the text only in line endings, punctuation width or kind of
  whitespace is located at the text it stands for, provided that no other text is like it. */
  lemma FoldedAnchor(window: string, anchor: Anchor, ratio: Ratio, lo: nat)
    requires !Occurs(window, anchor)
    requires AlikeAt(window, Normalize(anchor), lo) && forall i :: AlikeAt(window, Normalize(anchor), i) ==> i == lo
    ensures EndOf(window, anchor, ratio) == Some(lo + |Normalize(anchor)|)
  {
    hide AlikeAt, Normalize, OccursAt;
    var fw, fn := Fold(window), Fold(Normalize(anchor));
    forall i ensures OccursAt(fw, fn, i) <==> i == lo {
      FoldIff(window, Normalize(anchor), i);
    }
    assert OccursAt(fw, fn, lo);
    assert OnlyAt(fw, fn, lo);
  }

  /** A stretch of two characters or more whose length is within a fifth of the anchor's, rounded outwards by
  less than one character below and by at most one above. */
  predicate Near(window: string, anchor: string, start: int, length: int) {
    2 <= length && 4 * |anchor| - 5 < 5 * length <= 6 * |anchor| + 5 && 0 <= start && start + length <= |window|
  }

  lemma CandidateIff(window: string, anchor: string, start: int, length: int)
    ensures Candidate(window, anchor, start, length) <==> Near(window, anchor, start, length)
  {
  }

  /** An anchor that stands nowhere, not even up to folding, is located at the most similar stretch near its
  length, the shortest and leftmost of several, if it is similar enough and occurs once itself. */
  lemma FuzzyAnchor(window: string, anchor: Anchor, ratio: Ratio, s: nat, l: nat)
    requires !Occurs(window, anchor) && forall i :: !AlikeAt(window, Normalize(anchor), i)
    requires Near(window, anchor, s, l)
    requires forall s', l' :: Near(window, anchor, s', l') ==>
               && ratio(anchor, window[s'..s' + l']) <= ratio(anchor, window[s..s + l])
               && (l' < l || (l' == l && s' < s) ==>
                     ratio(anchor, window[s'..s' + l']) < ratio(anchor, window[s..s + l]))
    ensures EndOf(window, anchor, ratio)
         == if ratio(anchor, window[s..s + l]) >= 0.78 && OnlyAt(window, window[s..s + l], s) then Some(s + l) else None
  {
    hide AlikeAt, Normalize, OccursAt, OnlyAt, Candidate, Near, UniqueEnd;
    forall i ensures !OccursAt(Fold(window), Fold(Normalize(anchor)), i) {
      FoldIff(window, Normalize(anchor), i);
    }
    assert !Occurs(Fold(window), Fold(Normalize(anchor)));
    BestIsBest(window, anchor, ratio, s, l);
    if ratio(anchor, window[s..s + l]) >= 0.78 {
      RecoveredDecides(window, anchor, ratio, s, l);
      SeenOnce(window, s, l);
    } else if s', l' :| Recoverable(window, anchor, ratio, s', l') {
      BestMatchUnique(window, anchor, ratio, s, l, s', l');
      assert false;
    }
  }

  lemma SeenOnce(window: string, s: nat, l: nat)
    requires s + l <= |window|
    ensures UniqueEnd(window, window[s..s + l]).Some? <==> OnlyAt(window, window[s..s + l], s)
  {
    assert OccursAt(window, window[s..s + l], s);
  }

  lemma BestIsBest(window: string, anchor: Anchor, ratio: Ratio, s: nat, l: nat)
    requires Near(window, anchor, s, l)
    requires forall s', l' :: Near(window, anchor, s', l') ==>
               && ratio(anchor, window[s'..s' + l']) <= ratio(anchor, window[s..s + l])
               && (l' < l || (l' == l && s' < s) ==>
                     ratio(anchor, window[s'..s' + l']) < ratio(anchor, window[s..s + l]))
    ensures BestMatch(window, anchor, ratio, s, l) && s + l <= |window|
    ensures Score(window, anchor, ratio, s, l) == ratio(anchor, window[s..s + l])
  {
    CandidateIff(window, anchor, s, l);
    forall s', l' | Candidate(window, anchor, s', l') ensures Near(window, anchor, s', l') {
      CandidateIff(window, anchor, s', l');
    }
  }
}
