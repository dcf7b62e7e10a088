/** Erase the ledger, keep the derived files, run backfill: exactly when the same ranges come back. */
module LedgerRoundTrip {
  import opened Options
  import opened SourceText
  import opened AnchorResolution
  import opened EpisodeLedger
  import opened EpisodePlanner
  import opened Tiling
  import opened PlannerInvariant
  import opened BackfillProperties

  // ---------------------------------------------------------------- what is left after erasing

  /** Entries numbered 1, 2, ... without any ledger status. */
  predicate InSequence(eps: seq<Entry>) {
    forall i :: 0 <= i < |eps| ==> eps[i].num == Some(i + 1)
  }

  predicate Bare(eps: seq<Entry>) {
    InSequence(eps) && forall i :: 0 <= i < |eps| ==> eps[i].status.None?
  }

  /** All ledger fields gone, the entries still there. */
  function Erased(p: Project): Project {
    p.(episodes := seq(|p.episodes|, i requires 0 <= i < |p.episodes| => p.episodes[i].(range := None, status := None)),
       cursor := None)
  }

  /** The ledger fields of some numbers gone, and the cursor. */
  function PartlyErased(p: Project, gone: set<int>): Project {
    p.(episodes := seq(|p.episodes|, i requires 0 <= i < |p.episodes| =>
         if i + 1 in gone then p.episodes[i].(range := None, status := None) else p.episodes[i]),
       cursor := None)
  }

  /** Only the derived files left. */
  function FilesOnly(p: Project): Project {
    p.(episodes := [], cursor := None)
  }

  lemma {:induction false} SortedInterval(s: set<int>, lo: int, hi: int)
    requires lo <= hi && forall x :: x in s <==> lo < x <= hi
    ensures |SortedSet(s)| == hi - lo && forall i :: 0 <= i < hi - lo ==> SortedSet(s)[i] == lo + 1 + i
    decreases hi - lo
  {
    if lo == hi {
      assert s == {};
    } else {
      assert lo + 1 in s;
      assert Least(s) == lo + 1;
      SortedInterval(s - {lo + 1}, lo + 1, hi);
      assert SortedSet(s) == [lo + 1] + SortedSet(s - {lo + 1});
    }
  }

  lemma SequenceIsSorted(eps: seq<Entry>)
    requires InSequence(eps)
    ensures SortIfPossible(eps) == eps
  {
    hide Sort;
    SortFixes(eps, NumKey);
  }

  /** Every file has its entry. */
  lemma ErasedHasAll(docs: seq<SourceDoc>, p: Project, gone: set<int>)
    requires Consistent(docs, p)
    ensures InSequence(PartlyErased(p, gone).episodes) && Orphans(PartlyErased(p, gone).episodes, p.files) == {}
  {
    hide Tiles, Cut;
    var eps := PartlyErased(p, gone).episodes;
    forall n | n in p.files.Keys && n >= 0 ensures n in Numbers(eps) {
      assert eps[n - 1].num == Some(n);
    }
  }

  lemma ErasedIsListed(docs: seq<SourceDoc>, p: Project, gone: set<int>)
    requires Consistent(docs, p)
    ensures Listed(PartlyErased(p, gone).episodes, p.files) == PartlyErased(p, gone).episodes
  {
    hide Consistent, Orphans, SortIfPossible, InSequence;
    var eps := PartlyErased(p, gone).episodes;
    ErasedHasAll(docs, p, gone);
    assert SortedSet({}) == [];
    assert eps + NewEntries(SortedSet(Orphans(eps, p.files))) == eps;
    SequenceIsSorted(eps);
  }

  /** Nothing is left of a ledger all of whose numbers are erased. */
  lemma ErasedWholly(docs: seq<SourceDoc>, p: Project)
    requires Consistent(docs, p)
    ensures Erased(p) == PartlyErased(p, Numbers(p.episodes))
  {
    hide Tiles, Cut;
    assert forall i :: 0 <= i < |p.episodes| ==> p.episodes[i].num == Some(i + 1);
    assert Erased(p).episodes == PartlyErased(p, Numbers(p.episodes)).episodes;
  }

  lemma NewEntriesBare(nums: seq<int>)
    requires forall i :: 0 <= i < |nums| ==> nums[i] == i + 1
    ensures Bare(NewEntries(nums)) && SortIfPossible(NewEntries(nums)) == NewEntries(nums)
  {
    hide SortIfPossible;
    assert InSequence(NewEntries(nums));
    SequenceIsSorted(NewEntries(nums));
  }

  lemma OrphansOfNone(docs: seq<SourceDoc>, p: Project)
    requires Consistent(docs, p)
    ensures forall x :: x in Orphans([], p.files) <==> 0 < x <= |p.episodes|
  {
  }

  lemma FilesOnlyIsListed(docs: seq<SourceDoc>, p: Project)
    requires Consistent(docs, p)
    ensures Bare(Listed([], p.files)) && |Listed([], p.files)| == |p.episodes|
  {
    hide Consistent, SortedSet, Orphans, SortIfPossible, Bare;
    OrphansOfNone(docs, p);
    SortedInterval(Orphans([], p.files), 0, |p.episodes|);
    var nums := SortedSet(Orphans([], p.files));
    NewEntriesBare(nums);
    assert [] + NewEntries(nums) == NewEntries(nums);
  }

  // ---------------------------------------------------------------- the visit order

  function CountUp(n: nat): seq<(int, nat)> {
    seq(n, i requires 0 <= i < n => (i + 1, i))
  }

  lemma {:induction false} SequencePairs(eps: seq<Entry>, n: nat)
    requires InSequence(eps) && n <= |eps|
    ensures FirstSeenPairs(eps, n) == CountUp(n)
  {
    if n > 0 {
      SequencePairs(eps, n - 1);
      SequenceFirstSeen(eps, n - 1);
      hide InSequence, FirstSeen;
    }
  }

  lemma SequenceFirstSeen(eps: seq<Entry>, i: nat)
    requires InSequence(eps) && i < |eps|
    ensures FirstSeen(eps, i) && eps[i].num == Some(i + 1)
  {
  }

  lemma SequenceOrder(eps: seq<Entry>)
    requires InSequence(eps)
    ensures VisitOrder(eps) == CountUp(|eps|) && IsOrder(eps, CountUp(|eps|))
  {
    SequencePairs(eps, |eps|);
    SortFixes(CountUp(|eps|), PairKey);
    VisitOrderIsOrder(eps);
  }

  // ---------------------------------------------------------------- the trail of a perfect recovery

  /** The end of the last of the ranges that lies in source `d`. */
  function Covered(docs: seq<SourceDoc>, rs: seq<Range>, d: nat): nat
    requires AllGood(docs, rs)
  {
    if rs == [] then 0
    else if DocOf(docs, rs[|rs| - 1]) == d then rs[|rs| - 1].end
    else Covered(docs, rs[..|rs| - 1], d)
  }

  /** The trail after exactly the ranges `rs` have been recovered. */
  ghost predicate TrailFor(docs: seq<SourceDoc>, rs: seq<Range>, t: Trail)
    requires AllGood(docs, rs)
  {
    && |t.cursors| == |docs|
    && (forall d :: 0 <= d < |docs| ==> t.cursors[d] == Covered(docs, rs, d))
    && t.lastDoc == (if rs == [] then None else Some(DocOf(docs, rs[|rs| - 1])))
    && t.lastEnd == (if rs == [] then None else Some(Pos(rs[|rs| - 1].file, rs[|rs| - 1].end)))
  }

  lemma {:induction false} CoveredInBounds(docs: seq<SourceDoc>, rs: seq<Range>, d: nat)
    requires AllGood(docs, rs) && d < |docs|
    ensures Covered(docs, rs, d) <= |docs[d].text|
  {
    if rs != [] {
      CoveredInBounds(docs, rs[..|rs| - 1], d);
      assert Good(docs, rs[|rs| - 1]);
    }
  }

  /** Behind the front everything not covered is whitespace; ahead of it nothing is covered. */
  lemma {:induction false} TilesCovered(docs: seq<SourceDoc>, rs: seq<Range>, d: nat)
    requires Tiles(docs, rs) && d < |docs|
    ensures var front := Front(docs, rs);
            && Covered(docs, rs, d) <= |docs[d].text|
            && (d < front.doc ==> Blank(docs[d].text[Covered(docs, rs, d)..]))
            && (d == front.doc ==> Covered(docs, rs, d) == front.offset)
            && (d > front.doc ==> Covered(docs, rs, d) == 0)
  {
    CoveredInBounds(docs, rs, d);
    if rs != [] {
      var init := rs[..|rs| - 1];
      TilesCovered(docs, init, d);
      assert docs[d].text[0..] == docs[d].text;
    }
  }

  // ---------------------------------------------------------------- where a text is found

  predicate Ascending(s: seq<nat>) {
    forall i, j :: 0 <= i < j < |s| ==> s[i] < s[j]
  }

  lemma {:induction false} WithoutAscends(n: nat, p: nat)
    ensures Ascending(Without(n, p)) && forall i :: 0 <= i < |Without(n, p)| ==> Without(n, p)[i] < n
  {
    if n > 0 {
      WithoutAscends(n - 1, p);
    }
  }

  /** In an ascending order the first hit is the least document with one. */
  lemma {:induction false} AscendingHit(docs: seq<SourceDoc>, cursors: seq<nat>, order: seq<nat>, needle: string,
                                        d: nat)
    requires |cursors| == |docs| && (forall i :: 0 <= i < |order| ==> order[i] < |docs|) && Ascending(order)
    requires d in order && Find(docs[d].text, needle, cursors[d]).Some?
    ensures var r := FirstHit(docs, cursors, order, needle);
            && r.Some? && r.value.doc <= d
            && (r.value.doc == d <==> forall e :: e in order && e < d ==> Find(docs[e].text, needle, cursors[e]).None?)
            && (r.value.doc == d ==> r.value.start == Find(docs[d].text, needle, cursors[d]).value)
  {
    hide Find, OccursAt;
    assert order == [order[0]] + order[1..];
    if Find(docs[order[0]].text, needle, cursors[order[0]]).None? {
      assert d in order[1..];
      AscendingHit(docs, cursors, order[1..], needle, d);
    } else {
      AscendingFirst(order, d);
    }
  }

  lemma AscendingFirst(order: seq<nat>, d: nat)
    requires Ascending(order) && d in order
    ensures order[0] <= d && order[0] in order
    ensures order[0] == d ==> forall e :: e in order ==> e >= d
  {
  }

  lemma FirstHitFrom(docs: seq<SourceDoc>, cursors: seq<nat>, p: nat, rest: seq<nat>, needle: string)
    requires |cursors| == |docs| && p < |docs| && forall i :: 0 <= i < |rest| ==> rest[i] < |docs|
    ensures FirstHit(docs, cursors, [p] + rest, needle)
         == match Find(docs[p].text, needle, cursors[p])
            case Some(i) => Some(Hit(p, i))
            case None => FirstHit(docs, cursors, rest, needle)
  {
    assert ([p] + rest)[1..] == rest;
  }

  /** A text found at the cursor of `d` is taken there exactly when no earlier source holds it after
  its cursor, provided the preferred source, if any, is an earlier one. */
  lemma TakenAt(docs: seq<SourceDoc>, cursors: seq<nat>, needle: string, preferred: Option<nat>, d: nat)
    requires |cursors| == |docs| && d < |docs| && (preferred.Some? ==> preferred.value < d)
    requires Find(docs[d].text, needle, cursors[d]) == Some(cursors[d])
    ensures var r := Found(docs, cursors, needle, preferred);
            && r.Some? && r.value.doc <= d
            && (r.value.doc == d <==> forall e :: 0 <= e < d ==> Find(docs[e].text, needle, cursors[e]).None?)
            && (r.value.doc == d ==> r.value.start == cursors[d])
  {
    hide Find, OccursAt, FirstHit, Without;
    var n := |docs|;
    var skip := if preferred.Some? then preferred.value else n;
    var rest := Without(n, skip);
    WithoutAscends(n, skip);
    AscendingHit(docs, cursors, rest, needle, d);
    if preferred.Some? {
      FirstHitFrom(docs, cursors, skip, rest, needle);
    }
  }

  /** The preferred source wins at once if it holds the text at its cursor. */
  lemma TakenAtPreferred(docs: seq<SourceDoc>, cursors: seq<nat>, needle: string, d: nat)
    requires |cursors| == |docs| && d < |docs|
    requires Find(docs[d].text, needle, cursors[d]) == Some(cursors[d])
    ensures Found(docs, cursors, needle, Some(d)) == Some(Hit(d, cursors[d]))
  {
    var order := SearchOrder(|docs|, Some(d));
    assert order[0] == d;
  }

  lemma FindNoneIffTail(text: string, needle: string, from: nat)
    requires from <= |text|
    ensures Find(text, needle, from).None? <==> !Occurs(text[from..], needle)
  {
    hide Find, OccursAt;
    var tail := text[from..];
    if Occurs(tail, needle) {
      var i :| OccursAt(tail, needle, i);
      OccursInTail(text, needle, from, from + i);
    }
    if Find(text, needle, from).Some? {
      OccursInTail(text, needle, from, Find(text, needle, from).value);
    }
  }

  lemma OccursInTail(text: string, needle: string, from: nat, i: int)
    requires from <= |text|
    ensures OccursAt(text[from..], needle, i - from) <==> i >= from && OccursAt(text, needle, i)
  {
    if from <= i && i + |needle| <= |text| {
      assert text[from..][i - from..i - from + |needle|] == text[i..i + |needle|];
    }
  }

  // ---------------------------------------------------------------- one step of the recovery

  /** The text of episode `k` does not occur in what earlier episodes leave uncovered of an earlier
  source. It matters only for an episode that opens a source. */
  ghost predicate Findable(docs: seq<SourceDoc>, rs: seq<Range>, k: int)
    requires 0 <= k < |rs| && AllGood(docs, rs)
  {
    var text := docs[DocOf(docs, rs[k])].text[rs[k].start..rs[k].end];
    rs[k].start == 0 ==> forall e :: 0 <= e < DocOf(docs, rs[k]) ==> !OccursBeyond(docs, rs[..k], e, text)
  }

  ghost predicate OccursBeyond(docs: seq<SourceDoc>, rs: seq<Range>, e: nat, text: string)
    requires AllGood(docs, rs) && e < |docs|
  {
    CoveredInBounds(docs, rs, e);
    Occurs(docs[e].text[Covered(docs, rs, e)..], text)
  }

  /** A range that continues its source, or opens a later one. */
  lemma NextRange(docs: seq<SourceDoc>, rs: seq<Range>, k: nat)
    requires Tiles(docs, rs) && k < |rs|
    ensures Tiles(docs, rs[..k]) && Good(docs, rs[k])
    ensures var d := DocOf(docs, rs[k]);
            && Covered(docs, rs[..k], d) == rs[k].start
            && (if rs[k].start > 0 then k > 0 && DocOf(docs, rs[k - 1]) == d
                else k > 0 ==> DocOf(docs, rs[k - 1]) < d)
  {
    TilesPrefix(docs, rs, k);
    TilesPrefix(docs, rs, k + 1);
    assert rs[..k + 1][..k] == rs[..k] && rs[..k + 1][k] == rs[k];
    TilesCovered(docs, rs[..k], DocOf(docs, rs[k]));
    if k > 0 {
      assert rs[..k][k - 1] == rs[k - 1] && Good(docs, rs[k - 1]);
    }
  }

  lemma FindableByCursors(docs: seq<SourceDoc>, rs: seq<Range>, k: nat, cursors: seq<nat>)
    requires k < |rs| && AllGood(docs, rs) && |cursors| == |docs|
    requires forall d :: 0 <= d < |docs| ==> cursors[d] == Covered(docs, rs[..k], d)
    ensures var d := DocOf(docs, rs[k]);
            var text := docs[d].text[rs[k].start..rs[k].end];
            Findable(docs, rs, k) <==> (rs[k].start == 0 ==> forall e :: 0 <= e < d ==>
                Find(docs[e].text, text, cursors[e]).None?)
  {
    hide Find, Occurs;
    var d := DocOf(docs, rs[k]);
    var text := docs[d].text[rs[k].start..rs[k].end];
    forall e | 0 <= e < d
      ensures Find(docs[e].text, text, cursors[e]).None? <==> !OccursBeyond(docs, rs[..k], e, text)
    {
      CoveredInBounds(docs, rs[..k], e);
      FindNoneIffTail(docs[e].text, text, cursors[e]);
    }
  }

  /** With the trail of a perfect recovery behind it, episode `k` is anchored to its own range
  exactly if it is findable; otherwise to a range in an earlier source. */
  lemma AnchorStep(env: Env, rs: seq<Range>, k: nat, t: Trail)
    requires Tiles(env.docs, rs) && k < |rs| && TrailFor(env.docs, rs[..k], t)
    ensures IsTrail(env.docs, t) && Good(env.docs, rs[k])
    ensures var d := DocOf(env.docs, rs[k]);
            var text := env.docs[d].text[rs[k].start..rs[k].end];
            var r := AnchorFor(env, t, text);
            && text != "" && r.Some? && r.value.doc <= d
            && (r.value.doc == d <==> Findable(env.docs, rs, k))
            && (r.value.doc == d ==> r.value.start == rs[k].start)
  {
    hide *;
    TrailAtNext(env.docs, rs, k, t);
    FindableByCursors(env.docs, rs, k, t.cursors);
    AnchorAtCursor(env, t, DocOf(env.docs, rs[k]), rs[k]);
  }

  /** The facts of `NextRange`, in terms of the trail. */
  lemma TrailAtNext(docs: seq<SourceDoc>, rs: seq<Range>, k: nat, t: Trail)
    requires Tiles(docs, rs) && k < |rs| && TrailFor(docs, rs[..k], t)
    ensures IsTrail(docs, t) && |t.cursors| == |docs| && AllGood(docs, rs) && Good(docs, rs[k])
    ensures forall d :: 0 <= d < |docs| ==> t.cursors[d] == Covered(docs, rs[..k], d)
    ensures var d := DocOf(docs, rs[k]);
            && d < |docs| && t.cursors[d] == rs[k].start && 0 <= rs[k].start < rs[k].end <= |docs[d].text|
            && (if rs[k].start > 0 then t.lastDoc == Some(d) else t.lastDoc.Some? ==> t.lastDoc.value < d)
  {
    hide Tiles, Follows;
    NextRange(docs, rs, k);
    TrailBounds(docs, rs[..k], t);
    TilesAllGood(docs, rs);
    assert k > 0 ==> rs[..k][k - 1] == rs[k - 1];
  }

  lemma TilesAllGood(docs: seq<SourceDoc>, rs: seq<Range>)
    requires Tiles(docs, rs)
    ensures AllGood(docs, rs)
  {
  }

  lemma AnchorAtCursor(env: Env, t: Trail, d: nat, r: Range)
    requires IsTrail(env.docs, t) && d < |env.docs| && 0 <= r.start < r.end <= |env.docs[d].text|
    requires t.cursors[d] == r.start
    requires if r.start > 0 then t.lastDoc == Some(d) else t.lastDoc.Some? ==> t.lastDoc.value < d
    ensures var text := env.docs[d].text[r.start..r.end];
            var hit := AnchorFor(env, t, text);
            && text != "" && hit.Some? && hit.value.doc <= d
            && (hit.value.doc == d <==>
                  (r.start == 0 ==> forall e :: 0 <= e < d ==> Find(env.docs[e].text, text, t.cursors[e]).None?))
            && (hit.value.doc == d ==> hit.value.start == r.start)
  {
    hide Find, Found;
    var docs: seq<SourceDoc> := env.docs;
    var text := docs[d].text[r.start..r.end];
    FoundAtOnce(docs[d].text, text, r.start);
    if r.start > 0 {
      TakenAtPreferred(docs, t.cursors, text, d);
    } else {
      TakenAt(docs, t.cursors, text, t.lastDoc, d);
    }
  }

  lemma TrailBounds(docs: seq<SourceDoc>, rs: seq<Range>, t: Trail)
    requires AllGood(docs, rs) && TrailFor(docs, rs, t)
    ensures IsTrail(docs, t)
    ensures t.lastDoc.Some? <==> rs != []
    ensures rs != [] ==> t.lastDoc == Some(DocOf(docs, rs[|rs| - 1]))
  {
    if rs != [] {
      assert Good(docs, rs[|rs| - 1]);
    }
  }

  lemma FoundAtOnce(text: string, needle: string, at: nat)
    requires at + |needle| <= |text| && text[at..at + |needle|] == needle
    ensures Find(text, needle, at) == Some(at)
  {
  }

  lemma TrailOneMore(docs: seq<SourceDoc>, rs: seq<Range>, r: Range, t: Trail, t': Trail)
    requires AllGood(docs, rs) && Good(docs, r) && TrailFor(docs, rs, t)
    requires t' == Trail(t.cursors[DocOf(docs, r) := r.end], Some(DocOf(docs, r)), Some(Pos(r.file, r.end)))
    ensures AllGood(docs, rs + [r]) && TrailFor(docs, rs + [r], t')
  {
    assert (rs + [r])[..|rs|] == rs;
  }

  // ---------------------------------------------------------------- the whole recovery

  function TextAt(docs: seq<SourceDoc>, rs: seq<Range>, k: nat): string
    requires AllGood(docs, rs) && k < |rs|
  {
    docs[DocOf(docs, rs[k])].text[rs[k].start..rs[k].end]
  }

  /** Entries in sequence, one for each range of a tiling, recorded with it or not recorded at all, whose files
  read back as the ranges' texts. */
  ghost predicate Recoverable(docs: Sources, files: map<int, string>, eps: seq<Entry>, rs: seq<Range>) {
    && Tiles(docs, rs) && AllGood(docs, rs)
    && InSequence(eps) && |eps| == |rs| && IsOrder(eps, CountUp(|eps|))
    && (forall k :: 0 <= k < |rs| && eps[k].status.Some? ==> eps[k].range == Some(rs[k]))
    && forall k :: 0 <= k < |rs| ==> FileText(files, k + 1) == TextAt(docs, rs, k)
  }

  lemma ConsistentRecoverable(docs: Sources, p: Project, eps: seq<Entry>)
    requires Consistent(docs, p) && InSequence(eps) && |eps| == |p.episodes|
    requires forall k :: 0 <= k < |eps| && eps[k].status.Some? ==> eps[k].range == p.episodes[k].range
    ensures Recoverable(docs, p.files, eps, RangesOf(p.episodes))
  {
    var rs := RangesOf(p.episodes);
    SequenceOrder(eps);
    forall k | 0 <= k < |rs| ensures FileText(p.files, k + 1) == TextAt(docs, rs, k) {
      var r := rs[k];
      assert Good(docs, r) && Cut(docs, p.episodes[k].range.value) == Ok(p.files[k + 1]);
      SliceIsNormal(docs[DocOf(docs, r)].text, r.start, r.end);
    }
  }

  lemma VisitBare(env: Env, files: map<int, string>, t: Trail, num: int, e: Entry, text: string)
    requires IsTrail(env.docs, t) && e.status.None? && text == FileText(files, num)
    requires text != "" && AnchorFor(env, t, text).Some?
    ensures var h := AnchorFor(env, t, text).value;
            var end := h.start + |text|;
            var rel := env.docs[h.doc].rel;
            Visit(env, files, t, num, e) ==
              (e.(range := Some(Range(rel, h.start, end)),
                  status := Some(if num in env.downstream then Consumed else Planned)),
               Trail(t.cursors[h.doc := end], Some(h.doc), Some(Pos(rel, end))))
  {
  }

  lemma RightDocRightFile(docs: Sources, r: Range, h: Hit, text: string)
    requires Good(docs, r) && h.doc < |docs| && |text| == r.end - r.start
    requires h.doc == DocOf(docs, r) ==> h.start == r.start
    ensures DocOf(docs, r) < |docs|
    ensures Range(docs[h.doc].rel, h.start, h.start + |text|) == r <==> h.doc == DocOf(docs, r)
  {
    IndexOfAt(docs, h.doc);
  }

  /** The visit to bare entry `k` after a perfect recovery of the first `k`. */
  lemma VisitNext(env: Env, files: map<int, string>, e: Entry, rs: seq<Range>, k: nat, t: Trail)
    requires Tiles(env.docs, rs) && k < |rs| && e.status.None?
    requires TrailFor(env.docs, rs[..k], t)
    requires AllGood(env.docs, rs) && FileText(files, k + 1) == TextAt(env.docs, rs, k)
    ensures IsTrail(env.docs, t)
    ensures var (e', t') := Visit(env, files, t, k + 1, e);
            && (e'.range == Some(rs[k]) <==> Findable(env.docs, rs, k))
            && e'.status == Some(if k + 1 in env.downstream then Consumed else Planned)
            && (Findable(env.docs, rs, k) ==>
               AllGood(env.docs, rs[..k] + [rs[k]]) && TrailFor(env.docs, rs[..k] + [rs[k]], t'))
  {
    hide *;
    var text := TextAt(env.docs, rs, k);
    TextAtIs(env.docs, rs, k);
    AnchorStep(env, rs, k, t);
    VisitBare(env, files, t, k + 1, e, text);
    RightDocRightFile(env.docs, rs[k], AnchorFor(env, t, text).value, text);
    if Findable(env.docs, rs, k) {
      AllGoodPrefix(env.docs, rs, k);
      TrailOneMore(env.docs, rs[..k], rs[k], t, Visit(env, files, t, k + 1, e).1);
    }
  }

  lemma AllGoodPrefix(docs: seq<SourceDoc>, rs: seq<Range>, k: nat)
    requires AllGood(docs, rs) && k <= |rs|
    ensures AllGood(docs, rs[..k])
  {
  }

  lemma TextAtIs(docs: seq<SourceDoc>, rs: seq<Range>, k: nat)
    requires AllGood(docs, rs) && k < |rs|
    ensures Good(docs, rs[k]) && DocOf(docs, rs[k]) < |docs|
    ensures 0 <= rs[k].start < rs[k].end <= |docs[DocOf(docs, rs[k])].text|
    ensures TextAt(docs, rs, k) == docs[DocOf(docs, rs[k])].text[rs[k].start..rs[k].end]
    ensures |TextAt(docs, rs, k)| == rs[k].end - rs[k].start
  {
  }

  /** The first `k` ranges have been recovered exactly. */
  ghost predicate RecoveredTo(env: Env, files: map<int, string>, eps: seq<Entry>, rs: seq<Range>, k: nat)
    requires Recoverable(env.docs, files, eps, rs) && k <= |rs|
  {
    && AllGood(env.docs, rs[..k])
    && TrailFor(env.docs, rs[..k], VisitAll(env, files, eps, CountUp(|eps|), k).1)
  }

  /** An entry keeps its range, or gets it back. */
  ghost predicate Comes(docs: seq<SourceDoc>, eps: seq<Entry>, rs: seq<Range>, k: int)
    requires 0 <= k < |rs| == |eps| && AllGood(docs, rs)
  {
    eps[k].status.Some? || Findable(docs, rs, k)
  }

  /** Passing an entry that is recorded with the next range is like recovering it. */
  lemma PassNext(env: Env, files: map<int, string>, e: Entry, rs: seq<Range>, k: nat, t: Trail)
    requires Tiles(env.docs, rs) && k < |rs| && AllGood(env.docs, rs)
    requires e.status.Some? && e.range == Some(rs[k]) && TrailFor(env.docs, rs[..k], t)
    ensures IsTrail(env.docs, t) && Visit(env, files, t, k + 1, e).0 == e
    ensures AllGood(env.docs, rs[..k] + [rs[k]])
            && TrailFor(env.docs, rs[..k] + [rs[k]], Visit(env, files, t, k + 1, e).1)
  {
    hide Tiles, Covered, TrailFor, Follows;
    TrailAtNext(env.docs, rs, k, t);
    AllGoodPrefix(env.docs, rs, k);
    TrailOneMore(env.docs, rs[..k], rs[k], t, Visit(env, files, t, k + 1, e).1);
  }

  /** One more visit after a perfect recovery of the first `k`. */
  lemma RecoverStep(env: Env, files: map<int, string>, eps: seq<Entry>, rs: seq<Range>, k: nat)
    requires Recoverable(env.docs, files, eps, rs) && k < |rs| && RecoveredTo(env, files, eps, rs, k)
    ensures VisitedEntry(env, files, eps, CountUp(|eps|), k).range == Some(rs[k]) <==> Comes(env.docs, eps, rs, k)
    ensures Comes(env.docs, eps, rs, k) ==> RecoveredTo(env, files, eps, rs, k + 1)
  {
    hide Visit, Findable, TrailFor, AllGood, Tiles, Find, TextAt, FileText, InSequence, CountUp, IsOrder;
    var order := CountUp(|eps|);
    CountUpAt(|eps|, k);
    var t := VisitAll(env, files, eps, order, k).1;
    if eps[k].status.Some? {
      PassNext(env, files, eps[k], rs, k, t);
    } else {
      VisitNext(env, files, eps[k], rs, k, t);
    }
    assert rs[..k + 1] == rs[..k] + [rs[k]];
  }

  /** As long as episodes are recorded or findable, exactly their ranges come back, one by one. */
  lemma {:induction false} RecoverPrefix(env: Env, files: map<int, string>, eps: seq<Entry>, rs: seq<Range>, k: nat)
    requires Recoverable(env.docs, files, eps, rs) && k <= |rs|
    requires forall i :: 0 <= i < k ==> Comes(env.docs, eps, rs, i)
    ensures RecoveredTo(env, files, eps, rs, k)
    ensures forall i :: 0 <= i < k ==> VisitedEntry(env, files, eps, CountUp(|eps|), i).range == Some(rs[i])
  {
    hide *;
    RecoverableFacts(env.docs, files, eps, rs);
    if k == 0 {
      RecoveredNone(env, files, eps, rs);
    } else {
      RecoverPrefix(env, files, eps, rs, k - 1);
      RecoverStep(env, files, eps, rs, k - 1);
    }
  }

  lemma RecoverableFacts(docs: Sources, files: map<int, string>, eps: seq<Entry>, rs: seq<Range>)
    requires Recoverable(docs, files, eps, rs)
    ensures AllGood(docs, rs) && |eps| == |rs| && IsOrder(eps, CountUp(|eps|)) && |CountUp(|eps|)| == |eps|
  {
  }

  lemma RecoveredNone(env: Env, files: map<int, string>, eps: seq<Entry>, rs: seq<Range>)
    requires Recoverable(env.docs, files, eps, rs)
    ensures RecoveredTo(env, files, eps, rs, 0)
  {
  }

  ghost predicate AllFindable(docs: seq<SourceDoc>, rs: seq<Range>)
    requires AllGood(docs, rs)
  {
    forall i :: 0 <= i < |rs| ==> Findable(docs, rs, i)
  }

  ghost predicate AllCome(docs: seq<SourceDoc>, eps: seq<Entry>, rs: seq<Range>)
    requires |eps| == |rs| && AllGood(docs, rs)
  {
    forall i :: 0 <= i < |rs| ==> Comes(docs, eps, rs, i)
  }

  predicate SameRanges(eps: seq<Entry>, rs: seq<Range>) {
    |eps| == |rs| && forall i :: 0 <= i < |rs| ==> eps[i].range == Some(rs[i])
  }

  /** The first episode that does not come back, if there is one. */
  lemma {:induction false} FirstLost(docs: seq<SourceDoc>, eps: seq<Entry>, rs: seq<Range>, n: nat) returns (k: nat)
    requires AllGood(docs, rs) && n <= |rs| == |eps|
    ensures k <= n && (forall i :: 0 <= i < k ==> Comes(docs, eps, rs, i)) && (k < n ==> !Comes(docs, eps, rs, k))
  {
    hide Comes;
    k := 0;
    while k < n && Comes(docs, eps, rs, k)
      invariant k <= n && forall i :: 0 <= i < k ==> Comes(docs, eps, rs, i)
    {
      k := k + 1;
    }
  }

  lemma CountUpAt(n: nat, i: nat)
    requires i < n
    ensures |CountUp(n)| == n && CountUp(n)[i] == (i + 1, i)
  {
  }

  lemma CountUpLength(n: nat)
    ensures |CountUp(n)| == n
  {
  }

  /** The visits recover every range exactly when every episode is recorded or findable. */
  lemma RecoverAll(env: Env, files: map<int, string>, eps: seq<Entry>, rs: seq<Range>)
    requires Recoverable(env.docs, files, eps, rs)
    ensures SameRanges(VisitAll(env, files, eps, CountUp(|eps|), |eps|).0, rs) <==> AllCome(env.docs, eps, rs)
    ensures AllCome(env.docs, eps, rs) ==> TrailFor(env.docs, rs, VisitAll(env, files, eps, CountUp(|eps|), |eps|).1)
  {
    hide Comes, AllGood, VisitedEntry, VisitAll, InSequence, Tiles, TextAt, FileText, CountUp, TrailFor, IsOrder;
    var order := CountUp(|eps|);
    CountUpLength(|eps|);
    var eps' := VisitAll(env, files, eps, order, |eps|).0;
    VisitAllPointwise(env, files, eps, order, |eps|);
    forall i | 0 <= i < |eps| ensures eps'[i] == VisitedEntry(env, files, eps, order, i) {
      CountUpAt(|eps|, i);
    }
    var k := FirstLost(env.docs, eps, rs, |rs|);
    RecoverPrefix(env, files, eps, rs, k);
    if k < |rs| {
      RecoverStep(env, files, eps, rs, k);
    } else {
      assert rs[..k] == rs;
    }
  }

  lemma CursorAtEnd(docs: Sources, p: Project, t: Trail)
    requires Consistent(docs, p) && AllGood(docs, RangesOf(p.episodes)) && TrailFor(docs, RangesOf(p.episodes), t)
    ensures t.lastEnd == p.cursor
  {
  }

  /** Backfill of a project in sequence that has lost its cursor, spelled out. */
  lemma BackfillOfSequence(env: Env, q: Project, n: nat)
    requires InSequence(Listed(q.episodes, q.files)) && |Listed(q.episodes, q.files)| == n
    requires q.cursor.None? && q.remaining.None?
    ensures var eps := Listed(q.episodes, q.files);
            && IsOrder(eps, CountUp(n))
            && var (eps', t) := VisitAll(env, q.files, eps, CountUp(n), n);
               Backfilled(env, q).episodes == eps' && Backfilled(env, q).cursor == t.lastEnd
  {
    hide Listed, VisitAll, FirstSeenPairs, Sort;
    SequenceOrder(Listed(q.episodes, q.files));
  }

  /** Backfill of what is left of a consistent project. */
  lemma RecoverFrom(env: Env, p: Project, q: Project)
    requires Consistent(env.docs, p) && q.cursor.None? && q.remaining.None? && q.files == p.files
    requires InSequence(Listed(q.episodes, q.files)) && |Listed(q.episodes, q.files)| == |p.episodes|
    requires forall k :: 0 <= k < |p.episodes| && Listed(q.episodes, q.files)[k].status.Some? ==>
               Listed(q.episodes, q.files)[k].range == p.episodes[k].range
    ensures var rs, eps := RangesOf(p.episodes), Listed(q.episodes, q.files);
            && AllGood(env.docs, rs) && |rs| == |eps|
            && (SameRanges(Backfilled(env, q).episodes, rs) <==> AllCome(env.docs, eps, rs))
            && (AllCome(env.docs, eps, rs) ==> Backfilled(env, q).cursor == p.cursor)
  {
    var rs := RangesOf(p.episodes);
    var eps := Listed(q.episodes, q.files);
    ConsistentRecoverable(env.docs, p, eps);
    assert |rs| == |p.episodes| && AllGood(env.docs, rs) && |eps| == |rs|;
    hide *;
    BackfillOfSequence(env, q, |rs|);
    RecoverAll(env, q.files, eps, rs);
    if AllCome(env.docs, eps, rs) {
      CursorAtEnd(env.docs, p, VisitAll(env, q.files, eps, CountUp(|rs|), |rs|).1);
    }
  }

  /** Erase the ledger fields of any episodes, and run backfill: exactly the same ranges come back, those
  recorded included, if and only if every erased episode that opens a source is findable; the planning cursor
  then comes back too. */
  lemma PartialRecover(env: Env, p: Project, gone: set<int>)
    requires Consistent(env.docs, p)
    ensures AllGood(env.docs, RangesOf(p.episodes))
    ensures var q, rs := PartlyErased(p, gone), RangesOf(p.episodes);
            && (SameRanges(Backfilled(env, q).episodes, rs) <==>
                  forall i :: 0 <= i < |rs| && i + 1 in gone ==> Findable(env.docs, rs, i))
            && (SameRanges(Backfilled(env, q).episodes, rs) ==> Backfilled(env, q).cursor == p.cursor)
  {
    var q, rs := PartlyErased(p, gone), RangesOf(p.episodes);
    ErasedFacts(env.docs, p, gone);
    hide *;
    RecoverFrom(env, p, q);
    ComesIffFindable(env.docs, q.episodes, rs, gone);
  }

  lemma ErasedFacts(docs: seq<SourceDoc>, p: Project, gone: set<int>)
    requires Consistent(docs, p)
    ensures var q := PartlyErased(p, gone);
            && q.cursor.None? && q.remaining.None? && q.files == p.files
            && |q.episodes| == |p.episodes| == |RangesOf(p.episodes)|
            && InSequence(q.episodes) && Listed(q.episodes, q.files) == q.episodes
            && forall k :: 0 <= k < |p.episodes| ==>
                 && (q.episodes[k].status.None? <==> k + 1 in gone)
                 && (q.episodes[k].status.Some? ==> q.episodes[k].range == p.episodes[k].range)
  {
    hide Listed, Tiles, FilesMatch;
    ErasedHasAll(docs, p, gone);
    ErasedIsListed(docs, p, gone);
    assert forall k :: 0 <= k < |p.episodes| ==> p.episodes[k].status.Some?;
  }

  lemma ErasedIsBare(docs: seq<SourceDoc>, p: Project)
    requires Consistent(docs, p)
    ensures var q := Erased(p); Bare(Listed(q.episodes, q.files)) && |Listed(q.episodes, q.files)| == |p.episodes|
  {
    hide Listed, Consistent, PartlyErased, InSequence, Numbers;
    ErasedWholly(docs, p);
    ErasedFacts(docs, p, Numbers(p.episodes));
    assert forall k :: 0 <= k < |p.episodes| ==> Erased(p).episodes[k].status.None?;
  }

  lemma ComesIffFindable(docs: seq<SourceDoc>, eps: seq<Entry>, rs: seq<Range>, gone: set<int>)
    requires AllGood(docs, rs) && |eps| == |rs|
    requires forall k :: 0 <= k < |eps| ==> (eps[k].status.None? <==> k + 1 in gone)
    ensures AllCome(docs, eps, rs) <==> forall i :: 0 <= i < |rs| && i + 1 in gone ==> Findable(docs, rs, i)
  {
    hide Findable, AllGood;
    assert forall i :: 0 <= i < |rs| ==> (Comes(docs, eps, rs, i) <==> i + 1 !in gone || Findable(docs, rs, i));
  }

  lemma BareComeIffFindable(docs: seq<SourceDoc>, eps: seq<Entry>, rs: seq<Range>)
    requires AllGood(docs, rs) && |eps| == |rs| && Bare(eps)
    ensures AllCome(docs, eps, rs) <==> AllFindable(docs, rs)
  {
    hide Findable, AllGood;
    assert forall i :: 0 <= i < |rs| ==> (Comes(docs, eps, rs, i) <==> Findable(docs, rs, i));
  }

  /** Erase every ledger field, or the whole list of episodes, and run backfill on the derived files:
  exactly the same ranges come back if and only if every episode that opens a source is findable;
  the planning cursor then comes back too. */
  lemma SplitRecover(env: Env, p: Project, q: Project)
    requires Consistent(env.docs, p) && (q == Erased(p) || q == FilesOnly(p))
    ensures AllGood(env.docs, RangesOf(p.episodes))
    ensures SameRanges(Backfilled(env, q).episodes, RangesOf(p.episodes))
            <==> AllFindable(env.docs, RangesOf(p.episodes))
    ensures AllFindable(env.docs, RangesOf(p.episodes)) ==> Backfilled(env, q).cursor == p.cursor
  {
    if q == Erased(p) {
      ErasedWholly(env.docs, p);
      ErasedIsBare(env.docs, p);
    } else {
      FilesOnlyIsListed(env.docs, p);
    }
    assert q.cursor.None? && q.remaining.None? && q.files == p.files;
    var eps := Listed(q.episodes, q.files);
    assert InSequence(eps) && forall k :: 0 <= k < |eps| ==> eps[k].status.None?;
    hide *;
    RecoverFrom(env, p, q);
    BareComeIffFindable(env.docs, eps, RangesOf(p.episodes));
  }

  /** In particular everything comes back when every episode has a non-whitespace character. */
  lemma InkIsFindable(docs: Sources, rs: seq<Range>)
    requires Tiles(docs, rs) && AllGood(docs, rs)
    requires forall i :: 0 <= i < |rs| ==> !Blank(docs[DocOf(docs, rs[i])].text[rs[i].start..rs[i].end])
    ensures AllFindable(docs, rs)
  {
    forall k | 0 <= k < |rs| ensures Findable(docs, rs, k) {
      var d := DocOf(docs, rs[k]);
      var text := docs[d].text[rs[k].start..rs[k].end];
      if rs[k].start == 0 {
        NextRange(docs, rs, k);
        forall e | 0 <= e < d ensures !OccursBeyond(docs, rs[..k], e, text) {
          TilesCovered(docs, rs[..k], e);
          BlankBeforeNext(docs, rs, k, e);
          InkNotInBlank(docs[e].text[Covered(docs, rs[..k], e)..], text);
        }
      }
    }
  }

  lemma InkNotInBlank(blank: string, text: string)
    requires Blank(blank)
    ensures Occurs(blank, text) ==> Blank(text)
  {
    if i :| OccursAt(blank, text, i) {
      forall j | 0 <= j < |text| ensures IsSpace(text[j]) {
        assert blank[i..i + |text|][j] == blank[i + j];
      }
    }
  }

  /** What earlier episodes leave uncovered before the source that episode `k` opens is whitespace. */
  lemma BlankBeforeNext(docs: Sources, rs: seq<Range>, k: nat, e: nat)
    requires Tiles(docs, rs) && k < |rs| && AllGood(docs, rs) && e < DocOf(docs, rs[k])
    requires rs[k].start == 0
    ensures AllGood(docs, rs[..k]) && e < |docs| && Covered(docs, rs[..k], e) <= |docs[e].text|
    ensures Blank(docs[e].text[Covered(docs, rs[..k], e)..])
  {
    TilesPrefix(docs, rs, k);
    TilesPrefix(docs, rs, k + 1);
    assert rs[..k + 1][..k] == rs[..k] && rs[..k + 1][k] == rs[k];
    TilesCovered(docs, rs[..k], e);
    assert docs[e].text[0..] == docs[e].text;
  }

  // ---------------------------------------------------------------- a ledger that does not come back

  function TwoSources(): Sources {
    [SourceDoc("a", "x  "), SourceDoc("b", " y")]
  }

  /** "x" from the first source, leaving its blanks behind, then one blank from the second. */
  function BlankOpener(): Project {
    Project([Entry(Some(1), "", "", Some(Range("a", 0, 1)), Some(Planned)),
             Entry(Some(2), "", "", Some(Range("b", 0, 1)), Some(Planned))],
            Some(Pos("b", 1)), map[1 := "x", 2 := " "], None)
  }

  lemma BlankOpenerTiles()
    ensures RangesOf(BlankOpener().episodes) == [Range("a", 0, 1)] + [Range("b", 0, 1)]
    ensures Tiles(TwoSources(), RangesOf(BlankOpener().episodes))
  {
    var docs, a, b := TwoSources(), Range("a", 0, 1), Range("b", 0, 1);
    assert IndexOf(docs, "a") == Some(0) && IndexOf(docs, "b") == Some(1);
    assert RangesOf(BlankOpener().episodes) == [a] + [b];
    assert docs[0].text[1..] == "  ";
    var none: seq<Range> := [];
    TilesOneMore(docs, none, a);
    assert none + [a] == [a];
    TilesOneMore(docs, [a], b);
  }

  lemma BlankOpenerConsistent()
    ensures Consistent(TwoSources(), BlankOpener())
  {
    hide Tiles;
    var docs := TwoSources();
    BlankOpenerTiles();
    assert IndexOf(docs, "a") == Some(0) && IndexOf(docs, "b") == Some(1);
    assert docs[0].text[0..1] == "x" && docs[1].text[0..1] == " ";
  }

  /** An episode that is only whitespace and opens a source: it is found in the blanks left behind in the
  source before, and its range does not come back. */
  lemma BlankOpenerIsLost(downstream: set<int>)
    ensures Consistent(TwoSources(), BlankOpener())
    ensures !SameRanges(Backfilled(Env(TwoSources(), downstream), Erased(BlankOpener())).episodes,
                        RangesOf(BlankOpener().episodes))
  {
    hide Consistent, Backfilled, AllFindable, Tiles;
    var docs, rs := TwoSources(), RangesOf(BlankOpener().episodes);
    BlankOpenerConsistent();
    BlankOpenerTiles();
    SplitRecover(Env(docs, downstream), BlankOpener(), Erased(BlankOpener()));
    BlankOpenerUnfindable(rs);
  }

  lemma BlankOpenerUnfindable(rs: seq<Range>)
    requires rs == [Range("a", 0, 1), Range("b", 0, 1)]
    ensures AllGood(TwoSources(), rs) && !AllFindable(TwoSources(), rs)
  {
    var docs := TwoSources();
    assert IndexOf(docs, "a") == Some(0) && IndexOf(docs, "b") == Some(1);
    assert AllGood(docs, rs) && DocOf(docs, rs[1]) == 1;
    assert rs[..1] == [Range("a", 0, 1)] && Covered(docs, rs[..1], 0) == 1;
    assert docs[0].text[1..] == "  " && docs[1].text[0..1] == " ";
    assert OccursAt("  ", " ", 0) by {
      assert "  "[0..1] == " ";
    }
    assert OccursBeyond(docs, rs[..1], 0, " ");
    assert !Findable(docs, rs, 1);
  }
}
