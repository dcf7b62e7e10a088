/** Where backfill anchors an entry: told from the ledger, before and after, and from the sources alone. */
module BackfillSearch {
  import opened Options
  import opened SourceText
  import opened EpisodeLedger
  import opened BackfillProperties
  import opened LedgerRoundTrip

  // ---------------------------------------------------------------- what went before

  /** The entries that take part and have a lower number. */
  function Earlier(eps: seq<Entry>, num: int): set<int> {
    set i | 0 <= i < |eps| && FirstSeen(eps, i) && eps[i].num.value < num
  }

  /** The entries that take part: the first with each number. */
  function Taking(eps: seq<Entry>): set<int> {
    set i | 0 <= i < |eps| && FirstSeen(eps, i)
  }

  predicate InDoc(docs: seq<SourceDoc>, r: Option<Range>, d: nat) {
    r.Some? && IndexOf(docs, r.value.file) == Some(d)
  }

  /** Entry `j` had no status before and is anchored in source `d` now. */
  predicate Newly(docs: seq<SourceDoc>, eps: seq<Entry>, out: seq<Entry>, j: int, d: nat)
    requires 0 <= j < |eps| == |out|
  {
    eps[j].status.None? && InDoc(docs, out[j].range, d)
  }

  /** Entry `i` of `among` lies in source `d`, and none of them with a higher number is newly anchored there. */
  ghost predicate Counts(docs: seq<SourceDoc>, eps: seq<Entry>, out: seq<Entry>, among: set<int>, d: nat, i: int)
    requires |eps| == |out| && forall j :: j in among ==> 0 <= j < |eps|
  {
    && i in among && InDoc(docs, out[i].range, d)
    && forall j :: j in among && Newly(docs, eps, out, j, d) ==> NumKey(eps[j]) <= NumKey(eps[i])
  }

  /** How far source `d` is used up: to the end of the last entry newly anchored there, or to the end of a
  recorded one after it if that is further on. */
  ghost predicate IsCursor(docs: seq<SourceDoc>, eps: seq<Entry>, out: seq<Entry>, among: set<int>, d: nat, c: nat)
    requires |eps| == |out| && forall j :: j in among ==> 0 <= j < |eps|
  {
    && (c == 0 || exists i :: Counts(docs, eps, out, among, d, i) && out[i].range.value.end == c)
    && forall i :: Counts(docs, eps, out, among, d, i) ==> out[i].range.value.end <= c
  }

  /** The source of the entry with the highest number that lies in a known one. */
  ghost predicate IsLastDoc(docs: seq<SourceDoc>, eps: seq<Entry>, out: seq<Entry>, among: set<int>, last: Option<nat>)
    requires |eps| == |out| && forall j :: j in among ==> 0 <= j < |eps|
  {
    if last.None? then forall i, d: nat :: i in among ==> !InDoc(docs, out[i].range, d)
    else exists i :: i in among && InDoc(docs, out[i].range, last.value)
                     && forall j, d: nat :: j in among && InDoc(docs, out[j].range, d) ==>
                          NumKey(eps[j]) <= NumKey(eps[i])
  }

  /** The end of the entry with the highest number that has a range at all. */
  ghost predicate IsLastEnd(eps: seq<Entry>, out: seq<Entry>, among: set<int>, last: Option<Pos>)
    requires |eps| == |out| && forall j :: j in among ==> 0 <= j < |eps|
  {
    if last.None? then forall i :: i in among ==> out[i].range.None?
    else exists i :: i in among && out[i].range.Some?
                     && last.value == Pos(out[i].range.value.file, out[i].range.value.end)
                     && forall j :: j in among && out[j].range.Some? ==> NumKey(eps[j]) <= NumKey(eps[i])
  }

  ghost predicate IsTrailOf(docs: seq<SourceDoc>, eps: seq<Entry>, out: seq<Entry>, among: set<int>, t: Trail)
    requires |eps| == |out| && forall j :: j in among ==> 0 <= j < |eps|
  {
    && IsTrail(docs, t)
    && (forall d :: 0 <= d < |docs| ==> IsCursor(docs, eps, out, among, d, t.cursors[d]))
    && IsLastDoc(docs, eps, out, among, t.lastDoc) && IsLastEnd(eps, out, among, t.lastEnd)
  }

  // ---------------------------------------------------------------- one visit

  /** An entry with a higher number than all before that is not in source `d`. */
  lemma CursorStays(docs: seq<SourceDoc>, eps: seq<Entry>, out: seq<Entry>, among: set<int>, i: int, d: nat, c: nat)
    requires 0 <= i < |eps| == |out| && forall j :: j in among ==> 0 <= j < |eps|
    requires IsCursor(docs, eps, out, among, d, c) && !InDoc(docs, out[i].range, d)
    ensures IsCursor(docs, eps, out, among + {i}, d, c)
  {
    forall k ensures Counts(docs, eps, out, among + {i}, d, k) <==> Counts(docs, eps, out, among, d, k) {
    }
  }

  lemma CursorMoves(docs: seq<SourceDoc>, eps: seq<Entry>, out: seq<Entry>, among: set<int>, i: int, d: nat, c: nat)
    requires 0 <= i < |eps| == |out| && forall j :: j in among ==> 0 <= j < |eps| && NumKey(eps[j]) < NumKey(eps[i])
    requires IsCursor(docs, eps, out, among, d, c) && InDoc(docs, out[i].range, d)
    requires eps[i].status.None? ==> out[i].range.value.end >= 0
    ensures var end := out[i].range.value.end;
            IsCursor(docs, eps, out, among + {i}, d, if eps[i].status.None? || end > c then end else c)
  {
    var all, end := among + {i}, out[i].range.value.end;
    assert Counts(docs, eps, out, all, d, i);
    forall k ensures Counts(docs, eps, out, all, d, k) <==>
                     k == i || (eps[i].status.Some? && Counts(docs, eps, out, among, d, k)) {
      if eps[i].status.None? && k != i && k in all {
        assert Newly(docs, eps, out, i, d);
      }
    }
  }

  lemma LastDocMoves(docs: seq<SourceDoc>, eps: seq<Entry>, out: seq<Entry>, among: set<int>, i: int, last: Option<nat>)
    requires 0 <= i < |eps| == |out| && forall j :: j in among ==> 0 <= j < |eps| && NumKey(eps[j]) < NumKey(eps[i])
    requires IsLastDoc(docs, eps, out, among, last)
    ensures IsLastDoc(docs, eps, out, among + {i},
                      if out[i].range.Some? && IndexOf(docs, out[i].range.value.file).Some?
                      then IndexOf(docs, out[i].range.value.file) else last)
  {
    if out[i].range.Some? && IndexOf(docs, out[i].range.value.file).Some? {
      var d := IndexOf(docs, out[i].range.value.file).value;
      assert i in among + {i} && InDoc(docs, out[i].range, d);
    } else if last.Some? {
      var k :| k in among && InDoc(docs, out[k].range, last.value)
               && forall j, d: nat :: j in among && InDoc(docs, out[j].range, d) ==> NumKey(eps[j]) <= NumKey(eps[k]);
      assert k in among + {i};
    }
  }

  lemma LastEndMoves(eps: seq<Entry>, out: seq<Entry>, among: set<int>, i: int, last: Option<Pos>)
    requires 0 <= i < |eps| == |out| && forall j :: j in among ==> 0 <= j < |eps| && NumKey(eps[j]) < NumKey(eps[i])
    requires IsLastEnd(eps, out, among, last)
    ensures IsLastEnd(eps, out, among + {i},
                      if out[i].range.Some? then Some(Pos(out[i].range.value.file, out[i].range.value.end)) else last)
  {
    if out[i].range.Some? {
      assert i in among + {i};
    } else if last.Some? {
      var k :| k in among && out[k].range.Some? && last.value == Pos(out[k].range.value.file, out[k].range.value.end)
               && forall j :: j in among && out[j].range.Some? ==> NumKey(eps[j]) <= NumKey(eps[k]);
      assert k in among + {i};
    }
  }

  /** What a visit does to the trail, told from the entry it leaves. */
  lemma VisitMoves(env: Env, files: map<int, string>, t: Trail, num: int, e: Entry)
    requires IsTrail(env.docs, t)
    ensures var (e', t') := Visit(env, files, t, num, e);
            && IsTrail(env.docs, t')
            && (e.status.Some? ==> e' == e)
            && t'.lastEnd == (if e'.range.Some? then Some(Pos(e'.range.value.file, e'.range.value.end)) else t.lastEnd)
            && t'.lastDoc == (if e'.range.Some? && IndexOf(env.docs, e'.range.value.file).Some?
                              then IndexOf(env.docs, e'.range.value.file) else t.lastDoc)
            && (e.status.None? && e'.range.Some? ==> e'.range.value.end >= 0)
            && forall d :: 0 <= d < |env.docs| ==>
                 t'.cursors[d] == if !InDoc(env.docs, e'.range, d) then t.cursors[d]
                                  else if e.status.None? || e'.range.value.end > t.cursors[d] then e'.range.value.end
                                  else t.cursors[d]
  {
    if e.status.None? {
      var hit := AnchorFor(env, t, FileText(files, num));
      if hit.Some? {
        IndexOfAt(env.docs, hit.value.doc);
      }
    }
  }

  // ---------------------------------------------------------------- all visits

  function Visited(order: seq<(int, nat)>, k: nat): set<int>
    requires k <= |order|
  {
    set j | 0 <= j < k :: order[j].1 as int
  }

  /** The trail of the visits so far is told by the entries they left. */
  lemma OneVisit(env: Env, files: map<int, string>, eps: seq<Entry>, out: seq<Entry>, among: set<int>, t: Trail,
                 num: int, i: nat)
    requires i < |eps| == |out| && eps[i].num == Some(num)
    requires forall j :: j in among ==> 0 <= j < |eps| && NumKey(eps[j]) < num
    requires IsTrailOf(env.docs, eps, out, among, t) && out[i] == Visit(env, files, t, num, eps[i]).0
    ensures IsTrailOf(env.docs, eps, out, among + {i}, Visit(env, files, t, num, eps[i]).1)
  {
    hide Visit, IsCursor, IsLastDoc, IsLastEnd, InDoc;
    VisitMoves(env, files, t, num, eps[i]);
    LastDocMoves(env.docs, eps, out, among, i, t.lastDoc);
    LastEndMoves(eps, out, among, i, t.lastEnd);
    var t' := Visit(env, files, t, num, eps[i]).1;
    forall d | 0 <= d < |env.docs| ensures IsCursor(env.docs, eps, out, among + {i}, d, t'.cursors[d]) {
      if InDoc(env.docs, out[i].range, d) {
        CursorMoves(env.docs, eps, out, among, i, d, t.cursors[d]);
      } else {
        CursorStays(env.docs, eps, out, among, i, d, t.cursors[d]);
      }
    }
  }

  lemma NoVisit(docs: seq<SourceDoc>, eps: seq<Entry>, out: seq<Entry>)
    requires |eps| == |out|
    ensures IsTrailOf(docs, eps, out, {}, Start(docs))
  {
  }

  /** Visits go up in number. */
  lemma VisitedBelow(eps: seq<Entry>, k: nat)
    requires k < |VisitOrder(eps)|
    ensures IsOrder(eps, VisitOrder(eps))
    ensures forall j :: j in Visited(VisitOrder(eps), k) ==> 0 <= j < |eps| && NumKey(eps[j]) < VisitOrder(eps)[k].0
  {
    hide VisitOrder;
    VisitOrderIsOrder(eps);
    VisitOrderMembers(eps);
    var order := VisitOrder(eps);
    forall j | 0 <= j < k ensures NumKey(eps[order[j].1]) < order[k].0 {
      assert PairKey(order[j]) <= PairKey(order[k]);
      assert order[j] in order && order[k] in order;
      if order[j].0 == order[k].0 {
        OneFirstSeen(eps, order[j].1, order[k].1);
      }
    }
  }

  lemma OneFirstSeen(eps: seq<Entry>, i: nat, j: nat)
    requires FirstSeen(eps, i) && FirstSeen(eps, j) && eps[i].num == eps[j].num
    ensures i == j
  {
  }

  lemma VisitedNext(env: Env, files: map<int, string>, eps: seq<Entry>, order: seq<(int, nat)>, k: nat)
    requires IsOrder(eps, order) && k <= |order|
    ensures forall j :: j in Visited(order, k) ==> 0 <= j < |eps|
    ensures if k == 0 then Visited(order, k) == {} && VisitAll(env, files, eps, order, k).1 == Start(env.docs)
            else
              var (num, i) := order[k - 1];
              var before := VisitAll(env, files, eps, order, k - 1).1;
              && Visited(order, k) == Visited(order, k - 1) + {i as int}
              && VisitedEntry(env, files, eps, order, k - 1) == Visit(env, files, before, num, eps[i]).0
              && VisitAll(env, files, eps, order, k).1 == Visit(env, files, before, num, eps[i]).1
  {
    hide Visit;
  }

  lemma {:induction false} TrailAfterVisits(env: Env, files: map<int, string>, eps: seq<Entry>, out: seq<Entry>, k: nat)
    requires |eps| == |out| && k <= |VisitOrder(eps)| && IsOrder(eps, VisitOrder(eps))
    requires forall j :: 0 <= j < k ==> out[VisitOrder(eps)[j].1] == VisitedEntry(env, files, eps, VisitOrder(eps), j)
    ensures forall j :: j in Visited(VisitOrder(eps), k) ==> 0 <= j < |eps|
    ensures IsTrailOf(env.docs, eps, out, Visited(VisitOrder(eps), k), VisitAll(env, files, eps, VisitOrder(eps), k).1)
  {
    hide VisitOrder, IsTrailOf, Visit, VisitAll, VisitedEntry, Visited;
    var order := VisitOrder(eps);
    VisitedNext(env, files, eps, order, k);
    if k == 0 {
      NoVisit(env.docs, eps, out);
    } else {
      TrailAfterVisits(env, files, eps, out, k - 1);
      VisitedBelow(eps, k - 1);
      var i := order[k - 1].1;
      var t := VisitAll(env, files, eps, order, k - 1).1;
      OneVisit(env, files, eps, out, Visited(order, k - 1), t, order[k - 1].0, i);
    }
  }

  /** What has been visited before a number is what has a lower one. */
  lemma VisitedIsEarlier(eps: seq<Entry>, k: nat)
    requires k < |VisitOrder(eps)|
    ensures Visited(VisitOrder(eps), k) == Earlier(eps, VisitOrder(eps)[k].0)
  {
    hide VisitOrder, FirstSeen;
    VisitedBelow(eps, k);
    VisitOrderMembers(eps);
    var order := VisitOrder(eps);
    forall i | i in Earlier(eps, order[k].0) ensures i in Visited(order, k) {
      VisitedIffFirstSeen(eps, i);
      var j :| 0 <= j < |order| && order[j].1 == i;
      assert order[j] in order && eps[i].num == Some(order[j].0);
      assert j >= k ==> PairKey(order[k]) <= PairKey(order[j]);
    }
    forall i | i in Visited(order, k) ensures i in Earlier(eps, order[k].0) {
      var j :| 0 <= j < k && order[j].1 == i;
      assert order[j] in order;
    }
  }

  lemma AllVisited(eps: seq<Entry>)
    ensures Visited(VisitOrder(eps), |VisitOrder(eps)|) == Taking(eps)
  {
    hide VisitOrder, FirstSeen;
    VisitOrderMembers(eps);
    VisitOrderIsOrder(eps);
    var order := VisitOrder(eps);
    forall i | 0 <= i < |eps| && FirstSeen(eps, i) ensures i in Visited(order, |order|) {
      VisitedIffFirstSeen(eps, i);
    }
    forall i | i in Visited(order, |order|) ensures 0 <= i < |eps| && FirstSeen(eps, i) {
      var j :| 0 <= j < |order| && order[j].1 == i;
      assert order[j] in order;
    }
  }

  // ---------------------------------------------------------------- the search

  /** The source that holds the text at or after its cursor: the preferred one if it does, else the first;
  and the first place there. */
  predicate Chosen(docs: seq<SourceDoc>, cursors: seq<nat>, last: Option<nat>, text: string, h: Hit)
    requires |cursors| == |docs|
  {
    && h.doc < |docs| && cursors[h.doc] <= h.start && OccursAt(docs[h.doc].text, text, h.start)
    && (forall k :: cursors[h.doc] <= k < h.start ==> !OccursAt(docs[h.doc].text, text, k))
    && forall d :: 0 <= d < |docs| && d != h.doc && (last == Some(d) || (last != Some(h.doc) && d < h.doc)) ==>
         forall k :: cursors[d] <= k <= |docs[d].text| ==> !OccursAt(docs[d].text, text, k)
  }

  /** The text is nowhere at or after the cursors. */
  predicate NoneAhead(docs: seq<SourceDoc>, cursors: seq<nat>, text: string)
    requires |cursors| == |docs|
  {
    forall d :: 0 <= d < |docs| ==> forall k :: cursors[d] <= k <= |docs[d].text| ==> !OccursAt(docs[d].text, text, k)
  }

  /** The first source in search order where the text is found. */
  lemma PassFinds(docs: seq<SourceDoc>, cursors: seq<nat>, last: Option<nat>, text: string)
    requires |cursors| == |docs| && (last.Some? ==> last.value < |docs|)
    ensures forall i :: 0 <= i < |SearchOrder(|docs|, last)| ==> SearchOrder(|docs|, last)[i] < |docs|
    ensures var r := FirstHit(docs, cursors, SearchOrder(|docs|, last), text);
            forall d :: 0 <= d < |docs|
                        && (r.None? || (d != r.value.doc
                                       && (last == Some(d) || (last != Some(r.value.doc) && d < r.value.doc)))) ==>
              Find(docs[d].text, text, cursors[d]).None?
  {
    hide OccursAt, Find, FirstHit, Without;
    var n := |docs|;
    var order := SearchOrder(n, last);
    assert forall i :: 0 <= i < |order| ==> order[i] in order;
    var skip := if last.Some? then last.value else n;
    var rest := Without(n, skip);
    assert forall i :: 0 <= i < |rest| ==> rest[i] in rest;
    var r := FirstHit(docs, cursors, order, text);
    if last.Some? {
      FirstHitFrom(docs, cursors, skip, rest, text);
    }
    if r.None? {
      forall d | 0 <= d < n ensures Find(docs[d].text, text, cursors[d]).None? {
        assert d in order;
      }
    } else if last != Some(r.value.doc) {
      WithoutAscends(n, skip);
      AscendingHit(docs, cursors, rest, text, r.value.doc);
      forall d | 0 <= d < r.value.doc && last != Some(d) ensures Find(docs[d].text, text, cursors[d]).None? {
        assert d in rest;
      }
    }
  }

  lemma PassChooses(docs: seq<SourceDoc>, cursors: seq<nat>, last: Option<nat>, text: string)
    requires |cursors| == |docs| && (last.Some? ==> last.value < |docs|)
    ensures forall i :: 0 <= i < |SearchOrder(|docs|, last)| ==> SearchOrder(|docs|, last)[i] < |docs|
    ensures var r := FirstHit(docs, cursors, SearchOrder(|docs|, last), text);
            if r.Some? then Chosen(docs, cursors, last, text, r.value) else NoneAhead(docs, cursors, text)
  {
    hide OccursAt, FirstHit, SearchOrder, Find;
    PassFinds(docs, cursors, last, text);
  }

  /** Entry `i` is where the search from this trail on leads: to the chosen place ahead of the cursors, if the
  text is anywhere there, else to the chosen one anywhere; nowhere if the text is empty or in no source. */
  predicate AnchoredFrom(docs: seq<SourceDoc>, t: Trail, text: string, r: Option<Range>)
    requires IsTrail(docs, t)
  {
    if text == "" || NoneAhead(docs, Zeros(|docs|), text) then r.None?
    else
      && r.Some? && IndexOf(docs, r.value.file).Some? && r.value.start >= 0 && r.value.end == r.value.start + |text|
      && Chosen(docs, if NoneAhead(docs, t.cursors, text) then Zeros(|docs|) else t.cursors, t.lastDoc, text,
                Hit(IndexOf(docs, r.value.file).value, r.value.start))
  }

  lemma VisitAnchors(env: Env, files: map<int, string>, t: Trail, num: int, e: Entry)
    requires IsTrail(env.docs, t) && e.status.None?
    ensures AnchoredFrom(env.docs, t, FileText(files, num), Visit(env, files, t, num, e).0.range)
  {
    hide Found, OccursAt, FileText, AnchoredFrom;
    SearchAnchors(env.docs, t, FileText(files, num));
  }

  lemma SearchAnchors(docs: Sources, t: Trail, text: string)
    requires IsTrail(docs, t)
    ensures var hit := if text == "" then None else Found(docs, t.cursors, text, t.lastDoc);
            AnchoredFrom(docs, t, text,
                         if hit.None? then None
                         else Some(Range(docs[hit.value.doc].rel, hit.value.start, hit.value.start + |text|)))
  {
    hide FirstHit, OccursAt, SearchOrder;
    PassChooses(docs, t.cursors, t.lastDoc, text);
    PassChooses(docs, Zeros(|docs|), t.lastDoc, text);
    ChosenIsAhead(docs, t, text);
    if text != "" && Found(docs, t.cursors, text, t.lastDoc).Some? {
      IndexOfAt(docs, Found(docs, t.cursors, text, t.lastDoc).value.doc);
    }
  }

  /** A chosen place shows that the text is somewhere ahead, and somewhere at all. */
  lemma ChosenIsAhead(docs: seq<SourceDoc>, t: Trail, text: string)
    requires IsTrail(docs, t)
    ensures forall h :: Chosen(docs, t.cursors, t.lastDoc, text, h) ==>
              !NoneAhead(docs, t.cursors, text) && !NoneAhead(docs, Zeros(|docs|), text)
    ensures forall h :: Chosen(docs, Zeros(|docs|), t.lastDoc, text, h) ==> !NoneAhead(docs, Zeros(|docs|), text)
  {
    forall h | Chosen(docs, t.cursors, t.lastDoc, text, h)
      ensures !NoneAhead(docs, t.cursors, text) && !NoneAhead(docs, Zeros(|docs|), text)
    {
      assert OccursAt(docs[h.doc].text, text, h.start) && h.start <= |docs[h.doc].text|;
    }
    forall h | Chosen(docs, Zeros(|docs|), t.lastDoc, text, h) ensures !NoneAhead(docs, Zeros(|docs|), text) {
      assert OccursAt(docs[h.doc].text, text, h.start) && h.start <= |docs[h.doc].text|;
    }
  }

  // ---------------------------------------------------------------- the text searched for

  /** The text searched for is the file's lines whatever endings it was saved with; nothing for a missing file
  or a negative number. */
  lemma FileTextIs(files: map<int, string>, num: int, lines: seq<(string, Ending)>, rest: string)
    requires AreLines(lines) && '\r' !in rest
    requires lines != [] && lines[|lines| - 1].1.CR? ==> rest == "" || rest[0] != '\n'
    ensures num !in files || num < 0 ==> FileText(files, num) == ""
    ensures num in files && num >= 0 && files[num] == Text(lines, rest) ==>
              FileText(files, num) == Text(WithLF(lines), rest)
  {
    EndingsNormalize(lines, rest);
  }

  // ---------------------------------------------------------------- the whole backfill

  /** Every entry that had no status and takes part is anchored from where the entries of lower number, as
  backfill leaves them, have used up the sources. */
  lemma AnchoredBehindEarlier(env: Env, p: Project, i: nat)
    requires i < |Listed(p.episodes, p.files)| && FirstSeen(Listed(p.episodes, p.files), i)
    requires Listed(p.episodes, p.files)[i].status.None?
    ensures var eps, out := Listed(p.episodes, p.files), Backfilled(env, p).episodes;
            var num := eps[i].num.value;
            && |eps| == |out|
            && exists t :: IsTrailOf(env.docs, eps, out, Earlier(eps, num), t)
                           && AnchoredFrom(env.docs, t, FileText(p.files, num), out[i].range)
  {
    hide Listed, FirstSeen, VisitOrder, Visit, IsTrailOf, AnchoredFrom, FileText, DeriveCursor;
    var eps := Listed(p.episodes, p.files);
    var order := VisitOrder(eps);
    VisitOrderIsOrder(eps);
    VisitedIffFirstSeen(eps, i);
    var k :| 0 <= k < |order| && order[k].1 == i;
    assert eps[order[k].1].status.None?;
    VisitAllPointwise(env, p.files, eps, order, |order|);
    var out := Backfilled(env, p).episodes;
    TrailAfterVisits(env, p.files, eps, out, k);
    VisitedIsEarlier(eps, k);
    var t := VisitAll(env, p.files, eps, order, k).1;
    VisitAnchors(env, p.files, t, order[k].0, eps[i]);
  }

  lemma OneCursor(docs: seq<SourceDoc>, eps: seq<Entry>, out: seq<Entry>, among: set<int>, d: nat, a: nat, b: nat)
    requires |eps| == |out| && forall j :: j in among ==> 0 <= j < |eps|
    requires IsCursor(docs, eps, out, among, d, a) && IsCursor(docs, eps, out, among, d, b)
    ensures a == b
  {
    hide Counts;
  }

  /** In particular: whenever its text occurs at or behind the cursor of some source, such an entry lies at the
  first such place of a source, never on top of what earlier entries, recorded or recovered, have used up. */
  lemma AnchoredAhead(env: Env, p: Project, i: nat, cursors: seq<nat>, d: nat, k: nat)
    requires i < |Listed(p.episodes, p.files)| && FirstSeen(Listed(p.episodes, p.files), i)
    requires Listed(p.episodes, p.files)[i].status.None?
    requires |Backfilled(env, p).episodes| == |Listed(p.episodes, p.files)| && |cursors| == |env.docs|
    requires var eps := Listed(p.episodes, p.files);
             forall e :: 0 <= e < |env.docs| ==>
               IsCursor(env.docs, eps, Backfilled(env, p).episodes, Earlier(eps, eps[i].num.value), e, cursors[e])
    requires var text := FileText(p.files, Listed(p.episodes, p.files)[i].num.value);
             text != "" && d < |env.docs| && cursors[d] <= k && OccursAt(env.docs[d].text, text, k)
    ensures var text := FileText(p.files, Listed(p.episodes, p.files)[i].num.value);
            var r := Backfilled(env, p).episodes[i].range;
            && r.Some? && IndexOf(env.docs, r.value.file).Some? && r.value.end == r.value.start + |text|
            && var h := IndexOf(env.docs, r.value.file).value;
               && h < |env.docs| && cursors[h] <= r.value.start && OccursAt(env.docs[h].text, text, r.value.start)
               && forall j :: cursors[h] <= j < r.value.start ==> !OccursAt(env.docs[h].text, text, j)
  {
    var eps, out := Listed(p.episodes, p.files), Backfilled(env, p).episodes;
    var num := eps[i].num.value;
    hide Listed, Backfilled, IsCursor, IsLastDoc, IsLastEnd, FirstSeen, FileText, IndexOf, AnchoredFrom, OccursAt;
    AnchoredBehindEarlier(env, p, i);
    var t :| IsTrailOf(env.docs, eps, out, Earlier(eps, num), t)
             && AnchoredFrom(env.docs, t, FileText(p.files, num), out[i].range);
    forall e | 0 <= e < |env.docs| ensures t.cursors[e] == cursors[e] {
      OneCursor(env.docs, eps, out, Earlier(eps, num), e, t.cursors[e], cursors[e]);
    }
    LedAhead(env.docs, t, FileText(p.files, num), out[i].range, cursors, d, k);
  }

  lemma LedAhead(docs: seq<SourceDoc>, t: Trail, text: string, r: Option<Range>, cursors: seq<nat>, d: nat, k: nat)
    requires IsTrail(docs, t) && AnchoredFrom(docs, t, text, r)
    requires |cursors| == |docs| && forall e :: 0 <= e < |docs| ==> t.cursors[e] == cursors[e]
    requires text != "" && d < |docs| && cursors[d] <= k && OccursAt(docs[d].text, text, k)
    ensures && r.Some? && IndexOf(docs, r.value.file).Some? && r.value.end == r.value.start + |text|
            && var h := IndexOf(docs, r.value.file).value;
               && h < |docs| && cursors[h] <= r.value.start && OccursAt(docs[h].text, text, r.value.start)
               && forall j :: cursors[h] <= j < r.value.start ==> !OccursAt(docs[h].text, text, j)
  {
    assert t.cursors == cursors;
    assert k <= |docs[d].text| && Zeros(|docs|)[d] <= k;
    assert !NoneAhead(docs, t.cursors, text) && !NoneAhead(docs, Zeros(|docs|), text);
  }

  /** The planning cursor, when there was none: where the remaining text is found behind all entries, unless
  that is before the last one's end in its own source; else the last one's end. */
  lemma CursorBehindAll(env: Env, p: Project)
    requires p.cursor.None?
    ensures var eps, r := Listed(p.episodes, p.files), Backfilled(env, p);
            var rest := if p.remaining.Some? then Normalize(p.remaining.value) else "";
            && |eps| == |r.episodes|
            && exists t, found: Option<Range> ::
                 && IsTrailOf(env.docs, eps, r.episodes, Taking(eps), t)
                 && AnchoredFrom(env.docs, t, rest, found)
                 && r.cursor == if found.Some? && !(t.lastEnd.Some? && found.value.file == t.lastEnd.value.file
                                                    && found.value.start < t.lastEnd.value.offset)
                                then Some(Pos(found.value.file, found.value.start)) else t.lastEnd
  {
    hide Listed, FirstSeen, VisitOrder, Visit, IsTrailOf, AnchoredFrom, Found;
    var eps := Listed(p.episodes, p.files);
    var order := VisitOrder(eps);
    VisitOrderIsOrder(eps);
    VisitAllPointwise(env, p.files, eps, order, |order|);
    TrailAfterVisits(env, p.files, eps, Backfilled(env, p).episodes, |order|);
    AllVisited(eps);
    var t := VisitAll(env, p.files, eps, order, |order|).1;
    var rest := if p.remaining.Some? then Normalize(p.remaining.value) else "";
    SearchAnchors(env.docs, t, rest);
    var hit := if rest == "" then None else Found(env.docs, t.cursors, rest, t.lastDoc);
    var found := if hit.None? then None
                 else Some(Range(env.docs[hit.value.doc].rel, hit.value.start, hit.value.start + |rest|));
    assert AnchoredFrom(env.docs, t, rest, found);
  }
}
