/** What one backfill promises about every entry, and that a second one changes nothing. */
module BackfillProperties {
  import opened Options
  import opened SourceText
  import opened EpisodeLedger

  /** The outcome of the visit to the `j`-th position of `order`. */
  function VisitedEntry(env: Env, files: map<int, string>, eps: seq<Entry>, order: seq<(int, nat)>, j: nat): Entry
    requires IsOrder(eps, order) && j < |order|
  {
    Visit(env, files, VisitAll(env, files, eps, order, j).1, order[j].0, eps[order[j].1]).0
  }

  lemma VisitAllStep(env: Env, files: map<int, string>, eps: seq<Entry>, order: seq<(int, nat)>, k: nat)
    requires IsOrder(eps, order) && 0 < k <= |order|
    ensures VisitAll(env, files, eps, order, k).0
         == VisitAll(env, files, eps, order, k - 1).0[order[k - 1].1 := VisitedEntry(env, files, eps, order, k - 1)]
  {
  }

  /** Each visited entry is the outcome of its own visit; the others are untouched. */
  lemma {:induction false} VisitAllPointwise(env: Env, files: map<int, string>, eps: seq<Entry>,
                                               order: seq<(int, nat)>, k: nat)
    requires IsOrder(eps, order) && k <= |order|
    ensures var r := VisitAll(env, files, eps, order, k).0;
            && (forall j :: 0 <= j < k ==> r[order[j].1] == VisitedEntry(env, files, eps, order, j))
            && (forall i :: 0 <= i < |eps| && (forall j :: 0 <= j < k ==> order[j].1 != i) ==> r[i] == eps[i])
  {
    hide VisitedEntry, Visit;
    if k > 0 {
      VisitAllPointwise(env, files, eps, order, k - 1);
      VisitAllStep(env, files, eps, order, k);
      forall j | 0 <= j < k - 1 ensures order[j].1 != order[k - 1].1 {
        assert order[j] != order[k - 1];
      }
    }
  }

  /** Positions in the visit order are exactly the first-seen entries. */
  lemma VisitedIffFirstSeen(eps: seq<Entry>, i: int)
    requires 0 <= i < |eps|
    ensures FirstSeen(eps, i) <==> exists j :: 0 <= j < |VisitOrder(eps)| && VisitOrder(eps)[j].1 == i
  {
    VisitOrderMembers(eps);
    var order := VisitOrder(eps);
    if FirstSeen(eps, i) {
      var p := (eps[i].num.value, i as nat);
      assert p in order;
    }
    if j :| 0 <= j < |order| && order[j].1 == i {
      assert order[j] in order;
    }
  }

  /** The range recorded for a newly anchored entry cuts exactly the file's text out of its source. */
  predicate CutsOut(docs: seq<SourceDoc>, r: Range, text: string) {
    && IndexOf(docs, r.file).Some?
    && 0 <= r.start < r.end <= |docs[IndexOf(docs, r.file).value].text|
    && docs[IndexOf(docs, r.file).value].text[r.start..r.end] == text
  }

  lemma VisitOutcome(env: Env, files: map<int, string>, t: Trail, num: int, e: Entry)
    requires IsTrail(env.docs, t) && e.status.None?
    ensures var e' := Visit(env, files, t, num, e).0;
            var text := FileText(files, num);
            && e'.num == e.num && e'.title == e.title && e'.hook == e.hook
            && (e'.status == Some(Unanchored)
               <==> text == "" || forall d :: 0 <= d < |env.docs| ==> !Occurs(env.docs[d].text, text))
            && (if e'.status == Some(Unanchored) then e'.range == None
                else && e'.range.Some? && CutsOut(env.docs, e'.range.value, text)
                     && e'.status == Some(if num in env.downstream then Consumed else Planned))
  {
    var text := FileText(files, num);
    if text != "" {
      MissingMeansNowhere(env.docs, t.cursors, text, t.lastDoc);
      var hit := AnchorFor(env, t, text);
      if hit.Some? {
        IndexOfAt(env.docs, hit.value.doc);
        assert env.docs[hit.value.doc].text[hit.value.start..hit.value.start + |text|] == text;
        assert Occurs(env.docs[hit.value.doc].text, text);
      }
    }
  }

  /** What backfill does to entry `i` of the list it works on. */
  predicate Backfills(env: Env, files: map<int, string>, e: Entry, first: bool, e': Entry) {
    if e.status.Some? || !first then e' == e
    else
      && e.num.Some?
      && var text := FileText(files, e.num.value);
      && e'.num == e.num && e'.title == e.title && e'.hook == e.hook
      && (if text == "" || forall d :: 0 <= d < |env.docs| ==> forall k :: 0 <= k <= |env.docs[d].text| ==>
         !OccursAt(env.docs[d].text, text, k)
          then e'.status == Some(Unanchored) && e'.range == None
          else && e'.range.Some? && CutsOut(env.docs, e'.range.value, text)
               && e'.status == Some(if e.num.value in env.downstream then Consumed else Planned))
  }

  /** Every entry with a status stays as it is; every other first-seen numbered entry gets one:
  anchored to a range that cuts out exactly its file's text, unless that text is empty or occurs
  in no source; entries are only added, for derived files that had none. */
  lemma BackfillEveryEntry(env: Env, p: Project)
    ensures var eps := Listed(p.episodes, p.files);
            var r := Backfilled(env, p).episodes;
            && |r| == |eps|
            && (forall i :: 0 <= i < |eps| ==> Backfills(env, p.files, eps[i], FirstSeen(eps, i), r[i]))
            && multiset(eps) == multiset(p.episodes) + multiset(NewEntries(SortedSet(Orphans(p.episodes, p.files))))
  {
    hide Backfills, FirstSeen, NewEntries, SortedSet, Orphans, Sort;
    var eps := Listed(p.episodes, p.files);
    SortSorted(p.episodes + NewEntries(SortedSet(Orphans(p.episodes, p.files))), NumKey);
    forall i | 0 <= i < |eps|
      ensures Backfills(env, p.files, eps[i], FirstSeen(eps, i), Backfilled(env, p).episodes[i])
    {
      BackfillOneEntry(env, p, i);
    }
  }

  lemma BackfillOneEntry(env: Env, p: Project, i: nat)
    requires i < |Listed(p.episodes, p.files)|
    ensures var eps := Listed(p.episodes, p.files);
            Backfills(env, p.files, eps[i], FirstSeen(eps, i), Backfilled(env, p).episodes[i])
  {
    hide Listed, FirstSeen, Backfills, VisitedEntry, VisitOrder, VisitAll, DeriveCursor;
    var eps := Listed(p.episodes, p.files);
    var order := VisitOrder(eps);
    VisitOrderIsOrder(eps);
    VisitedIffFirstSeen(eps, i);
    KeptBackfills(env, p.files, eps[i], FirstSeen(eps, i));
    if !(!Pending(eps, order) && p.cursor.Some?) {
      VisitAllPointwise(env, p.files, eps, order, |order|);
      if FirstSeen(eps, i) {
        var j :| 0 <= j < |order| && order[j].1 == i;
        VisitedBackfills(env, p.files, eps, order, j);
      }
    } else if FirstSeen(eps, i) {
      var j :| 0 <= j < |order| && order[j].1 == i;
      assert eps[order[j].1].status.Some?;
    }
  }

  lemma KeptBackfills(env: Env, files: map<int, string>, e: Entry, first: bool)
    ensures e.status.Some? || !first ==> Backfills(env, files, e, first, e)
  {
  }

  lemma VisitedBackfills(env: Env, files: map<int, string>, eps: seq<Entry>, order: seq<(int, nat)>, j: nat)
    requires IsOrder(eps, order) && j < |order|
    ensures Backfills(env, files, eps[order[j].1], true, VisitedEntry(env, files, eps, order, j))
  {
    hide VisitAll, CutsOut, IndexOf, Occurs, FileText;
    var e := eps[order[j].1];
    if e.status.None? {
      VisitOutcome(env, files, VisitAll(env, files, eps, order, j).1, order[j].0, e);
      OccursIsBounded(env.docs, FileText(files, order[j].0));
    }
  }

  /** A cursor that is there, the derived files and the remaining text are left alone. */
  lemma BackfillKeepsRest(env: Env, p: Project)
    ensures var r := Backfilled(env, p);
            r.files == p.files && r.remaining == p.remaining && (p.cursor.Some? ==> r.cursor == p.cursor)
  {
    hide Listed, VisitOrder, VisitAll;
  }

  /** The entries backfill works on are the given ones and, for every file with a number of its own, one with
  nothing but that number. */
  lemma ListedAre(eps: seq<Entry>, files: map<int, string>)
    ensures forall e :: e in Listed(eps, files) <==>
              || e in eps
              || (e.num.Some? && e.title == e.hook == "" && e.range.None? && e.status.None?
                  && e.num.value in files && e.num.value >= 0 && forall f :: f in eps ==> f.num != e.num)
  {
    hide SortIfPossible, SortedSet, Orphans;
    var nums := SortedSet(Orphans(eps, files));
    var all := eps + NewEntries(nums);
    SortIfPossibleMembers(all);
    OrphansAre(eps, files);
    forall e ensures e in NewEntries(nums) <==>
                     e.num.Some? && e.num.value in nums && e.title == e.hook == "" && e.range.None? && e.status.None? {
      if e.num.Some? && e.num.value in nums {
        var i :| 0 <= i < |nums| && nums[i] == e.num.value;
        assert NewEntries(nums)[i] == NewEntry(nums[i]);
      }
    }
  }

  lemma OrphansAre(eps: seq<Entry>, files: map<int, string>)
    ensures forall n :: n in Orphans(eps, files) <==> n in files && n >= 0 && forall f :: f in eps ==> f.num != Some(n)
  {
    forall n ensures n in Numbers(eps) <==> exists f :: f in eps && f.num == Some(n) {
      if f :| f in eps && f.num == Some(n) {
        var i :| 0 <= i < |eps| && eps[i] == f;
      }
    }
  }

  lemma OccursIsBounded(docs: seq<SourceDoc>, text: string)
    ensures (forall d :: 0 <= d < |docs| ==> !Occurs(docs[d].text, text))
       <==> (forall d :: 0 <= d < |docs| ==> forall k :: 0 <= k <= |docs[d].text| ==> !OccursAt(docs[d].text, text, k))
  {
  }

  // ---------------------------------------------------------------- idempotence

  predicate SameNumbers(a: seq<Entry>, b: seq<Entry>) {
    |a| == |b| && forall i :: 0 <= i < |a| ==> a[i].num == b[i].num
  }

  lemma {:induction false} SameFirstSeen(a: seq<Entry>, b: seq<Entry>, n: nat)
    requires SameNumbers(a, b) && n <= |a|
    ensures FirstSeenPairs(a, n) == FirstSeenPairs(b, n)
  {
    if n > 0 {
      SameFirstSeen(a, b, n - 1);
      assert FirstSeen(a, n - 1) <==> FirstSeen(b, n - 1);
    }
  }

  lemma ListedHasNumber(eps: seq<Entry>, files: map<int, string>, n: int) returns (k: nat)
    requires n in Numbers(eps) || n in Orphans(eps, files)
    ensures k < |Listed(eps, files)| && Listed(eps, files)[k].num == Some(n)
  {
    hide SortIfPossible, Sort;
    var all := eps + NewEntries(SortedSet(Orphans(eps, files)));
    var i := UnsortedHasNumber(eps, files, n);
    SortIfPossibleMembers(all);
    assert all[i] in Listed(eps, files);
    k :| 0 <= k < |Listed(eps, files)| && Listed(eps, files)[k] == all[i];
  }

  lemma UnsortedHasNumber(eps: seq<Entry>, files: map<int, string>, n: int) returns (i: nat)
    requires n in Numbers(eps) || n in Orphans(eps, files)
    ensures var all := eps + NewEntries(SortedSet(Orphans(eps, files)));
            i < |all| && all[i].num == Some(n)
  {
    hide Orphans, SortedSet;
    var added := SortedSet(Orphans(eps, files));
    if n in Numbers(eps) {
      i :| 0 <= i < |eps| && eps[i].num == Some(n);
    } else {
      var j :| 0 <= j < |added| && added[j] == n;
      i := |eps| + j;
      assert NewEntries(added)[j] == NewEntry(n);
    }
  }

  /** Every derived file has an entry once the entries are listed. */
  lemma ListedCoversFiles(eps: seq<Entry>, files: map<int, string>, eps': seq<Entry>)
    requires SameNumbers(eps', Listed(eps, files))
    ensures Orphans(eps', files) == {}
  {
    forall n | n in files.Keys && n >= 0 ensures n in Numbers(eps') {
      var k := ListedHasNumber(eps, files, n);
      assert eps'[k].num == Some(n);
    }
  }

  lemma ListedStaysSorted(eps: seq<Entry>, files: map<int, string>, eps': seq<Entry>)
    requires SameNumbers(eps', Listed(eps, files))
    ensures SortIfPossible(eps') == eps'
  {
    if AllNumbered(eps') {
      var all := eps + NewEntries(SortedSet(Orphans(eps, files)));
      SortSorted(all, NumKey);
      assert forall i :: 0 <= i < |eps'| ==> NumKey(eps'[i]) == NumKey(Listed(eps, files)[i]);
      assert Sorted(eps', NumKey);
      SortFixes(eps', NumKey);
    }
  }

  /** Backfilled entries are already listed: no derived file is without one, and they are in order. */
  lemma ListedAgain(env: Env, p: Project)
    ensures var p1 := Backfilled(env, p);
            && Listed(p1.episodes, p1.files) == p1.episodes
            && VisitOrder(p1.episodes) == VisitOrder(Listed(p.episodes, p.files))
            && SameNumbers(p1.episodes, Listed(p.episodes, p.files))
  {
    var p1 := Backfilled(env, p);
    var eps := Listed(p.episodes, p.files);
    BackfillEveryEntry(env, p);
    assert p1.files == p.files;
    assert SameNumbers(p1.episodes, eps);
    hide Backfilled, Listed;
    ListedCoversFiles(p.episodes, p.files, p1.episodes);
    ListedStaysSorted(p.episodes, p.files, p1.episodes);
    SameFirstSeen(p1.episodes, eps, |eps|);
    NothingToAdd(p1.episodes, p1.files);
  }

  lemma NothingToAdd(eps: seq<Entry>, files: map<int, string>)
    requires Orphans(eps, files) == {} && SortIfPossible(eps) == eps
    ensures Listed(eps, files) == eps
  {
    assert eps + NewEntries(SortedSet(Orphans(eps, files))) == eps;
  }

  /** As long as no position has been recorded, every visited entry ends without a range. */
  lemma {:induction false} NoEndNoRange(env: Env, files: map<int, string>, eps: seq<Entry>, order: seq<(int, nat)>,
                                        k: nat)
    requires IsOrder(eps, order) && k <= |order|
    requires VisitAll(env, files, eps, order, k).1.lastEnd.None?
    ensures forall j :: 0 <= j < k ==> VisitAll(env, files, eps, order, k).0[order[j].1].range.None?
  {
    if k > 0 {
      NoEndNoRange(env, files, eps, order, k - 1);
    }
  }

  lemma {:induction false} NoRangeNoEnd(env: Env, files: map<int, string>, eps: seq<Entry>, order: seq<(int, nat)>,
                                        k: nat)
    requires IsOrder(eps, order) && k <= |order|
    requires forall j :: 0 <= j < k ==> eps[order[j].1].status.Some?
    ensures VisitAll(env, files, eps, order, k).0 == eps
    ensures (forall j :: 0 <= j < k ==> eps[order[j].1].range.None?) ==>
            VisitAll(env, files, eps, order, k).1.lastEnd.None?
  {
    if k > 0 {
      NoRangeNoEnd(env, files, eps, order, k - 1);
      assert eps[order[k - 1].1 := eps[order[k - 1].1]] == eps;
    }
  }

  /** Without a recorded position the derived cursor depends on the remaining text alone. */
  lemma CursorWithoutEnd(docs: seq<SourceDoc>, t: Trail, t': Trail, remaining: Option<string>)
    requires IsTrail(docs, t) && IsTrail(docs, t') && t'.lastEnd.None?
    requires DeriveCursor(docs, t, remaining).None?
    ensures DeriveCursor(docs, t', remaining).None?
  {
    var rest := if remaining.Some? then Normalize(remaining.value) else "";
    if rest != "" {
      MissingMeansNowhere(docs, t.cursors, rest, t.lastDoc);
      MissingMeansNowhere(docs, t'.cursors, rest, t'.lastDoc);
    }
  }

  lemma NothingPending(env: Env, p: Project)
    ensures var p1 := Backfilled(env, p);
            var order := VisitOrder(Listed(p.episodes, p.files));
            && IsOrder(p1.episodes, order)
            && forall j :: 0 <= j < |order| ==> p1.episodes[order[j].1].status.Some?
  {
    var eps := Listed(p.episodes, p.files);
    var p1 := Backfilled(env, p);
    var order := VisitOrder(eps);
    BackfillEveryEntry(env, p);
    VisitOrderIsOrder(eps);
    hide Backfilled, Listed, VisitOrder;
    forall j | 0 <= j < |order| ensures p1.episodes[order[j].1].status.Some? {
      VisitedIffFirstSeen(eps, order[j].1);
    }
  }

  /** A backfill that finds no cursor finds none the second time either. */
  lemma StillNoCursor(env: Env, p: Project)
    requires Backfilled(env, p).cursor.None?
    requires IsOrder(Backfilled(env, p).episodes, VisitOrder(Listed(p.episodes, p.files)))
    requires var order := VisitOrder(Listed(p.episodes, p.files));
             forall j :: 0 <= j < |order| ==> Backfilled(env, p).episodes[order[j].1].status.Some?
    ensures var eps1 := Backfilled(env, p).episodes;
            var order := VisitOrder(Listed(p.episodes, p.files));
            var r := VisitAll(env, p.files, eps1, order, |order|);
            r.0 == eps1 && DeriveCursor(env.docs, r.1, p.remaining).None?
  {
    var eps := Listed(p.episodes, p.files);
    var order := VisitOrder(eps);
    var p1 := Backfilled(env, p);
    VisitOrderIsOrder(eps);
    var r := VisitAll(env, p.files, eps, order, |order|);
    assert r.0 == p1.episodes && DeriveCursor(env.docs, r.1, p.remaining).None?;
    hide Backfilled, Listed, VisitOrder, VisitAll;
    NoEndNoRange(env, p.files, eps, order, |order|);
    NoRangeNoEnd(env, p.files, p1.episodes, order, |order|);
    CursorWithoutEnd(env.docs, r.1, VisitAll(env, p.files, p1.episodes, order, |order|).1, p.remaining);
  }

  /** Running backfill again on the same files changes nothing. */
  lemma BackfillIdempotent(env: Env, p: Project)
    ensures Backfilled(env, Backfilled(env, p)) == Backfilled(env, p)
  {
    var p1 := Backfilled(env, p);
    ListedAgain(env, p);
    NothingPending(env, p);
    assert p1.files == p.files && p1.remaining == p.remaining;
    if p1.cursor.None? {
      StillNoCursor(env, p);
    }
    hide VisitOrder, Listed, VisitAll, DeriveCursor;
  }
}
