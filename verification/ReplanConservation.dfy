/** What a committed re-plan conserves on any ledger it accepts, not only on a consistent one. */
module ReplanConservation {
  import opened Options
  import opened AnchorResolution
  import opened EpisodeLedger
  import opened EpisodePlanner
  import opened Tiling
  import opened PlannerInvariant
  import opened Replanning

  // ---------------------------------------------------------------- filters commute with the sort

  lemma AtLeastAppend(s: seq<Entry>, e: Entry, from: int)
    ensures AtLeast(s + [e], from) == AtLeast(s, from) + if e.num.Some? && e.num.value >= from then [e] else []
  {
    assert (s + [e])[..|s|] == s;
  }

  lemma {:induction false} AtLeastInsert(s: seq<Entry>, e: Entry, from: int)
    requires Sorted(s, NumKey) && AllNumbered(s) && e.num.Some?
    ensures AtLeast(Insert(s, e, NumKey), from)
         == if NumKey(e) >= from then Insert(AtLeast(s, from), e, NumKey) else AtLeast(s, from)
  {
    hide AtLeast, Insert;
    NoneAtLeast(from);
    if s == [] || NumKey(s[|s| - 1]) <= NumKey(e) {
      AtLeastAppend(s, e, from);
      AtLeastBounded(s, from, NumKey(e));
      InsertAtEnd(s, e, NumKey);
      InsertAtEnd(AtLeast(s, from), e, NumKey);
    } else {
      var init, last := s[..|s| - 1], s[|s| - 1];
      assert s == init + [last];
      AtLeastInsert(init, e, from);
      AtLeastAppend(init, last, from);
      AtLeastAppend(Insert(init, e, NumKey), last, from);
      InsertPast(init, last, e);
      InsertPast(AtLeast(init, from), last, e);
    }
  }

  lemma NoneAtLeast(from: int)
    ensures AtLeast([], from) == []
  {
  }

  lemma InsertPast(s: seq<Entry>, last: Entry, e: Entry)
    requires NumKey(last) > NumKey(e)
    ensures Insert(s + [last], e, NumKey) == Insert(s, e, NumKey) + [last]
  {
    assert (s + [last])[..|s|] == s;
  }

  lemma AtLeastBounded(s: seq<Entry>, from: int, bound: int)
    requires forall i :: 0 <= i < |s| ==> NumKey(s[i]) <= bound
    ensures forall i :: 0 <= i < |AtLeast(s, from)| ==> NumKey(AtLeast(s, from)[i]) <= bound
  {
    AtLeastMembers(s, from);
    forall i | 0 <= i < |AtLeast(s, from)| ensures NumKey(AtLeast(s, from)[i]) <= bound {
      assert AtLeast(s, from)[i] in s;
    }
  }

  lemma SortNumbered(s: seq<Entry>)
    requires AllNumbered(s)
    ensures AllNumbered(Sort(s, NumKey))
  {
    SortSorted(s, NumKey);
    var sorted := Sort(s, NumKey);
    forall i | 0 <= i < |sorted| ensures sorted[i].num.Some? {
      assert sorted[i] in sorted;
      var k :| 0 <= k < |s| && s[k] == sorted[i];
    }
  }

  lemma {:induction false} AtLeastSort(s: seq<Entry>, from: int)
    requires AllNumbered(s)
    ensures AtLeast(Sort(s, NumKey), from) == Sort(AtLeast(s, from), NumKey)
  {
    hide Insert, Sorted;
    if s != [] {
      var init, last := s[..|s| - 1], s[|s| - 1];
      var before := AtLeast(init, from);
      AtLeastSort(init, from);
      SortSorted(init, NumKey);
      SortNumbered(init);
      AtLeastInsert(Sort(init, NumKey), last, from);
      assert (before + [last])[..|before|] == before;
      assert NumKey(last) < from ==> AtLeast(s, from) == before;
    }
  }

  /** The entries with one number, in list order. */
  function OnlyNum(eps: seq<Entry>, m: int): seq<Entry> {
    if eps == [] then []
    else
      var last := eps[|eps| - 1];
      OnlyNum(eps[..|eps| - 1], m) + if last.num == Some(m) then [last] else []
  }

  lemma OnlyNumAppend(s: seq<Entry>, e: Entry, m: int)
    ensures OnlyNum(s + [e], m) == OnlyNum(s, m) + if e.num == Some(m) then [e] else []
  {
    assert (s + [e])[..|s|] == s;
  }

  lemma {:induction false} OnlyNumInsert(s: seq<Entry>, e: Entry, m: int)
    requires e.num.Some? && forall i :: 0 <= i < |s| ==> s[i].num.Some?
    ensures OnlyNum(Insert(s, e, NumKey), m) == OnlyNum(s, m) + if e.num == Some(m) then [e] else []
  {
    if s == [] || NumKey(s[|s| - 1]) <= NumKey(e) {
      OnlyNumAppend(s, e, m);
    } else {
      OnlyNumInsert(s[..|s| - 1], e, m);
      OnlyNumAppend(Insert(s[..|s| - 1], e, NumKey), s[|s| - 1], m);
    }
  }

  /** Sorting is stable: entries with the same number keep their order. */
  lemma {:induction false} OnlyNumAffected(eps: seq<Entry>, from: int, m: int)
    requires m >= from
    ensures OnlyNum(Affected(eps, from), m) == OnlyNum(eps, m)
  {
    if eps != [] {
      var init, last := eps[..|eps| - 1], eps[|eps| - 1];
      OnlyNumAffected(init, from, m);
      if last.num.Some? && last.num.value >= from {
        var before := AtLeast(init, from);
        assert (before + [last])[..|before|] == before;
        AffectedMembers(init, from);
        forall i | 0 <= i < |Affected(init, from)| ensures Affected(init, from)[i].num.Some? {
          assert Affected(init, from)[i] in Affected(init, from);
        }
        OnlyNumInsert(Affected(init, from), last, m);
      } else {
        assert AtLeast(eps, from) == AtLeast(init, from);
      }
    }
  }

  lemma {:induction false} OnlyNumMembers(eps: seq<Entry>, m: int)
    ensures forall e :: e in OnlyNum(eps, m) <==> e in eps && e.num == Some(m)
  {
    if eps != [] {
      OnlyNumMembers(eps[..|eps| - 1], m);
      assert eps == eps[..|eps| - 1] + [eps[|eps| - 1]];
    }
  }

  // ---------------------------------------------------------------- the new affected entries

  lemma ReplanEntriesNumbers(affected: seq<Entry>, job: ReplanJob)
    ensures var added := ReplanEntries(affected, job);
            && |added| == |job.planned|
            && (forall i :: 0 <= i < |added| ==>
               added[i].num == Some(job.from + i) && added[i].range == Some(job.planned[i].range))
            && Sorted(added, NumKey)
            && HaveRanges(added) && RangesOf(added) == PlannedRanges(job.planned)
  {
  }

  /** After the commit the entries from `from` on are exactly the new ones. */
  lemma NewAffected(p1: Project, job: ReplanJob)
    ensures var affected := Affected(p1.episodes, job.from);
            Affected(Replaced(p1, affected, job).episodes, job.from) == ReplanEntries(affected, job)
  {
    var affected := Affected(p1.episodes, job.from);
    var kept := Kept(p1.episodes, Numbers(affected));
    var added := ReplanEntries(affected, job);
    hide Affected, Kept, ReplanEntries, Numbers, AtLeast, Sort;
    ReplanEntriesNumbers(affected, job);
    KeptBelow(p1.episodes, job.from, kept);
    AtLeastConcat(kept, added, job.from);
    AtLeastAll(added, job.from);
    assert AtLeast(kept + added, job.from) == added;
    SortFixes(added, NumKey);
    if AllNumbered(kept + added) {
      AtLeastSort(kept + added, job.from);
    }
    var eps := Replaced(p1, affected, job).episodes;
    assert AtLeast(eps, job.from) == added;
    AffectedIs(eps, job.from);
  }

  /** Nothing from `from` on is kept. */
  lemma KeptBelow(eps: seq<Entry>, from: int, kept: seq<Entry>)
    requires kept == Kept(eps, Numbers(Affected(eps, from)))
    ensures AtLeast(kept, from) == []
  {
    var affected := Affected(eps, from);
    KeptMembers(eps, Numbers(affected));
    AffectedMembers(eps, from);
    assert forall e :: e in affected ==> e.num.Some? && e.num.value in Numbers(affected);
    forall i | 0 <= i < |kept| ensures kept[i].num.None? || kept[i].num.value < from {
      assert kept[i] in kept;
    }
    AtLeastNone(kept, from);
  }

  // ---------------------------------------------------------------- conservation

  /** Replan conserves text: whatever the ledger, the number of episodes before and after, and the
  source files they span, the entries from `from` on hold the same concatenated text; the others
  and the cursor stay. */
  lemma ReplanConservesText(env: Env, p: Project, job: ReplanJob)
    requires ReplanJobFrom(env.docs, job) && CommittedReplan(env, p, job).Committed?
    ensures var before := Affected(Backfilled(env, p).episodes, job.from);
            var q := CommittedReplan(env, p, job).project;
            var after := Affected(q.episodes, job.from);
            && HaveRanges(before) && HaveRanges(after)
            && TextsOf(env.docs, RangesOf(before)) == TextsOf(env.docs, RangesOf(after))
            && q.cursor == Backfilled(env, p).cursor
    ensures forall e: Entry :: e.num.None? || e.num.value < job.from ==>
              (e in CommittedReplan(env, p, job).project.episodes <==> e in Backfilled(env, p).episodes)
  {
    hide Backfilled, Affected, ReplanEntries, Partition, Scope, TextsOf, Writes, SortIfPossible, Kept, AllGood, Numbers;
    var p1 := Backfilled(env, p);
    var affected := Affected(p1.episodes, job.from);
    var q := CommittedReplan(env, p, job).project;
    assert q.episodes == Replaced(p1, affected, job).episodes;
    NewAffected(p1, job);
    ReplanEntriesNumbers(affected, job);
    CommitPartitions(env.docs, affected, job);
    RepartitionText(env.docs, Scope(affected, job.from).value, RangesOf(affected), PlannedRanges(job.planned));
    OthersStay(p1, job);
  }

  lemma AffectedNumbers(eps: seq<Entry>, from: int)
    ensures forall n :: n in Numbers(Affected(eps, from)) ==> n >= from
  {
    hide Affected;
    var affected := Affected(eps, from);
    AffectedMembers(eps, from);
    forall n | n in Numbers(affected) ensures n >= from {
      var i :| 0 <= i < |affected| && affected[i].num == Some(n);
      assert affected[i] in affected;
    }
  }

  lemma OthersStay(p1: Project, job: ReplanJob)
    ensures forall e: Entry :: e.num.None? || e.num.value < job.from ==>
              (e in Replaced(p1, Affected(p1.episodes, job.from), job).episodes <==> e in p1.episodes)
  {
    hide Affected, Kept, ReplanEntries, Numbers, SortIfPossible;
    var affected := Affected(p1.episodes, job.from);
    var kept, added := Kept(p1.episodes, Numbers(affected)), ReplanEntries(affected, job);
    AffectedNumbers(p1.episodes, job.from);
    KeptMembers(p1.episodes, Numbers(affected));
    ReplanEntriesNumbers(affected, job);
    SortIfPossibleMembers(kept + added);
    assert forall e :: e in kept + added <==> e in kept || e in added;
  }

  // ---------------------------------------------------------------- where planning resumes afterwards

  lemma {:induction false} LastAnchoredIs(eps: seq<Entry>, n: nat, i: nat)
    requires i < n <= |eps| && eps[i].num.Some? && eps[i].range.Some?
    requires forall j :: 0 <= j < n && eps[j].num.Some? && eps[j].range.Some? ==>
               eps[j].num.value < eps[i].num.value || (eps[j].num == eps[i].num && j >= i)
    ensures LastAnchored(eps, n) == Some((eps[i].num.value, Pos(eps[i].range.value.file, eps[i].range.value.end)))
  {
    if i < n - 1 {
      LastAnchoredIs(eps, n - 1, i);
    } else {
      LastAnchoredBelow(eps, n - 1, eps[i].num.value);
    }
  }

  lemma {:induction false} LastAnchoredBelow(eps: seq<Entry>, n: nat, m: int)
    requires n <= |eps| && forall j :: 0 <= j < n && eps[j].num.Some? && eps[j].range.Some? ==> eps[j].num.value < m
    ensures LastAnchored(eps, n).Some? ==> LastAnchored(eps, n).value.0 < m
  {
    if n > 0 {
      LastAnchoredBelow(eps, n - 1, m);
    }
  }

  lemma {:induction false} FirstWithNum(eps: seq<Entry>, m: int) returns (i: nat)
    requires OnlyNum(eps, m) != []
    ensures i < |eps| && eps[i] == OnlyNum(eps, m)[0] && eps[i].num == Some(m)
    ensures forall j :: 0 <= j < i ==> eps[j].num != Some(m)
  {
    var init := eps[..|eps| - 1];
    if OnlyNum(init, m) != [] {
      i := FirstWithNum(init, m);
    } else {
      i := |eps| - 1;
      OnlyNumMembers(init, m);
      forall j | 0 <= j < i ensures eps[j].num != Some(m) {
        assert init[j] in init;
      }
    }
  }

  /** If the entries with the highest number all have ranges, the ledger's last position is the end
  of the first of them. */
  lemma LastIsFirstOfHighest(eps: seq<Entry>, m: int)
    requires OnlyNum(eps, m) != [] && OnlyNum(eps, m)[0].range.Some?
    requires forall i :: 0 <= i < |eps| && eps[i].num.Some? ==> eps[i].num.value <= m
    ensures var r := OnlyNum(eps, m)[0].range.value;
            LastAnchored(eps, |eps|) == Some((m, Pos(r.file, r.end)))
  {
    var i := FirstWithNum(eps, m);
    LastAnchoredIs(eps, |eps|, i);
  }

  /** Slices of an accepted scope have distinct files and cover every affected range. */
  lemma {:induction false} SlicesCover(affected: seq<Entry>, n: nat)
    requires n <= |affected| && Slices(affected, n).Ok?
    ensures var slices := Slices(affected, n).value;
            && (forall i, j :: 0 <= i < j < |slices| ==> slices[i].file != slices[j].file)
            && (forall i :: 0 <= i < n ==>
                  affected[i].range.Some? &&
                  exists k :: 0 <= k < |slices| && slices[k].file == affected[i].range.value.file
                              && affected[i].range.value.end <= slices[k].end)
  {
    if n > 0 {
      SlicesCover(affected, n - 1);
      var slices := Slices(affected, n - 1).value;
      var slices' := Slices(affected, n).value;
      forall i | 0 <= i < n - 1
        ensures exists k :: 0 <= k < |slices'| && slices'[k].file == affected[i].range.value.file
                            && affected[i].range.value.end <= slices'[k].end
      {
        var k :| 0 <= k < |slices| && slices[k].file == affected[i].range.value.file
                 && affected[i].range.value.end <= slices[k].end;
        assert slices'[k].file == slices[k].file && slices[k].end <= slices'[k].end;
      }
      assert slices'[|slices'| - 1].file == affected[n - 1].range.value.file;
    }
  }

  /** No two affected ranges of an accepted scope end at the same place. */
  lemma EndsDiffer(affected: seq<Entry>, n: nat, i: nat)
    requires i < n - 1 < |affected| && Slices(affected, n).Ok?
    ensures affected[i].range.Some? && affected[n - 1].range.Some?
    ensures var a, b := affected[i].range.value, affected[n - 1].range.value;
            Pos(a.file, a.end) != Pos(b.file, b.end)
  {
    SlicesCover(affected, n - 1);
  }

  // ---------------------------------------------------------------- when planning resumes elsewhere

  /** The highest number of a ledger that has affected entries. */
  lemma HighestAffected(eps: seq<Entry>, from: int)
    requires Affected(eps, from) != []
    ensures var affected := Affected(eps, from);
            var last := affected[|affected| - 1];
            && last.num.Some? && last.num.value >= from
            && (forall i :: 0 <= i < |eps| && eps[i].num.Some? ==> eps[i].num.value <= last.num.value)
            && OnlyNum(eps, last.num.value) != []
            && OnlyNum(eps, last.num.value)[|OnlyNum(eps, last.num.value)| - 1] == last
            && OnlyNum(affected, last.num.value) == OnlyNum(eps, last.num.value)
  {
    hide Affected, Sort, Insert, AtLeast;
    var affected := Affected(eps, from);
    var last := affected[|affected| - 1];
    AffectedMembers(eps, from);
    assert last in affected;
    var m := last.num.value;
    OnlyNumAffected(eps, from, m);
    assert affected == affected[..|affected| - 1] + [last];
    OnlyNumAppend(affected[..|affected| - 1], last, m);
    forall i | 0 <= i < |eps| && eps[i].num.Some? ensures eps[i].num.value <= m {
      if eps[i].num.value >= from {
        assert eps[i] in affected;
        var k :| 0 <= k < |affected| && affected[k] == eps[i];
        assert NumKey(affected[k]) <= NumKey(last);
      }
    }
  }

  /** An entry other than the last among those with the highest number stands earlier in the scope. */
  lemma FirstOfSeveral(affected: seq<Entry>, m: int)
    requires affected != [] && affected[|affected| - 1].num == Some(m) && |OnlyNum(affected, m)| > 1
    ensures exists i :: 0 <= i < |affected| - 1 && affected[i] == OnlyNum(affected, m)[0]
  {
    var init, last := affected[..|affected| - 1], affected[|affected| - 1];
    OnlyNumAppend(init, last, m);
    assert affected == init + [last];
    assert OnlyNum(affected, m)[0] == OnlyNum(init, m)[0];
    OnlyNumMembers(init, m);
    assert OnlyNum(init, m)[0] in init;
  }

  /** The last position of the ledger before the commit, compared with the end of the scope. */
  lemma LastBefore(eps: seq<Entry>, from: int)
    requires Scope(Affected(eps, from), from).Ok?
    ensures var affected := Affected(eps, from);
            var last := affected[|affected| - 1];
            && affected != [] && last.num.Some? && last.range.Some?
            && LastAnchored(eps, |eps|).Some?
            && (exists i :: 0 <= i < |affected| && affected[i].range.Some? &&
                  LastAnchored(eps, |eps|).value.1 == Pos(affected[i].range.value.file, affected[i].range.value.end))
            && (LastAnchored(eps, |eps|).value.1 == Pos(last.range.value.file, last.range.value.end)
                <==> |OnlyNum(eps, last.num.value)| == 1)
  {
    hide Affected, Slices, OnlyNum, LastAnchored;
    var affected := Affected(eps, from);
    var last := affected[|affected| - 1];
    HighestAffected(eps, from);
    var m := last.num.value;
    var same := OnlyNum(eps, m);
    SlicesCover(affected, |affected|);
    if |same| > 1 {
      FirstOfSeveral(affected, m);
      var i :| 0 <= i < |affected| - 1 && affected[i] == same[0];
      EndsDiffer(affected, |affected|, i);
    } else {
      assert same[0] == last;
    }
    LastIsFirstOfHighest(eps, m);
  }

  /** The last position of the ledger after the commit is the end of the new layout. */
  lemma LastAfter(p1: Project, job: ReplanJob)
    requires job.planned != []
    ensures var affected := Affected(p1.episodes, job.from);
            var eps := Replaced(p1, affected, job).episodes;
            var r := job.planned[|job.planned| - 1].range;
            && LastAnchored(eps, |eps|).Some? && LastAnchored(eps, |eps|).value.1 == Pos(r.file, r.end)
  {
    hide Affected, ReplanEntries, OnlyNum, LastAnchored, Replaced;
    var affected := Affected(p1.episodes, job.from);
    var eps := Replaced(p1, affected, job).episodes;
    var added := ReplanEntries(affected, job);
    var n := |added|;
    NewAffected(p1, job);
    ReplanEntriesNumbers(affected, job);
    HighestAffected(eps, job.from);
    var m := job.from + n - 1;
    assert added == added[..n - 1] + [added[n - 1]];
    OnlyNumAppend(added[..n - 1], added[n - 1], m);
    OnlyNumNone(added[..n - 1], m);
    LastIsFirstOfHighest(eps, m);
  }

  lemma {:induction false} OnlyNumNone(eps: seq<Entry>, m: int)
    requires forall i :: 0 <= i < |eps| ==> eps[i].num != Some(m)
    ensures OnlyNum(eps, m) == []
  {
    if eps != [] {
      OnlyNumNone(eps[..|eps| - 1], m);
    }
  }

  lemma {:induction false} PartitionEnd(slices: seq<Range>, rs: seq<Range>)
    requires slices != [] && Partition(slices, rs)
    ensures rs != [] && rs[|rs| - 1].file == slices[|slices| - 1].file && rs[|rs| - 1].end == slices[|slices| - 1].end
  {
    var init, sl := slices[..|slices| - 1], slices[|slices| - 1];
    var m :| 0 <= m < |rs| && Partition(init, rs[..m]) && Chain(rs[m..], sl);
    assert rs[m..][|rs[m..]| - 1] == rs[|rs| - 1];
  }

  /** The position `cur` is at `last` or further on, in file order. */
  predicate NotBehind(docs: seq<SourceDoc>, cur: Pos, last: Pos) {
    if cur.file == last.file then cur.offset >= last.offset
    else
      var i, j := IndexOf(docs, last.file), IndexOf(docs, cur.file);
      i.Some? && j.Some? && j.value > i.value
  }

  /** There is a usable cursor, and it is not behind `last`. */
  predicate CursorLeads(docs: seq<SourceDoc>, cursor: Option<Pos>, last: Pos) {
    cursor.Some? && cursor.value.offset >= 0 && NotBehind(docs, cursor.value, last)
  }

  /** Planning resumes at the last recorded position or at the cursor: at the further one in one source, else at
  the cursor exactly if its source is known and not before the other's; a negative cursor does not count. */
  lemma ResumesAtLatest(docs: seq<SourceDoc>, eps: seq<Entry>, cursor: Option<Pos>)
    ensures var last, start := LastAnchored(eps, |eps|), EffectiveStart(docs, eps, cursor);
            if cursor.None? || cursor.value.offset < 0 then
              last.Some? ==> start == Ok(last.value.1)
            else if last.None? then start == Ok(cursor.value)
            else
              var l, c := last.value.1, cursor.value;
              && start.Ok?
              && (l.file == c.file ==>
                    && start.value.file == l.file && start.value.offset >= l.offset && start.value.offset >= c.offset
                    && (start.value == l || start.value == c))
              && (l.file != c.file ==>
                    && (start.value == l || start.value == c)
                    && (start.value == c <==>
                          IndexOf(docs, c.file).Some?
                          && forall k :: IndexOf(docs, l.file) == Some(k) ==> k <= IndexOf(docs, c.file).value))
  {
    hide IndexOf, LastAnchored;
  }

  /** Between two recorded positions in known sources, the start is the same if they are, or if the
  cursor leads them both. */
  lemma SameStartIff(docs: seq<SourceDoc>, cursor: Option<Pos>, before: seq<Entry>, after: seq<Entry>)
    requires LastAnchored(before, |before|).Some? && LastAnchored(after, |after|).Some?
    requires IndexOf(docs, LastAnchored(before, |before|).value.1.file).Some?
    requires IndexOf(docs, LastAnchored(after, |after|).value.1.file).Some?
    ensures var a, b := LastAnchored(before, |before|).value.1, LastAnchored(after, |after|).value.1;
            EffectiveStart(docs, before, cursor) == EffectiveStart(docs, after, cursor)
            <==> a == b || (CursorLeads(docs, cursor, a) && CursorLeads(docs, cursor, b))
  {
    hide IndexOf, LastAnchored;
  }

  /** The range ends of an accepted scope lie in known sources. */
  lemma ScopeKnown(docs: seq<SourceDoc>, affected: seq<Entry>, i: nat)
    requires Slices(affected, |affected|).Ok? && AllGood(docs, Slices(affected, |affected|).value)
    requires i < |affected|
    ensures affected[i].range.Some? && IndexOf(docs, affected[i].range.value.file).Some?
  {
    hide IndexOf;
    SlicesCover(affected, |affected|);
    var slices := Slices(affected, |affected|).value;
    var k :| 0 <= k < |slices| && slices[k].file == affected[i].range.value.file
             && affected[i].range.value.end <= slices[k].end;
    assert Good(docs, slices[k]);
  }

  /** A committed re-plan leaves the next planning start where it was if and only if the highest number
  of the ledger has one entry, or the cursor is not behind both the first entry with that number, from
  which planning would resume, and the last one, where the new layout ends. The position recorded by
  the ledger's episodes alone survives exactly in the first case. */
  lemma ReplanKeepsNextStart(env: Env, p: Project, job: ReplanJob)
    requires ReplanJobFrom(env.docs, job) && CommittedReplan(env, p, job).Committed?
    ensures var before := Backfilled(env, p);
            var after := CommittedReplan(env, p, job).project;
            var affected := Affected(before.episodes, job.from);
            && affected != [] && affected[|affected| - 1].num.Some? && affected[|affected| - 1].range.Some?
            && var last := affected[|affected| - 1];
            && LastAnchored(before.episodes, |before.episodes|).Some?
            && LastAnchored(after.episodes, |after.episodes|).Some?
            && var unique := |OnlyNum(before.episodes, last.num.value)| == 1;
            && var first := LastAnchored(before.episodes, |before.episodes|).value.1;
            && (unique <==> first == LastAnchored(after.episodes, |after.episodes|).value.1)
            && (EffectiveStart(env.docs, after.episodes, after.cursor)
                == EffectiveStart(env.docs, before.episodes, before.cursor)
                <==> unique || (CursorLeads(env.docs, before.cursor, first)
                                && CursorLeads(env.docs, before.cursor,
                                   Pos(last.range.value.file, last.range.value.end))))
  {
    hide Backfilled, Affected, Partition, Replaced, Writes, AllGood, OnlyNum, LastAnchored, EffectiveStart, CursorLeads,
         Slices;
    var p1 := Backfilled(env, p);
    var affected := Affected(p1.episodes, job.from);
    var slices := Scope(affected, job.from).value;
    CommitPartitions(env.docs, affected, job);
    LastBefore(p1.episodes, job.from);
    LastAfter(p1, job);
    NonEmptySlices(slices, RangesOf(affected));
    PartitionEnd(slices, RangesOf(affected));
    PartitionEnd(slices, PlannedRanges(job.planned));
    ReplacedCursor(p1, affected, job);
    forall i | 0 <= i < |affected|
      ensures affected[i].range.Some? && IndexOf(env.docs, affected[i].range.value.file).Some?
    {
      ScopeKnown(env.docs, affected, i);
    }
    SameStartIff(env.docs, p1.cursor, p1.episodes, CommittedReplan(env, p, job).project.episodes);
  }

  lemma NonEmptySlices(slices: seq<Range>, rs: seq<Range>)
    requires Partition(slices, rs) && rs != []
    ensures slices != []
  {
  }

  lemma ReplacedCursor(p1: Project, affected: seq<Entry>, job: ReplanJob)
    ensures Replaced(p1, affected, job).cursor == p1.cursor
  {
  }

  // ---------------------------------------------------------------- a ledger whose start moves

  lemma SortTwo(a: Entry, b: Entry)
    requires NumKey(a) <= NumKey(b)
    ensures Sort([a, b], NumKey) == [a, b] && Sort([a], NumKey) == [a]
  {
    assert [a, b][..1] == [a] && [a][..0] == [] && Sort([a], NumKey) == [a];
    assert Insert([a], b, NumKey) == [a] + [b];
  }

  /** A listed, sorted project with no file and nothing pending is left alone by backfill. */
  lemma NothingToBackfill(env: Env, p: Project)
    requires p.files == map[] && p.cursor.Some? && SortIfPossible(p.episodes) == p.episodes
    requires forall i :: 0 <= i < |p.episodes| ==> p.episodes[i].status.Some?
    ensures Backfilled(env, p) == p
  {
    hide SortIfPossible, VisitOrder, VisitAll, DeriveCursor;
    assert Orphans(p.episodes, p.files) == {};
    assert NewEntries(SortedSet({})) == [];
    assert p.episodes + [] == p.episodes;
    VisitOrderIsOrder(p.episodes);
  }

  lemma AtLeastTwo(a: Entry, b: Entry, from: int)
    requires a.num.Some? && b.num.Some? && from <= a.num.value && from <= b.num.value
    ensures AtLeast([a, b], from) == [a, b]
  {
    assert [a, b][..1] == [a] && [a][..0] == [] && AtLeast([a], from) == [a];
  }

  /** Two touching ranges of one file make one slice. */
  lemma TwoTouchingSlices(a: Entry, b: Entry, file: RelPath, x: int, y: int, z: int)
    requires a.range == Some(Range(file, x, y)) && b.range == Some(Range(file, y, z)) && x < y < z
    ensures Slices([a, b], 2) == Ok([Range(file, x, z)])
  {
    assert Slices([a, b], 0) == Ok([]) && Slices([a, b], 1) == Ok([] + [Range(file, x, y)]);
    var one := [Range(file, x, y)];
    assert [] + [Range(file, x, y)] == one && one[0 := one[0].(end := z)] == [Range(file, x, z)];
  }

  lemma NoPartition()
    ensures Partition([], [])
  {
  }

  lemma OneSlicePartition(sl: Range)
    requires sl.start < sl.end
    ensures Partition([sl], [sl])
  {
    hide Partition;
    var none: seq<Range> := [];
    NoPartition();
    PartitionOneMore(none, none, sl, [sl]);
    assert none + [sl] == [sl];
  }

  const TWIN_A := Entry(Some(1), "a", "", Some(Range("f", 0, 2)), Some(Planned))

  const TWIN_B := Entry(Some(1), "b", "", Some(Range("f", 2, 4)), Some(Planned))

  const MERGED := PlannedEpisode(Draft("c", "", "cd"), Range("f", 0, 4))

  function Twins(): (p: Project) {
    Project([TWIN_A, TWIN_B], Some(Pos("f", 2)), map[], None)
  }

  function TwinEnv(): (env: Env) {
    Env([SourceDoc("f", "abcd")], {})
  }

  function Merge(): (job: ReplanJob) {
    ReplanJob(1, [TWIN_A, TWIN_B], {}, [MERGED])
  }

  /** Two episodes numbered 1, [0, 2) and [2, 4): planning would resume at 2, behind the second one. A
  re-plan that merges them is committed, and planning resumes at 4. */
  lemma DuplicateMovesStart()
    ensures ReplanJobFrom(TwinEnv().docs, Merge()) && CommittedReplan(TwinEnv(), Twins(), Merge()).Committed?
    ensures var docs, before, after := TwinEnv().docs, Backfilled(TwinEnv(), Twins()),
            CommittedReplan(TwinEnv(), Twins(), Merge()).project;
            && EffectiveStart(docs, before.episodes, before.cursor) == Ok(Pos("f", 2))
            && EffectiveStart(docs, after.episodes, after.cursor) == Ok(Pos("f", 4))
  {
    hide Backfilled, Affected, Scope, Partition, AllGood, Replaced, Reconciled, EffectiveStart, TwinEnv, ReplanJobFrom,
         CommittedReplan;
    TwinsStay(TwinEnv(), Twins(), TWIN_A, TWIN_B);
    MergeFits();
    MergeCommits();
    MergedStarts(TwinEnv().docs, TWIN_A, TWIN_B, FromDraft(MERGED.draft, 1, MERGED.range, Planned));
  }

  lemma MergeFits()
    ensures ReplanJobFrom(TwinEnv().docs, Merge())
  {
    hide Scope, Partition, AllGood;
    TwinScope(TwinEnv().docs, TWIN_A, TWIN_B);
    OneSlicePartition(Range("f", 0, 4));
    assert PlannedRanges([MERGED]) == [Range("f", 0, 4)];
  }

  lemma MergeCommits()
    ensures var r := CommittedReplan(TwinEnv(), Twins(), Merge());
            r.Committed? && r.project.cursor == Some(Pos("f", 2))
            && r.project.episodes == [FromDraft(MERGED.draft, 1, MERGED.range, Planned)]
  {
    hide Backfilled, Affected, Scope, Replaced, Reconciled, FromDraft;
    TwinsStay(TwinEnv(), Twins(), TWIN_A, TWIN_B);
    TwinScope(TwinEnv().docs, TWIN_A, TWIN_B);
    MergedLedger(Twins(), Merge(), TWIN_A, TWIN_B, MERGED);
    MergedIsWritten(TwinEnv().docs, Twins(), Merge(), MERGED);
  }

  lemma TwinsStay(env: Env, p: Project, a: Entry, b: Entry)
    requires p == Project([a, b], p.cursor, map[], None) && p.cursor.Some? && a.num == b.num == Some(1)
    requires a.status == b.status == Some(Planned)
    ensures Backfilled(env, p) == p && Affected([a, b], 1) == [a, b]
  {
    hide Backfilled, Sort, AtLeast;
    SortTwo(a, b);
    NothingToBackfill(env, p);
    AtLeastTwo(a, b, 1);
  }

  lemma TwinScope(docs: seq<SourceDoc>, a: Entry, b: Entry)
    requires docs == [SourceDoc("f", "abcd")] && a.num == b.num == Some(1) && a.status == b.status == Some(Planned)
    requires a.range == Some(Range("f", 0, 2)) && b.range == Some(Range("f", 2, 4))
    ensures Scope([a, b], 1) == Ok([Range("f", 0, 4)]) && AllGood(docs, [Range("f", 0, 4)])
    ensures ConsumedIn([a, b]) == {}
  {
    TwoTouchingSlices(a, b, "f", 0, 2, 4);
    assert IndexOf(docs, "f") == Some(0);
  }

  lemma MergedLedger(p: Project, job: ReplanJob, a: Entry, b: Entry, c: PlannedEpisode)
    requires a.num == Some(1) && b.num == Some(1) && a.status == b.status == Some(Planned)
    requires p.episodes == [a, b] && job.from == 1 && job.planned == [c]
    ensures Replaced(p, [a, b], job) == p.(episodes := [FromDraft(c.draft, 1, c.range, Planned)])
  {
    var e := FromDraft(c.draft, 1, c.range, Planned);
    assert [a, b][..1] == [a] && [a][..0] == [];
    assert [a, b][0] == a && [a, b][1] == b && Numbers([a, b]) == {1};
    assert Kept([a], {1}) == [] && Kept([a, b], {1}) == [];
    assert StatusOf([a, b], 1) == Some(Planned);
    assert ReplanEntries([a, b], job) == [e] && [] + [e] == [e];
    assert [e][..0] == [] && Sort([e], NumKey) == [e];
  }

  lemma MergedIsWritten(docs: seq<SourceDoc>, p: Project, job: ReplanJob, c: PlannedEpisode)
    requires docs == [SourceDoc("f", "abcd")] && c.range == Range("f", 0, 4)
    ensures var q := p.(episodes := [FromDraft(c.draft, 1, c.range, Planned)]);
            Reconciled(docs, q).Ok? && Reconciled(docs, q).value.episodes == q.episodes
            && Reconciled(docs, q).value.cursor == q.cursor
  {
    var e := FromDraft(c.draft, 1, c.range, Planned);
    assert IndexOf(docs, "f") == Some(0);
    assert Cut(docs, c.range).Ok?;
    assert Writes(docs, [e], 0) == Ok(map[]) && Writes(docs, [e], 1).Ok?;
  }

  lemma MergedStarts(docs: seq<SourceDoc>, a: Entry, b: Entry, e: Entry)
    requires a.num == b.num == e.num == Some(1) && a.range == Some(Range("f", 0, 2)) && b.range.Some?
    requires e.range == Some(Range("f", 0, 4))
    ensures EffectiveStart(docs, [a, b], Some(Pos("f", 2))) == Ok(Pos("f", 2))
    ensures EffectiveStart(docs, [e], Some(Pos("f", 2))) == Ok(Pos("f", 4))
  {
    assert LastAnchored([a, b], 1) == Some((1, Pos("f", 2)));
    assert LastAnchored([a, b], 2) == Some((1, Pos("f", 2)));
    assert LastAnchored([e], 0) == None && LastAnchored([e], 1) == Some((1, Pos("f", 4)));
  }
}
