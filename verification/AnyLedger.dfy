/** Planning and re-planning on ledgers of any kind: gaps, duplicates and entries without ranges included. */
module AnyLedger {
  import opened Options
  import opened AnchorResolution
  import opened EpisodeLedger
  import opened EpisodePlanner
  import opened Replanning

  // ---------------------------------------------------------------- numbers

  lemma {:induction false} MaxIsMax(eps: seq<Entry>, n: nat)
    requires n <= |eps|
    ensures forall i :: 0 <= i < n && eps[i].num.Some? ==> eps[i].num.value <= MaxPositive(eps, n)
    ensures MaxPositive(eps, n) == 0 || exists i :: 0 <= i < n && eps[i].num == Some(MaxPositive(eps, n))
  {
    if n > 0 {
      MaxIsMax(eps, n - 1);
    }
  }

  /** New episodes take the numbers right above the highest positive one, from 1 on if there is none; all
  entries stay beside them. */
  lemma NewNumbersAreFree(env: Env, p: Project, job: PlanJob) returns (m: nat)
    requires IsPlanJob(env.docs, job)
    ensures var was, now := p.episodes, Extended(env, p, job).episodes;
              && (m == 0 || exists e :: e in was && e.num == Some(m))
              && (forall e :: e in was && e.num.Some? ==> e.num.value <= m)
              && var added := PlanEntries(env.docs, job, m + 1);
                 && |added| == |job.batch.drafts|
                 && (forall i :: 0 <= i < |added| ==> added[i].num == Some(m + 1 + i))
                 && forall e :: e in now <==> e in was || e in added
  {
    hide SortIfPossible, Pieces;
    m := MaxPositive(p.episodes, |p.episodes|);
    MaxIsMax(p.episodes, |p.episodes|);
    var added := PlanEntries(env.docs, job, m + 1);
    SortIfPossibleMembers(p.episodes + added);
    if m != 0 {
      var i :| 0 <= i < |p.episodes| && p.episodes[i].num == Some(m);
      assert p.episodes[i] in p.episodes;
    }
  }

  // ---------------------------------------------------------------- derived files

  /** Entry `i` gets a file: it has a number and is not locked. */
  predicate Written(eps: seq<Entry>, i: int) {
    0 <= i < |eps| && eps[i].num.Some? && eps[i].status != Some(Unanchored)
  }

  /** Its range lies within a known source. */
  predicate Cuttable(docs: seq<SourceDoc>, e: Entry) {
    && e.range.Some? && IndexOf(docs, e.range.value.file).Some?
    && 0 <= e.range.value.start <= e.range.value.end <= |docs[IndexOf(docs, e.range.value.file).value].text|
  }

  function RangeText(docs: seq<SourceDoc>, e: Entry): string
    requires Cuttable(docs, e)
  {
    docs[IndexOf(docs, e.range.value.file).value].text[e.range.value.start..e.range.value.end]
  }

  /** The last of the first `n` entries with the number that gets a file. */
  ghost predicate LastWritten(eps: seq<Entry>, n: nat, num: int, i: int) {
    && i < n && Written(eps, i) && eps[i].num.value == num
    && forall j :: i < j < n && Written(eps, j) ==> eps[j].num.value != num
  }

  lemma {:induction false} WritesAre(docs: seq<SourceDoc>, eps: seq<Entry>, n: nat)
    requires n <= |eps|
    ensures Writes(docs, eps, n).Ok? <==> forall i :: 0 <= i < n && Written(eps, i) ==> Cuttable(docs, eps[i])
    ensures Writes(docs, eps, n).Ok? ==>
              var w := Writes(docs, eps, n).value;
              && (forall num :: num in w <==> exists i :: 0 <= i < n && Written(eps, i) && eps[i].num.value == num)
              && forall num, i :: LastWritten(eps, n, num, i) ==>
                   num in w && Cuttable(docs, eps[i]) && w[num] == RangeText(docs, eps[i])
  {
    hide IndexOf;
    if n > 0 {
      WritesAre(docs, eps, n - 1);
      if Writes(docs, eps, n).Ok? {
        var w := Writes(docs, eps, n).value;
        forall num, i | LastWritten(eps, n, num, i)
          ensures num in w && Cuttable(docs, eps[i]) && w[num] == RangeText(docs, eps[i])
        {
          assert i < n - 1 ==> LastWritten(eps, n - 1, num, i);
        }
      }
    }
  }

  /** Reconciling any ledger: refused, with nothing written, exactly if an entry that gets a file has no range
  within its source. Otherwise each such number has the text of its last such entry, a file of another number of
  the ledger stays as it is, one of no number of the ledger goes (file names with a minus sign are not looked at),
  the remaining text goes, and nothing else changes. */
  lemma ReconciledIs(docs: seq<SourceDoc>, p: Project)
    ensures var r := Reconciled(docs, p);
            && (r.Ok? <==> forall i :: Written(p.episodes, i) ==> Cuttable(docs, p.episodes[i]))
            && (r.Ok? ==>
                  var q := r.value;
                  && q.episodes == p.episodes && q.cursor == p.cursor && q.remaining.None?
                  && (forall num, i :: LastWritten(p.episodes, |p.episodes|, num, i) ==>
                        num in q.files && q.files[num] == RangeText(docs, p.episodes[i]))
                  && (forall num :: (forall i :: Written(p.episodes, i) ==> p.episodes[i].num.value != num) ==>
                        if num in p.files && (num < 0 || num in Numbers(p.episodes))
                        then num in q.files && q.files[num] == p.files[num]
                        else num !in q.files))
  {
    hide IndexOf, Writes, RangeText;
    WritesAre(docs, p.episodes, |p.episodes|);
    assert forall i :: Written(p.episodes, i) ==> p.episodes[i].num.value in Numbers(p.episodes);
  }

  // ---------------------------------------------------------------- what a re-plan is refused for

  /** Entry `i` has a range that is not empty; it touches the one before if that is in the same source, and
  otherwise is the first in its source. */
  predicate Joins(affected: seq<Entry>, i: int) {
    && 0 <= i < |affected| && affected[i].range.Some?
    && var r := affected[i].range.value;
       && r.start < r.end
       && if i > 0 && affected[i - 1].range.Some? && affected[i - 1].range.value.file == r.file
          then r.start == affected[i - 1].range.value.end
          else forall j :: 0 <= j < i && affected[j].range.Some? ==> affected[j].range.value.file != r.file
  }

  /** The slices so far are of the sources seen, and end where the last entry does. */
  lemma {:induction false} SlicesSeen(affected: seq<Entry>, n: nat)
    requires n <= |affected| && Slices(affected, n).Ok?
    ensures var slices := Slices(affected, n).value;
            && (forall i :: 0 <= i < n ==> affected[i].range.Some?)
            && (n == 0 ==> slices == [])
            && (n > 0 ==> slices != [] && slices[|slices| - 1].file == affected[n - 1].range.value.file
                          && slices[|slices| - 1].end == affected[n - 1].range.value.end)
            && (forall k :: 0 <= k < |slices| ==> SeenIn(affected, n, slices[k].file))
            && forall i :: 0 <= i < n ==> HasSlice(slices, affected[i].range.value.file)
  {
    if n > 0 {
      SlicesSeen(affected, n - 1);
      var before, slices := Slices(affected, n - 1).value, Slices(affected, n).value;
      AddedRange(before, NumKey(affected[n - 1]), affected[n - 1].range);
      hide Slices, AddRange;
      var file := affected[n - 1].range.value.file;
      assert slices[|slices| - 1].file == file;
      forall k | 0 <= k < |slices| ensures SeenIn(affected, n, slices[k].file) {
        assert k < |before| ==> slices[k].file == before[k].file && SeenIn(affected, n - 1, before[k].file);
      }
      forall i | 0 <= i < n ensures HasSlice(slices, affected[i].range.value.file) {
        if i < n - 1 {
          var k :| 0 <= k < |before| && before[k].file == affected[i].range.value.file;
          assert slices[k].file == before[k].file;
        }
      }
    }
  }

  lemma AddedRange(slices: seq<Slice>, num: int, range: Option<Range>)
    ensures var r := AddRange(slices, num, range);
            r.Ok? ==>
              && range.Some? && |r.value| >= |slices| && r.value != []
              && r.value[|r.value| - 1].file == range.value.file && r.value[|r.value| - 1].end == range.value.end
              && (forall k :: 0 <= k < |slices| ==> r.value[k].file == slices[k].file)
              && forall k :: |slices| <= k < |r.value| ==> r.value[k].file == range.value.file
  {
  }

  predicate SeenIn(affected: seq<Entry>, n: nat, file: RelPath)
    requires n <= |affected|
  {
    exists i :: 0 <= i < n && affected[i].range.Some? && affected[i].range.value.file == file
  }

  predicate HasSlice(slices: seq<Slice>, file: RelPath) {
    exists k :: 0 <= k < |slices| && slices[k].file == file
  }

  lemma {:induction false} SlicesIff(affected: seq<Entry>, n: nat)
    requires n <= |affected|
    ensures Slices(affected, n).Ok? <==> forall i :: 0 <= i < n ==> Joins(affected, i)
  {
    hide Joins, SeenIn, HasSlice;
    if n > 0 {
      SlicesIff(affected, n - 1);
      if Slices(affected, n - 1).Ok? {
        SlicesSeen(affected, n - 1);
        NextJoins(affected, n - 1, Slices(affected, n - 1).value);
      }
    }
  }

  lemma NextJoins(affected: seq<Entry>, n: nat, slices: seq<Slice>)
    requires n < |affected| && forall i :: 0 <= i < n ==> affected[i].range.Some?
    requires n == 0 ==> slices == []
    requires n > 0 ==> slices != [] && slices[|slices| - 1].file == affected[n - 1].range.value.file
                       && slices[|slices| - 1].end == affected[n - 1].range.value.end
    requires forall k :: 0 <= k < |slices| ==> SeenIn(affected, n, slices[k].file)
    requires forall i :: 0 <= i < n ==> HasSlice(slices, affected[i].range.value.file)
    ensures AddRange(slices, NumKey(affected[n]), affected[n].range).Ok? <==> Joins(affected, n)
  {
    if affected[n].range.Some? {
      var file := affected[n].range.value.file;
      assert HasSlice(slices, file) <==> SeenIn(affected, n, file);
    }
  }

  /** A scope is accepted exactly if it starts at the given number, no entry in it is locked, and its ranges
  join. */
  lemma ScopeIff(affected: seq<Entry>, from: int)
    ensures Scope(affected, from).Ok? <==>
              && affected != [] && NumKey(affected[0]) == from
              && (forall e :: e in affected ==> e.status != Some(Unanchored))
              && forall i :: 0 <= i < |affected| ==> Joins(affected, i)
  {
    hide Joins, Slices;
    SlicesIff(affected, |affected|);
    if e :| e in affected && e.status == Some(Unanchored) {
      var i :| 0 <= i < |affected| && affected[i] == e;
    }
  }

  /** Confirmation is asked for exactly if it was not given and an accepted scope holds a consumed episode; it
  lists those. */
  lemma ConfirmationIff(env: Env, p: Project, from: int, confirm: bool, responses: seq<seq<Response>>, ratio: Ratio)
    ensures var affected := Affected(Backfilled(env, p).episodes, from);
            var prep := PreparedReplan(env, p, from, confirm, responses, ratio);
            && (prep.NeedsConfirmation? <==>
                  Scope(affected, from).Ok? && !confirm && exists e :: e in affected && e.status == Some(Consumed))
            && (prep.NeedsConfirmation? ==>
                  forall num :: num in prep.consumed <==>
                    exists e :: e in affected && e.status == Some(Consumed) && NumKey(e) == num)
  {
    hide Backfilled, Affected, Scope, SlicesFault, Recut;
    var affected := Affected(Backfilled(env, p).episodes, from);
    ConsumedAre(affected);
  }

  lemma ConsumedAre(affected: seq<Entry>)
    ensures forall num :: num in ConsumedIn(affected) <==>
              exists e :: e in affected && e.status == Some(Consumed) && NumKey(e) == num
    ensures ConsumedIn(affected) != {} <==> exists e :: e in affected && e.status == Some(Consumed)
  {
    forall num ensures num in ConsumedIn(affected) <==>
                       exists e :: e in affected && e.status == Some(Consumed) && NumKey(e) == num {
      if e :| e in affected && e.status == Some(Consumed) && NumKey(e) == num {
        var i :| 0 <= i < |affected| && affected[i] == e;
      }
    }
    if e :| e in affected && e.status == Some(Consumed) {
      assert NumKey(e) in ConsumedIn(affected);
    }
  }

  /** A re-plan commit conflicts exactly if the scope is not accepted any more, a number or a range in it has
  changed, or an episode in it was consumed that was not before; titles, hooks and other states do not matter. */
  lemma ReplanConflictIff(env: Env, p: Project, job: ReplanJob)
    ensures var affected := Affected(Backfilled(env, p).episodes, job.from);
            CommittedReplan(env, p, job).Conflict? <==>
              || Scope(affected, job.from).Fail?
              || |affected| != |job.affected|
              || (exists i :: 0 <= i < |affected| && i < |job.affected|
                              && (affected[i].num != job.affected[i].num || affected[i].range != job.affected[i].range))
              || exists e :: e in affected && e.status == Some(Consumed) && NumKey(e) !in job.consumed
  {
    hide Backfilled, Affected, Scope, Reconciled, Replaced;
    var affected := Affected(Backfilled(env, p).episodes, job.from);
    ConsumedAre(affected);
  }
}
