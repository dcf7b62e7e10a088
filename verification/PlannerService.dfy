/** The planner as it runs: a project whose fields are updated in place under the project lock. */
module PlannerService {
  import opened Options
  import opened SourceText
  import opened AnchorResolution
  import opened EpisodeLedger
  import opened EpisodePlanner

  /** The loop of `_effective_start` over the entries. */
  method FindLastAnchored(eps: seq<Entry>) returns (last: Option<(int, Pos)>)
    ensures last == LastAnchored(eps, |eps|)
  {
    last := None;
    for i := 0 to |eps|
      invariant last == LastAnchored(eps, i)
    {
      var e := eps[i];
      if e.num.Some? && e.range.Some? && (last.None? || e.num.value > last.value.0) {
        last := Some((e.num.value, Pos(e.range.value.file, e.range.value.end)));
      }
    }
  }

  /** `_effective_start` */
  method FindEffectiveStart(docs: seq<SourceDoc>, eps: seq<Entry>, cursor: Option<Pos>) returns (r: Result<Pos>)
    ensures r == EffectiveStart(docs, eps, cursor)
  {
    var last := FindLastAnchored(eps);
    var cur := if cursor.Some? && cursor.value.offset >= 0 then cursor else None;
    if last.Some? && cur.Some? {
      return Ok(Later(docs, last.value.1, cur.value));
    } else if last.Some? {
      return Ok(last.value.1);
    } else if cur.Some? {
      return Ok(cur.value);
    } else if docs == [] {
      return Fail(NoSources);
    } else {
      return Ok(Pos(docs[0].rel, 0));
    }
  }

  /** The loop of `plan` that moves on to the next source file while nothing is left in this one. */
  method AdvanceOverBlank(docs: seq<SourceDoc>, k: nat, o: nat) returns (r: Option<(nat, nat)>)
    requires k < |docs| && o <= |docs[k].text|
    ensures r == SkipBlank(docs, k, o)
  {
    var doc: nat, start: nat := k, o;
    while Blank(docs[doc].text[start..])
      invariant doc < |docs| && start <= |docs[doc].text|
      invariant SkipBlank(docs, k, o) == SkipBlank(docs, doc, start)
      decreases |docs| - doc
    {
      if doc + 1 == |docs| {
        return None;
      }
      doc, start := doc + 1, 0;
    }
    return Some((doc, start));
  }

  /** The loop of `_replan_scope` that merges affected ranges into slices. */
  method CollectSlices(affected: seq<Entry>) returns (r: Result<seq<Slice>>)
    ensures r == Slices(affected, |affected|)
  {
    var slices: seq<Slice> := [];
    var seen: set<RelPath> := {};
    for i := 0 to |affected|
      invariant Slices(affected, i) == Ok(slices)
      invariant forall j :: 0 <= j < |slices| ==> slices[j].file in seen
      invariant forall f :: f in seen ==> exists j :: 0 <= j < |slices| && slices[j].file == f
    {
      var num, range := NumKey(affected[i]), affected[i].range;
      if range.None? {
        SlicesStop(affected, i + 1);
        return Fail(RangeMissing(num));
      }
      var r := range.value;
      if r.start >= r.end {
        SlicesStop(affected, i + 1);
        return Fail(RangeEmpty(num));
      }
      if slices != [] && slices[|slices| - 1].file == r.file {
        if r.start != slices[|slices| - 1].end {
          SlicesStop(affected, i + 1);
          return Fail(RangeDiscontinuous(num));
        }
        ghost var before := slices;
        slices := slices[|slices| - 1 := slices[|slices| - 1].(end := r.end)];
        assert forall j :: 0 <= j < |slices| ==> slices[j].file == before[j].file;
      } else {
        if r.file in seen {
          SlicesStop(affected, i + 1);
          return Fail(SourcesInterleaved(num));
        }
        ghost var before := slices;
        seen := seen + {r.file};
        slices := slices + [r];
        assert slices[|before|] == r && forall j :: 0 <= j < |before| ==> slices[j] == before[j];
      }
    }
    return Ok(slices);
  }

  /** The first fault ends the scan. */
  lemma {:induction false} SlicesStop(affected: seq<Entry>, n: nat)
    requires n <= |affected|
    ensures Slices(affected, n).Fail? ==> Slices(affected, |affected|) == Slices(affected, n)
    decreases |affected| - n
  {
    if n < |affected| {
      SlicesStop(affected, n + 1);
    }
  }

  /** `_replan_scope` */
  method FindScope(affected: seq<Entry>, from: int) returns (r: Result<seq<Slice>>)
    ensures r == Scope(affected, from)
  {
    if affected == [] || NumKey(affected[0]) != from {
      return Fail(NotInLedger);
    }
    if exists i :: 0 <= i < |affected| && affected[i].status == Some(Unanchored) {
      return Fail(UnanchoredInRange);
    }
    r := CollectSlices(affected);
  }

  /** The re-cut loop of `replan`, slice by slice. */
  method RecutSlices(docs: seq<SourceDoc>, slices: seq<Slice>, responses: seq<seq<Response>>, ratio: Ratio)
    returns (r: Result<seq<PlannedEpisode>>)
    requires |slices| == |responses|
    ensures r == Recut(docs, slices, responses, |slices|, ratio)
  {
    hide FirstAccepted, Cuts;
    var planned: seq<PlannedEpisode> := [];
    for i := 0 to |slices|
      invariant Recut(docs, slices, responses, i, ratio) == Ok(planned)
    {
      var sl := slices[i];
      var window := Cut(docs, sl);
      if window.Fail? {
        RecutStop(docs, slices, responses, i + 1, ratio);
        return Fail(window.fault);
      }
      var batch := RequestValidatedDrafts(window.value, responses[i], None, true, false, ratio);
      if batch.Fail? {
        RecutStop(docs, slices, responses, i + 1, ratio);
        return Fail(batch.fault);
      }
      planned := planned + PairUp(batch.value.drafts, Pieces(sl.file, sl.start, batch.value.ends));
    }
    return Ok(planned);
  }

  lemma {:induction false} RecutStop(docs: seq<SourceDoc>, slices: seq<Slice>, responses: seq<seq<Response>>, n: nat,
                                     ratio: Ratio)
    requires n <= |slices| == |responses|
    ensures Recut(docs, slices, responses, n, ratio).Fail? ==>
              Recut(docs, slices, responses, |slices|, ratio) == Recut(docs, slices, responses, n, ratio)
    decreases |slices| - n
  {
    hide FirstAccepted, PairUp, Pieces;
    if n < |slices| {
      RecutStop(docs, slices, responses, n + 1, ratio);
    }
  }

  /** The validation phase of `_reconcile_derived_files`. */
  method CollectWrites(docs: seq<SourceDoc>, eps: seq<Entry>) returns (r: Result<map<int, string>>)
    ensures r == Writes(docs, eps, |eps|)
  {
    hide Cut;
    var writes: map<int, string> := map[];
    for i := 0 to |eps|
      invariant Writes(docs, eps, i) == Ok(writes)
    {
      var e := eps[i];
      if e.num.Some? && e.status != Some(Unanchored) {
        if e.range.None? {
          WritesStop(docs, eps, i + 1);
          return Fail(RangeMissing(e.num.value));
        }
        var text := Cut(docs, e.range.value);
        if text.Fail? {
          WritesStop(docs, eps, i + 1);
          return Fail(text.fault);
        }
        writes := writes[e.num.value := text.value];
      }
    }
    return Ok(writes);
  }

  lemma {:induction false} WritesStop(docs: seq<SourceDoc>, eps: seq<Entry>, n: nat)
    requires n <= |eps|
    ensures Writes(docs, eps, n).Fail? ==> Writes(docs, eps, |eps|) == Writes(docs, eps, n)
    decreases |eps| - n
  {
    hide Cut;
    if n < |eps| {
      WritesStop(docs, eps, n + 1);
    }
  }

  class Planner {
    const docs: Sources
    var episodes: seq<Entry>
    var cursor: Option<Pos>
    var files: map<int, string>
    var remaining: Option<string>

    ghost function View(): Project
      reads this
    {
      Project(episodes, cursor, files, remaining)
    }

    constructor (docs: Sources, p: Project)
      ensures this.docs == docs && View() == p
    {
      this.docs := docs;
      episodes, cursor, files, remaining := p.episodes, p.cursor, p.files, p.remaining;
    }

    /** `plan` up to the model's accepted answer: nothing is changed. */
    method PreparePlan(downstream: set<int>, s: Settings, responses: seq<Response>, ratio: Ratio) returns (r: PlanPrep)
      requires IsSettings(s)
      ensures r == Prepared(Env(docs, downstream), View(), s, responses, ratio)
    {
      hide Backfilled, EffectiveStart, SkipBlank, FirstAccepted;
      var p1 := BackfillEpisodeLedger(Env(docs, downstream), Project(episodes, cursor, files, remaining));
      var ref := FindEffectiveStart(docs, p1.episodes, p1.cursor);
      if ref.Fail? {
        return PlanFailed(ref.fault);
      }
      var k := IndexOf(docs, ref.value.file);
      if k.None? {
        return PlanFailed(SourceMissing(ref.value.file));
      }
      if !(0 <= ref.value.offset <= |docs[k.value].text|) {
        return PlanFailed(StartOutOfRange);
      }
      var place := AdvanceOverBlank(docs, k.value, ref.value.offset);
      if place.None? {
        return Exhausted;
      }
      var (doc, start) := place.value;
      var text := docs[doc].text;
      var final := start + s.windowChars >= |text|;
      var batch := RequestValidatedDrafts(Window(text, start, s.windowChars), responses, Some(s.maxEpisodes), false,
          final, ratio);
      if batch.Fail? {
        return PlanFailed(batch.fault);
      }
      return PlanReady(PlanJob(ref.value, doc, start, batch.value, final));
    }

    /** `_reconcile_derived_files` on new ledger fields: validated first, written only if valid. */
    method Reconcile(p: Project) returns (r: Option<Fault>)
      requires p.files == files && p.remaining == remaining
      modifies this
      ensures match Reconciled(docs, p)
              case Ok(q) => r.None? && View() == q
              case Fail(f) => r == Some(f) && View() == old(View())
    {
      hide Writes, Numbers;
      var writes := CollectWrites(docs, p.episodes);
      if writes.Fail? {
        return Some(writes.fault);
      }
      var keep := Numbers(p.episodes);
      var all := files + writes.value;
      episodes, cursor := p.episodes, p.cursor;
      files := map n | n in all && (n < 0 || n in keep) :: all[n];
      remaining := None;
      return None;
    }

    /** `_commit` of `plan` */
    method CommitPlan(downstream: set<int>, job: PlanJob) returns (r: Outcome)
      requires IsPlanJob(docs, job)
      modifies this
      ensures r == CommittedPlan(Env(docs, downstream), old(View()), job)
      ensures View() == if r.Committed? then r.project else old(View())
    {
      hide Backfilled, EffectiveStart, Reconciled, Cuts, MaxPositive, SortIfPossible;
      var env := Env(docs, downstream);
      var p1 := BackfillEpisodeLedger(env, Project(episodes, cursor, files, remaining));
      assert p1.files == files && p1.remaining == remaining by {
        BackfillKeepsFiles(env, View());
      }
      var ref := FindEffectiveStart(docs, p1.episodes, p1.cursor);
      if ref.Fail? {
        return Aborted(ref.fault);
      }
      if ref.value != job.startRef {
        return Conflict;
      }
      var p2 := p1;
      var eps := p1.episodes;
      var next := MaxPositive(p1.episodes, |p1.episodes|) + 1;
      var prev := job.start;
      ghost var entries := PlanEntries(docs, job, next);
      for i := 0 to |job.batch.drafts|
        invariant prev == if i == 0 then job.start else job.start + job.batch.ends[i - 1]
        invariant eps == p1.episodes + entries[..i]
      {
        var end := job.start + job.batch.ends[i];
        assert entries[i] == FromDraft(job.batch.drafts[i], next + i, Range(docs[job.doc].rel, prev, end), Planned);
        eps := eps + [FromDraft(job.batch.drafts[i], next + i, Range(docs[job.doc].rel, prev, end), Planned)];
        prev := end;
      }
      assert entries[..|job.batch.drafts|] == entries;
      p2 := p1.(episodes := SortIfPossible(eps), cursor := Some(Pos(docs[job.doc].rel, PlanEnd(job))));
      assert p2 == Extended(env, p1, job);
      var fault := Reconcile(p2);
      if fault.Some? {
        return Aborted(fault.value);
      }
      return Committed(Project(episodes, cursor, files, remaining), ReportsExhausted(docs, job));
    }

    /** `replan` up to the model's accepted answers: nothing is changed. */
    method PrepareReplan(downstream: set<int>, from: int, confirm: bool, responses: seq<seq<Response>>, ratio: Ratio)
      returns (r: ReplanPrep)
      ensures r == PreparedReplan(Env(docs, downstream), View(), from, confirm, responses, ratio)
    {
      hide Backfilled, Affected, Scope, Recut, SlicesFault, ConsumedIn;
      var p1 := BackfillEpisodeLedger(Env(docs, downstream), Project(episodes, cursor, files, remaining));
      var affected := Affected(p1.episodes, from);
      var slices := FindScope(affected, from);
      if slices.Fail? {
        return ReplanFailed(slices.fault);
      }
      var consumed := ConsumedIn(affected);
      if consumed != {} && !confirm {
        return NeedsConfirmation(consumed);
      }
      var fault := SlicesFault(docs, slices.value);
      if fault.Some? {
        return ReplanFailed(fault.value);
      }
      if |responses| != |slices.value| {
        return ReplanFailed(AttemptsExhausted);
      }
      var planned := RecutSlices(docs, slices.value, responses, ratio);
      if planned.Fail? {
        return ReplanFailed(planned.fault);
      }
      return ReplanReady(ReplanJob(from, affected, consumed, planned.value));
    }

    /** `_commit` of `replan` */
    method CommitReplan(downstream: set<int>, job: ReplanJob) returns (r: Outcome)
      modifies this
      ensures r == CommittedReplan(Env(docs, downstream), old(View()), job)
      ensures View() == if r.Committed? then r.project else old(View())
    {
      hide Backfilled, Affected, Scope, Reconciled, Kept, SortIfPossible, ConsumedIn, Numbers, NewStatus;
      var env := Env(docs, downstream);
      var p1 := BackfillEpisodeLedger(env, Project(episodes, cursor, files, remaining));
      assert p1.files == files && p1.remaining == remaining by {
        BackfillKeepsFiles(env, View());
      }
      var affected := Affected(p1.episodes, job.from);
      var scope := FindScope(affected, job.from);
      if scope.Fail? || !SameCuts(affected, job.affected) || !(ConsumedIn(affected) <= job.consumed) {
        return Conflict;
      }
      var eps := Kept(p1.episodes, Numbers(affected));
      ghost var kept := eps;
      ghost var entries := ReplanEntries(affected, job);
      for i := 0 to |job.planned|
        invariant eps == kept + entries[..i]
      {
        var num := job.from + i;
        eps := eps + [FromDraft(job.planned[i].draft, num, job.planned[i].range, NewStatus(affected, num))];
      }
      assert entries[..|job.planned|] == entries;
      var p2 := p1.(episodes := SortIfPossible(eps));
      assert p2 == Replaced(p1, affected, job);
      var fault := Reconcile(p2);
      if fault.Some? {
        return Aborted(fault.value);
      }
      return Committed(Project(episodes, cursor, files, remaining), false);
    }
  }

  lemma BackfillKeepsFiles(env: Env, p: Project)
    ensures Backfilled(env, p).files == p.files && Backfilled(env, p).remaining == p.remaining
  {
  }
}
