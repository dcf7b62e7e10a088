/** From the model's answer to the ledger: what each new episode carries, and what a re-plan may not
touch. */
module PlannerOutcome {
  import opened Options
  import opened SourceText
  import opened AnchorResolution
  import opened EpisodeLedger
  import opened EpisodePlanner
  import opened Tiling
  import opened PlannerInvariant
  import opened Replanning

  // ---------------------------------------------------------------- plan

  /** The batch comes from the first usable answer that resolves, cut to the limit; no answer before
  it was cut off. */
  lemma {:induction false} AcceptedIsFirst(window: string, responses: seq<Response>, limit: Option<nat>, cover: bool,
                                           snap: bool, ratio: Ratio)
    returns (a: nat)
    requires limit.Some? ==> limit.value >= 1
    requires FirstAccepted(window, responses, limit, cover, snap, ratio).Ok?
    ensures a < |responses| && responses[a].Parsed?
    ensures var batch := FirstAccepted(window, responses, limit, cover, snap, ratio).value;
            && batch.drafts == Limited(responses[a].drafts, limit)
            && AcceptedEnds(window, batch.drafts, cover, snap, ratio) == Some(batch.ends)
    ensures forall b :: 0 <= b < a ==>
              !responses[b].CutOff?
              && (responses[b].Parsed? ==>
                    AcceptedEnds(window, Limited(responses[b].drafts, limit), cover, snap, ratio).None?)
    decreases |responses|
  {
    hide Resolve;
    if responses[0].Parsed? && AcceptedEnds(window, Limited(responses[0].drafts, limit), cover, snap, ratio).Some? {
      a := 0;
    } else {
      var a' := AcceptedIsFirst(window, responses[1..], limit, cover, snap, ratio);
      a := a' + 1;
      assert forall b :: 1 <= b < a ==> responses[b] == responses[1..][b - 1];
    }
  }

  lemma AcceptedEndAtAnchors(window: string, drafts: Drafts, cover: bool, snap: bool, ratio: Ratio)
    requires AcceptedEnds(window, drafts, cover, snap, ratio).Some?
    ensures var ends := AcceptedEnds(window, drafts, cover, snap, ratio).value;
            forall i :: 0 <= i < |drafts| ==>
              EndsAt(window, EndOf(window, drafts[i].endAnchor, ratio), ends[i], (cover || snap) && i == |drafts| - 1)
  {
    hide EndOf, Resolve;
    ResolvedAreCuts(window, drafts, cover, snap, ratio);
  }

  /** What entry `e` carries of draft `d`, number `num` of the ledger, planned from `start` on. */
  ghost predicate Carries(e: Entry, num: int, d: Draft, file: RelPath, start: nat, window: string, moves: bool,
                          ratio: Ratio) {
    && e.num == Some(num) && e.title == d.title && e.hook == d.hook && e.status == Some(Planned)
    && e.range.Some? && e.range.value.file == file && e.range.value.end >= start
    && EndsAt(window, EndOf(window, d.endAnchor, ratio), e.range.value.end - start, moves)
  }

  /** The stretch of a source from `start` on that is `size` long, or all that is left. */
  predicate Stretch(text: string, start: nat, size: nat, window: string) {
    && start <= |text| && window <= text[start..]
    && |window| == if size < |text| - start then size else |text| - start
  }

  lemma WindowIsStretch(text: string, start: nat, size: nat, window: string)
    requires start <= |text|
    ensures Stretch(text, start, size, window) <==> window == Window(text, start, size)
  {
    if Stretch(text, start, size, window) {
      assert window == text[start..][..|window|];
    }
  }

  /** The number of drafts of an answer that count. */
  function Counted(drafts: Drafts, s: Settings): nat {
    if |drafts| < s.maxEpisodes then |drafts| else s.maxEpisodes
  }

  /** The new episodes, from number `first` on, are the first drafts of the answer; each ends where its own
  anchor ends in the window, the last one moved over a blank tail if the window reaches the source's end. */
  ghost predicate Follow(added: seq<Entry>, first: int, drafts: Drafts, s: Settings, doc: SourceDoc, start: nat,
                         window: string, ratio: Ratio) {
    && |added| == Counted(drafts, s)
    && forall i :: 0 <= i < |added| ==>
         Carries(added[i], first + i, drafts[i], doc.rel, start, window,
                 start + |window| == |doc.text| && i == |added| - 1, ratio)
  }

  /** From answer to ledger: the new episodes are those of one answer of the model, the first that could be
  used, about the stretch of the source where planning resumes. */
  lemma EpisodesFollowAnswer(env: Env, p0: Project, s: Settings, responses: seq<Response>, ratio: Ratio, env': Env,
                             p: Project, window: string)
    requires IsSettings(s) && env'.docs == env.docs && Consistent(env.docs, p)
    ensures var prep := Prepared(env, p0, s, responses, ratio);
            prep.PlanReady? && CommittedPlan(env', p, prep.job).Committed?
            && Stretch(env.docs[prep.job.doc].text, prep.job.start, s.windowChars, window) ==>
              var job, eps := prep.job, CommittedPlan(env', p, prep.job).project.episodes;
              && p.episodes <= eps
              && (CommittedPlan(env', p, job).exhausted <==>
                    && job.doc + 1 == |env.docs| && job.start + |window| == |env.docs[job.doc].text|
                    && BlankBehind(env.docs[job.doc], eps))
              && exists a :: 0 <= a < |responses| && responses[a].Parsed?
                   && Follow(eps[|p.episodes|..], |p.episodes| + 1, responses[a].drafts, s, env.docs[job.doc],
                             job.start, window, ratio)
  {
    hide Prepared, CommittedPlan, EndOf, FirstAccepted, Consistent, Limited, AcceptedEnds, Follow, Stretch,
        BlankBehind;
    var prep := Prepared(env, p0, s, responses, ratio);
    if prep.PlanReady? && CommittedPlan(env', p, prep.job).Committed?
       && Stretch(env.docs[prep.job.doc].text, prep.job.start, s.windowChars, window) {
      var job := prep.job;
      PreparedJobFits(env, p0, s, responses, ratio);
      PlanKeeps(env', p, job);
      ExhaustedIff(env', p, job);
      JobIsAccepted(env, p0, s, responses, ratio, window);
      var a := AcceptedIsFirst(window, responses, Some(s.maxEpisodes), false, job.final, ratio);
      AcceptedEndAtAnchors(window, job.batch.drafts, false, job.final, ratio);
      CommittedCarries(env', p, job, window, ratio);
      var eps := CommittedPlan(env', p, job).project.episodes;
      CarriedFollow(eps, |p.episodes|, job, responses[a].drafts, s, env.docs, window, ratio);
      assert responses[a].Parsed?;
    }
  }

  lemma CarriedFollow(eps: seq<Entry>, n: nat, job: PlanJob, drafts: Drafts, s: Settings, docs: seq<SourceDoc>,
                      window: string, ratio: Ratio)
    requires IsSettings(s) && IsPlanJob(docs, job) && job.batch.drafts == Limited(drafts, Some(s.maxEpisodes))
    requires job.final <==> job.start + |window| == |docs[job.doc].text|
    requires |eps| == n + |job.batch.drafts|
    requires forall i :: 0 <= i < |job.batch.drafts| ==>
               Carries(eps[n + i], n + i + 1, job.batch.drafts[i], docs[job.doc].rel, job.start, window,
                       job.final && i == |job.batch.drafts| - 1, ratio)
    ensures Follow(eps[n..], n + 1, drafts, s, docs[job.doc], job.start, window, ratio)
  {
    hide Carries;
    var added := eps[n..];
    assert forall i :: 0 <= i < |added| ==> added[i] == eps[n + i] && job.batch.drafts[i] == drafts[i];
  }

  /** A text ends in another, or, being shorter, is the end of it. */
  predicate EndsAlike(a: string, b: string) {
    if |a| >= |b| then a[|a| - |b|..] == b else b[|b| - |a|..] == a
  }

  /** Down to the derived files: where a draft's anchor stands verbatim in that stretch it stands there once,
  its episode ends right behind it unless it is the last one and moved over a blank tail, and the text of an
  episode that was not moved ends in the anchor. */
  lemma FilesEndInAnchors(env: Env, p0: Project, s: Settings, responses: seq<Response>, ratio: Ratio, env': Env,
                          p: Project, window: string) returns (a: nat)
    requires IsSettings(s) && env'.docs == env.docs && Consistent(env.docs, p)
    requires Prepared(env, p0, s, responses, ratio).PlanReady?
    requires CommittedPlan(env', p, Prepared(env, p0, s, responses, ratio).job).Committed?
    requires var job := Prepared(env, p0, s, responses, ratio).job;
             Stretch(env.docs[job.doc].text, job.start, s.windowChars, window)
    ensures a < |responses| && responses[a].Parsed?
    ensures var job := Prepared(env, p0, s, responses, ratio).job;
            var p', drafts := CommittedPlan(env', p, job).project, responses[a].drafts;
            var n := Counted(drafts, s);
            && |p'.episodes| == |p.episodes| + n
            && forall i, k :: 0 <= i < n && OccursAt(window, drafts[i].endAnchor, k) ==>
                 AnchoredFile(p', |p.episodes| + 1 + i, drafts[i], window, k, job.start,
                              job.start + |window| == |env.docs[job.doc].text| && i == n - 1)
  {
    hide Prepared, CommittedPlan, EndOf, Consistent, Follow, Stretch, OccursAt, AnchoredFile, IndexOf, PlanEnd;
    EpisodesFollowAnswer(env, p0, s, responses, ratio, env', p, window);
    PreparedJobFits(env, p0, s, responses, ratio);
    var job := Prepared(env, p0, s, responses, ratio).job;
    PlanKeeps(env', p, job);
    var p', n := CommittedPlan(env', p, job).project, |p.episodes|;
    a :| 0 <= a < |responses| && responses[a].Parsed?
         && Follow(p'.episodes[n..], n + 1, responses[a].drafts, s, env.docs[job.doc], job.start, window, ratio);
    IndexOfAt(env.docs, job.doc);
    FollowAnchored(env.docs, p', n, responses[a].drafts, s, env.docs[job.doc], job.start, window, ratio);
  }

  lemma FollowAnchored(docs: seq<SourceDoc>, p: Project, n: nat, drafts: Drafts, s: Settings, doc: SourceDoc,
                       start: nat, window: string, ratio: Ratio)
    requires Consistent(docs, p) && n <= |p.episodes|
    requires IndexOf(docs, doc.rel).Some? && docs[IndexOf(docs, doc.rel).value] == doc
    requires Stretch(doc.text, start, s.windowChars, window)
    requires Follow(p.episodes[n..], n + 1, drafts, s, doc, start, window, ratio)
    ensures |p.episodes| == n + Counted(drafts, s)
    ensures forall i, k :: 0 <= i < Counted(drafts, s) && OccursAt(window, drafts[i].endAnchor, k) ==>
              AnchoredFile(p, n + 1 + i, drafts[i], window, k, start,
                           start + |window| == |doc.text| && i == Counted(drafts, s) - 1)
  {
    hide Consistent, Follow, Carries, Stretch, OccursAt, AnchoredFile, IndexOf;
    FollowLength(p.episodes[n..], n + 1, drafts, s, doc, start, window, ratio);
    forall i, k | 0 <= i < Counted(drafts, s) && OccursAt(window, drafts[i].endAnchor, k)
      ensures AnchoredFile(p, n + 1 + i, drafts[i], window, k, start,
                           start + |window| == |doc.text| && i == Counted(drafts, s) - 1)
    {
      assert p.episodes[n..][i] == p.episodes[n + i];
      AnchoredText(docs, p, n + i, drafts[i], doc, start, s.windowChars, window, k,
                   start + |window| == |doc.text| && i == Counted(drafts, s) - 1, ratio);
    }
  }

  lemma FollowLength(added: seq<Entry>, first: int, drafts: Drafts, s: Settings, doc: SourceDoc, start: nat,
                     window: string, ratio: Ratio)
    requires Follow(added, first, drafts, s, doc, start, window, ratio)
    ensures |added| == Counted(drafts, s)
    ensures forall i :: 0 <= i < |added| ==>
              Carries(added[i], first + i, drafts[i], doc.rel, start, window,
                      start + |window| == |doc.text| && i == |added| - 1, ratio)
  {
    hide Carries;
  }

  /** Episode `num` ends behind the one place `k` of its anchor, or at the end of the window, and its file
  accordingly. */
  ghost predicate AnchoredFile(p: Project, num: int, d: Draft, window: string, k: int, start: nat, moves: bool) {
    && 1 <= num <= |p.episodes| && p.episodes[num - 1].range.Some? && num in p.files
    && OnlyAt(window, d.endAnchor, k)
    && var behind := k + |d.endAnchor|;
       var moved := moves && Blank(window[behind..]);
       && p.episodes[num - 1].range.value.end == start + (if moved then |window| else behind)
       && (!moved ==> EndsAlike(p.files[num], d.endAnchor))
  }

  /** A file of a consistent project holds its episode's range. */
  lemma FileHolds(docs: seq<SourceDoc>, p: Project, i: nat, doc: SourceDoc)
    requires Consistent(docs, p) && i < |p.episodes|
    requires IndexOf(docs, doc.rel).Some? && docs[IndexOf(docs, doc.rel).value] == doc
    ensures i + 1 in p.files && p.episodes[i].range.Some?
    ensures var r := p.episodes[i].range.value;
            r.file == doc.rel ==> 0 <= r.start <= r.end <= |doc.text| && p.files[i + 1] == doc.text[r.start..r.end]
  {
    hide Tiles, IndexOf;
    assert Cut(docs, p.episodes[i].range.value) == Ok(p.files[i + 1]);
  }

  lemma AnchoredText(docs: seq<SourceDoc>, p: Project, i: nat, d: Draft, doc: SourceDoc, start: nat, size: nat,
                     window: string, k: int, moves: bool, ratio: Ratio)
    requires Consistent(docs, p) && i < |p.episodes|
    requires IndexOf(docs, doc.rel).Some? && docs[IndexOf(docs, doc.rel).value] == doc
    requires Stretch(doc.text, start, size, window) && OccursAt(window, d.endAnchor, k)
    requires Carries(p.episodes[i], i + 1, d, doc.rel, start, window, moves, ratio)
    ensures AnchoredFile(p, i + 1, d, window, k, start, moves)
  {
    hide Consistent, EndOf, EndsAlike, IndexOf, OccursAt, OnlyAt, Blank;
    FileHolds(docs, p, i, doc);
    ExactAnchor(window, d.endAnchor, ratio, k);
    VerbatimEnd(window, d.endAnchor, k);
    if !(moves && Blank(window[k + |d.endAnchor|..])) {
      SuffixOfCut(doc.text, start, window, d.endAnchor, k, p.episodes[i].range.value.start);
    }
  }

  lemma VerbatimEnd(window: string, anchor: string, k: int)
    requires OccursAt(window, anchor, k)
    ensures 0 <= k && k + |anchor| <= |window|
  {
  }

  /** Two stretches of a text with the same end. */
  lemma SuffixOfCut(text: string, start: nat, window: string, anchor: string, k: int, from: int)
    requires start <= |text| && window <= text[start..] && OccursAt(window, anchor, k)
    requires 0 <= from <= start + k + |anchor|
    ensures start + k + |anchor| <= |text| && EndsAlike(text[from..start + k + |anchor|], anchor)
  {
    var end := start + k + |anchor|;
    assert anchor == window[k..k + |anchor|] == text[start..][k..k + |anchor|] == text[start + k..end];
    var cut := text[from..end];
    if |cut| >= |anchor| {
      assert cut[|cut| - |anchor|..] == text[start + k..end];
    } else {
      assert anchor[|anchor| - |cut|..] == text[from..end];
    }
  }

  /** Only whitespace is left of a source behind the last entry. */
  predicate BlankBehind(doc: SourceDoc, eps: seq<Entry>) {
    && eps != [] && eps[|eps| - 1].range.Some?
    && 0 <= eps[|eps| - 1].range.value.end <= |doc.text|
    && Blank(doc.text[eps[|eps| - 1].range.value.end..])
  }

  /** A committed plan reports exhaustion exactly when its window reached the end of the last source and
  only whitespace is left there. */
  lemma ExhaustedIff(env: Env, p: Project, job: PlanJob)
    requires Consistent(env.docs, p) && PlanJobFrom(env.docs, job)
    ensures var r := CommittedPlan(env, p, job);
            r.Committed? ==>
              (r.exhausted <==>
                 job.doc + 1 == |env.docs| && job.final && BlankBehind(env.docs[job.doc], r.project.episodes))
  {
    hide Consistent, Backfilled, EffectiveStart, Reconciled, Extended, PlanEntries;
    CommittedEntries(env, p, job);
    LastPlanned(env.docs, job, |p.episodes| + 1);
  }

  lemma LastPlanned(docs: seq<SourceDoc>, job: PlanJob, first: int)
    requires IsPlanJob(docs, job)
    ensures var added := PlanEntries(docs, job, first);
            && added != [] && added[|added| - 1].range.Some? && added[|added| - 1].range.value.end == PlanEnd(job)
            && PlanEnd(job) <= |docs[job.doc].text|
  {
  }

  /** A committed batch whose ends are where its anchors end. */
  lemma CommittedCarries(env: Env, p: Project, job: PlanJob, window: string, ratio: Ratio)
    requires Consistent(env.docs, p) && PlanJobFrom(env.docs, job)
    requires forall i :: 0 <= i < |job.batch.drafts| ==>
               EndsAt(window, EndOf(window, job.batch.drafts[i].endAnchor, ratio), job.batch.ends[i],
                   job.final && i == |job.batch.drafts| - 1)
    ensures CommittedPlan(env, p, job).Committed? ==>
              var eps := CommittedPlan(env, p, job).project.episodes;
              && |eps| == |p.episodes| + |job.batch.drafts|
              && forall i :: 0 <= i < |job.batch.drafts| ==>
                   Carries(eps[|p.episodes| + i], |p.episodes| + i + 1, job.batch.drafts[i], env.docs[job.doc].rel,
                       job.start,
                           window, job.final && i == |job.batch.drafts| - 1, ratio)
  {
    hide CommittedPlan, EndOf, Consistent, Carries, EndsAt, PlanEntries;
    CommittedEntries(env, p, job);
    PlanEntriesLength(env.docs, job, |p.episodes| + 1);
    var added := PlanEntries(env.docs, job, |p.episodes| + 1);
    forall i | 0 <= i < |job.batch.drafts|
      ensures Carries(added[i], |p.episodes| + 1 + i, job.batch.drafts[i], env.docs[job.doc].rel, job.start, window,
                      job.final && i == |job.batch.drafts| - 1, ratio)
    {
      PlanEntryCarries(env.docs, job, |p.episodes| + 1, i, window, ratio);
    }
    assert forall i :: 0 <= i < |added| ==> (p.episodes + added)[|p.episodes| + i] == added[i];
  }

  lemma PlanEntriesLength(docs: seq<SourceDoc>, job: PlanJob, first: int)
    requires IsPlanJob(docs, job)
    ensures |PlanEntries(docs, job, first)| == |job.batch.drafts|
  {
  }

  lemma PlanEntryCarries(docs: seq<SourceDoc>, job: PlanJob, first: int, i: nat, window: string, ratio: Ratio)
    requires IsPlanJob(docs, job) && i < |job.batch.drafts|
    requires EndsAt(window, EndOf(window, job.batch.drafts[i].endAnchor, ratio), job.batch.ends[i],
                    job.final && i == |job.batch.drafts| - 1)
    ensures i < |PlanEntries(docs, job, first)|
    ensures Carries(PlanEntries(docs, job, first)[i], first + i, job.batch.drafts[i], docs[job.doc].rel, job.start,
            window,
                    job.final && i == |job.batch.drafts| - 1, ratio)
  {
    hide EndOf;
  }

  lemma JobIsAccepted(env: Env, p0: Project, s: Settings, responses: seq<Response>, ratio: Ratio, window: string)
    requires IsSettings(s)
    ensures Prepared(env, p0, s, responses, ratio).PlanReady? ==>
            var job := Prepared(env, p0, s, responses, ratio).job;
            Stretch(env.docs[job.doc].text, job.start, s.windowChars, window) ==>
              && FirstAccepted(window, responses, Some(s.maxEpisodes), false, job.final, ratio) == Ok(job.batch)
              && (job.final <==> job.start + |window| == |env.docs[job.doc].text|)
  {
    hide Backfilled, EffectiveStart, FirstAccepted, SkipBlank, Window, Stretch;
    if Prepared(env, p0, s, responses, ratio).PlanReady? {
      var job := Prepared(env, p0, s, responses, ratio).job;
      WindowIsStretch(env.docs[job.doc].text, job.start, s.windowChars, window);
      StretchReaches(env.docs[job.doc].text, job.start, s.windowChars, window);
    }
  }

  lemma StretchReaches(text: string, start: nat, size: nat, window: string)
    ensures Stretch(text, start, size, window) ==> (start + |window| == |text| <==> start + size >= |text|)
  {
  }

  lemma CommittedEntries(env: Env, p: Project, job: PlanJob)
    requires Consistent(env.docs, p) && PlanJobFrom(env.docs, job)
    ensures CommittedPlan(env, p, job).Committed? ==>
              CommittedPlan(env, p, job).project.episodes == p.episodes + PlanEntries(env.docs, job, |p.episodes| + 1)
  {
    hide Backfilled, EffectiveStart, SkipBlank, Extended, PlanEntries, Pieces, Writes;
    BackfillKeeps(env, p);
    ExtendedIs(env, p, job);
  }

  // ---------------------------------------------------------------- replan

  /** A re-plan asked for without confirmation never replaces a consumed episode, not even one that
  was consumed after its snapshot. */
  lemma ConsumedNeedsConfirmation(env: Env, p0: Project, from: int, responses: seq<seq<Response>>, ratio: Ratio,
                                  env': Env, p: Project)
    ensures var prep := PreparedReplan(env, p0, from, false, responses, ratio);
            prep.ReplanReady? && CommittedReplan(env', p, prep.job).Committed? ==>
              forall e :: e in Backfilled(env', p).episodes && e.num.Some? && e.num.value >= from ==>
                  e.status != Some(Consumed)
  {
    hide Backfilled, PreparedReplan, Scope, Affected, Replaced, Reconciled;
    if PreparedReplan(env, p0, from, false, responses, ratio).ReplanReady? {
      PreparedReplanFits(env, p0, from, false, responses, ratio);
      AffectedMembers(Backfilled(env', p).episodes, from);
      NoneConsumed(Affected(Backfilled(env', p).episodes, from));
    }
  }

  lemma NoneConsumed(affected: seq<Entry>)
    ensures ConsumedIn(affected) == {} <==> forall e :: e in affected ==> e.status != Some(Consumed)
  {
    if e :| e in affected && e.status == Some(Consumed) {
      assert NumKey(e) in ConsumedIn(affected);
    }
  }

  /** In a numbered list the status recorded for a number is that of its one entry. */
  lemma {:induction false} StatusOfNumbered(eps: seq<Entry>, k: nat, num: int)
    requires k <= |eps| && forall i :: 0 <= i < |eps| ==> eps[i].num == Some(i + 1)
    ensures StatusOf(eps[k..], num) == if k < num <= |eps| then eps[num - 1].status else None
    decreases |eps|
  {
    if k < |eps| {
      var init := eps[..|eps| - 1];
      StatusOfNumbered(init, k, num);
      assert eps[k..][..|eps| - k - 1] == init[k..];
    }
  }

  /** What entry `e` carries of a re-planned episode under number `num`, whose episode was `was`. */
  predicate Recarries(e: Entry, num: int, planned: PlannedEpisode, was: Option<Status>) {
    && e.num == Some(num) && e.title == planned.draft.title && e.hook == planned.draft.hook
    && e.range == Some(planned.range)
    && e.status == Some(if was == Some(Consumed) || was == Some(Stale) then Stale else Planned)
  }

  function StatusAt(eps: seq<Entry>, num: int): Option<Status> {
    if 1 <= num <= |eps| then eps[num - 1].status else None
  }

  /** The new episodes of a committed re-plan carry their drafts and ranges under consecutive numbers;
  a number is stale exactly if the episode it replaces was consumed or already stale. */
  lemma ReplanCarries(env: Env, p: Project, job: ReplanJob)
    requires Consistent(env.docs, p) && ReplanJobFrom(env.docs, job)
    ensures CommittedReplan(env, p, job).Committed? ==>
              var eps := CommittedReplan(env, p, job).project.episodes;
              && 1 <= job.from <= |p.episodes| && |eps| == job.from - 1 + |job.planned|
              && forall i :: 0 <= i < |job.planned| ==>
                   Recarries(eps[job.from - 1 + i], job.from + i, job.planned[i], StatusAt(p.episodes, job.from + i))
  {
    hide Backfilled, Affected, Scope, Replaced, Partition, PlannedRanges, Writes, Recarries, ReplanEntries, StatusAt,
        SameCuts, ConsumedIn, ReplanJobFrom, Tiles, FilesMatch, EndOfLast;
    if CommittedReplan(env, p, job).Committed? {
      BackfillKeeps(env, p);
      var affected := Affected(p.episodes, job.from);
      ScopeStarts(affected, job.from);
      ReplacedIs(p, job);
      var added := ReplanEntries(affected, job);
      RecarriedEntries(p.episodes, job);
      var eps := CommittedReplan(env, p, job).project.episodes;
      assert forall i :: 0 <= i < |added| ==> eps[job.from - 1 + i] == added[i];
    }
  }

  lemma RecarriedEntries(eps: seq<Entry>, job: ReplanJob)
    requires 1 <= job.from <= |eps| && forall i :: 0 <= i < |eps| ==> eps[i].num == Some(i + 1)
    ensures var added := ReplanEntries(eps[job.from - 1..], job);
            && |added| == |job.planned|
            && forall i :: 0 <= i < |job.planned| ==>
                 Recarries(added[i], job.from + i, job.planned[i], StatusAt(eps, job.from + i))
  {
    hide StatusOf;
    forall num | job.from <= num ensures StatusOf(eps[job.from - 1..], num) == StatusAt(eps, num) {
      StatusOfNumbered(eps, job.from - 1, num);
    }
  }
}
