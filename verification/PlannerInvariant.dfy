/** What every commit of `plan` and `replan` keeps. */
module PlannerInvariant {
  import opened Options
  import opened SourceText
  import opened AnchorResolution
  import opened EpisodeLedger
  import opened EpisodePlanner
  import opened Tiling

  function RangesOf(eps: seq<Entry>): seq<Range>
    requires forall i :: 0 <= i < |eps| ==> eps[i].range.Some?
  {
    seq(|eps|, i requires 0 <= i < |eps| => eps[i].range.value)
  }

  /** Entries numbered 1, 2, ... in order, all anchored. */
  predicate Numbered(eps: seq<Entry>) {
    forall i :: 0 <= i < |eps| ==>
      && eps[i].num == Some(i + 1)
      && eps[i].range.Some?
      && eps[i].status.Some? && eps[i].status != Some(Unanchored)
  }

  /** The derived files are exactly the texts of the entries. */
  ghost predicate FilesMatch(docs: seq<SourceDoc>, eps: seq<Entry>, files: map<int, string>)
    requires Numbered(eps)
  {
    && (forall n :: n in files <==> 1 <= n <= |eps|)
    && forall i :: 0 <= i < |eps| ==> Cut(docs, eps[i].range.value) == Ok(files[i + 1])
  }

  /** The cursor stands at the end of the last entry. */
  function EndOfLast(eps: seq<Entry>): Option<Pos>
    requires Numbered(eps)
  {
    if eps == [] then None
    else Some(Pos(eps[|eps| - 1].range.value.file, eps[|eps| - 1].range.value.end))
  }

  /** Numbers 1..n, ranges tiling the sources, cursor at the front, files equal to the texts. */
  ghost predicate Consistent(docs: seq<SourceDoc>, p: Project) {
    && Numbered(p.episodes)
    && Tiles(docs, RangesOf(p.episodes))
    && p.cursor == EndOfLast(p.episodes)
    && FilesMatch(docs, p.episodes, p.files)
    && p.remaining == None
  }

  /** A fresh project is consistent. */
  lemma FreshIsConsistent(docs: seq<SourceDoc>)
    ensures Consistent(docs, Project([], None, map[], None))
  {
  }

  ghost function FrontOf(docs: seq<SourceDoc>, p: Project): Place
    requires Consistent(docs, p)
  {
    Front(docs, RangesOf(p.episodes))
  }

  // ---------------------------------------------------------------- backfill has nothing to do

  lemma NumberedIsSorted(eps: seq<Entry>)
    requires Numbered(eps)
    ensures SortIfPossible(eps) == eps
  {
    SortFixes(eps, NumKey);
  }

  /** On a consistent project backfill is the identity. */
  lemma BackfillKeeps(env: Env, p: Project)
    requires Consistent(env.docs, p)
    ensures Backfilled(env, p) == p
  {
    var eps := p.episodes;
    forall n | n in p.files.Keys && n >= 0 ensures n in Numbers(eps) {
      assert eps[n - 1].num == Some(n);
    }
    assert Orphans(eps, p.files) == {};
    assert eps + NewEntries(SortedSet(Orphans(eps, p.files))) == eps;
    NumberedIsSorted(eps);
    assert Listed(eps, p.files) == eps;
    VisitOrderIsOrder(eps);
    if eps == [] {
      assert VisitOrder(eps) == [];
    }
  }

  // ---------------------------------------------------------------- where planning resumes

  lemma {:induction false} LastOfNumbered(eps: seq<Entry>, n: nat)
    requires Numbered(eps) && n <= |eps|
    ensures LastAnchored(eps, n) == if n == 0 then None
            else Some((n as int, Pos(eps[n - 1].range.value.file, eps[n - 1].range.value.end)))
  {
    if n > 0 {
      LastOfNumbered(eps, n - 1);
    }
  }

  lemma {:induction false} MaxOfNumbered(eps: seq<Entry>, n: nat)
    requires Numbered(eps) && n <= |eps|
    ensures MaxPositive(eps, n) == n
  {
    if n > 0 {
      MaxOfNumbered(eps, n - 1);
    }
  }

  /** Planning resumes exactly at the front of the tiling. */
  lemma ResumesAtFront(env: Env, p: Project)
    requires Consistent(env.docs, p) && |env.docs| > 0
    ensures var front := FrontOf(env.docs, p);
            && front.doc < |env.docs| && front.offset <= |env.docs[front.doc].text|
            && EffectiveStart(env.docs, p.episodes, p.cursor) == Ok(Pos(env.docs[front.doc].rel, front.offset))
            && IndexOf(env.docs, env.docs[front.doc].rel) == Some(front.doc)
  {
    LastOfNumbered(p.episodes, |p.episodes|);
    IndexOfAt(env.docs, FrontOf(env.docs, p).doc);
  }

  // ---------------------------------------------------------------- reconciling succeeds

  lemma {:induction false} WritesMatch(docs: seq<SourceDoc>, eps: seq<Entry>, n: nat)
    requires Numbered(eps) && n <= |eps| && AllGood(docs, RangesOf(eps))
    ensures Writes(docs, eps, n).Ok?
    ensures forall k :: k in Writes(docs, eps, n).value <==> 1 <= k <= n
    ensures forall i :: 0 <= i < n ==> Cut(docs, eps[i].range.value) == Ok(Writes(docs, eps, n).value[i + 1])
  {
    if n > 0 {
      WritesMatch(docs, eps, n - 1);
      assert Good(docs, RangesOf(eps)[n - 1]);
    }
  }

  /** After reconciling, the files are exactly the texts of a numbered, anchored ledger. */
  lemma ReconciledMatches(docs: seq<SourceDoc>, p: Project)
    requires Numbered(p.episodes) && AllGood(docs, RangesOf(p.episodes))
    requires forall n :: n in p.files ==> n >= 0
    ensures Reconciled(docs, p).Ok?
    ensures var q := Reconciled(docs, p).value;
            && q.episodes == p.episodes && q.cursor == p.cursor && q.remaining == None
            && FilesMatch(docs, q.episodes, q.files)
  {
    var eps := p.episodes;
    WritesMatch(docs, eps, |eps|);
    forall n ensures n in Numbers(eps) <==> 1 <= n <= |eps| {
      if 1 <= n <= |eps| {
        assert eps[n - 1].num == Some(n);
      }
    }
  }

  // ---------------------------------------------------------------- plan

  lemma {:induction false} SkipBlankFollows(docs: seq<SourceDoc>, k: nat, o: nat)
    requires k < |docs| && o <= |docs[k].text|
    ensures match SkipBlank(docs, k, o)
            case Some((d, s)) => Follows(docs, Place(k, o), Place(d, s))
            case None => BlankFrom(docs, Place(k, o))
    decreases |docs| - k
  {
    if Blank(docs[k].text[o..]) && k + 1 < |docs| {
      SkipBlankFollows(docs, k + 1, 0);
      assert docs[k + 1].text[0..] == docs[k + 1].text;
    }
  }

  /** A job whose position is the first unplanned text at or after the position it was read at. */
  predicate PlanJobFrom(docs: seq<SourceDoc>, job: PlanJob) {
    && IsPlanJob(docs, job)
    && var k := IndexOf(docs, job.startRef.file);
       k.Some? && 0 <= job.startRef.offset <= |docs[k.value].text|
       && SkipBlank(docs, k.value, job.startRef.offset) == Some((job.doc, job.start))
  }

  /** Whatever the model answers, a prepared job is such a job, its ends cut the window the model was
  shown, and it respects the batch limit. */
  lemma PreparedJobFits(env: Env, p: Project, s: Settings, responses: seq<Response>, ratio: Ratio)
    requires IsSettings(s) && Prepared(env, p, s, responses, ratio).PlanReady?
    ensures var job := Prepared(env, p, s, responses, ratio).job;
            && PlanJobFrom(env.docs, job)
            && |job.batch.drafts| == |job.batch.ends| <= s.maxEpisodes
            && Cuts(job.batch.ends, |Window(env.docs[job.doc].text, job.start, s.windowChars)|)
  {
    hide Backfilled, FirstAccepted, Cuts;
  }

  /** On a consistent project `plan` reports exhaustion only when every non-whitespace character
  is in exactly one episode. */
  lemma ExhaustedMeansCovered(env: Env, p: Project, s: Settings, responses: seq<Response>, ratio: Ratio)
    requires IsSettings(s) && Consistent(env.docs, p) && Prepared(env, p, s, responses, ratio).Exhausted?
    ensures BlankFrom(env.docs, FrontOf(env.docs, p)) && EveryInkOnce(env.docs, RangesOf(p.episodes))
  {
    hide FirstAccepted, EffectiveStart, Backfilled, Tiles;
    BackfillKeeps(env, p);
    if |env.docs| > 0 {
      ResumesAtFront(env, p);
      var front := FrontOf(env.docs, p);
      SkipBlankFollows(env.docs, front.doc, front.offset);
    }
    BlankFromFrontCovers(env.docs, RangesOf(p.episodes));
  }

  lemma {:induction false} TilesPieces(docs: seq<SourceDoc>, rs: seq<Range>, job: PlanJob)
    requires IsPlanJob(docs, job) && IndexOf(docs, docs[job.doc].rel) == Some(job.doc)
    requires Tiles(docs, rs) && Follows(docs, Front(docs, rs), Place(job.doc, job.start))
    ensures var all := rs + Pieces(docs[job.doc].rel, job.start, job.batch.ends);
            Tiles(docs, all) && Front(docs, all) == Place(job.doc, PlanEnd(job))
  {
    var rel := docs[job.doc].rel;
    PiecesChain(rel, job.start, job.batch.ends, |docs[job.doc].text| - job.start);
    ChainTiles(docs, rs, Pieces(rel, job.start, job.batch.ends), Range(rel, job.start, PlanEnd(job)));
  }

  /** Entries that continue the numbering, with the given ranges. */
  predicate Continues(added: seq<Entry>, n: nat, ranges: seq<Range>) {
    && |added| == |ranges|
    && forall i :: 0 <= i < |added| ==>
         && added[i].num == Some(n + 1 + i) && added[i].range == Some(ranges[i])
         && added[i].status.Some? && added[i].status != Some(Unanchored)
  }

  lemma AppendNumbered(eps: seq<Entry>, added: seq<Entry>, ranges: seq<Range>)
    requires Numbered(eps) && Continues(added, |eps|, ranges)
    ensures Numbered(eps + added) && RangesOf(eps + added) == RangesOf(eps) + ranges
  {
    var all := eps + added;
    forall i | 0 <= i < |all|
      ensures all[i].num == Some(i + 1) && all[i].range.Some? && all[i].status.Some?
              && all[i].status != Some(Unanchored)
      ensures all[i].range.value == (RangesOf(eps) + ranges)[i]
    {
      if i >= |eps| {
        assert all[i] == added[i - |eps|];
      }
    }
  }

  lemma PlanEntriesContinue(docs: seq<SourceDoc>, job: PlanJob, n: nat)
    requires IsPlanJob(docs, job)
    ensures Continues(PlanEntries(docs, job, n + 1), n, Pieces(docs[job.doc].rel, job.start, job.batch.ends))
  {
  }

  lemma LastPiece(file: RelPath, start: nat, ends: seq<nat>)
    requires |ends| > 0
    ensures var pieces := Pieces(file, start, ends);
            |pieces| == |ends| && pieces[|pieces| - 1].file == file
                && pieces[|pieces| - 1].end == start + ends[|ends| - 1]
  {
  }

  /** The extended ledger of a plan commit, spelled out. */
  lemma ExtendedIs(env: Env, p: Project, job: PlanJob)
    requires Numbered(p.episodes) && IsPlanJob(env.docs, job)
    ensures var q := Extended(env, p, job);
            && q.episodes == p.episodes + PlanEntries(env.docs, job, |p.episodes| + 1)
            && |q.episodes| == |p.episodes| + |job.batch.drafts| > |p.episodes|
            && Numbered(q.episodes) && q.cursor == EndOfLast(q.episodes) && q.files == p.files
            && RangesOf(q.episodes) == RangesOf(p.episodes) + Pieces(env.docs[job.doc].rel, job.start, job.batch.ends)
  {
    hide PlanEntries, Pieces, MaxPositive, SortIfPossible, Increasing;
    var pieces := Pieces(env.docs[job.doc].rel, job.start, job.batch.ends);
    var added := PlanEntries(env.docs, job, |p.episodes| + 1);
    MaxOfNumbered(p.episodes, |p.episodes|);
    PlanEntriesContinue(env.docs, job, |p.episodes|);
    LastPiece(env.docs[job.doc].rel, job.start, job.batch.ends);
    var all := p.episodes + added;
    AppendNumbered(p.episodes, added, pieces);
    NumberedIsSorted(all);
    assert all[|all| - 1] == added[|added| - 1];
  }

  /** A committed plan appends its batch and leaves the project consistent; a report of
  exhaustion is true of the new ledger. */
  lemma PlanKeeps(env: Env, p: Project, job: PlanJob)
    requires Consistent(env.docs, p) && PlanJobFrom(env.docs, job)
    ensures var r := CommittedPlan(env, p, job);
            && !r.Aborted?
            && (r.Committed? ==>
                  && Consistent(env.docs, r.project)
                  && p.episodes < r.project.episodes
                  && |r.project.episodes| == |p.episodes| + |job.batch.drafts|
                  && FrontOf(env.docs, r.project) == Place(job.doc, PlanEnd(job))
                  && Before(FrontOf(env.docs, p), FrontOf(env.docs, r.project))
                  && (r.exhausted ==> BlankFrom(env.docs, FrontOf(env.docs, r.project))))
  {
    hide Backfilled, EffectiveStart, Reconciled, SkipBlank, Extended, PlanEntries, Pieces;
    BackfillKeeps(env, p);
    ResumesAtFront(env, p);
    var front := FrontOf(env.docs, p);
    var r := CommittedPlan(env, p, job);
    if !r.Conflict? {
      SkipBlankFollows(env.docs, front.doc, front.offset);
      IndexOfAt(env.docs, job.doc);
      TilesPieces(env.docs, RangesOf(p.episodes), job);
      ExtendedIs(env, p, job);
      ReconciledMatches(env.docs, Extended(env, p, job));
    }
  }
}
