/** From the model's answers to a re-planned ledger: which draft each new range carries, and where it ends. */
module ReplanOutcome {
  import opened Options
  import opened SourceText
  import opened AnchorResolution
  import opened EpisodeLedger
  import opened EpisodePlanner
  import opened Tiling
  import opened PlannerInvariant
  import opened Replanning
  import opened PlannerOutcome

  // ---------------------------------------------------------------- one slice

  /** The episodes are the drafts, in order, from the start of the slice on, each ending where its own anchor
  ends in the slice's text, the last one at the end of the slice. */
  ghost predicate Recuts(planned: seq<PlannedEpisode>, drafts: Drafts, sl: Slice, window: string, ratio: Ratio) {
    && |planned| == |drafts|
    && forall i :: 0 <= i < |planned| ==>
         && planned[i].draft == drafts[i]
         && planned[i].range.file == sl.file
         && planned[i].range.start == (if i == 0 then sl.start else planned[i - 1].range.end)
         && planned[i].range.end >= sl.start
         && EndsAt(window, EndOf(window, drafts[i].endAnchor, ratio), planned[i].range.end - sl.start,
                   i == |planned| - 1)
  }

  /** The answer is the first that can be used for the whole of the window. */
  ghost predicate FirstUsable(window: string, responses: seq<Response>, a: nat, ratio: Ratio) {
    && a < |responses| && responses[a].Parsed?
    && AcceptedEnds(window, responses[a].drafts, true, false, ratio).Some?
    && forall b :: 0 <= b < a ==>
         && !responses[b].CutOff?
         && (responses[b].Parsed? ==> AcceptedEnds(window, responses[b].drafts, true, false, ratio).None?)
  }

  /** A slice's new episodes are those of the first usable answer about exactly its text. */
  ghost predicate SliceFollows(docs: seq<SourceDoc>, sl: Slice, responses: seq<Response>, planned: seq<PlannedEpisode>,
                               ratio: Ratio) {
    exists d, a: nat :: 0 <= d < |docs| && docs[d].rel == sl.file && 0 <= sl.start <= sl.end <= |docs[d].text|
      && FirstUsable(docs[d].text[sl.start..sl.end], responses, a, ratio)
      && Recuts(planned, responses[a].drafts, sl, docs[d].text[sl.start..sl.end], ratio)
  }

  lemma BatchFollows(docs: seq<SourceDoc>, sl: Slice, responses: seq<Response>, ratio: Ratio)
    ensures Cut(docs, sl).Ok? && FirstAccepted(Cut(docs, sl).value, responses, None, true, false, ratio).Ok? ==>
              var batch := FirstAccepted(Cut(docs, sl).value, responses, None, true, false, ratio).value;
              && |batch.drafts| == |batch.ends|
              && SliceFollows(docs, sl, responses, PairUp(batch.drafts, Pieces(sl.file, sl.start, batch.ends)), ratio)
  {
    hide EndOf, AcceptedEnds, FirstAccepted, Cuts, Recuts, FirstUsable;
    if Cut(docs, sl).Ok? && FirstAccepted(Cut(docs, sl).value, responses, None, true, false, ratio).Ok? {
      var window := Cut(docs, sl).value;
      var batch := FirstAccepted(window, responses, None, true, false, ratio).value;
      var a := AcceptedIsFirst(window, responses, None, true, false, ratio);
      AcceptedEndAtAnchors(window, batch.drafts, true, false, ratio);
      FirstIsUsable(window, responses, a, ratio);
      BatchRecuts(batch, sl, window, ratio);
      var d := IndexOf(docs, sl.file).value;
      assert FirstUsable(docs[d].text[sl.start..sl.end], responses, a, ratio);
    }
  }

  lemma FirstIsUsable(window: string, responses: seq<Response>, a: nat, ratio: Ratio)
    requires a < |responses| && responses[a].Parsed?
    requires AcceptedEnds(window, Limited(responses[a].drafts, None), true, false, ratio).Some?
    requires forall b :: 0 <= b < a ==>
               !responses[b].CutOff?
               && (responses[b].Parsed? ==>
                     AcceptedEnds(window, Limited(responses[b].drafts, None), true, false, ratio).None?)
    ensures FirstUsable(window, responses, a, ratio)
  {
    hide AcceptedEnds;
  }

  lemma BatchRecuts(batch: Batch, sl: Slice, window: string, ratio: Ratio)
    requires |batch.drafts| == |batch.ends| && sl.start >= 0
    requires forall i :: 0 <= i < |batch.drafts| ==>
               EndsAt(window, EndOf(window, batch.drafts[i].endAnchor, ratio), batch.ends[i], i == |batch.drafts| - 1)
    ensures Recuts(PairUp(batch.drafts, Pieces(sl.file, sl.start, batch.ends)), batch.drafts, sl, window, ratio)
  {
    hide EndOf, EndsAt;
    PairedAre(batch, sl);
    hide PairUp;
  }

  lemma PairedAt(batch: Batch, sl: Slice, i: nat)
    requires |batch.drafts| == |batch.ends| && sl.start >= 0 && i < |batch.drafts|
    ensures PairUp(batch.drafts, Pieces(sl.file, sl.start, batch.ends))[i] ==
            PlannedEpisode(batch.drafts[i],
                           Range(sl.file, if i == 0 then sl.start else sl.start + batch.ends[i - 1],
                                 sl.start + batch.ends[i]))
  {
  }

  lemma PairedAre(batch: Batch, sl: Slice)
    requires |batch.drafts| == |batch.ends| && sl.start >= 0
    ensures var planned := PairUp(batch.drafts, Pieces(sl.file, sl.start, batch.ends));
            && |planned| == |batch.drafts|
            && forall i :: 0 <= i < |planned| ==>
                 && planned[i].draft == batch.drafts[i] && planned[i].range.file == sl.file
                 && planned[i].range.start == (if i == 0 then sl.start else planned[i - 1].range.end)
                 && planned[i].range.end == sl.start + batch.ends[i]
  {
    var planned := PairUp(batch.drafts, Pieces(sl.file, sl.start, batch.ends));
    assert |planned| == |batch.drafts|;
    hide PairUp, Pieces;
    forall i | 0 <= i < |planned|
      ensures planned[i].draft == batch.drafts[i] && planned[i].range.file == sl.file
      ensures planned[i].range.start == (if i == 0 then sl.start else planned[i - 1].range.end)
      ensures planned[i].range.end == sl.start + batch.ends[i]
    {
      PairedAt(batch, sl, i);
      if i > 0 {
        PairedAt(batch, sl, i - 1);
      }
    }
  }

  // ---------------------------------------------------------------- all slices

  function Joined(parts: seq<seq<PlannedEpisode>>): seq<PlannedEpisode> {
    if parts == [] then [] else Joined(parts[..|parts| - 1]) + parts[|parts| - 1]
  }

  /** The layout consists of one part for each slice, in order, that follows the slice's answers. */
  ghost predicate LaidOut(docs: seq<SourceDoc>, slices: seq<Slice>, responses: seq<seq<Response>>,
                          parts: seq<seq<PlannedEpisode>>, ratio: Ratio) {
    && |parts| == |slices| == |responses|
    && forall k :: 0 <= k < |parts| ==> SliceFollows(docs, slices[k], responses[k], parts[k], ratio)
  }

  lemma {:induction false} RecutFollows(docs: seq<SourceDoc>, slices: seq<Slice>, responses: seq<seq<Response>>, n: nat,
                                        ratio: Ratio) returns (parts: seq<seq<PlannedEpisode>>)
    requires n <= |slices| == |responses| && Recut(docs, slices, responses, n, ratio).Ok?
    ensures LaidOut(docs, slices[..n], responses[..n], parts, ratio)
    ensures Joined(parts) == Recut(docs, slices, responses, n, ratio).value
  {
    hide SliceFollows, FirstAccepted, PairUp, Cuts, Cut;
    if n == 0 {
      parts := [];
    } else {
      var parts' := RecutFollows(docs, slices, responses, n - 1, ratio);
      var sl := slices[n - 1];
      BatchFollows(docs, sl, responses[n - 1], ratio);
      var batch := FirstAccepted(Cut(docs, sl).value, responses[n - 1], None, true, false, ratio).value;
      var last := PairUp(batch.drafts, Pieces(sl.file, sl.start, batch.ends));
      parts := parts' + [last];
      assert parts[..|parts'|] == parts';
      forall k | 0 <= k < n ensures SliceFollows(docs, slices[..n][k], responses[..n][k], parts[k], ratio) {
        assert k < n - 1 ==> slices[..n][k] == slices[..n - 1][k] && responses[..n][k] == responses[..n - 1][k];
      }
    }
  }

  /** From answers to ledger: a prepared re-plan's layout consists, slice by slice, of the episodes of that
  slice's first usable answer; committed, the ledger carries it under consecutive numbers, and a number is
  stale exactly if the episode it replaces was consumed or already stale. */
  lemma ReplanFollowsAnswers(env: Env, p0: Project, from: int, confirm: bool, responses: seq<seq<Response>>,
                             ratio: Ratio, env': Env, p: Project) returns (parts: seq<seq<PlannedEpisode>>)
    requires Consistent(env.docs, p) && env'.docs == env.docs
    requires PreparedReplan(env, p0, from, confirm, responses, ratio).ReplanReady?
    ensures var job := PreparedReplan(env, p0, from, confirm, responses, ratio).job;
            var scope := Scope(Affected(Backfilled(env, p0).episodes, from), from);
            && scope.Ok? && LaidOut(env.docs, scope.value, responses, parts, ratio)
            && job.planned == Joined(parts)
            && (CommittedReplan(env', p, job).Committed? ==>
                  var eps := CommittedReplan(env', p, job).project.episodes;
                  && 1 <= from <= |p.episodes| && |eps| == from - 1 + |Joined(parts)|
                  && forall i :: 0 <= i < |Joined(parts)| ==>
                       Recarries(eps[from - 1 + i], from + i, Joined(parts)[i], StatusAt(p.episodes, from + i)))
  {
    hide LaidOut, Recut, Backfilled, Affected, CommittedReplan, Recarries, SlicesFault, Consistent, StatusAt, Partition,
         Joined;
    PreparedReplanFits(env, p0, from, confirm, responses, ratio);
    var slices := Scope(Affected(Backfilled(env, p0).episodes, from), from).value;
    parts := RecutFollows(env.docs, slices, responses, |slices|, ratio);
    assert slices[..|slices|] == slices && responses[..|slices|] == responses;
    ReplanCarries(env', p, PreparedReplan(env, p0, from, confirm, responses, ratio).job);
  }
}
