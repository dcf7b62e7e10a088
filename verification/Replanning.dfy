/** Re-planning: the new layout cuts out the same text as the old one, from any ledger. */
module Replanning {
  import opened Options
  import opened AnchorResolution
  import opened EpisodeLedger
  import opened EpisodePlanner
  import opened Tiling
  import opened PlannerInvariant

  predicate HaveRanges(eps: seq<Entry>) {
    forall i :: 0 <= i < |eps| ==> eps[i].range.Some?
  }

  function PlannedRanges(planned: seq<PlannedEpisode>): seq<Range> {
    seq(|planned|, i requires 0 <= i < |planned| => planned[i].range)
  }

  // ---------------------------------------------------------------- the scope is a partition

  /** Extending the last slice by a touching range. */
  lemma PartitionExtend(slices: seq<Range>, rs: seq<Range>, r: Range)
    requires slices != [] && Partition(slices, rs)
    requires r.file == slices[|slices| - 1].file && r.start == slices[|slices| - 1].end && r.start < r.end
    ensures Partition(slices[|slices| - 1 := slices[|slices| - 1].(end := r.end)], rs + [r])
  {
    hide Chain;
    var init, sl := slices[..|slices| - 1], slices[|slices| - 1];
    hide Partition;
    var m := LastChain(slices, rs);
    ChainExtend(rs[m..], sl, r);
    PartitionOneMore(init, rs[..m], sl.(end := r.end), rs[m..] + [r]);
    assert rs[..m] + (rs[m..] + [r]) == rs + [r];
    assert init + [sl.(end := r.end)] == slices[|slices| - 1 := sl.(end := r.end)];
  }

  lemma ChainExtend(chain: seq<Range>, sl: Range, r: Range)
    requires Chain(chain, sl) && r.file == sl.file && r.start == sl.end && r.start < r.end
    ensures Chain(chain + [r], sl.(end := r.end))
  {
  }

  /** The slices of the scope are partitioned by the ranges of the affected entries. */
  lemma {:induction false} SlicesPartition(affected: seq<Entry>, n: nat)
    requires n <= |affected| && Slices(affected, n).Ok?
    ensures HaveRanges(affected[..n])
    ensures Partition(Slices(affected, n).value, RangesOf(affected[..n]))
  {
    hide Partition;
    if n == 0 {
      assert Partition([], RangesOf(affected[..0])) by {
        EmptyPartition(RangesOf(affected[..0]));
      }
    } else {
      SlicesPartition(affected, n - 1);
      var slices := Slices(affected, n - 1).value;
      var rs := RangesOf(affected[..n - 1]);
      var r := affected[n - 1].range.value;
      assert RangesOf(affected[..n]) == rs + [r];
      if slices != [] && slices[|slices| - 1].file == r.file {
        PartitionExtend(slices, rs, r);
      } else {
        PartitionOneMore(slices, rs, r, [r]);
      }
    }
  }

  lemma EmptyPartition(rs: seq<Range>)
    ensures Partition([], rs) <==> rs == []
  {
  }

  /** The scope depends on numbers and ranges only. */
  lemma {:induction false} SlicesSameCuts(a: seq<Entry>, b: seq<Entry>, n: nat)
    requires SameCuts(a, b) && n <= |a|
    ensures Slices(a, n) == Slices(b, n)
  {
    if n > 0 {
      SlicesSameCuts(a, b, n - 1);
    }
  }

  lemma {:induction false} SlicesGood(docs: seq<SourceDoc>, slices: seq<Slice>)
    ensures SlicesFault(docs, slices).None? <==> AllGood(docs, slices)
  {
    if slices != [] {
      SlicesGood(docs, slices[1..]);
      assert slices == [slices[0]] + slices[1..];
    }
  }

  // ---------------------------------------------------------------- the new layout is a partition

  /** Re-cutting every slice to its end gives another partition of the slices. */
  lemma {:induction false} RecutPartition(docs: seq<SourceDoc>, slices: seq<Slice>, responses: seq<seq<Response>>,
                                          n: nat, ratio: Ratio)
    requires n <= |slices| == |responses|
    ensures Recut(docs, slices, responses, n, ratio).Ok? ==>
              Partition(slices[..n], PlannedRanges(Recut(docs, slices, responses, n, ratio).value))
  {
    hide Partition, FirstAccepted, Chain, Cuts;
    if n == 0 {
      assert slices[..0] == [] && PlannedRanges([]) == [];
      EmptyPartition(PlannedRanges([]));
    } else if Recut(docs, slices, responses, n, ratio).Ok? {
      RecutPartition(docs, slices, responses, n - 1, ratio);
      var planned := Recut(docs, slices, responses, n - 1, ratio).value;
      var sl := slices[n - 1];
      var window := Cut(docs, sl).value;
      var batch := FirstAccepted(window, responses[n - 1], None, true, false, ratio).value;
      var pieces := Pieces(sl.file, sl.start, batch.ends);
      PiecesChain(sl.file, sl.start, batch.ends, |window|);
      assert Range(sl.file, sl.start, sl.start + batch.ends[|batch.ends| - 1]) == sl;
      PartitionOneMore(slices[..n - 1], PlannedRanges(planned), sl, pieces);
      assert slices[..n - 1] + [sl] == slices[..n];
      assert PlannedRanges(planned + PairUp(batch.drafts, pieces)) == PlannedRanges(planned) + pieces;
    }
  }

  /** A job whose new layout partitions the slices it was read at, all within their sources. */
  ghost predicate ReplanJobFrom(docs: seq<SourceDoc>, job: ReplanJob) {
    && Scope(job.affected, job.from).Ok?
    && AllGood(docs, Scope(job.affected, job.from).value)
    && Partition(Scope(job.affected, job.from).value, PlannedRanges(job.planned))
  }

  /** Whatever the model answers, a prepared job is such a job. */
  lemma PreparedReplanFits(env: Env, p: Project, from: int, confirm: bool, responses: seq<seq<Response>>, ratio: Ratio)
    requires PreparedReplan(env, p, from, confirm, responses, ratio).ReplanReady?
    ensures var job := PreparedReplan(env, p, from, confirm, responses, ratio).job;
            ReplanJobFrom(env.docs, job) && job.from == from
            && (!confirm ==> job.consumed == {})
  {
    hide Partition, Recut, SlicesFault, Backfilled, Affected;
    var affected := Affected(Backfilled(env, p).episodes, from);
    var slices := Scope(affected, from).value;
    SlicesGood(env.docs, slices);
    RecutPartition(env.docs, slices, responses, |slices|, ratio);
    assert slices[..|slices|] == slices;
  }

  /** At commit the current and the new ranges partition the same slices. */
  lemma CommitPartitions(docs: seq<SourceDoc>, affected: seq<Entry>, job: ReplanJob)
    requires ReplanJobFrom(docs, job)
    requires Scope(affected, job.from).Ok? && SameCuts(affected, job.affected)
    ensures var slices := Scope(affected, job.from).value;
            && AllGood(docs, slices) && HaveRanges(affected)
            && Partition(slices, RangesOf(affected)) && Partition(slices, PlannedRanges(job.planned))
    ensures affected != [] && job.planned != []
  {
    hide Partition, AllGood;
    SlicesSameCuts(affected, job.affected, |affected|);
    SlicesPartition(affected, |affected|);
    assert affected[..|affected|] == affected;
    NonEmptyPartitions(Scope(affected, job.from).value, RangesOf(affected), PlannedRanges(job.planned));
  }

  lemma NonEmptyPartitions(slices: seq<Range>, a: seq<Range>, b: seq<Range>)
    requires Partition(slices, a) && Partition(slices, b) && a != []
    ensures b != []
  {
  }

  // ---------------------------------------------------------------- filtering and sorting

  lemma {:induction false} AtLeastConcat(a: seq<Entry>, b: seq<Entry>, from: int)
    ensures AtLeast(a + b, from) == AtLeast(a, from) + AtLeast(b, from)
  {
    if b == [] {
      assert a + b == a;
    } else {
      assert (a + b)[..|a + b| - 1] == a + b[..|b| - 1];
      AtLeastConcat(a, b[..|b| - 1], from);
    }
  }

  lemma {:induction false} AtLeastAll(eps: seq<Entry>, from: int)
    requires forall i :: 0 <= i < |eps| ==> eps[i].num.Some? && eps[i].num.value >= from
    ensures AtLeast(eps, from) == eps
  {
    if eps != [] {
      AtLeastAll(eps[..|eps| - 1], from);
      assert eps == eps[..|eps| - 1] + [eps[|eps| - 1]];
    }
  }

  lemma {:induction false} AtLeastNone(eps: seq<Entry>, from: int)
    requires forall i :: 0 <= i < |eps| ==> eps[i].num.None? || eps[i].num.value < from
    ensures AtLeast(eps, from) == []
  {
    if eps != [] {
      AtLeastNone(eps[..|eps| - 1], from);
    }
  }

  lemma {:induction false} AtLeastMembers(eps: seq<Entry>, from: int)
    ensures forall e :: e in AtLeast(eps, from) <==> e in eps && e.num.Some? && e.num.value >= from
  {
    if eps != [] {
      AtLeastMembers(eps[..|eps| - 1], from);
      assert eps == eps[..|eps| - 1] + [eps[|eps| - 1]];
    }
  }

  lemma {:induction false} KeptMembers(eps: seq<Entry>, nums: set<int>)
    ensures forall e :: e in Kept(eps, nums) <==> e in eps && !(e.num.Some? && e.num.value in nums)
  {
    if eps != [] {
      KeptMembers(eps[..|eps| - 1], nums);
      assert eps == eps[..|eps| - 1] + [eps[|eps| - 1]];
    }
  }

  lemma AffectedMembers(eps: seq<Entry>, from: int)
    ensures forall e :: e in Affected(eps, from) <==> e in eps && e.num.Some? && e.num.value >= from
    ensures Sorted(Affected(eps, from), NumKey)
  {
    AtLeastMembers(eps, from);
    SortSorted(AtLeast(eps, from), NumKey);
  }

  // ---------------------------------------------------------------- on a consistent project

  /** From `from` on, a numbered ledger is affected from position `from - 1`. */
  lemma NumberedAffected(eps: seq<Entry>, from: int)
    requires Numbered(eps) && Affected(eps, from) != [] && NumKey(Affected(eps, from)[0]) == from
    ensures 1 <= from <= |eps| && Affected(eps, from) == eps[from - 1..]
  {
    hide Affected, AtLeast, Sort;
    AffectedMembers(eps, from);
    var first := Affected(eps, from)[0];
    assert first in Affected(eps, from);
    var k: nat :| k < |eps| && eps[k] == first;
    assert k == from - 1;
    NumberedAtLeast(eps, k);
    SortFixes(eps[k..], NumKey);
    AffectedIs(eps, from);
  }

  lemma AffectedIs(eps: seq<Entry>, from: int)
    ensures Affected(eps, from) == Sort(AtLeast(eps, from), NumKey)
  {
  }

  lemma NumberedAtLeast(eps: seq<Entry>, k: nat)
    requires Numbered(eps) && k <= |eps|
    ensures AtLeast(eps, k + 1) == eps[k..]
  {
    assert eps == eps[..k] + eps[k..];
    AtLeastConcat(eps[..k], eps[k..], k + 1);
    AtLeastNone(eps[..k], k + 1);
    AtLeastAll(eps[k..], k + 1);
  }

  lemma {:induction false} KeptPrefix(eps: seq<Entry>, k: nat, nums: set<int>)
    requires k <= |eps|
    requires forall i :: 0 <= i < |eps| ==> eps[i].num.Some? && (eps[i].num.value in nums <==> i >= k)
    ensures Kept(eps, nums) == eps[..k]
    decreases |eps|
  {
    if eps != [] {
      var init := eps[..|eps| - 1];
      if k == |eps| {
        KeptPrefix(init, k - 1, nums);
        assert eps[..k] == init + [eps[|eps| - 1]];
      } else {
        KeptPrefix(init, k, nums);
      }
    }
  }

  lemma NumberedKept(eps: seq<Entry>, k: nat)
    requires Numbered(eps) && k <= |eps|
    ensures Kept(eps, Numbers(eps[k..])) == eps[..k]
  {
    var nums := Numbers(eps[k..]);
    forall i | 0 <= i < |eps| ensures eps[i].num.value in nums <==> i >= k {
      if i >= k {
        assert eps[k..][i - k] == eps[i];
      }
    }
    KeptPrefix(eps, k, nums);
  }

  lemma ReplanEntriesContinue(affected: seq<Entry>, job: ReplanJob)
    requires job.from >= 1
    ensures Continues(ReplanEntries(affected, job), job.from - 1, PlannedRanges(job.planned))
  {
  }

  /** The replaced ledger of a consistent project, spelled out. */
  lemma ReplacedIs(p: Project, job: ReplanJob)
    requires Numbered(p.episodes) && Affected(p.episodes, job.from) != []
    requires NumKey(Affected(p.episodes, job.from)[0]) == job.from
    ensures 1 <= job.from <= |p.episodes|
    ensures var affected := Affected(p.episodes, job.from);
            var q := Replaced(p, affected, job);
            && affected == p.episodes[job.from - 1..]
            && Numbered(q.episodes)
            && q.episodes == p.episodes[..job.from - 1] + ReplanEntries(affected, job)
            && RangesOf(q.episodes) == RangesOf(p.episodes[..job.from - 1]) + PlannedRanges(job.planned)
            && q.cursor == p.cursor && q.files == p.files
  {
    hide Affected, Kept, ReplanEntries, SortIfPossible, PlannedRanges, Numbers;
    var k := job.from - 1;
    NumberedAffected(p.episodes, job.from);
    var affected := Affected(p.episodes, job.from);
    NumberedKept(p.episodes, k);
    ReplanEntriesContinue(affected, job);
    AppendNumbered(p.episodes[..k], ReplanEntries(affected, job), PlannedRanges(job.planned));
    NumberedIsSorted(p.episodes[..k] + ReplanEntries(affected, job));
  }

  /** The same front means the same end of the last entry. */
  lemma SameFrontSameEnd(docs: seq<SourceDoc>, a: seq<Entry>, b: seq<Entry>)
    requires Numbered(a) && Numbered(b) && a != [] && b != []
    requires AllGood(docs, RangesOf(a)) && AllGood(docs, RangesOf(b))
    requires Front(docs, RangesOf(a)) == Front(docs, RangesOf(b))
    ensures EndOfLast(a) == EndOfLast(b)
  {
    assert Good(docs, RangesOf(a)[|a| - 1]) && Good(docs, RangesOf(b)[|b| - 1]);
  }

  /** A committed re-plan leaves the project consistent, its front where it was, and everything
  before `from` untouched. */
  lemma ReplanKeeps(env: Env, p: Project, job: ReplanJob)
    requires Consistent(env.docs, p) && ReplanJobFrom(env.docs, job)
    ensures var r := CommittedReplan(env, p, job);
            && !r.Aborted?
            && (r.Committed? ==>
                  && Consistent(env.docs, r.project)
                  && FrontOf(env.docs, r.project) == FrontOf(env.docs, p)
                  && !r.exhausted
                  && 1 <= job.from <= |p.episodes|
                  && p.episodes[..job.from - 1] <= r.project.episodes
                  && |r.project.episodes| == job.from - 1 + |job.planned|)
  {
    hide Backfilled, Affected, Scope, Replaced, Reconciled, ReplanEntries, Partition, PlannedRanges, Tiles;
    BackfillKeeps(env, p);
    var r := CommittedReplan(env, p, job);
    if !r.Conflict? {
      var eps, affected := p.episodes, Affected(p.episodes, job.from);
      var k := job.from - 1;
      ScopeStarts(affected, job.from);
      ReplacedIs(p, job);
      CommitPartitions(env.docs, affected, job);
      var pre := RangesOf(eps[..k]);
      assert pre + RangesOf(eps[k..]) == RangesOf(eps);
      var q := Replaced(p, affected, job);
      RepartitionTiles(env.docs, pre, Scope(affected, job.from).value, RangesOf(affected), PlannedRanges(job.planned));
      TilesGood(env.docs, RangesOf(q.episodes));
      TilesGood(env.docs, RangesOf(eps));
      assert |ReplanEntries(affected, job)| == |job.planned| by {
        ReplanEntriesContinue(affected, job);
        PlannedLength(job.planned);
      }
      SameFrontSameEnd(env.docs, eps, q.episodes);
      ReconciledMatches(env.docs, q);
    }
  }

  lemma PlannedLength(planned: seq<PlannedEpisode>)
    ensures |PlannedRanges(planned)| == |planned|
  {
  }

  lemma ScopeStarts(affected: seq<Entry>, from: int)
    ensures Scope(affected, from).Ok? ==> affected != [] && NumKey(affected[0]) == from
  {
  }

  lemma TilesGood(docs: seq<SourceDoc>, rs: seq<Range>)
    requires Tiles(docs, rs)
    ensures AllGood(docs, rs)
  {
  }
}
