/** Interleaved planners: any number of `plan` and `replan` calls, each a snapshot followed later
by a locked commit, in any order, with any model output. */
module PlannerRuns {
  import opened Options
  import opened AnchorResolution
  import opened EpisodeLedger
  import opened EpisodePlanner
  import opened Tiling
  import opened PlannerInvariant
  import opened Replanning

  datatype Job = PlanOf(plan: PlanJob) | ReplanOf(replan: ReplanJob)

  /** `StartPlan` and `StartReplan` are the unlocked part of a call up to the model's answers, kept
  under a call number; `Finish` is its commit. `SetStatus` is any other writer changing the state
  of an anchored episode. Each step sees its own set of episodes with downstream products. */
  datatype Action =
    | StartPlan(id: int, settings: Settings, responses: seq<Response>)
    | StartReplan(id: int, from: int, confirm: bool, batches: seq<seq<Response>>)
    | Finish(id: int)
    | SetStatus(num: int, status: Status)

  datatype Event = Event(downstream: set<int>, action: Action)

  /** The project, the calls in flight, and whether some plan call has reported exhaustion. */
  datatype System = System(project: Project, jobs: map<int, Job>, saidExhausted: bool)

  predicate IsAction(a: Action) {
    match a
    case StartPlan(_, s, _) => IsSettings(s)
    case StartReplan(_, _, _, _) => true
    case Finish(_) => true
    case SetStatus(_, status) => status != Unanchored
  }

  function WithStatus(eps: seq<Entry>, num: int, status: Status): seq<Entry> {
    seq(|eps|, i requires 0 <= i < |eps| =>
      if eps[i].num == Some(num) && eps[i].status.Some? && eps[i].status != Some(Unanchored)
      then eps[i].(status := Some(status)) else eps[i])
  }

  ghost predicate JobFits(docs: Sources, job: Job) {
    match job
    case PlanOf(j) => PlanJobFrom(docs, j)
    case ReplanOf(j) => ReplanJobFrom(docs, j)
  }

  ghost predicate JobsFit(docs: Sources, jobs: map<int, Job>) {
    forall id :: id in jobs ==> JobFits(docs, jobs[id])
  }

  ghost function Commit(env: Env, p: Project, job: Job): Outcome
    requires JobFits(env.docs, job)
  {
    match job case PlanOf(j) => CommittedPlan(env, p, j) case ReplanOf(j) => CommittedReplan(env, p, j)
  }

  ghost function Step(docs: Sources, ratio: Ratio, s: System, e: Event): System
    requires IsAction(e.action) && JobsFit(docs, s.jobs)
  {
    var env := Env(docs, e.downstream);
    match e.action
    case StartPlan(id, settings, responses) =>
      (match Prepared(env, s.project, settings, responses, ratio)
       case PlanFailed(_) => s
       case Exhausted => s.(saidExhausted := true)
       case PlanReady(job) => s.(jobs := s.jobs[id := PlanOf(job)]))
    case StartReplan(id, from, confirm, batches) =>
      (match PreparedReplan(env, s.project, from, confirm, batches, ratio)
       case ReplanReady(job) => s.(jobs := s.jobs[id := ReplanOf(job)])
       case _ => s)
    case Finish(id) =>
      if id !in s.jobs then s
      else
        var rest := s.jobs - {id};
        (match Commit(env, s.project, s.jobs[id])
         case Committed(q, exhausted) => System(q, rest, s.saidExhausted || exhausted)
         case _ => s.(jobs := rest))
    case SetStatus(num, status) =>
      s.(project := s.project.(episodes := WithStatus(s.project.episodes, num, status)))
  }

  ghost predicate Invariant(docs: Sources, s: System) {
    && Consistent(docs, s.project)
    && JobsFit(docs, s.jobs)
    && (s.saidExhausted ==> BlankFrom(docs, FrontOf(docs, s.project)))
  }

  lemma {:induction false} NothingAfterBlank(docs: seq<SourceDoc>, k: nat, o: nat)
    requires k < |docs| && o <= |docs[k].text| && BlankFrom(docs, Place(k, o))
    ensures SkipBlank(docs, k, o).None?
    decreases |docs| - k
  {
    if k + 1 < |docs| {
      assert docs[k + 1].text[0..] == docs[k + 1].text;
      NothingAfterBlank(docs, k + 1, 0);
    }
  }

  /** Once exhaustion has been reported, no plan call in flight can commit. */
  lemma NoPlanAfterExhaustion(env: Env, p: Project, job: PlanJob)
    requires Consistent(env.docs, p) && PlanJobFrom(env.docs, job) && BlankFrom(env.docs, FrontOf(env.docs, p))
    ensures CommittedPlan(env, p, job).Conflict?
  {
    hide Backfilled, EffectiveStart, Reconciled, Extended, SkipBlank, BlankBetween, Tiles;
    PlanKeeps(env, p, job);
    BackfillKeeps(env, p);
    ResumesAtFront(env, p);
    var front := FrontOf(env.docs, p);
    NothingAfterBlank(env.docs, front.doc, front.offset);
  }

  lemma StatusKeeps(docs: Sources, p: Project, num: int, status: Status)
    requires Consistent(docs, p) && status != Unanchored
    ensures var q := p.(episodes := WithStatus(p.episodes, num, status));
            Consistent(docs, q) && FrontOf(docs, q) == FrontOf(docs, p)
  {
    hide Tiles, Cut;
    assert RangesOf(WithStatus(p.episodes, num, status)) == RangesOf(p.episodes);
  }

  lemma FinishKeeps(docs: Sources, ratio: Ratio, s: System, e: Event)
    requires e.action.Finish? && Invariant(docs, s)
    ensures Invariant(docs, Step(docs, ratio, s, e))
  {
    hide CommittedPlan, CommittedReplan, Tiles, PlanJobFrom, ReplanJobFrom, BlankBetween, Numbered, FilesMatch,
        EndOfLast;
    var env := Env(docs, e.downstream);
    var id := e.action.id;
    if id in s.jobs {
      assert JobFits(docs, s.jobs[id]);
      match s.jobs[id] {
        case PlanOf(j) =>
          PlanKeeps(env, s.project, j);
          if s.saidExhausted {
            NoPlanAfterExhaustion(env, s.project, j);
          }
        case ReplanOf(j) =>
          ReplanKeeps(env, s.project, j);
      }
    }
  }

  lemma StartKeeps(docs: Sources, ratio: Ratio, s: System, e: Event)
    requires (e.action.StartPlan? || e.action.StartReplan?) && IsAction(e.action) && Invariant(docs, s)
    ensures Invariant(docs, Step(docs, ratio, s, e))
  {
    hide Prepared, PreparedReplan, Tiles, PlanJobFrom, ReplanJobFrom, BlankBetween, Numbered, FilesMatch, EndOfLast;
    var env := Env(docs, e.downstream);
    match e.action {
      case StartPlan(id, settings, responses) =>
        var r := Prepared(env, s.project, settings, responses, ratio);
        if r.PlanReady? {
          PreparedJobFits(env, s.project, settings, responses, ratio);
        } else if r.Exhausted? {
          ExhaustedMeansCovered(env, s.project, settings, responses, ratio);
        }
      case StartReplan(id, from, confirm, batches) =>
        if PreparedReplan(env, s.project, from, confirm, batches, ratio).ReplanReady? {
          PreparedReplanFits(env, s.project, from, confirm, batches, ratio);
        }
    }
  }

  lemma StepKeeps(docs: Sources, ratio: Ratio, s: System, e: Event)
    requires IsAction(e.action) && Invariant(docs, s)
    ensures Invariant(docs, Step(docs, ratio, s, e))
  {
    hide Prepared, PreparedReplan, Commit, Consistent, BlankBetween, WithStatus;
    match e.action {
      case StartPlan(_, _, _) => StartKeeps(docs, ratio, s, e);
      case StartReplan(_, _, _, _) => StartKeeps(docs, ratio, s, e);
      case Finish(_) => FinishKeeps(docs, ratio, s, e);
      case SetStatus(num, status) => StatusKeeps(docs, s.project, num, status);
    }
  }

  // ---------------------------------------------------------------- whole runs

  /** The state after the events, from a fresh project. */
  ghost function Run(docs: Sources, ratio: Ratio, events: seq<Event>): (s: System)
    requires forall i :: 0 <= i < |events| ==> IsAction(events[i].action)
    ensures Invariant(docs, s)
  {
    if events == [] then
      FreshIsConsistent(docs);
      System(Project([], None, map[], None), map[], false)
    else
      var before := Run(docs, ratio, events[..|events| - 1]);
      StepKeeps(docs, ratio, before, events[|events| - 1]);
      Step(docs, ratio, before, events[|events| - 1])
  }

  /** From a fresh project, on every interleaving: episodes are numbered 1, 2, ...; their ranges tile
  the sources in file order, leaving only whitespace behind when they move on to a later file; the
  cursor stands at their end and the derived files are exactly their texts; no character is ever in
  two episodes; and once any plan call has reported exhaustion, now or earlier, every non-whitespace
  character is in exactly one episode, whatever re-plans followed. */
  lemma EveryRunTiles(docs: Sources, ratio: Ratio, events: seq<Event>)
    requires forall i :: 0 <= i < |events| ==> IsAction(events[i].action)
    ensures var s := Run(docs, ratio, events);
            && Consistent(docs, s.project)
            && (forall p: Place :: Count(docs, RangesOf(s.project.episodes), p) <= 1)
            && (s.saidExhausted ==> EveryInkOnce(docs, RangesOf(s.project.episodes)))
  {
    hide Step;
    var s := Run(docs, ratio, events);
    var rs := RangesOf(s.project.episodes);
    forall p: Place ensures Count(docs, rs, p) <= 1 {
      TilingCountsOnce(docs, rs, p);
    }
    if s.saidExhausted {
      BlankFromFrontCovers(docs, rs);
    }
  }

  /** A conflict is reported instead of a commit exactly when planning would now resume elsewhere
  than at the position the call was planned from: no commit of another planner is overwritten. */
  lemma ConflictIffMoved(env: Env, p: Project, job: PlanJob)
    requires Consistent(env.docs, p) && PlanJobFrom(env.docs, job)
    ensures CommittedPlan(env, p, job).Conflict?
       <==> FrontOf(env.docs, p) != Place(IndexOf(env.docs, job.startRef.file).value, job.startRef.offset)
  {
    hide Backfilled, EffectiveStart, Reconciled, Extended, SkipBlank, Tiles;
    PlanKeeps(env, p, job);
    BackfillKeeps(env, p);
    ResumesAtFront(env, p);
  }
}
