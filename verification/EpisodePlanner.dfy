/** Planning and re-planning: a snapshot is read, a model proposes cuts, and the result is
committed under the project lock if the ledger has not moved meanwhile. */
module EpisodePlanner {
  import opened Options
  import opened SourceText
  import opened AnchorResolution
  import opened EpisodeLedger

  datatype Fault =
    | NoSources
    | SourceMissing(file: RelPath)
    | StartOutOfRange
    | NotInLedger
    | UnanchoredInRange
    | RangeMissing(num: int)
    | RangeEmpty(num: int)
    | RangeDiscontinuous(num: int)
    | SourcesInterleaved(num: int)
    | RangeOutOfBounds
    | OutputTruncated
    | AttemptsExhausted

  datatype Result<+T> = Ok(value: T) | Fail(fault: Fault)

  // ---------------------------------------------------------------- where planning resumes

  /** The range end of the first entry, in list order, with the highest number among those that
  have a number and a range. */
  function LastAnchored(eps: seq<Entry>, n: nat): Option<(int, Pos)>
    requires n <= |eps|
  {
    if n == 0 then None
    else
      var best := LastAnchored(eps, n - 1);
      var e := eps[n - 1];
      if e.num.Some? && e.range.Some? && (best.None? || e.num.value > best.value.0)
      then Some((e.num.value, Pos(e.range.value.file, e.range.value.end)))
      else best
  }

  /** The later of the two positions in file order; a position in an unknown file loses. */
  function Later(docs: seq<SourceDoc>, last: Pos, cur: Pos): Pos {
    if cur.file == last.file then Pos(last.file, if cur.offset > last.offset then cur.offset else last.offset)
    else
      match (IndexOf(docs, last.file), IndexOf(docs, cur.file))
      case (None, None) => last
      case (None, Some(_)) => cur
      case (Some(_), None) => last
      case (Some(i), Some(j)) => if j < i then last else cur
  }

  /** `_effective_start` */
  function EffectiveStart(docs: seq<SourceDoc>, eps: seq<Entry>, cursor: Option<Pos>): Result<Pos> {
    var last := LastAnchored(eps, |eps|);
    var cur := if cursor.Some? && cursor.value.offset >= 0 then cursor else None;
    match (last, cur)
    case (Some(l), Some(c)) => Ok(Later(docs, l.1, c))
    case (Some(l), None) => Ok(l.1)
    case (None, Some(c)) => Ok(c)
    case (None, None) => if docs == [] then Fail(NoSources) else Ok(Pos(docs[0].rel, 0))
  }

  /** The first position at or after `(k, o)` in file order with text left to plan. */
  function SkipBlank(docs: seq<SourceDoc>, k: nat, o: nat): (r: Option<(nat, nat)>)
    requires k < |docs| && o <= |docs[k].text|
    ensures r.Some? ==> k <= r.value.0 < |docs| && r.value.1 <= |docs[r.value.0].text|
                        && !Blank(docs[r.value.0].text[r.value.1..])
                        && r.value.1 == (if r.value.0 == k then o else 0)
    decreases |docs| - k
  {
    if !Blank(docs[k].text[o..]) then Some((k, o))
    else if k + 1 < |docs| then SkipBlank(docs, k + 1, 0)
    else None
  }

  // ---------------------------------------------------------------- asking the model

  /** One answer of the text model: unusable, cut off by the output limit, or a batch of drafts. */
  datatype Response = Malformed | CutOff | Parsed(drafts: Drafts)

  /** A batch longer than the limit keeps its head. */
  function Limited(drafts: Drafts, limit: Option<nat>): Drafts
    requires limit.Some? ==> limit.value >= 1
  {
    if limit.Some? && |drafts| > limit.value then drafts[..limit.value] else drafts
  }

  datatype Batch = Batch(drafts: Drafts, ends: seq<nat>)

  /** The ends a batch resolves to, if it does. */
  ghost function AcceptedEnds(window: string, drafts: Drafts, cover: bool, snap: bool,
                              ratio: Ratio): (r: Option<seq<nat>>)
    ensures r.Some? ==> |drafts| == |r.value| && Cuts(r.value, |window|)
                        && (cover ==> r.value[|r.value| - 1] == |window|)
  {
    var r := Resolve(window, drafts, cover, snap, ratio);
    if r.Resolved? then
      ResolvedAreCuts(window, drafts, cover, snap, ratio);
      Some(r.ends)
    else None
  }

  /** One end for each draft, within the window and the limit; all of the window if it must be covered. */
  predicate FitsWindow(window: string, limit: Option<nat>, cover: bool, b: Batch) {
    && |b.drafts| == |b.ends| && Cuts(b.ends, |window|)
    && (cover ==> b.ends[|b.ends| - 1] == |window|)
    && (limit.Some? ==> |b.drafts| <= limit.value)
  }

  lemma AcceptedFit(window: string, ds: Drafts, limit: Option<nat>, cover: bool, snap: bool, ratio: Ratio)
    requires limit.Some? ==> limit.value >= 1
    ensures var drafts := Limited(ds, limit);
            var ends := AcceptedEnds(window, drafts, cover, snap, ratio);
            ends.Some? ==> FitsWindow(window, limit, cover, Batch(drafts, ends.value))
  {
    hide AcceptedEnds, Cuts;
  }

  /** The first answer that resolves; a cut-off answer before that ends the attempt. */
  ghost function FirstAccepted(window: string, responses: seq<Response>, limit: Option<nat>, cover: bool, snap: bool,
                               ratio: Ratio): (r: Result<Batch>)
    requires limit.Some? ==> limit.value >= 1
    ensures r.Ok? ==> FitsWindow(window, limit, cover, r.value)
  {
    hide AcceptedEnds, FitsWindow;
    if responses == [] then Fail(AttemptsExhausted)
    else match responses[0]
      case CutOff => Fail(OutputTruncated)
      case Malformed => FirstAccepted(window, responses[1..], limit, cover, snap, ratio)
      case Parsed(ds) =>
        var drafts := Limited(ds, limit);
        var ends := AcceptedEnds(window, drafts, cover, snap, ratio);
        AcceptedFit(window, ds, limit, cover, snap, ratio);
        if ends.Some? then Ok(Batch(drafts, ends.value))
        else FirstAccepted(window, responses[1..], limit, cover, snap, ratio)
  }

  /** `_request_validated_drafts`, one response for each attempt. */
  method RequestValidatedDrafts(window: string, responses: seq<Response>, limit: Option<nat>, cover: bool, snap: bool,
                                ratio: Ratio)
    returns (r: Result<Batch>)
    requires limit.Some? ==> limit.value >= 1
    ensures r == FirstAccepted(window, responses, limit, cover, snap, ratio)
  {
    hide Resolve;
    assert responses[0..] == responses;
    for attempt := 0 to |responses|
      invariant FirstAccepted(window, responses, limit, cover, snap, ratio)
             == FirstAccepted(window, responses[attempt..], limit, cover, snap, ratio)
    {
      assert responses[attempt..][0] == responses[attempt] && responses[attempt..][1..] == responses[attempt + 1..];
      match responses[attempt] {
        case CutOff => return Fail(OutputTruncated);
        case Malformed =>
        case Parsed(ds) =>
          var drafts := Limited(ds, limit);
          var resolution := ResolveBoundaries(window, drafts, cover, snap, ratio);
          if resolution.Resolved? {
            return Ok(Batch(drafts, resolution.ends));
          }
      }
    }
    return Fail(AttemptsExhausted);
  }

  // ---------------------------------------------------------------- plan: snapshot

  /** What `plan` carries from its snapshot to its commit. */
  datatype PlanJob = PlanJob(startRef: Pos, doc: nat, start: nat, batch: Batch, final: bool)

  datatype PlanPrep = PlanFailed(fault: Fault) | Exhausted | PlanReady(job: PlanJob)

  /** The window size and the batch limit, both at least one. */
  datatype Settings = Settings(windowChars: nat, maxEpisodes: nat)

  predicate IsSettings(s: Settings) {
    s.windowChars >= 1 && s.maxEpisodes >= 1
  }

  function Window(text: string, start: nat, size: nat): string
    requires start <= |text|
  {
    if start + size >= |text| then text[start..] else text[start..start + size]
  }

  ghost function Prepared(env: Env, p: Project, s: Settings, responses: seq<Response>, ratio: Ratio): (r: PlanPrep)
    requires IsSettings(s)
    ensures r.PlanReady? ==> IsPlanJob(env.docs, r.job)
  {
    hide Backfilled, EffectiveStart;
    var p1 := Backfilled(env, p);
    match EffectiveStart(env.docs, p1.episodes, p1.cursor)
    case Fail(f) => PlanFailed(f)
    case Ok(ref) =>
      match IndexOf(env.docs, ref.file)
      case None => PlanFailed(SourceMissing(ref.file))
      case Some(k) =>
        if !(0 <= ref.offset <= |env.docs[k].text|) then PlanFailed(StartOutOfRange)
        else match SkipBlank(env.docs, k, ref.offset)
          case None => Exhausted
          case Some((doc, start)) => PreparedAt(env.docs, ref, doc, start, s, responses, ratio)
  }

  ghost function PreparedAt(docs: seq<SourceDoc>, ref: Pos, doc: nat, start: nat, s: Settings,
                            responses: seq<Response>, ratio: Ratio): (r: PlanPrep)
    requires IsSettings(s) && doc < |docs| && start <= |docs[doc].text|
    ensures r.PlanReady? ==> IsPlanJob(docs, r.job)
  {
    var text := docs[doc].text;
    var final := start + s.windowChars >= |text|;
    match FirstAccepted(Window(text, start, s.windowChars), responses, Some(s.maxEpisodes), false, final, ratio)
    case Fail(f) => PlanFailed(f)
    case Ok(batch) => PlanReady(PlanJob(ref, doc, start, batch, final))
  }

  // ---------------------------------------------------------------- plan: commit

  function MaxPositive(eps: seq<Entry>, n: nat): nat
    requires n <= |eps|
  {
    if n == 0 then 0
    else
      var m := MaxPositive(eps, n - 1);
      if eps[n - 1].num.Some? && eps[n - 1].num.value > m then eps[n - 1].num.value else m
  }

  /** The pieces of `[start, start + ends[last])` between consecutive ends. */
  function Pieces(file: RelPath, start: nat, ends: seq<nat>): seq<Range> {
    seq(|ends|, i requires 0 <= i < |ends| =>
      Range(file, if i == 0 then start else start + ends[i - 1], start + ends[i]))
  }

  function FromDraft(d: Draft, num: int, range: Range, status: Status): Entry {
    Entry(Some(num), d.title, d.hook, Some(range), Some(status))
  }

  function PlanEntries(docs: seq<SourceDoc>, job: PlanJob, first: int): seq<Entry>
    requires job.doc < |docs| && |job.batch.drafts| == |job.batch.ends|
  {
    var pieces := Pieces(docs[job.doc].rel, job.start, job.batch.ends);
    seq(|job.batch.drafts|, i requires 0 <= i < |job.batch.drafts| =>
      FromDraft(job.batch.drafts[i], first + i, pieces[i], Planned))
  }

  datatype Outcome =
    | Conflict
    | Aborted(fault: Fault)
    | Committed(project: Project, exhausted: bool)

  /** A job fit to commit: its batch cuts the text that starts at its position. */
  predicate IsPlanJob(docs: seq<SourceDoc>, job: PlanJob) {
    && job.doc < |docs|
    && job.start <= |docs[job.doc].text|
    && |job.batch.drafts| == |job.batch.ends|
    && Cuts(job.batch.ends, |docs[job.doc].text| - job.start)
  }

  function PlanEnd(job: PlanJob): nat
    requires |job.batch.ends| > 0
  {
    job.start + job.batch.ends[|job.batch.ends| - 1]
  }

  /** The ledger after the batch is appended, before derived files are reconciled. */
  function Extended(env: Env, p1: Project, job: PlanJob): Project
    requires IsPlanJob(env.docs, job)
  {
    var eps := p1.episodes + PlanEntries(env.docs, job, MaxPositive(p1.episodes, |p1.episodes|) + 1);
    p1.(episodes := SortIfPossible(eps), cursor := Some(Pos(env.docs[job.doc].rel, PlanEnd(job))))
  }

  function ReportsExhausted(docs: seq<SourceDoc>, job: PlanJob): bool
    requires IsPlanJob(docs, job)
  {
    job.final && Blank(docs[job.doc].text[PlanEnd(job)..]) && job.doc + 1 == |docs|
  }

  /** `_commit` of `plan`: conflict unless planning would still resume at the same position. */
  function CommittedPlan(env: Env, p: Project, job: PlanJob): Outcome
    requires IsPlanJob(env.docs, job)
  {
    var p1 := Backfilled(env, p);
    match EffectiveStart(env.docs, p1.episodes, p1.cursor)
    case Fail(f) => Aborted(f)
    case Ok(ref) =>
      if ref != job.startRef then Conflict
      else match Reconciled(env.docs, Extended(env, p1, job))
        case Fail(f) => Aborted(f)
        case Ok(p2) => Committed(p2, ReportsExhausted(env.docs, job))
  }

  // ---------------------------------------------------------------- derived files

  function TextOf(docs: seq<SourceDoc>, rel: RelPath): Result<string> {
    match IndexOf(docs, rel) case None => Fail(SourceMissing(rel)) case Some(k) => Ok(docs[k].text)
  }

  /** The text of a range, if it lies within its source. */
  function Cut(docs: seq<SourceDoc>, r: Range): (t: Result<string>)
    ensures t.Ok? ==> 0 <= r.start <= r.end && |t.value| == r.end - r.start
  {
    match TextOf(docs, r.file)
    case Fail(f) => Fail(f)
    case Ok(text) => if 0 <= r.start <= r.end <= |text| then Ok(text[r.start..r.end]) else Fail(RangeOutOfBounds)
  }

  /** The write plan for the first `n` entries: one text for each anchored number. */
  function Writes(docs: seq<SourceDoc>, eps: seq<Entry>, n: nat): Result<map<int, string>>
    requires n <= |eps|
  {
    if n == 0 then Ok(map[])
    else match Writes(docs, eps, n - 1)
      case Fail(f) => Fail(f)
      case Ok(w) =>
        var e := eps[n - 1];
        if e.num.None? || e.status == Some(Unanchored) then Ok(w)
        else if e.range.None? then Fail(RangeMissing(e.num.value))
        else match Cut(docs, e.range.value)
          case Fail(f) => Fail(f)
          case Ok(text) => Ok(w[e.num.value := text])
  }

  /** `_reconcile_derived_files`: all or nothing; then every anchored number has its text, files
  of numbers outside the ledger and the remaining text are gone. */
  function Reconciled(docs: seq<SourceDoc>, p: Project): Result<Project> {
    match Writes(docs, p.episodes, |p.episodes|)
    case Fail(f) => Fail(f)
    case Ok(w) =>
      var files := p.files + w;
      Ok(p.(files := map n | n in files && (n < 0 || n in Numbers(p.episodes)) :: files[n], remaining := None))
  }

  // ---------------------------------------------------------------- replan: scope

  function AtLeast(eps: seq<Entry>, from: int): seq<Entry> {
    if eps == [] then []
    else
      var last := eps[|eps| - 1];
      AtLeast(eps[..|eps| - 1], from) + if last.num.Some? && last.num.value >= from then [last] else []
  }

  /** The entries from `from` on, in number order. */
  function Affected(eps: seq<Entry>, from: int): seq<Entry> {
    Sort(AtLeast(eps, from), NumKey)
  }

  /** One closed stretch of one source file. */
  type Slice = Range

  /** The slices covered by the first `n` affected entries: same-file neighbours must touch, and a
  file may not come back once left. */
  function Slices(affected: seq<Entry>, n: nat): Result<seq<Slice>>
    requires n <= |affected|
  {
    if n == 0 then Ok([])
    else match Slices(affected, n - 1)
      case Fail(f) => Fail(f)
      case Ok(slices) => AddRange(slices, NumKey(affected[n - 1]), affected[n - 1].range)
  }

  function AddRange(slices: seq<Slice>, num: int, range: Option<Range>): Result<seq<Slice>> {
    if range.None? then Fail(RangeMissing(num))
    else
      var r := range.value;
      if r.start >= r.end then Fail(RangeEmpty(num))
      else if slices != [] && slices[|slices| - 1].file == r.file then
        if r.start != slices[|slices| - 1].end then Fail(RangeDiscontinuous(num))
        else Ok(slices[|slices| - 1 := slices[|slices| - 1].(end := r.end)])
      else if exists i :: 0 <= i < |slices| && slices[i].file == r.file then Fail(SourcesInterleaved(num))
      else Ok(slices + [r])
  }

  /** `_replan_scope` */
  function Scope(affected: seq<Entry>, from: int): Result<seq<Slice>> {
    if affected == [] || NumKey(affected[0]) != from then Fail(NotInLedger)
    else if exists i :: 0 <= i < |affected| && affected[i].status == Some(Unanchored) then Fail(UnanchoredInRange)
    else Slices(affected, |affected|)
  }

  // ---------------------------------------------------------------- replan: snapshot

  datatype PlannedEpisode = PlannedEpisode(draft: Draft, range: Range)

  datatype ReplanJob = ReplanJob(from: int, affected: seq<Entry>, consumed: set<int>, planned: seq<PlannedEpisode>)

  datatype ReplanPrep = ReplanFailed(fault: Fault) | NeedsConfirmation(consumed: set<int>) | ReplanReady(job: ReplanJob)

  function ConsumedIn(affected: seq<Entry>): set<int> {
    set i | 0 <= i < |affected| && affected[i].status == Some(Consumed) :: NumKey(affected[i])
  }

  /** Every slice non-empty and within its source. */
  function SlicesFault(docs: seq<SourceDoc>, slices: seq<Slice>): Option<Fault> {
    if slices == [] then None
    else match TextOf(docs, slices[0].file)
      case Fail(f) => Some(f)
      case Ok(text) =>
        if 0 <= slices[0].start < slices[0].end <= |text| then SlicesFault(docs, slices[1..])
            else Some(RangeOutOfBounds)
  }

  function PairUp(drafts: seq<Draft>, ranges: seq<Range>): seq<PlannedEpisode>
    requires |drafts| == |ranges|
  {
    seq(|drafts|, i requires 0 <= i < |drafts| => PlannedEpisode(drafts[i], ranges[i]))
  }

  /** The new layout of the first `n` slices, each re-cut on its own from its own responses. */
  ghost function Recut(docs: seq<SourceDoc>, slices: seq<Slice>, responses: seq<seq<Response>>, n: nat,
                       ratio: Ratio): Result<seq<PlannedEpisode>>
    requires n <= |slices| == |responses|
  {
    if n == 0 then Ok([])
    else match Recut(docs, slices, responses, n - 1, ratio)
      case Fail(f) => Fail(f)
      case Ok(planned) =>
        var sl := slices[n - 1];
        match Cut(docs, sl)
        case Fail(f) => Fail(f)
        case Ok(window) =>
          match FirstAccepted(window, responses[n - 1], None, true, false, ratio)
          case Fail(f) => Fail(f)
          case Ok(batch) =>
            Ok(planned + PairUp(batch.drafts, Pieces(sl.file, sl.start, batch.ends)))
  }

  ghost function PreparedReplan(env: Env, p: Project, from: int, confirm: bool, responses: seq<seq<Response>>,
                                ratio: Ratio): ReplanPrep
  {
    var affected := Affected(Backfilled(env, p).episodes, from);
    match Scope(affected, from)
    case Fail(f) => ReplanFailed(f)
    case Ok(slices) =>
      var consumed := ConsumedIn(affected);
      if consumed != {} && !confirm then NeedsConfirmation(consumed)
      else if SlicesFault(env.docs, slices).Some? then ReplanFailed(SlicesFault(env.docs, slices).value)
      else if |responses| != |slices| then ReplanFailed(AttemptsExhausted)
      else match Recut(env.docs, slices, responses, |slices|, ratio)
        case Fail(f) => ReplanFailed(f)
        case Ok(planned) => ReplanReady(ReplanJob(from, affected, consumed, planned))
  }

  // ---------------------------------------------------------------- replan: commit

  /** What the conflict check compares: numbers and ranges, not states. */
  predicate SameCuts(a: seq<Entry>, b: seq<Entry>) {
    |a| == |b| && forall i :: 0 <= i < |a| ==> a[i].num == b[i].num && a[i].range == b[i].range
  }

  /** The status recorded for a number, the last entry winning. */
  function StatusOf(affected: seq<Entry>, num: int): Option<Status> {
    if affected == [] then None
    else
      var last := affected[|affected| - 1];
      if last.num == Some(num) then last.status else StatusOf(affected[..|affected| - 1], num)
  }

  /** Re-planned numbers whose old episode was consumed, or already stale, become stale. */
  function NewStatus(affected: seq<Entry>, num: int): Status {
    if StatusOf(affected, num) == Some(Consumed) || StatusOf(affected, num) == Some(Stale) then Stale else Planned
  }

  function ReplanEntries(affected: seq<Entry>, job: ReplanJob): seq<Entry> {
    seq(|job.planned|, i requires 0 <= i < |job.planned| =>
      FromDraft(job.planned[i].draft, job.from + i, job.planned[i].range, NewStatus(affected, job.from + i)))
  }

  /** The entries whose number is not among the affected ones. */
  function Kept(eps: seq<Entry>, nums: set<int>): seq<Entry> {
    if eps == [] then []
    else
      var last := eps[|eps| - 1];
      Kept(eps[..|eps| - 1], nums) + if last.num.Some? && last.num.value in nums then [] else [last]
  }

  function Replaced(p1: Project, affected: seq<Entry>, job: ReplanJob): Project {
    p1.(episodes := SortIfPossible(Kept(p1.episodes, Numbers(affected)) + ReplanEntries(affected, job)))
  }

  /** `_commit` of `replan` */
  function CommittedReplan(env: Env, p: Project, job: ReplanJob): Outcome {
    var p1 := Backfilled(env, p);
    var affected := Affected(p1.episodes, job.from);
    if Scope(affected, job.from).Fail? || !SameCuts(affected, job.affected) || !(ConsumedIn(affected) <= job.consumed)
    then Conflict
    else match Reconciled(env.docs, Replaced(p1, affected, job))
      case Fail(f) => Aborted(f)
      case Ok(p2) => Committed(p2, false)
  }
}
