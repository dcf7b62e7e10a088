/** Cancelling a generation task while its worker finishes it: guarded row updates, shielded from the
signal that interrupts their caller, and the drain that sweeps up after it. */
module TaskLifecycle {

  import opened Options

  type Id = string

  datatype Status = Queued | Running | Cancelling | Succeeded | Failed | Cancelled

  predicate Terminal(s: Status) {
    s.Succeeded? || s.Failed? || s.Cancelled?
  }

  datatype Update = MarkSucceeded | MarkFailed | MarkCancelled

  /** A guarded update of one row: the new status, and whether a row was affected. */
  function Apply(s: Status, u: Update): (Status, bool) {
    match u
    case MarkSucceeded => if s.Running? then (Succeeded, true) else (s, false)
    case MarkFailed => if s.Running? then (Failed, true) else (s, false)
    case MarkCancelled => if s.Queued? || s.Cancelling? || s.Running? then (Cancelled, true) else (s, false)
  }

  /** Where the worker is with a task. `Awaiting` is a shielded update, landed or not; its last flag
  says whether a cancellation is to be raised again afterwards. */
  datatype Stage =
    | Absent
    | Claimed
    | Preparing
    | Executing
    | Awaiting(update: Update, landed: Option<bool>, raises: bool)
    | Done(cancelled: bool)
    | Drained

  /** One task: its row, its worker stage, whether a cancel signal is waiting to be raised, and the
  updates that go on after their caller was interrupted. */
  datatype Task = Task(status: Status, stage: Stage, signalled: bool, loose: set<Update>)

  datatype Event =
    | CancelRequest(id: Id)
    | Signal(id: Id)
    | CascadeFail(id: Id)
    | Claim(id: Id)
    | Unsupported(id: Id)
    | Requeue(id: Id)
    | Dispatch(id: Id)
    | Begin(id: Id)
    | Finish(id: Id, ok: bool)
    | Land(id: Id)
    | LandLoose(id: Id, update: Update)
    | Resume(id: Id)
    | Interrupt(id: Id)
    | Drain(id: Id)
    | OrphanScan(id: Id, resumable: bool)

  /** The future is in the slot table and not done. */
  predicate Live(t: Task) {
    t.stage.Preparing? || t.stage.Executing? || t.stage.Awaiting?
  }

  function Await(t: Task, u: Update, raises: bool): Task {
    t.(stage := Awaiting(u, None, raises))
  }

  /** `_process_task` woken with the number of rows its update affected. */
  function Resumed(t: Task, u: Update, rows: bool, raises: bool): Task {
    if u.MarkCancelled? then t.(stage := Done(raises))
    else if rows then t.(stage := Done(false))
    else Await(t, MarkCancelled, false)
  }

  /** `_process_task` woken with a cancellation; an update under way goes on by itself. */
  function Interrupted(t: Task): Task
    requires Live(t)
  {
    var u := t.(signalled := false);
    match t.stage
    case Preparing => u.(stage := Done(true))
    case Executing => Await(u, MarkCancelled, true)
    case Awaiting(update, landed, _) =>
      var v := if landed.None? then u.(loose := u.loose + {update}) else u;
      if update.MarkSucceeded? then Await(v, MarkCancelled, true) else v.(stage := Done(true))
  }

  /** One event on its task; an event that is not possible there changes nothing. */
  function StepTask(t: Task, e: Event): Task {
    match e
    case CancelRequest(_) =>
      if t.status.Queued? then t.(status := Cancelled)
      else if t.status.Running? then t.(status := Cancelling)
      else t
    case Signal(_) => if Live(t) then t.(signalled := true) else t
    case CascadeFail(_) => if t.status.Queued? then t.(status := Failed) else t
    case Claim(_) => if t.status.Queued? && t.stage.Absent? then t.(status := Running, stage := Claimed) else t
    case Unsupported(_) => if t.stage.Claimed? then t.(status := Apply(t.status, MarkFailed).0, stage := Absent) else t
    case Requeue(_) =>
      if t.stage.Claimed? then t.(status := if t.status.Running? then Queued else t.status, stage := Absent) else t
    case Dispatch(_) => if t.stage.Claimed? then t.(stage := Preparing) else t
    case Begin(_) => if t.stage.Preparing? then t.(stage := Executing) else t
    case Finish(_, ok) =>
      if t.stage.Executing? then Await(t, if ok then MarkSucceeded else MarkFailed, false) else t
    case Land(_) =>
      if t.stage.Awaiting? && t.stage.landed.None?
      then
        var r := Apply(t.status, t.stage.update);
        t.(status := r.0, stage := t.stage.(landed := Some(r.1)))
      else t
    case LandLoose(_, u) =>
      if u in t.loose then t.(status := Apply(t.status, u).0, loose := t.loose - {u}) else t
    case Resume(_) =>
      if t.stage.Awaiting? && t.stage.landed.Some?
      then Resumed(t, t.stage.update, t.stage.landed.value, t.stage.raises)
      else t
    case Interrupt(_) => if Live(t) && t.signalled then Interrupted(t) else t
    case Drain(_) =>
      if !t.stage.Done? then t
      else if t.stage.cancelled then t.(status := Apply(t.status, MarkCancelled).0, stage := Drained)
      else t.(stage := Drained)
    case OrphanScan(_, resumable) =>
      if !t.stage.Absent? && !t.stage.Drained? then t
      else if t.status.Cancelling? then t.(status := Cancelled)
      else if t.status.Running? && !resumable then t.(status := Failed)
      else t
  }

  type System = map<Id, Task>

  function Step(s: System, e: Event): System {
    if e.id in s then s[e.id := StepTask(s[e.id], e)] else s
  }

  /** The worker has just started: rows in any status, nothing in memory. */
  ghost predicate Initial(s: System) {
    forall id :: id in s ==> s[id].stage.Absent? && !s[id].signalled && s[id].loose == {}
  }

  /** The system after the first `n` events. Every sequence of events is a run. */
  function Run(s: System, events: seq<Event>, n: nat): (r: System)
    requires n <= |events|
    ensures r.Keys == s.Keys
  {
    if n == 0 then s else Step(Run(s, events, n - 1), events[n - 1])
  }

  // ---------------------------------------------------------------- one terminal status

  /** What no event can undo. */
  predicate Leads(from: Status, to: Status) {
    && (Terminal(from) ==> to == from)
    && (from.Cancelling? ==> to.Cancelling? || to.Cancelled?)
    && (to.Succeeded? ==> from.Succeeded? || from.Running?)
  }

  lemma StepLeads(t: Task, e: Event)
    ensures Leads(t.status, StepTask(t, e).status)
  {
  }

  /** In every run: a terminal status is never left, and a task seen cancelling never ends succeeded
  or failed. */
  lemma {:induction false} OneTerminalStatus(s: System, events: seq<Event>, i: nat, j: nat, id: Id)
    requires i <= j <= |events| && id in s
    ensures var a, b := Run(s, events, i)[id].status, Run(s, events, j)[id].status;
            && (Terminal(a) ==> b == a)
            && (a.Cancelling? ==> b.Cancelling? || b.Cancelled?)
  {
    hide StepTask;
    if i < j {
      OneTerminalStatus(s, events, i, j - 1, id);
      StepLeads(Run(s, events, j - 1)[id], events[j - 1]);
    }
  }

  // ---------------------------------------------------------------- drained means terminal

  predicate Sound(t: Task) {
    match t.stage
    case Absent => t.loose == {}
    case Claimed => t.loose == {} && !t.status.Queued?
    case Preparing => t.loose == {} && !t.status.Queued?
    case Executing => t.loose == {} && !t.status.Queued?
    case Awaiting(u, landed, _) =>
      && !t.status.Queued?
      && (landed == Some(true) ==> Terminal(t.status))
      && (landed == Some(false) ==> !t.status.Running?)
      && (landed.Some? && u.MarkCancelled? ==> Terminal(t.status))
    case Done(cancelled) => !t.status.Queued? && (!cancelled ==> Terminal(t.status))
    case Drained => Terminal(t.status)
  }

  lemma StepSound(t: Task, e: Event)
    requires Sound(t)
    ensures Sound(StepTask(t, e))
  {
  }

  lemma {:induction false} RunSound(s: System, events: seq<Event>, n: nat, id: Id)
    requires Initial(s) && n <= |events| && id in s
    ensures Sound(Run(s, events, n)[id])
  {
    hide StepTask;
    if n > 0 {
      RunSound(s, events, n - 1, id);
      StepSound(Run(s, events, n - 1)[id], events[n - 1]);
    }
  }

  /** In every run, whatever the interleaving: a drained task is terminal for good, and so is, even
  before the drain, one whose future ended without a cancellation. */
  lemma DrainedIsTerminal(s: System, events: seq<Event>, i: nat, j: nat, id: Id)
    requires Initial(s) && i <= j <= |events| && id in s
    requires var t := Run(s, events, i)[id]; t.stage.Drained? || t.stage == Done(false)
    ensures Terminal(Run(s, events, i)[id].status) && Run(s, events, j)[id].status == Run(s, events, i)[id].status
  {
    hide StepTask;
    RunSound(s, events, i, id);
    OneTerminalStatus(s, events, i, j, id);
  }

  /** A cancel request that finds its task queued or running wins, whatever else happens: that task never
  succeeds or fails afterwards, it is cancelled at once if it was queued, and when the worker is done with it. */
  lemma CancelPrevails(s: System, events: seq<Event>, k: nat, n: nat, id: Id)
    requires Initial(s) && k < n <= |events| && id in s && events[k] == CancelRequest(id)
    requires var was := Run(s, events, k)[id].status; was.Queued? || was.Running?
    ensures var t := Run(s, events, n)[id];
            && (t.status.Cancelling? || t.status.Cancelled?)
            && (Run(s, events, k)[id].status.Queued? || t.stage.Drained? || t.stage == Done(false) ==>
                  t.status.Cancelled?)
  {
    assert Run(s, events, k + 1)[id] == StepTask(Run(s, events, k)[id], events[k]);
    hide StepTask;
    OneTerminalStatus(s, events, k + 1, n, id);
    RunSound(s, events, n, id);
  }

  /** Signalled while the executor runs: the cancellation is on the row before the future ends, not only after
  the drain. */
  lemma SignalMarksRow(t: Task, id: Id)
    requires t.stage.Executing? && t.status.Running?
    ensures var t1 := StepTask(StepTask(t, CancelRequest(id)), Signal(id));
            var t2 := StepTask(StepTask(t1, Interrupt(id)), Land(id));
            && t2.status.Cancelled? && Live(t2) && StepTask(t2, Resume(id)).stage == Done(true)
  {
  }

  /** A success that was on its way when the signal came and the cancellation that follows it: whichever lands
  first is the outcome. */
  lemma FirstToLandWins(t: Task, id: Id)
    requires t.stage == Awaiting(MarkSucceeded, None, false) && t.status.Running? && t.signalled
    ensures var t1 := StepTask(t, Interrupt(id));
            && StepTask(StepTask(t1, LandLoose(id, MarkSucceeded)), Land(id)).status.Succeeded?
            && StepTask(StepTask(t1, Land(id)), LandLoose(id, MarkSucceeded)).status.Cancelled?
  {
  }

  /** Put back in the queue and claimed again is as before. */
  lemma RequeueThenClaim(t: Task, id: Id)
    requires t.stage.Claimed? && t.status.Running?
    ensures StepTask(StepTask(t, Requeue(id)), Claim(id)) == t
  {
  }

  /** A scan settles every orphan that cannot be resumed: what was being cancelled is cancelled, what was running
  fails, and everything else is left as it is. */
  lemma ScanSettles(s: System, events: seq<Event>, k: nat, id: Id, resumable: bool)
    requires k < |events| && id in s && events[k] == OrphanScan(id, resumable)
    requires var g := Run(s, events, k)[id].stage; g.Absent? || g.Drained?
    ensures var was, now := Run(s, events, k)[id].status, Run(s, events, k + 1)[id].status;
            && (now.Queued? || Terminal(now) || (now.Running? && resumable))
            && (now != was ==> (was.Cancelling? && now.Cancelled?) || (was.Running? && now.Failed?))
  {
  }

  /** A guarded update reports a row exactly if it changes it; marking cancelled ends whatever is not over,
  the other two only what is running. */
  lemma UpdatesAreGuarded(s: Status, u: Update)
    ensures var (now, affected) := Apply(s, u);
            && (affected <==> now != s)
            && (u.MarkCancelled? ==> now == if Terminal(s) then s else Cancelled)
            && (!u.MarkCancelled? ==> (affected <==> s.Running?) && (affected ==> Terminal(now) && !now.Cancelled?))
  {
  }

  /** A failing dependency fails its task for good if that is still queued, and else does nothing. */
  lemma CascadeFailsQueued(s: System, events: seq<Event>, k: nat, n: nat, id: Id)
    requires k < n <= |events| && id in s && events[k] == CascadeFail(id)
    ensures if Run(s, events, k)[id].status.Queued? then Run(s, events, n)[id].status.Failed?
            else Run(s, events, k + 1)[id] == Run(s, events, k)[id]
  {
    OneTerminalStatus(s, events, k + 1, n, id);
  }

  // ---------------------------------------------------------------- the worker gets there

  /** The worker's own steps on a task. */
  predicate Own(e: Event) {
    e.Begin? || e.Finish? || e.Land? || e.Resume? || e.Interrupt? || e.Drain?
  }

  function Rank(g: Stage): nat {
    match g
    case Absent => 0
    case Drained => 0
    case Done(_) => 1
    case Awaiting(u, landed, _) => (if u.MarkCancelled? then 2 else 4) + if landed.None? then 1 else 0
    case Executing => 6
    case Preparing => 7
    case Claimed => 8
  }

  lemma RankFalls(t: Task, e: Event)
    ensures Own(e) && StepTask(t, e) != t ==> Rank(StepTask(t, e).stage) < Rank(t.stage)
    ensures !Own(e) && (Live(t) || t.stage.Done?) ==> StepTask(t, e).stage == t.stage
  {
  }

  /** A dispatched task always has a step of its own to take, and every such step brings it nearer to
  the drain, at most seven in all; signals and cancellations can not hold it up. */
  lemma WorkerAdvances(t: Task, e: Event)
    ensures Own(e) && StepTask(t, e) != t ==> Rank(StepTask(t, e).stage) < Rank(t.stage)
    ensures !Own(e) && (Live(t) || t.stage.Done?) ==> StepTask(t, e).stage == t.stage
    ensures Live(t) || t.stage.Done? ==>
              exists own :: Own(own) && own.id == e.id && StepTask(t, own) != t
  {
    RankFalls(t, e);
    match t.stage
    case Preparing => assert StepTask(t, Begin(e.id)) != t;
    case Executing => assert StepTask(t, Finish(e.id, true)) != t;
    case Awaiting(_, landed, _) =>
      if landed.None? {
        assert StepTask(t, Land(e.id)) != t;
      } else {
        assert StepTask(t, Resume(e.id)) != t;
      }
    case Done(_) => assert StepTask(t, Drain(e.id)) != t;
    case _ =>
  }

  // ---------------------------------------------------------------- what is left behind

  /** Cancelling, with nobody to finish the cancellation. */
  predicate Stranded(t: Task) {
    t.status.Cancelling? && t.stage.Absent?
  }

  predicate ClaimLoopStep(e: Event) {
    e.Unsupported? || e.Requeue? || e.Dispatch?
  }

  lemma ClaimedStep(t: Task, e: Event)
    requires t.stage.Claimed? && Sound(t) && !ClaimLoopStep(e)
    ensures StepTask(t, e) == if e.CancelRequest? && t.status.Running? then t.(status := Cancelling) else t
  {
  }

  lemma {:induction false} WhileClaimed(s: System, events: seq<Event>, c: nat, n: nat, id: Id)
    requires Initial(s) && c < n <= |events| && id in s && events[c] == Claim(id)
    requires var t := Run(s, events, c)[id]; t.status.Queued? && t.stage.Absent?
    requires forall k :: c < k < n && ClaimLoopStep(events[k]) ==> events[k].id != id
    ensures var t := Run(s, events, n)[id];
            && t.stage.Claimed?
            && t.status == (if CancelRequest(id) in events[c + 1..n] then Cancelling else Running)
  {
    if n == c + 1 {
      assert CancelRequest(id) !in events[c + 1..n];
    } else {
      hide StepTask, Sound;
      WhileClaimed(s, events, c, n - 1, id);
      RunSound(s, events, n - 1, id);
      if events[n - 1].id == id {
        ClaimedStep(Run(s, events, n - 1)[id], events[n - 1]);
      }
      OneMoreSeen(events, c + 1, n, CancelRequest(id));
    }
  }

  lemma OneMoreSeen(events: seq<Event>, i: nat, n: nat, e: Event)
    requires i < n <= |events|
    ensures e in events[i..n] <==> e in events[i..n - 1] || e == events[n - 1]
  {
    assert events[i..n] == events[i..n - 1] + [events[n - 1]];
  }

  /** The claim loop ignores how many rows its failing or re-queuing update affected: its row is left
  stranded exactly when a cancel request came between its claim and that update. */
  lemma StrandedIff(s: System, events: seq<Event>, c: nat, n: nat, id: Id)
    requires Initial(s) && c < n < |events| && id in s && events[c] == Claim(id)
    requires var t := Run(s, events, c)[id]; t.status.Queued? && t.stage.Absent?
    requires forall k :: c < k < n && ClaimLoopStep(events[k]) ==> events[k].id != id
    requires events[n] == Unsupported(id) || events[n] == Requeue(id)
    ensures Stranded(Run(s, events, n + 1)[id]) <==> CancelRequest(id) in events[c + 1..n]
  {
    WhileClaimed(s, events, c, n, id);
  }

  /** Claimed, cancelled, put back in the queue: the request finds nobody and the queue keeps nothing. */
  lemma CancelStrands(id: Id)
    ensures var s := map[id := Task(Queued, Absent, false, {})];
            Initial(s) && Stranded(Run(s, [Claim(id), CancelRequest(id), Requeue(id)], 3)[id])
  {
    var s := map[id := Task(Queued, Absent, false, {})];
    var events := [Claim(id), CancelRequest(id), Requeue(id)];
    assert Run(s, events, 0) == s && events[1..2] == [CancelRequest(id)];
    StrandedIff(s, events, 0, 2, id);
  }

  lemma StrandedStep(t: Task, e: Event)
    requires Stranded(t) && Sound(t)
    ensures StepTask(t, e) == if e.OrphanScan? then t.(status := Cancelled) else t
  {
  }

  /** A stranded task stays so until orphans are scanned again, which cancels it. */
  lemma {:induction false} StrandedUntilScan(s: System, events: seq<Event>, i: nat, j: nat, id: Id)
    requires Initial(s) && i <= j <= |events| && id in s && Stranded(Run(s, events, i)[id])
    ensures if exists k :: i <= k < j && events[k].OrphanScan? && events[k].id == id
            then Run(s, events, j)[id].status.Cancelled?
            else Stranded(Run(s, events, j)[id])
  {
    hide StepTask;
    if i < j {
      StrandedUntilScan(s, events, i, j - 1, id);
      RunSound(s, events, j - 1, id);
      if exists k :: i <= k < j - 1 && events[k].OrphanScan? && events[k].id == id {
        OneTerminalStatus(s, events, j - 1, j, id);
      } else {
        StrandedStep(Run(s, events, j - 1)[id], events[j - 1]);
      }
    }
  }

  /** In every run, a task that is neither queued nor terminal is being worked on, is stranded, or is
  an orphan found running at the start. */
  lemma {:induction false} NobodyForgotten(s: System, events: seq<Event>, n: nat, id: Id)
    requires Initial(s) && n <= |events| && id in s
    ensures var t := Run(s, events, n)[id];
            || t.status.Queued? || Terminal(t.status)
            || t.stage.Claimed? || Live(t) || t.stage == Done(true) || Stranded(t)
            || (t.status.Running? && t.stage.Absent? && s[id].status.Running?)
  {
    hide StepTask;
    if n > 0 {
      NobodyForgotten(s, events, n - 1, id);
      RunSound(s, events, n - 1, id);
      StepForgetsNobody(Run(s, events, n - 1)[id], events[n - 1]);
    }
  }

  lemma StepForgetsNobody(t: Task, e: Event)
    requires Sound(t)
    ensures var u := StepTask(t, e);
            || u.status.Queued? || Terminal(u.status)
            || u.stage.Claimed? || Live(u) || u.stage == Done(true) || Stranded(u)
            || (u == t && t.status.Running? && t.stage.Absent?)
  {
  }

  // ---------------------------------------------------------------- without a cancellation

  /** Nobody asks for a cancellation among the first `n` events. */
  ghost predicate Undisturbed(events: seq<Event>, n: nat, id: Id)
    requires n <= |events|
  {
    forall k :: 0 <= k < n && (events[k].CancelRequest? || events[k].Signal?) ==> events[k].id != id
  }

  /** The row follows the worker: running until the executor's outcome has landed, then that outcome. */
  predicate Follows(t: Task) {
    && !t.signalled && t.loose == {} && !t.status.Cancelling? && !t.status.Cancelled?
    && match t.stage
       case Absent => !t.status.Running?
       case Awaiting(u, landed, raises) =>
         && !u.MarkCancelled? && !raises && landed != Some(false)
         && t.status == (if landed.None? then Running else if u.MarkSucceeded? then Succeeded else Failed)
       case Done(cancelled) => !cancelled && (t.status.Succeeded? || t.status.Failed?)
       case Drained => t.status.Succeeded? || t.status.Failed?
       case _ => t.status.Running?
  }

  /** The outcome a row or a pending update stands for. */
  predicate Claims(t: Task, ok: bool) {
    if ok then t.status.Succeeded? || (t.stage.Awaiting? && t.stage.update.MarkSucceeded?)
    else (t.stage.Awaiting? && t.stage.update.MarkFailed?) || (t.status.Failed? && (t.stage.Done? || t.stage.Drained?))
  }

  lemma StepFollows(t: Task, e: Event)
    requires Follows(t) && !e.CancelRequest? && !e.Signal?
    ensures Follows(StepTask(t, e))
    ensures forall ok :: Claims(StepTask(t, e), ok) ==> Claims(t, ok) || e == Finish(e.id, ok)
  {
  }

  /** A queued job nobody cancels ends with the executor's own outcome, and is never cancelled. */
  lemma {:induction false} ExecutorDecides(s: System, events: seq<Event>, n: nat, id: Id)
    requires Initial(s) && n <= |events| && id in s && s[id].status.Queued? && Undisturbed(events, n, id)
    ensures var t := Run(s, events, n)[id];
            && Follows(t)
            && (t.stage.Done? || t.stage.Drained? ==> Finish(id, t.status.Succeeded?) in events[..n])
            && forall ok :: Claims(t, ok) ==> Finish(id, ok) in events[..n]
  {
    hide StepTask, Follows, Claims;
    if n > 0 {
      ExecutorDecides(s, events, n - 1, id);
      assert events[..n] == events[..n - 1] + [events[n - 1]];
      if events[n - 1].id == id {
        StepFollows(Run(s, events, n - 1)[id], events[n - 1]);
      }
    } else {
      StartFollows(s[id]);
    }
    EndClaims(Run(s, events, n)[id]);
  }

  lemma StartFollows(t: Task)
    requires t.status.Queued? && t.stage.Absent? && !t.signalled && t.loose == {}
    ensures Follows(t) && forall ok :: !Claims(t, ok)
  {
  }

  lemma EndClaims(t: Task)
    requires Follows(t)
    ensures t.stage.Done? || t.stage.Drained? ==> Claims(t, t.status.Succeeded?)
  {
  }
}
