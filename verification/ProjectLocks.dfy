/** Threads reading, changing and writing project.json and the scripts under two kinds of file locks:
one for each script, one for the project, always taken in that order. */
module ProjectLocks {

  import opened Options

  type Tid = nat

  type File = string

  type Episode = int

  /** The part of project.json the protocol looks at, and everything else in it. */
  datatype Project = Project(bindings: map<Episode, File>, rest: int)

  datatype Script = Script(episode: Option<Episode>, body: int)

  /** What a thread was asked to do. */
  datatype Op =
    | UpdateProject
    | SaveProject
    | LockedScript(file: File)
    | SaveScript(file: File)
    | EpisodeScript(episode: Episode)
    | SyncEpisode(file: File)

  /** Where it has got to, and the copies it holds. */
  datatype Stage =
    | Start
    | InProject(read: Option<Project>, newProject: Option<Project>)
    | Peeking
    | Chosen(file: File)
    | WantProject(file: File)
    | InBoth(file: File, project: Option<Project>, script: Option<Script>, newScript: Option<Script>, written: bool)
    | InScript(file: File, script: Option<Script>, newScript: Option<Script>)
    | Written(file: File)
    | WantSync(file: File, saved: Script)
    | Syncing(file: File, saved: Script, project: Option<Project>)
    | Noted(file: File, seen: Script)
    | Catching(file: File, seen: Script, project: Option<Project>)
    | Finished

  datatype Thread = Thread(op: Op, stage: Stage)

  datatype State = State(
    project: Project, scripts: map<File, Script>,
    projectLock: Option<Tid>, scriptLocks: map<File, Tid>, threads: map<Tid, Thread>)

  /** The next thing a thread does: its next statement, the caller's change to the copy it was given,
  or an exception. */
  datatype Move = Go | ChangeProject(p: Project) | ChangeScript(x: Script) | Raise

  predicate HoldsProject(g: Stage) {
    g.InProject? || g.Peeking? || g.InBoth? || g.Syncing? || g.Catching?
  }

  function HeldScript(g: Stage): Option<File> {
    match g
    case WantProject(f) => Some(f)
    case InBoth(f, _, _, _, _) => Some(f)
    case InScript(f, _, _) => Some(f)
    case Written(f) => Some(f)
    case WantSync(f, _) => Some(f)
    case Syncing(f, _, _) => Some(f)
    case _ => None
  }

  /** The lock a thread is about to take. */
  datatype Want = Nothing | TheProject | TheScript(file: File)

  function Wants(t: Thread): Want {
    match t.stage
    case Start =>
      (match t.op
       case LockedScript(f) => TheScript(f)
       case SaveScript(f) => TheScript(f)
       case SyncEpisode(_) => Nothing
       case _ => TheProject)
    case Chosen(f) => TheScript(f)
    case WantProject(_) => TheProject
    case WantSync(_, _) => TheProject
    case Noted(_, _) => TheProject
    case _ => Nothing
  }

  /** The thread it has to wait for. */
  function Holder(s: State, w: Want): Option<Tid> {
    match w
    case Nothing => None
    case TheProject => s.projectLock
    case TheScript(f) => if f in s.scriptLocks then Some(s.scriptLocks[f]) else None
  }

  function At(s: State, t: Tid, g: Stage): State
    requires t in s.threads
  {
    s.(threads := s.threads[t := s.threads[t].(stage := g)])
  }

  function Locked(s: State, t: Tid, w: Want): State {
    match w
    case Nothing => s
    case TheProject => s.(projectLock := Some(t))
    case TheScript(f) => s.(scriptLocks := s.scriptLocks[f := t])
  }

  /** Leaving every `with` block: the locks go, normally or with an exception. */
  function Exit(s: State, t: Tid): State
    requires t in s.threads
  {
    var g := s.threads[t].stage;
    var u := if HoldsProject(g) then s.(projectLock := None) else s;
    At(if HeldScript(g).Some? then u.(scriptLocks := u.scriptLocks - {HeldScript(g).value}) else u, t, Finished)
  }

  /** `_apply_episode_sync`, as far as bindings go. */
  function Synced(p: Project, x: Script, f: File): Project {
    if x.episode.Some? then p.(bindings := p.bindings[x.episode.value := f]) else p
  }

  predicate Bound(p: Project, op: Op, f: File) {
    op.EpisodeScript? && op.episode in p.bindings && p.bindings[op.episode] == f
  }

  /** The stage after taking the wanted lock. */
  function Entered(t: Thread): Stage
    requires !Wants(t).Nothing?
  {
    match t.stage
    case Start =>
      (match t.op
       case LockedScript(f) => InScript(f, None, None)
       case SaveScript(f) => InScript(f, None, None)
       case EpisodeScript(_) => Peeking
       case _ => InProject(None, None))
    case Chosen(f) => WantProject(f)
    case WantProject(f) => InBoth(f, None, None, None, false)
    case WantSync(f, x) => Syncing(f, x, None)
    case Noted(f, x) => Catching(f, x, None)
  }

  /** `update_project` and `save_project`, holding the project lock. */
  function InsideProject(s: State, t: Tid): State
    requires t in s.threads && s.threads[t].stage.InProject?
  {
    var g := s.threads[t].stage;
    if s.threads[t].op.UpdateProject? && g.read.None? then At(s, t, InProject(Some(s.project), g.newProject))
    else if g.newProject.Some? then Exit(s.(project := g.newProject.value), t)
    else s
  }

  /** The first look at project.json, which picks the script to lock. */
  function Peek(s: State, t: Tid): State
    requires t in s.threads
  {
    var op := s.threads[t].op;
    if op.EpisodeScript? && op.episode in s.project.bindings
    then At(s.(projectLock := None), t, Chosen(s.project.bindings[op.episode]))
    else Exit(s, t)
  }

  /** `locked_episode_script`, holding both locks. */
  function InsideBoth(s: State, t: Tid): State
    requires t in s.threads && s.threads[t].stage.InBoth?
  {
    var g := s.threads[t].stage;
    if g.project.None? then
      if Bound(s.project, s.threads[t].op, g.file) then At(s, t, InBoth(g.file, Some(s.project), None, None, false))
          else Exit(s, t)
    else if g.script.None? then
      if g.file in s.scripts then At(s, t, InBoth(g.file, g.project, Some(s.scripts[g.file]), None, false))
          else Exit(s, t)
    else if g.newScript.None? then s
    else if !g.written then At(s.(scripts := s.scripts[g.file := g.newScript.value]), t,
        InBoth(g.file, g.project, g.script, g.newScript, true))
    else Exit(s.(project := Synced(g.project.value, g.newScript.value, g.file)), t)
  }

  /** `locked_script`, or `save_script` without the read, holding the script lock. */
  function InsideScript(s: State, t: Tid): State
    requires t in s.threads && s.threads[t].stage.InScript?
  {
    var g := s.threads[t].stage;
    if g.script.None? && !s.threads[t].op.SaveScript? then
      if g.file in s.scripts then At(s, t, InScript(g.file, Some(s.scripts[g.file]), None)) else Exit(s, t)
    else if g.newScript.None? then s
    else
      var u := s.(scripts := s.scripts[g.file := g.newScript.value]);
      if g.newScript.value.episode.Some? then At(u, t, Written(g.file)) else Exit(u, t)
  }

  /** The sync of project.json at the end of `locked_script`, holding both locks. */
  function InsideSync(s: State, t: Tid): State
    requires t in s.threads && s.threads[t].stage.Syncing?
  {
    var g := s.threads[t].stage;
    if g.project.None? then At(s, t, Syncing(g.file, g.saved, Some(s.project)))
    else Exit(s.(project := Synced(g.project.value, g.saved, g.file)), t)
  }

  /** `sync_episode_from_script` called without a script lock: it reads the script before it takes the
  project lock. */
  function Note(s: State, t: Tid): State
    requires t in s.threads
  {
    var op := s.threads[t].op;
    if op.SyncEpisode? && op.file in s.scripts then At(s, t, Noted(op.file, s.scripts[op.file])) else Exit(s, t)
  }

  function InsideCatching(s: State, t: Tid): State
    requires t in s.threads && s.threads[t].stage.Catching?
  {
    var g := s.threads[t].stage;
    if g.project.None? then At(s, t, Catching(g.file, g.seen, Some(s.project)))
    else Exit(s.(project := Synced(g.project.value, g.seen, g.file)), t)
  }

  /** One statement of a thread that waits for no lock. */
  function Inside(s: State, t: Tid): State
    requires t in s.threads
  {
    match s.threads[t].stage
    case InProject(_, _) => InsideProject(s, t)
    case Peeking => Peek(s, t)
    case InBoth(_, _, _, _, _) => InsideBoth(s, t)
    case InScript(_, _, _) => InsideScript(s, t)
    case Written(f) => if f in s.scripts then At(s, t, WantSync(f, s.scripts[f])) else Exit(s, t)
    case Syncing(_, _, _) => InsideSync(s, t)
    case Start => Note(s, t)
    case Catching(_, _, _) => InsideCatching(s, t)
    case _ => s
  }

  /** The caller's code between the read and the write. */
  function Changed(s: State, t: Tid, m: Move): State
    requires t in s.threads
  {
    match (s.threads[t].stage, m)
    case (InProject(read, None), ChangeProject(p)) =>
      if read.Some? || s.threads[t].op.SaveProject? then At(s, t, InProject(read, Some(p))) else s
    case (InBoth(f, project, Some(x), None, false), ChangeScript(y)) => At(s, t,
        InBoth(f, project, Some(x), Some(y), false))
    case (InScript(f, x, None), ChangeScript(y)) =>
      if x.Some? || s.threads[t].op.SaveScript? then At(s, t, InScript(f, x, Some(y))) else s
    case _ => s
  }

  /** One move of one thread; a thread waiting for a lock that is held does not move. */
  function Step(s: State, t: Tid, m: Move): State {
    if t !in s.threads || s.threads[t].stage.Finished? then s
    else
      var w := Wants(s.threads[t]);
      if !w.Nothing? then
        if m.Go? && Holder(s, w).None? then At(Locked(s, t, w), t, Entered(s.threads[t])) else s
      else if m.Go? then Inside(s, t)
      else if m.Raise? then Exit(s, t)
      else Changed(s, t, m)
  }

  ghost predicate Initial(s: State) {
    s.projectLock.None? && s.scriptLocks == map[] && forall t :: t in s.threads ==> s.threads[t].stage.Start?
  }

  /** The state after the first `n` moves, for any threads, in any interleaving. */
  function Run(s: State, moves: seq<(Tid, Move)>, n: nat): State
    requires n <= |moves|
  {
    if n == 0 then s else Step(Run(s, moves, n - 1), moves[n - 1].0, moves[n - 1].1)
  }

  // ---------------------------------------------------------------- the invariant

  /** Every lock is held by exactly the thread inside it. */
  ghost predicate Exclusive(s: State) {
    && (s.projectLock.Some? ==> s.projectLock.value in s.threads && HoldsProject(s.threads[s.projectLock.value].stage))
    && (forall t :: t in s.threads && HoldsProject(s.threads[t].stage) ==> s.projectLock == Some(t))
    && (forall f :: f in s.scriptLocks ==>
          s.scriptLocks[f] in s.threads && HeldScript(s.threads[s.scriptLocks[f]].stage) == Some(f))
    && (forall t :: t in s.threads && HeldScript(s.threads[t].stage).Some? ==>
          var f := HeldScript(s.threads[t].stage).value; f in s.scriptLocks && s.scriptLocks[f] == t)
  }

  /** What a thread has read is what is still on disk. */
  predicate Current(project: Project, scripts: map<File, Script>, t: Thread) {
    match t.stage
    case InProject(read, newProject) =>
      && (t.op.UpdateProject? || t.op.SaveProject?)
      && (read.Some? ==> read.value == project)
      && (newProject.Some? && t.op.UpdateProject? ==> read.Some?)
    case InBoth(f, p, x, y, written) =>
      && t.op.EpisodeScript?
      && (p.Some? ==> p.value == project && Bound(project, t.op, f))
      && (x.Some? ==> p.Some?) && (y.Some? ==> x.Some?) && (written ==> y.Some?)
      && (x.Some? ==> f in scripts && scripts[f] == if written then y.value else x.value)
    case InScript(f, x, y) =>
      && (t.op == LockedScript(f) || t.op == SaveScript(f))
      && (x.Some? ==> f in scripts && scripts[f] == x.value) && (y.Some? && t.op.LockedScript? ==> x.Some?)
    case Written(f) => (t.op == LockedScript(f) || t.op == SaveScript(f)) && f in scripts
    case WantSync(f, x) => (t.op == LockedScript(f) || t.op == SaveScript(f)) && f in scripts && scripts[f] == x
    case Syncing(f, x, p) =>
      && (t.op == LockedScript(f) || t.op == SaveScript(f))
      && f in scripts && scripts[f] == x && (p.Some? ==> p.value == project)
    case Noted(f, _) => t.op == SyncEpisode(f)
    case Catching(f, _, p) => t.op == SyncEpisode(f) && (p.Some? ==> p.value == project)
    case Peeking => t.op.EpisodeScript?
    case Chosen(_) => t.op.EpisodeScript?
    case WantProject(_) => t.op.EpisodeScript?
    case _ => true
  }

  ghost predicate Inv(s: State) {
    Exclusive(s) && forall t :: t in s.threads ==> Current(s.project, s.scripts, s.threads[t])
  }

  // ---------------------------------------------------------------- locks

  /** A move that leaves `t` at `g` and changes the locks accordingly: less what `t` lets go of, plus
  what it takes. */
  predicate LocksFollow(s: State, t: Tid, g: Stage, s': State)
    requires t in s.threads
  {
    var was, now := HeldScript(s.threads[t].stage), HeldScript(g);
    && s'.threads == s.threads[t := s.threads[t].(stage := g)]
    && s'.projectLock == (if HoldsProject(g) then Some(t) else if s.projectLock == Some(t) then None else s.projectLock)
    && (HoldsProject(g) ==> s.projectLock.None? || s.projectLock == Some(t))
    && (if now == was then s'.scriptLocks == s.scriptLocks
        else if was.Some? then now.None? && s'.scriptLocks == s.scriptLocks - {was.value}
        else now.value !in s.scriptLocks && s'.scriptLocks == s.scriptLocks[now.value := t])
  }

  lemma FollowedExclusive(s: State, t: Tid, g: Stage, s': State)
    requires Exclusive(s) && t in s.threads && LocksFollow(s, t, g, s')
    ensures Exclusive(s')
  {
    hide HoldsProject, HeldScript;
  }

  lemma StepFollows(s: State, t: Tid, m: Move)
    requires Exclusive(s)
    ensures var s' := Step(s, t, m);
            s' == s || (t in s.threads && t in s'.threads && LocksFollow(s, t, s'.threads[t].stage, s'))
  {
    hide Exclusive, LocksFollow, Inside, Changed, Entered, Exit, Step;
    if t in s.threads {
      HoldsMeans(s, t);
      StayFollows(s, t);
      TakeFollows(s, t);
      ExitFollows(s, t, s);
      ChangedFollows(s, t, m);
      InsideFollows(s, t);
      StepIsOne(s, t, m);
    } else {
      NoSuchThread(s, t, m);
    }
  }

  lemma NoSuchThread(s: State, t: Tid, m: Move)
    requires t !in s.threads
    ensures Step(s, t, m) == s
  {
  }

  lemma StepExclusive(s: State, t: Tid, m: Move)
    requires Exclusive(s)
    ensures Exclusive(Step(s, t, m))
  {
    hide Exclusive, LocksFollow, Step;
    var s' := Step(s, t, m);
    StepFollows(s, t, m);
    if s' != s {
      FollowedExclusive(s, t, s'.threads[t].stage, s');
    }
  }

  lemma StepIsOne(s: State, t: Tid, m: Move)
    requires t in s.threads
    ensures var s' := Step(s, t, m);
            || s' == s || s' == Inside(s, t) || s' == Exit(s, t) || s' == Changed(s, t, m)
            || (var w := Wants(s.threads[t]);
                !w.Nothing? && Holder(s, w).None? && s' == At(Locked(s, t, w), t, Entered(s.threads[t])))
  {
    hide Inside, Exit, Changed, Entered, Locked, At, Holder;
  }

  lemma StayFollows(s: State, t: Tid)
    requires t in s.threads && (HoldsProject(s.threads[t].stage) <==> s.projectLock == Some(t))
    ensures LocksFollow(s, t, s.threads[t].stage, s)
  {
    assert s.threads == s.threads[t := s.threads[t].(stage := s.threads[t].stage)];
  }

  lemma TakeFollows(s: State, t: Tid)
    requires t in s.threads && (HoldsProject(s.threads[t].stage) <==> s.projectLock == Some(t))
    ensures var w := Wants(s.threads[t]);
            !w.Nothing? && Holder(s, w).None? ==>
              var s' := At(Locked(s, t, w), t, Entered(s.threads[t]));
              t in s'.threads && LocksFollow(s, t, s'.threads[t].stage, s')
  {
  }

  /** `u` is `s` but for the files. */
  lemma ExitFollows(s: State, t: Tid, u: State)
    requires t in s.threads && (HoldsProject(s.threads[t].stage) <==> s.projectLock == Some(t))
    requires u == s.(project := u.project, scripts := u.scripts)
    ensures var s' := Exit(u, t); t in s'.threads && s'.threads[t].stage == Finished && LocksFollow(s, t, Finished, s')
  {
  }

  lemma ChangedFollows(s: State, t: Tid, m: Move)
    requires t in s.threads && (HoldsProject(s.threads[t].stage) <==> s.projectLock == Some(t))
    ensures var s' := Changed(s, t, m);
            s' == s || (t in s'.threads && LocksFollow(s, t, s'.threads[t].stage, s'))
  {
  }

  lemma InsideProjectFollows(s: State, t: Tid)
    requires t in s.threads && s.threads[t].stage.InProject?
             && (HoldsProject(s.threads[t].stage) <==> s.projectLock == Some(t))
    ensures var s' := InsideProject(s, t);
            s' == s || (t in s'.threads && LocksFollow(s, t, s'.threads[t].stage, s'))
  {
    var s' := InsideProject(s, t);
    ExitFollows(s, t, s.(project := s'.project, scripts := s'.scripts));
  }

  lemma PeekFollows(s: State, t: Tid)
    requires t in s.threads && s.threads[t].stage.Peeking?
             && (HoldsProject(s.threads[t].stage) <==> s.projectLock == Some(t))
    ensures var s' := Peek(s, t);
            s' == s || (t in s'.threads && LocksFollow(s, t, s'.threads[t].stage, s'))
  {
    var s' := Peek(s, t);
    ExitFollows(s, t, s.(project := s'.project, scripts := s'.scripts));
  }

  lemma InsideBothFollows(s: State, t: Tid)
    requires t in s.threads && s.threads[t].stage.InBoth?
             && (HoldsProject(s.threads[t].stage) <==> s.projectLock == Some(t))
    ensures var s' := InsideBoth(s, t);
            s' == s || (t in s'.threads && LocksFollow(s, t, s'.threads[t].stage, s'))
  {
    var s' := InsideBoth(s, t);
    ExitFollows(s, t, s.(project := s'.project, scripts := s'.scripts));
  }

  lemma InsideScriptFollows(s: State, t: Tid)
    requires t in s.threads && s.threads[t].stage.InScript?
             && (HoldsProject(s.threads[t].stage) <==> s.projectLock == Some(t))
    ensures var s' := InsideScript(s, t);
            s' == s || (t in s'.threads && LocksFollow(s, t, s'.threads[t].stage, s'))
  {
    var s' := InsideScript(s, t);
    ExitFollows(s, t, s.(project := s'.project, scripts := s'.scripts));
  }

  lemma InsideSyncFollows(s: State, t: Tid)
    requires t in s.threads && s.threads[t].stage.Syncing?
             && (HoldsProject(s.threads[t].stage) <==> s.projectLock == Some(t))
    ensures var s' := InsideSync(s, t);
            s' == s || (t in s'.threads && LocksFollow(s, t, s'.threads[t].stage, s'))
  {
    var s' := InsideSync(s, t);
    ExitFollows(s, t, s.(project := s'.project, scripts := s'.scripts));
  }

  lemma InsideCatchingFollows(s: State, t: Tid)
    requires t in s.threads && s.threads[t].stage.Catching?
             && (HoldsProject(s.threads[t].stage) <==> s.projectLock == Some(t))
    ensures var s' := InsideCatching(s, t);
            s' == s || (t in s'.threads && LocksFollow(s, t, s'.threads[t].stage, s'))
  {
    var s' := InsideCatching(s, t);
    ExitFollows(s, t, s.(project := s'.project, scripts := s'.scripts));
  }

  lemma NoteFollows(s: State, t: Tid)
    requires t in s.threads && s.threads[t].stage.Start?
             && (HoldsProject(s.threads[t].stage) <==> s.projectLock == Some(t))
    ensures var s' := Note(s, t); t in s'.threads && LocksFollow(s, t, s'.threads[t].stage, s')
  {
    ExitFollows(s, t, s);
  }

  lemma InsideFollows(s: State, t: Tid)
    requires t in s.threads && (HoldsProject(s.threads[t].stage) <==> s.projectLock == Some(t))
    ensures var s' := Inside(s, t);
            s' == s || (t in s'.threads && LocksFollow(s, t, s'.threads[t].stage, s'))
  {
    hide InsideProject, Peek, InsideBoth, InsideScript, InsideSync, InsideCatching, Note;
    match s.threads[t].stage
    case InProject(_, _) => InsideProjectFollows(s, t);
    case Peeking => PeekFollows(s, t);
    case InBoth(_, _, _, _, _) => InsideBothFollows(s, t);
    case InScript(_, _, _) => InsideScriptFollows(s, t);
    case Written(_) => ExitFollows(s, t, s);
    case Syncing(_, _, _) => InsideSyncFollows(s, t);
    case Start => NoteFollows(s, t);
    case Catching(_, _, _) => InsideCatchingFollows(s, t);
    case _ =>
  }

  lemma HoldsMeans(s: State, t: Tid)
    requires Exclusive(s) && t in s.threads
    ensures HoldsProject(s.threads[t].stage) <==> s.projectLock == Some(t)
  {
    hide HoldsProject, HeldScript;
  }

  // ---------------------------------------------------------------- files

  /** Project.json changes only under the project lock, a script only under its own. */
  ghost predicate WroteUnderLocks(s: State, t: Tid, s': State)
    requires t in s.threads
  {
    && (s'.project != s.project ==> HoldsProject(s.threads[t].stage))
    && (forall f :: f in s.scripts ==> f in s'.scripts)
    && (forall f :: f in s'.scripts && (f in s.scripts ==> s'.scripts[f] != s.scripts[f]) ==>
          HeldScript(s.threads[t].stage) == Some(f))
  }

  /** How far a thread is from its end. */
  function Rank(g: Stage): nat {
    match g
    case Start => 12
    case Peeking => 11
    case Chosen(_) => 10
    case WantProject(_) => 9
    case InBoth(_, p, x, y, written) =>
      1 + (if p.None? then 1 else 0) + (if x.None? then 1 else 0) + (if y.None? then 1 else 0)
      + if written then 0 else 1
    case InScript(_, x, y) => 5 + (if x.None? then 1 else 0) + if y.None? then 1 else 0
    case Written(_) => 4
    case WantSync(_, _) => 3
    case Syncing(_, _, p) => 1 + if p.None? then 1 else 0
    case Noted(_, _) => 3
    case Catching(_, _, p) => 1 + if p.None? then 1 else 0
    case InProject(x, y) => 1 + (if x.None? then 1 else 0) + if y.None? then 1 else 0
    case Finished => 0
  }

  /** A move by `t` writes under its locks, leaves its own copies current, and gets it nearer its end. */
  ghost predicate Keeps(s: State, t: Tid, s': State)
    requires t in s.threads
  {
    && WroteUnderLocks(s, t, s')
    && t in s'.threads && Current(s'.project, s'.scripts, s'.threads[t])
    && (s' != s ==> Rank(s'.threads[t].stage) < Rank(s.threads[t].stage))
  }

  lemma InsideProjectKeeps(s: State, t: Tid)
    requires t in s.threads && s.threads[t].stage.InProject? && Current(s.project, s.scripts, s.threads[t])
    ensures Keeps(s, t, InsideProject(s, t))
  {
  }

  lemma PeekKeeps(s: State, t: Tid)
    requires t in s.threads && s.threads[t].stage.Peeking? && Current(s.project, s.scripts, s.threads[t])
    ensures Keeps(s, t, Peek(s, t))
  {
  }

  lemma InsideBothKeeps(s: State, t: Tid)
    requires t in s.threads && s.threads[t].stage.InBoth? && Current(s.project, s.scripts, s.threads[t])
    ensures Keeps(s, t, InsideBoth(s, t))
  {
  }

  lemma InsideScriptKeeps(s: State, t: Tid)
    requires t in s.threads && s.threads[t].stage.InScript? && Current(s.project, s.scripts, s.threads[t])
    ensures Keeps(s, t, InsideScript(s, t))
  {
  }

  lemma InsideSyncKeeps(s: State, t: Tid)
    requires t in s.threads && s.threads[t].stage.Syncing? && Current(s.project, s.scripts, s.threads[t])
    ensures Keeps(s, t, InsideSync(s, t))
  {
  }

  lemma InsideCatchingKeeps(s: State, t: Tid)
    requires t in s.threads && s.threads[t].stage.Catching? && Current(s.project, s.scripts, s.threads[t])
    ensures Keeps(s, t, InsideCatching(s, t))
  {
  }

  lemma NoteKeeps(s: State, t: Tid)
    requires t in s.threads && s.threads[t].stage.Start?
    ensures Keeps(s, t, Note(s, t))
  {
  }

  lemma ChangedKeeps(s: State, t: Tid, m: Move)
    requires t in s.threads && Current(s.project, s.scripts, s.threads[t])
    ensures Keeps(s, t, Changed(s, t, m))
  {
  }

  lemma ExitKeeps(s: State, t: Tid)
    requires t in s.threads && !s.threads[t].stage.Finished? && Current(s.project, s.scripts, s.threads[t])
    ensures Keeps(s, t, s) && Keeps(s, t, Exit(s, t))
  {
  }

  lemma TakeKeeps(s: State, t: Tid)
    requires t in s.threads && Current(s.project, s.scripts, s.threads[t])
    ensures var w := Wants(s.threads[t]);
            !w.Nothing? ==> Keeps(s, t, At(Locked(s, t, w), t, Entered(s.threads[t])))
  {
  }

  lemma InsideKeeps(s: State, t: Tid)
    requires t in s.threads && !s.threads[t].stage.Finished? && Current(s.project, s.scripts, s.threads[t])
    ensures Keeps(s, t, Inside(s, t))
  {
    hide InsideProject, Peek, InsideBoth, InsideScript, InsideSync, InsideCatching, Note, Keeps, Exit;
    ExitKeeps(s, t);
    match s.threads[t].stage
    case InProject(_, _) => InsideProjectKeeps(s, t);
    case Peeking => PeekKeeps(s, t);
    case InBoth(_, _, _, _, _) => InsideBothKeeps(s, t);
    case InScript(_, _, _) => InsideScriptKeeps(s, t);
    case Written(f) => WrittenKeeps(s, t);
    case Syncing(_, _, _) => InsideSyncKeeps(s, t);
    case Start => NoteKeeps(s, t);
    case Catching(_, _, _) => InsideCatchingKeeps(s, t);
    case _ =>
  }

  lemma WrittenKeeps(s: State, t: Tid)
    requires t in s.threads && s.threads[t].stage.Written? && Current(s.project, s.scripts, s.threads[t])
    ensures var f := s.threads[t].stage.file;
            f in s.scripts && Keeps(s, t, At(s, t, WantSync(f, s.scripts[f])))
  {
  }

  lemma FinishedStays(s: State, t: Tid, m: Move)
    requires t in s.threads && s.threads[t].stage.Finished?
    ensures Step(s, t, m) == s && Keeps(s, t, s)
  {
  }

  lemma StepKeeps(s: State, t: Tid, m: Move)
    requires t in s.threads && Current(s.project, s.scripts, s.threads[t])
    ensures Keeps(s, t, Step(s, t, m))
  {
    hide Inside, Changed, Entered, Exit, Keeps, Step, Current;
    StepIsOne(s, t, m);
    if s.threads[t].stage.Finished? {
      FinishedStays(s, t, m);
    } else {
      InsideKeeps(s, t);
      ChangedKeeps(s, t, m);
      ExitKeeps(s, t);
      TakeKeeps(s, t);
    }
  }

  /** What others write leaves a thread's copies current, when it holds the locks it read under. */
  lemma OtherCurrent(project: Project, scripts: map<File, Script>, project': Project, scripts': map<File, Script>,
                     u: Thread)
    requires Current(project, scripts, u)
    requires HoldsProject(u.stage) ==> project' == project
    requires var f := HeldScript(u.stage);
             f.Some? && f.value in scripts ==> f.value in scripts' && scripts'[f.value] == scripts[f.value]
    ensures Current(project', scripts', u)
  {
  }

  lemma StepInv(s: State, t: Tid, m: Move)
    requires Inv(s)
    ensures Inv(Step(s, t, m))
  {
    hide Step, Current, HoldsProject, HeldScript, Exclusive;
    var s' := Step(s, t, m);
    StepExclusive(s, t, m);
    StepFollows(s, t, m);
    if s' != s {
      StepKeeps(s, t, m);
      forall u | u in s'.threads ensures Current(s'.project, s'.scripts, s'.threads[u]) {
        if u != t {
          OthersKeepOut(s, t, u);
          OtherCurrent(s.project, s.scripts, s'.project, s'.scripts, s.threads[u]);
        }
      }
    }
  }

  lemma OthersKeepOut(s: State, t: Tid, u: Tid)
    requires Exclusive(s) && t in s.threads && u in s.threads && u != t
    ensures HoldsProject(s.threads[u].stage) ==> !HoldsProject(s.threads[t].stage)
    ensures HeldScript(s.threads[u].stage).Some? ==> HeldScript(s.threads[t].stage) != HeldScript(s.threads[u].stage)
  {
    hide HoldsProject, HeldScript;
  }

  lemma {:induction false} RunInv(s: State, moves: seq<(Tid, Move)>, n: nat)
    requires Initial(s) && n <= |moves|
    ensures Inv(Run(s, moves, n))
  {
    hide Step;
    if n > 0 {
      RunInv(s, moves, n - 1);
      StepInv(Run(s, moves, n - 1), moves[n - 1].0, moves[n - 1].1);
    }
  }

  // ---------------------------------------------------------------- no lost update

  /** The script a thread of `sync_episode_from_script` has read. */
  function Seen(t: Thread): Option<(File, Script)> {
    match t.stage
    case Noted(f, x) => Some((f, x))
    case Catching(f, x, _) => Some((f, x))
    case _ => None
  }

  /** After a move to `s'` the thread has read what it had read, or what is on disk. */
  predicate SeesDisk(s: State, t: Tid, s': State)
    requires t in s.threads
  {
    t in s'.threads && (Seen(s'.threads[t]).Some? ==>
                          || Seen(s'.threads[t]) == Seen(s.threads[t])
                          || var seen := Seen(s'.threads[t]).value;
                             seen.0 in s.scripts && seen.1 == s.scripts[seen.0])
  }

  lemma ExitSees(s: State, t: Tid)
    requires t in s.threads
    ensures SeesDisk(s, t, s) && t in Exit(s, t).threads && Exit(s, t).threads[t].stage.Finished?
  {
  }

  lemma LockedSees(s: State, t: Tid)
    requires t in s.threads
    ensures s.threads[t].stage.InProject? ==> SeesDisk(s, t, InsideProject(s, t))
    ensures s.threads[t].stage.InBoth? ==> SeesDisk(s, t, InsideBoth(s, t))
    ensures s.threads[t].stage.InScript? ==> SeesDisk(s, t, InsideScript(s, t))
    ensures s.threads[t].stage.Syncing? ==> SeesDisk(s, t, InsideSync(s, t))
  {
    hide Exit;
    ExitSees(s, t);
    var g := s.threads[t].stage;
    if g.InProject? && g.newProject.Some? {
      ExitSees(s.(project := g.newProject.value), t);
    } else if g.InScript? && g.newScript.Some? {
      ExitSees(s.(scripts := s.scripts[g.file := g.newScript.value]), t);
    } else if g.InBoth? && g.project.Some? && g.newScript.Some? {
      ExitSees(s.(project := Synced(g.project.value, g.newScript.value, g.file)), t);
    } else if g.Syncing? && g.project.Some? {
      ExitSees(s.(project := Synced(g.project.value, g.saved, g.file)), t);
    }
  }

  lemma FreeSees(s: State, t: Tid)
    requires t in s.threads
    ensures SeesDisk(s, t, Note(s, t)) && SeesDisk(s, t, Peek(s, t))
    ensures s.threads[t].stage.Catching? ==> SeesDisk(s, t, InsideCatching(s, t))
  {
    hide Exit;
    ExitSees(s, t);
    var g := s.threads[t].stage;
    if g.Catching? && g.project.Some? {
      ExitSees(s.(project := Synced(g.project.value, g.seen, g.file)), t);
    }
  }

  lemma MoveSees(s: State, t: Tid, m: Move)
    requires t in s.threads
    ensures SeesDisk(s, t, Inside(s, t)) && SeesDisk(s, t, Exit(s, t))
  {
    hide InsideProject, Peek, InsideBoth, InsideScript, InsideSync, InsideCatching, Note, Exit;
    ExitSees(s, t);
    LockedSees(s, t);
    FreeSees(s, t);
  }

  lemma TakeSees(s: State, t: Tid, m: Move)
    requires t in s.threads
    ensures SeesDisk(s, t, Changed(s, t, m))
    ensures var w := Wants(s.threads[t]); !w.Nothing? ==> SeesDisk(s, t, At(Locked(s, t, w), t, Entered(s.threads[t])))
  {
  }

  lemma SeenStep(s: State, t: Tid, m: Move, u: Tid)
    requires Exclusive(s) && u in Step(s, t, m).threads
    ensures u in s.threads && SeesDisk(s, u, Step(s, t, m))
  {
    hide Step, Inside, Changed, Entered, Exit, SeesDisk, Exclusive, At, Locked;
    StepFollows(s, t, m);
    if t in s.threads {
      StepIsOne(s, t, m);
      ExitSees(s, t);
      MoveSees(s, t, m);
      TakeSees(s, t, m);
    }
    if u != t {
      OtherSees(s, u, Step(s, t, m));
    }
  }

  lemma OtherSees(s: State, u: Tid, s': State)
    ensures u in s.threads && u in s'.threads && s'.threads[u] == s.threads[u] ==> SeesDisk(s, u, s')
  {
  }

  /** It was on disk at some earlier moment. */
  lemma {:induction false} SeenOnDisk(s0: State, moves: seq<(Tid, Move)>, n: nat, u: Tid) returns (k: nat)
    requires Initial(s0) && n <= |moves| && u in Run(s0, moves, n).threads && Seen(Run(s0, moves, n).threads[u]).Some?
    ensures var seen := Seen(Run(s0, moves, n).threads[u]).value;
            k <= n && seen.0 in Run(s0, moves, k).scripts && seen.1 == Run(s0, moves, k).scripts[seen.0]
  {
    hide Step, Seen, Exclusive;
    k := n;
    if n == 0 {
      NothingSeen(s0.threads[u]);
      assert false;
    } else {
      var before := Run(s0, moves, n - 1);
      RunInv(s0, moves, n - 1);
      SeenStep(before, moves[n - 1].0, moves[n - 1].1, u);
      var seen := Seen(Run(s0, moves, n).threads[u]).value;
      if seen.0 in before.scripts && seen.1 == before.scripts[seen.0] {
        k := n - 1;
      } else {
        k := SeenOnDisk(s0, moves, n - 1, u);
      }
    }
  }

  lemma NothingSeen(t: Thread)
    ensures t.stage.Start? ==> Seen(t).None?
  {
  }

  /** In every run: whoever changes project.json changes what is on disk at that moment, not an older
  copy; a sync adds the binding of the script as it is on disk, or, called without a script lock, as it
  once was. Only `save_project` overwrites blindly. */
  lemma ProjectWritesAreCurrent(s0: State, moves: seq<(Tid, Move)>, n: nat)
    requires Initial(s0) && n < |moves|
    ensures var s, s', t := Run(s0, moves, n), Run(s0, moves, n + 1), moves[n].0;
            s'.project != s.project ==>
              && t in s.threads
              && match s.threads[t].op
                 case UpdateProject =>
                   s.threads[t].stage == InProject(Some(s.project), Some(s'.project))
                 case SaveProject => s.threads[t].stage.InProject?
                 case LockedScript(f) => f in s.scripts && s'.project == Synced(s.project, s.scripts[f], f)
                 case SaveScript(f) => f in s.scripts && s'.project == Synced(s.project, s.scripts[f], f)
                 case EpisodeScript(_) =>
                   exists f :: f in s.scripts && Bound(s.project, s.threads[t].op, f)
                       && s'.project == Synced(s.project, s.scripts[f], f)
                 case SyncEpisode(f) =>
                   exists k: nat :: k <= n && f in Run(s0, moves, k).scripts
                       && s'.project == Synced(s.project, Run(s0, moves, k).scripts[f], f)
  {
    hide Step, Current, Synced, Bound;
    var s, t, m := Run(s0, moves, n), moves[n].0, moves[n].1;
    RunInv(s0, moves, n);
    if t in s.threads {
      ProjectWriteIsCurrent(s, t, m);
      if Run(s0, moves, n + 1).project != s.project && s.threads[t].op.SyncEpisode? {
        var k := SeenOnDisk(s0, moves, n, t);
      }
    } else {
      NoSuchThread(s, t, m);
    }
  }

  lemma ProjectWriteIsCurrent(s: State, t: Tid, m: Move)
    requires t in s.threads && Current(s.project, s.scripts, s.threads[t])
    ensures var s' := Step(s, t, m);
            s'.project != s.project ==>
              match s.threads[t].op
              case UpdateProject => s.threads[t].stage == InProject(Some(s.project), Some(s'.project))
              case SaveProject => s.threads[t].stage.InProject?
              case LockedScript(f) => f in s.scripts && s'.project == Synced(s.project, s.scripts[f], f)
              case SaveScript(f) => f in s.scripts && s'.project == Synced(s.project, s.scripts[f], f)
              case EpisodeScript(_) =>
                exists f :: f in s.scripts && Bound(s.project, s.threads[t].op, f)
                    && s'.project == Synced(s.project, s.scripts[f], f)
              case SyncEpisode(f) =>
                && s.threads[t].stage.Catching? && s.threads[t].stage.file == f
                && s'.project == Synced(s.project, s.threads[t].stage.seen, f)
  {
    var s' := Step(s, t, m);
    if s'.project != s.project && s.threads[t].op.EpisodeScript? {
      var f := s.threads[t].stage.file;
      assert f in s.scripts && Bound(s.project, s.threads[t].op, f);
    }
  }

  /** Syncing the script would change nothing. */
  predicate Settled(p: Project, x: Script, f: File) {
    x.episode.None? || (x.episode.value in p.bindings && p.bindings[x.episode.value] == f)
  }

  lemma SyncedSame(p: Project, x: Script, y: Script, f: File)
    ensures Synced(p, x, f) == Synced(p, y, f) <==> x.episode == y.episode || (Settled(p, x, f) && Settled(p, y, f))
  {
    var a, b := Synced(p, x, f), Synced(p, y, f);
    if x.episode != y.episode && !Settled(p, x, f) {
      assert x.episode.value in a.bindings && a.bindings[x.episode.value] == f;
    }
    if x.episode != y.episode && !Settled(p, y, f) {
      assert y.episode.value in b.bindings && b.bindings[y.episode.value] == f;
    }
    if x.episode.Some? && Settled(p, x, f) {
      assert a.bindings == p.bindings;
    }
    if y.episode.Some? && Settled(p, y, f) {
      assert b.bindings == p.bindings;
    }
  }

  /** Such a sync leaves project.json as one of the script on disk would if and only if the script it has
  read is for the same episode, or neither changes a binding. */
  lemma LateSyncIff(s0: State, moves: seq<(Tid, Move)>, n: nat, t: Tid)
    requires Initial(s0) && n <= |moves| && t in Run(s0, moves, n).threads
    ensures var s := Run(s0, moves, n); var g := s.threads[t].stage;
            g.Catching? && g.project.Some? && g.file in s.scripts ==>
              (Step(s, t, Go).project == Synced(s.project, s.scripts[g.file], g.file) <==>
                 || g.seen.episode == s.scripts[g.file].episode
                 || (Settled(s.project, g.seen, g.file) && Settled(s.project, s.scripts[g.file], g.file)))
  {
    RunInv(s0, moves, n);
    var s := Run(s0, moves, n);
    var g := s.threads[t].stage;
    hide Synced, Settled, Run, Exclusive;
    if g.Catching? && g.project.Some? && g.file in s.scripts {
      assert Current(s.project, s.scripts, s.threads[t]);
      SyncedSame(s.project, g.seen, s.scripts[g.file], g.file);
    }
  }

  const BEFORE := Script(Some(1), 0)

  const AFTER := Script(Some(2), 0)

  /** A sync of script `f` that has reached `a`, and a save of it that has reached `b`. */
  function Race(f: File, p: Project, x: Script, projectLock: Option<Tid>, scriptLocks: map<File, Tid>, a: Stage,
                b: Stage): State
  {
    State(p, map[f := x], projectLock, scriptLocks, map[0 := Thread(SyncEpisode(f), a), 1 := Thread(SaveScript(f), b)])
  }

  lemma SaveLocks(f: File, p: Project, a: Stage)
    ensures Step(Race(f, p, BEFORE, None, map[], a, Start), 1, Go)
         == Race(f, p, BEFORE, None, map[f := 1], a, InScript(f, None, None))
  {
  }

  lemma SaveChanges(f: File, p: Project, locks: map<File, Tid>, a: Stage)
    ensures Step(Race(f, p, BEFORE, None, locks, a, InScript(f, None, None)), 1, ChangeScript(AFTER))
         == Race(f, p, BEFORE, None, locks, a, InScript(f, None, Some(AFTER)))
  {
  }

  lemma SaveWrites(f: File, p: Project, locks: map<File, Tid>, a: Stage)
    ensures Step(Race(f, p, BEFORE, None, locks, a, InScript(f, None, Some(AFTER))), 1, Go)
         == Race(f, p, AFTER, None, locks, a, Written(f))
  {
  }

  lemma SyncLocks(f: File, p: Project, locks: map<File, Tid>, b: Stage)
    ensures Step(Race(f, p, AFTER, None, locks, Noted(f, BEFORE), b), 0, Go)
         == Race(f, p, AFTER, Some(0), locks, Catching(f, BEFORE, None), b)
  {
  }

  lemma SyncReads(f: File, p: Project, locks: map<File, Tid>, b: Stage)
    ensures Step(Race(f, p, AFTER, Some(0), locks, Catching(f, BEFORE, None), b), 0, Go)
         == Race(f, p, AFTER, Some(0), locks, Catching(f, BEFORE, Some(p)), b)
  {
  }

  lemma SyncWrites(f: File, p: Project, locks: map<File, Tid>, b: Stage)
    ensures Step(Race(f, p, AFTER, Some(0), locks, Catching(f, BEFORE, Some(p)), b), 0, Go)
         == Race(f, Synced(p, BEFORE, f), AFTER, None, locks, Finished, b)
  {
    hide Synced;
  }

  /** A script moved from episode 1 to episode 2 between a sync's read and its write: the sync binds it to
  episode 1 all the same. */
  lemma SyncMayBeStale(f: File)
    ensures var p := Project(map[], 0);
            var s0 := Race(f, p, BEFORE, None, map[], Start, Start);
            var moves := [(0, Go), (1, Go), (1, ChangeScript(AFTER)), (1, Go), (0, Go), (0, Go), (0, Go)];
            && Initial(s0)
            && Run(s0, moves, 7) == Race(f, Synced(p, BEFORE, f), AFTER, None, map[f := 1], Finished, Written(f))
            && Run(s0, moves, 7).scripts[f].episode == Some(2) && Run(s0, moves, 7).project.bindings == map[1 := f]
  {
    var p: Project := Project(map[], 0);
    var s0 := Race(f, p, BEFORE, None, map[], Start, Start);
    var moves := [(0, Go), (1, Go), (1, ChangeScript(AFTER)), (1, Go), (0, Go), (0, Go), (0, Go)];
    RaceNotes(f, p);
    SaveLocks(f, p, Noted(f, BEFORE));
    SaveChanges(f, p, map[f := 1], Noted(f, BEFORE));
    SaveWrites(f, p, map[f := 1], Noted(f, BEFORE));
    SyncLocks(f, p, map[f := 1], Written(f));
    SyncReads(f, p, map[f := 1], Written(f));
    SyncWrites(f, p, map[f := 1], Written(f));
    hide Step, Race, Run;
    var s1 := RunNext(s0, moves, 0, s0);
    var s2 := RunNext(s0, moves, 1, s1);
    var s3 := RunNext(s0, moves, 2, s2);
    var s4 := RunNext(s0, moves, 3, s3);
    var s5 := RunNext(s0, moves, 4, s4);
    var s6 := RunNext(s0, moves, 5, s5);
    var s7 := RunNext(s0, moves, 6, s6);
    RaceIs(f, Synced(p, BEFORE, f), AFTER, None, map[f := 1], Finished, Written(f));
  }

  lemma RunNext(s0: State, moves: seq<(Tid, Move)>, n: nat, s: State) returns (s': State)
    requires n < |moves| && (n == 0 ==> s == s0) && (n > 0 ==> Run(s0, moves, n) == s)
    ensures s' == Step(s, moves[n].0, moves[n].1) && Run(s0, moves, n + 1) == s'
  {
    hide Step;
    assert n == 0 ==> Run(s0, moves, 0) == s0;
    s' := Step(s, moves[n].0, moves[n].1);
  }

  lemma RaceIs(f: File, p: Project, x: Script, projectLock: Option<Tid>, scriptLocks: map<File, Tid>, a: Stage,
               b: Stage)
    ensures var s := Race(f, p, x, projectLock, scriptLocks, a, b); s.scripts == map[f := x] && s.project == p
  {
  }

  lemma RaceNotes(f: File, p: Project)
    ensures var s := Race(f, p, BEFORE, None, map[], Start, Start);
            Initial(s) && Step(s, 0, Go) == Race(f, p, BEFORE, None, map[], Noted(f, BEFORE), Start)
  {
  }

  /** What a thread that writes script `f` has done before: `locked_script` and `locked_episode_script` read
  it as it still is; only `save_script` writes without having read. */
  ghost predicate MayWrite(s: State, t: Thread, f: File, x: Script) {
    && (t.stage.InScript? || t.stage.InBoth?)
    && t.stage.newScript == Some(x)
    && match t.op
       case SaveScript(g) => g == f
       case LockedScript(g) => g == f && f in s.scripts && t.stage.script == Some(s.scripts[f])
       case EpisodeScript(_) => Bound(s.project, t.op, f) && f in s.scripts && t.stage.script == Some(s.scripts[f])
       case _ => false
  }

  /** In every run: a read-change-write of a script starts from the script as it still is, and
  `locked_episode_script` only writes the one its episode is bound to at that moment; only `save_script`
  overwrites or creates a script blindly. */
  lemma ScriptWritesAreCurrent(s0: State, moves: seq<(Tid, Move)>, n: nat, f: File)
    requires Initial(s0) && n < |moves|
    ensures var s, s', t := Run(s0, moves, n), Run(s0, moves, n + 1), moves[n].0;
            f in s'.scripts && (f in s.scripts ==> s'.scripts[f] != s.scripts[f]) ==>
              t in s.threads && MayWrite(s, s.threads[t], f, s'.scripts[f])
  {
    var s, t, m := Run(s0, moves, n), moves[n].0, moves[n].1;
    RunInv(s0, moves, n);
    if t in s.threads {
      ScriptWriteIsCurrent(s, t, m, f);
    }
  }

  lemma ScriptWriteIsCurrent(s: State, t: Tid, m: Move, f: File)
    requires t in s.threads && Current(s.project, s.scripts, s.threads[t])
    ensures var s' := Step(s, t, m);
            f in s'.scripts && (f in s.scripts ==> s'.scripts[f] != s.scripts[f]) ==>
              MayWrite(s, s.threads[t], f, s'.scripts[f])
  {
  }

  // ---------------------------------------------------------------- changes arrive

  /** A sync touches nothing but the binding of the script's episode. */
  lemma SyncedOnly(p: Project, x: Script, f: File)
    ensures var q := Synced(p, x, f);
            && q.rest == p.rest
            && (x.episode.Some? ==> x.episode.value in q.bindings && q.bindings[x.episode.value] == f)
            && forall e :: x.episode != Some(e) ==>
                 (e in q.bindings <==> e in p.bindings) && (e in p.bindings ==> q.bindings[e] == p.bindings[e])
  {
  }

  /** The thread has change `y` of script `f` in hand, or has written it and still holds the script. */
  predicate Carrying(t: Thread, scripts: map<File, Script>, f: File, y: Script) {
    match t.stage
    case InBoth(g, _, _, Some(z), written) => g == f && z == y && (written ==> f in scripts && scripts[f] == y)
    case InScript(g, _, Some(z)) => g == f && z == y
    case Written(g) => g == f && f in scripts && scripts[f] == y
    case WantSync(g, x) => g == f && x == y && f in scripts && scripts[f] == y
    case Syncing(g, x, _) => g == f && x == y && f in scripts && scripts[f] == y
    case _ => false
  }

  /** The script is as changed, and its episode is bound to it. */
  predicate Arrived(s: State, f: File, y: Script) {
    && f in s.scripts && s.scripts[f] == y
    && (y.episode.Some? ==> y.episode.value in s.project.bindings && s.project.bindings[y.episode.value] == f)
  }

  /** A move of the carrier: it goes on carrying, or it ends, with an exception or with the change on disk. */
  lemma CarrierMoves(s: State, t: Tid, m: Move, f: File, y: Script)
    requires Inv(s) && t in s.threads && Carrying(s.threads[t], s.scripts, f, y)
    ensures var s' := Step(s, t, m);
            && t in s'.threads
            && (Carrying(s'.threads[t], s'.scripts, f, y)
                || (s'.threads[t].stage.Finished? && (m.Raise? || Arrived(s', f, y))))
  {
    hide Exclusive;
    assert Current(s.project, s.scripts, s.threads[t]);
    match s.threads[t].stage
    case InBoth(_, p, _, _, _) => CarrierInBoth(s, t, m, f, y);
    case InScript(_, _, _) => CarrierInScript(s, t, m, f, y);
    case Written(_) =>
    case WantSync(_, _) => CarrierWants(s, t, m, f, y);
    case Syncing(_, _, p) => CarrierSyncs(s, t, m, f, y);
    case _ =>
  }

  lemma CarrierInBoth(s: State, t: Tid, m: Move, f: File, y: Script)
    requires t in s.threads && Current(s.project, s.scripts, s.threads[t])
    requires s.threads[t].stage.InBoth? && Carrying(s.threads[t], s.scripts, f, y)
    ensures var s' := Step(s, t, m);
            && t in s'.threads
            && (Carrying(s'.threads[t], s'.scripts, f, y)
                || (s'.threads[t].stage.Finished? && (m.Raise? || Arrived(s', f, y))))
  {
    hide Synced;
    SyncedOnly(s.project, y, f);
  }

  lemma CarrierInScript(s: State, t: Tid, m: Move, f: File, y: Script)
    requires t in s.threads && Current(s.project, s.scripts, s.threads[t])
    requires s.threads[t].stage.InScript? && Carrying(s.threads[t], s.scripts, f, y)
    ensures var s' := Step(s, t, m);
            && t in s'.threads
            && (Carrying(s'.threads[t], s'.scripts, f, y)
                || (s'.threads[t].stage.Finished? && (m.Raise? || Arrived(s', f, y))))
  {
  }

  lemma CarrierWants(s: State, t: Tid, m: Move, f: File, y: Script)
    requires t in s.threads && s.threads[t].stage.WantSync? && Carrying(s.threads[t], s.scripts, f, y)
    ensures var s' := Step(s, t, m); t in s'.threads && Carrying(s'.threads[t], s'.scripts, f, y)
  {
  }

  lemma CarrierSyncs(s: State, t: Tid, m: Move, f: File, y: Script)
    requires t in s.threads && s.threads[t].stage.Syncing? && Carrying(s.threads[t], s.scripts, f, y)
    ensures var s' := Step(s, t, m);
            && t in s'.threads
            && (Carrying(s'.threads[t], s'.scripts, f, y)
                || (s'.threads[t].stage.Finished? && (m.Raise? || Arrived(s', f, y))))
  {
    hide Synced;
    if s.threads[t].stage.project.Some? {
      SyncedOnly(s.threads[t].stage.project.value, y, f);
    }
  }

  /** Moves of others do not disturb the carrier. */
  lemma OthersLetCarry(s: State, t: Tid, m: Move, u: Tid, f: File, y: Script)
    requires Inv(s) && u in s.threads && u != t && Carrying(s.threads[u], s.scripts, f, y)
    ensures var s' := Step(s, t, m); u in s'.threads && Carrying(s'.threads[u], s'.scripts, f, y)
  {
    var s' := Step(s, t, m);
    CarrierHolds(s.threads[u], s.scripts, f, y);
    hide Step, Current, Exclusive, HeldScript, HoldsProject, Carrying, LocksFollow;
    StepFollows(s, t, m);
    if s' != s {
      StepKeeps(s, t, m);
      OthersKeepOut(s, t, u);
      FollowsOne(s, t, s'.threads[t].stage, s');
      SameCarry(s.threads[u], s.scripts, s'.scripts, f, y);
    }
  }

  lemma FollowsOne(s: State, t: Tid, g: Stage, s': State)
    requires t in s.threads && LocksFollow(s, t, g, s')
    ensures s'.threads == s.threads[t := s.threads[t].(stage := g)]
  {
  }

  lemma CarrierHolds(t: Thread, scripts: map<File, Script>, f: File, y: Script)
    requires Carrying(t, scripts, f, y)
    ensures HeldScript(t.stage) == Some(f)
  {
  }

  lemma SameCarry(t: Thread, scripts: map<File, Script>, scripts': map<File, Script>, f: File, y: Script)
    requires Carrying(t, scripts, f, y)
    requires f in scripts ==> f in scripts' && scripts'[f] == scripts[f]
    ensures Carrying(t, scripts', f, y)
  {
  }

  /** In every run: once the caller has made its change of a script, and unless an exception is raised in that
  thread, the thread ends only after the changed script is on disk and its episode bound to it, whatever all
  other threads do meanwhile. */
  lemma {:induction false} ScriptChangesArrive(s0: State, moves: seq<(Tid, Move)>, i: nat, n: nat, t: Tid, f: File,
                                               y: Script)
    requires Initial(s0) && i <= n <= |moves| && t in Run(s0, moves, i).threads
    requires Carrying(Run(s0, moves, i).threads[t], Run(s0, moves, i).scripts, f, y)
    requires forall k :: i <= k < n ==> moves[k] != (t, Raise)
    ensures var s := Run(s0, moves, n);
            || (t in s.threads && Carrying(s.threads[t], s.scripts, f, y))
            || exists k :: i < k <= n && Arrived(Run(s0, moves, k), f, y)
                           && t in Run(s0, moves, k).threads && Run(s0, moves, k).threads[t].stage.Finished?
  {
    hide Step, Carrying, Arrived, Exclusive, Current;
    if i < n {
      ScriptChangesArrive(s0, moves, i, n - 1, t, f, y);
      var s := Run(s0, moves, n - 1);
      RunInv(s0, moves, n - 1);
      if t in s.threads && Carrying(s.threads[t], s.scripts, f, y) {
        if moves[n - 1].0 == t {
          CarrierMoves(s, t, moves[n - 1].1, f, y);
        } else {
          OthersLetCarry(s, moves[n - 1].0, moves[n - 1].1, t, f, y);
        }
      }
    }
  }

  /** The same for a change of project.json. */
  lemma {:induction false} ProjectChangesArrive(s0: State, moves: seq<(Tid, Move)>, i: nat, n: nat, t: Tid, p: Project)
    requires Initial(s0) && i <= n <= |moves| && t in Run(s0, moves, i).threads
    requires Run(s0, moves, i).threads[t].stage.InProject? && Run(s0, moves, i).threads[t].stage.newProject == Some(p)
    requires forall k :: i <= k < n ==> moves[k] != (t, Raise)
    ensures var s := Run(s0, moves, n);
            || (t in s.threads && s.threads[t].stage.InProject? && s.threads[t].stage.newProject == Some(p))
            || exists k :: i < k <= n && Run(s0, moves, k).project == p
                           && t in Run(s0, moves, k).threads && Run(s0, moves, k).threads[t].stage.Finished?
  {
    hide Step, Exclusive, Current, LocksFollow;
    if i < n {
      ProjectChangesArrive(s0, moves, i, n - 1, t, p);
      var s, u, m := Run(s0, moves, n - 1), moves[n - 1].0, moves[n - 1].1;
      RunInv(s0, moves, n - 1);
      if t in s.threads && s.threads[t].stage.InProject? && s.threads[t].stage.newProject == Some(p) {
        if u == t {
          ProjectWrites(s, t, m, p);
        } else {
          StepFollows(s, u, m);
          if Step(s, u, m) != s {
            FollowsOne(s, u, Step(s, u, m).threads[u].stage, Step(s, u, m));
          }
        }
      }
    }
  }

  lemma ProjectWrites(s: State, t: Tid, m: Move, p: Project)
    requires t in s.threads && s.threads[t].stage.InProject? && s.threads[t].stage.newProject == Some(p) && !m.Raise?
    requires Current(s.project, s.scripts, s.threads[t])
    ensures var s' := Step(s, t, m);
            s' == s || (t in s'.threads && s'.threads[t].stage.Finished? && s'.project == p)
  {
  }

  /** `locked_episode_script` and `locked_script` give up without an exception of the caller's only if the
  episode is not bound, is no longer bound to the script they have locked, or the script is not there. */
  lemma GivesUpIff(s: State, t: Tid)
    requires t in s.threads && Current(s.project, s.scripts, s.threads[t])
    ensures var g, op := s.threads[t].stage, s.threads[t].op;
            var ends := t in Step(s, t, Go).threads && Step(s, t, Go).threads[t].stage.Finished?;
            && (g.Peeking? ==> (ends <==> op.episode !in s.project.bindings))
            && (g.InBoth? && g.project.None? ==> (ends <==> !Bound(s.project, op, g.file)))
            && (g.InBoth? && g.project.Some? && g.script.None? ==> (ends <==> g.file !in s.scripts))
            && (g.InScript? && g.script.None? && op.LockedScript? ==> (ends <==> g.file !in s.scripts))
            && (g.Start? && op.SyncEpisode? ==> (ends <==> op.file !in s.scripts))
  {
  }

  // ---------------------------------------------------------------- no deadlock

  /** Stopped at a lock another thread holds. */
  predicate Waiting(s: State, t: Tid)
    requires t in s.threads
  {
    Holder(s, Wants(s.threads[t])).Some?
  }

  predicate CanMove(s: State, t: Tid) {
    t in s.threads && !s.threads[t].stage.Finished? && !Waiting(s, t)
  }

  /** Whoever waits waits for a thread that can move, or for one that waits for a thread that can: no
  reachable state has a cycle of waiting threads. */
  lemma NoDeadlock(s0: State, moves: seq<(Tid, Move)>, n: nat, t: Tid)
    requires Initial(s0) && n <= |moves|
    ensures var s := Run(s0, moves, n);
            t in s.threads && !s.threads[t].stage.Finished? ==>
              || CanMove(s, t)
              || var u := Holder(s, Wants(s.threads[t])).value;
                 CanMove(s, u) || (u in s.threads && Waiting(s, u) && CanMove(s, Holder(s, Wants(s.threads[u])).value))
  {
    RunInv(s0, moves, n);
    var s := Run(s0, moves, n);
    if t in s.threads && Waiting(s, t) {
      HolderGoesOn(s, t);
      var u := Holder(s, Wants(s.threads[t])).value;
      if Waiting(s, u) {
        HolderGoesOn(s, u);
      }
    }
  }

  /** A thread that holds a lock is not finished and waits for no script; one that holds the project
  lock waits for nothing. */
  lemma HolderGoesOn(s: State, t: Tid)
    requires Inv(s) && t in s.threads && Waiting(s, t)
    ensures var u := Holder(s, Wants(s.threads[t])).value;
            && u in s.threads && !s.threads[u].stage.Finished? && !Wants(s.threads[u]).TheScript?
            && (Wants(s.threads[t]).TheProject? ==> Wants(s.threads[u]).Nothing?)
  {
  }

  /** What a thread does next when nothing goes wrong. */
  function NextMove(t: Thread, x: Script, p: Project): Move {
    match t.stage
    case InProject(read, None) => if read.Some? || t.op.SaveProject? then ChangeProject(p) else Go
    case InBoth(_, _, Some(_), None, _) => ChangeScript(x)
    case InScript(_, script, None) => if script.Some? || t.op.SaveScript? then ChangeScript(x) else Go
    case _ => Go
  }

  lemma NextMoves(s: State, t: Tid, x: Script, p: Project)
    requires CanMove(s, t) && Current(s.project, s.scripts, s.threads[t])
    ensures var m := NextMove(s.threads[t], x, p);
            !m.Raise? && Step(s, t, m) != s
  {
    var m := NextMove(s.threads[t], x, p);
    var s' := Step(s, t, m);
    assert t in s'.threads && s'.threads[t].stage != s.threads[t].stage;
  }

  /** A thread that can move has a move that does something, without an exception, and every such move
  brings it nearer to its end, twelve moves away at most: with no deadlock, every thread finishes. */
  lemma MovesEnd(s0: State, moves: seq<(Tid, Move)>, n: nat, t: Tid, m: Move, x: Script, p: Project)
    requires Initial(s0) && n <= |moves|
    requires t in Run(s0, moves, n).threads
    ensures var s := Run(s0, moves, n); var s' := Step(s, t, m);
            && (s' != s ==> t in s'.threads && Rank(s'.threads[t].stage) < Rank(s.threads[t].stage) <= 12)
            && (CanMove(s, t) ==> exists m': Move :: !m'.Raise? && Step(s, t, m') != s)
  {
    hide Step, NextMove, CanMove, Current, WroteUnderLocks;
    RunInv(s0, moves, n);
    var s := Run(s0, moves, n);
    StepKeeps(s, t, m);
    if CanMove(s, t) {
      NextMoves(s, t, x, p);
    }
  }
}
