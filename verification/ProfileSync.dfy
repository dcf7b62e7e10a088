/** Syncing a built-in profile into a project: a fifteen-row three-way decision for each path, over
the profile, the project and the manifest of what was delivered. Contents are identified with
their hashes. */
module ProfileSync {

  import opened Options

  type Rel = string

  type Content = int

  datatype Mode = Narration | Drama | Ad

  /** A manifest entry: delivered with this hash, or deleted by the user. */
  datatype Record = Active(sha: Content) | Tombstone

  datatype Row =
    | FirstDelivery | UserDeleted | InStep | Upgrade | FlowedBack | UserModified | Pruned | Orphaned
    | UserOnly | Restored | StayDeleted | StrayTombstone | BothGone | DeletedTogether | Collision

  /** What one decision leaves behind for its path. */
  datatype Verdict = Verdict(row: Row, dest: Option<Content>, record: Option<Record>)

  function Lookup<T>(m: map<Rel, T>, rel: Rel): Option<T> {
    if rel in m then Some(m[rel]) else None
  }

  /** The decision table of `_apply_decision`. Its sixteenth combination, nothing anywhere, is never
  asked for. */
  function Decide(p: Option<Content>, d: Option<Content>, m: Option<Record>): Verdict
    requires p.Some? || d.Some? || m.Some?
  {
    match (p, d, m)
    case (Some(ph), None, None) => Verdict(FirstDelivery, Some(ph), Some(Active(ph)))
    case (Some(_), None, Some(Active(_))) => Verdict(UserDeleted, None, Some(Tombstone))
    case (Some(ph), Some(dh), Some(Active(mh))) =>
      if dh == ph && mh == ph then Verdict(InStep, d, m)
      else if dh == mh && dh != ph then Verdict(Upgrade, Some(ph), Some(Active(ph)))
      else if dh != mh && dh == ph then Verdict(FlowedBack, d, Some(Active(ph)))
      else Verdict(UserModified, d, m)
    case (None, Some(dh), Some(Active(mh))) =>
      if dh == mh then Verdict(Pruned, None, Some(Tombstone)) else Verdict(Orphaned, d, None)
    case (None, Some(_), None) => Verdict(UserOnly, d, None)
    case (Some(_), Some(_), Some(Tombstone)) => Verdict(Restored, d, None)
    case (Some(_), None, Some(Tombstone)) => Verdict(StayDeleted, None, m)
    case (None, Some(_), Some(Tombstone)) => Verdict(StrayTombstone, d, None)
    case (None, None, Some(Tombstone)) => Verdict(BothGone, None, m)
    case (None, None, Some(Active(_))) => Verdict(DeletedTogether, None, Some(Tombstone))
    case (Some(ph), Some(dh), None) => Verdict(Collision, d, if dh == ph then Some(Active(ph)) else None)
  }

  // ---------------------------------------------------------------- accounting

  datatype Stats = Stats(
    created: nat, repaired: nat, skipped: nat, errors: nat,
    upgraded: nat, userModified: nat, userOnly: nat, pruned: nat, orphaned: nat,
    deletedUser: nat, tombstoned: nat, inStep: nat, collision: nat, migrated: nat)

  const NO_STATS := Stats(0, 0, 0, 0, 0, 0, 0, 0, 0, 0, 0, 0, 0, 0)

  /** The four counters that say what happened to a path. */
  function Total(s: Stats): nat {
    s.created + s.repaired + s.skipped + s.errors
  }

  // ---------------------------------------------------------------- one sync, path by path

  /** A project directory: the synced files and the manifest's entries. */
  datatype Folder = Folder(dest: map<Rel, Content>, records: map<Rel, Record>)

  function Keys(profile: map<Rel, Content>, f: Folder): set<Rel> {
    profile.Keys + f.dest.Keys + f.records.Keys
  }

  /** The outcome for one path; a path whose file operations fail is left alone. */
  function Resolve(p: Option<Content>, d: Option<Content>, m: Option<Record>, fails: bool): (Option<Content>,
                   Option<Record>) {
    if fails || (p.None? && d.None? && m.None?) then (d, m)
    else
      var v := Decide(p, d, m);
      (v.dest, v.record)
  }

  function At(f: Folder, rel: Rel): (Option<Content>, Option<Record>) {
    (Lookup(f.dest, rel), Lookup(f.records, rel))
  }

  function After(profile: map<Rel, Content>, failing: set<Rel>, f: Folder, rel: Rel): (Option<Content>,
                 Option<Record>) {
    Resolve(Lookup(profile, rel), At(f, rel).0, At(f, rel).1, rel in failing)
  }

  /** `f'` is `f` after one sync, whatever the order of the paths. */
  ghost predicate Synced(profile: map<Rel, Content>, failing: set<Rel>, f: Folder, f': Folder) {
    forall rel :: At(f', rel) == After(profile, failing, f, rel)
  }

  function FilesAfter(profile: map<Rel, Content>, failing: set<Rel>, f: Folder): (dest: map<Rel, Content>)
    ensures forall rel :: Lookup(dest, rel) == After(profile, failing, f, rel).0
  {
    hide Decide;
    map rel | rel in Keys(profile, f)
        && After(profile, failing, f, rel).0.Some? :: After(profile, failing, f, rel).0.value
  }

  function RecordsAfter(profile: map<Rel, Content>, failing: set<Rel>, f: Folder): (records: map<Rel, Record>)
    ensures forall rel :: Lookup(records, rel) == After(profile, failing, f, rel).1
  {
    hide Decide;
    map rel | rel in Keys(profile, f)
        && After(profile, failing, f, rel).1.Some? :: After(profile, failing, f, rel).1.value
  }

  function SyncOf(profile: map<Rel, Content>, failing: set<Rel>, f: Folder): (f': Folder)
    ensures Synced(profile, failing, f, f')
  {
    hide After;
    Folder(FilesAfter(profile, failing, f), RecordsAfter(profile, failing, f))
  }

  lemma SameFolder(a: Folder, b: Folder)
    requires forall rel :: At(a, rel) == At(b, rel)
    ensures a == b
  {
    assert forall rel :: At(a, rel).0.Some? <==> rel in a.dest;
    assert forall rel :: At(b, rel).0.Some? <==> rel in b.dest;
    assert forall rel :: At(a, rel).1.Some? <==> rel in a.records;
    assert forall rel :: At(b, rel).1.Some? <==> rel in b.records;
    assert a.dest == b.dest && a.records == b.records;
  }

  /** One sync has one result: the order in which paths are handled cannot matter. */
  lemma SyncedIsUnique(profile: map<Rel, Content>, failing: set<Rel>, f: Folder, a: Folder, b: Folder)
    requires Synced(profile, failing, f, a) && Synced(profile, failing, f, b)
    ensures a == b
  {
    hide After, At;
    SameFolder(a, b);
  }

  /** A full reset: nothing but the profile, all of it recorded, except the paths that failed. */
  function ResetOf(profile: map<Rel, Content>, failing: set<Rel>): Folder {
    Folder(map rel | rel in profile && rel !in failing :: profile[rel],
           map rel | rel in profile && rel !in failing :: Active(profile[rel]))
  }

  /** Half-way through a sync: the paths in `done` have been decided, the others not. */
  ghost predicate Partly(profile: map<Rel, Content>, failing: set<Rel>, f: Folder, done: set<Rel>, now: Folder) {
    forall rel :: At(now, rel) == if rel in done then After(profile, failing, f, rel) else At(f, rel)
  }

  /** The paths whose file operations fail, among those handled. */
  function Failed(failing: set<Rel>, handled: set<Rel>): set<Rel> {
    set rel | rel in handled && rel in failing
  }

  lemma NothingYet(profile: map<Rel, Content>, failing: set<Rel>, f: Folder)
    ensures Partly(profile, failing, f, {}, f)
  {
    hide Resolve;
  }

  lemma NothingCounted(failing: set<Rel>, s: Stats)
    requires s == NO_STATS
    ensures Total(s) == 0 && s.created == 0 && s.migrated == 0 && s.errors == 0
    ensures Failed(failing, {}) == {}
  {
    hide Failed;
    NoneFailed(failing);
  }

  lemma NoneFailed(failing: set<Rel>)
    ensures Failed(failing, {}) == {}
  {
  }

  /** Half-way through a reset: the paths in `todo` are still to come. */
  ghost predicate PartlyReset(profile: map<Rel, Content>, failing: set<Rel>, todo: set<Rel>, f: Folder) {
    f == ResetOf(profile, failing + todo)
  }

  lemma ResetDone(profile: map<Rel, Content>, failing: set<Rel>, f: Folder)
    requires PartlyReset(profile, failing, {}, f)
    ensures f == ResetOf(profile, failing)
  {
    assert failing + {} == failing;
  }

  lemma ResetNothing(profile: map<Rel, Content>, failing: set<Rel>, f: Folder)
    requires f == Folder(map[], map[])
    ensures PartlyReset(profile, failing, profile.Keys, f)
  {
    SameFolder(f, ResetOf(profile, failing + profile.Keys));
  }

  lemma ResetOne(profile: map<Rel, Content>, failing: set<Rel>, todo: set<Rel>, rel: Rel, f: Folder, f': Folder)
    requires rel in todo && todo <= profile.Keys && PartlyReset(profile, failing, todo, f)
    requires f' == if rel in failing then f
                   else Folder(f.dest[rel := profile[rel]], f.records[rel := Active(profile[rel])])
    ensures PartlyReset(profile, failing, todo - {rel}, f')
  {
    SameFolder(f', ResetOf(profile, failing + (todo - {rel})));
  }

  lemma AllDecided(profile: map<Rel, Content>, failing: set<Rel>, f: Folder, now: Folder)
    requires Partly(profile, failing, f, Keys(profile, f), now)
    ensures now == SyncOf(profile, failing, f)
  {
    hide Decide, SyncOf;
    SyncedIsUnique(profile, failing, f, now, SyncOf(profile, failing, f));
  }

  lemma TakeOne(failing: set<Rel>, done: set<Rel>, rel: Rel)
    requires rel !in done
    ensures |done + {rel}| == |done| + 1
    ensures |Failed(failing, done + {rel})| == |Failed(failing, done)| + if rel in failing then 1 else 0
  {
    assert Failed(failing, done + {rel}) == if rel in failing then Failed(failing, done) + {rel}
           else Failed(failing, done);
  }

  // ---------------------------------------------------------------- convergence

  /** One path is settled in its content after one sync and in its record after two. */
  lemma ResolveSettles(p: Option<Content>, d: Option<Content>, m: Option<Record>, fails: bool)
    ensures var once := Resolve(p, d, m, fails);
            var twice := Resolve(p, once.0, once.1, fails);
            && twice.0 == once.0
            && Resolve(p, twice.0, twice.1, fails) == twice
            && (twice == once <==> !(!fails && p.Some? && d == p && m == Some(Tombstone)))
  {
  }

  /** With profile and project untouched in between, the second sync changes no project file and the
  third changes nothing at all. */
  lemma SyncConverges(profile: map<Rel, Content>, failing: set<Rel>, f: Folder)
    ensures var f1 := SyncOf(profile, failing, f);
            var f2 := SyncOf(profile, failing, f1);
            f2.dest == f1.dest && SyncOf(profile, failing, f2) == f2
  {
    hide Decide, Resolve, At;
    var f1 := SyncOf(profile, failing, f);
    var f2 := SyncOf(profile, failing, f1);
    forall rel ensures At(f2, rel).0 == At(f1, rel).0 && After(profile, failing, f2, rel) == At(f2, rel)
    {
      ResolveSettles(Lookup(profile, rel), At(f, rel).0, At(f, rel).1, rel in failing);
      assert At(f1, rel) == After(profile, failing, f, rel);
      assert At(f2, rel) == After(profile, failing, f1, rel);
    }
    SameFiles(f1, f2);
    SyncedIsUnique(profile, failing, f2, SyncOf(profile, failing, f2), f2);
  }

  lemma SameFiles(a: Folder, b: Folder)
    requires forall rel :: At(a, rel).0 == At(b, rel).0
    ensures a.dest == b.dest
  {
    assert forall rel :: At(a, rel).0.Some? <==> rel in a.dest;
    assert forall rel :: At(b, rel).0.Some? <==> rel in b.dest;
  }

  /** The second sync still writes the manifest exactly when the first one dropped a tombstone of a
  file that the user had restored to the profile's own content. */
  lemma SecondSyncQuietIff(profile: map<Rel, Content>, failing: set<Rel>, f: Folder)
    ensures var f1 := SyncOf(profile, failing, f);
            SyncOf(profile, failing, f1) == f1 <==>
              forall rel :: rel in profile && rel !in failing && Lookup(f.dest, rel) == Some(profile[rel])
                            ==> Lookup(f.records, rel) != Some(Tombstone)
  {
    hide Decide, Resolve;
    var f1 := SyncOf(profile, failing, f);
    var f2 := SyncOf(profile, failing, f1);
    forall rel
      ensures At(f2, rel) == At(f1, rel) <==>
              (rel in profile && rel !in failing && Lookup(f.dest, rel) == Some(profile[rel])
               ==> Lookup(f.records, rel) != Some(Tombstone))
    {
      ResolveSettles(Lookup(profile, rel), At(f, rel).0, At(f, rel).1, rel in failing);
      assert At(f1, rel) == After(profile, failing, f, rel);
      assert At(f2, rel) == After(profile, failing, f1, rel);
    }
    if forall rel :: At(f2, rel) == At(f1, rel) {
      SameFolder(f2, f1);
    }
  }

  /** Deleted, then restored by hand to the profile's own content: the first sync drops the tombstone and
  the second one records the file. */
  lemma RestoredWritesTwice(rel: Rel, c: Content)
    ensures var f := Folder(map[rel := c], map[rel := Tombstone]);
            var f1 := SyncOf(map[rel := c], {}, f);
            SyncOf(map[rel := c], {}, f1) != f1
  {
    hide SyncOf;
    assert rel in map[rel := c];
    SecondSyncQuietIff(map[rel := c], {}, Folder(map[rel := c], map[rel := Tombstone]));
  }

  /** A sync right after a full reset changes nothing exactly when every path that failed in the
  reset fails again. */
  lemma SyncAfterReset(profile: map<Rel, Content>, failing: set<Rel>, failing': set<Rel>)
    ensures var f := ResetOf(profile, failing);
            SyncOf(profile, failing', f) == f <==> failing * profile.Keys <= failing'
  {
    var f := ResetOf(profile, failing);
    var f' := SyncOf(profile, failing', f);
    forall rel
      ensures At(f', rel) == At(f, rel) <==> !(rel in profile && rel in failing && rel !in failing')
    {
      assert At(f', rel) == After(profile, failing', f, rel);
    }
    if failing * profile.Keys <= failing' {
      SameFolder(f', f);
    } else {
      var rel :| rel in failing * profile.Keys && rel !in failing';
      assert At(f', rel) != At(f, rel);
    }
  }

  // ---------------------------------------------------------------- safety over whole runs

  /** A sync against the profile as it then is, or the user writing or deleting one file. */
  datatype Event =
    | Sync(profile: map<Rel, Content>, failing: set<Rel>)
    | UserEdit(rel: Rel, content: Option<Content>)

  function Put(dest: map<Rel, Content>, rel: Rel, c: Option<Content>): map<Rel, Content> {
    if c.Some? then dest[rel := c.value] else dest - {rel}
  }

  function Step(f: Folder, e: Event): Folder {
    match e
    case Sync(profile, failing) => SyncOf(profile, failing, f)
    case UserEdit(rel, c) => f.(dest := Put(f.dest, rel, c))
  }

  /** The folder after the first `n` events, starting from a full reset to the profile `base`. */
  function Run(base: map<Rel, Content>, failed: set<Rel>, events: seq<Event>, n: nat): Folder
    requires n <= |events|
  {
    if n == 0 then ResetOf(base, failed) else Step(Run(base, failed, events, n - 1), events[n - 1])
  }

  /** `c` was the profile's version of the path in the initial reset or in a sync before event `n`. */
  predicate SeenBefore(base: map<Rel, Content>, events: seq<Event>, n: nat, rel: Rel, c: Content)
    requires n <= |events|
  {
    || (rel in base && base[rel] == c)
    || exists k :: 0 <= k < n && events[k].Sync? && rel in events[k].profile && events[k].profile[rel] == c
  }

  /** What one decision may do: record only the profile's version, never touch content other than the
  recorded version, never bring back a recorded absence. */
  lemma ResolveIsSafe(p: Option<Content>, d: Option<Content>, m: Option<Record>, fails: bool)
    ensures var r := Resolve(p, d, m, fails);
            && (r.1.Some? && r.1.value.Active? && r.1 != m ==> p == Some(r.1.value.sha))
            && (d.Some? && m != Some(Active(d.value)) ==> r.0 == d)
            && (d.None? && m.Some? ==> r.0.None? && r.1.Some?)
  {
  }

  /** Only versions the profile has had are ever recorded as delivered. */
  lemma {:induction false} RecordsAreSeen(base: map<Rel, Content>, failed: set<Rel>, events: seq<Event>, n: nat,
                                          rel: Rel)
    requires n <= |events|
    ensures var r := At(Run(base, failed, events, n), rel).1;
            r.Some? && r.value.Active? ==> SeenBefore(base, events, n, rel, r.value.sha)
  {
    hide Decide, Resolve;
    if n > 0 {
      RecordsAreSeen(base, failed, events, n - 1, rel);
      var f, f' := Run(base, failed, events, n - 1), Run(base, failed, events, n);
      match events[n - 1] {
        case Sync(profile, failing) =>
          assert At(f', rel) == After(profile, failing, f, rel);
          ResolveIsSafe(Lookup(profile, rel), At(f, rel).0, At(f, rel).1, rel in failing);
        case UserEdit(_, _) =>
      }
    }
  }

  /** No sync in any run overwrites or deletes a file whose content was never the profile's own
  version of that path in an earlier sync. */
  lemma UserContentSurvives(base: map<Rel, Content>, failed: set<Rel>, events: seq<Event>, n: nat, rel: Rel)
    requires n < |events| && events[n].Sync?
    ensures var c := At(Run(base, failed, events, n), rel).0;
            c.Some? && !SeenBefore(base, events, n, rel, c.value) ==> At(Run(base, failed, events, n + 1), rel).0 == c
  {
    hide Decide, Resolve, SeenBefore;
    RecordsAreSeen(base, failed, events, n, rel);
    var f, f' := Run(base, failed, events, n), Run(base, failed, events, n + 1);
    assert At(f', rel) == After(events[n].profile, events[n].failing, f, rel);
    ResolveIsSafe(Lookup(events[n].profile, rel), At(f, rel).0, At(f, rel).1, rel in events[n].failing);
  }

  /** A path that is absent but recorded stays absent, and recorded, through every sync until the
  user recreates it. */
  lemma {:induction false} AbsentStaysAbsent(base: map<Rel, Content>, failed: set<Rel>, events: seq<Event>, i: nat,
      j: nat, rel: Rel)
    requires i <= j <= |events|
    requires var at := At(Run(base, failed, events, i), rel); at.0.None? && at.1.Some?
    requires forall k :: i <= k < j && events[k].UserEdit? && events[k].rel == rel ==> events[k].content.None?
    ensures var at := At(Run(base, failed, events, j), rel); at.0.None? && at.1.Some?
  {
    hide Decide, Resolve, SyncOf;
    if i < j {
      AbsentStaysAbsent(base, failed, events, i, j - 1, rel);
      var f, f' := Run(base, failed, events, j - 1), Run(base, failed, events, j);
      match events[j - 1] {
        case Sync(profile, failing) =>
          assert At(f', rel) == After(profile, failing, f, rel);
          ResolveIsSafe(Lookup(profile, rel), At(f, rel).0, At(f, rel).1, rel in failing);
        case UserEdit(_, _) =>
      }
    }
  }

  // ---------------------------------------------------------------- delivery

  /** What a sync that works delivers: the profile's content where there is neither file nor record, or
  where the file is as it was delivered; everything else stays, and a dropped file goes only as delivered. */
  lemma ResolveDelivers(p: Option<Content>, d: Option<Content>, m: Option<Record>)
    ensures var r := Resolve(p, d, m, false);
            r.0 == if p.Some? && d.None? && m.None? then p
                   else if d.Some? && m == Some(Active(d.value)) then p
                   else d
  {
  }

  /** What a sync that works records: a missing file that was recorded is a tombstone; a file equal to the
  profile's version is recorded as delivered, unless a tombstone was dropped; any other file keeps the record of
  an older delivery as long as the profile still has the path, and has none otherwise. */
  lemma ResolveRecords(p: Option<Content>, d: Option<Content>, m: Option<Record>)
    ensures var r := Resolve(p, d, m, false);
            r.1 == if r.0.None? then (if m.Some? then Some(Tombstone) else None)
                   else if p == r.0 && m != Some(Tombstone) then Some(Active(r.0.value))
                   else if p.Some? && m != Some(Tombstone) then m
                   else None
  {
  }

  /** Between two syncs a path is left to itself: the user does not touch it, and syncs fail on it. */
  predicate LeftAlone(events: seq<Event>, i: nat, j: nat, rel: Rel)
    requires i <= j <= |events|
  {
    forall k :: i <= k < j ==> match events[k]
                               case Sync(_, failing) => rel in failing
                               case UserEdit(edited, _) => edited != rel
  }

  lemma {:induction false} StaysAlone(base: map<Rel, Content>, failed: set<Rel>, events: seq<Event>, i: nat, j: nat,
                                      rel: Rel)
    requires i <= j <= |events| && LeftAlone(events, i, j, rel)
    ensures At(Run(base, failed, events, j), rel) == At(Run(base, failed, events, i), rel)
  {
    hide SyncOf;
    if i < j {
      StaysAlone(base, failed, events, i, j - 1, rel);
      var f, f' := Run(base, failed, events, j - 1), Run(base, failed, events, j);
      if events[j - 1].Sync? {
        assert At(f', rel) == After(events[j - 1].profile, events[j - 1].failing, f, rel);
      }
    }
  }

  lemma EqualStep(p: Option<Content>, d: Option<Content>, m: Option<Record>, next: Option<Content>)
    requires p.Some? && Resolve(p, d, m, false).0 == p
    ensures var r := Resolve(p, d, m, false);
            Resolve(next, r.0, r.1, false).0 == next <==> m != Some(Tombstone) || next == p
  {
  }

  /** A path that a working sync leaves equal to the profile's version, by delivery or because the user came
  to the same content, follows the profile in the next working sync, to a new version or out of the project,
  unless the first sync dropped a tombstone there: then it stays, and equals only an unchanged profile. */
  lemma EqualFollowsIff(base: map<Rel, Content>, failed: set<Rel>, events: seq<Event>, n: nat, m: nat, rel: Rel)
    requires n < m < |events| && events[n].Sync? && events[m].Sync? && LeftAlone(events, n + 1, m, rel)
    requires rel !in events[n].failing && rel !in events[m].failing
    requires rel in events[n].profile
    requires At(Run(base, failed, events, n + 1), rel).0 == Some(events[n].profile[rel])
    ensures At(Run(base, failed, events, m + 1), rel).0 == Lookup(events[m].profile, rel)
       <==> At(Run(base, failed, events, n), rel).1 != Some(Tombstone)
            || Lookup(events[m].profile, rel) == Lookup(events[n].profile, rel)
  {
    hide Decide, Resolve, SyncOf;
    var f, g := Run(base, failed, events, n), Run(base, failed, events, m);
    StaysAlone(base, failed, events, n + 1, m, rel);
    assert At(Run(base, failed, events, n + 1), rel) == After(events[n].profile, events[n].failing, f, rel);
    assert At(Run(base, failed, events, m + 1), rel) == After(events[m].profile, events[m].failing, g, rel);
    EqualStep(Lookup(events[n].profile, rel), At(f, rel).0, At(f, rel).1, Lookup(events[m].profile, rel));
  }

  /** Delivered and recorded, or absent with or without a tombstone: all a path can be that the user
  never touched. */
  predicate Untouched(at: (Option<Content>, Option<Record>)) {
    (at.0.Some? && at.1 == Some(Active(at.0.value))) || (at.0.None? && (at.1.None? || at.1 == Some(Tombstone)))
  }

  ghost predicate NeverEdited(events: seq<Event>, n: nat, rel: Rel)
    requires n <= |events|
  {
    forall k :: 0 <= k < n && events[k].UserEdit? ==> events[k].rel != rel
  }

  /** Event `k` is a sync that finds a delivered path gone from the profile. */
  ghost predicate Drops(base: map<Rel, Content>, failed: set<Rel>, events: seq<Event>, k: nat, rel: Rel)
    requires k < |events|
  {
    && events[k].Sync? && rel !in events[k].profile && rel !in events[k].failing
    && At(Run(base, failed, events, k), rel).0.Some?
  }

  /** One sync on an untouched path. */
  lemma UntouchedStep(p: Option<Content>, d: Option<Content>, m: Option<Record>, fails: bool)
    requires Untouched((d, m))
    ensures var r := Resolve(p, d, m, fails);
            && Untouched(r)
            && (r.1 == Some(Tombstone) <==> m == Some(Tombstone) || (!fails && d.Some? && p.None?))
            && (!fails ==> (r.0 == p <==> p.None? || m != Some(Tombstone)))
  {
  }

  /** An untouched path has a tombstone exactly if the profile once dropped it after delivery. */
  lemma {:induction false} TombstoneIffDropped(base: map<Rel, Content>, failed: set<Rel>, events: seq<Event>, n: nat,
      rel: Rel)
    requires n <= |events| && NeverEdited(events, n, rel)
    ensures var at := At(Run(base, failed, events, n), rel);
            Untouched(at) && (at.1 == Some(Tombstone)
                <==> exists k :: 0 <= k < n && Drops(base, failed, events, k, rel))
  {
    hide Decide, Resolve, SyncOf;
    if n > 0 {
      TombstoneIffDropped(base, failed, events, n - 1, rel);
      var f, f' := Run(base, failed, events, n - 1), Run(base, failed, events, n);
      match events[n - 1] {
        case Sync(profile, failing) =>
          assert At(f', rel) == After(profile, failing, f, rel);
          UntouchedStep(Lookup(profile, rel), At(f, rel).0, At(f, rel).1, rel in failing);
        case UserEdit(_, _) =>
      }
      assert Drops(base, failed, events, n - 1, rel) <==>
             events[n - 1].Sync? && rel !in events[n - 1].profile && rel !in events[n - 1].failing
                 && At(f, rel).0.Some?;
    }
  }

  /** A path the user never touches follows the profile through every run, with one exception: once the
  profile has dropped it after delivery, it is not delivered again when the profile brings it back. */
  lemma UneditedFollowsIff(base: map<Rel, Content>, failed: set<Rel>, events: seq<Event>, n: nat, rel: Rel)
    requires n < |events| && NeverEdited(events, n, rel) && events[n].Sync? && rel !in events[n].failing
    ensures At(Run(base, failed, events, n + 1), rel).0 == Lookup(events[n].profile, rel) <==>
              rel !in events[n].profile || forall k :: 0 <= k < n ==> !Drops(base, failed, events, k, rel)
  {
    hide Decide, Resolve, SyncOf, Drops;
    TombstoneIffDropped(base, failed, events, n, rel);
    var f, f' := Run(base, failed, events, n), Run(base, failed, events, n + 1);
    assert At(f', rel) == After(events[n].profile, events[n].failing, f, rel);
    UntouchedStep(Lookup(events[n].profile, rel), At(f, rel).0, At(f, rel).1, false);
  }

  /** Delivered, dropped, brought back: the file stays away although nobody ever edited it. */
  lemma BroughtBackStaysAway(rel: Rel, c: Content)
    ensures var events := [Sync(map[], {}), Sync(map[rel := c], {})];
            && NeverEdited(events, 2, rel)
            && At(Run(map[rel := c], {}, events, 0), rel).0 == Some(c)
            && At(Run(map[rel := c], {}, events, 2), rel).0 != Lookup(events[1].profile, rel)
  {
    hide SyncOf;
    var base, events := map[rel := c], [Sync(map[], {}), Sync(map[rel := c], {})];
    assert Run(base, {}, events, 0) == ResetOf(base, {});
    assert Drops(base, {}, events, 0, rel);
    UneditedFollowsIff(base, {}, events, 1, rel);
  }

  // ---------------------------------------------------------------- the sync as it runs

  datatype Outcome = ProfileEmpty | Done(stats: Stats)

  function One(b: bool): nat {
    if b then 1 else 0
  }

  /** The detailed counters: upgraded files, files the user changed, has on their own or has deleted, files that
  went with the profile's, or outlived it, deletions on record, paths in step, and collisions. */
  predicate Detailed(p: Option<Content>, d: Option<Content>, m: Option<Record>, was: Stats, now: Stats) {
    var delivered := m.Some? && m.value.Active?;
    var asDelivered := delivered && d == Some(m.value.sha);
    && now.upgraded == was.upgraded + One(p.Some? && asDelivered && d != p)
    && now.userModified == was.userModified + One(p.Some? && d.Some? && delivered && !asDelivered && d != p)
    && now.inStep == was.inStep + One(p.Some? && delivered && d == p)
    && now.deletedUser == was.deletedUser + One(p.Some? && d.None? && delivered)
    && now.pruned == was.pruned + One(p.None? && delivered && (d.None? || asDelivered))
    && now.orphaned == was.orphaned + One(p.None? && delivered && d.Some? && !asDelivered)
    && now.userOnly == was.userOnly + One(d.Some? && (m == Some(Tombstone) || (p.None? && m.None?)))
    && now.tombstoned == was.tombstoned + One(d.None? && m == Some(Tombstone))
    && now.collision == was.collision + One(p.Some? && d.Some? && m.None?)
  }

  class ProjectDir {
    var dest: map<Rel, Content>
    var records: map<Rel, Record>
    /** No manifest on disk, or an unusable one, reads as `None`; its mode may be unset. */
    var manifest: Option<Option<Mode>>

    function View(): Folder
      reads this
    {
      Folder(dest, records)
    }

    constructor (f: Folder, manifest: Option<Option<Mode>>)
      ensures View() == f && this.manifest == manifest
    {
      dest, records, this.manifest := f.dest, f.records, manifest;
    }

    /** `_apply_decision` on a path whose file operations succeed. */
    method ApplyDecision(rel: Rel, p: Option<Content>, d: Option<Content>, m: Option<Record>,
                         stats: Stats) returns (s: Stats)
      requires p.Some? || d.Some? || m.Some?
      requires d == Lookup(dest, rel) && m == Lookup(records, rel)
      modifies this`dest, this`records
      ensures var v := Decide(p, d, m);
              && dest == Put(old(dest), rel, v.dest)
              && records == (if v.record.Some? then old(records)[rel := v.record.value] else old(records) - {rel})
      ensures Total(s) == Total(stats) + 1 && s.errors == stats.errors
      ensures var v := Decide(p, d, m);
              && s.created - stats.created == (if d.None? && v.dest.Some? then 1 else 0)
              && s.repaired - stats.repaired == (if (d.Some? && v.dest != d) || v.row.DeletedTogether? then 1 else 0)
      ensures Detailed(p, d, m, stats, s)
    {
      match (p, d, m) {
        case (Some(ph), None, None) =>
          dest := dest[rel := ph];
          records := records[rel := Active(ph)];
          s := stats.(created := stats.created + 1);
        case (Some(_), None, Some(Active(_))) =>
          records := records[rel := Tombstone];
          s := stats.(deletedUser := stats.deletedUser + 1, skipped := stats.skipped + 1);
        case (Some(ph), Some(dh), Some(Active(mh))) =>
          if dh == ph && mh == ph {
            s := stats.(inStep := stats.inStep + 1, skipped := stats.skipped + 1);
          } else if dh == mh && dh != ph {
            dest := dest[rel := ph];
            records := records[rel := Active(ph)];
            s := stats.(upgraded := stats.upgraded + 1, repaired := stats.repaired + 1);
          } else if dh != mh && dh == ph {
            records := records[rel := Active(ph)];
            s := stats.(inStep := stats.inStep + 1, skipped := stats.skipped + 1);
          } else {
            s := stats.(userModified := stats.userModified + 1, skipped := stats.skipped + 1);
          }
        case (None, Some(dh), Some(Active(mh))) =>
          if dh == mh {
            dest := dest - {rel};
            records := records[rel := Tombstone];
            s := stats.(pruned := stats.pruned + 1, repaired := stats.repaired + 1);
          } else {
            records := records - {rel};
            s := stats.(orphaned := stats.orphaned + 1, skipped := stats.skipped + 1);
          }
        case (None, Some(_), None) =>
          s := stats.(userOnly := stats.userOnly + 1, skipped := stats.skipped + 1);
        case (Some(_), Some(_), Some(Tombstone)) =>
          records := records - {rel};
          s := stats.(userOnly := stats.userOnly + 1, skipped := stats.skipped + 1);
        case (Some(_), None, Some(Tombstone)) =>
          s := stats.(tombstoned := stats.tombstoned + 1, skipped := stats.skipped + 1);
        case (None, Some(_), Some(Tombstone)) =>
          records := records - {rel};
          s := stats.(userOnly := stats.userOnly + 1, skipped := stats.skipped + 1);
        case (None, None, Some(Tombstone)) =>
          s := stats.(tombstoned := stats.tombstoned + 1, skipped := stats.skipped + 1);
        case (None, None, Some(Active(_))) =>
          records := records[rel := Tombstone];
          s := stats.(pruned := stats.pruned + 1, repaired := stats.repaired + 1);
        case (Some(ph), Some(dh), None) =>
          if dh == ph {
            records := records[rel := Active(ph)];
          }
          s := stats.(collision := stats.collision + 1, skipped := stats.skipped + 1);
      }
    }

    /** One turn of the sync loop, failures included. */
    method DecideOne(profile: map<Rel, Content>, failing: set<Rel>, ghost f: Folder, ghost done: set<Rel>,
                     rel: Rel, d: Option<Content>, stats: Stats) returns (s: Stats)
      requires Partly(profile, failing, f, done, View()) && rel in Keys(profile, f) && rel !in done
      requires d == Lookup(f.dest, rel)
      modifies this`dest, this`records
      ensures Partly(profile, failing, f, done + {rel}, View())
      ensures Total(s) == Total(stats) + 1 && s.errors == stats.errors + if rel in failing then 1 else 0
    {
      hide Decide;
      assert At(View(), rel) == At(f, rel);
      if rel in failing {
        s := stats.(errors := stats.errors + 1);
      } else {
        s := ApplyDecision(rel, Lookup(profile, rel), d, Lookup(records, rel), stats);
      }
      assert At(View(), rel) == After(profile, failing, f, rel);
      forall other | other != rel ensures At(View(), other) == At(old(View()), other) {
      }
    }

    /** One turn of the reset loop. */
    method ResetPath(rel: Rel, content: Content, fails: bool, stats: Stats) returns (s: Stats)
      modifies this`dest, this`records
      ensures View() == if fails then old(View())
                        else Folder(old(View()).dest[rel := content], old(View()).records[rel := Active(content)])
      ensures s.created + s.errors == stats.created + stats.errors + 1
      ensures s.migrated - s.created == stats.migrated - stats.created
      ensures s.errors == stats.errors + if fails then 1 else 0
    {
      if fails {
        s := stats.(errors := stats.errors + 1);
      } else {
        dest := dest[rel := content];
        records := records[rel := Active(content)];
        s := stats.(migrated := stats.migrated + 1, created := stats.created + 1);
      }
    }

    /** The loop of `_full_reset_from_profile` over the profile, once the project's copies are gone. */
    method ResetPaths(profile: map<Rel, Content>, failing: set<Rel>) returns (s: Stats)
      requires View() == Folder(map[], map[])
      modifies this`dest, this`records
      ensures View() == ResetOf(profile, failing)
      ensures s.created + s.errors == |profile.Keys| && s.migrated == s.created
              && s.errors == |Failed(failing, profile.Keys)|
    {
      hide *;
      var todo := profile.Keys;
      ghost var all: set<Rel>, done: set<Rel> := todo, {};
      s := NO_STATS;
      NothingCounted(failing, s);
      ResetNothing(profile, failing, View());
      while todo != {}
        invariant todo == all - done && done <= all
        invariant PartlyReset(profile, failing, todo, View())
        invariant |done| == s.created + s.errors && s.migrated == s.created && s.errors == |Failed(failing, done)|
        decreases todo
      {
        var rel :| rel in todo;
        ghost var before := View();
        s := ResetPath(rel, profile[rel], rel in failing, s);
        ResetOne(profile, failing, todo, rel, before, View());
        TakeOne(failing, done, rel);
        todo, done := todo - {rel}, done + {rel};
      }
      assert done == all;
      ResetDone(profile, failing, View());
    }

    /** `_full_reset_from_profile`: both counters of delivered files agree and, with the failures,
    account for every path of the profile. */
    method FullReset(profile: map<Rel, Content>, failing: set<Rel>, mode: Mode) returns (s: Stats)
      modifies this
      ensures View() == ResetOf(profile, failing) && manifest == Some(Some(mode))
      ensures s.created + s.errors == |profile.Keys| && s.migrated == s.created
              && s.errors == |Failed(failing, profile.Keys)|
    {
      dest, records := map[], map[];
      s := ResetPaths(profile, failing);
      manifest := Some(Some(mode));
    }

    /** The loop of `sync_profile_to_project` over every path known anywhere, in any order: one
    decision for each, each counted exactly once. */
    method SyncPaths(profile: map<Rel, Content>, failing: set<Rel>) returns (s: Stats)
      modifies this`dest, this`records
      ensures View() == SyncOf(profile, failing, old(View()))
      ensures Total(s) == |Keys(profile, old(View()))| && s.errors == |Failed(failing, Keys(profile, old(View())))|
    {
      hide Partly, SyncOf, Keys, Failed, Total, At, Lookup;
      ghost var f := View();
      var known := dest;
      var todo := Keys(profile, View());
      ghost var all, done := todo, {};
      s := NO_STATS;
      NothingYet(profile, failing, f);
      NothingCounted(failing, s);
      while todo != {}
        invariant todo == all - done && done <= all
        invariant Partly(profile, failing, f, done, View())
        invariant Total(s) == |done| && s.errors == |Failed(failing, done)|
        decreases todo
      {
        var rel :| rel in todo;
        s := DecideOne(profile, failing, f, done, rel, Lookup(known, rel), s);
        TakeOne(failing, done, rel);
        todo, done := todo - {rel}, done + {rel};
      }
      assert done == all;
      AllDecided(profile, failing, f, View());
    }

    /** `sync_profile_to_project`: refused for an empty profile; a reset without a usable manifest or
    after a change of mode; otherwise a sync. */
    method SyncProfile(profile: map<Rel, Content>, failing: set<Rel>, mode: Mode) returns (r: Outcome)
      modifies this
      ensures r.ProfileEmpty? <==> profile == map[]
      ensures r.ProfileEmpty? ==> View() == old(View()) && manifest == old(manifest)
      ensures r.Done? ==>
                var resets := old(manifest).None? || (old(manifest).value.Some? && old(manifest).value.value != mode);
                && manifest == Some(Some(mode))
                && View() == (if resets then ResetOf(profile, failing) else SyncOf(profile, failing, old(View())))
                && (!resets ==> Total(r.stats) == |Keys(profile, old(View()))|
                                && r.stats.errors == |Failed(failing, Keys(profile, old(View())))|)
    {
      if profile == map[] {
        return ProfileEmpty;
      }
      if manifest.None? || (manifest.value.Some? && manifest.value.value != mode) {
        var s := FullReset(profile, failing, mode);
        return Done(s);
      }
      var s := SyncPaths(profile, failing);
      manifest := Some(Some(mode));
      return Done(s);
    }
  }
}
