/** The slot table over whole runs: the claim loop is suspended at every query, while limits are
reloaded, resumed jobs are registered, promoted and released, and finished ones are drained. */
module SlotRuns {

  import opened Options
  import opened SlotTable

  /** Where the claim loop is suspended: between turns, holding the blacklist of this turn, or holding a
  claimed job whose provider is being resolved. */
  datatype Loop = Between | Looked(media: string, full: set<string>) | Holding(media: string, job: Job)

  datatype World = World(slots: map<Lane, Bucket>, limits: Limits, defaults: map<string, int>, loop: Loop)

  /** `Look`, `Claim` and `Decide` are the claim loop's: the blacklist, the query on the rows as they are
  then, and everything from reading the capacity to the registration, which nothing interrupts. The
  others are the reload, the orphan dispatcher and the drain. */
  datatype Event =
    | Look(media: string)
    | Claim(rows: seq<Job>)
    | Decide(task: Future)
    | Reload(limits: Limits)
    | RegisterPending(provider: string, media: string, id: string, task: Future)
    | Promote(provider: string, media: string, id: string)
    | Release(provider: string, media: string, id: string)
    | Drain(done: set<Future>)

  function Occupied(w: World, provider: string, media: string): nat {
    |At(w.slots, provider, media)|
  }

  function Cap(w: World, provider: string, media: string): int {
    Capacity(w.limits, w.defaults, provider, media)
  }

  predicate Full(w: World, provider: string, media: string) {
    0 < Cap(w, provider, media) <= Occupied(w, provider, media)
  }

  /** The full providers of a kind of media; only one that occupies a lane can be. */
  function Blacklist(w: World, media: string): set<string> {
    set lane | lane in w.slots && lane.1 == media && Full(w, lane.0, media) :: lane.0
  }

  function Register(slots: map<Lane, Bucket>, provider: string, media: string, id: string, o: Occupant)
    : map<Lane, Bucket>
  {
    With(slots, provider, media, At(slots, provider, media)[id := o])
  }

  /** Whether the claim loop is about to dispatch the job it holds. */
  predicate Dispatches(w: World) {
    w.loop.Holding? && Occupied(w, w.loop.job.provider, w.loop.media) < Cap(w, w.loop.job.provider, w.loop.media)
  }

  function Swept(slots: map<Lane, Bucket>, done: set<Future>): map<Lane, Bucket> {
    map lane | lane in slots && Unfinished(slots[lane], done) != map[] :: Unfinished(slots[lane], done)
  }

  function Step(w: World, e: Event): World {
    match e
    case Look(media) => if w.loop.Between? then w.(loop := Looked(media, Blacklist(w, media))) else w
    case Claim(rows) =>
      if !w.loop.Looked? then w
      else
        var next := NextEligible(rows, w.loop.full);
        w.(loop := if next.Some? then Holding(w.loop.media, rows[next.value]) else Between)
    case Decide(task) =>
      if !w.loop.Holding? then w
      else if Dispatches(w) then
        var job := w.loop.job;
        w.(slots := Register(w.slots, job.provider, w.loop.media, job.id, Occupant(task, false)), loop := Between)
      else w.(loop := Between)
    case Reload(limits) => w.(limits := limits)
    case RegisterPending(p, m, id, task) => w.(slots := Register(w.slots, p, m, id, Occupant(task, true)))
    case Promote(p, m, id) =>
      var b := At(w.slots, p, m);
      if id in b then w.(slots := With(w.slots, p, m, b[id := b[id].(pending := false)])) else w
    case Release(p, m, id) => w.(slots := With(w.slots, p, m, At(w.slots, p, m) - {id}))
    case Drain(done) => w.(slots := Swept(w.slots, done))
  }

  ghost predicate Initial(w: World) {
    w.slots == map[] && w.loop.Between?
  }

  /** The world after the first `n` events. Every sequence of events is a run. */
  function Run(w: World, events: seq<Event>, n: nat): World
    requires n <= |events|
  {
    if n == 0 then w else Step(Run(w, events, n - 1), events[n - 1])
  }

  // ---------------------------------------------------------------- one step

  lemma RegisterCounts(slots: map<Lane, Bucket>, provider: string, media: string, id: string, o: Occupant)
    requires NoEmptyBucket(slots)
    ensures var s' := Register(slots, provider, media, id, o);
            && NoEmptyBucket(s')
            && |At(s', provider, media)| <= |At(slots, provider, media)| + 1
            && forall p, m :: (p, m) != (provider, media) ==> At(s', p, m) == At(slots, p, m)
  {
    hide At, With;
    var b := At(slots, provider, media)[id := o];
    AtWith(slots, provider, media, b);
    OneMoreKey(At(slots, provider, media), id, o);
    WithKeeps(slots, provider, media, b);
  }

  lemma WithKeeps(slots: map<Lane, Bucket>, provider: string, media: string, b: Bucket)
    requires NoEmptyBucket(slots)
    ensures NoEmptyBucket(With(slots, provider, media, b))
  {
  }

  lemma FewerKeys(a: Bucket, b: Bucket)
    requires a.Keys <= b.Keys
    ensures |a| <= |b|
  {
    assert |a.Keys| <= |b.Keys| by {
      SubsetSize(a.Keys, b.Keys);
    }
  }

  lemma {:induction false} SubsetSize(a: set<string>, b: set<string>)
    requires a <= b
    ensures |a| <= |b|
  {
    if a != {} {
      var x :| x in a;
      SubsetSize(a - {x}, b - {x});
    }
  }

  lemma SweptCounts(slots: map<Lane, Bucket>, done: set<Future>, provider: string, media: string)
    ensures NoEmptyBucket(Swept(slots, done))
    ensures |At(Swept(slots, done), provider, media)| <= |At(slots, provider, media)|
  {
    var b := At(slots, provider, media);
    assert At(Swept(slots, done), provider, media) == Unfinished(b, done);
    FewerKeys(Unfinished(b, done), b);
  }

  /** What one step does to a lane: at most a dispatch or a pending registration adds to it, by one. */
  lemma StepCounts(w: World, e: Event, p: string, m: string)
    requires NoEmptyBucket(w.slots)
    ensures var w' := Step(w, e);
            && NoEmptyBucket(w'.slots)
            && w'.defaults == w.defaults && w'.limits == (if e.Reload? then e.limits else w.limits)
            && (e.Look? || e.Claim? || e.Reload? || (e.Decide? && !Dispatches(w)) ==> w'.slots == w.slots)
            && (Occupied(w', p, m) > Occupied(w, p, m) ==>
                  && Occupied(w', p, m) == Occupied(w, p, m) + 1
                  && (e.RegisterPending? || (e.Decide? && Dispatches(w)
                     && (p, m) == (w.loop.job.provider, w.loop.media))))
  {
    hide NoEmptyBucket, At, With, Register, Swept, Blacklist, NextEligible, Capacity;
    match e
    case Decide(task) =>
      if Dispatches(w) {
        RegisterCounts(w.slots, w.loop.job.provider, w.loop.media, w.loop.job.id, Occupant(task, false));
      }
    case RegisterPending(q, n, id, task) => RegisterCounts(w.slots, q, n, id, Occupant(task, true));
    case Promote(q, n, id) =>
      var b := At(w.slots, q, n);
      if id in b {
        var b' := b[id := b[id].(pending := false)];
        AtWith(w.slots, q, n, b');
        WithKeeps(w.slots, q, n, b');
        FewerKeys(b', b);
      }
    case Release(q, n, id) =>
      var b := At(w.slots, q, n);
      AtWith(w.slots, q, n, b - {id});
      WithKeeps(w.slots, q, n, b - {id});
      FewerKeys(b - {id}, b);
    case Drain(done) => SweptCounts(w.slots, done, p, m);
    case _ =>
  }

  /** Whether the event registers `id` in the lane anew. */
  predicate Registers(w: World, e: Event, p: string, m: string, id: string) {
    || (e.RegisterPending? && (e.provider, e.media, e.id) == (p, m, id))
    || (e.Decide? && Dispatches(w) && (w.loop.job.provider, w.loop.media, w.loop.job.id) == (p, m, id))
  }

  /** What one step does to an occupant: it leaves by its release, or by a drain once its future is done, which
  never takes a pending one; it is promoted; or it is registered anew. Nothing else touches it. */
  lemma OccupantStep(w: World, e: Event, p: string, m: string, id: string)
    requires id in At(w.slots, p, m)
    ensures var was, now := At(w.slots, p, m)[id], At(Step(w, e).slots, p, m);
            && (id !in now <==> e == Release(p, m, id) || (e.Drain? && !was.pending && was.task in e.done))
            && (e == Promote(p, m, id) ==> id in now && now[id] == was.(pending := false))
            && (id in now && e != Promote(p, m, id) && !Registers(w, e, p, m, id) ==> now[id] == was)
  {
    hide NoEmptyBucket, Blacklist, NextEligible, Capacity, With, At;
    match e
    case Decide(task) =>
      if Dispatches(w) {
        var j := w.loop.job;
        AtWith(w.slots, j.provider, w.loop.media, At(w.slots, j.provider, w.loop.media)[j.id := Occupant(task, false)]);
      }
    case RegisterPending(q, n, i, task) => AtWith(w.slots, q, n, At(w.slots, q, n)[i := Occupant(task, true)]);
    case Promote(q, n, i) =>
      var b := At(w.slots, q, n);
      if i in b {
        AtWith(w.slots, q, n, b[i := b[i].(pending := false)]);
      }
    case Release(q, n, i) => AtWith(w.slots, q, n, At(w.slots, q, n) - {i});
    case Drain(done) => SweptAt(w.slots, done, p, m);
    case _ =>
  }

  lemma SweptAt(slots: map<Lane, Bucket>, done: set<Future>, p: string, m: string)
    ensures At(Swept(slots, done), p, m) == Unfinished(At(slots, p, m), done)
    ensures forall id :: id in Unfinished(At(slots, p, m), done) <==>
              id in At(slots, p, m) && (At(slots, p, m)[id].pending || At(slots, p, m)[id].task !in done)
  {
  }

  // ---------------------------------------------------------------- whole runs

  /** No bucket is ever empty. */
  lemma {:induction false} NeverAnEmptyBucket(w: World, events: seq<Event>, n: nat)
    requires Initial(w) && n <= |events|
    ensures NoEmptyBucket(Run(w, events, n).slots)
  {
    hide Step;
    if n > 0 {
      NeverAnEmptyBucket(w, events, n - 1);
      StepCounts(Run(w, events, n - 1), events[n - 1], "", "");
    }
  }

  /** A resumed job's pending slot is held, through drains and reloads, until it is promoted, released or
  registered anew. */
  lemma {:induction false} PendingHeld(w: World, events: seq<Event>, i: nat, n: nat, p: string, m: string, id: string,
                                       o: Occupant)
    requires i <= n <= |events| && o.pending
    requires id in At(Run(w, events, i).slots, p, m) && At(Run(w, events, i).slots, p, m)[id] == o
    requires forall k :: i <= k < n ==>
               events[k] != Promote(p, m, id) && events[k] != Release(p, m, id)
               && !Registers(Run(w, events, k), events[k], p, m, id)
    ensures id in At(Run(w, events, n).slots, p, m) && At(Run(w, events, n).slots, p, m)[id] == o
  {
    hide Step, At, Registers;
    if i < n {
      PendingHeld(w, events, i, n - 1, p, m, id, o);
      OccupantStep(Run(w, events, n - 1), events[n - 1], p, m, id);
    }
  }

  /** The job is registered in flight, on top of what its lane held. */
  lemma DispatchRegisters(w: World, task: Future)
    requires NoEmptyBucket(w.slots) && Dispatches(w)
    ensures var w', job := Step(w, Decide(task)), w.loop.job;
            && At(w'.slots, job.provider, w.loop.media)
               == At(w.slots, job.provider, w.loop.media)[job.id := Occupant(task, false)]
            && Occupied(w', job.provider, w.loop.media) <= Cap(w', job.provider, w.loop.media)
  {
    hide At, With;
    var job, o := w.loop.job, Occupant(task, false);
    AtWith(w.slots, job.provider, w.loop.media, At(w.slots, job.provider, w.loop.media)[job.id := o]);
    OneMoreKey(At(w.slots, job.provider, w.loop.media), job.id, o);
  }

  /** In every run, whatever was reloaded or registered while the loop was suspended: right after a
  dispatch the lane is within the capacity then in force and the job holds its slot; a job that is not
  dispatched, and every other step of the claim loop, leaves the table as it was. */
  lemma ClaimsWithinCapacity(w: World, events: seq<Event>, n: nat)
    requires Initial(w) && n < |events|
    ensures var now, next := Run(w, events, n), Run(w, events, n + 1);
            && (events[n].Decide? && Dispatches(now) ==>
                  var job, media := now.loop.job, now.loop.media;
                  && Occupied(next, job.provider, media) <= Cap(next, job.provider, media)
                  && job.id in At(next.slots, job.provider, media)
                  && At(next.slots, job.provider, media)[job.id] == Occupant(events[n].task, false))
            && (events[n].Look? || events[n].Claim? || (events[n].Decide? && !Dispatches(now)) ==>
               next.slots == now.slots)
  {
    hide Step, Dispatches, At;
    NeverAnEmptyBucket(w, events, n);
    StepCounts(Run(w, events, n), events[n], "", "");
    if events[n].Decide? && Dispatches(Run(w, events, n)) {
      DispatchRegisters(Run(w, events, n), events[n].task);
    }
  }

  /** The same, over the maps then in force: a dispatch needs a positive number for the lane and leaves it
  within that number. */
  lemma ClaimsWithinNumbers(w: World, events: seq<Event>, n: nat)
    requires Initial(w) && n < |events| && events[n].Decide? && Run(w, events, n).loop.Holding?
    ensures var now, next := Run(w, events, n), Run(w, events, n + 1);
            var p, media := now.loop.job.provider, now.loop.media;
            if exists c :: c > Occupied(now, p, media) && Offers(now.limits, now.defaults, p, media, c)
            then now.loop.job.id in At(next.slots, p, media)
                 && forall c :: Offers(now.limits, now.defaults, p, media, c) ==> Occupied(next, p, media) <= c
            else next.slots == now.slots
  {
    hide Step, At, Capacity, Offers;
    var now := Run(w, events, n);
    CapacityOffered(now.limits, now.defaults, now.loop.job.provider, now.loop.media);
    ClaimsWithinCapacity(w, events, n);
    NeverAnEmptyBucket(w, events, n);
    StepCounts(now, events[n], "", "");
  }

  /** Over any stretch of any run in which no resumed job is registered in a lane, the lane stays within
  every bound that it kept at the start and that its capacity keeps throughout, reloads included. */
  lemma {:induction false} GrowsWithinCapacity(w: World, events: seq<Event>, i: nat, n: nat, p: string, m: string,
      bound: nat)
    requires Initial(w) && i <= n <= |events| && Occupied(Run(w, events, i), p, m) <= bound
    requires forall k :: i <= k < n ==> Cap(Run(w, events, k), p, m) <= bound
    requires forall k :: i <= k < n && events[k].RegisterPending? ==> (events[k].provider, events[k].media) != (p, m)
    ensures Occupied(Run(w, events, n), p, m) <= bound
  {
    hide Step, Cap;
    if i < n {
      GrowsWithinCapacity(w, events, i, n - 1, p, m, bound);
      NeverAnEmptyBucket(w, events, n - 1);
      StepWithin(Run(w, events, n - 1), events[n - 1], p, m, bound);
    }
  }

  lemma StepWithin(w: World, e: Event, p: string, m: string, bound: nat)
    requires NoEmptyBucket(w.slots) && Occupied(w, p, m) <= bound && Cap(w, p, m) <= bound
    requires e.RegisterPending? ==> (e.provider, e.media) != (p, m)
    ensures Occupied(Step(w, e), p, m) <= bound
  {
    hide At, Capacity, Register;
    StepCounts(w, e, p, m);
    if e.RegisterPending? {
      RegisterCounts(w.slots, e.provider, e.media, e.id, Occupant(e.task, true));
    }
  }

  /** The row waits for no dependency and is not stored with one of these providers. */
  predicate Open(row: Job, full: set<string>) {
    row.ready && forall p :: row.declared == Some(p) ==> p !in full
  }

  /** A claim takes the oldest ready row that the blacklist of its turn leaves, and that blacklist was, when
  it was built, exactly the full providers. */
  lemma ClaimTakesOldest(w: World, rows: seq<Job>)
    requires w.loop.Looked?
    ensures var w' := Step(w, Claim(rows));
            if exists i :: 0 <= i < |rows| && Open(rows[i], w.loop.full)
            then exists i :: 0 <= i < |rows| && w'.loop == Holding(w.loop.media, rows[i])
                             && Open(rows[i], w.loop.full)
                             && forall j :: 0 <= j < i ==> !Open(rows[j], w.loop.full)
            else w'.loop == Between
  {
  }

  lemma BlacklistIsFull(w: World, media: string)
    requires NoEmptyBucket(w.slots)
    ensures forall p :: p in Blacklist(w, media) <==> Full(w, p, media)
  {
    forall p ensures p in Blacklist(w, media) <==> Full(w, p, media) {
      if Full(w, p, media) {
        assert (p, media) in w.slots && (p, media).0 == p;
      }
    }
  }
}
