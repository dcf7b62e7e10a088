/** Worker slots: who occupies which provider lane, which providers are full, and the claim loop that
fills the lanes. */
module SlotTable {

  import opened Options

  type Lane = (string, string)

  type Future = int

  datatype Occupant = Occupant(task: Future, pending: bool)

  type Bucket = map<string, Occupant>

  /** The lane of a provider for a kind of media, empty when the table has no bucket for it. */
  function At(slots: map<Lane, Bucket>, provider: string, media: string): Bucket {
    if (provider, media) in slots then slots[(provider, media)] else map[]
  }

  /** The table with one lane replaced; an empty lane leaves no bucket. */
  function With(slots: map<Lane, Bucket>, provider: string, media: string, b: Bucket): map<Lane, Bucket> {
    if b == map[] then slots - {(provider, media)} else slots[(provider, media) := b]
  }

  predicate Finished(o: Occupant, done: set<Future>) {
    !o.pending && o.task in done
  }

  class Slots {
    var slots: map<Lane, Bucket>

    /** No bucket is ever empty. */
    ghost predicate Valid()
      reads this
    {
      NoEmptyBucket(slots)
    }

    constructor ()
      ensures Valid() && slots == map[]
    {
      slots := map[];
    }

    method Register(provider: string, media: string, id: string, task: Future, pending: bool)
      requires Valid()
      modifies this
      ensures Valid()
      ensures slots == With(old(slots), provider, media, At(old(slots), provider, media)[id := Occupant(task, pending)])
    {
      if (provider, media) !in slots {
        slots := slots[(provider, media) := map[]];
      }
      var bucket := slots[(provider, media)][id := Occupant(task, pending)];
      assert id in bucket;
      slots := slots[(provider, media) := bucket];
    }

    method Promote(provider: string, media: string, id: string)
      requires Valid()
      modifies this
      ensures Valid()
      ensures var b := At(old(slots), provider, media);
              slots == if id in b then With(old(slots), provider, media, b[id := b[id].(pending := false)])
                  else old(slots)
    {
      if (provider, media) !in slots {
        return;
      }
      var bucket := slots[(provider, media)];
      if id in bucket {
        bucket := bucket[id := bucket[id].(pending := false)];
        assert id in bucket;
        slots := slots[(provider, media) := bucket];
      }
    }

    method Release(provider: string, media: string, id: string)
      requires Valid()
      modifies this
      ensures Valid()
      ensures slots == With(old(slots), provider, media, At(old(slots), provider, media) - {id})
    {
      if (provider, media) !in slots {
        assert slots - {(provider, media)} == slots;
        return;
      }
      var bucket := slots[(provider, media)] - {id};
      slots := slots[(provider, media) := bucket];
      if bucket == map[] {
        slots := slots - {(provider, media)};
      }
    }

    function Occupied(provider: string, media: string): nat
      reads this
    {
      |At(slots, provider, media)|
    }

    predicate HasRoom(provider: string, media: string, capacity: int)
      reads this
    {
      capacity > 0 && Occupied(provider, media) < capacity
    }

    method OccupiedProviders(media: string) returns (providers: set<string>)
      requires Valid()
      ensures forall p :: p in providers <==> Occupied(p, media) > 0
    {
      providers := set lane | lane in slots && lane.1 == media && slots[lane] != map[] :: lane.0;
      forall p ensures p in providers <==> Occupied(p, media) > 0 {
        if Occupied(p, media) > 0 {
          assert (p, media) in slots && (p, media).0 == p;
        }
      }
    }

    /** The future of a job wherever it is held; `None` exactly when no lane holds it. */
    method FindByTask(id: string) returns (r: Option<Future>)
      ensures r.Some? ==> exists lane :: lane in slots && id in slots[lane] && slots[lane][id].task == r.value
      ensures r.None? ==> forall lane :: lane in slots ==> id !in slots[lane]
    {
      var todo := slots.Keys;
      while todo != {}
        invariant todo <= slots.Keys
        invariant forall lane :: lane in slots && lane !in todo ==> id !in slots[lane]
        decreases todo
      {
        var lane :| lane in todo;
        if id in slots[lane] {
          return Some(slots[lane][id].task);
        }
        todo := todo - {lane};
      }
      return None;
    }

    /** `drain_finished`: takes out every finished occupant, leaves every other one where it is. */
    method DrainFinished(done: set<Future>) returns (finished: seq<(string, Future)>)
      requires Valid()
      modifies this
      ensures Valid()
      ensures forall p, m :: At(slots, p, m) == Unfinished(At(old(slots), p, m), done)
      ensures forall f ::
                f in finished <==> exists lane :: lane in old(slots) && IsFinishedIn(old(slots)[lane], f, done)
    {
      hide Swept, At, Unfinished, IsFinishedIn;
      finished := [];
      var todo := slots.Keys;
      ghost var was := slots;
      NothingSwept(was, done);
      while todo != {}
        invariant todo <= slots.Keys && Swept(was, slots, todo, finished, done)
        decreases todo
      {
        var lane :| lane in todo;
        ghost var before, reported := slots, finished;
        var gone := DoneIn(slots[lane], done);
        var bucket := Unfinished(slots[lane], done);
        slots := if bucket == map[] then slots - {lane} else slots[lane := bucket];
        SweepOne(was, before, slots, todo, lane, finished, gone, done);
        todo := todo - {lane};
        finished := finished + gone;
      }
      SweptAll(was, slots, finished, done);
    }
  }

  ghost predicate NoEmptyBucket(slots: map<Lane, Bucket>) {
    forall lane :: lane in slots ==> slots[lane] != map[]
  }

  /** Half-way through a drain: the lanes in `todo` are still as they were. */
  ghost predicate Swept(was: map<Lane, Bucket>, now: map<Lane, Bucket>, todo: set<Lane>,
                        finished: seq<(string, Future)>, done: set<Future>) {
    && NoEmptyBucket(now)
    && (forall p, m :: At(now, p, m) == if (p, m) in todo then At(was, p, m) else Unfinished(At(was, p, m), done))
    && (forall f :: f in finished <==> exists lane :: lane in was && lane !in todo && IsFinishedIn(was[lane], f, done))
  }

  lemma NothingSwept(was: map<Lane, Bucket>, done: set<Future>)
    requires NoEmptyBucket(was)
    ensures Swept(was, was, was.Keys, [], done)
  {
  }

  lemma SweptAll(was: map<Lane, Bucket>, now: map<Lane, Bucket>, finished: seq<(string, Future)>, done: set<Future>)
    requires Swept(was, now, {}, finished, done)
    ensures NoEmptyBucket(now) && forall p, m :: At(now, p, m) == Unfinished(At(was, p, m), done)
    ensures forall f :: f in finished <==> exists lane :: lane in was && IsFinishedIn(was[lane], f, done)
  {
    hide At, Unfinished, IsFinishedIn;
    forall f ensures f in finished <==> exists lane :: lane in was && IsFinishedIn(was[lane], f, done) {
      if lane :| lane in was && IsFinishedIn(was[lane], f, done) {
        assert lane !in {};
      }
    }
  }

  lemma SweepOne(was: map<Lane, Bucket>, before: map<Lane, Bucket>, now: map<Lane, Bucket>, todo: set<Lane>, lane: Lane,
                 finished: seq<(string, Future)>, gone: seq<(string, Future)>, done: set<Future>)
    requires Swept(was, before, todo, finished, done) && lane in todo && lane in before
    requires var b := Unfinished(before[lane], done);
             now == if b == map[] then before - {lane} else before[lane := b]
    requires forall f :: f in gone <==> IsFinishedIn(before[lane], f, done)
    ensures Swept(was, now, todo - {lane}, finished + gone, done)
  {
    hide Unfinished, IsFinishedIn;
    assert At(before, lane.0, lane.1) == At(was, lane.0, lane.1);
    AtWith(before, lane.0, lane.1, Unfinished(before[lane], done));
    assert lane in was && was[lane] == before[lane];
  }

  function Unfinished(b: Bucket, done: set<Future>): Bucket {
    map id | id in b && !Finished(b[id], done) :: b[id]
  }

  predicate IsFinishedIn(b: Bucket, f: (string, Future), done: set<Future>) {
    f.0 in b && Finished(b[f.0], done) && b[f.0].task == f.1
  }

  method DoneIn(b: Bucket, done: set<Future>) returns (gone: seq<(string, Future)>)
    ensures forall f :: f in gone <==> IsFinishedIn(b, f, done)
  {
    gone := [];
    var todo := b.Keys;
    while todo != {}
      invariant todo <= b.Keys
      invariant forall f :: f in gone <==> f.0 !in todo && IsFinishedIn(b, f, done)
      decreases todo
    {
      var id :| id in todo;
      todo := todo - {id};
      if Finished(b[id], done) {
        gone := gone + [(id, b[id].task)];
      }
    }
  }

  // ---------------------------------------------------------------- capacity

  /** Known provider: its own number, or none for a lane it does not have; unknown: the default. */
  function Capacity(limits: map<string, map<string, int>>, defaults: map<string, int>, provider: string,
      media: string): int {
    if provider !in limits then (if media in defaults then defaults[media] else 0)
    else if media in limits[provider] then limits[provider][media] else 0
  }

  /** The two maps give `n` for the lane: the provider's own number for it, or the default for a provider
  that is not listed. A listed provider without the lane has no number. */
  predicate Offers(limits: map<string, map<string, int>>, defaults: map<string, int>, provider: string, media: string,
                   n: int) {
    if provider in limits then media in limits[provider] && limits[provider][media] == n
    else media in defaults && defaults[media] == n
  }

  lemma CapacityOffered(limits: map<string, map<string, int>>, defaults: map<string, int>, provider: string,
                        media: string)
    ensures var n := Capacity(limits, defaults, provider, media);
            && (n != 0 ==> Offers(limits, defaults, provider, media, n))
            && forall m :: Offers(limits, defaults, provider, media, m) ==> m == n
  {
  }

  class CapacityTable {
    var limits: map<string, map<string, int>>
    const defaults: map<string, int>

    constructor (limits: map<string, map<string, int>>, defaults: map<string, int>)
      ensures this.limits == limits && this.defaults == defaults
    {
      this.limits, this.defaults := limits, defaults;
    }

    function Get(provider: string, media: string): int
      reads this
    {
      Capacity(limits, defaults, provider, media)
    }
  }

  // ---------------------------------------------------------------- claiming

  /** A queued job: the provider stored with it, if any, the one its payload resolves to, and whether it
  is free of unfinished dependencies. */
  datatype Job = Job(id: string, declared: Option<string>, provider: string, ready: bool)

  predicate Eligible(job: Job, full: set<string>) {
    job.ready && (job.declared.None? || job.declared.value !in full)
  }

  /** The oldest queued job that is ready and not of a full provider. */
  function NextEligible(queue: seq<Job>, full: set<string>): (r: Option<nat>)
    ensures r.Some? ==> r.value < |queue| && Eligible(queue[r.value], full)
    ensures forall i :: 0 <= i < (if r.Some? then r.value else |queue|) ==> !Eligible(queue[i], full)
  {
    if queue == [] then None
    else if Eligible(queue[0], full) then Some(0)
    else
      var r := NextEligible(queue[1..], full);
      if r.Some? then Some(r.value + 1) else None
  }

  /** `c` is `a` and `b` shuffled together, each in its own order. */
  ghost predicate Merge<T>(a: seq<T>, b: seq<T>, c: seq<T>) {
    if c == [] then a == [] && b == []
    else
      var last := c[|c| - 1];
      || (a != [] && a[|a| - 1] == last && Merge(a[..|a| - 1], b, c[..|c| - 1]))
      || (b != [] && b[|b| - 1] == last && Merge(a, b[..|b| - 1], c[..|c| - 1]))
  }

  lemma MergeLeft<T>(a: seq<T>, b: seq<T>, c: seq<T>, x: T)
    requires Merge(a, b, c)
    ensures Merge(a + [x], b, c + [x])
  {
    assert (a + [x])[..|a|] == a && (c + [x])[..|c|] == c;
  }

  lemma {:induction false} MergeRight<T>(a: seq<T>, b: seq<T>, c: seq<T>, d: seq<T>)
    requires Merge(a, b, c)
    ensures Merge(a, b + d, c + d)
  {
    if d == [] {
      assert b + d == b && c + d == c;
    } else {
      var e := d[..|d| - 1];
      MergeRight(a, b, c, e);
      assert (b + d)[..|b + d| - 1] == b + e && (c + d)[..|c + d| - 1] == c + e;
    }
  }

  // ---------------------------------------------------------------- a pass as one scan

  type Limits = map<string, map<string, int>>

  /** What one pass over a lane leaves: the table, the jobs still queued, those dispatched and those
  failed, and the place among the queued ones of the job put back, if one was. */
  datatype Pass = Pass(
    slots: map<Lane, Bucket>, rest: seq<Job>, dispatched: seq<Job>, failed: seq<Job>, requeued: Option<nat>)

  /** At or above a positive capacity. */
  predicate FullAt(slots: map<Lane, Bucket>, limits: Limits, defaults: map<string, int>,
                   provider: string, media: string)
  {
    0 < Capacity(limits, defaults, provider, media) <= |At(slots, provider, media)|
  }

  /** Waiting for a dependency, or stored with a full provider. */
  predicate Waits(slots: map<Lane, Bucket>, limits: Limits, defaults: map<string, int>, media: string, job: Job) {
    !job.ready || (job.declared.Some? && FullAt(slots, limits, defaults, job.declared.value, media))
  }

  function Dispatched(slots: map<Lane, Bucket>, media: string, spawn: string -> Future, job: Job): map<Lane, Bucket> {
    With(slots, job.provider, media, At(slots, job.provider, media)[job.id := Occupant(spawn(job.id), false)])
  }

  /** The pass as a single scan of the queue that never looks back: a job that waits is passed over, one
  without capacity fails, one with room is dispatched, and one that is full after all ends the scan. */
  function Scan(slots: map<Lane, Bucket>, limits: Limits, defaults: map<string, int>, media: string,
                spawn: string -> Future, queue: seq<Job>): Pass
    decreases |queue|
  {
    if queue == [] then Pass(slots, [], [], [], None)
    else
      var job, tail := queue[0], queue[1..];
      if Waits(slots, limits, defaults, media, job) then
        PassedOver(job, Scan(slots, limits, defaults, media, spawn, tail))
      else if Capacity(limits, defaults, job.provider, media) <= 0 then
        Continued([], [job], Scan(slots, limits, defaults, media, spawn, tail))
      else if FullAt(slots, limits, defaults, job.provider, media) then Pass(slots, queue, [], [], Some(0))
      else
        Continued([job], [], Scan(Dispatched(slots, media, spawn, job), limits, defaults, media, spawn, tail))
  }

  /** A pass over the jobs behind one that is left in the queue. */
  function PassedOver(job: Job, r: Pass): Pass {
    r.(rest := [job] + r.rest, requeued := if r.requeued.Some? then Some(r.requeued.value + 1) else None)
  }

  /** A pass that goes on after these jobs. */
  function Continued(dispatched: seq<Job>, failed: seq<Job>, r: Pass): Pass {
    r.(dispatched := dispatched + r.dispatched, failed := failed + r.failed)
  }

  /** A scan over jobs that all wait. */
  lemma {:induction false} ScanPasses(slots: map<Lane, Bucket>, limits: Limits, defaults: map<string, int>,
                                      media: string, spawn: string -> Future, queue: seq<Job>)
    requires forall i :: 0 <= i < |queue| ==> Waits(slots, limits, defaults, media, queue[i])
    ensures Scan(slots, limits, defaults, media, spawn, queue) == Pass(slots, queue, [], [], None)
    decreases |queue|
  {
    hide Waits;
    if queue != [] {
      ScanPasses(slots, limits, defaults, media, spawn, queue[1..]);
    }
  }

  /** A scan that ends at job `k`, behind jobs that wait. */
  lemma {:induction false} ScanEnds(slots: map<Lane, Bucket>, limits: Limits, defaults: map<string, int>,
                                    media: string, spawn: string -> Future, queue: seq<Job>, k: nat)
    requires k < |queue| && forall i :: 0 <= i < k ==> Waits(slots, limits, defaults, media, queue[i])
    requires !Waits(slots, limits, defaults, media, queue[k])
    requires FullAt(slots, limits, defaults, queue[k].provider, media)
    ensures Scan(slots, limits, defaults, media, spawn, queue) == Pass(slots, queue, [], [], Some(k))
    decreases |queue|
  {
    hide Waits;
    if k > 0 {
      ScanEnds(slots, limits, defaults, media, spawn, queue[1..], k - 1);
    }
  }

  /** Claiming job `k`, behind jobs that wait before and after the claim, and starting over from the head
  of what is left comes to the same as going on behind it. */
  lemma {:induction false} ScanClaims(slots: map<Lane, Bucket>, limits: Limits, defaults: map<string, int>,
                                      media: string, spawn: string -> Future, queue: seq<Job>, k: nat, fails: bool)
    requires k < |queue| && !Waits(slots, limits, defaults, media, queue[k])
    requires !FullAt(slots, limits, defaults, queue[k].provider, media)
    requires fails <==> Capacity(limits, defaults, queue[k].provider, media) <= 0
    requires var next := if fails then slots else Dispatched(slots, media, spawn, queue[k]);
             forall i :: 0 <= i < k ==>
               Waits(slots, limits, defaults, media, queue[i]) && Waits(next, limits, defaults, media, queue[i])
    ensures var job := queue[k];
            var next := if fails then slots else Dispatched(slots, media, spawn, job);
            Scan(slots, limits, defaults, media, spawn, queue)
            == Continued(if fails then [] else [job], if fails then [job] else [],
                         Scan(next, limits, defaults, media, spawn, queue[..k] + queue[k + 1..]))
    decreases k
  {
    hide Scan, Waits, Dispatched, FullAt, Continued;
    var next := if fails then slots else Dispatched(slots, media, spawn, queue[k]);
    var left := queue[..k] + queue[k + 1..];
    if k == 0 {
      assert left == queue[1..];
      ScanClaimsFirst(slots, limits, defaults, media, spawn, queue, fails);
    } else {
      var tail := queue[1..];
      assert tail[k - 1] == queue[k] && left[0] == queue[0] && left[1..] == tail[..k - 1] + tail[k..];
      ScanPassesFirst(slots, limits, defaults, media, spawn, queue);
      ScanPassesFirst(next, limits, defaults, media, spawn, left);
      ScanClaims(slots, limits, defaults, media, spawn, tail, k - 1, fails);
      var r := Scan(next, limits, defaults, media, spawn, left[1..]);
      PassedThenContinued(queue[0], if fails then [] else [queue[k]], if fails then [queue[k]] else [], r);
    }
  }

  lemma PassedThenContinued(job: Job, dispatched: seq<Job>, failed: seq<Job>, r: Pass)
    ensures PassedOver(job, Continued(dispatched, failed, r)) == Continued(dispatched, failed, PassedOver(job, r))
  {
  }

  lemma ContinuedTwice(a: seq<Job>, b: seq<Job>, c: seq<Job>, d: seq<Job>, r: Pass)
    ensures Continued(a, b, Continued(c, d, r)) == Continued(a + c, b + d, r)
    ensures a + [] == a && b + [] == b
  {
    assert a + (c + r.dispatched) == a + c + r.dispatched && b + (d + r.failed) == b + d + r.failed;
    assert a + [] == a && b + [] == b;
  }

  lemma ContinuedEnds(dispatched: seq<Job>, failed: seq<Job>, r: Pass)
    ensures Continued([], [], r) == r
    ensures r.dispatched == r.failed == [] ==>
              Continued(dispatched, failed, r) == r.(dispatched := dispatched, failed := failed)
  {
    assert [] + r.dispatched == r.dispatched && [] + r.failed == r.failed;
    assert dispatched + [] == dispatched && failed + [] == failed;
  }

  lemma ScanPassesFirst(slots: map<Lane, Bucket>, limits: Limits, defaults: map<string, int>, media: string,
                        spawn: string -> Future, queue: seq<Job>)
    requires queue != [] && Waits(slots, limits, defaults, media, queue[0])
    ensures Scan(slots, limits, defaults, media, spawn, queue)
         == PassedOver(queue[0], Scan(slots, limits, defaults, media, spawn, queue[1..]))
  {
    hide Waits;
  }

  lemma ScanClaimsFirst(slots: map<Lane, Bucket>, limits: Limits, defaults: map<string, int>, media: string,
                        spawn: string -> Future, queue: seq<Job>, fails: bool)
    requires queue != [] && !Waits(slots, limits, defaults, media, queue[0])
    requires !FullAt(slots, limits, defaults, queue[0].provider, media)
    requires fails <==> Capacity(limits, defaults, queue[0].provider, media) <= 0
    ensures var job := queue[0];
            var next := if fails then slots else Dispatched(slots, media, spawn, job);
            Scan(slots, limits, defaults, media, spawn, queue)
            == Continued(if fails then [] else [job], if fails then [job] else [],
                         Scan(next, limits, defaults, media, spawn, queue[1..]))
  {
    hide Waits, Capacity, FullAt, Dispatched;
  }

  class Worker {
    const slots: Slots
    const capacity: CapacityTable

    constructor (slots: Slots, capacity: CapacityTable)
      ensures this.slots == slots && this.capacity == capacity
    {
      this.slots, this.capacity := slots, capacity;
    }

    /** At or above a positive capacity. */
    predicate Full(provider: string, media: string)
      reads slots, capacity
    {
      0 < capacity.Get(provider, media) <= slots.Occupied(provider, media)
    }

    /** The blacklist, built from the occupied providers only, is every full provider there is. */
    method PoolFullProviders(media: string) returns (full: set<string>)
      requires slots.Valid()
      ensures forall p :: p in full <==> Full(p, media)
    {
      var occupied := slots.OccupiedProviders(media);
      full := set p | p in occupied && capacity.Get(p, media) > 0 && !slots.HasRoom(p, media, capacity.Get(p, media));
    }

    /** Every one of these jobs waits for a dependency or is stored with a full provider. */
    ghost predicate Blocked(jobs: seq<Job>, media: string)
      reads slots, capacity
    {
      forall i :: 0 <= i < |jobs| && jobs[i].ready ==> jobs[i].declared.Some? && Full(jobs[i].declared.value, media)
    }

    lemma NothingFailed(media: string)
      ensures Unsupported([], media) && Within(slots.slots, media)
    {
    }

    lemma NothingBlocked(media: string)
      ensures Blocked([], media)
    {
    }

    /** None of these jobs has a provider with any capacity. */
    ghost predicate Unsupported(jobs: seq<Job>, media: string)
      reads capacity
    {
      forall job :: job in jobs ==> capacity.Get(job.provider, media) <= 0
    }

    lemma UnsupportedOneMore(jobs: seq<Job>, job: Job, media: string)
      requires Unsupported(jobs, media) && capacity.Get(job.provider, media) <= 0
      ensures Unsupported(jobs + [job], media)
    {
    }

    /** `claim_next_task` with the blacklist of this cycle. */
    method ClaimNext(media: string, queue: seq<Job>, ghost skipped: seq<Job>) returns (next: Option<nat>)
      requires slots.Valid() && Blocked(skipped, media) && skipped <= queue
      ensures next.None? ==> Blocked(queue, media)
      ensures next.Some? ==> |skipped| <= next.value && FirstOpen(media, queue, next.value)
    {
      var full := PoolFullProviders(media);
      next := NextEligible(queue, full);
      assert forall i :: 0 <= i < |skipped| ==> queue[i] == skipped[i] && !Eligible(queue[i], full);
    }

    /** No lane has grown beyond its capacity. */
    ghost predicate Within(was: map<Lane, Bucket>, media: string)
      reads slots, capacity
    {
      forall p :: slots.Occupied(p, media) > |At(was, p, media)| ==> slots.Occupied(p, media) <= capacity.Get(p, media)
    }

    /** `_claim_tasks` for one kind of media, in a pass that nothing else interrupts. Claims go in queue
    order and jump only over jobs that are blocked; each claimed job either has its slot or was failed
    for want of any capacity; no lane is filled beyond its capacity; and the loop ends, with every job
    left blocked, or at the first job whose real provider turns out to be full. */
    method ClaimLane(media: string, queue: seq<Job>, spawn: string -> Future)
      returns (rest: seq<Job>, dispatched: seq<Job>, failed: seq<Job>, requeued: Option<nat>, ghost claimed: seq<Job>)
      requires slots.Valid()
      modifies slots
      ensures slots.Valid()
      ensures Merge(claimed, rest, queue) && Merge(dispatched, failed, claimed)
      ensures Unsupported(failed, media)
      ensures Placed(old(slots.slots), slots.slots, media, dispatched, spawn)
      ensures Within(old(slots.slots), media)
      ensures requeued.None? ==> Blocked(rest, media)
      ensures requeued.Some? ==>
                && requeued.value < |rest|
                && Blocked(rest[..requeued.value], media)
                && var job := rest[requeued.value];
                && job.ready && Full(job.provider, media)
                && (job.declared.Some? ==> !Full(job.declared.value, media))
      ensures requeued.Some? ==>
                exists n :: 0 <= n < |queue| && queue[n] == rest[requeued.value]
                  && rest[requeued.value + 1..] == queue[n + 1..]
                  && Merge(claimed, rest[..requeued.value], queue[..n])
      ensures Pass(slots.slots, rest, dispatched, failed, requeued)
              == Scan(old(slots.slots), capacity.limits, capacity.defaults, media, spawn, queue)
    {
      hide Merge, Placed, At, With, Taken, Blocked, CapacityTable.Get, Scan, Full, Continued,
           FirstOpen, Unsupported, Within, PassedOver;
      rest, dispatched, failed, requeued, claimed := queue, [], [], None, [];
      ghost var skipped: seq<Job>, n: nat := [], 0;
      ghost var was := slots.slots;
      NothingTaken(queue);
      NothingBlocked(media);
      NothingPlaced(was, media, spawn);
      NothingFailed(media);
      ContinuedEnds([], [], ScanOf(was, media, spawn, queue));
      while true
        invariant slots.Valid()
        invariant Taken(queue, rest, skipped, claimed, n)
        invariant Merge(dispatched, failed, claimed)
        invariant Unsupported(failed, media)
        invariant Placed(was, slots.slots, media, dispatched, spawn)
        invariant Within(was, media) && Blocked(skipped, media)
        invariant Scan(was, capacity.limits, capacity.defaults, media, spawn, queue)
               == Continued(dispatched, failed, ScanOf(slots.slots, media, spawn, rest))
        decreases |rest|
      {
        TakenSoFar(queue, rest, skipped, claimed, n);
        var next := ClaimNext(media, rest, skipped);
        if next.None? {
          PassesAll(media, spawn, rest);
          ContinuedEnds(dispatched, failed, ScanOf(slots.slots, media, spawn, rest));
          return;
        }
        var k := next.value;
        var job := rest[k];
        var cap := capacity.Get(job.provider, media);
        if cap <= 0 {
          MergeRight(dispatched, failed, claimed, [job]);
          FailsOne(media, spawn, rest, k);
          UnsupportedOneMore(failed, job, media);
          ContinuedTwice(dispatched, failed, [], [job], ScanOf(slots.slots, media, spawn, rest[..k] + rest[k + 1..]));
          failed := failed + [job];
        } else if !slots.HasRoom(job.provider, media, cap) {
          requeued := Some(k);
          StopsAt(queue, rest, skipped, claimed, n, k);
          EndsHere(media, spawn, rest, k);
          ContinuedEnds(dispatched, failed, ScanOf(slots.slots, media, spawn, rest));
          return;
        } else {
          MergeLeft(dispatched, failed, claimed, job);
          Dispatch(job, media, spawn, was, dispatched, rest, k);
          ContinuedTwice(dispatched, failed, [job], [], ScanOf(slots.slots, media, spawn, rest[..k] + rest[k + 1..]));
          dispatched := dispatched + [job];
        }
        TakeNext(queue, rest, skipped, claimed, n, k);
        skipped, n := rest[..k], n + (k - |skipped|) + 1;
        rest := rest[..k] + rest[k + 1..];
        claimed := claimed + [job];
      }
    }

    function ScanOf(table: map<Lane, Bucket>, media: string, spawn: string -> Future, queue: seq<Job>): Pass
      reads capacity
    {
      Scan(table, capacity.limits, capacity.defaults, media, spawn, queue)
    }

    lemma PassesAll(media: string, spawn: string -> Future, rest: seq<Job>)
      requires Blocked(rest, media)
      ensures ScanOf(slots.slots, media, spawn, rest) == Pass(slots.slots, rest, [], [], None)
    {
      ScanPasses(slots.slots, capacity.limits, capacity.defaults, media, spawn, rest);
    }

    lemma EndsHere(media: string, spawn: string -> Future, rest: seq<Job>, k: nat)
      requires FirstOpen(media, rest, k) && capacity.Get(rest[k].provider, media) > 0
      requires !slots.HasRoom(rest[k].provider, media, capacity.Get(rest[k].provider, media))
      ensures Blocked(rest[..k], media) && rest[k].ready && Full(rest[k].provider, media)
      ensures rest[k].declared.Some? ==> !Full(rest[k].declared.value, media)
      ensures ScanOf(slots.slots, media, spawn, rest) == Pass(slots.slots, rest, [], [], Some(k))
    {
      FirstOpenWaits(media, rest, k);
      ScanEnds(slots.slots, capacity.limits, capacity.defaults, media, spawn, rest, k);
    }

    /** The jobs before `k` wait and job `k` does not. */
    ghost predicate FirstOpen(media: string, rest: seq<Job>, k: nat)
      reads slots, capacity
    {
      && k < |rest| && Blocked(rest[..k], media) && rest[k].ready
      && (rest[k].declared.Some? ==> !Full(rest[k].declared.value, media))
    }

    lemma FirstOpenWaits(media: string, rest: seq<Job>, k: nat)
      requires FirstOpen(media, rest, k)
      ensures forall i :: 0 <= i <= k ==>
                (Waits(slots.slots, capacity.limits, capacity.defaults, media, rest[i]) <==> i < k)
    {
      assert forall i :: 0 <= i < k ==> rest[..k][i] == rest[i];
    }

    lemma FailsOne(media: string, spawn: string -> Future, rest: seq<Job>, k: nat)
      requires FirstOpen(media, rest, k) && capacity.Get(rest[k].provider, media) <= 0
      ensures ScanOf(slots.slots, media, spawn, rest)
           == Continued([], [rest[k]], ScanOf(slots.slots, media, spawn, rest[..k] + rest[k + 1..]))
    {
      hide Scan, Waits;
      FirstOpenWaits(media, rest, k);
      ScanClaims(slots.slots, capacity.limits, capacity.defaults, media, spawn, rest, k, true);
    }

    /** The dispatch of job `k` took the table from `before` to what it is now. */
    lemma DispatchedOne(before: map<Lane, Bucket>, media: string, spawn: string -> Future, rest: seq<Job>, k: nat)
      requires k < |rest| && Blocked(rest[..k], media)
      requires forall i :: 0 <= i <= k ==>
                 (Waits(before, capacity.limits, capacity.defaults, media, rest[i]) <==> i < k)
      requires !FullAt(before, capacity.limits, capacity.defaults, rest[k].provider, media)
      requires capacity.Get(rest[k].provider, media) > 0
      requires slots.slots == Dispatched(before, media, spawn, rest[k])
      ensures ScanOf(before, media, spawn, rest)
           == Continued([rest[k]], [], ScanOf(slots.slots, media, spawn, rest[..k] + rest[k + 1..]))
    {
      hide Scan, Dispatched;
      assert forall i :: 0 <= i < k ==> rest[..k][i] == rest[i];
      forall i | 0 <= i < k ensures Waits(slots.slots, capacity.limits, capacity.defaults, media, rest[i]) {
      }
      hide Waits, FullAt;
      ScanClaims(before, capacity.limits, capacity.defaults, media, spawn, rest, k, false);
    }

    /** The registration of a claimed job that has room. */
    method Dispatch(job: Job, media: string, spawn: string -> Future,
                    ghost was: map<Lane, Bucket>, ghost dispatched: seq<Job>, ghost rest: seq<Job>, ghost k: nat)
      requires slots.Valid() && slots.HasRoom(job.provider, media, capacity.Get(job.provider, media))
      requires Placed(was, slots.slots, media, dispatched, spawn) && Within(was, media)
      requires FirstOpen(media, rest, k) && rest[k] == job
      modifies slots
      ensures slots.Valid() && Placed(was, slots.slots, media, dispatched + [job], spawn)
      ensures Within(was, media) && Blocked(rest[..k], media)
      ensures ScanOf(old(slots.slots), media, spawn, rest)
           == Continued([job], [], ScanOf(slots.slots, media, spawn, rest[..k] + rest[k + 1..]))
    {
      assert !FullAt(slots.slots, capacity.limits, capacity.defaults, job.provider, media);
      hide Placed, At, With, CapacityTable.Get, Continued, Scan, Waits, FullAt, Full, Blocked;
      FirstOpenWaits(media, rest, k);
      ghost var before := slots.slots;
      ghost var b := At(before, job.provider, media)[job.id := Occupant(spawn(job.id), false)];
      slots.Register(job.provider, media, job.id, spawn(job.id), false);
      PlaceOne(was, before, slots.slots, media, dispatched, spawn, job);
      AtWith(before, job.provider, media, b);
      OneMoreKey(At(before, job.provider, media), job.id, Occupant(spawn(job.id), false));
      DispatchedOne(before, media, spawn, rest, k);
    }
  }

  lemma AtWith(slots: map<Lane, Bucket>, provider: string, media: string, b: Bucket)
    ensures forall p, m :: At(With(slots, provider, media, b), p, m) == if (p, m) == (provider, media) then b
            else At(slots, p, m)
  {
  }

  lemma OneMoreKey(b: Bucket, id: string, o: Occupant)
    ensures |b| <= |b[id := o]| <= |b| + 1
  {
    assert b[id := o].Keys == b.Keys + {id};
  }

  lemma NothingTaken(queue: seq<Job>)
    ensures Taken(queue, queue, [], [], 0) && Merge<Job>([], [], [])
  {
  }

  lemma NothingPlaced(was: map<Lane, Bucket>, media: string, spawn: string -> Future)
    ensures Placed(was, was, media, [], spawn)
  {
  }

  lemma PlaceOne(was: map<Lane, Bucket>, before: map<Lane, Bucket>, now: map<Lane, Bucket>, media: string,
                 dispatched: seq<Job>, spawn: string -> Future, job: Job)
    requires Placed(was, before, media, dispatched, spawn)
    requires now == With(before, job.provider, media,
             At(before, job.provider, media)[job.id := Occupant(spawn(job.id), false)])
    ensures Placed(was, now, media, dispatched + [job], spawn)
  {
    hide IsDispatched;
    var b := At(before, job.provider, media)[job.id := Occupant(spawn(job.id), false)];
    assert job.id in b;
    assert forall p, m :: At(now, p, m) == if (p, m) == (job.provider, media) then b else At(before, p, m);
    forall p, id
      ensures Lookup(At(now, p, media), id) ==
                if IsDispatched(dispatched + [job], p, id) then Some(Occupant(spawn(id), false))
                    else Lookup(At(was, p, media), id)
    {
      MoreDispatched(dispatched, job, p, id);
    }
  }

  predicate IsDispatched(dispatched: seq<Job>, provider: string, id: string) {
    exists job :: job in dispatched && job.provider == provider && job.id == id
  }

  lemma MoreDispatched(dispatched: seq<Job>, job: Job, p: string, id: string)
    ensures IsDispatched(dispatched + [job], p, id)
            <==> IsDispatched(dispatched, p, id) || (p, id) == (job.provider, job.id)
  {
    if (p, id) == (job.provider, job.id) {
      assert job in dispatched + [job];
    }
    if IsDispatched(dispatched, p, id) {
      var j :| j in dispatched && j.provider == p && j.id == id;
      assert j in dispatched + [job];
    }
  }

  /** The table after dispatching: the jobs hold slots of their providers, in flight, and nothing else
  has changed. */
  ghost predicate Placed(was: map<Lane, Bucket>, now: map<Lane, Bucket>, media: string, dispatched: seq<Job>,
                         spawn: string -> Future) {
    && (forall p, m :: m != media ==> At(now, p, m) == At(was, p, m))
    && forall p, id :: Lookup(At(now, p, media), id) ==
                         if IsDispatched(dispatched, p, id) then Some(Occupant(spawn(id), false))
                             else Lookup(At(was, p, media), id)
  }

  function Lookup(b: Bucket, id: string): Option<Occupant> {
    if id in b then Some(b[id]) else None
  }

  /** The first `n` jobs of the queue have been claimed or skipped; the rest is still in order. */
  ghost predicate Taken(queue: seq<Job>, rest: seq<Job>, skipped: seq<Job>, claimed: seq<Job>, n: nat) {
    n <= |queue| && rest == skipped + queue[n..] && Merge(claimed, skipped, queue[..n])
  }

  lemma TakenSoFar(queue: seq<Job>, rest: seq<Job>, skipped: seq<Job>, claimed: seq<Job>, n: nat)
    requires Taken(queue, rest, skipped, claimed, n)
    ensures Merge(claimed, rest, queue) && skipped <= rest
  {
    hide Merge;
    MergeRight(claimed, skipped, queue[..n], queue[n..]);
    assert queue == queue[..n] + queue[n..];
  }

  lemma StopsAt(queue: seq<Job>, rest: seq<Job>, skipped: seq<Job>, claimed: seq<Job>, n: nat, k: nat)
    requires Taken(queue, rest, skipped, claimed, n) && |skipped| <= k < |rest|
    ensures var m := n + (k - |skipped|);
            && m < |queue| && queue[m] == rest[k] && rest[k + 1..] == queue[m + 1..]
            && Merge(claimed, rest[..k], queue[..m])
  {
    hide Merge;
    var m := n + (k - |skipped|);
    MergeRight(claimed, skipped, queue[..n], queue[n..m]);
    assert queue[..n] + queue[n..m] == queue[..m] && skipped + queue[n..m] == rest[..k];
  }

  lemma TakeNext(queue: seq<Job>, rest: seq<Job>, skipped: seq<Job>, claimed: seq<Job>, n: nat, k: nat)
    requires Taken(queue, rest, skipped, claimed, n) && |skipped| <= k < |rest|
    ensures Taken(queue, rest[..k] + rest[k + 1..], rest[..k], claimed + [rest[k]], n + (k - |skipped|) + 1)
  {
    hide Merge;
    var m := n + (k - |skipped|);
    MergeRight(claimed, skipped, queue[..n], queue[n..m]);
    assert queue[..n] + queue[n..m] == queue[..m] && skipped + queue[n..m] == rest[..k];
    MergeLeft(claimed, rest[..k], queue[..m], rest[k]);
    assert queue[..m] + [rest[k]] == queue[..m + 1];
    assert rest[k + 1..] == queue[m + 1..];
  }
}
