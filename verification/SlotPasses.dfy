/** Which queues a pass of the claim loop serves as far as there is room: it stops at the first job whose
provider turns out to be full, and never sees the jobs behind it. */
module SlotPasses {

  import opened Options
  import opened SlotTable

  /** Every ready job with a stored provider is stored with the one it resolves to, and every ready job
  without one has only ready jobs of the same provider behind it. */
  predicate InOrder(queue: seq<Job>) {
    && (forall i :: 0 <= i < |queue| && queue[i].ready && queue[i].declared.Some? ==>
          queue[i].declared.value == queue[i].provider)
    && forall i, j :: 0 <= i < j < |queue| && queue[i].ready && queue[i].declared.None? && queue[j].ready ==>
         queue[j].provider == queue[i].provider
  }

  predicate HasRoomAt(slots: map<Lane, Bucket>, limits: Limits, defaults: map<string, int>,
                      provider: string, media: string)
  {
    |At(slots, provider, media)| < Capacity(limits, defaults, provider, media)
  }

  /** No ready job is left queued while its provider has room. */
  predicate LeavesNone(r: Pass, limits: Limits, defaults: map<string, int>, media: string) {
    forall i :: 0 <= i < |r.rest| && r.rest[i].ready ==>
      !HasRoomAt(r.slots, limits, defaults, r.rest[i].provider, media)
  }

  // ---------------------------------------------------------------- what a scan does to the lanes

  lemma DispatchedAt(slots: map<Lane, Bucket>, media: string, spawn: string -> Future, job: Job, p: string)
    ensures var now := Dispatched(slots, media, spawn, job);
            && |At(slots, p, media)| <= |At(now, p, media)| <= |At(slots, p, media)| + 1
            && (p != job.provider ==> At(now, p, media) == At(slots, p, media))
  {
    hide At, With;
    var b, o := At(slots, job.provider, media), Occupant(spawn(job.id), false);
    AtWith(slots, job.provider, media, b[job.id := o]);
    OneMoreKey(b, job.id, o);
  }

  /** Lanes only fill up. */
  lemma {:induction false} ScanFills(slots: map<Lane, Bucket>, limits: Limits, defaults: map<string, int>,
                                     media: string, spawn: string -> Future, queue: seq<Job>, p: string)
    ensures |At(slots, p, media)| <= |At(Scan(slots, limits, defaults, media, spawn, queue).slots, p, media)|
    decreases |queue|
  {
    hide At, Dispatched, Capacity, Waits, FullAt;
    if queue != [] {
      DispatchedAt(slots, media, spawn, queue[0], p);
      ScanFills(slots, limits, defaults, media, spawn, queue[1..], p);
      ScanFills(Dispatched(slots, media, spawn, queue[0]), limits, defaults, media, spawn, queue[1..], p);
    }
  }

  /** No lane is taken beyond its capacity. */
  lemma {:induction false} ScanWithin(slots: map<Lane, Bucket>, limits: Limits, defaults: map<string, int>,
                                      media: string, spawn: string -> Future, queue: seq<Job>, p: string)
    requires |At(slots, p, media)| <= Capacity(limits, defaults, p, media)
    ensures |At(Scan(slots, limits, defaults, media, spawn, queue).slots, p, media)|
         <= Capacity(limits, defaults, p, media)
    decreases |queue|
  {
    hide At, Dispatched, Capacity;
    if queue != [] {
      DispatchedAt(slots, media, spawn, queue[0], p);
      ScanWithin(slots, limits, defaults, media, spawn, queue[1..], p);
      var next := Dispatched(slots, media, spawn, queue[0]);
      if |At(next, p, media)| <= Capacity(limits, defaults, p, media) {
        ScanWithin(next, limits, defaults, media, spawn, queue[1..], p);
      }
    }
  }

  /** A positive number for the lane. */
  ghost predicate HasNumber(limits: Limits, defaults: map<string, int>, provider: string, media: string) {
    exists n :: n > 0 && Offers(limits, defaults, provider, media, n)
  }

  /** A dispatched job of a lane that has been within its capacity since. */
  predicate Held(slots: map<Lane, Bucket>, limits: Limits, defaults: map<string, int>, media: string, job: Job) {
    && 0 < Capacity(limits, defaults, job.provider, media)
    && |At(slots, job.provider, media)| <= Capacity(limits, defaults, job.provider, media)
  }

  lemma {:induction false} ScanByCapacity(slots: map<Lane, Bucket>, limits: Limits, defaults: map<string, int>,
                                          media: string, spawn: string -> Future, queue: seq<Job>)
    ensures var r := Scan(slots, limits, defaults, media, spawn, queue);
            && (forall job :: job in r.failed ==> Capacity(limits, defaults, job.provider, media) <= 0)
            && (forall job :: job in r.dispatched ==> Held(r.slots, limits, defaults, media, job))
            && (r.requeued.Some? ==>
                  && r.requeued.value < |r.rest|
                  && FullAt(r.slots, limits, defaults, r.rest[r.requeued.value].provider, media))
    decreases |queue|
  {
    hide At, Dispatched, Capacity, Waits, FullAt, Held;
    if queue != [] {
      var job, tail := queue[0], queue[1..];
      if Waits(slots, limits, defaults, media, job) || Capacity(limits, defaults, job.provider, media) <= 0 {
        ScanByCapacity(slots, limits, defaults, media, spawn, tail);
      } else if !FullAt(slots, limits, defaults, job.provider, media) {
        var next := Dispatched(slots, media, spawn, job);
        ScanByCapacity(next, limits, defaults, media, spawn, tail);
        HeldAtOnce(slots, limits, defaults, media, spawn, job, tail);
      }
    }
  }

  lemma HeldAtOnce(slots: map<Lane, Bucket>, limits: Limits, defaults: map<string, int>, media: string,
                   spawn: string -> Future, job: Job, tail: seq<Job>)
    requires Capacity(limits, defaults, job.provider, media) > 0
    requires !FullAt(slots, limits, defaults, job.provider, media)
    ensures var r := Scan(Dispatched(slots, media, spawn, job), limits, defaults, media, spawn, tail);
            Held(r.slots, limits, defaults, media, job)
  {
    hide At, Dispatched, Capacity, Scan;
    DispatchedAt(slots, media, spawn, job, job.provider);
    ScanWithin(Dispatched(slots, media, spawn, job), limits, defaults, media, spawn, tail, job.provider);
  }

  /** What a pass does to a job it claims is decided by the two maps: it fails the jobs for whose lane they
  have no positive number, the lane of a dispatched one ends within its number, and that of the one put
  back is full. */
  lemma ScanByNumbers(slots: map<Lane, Bucket>, limits: Limits, defaults: map<string, int>, media: string,
                      spawn: string -> Future, queue: seq<Job>)
    ensures var r := Scan(slots, limits, defaults, media, spawn, queue);
            && (forall job :: job in r.failed ==> !HasNumber(limits, defaults, job.provider, media))
            && (forall job :: job in r.dispatched ==>
                  HasNumber(limits, defaults, job.provider, media)
                  && forall n :: Offers(limits, defaults, job.provider, media, n) ==>
                       |At(r.slots, job.provider, media)| <= n)
            && (r.requeued.Some? ==>
                  && r.requeued.value < |r.rest|
                  && var p := r.rest[r.requeued.value].provider;
                     && HasNumber(limits, defaults, p, media)
                     && forall n :: Offers(limits, defaults, p, media, n) ==> n <= |At(r.slots, p, media)|)
  {
    hide At, Capacity, Offers, Scan;
    ScanByCapacity(slots, limits, defaults, media, spawn, queue);
    forall p ensures var n := Capacity(limits, defaults, p, media);
                     && (n != 0 ==> Offers(limits, defaults, p, media, n))
                     && (forall m :: Offers(limits, defaults, p, media, m) ==> m == n) {
      CapacityOffered(limits, defaults, p, media);
    }
  }

  /** Nothing is left over in such a queue, whatever the table and the capacities. */
  lemma {:induction false} InOrderServed(slots: map<Lane, Bucket>, limits: Limits, defaults: map<string, int>,
                                         media: string, spawn: string -> Future, queue: seq<Job>)
    requires InOrder(queue)
    ensures LeavesNone(Scan(slots, limits, defaults, media, spawn, queue), limits, defaults, media)
    decreases |queue|
  {
    hide At, Dispatched, Capacity;
    if queue != [] {
      var job, tail := queue[0], queue[1..];
      assert InOrder(tail);
      var next := Dispatched(slots, media, spawn, job);
      InOrderServed(slots, limits, defaults, media, spawn, tail);
      InOrderServed(next, limits, defaults, media, spawn, tail);
      ScanFills(slots, limits, defaults, media, spawn, tail, job.provider);
    }
  }

  // ---------------------------------------------------------------- a table that shows the difference

  /** With `full` full and room for the whole queue at `free`, a job stored with `full` stays, and so does
  everything behind a job that turns out to be of `full`; `free` still has room at the end. */
  lemma {:induction false} RiggedScan(slots: map<Lane, Bucket>, limits: Limits, defaults: map<string, int>,
                                      media: string, spawn: string -> Future, queue: seq<Job>, full: string,
                                      free: string)
    requires full != free && FullAt(slots, limits, defaults, full, media)
    requires |At(slots, free, media)| + |queue| < Capacity(limits, defaults, free, media)
    ensures var r := Scan(slots, limits, defaults, media, spawn, queue);
            && HasRoomAt(r.slots, limits, defaults, free, media)
            && (forall i :: 0 <= i < |queue| && queue[i].ready && queue[i].declared == Some(full) ==>
                  queue[i] in r.rest)
            && (forall i, j ::
                  0 <= i < j < |queue| && queue[i].ready && queue[i].declared.None? && queue[i].provider == full ==>
                    queue[j] in r.rest)
    decreases |queue|
  {
    hide At, Dispatched, Capacity;
    if queue != [] {
      var job, tail := queue[0], queue[1..];
      assert forall i :: 0 < i < |queue| ==> queue[i] == tail[i - 1];
      assert forall j :: 0 < j < |queue| ==> queue[j] in queue;
      if Waits(slots, limits, defaults, media, job) || Capacity(limits, defaults, job.provider, media) <= 0 {
        RiggedScan(slots, limits, defaults, media, spawn, tail, full, free);
      } else if !FullAt(slots, limits, defaults, job.provider, media) {
        DispatchedAt(slots, media, spawn, job, full);
        DispatchedAt(slots, media, spawn, job, free);
        RiggedScan(Dispatched(slots, media, spawn, job), limits, defaults, media, spawn, tail, full, free);
      }
    }
  }

  /** One occupant in a lane of one. */
  function RiggedSlots(full: string, media: string): map<Lane, Bucket> {
    map[(full, media) := map["" := Occupant(0, true)]]
  }

  function RiggedLimits(full: string, free: string, media: string, n: nat): Limits {
    map[full := map[media := 1], free := map[media := n + 1]]
  }

  lemma RiggedLeaves(defaults: map<string, int>, media: string, spawn: string -> Future, queue: seq<Job>,
                     full: string, free: string, k: nat)
    requires full != free && k < |queue| && queue[k].ready && queue[k].provider == free
    requires queue[k].declared == Some(full)
             || exists i :: 0 <= i < k && queue[i].ready && queue[i].declared.None? && queue[i].provider == full
    ensures var slots, limits := RiggedSlots(full, media), RiggedLimits(full, free, media, |queue|);
            && NoEmptyBucket(slots)
            && !LeavesNone(Scan(slots, limits, defaults, media, spawn, queue), limits, defaults, media)
  {
    var slots, limits := RiggedSlots(full, media), RiggedLimits(full, free, media, |queue|);
    assert At(slots, full, media) == map["" := Occupant(0, true)] && "" in At(slots, full, media);
    assert At(slots, free, media) == map[];
    hide Scan, At, Capacity, HasRoomAt;
    RiggedScan(slots, limits, defaults, media, spawn, queue, full, free);
    assert queue[k] in Scan(slots, limits, defaults, media, spawn, queue).rest;
  }

  /** A pass leaves no ready job queued while its provider has room, over every table and all limits, if and
  only if the queue is in order in that sense. */
  lemma ServesAllIff(defaults: map<string, int>, media: string, spawn: string -> Future, queue: seq<Job>)
    ensures (forall slots, limits: Limits :: NoEmptyBucket(slots) ==>
               LeavesNone(Scan(slots, limits, defaults, media, spawn, queue), limits, defaults, media))
       <==> InOrder(queue)
  {
    hide Scan, LeavesNone, NoEmptyBucket;
    if InOrder(queue) {
      forall slots, limits: Limits | NoEmptyBucket(slots)
        ensures LeavesNone(Scan(slots, limits, defaults, media, spawn, queue), limits, defaults, media)
      {
        InOrderServed(slots, limits, defaults, media, spawn, queue);
      }
    } else if i :| 0 <= i < |queue| && queue[i].ready && queue[i].declared.Some?
                   && queue[i].declared.value != queue[i].provider {
      RiggedLeaves(defaults, media, spawn, queue, queue[i].declared.value, queue[i].provider, i);
    } else {
      var i, j :| 0 <= i < j < |queue| && queue[i].ready && queue[i].declared.None? && queue[j].ready
                  && queue[j].provider != queue[i].provider;
      RiggedLeaves(defaults, media, spawn, queue, queue[i].provider, queue[j].provider, j);
    }
  }

  // ---------------------------------------------------------------- both sides at work

  /** When every ready job is stored with its own provider nothing is put back, and every ready job left
  has a provider without room. */
  lemma {:induction false} StoredNeverPutBack(slots: map<Lane, Bucket>, limits: Limits, defaults: map<string, int>,
                                              media: string, spawn: string -> Future, queue: seq<Job>)
    requires forall i :: 0 <= i < |queue| && queue[i].ready ==> queue[i].declared == Some(queue[i].provider)
    ensures var r := Scan(slots, limits, defaults, media, spawn, queue);
            r.requeued.None? && LeavesNone(r, limits, defaults, media)
    decreases |queue|
  {
    InOrderServed(slots, limits, defaults, media, spawn, queue);
    hide At, Dispatched, Capacity, LeavesNone;
    if queue != [] {
      StoredNeverPutBack(slots, limits, defaults, media, spawn, queue[1..]);
      StoredNeverPutBack(Dispatched(slots, media, spawn, queue[0]), limits, defaults, media, spawn, queue[1..]);
    }
  }

  /** `x` has no stored provider and its own, `p`, is full: the pass puts it back and ends, and `y` stays
  queued although its provider `q` has room. */
  lemma StopHidesRoom(spawn: string -> Future, media: string)
    ensures var x, y := Job("x", None, "p", true), Job("y", Some("q"), "q", true);
            var slots, limits := RiggedSlots("p", media), RiggedLimits("p", "q", media, 2);
            var r := Scan(slots, limits, map[], media, spawn, [x, y]);
            && NoEmptyBucket(slots)
            && r == Pass(slots, [x, y], [], [], Some(0))
            && HasRoomAt(r.slots, limits, map[], y.provider, media)
  {
    var slots := RiggedSlots("p", media);
    assert At(slots, "p", media) == map["" := Occupant(0, true)] && "" in At(slots, "p", media);
    assert At(slots, "q", media) == map[];
  }
}
