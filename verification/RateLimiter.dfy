/** The sliding-window limiter: each model's pruned deque stands in for the full history of grants. */
module RateLimiter {

  import opened Options

  const WINDOW := 60.0

  const MARGIN := 0.1

  type Duration = d: real | d >= 0.0 witness 0.0

  /** A clock that never runs backwards: how far it moves between two uses is arbitrary, except that
  sleeping for `d` moves it by at least `d`. */
  class Clock {
    const drift: nat -> Duration
    var uses: nat
    var now: real
    /** How much has been slept in all. */
    ghost var slept: real

    constructor (drift: nat -> Duration, now: real) {
      this.drift, this.uses, this.now := drift, 0, now;
    }

    method Time() returns (t: real)
      modifies this
      ensures t == now >= old(now) && slept == old(slept)
    {
      now, uses := now + drift(uses), uses + 1;
      t := now;
    }

    method Sleep(d: real)
      requires d > 0.0
      modifies this
      ensures now >= old(now) + d && slept == old(slept) + d
    {
      now, uses := now + d + drift(uses), uses + 1;
      slept := slept + d;
    }
  }

  // ---------------------------------------------------------------- the history

  /** A grant, with the limit its caller had read and the gap then in force. */
  datatype Grant = Grant(at: real, limit: int, gap: real)

  /** The number of grants in the closed interval. */
  function Count(h: seq<Grant>, from: real, to: real): nat {
    if h == [] then 0
    else Count(h[..|h| - 1], from, to) + if from <= h[|h| - 1].at <= to then 1 else 0
  }

  /** What grant `n` was promised: at most `limit` grants up to and including itself in the window
  that ends with it, and a gap to the grant before. */
  ghost predicate LawfulAt(h: seq<Grant>, n: nat)
    requires n < |h|
  {
    && Count(h[..n + 1], h[n].at - WINDOW, h[n].at) <= h[n].limit
    && (n > 0 ==> h[n].at - h[n - 1].at >= h[n].gap || h[n].at - h[n - 1].at > WINDOW)
  }

  ghost predicate Ordered(h: seq<Grant>, now: real) {
    && (forall i, j :: 0 <= i <= j < |h| ==> h[i].at <= h[j].at)
    && (forall i :: 0 <= i < |h| ==> h[i].at <= now)
  }

  ghost predicate Lawful(h: seq<Grant>) {
    forall n :: 0 <= n < |h| ==> LawfulAt(h, n)
  }

  /** The deque is a suffix of the history, and what it has lost is older than the window. */
  ghost predicate Suffix(log: seq<real>, h: seq<Grant>, now: real) {
    && |log| <= |h|
    && (forall i :: 0 <= i < |log| ==> log[i] == h[|h| - |log| + i].at)
    && (forall i :: 0 <= i < |h| - |log| ==> now - h[i].at > WINDOW)
  }

  ghost predicate Tracks(log: seq<real>, h: seq<Grant>, now: real) {
    Suffix(log, h, now) && Ordered(h, now) && Lawful(h)
  }

  /** The deque without its expired head. */
  function Prune(log: seq<real>, now: real): (r: seq<real>)
    ensures |r| <= |log|
  {
    if log != [] && now - log[0] > WINDOW then Prune(log[1..], now) else log
  }

  lemma {:induction false} PruneKeepsNewest(log: seq<real>, now: real)
    requires Prune(log, now) != []
    ensures Prune(log, now)[|Prune(log, now)| - 1] == log[|log| - 1]
  {
    if now - log[0] > WINDOW {
      PruneKeepsNewest(log[1..], now);
    }
  }

  lemma {:induction false} PruneKeepsRecent(log: seq<real>, now: real)
    requires Prune(log, now) != []
    ensures now - Prune(log, now)[0] <= WINDOW
  {
    if now - log[0] > WINDOW {
      PruneKeepsRecent(log[1..], now);
    }
  }

  lemma {:induction false} PruneShrinks(log: seq<real>, now: real, later: real)
    requires now <= later
    ensures Prune(log, later) == Prune(Prune(log, now), later)
    ensures |Prune(log, later)| <= |Prune(log, now)|
  {
    if log != [] && now - log[0] > WINDOW {
      PruneShrinks(log[1..], now, later);
    }
  }

  lemma {:induction false} PruneTracks(log: seq<real>, h: seq<Grant>, now: real)
    requires Suffix(log, h, now)
    ensures Suffix(Prune(log, now), h, now)
  {
    if log != [] && now - log[0] > WINDOW {
      PruneTracks(log[1..], h, now);
    }
  }

  lemma LaterTracks(log: seq<real>, h: seq<Grant>, now: real, later: real)
    requires Tracks(log, h, now) && now <= later
    ensures Tracks(log, h, later)
  {
  }

  lemma DropTracks(log: seq<real>, h: seq<Grant>, now: real, later: real)
    requires Tracks(log, h, later) && log != [] && now <= later && now - log[0] > WINDOW
    ensures Tracks(log[1..], h, later)
  {
  }

  lemma {:induction false} CountAtMost(h: seq<Grant>, from: real, to: real, k: nat)
    requires k <= |h| && forall i :: 0 <= i < k ==> h[i].at < from
    ensures Count(h, from, to) <= |h| - k
  {
    if |h| > k {
      CountAtMost(h[..|h| - 1], from, to, k);
    } else if h != [] {
      CountAtMost(h[..|h| - 1], from, to, k - 1);
    }
  }

  /** One more grant, when the deque has room and its newest entry is far enough back. */
  lemma GrantTracks(log: seq<real>, h: seq<Grant>, g: Grant)
    requires Tracks(log, h, g.at) && |log| < g.limit
    requires log != [] ==> g.at - log[|log| - 1] >= g.gap
    ensures Tracks(log + [g.at], h + [g], g.at)
  {
    hide Count;
    var h' := h + [g];
    forall n | 0 <= n < |h'| ensures LawfulAt(h', n) {
      if n < |h| {
        assert LawfulAt(h, n);
        assert h'[..n + 1] == h[..n + 1];
      } else {
        assert h'[..n + 1] == h';
        CountAtMost(h', g.at - WINDOW, g.at, |h| - |log|);
        if log != [] {
          assert log[|log| - 1] == h[|h| - 1].at;
        }
      }
    }
  }

  // ---------------------------------------------------------------- what callers are promised

  lemma {:induction false} CountSplits(h: seq<Grant>, n: nat, from: real, to: real)
    requires n <= |h| && forall i :: n <= i < |h| ==> h[i].at > to
    ensures Count(h, from, to) == Count(h[..n], from, to)
  {
    if n < |h| {
      CountSplits(h[..|h| - 1], n, from, to);
      assert h[..|h| - 1][..n] == h[..n];
    } else {
      assert h[..n] == h;
    }
  }

  /** A grant at time `t` under limit `L` is one of at most `L` in the closed window before it, over
  the whole history, as soon as no later grant shares its instant. */
  lemma WindowNeverExceeded(log: seq<real>, h: seq<Grant>, now: real, n: nat)
    requires Tracks(log, h, now) && n < |h|
    requires n + 1 < |h| ==> h[n + 1].at > h[n].at
    ensures Count(h, h[n].at - WINDOW, h[n].at) <= h[n].limit
  {
    hide Count;
    assert LawfulAt(h, n);
    CountSplits(h, n + 1, h[n].at - WINDOW, h[n].at);
  }

  /** Without a gap, two callers holding different limits can be granted in the same instant: the
  window then holds more than the first one's limit. */
  lemma SameInstantExceeds()
    ensures var h := [Grant(0.0, 1, 0.0), Grant(0.0, 2, 0.0)];
            Tracks([0.0, 0.0], h, 0.0) && Count(h, h[0].at - WINDOW, h[0].at) > h[0].limit
  {
    hide Count, Tracks;
    var g0, g1 := Grant(0.0, 1, 0.0), Grant(0.0, 2, 0.0);
    NothingTracks(0.0);
    GrantTracks([], [], g0);
    assert [] + [0.0] == [0.0] && [] + [g0] == [g0];
    GrantTracks([0.0], [g0], g1);
    assert [0.0] + [0.0] == [0.0, 0.0] && [g0] + [g1] == [g0, g1];
    CountTwo(g0, g1, 0.0 - WINDOW, 0.0);
  }

  lemma NothingTracks(now: real)
    ensures Tracks([], [], now)
  {
  }

  lemma CountTwo(a: Grant, b: Grant, from: real, to: real)
    requires from <= a.at <= to && from <= b.at <= to
    ensures Count([a, b], from, to) == 2
  {
    var one := [a];
    assert one[..|one| - 1] == [] && Count(one, from, to) == 1;
    assert [a, b][..|[a, b]| - 1] == one;
  }

  // ---------------------------------------------------------------- exactly when the window holds

  /** Every grant was made under one of these limits and gaps. */
  ghost predicate Drawn(h: seq<Grant>, ps: set<(int, real)>) {
    forall i :: 0 <= i < |h| ==> (h[i].limit, h[i].gap) in ps
  }

  /** No grant ever shares its window with more than its limit, itself included. */
  ghost predicate WindowsKept(h: seq<Grant>) {
    forall n :: 0 <= n < |h| ==> Count(h, h[n].at - WINDOW, h[n].at) <= h[n].limit
  }

  /** A smaller limit and a larger one that comes without a gap. */
  ghost predicate Outbid(ps: set<(int, real)>) {
    exists p, q :: p in ps && q in ps && p.0 < q.0 && q.1 <= 0.0
  }

  /** The last grant at the instant of grant `n`. */
  lemma {:induction false} LastAtInstant(h: seq<Grant>, n: nat, k: nat) returns (m: nat)
    requires n <= k < |h| && h[k].at == h[n].at
    requires forall i, j :: 0 <= i <= j < |h| ==> h[i].at <= h[j].at
    ensures n <= m < |h| && h[m].at == h[n].at && (m + 1 < |h| ==> h[m + 1].at > h[m].at)
    decreases |h| - k
  {
    if k + 1 < |h| && h[k + 1].at == h[n].at {
      m := LastAtInstant(h, n, k + 1);
    } else {
      m := k;
    }
  }

  /** A later grant at the instant of grant `n`, under a larger limit and without a gap. */
  predicate OutbidAt(h: seq<Grant>, n: nat, m: nat) {
    n < m < |h| && h[m].at == h[n].at && h[m].limit > h[n].limit && h[m].gap <= 0.0
  }

  /** Every grant keeps its window, unless some later one at its instant had a larger limit without a gap. */
  lemma WindowKeptOrOutbid(log: seq<real>, h: seq<Grant>, now: real, n: nat)
    requires Tracks(log, h, now) && n < |h|
    ensures Count(h, h[n].at - WINDOW, h[n].at) <= h[n].limit || exists m :: OutbidAt(h, n, m)
  {
    hide Count, Suffix;
    var m := LastAtInstant(h, n, n);
    WindowNeverExceeded(log, h, now, m);
    if n < m {
      assert LawfulAt(h, m) && h[m - 1].at == h[m].at;
      assert h[m].limit > h[n].limit ==> OutbidAt(h, n, m);
    }
  }

  lemma WindowKeptAt(log: seq<real>, h: seq<Grant>, now: real, ps: set<(int, real)>, n: nat)
    requires Tracks(log, h, now) && Drawn(h, ps) && !Outbid(ps) && n < |h|
    ensures Count(h, h[n].at - WINDOW, h[n].at) <= h[n].limit
  {
    hide Count, Tracks;
    WindowKeptOrOutbid(log, h, now, n);
    if m: nat :| OutbidAt(h, n, m) {
      var p, q := (h[n].limit, h[n].gap), (h[m].limit, h[m].gap);
      assert p in ps && q in ps;
    }
  }

  /** One grant under `p`, then `k` at the same instant under `q`. */
  function Burst(p: (int, real), q: (int, real), k: nat): seq<Grant> {
    if k == 0 then [Grant(0.0, p.0, p.1)] else Burst(p, q, k - 1) + [Grant(0.0, q.0, q.1)]
  }

  function Zeros(k: nat): seq<real> {
    if k == 0 then [] else Zeros(k - 1) + [0.0]
  }

  lemma {:induction false} ZerosAre(k: nat)
    ensures |Zeros(k)| == k && forall i :: 0 <= i < k ==> Zeros(k)[i] == 0.0
  {
    if k > 0 {
      ZerosAre(k - 1);
    }
  }

  lemma {:induction false} BurstIs(p: (int, real), q: (int, real), k: nat)
    ensures |Burst(p, q, k)| == k + 1 && Burst(p, q, k)[0] == Grant(0.0, p.0, p.1)
    ensures Drawn(Burst(p, q, k), {p, q}) && Count(Burst(p, q, k), 0.0 - WINDOW, 0.0) == k + 1
  {
    if k == 0 {
      var g := Grant(0.0, p.0, p.1);
      assert [g][..0] == [];
    } else {
      var h, g := Burst(p, q, k - 1), Grant(0.0, q.0, q.1);
      BurstIs(p, q, k - 1);
      assert (h + [g])[..|h|] == h;
    }
  }

  lemma {:induction false} BurstTracks(p: (int, real), q: (int, real), k: nat)
    requires 0 < p.0 && k < q.0 && q.1 <= 0.0
    ensures Tracks(Zeros(k + 1), Burst(p, q, k), 0.0)
  {
    hide Tracks;
    if k == 0 {
      NothingTracks(0.0);
      var g := Grant(0.0, p.0, p.1);
      GrantTracks([], [], g);
      assert [] + [0.0] == Zeros(1) && [] + [g] == [g];
    } else {
      BurstTracks(p, q, k - 1);
      ZerosAre(k);
      GrantTracks(Zeros(k), Burst(p, q, k - 1), Grant(0.0, q.0, q.1));
    }
  }

  /** The window holds for every grant of every history drawn from given limits and gaps if and only if
  no limit among them is outbid by a larger one without a gap: a positive gap for all, or one limit for
  all, is enough. */
  lemma WindowsKeptIff(ps: set<(int, real)>)
    requires forall p :: p in ps ==> p.0 > 0
    ensures (forall log: seq<real>, h: seq<Grant>, now: real :: Tracks(log, h, now) && Drawn(h, ps) ==> WindowsKept(h))
       <==> !Outbid(ps)
  {
    hide Tracks, Drawn, Count, WINDOW;
    if Outbid(ps) {
      var p, q :| p in ps && q in ps && p.0 < q.0 && q.1 <= 0.0;
      OutbidExceeds(ps, p, q);
    } else {
      forall log: seq<real>, h: seq<Grant>, now: real | Tracks(log, h, now) && Drawn(h, ps) ensures WindowsKept(h) {
        forall n | 0 <= n < |h| ensures Count(h, h[n].at - WINDOW, h[n].at) <= h[n].limit {
          WindowKeptAt(log, h, now, ps, n);
        }
      }
    }
  }

  lemma OutbidExceeds(ps: set<(int, real)>, p: (int, real), q: (int, real))
    requires p in ps && q in ps && 0 < p.0 < q.0 && q.1 <= 0.0
    ensures var h := Burst(p, q, p.0);
            Tracks(Zeros(p.0 + 1), h, 0.0) && Drawn(h, ps) && !WindowsKept(h)
  {
    hide Tracks, Count, Burst;
    BurstTracks(p, q, p.0);
    BurstIs(p, q, p.0);
    var h := Burst(p, q, p.0);
    assert Count(h, h[0].at - WINDOW, h[0].at) > h[0].limit;
  }

  /** The locked test both callers make before a grant. */
  predicate Admits(log: seq<real>, now: real, limit: int, gap: real) {
    var kept := Prune(log, now);
    |kept| < limit && (kept != [] ==> now - kept[|kept| - 1] >= gap)
  }

  /** What has been admitted once stays so until the next grant. */
  lemma AdmitsLater(log: seq<real>, now: real, later: real, limit: int, gap: real)
    requires Admits(log, now, limit, gap) && now <= later
    ensures Admits(log, later, limit, gap) && Admits(Prune(log, later), later, limit, gap)
  {
    PruneShrinks(log, now, later);
    PruneShrinks(log, later, later);
    if Prune(log, later) != [] {
      PruneKeepsNewest(log, later);
      assert Prune(log, now) != [];
      PruneKeepsNewest(log, now);
    }
  }

  lemma AdmittedNow(before: seq<real>, log: seq<real>, began: real, now: real, limit: int, gap: real)
    requires Admits(before, began, limit, gap) && began <= now && log == Prune(before, now)
    ensures |log| < limit && (log != [] ==> now - log[|log| - 1] >= gap)
  {
    hide Prune;
    AdmitsLater(before, began, now, limit, gap);
    PruneShrinks(before, now, now);
  }

  /** The grants of the history in the closed window before now are those of the pruned deque. */
  lemma {:induction false} CountIs(h: seq<Grant>, from: real, to: real, k: nat)
    requires k <= |h| && (forall i :: 0 <= i < k ==> h[i].at < from)
    requires forall i :: k <= i < |h| ==> from <= h[i].at <= to
    ensures Count(h, from, to) == |h| - k
  {
    if |h| > k {
      CountIs(h[..|h| - 1], from, to, k);
    } else if h != [] {
      CountIs(h[..|h| - 1], from, to, k - 1);
    }
  }

  /** The test on the deque is a test on the whole history: fewer than `limit` grants in the last minute, and
  none of them within the gap. */
  lemma AdmitsByHistory(log: seq<real>, h: seq<Grant>, now: real, limit: int, gap: real)
    requires Tracks(log, h, now)
    ensures Admits(log, now, limit, gap) <==>
              && Count(h, now - 60.0, now) < limit
              && forall i :: 0 <= i < |h| && now - h[i].at <= 60.0 ==> now - h[i].at >= gap
  {
    PruneTracks(log, h, now);
    var kept := Prune(log, now);
    var k := |h| - |kept|;
    if kept != [] {
      PruneKeepsRecent(log, now);
    }
    forall i | k <= i < |h| ensures now - h[i].at <= 60.0 {
      assert h[k].at <= h[i].at && kept[0] == h[k].at;
    }
    hide Count;
    CountIs(h, now - 60.0, now, k);
    if kept != [] {
      assert kept[|kept| - 1] == h[|h| - 1].at;
    }
  }

  /** Whatever a deque that tracks the history admits is `gap` after the last grant exactly for gaps
  no longer than the window: a pruned deque has forgotten older requests. */
  lemma GapHonouredIff(gap: real)
    ensures gap <= WINDOW <==>
              forall log: seq<real>, h: seq<Grant>, now: real, limit: int ::
                Tracks(log, h, now) && h != [] && Admits(log, now, limit, gap) ==> now - h[|h| - 1].at >= gap
  {
    if gap <= WINDOW {
      forall log: seq<real>, h: seq<Grant>, now: real, limit: int
        | Tracks(log, h, now) && h != [] && Admits(log, now, limit, gap)
        ensures now - h[|h| - 1].at >= gap
      {
        PruneTracks(log, h, now);
      }
    } else {
      ForgetsLongGap(gap);
    }
  }

  lemma ForgetsLongGap(gap: real)
    requires gap > WINDOW
    ensures var h, now := [Grant(0.0, 1, gap)], (WINDOW + gap) / 2.0;
            Tracks([0.0], h, now) && Admits([0.0], now, 1, gap) && now - h[0].at < gap
  {
    hide Prune, Tracks;
    var g, now := Grant(0.0, 1, gap), (WINDOW + gap) / 2.0;
    NothingTracks(0.0);
    GrantTracks([], [], g);
    assert [] + [0.0] == [0.0] && [] + [g] == [g];
    LaterTracks([0.0], [g], 0.0, now);
    PruneDropsHead([0.0], now);
  }

  // ---------------------------------------------------------------- why acquire ends

  /** What the loop of `acquire` still has to wait for: requests to expire, and one gap. */
  ghost function Work(log: seq<real>, now: real, gap: real): nat {
    2 * |Prune(log, now)| + if log != [] && now - log[|log| - 1] < gap then 1 else 0
  }

  lemma WorkAfterGap(before: seq<real>, log: seq<real>, began: real, now: real, later: real, gap: real)
    requires began <= now <= later && log == Prune(before, now) && log != []
    requires now - log[|log| - 1] < gap <= later - log[|log| - 1]
    ensures Work(log, later, gap) < Work(before, began, gap)
  {
    hide Prune;
    PruneShrinks(before, began, now);
    PruneShrinks(before, now, later);
    PruneKeepsNewest(before, now);
  }

  lemma WorkAfterWait(before: seq<real>, log: seq<real>, began: real, now: real, later: real, gap: real)
    requires began <= now <= later && log == Prune(before, now) && log != []
    requires later - log[0] > WINDOW
    ensures Work(log, later, gap) < Work(before, began, gap)
  {
    hide Prune;
    PruneShrinks(before, began, now);
    PruneKeepsNewest(before, now);
    PruneDropsHead(log, later);
  }

  lemma PruneDropsHead(log: seq<real>, now: real)
    requires log != [] && now - log[0] > WINDOW
    ensures |Prune(log, now)| < |log|
  {
  }

  /** A caller that has slept what it was told is admitted, unless others were granted meanwhile or
  its limit is below the requests already counted. */
  lemma WaitSuffices(log: seq<real>, now: real, wait: real, limit: int, gap: real, later: real)
    requires 0 < limit && |log| <= limit && later >= now + wait
    requires log != [] ==> wait >= gap - (now - log[|log| - 1])
    requires |log| >= limit ==> wait >= WINDOW - (now - log[0]) + MARGIN
    ensures Admits(log, later, limit, gap)
  {
    if |log| == limit {
      PruneDropsHead(log, later);
    }
    if Prune(log, later) != [] {
      PruneKeepsNewest(log, later);
    }
  }

  lemma LogIsOrdered(log: seq<real>, h: seq<Grant>, now: real)
    requires Tracks(log, h, now)
    ensures forall i, j :: 0 <= i < j < |log| ==> log[i] <= log[j]
    ensures log != [] ==> log[|log| - 1] <= now
  {
  }

  /** Nor could it have come much earlier: not before the time it was told, less the margin. */
  lemma WaitNeeded(log: seq<real>, now: real, wait: real, limit: int, gap: real, later: real)
    requires 0 < limit && gap <= 60.0 && (forall i, j :: 0 <= i < j < |log| ==> log[i] <= log[j])
    requires log != [] && now - log[0] <= 60.0 && log[|log| - 1] <= now <= later < now + wait - 0.1
    requires wait <= gap - (now - log[|log| - 1]) || (|log| >= limit && wait <= 60.1 - (now - log[0]))
    ensures !Admits(log, later, limit, gap)
  {
    if |log| >= limit && wait <= 60.1 - (now - log[0]) {
      assert Prune(log, later) == log;
    } else {
      NewestStays(log, later);
    }
  }

  lemma {:induction false} NewestStays(log: seq<real>, now: real)
    requires log != [] && now - log[|log| - 1] <= 60.0
    ensures Prune(log, now) != [] && Prune(log, now)[|Prune(log, now)| - 1] == log[|log| - 1]
  {
    if now - log[0] > WINDOW {
      NewestStays(log[1..], now);
    }
  }

  // ---------------------------------------------------------------- the limiter

  datatype Attempt = Granted | SleepFor(wait: real)

  class Limiter {
    const clock: Clock
    var limits: map<string, int>
    var requestGap: real
    var logs: map<string, seq<real>>
    /** Every grant ever made under a limit, oldest first. */
    ghost var grants: map<string, seq<Grant>>

    ghost predicate Valid()
      reads this, clock
    {
      grants.Keys == logs.Keys && forall m :: m in logs ==> Tracks(logs[m], grants[m], clock.now)
    }

    ghost function History(model: string): seq<Grant>
      reads this`grants
    {
      if model in grants then grants[model] else []
    }

    function LogOf(model: string): seq<real>
      reads this`logs
    {
      if model in logs then logs[model] else []
    }

    constructor (clock: Clock, limits: map<string, int>, requestGap: real)
      ensures Valid() && this.clock == clock && grants == map[]
    {
      this.clock, this.limits, this.requestGap := clock, limits, requestGap;
      logs, grants := map[], map[];
    }

    /** `refresh_shared_rate_limiter`: the history is untouched. */
    method Refresh(limits: map<string, int>, gap: Option<real>)
      requires Valid()
      modifies this`limits, this`requestGap
      ensures Valid() && this.limits == limits
      ensures requestGap == if gap.Some? then gap.value else old(requestGap)
    {
      this.limits := limits;
      if gap.Some? {
        requestGap := gap.value;
      }
    }

    method Time() returns (t: real)
      requires Valid()
      modifies clock
      ensures Valid() && t == clock.now >= old(clock.now) && clock.slept == old(clock.slept)
    {
      t := clock.Time();
      forall m | m in logs ensures Tracks(logs[m], grants[m], clock.now) {
        LaterTracks(logs[m], grants[m], old(clock.now), clock.now);
      }
    }

    method Sleep(d: real)
      requires Valid() && d > 0.0
      modifies clock
      ensures Valid() && clock.now >= old(clock.now) + d
    {
      clock.Sleep(d);
      forall m | m in logs ensures Tracks(logs[m], grants[m], clock.now) {
        LaterTracks(logs[m], grants[m], old(clock.now), clock.now);
      }
    }

    /** The deque is created on first use. */
    method OpenLog(model: string)
      requires Valid()
      modifies this`logs, this`grants
      ensures Valid() && model in logs && History(model) == old(History(model))
      ensures forall m :: m != model ==> History(m) == old(History(m))
      ensures logs == old(logs)[model := old(LogOf(model))]
    {
      if model !in logs {
        logs := logs[model := []];
        grants := grants[model := []];
      }
    }

    /** The `popleft` loop. */
    method DropExpired(model: string, now: real)
      requires Valid() && model in logs && now <= clock.now
      modifies this`logs
      ensures Valid() && logs == old(logs)[model := Prune(old(logs)[model], now)]
    {
      hide Tracks;
      while logs[model] != [] && now - logs[model][0] > WINDOW
        invariant Valid() && model in logs
        invariant logs == old(logs)[model := logs[model]]
        invariant Prune(logs[model], now) == Prune(old(logs)[model], now)
        decreases |logs[model]|
      {
        DropTracks(logs[model], grants[model], now, clock.now);
        logs := logs[model := logs[model][1..]];
      }
    }

    /** `log.append`, with its entry in the history. */
    method Append(model: string, at: real, limit: int)
      requires Valid() && model in logs && at == clock.now && |logs[model]| < limit
      requires logs[model] != [] ==> at - logs[model][|logs[model]| - 1] >= requestGap
      modifies this`logs, this`grants
      ensures Valid()
      ensures History(model) == old(History(model)) + [Grant(at, limit, requestGap)]
      ensures forall m :: m != model ==> History(m) == old(History(m))
      ensures logs == old(logs)[model := old(logs)[model] + [at]]
    {
      ghost var g := Grant(at, limit, requestGap);
      GrantTracks(logs[model], grants[model], g);
      logs := logs[model := logs[model] + [at]];
      grants := grants[model := grants[model] + [g]];
    }

    /** The body of `acquire` under the lock: it ends, and with a grant made at the instant it ends. */
    method AcquireLocked(model: string, limit: int)
      requires Valid() && limit > 0
      modifies this`logs, this`grants, clock
      ensures Valid() && clock.now >= old(clock.now)
      ensures History(model) == old(History(model)) + [Grant(clock.now, limit, requestGap)]
      ensures forall m :: m != model ==> History(m) == old(History(m))
      ensures old(Admits(LogOf(model), clock.now, limit, requestGap)) ==> clock.slept == old(clock.slept)
    {
      hide Tracks, Work, Prune, Valid, History, Admits;
      ghost var open := Admits(LogOf(model), clock.now, limit, requestGap);
      OpenLog(model);
      while true
        invariant Valid() && model in logs && clock.now >= old(clock.now)
        invariant forall m :: History(m) == old(History(m))
        invariant open ==> Admits(logs[model], clock.now, limit, requestGap) && clock.slept == old(clock.slept)
        decreases Work(logs[model], clock.now, requestGap)
      {
        ghost var before, began := logs[model], clock.now;
        var now := Time();
        DropExpired(model, now);
        var log := logs[model];
        if open {
          AdmittedNow(before, log, began, now, limit, requestGap);
        }
        if log != [] {
          var read := Time();
          var gap := read - log[|log| - 1];
          if gap < requestGap {
            Sleep(requestGap - gap);
            WorkAfterGap(before, log, began, now, clock.now, requestGap);
            continue;
          }
        }
        if |log| < limit {
          var at := Time();
          Append(model, at, limit);
          return;
        }
        PruneKeepsRecent(before, now);
        assert !open;
        var wait := WINDOW - (now - log[0]) + MARGIN;
        if wait > 0.0 {
          Sleep(wait);
        }
        WorkAfterWait(before, log, began, now, clock.now, requestGap);
      }
    }

    lemma TracksOf(model: string)
      requires Valid() && model in logs
      ensures model in grants && Tracks(logs[model], grants[model], clock.now)
    {
    }

    /** One turn of `acquire_async` under the lock: a grant exactly when the history admits it, else a
    time to sleep after which, left alone, the caller will be admitted. */
    method AttemptAsync(model: string, limit: int) returns (a: Attempt)
      requires Valid() && limit > 0
      modifies this`logs, this`grants, clock
      ensures Valid() && clock.now >= old(clock.now) && model in logs
      ensures a.Granted? <==> Admits(old(LogOf(model)), clock.now, limit, requestGap)
      ensures History(model) == old(History(model)) + if a.Granted? then [Grant(clock.now, limit, requestGap)] else []
      ensures forall m :: m != model ==> History(m) == old(History(m))
      ensures a.SleepFor? ==> a.wait > 0.0
      ensures a.SleepFor? && |logs[model]| <= limit ==>
                forall later :: later >= clock.now + a.wait ==> Admits(logs[model], later, limit, requestGap)
      ensures a.SleepFor? && requestGap <= 60.0 ==>
                forall later :: clock.now <= later < clock.now + a.wait - 0.1 ==>
                  !Admits(logs[model], later, limit, requestGap)
    {
      hide Tracks, Valid, History;
      var now := Time();
      OpenLog(model);
      ghost var before := logs[model];
      DropExpired(model, now);
      var log := logs[model];
      var wait := 0.0;
      if log != [] {
        var gap := now - log[|log| - 1];
        if gap < requestGap {
          wait := requestGap - gap;
        }
      }
      if |log| >= limit {
        PruneKeepsRecent(before, now);
        var expiry := WINDOW - (now - log[0]) + MARGIN;
        wait := if expiry > wait then expiry else wait;
      }
      if wait == 0.0 && |log| < limit {
        Append(model, now, limit);
        return Granted;
      }
      a := SleepFor(if wait > 0.0 then wait else 0.1);
      if requestGap <= 60.0 {
        PruneKeepsRecent(before, now);
        TracksOf(model);
        LogIsOrdered(log, grants[model], now);
        forall later | now <= later < now + a.wait - 0.1 ensures !Admits(log, later, limit, requestGap) {
          WaitNeeded(log, now, a.wait, limit, requestGap, later);
        }
      }
      forall later | |log| <= limit && later >= now + a.wait ensures Admits(log, later, limit, requestGap) {
        WaitSuffices(log, now, a.wait, limit, requestGap, later);
      }
    }

    /** `acquire`: immediate without a positive limit for the model, else a grant under it. */
    method Acquire(model: string)
      requires Valid()
      modifies this`logs, this`grants, clock
      ensures Valid()
      ensures History(model) == old(History(model)) +
                if model in limits && limits[model] > 0 then [Grant(clock.now, limits[model], requestGap)] else []
      ensures forall m :: m != model ==> History(m) == old(History(m))
    {
      if model !in limits {
        return;
      }
      var limit := limits[model];
      if limit <= 0 {
        return;
      }
      AcquireLocked(model, limit);
    }

    /** At any time, for every grant in the history of any model: its window was kept unless a later
    grant outbid it, and its gap was kept if that is no longer than the window. */
    lemma PromisesKept(model: string, n: nat)
      requires Valid() && n < |History(model)|
      ensures var h := History(model);
              && (Count(h, h[n].at - 60.0, h[n].at) <= h[n].limit || exists m :: OutbidAt(h, n, m))
              && (n > 0 && h[n].gap <= 60.0 ==> h[n].at - h[n - 1].at >= h[n].gap)
    {
      hide Count;
      var h := History(model);
      assert LawfulAt(h, n);
      WindowKeptOrOutbid(logs[model], h, clock.now, n);
    }
  }
}
