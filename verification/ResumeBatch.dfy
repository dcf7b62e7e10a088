/** One provider's batch of resumed videos: a semaphore sized once, pending slots until it lets a task
in, and a slot given back however the work ends. */
module ResumeBatch {

  type Id = string

  /** A task of the batch: queued at the semaphore with a pending slot, let in and promoted, or over. */
  datatype Stage = Waiting | Promoted | Over

  datatype Batch = Batch(capacity: int, permits: int, stages: map<Id, Stage>)

  /** The semaphore lets a task in; a task ends, well or badly, giving its permit back; a task is
  cancelled while it waits, with no permit to give back. */
  datatype Event = LetIn(id: Id) | End(id: Id) | CancelWaiting(id: Id)

  predicate Enabled(b: Batch, e: Event) {
    e.id in b.stages &&
    match e
    case LetIn(id) => b.stages[id].Waiting? && b.permits > 0
    case End(id) => b.stages[id].Promoted?
    case CancelWaiting(id) => b.stages[id].Waiting?
  }

  function Step(b: Batch, e: Event): Batch {
    if !Enabled(b, e) then b
    else
      match e
      case LetIn(id) => b.(permits := b.permits - 1, stages := b.stages[id := Promoted])
      case End(id) => b.(permits := b.permits + 1, stages := b.stages[id := Over])
      case CancelWaiting(id) => b.(stages := b.stages[id := Over])
  }

  function Run(b: Batch, events: seq<Event>, n: nat): Batch
    requires n <= |events|
  {
    if n == 0 then b else Step(Run(b, events, n - 1), events[n - 1])
  }

  function InStage(stages: map<Id, Stage>, g: Stage): set<Id> {
    set id | id in stages && stages[id] == g
  }

  /** As dispatched: the capacity, read once and positive, is the semaphore; every task waits. */
  ghost predicate Dispatched(b: Batch) {
    b.capacity > 0 && b.permits == b.capacity && forall id :: id in b.stages ==> b.stages[id].Waiting?
  }

  lemma OneIn(stages: map<Id, Stage>, id: Id, g: Stage)
    requires id in stages && stages[id] != g
    ensures InStage(stages[id := g], g) == InStage(stages, g) + {id} && id !in InStage(stages, g)
    ensures forall other :: other != g && other != stages[id] ==>
            InStage(stages[id := g], other) == InStage(stages, other)
    ensures InStage(stages[id := g], stages[id]) == InStage(stages, stages[id]) - {id}
            && id in InStage(stages, stages[id])
  {
  }

  lemma StepKeepsPermits(b: Batch, e: Event)
    requires b.permits + |InStage(b.stages, Promoted)| == b.capacity && b.permits >= 0
    ensures var c := Step(b, e);
            c.permits + |InStage(c.stages, Promoted)| == c.capacity == b.capacity && c.permits >= 0
  {
    hide InStage;
    if Enabled(b, e) {
      match e
      case LetIn(id) => OneIn(b.stages, id, Promoted);
      case End(id) => OneIn(b.stages, id, Over);
      case CancelWaiting(id) => OneIn(b.stages, id, Over);
    }
  }

  /** In every run: permits and promoted tasks add up to the capacity, so never more tasks are promoted
  than it allows. */
  lemma {:induction false} PromotedWithinCapacity(b: Batch, events: seq<Event>, n: nat)
    requires Dispatched(b) && n <= |events|
    ensures var c := Run(b, events, n);
            && c.permits + |InStage(c.stages, Promoted)| == b.capacity == c.capacity
            && 0 <= |InStage(c.stages, Promoted)| <= b.capacity
  {
    hide Step, Enabled;
    if n == 0 {
      assert InStage(b.stages, Promoted) == {};
    } else {
      PromotedWithinCapacity(b, events, n - 1);
      StepKeepsPermits(Run(b, events, n - 1), events[n - 1]);
    }
  }

  /** The batch never gets stuck: while a task waits, either one can be let in or one is running. */
  lemma NeverStuck(b: Batch, events: seq<Event>, n: nat, id: Id)
    requires Dispatched(b) && n <= |events|
    ensures var c := Run(b, events, n);
            id in c.stages && c.stages[id].Waiting? ==>
              Enabled(c, LetIn(id)) || exists other :: Enabled(c, End(other))
  {
    hide Run;
    PromotedWithinCapacity(b, events, n);
    NobodyRuns(Run(b, events, n));
  }

  lemma NobodyRuns(b: Batch)
    ensures InStage(b.stages, Promoted) == {} <==> forall id :: !Enabled(b, End(id))
  {
    assert forall id :: Enabled(b, End(id)) <==> id in InStage(b.stages, Promoted);
  }
}
