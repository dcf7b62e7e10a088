/** Sending reference images: a ladder of compression steps chosen by size beforehand and, when the
backend still finds the request too large, descended step by step. */
module CompressionDescent {

  import opened Options

  type Bytes = seq<int>

  const LADDER := [(2048, 92), (1536, 90), (1280, 90), (1024, 88)]

  const FLOOR := (1024, 80)

  const NO_RESIZE := 1_000_000

  const PASS_THROUGH := 1024 * 1024

  /** The number of steps above the floor. */
  const STEPS := 4

  datatype Role = Array | Frame

  datatype Limits = Limits(total: nat, single: nat)

  /** Where a reference comes from: its path, its label (`tag`), its role, and its bytes when the file is there
  and decodes. */
  datatype Spec = Spec(path: string, tag: string, role: Role, raw: Option<Bytes>)

  /** What is sent: the source itself, or a re-encoded copy. */
  datatype Sent = Source(path: string) | Copy(data: Bytes)

  datatype Ref = Ref(sent: Sent, tag: string, role: Role)

  /** The image library: re-encoding at a long edge and a quality, and whether an image is a JPEG of at
  most that edge. */
  datatype Codec = Codec(encode: (Bytes, int, int) -> Bytes, isJpegWithin: (Bytes, int) -> bool)

  /** Long edge and quality of a step; beyond the ladder, the floor. */
  function Params(step: nat): (int, int) {
    if step < STEPS then LADDER[step] else FLOOR
  }

  /** One image at one step: `None` when it is passed through as it is. */
  function AtStep(codec: Codec, raw: Bytes, role: Role, step: nat, single: nat): Option<Bytes> {
    match role
    case Frame => if |raw| <= single then None else Some(codec.encode(raw, NO_RESIZE, 92))
    case Array =>
      if step == 0 && |raw| <= PASS_THROUGH && codec.isJpegWithin(raw, Params(0).0) then None
      else Some(codec.encode(raw, Params(step).0, Params(step).1))
  }

  function SizeAt(codec: Codec, raw: Bytes, role: Role, step: nat, single: nat): nat {
    var c := AtStep(codec, raw, role, step, single);
    if c.None? then |raw| else |c.value|
  }

  function Single(limits: Limits): nat {
    if limits.single < limits.total then limits.single else limits.total
  }

  /** An image that can be compressed: its place in the list, its bytes, its role. */
  datatype Image = Image(index: nat, raw: Bytes, role: Role)

  function Readable(specs: seq<Spec>): seq<Image> {
    if specs == [] then []
    else
      var n := |specs| - 1;
      Readable(specs[..n]) + if specs[n].raw.Some? then [Image(n, specs[n].raw.value, specs[n].role)] else []
  }

  function TotalAt(codec: Codec, images: seq<Image>, step: nat, single: nat): nat {
    if images == [] then 0
    else
      var n := |images| - 1;
      TotalAt(codec, images[..n], step, single) + SizeAt(codec, images[n].raw, images[n].role, step, single)
  }

  /** The payload of a step keeps to the total, and every image of an array to its own limit. */
  predicate Fits(codec: Codec, specs: seq<Spec>, limits: Limits, step: nat) {
    var images := Readable(specs);
    && TotalAt(codec, images, step, Single(limits)) <= limits.total
    && forall i :: 0 <= i < |images| && images[i].role.Array? ==>
         SizeAt(codec, images[i].raw, Array, step, Single(limits)) <= Single(limits)
  }

  function RefAt(codec: Codec, spec: Spec, limits: Limits, step: nat): Ref {
    var c := if spec.raw.None? then None else AtStep(codec, spec.raw.value, spec.role, step, Single(limits));
    Ref(if c.None? then Source(spec.path) else Copy(c.value), spec.tag, spec.role)
  }

  /** The references of a step, one for each spec, in order. */
  function RefsAt(codec: Codec, specs: seq<Spec>, limits: Limits, step: nat): seq<Ref> {
    seq(|specs|, i requires 0 <= i < |specs| => RefAt(codec, specs[i], limits, step))
  }

  // ---------------------------------------------------------------- the descent, specified

  /** The steps whose payload fits, from `from` to the floor. */
  function FittingFrom(codec: Codec, specs: seq<Spec>, limits: Limits, from: nat): (steps: seq<nat>)
    requires from <= STEPS + 1
    ensures forall k :: k in steps <==> from <= k <= STEPS && Fits(codec, specs, limits, k)
    ensures forall i, j :: 0 <= i < j < |steps| ==> steps[i] < steps[j]
    ensures |steps| <= STEPS + 1 - from
    decreases STEPS + 1 - from
  {
    if from > STEPS then []
    else
      var rest := FittingFrom(codec, specs, limits, from + 1);
      assert forall i :: 0 <= i < |rest| ==> rest[i] in rest;
      if Fits(codec, specs, limits, from) then [from] + rest else rest
  }

  datatype Reply = Accepted(result: int) | TooLarge | Failed(error: int)

  datatype Outcome = Answer(result: int) | Error(error: int) | FloorExceeded | TooLargeAnyway

  /** Trying payloads one after the other until one is not found too large; `reply` may depend on how
  many calls went before. */
  function FirstAnswer(payloads: seq<seq<Ref>>, reply: (nat, seq<Ref>) -> Reply, calls: nat): Outcome {
    if payloads == [] then FloorExceeded
    else
      match reply(calls, payloads[0])
      case Accepted(r) => Answer(r)
      case Failed(e) => Error(e)
      case TooLarge => FirstAnswer(payloads[1..], reply, calls + 1)
  }

  function Payloads(codec: Codec, specs: seq<Spec>, limits: Limits, steps: seq<nat>): seq<seq<Ref>> {
    seq(|steps|, i requires 0 <= i < |steps| => RefsAt(codec, specs, limits, steps[i]))
  }

  /** What is left to hope for: the first answer over the fitting steps still to come. */
  function Remaining(codec: Codec, specs: seq<Spec>, limits: Limits, reply: (nat, seq<Ref>) -> Reply, step: nat,
                     calls: nat): Outcome
    requires step <= STEPS + 1
  {
    FirstAnswer(Payloads(codec, specs, limits, FittingFrom(codec, specs, limits, step)), reply, calls)
  }

  predicate InPlace(specs: seq<Spec>, m: Image) {
    m.index < |specs| && specs[m.index].raw == Some(m.raw) && specs[m.index].role == m.role
  }

  lemma {:induction false} ReadableIs(specs: seq<Spec>)
    ensures forall m :: m in Readable(specs) ==> InPlace(specs, m)
    ensures forall i :: 0 <= i < |specs| && specs[i].raw.Some? ==>
              Image(i, specs[i].raw.value, specs[i].role) in Readable(specs)
  {
    if specs != [] {
      var n := |specs| - 1;
      ReadableIs(specs[..n]);
      forall m | m in Readable(specs) ensures InPlace(specs, m) {
        assert m in Readable(specs[..n]) ==> InPlace(specs[..n], m);
      }
      forall i | 0 <= i < |specs| && specs[i].raw.Some?
        ensures Image(i, specs[i].raw.value, specs[i].role) in Readable(specs)
      {
        if i < n {
          assert specs[..n][i] == specs[i];
        }
      }
    }
  }

  // ---------------------------------------------------------------- the descent, as it runs

  /** `select_ladder_step`: down the ladder to the first step that fits. */
  method SelectStep(codec: Codec, specs: seq<Spec>, limits: Limits, start: nat) returns (r: Option<nat>)
    ensures r.Some? ==>
              start <= r.value && (r.value <= STEPS || r.value == start) && Fits(codec, specs, limits, r.value)
    ensures r.Some? ==> forall k :: start <= k < r.value ==> !Fits(codec, specs, limits, k)
    ensures r.None? ==> forall k :: start <= k <= STEPS || k == start ==> !Fits(codec, specs, limits, k)
  {
    hide SizeAt, Readable, LADDER, FLOOR;
    var images := Readable(specs);
    var step := start;
    while true
      invariant start <= step && (step <= STEPS || step == start)
      invariant forall k :: start <= k < step ==> !Fits(codec, specs, limits, k)
      decreases STEPS - step
    {
      var total, singleOk := 0, true;
      for i := 0 to |images|
        invariant total == TotalAt(codec, images[..i], step, Single(limits))
        invariant singleOk <==> forall j :: 0 <= j < i && images[j].role.Array? ==>
                                  SizeAt(codec, images[j].raw, Array, step, Single(limits)) <= Single(limits)
      {
        assert images[..i + 1][..i] == images[..i];
        var size := SizeAt(codec, images[i].raw, images[i].role, step, Single(limits));
        total := total + size;
        singleOk := singleOk && (images[i].role.Array? ==> size <= Single(limits));
      }
      assert images[..|images|] == images;
      if total <= limits.total && singleOk {
        return Some(step);
      }
      if step >= STEPS {
        return None;
      }
      step := step + 1;
    }
  }

  /** `compressed_reference_payload`: the compressed images put back at their places. */
  method Payload(codec: Codec, specs: seq<Spec>, limits: Limits, step: nat) returns (refs: seq<Ref>)
    ensures refs == RefsAt(codec, specs, limits, step)
  {
    var images := Readable(specs);
    ReadableIs(specs);
    var byIndex: map<nat, Ref> := map[];
    for k := 0 to |images|
      invariant forall i :: i in byIndex ==> i < |specs| && byIndex[i] == RefAt(codec, specs[i], limits, step)
      invariant forall j :: 0 <= j < k ==> images[j].index in byIndex
    {
      var m := images[k];
      assert InPlace(specs, m);
      var c := AtStep(codec, m.raw, m.role, step, Single(limits));
      byIndex := byIndex[m.index := Ref(if c.None? then Source(specs[m.index].path)
          else Copy(c.value), specs[m.index].tag, m.role)];
    }
    refs := [];
    for i := 0 to |specs|
      invariant refs == RefsAt(codec, specs[..i], limits, step)
    {
      assert specs[i].raw.Some? ==> Image(i, specs[i].raw.value, specs[i].role) in images;
      refs := refs + [if i in byIndex then byIndex[i] else Ref(Source(specs[i].path), specs[i].tag, specs[i].role)];
    }
    assert specs[..|specs|] == specs;
  }

  /** The steps of the calls made: the fitting ones in order, every call but the last found too large,
  and the last one too unless there is a fitting step that was not called. */
  ghost predicate Made(codec: Codec, specs: seq<Spec>, limits: Limits, reply: (nat, seq<Ref>) -> Reply,
                       called: seq<nat>) {
    && called <= FittingFrom(codec, specs, limits, 0)
    && (forall j :: 0 <= j < |called| - 1 ==> reply(j, RefsAt(codec, specs, limits, called[j])).TooLarge?)
    && (called == FittingFrom(codec, specs, limits, 0)
        || (called != [] && !reply(|called| - 1, RefsAt(codec, specs, limits, called[|called| - 1])).TooLarge?))
  }

  /** That leaves no choice; the steps strictly increase and are at most as many as the ladder and its
  floor have. */
  lemma MadeIsUnique(codec: Codec, specs: seq<Spec>, limits: Limits, reply: (nat, seq<Ref>) -> Reply, a: seq<nat>,
                     b: seq<nat>)
    requires Made(codec, specs, limits, reply, a) && Made(codec, specs, limits, reply, b)
    ensures a == b
    ensures |a| <= STEPS + 1 && forall i, j :: 0 <= i < j < |a| ==> a[i] < a[j]
  {
    hide RefsAt, FittingFrom;
    var all := FittingFrom(codec, specs, limits, 0);
    assert a == all[..|a|] && b == all[..|b|];
    assert forall i :: 0 <= i < |a| && i < |b| ==> a[i] == b[i];
  }

  /** `_run_with_reference_compression`: the backend is called once for each fitting step, in order, until
  it no longer finds the request too large; without references it is called once. */
  method Run(codec: Codec, specs: seq<Spec>, limits: Limits, reply: (nat, seq<Ref>) -> Reply)
    returns (r: Outcome, ghost called: seq<nat>)
    ensures specs != [] ==> r == Remaining(codec, specs, limits, reply, 0, 0)
    ensures specs != [] ==> Made(codec, specs, limits, reply, called)
    ensures specs == [] ==> r == match reply(0, [])
            case Accepted(x) => Answer(x) case Failed(e) => Error(e) case TooLarge => TooLargeAnyway
  {
    hide Fits, FittingFrom, RefsAt, Remaining, Reached, LADDER, FLOOR;
    called := [];
    if specs == [] {
      match reply(0, []) {
        case Accepted(x) => return Answer(x), [];
        case Failed(e) => return Error(e), [];
        case TooLarge => return TooLargeAnyway, [];
      }
    }
    var step, calls := 0, 0;
    Starts(codec, specs, limits, reply);
    while true
      invariant step <= STEPS && calls == |called|
      invariant Reached(codec, specs, limits, reply, step, called)
      invariant forall j :: 0 <= j < |called| ==> reply(j, RefsAt(codec, specs, limits, called[j])).TooLarge?
      decreases STEPS - step
    {
      var landed := SelectStep(codec, specs, limits, step);
      if landed.None? {
        Ends(codec, specs, limits, reply, step, called);
        return FloorExceeded, called;
      }
      var refs := Payload(codec, specs, limits, landed.value);
      Lands(codec, specs, limits, reply, step, landed.value, called);
      called := called + [landed.value];
      match reply(calls, refs) {
        case Accepted(x) => return Answer(x), called;
        case Failed(e) => return Error(e), called;
        case TooLarge =>
          if landed.value >= STEPS {
            Ends(codec, specs, limits, reply, landed.value + 1, called);
            return FloorExceeded, called;
          }
          step, calls := landed.value + 1, calls + 1;
      }
    }
  }

  /** Before a call: the fitting steps before `step` have been called, each too large. */
  ghost predicate Reached(codec: Codec, specs: seq<Spec>, limits: Limits, reply: (nat, seq<Ref>) -> Reply, step: nat,
                          called: seq<nat>) {
    && step <= STEPS + 1
    && FittingFrom(codec, specs, limits, 0) == called + FittingFrom(codec, specs, limits, step)
    && Remaining(codec, specs, limits, reply, 0, 0) == Remaining(codec, specs, limits, reply, step, |called|)
  }

  lemma Starts(codec: Codec, specs: seq<Spec>, limits: Limits, reply: (nat, seq<Ref>) -> Reply)
    ensures Reached(codec, specs, limits, reply, 0, [])
  {
    hide FittingFrom, Remaining;
  }

  lemma Ends(codec: Codec, specs: seq<Spec>, limits: Limits, reply: (nat, seq<Ref>) -> Reply, step: nat,
             called: seq<nat>)
    requires Reached(codec, specs, limits, reply, step, called)
    requires forall k :: step <= k <= STEPS ==> !Fits(codec, specs, limits, k)
    ensures Remaining(codec, specs, limits, reply, 0, 0) == FloorExceeded
            && called == FittingFrom(codec, specs, limits, 0)
  {
    hide FittingFrom, Remaining, Fits;
    NoneFits(codec, specs, limits, step, STEPS + 1);
    SameRemaining(codec, specs, limits, reply, step, STEPS + 1, |called|);
    NoSteps(codec, specs, limits, reply, |called|);
  }

  lemma Lands(codec: Codec, specs: seq<Spec>, limits: Limits, reply: (nat, seq<Ref>) -> Reply, step: nat, landed: nat,
              called: seq<nat>)
    requires Reached(codec, specs, limits, reply, step, called)
    requires step <= landed <= STEPS && Fits(codec, specs, limits, landed)
    requires forall k :: step <= k < landed ==> !Fits(codec, specs, limits, k)
    ensures called + [landed] <= FittingFrom(codec, specs, limits, 0)
    ensures var answer, all := reply(|called|, RefsAt(codec, specs, limits, landed)),
            Remaining(codec, specs, limits, reply, 0, 0);
            && (answer.Accepted? ==> all == Answer(answer.result))
            && (answer.Failed? ==> all == Error(answer.error))
            && (answer.TooLarge? ==> Reached(codec, specs, limits, reply, landed + 1, called + [landed]))
  {
    hide FittingFrom, Remaining, Fits, RefsAt;
    NoneFits(codec, specs, limits, step, landed);
    SameRemaining(codec, specs, limits, reply, step, landed, |called|);
    OneCall(codec, specs, limits, landed, reply, |called|);
    assert called + ([landed] + FittingFrom(codec, specs, limits, landed + 1))
           == called + [landed] + FittingFrom(codec, specs, limits, landed + 1);
  }

  /** Skipping steps that do not fit changes nothing. */
  lemma {:induction false} NoneFits(codec: Codec, specs: seq<Spec>, limits: Limits, from: nat, to: nat)
    requires from <= to <= STEPS + 1 && forall k :: from <= k < to ==> !Fits(codec, specs, limits, k)
    ensures FittingFrom(codec, specs, limits, from) == FittingFrom(codec, specs, limits, to)
    decreases STEPS + 1 - from
  {
    hide Fits;
    if from < to {
      NoneFits(codec, specs, limits, from + 1, to);
    }
  }

  lemma SameRemaining(codec: Codec, specs: seq<Spec>, limits: Limits, reply: (nat, seq<Ref>) -> Reply, from: nat,
                      to: nat, calls: nat)
    requires from <= to <= STEPS + 1 && FittingFrom(codec, specs, limits, from) == FittingFrom(codec, specs, limits, to)
    ensures Remaining(codec, specs, limits, reply, from, calls) == Remaining(codec, specs, limits, reply, to, calls)
  {
    hide FittingFrom, FirstAnswer, Payloads;
  }

  lemma NoSteps(codec: Codec, specs: seq<Spec>, limits: Limits, reply: (nat, seq<Ref>) -> Reply, calls: nat)
    ensures FittingFrom(codec, specs, limits, STEPS + 1) == []
    ensures Remaining(codec, specs, limits, reply, STEPS + 1, calls) == FloorExceeded
  {
  }

  lemma FirstFits(codec: Codec, specs: seq<Spec>, limits: Limits, step: nat)
    requires step <= STEPS && Fits(codec, specs, limits, step)
    ensures FittingFrom(codec, specs, limits, step) == [step] + FittingFrom(codec, specs, limits, step + 1)
  {
    hide Fits;
  }

  lemma OneCall(codec: Codec, specs: seq<Spec>, limits: Limits, step: nat, reply: (nat, seq<Ref>) -> Reply, calls: nat)
    requires step <= STEPS && Fits(codec, specs, limits, step)
    ensures FittingFrom(codec, specs, limits, step) == [step] + FittingFrom(codec, specs, limits, step + 1)
    ensures Remaining(codec, specs, limits, reply, step, calls) ==
              match reply(calls, RefsAt(codec, specs, limits, step))
              case Accepted(x) => Answer(x)
              case Failed(e) => Error(e)
              case TooLarge =>
                Remaining(codec, specs, limits, reply, step + 1, calls + 1)
  {
    FirstFits(codec, specs, limits, step);
    hide Fits, RefsAt, FittingFrom, Payloads, FirstAnswer;
    var rest := FittingFrom(codec, specs, limits, step + 1);
    PayloadsOneMore(codec, specs, limits, step, rest);
    AnswerOneMore(RefsAt(codec, specs, limits, step), Payloads(codec, specs, limits, rest), reply, calls);
  }

  lemma PayloadsOneMore(codec: Codec, specs: seq<Spec>, limits: Limits, step: nat, rest: seq<nat>)
    ensures Payloads(codec, specs, limits, [step] + rest)
         == [RefsAt(codec, specs, limits, step)] + Payloads(codec, specs, limits, rest)
  {
    hide RefsAt;
  }

  lemma AnswerOneMore(first: seq<Ref>, rest: seq<seq<Ref>>, reply: (nat, seq<Ref>) -> Reply, calls: nat)
    ensures FirstAnswer([first] + rest, reply, calls) ==
              match reply(calls, first)
              case Accepted(x) => Answer(x)
              case Failed(e) => Error(e)
              case TooLarge => FirstAnswer(rest, reply, calls + 1)
  {
    assert ([first] + rest)[1..] == rest;
  }

  // ---------------------------------------------------------------- what is measured is what is sent

  /** The bytes a reference puts into the request. */
  function Weight(spec: Spec, ref: Ref): nat {
    match ref.sent
    case Source(_) => if spec.raw.Some? then |spec.raw.value| else 0
    case Copy(data) => |data|
  }

  function SentBytes(specs: seq<Spec>, refs: seq<Ref>): nat
    requires |specs| == |refs|
  {
    if specs == [] then 0
    else
      var n := |specs| - 1;
      SentBytes(specs[..n], refs[..n]) + Weight(specs[n], refs[n])
  }

  lemma TotalNext(codec: Codec, images: seq<Image>, m: Image, step: nat, single: nat)
    ensures TotalAt(codec, [], step, single) == 0
    ensures TotalAt(codec, images + [m], step, single)
         == TotalAt(codec, images, step, single) + SizeAt(codec, m.raw, m.role, step, single)
  {
    hide SizeAt;
    assert (images + [m])[..|images|] == images;
  }

  lemma {:induction false} MeasuredIsSent(codec: Codec, specs: seq<Spec>, limits: Limits, step: nat)
    ensures TotalAt(codec, Readable(specs), step, Single(limits))
         == SentBytes(specs, RefsAt(codec, specs, limits, step))
  {
    hide AtStep, TotalAt;
    if specs == [] {
      TotalNext(codec, [], Image(0, [], Array), step, Single(limits));
    } else {
      var n := |specs| - 1;
      MeasuredIsSent(codec, specs[..n], limits, step);
      assert RefsAt(codec, specs, limits, step)[..n] == RefsAt(codec, specs[..n], limits, step);
      assert Weight(specs[n], RefsAt(codec, specs, limits, step)[n]) ==
             if specs[n].raw.Some? then SizeAt(codec, specs[n].raw.value, specs[n].role, step, Single(limits)) else 0;
      var before := Readable(specs[..n]);
      if specs[n].raw.Some? {
        var m := Image(n, specs[n].raw.value, specs[n].role);
        assert Readable(specs) == before + [m];
        TotalNext(codec, before, m, step, Single(limits));
      } else {
        assert Readable(specs) == before + [] == before;
      }
    }
  }

  /** A step fits exactly when what would be sent keeps to the total and every readable image of an array to its
  own limit. */
  lemma FitsIffSentFits(codec: Codec, specs: seq<Spec>, limits: Limits, step: nat)
    ensures var refs := RefsAt(codec, specs, limits, step);
            Fits(codec, specs, limits, step) <==>
              && SentBytes(specs, refs) <= limits.total
              && forall i :: 0 <= i < |specs| && specs[i].raw.Some? && specs[i].role.Array? ==>
                   Weight(specs[i], refs[i]) <= limits.single && Weight(specs[i], refs[i]) <= limits.total
  {
    hide AtStep, Readable, TotalAt, SentBytes;
    var refs, images := RefsAt(codec, specs, limits, step), Readable(specs);
    MeasuredIsSent(codec, specs, limits, step);
    ReadableIs(specs);
    forall i | 0 <= i < |images|
      ensures InPlace(specs, images[i])
              && SizeAt(codec, images[i].raw, images[i].role, step, Single(limits))
                 == Weight(specs[images[i].index], refs[images[i].index])
    {
      assert images[i] in images;
    }
    if Fits(codec, specs, limits, step) {
      forall i | 0 <= i < |specs| && specs[i].raw.Some? && specs[i].role.Array?
        ensures Weight(specs[i], refs[i]) <= Single(limits)
      {
        var m := Image(i, specs[i].raw.value, specs[i].role);
        var k :| 0 <= k < |images| && images[k] == m;
      }
    }
  }

  /** Every step down is at most as large and as fine as the one before, and different. */
  lemma LadderDescends(step: nat)
    requires step < STEPS
    ensures Params(step + 1).0 <= Params(step).0 && Params(step + 1).1 <= Params(step).1
    ensures Params(step + 1) != Params(step)
  {
  }

  /** A reference is sent as it is exactly if it cannot be read, or is a frame within the limits, or, at the first
  step, a JPEG of at most 1 MiB and 2048 pixels; any other is re-encoded, a frame at its full size and an image
  of an array by its step. */
  lemma SentAsIs(codec: Codec, specs: seq<Spec>, limits: Limits, step: nat, i: nat)
    requires i < |specs|
    ensures var spec, ref := specs[i], RefsAt(codec, specs, limits, step)[i];
            && (ref.sent == Source(spec.path) <==>
                  || spec.raw.None?
                  || (spec.role.Frame? && |spec.raw.value| <= limits.single && |spec.raw.value| <= limits.total)
                  || (spec.role.Array? && step == 0 && |spec.raw.value| <= 1_048_576
                      && codec.isJpegWithin(spec.raw.value, 2048)))
            && (ref.sent != Source(spec.path) ==>
                  var (edge, quality) := if spec.role.Frame? then (NO_RESIZE, 92) else Params(step);
                  ref.sent == Copy(codec.encode(spec.raw.value, edge, quality)))
  {
  }

  /** What is sent matches the specs one to one, and a frame looks the same at every step. */
  lemma RefsMatch(codec: Codec, specs: seq<Spec>, limits: Limits, step: nat, step': nat, i: nat)
    requires i < |specs|
    ensures var refs := RefsAt(codec, specs, limits, step);
            && |refs| == |specs| && refs[i].tag == specs[i].tag && refs[i].role == specs[i].role
            && (specs[i].raw.None? ==> refs[i].sent == Source(specs[i].path))
            && (specs[i].role.Frame? ==> refs[i] == RefsAt(codec, specs, limits, step')[i])
  {
  }
}
