/**
 A batch command from its slot to its final: what the handler lends is the plan it built, and what the worker
 makes of it is published unless it is larger than a slot can store
 (esp32-collector/components/msg_handler/handler_channel_cmd_v2.c,
 esp32-collector/components/bus_worker/bus_worker.c).
 */
module BatchCommand {
  import opened Wire
  import opened SlotTable
  import opened SlotLaws
  import BatchPlan
  import BatchExecutor

  const SUSPENDED := 1007

  /** The command's plan was built from these steps. */
  predicate Carries(cmd: Cmd, bodies: seq<seq<byte>>) {
    BatchPlan.BuildPlan(bodies) == Some(cmd.plan) && cmd.planSteps == |bodies|
  }

  /** The event gives slot `i` to its command. */
  ghost predicate Starts(t: Table, e: Event, i: nat) {
    Inv(t) && Admits(t, e) && e.admit && Reserve(t.slots, e.cmd) == Take(i)
  }

  lemma StartsQueued(t: Table, e: Event, i: nat)
    requires Starts(t, e, i)
    ensures var u := Step(t, e).0;
            Inv(u) && |u.slots| == |t.slots| && i < |u.slots| && u.slots[i] == Slot(Queued, e.cmd, NO_RESULT, 0)
  {
    StepKeepsInv(t, e);
  }

  lemma PlanHasSteps(bodies: seq<seq<byte>>)
    requires bodies != [] && BatchPlan.Bodies(bodies)
    ensures BatchPlan.PlanOf(bodies) != []
  {
  }

  /** Until the first final, what is lent is the length-prefixed steps the plan was built from, which the
      worker cuts back into those steps; afterwards nothing is. */
  lemma LendsItsSteps(t: Table, e: Event, i: nat, es: seq<Event>, bodies: seq<seq<byte>>)
    requires e.Receive? && Starts(t, e, i) && Carries(e.cmd, bodies) && bodies != []
    requires !Reassigned(Run(Step(t, e).0, es).1, i)
    ensures BatchPlan.Bodies(bodies) && BatchPlan.SplitPlan(BatchPlan.PlanOf(bodies), |bodies|) == Some(bodies)
    ensures Borrow(Run(Step(t, e).0, es).0, i) ==
              if FirstFinals(Run(Step(t, e).0, es).1, e.cmd.id) == 0
              then Some((BatchPlan.PlanOf(bodies), |bodies|)) else None
  {
    hide Run, Step, Inv, FirstFinals, Reassigned, Starts, BatchPlan.BuildPlan, BatchPlan.PlanOf, BatchPlan.SplitPlan;
    BatchPlan.HandlerPlansDecode(bodies, e.cmd.plan);
    PlanHasSteps(bodies);
    StartsQueued(t, e, i);
    BorrowsOwnPlan(Step(t, e).0, es, i);
  }

  // ---- The result ----------------------------------------------------------------------------

  /** How the worker completes a batch; it has no bytes to hand over when the batch failed. */
  function Completion(i: nat, outcome: BatchExecutor.Outcome, suspended: bool): Event {
    match outcome
    case Success(raw) => Claim(i, true, 0, Bytes(raw))
    case Failure(code) => Claim(i, false, if suspended then SUSPENDED else code, Null(0))
  }

  /** The steps' bytes in a result if every step answers with what it asked for. */
  function Declared(bodies: seq<seq<byte>>): nat {
    if bodies == [] then 0
    else
      var step := BatchPlan.DecodeStep(bodies[0]);
      3 + (if step.Some? then step.value.read else 0) + Declared(bodies[1..])
  }

  /** Every step declares how many bytes it reads. */
  predicate Sized(bodies: seq<seq<byte>>) {
    forall i :: 0 <= i < |bodies| ==>
      BatchPlan.DecodeStep(bodies[i]).Some? && BatchPlan.DecodeStep(bodies[i]).value.read > 0
  }

  function Answered(replies: seq<BatchExecutor.Reply>): nat {
    if replies == [] then 0 else 3 + |replies[0].response| + Answered(replies[1..])
  }

  lemma {:induction false} AnsweredIsLength(replies: seq<BatchExecutor.Reply>)
    requires BatchExecutor.ValidReplies(replies)
    ensures |BatchExecutor.Items(replies)| == Answered(replies)
    decreases |replies|
  {
    hide BatchExecutor.Items, BatchExecutor.Item;
    if replies != [] {
      assert replies == [replies[0]] + replies[1..];
      BatchExecutor.ItemsFront(replies[0], replies[1..]);
      BatchExecutor.ItemSize(replies[0]);
      AnsweredIsLength(replies[1..]);
    } else {
      BatchExecutor.RunNothing([], [], 0, n => BatchExecutor.World(false, []));
    }
  }

  lemma ReplySize(body: seq<byte>, w: BatchExecutor.World, used: nat, reply: BatchExecutor.Reply)
    requires BatchExecutor.Goes(body, w, used, reply)
    requires BatchPlan.DecodeStep(body).Some? && BatchPlan.DecodeStep(body).value.read > 0
    ensures |reply.response| == BatchPlan.DecodeStep(body).value.read
  {
    hide BatchPlan.DecodeStep;
    BatchExecutor.CollectSound(w.polls, BatchExecutor.RAW_MAX - used - 3, BatchPlan.DecodeStep(body).value.read);
  }

  lemma {:induction false} AnsweredAsDeclared(bodies: seq<seq<byte>>, replies: seq<BatchExecutor.Reply>, i: nat,
                                              used: nat, world: nat -> BatchExecutor.World)
    requires BatchExecutor.AllGo(bodies, replies, i, used, world) && Sized(bodies)
    ensures Answered(replies) == Declared(bodies)
    decreases |bodies|
  {
    hide BatchPlan.DecodeStep, BatchExecutor.Goes;
    if bodies != [] {
      ReplySize(bodies[0], world(i), used, replies[0]);
      AnsweredAsDeclared(bodies[1..], replies[1..], i + 1, used + 3 + |replies[0].response|, world);
    }
  }

  /** The batch ran to its end: its result is the envelope of the replies. */
  lemma SuccessIsEnvelope(bodies: seq<seq<byte>>, plan: seq<byte>, world: nat -> BatchExecutor.World)
      returns (replies: seq<BatchExecutor.Reply>)
    requires BatchPlan.BuildPlan(bodies) == Some(plan)
    requires BatchExecutor.RunSteps(plan, [|bodies|], 0, |bodies|, world).0.Success?
    ensures |bodies| < 256 && |replies| == |bodies| && BatchExecutor.ValidReplies(replies)
    ensures BatchExecutor.AllGo(bodies, replies, 0, 1, world)
    ensures BatchExecutor.RunSteps(plan, [|bodies|], 0, |bodies|, world).0.raw == BatchExecutor.Envelope(replies)
    ensures |BatchExecutor.Envelope(replies)| == 1 + Answered(replies)
  {
    hide *;
    BatchPlan.HandlerPlansDecode(bodies, plan);
    BatchExecutor.StepsFit(bodies);
    replies := BatchExecutor.SuccessShows(plan, [|bodies|], 0, |bodies|, world);
    BatchExecutor.AllGoValid(bodies, replies, 0, 1, world);
    AnsweredIsLength(replies);
    EnvelopeIs(replies);
  }

  lemma EnvelopeIs(replies: seq<BatchExecutor.Reply>)
    requires |replies| < 256 && BatchExecutor.ValidReplies(replies)
    ensures BatchExecutor.Envelope(replies) == [|replies|] + BatchExecutor.Items(replies)
  {
  }

  lemma CompletesOnce(u: Table, i: nat, outcome: BatchExecutor.Outcome, suspended: bool)
    requires i < |u.slots| && u.slots[i].state == Queued
    ensures Run(u, [Completion(i, outcome, suspended), Publish(i)]).1 == [FinalMsg(u.slots[i].cmd,
              match outcome
              case Failure(code) => Result(false, if suspended then 1007 else code, [])
              case Success(raw) =>
                if |raw| > 128 then Result(false, 1005, []) else Result(true, 0, raw), false)]
  {
    RunTwo(u, Completion(i, outcome, suspended), Publish(i));
  }

  /**
   A batch all of whose steps were carried out is published as a success, with the envelope of its replies,
   exactly when that envelope fits the 128 bytes a slot stores; otherwise the final says overflow and the
   replies are gone, although every step was transmitted.  When the steps declare what they read, the sizes
   declared in the command decide it.
   */
  lemma BatchFinal(t: Table, e: Event, i: nat, es: seq<Event>, bodies: seq<seq<byte>>,
                   world: nat -> BatchExecutor.World, suspended: bool)
      returns (replies: seq<BatchExecutor.Reply>)
    requires e.Receive? && Starts(t, e, i) && Carries(e.cmd, bodies) && 2 <= |bodies|
    requires !Reassigned(Run(Step(t, e).0, es).1, i)
    requires var u := Run(Step(t, e).0, es).0; i < |u.slots| && u.slots[i].state == Queued
    requires BatchExecutor.RunSteps(e.cmd.plan, [|bodies|], 0, |bodies|, world).0.Success?
    ensures |replies| == |bodies| < 256 && BatchExecutor.ValidReplies(replies)
    ensures BatchExecutor.AllGo(bodies, replies, 0, 1, world)
    ensures BatchExecutor.ParseEnvelope(BatchExecutor.Envelope(replies)) == Some(replies)
    ensures Sized(bodies) ==> Answered(replies) == Declared(bodies)
    ensures var outcome := BatchExecutor.RunSteps(e.cmd.plan, [|bodies|], 0, |bodies|, world).0;
            Run(Run(Step(t, e).0, es).0, [Completion(i, outcome, suspended), Publish(i)]).1 == [FinalMsg(e.cmd,
              if 1 + Answered(replies) <= 128 then Result(true, 0, BatchExecutor.Envelope(replies))
              else Result(false, 1005, []), false)]
  {
    hide Run, Step, Inv, FirstFinals, Reassigned, Starts, BatchPlan.BuildPlan, BatchExecutor.RunSteps,
         BatchExecutor.AllGo, BatchExecutor.Envelope, BatchExecutor.ParseEnvelope, Answered, Declared, Sized,
         BatchExecutor.ValidReplies, Completion;
    var u := Run(Step(t, e).0, es).0;
    StartsQueued(t, e, i);
    BorrowsOwnPlan(Step(t, e).0, es, i);
    replies := SuccessIsEnvelope(bodies, e.cmd.plan, world);
    BatchExecutor.EnvelopeParses(replies, replies);
    if Sized(bodies) { AnsweredAsDeclared(bodies, replies, 0, 1, world); }
    CompletesOnce(u, i, BatchExecutor.RunSteps(e.cmd.plan, [|bodies|], 0, |bodies|, world).0, suspended);
  }

  // ---- It happens ----------------------------------------------------------------------------

  const STEP := BatchPlan.Step(0, [1], 61, 1000, 0)

  /** The encoding of that step. */
  const BODY: seq<byte> := [8, 0, 18, 1, 1, 24, 61, 32, 232, 7, 40, 0]

  lemma BodyDecodes()
    ensures BatchPlan.DecodeStep(BODY) == Some(STEP)
  {
    var fs := BatchPlan.StepFields(STEP);
    EncodeFive(fs[0], fs[1], fs[2], fs[3], fs[4]);
    assert EncodeField(Num(1, 0)) == [8, 0] && EncodeField(Blob(2, [1])) == [18, 1, 1];
    assert EncodeField(Num(3, 61)) == [24, 61] && EncodeField(Num(5, 0)) == [40, 0];
    assert Varint(1000) == [232, 7] && EncodeField(Num(4, 1000)) == [32, 232, 7];
    assert Encode(fs) == BODY;
    BatchPlan.FieldsDecode(fs, STEP);
  }

  lemma EncodeFive(a: Field, b: Field, c: Field, d: Field, e: Field)
    ensures Encode([a, b, c, d, e])
         == EncodeField(a) + (EncodeField(b) + (EncodeField(c) + (EncodeField(d) + (EncodeField(e) + []))))
  {
    hide EncodeField;
    assert [a, b, c, d, e][1..] == [b, c, d, e] && [b, c, d, e][1..] == [c, d, e];
    assert [c, d, e][1..] == [d, e] && [d, e][1..] == [e] && [e][1..] == [];
    assert Encode([e]) == EncodeField(e) + [];
    assert Encode([d, e]) == EncodeField(d) + Encode([e]);
    assert Encode([c, d, e]) == EncodeField(c) + Encode([d, e]);
    assert Encode([b, c, d, e]) == EncodeField(b) + Encode([c, d, e]);
  }

  lemma TwoSteps()
    ensures BatchPlan.BuildPlan([BODY, BODY]) == Some([12, 0] + BODY + ([12, 0] + BODY))
    ensures BatchPlan.SplitPlan([12, 0] + BODY + ([12, 0] + BODY), 2) == Some([BODY, BODY])
  {
    BodyDecodes();
    hide BatchPlan.DecodeStep;
    assert BatchPlan.Prefixed(BODY) == [12, 0] + BODY;
    assert [BODY, BODY][..1] == [BODY] && [BODY][..0] == [];
    assert [] + BatchPlan.Prefixed(BODY) == BatchPlan.Prefixed(BODY);
    assert BatchPlan.BuildPlan([BODY]) == Some(BatchPlan.Prefixed(BODY));
    BatchPlan.HandlerPlansDecode([BODY, BODY], BatchPlan.BuildPlan([BODY, BODY]).value);
  }

  /** Both steps are written and answered at once with these bytes. */
  function Answering(data: seq<byte>): nat -> BatchExecutor.World {
    n => BatchExecutor.World(true, [BatchExecutor.Poll(false, false, data, false, false)])
  }

  lemma BothGo(data: seq<byte>)
    requires |data| == 61
    ensures var r := BatchExecutor.Reply(0, data);
            BatchExecutor.AllGo([BODY, BODY], [r, r], 0, 1, Answering(data))
    ensures BatchExecutor.Transmitted([BODY, BODY]) == [[1], [1]]
  {
    BodyDecodes();
    hide BatchPlan.DecodeStep;
    var r, w := BatchExecutor.Reply(0, data), Answering(data);
    assert data[..61] == data;
    assert BatchExecutor.Goes(BODY, w(0), 1, r) && BatchExecutor.Goes(BODY, w(1), 65, r);
    assert BatchExecutor.TxOf(BODY) == [1];
    hide BatchExecutor.Goes, BatchExecutor.AllGo, BatchExecutor.Transmitted;
    BatchExecutor.NothingGoes(2, 129, w);
    BatchExecutor.AllGoHead(BODY, [], r, [], 1, 65, w);
    BatchExecutor.AllGoHead(BODY, [BODY] + [], r, [r] + [], 0, 1, w);
    assert [BODY] + ([BODY] + []) == [BODY, BODY] && [r] + ([r] + []) == [r, r];
  }

  lemma AnsweredTwice(r: BatchExecutor.Reply)
    ensures Answered([r, r]) == 6 + 2 * |r.response|
  {
    assert [r, r][1..] == [r] && [r][1..] == [];
    assert Answered([r]) == 3 + |r.response| + Answered([]);
  }

  /** The batch is carried out; its result has 129 bytes. */
  lemma BatchOfTwo(plan: seq<byte>, data: seq<byte>)
    requires |data| == 61 && plan == [12, 0] + BODY + ([12, 0] + BODY)
    ensures var batch := BatchExecutor.RunSteps(plan, [2], 0, 2, Answering(data));
            batch.0.Success? && |batch.0.raw| == 129 && batch.1 == [[1], [1]]
  {
    hide *;
    var r := BatchExecutor.Reply(0, data);
    TwoSteps();
    BothGo(data);
    AnsweredTwice(r);
    BatchExecutor.StepsSucceed(plan, [2], 0, 2, Answering(data), [r, r]);
    AnsweredIsLength([r, r]);
  }

  lemma FirstCommandStarts(cmd: Cmd, now: nat)
    requires 0 < now < cmd.deadline
    ensures Starts(Empty(1, cmd), Receive(cmd, Some(cmd.boot), now, true), 0)
  {
  }

  /** Two reads of 61 bytes, both answered: the first command after boot ends as an overflow. */
  lemma OverflowHappens(cmd: Cmd, now: nat, data: seq<byte>)
    requires |data| == 61 && 0 < now < cmd.deadline
    requires cmd.plan == [12, 0] + BODY + ([12, 0] + BODY) && cmd.planSteps == 2
    ensures var e := Receive(cmd, Some(cmd.boot), now, true);
            var u := Step(Empty(1, cmd), e).0;
            var batch := BatchExecutor.RunSteps(cmd.plan, [2], 0, 2, Answering(data));
            && Starts(Empty(1, cmd), e, 0) && Carries(cmd, [BODY, BODY]) && Sized([BODY, BODY])
            && batch.0.Success? && batch.1 == [[1], [1]]
            && Run(u, [Completion(0, batch.0, false), Publish(0)]).1
                 == [FinalMsg(cmd, Result(false, 1005, []), false)]
  {
    hide *;
    BothSized();
    FirstCommandStarts(cmd, now);
    TwoSteps();
    BatchOfTwo(cmd.plan, data);
    CarriesIs(cmd, [BODY, BODY]);
    var e := Receive(cmd, Some(cmd.boot), now, true);
    StartsQueued(Empty(1, cmd), e, 0);
    CompletesOnce(Step(Empty(1, cmd), e).0, 0, BatchExecutor.RunSteps(cmd.plan, [2], 0, 2, Answering(data)).0, false);
  }

  lemma BothSized()
    ensures Sized([BODY, BODY])
  {
    BodyDecodes();
    hide BatchPlan.DecodeStep;
  }

  lemma CarriesIs(cmd: Cmd, bodies: seq<seq<byte>>)
    ensures Carries(cmd, bodies) <==> BatchPlan.BuildPlan(bodies) == Some(cmd.plan) && cmd.planSteps == |bodies|
  {
  }
}
