/**
 The batch executor of the bus worker (esp32-collector/components/bus_worker/bus_worker.c,
 `execute_uart_batch`): transmit each step of a plan, collect its answer, and lay the answers out one after
 another in the final's raw bytes.
 */
module BatchExecutor {
  import opened Wire
  import opened BatchPlan

  const RAW_MAX := 256

  const BAD_STEP := 0x1100
  const TX_FAILED := 0x1200
  const NO_ROOM := 0x1300
  const NO_ANSWER := 0x1400

  // ---- Collecting one answer -----------------------------------------------------------------

  /** What the collecting loop finds each time it wakes up; `data` is the receive hand-off so far. */
  datatype Poll = Poll(suspended: bool, error: bool, data: seq<byte>, quiet: bool, late: bool)

  /** `uart_collect_response`. */
  function Collect(polls: seq<Poll>, cap: nat, expected: nat): Option<seq<byte>> {
    if polls == [] then None
    else
      var p := polls[0];
      if p.suspended || p.error || |p.data| > cap then None
      else if expected > 0 && |p.data| >= expected then Some(p.data[..expected])
      else if p.data != [] && p.quiet then (if expected == 0 then Some(p.data) else None)
      else if p.late then None
      else Collect(polls[1..], cap, expected)
  }

  /** An answer has the declared length, or is all that arrived before the line went quiet. */
  lemma {:induction false} CollectSound(polls: seq<Poll>, cap: nat, expected: nat)
    requires Collect(polls, cap, expected).Some?
    ensures var r := Collect(polls, cap, expected).value;
      && 0 < |r| <= cap && (expected > 0 ==> |r| == expected)
      && exists p :: p in polls && !p.error && !p.suspended && |p.data| <= cap && r <= p.data
                     && (expected == 0 ==> p.quiet && r == p.data)
    decreases |polls|
  {
    var p := polls[0];
    assert p in polls;
    if !(expected > 0 && |p.data| >= expected) && !(p.data != [] && p.quiet) {
      CollectSound(polls[1..], cap, expected);
    }
  }

  /** Nothing is decided yet: no error, not too much, neither what was asked for nor a quiet line, and still time. */
  predicate Undecided(p: Poll, cap: nat, expected: nat) {
    && !p.suspended && !p.error && !p.late && |p.data| <= cap
    && !(expected > 0 && |p.data| >= expected) && !(p.data != [] && p.quiet)
  }

  /** The answer is decided the first time it can be: by an error, by the declared length, by the line going quiet, or
      by the timeout, in this order. */
  lemma {:induction false} CollectDecides(polls: seq<Poll>, cap: nat, expected: nat, k: nat)
    requires k <= |polls| && forall i :: 0 <= i < k ==> Undecided(polls[i], cap, expected)
    ensures k == |polls| ==> Collect(polls, cap, expected) == None
    ensures k < |polls| && !Undecided(polls[k], cap, expected) ==>
      var p := polls[k];
      Collect(polls, cap, expected) ==
        if p.suspended || p.error || |p.data| > cap then None
        else if expected > 0 && |p.data| >= expected then Some(p.data[..expected])
        else if p.data != [] && p.quiet && expected == 0 then Some(p.data)
        else None
    decreases |polls|
  {
    if k > 0 {
      assert Undecided(polls[0], cap, expected);
      CollectDecides(polls[1..], cap, expected, k - 1);
    }
  }

  // ---- The result ----------------------------------------------------------------------------

  datatype Reply = Reply(kind: nat, response: seq<byte>)

  predicate ValidReply(r: Reply) { r.kind <= 255 && |r.response| < 65536 }

  function Item(r: Reply): seq<byte>
    requires ValidReply(r)
  {
    [r.kind, |r.response| % 256, |r.response| / 256] + r.response
  }

  predicate ValidReplies(rs: seq<Reply>) { forall i :: 0 <= i < |rs| ==> ValidReply(rs[i]) }

  function Items(rs: seq<Reply>): seq<byte>
    requires ValidReplies(rs)
  {
    if rs == [] then [] else Items(rs[..|rs| - 1]) + Item(rs[|rs| - 1])
  }

  function Envelope(rs: seq<Reply>): seq<byte>
    requires |rs| < 256 && ValidReplies(rs)
  {
    [|rs|] + Items(rs)
  }

  /** How the server takes an envelope apart. */
  function ParseItems(b: seq<byte>, n: nat): Option<seq<Reply>> {
    if n == 0 then (if b == [] then Some([]) else None)
    else if |b| < 3 then None
    else
      var lo: int, hi: int := b[1], b[2];
      var len := lo + 256 * hi;
      if 3 + len > |b| then None
      else
        var rest :- ParseItems(b[3 + len..], n - 1);
        Some([Reply(b[0], b[3..3 + len])] + rest)
  }

  function ParseEnvelope(b: seq<byte>): Option<seq<Reply>> {
    if b == [] then None else ParseItems(b[1..], b[0])
  }

  /** A result is the number of items, and each item the step's kind, the length of the answer, low byte first, and
      the answer. */
  lemma EnvelopeLayout(rs: seq<Reply>)
    requires |rs| < 256 && ValidReplies(rs)
    ensures |Envelope(rs)| > 0 && Envelope(rs)[0] as int == |rs|
    ensures rs != [] ==>
      var b, n := Envelope(rs), |rs[0].response|;
      && |b| >= 4 + n && b[1] as int == rs[0].kind && b[2] as int + 256 * b[3] as int == n
      && b[4..4 + n] == rs[0].response && b[4 + n..] == Items(rs[1..])
  {
    if rs != [] {
      assert rs == [rs[0]] + rs[1..];
      ItemsFront(rs[0], rs[1..]);
    }
  }

  lemma ItemsSnoc(rs: seq<Reply>, r: Reply)
    requires ValidReplies(rs) && ValidReply(r)
    ensures ValidReplies(rs + [r]) && Items(rs + [r]) == Items(rs) + Item(r) && Items([]) == []
  {
    assert (rs + [r])[..|rs|] == rs;
  }

  lemma ValidFront(r: Reply, rs: seq<Reply>)
    requires ValidReply(r) && ValidReplies(rs)
    ensures ValidReplies([r] + rs)
    ensures rs != [] ==> ValidReplies(rs[..|rs| - 1]) && ValidReply(rs[|rs| - 1]) && ValidReplies([r] + rs[..|rs| - 1])
  {
  }

  lemma {:induction false} ItemsFront(r: Reply, rs: seq<Reply>)
    requires ValidReply(r) && ValidReplies(rs)
    ensures ValidReplies([r] + rs) && Items([r] + rs) == Item(r) + Items(rs)
    decreases |rs|
  {
    hide *;
    ValidFront(r, rs);
    if rs == [] {
      ItemsSnoc([], r);
      assert [] + [r] == [r] + rs && [] + Item(r) == Item(r) == Item(r) + [];
    } else {
      var head, last := rs[..|rs| - 1], rs[|rs| - 1];
      ItemsFront(r, head);
      ItemsSnoc(head, last);
      ItemsSnoc([r] + head, last);
      assert head + [last] == rs && [r] + head + [last] == [r] + rs;
      Associate(Item(r), Items(head), Item(last));
    }
  }

  lemma {:induction false} ParseInverts(rs: seq<Reply>)
    requires ValidReplies(rs)
    ensures ParseItems(Items(rs), |rs|) == Some(rs)
    decreases |rs|
  {
    if rs != [] {
      var r, rest := rs[0], rs[1..];
      assert rs == [r] + rest;
      ItemsFront(r, rest);
      var b := Items(rs);
      var len := |r.response|;
      assert b[0] == r.kind && b[1] == len % 256 && b[2] == len / 256;
      assert b[3..3 + len] == r.response && b[3 + len..] == Items(rest);
      ParseInverts(rest);
    }
  }

  /** The result of a batch reads back to exactly the kinds and answers that went in; no other list does. */
  lemma EnvelopeParses(rs: seq<Reply>, qs: seq<Reply>)
    requires |rs| < 256 && ValidReplies(rs) && |qs| < 256 && ValidReplies(qs)
    ensures ParseEnvelope(Envelope(rs)) == Some(rs)
    ensures Envelope(rs) == Envelope(qs) ==> rs == qs
  {
    ParseInverts(rs);
    ParseInverts(qs);
    assert Envelope(rs)[1..] == Items(rs) && Envelope(qs)[1..] == Items(qs);
  }

  // ---- Running a plan ------------------------------------------------------------------------

  /** What the environment does at one step. */
  datatype World = World(writes: bool, polls: seq<Poll>)

  datatype Outcome = Success(raw: seq<byte>) | Failure(error: nat)

  /** The steps from number `i` on, with the result so far, and what is transmitted. */
  function RunSteps(plan: seq<byte>, raw: seq<byte>, i: nat, n: nat, world: nat -> World): (Outcome, seq<seq<byte>>)
    requires i <= n
    decreases n - i
  {
    if i == n then (Success(raw), [])
    else if NextBody(plan).None? then (Failure(BAD_STEP + i), [])
    else
      var next := NextBody(plan).value;
      var step := DecodeStep(next.0);
      if step.None? then (Failure(BAD_STEP + i), [])
      else if !world(i).writes then (Failure(TX_FAILED + i), [])
      else if |raw| + 3 > RAW_MAX then (Failure(NO_ROOM + i), [step.value.tx])
      else
        var answer := Collect(world(i).polls, RAW_MAX - |raw| - 3, step.value.read);
        if answer.None? then (Failure(NO_ANSWER + i), [step.value.tx])
        else
          DecodedKind(next.0);
          CollectSound(world(i).polls, RAW_MAX - |raw| - 3, step.value.read);
          var rest := RunSteps(next.1, raw + Item(Reply(step.value.kind, answer.value)), i + 1, n, world);
          (rest.0, [step.value.tx] + rest.1)
  }

  lemma DecodedKind(b: seq<byte>)
    requires DecodeStep(b).Some?
    ensures ValidStep(DecodeStep(b).value)
  {
  }

  /** The reply of the step in `body`, run in world `w` with `used` bytes of result so far, if it goes. */
  function Answer(body: seq<byte>, w: World, used: nat): Option<Reply> {
    var step :- DecodeStep(body);
    if !w.writes || used + 3 > RAW_MAX then None
    else
      var response :- Collect(w.polls, RAW_MAX - used - 3, step.read);
      Some(Reply(step.kind, response))
  }

  predicate Goes(body: seq<byte>, w: World, used: nat, reply: Reply) { Answer(body, w, used) == Some(reply) }

  function TxOf(body: seq<byte>): seq<byte> { if DecodeStep(body).Some? then DecodeStep(body).value.tx else [] }

  /** The bytes transmitted by these steps, in order. */
  function Transmitted(bodies: seq<seq<byte>>): seq<seq<byte>> {
    if bodies == [] then [] else [TxOf(bodies[0])] + Transmitted(bodies[1..])
  }

  /** All the steps give these replies, one after another from number `i` on. */
  predicate AllGo(bodies: seq<seq<byte>>, replies: seq<Reply>, i: nat, used: nat, world: nat -> World)
    decreases |bodies|
  {
    if bodies == [] || replies == [] then bodies == [] && replies == []
    else
      && Goes(bodies[0], world(i), used, replies[0])
      && AllGo(bodies[1..], replies[1..], i + 1, used + 3 + |replies[0].response|, world)
  }

  /** A step goes when it decodes, is written, leaves room for three bytes of its item, and is answered in the room that
      then remains of 256 bytes; its reply is its kind and that answer. */
  lemma GoesMeans(body: seq<byte>, w: World, used: nat, reply: Reply)
    ensures Goes(body, w, used, reply) <==>
      && DecodeStep(body).Some? && w.writes && used + 3 <= 256
      && reply.kind == DecodeStep(body).value.kind
      && Collect(w.polls, 256 - used - 3, DecodeStep(body).value.read) == Some(reply.response)
    ensures DecodeStep(body).Some? ==> TxOf(body) == DecodeStep(body).value.tx
  {
    hide DecodeStep, Collect;
  }

  lemma GoesValid(body: seq<byte>, w: World, used: nat, reply: Reply)
    requires Goes(body, w, used, reply)
    ensures ValidReply(reply) && used + |Item(reply)| <= RAW_MAX && |Item(reply)| == 3 + |reply.response|
  {
    DecodedKind(body);
    CollectSound(w.polls, RAW_MAX - used - 3, DecodeStep(body).value.read);
  }

  lemma {:induction false} AllGoValid(bodies: seq<seq<byte>>, replies: seq<Reply>, i: nat, used: nat,
                                       world: nat -> World)
    requires AllGo(bodies, replies, i, used, world)
    ensures ValidReplies(replies) && |bodies| == |replies|
    ensures bodies != [] ==> used + |Items(replies)| <= RAW_MAX
    decreases |bodies|
  {
    hide Goes, Item;
    if bodies != [] {
      GoesValid(bodies[0], world(i), used, replies[0]);
      AllGoValid(bodies[1..], replies[1..], i + 1, used + 3 + |replies[0].response|, world);
      assert replies == [replies[0]] + replies[1..];
      ItemsFront(replies[0], replies[1..]);
    }
  }

  /** What is left of a plan after `m` steps. */
  function Rest(plan: seq<byte>, m: nat): seq<byte> {
    if m == 0 || NextBody(plan).None? then plan else Rest(NextBody(plan).value.1, m - 1)
  }

  /** Why the step at the front of `plan` fails. */
  predicate Why(plan: seq<byte>, w: World, used: nat, code: int) {
    if NextBody(plan).None? || DecodeStep(NextBody(plan).value.0).None? then code == 0x1100
    else if !w.writes then code == 0x1200
    else if used + 3 > 256 then code == 0x1300
    else code == 0x1400 && Collect(w.polls, 256 - used - 3, DecodeStep(NextBody(plan).value.0).value.read).None?
  }

  /** A step that goes, then the others. */
  lemma RunHead(plan: seq<byte>, raw: seq<byte>, i: nat, n: nat, world: nat -> World, reply: Reply)
    requires i < n && NextBody(plan).Some? && Goes(NextBody(plan).value.0, world(i), |raw|, reply)
    ensures ValidReply(reply)
    ensures var next := NextBody(plan).value;
      var rest := RunSteps(next.1, raw + Item(reply), i + 1, n, world);
      RunSteps(plan, raw, i, n, world) == (rest.0, [TxOf(next.0)] + rest.1)
  {
    hide DecodeStep, Collect, Item, NextBody;
    GoesValid(NextBody(plan).value.0, world(i), |raw|, reply);
  }

  /** A step that does not go ends the batch. */
  lemma RunStops(plan: seq<byte>, raw: seq<byte>, i: nat, n: nat, world: nat -> World)
    requires i < n && (NextBody(plan).None? || Answer(NextBody(plan).value.0, world(i), |raw|).None?)
    ensures var r := RunSteps(plan, raw, i, n, world);
      r.0.Failure? && Why(plan, world(i), |raw|, r.0.error - i) && |r.1| <= 1
  {
    hide DecodeStep, Collect, Item, NextBody;
  }

  lemma SplitHead(plan: seq<byte>, m: nat)
    requires NextBody(plan).Some? && SplitPlan(NextBody(plan).value.1, m).Some?
    ensures SplitPlan(plan, m + 1) == Some([NextBody(plan).value.0] + SplitPlan(NextBody(plan).value.1, m).value)
  {
  }

  lemma AllGoHead(body: seq<byte>, bodies: seq<seq<byte>>, reply: Reply, replies: seq<Reply>,
                  i: nat, used: nat, world: nat -> World)
    requires Goes(body, world(i), used, reply)
    requires AllGo(bodies, replies, i + 1, used + 3 + |reply.response|, world)
    ensures AllGo([body] + bodies, [reply] + replies, i, used, world)
    ensures Transmitted([body] + bodies) == [TxOf(body)] + Transmitted(bodies)
  {
    hide Goes, TxOf;
    assert ([body] + bodies)[1..] == bodies && ([reply] + replies)[1..] == replies;
  }

  lemma ItemSize(r: Reply)
    requires ValidReply(r)
    ensures |Item(r)| == 3 + |r.response|
  {
  }

  lemma SplitTail(plan: seq<byte>, m: nat)
    requires SplitPlan(plan, m + 1).Some?
    ensures NextBody(plan).Some? && SplitPlan(NextBody(plan).value.1, m).Some?
    ensures SplitPlan(plan, m + 1) == Some([NextBody(plan).value.0] + SplitPlan(NextBody(plan).value.1, m).value)
  {
  }

  lemma RestHead(plan: seq<byte>, m: nat)
    requires NextBody(plan).Some?
    ensures Rest(plan, m + 1) == Rest(NextBody(plan).value.1, m)
  {
  }

  /** Each of several steps that go is itself a step that goes. */
  lemma AllGoTail(body: seq<byte>, bodies: seq<seq<byte>>, replies: seq<Reply>, i: nat, used: nat, world: nat -> World)
    requires AllGo([body] + bodies, replies, i, used, world)
    ensures replies != [] && Goes(body, world(i), used, replies[0])
    ensures AllGo(bodies, replies[1..], i + 1, used + 3 + |replies[0].response|, world)
    ensures Transmitted([body] + bodies) == [TxOf(body)] + Transmitted(bodies)
  {
    hide Goes, TxOf;
    assert ([body] + bodies)[1..] == bodies;
  }

  lemma RunNothing(plan: seq<byte>, raw: seq<byte>, n: nat, world: nat -> World)
    ensures RunSteps(plan, raw, n, n, world) == (Success(raw), [])
    ensures AllGo([], [], n, |raw|, world) && Transmitted([]) == [] && Items([]) == [] && ValidReplies([])
    ensures SplitPlan(plan, 0) == Some([]) && Rest(plan, 0) == plan && raw + [] == raw
  {
  }

  lemma NothingGoes(i: nat, used: nat, world: nat -> World)
    ensures AllGo([], [], i, used, world) && Transmitted([]) == [] && Items([]) == [] && ValidReplies([])
  {
  }

  /** The answer of the step at the front is what puts it first among the replies. */
  lemma FrontAnswer(plan: seq<byte>, raw: seq<byte>, i: nat, n: nat, world: nat -> World) returns (reply: Reply)
    requires i < n && NextBody(plan).Some? && Answer(NextBody(plan).value.0, world(i), |raw|).Some?
    ensures Goes(NextBody(plan).value.0, world(i), |raw|, reply) && ValidReply(reply)
    ensures |raw + Item(reply)| == |raw| + 3 + |reply.response|
  {
    reply := Answer(NextBody(plan).value.0, world(i), |raw|).value;
    GoesValid(NextBody(plan).value.0, world(i), |raw|, reply);
  }

  lemma Gather(raw: seq<byte>, reply: Reply, more: seq<Reply>)
    requires ValidReply(reply) && ValidReplies(more)
    ensures ValidReplies([reply] + more)
    ensures raw + Item(reply) + Items(more) == raw + Items([reply] + more)
    ensures |raw + Item(reply)| + |Items(more)| == |raw| + |Items([reply] + more)|
  {
    hide Item, Items;
    ItemsFront(reply, more);
    Associate(raw, Item(reply), Items(more));
  }

  /** A batch that succeeds: every step went, and the result is their replies in order. */
  lemma {:induction false} SuccessShows(plan: seq<byte>, raw: seq<byte>, i: nat, n: nat, world: nat -> World)
      returns (replies: seq<Reply>)
    requires i <= n && RunSteps(plan, raw, i, n, world).0.Success?
    ensures SplitPlan(plan, n - i).Some? && AllGo(SplitPlan(plan, n - i).value, replies, i, |raw|, world)
    ensures ValidReplies(replies) && RunSteps(plan, raw, i, n, world).0.raw == raw + Items(replies)
    decreases n - i
  {
    hide *;
    if i == n {
      replies := [];
      RunNothing(plan, raw, n, world);
    } else {
      if NextBody(plan).None? || Answer(NextBody(plan).value.0, world(i), |raw|).None? {
        RunStops(plan, raw, i, n, world);
      }
      var next := NextBody(plan).value;
      var reply := FrontAnswer(plan, raw, i, n, world);
      RunHead(plan, raw, i, n, world, reply);
      var more := SuccessShows(next.1, raw + Item(reply), i + 1, n, world);
      replies := [reply] + more;
      Gather(raw, reply, more);
      SplitHead(plan, n - i - 1);
      AllGoHead(next.0, SplitPlan(next.1, n - i - 1).value, reply, more, i, |raw|, world);
    }
  }

  /** A batch all of whose steps go succeeds with exactly those replies, and transmits every step in order. */
  lemma {:induction false} StepsSucceed(plan: seq<byte>, raw: seq<byte>, i: nat, n: nat,
                                         world: nat -> World, replies: seq<Reply>)
    requires i <= n && SplitPlan(plan, n - i).Some? && AllGo(SplitPlan(plan, n - i).value, replies, i, |raw|, world)
    ensures ValidReplies(replies) && RunSteps(plan, raw, i, n, world).0 == Success(raw + Items(replies))
    ensures RunSteps(plan, raw, i, n, world).1 == Transmitted(SplitPlan(plan, n - i).value)
    decreases n - i
  {
    hide *;
    if i == n {
      RunNothing(plan, raw, n, world);
      AllGoOnlyNothing(replies, i, |raw|, world);
    } else {
      SplitTail(plan, n - i - 1);
      var next := NextBody(plan).value;
      var bodies := SplitPlan(next.1, n - i - 1).value;
      AllGoTail(next.0, bodies, replies, i, |raw|, world);
      var reply, more := replies[0], replies[1..];
      RunHead(plan, raw, i, n, world, reply);
      ItemSize(reply);
      StepsSucceed(next.1, raw + Item(reply), i + 1, n, world, more);
      Gather(raw, reply, more);
      assert replies == [reply] + more;
    }
  }

  lemma AllGoOnlyNothing(replies: seq<Reply>, i: nat, used: nat, world: nat -> World)
    requires AllGo([], replies, i, used, world)
    ensures replies == []
  {
  }

  /** A batch that fails names the first step that did not go, and why; the steps before it were transmitted. */
  lemma {:induction false} FailureNamesStep(plan: seq<byte>, raw: seq<byte>, i: nat, n: nat, world: nat -> World)
      returns (k: nat, replies: seq<Reply>)
    requires i <= n && RunSteps(plan, raw, i, n, world).0.Failure?
    ensures i <= k < n && SplitPlan(plan, k - i).Some? && AllGo(SplitPlan(plan, k - i).value, replies, i, |raw|, world)
    ensures ValidReplies(replies)
    ensures Why(Rest(plan, k - i), world(k), |raw| + |Items(replies)|, RunSteps(plan, raw, i, n, world).0.error - k)
    ensures Transmitted(SplitPlan(plan, k - i).value) <= RunSteps(plan, raw, i, n, world).1
    ensures |RunSteps(plan, raw, i, n, world).1| <= k - i + 1
    decreases n - i
  {
    hide *;
    k, replies := i, [];
    RunNothing(plan, raw, n, world);
    NothingGoes(i, |raw|, world);
    if NextBody(plan).None? || Answer(NextBody(plan).value.0, world(i), |raw|).None? {
      RunStops(plan, raw, i, n, world);
    } else {
      var next := NextBody(plan).value;
      var reply := FrontAnswer(plan, raw, i, n, world);
      RunHead(plan, raw, i, n, world, reply);
      var more;
      k, more := FailureNamesStep(next.1, raw + Item(reply), i + 1, n, world);
      replies := [reply] + more;
      Gather(raw, reply, more);
      SplitHead(plan, k - i - 1);
      RestHead(plan, k - i - 1);
      AllGoHead(next.0, SplitPlan(next.1, k - i - 1).value, reply, more, i, |raw|, world);
    }
  }

  lemma {:induction false} RestNext(plan: seq<byte>, n: nat, k: nat)
    requires k < n && SplitPlan(plan, n).Some?
    ensures NextBody(Rest(plan, k)).Some? && |SplitPlan(plan, n).value| == n
    ensures NextBody(Rest(plan, k)).value.0 == SplitPlan(plan, n).value[k]
    decreases k
  {
    hide NextBody;
    SplitLength(plan, n);
    if k > 0 { RestNext(NextBody(plan).value.1, n - 1, k - 1); }
  }

  lemma {:induction false} SplitLength(plan: seq<byte>, n: nat)
    requires SplitPlan(plan, n).Some?
    ensures |SplitPlan(plan, n).value| == n
    decreases n
  {
    hide NextBody;
    if n != 0 { SplitLength(NextBody(plan).value.1, n - 1); }
  }

  /** A plan the handler accepted never fails for a bad step; what can fail is the bus or the room. */
  lemma NeverABadStep(bodies: seq<seq<byte>>, plan: seq<byte>, world: nat -> World)
    requires BuildPlan(bodies) == Some(plan)
    ensures |bodies| < 256
    ensures var r := RunSteps(plan, [|bodies|], 0, |bodies|, world).0; r.Failure? ==> r.error >= TX_FAILED
  {
    hide *;
    HandlerPlansDecode(bodies, plan);
    StepsFit(bodies);
    if RunSteps(plan, [|bodies|], 0, |bodies|, world).0.Failure? {
      FailsLater(bodies, plan, [|bodies|], world);
    }
  }

  lemma StepsFit(bodies: seq<seq<byte>>)
    requires |bodies| <= STEPS_MAX
    ensures |bodies| < 256
  {
  }

  lemma FailsLater(bodies: seq<seq<byte>>, plan: seq<byte>, raw: seq<byte>, world: nat -> World)
    requires SplitPlan(plan, |bodies|) == Some(bodies) && forall i :: 0 <= i < |bodies| ==> DecodeStep(bodies[i]).Some?
    requires RunSteps(plan, raw, 0, |bodies|, world).0.Failure?
    ensures RunSteps(plan, raw, 0, |bodies|, world).0.error >= TX_FAILED
  {
    hide *;
    var k, replies := FailureNamesStep(plan, raw, 0, |bodies|, world);
    RestNext(plan, |bodies|, k);
    GoodStepFails(Rest(plan, k), world(k), |raw| + |Items(replies)|,
                  RunSteps(plan, raw, 0, |bodies|, world).0.error - k);
  }

  lemma GoodStepFails(plan: seq<byte>, w: World, used: nat, code: int)
    requires Why(plan, w, used, code) && NextBody(plan).Some? && DecodeStep(NextBody(plan).value.0).Some?
    ensures code >= TX_FAILED
  {
  }

  // ---- One turn of the loop ------------------------------------------------------------------

  function ErrorOf(body: seq<byte>, w: World, used: nat): nat {
    if DecodeStep(body).None? then BAD_STEP
    else if !w.writes then TX_FAILED
    else if used + 3 > RAW_MAX then NO_ROOM
    else NO_ANSWER
  }

  /** What is transmitted of one step. */
  function Tried(body: seq<byte>, w: World): seq<seq<byte>> {
    if DecodeStep(body).Some? && w.writes then [TxOf(body)] else []
  }

  /** The run from the start comes to the run from here, after transmitting `done`. */
  predicate Continues(plan: seq<byte>, n: nat, world: nat -> World, rest: seq<byte>,
                      raw: seq<byte>, i: nat, done: seq<seq<byte>>) {
    i <= n && n < 256
    && RunSteps(plan, [n], 0, n, world)
        == (RunSteps(rest, raw, i, n, world).0, done + RunSteps(rest, raw, i, n, world).1)
  }

  /** The plan breaks off or is malformed here. */
  lemma TurnBad(plan: seq<byte>, n: nat, world: nat -> World, rest: seq<byte>, raw: seq<byte>,
                i: nat, done: seq<seq<byte>>)
    requires Continues(plan, n, world, rest, raw, i, done) && i < n && NextBody(rest).None?
    ensures RunSteps(plan, [n], 0, n, world) == (Failure(BAD_STEP + i), done)
  {
    assert RunSteps(rest, raw, i, n, world) == (Failure(BAD_STEP + i), []);
    assert done + [] == done;
  }

  /** The step fails here. */
  lemma TurnFails(plan: seq<byte>, n: nat, world: nat -> World, rest: seq<byte>, raw: seq<byte>,
                  i: nat, done: seq<seq<byte>>)
    requires Continues(plan, n, world, rest, raw, i, done) && i < n && NextBody(rest).Some?
    requires Answer(NextBody(rest).value.0, world(i), |raw|).None?
    ensures var body := NextBody(rest).value.0;
      RunSteps(plan, [n], 0, n, world) == (Failure(ErrorOf(body, world(i), |raw|) + i), done + Tried(body, world(i)))
  {
    hide DecodeStep, Collect, NextBody, Item;
    var body := NextBody(rest).value.0;
    assert RunSteps(rest, raw, i, n, world) == (Failure(ErrorOf(body, world(i), |raw|) + i), Tried(body, world(i)));
  }

  /** The step goes, and the run continues behind it. */
  lemma TurnGoes(plan: seq<byte>, n: nat, world: nat -> World, rest: seq<byte>, raw: seq<byte>,
                 i: nat, done: seq<seq<byte>>)
    requires Continues(plan, n, world, rest, raw, i, done) && i < n && NextBody(rest).Some?
    requires Answer(NextBody(rest).value.0, world(i), |raw|).Some?
    ensures var reply := Answer(NextBody(rest).value.0, world(i), |raw|).value;
      && ValidReply(reply)
      && Continues(plan, n, world, NextBody(rest).value.1, raw + Item(reply), i + 1,
                   done + Tried(NextBody(rest).value.0, world(i)))
  {
    var body := NextBody(rest).value.0;
    var reply := Answer(body, world(i), |raw|).value;
    assert Tried(body, world(i)) == [TxOf(body)];
    hide RunSteps, DecodeStep, Collect, NextBody, Item, Answer, ErrorOf, Tried, TxOf;
    GoesIs(body, world(i), |raw|);
    RunHead(rest, raw, i, n, world, reply);
    Associate(done, [TxOf(body)], RunSteps(NextBody(rest).value.1, raw + Item(reply), i + 1, n, world).1);
  }

  lemma GoesIs(body: seq<byte>, w: World, used: nat)
    requires Answer(body, w, used).Some?
    ensures Goes(body, w, used, Answer(body, w, used).value)
  {
  }

  lemma TurnsStart(plan: seq<byte>, n: nat, world: nat -> World)
    requires n < 256
    ensures Continues(plan, n, world, plan, [n], 0, [])
  {
    assert [] + RunSteps(plan, [n], 0, n, world).1 == RunSteps(plan, [n], 0, n, world).1;
  }

  lemma TurnsEnd(plan: seq<byte>, n: nat, world: nat -> World, rest: seq<byte>, raw: seq<byte>, done: seq<seq<byte>>)
    requires Continues(plan, n, world, rest, raw, n, done)
    ensures RunSteps(plan, [n], 0, n, world) == (Success(raw), done)
  {
    RunNothing(rest, raw, n, world);
    assert done + [] == done;
  }

  lemma NextSuffix(plan: seq<byte>, at: nat)
    requires at <= |plan| && NextBody(plan[at..]).Some?
    ensures var body := NextBody(plan[at..]).value.0;
      at + 2 + |body| <= |plan| && NextBody(plan[at..]).value.1 == plan[at + 2 + |body|..]
  {
  }

  function Patched(s: seq<byte>, at: nat, lo: byte, hi: byte): seq<byte>
    requires at + 1 < |s|
  {
    var t: seq<byte> := s[at := lo];
    t[at + 1 := hi]
  }

  lemma ItemPatched(prefix: seq<byte>, r: Reply)
    requires ValidReply(r)
    ensures var n := |r.response|;
      Patched(prefix + [r.kind, 0, 0] + r.response, |prefix| + 1, n % 256, n / 256) == prefix + Item(r)
  {
  }

  // ---- The executor --------------------------------------------------------------------------

  class Executor {
    var planActive: bool
    var waiting: bool
    var sent: seq<seq<byte>>

    constructor ()
      ensures !planActive && !waiting && sent == []
    {
      planActive, waiting, sent := false, false, [];
    }

    /** `memcpy` into the result. */
    method Put(raw: array<byte>, at: nat, data: seq<byte>)
      requires at + |data| <= raw.Length
      modifies raw
      ensures raw[..at + |data|] == old(raw[..at]) + data
    {
      var i := 0;
      while i < |data|
        invariant i <= |data| && raw[..at] == old(raw[..at]) && raw[at..at + i] == data[..i]
      {
        raw[at + i] := data[i];
        i := i + 1;
      }
      assert raw[..at + |data|] == raw[..at] + raw[at..at + |data|];
    }

    /** The body of the loop: transmit one step, collect its answer, write its item. */
    method RunStep(body: seq<byte>, i: nat, w: World, raw: array<byte>, used: nat) returns (more: nat, error: nat)
      requires raw.Length == RAW_MAX && used <= RAW_MAX
      modifies this`sent, raw
      ensures error == 0 <==> Answer(body, w, used).Some?
      ensures error == 0 ==> ValidReply(Answer(body, w, used).value) && more <= RAW_MAX
      ensures error == 0 ==> raw[..more] == old(raw[..used]) + Item(Answer(body, w, used).value)
      ensures error != 0 ==> error == ErrorOf(body, w, used) + i
      ensures sent == old(sent) + Tried(body, w)
    {
      hide DecodeStep, Collect;
      more := used;
      var step := DecodeStepLoop(body);
      if step.None? { return used, BAD_STEP + i; }
      if !w.writes { return used, TX_FAILED + i; }
      sent := sent + [step.value.tx];
      if used + 3 > RAW_MAX { return used, NO_ROOM + i; }
      DecodedKind(body);
      var response := Collect(w.polls, RAW_MAX - used - 3, step.value.read);
      if response.None? { return used, NO_ANSWER + i; }
      CollectSound(w.polls, RAW_MAX - used - 3, step.value.read);
      var n := |response.value|;
      Put(raw, used, [step.value.kind, 0, 0]);
      Put(raw, used + 3, response.value);
      more, error := used + 3 + n, 0;
      ghost var was := raw[..more];
      var lo: byte, hi: byte := n % 256, n / 256;
      raw[used + 1], raw[used + 2] := lo, hi;
      assert raw[..more] == Patched(was, used + 1, lo, hi);
      ItemPatched(old(raw[..used]), Reply(step.value.kind, response.value));
    }

    /** One turn of the loop: cut the next step off the plan and run it. */
    method TakeStep(bytes: seq<byte>, n: nat, world: nat -> World, cursor: nat, used: nat, i: nat, raw: array<byte>,
                    ghost done: seq<seq<byte>>)
      returns (next: nat, more: nat, error: nat, ghost tx: seq<seq<byte>>)
      requires raw.Length == RAW_MAX && used <= RAW_MAX && cursor <= |bytes| && i < n
      requires Continues(bytes, n, world, bytes[cursor..], raw[..used], i, done)
      modifies this`sent, raw
      ensures sent == old(sent) + tx
      ensures error != 0 ==> RunSteps(bytes, [n], 0, n, world) == (Failure(error), done + tx)
      ensures error == 0 ==> next <= |bytes| && more <= RAW_MAX
      ensures error == 0 ==> Continues(bytes, n, world, bytes[next..], raw[..more], i + 1, done + tx)
    {
      assert BAD_STEP > 0;
      hide *;
      ghost var rest, soFar := bytes[cursor..], raw[..used];
      assert |soFar| == used;
      next, more, tx := cursor, used, [];
      var cut := NextBody(bytes[cursor..]);
      if cut.None? {
        TurnBad(bytes, n, world, rest, soFar, i, done);
        error := BAD_STEP + i;
        assert sent + [] == sent && done + [] == done;
        return;
      }
      var body := cut.value.0;
      NextSuffix(bytes, cursor);
      tx := Tried(body, world(i));
      next := cursor + 2 + |body|;
      more, error := RunStep(body, i, world(i), raw, used);
      if error != 0 {
        TurnFails(bytes, n, world, rest, soFar, i, done);
        return;
      }
      TurnGoes(bytes, n, world, rest, soFar, i, done);
      ghost var now := raw[..more];
      assert bytes[next..] == cut.value.1 && now == soFar + Item(Answer(body, world(i), used).value);
    }

    /** The loop over the steps. */
    method RunPlan(bytes: seq<byte>, n: nat, world: nat -> World, raw: array<byte>) returns (used: nat, error: nat)
      requires raw.Length == RAW_MAX && n < 256
      modifies this`sent, raw
      ensures var r := RunSteps(bytes, [n], 0, n, world);
        && sent == old(sent) + r.1
        && (error == 0 ==> used <= RAW_MAX && r.0 == Success(raw[..used]))
        && (error != 0 ==> r.0 == Failure(error))
    {
      assert RAW_MAX == 256;
      hide *;
      raw[0] := n;
      var cursor: nat, i: nat := 0, 0;
      ghost var done: seq<seq<byte>> := [];
      used, error := 1, 0;
      assert raw[..1] == [n] && bytes[0..] == bytes && old(sent) + [] == old(sent);
      TurnsStart(bytes, n, world);
      while i < n
        invariant i <= n && cursor <= |bytes| && used <= RAW_MAX && error == 0
        invariant sent == old(sent) + done
        invariant Continues(bytes, n, world, bytes[cursor..], raw[..used], i, done)
      {
        ghost var tx;
        cursor, used, error, tx := TakeStep(bytes, n, world, cursor, used, i, raw, done);
        Associate(old(sent), done, tx);
        done := done + tx;
        if error != 0 { return; }
        i := i + 1;
      }
      TurnsEnd(bytes, n, world, bytes[cursor..], raw[..used], done);
    }

    /** `execute_uart_batch`; `plan` is what the handler lends, `rawLen` the length of the result. */
    method ExecuteBatch(plan: Option<(seq<byte>, nat)>, raw: array<byte>, world: nat -> World)
      returns (ok: bool, rawLen: nat, error: nat)
      requires raw.Length == RAW_MAX && !planActive && !waiting
      modifies this, raw
      ensures !planActive && !waiting
      ensures !Runnable(plan) ==> !ok && error == 0 && sent == old(sent) && raw[..] == old(raw[..])
      ensures Runnable(plan) ==>
        var r := RunSteps(plan.value.0, [plan.value.1], 0, plan.value.1, world);
        && sent == old(sent) + r.1
        && (ok <==> r.0.Success?)
        && (ok ==> rawLen <= RAW_MAX && raw[..rawLen] == r.0.raw && error == 0)
        && (!ok ==> rawLen == 0 && error == r.0.error)
    {
      hide RunSteps;
      ok, rawLen, error := false, 0, 0;
      if plan.None? { return; }
      var bytes, n := plan.value.0, plan.value.1;
      if n < 2 || n > STEPS_MAX || bytes == [] { return; }
      waiting, planActive := true, true;
      rawLen, error := RunPlan(bytes, n, world, raw);
      waiting, planActive := false, false;
      ok := error == 0;
      if !ok { rawLen := 0; }
    }
  }

  predicate Runnable(plan: Option<(seq<byte>, nat)>) {
    plan.Some? && 2 <= plan.value.1 <= 8 && plan.value.0 != []
  }
}
