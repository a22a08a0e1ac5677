/**
 The plan of a ChannelCmdV2 batch: each step is checked and appended by the handler
 (esp32-collector/components/msg_handler/handler_channel_cmd_v2.c) and taken apart and decoded again by the
 bus worker (esp32-collector/components/bus_worker/bus_worker.c).
 */
module BatchPlan {
  import opened Wire

  const TX_MAX := 128
  const READ_MAX := 256
  const TIME_MAX := 30000
  const UINT32_MAX := 0xFFFF_FFFF

  datatype Step = Step(kind: nat, tx: seq<byte>, read: nat, timeout: nat, delay: nat)

  predicate ValidStep(s: Step) {
    s.kind <= 3 && 0 < |s.tx| <= TX_MAX && s.read <= READ_MAX && 0 < s.timeout <= TIME_MAX && s.delay <= TIME_MAX
  }

  function StepFields(s: Step): seq<Field> {
    [Num(1, s.kind), Blob(2, s.tx), Num(3, s.read), Num(4, s.timeout), Num(5, s.delay)]
  }

  /** One field of a step: known, not seen before, of the right type, and within 32 bits. */
  predicate Admits(seen: map<nat, Field>, f: Field) {
    && f.number <= 5 && f.number !in seen
    && (if f.number == 2 then f.Blob? && 0 < |f.data| <= TX_MAX else f.Num? && f.n <= UINT32_MAX)
  }

  function Fold(fs: seq<Field>): Option<map<nat, Field>> {
    if fs == [] then Some(map[])
    else
      var f := fs[|fs| - 1];
      var seen :- Fold(fs[..|fs| - 1]);
      if Admits(seen, f) then Some(seen[f.number := f]) else None
  }

  /** The checks after the last field. */
  function Finish(seen: map<nat, Field>): Option<Step> {
    if !(forall k :: 1 <= k <= 5 ==> k in seen) || !seen[1].Num? || !seen[2].Blob?
       || !seen[3].Num? || !seen[4].Num? || !seen[5].Num?
    then None
    else
      var s := Step(seen[1].n, seen[2].data, seen[3].n, seen[4].n, seen[5].n);
      if ValidStep(s) then Some(s) else None
  }

  /** `validate_batch_step` and `decode_batch_step` accept the same bytes. */
  function DecodeStep(b: seq<byte>): Option<Step> {
    var fs :- DecodeStrict(b);
    var seen :- Fold(fs);
    Finish(seen)
  }

  // ---- The loop ------------------------------------------------------------------------------

  lemma FoldSnoc(fs: seq<Field>, f: Field)
    ensures Fold(fs + [f]) ==
      match Fold(fs) case None => None case Some(seen) => if Admits(seen, f) then Some(seen[f.number := f]) else None
  {
    assert (fs + [f])[..|fs|] == fs;
  }

  lemma {:induction false} FoldStuck(fs: seq<Field>, gs: seq<Field>)
    requires Fold(fs) == None
    ensures Fold(fs + gs) == None
    decreases |gs|
  {
    if gs == [] {
      assert fs + gs == fs;
    } else {
      FoldStuck(fs, gs[..|gs| - 1]);
      assert (fs + gs)[..|fs + gs| - 1] == fs + gs[..|gs| - 1];
    }
  }

  /** The decoding loop shared in shape by both functions; it stops at the first rule broken. */
  method DecodeStepLoop(b: seq<byte>) returns (r: Option<Step>)
    ensures r == DecodeStep(b)
  {
    hide DecodeStrict, NextStrict, Admits, Finish;
    var p := 0;
    var seen: map<nat, Field> := map[];
    ghost var done: seq<Field> := [];
    assert b[0..] == b;
    AppendNothing(DecodeStrict(b));
    while p < |b|
      invariant p <= |b|
      invariant DecodeStrict(b) == Append(done, DecodeStrict(b[p..]))
      invariant Fold(done) == Some(seen)
    {
      StrictTail(done, b[p..]);
      var next := NextStrictAt(b, p);
      if next.None? { return None; }
      var f, n := next.value.0, next.value.1;
      FoldSnoc(done, f);
      assert b[p..][n..] == b[p + n..];
      done, p := done + [f], p + n;
      if !Admits(seen, f) {
        if DecodeStrict(b[p..]).Some? {
          FoldStuck(done, DecodeStrict(b[p..]).value);
        }
        return None;
      }
      seen := seen[f.number := f];
    }
    StrictTail(done, b[p..]);
    r := Finish(seen);
  }

  // ---- Exactly which bytes are a step --------------------------------------------------------

  /** The map holds exactly the fields seen, each once. */
  ghost predicate Holds(fs: seq<Field>, seen: map<nat, Field>) {
    && (forall k :: k in seen ==> seen[k].number == k && seen[k] in fs && k <= 5)
    && (forall f :: f in fs ==> f.number in seen && seen[f.number] == f)
    && (forall f :: multiset(fs)[f] <= 1)
  }

  lemma {:induction false} FoldHolds(fs: seq<Field>)
    requires Fold(fs).Some?
    ensures Holds(fs, Fold(fs).value)
    decreases |fs|
  {
    if fs != [] {
      var n := |fs| - 1;
      FoldHolds(fs[..n]);
      var seen := Fold(fs[..n]).value;
      assert fs == fs[..n] + [fs[n]];
      assert fs[n] !in fs[..n];
      forall f ensures multiset(fs)[f] <= 1 {
        assert multiset(fs) == multiset(fs[..n]) + multiset{fs[n]};
      }
    }
  }

  /** Fields of a valid step, in any order, are all admitted. */
  lemma {:induction false} FoldAdmits(fs: seq<Field>, s: Step)
    requires ValidStep(s) && forall f :: f in fs ==> f in StepFields(s)
    requires forall f :: multiset(fs)[f] <= 1
    ensures Fold(fs).Some?
    decreases |fs|
  {
    hide StepFields, Admits, ValidStep;
    if fs != [] {
      var n := |fs| - 1;
      assert fs == fs[..n] + [fs[n]];
      assert multiset(fs) == multiset(fs[..n]) + multiset{fs[n]};
      forall f ensures multiset(fs[..n])[f] <= 1 { assert multiset(fs)[f] <= 1; }
      FoldAdmits(fs[..n], s);
      FoldHolds(fs[..n]);
      var seen := Fold(fs[..n]).value;
      assert fs[n] in StepFields(s) && multiset(fs)[fs[n]] <= 1 && fs[n] !in fs[..n];
      SameNumber(s);
      FieldAdmitted(s, fs[n], seen);
    }
  }

  lemma FieldAdmitted(s: Step, f: Field, seen: map<nat, Field>)
    requires ValidStep(s) && f in StepFields(s) && f.number !in seen
    ensures Admits(seen, f)
  {
  }

  lemma SameNumber(s: Step)
    ensures forall f, g :: f in StepFields(s) && g in StepFields(s) && f.number == g.number ==> f == g
  {
  }

  lemma FieldsOnce(s: Step)
    ensures forall f :: multiset(StepFields(s))[f] <= 1
    ensures forall f :: f in StepFields(s) ==> f.number <= 5
  {
  }

  lemma FieldsStrict(s: Step)
    requires ValidStep(s)
    ensures forall f :: f in StepFields(s) ==> StrictField(f)
  {
  }

  /** A byte string is a step exactly when it encodes five fields, each once and in any order: a kind of 0 to 3, 1 to
      128 bytes to send, up to 256 to read, and a timeout and a delay of up to 30000 ms, the timeout not 0. */
  lemma StepExactly(b: seq<byte>, s: Step)
    ensures DecodeStep(b) == Some(s) <==>
      && s.kind <= 3 && 1 <= |s.tx| <= 128 && s.read <= 256 && 1 <= s.timeout <= 30000 && s.delay <= 30000
      && exists fs :: b == Encode(fs) && multiset(fs)
           == multiset{Num(1, s.kind), Blob(2, s.tx), Num(3, s.read), Num(4, s.timeout), Num(5, s.delay)}
  {
    assert multiset(StepFields(s))
        == multiset{Num(1, s.kind), Blob(2, s.tx), Num(3, s.read), Num(4, s.timeout), Num(5, s.delay)};
    if DecodeStep(b) == Some(s) {
      DecodedFields(b, s);
    }
    if ValidStep(s) && exists fs :: b == Encode(fs) && multiset(fs) == multiset(StepFields(s)) {
      var fs :| b == Encode(fs) && multiset(fs) == multiset(StepFields(s));
      FieldsDecode(fs, s);
    }
  }

  lemma FinishFields(seen: map<nat, Field>, s: Step)
    requires Finish(seen) == Some(s) && forall k :: k in seen ==> seen[k].number == k
    ensures ValidStep(s) && |StepFields(s)| == 5
    ensures forall i :: 0 <= i < 5 ==> i + 1 in seen && seen[i + 1] == StepFields(s)[i]
  {
    assert 1 in seen && 2 in seen && 3 in seen && 4 in seen && 5 in seen;
  }

  lemma DecodedFields(b: seq<byte>, s: Step)
    requires DecodeStep(b) == Some(s)
    ensures ValidStep(s) && exists fs :: b == Encode(fs) && multiset(fs) == multiset(StepFields(s))
  {
    var fs := DecodeStrict(b).value;
    StrictExact(b, fs);
    hide DecodeStrict, Fold, Encode, Finish, ValidStep, Holds, StepFields, StrictField;
    FoldHolds(fs);
    HoldsKeys(fs, Fold(fs).value);
    FinishFields(Fold(fs).value, s);
    SameFields(fs, Fold(fs).value, s);
  }

  lemma HoldsKeys(fs: seq<Field>, seen: map<nat, Field>)
    requires Holds(fs, seen)
    ensures forall k :: k in seen ==> seen[k].number == k
  {
  }

  lemma SameFields(fs: seq<Field>, seen: map<nat, Field>, s: Step)
    requires Holds(fs, seen) && forall f :: f in fs ==> StrictField(f)
    requires |StepFields(s)| == 5 && forall i :: 0 <= i < 5 ==> i + 1 in seen && seen[i + 1] == StepFields(s)[i]
    ensures multiset(fs) == multiset(StepFields(s))
  {
    FieldsOnce(s);
    var gs := StepFields(s);
    hide StepFields;
    forall f | f in fs ensures f in gs {
      assert StrictField(f) && f == seen[f.number];
      assert f == gs[f.number - 1];
    }
    forall f | f in gs ensures f in fs {
      var i :| 0 <= i < |gs| && gs[i] == f;
      assert seen[i + 1] in fs;
    }
    SameOnce(fs, gs);
  }

  lemma SameOnce<T>(a: seq<T>, b: seq<T>)
    requires (forall x :: x in a <==> x in b)
    requires (forall x :: multiset(a)[x] <= 1) && (forall x :: multiset(b)[x] <= 1)
    ensures multiset(a) == multiset(b)
  {
    forall x ensures multiset(a)[x] == multiset(b)[x] {
      assert (multiset(a)[x] > 0 <==> x in a) && (multiset(b)[x] > 0 <==> x in b);
    }
  }

  lemma FieldsDecode(fs: seq<Field>, s: Step)
    requires ValidStep(s) && multiset(fs) == multiset(StepFields(s))
    ensures DecodeStep(Encode(fs)) == Some(s)
  {
    hide DecodeStrict, Fold, Encode, StrictField;
    var gs := StepFields(s);
    FieldsOnce(s);
    FieldsStrict(s);
    forall f ensures f in fs <==> f in gs { assert multiset(fs)[f] == multiset(gs)[f]; }
    StrictExact(Encode(fs), fs);
    FoldAdmits(fs, s);
    FoldHolds(fs);
    var seen := Fold(fs).value;
    assert gs[0] in fs && gs[1] in fs && gs[2] in fs && gs[3] in fs && gs[4] in fs;
    assert seen[1] == gs[0] && seen[2] == gs[1] && seen[3] == gs[2] && seen[4] == gs[3] && seen[5] == gs[4];
  }

  // ---- The plan ------------------------------------------------------------------------------

  const PLAN_MAX := 512
  const STEPS_MAX := 8
  const BODY_MAX := 160

  function Prefixed(body: seq<byte>): seq<byte>
    requires |body| < 65536
  {
    [|body| % 256, |body| / 256] + body
  }

  /** The handler appends one step of the command frame, or rejects the command. */
  function AppendStep(plan: seq<byte>, steps: nat, body: seq<byte>): Option<seq<byte>> {
    if steps >= STEPS_MAX || |body| > BODY_MAX || |plan| + 2 + |body| > PLAN_MAX || DecodeStep(body).None? then None
    else Some(plan + Prefixed(body))
  }

  function BuildPlan(bodies: seq<seq<byte>>): Option<seq<byte>> {
    if bodies == [] then Some([])
    else
      var n := |bodies| - 1;
      var plan :- BuildPlan(bodies[..n]);
      AppendStep(plan, n, bodies[n])
  }

  /** The worker cuts the next step off the front. */
  function NextBody(plan: seq<byte>): (r: Option<(seq<byte>, seq<byte>)>)
    ensures r.Some? ==> |r.value.1| < |plan|
  {
    if |plan| < 2 then None
    else
      var lo: int, hi: int := plan[0], plan[1];
      var len := lo + 256 * hi;
      if len == 0 || 2 + len > |plan| then None else Some((plan[2..2 + len], plan[2 + len..]))
  }

  function SplitPlan(plan: seq<byte>, n: nat): Option<seq<seq<byte>>> {
    if n == 0 then Some([])
    else
      var next :- NextBody(plan);
      var rest :- SplitPlan(next.1, n - 1);
      Some([next.0] + rest)
  }

  lemma NextOfPrefixed(body: seq<byte>, rest: seq<byte>)
    requires 0 < |body| < 65536
    ensures NextBody(Prefixed(body) + rest) == Some((body, rest))
  {
    var plan := Prefixed(body) + rest;
    assert plan[0] == |body| % 256 && plan[1] == |body| / 256;
    assert plan[2..2 + |body|] == body && plan[2 + |body|..] == rest;
  }

  predicate Bodies(bodies: seq<seq<byte>>) { forall i :: 0 <= i < |bodies| ==> 0 < |bodies[i]| < 65536 }

  /** The steps one after another, each behind its length. */
  function PlanOf(bodies: seq<seq<byte>>): seq<byte>
    requires Bodies(bodies)
  {
    if bodies == [] then [] else Prefixed(bodies[0]) + PlanOf(bodies[1..])
  }

  lemma {:induction false} SplitOfPlan(plan: seq<byte>, bodies: seq<seq<byte>>)
    requires Bodies(bodies) && PlanOf(bodies) <= plan
    ensures SplitPlan(plan, |bodies|) == Some(bodies)
    decreases |bodies|
  {
    hide NextBody, Prefixed;
    if bodies != [] {
      var tail := plan[|Prefixed(bodies[0])|..];
      assert plan == Prefixed(bodies[0]) + tail && PlanOf(bodies[1..]) <= tail;
      NextOfPrefixed(bodies[0], tail);
      SplitOfPlan(tail, bodies[1..]);
      assert bodies == [bodies[0]] + bodies[1..];
    }
  }

  lemma {:induction false} PlanOfSplit(plan: seq<byte>, n: nat)
    requires SplitPlan(plan, n).Some?
    ensures var bodies := SplitPlan(plan, n).value; |bodies| == n && Bodies(bodies) && PlanOf(bodies) <= plan
    decreases n
  {
    hide NextBody, Prefixed;
    if n != 0 {
      var next := NextBody(plan).value;
      NextIsPrefixed(plan);
      PlanOfSplit(next.1, n - 1);
      var rest := SplitPlan(next.1, n - 1).value;
      assert ([next.0] + rest)[1..] == rest;
    }
  }

  /** Cutting a plan into steps gives exactly the steps it was made of, whatever follows. */
  lemma SplitExactly(plan: seq<byte>, bodies: seq<seq<byte>>)
    ensures SplitPlan(plan, |bodies|) == Some(bodies) <==> Bodies(bodies) && PlanOf(bodies) <= plan
  {
    if SplitPlan(plan, |bodies|) == Some(bodies) {
      PlanOfSplit(plan, |bodies|);
    }
    if Bodies(bodies) && PlanOf(bodies) <= plan {
      SplitOfPlan(plan, bodies);
    }
  }

  lemma NextIsPrefixed(plan: seq<byte>)
    requires NextBody(plan).Some?
    ensures 0 < |NextBody(plan).value.0| < 65536
    ensures plan == Prefixed(NextBody(plan).value.0) + NextBody(plan).value.1
  {
    var lo: int, hi: int := plan[0], plan[1];
    var len := lo + 256 * hi;
    assert len % 256 == lo && len / 256 == hi;
    assert plan == [plan[0], plan[1]] + plan[2..2 + len] + plan[2 + len..];
  }

  lemma {:induction false} PlanOfMore(bodies: seq<seq<byte>>, b: seq<byte>)
    requires Bodies(bodies) && 0 < |b| < 65536
    ensures PlanOf(bodies + [b]) == PlanOf(bodies) + Prefixed(b)
    decreases |bodies|
  {
    if bodies == [] {
      assert [b][1..] == [] && Prefixed(b) + [] == Prefixed(b);
    } else {
      assert (bodies + [b])[1..] == bodies[1..] + [b];
      PlanOfMore(bodies[1..], b);
    }
  }

  lemma EmptyIsNoStep()
    ensures DecodeStep([]).None?
  {
    assert DecodeStrict([]) == Some([]);
    assert Fold([]) == Some(map[]);
  }

  /** What the handler accepts the worker cuts into the same steps and decodes: it never finds a bad step. */
  lemma {:induction false} HandlerPlansDecode(bodies: seq<seq<byte>>, plan: seq<byte>)
    requires BuildPlan(bodies) == Some(plan)
    ensures |bodies| <= STEPS_MAX && |plan| <= PLAN_MAX && Bodies(bodies) && plan == PlanOf(bodies)
    ensures SplitPlan(plan, |bodies|) == Some(bodies)
    ensures forall i :: 0 <= i < |bodies| ==> DecodeStep(bodies[i]).Some?
    decreases |bodies|
  {
    hide DecodeStep, SplitPlan;
    if bodies != [] {
      var n := |bodies| - 1;
      HandlerPlansDecode(bodies[..n], BuildPlan(bodies[..n]).value);
      EmptyIsNoStep();
      PlanOfMore(bodies[..n], bodies[n]);
      assert bodies == bodies[..n] + [bodies[n]];
    }
    SplitExactly(plan, bodies);
  }

  /** The bytes a plan takes: two for the length of each step, and the step. */
  function PlanSize(bodies: seq<seq<byte>>): nat {
    if bodies == [] then 0 else PlanSize(bodies[..|bodies| - 1]) + 2 + |bodies[|bodies| - 1]|
  }

  /** The handler accepts at most eight steps, each of at most 160 bytes and valid, with at most 512 bytes in all. */
  lemma {:induction false} PlanAccepted(bodies: seq<seq<byte>>)
    ensures BuildPlan(bodies).Some? <==>
      && |bodies| <= 8 && PlanSize(bodies) <= 512
      && forall i :: 0 <= i < |bodies| ==> |bodies[i]| <= 160 && DecodeStep(bodies[i]).Some?
    ensures BuildPlan(bodies).Some? ==> |BuildPlan(bodies).value| == PlanSize(bodies)
    decreases |bodies|
  {
    hide DecodeStep;
    if bodies != [] {
      var n := |bodies| - 1;
      PlanAccepted(bodies[..n]);
    }
  }

  /** A plan is its steps one after another, each behind its length, low byte first. */
  lemma PlanLayout(bodies: seq<seq<byte>>)
    requires Bodies(bodies) && bodies != []
    ensures var plan, n := PlanOf(bodies), |bodies[0]|;
      && |plan| >= 2 + n && plan[0] as int + 256 * plan[1] as int == n && plan[2..2 + n] == bodies[0]
      && plan[2 + n..] == PlanOf(bodies[1..])
  {
  }
}
