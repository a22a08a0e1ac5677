/** What the control slots guarantee over every run of commands and completions. */
module SlotLaws {
  import opened Wire
  import opened SlotTable

  // ---- Counting slots ------------------------------------------------------------------------

  function Tally(p: Slot -> bool, slots: seq<Slot>): nat {
    if slots == [] then 0
    else Tally(p, slots[..|slots| - 1]) + if p(slots[|slots| - 1]) then 1 else 0
  }

  lemma {:induction false} TallyUpdate(p: Slot -> bool, slots: seq<Slot>, i: nat, s: Slot)
    requires i < |slots|
    ensures Tally(p, slots[i := s])
         == Tally(p, slots) - (if p(slots[i]) then 1 else 0) + (if p(s) then 1 else 0)
  {
    var n := |slots| - 1;
    if i < n {
      TallyUpdate(p, slots[..n], i, s);
      assert slots[i := s][..n] == slots[..n][i := s];
    } else {
      assert slots[i := s][..n] == slots[..n];
    }
  }

  lemma {:induction false} TallyPositive(p: Slot -> bool, slots: seq<Slot>)
    ensures Tally(p, slots) > 0 <==> exists i :: 0 <= i < |slots| && p(slots[i])
  {
    if slots != [] {
      TallyPositive(p, slots[..|slots| - 1]);
      if i :| 0 <= i < |slots| && p(slots[i]) {
        assert i < |slots| - 1 ==> slots[..|slots| - 1][i] == slots[i];
      }
      assert forall i | 0 <= i < |slots| - 1 :: slots[..|slots| - 1][i] == slots[i];
    }
  }

  /** All slots but the j-th satisfy exactly one of p and q, the j-th neither. */
  lemma {:induction false} TallySplit(p: Slot -> bool, q: Slot -> bool, slots: seq<Slot>, j: nat)
    requires forall i | 0 <= i < |slots| :: if i == j then !p(slots[i]) && !q(slots[i]) else p(slots[i]) != q(slots[i])
    ensures Tally(p, slots) + Tally(q, slots) == if j < |slots| then |slots| - 1 else |slots|
  {
    if slots != [] {
      TallySplit(p, q, slots[..|slots| - 1], j);
    }
  }

  function IsActive(): Slot -> bool { (s: Slot) => s.state == Queued || s.state == Completing }

  /** Taken before a final of this order: free slots and older finals. */
  function GoesBefore(order: nat): Slot -> bool {
    (s: Slot) => s.state == Free || (s.state == Final && s.order < order)
  }

  // ---- The invariant -------------------------------------------------------------------------

  /** No command id is held twice. */
  ghost predicate Distinct(slots: seq<Slot>) {
    forall i, j | 0 <= i < j < |slots| && slots[i].state != Free && slots[j].state != Free ::
      slots[i].cmd.id != slots[j].cmd.id
  }

  /** Completion orders come from the counter and are not shared; order 0 is a refused dispatch. */
  ghost predicate OrdersOk(t: Table) {
    && (forall i | 0 <= i < |t.slots| && t.slots[i].state == Final :: t.slots[i].order <= t.sequence)
    && (forall i, j | 0 <= i < j < |t.slots| && t.slots[i].state == Final && t.slots[j].state == Final ::
          t.slots[i].order == t.slots[j].order ==> t.slots[i].order == 0)
  }

  ghost predicate Inv(t: Table) { Distinct(t.slots) && OrdersOk(t) }

  /** Accepted answers that were not replays and are not completed yet are the active slots. */
  ghost predicate Balanced(t: Table) {
    (t.accepted - t.replayed - t.completed - Tally(IsActive(), t.slots)) % 0x1_0000_0000 == 0
  }

  function Empty(count: nat, blank: Cmd): Table {
    Table(seq(count, i => Slot(Free, blank, NO_RESULT, 0)), 0, 0, 0, 0, 0)
  }

  /** The one slot a step writes, if any. */
  function Written(t: Table, e: Event): (r: Option<nat>)
    ensures r.Some? ==> r.value < |t.slots|
  {
    match e
    case Malformed => None
    case Receive(_, _, _, _) =>
      if Timely(e) && Reserve(t.slots, e.cmd).Take? then Some(Reserve(t.slots, e.cmd).slot) else None
    case Claim(i, _, _, _) => if i < |t.slots| && t.slots[i].state == Queued then Some(i) else None
    case Publish(i) => if i < |t.slots| && t.slots[i].state == Completing then Some(i) else None
  }

  /** The ways a slot is written. */
  predicate Taken(t: Table, i: nat, s: Slot)
    requires i < |t.slots|
  {
    && t.slots[i].state in {Free, Final}
    && (s.state == Queued || s.state == Final) && s.order == 0
    && forall k | 0 <= k < |t.slots| && t.slots[k].state != Free :: t.slots[k].cmd.id != s.cmd.id
  }

  predicate Claimed(t: Table, i: nat, s: Slot)
    requires i < |t.slots|
  {
    t.slots[i].state == Queued && s.state == Completing && s.cmd == t.slots[i].cmd
  }

  predicate Published(t: Table, i: nat, s: Slot)
    requires i < |t.slots|
  {
    t.slots[i].state == Completing && s == t.slots[i].(state := Final, order := t.sequence + 1)
  }

  lemma StepShape(t: Table, e: Event)
    ensures var w, t' := Written(t, e), Step(t, e).0;
            && (w.None? ==> t'.slots == t.slots && t'.sequence == t.sequence)
            && (w.Some? ==>
                && |t'.slots| == |t.slots| && t'.slots == t.slots[w.value := t'.slots[w.value]]
                && var s := t'.slots[w.value];
                   && t'.sequence == t.sequence + (if e.Publish? then 1 else 0)
                   && (e.Receive? ==> Taken(t, w.value, s) && s.cmd == e.cmd
                                      && s.state == if e.admit then Queued else Final)
                   && (e.Claim? ==> Claimed(t, w.value, s))
                   && (e.Publish? ==> Published(t, w.value, s))
                   && !e.Malformed?)
  {
  }

  lemma StepKeepsInv(t: Table, e: Event)
    requires Inv(t)
    ensures Inv(Step(t, e).0) && |Step(t, e).0.slots| == |t.slots|
  {
    hide Step, Written;
    StepShape(t, e);
  }

  lemma CounterShape(t: Table, e: Event)
    ensures var w, t' := Written(t, e), Step(t, e).0;
            var change := if w.None? then 0 else if e.Receive? && e.admit then 1 else if e.Publish? then -1 else 0;
            (t'.accepted - t'.replayed - t'.completed - (t.accepted - t.replayed - t.completed)
             - change) % 0x1_0000_0000 == 0
  {
  }

  lemma StepKeepsBalance(t: Table, e: Event)
    requires Balanced(t)
    ensures Balanced(Step(t, e).0)
  {
    hide Step, Written;
    StepShape(t, e);
    CounterShape(t, e);
    var w, t' := Written(t, e), Step(t, e).0;
    if w.Some? {
      TallyUpdate(IsActive(), t.slots, w.value, t'.slots[w.value]);
    }
  }

  lemma {:induction false} RunKeepsAll(t: Table, es: seq<Event>)
    requires Inv(t) && Balanced(t)
    ensures Inv(Run(t, es).0) && Balanced(Run(t, es).0) && |Run(t, es).0.slots| == |t.slots|
    decreases |es|
  {
    if es != [] {
      StepKeepsInv(t, es[0]);
      StepKeepsBalance(t, es[0]);
      RunKeepsAll(Step(t, es[0]).0, es[1..]);
    }
  }

  /** Every reachable table is consistent, and its counters account for its active slots. */
  lemma ReachableTables(count: nat, blank: Cmd, es: seq<Event>)
    ensures var t := Run(Empty(count, blank), es).0; Inv(t) && Balanced(t) && |t.slots| == count
  {
    var t := Empty(count, blank);
    TallyPositive(IsActive(), t.slots);
    RunKeepsAll(t, es);
  }

  // ---- One command, from dispatch to replay --------------------------------------------------

  /** Slot i was given to a new command somewhere in these outputs. */
  ghost predicate Reassigned(outs: seq<Out>, i: nat) {
    exists k :: 0 <= k < |outs| && outs[k].Dispatch? && outs[k].slot == i
  }

  ghost predicate DispatchesId(outs: seq<Out>, id: seq<byte>) {
    exists k :: 0 <= k < |outs| && outs[k].Dispatch? && outs[k].cmd.id == id
  }

  /** Every final of this command among the outputs is a replay of this result. */
  ghost predicate OnlyReplays(outs: seq<Out>, cmd: Cmd, result: Result) {
    forall k | 0 <= k < |outs| && outs[k].FinalMsg? && outs[k].cmd.id == cmd.id ::
      outs[k] == FinalMsg(cmd, result, true)
  }

  /** First-time finals of a command id. */
  function FirstFinals(outs: seq<Out>, id: seq<byte>): nat {
    if outs == [] then 0
    else
      IsFirstFinal(outs[0], id) + FirstFinals(outs[1..], id)
  }

  lemma {:induction false} FirstFinalsConcat(a: seq<Out>, b: seq<Out>, id: seq<byte>)
    ensures FirstFinals(a + b, id) == FirstFinals(a, id) + FirstFinals(b, id)
  {
    if a == [] {
      assert a + b == b;
    } else {
      FirstFinalsConcat(a[1..], b, id);
      assert (a + b)[1..] == a[1..] + b;
    }
  }

  function IsFirstFinal(o: Out, id: seq<byte>): nat {
    if o.FinalMsg? && o.cmd.id == id && !o.replay then 1 else 0
  }

  lemma FirstFinalsShort(outs: seq<Out>, id: seq<byte>)
    requires |outs| <= 2
    ensures FirstFinals(outs, id)
         == (if |outs| > 0 then IsFirstFinal(outs[0], id) else 0) + if |outs| > 1 then IsFirstFinal(outs[1], id) else 0
  {
    if |outs| == 2 {
      assert outs[1..][1..] == [];
    }
  }

  function Done(s: Slot): int { if s.state == Final then 1 else 0 }

  lemma LifeStep(t: Table, e: Event, i: nat)
    requires Inv(t) && i < |t.slots| && t.slots[i].state != Free
    requires !Reassigned(Step(t, e).1, i)
    ensures var t', outs := Step(t, e).0, Step(t, e).1;
            var s, s' := t.slots[i], t'.slots[i];
            && |t'.slots| == |t.slots| && s'.state != Free && s'.cmd == s.cmd
            && !DispatchesId(outs, s.cmd.id)
            && FirstFinals(outs, s.cmd.id) == Done(s') - Done(s)
            && (s.state == Final ==> s' == s && OnlyReplays(outs, s.cmd, s.result))
  {
    var outs := Step(t, e).1;
    FirstFinalsShort(outs, t.slots[i].cmd.id);
    if e.Receive? && Timely(e) && Reserve(t.slots, e.cmd).Take? {
      assert outs[0] == Dispatch(Reserve(t.slots, e.cmd).slot, e.cmd);
    }
  }

  /** From the moment a command holds a slot until the slot is given to another one: it is never
      dispatched again, it publishes its first final exactly when it becomes final, and once it
      is final its result does not change and every final sent for it is that result, replayed. */
  lemma {:induction false} HeldUntilReassigned(t: Table, es: seq<Event>, i: nat)
    requires Inv(t) && i < |t.slots| && t.slots[i].state != Free
    requires !Reassigned(Run(t, es).1, i)
    ensures var t', outs := Run(t, es).0, Run(t, es).1;
            && |t'.slots| == |t.slots|
            && var s, s' := t.slots[i], t'.slots[i];
               && s'.state != Free && s'.cmd == s.cmd
               && !DispatchesId(outs, s.cmd.id)
               && FirstFinals(outs, s.cmd.id) == Done(s') - Done(s)
               && (s.state == Final ==> s' == s && OnlyReplays(outs, s.cmd, s.result))
    decreases |es|
  {
    hide Step, Inv, FirstFinals;
    if es != [] {
      var t1, o1 := Step(t, es[0]).0, Step(t, es[0]).1;
      var o2 := Run(t1, es[1..]).1;
      assert forall k | 0 <= k < |o1| :: (o1 + o2)[k] == o1[k];
      assert forall k | 0 <= k < |o2| :: (o1 + o2)[|o1| + k] == o2[k];
      StepKeepsInv(t, es[0]);
      LifeStep(t, es[0], i);
      HeldUntilReassigned(t1, es[1..], i);
      FirstFinalsConcat(o1, o2, t.slots[i].cmd.id);
    } else {
      NoFirstFinals(t.slots[i].cmd.id);
    }
  }

  lemma NoFirstFinals(id: seq<byte>)
    ensures FirstFinals([], id) == 0
  {
  }

  /** A timely command whose id is held is a repeat exactly when it asks for the same thing: the same digest,
      device, channel, bytes, read size, times and plan, whatever its attempt, boot and deadline.  A repeat is
      acknowledged, answered with the stored result once there is one, and starts nothing; anything else under
      that id is refused as a collision.  No slot is written. */
  lemma RepeatsAreAnswered(t: Table, e: Event, i: nat)
    requires Inv(t) && i < |t.slots| && t.slots[i].state != Free
    requires e.Receive? && e.boot == Some(e.cmd.boot) && 0 < e.now < e.cmd.deadline && e.cmd.id == t.slots[i].cmd.id
    ensures var c, d, s, outs := e.cmd, t.slots[i].cmd, t.slots[i], Step(t, e).1;
            var same := && c.digest == d.digest && c.edge == d.edge && c.channel == d.channel && c.tx == d.tx
                        && c.readSize == d.readSize && c.timeout == d.timeout && c.delay == d.delay && c.plan == d.plan;
            var stored := if s.state == Final then [FinalMsg(d, s.result, true)] else [];
            && (same <==> outs == [Ack(Some(c), true, 0)] + stored)
            && (!same <==> outs == [Ack(Some(c), false, 1003)])
            && Step(t, e).0.slots == t.slots && Step(t, e).0.sequence == t.sequence
  {
    var h := Holder(t.slots, e.cmd.id);
    assert h == Some(i);
    var outs := Step(t, e).1;
    assert outs[0] == Ack(Some(e.cmd), true, 0) || outs[0] == Ack(Some(e.cmd), false, 1003);
  }

  /** A command that does not parse, comes from another boot, or is late is refused and changes no slot. */
  lemma Refusals(t: Table, e: Event)
    ensures e.Malformed? ==> Step(t, e).1 == [Ack(None, false, 1002)] && Step(t, e).0.slots == t.slots
    ensures e.Receive? && e.boot != Some(e.cmd.boot) ==>
              Step(t, e).1 == [Ack(Some(e.cmd), false, 1001)] && Step(t, e).0.slots == t.slots
    ensures e.Receive? && e.boot == Some(e.cmd.boot) && (e.now == 0 || e.cmd.deadline <= e.now) ==>
              Step(t, e).1 == [Ack(Some(e.cmd), false, 1006)] && Step(t, e).0.slots == t.slots
  {
  }

  /** Slot j is the one to give away: the first free one, or with none free the oldest result, the first among
      equally old ones. */
  ghost predicate NextToGive(slots: seq<Slot>, j: nat) {
    && j < |slots|
    && if exists k :: 0 <= k < |slots| && slots[k].state == Free then
         slots[j].state == Free && forall k | 0 <= k < j :: slots[k].state != Free
       else
         slots[j].state == Final
         && forall k | 0 <= k < |slots| && slots[k].state == Final ::
              if k < j then slots[j].order < slots[k].order else slots[j].order <= slots[k].order
  }

  /** A timely command with a new id gets the next slot to give away and is dispatched, even when its queue then
      refuses it; without such a slot it is told to come back. */
  lemma NewCommands(t: Table, e: Event, j: nat)
    requires e.Receive? && e.boot == Some(e.cmd.boot) && 0 < e.now < e.cmd.deadline
    requires forall k | 0 <= k < |t.slots| :: t.slots[k].state == Free || t.slots[k].cmd.id != e.cmd.id
    ensures NextToGive(t.slots, j) && e.admit ==>
              && Step(t, e).1 == [Dispatch(j, e.cmd), Ack(Some(e.cmd), true, 0)]
              && Step(t, e).0.slots == t.slots[j := Slot(Queued, e.cmd, Result(false, 0, []), 0)]
    ensures NextToGive(t.slots, j) && !e.admit ==>
              && Step(t, e).1 == [Dispatch(j, e.cmd), Ack(Some(e.cmd), false, 1001)]
              && Step(t, e).0.slots == t.slots[j := Slot(Final, e.cmd, Result(false, 1001, []), 0)]
    ensures (forall k | 0 <= k < |t.slots| :: t.slots[k].state in {Queued, Completing}) ==>
              Step(t, e).1 == [Ack(Some(e.cmd), false, 1004)] && Step(t, e).0.slots == t.slots
  {
    assert Holder(t.slots, e.cmd.id).None?;
    var free, oldest := FirstFree(t.slots), OldestFinal(t.slots);
    if NextToGive(t.slots, j) {
      if free.Some? {
        assert t.slots[free.value].state == Free;
        assert free.value == j;
      } else {
        assert oldest.Some? && oldest.value == j;
      }
    }
  }

  /** A completed command publishes what it was given, unless that is larger than the 128 bytes a slot stores or
      is missing; its slot is then the newest result. */
  lemma FinalsFailClosed(t: Table, i: nat, success: bool, error: nat, response: Response)
    requires i < |t.slots| && t.slots[i].state == Queued
    ensures var r := match response
                     case Bytes(raw) => if |raw| <= 128 then Result(success, error, raw) else Result(false, 1005, [])
                     case Null(len) =>
                       if len == 0 then Result(success, error, [])
                       else Result(false, if len <= 128 then 1002 else 1005, []);
            var u := Run(t, [Claim(i, success, error, response), Publish(i)]);
            && u.1 == [FinalMsg(t.slots[i].cmd, r, false)]
            && u.0.slots == t.slots[i := Slot(Final, t.slots[i].cmd, r, t.sequence + 1)]
            && u.0.sequence == t.sequence + 1
  {
    RunTwo(t, Claim(i, success, error, response), Publish(i));
  }

  ghost predicate Says(outs: seq<Out>, ok: bool) { exists o :: o in outs && o.Ack? && o.ok == ok }

  ghost predicate Launches(outs: seq<Out>) { exists o :: o in outs && o.Dispatch? }

  ghost predicate Completes(outs: seq<Out>) { exists o :: o in outs && o.FinalMsg? && !o.replay }

  function Next32(n: nat): nat { (n + 1) % 0x1_0000_0000 }

  /** The counters count the answers: acceptances, refusals, acceptances that start nothing, and first finals. */
  lemma CountersCount(t: Table, e: Event)
    ensures var u, outs := Step(t, e).0, Step(t, e).1;
            && u.accepted == (if Says(outs, true) then Next32(t.accepted) else t.accepted)
            && u.rejected == (if Says(outs, false) then Next32(t.rejected) else t.rejected)
            && u.replayed == (if Says(outs, true) && !Launches(outs) then Next32(t.replayed) else t.replayed)
            && u.completed == (if Completes(outs) then Next32(t.completed) else t.completed)
  {
    var outs := Step(t, e).1;
    if e.Malformed? || e.Receive? {
      assert outs[0] in outs && (|outs| > 1 ==> outs[1] in outs);
      assert outs[0].Ack? || outs[1].Ack?;
    }
    assert forall k | 0 <= k < |outs| :: outs[k] in outs;
  }

  /** A new command is refused for lack of room exactly when every slot is still working. */
  lemma BusyIffAllActive(t: Table, cmd: Cmd)
    requires Holder(t.slots, cmd.id).None?
    ensures Reserve(t.slots, cmd) == Busy <==> forall i | 0 <= i < |t.slots| :: IsActive()(t.slots[i])
  {
  }

  /** A plan is lent from the moment its command holds a slot until the command's first final is published,
      and never after: always the command's own plan, whatever else is received or completed. */
  lemma BorrowsOwnPlan(t: Table, es: seq<Event>, i: nat)
    requires Inv(t) && i < |t.slots| && t.slots[i].state != Free
    requires !Reassigned(Run(t, es).1, i)
    ensures var u, outs, s := Run(t, es).0, Run(t, es).1, t.slots[i];
            && |u.slots| == |t.slots| && u.slots[i].cmd == s.cmd
            && (u.slots[i].state == Final <==> Done(s) + FirstFinals(outs, s.cmd.id) > 0)
            && Borrow(u, i) == if Done(s) + FirstFinals(outs, s.cmd.id) == 0 && s.cmd.plan != []
                               then Some((s.cmd.plan, s.cmd.planSteps)) else None
  {
    hide Run, Inv, FirstFinals, Reassigned, DispatchesId, OnlyReplays;
    HeldUntilReassigned(t, es, i);
  }

  // ---- The replay window ---------------------------------------------------------------------

  /** A new command gets a slot. */
  predicate Admits(t: Table, e: Event) {
    e.Receive? && Timely(e) && Reserve(t.slots, e.cmd).Take?
  }

  /** How many slots would be given away before the result in slot i. */
  function Ahead(t: Table, i: nat): nat
    requires i < |t.slots|
  {
    Tally(GoesBefore(t.slots[i].order), t.slots)
  }

  /** The victim is slot i exactly when nothing goes before it. */
  lemma VictimIsOldest(t: Table, e: Event, i: nat)
    requires Inv(t) && i < |t.slots| && t.slots[i].state == Final && t.slots[i].order > 0
    requires Admits(t, e)
    ensures var j := Reserve(t.slots, e.cmd).slot;
            && (j == i <==> Ahead(t, i) == 0)
            && (j != i ==> GoesBefore(t.slots[i].order)(t.slots[j]))
  {
    TallyPositive(GoesBefore(t.slots[i].order), t.slots);
    var j := Reserve(t.slots, e.cmd).slot;
    if Ahead(t, i) == 0 {
      assert !GoesBefore(t.slots[i].order)(t.slots[j]);
    } else {
      var k :| 0 <= k < |t.slots| && GoesBefore(t.slots[i].order)(t.slots[k]);
    }
  }

  lemma WindowStep(t: Table, e: Event, i: nat)
    requires Inv(t) && i < |t.slots| && t.slots[i].state == Final && t.slots[i].order > 0
    ensures var t', outs := Step(t, e).0, Step(t, e).1;
            && |t'.slots| == |t.slots|
            && (Reassigned(outs, i) <==> Admits(t, e) && Ahead(t, i) == 0)
            && (!Reassigned(outs, i) ==>
                t'.slots[i] == t.slots[i]
                && Ahead(t', i) == Ahead(t, i) - if Admits(t, e) && e.admit then 1 else 0)
  {
    var t', outs := Step(t, e).0, Step(t, e).1;
    var w := Written(t, e);
    if Admits(t, e) {
      VictimIsOldest(t, e, i);
      assert outs[0] == Dispatch(w.value, e.cmd);
    }
    StepShape(t, e);
    if w.Some? && w.value != i {
      TallyUpdate(GoesBefore(t.slots[i].order), t.slots, w.value, t'.slots[w.value]);
    }
  }

  /** The countdown: each admitted command uses up one slot ahead; a command that gets a slot but
      is then refused by its queue uses up none, because its own result goes first. */
  predicate Survives(t: Table, es: seq<Event>, ahead: int)
    decreases |es|
  {
    es == [] ||
    var t1 := Step(t, es[0]).0;
    if Admits(t, es[0]) then ahead > 0 && Survives(t1, es[1..], ahead - if es[0].admit then 1 else 0)
    else Survives(t1, es[1..], ahead)
  }

  /** A stored result stays replayable through a run exactly as long as the countdown from the
      slots ahead of it has not run out when another command needs a slot. */
  lemma {:induction false} ReplayWindow(t: Table, es: seq<Event>, i: nat)
    requires Inv(t) && i < |t.slots| && t.slots[i].state == Final && t.slots[i].order > 0
    ensures !Reassigned(Run(t, es).1, i) <==> Survives(t, es, Ahead(t, i))
    decreases |es|
  {
    hide Step, Inv, Ahead, Admits;
    if es != [] {
      var t1, o1 := Step(t, es[0]).0, Step(t, es[0]).1;
      var o2 := Run(t1, es[1..]).1;
      assert forall k | 0 <= k < |o1| :: (o1 + o2)[k] == o1[k];
      assert forall k | 0 <= k < |o2| :: (o1 + o2)[|o1| + k] == o2[k];
      assert forall k | |o1| <= k < |o1 + o2| :: (o1 + o2)[k] == o2[k - |o1|];
      StepKeepsInv(t, es[0]);
      WindowStep(t, es[0], i);
      if !Reassigned(o1, i) {
        ReplayWindow(t1, es[1..], i);
      }
    }
  }

  /** How many commands got a slot. */
  function Admitted(t: Table, es: seq<Event>): nat
    decreases |es|
  {
    if es == [] then 0
    else (if Admits(t, es[0]) then 1 else 0) + Admitted(Step(t, es[0]).0, es[1..])
  }

  /** When no queue refuses, the window is a number: the result survives exactly that many
      further admissions. */
  lemma {:induction false} WindowIsExact(t: Table, es: seq<Event>, ahead: nat)
    requires forall k | 0 <= k < |es| && es[k].Receive? :: es[k].admit
    ensures Survives(t, es, ahead) <==> Admitted(t, es) <= ahead
    decreases |es|
  {
    if es != [] {
      var t1 := Step(t, es[0]).0;
      if !Admits(t, es[0]) {
        WindowIsExact(t1, es[1..], ahead);
      } else if ahead > 0 {
        WindowIsExact(t1, es[1..], ahead - 1);
      }
    }
  }

  /** A result published while q other commands are active is ahead of nothing newer: the window
      is the table size less one less q. */
  lemma FreshWindow(t: Table, i: nat)
    requires Inv(t) && i < |t.slots| && t.slots[i].state == Completing
    ensures var t' := Step(t, Publish(i)).0;
            t'.slots[i].state == Final && t'.slots[i].order > 0
            && Ahead(t', i) == |t.slots| - 1 - Tally(IsActive(), t'.slots)
  {
    var t' := Step(t, Publish(i)).0;
    TallySplit(GoesBefore(t'.slots[i].order), IsActive(), t'.slots, i);
  }

  /** A result published while q commands are active survives a run in which no queue refuses, and is unchanged
      at its end, exactly when at most slot count less one less q commands are admitted. */
  lemma PublishedWindow(t: Table, i: nat, es: seq<Event>)
    requires Inv(t) && i < |t.slots| && t.slots[i].state == Completing
    requires forall k | 0 <= k < |es| && es[k].Receive? :: es[k].admit
    ensures var u := Step(t, Publish(i)).0;
            var window := |t.slots| - 1 - Tally(IsActive(), u.slots);
            && |u.slots| == |t.slots|
            && (!Reassigned(Run(u, es).1, i) <==> Admitted(u, es) <= window)
            && (Admitted(u, es) <= window ==>
                  |Run(u, es).0.slots| == |t.slots| && Run(u, es).0.slots[i] == u.slots[i])
  {
    hide Run, Inv, FirstFinals, Reassigned, Survives, Admitted, Tally, Admits, DispatchesId, OnlyReplays;
    StepKeepsInv(t, Publish(i));
    FreshWindow(t, i);
    var u := Step(t, Publish(i)).0;
    ReplayWindow(u, es, i);
    WindowIsExact(u, es, Ahead(u, i));
    if !Reassigned(Run(u, es).1, i) { HeldUntilReassigned(u, es, i); }
  }
}
