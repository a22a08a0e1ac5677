/**
 The ChannelCmdV2 control slots: a bounded table that dispatches each command once, replays its
 stored result, and gives a slot away oldest result first
 (esp32-collector/components/msg_handler/handler_channel_cmd_v2.c).

 The completion of a command is two atomic steps, as in the source: the compare-and-set that
 claims the slot, and the store that makes the result visible and publishes it.
 */
module SlotTable {
  import opened Wire

  const ERR_UNSUPPORTED := 1001
  const ERR_MALFORMED := 1002
  const ERR_COLLISION := 1003
  const ERR_BUSY := 1004
  const ERR_FINAL_OVERFLOW := 1005
  const ERR_EXPIRED := 1006
  const MAX_RX := 128

  datatype State = Free | Queued | Completing | Final

  datatype Cmd = Cmd(id: seq<byte>, digest: seq<byte>, attempt: nat, boot: seq<byte>, edge: nat,
                     channel: nat, deadline: nat, tx: seq<byte>, readSize: nat, timeout: nat,
                     delay: nat, plan: seq<byte>, planSteps: nat)

  /** What makes two deliveries the same physical command; attempt, boot and deadline do not. */
  predicate SameIdentity(a: Cmd, b: Cmd) {
    && a.id == b.id && a.digest == b.digest && a.edge == b.edge && a.channel == b.channel
    && a.tx == b.tx && a.readSize == b.readSize && a.timeout == b.timeout && a.delay == b.delay
    && a.plan == b.plan
  }

  datatype Result = Result(success: bool, error: nat, raw: seq<byte>)

  datatype Slot = Slot(state: State, cmd: Cmd, result: Result, order: nat)

  datatype Table = Table(slots: seq<Slot>, sequence: nat, accepted: nat, rejected: nat,
                         completed: nat, replayed: nat)

  /** What the handler sends or starts. */
  datatype Out =
    | Dispatch(slot: nat, cmd: Cmd)
    | Ack(reply: Option<Cmd>, ok: bool, code: nat)
    | FinalMsg(cmd: Cmd, result: Result, replay: bool)

  /** The response handed to a completion: bytes, or a null pointer with a length. */
  datatype Response = Bytes(raw: seq<byte>) | Null(len: nat)

  datatype Event =
    | Malformed
    | Receive(cmd: Cmd, boot: Option<seq<byte>>, now: nat, admit: bool)
    | Claim(slot: nat, success: bool, error: nat, response: Response)
    | Publish(slot: nat)

  // ---- reserve_slot --------------------------------------------------------------------------

  datatype Verdict = Replay(slot: nat) | Collision | Take(slot: nat) | Busy

  /** The first held slot with this command id. */
  function Holder(slots: seq<Slot>, id: seq<byte>): (r: Option<nat>)
    ensures r.Some? ==> r.value < |slots| && slots[r.value].state != Free && slots[r.value].cmd.id == id
                        && forall i | 0 <= i < r.value :: slots[i].state == Free || slots[i].cmd.id != id
    ensures r.None? ==> forall i | 0 <= i < |slots| :: slots[i].state == Free || slots[i].cmd.id != id
  {
    if slots == [] then None
    else
      var n := |slots| - 1;
      var r := Holder(slots[..n], id);
      if r.Some? then r
      else if slots[n].state != Free && slots[n].cmd.id == id then Some(n) else None
  }

  function FirstFree(slots: seq<Slot>): (r: Option<nat>)
    ensures r.Some? ==> r.value < |slots| && slots[r.value].state == Free
                        && forall i | 0 <= i < r.value :: slots[i].state != Free
    ensures r.None? ==> forall i | 0 <= i < |slots| :: slots[i].state != Free
  {
    if slots == [] then None
    else
      var n := |slots| - 1;
      var r := FirstFree(slots[..n]);
      if r.Some? then r else if slots[n].state == Free then Some(n) else None
  }

  /** The final slot whose completion is oldest; the lowest index among equals. */
  function OldestFinal(slots: seq<Slot>): (r: Option<nat>)
    ensures r.Some? ==> r.value < |slots| && slots[r.value].state == Final
                        && forall i | 0 <= i < |slots| && slots[i].state == Final ::
                          slots[r.value].order <= slots[i].order
    ensures r.Some? ==> forall i | 0 <= i < r.value && slots[i].state == Final :: slots[r.value].order < slots[i].order
    ensures r.None? ==> forall i | 0 <= i < |slots| :: slots[i].state != Final
  {
    if slots == [] then None
    else
      var n := |slots| - 1;
      var r := OldestFinal(slots[..n]);
      if slots[n].state == Final && (r.None? || slots[n].order < slots[r.value].order) then Some(n) else r
  }

  function Reserve(slots: seq<Slot>, cmd: Cmd): (v: Verdict)
    ensures v.Replay? || v.Take? ==> v.slot < |slots|
  {
    var held := Holder(slots, cmd.id);
    if held.Some? then
      if SameIdentity(slots[held.value].cmd, cmd) then Replay(held.value) else Collision
    else if FirstFree(slots).Some? then Take(FirstFree(slots).value)
    else if OldestFinal(slots).Some? then Take(OldestFinal(slots).value)
    else Busy
  }

  // ---- One step ------------------------------------------------------------------------------

  const NO_RESULT := Result(false, 0, [])

  function Wrap(n: int): nat { n % 0x1_0000_0000 }

  function Nack(t: Table, cmd: Option<Cmd>, code: nat): (Table, seq<Out>) {
    (t.(rejected := Wrap(t.rejected + 1)), [Ack(cmd, false, code)])
  }

  /** Passed the boot and deadline checks. */
  predicate Timely(e: Event)
    requires e.Receive?
  {
    e.boot == Some(e.cmd.boot) && e.now != 0 && e.now < e.cmd.deadline
  }

  function OnReceive(t: Table, e: Event): (Table, seq<Out>)
    requires e.Receive?
  {
    if e.boot != Some(e.cmd.boot) then Nack(t, Some(e.cmd), ERR_UNSUPPORTED)
    else if !Timely(e) then Nack(t, Some(e.cmd), ERR_EXPIRED)
    else match Reserve(t.slots, e.cmd)
      case Collision => Nack(t, Some(e.cmd), ERR_COLLISION)
      case Busy => Nack(t, Some(e.cmd), ERR_BUSY)
      case Replay(i) =>
        var s := t.slots[i];
        (t.(accepted := Wrap(t.accepted + 1), replayed := Wrap(t.replayed + 1)),
         [Ack(Some(e.cmd), true, 0)] + if s.state == Final then [FinalMsg(s.cmd, s.result, true)] else [])
      case Take(i) =>
        if e.admit then
          (t.(slots := t.slots[i := Slot(Queued, e.cmd, NO_RESULT, 0)], accepted := Wrap(t.accepted + 1)),
           [Dispatch(i, e.cmd), Ack(Some(e.cmd), true, 0)])
        else
          (t.(slots := t.slots[i := Slot(Final, e.cmd, Result(false, ERR_UNSUPPORTED, []), 0)],
              rejected := Wrap(t.rejected + 1)),
           [Dispatch(i, e.cmd), Ack(Some(e.cmd), false, ERR_UNSUPPORTED)])
  }

  /** An oversize or missing response fails closed. */
  function Outcome(success: bool, error: nat, response: Response): Result {
    match response
    case Bytes(raw) =>
      if |raw| > MAX_RX then Result(false, ERR_FINAL_OVERFLOW, []) else Result(success, error, raw)
    case Null(len) =>
      if len > MAX_RX then Result(false, ERR_FINAL_OVERFLOW, [])
      else if len > 0 then Result(false, ERR_MALFORMED, []) else Result(success, error, [])
  }

  function Step(t: Table, e: Event): (Table, seq<Out>) {
    match e
    case Malformed => Nack(t, None, ERR_MALFORMED)
    case Receive(_, _, _, _) => OnReceive(t, e)
    case Claim(i, success, error, response) =>
      if i < |t.slots| && t.slots[i].state == Queued then
        (t.(slots := t.slots[i := t.slots[i].(state := Completing, result := Outcome(success, error, response))]), [])
      else (t, [])
    case Publish(i) =>
      if i < |t.slots| && t.slots[i].state == Completing then
        (t.(slots := t.slots[i := t.slots[i].(state := Final, order := t.sequence + 1)],
            sequence := t.sequence + 1, completed := Wrap(t.completed + 1)),
         [FinalMsg(t.slots[i].cmd, t.slots[i].result, false)])
      else (t, [])
  }

  function Run(t: Table, es: seq<Event>): (Table, seq<Out>)
    decreases |es|
  {
    if es == [] then (t, [])
    else
      var (t1, o1) := Step(t, es[0]);
      var (t2, o2) := Run(t1, es[1..]);
      (t2, o1 + o2)
  }

  lemma RunTwo(t: Table, a: Event, b: Event)
    ensures var x := Step(t, a);
            var y := Step(x.0, b);
            Run(t, [a, b]) == (y.0, x.1 + y.1)
  {
    var x := Step(t, a);
    var y := Step(x.0, b);
    assert [a, b][1..] == [b] && [b][1..] == [];
    assert Run(x.0, [b]) == (y.0, y.1 + []);
    assert y.1 + [] == y.1;
  }

  // ---- The handler in place ------------------------------------------------------------------

  class Handler {
    const slots: array<Slot>
    var sequence: nat
    var accepted: nat
    var rejected: nat
    var completed: nat
    var replayed: nat

    constructor (count: nat, blank: Cmd)
      ensures fresh(slots) && slots.Length == count
      ensures Abs() == Table(seq(count, i => Slot(Free, blank, NO_RESULT, 0)), 0, 0, 0, 0, 0)
    {
      slots := new Slot[count](_ => Slot(Free, blank, NO_RESULT, 0));
      sequence, accepted, rejected, completed, replayed := 0, 0, 0, 0, 0;
    }

    function Abs(): Table
      reads this, slots
    {
      Table(slots[..], sequence, accepted, rejected, completed, replayed)
    }

    method SendAck(cmd: Option<Cmd>, ok: bool, code: nat) returns (out: Out)
      modifies this`accepted, this`rejected
      ensures out == Ack(cmd, ok, code)
      ensures accepted == if ok then Wrap(old(accepted) + 1) else old(accepted)
      ensures rejected == if ok then old(rejected) else Wrap(old(rejected) + 1)
    {
      if ok { accepted := Wrap(accepted + 1); } else { rejected := Wrap(rejected + 1); }
      return Ack(cmd, ok, code);
    }

    /** `reserve_slot`: one pass finds a match, a free slot and the oldest result. */
    method ReserveSlot(cmd: Cmd) returns (v: Verdict)
      ensures v == Reserve(slots[..], cmd)
    {
      var free: Option<nat> := None;
      var oldest: Option<nat> := None;
      for i := 0 to slots.Length
        invariant Holder(slots[..i], cmd.id) == None
        invariant free == FirstFree(slots[..i]) && oldest == OldestFinal(slots[..i])
      {
        assert slots[..i + 1][..i] == slots[..i];
        var s := slots[i];
        if s.state == Free {
          if free.None? { free := Some(i); }
          continue;
        }
        if SameIdentity(s.cmd, cmd) {
          HolderPrefix(slots[..], i + 1, cmd.id);
          return Replay(i);
        }
        if s.cmd.id == cmd.id {
          HolderPrefix(slots[..], i + 1, cmd.id);
          return Collision;
        }
        if s.state == Final && (oldest.None? || s.order < slots[oldest.value].order) {
          oldest := Some(i);
        }
      }
      assert slots[..slots.Length] == slots[..];
      if free.Some? { return Take(free.value); }
      if oldest.Some? { return Take(oldest.value); }
      return Busy;
    }

    method Process(e: Event) returns (outs: seq<Out>)
      requires e.Malformed? || e.Receive?
      modifies this, slots
      ensures (Abs(), outs) == Step(old(Abs()), e)
    {
      if e.Malformed? {
        var nack := SendAck(None, false, ERR_MALFORMED);
        return [nack];
      }
      if e.boot != Some(e.cmd.boot) {
        var nack := SendAck(Some(e.cmd), false, ERR_UNSUPPORTED);
        return [nack];
      }
      if e.now == 0 || e.cmd.deadline <= e.now {
        var nack := SendAck(Some(e.cmd), false, ERR_EXPIRED);
        return [nack];
      }
      var v := ReserveSlot(e.cmd);
      if v.Collision? || v.Busy? {
        var nack := SendAck(Some(e.cmd), false, if v.Collision? then ERR_COLLISION else ERR_BUSY);
        return [nack];
      }
      if v.Replay? {
        replayed := Wrap(replayed + 1);
        var ack := SendAck(Some(e.cmd), true, 0);
        outs := [ack];
        var s := slots[v.slot];
        if s.state == Final {
          outs := outs + [FinalMsg(s.cmd, s.result, true)];
        }
        assert outs == Step(old(Abs()), e).1;
        return outs;
      }
      slots[v.slot] := Slot(Queued, e.cmd, NO_RESULT, 0);
      outs := [Dispatch(v.slot, e.cmd)];
      if !e.admit {
        slots[v.slot] := slots[v.slot].(result := Result(false, ERR_UNSUPPORTED, []));
        slots[v.slot] := slots[v.slot].(state := Final);
      }
      var ack := SendAck(Some(e.cmd), e.admit, if e.admit then 0 else ERR_UNSUPPORTED);
      outs := outs + [ack];
      assert slots[..] == Step(old(Abs()), e).0.slots && outs == Step(old(Abs()), e).1;
    }

    /** The compare-and-set from QUEUED. */
    method ClaimSlot(e: Event) returns (claimed: bool)
      requires e.Claim?
      modifies slots
      ensures (Abs(), []) == Step(old(Abs()), e)
      ensures claimed == (e.slot < slots.Length && old(slots[..])[e.slot].state == Queued)
      ensures !claimed ==> slots[..] == old(slots[..])
    {
      if e.slot >= slots.Length { return false; }
      var success, error := e.success, e.error;
      var len := if e.response.Bytes? then |e.response.raw| else e.response.len;
      var raw := if e.response.Bytes? then e.response.raw else [];
      if len > MAX_RX {
        success, error, raw, len := false, ERR_FINAL_OVERFLOW, [], 0;
      } else if len > 0 && e.response.Null? {
        success, error, len := false, ERR_MALFORMED, 0;
      }
      if slots[e.slot].state != Queued { return false; }
      slots[e.slot] := slots[e.slot].(state := Completing);
      slots[e.slot] := slots[e.slot].(result := Result(success, error, raw));
      assert slots[..] == Step(old(Abs()), e).0.slots;
      return true;
    }

    /** The rest of a completion: order, visible result, published final. */
    method PublishSlot(i: nat) returns (outs: seq<Out>)
      modifies this, slots
      ensures (Abs(), outs) == Step(old(Abs()), Publish(i))
    {
      if i >= slots.Length || slots[i].state != Completing { return []; }
      sequence := sequence + 1;
      slots[i] := slots[i].(order := sequence);
      slots[i] := slots[i].(state := Final);
      completed := Wrap(completed + 1);
      assert slots[..] == Step(old(Abs()), Publish(i)).0.slots;
      return [FinalMsg(slots[i].cmd, slots[i].result, false)];
    }

    /** `handler_channel_cmd_v2_complete` with nothing in between. */
    method Complete(i: nat, success: bool, error: nat, response: Response) returns (outs: seq<Out>)
      modifies this, slots
      ensures (Abs(), outs) == Run(old(Abs()), [Claim(i, success, error, response), Publish(i)])
           || (outs == [] && Abs() == old(Abs()) && (i < slots.Length ==> old(slots[..])[i].state != Queued))
    {
      var claimed := ClaimSlot(Claim(i, success, error, response));
      if !claimed { return []; }
      RunTwo(old(Abs()), Claim(i, success, error, response), Publish(i));
      outs := PublishSlot(i);
      assert [] + outs == outs;
    }

    /** `channel_cmd_v2_borrow_plan` */
    method BorrowPlan(i: nat) returns (plan: Option<(seq<byte>, nat)>)
      ensures plan == Borrow(Abs(), i)
    {
      if i >= slots.Length { return None; }
      var s := slots[i];
      if s.state != Queued && s.state != Completing { return None; }
      if |s.cmd.plan| == 0 { return None; }
      return Some((s.cmd.plan, s.cmd.planSteps));
    }
  }

  function Borrow(t: Table, i: nat): Option<(seq<byte>, nat)> {
    if i < |t.slots| && t.slots[i].state in {Queued, Completing} && t.slots[i].cmd.plan != []
    then Some((t.slots[i].cmd.plan, t.slots[i].cmd.planSteps)) else None
  }

  lemma {:induction false} HolderPrefix(slots: seq<Slot>, n: nat, id: seq<byte>)
    requires n <= |slots| && Holder(slots[..n], id).Some?
    ensures Holder(slots, id) == Holder(slots[..n], id)
    decreases |slots|
  {
    if n == |slots| {
      assert slots[..n] == slots;
    } else {
      var m := |slots| - 1;
      assert slots[..m][..n] == slots[..n];
      HolderPrefix(slots[..m], n, id);
    }
  }
}
