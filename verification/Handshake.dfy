/**
 The application handshake of the device link: the pure decision
 (esp32-collector/main/device_link_handshake.c) and the polling loop that acts on it
 (esp32-collector/main/device_link_wiring.c).
 */
module Handshake {
  datatype Session = Down | Backoff | WaitHandshake | Ready | Fatal

  datatype Action = Idle | SendHello | NoteHandshake | Done

  const HELLO_ACK := 0x12

  /** `dlhs_decide`. */
  function Decide(st: Session, helloSent: bool, rx: nat, accepted: bool): Action {
    if rx == HELLO_ACK && !accepted then Idle
    else if rx == HELLO_ACK then (if st == Ready then Done else NoteHandshake)
    else if st == Ready then Done
    else if st == WaitHandshake && !helloSent then SendHello
    else Idle
  }

  /** `dlhs_link_generation_changed`. */
  predicate Entered(prev: Session, now: Session) { prev != WaitHandshake && now == WaitHandshake }

  /**
   One turn of the loop as the environment presents it: the polled state, the type received (0: nothing),
   whether the application accepted the acknowledgement, the nonce it would hand out (0: none), and
   whether a Hello built this turn can be sent.
   */
  datatype Turn = Turn(st: Session, rx: nat, accepted: bool, nonce: nat, sends: bool)

  datatype Did = Nothing | Sent(nonce: nat) | Noted

  datatype Link = Link(prev: Session, helloSent: bool, nonce: nat, log: seq<Did>)

  function Start(): Link { Link(Down, false, 0, []) }

  function Act(a: Action, nonce: nat, sends: bool): Did {
    match a
    case SendHello => if nonce != 0 && sends then Sent(nonce) else Nothing
    case NoteHandshake => Noted
    case _ => Nothing
  }

  function Step(l: Link, t: Turn): Link {
    var entered := Entered(l.prev, t.st);
    var nonce := if entered then t.nonce else l.nonce;
    var helloSent := l.helloSent && !entered;
    var did := Act(Decide(t.st, helloSent, t.rx, t.accepted), nonce, t.sends);
    Link(t.st, helloSent || did.Sent?, nonce, l.log + [did])
  }

  function Run(l: Link, ts: seq<Turn>): Link
    decreases |ts|
  {
    if ts == [] then l else Run(Step(l, ts[0]), ts[1..])
  }

  class LinkTask {
    var prev: Session
    var helloSent: bool
    var nonce: nat
    ghost var log: seq<Did>

    constructor ()
      ensures Now() == Start()
    {
      prev, helloSent, nonce, log := Down, false, 0, [];
    }

    ghost function Now(): Link
      reads this
    {
      Link(prev, helloSent, nonce, log)
    }

    /** One turn of `devlink_task`. */
    method Poll(t: Turn)
      modifies this
      ensures Now() == Step(old(Now()), t)
    {
      if Entered(prev, t.st) {
        helloSent := false;
        nonce := t.nonce;
      }
      prev := t.st;
      ghost var did := Nothing;
      match Decide(t.st, helloSent, t.rx, t.accepted) {
        case SendHello =>
          if nonce != 0 && t.sends {
            did := Sent(nonce);
            helloSent := true;
          }
        case NoteHandshake => did := Noted;
        case _ =>
      }
      log := log + [did];
    }
  }

  /** The decision: an accepted acknowledgement is noted unless the link is ready, a rejected one is ignored; a Hello is
      due while waiting, once; a ready link has nothing left to do. */
  lemma Decisions(st: Session, helloSent: bool, rx: nat, accepted: bool)
    ensures Decide(st, helloSent, rx, accepted) == NoteHandshake <==> rx == 0x12 && accepted && st != Ready
    ensures Decide(st, helloSent, rx, accepted) == SendHello <==> rx != 0x12 && st == WaitHandshake && !helloSent
    ensures Decide(st, helloSent, rx, accepted) == Done <==> st == Ready && (rx == 0x12 ==> accepted)
  {
  }

  // ---- What happens turn by turn -------------------------------------------------------------

  lemma {:induction false} RunSplit(l: Link, xs: seq<Turn>, ys: seq<Turn>)
    ensures Run(l, xs + ys) == Run(Run(l, xs), ys)
    decreases |xs|
  {
    if xs == [] {
      assert xs + ys == ys;
    } else {
      assert (xs + ys)[1..] == xs[1..] + ys;
      RunSplit(Step(l, xs[0]), xs[1..], ys);
    }
  }

  lemma {:induction false} RunLog(l: Link, ts: seq<Turn>)
    ensures |Run(l, ts).log| == |l.log| + |ts| && l.log <= Run(l, ts).log
    decreases |ts|
  {
    hide Step;
    if ts != [] {
      StepLog(l, ts[0]);
      RunLog(Step(l, ts[0]), ts[1..]);
    }
  }

  lemma StepLog(l: Link, t: Turn)
    ensures |Step(l, t).log| == |l.log| + 1 && l.log <= Step(l, t).log
  {
  }

  lemma RunAt(l: Link, ts: seq<Turn>, k: nat)
    requires k < |ts| && l.log == []
    ensures |Run(l, ts).log| == |ts| && |Run(l, ts[..k]).log| == k
    ensures |Step(Run(l, ts[..k]), ts[k]).log| == k + 1
    ensures Run(l, ts).log[k] == Step(Run(l, ts[..k]), ts[k]).log[k]
  {
    hide Run, Step;
    assert ts == ts[..k] + ([ts[k]] + ts[k + 1..]);
    RunSplit(l, ts[..k], [ts[k]] + ts[k + 1..]);
    RunLog(l, ts);
    RunLog(l, ts[..k]);
    RunCons(Run(l, ts[..k]), ts[k], ts[k + 1..]);
    StepLog(Run(l, ts[..k]), ts[k]);
    RunLog(Step(Run(l, ts[..k]), ts[k]), ts[k + 1..]);
  }

  lemma RunCons(l: Link, t: Turn, ts: seq<Turn>)
    ensures Run(l, [t] + ts) == Run(Step(l, t), ts)
  {
    assert ([t] + ts)[1..] == ts;
  }

  /** A handshake is noted exactly on an accepted acknowledgement outside the ready state. */
  lemma NotedIff(ts: seq<Turn>, k: nat)
    requires k < |ts|
    ensures |Run(Start(), ts).log| == |ts|
    ensures Run(Start(), ts).log[k].Noted? <==> ts[k].rx == 0x12 && ts[k].accepted && ts[k].st != Ready
  {
    RunAt(Start(), ts, k);
  }

  // ---- Hello ---------------------------------------------------------------------------------

  /** A turn that can carry a Hello: no acknowledgement came, and sending works. */
  predicate CanSend(t: Turn) { t.rx != 0x12 && t.sends }

  /** Within one stay in the waiting state the Hello goes out at the first turn that can carry it. */
  lemma {:induction false} StaySends(l: Link, ts: seq<Turn>, k: nat)
    requires l.prev == WaitHandshake && k < |ts| && forall i :: 0 <= i < |ts| ==> ts[i].st == WaitHandshake
    ensures |Run(l, ts).log| == |l.log| + |ts|
    ensures Run(l, ts).log[|l.log| + k].Sent? <==>
      (!l.helloSent && l.nonce != 0 && CanSend(ts[k]) && forall i :: 0 <= i < k ==> !CanSend(ts[i]))
    ensures Run(l, ts).log[|l.log| + k].Sent? ==> Run(l, ts).log[|l.log| + k] == Sent(l.nonce)
    decreases |ts|
  {
    RunLog(l, ts);
    var m := Step(l, ts[0]);
    assert ts[0].st == WaitHandshake;
    RunLog(m, ts[1..]);
    if k > 0 {
      forall i | 0 <= i < |ts[1..]| ensures ts[1..][i].st == WaitHandshake { assert ts[1..][i] == ts[i + 1]; }
      StaySends(m, ts[1..], k - 1);
      ShiftedFirst(ts, k);
    }
  }

  lemma ShiftedFirst(ts: seq<Turn>, k: nat)
    requires 0 < k < |ts|
    ensures (forall i :: 0 <= i < k ==> !CanSend(ts[i])) <==>
      (!CanSend(ts[0]) && forall i :: 0 <= i < k - 1 ==> !CanSend(ts[1..][i]))
  {
    if !CanSend(ts[0]) && forall i :: 0 <= i < k - 1 ==> !CanSend(ts[1..][i]) {
      forall i | 0 <= i < k ensures !CanSend(ts[i]) {
        if i > 0 { assert ts[i] == ts[1..][i - 1]; }
      }
    }
    if forall i :: 0 <= i < k ==> !CanSend(ts[i]) {
      forall i | 0 <= i < k - 1 ensures !CanSend(ts[1..][i]) { assert ts[1..][i] == ts[i + 1]; }
    }
  }

  /**
   One generation: from an entry into the waiting state for as long as it lasts.  The Hello goes out exactly
   once, at the first turn without an acknowledgement on which sending works, provided a nonce was obtained
   on entry, and carries that nonce; if there is no such turn or no nonce it does not go out at all.
   */
  lemma GenerationSends(l: Link, ts: seq<Turn>, k: nat)
    requires l.prev != WaitHandshake && k < |ts| && forall i :: 0 <= i < |ts| ==> ts[i].st == WaitHandshake
    ensures |Run(l, ts).log| == |l.log| + |ts|
    ensures Run(l, ts).log[|l.log| + k].Sent? <==>
      (ts[0].nonce != 0 && CanSend(ts[k]) && forall i :: 0 <= i < k ==> !CanSend(ts[i]))
    ensures Run(l, ts).log[|l.log| + k].Sent? ==> Run(l, ts).log[|l.log| + k] == Sent(ts[0].nonce)
  {
    var reset := Link(WaitHandshake, false, ts[0].nonce, l.log);
    assert ts[0].st == WaitHandshake;
    assert Step(l, ts[0]) == Step(reset, ts[0]);
    assert Run(l, ts) == Run(reset, ts);
    StaySends(reset, ts, k);
  }

  /** While no new generation starts, a Hello already sent is not sent again. */
  lemma {:induction false} NotAgain(l: Link, ts: seq<Turn>, k: nat)
    requires l.helloSent && k < |ts|
    requires !Entered(l.prev, ts[0].st) && forall i, j :: 0 <= i && j == i + 1 <= k ==> !Entered(ts[i].st, ts[j].st)
    ensures |Run(l, ts).log| == |l.log| + |ts| && !Run(l, ts).log[|l.log| + k].Sent?
    decreases |ts|
  {
    RunLog(l, ts);
    var m := Step(l, ts[0]);
    RunLog(m, ts[1..]);
    if k > 0 {
      forall i, j | 0 <= i && j == i + 1 <= k - 1 ensures !Entered(ts[1..][i].st, ts[1..][j].st) {
        assert ts[1..][i] == ts[i + 1] && ts[1..][j] == ts[j + 1];
      }
      assert !Entered(ts[0].st, ts[1].st);
      NotAgain(m, ts[1..], k - 1);
    }
  }

  /** A new generation starts at turn `k`. */
  predicate EntersAt(ts: seq<Turn>, k: nat) {
    0 < k < |ts| && ts[k - 1].st != WaitHandshake && ts[k].st == WaitHandshake
  }

  /** A Hello goes out only while waiting, and never on a turn that brings an acknowledgement. */
  lemma SentOnlyWaiting(ts: seq<Turn>, k: nat)
    requires k < |ts|
    ensures |Run(Start(), ts).log| == |ts|
    ensures Run(Start(), ts).log[k].Sent? ==> ts[k].st == WaitHandshake && ts[k].rx != 0x12 && ts[k].sends
  {
    RunAt(Start(), ts, k);
  }

  lemma AfterSending(l: Link, t: Turn)
    requires Step(l, t).log[|l.log|].Sent?
    ensures Step(l, t).helloSent && Step(l, t).prev == t.st
  {
  }

  /** Over any run, two Hellos are separated by a new entry into the waiting state. */
  lemma OnePerGeneration(ts: seq<Turn>, i: nat, j: nat)
    requires i < j < |ts|
    ensures |Run(Start(), ts).log| == |ts|
    ensures Run(Start(), ts).log[i].Sent? && Run(Start(), ts).log[j].Sent? ==> exists k :: i < k <= j && EntersAt(ts, k)
  {
    hide Run, Step;
    RunLog(Start(), ts);
    if Run(Start(), ts).log[i].Sent? && !exists k :: i < k <= j && EntersAt(ts, k) {
      SilentAfter(ts, i, j);
    }
  }

  lemma SilentAfter(ts: seq<Turn>, i: nat, j: nat)
    requires i < j < |ts| && |Run(Start(), ts).log| == |ts| && Run(Start(), ts).log[i].Sent?
    requires forall k :: i < k <= j ==> !EntersAt(ts, k)
    ensures !Run(Start(), ts).log[j].Sent?
  {
    hide Run, Step;
    var l, rest := Run(Start(), ts[..i]), ts[i + 1..];
    RunAt(Start(), ts, i);
    AfterSending(l, ts[i]);
    var m := Step(l, ts[i]);
    assert ts == ts[..i] + ([ts[i]] + rest);
    RunSplit(Start(), ts[..i], [ts[i]] + rest);
    RunCons(l, ts[i], rest);
    assert !EntersAt(ts, i + 1) && rest[0] == ts[i + 1];
    forall a, b | 0 <= a && b == a + 1 <= j - i - 1 ensures !Entered(rest[a].st, rest[b].st) {
      assert !EntersAt(ts, i + 1 + b) && rest[a] == ts[i + b] && rest[b] == ts[i + 1 + b];
    }
    NotAgain(m, rest, j - i - 1);
  }
}
