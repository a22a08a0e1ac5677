/**
 Where frames are cut: at a declared read size or a block of 512 bytes as soon as that much has been read, and
 otherwise at a hardware boundary, an idle gap or a timeout.
 */
module ReceiveFrames {
  import opened Wire
  import opened UartReceive
  import opened ReceiveLaws

  // ---- What waits ----------------------------------------------------------------------------

  /** The bytes that wait are not yet a whole frame: fewer than the head command declares, or fewer than 512.
      A control command that declares nothing waits for the line to go quiet. */
  predicate Settled(s: Line) {
    if s.pending == [] then |s.buffer| < 512
    else if s.pending[0].read > 0 then |s.buffer| < s.pending[0].read
    else s.pending[0].v2 || |s.buffer| < 512
  }

  /** An overflowed frame keeps no bytes. */
  predicate Drops(s: Line) { s.overflow ==> s.buffer == [] }

  lemma {:induction false} ReadySettles(s: Line)
    ensures Settled(EmitReady(s)) && EmitReady(s).overflow == s.overflow
    ensures s.buffer == [] ==> EmitReady(s) == s
    decreases |s.buffer|
  {
    var n := Boundary(|s.buffer|, Owner(s.pending));
    if n != 0 {
      EmitChunkShrinks(s, n);
      ReadySettles(EmitChunk(s, n));
    }
  }

  lemma AcceptSettles(s: Line, batch: seq<byte>, now: int)
    requires Drops(s)
    ensures Settled(Accept(s, batch, now)) && Drops(Accept(s, batch, now))
  {
    hide EmitReady;
    var u := s.(lastRx := now);
    ReadySettles(u);
    var v := if |u.buffer| + |batch| > STREAM_BUF then EmitReady(u) else u;
    ReadySettles(v.(buffer := v.buffer + batch));
  }

  lemma {:induction false} DrainSettles(s: Line, now: int, cap: nat)
    requires cap > 0 && Drops(s)
    ensures Drops(Drain(s, now, cap)) && (s.ring != [] || Settled(s) ==> Settled(Drain(s, now, cap)))
    decreases |s.ring|
  {
    hide Accept, Settled, Drops;
    if s.ring != [] {
      var n := if |s.ring| < cap then |s.ring| else cap;
      var r := s.(ring := s.ring[n..]);
      AcceptKeepsRing(r, s.ring[..n], now);
      assert Drops(r) by { DropsOf(s, r); }
      AcceptSettles(r, s.ring[..n], now);
      DrainSettles(Accept(r, s.ring[..n], now), now, cap);
    }
  }

  lemma DropsOf(s: Line, r: Line)
    requires Drops(s) && r.overflow == s.overflow && r.buffer == s.buffer
    ensures Drops(r)
  {
  }

  /** Events in which the task reads what the driver has. */
  predicate Reads(e: Event) { e.Data? || e.Pattern? || e.LineStatus? }

  /** A hardware boundary closes what waits. */
  predicate Bounds(e: Event) { e.Data? && e.timeout }

  lemma ClosedIsEmpty(s: Line)
    requires Drops(s)
    ensures EmitBuffered(s).buffer == [] && Settled(EmitBuffered(s)) && Drops(EmitBuffered(s))
  {
  }

  /** Whenever bytes are read, or a hardware boundary comes, no whole frame is left waiting; and none comes to wait
      except by sending a command that declares no more than what already waits. */
  lemma StepSettles(s: Line, e: Event, cap: nat)
    requires cap > 0 && Drops(s)
    ensures Drops(Step(s, e, cap))
    ensures Reads(e) && (s.ring != [] || Bounds(e)) ==> Settled(Step(s, e, cap))
    ensures Reads(e) && s.ring == [] && !Bounds(e) ==> Step(s, e, cap) == s
    ensures Settled(s) && !e.Send? ==> Settled(Step(s, e, cap))
    ensures Settled(s) && e.Send? ==>
              (Settled(Step(s, e, cap)) <==> s.pending != [] || e.cmd.read == 0 || |s.buffer| < e.cmd.read)
  {
    hide EmitBuffered, Drain;
    match e
    case Tick(now, hwPending) => ClosedIsEmpty(s);
    case Data(now, timeout) => DrainIs(s, now, cap); DrainSettles(s, now, cap); ClosedIsEmpty(Drain(s, now, cap));
    case Pattern(now) => DrainIs(s, now, cap); DrainSettles(s, now, cap);
    case LineStatus(now) => DrainIs(s, now, cap); DrainSettles(s, now, cap);
    case _ =>
  }

  lemma DrainIs(s: Line, now: int, cap: nat)
    requires cap > 0
    ensures s.ring == [] ==> Drain(s, now, cap) == s
  {
  }

  lemma {:induction false} RunSplit(s: Line, a: seq<Event>, b: seq<Event>, cap: nat)
    requires cap > 0
    ensures Run(s, a + b, cap) == Run(Run(s, a, cap), b, cap)
    decreases |a|
  {
    hide Step;
    if a == [] {
      assert a + b == b;
    } else {
      assert (a + b)[1..] == a[1..] + b;
      RunSplit(Step(s, a[0], cap), a[1..], b, cap);
    }
  }

  lemma {:induction false} RunDrops(s: Line, es: seq<Event>, cap: nat)
    requires cap > 0 && Drops(s)
    ensures Drops(Run(s, es, cap))
    decreases |es|
  {
    hide Step, Drops;
    if es != [] {
      StepSettles(s, es[0], cap);
      RunDrops(Step(s, es[0], cap), es[1..], cap);
    }
  }

  lemma {:induction false} RunSettled(s: Line, es: seq<Event>, cap: nat)
    requires cap > 0 && Drops(s) && Settled(s) && forall e :: e in es ==> !e.Send?
    ensures Settled(Run(s, es, cap))
    decreases |es|
  {
    hide Step, Drops, Settled;
    if es != [] {
      StepSettles(s, es[0], cap);
      RunSettled(Step(s, es[0], cap), es[1..], cap);
    }
  }

  /** Over every run: once bytes have been read or a hardware boundary has come, no whole frame waits, until
      another command is sent. */
  lemma NoWholeFrameWaits(before: seq<Event>, e: Event, after: seq<Event>, cap: nat, first: nat)
    requires cap > 0 && Reads(e) && (Run(Fresh(first), before, cap).ring != [] || Bounds(e))
    requires forall x :: x in after ==> !x.Send?
    ensures var t := Run(Fresh(first), before + [e] + after, cap);
      && (t.pending == [] ==> |t.buffer| < 512)
      && (t.pending != [] && t.pending[0].read > 0 ==> |t.buffer| < t.pending[0].read)
      && (t.pending != [] && t.pending[0].read == 0 && !t.pending[0].v2 ==> |t.buffer| < 512)
  {
    var s := Run(Fresh(first), before, cap);
    RunDrops(Fresh(first), before, cap);
    StepSettles(s, e, cap);
    RunSettled(Step(s, e, cap), after, cap);
    hide Step;
    assert Run(s, [e], cap) == Run(Step(s, e, cap), [e][1..], cap) == Step(s, e, cap);
    RunSplit(Fresh(first), before, [e], cap);
    RunSplit(Fresh(first), before + [e], after, cap);
  }

  /** The exception happens: ten bytes wait on a passive line when a command that declares eight is sent. */
  lemma CommandOverWaiting(bytes: seq<byte>, c: Cmd, cap: nat)
    requires cap >= 10 && |bytes| == 10 && c.read == 8
    ensures var t := Run(Fresh(0), [Arrive(bytes), Data(1, false), Send(c), Data(2, false)], cap);
      t.buffer == bytes && t.pending == [c]
  {
    var s0 := Fresh(0);
    var s1 := s0.(ring := bytes);
    AcceptPassive(s0, bytes, 1);
    assert [] + bytes == bytes && bytes[..10] == bytes && bytes[10..] == [];
    var s2 := s0.(buffer := bytes, lastRx := 1);
    assert Drain(s1, 1, cap) == Drain(Accept(s0, bytes, 1), 1, cap) == s2;
    var s3 := s2.(pending := [c]);
    assert [] + [c] == [c];
    assert Step(s0, Arrive(bytes), cap) == s1 && Step(s1, Data(1, false), cap) == s2;
    assert Step(s2, Send(c), cap) == s3 && Step(s3, Data(2, false), cap) == s3;
    var es := [Arrive(bytes), Data(1, false), Send(c), Data(2, false)];
    assert es[1..] == [Data(1, false), Send(c), Data(2, false)] && es[1..][1..] == [Send(c), Data(2, false)];
    assert es[1..][1..][1..] == [Data(2, false)] && es[1..][1..][1..][1..] == [];
    hide Step;
    assert Run(s3, [Data(2, false)], cap) == Run(s3, [], cap) == s3;
    assert Run(s2, es[1..][1..], cap) == s3;
  }

  // ---- What is handed over as soon as it is whole --------------------------------------------

  /** A frame cut at its length: what its command declares, or a block of 512.  A control answer is cut for a
      command that is closed with it; above 256 bytes it becomes a failure. */
  ghost predicate CutRight(o: Out, closed: seq<Cmd>) {
    match o
    case Report(_, data, code, owner) =>
      code == 0 && |data| == if owner.Some? && owner.value.read > 0 then owner.value.read else 512
    case Answer(slot, ok, code, raw) =>
      exists c :: c in closed && c.v2 && c.slot == slot
        && if ok then code == 0 && |raw| == c.read <= 256 else code == 0x1005 && raw == [] && c.read > 256
    case Lost(bytes) => exists c :: c in closed && c.v2 && |bytes| == c.read > 256
  }

  lemma CutMore(o: Out, closed: seq<Cmd>, more: seq<Cmd>)
    requires CutRight(o, closed)
    ensures CutRight(o, closed + more) && CutRight(o, more + closed)
  {
    if o.Answer? {
      var c :| c in closed && c.v2 && c.slot == o.slot
        && if o.ok then o.code == 0 && |o.raw| == c.read <= 256 else o.code == 0x1005 && o.raw == [] && c.read > 256;
      assert c in closed + more && c in more + closed;
    } else if o.Lost? {
      var c :| c in closed && c.v2 && |o.bytes| == c.read > 256;
      assert c in closed + more && c in more + closed;
    }
  }

  lemma ChunkCutRight(s: Line, n: nat)
    requires n == Boundary(|s.buffer|, Owner(s.pending)) && n != 0
    ensures var t := EmitChunk(s, n);
      var closed := if s.pending != [] && s.pending[0].read > 0 then [s.pending[0]] else [];
      && t.log == s.log + Said(s, n, 0) && t.closed == s.closed + closed
      && forall o :: o in Said(s, n, 0) ==> CutRight(o, closed)
  {
    if s.pending != [] {
      assert s.pending[0] in [s.pending[0]];
    }
    assert s.closed + [] == s.closed;
  }

  /** Everything handed over while bytes are read is cut right, whatever is pending. */
  lemma {:induction false} ReadyCutsRight(s: Line) returns (outs: seq<Out>, closed: seq<Cmd>)
    ensures EmitReady(s).log == s.log + outs && EmitReady(s).closed == s.closed + closed
    ensures forall o :: o in outs ==> CutRight(o, closed)
    decreases |s.buffer|
  {
    hide CutRight, EmitChunk, Said;
    var n := Boundary(|s.buffer|, Owner(s.pending));
    outs, closed := [], [];
    if n != 0 {
      var t := EmitChunk(s, n);
      ChunkCutRight(s, n);
      EmitChunkShrinks(s, n);
      var c := if s.pending != [] && s.pending[0].read > 0 then [s.pending[0]] else [];
      var o2, c2 := ReadyCutsRight(t);
      outs, closed := Said(s, n, 0) + o2, c + c2;
      forall o | o in outs ensures CutRight(o, closed) {
        if o in Said(s, n, 0) { CutMore(o, c, c2); } else { CutMore(o, c2, c); }
      }
      Associate(s.log, Said(s, n, 0), o2);
      Associate(s.closed, c, c2);
    } else {
      assert s.log + [] == s.log && s.closed + [] == s.closed;
    }
  }

  // ---- Everything that is ever said ----------------------------------------------------------

  /** A success carries bytes, at least as many as its command declares; a failure says why and carries none. */
  predicate Proper(o: Out) {
    match o
    case Report(_, data, code, owner) =>
      if code == 0 then 0 < |data| <= 512 && (owner.Some? ==> owner.value.read <= |data| && !owner.value.v2)
      else code in {1, 2, 3} && data == [] && (owner.Some? ==> !owner.value.v2)
    case Answer(_, ok, code, raw) =>
      if ok then code == 0 && 0 < |raw| <= 256 else code in {1, 2, 0x1005} && raw == []
    case Lost(bytes) => bytes != []
  }

  predicate AllProper(log: seq<Out>) { forall o :: o in log ==> Proper(o) }

  /** What closing or cutting with this code may say. */
  lemma SaidProper(s: Line, n: nat, code: nat)
    requires n <= |s.buffer| && (code == 0 ==> 0 < n <= 512)
    requires code == 0 && s.pending != [] && !s.pending[0].v2 ==> s.pending[0].read <= n
    requires code in {0, 1, 2, 3} && (code == 3 ==> s.pending != [] && !s.pending[0].v2)
    ensures AllProper(Said(s, n, code))
  {
  }

  lemma LogProper(a: seq<Out>, b: seq<Out>)
    requires AllProper(a) && AllProper(b)
    ensures AllProper(a + b)
  {
  }

  /** The log is proper and the buffer within its bounds. */
  predicate Fine(s: Line) { AllProper(s.log) && |s.buffer| <= 512 && Drops(s) }

  lemma ChunkFine(s: Line, n: nat)
    requires Fine(s) && n == Boundary(|s.buffer|, Owner(s.pending)) && n != 0
    ensures Fine(EmitChunk(s, n))
  {
    hide Said, Proper;
    SaidProper(s, n, 0);
    LogProper(s.log, Said(s, n, 0));
  }

  lemma {:induction false} ReadyFine(s: Line)
    requires Fine(s)
    ensures Fine(EmitReady(s))
    decreases |s.buffer|
  {
    hide EmitChunk, Fine;
    var n := Boundary(|s.buffer|, Owner(s.pending));
    if n != 0 {
      ChunkFine(s, n);
      EmitChunkShrinks(s, n);
      ReadyFine(EmitChunk(s, n));
    }
  }

  lemma AcceptFine(s: Line, batch: seq<byte>, now: int)
    requires Fine(s)
    ensures Fine(Accept(s, batch, now))
  {
    hide EmitReady, AllProper;
    LoseProper(s.log, batch);
    var u := s.(lastRx := now);
    ReadyFine(u);
    ReadySettles(u);
    var v := if |u.buffer| + |batch| > STREAM_BUF then EmitReady(u) else u;
    LoseProper(v.log, v.buffer + batch);
    if !s.overflow && |v.buffer| + |batch| <= STREAM_BUF {
      ReadyFine(v.(buffer := v.buffer + batch));
    }
  }

  lemma LoseProper(log: seq<Out>, bytes: seq<byte>)
    requires AllProper(log)
    ensures AllProper(log + Dropped(bytes))
  {
    LogProper(log, Dropped(bytes));
  }

  lemma {:induction false} DrainFine(s: Line, now: int, cap: nat)
    requires cap > 0 && Fine(s)
    ensures Fine(Drain(s, now, cap))
    decreases |s.ring|
  {
    hide Accept, Fine;
    if s.ring != [] {
      var n := if |s.ring| < cap then |s.ring| else cap;
      var r := s.(ring := s.ring[n..]);
      AcceptKeepsRing(r, s.ring[..n], now);
      FineOf(s, r);
      AcceptFine(r, s.ring[..n], now);
      DrainFine(Accept(r, s.ring[..n], now), now, cap);
    }
  }

  lemma FineOf(s: Line, r: Line)
    requires Fine(s) && r.overflow == s.overflow && r.buffer == s.buffer && r.log == s.log
    ensures Fine(r)
  {
  }

  lemma CloseFine(s: Line, code: nat)
    requires Fine(s) && code in {0, 1, 2, 3} && (code == 0 ==> s.buffer != [])
    requires code == 0 && s.pending != [] && !s.pending[0].v2 ==> s.pending[0].read <= |s.buffer|
    requires code == 3 ==> s.pending != [] && !s.pending[0].v2
    ensures Fine(Reset(Emit(s, |s.buffer|, code, s.pending != [])))
  {
    hide Said, Proper;
    SaidProper(s, |s.buffer|, code);
    LogProper(s.log, Said(s, |s.buffer|, code));
  }

  lemma BufferedFine(s: Line)
    requires Fine(s)
    ensures Fine(EmitBuffered(s))
  {
    hide Emit, AllProper;
    if s.overflow {
      CloseFine(s, 2);
    } else if s.buffer != [] {
      if s.pending != [] && |s.buffer| < s.pending[0].read && !s.pending[0].v2 {
        CloseFine(s, 3);
      } else {
        CloseFine(s, 0);
      }
    }
  }

  lemma StepFine(s: Line, e: Event, cap: nat)
    requires cap > 0 && Fine(s)
    ensures Fine(Step(s, e, cap))
  {
    hide EmitBuffered, Drain, Emit, AllProper, Dropped;
    match e
    case Tick(now, hwPending) =>
      BufferedFine(s);
      CloseFine(CompleteIdle(s, now, hwPending), 1);
    case Data(now, timeout) => DrainFine(s, now, cap); BufferedFine(Drain(s, now, cap));
    case Pattern(now) => DrainFine(s, now, cap);
    case LineStatus(now) => DrainFine(s, now, cap);
    case Overrun(now) => LoseProper(s.log, s.buffer + s.ring);
    case _ =>
  }

  lemma {:induction false} RunFine(s: Line, es: seq<Event>, cap: nat)
    requires cap > 0 && Fine(s)
    ensures Fine(Run(s, es, cap))
    decreases |es|
  {
    hide Step, Fine;
    if es != [] {
      StepFine(s, es[0], cap);
      RunFine(Step(s, es[0], cap), es[1..], cap);
    }
  }

  /** Over every run: a report that succeeds has 1 to 512 bytes and never fewer than its command declares, a control
      answer that succeeds 1 to 256, and a failure carries no bytes and one of the known codes. */
  lemma EverythingSaid(es: seq<Event>, cap: nat, first: nat)
    requires cap > 0
    ensures forall o :: o in Run(Fresh(first), es, cap).log ==> Proper(o)
  {
    RunFine(Fresh(first), es, cap);
  }

  // ---- When the clock closes a frame ---------------------------------------------------------

  /** One more report on the channel. */
  function Reporting(s: Line, data: seq<byte>, code: nat, owner: Option<Cmd>): Line {
    var number := (s.sequence + 1) % 0x1_0000_0000;
    s.(log := s.log + [Report(number, data, code, owner)], sequence := number)
  }

  function Answering(s: Line, ok: bool, code: nat, raw: seq<byte>): Line
    requires s.pending != []
  {
    s.(log := s.log + [Answer(s.pending[0].slot, ok, code, raw)])
  }

  function Losing(s: Line): Line { if s.buffer == [] then s else s.(log := s.log + [Lost(s.buffer)]) }

  /** The head command is done, and the frame is over. */
  function Over(s: Line): Line {
    (if s.pending == [] then s else s.(pending := s.pending[1..], closed := s.closed + [s.pending[0]]))
      .(buffer := [], overflow := false, chunked := false, lastRx := 0)
  }

  predicate Quiet2000(s: Line, now: int, hwPending: bool) { s.lastRx != 0 && now - s.lastRx >= 2000 && !hwPending }

  predicate Late(s: Line, now: int) {
    s.pending != [] && s.pending[0].timeoutMs != 0 && s.pending[0].sentAt != 0
    && now - s.pending[0].sentAt >= 1000 * (s.pending[0].timeoutMs + 1)
  }

  /** A tick with the line not quiet for 2 ms and no command late by a whole millisecond does nothing; a late command
      fails with code 1 and its bytes are dropped. */
  lemma TickTimesOut(s: Line, now: int, hwPending: bool, cap: nat)
    requires cap > 0 && !Quiet2000(s, now, hwPending)
    ensures !Late(s, now) ==> Step(s, Tick(now, hwPending), cap) == s
    ensures Late(s, now) && s.pending[0].v2 ==>
              Step(s, Tick(now, hwPending), cap) == Over(Answering(Losing(s), false, 1, []))
    ensures Late(s, now) && !s.pending[0].v2 ==>
              Step(s, Tick(now, hwPending), cap) == Over(Reporting(Losing(s), [], 1, Some(s.pending[0])))
  {
    hide Emit, Said, Over, Answering, Reporting, Losing, EmitBuffered;
    if Late(s, now) { FailsAs(s, 1); }
  }

  /** A frame closed with an error: its bytes are dropped and its owner told why. */
  lemma FailsAs(s: Line, code: nat)
    requires code != 0
    ensures Reset(Emit(s, |s.buffer|, code, s.pending != [])) ==
      Over(if s.pending != [] && s.pending[0].v2 then Answering(Losing(s), false, code, [])
           else Reporting(Losing(s), [], code, if s.pending == [] then None else Some(s.pending[0])))
  {
    SaidFails(s, code);
    hide Said;
  }

  /** A frame closed without one: its bytes are handed over, to a control slot only if they fit. */
  lemma SucceedsAs(s: Line)
    requires s.buffer != []
    ensures Reset(Emit(s, |s.buffer|, 0, s.pending != [])) ==
      Over(if s.pending == [] || !s.pending[0].v2
           then Reporting(s, s.buffer, 0, if s.pending == [] then None else Some(s.pending[0]))
           else if |s.buffer| <= 256 then Answering(s, true, 0, s.buffer)
           else Answering(Losing(s), false, 0x1005, []))
  {
    assert s.buffer[..|s.buffer|] == s.buffer && s.buffer[|s.buffer|..] == [];
  }

  lemma SaidFails(s: Line, code: nat)
    requires code != 0
    ensures Said(s, |s.buffer|, code) == (if s.buffer == [] then [] else [Lost(s.buffer)])
      + if s.pending != [] && s.pending[0].v2 then [Answer(s.pending[0].slot, false, code, [])]
        else [Report((s.sequence + 1) % 0x1_0000_0000, [], code, if s.pending == [] then None else Some(s.pending[0]))]
  {
    assert s.buffer[..|s.buffer|] == s.buffer;
  }

  /** A frame is closed: as a failure when it overflowed or is shorter than a command declares, otherwise handed over
      whole; a control command takes what there is, up to 256 bytes. */
  lemma ClosesAs(s: Line)
    requires |s.buffer| <= 512 && Drops(s)
    ensures s.overflow && s.pending == [] ==> EmitBuffered(s) == Over(Reporting(s, [], 2, None))
    ensures s.overflow && s.pending != [] && s.pending[0].v2 ==> EmitBuffered(s) == Over(Answering(s, false, 2, []))
    ensures s.overflow && s.pending != [] && !s.pending[0].v2 ==>
              EmitBuffered(s) == Over(Reporting(s, [], 2, Some(s.pending[0])))
    ensures !s.overflow && s.buffer != [] && s.pending == [] ==>
              EmitBuffered(s) == Over(Reporting(s, s.buffer, 0, None))
    ensures !s.overflow && s.buffer != [] && s.pending != [] && !s.pending[0].v2 ==>
              EmitBuffered(s) == if |s.buffer| < s.pending[0].read
                                 then Over(Reporting(Losing(s), [], 3, Some(s.pending[0])))
                                 else Over(Reporting(s, s.buffer, 0, Some(s.pending[0])))
    ensures !s.overflow && s.buffer != [] && s.pending != [] && s.pending[0].v2 ==>
              EmitBuffered(s) == if |s.buffer| <= 256 then Over(Answering(s, true, 0, s.buffer))
                                 else Over(Answering(Losing(s), false, 0x1005, []))
    ensures !s.overflow && s.buffer == [] ==> EmitBuffered(s) == if s.chunked && s.pending != [] then Over(s) else s
  {
    hide Emit, Said, Answering, Reporting, Losing;
    FailsAs(s, 2);
    FailsAs(s, 3);
    if s.buffer != [] { SucceedsAs(s); }
    assert s.overflow ==> Losing(s) == s by { NothingToLose(s); }
  }

  lemma NothingToLose(s: Line)
    ensures s.buffer == [] ==> Losing(s) == s
  {
  }

  /** A hardware boundary closes what has been read; overrun bytes are dropped and the frame is marked. */
  lemma EventsClose(s: Line, now: int, cap: nat)
    requires cap > 0
    ensures Step(s, Data(now, true), cap) == EmitBuffered(Step(s, Data(now, false), cap))
    ensures Step(s, Pattern(now), cap) == Step(s, LineStatus(now), cap) == Step(s, Data(now, false), cap)
    ensures Step(s, OtherEvent, cap) == s
    ensures Step(s, Overrun(now), cap) ==
      (if s.buffer + s.ring == [] then s else s.(log := s.log + [Lost(s.buffer + s.ring)]))
        .(buffer := [], ring := [], overflow := true, lastRx := now)
  {
  }

  /** A quiet line closes the frame like a hardware boundary does; a command that is then late still fails. */
  lemma QuietLineCloses(s: Line, now: int, hwPending: bool, cap: nat)
    requires cap > 0 && Quiet2000(s, now, hwPending) && Drops(s)
    ensures !Late(EmitBuffered(s), now) ==> Step(s, Tick(now, hwPending), cap) == EmitBuffered(s)
    ensures Late(EmitBuffered(s), now) ==>
              Step(s, Tick(now, hwPending), cap)
                == var t := EmitBuffered(s);
                   Over(if t.pending[0].v2 then Answering(t, false, 1, []) else Reporting(t, [], 1, Some(t.pending[0])))
  {
    hide EmitBuffered, Emit, Over, Answering, Reporting, Losing;
    var t := EmitBuffered(s);
    ClosedIsEmpty(s);
    NothingToLose(t);
    FailsAs(t, 1);
  }
}
