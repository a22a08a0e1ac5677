/**
 What every run of a UART channel keeps: each byte is handed over once, in order, or dropped with an
 error; each pending command is closed once, in order; and when a burst of bytes is lost.
 */
module ReceiveLaws {
  import opened Wire
  import opened UartReceive

  function Collect<A, T>(xs: seq<A>, f: A -> seq<T>): seq<T> {
    if xs == [] then [] else Collect(xs[..|xs| - 1], f) + f(xs[|xs| - 1])
  }

  lemma {:induction false} CollectConcat<A, T>(a: seq<A>, b: seq<A>, f: A -> seq<T>)
    ensures Collect(a + b, f) == Collect(a, f) + Collect(b, f)
    decreases |b|
  {
    if b == [] {
      assert a + b == a;
    } else {
      var n := |b| - 1;
      assert (a + b)[..|a + b| - 1] == a + b[..n];
      CollectConcat(a, b[..n], f);
    }
  }

  lemma CollectOne<A, T>(x: A, f: A -> seq<T>)
    ensures Collect([x], f) == f(x)
  {
    assert Collect([x][..0], f) == [];
  }

  function Payload(o: Out): seq<byte> {
    match o
    case Report(_, data, _, _) => data
    case Answer(_, _, _, raw) => raw
    case Lost(bytes) => bytes
  }

  function AnsweredSlot(o: Out): seq<nat> { if o.Answer? then [o.slot] else [] }

  function Number(o: Out): seq<nat> { if o.Report? then [o.sequence] else [] }

  function ControlSlot(c: Cmd): seq<nat> { if c.v2 then [c.slot] else [] }

  predicate Failed(o: Out) {
    match o
    case Report(_, _, code, _) => code != 0
    case Answer(_, ok, _, _) => !ok
    case Lost(_) => true
  }

  /** The numbers `first + 1, first + 2, ...` modulo 2^32. */
  function Counting(first: nat, n: nat): (ns: seq<nat>)
    ensures |ns| == n && forall i :: 0 <= i < n ==> ns[i] == (first + 1 + i) % WORD
  {
    seq(n, i requires 0 <= i < n => (first + 1 + i) % WORD)
  }

  /** Dropped bytes are followed by a failure, at once or when the overflowed frame closes. */
  predicate Loud(log: seq<Out>, overflow: bool) {
    && (forall i, j :: 0 <= i && j == i + 1 < |log| && log[i].Lost? ==> Failed(log[j]))
    && (!overflow && log != [] ==> !log[|log| - 1].Lost?)
  }

  /** The command was reported on. */
  predicate Reported(log: seq<Out>, c: Cmd) { exists o :: o in log && o.Report? && o.owner == Some(c) }

  /** What a channel that has received `arrived` and been sent `sent` always satisfies. */
  ghost predicate Books(s: Line, arrived: seq<byte>, sent: seq<Cmd>, first: nat) {
    && Collect(s.log, Payload) + (s.buffer + s.ring) == arrived
    && s.closed + s.pending == sent
    && Collect(s.log, AnsweredSlot) == Collect(s.closed, ControlSlot)
    && (forall c :: c in s.closed && !c.v2 ==> Reported(s.log, c))
    && Loud(s.log, s.overflow)
    && Collect(s.log, Number) == Counting(first, |Collect(s.log, Number)|)
    && s.sequence == (first + |Collect(s.log, Number)|) % WORD
  }

  predicate Sound(s: Line) {
    && |s.buffer| <= STREAM_BUF && (s.overflow ==> s.buffer == [])
    && (s.chunked ==> s.pending != [] && s.pending[0].read == 0 && !s.pending[0].v2 && Reported(s.log, s.pending[0]))
  }

  // ---- One hand-over -------------------------------------------------------------------------

  /** What one hand-over adds to the log: perhaps the dropped bytes, then one report or answer. */
  lemma SaidShape(s: Line, n: nat, code: nat) returns (pre: seq<Out>, last: Out)
    requires n <= |s.buffer|
    ensures Said(s, n, code) == pre + [last]
    ensures pre == [] || (pre == [Lost(s.buffer[..n])] && Payload(last) == [] && Failed(last))
    ensures pre == [] ==> Payload(last) == s.buffer[..n] && (code != 0 ==> Failed(last))
    ensures !last.Lost?
    ensures AnsweredSlot(last) == if s.pending != [] then ControlSlot(s.pending[0]) else []
    ensures Number(last) == if s.pending != [] && s.pending[0].v2 then [] else [(s.sequence + 1) % WORD]
    ensures s.pending != [] && !s.pending[0].v2 ==> last.Report? && last.owner == Some(s.pending[0])
  {
    var data := if code == 0 then s.buffer[..n] else [];
    pre := if code == 0 then [] else Dropped(s.buffer[..n]);
    if s.pending != [] && s.pending[0].v2 {
      var out := Final(s.pending[0].slot, code, data);
      if |data| > FINAL_MAX {
        pre, last := [Lost(data)], out[1];
        assert out == pre + [last];
      } else {
        last := out[0];
      }
    } else {
      last := Report(NextSequence(s), data, code, Owner(s.pending));
    }
  }

  lemma CollectShape<T>(pre: seq<Out>, last: Out, f: Out -> seq<T>)
    requires |pre| <= 1
    ensures Collect(pre + [last], f) == (if pre == [] then [] else f(pre[0])) + f(last)
  {
    CollectConcat(pre, [last], f);
    CollectOne(last, f);
    if pre != [] {
      assert pre == [pre[0]];
      CollectOne(pre[0], f);
    }
  }

  lemma SaidFacts(s: Line, n: nat, code: nat)
    requires n <= |s.buffer|
    ensures var d := Said(s, n, code);
      && Collect(d, Payload) == s.buffer[..n]
      && Collect(d, AnsweredSlot) == (if s.pending != [] then ControlSlot(s.pending[0]) else [])
      && Collect(d, Number) == (if s.pending != [] && s.pending[0].v2 then [] else [(s.sequence + 1) % WORD])
      && Loud(d, false) && d != [] && (code != 0 ==> Failed(d[0]))
      && (s.pending != [] && !s.pending[0].v2 ==> Reported(d, s.pending[0]))
  {
    hide Said, Collect, ControlSlot;
    var pre, last := SaidShape(s, n, code);
    CollectShape(pre, last, Payload);
    CollectShape(pre, last, AnsweredSlot);
    CollectShape(pre, last, Number);
    assert last in pre + [last];
  }

  lemma LoudConcat(a: seq<Out>, d: seq<Out>)
    requires Loud(a, true) && Loud(d, false) && d != []
    requires a == [] || !a[|a| - 1].Lost? || Failed(d[0])
    ensures Loud(a + d, false)
  {
    forall i, j | 0 <= i && j == i + 1 < |a + d| && (a + d)[i].Lost? ensures Failed((a + d)[j]) {
      if j < |a| {
        assert (a + d)[j] == a[j] && (a + d)[i] == a[i];
      } else if i >= |a| {
        assert (a + d)[j] == d[j - |a|] && (a + d)[i] == d[i - |a|];
      } else {
        assert (a + d)[i] == a[|a| - 1] && (a + d)[j] == d[0];
      }
    }
  }

  lemma CountingMore(first: nat, n: nat)
    ensures Counting(first, n + 1) == Counting(first, n) + [((first + n) % WORD + 1) % WORD]
  {
  }

  lemma ReportedStill(log: seq<Out>, d: seq<Out>, c: Cmd)
    requires Reported(log, c) || Reported(d, c)
    ensures Reported(log + d, c)
  {
    if Reported(log, c) {
      var o :| o in log && o.Report? && o.owner == Some(c);
      assert o in log + d;
    } else {
      var o :| o in d && o.Report? && o.owner == Some(c);
      assert o in log + d;
    }
  }

  lemma Regroup(a: seq<byte>, b: seq<byte>, n: nat, c: seq<byte>)
    requires n <= |b|
    ensures a + b[..n] + (b[n..] + c) == a + (b + c)
  {
    assert b == b[..n] + b[n..];
  }

  lemma LoudLoss(log: seq<Out>, bytes: seq<byte>)
    requires Loud(log, true)
    ensures Loud(log + [Lost(bytes)], true)
  {
    var t := log + [Lost(bytes)];
    forall i, j | 0 <= i && j == i + 1 < |t| && t[i].Lost? ensures Failed(t[j]) {
      if j < |log| { assert t[i] == log[i] && t[j] == log[j]; }
    }
  }

  lemma EmitNumbers(s: Line, n: nat, code: nat, first: nat)
    requires n <= |s.buffer|
    requires var ns := Collect(s.log, Number); ns == Counting(first, |ns|) && s.sequence == (first + |ns|) % WORD
    ensures var ns := Collect(s.log + Said(s, n, code), Number);
      && ns == Counting(first, |ns|)
      && (first + |ns|) % WORD == if s.pending != [] && s.pending[0].v2 then s.sequence else (s.sequence + 1) % WORD
  {
    hide Said, Collect, Counting, Loud, Reported;
    SaidFacts(s, n, code);
    CollectConcat(s.log, Said(s, n, code), Number);
    CountingMore(first, |Collect(s.log, Number)|);
  }

  /** Handing over keeps the books, provided a control command is closed by its one answer. */
  lemma EmitBooks(s: Line, n: nat, code: nat, close: bool, arrived: seq<byte>, sent: seq<Cmd>, first: nat)
    requires Books(s, arrived, sent, first)
    requires n <= |s.buffer| && (close ==> s.pending != [])
    requires s.pending != [] && s.pending[0].v2 ==> close
    requires s.overflow ==> code != 0
    ensures Books(Emit(s, n, code, close).(overflow := false), arrived, sent, first)
  {
    hide Emit, Loud, Collect, Reported, Counting, Said;
    var t := Emit(s, n, code, close);
    var d := Said(s, n, code);
    SaidFacts(s, n, code);
    EmitFields(s, n, code, close);
    EmitNumbers(s, n, code, first);
    CollectConcat(s.log, d, Payload);
    CollectConcat(s.log, d, AnsweredSlot);
    LoudOpen(s.log, s.overflow);
    LoudConcat(s.log, d);
    if close {
      CollectConcat(s.closed, [s.pending[0]], ControlSlot);
      CollectOne(s.pending[0], ControlSlot);
    }
    forall c | c in t.closed && !c.v2 ensures Reported(t.log, c) {
      ReportedStill(s.log, d, c);
    }
    Regroup(Collect(s.log, Payload), s.buffer, n, s.ring);
    assert Collect(t.log, Payload) + (t.buffer + t.ring) == arrived;
    assert Collect(t.log, AnsweredSlot) == Collect(t.closed, ControlSlot);
  }

  lemma LoudOpen(log: seq<Out>, overflow: bool)
    requires Loud(log, overflow)
    ensures Loud(log, true) && (!overflow ==> log == [] || !log[|log| - 1].Lost?)
  {
  }

  lemma EmitFields(s: Line, n: nat, code: nat, close: bool)
    requires n <= |s.buffer| && (close ==> s.pending != [])
    ensures var t := Emit(s, n, code, close);
      && t.log == s.log + Said(s, n, code)
      && t.buffer == s.buffer[n..] && t.ring == s.ring && t.overflow == s.overflow
      && t.chunked == s.chunked && t.lastRx == s.lastRx
      && t.pending == (if close then s.pending[1..] else s.pending)
      && t.closed == (if close then s.closed + [s.pending[0]] else s.closed)
      && t.closed + t.pending == s.closed + s.pending
      && t.sequence == (if s.pending != [] && s.pending[0].v2 then s.sequence else (s.sequence + 1) % WORD)
  {
  }

  // ---- Every operation -----------------------------------------------------------------------

  /** A control command without a read size is never closed by a boundary. */
  lemma BoundaryOwner(length: nat, pending: seq<Cmd>)
    requires Boundary(length, Owner(pending)) != 0
    ensures Boundary(length, Owner(pending)) <= length
    ensures pending != [] && pending[0].v2 ==> pending[0].read > 0
  {
  }

  lemma BufferedOpen(s: Line)
    requires Sound(s) && s.buffer != []
    ensures !s.overflow
  {
  }

  lemma ChunkSound(s: Line, n: nat)
    requires Sound(s) && 0 < n <= |s.buffer| && (s.pending != [] && s.pending[0].v2 ==> s.pending[0].read > 0)
    ensures Sound(EmitChunk(s, n)) && !EmitChunk(s, n).overflow
  {
    hide Said, Reported;
    var consume := s.pending != [] && s.pending[0].read > 0;
    EmitFields(s, n, 0, consume);
    SaidFacts(s, n, 0);
    if s.pending != [] && !s.pending[0].v2 {
      ReportedStill(s.log, Said(s, n, 0), s.pending[0]);
    }
  }

  lemma ChunkBooks(s: Line, n: nat, arrived: seq<byte>, sent: seq<Cmd>, first: nat)
    requires Books(s, arrived, sent, first) && Sound(s)
    requires n == Boundary(|s.buffer|, Owner(s.pending)) && n != 0
    ensures Books(EmitChunk(s, n), arrived, sent, first) && Sound(EmitChunk(s, n)) && !EmitChunk(s, n).overflow
  {
    hide Books, Sound, Boundary;
    BoundaryOwner(|s.buffer|, s.pending);
    BufferedOpen(s);
    ChunkSound(s, n);
    var consume := s.pending != [] && s.pending[0].read > 0;
    EmitBooks(s, n, 0, consume, arrived, sent, first);
    BooksOf(Emit(s, n, 0, consume).(overflow := false), EmitChunk(s, n), arrived, sent, first);
  }

  /** The books do not depend on the idle clock or the chunk flag. */
  lemma BooksOf(s: Line, t: Line, arrived: seq<byte>, sent: seq<Cmd>, first: nat)
    requires Books(s, arrived, sent, first)
    requires t == s.(chunked := t.chunked, lastRx := t.lastRx)
    ensures Books(t, arrived, sent, first)
  {
  }

  lemma {:induction false} ReadyBooks(s: Line, arrived: seq<byte>, sent: seq<Cmd>, first: nat)
    requires Books(s, arrived, sent, first) && Sound(s)
    ensures Books(EmitReady(s), arrived, sent, first) && Sound(EmitReady(s))
    ensures EmitReady(s).overflow == s.overflow && EmitReady(s).ring == s.ring
    decreases |s.buffer|
  {
    hide Books, Sound, EmitChunk;
    EmitReadyKeepsRing(s);
    var n := Boundary(|s.buffer|, Owner(s.pending));
    if n != 0 {
      ChunkBooks(s, n, arrived, sent, first);
      EmitChunkShrinks(s, n);
      ReadyBooks(EmitChunk(s, n), arrived, sent, first);
    }
  }

  /** Bytes taken out of the buffer and the driver and dropped: allowed, but the frame is marked. */
  lemma LoseBooks(s: Line, bytes: seq<byte>, keep: seq<byte>, arrived: seq<byte>, sent: seq<Cmd>, first: nat)
    requires Books(s, arrived, sent, first)
    requires s.buffer + s.ring == bytes + keep
    ensures Books(Lose(s, bytes).(buffer := [], ring := keep, overflow := true), arrived, sent, first)
  {
    hide Counting, Collect, Loud, Reported;
    var t := Lose(s, bytes);
    LoudOpen(s.log, s.overflow);
    if bytes != [] {
      var d := [Lost(bytes)];
      LoudLoss(s.log, bytes);
      CollectConcat(s.log, d, Payload); CollectConcat(s.log, d, AnsweredSlot); CollectConcat(s.log, d, Number);
      CollectOne(d[0], Payload); CollectOne(d[0], AnsweredSlot); CollectOne(d[0], Number);
      Associate(Collect(s.log, Payload), bytes, keep);
      forall c | c in s.closed && !c.v2 ensures Reported(t.log, c) { ReportedStill(s.log, d, c); }
    } else {
      assert s.log + [] == s.log && bytes + keep == keep;
    }
    assert [] + keep == keep;
  }

  lemma LoseSound(s: Line, bytes: seq<byte>, keep: seq<byte>)
    requires Sound(s)
    ensures Sound(Lose(s, bytes).(buffer := [], ring := keep, overflow := true))
  {
    if s.chunked { ReportedStill(s.log, Dropped(bytes), s.pending[0]); }
  }

  lemma AcceptBooks(s: Line, batch: seq<byte>, rest: seq<byte>, now: int, arrived: seq<byte>,
                    sent: seq<Cmd>, first: nat)
    requires Books(s, arrived, sent, first) && Sound(s) && s.ring == batch + rest
    ensures var t := Accept(s.(ring := rest), batch, now); Books(t, arrived, sent, first) && Sound(t)
  {
    hide Books, EmitReady;
    var u := s.(lastRx := now);
    BooksOf(s, u, arrived, sent, first);
    if s.overflow {
      assert u.buffer + u.ring == batch + rest;
      LoseBooks(u, batch, rest, arrived, sent, first);
      LoseSound(u, batch, rest);
    } else {
      if |u.buffer| + |batch| > STREAM_BUF {
        ReadyBooks(u, arrived, sent, first);
        ReadyIgnoresRing(u, rest);
        u := EmitReady(u);
      }
      if |u.buffer| + |batch| > STREAM_BUF {
        Associate(u.buffer, batch, rest);
        LoseBooks(u, u.buffer + batch, rest, arrived, sent, first);
        LoseSound(u, u.buffer + batch, rest);
      } else {
        BooksMove(u, batch, rest, arrived, sent, first);
        ReadyBooks(u.(buffer := u.buffer + batch, ring := rest), arrived, sent, first);
      }
    }
  }

  lemma BooksMove(s: Line, batch: seq<byte>, rest: seq<byte>, arrived: seq<byte>, sent: seq<Cmd>, first: nat)
    requires Books(s, arrived, sent, first) && s.ring == batch + rest
    ensures Books(s.(buffer := s.buffer + batch, ring := rest), arrived, sent, first)
  {
    Associate(s.buffer, batch, rest);
  }

  lemma {:induction false} ReadyIgnoresRing(s: Line, ring: seq<byte>)
    ensures EmitReady(s.(ring := ring)) == EmitReady(s).(ring := ring)
    decreases |s.buffer|
  {
    var n := Boundary(|s.buffer|, Owner(s.pending));
    if n != 0 {
      assert EmitChunk(s.(ring := ring), n) == EmitChunk(s, n).(ring := ring);
      ReadyIgnoresRing(EmitChunk(s, n), ring);
    }
  }

  lemma {:induction false} DrainBooks(s: Line, now: int, cap: nat, arrived: seq<byte>, sent: seq<Cmd>, first: nat)
    requires cap > 0 && Books(s, arrived, sent, first) && Sound(s)
    ensures var t := Drain(s, now, cap); Books(t, arrived, sent, first) && Sound(t) && t.ring == []
    decreases |s.ring|
  {
    hide Books, Sound, Accept;
    if s.ring != [] {
      var n := if |s.ring| < cap then |s.ring| else cap;
      AcceptKeepsRing(s.(ring := s.ring[n..]), s.ring[..n], now);
      assert s.ring == s.ring[..n] + s.ring[n..];
      AcceptBooks(s, s.ring[..n], s.ring[n..], now, arrived, sent, first);
      DrainBooks(Accept(s.(ring := s.ring[n..]), s.ring[..n], now), now, cap, arrived, sent, first);
    }
  }

  lemma ResetBooks(s: Line, code: nat, arrived: seq<byte>, sent: seq<Cmd>, first: nat)
    requires Books(s, arrived, sent, first) && Sound(s) && (s.overflow ==> code != 0)
    ensures var t := Reset(Emit(s, |s.buffer|, code, s.pending != [])); Books(t, arrived, sent, first) && Sound(t)
  {
    hide Emit, Books;
    var close := s.pending != [];
    EmitFields(s, |s.buffer|, code, close);
    EmitBooks(s, |s.buffer|, code, close, arrived, sent, first);
    var e := Emit(s, |s.buffer|, code, close).(overflow := false);
    BooksOf(e, Reset(e), arrived, sent, first);
  }

  lemma CloseBooks(s: Line, arrived: seq<byte>, sent: seq<Cmd>, first: nat)
    requires Books(s, arrived, sent, first) && Sound(s)
    ensures Books(EmitBuffered(s), arrived, sent, first) && Sound(EmitBuffered(s))
  {
    if Closes(s) {
      if !s.overflow && s.buffer == [] {
        CloseChunked(s, arrived, sent, first);
      } else {
        hide Books, Emit, Reported;
        ResetBooks(s, 2, arrived, sent, first);
        if !s.overflow {
          ResetBooks(s, 3, arrived, sent, first);
          ResetBooks(s, 0, arrived, sent, first);
        }
      }
    }
  }

  /** A chunked response that ends on a block boundary closes with no report of its own. */
  lemma CloseChunked(s: Line, arrived: seq<byte>, sent: seq<Cmd>, first: nat)
    requires Books(s, arrived, sent, first) && Sound(s) && !s.overflow && s.chunked
    ensures var t := Reset(s.(pending := s.pending[1..], closed := s.closed + [s.pending[0]]));
      Books(t, arrived, sent, first) && Sound(t)
  {
    hide Loud, Reported, Counting, Collect;
    CollectConcat(s.closed, [s.pending[0]], ControlSlot);
    CollectOne(s.pending[0], ControlSlot);
    assert s.closed + [s.pending[0]] + s.pending[1..] == s.closed + s.pending;
  }

  // ---- Runs ----------------------------------------------------------------------------------

  function BytesIn(e: Event): seq<byte> { if e.Arrive? then e.bytes else [] }

  function CmdsIn(e: Event): seq<Cmd> { if e.Send? then [e.cmd] else [] }

  function ArrivedBy(es: seq<Event>): seq<byte> {
    if es == [] then [] else BytesIn(es[0]) + ArrivedBy(es[1..])
  }

  function SentBy(es: seq<Event>): seq<Cmd> {
    if es == [] then [] else CmdsIn(es[0]) + SentBy(es[1..])
  }

  lemma StepBooks(s: Line, e: Event, cap: nat, arrived: seq<byte>, sent: seq<Cmd>, first: nat)
    requires cap > 0 && Books(s, arrived, sent, first) && Sound(s)
    ensures var t := Step(s, e, cap);
      Books(t, arrived + BytesIn(e), sent + CmdsIn(e), first) && Sound(t)
  {
    hide Emit, Collect, Reported, Loud, Counting;
    assert arrived + [] == arrived && sent + [] == sent;
    match e
    case Arrive(bytes) =>
      Associate(s.buffer, s.ring, bytes);
      Associate(Collect(s.log, Payload), s.buffer + s.ring, bytes);
    case Send(cmd) => Associate(s.closed, s.pending, [cmd]);
    case Overrun(now) =>
      assert s.buffer + s.ring == s.buffer + s.ring + [];
      LoseBooks(s, s.buffer + s.ring, [], arrived, sent, first);
      LoseSound(s, s.buffer + s.ring, []);
      var t := Lose(s, s.buffer + s.ring).(buffer := [], ring := [], overflow := true);
      BooksOf(t, t.(lastRx := now), arrived, sent, first);
    case Tick(now, hwPending) =>
      CloseBooks(s, arrived, sent, first);
      ResetBooks(CompleteIdle(s, now, hwPending), 1, arrived, sent, first);
    case Data(now, timeout) =>
      DrainBooks(s, now, cap, arrived, sent, first);
      CloseBooks(Drain(s, now, cap), arrived, sent, first);
    case Pattern(now) => DrainBooks(s, now, cap, arrived, sent, first);
    case LineStatus(now) => DrainBooks(s, now, cap, arrived, sent, first);
    case OtherEvent =>
  }

  lemma {:induction false} RunBooks(s: Line, es: seq<Event>, cap: nat, arrived: seq<byte>, sent: seq<Cmd>, first: nat)
    requires cap > 0 && Books(s, arrived, sent, first) && Sound(s)
    ensures var t := Run(s, es, cap);
      Books(t, arrived + ArrivedBy(es), sent + SentBy(es), first) && Sound(t)
    decreases |es|
  {
    hide Books, Sound, Step, BytesIn, CmdsIn;
    if es == [] {
      assert arrived + [] == arrived && sent + [] == sent;
    } else {
      StepBooks(s, es[0], cap, arrived, sent, first);
      Associate(arrived, BytesIn(es[0]), ArrivedBy(es[1..]));
      Associate(sent, CmdsIn(es[0]), SentBy(es[1..]));
      RunBooks(Step(s, es[0], cap), es[1..], cap, arrived + BytesIn(es[0]), sent + CmdsIn(es[0]), first);
    }
  }

  /**
   Over every run: the bytes handed over or dropped, then the bytes still waiting, are the bytes received;
   the commands closed, then those pending, are the commands sent; closed control commands have been
   answered once each, in order, and every other closed command reported on; reports are numbered
   consecutively modulo 2^32; and dropped bytes are never followed by a success.
   */
  lemma EveryRun(es: seq<Event>, cap: nat, first: nat)
    requires cap > 0 && first < WORD
    ensures var t := Run(Fresh(first), es, cap);
      && Collect(t.log, Payload) + (t.buffer + t.ring) == ArrivedBy(es)
      && t.closed + t.pending == SentBy(es)
      && Collect(t.log, AnsweredSlot) == Collect(t.closed, ControlSlot)
      && (forall c :: c in t.closed && !c.v2 ==> Reported(t.log, c))
      && Collect(t.log, Number) == Counting(first, |Collect(t.log, Number)|)
      && Loud(t.log, t.overflow) && |t.buffer| <= STREAM_BUF
  {
    hide Run;
    assert Books(Fresh(first), [], [], first) && Sound(Fresh(first));
    RunBooks(Fresh(first), es, cap, [], [], first);
    assert [] + ArrivedBy(es) == ArrivedBy(es) && [] + SentBy(es) == SentBy(es);
  }

  function HandedOver(o: Out): seq<byte> { if o.Lost? then [] else Payload(o) }

  lemma {:induction false} CollectSame(log: seq<Out>)
    requires forall o :: o in log ==> !o.Lost?
    ensures Collect(log, HandedOver) == Collect(log, Payload)
  {
    if log != [] {
      CollectSame(log[..|log| - 1]);
      assert !log[|log| - 1].Lost?;
    }
  }

  /** Nothing went wrong that anyone is told about, and no overflowed frame is open. */
  predicate Quiet(t: Line) {
    !t.overflow && forall o :: o in t.log ==> (o.Report? ==> o.code == 0) && (o.Answer? ==> o.ok)
  }

  lemma {:induction false} QuietKeepsAll(log: seq<Out>, i: nat)
    requires Loud(log, false) && i < |log|
    requires forall o :: o in log && !o.Lost? ==> !Failed(o)
    ensures !log[i].Lost?
    decreases |log| - i
  {
    if log[i].Lost? {
      assert Failed(log[i + 1]);
      QuietKeepsAll(log, i + 1);
    }
  }

  /**
   A run without overflow, timeout or short read loses nothing: when no report carries an error and no answer
   is a failure, what was handed over and what still waits are the bytes received.
   */
  lemma NothingLost(es: seq<Event>, cap: nat, first: nat)
    requires cap > 0 && first < WORD && Quiet(Run(Fresh(first), es, cap))
    ensures var t := Run(Fresh(first), es, cap);
      Collect(t.log, HandedOver) + (t.buffer + t.ring) == ArrivedBy(es)
  {
    hide Run;
    EveryRun(es, cap, first);
    var log := Run(Fresh(first), es, cap).log;
    forall o | o in log ensures !o.Lost? {
      var i :| 0 <= i < |log| && log[i] == o;
      QuietKeepsAll(log, i);
    }
    CollectSame(log);
  }

  // ---- When a passive stream is lost ---------------------------------------------------------

  predicate Passive(s: Line) { s.pending == [] && !s.overflow && |s.buffer| < FIXED_BLOCK }

  /** With nothing pending, whole blocks are handed over and the rest waits. */
  lemma PassiveAccept(s: Line, batch: seq<byte>, now: int)
    requires Passive(s) && |batch| <= FIXED_BLOCK
    ensures var t := Accept(s, batch, now);
      && t.pending == [] && t.ring == s.ring
      && (t.overflow <==> |s.buffer| + |batch| > STREAM_BUF)
      && (!t.overflow ==> Passive(t) && |t.buffer| == (|s.buffer| + |batch|) % FIXED_BLOCK)
  {
    AcceptKeepsRing(s, batch, now);
    var u := s.(lastRx := now);
    assert EmitReady(u) == u;
    var v := u.(buffer := u.buffer + batch);
    if |v.buffer| == FIXED_BLOCK {
      var w := EmitChunk(v, FIXED_BLOCK);
      assert w.buffer == [] && EmitReady(w) == w && EmitReady(v) == w;
    } else if |v.buffer| < FIXED_BLOCK {
      assert EmitReady(v) == v;
    }
  }

  lemma {:induction false} OverflowStays(s: Line, now: int, cap: nat)
    requires cap > 0 && s.overflow
    ensures Drain(s, now, cap).overflow
    decreases |s.ring|
  {
    if s.ring != [] {
      var n := if |s.ring| < cap then |s.ring| else cap;
      var t := Accept(s.(ring := s.ring[n..]), s.ring[..n], now);
      AcceptKeepsRing(s.(ring := s.ring[n..]), s.ring[..n], now);
      OverflowStays(t, now, cap);
    }
  }

  const RX_CAP := 256

  predicate Straddles(buffered: nat, burst: nat) { buffered % RX_CAP != 0 && buffered + burst > FIXED_BLOCK }

  lemma StraddlesNever(b: nat)
    requires b < FIXED_BLOCK
    ensures !Straddles(b, 0)
  {
  }

  lemma StraddlesNext(b: nat, l: nat)
    requires b < FIXED_BLOCK && l > 0
    ensures var n := if l < RX_CAP then l else RX_CAP;
      && (b + n > FIXED_BLOCK ==> Straddles(b, l))
      && (b + n <= FIXED_BLOCK ==> var c := (b + n) % FIXED_BLOCK;
            (Straddles(c, l - n) <==> Straddles(b, l)) && (c + (l - n)) % FIXED_BLOCK == (b + l) % FIXED_BLOCK)
  {
  }

  /**
   A burst read from a passive channel is lost exactly when it runs past the block boundary while the
   buffered bytes do not sit on a multiple of the read size; otherwise every whole block is handed over.
   */
  lemma {:induction false} PassiveBurst(s: Line, now: int)
    requires Passive(s)
    ensures var t := Drain(s, now, RX_CAP);
      && (t.overflow <==> Straddles(|s.buffer|, |s.ring|))
      && (!t.overflow ==> Passive(t) && |t.buffer| == (|s.buffer| + |s.ring|) % FIXED_BLOCK)
    decreases |s.ring|
  {
    hide Accept, Straddles;
    if s.ring == [] {
      assert !Straddles(|s.buffer|, 0) by { StraddlesNever(|s.buffer|); }
    } else {
      StraddlesNext(|s.buffer|, |s.ring|);
      var n := if |s.ring| < RX_CAP then |s.ring| else RX_CAP;
      var r := s.(ring := s.ring[n..]);
      var t := Accept(r, s.ring[..n], now);
      PassiveAccept(r, s.ring[..n], now);
      if t.overflow {
        OverflowStays(t, now, RX_CAP);
      } else {
        PassiveBurst(t, now);
      }
    }
  }

  lemma DrainTwice(s: Line, first: seq<byte>, rest: seq<byte>, now: int)
    requires s.ring == first + rest && |first| == RX_CAP && 0 < |rest| <= RX_CAP
    ensures Drain(s, now, RX_CAP) == Accept(Accept(s.(ring := rest), first, now).(ring := []), rest, now)
  {
    hide Accept;
    assert s.ring[..RX_CAP] == first && s.ring[RX_CAP..] == rest;
    var t := Accept(s.(ring := rest), first, now);
    AcceptKeepsRing(s.(ring := rest), first, now);
    AcceptKeepsRing(t.(ring := []), rest, now);
    assert rest[..|rest|] == rest && rest[|rest|..] == [];
    assert Drain(t, now, RX_CAP) == Drain(Accept(t.(ring := []), rest, now), now, RX_CAP);
  }

  /** With nothing pending, a batch that stays below a block waits; one that passes it costs all that waited. */
  lemma AcceptPassive(s: Line, batch: seq<byte>, now: int)
    requires s.pending == [] && batch != [] && |s.buffer| < FIXED_BLOCK
    ensures s.overflow ==> Accept(s, batch, now) == s.(log := s.log + [Lost(batch)], lastRx := now)
    ensures !s.overflow && |s.buffer| + |batch| < FIXED_BLOCK ==>
      Accept(s, batch, now) == s.(buffer := s.buffer + batch, lastRx := now)
    ensures !s.overflow && |s.buffer| + |batch| > STREAM_BUF ==>
      Accept(s, batch, now)
        == s.(log := s.log + [Lost(s.buffer + batch)], buffer := [], overflow := true, lastRx := now)
  {
    var u := s.(lastRx := now);
    assert EmitReady(u) == u;
    if |s.buffer| + |batch| < FIXED_BLOCK {
      var v := u.(buffer := s.buffer + batch);
      assert EmitReady(v) == v;
    }
  }

  /** Two bursts of 300 bytes with no idle gap between them: every byte of both is dropped. */
  lemma TwoBurstsLost(a: seq<byte>, b: seq<byte>, now: int)
    requires |a| == 300 && |b| == 300
    ensures var s := Drain(Fresh(0).(ring := a), now, RX_CAP);
      var t := Drain(s.(ring := b), now, RX_CAP);
      && !s.overflow && s.log == [] && s.buffer == a
      && t.overflow && t.buffer == [] && t.ring == []
      && Collect(t.log, Payload) == a + b && Collect(t.log, HandedOver) == []
  {
    hide Drain, Accept, Collect;
    var s0 := Fresh(0);
    var a1, a2, b1, b2 := a[..RX_CAP], a[RX_CAP..], b[..RX_CAP], b[RX_CAP..];
    assert a == a1 + a2 && b == b1 + b2 && [] + a1 == a1;
    DrainTwice(s0.(ring := a), a1, a2, now);
    AcceptPassive(s0.(ring := a2), a1, now);
    AcceptPassive(Accept(s0.(ring := a2), a1, now).(ring := []), a2, now);
    var s := Drain(s0.(ring := a), now, RX_CAP);
    DrainTwice(s.(ring := b), b1, b2, now);
    AcceptPassive(s.(ring := b2), b1, now);
    AcceptPassive(Accept(s.(ring := b2), b1, now).(ring := []), b2, now);
    assert Drain(s.(ring := b), now, RX_CAP).log == [Lost(a + b1)] + [Lost(b2)];
    CollectTwo(Lost(a + b1), Lost(b2), Payload);
    CollectTwo(Lost(a + b1), Lost(b2), HandedOver);
    Associate(a, b1, b2);
  }

  lemma CollectTwo<T>(x: Out, y: Out, f: Out -> seq<T>)
    ensures Collect([x] + [y], f) == f(x) + f(y)
  {
    CollectConcat([x], [y], f);
    CollectOne(x, f);
    CollectOne(y, f);
  }
}
