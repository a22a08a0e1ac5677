/**
 One UART channel of the receive task (esp32-collector/components/bus_worker/bus_worker.c): bytes are
 read from the driver in batches and gathered into frames, which close at a declared read size, at a
 fixed block, at a hardware timeout, or after an idle gap; pending commands own the frames in order.

 Besides the source's state the channel keeps what it hands over: `log` (reports and control finals,
 and the bytes it drops) and `closed` (the commands it takes off the pending queue).
 */
module UartReceive {
  import opened Wire

  const FIXED_BLOCK := 512
  const STREAM_BUF := 512
  const FINAL_MAX := 256
  const IDLE_US := 2000
  const WORD := 0x1_0000_0000

  /** A pending command; `read` is the declared length (0: unknown), `v2` sends its answer to a control slot. */
  datatype Cmd = Cmd(request: nat, read: nat, v2: bool, slot: nat, sentAt: int, timeoutMs: nat, route: nat)

  datatype Out =
    | Report(sequence: nat, data: seq<byte>, code: nat, owner: Option<Cmd>)
    | Answer(slot: nat, ok: bool, code: nat, raw: seq<byte>)
    | Lost(bytes: seq<byte>)

  /** `ring` is the driver's input buffer; `lastRx` is 0 when no bytes are waiting for an idle gap. */
  datatype Line = Line(ring: seq<byte>, buffer: seq<byte>, overflow: bool, lastRx: int, chunked: bool,
                       pending: seq<Cmd>, sequence: nat, log: seq<Out>, closed: seq<Cmd>)

  function Owner(pending: seq<Cmd>): Option<Cmd> { if pending == [] then None else Some(pending[0]) }

  /** `bus_rx_boundary_length`: how many buffered bytes may be handed over, 0 if more are needed. */
  function Boundary(buffered: nat, head: Option<Cmd>): (n: nat)
    ensures n <= buffered
    ensures n != 0 <==>
              buffered != 0 && buffered >= Wanted(head) && !(head.Some? && head.value.v2 && head.value.read == 0)
    ensures n != 0 ==> n == Wanted(head)
  {
    if buffered == 0 || (head.Some? && head.value.v2 && head.value.read == 0) then 0
    else if buffered >= Wanted(head) then Wanted(head) else 0
  }

  function Wanted(head: Option<Cmd>): (n: nat)
    ensures n > 0
  {
    if head.Some? && head.value.read > 0 then head.value.read else FIXED_BLOCK
  }

  function Dropped(bytes: seq<byte>): seq<Out> { if bytes == [] then [] else [Lost(bytes)] }

  /** `queue_control_final`: an answer that does not fit is replaced by an error. */
  function Final(slot: nat, code: nat, raw: seq<byte>): seq<Out> {
    if |raw| > FINAL_MAX then [Lost(raw), Answer(slot, false, 0x1005, [])]
    else [Answer(slot, code == 0, code, raw)]
  }

  /** Reports carry the channel's sequence number; control answers do not. */
  function NextSequence(s: Line): nat {
    if s.pending != [] && s.pending[0].v2 then s.sequence else (s.sequence + 1) % WORD
  }

  /** What is said about the first `n` buffered bytes: they are handed over, or dropped with an error. */
  function Said(s: Line, n: nat, code: nat): seq<Out>
    requires n <= |s.buffer|
  {
    var data := if code == 0 then s.buffer[..n] else [];
    (if code == 0 then [] else Dropped(s.buffer[..n]))
    + (if s.pending != [] && s.pending[0].v2 then Final(s.pending[0].slot, code, data)
       else [Report(NextSequence(s), data, code, Owner(s.pending))])
  }

  /** Hand over or drop the first `n` buffered bytes; `close` takes their owner off the pending queue. */
  function Emit(s: Line, n: nat, code: nat, close: bool): Line
    requires n <= |s.buffer| && (close ==> s.pending != [])
  {
    s.(buffer := s.buffer[n..], sequence := NextSequence(s), log := s.log + Said(s, n, code),
       pending := if close then s.pending[1..] else s.pending,
       closed := if close then s.closed + [s.pending[0]] else s.closed)
  }

  // ---- emit_ready_stream_chunks --------------------------------------------------------------

  function EmitChunk(s: Line, n: nat): Line
    requires 0 < n <= |s.buffer|
  {
    var consume := s.pending != [] && s.pending[0].read > 0;
    Emit(s, n, 0, consume).(
      chunked := s.chunked || (s.pending != [] && !consume),
      lastRx := if consume && n == |s.buffer| then 0 else s.lastRx)
  }

  lemma EmitChunkShrinks(s: Line, n: nat)
    requires 0 < n <= |s.buffer|
    ensures |EmitChunk(s, n).buffer| == |s.buffer| - n
  {
  }

  function EmitReady(s: Line): Line
    decreases |s.buffer|
  {
    var n := Boundary(|s.buffer|, Owner(s.pending));
    if n == 0 then s else EmitReady(EmitChunk(s, n))
  }

  // ---- rx_append_from_event ------------------------------------------------------------------

  function Lose(s: Line, bytes: seq<byte>): Line { s.(log := s.log + Dropped(bytes)) }

  /** One batch read from the driver.  A batch that does not fit invalidates the whole frame. */
  function Accept(s: Line, batch: seq<byte>, now: int): Line {
    var s := s.(lastRx := now);
    if s.overflow then Lose(s, batch)
    else
      var s := if |s.buffer| + |batch| > STREAM_BUF then EmitReady(s) else s;
      if |s.buffer| + |batch| > STREAM_BUF then
        Lose(s, s.buffer + batch).(buffer := [], overflow := true)
      else
        EmitReady(s.(buffer := s.buffer + batch))
  }

  /** Read the driver's buffer dry, at most `cap` bytes at a time. */
  function Drain(s: Line, now: int, cap: nat): Line
    requires cap > 0
    decreases |s.ring|
  {
    if s.ring == [] then s
    else
      var n := if |s.ring| < cap then |s.ring| else cap;
      AcceptKeepsRing(s.(ring := s.ring[n..]), s.ring[..n], now);
      Drain(Accept(s.(ring := s.ring[n..]), s.ring[..n], now), now, cap)
  }

  lemma EmitReadyKeepsRing(s: Line)
    ensures EmitReady(s).ring == s.ring && EmitReady(s).overflow == s.overflow
    decreases |s.buffer|
  {
    var n := Boundary(|s.buffer|, Owner(s.pending));
    if n != 0 { EmitReadyKeepsRing(EmitChunk(s, n)); }
  }

  lemma AcceptKeepsRing(s: Line, batch: seq<byte>, now: int)
    ensures Accept(s, batch, now).ring == s.ring
  {
    var t := s.(lastRx := now);
    EmitReadyKeepsRing(t);
    var u := if |t.buffer| + |batch| > STREAM_BUF then EmitReady(t) else t;
    EmitReadyKeepsRing(u.(buffer := u.buffer + batch));
  }

  // ---- emit_buffered_frame and its callers ---------------------------------------------------

  function Reset(s: Line): Line { s.(overflow := false, chunked := false, lastRx := 0) }

  /** Does the frame in the buffer close now?  An empty one closes only a chunked response. */
  predicate Closes(s: Line) {
    s.overflow || s.buffer != [] || (s.chunked && s.pending != [])
  }

  function CloseFrame(s: Line): Line
    requires Closes(s)
  {
    var pending := s.pending != [];
    if s.overflow then Reset(Emit(s, |s.buffer|, 2, pending))
    else if s.buffer == [] then
      Reset(s.(pending := s.pending[1..], closed := s.closed + [s.pending[0]]))
    else if pending && |s.buffer| < s.pending[0].read && !s.pending[0].v2 then
      Reset(Emit(s, |s.buffer|, 3, true))
    else Reset(Emit(s, |s.buffer|, 0, pending))
  }

  function EmitBuffered(s: Line): Line { if Closes(s) then CloseFrame(s) else s }

  predicate IdleElapsed(s: Line, now: int) { s.lastRx != 0 && now - s.lastRx >= IDLE_US }

  function CompleteIdle(s: Line, now: int, hwPending: bool): Line {
    if IdleElapsed(s, now) && !hwPending then EmitBuffered(s) else s
  }

  predicate TimedOut(s: Line, now: int) {
    s.pending != [] && s.pending[0].timeoutMs != 0 && s.pending[0].sentAt != 0
    && (now - s.pending[0].sentAt) / 1000 > s.pending[0].timeoutMs
  }

  function Expire(s: Line, now: int, hwPending: bool): Line {
    var s := CompleteIdle(s, now, hwPending);
    if TimedOut(s, now) then Reset(Emit(s, |s.buffer|, 1, true)) else s
  }

  // ---- The channel's events ------------------------------------------------------------------

  datatype Event =
    | Arrive(bytes: seq<byte>)                // the driver stores bytes
    | Send(cmd: Cmd)                          // a worker queues a command it has transmitted
    | Data(now: int, timeout: bool)           // UART_DATA, with the hardware frame boundary or without
    | Pattern(now: int)                       // UART_PATTERN_DET
    | LineStatus(now: int)                    // UART_BREAK, UART_PARITY_ERR, UART_FRAME_ERR
    | Overrun(now: int)                       // UART_FIFO_OVF, UART_BUFFER_FULL
    | OtherEvent
    | Tick(now: int, hwPending: bool)         // expire_uart_state

  function Step(s: Line, e: Event, cap: nat): Line
    requires cap > 0
  {
    match e
    case Arrive(bytes) => s.(ring := s.ring + bytes)
    case Send(cmd) => s.(pending := s.pending + [cmd])
    case Data(now, timeout) => var t := Drain(s, now, cap); if timeout then EmitBuffered(t) else t
    case Pattern(now) => Drain(s, now, cap)
    case LineStatus(now) => Drain(s, now, cap)
    case Overrun(now) => Lose(s, s.buffer + s.ring).(buffer := [], ring := [], overflow := true, lastRx := now)
    case OtherEvent => s
    case Tick(now, hwPending) => Expire(s, now, hwPending)
  }

  function Run(s: Line, es: seq<Event>, cap: nat): Line
    requires cap > 0
    decreases |es|
  {
    if es == [] then s else Run(Step(s, es[0], cap), es[1..], cap)
  }

  function Fresh(sequence: nat): Line { Line([], [], false, 0, false, [], sequence, [], []) }

  // ---- The receive task ----------------------------------------------------------------------

  class Channel {
    var ring: seq<byte>
    var buffer: seq<byte>
    var overflow: bool
    var lastRx: int
    var chunked: bool
    var pending: seq<Cmd>
    var sequence: nat
    var log: seq<Out>
    var closed: seq<Cmd>

    constructor (sequence: nat)
      ensures State() == Fresh(sequence)
    {
      ring, buffer, overflow, lastRx, chunked := [], [], false, 0, false;
      pending, this.sequence, log, closed := [], sequence, [], [];
    }

    function State(): Line
      reads this
    {
      Line(ring, buffer, overflow, lastRx, chunked, pending, sequence, log, closed)
    }

    /** `queue_control_final`. */
    method QueueFinal(slot: nat, code: nat, raw: seq<byte>)
      modifies this`log
      ensures log == old(log) + Final(slot, code, raw)
    {
      if |raw| > FINAL_MAX {
        log := log + [Lost(raw), Answer(slot, false, 0x1005, [])];
      } else {
        log := log + [Answer(slot, code == 0, code, raw)];
      }
    }

    /** `report_enqueue` with the channel's next sequence number. */
    method Enqueue(data: seq<byte>, code: nat, owner: Option<Cmd>)
      modifies this`log, this`sequence
      ensures sequence == (old(sequence) + 1) % WORD
      ensures log == old(log) + [Report(sequence, data, code, owner)]
    {
      sequence := (sequence + 1) % WORD;
      log := log + [Report(sequence, data, code, owner)];
    }

    /** Takes the head off the pending queue and wakes the sender waiting for it. */
    method Pop()
      requires pending != []
      modifies this`pending, this`closed
      ensures pending == old(pending)[1..] && closed == old(closed) + [old(pending)[0]]
    {
      closed, pending := closed + [pending[0]], pending[1..];
    }

    /** The error path shared by overflow, short read and timeout: report, drop the bytes, start afresh. */
    method FailFrame(code: nat)
      requires code != 0
      modifies this
      ensures State() == Reset(Emit(old(State()), |old(buffer)|, code, old(pending) != []))
    {
      assert buffer[..|buffer|] == buffer;
      var owner := Owner(pending);
      if pending != [] {
        Pop();
      }
      log := log + Dropped(buffer);
      if owner.Some? && owner.value.v2 {
        QueueFinal(owner.value.slot, code, []);
      } else {
        Enqueue([], code, owner);
      }
      buffer, overflow, chunked, lastRx := [], false, false, 0;
    }

    /** One turn of the loop below: hand over the first `target` bytes. */
    method EmitOne(target: nat)
      requires 0 < target <= |buffer|
      modifies this
      ensures State() == EmitChunk(old(State()), target)
    {
      var head := Owner(pending);
      var consume := head.Some? && head.value.read > 0;
      if head.Some? && head.value.v2 {
        QueueFinal(head.value.slot, 0, buffer[..target]);
      } else {
        Enqueue(buffer[..target], 0, head);
      }
      if consume {
        Pop();
      } else if head.Some? {
        chunked := true;
      }
      buffer := buffer[target..];
      if consume && buffer == [] {
        lastRx := 0;
      }
    }

    /** `emit_ready_stream_chunks`. */
    method EmitReadyChunks()
      modifies this
      ensures State() == EmitReady(old(State()))
    {
      hide EmitChunk, Boundary;
      while |buffer| > 0
        invariant EmitReady(State()) == EmitReady(old(State()))
        decreases |buffer|
      {
        var target := Boundary(|buffer|, Owner(pending));
        if target == 0 { return; }
        EmitChunkShrinks(State(), target);
        EmitOne(target);
      }
    }

    /** `bus_dma_read`. */
    method ReadDriver(cap: nat) returns (batch: seq<byte>)
      modifies this`ring
      ensures |batch| == if |old(ring)| < cap then |old(ring)| else cap
      ensures old(ring) == batch + ring
    {
      var n := if |ring| < cap then |ring| else cap;
      batch, ring := ring[..n], ring[n..];
    }

    /** What `rx_append_from_event` does with one batch. */
    method AcceptBatch(batch: seq<byte>, now: int)
      modifies this
      ensures State() == Accept(old(State()), batch, now)
    {
      hide EmitReady;
      lastRx := now;
      if overflow {
        log := log + Dropped(batch);
        return;
      }
      if |buffer| + |batch| > STREAM_BUF {
        EmitReadyChunks();
        if |buffer| + |batch| > STREAM_BUF {
          log := log + Dropped(buffer + batch);
          overflow, buffer := true, [];
          return;
        }
      }
      buffer := buffer + batch;
      EmitReadyChunks();
    }

    /** `rx_append_from_event`. */
    method RxAppend(now: int, cap: nat)
      requires cap > 0
      modifies this
      ensures State() == Drain(old(State()), now, cap)
    {
      hide Accept;
      while true
        invariant Drain(State(), now, cap) == Drain(old(State()), now, cap)
        decreases |ring|
      {
        ghost var before := State();
        var batch := ReadDriver(cap);
        assert before.ring[..|batch|] == batch && before.ring[|batch|..] == ring;
        if batch == [] { break; }
        AcceptKeepsRing(State(), batch, now);
        AcceptBatch(batch, now);
        if |batch| < cap { break; }
      }
    }

    /** `emit_buffered_frame`. */
    method EmitFrame() returns (done: bool)
      modifies this
      ensures done == Closes(old(State())) && State() == EmitBuffered(old(State())) && !Closes(State())
    {
      if overflow {
        FailFrame(2);
        return true;
      }
      if buffer == [] && chunked && pending != [] {
        Pop();
        chunked, lastRx := false, 0;
        return true;
      }
      if buffer == [] { return false; }
      if pending != [] && |buffer| < pending[0].read && !pending[0].v2 {
        FailFrame(3);
        return true;
      }
      assert buffer[..|buffer|] == buffer;
      var owner := Owner(pending);
      if owner.Some? && owner.value.v2 {
        QueueFinal(owner.value.slot, 0, buffer);
      } else {
        Enqueue(buffer, 0, owner);
      }
      if pending != [] {
        Pop();
      }
      buffer, chunked, lastRx := [], false, 0;
      return true;
    }

    /** `handle_uart_event`, while no batch plan owns the channel. */
    method HandleEvent(e: Event, cap: nat)
      requires cap > 0 && !e.Tick? && !e.Arrive? && !e.Send?
      modifies this
      ensures State() == Step(old(State()), e, cap)
    {
      match e
      case Data(now, timeout) =>
        RxAppend(now, cap);
        if timeout {
          var _ := EmitFrame();
        }
      case Pattern(now) => RxAppend(now, cap);
      case LineStatus(now) => RxAppend(now, cap);
      case Overrun(now) =>
        log := log + Dropped(buffer + ring);
        buffer, overflow, lastRx, ring := [], true, now, [];
      case _ =>
    }

    /** `expire_uart_state` for this channel. */
    method ExpireState(now: int, hwPending: bool)
      modifies this
      ensures State() == Expire(old(State()), now, hwPending)
    {
      if lastRx != 0 && now - lastRx >= IDLE_US && !hwPending {
        var _ := EmitFrame();
      }
      if pending != [] && pending[0].timeoutMs != 0 && pending[0].sentAt != 0
         && (now - pending[0].sentAt) / 1000 > pending[0].timeoutMs {
        FailFrame(1);
      }
    }
  }
}
