/**
 The transaction arena (esp32-collector/main/config_tx_arena_impl.h): a resident block handed out front to
 back in aligned pieces, with a canary in its last four bytes and a latch for a damaged canary.
 */
module TxArena {
  import opened Wire

  const BYTES := 4096
  const ALIGN := 16
  const USABLE := 4092
  const CANARY: seq<byte> := [0x00, 0xEE, 0xFF, 0xC0]

  /** `size_t` has 32 bits on the target. */
  const SIZES := 0x1_0000_0000

  /** The alignment step as computed: the addition wraps. */
  function Slot(n: nat): (a: nat)
    requires n < SIZES
    ensures a % ALIGN == 0
  {
    var sum := (n + (ALIGN - 1)) % SIZES;
    sum - sum % ALIGN
  }

  datatype State = State(mem: seq<byte>, cursor: nat, high: nat, inTx: bool, ready: bool, faulted: bool)

  predicate ValidState(s: State) { |s.mem| == BYTES && s.cursor <= USABLE }

  function Boot(mem: seq<byte>): State { State(mem, 0, 0, false, false, false) }

  predicate Intact(s: State)
    requires |s.mem| == BYTES
  {
    s.mem[USABLE..] == CANARY
  }

  /** `config_tx_arena_init`; `memOk` says whether the block could be obtained. */
  function Init(s: State, memOk: bool): (State, bool) {
    if s.faulted then (s, false)
    else if s.ready then (s, true)
    else if !memOk then (s, false)
    else (s.(mem := seq(BYTES, _ => 0), cursor := 0, high := 0, inTx := false, ready := true), true)
  }

  /** `config_tx_arena_begin`. */
  function Begin(s: State): (State, bool)
    requires ValidState(s)
  {
    if !s.ready || s.inTx then (s, false)
    else (s.(cursor := 0, mem := s.mem[..USABLE] + CANARY, inTx := true), true)
  }

  /** `config_tx_arena_end`. */
  function End(s: State): (State, bool)
    requires ValidState(s)
  {
    if !s.ready || !s.inTx then (s, true)
    else
      var t := s.(inTx := false, cursor := 0);
      if !Intact(s) then (t.(ready := false, faulted := true), false) else (t, true)
  }

  /** Where an allocation of `n` bytes lands, given the cursor. */
  function Place(cursor: nat, n: nat): Option<nat>
    requires n < SIZES
  {
    if n == 0 || cursor > USABLE || Slot(n) > USABLE - cursor then None else Some(cursor)
  }

  /** `config_tx_arena_alloc`: the offset handed out, if any. */
  function Alloc(s: State, n: nat): (State, Option<nat>)
    requires n < SIZES
  {
    if !s.ready || !s.inTx || Place(s.cursor, n).None? then (s, None)
    else
      var end := s.cursor + Slot(n);
      (s.(cursor := end, high := if end > s.high then end else s.high), Some(s.cursor))
  }

  /** `config_tx_arena_can_reserve`. */
  predicate CanReserve(s: State, n: nat)
    requires n < SIZES
  {
    s.ready && n != 0 && Slot(n) <= USABLE
  }

  // ---- The arena -----------------------------------------------------------------------------

  class Arena {
    const mem: array<byte>
    var cursor: nat
    var high: nat
    var inTx: bool
    var ready: bool
    var faulted: bool

    constructor ()
      ensures mem.Length == BYTES && fresh(mem) && Now() == Boot(mem[..])
    {
      mem := new byte[BYTES](_ => 0);
      cursor, high, inTx, ready, faulted := 0, 0, false, false, false;
    }

    function Now(): State
      reads this, mem
    {
      State(mem[..], cursor, high, inTx, ready, faulted)
    }

    method InitArena(memOk: bool) returns (ok: bool)
      requires mem.Length == BYTES
      modifies this, mem
      ensures (Now(), ok) == Init(old(Now()), memOk)
    {
      if faulted { return false; }
      if ready { return true; }
      if !memOk { return false; }
      forall i | 0 <= i < mem.Length { mem[i] := 0; }
      cursor, high, inTx, ready := 0, 0, false, true;
      assert mem[..] == seq(BYTES, _ => 0);
      ok := true;
    }

    method BeginTx() returns (ok: bool)
      requires ValidState(Now())
      modifies this, mem
      ensures (Now(), ok) == Begin(old(Now()))
    {
      if !ready || inTx { return false; }
      cursor := 0;
      mem[USABLE], mem[USABLE + 1], mem[USABLE + 2], mem[USABLE + 3] := CANARY[0], CANARY[1], CANARY[2], CANARY[3];
      assert mem[..] == old(mem[..])[..USABLE] + CANARY;
      inTx := true;
      ok := true;
    }

    method EndTx() returns (ok: bool)
      requires ValidState(Now())
      modifies this
      ensures (Now(), ok) == End(old(Now()))
    {
      if !ready { return true; }
      if !inTx { return true; }
      var canary := mem[USABLE..];
      assert canary == mem[..][USABLE..];
      inTx, cursor := false, 0;
      if canary != CANARY {
        ready, faulted := false, true;
        return false;
      }
      ok := true;
    }

    method AllocBlock(n: nat) returns (at: Option<nat>)
      requires ValidState(Now()) && n < SIZES
      modifies this
      ensures (Now(), at) == Alloc(old(Now()), n)
      ensures ValidState(Now())
    {
      if !ready || !inTx || n == 0 { return None; }
      var aligned := Slot(n);
      if cursor > USABLE || aligned > USABLE - cursor { return None; }
      at := Some(cursor);
      cursor := cursor + aligned;
      if cursor > high { high := cursor; }
    }
  }

  // ---- Blocks --------------------------------------------------------------------------------

  datatype Event = DoInit(memOk: bool) | DoBegin | DoEnd | DoAlloc(n: nat) | DoWrite(at: nat, value: byte)

  datatype Block = Block(at: nat, size: nat)

  /** A run also remembers the blocks of the current transaction and what each call returned. */
  datatype Tracked = Tracked(arena: State, blocks: seq<Block>, answers: seq<bool>)

  predicate ValidEvent(e: Event) {
    match e
    case DoAlloc(n) => n < SIZES
    case DoWrite(at, _) => at < BYTES
    case _ => true
  }

  function Step(t: Tracked, e: Event): Tracked
    requires ValidState(t.arena) && ValidEvent(e)
  {
    var s := t.arena;
    match e
    case DoInit(memOk) =>
      var r := Init(s, memOk);
      Tracked(r.0, if r.0 == s then t.blocks else [], t.answers + [r.1])
    case DoBegin => Tracked(Begin(s).0, if Begin(s).1 then [] else t.blocks, t.answers + [Begin(s).1])
    case DoEnd => Tracked(End(s).0, if s.inTx then [] else t.blocks, t.answers + [End(s).1])
    case DoAlloc(n) =>
      var r := Alloc(s, n);
      Tracked(r.0, if r.1.Some? then t.blocks + [Block(r.1.value, n)] else t.blocks, t.answers + [r.1.Some?])
    case DoWrite(at, value) => t.(arena := s.(mem := s.mem[at := value]))
  }

  /** Where the next block starts after these. */
  function Extent(blocks: seq<Block>): nat {
    if blocks == [] then 0
    else
      var b := blocks[|blocks| - 1];
      Extent(blocks[..|blocks| - 1]) + if b.size < SIZES then Slot(b.size) else 0
  }

  /** The blocks follow one another from the start of the arena to the cursor, short of the canary. */
  predicate Packed(t: Tracked) {
    && |t.arena.mem| == BYTES && t.arena.cursor <= USABLE && t.arena.cursor <= t.arena.high
    && (forall i :: 0 <= i < |t.blocks| ==>
          0 < t.blocks[i].size < SIZES && t.blocks[i].at == Extent(t.blocks[..i]))
    && t.arena.cursor == Extent(t.blocks)
    && (!t.arena.inTx ==> t.blocks == [])
    && (t.arena.inTx ==> t.arena.ready) && (t.arena.faulted ==> !t.arena.ready)
  }

  lemma AllocPacked(t: Tracked, n: nat)
    requires Packed(t) && n < SIZES
    ensures Packed(Step(t, DoAlloc(n)))
  {
    hide Slot, Extent;
    var u := Step(t, DoAlloc(n));
    if u.blocks != t.blocks {
      assert u.blocks[..|t.blocks|] == t.blocks;
      forall i | 0 <= i < |t.blocks| ensures u.blocks[..i] == t.blocks[..i] && u.blocks[i] == t.blocks[i] {}
      ExtentMore(t.blocks, u.blocks[|t.blocks|]);
    }
  }

  lemma ExtentMore(blocks: seq<Block>, b: Block)
    requires b.size < SIZES
    ensures Extent(blocks + [b]) == Extent(blocks) + Slot(b.size)
  {
    assert (blocks + [b])[..|blocks|] == blocks;
  }

  lemma StepPacked(t: Tracked, e: Event)
    requires Packed(t) && ValidEvent(e)
    ensures Packed(Step(t, e)) && (!e.DoInit? ==> Step(t, e).arena.high >= t.arena.high)
  {
    hide Slot, Extent;
    assert Extent([]) == 0 by { ExtentEmpty(); }
    if e.DoAlloc? { AllocPacked(t, e.n); }
  }

  lemma ExtentEmpty()
    ensures Extent([]) == 0
  {
  }

  // ---- Runs ----------------------------------------------------------------------------------

  predicate ValidEvents(es: seq<Event>) { forall e :: e in es ==> ValidEvent(e) }

  function Run(t: Tracked, es: seq<Event>): Tracked
    requires Packed(t) && ValidEvents(es)
    decreases |es|
  {
    if es == [] then t
    else
      StepPacked(t, es[0]);
      Run(Step(t, es[0]), es[1..])
  }

  lemma {:induction false} RunPacked(t: Tracked, es: seq<Event>)
    requires Packed(t) && ValidEvents(es)
    ensures Packed(Run(t, es))
    decreases |es|
  {
    hide Packed, Step;
    if es != [] {
      PackedShape(t);
      StepPacked(t, es[0]);
      RunPacked(Step(t, es[0]), es[1..]);
    }
  }

  /** The arena before anything is called. */
  function Booted(mem: seq<byte>): (t: Tracked)
    requires |mem| == BYTES
    ensures Packed(t) && Guarded(t)
  {
    Tracked(Boot(mem), [], [])
  }

  // ---- The size that wraps -------------------------------------------------------------------

  /** A slot holds what was asked for unless the aligned size exceeds what `size_t` can express. */
  lemma SlotCovers(n: nat)
    requires n < SIZES
    ensures n <= Slot(n) < n + 16 && Slot(n) % 16 == 0 <==> n <= 0x1_0000_0000 - 16
    ensures n > 0x1_0000_0000 - 16 ==> Slot(n) == 0
  {
  }

  /** A request is granted at the cursor exactly when it asks for something and, rounded up to 16 bytes, still fits
      below the last four of the 4096 bytes; the cursor moves behind it.  Otherwise nothing changes. */
  lemma AllocMeans(s: State, n: nat)
    requires ValidState(s) && n <= 0x1_0000_0000 - 16
    ensures var size := 16 * ((n + 15) / 16);
      Alloc(s, n) ==
        if s.ready && s.inTx && 0 < n && s.cursor + size <= 4092
        then (s.(cursor := s.cursor + size, high := if s.cursor + size > s.high then s.cursor + size else s.high),
              Some(s.cursor))
        else (s, None)
  {
    assert Slot(n) == 16 * ((n + 15) / 16);
  }

  /** Such a request is granted at the cursor, which does not move: the next block starts at the same place. */
  lemma WrappedSharesAddress(s: State, n: nat, m: nat)
    requires ValidState(s) && s.ready && s.inTx
    requires SIZES - ALIGN < n < SIZES && 0 < m <= USABLE - s.cursor - ALIGN
    ensures Alloc(s, n) == (s.(high := Alloc(s, n).0.high), Some(s.cursor))
    ensures Alloc(Alloc(s, n).0, m).1 == Some(s.cursor)
  {
    SlotCovers(n);
    SlotCovers(m);
  }

  // ---- Blocks do not overlap -----------------------------------------------------------------

  lemma ExtentLast(blocks: seq<Block>)
    requires blocks != [] && blocks[|blocks| - 1].size < SIZES
    ensures var n := |blocks| - 1;
      Extent(blocks) == Extent(blocks[..n]) + Slot(blocks[n].size) && Slot(blocks[n].size) % ALIGN == 0
  {
  }

  lemma {:induction false} ExtentGrows(blocks: seq<Block>, i: nat)
    requires i < |blocks| && forall k :: 0 <= k < |blocks| ==> blocks[k].size < SIZES
    ensures Extent(blocks[..i]) % ALIGN == 0
    ensures Extent(blocks[..i]) + Slot(blocks[i].size) <= Extent(blocks)
    decreases |blocks|
  {
    hide Slot, Extent;
    var n := |blocks| - 1;
    var head := blocks[..n];
    ExtentLast(blocks);
    if i < n {
      ExtentGrows(head, i);
      assert head[..i] == blocks[..i];
    } else {
      ExtentAligned(head);
    }
  }

  lemma {:induction false} ExtentAligned(blocks: seq<Block>)
    requires forall k :: 0 <= k < |blocks| ==> blocks[k].size < SIZES
    ensures Extent(blocks) % ALIGN == 0
    decreases |blocks|
  {
    hide Slot, Extent;
    if blocks == [] {
      ExtentEmpty();
    } else {
      ExtentLast(blocks);
      ExtentAligned(blocks[..|blocks| - 1]);
    }
  }

  /** All blocks of a transaction are aligned, pairwise disjoint, and clear of the canary. */
  lemma BlocksApart(t: Tracked, i: nat, j: nat)
    requires Packed(t) && i < |t.blocks| && j < |t.blocks|
    ensures t.blocks[i].at % ALIGN == 0 && t.blocks[i].at + Slot(t.blocks[i].size) <= t.arena.cursor <= USABLE
    ensures i < j ==> t.blocks[i].at + Slot(t.blocks[i].size) <= t.blocks[j].at
  {
    hide Slot, Extent;
    ExtentGrows(t.blocks, i);
    if i < j {
      ExtentGrows(t.blocks[..j], i);
      assert t.blocks[..j][..i] == t.blocks[..i];
    }
  }

  /**
   After every run from boot the blocks of the current transaction are aligned, start in order and do not
   overlap, and lie below the canary: all the bytes asked for, exactly when the size did not wrap.
   */
  lemma BlocksApartInEveryRun(mem: seq<byte>, es: seq<Event>, i: nat, j: nat)
    requires |mem| == BYTES && ValidEvents(es)
    requires var blocks := Run(Booted(mem), es).blocks; i < |blocks| && j < |blocks|
    ensures var t := Run(Booted(mem), es);
      var a, b := t.blocks[i], t.blocks[j];
      && a.at % 16 == 0 && a.at <= t.arena.cursor <= 4092
      && (a.at + a.size <= 4092 <==> a.size <= 0x1_0000_0000 - 16)
      && (i < j ==> a.at <= b.at && (a.size <= 0x1_0000_0000 - 16 ==> a.at + a.size <= b.at))
  {
    hide Slot, Extent, Packed, Step;
    RunPacked(Booted(mem), es);
    var t := Run(Booted(mem), es);
    SizesOfPacked(t, i);
    BlocksApart(t, i, j);
    SlotCovers(t.blocks[i].size);
    assert SIZES - ALIGN >= USABLE;
  }

  lemma SizesOfPacked(t: Tracked, i: nat)
    requires Packed(t) && i < |t.blocks|
    ensures 0 < t.blocks[i].size < SIZES
  {
  }

  // ---- The canary ----------------------------------------------------------------------------

  /** The client writes inside a block it was given, and asks for no size that wraps. */
  predicate Honest(t: Tracked, e: Event) {
    match e
    case DoWrite(at, _) => exists i :: 0 <= i < |t.blocks| && t.blocks[i].at <= at < t.blocks[i].at + t.blocks[i].size
    case DoAlloc(n) => n <= SIZES - ALIGN
    case _ => true
  }

  predicate Guarded(t: Tracked) {
    && Packed(t) && (t.arena.inTx ==> Intact(t.arena)) && !t.arena.faulted
    && forall b :: b in t.blocks ==> b.size <= SIZES - ALIGN
  }

  /** Honest use never damages the canary, so every transaction ends well and the arena never latches. */
  lemma HonestKeepsCanary(t: Tracked, e: Event)
    requires Guarded(t) && ValidEvent(e) && Honest(t, e)
    ensures Guarded(Step(t, e)) && (e.DoEnd? ==> End(t.arena).1)
  {
    hide Slot, Extent, Packed;
    StepPacked(t, e);
    PackedShape(t);
    match e
    case DoWrite(at, value) =>
      HonestWrite(t, at, value);
    case DoBegin => assert (t.arena.mem[..USABLE] + CANARY)[USABLE..] == CANARY;
    case _ =>
  }

  lemma PackedShape(t: Tracked)
    requires Packed(t)
    ensures ValidState(t.arena) && (!t.arena.inTx ==> t.blocks == []) && (t.arena.inTx ==> t.arena.ready)
  {
  }

  lemma HonestWrite(t: Tracked, at: nat, value: byte)
    requires Guarded(t) && at < BYTES && Honest(t, DoWrite(at, value))
    ensures t.arena.mem[at := value][USABLE..] == t.arena.mem[USABLE..]
  {
    hide Slot, Extent;
    var i :| 0 <= i < |t.blocks| && t.blocks[i].at <= at < t.blocks[i].at + t.blocks[i].size;
    assert t.blocks[i] in t.blocks;
    BlocksApart(t, i, i);
    SlotCovers(t.blocks[i].size);
  }

  predicate HonestRun(t: Tracked, es: seq<Event>)
    requires Packed(t)
    decreases |es|
  {
    if es == [] then true
    else
      ValidEvent(es[0]) && Honest(t, es[0]) && (StepPacked(t, es[0]); HonestRun(Step(t, es[0]), es[1..]))
  }

  lemma {:induction false} HonestRunsEndWell(t: Tracked, es: seq<Event>)
    requires Guarded(t) && ValidEvents(es) && HonestRun(t, es)
    ensures Guarded(Run(t, es))
    decreases |es|
  {
    hide Honest, Step;
    if es != [] {
      HonestKeepsCanary(t, es[0]);
      StepPacked(t, es[0]);
      HonestRunsEndWell(Step(t, es[0]), es[1..]);
    }
  }

  /** From boot, honest use never trips the latch, however long it goes on. */
  lemma HonestFromBoot(mem: seq<byte>, es: seq<Event>)
    requires |mem| == BYTES && ValidEvents(es) && HonestRun(Booted(mem), es)
    ensures Guarded(Run(Booted(mem), es))
  {
    HonestRunsEndWell(Booted(mem), es);
  }

  predicate Asks(e: Event) { e.DoInit? || e.DoBegin? || e.DoAlloc? }

  lemma FaultStep(t: Tracked, e: Event)
    requires Packed(t) && t.arena.faulted && ValidEvent(e)
    ensures Step(t, e).arena.faulted && Step(t, e).blocks == t.blocks
    ensures Asks(e) ==> Step(t, e).answers == t.answers + [false]
  {
    hide Slot, Extent;
  }

  /** Once a damaged canary has been noticed, every later initialisation, begin and allocation fails. */
  lemma {:induction false} FaultSticks(t: Tracked, es: seq<Event>, k: nat)
    requires Packed(t) && t.arena.faulted && ValidEvents(es) && k < |es|
    ensures ValidEvents(es[..k]) && Packed(Run(t, es[..k]))
    ensures var u := Run(t, es[..k]);
      && u.arena.faulted && u.blocks == t.blocks
      && (Asks(es[k]) ==> Step(u, es[k]).answers == u.answers + [false])
    decreases k
  {
    hide Packed, Step, Asks;
    PackedShape(t);
    RunPacked(t, es[..k]);
    FaultStep(t, es[0]);
    if k > 0 {
      StepPacked(t, es[0]);
      assert es[..k][1..] == es[1..][..k - 1] && es[1..][k - 1] == es[k];
      FaultSticks(Step(t, es[0]), es[1..], k - 1);
      assert Run(t, es[..k]) == Run(Step(t, es[0]), es[1..][..k - 1]);
    }
  }

  /** Allocations neither look at the memory nor write it. */
  lemma {:induction false} AllocsIgnoreMemory(s: State, mem: seq<byte>, ns: seq<nat>)
    requires ValidState(s) && s.ready && s.inTx && AllSizes(ns)
    ensures AllocAll(s.(mem := mem), ns).1 == AllocAll(s, ns).1
    ensures var u := AllocAll(s, ns).0;
      ValidState(u) && u.mem == s.mem && u.ready && u.inTx && u.faulted == s.faulted
    decreases |ns|
  {
    hide Slot;
    if ns != [] { AllocsIgnoreMemory(Alloc(s, ns[0]).0, mem, ns[1..]); }
  }

  /**
   Damage inside a transaction goes unnoticed by every allocation, and is noticed at the end: the transaction
   ends well exactly when the canary is intact, and otherwise the arena latches.
   */
  lemma DamageNoticedAtEnd(s: State, mem: seq<byte>, ns: seq<nat>)
    requires ValidState(s) && |mem| == BYTES && s.ready && s.inTx && !s.faulted && AllSizes(ns)
    ensures var d := s.(mem := mem);
      var u := AllocAll(d, ns).0;
      && AllocAll(d, ns).1 == AllocAll(s, ns).1
      && ValidState(u) && (End(u).1 <==> mem[4092..] == [0x00, 0xEE, 0xFF, 0xC0])
      && (End(u).0.faulted <==> mem[4092..] != [0x00, 0xEE, 0xFF, 0xC0])
      && ValidState(End(u).0) && (Begin(End(u).0).1 <==> mem[4092..] == [0x00, 0xEE, 0xFF, 0xC0])
  {
    hide Alloc;
    AllocsIgnoreMemory(s, mem, ns);
    AllocsIgnoreMemory(s.(mem := mem), mem, ns);
  }

  /** Damage done outside a transaction is covered up by the next one. */
  lemma DamageOutsideCovered(s: State)
    requires ValidState(s) && s.ready && !s.inTx
    ensures Intact(Begin(s).0) && End(Begin(s).0).1
  {
    assert (s.mem[..USABLE] + CANARY)[USABLE..] == CANARY;
  }

  // ---- The high-water mark -------------------------------------------------------------------

  /** The highest the cursor gets in a run. */
  function Peak(t: Tracked, es: seq<Event>): nat
    requires Packed(t) && ValidEvents(es)
    decreases |es|
  {
    if es == [] then t.arena.cursor
    else
      StepPacked(t, es[0]);
      var rest := Peak(Step(t, es[0]), es[1..]);
      if rest < t.arena.cursor then t.arena.cursor else rest
  }

  /** The mark is what it says: from a fresh mark on, the highest the cursor has been. */
  lemma {:induction false} HighIsPeak(t: Tracked, es: seq<Event>)
    requires Packed(t) && ValidEvents(es) && (t.arena.ready || t.arena.faulted || t.arena.high == 0)
    ensures var u, peak := Run(t, es), Peak(t, es);
      u.arena.high == if t.arena.high < peak then peak else t.arena.high
    decreases |es|
  {
    hide Slot, Extent;
    if es != [] {
      StepPacked(t, es[0]);
      HighStep(t, es[0]);
      hide Packed, Step;
      HighIsPeak(Step(t, es[0]), es[1..]);
    }
  }

  lemma HighStep(t: Tracked, e: Event)
    requires Packed(t) && ValidEvent(e) && (t.arena.ready || t.arena.faulted || t.arena.high == 0)
    ensures var u := Step(t, e).arena;
      && (u.ready || u.faulted || u.high == 0) && t.arena.cursor <= t.arena.high
      && u.high == if t.arena.high < u.cursor then u.cursor else t.arena.high
  {
    hide Slot, Extent;
  }

  // ---- Equal requests, equal addresses -------------------------------------------------------

  predicate AllSizes(ns: seq<nat>) { forall i :: 0 <= i < |ns| ==> ns[i] < SIZES }

  function AllocAll(s: State, ns: seq<nat>): (State, seq<Option<nat>>)
    requires AllSizes(ns)
    decreases |ns|
  {
    if ns == [] then (s, [])
    else
      var r := Alloc(s, ns[0]);
      var rest := AllocAll(r.0, ns[1..]);
      (rest.0, [r.1] + rest.1)
  }

  lemma {:induction false} EqualAddresses(s: State, t: State, ns: seq<nat>)
    requires s.ready && s.inTx && t.ready && t.inTx && s.cursor == t.cursor && AllSizes(ns)
    ensures AllocAll(s, ns).1 == AllocAll(t, ns).1
    decreases |ns|
  {
    hide Slot;
    if ns != [] { EqualAddresses(Alloc(s, ns[0]).0, Alloc(t, ns[0]).0, ns[1..]); }
  }

  /** Whatever came before, a transaction hands the same requests the same addresses. */
  lemma Reproducible(s: State, t: State, ns: seq<nat>)
    requires ValidState(s) && ValidState(t) && s.ready && t.ready && !s.inTx && !t.inTx
    requires AllSizes(ns)
    ensures AllocAll(Begin(s).0, ns).1 == AllocAll(Begin(t).0, ns).1
  {
    EqualAddresses(Begin(s).0, Begin(t).0, ns);
  }

  /** `can_reserve` promises exactly that the first allocation of the next transaction succeeds. */
  lemma CanReserveExact(s: State, n: nat)
    requires ValidState(s) && !s.inTx && n < SIZES
    ensures CanReserve(s, n) <==> Alloc(Begin(s).0, n).1.Some?
  {
  }
}
