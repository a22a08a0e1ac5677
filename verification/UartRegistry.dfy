/**
 The registry of resident UART drivers (esp32-collector/components/bus_dma/bus_dma.c): a driver is
 installed once, leased by any number of channels with the same pins and baud rate, reconfigured in place
 while nobody leases it, and deleted only by an explicit teardown.
 */
module UartRegistry {
  import opened Wire

  const SLOTS := 3

  /** `start`: the first slot not reserved for the console; `max`: the number of controllers. */
  datatype Chip = Chip(start: nat, max: nat)

  predicate ValidChip(c: Chip) { c.start <= 1 && 0 < c.max <= SLOTS }

  /** What a channel asks for, and what it gets. */
  datatype Line = Line(tx: nat, rx: nat, baud: nat)

  /** A slot; `port` is `max` when it is free. */
  datatype Entry = Entry(port: nat, line: Line, refs: nat, installed: bool, leased: bool)

  /** A channel that owns a lease. */
  datatype Lease = Lease(port: nat, line: Line)

  datatype Err = Ok | InvalidArg | InvalidState | NotSupported | NoMem | Failed

  /**
   One request.  `preferred` is the controller asked for, if any; `derived` the one the profile's default pins
   name (`max` when none); the flags are what the driver calls will answer.
   */
  datatype Request = Request(line: Line, preferred: Option<nat>, derived: nat, pinsOk: bool, uart0Ok: bool,
                             reconfigures: bool, installs: bool)

  /** `deleted` lists the controllers whose driver has been deleted. */
  datatype State = State(ports: seq<Entry>, leases: seq<Lease>, deleted: seq<nat>)

  function FreeEntry(c: Chip): Entry { Entry(c.max, Line(0, 0, 0), 0, false, false) }

  function Fresh(c: Chip): State { State([FreeEntry(c), FreeEntry(c), FreeEntry(c)], [], []) }

  // ---- Looking up a slot ---------------------------------------------------------------------

  /** The first slot from `from` on that satisfies the predicate. */
  function First(ports: seq<Entry>, from: nat, p: Entry -> bool): (r: Option<nat>)
    ensures r.Some? ==> from <= r.value < |ports| && p(ports[r.value])
                        && forall i :: from <= i < r.value ==> !p(ports[i])
    ensures r.None? ==> forall i :: from <= i < |ports| ==> !p(ports[i])
    decreases |ports| - from
  {
    if from >= |ports| then None
    else if p(ports[from]) then Some(from)
    else First(ports, from + 1, p)
  }

  function FindPort(c: Chip, ports: seq<Entry>, line: Line): Option<nat> {
    First(ports, 0, (e: Entry) => e.port != c.max && e.line == line)
  }

  function FindInstalled(ports: seq<Entry>, port: nat): Option<nat> {
    First(ports, 0, (e: Entry) => e.port == port && e.installed)
  }

  function FindIdle(c: Chip, ports: seq<Entry>): Option<nat> {
    First(ports, c.start, (e: Entry) => e.port != c.max && e.installed && !e.leased)
  }

  function FindFree(c: Chip, ports: seq<Entry>): Option<nat> {
    First(ports, c.start, (e: Entry) => e.port == c.max)
  }

  function FindTaken(ports: seq<Entry>, port: nat): Option<nat> {
    First(ports, 0, (e: Entry) => e.port == port)
  }

  // ---- The operations ------------------------------------------------------------------------

  datatype Choice = Port(port: nat) | NoPort(err: Err)

  /** `uart_select_port`: a free slot's index doubles as the number of the controller to install. */
  function Select(c: Chip, ports: seq<Entry>, q: Request): Choice {
    var port := if q.preferred.Some? then q.preferred.value else q.derived;
    if q.preferred.Some? && port >= c.max then NoPort(NotSupported)
    else if q.preferred.Some? && port == 0 && !q.uart0Ok then NoPort(NotSupported)
    else if port < c.max then
      if FindTaken(ports, port).Some? then NoPort(InvalidState) else Port(port)
    else if FindIdle(c, ports).Some? then Port(ports[FindIdle(c, ports).value].port)
    else
      var free := FindFree(c, ports);
      if free.Some? && free.value < c.max then Port(free.value) else NoPort(NoMem)
  }

  /** A new lease on slot `i`. */
  function Grant(s: State, i: nat, line: Line): State
    requires i < |s.ports|
  {
    var e := s.ports[i];
    s.(ports := s.ports[i := e.(refs := e.refs + 1, leased := true)], leases := s.leases + [Lease(e.port, line)])
  }

  /** `uart_reconfigure` and the lease that follows. */
  function Remap(s: State, i: nat, q: Request): (State, Err)
    requires i < |s.ports|
  {
    if !q.reconfigures then (s, Failed)
    else (Grant(s.(ports := s.ports[i := s.ports[i].(line := q.line)]), i, q.line), Ok)
  }

  /** `uart_install_new`. */
  function Install(c: Chip, s: State, port: nat, q: Request): (State, Err) {
    if !q.installs then (s, Failed)
    else
      var free := FindFree(c, s.ports);
      if free.None? then (s.(deleted := s.deleted + [port]), NoMem)
      else (s.(ports := s.ports[free.value := Entry(port, q.line, 0, true, false)]), Ok)
  }

  /** `uart_port_acquire`. */
  function Acquire(c: Chip, s: State, q: Request): (State, Err) {
    var found := FindPort(c, s.ports, q.line);
    if !q.pinsOk then (s, InvalidArg)
    else if found.Some? && s.ports[found.value].installed then
      if q.preferred.Some? && s.ports[found.value].port != q.preferred.value then (s, InvalidState)
      else (Grant(s, found.value, q.line), Ok)
    else if q.preferred.Some? && FindInstalled(s.ports, q.preferred.value).Some? then
      var i := FindInstalled(s.ports, q.preferred.value).value;
      if s.ports[i].leased || s.ports[i].refs > 0 then (s, InvalidState) else Remap(s, i, q)
    else
      match Select(c, s.ports, q)
      case NoPort(err) => (s, err)
      case Port(port) =>
        var resident := FindInstalled(s.ports, port);
        if resident.Some? then Remap(s, resident.value, q)
        else
          var t := Install(c, s, port, q);
          if t.1 != Ok then t
          else
            var i := FindInstalled(t.0.ports, port);
            if i.None? then (t.0.(deleted := t.0.deleted + [port]), Failed)
            else (Grant(t.0, i.value, q.line), Ok)
  }

  /** `bus_dma_uart_preinstall`. */
  function Preinstall(c: Chip, s: State, q: Request): (State, Err) {
    var found := FindPort(c, s.ports, q.line);
    if !q.pinsOk then (s, InvalidArg)
    else if found.Some? && s.ports[found.value].installed then (s, Ok)
    else if q.preferred.Some? && FindInstalled(s.ports, q.preferred.value).Some? then (s, Ok)
    else if FindIdle(c, s.ports).Some? then (s, Ok)
    else
      match Select(c, s.ports, q)
      case NoPort(err) => (s, err)
      case Port(port) => if FindInstalled(s.ports, port).Some? then (s, Ok) else Install(c, s, port, q)
  }

  /** `bus_dma_deinit` of the `k`-th channel: the lease goes, the driver stays. */
  function Release(s: State, k: nat): State {
    if k >= |s.leases| then s
    else
      var lease := s.leases[k];
      var t := s.(leases := s.leases[..k] + s.leases[k + 1..]);
      match FindInstalled(s.ports, lease.port)
      case None => t
      case Some(i) =>
        var e := s.ports[i];
        var refs := if e.refs > 0 then e.refs - 1 else 0;
        t.(ports := s.ports[i := e.(refs := refs, leased := e.leased && refs > 0)])
  }

  /** `bus_dma_uart_teardown`. */
  function Teardown(c: Chip, s: State, port: nat, deletes: bool): (State, Err) {
    match FindInstalled(s.ports, port)
    case None => (s, Ok)
    case Some(i) =>
      if s.ports[i].leased || s.ports[i].refs > 0 then (s, InvalidState)
      else if !deletes then (s, Failed)
      else (s.(ports := s.ports[i := s.ports[i].(port := c.max, installed := false, leased := false, refs := 0)],
               deleted := s.deleted + [port]), Ok)
  }

  datatype Event =
    | Lend(q: Request)
    | Prepare(q: Request)
    | GiveBack(k: nat)
    | Remove(port: nat, deletes: bool)

  function Step(c: Chip, s: State, e: Event): State {
    match e
    case Lend(q) => Acquire(c, s, q).0
    case Prepare(q) => Preinstall(c, s, q).0
    case GiveBack(k) => Release(s, k)
    case Remove(port, deletes) => Teardown(c, s, port, deletes).0
  }

  function Run(c: Chip, s: State, es: seq<Event>): State
    decreases |es|
  {
    if es == [] then s else Run(c, Step(c, s, es[0]), es[1..])
  }

  // ---- The registry --------------------------------------------------------------------------

  class Registry {
    const chip: Chip
    const ports: array<Entry>
    ghost var leases: seq<Lease>
    ghost var deleted: seq<nat>

    constructor (chip: Chip)
      requires ValidChip(chip)
      ensures this.chip == chip && Valid() && fresh(ports) && Now() == Fresh(chip)
    {
      this.chip := chip;
      ports := new Entry[SLOTS](_ => FreeEntry(chip));
      leases, deleted := [], [];
      new;
      assert ports[..] == Fresh(chip).ports;
    }

    predicate Valid() { ports.Length == SLOTS && ValidChip(chip) }

    ghost function Now(): State
      reads this, ports
    {
      State(ports[..], leases, deleted)
    }

    /** `uart_find_port`. */
    method PortWith(line: Line) returns (r: Option<nat>)
      ensures r == FindPort(chip, ports[..], line)
    {
      var i := 0;
      ghost var p := (e: Entry) => e.port != chip.max && e.line == line;
      while i < ports.Length
        invariant i <= ports.Length && First(ports[..], 0, p) == First(ports[..], i, p)
      {
        if ports[i].port != chip.max && ports[i].line == line { return Some(i); }
        i := i + 1;
      }
      r := None;
    }

    /** `uart_find_installed`. */
    method InstalledAs(port: nat) returns (r: Option<nat>)
      ensures r == FindInstalled(ports[..], port)
    {
      var i := 0;
      ghost var p := (e: Entry) => e.port == port && e.installed;
      while i < ports.Length
        invariant i <= ports.Length && First(ports[..], 0, p) == First(ports[..], i, p)
      {
        if ports[i].port == port && ports[i].installed { return Some(i); }
        i := i + 1;
      }
      r := None;
    }

    /** `uart_find_idle_installed`. */
    method Idle() returns (r: Option<nat>)
      requires Valid()
      ensures r == FindIdle(chip, ports[..])
    {
      var i := chip.start;
      ghost var p := (e: Entry) => e.port != chip.max && e.installed && !e.leased;
      while i < ports.Length
        invariant i <= ports.Length && First(ports[..], chip.start, p) == First(ports[..], i, p)
      {
        if ports[i].port != chip.max && ports[i].installed && !ports[i].leased { return Some(i); }
        i := i + 1;
      }
      r := None;
    }

    /** `uart_alloc_port`, and the search for a number in `uart_select_port`. */
    method Free() returns (r: Option<nat>)
      requires Valid()
      ensures r == FindFree(chip, ports[..])
    {
      var i := chip.start;
      ghost var p := (e: Entry) => e.port == chip.max;
      while i < ports.Length
        invariant i <= ports.Length && First(ports[..], chip.start, p) == First(ports[..], i, p)
      {
        if ports[i].port == chip.max { return Some(i); }
        i := i + 1;
      }
      r := None;
    }

    method Taken(port: nat) returns (taken: bool)
      ensures taken == FindTaken(ports[..], port).Some?
    {
      var i := 0;
      ghost var p := (e: Entry) => e.port == port;
      while i < ports.Length
        invariant i <= ports.Length && First(ports[..], 0, p) == First(ports[..], i, p)
      {
        if ports[i].port == port { return true; }
        i := i + 1;
      }
      taken := false;
    }

    /** `uart_select_port`. */
    method SelectPort(q: Request) returns (choice: Choice)
      requires Valid()
      ensures choice == Select(chip, ports[..], q)
    {
      hide First;
      var port := if q.preferred.Some? then q.preferred.value else q.derived;
      if q.preferred.Some? && port >= chip.max { return NoPort(NotSupported); }
      if q.preferred.Some? && port == 0 && !q.uart0Ok { return NoPort(NotSupported); }
      if port < chip.max {
        var taken := Taken(port);
        return if taken then NoPort(InvalidState) else Port(port);
      }
      var idle := Idle();
      if idle.Some? { return Port(ports[idle.value].port); }
      var free := Free();
      choice := if free.Some? && free.value < chip.max then Port(free.value) else NoPort(NoMem);
    }

    method GrantSlot(i: nat, line: Line)
      requires Valid() && i < ports.Length
      modifies this`leases, ports
      ensures Now() == Grant(old(Now()), i, line)
    {
      ports[i] := ports[i].(refs := ports[i].refs + 1, leased := true);
      leases := leases + [Lease(ports[i].port, line)];
      assert ports[..] == old(ports[..])[i := ports[i]];
    }

    /** `uart_reconfigure`, then the lease. */
    method RemapSlot(i: nat, q: Request) returns (err: Err)
      requires Valid() && i < ports.Length
      modifies this`leases, ports
      ensures (Now(), err) == Remap(old(Now()), i, q)
    {
      hide Grant;
      if !q.reconfigures { return Failed; }
      ports[i] := ports[i].(line := q.line);
      assert ports[..] == old(ports[..])[i := ports[i]];
      GrantSlot(i, q.line);
      err := Ok;
    }

    /** `uart_install_new`. */
    method InstallNew(port: nat, q: Request) returns (err: Err)
      requires Valid()
      modifies this`deleted, ports
      ensures (Now(), err) == Install(chip, old(Now()), port, q)
    {
      hide First;
      if !q.installs { return Failed; }
      var free := Free();
      if free.None? {
        deleted := deleted + [port];
        return NoMem;
      }
      ports[free.value] := Entry(port, q.line, 0, true, false);
      assert ports[..] == old(ports[..])[free.value := ports[free.value]];
      err := Ok;
    }

    /** `uart_port_acquire`. */
    method AcquirePort(q: Request) returns (err: Err)
      requires Valid()
      modifies this, ports
      ensures (Now(), err) == Acquire(chip, old(Now()), q)
    {
      hide First, Grant, Remap, Install, Select;
      if !q.pinsOk { return InvalidArg; }
      var found := PortWith(q.line);
      if found.Some? && ports[found.value].installed {
        if q.preferred.Some? && ports[found.value].port != q.preferred.value { return InvalidState; }
        GrantSlot(found.value, q.line);
        return Ok;
      }
      if q.preferred.Some? {
        var i := InstalledAs(q.preferred.value);
        if i.Some? {
          if ports[i.value].leased || ports[i.value].refs > 0 { return InvalidState; }
          err := RemapSlot(i.value, q);
          return;
        }
      }
      var choice := SelectPort(q);
      if choice.NoPort? { return choice.err; }
      var resident := InstalledAs(choice.port);
      if resident.Some? {
        err := RemapSlot(resident.value, q);
        return;
      }
      err := InstallNew(choice.port, q);
      if err != Ok { return; }
      var slot := InstalledAs(choice.port);
      if slot.None? {
        deleted := deleted + [choice.port];
        return Failed;
      }
      GrantSlot(slot.value, q.line);
    }

    /** `bus_dma_uart_preinstall`. */
    method PreinstallPort(q: Request) returns (err: Err)
      requires Valid()
      modifies this, ports
      ensures (Now(), err) == Preinstall(chip, old(Now()), q)
    {
      hide First, Install, Select;
      if !q.pinsOk { return InvalidArg; }
      var found := PortWith(q.line);
      if found.Some? && ports[found.value].installed { return Ok; }
      if q.preferred.Some? {
        var i := InstalledAs(q.preferred.value);
        if i.Some? { return Ok; }
      }
      var idle := Idle();
      if idle.Some? { return Ok; }
      var choice := SelectPort(q);
      if choice.NoPort? { return choice.err; }
      var resident := InstalledAs(choice.port);
      if resident.Some? { return Ok; }
      err := InstallNew(choice.port, q);
    }

    /** `uart_deinit` of the `k`-th channel, which holds `lease`. */
    method ReleaseLease(ghost k: nat, lease: Lease)
      requires Valid() && k < |leases| && leases[k] == lease
      modifies this, ports
      ensures Now() == Release(old(Now()), k)
    {
      hide First;
      leases := leases[..k] + leases[k + 1..];
      var i := InstalledAs(lease.port);
      if i.None? { return; }
      var e := ports[i.value];
      var refs := if e.refs > 0 then e.refs - 1 else 0;
      ports[i.value] := e.(refs := refs, leased := e.leased && refs > 0);
      assert ports[..] == old(ports[..])[i.value := ports[i.value]];
    }

    /** `bus_dma_uart_teardown`. */
    method TeardownPort(port: nat, deletes: bool) returns (err: Err)
      requires Valid()
      modifies this, ports
      ensures (Now(), err) == Teardown(chip, old(Now()), port, deletes)
    {
      hide First;
      var i := InstalledAs(port);
      if i.None? { return Ok; }
      var e := ports[i.value];
      if e.leased || e.refs > 0 { return InvalidState; }
      if !deletes { return Failed; }
      ports[i.value] := e.(port := chip.max, installed := false, leased := false, refs := 0);
      deleted := deleted + [port];
      assert ports[..] == old(ports[..])[i.value := ports[i.value]];
      err := Ok;
    }
  }
}
