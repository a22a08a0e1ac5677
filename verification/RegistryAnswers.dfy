/**
 What the UART registry answers to every request, and the state it leaves, told by what is resident, leased and free.
 */
module RegistryAnswers {
  import opened Wire
  import opened UartRegistry
  import opened RegistryLaws

  /** The lowest slot whose driver runs with these pins and this baud rate. */
  predicate Serves(s: State, i: nat, line: Line) {
    && i < |s.ports| && s.ports[i].installed && s.ports[i].line == line
    && forall j :: 0 <= j < i ==> !(s.ports[j].installed && s.ports[j].line == line)
  }

  predicate NoneServes(s: State, line: Line) {
    forall j :: 0 <= j < |s.ports| ==> !(s.ports[j].installed && s.ports[j].line == line)
  }

  predicate Runs(s: State, i: nat, port: nat) { i < |s.ports| && s.ports[i].installed && s.ports[i].port == port }

  /** The lowest usable slot whose driver nobody leases. */
  predicate IdleAt(c: Chip, s: State, i: nat) {
    && c.start <= i < |s.ports| && s.ports[i].installed && !s.ports[i].leased
    && forall j :: c.start <= j < i ==> !(s.ports[j].installed && !s.ports[j].leased)
  }

  predicate NoneIdle(c: Chip, s: State) {
    forall j :: c.start <= j < |s.ports| ==> !(s.ports[j].installed && !s.ports[j].leased)
  }

  /** The lowest usable slot without a driver. */
  predicate FreeAt(c: Chip, s: State, i: nat) {
    c.start <= i < |s.ports| && !s.ports[i].installed && forall j :: c.start <= j < i ==> s.ports[j].installed
  }

  predicate NoneFree(c: Chip, s: State) { forall j :: c.start <= j < |s.ports| ==> s.ports[j].installed }

  /** Slot `i` afterwards runs this controller for one more channel. */
  function Leased(s: State, i: nat, port: nat, line: Line, refs: nat): State
    requires i < |s.ports|
  {
    State(s.ports[i := Entry(port, line, refs, true, true)], s.leases + [Lease(port, line)], s.deleted)
  }

  lemma PortFound(c: Chip, s: State, line: Line, i: nat)
    requires Sane(c, s)
    ensures Serves(s, i, line) ==> FindPort(c, s.ports, line) == Some(i)
    ensures NoneServes(s, line) ==> FindPort(c, s.ports, line).None?
  {
    assert forall j :: 0 <= j < |s.ports| ==> (s.ports[j].port != c.max <==> s.ports[j].installed);
  }

  lemma RunsFound(c: Chip, s: State, port: nat, i: nat)
    requires Sane(c, s) && Runs(s, i, port)
    ensures FindInstalled(s.ports, port) == Some(i) && FindTaken(s.ports, port) == Some(i)
  {
    assert s.ports[i].port < c.max;
  }

  lemma RunsNot(c: Chip, s: State, port: nat)
    requires Sane(c, s) && !Resident(s.ports, port) && port < c.max
    ensures FindInstalled(s.ports, port).None? && FindTaken(s.ports, port).None?
  {
  }

  lemma IdleFound(c: Chip, s: State, i: nat)
    requires Sane(c, s)
    ensures IdleAt(c, s, i) ==> FindIdle(c, s.ports) == Some(i)
    ensures NoneIdle(c, s) ==> FindIdle(c, s.ports).None?
  {
    assert forall j :: 0 <= j < |s.ports| ==> (s.ports[j].port != c.max <==> s.ports[j].installed);
  }

  lemma FreeFound(c: Chip, s: State, i: nat)
    requires Sane(c, s)
    ensures FreeAt(c, s, i) ==> FindFree(c, s.ports) == Some(i)
    ensures NoneFree(c, s) ==> FindFree(c, s.ports).None?
  {
    assert forall j :: 0 <= j < |s.ports| ==> (s.ports[j].port != c.max <==> s.ports[j].installed);
  }

  lemma Remapped(c: Chip, s: State, i: nat, q: Request)
    requires Sane(c, s) && i < |s.ports| && s.ports[i].installed
    ensures Remap(s, i, q) ==
      if q.reconfigures then (Leased(s, i, s.ports[i].port, q.line, s.ports[i].refs + 1), Ok) else (s, Failed)
    ensures !s.ports[i].leased ==> s.ports[i].refs == 0
    ensures s.ports[i].port < c.max
  {
    var e := s.ports[i];
    assert EntryOk(c, e);
    assert s.ports[i := e.(line := q.line)][i := e.(line := q.line, refs := e.refs + 1, leased := true)]
        == s.ports[i := Entry(e.port, q.line, e.refs + 1, true, true)];
  }

  // ---- Leasing -------------------------------------------------------------------------------

  /** A channel shares the driver that already runs as it asks, unless it insists on another controller. */
  lemma JoinsItsLine(c: Chip, s: State, q: Request, i: nat)
    requires Sane(c, s) && q.pinsOk && Serves(s, i, q.line)
    ensures Acquire(c, s, q) ==
      if q.preferred.None? || q.preferred.value == s.ports[i].port
      then (Leased(s, i, s.ports[i].port, q.line, s.ports[i].refs + 1), Ok) else (s, InvalidState)
  {
    PortFound(c, s, q.line, i);
  }

  /** A controller asked for by number that runs otherwise is reconfigured, unless somebody leases it. */
  lemma PreferredResident(c: Chip, s: State, q: Request, i: nat)
    requires Sane(c, s) && q.pinsOk && NoneServes(s, q.line) && q.preferred.Some? && Runs(s, i, q.preferred.value)
    ensures Acquire(c, s, q) ==
      if s.ports[i].leased then (s, InvalidState)
      else if q.reconfigures then (Leased(s, i, s.ports[i].port, q.line, 1), Ok) else (s, Failed)
  {
    PortFound(c, s, q.line, i);
    RunsFound(c, s, q.preferred.value, i);
    Remapped(c, s, i, q);
    assert EntryOk(c, s.ports[i]);
  }

  /** What happens when a driver has to be installed for controller `port`; slot `k` would take it. */
  function Fresh(c: Chip, s: State, q: Request, port: nat, k: Option<nat>): (State, Err)
    requires k.Some? ==> k.value < |s.ports|
  {
    if !q.installs then (s, Failed)
    else if k.None? then (s.(deleted := s.deleted + [port]), NoMem)
    else (Leased(s, k.value, port, q.line, 1), Ok)
  }

  predicate Slot(c: Chip, s: State, k: Option<nat>) { if k.Some? then FreeAt(c, s, k.value) else NoneFree(c, s) }

  lemma InstallsFresh(c: Chip, s: State, q: Request, port: nat, k: Option<nat>)
    requires Sane(c, s) && q.pinsOk && NoneServes(s, q.line) && Slot(c, s, k)
    requires q.preferred.Some? ==> !Resident(s.ports, q.preferred.value)
    requires Select(c, s.ports, q) == Port(port) && port < c.max && !Resident(s.ports, port)
    ensures Acquire(c, s, q) == Fresh(c, s, q, port, k)
  {
    PortFound(c, s, q.line, 0);
    RunsNot(c, s, port);
    FreeFound(c, s, if k.Some? then k.value else 0);
    if q.preferred.Some? { NotInstalled(s, q.preferred.value); }
    hide Sane;
    if q.installs && k.Some? {
      var e := Entry(port, q.line, 0, true, false);
      var ports := s.ports[k.value := e];
      InstalledAt(s.ports, port, k.value, e);
      assert ports[k.value := e.(refs := 1, leased := true)] == s.ports[k.value := Entry(port, q.line, 1, true, true)];
    }
  }

  lemma NotInstalled(s: State, port: nat)
    requires !Resident(s.ports, port)
    ensures FindInstalled(s.ports, port).None?
  {
  }

  lemma InstalledAt(ports: seq<Entry>, port: nat, k: nat, e: Entry)
    requires !Resident(ports, port) && k < |ports| && e.installed && e.port == port
    ensures FindInstalled(ports[k := e], port) == Some(k)
  {
    var t := ports[k := e];
    assert t[k] == e && forall j :: 0 <= j < |ports| && j != k ==> t[j] == ports[j];
    assert FindInstalled(t, port).Some?;
  }

  /** A controller asked for by number that no driver runs: it must exist, and the console's must be allowed. */
  lemma PreferredNew(c: Chip, s: State, q: Request, k: Option<nat>)
    requires Sane(c, s) && q.pinsOk && NoneServes(s, q.line) && Slot(c, s, k)
    requires q.preferred.Some? && !Resident(s.ports, q.preferred.value)
    ensures var p := q.preferred.value;
      Acquire(c, s, q) == if p >= c.max || (p == 0 && !q.uart0Ok) then (s, NotSupported) else Fresh(c, s, q, p, k)
  {
    var p := q.preferred.value;
    PortFound(c, s, q.line, 0);
    NotInstalled(s, p);
    if p < c.max && (p == 0 ==> q.uart0Ok) {
      RunsNot(c, s, p);
      InstallsFresh(c, s, q, p, k);
    }
  }

  /** Pins that belong to a controller get that controller, unless it runs otherwise. */
  lemma DerivedPort(c: Chip, s: State, q: Request, k: Option<nat>)
    requires Sane(c, s) && q.pinsOk && NoneServes(s, q.line) && Slot(c, s, k) && q.preferred.None? && q.derived < c.max
    ensures Acquire(c, s, q) ==
      if Resident(s.ports, q.derived) then (s, InvalidState) else Fresh(c, s, q, q.derived, k)
  {
    PortFound(c, s, q.line, 0);
    if Resident(s.ports, q.derived) {
      var i :| 0 <= i < |s.ports| && s.ports[i].installed && s.ports[i].port == q.derived;
      RunsFound(c, s, q.derived, i);
    } else {
      RunsNot(c, s, q.derived);
      InstallsFresh(c, s, q, q.derived, k);
    }
  }

  /** Any other pins get the first idle driver, reconfigured. */
  lemma TakesIdle(c: Chip, s: State, q: Request, i: nat)
    requires Sane(c, s) && q.pinsOk && NoneServes(s, q.line)
    requires q.preferred.None? && q.derived >= c.max && IdleAt(c, s, i)
    ensures Acquire(c, s, q) ==
      if q.reconfigures then (Leased(s, i, s.ports[i].port, q.line, 1), Ok) else (s, Failed)
  {
    PortFound(c, s, q.line, 0);
    IdleFound(c, s, i);
    RunsFound(c, s, s.ports[i].port, i);
    Remapped(c, s, i, q);
  }

  /** With none idle they get the controller numbered like the first free slot: a new driver, or, when that
      controller runs in another slot, the driver there, reconfigured although it is leased. */
  lemma TakesSlotNumber(c: Chip, s: State, q: Request, i: nat, j: nat)
    requires Sane(c, s) && q.pinsOk && NoneServes(s, q.line) && q.preferred.None? && q.derived >= c.max
    requires NoneIdle(c, s) && FreeAt(c, s, i) && i < c.max
    ensures !Resident(s.ports, i) ==> Acquire(c, s, q) == Fresh(c, s, q, i, Some(i))
    ensures Runs(s, j, i) ==>
      Acquire(c, s, q) ==
        if q.reconfigures then (Leased(s, j, i, q.line, s.ports[j].refs + 1), Ok) else (s, Failed)
  {
    PortFound(c, s, q.line, 0);
    IdleFound(c, s, 0);
    FreeFound(c, s, i);
    if !Resident(s.ports, i) { InstallsFresh(c, s, q, i, Some(i)); }
    if Runs(s, j, i) {
      RunsFound(c, s, i, j);
      Remapped(c, s, j, q);
    }
  }

  /** With nothing idle and no slot whose number is a controller there is no room; bad pins are refused at once. */
  lemma Refused(c: Chip, s: State, q: Request)
    requires Sane(c, s)
    ensures !q.pinsOk ==> Acquire(c, s, q) == (s, InvalidArg) && Preinstall(c, s, q) == (s, InvalidArg)
    ensures q.pinsOk && NoneServes(s, q.line) && q.preferred.None? && q.derived >= c.max && NoneIdle(c, s)
              && (forall i: nat :: FreeAt(c, s, i) ==> i >= c.max) ==>
            Acquire(c, s, q) == (s, NoMem)
  {
    PortFound(c, s, q.line, 0);
    IdleFound(c, s, 0);
    if FindFree(c, s.ports).Some? {
      assert FreeAt(c, s, FindFree(c, s.ports).value);
    }
  }

  // ---- Preparing, giving back, removing ------------------------------------------------------

  /** Nothing is installed ahead of time when something resident can serve the request later. */
  lemma PreparesNothing(c: Chip, s: State, q: Request, i: nat)
    requires Sane(c, s) && q.pinsOk
    requires Serves(s, i, q.line) || (q.preferred.Some? && Runs(s, i, q.preferred.value)) || IdleAt(c, s, i)
    ensures Preinstall(c, s, q) == (s, Ok)
  {
    if Serves(s, i, q.line) { PortFound(c, s, q.line, i); }
    if q.preferred.Some? && Runs(s, i, q.preferred.value) { RunsFound(c, s, q.preferred.value, i); }
    IdleFound(c, s, i);
  }

  /** Otherwise a driver is installed as leasing would, and waits without a lease. */
  lemma PreparesDriver(c: Chip, s: State, q: Request, port: nat, k: Option<nat>)
    requires Sane(c, s) && q.pinsOk && NoneServes(s, q.line) && NoneIdle(c, s) && Slot(c, s, k)
    requires q.preferred.Some? ==> !Resident(s.ports, q.preferred.value)
    requires port == (if q.preferred.Some? then q.preferred.value else if q.derived < c.max then q.derived
                      else if k.Some? then k.value else c.max)
    requires port < c.max && !Resident(s.ports, port) && (q.preferred.Some? && port == 0 ==> q.uart0Ok)
    ensures Preinstall(c, s, q) ==
      if !q.installs then (s, Failed)
      else if k.None? then (s.(deleted := s.deleted + [port]), NoMem)
      else (s.(ports := s.ports[k.value := Entry(port, q.line, 0, true, false)]), Ok)
  {
    PortFound(c, s, q.line, 0);
    IdleFound(c, s, 0);
    FreeFound(c, s, if k.Some? then k.value else 0);
    RunsNot(c, s, port);
    if q.preferred.Some? { NotInstalled(s, q.preferred.value); }
    assert Select(c, s.ports, q) == Port(port);
  }

  /** A channel that is closed gives its lease back; the driver stays, idle after the last one. */
  lemma GivesBack(c: Chip, s: State, k: nat, i: nat)
    requires Sane(c, s) && k < |s.leases| && Runs(s, i, s.leases[k].port)
    ensures s.ports[i].refs > 0
    ensures var e := s.ports[i];
      Release(s, k) == State(s.ports[i := Entry(e.port, e.line, e.refs - 1, true, e.refs > 1)],
                             s.leases[..k] + s.leases[k + 1..], s.deleted)
  {
    RunsFound(c, s, s.leases[k].port, i);
    assert s.leases[k] in s.leases;
    CountNone(s.leases, s.leases[k].port);
  }

  /** Only a driver nobody leases is deleted. */
  lemma Removes(c: Chip, s: State, port: nat, deletes: bool, i: nat)
    requires Sane(c, s)
    ensures !Resident(s.ports, port) ==> Teardown(c, s, port, deletes) == (s, Ok)
    ensures Runs(s, i, port) && s.ports[i].leased ==> Teardown(c, s, port, deletes) == (s, InvalidState)
    ensures Runs(s, i, port) && !s.ports[i].leased ==>
      Teardown(c, s, port, deletes) ==
        if !deletes then (s, Failed)
        else (State(s.ports[i := Entry(c.max, s.ports[i].line, 0, false, false)], s.leases, s.deleted + [port]), Ok)
  {
    if !Resident(s.ports, port) { NotInstalled(s, port); }
    if Runs(s, i, port) { RunsFound(c, s, port, i); }
  }
}
