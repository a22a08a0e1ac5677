/**
 What every run of the UART registry keeps, and the one request that breaks the sharing rule.
 */
module RegistryLaws {
  import opened Wire
  import opened UartRegistry

  /** The number of channels that own a lease on a controller. */
  function Count(leases: seq<Lease>, port: nat): nat {
    if leases == [] then 0
    else Count(leases[..|leases| - 1], port) + if leases[|leases| - 1].port == port then 1 else 0
  }

  predicate EntryOk(c: Chip, e: Entry) {
    && e.port <= c.max && (e.installed <==> e.port < c.max)
    && (e.leased <==> e.refs > 0) && (e.refs > 0 ==> e.installed)
  }

  predicate Resident(ports: seq<Entry>, port: nat) {
    exists i :: 0 <= i < |ports| && ports[i].installed && ports[i].port == port
  }

  /** The registry's books. */
  predicate Sane(c: Chip, s: State) {
    && ValidChip(c) && |s.ports| == SLOTS
    && (forall i :: 0 <= i < SLOTS ==> EntryOk(c, s.ports[i]))
    && (forall i :: 0 <= i < c.start ==> !s.ports[i].installed)
    && (forall i, j :: 0 <= i < j < SLOTS && s.ports[i].installed && s.ports[j].installed
          ==> s.ports[i].port != s.ports[j].port)
    && (forall i :: 0 <= i < SLOTS && s.ports[i].installed ==> s.ports[i].refs == Count(s.leases, s.ports[i].port))
    && (forall l :: l in s.leases ==> Resident(s.ports, l.port))
  }

  /** Every channel finds its controller set up as it asked. */
  predicate Agree(s: State) {
    forall l, i :: l in s.leases && 0 <= i < |s.ports| && s.ports[i].installed && s.ports[i].port == l.port
      ==> s.ports[i].line == l.line
  }

  // ---- Counting ------------------------------------------------------------------------------

  lemma CountMore(leases: seq<Lease>, l: Lease, port: nat)
    ensures Count(leases + [l], port) == Count(leases, port) + if l.port == port then 1 else 0
  {
    assert (leases + [l])[..|leases|] == leases;
  }

  lemma {:induction false} CountLess(leases: seq<Lease>, k: nat, port: nat)
    requires k < |leases|
    ensures Count(leases[..k] + leases[k + 1..], port) == Count(leases, port) - if leases[k].port == port then 1 else 0
    decreases |leases|
  {
    var n := |leases| - 1;
    var rest := leases[..k] + leases[k + 1..];
    if k == n {
      assert rest == leases[..n];
    } else {
      assert rest[..n - 1] == leases[..n][..k] + leases[..n][k + 1..] && rest[n - 1] == leases[n];
      CountLess(leases[..n], k, port);
    }
  }

  lemma {:induction false} CountNone(leases: seq<Lease>, port: nat)
    ensures Count(leases, port) > 0 <==> exists l :: l in leases && l.port == port
    decreases |leases|
  {
    if leases != [] {
      var n := |leases| - 1;
      CountNone(leases[..n], port);
      assert leases == leases[..n] + [leases[n]];
    }
  }

  // ---- Every step keeps the books ------------------------------------------------------------

  lemma GrantSane(c: Chip, s: State, i: nat, line: Line)
    requires Sane(c, s) && i < SLOTS && s.ports[i].installed
    ensures Sane(c, Grant(s, i, line))
  {
    var t := Grant(s, i, line);
    var l := Lease(s.ports[i].port, line);
    forall j | 0 <= j < SLOTS && t.ports[j].installed ensures t.ports[j].refs == Count(t.leases, t.ports[j].port) {
      CountMore(s.leases, l, t.ports[j].port);
    }
    forall m | m in t.leases ensures Resident(t.ports, m.port) {
      if m in s.leases {
        var j :| 0 <= j < SLOTS && s.ports[j].installed && s.ports[j].port == m.port;
        assert t.ports[j].installed && t.ports[j].port == m.port;
      } else {
        assert m == l && t.ports[i].installed && t.ports[i].port == m.port;
      }
    }
  }

  /** Changing only what a slot is configured for. */
  lemma RelineSane(c: Chip, s: State, i: nat, line: Line)
    requires Sane(c, s) && i < SLOTS
    ensures Sane(c, s.(ports := s.ports[i := s.ports[i].(line := line)]))
  {
    var t := s.(ports := s.ports[i := s.ports[i].(line := line)]);
    forall m | m in t.leases ensures Resident(t.ports, m.port) {
      var j :| 0 <= j < SLOTS && s.ports[j].installed && s.ports[j].port == m.port;
      assert t.ports[j].installed && t.ports[j].port == m.port;
    }
  }

  lemma InstallSane(c: Chip, s: State, port: nat, q: Request)
    requires Sane(c, s) && port < c.max && FindInstalled(s.ports, port).None?
    ensures Sane(c, Install(c, s, port, q).0)
    ensures Install(c, s, port, q).1 == Ok ==> Resident(Install(c, s, port, q).0.ports, port)
  {
    var free := FindFree(c, s.ports);
    if q.installs && free.Some? {
      var t := Install(c, s, port, q).0;
      forall m | m in t.leases ensures Resident(t.ports, m.port) {
        var j :| 0 <= j < SLOTS && s.ports[j].installed && s.ports[j].port == m.port;
        assert t.ports[j].installed && t.ports[j].port == m.port;
      }
      CountNone(s.leases, port);
      assert t.ports[free.value].installed && t.ports[free.value].port == port;
    }
  }

  /** Whatever `Select` chooses is a controller of the chip. */
  lemma SelectInRange(c: Chip, s: State, q: Request)
    requires Sane(c, s) && Select(c, s.ports, q).Port?
    ensures Select(c, s.ports, q).port < c.max
  {
  }

  lemma AcquireSane(c: Chip, s: State, q: Request)
    requires Sane(c, s)
    ensures Sane(c, Acquire(c, s, q).0)
  {
    hide Sane, Grant, Install, Select, Count;
    SaneShape(c, s);
    var found := FindPort(c, s.ports, q.line);
    if q.pinsOk {
      if found.Some? && s.ports[found.value].installed {
        GrantSane(c, s, found.value, q.line);
      } else if q.preferred.Some? && FindInstalled(s.ports, q.preferred.value).Some? {
        RemapSane(c, s, FindInstalled(s.ports, q.preferred.value).value, q);
      } else if Select(c, s.ports, q).Port? {
        var port := Select(c, s.ports, q).port;
        SelectInRange(c, s, q);
        if FindInstalled(s.ports, port).Some? {
          RemapSane(c, s, FindInstalled(s.ports, port).value, q);
        } else {
          InstallSane(c, s, port, q);
          var t := Install(c, s, port, q);
          SaneShape(c, t.0);
          if t.1 == Ok && FindInstalled(t.0.ports, port).Some? {
            GrantSane(c, t.0, FindInstalled(t.0.ports, port).value, q.line);
          } else if t.1 == Ok {
            DeletedSane(c, t.0, port);
          }
        }
      }
    }
  }

  lemma SaneShape(c: Chip, s: State)
    requires Sane(c, s)
    ensures |s.ports| == SLOTS
  {
  }

  lemma DeletedSane(c: Chip, s: State, port: nat)
    requires Sane(c, s)
    ensures Sane(c, s.(deleted := s.deleted + [port]))
  {
  }

  lemma RemapSane(c: Chip, s: State, i: nat, q: Request)
    requires Sane(c, s) && i < |s.ports| && s.ports[i].installed
    ensures Sane(c, Remap(s, i, q).0)
  {
    hide Sane, Grant;
    SaneShape(c, s);
    RelineSane(c, s, i, q.line);
    if q.reconfigures {
      GrantSane(c, s.(ports := s.ports[i := s.ports[i].(line := q.line)]), i, q.line);
    }
  }

  lemma PreinstallSane(c: Chip, s: State, q: Request)
    requires Sane(c, s)
    ensures Sane(c, Preinstall(c, s, q).0)
  {
    hide Sane, Install, Select;
    if Select(c, s.ports, q).Port? {
      SelectInRange(c, s, q);
      if FindInstalled(s.ports, Select(c, s.ports, q).port).None? {
        InstallSane(c, s, Select(c, s.ports, q).port, q);
      }
    }
  }

  lemma ReleaseSane(c: Chip, s: State, k: nat)
    requires Sane(c, s)
    ensures Sane(c, Release(s, k))
  {
    hide Count;
    if k < |s.leases| {
      var t := Release(s, k);
      var l := s.leases[k];
      assert l in s.leases;
      CountNone(s.leases, l.port);
      forall j | 0 <= j < SLOTS && t.ports[j].installed ensures t.ports[j].refs == Count(t.leases, t.ports[j].port) {
        CountLess(s.leases, k, t.ports[j].port);
      }
      forall m | m in t.leases ensures Resident(t.ports, m.port) {
        assert m in s.leases;
        var j :| 0 <= j < SLOTS && s.ports[j].installed && s.ports[j].port == m.port;
        assert t.ports[j].installed && t.ports[j].port == m.port;
      }
    }
  }

  lemma TeardownSane(c: Chip, s: State, port: nat, deletes: bool)
    requires Sane(c, s)
    ensures Sane(c, Teardown(c, s, port, deletes).0)
  {
    var t := Teardown(c, s, port, deletes).0;
    if t != s {
      CountNone(s.leases, port);
      forall m | m in t.leases ensures Resident(t.ports, m.port) {
        var j :| 0 <= j < SLOTS && s.ports[j].installed && s.ports[j].port == m.port;
        assert t.ports[j].installed && t.ports[j].port == m.port;
      }
    }
  }

  /** Every step: `ref_count` is the number of live channels, `leased` says whether there are any, and so on. */
  lemma StepSane(c: Chip, s: State, e: Event)
    requires Sane(c, s)
    ensures Sane(c, Step(c, s, e))
  {
    hide Sane, Acquire, Preinstall, Release, Teardown;
    match e
    case Lend(q) => AcquireSane(c, s, q);
    case Prepare(q) => PreinstallSane(c, s, q);
    case GiveBack(k) => ReleaseSane(c, s, k);
    case Remove(port, deletes) => TeardownSane(c, s, port, deletes);
  }

  // ---- What preinstalling and deleting may do -------------------------------------------------

  /** Preinstalling leases nothing and touches no resident driver; it fills at most one free slot. */
  lemma PreinstallOnlyAdds(c: Chip, s: State, q: Request)
    requires Sane(c, s)
    ensures var t := Preinstall(c, s, q).0;
      && t.leases == s.leases && |t.ports| == SLOTS
      && (forall i :: 0 <= i < SLOTS && s.ports[i].installed ==> t.ports[i] == s.ports[i])
      && (forall i :: 0 <= i < SLOTS && t.ports[i] != s.ports[i] ==> !t.ports[i].leased && t.ports[i].line == q.line)
      && (forall i, j :: 0 <= i < j < SLOTS && t.ports[i] != s.ports[i] ==> t.ports[j] == s.ports[j])
  {
  }

  /**
   A driver is deleted only by tearing down a controller that no channel leases, or when the registry has
   no room for a driver that was never resident.
   */
  lemma DeletedOnlyUnleased(c: Chip, s: State, e: Event)
    requires Sane(c, s)
    ensures var t := Step(c, s, e);
      && s.deleted <= t.deleted && |t.deleted| <= |s.deleted| + 1
      && (t.deleted != s.deleted ==>
            var port := t.deleted[|s.deleted|];
            && Count(s.leases, port) == 0
            && t.leases == s.leases
            && (e.Remove? ==> e.port == port && Resident(s.ports, port) && !Resident(t.ports, port))
            && (!e.Remove? ==> !Resident(s.ports, port) && t.ports == s.ports))
  {
    hide Count;
    match e
    case GiveBack(k) =>
    case Lend(q) => DeletedByInstall(c, s, q);
    case Prepare(q) => DeletedByInstall(c, s, q);
    case Remove(port, deletes) => CountNone(s.leases, port);
  }

  lemma DeletedByInstall(c: Chip, s: State, q: Request)
    requires Sane(c, s)
    ensures forall t :: t in {Acquire(c, s, q).0, Preinstall(c, s, q).0} && t.deleted != s.deleted ==>
      Select(c, s.ports, q).Port? && t == s.(deleted := s.deleted + [Select(c, s.ports, q).port])
      && !Resident(s.ports, Select(c, s.ports, q).port) && Count(s.leases, Select(c, s.ports, q).port) == 0
  {
    hide Count;
    if Select(c, s.ports, q).Port? {
      var port := Select(c, s.ports, q).port;
      CountNone(s.leases, port);
      SelectInRange(c, s, q);
    }
  }

  // ---- Sharing -------------------------------------------------------------------------------

  /**
   The request that takes over somebody else's controller: no pins in common with a resident driver, no
   controller asked for or derived, no idle driver, and the first free slot's index is the number of a
   controller that is resident in another slot.
   */
  predicate Steals(c: Chip, s: State, e: Event) {
    && e.Lend? && e.q.pinsOk && e.q.reconfigures && e.q.preferred.None? && e.q.derived >= c.max
    && FindPort(c, s.ports, e.q.line).None? && FindIdle(c, s.ports).None?
    && FindFree(c, s.ports).Some? && FindFree(c, s.ports).value < c.max
    && FindInstalled(s.ports, FindFree(c, s.ports).value).Some?
  }

  lemma GrantAgrees(c: Chip, s: State, i: nat, line: Line)
    requires Sane(c, s) && Agree(s) && i < SLOTS && s.ports[i].installed && s.ports[i].line == line
    ensures Agree(Grant(s, i, line))
  {
  }

  lemma RemapAgrees(c: Chip, s: State, i: nat, q: Request)
    requires Sane(c, s) && Agree(s) && i < SLOTS && s.ports[i].installed && s.ports[i].line != q.line
    ensures Agree(Remap(s, i, q).0) <==> !q.reconfigures || s.ports[i].refs == 0
  {
    var port := s.ports[i].port;
    CountNone(s.leases, port);
    var t := Remap(s, i, q).0;
    if q.reconfigures && s.ports[i].refs > 0 {
      var l :| l in s.leases && l.port == port;
      assert l in t.leases && t.ports[i].installed && t.ports[i].port == port;
    }
  }

  lemma InstallAgrees(c: Chip, s: State, port: nat, q: Request)
    requires Sane(c, s) && Agree(s) && port < c.max && FindInstalled(s.ports, port).None?
    ensures Agree(Install(c, s, port, q).0)
  {
    CountNone(s.leases, port);
  }

  /** A request keeps every channel's controller as it was asked for exactly when it is not of that kind. */
  lemma AgreesIff(c: Chip, s: State, e: Event)
    requires Sane(c, s) && Agree(s)
    ensures Agree(Step(c, s, e)) <==> !Steals(c, s, e)
  {
    match e
    case Lend(q) => AcquireAgrees(c, s, q);
    case Prepare(q) => PreinstallAgrees(c, s, q);
    case GiveBack(k) => ReleaseAgrees(s, k);
    case Remove(port, deletes) =>
  }

  lemma ReleaseAgrees(s: State, k: nat)
    requires Agree(s)
    ensures Agree(Release(s, k))
  {
  }

  lemma PreinstallAgrees(c: Chip, s: State, q: Request)
    requires Sane(c, s) && Agree(s)
    ensures Agree(Preinstall(c, s, q).0)
  {
    hide Agree, Install, Count;
    if Select(c, s.ports, q).Port? {
      SelectInRange(c, s, q);
      if FindInstalled(s.ports, Select(c, s.ports, q).port).None? {
        InstallAgrees(c, s, Select(c, s.ports, q).port, q);
      }
    }
  }

  lemma AcquireAgrees(c: Chip, s: State, q: Request)
    requires Sane(c, s) && Agree(s)
    ensures Agree(Acquire(c, s, q).0) <==> !Steals(c, s, Lend(q))
  {
    hide Agree, Count, Grant, Install, Remap, Resident;
    var found := FindPort(c, s.ports, q.line);
    if found.Some? {
      GrantAgrees(c, s, found.value, q.line);
    } else if q.preferred.Some? && FindInstalled(s.ports, q.preferred.value).Some? {
      RemapAgrees(c, s, FindInstalled(s.ports, q.preferred.value).value, q);
    } else if q.pinsOk && Select(c, s.ports, q).Port? {
      var port := Select(c, s.ports, q).port;
      SelectInRange(c, s, q);
      if FindInstalled(s.ports, port).Some? {
        SelectedResident(c, s, q);
        RemapAgrees(c, s, FindInstalled(s.ports, port).value, q);
      } else {
        FreshAgrees(c, s, port, q);
      }
    }
  }

  /** A resident controller is selected either because it is idle or by a clash of numbers. */
  lemma SelectedResident(c: Chip, s: State, q: Request)
    requires Sane(c, s) && FindPort(c, s.ports, q.line).None? && Select(c, s.ports, q).Port?
    requires FindInstalled(s.ports, Select(c, s.ports, q).port).Some?
    ensures var i := FindInstalled(s.ports, Select(c, s.ports, q).port).value;
      && s.ports[i].line != q.line && q.preferred.None? && q.derived >= c.max
      && (s.ports[i].refs == 0 <==> FindIdle(c, s.ports).Some?)
      && (FindIdle(c, s.ports).None? ==>
            Select(c, s.ports, q).port == FindFree(c, s.ports).value && FindFree(c, s.ports).Some?)
  {
  }

  lemma FreshAgrees(c: Chip, s: State, port: nat, q: Request)
    requires Sane(c, s) && Agree(s) && port < c.max && FindInstalled(s.ports, port).None?
    ensures var t := Install(c, s, port, q);
      && Agree(t.0) && Agree(t.0.(deleted := t.0.deleted + [port]))
      && (t.1 == Ok && FindInstalled(t.0.ports, port).Some? ==>
            Agree(Grant(t.0, FindInstalled(t.0.ports, port).value, q.line)))
  {
    var t := Install(c, s, port, q);
    InstallAgrees(c, s, port, q);
    InstallSane(c, s, port, q);
    hide Install, Count, Grant;
    if t.1 == Ok { InstalledLine(c, s, port, q); }
    if t.1 == Ok && FindInstalled(t.0.ports, port).Some? {
      GrantAgrees(c, t.0, FindInstalled(t.0.ports, port).value, q.line);
    }
  }

  lemma InstalledLine(c: Chip, s: State, port: nat, q: Request)
    requires Sane(c, s) && port < c.max && FindInstalled(s.ports, port).None? && Install(c, s, port, q).1 == Ok
    ensures var r := FindInstalled(Install(c, s, port, q).0.ports, port);
      r.Some? && Install(c, s, port, q).0.ports[r.value].line == q.line
  {
    var t := Install(c, s, port, q).0;
    var i := FindFree(c, s.ports).value;
    assert t.ports[i].installed && t.ports[i].port == port;
  }

  // ---- Runs ----------------------------------------------------------------------------------

  predicate NeverSteals(c: Chip, s: State, es: seq<Event>)
    decreases |es|
  {
    es == [] || (!Steals(c, s, es[0]) && NeverSteals(c, Step(c, s, es[0]), es[1..]))
  }

  lemma {:induction false} RunKeeps(c: Chip, s: State, es: seq<Event>)
    requires Sane(c, s)
    ensures Sane(c, Run(c, s, es))
    ensures Agree(s) && NeverSteals(c, s, es) ==> Agree(Run(c, s, es))
    decreases |es|
  {
    hide Sane, Agree, Step, Steals;
    if es != [] {
      StepSane(c, s, es[0]);
      if Agree(s) { AgreesIff(c, s, es[0]); }
      RunKeeps(c, Step(c, s, es[0]), es[1..]);
    }
  }

  /** Channels that share a controller asked for the same pins and baud rate, unless a controller was stolen. */
  lemma SharersAgree(c: Chip, es: seq<Event>, k: nat, l: nat)
    requires ValidChip(c) && NeverSteals(c, Fresh(c), es)
    requires k < |Run(c, Fresh(c), es).leases| && l < |Run(c, Fresh(c), es).leases|
    requires Run(c, Fresh(c), es).leases[k].port == Run(c, Fresh(c), es).leases[l].port
    ensures Run(c, Fresh(c), es).leases[k].line == Run(c, Fresh(c), es).leases[l].line
  {
    assert Sane(c, Fresh(c)) && Agree(Fresh(c));
    RunKeeps(c, Fresh(c), es);
    hide Run;
    var t := Run(c, Fresh(c), es);
    assert t.leases[k] in t.leases && t.leases[l] in t.leases;
    var i :| 0 <= i < SLOTS && t.ports[i].installed && t.ports[i].port == t.leases[k].port;
  }

  lemma InstalledIs(ports: seq<Entry>, port: nat, i: nat)
    requires i < |ports| && ports[i].installed && ports[i].port == port
    requires forall j :: 0 <= j < i ==> ports[j].port != port
    ensures FindInstalled(ports, port) == Some(i)
  {
    var r := FindInstalled(ports, port);
    assert r.Some?;
    assert ports[r.value].port == port;
  }

  lemma FreeIs(c: Chip, ports: seq<Entry>, i: nat)
    requires c.start <= i < |ports| && ports[i].port == c.max
    requires forall j :: c.start <= j < i ==> ports[j].port != c.max
    ensures FindFree(c, ports) == Some(i)
  {
    var r := FindFree(c, ports);
    assert r.Some?;
    assert ports[r.value].port == c.max;
  }

  /** One slot resident and leased, in slot 1, for controller 2. */
  function One(line: Line, refs: nat): seq<Entry> {
    [FreeEntry(Chip(1, 3)), Entry(2, line, refs, true, refs > 0), FreeEntry(Chip(1, 3))]
  }

  lemma FirstTaken(a: Request)
    requires a.preferred == Some(2) && a.pinsOk && a.installs
    ensures Acquire(Chip(1, 3), Fresh(Chip(1, 3)), a) == (State(One(a.line, 1), [Lease(2, a.line)], []), Ok)
  {
    var c, s := Chip(1, 3), Fresh(Chip(1, 3));
    assert FindPort(c, s.ports, a.line).None? && FindInstalled(s.ports, 2).None? && FindTaken(s.ports, 2).None?;
    FreeIs(c, s.ports, 1);
    var t := Install(c, s, 2, a).0;
    assert t.ports == One(a.line, 0);
    InstalledIs(t.ports, 2, 1);
    assert Grant(t, 1, a.line).ports == One(a.line, 1) && Grant(t, 1, a.line).leases == [Lease(2, a.line)];
    assert Acquire(c, s, a) == (Grant(t, 1, a.line), Ok);
  }

  lemma ThenStolen(line: Line, b: Request)
    requires b.preferred == None && b.derived >= 3 && b.pinsOk && b.reconfigures && b.line != line
    ensures Acquire(Chip(1, 3), State(One(line, 1), [Lease(2, line)], []), b)
            == (State(One(b.line, 2), [Lease(2, line), Lease(2, b.line)], []), Ok)
  {
    var c, s := Chip(1, 3), State(One(line, 1), [Lease(2, line)], []);
    assert FindPort(c, s.ports, b.line).None? && FindIdle(c, s.ports).None?;
    FreeIs(c, s.ports, 2);
    InstalledIs(s.ports, 2, 1);
    assert Select(c, s.ports, b) == Port(2);
    assert Remap(s, 1, b).0.ports == One(b.line, 2);
    assert Remap(s, 1, b).0.leases == [Lease(2, line), Lease(2, b.line)];
    assert Acquire(c, s, b) == Remap(s, 1, b);
  }

  /**
   With the console on UART0, two requests suffice: controller 2 is asked for and takes slot 1; custom pins
   then get the free slot 2, whose number is taken.  Both channels now hold controller 2, set up for the second.
   */
  lemma StolenInTwo(a: Request, b: Request)
    requires a.preferred == Some(2) && a.pinsOk && a.installs
    requires b.preferred == None && b.derived >= 3 && b.pinsOk && b.reconfigures && a.line != b.line
    ensures Run(Chip(1, 3), Fresh(Chip(1, 3)), [Lend(a), Lend(b)])
            == State(One(b.line, 2), [Lease(2, a.line), Lease(2, b.line)], [])
  {
    hide Acquire;
    var c := Chip(1, 3);
    FirstTaken(a);
    ThenStolen(a.line, b);
    var s, t := State(One(a.line, 1), [Lease(2, a.line)], []),
        State(One(b.line, 2), [Lease(2, a.line), Lease(2, b.line)], []);
    assert [Lend(a), Lend(b)][1..] == [Lend(b)] && [Lend(b)][1..] == [];
    assert Run(c, t, []) == t && Run(c, s, [Lend(b)]) == Run(c, t, []);
  }
}
