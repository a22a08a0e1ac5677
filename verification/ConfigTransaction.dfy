/**
 The configuration transaction (esp32-collector/main/config_apply_transaction.c): apply a staged
 manifest step by step, commit it last, and otherwise roll back, enter the safe state, or stop.

 Every callback may fail and every memory reading is arbitrary.  A callback that succeeds puts its
 part of the runtime where its name says; one that fails leaves that part half done.
 */
module ConfigTransaction {

  datatype Which = Old | New

  /** What a part of the runtime is configured for. */
  datatype Part = Is(which: Which) | Empty | Stopped | Partial | Safe

  datatype Runtime = Runtime(dma: Part, peripherals: Part, buses: Part, scheduler: Part, log: Part,
                             manifest: Which, held: bool)

  datatype Step =
    | Begin | Snapshot | Prepare | ApplyDma | ApplyPeripherals | ApplyBuses(of: Which)
    | ApplyScheduler(of: Which) | ApplyLog | Commit | StopScheduler | CleanupBuses
    | RestoreDma | RestorePeripherals | RestoreLog | EnterSafe | End

  /** A check made before a step: the arguments, the arena, or the water level. */
  datatype Check = Arguments | Arena | Preflight | Before(step: Step)

  datatype Entry = Call(step: Step, ok: bool) | Gate(check: Check, pass: bool)

  datatype Result = Ok | Unchanged | Restored | FailedSafe | Fatal

  /** Contiguous bytes the steps are expected to need; 0 means the module default. */
  datatype Needs = Needs(preflight: nat, dma: nat, peripherals: nat, buses: nat, scheduler: nat, log: nat)

  const STEP_NEED_DEFAULT := 1024
  const STEP_NEED_APPLY_BUSES := 4096

  function StepNeed(configured: nat, fallback: nat): nat { if configured != 0 then configured else fallback }

  function Max(a: nat, b: nat): nat { if a < b then b else a }

  function PreflightNeed(n: Needs): nat {
    if n.preflight != 0 then n.preflight
    else
      Max(Max(Max(Max(StepNeed(n.dma, STEP_NEED_DEFAULT), StepNeed(n.peripherals, STEP_NEED_DEFAULT)),
                  StepNeed(n.buses, STEP_NEED_APPLY_BUSES)),
              StepNeed(n.scheduler, STEP_NEED_DEFAULT)),
          StepNeed(n.log, STEP_NEED_DEFAULT))
  }

  function NeedOf(n: Needs, s: Step): nat {
    match s
    case ApplyDma => StepNeed(n.dma, STEP_NEED_DEFAULT)
    case ApplyPeripherals => StepNeed(n.peripherals, STEP_NEED_DEFAULT)
    case ApplyBuses(New) => StepNeed(n.buses, STEP_NEED_APPLY_BUSES)
    case ApplyBuses(Old) => n.buses
    case ApplyScheduler(_) => StepNeed(n.scheduler, STEP_NEED_DEFAULT)
    case ApplyLog => StepNeed(n.log, STEP_NEED_DEFAULT)
    case _ => 0
  }

  /** A transaction that passes the default preflight had room for every forward step at that moment. */
  lemma PreflightCovers(n: Needs, s: Step)
    requires n.preflight == 0
    ensures PreflightNeed(n) >= NeedOf(n, s)
    ensures exists t: Step :: PreflightNeed(n) == NeedOf(n, t)
  {
    var all := [NeedOf(n, ApplyDma), NeedOf(n, ApplyPeripherals), NeedOf(n, ApplyBuses(New)),
                NeedOf(n, ApplyScheduler(New)), NeedOf(n, ApplyLog)];
    assert PreflightNeed(n) in all;
  }

  /** What the environment answers: callback results and memory readings, by position in the trace. */
  datatype World = World(outcome: nat -> bool, largest: nat -> nat, floor: nat, needs: Needs)

  predicate HonestEntry(w: World, i: nat, e: Entry) {
    match e
    case Call(s, ok) => ok == (s == End || w.outcome(i))
    case Gate(Before(s), pass) => pass == (w.largest(i) >= Max(NeedOf(w.needs, s), w.floor))
    case Gate(Preflight, pass) => pass == (w.largest(i) >= Max(PreflightNeed(w.needs), w.floor))
    case _ => true
  }

  /** Every entry of the trace is what the environment answered at that point. */
  ghost predicate Honest(w: World, t: seq<Entry>) { forall i :: 0 <= i < |t| ==> HonestEntry(w, i, t[i]) }

  lemma HonestAfter(w: World, t: seq<Entry>, e: Entry)
    requires Honest(w, t) && HonestEntry(w, |t|, e)
    ensures Honest(w, t + [e])
  {
  }

  /** What a gate asks for, in bytes: what the forward steps were given or else their defaults, for rebuilding
      the old buses what the new ones were given, for the peripherals nothing. */
  lemma GatesAsk(w: World, t: seq<Entry>, i: nat, s: Step, pass: bool)
    requires Honest(w, t) && i < |t| && t[i] == Gate(Before(s), pass)
    ensures s == ApplyDma ==>
      (pass <==> w.floor <= w.largest(i) && (if w.needs.dma != 0 then w.needs.dma else 1024) <= w.largest(i))
    ensures s == ApplyPeripherals ==>
      (pass <==> && w.floor <= w.largest(i)
                 && (if w.needs.peripherals != 0 then w.needs.peripherals else 1024) <= w.largest(i))
    ensures s == ApplyBuses(New) ==>
      (pass <==> w.floor <= w.largest(i) && (if w.needs.buses != 0 then w.needs.buses else 4096) <= w.largest(i))
    ensures s == ApplyScheduler(New) ==>
      (pass <==> && w.floor <= w.largest(i)
                 && (if w.needs.scheduler != 0 then w.needs.scheduler else 1024) <= w.largest(i))
    ensures s == ApplyLog ==>
      (pass <==> w.floor <= w.largest(i) && (if w.needs.log != 0 then w.needs.log else 1024) <= w.largest(i))
    ensures s == RestorePeripherals ==> (pass <==> w.floor <= w.largest(i))
    ensures s == ApplyBuses(Old) ==> (pass <==> w.floor <= w.largest(i) && w.needs.buses <= w.largest(i))
  {
    assert HonestEntry(w, i, t[i]);
  }

  /** The preflight gate asks for what it was given, or else for as much as every forward step on its own. */
  lemma PreflightAsks(w: World, t: seq<Entry>, i: nat, pass: bool)
    requires Honest(w, t) && i < |t| && t[i] == Gate(Preflight, pass)
    ensures w.needs.preflight != 0 ==> (pass <==> w.floor <= w.largest(i) && w.needs.preflight <= w.largest(i))
    ensures w.needs.preflight == 0 ==>
      (pass <==> && w.floor <= w.largest(i)
                 && (if w.needs.dma != 0 then w.needs.dma else 1024) <= w.largest(i)
                 && (if w.needs.peripherals != 0 then w.needs.peripherals else 1024) <= w.largest(i)
                 && (if w.needs.buses != 0 then w.needs.buses else 4096) <= w.largest(i)
                 && (if w.needs.scheduler != 0 then w.needs.scheduler else 1024) <= w.largest(i)
                 && (if w.needs.log != 0 then w.needs.log else 1024) <= w.largest(i))
  {
    assert HonestEntry(w, i, t[i]);
  }

  /** A callback answers what the environment decides; ending the transaction cannot fail. */
  lemma CallsAnswer(w: World, t: seq<Entry>, i: nat, s: Step, ok: bool)
    requires Honest(w, t) && i < |t| && t[i] == Call(s, ok)
    ensures ok <==> s == End || w.outcome(i)
  {
    assert HonestEntry(w, i, t[i]);
  }

  // ---- What the callbacks do -----------------------------------------------------------------

  function Effect(r: Runtime, s: Step, ok: bool): Runtime {
    match s
    case Begin => if ok then r.(held := true) else r
    case Snapshot => r
    case Prepare => r.(scheduler := if ok then Stopped else Partial)
    case ApplyDma => r.(dma := if ok then Is(New) else Partial)
    case ApplyPeripherals => r.(peripherals := if ok then Is(New) else Partial)
    case ApplyBuses(m) => r.(buses := if ok then Is(m) else Partial)
    case ApplyScheduler(m) => r.(scheduler := if ok then Is(m) else Partial)
    case ApplyLog => r.(log := if ok then Is(New) else Partial)
    case Commit => if ok then r.(manifest := New) else r
    case StopScheduler => r.(scheduler := if ok then Stopped else Partial)
    case CleanupBuses => r.(buses := if ok then Empty else Partial)
    case RestoreDma => r.(dma := if ok then Is(Old) else Partial)
    case RestorePeripherals => r.(peripherals := if ok then Is(Old) else Partial)
    case RestoreLog => r.(log := if ok then Is(Old) else Partial)
    case EnterSafe =>
      var p := if ok then Safe else Partial;
      Runtime(p, p, p, p, p, r.manifest, r.held)
    case End => r.(held := false)
  }

  /** The runtime before the transaction; without an old manifest nothing runs yet. */
  function Initial(haveOld: bool): Runtime {
    Runtime(Is(Old), Is(Old), if haveOld then Is(Old) else Empty, if haveOld then Is(Old) else Stopped,
            Is(Old), Old, false)
  }

  /** An entry that makes the transaction fail; the log stream may be skipped for lack of memory. */
  predicate Failing(e: Entry) {
    match e
    case Call(_, ok) => !ok
    case Gate(c, pass) => !pass && c != Before(ApplyLog)
  }

  predicate Clean(trace: seq<Entry>) { forall i | 0 <= i < |trace| :: !Failing(trace[i]) }

  // ---- The traces ----------------------------------------------------------------------------

  function Opening(arenaNeed: nat): seq<Entry> {
    [Gate(Arguments, true)] + (if arenaNeed != 0 then [Gate(Arena, true)] else []) + [Gate(Preflight, true)]
  }

  function Entering(): seq<Entry> { [Call(Begin, true), Call(Snapshot, true), Call(Prepare, true)] }

  function Gated(s: Step): seq<Entry> { [Gate(Before(s), true), Call(s, true)] }

  /** Every forward step in order; the log stream is skipped when memory for it is low. */
  function Applied(logged: bool): seq<Entry> {
    [Gate(Before(ApplyDma), true), Call(ApplyDma, true),
     Gate(Before(ApplyPeripherals), true), Call(ApplyPeripherals, true),
     Gate(Before(ApplyBuses(New)), true), Call(ApplyBuses(New), true),
     Gate(Before(ApplyScheduler(New)), true), Call(ApplyScheduler(New), true)]
    + (if logged then Gated(ApplyLog) else [Gate(Before(ApplyLog), false)])
    + [Call(Commit, true)]
  }

  function Rebuilt(haveOld: bool): seq<Entry> {
    [Call(RestoreDma, true)] + Gated(RestorePeripherals)
    + (if haveOld then Gated(ApplyBuses(Old)) + [Call(ApplyScheduler(Old), true)] else [])
    + [Call(RestoreLog, true)]
  }

  function RolledBack(haveOld: bool): seq<Entry> {
    [Call(StopScheduler, true), Call(CleanupBuses, true)] + Rebuilt(haveOld)
  }

  /** The runtime once every forward step has succeeded. */
  function Target(r: Runtime, logged: bool): Runtime {
    Runtime(Is(New), Is(New), Is(New), Is(New), if logged then Is(New) else r.log, New, r.held)
  }

  function SafeState(held: bool): Runtime { Runtime(Safe, Safe, Safe, Safe, Safe, Old, held) }

  function Flip(e: Entry): Entry {
    match e
    case Call(s, ok) => Call(s, !ok)
    case Gate(c, pass) => Gate(c, !pass)
  }

  /** `t` follows `ideal` and stops at its first failure. */
  predicate Broken(ideal: seq<Entry>, t: seq<Entry>) {
    0 < |t| <= |ideal| && t[..|t| - 1] == ideal[..|t| - 1]
    && t[|t| - 1] == Flip(ideal[|t| - 1]) && Failing(t[|t| - 1])
  }

  /** What a transaction that changed nothing did: a check failed, or the first or second callback. */
  predicate Refused(fine: bool, arenaNeed: nat, arenaFits: bool, t: seq<Entry>) {
    if !fine then t == [Gate(Arguments, false)]
    else if arenaNeed != 0 && !arenaFits then t == [Gate(Arguments, true), Gate(Arena, false)]
    else
      var opening := [Gate(Arguments, true)] + if arenaNeed != 0 then [Gate(Arena, true)] else [];
      || t == opening + [Gate(Preflight, false)]
      || t == opening + [Gate(Preflight, true), Call(Begin, false)]
      || t == opening + [Gate(Preflight, true), Call(Begin, true), Call(Snapshot, false), Call(End, true)]
  }

  /** The callbacks of a trace, in order. */
  function Calls(t: seq<Entry>): seq<Step> {
    if t == [] then [] else (if t[0].Call? then [t[0].step] else []) + Calls(t[1..])
  }

  lemma {:induction false} CallsConcat(a: seq<Entry>, b: seq<Entry>)
    ensures Calls(a + b) == Calls(a) + Calls(b)
  {
    if a == [] {
      assert a + b == b;
    } else {
      assert (a + b)[1..] == a[1..] + b && (a + b)[0] == a[0];
      CallsConcat(a[1..], b);
      var head := if a[0].Call? then [a[0].step] else [];
      assert Calls(a + b) == head + Calls((a + b)[1..]);
      assert Calls(a) == head + Calls(a[1..]);
      hide Calls;
      assert head + (Calls(a[1..]) + Calls(b)) == head + Calls(a[1..]) + Calls(b);
    }
  }

  lemma CallsOne(e: Entry)
    ensures Calls([e]) == if e.Call? then [e.step] else []
  {
    assert Calls([e][1..]) == [];
  }

  lemma CallsTwo(a: Entry, b: Entry)
    ensures Calls([a, b]) == (if a.Call? then [a.step] else []) + if b.Call? then [b.step] else []
  {
    assert [a, b] == [a] + [b];
    CallsConcat([a], [b]);
    CallsOne(a);
    CallsOne(b);
  }

  lemma CallsGated(s: Step)
    ensures Calls(Gated(s)) == [s]
  {
    CallsTwo(Gate(Before(s), true), Call(s, true));
  }

  /** The callbacks of a committed transaction. */
  lemma CommittedCalls(arenaNeed: nat, logged: bool)
    ensures Calls(Opening(arenaNeed) + Entering() + Applied(logged) + [Call(End, true)])
      == [Begin, Snapshot, Prepare, ApplyDma, ApplyPeripherals, ApplyBuses(New), ApplyScheduler(New)]
         + (if logged then [ApplyLog] else []) + [Commit, End]
  {
    var o, e, a := Opening(arenaNeed), Entering(), Applied(logged);
    EnteringCalls();
    OpeningCalls(arenaNeed);
    AppliedCalls(logged);
    CallsOne(Call(End, true));
    hide Opening, Calls, Applied, Entering;
    CallsConcat(o, e);
    CallsConcat(o + e, a);
    CallsConcat(o + e + a, [Call(End, true)]);
  }

  lemma EnteringCalls()
    ensures Calls(Entering()) == [Begin, Snapshot, Prepare]
  {
    var b := [Call(Snapshot, true), Call(Prepare, true)];
    assert Entering() == [Call(Begin, true)] + b;
    CallsTwo(b[0], b[1]);
    CallsOne(Call(Begin, true));
    hide Calls;
    CallsConcat([Call(Begin, true)], b);
  }

  /** Every forward callback that takes memory comes right behind its own gate. */
  lemma GatesInFront(logged: bool, i: nat)
    requires i < |Applied(logged)| && Applied(logged)[i].Call? && Applied(logged)[i].step != Commit
    ensures i > 0 && Applied(logged)[i - 1] == Gate(Before(Applied(logged)[i].step), true)
  {
  }

  lemma OpeningCalls(arenaNeed: nat)
    ensures Calls(Opening(arenaNeed)) == []
  {
    CallsTwo(Gate(Arguments, true), Gate(Arena, true));
    CallsOne(Gate(Arguments, true));
    CallsOne(Gate(Preflight, true));
    var head := [Gate(Arguments, true)] + if arenaNeed != 0 then [Gate(Arena, true)] else [];
    assert arenaNeed != 0 ==> head == [Gate(Arguments, true), Gate(Arena, true)];
    CallsConcat(head, [Gate(Preflight, true)]);
  }

  function LogPart(logged: bool): seq<Entry> { if logged then Gated(ApplyLog) else [Gate(Before(ApplyLog), false)] }

  lemma LogCalls(logged: bool)
    ensures Calls(LogPart(logged)) == if logged then [ApplyLog] else []
  {
    CallsGated(ApplyLog);
    CallsOne(Gate(Before(ApplyLog), false));
  }

  lemma AppliedIs(logged: bool)
    ensures Applied(logged) == Gated(ApplyDma) + Gated(ApplyPeripherals) + Gated(ApplyBuses(New))
      + Gated(ApplyScheduler(New)) + LogPart(logged) + [Call(Commit, true)]
  {
  }

  lemma AppliedCalls(logged: bool)
    ensures Calls(Applied(logged))
      == [ApplyDma, ApplyPeripherals, ApplyBuses(New), ApplyScheduler(New)] + (if logged then [ApplyLog] else [])
         + [Commit]
  {
    hide *;
    AppliedIs(logged);
    CallsGated(ApplyDma);
    CallsGated(ApplyPeripherals);
    CallsGated(ApplyBuses(New));
    CallsGated(ApplyScheduler(New));
    LogCalls(logged);
    CallsOne(Call(Commit, true));
    var a, b, c, d := Gated(ApplyDma), Gated(ApplyPeripherals), Gated(ApplyBuses(New)), Gated(ApplyScheduler(New));
    CallsConcat(a, b);
    CallsConcat(a + b, c);
    CallsConcat(a + b + c, d);
    CallsConcat(a + b + c + d, LogPart(logged));
    CallsConcat(a + b + c + d + LogPart(logged), [Call(Commit, true)]);
  }

  function OldPart(haveOld: bool): seq<Entry> {
    if haveOld then Gated(ApplyBuses(Old)) + [Call(ApplyScheduler(Old), true)] else []
  }

  lemma OldCalls(haveOld: bool)
    ensures Calls(OldPart(haveOld)) == if haveOld then [ApplyBuses(Old), ApplyScheduler(Old)] else []
  {
    CallsGated(ApplyBuses(Old));
    CallsOne(Call(ApplyScheduler(Old), true));
    hide Calls, Gated;
    CallsConcat(Gated(ApplyBuses(Old)), [Call(ApplyScheduler(Old), true)]);
    assert Calls([]) == [] by { NoCalls(); }
  }

  lemma NoCalls()
    ensures Calls([]) == []
  {
  }

  lemma RolledBackIs(haveOld: bool)
    ensures RolledBack(haveOld) == [Call(StopScheduler, true), Call(CleanupBuses, true)] + [Call(RestoreDma, true)]
      + Gated(RestorePeripherals) + OldPart(haveOld) + [Call(RestoreLog, true)]
  {
  }

  /** The callbacks of a rollback that restores. */
  lemma RestoredCalls(haveOld: bool)
    ensures Calls(RolledBack(haveOld))
      == [StopScheduler, CleanupBuses, RestoreDma, RestorePeripherals]
         + (if haveOld then [ApplyBuses(Old), ApplyScheduler(Old)] else []) + [RestoreLog]
  {
    hide *;
    RolledBackIs(haveOld);
    var a, b := [Call(StopScheduler, true), Call(CleanupBuses, true)], [Call(RestoreDma, true)];
    var c := Gated(RestorePeripherals);
    CallsTwo(a[0], a[1]);
    CallsOne(b[0]);
    CallsGated(RestorePeripherals);
    OldCalls(haveOld);
    CallsOne(Call(RestoreLog, true));
    CallsConcat(a, b);
    CallsConcat(a + b, c);
    CallsConcat(a + b + c, OldPart(haveOld));
    CallsConcat(a + b + c + OldPart(haveOld), [Call(RestoreLog, true)]);
  }

  /** How the steps of a rollback turn out; a fate that is not reached does not matter. */
  datatype Fates = Fates(dma: bool, roomForPeripherals: bool, peripherals: bool,
                         roomForBuses: bool, buses: bool, scheduler: bool, log: bool)

  datatype Turns = Turns(stop: bool, cleanup: bool, rebuild: Fates, safe: bool)

  function BaseTrace(f: Fates): seq<Entry> {
    [Call(RestoreDma, f.dma), Gate(Before(RestorePeripherals), f.roomForPeripherals)]
    + if f.roomForPeripherals then [Call(RestorePeripherals, f.peripherals)] else []
  }

  predicate BaseRestored(f: Fates) { f.dma && f.roomForPeripherals && f.peripherals }

  function BusesTrace(f: Fates): seq<Entry> {
    [Gate(Before(ApplyBuses(Old)), f.roomForBuses)]
    + (if f.roomForBuses then [Call(ApplyBuses(Old), f.buses)] else [])
    + if BaseRestored(f) && f.roomForBuses && f.buses then [Call(ApplyScheduler(Old), f.scheduler)] else []
  }

  /** Every part is rebuilt whatever became of the others, only the scheduler waits for all of them. */
  function RebuildTrace(haveOld: bool, f: Fates): seq<Entry> {
    BaseTrace(f) + (if haveOld then BusesTrace(f) else []) + [Call(RestoreLog, f.log)]
  }

  predicate AllRestored(haveOld: bool, f: Fates) {
    BaseRestored(f) && (haveOld ==> f.roomForBuses && f.buses && f.scheduler) && f.log
  }

  /** Exactly what a rollback does, for every way its steps can turn out. */
  function RollbackTrace(haveOld: bool, f: Turns): seq<Entry> {
    if !f.stop then [Call(StopScheduler, false)]
    else
      [Call(StopScheduler, true), Call(CleanupBuses, f.cleanup)]
      + (if f.cleanup then RebuildTrace(haveOld, f.rebuild) else [])
      + if f.cleanup && AllRestored(haveOld, f.rebuild) then [] else [Call(EnterSafe, f.safe)]
  }

  const ANY_FATES := Fates(true, true, true, true, true, true, true)

  lemma GatedParts(s: Step, part: seq<Entry>, ok: bool)
    requires if ok then part == Gated(s) else Broken(Gated(s), part)
    ensures part == [Gate(Before(s), |part| == 2)] + if |part| == 2 then [Call(s, ok)] else []
    ensures ok ==> |part| == 2
  {
    if !ok {
      assert |part| == 2 ==> part[..1] == Gated(s)[..1] && part == [part[0], part[1]];
    }
  }

  lemma BreaksInside(ideal: seq<Entry>, k: nat, seg: seq<Entry>, bad: seq<Entry>)
    requires k + |seg| <= |ideal| && ideal[k..k + |seg|] == seg && Broken(seg, bad)
    ensures Broken(ideal, ideal[..k] + bad)
  {
    var t := ideal[..k] + bad;
    assert seg[..|bad| - 1] == ideal[k..k + |bad| - 1];
    assert ideal[..|t| - 1] == ideal[..k] + ideal[k..k + |bad| - 1];
  }

  lemma Glue(base: seq<Entry>, t: seq<Entry>, part: seq<Entry>)
    ensures base + t + part == base + (t + part)
  {
  }

  lemma AppliedParts(logged: bool)
    ensures var a := Applied(logged);
      && |a| > 8 && a[0..2] == Gated(ApplyDma) && a[2..4] == Gated(ApplyPeripherals)
      && a[4..6] == Gated(ApplyBuses(New)) && a[6..8] == Gated(ApplyScheduler(New))
      && a[..2] == Gated(ApplyDma) && a[..4] == a[..2] + Gated(ApplyPeripherals)
      && a[..6] == a[..4] + Gated(ApplyBuses(New)) && a[..8] == a[..6] + Gated(ApplyScheduler(New))
  {
  }

  lemma RebuiltParts(haveOld: bool)
    ensures var head := [Call(RestoreDma, true)] + Gated(RestorePeripherals);
      Rebuilt(haveOld) ==
        (if haveOld then head + Gated(ApplyBuses(Old)) + [Call(ApplyScheduler(Old), true)] else head)
        + [Call(RestoreLog, true)]
  {
  }

  predicate Does(e: Entry, s: Step) { e.Call? && e.step == s }

  /**
   What every rollback keeps: nothing follows an unconfirmed scheduler stop, a failed cleanup goes straight
   to the safe state, the log is restored otherwise, the old scheduler starts only while nothing has failed,
   and the safe state is the last step, entered exactly when something failed.
   */
  ghost predicate Cautious(t: seq<Entry>) {
    && |t| > 0 && Does(t[0], StopScheduler)
    && if !t[0].ok then |t| == 1 else
      && |t| > 1 && Does(t[1], CleanupBuses)
      && (!t[1].ok ==> |t| == 3)
      && (t[1].ok ==> exists i :: 2 <= i < |t| && Does(t[i], RestoreLog))
      && (forall i :: 0 <= i < |t| && Does(t[i], ApplyScheduler(Old)) ==> Clean(t[..i]))
      && (forall i :: 0 <= i < |t| && Does(t[i], EnterSafe) ==> i == |t| - 1)
      && (Clean(t) <==> !Does(t[|t| - 1], EnterSafe))
      && (Clean(t[..|t| - 1]) <==> !Does(t[|t| - 1], EnterSafe))
  }

  ghost predicate Tidy(t: seq<Entry>) {
    && (forall i :: 0 <= i < |t| && Does(t[i], ApplyScheduler(Old)) ==> Clean(t[..i]))
    && (forall i :: 0 <= i < |t| ==> !Does(t[i], EnterSafe))
  }

  lemma TidyAfter(t: seq<Entry>, e: Entry)
    requires Tidy(t) && !Does(e, EnterSafe) && (Does(e, ApplyScheduler(Old)) ==> Clean(t))
    ensures Tidy(t + [e]) && (Clean(t + [e]) <==> Clean(t) && !Failing(e))
  {
    var u := t + [e];
    forall i | 0 <= i < |t| ensures u[i] == t[i] && u[..i] == t[..i] {}
    assert u[..|t|] == t && u[|t|] == e;
  }

  lemma TidyFirst(e: Entry)
    requires !Does(e, EnterSafe)
    ensures Tidy([e]) && (Clean([e]) <==> !Failing(e))
  {
    TidyAfter([], e);
    assert [] + [e] == [e];
  }

  lemma TidyAfterGated(t: seq<Entry>, s: Step, bad: seq<Entry>)
    requires Tidy(t) && s != EnterSafe && s != ApplyScheduler(Old) && s != ApplyLog
    requires bad == Gated(s) || Broken(Gated(s), bad)
    ensures Tidy(t + bad) && (Clean(t + bad) <==> Clean(t) && bad == Gated(s))
  {
    if |bad| == 1 {
      assert bad == [Gate(Before(s), false)];
      TidyAfter(t, bad[0]);
    } else {
      assert bad[..1] == Gated(s)[..1] && bad == [Gate(Before(s), true), bad[1]];
      TidyAfter(t, bad[0]);
      TidyAfter(t + [bad[0]], bad[1]);
      assert t + bad == t + [bad[0]] + [bad[1]];
    }
  }

  lemma CautiousStop()
    ensures var t := [Call(StopScheduler, false)]; Cautious(t) && !Clean(t)
  {
    assert Failing(Call(StopScheduler, false));
    assert Failing([Call(StopScheduler, false)][0]);
  }

  lemma CautiousReturn(r: seq<Entry>)
    requires Tidy(r) && Clean(r) && |r| > 1 && Does(r[|r| - 1], RestoreLog)
    ensures var t := [Call(StopScheduler, true), Call(CleanupBuses, true)] + r; Cautious(t) && Clean(t)
  {
    var t := [Call(StopScheduler, true), Call(CleanupBuses, true)] + r;
    assert Does(t[|t| - 1], RestoreLog);
  }

  lemma CautiousEntry(cleaned: bool, r: seq<Entry>, ok: bool)
    requires if cleaned then Tidy(r) && |r| > 1 && Does(r[|r| - 1], RestoreLog) && !Clean(r) else r == []
    ensures var t := [Call(StopScheduler, true), Call(CleanupBuses, cleaned)] + r + [Call(EnterSafe, ok)];
      Cautious(t) && !Clean(t)
  {
    var u := [Call(StopScheduler, true), Call(CleanupBuses, cleaned)] + r;
    var t := u + [Call(EnterSafe, ok)];
    assert t[..|t| - 1] == u;
    if cleaned {
      assert Does(u[|u| - 1], RestoreLog) && t[|u| - 1] == u[|u| - 1];
      var i :| 0 <= i < |r| && Failing(r[i]);
      assert u[i + 2] == r[i] == t[i + 2];
      forall j | 0 <= j < |t| && Does(t[j], ApplyScheduler(Old)) ensures Clean(t[..j]) {
        assert j >= 2 && t[j] == r[j - 2] && t[..j] == t[..2] + r[..j - 2];
      }
    } else {
      assert u == t[..2] && Failing(u[1]) && Failing(t[1]);
    }
  }

  /** No callback that could change the runtime was made. */
  predicate Untouched(t: seq<Entry>) { forall e :: e in t ==> e.Gate? || e.step in {Begin, Snapshot, End} }

  lemma CleanConcat(a: seq<Entry>, b: seq<Entry>)
    ensures Clean(a + b) <==> Clean(a) && Clean(b)
  {
    if Clean(a + b) {
      forall i | 0 <= i < |a| ensures !Failing(a[i]) { assert (a + b)[i] == a[i]; }
      forall i | 0 <= i < |b| ensures !Failing(b[i]) { assert (a + b)[|a| + i] == b[i]; }
    }
  }

  lemma Prepared(arenaNeed: nat, rest: seq<Entry>)
    ensures !Untouched(Opening(arenaNeed) + Entering() + rest)
  {
    var t := Opening(arenaNeed) + Entering() + rest;
    assert t[|Opening(arenaNeed)| + 2] == Call(Prepare, true);
  }

  lemma RefusedLate(arenaNeed: nat, arenaFits: bool, calls: seq<Entry>)
    requires arenaNeed != 0 ==> arenaFits
    requires calls == [Call(Begin, false)] || calls == [Call(Begin, true), Call(Snapshot, false), Call(End, true)]
    ensures Refused(true, arenaNeed, arenaFits, Opening(arenaNeed) + calls)
  {
    var head := [Gate(Arguments, true)] + if arenaNeed != 0 then [Gate(Arena, true)] else [];
    assert Opening(arenaNeed) + calls == head + ([Gate(Preflight, true)] + calls);
    assert [Gate(Preflight, true)] + [Call(Begin, false)] == [Gate(Preflight, true), Call(Begin, false)];
  }

  /** How a transaction that does not get past `prepare` ends. */
  lemma Ending(base: seq<Entry>, calls: seq<Entry>)
    requires Untouched(base)
    requires || calls == [Call(Begin, false)]
             || calls == [Call(Begin, true), Call(Snapshot, false), Call(End, true)]
             || calls == [Call(Begin, true), Call(Snapshot, true), Call(Prepare, false)]
    ensures !Clean(base + calls)
    ensures Untouched(base + calls) <==> |calls| < 3 || calls[2].step == End
  {
    CleanConcat(base, calls);
    assert Failing(calls[0]) || Failing(calls[1]) || Failing(calls[2]);
    assert |calls| == 3 ==> calls[2] in base + calls;
  }

  lemma AllClean(arenaNeed: nat, logged: bool)
    ensures Clean(Opening(arenaNeed) + Entering() + Applied(logged) + [Call(End, true)])
  {
    var a, e, f := Opening(arenaNeed), Entering(), Applied(logged);
    CleanConcat(a, e);
    CleanConcat(a + e, f);
    CleanConcat(a + e + f, [Call(End, true)]);
  }

  lemma Dirty(before: seq<Entry>, logged: bool, broken: seq<Entry>, after: seq<Entry>)
    requires Broken(Applied(logged), broken)
    ensures !Clean(before + broken + after)
  {
    CleanConcat(before, broken);
    CleanConcat(before + broken, after);
  }

  // ---- The transaction -----------------------------------------------------------------------

  class Transaction {
    const world: World
    var runtime: Runtime
    var trace: seq<Entry>

    constructor (world: World, haveOld: bool)
      ensures this.world == world && runtime == Initial(haveOld) && trace == []
    {
      this.world, runtime, trace := world, Initial(haveOld), [];
    }

    /** One callback; whether it succeeds is up to the environment. */
    method Do(s: Step) returns (ok: bool)
      requires Honest(world, trace)
      modifies this
      ensures runtime == Effect(old(runtime), s, ok) && trace == old(trace) + [Call(s, ok)]
      ensures (s == End ==> ok) && Honest(world, trace)
    {
      hide Honest;
      ok := s == End || world.outcome(|trace|);
      HonestAfter(world, trace, Call(s, ok));
      runtime := Effect(runtime, s, ok);
      trace := trace + [Call(s, ok)];
    }

    method Note(c: Check, pass: bool)
      requires Honest(world, trace) && HonestEntry(world, |trace|, Gate(c, pass))
      modifies this`trace
      ensures Honest(world, trace) && trace == old(trace) + [Gate(c, pass)]
    {
      trace := trace + [Gate(c, pass)];
    }

    /** `mem_guard_can_start`: the largest block must cover the need and the floor. */
    method CanStart(c: Check, need: nat) returns (pass: bool)
      requires Honest(world, trace)
      requires (c.Before? && need == NeedOf(world.needs, c.step))
               || (c == Preflight && need == PreflightNeed(world.needs))
      modifies this`trace
      ensures Honest(world, trace) && trace == old(trace) + [Gate(c, pass)]
    {
      pass := world.largest(|trace|) >= Max(need, world.floor);
      Note(c, pass);
    }

    /** A step behind its water-level gate; `part` is what it adds to the trace. */
    method GatedStep(s: Step, need: nat) returns (ok: bool, ghost part: seq<Entry>)
      requires s != ApplyLog && s != End && need == NeedOf(world.needs, s)
      requires Honest(world, trace)
      modifies this
      ensures Honest(world, trace)
      ensures trace == old(trace) + part
      ensures ok ==> part == Gated(s) && runtime == Effect(old(runtime), s, true)
      ensures !ok ==> part != Gated(s) && Broken(Gated(s), part)
      ensures !ok ==> runtime in {old(runtime), Effect(old(runtime), s, false)}
    {
      ok := CanStart(Before(s), need);
      part := [Gate(Before(s), ok)];
      if ok {
        ok := Do(s);
        part := part + [Call(s, ok)];
      }
      assert part[..|part| - 1] == Gated(s)[..|part| - 1];
    }

    /** The forward half: apply every part, publish the manifest last, stop at the first failure. */
    method Forward() returns (ok: bool, ghost logged: bool, ghost t: seq<Entry>)
      requires Honest(world, trace)
      modifies this
      ensures Honest(world, trace)
      ensures trace == old(trace) + t
      ensures ok ==> t == Applied(logged) && runtime == Target(old(runtime), logged)
      ensures !ok ==> Broken(Applied(logged), t)
      ensures !ok ==> runtime.manifest == old(runtime.manifest) && runtime.held == old(runtime.held)
    {
      hide Honest, Broken, Applied, Gated;
      ghost var base := trace;
      logged := true;
      ghost var ideal := Applied(true);
      ghost var part;
      AppliedParts(true);
      ok, part := GatedStep(ApplyDma, StepNeed(world.needs.dma, STEP_NEED_DEFAULT));
      t := part;
      if !ok { BreaksInside(ideal, 0, Gated(ApplyDma), part); assert ideal[..0] + part == part; return; }
      ok, part := GatedStep(ApplyPeripherals, StepNeed(world.needs.peripherals, STEP_NEED_DEFAULT));
      Glue(base, t, part);
      t := t + part;
      if !ok { BreaksInside(ideal, 2, Gated(ApplyPeripherals), part); return; }
      ok, part := GatedStep(ApplyBuses(New), StepNeed(world.needs.buses, STEP_NEED_APPLY_BUSES));
      Glue(base, t, part);
      t := t + part;
      if !ok { BreaksInside(ideal, 4, Gated(ApplyBuses(New)), part); return; }
      ok, part := GatedStep(ApplyScheduler(New), StepNeed(world.needs.scheduler, STEP_NEED_DEFAULT));
      Glue(base, t, part);
      t := t + part;
      if !ok { BreaksInside(ideal, 6, Gated(ApplyScheduler(New)), part); return; }
      ok, logged, part := LogAndCommit(old(runtime));
      Glue(base, t, part);
      t := t + part;
    }

    /** The last two steps: a refused log stream is skipped, a failed one is not. */
    method LogAndCommit(ghost start: Runtime) returns (ok: bool, ghost logged: bool, ghost part: seq<Entry>)
      requires runtime == Target(start, false).(manifest := start.manifest)
      requires Honest(world, trace)
      modifies this
      ensures Honest(world, trace)
      ensures trace == old(trace) + part
      ensures ok ==> Applied(true)[..8] + part == Applied(logged) && runtime == Target(start, logged)
      ensures !ok ==> Broken(Applied(logged), Applied(true)[..8] + part)
      ensures !ok ==> runtime.manifest == start.manifest && runtime.held == start.held
    {
      var pass := CanStart(Before(ApplyLog), StepNeed(world.needs.log, STEP_NEED_DEFAULT));
      logged, ok, part := pass, true, [Gate(Before(ApplyLog), pass)];
      if pass {
        ok := Do(ApplyLog);
        part := part + [Call(ApplyLog, ok)];
      }
      if ok {
        ok := Do(Commit);
        part := part + [Call(Commit, ok)];
      }
      ghost var t := Applied(true)[..8] + part;
      assert !ok ==> t[..|t| - 1] == Applied(logged)[..|t| - 1];
    }

    /** The old buses, and the old scheduler only while nothing has failed. */
    method RestoreBuses(ghost before: seq<Entry>, clean: bool, ghost base: Fates)
      returns (ok: bool, ghost part: seq<Entry>, ghost f: Fates)
      requires Tidy(before) && (clean <==> Clean(before)) && (clean <==> BaseRestored(base))
      requires Honest(world, trace)
      modifies this
      ensures Honest(world, trace)
      ensures trace == old(trace) + part && Tidy(before + part) && (ok <==> Clean(before + part))
      ensures runtime == old(runtime).(buses := runtime.buses, scheduler := runtime.scheduler)
      ensures ok ==> clean && part == Gated(ApplyBuses(Old)) + [Call(ApplyScheduler(Old), true)]
      ensures ok ==> runtime.buses == Is(Old) && runtime.scheduler == Is(Old)
      ensures f == base.(roomForBuses := f.roomForBuses, buses := f.buses, scheduler := f.scheduler)
      ensures part == BusesTrace(f) && (ok ==> f.roomForBuses && f.buses && f.scheduler)
      ensures BaseRestored(f) && f.roomForBuses && f.buses && f.scheduler ==> ok
    {
      hide Honest, Clean, Tidy, Broken, Gated;
      ok, part := GatedStep(ApplyBuses(Old), world.needs.buses);
      GatedParts(ApplyBuses(Old), part, ok);
      f := base.(roomForBuses := |part| == 2, buses := ok);
      TidyAfterGated(before, ApplyBuses(Old), part);
      ok := ok && clean;
      if ok {
        ok := Do(ApplyScheduler(Old));
        TidyAfter(before + part, Call(ApplyScheduler(Old), ok));
        Glue(before, part, [Call(ApplyScheduler(Old), ok)]);
        part := part + [Call(ApplyScheduler(Old), ok)];
        f := f.(scheduler := ok);
      }
    }

    /** DMA and peripherals go back first; the peripherals even if DMA failed. */
    method RestoreBase() returns (ok: bool, ghost t: seq<Entry>, ghost f: Fates)
      requires Honest(world, trace)
      modifies this
      ensures Honest(world, trace)
      ensures trace == old(trace) + t && |t| >= 1 && Does(t[0], RestoreDma)
      ensures Tidy(t) && (ok <==> Clean(t)) && (ok ==> t == [Call(RestoreDma, true)] + Gated(RestorePeripherals))
      ensures runtime == old(runtime).(dma := runtime.dma, peripherals := runtime.peripherals)
      ensures ok ==> runtime.dma == Is(Old) && runtime.peripherals == Is(Old)
      ensures t == BaseTrace(f) && (ok <==> BaseRestored(f))
    {
      hide Honest, Clean, Tidy, Broken, Gated;
      ok := Do(RestoreDma);
      t := [Call(RestoreDma, ok)];
      TidyFirst(t[0]);
      var done, part := GatedStep(RestorePeripherals, 0);
      TidyAfterGated(t, RestorePeripherals, part);
      GatedParts(RestorePeripherals, part, done);
      f := ANY_FATES.(dma := ok, roomForPeripherals := |part| == 2, peripherals := done);
      t, ok := t + part, ok && done;
    }

    /** The rebuilding half of a rollback: a failure is remembered, and the later parts still run. */
    method Rebuild(haveOld: bool) returns (ok: bool, ghost t: seq<Entry>, ghost f: Fates)
      requires Honest(world, trace)
      modifies this
      ensures Honest(world, trace)
      ensures trace == old(trace) + t
      ensures runtime.manifest == old(runtime.manifest) && runtime.held == old(runtime.held)
      ensures |t| >= 2 && Does(t[0], RestoreDma) && Does(t[|t| - 1], RestoreLog)
      ensures Tidy(t) && (ok <==> Clean(t)) && (ok ==> t == Rebuilt(haveOld))
      ensures ok ==> runtime == Initial(haveOld).(held := runtime.held, manifest := runtime.manifest,
                        buses := if haveOld then Is(Old) else old(runtime.buses),
                        scheduler := if haveOld then Is(Old) else old(runtime.scheduler))
      ensures t == RebuildTrace(haveOld, f) && (ok <==> AllRestored(haveOld, f))
    {
      hide Honest, Clean, Tidy, Broken, Rebuilt, Gated;
      RebuiltParts(haveOld);
      ok, t, f := RestoreBase();
      if haveOld {
        ghost var part;
        ok, part, f := RestoreBuses(t, ok, f);
        Glue(old(trace), t, part);
        t := t + part;
      }
      var done := Do(RestoreLog);
      TidyAfter(t, Call(RestoreLog, done));
      Glue(old(trace), t, [Call(RestoreLog, done)]);
      t, ok, f := t + [Call(RestoreLog, done)], ok && done, f.(log := done);
    }

    /** After a failed forward half: back to the old state, or the safe state, or nothing is certain. */
    method Rollback(haveOld: bool) returns (result: Result, ghost t: seq<Entry>, ghost f: Turns)
      requires Honest(world, trace)
      modifies this
      ensures Honest(world, trace)
      ensures trace == old(trace) + t
      ensures runtime.manifest == old(runtime.manifest) && runtime.held == old(runtime.held)
      ensures result != Ok && result != Unchanged && Cautious(t) && t == RollbackTrace(haveOld, f)
      ensures result == Restored <==> Clean(t)
      ensures result == Restored ==> t == RolledBack(haveOld)
      ensures result == Restored ==>
        runtime == Initial(haveOld).(held := runtime.held, manifest := runtime.manifest)
      ensures result == FailedSafe ==> t[|t| - 1] == Call(EnterSafe, true)
      ensures result == FailedSafe ==> runtime == SafeState(runtime.held).(manifest := runtime.manifest)
      ensures result == Fatal ==> t == [Call(StopScheduler, false)] || t[|t| - 1] == Call(EnterSafe, false)
    {
      hide Honest, Tidy, Rebuilt, Cautious, Clean, Does, Failing, Broken, Gated, RebuildTrace, AllRestored;
      var ok := Do(StopScheduler);
      f := Turns(ok, true, ANY_FATES, true);
      t := [Call(StopScheduler, ok)];
      if !ok {
        CautiousStop();
        return Fatal, t, f;
      }
      ok := Do(CleanupBuses);
      f := f.(cleanup := ok);
      t := [Call(StopScheduler, true), Call(CleanupBuses, ok)];
      ghost var cleaned, r := ok, [];
      if ok {
        ghost var rebuild;
        ok, r, rebuild := Rebuild(haveOld);
        f := f.(rebuild := rebuild);
        Glue(old(trace), t, r);
      }
      t := t + r;
      if ok {
        CautiousReturn(r);
        assert t + [] == t;
        return Restored, t, f;
      }
      ok := Do(EnterSafe);
      CautiousEntry(cleaned, r, ok);
      t, f := t + [Call(EnterSafe, ok)], f.(safe := ok);
      result := if ok then FailedSafe else Fatal;
    }

    /** The checks before anything is called. */
    method Admit(valid: bool, staged: bool, arenaNeed: nat, arenaFits: bool) returns (ok: bool)
      requires trace == [] && Honest(world, trace)
      modifies this`trace
      ensures Honest(world, trace) && Untouched(trace)
      ensures if ok then trace == Opening(arenaNeed) else !Clean(trace)
      ensures ok ==> valid && staged && (arenaNeed != 0 ==> arenaFits)
      ensures !ok ==> Refused(valid && staged, arenaNeed, arenaFits, trace)
    {
      hide Honest;
      Note(Arguments, valid && staged);
      ok := valid && staged;
      if ok && arenaNeed != 0 {
        Note(Arena, arenaFits);
        ok := arenaFits;
      }
      if ok {
        ok := CanStart(Preflight, PreflightNeed(world.needs));
      }
      if !ok { assert Failing(trace[|trace| - 1]); }
    }

    /** Everything up to `prepare`; `Ok` means the forward half may run. */
    method Enter(valid: bool, staged: bool, arenaNeed: nat, arenaFits: bool) returns (result: Result)
      requires trace == [] && !runtime.held
      requires Honest(world, trace)
      modifies this
      ensures Honest(world, trace)
      ensures result == Ok ==>
        trace == Opening(arenaNeed) + Entering() && runtime == old(runtime).(held := true, scheduler := Stopped)
      ensures result == Unchanged ==>
        runtime == old(runtime) && !Clean(trace) && Untouched(trace)
      ensures result == Fatal ==>
        trace == Opening(arenaNeed) + [Call(Begin, true), Call(Snapshot, true), Call(Prepare, false)]
        && runtime.held && runtime.manifest == old(runtime.manifest) && !Clean(trace) && !Untouched(trace)
      ensures result in {Ok, Unchanged, Fatal}
      ensures result != Unchanged ==> valid && staged && (arenaNeed != 0 ==> arenaFits)
      ensures result == Unchanged ==> Refused(valid && staged, arenaNeed, arenaFits, trace)
    {
      hide Honest, Opening, Clean, Untouched, Refused;
      var ok := Admit(valid, staged, arenaNeed, arenaFits);
      if !ok { return Unchanged; }
      ghost var base := trace;
      ok := Do(Begin);
      if !ok {
        Ending(base, [Call(Begin, false)]);
        RefusedLate(arenaNeed, arenaFits, [Call(Begin, false)]);
        return Unchanged;
      }
      ok := Do(Snapshot);
      if !ok {
        ok := Do(End);
        Ending(base, [Call(Begin, true), Call(Snapshot, false), Call(End, true)]);
        assert trace == base + [Call(Begin, true), Call(Snapshot, false), Call(End, true)];
        RefusedLate(arenaNeed, arenaFits, [Call(Begin, true), Call(Snapshot, false), Call(End, true)]);
        return Unchanged;
      }
      ok := Do(Prepare);
      assert trace == base + [Call(Begin, true), Call(Snapshot, true), Call(Prepare, ok)];
      if !ok { Ending(base, [Call(Begin, true), Call(Snapshot, true), Call(Prepare, false)]); }
      result := if ok then Ok else Fatal;
    }

    /** `config_apply_transaction_execute`. */
    method Execute(valid: bool, staged: bool, arenaNeed: nat, arenaFits: bool, haveOld: bool)
      returns (result: Result, ghost logged: bool, ghost broken: seq<Entry>, ghost back: seq<Entry>,
               ghost turns: Turns)
      requires runtime == Initial(haveOld) && trace == []
      requires Honest(world, trace)
      modifies this
      ensures Honest(world, trace)
      ensures result == Ok <==> Clean(trace)
      ensures result == Ok ==>
        && trace == Opening(arenaNeed) + Entering() + Applied(logged) + [Call(End, true)]
        && runtime == Target(Initial(haveOld), logged)
      ensures result == Unchanged <==> Untouched(trace)
      ensures result == Unchanged ==> Refused(valid && staged, arenaNeed, arenaFits, trace)
      ensures result != Unchanged ==> valid && staged && (arenaNeed != 0 ==> arenaFits)
      ensures back != [] ==> back == RollbackTrace(haveOld, turns)
      ensures result in {Unchanged, Restored} ==> runtime == Initial(haveOld)
      ensures result == FailedSafe ==> runtime == SafeState(false)
      ensures result == Fatal <==> runtime.held
      ensures result == Fatal ==> runtime.manifest == Old
      ensures result in {Restored, FailedSafe} ==>
        && trace == Opening(arenaNeed) + Entering() + broken + back + [Call(End, true)]
        && Broken(Applied(logged), broken) && Cautious(back)
        && (result == Restored <==> Clean(back)) && (result == Restored ==> back == RolledBack(haveOld))
        && (result == FailedSafe ==> back[|back| - 1] == Call(EnterSafe, true))
      ensures result == Fatal ==>
        || trace == Opening(arenaNeed) + [Call(Begin, true), Call(Snapshot, true), Call(Prepare, false)]
        || (trace == Opening(arenaNeed) + Entering() + broken + back
            && Broken(Applied(logged), broken) && Cautious(back) && !Clean(back)
            && (back == [Call(StopScheduler, false)] || back[|back| - 1] == Call(EnterSafe, false)))
    {
      hide Honest, Opening, Clean, Cautious, Broken, Tidy, Applied, RolledBack, Untouched, Refused, RollbackTrace;
      logged, broken, back, turns := false, [], [], Turns(true, true, ANY_FATES, true);
      result := Enter(valid, staged, arenaNeed, arenaFits);
      if result == Ok {
        ghost var entered := trace;
        var ok, log, t := Forward();
        logged := log;
        if ok {
          AllClean(arenaNeed, logged);
          Prepared(arenaNeed, Applied(logged) + [Call(End, true)]);
          assert entered + (t + [Call(End, true)]) == entered + t + [Call(End, true)];
          ok := Do(End);
          assert trace == entered + t + [Call(End, true)];
        } else {
          broken := t;
          result, back, turns := Rollback(haveOld);
          ghost var end := if result == Fatal then [] else [Call(End, true)];
          assert entered + (broken + (back + end)) == entered + broken + back + end;
          assert entered + broken + (back + end) == entered + broken + back + end;
          Dirty(entered, logged, broken, back + end);
          Prepared(arenaNeed, broken + (back + end));
          if result != Fatal {
            ok := Do(End);
          }
          assert trace == entered + broken + back + end;
        }
      }
    }
  }
}
