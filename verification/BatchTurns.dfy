/**
 The report task step by step, with producers enqueueing at any point in between: where every payload block
 is, why putting samples back always finds room, and what a head that cannot be encoded does to the queue.
 */
module BatchTurns {
  import opened Wire
  import opened DataBatch
  import opened BatchQueue

  /** What the task has in hand: samples collected, samples being put back, blocks being freed. */
  datatype Phase = Idle | Holding(g: seq<Desc>) | Returning(g: seq<Desc>) | Releasing(g: seq<Desc>)

  datatype Task = Task(q: Q, phase: Phase, drops: nat)

  function Held(t: Task): seq<Desc> { if t.phase.Idle? then [] else t.phase.g }

  /** The samples in hand, then those in the queue. */
  function Content(t: Task): seq<Desc> { Held(t) + t.q.queue }

  function After(g: seq<Desc>, phase: Phase): Phase { if g == [] then Idle else phase }

  /** The peeking loop takes one more. */
  predicate Grows(on: bool, g: seq<Desc>, queue: seq<Desc>) {
    on && g != [] && Batchable(g[0]) && |g| < MAX_SAMPLES && queue != [] && IsGroup(g + [queue[0]])
  }

  predicate Encodes(encoder: bool, g: seq<Desc>) { encoder && Ordered(g) && DeltasOk(BatchOf(g).samples) }

  /** The next thing the task does to a queue or a pool. */
  function Consume(on: bool, encoder: bool, depth: nat, t: Task): Task {
    var s := t.q;
    match t.phase
    case Idle =>
      if s.queue == [] then t else t.(q := s.(queue := s.queue[1..]), phase := Holding([s.queue[0]]))
    case Holding(g) =>
      if Grows(on, g, s.queue) then t.(q := s.(queue := s.queue[1..]), phase := Holding(g + [s.queue[0]]))
      else if |g| < 2 then t.(q := s.(alone := s.alone + g), phase := After(g, Releasing(g)))
      else if Encodes(encoder, g) then t.(q := s.(sent := s.sent + [FrameOf(BatchOf(g))]), phase := Releasing(g))
      else t.(phase := Returning(g))
    case Returning(g) =>
      if g == [] then t.(phase := Idle)
      else
        var n := |g| - 1;
        var (s', drops) := Back(depth, s, t.drops, [g[n]]);
        Task(s', After(g[..n], Returning(g[..n])), drops)
    case Releasing(g) =>
      if g == [] then t.(phase := Idle)
      else t.(q := s.(free := s.free + [g[0].block]), phase := After(g[1..], Releasing(g[1..])))
  }

  datatype Event = Arrival(d: Desc) | Turn

  function Step(on: bool, encoder: bool, depth: nat, t: Task, e: Event): Task {
    match e
    case Arrival(d) => t.(q := Arrive(depth, t.q, d))
    case Turn => Consume(on, encoder, depth, t)
  }

  function Run(on: bool, encoder: bool, depth: nat, t: Task, es: seq<Event>): Task
    decreases |es|
  {
    if es == [] then t else Run(on, encoder, depth, Step(on, encoder, depth, t, es[0]), es[1..])
  }

  function Start(depth: nat): Task { Task(Q([], Pool(depth), [], []), Idle, 0) }

  // ---- Where the blocks are ------------------------------------------------------------------

  /** Every block is free or belongs to exactly one sample, and no sample was ever dropped on its way back. */
  ghost predicate Whole(depth: nat, t: Task) {
    && multiset(t.q.free) + multiset(Blocks(Content(t))) == multiset(Pool(depth))
    && t.drops == 0 && (!t.phase.Idle? ==> t.phase.g != [])
  }

  lemma WholeCounts(depth: nat, t: Task)
    requires Whole(depth, t)
    ensures |t.q.free| + |Held(t)| + |t.q.queue| == depth
  {
    assert |multiset(t.q.free) + multiset(Blocks(Content(t)))| == |t.q.free| + |Blocks(Content(t))|;
    assert |multiset(Pool(depth))| == depth;
  }

  /** Taking the head of the queue in hand, or putting it back, moves no block. */
  lemma Handed(held: seq<Desc>, queue: seq<Desc>)
    requires queue != []
    ensures held + queue == held + [queue[0]] + queue[1..]
  {
    assert queue == [queue[0]] + queue[1..];
  }

  lemma ArriveWhole(depth: nat, t: Task, d: Desc)
    requires Whole(depth, t)
    ensures var t' := t.(q := Arrive(depth, t.q, d));
            Whole(depth, t') && t'.q.sent == t.q.sent && t'.q.alone == t.q.alone
            && (if Telemetry(d) && t.q.free != []
                then Content(t') == Content(t) + [d.(block := t.q.free[0])] && t'.q.free == t.q.free[1..]
                else t' == t)
  {
    hide Blocks, Pool;
    WholeCounts(depth, t);
    var s := t.q;
    if Telemetry(d) && s.free != [] {
      var e := d.(block := s.free[0]);
      Associate(Held(t), s.queue, [e]);
      BlocksConcat(Content(t), [e]);
      BlocksOne(e);
      assert s.free == [s.free[0]] + s.free[1..];
    }
  }

  lemma BackOne(depth: nat, s: Q, drops: nat, d: Desc)
    requires |s.queue| < depth
    ensures Back(depth, s, drops, [d]) == (s.(queue := [d] + s.queue), drops)
  {
    assert [d][..0] == [];
  }

  lemma ReturnWhole(depth: nat, t: Task)
    requires Whole(depth, t) && t.phase.Returning?
    ensures var g := t.phase.g; var n := |g| - 1;
            Consume(true, true, depth, t)
              == Task(t.q.(queue := [g[n]] + t.q.queue), After(g[..n], Returning(g[..n])), 0)
            && Content(Consume(true, true, depth, t)) == Content(t)
  {
    hide Blocks, Pool;
    WholeCounts(depth, t);
    var g := t.phase.g;
    var n := |g| - 1;
    BackOne(depth, t.q, 0, g[n]);
    assert g[..n] + ([g[n]] + t.q.queue) == g + t.q.queue;
  }

  lemma ReleaseWhole(depth: nat, t: Task)
    requires Whole(depth, t) && t.phase.Releasing?
    ensures Whole(depth, Consume(true, true, depth, t))
  {
    hide Pool, Blocks, Consume;
    var g := t.phase.g;
    var u := Consume(true, true, depth, t);
    Released(depth, t);
    BlocksConcat([g[0]], Content(u));
    BlocksOne(g[0]);
  }

  lemma Released(depth: nat, t: Task)
    requires t.phase.Releasing? && t.phase.g != []
    ensures var u := Consume(true, true, depth, t);
            && u.q.free == t.q.free + [t.phase.g[0].block] && u.drops == t.drops
            && (!u.phase.Idle? ==> u.phase.g != []) && Content(t) == [t.phase.g[0]] + Content(u)
  {
    var g := t.phase.g;
    assert g + t.q.queue == [g[0]] + (g[1..] + t.q.queue);
  }

  /** A step that moves samples between the queue and the task's hands, or sends them, moves no block. */
  lemma KeepsWhole(depth: nat, t: Task, u: Task)
    requires Whole(depth, t) && u.q.free == t.q.free && u.drops == t.drops && Content(u) == Content(t)
    requires !u.phase.Idle? ==> u.phase.g != []
    ensures Whole(depth, u)
  {
  }

  lemma StepWhole(on: bool, encoder: bool, depth: nat, t: Task, e: Event)
    requires Whole(depth, t)
    ensures Whole(depth, Step(on, encoder, depth, t, e))
  {
    hide Whole, Consume, Arrive;
    match e
    case Arrival(d) => ArriveWhole(depth, t, d);
    case Turn => ConsumeWhole(on, encoder, depth, t);
  }

  lemma ConsumeWhole(on: bool, encoder: bool, depth: nat, t: Task)
    requires Whole(depth, t)
    ensures Whole(depth, Consume(on, encoder, depth, t))
  {
    hide Blocks, Pool, Grows, Encodes, Back, BatchOf, FrameOf;
    var u := Consume(on, encoder, depth, t);
    match t.phase
    case Returning(g) => ReturnWhole(depth, t);
    case Releasing(g) => ReleaseWhole(depth, t);
    case Idle =>
      if t.q.queue != [] {
        assert Content(t) == t.q.queue == [t.q.queue[0]] + t.q.queue[1..];
        KeepsWhole(depth, t, u);
      }
    case Holding(g) =>
      if Grows(on, g, t.q.queue) {
        GrowsIs(on, g, t.q.queue);
        Handed(g, t.q.queue);
      }
      KeepsWhole(depth, t, u);
  }

  lemma GrowsIs(on: bool, g: seq<Desc>, queue: seq<Desc>)
    requires Grows(on, g, queue)
    ensures on && g != [] && Batchable(g[0]) && |g| < MAX_SAMPLES && queue != [] && IsGroup(g + [queue[0]])
  {
  }

  lemma {:induction false} RunWhole(on: bool, encoder: bool, depth: nat, t: Task, es: seq<Event>)
    requires Whole(depth, t)
    ensures Whole(depth, Run(on, encoder, depth, t, es))
    decreases |es|
  {
    hide Whole, Step;
    if es != [] {
      StepWhole(on, encoder, depth, t, es[0]);
      RunWhole(on, encoder, depth, Step(on, encoder, depth, t, es[0]), es[1..]);
    }
  }

  /** However producers and the report task interleave: no block is lost or freed twice, and putting samples
      back always finds room, because the queue has as many places as there are blocks. */
  lemma NothingDroppedBack(on: bool, encoder: bool, depth: nat, es: seq<Event>)
    ensures var t := Run(on, encoder, depth, Start(depth), es);
            && t.drops == 0 && |Content(t)| + |t.q.free| == depth
            && multiset(t.q.free) + multiset(Blocks(Content(t))) == multiset(Pool(depth))
  {
    hide Run;
    assert Content(Start(depth)) == [];
    RunWhole(on, encoder, depth, Start(depth), es);
    WholeCounts(depth, Run(on, encoder, depth, Start(depth), es));
  }

  // ---- Without producers, the steps make up a turn -------------------------------------------

  function Alone(n: nat): (es: seq<Event>)
    ensures |es| == n && forall i | 0 <= i < n :: es[i] == Turn
  {
    seq(n, i => Turn)
  }

  /** `n` steps of the task with nothing arriving. */
  function Steps(on: bool, encoder: bool, depth: nat, t: Task, n: nat): Task
    decreases n
  {
    if n == 0 then t else Steps(on, encoder, depth, Consume(on, encoder, depth, t), n - 1)
  }

  lemma {:induction false} StepsAre(on: bool, encoder: bool, depth: nat, t: Task, n: nat)
    ensures Run(on, encoder, depth, t, Alone(n)) == Steps(on, encoder, depth, t, n)
    decreases n
  {
    hide Consume;
    if n > 0 {
      assert Alone(n)[1..] == Alone(n - 1);
      StepsAre(on, encoder, depth, Consume(on, encoder, depth, t), n - 1);
    }
  }

  lemma {:induction false} StepsMore(on: bool, encoder: bool, depth: nat, t: Task, n: nat, k: nat)
    ensures Steps(on, encoder, depth, Steps(on, encoder, depth, t, n), k) == Steps(on, encoder, depth, t, n + k)
    decreases n
  {
    hide Consume;
    if n > 0 { StepsMore(on, encoder, depth, Consume(on, encoder, depth, t), n - 1, k); }
  }

  lemma {:induction false} CollectSteps(on: bool, encoder: bool, depth: nat, t: Task)
    requires t.phase.Holding? && on && t.phase.g != [] && Batchable(t.phase.g[0])
    ensures var m := Joined(t.phase.g, t.q.queue);
            Steps(on, encoder, depth, t, m)
              == t.(q := t.q.(queue := t.q.queue[m..]), phase := Holding(t.phase.g + t.q.queue[..m]))
    decreases |t.q.queue|
  {
    hide IsGroup, Batchable;
    var g, queue := t.phase.g, t.q.queue;
    var m := Joined(g, queue);
    if m > 0 {
      var t' := Consume(on, encoder, depth, t);
      CollectSteps(on, encoder, depth, t');
      assert g + [queue[0]] + queue[1..][..m - 1] == g + queue[..m] && queue[1..][m - 1..] == queue[m..];
    } else {
      assert queue[0..] == queue && g + queue[..0] == g;
    }
  }

  lemma {:induction false} ReturnSteps(on: bool, encoder: bool, depth: nat, t: Task)
    requires t.phase.Returning? && t.phase.g != [] && |t.q.queue| + |t.phase.g| <= depth
    ensures Steps(on, encoder, depth, t, |t.phase.g|) == t.(q := t.q.(queue := t.phase.g + t.q.queue), phase := Idle)
    decreases |t.phase.g|
  {
    var g := t.phase.g;
    var n := |g| - 1;
    BackOne(depth, t.q, t.drops, g[n]);
    assert g[..n] + ([g[n]] + t.q.queue) == g + t.q.queue;
    if n > 0 { ReturnSteps(on, encoder, depth, Consume(on, encoder, depth, t)); }
  }

  lemma {:induction false} ReleaseSteps(on: bool, encoder: bool, depth: nat, t: Task)
    requires t.phase.Releasing? && t.phase.g != []
    ensures Steps(on, encoder, depth, t, |t.phase.g|)
              == t.(q := t.q.(free := t.q.free + Blocks(t.phase.g)), phase := Idle)
    decreases |t.phase.g|
  {
    var g := t.phase.g;
    BlocksOne(g[0]);
    assert g == [g[0]] + g[1..];
    BlocksConcat([g[0]], g[1..]);
    Associate(t.q.free, [g[0].block], Blocks(g[1..]));
    if |g| > 1 { ReleaseSteps(on, encoder, depth, Consume(on, encoder, depth, t)); }
  }

  lemma StepsFew(on: bool, encoder: bool, depth: nat, t: Task)
    ensures Steps(on, encoder, depth, t, 0) == t
    ensures t.phase.Idle? && t.q.queue != [] ==>
              Steps(on, encoder, depth, t, 1) == t.(q := t.q.(queue := t.q.queue[1..]),
                       phase := Holding([t.q.queue[0]]))
    ensures t.q.queue == [] ==> Serve(on, encoder, t.q) == t.q
  {
    assert Steps(on, encoder, depth, t, 1) == Steps(on, encoder, depth, Consume(on, encoder, depth, t), 0);
  }

  lemma GrowsNoMore(on: bool, g: seq<Desc>, queue: seq<Desc>)
    requires g != [] && on && Batchable(g[0])
    ensures !Grows(on, g + queue[..Joined(g, queue)], queue[Joined(g, queue)..])
    decreases |queue|
  {
    hide IsGroup, Batchable;
    var m := Joined(g, queue);
    if m > 0 {
      GrowsNoMore(on, g + [queue[0]], queue[1..]);
      assert g + [queue[0]] + queue[1..][..m - 1] == g + queue[..m] && queue[1..][m - 1..] == queue[m..];
    } else {
      assert queue[0..] == queue && g + queue[..0] == g;
    }
  }

  /** With nothing in between, the steps from one receive to the next are one turn of the report task. */
  lemma StepsMakeATurn(on: bool, encoder: bool, depth: nat, s: Q, drops: nat) returns (n: nat)
    requires |s.queue| <= depth
    ensures Run(on, encoder, depth, Task(s, Idle, drops), Alone(n)) == Task(Serve(on, encoder, s), Idle, drops)
  {
    hide Consume, Serve, Joined, IsGroup, Batchable, Steps, Run;
    var t := Task(s, Idle, drops);
    n := 0;
    StepsFew(on, encoder, depth, t);
    if s.queue != [] {
      var d, rest := s.queue[0], s.queue[1..];
      var t1 := Task(s.(queue := rest), Holding([d]), drops);
      var m := if on && Batchable(d) then Joined([d], rest) else 0;
      var g := [d] + rest[..m];
      var t2 := Task(s.(queue := rest[m..]), Holding(g), drops);
      FinishTurn(on, encoder, depth, s, m, drops);
      StepsFew(on, encoder, depth, t1);
      if on && Batchable(d) {
        CollectSteps(on, encoder, depth, t1);
      } else {
        assert rest[0..] == rest && g == [d];
      }
      assert Steps(on, encoder, depth, t1, m) == t2;
      StepsMore(on, encoder, depth, t, 1, m);
      n := 1 + m + 1 + |g|;
      StepsMore(on, encoder, depth, t, 1 + m, 1 + |g|);
    }
    StepsAre(on, encoder, depth, t, n);
  }

  lemma FinishTurn(on: bool, encoder: bool, depth: nat, s: Q, m: nat, drops: nat)
    requires s.queue != [] && |s.queue| <= depth
    requires m == if on && Batchable(s.queue[0]) then Joined([s.queue[0]], s.queue[1..]) else 0
    ensures var g := [s.queue[0]] + s.queue[1..][..m];
            var t := Task(s.(queue := s.queue[1..][m..]), Holding(g), drops);
            Steps(on, encoder, depth, t, 1 + |g|) == Task(Serve(on, encoder, s), Idle, drops)
  {
    hide IsGroup, Batchable, Joined, DeltasOk, FrameOf;
    var d, rest := s.queue[0], s.queue[1..];
    var g := [d] + rest[..m];
    var t := Task(s.(queue := rest[m..]), Holding(g), drops);
    if on && Batchable(d) {
      GrowsNoMore(on, [d], rest);
    } else {
      assert !Grows(on, g, rest[m..]);
    }
    var u := Consume(on, encoder, depth, t);
    assert Steps(on, encoder, depth, t, 1 + |g|) == Steps(on, encoder, depth, u, |g|);
    if |g| < 2 {
      assert g == [d] && rest[0..] == rest;
      BlocksOne(d);
      ReleaseSteps(on, encoder, depth, u);
    } else if Encodes(encoder, g) {
      ReleaseSteps(on, encoder, depth, u);
    } else {
      ReturnSteps(on, encoder, depth, u);
      assert g + rest[m..] == [d] + rest;
    }
  }

  // ---- A jam ---------------------------------------------------------------------------------

  lemma {:induction false} JoinedSplit(g: seq<Desc>, a: seq<Desc>, queue: seq<Desc>)
    requires Joined(g, a) == |a|
    ensures Joined(g, a + queue) == |a| + Joined(g + a, queue)
    decreases |a|
  {
    hide IsGroup;
    if a == [] {
      assert a + queue == queue && g + a == g;
    } else {
      JoinedSplit(g + [a[0]], a[1..], queue);
      assert (a + queue)[1..] == a[1..] + queue && g + [a[0]] + a[1..] == g + a;
    }
  }

  lemma {:induction false} JoinedMore(g: seq<Desc>, queue: seq<Desc>, more: seq<Desc>)
    ensures Joined(g, queue) <= Joined(g, queue + more)
    decreases |queue|
  {
    hide IsGroup;
    if Joined(g, queue) > 0 {
      assert (queue + more)[1..] == queue[1..] + more;
      JoinedMore(g + [queue[0]], queue[1..], more);
    }
  }

  /** What a head that cannot be encoded collects is a group out of order; so is any larger group. */
  lemma JammedMore(on: bool, encoder: bool, s: Q, more: seq<Desc>)
    requires Jammed(on, encoder, s)
    ensures Jammed(on, encoder, s.(queue := s.queue + more))
  {
    hide IsGroup, Joined, DeltasOk, Ordered, Batchable, BatchOf;
    var d, rest := s.queue[0], s.queue[1..];
    var all := s.queue + more;
    assert all[0] == d && all[1..] == rest + more;
    JoinedMore([d], rest, more);
    AloneIsGroup(d);
    JoinsLongestPrefix([d], rest);
    JoinsLongestPrefix([d], rest + more);
    var m, n := Joined([d], rest), Joined([d], rest + more);
    var g, h := s.queue[..m + 1], all[..n + 1];
    assert g == [d] + rest[..m] && h == [d] + (rest + more)[..n];
    if encoder && Ordered(h) && DeltasOk(BatchOf(h).samples) {
      SendablePrefix(g, h);
    }
  }

  lemma SendablePrefix(g: seq<Desc>, h: seq<Desc>)
    requires IsGroup(g) && IsGroup(h) && g <= h && DeltasOk(BatchOf(h).samples)
    ensures Ordered(g) && DeltasOk(BatchOf(g).samples)
  {
    hide DeltasOk, BatchOf;
    SendableIffOrdered(g);
    SendableIffOrdered(h);
    assert forall i | 0 <= i < |g| :: g[i] == h[i];
  }

  /** Everything in hand joined the first sample. */
  predicate Collected(on: bool, g: seq<Desc>) {
    && 1 <= |g| <= MAX_SAMPLES && Joined([g[0]], g[1..]) == |g| - 1
    && (|g| > 1 ==> on && Batchable(g[0]))
  }

  lemma CollectedGrows(on: bool, g: seq<Desc>, queue: seq<Desc>)
    requires Collected(on, g) && Grows(on, g, queue)
    ensures Collected(on, g + [queue[0]])
  {
    hide IsGroup, Batchable;
    var x := [queue[0]];
    JoinedSplit([g[0]], g[1..], x);
    assert [g[0]] + g[1..] == g && (g + x)[1..] == g[1..] + x && x[1..] == [];
    assert Joined(g, x) == 1;
  }

  /** When the loop stops in front of a jam, what is in hand cannot be encoded. */
  lemma CollectedStops(on: bool, encoder: bool, s: Q, g: seq<Desc>, queue: seq<Desc>)
    requires Collected(on, g) && !Grows(on, g, queue) && s.queue == g + queue && Jammed(on, encoder, s)
    ensures |g| >= 2 && !Encodes(encoder, g)
  {
    hide IsGroup, Batchable, DeltasOk, BatchOf;
    assert s.queue[1..] == g[1..] + queue && [g[0]] + g[1..] == g;
    JoinedSplit([g[0]], g[1..], queue);
    assert Joined(g, queue) == 0;
    assert s.queue[..|g|] == g;
  }

  /** What is in hand and in the queue begins with samples that cannot be encoded. */
  predicate Stuck(on: bool, encoder: bool, t: Task) {
    && Jammed(on, encoder, t.q.(queue := Content(t)))
    && !t.phase.Releasing? && (t.phase.Holding? ==> Collected(on, t.phase.g))
  }

  lemma JammedQueue(on: bool, encoder: bool, s: Q, t: Q)
    requires Jammed(on, encoder, s) && t.queue == s.queue
    ensures Jammed(on, encoder, t)
  {
  }

  lemma StartsCollected(on: bool, d: Desc)
    ensures Collected(on, [d])
  {
    assert [d][1..] == [];
  }

  lemma JamTurn(on: bool, encoder: bool, depth: nat, t: Task)
    requires Whole(depth, t) && Stuck(on, encoder, t)
    ensures var u := Consume(on, encoder, depth, t);
            && Stuck(on, encoder, u) && Content(u) == Content(t)
            && u.q.sent == t.q.sent && u.q.alone == t.q.alone && u.q.free == t.q.free
  {
    hide Jammed, Grows, Collected, Encodes, BatchOf, FrameOf, Back, Blocks;
    var s := t.q.(queue := Content(t));
    var u := Consume(on, encoder, depth, t);
    match t.phase
    case Idle =>
      if t.q.queue == [] {
        NoJam(on, encoder, s);
      } else {
        assert Content(t) == t.q.queue == [t.q.queue[0]] + t.q.queue[1..];
        StartsCollected(on, t.q.queue[0]);
      }
    case Holding(g) =>
      if Grows(on, g, t.q.queue) {
        GrowsIs(on, g, t.q.queue);
        CollectedGrows(on, g, t.q.queue);
        Handed(g, t.q.queue);
      } else {
        CollectedStops(on, encoder, s, g, t.q.queue);
      }
    case Returning(g) => ReturnWhole(depth, t);
    JammedQueue(on, encoder, s, u.q.(queue := Content(u)));
  }

  lemma NoJam(on: bool, encoder: bool, s: Q)
    requires Jammed(on, encoder, s)
    ensures s.queue != []
  {
  }

  lemma JamArrival(on: bool, encoder: bool, depth: nat, t: Task, d: Desc)
    requires Whole(depth, t) && Stuck(on, encoder, t)
    ensures Stuck(on, encoder, t.(q := Arrive(depth, t.q, d)))
  {
    hide Jammed, Arrive, Collected;
    ArriveWhole(depth, t, d);
    var u := t.(q := Arrive(depth, t.q, d));
    if u != t {
      var more := [d.(block := t.q.free[0])];
      JammedMore(on, encoder, t.q.(queue := Content(t)), more);
      JammedQueue(on, encoder, t.q.(queue := Content(t) + more), u.q.(queue := Content(u)));
    }
  }

  /** Telemetry samples the producers bring. */
  function Offered(es: seq<Event>): nat {
    if es == [] then 0 else (if es[0].Arrival? && Telemetry(es[0].d) then 1 else 0) + Offered(es[1..])
  }

  function Least(a: nat, b: nat): nat { if a < b then a else b }

  /** A jam survives every interleaving of arrivals and turns.  Nothing more is sent or reported; samples are
      accepted until the blocks run out, and every later one is dropped. */
  lemma {:induction false} JammedForever(on: bool, encoder: bool, depth: nat, t: Task, es: seq<Event>)
    requires Whole(depth, t) && Stuck(on, encoder, t)
    ensures var u := Run(on, encoder, depth, t, es);
            && Whole(depth, u) && Stuck(on, encoder, u)
            && u.q.sent == t.q.sent && u.q.alone == t.q.alone && Content(t) <= Content(u)
            && |Content(u)| == Least(depth, |Content(t)| + Offered(es))
    decreases |es|
  {
    hide Whole, Stuck, Consume, Arrive, Content;
    WholeCounts(depth, t);
    ContentSize(t);
    if es != [] {
      var t' := Step(on, encoder, depth, t, es[0]);
      StepWhole(on, encoder, depth, t, es[0]);
      match es[0] {
        case Arrival(d) =>
          ArriveWhole(depth, t, d);
          JamArrival(on, encoder, depth, t, d);
        case Turn =>
          JamTurn(on, encoder, depth, t);
      }
      WholeCounts(depth, t');
      ContentSize(t');
      JammedForever(on, encoder, depth, t', es[1..]);
    }
  }

  lemma ContentSize(t: Task)
    ensures |Content(t)| == |Held(t)| + |t.q.queue|
  {
  }

  /** A queue that begins with two samples of one timestamp that belong together is jammed. */
  lemma EqualTimestampsJam(encoder: bool, s: Q)
    requires |s.queue| >= 2 && Batchable(s.queue[0]) && IsGroup(s.queue[..2]) && s.queue[0].ts == s.queue[1].ts
    ensures Jammed(true, encoder, s)
  {
    hide IsGroup, DeltasOk, BatchOf;
    var d, e, more := s.queue[0], s.queue[1], s.queue[2..];
    assert s.queue[..2] == [d, e] == [d] + [e] && s.queue == [d, e] + more;
    assert [e][1..] == [] && Joined([d], [e]) == 1;
    SendableIffOrdered([d, e]);
    var pair := s.(queue := [d, e]);
    assert pair.queue[1..] == [e] && pair.queue[..2] == [d, e];
    JammedMore(true, encoder, pair, more);
    JammedQueue(true, encoder, pair.(queue := pair.queue + more), s);
  }

  lemma BlocksDoNotMatter(d: Desc, e: Desc, i: nat, j: nat)
    ensures IsGroup([d.(block := i), e.(block := j)]) <==> IsGroup([d, e])
  {
    var g, h := [d, e], [d.(block := i), e.(block := j)];
    if Ordered(g) {
      assert SamplesOf(g, d.ts) == SamplesOf(h, d.ts);
    }
    assert g[0] == d && g[1] == e && h[0] == d.(block := i) && h[1] == e.(block := j);
    assert Compatible(h[0], h[1]) <==> Compatible(g[0], g[1]);
  }

  lemma TwoArrive(on: bool, encoder: bool, depth: nat, d: Desc, e: Desc, es: seq<Event>)
    requires depth >= 2 && Telemetry(d) && Telemetry(e)
    ensures var b := Task(Q([d.(block := 0), e.(block := 1)], Pool(depth)[2..], [], []), Idle, 0);
            && Run(on, encoder, depth, Start(depth), [Arrival(d), Arrival(e)]) == b
            && Run(on, encoder, depth, Start(depth), [Arrival(d), Arrival(e)] + es) == Run(on, encoder, depth, b, es)
  {
    hide Consume, Telemetry;
    var two := [Arrival(d), Arrival(e)];
    assert two[1..] == [Arrival(e)] && two[1..][1..] == [];
    assert (two + es)[1..] == [Arrival(e)] + es && ([Arrival(e)] + es)[1..] == es;
    assert Pool(depth)[1..][0] == 1 && Pool(depth)[1..][1..] == Pool(depth)[2..];
    var a := Step(on, encoder, depth, Start(depth), Arrival(d));
    assert a == Task(Q([d.(block := 0)], Pool(depth)[1..], [], []), Idle, 0);
    var b := Step(on, encoder, depth, a, Arrival(e));
    assert b.q.queue == [d.(block := 0), e.(block := 1)];
    assert Run(on, encoder, depth, b, []) == b;
    assert Run(on, encoder, depth, a, [Arrival(e)]) == b;
    assert Run(on, encoder, depth, a, [Arrival(e)] + es) == Run(on, encoder, depth, b, es);
  }

  /** From boot: once two such samples have arrived, the device never sends telemetry again. */
  lemma SilentFromBoot(encoder: bool, depth: nat, d: Desc, e: Desc, es: seq<Event>)
    requires depth >= 2 && Batchable(d) && IsGroup([d, e]) && d.ts == e.ts && Telemetry(d) && Telemetry(e)
    ensures var u := Run(true, encoder, depth, Start(depth), [Arrival(d), Arrival(e)] + es);
            u.q.sent == [] && u.q.alone == [] && |Content(u)| == Least(depth, 2 + Offered(es))
  {
    TwoArrive(true, encoder, depth, d, e, es);
    NothingDroppedBack(true, encoder, depth, [Arrival(d), Arrival(e)]);
    BlocksDoNotMatter(d, e, 0, 1);
    var s := Q([d.(block := 0), e.(block := 1)], Pool(depth)[2..], [], []);
    var b := Task(s, Idle, 0);
    assert s.queue[..2] == s.queue && Content(b) == s.queue;
    assert Batchable(s.queue[0]);
    hide IsGroup, Run, Joined, Jammed, Batchable, Pool, Telemetry, Compatible;
    EqualTimestampsJam(encoder, s);
    JammedQueue(true, encoder, s, s.(queue := Content(b)));
    JammedForever(true, encoder, depth, b, es);
  }
}
