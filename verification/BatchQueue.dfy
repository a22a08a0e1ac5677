/**
 Aggregation of queued telemetry samples into one DataBatch frame: `report_try_data_batch` and the
 part of `report_task` around it (esp32-collector/components/bus_worker/bus_worker.c).
 */
module BatchQueue {
  import opened Wire
  import opened DataBatch

  const WINDOW_US := 20_000
  const BUF_SIZE := 1400

  /** `report_desc_t` together with the contents of the payload block it owns. */
  datatype Desc = Desc(channel: u32, ts: u64, sequence: u32, edge: u32, template: u32, index: u8,
                       critical: bool, emergency: bool, block: nat, payload: seq<byte>)

  predicate Batchable(d: Desc) { !d.critical && !d.emergency && d.payload != [] }

  predicate SameRoute(a: Desc, b: Desc) {
    a.channel == b.channel && a.edge == b.edge && a.template == b.template && a.index == b.index
  }

  /** `data_batch_compatible` */
  predicate Compatible(base: Desc, cand: Desc) {
    !cand.critical && !cand.emergency && !base.critical && !base.emergency
    && SameRoute(cand, base) && cand.ts >= base.ts && cand.payload != []
  }

  predicate InWindow(ts: u64, start: u64) { ts >= start && ts - start < WINDOW_US }

  /** The candidates in front of `g[0]` are the ones its frame would carry. */
  predicate Ordered(g: seq<Desc>) {
    g != [] && forall i | 0 <= i < |g| :: g[0].ts <= g[i].ts
  }

  function SamplesOf(g: seq<Desc>, base: u64): (r: seq<Sample>)
    requires forall i | 0 <= i < |g| :: base <= g[i].ts
    ensures |r| == |g| && forall i | 0 <= i < |g| :: r[i] == Sample(g[i].ts - base, g[i].payload)
  {
    if g == [] then []
    else SamplesOf(g[..|g| - 1], base) + [Sample(g[|g| - 1].ts - base, g[|g| - 1].payload)]
  }

  function BatchOf(g: seq<Desc>): Batch
    requires Ordered(g)
  {
    Batch(g[0].channel, g[0].ts, g[0].sequence, SamplesOf(g, g[0].ts), g[0].edge, g[0].template, g[0].index)
  }

  /** What a batch may consist of: one route, no critical sample, one window, one buffer. */
  predicate IsGroup(g: seq<Desc>) {
    && Ordered(g) && |g| <= MAX_SAMPLES
    && (forall i | 0 < i < |g| :: Compatible(g[0], g[i]) && InWindow(g[i].ts, g[0].ts))
    && (|g| > 1 ==> EncodedSize(BatchOf(g)) <= BUF_SIZE)
  }

  /** One more descriptor: the test the peeking loop makes. */
  lemma GroupGrows(g: seq<Desc>, d: Desc)
    requires IsGroup(g) && |g| < MAX_SAMPLES
    ensures Compatible(g[0], d) ==> Ordered(g + [d])
    ensures IsGroup(g + [d]) <==>
              Compatible(g[0], d) && InWindow(d.ts, g[0].ts) && EncodedSize(BatchOf(g + [d])) <= BUF_SIZE
  {
    hide EncodedSize, Compatible;
    var h := g + [d];
    assert h[0] == g[0] && h[|g|] == d && forall i | 0 <= i < |g| :: h[i] == g[i];
    assert Compatible(g[0], d) ==> g[0].ts <= d.ts by { CompatibleIsLater(g[0], d); }
  }

  lemma CompatibleIsLater(a: Desc, b: Desc)
    ensures Compatible(a, b) ==> a.ts <= b.ts
  {
  }

  /** How many queued descriptors join the group, taken one at a time. */
  function Joined(g: seq<Desc>, queue: seq<Desc>): (m: nat)
    ensures m <= |queue|
    decreases |queue|
  {
    if |g| >= MAX_SAMPLES || queue == [] || !IsGroup(g + [queue[0]]) then 0
    else 1 + Joined(g + [queue[0]], queue[1..])
  }

  // ---- The queue -----------------------------------------------------------------------------

  /** The telemetry queue, the free list of its payload blocks, the batch frames sent so far and
      the samples reported one at a time. */
  datatype Q = Q(queue: seq<Desc>, free: seq<nat>, sent: seq<seq<byte>>, alone: seq<Desc>)

  function Blocks(g: seq<Desc>): (r: seq<nat>)
    ensures |r| == |g| && forall i | 0 <= i < |g| :: r[i] == g[i].block
  {
    if g == [] then [] else Blocks(g[..|g| - 1]) + [g[|g| - 1].block]
  }

  /** The blocks in the order in which samples that do not fit are dropped: last one first. */
  function BlocksBack(g: seq<Desc>): (r: seq<nat>)
    ensures |r| == |g| && forall i | 0 <= i < |g| :: r[i] == g[|g| - 1 - i].block
  {
    if g == [] then [] else [g[|g| - 1].block] + BlocksBack(g[..|g| - 1])
  }

  /** Putting samples back one at a time, last one first. */
  function Back(depth: nat, s: Q, drops: nat, g: seq<Desc>): (Q, nat)
    decreases |g|
  {
    if g == [] then (s, drops)
    else
      var n := |g| - 1;
      if |s.queue| < depth then Back(depth, s.(queue := [g[n]] + s.queue), drops, g[..n])
      else Back(depth, s.(free := s.free + [g[n].block]), drops + 1, g[..n])
  }

  /** How many of `n` samples do not fit behind each other into what is left of the queue. */
  function Lost(depth: nat, queued: nat, n: nat): (lost: nat)
    ensures lost <= n
  {
    var room := if queued < depth then depth - queued else 0;
    if n <= room then 0 else n - room
  }

  lemma {:induction false} BackShape(depth: nat, s: Q, drops: nat, g: seq<Desc>)
    ensures var lost := Lost(depth, |s.queue|, |g|);
            Back(depth, s, drops, g) ==
              (s.(queue := g[lost..] + s.queue, free := s.free + BlocksBack(g[..lost])), drops + lost)
    decreases |g|
  {
    hide BlocksBack;
    var lost := Lost(depth, |s.queue|, |g|);
    if g == [] {
      assert g[..0] == [] && BlocksBack([]) == [] && g[lost..] + s.queue == s.queue && s.free + [] == s.free;
    } else {
      var n := |g| - 1;
      if |s.queue| < depth {
        BackShape(depth, s.(queue := [g[n]] + s.queue), drops, g[..n]);
        assert g[..n][..lost] == g[..lost];
        assert g[..n][lost..] + ([g[n]] + s.queue) == g[lost..] + s.queue;
      } else {
        BackShape(depth, s.(free := s.free + [g[n].block]), drops + 1, g[..n]);
        assert g[..n][..n] == g[..n] && g[..lost] == g && g[..n][n..] == [] && g[lost..] == [];
        assert BlocksBack(g) == [g[n].block] + BlocksBack(g[..n]) by { BlocksBackLast(g); }
        Associate(s.free, [g[n].block], BlocksBack(g[..n]));
      }
    }
  }

  lemma BlocksBackLast(g: seq<Desc>)
    requires g != []
    ensures BlocksBack(g) == [g[|g| - 1].block] + BlocksBack(g[..|g| - 1])
  {
  }

  /** All payload blocks; there are as many as the queue has places. */
  function Pool(depth: nat): (r: seq<nat>)
    ensures |r| == depth
  {
    seq(depth, i => i)
  }

  /** A sample that belongs in the telemetry queue. */
  predicate Telemetry(d: Desc) { !d.critical && !d.emergency && |d.payload| <= 1024 }

  /** `report_enqueue` for a telemetry sample: it takes a block, or is dropped. */
  function Arrive(depth: nat, s: Q, d: Desc): Q {
    if !Telemetry(d) || s.free == [] then s
    else if |s.queue| >= depth then s.(free := s.free[1..] + s.free[..1])
    else s.(free := s.free[1..], queue := s.queue + [d.(block := s.free[0])])
  }

  /** The outcome for a descriptor `d` just received from the queue; false hands it to the
      one-sample path. */
  function Try(on: bool, encoder: bool, d: Desc, s: Q): (Q, bool) {
    var m := Joined([d], s.queue);
    if !on || !Batchable(d) || m == 0 then (s, false)
    else
      var g := [d] + s.queue[..m];
      if encoder && Ordered(g) && DeltasOk(BatchOf(g).samples) then
        (Q(s.queue[m..], s.free + Blocks(g), s.sent + [FrameOf(BatchOf(g))], s.alone), true)
      else (s.(queue := [d] + s.queue), true)
  }

  /** One turn of the report task for the telemetry queue: receive, try to batch, else report the
      sample by itself and free its block. */
  function Serve(on: bool, encoder: bool, s: Q): Q {
    if s.queue == [] then s
    else
      var d := s.queue[0];
      var (s', taken) := Try(on, encoder, d, s.(queue := s.queue[1..]));
      if taken then s' else s'.(free := s'.free + [d.block], alone := s'.alone + [d])
  }

  class Reporter {
    const capability: bool
    const encoder: bool
    const depth: nat
    var queue: seq<Desc>
    var free: seq<nat>
    var sent: seq<seq<byte>>
    var alone: seq<Desc>
    var drops: nat

    constructor (capability: bool, encoder: bool, depth: nat)
      ensures this.capability == capability && this.encoder == encoder && this.depth == depth
      ensures State() == Q([], Pool(depth), [], []) && drops == 0
    {
      this.capability, this.encoder, this.depth := capability, encoder, depth;
      queue, free, sent, alone, drops := [], Pool(depth), [], [], 0;
    }

    function State(): Q
      reads this
    {
      Q(queue, free, sent, alone)
    }

    /** `report_enqueue`, called by the producers. */
    method Enqueue(d: Desc)
      requires !d.critical && !d.emergency
      modifies this`queue, this`free, this`drops
      ensures State() == Arrive(depth, old(State()), d)
      ensures drops == old(drops) + if |queue| == |old(queue)| then 1 else 0
    {
      if |d.payload| > MAX_RAW || |free| == 0 {
        drops := drops + 1;
        return;
      }
      var block := free[0];
      free := free[1..];
      if |queue| < depth {
        queue := queue + [d.(block := block)];
      } else {
        free, drops := free + [block], drops + 1;
      }
    }

    /** The injected encoder: it refuses what the strict encoder refuses, and then sends nothing. */
    method Publish(g: seq<Desc>) returns (ok: bool)
      requires IsGroup(g) && 2 <= |g| && forall d | d in g :: d.payload != [] && |d.payload| <= MAX_RAW
      modifies this`sent
      ensures ok == (encoder && DeltasOk(BatchOf(g).samples))
      ensures sent == if ok then old(sent) + [FrameOf(BatchOf(g))] else old(sent)
    {
      if !encoder || !ValidSamples(BatchOf(g).samples) {
        return false;
      }
      SizeIsExact(BatchOf(g));
      sent := sent + [FrameOf(BatchOf(g))];
      return true;
    }

    /** The peeking loop: an element leaves the queue only when the grown group is known to fit. */
    method Collect(desc: Desc) returns (cands: seq<Desc>)
      requires Batchable(desc)
      modifies this`queue
      ensures IsGroup(cands) && Ordered(cands) && |cands| == 1 + Joined([desc], old(queue))
      ensures cands == [desc] + old(queue)[..|cands| - 1] && queue == old(queue)[|cands| - 1..]
    {
      hide IsGroup, Compatible, InWindow, EncodedSize;
      cands := [desc];
      AloneIsGroup(desc);
      while |cands| < MAX_SAMPLES
        invariant 1 <= |cands| <= MAX_SAMPLES && |cands| - 1 <= |old(queue)| && IsGroup(cands) && Ordered(cands)
        invariant cands == [desc] + old(queue)[..|cands| - 1] && queue == old(queue)[|cands| - 1..]
        invariant Joined([desc], old(queue)) == |cands| - 1 + Joined(cands, queue)
        decreases MAX_SAMPLES - |cands|
      {
        if |queue| == 0 { break; }
        var peek := queue[0];
        GroupGrows(cands, peek);
        if !Compatible(desc, peek) { break; }
        if !InWindow(peek.ts, desc.ts) { break; }
        var projected := EncodedSize(BatchOf(cands + [peek]));
        if projected > BUF_SIZE { break; }
        queue := queue[1..];
        cands := cands + [peek];
      }
    }

    method FreeBlocks(cands: seq<Desc>)
      modifies this`free
      ensures free == old(free) + Blocks(cands)
    {
      for i := 0 to |cands|
        invariant free == old(free) + Blocks(cands)[..i]
      {
        free := free + [cands[i].block];
      }
    }

    /** Back to the head of the queue, last one first; what no longer fits is dropped, counted
        and its block freed. */
    method PutBack(cands: seq<Desc>)
      modifies this`queue, this`free, this`drops
      ensures var lost := Lost(depth, |old(queue)|, |cands|);
              queue == cands[lost..] + old(queue) && drops == old(drops) + lost
              && free == old(free) + BlocksBack(cands[..lost])
    {
      BackShape(depth, State(), drops, cands);
      var i := |cands|;
      ghost var goal := Back(depth, State(), drops, cands);
      assert cands[..i] == cands;
      while i > 0
        invariant 0 <= i <= |cands| && sent == old(sent) && alone == old(alone)
        invariant Back(depth, State(), drops, cands[..i]) == goal
      {
        i := i - 1;
        assert cands[..i + 1][..i] == cands[..i];
        if |queue| < depth {
          queue := [cands[i]] + queue;
        } else {
          free, drops := free + [cands[i].block], drops + 1;
        }
      }
    }

    /** `report_try_data_batch` for a descriptor received from the telemetry queue. */
    method TryDataBatch(desc: Desc) returns (taken: bool)
      requires |queue| < depth
      requires |desc.payload| <= MAX_RAW && forall d | d in queue :: |d.payload| <= MAX_RAW
      modifies this
      ensures (State(), taken) == Try(capability, encoder, desc, old(State()))
      ensures drops == old(drops)
    {
      hide Joined, IsGroup, DeltasOk, FrameOf, Blocks;
      if !capability { return false; }
      if desc.critical || desc.emergency || |desc.payload| == 0 { return false; }
      var cands := Collect(desc);
      if |cands| < 2 {
        assert queue == old(queue);
        return false;
      }
      GroupPayloads(desc, old(queue), |cands| - 1);
      var ok := Publish(cands);
      if ok {
        FreeBlocks(cands);
        return true;
      }
      PutBack(cands);
      assert cands[0..] == cands && queue == [desc] + old(queue) && free == old(free);
      return true;
    }

    /** The rest of the report task's turn. */
    method ServeOnce()
      requires |queue| <= depth && forall d | d in queue :: |d.payload| <= MAX_RAW
      modifies this
      ensures State() == Serve(capability, encoder, old(State())) && drops == old(drops)
    {
      hide Try;
      if |queue| == 0 { return; }
      var desc := queue[0];
      queue := queue[1..];
      var taken := TryDataBatch(desc);
      if !taken {
        alone := alone + [desc];
        free := free + [desc.block];
      }
    }
  }

  lemma AloneIsGroup(desc: Desc)
    ensures IsGroup([desc]) && Ordered([desc])
  {
  }

  lemma GroupPayloads(desc: Desc, queue: seq<Desc>, m: nat)
    requires m <= |queue| && IsGroup([desc] + queue[..m]) && Batchable(desc)
    requires |desc.payload| <= MAX_RAW && forall d | d in queue :: |d.payload| <= MAX_RAW
    ensures forall d | d in [desc] + queue[..m] :: d.payload != [] && |d.payload| <= MAX_RAW
  {
    var g := [desc] + queue[..m];
    forall i | 0 <= i < |g|
      ensures g[i].payload != [] && |g[i].payload| <= MAX_RAW
    {
      if i > 0 {
        assert Compatible(g[0], g[i]) && g[i] == queue[i - 1];
      }
    }
  }

  // ---- What is taken -------------------------------------------------------------------------

  lemma SamplesOfPrefix(g: seq<Desc>, d: Desc, base: u64)
    requires base <= d.ts && forall i | 0 <= i < |g + [d]| :: base <= (g + [d])[i].ts
    ensures forall i | 0 <= i < |g| :: base <= g[i].ts
    ensures SamplesOf(g + [d], base) == SamplesOf(g, base) + [Sample(d.ts - base, d.payload)]
  {
    forall i | 0 <= i < |g|
      ensures base <= g[i].ts
    {
      assert (g + [d])[i] == g[i];
    }
    assert (g + [d])[..|g|] == g;
  }

  lemma GroupPrefix(g: seq<Desc>, d: Desc)
    requires g != [] && IsGroup(g + [d])
    ensures IsGroup(g)
  {
    var h := g + [d];
    assert h[0] == g[0] && h[|g|] == d;
    SamplesOfPrefix(g, d, g[0].ts);
    forall i | 0 <= i < |g|
      ensures g[i] == h[i]
    {
    }
    var s := SamplesOf(g, g[0].ts);
    assert (s + [Sample(d.ts - g[0].ts, d.payload)])[..|s|] == s;
    assert BatchOf(h).samples[..|g|] == BatchOf(g).samples;
    assert EncodedSize(BatchOf(g)) <= EncodedSize(BatchOf(h));
  }

  /** The batch a group is sent as: routed and numbered like its first sample, offsets counted from that one. */
  function GroupBatch(g: seq<Desc>): (b: Batch)
    requires g != [] && forall i | 0 <= i < |g| :: g[0].ts <= g[i].ts
  {
    Batch(g[0].channel, g[0].ts, g[0].sequence,
          seq(|g|, i requires 0 <= i < |g| => Sample(g[i].ts - g[0].ts, g[i].payload)),
          g[0].edge, g[0].template, g[0].index)
  }

  lemma GroupBatchIs(g: seq<Desc>)
    requires Ordered(g)
    ensures BatchOf(g) == GroupBatch(g)
  {
    assert BatchOf(g).samples == GroupBatch(g).samples;
  }

  /** A group: at most four samples of one channel, device, template and index, none of them critical or empty and
      all less than 20 ms after the first, whose frame has at most 1400 bytes. */
  lemma GroupMeans(g: seq<Desc>)
    requires |g| >= 2
    ensures IsGroup(g) <==>
      && |g| <= 4 && !g[0].critical && !g[0].emergency
      && (forall i | 0 <= i < |g| :: g[0].ts <= g[i].ts)
      && (forall i | 1 <= i < |g| ::
            && !g[i].critical && !g[i].emergency && g[i].payload != [] && g[i].ts < g[0].ts + 20_000
            && g[i].channel == g[0].channel && g[i].edge == g[0].edge
            && g[i].template == g[0].template && g[i].index == g[0].index)
      && |FrameOf(GroupBatch(g))| <= 1400
  {
    hide EncodedSize, FrameOf;
    if Ordered(g) {
      SizeIsExact(BatchOf(g));
      GroupBatchIs(g);
    }
  }

  lemma {:induction false} GroupPrefixes(g: seq<Desc>, more: seq<Desc>)
    requires g != [] && IsGroup(g + more)
    ensures IsGroup(g)
    decreases |more|
  {
    if more == [] {
      assert g + more == g;
    } else {
      var n := |more| - 1;
      assert g + more == (g + more[..n]) + [more[n]];
      GroupPrefix(g + more[..n], more[n]);
      GroupPrefixes(g, more[..n]);
    }
  }

  lemma GroupsAreSmall(g: seq<Desc>)
    ensures IsGroup(g) ==> 1 <= |g| <= MAX_SAMPLES
  {
  }

  /** The queue prefix that joins is a group, and no longer prefix is one. */
  lemma {:induction false} JoinsLongestPrefix(g: seq<Desc>, queue: seq<Desc>)
    requires IsGroup(g)
    ensures IsGroup(g + queue[..Joined(g, queue)])
    ensures forall k | Joined(g, queue) < k <= |queue| :: !IsGroup(g + queue[..k])
    decreases |queue|
  {
    hide IsGroup;
    var m := Joined(g, queue);
    if m == 0 {
      assert g + queue[..0] == g;
      forall k | 0 < k <= |queue|
        ensures !IsGroup(g + queue[..k])
      {
        if IsGroup(g + queue[..k]) {
          GroupsAreSmall(g + queue[..k]);
          assert g + queue[..k] == (g + [queue[0]]) + queue[1..k];
          GroupPrefixes(g + [queue[0]], queue[1..k]);
        }
      }
    } else {
      JoinsLongestPrefix(g + [queue[0]], queue[1..]);
      assert g + queue[..m] == g + [queue[0]] + queue[1..][..m - 1];
      forall k | m < k <= |queue|
        ensures !IsGroup(g + queue[..k])
      {
        assert g + queue[..k] == g + [queue[0]] + queue[1..][..k - 1];
      }
    }
  }

  // ---- What is sent --------------------------------------------------------------------------

  /** The encoder accepts a group exactly when every later sample is later than the first and the
      timestamps never go back; the compatibility test only checks "not before the first". */
  lemma SendableIffOrdered(g: seq<Desc>)
    requires IsGroup(g)
    ensures DeltasOk(BatchOf(g).samples) <==>
              (forall i | 0 < i < |g| :: g[0].ts < g[i].ts) && forall i, j | 0 <= i < j < |g| :: g[i].ts <= g[j].ts
  {
    var s := BatchOf(g).samples;
    assert forall i | 0 <= i < |g| :: s[i].delta == g[i].ts - g[0].ts;
    if DeltasOk(s) {
      forall i, j | 0 <= i < j < |g|
        ensures g[i].ts <= g[j].ts
      {
        assert s[i].delta <= s[j].delta;
      }
    }
  }

  /** A frame that is sent fits the buffer and decodes to exactly the samples of its group. */
  lemma SentDecodesToGroup(g: seq<Desc>)
    requires IsGroup(g) && 2 <= |g| && DeltasOk(BatchOf(g).samples)
    requires 1 <= |g[0].payload| && forall d | d in g :: |d.payload| <= MAX_RAW
    ensures |FrameOf(BatchOf(g))| <= 1400
    ensures DecodeBatch(FrameOf(BatchOf(g))) == Some(GroupBatch(g))
  {
    forall i | 0 <= i < |g|
      ensures 1 <= |g[i].payload| <= MAX_RAW
    {
      assert g[i] in g;
      assert i > 0 ==> Compatible(g[0], g[i]);
    }
    SizeIsExact(BatchOf(g));
    BatchRoundTrip(BatchOf(g));
    GroupBatchIs(g);
  }

  // ---- What a turn of the report task does ---------------------------------------------------

  /** The head sample and those that join it cannot be encoded together. */
  predicate Jammed(on: bool, encoder: bool, s: Q) {
    && s.queue != [] && on && Batchable(s.queue[0])
    && var m := Joined([s.queue[0]], s.queue[1..]);
       var g := s.queue[..m + 1];
       m > 0 && !(encoder && Ordered(g) && DeltasOk(BatchOf(g).samples))
  }

  /** What leaves the queue in one turn. */
  function Leaving(on: bool, encoder: bool, s: Q): seq<Desc> {
    if s.queue == [] || Jammed(on, encoder, s) then []
    else if on && Batchable(s.queue[0]) then s.queue[..1 + Joined([s.queue[0]], s.queue[1..])]
    else s.queue[..1]
  }

  lemma BlocksOne(d: Desc)
    ensures Blocks([d]) == [d.block]
  {
  }

  /** A turn takes a prefix off the queue, in order, sends it as one frame or alone, and frees
      exactly its blocks; it changes nothing exactly when the head is jammed. */
  lemma ServeExactly(on: bool, encoder: bool, s: Q)
    ensures var out, s' := Leaving(on, encoder, s), Serve(on, encoder, s);
            && out + s'.queue == s.queue
            && s'.free == s.free + Blocks(out)
            && (|out| >= 2 ==> Ordered(out) && s'.sent == s.sent + [FrameOf(BatchOf(out))] && s'.alone == s.alone)
            && (|out| < 2 ==> s'.sent == s.sent && s'.alone == s.alone + out)
    ensures s.queue != [] ==> (Leaving(on, encoder, s) == [] <==> Jammed(on, encoder, s))
    ensures s.queue != [] ==> (Serve(on, encoder, s) == s <==> Jammed(on, encoder, s))
  {
    hide Joined, Ordered, DeltasOk, FrameOf, BatchOf, Batchable, Blocks;
    if s.queue != [] {
      var d, rest := s.queue[0], s.queue[1..];
      var m := Joined([d], rest);
      assert [d] + rest[..m] == s.queue[..m + 1] && s.queue[..1] == [d];
      assert [d] + rest == s.queue && rest[m..] == s.queue[m + 1..];
      BlocksOne(d);
    } else {
      assert Blocks([]) == [];
    }
    assert s.free + [] == s.free && s.alone + [] == s.alone;
  }

  function ServeTimes(on: bool, encoder: bool, s: Q, n: nat): Q
    decreases n
  {
    if n == 0 then s else ServeTimes(on, encoder, Serve(on, encoder, s), n - 1)
  }

  /** Timestamps of one route strictly increase along the queue. */
  predicate Increasing(queue: seq<Desc>) {
    forall i, j | 0 <= i < j < |queue| && SameRoute(queue[i], queue[j]) :: queue[i].ts < queue[j].ts
  }

  lemma IncreasingGroupIsSendable(g: seq<Desc>)
    requires IsGroup(g) && Increasing(g)
    ensures Ordered(g) && DeltasOk(BatchOf(g).samples)
  {
    forall i, j | 0 <= i < j < |g|
      ensures g[i].ts < g[j].ts
    {
      assert Compatible(g[0], g[j]) && (i > 0 ==> Compatible(g[0], g[i]));
      assert SameRoute(g[i], g[j]);
    }
    SendableIffOrdered(g);
  }

  lemma IncreasingIsNotJammed(on: bool, s: Q)
    requires Increasing(s.queue)
    ensures !Jammed(on, true, s)
  {
    hide IsGroup, Joined, Ordered, DeltasOk;
    if s.queue != [] {
      var d, rest := s.queue[0], s.queue[1..];
      var m := Joined([d], rest);
      AloneIsGroup(d);
      JoinsLongestPrefix([d], rest);
      var g := s.queue[..m + 1];
      assert g == [d] + rest[..m];
      assert Increasing(g);
      IncreasingGroupIsSendable(g);
    }
  }

  /** Such a pair exists: two one-byte samples of channel 1 taken at time 5. */
  lemma EqualTimestampsPair()
    ensures var d := Desc(1, 5, 1, 0, 0, 0, false, false, 0, [7]);
            Batchable(d) && IsGroup([d, d.(block := 1)])
  {
    var d := Desc(1, 5, 1, 0, 0, 0, false, false, 0, [7]);
    var g := [d, d.(block := 1)];
    var s := SamplesOf(g, 5);
    assert s == [Sample(0, [7]), Sample(0, [7])];
    assert s[..1] == [Sample(0, [7])] && s[..1][..0] == [];
    assert SamplesSize(s) == SamplesSize(s[..1]) + BytesFieldSize(5, SampleBodySize(s[1]));
  }

  lemma IncreasingSuffix(out: seq<Desc>, rest: seq<Desc>)
    requires Increasing(out + rest)
    ensures Increasing(rest)
  {
    forall i, j | 0 <= i < j < |rest| && SameRoute(rest[i], rest[j])
      ensures rest[i].ts < rest[j].ts
    {
      assert (out + rest)[|out| + i] == rest[i] && (out + rest)[|out| + j] == rest[j];
    }
  }

  lemma BlocksConcat(a: seq<Desc>, b: seq<Desc>)
    ensures Blocks(a + b) == Blocks(a) + Blocks(b)
  {
  }

  /** With the encoder in place and increasing timestamps, every queue is drained in at most as
      many turns as it is long, and every block comes back, in order. */
  lemma {:induction false} IncreasingDrains(on: bool, s: Q, n: nat)
    requires Increasing(s.queue) && |s.queue| <= n
    ensures ServeTimes(on, true, s, n).queue == []
    ensures ServeTimes(on, true, s, n).free == s.free + Blocks(s.queue)
    decreases n
  {
    hide Serve, Leaving, Jammed, Increasing;
    if n == 0 {
      assert s.free + [] == s.free;
    } else {
      ServeExactly(on, true, s);
      IncreasingIsNotJammed(on, s);
      var out, s' := Leaving(on, true, s), Serve(on, true, s);
      assert s.queue != [] ==> out != [];
      IncreasingSuffix(out, s'.queue);
      IncreasingDrains(on, s', n - 1);
      BlocksConcat(out, s'.queue);
      Associate(s.free, Blocks(out), Blocks(s'.queue));
    }
  }
}
