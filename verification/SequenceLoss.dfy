/**
 Loss accounting by sequence number (scripts/uart_real_soak.py): for every channel, the reports received and
 the numbers skipped between them, modulo 2^32.
 */
module SequenceLoss {
  import opened Wire

  const WORD := 0x1_0000_0000

  /** A received report, as far as the accounting looks at it. */
  datatype Report = Report(channel: nat, sequence: nat, bytes: nat, failed: bool)

  datatype Stats = Stats(count: nat, errors: nat, bytes: nat, gaps: nat, missing: nat, last: Option<nat>)

  const EMPTY := Stats(0, 0, 0, 0, 0, None)

  /** The numbers skipped between two consecutive reports of a channel. */
  function Between(last: nat, next: nat): nat {
    var gap := (next - last) % WORD;
    if gap > 1 then gap - 1 else 0
  }

  /** One more report of the channel. */
  function Add(st: Stats, r: Report): Stats {
    var skipped := if st.last.Some? then Between(st.last.value, r.sequence) else 0;
    Stats(st.count + 1, st.errors + (if r.failed then 1 else 0), st.bytes + r.bytes,
          st.gaps + (if skipped > 0 then 1 else 0), st.missing + skipped, Some(r.sequence))
  }

  /** The statistics of one channel, whatever the others do in between. */
  function Tally(data: seq<Report>, channel: nat): Stats {
    if data == [] then EMPTY
    else
      var n := |data| - 1;
      var st := Tally(data[..n], channel);
      if data[n].channel == channel then Add(st, data[n]) else st
  }

  /** The loop of `analyze` over the reports of all channels. */
  method Analyze(data: seq<Report>) returns (perChannel: map<nat, Stats>)
    ensures forall c :: c in perChannel <==> exists i :: 0 <= i < |data| && data[i].channel == c
    ensures forall c :: c in perChannel ==> perChannel[c] == Tally(data, c)
  {
    hide Add;
    perChannel := map[];
    var i := 0;
    while i < |data|
      invariant i <= |data|
      invariant forall c :: c in perChannel <==> exists j :: 0 <= j < i && data[j].channel == c
      invariant forall c: nat :: (if c in perChannel then perChannel[c] else EMPTY) == Tally(data[..i], c)
    {
      var r := data[i];
      assert data[..i + 1][..i] == data[..i];
      var st := if r.channel in perChannel then perChannel[r.channel] else EMPTY;
      perChannel := perChannel[r.channel := Add(st, r)];
      i := i + 1;
    }
    assert data[..i] == data;
  }

  // ---- What was sent -------------------------------------------------------------------------

  /**
   `at[i]` is the place of the i-th received report among all its channel has sent, counted without wrapping.
   Reports of a channel arrive in the order sent, and carry their place modulo 2^32.
   */
  predicate Received(data: seq<Report>, at: seq<nat>) {
    && |at| == |data|
    && (forall i :: 0 <= i < |data| ==> data[i].sequence == at[i] % WORD)
    && (forall i, j :: 0 <= i < j < |data| && data[i].channel == data[j].channel ==> at[i] < at[j])
  }

  /** The places of one channel's reports. */
  function Places(data: seq<Report>, at: seq<nat>, channel: nat): (ps: seq<nat>)
    requires |at| == |data|
  {
    if data == [] then []
    else
      var n := |data| - 1;
      Places(data[..n], at[..n], channel) + if data[n].channel == channel then [at[n]] else []
  }

  predicate Increasing(ps: seq<nat>) { forall i, j :: 0 <= i < j < |ps| ==> ps[i] < ps[j] }

  /** The last place of a channel, if any, belongs to one of its reports. */
  predicate LastSeen(data: seq<Report>, at: seq<nat>, channel: nat, ps: seq<nat>)
    requires |at| == |data|
  {
    ps != [] ==> exists i :: 0 <= i < |data| && data[i].channel == channel && at[i] == ps[|ps| - 1]
  }

  lemma SeenBefore(data: seq<Report>, at: seq<nat>, channel: nat, ps: seq<nat>)
    requires data != [] && Received(data, at)
    requires var n := |data| - 1; LastSeen(data[..n], at[..n], channel, ps)
    ensures LastSeen(data, at, channel, ps)
    ensures ps != [] && data[|data| - 1].channel == channel ==> ps[|ps| - 1] < at[|data| - 1]
  {
    var n := |data| - 1;
    if ps != [] {
      var i :| 0 <= i < n && data[..n][i].channel == channel && at[..n][i] == ps[|ps| - 1];
      assert data[i].channel == channel && at[i] == ps[|ps| - 1];
    }
  }

  lemma ReceivedBefore(data: seq<Report>, at: seq<nat>)
    requires data != [] && Received(data, at)
    ensures Received(data[..|data| - 1], at[..|data| - 1])
  {
  }

  lemma {:induction false} PlacesIncrease(data: seq<Report>, at: seq<nat>, channel: nat)
    requires |at| == |data| && Received(data, at)
    ensures var ps := Places(data, at, channel); Increasing(ps) && LastSeen(data, at, channel, ps)
    decreases |data|
  {
    hide Received, LastSeen;
    if data == [] {
      assert LastSeen(data, at, channel, []) by { NothingSeen(data, at, channel); }
    } else {
      var n := |data| - 1;
      ReceivedBefore(data, at);
      PlacesIncrease(data[..n], at[..n], channel);
      var ps := Places(data[..n], at[..n], channel);
      SeenBefore(data, at, channel, ps);
      if data[n].channel == channel {
        SeenLast(data, at, channel, ps);
      } else {
        assert ps + [] == ps;
      }
    }
  }

  lemma NothingSeen(data: seq<Report>, at: seq<nat>, channel: nat)
    requires |at| == |data|
    ensures LastSeen(data, at, channel, [])
  {
  }

  lemma SeenLast(data: seq<Report>, at: seq<nat>, channel: nat, ps: seq<nat>)
    requires |at| == |data| > 0 && data[|data| - 1].channel == channel
    ensures LastSeen(data, at, channel, ps + [at[|data| - 1]])
  {
    var n := |data| - 1;
    assert at[n] == (ps + [at[n]])[|ps|];
  }

  /** The numbers the accounting believes were skipped between the given places. */
  function Skipped(ps: seq<nat>): nat {
    if |ps| < 2 then 0
    else
      var n := |ps| - 1;
      Skipped(ps[..n]) + Between(ps[n - 1] % WORD, ps[n] % WORD)
  }

  lemma {:induction false} TallyIsPlaces(data: seq<Report>, at: seq<nat>, channel: nat)
    requires Received(data, at)
    ensures var st, ps := Tally(data, channel), Places(data, at, channel);
      && st.count == |ps| && st.missing == Skipped(ps)
      && st.last == (if ps == [] then None else Some(ps[|ps| - 1] % WORD))
    decreases |data|
  {
    hide Between;
    if data != [] {
      var n := |data| - 1;
      TallyIsPlaces(data[..n], at[..n], channel);
      var ps := Places(data[..n], at[..n], channel);
      if data[n].channel == channel {
        var qs := ps + [at[n]];
        assert qs[..|ps|] == ps;
        assert ps != [] ==> Skipped(qs) == Skipped(ps) + Between(ps[|ps| - 1] % WORD, at[n] % WORD);
      } else {
        assert ps + [] == ps;
      }
    }
  }

  lemma GapModulo(a: nat, b: nat)
    requires a < b
    ensures (b % WORD - a % WORD) % WORD == (b - a) % WORD
  {
    var x, y := b / WORD, a / WORD;
    assert b - a == (x - y) * WORD + (b % WORD - a % WORD);
    Multiple(b % WORD - a % WORD, x - y);
  }

  lemma {:induction false} Multiple(r: int, k: int)
    ensures (k * WORD + r) % WORD == r % WORD
    decreases if k < 0 then -k else k
  {
    if k > 0 {
      Multiple(r, k - 1);
      assert (k * WORD + r) % WORD == ((k - 1) * WORD + r + WORD) % WORD;
    } else if k < 0 {
      Multiple(r, k + 1);
      assert ((k + 1) * WORD + r) % WORD == (k * WORD + r + WORD) % WORD;
    }
  }

  predicate SmallGaps(ps: seq<nat>) { forall i, j :: 0 <= i && j == i + 1 < |ps| ==> ps[j] - ps[i] < WORD }

  lemma SmallGapsLast(ps: seq<nat>)
    requires |ps| >= 2
    ensures var n := |ps| - 1; SmallGaps(ps) <==> SmallGaps(ps[..n]) && ps[n] - ps[n - 1] < WORD
  {
    var n := |ps| - 1;
    var head := ps[..n];
    if SmallGaps(ps) {
      forall i, j | 0 <= i && j == i + 1 < n ensures head[j] - head[i] < WORD { assert ps[j] - ps[i] < WORD; }
    }
    if SmallGaps(head) && ps[n] - ps[n - 1] < WORD {
      forall i, j | 0 <= i && j == i + 1 < |ps| ensures ps[j] - ps[i] < WORD {
        if j < n { assert head[j] - head[i] < WORD; }
      }
    }
  }

  lemma SkippedLast(ps: seq<nat>)
    requires |ps| >= 2 && ps[|ps| - 2] < ps[|ps| - 1]
    ensures var gap := ps[|ps| - 1] - ps[|ps| - 2];
      Skipped(ps) - Skipped(ps[..|ps| - 1]) <= gap - 1
      && (Skipped(ps) - Skipped(ps[..|ps| - 1]) == gap - 1 <==> gap < WORD)
  {
    var n := |ps| - 1;
    GapModulo(ps[n - 1], ps[n]);
    SmallMod(ps[n] - ps[n - 1]);
  }

  /** Counting received and skipped never overshoots, and is exact just when no gap reaches 2^32. */
  lemma {:induction false} SkippedExact(ps: seq<nat>)
    requires ps != [] && Increasing(ps)
    ensures ps[0] + |ps| + Skipped(ps) <= ps[|ps| - 1] + 1
    ensures ps[0] + |ps| + Skipped(ps) == ps[|ps| - 1] + 1 <==> SmallGaps(ps)
    decreases |ps|
  {
    if |ps| >= 2 {
      hide SmallGaps, Skipped;
      SkippedExact(ps[..|ps| - 1]);
      SkippedLast(ps);
      SmallGapsLast(ps);
    }
  }

  lemma SmallMod(gap: nat)
    requires gap > 0
    ensures gap % WORD <= gap && (gap % WORD == gap <==> gap < WORD)
    ensures gap >= WORD ==> gap % WORD < gap && 1 < gap
  {
  }

  /**
   For every channel, the reports received plus those counted as missing are the reports sent from the first to
   the last received one, across any number of wraparounds and whatever other channels do in between, exactly
   when no 2^32 or more in a row were lost; otherwise the count falls short.
   */
  lemma LossExact(data: seq<Report>, at: seq<nat>, channel: nat)
    requires Received(data, at) && Tally(data, channel).count > 0
    ensures var st, ps := Tally(data, channel), Places(data, at, channel);
      && |ps| == st.count
      && ps[0] + st.count + st.missing <= ps[|ps| - 1] + 1
      && (ps[0] + st.count + st.missing == ps[|ps| - 1] + 1 <==> SmallGaps(ps))
  {
    TallyIsPlaces(data, at, channel);
    PlacesIncrease(data, at, channel);
    SkippedExact(Places(data, at, channel));
  }

  // ---- The other figures ---------------------------------------------------------------------

  lemma OneReport(r: Report, channel: nat)
    ensures Tally([r], channel) ==
      if r.channel == channel then Stats(1, if r.failed then 1 else 0, r.bytes, 0, 0, Some(r.sequence))
      else Stats(0, 0, 0, 0, 0, None)
  {
    assert [r][..0] == [];
  }

  /** Reports, failures and bytes of a channel add up over any two parts of the data. */
  lemma {:induction false} FiguresAdd(a: seq<Report>, b: seq<Report>, channel: nat)
    ensures var x, y, z := Tally(a, channel), Tally(b, channel), Tally(a + b, channel);
      z.count == x.count + y.count && z.errors == x.errors + y.errors && z.bytes == x.bytes + y.bytes
    decreases |b|
  {
    if b == [] {
      assert a + b == a;
    } else {
      var n := |b| - 1;
      assert (a + b)[..|a + b| - 1] == a + b[..n];
      FiguresAdd(a, b[..n], channel);
    }
  }

  /** How many of the places are not right behind the one before. */
  function Jumps(ps: seq<nat>): nat {
    if |ps| < 2 then 0
    else
      var n := |ps| - 1;
      Jumps(ps[..n]) + if ps[n] == ps[n - 1] + 1 then 0 else 1
  }

  /** The gaps counted are the places at which numbers were skipped, when no 2^32 or more in a row were lost. */
  lemma {:induction false} GapsExact(data: seq<Report>, at: seq<nat>, channel: nat)
    requires |at| == |data| && Received(data, at) && SmallGaps(Places(data, at, channel))
    ensures Tally(data, channel).gaps == Jumps(Places(data, at, channel))
    decreases |data|
  {
    hide Received, SmallGaps, Increasing, LastSeen, Between;
    if data != [] {
      var n := |data| - 1;
      var ps := Places(data[..n], at[..n], channel);
      ReceivedBefore(data, at);
      if data[n].channel == channel {
        var qs := ps + [at[n]];
        assert qs[..|ps|] == ps;
        TallyIsPlaces(data[..n], at[..n], channel);
        PlacesIncrease(data, at, channel);
        SmallBefore(qs);
        GapsExact(data[..n], at[..n], channel);
        if ps != [] { JumpIs(qs); SequenceIs(data, at); }
      } else {
        assert ps + [] == ps;
        GapsExact(data[..n], at[..n], channel);
      }
    }
  }

  lemma SequenceIs(data: seq<Report>, at: seq<nat>)
    requires data != [] && Received(data, at)
    ensures data[|data| - 1].sequence == at[|data| - 1] % WORD
  {
  }

  lemma SmallBefore(ps: seq<nat>)
    requires ps != [] && SmallGaps(ps)
    ensures SmallGaps(ps[..|ps| - 1])
  {
    var head := ps[..|ps| - 1];
    forall i, j | 0 <= i && j == i + 1 < |head| ensures head[j] - head[i] < WORD {
      assert ps[j] - ps[i] < WORD;
    }
  }

  lemma JumpIs(ps: seq<nat>)
    requires |ps| >= 2 && Increasing(ps) && SmallGaps(ps)
    ensures var n := |ps| - 1; Between(ps[n - 1] % WORD, ps[n] % WORD) > 0 <==> ps[n] != ps[n - 1] + 1
  {
    var n := |ps| - 1;
    GapModulo(ps[n - 1], ps[n]);
    SmallMod(ps[n] - ps[n - 1]);
    assert ps[n] - ps[n - 1] < WORD;
  }
}
