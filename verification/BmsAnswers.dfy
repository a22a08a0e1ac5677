/**
 What the battery simulator answers to each command, byte by byte, and what each write changes.
 */
module BmsAnswers {
  import opened Wire
  import opened BmsSimulator

  /** Two bytes, high byte first. */
  function At(d: seq<byte>, i: nat): int
    requires i + 1 < |d|
  {
    256 * (d[i] as int) + d[i + 1] as int
  }

  /** A reply is 0xDD, the command, 0, the length of its data, the data, a checksum that brings the sum of length and
      data to 0 modulo 2^16, and 0x77. */
  lemma ReplyLayout(cmd: byte, data: seq<byte>, target: nat)
    requires |Padded(data, target)| < 256
    ensures var r, n := Response(cmd, data, target), if |data| + 7 < target then target - 7 else |data|;
      && |r| == n + 7 && r[0] == 0xDD && r[1] == cmd && r[2] == 0 && r[3] as int == n && r[n + 6] == 0x77
      && r[4..4 + |data|] == data && (forall i :: 4 + |data| <= i < 4 + n ==> r[i] == 0)
      && (Sum(r[3..4 + n]) + At(r, 4 + n)) % 65536 == 0
  {
    hide Sum, Checksum;
    var d := Padded(data, target);
    var r := Response(cmd, data, target);
    assert r[3..4 + |d|] == [|d|] + d;
    assert r[4..4 + |data|] == d[..|data|];
    assert At(r, 4 + |d|) == Checksum([|d|] + d);
  }

  /** A successful write is acknowledged with an empty reply, a refused one with a short frame. */
  function Acknowledged(cmd: byte): Outcome { Reply([0xDD, cmd, 0, 0, 0, 0, 0x77]) }

  function Rejected(code: byte): Outcome { Reply([0xDD, code, 0, 0, 0, 0x77]) }

  lemma DoneIs(s: State, cmd: byte)
    ensures Done(s, cmd) == (s, Acknowledged(cmd))
  {
    var none: seq<byte>, zero: seq<byte> := [], [0];
    assert Padded(none, 0) == none && zero + none == zero && zero[..0] == none;
    assert Sum(zero) == Sum(none) + 0 == 0;
    assert Checksum(zero) == 0 && Be16(0) == [0, 0];
    assert Response(cmd, none, 0) == [0xDD, cmd, 0, 0, 0, 0, 0x77];
  }

  lemma RefusedIs(s: State, code: byte)
    ensures Refused(s, code) == (s, Rejected(code))
  {
  }

  /** What each write does: the switches follow their two bits, a reset is counted in 16 bits, the factory mode opens
      with 0x5678 and closes, blocks and texts are stored as sent when they have their length, and a test marks the
      switch that was tested. */
  lemma WritesMean(c: Config, s: State, f: seq<byte>)
    requires ValidState(s) && IsRequest(f) && f[1] == 0x5A
    ensures var r, cmd := Handle(c, s, f), f[2];
      && (cmd == 0xE1 ==> r == (s.(mos := f[5] as int % 4), Acknowledged(cmd)))
      && (cmd == 0x0E ==> r == (s.(restarts := (s.restarts + 1) % 65536), Acknowledged(cmd)))
      && (cmd == 0x00 ==>
            r == if f[4] == 0x56 && f[5] == 0x78 then (s.(factory := true), Acknowledged(cmd)) else (s, Rejected(0x81)))
      && (cmd == 0x01 ==>
            r == if s.factory then (s.(factory := false), Acknowledged(cmd)) else (s, Rejected(0x81)))
      && (cmd == 0xF6 ==>
            r == if f[3] == 60 then (s.(resistances := f[4..64]), Acknowledged(cmd)) else (s, Rejected(0x81)))
      && (cmd == 0xF0 ==> r == if f[3] == 6 then (s.(attrs := f[4..10]), Acknowledged(cmd)) else (s, Rejected(0x81)))
      && (cmd == 0x0C ==>
            r == if f[3] == 2 && f[5] == 1 then (s.(testMos := [s.testMos[0], 1]), Acknowledged(cmd))
                 else if f[3] == 2 && f[5] == 2 then (s.(testMos := [1, s.testMos[1]]), Acknowledged(cmd))
                 else (s, Rejected(0x81)))
      && (cmd == 0xF5 ==> r == (s.(balance := true), Acknowledged(cmd)))
      && (cmd == 0xF1 ==> r == (s.(findCar := f[3] == 2 && f[5] == 1), Acknowledged(cmd)))
      && (cmd in {0xE6, 0x0D, 0xF7, 0xF8, 0xFA, 0xFB} ==> r == (s, Acknowledged(cmd)))
  {
    hide ValidBlock, Response, ErrorResponse, WriteBlock, WriteSn;
    DoneIs(s, f[2]);
    RefusedIs(s, 0x81);
    DoneIs(Write(s, f).0, f[2]);
    assert f[4..6] == [f[4], f[5]];
    assert s.testMos[1 := 1] == [s.testMos[0], 1] && s.testMos[0 := 1] == [1, s.testMos[1]];
  }

  /** The protected writes: a block with its own CRC and a text with its own length, in factory mode. */
  lemma ProtectedWritesMean(c: Config, s: State, f: seq<byte>)
    requires ValidState(s) && IsRequest(f) && f[1] == 0x5A
    ensures var r, cmd := Handle(c, s, f), f[2];
      && (cmd == 0xF2 ==>
            r == if !s.factory || f[3] != 53 then (s, Rejected(0x81))
                 else if At(f, 55) != CrcOf(f[4..55]) then (s, Rejected(0x82))
                 else (s.(params := f[4..57]), Acknowledged(cmd)))
      && (cmd == 0xF3 ==>
            r == if !s.factory || f[3] != 52 then (s, Rejected(0x81))
                 else if At(f, 54) != CrcOf(f[4..54]) then (s, Rejected(0x82))
                 else (s.(sysParams := f[4..56]), Acknowledged(cmd)))
      && (cmd == 0xA2 ==>
            r == if !s.factory || f[3] as int != 1 + f[4] as int || !(1 <= f[4] <= 31) then (s, Rejected(0x81))
                 else (s.(sn := Decoded(f[5..5 + f[4] as int])), Acknowledged(cmd)))
  {
    hide Response, ErrorResponse, CrcOf;
    DoneIs(Write(s, f).0, f[2]);
    RefusedIs(s, 0x81);
    RefusedIs(s, 0x82);
    if f[2] == 0xF2 && f[3] == 53 {
      var b := f[4..57];
      assert b[..51] == f[4..55] && b[51] == f[55] && b[52] == f[56];
    }
    if f[2] == 0xF3 && f[3] == 52 {
      var b := f[4..56];
      assert b[..50] == f[4..54] && b[50] == f[54] && b[51] == f[55];
    }
  }

  /** The data of a reply, read by the collector's parser; it is padded with zeros to `n` bytes. */
  predicate Shows(o: Outcome, cmd: byte, data: seq<byte>, n: nat) {
    && o.Reply? && ParseReply(o.bytes).Some? && ParseReply(o.bytes).value.0 == cmd
    && var d := ParseReply(o.bytes).value.1;
       && |data| <= |d| == n && d[..|data|] == data && forall i :: |data| <= i < n ==> d[i] == 0
  }

  lemma ResponseShows(cmd: byte, data: seq<byte>, target: nat, n: nat)
    requires |Padded(data, target)| < 256 && n == if |data| + 7 < target then target - 7 else |data|
    ensures Shows(Reply(Response(cmd, data, target)), cmd, data, n)
  {
    hide ParseReply, Response;
    ResponseParses(cmd, data, target);
  }

  /** The stored values read back as they are: switch test, attributes, resistances, restart count, in 33 bytes after
      eleven zero words. */
  lemma StoredReadsMean(c: Config, s: State, r: seq<byte>)
    requires ValidState(s) && IsRequest(r) && r[1] == 0xA5
    ensures Handle(c, s, r).0 == s
    ensures var o := Handle(c, s, r).1;
      && (r[2] == 0x0C ==> Shows(o, 0x0C, s.testMos, 2))
      && (r[2] == 0xF0 ==> Shows(o, 0xF0, s.attrs, 6))
      && (r[2] == 0xF6 ==> Shows(o, 0xF6, s.resistances, 60))
      && (r[2] == 0xAA && 0 <= s.restarts < 65536 ==>
            Shows(o, 0xAA, Zeros(22) + [s.restarts / 256, s.restarts % 256], 33))
      && (r[2] == 0x05 ==> Shows(o, 0x05, [0x56, 0x31, 0x2E, 0x30], 33))
      && (r[2] !in {0x03, 0x04, 0x05, 0x0C, 0x0F, 0xA2, 0xAA, 0xF0, 0xF2, 0xF3, 0xF6} ==> o == NoReply)
  {
    ReadKeeps(c, s, r);
    hide Response, ErrorResponse, ValidBlock, BasicInfo, Comprehensive, ParseReply, Shows, Padded, Repeated;
    if r[2] == 0x0C { PaddedFits(s.testMos, 0); ResponseShows(0x0C, s.testMos, 0, 2); }
    if r[2] == 0xF0 { PaddedFits(s.attrs, 0); ResponseShows(0xF0, s.attrs, 0, 6); }
    if r[2] == 0xF6 { PaddedFits(s.resistances, 0); ResponseShows(0xF6, s.resistances, 0, 60); }
    if r[2] == 0xAA && Fits16(s.restarts) {
      ElevenZeros();
      PaddedFits(Repeated(Be16(0), 11) + Be16(s.restarts), 40);
      ResponseShows(0xAA, Repeated(Be16(0), 11) + Be16(s.restarts), 40, 33);
    }
    if r[2] == 0x05 {
      PaddedFits([0x56, 0x31, 0x2E, 0x30], 40);
      ResponseShows(0x05, [0x56, 0x31, 0x2E, 0x30], 40, 33);
    }
  }

  lemma PaddedFits(data: seq<byte>, target: nat)
    requires |data| < 256 && target < 256
    ensures |Padded(data, target)| < 256
  {
  }

  lemma {:induction false} RepeatedZeros(n: nat)
    ensures Repeated(Be16(0), n) == Zeros(2 * n)
    decreases n
  {
    if n != 0 {
      RepeatedZeros(n - 1);
      assert Be16(0) == [0, 0];
    }
  }

  lemma ElevenZeros()
    ensures Repeated(Be16(0), 11) == Zeros(22)
  {
    RepeatedZeros(11);
  }

  // ---- The measured values -------------------------------------------------------------------

  /** The basic report, 53 bytes: voltage, current, charge, capacity, cycles, then version, charge in percent, switches,
      cells, sensors and four temperatures. */
  lemma BasicMeans(c: Config, s: State, r: seq<byte>)
    requires ValidState(s) && IsRequest(r) && r[1] == 0xA5 && r[2] == 0x03
    requires 0 <= c.volts < 65536 && -32768 <= c.amps < 32768 && 0 <= c.soc < 256
    ensures Handle(c, s, r).1.Reply? && ParseReply(Handle(c, s, r).1.bytes).Some?
    ensures var d := ParseReply(Handle(c, s, r).1.bytes).value.1;
      && |d| == 53 && At(d, 0) == c.volts && At(d, 2) == c.amps % 65536 && At(d, 4) == 10000 && At(d, 6) == 10000
      && At(d, 8) == 10 && (forall i :: 10 <= i < 18 ==> d[i] == 0)
      && d[18] == 1 && d[19] as int == c.soc && d[20] as int == 3 - s.mos % 4 && d[21] == 16 && d[22] == 4
      && At(d, 23) == 2981 && At(d, 25) == 2991 && At(d, 27) == 3001 && At(d, 29) == 3011
      && (forall i :: 31 <= i < 53 ==> d[i] == 0)
  {
    hide Response, ParseReply, BasicInfo, Handle, Padded, ValidState;
    var fet := FetStatus(s.mos);
    var data := BasicInfo(c, fet);
    BasicBytes(c, fet);
    ReportReplies(c, s, r);
    ResponseParses(0x03, data, 60);
    PaddedIs(data, 60, 53);
    SameBytes(data, Padded(data, 60), 31);
  }

  lemma BasicBytes(c: Config, fet: byte)
    requires Fits16(c.volts) && FitsSigned16(c.amps) && 0 <= c.soc < 256
    ensures var d := BasicInfo(c, fet);
      && |d| == 31 && At(d, 0) == c.volts && At(d, 2) == c.amps % 65536 && At(d, 4) == 10000 && At(d, 6) == 10000
      && At(d, 8) == 10 && (forall i :: 10 <= i < 18 ==> d[i] == 0)
      && d[18] == 1 && d[19] as int == c.soc && d[20] == fet && d[21] == 16 && d[22] == 4
      && At(d, 23) == 2981 && At(d, 25) == 2991 && At(d, 27) == 3001 && At(d, 29) == 3011
  {
    BeAt(c.volts);
    BeAt(c.amps % 65536);
    BeAt(10000);
    BeAt(10);
    TemperatureBytes();
    hide Be16;
  }

  lemma BeAt(v: nat)
    requires v < 65536
    ensures At(Be16(v), 0) == v
  {
  }

  lemma TemperatureBytes()
    ensures |TEMPERATURES| == 8
    ensures At(TEMPERATURES, 0) == 2981 && At(TEMPERATURES, 2) == 2991
    ensures At(TEMPERATURES, 4) == 3001 && At(TEMPERATURES, 6) == 3011
  {
  }

  lemma {:induction false} CellBytes(n: nat, i: nat)
    requires i < n
    ensures At(Repeated(Be16(3250), n), 2 * i) == 3250
    decreases n
  {
    BeAt(3250);
    hide Be16;
    if i > 0 { CellBytes(n - 1, i - 1); }
  }

  /** The cell report: sixteen voltages of 3250 mV in 43 bytes. */
  lemma CellsMean(c: Config, s: State, r: seq<byte>)
    requires ValidState(s) && IsRequest(r) && r[1] == 0xA5 && r[2] == 0x04
    ensures Handle(c, s, r).1.Reply? && ParseReply(Handle(c, s, r).1.bytes).Some?
    ensures var d := ParseReply(Handle(c, s, r).1.bytes).value.1;
      && |d| == 43 && (forall i :: 0 <= i < 16 ==> At(d, 2 * i) == 3250) && (forall i :: 32 <= i < 43 ==> d[i] == 0)
  {
    hide Response, ParseReply, Repeated, Handle, Padded;
    var data := Repeated(Be16(3250), 16);
    assert |data| == 32;
    ReportReplies(c, s, r);
    PaddedFits(data, 50);
    ResponseParses(0x04, data, 50);
    PaddedIs(data, 50, 43);
    var d := Padded(data, 50);
    forall i | 0 <= i < 16 ensures At(d, 2 * i) == 3250 {
      CellBytes(16, i);
      assert d[2 * i] == data[2 * i] && d[2 * i + 1] == data[2 * i + 1];
    }
  }

  lemma PaddedIs(data: seq<byte>, target: nat, n: nat)
    requires |data| + 7 <= target && n == target - 7
    ensures var d := Padded(data, target);
      |d| == n && d[..|data|] == data && forall i :: |data| <= i < n ==> d[i] == 0
  {
  }

  lemma ReportReplies(c: Config, s: State, r: seq<byte>)
    requires ValidState(s) && IsRequest(r) && r[1] == 0xA5
    ensures |Repeated(Be16(3250), 16)| == 32
    ensures r[2] == 0x04 ==>
      |Padded(Repeated(Be16(3250), 16), 50)| < 256
      && Handle(c, s, r).1 == Reply(Response(0x04, Repeated(Be16(3250), 16), 50))
    ensures r[2] == 0x03 && Fits16(c.volts) && FitsSigned16(c.amps) && 0 <= c.soc < 256 ==>
      |Padded(BasicInfo(c, FetStatus(s.mos)), 60)| < 256
      && Handle(c, s, r).1 == Reply(Response(0x03, BasicInfo(c, FetStatus(s.mos)), 60))
    ensures r[2] == 0x0F && Fits16(c.volts) && FitsSigned16(c.amps) ==>
      |Padded(Comprehensive(c, FetStatus(s.mos)), 100)| < 256
      && Handle(c, s, r).1 == Reply(Response(0x0F, Comprehensive(c, FetStatus(s.mos)), 100))
  {
    hide Response, Repeated, Comprehensive, BasicInfo, ValidBlock;
  }

  /** The comprehensive report shows the same voltage, current, charge and switches. */
  lemma ComprehensiveMeans(c: Config, s: State, r: seq<byte>)
    requires ValidState(s) && IsRequest(r) && r[1] == 0xA5 && r[2] == 0x0F
    requires 0 <= c.volts < 65536 && -32768 <= c.amps < 32768
    ensures Handle(c, s, r).1.Reply? && ParseReply(Handle(c, s, r).1.bytes).Some?
    ensures var d := ParseReply(Handle(c, s, r).1.bytes).value.1;
      && |d| == 93 && d[0] == 0 && At(d, 1) == c.volts && At(d, 3) == c.amps % 65536 && d[5] as int == c.soc % 256
      && At(d, 6) == 10000 && At(d, 8) == 10000 && At(d, 12) == 3300 && At(d, 14) == 3200 && At(d, 20) == 10
      && At(d, 10) == At(d, 16) == At(d, 18) == 0 && d[22] as int == 3 - s.mos % 4 && d[23] == 4
      && At(d, 24) == 2981 && At(d, 26) == 2991 && At(d, 28) == 3001 && At(d, 30) == 3011 && d[32] == 16
      && (forall i :: 0 <= i < 16 ==> At(d, 33 + 2 * i) == 3250) && (forall i :: 65 <= i < 93 ==> d[i] == 0)
  {
    hide Response, ParseReply, Comprehensive, ComprehensiveHead, Repeated, Handle, Padded, ValidState;
    var fet := FetStatus(s.mos);
    var data := Comprehensive(c, fet);
    HeadBytes(c);
    WholeBytes(c, fet);
    ReportReplies(c, s, r);
    ResponseParses(0x0F, data, 100);
    PaddedIs(data, 100, 93);
    var d := Padded(data, 100);
    SameBytes(data, d, 73);
    assert data[..22] == ComprehensiveHead(c);
    forall i | 0 <= i < 16 ensures At(d, 33 + 2 * i) == 3250 {
      assert At(data, 33 + 2 * i) == 3250;
    }
  }

  lemma SameBytes(a: seq<byte>, b: seq<byte>, n: nat)
    requires |a| == n <= |b| && b[..n] == a
    ensures forall i :: 0 <= i < n ==> b[i] == a[i]
    ensures forall i :: 0 <= i < n - 1 ==> At(b, i) == At(a, i)
  {
    forall i | 0 <= i < n ensures b[i] == a[i] { assert b[..n][i] == b[i]; }
  }

  lemma HeadBytes(c: Config)
    requires Fits16(c.volts) && FitsSigned16(c.amps)
    ensures var d := ComprehensiveHead(c);
      && |d| == 22 && d[0] == 0 && At(d, 1) == c.volts && At(d, 3) == c.amps % 65536 && d[5] as int == c.soc % 256
      && At(d, 6) == 10000 && At(d, 8) == 10000 && At(d, 12) == 3300 && At(d, 14) == 3200 && At(d, 20) == 10
      && At(d, 10) == At(d, 16) == At(d, 18) == 0
  {
    BeAt(c.volts);
    BeAt(c.amps % 65536);
    BeAt(10000);
    BeAt(3300);
    BeAt(3200);
    BeAt(10);
    BeAt(0);
    hide Be16;
  }

  lemma WholeBytes(c: Config, fet: byte)
    requires Fits16(c.volts) && FitsSigned16(c.amps)
    ensures var d := Comprehensive(c, fet);
      && |d| == 73 && d[..22] == ComprehensiveHead(c) && d[22] == fet && d[23] == 4
      && At(d, 24) == 2981 && At(d, 26) == 2991 && At(d, 28) == 3001 && At(d, 30) == 3011 && d[32] == 16
      && (forall i :: 0 <= i < 16 ==> At(d, 33 + 2 * i) == 3250) && (forall i :: 65 <= i < 73 ==> d[i] == 0)
  {
    TemperatureBytes();
    var d, cells := Comprehensive(c, fet), Repeated(Be16(3250), 16);
    hide ComprehensiveHead, Be16, Repeated;
    assert d[33..65] == cells;
    forall i | 0 <= i < 16 ensures At(d, 33 + 2 * i) == 3250 {
      CellBytes(16, i);
      assert d[33 + 2 * i] == cells[2 * i] && d[33 + 2 * i + 1] == cells[2 * i + 1];
    }
  }
}
