/**
 The battery simulator (scripts/uart0_bms_rain_simulator.py): one complete Jiabaida request frame in,
 a new state and perhaps a reply out.
 */
module BmsSimulator {
  import opened Wire
  import Crc
  import CrcMessages

  // ---- Frames --------------------------------------------------------------------------------

  function Sum(data: seq<byte>): nat {
    if data == [] then 0 else Sum(data[..|data| - 1]) + data[|data| - 1]
  }

  function Negated16(s: nat): (n: nat)
    ensures n < 65536 && (s + n) % 65536 == 0
  {
    (65536 - s % 65536) % 65536
  }

  /** `checksum`: the two's complement of the byte sum, in 16 bits. */
  function Checksum(data: seq<byte>): (ck: nat)
    ensures ck < 65536 && (Sum(data) + ck) % 65536 == 0
  {
    Negated16(Sum(data))
  }

  function Be16(v: nat): (b: seq<byte>)
    requires v < 65536
    ensures |b| == 2 && Word(b[0], b[1]) == v
  {
    [v / 256, v % 256]
  }

  function Word(hi: byte, lo: byte): nat {
    var h: int, l: int := hi, lo;
    256 * h + l
  }

  function Zeros(n: nat): (b: seq<byte>)
    ensures |b| == n && forall i :: 0 <= i < n ==> b[i] == 0
  {
    seq(n, i => 0)
  }

  /** Fill the data with zeros so that the whole reply has `target` bytes; 0 asks for none. */
  function Padded(data: seq<byte>, target: nat): (d: seq<byte>)
    ensures data <= d && |d| == if target > 0 && |data| < target - 7 then target - 7 else |data|
  {
    if target > 0 && |data| < target - 7 then data + Zeros(target - 7 - |data|) else data
  }

  /** `bms_response`. */
  function Response(cmd: byte, data: seq<byte>, target: nat): (r: seq<byte>)
    requires |Padded(data, target)| < 256
  {
    var d := Padded(data, target);
    [0xDD, cmd, 0, |d|] + d + Be16(Checksum([|d|] + d)) + [0x77]
  }

  /** `bms_error_response`. */
  function ErrorResponse(status: byte): seq<byte> { [0xDD, status, 0, 0, 0, 0x77] }

  /** How the collector reads a reply: the command and the data, if the frame is sound. */
  function ParseReply(r: seq<byte>): Option<(byte, seq<byte>)> {
    if |r| >= 7 && r[0] == 0xDD && r[2] == 0 && r[|r| - 1] == 0x77 && r[3] == |r| - 7
       && (Sum(r[3..|r| - 3]) + Word(r[|r| - 3], r[|r| - 2])) % 65536 == 0
    then Some((r[1], r[4..|r| - 3])) else None
  }

  lemma Middle<T>(a: seq<T>, b: seq<T>, c: seq<T>)
    ensures (a + b + c)[|a|..|a| + |b|] == b
  {
  }

  /** Every reply built by `bms_response` is sound and carries its command and data. */
  lemma ResponseParses(cmd: byte, data: seq<byte>, target: nat)
    requires |Padded(data, target)| < 256
    ensures ParseReply(Response(cmd, data, target)) == Some((cmd, Padded(data, target)))
  {
    hide Padded, Checksum, Sum;
    var d := Padded(data, target);
    var head, body, tail := [0xDD, cmd, 0], [|d|] + d, Be16(Checksum([|d|] + d)) + [0x77];
    var r := Response(cmd, data, target);
    assert r == head + body + tail;
    Middle(head, body, tail);
    assert r == (head + [|d|]) + d + tail;
    Middle(head + [|d|], d, tail);
    assert r[|r| - 3] == tail[0] && r[|r| - 2] == tail[1];
  }

  // ---- The parameter blocks ------------------------------------------------------------------

  function AsBits8(data: seq<byte>): (d: seq<bv8>)
    ensures |d| == |data|
  {
    seq(|data|, i requires 0 <= i < |data| => data[i] as bv8)
  }

  /** The value of the Modbus CRC; the register has 16 bits. */
  function CrcOf(data: seq<byte>): (v: nat)
    ensures v < 65536
  {
    (Crc.Feed(Crc.Modbus, 0xFFFF, CrcMessages.Bits(AsBits8(data))) as nat) % 65536
  }

  /** A stored block: `n` bytes, the last two the Modbus CRC of the rest, high byte first. */
  predicate ValidBlock(b: seq<byte>, n: nat) {
    n >= 2 && |b| == n && Word(b[n - 2], b[n - 1]) == CrcOf(b[..n - 2])
  }

  function DefaultBlock(n: nat): (b: seq<byte>)
    requires n >= 2
    ensures ValidBlock(b, n)
  {
    var body := Zeros(n - 2);
    var b := body + Be16(CrcOf(body));
    assert b[..n - 2] == body;
    b
  }

  // ---- The state -----------------------------------------------------------------------------

  /** The command-line options, scaled to the units of the frames. */
  datatype Config = Config(volts: int, amps: int, soc: int)

  datatype State = State(mos: int, factory: bool, params: seq<byte>, sysParams: seq<byte>, sn: seq<nat>,
                         attrs: seq<byte>, resistances: seq<byte>, testMos: seq<byte>, restarts: int,
                         balance: bool, findCar: bool)

  /** A reply, none, or an exception that ends the simulator. */
  datatype Outcome = Reply(bytes: seq<byte>) | NoReply | Crash

  predicate ValidState(s: State) {
    && ValidBlock(s.params, 53) && ValidBlock(s.sysParams, 52)
    && |s.attrs| == 6 && |s.resistances| == 60 && |s.testMos| == 2 && |s.sn| <= 31
  }

  const DEFAULT_SN: seq<nat> :=
    [0x53, 0x49, 0x4D, 0x2D, 0x42, 0x4D, 0x53, 0x2D, 0x30, 0x30, 0x30, 0x31]

  function Start(mos: int, sn: seq<nat>, restarts: int): State {
    State(mos, false, DefaultBlock(53), DefaultBlock(52), if sn == [] || |sn| > 31 then DEFAULT_SN else sn,
          Zeros(6), Zeros(60), Zeros(2), restarts, false, false)
  }

  /** A request as both callers cut it out: header, data of the announced length, checksum, end byte. */
  predicate IsRequest(f: seq<byte>) { |f| >= 7 && f[3] == |f| - 7 && f[1] in {0xA5, 0x5A} }

  predicate Requests(fs: seq<seq<byte>>) { forall f :: f in fs ==> IsRequest(f) }

  const WRITE: byte := 0x5A
  const READ: byte := 0xA5

  const INVALID: byte := 0x81
  const BAD_CRC: byte := 0x82

  function Done(s: State, cmd: byte): (State, Outcome) { (s, Reply(Response(cmd, [], 0))) }

  function Refused(s: State, status: byte): (State, Outcome) { (s, Reply(ErrorResponse(status))) }

  function Char(b: byte): nat { if b < 128 then b else 0xFFFD }

  /** Bytes that are not ASCII are replaced by U+FFFD. */
  function Decoded(b: seq<byte>): (t: seq<nat>)
    ensures |t| == |b| && forall i :: 0 <= i < |t| ==> t[i] == Char(b[i])
  {
    seq(|b|, i requires 0 <= i < |b| => Char(b[i]))
  }

  predicate Ascii(t: seq<nat>) { forall c :: c in t ==> c < 128 }

  function Encoded(t: seq<nat>): (b: seq<byte>)
    requires Ascii(t)
    ensures |b| == |t| && forall i :: 0 <= i < |b| ==> b[i] == t[i]
  {
    if t == [] then []
    else
      var n := |t| - 1;
      assert t[n] in t && forall c :: c in t[..n] ==> c in t;
      Encoded(t[..n]) + [t[n]]
  }

  // ---- Writes --------------------------------------------------------------------------------

  function WriteBlock(s: State, f: seq<byte>): (State, Outcome)
    requires IsRequest(f) && f[2] in {0xF2, 0xF3}
  {
    var need := if f[2] == 0xF2 then 53 else 52;
    if !s.factory || f[3] != need then Refused(s, INVALID)
    else
      var block := f[4..4 + need];
      if !ValidBlock(block, need) then Refused(s, BAD_CRC)
      else Done(if f[2] == 0xF2 then s.(params := block) else s.(sysParams := block), f[2])
  }

  function WriteSn(s: State, f: seq<byte>): (State, Outcome)
    requires IsRequest(f)
  {
    var n: int, len: int := f[4], f[3];
    if !s.factory || len != 1 + n || n < 1 || n > 31 then Refused(s, INVALID)
    else Done(s.(sn := Decoded(f[5..5 + n])), 0xA2)
  }

  function WriteMosTest(s: State, f: seq<byte>): (State, Outcome)
    requires IsRequest(f) && |s.testMos| == 2
  {
    if f[3] != 2 then Refused(s, INVALID)
    else if f[5] == 1 then Done(s.(testMos := s.testMos[1 := 1]), 0x0C)
    else if f[5] == 2 then Done(s.(testMos := s.testMos[0 := 1]), 0x0C)
    else Refused(s, INVALID)
  }

  function Write(s: State, f: seq<byte>): (State, Outcome)
    requires IsRequest(f) && ValidState(s)
  {
    var cmd := f[2];
    if cmd == 0xE1 then Done(s.(mos := f[5] % 4), cmd)
    else if cmd == 0x0E then Done(s.(restarts := (s.restarts + 1) % 65536), cmd)
    else if cmd == 0x00 then
      if f[4..6] == [0x56, 0x78] then Done(s.(factory := true), cmd) else Refused(s, INVALID)
    else if cmd == 0x01 then
      if s.factory then Done(s.(factory := false), cmd) else Refused(s, INVALID)
    else if cmd in {0xF2, 0xF3} then WriteBlock(s, f)
    else if cmd == 0xA2 then WriteSn(s, f)
    else if cmd == 0xF6 then
      if f[3] == 60 then Done(s.(resistances := f[4..64]), cmd) else Refused(s, INVALID)
    else if cmd == 0xF0 then
      if f[3] == 6 then Done(s.(attrs := f[4..10]), cmd) else Refused(s, INVALID)
    else if cmd == 0x0C then WriteMosTest(s, f)
    else if cmd == 0xF5 then Done(s.(balance := true), cmd)
    else if cmd == 0xF1 then Done(s.(findCar := f[3] == 2 && f[5] == 1), cmd)
    else if cmd in {0xE6, 0x0D, 0xF7, 0xF8, 0xFA, 0xFB} then Done(s, cmd)
    else (s, NoReply)
  }

  // ---- Reads ---------------------------------------------------------------------------------

  /** The FET status on the wire: a set bit means conducting, the opposite of the stored policy. */
  function FetStatus(mos: int): (fet: byte)
    ensures fet < 4
  {
    3 - mos % 4
  }

  predicate Fits16(v: int) { 0 <= v < 65536 }

  predicate FitsSigned16(v: int) { -32768 <= v < 32768 }

  function Signed16(v: int): (b: seq<byte>)
    requires FitsSigned16(v)
    ensures |b| == 2
  {
    Be16(v % 65536)
  }

  const TEMPERATURES: seq<byte> := Be16(2981) + Be16(2991) + Be16(3001) + Be16(3011)

  /** `bms_basic_info`. */
  function BasicInfo(c: Config, fet: byte): (d: seq<byte>)
    requires Fits16(c.volts) && FitsSigned16(c.amps) && 0 <= c.soc < 256
    ensures |d| == 31 && d[20] == fet
  {
    Be16(c.volts) + Signed16(c.amps) + Be16(10000) + Be16(10000) + Be16(10) + Zeros(8)
    + [1, c.soc, fet, 16, 4] + TEMPERATURES
  }

  function Repeated(b: seq<byte>, n: nat): (r: seq<byte>)
    ensures |r| == n * |b|
  {
    if n == 0 then [] else b + Repeated(b, n - 1)
  }

  function ComprehensiveHead(c: Config): (d: seq<byte>)
    requires Fits16(c.volts) && FitsSigned16(c.amps)
    ensures |d| == 22
  {
    [0] + Be16(c.volts) + Signed16(c.amps) + [c.soc % 256] + Be16(10000) + Be16(10000) + Be16(0) + Be16(3300)
    + Be16(3200) + Be16(0) + Be16(0) + Be16(10)
  }

  /** `bms_comprehensive`. */
  function Comprehensive(c: Config, fet: byte): (d: seq<byte>)
    requires Fits16(c.volts) && FitsSigned16(c.amps)
    ensures |d| == 73 && d[22] == fet
  {
    ComprehensiveHead(c) + [fet, 4] + TEMPERATURES + [16] + Repeated(Be16(3250), 16) + Zeros(8)
  }

  function ReadBlock(s: State, cmd: byte, block: seq<byte>): (State, Outcome)
    requires |block| < 256
  {
    if s.factory then (s, Reply(Response(cmd, block, 0))) else Refused(s, INVALID)
  }

  function Read(c: Config, s: State, f: seq<byte>): (State, Outcome)
    requires IsRequest(f) && ValidState(s)
  {
    var cmd := f[2];
    if cmd == 0x03 then
      if Fits16(c.volts) && FitsSigned16(c.amps) && 0 <= c.soc < 256
      then (s, Reply(Response(0x03, BasicInfo(c, FetStatus(s.mos)), 60))) else (s, Crash)
    else if cmd == 0x04 then (s, Reply(Response(0x04, Repeated(Be16(3250), 16), 50)))
    else if cmd == 0x05 then (s, Reply(Response(0x05, [0x56, 0x31, 0x2E, 0x30], 40)))
    else if cmd == 0x0C then (s, Reply(Response(0x0C, s.testMos, 0)))
    else if cmd == 0x0F then
      if Fits16(c.volts) && FitsSigned16(c.amps)
      then (s, Reply(Response(0x0F, Comprehensive(c, FetStatus(s.mos)), 100))) else (s, Crash)
    else if cmd == 0xA2 then
      if !s.factory then Refused(s, INVALID)
      else if Ascii(s.sn) then (s, Reply(Response(0xA2, [|s.sn|] + Encoded(s.sn), 0)))
      else (s, Crash)
    else if cmd == 0xAA then
      if Fits16(s.restarts) then (s, Reply(Response(0xAA, Repeated(Be16(0), 11) + Be16(s.restarts), 40)))
      else (s, Crash)
    else if cmd == 0xF0 then (s, Reply(Response(0xF0, s.attrs, 0)))
    else if cmd == 0xF2 then ReadBlock(s, cmd, s.params)
    else if cmd == 0xF3 then ReadBlock(s, cmd, s.sysParams)
    else if cmd == 0xF6 then (s, Reply(Response(0xF6, s.resistances, 0)))
    else (s, NoReply)
  }

  /** `handle_bms`. */
  function Handle(c: Config, s: State, f: seq<byte>): (State, Outcome)
    requires IsRequest(f) && ValidState(s)
  {
    if f[1] == WRITE then Write(s, f) else Read(c, s, f)
  }

  function Run(c: Config, s: State, fs: seq<seq<byte>>): State
    requires ValidState(s) && Requests(fs)
    decreases |fs|
  {
    if fs == [] then s
    else
      HandleKeeps(c, s, fs[0]);
      Run(c, Handle(c, s, fs[0]).0, fs[1..])
  }

  // ---- What every request keeps --------------------------------------------------------------

  predicate Accepted(o: Outcome, cmd: byte) { o == Reply(Response(cmd, [], 0)) }

  predicate IsWrite(f: seq<byte>, cmd: byte)
    requires IsRequest(f)
  {
    f[1] == WRITE && f[2] == cmd
  }

  /** What changed between two states, and which request may do it. */
  predicate Guarded(s: State, f: seq<byte>, t: State, o: Outcome)
    requires IsRequest(f)
  {
    && (t.params != s.params ==> s.factory && IsWrite(f, 0xF2) && Accepted(o, 0xF2))
    && (t.sysParams != s.sysParams ==> s.factory && IsWrite(f, 0xF3) && Accepted(o, 0xF3))
    && (t.sn != s.sn ==> s.factory && IsWrite(f, 0xA2) && Accepted(o, 0xA2))
    && (t.mos != s.mos ==> IsWrite(f, 0xE1))
    && (f[1] == READ ==> t == s)
  }

  /** The blocks keep their length and a valid CRC, and they and the serial number change only in factory mode. */
  lemma HandleKeeps(c: Config, s: State, f: seq<byte>)
    requires IsRequest(f) && ValidState(s)
    ensures ValidState(Handle(c, s, f).0)
    ensures Guarded(s, f, Handle(c, s, f).0, Handle(c, s, f).1)
  {
    hide ValidBlock, Response, Read, WriteBlock, WriteSn, WriteMosTest, ErrorResponse;
    if f[1] == WRITE {
      if f[2] in {0xF2, 0xF3} {
        BlockKeeps(s, f);
      } else if f[2] == 0xA2 {
        SnKeeps(s, f);
      } else if f[2] == 0x0C {
        MosTestKeeps(s, f);
      }
    } else {
      ReadKeeps(c, s, f);
    }
  }

  lemma BlockKeeps(s: State, f: seq<byte>)
    requires IsRequest(f) && ValidState(s) && f[2] in {0xF2, 0xF3}
    ensures var r := WriteBlock(s, f);
      && ValidState(r.0) && r.0 == s.(params := r.0.params, sysParams := r.0.sysParams)
      && (r.0.params != s.params ==> s.factory && f[2] == 0xF2 && Accepted(r.1, 0xF2))
      && (r.0.sysParams != s.sysParams ==> s.factory && f[2] == 0xF3 && Accepted(r.1, 0xF3))
  {
    hide ValidBlock, Response, ErrorResponse;
  }

  lemma SnKeeps(s: State, f: seq<byte>)
    requires IsRequest(f) && ValidState(s)
    ensures var r := WriteSn(s, f);
      && ValidState(r.0) && r.0 == s.(sn := r.0.sn)
      && (r.0.sn != s.sn ==> s.factory && Accepted(r.1, 0xA2))
  {
    hide ValidBlock, Response, ErrorResponse;
  }

  lemma MosTestKeeps(s: State, f: seq<byte>)
    requires IsRequest(f) && ValidState(s)
    ensures ValidState(WriteMosTest(s, f).0) && WriteMosTest(s, f).0 == s.(testMos := WriteMosTest(s, f).0.testMos)
  {
    hide ValidBlock, Response, ErrorResponse;
  }

  lemma ReadKeeps(c: Config, s: State, f: seq<byte>)
    requires IsRequest(f) && ValidState(s)
    ensures Read(c, s, f).0 == s
  {
    hide ValidBlock, Response, ErrorResponse, BasicInfo, Comprehensive, Repeated;
  }

  lemma {:induction false} RunKeeps(c: Config, s: State, fs: seq<seq<byte>>)
    requires ValidState(s) && Requests(fs)
    ensures ValidState(Run(c, s, fs))
    decreases |fs|
  {
    hide ValidState, Handle;
    if fs != [] {
      HandleKeeps(c, s, fs[0]);
      RunKeeps(c, Handle(c, s, fs[0]).0, fs[1..]);
    }
  }

  // ---- Read-back over runs -------------------------------------------------------------------

  function Block(s: State, cmd: byte): seq<byte> { if cmd == 0xF2 then s.params else s.sysParams }

  function BlockSize(cmd: byte): nat { if cmd == 0xF2 then 53 else 52 }

  predicate AcceptedWrite(c: Config, s: State, f: seq<byte>, cmd: byte)
    requires IsRequest(f) && ValidState(s)
  {
    IsWrite(f, cmd) && Accepted(Handle(c, s, f).1, cmd)
  }

  /** No write of this kind is accepted during the run. */
  predicate NoneAccepted(c: Config, s: State, fs: seq<seq<byte>>, cmd: byte)
    requires ValidState(s) && Requests(fs)
    decreases |fs|
  {
    if fs == [] then true
    else
      HandleKeeps(c, s, fs[0]);
      !AcceptedWrite(c, s, fs[0], cmd) && NoneAccepted(c, Handle(c, s, fs[0]).0, fs[1..], cmd)
  }

  lemma {:induction false} BlockStays(c: Config, s: State, fs: seq<seq<byte>>, cmd: byte)
    requires ValidState(s) && Requests(fs)
    requires cmd in {0xF2, 0xF3} && NoneAccepted(c, s, fs, cmd)
    ensures Block(Run(c, s, fs), cmd) == Block(s, cmd)
    decreases |fs|
  {
    hide ValidState, Handle, Accepted;
    if fs != [] {
      HandleKeeps(c, s, fs[0]);
      BlockStays(c, Handle(c, s, fs[0]).0, fs[1..], cmd);
    }
  }

  /** An accepted write stores exactly the block it carries. */
  lemma WriteStores(c: Config, s: State, w: seq<byte>, cmd: byte)
    requires ValidState(s) && IsRequest(w) && cmd in {0xF2, 0xF3} && IsWrite(w, cmd)
    ensures AcceptedWrite(c, s, w, cmd) <==>
      s.factory && w[3] == BlockSize(cmd) && ValidBlock(w[4..4 + BlockSize(cmd)], BlockSize(cmd))
    ensures AcceptedWrite(c, s, w, cmd) ==> Block(Handle(c, s, w).0, cmd) == w[4..4 + BlockSize(cmd)]
  {
    hide ValidBlock;
  }

  /** `w` is an accepted write of a parameter block that takes the simulator from `s` to `t`. */
  predicate Wrote(c: Config, s: State, w: seq<byte>, t: State, cmd: byte) {
    && ValidState(s) && IsRequest(w) && cmd in {0xF2, 0xF3} && AcceptedWrite(c, s, w, cmd)
    && t == Handle(c, s, w).0 && ValidState(t)
  }

  predicate Reads(r: seq<byte>, cmd: byte) { IsRequest(r) && r[1] == READ && r[2] == cmd }

  /** A parameter block reads back exactly as last written, whatever else happens in between. */
  lemma ReadsBackLastWrite(c: Config, s: State, w: seq<byte>, t: State, fs: seq<seq<byte>>, r: seq<byte>, cmd: byte)
    requires Wrote(c, s, w, t, cmd) && Requests(fs) && NoneAccepted(c, t, fs, cmd) && Reads(r, cmd)
    ensures ValidState(Run(c, t, fs)) && |w| == 7 + BlockSize(cmd)
    ensures Handle(c, Run(c, t, fs), r).1 ==
      if Run(c, t, fs).factory then Reply(Response(cmd, w[4..4 + BlockSize(cmd)], 0)) else Reply(ErrorResponse(INVALID))
  {
    hide Response, ErrorResponse, ValidState, NoneAccepted, Run, Handle, Accepted, ValidBlock;
    WriteStores(c, s, w, cmd);
    BlockStays(c, t, fs, cmd);
    RunKeeps(c, t, fs);
    ReadOfBlock(c, Run(c, t, fs), r, cmd);
  }

  lemma ReadOfBlock(c: Config, s: State, r: seq<byte>, cmd: byte)
    requires ValidState(s) && IsRequest(r) && r[1] == READ && r[2] == cmd && cmd in {0xF2, 0xF3}
    ensures |Block(s, cmd)| == BlockSize(cmd)
    ensures Handle(c, s, r).1 ==
      if s.factory then Reply(Response(cmd, Block(s, cmd), 0)) else Reply(ErrorResponse(INVALID))
  {
    hide Response, ErrorResponse, BasicInfo, Comprehensive, Repeated;
  }

  // ---- One FET status ------------------------------------------------------------------------

  predicate NoMosWrite(fs: seq<seq<byte>>) { forall f :: f in fs ==> IsRequest(f) && !IsWrite(f, 0xE1) }

  lemma {:induction false} MosStays(c: Config, s: State, fs: seq<seq<byte>>)
    requires ValidState(s) && NoMosWrite(fs)
    ensures Run(c, s, fs).mos == s.mos
    decreases |fs|
  {
    hide ValidState, Handle;
    if fs != [] {
      assert fs[0] in fs;
      HandleKeeps(c, s, fs[0]);
      MosStays(c, Handle(c, s, fs[0]).0, fs[1..]);
    }
  }

  /**
   The basic and the comprehensive report show the same FET status, the complement of the last policy
   written, whatever other requests came in between.
   */
  lemma OneFetStatus(c: Config, s: State, w: seq<byte>, fs: seq<seq<byte>>, basic: seq<byte>, whole: seq<byte>)
    requires ValidState(s) && IsRequest(w) && IsWrite(w, 0xE1) && NoMosWrite(fs)
    requires IsRequest(basic) && basic[1] == READ && basic[2] == 0x03
    requires IsRequest(whole) && whole[1] == READ && whole[2] == 0x0F
    requires ValidState(Handle(c, s, w).0)
    ensures var t := Run(c, Handle(c, s, w).0, fs);
      && ValidState(t)
      && (Handle(c, t, basic).1.Reply? ==>
            |Handle(c, t, basic).1.bytes| == 60 && Handle(c, t, basic).1.bytes[24] == 3 - w[5] % 4)
      && (Handle(c, t, whole).1.Reply? ==>
            |Handle(c, t, whole).1.bytes| == 100 && Handle(c, t, whole).1.bytes[26] == 3 - w[5] % 4)
  {
    hide ValidState, Response, Run;
    var t := Handle(c, s, w).0;
    assert t.mos == w[5] % 4;
    MosStays(c, t, fs);
    RunKeeps(c, t, fs);
    FetInReports(c, Run(c, t, fs), basic, whole);
  }

  lemma FetInReports(c: Config, s: State, basic: seq<byte>, whole: seq<byte>)
    requires ValidState(s)
    requires IsRequest(basic) && basic[1] == READ && basic[2] == 0x03
    requires IsRequest(whole) && whole[1] == READ && whole[2] == 0x0F
    ensures var o := Handle(c, s, basic).1;
      o.Reply? ==> |o.bytes| == 60 && o.bytes[24] == FetStatus(s.mos)
    ensures var o := Handle(c, s, whole).1;
      o.Reply? ==> |o.bytes| == 100 && o.bytes[26] == FetStatus(s.mos)
  {
    hide BasicInfo, Comprehensive, Repeated, Be16, Checksum, ValidBlock;
  }

  // ---- Replies and exceptions ----------------------------------------------------------------

  lemma BlockSizes(s: State)
    requires ValidState(s)
    ensures |s.params| == 53 && |s.sysParams| == 52
  {
  }

  /** A sound frame for the command asked, or one of the two short error frames. */
  predicate SoundReply(r: seq<byte>, cmd: byte) {
    || r == ErrorResponse(INVALID) || r == ErrorResponse(BAD_CRC)
    || (ParseReply(r).Some? && ParseReply(r).value.0 == cmd)
  }

  lemma ResponseSound(cmd: byte, data: seq<byte>, target: nat)
    requires |data| < 256 && target < 256
    ensures |Padded(data, target)| < 256 && SoundReply(Response(cmd, data, target), cmd)
  {
    ResponseParses(cmd, data, target);
  }

  lemma WriteReplySound(s: State, f: seq<byte>)
    requires ValidState(s) && IsRequest(f) && Write(s, f).1.Reply?
    ensures SoundReply(Write(s, f).1.bytes, f[2])
  {
    ResponseSound(f[2], [], 0);
    assert SoundReply(ErrorResponse(INVALID), f[2]) && SoundReply(ErrorResponse(BAD_CRC), f[2]);
    hide SoundReply, Response, ErrorResponse, ValidBlock, Padded;
  }

  lemma ReadReplySound(c: Config, s: State, f: seq<byte>)
    requires ValidState(s) && IsRequest(f) && Read(c, s, f).1.Reply?
    ensures SoundReply(Read(c, s, f).1.bytes, f[2])
  {
    BlockSizes(s);
    assert SoundReply(ErrorResponse(INVALID), f[2]);
    hide SoundReply, Response, ErrorResponse, ValidBlock, BasicInfo, Comprehensive, Repeated, Padded, FetStatus;
    var cmd := f[2];
    if cmd == 0x03 { ResponseSound(cmd, BasicInfo(c, FetStatus(s.mos)), 60); }
    else if cmd == 0x04 { ResponseSound(cmd, Repeated(Be16(3250), 16), 50); }
    else if cmd == 0x05 { ResponseSound(cmd, [0x56, 0x31, 0x2E, 0x30], 40); }
    else if cmd == 0x0C { ResponseSound(cmd, s.testMos, 0); }
    else if cmd == 0x0F { ResponseSound(cmd, Comprehensive(c, FetStatus(s.mos)), 100); }
    else if cmd == 0xA2 { if s.factory { ResponseSound(cmd, [|s.sn|] + Encoded(s.sn), 0); } }
    else if cmd == 0xAA { if Fits16(s.restarts) { ResponseSound(cmd, Repeated(Be16(0), 11) + Be16(s.restarts), 40); } }
    else if cmd == 0xF0 { ResponseSound(cmd, s.attrs, 0); }
    else if cmd == 0xF2 { ResponseSound(cmd, s.params, 0); }
    else if cmd == 0xF3 { ResponseSound(cmd, s.sysParams, 0); }
    else { ResponseSound(cmd, s.resistances, 0); }
  }

  /** Every reply is sound. */
  lemma RepliesSound(c: Config, s: State, f: seq<byte>)
    requires ValidState(s) && IsRequest(f) && Handle(c, s, f).1.Reply?
    ensures SoundReply(Handle(c, s, f).1.bytes, f[2])
  {
    hide SoundReply, Write, Read;
    if f[1] == WRITE { WriteReplySound(s, f); } else { ReadReplySound(c, s, f); }
  }

  predicate Raises(c: Config, s: State, cmd: byte) {
    || (cmd == 0xA2 && s.factory && !Ascii(s.sn))
    || (cmd == 0x03 && !(Fits16(c.volts) && FitsSigned16(c.amps) && 0 <= c.soc < 256))
    || (cmd == 0x0F && !(Fits16(c.volts) && FitsSigned16(c.amps)))
    || (cmd == 0xAA && !Fits16(s.restarts))
  }

  /** The only requests that end the simulator: a serial number that is not ASCII, or an option out of range, read. */
  lemma CrashesIff(c: Config, s: State, f: seq<byte>)
    requires ValidState(s) && IsRequest(f)
    ensures Handle(c, s, f).1.Crash? <==> (f[1] == READ && Raises(c, s, f[2]))
  {
    hide Response, ErrorResponse, ValidBlock, BasicInfo, Comprehensive, Repeated, Ascii;
  }

  /** One of the requests resets the battery, which counts it in 16 bits. */
  predicate Resets(fs: seq<seq<byte>>)
    requires Requests(fs)
  {
    exists f :: f in fs && IsWrite(f, 0x0E)
  }

  lemma RestartsStep(c: Config, s: State, f: seq<byte>)
    requires ValidState(s) && IsRequest(f)
    ensures Handle(c, s, f).0.restarts == if IsWrite(f, 0x0E) then (s.restarts + 1) % 65536 else s.restarts
  {
    hide ValidBlock, Response, ErrorResponse, BasicInfo, Comprehensive, Repeated;
  }

  lemma {:induction false} RestartsAfter(c: Config, s: State, fs: seq<seq<byte>>)
    requires ValidState(s) && Requests(fs)
    ensures Fits16(Run(c, s, fs).restarts) <==> Fits16(s.restarts) || Resets(fs)
    decreases |fs|
  {
    hide ValidState, Handle;
    if fs != [] {
      HandleKeeps(c, s, fs[0]);
      RestartsStep(c, s, fs[0]);
      RestartsAfter(c, Handle(c, s, fs[0]).0, fs[1..]);
      assert Resets(fs) <==> IsWrite(fs[0], 0x0E) || Resets(fs[1..]) by { ResetsHead(fs); }
    }
  }

  lemma ResetsHead(fs: seq<seq<byte>>)
    requires fs != [] && Requests(fs)
    ensures Resets(fs) <==> IsWrite(fs[0], 0x0E) || Resets(fs[1..])
  {
    assert fs == [fs[0]] + fs[1..];
  }

  /**
   Asking for the protection counts after any run ends the simulator exactly when it was started with a
   restart count that does not fit 16 bits and no request has reset the battery since.
   */
  lemma CountsReadRaisesIff(c: Config, mos: int, sn: seq<nat>, restarts: int, fs: seq<seq<byte>>, r: seq<byte>)
    requires Requests(fs) && Reads(r, 0xAA)
    ensures ValidState(Start(mos, sn, restarts)) && ValidState(Run(c, Start(mos, sn, restarts), fs))
    ensures Handle(c, Run(c, Start(mos, sn, restarts), fs), r).1.Crash? <==> !Fits16(restarts) && !Resets(fs)
  {
    hide ValidBlock, Handle, Run, Resets;
    StartIsValid(mos, sn, restarts);
    RunKeeps(c, Start(mos, sn, restarts), fs);
    RestartsAfter(c, Start(mos, sn, restarts), fs);
    CrashesIff(c, Run(c, Start(mos, sn, restarts), fs), r);
  }

  lemma StartIsValid(mos: int, sn: seq<nat>, restarts: int)
    ensures ValidState(Start(mos, sn, restarts)) && Start(mos, sn, restarts).restarts == restarts
  {
    hide ValidBlock;
  }

  /**
   A serial number written in factory mode reads back exactly when all its bytes are ASCII; any other
   accepted serial number ends the simulator when it is read.
   */
  lemma SnReadBackIff(c: Config, s: State, w: seq<byte>, t: State, r: seq<byte>)
    requires WroteSn(c, s, w, t) && Reads(r, 0xA2)
    ensures |SnText(w)| <= 31 && Handle(c, t, r).1 ==
      if forall b :: b in SnText(w) ==> b < 128 then Reply(Response(0xA2, [|SnText(w)|] + SnText(w), 0)) else Crash
  {
    WriteSnStores(c, s, w);
    ReadOfSn(c, t, r);
    hide Response, ErrorResponse, ValidBlock, Handle, Accepted, SnText, Ascii;
    AsciiIff(SnText(w));
    if Ascii(t.sn) { assert Encoded(t.sn) == SnText(w); }
  }

  lemma ReadOfSn(c: Config, s: State, r: seq<byte>)
    requires ValidState(s) && s.factory && Reads(r, 0xA2)
    ensures Handle(c, s, r).1 == if Ascii(s.sn) then Reply(Response(0xA2, [|s.sn|] + Encoded(s.sn), 0)) else Crash
  {
    hide Response, ErrorResponse, ValidBlock, BasicInfo, Comprehensive, Repeated, Ascii, Encoded;
  }

  /** `w` is an accepted write of the serial number that takes the simulator from `s` to `t`. */
  predicate WroteSn(c: Config, s: State, w: seq<byte>, t: State) {
    && ValidState(s) && IsRequest(w) && IsWrite(w, 0xA2) && Accepted(Handle(c, s, w).1, 0xA2)
    && t == Handle(c, s, w).0 && ValidState(t)
  }

  /** The text of a serial number write, as its length byte announces. */
  function SnText(w: seq<byte>): seq<byte> {
    if |w| > 5 && 5 + w[4] as int <= |w| then w[5..5 + w[4] as int] else []
  }

  lemma WriteSnStores(c: Config, s: State, w: seq<byte>)
    requires ValidState(s) && IsRequest(w) && IsWrite(w, 0xA2) && Accepted(Handle(c, s, w).1, 0xA2)
    ensures s.factory && |SnText(w)| <= 31 && Handle(c, s, w).0 == s.(sn := Decoded(SnText(w)))
  {
    RefusalIsNotDone(0xA2);
    hide ValidBlock, Response, ErrorResponse;
  }

  lemma RefusalIsNotDone(cmd: byte)
    ensures Response(cmd, [], 0) != ErrorResponse(INVALID)
  {
    assert |Response(cmd, [], 0)| == 7;
  }

  lemma AsciiIff(text: seq<byte>)
    ensures Ascii(Decoded(text)) <==> forall b :: b in text ==> b < 128
  {
    if Ascii(Decoded(text)) {
      forall b | b in text ensures b < 128 {
        var i :| 0 <= i < |text| && text[i] == b;
        assert Decoded(text)[i] in Decoded(text);
      }
    }
    if forall b :: b in text ==> b < 128 {
      forall c | c in Decoded(text) ensures c < 128 {
        var i :| 0 <= i < |text| && Decoded(text)[i] == c;
        assert text[i] in text;
      }
    }
  }

  // ---- The simulator -------------------------------------------------------------------------

  class Simulator {
    const config: Config
    var mos: int
    var factory: bool
    var params: seq<byte>
    var sysParams: seq<byte>
    var sn: seq<nat>
    var attrs: seq<byte>
    var resistances: seq<byte>
    var testMos: seq<byte>
    var restarts: int
    var balance: bool
    var findCar: bool

    function Now(): State
      reads this
    {
      State(mos, factory, params, sysParams, sn, attrs, resistances, testMos, restarts, balance, findCar)
    }

    constructor (config: Config, mos: int, sn: seq<nat>, restarts: int)
      ensures this.config == config && Now() == Start(mos, sn, restarts)
    {
      this.config, this.mos, factory, this.restarts := config, mos, false, restarts;
      params, sysParams := DefaultBlock(53), DefaultBlock(52);
      this.sn := if sn == [] || |sn| > 31 then DEFAULT_SN else sn;
      attrs, resistances, testMos, balance, findCar := Zeros(6), Zeros(60), Zeros(2), false, false;
    }

    /** Is the trailing CRC of the block right? */
    method CheckBlock(block: seq<byte>) returns (good: bool)
      requires |block| >= 2
      ensures good == ValidBlock(block, |block|)
    {
      hide Crc.Feed, CrcMessages.Bits;
      var n := |block|;
      var got := Word(block[n - 2], block[n - 1]);
      var want := CrcMessages.ModbusCrc16(AsBits8(block[..n - 2]));
      good := got == (want as nat) % 65536;
    }

    /** Protection and system parameters: factory mode, length and CRC are checked in this order. */
    method StoreBlock(f: seq<byte>) returns (o: Outcome)
      requires IsRequest(f) && f[2] in {0xF2, 0xF3}
      modifies this`params, this`sysParams
      ensures Now() == WriteBlock(old(Now()), f).0 && o == WriteBlock(old(Now()), f).1
    {
      hide ValidBlock;
      if !factory { return Reply(ErrorResponse(INVALID)); }
      var need := if f[2] == 0xF2 then 53 else 52;
      if f[3] != need { return Reply(ErrorResponse(INVALID)); }
      var block := f[4..4 + need];
      var good := CheckBlock(block);
      if !good { return Reply(ErrorResponse(BAD_CRC)); }
      if f[2] == 0xF2 { params := block; } else { sysParams := block; }
      o := Reply(Response(f[2], [], 0));
    }

    method StoreSn(f: seq<byte>) returns (o: Outcome)
      requires IsRequest(f)
      modifies this`sn
      ensures Now() == WriteSn(old(Now()), f).0 && o == WriteSn(old(Now()), f).1
    {
      var n: int, len: int := f[4], f[3];
      if !factory || len != 1 + n || n < 1 || n > 31 { return Reply(ErrorResponse(INVALID)); }
      sn := Decoded(f[5..5 + n]);
      o := Reply(Response(0xA2, [], 0));
    }

    method TestMos(f: seq<byte>) returns (o: Outcome)
      requires IsRequest(f) && |testMos| == 2
      modifies this`testMos
      ensures Now() == WriteMosTest(old(Now()), f).0 && o == WriteMosTest(old(Now()), f).1
    {
      if f[3] != 2 { return Reply(ErrorResponse(INVALID)); }
      if f[5] == 1 {
        testMos := testMos[1 := 1];
      } else if f[5] == 2 {
        testMos := testMos[0 := 1];
      } else {
        return Reply(ErrorResponse(INVALID));
      }
      o := Reply(Response(0x0C, [], 0));
    }

    /** The write half of `handle_bms`. */
    method HandleWrite(f: seq<byte>) returns (o: Outcome)
      requires IsRequest(f) && ValidState(Now())
      modifies this
      ensures Now() == Write(old(Now()), f).0 && o == Write(old(Now()), f).1
    {
      hide ValidBlock, Response, ErrorResponse, WriteBlock, WriteSn, WriteMosTest;
      var cmd := f[2];
      o := Reply(Response(cmd, [], 0));
      if cmd == 0xE1 {
        mos := f[5] % 4;
      } else if cmd == 0x0E {
        restarts := (restarts + 1) % 65536;
      } else if cmd == 0x00 {
        if f[4..6] != [0x56, 0x78] { return Reply(ErrorResponse(INVALID)); }
        factory := true;
      } else if cmd == 0x01 {
        if !factory { return Reply(ErrorResponse(INVALID)); }
        factory := false;
      } else if cmd == 0xF2 || cmd == 0xF3 {
        o := StoreBlock(f);
      } else if cmd == 0xA2 {
        o := StoreSn(f);
      } else if cmd == 0xF6 {
        if f[3] != 60 { return Reply(ErrorResponse(INVALID)); }
        resistances := f[4..64];
      } else if cmd == 0xF0 {
        if f[3] != 6 { return Reply(ErrorResponse(INVALID)); }
        attrs := f[4..10];
      } else if cmd == 0x0C {
        o := TestMos(f);
      } else if cmd == 0xF5 {
        balance := true;
      } else if cmd == 0xF1 {
        findCar := f[3] == 2 && f[5] == 1;
      } else if cmd !in {0xE6, 0x0D, 0xF7, 0xF8, 0xFA, 0xFB} {
        o := NoReply;
      }
    }

    /** `handle_bms`: reads are answered from the state and change nothing. */
    method HandleRequest(f: seq<byte>) returns (o: Outcome)
      requires IsRequest(f) && ValidState(Now())
      modifies this
      ensures Now() == Handle(config, old(Now()), f).0 && o == Handle(config, old(Now()), f).1
      ensures ValidState(Now())
    {
      HandleKeeps(config, Now(), f);
      hide ValidState, Write, Read;
      if f[1] == WRITE {
        o := HandleWrite(f);
      } else {
        ReadKeeps(config, Now(), f);
        o := Read(config, Now(), f).1;
      }
    }
  }
}
