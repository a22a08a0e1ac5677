/**
 The byte loops of the two checks, what a trailing CRC does to the register, and which errors in a
 message of bytes are always noticed.
 */
module CrcMessages {
  import opened Crc

  // ---- Bytes and registers as bits -----------------------------------------------------------

  function Shift(c: bv32, n: nat): bv32
    decreases n
  {
    if n == 0 then c else Shift(Half(c), n - 1)
  }

  /** The lowest `n` bits, least significant first. */
  function RegBits(c: bv32, n: nat): (bits: seq<bool>)
    ensures |bits| == n
    decreases n
  {
    if n == 0 then [] else [Low(c)] + RegBits(Half(c), n - 1)
  }

  function BitsOf(b: bv8): (bits: seq<bool>)
    ensures |bits| == 8
  {
    RegBits(b as bv32, 8)
  }

  /** A message as bits, each byte least significant bit first. */
  function Bits(data: seq<bv8>): (bits: seq<bool>)
    ensures |bits| == 8 * |data|
  {
    if data == [] then [] else Bits(data[..|data| - 1]) + BitsOf(data[|data| - 1])
  }

  lemma {:induction false} ShiftHalf(c: bv32, n: nat)
    ensures Half(Shift(c, n)) == Shift(c, n + 1)
    decreases n
  {
    hide Half;
    if n != 0 { ShiftHalf(Half(c), n - 1); }
  }

  lemma {:induction false} ShiftShift(c: bv32, m: nat, n: nat)
    ensures Shift(Shift(c, m), n) == Shift(c, m + n)
    decreases m
  {
    hide Half;
    if m != 0 { ShiftShift(Half(c), m - 1, n); }
  }

  lemma {:induction false} RegBitsAt(c: bv32, n: nat, i: nat)
    requires i < n
    ensures RegBits(c, n)[i] == Low(Shift(c, i))
    decreases n
  {
    hide Half, Low;
    if i != 0 { RegBitsAt(Half(c), n - 1, i - 1); }
  }

  lemma {:induction false} RegBitsSplit(c: bv32, m: nat, n: nat)
    ensures RegBits(c, m + n) == RegBits(c, m) + RegBits(Shift(c, m), n)
    decreases m
  {
    hide Half, Low;
    if m != 0 { RegBitsSplit(Half(c), m - 1, n); }
  }

  lemma ShiftFour(c: bv32)
    ensures Shift(c, 4) == c >> 4
  {
    assert Half(c) == c >> 1;
    assert Half(Half(c)) == c >> 2;
    assert Half(Half(Half(c))) == c >> 3;
    assert Half(Half(Half(Half(c)))) == c >> 4;
    hide Half;
    assert Shift(c, 4) == Shift(Half(c), 3) == Shift(Half(Half(c)), 2) == Shift(Half(Half(Half(c))), 1);
  }

  function ByteDown(c: bv32): bv32 { c >> 8 }

  lemma ShiftEight(c: bv32)
    ensures Shift(c, 8) == ByteDown(c)
  {
    hide Shift;
    ShiftFour(c);
    ShiftFour(c >> 4);
    ShiftShift(c, 4, 4);
    assert (c >> 4) >> 4 == c >> 8;
  }

  lemma TwoDown(c: bv32)
    requires c & 0xFFFF_0000 == 0
    ensures ByteDown(ByteDown(c)) == 0
  {
  }

  lemma FourDown(c: bv32)
    ensures ByteDown(ByteDown(ByteDown(ByteDown(c)))) == 0
  {
  }

  lemma OneDown(b: bv8)
    ensures ByteDown(b as bv32) == 0
  {
  }

  /** A register is shifted out in as many rounds as it has bits. */
  lemma ShiftedOut(k: Kind, c: bv32)
    requires Fits(k, c)
    ensures Shift(c, Width(k)) == 0
  {
    var d := ByteDown(c);
    if k.Modbus? { TwoDown(c); } else { FourDown(c); }
    hide Shift, ByteDown;
    ShiftEight(c);
    ShiftEight(d);
    ShiftShift(c, 8, 8);
    if k.Ieee? {
      ShiftEight(ByteDown(d));
      ShiftShift(c, 16, 8);
      ShiftEight(ByteDown(ByteDown(d)));
      ShiftShift(c, 24, 8);
    }
  }

  lemma ByteShiftedOut(b: bv8)
    ensures Shift(b as bv32, 8) == 0
  {
    hide ByteDown;
    ShiftEight(b as bv32);
    OneDown(b);
  }

  // ---- The byte loops ------------------------------------------------------------------------

  lemma HalfSplit(w: bv32)
    ensures Xor(Bit(Low(w)), Twice(Half(w))) == w
    ensures !Low(Twice(Half(w))) && Half(Twice(Half(w))) == Half(w)
  {
  }

  /** A round on a register that has absorbed a byte uses the byte's lowest bit and shifts the rest. */
  lemma Peel(k: Kind, c: bv32, w: bv32)
    ensures Round(Poly(k), Xor(c, w)) == Xor(Step(k, c, Low(w)), Half(w))
  {
    hide Poly, Xor, Half, Twice, Low, Bit;
    HalfSplit(w);
    XorAssoc(c, Bit(Low(w)), Twice(Half(w)));
    RoundXor(Poly(k), Xor(c, Bit(Low(w))), Twice(Half(w)));
  }

  lemma {:induction false} FeedOne(k: Kind, c: bv32, bits: seq<bool>, n: nat)
    requires n < |bits|
    ensures Feed(k, c, bits[..n + 1]) == Step(k, Feed(k, c, bits[..n]), bits[n])
  {
    hide Step;
    assert bits[..n + 1] == bits[..n] + [bits[n]];
    FeedConcat(k, c, bits[..n], [bits[n]]);
    assert [bits[n]][1..] == [];
  }

  lemma XorNothing(c: bv32)
    ensures Xor(c, 0) == c
  {
  }

  /** The inner loop of `modbus_crc16`: one byte. */
  method ModbusByte(before: bv32, b: bv8) returns (crc: bv32)
    ensures crc == Feed(Modbus, before, BitsOf(b))
  {
    hide Xor, Half, Low, Step, Bit, Feed;
    ghost var bits, w := BitsOf(b), b as bv32;
    crc := Xor(before, b as bv32);
    FeedNothing(Modbus, before, bits);
    for j := 0 to 8
      invariant crc == Xor(Feed(Modbus, before, bits[..j]), Shift(w, j))
    {
      RegBitsAt(w, 8, j);
      FeedOne(Modbus, before, bits, j);
      Peel(Modbus, Feed(Modbus, before, bits[..j]), Shift(w, j));
      ShiftHalf(w, j);
      if Low(crc) {
        crc := Xor(Half(crc), 0xA001);
      } else {
        crc := Half(crc);
      }
    }
    ByteShiftedOut(b);
    XorNothing(Feed(Modbus, before, bits));
    assert bits[..8] == bits;
  }

  lemma FeedNothing(k: Kind, c: bv32, bits: seq<bool>)
    ensures Feed(k, c, bits[..0]) == c && Feed(k, c, []) == c
  {
  }

  /** `modbus_crc16`. */
  method ModbusCrc16(data: seq<bv8>) returns (crc: bv32)
    ensures crc == Feed(Modbus, 0xFFFF, Bits(data))
  {
    hide Feed, BitsOf;
    crc := 0xFFFF;
    FeedNothing(Modbus, crc, []);
    var i := 0;
    while i < |data|
      invariant i <= |data| && crc == Feed(Modbus, 0xFFFF, Bits(data[..i]))
    {
      FeedConcat(Modbus, 0xFFFF, Bits(data[..i]), BitsOf(data[i]));
      crc := ModbusByte(crc, data[i]);
      assert data[..i + 1][..i] == data[..i];
      i := i + 1;
    }
    assert data[..i] == data;
  }

  /** The arithmetic mask form of a round. */
  lemma MaskRound(c: bv32)
    ensures Round(0xEDB8_8320, c) == Xor(Half(c), 0xEDB8_8320 & (0 - (c & 1)))
  {
    if Low(c) {
      MaskOdd(c);
    } else {
      MaskEven(c);
      XorNothing(Half(c));
    }
  }

  lemma MaskOdd(c: bv32)
    requires c & 1 == 1
    ensures 0xEDB8_8320 & (0 - (c & 1)) == 0xEDB8_8320
  {
  }

  lemma MaskEven(c: bv32)
    requires c & 1 != 1
    ensures 0xEDB8_8320 & (0 - (c & 1)) == 0
  {
  }

  /** `crc32_update`. */
  method Crc32Update(before: bv32, b: bv8) returns (crc: bv32)
    ensures crc == Feed(Ieee, before, BitsOf(b))
  {
    hide Xor, Half, Low, Step, Bit, Feed;
    ghost var bits, w := BitsOf(b), b as bv32;
    crc := Xor(before, b as bv32);
    FeedNothing(Ieee, before, bits);
    for j := 0 to 8
      invariant crc == Xor(Feed(Ieee, before, bits[..j]), Shift(w, j))
    {
      RegBitsAt(w, 8, j);
      FeedOne(Ieee, before, bits, j);
      Peel(Ieee, Feed(Ieee, before, bits[..j]), Shift(w, j));
      ShiftHalf(w, j);
      MaskRound(crc);
      var mask: bv32 := 0 - (crc & 1);
      crc := Xor(Half(crc), 0xEDB8_8320 & mask);
    }
    ByteShiftedOut(b);
    XorNothing(Feed(Ieee, before, bits));
    assert bits[..8] == bits;
  }

  function Complement(c: bv32): bv32 { Xor(c, 0xFFFF_FFFF) }

  /** `crc32_span`. */
  method Crc32Span(data: seq<bv8>) returns (crc: bv32)
    ensures crc == Complement(Feed(Ieee, 0xFFFF_FFFF, Bits(data)))
  {
    hide Feed, BitsOf, Xor;
    var reg: bv32 := 0xFFFF_FFFF;
    FeedNothing(Ieee, reg, []);
    var i := 0;
    while i < |data|
      invariant i <= |data| && reg == Feed(Ieee, 0xFFFF_FFFF, Bits(data[..i]))
    {
      FeedConcat(Ieee, 0xFFFF_FFFF, Bits(data[..i]), BitsOf(data[i]));
      reg := Crc32Update(reg, data[i]);
      assert data[..i + 1][..i] == data[..i];
      i := i + 1;
    }
    assert data[..i] == data;
    crc := Complement(reg);
  }

  // ---- A trailing CRC ------------------------------------------------------------------------

  lemma LowOff(c: bv32)
    ensures !Low(Xor(c, Bit(Low(c)))) && Half(Xor(c, Bit(Low(c)))) == Half(c)
  {
  }

  /** A register fed its own bits is shifted out. */
  lemma {:induction false} FeedOwn(k: Kind, c: bv32, n: nat)
    ensures Feed(k, c, RegBits(c, n)) == Shift(c, n)
    decreases n
  {
    if n != 0 {
      LowOff(c);
      hide Low, Half, Xor, Bit;
      assert Step(k, c, Low(c)) == Half(c);
      FeedOwn(k, Half(c), n - 1);
    }
  }

  /** The CRC of a message appended to it leaves the register at zero; nothing else of that length does. */
  lemma ResidueZero(k: Kind, c: bv32, x: seq<bool>, t: seq<bool>)
    requires Fits(k, c) && |t| == Width(k)
    ensures Feed(k, c, x + t) == 0 <==> t == RegBits(Feed(k, c, x), Width(k))
  {
    hide Feed, RegBits, Fits, Shift;
    var r := Feed(k, c, x);
    var own := RegBits(r, Width(k));
    FeedFits(k, c, x);
    FeedConcat(k, c, x, t);
    FeedOwn(k, r, Width(k));
    ShiftedOut(k, r);
    if t != own {
      BurstDetected(k, r, t, own, 0);
    }
  }

  function LowByte(c: bv32): bv8 { (c & 0xFF) as bv8 }

  function SecondByte(c: bv32): bv8 { ((c >> 8) & 0xFF) as bv8 }

  function And(c: bv32, m: bv32): bv32 { c & m }

  predicate Ones(m: bv32, n: nat)
    decreases n
  {
    n == 0 || (Low(m) && Ones(Half(m), n - 1))
  }

  lemma HalfAnd(c: bv32, m: bv32)
    ensures Half(And(c, m)) == And(Half(c), Half(m))
    ensures Low(m) ==> Low(And(c, m)) == Low(c)
  {
  }

  lemma {:induction false} MaskedBits(c: bv32, m: bv32, n: nat)
    requires Ones(m, n)
    ensures RegBits(And(c, m), n) == RegBits(c, n)
    decreases n
  {
    hide Half, Low, And;
    if n != 0 {
      HalfAnd(c, m);
      MaskedBits(Half(c), Half(m), n - 1);
    }
  }

  lemma ByteMask()
    ensures Ones(0xFF, 8)
  {
    assert Half(0xFF) == 0x7F && Half(0x7F) == 0x3F && Half(0x3F) == 0x1F && Half(0x1F) == 0x0F;
    assert Half(0x0F) == 7 && Half(7) == 3 && Half(3) == 1;
    assert Low(0xFF) && Low(0x7F) && Low(0x3F) && Low(0x1F) && Low(0x0F) && Low(7) && Low(3) && Low(1);
    hide Half, Low;
    assert Ones(1, 1) && Ones(3, 2) && Ones(7, 3) && Ones(0x0F, 4) && Ones(0x1F, 5) && Ones(0x3F, 6) && Ones(0x7F, 7);
  }

  lemma ByteValues(c: bv32)
    ensures LowByte(c) as bv32 == And(c, 0xFF)
    ensures SecondByte(c) as bv32 == And(ByteDown(c), 0xFF)
  {
  }

  /** The two bytes of a 16-bit register, low one first, are its bits in order. */
  lemma RegisterBytes(c: bv32)
    ensures Bits([LowByte(c), SecondByte(c)]) == RegBits(c, 16)
  {
    hide And, ByteDown, LowByte, SecondByte, RegBits, Shift;
    ByteValues(c);
    ByteMask();
    MaskedBits(c, 0xFF, 8);
    MaskedBits(ByteDown(c), 0xFF, 8);
    ShiftEight(c);
    RegBitsSplit(c, 8, 8);
    BitsPair([LowByte(c)], SecondByte(c));
    BitsPair([], LowByte(c));
    assert [] + [LowByte(c)] == [LowByte(c)];
    assert [LowByte(c)] + [SecondByte(c)] == [LowByte(c), SecondByte(c)];
  }

  lemma BitsPair(data: seq<bv8>, b: bv8)
    ensures Bits(data + [b]) == Bits(data) + BitsOf(b)
  {
    assert (data + [b])[..|data|] == data;
  }

  lemma {:induction false} BitsConcat(a: seq<bv8>, b: seq<bv8>)
    ensures Bits(a + b) == Bits(a) + Bits(b)
    decreases |b|
  {
    hide BitsOf;
    if b == [] {
      assert a + b == a;
    } else {
      var n := |b| - 1;
      assert (a + b)[..|a + b| - 1] == a + b[..n];
      BitsConcat(a, b[..n]);
    }
  }

  // ---- The messages of the rain gauge --------------------------------------------------------

  /** A Modbus message: the payload, then its CRC low byte first. */
  function WithCrc(payload: seq<bv8>, crc: bv32): seq<bv8> { payload + [LowByte(crc), SecondByte(crc)] }

  /** What a receiver checks: the register is zero after the whole message. */
  predicate Intact(message: seq<bv8>) { Feed(Modbus, 0xFFFF, Bits(message)) == 0 }

  /** Of all two-byte trailers exactly the CRC of the payload, low byte first, makes a message intact. */
  lemma IntactIff(payload: seq<bv8>, lo: bv8, hi: bv8)
    ensures var crc := Feed(Modbus, 0xFFFF, Bits(payload));
      Intact(payload + [lo, hi]) <==> lo == LowByte(crc) && hi == SecondByte(crc)
  {
    hide Feed, Bits, LowByte, SecondByte;
    var crc := Feed(Modbus, 0xFFFF, Bits(payload));
    BitsConcat(payload, [lo, hi]);
    RegisterBytes(crc);
    ResidueZero(Modbus, 0xFFFF, Bits(payload), Bits([lo, hi]));
    if Intact(payload + [lo, hi]) {
      BitsInjective([lo, hi], [LowByte(crc), SecondByte(crc)]);
    }
  }

  lemma {:induction false} BitsAt(data: seq<bv8>, i: nat, j: nat)
    requires i < |data| && j < 8
    ensures Bits(data)[8 * i + j] == BitsOf(data[i])[j]
    decreases |data|
  {
    hide BitsOf;
    var n := |data| - 1;
    if i < n { BitsAt(data[..n], i, j); }
  }

  lemma ByteInjective(a: bv8, b: bv8)
    requires BitsOf(a) == BitsOf(b)
    ensures a == b
  {
    hide Feed, Shift, RegBits;
    var c, d := a as bv32, b as bv32;
    FeedOwn(Ieee, c, 8);
    FeedOwn(Ieee, d, 8);
    ByteShiftedOut(a);
    ByteShiftedOut(b);
    FeedInjective(Ieee, c, d, BitsOf(a));
  }

  lemma BitsInjective(a: seq<bv8>, b: seq<bv8>)
    requires Bits(a) == Bits(b)
    ensures a == b
  {
    hide Bits, BitsOf;
    forall i: nat | i < |a| ensures a[i] == b[i] {
      forall j: nat | j < 8 ensures BitsOf(a[i])[j] == BitsOf(b[i])[j] {
        BitsAt(a, i, j);
        BitsAt(b, i, j);
      }
      ByteInjective(a[i], b[i]);
    }
  }

  function Be16(v: bv32): seq<bv8> { [SecondByte(v), LowByte(v)] }

  /** `sn3001_read_register_response`, and `sn3001_read_rainfall_response` once the rainfall is scaled. */
  method ReadResponse(addr: bv8, value: bv32) returns (message: seq<bv8>)
    ensures |message| == 7 && message[..5] == [addr, 3, 2] + Be16(value) && Intact(message)
  {
    var payload := [addr, 3, 2] + Be16(value);
    var crc := ModbusCrc16(payload);
    message := WithCrc(payload, crc);
    IntactIff(payload, LowByte(crc), SecondByte(crc));
  }

  /** `sn3001_write_register_response`. */
  method WriteResponse(addr: bv8, reg: bv32, value: bv32) returns (message: seq<bv8>)
    ensures |message| == 8 && message[..6] == [addr, 6] + Be16(reg) + Be16(value) && Intact(message)
  {
    var payload := [addr, 6] + Be16(reg) + Be16(value);
    var crc := ModbusCrc16(payload);
    message := WithCrc(payload, crc);
    IntactIff(payload, LowByte(crc), SecondByte(crc));
  }

  // ---- Which errors are noticed --------------------------------------------------------------

  /** Two messages that differ only inside a window as wide as the register, in bytes. */
  predicate DifferInBytes(k: Kind, a: seq<bv8>, b: seq<bv8>, i: nat) {
    |a| == |b| && a != b && forall j :: 0 <= j < |a| && !(i <= j < i + Width(k) / 8) ==> a[j] == b[j]
  }

  /** Any change confined to 2 neighbouring bytes (CRC-16) or 4 (CRC-32) changes the register. */
  lemma WindowDetected(k: Kind, c: bv32, a: seq<bv8>, b: seq<bv8>, i: nat)
    requires Fits(k, c) && DifferInBytes(k, a, b, i)
    ensures Feed(k, c, Bits(a)) != Feed(k, c, Bits(b))
  {
    hide Feed, Bits, BitsOf;
    var x, y := Bits(a), Bits(b);
    if x == y { BitsInjective(a, b); }
    forall j | 0 <= j < |x| && !(8 * i <= j < 8 * i + Width(k)) ensures x[j] == y[j] {
      BitsAt(a, j / 8, j % 8);
      BitsAt(b, j / 8, j % 8);
    }
    BurstDetected(k, c, x, y, 8 * i);
  }

  /** The checks as computed: `modbus_crc16` and `crc32_span` tell such messages apart. */
  lemma ChecksDiffer(a: seq<bv8>, b: seq<bv8>, i: nat)
    ensures DifferInBytes(Modbus, a, b, i) ==> Feed(Modbus, 0xFFFF, Bits(a)) != Feed(Modbus, 0xFFFF, Bits(b))
    ensures DifferInBytes(Ieee, a, b, i) ==>
      Complement(Feed(Ieee, 0xFFFF_FFFF, Bits(a))) != Complement(Feed(Ieee, 0xFFFF_FFFF, Bits(b)))
  {
    hide Feed, Bits, Xor;
    if DifferInBytes(Modbus, a, b, i) { WindowDetected(Modbus, 0xFFFF, a, b, i); }
    if DifferInBytes(Ieee, a, b, i) {
      WindowDetected(Ieee, 0xFFFF_FFFF, a, b, i);
      if Complement(Feed(Ieee, 0xFFFF_FFFF, Bits(a))) == Complement(Feed(Ieee, 0xFFFF_FFFF, Bits(b))) {
        XorCancel(Feed(Ieee, 0xFFFF_FFFF, Bits(a)), Feed(Ieee, 0xFFFF_FFFF, Bits(b)), 0xFFFF_FFFF);
      }
    }
  }

  /** The parity of the lowest `n` bits. */
  predicate Odd(c: bv32, n: nat)
    decreases n
  {
    n != 0 && (Low(c) != Odd(Half(c), n - 1))
  }

  predicate OddBits(bits: seq<bool>)
    decreases |bits|
  {
    bits != [] && (bits[0] != OddBits(bits[1..]))
  }

  lemma {:induction false} OddXor(c: bv32, d: bv32, n: nat)
    ensures Odd(Xor(c, d), n) == (Odd(c, n) != Odd(d, n))
    decreases n
  {
    hide Low, Half, Xor;
    if n != 0 {
      LowXor(c, d);
      HalfXor(c, d);
      OddXor(Half(c), Half(d), n - 1);
    }
  }

  lemma {:induction false} OddMore(c: bv32, n: nat)
    ensures Odd(c, n + 1) == (Odd(c, n) != Low(Shift(c, n)))
    decreases n
  {
    hide Low, Half;
    if n == 0 {
      assert Odd(Half(c), 0) == false;
    } else {
      OddMore(Half(c), n - 1);
    }
  }

  lemma {:induction false} OddZero(n: nat)
    ensures !Odd(0, n)
    decreases n
  {
    if n != 0 {
      assert Half(0) == 0;
      OddZero(n - 1);
    }
  }

  /** The generator polynomial of the CRC-16 has an odd number of terms in the register. */
  lemma OddPoly()
    ensures Odd(0xA001, 16)
  {
    assert Half(0xA001) == 0x5000 && Half(0x5000) == 0x2800 && Half(0x2800) == 0x1400 && Half(0x1400) == 0x0A00;
    assert Half(0x0A00) == 0x0500 && Half(0x0500) == 0x0280 && Half(0x0280) == 0x0140 && Half(0x0140) == 0xA0;
    assert Half(0xA0) == 0x50 && Half(0x50) == 0x28 && Half(0x28) == 0x14 && Half(0x14) == 0x0A;
    assert Half(0x0A) == 5 && Half(5) == 2 && Half(2) == 1 && Half(1) == 0;
    assert Low(0xA001) && Low(5) && Low(1);
    assert !Low(0x5000) && !Low(0x2800) && !Low(0x1400) && !Low(0x0A00) && !Low(0x0500);
    assert !Low(0x0280) && !Low(0x0140) && !Low(0xA0) && !Low(0x50);
    assert !Low(0x28) && !Low(0x14) && !Low(0x0A) && !Low(2);
    hide Half, Low;
    assert Odd(1, 1) && Odd(2, 2) && !Odd(5, 3);
    assert !Odd(0x0A, 4) && !Odd(0x14, 5) && !Odd(0x28, 6) && !Odd(0x50, 7) && !Odd(0xA0, 8) && !Odd(0x0140, 9);
    assert !Odd(0x0280, 10) && !Odd(0x0500, 11) && !Odd(0x0A00, 12);
    assert !Odd(0x1400, 13) && !Odd(0x2800, 14) && !Odd(0x5000, 15) && Odd(0xA001, 16);
  }

  lemma OddBit(b: bool)
    ensures Odd(Bit(b), 16) == b
  {
    OddZero(15);
    OddZero(16);
    assert Half(1) == 0;
  }

  lemma OddFirst(c: bv32, n: nat)
    ensures Odd(c, n + 1) == (Low(c) != Odd(Half(c), n))
    ensures !Low(0)
  {
  }

  /** Every round of the CRC-16 keeps the parity of the register. */
  lemma RoundKeepsParity(c: bv32)
    requires Fits(Modbus, c)
    ensures Odd(Round(0xA001, c), 16) == Odd(c, 16)
  {
    hide Low, Half, Xor, Shift, Odd;
    OddFirst(c, 16);
    OddMore(c, 16);
    ShiftedOut(Modbus, c);
    OddPoly();
    OddXor(Half(c), 0xA001, 16);
  }

  lemma {:induction false} FeedParity(c: bv32, bits: seq<bool>)
    requires Fits(Modbus, c)
    ensures Odd(Feed(Modbus, c, bits), 16) == (Odd(c, 16) != OddBits(bits))
    decreases |bits|
  {
    hide Xor, Fits, Odd, Round, Bit;
    if bits != [] {
      var d := Xor(c, Bit(bits[0]));
      BitFits(Modbus, c, bits[0]);
      OddXor(c, Bit(bits[0]), 16);
      OddBit(bits[0]);
      RoundKeepsParity(d);
      StepFits(Modbus, c, bits[0]);
      FeedParity(Step(Modbus, c, bits[0]), bits[1..]);
    }
  }

  lemma {:induction false} OddDiffer(x: seq<bool>, y: seq<bool>)
    requires |x| == |y|
    ensures OddBits(Differ(x, y)) == (OddBits(x) != OddBits(y))
    decreases |x|
  {
    if x != [] {
      OddDiffer(x[1..], y[1..]);
      assert Differ(x, y)[1..] == Differ(x[1..], y[1..]);
    }
  }

  /** The CRC-16 notices every odd number of bit errors, wherever they are. */
  lemma OddErrorsDetected(c: bv32, x: seq<bool>, y: seq<bool>)
    requires Fits(Modbus, c) && |x| == |y| && OddBits(Differ(x, y))
    ensures Feed(Modbus, c, x) != Feed(Modbus, c, y)
  {
    hide Odd, Feed, Fits, OddBits;
    FeedParity(c, x);
    FeedParity(c, y);
    OddDiffer(x, y);
  }
}
