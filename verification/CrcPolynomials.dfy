/**
 What the two checks compute: the remainder of the message's polynomial by the generator, over the field of two
 elements.  Polynomials are written highest power first, so a register, lowest bit first, is one already.
 */
module CrcPolynomials {
  import opened Crc
  import opened CrcMessages

  // ---- Polynomials ---------------------------------------------------------------------------

  function Zeros(n: nat): (p: seq<bool>)
    ensures |p| == n && forall i | 0 <= i < n :: !p[i]
  {
    seq(n, i => false)
  }

  function Ones(n: nat): (p: seq<bool>)
    ensures |p| == n && forall i | 0 <= i < n :: p[i]
  {
    seq(n, i => true)
  }

  function Sum(a: seq<bool>, b: seq<bool>): (p: seq<bool>)
    requires |a| == |b|
    ensures |p| == |a| && forall i | 0 <= i < |p| :: p[i] == (a[i] != b[i])
  {
    seq(|a|, i requires 0 <= i < |a| => a[i] != b[i])
  }

  /** Multiplication as done by hand: a shifted copy of `g` for every coefficient of `q`. */
  function Times(q: seq<bool>, g: seq<bool>): (p: seq<bool>)
    requires g != []
    ensures |p| == |q| + |g| - 1
    decreases |q|
  {
    if q == [] then Zeros(|g| - 1)
    else Sum((if q[0] then g else Zeros(|g|)) + Zeros(|q| - 1), [false] + Times(q[1..], g))
  }

  /** `r` is what is left of `p` after subtracting a multiple of `g`, and has a lower degree than `g`. */
  ghost predicate Remainder(p: seq<bool>, g: seq<bool>, r: seq<bool>) {
    && |r| + 1 == |g| && |r| <= |p|
    && exists q :: |q| == |p| - |r| && p == Sum(Times(q, g), Zeros(|q|) + r)
  }

  /** The coefficients of a product, one factor's leading coefficient split off. */
  lemma TimesAt(q: seq<bool>, g: seq<bool>, i: nat)
    requires g != [] && q != [] && i < |q| + |g| - 1
    ensures Times(q, g)[i] == ((q[0] && i < |g| && g[i]) != (i > 0 && Times(q[1..], g)[i - 1]))
  {
  }

  /** A coefficient of `a` plus `r`. */
  predicate Left(a: seq<bool>, n: nat, r: seq<bool>, i: nat)
    requires i < |a| <= n + |r|
  {
    a[i] != (i >= n && r[i - n])
  }

  lemma SumAt(a: seq<bool>, n: nat, r: seq<bool>, i: nat)
    requires |a| == n + |r| && i < |a|
    ensures Sum(a, Zeros(n) + r)[i] == Left(a, n, r, i)
  {
  }

  /** A multiple of a given number of coefficients, and a rest of lower degree, are determined by their sum. */
  lemma {:induction false} DivisionUnique(q: seq<bool>, q': seq<bool>, g: seq<bool>, r: seq<bool>, r': seq<bool>)
    requires g != [] && g[0] && |q| == |q'| && |r| == |r'| == |g| - 1
    requires Sum(Times(q, g), Zeros(|q|) + r) == Sum(Times(q', g), Zeros(|q'|) + r')
    ensures q == q' && r == r'
    decreases |q|
  {
    hide Times, Sum, Zeros;
    var n := |q|;
    forall i | 0 <= i < n + |r| ensures Left(Times(q, g), n, r, i) == Left(Times(q', g), n, r', i) {
      SumAt(Times(q, g), n, r, i);
      SumAt(Times(q', g), n, r', i);
    }
    if n == 0 {
      assert Times(q, g) == Times(q', g);
      forall i | 0 <= i < |r| ensures r[i] == r'[i] {
        assert Left(Times(q, g), n, r, i) == Left(Times(q', g), n, r', i);
      }
    } else {
      TimesAt(q, g, 0);
      TimesAt(q', g, 0);
      assert Left(Times(q, g), n, r, 0) == Left(Times(q', g), n, r', 0);
      TailUnique(q, q', g, r, r');
      DivisionUnique(q[1..], q'[1..], g, r, r');
      assert q == [q[0]] + q[1..] && q' == [q'[0]] + q'[1..];
    }
  }

  /** Behind the leading coefficient stand those of the shorter product. */
  lemma TailAt(q: seq<bool>, g: seq<bool>, r: seq<bool>, i: nat)
    requires g != [] && q != [] && |r| == |g| - 1 && i + 1 < |q| + |r|
    ensures Left(Times(q, g), |q|, r, i + 1)
         == ((q[0] && i + 1 < |g| && g[i + 1]) != Left(Times(q[1..], g), |q| - 1, r, i))
  {
    hide Times;
    TimesAt(q, g, i + 1);
  }

  lemma TailUnique(q: seq<bool>, q': seq<bool>, g: seq<bool>, r: seq<bool>, r': seq<bool>)
    requires g != [] && |q| == |q'| > 0 && |r| == |r'| == |g| - 1 && q[0] == q'[0]
    requires forall i | 0 <= i < |q| + |r| :: Left(Times(q, g), |q|, r, i) == Left(Times(q', g), |q|, r', i)
    ensures Sum(Times(q[1..], g), Zeros(|q| - 1) + r) == Sum(Times(q'[1..], g), Zeros(|q| - 1) + r')
  {
    hide Times, Sum, Zeros, Left;
    var m := |q| - 1;
    var c, d := Times(q[1..], g), Times(q'[1..], g);
    forall i | 0 <= i < |c| ensures Left(c, m, r, i) == Left(d, m, r', i) {
      TailAt(q, g, r, i);
      TailAt(q', g, r', i);
      assert Left(Times(q, g), |q|, r, i + 1) == Left(Times(q', g), |q|, r', i + 1);
    }
    SumsEqual(c, d, m, r, r');
  }

  lemma SumsEqual(c: seq<bool>, d: seq<bool>, m: nat, r: seq<bool>, r': seq<bool>)
    requires |c| == |d| == m + |r| && |r| == |r'| && forall i | 0 <= i < |c| :: Left(c, m, r, i) == Left(d, m, r', i)
    ensures Sum(c, Zeros(m) + r) == Sum(d, Zeros(m) + r')
  {
    hide Sum, Zeros, Left;
    var x, y := Sum(c, Zeros(m) + r), Sum(d, Zeros(m) + r');
    forall i | 0 <= i < |x| ensures x[i] == y[i] {
      SumAt(c, m, r, i);
      SumAt(d, m, r', i);
    }
  }

  // ---- The generators ------------------------------------------------------------------------

  /** x^16 + x^15 + x^2 + 1, and the generator of clause 3.2.9 of IEEE 802.3. */
  predicate Power(k: Kind, e: int) {
    match k
    case Modbus => e in {16, 15, 2, 0}
    case Ieee => e in {32, 26, 23, 22, 16, 12, 11, 10, 8, 7, 5, 4, 2, 1, 0}
  }

  function Generator(k: Kind): (g: seq<bool>)
    ensures |g| == Width(k) + 1 && g[0]
  {
    seq(Width(k) + 1, i => Power(k, Width(k) - i))
  }

  lemma FourBits(c: bv32)
    ensures RegBits(c, 4) == [Low(c), Low(Half(c)), Low(Half(Half(c))), Low(Half(Half(Half(c))))]
  {
    hide Low, Half;
    assert RegBits(c, 4) == [Low(c)] + RegBits(Half(c), 3);
    assert RegBits(Half(c), 3) == [Low(Half(c))] + RegBits(Half(Half(c)), 2);
    assert RegBits(Half(Half(c)), 2) == [Low(Half(Half(c)))] + RegBits(Half(Half(Half(c))), 1);
    assert RegBits(Half(Half(Half(c))), 0) == [];
  }

  lemma FourOf(c: bv32, b0: bool, b1: bool, b2: bool, b3: bool)
    requires b0 == (c & 1 == 1) && b1 == (c & 2 == 2) && b2 == (c & 4 == 4) && b3 == (c & 8 == 8)
    ensures RegBits(c, 4) == [b0, b1, b2, b3]
  {
    FourBits(c);
    assert Low(Half(c)) == (c & 2 == 2);
    assert Low(Half(Half(c))) == (c & 4 == 4);
    assert Low(Half(Half(Half(c)))) == (c & 8 == 8);
  }

  lemma FourMore(c: bv32, n: nat)
    ensures RegBits(c, 4 + n) == RegBits(c, 4) + RegBits(c >> 4, n)
  {
    hide RegBits;
    ShiftFour(c);
    RegBitsSplit(c, 4, n);
  }

  /** Four coefficients of the generator, below the leading one. */
  function Powers(k: Kind, e: int): seq<bool> { [Power(k, e), Power(k, e - 1), Power(k, e - 2), Power(k, e - 3)] }

  lemma PowersAt(k: Kind, i: nat)
    requires i + 4 <= Width(k)
    ensures Generator(k)[1..][i..i + 4] == Powers(k, Width(k) - 1 - i)
  {
  }

  /** The low bits of a register, four at a time. */
  lemma Nibble(k: Kind, c: bv32, e: int, n: nat)
    requires Power(k, e) == (c & 1 == 1) && Power(k, e - 1) == (c & 2 == 2)
    requires Power(k, e - 2) == (c & 4 == 4) && Power(k, e - 3) == (c & 8 == 8)
    ensures RegBits(c, 4 + n) == Powers(k, e) + RegBits(c >> 4, n)
  {
    FourOf(c, Power(k, e), Power(k, e - 1), Power(k, e - 2), Power(k, e - 3));
    hide RegBits, Power;
    FourMore(c, n);
  }

  lemma NoBits(c: bv32)
    ensures RegBits(c, 0) == []
  {
  }

  lemma ModbusPowers()
    ensures Generator(Modbus)[1..]
      == Powers(Modbus, 15) + (Powers(Modbus, 11) + (Powers(Modbus, 7) + (Powers(Modbus, 3) + [])))
  {
    hide Power, Powers, Generator;
    PowersAt(Modbus, 0);
    PowersAt(Modbus, 4);
    PowersAt(Modbus, 8);
    PowersAt(Modbus, 12);
    var g := Generator(Modbus)[1..];
    assert g == g[0..4] + (g[4..8] + (g[8..12] + (g[12..16] + [])));
  }

  lemma ModbusGenerator()
    ensures RegBits(0xA001, 16) == Generator(Modbus)[1..]
  {
    hide RegBits, Powers, Generator;
    assert 0xA001 as bv32 >> 4 == 0x0A00 && 0x0A00 as bv32 >> 4 == 0x00A0 && 0x00A0 as bv32 >> 4 == 0x000A;
    Nibble(Modbus, 0xA001, 15, 12);
    Nibble(Modbus, 0x0A00, 11, 8);
    Nibble(Modbus, 0x00A0, 7, 4);
    Nibble(Modbus, 0x000A, 3, 0);
    NoBits(0x000A as bv32 >> 4);
    ModbusPowers();
  }

  lemma IeeeGenerator()
    ensures RegBits(0xEDB8_8320, 32) == Generator(Ieee)[1..]
  {
    hide RegBits, Powers, Generator;
    assert 0xEDB8_8320 as bv32 >> 4 == 0xEDB_8832 && 0xEDB_8832 as bv32 >> 4 == 0xED_B883;
    assert 0xED_B883 as bv32 >> 4 == 0xE_DB88 && 0xE_DB88 as bv32 >> 4 == 0xEDB8 && 0xEDB8 as bv32 >> 4 == 0xEDB;
    assert 0xEDB as bv32 >> 4 == 0xED && 0xED as bv32 >> 4 == 0xE;
    HighNibbles();
    Nibble(Ieee, 0xEDB8, 15, 12);
    Nibble(Ieee, 0xEDB, 11, 8);
    Nibble(Ieee, 0xED, 7, 4);
    Nibble(Ieee, 0xE, 3, 0);
    NoBits(0xE as bv32 >> 4);
    IeeePowers();
  }

  lemma HighNibbles()
    ensures RegBits(0xEDB8_8320, 32) == Powers(Ieee, 31) + RegBits(0xEDB8_8320 as bv32 >> 4, 28)
    ensures RegBits(0xEDB_8832, 28) == Powers(Ieee, 27) + RegBits(0xEDB_8832 as bv32 >> 4, 24)
    ensures RegBits(0xED_B883, 24) == Powers(Ieee, 23) + RegBits(0xED_B883 as bv32 >> 4, 20)
    ensures RegBits(0xE_DB88, 20) == Powers(Ieee, 19) + RegBits(0xE_DB88 as bv32 >> 4, 16)
  {
    hide RegBits, Powers;
    Nibble(Ieee, 0xEDB8_8320, 31, 28);
    Nibble(Ieee, 0xEDB_8832, 27, 24);
    Nibble(Ieee, 0xED_B883, 23, 20);
    Nibble(Ieee, 0xE_DB88, 19, 16);
  }

  lemma IeeePowers()
    ensures Generator(Ieee)[1..] == Powers(Ieee, 31) + (Powers(Ieee, 27) + (Powers(Ieee, 23) + (Powers(Ieee, 19)
      + (Powers(Ieee, 15) + (Powers(Ieee, 11) + (Powers(Ieee, 7) + (Powers(Ieee, 3) + [])))))))
  {
    hide Power, Powers, Generator;
    PowersAt(Ieee, 0);
    PowersAt(Ieee, 4);
    PowersAt(Ieee, 8);
    PowersAt(Ieee, 12);
    PowersAt(Ieee, 16);
    PowersAt(Ieee, 20);
    PowersAt(Ieee, 24);
    PowersAt(Ieee, 28);
    var g := Generator(Ieee)[1..];
    assert g == g[0..4] + (g[4..8] + (g[8..12] + (g[12..16]
      + (g[16..20] + (g[20..24] + (g[24..28] + (g[28..32] + [])))))));
  }

  /** The register after a single 1 is the generator below its leading coefficient, highest power in the lowest
      bit: 0xA001 for the CRC-16 and 0xEDB88320 for the CRC-32. */
  lemma GeneratorOf(k: Kind)
    ensures Feed(k, 0, [true]) == if k.Modbus? then 0xA001 else 0xEDB8_8320
    ensures RegBits(Feed(k, 0, [true]), Width(k)) == Generator(k)[1..]
    ensures forall j | 0 <= j < Width(k) :: RegBits(Feed(k, 0, [true]), Width(k))[j] <==>
              Width(k) - 1 - j in if k.Modbus? then {15, 2, 0} else {26, 23, 22, 16, 12, 11, 10, 8, 7, 5, 4, 2, 1, 0}
  {
    assert [true][1..] == [];
    assert Feed(k, 0, [true]) == Feed(k, Step(k, 0, true), []) == Step(k, 0, true);
    assert Step(k, 0, true) == Poly(k);
    hide Feed, Step, RegBits, Generator;
    ModbusGenerator();
    IeeeGenerator();
    forall j | 0 <= j < Width(k)
      ensures RegBits(Feed(k, 0, [true]), Width(k))[j] <==>
              Width(k) - 1 - j in if k.Modbus? then {15, 2, 0} else {26, 23, 22, 16, 12, 11, 10, 8, 7, 5, 4, 2, 1, 0}
    {
      GeneratorAt(k, j);
    }
  }

  lemma GeneratorAt(k: Kind, j: nat)
    requires j < Width(k)
    ensures Generator(k)[1..][j] <==>
              Width(k) - 1 - j in if k.Modbus? then {15, 2, 0} else {26, 23, 22, 16, 12, 11, 10, 8, 7, 5, 4, 2, 1, 0}
  {
    assert Generator(k)[1..][j] == Generator(k)[j + 1] == Power(k, Width(k) - (j + 1));
    match k
    case Modbus => assert Power(k, 15 - j) <==> 15 - j in {15, 2, 0};
    case Ieee => assert Power(k, 31 - j) <==> 31 - j in {26, 23, 22, 16, 12, 11, 10, 8, 7, 5, 4, 2, 1, 0};
  }

  // ---- The register is the remainder ---------------------------------------------------------

  lemma {:induction false} ShiftXor(a: bv32, b: bv32, i: nat)
    ensures Shift(Xor(a, b), i) == Xor(Shift(a, i), Shift(b, i))
    decreases i
  {
    hide Xor, Half;
    if i != 0 {
      HalfXor(a, b);
      ShiftXor(Half(a), Half(b), i - 1);
    }
  }

  lemma XorBits(a: bv32, b: bv32, n: nat)
    ensures RegBits(Xor(a, b), n) == Sum(RegBits(a, n), RegBits(b, n))
  {
    hide Xor, Low, Shift, RegBits;
    forall i | 0 <= i < n ensures RegBits(Xor(a, b), n)[i] == (RegBits(a, n)[i] != RegBits(b, n)[i]) {
      RegBitsAt(Xor(a, b), n, i);
      RegBitsAt(a, n, i);
      RegBitsAt(b, n, i);
      ShiftXor(a, b, i);
      LowXor(Shift(a, i), Shift(b, i));
    }
  }

  /** Shifting a register right drops its first coefficient and appends a zero. */
  lemma HalfBits(k: Kind, c: bv32)
    requires Fits(k, c)
    ensures RegBits(Half(c), Width(k)) == RegBits(c, Width(k))[1..] + [false]
  {
    hide Half, Low, Shift, RegBits;
    var w := Width(k);
    RegBitsSplit(c, w, 1);
    RegBitsSplit(c, 1, w);
    ShiftedOut(k, c);
    OneBit(c, w);
    OneBit(0, 1);
    assert RegBits(c, 1 + w)[1..] == RegBits(Half(c), w);
    assert (RegBits(c, w) + [false])[1..] == RegBits(c, w)[1..] + [false];
  }

  lemma OneBit(c: bv32, n: nat)
    ensures RegBits(c, 1) == [Low(c)] && !Low(0) && Shift(c, 1) == Half(c)
  {
    assert RegBits(Half(c), 0) == [] && Shift(Half(c), 0) == Half(c);
  }

  /** The coefficient that is subtracted away when bit `b` comes in. */
  function Lead(k: Kind, c: bv32, b: bool): bool { Low(c) != b }

  lemma StepIs(k: Kind, c: bv32, b: bool)
    ensures Step(k, c, b) == if Lead(k, c, b) then Xor(Half(c), Poly(k)) else Half(c)
  {
    LowXor(c, Bit(b));
    HalfXor(c, Bit(b));
    HalfBit(b);
    hide Xor, Half, Low, Bit;
    XorNothing(Half(c));
  }

  lemma HalfBit(b: bool)
    ensures Half(Bit(b)) == 0 && Low(Bit(b)) == b
  {
  }

  /** One round of the register is one step of long division. */
  lemma StepDivides(k: Kind, c: bv32, b: bool, j: nat)
    requires Fits(k, c) && j < Width(k)
    ensures RegBits(Step(k, c, b), Width(k))[j]
         == ((j + 1 < Width(k) && RegBits(c, Width(k))[j + 1]) != (Lead(k, c, b) && Generator(k)[j + 1]))
    ensures RegBits(c, Width(k))[0] == Low(c)
  {
    PolyBits(k);
    hide Xor, Half, Low, Step, RegBits, Generator, Lead;
    StepIs(k, c, b);
    HalfBits(k, c);
    XorBits(Half(c), Poly(k), Width(k));
    FirstBitOf(c, Width(k));
  }

  lemma FirstBitOf(c: bv32, n: nat)
    requires n > 0
    ensures RegBits(c, n)[0] == Low(c)
  {
  }

  lemma PolyBits(k: Kind)
    ensures RegBits(Poly(k), Width(k)) == Generator(k)[1..]
  {
    hide RegBits, Generator;
    ModbusGenerator();
    IeeeGenerator();
  }

  /** The message and the register it starts from, as one polynomial: message times x^w, plus the register shifted
      up by the length of the message. */
  function Dividend(k: Kind, c: bv32, m: seq<bool>): (p: seq<bool>)
    ensures |p| == |m| + Width(k)
  {
    Sum(m + Zeros(Width(k)), RegBits(c, Width(k)) + Zeros(|m|))
  }

  lemma DividendAt(k: Kind, c: bv32, m: seq<bool>, i: nat)
    requires i < |m| + Width(k)
    ensures Dividend(k, c, m)[i] == ((i < |m| && m[i]) != (i < Width(k) && RegBits(c, Width(k))[i]))
  {
    hide RegBits;
  }

  /** Feeding a message to a register divides by the generator. */
  lemma {:induction false} Division(k: Kind, c: bv32, m: seq<bool>) returns (q: seq<bool>)
    requires Fits(k, c)
    ensures |q| == |m|
    ensures Dividend(k, c, m) == Sum(Times(q, Generator(k)), Zeros(|m|) + RegBits(Feed(k, c, m), Width(k)))
    decreases |m|
  {
    hide Dividend, Times, Sum, Zeros, RegBits, Generator, Step, Fits, Lead;
    var w, g := Width(k), Generator(k);
    if m == [] {
      q := [];
      NothingDivided(k, c);
    } else {
      var b, m1, c1 := m[0], m[1..], Step(k, c, m[0]);
      StepFits(k, c, b);
      var q1 := Division(k, c1, m1);
      q := [Lead(k, c, b)] + q1;
      assert q[1..] == q1 && m == [b] + m1;
      var r := RegBits(Feed(k, c, m), w);
      assert Feed(k, c, m) == Feed(k, c1, m1);
      forall i | 0 <= i < |m| + w ensures Dividend(k, c, m)[i] == Left(Times(q, g), |m|, r, i) {
        if i == 0 { FirstDivided(k, c, m, q, r); } else { NextDivided(k, c, m, q, r, i - 1); }
      }
      SumIs(Dividend(k, c, m), Times(q, g), |m|, r);
    }
  }

  lemma FirstDivided(k: Kind, c: bv32, m: seq<bool>, q: seq<bool>, r: seq<bool>)
    requires m != [] && |q| == |m| && q[0] == Lead(k, c, m[0]) && |r| == Width(k)
    ensures Dividend(k, c, m)[0] == Left(Times(q, Generator(k)), |m|, r, 0)
  {
    hide Dividend, Times, RegBits, Generator, Lead, Low;
    DividendAt(k, c, m, 0);
    TimesAt(q, Generator(k), 0);
    LeadIs(k, c, m[0]);
  }

  lemma NextDivided(k: Kind, c: bv32, m: seq<bool>, q: seq<bool>, r: seq<bool>, i: nat)
    requires Fits(k, c) && m != [] && |q| == |m| && q[0] == Lead(k, c, m[0]) && |r| == Width(k) && i + 1 < |m| + |r|
    requires Dividend(k, Step(k, c, m[0]), m[1..]) == Sum(Times(q[1..], Generator(k)), Zeros(|m| - 1) + r)
    ensures Dividend(k, c, m)[i + 1] == Left(Times(q, Generator(k)), |m|, r, i + 1)
  {
    hide Dividend, Times, RegBits, Generator, Lead, Sum, Zeros, Step, Fits, Left;
    var c1, m1 := Step(k, c, m[0]), m[1..];
    TailAt(q, Generator(k), r, i);
    SumAt(Times(q[1..], Generator(k)), |m| - 1, r, i);
    DividendAt(k, c, m, i + 1);
    DividendAt(k, c1, m1, i);
    if i < Width(k) { StepDivides(k, c, m[0], i); }
  }

  lemma LeadIs(k: Kind, c: bv32, b: bool)
    ensures RegBits(c, Width(k))[0] == Low(c) && (Lead(k, c, b) <==> Low(c) != b) && Generator(k)[0]
  {
    hide Low, Half;
  }

  lemma SumIs(p: seq<bool>, a: seq<bool>, n: nat, r: seq<bool>)
    requires |p| == |a| == n + |r| && forall i | 0 <= i < |p| :: p[i] == Left(a, n, r, i)
    ensures p == Sum(a, Zeros(n) + r)
  {
    hide Sum, Zeros, Left;
    forall i | 0 <= i < |p| ensures p[i] == Sum(a, Zeros(n) + r)[i] { SumAt(a, n, r, i); }
  }

  lemma NothingDivided(k: Kind, c: bv32)
    ensures Dividend(k, c, []) == Sum(Times([], Generator(k)), Zeros(0) + RegBits(Feed(k, c, []), Width(k)))
  {
    hide RegBits, Generator;
    var p, w := Dividend(k, c, []), Width(k);
    forall i | 0 <= i < w ensures p[i] == Left(Times([], Generator(k)), 0, RegBits(c, w), i) {
      DividendAt(k, c, [], i);
    }
    SumIs(p, Times([], Generator(k)), 0, RegBits(c, w));
  }

  /** The register a message leaves is the remainder of its polynomial by the generator, and nothing else is. */
  lemma RegisterIsRemainder(k: Kind, c: bv32, m: seq<bool>, r: seq<bool>)
    requires Fits(k, c)
    ensures Remainder(Dividend(k, c, m), Generator(k), r) <==> r == RegBits(Feed(k, c, m), Width(k))
  {
    hide Dividend, Times, Sum, Zeros, RegBits, Generator, Feed, Fits;
    var q := Division(k, c, m);
    if Remainder(Dividend(k, c, m), Generator(k), r) {
      var q' :| |q'| == |Dividend(k, c, m)| - |r| && Dividend(k, c, m) == Sum(Times(q', Generator(k)), Zeros(|q'|) + r);
      DivisionUnique(q, q', Generator(k), RegBits(Feed(k, c, m), Width(k)), r);
    }
  }

  // ---- The two checks ------------------------------------------------------------------------

  lemma FourOnes(c: bv32, n: nat)
    requires c & 1 == 1 && c & 2 == 2 && c & 4 == 4 && c & 8 == 8 && RegBits(c >> 4, n) == Ones(n)
    ensures RegBits(c, 4 + n) == Ones(4 + n)
  {
    FourOf(c, true, true, true, true);
    hide RegBits;
    FourMore(c, n);
  }

  lemma SixteenOnes()
    ensures RegBits(0xFFFF, 16) == Ones(16)
  {
    hide RegBits, Ones;
    assert 0xF as bv32 >> 4 == 0 && 0xFF as bv32 >> 4 == 0xF;
    assert 0xFFF as bv32 >> 4 == 0xFF && 0xFFFF as bv32 >> 4 == 0xFFF;
    NoBits(0);
    assert RegBits(0, 0) == Ones(0);
    FourOnes(0xF, 0);
    FourOnes(0xFF, 4);
    FourOnes(0xFFF, 8);
    FourOnes(0xFFFF, 12);
  }

  lemma ThirtyTwoOnes()
    ensures RegBits(0xFFFF_FFFF, 32) == Ones(32)
  {
    hide RegBits, Ones;
    SixteenOnes();
    assert 0xF_FFFF as bv32 >> 4 == 0xFFFF && 0xFF_FFFF as bv32 >> 4 == 0xF_FFFF;
    assert 0xFFF_FFFF as bv32 >> 4 == 0xFF_FFFF && 0xFFFF_FFFF as bv32 >> 4 == 0xFFF_FFFF;
    FourOnes(0xF_FFFF, 16);
    FourOnes(0xFF_FFFF, 20);
    FourOnes(0xFFF_FFFF, 24);
    FourOnes(0xFFFF_FFFF, 28);
  }

  /** The Modbus CRC of a message is the remainder of the message times x^16, with its first 16 bits inverted. */
  lemma ModbusIsRemainder(data: seq<bv8>, crc: bv32, r: seq<bool>)
    requires crc == Feed(Modbus, 0xFFFF, Bits(data))
    ensures Remainder(Sum(Bits(data) + Zeros(16), Ones(16) + Zeros(8 * |data|)), Generator(Modbus), r)
        <==> r == RegBits(crc, 16)
  {
    StartsFit();
    hide *;
    SixteenOnes();
    RemainderFrom(Modbus, 0xFFFF, Bits(data), Ones(16), r);
  }

  /** The CRC-32 of a message is the remainder of the message times x^32, with its first 32 bits inverted, and is
      itself inverted. */
  lemma Crc32IsRemainder(data: seq<bv8>, crc: bv32, r: seq<bool>)
    requires crc == Complement(Feed(Ieee, 0xFFFF_FFFF, Bits(data))) && |r| == 32
    ensures Remainder(Sum(Bits(data) + Zeros(32), Ones(32) + Zeros(8 * |data|)), Generator(Ieee), r)
        <==> RegBits(crc, 32) == Sum(r, Ones(32))
  {
    StartsFit();
    hide *;
    var c := Feed(Ieee, 0xFFFF_FFFF, Bits(data));
    ComplementIs(c);
    ThirtyTwoOnes();
    RemainderFrom(Ieee, 0xFFFF_FFFF, Bits(data), Ones(32), r);
    XorBits(c, 0xFFFF_FFFF, 32);
    SumCancels(r, RegBits(c, 32), Ones(32));
  }

  lemma ComplementIs(c: bv32)
    ensures Complement(c) == Xor(c, 0xFFFF_FFFF)
  {
  }

  lemma StartsFit()
    ensures Fits(Modbus, 0xFFFF) && Fits(Ieee, 0xFFFF_FFFF) && Width(Modbus) == 16 && Width(Ieee) == 32
  {
  }

  lemma RemainderFrom(k: Kind, c: bv32, m: seq<bool>, start: seq<bool>, r: seq<bool>)
    requires Fits(k, c) && start == RegBits(c, Width(k))
    ensures Remainder(Sum(m + Zeros(Width(k)), start + Zeros(|m|)), Generator(k), r)
        <==> r == RegBits(Feed(k, c, m), Width(k))
  {
    hide Zeros, Sum, RegBits, Feed, Remainder, Generator, Fits;
    RegisterIsRemainder(k, c, m, r);
  }

  lemma SumCancels(a: seq<bool>, b: seq<bool>, c: seq<bool>)
    requires |a| == |b| == |c|
    ensures Sum(a, c) == Sum(b, c) <==> a == b
  {
    if Sum(a, c) == Sum(b, c) {
      forall i | 0 <= i < |a| ensures a[i] == b[i] { assert Sum(a, c)[i] == Sum(b, c)[i]; }
    }
  }
}
