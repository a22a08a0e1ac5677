/**
 The two reflected cyclic redundancy checks: the Modbus CRC-16 (scripts/uart0_bms_rain_simulator.py) and
 the CRC-32 of the crash diagnostics (esp32-collector/main/crash_diag.c).

 Both loops take a byte at a time.  Their meaning is stated on the message's bits, least significant
 first: one round of the register per bit.
 */
module Crc {

  datatype Kind = Modbus | Ieee

  function Poly(k: Kind): bv32 { if k.Modbus? then 0xA001 else 0xEDB8_8320 }

  function Top(k: Kind): bv32 { if k.Modbus? then 0x8000 else 0x8000_0000 }

  function Width(k: Kind): nat { if k.Modbus? then 16 else 32 }

  /** The value fits the register. */
  predicate Fits(k: Kind, c: bv32) { k.Ieee? || c & 0xFFFF_0000 == 0 }

  function Xor(c: bv32, d: bv32): bv32 { c ^ d }

  function Half(c: bv32): bv32 { c >> 1 }

  function Twice(c: bv32): bv32 { c << 1 }

  predicate Low(c: bv32) { c & 1 == 1 }

  function Round(p: bv32, c: bv32): bv32 { if Low(c) then Xor(Half(c), p) else Half(c) }

  function Unround(p: bv32, top: bv32, c: bv32): bv32 {
    if c & top != 0 then Twice(Xor(c, p)) | 1 else Twice(c)
  }

  function Bit(b: bool): bv32 { if b then 1 else 0 }

  /** One bit of message. */
  function Step(k: Kind, c: bv32, b: bool): bv32 { Round(Poly(k), Xor(c, Bit(b))) }

  /** The register after a string of bits. */
  function Feed(k: Kind, c: bv32, bits: seq<bool>): bv32
    decreases |bits|
  {
    if bits == [] then c else Feed(k, Step(k, c, bits[0]), bits[1..])
  }

  // ---- One round -----------------------------------------------------------------------------

  lemma RoundOdd(p: bv32, c: bv32)
    requires c & 1 == 1
    ensures Round(p, c) == (c >> 1) ^ p
  {
  }

  lemma RoundEven(p: bv32, c: bv32)
    requires c & 1 != 1
    ensures Round(p, c) == c >> 1
  {
  }

  lemma UnroundHigh(p: bv32, top: bv32, c: bv32)
    requires c & top != 0
    ensures Unround(p, top, c) == ((c ^ p) << 1) | 1
  {
  }

  lemma UnroundLow(p: bv32, top: bv32, c: bv32)
    requires c & top == 0
    ensures Unround(p, top, c) == c << 1
  {
  }

  /** No information is lost by a round ... */
  lemma RoundDown(k: Kind, c: bv32)
    requires Fits(k, c)
    ensures Fits(k, Round(Poly(k), c)) && Unround(Poly(k), Top(k), Round(Poly(k), c)) == c
  {
    hide Round, Unround;
    var p, r := Poly(k), Round(Poly(k), c);
    if c & 1 == 1 {
      RoundOdd(p, c);
      if k.Modbus? { OddDown16(c); } else { OddDown32(c); }
      UnroundHigh(p, Top(k), r);
    } else {
      RoundEven(p, c);
      if k.Modbus? { EvenDown16(c); } else { EvenDown32(c); }
      UnroundLow(p, Top(k), r);
    }
  }

  /** ... and every register value is the result of one: a round is a bijection. */
  lemma RoundUp(k: Kind, c: bv32)
    requires Fits(k, c)
    ensures Fits(k, Unround(Poly(k), Top(k), c)) && Round(Poly(k), Unround(Poly(k), Top(k), c)) == c
  {
    hide Round, Unround;
    match k
    case Modbus => RoundUp16(c);
    case Ieee => RoundUp32(c);
  }

  lemma RoundUp16(c: bv32)
    requires c & 0xFFFF_0000 == 0
    ensures Unround(0xA001, 0x8000, c) & 0xFFFF_0000 == 0 && Round(0xA001, Unround(0xA001, 0x8000, c)) == c
  {
    hide Round, Unround;
    var u := Unround(0xA001, 0x8000, c);
    if c & 0x8000 != 0 {
      UnroundHigh(0xA001, 0x8000, c); HighUp16(c); RoundOdd(0xA001, u);
    } else {
      UnroundLow(0xA001, 0x8000, c); LowUp16(c); RoundEven(0xA001, u);
    }
  }

  lemma RoundUp32(c: bv32)
    ensures Round(0xEDB8_8320, Unround(0xEDB8_8320, 0x8000_0000, c)) == c
  {
    hide Round, Unround;
    var u := Unround(0xEDB8_8320, 0x8000_0000, c);
    if c & 0x8000_0000 != 0 {
      UnroundHigh(0xEDB8_8320, 0x8000_0000, c); HighUp32(c); RoundOdd(0xEDB8_8320, u);
    } else {
      UnroundLow(0xEDB8_8320, 0x8000_0000, c); LowUp32(c); RoundEven(0xEDB8_8320, u);
    }
  }

  lemma OddDown16(c: bv32)
    requires c & 1 == 1 && c & 0xFFFF_0000 == 0
    ensures var r := (c >> 1) ^ 0xA001;
      r & 0x8000 != 0 && r & 0xFFFF_0000 == 0 && ((r ^ 0xA001) << 1) | 1 == c
  {
  }

  lemma OddDown32(c: bv32)
    requires c & 1 == 1
    ensures var r := (c >> 1) ^ 0xEDB8_8320; r & 0x8000_0000 != 0 && ((r ^ 0xEDB8_8320) << 1) | 1 == c
  {
  }

  lemma EvenDown16(c: bv32)
    requires c & 1 != 1 && c & 0xFFFF_0000 == 0
    ensures (c >> 1) & 0x8000 == 0 && (c >> 1) & 0xFFFF_0000 == 0 && (c >> 1) << 1 == c
  {
  }

  lemma EvenDown32(c: bv32)
    requires c & 1 != 1
    ensures (c >> 1) & 0x8000_0000 == 0 && (c >> 1) << 1 == c
  {
  }

  lemma HighUp16(c: bv32)
    requires c & 0x8000 != 0 && c & 0xFFFF_0000 == 0
    ensures var u := ((c ^ 0xA001) << 1) | 1;
      u & 1 == 1 && u & 0xFFFF_0000 == 0 && (u >> 1) ^ 0xA001 == c
  {
  }

  lemma HighUp32(c: bv32)
    requires c & 0x8000_0000 != 0
    ensures var u := ((c ^ 0xEDB8_8320) << 1) | 1; u & 1 == 1 && (u >> 1) ^ 0xEDB8_8320 == c
  {
  }

  lemma LowUp16(c: bv32)
    requires c & 0x8000 == 0 && c & 0xFFFF_0000 == 0
    ensures (c << 1) & 1 != 1 && (c << 1) & 0xFFFF_0000 == 0 && (c << 1) >> 1 == c
  {
  }

  lemma LowUp32(c: bv32)
    requires c & 0x8000_0000 == 0
    ensures (c << 1) & 1 != 1 && (c << 1) >> 1 == c
  {
  }

  lemma XorComm(x: bv32, y: bv32)
    ensures Xor(x, y) == Xor(y, x)
  {
  }

  lemma XorAssoc(x: bv32, y: bv32, z: bv32)
    ensures Xor(Xor(x, y), z) == Xor(x, Xor(y, z))
  {
  }

  lemma XorTwice(c: bv32, x: bv32)
    ensures Xor(Xor(c, x), x) == c
  {
  }

  lemma XorLaws(x: bv32, y: bv32, p: bv32)
    ensures Xor(Xor(x, y), p) == Xor(Xor(x, p), y) == Xor(x, Xor(y, p))
    ensures Xor(Xor(x, p), Xor(y, p)) == Xor(x, y)
  {
    hide Xor;
    XorAssoc(x, y, p); XorAssoc(x, p, y); XorComm(y, p);
    XorAssoc(Xor(x, p), y, p); XorTwice(Xor(x, y), p);
  }

  lemma HalfXor(a: bv32, b: bv32)
    ensures Half(Xor(a, b)) == Xor(Half(a), Half(b))
  {
  }

  lemma LowXor(a: bv32, b: bv32)
    ensures Low(Xor(a, b)) == (Low(a) != Low(b))
  {
  }

  /** A round is linear. */
  lemma RoundXor(p: bv32, a: bv32, b: bv32)
    ensures Round(p, Xor(a, b)) == Xor(Round(p, a), Round(p, b))
  {
    hide Xor, Half, Low;
    HalfXor(a, b);
    LowXor(a, b);
    XorLaws(Half(a), Half(b), p);
  }

  lemma BitFits(k: Kind, c: bv32, b: bool)
    requires Fits(k, c)
    ensures Fits(k, Xor(c, Bit(b)))
  {
  }

  lemma BitXor(a: bool, b: bool)
    ensures Xor(Bit(a), Bit(b)) == Bit(a != b)
  {
  }

  lemma StepXor(k: Kind, c: bv32, a: bool, d: bv32, b: bool)
    ensures Xor(Step(k, c, a), Step(k, d, b)) == Step(k, Xor(c, d), a != b)
  {
    hide Round, Poly, Bit, Xor;
    BitXor(a, b);
    XorLaws(c, d, Bit(b));
    XorLaws(c, Bit(a), Xor(d, Bit(b)));
    XorLaws(c, d, Bit(a));
    XorLaws(Xor(c, d), Bit(a), Bit(b));
    XorLaws(Xor(c, Bit(a)), d, Bit(b));
    RoundXor(Poly(k), Xor(c, Bit(a)), Xor(d, Bit(b)));
  }

  lemma StepFits(k: Kind, c: bv32, b: bool)
    requires Fits(k, c)
    ensures Fits(k, Step(k, c, b)) && Unround(Poly(k), Top(k), Step(k, c, b)) == Xor(c, Bit(b))
  {
    hide Round, Unround, Poly, Top, Bit, Fits, Xor;
    BitFits(k, c, b);
    RoundDown(k, Xor(c, Bit(b)));
  }

  lemma StepInjective(k: Kind, c: bv32, d: bv32, b: bool)
    requires Fits(k, c) && Fits(k, d) && Step(k, c, b) == Step(k, d, b)
    ensures c == d
  {
    hide Round, Unround, Poly, Top, Bit, Fits, Step, Xor;
    StepFits(k, c, b);
    StepFits(k, d, b);
    XorCancel(c, d, Bit(b));
  }

  lemma XorCancel(c: bv32, d: bv32, x: bv32)
    requires Xor(c, x) == Xor(d, x)
    ensures c == d
  {
    hide Xor;
    XorTwice(c, x);
    XorTwice(d, x);
  }

  // ---- Strings of bits -----------------------------------------------------------------------

  function Differ(x: seq<bool>, y: seq<bool>): (e: seq<bool>)
    requires |x| == |y|
    ensures |e| == |x| && forall i :: 0 <= i < |e| ==> e[i] == (x[i] != y[i])
  {
    seq(|x|, i requires 0 <= i < |x| => x[i] != y[i])
  }

  /** The difference of two registers depends only on the difference of what they were fed. */
  lemma {:induction false} FeedXor(k: Kind, c: bv32, d: bv32, x: seq<bool>, y: seq<bool>)
    requires |x| == |y|
    ensures Xor(Feed(k, c, x), Feed(k, d, y)) == Feed(k, Xor(c, d), Differ(x, y))
    decreases |x|
  {
    hide Step, Xor;
    if x != [] {
      StepXor(k, c, x[0], d, y[0]);
      FeedXor(k, Step(k, c, x[0]), Step(k, d, y[0]), x[1..], y[1..]);
      assert Differ(x, y)[1..] == Differ(x[1..], y[1..]);
    }
  }

  lemma {:induction false} FeedConcat(k: Kind, c: bv32, x: seq<bool>, y: seq<bool>)
    ensures Feed(k, c, x + y) == Feed(k, Feed(k, c, x), y)
    decreases |x|
  {
    hide Step;
    if x == [] {
      assert x + y == y;
    } else {
      assert (x + y)[1..] == x[1..] + y && (x + y)[0] == x[0];
      FeedConcat(k, Step(k, c, x[0]), x[1..], y);
    }
  }

  lemma {:induction false} FeedFits(k: Kind, c: bv32, x: seq<bool>)
    requires Fits(k, c)
    ensures Fits(k, Feed(k, c, x))
    decreases |x|
  {
    hide Step, Fits;
    if x != [] {
      StepFits(k, c, x[0]);
      FeedFits(k, Step(k, c, x[0]), x[1..]);
    }
  }

  /** The same bits take different registers to different registers. */
  lemma {:induction false} FeedInjective(k: Kind, c: bv32, d: bv32, x: seq<bool>)
    requires Fits(k, c) && Fits(k, d) && Feed(k, c, x) == Feed(k, d, x)
    ensures c == d
    decreases |x|
  {
    hide Step, Fits;
    if x != [] {
      StepFits(k, c, x[0]);
      StepFits(k, d, x[0]);
      FeedInjective(k, Step(k, c, x[0]), Step(k, d, x[0]), x[1..]);
      StepInjective(k, c, d, x[0]);
    }
  }

  // ---- Bursts --------------------------------------------------------------------------------

  predicate TopClear(k: Kind, c: bv32) { c & Top(k) == 0 }

  /** The top `n` bits of the register are clear. */
  predicate Clear(k: Kind, c: bv32, n: nat)
    decreases n
  {
    n == 0 || (TopClear(k, c) && Clear(k, Twice(c), n - 1))
  }

  lemma TopXor(k: Kind, a: bv32, b: bv32)
    ensures TopClear(k, a) && TopClear(k, b) ==> TopClear(k, Xor(a, b))
    ensures Twice(Xor(a, b)) == Xor(Twice(a), Twice(b))
  {
  }

  lemma {:induction false} ClearXor(k: Kind, a: bv32, b: bv32, n: nat)
    requires Clear(k, a, n) && Clear(k, b, n)
    ensures Clear(k, Xor(a, b), n)
    decreases n
  {
    hide TopClear, Twice, Xor;
    if n != 0 {
      TopXor(k, a, b);
      ClearXor(k, Twice(a), Twice(b), n - 1);
    }
  }

  lemma {:induction false} ClearLess(k: Kind, c: bv32, n: nat, m: nat)
    requires Clear(k, c, n) && m <= n
    ensures Clear(k, c, m)
    decreases m
  {
    hide TopClear, Twice;
    if m != 0 { ClearLess(k, Twice(c), n - 1, m - 1); }
  }

  lemma {:induction false} ClearZero(k: Kind, n: nat)
    ensures Clear(k, 0, n)
    decreases n
  {
    if n != 0 {
      assert Twice(0) == 0;
      ClearZero(k, n - 1);
    }
  }

  lemma ClearFour(k: Kind, c: bv32, n: nat)
    requires c & (if k.Modbus? then 0xF000 else 0xF000_0000) == 0 && Clear(k, c << 4, n)
    ensures Clear(k, c, n + 4)
  {
    FourClear(k, c);
    hide TopClear, Twice;
    var c1, c2, c3 := Twice(c), Twice(Twice(c)), Twice(Twice(Twice(c)));
    assert Clear(k, c3, n + 1);
    assert Clear(k, c2, n + 2);
    assert Clear(k, c1, n + 3);
  }

  lemma FourClear(k: Kind, c: bv32)
    requires c & (if k.Modbus? then 0xF000 else 0xF000_0000) == 0
    ensures TopClear(k, c) && TopClear(k, Twice(c)) && TopClear(k, Twice(Twice(c)))
    ensures TopClear(k, Twice(Twice(Twice(c))))
    ensures Twice(Twice(Twice(Twice(c)))) == c << 4
  {
    Doubled(c);
    hide Twice;
    if k.Modbus? { FourClear16(c); } else { FourClear32(c); }
    var c1, c2, c3 := c << 1, c << 2, c << 3;
    hide TopClear;
    TopClearIs(k, c); TopClearIs(k, c1); TopClearIs(k, c2); TopClearIs(k, c3);
  }

  lemma TopClearIs(k: Kind, c: bv32)
    requires c & (if k.Modbus? then 0x8000 else 0x8000_0000) == 0
    ensures TopClear(k, c)
  {
  }

  lemma Doubled(c: bv32)
    ensures Twice(c) == c << 1
    ensures Twice(Twice(c)) == c << 2
    ensures Twice(Twice(Twice(c))) == c << 3
    ensures Twice(Twice(Twice(Twice(c)))) == c << 4
  {
  }

  lemma FourClear16(c: bv32)
    requires c & 0xF000 == 0
    ensures c & 0x8000 == 0 && (c << 1) & 0x8000 == 0 && (c << 2) & 0x8000 == 0 && (c << 3) & 0x8000 == 0
  {
  }

  lemma FourClear32(c: bv32)
    requires c & 0xF000_0000 == 0
    ensures c & 0x8000_0000 == 0 && (c << 1) & 0x8000_0000 == 0
    ensures (c << 2) & 0x8000_0000 == 0 && (c << 3) & 0x8000_0000 == 0
  {
  }

  lemma ClearThree(k: Kind, c: bv32)
    requires c == Top(k) >> 3
    ensures Clear(k, c, 3)
  {
    assert TopClear(k, c) && TopClear(k, Twice(c)) && TopClear(k, Twice(Twice(c)));
    hide TopClear, Twice;
    assert Clear(k, Twice(Twice(c)), 1) && Clear(k, Twice(c), 2);
  }

  /** The lowest bit of the register reaches the top only after `Width - 1` doublings. */
  lemma ClearBit(k: Kind, b: bool)
    ensures Clear(k, Bit(b), Width(k) - 1)
  {
    if !b {
      ClearZero(k, Width(k) - 1);
    } else if k.Modbus? {
      ClearThree(k, 0x1000);
      ClearFour(k, 0x100, 3); ClearFour(k, 0x10, 7); ClearFour(k, 1, 11);
    } else {
      ClearThree(k, 0x1000_0000);
      ClearFour(k, 0x100_0000, 3); ClearFour(k, 0x10_0000, 7); ClearFour(k, 0x1_0000, 11);
      ClearFour(k, 0x1000, 15); ClearFour(k, 0x100, 19); ClearFour(k, 0x10, 23); ClearFour(k, 1, 27);
    }
  }

  /** A register that `bits` brings to zero already had its upper bits clear. */
  lemma {:induction false} BackFromZero(k: Kind, c: bv32, bits: seq<bool>)
    requires Fits(k, c) && |bits| <= Width(k) && Feed(k, c, bits) == 0
    ensures Clear(k, c, Width(k) - |bits|)
    decreases |bits|
  {
    hide Xor, Step, Fits, TopClear, Twice, Bit, Unround, Poly, Top;
    if bits == [] {
      ClearZero(k, Width(k));
    } else {
      var n := Width(k) - |bits|;
      var d := Step(k, c, bits[0]);
      StepFits(k, c, bits[0]);
      BackFromZero(k, d, bits[1..]);
      assert Clear(k, d, n + 1) && TopClear(k, d);
      UnroundClear(k, d);
      ClearBit(k, bits[0]);
      ClearLess(k, Bit(bits[0]), Width(k) - 1, n);
      ClearXor(k, Twice(d), Bit(bits[0]), n);
      XorTwice(c, Bit(bits[0]));
    }
  }

  lemma UnroundClear(k: Kind, c: bv32)
    requires TopClear(k, c)
    ensures Unround(Poly(k), Top(k), c) == Twice(c)
  {
  }

  lemma FirstBit(k: Kind)
    ensures Step(k, 0, true) == Poly(k) && Step(k, 0, false) == 0 && Fits(k, Poly(k)) && Fits(k, 0)
    ensures !TopClear(k, Poly(k))
  {
  }

  /** No error pattern of at most `Width` bits, with a first bit in error, leaves the register at zero. */
  lemma BurstNonzero(k: Kind, e: seq<bool>)
    requires 0 < |e| <= Width(k) && e[0]
    ensures Feed(k, 0, e) != 0
  {
    hide Step, Fits, TopClear, Poly, Twice;
    FirstBit(k);
    if Feed(k, 0, e) == 0 {
      BackFromZero(k, Poly(k), e[1..]);
    }
  }

  /** Two messages that differ only inside a window as wide as the register. */
  predicate DifferInWindow(k: Kind, x: seq<bool>, y: seq<bool>, i: nat) {
    |x| == |y| && x != y && forall j :: 0 <= j < |x| && !(i <= j < i + Width(k)) ==> x[j] == y[j]
  }

  /** The position of the first error. */
  lemma FirstError(x: seq<bool>, y: seq<bool>) returns (p: nat)
    requires |x| == |y| && x != y
    ensures p < |x| && x[p] != y[p] && x[..p] == y[..p]
  {
    p := 0;
    while x[p] == y[p]
      invariant p < |x| && x[..p] == y[..p]
      decreases |x| - p
    {
      p := p + 1;
      assert x[..p] == x[..p - 1] + [x[p - 1]] && y[..p] == y[..p - 1] + [y[p - 1]];
      assert x[..|x|] == x && y[..|y|] == y;
    }
  }

  /** Every burst of errors no longer than the register is detected, whatever surrounds it. */
  lemma BurstDetected(k: Kind, c: bv32, x: seq<bool>, y: seq<bool>, i: nat)
    requires Fits(k, c) && DifferInWindow(k, x, y, i)
    ensures Feed(k, c, x) != Feed(k, c, y)
  {
    hide Feed, Fits, Xor;
    var p := FirstError(x, y);
    assert i <= p;
    var q := if p + Width(k) < |x| then p + Width(k) else |x|;
    var d := Feed(k, c, x[..p]);
    FeedFits(k, c, x[..p]);
    var u, v := x[p..q], y[p..q];
    FeedXor(k, d, d, u, v);
    XorZero(d, d);
    assert u[0] == x[p] && v[0] == y[p];
    BurstNonzero(k, Differ(u, v));
    XorZero(Feed(k, d, u), Feed(k, d, v));
    FeedFits(k, d, u);
    FeedFits(k, d, v);
    assert x[q..] == y[q..];
    if Feed(k, Feed(k, d, u), x[q..]) == Feed(k, Feed(k, d, v), x[q..]) {
      FeedInjective(k, Feed(k, d, u), Feed(k, d, v), x[q..]);
    }
    FeedThree(k, c, x, p, q);
    FeedThree(k, c, y, p, q);
  }

  lemma FeedThree(k: Kind, c: bv32, x: seq<bool>, p: nat, q: nat)
    requires p <= q <= |x|
    ensures Feed(k, c, x) == Feed(k, Feed(k, Feed(k, c, x[..p]), x[p..q]), x[q..])
  {
    hide Feed;
    FeedConcat(k, c, x[..p], x[p..q]);
    FeedConcat(k, c, x[..p] + x[p..q], x[q..]);
    assert x == x[..p] + x[p..q] + x[q..];
  }

  lemma XorZero(c: bv32, d: bv32)
    ensures Xor(c, d) == 0 <==> c == d
  {
    XorTwice(c, d);
    if Xor(c, d) == 0 { XorFromZero(d); }
  }

  lemma XorFromZero(d: bv32)
    ensures Xor(0, d) == d
  {
  }
}
