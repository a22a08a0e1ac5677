/**
 The wire format in its own numbers: what the bytes of a number and of a field are, whoever writes them.
 */
module WireLayout {
  import opened Wire

  /** The number bytes stand for: seven bits each, lowest first. */
  function Value(b: seq<byte>): nat {
    if b == [] then 0
    else
      var first: int := b[0];
      first % 128 + 128 * Value(b[1..])
  }

  /** Every byte but the last has its top bit set, and the last one is not a needless zero. */
  predicate Shortest(b: seq<byte>) {
    b != [] && (forall i :: 0 <= i < |b| - 1 ==> b[i] >= 128) && b[|b| - 1] < 128 && (|b| > 1 ==> b[|b| - 1] > 0)
  }

  lemma {:induction false} ValuePositive(b: seq<byte>)
    requires Shortest(b) && |b| > 1
    ensures Value(b[1..]) > 0
    decreases |b|
  {
    var t := b[1..];
    if |t| > 1 {
      assert Shortest(t);
      ValuePositive(t);
    } else {
      assert t == [b[1]] && Value(t[1..]) == 0;
    }
  }

  lemma TopBits(first: byte)
    ensures first as int % 128 == if first < 128 then first as int else first as int - 128
  {
  }

  lemma ValueUnfolds(b: seq<byte>)
    ensures Value([]) == 0
    ensures b != [] ==> Value(b) == b[0] as int % 128 + 128 * Value(b[1..])
  {
  }

  lemma TailShortest(b: seq<byte>)
    requires Shortest(b)
    ensures if |b| == 1 then b[0] < 128 else Shortest(b[1..]) && b[0] >= 128
  {
  }

  lemma ShortestTail(b: seq<byte>)
    requires Shortest(b) && b != []
    ensures |b| == 1 ==> b == [b[0]] && Value(b) == b[0] as int && b[0] < 128
    ensures |b| > 1 ==>
              && Shortest(b[1..]) && b[0] >= 128 && Value(b) == b[0] as int - 128 + 128 * Value(b[1..])
              && b == [b[0]] + b[1..]
  {
    hide Value, Shortest;
    TailShortest(b);
    TopBits(b[0]);
    ValueUnfolds(b);
    if |b| == 1 { assert b[1..] == []; }
  }

  lemma VarintOf(low: nat, high: nat)
    requires low < 128 && high > 0
    ensures Varint(low + 128 * high) == [low + 128] + Varint(high)
  {
    hide Varint;
    var v := low + 128 * high;
    assert v / 128 == high && v % 128 == low;
    VarintUnfolds(v);
  }

  lemma VarintUnfolds(v: nat)
    ensures v >= 128 ==> Varint(v) == [v % 128 + 128] + Varint(v / 128)
    ensures v < 128 ==> Varint(v) == [v]
  {
  }

  lemma {:induction false} ShortestIsVarint(b: seq<byte>)
    requires Shortest(b)
    ensures b == Varint(Value(b))
    decreases |b|
  {
    hide Varint, Value, Shortest;
    NotEmpty(b);
    ShortestTail(b);
    if |b| > 1 {
      ValuePositive(b);
      ShortestIsVarint(b[1..]);
      VarintOf(b[0] as int - 128, Value(b[1..]));
    } else {
      VarintUnfolds(Value(b));
    }
  }

  lemma NotEmpty(b: seq<byte>)
    requires Shortest(b)
    ensures b != []
  {
  }

  /** A number is written as the one shortest string of bytes that stands for it. */
  lemma VarintMeans(v: nat, b: seq<byte>)
    ensures b == Varint(v) <==> Shortest(b) && Value(b) == v
  {
    VarintIsShortest(v);
    if Shortest(b) { ShortestIsVarint(b); }
  }

  lemma {:induction false} VarintIsShortest(v: nat)
    ensures Shortest(Varint(v)) && Value(Varint(v)) == v
    decreases v
  {
    if v >= 128 {
      VarintIsShortest(v / 128);
      var t := Varint(v / 128);
      assert Varint(v)[1..] == t;
      if |t| == 1 { assert t[1..] == []; }
    } else {
      assert Varint(v)[1..] == [];
    }
  }

  /** A field is eight times its number, plus 2 if it holds bytes; then its number, or its length and its bytes. */
  lemma FieldMeans(number: nat, n: nat, data: seq<byte>)
    ensures EncodeField(Num(number, n)) == Varint(8 * number) + Varint(n)
    ensures EncodeField(Blob(number, data)) == Varint(8 * number + 2) + Varint(|data|) + data
  {
    assert Varint(n) + [] == Varint(n);
  }

  /** Fields are written one after another. */
  lemma FieldsMean(f: Field, fs: seq<Field>)
    ensures Encode([]) == [] && Encode([f] + fs) == EncodeField(f) + Encode(fs)
  {
    assert ([f] + fs)[1..] == fs;
  }

  /** The firmware delivers fields numbered 1 to 255 with numbers below 2^64, and only if each was written shortest. */
  lemma StrictMeans(b: seq<byte>, fs: seq<Field>)
    ensures DecodeStrict(b) == Some(fs) <==>
      && b == Encode(fs)
      && forall f :: f in fs ==>
           1 <= f.number <= 255 && match f case Num(_, n) => n < 0x1_0000_0000_0000_0000
                                           case Blob(_, d) => |d| < 0x1_0000_0000_0000_0000
  {
    hide Encode, DecodeStrict;
    StrictExact(b, fs);
  }

  // ---- Reading bytes nobody vouches for ------------------------------------------------------

  /** The first byte without the top bit is the n-th. */
  predicate Ends(b: seq<byte>, n: nat) {
    0 < n <= |b| && b[n - 1] < 128 && forall i :: 0 <= i < n - 1 ==> b[i] >= 128
  }

  predicate NeverEnds(b: seq<byte>) { forall i :: 0 <= i < |b| ==> b[i] >= 128 }

  lemma EndsTail(b: seq<byte>, n: nat)
    ensures Ends(b, n) && n == 1 ==> b[..n] == [b[0]] && Value(b[..n]) == b[0] as int && b[0] < 128
    ensures Ends(b, n) && n > 1 ==>
              && Ends(b[1..], n - 1) && b[0] >= 128
              && Value(b[..n]) == b[0] as int - 128 + 128 * Value(b[1..][..n - 1])
    ensures NeverEnds(b) && b != [] ==>
              NeverEnds(b[1..]) && b[0] >= 128 && Value(b) == b[0] as int - 128 + 128 * Value(b[1..])
  {
    hide Value;
    if Ends(b, n) {
      TopBits(b[0]);
      ValueUnfolds(b[..n]);
      assert b[..n][1..] == b[1..n];
      if n == 1 { assert b[..n][1..] == []; } else { assert b[1..][..n - 1] == b[1..n]; }
    }
    if b != [] {
      TopBits(b[0]);
      ValueUnfolds(b);
    }
  }

  /** The manifest tool reads a number up to the first byte without the top bit; with no such byte it raises. */
  lemma {:induction false} ReadVarintMeans(b: seq<byte>, n: nat)
    ensures Ends(b, n) ==> ReadVarint(b) == Some((Value(b[..n]), n))
    ensures NeverEnds(b) ==> ReadVarint(b) == None
    decreases |b|
  {
    hide Value, Ends, NeverEnds;
    EndsTail(b, n);
    EndsNot(b, n);
    if b != [] && n > 0 { ReadVarintMeans(b[1..], n - 1); } else if b != [] { ReadVarintMeans(b[1..], 0); }
  }

  lemma EndsNot(b: seq<byte>, n: nat)
    ensures b == [] || n == 0 ==> !Ends(b, n)
    ensures Ends(b, n) ==> n <= |b|
  {
  }

  /** The validation script gives up when ten bytes have not ended a number, and takes what there is when the input
      ends first. */
  lemma {:induction false} ReadGuardedMeans(b: seq<byte>, left: nat, n: nat)
    requires 0 < left
    ensures Ends(b, n) ==> ReadGuarded(b, left) == if n <= left then Some((Value(b[..n]), n)) else None
    ensures NeverEnds(b) ==> ReadGuarded(b, left) == if |b| < left then Some((Value(b), |b|)) else None
    decreases |b|
  {
    hide Value, Ends, NeverEnds;
    EndsTail(b, n);
    EndsNot(b, n);
    ValueUnfolds(b);
    if b != [] && left > 1 { ReadGuardedMeans(b[1..], left - 1, if n > 0 then n - 1 else 0); }
    if left == 1 { EndsFirst(b, n); }
  }

  lemma EndsFirst(b: seq<byte>, n: nat)
    ensures Ends(b, n) && n > 1 ==> b[0] >= 128
    ensures NeverEnds(b) && b != [] ==> b[0] >= 128
  {
  }

  /** The tolerant parser reads its numbers with the guard at ten bytes. */
  lemma TenBytes(b: seq<byte>)
    ensures NextGuarded(b).Got? ==> ReadGuarded(b, 10).Some?
    ensures ReadGuarded(b, 10).None? ==> ParseFields(b) == [] || b == []
  {
  }

  /** Any other wire type than 0 and 2 ends the list for the manifest tool and is an error for the simulator. */
  lemma UnknownTypes(b: seq<byte>, tag: nat, k: nat)
    requires ReadVarint(b) == Some((tag, k)) && tag % 8 != 0 && tag % 8 != 2
    ensures DecodeFields(b, StopQuietly) == Some([]) && DecodeFields(b, Raise) == None
  {
    hide ReadVarint;
    assert b != [];
  }

  /** Wire type 0 is a number, wire type 2 as many bytes as announced, or as there are. */
  lemma NextFieldMeans(b: seq<byte>, u: Unknown, tag: nat, k: nat, v: nat, m: nat)
    requires ReadVarint(b) == Some((tag, k)) && k <= |b| && ReadVarint(b[k..]) == Some((v, m)) && k + m <= |b|
    ensures tag % 8 == 0 ==> NextField(b, u) == Got(Num(tag / 8, v), k + m)
    ensures tag % 8 == 2 ==>
              NextField(b, u) ==
                if k + m + v <= |b| then Got(Blob(tag / 8, b[k + m..k + m + v]), k + m + v)
                else Got(Blob(tag / 8, b[k + m..]), |b|)
  {
    hide ReadVarint;
    assert b[k + m..|b|] == b[k + m..];
  }
}
