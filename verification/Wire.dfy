/**
 The tag-length-value wire format shared by the scripts and the firmware: base-128 varints
 (Protocol Buffers Encoding guide, section "Base 128 Varints") and lists of numbered fields.

 Bytes are integers below 256.  The scripts combine seven-bit groups with a bitwise "or" into a
 value whose low bits are still zero there; that is the addition used below.
 */
module Wire {

  type byte = x: int | 0 <= x < 256

  /** None also stands for a raised exception or an error code where the reason is not kept. */
  datatype Option<+T> = None | Some(value: T) {
    predicate IsFailure() { None? }

    function PropagateFailure<U>(): Option<U>
      requires None?
    {
      None
    }

    function Extract(): T
      requires Some?
    {
      value
    }
  }

  /** A field of wire type 0 (a number) or 2 (a byte string). */
  datatype Field =
    | Num(number: nat, n: nat)
    | Blob(number: nat, data: seq<byte>)

  // ---- Encoding --------------------------------------------------------------------------

  /** Seven bits a byte, least significant group first, top bit set on all but the last. */
  function Varint(v: nat): seq<byte> {
    if v < 128 then [v] else [v % 128 + 128] + Varint(v / 128)
  }

  /** A field is its tag, then its number or its length, then its bytes if it has any. */
  function Tag(f: Field): nat { 8 * f.number + if f.Num? then 0 else 2 }

  function Head(f: Field): nat { if f.Num? then f.n else |f.data| }

  function Body(f: Field): seq<byte> { if f.Num? then [] else f.data }

  function EncodeField(f: Field): seq<byte> { Varint(Tag(f)) + (Varint(Head(f)) + Body(f)) }

  /** Where the three parts of an encoded field sit in front of `rest`. */
  lemma FieldLayout(f: Field, rest: seq<byte>)
    ensures var b, k, m := EncodeField(f) + rest, |Varint(Tag(f))|, |Varint(Head(f))|;
            && b == Varint(Tag(f)) + (Varint(Head(f)) + (Body(f) + rest))
            && b[k..] == Varint(Head(f)) + (Body(f) + rest)
            && b[k + m..] == Body(f) + rest
            && b[k + m..k + m + |Body(f)|] == Body(f)
            && b[k + m + |Body(f)|..] == rest
            && |EncodeField(f)| == k + m + |Body(f)|
            && 1 <= k && 1 <= m
  {
  }

  function Encode(fs: seq<Field>): seq<byte> {
    if fs == [] then [] else EncodeField(fs[0]) + Encode(fs[1..])
  }

  lemma Associate<T>(a: seq<T>, b: seq<T>, c: seq<T>)
    ensures a + (b + c) == a + b + c
  {
  }

  lemma {:induction false} EncodeConcat(fs: seq<Field>, gs: seq<Field>)
    ensures Encode(fs + gs) == Encode(fs) + Encode(gs)
  {
    if fs == [] {
      assert fs + gs == gs;
    } else {
      EncodeConcat(fs[1..], gs);
      assert (fs + gs)[1..] == fs[1..] + gs;
      Associate(EncodeField(fs[0]), Encode(fs[1..]), Encode(gs));
    }
  }

  /** The test-bench encoder: emit groups while more than seven bits remain. */
  method EncVarint(v: nat) returns (out: seq<byte>)
    ensures out == Varint(v)
  {
    var rest := v;
    out := [];
    while rest > 0x7F
      invariant out + Varint(rest) == Varint(v)
    {
      Associate(out, [rest % 128 + 128], Varint(rest / 128));
      out := out + [rest % 128 + 128];
      rest := rest / 128;
    }
    out := out + [rest % 128];
  }

  /** The device simulator's encoder: shift first, then decide on the continuation bit. */
  method SimVarint(v: nat) returns (out: seq<byte>)
    ensures out == Varint(v)
  {
    var rest := v;
    out := [];
    while true
      invariant out + Varint(rest) == Varint(v)
      decreases rest
    {
      var b := rest % 128;
      Associate(out, [b + 128], Varint(rest / 128));
      rest := rest / 128;
      if rest != 0 {
        out := out + [b + 128];
      } else {
        out := out + [b];
        return;
      }
    }
  }

  /** The validation script's encoder: the last group is appended unmasked. */
  method C6Varint(v: nat) returns (out: seq<byte>)
    ensures out == Varint(v)
  {
    out := [];
    var value := v;
    while value > 0x7F
      invariant out + Varint(value) == Varint(v)
    {
      Associate(out, [value % 128 + 128], Varint(value / 128));
      out, value := out + [value % 128 + 128], value / 128;
    }
    out := out + [value];
  }

  // ---- Decoding as the scripts do it -----------------------------------------------------

  /** The number a byte string starts with and the bytes it took; None when it runs out. */
  function ReadVarint(b: seq<byte>): (r: Option<(nat, nat)>)
    ensures r.Some? ==> 1 <= r.value.1 <= |b|
  {
    if b == [] then None
    else if b[0] < 128 then Some((b[0], 1))
    else match ReadVarint(b[1..])
      case None => None
      case Some((v, k)) => Some((b[0] - 128 + 128 * v, k + 1))
  }

  lemma {:induction false} ReadVarintInverts(v: nat, rest: seq<byte>)
    ensures ReadVarint(Varint(v) + rest) == Some((v, |Varint(v)|))
  {
    if v >= 128 {
      ReadVarintInverts(v / 128, rest);
      assert (Varint(v) + rest)[1..] == Varint(v / 128) + rest;
    }
  }

  /** One more group: what is still to come keeps its place value. */
  lemma Regroup(v: int, scale: int, x: int, w: int)
    ensures v + scale * (x + 128 * w) == v + scale * x + scale * 128 * w
  {
  }

  /** The reader's result when `v` has been collected below place value `scale`. */
  function VarintFrom(v: nat, scale: nat, used: nat, b: seq<byte>): Option<(nat, nat)> {
    match ReadVarint(b)
    case None => None
    case Some((w, n)) => Some((v + scale * w, used + n))
  }

  lemma VarintTurn(v: nat, scale: nat, used: nat, b: seq<byte>)
    ensures var r := VarintFrom(v, scale, used, b);
            if b == [] then r == None
            else if b[0] < 128 then r == Some((v + scale * b[0], used + 1))
            else r == VarintFrom(v + scale * (b[0] - 128), scale * 128, used + 1, b[1..])
  {
    if b != [] && b[0] >= 128 && ReadVarint(b[1..]).Some? {
      Regroup(v, scale, b[0] - 128, ReadVarint(b[1..]).value.0);
    }
  }

  /** `dec_varint`: None stands for the IndexError of a truncated number. */
  method DecVarint(b: seq<byte>, start: nat) returns (r: Option<(nat, nat)>)
    requires start <= |b|
    ensures r == VarintFrom(0, 1, start, b[start..])
  {
    hide ReadVarint;
    var v: nat, scale: nat, p := 0, 1, start;
    while p < |b|
      invariant start <= p <= |b|
      invariant VarintFrom(0, 1, start, b[start..]) == VarintFrom(v, scale, p, b[p..])
    {
      VarintTurn(v, scale, p, b[p..]);
      var x := b[p];
      p := p + 1;
      if x < 128 {
        return Some((v + scale * x, p));
      }
      assert b[p - 1..][1..] == b[p..];
      v, scale := v + scale * (x - 128), scale * 128;
    }
    VarintTurn(v, scale, p, b[p..]);
    return None;
  }

  /** What to do when a tag carries a wire type other than 0 and 2. */
  datatype Unknown = StopQuietly | Raise

  /** One step of a decoder: a field and the bytes it took, a silent end, or an exception. */
  datatype Next = Got(field: Field, used: nat) | Halt | Fail

  /** One turn of the loop of `decode_fields` (StopQuietly) and of the simulator's `decode`
      (Raise).  A byte string shorter than announced is cut short, as slicing does. */
  function NextField(b: seq<byte>, u: Unknown): (r: Next)
    ensures r.Got? ==> 1 <= r.used <= |b|
  {
    match ReadVarint(b)
    case None => Fail
    case Some((tag, k)) =>
      if tag % 8 != 0 && tag % 8 != 2 then
        if u == StopQuietly then Halt else Fail
      else match ReadVarint(b[k..])
        case None => Fail
        case Some((v, m)) =>
          if tag % 8 == 0 then Got(Num(tag / 8, v), k + m)
          else
            var end := if k + m + v <= |b| then k + m + v else |b|;
            Got(Blob(tag / 8, b[k + m..end]), end)
  }

  function DecodeFields(b: seq<byte>, u: Unknown): Option<seq<Field>> {
    if b == [] then Some([])
    else match NextField(b, u)
      case Halt => Some([])
      case Fail => None
      case Got(f, n) => Append([f], DecodeFields(b[n..], u))
  }

  function Append<T>(fs: seq<T>, rest: Option<seq<T>>): Option<seq<T>> {
    if rest.None? then None else Some(fs + rest.value)
  }

  lemma AppendNothing<T>(rest: Option<seq<T>>)
    ensures Append([], rest) == rest
  {
    if rest.Some? {
      assert [] + rest.value == rest.value;
    }
  }

  lemma AppendTwice<T>(fs: seq<T>, gs: seq<T>, rest: Option<seq<T>>)
    ensures Append(fs, Append(gs, rest)) == Append(fs + gs, rest)
  {
    if rest.Some? {
      assert fs + (gs + rest.value) == fs + gs + rest.value;
    }
  }

  /** One field in front of any bytes is read back exactly, whatever follows it. */
  lemma NextFieldInverts(f: Field, rest: seq<byte>, u: Unknown)
    ensures NextField(EncodeField(f) + rest, u) == Got(f, |EncodeField(f)|)
  {
    FieldLayout(f, rest);
    ReadVarintInverts(Tag(f), Varint(Head(f)) + (Body(f) + rest));
    ReadVarintInverts(Head(f), Body(f) + rest);
  }

  /** Round trip for every list of fields, every natural number in it and any trailing bytes. */
  lemma {:induction false} DecodeFieldsInverts(fs: seq<Field>, rest: seq<byte>, u: Unknown)
    ensures DecodeFields(Encode(fs) + rest, u) == Append(fs, DecodeFields(rest, u))
  {
    if fs == [] {
      assert Encode(fs) + rest == rest;
      AppendNothing(DecodeFields(rest, u));
    } else {
      DecodeFieldsInverts(fs[1..], rest, u);
      NextFieldInverts(fs[0], Encode(fs[1..]) + rest, u);
      assert Encode(fs) + rest == EncodeField(fs[0]) + (Encode(fs[1..]) + rest);
      assert (Encode(fs) + rest)[|EncodeField(fs[0])|..] == Encode(fs[1..]) + rest;
      assert Encode(fs) + rest != [] by { FieldLayout(fs[0], []); }
      AppendTwice([fs[0]], fs[1..], DecodeFields(rest, u));
      assert [fs[0]] + fs[1..] == fs;
    }
  }

  lemma DecodeEncode(fs: seq<Field>, u: Unknown)
    ensures DecodeFields(Encode(fs), u) == Some(fs)
  {
    DecodeFieldsInverts(fs, [], u);
    assert Encode(fs) + [] == Encode(fs);
    assert fs + [] == fs;
  }

  lemma SliceOfSlice(b: seq<byte>, i: nat, j: nat, k: nat)
    requires i <= j <= k <= |b|
    ensures b[i..][j - i..] == b[j..] && b[i..][j - i..k - i] == b[j..k]
  {
  }

  /** One turn of the loop at a cursor. */
  method NextFieldAt(b: seq<byte>, start: nat, u: Unknown) returns (r: Next)
    requires start <= |b|
    ensures r == NextField(b[start..], u)
  {
    var tag := DecVarint(b, start);
    if tag.None? { return Fail; }
    var (t, p) := tag.value;
    SliceOfSlice(b, start, p, p);
    var w := t % 8;
    if w != 0 && w != 2 {
      return if u == StopQuietly then Halt else Fail;
    }
    var val := DecVarint(b, p);
    if val.None? { return Fail; }
    var (v, at) := val.value;
    if w == 0 { return Got(Num(t / 8, v), at - start); }
    var end := if at + v <= |b| then at + v else |b|;
    SliceOfSlice(b, start, at, end);
    return Got(Blob(t / 8, b[at..end]), end - start);
  }

  /** The decoder's result when `out` has been read and the bytes `b` are still to come. */
  function Resume(out: seq<Field>, b: seq<byte>, u: Unknown): Option<seq<Field>> {
    Append(out, DecodeFields(b, u))
  }

  /** What one turn of the decoding loop does to the result still to be produced. */
  lemma DecodeTurn(out: seq<Field>, b: seq<byte>, u: Unknown)
    ensures b == [] ==> Resume(out, b, u) == Some(out)
    ensures b != [] ==> match NextField(b, u)
                        case Fail => Resume(out, b, u) == None
                        case Halt => Resume(out, b, u) == Some(out)
                        case Got(f, n) => Resume(out, b, u) == Resume(out + [f], b[n..], u)
  {
    assert out + [] == out;
    if b != [] && NextField(b, u).Got? {
      AppendTwice(out, [NextField(b, u).field], DecodeFields(b[NextField(b, u).used..], u));
    }
  }

  /** The decoding loop of both scripts over one cursor. */
  method DecodeFieldsLoop(b: seq<byte>, u: Unknown) returns (r: Option<seq<Field>>)
    ensures r == DecodeFields(b, u)
  {
    hide DecodeFields, NextField;
    var p, out: seq<Field> := 0, [];
    assert b[0..] == b;
    assert Resume([], b, u) == DecodeFields(b, u) by { AppendNothing(DecodeFields(b, u)); }
    while p < |b|
      invariant p <= |b|
      invariant Resume([], b, u) == Resume(out, b[p..], u)
    {
      DecodeTurn(out, b[p..], u);
      var next := NextFieldAt(b, p, u);
      if next.Fail? { return None; }
      if next.Halt? { return Some(out); }
      assert b[p..][next.used..] == b[p + next.used..];
      out, p := out + [next.field], p + next.used;
    }
    DecodeTurn(out, b[p..], u);
    return Some(out);
  }

  // ---- Decoding as the validation script does it -----------------------------------------

  /** At most ten bytes; running out of input keeps the partial number.  None is the early
      return taken when the tenth byte still asks for more. */
  function ReadGuarded(b: seq<byte>, left: nat): (r: Option<(nat, nat)>)
    ensures r.Some? ==> r.value.1 <= |b| && (b != [] ==> r.value.1 >= 1)
  {
    if b == [] then Some((0, 0))
    else if b[0] < 128 then Some((b[0], 1))
    else if left <= 1 then None
    else match ReadGuarded(b[1..], left - 1)
      case None => None
      case Some((v, k)) => Some((b[0] - 128 + 128 * v, k + 1))
  }

  const MAX_VARINT_BYTES := 10

  /** One turn of `parse_fields`; a byte string shorter than announced ends it. */
  function NextGuarded(b: seq<byte>): (r: Next)
    ensures r.Got? && b != [] ==> 1 <= r.used <= |b|
  {
    match ReadGuarded(b, MAX_VARINT_BYTES)
    case None => Halt
    case Some((tag, k)) =>
      if tag % 8 != 0 && tag % 8 != 2 then Halt
      else match ReadGuarded(b[k..], MAX_VARINT_BYTES)
        case None => Halt
        case Some((v, m)) =>
          if tag % 8 == 0 then Got(Num(tag / 8, v), k + m)
          else if k + m + v > |b| then Halt
          else Got(Blob(tag / 8, b[k + m..k + m + v]), k + m + v)
  }

  /** `parse_fields` after the type byte: it always returns what it has so far. */
  function ParseFields(b: seq<byte>): seq<Field> {
    if b == [] then []
    else match NextGuarded(b)
      case Got(f, n) => [f] + ParseFields(b[n..])
      case _ => []
  }

  /** The reader's result when `v` has been collected below place value `scale`. */
  function GuardedFrom(v: nat, scale: nat, used: nat, b: seq<byte>, left: nat): Option<(nat, nat)> {
    match ReadGuarded(b, left)
    case None => None
    case Some((w, n)) => Some((v + scale * w, used + n))
  }

  lemma GuardedTurn(v: nat, scale: nat, used: nat, b: seq<byte>, left: nat)
    ensures var r := GuardedFrom(v, scale, used, b, left);
            if b == [] then r == Some((v, used))
            else if b[0] < 128 then r == Some((v + scale * b[0], used + 1))
            else if left <= 1 then r == None
            else r == GuardedFrom(v + scale * (b[0] - 128), scale * 128, used + 1, b[1..], left - 1)
  {
    if b != [] && b[0] >= 128 && left > 1 && ReadGuarded(b[1..], left - 1).Some? {
      Regroup(v, scale, b[0] - 128, ReadGuarded(b[1..], left - 1).value.0);
    }
  }

  /** The inner loops of `parse_fields`: stop after ten bytes, keep what there is when the input ends. */
  method ReadGuardedLoop(b: seq<byte>, start: nat) returns (r: Option<(nat, nat)>)
    requires start <= |b|
    ensures r == GuardedFrom(0, 1, start, b[start..], MAX_VARINT_BYTES)
  {
    hide ReadGuarded;
    var v: nat, scale: nat, shift, pos := 0, 1, 0, start;
    while pos < |b|
      invariant start <= pos <= |b| && shift == 7 * (pos - start) <= 63
      invariant GuardedFrom(0, 1, start, b[start..], MAX_VARINT_BYTES)
             == GuardedFrom(v, scale, pos, b[pos..], MAX_VARINT_BYTES - (pos - start))
    {
      GuardedTurn(v, scale, pos, b[pos..], MAX_VARINT_BYTES - (pos - start));
      var x := b[pos];
      pos := pos + 1;
      if x < 128 { return Some((v + scale * x, pos)); }
      assert b[pos - 1..][1..] == b[pos..];
      v, scale, shift := v + scale * (x - 128), scale * 128, shift + 7;
      if shift > 63 { return None; }
    }
    GuardedTurn(v, scale, pos, b[pos..], MAX_VARINT_BYTES - (pos - start));
    return Some((v, pos));
  }

  lemma GuardedShift(b: seq<byte>, start: nat, left: nat)
    requires start <= |b|
    ensures GuardedFrom(0, 1, start, b[start..], left) ==
      match ReadGuarded(b[start..], left) case None => None case Some((v, n)) => Some((v, start + n))
  {
  }

  /** One turn of the outer loop at a cursor. */
  method NextGuardedAt(b: seq<byte>, start: nat) returns (r: Next)
    requires start <= |b|
    ensures r == NextGuarded(b[start..])
  {
    hide ReadGuarded;
    GuardedShift(b, start, MAX_VARINT_BYTES);
    var tag := ReadGuardedLoop(b, start);
    if tag.None? { return Halt; }
    var (t, p) := tag.value;
    SliceOfSlice(b, start, p, p);
    if t % 8 != 0 && t % 8 != 2 { return Halt; }
    GuardedShift(b, p, MAX_VARINT_BYTES);
    var val := ReadGuardedLoop(b, p);
    if val.None? { return Halt; }
    var (v, at) := val.value;
    if t % 8 == 0 { return Got(Num(t / 8, v), at - start); }
    if at + v > |b| { return Halt; }
    SliceOfSlice(b, start, at, at + v);
    return Got(Blob(t / 8, b[at..at + v]), at + v - start);
  }

  lemma ParseTurn(out: seq<Field>, b: seq<byte>)
    ensures b == [] ==> out + ParseFields(b) == out
    ensures b != [] && NextGuarded(b).Got? ==>
      out + ParseFields(b) == out + [NextGuarded(b).field] + ParseFields(b[NextGuarded(b).used..])
    ensures b != [] && !NextGuarded(b).Got? ==> out + ParseFields(b) == out
  {
  }

  /** The outer loop of `parse_fields`. */
  method ParseFieldsLoop(b: seq<byte>) returns (out: seq<Field>)
    ensures out == ParseFields(b)
  {
    hide ParseFields, NextGuarded;
    var p: nat := 0;
    out := [];
    assert b[0..] == b && [] + ParseFields(b) == ParseFields(b);
    while p < |b|
      invariant p <= |b|
      invariant ParseFields(b) == out + ParseFields(b[p..])
    {
      ParseTurn(out, b[p..]);
      var next := NextGuardedAt(b, p);
      if !next.Got? { return; }
      assert b[p..][next.used..] == b[p + next.used..];
      out, p := out + [next.field], p + next.used;
    }
    ParseTurn(out, b[p..]);
  }

  lemma {:induction false} ReadGuardedInverts(v: nat, rest: seq<byte>, left: nat)
    requires |Varint(v)| <= left
    ensures ReadGuarded(Varint(v) + rest, left) == Some((v, |Varint(v)|))
  {
    if v >= 128 {
      assert |Varint(v / 128)| >= 1;
      ReadGuardedInverts(v / 128, rest, left - 1);
      assert (Varint(v) + rest)[1..] == Varint(v / 128) + rest;
    }
  }

  /** Every number of the field fits the ten-byte guard. */
  predicate Guarded(f: Field) {
    |Varint(Tag(f))| <= MAX_VARINT_BYTES && |Varint(Head(f))| <= MAX_VARINT_BYTES
  }

  lemma NextGuardedInverts(f: Field, rest: seq<byte>)
    requires Guarded(f)
    ensures NextGuarded(EncodeField(f) + rest) == Got(f, |EncodeField(f)|)
  {
    hide ReadGuarded, Varint;
    FieldLayout(f, rest);
    ReadGuardedInverts(Tag(f), Varint(Head(f)) + (Body(f) + rest), MAX_VARINT_BYTES);
    ReadGuardedInverts(Head(f), Body(f) + rest, MAX_VARINT_BYTES);
  }

  lemma {:induction false} ParseFieldsInverts(fs: seq<Field>)
    requires forall f | f in fs :: Guarded(f)
    ensures ParseFields(Encode(fs)) == fs
  {
    if fs != [] {
      NextGuardedInverts(fs[0], Encode(fs[1..]));
      FieldLayout(fs[0], Encode(fs[1..]));
      ParseFieldsInverts(fs[1..]);
    }
  }

  /** The three script decoders read every guarded field list back, hence agree on it. */
  lemma ScriptDecodersAgree(fs: seq<Field>)
    requires forall f | f in fs :: Guarded(f)
    ensures DecodeFields(Encode(fs), StopQuietly) == Some(fs)
    ensures DecodeFields(Encode(fs), Raise) == Some(fs)
    ensures ParseFields(Encode(fs)) == fs
  {
    DecodeEncode(fs, StopQuietly);
    DecodeEncode(fs, Raise);
    ParseFieldsInverts(fs);
  }

  // ---- The firmware's strict decoder -----------------------------------------------------

  /** `decoder_read_varint`, at the k-th byte: no tenth byte above 1, no redundant zero group. */
  function ReadStrict(b: seq<byte>, k: nat): (r: Option<(nat, nat)>)
    requires k <= 9
    ensures r.Some? ==> 1 <= r.value.1 <= |b|
  {
    if b == [] || (k == 9 && b[0] > 1) then None
    else if b[0] < 128 then
      if k > 0 && b[0] == 0 then None else Some((b[0], 1))
    else match ReadStrict(b[1..], k + 1)
      case None => None
      case Some((v, n)) => Some((b[0] - 128 + 128 * v, n + 1))
  }

  /** What the bytes from the k-th on can still add up to: 2^(64 - 7k). */
  function Room(k: nat): (r: nat)
    requires k <= 9
    ensures r >= 2
    decreases 9 - k
  {
    if k == 9 then 2 else 128 * Room(k + 1)
  }

  const TWO_64 := 0x1_0000_0000_0000_0000

  lemma RoomIs64Bits()
    ensures Room(0) == TWO_64
  {
    assert Room(8) == 256 && Room(7) == 32768 && Room(6) == 4194304 && Room(5) == 536870912;
    assert Room(4) == 0x10_0000_0000 && Room(3) == 0x800_0000_0000 && Room(2) == 0x4_0000_0000_0000;
    assert Room(1) == 0x200_0000_0000_0000;
  }

  lemma {:induction false} ReadStrictSound(b: seq<byte>, k: nat)
    requires k <= 9 && ReadStrict(b, k).Some?
    ensures var (v, n) := ReadStrict(b, k).value;
            v < Room(k) && (k > 0 ==> v > 0) && b[..n] == Varint(v)
    decreases 9 - k
  {
    var (v, n) := ReadStrict(b, k).value;
    if b[0] < 128 {
      assert b[..1] == [b[0]];
    } else {
      ReadStrictSound(b[1..], k + 1);
      assert b[..n] == [b[0]] + b[1..][..n - 1];
    }
  }

  lemma {:induction false} ReadStrictComplete(v: nat, rest: seq<byte>, k: nat)
    requires k <= 9 && v < Room(k) && (k > 0 ==> v > 0)
    ensures ReadStrict(Varint(v) + rest, k) == Some((v, |Varint(v)|))
    decreases 9 - k
  {
    if v >= 128 {
      ReadStrictComplete(v / 128, rest, k + 1);
      assert (Varint(v) + rest)[1..] == Varint(v / 128) + rest;
    }
  }

  /** The strict reader accepts exactly the shortest encodings of 64-bit numbers. */
  lemma StrictVarintExact(b: seq<byte>, v: nat, n: nat)
    ensures ReadStrict(b, 0) == Some((v, n)) <==> v < TWO_64 && n == |Varint(v)| && Varint(v) <= b
  {
    RoomIs64Bits();
    if ReadStrict(b, 0) == Some((v, n)) {
      ReadStrictSound(b, 0);
    }
    if v < TWO_64 && Varint(v) <= b {
      ReadStrictComplete(v, b[|Varint(v)|..], 0);
      assert b == Varint(v) + b[|Varint(v)|..];
    }
  }

  /** The reader's result when `v` has been collected below place value `scale`. */
  function StrictFrom(v: nat, scale: nat, used: nat, b: seq<byte>, k: nat): Option<(nat, nat)>
    requires k <= 9
  {
    match ReadStrict(b, k)
    case None => None
    case Some((w, n)) => Some((v + scale * w, used + n))
  }

  lemma StrictTurn(v: nat, scale: nat, used: nat, b: seq<byte>, k: nat)
    requires k <= 9
    ensures var r := StrictFrom(v, scale, used, b, k);
            if b == [] || (k == 9 && b[0] > 1) || (b[0] == 0 && k > 0) then r == None
            else if b[0] < 128 then r == Some((v + scale * b[0], used + 1))
            else r == StrictFrom(v + scale * (b[0] - 128), scale * 128, used + 1, b[1..], k + 1)
  {
    if b != [] && k < 9 && b[0] >= 128 && ReadStrict(b[1..], k + 1).Some? {
      Regroup(v, scale, b[0] - 128, ReadStrict(b[1..], k + 1).value.0);
    }
  }

  /** `decoder_read_varint` as the loop it is: shift by shift, None for every error code. */
  method ReadStrictLoop(b: seq<byte>, start: nat) returns (r: Option<(nat, nat)>)
    requires start <= |b|
    ensures r == StrictFrom(0, 1, start, b[start..], 0)
  {
    hide ReadStrict, StrictFrom;
    var result: nat, scale: nat, shift, pos := 0, 1, 0, start;
    while true
      invariant start <= pos <= |b| && shift == 7 * (pos - start) && pos - start <= 9
      invariant StrictFrom(0, 1, start, b[start..], 0)
             == StrictFrom(result, scale, pos, b[pos..], pos - start)
      decreases |b| - pos
    {
      StrictTurn(result, scale, pos, b[pos..], pos - start);
      if pos + 1 > |b| { return None; }
      var x := b[pos];
      pos := pos + 1;
      if shift == 63 && x > 1 { return None; }
      if x < 128 {
        if pos - start > 1 && x == 0 { return None; }
        return Some((result + scale * x, pos));
      }
      assert b[pos - 1..][1..] == b[pos..];
      result, scale, shift := result + scale * (x - 128), scale * 128, shift + 7;
    }
  }

  /** A field the firmware decoder can deliver. */
  predicate StrictField(f: Field) {
    1 <= f.number <= 255 && match f case Num(_, n) => n < TWO_64 case Blob(_, d) => |d| < TWO_64
  }

  /** `frame_decoder_next`: one field and the bytes it took. */
  function NextStrict(b: seq<byte>): (r: Option<(Field, nat)>)
    ensures r.Some? ==> 1 <= r.value.1 <= |b|
  {
    match ReadStrict(b, 0)
    case None => None
    case Some((tag, k)) =>
      if !(1 <= tag / 8 <= 255) || (tag % 8 != 0 && tag % 8 != 2) then None
      else match ReadStrict(b[k..], 0)
        case None => None
        case Some((v, m)) =>
          if tag % 8 == 0 then Some((Num(tag / 8, v), k + m))
          else if k + m + v > |b| then None
          else Some((Blob(tag / 8, b[k + m..k + m + v]), k + m + v))
  }

  /** `frame_decoder_next` at a cursor. */
  method NextStrictAt(b: seq<byte>, start: nat) returns (r: Option<(Field, nat)>)
    requires start <= |b|
    ensures r == NextStrict(b[start..])
  {
    hide ReadStrict;
    var tag := ReadStrictLoop(b, start);
    if tag.None? { return None; }
    var (t, p) := tag.value;
    SliceOfSlice(b, start, p, p);
    var number, w := t / 8, t % 8;
    if number == 0 || number > 255 { return None; }
    if w != 0 && w != 2 { return None; }
    var val := ReadStrictLoop(b, p);
    if val.None? { return None; }
    var (v, at) := val.value;
    if w == 0 { return Some((Num(number, v), at - start)); }
    if at + v > |b| { return None; }
    SliceOfSlice(b, start, at, at + v);
    return Some((Blob(number, b[at..at + v]), at + v - start));
  }

  /** Decoding to the end of the buffer (FRAME_DONE); None when any field is refused. */
  function DecodeStrict(b: seq<byte>): Option<seq<Field>> {
    if b == [] then Some([])
    else match NextStrict(b)
      case None => None
      case Some((f, n)) => Append([f], DecodeStrict(b[n..]))
  }

  lemma FieldFromParts(f: Field, b: seq<byte>, k: nat, m: nat, n: nat)
    requires k <= k + m <= n <= |b|
    requires b[..k] == Varint(Tag(f)) && b[k..][..m] == Varint(Head(f)) && b[k + m..n] == Body(f)
    ensures b[..n] == EncodeField(f)
  {
    hide Varint, Body, Tag, Head;
    assert b[k..][..m] == b[k..k + m];
    assert b[..n] == b[..k] + (b[k..k + m] + b[k + m..n]);
  }

  lemma TagAndHead(f: Field, tag: nat, v: nat)
    requires f.number == tag / 8
             && (if tag % 8 == 0 then f.Num? && f.n == v else tag % 8 == 2 && f.Blob? && |f.data| == v)
    ensures Tag(f) == tag && Head(f) == v
  {
  }

  lemma NextStrictSound(b: seq<byte>)
    requires NextStrict(b).Some?
    ensures var (f, n) := NextStrict(b).value; StrictField(f) && b[..n] == EncodeField(f)
  {
    var (tag, k) := ReadStrict(b, 0).value;
    StrictVarintExact(b, tag, k);
    var (v, m) := ReadStrict(b[k..], 0).value;
    StrictVarintExact(b[k..], v, m);
    var (f, n) := NextStrict(b).value;
    TagAndHead(f, tag, v);
    FieldFromParts(f, b, k, m, n);
  }

  lemma NextStrictComplete(f: Field, rest: seq<byte>)
    requires StrictField(f)
    ensures NextStrict(EncodeField(f) + rest) == Some((f, |EncodeField(f)|))
  {
    FieldLayout(f, rest);
    var b, k := EncodeField(f) + rest, |Varint(Tag(f))|;
    StrictVarintExact(b, Tag(f), k);
    StrictVarintExact(b[k..], Head(f), |Varint(Head(f))|);
  }

  /** A byte string is decoded field by field, from the front. */
  lemma StrictTail(done: seq<Field>, b: seq<byte>)
    ensures b == [] ==> Append(done, DecodeStrict(b)) == Some(done)
    ensures b != [] && NextStrict(b).None? ==> Append(done, DecodeStrict(b)) == None
    ensures b != [] && NextStrict(b).Some? ==>
              var next := NextStrict(b).value;
              Append(done, DecodeStrict(b)) == Append(done + [next.0], DecodeStrict(b[next.1..]))
  {
    assert done + [] == done;
    if b != [] && NextStrict(b).Some? {
      var next := NextStrict(b).value;
      AppendTwice(done, [next.0], DecodeStrict(b[next.1..]));
    }
  }

  lemma {:induction false} StrictSound(b: seq<byte>)
    requires DecodeStrict(b).Some?
    ensures var fs := DecodeStrict(b).value; b == Encode(fs) && forall f | f in fs :: StrictField(f)
    decreases |b|
  {
    if b != [] {
      NextStrictSound(b);
      var (f, n) := NextStrict(b).value;
      StrictSound(b[n..]);
      var gs := DecodeStrict(b[n..]).value;
      assert ([f] + gs)[1..] == gs;
      assert b == b[..n] + b[n..];
    }
  }

  lemma {:induction false} StrictComplete(fs: seq<Field>)
    requires forall f | f in fs :: StrictField(f)
    ensures DecodeStrict(Encode(fs)) == Some(fs)
  {
    if fs != [] {
      var rest := Encode(fs[1..]);
      NextStrictComplete(fs[0], rest);
      FieldLayout(fs[0], rest);
      assert Encode(fs)[|EncodeField(fs[0])|..] == rest;
      StrictComplete(fs[1..]);
      assert [fs[0]] + fs[1..] == fs;
    }
  }

  /** The strict decoder is the exact inverse of the encoder: it accepts a byte string if and
      only if that string is the encoding of deliverable fields, and then returns those. */
  lemma StrictExact(b: seq<byte>, fs: seq<Field>)
    ensures DecodeStrict(b) == Some(fs) <==> b == Encode(fs) && forall f | f in fs :: StrictField(f)
  {
    if DecodeStrict(b).Some? {
      StrictSound(b);
    }
    if forall f | f in fs :: StrictField(f) {
      StrictComplete(fs);
    }
  }
}
