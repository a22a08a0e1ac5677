/**
 The in-place encoder of data_batch_codec.c: every write is measured first, so that a buffer of
 exactly the predicted size is enough and a smaller one is left alone.
 */
module DataBatchEncoder {
  import opened Wire
  import opened DataBatch

  /** `frame_encoder_t`: a cursor over the caller's buffer. */
  class Encoder {
    const buf: array<byte>
    var pos: nat

    ghost predicate Valid()
      reads this
    {
      pos <= buf.Length
    }

    ghost function Written(): seq<byte>
      reads this, buf
      requires Valid()
    {
      buf[..pos]
    }

    /** `frame_encoder_init`: an empty buffer gets no type byte. */
    constructor (buffer: array<byte>, msgType: byte)
      modifies buffer
      ensures Valid() && buf == buffer
      ensures Written() == if buffer.Length > 0 then [msgType] else []
      ensures forall i | pos <= i < buf.Length :: buf[i] == old(buffer[i])
    {
      buf := buffer;
      pos := 0;
      new;
      if buffer.Length > 0 {
        buffer[0] := msgType;
        pos := 1;
      }
    }

    /** `frame_encode_varint_to_buf` at the cursor. */
    method PutVarint(v: nat)
      requires Valid() && pos + VarintSize(v) <= buf.Length
      modifies this`pos, buf
      ensures Valid() && pos == old(pos) + VarintSize(v)
      ensures Written() == old(Written()) + Varint(v)
      ensures forall i | pos <= i < buf.Length :: buf[i] == old(buf[i])
    {
      var rest := v;
      ghost var out: seq<byte> := [];
      while rest > 0x7F
        invariant pos == old(pos) + |out| && pos + VarintSize(rest) <= buf.Length
        invariant Written() == old(Written()) + out && out + Varint(rest) == Varint(v)
        invariant forall i | pos <= i < buf.Length :: buf[i] == old(buf[i])
      {
        Associate(out, [rest % 128 + 128], Varint(rest / 128));
        Associate(old(Written()), out, [rest % 128 + 128]);
        buf[pos] := rest % 128 + 128;
        out := out + [rest % 128 + 128];
        pos, rest := pos + 1, rest / 128;
      }
      Associate(old(Written()), out, [rest]);
      buf[pos] := rest % 128;
      pos := pos + 1;
    }

    /** `append_varint`: tag and number, or nothing at all. */
    method AppendVarint(number: nat, v: nat) returns (ok: bool)
      requires Valid()
      modifies this`pos, buf
      ensures Valid() && ok == (old(pos) + VarintFieldSize(number, v) <= buf.Length)
      ensures ok ==> Written() == old(Written()) + EncodeField(Num(number, v))
      ensures pos == old(pos) + if ok then VarintFieldSize(number, v) else 0
      ensures forall i | pos <= i < buf.Length :: buf[i] == old(buf[i])
      ensures !ok ==> buf[..] == old(buf[..])
    {
      if pos + VarintFieldSize(number, v) > buf.Length { return false; }
      PutVarint(8 * number);
      PutVarint(v);
      return true;
    }

    /** `append_bytes_header`: tag and length, or nothing at all. */
    method AppendBytesHeader(number: nat, len: nat) returns (ok: bool)
      requires Valid()
      modifies this`pos, buf
      ensures Valid() && ok == (old(pos) + VarintSize(8 * number + 2) + VarintSize(len) <= buf.Length)
      ensures ok ==> Written() == old(Written()) + (Varint(8 * number + 2) + Varint(len))
      ensures pos == old(pos) + if ok then VarintSize(8 * number + 2) + VarintSize(len) else 0
      ensures forall i | pos <= i < buf.Length :: buf[i] == old(buf[i])
    {
      if pos + VarintSize(8 * number + 2) + VarintSize(len) > buf.Length { return false; }
      PutVarint(8 * number + 2);
      PutVarint(len);
      return true;
    }

    /** `append_bytes`. */
    method AppendBytes(number: nat, data: seq<byte>) returns (ok: bool)
      requires Valid()
      modifies this`pos, buf
      ensures Valid() && (old(pos) + BytesFieldSize(number, |data|) <= buf.Length ==> ok) && old(pos) <= pos
      ensures ok ==> Written() == old(Written()) + EncodeField(Blob(number, data))
      ensures forall i | pos <= i < buf.Length :: buf[i] == old(buf[i])
    {
      hide Varint, VarintSize;
      ok := AppendBytesHeader(number, |data|);
      if !ok || pos + |data| > buf.Length { return false; }
      Associate(old(Written()), Varint(8 * number + 2) + Varint(|data|), data);
      Associate(Varint(8 * number + 2), Varint(|data|), data);
      forall i | 0 <= i < |data| {
        buf[pos + i] := data[i];
      }
      pos := pos + |data|;
    }

    /** One sample: the header of field 5, then its body written straight behind it. */
    method AppendSample(s: Sample) returns (ok: bool)
      requires Valid()
      modifies this`pos, buf
      ensures Valid() && (old(pos) + BytesFieldSize(5, SampleBodySize(s)) <= buf.Length ==> ok) && old(pos) <= pos
      ensures ok ==> Written() == old(Written()) + EncodeField(Blob(5, Encode(SampleFields(s))))
      ensures forall i | pos <= i < buf.Length :: buf[i] == old(buf[i])
    {
      hide Encode, EncodeField;
      SampleInParts(s, Written());
      ok := AppendBytesHeader(5, SampleBodySize(s));
      if ok { ok := AppendVarint(1, s.delta); }
      if ok { ok := AppendBytes(2, s.raw); }
    }
  }

  /** A sample field is its header followed by the two fields inside it. */
  lemma SampleInParts(s: Sample, w: seq<byte>)
    ensures w + EncodeField(Blob(5, Encode(SampleFields(s))))
         == w + (Varint(42) + Varint(SampleBodySize(s))) + EncodeField(Num(1, s.delta)) + EncodeField(Blob(2, s.raw))
  {
    var fs := SampleFields(s);
    SampleBodyLength(s);
    assert fs[1..] == [fs[1]] && fs[1..][1..] == [];
    assert Encode(fs[1..]) == EncodeField(fs[1]);
    assert Encode(fs) == EncodeField(fs[0]) + EncodeField(fs[1]);
    Associate(Varint(42), Varint(SampleBodySize(s)), Encode(fs));
    Associate(w, Varint(42) + Varint(SampleBodySize(s)), Encode(fs));
    Associate(w + (Varint(42) + Varint(SampleBodySize(s))), EncodeField(fs[0]), EncodeField(fs[1]));
  }

  lemma {:induction false} SampleListAt(samples: seq<Sample>)
    ensures |SampleList(samples)| == |samples|
    ensures forall i | 0 <= i < |samples| :: SampleList(samples)[i] == Blob(5, Encode(SampleFields(samples[i])))
  {
    if samples != [] {
      SampleListAt(samples[..|samples| - 1]);
    }
  }

  /** The next field of the frame and the room that is left for it. */
  lemma NextFieldFits(fs: seq<Field>, k: nat)
    requires k < |fs|
    ensures Encode(fs[..k + 1]) == Encode(fs[..k]) + EncodeField(fs[k])
    ensures |Encode(fs[..k])| + FieldSize(fs[k]) <= |Encode(fs)|
  {
    assert fs[..k + 1] == fs[..k] + [fs[k]] && fs == fs[..k] + [fs[k]] + fs[k + 1..];
    EncodeConcat(fs[..k], [fs[k]]);
    EncodeConcat(fs[..k] + [fs[k]], fs[k + 1..]);
    assert Encode([fs[k]]) == EncodeField(fs[k]) by { assert [fs[k]][1..] == []; }
    FieldLayout(fs[k], []);
  }

  lemma EncodeNothing(fs: seq<Field>)
    ensures Encode(fs[..0]) == []
  {
  }

  /** The first k fields of the frame have been written, and the whole frame fits the buffer. */
  ghost predicate Emitted(enc: Encoder, fs: seq<Field>, k: nat)
    reads enc, enc.buf
  {
    && enc.Valid() && k <= |fs|
    && enc.Written() == [MSG_DATA_BATCH] + Encode(fs[..k])
    && 1 + |Encode(fs)| <= enc.buf.Length
  }

  method AppendNumber(enc: Encoder, number: nat, v: nat, ghost fs: seq<Field>, ghost k: nat) returns (ok: bool)
    requires Emitted(enc, fs, k) && k < |fs| && fs[k] == Num(number, v)
    modifies enc`pos, enc.buf
    ensures ok && Emitted(enc, fs, k + 1)
    ensures forall i | enc.pos <= i < enc.buf.Length :: enc.buf[i] == old(enc.buf[i])
    ensures old(enc.pos) <= enc.pos
  {
    hide Encode, EncodeField;
    NextFieldFits(fs, k);
    ok := enc.AppendVarint(number, v);
    Associate([MSG_DATA_BATCH], Encode(fs[..k]), EncodeField(fs[k]));
  }

  method AppendHeader(enc: Encoder, b: Batch) returns (ok: bool)
    requires Emitted(enc, FieldsOf(b), 0)
    modifies enc`pos, enc.buf
    ensures ok && Emitted(enc, FieldsOf(b), 4) && old(enc.pos) <= enc.pos
    ensures forall i | enc.pos <= i < enc.buf.Length :: enc.buf[i] == old(enc.buf[i])
  {
    hide Encode, EncodeField, SampleList;
    ghost var fs := FieldsOf(b);
    ok := AppendNumber(enc, 1, |b.samples|, fs, 0);
    if ok { ok := AppendNumber(enc, 2, b.baseTs, fs, 1); }
    if ok { ok := AppendNumber(enc, 3, b.firstSeq, fs, 2); }
    if ok { ok := AppendNumber(enc, 4, b.channel, fs, 3); }
  }

  method AppendSamples(enc: Encoder, b: Batch) returns (ok: bool)
    requires Emitted(enc, FieldsOf(b), 4)
    modifies enc`pos, enc.buf
    ensures ok && Emitted(enc, FieldsOf(b), 4 + |b.samples|) && old(enc.pos) <= enc.pos
    ensures forall i | enc.pos <= i < enc.buf.Length :: enc.buf[i] == old(enc.buf[i])
  {
    hide Encode, EncodeField, SampleList;
    ghost var fs := FieldsOf(b);
    SampleListAt(b.samples);
    var i := 0;
    ok := true;
    while ok && i < |b.samples|
      invariant ok && i <= |b.samples| && Emitted(enc, fs, 4 + i) && old(enc.pos) <= enc.pos
      invariant forall j | enc.pos <= j < enc.buf.Length :: enc.buf[j] == old(enc.buf[j])
    {
      NextFieldFits(fs, 4 + i);
      SampleBodyLength(b.samples[i]);
      assert fs[4 + i] == Blob(5, Encode(SampleFields(b.samples[i])));
      ok := enc.AppendSample(b.samples[i]);
      Associate([MSG_DATA_BATCH], Encode(fs[..4 + i]), EncodeField(fs[4 + i]));
      i := i + 1;
    }
  }

  method AppendTail(enc: Encoder, b: Batch) returns (ok: bool)
    requires Emitted(enc, FieldsOf(b), 4 + |b.samples|)
    modifies enc`pos, enc.buf
    ensures ok && Emitted(enc, FieldsOf(b), |FieldsOf(b)|) && old(enc.pos) <= enc.pos
    ensures forall i | enc.pos <= i < enc.buf.Length :: enc.buf[i] == old(enc.buf[i])
  {
    hide Encode, EncodeField, SampleList;
    ghost var fs := FieldsOf(b);
    SampleListAt(b.samples);
    ghost var k := 4 + |b.samples|;
    ok := true;
    if ok && b.edge != 0 {
      ok := AppendNumber(enc, 6, b.edge, fs, k);
      k := k + 1;
    }
    if ok && b.template != 0 {
      ok := AppendNumber(enc, 7, b.template, fs, k);
      k := k + 1;
    }
    if ok && (b.index > 0 || b.edge != 0) {
      ok := AppendNumber(enc, 8, b.index, fs, k);
      k := k + 1;
    }
  }

  datatype Outcome = Written(len: nat) | InvalidTag | Overflow

  /** `data_batch_encode`.  Nothing is written unless the batch is valid and the whole frame fits. */
  method EncodeBatch(buf: array<byte>, b: Batch) returns (r: Outcome)
    modifies buf
    ensures !ValidSamples(b.samples) ==> r == InvalidTag && buf[..] == old(buf[..])
    ensures ValidSamples(b.samples) && buf.Length < |FrameOf(b)| ==> r == Overflow && buf[..] == old(buf[..])
    ensures ValidSamples(b.samples) && |FrameOf(b)| <= buf.Length ==>
              r == Written(|FrameOf(b)|) && buf[..|FrameOf(b)|] == FrameOf(b)
              && forall i | |FrameOf(b)| <= i < buf.Length :: buf[i] == old(buf[i])
  {
    hide Encode, FieldsOf, EncodedSize;
    if !ValidSamples(b.samples) { return InvalidTag; }
    var need := EncodedSize(b);
    SizeIsExact(b);
    if buf.Length < need { return Overflow; }
    ghost var fs := FieldsOf(b);
    EncodeNothing(fs);
    var enc := new Encoder(buf, MSG_DATA_BATCH);
    var ok := AppendHeader(enc, b);
    if ok { ok := AppendSamples(enc, b); }
    if ok { ok := AppendTail(enc, b); }
    assert fs[..|fs|] == fs;
    if !ok || enc.pos != need { return Overflow; }
    return Written(enc.pos);
  }
}
