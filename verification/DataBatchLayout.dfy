/**
 The DataBatch frame in its own numbers: what each field of a frame that is sent holds, what is read out of one
 that is accepted, and which sample lists may be sent.
 */
module DataBatchLayout {
  import opened Wire
  import opened DataBatch

  // ---- What is sent --------------------------------------------------------------------------

  /** One to four samples of 1 to 1024 bytes; the first at offset 0, the others later and in order. */
  lemma SendableSamples(samples: seq<Sample>)
    ensures ValidSamples(samples) <==>
      && 1 <= |samples| <= 4 && samples[0].delta == 0
      && (forall i | 0 <= i < |samples| :: 1 <= |samples[i].raw| <= 1024)
      && (forall i | 1 <= i < |samples| :: 0 < samples[i].delta && samples[i - 1].delta <= samples[i].delta)
  {
    if |samples| == 4 && forall i | 1 <= i < |samples| :: samples[i - 1].delta <= samples[i].delta {
      assert samples[0].delta <= samples[1].delta <= samples[2].delta <= samples[3].delta;
    }
    if |samples| == 3 && forall i | 1 <= i < |samples| :: samples[i - 1].delta <= samples[i].delta {
      assert samples[0].delta <= samples[1].delta <= samples[2].delta;
    }
  }

  lemma {:induction false} SampleListAt(samples: seq<Sample>, i: nat)
    requires i < |samples|
    ensures |SampleList(samples)| == |samples|
    ensures SampleList(samples)[i] == Blob(5, Encode([Num(1, samples[i].delta), Blob(2, samples[i].raw)]))
    decreases |samples|
  {
    hide Encode;
    var n := |samples| - 1;
    if i < n {
      SampleListAt(samples[..n], i);
    } else if n > 0 {
      SampleListAt(samples[..n], 0);
    }
  }

  function When(present: bool, f: Field): seq<Field> { if present then [f] else [] }

  /** Field 5 with the offset in its field 1 and the bytes in its field 2. */
  predicate Carries(f: Field, s: Sample) {
    f.number == 5 && f.Blob? && DecodeStrict(f.data) == Some([Num(1, s.delta), Blob(2, s.raw)])
  }

  /** A frame is 0x20 and then, read by the strict decoder: the count, the base time, the first sequence number,
      the channel, the samples with their offsets and bytes, and what is there of edge device, template and index. */
  lemma FrameMeans(b: Batch)
    requires ValidSamples(b.samples)
    ensures FrameOf(b)[0] == 0x20 && DecodeStrict(FrameOf(b)[1..]).Some?
    ensures var fs, n := DecodeStrict(FrameOf(b)[1..]).value, |b.samples|;
      && n + 4 <= |fs|
      && fs[..4] == [Num(1, n), Num(2, b.baseTs), Num(3, b.firstSeq), Num(4, b.channel)]
      && (forall i | 0 <= i < n :: Carries(fs[4 + i], b.samples[i]))
      && fs[4 + n..] == When(b.edge != 0, Num(6, b.edge)) + When(b.template != 0, Num(7, b.template))
                        + When(b.index > 0 || b.edge != 0, Num(8, b.index))
  {
    hide *;
    FrameIs(b);
    FieldsFold(b);
    StrictExact(Encode(FieldsOf(b)), FieldsOf(b));
    Slices(b);
    CountOf(b);
    var fs := DecodeStrict(FrameOf(b)[1..]).value;
    assert fs == FieldsOf(b);
    forall i | 0 <= i < |b.samples|
      ensures Carries(fs[4 + i], b.samples[i])
    {
      SampleListAt(b.samples, i);
      assert fs[4..4 + |b.samples|][i] == fs[4 + i];
      SampleReads(b.samples[i]);
      CarriesIs(fs[4 + i], b.samples[i]);
    }
  }

  lemma CarriesIs(f: Field, s: Sample)
    requires f == Blob(5, Encode([Num(1, s.delta), Blob(2, s.raw)]))
    requires DecodeStrict(Encode([Num(1, s.delta), Blob(2, s.raw)])) == Some([Num(1, s.delta), Blob(2, s.raw)])
    ensures Carries(f, s)
  {
  }

  lemma CountOf(b: Batch)
    ensures ValidSamples(b.samples) ==>
              |b.samples| <= 4 && forall i | 0 <= i < |b.samples| :: 1 <= |b.samples[i].raw| <= MAX_RAW
  {
  }

  lemma FrameIs(b: Batch)
    ensures |FrameOf(b)| > 0 && FrameOf(b)[0] == 0x20 && FrameOf(b)[1..] == Encode(FieldsOf(b))
  {
    hide Encode, FieldsOf;
  }

  lemma Slices(b: Batch)
    ensures var fs, n := FieldsOf(b), |b.samples|;
      && 4 + n <= |fs|
      && fs[..4] == [Num(1, n), Num(2, b.baseTs), Num(3, b.firstSeq), Num(4, b.channel)]
      && fs[4..4 + n] == SampleList(b.samples)
      && fs[4 + n..] == When(b.edge != 0, Num(6, b.edge)) + When(b.template != 0, Num(7, b.template))
                        + When(b.index > 0 || b.edge != 0, Num(8, b.index))
  {
    if b.samples != [] { SampleListAt(b.samples, 0); }
    assert |SampleList(b.samples)| == |b.samples|;
    hide SampleList, Encode;
  }

  lemma SampleReads(s: Sample)
    requires 1 <= |s.raw| <= MAX_RAW
    ensures DecodeStrict(Encode([Num(1, s.delta), Blob(2, s.raw)])) == Some([Num(1, s.delta), Blob(2, s.raw)])
  {
    var fs := [Num(1, s.delta), Blob(2, s.raw)];
    hide Encode, DecodeStrict, DecodeSample;
    SampleInverts(s);
    SizesFit(s);
    StrictExact(Encode(fs), fs);
  }

  lemma SizesFit(s: Sample)
    requires |s.raw| <= MAX_RAW
    ensures StrictField(Num(1, s.delta)) && StrictField(Blob(2, s.raw))
  {
  }

  // ---- What is read --------------------------------------------------------------------------

  /** The value of the field with this number, 0 when it is not there. */
  ghost predicate Holds(fs: seq<Field>, number: nat, v: nat) {
    if exists f :: f in fs && f.number == number then Num(number, v) in fs else v == 0
  }

  /** An accepted frame: each value comes from its own field, cut to the width of its place in the structure. */
  lemma DecodedValues(b: seq<byte>)
    requires DecodeBatch(b).Some?
    ensures b[0] == 0x20 && DecodeStrict(b[1..]).Some?
    ensures var fs, v := DecodeStrict(b[1..]).value, DecodeBatch(b).value;
      && Num(1, |v.samples|) in fs && Num(2, v.baseTs) in fs
      && (exists x: nat :: Num(3, x) in fs && v.firstSeq == x % 0x1_0000_0000)
      && (exists x: nat :: Num(4, x) in fs && v.channel == x % 0x1_0000_0000)
      && (exists x: nat :: Holds(fs, 6, x) && v.edge == x % 0x1_0000_0000)
      && (exists x: nat :: Holds(fs, 7, x) && v.template == x % 0x1_0000_0000)
      && (exists x: nat :: Holds(fs, 8, x) && v.index == x % 0x100)
  {
    var fs := DecodeStrict(b[1..]).value;
    hide DecodeStrict, BatchFold, Acceptable, SamplesIn, Count;
    FoldMeansAcceptable(fs);
    var a := BatchFold(fs).value;
    SeenHolds(fs, a, 1); SeenHolds(fs, a, 2); SeenHolds(fs, a, 3); SeenHolds(fs, a, 4);
    SeenHolds(fs, a, 6); SeenHolds(fs, a, 7); SeenHolds(fs, a, 8);
  }

  lemma SeenHolds(fs: seq<Field>, a: Acc, k: nat)
    requires Reflects(a, fs) && k in SCALARS
    ensures k in a.seen ==> Num(k, a.seen[k]) in fs
    ensures Holds(fs, k, if k in a.seen then a.seen[k] else 0)
  {
    SeenIsThere(fs, a, k);
    if k in a.seen {
      assert Num(k, a.seen[k]) in fs;
    } else {
      forall f | f in fs ensures f.number != k {}
    }
  }

  lemma {:induction false} SampleFoldHolds(fs: seq<Field>)
    requires SampleFold(fs).Some?
    ensures SampleFold(fs).value.delta.Some? ==> Num(1, SampleFold(fs).value.delta.value) in fs
    ensures SampleFold(fs).value.raw.Some? ==> Blob(2, SampleFold(fs).value.raw.value) in fs
    decreases |fs|
  {
    if fs != [] {
      var n := |fs| - 1;
      SampleFoldHolds(fs[..n]);
      assert fs == fs[..n] + [fs[n]];
    }
  }

  /** A sample of an accepted frame is a field 5, and holds the offset and the bytes of its own fields 1 and 2. */
  lemma {:induction false} DecodedSamples(fs: seq<Field>, i: nat)
    requires i < |SamplesIn(fs)|
    ensures exists d :: Blob(5, d) in fs && DecodeSample(d) == Some(SamplesIn(fs)[i])
    decreases |fs|
  {
    hide DecodeSample;
    var n := |fs| - 1;
    var f := fs[n];
    if i < |SamplesIn(fs[..n])| {
      DecodedSamples(fs[..n], i);
      var d :| Blob(5, d) in fs[..n] && DecodeSample(d) == Some(SamplesIn(fs[..n])[i]);
      assert Blob(5, d) in fs;
    } else {
      assert f == Blob(5, f.data) && f in fs;
    }
  }

  lemma SampleValues(d: seq<byte>)
    requires DecodeSample(d).Some?
    ensures DecodeStrict(d).Some?
    ensures Num(1, DecodeSample(d).value.delta) in DecodeStrict(d).value
    ensures Blob(2, DecodeSample(d).value.raw) in DecodeStrict(d).value
  {
    hide DecodeStrict, SampleFold;
    SampleFoldHolds(DecodeStrict(d).value);
  }
}
