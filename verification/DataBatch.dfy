/**
 The DataBatch (0x20) frame: the firmware's size predictor, in-place encoder and strict decoder
 (esp32-collector/components/msg_handler/data_batch_codec.c).
 */
module DataBatch {
  import opened Wire

  type u8 = x: int | 0 <= x < 0x100
  type u32 = x: int | 0 <= x < 0x1_0000_0000
  type u64 = x: int | 0 <= x < TWO_64

  const MSG_DATA_BATCH: byte := 0x20
  const MAX_SAMPLES := 4
  const MAX_RAW := 1024

  datatype Sample = Sample(delta: u64, raw: seq<byte>)

  datatype Batch = Batch(channel: u32, baseTs: u64, firstSeq: u32, samples: seq<Sample>,
                         edge: u32, template: u32, index: u8)

  /** The first sample defines the base; later ones are later than it and never go back. */
  predicate DeltasOk(samples: seq<Sample>) {
    && (samples != [] ==> samples[0].delta == 0)
    && (forall i | 0 < i < |samples| :: samples[i].delta > 0)
    && (forall i, j | 0 <= i < j < |samples| :: samples[i].delta <= samples[j].delta)
  }

  predicate ValidSamples(samples: seq<Sample>) {
    && 1 <= |samples| <= MAX_SAMPLES
    && (forall i | 0 <= i < |samples| :: 1 <= |samples[i].raw| <= MAX_RAW)
    && DeltasOk(samples)
  }

  // ---- The frame -----------------------------------------------------------------------------

  function SampleFields(s: Sample): seq<Field> {
    [Num(1, s.delta), Blob(2, s.raw)]
  }

  function SampleList(samples: seq<Sample>): seq<Field> {
    if samples == [] then []
    else SampleList(samples[..|samples| - 1]) + [Blob(5, Encode(SampleFields(samples[|samples| - 1])))]
  }

  function HeaderFields(b: Batch): seq<Field> {
    [Num(1, |b.samples|), Num(2, b.baseTs), Num(3, b.firstSeq), Num(4, b.channel)]
  }

  /** A routing field of value 0 is left out; the index goes with the edge device. */
  function TailFields(b: Batch): seq<Field> {
    Optional(b.edge != 0, 6, b.edge) + Optional(b.template != 0, 7, b.template)
    + Optional(b.index > 0 || b.edge != 0, 8, b.index)
  }

  function Optional(present: bool, number: nat, v: nat): seq<Field> {
    if present then [Num(number, v)] else []
  }

  function FieldsOf(b: Batch): seq<Field> {
    HeaderFields(b) + SampleList(b.samples) + TailFields(b)
  }

  function FrameOf(b: Batch): seq<byte> { [MSG_DATA_BATCH] + Encode(FieldsOf(b)) }

  // ---- The size predictor --------------------------------------------------------------------

  function VarintSize(v: nat): (n: nat)
    ensures n == |Varint(v)|
  {
    if v < 128 then 1 else 1 + VarintSize(v / 128)
  }

  function VarintFieldSize(number: nat, v: nat): nat { VarintSize(8 * number) + VarintSize(v) }

  function BytesFieldSize(number: nat, len: nat): nat {
    VarintSize(8 * number + 2) + VarintSize(len) + len
  }

  function SampleBodySize(s: Sample): nat { VarintFieldSize(1, s.delta) + BytesFieldSize(2, |s.raw|) }

  function SamplesSize(samples: seq<Sample>): nat {
    if samples == [] then 0
    else SamplesSize(samples[..|samples| - 1]) + BytesFieldSize(5, SampleBodySize(samples[|samples| - 1]))
  }

  /** `data_batch_encoded_size` of a batch of one to four samples. */
  function EncodedSize(b: Batch): nat {
    1 + VarintFieldSize(1, |b.samples|) + VarintFieldSize(2, b.baseTs)
    + VarintFieldSize(3, b.firstSeq) + VarintFieldSize(4, b.channel)
    + SamplesSize(b.samples)
    + (if b.edge != 0 then VarintFieldSize(6, b.edge) else 0)
    + (if b.template != 0 then VarintFieldSize(7, b.template) else 0)
    + (if b.index > 0 || b.edge != 0 then VarintFieldSize(8, b.index) else 0)
  }

  function FieldSize(f: Field): nat {
    match f
    case Num(number, n) => VarintFieldSize(number, n)
    case Blob(number, data) => BytesFieldSize(number, |data|)
  }

  function TotalSize(fs: seq<Field>): nat {
    if fs == [] then 0 else FieldSize(fs[0]) + TotalSize(fs[1..])
  }

  lemma {:induction false} TotalIsLength(fs: seq<Field>)
    ensures |Encode(fs)| == TotalSize(fs)
  {
    if fs != [] {
      FieldLayout(fs[0], []);
      TotalIsLength(fs[1..]);
    }
  }

  lemma {:induction false} TotalConcat(fs: seq<Field>, gs: seq<Field>)
    ensures TotalSize(fs + gs) == TotalSize(fs) + TotalSize(gs)
  {
    if fs == [] {
      assert fs + gs == gs;
    } else {
      TotalConcat(fs[1..], gs);
      assert (fs + gs)[1..] == fs[1..] + gs;
    }
  }

  lemma TotalOne(f: Field)
    ensures TotalSize([f]) == FieldSize(f)
  {
    assert [f][1..] == [];
  }

  lemma SampleBodyLength(s: Sample)
    ensures |Encode(SampleFields(s))| == SampleBodySize(s)
  {
    TotalIsLength(SampleFields(s));
    assert SampleFields(s) == [Num(1, s.delta)] + [Blob(2, s.raw)];
    TotalConcat([Num(1, s.delta)], [Blob(2, s.raw)]);
    TotalOne(Num(1, s.delta));
    TotalOne(Blob(2, s.raw));
  }

  lemma {:induction false} SamplesLength(samples: seq<Sample>)
    ensures TotalSize(SampleList(samples)) == SamplesSize(samples)
  {
    if samples != [] {
      var s := samples[|samples| - 1];
      SamplesLength(samples[..|samples| - 1]);
      SampleBodyLength(s);
      var f := Blob(5, Encode(SampleFields(s)));
      TotalConcat(SampleList(samples[..|samples| - 1]), [f]);
      TotalOne(f);
    }
  }

  lemma HeaderLength(b: Batch)
    ensures TotalSize(HeaderFields(b))
         == VarintFieldSize(1, |b.samples|) + VarintFieldSize(2, b.baseTs)
          + VarintFieldSize(3, b.firstSeq) + VarintFieldSize(4, b.channel)
  {
    var fs := HeaderFields(b);
    assert fs == [fs[0]] + ([fs[1]] + ([fs[2]] + [fs[3]]));
    TotalConcat([fs[0]], [fs[1]] + ([fs[2]] + [fs[3]]));
    TotalConcat([fs[1]], [fs[2]] + [fs[3]]);
    TotalConcat([fs[2]], [fs[3]]);
    TotalOne(fs[0]);
    TotalOne(fs[1]);
    TotalOne(fs[2]);
    TotalOne(fs[3]);
  }

  lemma TailLength(b: Batch)
    ensures TotalSize(TailFields(b))
         == (if b.edge != 0 then VarintFieldSize(6, b.edge) else 0)
          + (if b.template != 0 then VarintFieldSize(7, b.template) else 0)
          + (if b.index > 0 || b.edge != 0 then VarintFieldSize(8, b.index) else 0)
  {
    var p, q := Optional(b.edge != 0, 6, b.edge), Optional(b.template != 0, 7, b.template);
    var r := Optional(b.index > 0 || b.edge != 0, 8, b.index);
    TotalConcat(p + q, r);
    TotalConcat(p, q);
    TotalOne(Num(6, b.edge));
    TotalOne(Num(7, b.template));
    TotalOne(Num(8, b.index));
  }

  /** The predictor is exact on every varint width and every optional-field branch. */
  lemma SizeIsExact(b: Batch)
    ensures EncodedSize(b) == |FrameOf(b)|
  {
    TotalIsLength(FieldsOf(b));
    TotalConcat(HeaderFields(b) + SampleList(b.samples), TailFields(b));
    TotalConcat(HeaderFields(b), SampleList(b.samples));
    HeaderLength(b);
    SamplesLength(b.samples);
    TailLength(b);
  }

  // ---- The strict decoder --------------------------------------------------------------------

  datatype SampleAcc = SampleAcc(delta: Option<u64>, raw: Option<seq<byte>>)

  /** One field of a sample: known numbers once and of the right type, others skipped. */
  function SampleStep(a: SampleAcc, f: Field): Option<SampleAcc> {
    if f.number == 1 then
      if a.delta.Some? || f.Blob? || f.n >= TWO_64 then None else Some(a.(delta := Some(f.n)))
    else if f.number == 2 then
      if a.raw.Some? || f.Num? || f.data == [] || |f.data| > MAX_RAW then None
      else Some(a.(raw := Some(f.data)))
    else Some(a)
  }

  function SampleFold(fs: seq<Field>): Option<SampleAcc> {
    if fs == [] then Some(SampleAcc(None, None))
    else
      var a :- SampleFold(fs[..|fs| - 1]);
      SampleStep(a, fs[|fs| - 1])
  }

  function DecodeSample(data: seq<byte>): Option<Sample> {
    var fs :- DecodeStrict(data);
    var a :- SampleFold(fs);
    if a.delta.Some? && a.raw.Some? then Some(Sample(a.delta.value, a.raw.value)) else None
  }

  /** Numbers 1 to 4 are required, 6 to 8 optional; all of them at most once. */
  const SCALARS: set<nat> := {1, 2, 3, 4, 6, 7, 8}

  datatype Acc = Acc(seen: map<nat, nat>, samples: seq<Sample>)

  /** The first sample must sit on the base, a later one after it and not before its neighbour. */
  predicate Follows(samples: seq<Sample>, s: Sample) {
    if samples == [] then s.delta == 0
    else s.delta > 0 && samples[|samples| - 1].delta <= s.delta
  }

  function BatchStep(a: Acc, f: Field): Option<Acc> {
    if f.number in SCALARS then
      if f.number in a.seen || f.Blob? then None else Some(a.(seen := a.seen[f.number := f.n]))
    else if f.number == 5 then
      if f.Num? || |a.samples| >= MAX_SAMPLES then None
      else
        var s :- DecodeSample(f.data);
        if Follows(a.samples, s) then Some(a.(samples := a.samples + [s])) else None
    else Some(a)
  }

  function BatchFold(fs: seq<Field>): Option<Acc> {
    if fs == [] then Some(Acc(map[], []))
    else
      var a :- BatchFold(fs[..|fs| - 1]);
      BatchStep(a, fs[|fs| - 1])
  }

  /** The last checks, and the narrowing casts of the output structure. */
  function Finish(a: Acc): Option<Batch> {
    if !({1, 2, 3, 4} <= a.seen.Keys) || !(1 <= a.seen[1] <= MAX_SAMPLES) || |a.samples| != a.seen[1]
       || a.seen[2] >= TWO_64
    then None
    else
      Some(Batch(a.seen[4] % 0x1_0000_0000, a.seen[2], a.seen[3] % 0x1_0000_0000, a.samples,
                 (if 6 in a.seen then a.seen[6] else 0) % 0x1_0000_0000,
                 (if 7 in a.seen then a.seen[7] else 0) % 0x1_0000_0000,
                 (if 8 in a.seen then a.seen[8] else 0) % 0x100))
  }

  function DecodeBatch(b: seq<byte>): Option<Batch> {
    if b == [] || b[0] != MSG_DATA_BATCH then None
    else
      var fs :- DecodeStrict(b[1..]);
      var a :- BatchFold(fs);
      Finish(a)
  }

  // ---- Decoding inverts encoding -------------------------------------------------------------

  lemma FoldSnoc(fs: seq<Field>, f: Field)
    ensures BatchFold(fs + [f]) == match BatchFold(fs) case None => None case Some(a) => BatchStep(a, f)
  {
    assert (fs + [f])[..|fs|] == fs;
  }

  lemma {:induction false} VarintSizeBound(v: nat)
    ensures VarintSize(v) <= 1 + v / 128
  {
    if v >= 128 {
      VarintSizeBound(v / 128);
    }
  }

  lemma SampleInverts(s: Sample)
    requires 1 <= |s.raw| <= MAX_RAW
    ensures |Encode(SampleFields(s))| < TWO_64
    ensures DecodeSample(Encode(SampleFields(s))) == Some(s)
  {
    var fs := SampleFields(s);
    VarintSizeBound(s.delta);
    VarintSizeBound(|s.raw|);
    SampleBodyLength(s);
    StrictExact(Encode(fs), fs);
    assert fs[..1] == [Num(1, s.delta)] && fs[..1][..0] == [];
    assert SampleFold(fs[..1]) == Some(SampleAcc(Some(s.delta), None));
  }

  lemma SampleAppends(fs: seq<Field>, a: Acc, s: Sample)
    requires BatchFold(fs) == Some(a) && |a.samples| < MAX_SAMPLES
    requires Follows(a.samples, s) && 1 <= |s.raw| <= MAX_RAW
    ensures BatchFold(fs + [Blob(5, Encode(SampleFields(s)))]) == Some(a.(samples := a.samples + [s]))
    ensures StrictField(Blob(5, Encode(SampleFields(s))))
  {
    hide BatchFold, Encode, DecodeSample;
    SampleInverts(s);
    FoldSnoc(fs, Blob(5, Encode(SampleFields(s))));
  }

  lemma {:induction false} SamplesInvert(head: seq<Field>, seen: map<nat, nat>, samples: seq<Sample>)
    requires BatchFold(head) == Some(Acc(seen, []))
    requires |samples| <= MAX_SAMPLES && DeltasOk(samples)
    requires forall i | 0 <= i < |samples| :: 1 <= |samples[i].raw| <= MAX_RAW
    ensures BatchFold(head + SampleList(samples)) == Some(Acc(seen, samples))
    ensures forall f | f in SampleList(samples) :: StrictField(f)
  {
    hide BatchFold, Encode;
    if samples == [] {
      assert head + [] == head;
    } else {
      var n := |samples| - 1;
      var init, s := samples[..n], samples[n];
      assert samples == init + [s];
      SamplesInvert(head, seen, init);
      SampleAppends(head + SampleList(init), Acc(seen, init), s);
      Associate(head, SampleList(init), [Blob(5, Encode(SampleFields(s)))]);
    }
  }

  function HeaderSeen(b: Batch): map<nat, nat> {
    map[1 := |b.samples|, 2 := b.baseTs, 3 := b.firstSeq, 4 := b.channel]
  }

  function AllSeen(b: Batch): map<nat, nat> {
    HeaderSeen(b) + OptionalSeen(b.edge != 0, 6, b.edge) + OptionalSeen(b.template != 0, 7, b.template)
    + OptionalSeen(b.index > 0 || b.edge != 0, 8, b.index)
  }

  function OptionalSeen(present: bool, number: nat, v: nat): map<nat, nat> {
    if present then map[number := v] else map[]
  }

  lemma HeaderInverts(b: Batch)
    ensures BatchFold(HeaderFields(b)) == Some(Acc(HeaderSeen(b), []))
  {
    var fs := HeaderFields(b);
    assert fs == [] + [fs[0]] + [fs[1]] + [fs[2]] + [fs[3]];
    FoldSnoc([], fs[0]);
    FoldSnoc([] + [fs[0]], fs[1]);
    FoldSnoc([] + [fs[0]] + [fs[1]], fs[2]);
    FoldSnoc([] + [fs[0]] + [fs[1]] + [fs[2]], fs[3]);
  }

  lemma FoldOptional(fs: seq<Field>, a: Acc, present: bool, number: nat, v: nat)
    requires BatchFold(fs) == Some(a) && number in SCALARS && number !in a.seen
    ensures BatchFold(fs + Optional(present, number, v))
         == Some(Acc(a.seen + OptionalSeen(present, number, v), a.samples))
  {
    if present {
      FoldSnoc(fs, Num(number, v));
      assert a.seen + map[number := v] == a.seen[number := v];
    } else {
      assert fs + [] == fs && a.seen + map[] == a.seen;
    }
  }

  lemma TailInverts(b: Batch, fs: seq<Field>)
    requires BatchFold(fs) == Some(Acc(HeaderSeen(b), b.samples))
    ensures BatchFold(fs + TailFields(b)) == Some(Acc(AllSeen(b), b.samples))
  {
    hide BatchFold;
    var h, withIndex := HeaderSeen(b), b.index > 0 || b.edge != 0;
    var p, q, r := Optional(b.edge != 0, 6, b.edge), Optional(b.template != 0, 7, b.template),
        Optional(withIndex, 8, b.index);
    var s6, s7 := OptionalSeen(b.edge != 0, 6, b.edge), OptionalSeen(b.template != 0, 7, b.template);
    FoldOptional(fs, Acc(h, b.samples), b.edge != 0, 6, b.edge);
    FoldOptional(fs + p, Acc(h + s6, b.samples), b.template != 0, 7, b.template);
    FoldOptional(fs + p + q, Acc(h + s6 + s7, b.samples), withIndex, 8, b.index);
    Associate(fs, p + q, r);
    Associate(fs, p, q);
  }

  lemma FinishInverts(b: Batch)
    requires 1 <= |b.samples| <= MAX_SAMPLES
    ensures Finish(Acc(AllSeen(b), b.samples)) == Some(b)
  {
  }

  lemma FieldsFold(b: Batch)
    requires ValidSamples(b.samples)
    ensures BatchFold(FieldsOf(b)) == Some(Acc(AllSeen(b), b.samples))
    ensures forall f | f in FieldsOf(b) :: StrictField(f)
  {
    hide BatchFold, SampleList, AllSeen;
    HeaderInverts(b);
    SamplesInvert(HeaderFields(b), HeaderSeen(b), b.samples);
    TailInverts(b, HeaderFields(b) + SampleList(b.samples));
  }

  /** Every valid batch is read back exactly from its frame. */
  lemma BatchRoundTrip(b: Batch)
    requires ValidSamples(b.samples)
    ensures DecodeBatch(FrameOf(b)) == Some(b)
  {
    hide BatchFold, Encode, DecodeStrict, FieldsOf, Finish, AllSeen;
    FieldsFold(b);
    assert FrameOf(b)[1..] == Encode(FieldsOf(b));
    StrictExact(Encode(FieldsOf(b)), FieldsOf(b));
    FinishInverts(b);
  }

  // ---- Exactly what is accepted --------------------------------------------------------------

  function Count(fs: seq<Field>, k: nat): nat {
    if fs == [] then 0
    else Count(fs[..|fs| - 1], k) + if fs[|fs| - 1].number == k then 1 else 0
  }

  /** The samples of a field list, in order. */
  function SamplesIn(fs: seq<Field>): seq<Sample> {
    if fs == [] then []
    else
      var f, init := fs[|fs| - 1], SamplesIn(fs[..|fs| - 1]);
      if f.number == 5 && f.Blob? && DecodeSample(f.data).Some?
      then init + [DecodeSample(f.data).value] else init
  }

  predicate FieldOk(f: Field) {
    && (f.number in SCALARS ==> f.Num?)
    && (f.number == 5 ==> f.Blob? && DecodeSample(f.data).Some?)
  }

  /** The rules a list of fields must meet so far. */
  ghost predicate Acceptable(fs: seq<Field>) {
    && (forall f | f in fs :: FieldOk(f))
    && (forall k | k in SCALARS :: Count(fs, k) <= 1)
    && |SamplesIn(fs)| <= MAX_SAMPLES
    && DeltasOk(SamplesIn(fs))
  }

  lemma DeltasSnoc(samples: seq<Sample>, s: Sample)
    ensures DeltasOk(samples + [s]) <==> DeltasOk(samples) && Follows(samples, s)
  {
    var t := samples + [s];
    if DeltasOk(t) {
      assert forall i | 0 <= i < |samples| :: t[i] == samples[i];
      assert t[|samples|] == s;
    }
  }

  lemma CountSnoc(fs: seq<Field>, f: Field)
    ensures forall k :: Count(fs + [f], k) == Count(fs, k) + if f.number == k then 1 else 0
    ensures SamplesIn(fs + [f])
         == SamplesIn(fs) + if f.number == 5 && f.Blob? && DecodeSample(f.data).Some?
                            then [DecodeSample(f.data).value] else []
  {
    assert (fs + [f])[..|fs|] == fs;
  }

  /** What a successful fold has kept: every scalar seen so far, and the samples. */
  ghost predicate Reflects(a: Acc, fs: seq<Field>) {
    && a.samples == SamplesIn(fs)
    && (forall k | k in SCALARS :: k in a.seen <==> Count(fs, k) == 1)
    && (forall f | f in fs && f.number in SCALARS :: f.number in a.seen && f.Num? && a.seen[f.number] == f.n)
  }

  lemma StepMeansAcceptable(fs: seq<Field>, a: Acc, f: Field)
    requires Acceptable(fs) && Reflects(a, fs)
    ensures BatchStep(a, f).Some? <==> Acceptable(fs + [f])
    ensures BatchStep(a, f).Some? ==> Reflects(BatchStep(a, f).value, fs + [f])
  {
    hide DecodeSample, Count, SamplesIn;
    CountSnoc(fs, f);
    if f.Blob? && DecodeSample(f.data).Some? {
      DeltasSnoc(a.samples, DecodeSample(f.data).value);
    }
    assert SamplesIn(fs) + [] == SamplesIn(fs);
    assert forall g | g in fs :: g in fs + [f];
    assert f in fs + [f];
  }

  lemma {:induction false} FoldMeansAcceptable(fs: seq<Field>)
    ensures BatchFold(fs).Some? <==> Acceptable(fs)
    ensures BatchFold(fs).Some? ==> Reflects(BatchFold(fs).value, fs)
  {
    if fs != [] {
      var init, f := fs[..|fs| - 1], fs[|fs| - 1];
      FoldMeansAcceptable(init);
      assert fs == init + [f];
      if Acceptable(init) {
        StepMeansAcceptable(init, BatchFold(init).value, f);
      } else {
        AcceptablePrefix(init, f);
      }
    }
  }

  lemma AcceptablePrefix(fs: seq<Field>, f: Field)
    ensures Acceptable(fs + [f]) ==> Acceptable(fs)
  {
    hide DecodeSample, Count, SamplesIn;
    CountSnoc(fs, f);
    assert forall g | g in fs :: g in fs + [f];
    if f.number == 5 && f.Blob? && DecodeSample(f.data).Some? {
      DeltasSnoc(SamplesIn(fs), DecodeSample(f.data).value);
    } else {
      assert SamplesIn(fs) + [] == SamplesIn(fs);
    }
  }

  /** The rules of a whole frame: the four required fields once each, the count field equal to
      the number of samples, one to four of them. */
  ghost predicate AcceptableFrame(fs: seq<Field>) {
    && Acceptable(fs)
    && Count(fs, 1) == 1 && Count(fs, 2) == 1 && Count(fs, 3) == 1 && Count(fs, 4) == 1
    && Num(1, |SamplesIn(fs)|) in fs && SamplesIn(fs) != []
    && forall f | f in fs :: StrictField(f)
  }

  lemma FinishMeansAcceptable(fs: seq<Field>, a: Acc)
    requires Acceptable(fs) && Reflects(a, fs) && forall f | f in fs :: StrictField(f)
    ensures Finish(a).Some? <==> AcceptableFrame(fs)
    ensures Finish(a).Some? ==> Finish(a).value.samples == SamplesIn(fs)
  {
    hide DecodeSample, Count, SamplesIn;
    SeenIsThere(fs, a, 1);
    SeenIsThere(fs, a, 2);
  }

  lemma {:induction false} CountFinds(fs: seq<Field>, k: nat)
    requires Count(fs, k) > 0
    ensures exists f :: f in fs && f.number == k
  {
    var f := fs[|fs| - 1];
    if f.number == k {
      assert f in fs;
    } else {
      CountFinds(fs[..|fs| - 1], k);
      var g :| g in fs[..|fs| - 1] && g.number == k;
      assert g in fs;
    }
  }

  lemma SeenIsThere(fs: seq<Field>, a: Acc, k: nat)
    requires Reflects(a, fs) && k in SCALARS
    ensures k in a.seen ==> Num(k, a.seen[k]) in fs
  {
    if k in a.seen {
      CountFinds(fs, k);
      var f :| f in fs && f.number == k;
      assert f == Num(k, a.seen[k]);
    }
  }

  /** Acceptance, both ways: a byte string is accepted exactly when it is the type byte followed
      by the encoding of an acceptable list of fields. */
  lemma AcceptedExactly(b: seq<byte>)
    ensures DecodeBatch(b).Some? <==> exists fs :: b == [MSG_DATA_BATCH] + Encode(fs) && AcceptableFrame(fs)
  {
    hide Encode, DecodeStrict, BatchFold, Finish, Acceptable;
    if DecodeBatch(b).Some? {
      var fs := DecodeStrict(b[1..]).value;
      StrictExact(b[1..], fs);
      FoldMeansAcceptable(fs);
      FinishMeansAcceptable(fs, BatchFold(fs).value);
      assert b == [MSG_DATA_BATCH] + Encode(fs);
    }
    if fs :| b == [MSG_DATA_BATCH] + Encode(fs) && AcceptableFrame(fs) {
      assert b[1..] == Encode(fs);
      StrictExact(b[1..], fs);
      FoldMeansAcceptable(fs);
      FinishMeansAcceptable(fs, BatchFold(fs).value);
    }
  }

  lemma {:induction false} SampleRawBounds(fs: seq<Field>)
    ensures SampleFold(fs).Some? && SampleFold(fs).value.raw.Some? ==> 1 <= |SampleFold(fs).value.raw.value| <= MAX_RAW
  {
    if fs != [] {
      SampleRawBounds(fs[..|fs| - 1]);
    }
  }

  lemma {:induction false} SamplesInBounds(fs: seq<Field>)
    ensures forall s | s in SamplesIn(fs) :: 1 <= |s.raw| <= MAX_RAW
  {
    if fs != [] {
      var f := fs[|fs| - 1];
      SamplesInBounds(fs[..|fs| - 1]);
      if f.Blob? && DecodeSample(f.data).Some? {
        SampleRawBounds(DecodeStrict(f.data).value);
      }
    }
  }

  /** Whatever is accepted satisfies the sample rules the encoder enforces. */
  lemma AcceptedIsValid(b: seq<byte>)
    requires DecodeBatch(b).Some?
    ensures ValidSamples(DecodeBatch(b).value.samples)
  {
    hide Encode, DecodeStrict, BatchFold, Finish, SamplesIn;
    var fs := DecodeStrict(b[1..]).value;
    StrictExact(b[1..], fs);
    FoldMeansAcceptable(fs);
    FinishMeansAcceptable(fs, BatchFold(fs).value);
    SamplesInBounds(fs);
  }
}
