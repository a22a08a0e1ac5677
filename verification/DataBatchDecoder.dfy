/** The two nested loops of `data_batch_decode`, which stop at the first rule that is broken. */
module DataBatchDecoder {
  import opened Wire
  import opened DataBatch

  lemma {:induction false} SampleFoldStuck(fs: seq<Field>, gs: seq<Field>)
    requires SampleFold(fs) == None
    ensures SampleFold(fs + gs) == None
  {
    if gs == [] {
      assert fs + gs == fs;
    } else {
      SampleFoldStuck(fs, gs[..|gs| - 1]);
      assert (fs + gs)[..|fs + gs| - 1] == fs + gs[..|gs| - 1];
    }
  }

  lemma {:induction false} BatchFoldStuck(fs: seq<Field>, gs: seq<Field>)
    requires BatchFold(fs) == None
    ensures BatchFold(fs + gs) == None
  {
    if gs == [] {
      assert fs + gs == fs;
    } else {
      BatchFoldStuck(fs, gs[..|gs| - 1]);
      assert (fs + gs)[..|fs + gs| - 1] == fs + gs[..|gs| - 1];
    }
  }

  lemma SampleFoldSnoc(fs: seq<Field>, f: Field)
    ensures SampleFold(fs + [f]) == match SampleFold(fs) case None => None case Some(a) => SampleStep(a, f)
  {
    assert (fs + [f])[..|fs|] == fs;
  }

  lemma SampleFoldNothing()
    ensures SampleFold([]) == Some(SampleAcc(None, None))
  {
  }

  lemma BatchFoldNothing()
    ensures BatchFold([]) == Some(Acc(map[], []))
  {
  }

  /** The inner loop, over the body of one sample. */
  method DecodeSampleLoop(b: seq<byte>) returns (r: Option<Sample>)
    ensures r == DecodeSample(b)
  {
    hide DecodeStrict, NextStrict, SampleFold;
    var p := 0;
    var a := SampleAcc(None, None);
    ghost var done: seq<Field> := [];
    assert b[0..] == b;
    AppendNothing(DecodeStrict(b));
    SampleFoldNothing();
    while p < |b|
      invariant p <= |b|
      invariant DecodeStrict(b) == Append(done, DecodeStrict(b[p..]))
      invariant SampleFold(done) == Some(a)
    {
      StrictTail(done, b[p..]);
      var next := NextStrictAt(b, p);
      if next.None? { return None; }
      var f, n := next.value.0, next.value.1;
      SampleFoldSnoc(done, f);
      assert b[p..][n..] == b[p + n..];
      done, p := done + [f], p + n;
      var a' := SampleStep(a, f);
      if a'.None? {
        if DecodeStrict(b[p..]).Some? {
          SampleFoldStuck(done, DecodeStrict(b[p..]).value);
        }
        return None;
      }
      a := a'.value;
    }
    StrictTail(done, b[p..]);
    return if a.delta.Some? && a.raw.Some? then Some(Sample(a.delta.value, a.raw.value)) else None;
  }

  /** The body of the outer loop. */
  method Step(a: Acc, f: Field) returns (r: Option<Acc>)
    ensures r == BatchStep(a, f)
  {
    if f.number in SCALARS {
      if f.number in a.seen || f.Blob? { return None; }
      return Some(a.(seen := a.seen[f.number := f.n]));
    }
    if f.number != 5 { return Some(a); }
    if f.Num? || |a.samples| >= MAX_SAMPLES { return None; }
    var s := DecodeSampleLoop(f.data);
    if s.None? { return None; }
    if |a.samples| == 0 {
      if s.value.delta != 0 { return None; }
    } else if s.value.delta == 0 || s.value.delta < a.samples[|a.samples| - 1].delta {
      return None;
    }
    return Some(a.(samples := a.samples + [s.value]));
  }

  /** The outer loop, over the fields of the frame. */
  method DecodeBatchLoop(frame: seq<byte>) returns (r: Option<Batch>)
    ensures r == DecodeBatch(frame)
  {
    hide DecodeStrict, NextStrict, BatchFold, BatchStep, Finish;
    if |frame| < 1 || frame[0] != MSG_DATA_BATCH { return None; }
    var b, p := frame[1..], 0;
    var a := Acc(map[], []);
    ghost var done: seq<Field> := [];
    assert b[0..] == b;
    AppendNothing(DecodeStrict(b));
    BatchFoldNothing();
    while p < |b|
      invariant p <= |b|
      invariant DecodeStrict(b) == Append(done, DecodeStrict(b[p..]))
      invariant BatchFold(done) == Some(a)
    {
      StrictTail(done, b[p..]);
      var next := NextStrictAt(b, p);
      if next.None? { return None; }
      var f, n := next.value.0, next.value.1;
      FoldSnoc(done, f);
      assert b[p..][n..] == b[p + n..];
      done, p := done + [f], p + n;
      var a' := Step(a, f);
      if a'.None? {
        if DecodeStrict(b[p..]).Some? {
          BatchFoldStuck(done, DecodeStrict(b[p..]).value);
        }
        return None;
      }
      a := a'.value;
    }
    StrictTail(done, b[p..]);
    return Finish(a);
  }
}
