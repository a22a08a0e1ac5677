/**
 `_rebuild` of scripts/bench_manifest.py: rewrite the baud rate, the sampling interval and the
 command interval of chosen channels inside a three-level ConfigManifest frame, and nothing else.
 */
module ManifestRebuild {
  import opened Wire

  /** The `--set` options of one channel; a missing key is None, `other` says whether unknown keys are there. */
  datatype Edit = Edit(baud: Option<nat>, interval: Option<nat>, cmdInterval: Option<nat>, other: bool)

  type Edits = map<nat, Edit>

  const MSG_CONFIG: byte := 0x04
  const F_CHANNEL := 4

  /** The options of a channel, unless there are none at all: an empty dictionary counts as no edit. */
  function Lookup(sets: Edits, id: Option<nat>): Option<Edit> {
    if id.Some? && id.value in sets && !Blank(sets[id.value]) then Some(sets[id.value]) else None
  }

  predicate Blank(mod: Edit) { mod.baud.None? && mod.interval.None? && mod.cmdInterval.None? && !mod.other }

  // ---- Lists of steps that may raise -----------------------------------------------------

  function TryMap<A, B>(f: A -> Option<B>, xs: seq<A>): (r: Option<seq<B>>)
    ensures r.Some? ==> |r.value| == |xs| && forall i | 0 <= i < |xs| :: f(xs[i]) == Some(r.value[i])
    ensures r.None? ==> exists i | 0 <= i < |xs| :: f(xs[i]) == None
  {
    if xs == [] then Some([])
    else
      var y :- f(xs[0]);
      var ys :- TryMap(f, xs[1..]);
      Some([y] + ys)
  }

  /** The first |ys| elements have been mapped to ys. */
  predicate Mapped<A, B(==)>(f: A -> Option<B>, xs: seq<A>, ys: seq<B>) {
    |ys| <= |xs| && forall i | 0 <= i < |ys| :: f(xs[i]) == Some(ys[i])
  }

  lemma TryMapIs<A, B>(f: A -> Option<B>, xs: seq<A>, ys: seq<B>)
    requires Mapped(f, xs, ys) && |xs| == |ys|
    ensures TryMap(f, xs) == Some(ys)
  {
    assert TryMap(f, xs).Some?;
    assert TryMap(f, xs).value == ys;
  }

  lemma TryMapFails<A, B>(f: A -> Option<B>, xs: seq<A>, i: nat)
    requires i < |xs| && f(xs[i]) == None
    ensures TryMap(f, xs) == None
  {
  }

  // ---- The edit, level by level ----------------------------------------------------------

  function BigEndian32(v: nat): (r: seq<byte>)
    requires v < 0x1_0000_0000
    ensures |r| == 4
  {
    [v / 0x100_0000, v / 0x1_0000 % 256, v / 256 % 256, v % 256]
  }

  /** `bc[2:6] = baud`: slice assignment also grows a buffer that is too short. */
  function Splice(bc: seq<byte>, baud: nat): seq<byte>
    requires baud < 0x1_0000_0000
  {
    bc[..if |bc| < 2 then |bc| else 2] + BigEndian32(baud) + bc[if |bc| < 6 then |bc| else 6..]
  }

  /** `bytearray(cv)`: a number n gives n zero bytes. */
  function AsBytes(f: Field): seq<byte> {
    match f
    case Num(_, n) => seq(n, i => 0)
    case Blob(_, d) => d
  }

  function EditCommandField(x: nat, f: Field): Field {
    if f.number == 2 then Num(2, x) else f
  }

  function CommandStep(x: nat): Field -> Option<Field> { f => Some(EditCommandField(x, f)) }

  function EditCommand(x: nat, b: seq<byte>): Option<seq<byte>> {
    var fs :- DecodeFields(b, StopQuietly);
    var gs :- TryMap(CommandStep(x), fs);
    Some(Encode(gs))
  }

  function EditEdgeField(x: nat, f: Field): Option<Field> {
    if f.number == 3 && f.Blob? then
      var b :- EditCommand(x, f.data);
      Some(Blob(3, b))
    else Some(f)
  }

  function EdgeStep(x: nat): Field -> Option<Field> { f => EditEdgeField(x, f) }

  function EditEdge(x: nat, b: seq<byte>): Option<seq<byte>> {
    var fs :- DecodeFields(b, StopQuietly);
    var gs :- TryMap(EdgeStep(x), fs);
    Some(Encode(gs))
  }

  function EditBusConfig(mod: Edit, f: Field): Option<Field> {
    if mod.baud.None? then Some(Blob(7, AsBytes(f)))
    else if mod.baud.value >= 0x1_0000_0000 then None
    else Some(Blob(7, Splice(AsBytes(f), mod.baud.value)))
  }

  function EditChannelField(mod: Edit, f: Field): Option<Field> {
    if f.number == 7 then EditBusConfig(mod, f)
    else if f.number == 4 && mod.interval.Some? then Some(Num(4, mod.interval.value))
    else if f.number == 9 && mod.cmdInterval.Some? then
      if f.Num? then None
      else
        var b :- EditEdge(mod.cmdInterval.value, f.data);
        Some(Blob(9, b))
    else Some(f)
  }

  /** The last field numbered 1 names the channel, when it is a number. */
  function ChannelId(parts: seq<Field>): Option<nat> {
    if parts == [] then None
    else
      var f := parts[|parts| - 1];
      if f.number == 1 then (if f.Num? then Some(f.n) else None)
      else ChannelId(parts[..|parts| - 1])
  }

  function ModOf(sets: Edits, parts: seq<Field>): Option<Edit> {
    Lookup(sets, ChannelId(parts))
  }

  function ChannelStep(mod: Option<Edit>): Field -> Option<Field> {
    f => if mod.None? then Some(f) else EditChannelField(mod.value, f)
  }

  function EditChannel(sets: Edits, b: seq<byte>): Option<seq<byte>> {
    var parts :- DecodeFields(b, StopQuietly);
    var gs :- TryMap(ChannelStep(ModOf(sets, parts)), parts);
    Some(Encode(gs))
  }

  predicate IsChannel(f: Field) { f.number == F_CHANNEL && f.Blob? }

  function EditTop(sets: Edits, f: Field): Option<Field> {
    if IsChannel(f) then
      var b :- EditChannel(sets, f.data);
      Some(Blob(F_CHANNEL, b))
    else Some(f)
  }

  function TopStep(sets: Edits): Field -> Option<Field> { f => EditTop(sets, f) }

  function TopFields(frame: seq<byte>): Option<seq<Field>> {
    if frame == [] || frame[0] != MSG_CONFIG then None else DecodeFields(frame[1..], StopQuietly)
  }

  function Rebuild(frame: seq<byte>, sets: Edits): Option<seq<byte>> {
    var fs :- TopFields(frame);
    var gs :- TryMap(TopStep(sets), fs);
    Some([MSG_CONFIG] + Encode(gs))
  }

  // ---- The loops of the script -----------------------------------------------------------

  /** Emits one field the way every level of `_rebuild` does. */
  method Emit(f: Field) returns (out: seq<byte>)
    ensures out == EncodeField(f)
  {
    var tag := EncVarint(8 * f.number + if f.Num? then 0 else 2);
    var head := EncVarint(if f.Num? then f.n else |f.data|);
    out := tag + (head + if f.Num? then [] else f.data);
  }

  /** One more field mapped and emitted. */
  lemma EmitOne(step: Field -> Option<Field>, xs: seq<Field>, done: seq<Field>, f: Field)
    requires Mapped(step, xs, done) && |done| < |xs| && step(xs[|done|]) == Some(f)
    ensures Mapped(step, xs, done + [f])
    ensures Encode(done + [f]) == Encode(done) + EncodeField(f)
  {
    EncodeConcat(done, [f]);
    assert Encode([f]) == EncodeField(f);
  }

  method RebuildCommand(x: nat, ev: seq<byte>) returns (r: Option<seq<byte>>)
    ensures r == EditCommand(x, ev)
  {
    var decoded := DecodeFieldsLoop(ev, StopQuietly);
    if decoded.None? { return None; }
    var fs, cmd: seq<byte> := decoded.value, [];
    ghost var done: seq<Field> := [];
    for i := 0 to |fs|
      invariant |done| == i && Mapped(CommandStep(x), fs, done) && cmd == Encode(done)
    {
      var f := fs[i];
      if f.number == 2 { f := Num(2, x); }
      var bytes := Emit(f);
      EmitOne(CommandStep(x), fs, done, f);
      cmd, done := cmd + bytes, done + [f];
    }
    TryMapIs(CommandStep(x), fs, done);
    return Some(cmd);
  }

  method RebuildEdge(x: nat, cv: seq<byte>) returns (r: Option<seq<byte>>)
    ensures r == EditEdge(x, cv)
  {
    var decoded := DecodeFieldsLoop(cv, StopQuietly);
    if decoded.None? { return None; }
    var fs, ed: seq<byte> := decoded.value, [];
    ghost var done: seq<Field> := [];
    for i := 0 to |fs|
      invariant |done| == i && Mapped(EdgeStep(x), fs, done) && ed == Encode(done)
    {
      var f := fs[i];
      if f.number == 3 && f.Blob? {
        var b := RebuildCommand(x, f.data);
        if b.None? {
          TryMapFails(EdgeStep(x), fs, i);
          return None;
        }
        f := Blob(3, b.value);
      }
      var bytes := Emit(f);
      EmitOne(EdgeStep(x), fs, done, f);
      ed, done := ed + bytes, done + [f];
    }
    TryMapIs(EdgeStep(x), fs, done);
    return Some(ed);
  }

  method FindMod(sets: Edits, parts: seq<Field>) returns (mod: Option<Edit>)
    ensures mod == ModOf(sets, parts)
  {
    var chId: Option<nat> := None;
    for i := 0 to |parts|
      invariant chId == ChannelId(parts[..i])
    {
      assert parts[..i + 1][..i] == parts[..i];
      if parts[i].number == 1 {
        chId := if parts[i].Num? then Some(parts[i].n) else None;
      }
    }
    assert parts[..|parts|] == parts;
    if chId.None? || chId.value !in sets { return None; }
    mod := if Blank(sets[chId.value]) then None else Some(sets[chId.value]);
  }

  /** The body of the loop over a channel's fields. */
  method EditPart(mod: Option<Edit>, part: Field) returns (r: Option<Field>)
    ensures r == ChannelStep(mod)(part)
  {
    if mod.None? { return Some(part); }
    if part.number == 7 {
      var bc := AsBytes(part);
      if mod.value.baud.Some? {
        if mod.value.baud.value >= 0x1_0000_0000 { return None; }
        bc := Splice(bc, mod.value.baud.value);
      }
      return Some(Blob(7, bc));
    }
    if part.number == 4 && mod.value.interval.Some? {
      return Some(Num(4, mod.value.interval.value));
    }
    if part.number == 9 && mod.value.cmdInterval.Some? {
      if part.Num? { return None; }
      var b := RebuildEdge(mod.value.cmdInterval.value, part.data);
      return if b.None? then None else Some(Blob(9, b.value));
    }
    return Some(part);
  }

  method RebuildChannel(sets: Edits, val: seq<byte>) returns (r: Option<seq<byte>>)
    ensures r == EditChannel(sets, val)
  {
    var decoded := DecodeFieldsLoop(val, StopQuietly);
    if decoded.None? { return None; }
    var parts, ch: seq<byte> := decoded.value, [];
    var mod := FindMod(sets, parts);
    ghost var done: seq<Field> := [];
    for i := 0 to |parts|
      invariant |done| == i && Mapped(ChannelStep(mod), parts, done) && ch == Encode(done)
    {
      var f := EditPart(mod, parts[i]);
      if f.None? {
        TryMapFails(ChannelStep(mod), parts, i);
        return None;
      }
      var bytes := Emit(f.value);
      EmitOne(ChannelStep(mod), parts, done, f.value);
      ch, done := ch + bytes, done + [f.value];
    }
    TryMapIs(ChannelStep(mod), parts, done);
    return Some(ch);
  }

  method RebuildFrame(frame: seq<byte>, sets: Edits) returns (r: Option<seq<byte>>)
    ensures r == Rebuild(frame, sets)
  {
    if frame == [] || frame[0] != MSG_CONFIG { return None; }
    var decoded := DecodeFieldsLoop(frame[1..], StopQuietly);
    if decoded.None? { return None; }
    var fs, out: seq<byte> := decoded.value, [MSG_CONFIG];
    ghost var done: seq<Field> := [];
    for i := 0 to |fs|
      invariant |done| == i && Mapped(TopStep(sets), fs, done) && out == [MSG_CONFIG] + Encode(done)
    {
      var f := fs[i];
      if f.number == F_CHANNEL && f.Blob? {
        var b := RebuildChannel(sets, f.data);
        if b.None? {
          TryMapFails(TopStep(sets), fs, i);
          return None;
        }
        f := Blob(F_CHANNEL, b.value);
      }
      var bytes := Emit(f);
      EmitOne(TopStep(sets), fs, done, f);
      Associate([MSG_CONFIG], Encode(done), bytes);
      out, done := out + bytes, done + [f];
    }
    TryMapIs(TopStep(sets), fs, done);
    return Some(out);
  }
}
