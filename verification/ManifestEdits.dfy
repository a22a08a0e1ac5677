/**
 What `_rebuild` of scripts/bench_manifest.py does to a frame, field by field, in the layout the device reads:
 which field of which message changes, and to which bytes.
 */
module ManifestEdits {
  import opened Wire
  import opened ManifestRebuild

  /** Four bytes as the big-endian number they are. */
  function Number32(d: seq<byte>): int
    requires |d| == 4
  {
    var a: int, b: int, c: int, e: int := d[0], d[1], d[2], d[3];
    0x100_0000 * a + 0x1_0000 * b + 256 * c + e
  }

  /** The baud rate sits in bytes 2 to 5 of a bus configuration; a configuration shorter than that grows. */
  predicate BusEdited(baud: Option<nat>, bc: seq<byte>, d: seq<byte>) {
    if baud.None? then d == bc
    else if |bc| >= 6 then |d| == |bc| && d[..2] == bc[..2] && d[6..] == bc[6..] && Number32(d[2..6]) == baud.value
    else if |bc| >= 2 then |d| == 6 && d[..2] == bc[..2] && Number32(d[2..]) == baud.value
    else |d| == |bc| + 4 && d[..|bc|] == bc && Number32(d[|bc|..]) == baud.value
  }

  /** A command's interval is its field 2. */
  ghost predicate CommandEdited(x: nat, b: seq<byte>, d: seq<byte>) {
    var fs, gs := DecodeFields(b, StopQuietly), DecodeFields(d, StopQuietly);
    && fs.Some? && gs.Some? && |gs.value| == |fs.value| && d == Encode(gs.value)
    && forall i | 0 <= i < |fs.value| :: gs.value[i] == if fs.value[i].number == 2 then Num(2, x) else fs.value[i]
  }

  /** The commands of an edge device are its byte fields 3. */
  ghost predicate EdgeEdited(x: nat, b: seq<byte>, d: seq<byte>) {
    var fs, gs := DecodeFields(b, StopQuietly), DecodeFields(d, StopQuietly);
    && fs.Some? && gs.Some? && |gs.value| == |fs.value| && d == Encode(gs.value)
    && forall i | 0 <= i < |fs.value| ::
         var f, g := fs.value[i], gs.value[i];
         if f.number == 3 && f.Blob? then g.number == 3 && g.Blob? && CommandEdited(x, f.data, g.data) else g == f
  }

  /** Of a channel the edit reaches the bus configuration (7), the interval (4) and the edge devices (9). */
  ghost predicate PartEdited(mod: Edit, p: Field, q: Field) {
    if p.number == 7 then
      q.Blob? && q.number == 7 && BusEdited(mod.baud, if p.Blob? then p.data else seq(p.n, i => 0), q.data)
    else if p.number == 4 && mod.interval.Some? then q == Num(4, mod.interval.value)
    else if p.number == 9 && mod.cmdInterval.Some? then
      p.Blob? && q.Blob? && q.number == 9 && EdgeEdited(mod.cmdInterval.value, p.data, q.data)
    else q == p
  }

  /** The fields of a channel name it by their last field 1; an edit without options does not count. */
  ghost predicate Names(sets: Edits, parts: seq<Field>, mod: Edit) {
    exists j :: 0 <= j < |parts| && parts[j].number == 1 && parts[j].Num?
      && (forall k | j < k < |parts| :: parts[k].number != 1)
      && parts[j].n in sets && mod == sets[parts[j].n] && mod != Edit(None, None, None, false)
  }

  ghost predicate ChannelEdited(sets: Edits, b: seq<byte>, d: seq<byte>) {
    var ps, qs := DecodeFields(b, StopQuietly), DecodeFields(d, StopQuietly);
    && ps.Some? && qs.Some? && |qs.value| == |ps.value| && d == Encode(qs.value)
    && (forall mod | Names(sets, ps.value, mod) ::
          forall i | 0 <= i < |ps.value| :: PartEdited(mod, ps.value[i], qs.value[i]))
    && ((forall mod: Edit :: !Names(sets, ps.value, mod)) ==> qs.value == ps.value)
  }

  // ---- One field -----------------------------------------------------------------------------

  lemma Big32(v: nat)
    requires v < 0x1_0000_0000
    ensures Number32(BigEndian32(v)) == v
  {
  }

  lemma BusEdits(bc: seq<byte>, baud: nat)
    requires baud < 0x1_0000_0000
    ensures BusEdited(Some(baud), bc, Splice(bc, baud))
  {
    Big32(baud);
    hide BigEndian32, Number32;
    var d, r := Splice(bc, baud), BigEndian32(baud);
    if |bc| >= 6 {
      assert d[..2] == bc[..2] && d[2..6] == r && d[6..] == bc[6..];
    } else if |bc| >= 2 {
      assert d[..2] == bc[..2] && d[2..] == r;
    } else {
      assert d[..|bc|] == bc && d[|bc|..] == r;
    }
  }

  lemma CommandEdits(x: nat, b: seq<byte>)
    requires EditCommand(x, b).Some?
    ensures CommandEdited(x, b, EditCommand(x, b).value)
  {
    var gs := TryMap(CommandStep(x), DecodeFields(b, StopQuietly).value).value;
    DecodeEncode(gs, StopQuietly);
  }

  lemma EdgeEdits(x: nat, b: seq<byte>)
    requires EditEdge(x, b).Some?
    ensures EdgeEdited(x, b, EditEdge(x, b).value)
  {
    var fs := DecodeFields(b, StopQuietly).value;
    var gs := TryMap(EdgeStep(x), fs).value;
    DecodeEncode(gs, StopQuietly);
    hide CommandEdited, Encode;
    forall i | 0 <= i < |fs|
      ensures if fs[i].number == 3 && fs[i].Blob?
              then gs[i].number == 3 && gs[i].Blob? && CommandEdited(x, fs[i].data, gs[i].data) else gs[i] == fs[i]
    {
      assert EdgeStep(x)(fs[i]) == Some(gs[i]);
      if fs[i].number == 3 && fs[i].Blob? { CommandEdits(x, fs[i].data); }
    }
  }

  lemma PartEdits(mod: Edit, p: Field)
    requires EditChannelField(mod, p).Some?
    ensures PartEdited(mod, p, EditChannelField(mod, p).value)
  {
    hide EdgeEdited, BusEdited, Splice;
    if p.number == 7 {
      if mod.baud.Some? { BusEdits(AsBytes(p), mod.baud.value); } else { BusStays(AsBytes(p)); }
    } else if p.number == 9 && mod.cmdInterval.Some? {
      EdgeEdits(mod.cmdInterval.value, p.data);
    }
  }

  lemma BusStays(bc: seq<byte>)
    ensures BusEdited(None, bc, bc)
  {
  }

  // ---- A channel -----------------------------------------------------------------------------

  lemma {:induction false} LastIdIs(parts: seq<Field>, j: nat)
    requires j < |parts| && parts[j].number == 1 && forall k | j < k < |parts| :: parts[k].number != 1
    ensures ChannelId(parts) == if parts[j].Num? then Some(parts[j].n) else None
    decreases |parts|
  {
    if j < |parts| - 1 { LastIdIs(parts[..|parts| - 1], j); }
  }

  lemma {:induction false} IdIsLast(parts: seq<Field>) returns (j: nat)
    requires ChannelId(parts).Some?
    ensures j < |parts| && parts[j].number == 1 && parts[j].Num? && parts[j].n == ChannelId(parts).value
    ensures forall k | j < k < |parts| :: parts[k].number != 1
    decreases |parts|
  {
    var n := |parts| - 1;
    if parts[n].number == 1 { j := n; } else { j := IdIsLast(parts[..n]); }
  }

  /** The script's search finds the edit the channel is named in. */
  lemma ModIsNamed(sets: Edits, parts: seq<Field>, mod: Edit)
    ensures Names(sets, parts, mod) <==> ModOf(sets, parts) == Some(mod)
  {
    if Names(sets, parts, mod) {
      var j :| 0 <= j < |parts| && parts[j].number == 1 && parts[j].Num?
        && (forall k | j < k < |parts| :: parts[k].number != 1)
        && parts[j].n in sets && mod == sets[parts[j].n] && mod != Edit(None, None, None, false);
      LastIdIs(parts, j);
    }
    if ModOf(sets, parts) == Some(mod) {
      var j := IdIsLast(parts);
    }
  }

  lemma ChannelEdits(sets: Edits, b: seq<byte>)
    requires EditChannel(sets, b).Some?
    ensures ChannelEdited(sets, b, EditChannel(sets, b).value)
  {
    hide PartEdited, Names, EditChannelField, ModOf, Encode;
    var ps := DecodeFields(b, StopQuietly).value;
    var step := ModOf(sets, ps);
    var qs := TryMap(ChannelStep(step), ps).value;
    DecodeEncode(qs, StopQuietly);
    forall mod ensures Names(sets, ps, mod) <==> step == Some(mod) { ModIsNamed(sets, ps, mod); }
    if step.Some? {
      assert Names(sets, ps, step.value);
      forall i | 0 <= i < |ps| ensures PartEdited(step.value, ps[i], qs[i]) {
        assert ChannelStep(step)(ps[i]) == Some(qs[i]);
        PartEdits(step.value, ps[i]);
      }
    } else {
      assert forall i | 0 <= i < |ps| :: ChannelStep(step)(ps[i]) == Some(qs[i]);
    }
  }

  // ---- A frame -------------------------------------------------------------------------------

  /** Every field of the rebuilt frame: channels are edited where they are named, everything else stays. */
  lemma RebuildEdits(frame: seq<byte>, sets: Edits)
    requires Rebuild(frame, sets).Some?
    ensures var out := Rebuild(frame, sets).value;
      && |frame| > 0 && frame[0] == 0x04 && |out| > 0 && out[0] == 0x04
      && var fs, gs := DecodeFields(frame[1..], StopQuietly), DecodeFields(out[1..], StopQuietly);
         && fs.Some? && gs.Some? && |gs.value| == |fs.value| && out[1..] == Encode(gs.value)
         && forall i | 0 <= i < |fs.value| ::
              var f, g := fs.value[i], gs.value[i];
              if f.number == 4 && f.Blob?
              then g.number == 4 && g.Blob? && ChannelEdited(sets, f.data, g.data) else g == f
  {
    hide ChannelEdited, EditChannel, Encode;
    var fs := TopFields(frame).value;
    var gs := TryMap(TopStep(sets), fs).value;
    assert ([MSG_CONFIG] + Encode(gs))[1..] == Encode(gs);
    DecodeEncode(gs, StopQuietly);
    forall i | 0 <= i < |fs|
      ensures if fs[i].number == 4 && fs[i].Blob?
              then gs[i].number == 4 && gs[i].Blob? && ChannelEdited(sets, fs[i].data, gs[i].data) else gs[i] == fs[i]
    {
      assert TopStep(sets)(fs[i]) == Some(gs[i]);
      if IsChannel(fs[i]) { ChannelEdits(sets, fs[i].data); }
    }
  }
}
