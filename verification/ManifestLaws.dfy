/**
 What `_rebuild` promises: the decoded manifest changes exactly where an edit was asked for, what
 was not named keeps its bytes, and doing it again changes nothing more.
 */
module ManifestLaws {
  import opened Wire
  import opened ManifestRebuild

  // ---- The decoded manifest, as `decode_manifest` groups it --------------------------------

  /** The last field of every number outside `skip`; a dictionary keeps the last assignment. */
  function Latest(fs: seq<Field>, skip: nat): map<nat, Field> {
    if fs == [] then map[]
    else
      var f := fs[|fs| - 1];
      var m := Latest(fs[..|fs| - 1], skip);
      if f.number == skip then m else m[f.number := f]
  }

  /** The views of the picked fields, in order; None when one of them cannot be decoded. */
  function Gather<A>(pick: Field -> bool, view: Field -> Option<A>, fs: seq<Field>): Option<seq<A>> {
    if fs == [] then Some([])
    else
      var rest :- Gather(pick, view, fs[1..]);
      if pick(fs[0]) then
        var a :- view(fs[0]);
        Some([a] + rest)
      else Some(rest)
  }

  function Each<A, B>(f: A -> B, xs: seq<A>): (r: seq<B>) {
    if xs == [] then [] else [f(xs[0])] + Each(f, xs[1..])
  }

  type CommandView = map<nat, Field>

  datatype EdgeView = EdgeView(latest: map<nat, Field>, commands: seq<CommandView>)

  datatype ChannelView = ChannelView(latest: map<nat, Field>, templates: seq<Field>, edges: seq<EdgeView>)

  /** `fields`: the manifest id, the sync id, templates and whatever else is not a channel. */
  datatype ManifestView = ManifestView(fields: seq<Field>, channels: seq<ChannelView>)

  function IsNumbered(k: nat): Field -> bool { (f: Field) => f.number == k }

  function Other(f: Field): bool { !IsChannel(f) }

  function Keep(f: Field): Option<Field> { Some(f) }

  /** The fields inside a byte field; `decode_fields` of a number is a TypeError. */
  function Inside(f: Field): Option<seq<Field>> {
    if f.Num? then None else DecodeFields(f.data, StopQuietly)
  }

  function ViewCommand(f: Field): Option<CommandView> {
    var fs :- Inside(f);
    Some(Latest(fs, 0))
  }

  function ViewEdge(f: Field): Option<EdgeView> {
    var fs :- Inside(f);
    var commands :- Gather(IsNumbered(3), ViewCommand, fs);
    Some(EdgeView(Latest(fs, 3), commands))
  }

  function ViewChannel(f: Field): Option<ChannelView> {
    var fs :- Inside(f);
    var edges :- Gather(IsNumbered(9), ViewEdge, fs);
    var templates :- Gather(IsNumbered(3), Keep, fs);
    Some(ChannelView(Latest(fs, 9), templates, edges))
  }

  /** `decode_manifest`; None where it raises. */
  function View(frame: seq<byte>): Option<ManifestView> {
    var fs :- TopFields(frame);
    var channels :- Gather(IsChannel, ViewChannel, fs);
    var fields :- Gather(Other, Keep, fs);
    Some(ManifestView(fields, channels))
  }

  // ---- The requested edits, on the decoded manifest ----------------------------------------

  function EditCommandView(x: nat): CommandView -> CommandView {
    (m: CommandView) => map k | k in m :: if k == 2 then Num(2, x) else m[k]
  }

  function EditEdgeView(x: nat): EdgeView -> EdgeView {
    (v: EdgeView) => v.(commands := Each(EditCommandView(x), v.commands))
  }

  /** A channel's own fields: the bus configuration (7) and the interval (4). */
  function EditSetting(mod: Edit, k: nat, f: Field): Field {
    if k == 7 then
      Blob(7, if mod.baud.Some? && mod.baud.value < 0x1_0000_0000
              then Splice(AsBytes(f), mod.baud.value) else AsBytes(f))
    else if k == 4 && mod.interval.Some? then Num(4, mod.interval.value)
    else f
  }

  function ModOfView(sets: Edits, latest: map<nat, Field>): Option<Edit> {
    Lookup(sets, if 1 in latest && latest[1].Num? then Some(latest[1].n) else None)
  }

  function EditChannelView(sets: Edits): ChannelView -> ChannelView {
    (v: ChannelView) => match ModOfView(sets, v.latest)
      case None => v
      case Some(mod) =>
        ChannelView(map k | k in v.latest :: EditSetting(mod, k, v.latest[k]), v.templates,
                    if mod.cmdInterval.None? then v.edges
                    else Each(EditEdgeView(mod.cmdInterval.value), v.edges))
  }

  function EditView(sets: Edits, v: ManifestView): ManifestView {
    v.(channels := Each(EditChannelView(sets), v.channels))
  }

  // ---- Decoding after rebuilding is editing after decoding ---------------------------------

  lemma {:induction false} LatestMapped(fs: seq<Field>, gs: seq<Field>, skip: nat, e: Field -> Option<Field>)
    requires Mapped(e, fs, gs) && |fs| == |gs|
    requires forall i | 0 <= i < |fs| :: gs[i].number == fs[i].number
    ensures Latest(gs, skip).Keys == Latest(fs, skip).Keys
    ensures forall k | k in Latest(fs, skip) ::
              k != skip && Latest(fs, skip)[k].number == k
              && e(Latest(fs, skip)[k]) == Some(Latest(gs, skip)[k])
  {
    if fs != [] {
      LatestMapped(fs[..|fs| - 1], gs[..|gs| - 1], skip, e);
    }
  }

  lemma {:induction false} GatherMapped<A>(pick: Field -> bool, view: Field -> Option<A>, edit: A -> A,
                                           fs: seq<Field>, gs: seq<Field>)
    requires |fs| == |gs| && forall i | 0 <= i < |fs| :: pick(fs[i]) == pick(gs[i])
    requires forall i | 0 <= i < |fs| ::
               pick(fs[i]) && view(fs[i]).Some? ==> view(gs[i]) == Some(edit(view(fs[i]).value))
    requires Gather(pick, view, fs).Some?
    ensures Gather(pick, view, gs) == Some(Each(edit, Gather(pick, view, fs).value))
  {
    if fs != [] {
      assert pick(fs[0]) == pick(gs[0]);
      forall i | 0 <= i < |fs| - 1
        ensures pick(fs[1..][i]) == pick(gs[1..][i])
        ensures pick(fs[1..][i]) && view(fs[1..][i]).Some? ==>
                  view(gs[1..][i]) == Some(edit(view(fs[1..][i]).value))
      {
        assert pick(fs[i + 1]) == pick(gs[i + 1]);
      }
      GatherMapped(pick, view, edit, fs[1..], gs[1..]);
      if pick(fs[0]) {
        var rest := Gather(pick, view, fs[1..]).value;
        assert ([view(fs[0]).value] + rest)[1..] == rest;
      }
    }
  }

  lemma {:induction false} GatherSame<A>(pick: Field -> bool, view: Field -> Option<A>, fs: seq<Field>, gs: seq<Field>)
    requires |fs| == |gs|
    requires forall i | 0 <= i < |fs| :: pick(fs[i]) == pick(gs[i]) && (pick(fs[i]) ==> gs[i] == fs[i])
    ensures Gather(pick, view, gs) == Gather(pick, view, fs)
  {
    if fs != [] {
      assert pick(fs[0]) == pick(gs[0]);
      GatherSame(pick, view, fs[1..], gs[1..]);
    }
  }

  lemma CommandCommutes(x: nat, f: Field)
    requires ViewCommand(f).Some?
    ensures EditCommand(x, f.data).Some?
    ensures ViewCommand(Blob(3, EditCommand(x, f.data).value)) == Some(EditCommandView(x)(ViewCommand(f).value))
  {
    var fs := Inside(f).value;
    var gs := TryMap(CommandStep(x), fs).value;
    DecodeEncode(gs, StopQuietly);
    LatestMapped(fs, gs, 0, CommandStep(x));
    assert Latest(gs, 0) == EditCommandView(x)(Latest(fs, 0));
  }

  lemma EdgeCommutes(x: nat, f: Field)
    requires ViewEdge(f).Some?
    ensures EditEdge(x, f.data).Some?
    ensures ViewEdge(Blob(9, EditEdge(x, f.data).value)) == Some(EditEdgeView(x)(ViewEdge(f).value))
  {
    hide Encode, EncodeField, Latest, Gather;
    var fs := Inside(f).value;
    GatherTotal(IsNumbered(3), ViewCommand, fs);
    forall i | 0 <= i < |fs| && fs[i].number == 3
      ensures EdgeStep(x)(fs[i]).Some?
      ensures ViewCommand(EdgeStep(x)(fs[i]).value) == Some(EditCommandView(x)(ViewCommand(fs[i]).value))
    {
      CommandCommutes(x, fs[i]);
    }
    assert TryMap(EdgeStep(x), fs).Some?;
    var gs := TryMap(EdgeStep(x), fs).value;
    DecodeEncode(gs, StopQuietly);
    GatherMapped(IsNumbered(3), ViewCommand, EditCommandView(x), fs, gs);
    LatestMapped(fs, gs, 3, EdgeStep(x));
    assert Latest(gs, 3) == Latest(fs, 3);
  }

  lemma {:induction false} GatherTotal<A>(pick: Field -> bool, view: Field -> Option<A>, fs: seq<Field>)
    requires Gather(pick, view, fs).Some?
    ensures forall i | 0 <= i < |fs| && pick(fs[i]) :: view(fs[i]).Some?
  {
    if fs != [] {
      GatherTotal(pick, view, fs[1..]);
      forall i | 0 <= i < |fs| && pick(fs[i])
        ensures view(fs[i]).Some?
      {
        assert i > 0 ==> fs[i] == fs[1..][i - 1];
      }
    }
  }

  /** The script's search for the channel id finds the last field numbered 1. */
  lemma {:induction false} IdIsLatest(sets: Edits, fs: seq<Field>)
    ensures ModOf(sets, fs) == ModOfView(sets, Latest(fs, 9))
    ensures ChannelId(fs) == if 1 in Latest(fs, 9) && Latest(fs, 9)[1].Num? then Some(Latest(fs, 9)[1].n) else None
  {
    if fs != [] {
      IdIsLatest(sets, fs[..|fs| - 1]);
    }
  }

  lemma StepKeepsNumber(mod: Option<Edit>, f: Field)
    requires ChannelStep(mod)(f).Some?
    ensures var g := ChannelStep(mod)(f).value;
            g.number == f.number
            && (f.number != 9 ==> g == if mod.None? then f else EditSetting(mod.value, f.number, f))
            && (f.number == 9 && (mod.None? || mod.value.cmdInterval.None?) ==> g == f)
  {
  }

  lemma SettingsCommute(mod: Edit, fs: seq<Field>, gs: seq<Field>)
    requires Mapped(ChannelStep(Some(mod)), fs, gs) && |fs| == |gs|
    ensures Latest(gs, 9) == map k | k in Latest(fs, 9) :: EditSetting(mod, k, Latest(fs, 9)[k])
  {
    var step := ChannelStep(Some(mod));
    forall i | 0 <= i < |fs|
      ensures gs[i].number == fs[i].number
    {
      StepKeepsNumber(Some(mod), fs[i]);
    }
    LatestMapped(fs, gs, 9, step);
    forall k | k in Latest(fs, 9)
      ensures Latest(gs, 9)[k] == EditSetting(mod, k, Latest(fs, 9)[k])
    {
      StepKeepsNumber(Some(mod), Latest(fs, 9)[k]);
    }
  }

  lemma EdgesCommute(mod: Edit, fs: seq<Field>, gs: seq<Field>)
    requires Mapped(ChannelStep(Some(mod)), fs, gs) && |fs| == |gs|
    requires Gather(IsNumbered(9), ViewEdge, fs).Some?
    ensures Gather(IsNumbered(9), ViewEdge, gs)
         == Some(var edges := Gather(IsNumbered(9), ViewEdge, fs).value;
                 if mod.cmdInterval.None? then edges else Each(EditEdgeView(mod.cmdInterval.value), edges))
  {
    forall i | 0 <= i < |fs|
      ensures gs[i].number == fs[i].number
      ensures fs[i].number == 9 && mod.cmdInterval.None? ==> gs[i] == fs[i]
    {
      StepKeepsNumber(Some(mod), fs[i]);
    }
    if mod.cmdInterval.None? {
      GatherSame(IsNumbered(9), ViewEdge, fs, gs);
    } else {
      var x := mod.cmdInterval.value;
      GatherTotal(IsNumbered(9), ViewEdge, fs);
      forall i | 0 <= i < |fs| && fs[i].number == 9
        ensures ViewEdge(gs[i]) == Some(EditEdgeView(x)(ViewEdge(fs[i]).value))
      {
        EdgeCommutes(x, fs[i]);
      }
      GatherMapped(IsNumbered(9), ViewEdge, EditEdgeView(x), fs, gs);
    }
  }

  lemma TemplatesCommute(mod: Option<Edit>, fs: seq<Field>, gs: seq<Field>)
    requires Mapped(ChannelStep(mod), fs, gs) && |fs| == |gs|
    ensures Gather(IsNumbered(3), Keep, gs) == Gather(IsNumbered(3), Keep, fs)
  {
    forall i | 0 <= i < |fs|
      ensures gs[i].number == fs[i].number && (fs[i].number == 3 ==> gs[i] == fs[i])
    {
      StepKeepsNumber(mod, fs[i]);
    }
    GatherSame(IsNumbered(3), Keep, fs, gs);
  }

  lemma ChannelCommutes(sets: Edits, f: Field)
    requires ViewChannel(f).Some? && EditChannel(sets, f.data).Some?
    ensures ViewChannel(Blob(F_CHANNEL, EditChannel(sets, f.data).value))
         == Some(EditChannelView(sets)(ViewChannel(f).value))
  {
    var fs := Inside(f).value;
    var mod := ModOf(sets, fs);
    var gs := TryMap(ChannelStep(mod), fs).value;
    DecodeEncode(gs, StopQuietly);
    assert Inside(Blob(F_CHANNEL, EditChannel(sets, f.data).value)) == Some(gs);
    IdIsLatest(sets, fs);
    TemplatesCommute(mod, fs, gs);
    if mod.None? {
      assert gs == fs;
    } else {
      SettingsCommute(mod.value, fs, gs);
      EdgesCommute(mod.value, fs, gs);
    }
  }

  /** Decoding the rebuilt frame gives the decoded frame with the requested edits, at all three
      levels and nowhere else. */
  lemma RebuildCommutes(frame: seq<byte>, sets: Edits)
    requires View(frame).Some? && Rebuild(frame, sets).Some?
    ensures View(Rebuild(frame, sets).value) == Some(EditView(sets, View(frame).value))
  {
    var fs := TopFields(frame).value;
    var gs := TryMap(TopStep(sets), fs).value;
    assert ([MSG_CONFIG] + Encode(gs))[1..] == Encode(gs);
    DecodeEncode(gs, StopQuietly);
    GatherSame(Other, Keep, fs, gs);
    GatherTotal(IsChannel, ViewChannel, fs);
    forall i | 0 <= i < |fs| && IsChannel(fs[i])
      ensures ViewChannel(gs[i]) == Some(EditChannelView(sets)(ViewChannel(fs[i]).value))
    {
      ChannelCommutes(sets, fs[i]);
    }
    GatherMapped(IsChannel, ViewChannel, EditChannelView(sets), fs, gs);
  }

  // ---- When rebuilding raises ----------------------------------------------------------------

  /** A channel asks for a baud rate of 33 bits or more and has a bus configuration to put it in. */
  predicate BaudOverflows(sets: Edits, f: Field) {
    && IsChannel(f) && Inside(f).Some?
    && var fs := Inside(f).value;
       var mod := ModOf(sets, fs);
       && mod.Some? && mod.value.baud.Some? && mod.value.baud.value >= 0x1_0000_0000
       && exists p :: p in fs && p.number == 7
  }

  lemma ChannelRaises(sets: Edits, f: Field)
    requires IsChannel(f) && ViewChannel(f).Some?
    ensures EditChannel(sets, f.data).Some? <==> !BaudOverflows(sets, f)
  {
    var fs := Inside(f).value;
    var mod := ModOf(sets, fs);
    GatherTotal(IsNumbered(9), ViewEdge, fs);
    forall i | 0 <= i < |fs|
      ensures ChannelStep(mod)(fs[i]).None? <==>
                fs[i].number == 7 && mod.Some? && mod.value.baud.Some? && mod.value.baud.value >= 0x1_0000_0000
    {
      if fs[i].number == 9 && mod.Some? && mod.value.cmdInterval.Some? {
        EdgeCommutes(mod.value.cmdInterval.value, fs[i]);
      }
    }
    if BaudOverflows(sets, f) {
      var p :| p in fs && p.number == 7;
      var i :| 0 <= i < |fs| && fs[i] == p;
      TryMapFails(ChannelStep(mod), fs, i);
    }
  }

  /** On a frame `decode_manifest` can read, rebuilding raises exactly when some channel's new
      baud rate does not fit the four bytes it is written to. */
  lemma RebuildRaises(frame: seq<byte>, sets: Edits)
    requires View(frame).Some?
    ensures Rebuild(frame, sets).None? <==> exists f :: f in TopFields(frame).value && BaudOverflows(sets, f)
  {
    var fs := TopFields(frame).value;
    GatherTotal(IsChannel, ViewChannel, fs);
    forall i | 0 <= i < |fs|
      ensures TopStep(sets)(fs[i]).None? <==> BaudOverflows(sets, fs[i])
    {
      if IsChannel(fs[i]) {
        ChannelRaises(sets, fs[i]);
      }
    }
    if exists f :: f in fs && BaudOverflows(sets, f) {
      var f :| f in fs && BaudOverflows(sets, f);
      var i :| 0 <= i < |fs| && fs[i] == f;
      TryMapFails(TopStep(sets), fs, i);
    }
  }

  // ---- What is not named keeps its bytes -----------------------------------------------------

  /** The bytes are the shortest encoding of some fields. */
  ghost predicate Canonical(b: seq<byte>) {
    exists fs :: b == Encode(fs)
  }

  /** A channel that is not named, and a field that is not a channel, comes back as it was; a
      channel's bytes come back the same exactly when they were canonical. */
  lemma UnnamedUntouched(sets: Edits, f: Field)
    requires IsChannel(f) ==> Inside(f).Some? && ModOf(sets, Inside(f).value) == None
    ensures !IsChannel(f) ==> EditTop(sets, f) == Some(f)
    ensures IsChannel(f) ==> EditTop(sets, f).Some? && Inside(EditTop(sets, f).value) == Inside(f)
    ensures IsChannel(f) ==> (EditTop(sets, f) == Some(f) <==> Canonical(f.data))
  {
    if IsChannel(f) {
      var fs := Inside(f).value;
      TryMapIs(ChannelStep(None), fs, fs);
      DecodeEncode(fs, StopQuietly);
      if Canonical(f.data) {
        var gs :| f.data == Encode(gs);
        DecodeEncode(gs, StopQuietly);
      }
    }
  }

  /** A channel whose tag uses two bytes where one would do: not named, yet rewritten. */
  lemma LongTagIsRewritten()
    ensures EditChannel(map[], [0x88, 0x00, 5]) == Some([0x08, 5])
  {
    var b: seq<byte> := [0x88, 0x00, 5];
    assert ReadVarint(b[1..]) == Some((0, 1));
    assert ReadVarint(b) == Some((8, 2));
    assert b[2..] == [5] && ReadVarint(b[2..]) == Some((5, 1));
    assert NextField(b, StopQuietly) == Got(Num(1, 5), 3);
    var fs := [Num(1, 5)];
    assert b[3..] == [] && fs + [] == fs;
    assert DecodeFields(b, StopQuietly) == Some(fs);
    TryMapIs(ChannelStep(None), fs, fs);
    assert ModOf(map[], fs) == None;
    assert EncodeField(Num(1, 5)) == [8, 5];
    assert Encode(fs) == [8, 5] by { assert fs[1..] == []; }
  }

  ghost predicate CanonicalFrame(frame: seq<byte>) {
    && TopFields(frame).Some? && Canonical(frame[1..])
    && forall f | f in TopFields(frame).value && IsChannel(f) :: Canonical(f.data)
  }

  /** With nothing to set, a canonical frame is returned byte for byte. */
  lemma NoEditsNoChange(frame: seq<byte>, sets: Edits)
    requires CanonicalFrame(frame) && forall id | id in sets :: Blank(sets[id])
    ensures Rebuild(frame, sets) == Some(frame)
  {
    var gs: seq<Field> :| frame[1..] == Encode(gs);
    DecodeEncode(gs, StopQuietly);
    forall i | 0 <= i < |gs|
      ensures TopStep(sets)(gs[i]) == Some(gs[i])
    {
      if IsChannel(gs[i]) {
        assert gs[i] in gs && Canonical(gs[i].data);
        var parts :| gs[i].data == Encode(parts);
        DecodeEncode(parts, StopQuietly);
      }
      UnnamedUntouched(sets, gs[i]);
    }
    TryMapIs(TopStep(sets), gs, gs);
    assert [MSG_CONFIG] + frame[1..] == frame;
  }

  // ---- Doing it twice ------------------------------------------------------------------------

  /** A channel that gets a new baud rate has a bus configuration of fewer than two bytes, so the
      first rebuild shifts the bytes the second one overwrites. */
  predicate ShortBusConfig(sets: Edits, f: Field) {
    && IsChannel(f) && Inside(f).Some?
    && var fs := Inside(f).value;
       var mod := ModOf(sets, fs);
       && mod.Some? && mod.value.baud.Some?
       && exists p :: p in fs && p.number == 7 && |AsBytes(p)| < 2
  }

  lemma SpliceTwice(bc: seq<byte>, baud: nat)
    requires baud < 0x1_0000_0000
    ensures Splice(Splice(bc, baud), baud) == Splice(bc, baud) <==> |bc| >= 2
  {
    var once := Splice(bc, baud);
    assert |bc| < 2 ==> |Splice(once, baud)| != |once|;
    if |bc| >= 2 {
      assert once[..2] == bc[..2];
      assert once[6..] == bc[if |bc| < 6 then |bc| else 6..];
    }
  }

  lemma CommandTwice(x: nat, b: seq<byte>)
    requires EditCommand(x, b).Some?
    ensures EditCommand(x, EditCommand(x, b).value) == EditCommand(x, b)
  {
    var fs := DecodeFields(b, StopQuietly).value;
    var gs := TryMap(CommandStep(x), fs).value;
    DecodeEncode(gs, StopQuietly);
    TryMapIs(CommandStep(x), gs, gs);
  }

  lemma EdgeTwice(x: nat, b: seq<byte>)
    requires EditEdge(x, b).Some?
    ensures EditEdge(x, EditEdge(x, b).value) == EditEdge(x, b)
  {
    var fs := DecodeFields(b, StopQuietly).value;
    var gs := TryMap(EdgeStep(x), fs).value;
    DecodeEncode(gs, StopQuietly);
    forall i | 0 <= i < |gs|
      ensures EdgeStep(x)(gs[i]) == Some(gs[i])
    {
      if fs[i].number == 3 && fs[i].Blob? {
        CommandTwice(x, fs[i].data);
      }
    }
    TryMapIs(EdgeStep(x), gs, gs);
  }

  lemma PartTwice(mod: Edit, f: Field)
    requires EditChannelField(mod, f).Some?
    ensures var g := EditChannelField(mod, f).value;
            EditChannelField(mod, g).Some?
            && (EditChannelField(mod, g) == Some(g) <==> !(f.number == 7 && mod.baud.Some? && |AsBytes(f)| < 2))
  {
    if f.number == 7 && mod.baud.Some? {
      SpliceTwice(AsBytes(f), mod.baud.value);
    } else if f.number == 9 && mod.cmdInterval.Some? {
      EdgeTwice(mod.cmdInterval.value, f.data);
    }
  }

  /** The edit does not change which channel it is. */
  lemma {:induction false} SameId(mod: Option<Edit>, fs: seq<Field>, gs: seq<Field>)
    requires Mapped(ChannelStep(mod), fs, gs) && |fs| == |gs|
    ensures ChannelId(gs) == ChannelId(fs)
  {
    if fs != [] {
      var n := |fs| - 1;
      assert ChannelStep(mod)(fs[n]) == Some(gs[n]);
      StepKeepsNumber(mod, fs[n]);
      SameId(mod, fs[..n], gs[..n]);
    }
  }

  lemma ChannelTwice(sets: Edits, f: Field)
    requires IsChannel(f) && EditChannel(sets, f.data).Some?
    ensures var b := EditChannel(sets, f.data).value;
            EditChannel(sets, b).Some? && (EditChannel(sets, b) == Some(b) <==> !ShortBusConfig(sets, f))
  {
    var fs := Inside(f).value;
    var mod := ModOf(sets, fs);
    var step := ChannelStep(mod);
    var gs := TryMap(step, fs).value;
    DecodeEncode(gs, StopQuietly);
    SameId(mod, fs, gs);
    assert ModOf(sets, gs) == mod;
    forall i | 0 <= i < |fs|
      ensures step(gs[i]).Some?
      ensures step(gs[i]) == Some(gs[i]) <==>
                !(mod.Some? && mod.value.baud.Some? && fs[i].number == 7 && |AsBytes(fs[i])| < 2)
    {
      if mod.Some? {
        PartTwice(mod.value, fs[i]);
      }
    }
    var hs := TryMap(step, gs).value;
    DecodeEncode(hs, StopQuietly);
    if ShortBusConfig(sets, f) {
      var p :| p in fs && p.number == 7 && |AsBytes(p)| < 2;
      var i :| 0 <= i < |fs| && fs[i] == p;
      assert hs[i] != gs[i];
    } else {
      forall i | 0 <= i < |fs|
        ensures step(gs[i]) == Some(gs[i])
      {
        assert fs[i] in fs;
      }
      TryMapIs(step, gs, gs);
    }
  }

  lemma TopTwice(sets: Edits, f: Field)
    requires TopStep(sets)(f).Some?
    ensures var g := TopStep(sets)(f).value;
            TopStep(sets)(g).Some? && (TopStep(sets)(g) == Some(g) <==> !ShortBusConfig(sets, f))
  {
    if IsChannel(f) { ChannelTwice(sets, f); }
  }

  /** Rebuilding the rebuilt frame with the same edits succeeds, and gives the same bytes exactly
      when no edited bus configuration was shorter than two bytes. */
  lemma RebuildTwice(frame: seq<byte>, sets: Edits)
    requires Rebuild(frame, sets).Some?
    ensures var out := Rebuild(frame, sets).value;
            Rebuild(out, sets).Some?
            && (Rebuild(out, sets) == Some(out) <==>
                forall f | f in TopFields(frame).value :: !ShortBusConfig(sets, f))
  {
    hide Encode, ShortBusConfig;
    var fs := TopFields(frame).value;
    var gs := TryMap(TopStep(sets), fs).value;
    assert ([MSG_CONFIG] + Encode(gs))[1..] == Encode(gs);
    DecodeEncode(gs, StopQuietly);
    forall i | 0 <= i < |fs|
      ensures TopStep(sets)(gs[i]).Some?
      ensures TopStep(sets)(gs[i]) == Some(gs[i]) <==> !ShortBusConfig(sets, fs[i])
    {
      TopTwice(sets, fs[i]);
    }
    var hs := TryMap(TopStep(sets), gs).value;
    assert ([MSG_CONFIG] + Encode(hs))[1..] == Encode(hs);
    DecodeEncode(hs, StopQuietly);
    if f :| f in fs && ShortBusConfig(sets, f) {
      var i :| 0 <= i < |fs| && fs[i] == f;
      assert hs[i] != gs[i];
    } else {
      TryMapIs(TopStep(sets), gs, gs);
    }
  }
}
