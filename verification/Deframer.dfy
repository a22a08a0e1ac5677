/**
 The frame loop of the UART slave simulator (scripts/uart_slave_sim.py): bytes arrive in arbitrary reads,
 are buffered, and are cut into requests (Jiabaida, by length byte) or lines (Techfine, by carriage return).
 */
module Deframer {
  import opened Wire

  datatype Profile = Jiabaida | Techfine

  /** A request handled, or one unrecognised byte thrown away. */
  datatype Item = Frame(bytes: seq<byte>) | Malformed(value: byte)

  const CR: byte := 13

  /** What the loop does with the bytes it holds: consume a frame, drop a byte, or wait for more. */
  datatype Move = Take(n: nat) | Drop | Wait

  predicate Header(buf: seq<byte>) { |buf| >= 2 && buf[0] == 0xDD && (buf[1] == 0xA5 || buf[1] == 0x5A) }

  /** The length a Jiabaida header announces: header, data, checksum and end byte. */
  function Announced(buf: seq<byte>): nat
    requires |buf| >= 4
  {
    var data: int := buf[3];
    7 + data
  }

  /** The position of the first carriage return, or the length. */
  function FirstCr(buf: seq<byte>): (i: nat)
    ensures i <= |buf| && (i < |buf| ==> buf[i] == CR) && CR !in buf[..i]
  {
    if buf == [] || buf[0] == CR then 0
    else
      var i := 1 + FirstCr(buf[1..]);
      assert buf[..i] == [buf[0]] + buf[1..][..i - 1];
      i
  }

  function Choose(p: Profile, buf: seq<byte>): (m: Move)
    ensures m.Take? ==> 0 < m.n <= |buf|
    ensures m.Drop? ==> buf != []
  {
    match p
    case Jiabaida =>
      if |buf| < 4 then Wait
      else if !Header(buf) then Drop
      else if |buf| < Announced(buf) then Wait
      else Take(Announced(buf))
    case Techfine =>
      if FirstCr(buf) < |buf| then Take(FirstCr(buf) + 1) else Wait
  }

  /** The bytes held, and what has been done with those before them. */
  datatype State = State(buf: seq<byte>, items: seq<Item>)

  function Advance(s: State, m: Move): State
    requires (m.Take? ==> m.n <= |s.buf|) && (m.Drop? ==> s.buf != [])
  {
    match m
    case Take(n) => State(s.buf[n..], s.items + [Frame(s.buf[..n])])
    case Drop => State(s.buf[1..], s.items + [Malformed(s.buf[0])])
    case Wait => s
  }

  /** Everything the loop does before it reads again. */
  function Scan(p: Profile, s: State): State
    decreases |s.buf|
  {
    var m := Choose(p, s.buf);
    if m.Wait? then s else Scan(p, Advance(s, m))
  }

  /** One read of the serial port. */
  function Feed(p: Profile, s: State, chunk: seq<byte>): State { Scan(p, s.(buf := s.buf + chunk)) }

  function FeedAll(p: Profile, s: State, chunks: seq<seq<byte>>): State
    decreases |chunks|
  {
    if chunks == [] then s else FeedAll(p, Feed(p, s, chunks[0]), chunks[1..])
  }

  function Frames(items: seq<Item>): seq<seq<byte>> {
    if items == [] then []
    else
      var n := |items| - 1;
      Frames(items[..n]) + if items[n].Frame? then [items[n].bytes] else []
  }

  function MalformedCount(items: seq<Item>): nat {
    if items == [] then 0
    else
      var n := |items| - 1;
      MalformedCount(items[..n]) + if items[n].Malformed? then 1 else 0
  }

  // ---- Independence of how the stream is split -----------------------------------------------

  /** A decision made on some bytes is not changed by the bytes that follow. */
  lemma ChoiceStable(p: Profile, buf: seq<byte>, more: seq<byte>)
    requires !Choose(p, buf).Wait?
    ensures Choose(p, buf + more) == Choose(p, buf)
  {
    if p.Techfine? { FirstCrStable(buf, more); }
  }

  lemma {:induction false} FirstCrStable(buf: seq<byte>, more: seq<byte>)
    requires FirstCr(buf) < |buf|
    ensures FirstCr(buf + more) == FirstCr(buf)
    decreases |buf|
  {
    if buf[0] != CR {
      assert (buf + more)[1..] == buf[1..] + more;
      FirstCrStable(buf[1..], more);
    }
  }

  /** Processing before or after more bytes arrive comes to the same. */
  lemma {:induction false} ScanThenMore(p: Profile, s: State, more: seq<byte>)
    ensures Feed(p, Scan(p, s), more) == Feed(p, s, more)
    decreases |s.buf|
  {
    hide Choose;
    var m := Choose(p, s.buf);
    if !m.Wait? {
      ChoiceStable(p, s.buf, more);
      var t := Advance(s, m);
      ScanThenMore(p, t, more);
      var u := s.(buf := s.buf + more);
      assert Advance(u, m) == t.(buf := t.buf + more) by {
        match m
        case Take(n) => assert u.buf[..n] == s.buf[..n] && u.buf[n..] == s.buf[n..] + more;
        case Drop => assert u.buf[1..] == s.buf[1..] + more;
      }
    }
  }

  function Joined(chunks: seq<seq<byte>>): seq<byte>
    decreases |chunks|
  {
    if chunks == [] then [] else chunks[0] + Joined(chunks[1..])
  }

  lemma {:induction false} ScanSettled(p: Profile, s: State)
    ensures Choose(p, Scan(p, s).buf).Wait? && Feed(p, Scan(p, s), []) == Scan(p, s)
    decreases |s.buf|
  {
    hide Choose;
    var m := Choose(p, s.buf);
    if m.Wait? {
      assert s.buf + [] == s.buf;
    } else {
      ScanSettled(p, Advance(s, m));
    }
  }

  /**
   However a stream is split into reads, the same requests are handled in the same order, the same bytes are
   counted as malformed, and the same bytes are left over as when it arrives at once.
   */
  lemma {:induction false} SplitIndependent(p: Profile, s: State, chunks: seq<seq<byte>>)
    requires Choose(p, s.buf).Wait?
    ensures FeedAll(p, s, chunks) == Feed(p, s, Joined(chunks))
    decreases |chunks|
  {
    hide Choose;
    if chunks == [] {
      assert s.buf + [] == s.buf;
    } else {
      var t := s.(buf := s.buf + chunks[0]);
      ScanSettled(p, t);
      SplitIndependent(p, Scan(p, t), chunks[1..]);
      ScanThenMore(p, t, Joined(chunks[1..]));
      assert s.buf + Joined(chunks) == t.buf + Joined(chunks[1..]);
    }
  }

  // ---- Conservation and the bytes left over --------------------------------------------------

  function BytesOf(items: seq<Item>): seq<byte> {
    if items == [] then []
    else
      var n := |items| - 1;
      BytesOf(items[..n]) + match items[n] { case Frame(bytes) => bytes case Malformed(b) => [b] }
  }

  /** No byte is invented, reordered or lost, and the processing ends. */
  lemma {:induction false} ScanConserves(p: Profile, s: State)
    ensures BytesOf(Scan(p, s).items) + Scan(p, s).buf == BytesOf(s.items) + s.buf
    decreases |s.buf|
  {
    hide Choose;
    var m := Choose(p, s.buf);
    if !m.Wait? {
      var t := Advance(s, m);
      ScanConserves(p, t);
      assert t.items[..|t.items| - 1] == s.items;
      var n := if m.Take? then m.n else 1;
      assert s.buf == s.buf[..n] + s.buf[n..];
    }
  }

  function Lengths(frames: seq<seq<byte>>): nat {
    if frames == [] then 0 else Lengths(frames[..|frames| - 1]) + |frames[|frames| - 1]|
  }

  lemma {:induction false} BytesCounted(items: seq<Item>)
    ensures |BytesOf(items)| == Lengths(Frames(items)) + MalformedCount(items)
    decreases |items|
  {
    if items != [] {
      var n := |items| - 1;
      BytesCounted(items[..n]);
      if items[n].Frame? {
        var f := Frames(items[..n]);
        assert Frames(items) == f + [items[n].bytes];
        assert (f + [items[n].bytes])[..|f|] == f;
      } else {
        assert Frames(items) == Frames(items[..n]);
      }
    }
  }

  /** The bytes consumed are the bytes of the requests and the malformed bytes; what is left over is bounded. */
  lemma Leftover(p: Profile, chunks: seq<seq<byte>>)
    ensures var t := FeedAll(p, State([], []), chunks);
      && BytesOf(t.items) + t.buf == Joined(chunks)
      && |Joined(chunks)| == Lengths(Frames(t.items)) + MalformedCount(t.items) + |t.buf|
      && (p == Jiabaida ==> |t.buf| <= 261)
      && (p == Techfine ==> CR !in t.buf && MalformedCount(t.items) == 0)
  {
    var s := State([], []);
    var whole := s.(buf := Joined(chunks));
    assert [] + Joined(chunks) == Joined(chunks);
    assert Choose(p, []).Wait?;
    SplitIndependent(p, s, chunks);
    ScanConserves(p, whole);
    ScanSettled(p, whole);
    BytesCounted(Scan(p, whole).items);
    if p == Techfine { LinesOnly(whole); }
  }

  lemma {:induction false} LinesOnly(s: State)
    requires MalformedCount(s.items) == 0
    ensures MalformedCount(Scan(Techfine, s).items) == 0 && CR !in Scan(Techfine, s).buf
    decreases |s.buf|
  {
    var m := Choose(Techfine, s.buf);
    if m.Wait? {
      assert s.buf[..|s.buf|] == s.buf;
    } else {
      var t := Advance(s, m);
      assert t.items[..|t.items| - 1] == s.items;
      LinesOnly(t);
    }
  }

  // ---- Round trip ----------------------------------------------------------------------------

  /** A request as the collector sends it. */
  predicate WellFormed(p: Profile, f: seq<byte>) {
    match p
    case Jiabaida => |f| >= 7 && f[0] == 0xDD && (f[1] == 0xA5 || f[1] == 0x5A) && |f| == 7 + f[3] as int
    case Techfine => f != [] && f[|f| - 1] == 13 && 13 !in f[..|f| - 1]
  }

  lemma {:induction false} FirstCrOf(f: seq<byte>, rest: seq<byte>)
    requires WellFormed(Techfine, f)
    ensures FirstCr(f + rest) == |f| - 1
    decreases |f|
  {
    if |f| > 1 {
      assert f[0] in f[..|f| - 1];
      assert (f + rest)[1..] == f[1..] + rest;
      assert f[1..][..|f| - 2] == f[..|f| - 1][1..];
      FirstCrOf(f[1..], rest);
    }
  }

  function AsItems(frames: seq<seq<byte>>): (items: seq<Item>)
    ensures |items| == |frames| && forall i :: 0 <= i < |items| ==> items[i] == Frame(frames[i])
  {
    seq(|frames|, i requires 0 <= i < |frames| => Frame(frames[i]))
  }

  /** A request at the front is taken whole. */
  lemma ChooseFrame(p: Profile, f: seq<byte>, rest: seq<byte>)
    requires WellFormed(p, f)
    ensures Choose(p, f + rest) == Take(|f|)
  {
    if p.Techfine? { FirstCrOf(f, rest); }
  }

  lemma {:induction false} TakesAll(p: Profile, frames: seq<seq<byte>>, items: seq<Item>)
    requires forall f :: f in frames ==> WellFormed(p, f)
    ensures Scan(p, State(Joined(frames), items)) == State([], items + AsItems(frames))
    decreases |frames|
  {
    hide Choose, WellFormed;
    if frames == [] {
      assert Choose(p, []).Wait? by { ChooseNothing(p); }
      assert items + AsItems(frames) == items;
    } else {
      var f, rest := frames[0], Joined(frames[1..]);
      assert f in frames;
      ChooseFrame(p, f, rest);
      assert (f + rest)[..|f|] == f && (f + rest)[|f|..] == rest;
      TakesAll(p, frames[1..], items + [Frame(f)]);
      assert items + [Frame(f)] + AsItems(frames[1..]) == items + AsItems(frames);
    }
  }

  lemma ChooseNothing(p: Profile)
    ensures Choose(p, []).Wait?
  {
  }

  lemma {:induction false} DropsJunk(junk: seq<byte>, rest: seq<byte>, items: seq<Item>)
    requires 0xDD !in junk && |rest| >= 4
    ensures Scan(Jiabaida, State(junk + rest, items)) == Scan(Jiabaida, State(rest, items + Dropping(junk)))
    decreases |junk|
  {
    if junk == [] {
      assert junk + rest == rest && items + Dropping(junk) == items;
    } else {
      var s := State(junk + rest, items);
      assert s.buf[0] == junk[0] && s.buf[1..] == junk[1..] + rest;
      assert Choose(Jiabaida, s.buf) == Drop;
      DropsJunk(junk[1..], rest, items + [Malformed(junk[0])]);
      assert items + [Malformed(junk[0])] + Dropping(junk[1..]) == items + Dropping(junk);
    }
  }

  /** Bytes that cannot start a request are dropped one by one, and every request after them is found. */
  lemma Resynchronises(junk: seq<byte>, frames: seq<seq<byte>>)
    requires frames != [] && forall f :: f in frames ==> WellFormed(Jiabaida, f)
    requires 0xDD !in junk
    ensures Feed(Jiabaida, State([], []), junk + Joined(frames)) == State([], Dropping(junk) + AsItems(frames))
  {
    var rest := Joined(frames);
    assert frames[0] in frames && |frames[0]| >= 4;
    assert [] + (junk + rest) == junk + rest && [] + Dropping(junk) == Dropping(junk);
    DropsJunk(junk, rest, []);
    TakesAll(Jiabaida, frames, Dropping(junk));
  }

  function Dropping(junk: seq<byte>): (items: seq<Item>)
    ensures |items| == |junk| && forall i :: 0 <= i < |items| ==> items[i] == Malformed(junk[i])
  {
    seq(|junk|, i requires 0 <= i < |junk| => Malformed(junk[i]))
  }

  // ---- Exactly what is cut -------------------------------------------------------------------

  /** Bytes that may still become a request. */
  predicate Waits(p: Profile, b: seq<byte>) {
    match p
    case Jiabaida => |b| < 4 || (b[0] == 0xDD && (b[1] == 0xA5 || b[1] == 0x5A) && |b| < 7 + b[3] as int)
    case Techfine => 13 !in b
  }

  /** The bytes are these items, each a request or a byte at which no request starts, and then what may still
      become one. */
  predicate Cuts(p: Profile, b: seq<byte>, items: seq<Item>, left: seq<byte>)
    decreases |items|
  {
    if items == [] then b == left && Waits(p, b)
    else match items[0]
      case Frame(f) => WellFormed(p, f) && f <= b && Cuts(p, b[|f|..], items[1..], left)
      case Malformed(x) =>
        && p == Jiabaida && |b| >= 4 && b[0] == x && !(b[0] == 0xDD && (b[1] == 0xA5 || b[1] == 0x5A))
        && Cuts(p, b[1..], items[1..], left)
  }

  lemma ChoiceMeans(p: Profile, b: seq<byte>)
    ensures Choose(p, b).Wait? <==> Waits(p, b)
    ensures Choose(p, b).Take? ==> WellFormed(p, b[..Choose(p, b).n])
    ensures Choose(p, b).Drop? <==>
              p == Jiabaida && |b| >= 4 && !(b[0] == 0xDD && (b[1] == 0xA5 || b[1] == 0x5A))
  {
    if p == Techfine && FirstCr(b) == |b| { assert b[..|b|] == b; }
  }

  lemma {:induction false} ScanAppends(p: Profile, b: seq<byte>, items: seq<Item>)
    ensures Scan(p, State(b, items)) == State(Scan(p, State(b, [])).buf, items + Scan(p, State(b, [])).items)
    decreases |b|
  {
    hide Choose;
    var m := Choose(p, b);
    if m.Wait? {
      assert items + [] == items;
    } else {
      var t, u := Advance(State(b, items), m), Advance(State(b, []), m);
      ScanAppends(p, t.buf, t.items);
      ScanAppends(p, u.buf, u.items);
      assert t.items == items + u.items;
      Associate(items, u.items, Scan(p, State(u.buf, [])).items);
    }
  }

  /** The loop cuts a stream the one way it can be cut. */
  lemma {:induction false} ScanExactly(p: Profile, b: seq<byte>, items: seq<Item>, left: seq<byte>)
    ensures Scan(p, State(b, [])) == State(left, items) <==> Cuts(p, b, items, left)
    decreases |b|
  {
    hide Choose, WellFormed, Waits;
    var m := Choose(p, b);
    ChoiceMeans(p, b);
    if m.Wait? {
      if items != [] && items[0].Frame? && WellFormed(p, items[0].bytes) && items[0].bytes <= b {
        assert b == items[0].bytes + b[|items[0].bytes|..];
        ChooseFrame(p, items[0].bytes, b[|items[0].bytes|..]);
      }
    } else {
      var u := Advance(State(b, []), m);
      assert u.items == [u.items[0]];
      ScanAppends(p, u.buf, u.items);
      if items != [] {
        ScanExactly(p, u.buf, items[1..], left);
        assert items == [items[0]] + items[1..];
        if items[0].Frame? && WellFormed(p, items[0].bytes) && items[0].bytes <= b {
          ChooseFrame(p, items[0].bytes, b[|items[0].bytes|..]);
          assert b == items[0].bytes + b[|items[0].bytes|..];
        }
      }
    }
  }

  // ---- The simulator -------------------------------------------------------------------------

  class Slave {
    const profile: Profile
    const logLimit: nat
    var buf: seq<byte>
    var malformed: nat
    var requests: nat
    var log: seq<seq<byte>>
    ghost var items: seq<Item>

    constructor (profile: Profile, logLimit: nat)
      ensures this.profile == profile && this.logLimit == logLimit && Valid()
      ensures buf == [] && items == []
    {
      this.profile, this.logLimit := profile, logLimit;
      buf, malformed, requests, log, items := [], 0, 0, [], [];
    }

    /** The statistics agree with what was done. */
    ghost predicate Valid()
      reads this
    {
      && malformed == MalformedCount(items)
      && requests == |Frames(items)|
      && log == if requests <= logLimit then Frames(items) else Frames(items)[..logLimit]
    }

    /** `_mark`. */
    method Mark(frame: seq<byte>)
      modifies this`requests, this`log
      ensures requests == old(requests) + 1
      ensures log == if |old(log)| < logLimit then old(log) + [frame] else old(log)
    {
      requests := requests + 1;
      if |log| < logLimit { log := log + [frame]; }
    }

    /** The loop over the bytes held. */
    method Process()
      requires Valid()
      modifies this
      ensures Valid() && State(buf, items) == Scan(profile, old(State(buf, items)))
    {
      while buf != []
        invariant Valid()
        invariant Scan(profile, State(buf, items)) == Scan(profile, old(State(buf, items)))
        decreases |buf|
      {
        if profile.Jiabaida? {
          if |buf| >= 4 && buf[0] == 0xDD && (buf[1] == 0xA5 || buf[1] == 0x5A) {
            var end := Announced(buf);
            if |buf| < end { break; }
            Consume(end);
            continue;
          }
          if |buf| >= 4 {
            ghost var before := State(buf, items);
            items := items + [Malformed(buf[0])];
            assert items[..|items| - 1] == before.items;
            malformed := malformed + 1;
            buf := buf[1..];
            continue;
          }
          break;
        } else {
          var i := FirstCr(buf);
          if i < |buf| {
            Consume(i + 1);
            continue;
          }
          break;
        }
      }
    }

    /** Cut one frame off the front, handle it and count it. */
    method Consume(n: nat)
      requires Valid() && 0 < n <= |buf|
      modifies this
      ensures Valid() && State(buf, items) == Advance(old(State(buf, items)), Take(n))
    {
      var frame := buf[..n];
      buf := buf[n..];
      Mark(frame);
      items := items + [Frame(frame)];
      assert items[..|items| - 1] == old(items);
    }

    /** One pass of the outer loop: read, then process. */
    method Read(chunk: seq<byte>)
      requires Valid()
      modifies this
      ensures Valid() && State(buf, items) == Feed(profile, old(State(buf, items)), chunk)
    {
      buf := buf + chunk;
      Process();
    }
  }
}
