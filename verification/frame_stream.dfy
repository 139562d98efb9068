/** The framed byte stream between `pocketshell sessions attach` and the daemon: a type byte, a
    big-endian length of four bytes, and the payload (crates/host-core/src/local_attach.rs and the
    reading loop of `sessions_attach` in crates/host-agent/src/main.rs). */
module FrameStream {
  import opened Basics

  type Byte = b: int | 0 <= b < 256

  const MAX_FRAME_SIZE: nat := 1024 * 1024
  const FRAME_TERMINAL_DATA: Byte := 1
  const FRAME_ERROR: Byte := 4

  datatype Frame = Frame(kind: Byte, payload: seq<Byte>)

  // ------------------------------------------------------------------ encoding

  function Be32(n: nat): (r: seq<Byte>)
    ensures |r| == 4
  {
    [(n / 0x100_0000) % 256, (n / 0x1_0000) % 256, (n / 256) % 256, n % 256]
  }

  function FromBe32(b: seq<Byte>): nat
    requires |b| == 4
  {
    (b[0] as int) * 0x100_0000 + (b[1] as int) * 0x1_0000 + (b[2] as int) * 256 + b[3]
  }

  function Be16(n: nat): (r: seq<Byte>)
    ensures |r| == 2
  {
    [(n / 256) % 256, n % 256]
  }

  function FromBe16(b: seq<Byte>): nat
    requires |b| == 2
  {
    (b[0] as int) * 256 + b[1]
  }

  /** The length is cast to 32 bits. */
  function Encode(f: Frame): seq<Byte> {
    [f.kind] + Be32(|f.payload| % 0x1_0000_0000) + f.payload
  }

  method EncodeFrame(kind: Byte, payload: seq<Byte>) returns (buf: seq<Byte>)
    ensures buf == Encode(Frame(kind, payload))
  {
    var len := |payload| % 0x1_0000_0000;
    buf := [];
    buf := buf + [kind];
    buf := buf + Be32(len);
    buf := buf + payload;
  }

  /** What the daemon makes of a resize payload (crates/host-core/src/daemon/local_ipc.rs). */
  function Resized(payload: seq<Byte>): Option<(nat, nat)> {
    if |payload| != 4 then None
    else
      var cols, rows := FromBe16(payload[..2]), FromBe16(payload[2..]);
      if cols > 0 && rows > 0 then Some((cols, rows)) else None
  }

  lemma LowByte(n: nat)
    ensures n == n / 256 * 256 + n % 256
  {
  }

  lemma BigEndianInverts(n: nat)
    ensures n < 0x1_0000_0000 ==> FromBe32(Be32(n)) == n
    ensures n < 0x1_0000 ==> FromBe16(Be16(n)) == n
  {
    var n1 := n / 256;
    var n2 := n1 / 256;
    var n3 := n2 / 256;
    assert n2 == n / 0x1_0000 && n3 == n / 0x100_0000;
    LowByte(n);
    LowByte(n1);
    LowByte(n2);
    assert n < 0x1_0000_0000 ==> n3 % 256 == n3;
    assert n < 0x1_0000 ==> n1 % 256 == n1;
  }

  /** A terminal size arrives as it was sent, unless a side is zero, and then it is ignored. */
  lemma ResizeArrives(cols: nat, rows: nat)
    requires cols < 0x1_0000 && rows < 0x1_0000
    ensures Resized(Be16(cols) + Be16(rows)) == if cols > 0 && rows > 0 then Some((cols, rows)) else None
  {
    BigEndianInverts(cols);
    BigEndianInverts(rows);
    var p := Be16(cols) + Be16(rows);
    assert p[..2] == Be16(cols) && p[2..] == Be16(rows);
  }

  // ------------------------------------------------------------------ decoding

  datatype End = Oversized | DaemonError

  /** Where the reader stands between two bytes. */
  datatype Pos = InHeader(got: seq<Byte>) | InPayload(kind: Byte, len: nat, got: seq<Byte>) | Ended(end: End)

  datatype Reader = Reader(pos: Pos, frames: seq<Frame>)

  const INIT := Reader(InHeader([]), [])

  /** A complete frame: it is handled, and an error frame ends the session. */
  function Handle(frames: seq<Frame>, f: Frame): Reader {
    Reader(if f.kind == FRAME_ERROR then Ended(DaemonError) else InHeader([]), frames + [f])
  }

  function AfterHeader(frames: seq<Frame>, header: seq<Byte>): Reader
    requires |header| == 5
  {
    var len := FromBe32(header[1..]);
    if len > MAX_FRAME_SIZE then Reader(Ended(Oversized), frames)
    else if len == 0 then Handle(frames, Frame(header[0], []))
    else Reader(InPayload(header[0], len, []), frames)
  }

  function Feed(r: Reader, b: Byte): Reader {
    match r.pos
    case Ended(_) => r
    case InHeader(got) =>
      var got := got + [b];
      if |got| == 5 then AfterHeader(r.frames, got) else r.(pos := InHeader(got))
    case InPayload(kind, len, got) =>
      var got := got + [b];
      if |got| == len then Handle(r.frames, Frame(kind, got)) else r.(pos := InPayload(kind, len, got))
  }

  function FeedAll(r: Reader, s: seq<Byte>): Reader
    decreases |s|
  {
    if s == [] then r else FeedAll(Feed(r, s[0]), s[1..])
  }

  lemma {:induction false} FeedConcat(r: Reader, a: seq<Byte>, b: seq<Byte>)
    ensures FeedAll(r, a + b) == FeedAll(FeedAll(r, a), b)
    decreases |a|
  {
    if a == [] {
      assert a + b == b;
    } else {
      assert (a + b)[1..] == a[1..] + b;
      FeedConcat(Feed(r, a[0]), a[1..], b);
    }
  }

  lemma {:induction false} FeedHeader(r: Reader, s: seq<Byte>)
    requires r.pos.InHeader? && |r.pos.got| < 5 && |r.pos.got| + |s| <= 5
    ensures |r.pos.got| + |s| < 5 ==> FeedAll(r, s) == r.(pos := InHeader(r.pos.got + s))
    ensures |r.pos.got| + |s| == 5 ==> FeedAll(r, s) == AfterHeader(r.frames, r.pos.got + s)
    decreases |s|
  {
    if s == [] {
      assert r.pos.got + s == r.pos.got;
    } else {
      assert r.pos.got + s == (r.pos.got + [s[0]]) + s[1..];
      if |s| == 1 {
        assert r.pos.got + s == r.pos.got + [s[0]];
      } else {
        FeedHeader(Feed(r, s[0]), s[1..]);
      }
    }
  }

  lemma {:induction false} FeedPayload(r: Reader, s: seq<Byte>)
    requires r.pos.InPayload? && |r.pos.got| + |s| <= r.pos.len && |r.pos.got| < r.pos.len
    ensures |r.pos.got| + |s| < r.pos.len ==> FeedAll(r, s) == r.(pos := InPayload(r.pos.kind, r.pos.len, r.pos.got + s))
    ensures |r.pos.got| + |s| == r.pos.len ==> FeedAll(r, s) == Handle(r.frames, Frame(r.pos.kind, r.pos.got + s))
    decreases |s|
  {
    if s == [] {
      assert r.pos.got + s == r.pos.got;
    } else {
      assert r.pos.got + s == (r.pos.got + [s[0]]) + s[1..];
      if |s| == 1 {
        assert r.pos.got + s == r.pos.got + [s[0]];
      } else {
        FeedPayload(Feed(r, s[0]), s[1..]);
      }
    }
  }

  lemma {:induction false} FeedEnded(r: Reader, s: seq<Byte>)
    requires r.pos.Ended?
    ensures FeedAll(r, s) == r
  {
    if s != [] {
      FeedEnded(r, s[1..]);
    }
  }

  /** From between two frames on: a header alone, a header with part of its payload, and both. */
  lemma FeedFrame(frames: seq<Frame>, header: seq<Byte>, payload: seq<Byte>)
    requires |header| == 5 && |payload| <= FromBe32(header[1..]) <= MAX_FRAME_SIZE
    ensures var r := FeedAll(Reader(InHeader([]), frames), header + payload);
            if |payload| == FromBe32(header[1..]) then r == Handle(frames, Frame(header[0], payload))
            else r == Reader(InPayload(header[0], FromBe32(header[1..]), payload), frames)
  {
    var at := Reader(InHeader([]), frames);
    FeedConcat(at, header, payload);
    FeedHeader(at, header);
    assert [] + header == header && [] + payload == payload;
    if FromBe32(header[1..]) > 0 {
      FeedPayload(AfterHeader(frames, header), payload);
    } else {
      assert payload == [];
    }
  }

  lemma FeedOversized(frames: seq<Frame>, header: seq<Byte>, rest: seq<Byte>)
    requires |header| == 5 && FromBe32(header[1..]) > 1024 * 1024
    ensures FeedAll(Reader(InHeader([]), frames), header + rest) == Reader(Ended(Oversized), frames)
  {
    var at := Reader(InHeader([]), frames);
    FeedConcat(at, header, rest);
    FeedHeader(at, header);
    assert [] + header == header;
    FeedEnded(AfterHeader(frames, header), rest);
  }

  /** The stream so far, and the rest of it. */
  lemma Resume(stream: seq<Byte>, i: nat, j: nat)
    requires i <= j <= |stream|
    ensures FeedAll(INIT, stream[..j]) == FeedAll(FeedAll(INIT, stream[..i]), stream[i..j])
    ensures FeedAll(INIT, stream) == FeedAll(FeedAll(INIT, stream[..j]), stream[j..])
  {
    assert stream[..j] == stream[..i] + stream[i..j];
    FeedConcat(INIT, stream[..i], stream[i..j]);
    assert stream == stream[..j] + stream[j..];
    FeedConcat(INIT, stream[..j], stream[j..]);
  }

  /** The loop itself on a stream that is there as a whole: header, length check, payload, handling. */
  method ReadFrames(stream: seq<Byte>) returns (r: Reader)
    ensures r == FeedAll(INIT, stream)
  {
    var i, frames := 0, [];
    while |stream| - i >= 5
      invariant 0 <= i <= |stream| && FeedAll(INIT, stream[..i]) == Reader(InHeader([]), frames)
    {
      var header := stream[i..i + 5];
      var kind, len := header[0], FromBe32(header[1..]);
      if len > MAX_FRAME_SIZE {
        Resume(stream, i, |stream|);
        Whole(stream);
        Cut(stream, i, i + 5, |stream|);
        FeedOversized(frames, header, stream[i + 5..|stream|]);
        return Reader(Ended(Oversized), frames);
      }
      var end := if i + 5 + len < |stream| then i + 5 + len else |stream|;
      var payload := stream[i + 5..end];
      Resume(stream, i, end);
      Cut(stream, i, i + 5, end);
      FeedFrame(frames, header, payload);
      if |payload| < len {
        Whole(stream);
        return Reader(InPayload(kind, len, payload), frames);
      }
      frames := frames + [Frame(kind, payload)];
      if kind == FRAME_ERROR {
        FeedEnded(Reader(Ended(DaemonError), frames), stream[end..]);
        return Reader(Ended(DaemonError), frames);
      }
      i := end;
    }
    Resume(stream, i, |stream|);
    Whole(stream);
    Cut(stream, i, i, |stream|);
    assert [] + stream[i..] == stream[i..];
    FeedHeader(Reader(InHeader([]), frames), stream[i..]);
    r := Reader(InHeader(stream[i..]), frames);
  }

  // ------------------------------------------------------------------- results

  function EncodeAll(fs: seq<Frame>): seq<Byte> {
    if fs == [] then [] else Encode(fs[0]) + EncodeAll(fs[1..])
  }

  /** The frames up to the first error frame, that one included. */
  function UpToError(fs: seq<Frame>): seq<Frame> {
    if fs == [] then [] else if fs[0].kind == 4 then [fs[0]] else [fs[0]] + UpToError(fs[1..])
  }

  predicate HasError(fs: seq<Frame>) {
    fs != [] && (fs[0].kind == 4 || HasError(fs[1..]))
  }

  lemma FeedEncoded(before: seq<Frame>, f: Frame)
    requires |f.payload| <= MAX_FRAME_SIZE
    ensures FeedAll(Reader(InHeader([]), before), Encode(f)) == Handle(before, f)
  {
    var header := [f.kind] + Be32(|f.payload|);
    BigEndianInverts(|f.payload|);
    assert header[1..] == Be32(|f.payload|) && Encode(f) == header + f.payload;
    FeedFrame(before, header, f.payload);
  }

  /** Reading the encodings of any list of frames gives back that list, up to the first error frame. */
  lemma {:induction false} DecodeInvertsEncode(before: seq<Frame>, fs: seq<Frame>)
    requires forall f <- fs :: |f.payload| <= 1024 * 1024
    ensures FeedAll(Reader(InHeader([]), before), EncodeAll(fs))
            == Reader(if HasError(fs) then Ended(DaemonError) else InHeader([]), before + UpToError(fs))
    decreases |fs|
  {
    if fs == [] {
      assert before + [] == before;
    } else {
      var f := fs[0];
      FeedEncoded(before, f);
      FeedConcat(Reader(InHeader([]), before), Encode(f), EncodeAll(fs[1..]));
      if f.kind == FRAME_ERROR {
        FeedEnded(Handle(before, f), EncodeAll(fs[1..]));
      } else {
        DecodeInvertsEncode(before + [f], fs[1..]);
        Associative(before, [f], UpToError(fs[1..]));
      }
    }
  }

  lemma {:induction false} FramesGrow(r: Reader, s: seq<Byte>)
    ensures r.frames <= FeedAll(r, s).frames
    decreases |s|
  {
    if s != [] {
      FramesGrow(Feed(r, s[0]), s[1..]);
    }
  }

  /** However far the stream has got, what has been read is a prefix of the list. */
  lemma PrefixGivesPrefix(fs: seq<Frame>, n: nat)
    requires (forall f <- fs :: |f.payload| <= MAX_FRAME_SIZE) && n <= |EncodeAll(fs)|
    ensures FeedAll(INIT, EncodeAll(fs)[..n]).frames <= UpToError(fs)
  {
    var s := EncodeAll(fs);
    Resume(s, 0, n);
    FramesGrow(FeedAll(INIT, s[..n]), s[n..]);
    DecodeInvertsEncode([], fs);
    assert [] + UpToError(fs) == UpToError(fs);
  }

  /** No frame's encoding is the beginning of another's. */
  lemma EncodingsArePrefixFree(f: Frame, g: Frame)
    requires |f.payload| < 0x1_0000_0000 && |g.payload| < 0x1_0000_0000 && Encode(f) <= Encode(g)
    ensures f == g
  {
    var a, b := Encode(f), Encode(g);
    EncodingParts(f);
    EncodingParts(g);
    assert a == b[..|a|];
    assert b[..|a|][1..5] == b[1..5];
    assert |f.payload| == |g.payload|;
    assert a == b;
  }

  lemma EncodingParts(f: Frame)
    requires |f.payload| < 0x1_0000_0000
    ensures var e := Encode(f);
            |e| == 5 + |f.payload| && e[0] == f.kind && FromBe32(e[1..5]) == |f.payload| && e[5..] == f.payload
  {
    BigEndianInverts(|f.payload|);
    assert Encode(f)[1..5] == Be32(|f.payload|);
  }

  // ------------------------------------------------------------- interruptions

  /** Bytes arrive, or the terminal has input or a new size to send. The reader waits for a header in
      the same `select!` as those, and a read of exactly five bytes that is dropped there takes the
      bytes it has already read with it; while it waits for a payload nothing else is looked at. */
  datatype Event = Arrive(chunk: seq<Byte>) | Interrupt

  function OnEvent(r: Reader, e: Event): Reader {
    match e
    case Arrive(chunk) => FeedAll(r, chunk)
    case Interrupt => if r.pos.InHeader? then r.(pos := InHeader([])) else r
  }

  function RunEvents(r: Reader, evs: seq<Event>): Reader {
    if evs == [] then r else OnEvent(RunEvents(r, evs[..|evs| - 1]), evs[|evs| - 1])
  }

  function AllBytes(evs: seq<Event>): seq<Byte> {
    if evs == [] then []
    else AllBytes(evs[..|evs| - 1]) + if evs[|evs| - 1].Arrive? then evs[|evs| - 1].chunk else []
  }

  /** The bytes that are not lost to an interruption. */
  function Kept(evs: seq<Event>): (k: seq<Byte>)
    ensures |k| <= |AllBytes(evs)|
  {
    if evs == [] then []
    else
      var before, e := evs[..|evs| - 1], evs[|evs| - 1];
      var r := RunEvents(INIT, before);
      if e.Arrive? then Kept(before) + e.chunk
      else if r.pos.InHeader? && |r.pos.got| <= |Kept(before)| then Kept(before)[..|Kept(before)| - |r.pos.got|]
      else Kept(before)
  }

  /** Some interruption came when part of a header had been read. */
  predicate CutShort(evs: seq<Event>) {
    evs != [] &&
    (CutShort(evs[..|evs| - 1]) ||
     (evs[|evs| - 1].Interrupt? &&
      var pos := RunEvents(INIT, evs[..|evs| - 1]).pos; pos.InHeader? && pos.got != []))
  }

  /** A partly read header is the end of what has been read, and without it the reader stands between
      two frames. */
  lemma {:induction false} HeaderIsTail(s: seq<Byte>)
    ensures var r := FeedAll(INIT, s);
            r.pos.InHeader? ==>
              && |r.pos.got| <= |s| && r.pos.got == s[|s| - |r.pos.got|..]
              && FeedAll(INIT, s[..|s| - |r.pos.got|]) == r.(pos := InHeader([]))
    decreases |s|
  {
    if s != [] {
      var n := |s| - 1;
      HeaderIsTail(s[..n]);
      FeedLast(s);
      var q, r := FeedAll(INIT, s[..n]), FeedAll(INIT, s);
      HeaderGrows(q, s[n]);
      if r.pos.InHeader? {
        if r.pos.got == [] {
          Whole(s);
        } else {
          TakeTake(s, n, n - |q.pos.got|);
          TailGrows(s, |q.pos.got|);
        }
      }
    }
  }

  lemma FeedLast(s: seq<Byte>)
    requires s != []
    ensures FeedAll(INIT, s) == Feed(FeedAll(INIT, s[..|s| - 1]), s[|s| - 1])
  {
    var n := |s| - 1;
    var q := FeedAll(INIT, s[..n]);
    Resume(s, 0, n);
    assert s[n..] == [s[n]] && FeedAll(q, [s[n]]) == FeedAll(Feed(q, s[n]), []);
  }

  lemma HeaderGrows(q: Reader, b: Byte)
    ensures var r := Feed(q, b);
            r.pos.InHeader? && r.pos.got != [] ==>
              q.pos.InHeader? && r == q.(pos := InHeader(q.pos.got + [b]))
  {
  }

  lemma TailGrows(s: seq<Byte>, g: nat)
    requires g < |s|
    ensures s[|s| - g - 1..] == s[..|s| - 1][|s| - 1 - g..] + [s[|s| - 1]]
  {
  }

  /** The reader has understood exactly the bytes it kept. */
  lemma {:induction false} RunReadsKept(evs: seq<Event>)
    ensures RunEvents(INIT, evs) == FeedAll(INIT, Kept(evs))
    ensures |Kept(evs)| == |AllBytes(evs)| <==> !CutShort(evs)
    ensures !CutShort(evs) ==> Kept(evs) == AllBytes(evs)
  {
    if evs != [] {
      var before, e := evs[..|evs| - 1], evs[|evs| - 1];
      RunReadsKept(before);
      HeaderIsTail(Kept(before));
      if e.Arrive? {
        FeedConcat(INIT, Kept(before), e.chunk);
      } else {
        assert Kept(before)[..|Kept(before)|] == Kept(before);
        assert AllBytes(before) + [] == AllBytes(before);
      }
    }
  }

  /** The number of bytes behind a reader's position. */
  function Consumed(r: Reader): nat {
    |EncodeAll(r.frames)| + match r.pos
                            case InHeader(got) => |got|
                            case InPayload(_, _, got) => 5 + |got|
                            case Ended(_) => 0
  }

  lemma {:induction false} EncodeAllAppend(fs: seq<Frame>, f: Frame)
    ensures EncodeAll(fs + [f]) == EncodeAll(fs) + Encode(f)
  {
    if fs == [] {
      assert EncodeAll([f]) == Encode(f) + EncodeAll([]);
    } else {
      assert (fs + [f])[1..] == fs[1..] + [f];
      EncodeAllAppend(fs[1..], f);
    }
  }

  predicate PosOk(pos: Pos) {
    match pos
    case InHeader(got) => |got| < 5
    case InPayload(_, len, got) => |got| < len
    case Ended(_) => true
  }

  lemma {:induction false} ConsumedAll(r: Reader, s: seq<Byte>)
    requires PosOk(r.pos) && !FeedAll(r, s).pos.Ended?
    ensures Consumed(FeedAll(r, s)) == Consumed(r) + |s|
    decreases |s|
  {
    if s != [] {
      if r.pos.Ended? {
        FeedEnded(r, s);
      } else {
        var q := Feed(r, s[0]);
        if |q.frames| > |r.frames| {
          EncodeAllAppend(r.frames, q.frames[|r.frames|]);
        }
        if q.pos.Ended? {
          FeedEnded(q, s[1..]);
        } else {
          ConsumedAll(q, s[1..]);
        }
      }
    }
  }

  /** The bytes may arrive in any pieces; the reader ends up where reading the whole stream would put
      it exactly when no interruption fell into a header. */
  lemma ArrivalIsExactIff(evs: seq<Event>)
    requires !FeedAll(INIT, AllBytes(evs)).pos.Ended?
    ensures RunEvents(INIT, evs) == FeedAll(INIT, AllBytes(evs)) <==> !CutShort(evs)
  {
    RunReadsKept(evs);
    if RunEvents(INIT, evs) == FeedAll(INIT, AllBytes(evs)) {
      ConsumedAll(INIT, AllBytes(evs));
      ConsumedAll(INIT, Kept(evs));
    }
  }

  /** A key press after two bytes of a header: the frame is lost, and the next one is misread. */
  lemma KeyPressLosesFrame()
    ensures var f := Encode(Frame(FRAME_TERMINAL_DATA, [65]));
            var evs := [Arrive(f[..2]), Interrupt, Arrive(f[2..])];
            CutShort(evs) && RunEvents(INIT, evs) == Reader(InHeader([0, 0, 1, 65]), [])
  {
    var f: seq<Byte> := [1, 0, 0, 0, 1, 65];
    assert Encode(Frame(FRAME_TERMINAL_DATA, [65])) == f;
    var a, b := f[..2], f[2..];
    var evs := [Arrive(a), Interrupt, Arrive(b)];
    assert evs[..2] == [Arrive(a), Interrupt] && evs[..2][..1] == [Arrive(a)] && evs[..2][..1][..0] == [];
    FeedHeader(INIT, a);
    assert RunEvents(INIT, [Arrive(a)]) == Reader(InHeader(a), []) by {
      assert [Arrive(a)][..0] == [] && [] + a == a;
    }
    assert RunEvents(INIT, evs[..2]) == INIT;
    FeedHeader(INIT, b);
    assert [] + b == [0, 0, 1, 65];
  }

  /** The bytes of a frame: the kind, the length with its highest byte first, the payload. */
  lemma EncodingLayout(f: Frame)
    requires |f.payload| < 0x1_0000_0000
    ensures var e := Encode(f);
            && |e| == 5 + |f.payload| && e[0] == f.kind && e[5..] == f.payload
            && (e[1] as int) * 0x100_0000 + (e[2] as int) * 0x1_0000 + (e[3] as int) * 0x100 + (e[4] as int) == |f.payload|
  {
    BigEndianInverts(|f.payload|);
    EncodingParts(f);
  }

  /** And a terminal side takes two, the higher first. */
  lemma SideLayout(n: nat)
    requires n < 0x1_0000
    ensures |Be16(n)| == 2 && (Be16(n)[0] as int) * 0x100 + (Be16(n)[1] as int) == n
  {
    BigEndianInverts(n);
  }
}
