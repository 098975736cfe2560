/**
 The incremental parser of the XM media frames carried by DVRIP messages.

   FC / FE  key frame    00 00 01 FC | 8 bytes | length LE32   (header 16)
   FD       delta frame  00 00 01 FD | length LE32             (header 8)
   FA       audio        00 00 01 FA | fmt | ? | length LE16   (header 8)
   F8/F9/FB information  00 00 01 Fx | ? | ? | length LE16     (header 8, skipped)
 */
module XmParser {
  import opened Bytes

  datatype VideoCodec = H264 | H265
  datatype AudioCodec = G711U | G711A
  datatype Frame =
    | Video(annexb: seq<byte>, keyframe: bool, videoCodec: VideoCodec)
    | Audio(data: seq<byte>, audioCodec: AudioCodec)

  /** A longer declared length is a corrupt header: look for the next marker. */
  const MAX_FRAME: nat := 8 * 1024 * 1024

  predicate IsMarker(t: byte) {
    t in {0xFC, 0xFD, 0xFE, 0xFA, 0xF8, 0xF9, 0xFB}
  }

  predicate StartCodeAt(b: seq<byte>, i: nat)
    requires i + 3 <= |b|
  {
    b[i] == 0 && b[i + 1] == 0 && b[i + 2] == 1
  }

  predicate MarkerAt(b: seq<byte>, i: nat) {
    i + 3 < |b| && StartCodeAt(b, i) && IsMarker(b[i + 3])
  }

  /** `q` is the first marker at or after `from`; None: the bytes hold none. */
  ghost predicate FirstMarker(b: seq<byte>, from: nat, q: Option<nat>) {
    match q
    case None => forall i: nat :: from <= i ==> !MarkerAt(b, i)
    case Some(k) => from <= k && MarkerAt(b, k) && forall i: nat :: from <= i < k ==> !MarkerAt(b, i)
  }

  function FindMarker(b: seq<byte>, from: nat): (q: Option<nat>)
    ensures FirstMarker(b, from, q)
    decreases |b| - from
  {
    if from + 3 >= |b| then None
    else if MarkerAt(b, from) then Some(from)
    else FindMarker(b, from + 1)
  }

  /** The number of zeros that open `b`. */
  function LeadingZeros(b: seq<byte>): (n: nat)
    ensures n <= |b| && (n < |b| ==> b[n] != 0) && forall i :: 0 <= i < n ==> b[i] == 0
  {
    if b == [] || b[0] != 0 then 0 else 1 + LeadingZeros(b[1..])
  }

  /** The first NAL of a key frame is a parameter set; types 32..34 exist only in H.265. */
  function DetectCodec(annexb: seq<byte>): VideoCodec {
    var z := LeadingZeros(annexb);
    var i := if z < |annexb| && annexb[z] == 1 then z + 1 else z;
    if i < |annexb| && 32 <= annexb[i] / 2 % 64 <= 34 then H265 else H264
  }

  /** What the parser does with the front of its buffer. */
  datatype Move =
    | Wait
    | Advance(n: nat, out: seq<Frame>, codec: Option<VideoCodec>)

  function Resync(b: seq<byte>, codec: Option<VideoCodec>): Move {
    match FindMarker(b, 1)
    case None => Wait
    case Some(q) => Advance(q, [], codec)
  }

  function VideoMove(b: seq<byte>, codec: Option<VideoCodec>, hl: nat, len: nat, key: bool): Move {
    if len > MAX_FRAME then Resync(b, codec)
    else if |b| < hl + len then Wait
    else
      var nal := b[hl..hl + len];
      var c := if codec.None? && key then Some(DetectCodec(nal)) else codec;
      var shown := if c.Some? then c.value else H264;
      Advance(hl + len, if nal == [] then [] else [Video(nal, key, shown)], c)
  }

  function Step(b: seq<byte>, codec: Option<VideoCodec>): (m: Move)
    ensures m.Advance? ==> 8 <= |b| && 1 <= m.n <= |b|
  {
    if |b| < 8 then Wait
    else if !StartCodeAt(b, 0) then Resync(b, codec)
    else
      var t := b[3];
      if t == 0xFD then VideoMove(b, codec, 8, FromLe32(b, 4), false)
      else if t == 0xFC || t == 0xFE then
        if |b| < 16 then Wait else VideoMove(b, codec, 16, FromLe32(b, 12), true)
      else if t == 0xFA then
        var len := FromLe16(b, 6);
        if |b| < 8 + len then Wait
        else
          var c := if b[4] == 0x0A || b[4] == 0x07 then G711U else G711A;
          Advance(8 + len, if len > 0 then [Audio(b[8..8 + len], c)] else [], codec)
      else if t == 0xF8 || t == 0xF9 || t == 0xFB then
        var len := FromLe16(b, 6);
        if |b| < 8 + len then Wait else Advance(8 + len, [], codec)
      else Resync(b, codec)
  }

  datatype Parsed = Parsed(frames: seq<Frame>, rest: seq<byte>, codec: Option<VideoCodec>)

  /** All the frames a buffer holds, and what stays behind for the next read. */
  function Parse(b: seq<byte>, codec: Option<VideoCodec>): Parsed
    decreases |b|
  {
    match Step(b, codec)
    case Wait => Parsed([], b, codec)
    case Advance(n, out, c) =>
      var r := Parse(b[n..], c);
      Parsed(out + r.frames, r.rest, r.codec)
  }

  /** The parsing loop at offset `p`, with `out` already produced, is on its way to `all`. */
  ghost predicate Underway(all: Parsed, buf: seq<byte>, p: int, codec: Option<VideoCodec>, out: seq<Frame>) {
    0 <= p <= |buf|
    && var r := Parse(buf[p..], codec); all == Parsed(out + r.frames, r.rest, r.codec)
  }

  lemma {:induction false} LoopStarts(buf: seq<byte>, codec: Option<VideoCodec>)
    ensures Underway(Parse(buf, codec), buf, 0, codec, [])
  {
    assert buf[0..] == buf;
  }

  lemma {:induction false} LoopStep(all: Parsed, buf: seq<byte>, p: nat, codec: Option<VideoCodec>, out: seq<Frame>)
    requires Underway(all, buf, p, codec, out)
    ensures match Step(buf[p..], codec)
      case Wait => all == Parsed(out, buf[p..], codec)
      case Advance(n, more, c) => Underway(all, buf, p + n, c, out + more)
  {
    hide Step;
    match Step(buf[p..], codec)
    case Wait =>
    case Advance(n, more, c) => assert buf[p..][n..] == buf[p + n..];
  }

  /** Parsing resumed: more bytes arrive after `first` was parsed. */
  function Resume(first: Parsed, more: seq<byte>): Parsed {
    var r := Parse(first.rest + more, first.codec);
    Parsed(first.frames + r.frames, r.rest, r.codec)
  }

  // ------------------------------------------------------------ chunking

  lemma {:induction false} MarkerIsStable(b: seq<byte>, more: seq<byte>, from: nat)
    requires FindMarker(b, from).Some?
    ensures FindMarker(b + more, from) == FindMarker(b, from)
  {
    var q := FindMarker(b, from).value;
    forall i: nat | i <= q
      ensures MarkerAt(b + more, i) == MarkerAt(b, i)
    {
    }
  }

  lemma {:induction false} ResyncIsStable(b: seq<byte>, more: seq<byte>, codec: Option<VideoCodec>)
    requires Resync(b, codec).Advance?
    ensures Resync(b + more, codec) == Resync(b, codec)
  {
    hide FindMarker;
    MarkerIsStable(b, more, 1);
  }

  lemma {:induction false} VideoMoveIsStable(b: seq<byte>, more: seq<byte>, codec: Option<VideoCodec>, hl: nat,
      len: nat, key: bool)
    requires VideoMove(b, codec, hl, len, key).Advance?
    ensures VideoMove(b + more, codec, hl, len, key) == VideoMove(b, codec, hl, len, key)
  {
    hide Resync, DetectCodec;
    if len > MAX_FRAME {
      ResyncIsStable(b, more, codec);
    } else {
      assert (b + more)[hl..hl + len] == b[hl..hl + len];
    }
  }

  /** A move the parser can make, it makes in the same way when more bytes follow. */
  lemma {:induction false} StepIsStable(b: seq<byte>, more: seq<byte>, codec: Option<VideoCodec>)
    requires Step(b, codec).Advance?
    ensures Step(b + more, codec) == Step(b, codec)
  {
    hide Resync, VideoMove;
    if Resync(b, codec).Advance? {
      ResyncIsStable(b, more, codec);
    }
    if b[3] == 0xFD && VideoMove(b, codec, 8, FromLe32(b, 4), false).Advance? {
      VideoMoveIsStable(b, more, codec, 8, FromLe32(b, 4), false);
    } else if |b| >= 16 && VideoMove(b, codec, 16, FromLe32(b, 12), true).Advance? {
      VideoMoveIsStable(b, more, codec, 16, FromLe32(b, 12), true);
    }
    var len := FromLe16(b, 6);
    assert |b| >= 8 + len ==> (b + more)[8..8 + len] == b[8..8 + len];
  }

  /** Splitting the input anywhere changes neither the frames, nor the buffer left, nor the codec. */
  lemma {:induction false} ChunkingIndependence(a: seq<byte>, b: seq<byte>, codec: Option<VideoCodec>)
    ensures Parse(a + b, codec) == Resume(Parse(a, codec), b)
    decreases |a|
  {
    hide *;
    var s := Step(a, codec);
    ParseStep(a, codec);
    if s.Wait? {
      ResumeNothing(a, b, codec);
    } else {
      StepIsStable(a, b, codec);
      ParseStep(a + b, codec);
      TailJoins(a, b, s.n);
      ChunkingIndependence(a[s.n..], b, s.codec);
      ResumeLater(s.out, Parse(a[s.n..], s.codec), b);
    }
  }

  /** The first step of a parse, and the rest. */
  lemma {:induction false} ParseStep(b: seq<byte>, codec: Option<VideoCodec>)
    ensures match Step(b, codec)
      case Wait => Parse(b, codec) == Parsed([], b, codec)
      case Advance(n, out, c) =>
        (0 < n <= |b| && Parse(b, codec) == Parsed(out + Parse(b[n..], c).frames, Parse(b[n..], c).rest,
          Parse(b[n..], c).codec))
  {
    hide Step;
  }

  lemma {:induction false} ResumeNothing(a: seq<byte>, b: seq<byte>, codec: Option<VideoCodec>)
    ensures Resume(Parsed([], a, codec), b) == Parse(a + b, codec)
  {
    hide Parse;
    assert [] + Parse(a + b, codec).frames == Parse(a + b, codec).frames;
  }

  lemma {:induction false} TailJoins(a: seq<byte>, b: seq<byte>, n: nat)
    requires n <= |a|
    ensures (a + b)[n..] == a[n..] + b
  {
  }

  /** What came before stays before. */
  lemma {:induction false} ResumeLater(out: seq<Frame>, r: Parsed, b: seq<byte>)
    ensures var x := Resume(r, b);
      Resume(Parsed(out + r.frames, r.rest, r.codec), b) == Parsed(out + x.frames, x.rest, x.codec)
  {
    hide Parse;
    ConcatAssociative(out, r.frames, Parse(r.rest + b, r.codec).frames);
  }

  function FeedAll(chunks: seq<seq<byte>>, start: Parsed): Parsed {
    if chunks == [] then start else FeedAll(chunks[1..], Resume(start, chunks[0]))
  }

  /** A parsed buffer's remainder holds no further frame. */
  lemma {:induction false} ParseLeavesNothing(b: seq<byte>, codec: Option<VideoCodec>)
    ensures var r := Parse(b, codec); Parse(r.rest, r.codec) == Parsed([], r.rest, r.codec)
    decreases |b|
  {
    match Step(b, codec)
    case Wait =>
    case Advance(n, _, c) => ParseLeavesNothing(b[n..], c);
  }

  lemma {:induction false} ResumeTwice(b: seq<byte>, x: seq<byte>, y: seq<byte>, codec: Option<VideoCodec>)
    ensures Resume(Resume(Parse(b, codec), x), y) == Resume(Parse(b, codec), x + y)
  {
    hide Parse;
    ChunkingIndependence(b, x, codec);
    ChunkingIndependence(b + x, y, codec);
    ChunkingIndependence(b, x + y, codec);
    assert (b + x) + y == b + (x + y);
  }

  /** Any number of reads, of any sizes, is one read of all the bytes. */
  lemma {:induction false} AnyChunking(chunks: seq<seq<byte>>, before: seq<byte>, codec: Option<VideoCodec>)
    ensures FeedAll(chunks, Parse(before, codec)) == Parse(before + Flatten(chunks), codec)
    decreases |chunks|
  {
    hide Parse;
    if chunks == [] {
      assert before + Flatten(chunks) == before;
    } else {
      ChunkingIndependence(before, chunks[0], codec);
      AnyChunking(chunks[1..], before + chunks[0], codec);
      assert (before + chunks[0]) + Flatten(chunks[1..]) == before + Flatten(chunks);
    }
  }

  // ------------------------------------------------------------ round trip

  /** A frame as a camera writes it: a header of the documented layout and its payload. */
  datatype Wire =
    | Key(tag: byte, info: seq<byte>, data: seq<byte>)
    | Delta(data: seq<byte>)
    | Sound(fmt: byte, extra: byte, data: seq<byte>)
    | Info(tag: byte, x: byte, y: byte, data: seq<byte>)

  predicate WellFormed(w: Wire) {
    match w
    case Key(tag, info, data) => (tag == 0xFC || tag == 0xFE) && |info| == 8 && |data| <= MAX_FRAME
    case Delta(data) => |data| <= MAX_FRAME
    case Sound(_, _, data) => |data| < 0x1_0000
    case Info(tag, _, _, data) => tag in {0xF8, 0xF9, 0xFB} && |data| < 0x1_0000
  }

  function Encode(w: Wire): seq<byte> {
    match w
    case Key(tag, info, data) => [0, 0, 1, tag] + info + Le32(|data|) + data
    case Delta(data) => [0, 0, 1, 0xFD] + Le32(|data|) + data
    case Sound(fmt, extra, data) => [0, 0, 1, 0xFA, fmt, extra] + Le16(|data|) + data
    case Info(tag, x, y, data) => [0, 0, 1, tag, x, y] + Le16(|data|) + data
  }

  /** The codec known after the frame: the first key frame of a connection decides it. */
  function CodecAfter(w: Wire, codec: Option<VideoCodec>): Option<VideoCodec> {
    if w.Key? && codec.None? then Some(DetectCodec(w.data)) else codec
  }

  /** The frame a reader should get; information frames and empty payloads give none. */
  function Meaning(w: Wire, codec: Option<VideoCodec>): seq<Frame> {
    if w.Info? || w.data == [] then []
    else if w.Sound? then [Audio(w.data, if w.fmt == 0x0A || w.fmt == 0x07 then G711U else G711A)]
    else
      var c := CodecAfter(w, codec);
      [Video(w.data, w.Key?, if c.Some? then c.value else H264)]
  }

  function Meanings(ws: seq<Wire>, codec: Option<VideoCodec>): (seq<Frame>, Option<VideoCodec>) {
    if ws == [] then ([], codec)
    else
      var (fs, c) := Meanings(ws[1..], CodecAfter(ws[0], codec));
      (Meaning(ws[0], codec) + fs, c)
  }

  function EncodeAll(ws: seq<Wire>): seq<byte> {
    if ws == [] then [] else Encode(ws[0]) + EncodeAll(ws[1..])
  }

  /** `b` is a header of length `pre + |field|` bytes, then `data`, then `tail`. */
  lemma {:induction false} Layout(b: seq<byte>, pre: seq<byte>, field: seq<byte>, data: seq<byte>, tail: seq<byte>)
    requires b == pre + field + data + tail
    ensures b == pre + field + (data + tail)
    ensures var h := |pre| + |field|; |b| >= h + |data| && b[h..h + |data|] == data
    ensures forall i :: 0 <= i < |pre| ==> b[i] == pre[i]
  {
  }

  lemma {:induction false} StepReadsKey(w: Wire, tail: seq<byte>, codec: Option<VideoCodec>)
    requires w.Key? && WellFormed(w)
    ensures Step(Encode(w) + tail, codec) == Advance(|Encode(w)|, Meaning(w, codec), CodecAfter(w, codec))
  {
    hide Le32, FromLe32, FindMarker, DetectCodec, Resync;
    var b, n, pre := Encode(w) + tail, |w.data|, [0, 0, 1, w.tag] + w.info;
    Layout(b, pre, Le32(n), w.data, tail);
    Le32RoundTrip(n, pre, w.data + tail);
    assert b[3] == pre[3];
    assert Step(b, codec) == VideoMove(b, codec, 16, n, true);
  }

  lemma {:induction false} StepReadsDelta(w: Wire, tail: seq<byte>, codec: Option<VideoCodec>)
    requires w.Delta? && WellFormed(w)
    ensures Step(Encode(w) + tail, codec) == Advance(|Encode(w)|, Meaning(w, codec), CodecAfter(w, codec))
  {
    hide Le32, FromLe32, FindMarker, DetectCodec, Resync;
    var b, n, pre := Encode(w) + tail, |w.data|, [0, 0, 1, 0xFD];
    Layout(b, pre, Le32(n), w.data, tail);
    Le32RoundTrip(n, pre, w.data + tail);
    assert b[3] == pre[3];
    assert Step(b, codec) == VideoMove(b, codec, 8, n, false);
  }

  lemma {:induction false} StepReadsShort(w: Wire, tail: seq<byte>, codec: Option<VideoCodec>)
    requires (w.Sound? || w.Info?) && WellFormed(w)
    ensures Step(Encode(w) + tail, codec) == Advance(|Encode(w)|, Meaning(w, codec), CodecAfter(w, codec))
  {
    hide Le16, FromLe16, FindMarker, DetectCodec, Resync, VideoMove;
    var b, n := Encode(w) + tail, |w.data|;
    var pre := if w.Sound? then [0, 0, 1, 0xFA, w.fmt, w.extra] else [0, 0, 1, w.tag, w.x, w.y];
    Layout(b, pre, Le16(n), w.data, tail);
    Le16RoundTrip(n, pre, w.data + tail);
    assert b[3] == pre[3] && b[4] == pre[4];
  }

  lemma {:induction false} StepReadsFrame(w: Wire, tail: seq<byte>, codec: Option<VideoCodec>)
    requires WellFormed(w)
    ensures Step(Encode(w) + tail, codec) == Advance(|Encode(w)|, Meaning(w, codec), CodecAfter(w, codec))
  {
    hide *;
    if w.Key? {
      StepReadsKey(w, tail, codec);
    } else if w.Delta? {
      StepReadsDelta(w, tail, codec);
    } else {
      StepReadsShort(w, tail, codec);
    }
  }

  /** A stream of well-formed frames, cut into reads in any way, parses back to exactly those frames. */
  lemma {:induction false} StreamRoundTrip(ws: seq<Wire>, codec: Option<VideoCodec>)
    requires forall w :: w in ws ==> WellFormed(w)
    ensures Parse(EncodeAll(ws), codec) == Parsed(Meanings(ws, codec).0, [], Meanings(ws, codec).1)
    decreases |ws|
  {
    if ws != [] {
      var tail := EncodeAll(ws[1..]);
      StepReadsFrame(ws[0], tail, codec);
      assert (Encode(ws[0]) + tail)[|Encode(ws[0])|..] == tail;
      StreamRoundTrip(ws[1..], CodecAfter(ws[0], codec));
    }
  }

  lemma {:induction false} ChunkedStreamRoundTrip(ws: seq<Wire>, chunks: seq<seq<byte>>)
    requires forall w :: w in ws ==> WellFormed(w)
    requires Flatten(chunks) == EncodeAll(ws)
    ensures FeedAll(chunks, Parsed([], [], None)) == Parsed(Meanings(ws, None).0, [], Meanings(ws, None).1)
  {
    AnyChunking(chunks, [], None);
    assert [] + Flatten(chunks) == EncodeAll(ws);
    StreamRoundTrip(ws, None);
  }

  // ------------------------------------------------------------ finding the next frame again

  /** Here the bytes are those a frame opens with. */
  predicate Opens(b: seq<byte>, i: nat) {
    i + 3 < |b| && b[i..i + 3] == [0, 0, 1] && 0xF8 <= b[i + 3] <= 0xFE
  }

  /** `q` is where a frame first opens after the front; None: nowhere. */
  ghost predicate OpensFirst(b: seq<byte>, q: Option<nat>) {
    match q
    case None => forall i: nat :: 1 <= i ==> !Opens(b, i)
    case Some(k) => 1 <= k && Opens(b, k) && forall i: nat :: 1 <= i < k ==> !Opens(b, i)
  }

  lemma {:induction false} MarkerOpens(b: seq<byte>)
    ensures forall i: nat :: Opens(b, i) <==> MarkerAt(b, i)
  {
    forall i: nat
      ensures Opens(b, i) <==> MarkerAt(b, i)
    {
      assert i + 3 < |b| ==> b[i..i + 3] == [b[i], b[i + 1], b[i + 2]];
    }
  }

  /** A video header whose length no frame has. */
  predicate TooLong(b: seq<byte>)
    requires |b| >= 8
  {
    (b[3] == 0xFD && FromLe32(b, 4) > MAX_FRAME)
    || ((b[3] == 0xFC || b[3] == 0xFE) && |b| >= 16 && FromLe32(b, 12) > MAX_FRAME)
  }

  /** The bytes open with nothing a frame opens with: no marker, or the header of a frame too long. */
  predicate Corrupt(b: seq<byte>) {
    |b| >= 8 && (!Opens(b, 0) || TooLong(b))
  }

  lemma {:induction false} CorruptStep(b: seq<byte>, codec: Option<VideoCodec>)
    requires Corrupt(b)
    ensures Step(b, codec) == Resync(b, codec)
  {
    hide Resync, FromLe32, FromLe16;
    MarkerOpens(b);
    hide Opens;
  }

  /** Parsing goes on at the first marker after the front, and only there; with none, every byte is kept. */
  lemma {:induction false} GoesOnAtMarker(b: seq<byte>, codec: Option<VideoCodec>, q: Option<nat>)
    requires Corrupt(b) && OpensFirst(b, q)
    ensures q.Some? ==> q.value <= |b| && Parse(b, codec) == Parse(b[q.value..], codec)
    ensures q.None? ==> Parse(b, codec) == Parsed([], b, codec)
  {
    hide Step, FindMarker, Corrupt, Opens, MarkerAt;
    CorruptStep(b, codec);
    MarkerOpens(b);
    assert FindMarker(b, 1) == q;
    if q.Some? {
      var r := Parse(b[q.value..], codec);
      assert [] + r.frames == r.frames;
    }
  }

  /** Bytes that stand before a frame, or before the end, and belong to none. */
  datatype Piece = Piece(noise: seq<byte>, frame: Wire)

  /** No frame opens in the noise, given what follows it. */
  ghost predicate Noise(noise: seq<byte>, follows: seq<byte>) {
    noise == []
    || (Corrupt(noise + follows) && forall i: nat :: 1 <= i < |noise| ==> !Opens(noise + follows, i))
  }

  function Mixed(ps: seq<Piece>, last: seq<byte>): seq<byte> {
    if ps == [] then last else ps[0].noise + (Encode(ps[0].frame) + Mixed(ps[1..], last))
  }

  ghost predicate Noisy(ps: seq<Piece>, last: seq<byte>) {
    if ps == [] then forall i: nat :: !Opens(last, i)
    else
      Noise(ps[0].noise, Encode(ps[0].frame) + Mixed(ps[1..], last)) && WellFormed(ps[0].frame)
      && Noisy(ps[1..], last)
  }

  function Frames(ps: seq<Piece>): seq<Wire> {
    if ps == [] then [] else [ps[0].frame] + Frames(ps[1..])
  }

  lemma {:induction false} EncodedOpens(w: Wire, tail: seq<byte>)
    requires WellFormed(w)
    ensures |Encode(w)| >= 8 && Opens(Encode(w) + tail, 0)
  {
    hide Le32, Le16;
    var b := Encode(w) + tail;
    assert b[0..3] == [b[0], b[1], b[2]];
    assert |Le32(|if w.Key? || w.Delta? then w.data else []|)| == 4;
  }

  /** Noise before a frame is passed over. */
  lemma {:induction false} NoisePassed(noise: seq<byte>, w: Wire, tail: seq<byte>, codec: Option<VideoCodec>)
    requires WellFormed(w) && Noise(noise, Encode(w) + tail)
    ensures Parse(noise + (Encode(w) + tail), codec) == Parse(Encode(w) + tail, codec)
  {
    hide Parse, Corrupt, Encode, WellFormed;
    var b := Encode(w) + tail;
    if noise == [] {
      assert noise + b == b;
    } else {
      EncodedOpens(w, tail);
      assert (noise + b)[|noise|..] == b;
      assert (noise + b)[|noise|..|noise| + 3] == b[0..3];
      assert Opens(noise + b, |noise|);
      GoesOnAtMarker(noise + b, codec, Some(|noise|));
    }
  }

  /** Bytes with no marker in them give nothing and stay. */
  lemma {:induction false} NoMarkerStays(b: seq<byte>, codec: Option<VideoCodec>)
    requires forall i: nat :: !Opens(b, i)
    ensures Parse(b, codec) == Parsed([], b, codec)
  {
    hide Step;
    if |b| >= 8 {
      assert !Opens(b, 0);
      GoesOnAtMarker(b, codec, None);
    } else {
      assert Step(b, codec) == Wait by { TooShort(b, codec); }
    }
  }

  lemma {:induction false} TooShort(b: seq<byte>, codec: Option<VideoCodec>)
    requires |b| < 8
    ensures Step(b, codec) == Wait
  {
  }

  /**
   Frames among noise of any length and content in which no frame opens (garbage, unknown markers, headers of
   frames too long): every frame is read, in order, and nothing else; what follows the last one stays.
   */
  lemma {:induction false} NoisyStream(ps: seq<Piece>, last: seq<byte>, codec: Option<VideoCodec>)
    requires Noisy(ps, last)
    ensures var (frames, c) := Meanings(Frames(ps), codec);
      Parse(Mixed(ps, last), codec) == Parsed(frames, last, c)
    decreases |ps|
  {
    hide Parse, Step, Encode, WellFormed, Noise, Opens;
    if ps == [] {
      NoMarkerStays(last, codec);
    } else {
      var w, tail := ps[0].frame, Mixed(ps[1..], last);
      NoisePassed(ps[0].noise, w, tail, codec);
      StepReadsFrame(w, tail, codec);
      ParseStep(Encode(w) + tail, codec);
      assert (Encode(w) + tail)[|Encode(w)|..] == tail;
      NoisyStream(ps[1..], last, CodecAfter(w, codec));
      assert Frames(ps)[0] == w && Frames(ps)[1..] == Frames(ps[1..]);
    }
  }

  /** And so it is however the bytes are cut into reads. */
  lemma {:induction false} ChunkedNoisyStream(ps: seq<Piece>, last: seq<byte>, chunks: seq<seq<byte>>)
    requires Noisy(ps, last) && Flatten(chunks) == Mixed(ps, last)
    ensures var (frames, c) := Meanings(Frames(ps), None);
      FeedAll(chunks, Parsed([], [], None)) == Parsed(frames, last, c)
  {
    hide Noisy, Mixed, FeedAll, Meanings, Frames;
    AnyChunking(chunks, [], None);
    assert [] + Flatten(chunks) == Mixed(ps, last);
    NoisyStream(ps, last, None);
    ParseNothing([], None);
  }

  // ------------------------------------------------------------ the codec

  function Zeros(n: nat): seq<byte> {
    if n == 0 then [] else [0] + Zeros(n - 1)
  }

  lemma {:induction false} ZerosLead(n: nat, rest: seq<byte>)
    requires rest == [] || rest[0] != 0
    ensures LeadingZeros(Zeros(n) + rest) == n && |Zeros(n)| == n
  {
    if n > 0 {
      ZerosLead(n - 1, rest);
      assert (Zeros(n) + rest)[1..] == Zeros(n - 1) + rest;
    } else {
      assert Zeros(n) + rest == rest;
    }
  }

  /**
   However many zeros its start code has, a key frame is H.265 exactly if bits 1 to 6 of its first NAL's first byte are
   32, 33 or 34; so one that opens with a parameter set of H.264 never is. Without the one after the zeros, the NAL is
   taken to begin there.
   */
  lemma {:induction false} CodecDetected(n: nat, first: byte, rest: seq<byte>)
    ensures DetectCodec(Zeros(n) + [1, first] + rest) == if first % 128 in {64, 65, 66, 67, 68, 69} then H265 else H264
    ensures first % 32 in {7, 8} ==> DetectCodec(Zeros(n) + [1, first] + rest) == H264
    ensures first > 1 ==>
      DetectCodec(Zeros(n) + [first] + rest) == if first % 128 in {64, 65, 66, 67, 68, 69} then H265 else H264
  {
    var b := Zeros(n) + [1, first] + rest;
    assert b == Zeros(n) + ([1, first] + rest);
    ZerosLead(n, [1, first] + rest);
    assert b[n] == 1 && b[n + 1] == first;
    if first > 1 {
      var d := Zeros(n) + [first] + rest;
      assert d == Zeros(n) + ([first] + rest);
      ZerosLead(n, [first] + rest);
      assert d[n] == first;
    }
  }

  // ------------------------------------------------------------ talk frames

  /** One frame of speech sent to the camera; the length field is the low 16 bits. */
  function TalkFrame(alaw: seq<byte>): seq<byte> {
    [0x00, 0x00, 0x01, 0xFA, 0x0E, 0x02] + Le16(|alaw| % 0x1_0000) + alaw
  }

  lemma {:induction false} TalkFrameParsed(alaw: seq<byte>, codec: Option<VideoCodec>)
    ensures var n := |alaw| % 0x1_0000;
      var r, heard := Parse(alaw[n..], codec), Meaning(Sound(0x0E, 0x02, alaw[..n]), codec);
      Parse(TalkFrame(alaw), codec) == Parsed(heard + r.frames, r.rest, r.codec)
  {
    var b, n := TalkFrame(alaw), |alaw| % 0x1_0000;
    var w, left := Sound(0x0E, 0x02, alaw[..n]), alaw[n..];
    assert b == Encode(w) + left && b[|Encode(w)|..] == left;
    StepReadsFrame(w, left, codec);
    hide Step, Encode, Meaning;
  }

  lemma {:induction false} ParseNothing(b: seq<byte>, codec: Option<VideoCodec>)
    requires b == []
    ensures Parse(b, codec) == Parsed([], [], codec)
  {
  }

  lemma {:induction false} TalkFrameShort(alaw: seq<byte>, codec: Option<VideoCodec>)
    requires |alaw| < 0x1_0000
    ensures Parse(TalkFrame(alaw), codec) == Parsed(if alaw == [] then [] else [Audio(alaw, G711A)], [], codec)
  {
    hide *;
    var n := |alaw| % 0x1_0000;
    assert n == |alaw| && alaw[..n] == alaw && alaw[n..] == [];
    TalkFrameParsed(alaw, codec);
    ParseNothing(alaw[n..], codec);
    Heard(alaw, codec);
    var heard := Meaning(Sound(0x0E, 0x02, alaw), codec);
    assert heard + [] == heard;
  }

  lemma {:induction false} Heard(alaw: seq<byte>, codec: Option<VideoCodec>)
    ensures Meaning(Sound(0x0E, 0x02, alaw), codec) == if alaw == [] then [] else [Audio(alaw, G711A)]
  {
  }

  lemma {:induction false} TalkFrameLong(alaw: seq<byte>, codec: Option<VideoCodec>)
    requires |alaw| >= 0x1_0000
    ensures Audio(alaw, G711A) !in Parse(TalkFrame(alaw), codec).frames
  {
    var n := |alaw| % 0x1_0000;
    TalkFrameParsed(alaw, codec);
    FramesFitInput(alaw[n..], codec);
    hide Parse, TalkFrame;
    assert PayloadSize(Audio(alaw, G711A)) == |alaw|;
  }

  /** A speech frame parses back to its audio exactly when its length fits the field and is not zero. */
  lemma {:induction false} TalkFrameRoundTrip(alaw: seq<byte>, codec: Option<VideoCodec>)
    ensures Parse(TalkFrame(alaw), codec) == Parsed([Audio(alaw, G711A)], [], codec) <==> 1 <= |alaw| < 0x1_0000
  {
    hide *;
    if |alaw| < 0x1_0000 {
      TalkFrameShort(alaw, codec);
    } else {
      TalkFrameLong(alaw, codec);
      assert Audio(alaw, G711A) in [Audio(alaw, G711A)];
    }
  }

  function PayloadSize(f: Frame): nat {
    if f.Video? then |f.annexb| else |f.data|
  }

  /** A parsed frame is strictly shorter than the bytes it was found in. */
  lemma {:induction false} FramesFitInput(b: seq<byte>, codec: Option<VideoCodec>)
    ensures forall f :: f in Parse(b, codec).frames ==> PayloadSize(f) < |b|
    decreases |b|
  {
    match Step(b, codec)
    case Wait =>
    case Advance(n, out, c) =>
      FramesFitInput(b[n..], c);
      assert forall f :: f in out ==> PayloadSize(f) < |b|;
  }

  // ------------------------------------------------------------ the parser object

  class MediaParser {
    var buf: seq<byte>
    var codec: Option<VideoCodec>

    constructor ()
      ensures buf == [] && codec == None
    {
      buf, codec := [], None;
    }

    /** Appends a read to the buffer and returns the frames it completed. */
    method Feed(data: seq<byte>) returns (out: seq<Frame>)
      modifies this
      ensures Parsed(out, buf, codec) == Parse(old(buf) + data, old(codec))
    {
      hide Step, Underway, Parse;
      buf := buf + data;
      ghost var all := Parse(buf, codec);
      LoopStarts(buf, codec);
      out := [];
      var p := 0;
      while |buf| - p >= 8
        invariant 0 <= p <= |buf| && buf == old(buf) + data
        invariant Underway(all, buf, p, codec, out)
        decreases |buf| - p
      {
        LoopStep(all, buf, p, codec, out);
        var m := Step(buf[p..], codec);
        if m.Wait? {
          break;
        }
        out := out + m.out;
        codec := m.codec;
        p := p + m.n;
      }
      LoopStep(all, buf, p, codec, out);
      buf := buf[p..];
    }
  }
}
