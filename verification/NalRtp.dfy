/**
 H.264 (RFC 6184) and H.265 (RFC 7798) over RTP: one NAL per packet or a NAL in fragments,
 and the depacketizer that rebuilds the NALs. The two formats differ in the size of the NAL
 header and in where the type field sits in it; masks and shifts on a byte are written as
 quotients and remainders by powers of two.
 */
module NalRtp {
  import opened Bytes
  import opened Annexb
  import opened Rtp

  datatype Codec = H264 | H265

  /** Bytes of the NAL header. */
  function HeaderLen(c: Codec): nat {
    if c.H264? then 1 else 2
  }

  function NalType(c: Codec, b0: byte): nat {
    if c.H264? then (b0 % 32) as nat else (b0 / 2 % 64) as nat
  }

  /** The aggregation and fragmentation packet types. */
  function AggregateType(c: Codec): nat {
    if c.H264? then 24 else 48
  }

  function FragmentType(c: Codec): nat {
    if c.H264? then 28 else 49
  }

  /** The payload header of a fragment: the NAL's own with the type replaced. */
  function FragmentHeader(c: Codec, nal: seq<byte>): (h: seq<byte>)
    requires |nal| >= HeaderLen(c)
    ensures |h| == HeaderLen(c)
  {
    if c.H264? then [nal[0] / 32 * 32 + 28]
    else [nal[0] / 128 * 128 + nal[0] % 2 + 98, nal[1]]
  }

  /** The fragment header byte: start flag, end flag, original type. */
  function FuByte(c: Codec, b0: byte, start: bool, end: bool): byte {
    (NalType(c, b0) + (if start then 128 else 0) + if end then 64 else 0) as byte
  }

  /** Payload bytes a fragment can carry. */
  function Room(c: Codec, mtu: nat): int {
    mtu - HeaderLen(c) - 1
  }

  datatype Piece = Piece(payload: seq<byte>, end: bool)

  function Min(a: int, b: int): int {
    if a < b then a else b
  }

  /** The fragments of `nal` from offset `off` on. */
  function Fragments(c: Codec, nal: seq<byte>, off: nat, mtu: nat): seq<Piece>
    requires |nal| >= HeaderLen(c) && Room(c, mtu) > 0
    decreases |nal| - off
  {
    if off >= |nal| then []
    else
      var n := Min(|nal| - off, Room(c, mtu));
      var end := off + n >= |nal|;
      var fu := FuByte(c, nal[0], off == HeaderLen(c), end);
      [Piece(FragmentHeader(c, nal) + [fu] + nal[off..off + n], end)] + Fragments(c, nal, off + n, mtu)
  }

  function Pieces(c: Codec, nal: seq<byte>, mtu: nat): seq<Piece>
    requires Room(c, mtu) > 0
  {
    if |nal| <= mtu then [Piece(nal, true)]
    else if |nal| < HeaderLen(c) + 1 then []
    else Fragments(c, nal, HeaderLen(c), mtu)
  }

  /** The packets of the NALs of one access unit; only its last piece carries the marker. */
  function Stamp(pieces: seq<Piece>, lastNal: bool, pt: nat, ssrc: nat, seq0: nat, ts: nat): seq<Packet> {
    seq(|pieces|, i requires 0 <= i < |pieces| =>
      Packet(pieces[i].end && lastNal, pt, (seq0 + i) % 0x1_0000, ts, ssrc, pieces[i].payload))
  }

  function Packets(c: Codec, nals: seq<seq<byte>>, mtu: nat, pt: nat, ssrc: nat, seq0: nat, ts: nat): seq<Packet>
    requires Room(c, mtu) > 0
    decreases |nals|
  {
    if nals == [] then []
    else
      var ps := Pieces(c, nals[0], mtu);
      Stamp(ps, |nals| == 1, pt, ssrc, seq0, ts)
      + Packets(c, nals[1..], mtu, pt, ssrc, seq0 + |ps|, ts)
  }

  // ------------------------------------------------------------ depacketizing

  datatype Sample = Sample(pts: nat, keyframe: bool, data: seq<byte>)

  predicate SliceInside(nal: seq<byte>, i: nat)
    requires i + 5 <= |nal|
  {
    nal[i] == 0 && nal[i + 1] == 0
    && (if nal[i + 2] == 1 then nal[i + 3] % 32 in {1, 5}
        else nal[i + 2] == 0 && nal[i + 3] == 1 && nal[i + 4] % 32 in {1, 5})
  }

  /** An IDR, or a unit that opens with a parameter set and has a slice after a start code inside. */
  predicate UnitIsKeyframe(nal: seq<byte>) {
    nal != []
    && var t := nal[0] % 32;
    t == 5 || ((t == 7 || t == 8) && exists i :: 0 <= i <= |nal| - 5 && SliceInside(nal, i))
  }

  predicate IsKeyframe(c: Codec, nal: seq<byte>) {
    if c.H264? then UnitIsKeyframe(nal) else nal != [] && 16 <= NalType(c, nal[0]) <= 21
  }

  function SampleOf(c: Codec, nal: seq<byte>, pts: nat): Sample {
    Sample(pts, IsKeyframe(c, nal), Unit(nal))
  }

  /** Too short to be a NAL: nothing comes out. */
  function Emitted(c: Codec, nal: seq<byte>, pts: nat): seq<Sample> {
    if |nal| < HeaderLen(c) then [] else [SampleOf(c, nal, pts)]
  }

  /** The units of an aggregation packet from offset `off` on. */
  function Aggregated(c: Codec, pl: seq<byte>, off: nat, pts: nat): seq<Sample>
    decreases |pl| - off
  {
    if off + 2 > |pl| then []
    else
      var n := FromBe16(pl, off);
      if n == 0 then Aggregated(c, pl, off + 2, pts)
      else if off + 2 + n > |pl| then []
      else Emitted(c, pl[off + 2..off + 2 + n], pts) + Aggregated(c, pl, off + 2 + n, pts)
  }

  lemma {:induction false} AggregatedStep(c: Codec, pl: seq<byte>, off: nat, pts: nat)
    ensures Aggregated(c, pl, off, pts) ==
      if off + 2 > |pl| then []
      else
        var n := FromBe16(pl, off);
        if n == 0 then Aggregated(c, pl, off + 2, pts)
        else if off + 2 + n > |pl| then []
        else Emitted(c, pl[off + 2..off + 2 + n], pts) + Aggregated(c, pl, off + 2 + n, pts)
  {
    hide FromBe16, Emitted;
  }

  datatype State = State(fu: seq<byte>, started: bool, pts: nat)

  /** The NAL header a starting fragment stands for. */
  function Rebuilt(c: Codec, pl: seq<byte>): (h: seq<byte>)
    requires |pl| >= HeaderLen(c) + 1
    ensures |h| == HeaderLen(c)
  {
    if c.H264? then [pl[0] / 32 * 32 + pl[1] % 32]
    else [pl[0] / 128 * 128 + pl[0] % 2 + pl[2] % 64 * 2, pl[1]]
  }

  function FeedFragment(c: Codec, st: State, p: Packet): Fed {
    var pl, h := p.payload, HeaderLen(c);
    if |pl| < h + 1 then Fed(st, [])
    else
      var fu := pl[h];
      var st1 := if fu >= 128 then State(Rebuilt(c, pl), true, p.timestamp) else st;
      if !st1.started then Fed(st1, [])
      else
        var nal := st1.fu + pl[h + 1..];
        if fu / 64 % 2 == 1 || p.marker then Fed(State([], false, st1.pts), Emitted(c, nal, st1.pts))
        else Fed(st1.(fu := nal), [])
  }

  datatype Fed = Fed(st: State, out: seq<Sample>)

  function FeedOne(c: Codec, st: State, p: Packet): Fed {
    var pl := p.payload;
    if |pl| < HeaderLen(c) then Fed(st, [])
    else
      var t := NalType(c, pl[0]);
      if (c.H264? && 1 <= t <= 23) || (c.H265? && t <= 47) then Fed(st, Emitted(c, pl, p.timestamp))
      else if t == AggregateType(c) then Fed(st, Aggregated(c, pl, HeaderLen(c), p.timestamp))
      else if t == FragmentType(c) then FeedFragment(c, st, p)
      else Fed(st, [])
  }

  function FeedAll(c: Codec, st: State, ps: seq<Packet>): Fed
    decreases |ps|
  {
    if ps == [] then Fed(st, [])
    else
      var first := FeedOne(c, st, ps[0]);
      var rest := FeedAll(c, first.st, ps[1..]);
      Fed(rest.st, first.out + rest.out)
  }

  // ------------------------------------------------------------ what the packets look like

  lemma {:induction false} StampTail(ps: seq<Piece>, last: bool, pt: nat, ssrc: nat, seq0: nat, ts: nat)
    requires ps != []
    ensures Stamp(ps, last, pt, ssrc, seq0, ts)
      == [Packet(ps[0].end && last, pt, seq0 % 0x1_0000, ts, ssrc, ps[0].payload)]
         + Stamp(ps[1..], last, pt, ssrc, seq0 + 1, ts)
  {
  }

  /** No piece exceeds the MTU, only the last one ends, and a fragment never both starts and ends. */
  ghost predicate Cuts(c: Codec, ps: seq<Piece>, mtu: nat) {
    ps != []
    && (forall i :: 0 <= i < |ps| ==> |ps[i].payload| <= mtu)
    && forall i :: 0 <= i < |ps| ==> (ps[i].end <==> i == |ps| - 1)
  }

  lemma {:induction false} FragmentsCut(c: Codec, nal: seq<byte>, off: nat, mtu: nat)
    requires |nal| >= HeaderLen(c) && Room(c, mtu) > 0 && off < |nal|
    ensures Cuts(c, Fragments(c, nal, off, mtu), mtu)
    decreases |nal| - off
  {
    var n := Min(|nal| - off, Room(c, mtu));
    var fs := Fragments(c, nal, off, mtu);
    hide NalType, FuByte, FragmentHeader;
    if off + n < |nal| {
      FragmentsCut(c, nal, off + n, mtu);
      var rest := Fragments(c, nal, off + n, mtu);
      forall i | 0 <= i < |fs|
        ensures |fs[i].payload| <= mtu && (fs[i].end <==> i == |fs| - 1)
      {
        assert i > 0 ==> fs[i] == rest[i - 1];
      }
    } else {
      assert Fragments(c, nal, off + n, mtu) == [];
    }
  }

  lemma {:induction false} PiecesCut(c: Codec, nal: seq<byte>, mtu: nat)
    requires Room(c, mtu) > 0
    ensures Cuts(c, Pieces(c, nal, mtu), mtu)
  {
    if |nal| > mtu {
      FragmentsCut(c, nal, HeaderLen(c), mtu);
    }
  }

  lemma {:induction false} FragmentsFull(c: Codec, nal: seq<byte>, off: nat, mtu: nat)
    requires HeaderLen(c) <= |nal| && Room(c, mtu) > 0
    ensures var fs := Fragments(c, nal, off, mtu); forall i :: 0 <= i < |fs| - 1 ==> |fs[i].payload| == mtu
    decreases |nal| - off
  {
    if off < |nal| {
      var n := Min(|nal| - off, Room(c, mtu));
      FragmentsFull(c, nal, off + n, mtu);
      FragmentsEnd(c, nal, off + n, mtu);
    }
  }

  lemma {:induction false} FragmentsEnd(c: Codec, nal: seq<byte>, off: nat, mtu: nat)
    requires HeaderLen(c) <= |nal| && Room(c, mtu) > 0
    ensures Fragments(c, nal, off, mtu) == [] <==> off >= |nal|
  {
  }

  /** A NAL takes no more packets than it must: one if it fits, and otherwise all but the last are full. */
  lemma {:induction false} PiecesFull(c: Codec, nal: seq<byte>, mtu: nat)
    requires Room(c, mtu) > 0
    ensures var ps := Pieces(c, nal, mtu);
      (|nal| <= mtu ==> |ps| == 1) && forall i :: 0 <= i < |ps| - 1 ==> |ps[i].payload| == mtu
  {
    hide Fragments;
    if |nal| > mtu && |nal| > HeaderLen(c) {
      FragmentsFull(c, nal, HeaderLen(c), mtu);
      assert Pieces(c, nal, mtu) == Fragments(c, nal, HeaderLen(c), mtu);
    }
  }

  /** The packets of an access unit: numbered, within the MTU, the marker on the last one and nowhere else. */
  ghost predicate WellSent(out: seq<Packet>, mtu: nat, seq0: nat, ts: nat) {
    Numbered(out, seq0, ts)
    && (forall i :: 0 <= i < |out| ==> |out[i].payload| <= mtu)
    && forall i :: 0 <= i < |out| ==> (out[i].marker <==> i == |out| - 1)
  }

  lemma {:induction false} WellSentJoin(a: seq<Packet>, b: seq<Packet>, mtu: nat, seq0: nat, ts: nat)
    requires WellSent(b, mtu, seq0 + |a|, ts) && Numbered(a, seq0, ts)
    requires forall i :: 0 <= i < |a| ==> |a[i].payload| <= mtu && (a[i].marker <==> b == [] && i == |a| - 1)
    ensures WellSent(a + b, mtu, seq0, ts)
  {
    var out := a + b;
    forall i | 0 <= i < |out|
      ensures out[i].sequence == (seq0 + i) % 0x1_0000 && out[i].timestamp == ts
      ensures |out[i].payload| <= mtu && (out[i].marker <==> i == |out| - 1)
    {
      if i >= |a| {
        assert out[i] == b[i - |a|];
      }
    }
  }

  lemma {:induction false} StampedWell(ps: seq<Piece>, last: bool, mtu: nat, pt: nat, ssrc: nat, seq0: nat, ts: nat)
    requires forall i :: 0 <= i < |ps| ==> |ps[i].payload| <= mtu && (ps[i].end <==> i == |ps| - 1)
    ensures var a := Stamp(ps, last, pt, ssrc, seq0, ts);
      |a| == |ps| && Numbered(a, seq0, ts)
      && forall i :: 0 <= i < |a| ==> |a[i].payload| <= mtu && (a[i].marker <==> last && i == |a| - 1)
  {
  }

  lemma {:induction false} PacketsShape(c: Codec, nals: seq<seq<byte>>, mtu: nat, pt: nat, ssrc: nat, seq0: nat,
      ts: nat)
    requires Room(c, mtu) > 0
    ensures var out := Packets(c, nals, mtu, pt, ssrc, seq0, ts);
      WellSent(out, mtu, seq0, ts) && (out == [] <==> nals == [])
    decreases |nals|
  {
    if nals == [] {
      return;
    }
    var ps := Pieces(c, nals[0], mtu);
    var a, b := Stamp(ps, |nals| == 1, pt, ssrc, seq0, ts), Packets(c, nals[1..], mtu, pt, ssrc, seq0 + |ps|, ts);
    assert Packets(c, nals, mtu, pt, ssrc, seq0, ts) == a + b;
    PiecesCut(c, nals[0], mtu);
    StampedWell(ps, |nals| == 1, mtu, pt, ssrc, seq0, ts);
    hide *;
    PacketsShape(c, nals[1..], mtu, pt, ssrc, seq0 + |ps|, ts);
    WellSentJoin(a, b, mtu, seq0, ts);
  }

  /** The start and end flags of a fragment as a receiver reads them. */
  predicate Flagged(c: Codec, f: Piece, start: bool, end: bool) {
    |f.payload| > HeaderLen(c)
    && (f.payload[HeaderLen(c)] >= 128 <==> start)
    && (f.payload[HeaderLen(c)] / 64 % 2 == 1 <==> end)
  }

  lemma {:induction false} FuByteBits(c: Codec, b0: byte, start: bool, end: bool)
    ensures FuByte(c, b0, start, end) >= 128 <==> start
    ensures FuByte(c, b0, start, end) / 64 % 2 == 1 <==> end
  {
  }

  lemma {:induction false} FragmentFlags(c: Codec, nal: seq<byte>, off: nat, mtu: nat, i: nat)
    requires |nal| >= HeaderLen(c) && Room(c, mtu) > 0 && HeaderLen(c) <= off
    requires i < |Fragments(c, nal, off, mtu)|
    ensures var f := Fragments(c, nal, off, mtu)[i];
      Flagged(c, f, i == 0 && off == HeaderLen(c), f.end)
    decreases i
  {
    FragmentsHead(c, nal, off, mtu);
    var n, fs := Min(|nal| - off, Room(c, mtu)), Fragments(c, nal, off, mtu);
    if i == 0 {
      var start, end := off == HeaderLen(c), off + n >= |nal|;
      FuByteBits(c, nal[0], start, end);
      assert fs[0].payload[HeaderLen(c)] == FuByte(c, nal[0], start, end);
    } else {
      assert fs[i] == fs[1..][i - 1];
      FragmentFlags(c, nal, off + n, mtu, i - 1);
    }
  }

  /** A fragmented NAL has at least two fragments: the first alone starts it, the last alone ends it. */
  lemma {:induction false} NoStartAndEnd(c: Codec, nal: seq<byte>, mtu: nat)
    requires Room(c, mtu) > 0 && |nal| > mtu
    ensures var fs := Pieces(c, nal, mtu);
      |fs| >= 2 && forall i :: 0 <= i < |fs| ==> Flagged(c, fs[i], i == 0, i == |fs| - 1)
  {
    var h := HeaderLen(c);
    var fs, n := Fragments(c, nal, h, mtu), Min(|nal| - h, Room(c, mtu));
    FragmentsCut(c, nal, h, mtu);
    FragmentsCut(c, nal, h + n, mtu);
    FragmentsHead(c, nal, h, mtu);
    forall i | 0 <= i < |fs|
      ensures Flagged(c, fs[i], i == 0, i == |fs| - 1)
    {
      FragmentFlags(c, nal, h, mtu, i);
    }
  }

  // ------------------------------------------------------------ round trip of one NAL

  /** A NAL the packets can carry: any fragmented one, and a whole one whose type says it is a NAL. */
  predicate Carried(c: Codec, nal: seq<byte>, mtu: nat) {
    |nal| > mtu
    || (|nal| >= HeaderLen(c) && if c.H264? then 1 <= NalType(c, nal[0]) <= 23 else NalType(c, nal[0]) <= 47)
  }

  lemma {:induction false} H264Bits(b0: byte, start: bool, end: bool)
    ensures var ind, fu := b0 / 32 * 32 + 28, FuByte(H264, b0, start, end);
      ind % 32 == 28 && ind / 32 * 32 + fu % 32 == b0
  {
  }

  lemma {:induction false} H265Bits(b0: byte, start: bool, end: bool)
    ensures var ind, fu := b0 / 128 * 128 + b0 % 2 + 98, FuByte(H265, b0, start, end);
      ind / 2 % 64 == 49 && ind / 128 * 128 + ind % 2 + fu % 64 * 2 == b0
  {
    var q, r := b0 / 128, b0 % 2;
    assert b0 / 128 * 128 + b0 % 2 + 98 == 128 * q + 98 + r;
    assert b0 == 128 * q + 2 * (b0 / 2 % 64) + r;
  }

  /** The fragment's own header says "fragment", and with its type byte it spells the NAL's header. */
  lemma {:induction false} HeaderRebuilt(c: Codec, nal: seq<byte>, start: bool, end: bool, chunk: seq<byte>)
    requires |nal| >= HeaderLen(c)
    ensures var pl := FragmentHeader(c, nal) + [FuByte(c, nal[0], start, end)] + chunk;
      NalType(c, pl[0]) == FragmentType(c) && Rebuilt(c, pl) == nal[..HeaderLen(c)]
  {
    var pl := FragmentHeader(c, nal) + [FuByte(c, nal[0], start, end)] + chunk;
    if c.H264? {
      H264Bits(nal[0], start, end);
      assert pl[0] == nal[0] / 32 * 32 + 28 && pl[1] == FuByte(H264, nal[0], start, end);
    } else {
      H265Bits(nal[0], start, end);
      assert pl[0] == nal[0] / 128 * 128 + nal[0] % 2 + 98 && pl[1] == nal[1];
      assert pl[2] == FuByte(H265, nal[0], start, end);
    }
    hide FuByte;
  }

  /** Feeding one fragment: `st` holds what came before of the NAL, `chunk` is what this one adds. */
  lemma {:induction false} FragmentFed(c: Codec, st: State, nal: seq<byte>, chunk: seq<byte>, start: bool, end: bool,
      p: Packet)
    requires |nal| >= HeaderLen(c)
    requires p.payload == FragmentHeader(c, nal) + [FuByte(c, nal[0], start, end)] + chunk
    requires !start ==> st.started && st.pts == p.timestamp
    requires p.marker ==> end
    ensures var got := (if start then nal[..HeaderLen(c)] else st.fu) + chunk;
      FeedOne(c, st, p) ==
        if end then Fed(State([], false, p.timestamp), Emitted(c, got, p.timestamp))
        else Fed(State(got, true, p.timestamp), [])
  {
    HeaderRebuilt(c, nal, start, end, chunk);
    FuByteBits(c, nal[0], start, end);
    assert p.payload[HeaderLen(c)] == FuByte(c, nal[0], start, end);
    assert p.payload[HeaderLen(c) + 1..] == chunk;
    hide FuByte, NalType, Rebuilt, FragmentHeader, Emitted, Aggregated;
  }

  lemma {:induction false} FragmentsHead(c: Codec, nal: seq<byte>, off: nat, mtu: nat)
    requires |nal| >= HeaderLen(c) && Room(c, mtu) > 0 && off < |nal|
    ensures var n, fs := Min(|nal| - off, Room(c, mtu)), Fragments(c, nal, off, mtu);
      var rest := Fragments(c, nal, off + n, mtu);
      var end := off + n >= |nal|;
      && fs != [] && fs[1..] == rest
      && fs[0] == Piece(FragmentHeader(c, nal) + [FuByte(c, nal[0], off == HeaderLen(c), end)] + nal[off..off + n], end)
      && (end ==> rest == [])
  {
    hide FuByte, FragmentHeader;
  }

  /** `ps` carry the pieces `fs` of one NAL, at one instant. */
  ghost predicate Carrying(ps: seq<Packet>, fs: seq<Piece>, last: bool, ts: nat) {
    |ps| == |fs|
    && forall i :: 0 <= i < |ps| ==>
      ps[i].payload == fs[i].payload && ps[i].marker == (fs[i].end && last) && ps[i].timestamp == ts
  }

  lemma {:induction false} CarryingSplit(ps: seq<Packet>, fs: seq<Piece>, last: bool, ts: nat)
    requires Carrying(ps, fs, last, ts) && fs != []
    ensures ps != [] && ps[0].payload == fs[0].payload && ps[0].marker == (fs[0].end && last) && ps[0].timestamp == ts
    ensures Carrying(ps[1..], fs[1..], last, ts)
    ensures fs[1..] == [] ==> |ps| == 1
  {
  }

  lemma {:induction false} FeedAllHead(c: Codec, st: State, ps: seq<Packet>)
    requires ps != []
    ensures |ps| == 1 ==> FeedAll(c, st, ps) == FeedOne(c, st, ps[0])
    ensures FeedOne(c, st, ps[0]).out == [] ==> FeedAll(c, st, ps) == FeedAll(c, FeedOne(c, st, ps[0]).st, ps[1..])
  {
    hide FeedOne;
    var first := FeedOne(c, st, ps[0]);
    var rest := FeedAll(c, first.st, ps[1..]);
    assert first.out + [] == first.out && [] + rest.out == rest.out;
  }

  /** What the depacketizer holds once the fragments before `off` are in; any state will do at the start. */
  predicate Midway(c: Codec, st: State, nal: seq<byte>, off: nat, ts: nat) {
    off > HeaderLen(c) ==> off <= |nal| && st == State(nal[..off], true, ts)
  }

  lemma {:induction false} FragmentStep(c: Codec, st: State, nal: seq<byte>, off: nat, mtu: nat, last: bool, ts: nat,
      p: Packet)
    requires |nal| >= HeaderLen(c) && Room(c, mtu) > 0 && HeaderLen(c) <= off < |nal|
    requires Midway(c, st, nal, off, ts)
    requires var f := Fragments(c, nal, off, mtu)[0]; p.payload == f.payload && p.marker == (f.end && last)
    requires p.timestamp == ts
    ensures var next := off + Min(|nal| - off, Room(c, mtu));
      FeedOne(c, st, p) ==
        if next >= |nal| then Fed(State([], false, ts), [SampleOf(c, nal, ts)])
        else Fed(State(nal[..next], true, ts), [])
  {
    var n := Min(|nal| - off, Room(c, mtu));
    FragmentsHead(c, nal, off, mtu);
    hide Fragments, FuByte, FragmentHeader, FeedOne, SampleOf;
    FragmentFed(c, st, nal, nal[off..off + n], off == HeaderLen(c), off + n >= |nal|, p);
    TakeMore(nal, off, off + n);
  }

  lemma {:induction false} MidwayNext(c: Codec, nal: seq<byte>, next: nat, ts: nat)
    requires next <= |nal|
    ensures Midway(c, State(nal[..next], true, ts), nal, next, ts)
  {
  }

  lemma {:induction false} FragmentsFed(c: Codec, st: State, nal: seq<byte>, off: nat, mtu: nat, last: bool, ts: nat,
      ps: seq<Packet>)
    requires |nal| >= HeaderLen(c) && Room(c, mtu) > 0 && HeaderLen(c) <= off < |nal|
    requires Midway(c, st, nal, off, ts)
    requires Carrying(ps, Fragments(c, nal, off, mtu), last, ts)
    ensures FeedAll(c, st, ps) == Fed(State([], false, ts), [SampleOf(c, nal, ts)])
    decreases |nal| - off
  {
    var next := off + Min(|nal| - off, Room(c, mtu));
    FragmentsHead(c, nal, off, mtu);
    hide Fragments, FeedOne, FeedAll, SampleOf, FragmentHeader, FuByte;
    CarryingSplit(ps, Fragments(c, nal, off, mtu), last, ts);
    hide Carrying, Midway;
    assert next < |nal| ==> Midway(c, State(nal[..next], true, ts), nal, next, ts) by { MidwayNext(c, nal, next, ts); }
    FragmentStep(c, st, nal, off, mtu, last, ts, ps[0]);
    FeedAllHead(c, st, ps);
    if next < |nal| {
      FragmentsFed(c, State(nal[..next], true, ts), nal, next, mtu, last, ts, ps[1..]);
    }
  }

  /** Whatever a depacketizer holds, the packets of one carried NAL make it emit exactly that NAL. */
  lemma {:induction false} NalRoundTrip(c: Codec, st: State, nal: seq<byte>, mtu: nat, last: bool, ts: nat,
      ps: seq<Packet>)
    requires Room(c, mtu) > 0 && Carried(c, nal, mtu)
    requires Carrying(ps, Pieces(c, nal, mtu), last, ts)
    ensures FeedAll(c, st, ps).out == [SampleOf(c, nal, ts)]
  {
    if |nal| > mtu {
      FragmentsFed(c, st, nal, HeaderLen(c), mtu, last, ts, ps);
    } else {
      FeedAllHead(c, st, ps);
      hide FeedAll;
    }
  }

  // ------------------------------------------------------------ round trip of an access unit

  lemma {:induction false} FeedAllAppend(c: Codec, st: State, a: seq<Packet>, b: seq<Packet>)
    ensures var x := FeedAll(c, st, a);
      var y := FeedAll(c, x.st, b);
      FeedAll(c, st, a + b) == Fed(y.st, x.out + y.out)
    decreases |a|
  {
    hide FeedOne;
    if a == [] {
      assert a + b == b;
      assert [] + FeedAll(c, st, b).out == FeedAll(c, st, b).out;
    } else {
      var first := FeedOne(c, st, a[0]);
      assert (a + b)[0] == a[0] && (a + b)[1..] == a[1..] + b;
      FeedAllAppend(c, first.st, a[1..], b);
      var x := FeedAll(c, first.st, a[1..]);
      ConcatAssociative(first.out, x.out, FeedAll(c, x.st, b).out);
    }
  }

  function SamplesOf(c: Codec, nals: seq<seq<byte>>, ts: nat): seq<Sample> {
    if nals == [] then [] else [SampleOf(c, nals[0], ts)] + SamplesOf(c, nals[1..], ts)
  }

  /** The byte stream the samples make, one after the other. */
  function StreamOf(samples: seq<Sample>): seq<byte> {
    if samples == [] then [] else samples[0].data + StreamOf(samples[1..])
  }

  lemma {:induction false} StreamOfNals(c: Codec, nals: seq<seq<byte>>, ts: nat)
    ensures StreamOf(SamplesOf(c, nals, ts)) == Join(nals)
    decreases |nals|
  {
    if nals != [] {
      hide IsKeyframe;
      StreamOfNals(c, nals[1..], ts);
      assert SamplesOf(c, nals, ts)[1..] == SamplesOf(c, nals[1..], ts);
    }
  }

  lemma {:induction false} PacketsHead(c: Codec, nals: seq<seq<byte>>, mtu: nat, pt: nat, ssrc: nat, seq0: nat,
      ts: nat) returns (a: seq<Packet>)
    requires Room(c, mtu) > 0 && nals != []
    ensures a == Stamp(Pieces(c, nals[0], mtu), |nals| == 1, pt, ssrc, seq0, ts)
    ensures Carrying(a, Pieces(c, nals[0], mtu), |nals| == 1, ts)
    ensures Packets(c, nals, mtu, pt, ssrc, seq0, ts) == a + Packets(c, nals[1..], mtu, pt, ssrc, seq0 + |a|, ts)
  {
    hide Pieces;
    a := Stamp(Pieces(c, nals[0], mtu), |nals| == 1, pt, ssrc, seq0, ts);
  }

  lemma {:induction false} NothingFed(c: Codec, st: State, mtu: nat, pt: nat, ssrc: nat, seq0: nat, ts: nat)
    requires Room(c, mtu) > 0
    ensures FeedAll(c, st, Packets(c, [], mtu, pt, ssrc, seq0, ts)).out == SamplesOf(c, [], ts)
  {
  }

  lemma {:induction false} PacketsFed(c: Codec, st: State, nals: seq<seq<byte>>, mtu: nat, pt: nat, ssrc: nat,
      seq0: nat, ts: nat)
    requires Room(c, mtu) > 0 && forall i :: 0 <= i < |nals| ==> Carried(c, nals[i], mtu)
    ensures FeedAll(c, st, Packets(c, nals, mtu, pt, ssrc, seq0, ts)).out == SamplesOf(c, nals, ts)
    decreases |nals|
  {
    hide *;
    if nals == [] {
      NothingFed(c, st, mtu, pt, ssrc, seq0, ts);
    } else {
      SamplesHead(c, nals, ts);
      var a := PacketsHead(c, nals, mtu, pt, ssrc, seq0, ts);
      NalRoundTrip(c, st, nals[0], mtu, |nals| == 1, ts, a);
      FeedAllAppend(c, st, a, Packets(c, nals[1..], mtu, pt, ssrc, seq0 + |a|, ts));
      PacketsFed(c, FeedAll(c, st, a).st, nals[1..], mtu, pt, ssrc, seq0 + |a|, ts);
    }
  }

  /**
   What reaches the other side: one sample per NAL of the input, at the input's timestamp, whatever
   the receiver held before; put together they are the input with four-byte start codes, which is
   the input itself when it was written that way.
   */
  lemma {:induction false} AccessUnitRoundTrip(c: Codec, st: State, data: seq<byte>, mtu: nat, pt: nat, ssrc: nat,
      seq0: nat, ts: nat)
    requires Room(c, mtu) > 0 && forall i :: 0 <= i < |Nals(data)| ==> Carried(c, Nals(data)[i], mtu)
    ensures var out := FeedAll(c, st, Packets(c, Nals(data), mtu, pt, ssrc, seq0, ts)).out;
      && out == SamplesOf(c, Nals(data), ts)
      && StreamOf(out) == Join(Nals(data))
      && forall nals :: Clean(nals) && data == Join(nals) ==> Nals(data) == nals && StreamOf(out) == data
  {
    hide FeedAll, SamplesOf, StreamOf, Packets, Nals, Join, Clean;
    PacketsFed(c, st, Nals(data), mtu, pt, ssrc, seq0, ts);
    StreamOfNals(c, Nals(data), ts);
    forall nals | Clean(nals) && data == Join(nals)
      ensures Nals(data) == nals
    {
      SplitUndoesJoin(nals);
    }
  }

  /** The same packets after the wire: each parses back to itself. */
  lemma {:induction false} PacketsSurviveWire(c: Codec, nals: seq<seq<byte>>, mtu: nat, pt: nat, ssrc: nat, seq0: nat,
      ts: nat)
    requires Room(c, mtu) > 0 && pt < 128 && ssrc < 0x1_0000_0000 && ts < 0x1_0000_0000
    ensures forall p :: p in Packets(c, nals, mtu, pt, ssrc, seq0, ts) ==> Parse(Serialize(p)) == Some(p)
    decreases |nals|
  {
    hide Pieces, Parse, Serialize;
    if nals != [] {
      var a := PacketsHead(c, nals, mtu, pt, ssrc, seq0, ts);
      var rest := Packets(c, nals[1..], mtu, pt, ssrc, seq0 + |a|, ts);
      PacketsSurviveWire(c, nals[1..], mtu, pt, ssrc, seq0 + |a|, ts);
      forall p | p in a + rest
        ensures Parse(Serialize(p)) == Some(p)
      {
        if p in a {
          WireRoundTrip(p);
        }
      }
    }
  }

  // ------------------------------------------------------------ exactly which NALs get through

  lemma {:induction false} AggregatedIsSmaller(c: Codec, pl: seq<byte>, off: nat, pts: nat)
    ensures forall s :: s in Aggregated(c, pl, off, pts) ==> |s.data| + off < |pl| + 4
    decreases |pl| - off
  {
    if off + 2 <= |pl| {
      var n := FromBe16(pl, off);
      hide FromBe16, IsKeyframe;
      if n == 0 {
        AggregatedIsSmaller(c, pl, off + 2, pts);
      } else if off + 2 + n <= |pl| {
        AggregatedIsSmaller(c, pl, off + 2 + n, pts);
      }
    }
  }

  /** A fresh depacketizer gets a whole-packet NAL back if and only if its type is one the packets carry. */
  lemma {:induction false} WholeNalExactly(c: Codec, nal: seq<byte>, mtu: nat, p: Packet)
    requires nal != [] && |nal| <= mtu && p.payload == nal
    ensures FeedOne(c, State([], false, 0), p).out == [SampleOf(c, nal, p.timestamp)] <==> Carried(c, nal, mtu)
  {
    hide IsKeyframe, Rebuilt;
    var out := FeedOne(c, State([], false, 0), p).out;
    if out == [SampleOf(c, nal, p.timestamp)] {
      assert out[0].data == Unit(nal);
      AggregatedIsSmaller(c, nal, HeaderLen(c), p.timestamp);
      hide Aggregated;
    }
  }

  /** Bytes of NAL in the samples, without their start codes. */
  function Size(out: seq<Sample>): nat {
    if out == [] then 0 else (if |out[0].data| >= 4 then |out[0].data| - 4 else 0) + Size(out[1..])
  }

  function Holding(st: State): nat {
    if st.started then |st.fu| else 0
  }

  function Sum(nals: seq<seq<byte>>): nat {
    if nals == [] then 0 else |nals[0]| + Sum(nals[1..])
  }

  function Uncarried(c: Codec, nals: seq<seq<byte>>, mtu: nat): nat {
    if nals == [] then 0 else (if Carried(c, nals[0], mtu) then 0 else 1) + Uncarried(c, nals[1..], mtu)
  }

  lemma {:induction false} SizeJoin(a: seq<Sample>, b: seq<Sample>)
    ensures Size(a + b) == Size(a) + Size(b)
    decreases |a|
  {
    if a == [] {
      assert a + b == b;
    } else {
      assert (a + b)[1..] == a[1..] + b;
      SizeJoin(a[1..], b);
    }
  }

  lemma {:induction false} EmittedSize(c: Codec, nal: seq<byte>, pts: nat)
    ensures Size(Emitted(c, nal, pts)) <= |nal|
    ensures Size([SampleOf(c, nal, pts)]) == |nal|
  {
    hide IsKeyframe;
    assert [SampleOf(c, nal, pts)][1..] == [];
  }

  lemma {:induction false} AggregatedSize(c: Codec, pl: seq<byte>, off: nat, pts: nat)
    requires off <= |pl|
    ensures Size(Aggregated(c, pl, off, pts)) + off <= |pl|
    decreases |pl| - off
  {
    AggregatedStep(c, pl, off, pts);
    hide Aggregated, FromBe16, Emitted;
    if off + 2 <= |pl| {
      var n := FromBe16(pl, off);
      if n == 0 {
        AggregatedSize(c, pl, off + 2, pts);
      } else if off + 2 + n <= |pl| {
        var nal := pl[off + 2..off + 2 + n];
        EmittedSize(c, nal, pts);
        AggregatedSize(c, pl, off + 2 + n, pts);
        SizeJoin(Emitted(c, nal, pts), Aggregated(c, pl, off + 2 + n, pts));
      }
    }
  }

  /** No packet makes more bytes than it brings, given out or held; one whose type is not a NAL's makes fewer. */
  lemma {:induction false} PacketLoses(c: Codec, st: State, p: Packet)
    requires p.payload != []
    ensures var f := FeedOne(c, st, p);
      Size(f.out) + Holding(f.st) + (if Carried(c, p.payload, |p.payload|) then 0 else 1) <= Holding(st) + |p.payload|
  {
    var pl, h := p.payload, HeaderLen(c);
    hide Emitted, Aggregated, Size, Rebuilt;
    NoSize();
    EmittedSize(c, pl, p.timestamp);
    if |pl| >= h {
      AggregatedSize(c, pl, h, p.timestamp);
    }
    if |pl| >= h + 1 {
      FragmentLoses(c, st, p);
    }
    hide FeedFragment, NalType;
  }

  lemma {:induction false} NoSize()
    ensures Size([]) == 0
  {
  }

  lemma {:induction false} FragmentLoses(c: Codec, st: State, p: Packet)
    requires |p.payload| > HeaderLen(c)
    ensures var f := FeedFragment(c, st, p); Size(f.out) + Holding(f.st) + 1 <= Holding(st) + |p.payload|
  {
    var pl, h := p.payload, HeaderLen(c);
    hide Emitted, Size, Rebuilt;
    NoSize();
    var st1 := if pl[h] >= 128 then State(Rebuilt(c, pl), true, p.timestamp) else st;
    EmittedSize(c, st1.fu + pl[h + 1..], st1.pts);
  }

  lemma {:induction false} NalLoses(c: Codec, st: State, nal: seq<byte>, mtu: nat, last: bool, ts: nat, ps: seq<Packet>)
    requires Room(c, mtu) > 0 && nal != [] && Carrying(ps, Pieces(c, nal, mtu), last, ts)
    ensures var f := FeedAll(c, st, ps);
      Size(f.out) + Holding(f.st) + (if Carried(c, nal, mtu) then 0 else 1) <= Holding(st) + |nal|
  {
    if |nal| > mtu {
      FragmentsFed(c, st, nal, HeaderLen(c), mtu, last, ts, ps);
      EmittedSize(c, nal, ts);
      hide FeedAll, Size, SampleOf;
    } else {
      assert ps[0].payload == nal && |ps| == 1;
      FeedAllHead(c, st, ps);
      PacketLoses(c, st, ps[0]);
      hide FeedAll, FeedOne, Size;
    }
  }

  lemma {:induction false} UnitLoses(c: Codec, st: State, nals: seq<seq<byte>>, mtu: nat, pt: nat, ssrc: nat, seq0: nat,
      ts: nat)
    requires Room(c, mtu) > 0 && forall i :: 0 <= i < |nals| ==> nals[i] != []
    ensures var f := FeedAll(c, st, Packets(c, nals, mtu, pt, ssrc, seq0, ts));
      Size(f.out) + Holding(f.st) + Uncarried(c, nals, mtu) <= Holding(st) + Sum(nals)
    decreases |nals|
  {
    hide *;
    if nals == [] {
      NothingLost(c, st, mtu, pt, ssrc, seq0, ts);
    } else {
      var a := PacketsHead(c, nals, mtu, pt, ssrc, seq0, ts);
      var rest := Packets(c, nals[1..], mtu, pt, ssrc, seq0 + |a|, ts);
      NalLoses(c, st, nals[0], mtu, |nals| == 1, ts, a);
      FeedAllAppend(c, st, a, rest);
      var x := FeedAll(c, st, a);
      UnitLoses(c, x.st, nals[1..], mtu, pt, ssrc, seq0 + |a|, ts);
      SizeJoin(x.out, FeedAll(c, x.st, rest).out);
      CountsHead(c, nals, mtu);
    }
  }

  lemma {:induction false} NothingLost(c: Codec, st: State, mtu: nat, pt: nat, ssrc: nat, seq0: nat, ts: nat)
    requires Room(c, mtu) > 0
    ensures var f := FeedAll(c, st, Packets(c, [], mtu, pt, ssrc, seq0, ts));
      Size(f.out) + Holding(f.st) + Uncarried(c, [], mtu) == Holding(st) + Sum([])
  {
  }

  lemma {:induction false} CountsHead(c: Codec, nals: seq<seq<byte>>, mtu: nat)
    requires nals != []
    ensures Uncarried(c, nals, mtu) == (if Carried(c, nals[0], mtu) then 0 else 1) + Uncarried(c, nals[1..], mtu)
    ensures Sum(nals) == |nals[0]| + Sum(nals[1..])
  {
    hide Carried;
  }

  lemma {:induction false} SamplesSize(c: Codec, nals: seq<seq<byte>>, ts: nat)
    ensures Size(SamplesOf(c, nals, ts)) == Sum(nals)
    decreases |nals|
  {
    if nals != [] {
      SamplesSize(c, nals[1..], ts);
      EmittedSize(c, nals[0], ts);
      SizeJoin([SampleOf(c, nals[0], ts)], SamplesOf(c, nals[1..], ts));
      hide Size, SampleOf;
    }
  }

  lemma {:induction false} NoneUncarried(c: Codec, nals: seq<seq<byte>>, mtu: nat)
    requires Uncarried(c, nals, mtu) == 0
    ensures forall i :: 0 <= i < |nals| ==> Carried(c, nals[i], mtu)
    decreases |nals|
  {
    hide Carried;
    if nals != [] {
      NoneUncarried(c, nals[1..], mtu);
      forall i | 0 <= i < |nals|
        ensures Carried(c, nals[i], mtu)
      {
        assert i > 0 ==> nals[i] == nals[1..][i - 1];
      }
    }
  }

  /**
   Exactly when a whole access unit comes back to a receiver that holds no fragment: if and only if every one of
   its NALs is carried. One that is not loses bytes, and no other packet makes up for them.
   */
  lemma {:induction false} AccessUnitExactly(c: Codec, st: State, data: seq<byte>, mtu: nat, pt: nat, ssrc: nat,
      seq0: nat, ts: nat)
    requires Room(c, mtu) > 0 && !st.started
    ensures FeedAll(c, st, Packets(c, Nals(data), mtu, pt, ssrc, seq0, ts)).out == SamplesOf(c, Nals(data), ts)
      <==> forall i :: 0 <= i < |Nals(data)| ==> Carried(c, Nals(data)[i], mtu)
  {
    var nals := Nals(data);
    assert forall i :: 0 <= i < |nals| ==> nals[i] != [] by { SplitIsClean(data); }
    assert Holding(st) == 0;
    hide FeedAll, SamplesOf, Packets, Nals, Carried, Clean, Holding, Size, Sum, Uncarried;
    var out := FeedAll(c, st, Packets(c, nals, mtu, pt, ssrc, seq0, ts)).out;
    if out == SamplesOf(c, nals, ts) {
      UnitLoses(c, st, nals, mtu, pt, ssrc, seq0, ts);
      SamplesSize(c, nals, ts);
      NoneUncarried(c, nals, mtu);
    }
    if forall i :: 0 <= i < |nals| ==> Carried(c, nals[i], mtu) {
      PacketsFed(c, st, nals, mtu, pt, ssrc, seq0, ts);
    }
  }

  // ------------------------------------------------------------ aggregation packets

  function AggregateBody(nals: seq<seq<byte>>): seq<byte> {
    if nals == [] then [] else Be16(|nals[0]|) + nals[0] + AggregateBody(nals[1..])
  }

  lemma {:induction false} AggregateUnit(c: Codec, pl: seq<byte>, off: nat, nal: seq<byte>, pts: nat)
    requires HeaderLen(c) <= |nal| < 0x1_0000 && off + 2 + |nal| <= |pl|
    requires pl[off..off + 2] == Be16(|nal|) && pl[off + 2..off + 2 + |nal|] == nal
    ensures Aggregated(c, pl, off, pts) == [SampleOf(c, nal, pts)] + Aggregated(c, pl, off + 2 + |nal|, pts)
  {
    hide FromBe16, Be16, SampleOf;
    Be16RoundTrip(|nal|, pl, off);
  }

  lemma {:induction false} AggregateSplit(nals: seq<seq<byte>>, body: seq<byte>)
    requires nals != [] && body == AggregateBody(nals)
    ensures var n := |nals[0]|; 2 + n <= |body| && body[0..2] == Be16(n) && body[2..2 + n] == nals[0]
    ensures body[2 + |nals[0]|..] == AggregateBody(nals[1..])
  {
    var len := Be16(|nals[0]|);
    hide Be16;
  }

  lemma {:induction false} AggregateNil(c: Codec, pl: seq<byte>, off: nat, pts: nat)
    requires off <= |pl| && pl[off..] == AggregateBody([])
    ensures Aggregated(c, pl, off, pts) == SamplesOf(c, [], pts)
  {
  }

  lemma {:induction false} SamplesHead(c: Codec, nals: seq<seq<byte>>, pts: nat)
    requires nals != []
    ensures SamplesOf(c, nals, pts) == [SampleOf(c, nals[0], pts)] + SamplesOf(c, nals[1..], pts)
  {
  }

  lemma {:induction false} AggregateReadFrom(c: Codec, pl: seq<byte>, off: nat, nals: seq<seq<byte>>, pts: nat)
    requires forall nal :: nal in nals ==> HeaderLen(c) <= |nal| < 0x1_0000
    requires off <= |pl| && pl[off..] == AggregateBody(nals)
    ensures Aggregated(c, pl, off, pts) == SamplesOf(c, nals, pts)
    decreases |nals|
  {
    hide *;
    if nals == [] {
      AggregateNil(c, pl, off, pts);
    } else {
      var n, body := |nals[0]|, pl[off..];
      AggregateSplit(nals, body);
      assert pl[off..off + 2] == Be16(n) && pl[off + 2..off + 2 + n] == nals[0]
        && pl[off + 2 + n..] == AggregateBody(nals[1..]) by {
        SliceOfTail(pl, off, 0, 2);
        SliceOfTail(pl, off, 2, 2 + n);
      }
      AggregateUnit(c, pl, off, nals[0], pts);
      AggregateReadFrom(c, pl, off + 2 + n, nals[1..], pts);
      SamplesHead(c, nals, pts);
    }
  }

  /** An aggregation packet gives each of its NALs back, in order. */
  lemma {:induction false} AggregateRoundTrip(c: Codec, st: State, header: seq<byte>, nals: seq<seq<byte>>, p: Packet)
    requires |header| == HeaderLen(c)
    requires if c.H264? then header[0] % 32 == 24 else header[0] / 2 % 64 == 48
    requires forall nal :: nal in nals ==> HeaderLen(c) <= |nal| < 0x1_0000
    requires p.payload == header + AggregateBody(nals)
    ensures FeedOne(c, st, p) == Fed(st, SamplesOf(c, nals, p.timestamp))
  {
    assert p.payload[|header|..] == AggregateBody(nals);
    AggregateReadFrom(c, p.payload, |header|, nals, p.timestamp);
    assert p.payload[0] == header[0];
    hide Aggregated, SamplesOf, AggregateBody, NalType;
  }

  // ------------------------------------------------------------ any sender's packets

  /** A packet with a fragment: whether it starts a NAL, and whether it ends one, by its flag or by the marker. */
  predicate PartOf(c: Codec, p: Packet, start: bool, end: bool) {
    var h := HeaderLen(c);
    |p.payload| > h && (if c.H264? then p.payload[0] % 32 == 28 else p.payload[0] / 2 % 64 == 49)
    && (p.payload[h] >= 128 <==> start) && (p.payload[h] / 64 % 2 == 1 || p.marker <==> end)
  }

  /** What the fragments carry, in a row. */
  function Bodies(c: Codec, ps: seq<Packet>): seq<byte> {
    if ps == [] then []
    else (if |ps[0].payload| > HeaderLen(c) then ps[0].payload[HeaderLen(c) + 1..] else []) + Bodies(c, ps[1..])
  }

  lemma {:induction false} PartFed(c: Codec, st: State, p: Packet, start: bool, end: bool)
    requires PartOf(c, p, start, end)
    ensures var body := p.payload[HeaderLen(c) + 1..];
      var st1 := if start then State(Rebuilt(c, p.payload), true, p.timestamp) else st;
      FeedOne(c, st, p) == if !st1.started then Fed(st1, [])
        else if end then Fed(State([], false, st1.pts), Emitted(c, st1.fu + body, st1.pts))
        else Fed(st1.(fu := st1.fu + body), [])
  {
    hide Emitted, Rebuilt;
  }

  lemma {:induction false} PartsFinish(c: Codec, st: State, ps: seq<Packet>)
    requires ps != [] && st.started && forall i :: 0 <= i < |ps| ==> PartOf(c, ps[i], false, i == |ps| - 1)
    ensures FeedAll(c, st, ps) == Fed(State([], false, st.pts), Emitted(c, st.fu + Bodies(c, ps), st.pts))
    decreases |ps|
  {
    hide FeedOne, Emitted, Rebuilt;
    PartFed(c, st, ps[0], false, |ps| == 1);
    var body := ps[0].payload[HeaderLen(c) + 1..];
    assert Bodies(c, ps) == body + Bodies(c, ps[1..]);
    ConcatAssociative(st.fu, body, Bodies(c, ps[1..]));
    hide PartOf, Bodies;
    if |ps| > 1 {
      var st1 := st.(fu := st.fu + body);
      PartsFinish(c, st1, ps[1..]);
      assert [] + FeedAll(c, st1, ps[1..]).out == FeedAll(c, st1, ps[1..]).out;
    } else {
      NothingMore(c, State([], false, st.pts), ps[1..]);
      assert body + [] == body;
      var out := Emitted(c, st.fu + body, st.pts);
      assert out + [] == out;
    }
  }

  lemma {:induction false} NothingMore(c: Codec, st: State, ps: seq<Packet>)
    requires ps == []
    ensures FeedAll(c, st, ps) == Fed(st, []) && Bodies(c, ps) == []
  {
  }

  /**
   Fragments of any sender, cut anywhere, from any state of the receiver: the first starts the NAL and the last ends it,
   by its flag or, if that is missing, by the marker. They give one sample: the rebuilt header and all they carry.
   */
  lemma {:induction false} FragmentsGive(c: Codec, st: State, ps: seq<Packet>)
    requires ps != [] && forall i :: 0 <= i < |ps| ==> PartOf(c, ps[i], i == 0, i == |ps| - 1)
    ensures |ps[0].payload| > HeaderLen(c)
    ensures var nal := Rebuilt(c, ps[0].payload) + Bodies(c, ps);
      FeedAll(c, st, ps) == Fed(State([], false, ps[0].timestamp), [SampleOf(c, nal, ps[0].timestamp)])
  {
    var p, body := ps[0], ps[0].payload[HeaderLen(c) + 1..];
    PartFed(c, st, p, true, |ps| == 1);
    assert Bodies(c, ps) == body + Bodies(c, ps[1..]);
    var header := Rebuilt(c, p.payload);
    ConcatAssociative(header, body, Bodies(c, ps[1..]));
    hide FeedOne, Rebuilt, SampleOf, PartOf, Bodies;
    if |ps| > 1 {
      var st1 := State(header + body, true, p.timestamp);
      PartsFinish(c, st1, ps[1..]);
      assert [] + FeedAll(c, st1, ps[1..]).out == FeedAll(c, st1, ps[1..]).out;
    } else {
      NothingMore(c, State([], false, p.timestamp), ps[1..]);
      assert body + [] == body;
    }
  }

  /** Without the fragment that starts it, a NAL gives nothing and leaves nothing behind. */
  lemma {:induction false} StartLost(c: Codec, st: State, ps: seq<Packet>)
    requires !st.started
    requires forall i :: 0 <= i < |ps| ==> PartOf(c, ps[i], false, true) || PartOf(c, ps[i], false, false)
    ensures FeedAll(c, st, ps) == Fed(st, [])
    decreases |ps|
  {
    hide FeedOne, Emitted, Rebuilt, PartOf;
    if ps != [] {
      PartFed(c, st, ps[0], false, PartOf(c, ps[0], false, true));
      StartLost(c, st, ps[1..]);
    }
  }

  /** Packets of other types are passed over: 0, 25 to 27 and 29 to 31 in H.264, 50 to 63 in H.265. */
  lemma {:induction false} OthersPassed(c: Codec, st: State, p: Packet)
    requires p.payload != []
    requires c.H264? ==> p.payload[0] % 32 in {0, 25, 26, 27, 29, 30, 31}
    requires c.H265? ==> 50 <= p.payload[0] / 2 % 64
    ensures FeedOne(c, st, p) == Fed(st, [])
  {
  }

  lemma {:induction false} AggregatedWhole(c: Codec, pl: seq<byte>, off: nat, pts: nat)
    ensures forall s :: s in Aggregated(c, pl, off, pts) ==> |s.data| >= 4 + HeaderLen(c)
    decreases |pl| - off
  {
    hide Aggregated, FromBe16, HeaderLen, IsKeyframe;
    AggregatedStep(c, pl, off, pts);
    if off + 2 <= |pl| {
      var n := FromBe16(pl, off);
      if off + 2 + n <= |pl| {
        AggregatedWhole(c, pl, off + 2 + n, pts);
      }
    }
  }

  /** Whatever is received, no sample is shorter than a NAL's header. */
  lemma {:induction false} SamplesWhole(c: Codec, st: State, p: Packet)
    ensures forall s :: s in FeedOne(c, st, p).out ==> |s.data| >= 4 + HeaderLen(c)
  {
    AggregatedWhole(c, p.payload, HeaderLen(c), p.timestamp);
    hide Aggregated, IsKeyframe;
  }

  // ------------------------------------------------------------ where a decoder can enter

  ghost predicate HoldsSlice(d: seq<byte>) {
    exists i :: 0 <= i <= |d| - 5 && SliceInside(d, i)
  }

  /** A coded slice: of an IDR picture or of another. */
  predicate IsSlice(nal: seq<byte>) {
    nal != [] && nal[0] % 32 in {1, 5}
  }

  /** A NAL behind a start code of four bytes, or of three. */
  datatype Coded = Coded(four: bool, nal: seq<byte>)

  function CodeOf(x: Coded): seq<byte> {
    if x.four then [0, 0, 0, 1] else [0, 0, 1]
  }

  function JoinCoded(xs: seq<Coded>): seq<byte> {
    if xs == [] then [] else CodeOf(xs[0]) + (xs[0].nal + JoinCoded(xs[1..]))
  }

  /** NALs that start codes can follow: no start code inside, and no zero at the end. */
  ghost predicate Closed(nal: seq<byte>) {
    nal != [] && NoStartCode(nal) && nal[|nal| - 1] != 0
  }

  /** The slice is found: behind three bytes of start code, one byte must follow its first. */
  predicate Found(xs: seq<Coded>, k: nat)
    requires k < |xs|
  {
    IsSlice(xs[k].nal) && (xs[k].four || |xs[k].nal| > 1 || k + 1 < |xs|)
  }

  /** The slices found inside a unit are the NALs after the first that are slices. */
  lemma {:induction false} SlicesFound(nal: seq<byte>, more: seq<Coded>)
    requires Closed(nal) && forall k :: 0 <= k < |more| ==> Closed(more[k].nal)
    ensures HoldsSlice(nal + JoinCoded(more)) <==> exists k :: 0 <= k < |more| && Found(more, k)
    decreases |more|
  {
    var d := nal + JoinCoded(more);
    if more == [] {
      assert d == nal;
      NoSliceBefore(d, nal, []);
    } else {
      var x, rest := more[0].nal, JoinCoded(more[1..]);
      assert d == nal + CodeOf(more[0]) + (x + rest);
      NoSliceBefore(d, nal, CodeOf(more[0]) + (x + rest));
      assert d == nal + (CodeOf(more[0]) + (x + rest));
      SliceAfter(nal, more[0].four, x + rest);
      assert (x + rest)[0] == x[0];
      assert |rest| > 0 <==> |more| > 1;
      SlicesFound(x, more[1..]);
      hide HoldsSlice;
      FoundSplits(more);
    }
  }

  lemma {:induction false} FoundSplits(xs: seq<Coded>)
    requires xs != []
    ensures (exists k :: 0 <= k < |xs| && Found(xs, k))
      <==> Found(xs, 0) || exists k :: 0 <= k < |xs[1..]| && Found(xs[1..], k)
  {
    assert forall k :: 0 < k < |xs| ==> (Found(xs, k) <==> Found(xs[1..], k - 1));
    if k :| 0 <= k < |xs[1..]| && Found(xs[1..], k) {
      assert Found(xs, k + 1);
    }
  }

  lemma {:induction false} NoSliceBefore(d: seq<byte>, nal: seq<byte>, tail: seq<byte>)
    requires d == nal + tail && Closed(nal) && (tail == [] || [0, 0, 0, 1] <= tail || [0, 0, 1] <= tail)
    ensures forall i: nat :: i < |nal| && i <= |d| - 5 ==> !SliceInside(d, i)
  {
    var n := |nal|;
    assert d[n - 1] == nal[n - 1] != 0;
    forall i: nat | i < n
      ensures !StartCode(d, i)
    {
      assert !StartCode(nal, i);
      assert tail != [] ==> d[n] == 0;
    }
    forall i: nat | i < n && i <= |d| - 5
      ensures !SliceInside(d, i)
    {
      assert !StartCode(d, i) && (i + 1 < n ==> !StartCode(d, i + 1));
    }
  }

  lemma {:induction false} SliceAfter(nal: seq<byte>, four: bool, y: seq<byte>)
    requires y != []
    requires var d := nal + (if four then [0, 0, 0, 1] else [0, 0, 1]) + y;
      forall i: nat :: i < |nal| && i <= |d| - 5 ==> !SliceInside(d, i)
    ensures HoldsSlice(nal + (if four then [0, 0, 0, 1] else [0, 0, 1]) + y)
      <==> (y[0] % 32 in {1, 5} && (four || |y| > 1)) || HoldsSlice(y)
  {
    var code: seq<byte> := if four then [0, 0, 0, 1] else [0, 0, 1];
    var d, n, m := nal + code + y, |nal|, |nal| + |code|;
    assert forall j :: 0 <= j < |code| ==> d[n + j] == code[j];
    assert forall j :: 0 <= j < |y| ==> d[m + j] == y[j];
    assert d[m] == y[0];
    forall i: nat | m <= i && i <= |d| - 5
      ensures SliceInside(d, i) <==> SliceInside(y, i - m)
    {
    }
    if HoldsSlice(y) {
      var i :| 0 <= i <= |y| - 5 && SliceInside(y, i);
      assert SliceInside(d, i + m);
    }
    if y[0] % 32 in {1, 5} && (four || |y| > 1) {
      assert SliceInside(d, n);
    }
  }

  /**
   A whole H.264 access unit sent as one, its NALs but the first behind start codes, is marked as a keyframe if and only
   if its first NAL is an IDR slice, or a parameter set and any later one is a slice. In H.265, a NAL is if its type
   is 16 to 21.
   */
  lemma {:induction false} UnitMarked(nal: seq<byte>, more: seq<Coded>, pts: nat)
    requires Closed(nal) && forall k :: 0 <= k < |more| ==> Closed(more[k].nal)
    ensures var t := nal[0] % 32;
      SampleOf(H264, nal + JoinCoded(more), pts).keyframe
      <==> t == 5 || ((t == 7 || t == 8) && exists k :: 0 <= k < |more| && Found(more, k))
    ensures SampleOf(H265, nal, pts).keyframe <==> 32 <= nal[0] % 128 < 44
  {
    SlicesFound(nal, more);
  }

  // ------------------------------------------------------------ the objects

  lemma {:induction false} StampMod(ps: seq<Piece>, last: bool, pt: nat, ssrc: nat, seq0: nat, ts: nat)
    ensures Stamp(ps, last, pt, ssrc, seq0 % 0x1_0000, ts) == Stamp(ps, last, pt, ssrc, seq0, ts)
  {
  }

  lemma {:induction false} PacketsMod(c: Codec, nals: seq<seq<byte>>, mtu: nat, pt: nat, ssrc: nat, seq0: nat,
      seq1: nat, ts: nat)
    requires Room(c, mtu) > 0 && seq0 % 0x1_0000 == seq1 % 0x1_0000
    ensures Packets(c, nals, mtu, pt, ssrc, seq0, ts) == Packets(c, nals, mtu, pt, ssrc, seq1, ts)
    decreases |nals|
  {
    if nals != [] {
      var ps := Pieces(c, nals[0], mtu);
      hide Pieces;
      StampMod(ps, |nals| == 1, pt, ssrc, seq0, ts);
      StampMod(ps, |nals| == 1, pt, ssrc, seq1, ts);
      hide Stamp;
      assert (seq0 + |ps|) % 0x1_0000 == (seq1 + |ps|) % 0x1_0000;
      PacketsMod(c, nals[1..], mtu, pt, ssrc, seq0 + |ps|, seq1 + |ps|, ts);
    }
  }

  /** Of the pieces `all`, `packets` are sent and `rest` are to come. */
  ghost predicate Sending(all: seq<Piece>, rest: seq<Piece>, marker: bool, pt: nat, ssrc: nat, seq0: nat, next: nat,
      ts: nat, packets: seq<Packet>) {
    Stamp(all, marker, pt, ssrc, seq0, ts) == packets + Stamp(rest, marker, pt, ssrc, seq0 + |packets|, ts)
    && next == (seq0 + |packets|) % 0x1_0000
  }

  lemma {:induction false} SendingStarts(all: seq<Piece>, marker: bool, pt: nat, ssrc: nat, seq0: nat, ts: nat)
    requires seq0 < 0x1_0000
    ensures Sending(all, all, marker, pt, ssrc, seq0, seq0, ts, [])
  {
  }

  lemma {:induction false} SendingEnds(all: seq<Piece>, marker: bool, pt: nat, ssrc: nat, seq0: nat, next: nat, ts: nat,
      packets: seq<Packet>)
    requires Sending(all, [], marker, pt, ssrc, seq0, next, ts, packets)
    ensures packets == Stamp(all, marker, pt, ssrc, seq0, ts) && next == (seq0 + |packets|) % 0x1_0000
  {
  }

  lemma {:induction false} SendingStep(all: seq<Piece>, rest: seq<Piece>, marker: bool, pt: nat, ssrc: nat, seq0: nat,
      next: nat, ts: nat, packets: seq<Packet>)
    requires Sending(all, rest, marker, pt, ssrc, seq0, next, ts, packets) && rest != []
    ensures var p := Packet(rest[0].end && marker, pt, next, ts, ssrc, rest[0].payload);
      Sending(all, rest[1..], marker, pt, ssrc, seq0, (next + 1) % 0x1_0000, ts, packets + [p])
  {
    var n := seq0 + |packets|;
    var p := Packet(rest[0].end && marker, pt, n % 0x1_0000, ts, ssrc, rest[0].payload);
    StampTail(rest, marker, pt, ssrc, n, ts);
    ConcatAssociative(packets, [p], Stamp(rest[1..], marker, pt, ssrc, n + 1, ts));
    hide Stamp;
  }

  /** Of the packets `all` of an access unit, `packets` are sent; `nals` remain and `next` is the next number. */
  ghost predicate Pushing(all: seq<Packet>, c: Codec, nals: seq<seq<byte>>, mtu: nat, pt: nat, ssrc: nat, seq0: nat,
      next: nat, ts: nat, packets: seq<Packet>) {
    Room(c, mtu) > 0 && next == (seq0 + |packets|) % 0x1_0000
    && all == packets + Packets(c, nals, mtu, pt, ssrc, next, ts)
  }

  lemma {:induction false} PushingStarts(c: Codec, nals: seq<seq<byte>>, mtu: nat, pt: nat, ssrc: nat, seq0: nat,
      ts: nat)
    requires Room(c, mtu) > 0 && seq0 < 0x1_0000
    ensures Pushing(Packets(c, nals, mtu, pt, ssrc, seq0, ts), c, nals, mtu, pt, ssrc, seq0, seq0, ts, [])
  {
    hide Packets;
  }

  lemma {:induction false} PushingEnds(all: seq<Packet>, c: Codec, mtu: nat, pt: nat, ssrc: nat, seq0: nat, next: nat,
      ts: nat, packets: seq<Packet>)
    requires Pushing(all, c, [], mtu, pt, ssrc, seq0, next, ts, packets)
    ensures packets == all && next == (seq0 + |packets|) % 0x1_0000
  {
  }

  lemma {:induction false} PushingStep(all: seq<Packet>, c: Codec, nals: seq<seq<byte>>, mtu: nat, pt: nat, ssrc: nat,
      seq0: nat, next: nat, ts: nat, packets: seq<Packet>, more: seq<Packet>)
    requires nals != [] && Pushing(all, c, nals, mtu, pt, ssrc, seq0, next, ts, packets)
    requires more == Stamp(Pieces(c, nals[0], mtu), |nals| == 1, pt, ssrc, next, ts)
    ensures Pushing(all, c, nals[1..], mtu, pt, ssrc, seq0, (next + |more|) % 0x1_0000, ts, packets + more)
  {
    var m := PacketsHead(c, nals, mtu, pt, ssrc, next, ts);
    hide Packets, Pieces, Stamp, Room;
    var after := (next + |more|) % 0x1_0000;
    ConcatAssociative(packets, more, Packets(c, nals[1..], mtu, pt, ssrc, next + |more|, ts));
    PacketsMod(c, nals[1..], mtu, pt, ssrc, next + |more|, after, ts);
    CountOn(seq0 + |packets|, |more|);
    assert |packets + more| == |packets| + |more|;
  }

  lemma {:induction false} CountOn(a: nat, b: nat)
    ensures (a % 0x1_0000 + b) % 0x1_0000 == (a + b) % 0x1_0000
  {
  }

  /** Cuts access units into packets; the sequence counter is the only state. */
  class NalPacketizer {
    const codec: Codec
    const out: RtpOut

    constructor (codec: Codec, out: RtpOut)
      ensures this.codec == codec && this.out == out
    {
      this.codec, this.out := codec, out;
    }

    /** The fragments of one NAL longer than the MTU. */
    method PushFragments(nal: seq<byte>, marker: bool, ts: nat) returns (packets: seq<Packet>)
      requires Room(codec, out.mtu) > 0 && |nal| > out.mtu && out.seq_ < 0x1_0000
      modifies out
      ensures packets == Stamp(Pieces(codec, nal, out.mtu), marker, out.payloadType, out.ssrc, old(out.seq_), ts)
      ensures out.seq_ == (old(out.seq_) + |packets|) % 0x1_0000
    {
      hide Sending, FuByte, FragmentHeader, Stamp, Fragments;
      packets := [];
      var off, h := HeaderLen(codec), HeaderLen(codec);
      ghost var mtu, pt, ssrc, seq0 := out.mtu, out.payloadType, out.ssrc, out.seq_;
      ghost var all := Fragments(codec, nal, off, mtu);
      ghost var rest := all;
      SendingStarts(all, marker, pt, ssrc, seq0, ts);
      while off < |nal|
        invariant h <= off <= |nal| && rest == Fragments(codec, nal, off, mtu) && out.seq_ < 0x1_0000
        invariant off == |nal| ==> rest == []
        invariant Sending(all, rest, marker, pt, ssrc, seq0, out.seq_, ts, packets)
      {
        FragmentsHead(codec, nal, off, mtu);
        SendingStep(all, rest, marker, pt, ssrc, seq0, out.seq_, ts, packets);
        var n := Min(|nal| - off, Room(codec, out.mtu));
        var end := off + n >= |nal|;
        var fu := FuByte(codec, nal[0], off == h, end);
        var p := out.Emit(end && marker, ts, FragmentHeader(codec, nal) + [fu] + nal[off..off + n]);
        packets := packets + [p];
        off := off + n;
        rest := rest[1..];
      }
      SendingEnds(all, marker, pt, ssrc, seq0, out.seq_, ts, packets);
    }

    method PushNal(nal: seq<byte>, marker: bool, ts: nat) returns (packets: seq<Packet>)
      requires Room(codec, out.mtu) > 0 && out.seq_ < 0x1_0000
      modifies out
      ensures packets == Stamp(Pieces(codec, nal, out.mtu), marker, out.payloadType, out.ssrc, old(out.seq_), ts)
      ensures out.seq_ == (old(out.seq_) + |packets|) % 0x1_0000
    {
      hide Stamp;
      if |nal| <= out.mtu {
        StampOne(nal, marker, out.payloadType, out.ssrc, out.seq_, ts);
        var p := out.Emit(marker, ts, nal);
        packets := [p];
      } else {
        packets := PushFragments(nal, marker, ts);
      }
    }

    method Push(pts: int, data: seq<byte>) returns (packets: seq<Packet>)
      requires Room(codec, out.mtu) > 0 && out.seq_ < 0x1_0000
      modifies out
      ensures packets == Packets(codec, Nals(data), out.mtu, out.payloadType, out.ssrc, old(out.seq_),
        pts % 0x1_0000_0000)
      ensures out.seq_ == (old(out.seq_) + |packets|) % 0x1_0000
    {
      hide Pushing, Packets, Stamp, Pieces, Nals;
      packets := [];
      var nals := SplitNals(data);
      var ts := pts % 0x1_0000_0000;
      var i := 0;
      ghost var mtu, pt, ssrc, seq0 := out.mtu, out.payloadType, out.ssrc, out.seq_;
      ghost var all := Packets(codec, nals, mtu, pt, ssrc, seq0, ts);
      PushingStarts(codec, nals, mtu, pt, ssrc, seq0, ts);
      ghost var rest := nals;
      while i < |nals|
        invariant 0 <= i <= |nals| && rest == nals[i..] && out.seq_ < 0x1_0000
        invariant Pushing(all, codec, rest, mtu, pt, ssrc, seq0, out.seq_, ts, packets)
      {
        ghost var next := out.seq_;
        var more := PushNal(nals[i], i + 1 == |nals|, ts);
        PushingStep(all, codec, rest, mtu, pt, ssrc, seq0, next, ts, packets, more);
        packets := packets + more;
        i := i + 1;
        rest := rest[1..];
      }
      PushingEnds(all, codec, mtu, pt, ssrc, seq0, out.seq_, ts, packets);
    }
  }

  lemma {:induction false} StampOne(nal: seq<byte>, marker: bool, pt: nat, ssrc: nat, seq0: nat, ts: nat)
    requires seq0 < 0x1_0000
    ensures Stamp([Piece(nal, true)], marker, pt, ssrc, seq0, ts) == [Packet(marker, pt, seq0, ts, ssrc, nal)]
  {
  }

  /** `out` are the samples of the aggregation packet before offset `off`. */
  ghost predicate Unpacking(c: Codec, pl: seq<byte>, start: nat, off: nat, pts: nat, out: seq<Sample>) {
    out + Aggregated(c, pl, off, pts) == Aggregated(c, pl, start, pts)
  }

  lemma {:induction false} UnpackingStarts(c: Codec, pl: seq<byte>, start: nat, pts: nat)
    ensures Unpacking(c, pl, start, start, pts, [])
  {
    hide Aggregated;
  }

  lemma {:induction false} UnpackingStep(c: Codec, pl: seq<byte>, start: nat, off: nat, pts: nat, out: seq<Sample>)
    requires Unpacking(c, pl, start, off, pts, out) && off + 2 <= |pl|
    ensures var n := FromBe16(pl, off);
      if n == 0 then Unpacking(c, pl, start, off + 2, pts, out)
      else if off + 2 + n > |pl| then out == Aggregated(c, pl, start, pts)
      else Unpacking(c, pl, start, off + 2 + n, pts, out + Emitted(c, pl[off + 2..off + 2 + n], pts))
  {
    AggregatedStep(c, pl, off, pts);
    hide Aggregated, FromBe16, Emitted;
    var n := FromBe16(pl, off);
    if n > 0 && off + 2 + n <= |pl| {
      ConcatAssociative(out, Emitted(c, pl[off + 2..off + 2 + n], pts), Aggregated(c, pl, off + 2 + n, pts));
    } else {
      assert out + [] == out;
    }
  }

  lemma {:induction false} UnpackingEnds(c: Codec, pl: seq<byte>, start: nat, off: nat, pts: nat, out: seq<Sample>)
    requires Unpacking(c, pl, start, off, pts, out) && off + 2 > |pl|
    ensures out == Aggregated(c, pl, start, pts)
  {
    AggregatedStep(c, pl, off, pts);
    hide Aggregated;
    assert out + [] == out;
  }

  /** Rebuilds NALs from packets; holds the fragment in progress. */
  class NalDepacketizer {
    const codec: Codec
    var fu: seq<byte>
    var started: bool
    var fuPts: nat

    constructor (codec: Codec)
      ensures this.codec == codec && Held() == State([], false, 0)
    {
      this.codec := codec;
      fu, started, fuPts := [], false, 0;
    }

    ghost function Held(): State
      reads this
    {
      State(fu, started, fuPts)
    }

    method Aggregates(pl: seq<byte>, pts: nat) returns (out: seq<Sample>)
      requires |pl| >= HeaderLen(codec)
      ensures out == Aggregated(codec, pl, HeaderLen(codec), pts)
    {
      hide *;
      out := [];
      var off := HeaderLen(codec);
      UnpackingStarts(codec, pl, off, pts);
      while off + 2 <= |pl|
        invariant off <= |pl| && Unpacking(codec, pl, HeaderLen(codec), off, pts, out)
        decreases |pl| - off
      {
        UnpackingStep(codec, pl, HeaderLen(codec), off, pts, out);
        var n := FromBe16(pl, off);
        if n == 0 {
          off := off + 2;
          continue;
        }
        if off + 2 + n > |pl| {
          return;
        }
        out := out + Emitted(codec, pl[off + 2..off + 2 + n], pts);
        off := off + 2 + n;
      }
      UnpackingEnds(codec, pl, HeaderLen(codec), off, pts, out);
    }

    method Feed(p: Packet) returns (out: seq<Sample>)
      modifies this
      ensures Fed(Held(), out) == FeedOne(codec, old(Held()), p)
    {
      hide Emitted, Aggregated, FromBe16;
      var pl, h := p.payload, HeaderLen(codec);
      out := [];
      if |pl| < h {
        return;
      }
      var t := NalType(codec, pl[0]);
      if (codec.H264? && 1 <= t <= 23) || (codec.H265? && t <= 47) {
        out := Emitted(codec, pl, p.timestamp);
      } else if t == AggregateType(codec) {
        out := Aggregates(pl, p.timestamp);
      } else if t == FragmentType(codec) {
        if |pl| < h + 1 {
          return;
        }
        if pl[h] >= 128 {
          fu, started, fuPts := Rebuilt(codec, pl), true, p.timestamp;
        }
        if !started {
          return;
        }
        fu := fu + pl[h + 1..];
        if pl[h] / 64 % 2 == 1 || p.marker {
          out := Emitted(codec, fu, fuPts);
          fu, started := [], false;
        }
      }
    }

    /** Forgets a fragment in progress (reconnection). */
    method Reset()
      modifies this
      ensures Held() == State([], false, old(fuPts))
    {
      fu, started := [], false;
    }
  }
}
