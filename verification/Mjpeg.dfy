/**
 JPEG pictures over RTP (RFC 2435): what the sender reads of a picture, the packets it makes, and the
 receiver that rebuilds a picture. The fixed Huffman segment and the quantisation tables of each quality
 are parameters.
 */
module Mjpeg {
  import opened Bytes
  import opened JpegHeader
  import Rtp

  // ------------------------------------------------------------ what the sender reads

  /** Size, type, restart interval, quantisation tables, and where the scan lies. */
  datatype Meta = Meta(width: nat, height: nat, kind: nat, restart: nat, tables: seq<byte>, from: nat, to: nat)

  /** The 8-bit tables of a segment that ends at `end`; None when one has 16 bits. */
  function TablesOf(d: seq<byte>, t: nat, n: nat): Option<seq<byte>>
    decreases n
  {
    if n == 0 || t + 64 >= |d| then Some([])
    else if d[t] / 16 != 0 then None
    else match TablesOf(d, t + 65, n - 1) case None => None case Some(rest) => Some(d[t + 1..t + 65] + rest)
  }

  /** What a segment of `len` bytes at `p` adds; None when it cannot be sent. */
  function Segment(d: seq<byte>, code: nat, p: nat, len: nat, m: Meta): Option<Meta>
    requires p + len <= |d| && len >= 2
  {
    if code == 0xDB then
      match TablesOf(d, p + 2, (len - 2) / 65) case None => None case Some(t) => Some(m.(tables := m.tables + t))
    else if code == 0xDD then if len != 4 then None else Some(m.(restart := FromBe16(d, p + 2)))
    else if code == 0xC0 then
      if len < 8 || (d[p + 7] >= 1 && p + 9 >= |d|) then None
      else
        var sampling := if d[p + 7] >= 1 then d[p + 9] else 0x11;
        Some(m.(height := FromBe16(d, p + 3), width := FromBe16(d, p + 5), kind := if sampling == 0x22 then 1 else 0))
    else Some(m)
  }

  function Scan(d: seq<byte>, p: nat, m: Meta): Option<Meta>
    requires p <= |d|
    decreases |d| - p
  {
    if p + 1 >= |d| || d[p] != 0xFF then None
    else
      var k := NextMarker(d, d[p + 1] as nat, p + 2);
      if Standalone(k.code) then Scan(d, k.at, m)
      else if k.code == 0xD9 || k.at + 2 > |d| then None
      else
        var len := FromBe16(d, k.at);
        if len < 2 || k.at + len > |d| then None
        else if k.code == 0xDA then
          var from := k.at + len;
          Some(m.(from := from, to := EndOfScan(d, from, |d| - 1), kind := if m.restart > 0 then m.kind % 64 + 64
            else m.kind))
        else
          match Segment(d, k.code, k.at, len, m) case None => None case Some(n) => Scan(d, k.at + len, n)
  }

  const NONE: Meta := Meta(0, 0, 0, 0, [], 0, 0)

  function ParseJpeg(d: seq<byte>): Option<Meta> {
    if |d| < 4 || d[0] != 0xFF || d[1] != 0xD8 then None else Scan(d, 2, NONE)
  }

  /** What every picture read satisfies. */
  predicate Sound(d: seq<byte>, m: Meta) {
    m.width < 65536 && m.height < 65536 && m.restart < 65536 && m.from <= m.to <= |d|
    && (m.kind == 0 || m.kind == 1 || m.kind == 64 || m.kind == 65) && (m.kind >= 64 <==> m.restart > 0)
  }

  predicate SoundSoFar(m: Meta) {
    m.width < 65536 && m.height < 65536 && m.restart < 65536 && m.kind <= 1
  }

  lemma {:induction false} ScanSound(d: seq<byte>, p: nat, m: Meta)
    requires p <= |d| && SoundSoFar(m)
    ensures Scan(d, p, m).Some? ==> Sound(d, Scan(d, p, m).value)
    decreases |d| - p
  {
    if p + 1 < |d| && d[p] == 0xFF {
      var k := NextMarker(d, d[p + 1] as nat, p + 2);
      if Standalone(k.code) {
        ScanSound(d, k.at, m);
      } else if k.code != 0xD9 && k.at + 2 <= |d| {
        var len := FromBe16(d, k.at);
        if len >= 2 && k.at + len <= |d| && k.code != 0xDA {
          var n := Segment(d, k.code, k.at, len, m);
          if n.Some? {
            assert SoundSoFar(n.value);
            ScanSound(d, k.at + len, n.value);
          }
        }
      }
    }
    hide TablesOf, EndOfScan, NextMarker;
  }

  // ------------------------------------------------------------ packets

  /** Bytes of scan a packet can carry, if at least 64. */
  function Room(m: Meta, mtu: nat, frag: nat): Option<nat> {
    var used := 8 + (if m.restart > 0 then 4 else 0) + (if frag == 0 && m.tables != [] then 4 + |m.tables| else 0);
    if mtu < used || mtu - used < 64 then None else Some(mtu - used)
  }

  function Byte(n: int): byte {
    (n % 256) as byte
  }

  function RestartHeader(m: Meta): seq<byte> {
    if m.restart > 0 then Be16(m.restart) + [0xFF, 0xFF] else []
  }

  function TableHeader(m: Meta, frag: nat): seq<byte> {
    if frag == 0 && m.tables != [] then [0, 0] + Be16(|m.tables|) + m.tables else []
  }

  /** The packet of `n` bytes of scan from offset `frag`; the tables go in the first. */
  function Payload(d: seq<byte>, m: Meta, frag: nat, n: nat): seq<byte>
    requires m.from + frag + n <= |d|
  {
    [0, Byte(frag / 65536), Byte(frag / 256), Byte(frag), Byte(m.kind), 255, Byte(m.width / 8), Byte(m.height / 8)]
    + RestartHeader(m) + TableHeader(m, frag) + d[m.from + frag..m.from + frag + n]
  }

  function Min(a: nat, b: nat): nat {
    if a <= b then a else b
  }

  datatype Piece = Piece(payload: seq<byte>, last: bool)

  function Pieces(d: seq<byte>, m: Meta, mtu: nat, frag: nat): seq<Piece>
    requires m.from <= m.to <= |d|
    decreases m.to - m.from - frag
  {
    var total := m.to - m.from;
    if frag >= total then []
    else
      match Room(m, mtu, frag)
      case None => []
      case Some(max) =>
        var n := Min(total - frag, max);
        [Piece(Payload(d, m, frag, n), frag + n >= total)] + Pieces(d, m, mtu, frag + n)
  }

  function PicturePieces(d: seq<byte>, mtu: nat): seq<Piece> {
    match ParseJpeg(d)
    case None => []
    case Some(m) => if m.from <= m.to <= |d| && m.to > m.from then Pieces(d, m, mtu, 0) else []
  }

  // ------------------------------------------------------------ the receiver

  /** The Huffman codes, and luma and chroma tables, 128 bytes, for a quality. */
  datatype Standard = Standard(codes: seq<byte>, tables: byte -> seq<byte>)

  ghost predicate Complete(s: Standard) {
    |s.codes| < 65534 && forall q :: |s.tables(q)| == 128
  }

  /** The components 1, 2 and 3, the last two sampled once, with their tables; `sampling` is the first one's. */
  function YuvParts(sampling: byte): (b: seq<byte>)
    ensures |b| == 9
  {
    [0x01, sampling, 0x00, 0x02, 0x11, 0x01, 0x03, 0x11, 0x01]
  }

  /** One scan of the three components, with the two pairs of codes. */
  const SCAN_HEAD: seq<byte> := [0x03, 0x01, 0x00, 0x02, 0x11, 0x03, 0x11, 0x00, 0x3F, 0x00]

  function FrameBody(kind: nat, w: nat, h: nat): (b: seq<byte>)
    ensures |b| == 15
  {
    [0x08] + Be16(h) + Be16(w) + [0x03] + YuvParts(if kind % 2 == 1 then 0x22 else 0x21)
  }

  function TableBody(tables: seq<byte>): seq<byte>
    requires |tables| == 128
  {
    [0x00] + tables[..64] + [0x01] + tables[64..]
  }

  /** The segments a receiver writes before the scan of every picture. */
  function HeaderParts(s: Standard, kind: nat, w: nat, h: nat, tables: seq<byte>, restart: nat): seq<Part>
    requires |tables| == 128
  {
    [Part(0xDB, TableBody(tables))] + (if restart > 0 then [Part(0xDD, Be16(restart))] else [])
    + [Part(0xC0, FrameBody(kind, w, h)), Part(0xC4, s.codes), Part(0xDA, SCAN_HEAD)]
  }

  /** A picture's header up to the scan. */
  function Header(s: Standard, kind: nat, w: nat, h: nat, tables: seq<byte>, restart: nat): seq<byte>
    requires |tables| == 128
  {
    [0xFF, 0xD8] + Encode(HeaderParts(s, kind, w, h, tables, restart))
  }

  datatype State = State(buf: seq<byte>, started: bool, pts: int)

  datatype Sample = Sample(pts: int, data: seq<byte>)

  datatype Fed = Fed(st: State, out: Option<Sample>)

  /** The tables that come with the first packet, when its quality says so, and where the scan begins. */
  datatype Carried = Carried(tables: Option<seq<byte>>, off: nat)

  function CarriedTables(b: seq<byte>, first: bool, off: nat): (c: Option<Carried>)
    requires |b| >= 8 && off <= |b|
    ensures c.Some? ==> off <= c.value.off <= |b|
  {
    if !(first && b[5] >= 128) then Some(Carried(None, off))
    else if |b| < off + 4 then None
    else
      var len := FromBe16(b, off + 2);
      if |b| < off + 4 + len then None else Some(Carried(Some(b[off + 4..off + 4 + len]), off + 4 + len))
  }

  function Chosen(s: Standard, q: byte, carried: Option<seq<byte>>): (t: seq<byte>)
    requires Complete(s)
    ensures |t| == 128
  {
    if carried.Some? && |carried.value| == 128 then carried.value else s.tables(q)
  }

  function Feed(s: Standard, st: State, p: Rtp.Packet): Fed
    requires Complete(s)
  {
    var b := p.payload;
    if |b| < 8 || (b[4] >= 64 && |b| < 12) then Fed(st, None)
    else
      var frag := 65536 * (b[1] as int) + 256 * (b[2] as int) + (b[3] as int);
      var restart := if b[4] >= 64 then FromBe16(b, 8) else 0;
      match CarriedTables(b, frag == 0, if b[4] >= 64 then 12 else 8)
      case None => Fed(st, None)
      case Some(c) =>
        if frag != 0 && !st.started then Fed(st, None)
        else
          var now := if frag == 0
            then State(Header(s, (b[4] % 64) as nat, (b[6] as int) * 8, (b[7] as int) * 8, Chosen(s, b[5], c.tables),
              restart), true, p.timestamp)
            else st;
          var grown := now.(buf := now.buf + b[c.off..]);
          if p.marker then Fed(State([], false, grown.pts), Some(Sample(grown.pts, grown.buf + [0xFF, 0xD9])))
          else Fed(grown, None)
  }

  /** All the samples that a run of packets gives. */
  function FeedAll(s: Standard, st: State, ps: seq<Rtp.Packet>): seq<Sample>
    requires Complete(s)
    decreases |ps|
  {
    if ps == [] then []
    else
      var f := Feed(s, st, ps[0]);
      (if f.out.Some? then [f.out.value] else []) + FeedAll(s, f.st, ps[1..])
  }

  // ------------------------------------------------------------ round trip

  /** The packets of the pieces, as the sender numbers them. */
  ghost predicate Carries(ps: seq<Rtp.Packet>, pieces: seq<Piece>, ts: int) {
    |ps| == |pieces|
    && forall i :: 0 <= i < |ps| ==>
      ps[i].payload == pieces[i].payload && ps[i].marker == pieces[i].last && ps[i].timestamp == ts
  }

  /** The header a receiver builds for a picture sent. */
  function HeaderFor(s: Standard, m: Meta): seq<byte>
    requires Complete(s)
  {
    Header(s, m.kind % 64, m.width / 8 % 256 * 8, m.height / 8 % 256 * 8,
           if |m.tables| == 128 then m.tables else s.tables(255), m.restart)
  }

  predicate Sendable(d: seq<byte>, m: Meta, mtu: nat) {
    Sound(d, m) && m.from < m.to && m.to - m.from <= 0x100_0000 && |m.tables| < 65536 && Room(m, mtu, 0).Some?
  }

  /** The first bytes of a packet say where its scan goes and what the picture is. */
  lemma {:induction false} PayloadStart(d: seq<byte>, m: Meta, frag: nat, n: nat)
    requires Sound(d, m) && m.from + frag + n <= |d| && frag < 0x100_0000
    ensures var b := Payload(d, m, frag, n);
      |b| >= 8 + |RestartHeader(m)| + |TableHeader(m, frag)|
      && 65536 * (b[1] as int) + 256 * (b[2] as int) + (b[3] as int) == frag
      && b[4] as int == m.kind && b[5] == 255 && (b[6] as int) == m.width / 8 % 256
        && (b[7] as int) == m.height / 8 % 256
  {
    hide RestartHeader, TableHeader;
    Offset24(frag);
  }

  lemma {:induction false} Offset24(frag: nat)
    requires frag < 0x100_0000
    ensures 65536 * (frag / 65536 % 256) + 256 * (frag / 256 % 256) + frag % 256 == frag
  {
    var h := frag / 256;
    assert h / 256 == frag / 65536;
    assert frag / 65536 < 256;
  }

  lemma {:induction false} PayloadRest(d: seq<byte>, m: Meta, frag: nat, n: nat)
    requires m.from + frag + n <= |d|
    ensures var b, r, t := Payload(d, m, frag, n), |RestartHeader(m)|, |TableHeader(m, frag)|;
      |b| == 8 + r + t + n && b[8..8 + r] == RestartHeader(m) && b[8 + r..8 + r + t] == TableHeader(m, frag)
      && b[8 + r + t..] == d[m.from + frag..m.from + frag + n]
  {
    hide RestartHeader, TableHeader;
  }

  lemma {:induction false} RestartRead(d: seq<byte>, m: Meta, frag: nat, n: nat)
    requires Sound(d, m) && m.from + frag + n <= |d|
    ensures var b := Payload(d, m, frag, n);
      |RestartHeader(m)| == (if m.kind >= 64 then 4 else 0)
      && (m.kind >= 64 ==> |b| >= 12 && FromBe16(b, 8) == m.restart)
  {
    PayloadRest(d, m, frag, n);
    var b := Payload(d, m, frag, n);
    hide Payload, FromBe16, Be16;
    if m.restart > 0 {
      assert b[8..10] == b[8..8 + 4][..2] == Be16(m.restart);
      WordAt(b, 8, m.restart);
    }
  }

  lemma {:induction false} TablesRead(d: seq<byte>, m: Meta, frag: nat, n: nat)
    requires Sound(d, m) && m.from + frag + n <= |d| && frag < 0x100_0000 && |m.tables| < 65536
      && (frag > 0 || m.tables != [])
    ensures var b, off := Payload(d, m, frag, n), 8 + |RestartHeader(m)|;
      |b| >= off && CarriedTables(b, frag == 0, off)
        == Some(if frag == 0 then Carried(Some(m.tables), off + 4 + |m.tables|) else Carried(None, off))
  {
    PayloadRest(d, m, frag, n);
    PayloadStart(d, m, frag, n);
    var b, off := Payload(d, m, frag, n), 8 + |RestartHeader(m)|;
    hide Payload, FromBe16, Be16, RestartHeader, Sound;
    if frag == 0 {
      var t := TableHeader(m, frag);
      assert b[off + 2..off + 4] == b[off..off + |t|][2..4] == Be16(|m.tables|);
      WordAt(b, off + 2, |m.tables|);
      assert b[off + 4..off + 4 + |m.tables|] == b[off..off + |t|][4..] == m.tables;
    }
  }

  /** The state of a receiver that has the scan up to `frag`. */
  function Halfway(s: Standard, d: seq<byte>, m: Meta, frag: nat, ts: int): State
    requires Complete(s) && m.from + frag <= |d|
  {
    State(HeaderFor(s, m) + d[m.from..m.from + frag], true, ts)
  }

  /** The picture a receiver should rebuild. */
  function Rebuilt(s: Standard, d: seq<byte>, m: Meta, ts: int): Sample
    requires Complete(s) && m.from <= m.to <= |d|
  {
    Sample(ts, HeaderFor(s, m) + d[m.from..m.to] + [0xFF, 0xD9])
  }

  lemma {:induction false} Grows(h: seq<byte>, d: seq<byte>, from: nat, frag: nat, n: nat)
    requires from + frag + n <= |d|
    ensures h + d[from..from + frag] + d[from + frag..from + frag + n] == h + d[from..from + frag + n]
  {
    assert d[from..from + frag] + d[from + frag..from + frag + n] == d[from..from + frag + n];
    ConcatAssociative(h, d[from..from + frag], d[from + frag..from + frag + n]);
  }

  /** One packet of a picture takes the receiver from the scan up to `frag` to the scan up to `frag + n`. */
  lemma {:induction false} PieceFed(s: Standard, st: State, p: Rtp.Packet, d: seq<byte>, m: Meta, frag: nat, n: nat)
    requires Complete(s) && Sound(d, m) && m.from + frag + n <= |d| && frag < 0x100_0000
    requires |m.tables| < 65536 && m.tables != [] && p.payload == Payload(d, m, frag, n)
    requires frag > 0 ==> st == Halfway(s, d, m, frag, p.timestamp)
    ensures var next := Halfway(s, d, m, frag + n, p.timestamp);
      Feed(s, st, p) == if p.marker then Fed(State([], false, p.timestamp),
        Some(Sample(p.timestamp, next.buf + [0xFF, 0xD9]))) else Fed(next, None)
  {
    hide Payload, FromBe16, CarriedTables, Header, Sound, HeaderFor, Halfway, Chosen;
    PayloadFacts(d, m, frag, n);
    HalfwayNext(s, d, m, frag, n, p.timestamp);
    HeaderIs(s, m, p.payload[4], p.payload[6], p.payload[7]);
  }

  /** All that a receiver reads from a packet of the picture. */
  lemma {:induction false} PayloadFacts(d: seq<byte>, m: Meta, frag: nat, n: nat)
    requires Sound(d, m) && m.from + frag + n <= |d| && frag < 0x100_0000 && |m.tables| < 65536
      && (frag > 0 || m.tables != [])
    ensures var b := Payload(d, m, frag, n);
      |b| >= 8 && (b[4] >= 64 ==> |b| >= 12)
      && 65536 * (b[1] as int) + 256 * (b[2] as int) + (b[3] as int) == frag
      && b[4] as int == m.kind && b[5] == 255 && (b[6] as int) == m.width / 8 % 256
        && (b[7] as int) == m.height / 8 % 256
      && (if b[4] >= 64 then FromBe16(b, 8) else 0) == m.restart
      && var c := CarriedTables(b, frag == 0, if b[4] >= 64 then 12 else 8);
        c.Some? && c.value.tables == (if frag == 0 then Some(m.tables) else None)
        && b[c.value.off..] == d[m.from + frag..m.from + frag + n]
  {
    PayloadStart(d, m, frag, n);
    PayloadRest(d, m, frag, n);
    RestartRead(d, m, frag, n);
    TablesRead(d, m, frag, n);
    TableHeaderSize(m, frag);
    hide Payload, FromBe16, RestartHeader, TableHeader, CarriedTables;
  }

  lemma {:induction false} HeaderIs(s: Standard, m: Meta, kind: byte, w8: byte, h8: byte)
    requires Complete(s) && kind as int == m.kind && (w8 as int) == m.width / 8 % 256
      && (h8 as int) == m.height / 8 % 256
    ensures Header(s, (kind % 64) as nat, (w8 as int) * 8, (h8 as int) * 8, Chosen(s, 255, Some(m.tables)), m.restart)
      == HeaderFor(s, m)
  {
    hide Header;
  }

  lemma {:induction false} HalfwayNext(s: Standard, d: seq<byte>, m: Meta, frag: nat, n: nat, ts: int)
    requires Complete(s) && m.from + frag + n <= |d|
    ensures var now := if frag == 0 then State(HeaderFor(s, m), true, ts) else Halfway(s, d, m, frag, ts);
      now.started && now.pts == ts
      && Halfway(s, d, m, frag + n, ts) == now.(buf := now.buf + d[m.from + frag..m.from + frag + n])
  {
    hide HeaderFor;
    Grows(HeaderFor(s, m), d, m.from, frag, n);
  }

  lemma {:induction false} TableHeaderSize(m: Meta, frag: nat)
    ensures |TableHeader(m, frag)| == if frag == 0 && m.tables != [] then 4 + |m.tables| else 0
  {
  }

  lemma {:induction false} RoomLater(m: Meta, mtu: nat, frag: nat)
    requires Room(m, mtu, 0).Some?
    ensures Room(m, mtu, frag).Some? && Room(m, mtu, frag).value >= 64
  {
  }

  /** From any offset on, the packets finish the picture. */
  lemma {:induction false} PiecesFed(s: Standard, st: State, ps: seq<Rtp.Packet>, d: seq<byte>, m: Meta, mtu: nat,
      frag: nat, ts: int)
    requires Complete(s) && Sendable(d, m, mtu) && m.tables != [] && frag < m.to - m.from
    requires Carries(ps, Pieces(d, m, mtu, frag), ts) && (frag > 0 ==> st == Halfway(s, d, m, frag, ts))
    ensures FeedAll(s, st, ps) == [Rebuilt(s, d, m, ts)]
    decreases m.to - m.from - frag
  {
    hide Feed, Payload, HeaderFor, Room, Sound, Pieces, Halfway, FeedAll;
    var total := m.to - m.from;
    var n := PiecesHead(d, m, mtu, frag);
    var rest := Pieces(d, m, mtu, frag + n);
    PieceFed(s, st, ps[0], d, m, frag, n) by { SendableIs(d, m, mtu); }
    FeedHead(s, st, ps);
    CarriesTail(ps, Pieces(d, m, mtu, frag), ts);
    if frag + n >= total {
      HalfwayWhole(s, d, m, frag + n, ts);
      FeedNothing(s, Feed(s, st, ps[0]).st, ps[1..]);
    } else {
      PiecesFed(s, Feed(s, st, ps[0]).st, ps[1..], d, m, mtu, frag + n, ts);
    }
  }

  lemma {:induction false} SendableIs(d: seq<byte>, m: Meta, mtu: nat)
    requires Sendable(d, m, mtu)
    ensures Sound(d, m) && m.to - m.from <= 0x100_0000 && |m.tables| < 65536 && Room(m, mtu, 0).Some? && m.to <= |d|
  {
  }

  lemma {:induction false} PiecesHead(d: seq<byte>, m: Meta, mtu: nat, frag: nat) returns (n: nat)
    requires Sendable(d, m, mtu) && frag < m.to - m.from
    ensures n > 0 && frag + n <= m.to - m.from && m.to <= |d| && m.from <= m.to
    ensures var last := frag + n >= m.to - m.from;
      Pieces(d, m, mtu, frag) == [Piece(Payload(d, m, frag, n), last)] + Pieces(d, m, mtu, frag + n)
      && (last <==> Pieces(d, m, mtu, frag + n) == [])
    ensures Room(m, mtu, frag).Some? && n <= Room(m, mtu, frag).value
  {
    RoomLater(m, mtu, frag);
    n := Min(m.to - m.from - frag, Room(m, mtu, frag).value);
    RoomLater(m, mtu, frag + n);
    hide Payload, Room;
  }

  lemma {:induction false} CarriesTail(ps: seq<Rtp.Packet>, pieces: seq<Piece>, ts: int)
    requires Carries(ps, pieces, ts) && pieces != []
    ensures Carries(ps[1..], pieces[1..], ts)
  {
  }

  lemma {:induction false} FeedHead(s: Standard, st: State, ps: seq<Rtp.Packet>)
    requires Complete(s) && ps != []
    ensures var f := Feed(s, st, ps[0]);
      FeedAll(s, st, ps) == (if f.out.Some? then [f.out.value] else []) + FeedAll(s, f.st, ps[1..])
  {
    hide Feed;
  }

  lemma {:induction false} FeedNothing(s: Standard, st: State, ps: seq<Rtp.Packet>)
    requires Complete(s) && ps == []
    ensures FeedAll(s, st, ps) == []
  {
  }

  lemma {:induction false} HalfwayWhole(s: Standard, d: seq<byte>, m: Meta, frag: nat, ts: int)
    requires Complete(s) && m.from + frag == m.to <= |d|
    ensures Rebuilt(s, d, m, ts) == Sample(ts, Halfway(s, d, m, frag, ts).buf + [0xFF, 0xD9])
  {
    hide HeaderFor;
  }

  /**
   A picture with tables and a scan of at most 2^24 bytes, sent over packets whose first can hold the
   tables and 64 bytes, comes back as one picture: the rebuilt header with the picture's own tables when
   they are 128 bytes, the exact scan, and the end marker; whatever the receiver held before.
   */
  lemma {:induction false} PictureRoundTrip(s: Standard, st: State, d: seq<byte>, mtu: nat, ps: seq<Rtp.Packet>,
      ts: int)
    requires Complete(s) && ParseJpeg(d).Some? && Sendable(d, ParseJpeg(d).value, mtu)
      && ParseJpeg(d).value.tables != []
    requires Carries(ps, PicturePieces(d, mtu), ts)
    ensures FeedAll(s, st, ps) == [Rebuilt(s, d, ParseJpeg(d).value, ts)]
  {
    hide Scan, Pieces, FeedAll, Rebuilt;
    PiecesFed(s, st, ps, d, ParseJpeg(d).value, mtu, 0, ts);
  }

  /** Whatever is read of a picture is sound. */
  lemma {:induction false} ParsedSound(d: seq<byte>)
    ensures ParseJpeg(d).Some? ==> Sound(d, ParseJpeg(d).value)
  {
    if |d| >= 2 {
      ScanSound(d, 2, NONE);
    }
    hide Scan;
  }

  // ------------------------------------------------------------ without tables

  lemma {:induction false} HeaderLength(s: Standard, m: Meta, kind: nat, w: nat, h: nat, tables: seq<byte>)
    requires Complete(s) && |tables| == 128
    ensures |Header(s, kind, w, h, tables, m.restart)| == |HeaderFor(s, m)|
  {
    HeaderSize(s, kind, w, h, tables, m.restart);
    HeaderSize(s, m.kind % 64, m.width / 8 % 256 * 8, m.height / 8 % 256 * 8,
               if |m.tables| == 128 then m.tables else s.tables(255), m.restart);
    hide Header;
  }

  lemma {:induction false} HeaderSize(s: Standard, kind: nat, w: nat, h: nat, tables: seq<byte>, restart: nat)
    requires |tables| == 128
    ensures |Header(s, kind, w, h, tables, restart)| == 173 + |s.codes| + (if restart > 0 then 6 else 0)
  {
    var a, b, c := [Part(0xDB, TableBody(tables))], if restart > 0 then [Part(0xDD, Be16(restart))] else [],
                   [Part(0xC0, FrameBody(kind, w, h)), Part(0xC4, s.codes), Part(0xDA, SCAN_HEAD)];
    EncodeJoin(a + b, c);
    EncodeJoin(a, b);
    EncodeThree(c[0], c[1], c[2]);
    EncodeOne(a[0]);
    if restart > 0 {
      EncodeOne(b[0]);
    }
    hide Encode, PartBytes;
    PartSize(a[0]);
    PartSize(Part(0xDD, Be16(restart)));
    PartSize(c[0]);
    PartSize(c[1]);
    PartSize(c[2]);
  }

  /** The receiver holds less than was sent. */
  predicate Behind(s: Standard, st: State, m: Meta, frag: nat)
    requires Complete(s)
  {
    st.started ==> |st.buf| < |HeaderFor(s, m)| + frag
  }

  lemma {:induction false} FirstShort(s: Standard, st: State, p: Rtp.Packet, d: seq<byte>, m: Meta, n: nat)
    requires Complete(s) && Sound(d, m) && m.from + n <= |d| && m.tables == [] && !st.started
      && p.payload == Payload(d, m, 0, n)
    ensures var f := Feed(s, st, p);
      Behind(s, f.st, m, n) && (f.out.Some? ==> |f.out.value.data| < |HeaderFor(s, m)| + n + 2)
  {
    PayloadStart(d, m, 0, n);
    PayloadRest(d, m, 0, n);
    RestartRead(d, m, 0, n);
    var b := p.payload;
    var off := if b[4] >= 64 then 12 else 8;
    assert |b| == off + n by { TableHeaderSize(m, 0); }
    var c := CarriedTables(b, true, off);
    assert c.Some? ==> c.value.off >= off + 4;
    if c.Some? {
      HeaderLength(s, m, (b[4] % 64) as nat, (b[6] as int) * 8, (b[7] as int) * 8, Chosen(s, b[5], c.value.tables));
    }
    hide Payload, FromBe16, Header, HeaderFor, CarriedTables, Chosen, RestartHeader, TableHeader;
  }

  lemma {:induction false} NextShort(s: Standard, st: State, p: Rtp.Packet, d: seq<byte>, m: Meta, frag: nat, n: nat)
    requires Complete(s) && Sound(d, m) && m.from + frag + n <= |d| && 0 < frag < 0x100_0000 && |m.tables| < 65536
    requires Behind(s, st, m, frag) && p.payload == Payload(d, m, frag, n)
    ensures var f := Feed(s, st, p);
      Behind(s, f.st, m, frag + n) && (f.out.Some? ==> |f.out.value.data| < |HeaderFor(s, m)| + frag + n + 2)
  {
    hide Payload, FromBe16, Header, HeaderFor, CarriedTables, Chosen, Sound;
    PayloadFacts(d, m, frag, n);
  }

  lemma {:induction false} PiecesShort(s: Standard, st: State, ps: seq<Rtp.Packet>, d: seq<byte>, m: Meta, mtu: nat,
      frag: nat, ts: int)
    requires Complete(s) && Sendable(d, m, mtu) && m.tables == [] && frag < m.to - m.from
    requires Carries(ps, Pieces(d, m, mtu, frag), ts) && (if frag == 0 then !st.started else Behind(s, st, m, frag))
    ensures Rebuilt(s, d, m, ts) !in FeedAll(s, st, ps)
    decreases m.to - m.from - frag
  {
    hide Feed, Payload, HeaderFor, Room, Sound, Pieces, FeedAll, Behind, Rebuilt;
    var n := PiecesHead(d, m, mtu, frag);
    SendableIs(d, m, mtu);
    if frag == 0 {
      FirstShort(s, st, ps[0], d, m, n);
    } else {
      NextShort(s, st, ps[0], d, m, frag, n);
    }
    FeedHead(s, st, ps);
    CarriesTail(ps, Pieces(d, m, mtu, frag), ts);
    RebuiltLength(s, d, m, ts);
    if frag + n >= m.to - m.from {
      FeedNothing(s, Feed(s, st, ps[0]).st, ps[1..]);
    } else {
      PiecesShort(s, Feed(s, st, ps[0]).st, ps[1..], d, m, mtu, frag + n, ts);
    }
  }

  lemma {:induction false} RebuiltLength(s: Standard, d: seq<byte>, m: Meta, ts: int)
    requires Complete(s) && m.from <= m.to <= |d|
    ensures |Rebuilt(s, d, m, ts).data| == |HeaderFor(s, m)| + (m.to - m.from) + 2
  {
    hide HeaderFor;
  }

  /**
   Exactly when the packets of a picture that can be sent give a fresh receiver the picture their headers
   describe: if and only if it has quantisation tables of its own. Without them the packets still promise
   some, and the receiver takes the start of the scan for them.
   */
  lemma {:induction false} WholeExactly(s: Standard, d: seq<byte>, mtu: nat, ps: seq<Rtp.Packet>, ts: int)
    requires Complete(s) && ParseJpeg(d).Some? && Sendable(d, ParseJpeg(d).value, mtu)
      && Carries(ps, PicturePieces(d, mtu), ts)
    ensures FeedAll(s, State([], false, 0), ps) == [Rebuilt(s, d, ParseJpeg(d).value, ts)]
      <==> ParseJpeg(d).value.tables != []
  {
    hide Scan, Pieces, FeedAll, Rebuilt;
    var st, m := State([], false, 0), ParseJpeg(d).value;
    if m.tables != [] {
      PictureRoundTrip(s, st, d, mtu, ps, ts);
    } else {
      PiecesShort(s, st, ps, d, m, mtu, 0, ts);
    }
  }

  // ------------------------------------------------------------ pictures cut short in their frame header

  /** The sender refuses a picture with such a segment. */
  predicate Refuses(d: seq<byte>, g: Seg)
    requires g.len >= 2
  {
    match g.code
    case 0xDB => TablesOf(d, g.at + 2, (g.len - 2) / 65).None?
    case 0xDD => g.len != 4
    case 0xC0 => g.len < 8
    case _ => false
  }

  /** A frame header that names a component and ends, with the picture, before saying anything of it. */
  predicate Overruns(d: seq<byte>, g: Seg)
    requires g.at + g.len <= |d|
  {
    g.code == 0xC0 && g.len >= 8 && d[g.at + 7] >= 1 && g.at + 9 >= |d|
  }

  /** The sender comes to index past the end of the picture. */
  predicate Crashes(d: seq<byte>, p: nat)
    requires p <= |d|
    decreases |d| - p
  {
    if p + 1 >= |d| || d[p] != 0xFF then false
    else
      var k := NextMarker(d, d[p + 1] as nat, p + 2);
      if Standalone(k.code) then Crashes(d, k.at)
      else if k.code == 0xD9 || k.at + 2 > |d| then false
      else
        var len := FromBe16(d, k.at);
        if len < 2 || k.at + len > |d| || k.code == 0xDA then false
        else
          var g := Seg(k.code, k.at, len);
          Overruns(d, g) || (!Refuses(d, g) && Crashes(d, k.at + len))
  }

  /** The last segment is such a frame header, and no other is refused. */
  ghost predicate EndsShort(d: seq<byte>, ss: seq<Seg>)
    requires forall i :: 0 <= i < |ss| ==> ss[i].at + ss[i].len <= |d| && ss[i].len >= 2
  {
    ss != [] && Overruns(d, ss[|ss| - 1]) && forall i :: 0 <= i < |ss| - 1 ==> !Refuses(d, ss[i])
  }

  /**
   Exactly when the sender indexes past the end: if and only if the picture ends with such a frame header, of
   eight bytes or nine, and nothing before it is refused. The model then reads nothing of it.
   */
  lemma {:induction false} CrashesExactly(d: seq<byte>, p: nat, m: Meta)
    requires p <= |d|
    ensures Crashes(d, p) <==> EndsShort(d, Segments(d, p))
    ensures Crashes(d, p) ==> Scan(d, p, m) == None
    decreases |d| - p
  {
    hide NextMarker, TablesOf, EndOfScan, FromBe16, Refuses, Overruns, Segment, EndsShort, Standalone;
    NoneShort(d);
    if p + 1 < |d| && d[p] == 0xFF {
      var k := NextMarker(d, d[p + 1] as nat, p + 2);
      if Standalone(k.code) {
        CrashesExactly(d, k.at, m);
      } else if k.code != 0xD9 && k.at + 2 <= |d| {
        var len := FromBe16(d, k.at);
        if len >= 2 && k.at + len <= |d| {
          var g := Seg(k.code, k.at, len);
          SegmentFacts(d, g, m);
          if k.code == 0xDA {
            CrashHead(d, g, []);
          } else {
            var n, more := Segment(d, k.code, k.at, len, m), Segments(d, k.at + len);
            CrashesExactly(d, k.at + len, if n.Some? then n.value else m);
            NothingAfter(d, k.at + len);
            CrashHead(d, g, more);
          }
        }
      }
    }
  }

  lemma {:induction false} NoneShort(d: seq<byte>)
    ensures !EndsShort(d, [])
  {
  }

  lemma {:induction false} NothingAfter(d: seq<byte>, p: nat)
    requires p <= |d|
    ensures p + 1 >= |d| ==> Segments(d, p) == []
  {
  }

  lemma {:induction false} SegmentFacts(d: seq<byte>, g: Seg, m: Meta)
    requires g.at + g.len <= |d| && g.len >= 2
    ensures Segment(d, g.code, g.at, g.len, m).None? <==> Refuses(d, g) || Overruns(d, g)
    ensures Overruns(d, g) ==> g.at + g.len + 1 >= |d| && !Refuses(d, g)
    ensures g.code == 0xDA ==> !Overruns(d, g)
  {
    hide TablesOf;
  }

  lemma {:induction false} CrashHead(d: seq<byte>, g: Seg, more: seq<Seg>)
    requires g.at + g.len <= |d| && g.len >= 2
      && forall i :: 0 <= i < |more| ==> more[i].at + more[i].len <= |d| && more[i].len >= 2
    ensures (forall i :: 0 <= i < |[g] + more| ==>
      ([g] + more)[i].at + ([g] + more)[i].len <= |d| && ([g] + more)[i].len >= 2)
    ensures EndsShort(d, [g] + more) <==> if more == [] then Overruns(d, g) else !Refuses(d, g) && EndsShort(d, more)
  {
    hide Overruns, Refuses;
    var ss := [g] + more;
    assert forall i :: 0 <= i < |more| ==> ss[i + 1] == more[i];
    if EndsShort(d, ss) && more != [] {
      assert !Refuses(d, ss[0]);
      forall i | 0 <= i < |more| - 1
        ensures !Refuses(d, more[i])
      {
        assert !Refuses(d, ss[i + 1]);
      }
    }
  }

  // ------------------------------------------------------------ what is sent

  /** Every packet fits the MTU, and only the last is marked. */
  ghost predicate WellSent(pieces: seq<Piece>, mtu: nat) {
    (forall i :: 0 <= i < |pieces| ==> |pieces[i].payload| <= mtu)
    && forall i :: 0 <= i < |pieces| ==> (pieces[i].last <==> i == |pieces| - 1)
  }

  lemma {:induction false} PiecesWellSent(d: seq<byte>, m: Meta, mtu: nat, frag: nat)
    requires Sendable(d, m, mtu)
    ensures WellSent(Pieces(d, m, mtu, frag), mtu) && (frag < m.to - m.from ==> Pieces(d, m, mtu, frag) != [])
    decreases m.to - m.from - frag
  {
    if frag < m.to - m.from {
      var n := PiecesHead(d, m, mtu, frag);
      PieceFits(d, m, mtu, frag, n);
      var last, rest := frag + n >= m.to - m.from, Pieces(d, m, mtu, frag + n);
      hide Payload, Sendable, Pieces;
      PiecesWellSent(d, m, mtu, frag + n);
      WellSentHead(Piece(Payload(d, m, frag, n), last), rest, mtu);
    } else {
      SendableIs(d, m, mtu);
    }
  }

  lemma {:induction false} WellSentHead(p: Piece, rest: seq<Piece>, mtu: nat)
    requires WellSent(rest, mtu) && |p.payload| <= mtu && (p.last <==> rest == [])
    ensures WellSent([p] + rest, mtu)
  {
  }

  lemma {:induction false} PieceFits(d: seq<byte>, m: Meta, mtu: nat, frag: nat, n: nat)
    requires Sendable(d, m, mtu) && frag + n <= m.to - m.from
    requires n <= (if Room(m, mtu, frag).Some? then Room(m, mtu, frag).value else 0)
    ensures Room(m, mtu, frag).Some? && m.to <= |d| && |Payload(d, m, frag, n)| <= mtu
  {
    RoomLater(m, mtu, frag);
    PayloadRest(d, m, frag, n);
    TableHeaderSize(m, frag);
    hide Payload, TableHeader;
  }

  // ------------------------------------------------------------ the packetizer and the depacketizer

  class MjpegPacketizer {
    const out: Rtp.RtpOut

    constructor (o: Rtp.RtpOut)
      ensures out == o
    {
      out := o;
    }

    /** The packets of a picture, numbered on from the sender's counter. */
    method Push(pts: int, d: seq<byte>) returns (ps: seq<Rtp.Packet>)
      requires out.seq_ < 0x1_0000
      modifies out
      ensures Carries(ps, PicturePieces(d, out.mtu), pts % 0x1_0000_0000)
      ensures Rtp.Numbered(ps, old(out.seq_), pts % 0x1_0000_0000)
      ensures out.seq_ == (old(out.seq_) + |ps|) % 0x1_0000
    {
      hide Scan, Payload, Pieces, Room, Rtp.Numbered, Sent;
      ps := [];
      NothingNumbered(out.seq_, pts % 0x1_0000_0000);
      var parsed := ParseJpeg(d);
      if parsed.None? {
        return;
      }
      var m := parsed.value;
      ParsedSound(d);
      if m.to <= m.from {
        return;
      }
      var frag := 0;
      var total := m.to - m.from;
      ghost var pieces := Pieces(d, m, out.mtu, 0);
      SentNothing(pieces, pts % 0x1_0000_0000);
      hide Sound, Carries;
      while frag < total
        invariant frag <= total && out.seq_ == (old(out.seq_) + |ps|) % 0x1_0000
        invariant Sent(ps, pieces, Pieces(d, m, out.mtu, frag), pts % 0x1_0000_0000)
        invariant Rtp.Numbered(ps, old(out.seq_), pts % 0x1_0000_0000)
        decreases total - frag
      {
        PiecesStep(d, m, out.mtu, frag);
        var room := Room(m, out.mtu, frag);
        if room.None? {
          SentAll(ps, pieces, pts % 0x1_0000_0000);
          return;
        }
        var n := Min(total - frag, room.value);
        var p := out.Emit(frag + n >= total, pts % 0x1_0000_0000, Payload(d, m, frag, n));
        SentNext(ps, pieces, Piece(Payload(d, m, frag, n), frag + n >= total), Pieces(d, m, out.mtu, frag + n), p,
          pts % 0x1_0000_0000);
        NextNumbered(ps, p, old(out.seq_), pts % 0x1_0000_0000);
        ps := ps + [p];
        frag := frag + n;
      }
      PiecesEnd(d, m, out.mtu, frag);
      SentAll(ps, pieces, pts % 0x1_0000_0000);
    }
  }

  /** `ps` carry the pieces up to those that are left. */
  ghost predicate Sent(ps: seq<Rtp.Packet>, pieces: seq<Piece>, left: seq<Piece>, ts: int) {
    |ps| + |left| == |pieces| && pieces[|ps|..] == left && Carries(ps, pieces[..|ps|], ts)
  }

  lemma {:induction false} SentNothing(pieces: seq<Piece>, ts: int)
    ensures Sent([], pieces, pieces, ts)
  {
  }

  lemma {:induction false} SentAll(ps: seq<Rtp.Packet>, pieces: seq<Piece>, ts: int)
    requires Sent(ps, pieces, [], ts)
    ensures Carries(ps, pieces, ts)
  {
    assert pieces[..|ps|] == pieces;
  }

  lemma {:induction false} NothingNumbered(seq0: nat, ts: nat)
    ensures Rtp.Numbered([], seq0, ts)
  {
  }

  lemma {:induction false} NextNumbered(ps: seq<Rtp.Packet>, p: Rtp.Packet, seq0: nat, ts: nat)
    requires Rtp.Numbered(ps, seq0, ts) && p.sequence == (seq0 + |ps|) % 0x1_0000 && p.timestamp == ts
    ensures Rtp.Numbered(ps + [p], seq0, ts)
  {
  }

  lemma {:induction false} SentNext(ps: seq<Rtp.Packet>, pieces: seq<Piece>, next: Piece, left: seq<Piece>,
      p: Rtp.Packet, ts: int)
    requires Sent(ps, pieces, [next] + left, ts) && p.payload == next.payload && p.marker == next.last
      && p.timestamp == ts
    ensures Sent(ps + [p], pieces, left, ts)
  {
    assert pieces[|ps|] == ([next] + left)[0] && pieces[|ps| + 1..] == ([next] + left)[1..];
    assert pieces[..|ps| + 1] == pieces[..|ps|] + [next];
  }

  lemma {:induction false} PiecesStep(d: seq<byte>, m: Meta, mtu: nat, frag: nat)
    requires m.from <= m.to <= |d| && frag < m.to - m.from
    ensures var room := Room(m, mtu, frag);
      if room.None? then Pieces(d, m, mtu, frag) == []
      else
        var n := Min(m.to - m.from - frag, room.value);
        n > 0 && Pieces(d, m, mtu, frag) == [Piece(Payload(d, m, frag, n), frag + n >= m.to - m.from)] + Pieces(d, m,
          mtu, frag + n)
  {
    hide Payload;
  }

  lemma {:induction false} PiecesEnd(d: seq<byte>, m: Meta, mtu: nat, frag: nat)
    requires m.from <= m.to <= |d| && frag >= m.to - m.from
    ensures Pieces(d, m, mtu, frag) == []
  {
  }

  class MjpegDepacketizer {
    const s: Standard
    var buf: seq<byte>
    var started: bool
    var pts: int

    ghost function Now(): State
      reads this
    {
      State(buf, started, pts)
    }

    constructor (standard: Standard)
      ensures s == standard && Now() == State([], false, 0)
    {
      s, buf, started, pts := standard, [], false, 0;
    }

    method Take(p: Rtp.Packet) returns (out: Option<Sample>)
      requires Complete(s)
      modifies this
      ensures Fed(Now(), out) == Feed(s, old(Now()), p)
    {
      hide FromBe16, Header, Chosen;
      var b := p.payload;
      if |b| < 8 {
        return None;
      }
      var frag := 65536 * (b[1] as int) + 256 * (b[2] as int) + (b[3] as int);
      var off, restart := 8, 0;
      if b[4] >= 64 {
        if |b| < off + 4 {
          return None;
        }
        restart := FromBe16(b, off);
        off := off + 4;
      }
      var tables: Option<seq<byte>> := None;
      if frag == 0 && b[5] >= 128 {
        if |b| < off + 4 {
          return None;
        }
        var len := FromBe16(b, off + 2);
        off := off + 4;
        if |b| < off + len {
          return None;
        }
        tables := Some(b[off..off + len]);
        off := off + len;
      }
      if frag == 0 {
        started, pts := true, p.timestamp;
        buf := Header(s, (b[4] % 64) as nat, (b[6] as int) * 8, (b[7] as int) * 8, Chosen(s, b[5], tables), restart);
      } else if !started {
        return None;
      }
      buf := buf + b[off..];
      if p.marker {
        out := Some(Sample(pts, buf + [0xFF, 0xD9]));
        buf, started := [], false;
      } else {
        out := None;
      }
    }

    method Forget()
      modifies this
      ensures Now() == State([], false, old(pts))
    {
      buf, started := [], false;
    }
  }
}
