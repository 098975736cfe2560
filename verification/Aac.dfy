/** AAC over RTP (RFC 3640): units behind a section of headers, and the depacketizer that cuts them out. */
module Aac {
  import opened Bytes
  import opened RbspBits
  import Rtp

  /** Widths of the fields of a unit's header. */
  datatype Mode = Mode(size: nat, index: nat, delta: nat)

  const HBR: Mode := Mode(13, 3, 3)

  datatype Sample = Sample(pts: int, data: seq<byte>)

  /** `n` bits from bit `off`, highest first, in a 32-bit register; fewer at the end of the buffer. */
  function BitsTail(b: seq<byte>, off: nat, n: nat, v: nat): nat
    decreases n
  {
    if n == 0 || off / 8 >= |b| then v
    else BitsTail(b, off + 1, n - 1, (2 * v) % 0x1_0000_0000 + Num(BitOf(b[off / 8], off % 8)))
  }

  method ReadBitsOf(b: seq<byte>, off: nat, n: nat) returns (v: nat)
    ensures v == BitsTail(b, off, n, 0)
  {
    v := 0;
    for i := 0 to n
      invariant BitsTail(b, off, n, 0) == BitsTail(b, off + i, n - i, v)
    {
      var at := (off + i) / 8;
      if at >= |b| {
        return;
      }
      v := (2 * v) % 0x1_0000_0000 + Num(BitOf(b[at], (off + i) % 8));
    }
  }

  /** The sizes of units `i` to `n`, whose headers start at bit `bit`. */
  function Sizes(m: Mode, b: seq<byte>, i: nat, n: nat, bit: nat): seq<nat>
    decreases n - i
  {
    if i >= n then []
    else [BitsTail(b, bit, m.size, 0)] + Sizes(m, b, i + 1, n, bit + m.size + if i == 0 then m.index else m.delta)
  }

  /** The units, one after the other from `at`; one that does not fit ends the packet. */
  function Cut(b: seq<byte>, ts: int, sizes: seq<nat>, i: nat, at: nat): seq<Sample>
    decreases |sizes| - i
  {
    if i >= |sizes| then []
    else if sizes[i] == 0 then Cut(b, ts, sizes, i + 1, at)
    else if at + sizes[i] > |b| then []
    else [Sample(ts + i * 1024, b[at..at + sizes[i]])] + Cut(b, ts, sizes, i + 1, at + sizes[i])
  }

  function Feed(m: Mode, ts: int, b: seq<byte>): seq<Sample> {
    if |b| < 2 then []
    else
      var bits := FromBe16(b, 0);
      var headers := (bits + 7) / 8;
      if 2 + headers > |b| || m.size + m.index == 0 then []
      else Cut(b, ts, Sizes(m, b, 0, bits / (m.size + m.index), 16), 0, 2 + headers)
  }

  /** What the server sends: one unit behind one header, whose size field has thirteen bits. */
  function Payload(data: seq<byte>): seq<byte> {
    [0, 16] + Be16(|data| % 8192 * 8) + data
  }

  // ------------------------------------------------------------ units by the standard

  /** Section 3.2.1 of RFC 3640, with 13-bit sizes and indices of zero. */
  function Headers(units: seq<seq<byte>>): (h: seq<byte>)
    ensures |h| == 2 * |units|
  {
    if units == [] then [] else Headers(units[..|units| - 1]) + Be16(|units[|units| - 1]| % 8192 * 8)
  }

  function Joined(units: seq<seq<byte>>): seq<byte> {
    if units == [] then [] else Joined(units[..|units| - 1]) + units[|units| - 1]
  }

  function Packed(units: seq<seq<byte>>): seq<byte> {
    Be16(16 * |units|) + Headers(units) + Joined(units)
  }

  predicate Sized(units: seq<seq<byte>>) {
    |units| < 4096 && forall i :: 0 <= i < |units| ==> 1 <= |units[i]| <= 8191
  }

  // ------------------------------------------------------------ reading a size

  lemma {:induction false} BinaryJoin(high: nat, low: nat, w: nat)
    requires low < Power2(w)
    ensures forall v: nat :: Binary(high * Power2(w) + low, v + w) == Binary(high, v) + Binary(low, w)
    decreases w
  {
    forall v: nat
      ensures Binary(high * Power2(w) + low, v + w) == Binary(high, v) + Binary(low, w)
    {
      if w == 0 {
        assert Binary(high, v) + [] == Binary(high, v);
      } else {
        BinaryJoin(high, low / 2, w - 1);
        var n := high * Power2(w) + low;
        HalfOfJoin(high, low, w);
        assert Binary(n, v + w) == Binary(n / 2, v + w - 1) + [n % 2 == 1];
        assert v + w - 1 == v + (w - 1);
        ConcatAssociative(Binary(high, v), Binary(low / 2, w - 1), [low % 2 == 1]);
      }
    }
  }

  lemma {:induction false} HalfOfJoin(high: nat, low: nat, w: nat)
    requires w > 0
    ensures var n := high * Power2(w) + low;
      n / 2 == high * Power2(w - 1) + low / 2 && n % 2 == low % 2
  {
    var n := high * Power2(w) + low;
    assert high * Power2(w) == 2 * (high * Power2(w - 1));
    Divided(n, 2, high * Power2(w - 1) + low / 2, low % 2);
  }

  function ValueOf(bits: seq<bool>): nat {
    if bits == [] then 0 else 2 * ValueOf(bits[..|bits| - 1]) + Num(bits[|bits| - 1])
  }

  lemma {:induction false} ValueOfBinary(n: nat, w: nat)
    requires n < Power2(w)
    ensures ValueOf(Binary(n, w)) == n
    decreases w
  {
    if w > 0 {
      ValueOfBinary(n / 2, w - 1);
      assert Binary(n, w)[..w - 1] == Binary(n / 2, w - 1);
    }
  }

  lemma {:induction false} ValueNext(bits: seq<bool>, k: nat)
    requires k < |bits|
    ensures ValueOf(bits[..k + 1]) == 2 * ValueOf(bits[..k]) + Num(bits[k])
  {
    assert bits[..k + 1][..k] == bits[..k];
  }

  lemma {:induction false} ByteIsValue(bits: seq<bool>)
    requires |bits| == 8
    ensures (ByteOf(bits) as int) == ValueOf(bits)
  {
    assert ValueOf(bits[..0]) == 0;
    ValueNext(bits, 0);
    ValueNext(bits, 1);
    ValueNext(bits, 2);
    ValueNext(bits, 3);
    ValueNext(bits, 4);
    ValueNext(bits, 5);
    ValueNext(bits, 6);
    ValueNext(bits, 7);
    hide ValueOf;
    assert bits[..8] == bits;
  }

  lemma {:induction false} BinaryByte(b: byte)
    ensures BitsOf([b]) == Binary(b as int, 8)
  {
    assert Power2(8) == 256 by { assert Power2(4) == 16; }
    var bits := Binary(b as int, 8);
    hide Binary, BitsOf, Power2, ByteOf;
    ValueOfBinary(b as int, 8);
    ByteIsValue(bits);
    BitsOfOne(bits);
  }

  /** A big-endian word is its sixteen bits. */
  lemma {:induction false} BinaryWord(x: nat)
    requires x < 65536
    ensures BitsOf(Be16(x)) == Binary(x, 16)
  {
    hide BitsOf, Be16, Power2, Binary;
    WordParts(x);
    var hi, lo := Be16(x)[0], Be16(x)[1];
    assert Power2(8) == 256 by { ByteWidth(); }
    BitsOfHead(hi, [lo]);
    BinaryByte(hi);
    BinaryByte(lo);
    BinaryJoin(hi as int, lo as int, 8);
    assert Binary((hi as int) * 256 + lo as int, 8 + 8) == Binary(hi as int, 8) + Binary(lo as int, 8);
  }

  lemma {:induction false} ByteWidth()
    ensures Power2(8) == 256
  {
    assert Power2(4) == 16;
  }

  lemma {:induction false} WordParts(x: nat)
    requires x < 65536
    ensures var hi, lo := Be16(x)[0], Be16(x)[1]; Be16(x) == [hi] + [lo] && x == (hi as int) * 256 + lo as int
    ensures x == 16 ==> Be16(x) == [0, 16]
  {
  }

  lemma {:induction false} BitsOfSlice(b: seq<byte>, i: nat, j: nat)
    requires i <= j <= |b|
    ensures BitsOf(b)[8 * i..8 * j] == BitsOf(b[i..j])
  {
    hide BitOf;
    forall k | 0 <= k < 8 * (j - i)
      ensures BitsOf(b)[8 * i..8 * j][k] == BitsOf(b[i..j])[k]
    {
      Divided(8 * i + k, 8, i + k / 8, k % 8);
    }
  }

  lemma {:induction false} TopBit(x: nat, n: nat) returns (top: nat, rest: nat)
    requires n > 0 && x < Power2(n)
    ensures x == top * Power2(n - 1) + rest && rest < Power2(n - 1) && (top == 0 || top == 1)
    ensures Binary(x, n) == [top == 1] + Binary(rest, n - 1)
  {
    var p := Power2(n - 1);
    top, rest := x / p, x % p;
    assert Power2(n) == 2 * p && x == top * p + rest;
    Between(top, 2, p);
    BinaryJoin(top, rest, n - 1);
    assert Binary(top * p + rest, 1 + (n - 1)) == Binary(top, 1) + Binary(rest, n - 1);
    assert Binary(top, 1) == [top == 1] by { assert Binary(top / 2, 0) == []; }
  }

  lemma {:induction false} Shifted(v: nat, top: nat, rest: nat, p: nat)
    requires p > 0
    ensures (2 * v + top) * p + rest == v * (2 * p) + (top * p + rest)
  {
  }

  lemma {:induction false} TailOfBinary(b: seq<byte>, off: nat, x: nat, n: nat, v: nat)
    requires x < Power2(n) && Ahead(BitsOf(b), off, Binary(x, n)) && v * Power2(n) + x < 0x1_0000_0000
    ensures BitsTail(b, off, n, v) == v * Power2(n) + x
    decreases n
  {
    hide Binary, Ahead, BitsOf, BitOf;
    if n == 0 {
      ZeroWidth(b, off, x, v);
      return;
    }
    var top, rest := TopBit(x, n);
    var p := Power2(n - 1);
    assert Power2(n) == 2 * p;
    AheadSplit(BitsOf(b), off, [top == 1], Binary(rest, n - 1));
    FirstBit(b, off, top == 1);
    Shifted(v, top, rest, p);
    Doubled(v, p, x);
    hide Power2;
    TailOfBinary(b, off + 1, rest, n - 1, 2 * v + top);
    TailNext(b, off, n, v);
  }

  lemma {:induction false} ZeroWidth(b: seq<byte>, off: nat, x: nat, v: nat)
    requires x < Power2(0)
    ensures BitsTail(b, off, 0, v) == v * Power2(0) + x
  {
  }

  lemma {:induction false} TailNext(b: seq<byte>, off: nat, n: nat, v: nat)
    requires n > 0 && off / 8 < |b| && 2 * v < 0x1_0000_0000
    ensures BitsTail(b, off, n, v) == BitsTail(b, off + 1, n - 1, 2 * v + Num(BitOf(b[off / 8], off % 8)))
  {
    hide BitOf;
  }

  lemma {:induction false} Doubled(v: nat, p: nat, x: nat)
    requires p > 0 && v * (2 * p) + x < 0x1_0000_0000
    ensures 2 * v < 0x1_0000_0000
  {
    ProductAtMost(1, p, 2 * v);
    assert v * (2 * p) == p * (2 * v);
  }

  lemma {:induction false} FirstBit(b: seq<byte>, off: nat, bit: bool)
    requires Ahead(BitsOf(b), off, [bit])
    ensures off / 8 < |b| && BitOf(b[off / 8], off % 8) == bit
  {
    hide BitOf;
    assert BitsOf(b)[off..off + 1][0] == BitsOf(b)[off];
  }

  /** The size read from a unit's header. */
  lemma {:induction false} SizeRead(b: seq<byte>, at: nat, len: nat)
    requires at + 2 <= |b| && b[at..at + 2] == Be16(len * 8) && len <= 8191
    ensures BitsTail(b, 8 * at, 13, 0) == len
  {
    BinaryWord(len * 8);
    BitsOfSlice(b, at, at + 2);
    assert Power2(3) == 8 by { assert Power2(1) == 2; }
    assert Power2(13) == 8192 by { assert Power2(7) == 128 && Power2(10) == 1024; }
    BinaryJoin(len, 0, 3);
    hide BitsOf, Be16, BitsTail, Power2, Binary;
    assert Binary(len * 8 + 0, 13 + 3) == Binary(len, 13) + Binary(0, 3);
    assert Ahead(BitsOf(b), 8 * at, Binary(len, 13) + Binary(0, 3));
    AheadSplit(BitsOf(b), 8 * at, Binary(len, 13), Binary(0, 3));
    TailOfBinary(b, 8 * at, len, 13, 0);
  }

  // ------------------------------------------------------------ round trips

  lemma {:induction false} HeaderAt(units: seq<seq<byte>>, i: nat)
    requires i < |units|
    ensures Headers(units)[2 * i..2 * i + 2] == Be16(|units[i]| % 8192 * 8)
    decreases |units|
  {
    hide Be16;
    var n := |units| - 1;
    if i < n {
      HeaderAt(units[..n], i);
      assert Headers(units)[2 * i..2 * i + 2] == Headers(units[..n])[2 * i..2 * i + 2];
    }
  }

  lemma {:induction false} UnitAt(units: seq<seq<byte>>, i: nat)
    requires i < |units|
    ensures var off := |Joined(units[..i])|;
      off + |units[i]| <= |Joined(units)| && Joined(units)[off..off + |units[i]|] == units[i]
      && |Joined(units[..i + 1])| == off + |units[i]|
    decreases |units|
  {
    var n := |units| - 1;
    assert units[..i + 1][..i] == units[..i];
    if i < n {
      UnitAt(units[..n], i);
      assert units[..n][..i] == units[..i] && units[..n][..i + 1] == units[..i + 1];
      var off := |Joined(units[..i])|;
      assert Joined(units)[off..off + |units[i]|] == Joined(units[..n])[off..off + |units[i]|];
    }
  }

  function Lengths(units: seq<seq<byte>>): (l: seq<nat>)
    ensures |l| == |units|
  {
    seq(|units|, i requires 0 <= i < |units| => |units[i]|)
  }

  /** The samples the units should come back as. */
  function Samples(units: seq<seq<byte>>, ts: int, i: nat): seq<Sample>
    decreases |units| - i
  {
    if i >= |units| then [] else [Sample(ts + i * 1024, units[i])] + Samples(units, ts, i + 1)
  }

  lemma {:induction false} PackedParts(units: seq<seq<byte>>, i: nat)
    requires i < |units|
    ensures var b := Packed(units);
      |b| == 2 + 2 * |units| + |Joined(units)|
      && b[2 + 2 * i..2 + 2 * i + 2] == Headers(units)[2 * i..2 * i + 2]
      && (var off, at := |Joined(units[..i])|, 2 + 2 * |units| + |Joined(units[..i])|;
          off + |units[i]| <= |Joined(units)| && b[at..at + |units[i]|] == units[i] && at + |units[i]| <= |b|)
  {
    hide Be16;
    UnitAt(units, i);
    hide Headers, Joined;
    var off := |Joined(units[..i])|;
    assert Packed(units)[2 + 2 * |units| + off..2 + 2 * |units| + off + |units[i]|]
      == Joined(units)[off..off + |units[i]|];
  }

  lemma {:induction false} SizesAre(units: seq<seq<byte>>, i: nat)
    requires Sized(units) && i <= |units|
    ensures Sizes(HBR, Packed(units), i, |units|, 16 + 16 * i) == Lengths(units)[i..]
    decreases |units| - i
  {
    hide BitsTail, Packed, Be16, Headers;
    if i < |units| {
      PackedParts(units, i);
      HeaderAt(units, i);
      SizeRead(Packed(units), 2 + 2 * i, |units[i]|);
      SizesAre(units, i + 1);
      assert Lengths(units)[i..] == [|units[i]|] + Lengths(units)[i + 1..];
    }
  }

  lemma {:induction false} CutUnits(units: seq<seq<byte>>, ts: int, i: nat)
    requires Sized(units) && i <= |units|
    ensures Cut(Packed(units), ts, Lengths(units), i, 2 + 2 * |units| + |Joined(units[..i])|) == Samples(units, ts, i)
    decreases |units| - i
  {
    hide Packed, Joined, Headers, Lengths;
    if i < |units| {
      PackedParts(units, i);
      UnitAt(units, i);
      LengthAt(units, i);
      CutUnits(units, ts, i + 1);
    }
  }

  lemma {:induction false} LengthAt(units: seq<seq<byte>>, i: nat)
    requires i < |units|
    ensures Lengths(units)[i] == |units[i]|
  {
  }

  lemma {:induction false} FeedShape(b: seq<byte>, ts: int, n: nat)
    requires |b| >= 2 + 2 * n && FromBe16(b, 0) == 16 * n
    ensures Feed(HBR, ts, b) == Cut(b, ts, Sizes(HBR, b, 0, n, 16), 0, 2 + 2 * n)
  {
    hide Cut, Sizes, FromBe16;
    Divided(16 * n, 16, n, 0);
    Divided(16 * n + 7, 8, 2 * n, 7);
  }

  lemma {:induction false} NothingJoined(units: seq<seq<byte>>)
    ensures Joined(units[..0]) == [] && Lengths(units)[0..] == Lengths(units)
  {
    assert units[..0] == [];
  }

  lemma {:induction false} PackedStarts(units: seq<seq<byte>>)
    ensures |Packed(units)| >= 2 + 2 * |units| && Packed(units)[0..2] == Be16(16 * |units|)
  {
    hide Be16, Headers, Joined;
  }

  /** A packet of up to 4095 units of 1 to 8191 bytes gives back every unit, each 1024 ticks after the one before. */
  lemma {:induction false} UnitsRoundTrip(units: seq<seq<byte>>, ts: int)
    requires Sized(units) && units != []
    ensures Feed(HBR, ts, Packed(units)) == Samples(units, ts, 0)
  {
    hide Packed, Sizes, Cut, FromBe16, Joined, Lengths, Samples, Be16, Feed, Sized;
    var b, n := Packed(units), |units|;
    PackedStarts(units);
    assert n < 4096 by { SizedCount(units); }
    CountRead(b, 16 * n);
    FeedShape(b, ts, n);
    SizesAre(units, 0);
    CutUnits(units, ts, 0);
    NothingJoined(units);
  }

  lemma {:induction false} SizedCount(units: seq<seq<byte>>)
    requires Sized(units)
    ensures |units| < 4096
  {
  }

  lemma {:induction false} CountRead(b: seq<byte>, x: nat)
    requires |b| >= 2 && b[0..2] == Be16(x) && x < 65536
    ensures FromBe16(b, 0) == x
  {
    assert b[0] == b[0..2][0] && b[1] == b[0..2][1];
  }

  /** What comes back of one unit sent by the server: as much as its 13-bit size can say. */
  lemma {:induction false} PayloadFeeds(data: seq<byte>, ts: int)
    ensures var s := |data| % 8192;
      Feed(HBR, ts, Payload(data)) == if s == 0 then [] else [Sample(ts, data[..s])]
  {
    hide BitsTail, Payload, FromBe16, Feed, Cut, Be16;
    var b, s := Payload(data), |data| % 8192;
    PayloadParts(data);
    WordParts(16);
    CountRead(b, 16);
    FeedShape(b, ts, 1);
    SizeRead(b, 2, s);
    OneSize(b, s);
    CutOne(b, ts, s);
  }

  lemma {:induction false} PayloadParts(data: seq<byte>)
    ensures var b, s := Payload(data), |data| % 8192;
      |b| == 4 + |data| && s <= |data| && b[0..2] == [0, 16] && b[2..4] == Be16(s * 8) && b[4..4 + s] == data[..s]
  {
    hide Be16;
  }

  lemma {:induction false} OneSize(b: seq<byte>, s: nat)
    requires BitsTail(b, 16, 13, 0) == s
    ensures Sizes(HBR, b, 0, 1, 16) == [s]
  {
    hide BitsTail;
    assert Sizes(HBR, b, 1, 1, 32) == [];
  }

  lemma {:induction false} CutOne(b: seq<byte>, ts: int, s: nat)
    requires 4 + s <= |b|
    ensures Cut(b, ts, [s], 0, 4) == if s == 0 then [] else [Sample(ts, b[4..4 + s])]
  {
    assert Cut(b, ts, [s], 1, 4) == [] && Cut(b, ts, [s], 1, 4 + s) == [];
  }

  /** A unit sent comes back whole exactly when it has from 1 to 8191 bytes. */
  lemma {:induction false} UnitRoundTrip(data: seq<byte>, ts: int)
    ensures Feed(HBR, ts, Payload(data)) == [Sample(ts, data)] <==> 1 <= |data| <= 8191
  {
    hide Feed, Payload;
    PayloadFeeds(data, ts);
    var s := |data| % 8192;
    if 1 <= |data| <= 8191 {
      assert data[..s] == data;
    } else if s != 0 {
      assert |data[..s]| < |data|;
    }
  }

  lemma {:induction false} CutNext(b: seq<byte>, ts: int, sizes: seq<nat>, i: nat, at: nat)
    requires i < |sizes|
    ensures Cut(b, ts, sizes, i, at) ==
      if sizes[i] == 0 then Cut(b, ts, sizes, i + 1, at)
      else if at + sizes[i] > |b| then []
      else [Sample(ts + i * 1024, b[at..at + sizes[i]])] + Cut(b, ts, sizes, i + 1, at + sizes[i])
  {
  }

  lemma {:induction false} CutDone(b: seq<byte>, ts: int, sizes: seq<nat>, at: nat)
    ensures Cut(b, ts, sizes, |sizes|, at) == []
  {
  }

  // ------------------------------------------------------------ the packetizer and the depacketizer

  class AacPacketizer {
    const out: Rtp.RtpOut

    constructor (o: Rtp.RtpOut)
      ensures out == o
    {
      out := o;
    }

    method Push(pts: int, data: seq<byte>) returns (ps: seq<Rtp.Packet>)
      requires out.seq_ < 0x1_0000
      modifies out
      ensures data == [] ==> ps == [] && out.seq_ == old(out.seq_)
      ensures data != [] ==>
        ps == [Rtp.Packet(true, out.payloadType, old(out.seq_), pts % 0x1_0000_0000, out.ssrc, Payload(data))]
        && out.seq_ == (old(out.seq_) + 1) % 0x1_0000
    {
      if data == [] {
        return [];
      }
      var p := out.Emit(true, pts % 0x1_0000_0000, [0, 16] + Be16(|data| % 8192 * 8) + data);
      ps := [p];
    }
  }

  class AacDepacketizer {
    var mode: Mode

    constructor ()
      ensures mode == HBR
    {
      mode := HBR;
    }

    method SetMode(size: int, index: int, delta: int)
      modifies this
      ensures mode == Mode(if size > 0 then size else old(mode.size), if index >= 0 then index else old(mode.index),
                           if delta >= 0 then delta else old(mode.delta))
    {
      if size > 0 {
        mode := mode.(size := size);
      }
      if index >= 0 {
        mode := mode.(index := index);
      }
      if delta >= 0 {
        mode := mode.(delta := delta);
      }
    }

    method ReadSizes(b: seq<byte>, n: nat) returns (sizes: seq<nat>)
      ensures sizes == Sizes(mode, b, 0, n, 16)
    {
      hide BitsTail;
      sizes := [];
      var bit: nat := 16;
      for i := 0 to n
        invariant Sizes(mode, b, 0, n, 16) == sizes + Sizes(mode, b, i, n, bit)
      {
        var s := ReadBitsOf(b, bit, mode.size);
        ghost var next: nat := bit + mode.size + if i == 0 then mode.index else mode.delta;
        ConcatAssociative(sizes, [s], Sizes(mode, b, i + 1, n, next));
        sizes := sizes + [s];
        bit := bit + mode.size + if i == 0 then mode.index else mode.delta;
      }
    }

    method CutOut(b: seq<byte>, ts: int, sizes: seq<nat>, start: nat) returns (out: seq<Sample>)
      ensures out == Cut(b, ts, sizes, 0, start)
    {
      hide Cut;
      out := [];
      var at: nat := start;
      for i := 0 to |sizes|
        invariant Cut(b, ts, sizes, 0, start) == out + Cut(b, ts, sizes, i, at)
      {
        CutNext(b, ts, sizes, i, at);
        var len := sizes[i];
        if len == 0 {
          continue;
        }
        if at + len > |b| {
          return;
        }
        var s := Sample(ts + i * 1024, b[at..at + len]);
        ConcatAssociative(out, [s], Cut(b, ts, sizes, i + 1, at + len));
        out := out + [s];
        at := at + len;
      }
      CutDone(b, ts, sizes, at);
    }

    method Take(p: Rtp.Packet) returns (out: seq<Sample>)
      ensures out == Feed(mode, p.timestamp, p.payload)
    {
      hide Sizes, FromBe16, Cut;
      var b := p.payload;
      if |b| < 2 {
        return [];
      }
      var bits := FromBe16(b, 0);
      var headers := (bits + 7) / 8;
      if 2 + headers > |b| {
        return [];
      }
      var per := mode.size + mode.index;
      if per == 0 {
        return [];
      }
      var sizes := ReadSizes(b, bits / per);
      out := CutOut(b, p.timestamp, sizes, 2 + headers);
    }
  }
}
