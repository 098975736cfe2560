/** RTP packets (RFC 3550): the fixed header on the wire, and the sequence counter a sender keeps. */
module Rtp {
  import opened Bytes

  datatype Packet = Packet(marker: bool, payloadType: nat, sequence: nat, timestamp: nat, ssrc: nat, payload: seq<byte>)

  predicate Fits(p: Packet) {
    p.payloadType < 128 && p.sequence < 0x1_0000 && p.timestamp < 0x1_0000_0000 && p.ssrc < 0x1_0000_0000
  }

  function Be32(n: nat): (b: seq<byte>)
    ensures |b| == 4
  {
    Be16(n / 0x1_0000) + Be16(n)
  }

  function FromBe32(b: seq<byte>, at: nat): nat
    requires at + 4 <= |b|
  {
    0x1_0000 * FromBe16(b, at) + FromBe16(b, at + 2)
  }

  /** No contributing sources, no extension, no padding: what the server sends. */
  function Serialize(p: Packet): seq<byte> {
    [0x80, (p.payloadType % 128 + if p.marker then 128 else 0) as byte]
    + Be16(p.sequence) + Be32(p.timestamp) + Be32(p.ssrc) + p.payload
  }

  function Parse(b: seq<byte>): Option<Packet> {
    if |b| < 12 || b[0] / 64 != 2 then None
    else
      var padding, extension := b[0] / 32 % 2 == 1, b[0] / 16 % 2 == 1;
      var off0 := 12 + 4 * (b[0] % 16) as int;
      if |b| < off0 || (extension && |b| < off0 + 4) then None
      else
        var off := if extension then off0 + 4 + 4 * FromBe16(b, off0 + 2) else off0;
        if |b| < off then None
        else
          var pad := if padding then b[|b| - 1] as int else 0;
          if padding && (pad == 0 || pad > |b| - off) then None
          else
            Some(Packet(b[1] >= 128, (b[1] % 128) as int, FromBe16(b, 2), FromBe32(b, 4), FromBe32(b, 8),
              b[off..|b| - pad]))
  }

  lemma {:induction false} SplitWord(n: nat)
    ensures 0x1_0000 * (n / 0x1_0000 % 0x1_0000) + n % 0x1_0000 == n % 0x1_0000_0000
    ensures 256 * (n / 256 % 256) + n % 256 == n % 0x1_0000
  {
    var q, h := n / 0x1_0000, n / 256;
    assert n == 0x1_0000_0000 * (q / 0x1_0000) + (0x1_0000 * (q % 0x1_0000) + n % 0x1_0000);
    assert n == 0x1_0000 * (h / 256) + (256 * (h % 256) + n % 256);
  }

  lemma {:induction false} Be16RoundTrip(n: nat, b: seq<byte>, at: nat)
    requires at + 2 <= |b| && b[at..at + 2] == Be16(n)
    ensures FromBe16(b, at) == n % 0x1_0000
  {
    SplitWord(n);
    assert b[at] == Be16(n)[0] && b[at + 1] == Be16(n)[1];
  }

  lemma {:induction false} Be32RoundTrip(n: nat, b: seq<byte>, at: nat)
    requires at + 4 <= |b| && b[at..at + 4] == Be32(n)
    ensures FromBe32(b, at) == n % 0x1_0000_0000
  {
    hide Be16, FromBe16;
    SplitWord(n);
    assert b[at..at + 2] == b[at..at + 4][..2] == Be16(n / 0x1_0000);
    assert b[at + 2..at + 4] == b[at..at + 4][2..] == Be16(n);
    Be16RoundTrip(n / 0x1_0000, b, at);
    Be16RoundTrip(n, b, at + 2);
  }

  /** A packet whose fields fit their widths survives the wire. */
  lemma {:induction false} WireRoundTrip(p: Packet)
    requires Fits(p)
    ensures Parse(Serialize(p)) == Some(p)
  {
    var b := Serialize(p);
    hide Be16, Be32, FromBe16, FromBe32;
    assert b[2..4] == Be16(p.sequence);
    assert b[4..8] == Be32(p.timestamp);
    assert b[8..12] == Be32(p.ssrc);
    assert b[12..|b|] == p.payload;
    Be16RoundTrip(p.sequence, b, 2);
    Be32RoundTrip(p.timestamp, b, 4);
    Be32RoundTrip(p.ssrc, b, 8);
  }

  // ------------------------------------------------------------ exactly what is parsed

  /** What else a packet may have: contributing sources, an extension of whole words, padding that tells its length. */
  datatype Extras = Extras(sources: seq<byte>, extension: Option<Extension>, padding: seq<byte>)
  datatype Extension = Extension(profile: seq<byte>, words: seq<byte>)

  predicate ExtrasFit(x: Extras) {
    |x.sources| % 4 == 0 && |x.sources| < 64
    && (x.extension.Some? ==>
      |x.extension.value.profile| == 2 && |x.extension.value.words| % 4 == 0
      && |x.extension.value.words| < 0x4_0000)
    && (x.padding != [] ==> |x.padding| < 256 && x.padding[|x.padding| - 1] as int == |x.padding|)
  }

  function FirstByte(x: Extras): byte
    requires ExtrasFit(x)
  {
    (128 + (if x.padding != [] then 32 else 0) + (if x.extension.Some? then 16 else 0) + |x.sources| / 4) as byte
  }

  function Prefix(p: Packet, first: byte): (b: seq<byte>)
    ensures |b| == 12
  {
    [first, (p.payloadType % 128 + if p.marker then 128 else 0) as byte]
    + Be16(p.sequence) + Be32(p.timestamp) + Be32(p.ssrc)
  }

  function ExtensionBytes(e: Option<Extension>): seq<byte> {
    if e.None? then [] else e.value.profile + Be16(|e.value.words| / 4) + e.value.words
  }

  function Written(p: Packet, x: Extras): seq<byte>
    requires ExtrasFit(x)
  {
    Prefix(p, FirstByte(x)) + x.sources + ExtensionBytes(x.extension) + p.payload + x.padding
  }

  lemma {:induction false} PrefixRead(p: Packet, first: byte, rest: seq<byte>)
    requires Fits(p)
    ensures var b := Prefix(p, first) + rest;
      b[0] == first && (b[1] >= 128 <==> p.marker) && (b[1] % 128) as int == p.payloadType
      && FromBe16(b, 2) == p.sequence && FromBe32(b, 4) == p.timestamp && FromBe32(b, 8) == p.ssrc
  {
    var b := Prefix(p, first) + rest;
    hide Be16, Be32, FromBe16, FromBe32;
    assert b[2..4] == Be16(p.sequence);
    assert b[4..8] == Be32(p.timestamp);
    assert b[8..12] == Be32(p.ssrc);
    Be16RoundTrip(p.sequence, b, 2);
    Be32RoundTrip(p.timestamp, b, 4);
    Be32RoundTrip(p.ssrc, b, 8);
  }

  lemma {:induction false} FirstByteBits(x: Extras)
    requires ExtrasFit(x)
    ensures var f := FirstByte(x);
      f / 64 == 2 && (f / 32 % 2 == 1 <==> x.padding != []) && (f / 16 % 2 == 1 <==> x.extension.Some?)
      && 4 * (f % 16) as int == |x.sources|
  {
  }

  lemma {:induction false} ExtensionRead(b: seq<byte>, at: nat, e: Extension, rest: seq<byte>)
    requires at <= |b| && |e.profile| == 2 && |e.words| % 4 == 0 && |e.words| < 0x4_0000
    requires b[at..] == ExtensionBytes(Some(e)) + rest
    ensures |b| >= at + 4 + |e.words| && 4 * FromBe16(b, at + 2) == |e.words| && b[at + 4 + |e.words|..] == rest
  {
    hide FromBe16, Be16;
    var n := Be16(|e.words| / 4);
    var d := b[at..];
    assert d == e.profile + (n + (e.words + rest));
    assert b[at + 2..at + 4] == d[2..4] == n;
    Be16RoundTrip(|e.words| / 4, b, at + 2);
    assert b[at + 4 + |e.words|..] == d[4 + |e.words|..] == rest;
  }

  /** Where the parts of the bytes lie: the extension and what follows from `at`, the payload from `off`. */
  ghost predicate LaidOut(b: seq<byte>, p: Packet, x: Extras, at: nat, off: nat) {
    at == 12 + |x.sources| && off == at + |ExtensionBytes(x.extension)|
    && |b| == off + |p.payload| + |x.padding|
    && b[at..] == ExtensionBytes(x.extension) + (p.payload + x.padding)
    && b[off..|b| - |x.padding|] == p.payload && b[|b| - |x.padding|..] == x.padding
  }

  lemma {:induction false} Layout(first: seq<byte>, p: Packet, x: Extras)
    requires |first| == 12
    ensures var at := 12 + |x.sources|;
      LaidOut(first + x.sources + ExtensionBytes(x.extension) + p.payload + x.padding, p, x, at,
        at + |ExtensionBytes(x.extension)|)
  {
    hide ExtensionBytes;
    var e := ExtensionBytes(x.extension);
    var b := first + x.sources + e + p.payload + x.padding;
    var at, off := 12 + |x.sources|, 12 + |x.sources| + |e|;
    assert b[at..] == e + (p.payload + x.padding);
    assert b[off..|b| - |x.padding|] == p.payload;
    assert b[|b| - |x.padding|..] == x.padding;
  }

  lemma {:induction false} WrittenHead(p: Packet, x: Extras)
    requires Fits(p) && ExtrasFit(x)
    ensures var b := Written(p, x);
      |b| >= 12 && b[0] == FirstByte(x) && (b[1] >= 128 <==> p.marker) && (b[1] % 128) as int == p.payloadType
      && FromBe16(b, 2) == p.sequence && FromBe32(b, 4) == p.timestamp && FromBe32(b, 8) == p.ssrc
  {
    var b := Written(p, x);
    var rest := x.sources + ExtensionBytes(x.extension) + p.payload + x.padding;
    hide Prefix, ExtensionBytes, FirstByte, ExtrasFit, Fits;
    assert b == Prefix(p, FirstByte(x)) + rest;
    PrefixRead(p, FirstByte(x), rest);
  }

  /** A packet is parsed whatever sources, extension and padding it has. */
  lemma {:induction false} WrittenParsed(p: Packet, x: Extras)
    requires Fits(p) && ExtrasFit(x)
    ensures Parse(Written(p, x)) == Some(p)
  {
    var b := Written(p, x);
    WrittenHead(p, x);
    FirstByteBits(x);
    Layout(Prefix(p, FirstByte(x)), p, x);
    var at := 12 + |x.sources|;
    var off := at + |ExtensionBytes(x.extension)|;
    assert LaidOut(b, p, x, at, off);
    hide Prefix, FirstByte, FromBe16, FromBe32, Be16, Written, Fits;
    if x.extension.Some? {
      ExtensionRead(b, at, x.extension.value, p.payload + x.padding);
    }
    if x.padding != [] {
      assert b[|b| - 1] == b[|b| - |x.padding|..][|x.padding| - 1];
    }
  }

  lemma {:induction false} Be16Inverse(b: seq<byte>, at: nat)
    requires at + 2 <= |b|
    ensures Be16(FromBe16(b, at)) == b[at..at + 2] && FromBe16(b, at) < 0x1_0000
  {
    TwoBytes(b[at] as int, b[at + 1] as int);
    assert b[at..at + 2] == [b[at], b[at + 1]];
  }

  lemma {:induction false} TwoBytes(x: nat, y: nat)
    requires x < 256 && y < 256
    ensures (256 * x + y) / 256 % 256 == x && (256 * x + y) % 256 == y
  {
  }

  lemma {:induction false} Be32Inverse(b: seq<byte>, at: nat)
    requires at + 4 <= |b|
    ensures Be32(FromBe32(b, at)) == b[at..at + 4] && FromBe32(b, at) < 0x1_0000_0000
  {
    Be16Inverse(b, at);
    Be16Inverse(b, at + 2);
    var x, y := FromBe16(b, at), FromBe16(b, at + 2);
    hide FromBe16;
    assert (0x1_0000 * x + y) / 0x1_0000 == x;
    assert Be16(0x1_0000 * x + y) == Be16(y) by { LowHalf(x, y); }
  }

  lemma {:induction false} LowHalf(x: nat, y: nat)
    requires y < 0x1_0000
    ensures Be16(0x1_0000 * x + y) == Be16(y)
  {
    assert (0x1_0000 * x + y) / 256 == 256 * x + y / 256;
    assert (256 * x + y / 256) % 256 == y / 256 % 256;
    assert (0x1_0000 * x + y) % 256 == y % 256;
  }

  lemma {:induction false} PrefixIs(b: seq<byte>, p: Packet)
    requires |b| >= 12 && (b[1] >= 128 <==> p.marker) && (b[1] % 128) as int == p.payloadType
    requires FromBe16(b, 2) == p.sequence && FromBe32(b, 4) == p.timestamp && FromBe32(b, 8) == p.ssrc
    ensures Prefix(p, b[0]) == b[..12] && Fits(p)
  {
    Be16Inverse(b, 2);
    Be32Inverse(b, 4);
    Be32Inverse(b, 8);
    hide FromBe16, FromBe32, Be16, Be32;
    assert b[..12] == [b[0], b[1]] + b[2..4] + b[4..8] + b[8..12];
  }

  /** Where the parts of what was parsed lie. */
  lemma {:induction false} Cuts(b: seq<byte>) returns (at: nat, off: nat, pad: nat)
    requires Parse(b).Some?
    ensures 12 <= at <= off <= |b| - pad && at == 12 + 4 * (b[0] % 16) as int && b[0] / 64 == 2
    ensures b[0] / 16 % 2 == 1 ==> at + 4 <= off == at + 4 + 4 * FromBe16(b, at + 2)
    ensures b[0] / 16 % 2 == 0 ==> off == at
    ensures if b[0] / 32 % 2 == 1 then 0 < pad == b[|b| - 1] as int else pad == 0
    ensures Parse(b).value.payload == b[off..|b| - pad]
  {
    hide FromBe16, FromBe32;
    at := 12 + 4 * (b[0] % 16) as int;
    off := if b[0] / 16 % 2 == 1 then at + 4 + 4 * FromBe16(b, at + 2) else at;
    pad := if b[0] / 32 % 2 == 1 then b[|b| - 1] as int else 0;
  }

  lemma {:induction false} ParsedFields(b: seq<byte>)
    requires Parse(b).Some?
    ensures var p := Parse(b).value;
      |b| >= 12 && (b[1] >= 128 <==> p.marker) && (b[1] % 128) as int == p.payloadType
      && FromBe16(b, 2) == p.sequence && FromBe32(b, 4) == p.timestamp && FromBe32(b, 8) == p.ssrc
  {
    hide FromBe16, FromBe32;
  }

  function ExtrasAt(b: seq<byte>, at: nat, off: nat, pad: nat): Extras
    requires 12 <= at <= off <= |b| - pad && (b[0] / 16 % 2 == 1 ==> at + 4 <= off)
  {
    Extras(b[12..at], if b[0] / 16 % 2 == 1 then Some(Extension(b[at..at + 2], b[at + 4..off])) else None,
      b[|b| - pad..])
  }

  lemma {:induction false} ExtrasAre(b: seq<byte>, at: nat, off: nat, pad: nat)
    requires 12 <= at <= off <= |b| - pad && at == 12 + 4 * (b[0] % 16) as int && b[0] / 64 == 2
    requires b[0] / 16 % 2 == 1 ==> at + 4 <= off == at + 4 + 4 * FromBe16(b, at + 2)
    requires b[0] / 16 % 2 == 0 ==> off == at
    requires if b[0] / 32 % 2 == 1 then 0 < pad == b[|b| - 1] as int else pad == 0
    ensures var x := ExtrasAt(b, at, off, pad);
      ExtrasFit(x) && FirstByte(x) == b[0] && ExtensionBytes(x.extension) == b[at..off]
  {
    if b[0] / 16 % 2 == 1 {
      Be16Inverse(b, at + 2);
      hide FromBe16, Be16;
      assert b[at..off] == b[at..at + 2] + b[at + 2..at + 4] + b[at + 4..off];
    }
    hide FromBe16, Be16;
  }

  /** Whatever is parsed was such a packet: everything else is refused. */
  lemma {:induction false} ParsedWritten(b: seq<byte>) returns (x: Extras)
    requires Parse(b).Some?
    ensures ExtrasFit(x) && Fits(Parse(b).value) && b == Written(Parse(b).value, x)
  {
    hide Prefix, FirstByte, ExtensionBytes, Parse, ExtrasFit, Fits, FromBe16, FromBe32;
    var at, off, pad := Cuts(b);
    x := ExtrasAt(b, at, off, pad);
    ExtrasAre(b, at, off, pad);
    var p := Parse(b).value;
    ParsedFields(b);
    PrefixIs(b, p);
    InParts(b, 12, at, off, |b| - pad);
  }

  lemma {:induction false} InParts(b: seq<byte>, i: nat, j: nat, k: nat, l: nat)
    requires i <= j <= k <= l <= |b|
    ensures b == b[..i] + b[i..j] + b[j..k] + b[k..l] + b[l..]
  {
    assert b[..j] == b[..i] + b[i..j];
    assert b[..k] == b[..j] + b[j..k];
    assert b[..l] == b[..k] + b[k..l];
  }

  /** The packets of one access unit: timestamp and sender fixed, sequence numbers consecutive modulo 2^16. */
  predicate Numbered(out: seq<Packet>, seq0: nat, ts: nat) {
    forall i :: 0 <= i < |out| ==> out[i].sequence == (seq0 + i) % 0x1_0000 && out[i].timestamp == ts
  }

  /** What every packetizer shares: payload type, source, MTU and the next sequence number. */
  class RtpOut {
    const payloadType: nat
    const ssrc: nat
    const mtu: nat
    var seq_: nat

    constructor (payloadType: nat, ssrc: nat, seq_: nat, mtu: nat)
      requires payloadType < 128 && ssrc < 0x1_0000_0000 && seq_ < 0x1_0000
      ensures this.payloadType == payloadType && this.ssrc == ssrc && this.seq_ == seq_ && this.mtu == mtu
    {
      this.payloadType, this.ssrc, this.seq_, this.mtu := payloadType, ssrc, seq_, mtu;
    }

    method Emit(marker: bool, ts: nat, payload: seq<byte>) returns (p: Packet)
      requires seq_ < 0x1_0000
      modifies this`seq_
      ensures p == Packet(marker, payloadType, old(seq_), ts, ssrc, payload)
      ensures seq_ == (old(seq_) + 1) % 0x1_0000
    {
      p := Packet(marker, payloadType, seq_, ts, ssrc, payload);
      seq_ := (seq_ + 1) % 0x1_0000;
    }
  }
}
