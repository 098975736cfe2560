/**
 The header of a JPEG picture, read on its own: its marker segments one after the other, and what they say
 of the picture (Annexes B and F of ITU-T T.81). Pictures sent and pictures rebuilt are read the same way.
 */
module JpegHeader {
  import opened Bytes

  // ------------------------------------------------------------ marker segments

  /** Skips fill bytes before a marker. */
  datatype Marker = Marker(code: nat, at: nat)

  function NextMarker(d: seq<byte>, code: nat, p: nat): (m: Marker)
    requires p <= |d|
    ensures p <= m.at <= |d|
    decreases |d| - p
  {
    if p < |d| && code == 0xFF then NextMarker(d, d[p] as nat, p + 1) else Marker(code, p)
  }

  predicate Standalone(code: nat) {
    code == 0xD8 || code == 1 || 0xD0 <= code <= 0xD7
  }

  /** The last end marker from `lo` up to `k`, else the end of the picture. */
  function EndOfScan(d: seq<byte>, lo: nat, k: nat): (e: nat)
    requires k < |d| || k == 0
    ensures lo <= |d| ==> lo <= e <= |d|
    decreases k
  {
    if k <= lo then |d|
    else if d[k - 1] == 0xFF && d[k] == 0xD9 then k - 1
    else EndOfScan(d, lo, k - 1)
  }

  /** The marker segments of a picture up to the one its scan follows. */
  datatype Seg = Seg(code: nat, at: nat, len: nat)

  function Segments(d: seq<byte>, p: nat): (ss: seq<Seg>)
    requires p <= |d|
    ensures forall i :: 0 <= i < |ss| ==> ss[i].at + ss[i].len <= |d| && ss[i].len >= 2
    decreases |d| - p
  {
    if p + 1 >= |d| || d[p] != 0xFF then []
    else
      var k := NextMarker(d, d[p + 1] as nat, p + 2);
      if Standalone(k.code) then Segments(d, k.at)
      else if k.code == 0xD9 || k.at + 2 > |d| then []
      else
        var len := FromBe16(d, k.at);
        if len < 2 || k.at + len > |d| then []
        else [Seg(k.code, k.at, len)] + (if k.code == 0xDA then [] else Segments(d, k.at + len))
  }

  /** A segment without its place: its code and what follows its length. */
  datatype Part = Part(code: nat, body: seq<byte>)

  function Bodies(d: seq<byte>, ss: seq<Seg>): seq<Part>
    requires forall i :: 0 <= i < |ss| ==> ss[i].at + ss[i].len <= |d| && ss[i].len >= 2
  {
    if ss == [] then [] else [Part(ss[0].code, d[ss[0].at + 2..ss[0].at + ss[0].len])] + Bodies(d, ss[1..])
  }

  /** The segments of a picture, from its first two bytes on. */
  function Parts(d: seq<byte>): seq<Part> {
    if |d| < 2 then [] else Bodies(d, Segments(d, 2))
  }

  /** Where the scan begins. */
  function ScanStart(d: seq<byte>, ss: seq<Seg>): (n: nat)
    requires forall i :: 0 <= i < |ss| ==> ss[i].at + ss[i].len <= |d|
    ensures n <= |d|
  {
    if ss == [] then |d| else ss[|ss| - 1].at + ss[|ss| - 1].len
  }

  // ------------------------------------------------------------ segments written and read back

  function PartBytes(p: Part): seq<byte> {
    [0xFF, (p.code % 256) as byte] + Be16(|p.body| + 2) + p.body
  }

  function Encode(ps: seq<Part>): seq<byte> {
    if ps == [] then [] else PartBytes(ps[0]) + Encode(ps[1..])
  }

  predicate Writable(p: Part) {
    p.code < 0xFF && !Standalone(p.code) && p.code != 0xD9 && |p.body| < 65534
  }

  lemma {:induction false} WordAt(b: seq<byte>, at: nat, x: nat)
    requires at + 2 <= |b| && b[at..at + 2] == Be16(x) && x < 65536
    ensures FromBe16(b, at) == x
  {
    assert b[at] == b[at..at + 2][0] && b[at + 1] == b[at..at + 2][1];
  }

  /** A segment written is the segment read. */
  lemma {:induction false} PartRead(d: seq<byte>, at: nat, p: Part, rest: seq<byte>)
    requires at <= |d| && Writable(p) && d[at..] == PartBytes(p) + rest
    ensures var next := at + 4 + |p.body|;
      next <= |d| && d[next..] == rest && d[at + 4..next] == p.body
      && Segments(d, at) == [Seg(p.code, at + 2, |p.body| + 2)] + (if p.code == 0xDA then [] else Segments(d, next))
  {
    hide *;
    var b := PartBytes(p);
    WritableIs(p);
    PartSlices(p);
    InPlace(d, at, b, rest, 2, 4);
    InPlace(d, at, b, rest, 4, |b|);
    assert b[4..|b|] == b[4..];
    WordAt(d, at + 2, |p.body| + 2);
    SegmentsStep(d, at, p.code, |p.body| + 2);
  }

  lemma {:induction false} WritableIs(p: Part)
    requires Writable(p)
    ensures p.code < 0xFF && !Standalone(p.code) && p.code != 0xD9 && |p.body| < 65534
  {
  }

  lemma {:induction false} PartSlices(p: Part)
    requires p.code < 0x100
    ensures var b := PartBytes(p);
      |b| == 4 + |p.body| && b[0] == 0xFF && b[1] as nat == p.code && b[2..4] == Be16(|p.body| + 2) && b[4..] == p.body
  {
    hide Be16;
  }

  /** Bytes at the front of a tail are bytes in place. */
  lemma {:induction false} InPlace(d: seq<byte>, at: nat, b: seq<byte>, rest: seq<byte>, i: nat, j: nat)
    requires at <= |d| && d[at..] == b + rest && 2 <= i <= j <= |b|
    ensures at + |b| <= |d| && d[at + |b|..] == rest
    ensures d[at] == b[0] && d[at + 1] == b[1] && d[at + i..at + j] == b[i..j]
  {
    var s := d[at..];
    assert d[at] == s[0] && d[at + 1] == s[1] && d[at + i..at + j] == s[i..j] && d[at + |b|..] == s[|b|..];
  }

  lemma {:induction false} SegmentsStep(d: seq<byte>, at: nat, code: nat, len: nat)
    requires at + 2 + len <= |d| && len >= 2 && d[at] == 0xFF && d[at + 1] as nat == code && FromBe16(d, at + 2) == len
    requires code < 0xFF && !Standalone(code) && code != 0xD9
    ensures Segments(d, at) == [Seg(code, at + 2, len)] + (if code == 0xDA then [] else Segments(d, at + 2 + len))
  {
    assert NextMarker(d, d[at + 1] as nat, at + 2) == Marker(code, at + 2);
    hide NextMarker, FromBe16, Standalone;
  }

  /** Segments written, the last of them a scan's, are the segments read, and the scan begins right after them. */
  lemma {:induction false} PartsRead(d: seq<byte>, at: nat, ps: seq<Part>, rest: seq<byte>)
    requires at <= |d| && ps != [] && d[at..] == Encode(ps) + rest
    requires forall i :: 0 <= i < |ps| ==> Writable(ps[i]) && (ps[i].code == 0xDA <==> i == |ps| - 1)
    ensures var ss := Segments(d, at); Bodies(d, ss) == ps && ScanStart(d, ss) == |d| - |rest| && |rest| <= |d|
    decreases |ps|
  {
    hide *;
    var p, more := ps[0], ps[1..];
    var next, g := at + 4 + |p.body|, Seg(p.code, at + 2, |p.body| + 2);
    EncodeHead(ps, rest);
    PartRead(d, at, p, Encode(more) + rest);
    assert ps == [p] + more;
    if more == [] {
      EncodeNothing(more, rest);
      assert [g] + [] == [g];
      BodiesHead(d, g, []);
      BodiesNothing(d);
    } else {
      assert forall i :: 0 <= i < |more| ==> more[i] == ps[i + 1];
      PartsRead(d, next, more, rest);
      BodiesHead(d, g, Segments(d, next));
      BodiesSize(d, Segments(d, next));
    }
  }

  lemma {:induction false} EncodeHead(ps: seq<Part>, rest: seq<byte>)
    requires ps != []
    ensures Encode(ps) + rest == PartBytes(ps[0]) + (Encode(ps[1..]) + rest)
  {
    ConcatAssociative(PartBytes(ps[0]), Encode(ps[1..]), rest);
    hide PartBytes;
  }

  lemma {:induction false} EncodeNothing(ps: seq<Part>, rest: seq<byte>)
    requires ps == []
    ensures Encode(ps) + rest == rest
  {
  }

  lemma {:induction false} BodiesNothing(d: seq<byte>)
    ensures Bodies(d, []) == []
  {
  }

  lemma {:induction false} BodiesHead(d: seq<byte>, g: Seg, more: seq<Seg>)
    requires g.at + g.len <= |d| && g.len >= 2
      && forall i :: 0 <= i < |more| ==> more[i].at + more[i].len <= |d| && more[i].len >= 2
    ensures Bodies(d, [g] + more) == [Part(g.code, d[g.at + 2..g.at + g.len])] + Bodies(d, more)
    ensures ScanStart(d, [g] + more) == if more == [] then g.at + g.len else ScanStart(d, more)
  {
    assert ([g] + more)[1..] == more;
  }

  lemma {:induction false} BodiesSize(d: seq<byte>, ss: seq<Seg>)
    requires forall i :: 0 <= i < |ss| ==> ss[i].at + ss[i].len <= |d| && ss[i].len >= 2
    ensures |Bodies(d, ss)| == |ss| && forall i :: 0 <= i < |ss| ==> Bodies(d, ss)[i].code == ss[i].code
    decreases |ss|
  {
    if ss != [] {
      BodiesSize(d, ss[1..]);
    }
  }

  lemma {:induction false} EncodeJoin(a: seq<Part>, b: seq<Part>)
    ensures Encode(a + b) == Encode(a) + Encode(b)
    decreases |a|
  {
    hide PartBytes;
    if a == [] {
      assert a + b == b;
    } else {
      assert (a + b)[1..] == a[1..] + b;
      EncodeJoin(a[1..], b);
      ConcatAssociative(PartBytes(a[0]), Encode(a[1..]), Encode(b));
    }
  }

  lemma {:induction false} EncodeOne(p: Part)
    ensures Encode([p]) == PartBytes(p)
  {
    hide PartBytes;
    assert [p][1..] == [];
    assert PartBytes(p) + [] == PartBytes(p);
  }

  lemma {:induction false} EncodeThree(a: Part, b: Part, c: Part)
    ensures |Encode([a, b, c])| == |PartBytes(a)| + |PartBytes(b)| + |PartBytes(c)|
  {
    EncodeJoin([a, b], [c]);
    EncodeJoin([a], [b]);
    EncodeOne(a);
    EncodeOne(b);
    EncodeOne(c);
    hide Encode, PartBytes;
    assert [a, b] == [a] + [b] && [a, b, c] == [a, b] + [c];
  }

  lemma {:induction false} PartSize(p: Part)
    ensures |PartBytes(p)| == 4 + |p.body|
  {
  }

  // ------------------------------------------------------------ what the segments say

  /** A quantisation table under its identifier. */
  datatype Table = Table(id: nat, values: seq<byte>)

  /** The 8-bit tables of a segment. */
  function Entries(body: seq<byte>): (es: seq<Table>)
    ensures forall i :: 0 <= i < |es| ==> |es[i].values| == 64
  {
    if |body| < 65 then [] else [Table((body[0] % 16) as nat, body[1..65])] + Entries(body[65..])
  }

  function TableList(ps: seq<Part>): (es: seq<Table>)
    ensures forall i :: 0 <= i < |es| ==> |es[i].values| == 64
  {
    if ps == [] then [] else (if ps[0].code == 0xDB then Entries(ps[0].body) else []) + TableList(ps[1..])
  }

  /** The tables as they stand when the scan begins: the last under each identifier. */
  function TableMap(es: seq<Table>): map<nat, seq<byte>> {
    if es == [] then map[] else TableMap(es[..|es| - 1])[es[|es| - 1].id := es[|es| - 1].values]
  }

  /** Their values one after the other. */
  function Joined(es: seq<Table>): seq<byte> {
    if es == [] then [] else es[0].values + Joined(es[1..])
  }

  /** A frame header; `parts` are the identifier, the sampling and the table of each component. */
  datatype Frame = Frame(precision: byte, width: nat, height: nat, count: byte, parts: seq<byte>)

  const NO_FRAME: Frame := Frame(0, 0, 0, 0, [])

  function FrameIn(body: seq<byte>): Frame
    requires |body| >= 6
  {
    Frame(body[0], FromBe16(body, 3), FromBe16(body, 1), body[5], body[6..])
  }

  /** The baseline frame header, the last if there are more; `f` if there is none. */
  function FrameOf(ps: seq<Part>, f: Frame): Frame {
    if ps == [] then f
    else FrameOf(ps[1..], if ps[0].code == 0xC0 && |ps[0].body| >= 6 then FrameIn(ps[0].body) else f)
  }

  /** No frame header of another kind: extended, progressive, lossless or arithmetically coded. */
  predicate Baseline(ps: seq<Part>) {
    forall p :: p in ps ==> !(0xC1 <= p.code <= 0xCF && p.code != 0xC4 && p.code != 0xC8 && p.code != 0xCC)
  }

  function Sum(b: seq<byte>): nat {
    if b == [] then 0 else (b[0] as nat) + Sum(b[1..])
  }

  /** The Huffman codes of a segment, under class and identifier: counts and values; the last under each counts. */
  function CodesIn(body: seq<byte>, codes: map<byte, seq<byte>>): map<byte, seq<byte>>
    decreases |body|
  {
    if |body| < 17 then codes
    else
      var n := 17 + Sum(body[1..17]);
      if |body| < n then codes else CodesIn(body[n..], codes[body[0] := body[1..n]])
  }

  function CodesOf(ps: seq<Part>, codes: map<byte, seq<byte>>): map<byte, seq<byte>>
    decreases |ps|
  {
    if ps == [] then codes else CodesOf(ps[1..], if ps[0].code == 0xC4 then CodesIn(ps[0].body, codes) else codes)
  }

  /** The restart interval, 0 for none. */
  function RestartOf(ps: seq<Part>, restart: nat): nat
    decreases |ps|
  {
    if ps == [] then restart
    else RestartOf(ps[1..], if ps[0].code == 0xDD && |ps[0].body| == 2 then FromBe16(ps[0].body, 0) else restart)
  }

  function ScanHead(ps: seq<Part>): seq<byte> {
    if ps == [] then [] else ps[|ps| - 1].body
  }

  /** All that is needed to decode a picture. */
  datatype Picture = Picture(
    tables: map<nat, seq<byte>>, frame: Frame, baseline: bool, codes: map<byte, seq<byte>>, restart: nat,
    scanHead: seq<byte>, scan: seq<byte>)

  function ScanOf(d: seq<byte>): seq<byte>
    requires |d| >= 2
  {
    var from := ScanStart(d, Segments(d, 2));
    d[from..EndOfScan(d, from, |d| - 1)]
  }

  function Said(ps: seq<Part>, scan: seq<byte>): Picture {
    Picture(TableMap(TableList(ps)), FrameOf(ps, NO_FRAME), Baseline(ps), CodesOf(ps, map[]), RestartOf(ps, 0),
      ScanHead(ps), scan)
  }

  /** What a picture says of itself. */
  function Describe(d: seq<byte>): Picture {
    Said(Parts(d), if |d| < 2 then [] else ScanOf(d))
  }

  /** A picture of written segments, a scan and an end marker says what its segments say. */
  lemma {:induction false} DescribedAs(ps: seq<Part>, scan: seq<byte>)
    requires ps != [] && forall i :: 0 <= i < |ps| ==> Writable(ps[i]) && (ps[i].code == 0xDA <==> i == |ps| - 1)
    ensures var d := [0xFF, 0xD8] + Encode(ps) + scan + [0xFF, 0xD9];
      Parts(d) == ps && ScanOf(d) == scan && Describe(d) == Said(ps, scan)
    ensures var d := [0xFF, 0xD8] + Encode(ps) + scan + [0xFF, 0xD9];
      var from := 2 + |Encode(ps)|;
      ScanStart(d, Segments(d, 2)) == from && EndOfScan(d, from, |d| - 1) == from + |scan|
  {
    hide *;
    var b, rest := Encode(ps), scan + [0xFF, 0xD9];
    var d := [0xFF, 0xD8] + b + scan + [0xFF, 0xD9];
    PictureTail(b, scan);
    PartsRead(d, 2, ps, rest);
    ScanEnds(d, 2 + |b|, scan);
    DescribeIs(d);
  }

  lemma {:induction false} DescribeIs(d: seq<byte>)
    requires |d| >= 2
    ensures var ss := Segments(d, 2);
      Parts(d) == Bodies(d, ss) && Describe(d) == Said(Parts(d), ScanOf(d))
      && ScanOf(d) == d[ScanStart(d, ss)..EndOfScan(d, ScanStart(d, ss), |d| - 1)]
  {
    hide Segments, Bodies, Said, EndOfScan, ScanStart;
  }

  lemma {:induction false} PictureTail(b: seq<byte>, scan: seq<byte>)
    ensures var d := [0xFF, 0xD8] + b + scan + [0xFF, 0xD9];
      d[2..] == b + (scan + [0xFF, 0xD9]) && |d| == 2 + |b| + |scan| + 2
      && d[2 + |b|..2 + |b| + |scan|] == scan && d[|d| - 2] == 0xFF && d[|d| - 1] == 0xD9
  {
    var d := [0xFF, 0xD8] + b + scan + [0xFF, 0xD9];
    assert d == [0xFF, 0xD8] + (b + (scan + [0xFF, 0xD9]));
  }

  lemma {:induction false} ScanEnds(d: seq<byte>, from: nat, scan: seq<byte>)
    requires |d| == from + |scan| + 2 && d[from..from + |scan|] == scan && d[|d| - 2] == 0xFF && d[|d| - 1] == 0xD9
    ensures EndOfScan(d, from, |d| - 1) == from + |scan|
  {
  }
}
