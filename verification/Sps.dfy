/** The size of the picture, read from an H.264 sequence parameter set. */
module Sps {
  import opened Bytes
  import opened RbspBits

  const HIGH_PROFILES: set<nat> := {100, 110, 122, 244, 44, 83, 86, 118, 128, 138, 139, 134, 135}

  // ------------------------------------------------------------ reading

  datatype Head = Head(chroma: nat, pos: nat)

  /** A scale from the one before, as 32-bit arithmetic and a truncating remainder give it. */
  function NextScale(last: int, delta: int): int {
    var x := AsI32(last + delta + 256);
    x - 256 * Trunc(x, 256)
  }

  function ReadList(bits: seq<bool>, pos: nat, left: nat, last: int, next: int): Option<nat>
    decreases left
  {
    if left == 0 then Some(pos)
    else if next == 0 then ReadList(bits, pos, left - 1, last, next)
    else
      var d :- ReadSe(bits, pos);
      var n := NextScale(last, d.value);
      ReadList(bits, d.pos, left - 1, if n != 0 then n else last, n)
  }

  function ReadLists(bits: seq<bool>, pos: nat, i: nat, lists: nat): Option<nat>
    decreases lists - i
  {
    if i >= lists then Some(pos)
    else
      var present :- ReadBit(bits, pos);
      var after :- if present.value == 1 then ReadList(bits, present.pos, if i < 6 then 16 else 64, 8, 8)
        else Some(present.pos);
      ReadLists(bits, after, i + 1, lists)
  }

  function ReadHigh(bits: seq<bool>, pos: nat): Option<Head> {
    var chroma :- ReadUe(bits, pos);
    var separate :- if chroma.value == 3 then ReadBit(bits, chroma.pos) else Some(Read(0, chroma.pos));
    var luma :- ReadUe(bits, separate.pos);
    var depth :- ReadUe(bits, luma.pos);
    var bypass :- ReadBit(bits, depth.pos);
    var matrix :- ReadBit(bits, bypass.pos);
    var after :- if matrix.value == 1 then ReadLists(bits, matrix.pos, 0, if chroma.value != 3 then 8 else 12)
      else Some(matrix.pos);
    Some(Head(chroma.value, after))
  }

  function ReadHead(bits: seq<bool>, pos: nat): Option<Head> {
    var profile :- ReadBits(bits, pos, 8);
    var levels :- Skip(bits, profile.pos, 16);
    var id :- ReadUe(bits, levels);
    if profile.value in HIGH_PROFILES then ReadHigh(bits, id.pos) else Some(Head(1, id.pos))
  }

  function ReadSigned(bits: seq<bool>, pos: nat, n: nat): Option<nat>
    decreases n
  {
    if n == 0 then Some(pos)
    else
      var d :- ReadSe(bits, pos);
      ReadSigned(bits, d.pos, n - 1)
  }

  function ReadOrder(bits: seq<bool>, pos: nat): Option<nat> {
    var kind :- ReadUe(bits, pos);
    if kind.value == 0 then
      var bits0 :- ReadUe(bits, kind.pos);
      Some(bits0.pos)
    else if kind.value == 1 then
      var always :- ReadBit(bits, kind.pos);
      var a :- ReadSe(bits, always.pos);
      var b :- ReadSe(bits, a.pos);
      var n :- ReadUe(bits, b.pos);
      ReadSigned(bits, n.pos, n.value)
    else Some(kind.pos)
  }

  datatype Frame = Frame(width: nat, height: nat, only: nat, left: nat, right: nat, top: nat, bottom: nat)

  function ReadCrop(bits: seq<bool>, pos: nat, w: nat, h: nat, only: nat): Option<Frame> {
    var crop :- ReadBit(bits, pos);
    if crop.value == 0 then Some(Frame(w, h, only, 0, 0, 0, 0))
    else
      var l :- ReadUe(bits, crop.pos);
      var r :- ReadUe(bits, l.pos);
      var t :- ReadUe(bits, r.pos);
      var b :- ReadUe(bits, t.pos);
      Some(Frame(w, h, only, l.value, r.value, t.value, b.value))
  }

  function ReadFrame(bits: seq<bool>, pos: nat): Option<Frame> {
    var number :- ReadUe(bits, pos);
    var order :- ReadOrder(bits, number.pos);
    var refs :- ReadUe(bits, order);
    var gaps :- ReadBit(bits, refs.pos);
    var w :- ReadUe(bits, gaps.pos);
    var h :- ReadUe(bits, w.pos);
    var only :- ReadBit(bits, h.pos);
    var adaptive :- if only.value == 0 then ReadBit(bits, only.pos) else Some(only);
    var direct :- ReadBit(bits, adaptive.pos);
    ReadCrop(bits, direct.pos, w.value, h.value, only.value)
  }

  datatype Size = Size(width: nat, height: nat)

  function U32(n: nat): nat {
    n % 0x1_0000_0000
  }

  function SubWidth(chroma: nat): nat {
    if chroma == 1 || chroma == 2 then 2 else 1
  }

  function SubHeight(chroma: nat): nat {
    if chroma == 1 then 2 else 1
  }

  function Cap(n: nat): nat {
    if n <= 65535 then n else 65535
  }

  /** The size in 32-bit arithmetic; None when the cropping is larger than the picture. */
  function SizeOf(chroma: nat, f: Frame): Option<Size> {
    var w, x := U32(U32(f.width + 1) * 16), U32(U32(f.left + f.right) * SubWidth(chroma));
    var fields := if f.only <= 2 then 2 - f.only else 0;
    var h, y := U32(U32(fields * U32(f.height + 1)) * 16), U32(U32(f.top + f.bottom) * (SubHeight(chroma) * fields));
    if w < x || h < y then None else Some(Size(Cap(w - x), Cap(h - y)))
  }

  function Dims(nal: seq<byte>): Option<Size> {
    if nal == [] then None
    else
      var bits := BitsOf(Unescape(nal[1..], 0));
      var head :- ReadHead(bits, 0);
      var frame :- ReadFrame(bits, head.pos);
      SizeOf(head.chroma, frame)
  }

  // ------------------------------------------------------------ writing, by the standard

  /** Scaling matrices: for each list, the deltas sent when it is present. */
  datatype High = High(chroma: nat, separate: bool, luma: nat, depth: nat, bypass: bool,
      lists: Option<seq<Option<seq<int>>>>)

  datatype Order = Bits(n: nat) | Cycle(always: bool, a: int, b: int, offsets: seq<int>) | Other(kind: nat)

  datatype Crop = Crop(left: nat, right: nat, top: nat, bottom: nat)

  /** Section 7.3.2.1.1 of ITU-T H.264; `tail` is all that follows the cropping. */
  datatype Set = Set(
    profile: nat, levels: nat, id: nat, high: Option<High>, number: nat, order: Order, refs: nat, gaps: bool,
    width: nat, height: nat, only: bool, adaptive: bool, direct: bool, crop: Option<Crop>, tail: seq<bool>)

  function Signed(ds: seq<int>, rest: seq<bool>): seq<bool> {
    if ds == [] then rest else SeCode(ds[0]) + Signed(ds[1..], rest)
  }

  function ListsBits(lists: seq<Option<seq<int>>>, rest: seq<bool>): seq<bool> {
    if lists == [] then rest
    else [lists[0].Some?] + (if lists[0].Some? then Signed(lists[0].value, ListsBits(lists[1..], rest))
      else ListsBits(lists[1..], rest))
  }

  function HighBits(h: High, rest: seq<bool>): seq<bool> {
    UeCode(h.chroma) + ((if h.chroma == 3 then [h.separate]
      else []) + (UeCode(h.luma) + (UeCode(h.depth) + ([h.bypass] +
      ([h.lists.Some?] + (if h.lists.Some? then ListsBits(h.lists.value, rest) else rest))))))
  }

  function OrderBits(o: Order, rest: seq<bool>): seq<bool> {
    match o
    case Bits(n) => UeCode(0) + (UeCode(n) + rest)
    case Cycle(always, a, b,
      offsets) => UeCode(1) + ([always] + (SeCode(a) + (SeCode(b) + (UeCode(|offsets|) + Signed(offsets, rest)))))
    case Other(kind) => UeCode(kind) + rest
  }

  function CropBits(c: Option<Crop>, rest: seq<bool>): seq<bool> {
    [c.Some?] + (if c.Some?
      then UeCode(c.value.left) + (UeCode(c.value.right) + (UeCode(c.value.top) + (UeCode(c.value.bottom) + rest)))
        else rest)
  }

  function FrameBits(s: Set): seq<bool> {
    UeCode(s.number) + OrderBits(s.order,
      UeCode(s.refs) + ([s.gaps] + (UeCode(s.width) + (UeCode(s.height) + ([s.only] +
      ((if s.only then [] else [s.adaptive]) + ([s.direct] + CropBits(s.crop, s.tail))))))))
  }

  function SetBits(s: Set): seq<bool> {
    Binary(s.profile, 8) + (Binary(s.levels, 16) + (UeCode(s.id) + (if s.high.Some?
      then HighBits(s.high.value, FrameBits(s)) else FrameBits(s))))
  }

  /** The trailing bits: a one, and zeros up to the byte. */
  function Aligned(bits: seq<bool>): (a: seq<bool>)
    ensures |a| % 8 == 0
  {
    bits + ([true] + ZeroBits((15 - |bits| % 8) % 8))
  }

  /** The unit as it is sent: a header byte and the protected payload. */
  function Encode(header: byte, s: Set): seq<byte> {
    [header] + Escape(BytesOf(Aligned(SetBits(s))), 0)
  }

  // ------------------------------------------------------------ what a valid set keeps

  predicate Fits(n: nat) {
    n <= 0xFFFF_FFFE
  }

  predicate Small(d: int) {
    -0x4000_0000 < d < 0x4000_0000
  }

  predicate AllSmall(ds: seq<int>) {
    forall i :: 0 <= i < |ds| ==> Small(ds[i])
  }

  /** The deltas are exactly those of a list: 7.3.2.1.1.1 of the standard, where a next scale of zero ends them. */
  predicate Taken(ds: seq<int>, left: nat, last: int, next: int)
    decreases left
  {
    if left == 0 then ds == []
    else if next == 0 then Taken(ds, left - 1, last, next)
    else
      ds != [] && Small(ds[0])
      && var n := (last + ds[0] + 256) % 256; Taken(ds[1..], left - 1, if n != 0 then n else last, n)
  }

  predicate ListsValid(lists: seq<Option<seq<int>>>, i: nat) {
    forall k :: 0 <= k < |lists| && lists[k].Some? ==> Taken(lists[k].value, if i + k < 6 then 16 else 64, 8, 8)
  }

  predicate HighValid(h: High) {
    Fits(h.chroma) && Fits(h.luma) && Fits(h.depth)
    && (h.lists.Some? ==> |h.lists.value| == (if h.chroma != 3 then 8 else 12) && ListsValid(h.lists.value, 0))
  }

  predicate OrderValid(o: Order) {
    match o
    case Bits(n) => Fits(n)
    case Cycle(_, a, b, offsets) => Small(a) && Small(b) && Fits(|offsets|) && AllSmall(offsets)
    case Other(kind) => Fits(kind) && kind != 0 && kind != 1
  }

  predicate SetValid(s: Set) {
    s.profile < 256 && s.levels < 65536 && Fits(s.id) && (s.profile in HIGH_PROFILES <==> s.high.Some?)
    && (s.high.Some? ==> HighValid(s.high.value)) && Fits(s.number) && OrderValid(s.order) && Fits(s.refs)
    && Fits(s.width) && Fits(s.height)
    && (s.crop.Some?
      ==> Fits(s.crop.value.left) && Fits(s.crop.value.right) && Fits(s.crop.value.top) && Fits(s.crop.value.bottom))
  }

  // ------------------------------------------------------------ peeling codes off the cursor

  lemma {:induction false} PeelUe(bits: seq<bool>, pos: nat, v: nat, rest: seq<bool>)
    requires Fits(v) && Ahead(bits, pos, UeCode(v) + rest)
    ensures ReadUe(bits, pos) == Some(Read(v, pos + |UeCode(v)|)) && Ahead(bits, pos + |UeCode(v)|, rest)
  {
    hide Ahead, UeCode, ReadUe;
    AheadSplit(bits, pos, UeCode(v), rest);
    ReadUeCode(bits, pos, v);
  }

  lemma {:induction false} PeelSe(bits: seq<bool>, pos: nat, d: int, rest: seq<bool>)
    requires Small(d) && Ahead(bits, pos, SeCode(d) + rest)
    ensures ReadSe(bits, pos) == Some(ReadInt(d, pos + |SeCode(d)|)) && Ahead(bits, pos + |SeCode(d)|, rest)
  {
    hide Ahead, SeCode, ReadSe;
    AheadSplit(bits, pos, SeCode(d), rest);
    ReadSeCode(bits, pos, d);
  }

  lemma {:induction false} PeelBit(bits: seq<bool>, pos: nat, b: bool, rest: seq<bool>)
    requires Ahead(bits, pos, [b] + rest)
    ensures ReadBit(bits, pos) == Some(Read(Num(b), pos + 1)) && Ahead(bits, pos + 1, rest)
  {
    hide Ahead, ReadBit;
    AheadSplit(bits, pos, [b], rest);
    ReadOne(bits, pos, b);
  }

  /** The reader's scale differs from the standard's by multiples of 256 only, and is zero when that is. */
  lemma {:induction false} ScaleAgrees(read: int, last: int, delta: int)
    requires read % 256 == last % 256
    ensures NextScale(read, delta) % 256 == (last + delta + 256) % 256
    ensures NextScale(read, delta) == 0 <==> (last + delta + 256) % 256 == 0
  {
    var x := AsI32(read + delta + 256);
    hide AsI32;
    assert x % 256 == (read + delta + 256) % 256 by { WrapKeeps(read + delta + 256); }
    assert (read + delta + 256) % 256 == (last + delta + 256) % 256 by {
      assert read - last == 256 * (read / 256 - last / 256);
    }
    TruncRemainder(x);
  }

  lemma {:induction false} SameModulo(a: int, k: int)
    ensures (a + 256 * k) % 256 == a % 256
  {
    assert a + 256 * k == 256 * (a / 256 + k) + a % 256;
  }

  lemma {:induction false} WrapKeeps(n: int)
    ensures AsI32(n) % 256 == n % 256
  {
    var m, k := n % 0x1_0000_0000, n / 0x1_0000_0000;
    assert n == m + 256 * (0x100_0000 * k);
    SameModulo(m, 0x100_0000 * k);
    SameModulo(m, -0x100_0000);
  }

  lemma {:induction false} TruncRemainder(x: int)
    ensures var r := x - 256 * Trunc(x, 256); r % 256 == x % 256 && (r == 0 <==> x % 256 == 0)
  {
    if x < 0 {
      var m, q := (-x) % 256, (-x) / 256;
      assert x == -m + 256 * -q;
      SameModulo(-m, -q);
    }
  }

  lemma {:induction false} ListRead(bits: seq<bool>, pos: nat, ds: seq<int>, left: nat, last: int, next: int,
      read: int, scale: int, rest: seq<bool>) returns (end: nat)
    requires Taken(ds, left, last, next) && Ahead(bits, pos, Signed(ds, rest))
    requires read % 256 == last % 256 && (scale == 0 <==> next == 0)
    ensures ReadList(bits, pos, left, read, scale) == Some(end) && Ahead(bits, end, rest)
    decreases left
  {
    hide Ahead, SeCode, ReadSe, NextScale;
    if left == 0 {
      end := pos;
    } else if next == 0 {
      end := ListRead(bits, pos, ds, left - 1, last, next, read, scale, rest);
    } else {
      PeelSe(bits, pos, ds[0], Signed(ds[1..], rest));
      ScaleAgrees(read, last, ds[0]);
      var n, m := (last + ds[0] + 256) % 256, NextScale(read, ds[0]);
      end := ListRead(bits, pos + |SeCode(ds[0])|, ds[1..], left - 1, if n != 0 then n else last, n,
        if m != 0 then m else read, m, rest);
    }
  }

  lemma {:induction false} ListsRead(bits: seq<bool>, pos: nat, lists: seq<Option<seq<int>>>, i: nat,
      rest: seq<bool>) returns (end: nat)
    requires ListsValid(lists, i) && Ahead(bits, pos, ListsBits(lists, rest))
    ensures ReadLists(bits, pos, i, i + |lists|) == Some(end) && Ahead(bits, end, rest)
    decreases |lists|
  {
    hide Ahead, ReadBit, ReadList, Signed, Taken;
    if lists == [] {
      return pos;
    }
    var more := ListsBits(lists[1..], rest);
    PeelBit(bits, pos, lists[0].Some?, if lists[0].Some? then Signed(lists[0].value, more) else more);
    var after := pos + 1;
    if lists[0].Some? {
      after := ListRead(bits, pos + 1, lists[0].value, if i < 6 then 16 else 64, 8, 8, 8, 8, more);
    }
    assert forall k :: 0 <= k < |lists| - 1 ==> lists[1..][k] == lists[k + 1];
    end := ListsRead(bits, after, lists[1..], i + 1, rest);
  }

  lemma {:induction false} SignedRead(bits: seq<bool>, pos: nat, ds: seq<int>, rest: seq<bool>) returns (end: nat)
    requires AllSmall(ds) && Ahead(bits, pos, Signed(ds, rest))
    ensures ReadSigned(bits, pos, |ds|) == Some(end) && Ahead(bits, end, rest)
    decreases |ds|
  {
    hide Ahead, ReadSe, SeCode;
    if ds == [] {
      return pos;
    }
    PeelSe(bits, pos, ds[0], Signed(ds[1..], rest));
    end := SignedRead(bits, pos + |SeCode(ds[0])|, ds[1..], rest);
  }

  // ------------------------------------------------------------ reading what was written

  lemma {:induction false} MatrixRead(bits: seq<bool>, pos: nat, h: High, rest: seq<bool>) returns (end: nat)
    requires HighValid(h)
    requires Ahead(bits, pos, [h.lists.Some?] + (if h.lists.Some? then ListsBits(h.lists.value, rest) else rest))
    ensures ReadBit(bits, pos) == Some(Read(Num(h.lists.Some?), pos + 1)) && Ahead(bits, end, rest)
    ensures Some(end) == if h.lists.Some? then ReadLists(bits, pos + 1, 0, if h.chroma != 3 then 8 else 12)
      else Some(pos + 1)
  {
    hide Ahead, ReadBit, ReadLists, ListsBits, ListsValid;
    PeelBit(bits, pos, h.lists.Some?, if h.lists.Some? then ListsBits(h.lists.value, rest) else rest);
    end := pos + 1;
    if h.lists.Some? {
      end := ListsRead(bits, pos + 1, h.lists.value, 0, rest);
    }
  }

  lemma {:induction false} HighRead(bits: seq<bool>, pos: nat, h: High, rest: seq<bool>) returns (end: nat)
    requires HighValid(h) && Ahead(bits, pos, HighBits(h, rest))
    ensures ReadHigh(bits, pos) == Some(Head(h.chroma, end)) && Ahead(bits, end, rest)
  {
    hide Ahead, ReadBit, ReadUe, ReadLists, ListsBits, ListsValid, UeCode;
    var m := [h.lists.Some?] + (if h.lists.Some? then ListsBits(h.lists.value, rest) else rest);
    var d := UeCode(h.luma) + (UeCode(h.depth) + ([h.bypass] + m));
    PeelUe(bits, pos, h.chroma, (if h.chroma == 3 then [h.separate] else []) + d);
    var p := pos + |UeCode(h.chroma)|;
    if h.chroma == 3 {
      PeelBit(bits, p, h.separate, d);
      p := p + 1;
    } else {
      assert [] + d == d;
    }
    PeelUe(bits, p, h.luma, UeCode(h.depth) + ([h.bypass] + m));
    p := p + |UeCode(h.luma)|;
    PeelUe(bits, p, h.depth, [h.bypass] + m);
    p := p + |UeCode(h.depth)|;
    PeelBit(bits, p, h.bypass, m);
    end := MatrixRead(bits, p + 1, h, rest);
  }

  function HeadBits(s: Set, rest: seq<bool>): seq<bool> {
    Binary(s.profile, 8) + (Binary(s.levels, 16) + (UeCode(s.id) + (if s.high.Some? then HighBits(s.high.value, rest)
      else rest)))
  }

  function ChromaOf(s: Set): nat {
    if s.high.Some? then s.high.value.chroma else 1
  }

  lemma {:induction false} PeelBinary(bits: seq<bool>, pos: nat, n: nat, w: nat, rest: seq<bool>)
    requires n < Power2(w) && Ahead(bits, pos, Binary(n, w) + rest)
    ensures ReadBits(bits, pos, w) == Some(Read(n, pos + w)) && Skip(bits, pos, w) == Some(pos + w)
      && Ahead(bits, pos + w, rest)
  {
    AheadSplit(bits, pos, Binary(n, w), rest);
    ReadBinary(bits, pos, n, w);
    hide Binary, Power2, ReadBits;
  }

  lemma {:induction false} WordWidths()
    ensures Power2(8) == 256 && Power2(16) == 65536
  {
    assert Power2(4) == 16;
    assert Power2(12) == 4096 by { assert Power2(8) == 256; assert Power2(10) == 1024; }
  }

  lemma {:induction false} HeadRead(bits: seq<bool>, pos: nat, s: Set, rest: seq<bool>) returns (end: nat)
    requires SetValid(s) && Ahead(bits, pos, HeadBits(s, rest))
    ensures ReadHead(bits, pos) == Some(Head(ChromaOf(s), end)) && Ahead(bits, end, rest)
  {
    hide Ahead, ReadBits, ReadUe, ReadHigh, HighBits, HighValid, UeCode, Binary, Power2, OrderValid, Skip;
    WordWidths();
    var more := if s.high.Some? then HighBits(s.high.value, rest) else rest;
    PeelBinary(bits, pos, s.profile, 8, Binary(s.levels, 16) + (UeCode(s.id) + more));
    PeelBinary(bits, pos + 8, s.levels, 16, UeCode(s.id) + more);
    PeelUe(bits, pos + 24, s.id, more);
    end := pos + 24 + |UeCode(s.id)|;
    if s.high.Some? {
      end := HighRead(bits, end, s.high.value, rest);
    }
  }

  lemma {:induction false} CycleRead(bits: seq<bool>, pos: nat, o: Order, rest: seq<bool>) returns (end: nat)
    requires o.Cycle? && OrderValid(o) && Ahead(bits, pos, OrderBits(o, rest))
    ensures ReadOrder(bits, pos) == Some(end) && Ahead(bits, end, rest)
  {
    hide Ahead, ReadBit, ReadUe, ReadSe, ReadSigned, UeCode, SeCode, Signed, AllSmall;
    var list := UeCode(|o.offsets|) + Signed(o.offsets, rest);
    PeelUe(bits, pos, 1, [o.always] + (SeCode(o.a) + (SeCode(o.b) + list)));
    var p := pos + |UeCode(1)|;
    PeelBit(bits, p, o.always, SeCode(o.a) + (SeCode(o.b) + list));
    PeelSe(bits, p + 1, o.a, SeCode(o.b) + list);
    p := p + 1 + |SeCode(o.a)|;
    PeelSe(bits, p, o.b, list);
    p := p + |SeCode(o.b)|;
    PeelUe(bits, p, |o.offsets|, Signed(o.offsets, rest));
    end := SignedRead(bits, p + |UeCode(|o.offsets|)|, o.offsets, rest);
  }

  lemma {:induction false} OrderRead(bits: seq<bool>, pos: nat, o: Order, rest: seq<bool>) returns (end: nat)
    requires OrderValid(o) && Ahead(bits, pos, OrderBits(o, rest))
    ensures ReadOrder(bits, pos) == Some(end) && Ahead(bits, end, rest)
  {
    hide Ahead, ReadUe, ReadSe, ReadBit, ReadSigned, UeCode, SeCode, Signed, AllSmall;
    match o
    case Bits(n) =>
      PeelUe(bits, pos, 0, UeCode(n) + rest);
      PeelUe(bits, pos + |UeCode(0)|, n, rest);
      end := pos + |UeCode(0)| + |UeCode(n)|;
    case Cycle(_, _, _, _) =>
      end := CycleRead(bits, pos, o, rest);
    case Other(kind) =>
      PeelUe(bits, pos, kind, rest);
      end := pos + |UeCode(kind)|;
  }

  function FrameOf(s: Set): Frame {
    if s.crop.Some? then Frame(s.width, s.height, Num(s.only), s.crop.value.left, s.crop.value.right, s.crop.value.top,
      s.crop.value.bottom)
    else Frame(s.width, s.height, Num(s.only), 0, 0, 0, 0)
  }

  lemma {:induction false} CropRead(bits: seq<bool>, pos: nat, s: Set)
    requires SetValid(s) && Ahead(bits, pos, CropBits(s.crop, s.tail))
    ensures ReadCrop(bits, pos, s.width, s.height, Num(s.only)) == Some(FrameOf(s))
  {
    hide Ahead, ReadBit, ReadUe, UeCode, HighValid, OrderValid;
    if s.crop.None? {
      PeelBit(bits, pos, false, s.tail);
    } else {
      var c := s.crop.value;
      var b := UeCode(c.bottom) + s.tail;
      PeelBit(bits, pos, true, UeCode(c.left) + (UeCode(c.right) + (UeCode(c.top) + b)));
      PeelUe(bits, pos + 1, c.left, UeCode(c.right) + (UeCode(c.top) + b));
      var p := pos + 1 + |UeCode(c.left)|;
      PeelUe(bits, p, c.right, UeCode(c.top) + b);
      p := p + |UeCode(c.right)|;
      PeelUe(bits, p, c.top, b);
      PeelUe(bits, p + |UeCode(c.top)|, c.bottom, s.tail);
    }
  }

  lemma {:induction false} FrameRead(bits: seq<bool>, pos: nat, s: Set)
    requires SetValid(s) && Ahead(bits, pos, FrameBits(s))
    ensures ReadFrame(bits, pos) == Some(FrameOf(s))
  {
    hide Ahead, ReadBit, ReadUe, ReadOrder, ReadCrop, UeCode, OrderBits, CropBits, HighValid, OrderValid, FrameOf;
    var crop := CropBits(s.crop, s.tail);
    var flags := (if s.only then [] else [s.adaptive]) + ([s.direct] + crop);
    var sizes := UeCode(s.width) + (UeCode(s.height) + ([s.only] + flags));
    PeelUe(bits, pos, s.number, OrderBits(s.order, UeCode(s.refs) + ([s.gaps] + sizes)));
    var p := OrderRead(bits, pos + |UeCode(s.number)|, s.order, UeCode(s.refs) + ([s.gaps] + sizes));
    PeelUe(bits, p, s.refs, [s.gaps] + sizes);
    p := p + |UeCode(s.refs)|;
    PeelBit(bits, p, s.gaps, sizes);
    PeelUe(bits, p + 1, s.width, UeCode(s.height) + ([s.only] + flags));
    p := p + 1 + |UeCode(s.width)|;
    PeelUe(bits, p, s.height, [s.only] + flags);
    p := p + |UeCode(s.height)|;
    PeelBit(bits, p, s.only, flags);
    p := p + 1;
    if s.only {
      assert [] + ([s.direct] + crop) == [s.direct] + crop;
    } else {
      PeelBit(bits, p, s.adaptive, [s.direct] + crop);
      p := p + 1;
    }
    PeelBit(bits, p, s.direct, crop);
    CropRead(bits, p + 1, s);
  }

  // ------------------------------------------------------------ the size

  /** Table 6-1: how many luma samples a chroma sample spans, across and down, for each chroma format. */
  const SPANS: seq<(nat, nat)> := [(1, 1), (2, 2), (2, 1), (1, 1)]

  function SpanOf(chroma: nat): (nat, nat) {
    if chroma < 4 then SPANS[chroma] else (1, 1)
  }

  lemma {:induction false} SpanIs(chroma: nat)
    ensures SpanOf(chroma) == (SubWidth(chroma), SubHeight(chroma))
  {
  }

  /** The standard's width and height in luma samples: 7.4.2.1.1 with the cropping of Table 6-1. */
  function WidthOf(s: Set): int {
    16 * (s.width + 1) - SpanOf(ChromaOf(s)).0 * (if s.crop.Some? then s.crop.value.left + s.crop.value.right else 0)
  }

  function HeightOf(s: Set): int {
    var fields := if s.only then 1 else 2;
    fields * 16 * (s.height + 1)
    - fields * SpanOf(ChromaOf(s)).1 * (if s.crop.Some? then s.crop.value.top + s.crop.value.bottom else 0)
  }

  /** All the sums and products fit in 32 bits. */
  predicate SizeFits(s: Set) {
    16 * (s.width + 1) < 0x1_0000_0000 && 32 * (s.height + 1) < 0x1_0000_0000
    && (s.crop.Some? ==>
      2 * (s.crop.value.left + s.crop.value.right) < 0x1_0000_0000
        && 4 * (s.crop.value.top + s.crop.value.bottom) < 0x1_0000_0000)
  }

  lemma {:induction false} Small32(n: nat)
    requires n < 0x1_0000_0000
    ensures U32(n) == n
  {
  }

  lemma {:induction false} WidthFits(width: nat, crop: nat, sub: nat)
    requires (sub == 1 || sub == 2) && 16 * (width + 1) < 0x1_0000_0000 && 2 * crop < 0x1_0000_0000
    ensures U32(U32(width + 1) * 16) == 16 * (width + 1) && U32(U32(crop) * sub) == crop * sub
  {
    hide U32;
    Small32(width + 1);
    Small32((width + 1) * 16);
    Small32(crop);
    if sub == 1 { Small32(crop * 1); } else { Small32(crop * 2); }
  }

  lemma {:induction false} HeightFits(height: nat, crop: nat, sub: nat, fields: nat)
    requires (sub == 1 || sub == 2) && (fields == 1 || fields == 2)
    requires 32 * (height + 1) < 0x1_0000_0000 && 4 * crop < 0x1_0000_0000
    ensures U32(U32(fields * U32(height + 1)) * 16) == fields * 16 * (height + 1)
      && U32(U32(crop) * (sub * fields)) == fields * sub * crop
  {
    hide U32;
    Small32(height + 1);
    Small32(crop);
    if fields == 1 {
      Small32(1 * (height + 1));
      Small32((height + 1) * 16);
      if sub == 1 { Small32(crop * 1); } else { Small32(crop * 2); }
    } else {
      Small32(2 * (height + 1));
      Small32((2 * (height + 1)) * 16);
      if sub == 1 { Small32(crop * 2); } else { Small32(crop * 4); }
    }
  }

  lemma {:induction false} WidthShape(s: Set)
    ensures var f := FrameOf(s); WidthOf(s) == 16 * (s.width + 1) - (f.left + f.right) * SubWidth(ChromaOf(s))
  {
    SpanIs(ChromaOf(s));
    hide SpanOf, SubWidth, SubHeight, ChromaOf;
  }

  lemma {:induction false} HeightShape(s: Set)
    ensures var f := FrameOf(s);
      var fields := 2 - f.only;
      f.only <= 1 && HeightOf(s) == fields * 16 * (s.height + 1) - fields * SubHeight(ChromaOf(s)) * (f.top + f.bottom)
  {
    SpanIs(ChromaOf(s));
    hide SpanOf, SubWidth, SubHeight, ChromaOf;
  }

  /** The size by the standard's formula, when the picture is not smaller than its cropping. */
  function Cropped(s: Set): Option<Size> {
    var w, h := WidthOf(s), HeightOf(s);
    if w < 0 || h < 0 then None else Some(Size(if 65535 < w then 65535 else w, if 65535 < h then 65535 else h))
  }

  lemma {:induction false} FrameFits(s: Set)
    requires SizeFits(s)
    ensures var f := FrameOf(s);
      f.width == s.width && f.height == s.height && 2 * (f.left + f.right) < 0x1_0000_0000
        && 4 * (f.top + f.bottom) < 0x1_0000_0000
  {
  }

  lemma {:induction false} SizeIs(s: Set)
    requires SizeFits(s)
    ensures SizeOf(ChromaOf(s), FrameOf(s)) == Cropped(s)
  {
    var sub, tall := SubWidth(ChromaOf(s)), SubHeight(ChromaOf(s));
    assert (sub == 1 || sub == 2) && (tall == 1 || tall == 2);
    hide U32, ChromaOf, SubWidth, SubHeight, WidthOf, HeightOf, FrameOf;
    var f := FrameOf(s);
    WidthShape(s);
    HeightShape(s);
    FrameFits(s);
    WidthFits(s.width, f.left + f.right, sub);
    HeightFits(s.height, f.top + f.bottom, tall, 2 - f.only);
  }

  /**
   The picture size read from any protected parameter set is the cropped size of the standard, capped at
   65535, when its arithmetic fits in 32 bits; and none when the cropping is larger than the picture.
   */
  lemma {:induction false} DimsOfEncoded(header: byte, s: Set)
    requires SetValid(s) && SizeFits(s)
    ensures Dims(Encode(header, s)) == Cropped(s)
  {
    hide Cropped, ReadHead, ReadFrame, SetValid, SizeFits, SizeOf, FrameBits, FrameOf, ChromaOf, BitsOf, BytesOf,
      Unescape, Escape, Ahead, Cap;
    var payload := BytesOf(Aligned(SetBits(s)));
    assert Encode(header, s)[1..] == Escape(payload, 0);
    UnescapeEscape(payload, 0);
    BitsOfBytes(Aligned(SetBits(s)));
    var bits := BitsOf(payload);
    assert SetBits(s) == HeadBits(s, FrameBits(s));
    AlignedStarts(SetBits(s));
    var end := HeadRead(bits, 0, s, FrameBits(s));
    FrameRead(bits, end, s);
    SizeIs(s);
  }

  lemma {:induction false} AlignedStarts(bits: seq<bool>)
    ensures Ahead(Aligned(bits), 0, bits)
  {
  }
}
