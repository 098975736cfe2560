/** Emulation prevention, and reading numbers bit by bit. */
module RbspBits {
  import opened Bytes

  // ------------------------------------------------------------ emulation prevention

  /** Removes the prevention byte after two zeros. */
  function Unescape(s: seq<byte>, zeros: nat): seq<byte> {
    if s == [] then []
    else if zeros >= 2 && s[0] == 3 then Unescape(s[1..], 0)
    else [s[0]] + Unescape(s[1..], if s[0] == 0 then zeros + 1 else 0)
  }

  /** What an encoder does: after two zeros, a byte of 3 goes before any byte up to 3. */
  function Escape(s: seq<byte>, zeros: nat): seq<byte> {
    if s == [] then []
    else
      var run := if zeros >= 2 && s[0] <= 3 then 0 else zeros;
      (if zeros >= 2 && s[0] <= 3 then [3] else []) + [s[0]] + Escape(s[1..], if s[0] == 0 then run + 1 else 0)
  }

  /** Reading undoes the prevention, on every payload. */
  lemma {:induction false} UnescapeEscape(s: seq<byte>, zeros: nat)
    ensures Unescape(Escape(s, zeros), zeros) == s
    decreases |s|
  {
    if s != [] {
      var stuffed := zeros >= 2 && s[0] <= 3;
      var run := if stuffed then 0 else zeros;
      var next := if s[0] == 0 then run + 1 else 0;
      var rest := Escape(s[1..], next);
      EscapeStep(s, zeros);
      hide Escape, Unescape;
      UnescapeEscape(s[1..], next);
      UnescapeHead(s[0], rest, run);
      if stuffed {
        UnescapeHead(3, [s[0]] + rest, zeros);
      }
      assert s == [s[0]] + s[1..];
    }
  }

  lemma {:induction false} EscapeStep(s: seq<byte>, zeros: nat)
    requires s != []
    ensures var stuffed := zeros >= 2 && s[0] <= 3;
      var run := if stuffed then 0 else zeros;
      var rest := Escape(s[1..], if s[0] == 0 then run + 1 else 0);
      Escape(s, zeros) == if stuffed then [3] + ([s[0]] + rest) else [s[0]] + rest
  {
  }

  lemma {:induction false} UnescapeHead(b: byte, rest: seq<byte>, zeros: nat)
    ensures Unescape([b] + rest, zeros) ==
      if zeros >= 2 && b == 3 then Unescape(rest, 0) else [b] + Unescape(rest, if b == 0 then zeros + 1 else 0)
  {
    assert ([b] + rest)[1..] == rest;
  }

  /** No start code can be seen in what was escaped: two zeros are never followed by 0, 1 or 2. */
  ghost predicate NoStartCode(s: seq<byte>) {
    forall i :: 0 <= i && i + 2 < |s| && s[i] == 0 && s[i + 1] == 0 ==> s[i + 2] > 2
  }

  /** The first bytes that would complete a start code after `zeros` zeros. */
  predicate SafeStart(s: seq<byte>, zeros: nat) {
    (zeros >= 2 && s != [] ==> s[0] > 2) && (zeros == 1 && |s| >= 2 && s[0] == 0 ==> s[1] > 2)
  }

  lemma {:induction false} EscapeIsSafe(s: seq<byte>, zeros: nat)
    ensures NoStartCode(Escape(s, zeros)) && SafeStart(Escape(s, zeros), zeros)
    decreases |s|
  {
    if s != [] {
      var stuffed := zeros >= 2 && s[0] <= 3;
      var run := if stuffed then 0 else zeros;
      var next := if s[0] == 0 then run + 1 else 0;
      var rest := Escape(s[1..], next);
      EscapeIsSafe(s[1..], next);
      SafeHead(s[0], rest, run);
      if stuffed {
        SafeHead(3, [s[0]] + rest, zeros);
        assert Escape(s, zeros) == [3] + ([s[0]] + rest);
      } else {
        assert Escape(s, zeros) == [s[0]] + rest;
      }
    }
  }

  lemma {:induction false} SafeHead(b: byte, rest: seq<byte>, zeros: nat)
    requires NoStartCode(rest) && SafeStart(rest, if b == 0 then zeros + 1 else 0) && (zeros >= 2 ==> b > 2)
    ensures NoStartCode([b] + rest) && SafeStart([b] + rest, zeros)
  {
    var x := [b] + rest;
    forall i | 0 <= i && i + 2 < |x| && x[i] == 0 && x[i + 1] == 0
      ensures x[i + 2] > 2
    {
      if i > 0 {
        assert x[i] == rest[i - 1] && x[i + 1] == rest[i] && x[i + 2] == rest[i + 1];
      } else {
        assert x[1] == rest[0] && x[2] == rest[1];
      }
    }
  }

  // ------------------------------------------------------------ bits

  /** The bits of a byte, highest first. */
  function BitOf(b: byte, k: nat): bool
    requires k < 8
  {
    b as int / (if k == 0 then 128 else if k == 1 then 64 else if k == 2 then 32 else if k == 3 then 16
                else if k == 4 then 8 else if k == 5 then 4 else if k == 6 then 2 else 1) % 2 == 1
  }

  function BitsOf(s: seq<byte>): (bits: seq<bool>)
    ensures |bits| == 8 * |s|
  {
    seq(8 * |s|, i requires 0 <= i < 8 * |s| => BitOf(s[i / 8], i % 8))
  }

  function Num(b: bool): nat {
    if b then 1 else 0
  }

  /** The byte of eight bits. */
  function ByteOf(bits: seq<bool>): byte
    requires |bits| == 8
  {
    (128 * Num(bits[0]) + 64 * Num(bits[1]) + 32 * Num(bits[2]) + 16 * Num(bits[3])
     + 8 * Num(bits[4]) + 4 * Num(bits[5]) + 2 * Num(bits[6]) + Num(bits[7])) as byte
  }

  function BytesOf(bits: seq<bool>): (s: seq<byte>)
    requires |bits| % 8 == 0
    ensures |s| == |bits| / 8
  {
    if bits == [] then [] else [ByteOf(bits[..8])] + BytesOf(bits[8..])
  }

  lemma {:induction false} BitOfValue(b: byte, k: nat, d: int, high: int, bit: bool, low: int)
    requires k < 8 && d == (if k == 0 then 128 else if k == 1 then 64 else if k == 2 then 32 else if k == 3 then 16
                            else if k == 4 then 8 else if k == 5 then 4 else if k == 6 then 2 else 1)
    requires b as int == (2 * high + Num(bit)) * d + low && 0 <= low < d
    ensures BitOf(b, k) == bit
  {
    Divided(b as int, d, 2 * high + Num(bit), low);
  }

  lemma {:induction false} HighBits(bits: seq<bool>, k: nat)
    requires |bits| == 8 && k < 4
    ensures BitOf(ByteOf(bits), k) == bits[k]
  {
    var b, low := ByteOf(bits), 8 * Num(bits[4]) + 4 * Num(bits[5]) + 2 * Num(bits[6]) + Num(bits[7]);
    var n0, n1, n2, n3 := Num(bits[0]), Num(bits[1]), Num(bits[2]), Num(bits[3]);
    assert b as int == 128 * n0 + 64 * n1 + 32 * n2 + 16 * n3 + low && 0 <= low < 16;
    hide BitOf, ByteOf;
    match k
    case 0 => BitOfValue(b, 0, 128, 0, bits[0], 64 * n1 + 32 * n2 + 16 * n3 + low);
    case 1 => BitOfValue(b, 1, 64, n0, bits[1], 32 * n2 + 16 * n3 + low);
    case 2 => BitOfValue(b, 2, 32, 2 * n0 + n1, bits[2], 16 * n3 + low);
    case _ => BitOfValue(b, 3, 16, 4 * n0 + 2 * n1 + n2, bits[3], low);
  }

  lemma {:induction false} LowBits(bits: seq<bool>, k: nat)
    requires |bits| == 8 && 4 <= k < 8
    ensures BitOf(ByteOf(bits), k) == bits[k]
  {
    var b, high := ByteOf(bits), 8 * Num(bits[0]) + 4 * Num(bits[1]) + 2 * Num(bits[2]) + Num(bits[3]);
    var n4, n5, n6, n7 := Num(bits[4]), Num(bits[5]), Num(bits[6]), Num(bits[7]);
    assert b as int == 16 * high + 8 * n4 + 4 * n5 + 2 * n6 + n7;
    hide BitOf, ByteOf;
    match k
    case 4 => BitOfValue(b, 4, 8, high, bits[4], 4 * n5 + 2 * n6 + n7);
    case 5 => BitOfValue(b, 5, 4, 2 * high + n4, bits[5], 2 * n6 + n7);
    case 6 => BitOfValue(b, 6, 2, 4 * high + 2 * n4 + n5, bits[6], n7);
    case _ => BitOfValue(b, 7, 1, 8 * high + 4 * n4 + 2 * n5 + n6, bits[7], 0);
  }

  lemma {:induction false} BitsOfOne(bits: seq<bool>)
    requires |bits| == 8
    ensures BitsOf([ByteOf(bits)]) == bits
  {
    hide ByteOf, BitOf;
    forall i | 0 <= i < 8
      ensures BitsOf([ByteOf(bits)])[i] == bits[i]
    {
      if i < 4 {
        HighBits(bits, i);
      } else {
        LowBits(bits, i);
      }
    }
  }

  lemma {:induction false} BitsOfHead(b: byte, rest: seq<byte>)
    ensures BitsOf([b] + rest) == BitsOf([b]) + BitsOf(rest)
  {
    hide BitOf;
    var s := [b] + rest;
    forall i | 0 <= i < 8 * |s|
      ensures BitsOf(s)[i] == (BitsOf([b]) + BitsOf(rest))[i]
    {
      if i >= 8 {
        Divided(i, 8, (i - 8) / 8 + 1, (i - 8) % 8);
        assert s[i / 8] == rest[(i - 8) / 8];
      }
    }
  }

  /** Bits packed into bytes are read back as they were. */
  lemma {:induction false} BitsOfBytes(bits: seq<bool>)
    requires |bits| % 8 == 0
    ensures BitsOf(BytesOf(bits)) == bits
    decreases |bits|
  {
    hide BitsOf, ByteOf;
    if bits == [] {
      BitsOfNothing();
    } else {
      BitsOfBytes(bits[8..]);
      BitsOfOne(bits[..8]);
      BitsOfHead(ByteOf(bits[..8]), BytesOf(bits[8..]));
      assert bits == bits[..8] + bits[8..];
    }
  }

  lemma {:induction false} BitsOfNothing()
    ensures BitsOf([]) == []
  {
  }

  // ------------------------------------------------------------ reading

  /** A number read and where reading goes on. */
  datatype Read = Read(value: nat, pos: nat)

  function ReadBit(bits: seq<bool>, pos: nat): Option<Read> {
    if pos < |bits| then Some(Read(Num(bits[pos]), pos + 1)) else None
  }

  /** `n` bits, highest first; for the widths used here the 32-bit register does not overflow. */
  function ReadBits(bits: seq<bool>, pos: nat, n: nat): Option<Read> {
    if n == 0 then Some(Read(0, pos))
    else
      match ReadBits(bits, pos, n - 1)
      case None => None
      case Some(r) =>
        match ReadBit(bits, r.pos) case None => None case Some(b) => Some(Read(2 * r.value + b.value, b.pos))
  }

  function Skip(bits: seq<bool>, pos: nat, n: nat): Option<nat> {
    if pos + n > |bits| then None else Some(pos + n)
  }

  function Power2(n: nat): (p: nat)
    ensures p > 0
  {
    if n == 0 then 1 else 2 * Power2(n - 1)
  }

  /** How many zeros come before the next one bit; None past 31 or at the end. */
  function Zeros(bits: seq<bool>, pos: nat, seen: nat): Option<nat>
    requires seen <= 31
    decreases 32 - seen
  {
    if pos >= |bits| then None
    else if bits[pos] then Some(seen)
    else if seen + 1 > 31 then None
    else Zeros(bits, pos + 1, seen + 1)
  }

  /** An unsigned Exp-Golomb number. */
  function ReadUe(bits: seq<bool>, pos: nat): Option<Read> {
    match Zeros(bits, pos, 0)
    case None => None
    case Some(z) =>
      match ReadBits(bits, pos + z + 1, z) case None => None case Some(r) => Some(Read(Power2(z) - 1 + r.value, r.pos))
  }

  /** A 32-bit pattern as a signed number. */
  function AsI32(n: int): int {
    var m := n % 0x1_0000_0000;
    if m >= 0x8000_0000 then m - 0x1_0000_0000 else m
  }

  function SignedOf(k: nat): int {
    if k % 2 == 1 then Trunc(AsI32(AsI32(k) + 1), 2) else AsI32(-Trunc(AsI32(k), 2))
  }

  datatype ReadInt = ReadInt(value: int, pos: nat)

  /** A signed one. */
  function ReadSe(bits: seq<bool>, pos: nat): Option<ReadInt> {
    match ReadUe(bits, pos) case None => None case Some(r) => Some(ReadInt(SignedOf(r.value), r.pos))
  }

  // ------------------------------------------------------------ writing, by the standard

  /** The lowest `w` bits of a number, highest first. */
  function Binary(n: nat, w: nat): (b: seq<bool>)
    ensures |b| == w
  {
    if w == 0 then [] else Binary(n / 2, w - 1) + [n % 2 == 1]
  }

  function ZeroBits(n: nat): (b: seq<bool>)
    ensures |b| == n
  {
    seq(n, i => false)
  }

  /** The length of a number's prefix: `Power2(z) <= v + 1 < Power2(z + 1)`. */
  function Prefix(v: nat): nat {
    if v == 0 then 0 else 1 + Prefix((v - 1) / 2)
  }

  /** Section 9.1 of ITU-T H.264: zeros, a one, and as many bits of what is left. */
  function UeCode(v: nat): seq<bool> {
    var z := Prefix(v);
    ZeroBits(z) + ([true] + Binary(if v + 1 >= Power2(z) then v + 1 - Power2(z) else 0, z))
  }

  /** Section 9.1.1: positive numbers take the odd codes. */
  function SeCode(v: int): seq<bool> {
    UeCode(if v > 0 then 2 * v - 1 else -2 * v)
  }

  /** These bits come next. */
  predicate Ahead(bits: seq<bool>, pos: nat, code: seq<bool>) {
    pos + |code| <= |bits| && bits[pos..pos + |code|] == code
  }

  lemma {:induction false} AheadSplit(bits: seq<bool>, pos: nat, a: seq<bool>, b: seq<bool>)
    ensures Ahead(bits, pos, a + b) <==> Ahead(bits, pos, a) && Ahead(bits, pos + |a|, b)
  {
    if pos + |a + b| <= |bits| {
      assert bits[pos..pos + |a + b|] == bits[pos..pos + |a|] + bits[pos + |a|..pos + |a| + |b|];
      if bits[pos..pos + |a + b|] == a + b {
        assert bits[pos..pos + |a|] == (a + b)[..|a|] && bits[pos + |a|..pos + |a| + |b|] == (a + b)[|a|..];
      }
    }
  }

  // ------------------------------------------------------------ reading what was written

  lemma {:induction false} ReadBinary(bits: seq<bool>, pos: nat, n: nat, w: nat)
    requires n < Power2(w) && Ahead(bits, pos, Binary(n, w))
    ensures ReadBits(bits, pos, w) == Some(Read(n, pos + w))
    decreases w
  {
    if w > 0 {
      AheadSplit(bits, pos, Binary(n / 2, w - 1), [n % 2 == 1]);
      ReadBinary(bits, pos, n / 2, w - 1);
      assert bits[pos + w - 1..pos + w - 1 + 1][0] == bits[pos + w - 1];
    }
  }

  lemma {:induction false} ZerosRead(bits: seq<bool>, pos: nat, z: nat, seen: nat)
    requires seen + z <= 31 && Ahead(bits, pos, ZeroBits(z) + [true])
    ensures Zeros(bits, pos, seen) == Some(seen + z)
    decreases z
  {
    assert bits[pos..pos + z + 1] == ZeroBits(z) + [true];
    if z == 0 {
      assert bits[pos..pos + 1][0] == bits[pos];
    } else {
      assert bits[pos..pos + z + 1][0] == bits[pos] && !bits[pos];
      assert bits[pos + 1..pos + 1 + z] == bits[pos..pos + z + 1][1..];
      assert (ZeroBits(z) + [true])[1..] == ZeroBits(z - 1) + [true];
      ZerosRead(bits, pos + 1, z - 1, seen + 1);
    }
  }

  lemma {:induction false} PrefixIs(v: nat)
    ensures Power2(Prefix(v)) <= v + 1 < Power2(Prefix(v) + 1)
    decreases v
  {
    if v > 0 {
      PrefixIs((v - 1) / 2);
    }
  }

  lemma {:induction false} PowersRise(a: nat, b: nat)
    requires a <= b
    ensures Power2(a) <= Power2(b)
    decreases b
  {
    if a < b {
      PowersRise(a, b - 1);
    }
  }

  lemma {:induction false} Power2Of31()
    ensures Power2(31) == 0x8000_0000 && Power2(32) == 0x1_0000_0000
  {
    assert Power2(4) == 16 by { assert Power2(2) == 4; }
    assert Power2(8) == 256 by { assert Power2(6) == 64; }
    assert Power2(12) == 4096 by { assert Power2(10) == 1024; }
    assert Power2(16) == 65536 by { assert Power2(14) == 16384; }
    assert Power2(20) == 0x10_0000 by { assert Power2(18) == 0x4_0000; }
    assert Power2(24) == 0x100_0000 by { assert Power2(22) == 0x40_0000; }
    assert Power2(28) == 0x1000_0000 by { assert Power2(26) == 0x400_0000; }
    assert Power2(30) == 0x4000_0000;
  }

  /** The prefix has at most 31 zeros exactly for numbers of 32 bits, the largest left out. */
  lemma {:induction false} PrefixFits(v: nat)
    ensures Prefix(v) <= 31 <==> v <= 0xFFFF_FFFE
  {
    Power2Of31();
    PrefixIs(v);
    var z := Prefix(v);
    hide Power2, Prefix;
    if z <= 31 {
      PowersRise(z + 1, 32);
    } else {
      PowersRise(32, z);
    }
  }

  lemma {:induction false} UeShape(v: nat) returns (z: nat, low: nat)
    ensures z == Prefix(v) && low < Power2(z) && v + 1 == Power2(z) + low
    ensures UeCode(v) == ZeroBits(z) + [true] + Binary(low, z)
  {
    PrefixIs(v);
    z, low := Prefix(v), v + 1 - Power2(Prefix(v));
    assert ZeroBits(z) + ([true] + Binary(low, z)) == ZeroBits(z) + [true] + Binary(low, z);
  }

  /** An unsigned code at the cursor is read as its number. */
  lemma {:induction false} ReadUeCode(bits: seq<bool>, pos: nat, v: nat)
    requires v <= 0xFFFF_FFFE && Ahead(bits, pos, UeCode(v))
    ensures ReadUe(bits, pos) == Some(Read(v, pos + |UeCode(v)|))
  {
    hide Power2, Prefix, UeCode, Zeros, ReadBits, Binary, ZeroBits, Ahead;
    var z, low := UeShape(v);
    PrefixFits(v);
    AheadSplit(bits, pos, ZeroBits(z) + [true], Binary(low, z));
    ZerosRead(bits, pos, z, 0);
    ReadBinary(bits, pos + z + 1, low, z);
  }

  /** The signed value the standard gives to an unsigned code. */
  function Meant(k: nat): int {
    if k % 2 == 1 then (k + 1) / 2 else -(k / 2)
  }

  lemma {:induction false} I32Of(n: int)
    ensures -0x8000_0000 <= n < 0x8000_0000 ==> AsI32(n) == n
    ensures 0x8000_0000 <= n < 0x1_0000_0000 ==> AsI32(n) == n - 0x1_0000_0000
  {
  }

  lemma {:induction false} SignedOdd(k: nat)
    requires k <= 0xFFFF_FFFE && k % 2 == 1
    ensures SignedOf(k) == (k + 1) / 2 <==> k < 0x7FFF_FFFF
  {
    hide AsI32;
    I32Of(k);
    I32Of(AsI32(k) + 1);
  }

  lemma {:induction false} SignedEven(k: nat)
    requires k <= 0xFFFF_FFFE && k % 2 == 0
    ensures SignedOf(k) == -(k / 2) <==> k < 0x7FFF_FFFF
  {
    hide AsI32;
    I32Of(k);
    I32Of(-Trunc(AsI32(k), 2));
  }

  /** Exactly when the signed number read is the one meant: for codes below 2^31 - 1, not for the larger ones. */
  lemma {:induction false} SignedExactly(k: nat)
    requires k <= 0xFFFF_FFFE
    ensures SignedOf(k) == Meant(k) <==> k < 0x7FFF_FFFF
  {
    hide SignedOf;
    if k % 2 == 1 {
      SignedOdd(k);
    } else {
      SignedEven(k);
    }
  }

  lemma {:induction false} CodeMeans(v: int)
    ensures var k := if v > 0 then 2 * v - 1 else -2 * v; SeCode(v) == UeCode(k) && Meant(k) == v
  {
    hide UeCode;
  }

  /** A signed code at the cursor is read as its number, within thirty bits. */
  lemma {:induction false} ReadSeCode(bits: seq<bool>, pos: nat, v: int)
    requires -0x4000_0000 < v < 0x4000_0000 && Ahead(bits, pos, SeCode(v))
    ensures ReadSe(bits, pos) == Some(ReadInt(v, pos + |SeCode(v)|))
  {
    hide UeCode, SeCode, ReadUe, SignedOf, Meant, Ahead;
    var k: nat := if v > 0 then 2 * v - 1 else -2 * v;
    CodeMeans(v);
    ReadUeCode(bits, pos, k);
    SignedExactly(k);
  }

  lemma {:induction false} ReadOne(bits: seq<bool>, pos: nat, b: bool)
    requires Ahead(bits, pos, [b])
    ensures ReadBit(bits, pos) == Some(Read(Num(b), pos + 1))
  {
    assert bits[pos..pos + 1][0] == bits[pos];
  }

  // ------------------------------------------------------------ the loops

  lemma {:induction false} UnescapeNext(s: seq<byte>, i: nat, zeros: nat)
    requires i < |s|
    ensures Unescape(s[i..], zeros) ==
      if zeros >= 2 && s[i] == 3 then Unescape(s[i + 1..], 0)
      else [s[i]] + Unescape(s[i + 1..], if s[i] == 0 then zeros + 1 else 0)
  {
    assert s[i..] == [s[i]] + s[i + 1..];
    UnescapeHead(s[i], s[i + 1..], zeros);
  }

  method UnescapeRbsp(nal: seq<byte>) returns (out: seq<byte>)
    ensures out == Unescape(nal, 0)
  {
    hide Unescape;
    out := [];
    var zeros := 0;
    assert nal[0..] == nal;
    for i := 0 to |nal|
      invariant Unescape(nal, 0) == out + Unescape(nal[i..], zeros)
    {
      UnescapeNext(nal, i, zeros);
      var b := nal[i];
      if zeros >= 2 && b == 3 {
        zeros := 0;
        continue;
      }
      zeros := if b == 0 then zeros + 1 else 0;
      out := out + [b];
    }
    assert nal[|nal|..] == [];
    UnescapeNothing(zeros);
  }

  lemma {:induction false} UnescapeNothing(zeros: nat)
    ensures Unescape([], zeros) == []
  {
  }

  /** The cursor over the bits of a payload; after a failed read it is of no use. */
  class Bits {
    const bytes: seq<byte>
    var pos: nat

    constructor (s: seq<byte>)
      ensures bytes == s && pos == 0
    {
      bytes, pos := s, 0;
    }

    method Bit() returns (r: Option<nat>)
      modifies this`pos
      ensures match ReadBit(BitsOf(bytes), old(pos))
        case None => r == None
        case Some(x) => r == Some(x.value) && pos == x.pos
    {
      if pos / 8 >= |bytes| {
        return None;
      }
      r := Some(Num(BitOf(bytes[pos / 8], pos % 8)));
      pos := pos + 1;
    }

    method Number(n: nat) returns (r: Option<nat>)
      modifies this`pos
      ensures match ReadBits(BitsOf(bytes), old(pos), n)
        case None => r == None
        case Some(x) => r == Some(x.value) && pos == x.pos
    {
      hide BitsOf, ReadBit;
      var v := 0;
      for i := 0 to n
        invariant ReadBits(BitsOf(bytes), old(pos), i) == Some(Read(v, pos))
      {
        var b := Bit();
        if b.None? {
          ReadBitsFails(BitsOf(bytes), old(pos), i + 1, n);
          return None;
        }
        v := 2 * v + b.value;
      }
      r := Some(v);
    }

    /** The zeros before the next one, which is passed. */
    method Leading() returns (z: Option<nat>)
      modifies this`pos
      ensures z == Zeros(BitsOf(bytes), old(pos), 0)
      ensures z.Some? ==> pos == old(pos) + z.value + 1
    {
      hide Zeros, BitsOf;
      var zeros := 0;
      while true
        invariant zeros <= 31 && pos == old(pos) + zeros
        invariant Zeros(BitsOf(bytes), pos, zeros) == Zeros(BitsOf(bytes), old(pos), 0)
        decreases 32 - zeros
      {
        ZerosNext(BitsOf(bytes), pos, zeros);
        var b := Bit();
        if b.None? {
          return None;
        }
        if b.value != 0 {
          return Some(zeros);
        }
        zeros := zeros + 1;
        if zeros > 31 {
          return None;
        }
      }
    }

    method Ue() returns (r: Option<nat>)
      modifies this`pos
      ensures match ReadUe(BitsOf(bytes), old(pos))
        case None => r == None
        case Some(x) => r == Some(x.value) && pos == x.pos
    {
      hide BitsOf, Zeros, ReadBits, Power2;
      var zeros := Leading();
      if zeros.None? {
        return None;
      }
      var rest := Number(zeros.value);
      if rest.None? {
        return None;
      }
      r := Some(Power2(zeros.value) - 1 + rest.value);
    }

    method Se() returns (r: Option<int>)
      modifies this`pos
      ensures match ReadSe(BitsOf(bytes), old(pos))
        case None => r == None
        case Some(x) => r == Some(x.value) && pos == x.pos
    {
      var k := Ue();
      r := if k.None? then None else Some(SignedOf(k.value));
    }
  }

  lemma {:induction false} ZerosNext(bits: seq<bool>, pos: nat, seen: nat)
    requires seen <= 31
    ensures Zeros(bits, pos, seen) ==
      match ReadBit(bits, pos)
      case None => None
      case Some(b) => if b.value != 0 then Some(seen) else if seen + 1 > 31 then None
        else Zeros(bits, pos + 1, seen + 1)
    ensures Zeros(bits, pos, seen).Some? ==> Zeros(bits, pos, seen).value <= 31
  {
    ZerosBound(bits, pos, seen);
  }

  lemma {:induction false} ZerosBound(bits: seq<bool>, pos: nat, seen: nat)
    requires seen <= 31
    ensures Zeros(bits, pos, seen).Some? ==> Zeros(bits, pos, seen).value <= 31
    decreases 32 - seen
  {
    if pos < |bits| && !bits[pos] && seen + 1 <= 31 {
      ZerosBound(bits, pos + 1, seen + 1);
    }
  }

  lemma {:induction false} ReadBitsFails(bits: seq<bool>, pos: nat, n: nat, m: nat)
    requires ReadBits(bits, pos, n).None? && n <= m
    ensures ReadBits(bits, pos, m).None?
    decreases m
  {
    if n < m {
      ReadBitsFails(bits, pos, n, m - 1);
    }
  }
}
