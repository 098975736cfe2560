/**
 The cursor clients carry between media requests, as text: `<nextMs>-<block>-<kind>-<file>`, where
 kind is 0 in the same file, 1 at the start of another, 2 at the tail of a file still growing.
 */
module MediaCursor {
  import opened Bytes

  datatype Cursor = Cursor(nextMs: int, file: string, block: int, newFile: bool, tail: bool)

  predicate IsI64(n: int) {
    -0x8000_0000_0000_0000 <= n < 0x8000_0000_0000_0000
  }

  predicate IsDigit(c: char) {
    '0' <= c <= '9'
  }

  function DigitChar(d: int): (c: char)
    requires 0 <= d < 10
    ensures IsDigit(c) && c as int == 48 + d
  {
    (48 + d) as char
  }

  function DigitValue(c: char): (d: nat)
    requires IsDigit(c)
    ensures d < 10 && c == DigitChar(d)
  {
    (c as int) - 48
  }

  function Digits(n: nat): (s: string)
    ensures s != [] && forall i :: 0 <= i < |s| ==> IsDigit(s[i])
  {
    if n < 10 then [DigitChar(n)] else Digits(n / 10) + [DigitChar(n % 10)]
  }

  function Decimal(n: int): string {
    if n < 0 then ['-'] + Digits(-n) else Digits(n)
  }

  /** The value of a run of digits; None at any other character or nothing at all. */
  function Value(s: string): Option<nat> {
    if s == [] || !IsDigit(s[|s| - 1]) then None
    else
      var d := DigitValue(s[|s| - 1]);
      if |s| == 1 then Some(d)
      else match Value(s[..|s| - 1]) case None => None case Some(v) => Some(10 * v + d)
  }

  /** An integer with an optional sign, refused outside `lo..hi`. */
  function ParseInt(s: string, lo: int, hi: int): Option<int> {
    if s == [] then None
    else
      var digits := if s[0] == '-' || s[0] == '+' then s[1..] else s;
      match Value(digits)
      case None => None
      case Some(v) =>
        var n: int := if s[0] == '-' then -(v as int) else v;
        if lo <= n < hi then Some(n) else None
  }

  function Find(s: string, c: char): (at: Option<nat>)
    ensures at.Some? ==> at.value < |s| && s[at.value] == c && c !in s[..at.value]
    ensures at.None? ==> c !in s
  {
    if s == [] then None
    else if s[0] == c then Some(0)
    else match Find(s[1..], c) case None => None case Some(k) => Some(k + 1)
  }

  function Encode(c: Cursor): string {
    var kind := if c.tail then 2 else if c.newFile then 1 else 0;
    Decimal(c.nextMs) + "-" + Decimal(c.block) + "-" + Decimal(kind) + "-" + c.file
  }

  /** Block, kind and file, after the instant. */
  function DecodeTail(ms: Option<int>, rest: string): Option<Cursor> {
    match Find(rest, '-')
    case None => None
    case Some(p2) =>
      var rest2 := rest[p2 + 1..];
      match Find(rest2, '-')
      case None => None
      case Some(p3) =>
        var file := rest2[p3 + 1..];
        if p2 == 0 || p3 == 0 || file == [] then None
        else
          match (ms, ParseInt(rest[..p2], -0x8000_0000_0000_0000, 0x8000_0000_0000_0000),
                 ParseInt(rest2[..p3], -0x8000_0000, 0x8000_0000))
          case (Some(t), Some(block), Some(kind)) => Some(Cursor(t, file, block, kind == 1, kind == 2))
          case _ => None
  }

  /** The first dash is looked for after the first character, so that the instant may be negative. */
  function Decode(s: string): Option<Cursor> {
    if s == [] || s[0] as int >= 128 then None
    else
      match Find(s[1..], '-')
      case None => None
      case Some(k) => DecodeTail(ParseInt(s[..k + 1], -0x8000_0000_0000_0000, 0x8000_0000_0000_0000), s[k + 2..])
  }

  lemma {:induction false} ValueOfDigits(n: nat)
    ensures Value(Digits(n)) == Some(n)
    decreases n
  {
    if n >= 10 {
      ValueOfDigits(n / 10);
      assert Digits(n)[..|Digits(n)| - 1] == Digits(n / 10);
    }
  }

  lemma {:induction false} ParseOfDecimal(n: int, lo: int, hi: int)
    requires lo <= n < hi
    ensures ParseInt(Decimal(n), lo, hi) == Some(n)
  {
    if n < 0 {
      ValueOfDigits(-n);
      assert Decimal(n)[1..] == Digits(-n);
    } else {
      ValueOfDigits(n);
    }
    hide Value, Digits;
  }

  lemma {:induction false} FindAfter(a: string, c: char, rest: string)
    requires c !in a
    ensures Find(a + [c] + rest, c) == Some(|a|)
    decreases |a|
  {
    var s := a + [c] + rest;
    if a != [] {
      assert s[1..] == a[1..] + [c] + rest;
      FindAfter(a[1..], c, rest);
    }
  }

  lemma {:induction false} DecimalShape(n: int)
    ensures Decimal(n) != [] && (Decimal(n)[0] as int) < 128
    ensures '-' !in Decimal(n)[1..]
    ensures n >= 0 ==> '-' !in Decimal(n)
    ensures n < 0 ==> Decimal(n)[0] == '-'
  {
    var d := Digits(if n < 0 then -n else n);
    hide Digits;
    assert n < 0 ==> Decimal(n)[1..] == d;
  }

  /** The part after the instant: block, kind and file. */
  function Tail(c: Cursor): string {
    var kind := if c.tail then 2 else if c.newFile then 1 else 0;
    Decimal(c.block) + "-" + (Decimal(kind) + "-" + c.file)
  }

  lemma {:induction false} InstantRead(c: Cursor)
    requires IsI64(c.nextMs)
    ensures var s := Encode(c);
      && s != [] && (s[0] as int) < 128
      && Find(s[1..], '-') == Some(|Decimal(c.nextMs)| - 1)
      && s[|Decimal(c.nextMs)| + 1..] == Tail(c)
      && ParseInt(s[..|Decimal(c.nextMs)|], -0x8000_0000_0000_0000, 0x8000_0000_0000_0000) == Some(c.nextMs)
  {
    DecimalShape(c.nextMs);
    ParseOfDecimal(c.nextMs, -0x8000_0000_0000_0000, 0x8000_0000_0000_0000);
    EncodeParts(c);
    hide *;
    var a := Decimal(c.nextMs);
    Parts(a, Tail(c));
    FindAfter(a[1..], '-', Tail(c));
  }

  lemma {:induction false} EncodeParts(c: Cursor)
    ensures Encode(c) == Decimal(c.nextMs) + (['-'] + Tail(c))
  {
    hide Decimal;
  }

  lemma {:induction false} Parts(a: string, rest: string)
    requires a != []
    ensures var s := a + (['-'] + rest);
      s != [] && s[0] == a[0] && s[1..] == a[1..] + ['-'] + rest && s[..|a|] == a && s[|a| + 1..] == rest
  {
  }

  lemma {:induction false} TailRead(c: Cursor)
    requires IsI64(c.block)
    ensures DecodeTail(Some(c.nextMs), Tail(c)) == Some(c) <==> c.block >= 0 && c.file != [] && !(c.newFile && c.tail)
  {
    var kind := if c.tail then 2 else if c.newFile then 1 else 0;
    var b, k := Decimal(c.block), Decimal(kind);
    DecimalShape(c.block);
    DecimalShape(kind);
    ParseOfDecimal(c.block, -0x8000_0000_0000_0000, 0x8000_0000_0000_0000);
    ParseOfDecimal(kind, -0x8000_0000, 0x8000_0000);
    hide Decimal, ParseInt;
    var rest2 := k + ['-'] + c.file;
    FindAfter(k, '-', c.file);
    assert rest2[..|k|] == k && rest2[|k| + 1..] == c.file;
    if c.block >= 0 {
      FindAfter(b, '-', rest2);
      assert Tail(c) == b + ['-'] + rest2;
      assert Tail(c)[..|b|] == b && Tail(c)[|b| + 1..] == rest2;
    } else {
      assert Find(Tail(c), '-') == Some(0);
    }
    hide Find, Tail;
  }

  /**
   A cursor survives the trip through text exactly when it is one the server issues: a block that is
   not negative, a file name, and at most one of the two marks. The name may hold dashes.
   */
  lemma {:induction false} CursorRoundTrip(c: Cursor)
    requires IsI64(c.nextMs) && IsI64(c.block)
    ensures Decode(Encode(c)) == Some(c) <==> c.block >= 0 && c.file != [] && !(c.newFile && c.tail)
  {
    InstantRead(c);
    TailRead(c);
    DecimalShape(c.nextMs);
    hide Decimal, Encode, ParseInt, Tail, DecodeTail, Find;
  }
}
