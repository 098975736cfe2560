/** Days as text, `YYYY-MM-DD`: written, read back, and compared as strings are. */
module DayText {
  import opened Bytes
  import opened MediaCursor
  import opened Calendar

  /** At least `width` digits, with zeros in front. */
  function Padded(n: nat, width: nat): (s: string)
    ensures s != [] && forall i :: 0 <= i < |s| ==> IsDigit(s[i])
  {
    if width <= 1 then Digits(n) else Padded(n / 10, width - 1) + [DigitChar(n % 10)]
  }

  /** Four characters or more, the sign included. */
  function YearText(y: int): string {
    if y < 0 then "-" + Padded(-y, 3) else Padded(y, 4)
  }

  function Text(d: Date): string {
    YearText(d.year) + ("-" + (Padded(d.month, 2) + ("-" + Padded(d.day, 2))))
  }

  /** Exactly three parts between dashes: a year, a month from 1 to 12, a day from 1 to 31. */
  function Parse(s: string): Option<Date> {
    match Find(s, '-')
    case None => None
    case Some(p) => ParseRest(ParseInt(s[..p], -0x8000_0000, 0x8000_0000), s[p + 1..])
  }

  function ParseRest(year: Option<int>, s: string): Option<Date> {
    match Find(s, '-')
    case None => None
    case Some(p) =>
      match (year, ParseInt(s[..p], 0, 0x1_0000_0000), ParseDayPart(s[p + 1..]))
      case (Some(y), Some(m), Some(d)) => if 1 <= m <= 12 && 1 <= d <= 31 then Some(Date(y, m, d)) else None
      case _ => None
  }

  function ParseDayPart(s: string): Option<int> {
    if Find(s, '-').Some? then None else ParseInt(s, 0, 0x1_0000_0000)
  }

  // ------------------------------------------------------------ reading back

  lemma {:induction false} ValueOfPadded(n: nat, width: nat)
    ensures Value(Padded(n, width)) == Some(n)
    decreases width
  {
    if width <= 1 {
      ValueOfDigits(n);
    } else {
      ValueOfPadded(n / 10, width - 1);
      var s := Padded(n, width);
      assert s[..|s| - 1] == Padded(n / 10, width - 1);
    }
  }

  lemma {:induction false} ParsePadded(n: nat, width: nat, lo: int, hi: int)
    requires lo <= n < hi
    ensures ParseInt(Padded(n, width), lo, hi) == Some(n) && '-' !in Padded(n, width)
  {
    ValueOfPadded(n, width);
    assert IsDigit(Padded(n, width)[0]);
    hide Padded, Value;
  }

  lemma {:induction false} NoDash(s: string)
    requires '-' !in s
    ensures Find(s, '-') == None
  {
  }

  /** A valid date from year 0 on is read back from its text. */
  lemma {:induction false} ParseText(d: Date)
    requires ValidDate(d) && 0 <= d.year < 0x8000_0000
    ensures Parse(Text(d)) == Some(d)
  {
    hide Padded, ParseInt, Find, ParseRest;
    var y := Padded(d.year, 4);
    ParsePadded(d.year, 4, -0x8000_0000, 0x8000_0000);
    var rest := Padded(d.month, 2) + ("-" + Padded(d.day, 2));
    assert Text(d) == y + ['-'] + rest;
    FindAfter(y, '-', rest);
    assert Text(d)[..|y|] == y && Text(d)[|y| + 1..] == rest;
    hide Text;
    ParseMonthAndDay(d);
  }

  lemma {:induction false} ParseMonthAndDay(d: Date)
    requires ValidDate(d)
    ensures ParseRest(Some(d.year), Padded(d.month, 2) + ("-" + Padded(d.day, 2))) == Some(d)
  {
    hide Padded, ParseInt, Find;
    var m, day := Padded(d.month, 2), Padded(d.day, 2);
    ParsePadded(d.month, 2, 0, 0x1_0000_0000);
    ParsePadded(d.day, 2, 0, 0x1_0000_0000);
    var rest := m + ['-'] + day;
    assert m + ("-" + day) == rest;
    FindAfter(m, '-', day);
    NoDash(day);
    assert rest[..|m|] == m && rest[|m| + 1..] == day;
  }

  lemma {:induction false} ParseIntRefuses(n: nat, width: nat, lo: int, hi: int)
    requires hi <= n
    ensures ParseInt(Padded(n, width), lo, hi) == None
  {
    ValueOfPadded(n, width);
    assert IsDigit(Padded(n, width)[0]);
    hide Padded, Value;
  }

  /** A year before 0, or past 31 bits, is not read. */
  lemma {:induction false} ParseTextFails(d: Date)
    requires ValidDate(d) && !(0 <= d.year < 0x8000_0000)
    ensures Parse(Text(d)) == None
  {
    hide Padded, ParseInt, Find;
    var rest := Padded(d.month, 2) + ("-" + Padded(d.day, 2));
    if d.year < 0 {
      var all := Padded(-d.year, 3) + ("-" + rest);
      assert Text(d) == "" + ['-'] + all;
      FindAfter("", '-', all);
      NoNumber(Text(d));
    } else {
      var y := Padded(d.year, 4);
      ParseIntRefuses(d.year, 4, -0x8000_0000, 0x8000_0000);
      assert Text(d) == y + ['-'] + rest;
      FindAfter(y, '-', rest);
      assert Text(d)[..|y|] == y;
    }
    hide Text;
  }

  lemma {:induction false} NoNumber(s: string)
    ensures ParseInt(s[..0], -0x8000_0000, 0x8000_0000) == None
  {
  }

  // ------------------------------------------------------------ order

  /** As strings compare: character by character, a prefix before what extends it. */
  predicate TextAtMost(a: string, b: string)
    decreases |a|
  {
    a == [] || (b != [] && (a[0] < b[0] || (a[0] == b[0] && TextAtMost(a[1..], b[1..]))))
  }

  lemma {:induction false} AtMostReflexive(a: string)
    ensures TextAtMost(a, a)
    decreases |a|
  {
    if a != [] {
      AtMostReflexive(a[1..]);
    }
  }

  /** Texts in parts of equal lengths compare by the first part that differs. */
  lemma {:induction false} AtMostByParts(a: string, b: string, x: string, y: string)
    requires |a| == |b|
    ensures TextAtMost(a + x, b + y) <==> if a == b then TextAtMost(x, y) else TextAtMost(a, b)
    decreases |a|
  {
    if a == [] {
      assert a + x == x && b + y == y;
    } else {
      assert (a + x)[1..] == a[1..] + x && (b + y)[1..] == b[1..] + y;
      AtMostByParts(a[1..], b[1..], x, y);
      if a[0] == b[0] {
        assert a == [a[0]] + a[1..] && b == [b[0]] + b[1..];
      }
    }
  }

  function Power(w: nat): nat {
    if w == 0 then 1 else 10 * Power(w - 1)
  }

  /** Numbers of a fixed number of digits compare as their texts do. */
  lemma {:induction false} PaddedOrder(n: nat, m: nat, w: nat)
    requires w >= 1 && n < Power(w) && m < Power(w)
    ensures |Padded(n, w)| == |Padded(m, w)|
    ensures TextAtMost(Padded(n, w), Padded(m, w)) <==> n <= m
    ensures Padded(n, w) == Padded(m, w) <==> n == m
    decreases w
  {
    if w == 1 {
      assert Power(1) == 10 by { assert Power(0) == 1; }
      assert Digits(n) == [DigitChar(n)] && Digits(m) == [DigitChar(m)];
      OneCharacter(DigitChar(n), DigitChar(m));
    } else {
      PaddedOrder(n / 10, m / 10, w - 1);
      OneCharacter(DigitChar(n % 10), DigitChar(m % 10));
      AtMostByParts(Padded(n / 10, w - 1), Padded(m / 10, w - 1), [DigitChar(n % 10)], [DigitChar(m % 10)]);
      PaddedSame(n, m, w);
      hide Power, TextAtMost, Digits;
    }
  }

  lemma {:induction false} OneCharacter(a: char, b: char)
    ensures TextAtMost([a], [b]) <==> a <= b
  {
    assert [a][1..] == [] && [b][1..] == [];
  }

  lemma {:induction false} PaddedSame(n: nat, m: nat, w: nat)
    requires w >= 2
    ensures Padded(n, w) == Padded(m, w) <==> Padded(n / 10, w - 1) == Padded(m / 10, w - 1) && n % 10 == m % 10
  {
    var a, b := Padded(n / 10, w - 1), Padded(m / 10, w - 1);
    assert (a + [DigitChar(n % 10)])[..|a|] == a && (b + [DigitChar(m % 10)])[..|b|] == b;
  }

  /** Years of four digits. */
  predicate FourDigits(y: int) {
    0 <= y <= 9999
  }

  lemma {:induction false} PowersSmall()
    ensures Power(2) == 100 && Power(4) == 10000
  {
    assert Power(1) == 10 && Power(3) == 1000;
  }

  // ------------------------------------------------------------ past year 9999

  /** How many digits a year is written with. */
  function Width(y: nat): (w: nat)
    ensures w >= 4
  {
    if y < 10000 then 4 else 1 + Width(y / 10)
  }

  /** A number without its last `k` digits. */
  function Leading(n: nat, k: nat): nat {
    if k == 0 then n else Leading(n / 10, k - 1)
  }

  /** Years of as many digits, or the shorter no larger than as many first digits of the longer. */
  predicate Aligned(x: nat, y: nat) {
    if Width(x) <= Width(y) then Width(x) == Width(y) || x <= Leading(y, Width(y) - Width(x))
    else y <= Leading(x, Width(x) - Width(y))
  }

  lemma {:induction false} PowerNext(w: nat)
    ensures Power(w + 1) == 10 * Power(w)
  {
  }

  lemma {:induction false} PowerRises(v: nat, w: nat)
    requires v <= w
    ensures Power(v) <= Power(w)
    decreases w
  {
    if v < w {
      PowerRises(v, w - 1);
      PowerNext(w - 1);
    }
  }

  lemma {:induction false} WidthFits(y: nat)
    ensures y < Power(Width(y)) && (Width(y) > 4 ==> y >= Power(Width(y) - 1))
    decreases y
  {
    PowersSmall();
    if y >= 10000 {
      WidthFits(y / 10);
      PowerNext(Width(y / 10));
      PowerNext(Width(y / 10) - 1);
    }
    hide Power;
  }

  /** A number too long for a width is written in full. */
  lemma {:induction false} PaddedFull(n: nat, w: nat)
    requires w >= 1 && n >= Power(w)
    ensures Padded(n, w) == Padded(n, w + 1)
    decreases w
  {
    PowerNext(w - 1);
    if w == 1 {
      assert Power(0) == 1;
      assert Padded(n, 2) == Padded(n / 10, 1) + [DigitChar(n % 10)];
    } else {
      hide Power;
      PaddedFull(n / 10, w - 1);
    }
  }

  lemma {:induction false} PaddedAs(n: nat, w: nat, v: nat)
    requires 1 <= w <= v && (w < v ==> n >= Power(v - 1))
    ensures Padded(n, w) == Padded(n, v)
    decreases v
  {
    hide Power, Padded;
    if w < v {
      PowerRises(if v >= w + 2 then v - 2 else v - 1, v - 1);
      PaddedAs(n, w, v - 1);
      PaddedFull(n, v - 1);
    }
  }

  lemma {:induction false} PaddedSplit(n: nat, w: nat, k: nat) returns (rest: string)
    requires w >= 1
    ensures Padded(n, w + k) == Padded(Leading(n, k), w) + rest && |rest| == k
      && forall i :: 0 <= i < k ==> IsDigit(rest[i])
    decreases k
  {
    rest := [];
    if k == 0 {
      assert Padded(n, w) + [] == Padded(n, w);
    } else {
      rest := PaddedSplit(n / 10, w, k - 1);
      assert Padded(n, w + k) == Padded(n / 10, w + k - 1) + [DigitChar(n % 10)];
      hide Padded, Leading;
      var front := Padded(Leading(n / 10, k - 1), w);
      assert (front + rest) + [DigitChar(n % 10)] == front + (rest + [DigitChar(n % 10)]);
      rest := rest + [DigitChar(n % 10)];
    }
  }

  lemma {:induction false} LeadingFits(n: nat, w: nat, k: nat)
    requires n < Power(w + k)
    ensures Leading(n, k) < Power(w)
    decreases k
  {
    if k > 0 {
      PowerNext(w + k - 1);
      hide Power;
      LeadingFits(n / 10, w, k - 1);
    }
  }

  /** The text of a year, then a dash, and more. */
  function YearThen(y: nat, rest: string): string {
    Padded(y, 4) + ("-" + rest)
  }

  /** The text of a shorter year before that of a longer: by as many first digits, and a dash before any digit. */
  lemma {:induction false} ShorterYear(x: nat, y: nat, p: string, q: string)
    requires Width(x) < Width(y)
    ensures var lead := Leading(y, Width(y) - Width(x));
      (TextAtMost(YearThen(x, p), YearThen(y, q)) <==> x <= lead)
      && (TextAtMost(YearThen(y, q), YearThen(x, p)) <==> lead < x)
    ensures x < y
  {
    var w, k := Width(x), Width(y) - Width(x);
    var lead := Leading(y, k);
    WidthFits(x);
    WidthFits(y);
    PowerRises(w, Width(y) - 1);
    PaddedAs(x, 4, w);
    PaddedAs(y, 4, w + k);
    LeadingFits(y, w, k);
    PaddedOrder(x, lead, w);
    PaddedOrder(lead, x, w);
    hide Power, Padded, Width, Leading, TextAtMost;
    var rest := PaddedSplit(y, w, k);
    var a, b := Padded(x, w), Padded(lead, w);
    assert YearThen(x, p) == a + ("-" + p);
    assert (b + rest) + ("-" + q) == b + (rest + ("-" + q));
    AtMostByParts(a, b, "-" + p, rest + ("-" + q));
    AtMostByParts(b, a, rest + ("-" + q), "-" + p);
    DashFirst("-" + p, rest + ("-" + q));
  }

  lemma {:induction false} DashFirst(a: string, b: string)
    requires a != [] && b != [] && a[0] == '-' && IsDigit(b[0])
    ensures TextAtMost(a, b) && !TextAtMost(b, a)
  {
  }

  /** Years of as many digits: the dates' texts compare as the dates. */
  lemma {:induction false} SameWidth(a: Date, b: Date)
    requires ValidDate(a) && ValidDate(b) && a.year >= 0 && b.year >= 0 && Width(a.year) == Width(b.year)
    ensures TextAtMost(Text(a), Text(b)) <==> !Before(b, a)
  {
    var w := Width(a.year);
    PowersSmall();
    WidthFits(a.year);
    WidthFits(b.year);
    PaddedAs(a.year, 4, w);
    PaddedAs(b.year, 4, w);
    PaddedOrder(a.year, b.year, w);
    PaddedOrder(a.month, b.month, 2);
    PaddedOrder(a.day, b.day, 2);
    hide Padded, Power, TextAtMost, Width;
    var ra, rb := Padded(a.month, 2) + ("-" + Padded(a.day, 2)), Padded(b.month, 2) + ("-" + Padded(b.day, 2));
    AtMostByParts(Padded(a.year, 4), Padded(b.year, 4), "-" + ra, "-" + rb);
    AtMostByParts("-", "-", ra, rb);
    AtMostByParts(Padded(a.month, 2), Padded(b.month, 2), "-" + Padded(a.day, 2), "-" + Padded(b.day, 2));
    AtMostByParts("-", "-", Padded(a.day, 2), Padded(b.day, 2));
  }

  /**
   Exactly when two dates from year 0 on compare as texts as they do as dates: if and only if their years have
   as many digits, or the shorter year is no larger than as many first digits of the longer.
   */
  lemma {:induction false} TextOrderExactly(a: Date, b: Date)
    requires ValidDate(a) && ValidDate(b) && a.year >= 0 && b.year >= 0
    ensures (TextAtMost(Text(a), Text(b)) <==> !Before(b, a)) <==> Aligned(a.year, b.year)
  {
    hide Width, Padded, Leading, TextAtMost;
    var ra, rb := Padded(a.month, 2) + ("-" + Padded(a.day, 2)), Padded(b.month, 2) + ("-" + Padded(b.day, 2));
    assert Text(a) == YearThen(a.year, ra) && Text(b) == YearThen(b.year, rb);
    if Width(a.year) == Width(b.year) {
      SameWidth(a, b);
    } else if Width(a.year) < Width(b.year) {
      ShorterYear(a.year, b.year, ra, rb);
    } else {
      ShorterYear(b.year, a.year, rb, ra);
    }
  }

  /** From year 0 to year 9999, texts are in the order of the dates. */
  lemma {:induction false} TextOrder(a: Date, b: Date)
    requires ValidDate(a) && ValidDate(b) && FourDigits(a.year) && FourDigits(b.year)
    ensures TextAtMost(Text(a), Text(b)) <==> !Before(b, a)
  {
    SameWidth(a, b);
    hide Text, TextAtMost;
  }

  /** The day after the last of year 9999 reads as earlier. */
  lemma {:induction false} FifthDigitBreaksOrder()
    ensures var a, b := Date(9999, 12, 31), Date(10000, 1, 1);
      ValidDate(a) && ValidDate(b) && Before(a, b) && !TextAtMost(Text(a), Text(b))
  {
    TextOrderExactly(Date(9999, 12, 31), Date(10000, 1, 1));
    assert Width(10000) == 1 + Width(1000) == 5 && Leading(10000, 1) == Leading(1000, 0) == 1000;
    hide Text, TextAtMost;
  }
}
