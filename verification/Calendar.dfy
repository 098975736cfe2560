/** The civil calendar: days since 1970-01-01 to dates and back. */
module Calendar {
  import opened Bytes

  datatype Date = Date(year: int, month: nat, day: nat)

  predicate Leap(y: int) {
    y % 4 == 0 && (y % 100 != 0 || y % 400 == 0)
  }

  function DaysIn(y: int, m: nat): nat {
    if m == 2 then if Leap(y) then 29 else 28
    else if m == 4 || m == 6 || m == 9 || m == 11 then 30 else 31
  }

  predicate ValidDate(d: Date) {
    1 <= d.month <= 12 && 1 <= d.day <= DaysIn(d.year, d.month)
  }

  /** The year of the era that a day of it lies in; years start in March. */
  function YearOfEra(doe: int): int {
    (doe - doe / 1460 + doe / 36524 - doe / 146096) / 365
  }

  function CivilFromDays(days: int): Date {
    var z := days + 719468;
    var era := Trunc(if z >= 0 then z else z - 146096, 146097);
    var doe := z - era * 146097;
    var yoe := YearOfEra(doe);
    var y := yoe + era * 400;
    var doy := doe - (365 * yoe + yoe / 4 - yoe / 100);
    FromMarch(y, doy)
  }

  /** The date of day `doy` of the year that starts in March of year `y`. */
  function FromMarch(y: int, doy: int): Date {
    var mp := (5 * doy + 2) / 153;
    var d := doy - MonthStart(mp) + 1;
    var m := if mp < 10 then mp + 3 else mp - 9;
    Date(if m <= 2 then y + 1 else y, if m >= 0 then m else 0, if d >= 0 then d else 0)
  }

  function DaysFromCivil(d: Date): int {
    var y := if d.month <= 2 then d.year - 1 else d.year;
    var era := Trunc(if y >= 0 then y else y - 399, 400);
    var yoe := y - era * 400;
    var mp := (d.month + 9) % 12;
    var doy := (153 * mp + 2) / 5 + d.day - 1;
    era * 146097 + (yoe * 365 + yoe / 4 - yoe / 100 + doy) - 719468
  }

  // ------------------------------------------------------------ years that start in March

  /** The first day of a March year, counted from 1 March of year 0. */
  function YearStart(y: int): int {
    365 * y + y / 4 - y / 100 + y / 400
  }

  function MonthStart(mp: int): int {
    (153 * mp + 2) / 5
  }

  lemma {:induction false} DivStep(y: int, n: int)
    requires n > 1
    ensures (y + 1) / n == y / n + (if (y + 1) % n == 0 then 1 else 0)
  {
    var q, r := y / n, y % n;
    assert y == q * n + r;
    if r == n - 1 {
      assert y + 1 == (q + 1) * n;
      Divided(y + 1, n, q + 1, 0);
    } else {
      Divided(y + 1, n, q, r + 1);
    }
  }

  lemma {:induction false} YearLength(y: int)
    ensures YearStart(y + 1) - YearStart(y) == if Leap(y + 1) then 366 else 365
  {
    DivStep(y, 4);
    DivStep(y, 100);
    DivStep(y, 400);
    Multiples(y + 1);
  }

  lemma {:induction false} Multiples(y: int)
    ensures y % 400 == 0 ==> y % 100 == 0
    ensures y % 100 == 0 ==> y % 4 == 0
  {
  }

  lemma {:induction false} YearsOrdered(a: int, b: int)
    requires a < b
    ensures YearStart(a) + 365 <= YearStart(a + 1) <= YearStart(b)
    decreases b - a
  {
    YearLength(a);
    hide Leap, YearStart;
    if a + 1 < b {
      YearsOrdered(a + 1, b);
    }
  }

  /** A day of the era below its last: century, four-year block, day of the block. */
  lemma {:induction false} YearOfEraBlocks(doe: int, c: int, b: int, t: int)
    requires 0 <= c <= 3 && 0 <= b <= 24 && 0 <= t <= 1460 && doe == 36524 * c + 1461 * b + t && 1461 * b + t < 36524
    ensures var j := if t >= 1095 then 3 else t / 365; YearOfEra(doe) == 100 * c + 4 * b + j
  {
    var e := (24 * c + b + t) / 1460;
    assert 0 <= e <= 1 && (e == 1 ==> t >= 1364);
    assert doe == (25 * c + b) * 1460 + (24 * c + b + t);
    assert doe / 1460 == 25 * c + b + e;
    assert doe / 36524 == c && doe / 146096 == 0;
    assert doe - doe / 1460 + doe / 36524 - doe / 146096 == 36500 * c + 1460 * b + t - e;
    var j := if t >= 1095 then 3 else t / 365;
    assert 0 <= t - e - 365 * j < 365;
    Divided(36500 * c + 1460 * b + t - e, 365, 100 * c + 4 * b + j, t - e - 365 * j);
  }

  lemma {:induction false} YearStartBlocks(c: int, b: int, j: int)
    requires 0 <= c <= 3 && 0 <= b <= 24 && 0 <= j <= 3
    ensures YearStart(100 * c + 4 * b + j) == 36524 * c + 1461 * b + 365 * j
  {
    var y := 100 * c + 4 * b + j;
    Divided(y, 4, 25 * c + b, j);
    Divided(y, 100, c, 4 * b + j);
    Divided(y, 400, 0, y);
  }

  /** The year of the era is the one whose first day is at or before the day, and the next is after it. */
  lemma {:induction false} YearOfEraIs(doe: int)
    requires 0 <= doe < 146097
    ensures 0 <= YearOfEra(doe) < 400
    ensures YearStart(YearOfEra(doe)) <= doe < YearStart(YearOfEra(doe) + 1)
  {
    if doe == 146096 {
      assert YearOfEra(146096) == 399 && YearStart(399) == 145731 && YearStart(400) == 146097;
      return;
    }
    var c := doe / 36524;
    var r := doe - 36524 * c;
    var b := r / 1461;
    var t := r - 1461 * b;
    var j := if t >= 1095 then 3 else t / 365;
    YearOfEraBlocks(doe, c, b, t);
    YearStartBlocks(c, b, j);
    YearLength(100 * c + 4 * b + j);
    hide YearOfEra, YearStart;
    if j == 3 {
      LastOfBlock(c, b);
    }
  }

  lemma {:induction false} LastOfBlock(c: int, b: int)
    requires 0 <= c <= 3 && 0 <= b <= 24
    ensures Leap(100 * c + 4 * b + 4) <==> b < 24 || c == 3
  {
  }

  /** Months of a March year start at these days. */
  lemma {:induction false} MonthsTable()
    ensures MonthStart(0) == 0 && MonthStart(1) == 31 && MonthStart(2) == 61 && MonthStart(3) == 92
    ensures MonthStart(4) == 122 && MonthStart(5) == 153 && MonthStart(6) == 184 && MonthStart(7) == 214
    ensures MonthStart(8) == 245 && MonthStart(9) == 275 && MonthStart(10) == 306 && MonthStart(11) == 337
  {
  }

  lemma {:induction false} MonthOfDay(doy: int)
    requires 0 <= doy <= 365
    ensures var mp := (5 * doy + 2) / 153;
      0 <= mp <= 11 && MonthStart(mp) <= doy && (mp < 11 ==> doy < MonthStart(mp + 1))
  {
  }

  lemma {:induction false} Era(y: int, n: int)
    requires 0 <= n < 400
    ensures YearStart(400 * y + n) == 146097 * y + YearStart(n) && n / 400 == 0
  {
    assert (400 * y + n) / 4 == 100 * y + n / 4;
    assert (400 * y + n) / 100 == 4 * y + n / 100;
    assert (400 * y + n) / 400 == y;
  }

  lemma {:induction false} FloorByTrunc(z: int, n: int)
    requires n > 0
    ensures Trunc(if z >= 0 then z else z - (n - 1), n) == z / n
  {
    if z < 0 {
      var q := (n - 1 - z) / n;
      var r := z / n;
      assert q * n <= n - 1 - z < q * n + n;
      assert r * n <= z < r * n + n;
      Between(-q, r + 1, n) by { assert -q * n < (r + 1) * n; }
      Between(r, 1 - q, n) by { assert r * n < (1 - q) * n; }
    }
  }

  // ------------------------------------------------------------ both ways

  function MarchYear(d: Date): int {
    if d.month <= 2 then d.year - 1 else d.year
  }

  function MarchMonth(d: Date): int {
    (d.month + 9) % 12
  }

  /** The day of its March year, from 0. */
  function MarchDay(d: Date): int {
    MonthStart(MarchMonth(d)) + d.day - 1
  }

  lemma {:induction false} DaysAre(d: Date)
    ensures DaysFromCivil(d) == YearStart(MarchYear(d)) + MarchDay(d) - 719468
  {
    var y := MarchYear(d);
    FloorByTrunc(y, 400);
    var era := y / 400;
    Era(era, y - era * 400);
    hide Trunc;
  }

  /** Where a month ends: before the next one starts, or with the year. */
  lemma {:induction false} MarchDayInside(d: Date)
    requires ValidDate(d)
    ensures var mp, doy := MarchMonth(d), MarchDay(d);
      0 <= mp <= 11 && MonthStart(mp) <= doy && (mp < 11 ==> doy < MonthStart(mp + 1))
      && 0 <= doy < YearStart(MarchYear(d) + 1) - YearStart(MarchYear(d)) && doy <= 365
  {
    MonthsTable();
    YearLength(MarchYear(d));
    hide MonthStart, YearStart, Leap;
  }

  lemma {:induction false} EraOfDay(s: int) returns (era: int, yoe: int)
    ensures 0 <= yoe < 400 && yoe == YearOfEra(s - era * 146097)
      && era == Trunc(if s >= 0 then s else s - 146096, 146097)
    ensures YearStart(400 * era + yoe) <= s < YearStart(400 * era + yoe + 1)
    ensures YearStart(400 * era + yoe) == 146097 * era + (365 * yoe + yoe / 4 - yoe / 100)
  {
    era := s / 146097;
    var doe := s - era * 146097;
    FloorByTrunc(s, 146097);
    YearOfEraIs(doe);
    yoe := YearOfEra(doe);
    Era(era, yoe);
    EraNext(era, yoe);
    assert YearStart(yoe) == 365 * yoe + yoe / 4 - yoe / 100 by { assert yoe / 400 == 0; }
    hide YearOfEra, YearStart, Trunc;
  }

  lemma {:induction false} CivilShape(z: int, y: int, doy: int)
    requires YearStart(y) <= z + 719468 < YearStart(y + 1) && doy == z + 719468 - YearStart(y)
    ensures CivilFromDays(z) == FromMarch(y, doy)
  {
    hide YearOfEra, YearStart, Trunc, FromMarch;
    var s := z + 719468;
    var era, yoe := EraOfDay(s);
    SameYear(400 * era + yoe, y, s);
  }

  lemma {:induction false} EraNext(era: int, yoe: int)
    requires 0 <= yoe < 400
    ensures YearStart(400 * era + yoe + 1) == 146097 * era + YearStart(yoe + 1)
  {
    if yoe < 399 {
      Era(era, yoe + 1);
    } else {
      Era(era + 1, 0);
      assert YearStart(400) == 146097 && YearStart(0) == 0;
      assert 400 * era + yoe + 1 == 400 * (era + 1) + 0;
    }
  }

  lemma {:induction false} SameYear(a: int, b: int, s: int)
    requires YearStart(a) <= s < YearStart(a + 1) && YearStart(b) <= s < YearStart(b + 1)
    ensures a == b
  {
    hide YearStart;
    if a < b {
      YearsOrdered(a, b);
    } else if b < a {
      YearsOrdered(b, a);
    }
  }

  lemma {:induction false} FromMarchIs(y: int, doy: int)
    requires 0 <= doy < YearStart(y + 1) - YearStart(y)
    ensures var d := FromMarch(y, doy); ValidDate(d) && MarchYear(d) == y && MarchDay(d) == doy
  {
    YearLength(y);
    hide YearStart, Leap;
    MonthOfDay(doy);
    MonthsTable();
  }

  lemma {:induction false} FromMarchBack(d: Date)
    requires ValidDate(d)
    ensures FromMarch(MarchYear(d), MarchDay(d)) == d
    ensures 0 <= MarchDay(d) < YearStart(MarchYear(d) + 1) - YearStart(MarchYear(d))
  {
    hide YearStart, ValidDate, MonthStart, MarchDay, MarchMonth;
    MarchDayInside(d);
    SameMonth(MarchDay(d), MarchMonth(d));
    MarchParts(d);
  }

  lemma {:induction false} MarchParts(d: Date)
    requires ValidDate(d)
    ensures var mp := MarchMonth(d);
      d.month == (if mp < 10 then mp + 3 else mp - 9) && d.day == MarchDay(d) - MonthStart(mp) + 1
  {
    hide MonthStart, DaysIn;
  }

  /** Every day is a valid date, and going back gives the same day. */
  lemma {:induction false} DaysOfCivil(z: int)
    ensures ValidDate(CivilFromDays(z)) && DaysFromCivil(CivilFromDays(z)) == z
  {
    hide CivilFromDays, DaysFromCivil, YearStart, YearOfEra, Trunc, FromMarch, MarchDay, ValidDate, MarchYear;
    var era, yoe := EraOfDay(z + 719468);
    var y := 400 * era + yoe;
    var doy := z + 719468 - YearStart(y);
    CivilShape(z, y, doy);
    FromMarchIs(y, doy);
    DaysAre(CivilFromDays(z));
  }

  /** Every valid date comes back from its day. */
  lemma {:induction false} CivilOfDays(d: Date)
    requires ValidDate(d)
    ensures CivilFromDays(DaysFromCivil(d)) == d
  {
    hide CivilFromDays, DaysFromCivil, YearStart, FromMarch, MarchDay, ValidDate, MarchYear;
    DaysAre(d);
    FromMarchBack(d);
    CivilShape(DaysFromCivil(d), MarchYear(d), MarchDay(d));
  }

  lemma {:induction false} SameMonth(doy: int, mp: int)
    requires 0 <= doy <= 365 && 0 <= mp <= 11 && MonthStart(mp) <= doy && (mp < 11 ==> doy < MonthStart(mp + 1))
    ensures (5 * doy + 2) / 153 == mp
  {
  }

  // ------------------------------------------------------------ order

  predicate Before(a: Date, b: Date) {
    a.year < b.year || (a.year == b.year && (a.month < b.month || (a.month == b.month && a.day < b.day)))
  }

  lemma {:induction false} MonthsOrdered(a: int, b: int)
    requires 0 <= a < b <= 11
    ensures MonthStart(a + 1) <= MonthStart(b)
  {
  }

  lemma {:induction false} MarchOrder(a: Date, b: Date)
    requires ValidDate(a) && ValidDate(b) && Before(a, b)
    ensures MarchYear(a) < MarchYear(b)
      || (MarchYear(a) == MarchYear(b)
          && (MarchMonth(a) < MarchMonth(b) || (MarchMonth(a) == MarchMonth(b) && a.day < b.day)))
  {
    hide DaysIn;
  }

  /** Earlier dates are earlier days. */
  lemma {:induction false} DaysOrdered(a: Date, b: Date)
    requires ValidDate(a) && ValidDate(b) && Before(a, b)
    ensures DaysFromCivil(a) < DaysFromCivil(b)
  {
    hide DaysFromCivil, YearStart, MonthStart, ValidDate, MarchYear, MarchMonth, Before;
    DaysAre(a);
    DaysAre(b);
    MarchDayInside(a);
    MarchDayInside(b);
    MarchOrder(a, b);
    if MarchYear(a) < MarchYear(b) {
      YearsOrdered(MarchYear(a), MarchYear(b));
    } else if MarchMonth(a) < MarchMonth(b) {
      MonthsOrdered(MarchMonth(a), MarchMonth(b));
    }
  }

  /** Dates and days are in the same order. */
  lemma {:induction false} OrderKept(a: int, b: int)
    ensures Before(CivilFromDays(a), CivilFromDays(b)) <==> a < b
  {
    DaysOfCivil(a);
    DaysOfCivil(b);
    var x, y := CivilFromDays(a), CivilFromDays(b);
    hide CivilFromDays, DaysFromCivil, ValidDate;
    if Before(x, y) {
      DaysOrdered(x, y);
    } else if Before(y, x) {
      DaysOrdered(y, x);
    }
  }

  // ------------------------------------------------------------ the time of day

  datatype DateTime = DateTime(date: Date, hour: int, minute: int, second: int, millis: int)

  /** The calendar of an instant, already moved to the wanted offset. */
  function DateTimeFromMs(ms: int): DateTime {
    var rem := ms % 86400000;
    DateTime(CivilFromDays(ms / 86400000), rem / 3600000, rem / 60000 % 60, rem / 1000 % 60, rem % 1000)
  }

  /** The parts are in their ranges, and tell the instant to the millisecond, before 1970 as after. */
  lemma {:induction false} DateTimeTells(ms: int)
    ensures var t := DateTimeFromMs(ms);
      ValidDate(t.date) && 0 <= t.hour < 24 && 0 <= t.minute < 60 && 0 <= t.second < 60 && 0 <= t.millis < 1000
      && ms == DaysFromCivil(t.date) * 86400000 + t.hour * 3600000 + t.minute * 60000 + t.second * 1000 + t.millis
  {
    DaysOfCivil(ms / 86400000);
    hide CivilFromDays, DaysFromCivil, ValidDate;
    PartsOfDay(ms % 86400000);
  }

  lemma {:induction false} PartsOfDay(rem: int)
    requires 0 <= rem < 86400000
    ensures 0 <= rem / 3600000 < 24
    ensures rem == rem / 3600000 * 3600000 + rem / 60000 % 60 * 60000 + rem / 1000 % 60 * 1000 + rem % 1000
  {
    var s, m, h := rem / 1000, rem / 60000, rem / 3600000;
    Divided(s, 60, m, s - 60 * m);
    Divided(m, 60, h, m - 60 * h);
  }
}
