/** What was recorded, day by day of the local calendar, for a fixed offset from UTC. */
module RecordedDays {
  import opened Bytes
  import opened Calendar
  import opened DayText
  import R = Ranges

  const DAY_MS: int := 86400000

  /** The local day of an instant, counted from 1970-01-01. */
  function DayOf(utc: int, offset: int): int {
    (utc + offset) / 86400000
  }

  function DateText(day: int): string {
    Text(CivilFromDays(day))
  }

  function LocalDayOf(utc: int, offset: int): string {
    DateText(DayOf(utc, offset))
  }

  function StartOf(day: int, offset: int): int {
    day * 86400000 - offset
  }

  function LocalDayStart(text: string, offset: int): Option<int> {
    match Parse(text) case None => None case Some(d) => Some(StartOf(DaysFromCivil(d), offset))
  }

  /** The day twenty-six hours after the start of a day. */
  function NextDay(text: string, offset: int): string {
    LocalDayOf((match LocalDayStart(text, offset) case None => 0 case Some(t) => t) + 26 * 3600000, offset)
  }

  /** Local days tile time: each instant is in exactly one. */
  lemma {:induction false} DaysTile(utc: int, day: int, offset: int)
    ensures StartOf(day, offset) <= utc < StartOf(day + 1, offset) <==> DayOf(utc, offset) == day
  {
  }

  /** The text of a day is read back as its start, from year 0 on. */
  predicate Readable(day: int) {
    0 <= CivilFromDays(day).year < 0x8000_0000
  }

  lemma {:induction false} StartRead(day: int, offset: int)
    ensures LocalDayStart(DateText(day), offset) == if Readable(day) then Some(StartOf(day, offset)) else None
  {
    DaysOfCivil(day);
    hide CivilFromDays, DaysFromCivil, Parse, Text, ValidDate;
    if Readable(day) {
      ParseText(CivilFromDays(day));
    } else {
      ParseTextFails(CivilFromDays(day));
    }
  }

  lemma {:induction false} NextDayIs(day: int, offset: int)
    requires Readable(day)
    ensures NextDay(DateText(day), offset) == DateText(day + 1)
  {
    StartRead(day, offset);
    DaysTile(StartOf(day, offset) + 26 * 3600000, day + 1, offset);
    hide DateText, LocalDayStart, Readable;
  }

  /** Past here no day can be read: the loop over days ends. */
  const LAST_DAY: int := 365 * 0x8000_0000 + 0x8000_0000

  lemma {:induction false} ReadableEnds(day: int)
    ensures Readable(day) ==> day < LAST_DAY
  {
    var d := CivilFromDays(day);
    DaysOfCivil(day);
    hide CivilFromDays, DaysFromCivil;
    if Readable(day) {
      DaysAre(d);
      MarchDayInside(d);
      YearStartBound(MarchYear(d));
      hide YearStart, MarchDay, ValidDate;
    }
  }

  lemma {:induction false} YearStartBound(y: int)
    requires -1 <= y < 0x8000_0000
    ensures YearStart(y) <= 365 * y + y / 4 + 1 && YearStart(y) + 366 - 719468 < LAST_DAY
  {
  }

  // ------------------------------------------------------------ the report

  datatype Day = Day(text: string, start: int, end: int, recorded: int, segments: nat)

  /** The line of a day, when anything was recorded in it. */
  function Line(exact: seq<R.Range>, glued: seq<R.Range>, day: int, offset: int): seq<Day> {
    var a, b := StartOf(day, offset), StartOf(day + 1, offset);
    var de := R.Clip(exact, a, b);
    if de == [] then [] else [Day(DateText(day), de[0].start, de[|de| - 1].end, R.Total(de), |R.Clip(glued, a, b)|)]
  }

  /** The lines from `day` on, while its text is at most `last` as strings compare and can be read back. */
  function Report(exact: seq<R.Range>, glued: seq<R.Range>, day: int, last: string, offset: int): seq<Day>
    decreases if day < LAST_DAY then LAST_DAY - day else 0
  {
    ReadableEnds(day);
    if !TextAtMost(DateText(day), last) || !Readable(day) then []
    else Line(exact, glued, day, offset) + Report(exact, glued, day + 1, last, offset)
  }

  lemma {:induction false} ReportStep(exact: seq<R.Range>, glued: seq<R.Range>, day: int, last: string, offset: int)
    ensures Report(exact, glued, day, last, offset) ==
      if !TextAtMost(DateText(day), last) || !Readable(day) then []
      else Line(exact, glued, day, offset) + Report(exact, glued, day + 1, last, offset)
  {
    hide TextAtMost, DateText, Readable, Line;
  }

  /** Where a day starts and ends, read from its text and from the text of the next. */
  lemma {:induction false} BoundsRead(day: int, offset: int)
    ensures LocalDayStart(DateText(day), offset) == if Readable(day) then Some(StartOf(day, offset)) else None
    ensures Readable(day) ==> NextDay(DateText(day), offset) == DateText(day + 1) && day < LAST_DAY
    ensures LocalDayStart(DateText(day + 1), offset).Some? ==>
      LocalDayStart(DateText(day + 1), offset).value == StartOf(day, offset) + DAY_MS
    ensures StartOf(day + 1, offset) == StartOf(day, offset) + DAY_MS
  {
    hide Readable, DateText, NextDay, LocalDayStart;
    StartRead(day, offset);
    StartRead(day + 1, offset);
    ReadableEnds(day);
    if Readable(day) {
      NextDayIs(day, offset);
    }
  }

  method DayLine(text: string, a: int, b: int, exact: seq<R.Range>, glued: seq<R.Range>, ghost day: int,
      ghost offset: int)
    returns (line: seq<Day>)
    requires text == DateText(day) && a == StartOf(day, offset) && b == StartOf(day + 1, offset)
    ensures line == Line(exact, glued, day, offset)
  {
    hide DateText;
    var de := R.Clip(exact, a, b);
    line := if de == [] then [] else [Day(text, de[0].start, de[|de| - 1].end, R.Total(de), |R.Clip(glued, a, b)|)];
  }

  method Days(files: seq<R.Range>, gap: int, offset: int) returns (days: seq<Day>)
    ensures var exact, glued := R.Merged(files, 0), R.Merged(files, if gap >= 0 then gap else 0);
      days == if exact == [] then []
              else Report(exact, glued, DayOf(exact[0].start, offset), LocalDayOf(exact[|exact| - 1].end, offset),
                offset)
  {
    hide Readable, DateText, TextAtMost, LocalDayStart, NextDay, Report, Line, StartOf, DayOf;
    var exact := R.MergeRanges(files, 0);
    var glued := R.MergeRanges(files, if gap >= 0 then gap else 0);
    days := [];
    if exact == [] {
      return;
    }
    ghost var k := DayOf(exact[0].start, offset);
    var day := LocalDayOf(exact[0].start, offset);
    var lastDay := LocalDayOf(exact[|exact| - 1].end, offset);
    ghost var all := Report(exact, glued, k, lastDay, offset);
    while TextAtMost(day, lastDay)
      invariant day == DateText(k) && all == days + Report(exact, glued, k, lastDay, offset)
      decreases if k < LAST_DAY then LAST_DAY - k else 0
    {
      BoundsRead(k, offset);
      ReportStep(exact, glued, k, lastDay, offset);
      var start := LocalDayStart(day, offset);
      if start.None? {
        break;
      }
      var a, next := start.value, NextDay(day, offset);
      var b := match LocalDayStart(next, offset) case Some(t) => t case None => a + DAY_MS;
      var line := DayLine(day, a, b, exact, glued, k, offset);
      ConcatAssociative(days, line, Report(exact, glued, k + 1, lastDay, offset));
      days := days + line;
      day := next;
      k := k + 1;
    }
    ReportStep(exact, glued, k, lastDay, offset);
    BoundsRead(k, offset);
  }

  // ------------------------------------------------------------ conservation

  function Recorded(days: seq<Day>): int {
    if days == [] then 0 else Recorded(days[..|days| - 1]) + days[|days| - 1].recorded
  }

  lemma {:induction false} RecordedJoin(a: seq<Day>, b: seq<Day>)
    ensures Recorded(a + b) == Recorded(a) + Recorded(b)
    decreases |b|
  {
    if b == [] {
      assert a + b == a;
    } else {
      assert (a + b)[..|a + b| - 1] == a + b[..|b| - 1];
      RecordedJoin(a, b[..|b| - 1]);
    }
  }

  lemma {:induction false} LineRecords(exact: seq<R.Range>, glued: seq<R.Range>, day: int, offset: int)
    ensures Recorded(Line(exact, glued, day, offset))
      == R.Total(R.Clip(exact, StartOf(day, offset), StartOf(day + 1, offset)))
  {
    hide DateText, R.Clip;
    var line := Line(exact, glued, day, offset);
    if line != [] {
      assert line[..0] == [];
      assert Recorded(line[..0]) == 0;
    }
  }

  lemma {:induction false} ClipNothing(rs: seq<R.Range>, at: int)
    ensures R.Clip(rs, at, at) == []
    decreases |rs|
  {
    if rs != [] {
      ClipNothing(rs[..|rs| - 1], at);
    }
  }

  /** Later days are not in earlier years. */
  lemma {:induction false} YearsRise(a: int, b: int)
    requires a <= b
    ensures CivilFromDays(a).year <= CivilFromDays(b).year
  {
    hide CivilFromDays;
    OrderKept(b, a);
  }

  /**
   The loop over days passes a day on the way to the last: it can be read, and its year compares with the last
   one's.
   */
  predicate Passed(day: int, last: int) {
    Readable(day) && CivilFromDays(last).year >= 0 && Aligned(CivilFromDays(day).year, CivilFromDays(last).year)
  }

  /** The first day from `day` on that is not passed, at the latest the one after the last. */
  function Stop(day: int, last: int): int
    decreases last + 1 - day
  {
    if day > last || !Passed(day, last) then day else Stop(day + 1, last)
  }

  /** Up to the last, the text of a day is at most the last one's exactly when the day is passed. */
  lemma {:induction false} TextIsDayOrder(day: int, last: int)
    requires day <= last
    ensures Readable(day) && TextAtMost(DateText(day), DateText(last)) <==> Passed(day, last)
  {
    hide CivilFromDays, TextAtMost, Text, Before, ValidDate, Aligned;
    if Readable(day) {
      YearsRise(day, last);
      DaysOfCivil(day);
      DaysOfCivil(last);
      TextOrderExactly(CivilFromDays(day), CivilFromDays(last));
      OrderKept(last, day);
    }
  }

  ghost predicate EndsBy(rs: seq<R.Range>, t: int) {
    forall k :: 0 <= k < |rs| ==> rs[k].end <= t
  }

  lemma {:induction false} ClipBeyond(rs: seq<R.Range>, from: int, to: int)
    requires EndsBy(rs, from)
    ensures R.Clip(rs, from, to) == []
    decreases |rs|
  {
    if rs != [] {
      ClipBeyond(rs[..|rs| - 1], from, to);
    }
  }

  /** Where the loop goes on past the last day, it adds nothing. */
  lemma {:induction false} NothingLater(exact: seq<R.Range>, glued: seq<R.Range>, day: int, last: string, offset: int)
    requires EndsBy(exact, StartOf(day, offset))
    ensures Recorded(Report(exact, glued, day, last, offset)) == 0
    decreases if day < LAST_DAY then LAST_DAY - day else 0
  {
    hide TextAtMost, DateText, Report, Readable, Recorded, R.Clip, R.Total;
    ReportStep(exact, glued, day, last, offset);
    NothingRecorded();
    if TextAtMost(DateText(day), last) && Readable(day) {
      ReadableEnds(day);
      NothingLater(exact, glued, day + 1, last, offset);
      ClipBeyond(exact, StartOf(day, offset), StartOf(day + 1, offset));
      RecordedJoin(Line(exact, glued, day, offset), Report(exact, glued, day + 1, last, offset));
    }
  }

  /** The lines of the days add up to what lies between the start of the first and the day the loop stops at. */
  lemma {:induction false} ReportRecords(exact: seq<R.Range>, glued: seq<R.Range>, day: int, last: int, offset: int)
    requires day <= last + 1 && R.Apart(exact, 0) && EndsBy(exact, StartOf(last + 1, offset))
    ensures day <= Stop(day, last) <= last + 1
    ensures Recorded(Report(exact, glued, day, DateText(last), offset))
      == R.Total(R.Clip(exact, StartOf(day, offset), StartOf(Stop(day, last), offset)))
    decreases last + 1 - day
  {
    hide CivilFromDays, TextAtMost, DateText, Report, Line, Readable, Recorded, Passed, R.Clip, R.Total, EndsBy;
    ReportStep(exact, glued, day, DateText(last), offset);
    NothingRecorded();
    if day > last {
      NothingLater(exact, glued, day, DateText(last), offset);
      ClipNothing(exact, StartOf(day, offset));
    } else {
      TextIsDayOrder(day, last);
      if !Passed(day, last) {
        ClipNothing(exact, StartOf(day, offset));
      } else {
        ReportRecords(exact, glued, day + 1, last, offset);
        RecordedJoin(Line(exact, glued, day, offset), Report(exact, glued, day + 1, DateText(last), offset));
        LineRecords(exact, glued, day, offset);
        R.ClipSplits(exact, StartOf(day, offset), StartOf(day + 1, offset), StartOf(Stop(day, last), offset));
      }
    }
  }

  lemma {:induction false} NothingRecorded()
    ensures Recorded([]) == 0 && R.Total([]) == 0
  {
  }

  /** Every day from the first to `day` is passed. */
  ghost predicate Reached(first: int, last: int, day: int) {
    forall k :: first <= k <= day ==> Passed(k, last)
  }

  lemma {:induction false} StopIs(first: int, last: int, day: int)
    requires first <= last + 1 && first <= day <= last
    ensures day < Stop(first, last) <==> Reached(first, last, day)
    decreases last + 1 - first
  {
    hide Passed;
    if Passed(first, last) && first < day {
      StopIs(first + 1, last, day);
    } else if Passed(first, last) {
      StopBounds(first + 1, last);
    }
  }

  lemma {:induction false} StopBounds(day: int, last: int)
    ensures day <= Stop(day, last) && (day <= last + 1 ==> Stop(day, last) <= last + 1)
    decreases last + 1 - day
  {
    hide Passed;
    if day <= last && Passed(day, last) {
      StopBounds(day + 1, last);
    }
  }

  ghost predicate Misses(times: set<int>, from: int, to: int) {
    forall t :: t in times ==> !(from <= t < to)
  }

  lemma {:induction false} MissesBoth(a: set<int>, b: set<int>, from: int, to: int)
    ensures Misses(a + b, from, to) <==> Misses(a, from, to) && Misses(b, from, to)
  {
    if Misses(a + b, from, to) {
      assert forall t :: t in a ==> t in a + b;
      assert forall t :: t in b ==> t in a + b;
    }
  }

  /** A window holds no time of the ranges exactly when they cover none of its instants. */
  lemma {:induction false} ClipEmpty(rs: seq<R.Range>, from: int, to: int)
    requires forall k :: 0 <= k < |rs| ==> rs[k].start < rs[k].end
    ensures R.Total(R.Clip(rs, from, to)) >= 0
    ensures R.Total(R.Clip(rs, from, to)) == 0 <==> Misses(R.Covered(rs), from, to)
    decreases |rs|
  {
    if rs != [] {
      hide *;
      var n := |rs| - 1;
      ClipEmpty(rs[..n], from, to);
      assert rs[..n] + [rs[n]] == rs;
      R.CoveredAppend(rs[..n], rs[n]);
      MissesBoth(R.Covered(rs[..n]), R.Interval(rs[n].start, rs[n].end), from, to);
      ClipOne(rs[n], from, to);
      ClipLast(rs, from, to);
      R.TotalAppend(R.Clip(rs[..n], from, to), R.Clipped(rs[n], from, to));
    }
  }

  lemma {:induction false} ClipOne(r: R.Range, from: int, to: int)
    requires r.start < r.end
    ensures R.Clipped(r, from, to).end > R.Clipped(r, from, to).start <==> !Misses(R.Interval(r.start, r.end), from, to)
  {
    var c := R.Clipped(r, from, to);
    if c.end > c.start {
      assert c.start in R.Interval(r.start, r.end);
    }
  }

  lemma {:induction false} ClipLast(rs: seq<R.Range>, from: int, to: int)
    requires rs != []
    ensures var n := |rs| - 1;
      var c := R.Clipped(rs[n], from, to);
      R.Clip(rs, from, to) == if c.end > c.start then R.Clip(rs[..n], from, to) + [c] else R.Clip(rs[..n], from, to)
  {
    assert R.Clip(rs[..|rs| - 1], from, to) + [] == R.Clip(rs[..|rs| - 1], from, to);
  }

  /**
   Per-day conservation, exactly, for a fixed offset: the time recorded on all the days adds up to the size of the
   union of the files, every millisecond counted once, if and only if every day with something recorded is
   reached: from the first day to it, years are not before 0 nor past 31 bits, and compare as texts with the last.
   */
  lemma {:induction false} DaysConserveExactly(files: seq<R.Range>, gap: int, offset: int)
    requires R.SortedByStart(files) && R.Merged(files, 0) != []
    ensures var exact, glued := R.Merged(files, 0), R.Merged(files, gap);
      var first, last := DayOf(exact[0].start, offset), DayOf(exact[|exact| - 1].end, offset);
      Recorded(Report(exact, glued, first, DateText(last), offset)) == |R.Covered(files)|
      <==> forall t :: t in R.Covered(files) ==> Reached(first, last, DayOf(t, offset))
  {
    hide Report, DateText, R.Merged, R.Apart, R.Covered, Recorded, DayOf, Reached;
    R.MergedIs(files, 0);
    RangesConserve(R.Merged(files, 0), R.Merged(files, gap), offset);
  }

  lemma {:induction false} RangesConserve(exact: seq<R.Range>, glued: seq<R.Range>, offset: int)
    requires exact != [] && R.Apart(exact, 0)
    ensures var first, last := DayOf(exact[0].start, offset), DayOf(exact[|exact| - 1].end, offset);
      Recorded(Report(exact, glued, first, DateText(last), offset)) == |R.Covered(exact)|
      <==> forall t :: t in R.Covered(exact) ==> Reached(first, last, DayOf(t, offset))
  {
    hide Report, DateText, R.Covered, Recorded, R.Total, R.Clip, StartOf, DayOf, Reached, Stop;
    var first, last := DayOf(exact[0].start, offset), DayOf(exact[|exact| - 1].end, offset);
    ExactInside(exact, offset);
    ReportRecords(exact, glued, first, last, offset);
    var a, b, c := StartOf(first, offset), StartOf(Stop(first, last), offset), StartOf(last + 1, offset);
    DaysRise(first, Stop(first, last), last + 1, offset);
    R.ClipWhole(exact, a, c);
    R.TotalIsSize(exact);
    R.ClipSplits(exact, a, b, c);
    ClipEmpty(exact, b, c);
    forall t | t in R.Covered(exact)
      ensures Reached(first, last, DayOf(t, offset)) <==> !(b <= t < c)
    {
      CoveredInside(exact, a, c, t);
      InstantInDay(t, first, last, Stop(first, last), offset);
      StopIs(first, last, DayOf(t, offset));
    }
  }

  lemma {:induction false} DaysRise(a: int, b: int, c: int, offset: int)
    requires a <= b <= c
    ensures StartOf(a, offset) <= StartOf(b, offset) <= StartOf(c, offset)
  {
  }

  lemma {:induction false} InstantInDay(t: int, first: int, last: int, stop: int, offset: int)
    requires StartOf(first, offset) <= t < StartOf(last + 1, offset)
    ensures first <= DayOf(t, offset) <= last && (t >= StartOf(stop, offset) <==> DayOf(t, offset) >= stop)
  {
  }

  lemma {:induction false} CoveredInside(rs: seq<R.Range>, from: int, to: int, t: int)
    requires t in R.Covered(rs) && forall k :: 0 <= k < |rs| ==> from <= rs[k].start < rs[k].end <= to
    ensures from <= t < to
    decreases |rs|
  {
    if rs != [] && t in R.Covered(rs[..|rs| - 1]) {
      CoveredInside(rs[..|rs| - 1], from, to, t);
    }
  }

  /** From year 0 to 9999 every day is reached, so the days' times add up to the size of the union of the files. */
  lemma {:induction false} DaysConserve(files: seq<R.Range>, gap: int, offset: int)
    requires R.SortedByStart(files) && R.Merged(files, 0) != []
    requires var exact := R.Merged(files, 0);
      0 <= CivilFromDays(DayOf(exact[0].start, offset)).year
        && CivilFromDays(DayOf(exact[|exact| - 1].end, offset)).year <= 9999
    ensures var exact, glued := R.Merged(files, 0), R.Merged(files, gap);
      Recorded(Report(exact, glued, DayOf(exact[0].start, offset), LocalDayOf(exact[|exact| - 1].end, offset), offset))
        == |R.Covered(files)|
  {
    hide CivilFromDays, Report, DateText, R.Merged, R.Apart, R.Covered, Recorded, DayOf, StartOf, Reached;
    R.MergedIs(files, 0);
    var exact := R.Merged(files, 0);
    var first, last := DayOf(exact[0].start, offset), DayOf(exact[|exact| - 1].end, offset);
    DaysConserveExactly(files, gap, offset);
    ExactInside(exact, offset);
    forall t | t in R.Covered(files)
      ensures Reached(first, last, DayOf(t, offset))
    {
      CoveredInside(exact, StartOf(first, offset), StartOf(last + 1, offset), t);
      InstantInDay(t, first, last, first, offset);
      FourDigitsReached(first, last, DayOf(t, offset));
    }
  }

  lemma {:induction false} FourDigitsReached(first: int, last: int, day: int)
    requires day <= last && 0 <= CivilFromDays(first).year && CivilFromDays(last).year <= 9999
    ensures Reached(first, last, day)
  {
    hide CivilFromDays;
    forall k | first <= k <= day
      ensures Passed(k, last)
    {
      YearsRise(first, k);
      YearsRise(k, last);
    }
  }

  lemma {:induction false} ExactInside(exact: seq<R.Range>, offset: int)
    requires exact != [] && R.Apart(exact, 0)
    ensures var first, last := DayOf(exact[0].start, offset), DayOf(exact[|exact| - 1].end, offset);
      first <= last
      && forall k :: 0 <= k < |exact| ==> StartOf(first, offset) <= exact[k].start < exact[k].end <= StartOf(last + 1,
        offset)
  {
    var n := |exact| - 1;
    var first, last := DayOf(exact[0].start, offset), DayOf(exact[n].end, offset);
    DaysTile(exact[0].start, first, offset);
    DaysTile(exact[n].end, last, offset);
    hide DayOf;
    forall k | 0 <= k < |exact|
      ensures StartOf(first, offset) <= exact[k].start < exact[k].end <= StartOf(last + 1, offset)
    {
      assert k > 0 ==> exact[k].start - exact[0].end > 0;
      assert k < n ==> exact[n].start - exact[k].end > 0;
    }
  }
}
