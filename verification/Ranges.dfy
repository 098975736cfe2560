/** Stretches of recorded time: joining files that touch, and cutting to a window. */
module Ranges {
  datatype Range = Range(start: int, end: int)

  function Max(a: int, b: int): int {
    if a >= b then a else b
  }

  function Min(a: int, b: int): int {
    if a <= b then a else b
  }

  /** The milliseconds of a range. */
  function Interval(start: int, end: int): (ms: set<int>)
    ensures forall t :: t in ms <==> start <= t < end
    decreases Max(0, end - start)
  {
    if start >= end then {} else Interval(start, end - 1) + {end - 1}
  }

  lemma {:induction false} IntervalSize(start: int, end: int)
    ensures |Interval(start, end)| == Max(0, end - start)
    decreases Max(0, end - start)
  {
    if start < end {
      IntervalSize(start, end - 1);
    }
  }

  /** Every millisecond that some range covers. */
  function Covered(rs: seq<Range>): set<int> {
    if rs == [] then {} else Covered(rs[..|rs| - 1]) + Interval(rs[|rs| - 1].start, rs[|rs| - 1].end)
  }

  lemma {:induction false} CoveredAppend(rs: seq<Range>, r: Range)
    ensures Covered(rs + [r]) == Covered(rs) + Interval(r.start, r.end)
  {
    assert (rs + [r])[..|rs|] == rs;
  }

  // ------------------------------------------------------------ joining

  /** One more file joins the last range when it starts within the gap of its end. */
  function Joined(out: seq<Range>, f: Range, gap: int): seq<Range> {
    var n := |out| - 1;
    if f.end <= f.start then out
    else if out != [] && f.start - out[n].end <= gap then out[..n] + [Range(out[n].start, Max(out[n].end, f.end))]
    else out + [f]
  }

  function Merged(files: seq<Range>, gap: int): seq<Range> {
    if files == [] then [] else Joined(Merged(files[..|files| - 1], gap), files[|files| - 1], gap)
  }

  lemma {:induction false} MergedNext(files: seq<Range>, n: nat, gap: int)
    requires n < |files|
    ensures Merged(files[..n + 1], gap) == Joined(Merged(files[..n], gap), files[n], gap)
    ensures Covered(files[..n + 1]) == Covered(files[..n]) + Interval(files[n].start, files[n].end)
  {
    assert files[..n + 1][..n] == files[..n];
    hide Joined, Interval;
  }

  method MergeRanges(files: seq<Range>, gap: int) returns (out: seq<Range>)
    ensures out == Merged(files, gap)
  {
    out := [];
    for i := 0 to |files|
      invariant out == Merged(files[..i], gap)
    {
      MergedNext(files, i, gap);
      hide Merged;
      var f := files[i];
      if f.end <= f.start {
        continue;
      }
      var n := |out| - 1;
      if out != [] && f.start - out[n].end <= gap {
        var last := out[n];
        out := out[..n] + [last.(end := if last.end >= f.end then last.end else f.end)];
        continue;
      }
      out := out + [f];
    }
    assert files[..|files|] == files;
  }

  predicate SortedByStart(files: seq<Range>) {
    forall i, j :: 0 <= i < j < |files| ==> files[i].start <= files[j].start
  }

  /** Real ranges, in order, each more than the gap after the one before. */
  predicate Apart(rs: seq<Range>, gap: int) {
    (forall k :: 0 <= k < |rs| ==> rs[k].start < rs[k].end)
    && forall j, k :: 0 <= j < k < |rs| ==> rs[k].start - rs[j].end > gap
  }

  predicate StartsBy(rs: seq<Range>, t: int) {
    forall k :: 0 <= k < |rs| ==> rs[k].start <= t
  }

  lemma {:induction false} JoinedApart(out: seq<Range>, f: Range, gap: int)
    requires Apart(out, gap) && StartsBy(out, f.start) && gap >= 0
    ensures Apart(Joined(out, f, gap), gap) && StartsBy(Joined(out, f, gap), f.start)
  {
    var n := |out| - 1;
    if f.end > f.start && out != [] && f.start - out[n].end > gap {
      forall j | 0 <= j <= n
        ensures f.start - out[j].end > gap
      {
        assert j < n ==> out[n].start - out[j].end > gap;
      }
    }
  }

  /** Joined files are sorted ranges more than the gap apart, and cover all that the files cover. */
  lemma {:induction false} MergedIs(files: seq<Range>, gap: int)
    requires SortedByStart(files) && gap >= 0
    ensures Apart(Merged(files, gap), gap) && Covered(files) <= Covered(Merged(files, gap))
    ensures gap == 0 ==> Covered(files) == Covered(Merged(files, gap))
    ensures files != [] ==> StartsBy(Merged(files, gap), files[|files| - 1].start)
    decreases |files|
  {
    if files != [] {
      var n := |files| - 1;
      MergedIs(files[..n], gap);
      var out, f := Merged(files[..n], gap), files[n];
      assert StartsBy(out, f.start);
      JoinedApart(out, f, gap);
      JoinedCovers(out, f, gap);
      hide Merged, Joined, Apart;
    }
  }

  lemma {:induction false} JoinedCovers(out: seq<Range>, f: Range, gap: int)
    requires StartsBy(out, f.start) && gap >= 0
    ensures Covered(out) + Interval(f.start, f.end) <= Covered(Joined(out, f, gap))
    ensures gap == 0 ==> Covered(out) + Interval(f.start, f.end) == Covered(Joined(out, f, gap))
  {
    var n := |out| - 1;
    CoveredAppend(out, f);
    if f.end > f.start && out != [] && f.start - out[n].end <= gap {
      var r := Range(out[n].start, Max(out[n].end, f.end));
      CoveredAppend(out[..n], r);
      assert out[..n] + [out[n]] == out;
    }
    hide Covered;
  }

  /**
   What joining adds lies in holes no longer than the gap: between the end of something covered and the start
   of a file.
   */
  lemma {:induction false} MergedAddsOnlyGaps(files: seq<Range>, gap: int, t: int) returns (before: int, after: int)
    requires t in Covered(Merged(files, gap)) && t !in Covered(files)
    ensures before <= t < after && after - before <= gap && before - 1 in Covered(files) && after in Covered(files)
    decreases |files|
  {
    NothingMerged(files, gap);
    hide Merged, Joined, Covered;
    var n := |files| - 1;
    var out, f := Merged(files[..n], gap), files[n];
    MergedNext(files, n, gap);
    assert files[..n + 1] == files;
    LastCovered(files[..n], gap);
    var m := |out| - 1;
    if t in Covered(out) {
      before, after := MergedAddsOnlyGaps(files[..n], gap, t);
    } else {
      JoinedHole(out, f, gap, t);
      before, after := out[m].end, f.start;
    }
  }

  lemma {:induction false} NothingMerged(files: seq<Range>, gap: int)
    ensures files == [] ==> Covered(Merged(files, gap)) == {}
  {
  }

  lemma {:induction false} JoinedHole(out: seq<Range>, f: Range, gap: int, t: int)
    requires t in Covered(Joined(out, f, gap)) && t !in Covered(out) && t !in Interval(f.start, f.end)
    ensures out != [] && f.start < f.end && out[|out| - 1].end <= t < f.start && f.start - out[|out| - 1].end <= gap
  {
    var n := |out| - 1;
    CoveredAppend(out, f);
    if f.end > f.start && out != [] && f.start - out[n].end <= gap {
      CoveredAppend(out[..n], Range(out[n].start, Max(out[n].end, f.end)));
      assert out[..n] + [out[n]] == out;
    }
    hide Covered;
  }

  /** The last millisecond of the last joined range is a file's. */
  lemma {:induction false} LastCovered(files: seq<Range>, gap: int)
    ensures var out := Merged(files, gap); out != [] ==> out[|out| - 1].end - 1 in Covered(files)
    decreases |files|
  {
    if files != [] {
      LastCovered(files[..|files| - 1], gap);
    }
  }

  // ------------------------------------------------------------ cutting

  function Clipped(r: Range, from: int, to: int): Range {
    Range(Max(r.start, from), Min(r.end, to))
  }

  /** Cut to a window, less what becomes empty. */
  function Clip(rs: seq<Range>, from: int, to: int): seq<Range> {
    if rs == [] then []
    else
      var c := Clipped(rs[|rs| - 1], from, to);
      Clip(rs[..|rs| - 1], from, to) + (if c.end > c.start then [c] else [])
  }

  /** Milliseconds in all the ranges. */
  function Total(rs: seq<Range>): int {
    if rs == [] then 0 else Total(rs[..|rs| - 1]) + (rs[|rs| - 1].end - rs[|rs| - 1].start)
  }

  lemma {:induction false} TotalAppend(rs: seq<Range>, r: Range)
    ensures Total(rs + [r]) == Total(rs) + (r.end - r.start)
  {
    assert (rs + [r])[..|rs|] == rs;
  }

  lemma {:induction false} ClipTotal(rs: seq<Range>, from: int, to: int)
    requires rs != []
    ensures var n := |rs| - 1;
      Total(Clip(rs, from, to)) == Total(Clip(rs[..n], from, to)) + Max(0, Min(rs[n].end, to) - Max(rs[n].start, from))
  {
    var n := |rs| - 1;
    TotalAppend(Clip(rs[..n], from, to), Clipped(rs[n], from, to));
    hide Total;
    assert Clip(rs[..n], from, to) + [] == Clip(rs[..n], from, to);
  }

  /** Cutting at an instant between loses and adds nothing. */
  lemma {:induction false} ClipSplits(rs: seq<Range>, a: int, b: int, c: int)
    requires a <= b <= c && forall k :: 0 <= k < |rs| ==> rs[k].start <= rs[k].end
    ensures Total(Clip(rs, a, b)) + Total(Clip(rs, b, c)) == Total(Clip(rs, a, c))
    decreases |rs|
  {
    if rs != [] {
      ClipSplits(rs[..|rs| - 1], a, b, c);
      ClipTotal(rs, a, b);
      ClipTotal(rs, b, c);
      ClipTotal(rs, a, c);
      hide Clip, Total;
    }
  }

  lemma {:induction false} ClipWhole(rs: seq<Range>, from: int, to: int)
    requires forall k :: 0 <= k < |rs| ==> from <= rs[k].start < rs[k].end <= to
    ensures Clip(rs, from, to) == rs
    decreases |rs|
  {
    if rs != [] {
      var n := |rs| - 1;
      assert Clipped(rs[n], from, to) == rs[n] && rs[n].end > rs[n].start;
      assert rs == rs[..n] + [rs[n]];
      hide Clipped, Max, Min;
      ClipWhole(rs[..n], from, to);
    }
  }

  /** Ranges apart from each other add up to the size of what they cover. */
  lemma {:induction false} TotalIsSize(rs: seq<Range>)
    requires Apart(rs, 0)
    ensures Total(rs) == |Covered(rs)|
    ensures rs != [] ==> forall t :: t in Covered(rs) ==> t < rs[|rs| - 1].end
    decreases |rs|
  {
    if rs != [] {
      var n := |rs| - 1;
      TotalIsSize(rs[..n]);
      IntervalSize(rs[n].start, rs[n].end);
      assert Covered(rs[..n]) !! Interval(rs[n].start, rs[n].end);
    }
  }
}
