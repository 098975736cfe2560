/**
 Motion by integer arithmetic over a grid of cells: a background that follows the picture slowly, and
 the count of cells that differ from it.
 */
module Motion {
  import opened Bytes

  datatype Image = Image(width: nat, height: nat, pixels: seq<byte>)

  predicate ValidImage(m: Image) {
    m.width > 0 && m.height > 0 && |m.pixels| >= m.width * m.height * 3
  }

  /** The thresholds are fractions of the cells; `delta` is how much a cell must differ to count. */
  datatype Settings = Settings(threshold: real, scene: real, delta: int, width: nat, height: nat, maxGapMs: int)

  /** The cells of a side of the grid at a scale: rounded, and not fewer than the least. */
  function Side(full: nat, least: nat, scale: real): nat {
    var n := if 0.0 < scale < 1.0 then (full as real * scale + 0.5).Floor else full;
    if n < least then least else n
  }

  /** Out-of-range parameters become the defaults; a scale shrinks the grid of 64 by 36. */
  function Sane(threshold: real, scene: real, delta: int, scale: real, maxGapMs: int): (s: Settings)
    ensures 1 <= s.delta <= 255 && 8 <= s.width <= 64 && 5 <= s.height <= 36 && s.threshold > 0.0 && s.maxGapMs > 0
    ensures s.threshold < s.scene || (scene <= s.threshold && s.scene == 0.55)
    ensures 0.125 <= scale < 1.0
      ==> Rounds(s.width as real, 64.0 * scale) && (5.0 <= 36.0 * scale ==> Rounds(s.height as real, 36.0 * scale))
  {
    var t := if threshold <= 0.0 then 0.012 else threshold;
    Settings(t, if scene <= t then 0.55 else scene, if delta <= 0 || delta > 255 then 14 else delta,
             Side(64, 8, scale), Side(36, 5, scale), if maxGapMs <= 0 then 15000 else maxGapMs)
  }

  /** `x` is `y`, rounded. */
  predicate Rounds(x: real, y: real) {
    y - 0.5 <= x <= y + 0.5
  }

  // ------------------------------------------------------------ the background

  function Abs(x: int): nat {
    if x >= 0 then x else -x
  }

  /** A tenth of the distance, truncated toward zero. */
  function Pull(d: int): int {
    Trunc(d * 26, 256)
  }

  /** The background of one cell, in 256ths of a level, after one more frame showing `level`. */
  function Adapted(b: int, level: int): int {
    b + Pull(level * 256 - b)
  }

  /** A shift right by eight. */
  predicate CellMoved(b: int, level: int, delta: int) {
    Abs(level - b / 256) >= delta
  }

  function AdaptAll(bg: seq<int>, cur: seq<int>): (r: seq<int>)
    requires |bg| == |cur|
    ensures |r| == |bg|
  {
    seq(|bg|, i requires 0 <= i < |bg| => Adapted(bg[i], cur[i]))
  }

  function Seeded(cur: seq<int>): (r: seq<int>)
    ensures |r| == |cur|
  {
    seq(|cur|, i requires 0 <= i < |cur| => cur[i] * 256)
  }

  /** How many of the first `n` cells moved. */
  function Moved(bg: seq<int>, cur: seq<int>, delta: int, n: nat): nat
    requires n <= |bg| && n <= |cur|
  {
    if n == 0 then 0 else Moved(bg, cur, delta, n - 1) + (if CellMoved(bg[n - 1], cur[n - 1], delta) then 1 else 0)
  }

  predicate Levels(cur: seq<int>) {
    forall i :: 0 <= i < |cur| ==> 0 <= cur[i] <= 255
  }

  predicate InRange(bg: seq<int>) {
    forall i :: 0 <= i < |bg| ==> 0 <= bg[i] <= 255 * 256
  }

  /** The distance shrinks, keeps its sign, and by 26 at least while it is more than a level. */
  lemma {:induction false} PullShrinks(d: int)
    ensures d >= 0 ==> 0 <= d - Pull(d) <= d
    ensures d <= 0 ==> d <= d - Pull(d) <= 0
    ensures Abs(d) > 256 ==> Abs(d - Pull(d)) <= Abs(d) - 26
    ensures Abs(d) <= 9 ==> Pull(d) == 0
  {
  }

  lemma {:induction false} CellCloser(b: int, level: int, delta: int)
    requires 0 <= b <= 255 * 256 && 0 <= level <= 255
    ensures 0 <= Adapted(b, level) <= 255 * 256
    ensures CellMoved(Adapted(b, level), level, delta) ==> CellMoved(b, level, delta)
  {
    PullShrinks(level * 256 - b);
    hide Pull;
  }

  lemma {:induction false} AdaptRange(bg: seq<int>, cur: seq<int>)
    requires |bg| == |cur| && InRange(bg) && Levels(cur)
    ensures InRange(AdaptAll(bg, cur))
  {
    forall i | 0 <= i < |bg|
      ensures 0 <= AdaptAll(bg, cur)[i] <= 255 * 256
    {
      CellCloser(bg[i], cur[i], 1);
    }
  }

  lemma {:induction false} AdaptMovesFewer(bg: seq<int>, cur: seq<int>, delta: int, n: nat)
    requires |bg| == |cur| && InRange(bg) && Levels(cur) && n <= |bg|
    ensures Moved(AdaptAll(bg, cur), cur, delta, n) <= Moved(bg, cur, delta, n)
    decreases n
  {
    hide Adapted, CellMoved;
    if n > 0 {
      AdaptMovesFewer(bg, cur, delta, n - 1);
      CellCloser(bg[n - 1], cur[n - 1], delta);
    }
  }

  // ------------------------------------------------------------ one frame

  datatype State = State(bg: seq<int>, hasBg: bool, lastMs: int)

  datatype Verdict = Nothing | Scene(score: real) | Calm(score: real) | Moving(score: real)

  predicate Jumped(s: Settings, st: State, ms: int) {
    st.lastMs > 0 && Abs(ms - st.lastMs) > s.maxGapMs
  }

  function Fraction(s: Settings, bg: seq<int>, cur: seq<int>): real
    requires |bg| == |cur| > 0
  {
    (Moved(bg, cur, s.delta, |cur|) as real) / (|cur| as real)
  }

  /** The state after a frame whose cells show `cur`. */
  function Fed(s: Settings, st: State, ms: int, cur: seq<int>): State
    requires |st.bg| == |cur| > 0
  {
    if !st.hasBg || Jumped(s, st, ms) || Fraction(s, st.bg, cur) >= s.scene then State(Seeded(cur), true, ms)
    else State(AdaptAll(st.bg, cur), true, ms)
  }

  function Judged(s: Settings, st: State, ms: int, cur: seq<int>): Verdict
    requires |st.bg| == |cur| > 0
  {
    if !st.hasBg || Jumped(s, st, ms) then Nothing
    else
      var f := Fraction(s, st.bg, cur);
      if f >= s.scene then Scene(f) else if f < s.threshold then Calm(f) else Moving(f)
  }

  /** The cells at least `delta` levels away from the background, its fraction of a level dropped. */
  ghost function FarCells(bg: seq<int>, cur: seq<int>, delta: int, n: nat): set<nat>
    requires n <= |bg| && n <= |cur|
  {
    set i: nat | i < n && (bg[i] < (cur[i] - delta + 1) * 256 || bg[i] >= (cur[i] + delta) * 256)
  }

  lemma {:induction false} MovedAreFar(bg: seq<int>, cur: seq<int>, delta: int, n: nat)
    requires n <= |bg| && n <= |cur|
    ensures Moved(bg, cur, delta, n) == |FarCells(bg, cur, delta, n)|
    decreases n
  {
    if n > 0 {
      MovedAreFar(bg, cur, delta, n - 1);
      var before, now := FarCells(bg, cur, delta, n - 1), FarCells(bg, cur, delta, n);
      assert now == if CellMoved(bg[n - 1], cur[n - 1], delta) then before + {n - 1} else before;
    }
  }

  /**
   A frame is judged by the share of cells far from the background: a change of scene from `scene` on, calm below
   `threshold`, motion between; the first frame, and one after a jump in time, are not judged.
   */
  lemma {:induction false} JudgedByShare(s: Settings, st: State, ms: int, cur: seq<int>)
    requires |st.bg| == |cur| > 0
    ensures var far, all := |FarCells(st.bg, cur, s.delta, |cur|)| as real, |cur| as real;
      var v := Judged(s, st, ms, cur);
      && (v == Nothing <==>
        !st.hasBg || (st.lastMs > 0 && (ms - st.lastMs > s.maxGapMs || st.lastMs - ms > s.maxGapMs)))
      && (v != Nothing ==>
        v.score * all == far
        && (v.Scene? <==> far >= s.scene * all)
        && (v.Calm? <==> far < s.scene * all && far < s.threshold * all))
  {
    MovedAreFar(st.bg, cur, s.delta, |cur|);
    var f, all := Fraction(s, st.bg, cur), |cur| as real;
    hide Moved, FarCells;
    ShareScales(Moved(st.bg, cur, s.delta, |cur|) as real, all, s.scene);
    ShareScales(Moved(st.bg, cur, s.delta, |cur|) as real, all, s.threshold);
  }

  lemma {:induction false} ShareScales(far: real, all: real, x: real)
    requires all > 0.0
    ensures far / all >= x <==> far >= x * all
    ensures far / all * all == far
  {
    var f := far / all;
    assert f * all == far;
    if f >= x {
      assert (f - x) * all >= 0.0;
    } else {
      assert (x - f) * all > 0.0;
    }
  }

  // ------------------------------------------------------------ an unchanging picture

  /** The state after the first `n` frames of one picture. */
  function Still(s: Settings, st: State, cur: seq<int>, times: seq<int>, n: nat): (r: State)
    requires |st.bg| == |cur| > 0 && n <= |times|
    ensures |r.bg| == |cur|
  {
    if n == 0 then st else Fed(s, Still(s, st, cur, times, n - 1), times[n - 1], cur)
  }

  lemma {:induction false} SeededStill(cur: seq<int>, delta: int, n: nat)
    requires n <= |cur| && delta >= 1
    ensures Moved(Seeded(cur), cur, delta, n) == 0
    decreases n
  {
    if n > 0 {
      SeededStill(cur, delta, n - 1);
    }
  }

  lemma {:induction false} FedRange(s: Settings, st: State, ms: int, cur: seq<int>)
    requires |st.bg| == |cur| > 0 && InRange(st.bg) && Levels(cur)
    ensures InRange(Fed(s, st, ms, cur).bg)
  {
    hide Fraction, Jumped;
    AdaptRange(st.bg, cur);
  }

  /** The state after the first `n` frames of pictures that may all differ. */
  function Shown(s: Settings, st: State, pictures: seq<seq<int>>, times: seq<int>, n: nat): (r: State)
    requires |st.bg| > 0 && n <= |times| && n <= |pictures|
      && forall i :: 0 <= i < |pictures| ==> |pictures[i]| == |st.bg|
    ensures |r.bg| == |st.bg|
  {
    if n == 0 then st else Fed(s, Shown(s, st, pictures, times, n - 1), times[n - 1], pictures[n - 1])
  }

  /** The background of every cell stays within 0 and 255 levels, whatever pictures are fed at whatever times. */
  lemma {:induction false} AlwaysInRange(s: Settings, st: State, pictures: seq<seq<int>>, times: seq<int>, n: nat)
    requires |st.bg| > 0 && n <= |times| && n <= |pictures| && InRange(st.bg)
    requires forall i :: 0 <= i < |pictures| ==> |pictures[i]| == |st.bg| && Levels(pictures[i])
    ensures InRange(Shown(s, st, pictures, times, n).bg)
    decreases n
  {
    hide Fed, InRange, Levels;
    if n > 0 {
      AlwaysInRange(s, st, pictures, times, n - 1);
      FedRange(s, Shown(s, st, pictures, times, n - 1), times[n - 1], pictures[n - 1]);
    }
  }

  /** The same for one picture that does not change. */
  lemma {:induction false} StillRange(s: Settings, st: State, cur: seq<int>, times: seq<int>, n: nat)
    requires |st.bg| == |cur| > 0 && n <= |times| && InRange(st.bg) && Levels(cur)
    ensures InRange(Still(s, st, cur, times, n).bg)
    decreases n
  {
    hide Fed, InRange, Levels;
    if n > 0 {
      StillRange(s, st, cur, times, n - 1);
      FedRange(s, Still(s, st, cur, times, n - 1), times[n - 1], cur);
    }
  }

  function Count(s: Settings, st: State, cur: seq<int>): nat
    requires |st.bg| == |cur|
  {
    Moved(st.bg, cur, s.delta, |cur|)
  }

  /** From one frame of the picture to the next, never more cells count as moved. */
  lemma {:induction false} FewerMove(s: Settings, st: State, ms: int, cur: seq<int>)
    requires |st.bg| == |cur| > 0 && InRange(st.bg) && Levels(cur) && s.delta >= 1
    ensures Count(s, Fed(s, st, ms, cur), cur) <= Count(s, st, cur)
  {
    hide Fraction, Jumped, Moved;
    SeededStill(cur, s.delta, |cur|);
    AdaptMovesFewer(st.bg, cur, s.delta, |cur|);
  }

  /** How far every cell still is, after `n` frames. */
  predicate Near(bg: seq<int>, cur: seq<int>, n: nat)
    requires |bg| == |cur|
  {
    forall i :: 0 <= i < |bg| ==> Abs(cur[i] * 256 - bg[i]) <= (if 65280 - 26 * n >= 256 then 65280 - 26 * n else 256)
  }

  lemma {:induction false} AdaptNears(bg: seq<int>, cur: seq<int>, n: nat)
    requires |bg| == |cur| && Near(bg, cur, n)
    ensures Near(AdaptAll(bg, cur), cur, n + 1)
  {
    forall i | 0 <= i < |bg|
      ensures Abs(cur[i] * 256 - Adapted(bg[i], cur[i])) <= (if 65280 - 26 * (n + 1) >= 256 then 65280 - 26 * (n + 1)
        else 256)
    {
      PullShrinks(cur[i] * 256 - bg[i]);
    }
    hide Pull;
  }

  lemma {:induction false} NearIsStill(bg: seq<int>, cur: seq<int>, delta: int, n: nat, k: nat)
    requires |bg| == |cur| && Near(bg, cur, n) && n >= 2501 && delta >= 2 && k <= |cur|
    ensures Moved(bg, cur, delta, k) == 0
    decreases k
  {
    if k > 0 {
      NearIsStill(bg, cur, delta, n, k - 1);
      assert Abs(cur[k - 1] * 256 - bg[k - 1]) <= 256;
    }
  }

  lemma {:induction false} StillNears(s: Settings, st: State, cur: seq<int>, times: seq<int>, n: nat)
    requires |st.bg| == |cur| > 0 && n <= |times| && InRange(st.bg) && Levels(cur)
    ensures Near(Still(s, st, cur, times, n).bg, cur, n)
    decreases n
  {
    hide Fraction, Jumped, AdaptAll;
    if n > 0 {
      StillNears(s, st, cur, times, n - 1);
      AdaptNears(Still(s, st, cur, times, n - 1).bg, cur, n - 1);
    }
  }

  /**
   An unchanging picture stops counting as motion: whatever the background was, from the 2501st frame
   on no cell counts as moved, when a cell must differ by two levels or more.
   */
  lemma {:induction false} BackgroundConverges(s: Settings, st: State, cur: seq<int>, times: seq<int>, n: nat)
    requires |st.bg| == |cur| > 0 && InRange(st.bg) && Levels(cur) && s.delta >= 2 && 2501 <= n <= |times|
    ensures Count(s, Still(s, st, cur, times, n), cur) == 0
  {
    StillNears(s, st, cur, times, n);
    NearIsStill(Still(s, st, cur, times, n).bg, cur, s.delta, n, |cur|);
    hide Still, Moved;
  }

  // ------------------------------------------------------------ with a difference of one level it may not

  /** How many of the first `n` cells stand below the picture. */
  function Below(bg: seq<int>, cur: seq<int>, n: nat): nat
    requires n <= |bg| && n <= |cur|
  {
    if n == 0 then 0 else Below(bg, cur, n - 1) + (if bg[n - 1] < cur[n - 1] * 256 then 1 else 0)
  }

  lemma {:induction false} BelowNone(bg: seq<int>, cur: seq<int>, n: nat)
    requires n <= |bg| && n <= |cur|
    ensures Below(bg, cur, n) == 0 <==> forall i :: 0 <= i < n ==> bg[i] >= cur[i] * 256
    decreases n
  {
    if n > 0 {
      BelowNone(bg, cur, n - 1);
    }
  }

  /** Every cell is on the side of the picture where it started. */
  predicate Sides(start: seq<int>, bg: seq<int>, cur: seq<int>)
    requires |start| == |bg| == |cur|
  {
    forall i :: 0 <= i < |bg| ==> (start[i] < cur[i] * 256 <==> bg[i] < cur[i] * 256)
  }

  /** No cell is a whole level above the picture. */
  predicate Sunk(bg: seq<int>, cur: seq<int>)
    requires |bg| == |cur|
  {
    forall i :: 0 <= i < |bg| ==> bg[i] - cur[i] * 256 < 256
  }

  lemma {:induction false} CellStaysBelow(b: int, level: int)
    ensures b < level * 256 <==> Adapted(b, level) < level * 256
    ensures b - level * 256 <= 256 ==> Adapted(b, level) - level * 256 < 256
  {
  }

  lemma {:induction false} AdaptSides(start: seq<int>, bg: seq<int>, cur: seq<int>, n: nat)
    requires |start| == |bg| == |cur| && Sides(start, bg, cur)
    ensures Sides(start, AdaptAll(bg, cur), cur)
    ensures n >= 2501 && Near(bg, cur, n) ==> Sunk(AdaptAll(bg, cur), cur)
  {
    forall i | 0 <= i < |bg|
      ensures bg[i] < cur[i] * 256 <==> AdaptAll(bg, cur)[i] < cur[i] * 256
      ensures bg[i] - cur[i] * 256 <= 256 ==> AdaptAll(bg, cur)[i] - cur[i] * 256 < 256
    {
      CellStaysBelow(bg[i], cur[i]);
    }
    hide Adapted;
    if n >= 2501 && Near(bg, cur, n) {
      assert forall i :: 0 <= i < |bg| ==> Abs(cur[i] * 256 - bg[i]) <= 256;
    }
  }

  /** What is below counts as moved; once nothing is a level above, nothing else does. */
  lemma {:induction false} MovedIsBelow(start: seq<int>, bg: seq<int>, cur: seq<int>, n: nat)
    requires |start| == |bg| == |cur| && Sides(start, bg, cur) && n <= |bg|
    ensures Moved(bg, cur, 1, n) >= Below(start, cur, n)
    ensures Sunk(bg, cur) ==> Moved(bg, cur, 1, n) == Below(start, cur, n)
    decreases n
  {
    if n > 0 {
      MovedIsBelow(start, bg, cur, n - 1);
      assert bg[n - 1] < cur[n - 1] * 256 ==> CellMoved(bg[n - 1], cur[n - 1], 1);
    }
  }

  lemma {:induction false} SeededStays(cur: seq<int>)
    ensures AdaptAll(Seeded(cur), cur) == Seeded(cur)
  {
  }

  /** Frame `k` comes too long after the one before it. */
  predicate JumpAt(s: Settings, st: State, times: seq<int>, k: nat)
    requires k < |times|
  {
    Jumped(s, st.(lastMs := if k == 0 then st.lastMs else times[k - 1]), times[k])
  }

  /** Within the first `n` frames the background is set to the picture. */
  ghost predicate Reseeded(s: Settings, st: State, cur: seq<int>, times: seq<int>, n: nat)
    requires |st.bg| == |cur| > 0 && n <= |times|
  {
    n > 0 && (!st.hasBg || Fraction(s, st.bg, cur) >= s.scene || exists k :: 0 <= k < n && JumpAt(s, st, times, k))
  }

  ghost predicate StillIs(s: Settings, st: State, cur: seq<int>, times: seq<int>, n: nat)
    requires |st.bg| == |cur| > 0 && n <= |times|
  {
    var r := Still(s, st, cur, times, n);
    r.lastMs == (if n == 0 then st.lastMs else times[n - 1]) && (n > 0 ==> r.hasBg)
    && if Reseeded(s, st, cur, times, n) then r.bg == Seeded(cur)
       else
         Sides(st.bg, r.bg, cur) && Count(s, r, cur) <= Count(s, st, cur) && (n == 0 ==> r == st)
         && (n > 2501 ==> Sunk(r.bg, cur))
  }

  lemma {:induction false} FractionAtMost(s: Settings, a: seq<int>, b: seq<int>, cur: seq<int>)
    requires |a| == |b| == |cur| > 0 && Moved(a, cur, s.delta, |cur|) <= Moved(b, cur, s.delta, |cur|)
    ensures Fraction(s, a, cur) <= Fraction(s, b, cur)
  {
    QuotientAtMost(Moved(a, cur, s.delta, |cur|) as real, Moved(b, cur, s.delta, |cur|) as real, |cur| as real);
  }

  lemma {:induction false} QuotientAtMost(a: real, b: real, n: real)
    requires a <= b && n > 0.0
    ensures a / n <= b / n
  {
  }

  lemma {:induction false} StillTells(s: Settings, st: State, cur: seq<int>, times: seq<int>, n: nat)
    requires |st.bg| == |cur| > 0 && n <= |times| && InRange(st.bg) && Levels(cur) && s.delta >= 1 && s.scene > 0.0
    ensures StillIs(s, st, cur, times, n)
    decreases n
  {
    if n > 0 {
      var r, ms := Still(s, st, cur, times, n - 1), times[n - 1];
      StillTells(s, st, cur, times, n - 1);
      StillRange(s, st, cur, times, n - 1);
      StillNears(s, st, cur, times, n - 1);
      FewerMove(s, r, ms, cur);
      SeededStays(cur);
      assert JumpAt(s, st, times, n - 1) <==> Jumped(s, r, ms);
      hide InRange, Levels, Moved, Seeded, Near, Sunk, JumpAt, Jumped, AdaptAll, Sides;
      if !Reseeded(s, st, cur, times, n - 1) {
        FractionAtMost(s, r.bg, st.bg, cur);
        AdaptSides(st.bg, r.bg, cur, n - 1);
      }
      hide Fraction;
    }
  }

  /**
   What an unchanging picture settles at when a cell must differ by one level: for any picture, background and
   instants. Truncated, the pull never lifts a cell up to the picture, only down to it. So unless the background
   is set anew, from the 2502nd frame on the cells counted are exactly those that started below the picture;
   and the count comes to zero if and only if none did.
   */
  lemma {:induction false} OneLevelExactly(s: Settings, st: State, cur: seq<int>, times: seq<int>, n: nat)
    requires |st.bg| == |cur| > 0 && InRange(st.bg) && Levels(cur) && s.delta == 1 && s.scene > 0.0
      && 2502 <= n <= |times|
    ensures var count, anew := Count(s, Still(s, st, cur, times, n), cur), Reseeded(s, st, cur, times, n);
      count == (if anew then 0 else Below(st.bg, cur, |cur|))
      && (count == 0 <==> anew || forall i :: 0 <= i < |cur| ==> st.bg[i] >= cur[i] * 256)
  {
    StillTells(s, st, cur, times, n);
    BelowNone(st.bg, cur, |cur|);
    SeededStill(cur, 1, |cur|);
    var r := Still(s, st, cur, times, n);
    hide Still, Moved, Reseeded, Below, Sunk, Sides;
    if !Reseeded(s, st, cur, times, n) {
      MovedIsBelow(st.bg, r.bg, cur, |cur|);
    }
  }

  /** And at every frame before: a cell that starts below the picture counts as moved for ever. */
  lemma {:induction false} OneLevelStalls(s: Settings, st: State, cur: seq<int>, times: seq<int>, n: nat)
    requires |st.bg| == |cur| > 0 && InRange(st.bg) && Levels(cur) && s.delta == 1 && s.scene > 0.0 && n <= |times|
    requires !Reseeded(s, st, cur, times, n)
    ensures Count(s, Still(s, st, cur, times, n), cur) >= Below(st.bg, cur, |cur|)
  {
    StillTells(s, st, cur, times, n);
    var r := Still(s, st, cur, times, n);
    hide Still, Moved, Reseeded, Below, Sunk, Sides;
    MovedIsBelow(st.bg, r.bg, cur, |cur|);
  }

  /** Cells at level 100, whose background stands at it but for one 256th in the first. */
  function Flat(n: nat): seq<int> {
    seq(n, i => 100)
  }

  function Stalled(n: nat): seq<int> {
    seq(n, i => if i == 0 then 25599 else 25600)
  }

  lemma {:induction false} StalledMoved(n: nat, k: nat)
    requires k <= n
    ensures Moved(Stalled(n), Flat(n), 1, k) == if k == 0 then 0 else 1
    ensures Below(Stalled(n), Flat(n), k) == if k == 0 then 0 else 1
    decreases k
  {
    if k > 0 {
      StalledMoved(n, k - 1);
      hide Moved, Below;
    }
  }

  /** A background one 256th too dark in one cell, and frames as steady as one likes: motion for ever. */
  lemma {:induction false} OneDarkCell(s: Settings, times: seq<int>, n: nat)
    requires s.delta == 1 && s.scene > 0.025 && n <= |times|
    requires forall k :: 0 < k < |times| ==> 0 < times[k] - times[k - 1] <= s.maxGapMs
    ensures var st := State(Stalled(40), true, 0);
      Count(s, Still(s, st, Flat(40), times, n), Flat(40)) == 1
  {
    var st := State(Stalled(40), true, 0);
    StalledMoved(40, 40);
    assert forall k :: 0 <= k < n ==> !JumpAt(s, st, times, k);
    StillTells(s, st, Flat(40), times, n);
    OneLevelStalls(s, st, Flat(40), times, n);
  }

  // ------------------------------------------------------------ averaging over cells

  function Byte(m: Image, i: nat): nat {
    if i < |m.pixels| then m.pixels[i] as nat else 0
  }

  /** The luma of pixel `k`, in row order. */
  function Luma(m: Image, k: nat): (l: nat)
    ensures l <= 255
  {
    (77 * Byte(m, 3 * k) + 150 * Byte(m, 3 * k + 1) + 29 * Byte(m, 3 * k + 2)) / 256
  }

  function Least(a: nat, b: nat): nat {
    if a <= b then a else b
  }

  /** The cell of a pixel. */
  function CellOf(m: Image, gw: nat, gh: nat, x: nat, y: nat): nat
    requires ValidImage(m) && gw > 0 && gh > 0
  {
    Least(Scaled(y, gh, m.height), gh - 1) * gw + Least(Scaled(x, gw, m.width), gw - 1)
  }

  function Scaled(a: nat, cells: nat, size: nat): nat
    requires size > 0
  {
    a * cells / size
  }

  /** Over the first `k` pixels: the luma summed in cell `c`, and how many lie in it. */
  function SumIn(m: Image, gw: nat, gh: nat, c: nat, k: nat): nat
    requires ValidImage(m) && gw > 0 && gh > 0
  {
    if k == 0 then 0
    else SumIn(m, gw, gh, c, k - 1) + (if CellOf(m, gw, gh, (k - 1) % m.width, (k - 1) / m.width) == c
      then Luma(m, k - 1) else 0)
  }

  function CountIn(m: Image, gw: nat, gh: nat, c: nat, k: nat): nat
    requires ValidImage(m) && gw > 0 && gh > 0
  {
    if k == 0 then 0
    else CountIn(m, gw, gh, c, k - 1) + (if CellOf(m, gw, gh, (k - 1) % m.width, (k - 1) / m.width) == c then 1 else 0)
  }

  /** The mean luma of a cell. */
  function Mean(m: Image, gw: nat, gh: nat, c: nat): int
    requires ValidImage(m) && gw > 0 && gh > 0
  {
    var n := m.width * m.height;
    if CountIn(m, gw, gh, c, n) > 0 then SumIn(m, gw, gh, c, n) / CountIn(m, gw, gh, c, n) else 0
  }

  lemma {:induction false} SumBound(m: Image, gw: nat, gh: nat, c: nat, k: nat)
    requires ValidImage(m) && gw > 0 && gh > 0
    ensures SumIn(m, gw, gh, c, k) <= 255 * CountIn(m, gw, gh, c, k)
    decreases k
  {
    hide Luma, CellOf;
    if k > 0 {
      SumBound(m, gw, gh, c, k - 1);
    }
  }

  /** A mean is a level. */
  lemma {:induction false} MeanIsLevel(m: Image, gw: nat, gh: nat, c: nat)
    requires ValidImage(m) && gw > 0 && gh > 0
    ensures 0 <= Mean(m, gw, gh, c) <= 255
  {
    var n := m.width * m.height;
    SumBound(m, gw, gh, c, n);
    var sum, count := SumIn(m, gw, gh, c, n), CountIn(m, gw, gh, c, n);
    hide SumIn, CountIn;
    if count > 0 {
      Quotient(sum, count);
    }
  }

  lemma {:induction false} Quotient(sum: nat, count: nat)
    requires count > 0 && sum <= 255 * count
    ensures 0 <= sum / count <= 255
  {
    var q := sum / count;
    assert q * count <= sum < 256 * count;
    Between(q, 256, count);
  }

  lemma {:induction false} CellInside(m: Image, gw: nat, gh: nat, x: nat, y: nat)
    requires ValidImage(m) && gw > 0 && gh > 0
    ensures CellOf(m, gw, gh, x, y) < gw * gh
  {
    var gy, gx := Least(Scaled(y, gh, m.height), gh - 1), Least(Scaled(x, gw, m.width), gw - 1);
    assert gy <= gh - 1 && gx <= gw - 1;
    hide Least;
    ProductAtMost(gy, gh - 1, gw);
    assert (gh - 1) * gw + gw == gw * gh;
  }

  function Means(m: Image, gw: nat, gh: nat): (r: seq<int>)
    requires ValidImage(m) && gw > 0 && gh > 0
    ensures |r| == gw * gh
  {
    seq(gw * gh, c requires 0 <= c < gw * gh => Mean(m, gw, gh, c))
  }

  lemma {:induction false} RowColumn(y: nat, x: nat, w: nat)
    requires x < w
    ensures (y * w + x) % w == x && (y * w + x) / w == y
    decreases y
  {
    var k := y * w + x;
    var q, r := k / w, k % w;
    assert k == q * w + r && 0 <= r < w;
    assert (q - y) * w == x - r;
    Between(q - y, 1, w);
    Between(-1, q - y, w);
  }

  /** The number of a pixel in row order. */
  function PixelAt(m: Image, x: nat, y: nat): nat {
    y * m.width + x
  }

  lemma {:induction false} PixelNext(m: Image, x: nat, y: nat)
    ensures PixelAt(m, x + 1, y) == PixelAt(m, x, y) + 1
  {
  }

  lemma {:induction false} RowStarts(m: Image, y: nat)
    ensures y == 0 ==> PixelAt(m, 0, y) == 0
    ensures y > 0 ==> PixelAt(m, 0, y) == PixelAt(m, m.width, y - 1)
  {
    if y > 0 {
      assert (y - 1) * m.width + m.width == y * m.width;
    }
  }

  /** The running sums after `k` pixels. */
  ghost predicate Summed(sums: seq<nat>, counts: seq<nat>, m: Image, gw: nat, gh: nat, k: nat)
    requires ValidImage(m) && gw > 0 && gh > 0
  {
    |sums| == |counts| == gw * gh
    && forall c :: 0 <= c < gw * gh ==> sums[c] == SumIn(m, gw, gh, c, k) && counts[c] == CountIn(m, gw, gh, c, k)
  }

  lemma {:induction false} SummedStart(sums: seq<nat>, counts: seq<nat>, m: Image, gw: nat, gh: nat)
    requires ValidImage(m) && gw > 0 && gh > 0 && |sums| == |counts| == gw * gh
    requires forall c :: 0 <= c < gw * gh ==> sums[c] == 0 && counts[c] == 0
    ensures Summed(sums, counts, m, gw, gh, 0)
  {
  }

  lemma {:induction false} SummedStep(sums: seq<nat>, counts: seq<nat>, m: Image, gw: nat, gh: nat, y: nat, x: nat)
    requires ValidImage(m) && gw > 0 && gh > 0 && x < m.width && Summed(sums, counts, m, gw, gh, PixelAt(m, x, y))
    ensures var c, k := CellOf(m, gw, gh, x, y), PixelAt(m, x, y);
      c < |sums| && c < |counts|
      && Summed(sums[c := sums[c] + Luma(m, k)], counts[c := counts[c] + 1], m, gw, gh, k + 1)
  {
    var k := y * m.width + x;
    RowColumn(y, x, m.width);
    CellInside(m, gw, gh, x, y);
    SumStep(m, gw, gh, k);
    hide SumIn, CountIn, CellOf, Luma, ValidImage;
  }

  lemma {:induction false} SumStep(m: Image, gw: nat, gh: nat, k: nat)
    requires ValidImage(m) && gw > 0 && gh > 0
    ensures var cell := CellOf(m, gw, gh, k % m.width, k / m.width);
      (forall c: nat :: SumIn(m, gw, gh, c, k + 1) == SumIn(m, gw, gh, c, k) + (if cell == c then Luma(m, k) else 0))
      && (forall c: nat :: CountIn(m, gw, gh, c, k + 1) == CountIn(m, gw, gh, c, k) + (if cell == c then 1 else 0))
  {
    hide CellOf, Luma, ValidImage;
  }

  /** The smallest box of columns and rows around the cells that moved; upside down when none did. */
  datatype Box = Box(minX: nat, minY: nat, maxX: nat, maxY: nat)

  function Around(b: Box, x: nat, y: nat): Box {
    Box(Least(b.minX, x), Least(b.minY, y), if b.maxX >= x then b.maxX else x, if b.maxY >= y then b.maxY else y)
  }

  lemma {:induction false} ProductPositive(a: nat, b: nat)
    requires a > 0 && b > 0
    ensures a * b > 0
  {
  }

  function Column(k: nat, w: nat): nat
    requires w > 0
  {
    k % w
  }

  function Row(k: nat, w: nat): nat
    requires w > 0
  {
    k / w
  }

  function BoxOf(bg: seq<int>, cur: seq<int>, delta: int, w: nat, h: nat, n: nat): Box
    requires n <= |bg| && n <= |cur| && w > 0
  {
    if n == 0 then Box(w, h, 0, 0)
    else
      var b := BoxOf(bg, cur, delta, w, h, n - 1);
      if CellMoved(bg[n - 1], cur[n - 1], delta) then Around(b, Column(n - 1, w), Row(n - 1, w)) else b
  }

  predicate Inside(b: Box, x: nat, y: nat) {
    b.minX <= x <= b.maxX && b.minY <= y <= b.maxY
  }

  lemma {:induction false} BoxNext(bg: seq<int>, cur: seq<int>, delta: int, w: nat, h: nat, n: nat)
    requires n < |bg| && n < |cur| && w > 0
    ensures Moved(bg, cur, delta, n + 1) == Moved(bg, cur, delta, n) + (if CellMoved(bg[n], cur[n], delta) then 1
      else 0)
    ensures var b := BoxOf(bg, cur, delta, w, h, n);
      BoxOf(bg, cur, delta, w, h, n + 1) == if CellMoved(bg[n], cur[n], delta) then Around(b, Column(n, w), Row(n, w))
        else b
  {
    hide CellMoved, Around, Column, Row;
  }

  lemma {:induction false} AroundHolds(b: Box, x: nat, y: nat, p: nat, q: nat)
    requires Inside(b, p, q)
    ensures Inside(Around(b, x, y), p, q)
  {
  }

  /** The box lies in the grid, the right way up, once a cell moved. */
  lemma {:induction false} BoxUpright(bg: seq<int>, cur: seq<int>, delta: int, w: nat, h: nat, n: nat)
    requires n <= |bg| && n <= |cur| && n <= w * h && w > 0
    ensures var b := BoxOf(bg, cur, delta, w, h, n);
      if Moved(bg, cur, delta, n) == 0 then b == Box(w, h, 0, 0) else b.minX <= b.maxX < w && b.minY <= b.maxY < h
    decreases n
  {
    if n > 0 {
      BoxUpright(bg, cur, delta, w, h, n - 1);
      BoxNext(bg, cur, delta, w, h, n - 1);
      RowBound(n - 1, w, h);
      hide Moved, BoxOf, CellMoved, Column, Row;
    }
  }

  lemma {:induction false} BoxHolds(bg: seq<int>, cur: seq<int>, delta: int, w: nat, h: nat, n: nat, i: nat)
    requires i < n <= |bg| && n <= |cur| && n <= w * h && w > 0 && CellMoved(bg[i], cur[i], delta)
    ensures Inside(BoxOf(bg, cur, delta, w, h, n), Column(i, w), Row(i, w))
    decreases n
  {
    hide Moved, BoxOf, CellMoved, Around, Inside, Column, Row;
    var b := BoxOf(bg, cur, delta, w, h, n - 1);
    BoxNext(bg, cur, delta, w, h, n - 1);
    BoxUpright(bg, cur, delta, w, h, n - 1);
    RowBound(i, w, h);
    if i < n - 1 {
      BoxHolds(bg, cur, delta, w, h, n - 1, i);
      AroundHolds(b, Column(n - 1, w), Row(n - 1, w), Column(i, w), Row(i, w));
    } else {
      AroundFirst(b, Column(i, w), Row(i, w), w, h);
    }
  }

  lemma {:induction false} AroundFirst(b: Box, x: nat, y: nat, w: nat, h: nat)
    requires x < w && y < h && (b == Box(w, h, 0, 0) || (b.minX <= b.maxX && b.minY <= b.maxY))
    ensures Inside(Around(b, x, y), x, y)
  {
  }

  /** The box holds every moved cell, and each side touches one. */
  lemma {:induction false} BoxIsTight(bg: seq<int>, cur: seq<int>, delta: int, w: nat, h: nat,
      n: nat) returns (left: nat, top: nat, right: nat, bottom: nat)
    requires n <= |bg| && n <= |cur| && n <= w * h && w > 0
    ensures var b := BoxOf(bg, cur, delta, w, h, n);
      (forall i :: 0 <= i < n && CellMoved(bg[i], cur[i], delta) ==> Inside(b, Column(i, w), Row(i, w)))
      && (Moved(bg, cur, delta, n) > 0 ==>
        left < n && top < n && right < n && bottom < n
        && CellMoved(bg[left], cur[left], delta) && Column(left, w) == b.minX
        && CellMoved(bg[top], cur[top], delta) && Row(top, w) == b.minY
        && CellMoved(bg[right], cur[right], delta) && Column(right, w) == b.maxX
        && CellMoved(bg[bottom], cur[bottom], delta) && Row(bottom, w) == b.maxY)
      && (Moved(bg, cur, delta, n) == 0 ==> b == Box(w, h, 0, 0))
    decreases n
  {
    hide CellMoved, Inside, Moved, BoxOf, Column, Row;
    BoxUpright(bg, cur, delta, w, h, n);
    forall i | 0 <= i < n && CellMoved(bg[i], cur[i], delta)
      ensures Inside(BoxOf(bg, cur, delta, w, h, n), Column(i, w), Row(i, w))
    {
      BoxHolds(bg, cur, delta, w, h, n, i);
    }
    left, top, right, bottom := 0, 0, 0, 0;
    if Moved(bg, cur, delta, n) > 0 {
      left, top, right, bottom := BoxTouches(bg, cur, delta, w, h, n);
    }
  }

  lemma {:induction false} BoxTouches(bg: seq<int>, cur: seq<int>, delta: int, w: nat, h: nat,
      n: nat) returns (left: nat, top: nat, right: nat, bottom: nat)
    requires n <= |bg| && n <= |cur| && n <= w * h && w > 0 && Moved(bg, cur, delta, n) > 0
    ensures var b := BoxOf(bg, cur, delta, w, h, n);
      left < n && top < n && right < n && bottom < n
      && CellMoved(bg[left], cur[left], delta) && Column(left, w) == b.minX
      && CellMoved(bg[top], cur[top], delta) && Row(top, w) == b.minY
      && CellMoved(bg[right], cur[right], delta) && Column(right, w) == b.maxX
      && CellMoved(bg[bottom], cur[bottom], delta) && Row(bottom, w) == b.maxY
    decreases n
  {
    var k := n - 1;
    assert n > 0;
    hide CellMoved, Moved, BoxOf, Column, Row;
    BoxNext(bg, cur, delta, w, h, k);
    BoxUpright(bg, cur, delta, w, h, k);
    RowBound(k, w, h);
    var b := BoxOf(bg, cur, delta, w, h, k);
    left, top, right, bottom := k, k, k, k;
    if Moved(bg, cur, delta, k) > 0 {
      left, top, right, bottom := BoxTouches(bg, cur, delta, w, h, k);
      if CellMoved(bg[k], cur[k], delta) {
        left := if Column(k, w) <= b.minX then k else left;
        top := if Row(k, w) <= b.minY then k else top;
        right := if Column(k, w) >= b.maxX then k else right;
        bottom := if Row(k, w) >= b.maxY then k else bottom;
      }
    }
  }

  lemma {:induction false} RowBound(k: nat, w: nat, h: nat)
    requires k < w * h && w > 0
    ensures Column(k, w) < w && Row(k, w) < h
  {
    assert (k / w) * w <= k < h * w;
    Between(k / w, h, w);
  }

  // ------------------------------------------------------------ the detector itself

  class Detector {
    const s: Settings
    const bg: array<int>
    const cur: array<int>
    var hasBg: bool
    var lastMs: int

    /** Whatever was fed, the background and the picture stay in range. */
    ghost predicate Valid()
      reads this, bg, cur
    {
      s.width > 0 && s.height > 0 && bg != cur && bg.Length == cur.Length == s.width * s.height > 0
      && InRange(bg[..]) && Levels(cur[..])
    }

    ghost function Now(): State
      reads this, bg
    {
      State(bg[..], hasBg, lastMs)
    }

    constructor (threshold: real, scene: real, delta: int, scale: real, maxGapMs: int)
      ensures Valid() && s == Sane(threshold, scene, delta, scale, maxGapMs) && !hasBg && fresh(bg) && fresh(cur)
    {
      var sane := Sane(threshold, scene, delta, scale, maxGapMs);
      hide Sane;
      ProductPositive(sane.width, sane.height);
      s, hasBg, lastMs := sane, false, 0;
      bg := new int[sane.width * sane.height](i => 0);
      cur := new int[sane.width * sane.height](i => 0);
    }

    /** The sum and the count of every cell, pixel by pixel in row order. */
    method Sums(m: Image) returns (sums: seq<nat>, counts: seq<nat>)
      requires s.width > 0 && s.height > 0 && ValidImage(m)
      ensures Summed(sums, counts, m, s.width, s.height, PixelAt(m, 0, m.height))
    {
      hide Summed, CellOf, Luma, SumIn, CountIn, PixelAt, ValidImage;
      var n := s.width * s.height;
      sums, counts := seq(n, i => 0), seq(n, i => 0);
      SummedStart(sums, counts, m, s.width, s.height);
      RowStarts(m, 0);
      for y := 0 to m.height
        invariant Summed(sums, counts, m, s.width, s.height, PixelAt(m, 0, y))
      {
        for x := 0 to m.width
          invariant Summed(sums, counts, m, s.width, s.height, PixelAt(m, x, y))
        {
          SummedStep(sums, counts, m, s.width, s.height, y, x);
          PixelNext(m, x, y);
          var c := CellOf(m, s.width, s.height, x, y);
          sums := sums[c := sums[c] + Luma(m, PixelAt(m, x, y))];
          counts := counts[c := counts[c] + 1];
        }
        RowStarts(m, y + 1);
      }
    }

    /** The mean luma of every cell. */
    method Downsample(m: Image)
      requires Valid() && ValidImage(m)
      modifies cur
      ensures Valid() && cur[..] == Means(m, s.width, s.height)
    {
      hide Summed, Mean, InRange, ValidImage;
      var sums, counts := Sums(m);
      var n := cur.Length;
      for c := 0 to n
        invariant bg[..] == old(bg[..])
        invariant forall i :: 0 <= i < c ==> cur[i] == Mean(m, s.width, s.height, i)
      {
        SummedMean(sums, counts, m, s.width, s.height, c);
        cur[c] := if counts[c] > 0 then sums[c] / counts[c] else 0;
      }
      forall c | 0 <= c < n ensures 0 <= cur[c] <= 255 {
        MeanIsLevel(m, s.width, s.height, c);
      }
      assert cur[..] == Means(m, s.width, s.height);
    }

    method SeedBackground()
      requires Valid()
      modifies bg, this`hasBg
      ensures Valid() && bg[..] == Seeded(cur[..]) && hasBg
    {
      for i := 0 to bg.Length
        invariant forall j :: 0 <= j < i ==> bg[j] == cur[j] * 256
      {
        bg[i] := cur[i] * 256;
      }
      hasBg := true;
      assert bg[..] == Seeded(cur[..]);
    }

    /** Moves the background of every cell towards the picture. */
    method AdaptBackground()
      requires Valid()
      modifies bg
      ensures Valid() && bg[..] == AdaptAll(old(bg[..]), cur[..])
    {
      hide Adapted, InRange;
      for i := 0 to bg.Length
        invariant forall j :: 0 <= j < i ==> bg[j] == Adapted(old(bg[j]), cur[j])
        invariant forall j :: i <= j < bg.Length ==> bg[j] == old(bg[j])
      {
        bg[i] := Adapted(bg[i], cur[i]);
      }
      assert bg[..] == AdaptAll(old(bg[..]), cur[..]);
      AdaptRange(old(bg[..]), cur[..]);
    }

    /** The count of cells that moved and the box around them. */
    method CountMoved() returns (moved: nat, box: Box)
      requires Valid()
      ensures moved == Moved(bg[..], cur[..], s.delta, cur.Length)
      ensures box == BoxOf(bg[..], cur[..], s.delta, s.width, s.height, cur.Length)
    {
      hide CellMoved, InRange, Levels, Around, Column, Row;
      moved, box := 0, Box(s.width, s.height, 0, 0);
      for i := 0 to cur.Length
        invariant moved == Moved(bg[..], cur[..], s.delta, i)
        invariant box == BoxOf(bg[..], cur[..], s.delta, s.width, s.height, i)
      {
        BoxNext(bg[..], cur[..], s.delta, s.width, s.height, i);
        hide Moved, BoxOf;
        if CellMoved(bg[i], cur[i], s.delta) {
          moved := moved + 1;
          box := Around(box, Column(i, s.width), Row(i, s.width));
        }
      }
    }

    method Feed(ms: int, m: Image) returns (v: Verdict, box: Box)
      requires Valid()
      modifies this`hasBg, this`lastMs, bg, cur
      ensures Valid()
      ensures !ValidImage(m) ==> v == Nothing && Now() == old(Now())
      ensures ValidImage(m) ==>
        var means := Means(m, s.width, s.height);
        cur[..] == means && Now() == Fed(s, old(Now()), ms, means) && v == Judged(s, old(Now()), ms, means)
        && (v.Moving? ==> box == BoxOf(old(bg[..]), means, s.delta, s.width, s.height, |means|))
    {
      hide Means, InRange, Levels, Moved, BoxOf, AdaptAll, Seeded;
      box := Box(0, 0, 0, 0);
      if !ValidImage(m) {
        return Nothing, box;
      }
      var jumped := lastMs > 0 && Abs(ms - lastMs) > s.maxGapMs;
      lastMs := ms;
      Downsample(m);
      if !hasBg || jumped {
        SeedBackground();
        return Nothing, box;
      }
      var moved, around := CountMoved();
      var fraction := (moved as real) / (cur.Length as real);
      if fraction >= s.scene {
        SeedBackground();
        return Scene(fraction), box;
      }
      AdaptBackground();
      if fraction < s.threshold {
        return Calm(fraction), box;
      }
      return Moving(fraction), around;
    }

    method Forget()
      modifies this`hasBg, this`lastMs
      ensures !hasBg && lastMs == 0
    {
      hasBg, lastMs := false, 0;
    }
  }

  lemma {:induction false} SummedMean(sums: seq<nat>, counts: seq<nat>, m: Image, gw: nat, gh: nat, c: nat)
    requires ValidImage(m) && gw > 0 && gh > 0 && c < gw * gh
      && Summed(sums, counts, m, gw, gh, PixelAt(m, 0, m.height))
    ensures |sums| == |counts| == gw * gh
    ensures Mean(m, gw, gh, c) == if counts[c] > 0 then sums[c] / counts[c] else 0
  {
    hide *;
    var n := PixelAt(m, 0, m.height);
    LastRow(m);
    SummedAt(sums, counts, m, gw, gh, n, c);
    MeanOf(m, gw, gh, c, n);
  }

  lemma {:induction false} LastRow(m: Image)
    ensures PixelAt(m, 0, m.height) == m.width * m.height
  {
    assert m.height * m.width == m.width * m.height;
  }

  lemma {:induction false} SummedAt(sums: seq<nat>, counts: seq<nat>, m: Image, gw: nat, gh: nat, k: nat, c: nat)
    requires ValidImage(m) && gw > 0 && gh > 0 && c < gw * gh && Summed(sums, counts, m, gw, gh, k)
    ensures |sums| == |counts| == gw * gh && sums[c] == SumIn(m, gw, gh, c, k) && counts[c] == CountIn(m, gw, gh, c, k)
  {
    hide SumIn, CountIn, ValidImage;
  }

  lemma {:induction false} MeanOf(m: Image, gw: nat, gh: nat, c: nat, n: nat)
    requires ValidImage(m) && gw > 0 && gh > 0 && n == m.width * m.height
    ensures var sum, count := SumIn(m, gw, gh, c, n), CountIn(m, gw, gh, c, n);
      Mean(m, gw, gh, c) == if count > 0 then sum / count else 0
  {
    hide SumIn, CountIn, ValidImage;
  }
}
