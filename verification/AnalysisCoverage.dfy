/**
 What the analysis of a whole run must have looked at: every frame due in every window, told from what reading finds
 and what the decoder answers. The rounds and windows are in the module of the worker.
 */
module AnalysisCoverage {
  import opened Bytes
  import opened FrameWalk
  import opened WalkCoverage
  import opened AnalysisWorker

  /** The frames due in a window: none where nothing is recorded or the pace is not positive. */
  ghost function DueIn(s: Supply, w: Window): seq<int> {
    if w.to <= w.from || w.step <= 0 || s.opening.None? then []
    else Paced(Answered(s.outputs, Due(s.outputs, w.to, s.opening.value, s.input)), w.from, w.step).given
  }

  /** The frames due in the windows, one window after the other. */
  ghost function DueInAll(world: nat -> Supply, ws: seq<Window>): seq<int> {
    if ws == [] then []
    else
      var n := |ws| - 1;
      DueInAll(world, ws[..n]) + DueIn(world(n), ws[n])
  }

  /** The walk of a window after `n` frames were asked for, of which it gave `part`. */
  ghost predicate Asked(s: Supply, w: Window, walk: Walk, part: seq<int>, n: nat) {
    var b := Begin(w.from, w.to, w.step, s.opening, s.input);
    b.Some? && b.value.ts > 0 && PullMany(s.outputs, b.value, n) == Pulled(walk, part)
  }

  /** Of the last window `part` was seen: all that is due once its walk is over, and before that what the walk gave. */
  ghost predicate SeenOf(s: Supply, w: Window, walk: Option<Walk>, part: seq<int>) {
    match walk
    case None => part == DueIn(s, w)
    case Some(k) => exists n: nat :: Asked(s, w, k, part, n)
  }

  ghost predicate Shows(world: nat -> Supply, st: State) {
    if st.windows == [] then st.seen == [] && st.walk.None?
    else
      var n := |st.windows| - 1;
      exists part :: st.seen == DueInAll(world, st.windows[..n]) + part
        && SeenOf(world(n), st.windows[n], st.walk, part)
  }

  // ------------------------------------------------------------ one window

  /** A walk over nothing recorded gives nothing. */
  lemma {:induction false} NothingRecorded(s: Supply, w: Window, n: nat)
    requires s.opening.None? && w.from < w.to && w.step > 0
    ensures var b := Begin(w.from, w.to, w.step, s.opening, s.input).value;
      b.ts > 0 && PullMany(s.outputs, b, n) == Pulled(b, [])
    decreases n
  {
    if n > 0 {
      NothingRecorded(s, w, n - 1);
      DoneStays(s.outputs, Begin(w.from, w.to, w.step, s.opening, s.input).value);
      hide NextFrame;
    }
  }

  lemma {:induction false} GivesDue(s: Supply, w: Window, n: nat)
    requires w.from < w.to && w.step > 0
    ensures var b := Begin(w.from, w.to, w.step, s.opening, s.input);
      b.Some? && b.value.ts > 0
      && var due := DueIn(s, w);
        PullMany(s.outputs, b.value, n).frames == due[..if n < |due| then n else |due|]
  {
    if s.opening.None? {
      NothingRecorded(s, w, n);
      hide PullMany;
      assert DueIn(s, w)[..0] == [];
    } else {
      BeginTo(w.from, w.to, w.step, s.opening.value, s.input);
      WalkGivesAll(s.outputs, w.from, w.to, w.step, s.opening.value, s.input, n);
      hide PullMany, Begin, Paced, Answered, Due;
    }
  }

  lemma {:induction false} BeginBounds(s: Supply, w: Window)
    ensures Begin(w.from, w.to, w.step, s.opening, s.input).Some? <==> w.from < w.to && w.step > 0
  {
  }

  lemma {:induction false} PullOne(outputs: nat -> bool, b: Walk, n: nat)
    requires b.ts > 0
    ensures var before := PullMany(outputs, b, n);
      before.walk.ts > 0
      && var next := NextFrame(outputs, before.walk);
        PullMany(outputs, b, n + 1)
          == Pulled(next.walk, before.frames + (if next.frame.Some? then [next.frame.value] else []))
  {
    hide NextFrame;
    KeepsScale(outputs, PullMany(outputs, b, n).walk);
  }

  /** The next frame is asked for: it is one more of the part seen, or the part is all that is due. */
  lemma {:induction false} AskedOnce(s: Supply, w: Window, walk: Walk, part: seq<int>, n: nat)
    requires Asked(s, w, walk, part, n)
    ensures walk.ts > 0
    ensures var r := NextFrame(s.outputs, walk);
      match r.frame
      case Some(ms) => Asked(s, w, r.walk, part + [ms], n + 1)
      case None => part == DueIn(s, w)
  {
    hide NextFrame, PullMany, Begin, DueIn;
    BeginBounds(s, w);
    var b := Begin(w.from, w.to, w.step, s.opening, s.input).value;
    PullOne(s.outputs, b, n);
    GivesDue(s, w, n);
    GivesDue(s, w, n + 1);
    var due := DueIn(s, w);
    if NextFrame(s.outputs, walk).frame.None? {
      assert part == PullMany(s.outputs, b, n + 1).frames;
      assert |due[..if n < |due| then n else |due|]| == |due[..if n + 1 < |due| then n + 1 else |due|]|;
      assert due[..|due|] == due;
    }
  }

  // ------------------------------------------------------------ whole runs

  lemma {:induction false} TakeFrameShows(world: nat -> Supply, st: State)
    requires st.windows != [] && st.walk.Some? && Shows(world, st)
    ensures st.walk.value.ts > 0 && Shows(world, TakeFrame(world, st))
  {
    hide NextFrame, Asked, DueIn, DueInAll;
    var n := |st.windows| - 1;
    var before := DueInAll(world, st.windows[..n]);
    var part :| st.seen == before + part && SeenOf(world(n), st.windows[n], st.walk, part);
    var k: nat :| Asked(world(n), st.windows[n], st.walk.value, part, k);
    AskedOnce(world(n), st.windows[n], st.walk.value, part, k);
    var r := NextFrame(world(n).outputs, st.walk.value);
    if r.frame.Some? {
      var ms := r.frame.value;
      ConcatAssociative(before, part, [ms]);
      assert Asked(world(n), st.windows[n], r.walk, part + [ms], k + 1);
      assert SeenOf(world(n), st.windows[n], Some(r.walk), part + [ms]);
    } else {
      assert SeenOf(world(n), st.windows[n], None, part);
    }
  }

  lemma {:induction false} AllSeen(world: nat -> Supply, st: State)
    requires Shows(world, st) && st.walk.None?
    ensures st.seen == DueInAll(world, st.windows)
  {
    hide DueIn;
  }

  lemma {:induction false} OpenWindowShows(world: nat -> Supply, step: int, st: State, target: int)
    requires Shows(world, st) && st.walk.None?
    ensures Shows(world, OpenWindow(world, step, st, target)) && OpenWindow(world, step, st, target).windows != []
  {
    AllSeen(world, st);
    hide DueInAll, Begin, DueIn, Shows, SeenOf;
    var o := OpenWindow(world, step, st, target);
    var n := |st.windows|;
    assert o.windows[..n] == st.windows;
    assert st.seen + [] == st.seen;
    WindowOpened(world(n), o.windows[n]);
    ShowsPart(world, o, []);
  }

  /** A walk just begun gave nothing; where none begins, nothing is due. */
  lemma {:induction false} WindowOpened(s: Supply, w: Window)
    ensures SeenOf(s, w, Begin(w.from, w.to, w.step, s.opening, s.input), [])
  {
    hide Begin, DueIn;
    var walk := Begin(w.from, w.to, w.step, s.opening, s.input);
    BeginBounds(s, w);
    if walk.Some? {
      GivesDue(s, w, 0);
      NothingAsked(s.outputs, walk.value);
      assert Asked(s, w, walk.value, [], 0);
    } else {
      NothingDue(s, w);
    }
  }

  lemma {:induction false} NothingDue(s: Supply, w: Window)
    requires !(w.from < w.to && w.step > 0)
    ensures DueIn(s, w) == []
  {
  }

  lemma {:induction false} ShowsPart(world: nat -> Supply, st: State, part: seq<int>)
    requires st.windows != []
    requires var n := |st.windows| - 1;
      st.seen == DueInAll(world, st.windows[..n]) + part && SeenOf(world(n), st.windows[n], st.walk, part)
    ensures Shows(world, st)
  {
    hide SeenOf, DueInAll;
  }

  lemma {:induction false} NothingAsked(outputs: nat -> bool, w: Walk)
    requires w.ts > 0
    ensures PullMany(outputs, w, 0) == Pulled(w, [])
  {
  }

  lemma {:induction false} StepShows(world: nat -> Supply, step: int, st: State, target: int)
    requires Shows(world, st) && (st.walk.Some? ==> Ready(st))
    ensures Shows(world, StepWalk(world, step, st, target).st)
  {
    hide Shows, TakeFrame, Begin, OpenWindow;
    if st.walk.Some? {
      TakeFrameShows(world, st);
    } else if st.at < target {
      OpenWindowShows(world, step, st, target);
      var o := OpenWindow(world, step, st, target);
      ElsewhereShows(world, o, o.until);
      if o.walk.Some? {
        TakeFrameShows(world, o);
      }
    }
  }

  lemma {:induction false} ElsewhereShows(world: nat -> Supply, st: State, at: int)
    requires Shows(world, st)
    ensures Shows(world, st.(at := at))
  {
    hide SeenOf, DueInAll;
  }

  lemma {:induction false} SaveShows(world: nat -> Supply, st: State)
    requires Shows(world, st)
    ensures Shows(world, Save(st))
  {
    hide SeenOf, DueInAll;
  }

  lemma {:induction false} RoundShows(world: nat -> Supply, step: int, st: State, target: int, stops: nat -> bool,
      n: nat)
    requires Good(st) && (st.walk.Some? ==> st.until <= target) && Shows(world, st)
    ensures Shows(world, Round(world, step, st, target, stops, n))
    decreases Distance(st, target)
  {
    hide Good, Shows, StepWalk, Save, Distance;
    SaveShows(world, st);
    if !(stops(n) || st.at > target) {
      StepGood(world, step, st, target);
      StepShows(world, step, st, target);
      var o := StepWalk(world, step, st, target);
      SaveShows(world, o.st);
      if o.moved {
        var next := if (n + 1) % 30 == 0 then Save(o.st) else o.st;
        SaveGood(o.st);
        SaveDistance(o.st, target);
        RoundShows(world, step, next, target, stops, n + 1);
      }
    }
  }

  lemma {:induction false} SaveGood(st: State)
    requires Good(st)
    ensures Good(Save(st)) && Save(st).walk == st.walk && Save(st).until == st.until
  {
    hide Inv;
  }

  lemma {:induction false} RunShows(world: nat -> Supply, start: int, turns: seq<AnalysisWorker.Turn>, n: nat)
    requires n <= |turns| && Rising(turns)
    ensures Shows(world, Run(world, start, turns, n))
    decreases n
  {
    hide Good, Covers, Round, NeverStops, Shows, SeenOf;
    if n == 0 {
      assert Shows(world, Start(start)) by { StartShows(world, start); }
    } else {
      RunShows(world, start, turns, n - 1);
      var before, turn := Run(world, start, turns, n - 1), turns[n - 1];
      RoundShows(world, turn.step, before, turn.target, turn.stops, 0);
    }
  }

  lemma {:induction false} StartShows(world: nat -> Supply, start: int)
    ensures Shows(world, Start(start))
  {
  }

  /**
   Over a whole run of rounds, however they are stopped: what was handed to the analyzer is, window after window, every
   frame due in it, in order and once; of a window still under way, the first of them.
   */
  lemma {:induction false} RunMissesNothing(world: nat -> Supply, start: int, turns: seq<AnalysisWorker.Turn>, n: nat)
      returns (k: nat)
    requires n <= |turns| && Rising(turns)
    ensures var st := Run(world, start, turns, n);
      var m := |st.windows|;
      if m == 0 then st.seen == []
      else
        var last := DueIn(world(m - 1), st.windows[m - 1]);
        k <= |last| && st.seen == DueInAll(world, st.windows[..m - 1]) + last[..k] && (st.walk.None? ==> k == |last|)
  {
    RunShows(world, start, turns, n);
    hide *;
    k := ShownTells(world, Run(world, start, turns, n));
  }

  lemma {:induction false} ShownTells(world: nat -> Supply, st: State) returns (k: nat)
    requires Shows(world, st)
    ensures var m := |st.windows|;
      if m == 0 then st.seen == []
      else
        var last := DueIn(world(m - 1), st.windows[m - 1]);
        k <= |last| && st.seen == DueInAll(world, st.windows[..m - 1]) + last[..k] && (st.walk.None? ==> k == |last|)
  {
    hide DueIn, DueInAll, Asked;
    k := 0;
    if st.windows != [] {
      var m := |st.windows| - 1;
      var last := DueIn(world(m), st.windows[m]);
      var part :| st.seen == DueInAll(world, st.windows[..m]) + part
        && SeenOf(world(m), st.windows[m], st.walk, part);
      if st.walk.None? {
        k := |last|;
        assert last[..k] == last;
      } else {
        var i: nat :| Asked(world(m), st.windows[m], st.walk.value, part, i);
        AskedPrefix(world(m), st.windows[m], st.walk.value, part, i);
        k := |part|;
      }
    }
  }

  lemma {:induction false} AskedPrefix(s: Supply, w: Window, walk: Walk, part: seq<int>, n: nat)
    requires Asked(s, w, walk, part, n)
    ensures part <= DueIn(s, w)
  {
    hide PullMany, Begin, DueIn;
    BeginBounds(s, w);
    GivesDue(s, w, n);
  }
}
