/**
 The analysis of one camera: it follows the recording behind the present, window after window, and
 hands every frame of each window's walk to the analyzer.
 */
module AnalysisWorker {
  import opened Bytes
  import opened FrameWalk

  const WINDOW_MS: int := 30000

  datatype Window = Window(from: int, to: int, step: int)

  /** What the `n`-th window opened finds. */
  datatype Supply = Supply(opening: Option<nat>, input: seq<Read>, outputs: nat -> bool)

  /** `seen` are the instants handed to the analyzer; `writes` the progress saved, of which `saved` is the last. */
  datatype State = State(at: int, walk: Option<Walk>, until: int, windows: seq<Window>, seen: seq<int>, saved: int,
      writes: seq<int>)

  function Start(at: int): State {
    State(at, None, 0, [], [], at, [])
  }

  function Max(a: int, b: int): int {
    if a >= b then a else b
  }

  function Min(a: int, b: int): int {
    if a <= b then a else b
  }

  function OpenWindow(world: nat -> Supply, step: int, st: State, target: int): State {
    var until, s := Min(st.at + WINDOW_MS, target), world(|st.windows|);
    st.(until := until, windows := st.windows + [Window(st.at, until, step)],
      walk := Begin(st.at, until, step, s.opening, s.input))
  }

  predicate Ready(st: State) {
    st.windows != [] && (st.walk.Some? ==> st.walk.value.ts > 0)
  }

  /** Takes the next frame of the open walk, or ends its window. */
  function TakeFrame(world: nat -> Supply, st: State): State
    requires Ready(st) && st.walk.Some?
  {
    var r := NextFrame(world(|st.windows| - 1).outputs, st.walk.value);
    match r.frame
    case None => st.(walk := None, at := Max(st.at, st.until))
    case Some(ms) => st.(walk := Some(r.walk), at := Max(st.at, ms + 1), seen := st.seen + [ms])
  }

  datatype Outcome = Outcome(moved: bool, st: State)

  function StepWalk(world: nat -> Supply, step: int, st: State, target: int): Outcome
    requires st.walk.Some? ==> Ready(st)
  {
    if st.walk.Some? then Outcome(true, TakeFrame(world, st))
    else if st.at >= target then Outcome(false, st)
    else
      var o := OpenWindow(world, step, st, target);
      if o.walk.None? then Outcome(true, o.(at := o.until)) else Outcome(true, TakeFrame(world, o))
  }

  function Save(st: State): State {
    if st.at <= st.saved then st else st.(saved := st.at, writes := st.writes + [st.at])
  }

  /** The walk is that of the last window, and what it may still give is not behind. */
  ghost predicate Good(st: State) {
    st.walk.Some? ==>
      st.windows != []
      && var w, last := st.walk.value, st.windows[|st.windows| - 1];
        Inv(w, last.from) && w.to == st.until == last.to && w.target >= st.at
  }

  /** How far a round is from its end. */
  ghost function Distance(st: State, target: int): nat {
    if st.at > target then 0 else 2 * (target + 1 - st.at) + (if st.walk.Some? then 1 else 0)
  }

  lemma {:induction false} TakeFrameGood(world: nat -> Supply, st: State)
    requires Good(st) && st.walk.Some?
    ensures var r := TakeFrame(world, st);
      Good(r) && r.windows == st.windows && r.until == st.until && st.at <= r.at <= Max(st.at, st.until + 1)
      && (if r.walk.None? then r.seen == st.seen && r.at >= st.until
        else r.seen == st.seen + [r.at - 1] && st.at < r.at)
      && r.saved == st.saved && r.writes == st.writes
  {
    hide Inv;
    var last := st.windows[|st.windows| - 1];
    assert st.walk.value.ts > 0 && st.walk.value.step > 0 by { InvPositive(st.walk.value, last.from); }
    NextFrameInv(world(|st.windows| - 1).outputs, st.walk.value, last.from);
  }

  lemma {:induction false} InvPositive(w: Walk, from: int)
    requires Inv(w, from)
    ensures w.ts > 0 && w.step > 0
  {
  }

  lemma {:induction false} OpenWindowGood(world: nat -> Supply, step: int, st: State, target: int)
    requires Good(st) && st.walk.None? && st.at < target
    ensures Good(OpenWindow(world, step, st, target)) && st.at < OpenWindow(world, step, st, target).until <= target
    ensures OpenWindow(world, step, st, target).until <= st.at + WINDOW_MS
  {
    var s, until := world(|st.windows|), Min(st.at + WINDOW_MS, target);
    hide Inv;
    if step > 0 {
      BeginInv(st.at, until, step, s.opening, s.input);
      BeginShape(st.at, until, step, s.opening, s.input);
    }
  }

  lemma {:induction false} BeginShape(from: int, to: int, step: int, opening: Option<nat>, input: seq<Read>)
    requires from < to && step > 0
    ensures var w := Begin(from, to, step, opening, input).value; w.to == to && w.target == from
  {
  }

  /** A step keeps time going forward, never past the target by more than one, and brings the round nearer its end. */
  lemma {:induction false} StepGood(world: nat -> Supply, step: int, st: State, target: int)
    requires Good(st) && (st.walk.Some? ==> st.until <= target)
    ensures st.walk.Some? ==> Ready(st)
    ensures var o := StepWalk(world, step, st, target);
      Good(o.st) && st.at <= o.st.at <= Max(st.at, target + 1) && o.st.saved == st.saved && o.st.writes == st.writes
      && (o.st.walk.Some? ==> o.st.until <= target)
      && (o.moved && st.at <= target ==> Distance(o.st, target) < Distance(st, target))
      && (!o.moved ==> o.st == st && st.at >= target)
  {
    hide Inv, NextFrame, Begin;
    if st.walk.Some? {
      InvPositive(st.walk.value, st.windows[|st.windows| - 1].from);
      TakeFrameGood(world, st);
    } else if st.at < target {
      OpenWindowGood(world, step, st, target);
      var o := OpenWindow(world, step, st, target);
      if o.walk.Some? {
        TakeFrameGood(world, o);
      }
    }
  }

  ghost predicate NeverStops(stops: nat -> bool) {
    forall k :: !stops(k)
  }

  /** A round: until the target, the stop signal, or nothing more to do; progress is saved now and then. */
  ghost function Round(world: nat -> Supply, step: int, st: State, target: int, stops: nat -> bool, n: nat): State
    requires Good(st) && (st.walk.Some? ==> st.until <= target)
    decreases Distance(st, target)
  {
    if stops(n) || st.at > target then Save(st)
    else
      StepGood(world, step, st, target);
      var o := StepWalk(world, step, st, target);
      if !o.moved then Save(o.st)
      else Round(world, step, if (n + 1) % 30 == 0 then Save(o.st) else o.st, target, stops, n + 1)
  }

  // ------------------------------------------------------------ nothing is left out

  /** Each window starts where the one before ended, or at the very next millisecond; none is longer than it may be. */
  ghost predicate Chained(ws: seq<Window>, start: int) {
    (ws != [] ==> ws[0].from == start)
    && (forall i :: 0 <= i < |ws| ==> ws[i].from < ws[i].to <= ws[i].from + WINDOW_MS)
    && forall i, j :: 0 <= i && j == i + 1 && j < |ws| ==> ws[i].to <= ws[j].from <= ws[i].to + 1
  }

  ghost predicate Increasing(xs: seq<int>, lo: int, hi: int) {
    (forall i :: 0 <= i < |xs| ==> lo <= xs[i] < hi) && forall i, j :: 0 <= i < j < |xs| ==> xs[i] < xs[j]
  }

  ghost predicate Covers(st: State, start: int) {
    Chained(st.windows, start) && start <= st.at
    && (st.windows == [] ==> st.at == start && st.walk.None?)
    && (st.windows != [] ==>
      var last := st.windows[|st.windows| - 1];
      last.to == st.until && st.at <= last.to + 1 && (if st.walk.None? then last.to else last.from) <= st.at)
    && Increasing(st.seen, start, st.at)
    && st.saved <= st.at && Increasing(st.writes, start, st.saved + 1) && start <= st.saved
  }

  lemma {:induction false} IncreasingAppend(xs: seq<int>, lo: int, hi: int, x: int)
    requires Increasing(xs, lo, hi) && hi <= x && lo <= x
    ensures Increasing(xs + [x], lo, x + 1)
  {
  }

  lemma {:induction false} IncreasingLater(xs: seq<int>, lo: int, hi: int, later: int)
    requires Increasing(xs, lo, hi) && hi <= later
    ensures Increasing(xs, lo, later)
  {
  }

  lemma {:induction false} TakeFrameCovers(world: nat -> Supply, st: State, start: int)
    requires Good(st) && Covers(st, start) && st.walk.Some? && Ready(st)
    ensures Covers(TakeFrame(world, st), start)
  {
    hide Inv, Increasing, Chained, NextFrame;
    var r := TakeFrame(world, st);
    TakeFrameGood(world, st);
    TakeFrameAt(world, st);
    if r.walk.None? {
      IncreasingLater(st.seen, start, st.at, r.at);
    } else {
      IncreasingAppend(st.seen, start, st.at, r.at - 1);
    }
  }

  /** A frame of the window is at or after the instant reached, and not past the window. */
  lemma {:induction false} TakeFrameAt(world: nat -> Supply, st: State)
    requires Good(st) && st.walk.Some? && Ready(st)
    ensures var r := TakeFrame(world, st);
      r.at <= Max(st.at, st.until + 1) && (r.walk.Some? ==> st.at <= r.at - 1 <= st.until)
  {
    hide Inv;
    NextFrameInv(world(|st.windows| - 1).outputs, st.walk.value, st.windows[|st.windows| - 1].from);
  }

  lemma {:induction false} OpenWindowCovers(world: nat -> Supply, step: int, st: State, target: int, start: int)
    requires Good(st) && Covers(st, start) && st.walk.None? && st.at < target
    ensures var o := OpenWindow(world, step, st, target);
      if o.walk.Some? then Covers(o, start) else Covers(o.(at := o.until), start)
  {
    hide Inv, Increasing, Begin;
    OpenWindowGood(world, step, st, target);
    var o := OpenWindow(world, step, st, target);
    ChainedAppend(st.windows, start, Window(st.at, o.until, step));
    IncreasingLater(st.seen, start, st.at, o.until);
  }

  lemma {:induction false} ChainedAppend(ws: seq<Window>, start: int, w: Window)
    requires Chained(ws, start) && w.from < w.to <= w.from + WINDOW_MS
    requires if ws == [] then w.from == start else ws[|ws| - 1].to <= w.from <= ws[|ws| - 1].to + 1
    ensures Chained(ws + [w], start)
  {
  }

  lemma {:induction false} StepCovers(world: nat -> Supply, step: int, st: State, target: int, start: int)
    requires Good(st) && Covers(st, start) && (st.walk.Some? ==> st.until <= target && Ready(st))
    ensures Covers(StepWalk(world, step, st, target).st, start)
  {
    hide Inv, Covers, NextFrame, Begin, Ready, TakeFrame;
    if st.walk.Some? {
      TakeFrameCovers(world, st, start);
    } else if st.at < target {
      OpenWindowCovers(world, step, st, target, start);
      OpenWindowGood(world, step, st, target);
      var o := OpenWindow(world, step, st, target);
      if o.walk.Some? {
        assert Ready(o) by { GoodReady(o); }
        TakeFrameCovers(world, o, start);
      }
    }
  }

  lemma {:induction false} GoodReady(st: State)
    requires Good(st) && st.walk.Some?
    ensures Ready(st)
  {
  }

  lemma {:induction false} SaveKeeps(st: State, start: int)
    requires Covers(st, start)
    ensures Covers(Save(st), start) && Save(st).at == st.at && Save(st).walk == st.walk && Save(st).until == st.until
    ensures Save(st).saved == st.at
    ensures Good(st) ==> Good(Save(st))
  {
    hide Inv, Chained;
    if st.at > st.saved {
      IncreasingAppend(st.writes, start, st.saved + 1, st.at);
      hide Increasing;
    }
  }

  /**
   A round keeps the windows chained, hands over instants that only rise, never moves time back or past
   the target by more than one; and unless it is stopped it reaches the target. At its end all progress is saved.
   */
  lemma {:induction false} RoundCovers(world: nat -> Supply, step: int, st: State, target: int, stops: nat -> bool,
      n: nat, start: int)
    requires Good(st) && Covers(st, start) && (st.walk.Some? ==> st.until <= target)
    ensures var r := Round(world, step, st, target, stops, n);
      Good(r) && Covers(r, start) && (r.walk.Some? ==> r.until <= target)
      && st.at <= r.at <= Max(st.at, target + 1)
      && (NeverStops(stops) ==> r.at >= target) && r.saved == r.at
    decreases Distance(st, target)
  {
    hide Inv, Covers, Good;
    SaveKeeps(st, start);
    if !(stops(n) || st.at > target) {
      StepGood(world, step, st, target);
      StepCovers(world, step, st, target, start);
      var o := StepWalk(world, step, st, target);
      hide StepWalk, Distance, Save;
      SaveKeeps(o.st, start);
      if o.moved {
        var next := if (n + 1) % 30 == 0 then Save(o.st) else o.st;
        assert Distance(next, target) == Distance(o.st, target) by { SaveDistance(o.st, target); }
        RoundCovers(world, step, next, target, stops, n + 1, start);
      }
    }
  }

  lemma {:induction false} SaveDistance(st: State, target: int)
    ensures Distance(Save(st), target) == Distance(st, target)
  {
  }

  // ------------------------------------------------------------ whole runs

  /** A round as it comes: how far it may go, the pace in use, when it is told to stop. */
  datatype Turn = Turn(target: int, step: int, stops: nat -> bool)

  /** The clock does not go back: targets do not fall. */
  predicate Rising(turns: seq<Turn>) {
    forall i, j :: 0 <= i < j < |turns| ==> turns[i].target <= turns[j].target
  }

  lemma {:induction false} StartCovers(start: int)
    ensures Good(Start(start)) && Covers(Start(start), start)
  {
  }

  /** After the first `n` rounds: at every moment of every run nothing is left out and time stays in bounds. */
  ghost function Run(world: nat -> Supply, start: int, turns: seq<Turn>, n: nat): (st: State)
    requires n <= |turns| && Rising(turns)
    ensures Good(st) && Covers(st, start) && (st.walk.Some? ==> n > 0 && st.until <= turns[n - 1].target)
    ensures st.at <= if n == 0 then start else Max(start, turns[n - 1].target + 1)
    ensures n > 0 ==> st.at >= Run(world, start, turns, n - 1).at
    ensures n > 0 && NeverStops(turns[n - 1].stops) ==> st.at >= turns[n - 1].target
    ensures st.saved == st.at
  {
    hide Good, Covers, Round, NeverStops;
    if n == 0 then
      StartCovers(start);
      Start(start)
    else
      var before, turn := Run(world, start, turns, n - 1), turns[n - 1];
      RoundCovers(world, turn.step, before, turn.target, turn.stops, 0, start);
      Round(world, turn.step, before, turn.target, turn.stops, 0)
  }

  /** Every instant up to the one reached lies in a window that was opened. */
  lemma {:induction false} NoHole(st: State, start: int, t: int) returns (i: nat)
    requires Covers(st, start) && start <= t < st.at
    ensures i < |st.windows| && st.windows[i].from <= t <= st.windows[i].to
  {
    i := WindowOf(st.windows, start, t);
  }

  lemma {:induction false} WindowOf(ws: seq<Window>, start: int, t: int) returns (i: nat)
    requires ws != [] && Chained(ws, start) && start <= t <= ws[|ws| - 1].to
    ensures i < |ws| && ws[i].from <= t <= ws[i].to
    decreases |ws|
  {
    var n := |ws| - 1;
    if ws[n].from <= t {
      i := n;
    } else {
      assert ws[n].from <= ws[n - 1].to + 1;
      i := WindowOf(ws[..n], start, t);
    }
  }

  /** What the run handed over is one rising sequence, as joining events needs. */
  lemma {:induction false} SeenRises(world: nat -> Supply, start: int, turns: seq<Turn>, n: nat)
    requires n <= |turns| && Rising(turns)
    ensures var st := Run(world, start, turns, n);
      (forall i, j :: 0 <= i < j < |st.seen| ==> st.seen[i] < st.seen[j])
      && (forall i :: 0 <= i < |st.seen| ==> start <= st.seen[i] < st.at)
      && (forall i, j :: 0 <= i < j < |st.writes| ==> st.writes[i] < st.writes[j]) && st.saved <= st.at
  {
    var st := Run(world, start, turns, n);
    hide Run;
  }

  // ------------------------------------------------------------ the worker itself

  class Worker {
    const world: nat -> Supply
    var at: int
    var walk: Walker?
    var until: int
    var saved: int
    var count: nat
    ghost var windows: seq<Window>
    ghost var seen: seq<int>
    ghost var writes: seq<int>

    ghost function Now(): State
      reads this, walk
    {
      State(at, if walk == null then None else Some(walk.Now()), until, windows, seen, saved, writes)
    }

    /** The walk decodes with the supply of the last window. */
    ghost predicate Valid()
      reads this, walk
    {
      count == |windows| && Good(Now()) && (walk != null ==> walk.outputs == world(|windows| - 1).outputs)
    }

    constructor (w: nat -> Supply, start: int)
      ensures Valid() && world == w && Now() == Start(start) && walk == null
    {
      world, at, walk, until, saved, count := w, start, null, 0, start, 0;
      windows, seen, writes := [], [], [];
    }

    method SaveProgress()
      requires Valid()
      modifies this`saved, this`writes
      ensures Valid() && Now() == Save(old(Now()))
    {
      if at <= saved {
        return;
      }
      saved := at;
      writes := writes + [at];
    }

    method Open(step: int, target: int)
      requires Valid() && walk == null && at < target
      modifies this
      ensures Valid() && Now() == OpenWindow(world, step, old(Now()), target) && (walk != null ==> fresh(walk))
    {
      hide Inv;
      OpenWindowGood(world, step, Now(), target);
      var s := world(count);
      var end := if at + WINDOW_MS <= target then at + WINDOW_MS else target;
      until := end;
      count := count + 1;
      windows := windows + [Window(at, end, step)];
      if end > at && step > 0 {
        walk := new Walker(at, end, step, s.opening, s.input, s.outputs);
      }
    }

    method Take()
      requires Valid() && walk != null
      modifies this, walk
      ensures old(Ready(Now())) && Valid() && Now() == TakeFrame(world, old(Now()))
        && (walk == null || walk == old(walk))
    {
      hide Inv, NextFrame;
      GoodReady(Now());
      TakeFrameGood(world, Now());
      var frame := walk.Pull();
      match frame {
        case None =>
          walk := null;
          at := if at >= until then at else until;
        case Some(ms) =>
          at := if at >= ms + 1 then at else ms + 1;
          seen := seen + [ms];
      }
    }

    /** One step towards `target`; false when there is nothing to do. */
    method Advance(step: int, target: int) returns (moved: bool)
      requires Valid() && (walk != null ==> until <= target)
      modifies this, walk
      ensures Valid() && (walk != null ==> until <= target) && (walk == null || walk == old(walk) || fresh(walk))
      ensures old(Now().walk.Some? ==> Ready(Now()))
        && Outcome(moved, Now()) == StepWalk(world, step, old(Now()), target)
    {
      hide Inv, NextFrame, TakeFrame, OpenWindow;
      StepGood(world, step, Now(), target);
      if walk == null {
        if at >= target {
          return false;
        }
        OpenWindowGood(world, step, Now(), target);
        Open(step, target);
        if walk == null {
          at := until;
          return true;
        }
      }
      Take();
      moved := true;
    }

    /** One round, up to `target`, the stop signal or nothing more to do. */
    method DoRound(step: int, target: int, stops: nat -> bool)
      requires Valid() && (walk != null ==> until <= target)
      modifies this, walk
      ensures Valid() && Now() == Round(world, step, old(Now()), target, stops, 0)
    {
      hide Inv, StepWalk, Save;
      var n := 0;
      ghost var start := Now();
      while !stops(n) && at <= target
        invariant Valid() && (walk != null ==> until <= target) && (walk == null || walk == old(walk) || fresh(walk))
        invariant Round(world, step, Now(), target, stops, n) == Round(world, step, start, target, stops, 0)
        decreases Distance(Now(), target)
      {
        ghost var before := Now();
        StepGood(world, step, before, target);
        var moved := Advance(step, target);
        if !moved {
          break;
        }
        SaveDistance(Now(), target);
        n := n + 1;
        if n % 30 == 0 {
          SaveProgress();
        }
      }
      SaveProgress();
    }
  }
}
