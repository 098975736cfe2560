/**
 A walk through recordings that hands out decoded frames at a pace. What reading finds, whether a file
 opens and whether a sample makes the decoder give a frame are inputs that may be anything.
 */
module FrameWalk {
  import opened Bytes
  import opened Blocks

  const MAX_SILENT: nat := 10000

  /** What the next reading finds: a block of the file open; or its end and the next file, opened. */
  datatype Read = Got(block: Block) | NextFile(timescale: nat)

  /**
   The walk; `fed` are the samples decoded, file by file, `shown` the instants of all the frames that
   came out, `given` those handed out.
   */
  datatype Walk = Walk(
    to: int, step: int, target: int, input: seq<Read>, ts: nat, block: Option<Block>, idx: nat,
    waiting: bool, anchor: int, firstPts: int, done: bool, silent: nat,
    fed: seq<seq<Sample>>, decoded: nat, shown: seq<int>, given: seq<int>)

  /** A walk over a window: nothing when it is empty or the pace is not positive. */
  function Begin(from: int, to: int, step: int, opening: Option<nat>, input: seq<Read>): (w: Option<Walk>)
    ensures w.None? <==> to <= from || step <= 0
  {
    if to <= from || step <= 0 then None
    else
      Some(Walk(to, step, from, input, if opening.Some? then TicksPerSecond(opening.value) else 90000,
                None, 0, true, 0, 0, opening.None?, 0, [[]], 0, [], []))
  }

  function Enter(w: Walk, b: Block): Walk {
    w.(input := w.input[if w.input == [] then 0 else 1..], anchor := Anchor(b), firstPts := FirstPts(b.samples),
      idx := 0, block := Some(b))
  }

  /** The next block: of the file open, or the first of the next file. */
  function NextBlock(w: Walk): Option<Walk> {
    if w.input == [] then None
    else
      match w.input[0]
      case Got(b) => Some(Enter(w, b))
      case NextFile(t) =>
        if |w.input| < 2 || w.input[1].NextFile? then None
        else
          Some(Enter(w.(input := w.input[1..], ts := TicksPerSecond(t), waiting := true, fed := w.fed + [[]]),
            w.input[1].block))
  }

  datatype Turn = Again(walk: Walk) | Over(walk: Walk) | Frame(ms: int, walk: Walk)

  function Feed(w: Walk, s: Sample): Walk {
    var n := |w.fed| - 1;
    w.(decoded := w.decoded + 1, waiting := false, fed := if w.fed == [] then [[s]] else w.fed[n := w.fed[n] + [s]])
  }

  /** A sample decoded at instant `ms`. */
  function Decode(outputs: nat -> bool, w: Walk, s: Sample, ms: int): Turn {
    var f := Feed(w, s);
    if !outputs(w.decoded) then
      if f.silent + 1 > MAX_SILENT then Over(f.(silent := f.silent + 1, done := true))
        else Again(f.(silent := f.silent + 1))
    else
      var g := f.(silent := 0, shown := f.shown + [ms]);
      if ms < g.target then Again(g)
      else Frame(ms, g.(target := if g.target + g.step >= ms + 1 then g.target + g.step
        else ms + 1, given := g.given + [ms]))
  }

  predicate AtBlockEnd(w: Walk) {
    w.block.None? || w.idx >= |w.block.value.samples|
  }

  /** One turn of the loop. */
  function TakeTurn(outputs: nat -> bool, w: Walk): Turn
    requires w.ts > 0
  {
    if AtBlockEnd(w) then
      match NextBlock(w) case None => Over(w.(done := true)) case Some(n) => Again(n)
    else
      var s, passed := w.block.value.samples[w.idx], w.(idx := w.idx + 1);
      if s.track != 0 || s.size == 0 then Again(passed)
      else
        var ms := Instant(w.anchor, w.firstPts, s.pts, w.ts);
        if ms > w.to then Over(passed.(done := true))
        else if w.waiting && !IsKeyframe(s) then Again(passed)
        else Decode(outputs, passed, s, ms)
  }

  /** Samples left in the block. */
  function Left(w: Walk): nat {
    if AtBlockEnd(w) then 0 else |w.block.value.samples| - w.idx
  }

  lemma {:induction false} TurnAdvances(outputs: nat -> bool, w: Walk)
    requires w.ts > 0
    ensures var t := TakeTurn(outputs, w);
      t.walk.ts > 0
      && (t.Again? ==> |t.walk.input| < |w.input| || (|t.walk.input| == |w.input| && Left(t.walk) < Left(w)))
  {
  }

  datatype Next = Next(frame: Option<int>, walk: Walk)

  /** The next frame at the pace; None when the walk is over. */
  function NextFrame(outputs: nat -> bool, w: Walk): Next
    requires w.ts > 0
    decreases |w.input|, Left(w)
  {
    if w.done then Next(None, w)
    else
      TurnAdvances(outputs, w);
      match TakeTurn(outputs, w)
      case Again(n) => NextFrame(outputs, n)
      case Over(n) => Next(None, n)
      case Frame(ms, n) => Next(Some(ms), n)
  }

  // ------------------------------------------------------------ the pace

  datatype Pace = Pace(given: seq<int>, target: int)

  /** Frames picked at a pace: the first at or after the target, which then moves at least a step on. */
  function Paced(shown: seq<int>, from: int, step: int): Pace {
    if shown == [] then Pace([], from)
    else
      var p, ms := Paced(shown[..|shown| - 1], from, step), shown[|shown| - 1];
      if ms < p.target then p
      else Pace(p.given + [ms], if p.target + step >= ms + 1 then p.target + step else ms + 1)
  }

  lemma {:induction false} PacedAppend(shown: seq<int>, ms: int, from: int, step: int)
    ensures var p := Paced(shown, from, step);
      Paced(shown + [ms], from, step) == if ms < p.target then p
        else Pace(p.given + [ms], if p.target + step >= ms + 1 then p.target + step else ms + 1)
  {
    assert (shown + [ms])[..|shown|] == shown;
  }

  /** Strictly increasing, and the `k`-th not before `k` steps from the start. */
  ghost predicate Spread(given: seq<int>, from: int, step: int) {
    (forall j, k :: 0 <= j < k < |given| ==> given[j] < given[k])
    && forall k :: 0 <= k < |given| ==> given[k] >= from + k * step
  }

  lemma {:induction false} PacedSpread(shown: seq<int>, from: int, step: int)
    requires step > 0
    ensures var p := Paced(shown, from, step);
      Spread(p.given, from, step) && p.target >= from + |p.given| * step
      && forall k :: 0 <= k < |p.given| ==> p.given[k] < p.target
    decreases |shown|
  {
    if shown != [] {
      PacedSpread(shown[..|shown| - 1], from, step);
      var p := Paced(shown[..|shown| - 1], from, step);
      assert (|p.given| + 1) * step == |p.given| * step + step;
    }
  }

  // ------------------------------------------------------------ what every walk keeps

  /** Handed out is what the pace picks; no file's decoding starts before a keyframe; nothing past the end. */
  ghost predicate Inv(w: Walk, from: int) {
    w.ts > 0 && w.step > 0 && w.fed != []
    && Pace(w.given, w.target) == Paced(w.shown, from, w.step)
    && (forall k :: 0 <= k < |w.shown| ==> w.shown[k] <= w.to)
    && (w.waiting <==> w.fed[|w.fed| - 1] == [])
    && FromKeyframes(w.fed)
  }

  ghost predicate FromKeyframes(fed: seq<seq<Sample>>) {
    forall f :: f in fed ==> f == [] || IsKeyframe(f[0])
  }

  lemma {:induction false} BeginInv(from: int, to: int, step: int, opening: Option<nat>, input: seq<Read>)
    requires from < to && step > 0
    ensures Inv(Begin(from, to, step, opening, input).value, from)
  {
  }

  lemma {:induction false} FeedKeyframes(w: Walk, s: Sample)
    requires w.fed != [] && FromKeyframes(w.fed) && (w.waiting <==> w.fed[|w.fed| - 1] == [])
      && (w.waiting ==> IsKeyframe(s))
    ensures FromKeyframes(Feed(w, s).fed) && Feed(w, s).fed != [] && Feed(w, s).fed[|Feed(w, s).fed| - 1] != []
  {
    var n := |w.fed| - 1;
    forall f | f in Feed(w, s).fed
      ensures f == [] || IsKeyframe(f[0])
    {
      assert f == w.fed[n] + [s] || f in w.fed;
      assert w.fed[n] in w.fed;
    }
  }

  lemma {:induction false} DecodeInv(outputs: nat -> bool, w: Walk, s: Sample, ms: int, from: int)
    requires Inv(w, from) && ms <= w.to && (w.waiting ==> IsKeyframe(s))
    ensures var t := Decode(outputs, w, s, ms); Inv(t.walk, from) && t.walk.to == w.to && t.walk.step == w.step
  {
    hide Paced, FromKeyframes, IsKeyframe;
    FeedKeyframes(w, s);
    PacedAppend(w.shown, ms, from, w.step);
  }

  lemma {:induction false} TurnInv(outputs: nat -> bool, w: Walk, from: int)
    requires Inv(w, from)
    ensures var t := TakeTurn(outputs, w); Inv(t.walk, from) && t.walk.to == w.to && t.walk.step == w.step
  {
    hide Paced, IsKeyframe, Decode, Instant, FirstPts, Anchor;
    if !AtBlockEnd(w) {
      var s := w.block.value.samples[w.idx];
      var ms := Instant(w.anchor, w.firstPts, s.pts, w.ts);
      if ms <= w.to && (w.waiting ==> IsKeyframe(s)) {
        DecodeInv(outputs, w.(idx := w.idx + 1), s, ms, from);
      }
    }
  }

  /** A frame taken is the next picked by the pace, at or after the target it had and within the window. */
  lemma {:induction false} NextFrameInv(outputs: nat -> bool, w: Walk, from: int)
    requires Inv(w, from)
    ensures var r := NextFrame(outputs, w);
      Inv(r.walk, from) && r.walk.to == w.to && r.walk.step == w.step
      && match r.frame
         case None => r.walk.done && r.walk.given == w.given && r.walk.target == w.target
         case Some(ms) =>
           (w.target <= ms <= w.to && r.walk.given == w.given + [ms]
            && r.walk.target >= ms + 1 && r.walk.target >= w.target + w.step)
    decreases |w.input|, Left(w)
  {
    if !w.done {
      TurnAdvances(outputs, w);
      TurnInv(outputs, w, from);
      TurnGiven(outputs, w);
      hide TakeTurn, Inv;
      var t := TakeTurn(outputs, w);
      if t.Again? {
        NextFrameInv(outputs, t.walk, from);
      }
    }
  }

  lemma {:induction false} TurnGiven(outputs: nat -> bool, w: Walk)
    requires w.ts > 0
    ensures var t := TakeTurn(outputs, w);
      match t
      case Again(n) => n.given == w.given && n.target == w.target
      case Over(n) => n.given == w.given && n.target == w.target && n.done
      case Frame(ms, n) =>
        w.target <= ms <= w.to && n.given == w.given + [ms] && n.target >= ms + 1 && n.target >= w.target + w.step
  {
    hide Instant, FirstPts, Anchor, IsKeyframe;
  }

  /** All the frames of a walk: strictly increasing, inside the window, the `k`-th at least `k` steps in. */
  lemma {:induction false} WalkSpread(w: Walk, from: int)
    requires Inv(w, from)
    ensures Spread(w.given, from, w.step) && forall k :: 0 <= k < |w.given| ==> from <= w.given[k] <= w.to
  {
    PacedSpread(w.shown, from, w.step);
    PacedFrom(w.shown, from, w.step);
    forall k | 0 <= k < |w.given|
      ensures from <= w.given[k] <= w.to
    {
      assert 0 <= k * w.step;
      assert w.given[k] in w.shown;
    }
  }

  lemma {:induction false} PacedFrom(shown: seq<int>, from: int, step: int)
    ensures forall x :: x in Paced(shown, from, step).given ==> x in shown
    decreases |shown|
  {
    if shown != [] {
      PacedFrom(shown[..|shown| - 1], from, step);
    }
  }

  // ------------------------------------------------------------ whole walks

  /** The walk after `n` frames were asked for, and the frames that came. */
  datatype Pulled = Pulled(walk: Walk, frames: seq<int>)

  function PullMany(outputs: nat -> bool, w: Walk, n: nat): (r: Pulled)
    requires w.ts > 0
    ensures r.walk.ts > 0
  {
    if n == 0 then Pulled(w, [])
    else
      var before := PullMany(outputs, w, n - 1);
      KeepsScale(outputs, before.walk);
      var next := NextFrame(outputs, before.walk);
      Pulled(next.walk, before.frames + (if next.frame.Some? then [next.frame.value] else []))
  }

  lemma {:induction false} KeepsScale(outputs: nat -> bool, w: Walk)
    requires w.ts > 0
    ensures NextFrame(outputs, w).walk.ts > 0
    decreases |w.input|, Left(w)
  {
    if !w.done {
      TurnAdvances(outputs, w);
      hide TakeTurn;
      var t := TakeTurn(outputs, w);
      if t.Again? {
        KeepsScale(outputs, t.walk);
      }
    }
  }

  lemma {:induction false} PulledInv(outputs: nat -> bool, w: Walk, n: nat, from: int)
    requires Inv(w, from) && w.given == []
    ensures var r := PullMany(outputs, w, n);
      Inv(r.walk, from) && r.walk.given == r.frames && r.walk.to == w.to && r.walk.step == w.step
    decreases n
  {
    assert w.ts > 0;
    hide Inv, NextFrame;
    if n > 0 {
      PulledInv(outputs, w, n - 1, from);
      NextFrameInv(outputs, PullMany(outputs, w, n - 1).walk, from);
    }
  }

  /**
   A whole walk, whatever is read, opened and decoded: the frames it gives rise strictly, lie in the window,
   the `k`-th at least `k` steps in; and what each opened file feeds its decoder begins with a keyframe.
   */
  lemma {:induction false} WholeWalk(outputs: nat -> bool, from: int, to: int, step: int, opening: Option<nat>,
      input: seq<Read>, n: nat)
    requires from < to && step > 0
    ensures var w := Begin(from, to, step, opening, input).value;
      w.ts > 0
      && var r := PullMany(outputs, w, n);
        Spread(r.frames, from, step) && (forall k :: 0 <= k < |r.frames| ==> from <= r.frames[k] <= to)
        && FromKeyframes(r.walk.fed)
  {
    BeginInv(from, to, step, opening, input);
    var w := Begin(from, to, step, opening, input).value;
    PulledInv(outputs, w, n, from);
    WalkSpread(PullMany(outputs, w, n).walk, from);
    InvKeyframes(PullMany(outputs, w, n).walk, from);
    hide PullMany, Inv, Spread;
  }

  lemma {:induction false} InvKeyframes(w: Walk, from: int)
    requires Inv(w, from)
    ensures FromKeyframes(w.fed)
  {
    hide Paced;
  }

  // ------------------------------------------------------------ the walker itself

  class Walker {
    const to: int
    const step: int
    const outputs: nat -> bool
    var target: int
    var input: seq<Read>
    var ts: nat
    var block: Option<Block>
    var idx: nat
    var waiting: bool
    var anchor: int
    var firstPts: int
    var done: bool
    var silent: nat
    var decoded: nat
    ghost var fed: seq<seq<Sample>>
    ghost var shown: seq<int>
    ghost var given: seq<int>

    ghost function Now(): Walk
      reads this
    {
      Walk(to, step, target, input, ts, block, idx, waiting, anchor, firstPts, done, silent, fed, decoded, shown, given)
    }

    constructor (from: int, end: int, pace: int, opening: Option<nat>, content: seq<Read>, out: nat -> bool)
      requires from < end && pace > 0
      ensures Begin(from, end, pace, opening, content) == Some(Now()) && outputs == out && Inv(Now(), from)
    {
      to, step, outputs, target, input := end, pace, out, from, content;
      ts := if opening.None? then 90000 else TicksPerSecond(opening.value);
      block, idx, waiting, anchor, firstPts := None, 0, true, 0, 0;
      done, silent, decoded := opening.None?, 0, 0;
      fed, shown, given := [[]], [], [];
    }

    method Advance() returns (ok: bool)
      modifies this
      ensures ok == NextBlock(old(Now())).Some?
      ensures Now() == if ok then NextBlock(old(Now())).value else old(Now())
    {
      hide Enter;
      if input == [] {
        return false;
      }
      match input[0] {
        case Got(b) => Take(b);
        case NextFile(t) =>
          if |input| < 2 || input[1].NextFile? {
            return false;
          }
          ts, waiting := TicksPerSecond(t), true;
          fed := fed + [[]];
          input := input[1..];
          Take(input[0].block);
      }
      ok := true;
    }

    /** Enters the block just read. */
    method Take(b: Block)
      requires input != []
      modifies this
      ensures Now() == Enter(old(Now()), b)
    {
      input := input[1..];
      anchor := if b.videoAnchor != 0 then b.videoAnchor else b.start;
      firstPts := FirstPts(b.samples);
      idx, block := 0, Some(b);
    }

    method Pull() returns (frame: Option<int>)
      requires ts > 0
      modifies this
      ensures Next(frame, Now()) == NextFrame(outputs, old(Now()))
    {
      if done {
        return None;
      }
      ghost var start := Now();
      while true
        invariant ts > 0 && !done && NextFrame(outputs, Now()) == NextFrame(outputs, start)
        decreases |input|, Left(Now())
      {
        TurnAdvances(outputs, Now());
        var turn := OneTurn();
        match turn {
          case Continue =>
          case Stop => return None;
          case Give(ms) => return Some(ms);
        }
      }
    }

    /** One turn of the loop of `Pull`. */
    method OneTurn() returns (what: Verdict)
      requires ts > 0 && !done
      modifies this
      ensures match TakeTurn(outputs, old(Now()))
        case Again(n) => what == Continue && Now() == n && !done
        case Over(n) => what == Stop && Now() == n
        case Frame(ms, n) => what == Give(ms) && Now() == n
    {
      hide Instant, NextBlock, FirstPts, Anchor, IsKeyframe, Decode;
      if block.None? || idx >= |block.value.samples| {
        var ok := Advance();
        if ok {
          assert !done by { NextBlockGoesOn(old(Now())); }
          return Continue;
        }
        done := true;
        return Stop;
      }
      var s := block.value.samples[idx];
      idx := idx + 1;
      if s.track != 0 || s.size == 0 {
        return Continue;
      }
      var ms := Instant(anchor, firstPts, s.pts, ts);
      if ms > to {
        done := true;
        return Stop;
      }
      if waiting && !IsKeyframe(s) {
        return Continue;
      }
      what := Show(s, ms);
    }

    method FeedDecoder(s: Sample) returns (out: bool)
      modifies this`waiting, this`fed, this`decoded
      ensures out == outputs(old(decoded)) && Now() == Feed(old(Now()), s)
    {
      waiting := false;
      fed := if fed == [] then [[s]] else fed[|fed| - 1 := fed[|fed| - 1] + [s]];
      out := outputs(decoded);
      decoded := decoded + 1;
    }

    /** Decodes a sample of instant `ms`. */
    method Show(s: Sample, ms: int) returns (what: Verdict)
      requires !done
      modifies this
      ensures match Decode(outputs, old(Now()), s, ms)
        case Again(n) => what == Continue && Now() == n && !done
        case Over(n) => what == Stop && Now() == n
        case Frame(at, n) => what == Give(at) && Now() == n
    {
      hide Feed;
      var out := FeedDecoder(s);
      if !out {
        silent := silent + 1;
        if silent > MAX_SILENT {
          done := true;
          return Stop;
        }
        return Continue;
      }
      silent := 0;
      shown := shown + [ms];
      if ms < target {
        return Continue;
      }
      given := given + [ms];
      target := if target + step >= ms + 1 then target + step else ms + 1;
      return Give(ms);
    }
  }

  datatype Verdict = Continue | Stop | Give(ms: int)

  lemma {:induction false} NextBlockGoesOn(w: Walk)
    requires NextBlock(w).Some?
    ensures NextBlock(w).value.done == w.done
  {
  }
}
