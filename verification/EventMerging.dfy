/**
 Events out of frames: a name seen again within the merge gap stretches its open event; silent for
 longer, or past the longest an event may be, it closes.
 */
module EventMerging {
  import opened Bytes

  datatype Box = Box(left: real, top: real, right: real, bottom: real)

  datatype Event = Event(name: string, start: int, end: int, score: real, count: int, box: Box)

  datatype Open = Open(ev: Event, lastSeen: int)

  /** `maxMs` not positive means that events may last for ever. */
  datatype Config = Config(gapMs: int, maxMs: int)

  /**
   One name seen in one frame; `anew` when everything was closed since it was last seen, `again` when it
   was seen in the same frame just before (an object called as the motion is).
   */
  datatype Sighting = Sighting(ms: int, score: real, count: int, box: Box, anew: bool, again: bool)

  /** What reaches one name: frames looked at, sightings in them, and the closing of everything. */
  datatype Signal = Look(ms: int) | Seen(at: int, score: real, count: int, box: Box) | Cut

  // ------------------------------------------------------------ streaming, one name

  datatype Lane = Lane(open: Option<Open>, emitted: seq<Event>)

  function Closed(l: Lane): Lane {
    if l.open.Some? then Lane(None, l.emitted + [l.open.value.ev]) else l
  }

  function Stretch(o: Open, ms: int, score: real, count: int, box: Box): Open {
    var e := o.ev.(end := ms, count := if o.ev.count > count then o.ev.count else count);
    Open(if score > o.ev.score then e.(score := score, box := box) else e, ms)
  }

  predicate TooLong(cfg: Config, start: int, ms: int) {
    cfg.maxMs > 0 && ms - start >= cfg.maxMs
  }

  function Noted(cfg: Config, l: Lane, name: string, ms: int, score: real, count: int, box: Box): Lane {
    if l.open.Some? && !TooLong(cfg, l.open.value.ev.start, ms)
    then l.(open := Some(Stretch(l.open.value, ms, score, count, box)))
    else Lane(Some(Open(Event(name, ms, ms, score, count, box), ms)), Closed(l).emitted)
  }

  function Step(cfg: Config, name: string, l: Lane, s: Signal): Lane {
    match s
    case Look(ms) => if l.open.Some? && ms - l.open.value.lastSeen > cfg.gapMs then Closed(l) else l
    case Seen(ms, score, count, box) => Noted(cfg, l, name, ms, score, count, box)
    case Cut => Closed(l)
  }

  function Stream(cfg: Config, name: string, signals: seq<Signal>): Lane {
    if signals == [] then Lane(None, [])
    else Step(cfg, name, Stream(cfg, name, signals[..|signals| - 1]), signals[|signals| - 1])
  }

  // ------------------------------------------------------------ offline

  /** The sightings of a name, and whether everything was closed after the last. */
  datatype Sightings = Sightings(all: seq<Sighting>, cut: bool)

  function Collect(signals: seq<Signal>): Sightings {
    if signals == [] then Sightings([], false)
    else
      var n := |signals| - 1;
      var before := Collect(signals[..n]);
      match signals[n]
      case Look(_) => before
      case Seen(ms, score, count, box) =>
        Sightings(before.all + [Sighting(ms, score, count, box, before.cut, n > 0 && signals[n - 1].Seen?)], false)
      case Cut => before.(cut := true)
  }

  /** Sightings that make one event: the last, and those before it. */
  datatype Run = Run(body: seq<Sighting>, last: Sighting)

  function First(r: Run): Sighting {
    if r.body == [] then r.last else r.body[0]
  }

  function Extended(r: Run, s: Sighting): Run {
    Run(r.body + [r.last], s)
  }

  /**
   A sighting goes on with a run: not anew, in the frame of its last or not too long after, not too long after
   its first.
   */
  predicate GoesOn(cfg: Config, r: Run, s: Sighting) {
    !s.anew && ((s.again && s.ms == r.last.ms) || s.ms - r.last.ms <= cfg.gapMs) && !TooLong(cfg, First(r).ms, s.ms)
  }

  /** The greedy partition of sightings into runs. */
  function Runs(cfg: Config, ss: seq<Sighting>): (runs: seq<Run>)
    ensures ss != [] ==> runs != [] && runs[|runs| - 1].last == ss[|ss| - 1]
    ensures ss == [] ==> runs == []
  {
    if ss == [] then []
    else
      var runs, s := Runs(cfg, ss[..|ss| - 1]), ss[|ss| - 1];
      var n := |runs| - 1;
      if runs == [] || !GoesOn(cfg, runs[n], s) then runs + [Run([], s)] else runs[..n] + [Extended(runs[n], s)]
  }

  /** The event of a run. */
  function Summary(name: string, r: Run): Event
    decreases |r.body|
  {
    var s, n := r.last, |r.body| - 1;
    if r.body == [] then Event(name, s.ms, s.ms, s.score, s.count, s.box)
    else Stretch(Open(Summary(name, Run(r.body[..n], r.body[n])), r.body[n].ms), s.ms, s.score, s.count, s.box).ev
  }

  function Summaries(name: string, runs: seq<Run>): (es: seq<Event>)
    ensures |es| == |runs|
  {
    if runs == [] then [] else Summaries(name, runs[..|runs| - 1]) + [Summary(name, runs[|runs| - 1])]
  }

  /** Frames come in order of time. */
  ghost predicate InOrder(signals: seq<Signal>) {
    forall i, j :: 0 <= i < j < |signals| && !signals[i].Cut? && !signals[j].Cut?
      ==> Time(signals[i]) <= Time(signals[j])
  }

  function Time(s: Signal): int
    requires !s.Cut?
  {
    if s.Look? then s.ms else s.at
  }

  /** The instant of the latest frame. */
  function Latest(signals: seq<Signal>): Option<int> {
    if signals == [] then None
    else if signals[|signals| - 1].Cut? then Latest(signals[..|signals| - 1])
    else Some(Time(signals[|signals| - 1]))
  }

  /** Each sighting follows the look at its frame, or another sighting in it. */
  predicate Looked(signals: seq<Signal>) {
    forall i :: 0 <= i < |signals| && signals[i].Seen? ==> i > 0 && FollowsLook(signals[i - 1], signals[i].at)
  }

  predicate FollowsLook(before: Signal, at: int) {
    before == Look(at) || (before.Seen? && before.at == at)
  }

  // ------------------------------------------------------------ streaming equals offline

  /** What was emitted and what is open are the runs so far; when nothing is open, the next sighting starts one. */
  ghost predicate Agrees(cfg: Config, name: string, l: Lane, c: Sightings, now: Option<int>) {
    var runs := Runs(cfg, c.all);
    var n := |runs| - 1;
    (c.all != [] ==> now.Some? && c.all[|c.all| - 1].ms <= now.value)
    && if l.open.Some? then
         !c.cut && runs != []
         && l.emitted == Summaries(name, runs[..n])
         && l.open.value == Open(Summary(name, runs[n]), c.all[|c.all| - 1].ms)
       else
         l.emitted == Summaries(name, runs)
         && (c.all == [] || c.cut || now.value - c.all[|c.all| - 1].ms > cfg.gapMs)
  }

  /** The frame was looked at: what is still open may go on. */
  predicate Current(cfg: Config, l: Lane, ms: int) {
    l.open.Some? ==> ms - l.open.value.lastSeen <= cfg.gapMs
  }

  lemma {:induction false} SummaryStart(name: string, r: Run)
    ensures Summary(name, r).start == First(r).ms
    decreases |r.body|
  {
    if r.body != [] {
      var n := |r.body| - 1;
      SummaryStart(name, Run(r.body[..n], r.body[n]));
    }
  }

  lemma {:induction false} SummariesAppend(name: string, runs: seq<Run>, r: Run)
    ensures Summaries(name, runs + [r]) == Summaries(name, runs) + [Summary(name, r)]
  {
    assert (runs + [r])[..|runs|] == runs;
  }

  lemma {:induction false} CloseAgrees(cfg: Config, name: string, l: Lane, c: Sightings, now: Option<int>)
    requires Agrees(cfg, name, l, c, now)
    ensures Closed(l).open.None? && Closed(l).emitted == Summaries(name, Runs(cfg, c.all))
  {
    hide Runs, Summary, Summaries;
    if l.open.Some? {
      var runs := Runs(cfg, c.all);
      var n := |runs| - 1;
      SummariesAppend(name, runs[..n], runs[n]);
      assert runs[..n] + [runs[n]] == runs;
    }
  }

  lemma {:induction false} LookAgrees(cfg: Config, name: string, l: Lane, c: Sightings, now: Option<int>, ms: int)
    requires Agrees(cfg, name, l, c, now) && (now.Some? ==> now.value <= ms)
    ensures var r := Step(cfg, name, l, Look(ms)); Agrees(cfg, name, r, c, Some(ms)) && Current(cfg, r, ms)
  {
    hide Runs, Summary, Summaries, Closed;
    CloseAgrees(cfg, name, l, c, now);
  }

  lemma {:induction false} CutAgrees(cfg: Config, name: string, l: Lane, c: Sightings, now: Option<int>)
    requires Agrees(cfg, name, l, c, now)
    ensures Agrees(cfg, name, Step(cfg, name, l, Cut), c.(cut := true), now)
  {
    hide Runs, Summary, Summaries, Closed;
    CloseAgrees(cfg, name, l, c, now);
  }

  lemma {:induction false} RunsAppend(cfg: Config, ss: seq<Sighting>, s: Sighting)
    ensures var runs := Runs(cfg, ss);
      var n := |runs| - 1;
      Runs(cfg, ss + [s]) == if runs == [] || !GoesOn(cfg, runs[n], s) then runs + [Run([], s)]
        else runs[..n] + [Extended(runs[n], s)]
  {
    assert (ss + [s])[..|ss|] == ss;
  }

  lemma {:induction false} SummaryAppend(name: string, r: Run, s: Sighting)
    ensures Summary(name, Extended(r, s)) == Stretch(Open(Summary(name, r), r.last.ms), s.ms, s.score, s.count,
      s.box).ev
  {
    assert (r.body + [r.last])[..|r.body|] == r.body;
  }

  function Noticed(c: Sightings, s: Sighting): (r: Sightings)
    ensures r.all == c.all + [s] && !r.cut
  {
    Sightings(c.all + [s], false)
  }

  lemma {:induction false} SeenGoesOn(cfg: Config, name: string, l: Lane, c: Sightings, s: Sighting)
    requires Agrees(cfg, name, l, c, Some(s.ms)) && s.anew == c.cut
    requires Current(cfg, l, s.ms) || (s.again && c.all != [] && c.all[|c.all| - 1].ms == s.ms)
    requires l.open.Some? && !TooLong(cfg, l.open.value.ev.start, s.ms)
    ensures Agrees(cfg, name, Noted(cfg, l, name, s.ms, s.score, s.count, s.box), Noticed(c, s), Some(s.ms))
  {
    hide *;
    var runs := Runs(cfg, c.all);
    var n := |runs| - 1;
    OpenGoesOn(cfg, name, l, c, s);
    OpenIs(cfg, name, l, c, s.ms);
    RunsAppend(cfg, c.all, s);
    SummaryAppend(name, runs[n], s);
    StretchSeen(l.open.value, s);
    NotedOpen(cfg, l, name, s);
    LastGoes(runs, Extended(runs[n], s));
    OpenAgain(cfg, name, Noted(cfg, l, name, s.ms, s.score, s.count, s.box), Noticed(c, s), s.ms, runs[..n],
      Extended(runs[n], s));
  }

  lemma {:induction false} LastGoes(runs: seq<Run>, r: Run)
    requires runs != []
    ensures (runs[..|runs| - 1] + [r])[..|runs| - 1] == runs[..|runs| - 1]
  {
  }

  /** What an open lane says. */
  lemma {:induction false} OpenIs(cfg: Config, name: string, l: Lane, c: Sightings, ms: int)
    requires Agrees(cfg, name, l, c, Some(ms)) && l.open.Some?
    ensures var runs := Runs(cfg, c.all);
      c.all != [] && runs != [] && runs[|runs| - 1].last == c.all[|c.all| - 1]
      && l.emitted == Summaries(name, runs[..|runs| - 1])
      && l.open.value == Open(Summary(name, runs[|runs| - 1]), runs[|runs| - 1].last.ms)
  {
    hide Summaries, Summary;
  }

  lemma {:induction false} NotedOpen(cfg: Config, l: Lane, name: string, s: Sighting)
    ensures var r := Noted(cfg, l, name, s.ms, s.score, s.count, s.box);
      if l.open.Some? && !TooLong(cfg, l.open.value.ev.start, s.ms)
      then r == l.(open := Some(Stretch(l.open.value, s.ms, s.score, s.count, s.box)))
      else r == Lane(Some(Open(Event(name, s.ms, s.ms, s.score, s.count, s.box), s.ms)), Closed(l).emitted)
  {
    hide Stretch, Closed, TooLong;
  }

  /** A lane open with the last of the runs agrees with them. */
  lemma {:induction false} OpenAgain(cfg: Config, name: string, l: Lane, c: Sightings, ms: int, before: seq<Run>,
      last: Run)
    requires !c.cut && c.all != [] && c.all[|c.all| - 1].ms == ms && Runs(cfg, c.all) == before + [last]
    requires l.open == Some(Open(Summary(name, last), ms)) && l.emitted == Summaries(name, before)
    ensures Agrees(cfg, name, l, c, Some(ms))
  {
    hide Runs, Summary, Summaries;
    assert (before + [last])[..|before|] == before;
  }

  lemma {:induction false} StretchSeen(o: Open, s: Sighting)
    ensures Stretch(o, s.ms, s.score, s.count, s.box).lastSeen == s.ms
  {
  }

  lemma {:induction false} OpenGoesOn(cfg: Config, name: string, l: Lane, c: Sightings, s: Sighting)
    requires Agrees(cfg, name, l, c, Some(s.ms)) && s.anew == c.cut
    requires Current(cfg, l, s.ms) || (s.again && c.all != [] && c.all[|c.all| - 1].ms == s.ms)
    requires l.open.Some? && !TooLong(cfg, l.open.value.ev.start, s.ms)
    ensures c.all != [] && GoesOn(cfg, Runs(cfg, c.all)[|Runs(cfg, c.all)| - 1], s)
  {
    var runs := Runs(cfg, c.all);
    SummaryStart(name, runs[|runs| - 1]);
    hide Runs, Summary, Summaries, First;
  }

  lemma {:induction false} SeenStarts(cfg: Config, name: string, l: Lane, c: Sightings, s: Sighting)
    requires Agrees(cfg, name, l, c, Some(s.ms)) && s.anew == c.cut
    requires if l.open.Some? then TooLong(cfg, l.open.value.ev.start, s.ms) else !s.again
    ensures Agrees(cfg, name, Noted(cfg, l, name, s.ms, s.score, s.count, s.box), Noticed(c, s), Some(s.ms))
  {
    hide *;
    var runs, run := Runs(cfg, c.all), Run([], s);
    SummaryOne(name, s);
    CloseAgrees(cfg, name, l, c, Some(s.ms));
    RunsAppend(cfg, c.all, s);
    NotGoingOn(cfg, name, l, c, s);
    NotedOpen(cfg, l, name, s);
    OpenAgain(cfg, name, Noted(cfg, l, name, s.ms, s.score, s.count, s.box), Noticed(c, s), s.ms, runs, run);
  }

  lemma {:induction false} SummaryOne(name: string, s: Sighting)
    ensures Summary(name, Run([], s)) == Event(name, s.ms, s.ms, s.score, s.count, s.box)
  {
  }

  lemma {:induction false} NotGoingOn(cfg: Config, name: string, l: Lane, c: Sightings, s: Sighting)
    requires Agrees(cfg, name, l, c, Some(s.ms)) && s.anew == c.cut
    requires if l.open.Some? then TooLong(cfg, l.open.value.ev.start, s.ms) else !s.again
    ensures var runs := Runs(cfg, c.all); runs == [] || !GoesOn(cfg, runs[|runs| - 1], s)
    ensures l.open.Some? ==> TooLong(cfg, l.open.value.ev.start, s.ms)
  {
    var runs := Runs(cfg, c.all);
    if l.open.Some? {
      SummaryStart(name, runs[|runs| - 1]);
    }
    hide Runs, Summary, Summaries, First;
  }

  lemma {:induction false} StreamLast(cfg: Config, name: string, signals: seq<Signal>)
    requires signals != []
    ensures var n := |signals| - 1;
      Stream(cfg, name, signals) == Step(cfg, name, Stream(cfg, name, signals[..n]), signals[n])
      && (signals[n].Seen? ==> Stream(cfg, name, signals).open.Some?)
  {
  }

  lemma {:induction false} CollectLast(signals: seq<Signal>)
    requires signals != []
    ensures var n := |signals| - 1;
      var before, c := Collect(signals[..n]), Collect(signals);
      match signals[n]
      case Look(_) => c == before
      case Seen(ms, score, count, box) =>
        (c == Noticed(before, Sighting(ms, score, count, box, before.cut, n > 0 && signals[n - 1].Seen?))
         && c.all != [] && c.all[|c.all| - 1].ms == ms)
      case Cut => c == before.(cut := true)
  {
  }

  lemma {:induction false} StepAgrees(cfg: Config, name: string, signals: seq<Signal>)
    requires signals != [] && InOrder(signals) && Looked(signals)
    requires var before := signals[..|signals| - 1];
      Agrees(cfg, name, Stream(cfg, name, before), Collect(before), Latest(before))
      && (before != [] && before[|before| - 1].Look? ==> Current(cfg, Stream(cfg, name, before), Latest(before).value))
    ensures Agrees(cfg, name, Stream(cfg, name, signals), Collect(signals), Latest(signals))
    ensures signals[|signals| - 1].Look? ==> Current(cfg, Stream(cfg, name, signals), Latest(signals).value)
  {
    var n := |signals| - 1;
    var before := signals[..n];
    var l, c := Stream(cfg, name, before), Collect(before);
    StreamLast(cfg, name, signals);
    CollectLast(signals);
    hide Stream, Collect, Agrees, Current, Noted, InOrder;
    match signals[n]
    case Look(ms) =>
      LatestBefore(before, signals);
      LookAgrees(cfg, name, l, c, Latest(before), ms);
    case Cut =>
      CutAgrees(cfg, name, l, c, Latest(before));
    case Seen(ms, score, count, box) =>
      assert FollowsLook(signals[n - 1], ms);
      assert before[|before| - 1] == signals[n - 1];
      assert Latest(before) == Some(ms);
      StreamLast(cfg, name, before);
      CollectLast(before);
      hide Latest;
      var s := Sighting(ms, score, count, box, c.cut, n > 0 && signals[n - 1].Seen?);
      if l.open.Some? && !TooLong(cfg, l.open.value.ev.start, ms) {
        SeenGoesOn(cfg, name, l, c, s);
      } else {
        SeenStarts(cfg, name, l, c, s);
      }
  }

  lemma {:induction false} LatestBefore(before: seq<Signal>, signals: seq<Signal>)
    requires signals != [] && before <= signals[..|signals| - 1] && InOrder(signals) && !signals[|signals| - 1].Cut?
    ensures Latest(before).Some? ==> Latest(before).value <= Time(signals[|signals| - 1])
    decreases |before|
  {
    if before != [] {
      LatestBefore(before[..|before| - 1], signals);
    }
  }

  lemma {:induction false} StreamAgrees(cfg: Config, name: string, signals: seq<Signal>)
    requires InOrder(signals) && Looked(signals)
    ensures Agrees(cfg, name, Stream(cfg, name, signals), Collect(signals), Latest(signals))
    ensures signals != [] ==>
      var n := |signals| - 1;
      signals[n].Look? ==> Current(cfg, Stream(cfg, name, signals), Latest(signals).value)
    decreases |signals|
  {
    if signals != [] {
      var before := signals[..|signals| - 1];
      assert InOrder(before) && Looked(before);
      StreamAgrees(cfg, name, before);
      hide Stream, Collect, Latest, Agrees, Looked, InOrder;
      StepAgrees(cfg, name, signals);
    }
  }

  /**
   Streaming equals offline: once everything is closed, what was emitted for a name is, in order, one
   event for each run of the greedy partition of its sightings.
   */
  lemma {:induction false} StreamIsPartition(cfg: Config, name: string, signals: seq<Signal>)
    requires InOrder(signals) && Looked(signals)
    ensures Stream(cfg, name, signals + [Cut]).emitted == Summaries(name, Runs(cfg, Collect(signals).all))
  {
    StreamAgrees(cfg, name, signals);
    assert (signals + [Cut])[..|signals|] == signals;
    hide Agrees, Runs, Summaries, Collect, Closed, Latest;
    CloseAgrees(cfg, name, Stream(cfg, name, signals), Collect(signals), Latest(signals));
  }

  // ------------------------------------------------------------ the greedy partition

  function Members(r: Run): seq<Sighting> {
    r.body + [r.last]
  }

  function Flat(runs: seq<Run>): seq<Sighting> {
    if runs == [] then [] else Flat(runs[..|runs| - 1]) + Members(runs[|runs| - 1])
  }

  /** Each member of the run, after the first, goes on with those before it. */
  predicate Whole(cfg: Config, r: Run) {
    forall j :: 0 <= j < |r.body| ==> GoesOn(cfg, Run(r.body[..j], r.body[j]), Members(r)[j + 1])
  }

  /** Runs that together are the sightings, none of which could be longer. */
  ghost predicate Greedy(cfg: Config, ss: seq<Sighting>, runs: seq<Run>) {
    Flat(runs) == ss && (forall k :: 0 <= k < |runs| ==> Whole(cfg, runs[k]))
    && forall j, k :: 0 <= j && k == j + 1 && k < |runs| ==> !GoesOn(cfg, runs[j], First(runs[k]))
  }

  lemma {:induction false} FlatEnds(runs: seq<Run>)
    requires runs != []
    ensures Flat(runs) != [] && Flat(runs)[|Flat(runs)| - 1] == runs[|runs| - 1].last
  {
  }

  lemma {:induction false} WholeExtended(cfg: Config, r: Run, s: Sighting)
    requires Whole(cfg, r) && GoesOn(cfg, r, s)
    ensures Whole(cfg, Extended(r, s))
  {
    var x := Extended(r, s);
    hide GoesOn;
    forall j | 0 <= j < |x.body|
      ensures GoesOn(cfg, Run(x.body[..j], x.body[j]), Members(x)[j + 1])
    {
      if j < |r.body| {
        assert x.body[..j] == r.body[..j];
      } else {
        assert x.body[..j] == r.body;
      }
    }
  }

  lemma {:induction false} WholeShortened(cfg: Config, r: Run)
    requires Whole(cfg, r) && r.body != []
    ensures var n := |r.body| - 1; var b := Run(r.body[..n], r.body[n]);
      Whole(cfg, b) && GoesOn(cfg, b, r.last) && Extended(b, r.last) == r && First(b) == First(r)
  {
    var n := |r.body| - 1;
    var b := Run(r.body[..n], r.body[n]);
    hide GoesOn;
    forall j | 0 <= j < |b.body|
      ensures GoesOn(cfg, Run(b.body[..j], b.body[j]), Members(b)[j + 1])
    {
      assert b.body[..j] == r.body[..j];
    }
    assert Members(r)[n + 1] == r.last;
  }

  /** The runs are a greedy partition of the sightings... */
  lemma {:induction false} RunsAreGreedy(cfg: Config, ss: seq<Sighting>)
    ensures Greedy(cfg, ss, Runs(cfg, ss))
    decreases |ss|
  {
    if ss != [] {
      var m := |ss| - 1;
      var before, s := Runs(cfg, ss[..m]), ss[m];
      RunsAreGreedy(cfg, ss[..m]);
      assert ss[..m] + [s] == ss;
      RunsAppend(cfg, ss[..m], s);
      hide Runs, GoesOn, Flat;
      GreedyAppend(cfg, ss[..m], before, s);
    }
  }

  lemma {:induction false} GreedyAppend(cfg: Config, ss: seq<Sighting>, runs: seq<Run>, s: Sighting)
    requires Greedy(cfg, ss, runs)
    ensures var n := |runs| - 1;
      Greedy(cfg, ss + [s], if runs == [] || !GoesOn(cfg, runs[n], s) then runs + [Run([], s)]
        else runs[..n] + [Extended(runs[n], s)])
  {
    hide *;
    var n := |runs| - 1;
    if runs == [] || !GoesOn(cfg, runs[n], s) {
      RunAdded(cfg, ss, runs, s);
    } else {
      LastIsWhole(cfg, runs) by { GreedyIs(cfg, ss, runs); }
      WholeExtended(cfg, runs[n], s);
      RunExtended(cfg, ss, runs, s);
    }
  }

  lemma {:induction false} GreedyIs(cfg: Config, ss: seq<Sighting>, runs: seq<Run>)
    requires Greedy(cfg, ss, runs)
    ensures Greedy(cfg, Flat(runs), runs) && Flat(runs) == ss
  {
    hide Flat, Whole, GoesOn, First;
  }

  lemma {:induction false} FlatAppend(runs: seq<Run>, r: Run)
    ensures Flat(runs + [r]) == Flat(runs) + Members(r)
  {
    assert (runs + [r])[..|runs|] == runs;
  }

  lemma {:induction false} RunAdded(cfg: Config, ss: seq<Sighting>, runs: seq<Run>, s: Sighting)
    requires Greedy(cfg, ss, runs) && (runs == [] || !GoesOn(cfg, runs[|runs| - 1], s))
    ensures Greedy(cfg, ss + [s], runs + [Run([], s)])
  {
    var r := Run([], s);
    FlatAppend(runs, r);
    assert Members(r) == [s] && First(r) == s && Whole(cfg, r);
    hide Flat, Whole, GoesOn, Members, First;
    var all := runs + [r];
    forall k | 0 <= k < |all|
      ensures Whole(cfg, all[k])
    {
      assert k < |runs| ==> all[k] == runs[k];
    }
    forall j, k | 0 <= j && k == j + 1 && k < |all|
      ensures !GoesOn(cfg, all[j], First(all[k]))
    {
      assert all[j] == runs[j] && (k < |runs| ==> all[k] == runs[k]);
    }
  }

  lemma {:induction false} RunExtended(cfg: Config, ss: seq<Sighting>, runs: seq<Run>, s: Sighting)
    requires Greedy(cfg, ss, runs) && runs != [] && Whole(cfg, Extended(runs[|runs| - 1], s))
    ensures Greedy(cfg, ss + [s], runs[..|runs| - 1] + [Extended(runs[|runs| - 1], s)])
  {
    var n := |runs| - 1;
    var r := Extended(runs[n], s);
    assert First(r) == First(runs[n]) && Members(r) == Members(runs[n]) + [s];
    GreedyIs(cfg, ss, runs);
    hide First, Members, Extended;
    GreedyShorter(cfg, runs, r);
    hide Whole, GoesOn;
    FlatAppend(runs[..n], runs[n]);
    FlatAppend(runs[..n], r);
    assert runs[..n] + [runs[n]] == runs;
    ConcatAssociative(Flat(runs[..n]), Members(runs[n]), [s]);
    hide Flat;
  }

  /** The runs without their very last sighting. */
  function Peeled(runs: seq<Run>): seq<Run>
    requires runs != []
  {
    var n := |runs| - 1;
    var r := runs[n];
    if r.body == [] then runs[..n] else runs[..n] + [Run(r.body[..|r.body| - 1], r.body[|r.body| - 1])]
  }

  lemma {:induction false} PeeledFlat(runs: seq<Run>)
    requires runs != []
    ensures Flat(runs) == Flat(Peeled(runs)) + [runs[|runs| - 1].last]
  {
    var n := |runs| - 1;
    var r, p := runs[n], Peeled(runs);
    if r.body != [] {
      var b := Run(r.body[..|r.body| - 1], r.body[|r.body| - 1]);
      assert p[..n] == runs[..n] && Members(r) == Members(b) + [r.last];
      ConcatAssociative(Flat(runs[..n]), Members(b), [r.last]);
    }
  }

  lemma {:induction false} PeeledGreedy(cfg: Config, runs: seq<Run>)
    requires runs != [] && Greedy(cfg, Flat(runs), runs)
    ensures var p, s := Peeled(runs), runs[|runs| - 1].last;
      var m := |p| - 1;
      Greedy(cfg, Flat(p), p)
      && runs == if p == [] || !GoesOn(cfg, p[m], s) then p + [Run([], s)] else p[..m] + [Extended(p[m], s)]
  {
    hide *;
    var n := |runs| - 1;
    var r := runs[n];
    PeeledIs(runs);
    LastIsWhole(cfg, runs);
    if r.body == [] {
      PeeledOff(cfg, runs);
    } else {
      var b := Run(r.body[..|r.body| - 1], r.body[|r.body| - 1]);
      WholeShortened(cfg, r);
      GreedyShorter(cfg, runs, b);
      LastReplaced(runs, b);
    }
  }

  lemma {:induction false} PeeledIs(runs: seq<Run>)
    requires runs != []
    ensures var n := |runs| - 1;
      var r := runs[n];
      Peeled(runs) == if r.body == [] then runs[..n]
        else runs[..n] + [Run(r.body[..|r.body| - 1], r.body[|r.body| - 1])]
  {
  }

  lemma {:induction false} LastIsWhole(cfg: Config, runs: seq<Run>)
    requires runs != [] && Greedy(cfg, Flat(runs), runs)
    ensures Whole(cfg, runs[|runs| - 1])
  {
    hide Whole, GoesOn, Flat, First;
  }

  lemma {:induction false} LastReplaced(runs: seq<Run>, b: Run)
    requires runs != []
    ensures var n := |runs| - 1;
      var p := runs[..n] + [b];
      |p| == n + 1 && p[n] == b && p[..n] == runs[..n] && runs == p[..n] + [runs[n]]
  {
  }

  lemma {:induction false} PeeledOff(cfg: Config, runs: seq<Run>)
    requires runs != [] && Greedy(cfg, Flat(runs), runs) && runs[|runs| - 1].body == []
    ensures var n := |runs| - 1;
      Greedy(cfg, Flat(runs[..n]), runs[..n]) && runs == runs[..n] + [Run([], runs[n].last)]
      && (n > 0 ==> !GoesOn(cfg, runs[n - 1], runs[n].last))
  {
    var n := |runs| - 1;
    assert First(runs[n]) == runs[n].last && runs[n] == Run([], runs[n].last);
    hide GoesOn, Whole, Flat, First;
  }

  lemma {:induction false} GreedyShorter(cfg: Config, runs: seq<Run>, b: Run)
    requires runs != [] && Greedy(cfg, Flat(runs), runs) && Whole(cfg, b) && First(b) == First(runs[|runs| - 1])
    ensures var p := runs[..|runs| - 1] + [b]; Greedy(cfg, Flat(p), p)
  {
    hide GoesOn, Whole, Flat, First;
    var n := |runs| - 1;
    var p := runs[..n] + [b];
    forall k | 0 <= k < |p|
      ensures Whole(cfg, p[k])
    {
      assert k < n ==> p[k] == runs[k];
    }
    forall j, k | 0 <= j && k == j + 1 && k < |p|
      ensures !GoesOn(cfg, p[j], First(p[k]))
    {
      assert p[j] == runs[j] && First(p[k]) == First(runs[k]);
    }
  }

  /** ...and the only one. */
  lemma {:induction false} GreedyIsRuns(cfg: Config, ss: seq<Sighting>, runs: seq<Run>)
    requires Greedy(cfg, ss, runs)
    ensures runs == Runs(cfg, ss)
    decreases |ss|
  {
    if runs != [] {
      PeeledFlat(runs);
      PeeledGreedy(cfg, runs);
      hide GoesOn, Whole, Flat, Members, Runs;
      GreedyIsRuns(cfg, Flat(Peeled(runs)), Peeled(runs));
      RunsAppend(cfg, Flat(Peeled(runs)), runs[|runs| - 1].last);
    }
  }

  // ------------------------------------------------------------ what an event tells

  predicate Sorted(ss: seq<Sighting>) {
    forall i, j :: 0 <= i < j < |ss| ==> ss[i].ms <= ss[j].ms
  }

  /**
   The event of a run: from its first to its last, the most seen at once, and the highest score with
   the box of the first sighting that had it.
   */
  lemma {:induction false} SummaryTells(name: string, r: Run) returns (best: nat)
    ensures var e, m := Summary(name, r), Members(r);
      e.name == name && e.start == First(r).ms && e.end == r.last.ms
      && best < |m| && e.score == m[best].score && e.box == m[best].box
      && (forall j :: 0 <= j < |m| ==> m[j].score <= e.score && m[j].count <= e.count)
      && (forall j :: 0 <= j < best ==> m[j].score < e.score)
      && (exists j :: 0 <= j < |m| && m[j].count == e.count)
    decreases |r.body|
  {
    if r.body == [] {
      best := 0;
      assert Members(r)[0].count == Summary(name, r).count;
      return;
    }
    var n := |r.body| - 1;
    var b := Run(r.body[..n], r.body[n]);
    SummaryStart(name, r);
    best := SummaryTells(name, b);
    var m := Members(r);
    assert Members(b) == r.body && m[..n + 1] == r.body;
    var k :| 0 <= k < |Members(b)| && Members(b)[k].count == Summary(name, b).count;
    assert m[k] == Members(b)[k] && m[n + 1] == r.last;
    if r.last.score > Summary(name, b).score {
      best := n + 1;
    }
  }

  lemma {:induction false} LastAt(runs: seq<Run>, k: nat) returns (i: nat)
    requires k < |runs|
    ensures i < |Flat(runs)| && Flat(runs)[i] == runs[k].last
    decreases |runs|
  {
    var n := |runs| - 1;
    if k == n {
      FlatEnds(runs);
      i := |Flat(runs)| - 1;
    } else {
      i := LastAt(runs[..n], k);
    }
  }

  lemma {:induction false} SortedFront(runs: seq<Run>)
    requires runs != [] && Sorted(Flat(runs))
    ensures Sorted(Flat(runs[..|runs| - 1])) && Flat(runs[..|runs| - 1]) <= Flat(runs)
  {
    var front, flat := Flat(runs[..|runs| - 1]), Flat(runs);
    assert flat == front + Members(runs[|runs| - 1]);
    hide Flat, Members;
    assert forall i :: 0 <= i < |front| ==> front[i] == flat[i];
  }

  lemma {:induction false} FirstAt(runs: seq<Run>)
    requires runs != []
    ensures var i := |Flat(runs[..|runs| - 1])|; i < |Flat(runs)| && Flat(runs)[i] == First(runs[|runs| - 1])
  {
  }

  /** Runs of sorted sightings come one after the other. */
  lemma {:induction false} RunsSorted(runs: seq<Run>, j: nat, k: nat)
    requires Sorted(Flat(runs)) && j <= k < |runs|
    ensures First(runs[k]).ms <= runs[k].last.ms && (j < k ==> runs[j].last.ms <= First(runs[k]).ms)
    decreases |runs|
  {
    hide Flat, First;
    var n := |runs| - 1;
    SortedFront(runs);
    if k < n {
      RunsSorted(runs[..n], j, k);
    } else {
      FirstAt(runs);
      FlatEnds(runs);
      if j < n {
        var i := LastAt(runs[..n], j);
      }
    }
  }

  /** A run is shorter than the longest event allowed, when there is a limit. */
  lemma {:induction false} RunNotTooLong(cfg: Config, r: Run)
    requires Whole(cfg, r) && cfg.maxMs > 0
    ensures r.last.ms - First(r).ms < cfg.maxMs
  {
    if r.body != [] {
      WholeShortened(cfg, r);
    }
  }

  lemma {:induction false} CollectSorted(signals: seq<Signal>)
    requires InOrder(signals)
    ensures Sorted(Collect(signals).all)
    ensures Collect(signals).all != [] ==>
      Latest(signals).Some? && Collect(signals).all[|Collect(signals).all| - 1].ms <= Latest(signals).value
    decreases |signals|
  {
    if signals != [] {
      var before := signals[..|signals| - 1];
      assert InOrder(before);
      CollectSorted(before);
      if !signals[|signals| - 1].Cut? {
        LatestBefore(before, signals);
      }
      hide InOrder;
    }
  }

  lemma {:induction false} EventAt(cfg: Config, name: string, ss: seq<Sighting>, k: nat)
    requires k < |Runs(cfg, ss)|
    ensures var runs := Runs(cfg, ss);
      var e := Summaries(name, runs)[k];
      e.start == First(runs[k]).ms && e.end == runs[k].last.ms && (cfg.maxMs > 0 ==> e.end - e.start < cfg.maxMs)
  {
    hide Runs, Summary, Whole, Flat;
    var runs := Runs(cfg, ss);
    RunsAreGreedy(cfg, ss);
    SummaryAt(name, runs, k);
    var best := SummaryTells(name, runs[k]);
    assert Whole(cfg, runs[k]);
    if cfg.maxMs > 0 {
      RunNotTooLong(cfg, runs[k]);
    }
  }

  /** The events of one name never overlap and, with a limit, each is shorter than it. */
  lemma {:induction false} EventsApart(cfg: Config, name: string, signals: seq<Signal>, j: nat, k: nat)
    requires InOrder(signals) && Looked(signals) && j <= k < |Stream(cfg, name, signals + [Cut]).emitted|
    ensures var es := Stream(cfg, name, signals + [Cut]).emitted;
      es[k].start <= es[k].end && (cfg.maxMs > 0 ==> es[k].end - es[k].start < cfg.maxMs)
      && (j < k ==> es[j].end <= es[k].start)
  {
    hide Runs, Stream, Collect, Summaries, Flat, Looked, InOrder, Sorted;
    var ss := Collect(signals).all;
    StreamIsPartition(cfg, name, signals);
    CollectSorted(signals);
    EventAt(cfg, name, ss, j);
    EventAt(cfg, name, ss, k);
    assert Flat(Runs(cfg, ss)) == ss by { RunsAreGreedy(cfg, ss); }
    RunsSorted(Runs(cfg, ss), j, k);
  }

  lemma {:induction false} SummaryAt(name: string, runs: seq<Run>, k: nat)
    requires k < |runs|
    ensures Summaries(name, runs)[k] == Summary(name, runs[k])
    decreases |runs|
  {
    hide Summary;
    if k < |runs| - 1 {
      SummaryAt(name, runs[..|runs| - 1], k);
    }
  }
}
