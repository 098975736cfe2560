/** The analyzer of one camera: frames in, events of every name out. */
module FrameAnalyzer {
  import opened Bytes
  import opened EventMerging

  const MOTION: string := "motion"

  datatype Hit = Hit(name: string, score: real, box: Box)

  /** What the detectors say about one frame; `hits` is what the network would answer. */
  datatype Frame = Frame(ms: int, valid: bool, changed: bool, moved: bool, score: real, box: Box,
                         available: bool, hits: Option<seq<Hit>>)

  datatype Settings = Settings(merge: Config, objectMs: int, idleMs: int, wanted: string -> bool)

  /** The network is asked at most once per interval, and less often while nothing moves. */
  predicate Asked(s: Settings, f: Frame, last: int) {
    var iv := if f.moved then s.objectMs else s.idleMs;
    f.available && (f.moved || iv > 0) && !(last > 0 && (if f.ms >= last then f.ms - last else last - f.ms) < iv)
  }

  predicate Wanted(s: Settings, name: string) {
    name != "" && s.wanted(name)
  }

  /** All the hits of one name in a frame, together. */
  datatype Group = Group(count: nat, score: real, box: Box)

  function Merge(hits: seq<Hit>, name: string, k: nat): Option<Group>
    requires k <= |hits|
  {
    if k == 0 then None
    else
      var before, h := Merge(hits, name, k - 1), hits[k - 1];
      if h.name != name then before
      else if before.None? then Some(Group(1, h.score, h.box))
      else
        var g := before.value.(count := before.value.count + 1);
        Some(if h.score > g.score then g.(score := h.score, box := h.box) else g)
  }

  /** How many hits have the name. */
  function Named(hits: seq<Hit>, name: string): nat {
    if hits == [] then 0 else Named(hits[..|hits| - 1], name) + (if hits[|hits| - 1].name == name then 1 else 0)
  }

  /** A group has every hit of its name, the best score and the box of the first hit with it. */
  lemma {:induction false} MergeTells(hits: seq<Hit>, name: string, k: nat) returns (best: nat)
    requires k <= |hits|
    ensures match Merge(hits, name, k)
      case None => Named(hits[..k], name) == 0 && forall j :: 0 <= j < k ==> hits[j].name != name
      case Some(g) =>
        g.count == Named(hits[..k], name) > 0
        && best < k && hits[best].name == name && hits[best].score == g.score && hits[best].box == g.box
        && (forall j :: 0 <= j < k && hits[j].name == name ==> hits[j].score <= g.score)
        && (forall j :: 0 <= j < best && hits[j].name == name ==> hits[j].score < g.score)
    decreases k
  {
    if k == 0 {
      return 0;
    }
    best := MergeTells(hits, name, k - 1);
    assert hits[..k][..k - 1] == hits[..k - 1];
    var h := hits[k - 1];
    if h.name == name && (Merge(hits, name, k - 1).None? || h.score > Merge(hits, name, k - 1).value.score) {
      best := k - 1;
    }
  }

  /** The object sighting of a frame for one name, if any. */
  function ObjectSeen(s: Settings, f: Frame, name: string, last: int): seq<Signal> {
    if !Asked(s, f, last) || f.hits.None? || !Wanted(s, name) then []
    else
      match Merge(f.hits.value, name, |f.hits.value|)
      case None => []
      case Some(g) => [Seen(f.ms, g.score, g.count, g.box)]
  }

  function MotionSeen(f: Frame, name: string): seq<Signal> {
    if f.moved && name == MOTION then [Seen(f.ms, f.score, 1, f.box)] else []
  }

  /** What a frame means for one name. */
  function SignalsOf(s: Settings, f: Frame, name: string, last: int): seq<Signal> {
    if !f.valid then []
    else if f.changed then [Cut]
    else [Look(f.ms)] + MotionSeen(f, name) + ObjectSeen(s, f, name, last)
  }

  function LastAsked(s: Settings, f: Frame, last: int): int {
    if f.valid && !f.changed && Asked(s, f, last) then f.ms else last
  }

  function Steps(cfg: Config, name: string, l: Lane, signals: seq<Signal>): Lane {
    if signals == [] then l else Step(cfg, name, Steps(cfg, name, l, signals[..|signals| - 1]), signals[|signals| - 1])
  }

  lemma {:induction false} StreamSteps(cfg: Config, name: string, a: seq<Signal>, b: seq<Signal>)
    ensures Stream(cfg, name, a + b) == Steps(cfg, name, Stream(cfg, name, a), b)
    decreases |b|
  {
    hide Step;
    if b == [] {
      assert a + b == a;
    } else {
      assert (a + b)[..|a + b| - 1] == a + b[..|b| - 1];
      StreamSteps(cfg, name, a, b[..|b| - 1]);
    }
  }

  lemma {:induction false} StepsJoin(cfg: Config, name: string, l: Lane, a: seq<Signal>, b: seq<Signal>)
    ensures Steps(cfg, name, l, a + b) == Steps(cfg, name, Steps(cfg, name, l, a), b)
    decreases |b|
  {
    hide Step;
    if b == [] {
      assert a + b == a;
    } else {
      assert (a + b)[..|a + b| - 1] == a + b[..|b| - 1];
      StepsJoin(cfg, name, l, a, b[..|b| - 1]);
    }
  }

  lemma {:induction false} StepsFew(cfg: Config, name: string, l: Lane, signals: seq<Signal>)
    ensures |signals| == 0 ==> Steps(cfg, name, l, signals) == l
    ensures |signals| == 1 ==> Steps(cfg, name, l, signals) == Step(cfg, name, l, signals[0])
  {
    hide Step;
  }

  /**
   What a frame tells of a name: that it was looked at; motion, under the name of motion, if something moved; and
   objects if the network was asked and answered, the name is wanted and a hit has it. A change of scene tells nothing.
   */
  lemma {:induction false} FrameTells(s: Settings, f: Frame, name: string, last: int)
    ensures var x := SignalsOf(s, f, name, last);
      var objects := f.valid && !f.changed && Asked(s, f, last) && f.hits.Some? && name != "" && s.wanted(name)
        && exists k :: 0 <= k < |f.hits.value| && f.hits.value[k].name == name;
      var motion := f.valid && !f.changed && f.moved && name == MOTION;
      && (!f.valid ==> x == []) && (f.valid && f.changed ==> x == [Cut])
      && (f.valid && !f.changed ==>
        x != [] && x[0] == Look(f.ms) && |x| == 1 + (if motion then 1 else 0) + (if objects then 1 else 0))
      && (motion ==> x[1] == Seen(f.ms, f.score, 1, f.box))
      && (objects ==> x[|x| - 1].Seen? && x[|x| - 1].at == f.ms)
  {
    hide Asked;
    if f.hits.Some? {
      var best := MergeTells(f.hits.value, name, |f.hits.value|);
      hide Merge, Named;
    }
  }

  // ------------------------------------------------------------ a run of frames

  /**
   What reaches an analyzer: frames, the flush at the end of each round, and a jump in time, which closes
   everything and then forgets when objects were last asked for.
   */
  datatype Input = Show(frame: Frame) | RoundEnd | Jump

  function LastAfter(s: Settings, run: seq<Input>, n: nat): int
    requires n <= |run|
  {
    if n == 0 then 0
    else match run[n - 1]
      case Show(f) => LastAsked(s, f, LastAfter(s, run, n - 1))
      case RoundEnd => LastAfter(s, run, n - 1)
      case Jump => 0
  }

  function Meaning(s: Settings, x: Input, name: string, last: int): seq<Signal> {
    match x
    case Show(f) => SignalsOf(s, f, name, last)
    case RoundEnd => [Cut]
    case Jump => [Cut]
  }

  /** All that the first `n` inputs mean for one name. */
  function AllSignals(s: Settings, run: seq<Input>, name: string, n: nat): seq<Signal>
    requires n <= |run|
  {
    if n == 0 then []
    else AllSignals(s, run, name, n - 1) + Meaning(s, run[n - 1], name, LastAfter(s, run, n - 1))
  }

  predicate FramesInOrder(run: seq<Input>) {
    forall i, j :: 0 <= i < j < |run| && run[i].Show? && run[j].Show? ==> run[i].frame.ms <= run[j].frame.ms
  }

  predicate NotAfter(signals: seq<Signal>, ms: int) {
    forall i :: 0 <= i < |signals| && !signals[i].Cut? ==> Time(signals[i]) <= ms
  }

  predicate AllAt(signals: seq<Signal>, ms: int) {
    forall i :: 0 <= i < |signals| && !signals[i].Cut? ==> Time(signals[i]) == ms
  }

  lemma {:induction false} SignalsShape(s: Settings, f: Frame, name: string, last: int)
    ensures var x := SignalsOf(s, f, name, last); AllAt(x, f.ms) && Looked(x)
  {
    hide Asked, Merge, Wanted;
  }

  lemma {:induction false} CutShape(ms: int)
    ensures AllAt([Cut], ms) && Looked([Cut])
  {
  }

  lemma {:induction false} SignalsInOrder(s: Settings, run: seq<Input>, name: string, n: nat, ms: int)
    requires n <= |run| && FramesInOrder(run) && forall i :: 0 <= i < n && run[i].Show? ==> run[i].frame.ms <= ms
    ensures var x := AllSignals(s, run, name, n); InOrder(x) && NotAfter(x, ms) && Looked(x)
    decreases n
  {
    if n > 0 {
      var at := if run[n - 1].Show? then run[n - 1].frame.ms else ms;
      var last := LastAfter(s, run, n - 1);
      SignalsInOrder(s, run, name, n - 1, at);
      if run[n - 1].Show? {
        SignalsShape(s, run[n - 1].frame, name, last);
      } else {
        CutShape(at);
      }
      hide SignalsOf, FollowsLook;
      var a, b := AllSignals(s, run, name, n - 1), Meaning(s, run[n - 1], name, last);
      hide Meaning, LastAfter, AllAt, NotAfter, InOrder, Looked, FramesInOrder;
      OrderJoined(a, b, at, ms);
      LookedJoined(a, b);
    }
  }

  lemma {:induction false} OrderJoined(a: seq<Signal>, b: seq<Signal>, at: int, ms: int)
    requires InOrder(a) && NotAfter(a, at) && AllAt(b, at) && at <= ms
    ensures InOrder(a + b) && NotAfter(a + b, ms)
  {
    hide Time;
  }

  lemma {:induction false} LookedJoined(a: seq<Signal>, b: seq<Signal>)
    requires Looked(a) && Looked(b)
    ensures Looked(a + b)
  {
    hide FollowsLook;
    var x := a + b;
    forall i | 0 <= i < |x| && x[i].Seen?
      ensures i > 0 && FollowsLook(x[i - 1], x[i].at)
    {
      if i >= |a| {
        assert x[i] == b[i - |a|] && i - |a| > 0;
        assert x[i - 1] == b[i - |a| - 1];
      } else {
        assert x[i] == a[i] && x[i - 1] == a[i - 1];
      }
    }
  }

  /**
   Feeding frames in order of time, closing between them wherever a round ends or time jumps, and at the end,
   stores, for every name, one event per run of the greedy partition of its sightings, whatever the other
   names do in the same frames.
   */
  lemma {:induction false} FramesArePartitioned(s: Settings, run: seq<Input>, name: string)
    requires FramesInOrder(run)
    ensures var x := AllSignals(s, run, name, |run|);
      Steps(s.merge, name, Lane(None, []), x + [Cut]).emitted == Summaries(name, Runs(s.merge, Collect(x).all))
  {
    var x := AllSignals(s, run, name, |run|);
    SignalsInOrder(s, run, name, |run|, LatestFrame(run, |run|));
    hide AllSignals, InOrder, Looked, Runs, Summaries, Collect, FramesInOrder;
    StreamIsPartition(s.merge, name, x);
    StreamSteps(s.merge, name, [], x + [Cut]);
    assert [] + (x + [Cut]) == x + [Cut];
  }

  // ------------------------------------------------------------ when the network is asked

  /** The network is asked about input `n` of a run. */
  predicate AskedIn(s: Settings, run: seq<Input>, n: nat)
    requires n < |run|
  {
    run[n].Show? && run[n].frame.valid && !run[n].frame.changed && Asked(s, run[n].frame, LastAfter(s, run, n))
  }

  /** It was asked about input `i` and time has not jumped from there to `n`. */
  ghost predicate Recent(s: Settings, run: seq<Input>, i: nat, n: nat)
    requires n <= |run|
  {
    i < n && AskedIn(s, run, i) && forall k :: i < k < n ==> !run[k].Jump?
  }

  ghost predicate Latest(s: Settings, run: seq<Input>, n: nat, last: int)
    requires n <= |run|
  {
    if last == 0 then forall i: nat :: !Recent(s, run, i, n)
    else
      (exists i: nat :: Recent(s, run, i, n) && run[i].frame.ms == last)
      && forall i: nat :: Recent(s, run, i, n) ==> run[i].frame.ms <= last
  }

  /** It is the last one it was asked about before input `n`, and time has not jumped since. */
  ghost predicate Newest(s: Settings, run: seq<Input>, i: nat, n: nat)
    requires n <= |run|
  {
    Recent(s, run, i, n) && forall j: nat :: i < j < n ==> !AskedIn(s, run, j)
  }

  ghost predicate FramesPositive(run: seq<Input>) {
    forall i :: 0 <= i < |run| && run[i].Show? ==> run[i].frame.ms > 0
  }

  lemma {:induction false} LastIsLatest(s: Settings, run: seq<Input>, n: nat)
    requires n <= |run| && FramesInOrder(run) && FramesPositive(run)
    ensures LastAfter(s, run, n) >= 0 && Latest(s, run, n, LastAfter(s, run, n))
    decreases n
  {
    hide Asked;
    if n > 0 {
      LastIsLatest(s, run, n - 1);
      var before, now := LastAfter(s, run, n - 1), LastAfter(s, run, n);
      assert forall i: nat :: i < n - 1 ==>
        (Recent(s, run, i, n) <==> Recent(s, run, i, n - 1) && !run[n - 1].Jump?);
      assert Recent(s, run, n - 1, n) <==> AskedIn(s, run, n - 1);
      if AskedIn(s, run, n - 1) {
        assert now == run[n - 1].frame.ms;
      } else if !run[n - 1].Jump? {
        assert now == before;
      }
    }
  }

  /**
   Over a run of frames in order of time, the network is asked about a frame exactly if it is available, something
   moved or it is asked at rest too, and every frame it was asked about since time last jumped lies a whole interval
   back: the short one if something moved, the long one at rest.
   */
  lemma {:induction false} NetworkPaced(s: Settings, run: seq<Input>, n: nat)
    requires n < |run| && FramesInOrder(run) && FramesPositive(run)
    requires run[n].Show? && run[n].frame.valid && !run[n].frame.changed
    ensures var f := run[n].frame;
      AskedIn(s, run, n) <==>
        f.available && (f.moved || s.idleMs > 0)
        && forall i: nat :: Recent(s, run, i, n) ==> f.ms - run[i].frame.ms >= if f.moved then s.objectMs else s.idleMs
  {
    LastIsLatest(s, run, n);
    hide LastAfter, Recent;
    var last := LastAfter(s, run, n);
    assert forall i: nat :: Recent(s, run, i, n) ==> i < n && run[i].Show? by { RecentShows(s, run, n); }
    if last > 0 {
      assert last <= run[n].frame.ms;
    }
  }

  lemma {:induction false} LastIsNewest(s: Settings, run: seq<Input>, n: nat)
    requires n <= |run| && FramesPositive(run)
    ensures var last := LastAfter(s, run, n);
      if last > 0 then exists i: nat :: Newest(s, run, i, n) && run[i].frame.ms == last
      else last == 0 && forall i: nat :: !Recent(s, run, i, n)
    decreases n
  {
    hide Asked;
    if n > 0 {
      LastIsNewest(s, run, n - 1);
      assert forall i: nat :: i < n - 1 ==> (Recent(s, run, i, n) <==> Recent(s, run, i, n - 1) && !run[n - 1].Jump?);
      assert forall i: nat :: i < n - 1 ==>
        (Newest(s, run, i, n) <==> Newest(s, run, i, n - 1) && !run[n - 1].Jump? && !AskedIn(s, run, n - 1));
      assert Newest(s, run, n - 1, n) <==> AskedIn(s, run, n - 1);
    }
  }

  lemma {:induction false} OneNewest(s: Settings, run: seq<Input>, i: nat, j: nat, n: nat)
    requires n <= |run| && Newest(s, run, i, n) && Newest(s, run, j, n)
    ensures i == j
  {
  }

  /**
   Whatever the order of the frames' times: the network is asked about a frame exactly if it is available, something
   moved or it is asked at rest too, and the frame it was asked about last, if time has not jumped since, is a whole
   interval away, before or after.
   */
  lemma {:induction false} NetworkAsked(s: Settings, run: seq<Input>, n: nat)
    requires n < |run| && FramesPositive(run)
    requires run[n].Show? && run[n].frame.valid && !run[n].frame.changed
    ensures var f := run[n].frame;
      var iv := if f.moved then s.objectMs else s.idleMs;
      AskedIn(s, run, n) <==>
        f.available && (f.moved || s.idleMs > 0)
        && forall i: nat :: Newest(s, run, i, n) ==>
          f.ms - run[i].frame.ms >= iv || run[i].frame.ms - f.ms >= iv
  {
    LastIsNewest(s, run, n);
    RecentShows(s, run, n);
    var f, last := run[n].frame, LastAfter(s, run, n);
    var iv := if f.moved then s.objectMs else s.idleMs;
    if last > 0 {
      var i: nat :| Newest(s, run, i, n) && run[i].frame.ms == last;
      forall j: nat | Newest(s, run, j, n)
        ensures j == i
      {
        OneNewest(s, run, i, j, n);
      }
      hide LastAfter, Recent, Newest;
    } else {
      assert forall i: nat :: !Newest(s, run, i, n);
      hide LastAfter, Recent, Newest;
    }
  }

  lemma {:induction false} RecentShows(s: Settings, run: seq<Input>, n: nat)
    requires n <= |run|
    ensures forall i: nat :: Recent(s, run, i, n) ==> i < n && run[i].Show?
  {
  }

  /** An instant no frame is after. */
  function LatestFrame(run: seq<Input>, n: nat): (ms: int)
    requires n <= |run|
    ensures forall i :: 0 <= i < n && run[i].Show? ==> run[i].frame.ms <= ms
  {
    if n == 0 then 0
    else
      var before := LatestFrame(run, n - 1);
      if run[n - 1].Show? && run[n - 1].frame.ms > before then run[n - 1].frame.ms else before
  }

  // ------------------------------------------------------------ a whole camera

  /** Of all the events stored, those of one name. */
  function Of(log: seq<Event>, name: string): seq<Event> {
    if log == [] then []
    else Of(log[..|log| - 1], name) + (if log[|log| - 1].name == name then [log[|log| - 1]] else [])
  }

  lemma {:induction false} OfAppend(log: seq<Event>, e: Event, name: string)
    ensures Of(log + [e], name) == Of(log, name) + (if e.name == name then [e] else [])
  {
    assert (log + [e])[..|log|] == log;
  }

  /** What one name has open and stored. */
  function LaneIn(open: map<string, Open>, log: seq<Event>, name: string): Lane {
    Lane(if name in open then Some(open[name]) else None, Of(log, name))
  }

  lemma {:induction false} Staleness(cfg: Config, open: map<string, Open>, log: seq<Event>, name: string, ms: int)
    ensures var l := LaneIn(open, log, name);
      Step(cfg, name, l, Look(ms)) == if name in open && ms - open[name].lastSeen > cfg.gapMs then Closed(l) else l
  {
    hide Of, Closed;
  }

  ghost predicate Keyed(open: map<string, Open>) {
    forall n :: n in open ==> open[n].ev.name == n
  }

  /** The lane of a name after the loop over hits has passed the first `k`. */
  function NotedHits(s: Settings, l: Lane, ms: int, hits: seq<Hit>, name: string, k: nat): Lane
    requires k <= |hits|
  {
    if !Wanted(s, name) || Merge(hits, name, k).None? then l
    else match Merge(hits, name, |hits|) case None => l case Some(g) => Noted(s.merge, l, name, ms, g.score, g.count,
      g.box)
  }

  /** What a frame does to one name, step by step. */
  lemma {:induction false} FrameSteps(s: Settings, f: Frame, name: string, last: int, l: Lane)
    ensures var looked := Step(s.merge, name, l, Look(f.ms));
      var moved := if f.moved && name == MOTION then Noted(s.merge, looked, name, f.ms, f.score, 1, f.box) else looked;
      Steps(s.merge, name, l, SignalsOf(s, f, name, last)) ==
      if !f.valid then l
      else if f.changed then Closed(l)
      else if !Asked(s, f, last) || f.hits.None? then moved
      else NotedHits(s, moved, f.ms, f.hits.value, name, |f.hits.value|)
  {
    var look, motion, objects := [Look(f.ms)], MotionSeen(f, name), ObjectSeen(s, f, name, last);
    StepsFew(s.merge, name, l, SignalsOf(s, f, name, last));
    StepsJoin(s.merge, name, l, look + motion, objects);
    StepsJoin(s.merge, name, l, look, motion);
    StepsFew(s.merge, name, l, look);
    StepsFew(s.merge, name, Steps(s.merge, name, l, look), motion);
    StepsFew(s.merge, name, Steps(s.merge, name, l, look + motion), objects);
    hide Steps, Merge, Noted, Closed, Asked;
  }

  lemma {:induction false} SeenStays(s: Settings, hits: seq<Hit>, i: nat)
    requires i < |hits|
    ensures forall n :: n != hits[i].name ==> Merge(hits, n, i + 1) == Merge(hits, n, i)
    ensures Merge(hits, hits[i].name, i + 1).Some?
  {
  }

  /** Of what was open, the events of `done` are closed and stored. */
  ghost predicate Closing(open0: map<string, Open>, log0: seq<Event>, open: map<string, Open>, log: seq<Event>,
      done: set<string>) {
    Keyed(open) && open.Keys == open0.Keys - done
    && forall n :: LaneIn(open, log, n) == if n in done then Closed(LaneIn(open0, log0, n)) else LaneIn(open0, log0, n)
  }

  lemma {:induction false} ClosingStarts(open: map<string, Open>, log: seq<Event>)
    requires Keyed(open)
    ensures Closing(open, log, open, log, {})
  {
    hide Of;
  }

  lemma {:induction false} ClosingTells(open0: map<string, Open>, log0: seq<Event>, open: map<string, Open>,
      log: seq<Event>, done: set<string>)
    requires Closing(open0, log0, open, log, done)
    ensures Keyed(open) && open.Keys == open0.Keys - done
    ensures forall n :: LaneIn(open, log, n) == if n in done then Closed(LaneIn(open0, log0, n))
      else LaneIn(open0, log0, n)
  {
  }

  lemma {:induction false} ClosingHas(open0: map<string, Open>, log0: seq<Event>, open: map<string, Open>,
      log: seq<Event>, done: set<string>, k: string)
    requires Closing(open0, log0, open, log, done) && k in open0 && k !in open
    ensures k in done
  {
  }

  lemma {:induction false} CloseOne(open0: map<string, Open>, log0: seq<Event>, open: map<string, Open>,
      log: seq<Event>, done: set<string>, k: string)
    requires Closing(open0, log0, open, log, done) && k in open
    ensures Closing(open0, log0, open - {k}, log + [open[k].ev], done + {k})
  {
    var e := open[k].ev;
    forall n
      ensures LaneIn(open - {k}, log + [e], n) == if n in done + {k} then Closed(LaneIn(open0, log0, n))
        else LaneIn(open0, log0, n)
    {
      OfAppend(log, e, n);
      assert LaneIn(open, log, n) == if n in done then Closed(LaneIn(open0, log0, n)) else LaneIn(open0, log0, n);
    }
    hide Of;
  }

  /** The lane of `name` becomes what noting makes of it, and no other changes. */
  ghost predicate Notes(cfg: Config, open0: map<string, Open>, log0: seq<Event>, open: map<string, Open>,
      log: seq<Event>, name: string, ms: int, score: real, count: int, box: Box) {
    LaneIn(open, log, name) == Noted(cfg, LaneIn(open0, log0, name), name, ms, score, count, box)
    && forall n :: n != name ==> LaneIn(open, log, n) == LaneIn(open0, log0, n)
  }

  lemma {:induction false} NoteOpens(cfg: Config, open: map<string, Open>, log: seq<Event>, name: string, ms: int,
      score: real, count: int, box: Box)
    requires name !in open && Keyed(open)
    ensures var now := open[name := Open(Event(name, ms, ms, score, count, box), ms)];
      Keyed(now) && Notes(cfg, open, log, now, log, name, ms, score, count, box)
  {
    hide Of, Stretch;
  }

  lemma {:induction false} NoteStretches(cfg: Config, open: map<string, Open>, log: seq<Event>, name: string, ms: int,
      score: real, count: int, box: Box)
    requires name in open && Keyed(open) && !(cfg.maxMs > 0 && ms - open[name].ev.start >= cfg.maxMs)
    ensures var now := open[name := Stretch(open[name], ms, score, count, box)];
      Keyed(now) && Notes(cfg, open, log, now, log, name, ms, score, count, box)
  {
    hide Of;
  }

  lemma {:induction false} NoteCloses(cfg: Config, open: map<string, Open>, log: seq<Event>, name: string, ms: int,
      score: real, count: int, box: Box)
    requires name in open && Keyed(open) && cfg.maxMs > 0 && ms - open[name].ev.start >= cfg.maxMs
    ensures var now := open[name := Open(Event(name, ms, ms, score, count, box), ms)];
      Keyed(now) && Notes(cfg, open, log, now, log + [open[name].ev], name, ms, score, count, box)
  {
    var e := open[name].ev;
    forall n
      ensures Of(log + [e], n) == Of(log, n) + (if n == name then [e] else [])
    {
      OfAppend(log, e, n);
    }
    hide Of, Stretch;
  }

  class Analyzer {
    const settings: Settings
    var open: map<string, Open>
    var log: seq<Event>
    var lastObjectMs: int

    ghost predicate Valid()
      reads this
    {
      Keyed(open)
    }

    ghost function LaneOf(name: string): Lane
      reads this
    {
      LaneIn(open, log, name)
    }

    constructor (s: Settings)
      ensures Valid() && settings == s && lastObjectMs == 0 && forall n :: LaneOf(n) == Lane(None, [])
    {
      settings, open, log, lastObjectMs := s, map[], [], 0;
    }

    method Note(ms: int, name: string, score: real, count: int, box: Box)
      requires Valid()
      modifies this`open, this`log
      ensures Valid()
      ensures LaneOf(name) == Noted(settings.merge, old(LaneOf(name)), name, ms, score, count, box)
      ensures forall n :: n != name ==> LaneOf(n) == old(LaneOf(n))
    {
      hide LaneIn, Noted, Keyed, Stretch;
      if name in open {
        var o := open[name];
        if settings.merge.maxMs > 0 && ms - o.ev.start >= settings.merge.maxMs {
          NoteCloses(settings.merge, open, log, name, ms, score, count, box);
          log := log + [o.ev];
        } else {
          NoteStretches(settings.merge, open, log, name, ms, score, count, box);
          open := open[name := Stretch(o, ms, score, count, box)];
          return;
        }
      } else {
        NoteOpens(settings.merge, open, log, name, ms, score, count, box);
      }
      open := open[name := Open(Event(name, ms, ms, score, count, box), ms)];
    }

    /** Closes and stores the events of `names`. */
    method CloseAll(names: set<string>)
      requires Valid() && names <= open.Keys
      modifies this`open, this`log
      ensures Valid() && open.Keys == old(open.Keys) - names
      ensures forall n :: LaneOf(n) == if n in names then Closed(old(LaneOf(n))) else old(LaneOf(n))
    {
      ghost var before, stored, done := open, log, {};
      var todo := names;
      ClosingStarts(open, log);
      hide Closing, Of, LaneIn, Closed, Keyed;
      while todo != {}
        invariant names == done + todo && Closing(before, stored, open, log, done)
        decreases todo
      {
        var k :| k in todo;
        todo := todo - {k};
        if k in open {
          CloseOne(before, stored, open, log, done, k);
          log := log + [open[k].ev];
          open := open - {k};
          done := done + {k};
        } else {
          ClosingHas(before, stored, open, log, done, k);
        }
      }
      ClosingTells(before, stored, open, log, names);
    }

    method CloseStale(ms: int)
      requires Valid()
      modifies this`open, this`log
      ensures Valid()
      ensures forall n :: LaneOf(n) == Step(settings.merge, n, old(LaneOf(n)), Look(ms))
    {
      ghost var before, stored := open, log;
      var stale := set n | n in open && ms - open[n].lastSeen > settings.merge.gapMs;
      CloseAll(stale);
      forall n
        ensures LaneOf(n) == Step(settings.merge, n, LaneIn(before, stored, n), Look(ms))
      {
        assert LaneOf(n) == if n in stale then Closed(LaneIn(before, stored, n)) else LaneIn(before, stored, n);
        Staleness(settings.merge, before, stored, n, ms);
      }
    }

    method Flush()
      requires Valid()
      modifies this`open, this`log
      ensures Valid() && open == map[]
      ensures forall n :: LaneOf(n) == Closed(old(LaneOf(n)))
    {
      ghost var names := open.Keys;
      CloseAll(open.Keys);
      assert open.Keys == {};
      forall n
        ensures LaneOf(n) == Closed(old(LaneOf(n)))
      {
        assert n !in names ==> old(LaneOf(n)).open.None?;
      }
    }

    /** Forgets what is open without storing it: after a jump in time. */
    method Rewind()
      modifies this`open, this`lastObjectMs
      ensures Valid() && open == map[] && lastObjectMs == 0 && log == old(log)
      ensures old(open) == map[] ==> forall n :: LaneOf(n) == old(LaneOf(n))
    {
      open, lastObjectMs := map[], 0;
    }

    /** The other hits of the name of hit `i`, gathered with it. */
    method Gather(hits: seq<Hit>, i: nat) returns (g: Group)
      requires i < |hits| && Merge(hits, hits[i].name, i).None?
      ensures Merge(hits, hits[i].name, |hits|) == Some(g)
    {
      var best, box, n := hits[i].score, hits[i].box, 1;
      for j := i + 1 to |hits|
        invariant Merge(hits, hits[i].name, j) == Some(Group(n, best, box))
      {
        if hits[j].name == hits[i].name {
          n := n + 1;
          if hits[j].score > best {
            best, box := hits[j].score, hits[j].box;
          }
        }
      }
      g := Group(n, best, box);
    }

    /** Notes every wanted name of the hits once, with all its hits. */
    method NoteHits(ms: int, hits: seq<Hit>)
      requires Valid()
      modifies this`open, this`log
      ensures Valid()
      ensures forall n :: LaneOf(n) == NotedHits(settings, old(LaneOf(n)), ms, hits, n, |hits|)
    {
      var seen: set<string> := {};
      for i := 0 to |hits|
        invariant Valid()
        invariant forall n :: n in seen <==> Wanted(settings, n) && Merge(hits, n, i).Some?
        invariant forall n :: LaneOf(n) == NotedHits(settings, old(LaneOf(n)), ms, hits, n, i)
      {
        var name := hits[i].name;
        if !Wanted(settings, name) || name in seen {
          SeenStays(settings, hits, i);
          continue;
        }
        var g := Gather(hits, i);
        Note(ms, name, g.score, g.count, g.box);
        seen := seen + {name};
        SeenStays(settings, hits, i);
      }
    }

    method Feed(f: Frame)
      requires Valid()
      modifies this`open, this`log, this`lastObjectMs
      ensures Valid() && lastObjectMs == LastAsked(settings, f, old(lastObjectMs))
      ensures forall n :: LaneOf(n) == Steps(settings.merge, n, old(LaneOf(n)),
        SignalsOf(settings, f, n, old(lastObjectMs)))
    {
      ghost var last := lastObjectMs;
      forall n {
        FrameSteps(settings, f, n, last, LaneOf(n));
      }
      hide Steps, SignalsOf, Noted, Closed, NotedHits, LaneIn;
      if !f.valid {
        return;
      }
      if f.changed {
        Flush();
        return;
      }
      CloseStale(f.ms);
      if f.moved {
        Note(f.ms, MOTION, f.score, 1, f.box);
      }
      if !f.available {
        return;
      }
      var iv := if f.moved then settings.objectMs else settings.idleMs;
      if !f.moved && iv <= 0 {
        return;
      }
      if lastObjectMs > 0 && (if f.ms >= lastObjectMs then f.ms - lastObjectMs else lastObjectMs - f.ms) < iv {
        return;
      }
      lastObjectMs := f.ms;
      if f.hits.None? {
        return;
      }
      NoteHits(f.ms, f.hits.value);
    }
  }
}
