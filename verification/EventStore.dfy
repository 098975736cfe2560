/** The stored events and the query over them, for a limit on the length of events shared with the analyzer. */
module EventStore {
  import opened Bytes
  import opened EventMerging
  import opened LookBack

  const DEFAULT_LIMIT: nat := 4000

  /** How far back a query looks: the longest an event may be, or five minutes when that has no limit. */
  function Reach(maxMs: int): (r: int)
    ensures r > 0
  {
    if maxMs <= 0 then 300000 else maxMs
  }

  datatype Kind = Motion | Object

  datatype Stored = Stored(kind: Kind, event: Event)

  /** Only such events are stored. */
  predicate ValidEvent(e: Event) {
    e.start > 0 && e.end >= e.start && e.name != ""
  }

  /** Scores are stored within 0 and 1. */
  function Clamped(e: Event): Event {
    e.(score := if e.score < 0.0 then 0.0 else if e.score > 1.0 then 1.0 else e.score)
  }

  function Append(log: seq<Stored>, kind: Kind, e: Event): seq<Stored> {
    if ValidEvent(e) then log + [Stored(kind, Clamped(e))] else log
  }

  function AppendAll(log: seq<Stored>, kind: Kind, es: seq<Event>): seq<Stored> {
    if es == [] then log else Append(AppendAll(log, kind, es[..|es| - 1]), kind, es[|es| - 1])
  }

  /** Filters besides the window: a kind, a name, a least score. */
  datatype Filter = Filter(kind: Option<Kind>, name: string, minScore: real)

  predicate Passes(f: Filter, s: Stored) {
    (f.kind.Some? ==> s.kind == f.kind.value)
    && (f.name == "" || s.event.name == f.name) && (f.minScore > 0.0 ==> s.event.score >= f.minScore)
  }

  /** The rows of the events that pass a filter. */
  function RowsOf(log: seq<Stored>, f: Filter): seq<Row<Stored>> {
    if log == [] then []
    else
      var s := log[|log| - 1];
      RowsOf(log[..|log| - 1], f) + (if Passes(f, s) then [Row(s.event.start, s.event.end, s)] else [])
  }

  function Query(log: seq<Stored>, f: Filter, from: int, to: int, maxMs: int, limit: nat): seq<Row<Stored>> {
    if to <= from then []
    else Limited(Within(RowsOf(log, f), from, to, Reach(maxMs)), if limit == 0 then DEFAULT_LIMIT else limit)
  }

  /** What a query should give: every passing event that overlaps, up to the limit. */
  function Answer(log: seq<Stored>, f: Filter, from: int, to: int, limit: nat): seq<Row<Stored>> {
    if to <= from then []
    else Limited(Overlapping(RowsOf(log, f), from, to), if limit == 0 then DEFAULT_LIMIT else limit)
  }

  predicate ShortEvent(e: Event, reach: int) {
    e.start <= e.end <= e.start + reach
  }

  ghost predicate Short(es: seq<Event>, reach: int) {
    forall k :: 0 <= k < |es| ==> ShortEvent(es[k], reach)
  }

  ghost predicate ShortRows(log: seq<Stored>, reach: int) {
    forall k :: 0 <= k < |log| ==> ShortEvent(log[k].event, reach)
  }

  lemma {:induction false} RowsShort(log: seq<Stored>, f: Filter, reach: int)
    requires ShortRows(log, reach)
    ensures forall k :: 0 <= k < |RowsOf(log, f)| ==> NoLonger(RowsOf(log, f)[k], reach)
    decreases |log|
  {
    hide Passes;
    if log != [] {
      RowsShort(log[..|log| - 1], f, reach);
      assert ShortEvent(log[|log| - 1].event, reach);
    }
  }

  /** The rows looked through are the stored events of the kind, name and least score asked for, and no others. */
  lemma {:induction false} RowsAre(log: seq<Stored>, f: Filter, r: Row<Stored>)
    ensures r in RowsOf(log, f) <==>
      exists k :: 0 <= k < |log| && r == Row(log[k].event.start, log[k].event.end, log[k])
        && (f.kind == None || f.kind == Some(log[k].kind))
        && (f.name == "" || f.name == log[k].event.name)
        && (f.minScore <= 0.0 || f.minScore <= log[k].event.score)
    decreases |log|
  {
    if log != [] {
      var n := |log| - 1;
      RowsAre(log[..n], f, r);
      assert forall k :: 0 <= k < n ==> log[..n][k] == log[k];
    }
  }

  /** Over events none longer than the reach, every query gives all that overlaps. */
  lemma {:induction false} ShortEventsFound(log: seq<Stored>, f: Filter, from: int, to: int, maxMs: int, limit: nat)
    requires ShortRows(log, Reach(maxMs))
    ensures Query(log, f, from, to, maxMs, limit) == Answer(log, f, from, to, limit)
  {
    RowsShort(log, f, Reach(maxMs));
    ReachMissesNothing(RowsOf(log, f), from, to, Reach(maxMs));
    hide RowsOf, Limited, Within, Overlapping;
  }

  /** Storing keeps exactly the valid events, in order, and leaves them as short as they were. */
  lemma {:induction false} StoredAre(log: seq<Stored>, kind: Kind, es: seq<Event>, reach: int)
    requires ShortRows(log, reach) && Short(es, reach)
    ensures ShortRows(AppendAll(log, kind, es), reach)
    ensures |AppendAll(log, kind, es)| >= |log| && AppendAll(log, kind, es)[..|log|] == log
    ensures forall e :: e in es && ValidEvent(e) ==> Stored(kind, Clamped(e)) in AppendAll(log, kind, es)
    decreases |es|
  {
    if es != [] {
      var before, e := es[..|es| - 1], es[|es| - 1];
      StoredAre(log, kind, before, reach);
      assert es == before + [e] && ShortEvent(e, reach);
      assert ShortEvent(Clamped(e), reach);
      hide AppendAll, ValidEvent, Clamped, ShortEvent;
      assert AppendAll(log, kind, es) == Append(AppendAll(log, kind, before), kind, e) by { AppendLast(log, kind, es); }
    }
  }

  lemma {:induction false} AppendLast(log: seq<Stored>, kind: Kind, es: seq<Event>)
    requires es != []
    ensures AppendAll(log, kind, es) == Append(AppendAll(log, kind, es[..|es| - 1]), kind, es[|es| - 1])
  {
    hide Append;
  }

  // ------------------------------------------------------------ exactly when the analyzer's events are short

  /** With a gap that is not positive, an event lasts no time at all. */
  lemma {:induction false} NoGapNoLength(cfg: Config, r: Run)
    requires Whole(cfg, r) && cfg.gapMs <= 0
    ensures r.last.ms <= First(r).ms
    decreases |r.body|
  {
    if r.body != [] {
      WholeShortened(cfg, r);
      var n := |r.body| - 1;
      NoGapNoLength(cfg, Run(r.body[..n], r.body[n]));
    }
  }

  /** A name seen every millisecond, from 0 to `n`. */
  function Steady(n: nat): seq<Signal> {
    (if n == 0 then [] else Steady(n - 1)) + [Look(n), Seen(n, 0.5, 1, Box(0.0, 0.0, 0.0, 0.0))]
  }

  lemma {:induction false} SteadyFrames(cfg: Config, n: nat)
    ensures InOrder(Steady(n)) && Looked(Steady(n))
    ensures forall i :: 0 <= i < |Steady(n)| ==> !Steady(n)[i].Cut? && Time(Steady(n)[i]) <= n
    decreases n
  {
    if n > 0 {
      SteadyFrames(cfg, n - 1);
    }
  }

  lemma {:induction false} StreamTwo(cfg: Config, name: string, a: seq<Signal>, x: Signal, y: Signal)
    ensures Stream(cfg, name, a + [x, y]) == Step(cfg, name, Step(cfg, name, Stream(cfg, name, a), x), y)
  {
    hide Step;
    assert (a + [x, y])[..|a| + 1] == a + [x] && (a + [x])[..|a|] == a;
  }

  /** With a gap and no limit, it is one event that goes on and on. */
  lemma {:induction false} SteadyStream(cfg: Config, name: string, n: nat)
    requires cfg.maxMs <= 0 && cfg.gapMs >= 1
    ensures Stream(cfg, name, Steady(n)) == Lane(Some(Open(Event(name, 0, n, 0.5, 1, Box(0.0, 0.0, 0.0, 0.0)), n)), [])
    decreases n
  {
    var x, y := Look(n), Seen(n, 0.5, 1, Box(0.0, 0.0, 0.0, 0.0));
    if n == 0 {
      StreamTwo(cfg, name, [], x, y);
      assert [] + [x, y] == Steady(n);
    } else {
      SteadyStream(cfg, name, n - 1);
      StreamTwo(cfg, name, Steady(n - 1), x, y);
    }
    hide Stream, Steady;
  }

  /** All that one name's frames can ever store is short. */
  ghost predicate AlwaysShort(cfg: Config, name: string) {
    forall signals :: InOrder(signals) && Looked(signals)
      ==> Short(Stream(cfg, name, signals + [Cut]).emitted, Reach(cfg.maxMs))
  }

  lemma {:induction false} LimitedIsShort(cfg: Config, name: string, signals: seq<Signal>)
    requires InOrder(signals) && Looked(signals) && (cfg.maxMs > 0 || cfg.gapMs <= 0)
    ensures Short(Stream(cfg, name, signals + [Cut]).emitted, Reach(cfg.maxMs))
  {
    hide Stream, InOrder, Looked, Runs, Collect, Summaries, Whole;
    var es := Stream(cfg, name, signals + [Cut]).emitted;
    StreamIsPartition(cfg, name, signals);
    var ss := Collect(signals).all;
    forall k | 0 <= k < |es|
      ensures ShortEvent(es[k], Reach(cfg.maxMs))
    {
      EventsApart(cfg, name, signals, k, k);
      EventAt(cfg, name, ss, k);
      RunsAreGreedy(cfg, ss);
      assert Whole(cfg, Runs(cfg, ss)[k]);
      if cfg.gapMs <= 0 {
        NoGapNoLength(cfg, Runs(cfg, ss)[k]);
      }
    }
  }

  /**
   Exactly when events are always within the reach of a query over a shared setting: if and only if the
   longest event is limited, or sightings are never joined over time.
   */
  lemma {:induction false} ReachSuffices(cfg: Config, name: string)
    ensures AlwaysShort(cfg, name) <==> cfg.maxMs > 0 || cfg.gapMs <= 0
  {
    if cfg.maxMs > 0 || cfg.gapMs <= 0 {
      forall signals | InOrder(signals) && Looked(signals)
        ensures Short(Stream(cfg, name, signals + [Cut]).emitted, Reach(cfg.maxMs))
      {
        LimitedIsShort(cfg, name, signals);
      }
    } else {
      var n := 300001;
      var signals := Steady(n);
      SteadyFrames(cfg, n);
      SteadyStream(cfg, name, n);
      hide Steady, InOrder, Looked;
      assert (signals + [Cut])[..|signals|] == signals;
      assert Stream(cfg, name, signals + [Cut]).emitted == [Event(name, 0, n, 0.5, 1, Box(0.0, 0.0, 0.0, 0.0))];
      assert !Short(Stream(cfg, name, signals + [Cut]).emitted, Reach(cfg.maxMs)) by {
        var e := Stream(cfg, name, signals + [Cut]).emitted[0];
        assert e.end > e.start + 300000;
      }
    }
  }

  /**
   From frames to answers: whatever one name's frames are, when the longest event is limited, its events go
   into the store and every query over them, under the same limit, gives all that overlaps.
   */
  lemma {:induction false} AnalyzedEventsFound(cfg: Config, name: string, kind: Kind, signals: seq<Signal>,
      log: seq<Stored>,
                                              f: Filter, from: int, to: int, limit: nat)
    requires InOrder(signals) && Looked(signals) && cfg.maxMs > 0 && ShortRows(log, Reach(cfg.maxMs))
    ensures var all := AppendAll(log, kind, Stream(cfg, name, signals + [Cut]).emitted);
      ShortRows(all, Reach(cfg.maxMs)) && Query(all, f, from, to, cfg.maxMs, limit) == Answer(all, f, from, to, limit)
  {
    hide Stream, InOrder, Looked, Short, ShortRows, AppendAll, Query, Answer;
    LimitedIsShort(cfg, name, signals);
    var es := Stream(cfg, name, signals + [Cut]).emitted;
    StoredAre(log, kind, es, Reach(cfg.maxMs));
    ShortEventsFound(AppendAll(log, kind, es), f, from, to, cfg.maxMs, limit);
  }

  /** An event longer than the reach is missed by a query for its end. */
  lemma {:induction false} LongEventMissed(s: Stored, maxMs: int, f: Filter)
    requires s.event.end > s.event.start + Reach(maxMs) && Passes(f, s)
    ensures Query([s], f, s.event.end, s.event.end + 1, maxMs, 0) == []
    ensures Answer([s], f, s.event.end, s.event.end + 1, 0) == [Row(s.event.start, s.event.end, s)]
  {
    var row := Row(s.event.start, s.event.end, s);
    assert RowsOf([s], f) == [row];
    hide RowsOf;
    WindowOfOne(row, s.event.end, s.event.end + 1, Reach(maxMs));
    LimitedFew(row);
    hide Within, Overlapping, Limited;
  }

  lemma {:induction false} WindowOfOne(row: Row<Stored>, from: int, to: int, reach: int)
    ensures Overlapping([row], from, to) == if Overlaps(row, from, to) then [row] else []
    ensures row.start < from - reach ==> Within([row], from, to, reach) == []
  {
    var rows := [row];
    assert rows[..0] == [];
    assert Overlapping(rows[..0], from, to) == [] && Within(rows[..0], from, to, reach) == [];
  }

  lemma {:induction false} LimitedFew(row: Row<Stored>)
    ensures Limited<Stored>([], DEFAULT_LIMIT) == [] && Limited([row], DEFAULT_LIMIT) == [row]
  {
    assert [row][..0] == [];
    assert Ordered([row]) == [row];
  }
}
