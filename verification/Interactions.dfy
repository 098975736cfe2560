/** Who moved or spoke through a camera, gathered into stretches for the timeline. */
module Interactions {
  import opened LookBack

  const GAP_MS: int := 15000
  const MAX_MS: int := 300000

  /** A camera, its name in lower case, and what was done: moving it or speaking. */
  datatype Key = Key(camera: string, kind: string)

  datatype Gesture = Gesture(key: Key, counts: map<string, nat>)

  datatype Open = Open(start: int, end: int, counts: map<string, nat>)

  datatype Call = Call(key: Key, action: string)

  predicate Blank(s: string) {
    forall i :: 0 <= i < |s| ==> s[i] in {' ', '\t', '\n', '\r'}
  }

  function CountOf(counts: map<string, nat>, action: string): nat {
    if action in counts then counts[action] else 0
  }

  function Increment(counts: map<string, nat>, action: string): (r: map<string, nat>)
    ensures forall a :: CountOf(r, a) == CountOf(counts, a) + (if a == action != "" then 1 else 0)
  {
    if action == "" then counts else counts[action := CountOf(counts, action) + 1]
  }

  function RowOf(k: Key, o: Open): Row<Gesture> {
    Row(o.start, o.end, Gesture(k, o.counts))
  }

  /** How often the stored rows tell of an action. */
  function Stored(rows: seq<Row<Gesture>>, k: Key, action: string): nat {
    if rows == [] then 0
    else
      var r := rows[|rows| - 1].what;
      Stored(rows[..|rows| - 1], k, action) + (if r.key == k then CountOf(r.counts, action) else 0)
  }

  function Pending(open: map<Key, Open>, k: Key, action: string): nat {
    if k in open then CountOf(open[k].counts, action) else 0
  }

  /** How often an action was registered. */
  function Registered(calls: seq<Call>, k: Key, action: string): nat {
    if calls == [] then 0
    else Registered(calls[..|calls| - 1], k, action) + (if calls[|calls| - 1] == Call(k, action) && action != "" then 1
      else 0)
  }

  function RowsOf(rows: seq<Row<Gesture>>, camera: string): seq<Row<Gesture>> {
    if rows == [] then []
    else
      var r := rows[|rows| - 1];
      RowsOf(rows[..|rows| - 1], camera) + (if r.what.key.camera == camera then [r] else [])
  }

  lemma {:induction false} StoredAppend(rows: seq<Row<Gesture>>, r: Row<Gesture>, k: Key, action: string)
    ensures Stored(rows + [r], k, action) == Stored(rows, k, action) + (if r.what.key == k
      then CountOf(r.what.counts, action) else 0)
  {
    assert (rows + [r])[..|rows|] == rows;
  }

  lemma {:induction false} RegisteredAppend(calls: seq<Call>, c: Call, k: Key, action: string)
    ensures Registered(calls + [c], k, action)
      == Registered(calls, k, action) + (if c == Call(k, action) && action != "" then 1 else 0)
  {
    assert (calls + [c])[..|calls|] == calls;
  }

  ghost predicate Bounded(rows: seq<Row<Gesture>>) {
    forall i :: 0 <= i < |rows| ==> NoLonger(rows[i], MAX_MS)
  }

  ghost predicate OpenBounded(open: map<Key, Open>) {
    forall k :: k in open ==> NoLonger(RowOf(k, open[k]), MAX_MS)
  }

  lemma {:induction false} RowsOfBounded(rows: seq<Row<Gesture>>, camera: string)
    requires Bounded(rows)
    ensures Bounded(RowsOf(rows, camera))
    decreases |rows|
  {
    if rows != [] {
      RowsOfBounded(rows[..|rows| - 1], camera);
    }
  }

  /** Every action registered is stored or open, and counted once. */
  ghost predicate Conserved(open: map<Key, Open>, rows: seq<Row<Gesture>>, calls: seq<Call>) {
    forall k, a :: Stored(rows, k, a) + Pending(open, k, a) == Registered(calls, k, a)
  }

  /** Storing an open stretch moves its counts. */
  lemma {:induction false} CloseConserves(open: map<Key, Open>, rows: seq<Row<Gesture>>, calls: seq<Call>, k: Key)
    requires Conserved(open, rows, calls) && k in open
    ensures Conserved(open - {k}, rows + [RowOf(k, open[k])], calls)
  {
    hide Registered, Stored;
    forall j, a
      ensures Stored(rows + [RowOf(k, open[k])], j, a) + Pending(open - {k}, j, a) == Registered(calls, j, a)
    {
      StoredAppend(rows, RowOf(k, open[k]), j, a);
      assert Stored(rows, j, a) + Pending(open, j, a) == Registered(calls, j, a);
    }
  }

  lemma {:induction false} RegisterConserves(open: map<Key, Open>, rows: seq<Row<Gesture>>, calls: seq<Call>, c: Call,
      o: Open)
    requires Conserved(open, rows, calls)
    requires forall a :: CountOf(o.counts, a) == Pending(open, c.key, a) + (if a == c.action != "" then 1 else 0)
    ensures Conserved(open[c.key := o], rows, calls + [c])
  {
    hide Registered, Stored;
    forall j, a
      ensures Stored(rows, j, a) + Pending(open[c.key := o], j, a) == Registered(calls + [c], j, a)
    {
      RegisteredAppend(calls, c, j, a);
      assert Stored(rows, j, a) + Pending(open, j, a) == Registered(calls, j, a);
    }
  }

  /** Rows gained are the stretches no longer open, each once. */
  ghost predicate Moved(was: map<Key, Open>, open: map<Key, Open>, before: seq<Row<Gesture>>, rows: seq<Row<Gesture>>) {
    before <= rows && open.Keys <= was.Keys && |rows| + |open| == |before| + |was|
    && (forall k :: k in open ==> open[k] == was[k])
    && (forall k :: k in was && k !in open ==> RowOf(k, was[k]) in rows[|before|..])
  }

  lemma {:induction false} MovedOne(was: map<Key, Open>, open: map<Key, Open>, before: seq<Row<Gesture>>,
      rows: seq<Row<Gesture>>, k: Key)
    requires Moved(was, open, before, rows) && k in open
    ensures Moved(was, open - {k}, before, rows + [RowOf(k, open[k])])
  {
    var after := rows + [RowOf(k, open[k])];
    assert after[|before|..] == rows[|before|..] + [RowOf(k, open[k])];
    assert (open - {k}).Keys == open.Keys - {k} && |open| == |open.Keys| && |open - {k}| == |(open - {k}).Keys|;
  }

  class InteractionLog {
    var open: map<Key, Open>
    var rows: seq<Row<Gesture>>
    ghost var calls: seq<Call>

    /** In every reachable state, whatever the clock says. */
    ghost predicate Valid()
      reads this
    {
      OpenBounded(open) && Bounded(rows) && Conserved(open, rows, calls)
    }

    constructor ()
      ensures Valid() && open == map[] && rows == [] && calls == []
    {
      open, rows, calls := map[], [], [];
    }

    /** Stores an open stretch. */
    method Close(k: Key)
      requires Valid() && k in open
      modifies this`open, this`rows
      ensures Valid() && open == old(open) - {k} && rows == old(rows) + [RowOf(k, old(open)[k])]
    {
      hide Stored, Pending, Registered, Conserved;
      CloseConserves(open, rows, calls, k);
      rows := rows + [RowOf(k, open[k])];
      open := open - {k};
    }

    /** A command that was just sent; `now` is whatever the clock says, even earlier than before. */
    method Register(now: int, camera: string, kind: string, action: string)
      requires Valid()
      modifies this
      ensures Valid()
      ensures Blank(camera) || Blank(kind) ==> open == old(open) && rows == old(rows) && calls == old(calls)
      ensures !Blank(camera) && !Blank(kind) ==>
        var k := Key(camera, kind);
        var gone := k in old(open) && (now - old(open)[k].end > GAP_MS || now - old(open)[k].start > MAX_MS);
        var was := if k in old(open) && !gone then old(open)[k] else Open(now, now, map[]);
        calls == old(calls) + [Call(k, action)]
        && rows == old(rows) + (if gone then [RowOf(k, old(open)[k])] else [])
        && open == old(open)[k := Open(was.start, if now > was.end then now
          else was.end, Increment(was.counts, action))]
    {
      hide Stored, Registered, Conserved;
      if Blank(camera) || Blank(kind) {
        return;
      }
      var k := Key(camera, kind);
      if k in open && (now - open[k].end > GAP_MS || now - open[k].start > MAX_MS) {
        Close(k);
      }
      var a := if k in open then open[k] else Open(now, now, map[]);
      var end := if a.end >= now then a.end else now;
      end := if end >= a.start then end else a.start;
      var grown := Open(a.start, end, Increment(a.counts, action));
      RegisterConserves(open, rows, calls, Call(k, action), grown);
      open := open[k := grown];
      calls := calls + [Call(k, action)];
    }

    /** Stores the open stretches of `keys`. */
    method CloseAll(keys: set<Key>)
      requires Valid() && keys <= open.Keys
      modifies this`open, this`rows
      ensures Valid() && open == old(open) - keys && Moved(old(open), open, old(rows), rows)
    {
      hide Stored, Registered, Conserved, OpenBounded, Bounded;
      assert Moved(open, open, rows, rows);
      hide Moved;
      var todo := keys;
      while todo != {}
        invariant Valid() && todo <= keys
        invariant forall k :: k in open <==> k in old(open) && (k in keys ==> k in todo)
        invariant forall k :: k in open ==> open[k] == old(open)[k]
        invariant Moved(old(open), open, old(rows), rows)
        decreases todo
      {
        var k :| k in todo;
        MovedOne(old(open), open, old(rows), rows, k);
        Close(k);
        todo := todo - {k};
      }
      assert open == old(open) - keys;
    }

    /** Stores the stretches that went silent. */
    method Sweep(now: int)
      requires Valid()
      modifies this`open, this`rows
      ensures Valid() && Moved(old(open), open, old(rows), rows)
      ensures open == map k | k in old(open) && now - old(open)[k].end <= GAP_MS :: old(open)[k]
    {
      hide Conserved, OpenBounded, Bounded, Moved;
      CloseAll(set k | k in open && now - open[k].end > GAP_MS);
    }

    /** Stores everything: shutting down in the middle of a gesture. */
    method CloseEverything()
      requires Valid()
      modifies this`open, this`rows
      ensures Valid() && open == map[] && Moved(old(open), open, old(rows), rows)
    {
      hide Conserved, OpenBounded, Bounded, Moved;
      CloseAll(open.Keys);
    }

    /**
     The stretches of a camera that overlap a window: all the stored ones, up to 4000 in order of start,
     though the database is only asked for those that start within reach; and all the open ones.
     */
    method Query(camera: string, from: int, to: int) returns (stored: seq<Row<Gesture>>, live: set<Key>)
      requires Valid()
      ensures Blank(camera) || to <= from ==> stored == [] && live == {}
      ensures !Blank(camera) && from < to ==> stored == Limited(Overlapping(RowsOf(rows, camera), from, to), 4000)
      ensures !Blank(camera) && from < to ==>
        forall k :: k in live <==> k in open && k.camera == camera && Overlaps(RowOf(k, open[k]), from, to)
    {
      if Blank(camera) || to <= from {
        return [], {};
      }
      RowsOfBounded(rows, camera);
      ReachMissesNothing(RowsOf(rows, camera), from, to, MAX_MS);
      stored := Limited(Within(RowsOf(rows, camera), from, to, MAX_MS), 4000);
      live := set k | k in open && k.camera == camera && open[k].start <= to && open[k].end >= from;
    }
  }
}
