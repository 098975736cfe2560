/**
 Queries over stretches of time that look back a bounded distance: everything stored is known to be no
 longer than a limit, so that a stretch overlapping the window cannot start before the window less it.
 */
module LookBack {
  /** A stored stretch and what it is about. */
  datatype Row<T> = Row(start: int, end: int, what: T)

  predicate Overlaps<T>(r: Row<T>, from: int, to: int) {
    r.start <= to && r.end >= from
  }

  /** The rows that overlap a window. */
  function Overlapping<T>(rows: seq<Row<T>>, from: int, to: int): seq<Row<T>> {
    if rows == [] then []
    else
      var n := |rows| - 1;
      Overlapping(rows[..n], from, to) + (if Overlaps(rows[n], from, to) then [rows[n]] else [])
  }

  /** The rows the database is asked for: those that also start no earlier than the window less `reach`. */
  function Within<T>(rows: seq<Row<T>>, from: int, to: int, reach: int): seq<Row<T>> {
    if rows == [] then []
    else
      var n := |rows| - 1;
      Within(rows[..n], from, to, reach) + (if rows[n].start >= from - reach
        && Overlaps(rows[n], from, to) then [rows[n]] else [])
  }

  predicate NoLonger<T>(r: Row<T>, reach: int) {
    r.start <= r.end <= r.start + reach
  }

  lemma {:induction false} OverlappingIs<T>(rows: seq<Row<T>>, from: int, to: int, r: Row<T>)
    ensures multiset(Overlapping(rows, from, to))[r] == if Overlaps(r, from, to) then multiset(rows)[r] else 0
    decreases |rows|
  {
    if rows != [] {
      var n := |rows| - 1;
      OverlappingIs(rows[..n], from, to, r);
      assert rows == rows[..n] + [rows[n]];
    }
  }

  /** When no row is longer than the reach, the look-back misses nothing: row by row, in order. */
  lemma {:induction false} ReachMissesNothing<T>(rows: seq<Row<T>>, from: int, to: int, reach: int)
    requires forall k :: 0 <= k < |rows| ==> NoLonger(rows[k], reach)
    ensures Within(rows, from, to, reach) == Overlapping(rows, from, to)
    decreases |rows|
  {
    if rows != [] {
      var n := |rows| - 1;
      assert NoLonger(rows[n], reach);
      ReachMissesNothing(rows[..n], from, to, reach);
    }
  }

  // ------------------------------------------------------------ in order of start, up to a number

  function Insert<T>(rows: seq<Row<T>>, x: Row<T>): seq<Row<T>> {
    var n := |rows| - 1;
    if rows == [] || rows[n].start <= x.start then rows + [x] else Insert(rows[..n], x) + [rows[n]]
  }

  function Ordered<T>(rows: seq<Row<T>>): seq<Row<T>> {
    if rows == [] then [] else Insert(Ordered(rows[..|rows| - 1]), rows[|rows| - 1])
  }

  /** The first `limit` rows in order of start. */
  function Limited<T>(rows: seq<Row<T>>, limit: nat): seq<Row<T>> {
    if |Ordered(rows)| <= limit then Ordered(rows) else Ordered(rows)[..limit]
  }

  predicate Rising<T>(rows: seq<Row<T>>) {
    forall i, j :: 0 <= i < j < |rows| ==> rows[i].start <= rows[j].start
  }

  lemma {:induction false} InsertIs<T>(rows: seq<Row<T>>, x: Row<T>)
    requires Rising(rows)
    ensures multiset(Insert(rows, x)) == multiset(rows) + multiset{x}
    ensures Rising(Insert(rows, x))
    decreases |rows|
  {
    var n := |rows| - 1;
    if rows != [] {
      RisingFront(rows);
    }
    if rows != [] && rows[n].start > x.start {
      InsertWithin(rows[..n], x, rows[n].start);
      hide Rising;
      InsertIs(rows[..n], x);
      assert rows == rows[..n] + [rows[n]];
      RisingAppend(Insert(rows[..n], x), rows[n]);
    } else {
      RisingAppend(rows, x);
      hide Rising;
    }
  }

  lemma {:induction false} RisingFront<T>(rows: seq<Row<T>>)
    requires Rising(rows) && rows != []
    ensures Rising(rows[..|rows| - 1]) && forall i :: 0 <= i < |rows| ==> rows[i].start <= rows[|rows| - 1].start
  {
  }

  /** Nothing inserted comes after what came after all. */
  lemma {:induction false} InsertWithin<T>(rows: seq<Row<T>>, x: Row<T>, latest: int)
    requires x.start <= latest && forall i :: 0 <= i < |rows| ==> rows[i].start <= latest
    ensures forall i :: 0 <= i < |Insert(rows, x)| ==> Insert(rows, x)[i].start <= latest
    decreases |rows|
  {
    if rows != [] {
      InsertWithin(rows[..|rows| - 1], x, latest);
    }
  }

  lemma {:induction false} RisingAppend<T>(rows: seq<Row<T>>, x: Row<T>)
    requires Rising(rows) && forall i :: 0 <= i < |rows| ==> rows[i].start <= x.start
    ensures Rising(rows + [x])
  {
  }

  lemma {:induction false} OrderedIs<T>(rows: seq<Row<T>>)
    ensures multiset(Ordered(rows)) == multiset(rows) && Rising(Ordered(rows)) && |Ordered(rows)| == |rows|
    decreases |rows|
  {
    if rows != [] {
      var n := |rows| - 1;
      OrderedIs(rows[..n]);
      InsertIs(Ordered(rows[..n]), rows[n]);
      assert rows == rows[..n] + [rows[n]];
      assert |multiset(Ordered(rows))| == |multiset(rows)|;
    }
  }

  /** The answer is all of the rows or the earliest `limit`, in order of start; `later` is what it leaves out. */
  lemma {:induction false} LimitedIs<T>(rows: seq<Row<T>>, limit: nat) returns (later: seq<Row<T>>)
    ensures var out := Limited(rows, limit);
      Rising(out + later) && multiset(out + later) == multiset(rows)
      && |out| == (if |rows| <= limit then |rows| else limit)
  {
    OrderedIs(rows);
    var out := Limited(rows, limit);
    later := Ordered(rows)[|out|..];
    assert Ordered(rows) == out + later;
  }
}
